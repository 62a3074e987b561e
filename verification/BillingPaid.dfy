/** The checkout-completed handler, repository call by repository call, and its restart. */
module BillingPaid {
  import opened Common
  import opened BillingRepo

  datatype Stage = SaveRef | Pay | Reread | TryRevive | ReadPlan | GrantPlan | Subscribe | ClearMark

  /** Where a handler stands; order is the copy it read when it resolved the event. */
  datatype Phase = Lookup | LookupIntent | At(stage: Stage, id: nat, order: Order) | Finish | Fail | Done

  /** After an order is found the amounts are compared, without touching the store. */
  function Resolved(s: Store, e: PaymentEvent, id: Option<nat>): Phase
    requires id.Some? ==> id.value < |s.orders|
  {
    if id.None? then Finish
    else
      var o := s.orders[id.value];
      if AmountMismatch(o, e) then Finish
      else At(if e.paymentIntentRef != "" then SaveRef else Pay, id.value, o)
  }

  function IntentRef(e: PaymentEvent): string {
    if e.paymentIntentRef == "" then e.channelRef else e.paymentIntentRef
  }

  function Either(next: Option<Store>, s: Store, ok: Phase, conflict: Phase): (Store, Phase) {
    if next.Some? then (next.value, ok) else (s, conflict)
  }

  /** One repository call made while standing on an order. */
  function StepAt(s: Store, e: PaymentEvent, stage: Stage, id: nat, o: Order, expiresAt: int): (Store, Phase) {
    match stage
    case SaveRef => (SaveIntent(s, id, e.paymentIntentRef), At(Pay, id, o))
    case Pay => Either(UpdateStatus(s, id, Pending, Paid), s, At(ReadPlan, id, o), At(Reread, id, o))
    case Reread =>
      (s, if InStatus(s, id, Paid) then At(ReadPlan, id, o)
          else if InStatus(s, id, Canceled) then At(TryRevive, id, o)
          else Finish)
    case TryRevive => Either(Revive(s, id), s, At(ReadPlan, id, o), Finish)
    case ReadPlan => (s, At(GrantPlan, id, o))
    case GrantPlan =>
      Either(ChangePlan(s, o.workspace, o.planCode, ForOrder(id)), s,
             At(if e.subscriptionRef != "" then Subscribe else ClearMark, id, o), Fail)
    case Subscribe =>
      Either(SetSubscription(s, o.workspace, e.subscriptionRef, expiresAt), s, At(ClearMark, id, o), Fail)
    case ClearMark => (ClearCancel(s, o.workspace), Finish)
  }

  /** One repository call of the handler. */
  function Step(s: Store, e: PaymentEvent, ph: Phase, expiresAt: int): (Store, Phase) {
    match ph
    case Lookup =>
      if e.orderId.Some? then (s, Resolved(s, e, if e.orderId.value < |s.orders| then e.orderId else None))
      else if e.channelRef == "" then (s, LookupIntent)
      else
        var found := FindByChannelRef(s.orders, e.key.channel, e.channelRef);
        (s, if found.Some? then Resolved(s, e, found) else LookupIntent)
    case LookupIntent =>
      (s, Resolved(s, e, if IntentRef(e) == "" then None else FindByIntent(s.orders, IntentRef(e))))
    case At(stage, id, o) => StepAt(s, e, stage, id, o, expiresAt)
    case Finish => (Mark(s, e.key, Processed), Done)
    case Fail => (Mark(s, e.key, Errored), Done)
    case Done => (s, Done)
  }

  function Rank(ph: Phase): nat {
    match ph
    case Lookup => 11
    case LookupIntent => 10
    case At(stage, _, _) =>
      (match stage
       case SaveRef => 9 case Pay => 8 case Reread => 7 case TryRevive => 6 case ReadPlan => 5
       case GrantPlan => 4 case Subscribe => 3 case ClearMark => 2)
    case Finish => 1
    case Fail => 1
    case Done => 0
  }

  /** The store and phase after at most k calls. */
  function Prefix(s: Store, e: PaymentEvent, ph: Phase, expiresAt: int, k: nat): (Store, Phase)
    decreases k
  {
    if k == 0 then (s, ph)
    else
      var (s', ph') := Step(s, e, ph, expiresAt);
      Prefix(s', e, ph', expiresAt, k - 1)
  }

  /** The rest of the handler, run to its end. */
  function ToEnd(s: Store, e: PaymentEvent, ph: Phase, expiresAt: int): Store
    decreases Rank(ph)
  {
    if ph.Done? then s
    else
      var (s', ph') := Step(s, e, ph, expiresAt);
      ToEnd(s', e, ph', expiresAt)
  }

  function HandlePaid(s: Store, e: PaymentEvent, expiresAt: int): Store {
    ToEnd(s, e, Lookup, expiresAt)
  }

  // ---- what the handler amounts to ---------------------------------------

  function ResolveId(s: Store, e: PaymentEvent): (id: Option<nat>)
    ensures id.Some? ==> id.value < |s.orders|
  {
    if e.orderId.Some? then (if e.orderId.value < |s.orders| then e.orderId else None)
    else
      var byRef := if e.channelRef == "" then None else FindByChannelRef(s.orders, e.key.channel, e.channelRef);
      if byRef.Some? then byRef
      else if IntentRef(e) == "" then None else FindByIntent(s.orders, IntentRef(e))
  }

  /** A paid event may credit an order that is pending, already paid, or canceled by the sweeper. */
  predicate Creditable(o: Order) {
    o.status == Pending || o.status == Paid || (o.status == Canceled && o.canceledBy == ByExpiry)
  }

  function WithIntent(o: Order, e: PaymentEvent): Order {
    if e.paymentIntentRef == "" then o else o.(paymentIntent := e.paymentIntentRef)
  }

  function CreditedOrder(o: Order, e: PaymentEvent): Order {
    WithIntent(o, e).(status := Paid, canceledBy := if o.status == Canceled then Unknown else o.canceledBy)
  }

  function CreditedWorkspace(w: Workspace, o: Order, e: PaymentEvent, expiresAt: int): Workspace {
    Workspace(o.planCode,
              if e.subscriptionRef == "" then w.subscriptionRef else e.subscriptionRef,
              if e.subscriptionRef == "" then w.expiresAt else Some(expiresAt),
              false)
  }

  function CreditSummary(s: Store, e: PaymentEvent, id: nat, expiresAt: int): Store
    requires id < |s.orders|
  {
    var o := s.orders[id];
    if !Creditable(o) then Mark(SetOrder(s, id, WithIntent(o, e)), e.key, Processed)
    else
      var s1 := SetOrder(s, id, CreditedOrder(o, e));
      if o.workspace !in s.workspaces then Mark(s1, e.key, Errored)
      else
        var w := CreditedWorkspace(s.workspaces[o.workspace], o, e, expiresAt);
        Mark(s1.(workspaces := s.workspaces[o.workspace := w]), e.key, Processed)
  }

  /** The handler in one piece, without its plan-change log. */
  function Summary(s: Store, e: PaymentEvent, expiresAt: int): Store {
    var id := ResolveId(s, e);
    if id.None? || AmountMismatch(s.orders[id.value], e) then Mark(s, e.key, Processed)
    else CreditSummary(s, e, id.value, expiresAt)
  }

  function ForgetExpiry(w: Workspace): Workspace {
    w.(expiresAt := None)
  }

  ghost predicate SameWorkspaces(a: map<string, Workspace>, b: map<string, Workspace>) {
    a.Keys == b.Keys && forall w :: w in a ==> ForgetExpiry(a[w]) == ForgetExpiry(b[w])
  }

  /** Equal up to the clock-derived expiry and the log of plan changes. */
  ghost predicate SameOutcome(a: Store, b: Store) {
    a.orders == b.orders && a.events == b.events && SameWorkspaces(a.workspaces, b.workspaces)
  }

  lemma OutcomesChain(a: Store, b: Store, c: Store)
    requires SameOutcome(a, b) && SameOutcome(a, c)
    ensures SameOutcome(b, c)
  {
  }

  lemma WorkspaceSet(a: map<string, Workspace>, b: map<string, Workspace>, k: string, x: Workspace, y: Workspace)
    requires a.Keys == b.Keys && (forall w | w in a && w != k :: ForgetExpiry(a[w]) == ForgetExpiry(b[w]))
    requires ForgetExpiry(x) == ForgetExpiry(y)
    ensures SameWorkspaces(a[k := x], b[k := y])
    ensures k in b && ForgetExpiry(x) == ForgetExpiry(b[k]) ==> SameWorkspaces(a[k := x], b)
  {
  }

  // ---- lookups do not depend on what the handler writes -------------------

  ghost predicate SameRefs(a: seq<Order>, b: seq<Order>) {
    |a| == |b| && forall i :: 0 <= i < |a| ==> a[i].channel == b[i].channel && a[i].channelRef == b[i].channelRef
  }

  ghost predicate SameIntents(a: seq<Order>, b: seq<Order>) {
    |a| == |b| && forall i :: 0 <= i < |a| ==> a[i].paymentIntent == b[i].paymentIntent
  }

  lemma {:induction false} LookupsAgree(a: seq<Order>, b: seq<Order>, channel: string, ref: string)
    ensures SameRefs(a, b) ==> FindByChannelRef(a, channel, ref) == FindByChannelRef(b, channel, ref)
    ensures SameIntents(a, b) ==> FindByIntent(a, ref) == FindByIntent(b, ref)
  {
    if a != [] && b != [] {
      LookupsAgree(a[..|a| - 1], b[..|b| - 1], channel, ref);
    }
  }

  lemma ResolveAgrees(s: Store, t: Store, e: PaymentEvent)
    requires SameRefs(s.orders, t.orders) && SameIntents(s.orders, t.orders)
    ensures ResolveId(s, e) == ResolveId(t, e)
  {
    LookupsAgree(s.orders, t.orders, e.key.channel, e.channelRef);
    LookupsAgree(s.orders, t.orders, e.key.channel, IntentRef(e));
  }

  /** Recording the intent on the resolved order does not change what the event resolves to. */
  lemma SavedIntentResolvesSame(s: Store, e: PaymentEvent, id: nat)
    requires ResolveId(s, e) == Some(id) && e.paymentIntentRef != ""
    ensures ResolveId(SaveIntent(s, id, e.paymentIntentRef), e) == Some(id)
  {
    var t := SaveIntent(s, id, e.paymentIntentRef);
    LookupsAgree(s.orders, t.orders, e.key.channel, e.channelRef);
    if e.orderId.None? && (e.channelRef == "" || FindByChannelRef(s.orders, e.key.channel, e.channelRef).None?) {
      assert s.orders[id].paymentIntent == e.paymentIntentRef;
      assert t.orders == s.orders;
    }
  }

  // ---- the handler refines its summary ------------------------------------

  /** What holds of a handler standing on an order when nothing interferes. */
  ghost predicate Standing(s: Store, e: PaymentEvent, stage: Stage, id: nat, o: Order) {
    && ResolveId(s, e) == Some(id)
    && o.SameSale(s.orders[id])
    && !AmountMismatch(s.orders[id], e)
    && (stage.SaveRef? ==> e.paymentIntentRef != "")
    && (!stage.SaveRef? ==> WithIntent(s.orders[id], e) == s.orders[id])
    && (stage.Reread? ==> s.orders[id].status != Pending)
    && (stage.TryRevive? ==> s.orders[id].status == Canceled)
    && (stage.ReadPlan? || stage.GrantPlan? || stage.Subscribe? || stage.ClearMark? ==> s.orders[id].status == Paid)
    && (stage.Subscribe? || stage.ClearMark? ==>
          o.workspace in s.workspaces && s.workspaces[o.workspace].plan == o.planCode)
    && (stage.Subscribe? ==> e.subscriptionRef != "")
    && (stage.ClearMark? && e.subscriptionRef != "" ==>
          s.workspaces[o.workspace].subscriptionRef == e.subscriptionRef)
  }

  /** The last phases stand where running the whole handler again would only repeat the mark. */
  ghost predicate PhaseOk(s: Store, e: PaymentEvent, ph: Phase) {
    match ph
    case Lookup => true
    case LookupIntent =>
      e.orderId.None? && (e.channelRef == "" || FindByChannelRef(s.orders, e.key.channel, e.channelRef).None?)
    case At(stage, id, o) => Standing(s, e, stage, id, o)
    case Finish => SameOutcome(Summary(s, e, 0), Mark(s, e.key, Processed))
    case Fail => SameOutcome(Summary(s, e, 0), Mark(s, e.key, Errored))
    case Done => SameOutcome(Summary(s, e, 0), s)
  }

  lemma ClockOnlyMovesExpiry(s: Store, e: PaymentEvent, x: int, y: int)
    ensures SameOutcome(Summary(s, e, x), Summary(s, e, y))
  {
  }

  /** After a call: the handler stands where it should, and a rerun would come to the same. */
  ghost predicate Keeps(s: Store, e: PaymentEvent, next: (Store, Phase)) {
    PhaseOk(next.0, e, next.1) && SameOutcome(Summary(next.0, e, 0), Summary(s, e, 0))
  }

  /** Comparing the amounts is where the summary starts, too. */
  lemma ResolvedKeeps(s: Store, e: PaymentEvent, id: Option<nat>)
    requires ResolveId(s, e) == id
    ensures Keeps(s, e, (s, Resolved(s, e, id)))
  {
    var next := Resolved(s, e, id);
    if next.At? {
      assert Standing(s, e, next.stage, next.id, next.order);
    }
  }

  lemma ResolveKeeps(s: Store, e: PaymentEvent, ph: Phase, x: int)
    requires PhaseOk(s, e, ph) && (ph.Lookup? || ph.LookupIntent?)
    ensures Keeps(s, e, Step(s, e, ph, x))
  {
    var id := ResolveId(s, e);
    if Step(s, e, ph, x) == (s, Resolved(s, e, id)) {
      ResolvedKeeps(s, e, id);
    }
  }

  lemma IntentSavedTwice(s: Store, e: PaymentEvent, id: nat)
    requires id < |s.orders| && e.paymentIntentRef != ""
    ensures CreditSummary(SaveIntent(s, id, e.paymentIntentRef), e, id, 0) == CreditSummary(s, e, id, 0)
  {
    var s' := SaveIntent(s, id, e.paymentIntentRef);
    assert WithIntent(s'.orders[id], e) == WithIntent(s.orders[id], e);
    assert CreditedOrder(s'.orders[id], e) == CreditedOrder(s.orders[id], e);
    assert SetOrder(s', id, WithIntent(s.orders[id], e)) == SetOrder(s, id, WithIntent(s.orders[id], e));
    assert SetOrder(s', id, CreditedOrder(s.orders[id], e)) == SetOrder(s, id, CreditedOrder(s.orders[id], e));
  }

  lemma SaveRefKeeps(s: Store, e: PaymentEvent, id: nat, o: Order, x: int)
    requires Standing(s, e, SaveRef, id, o)
    ensures Keeps(s, e, StepAt(s, e, SaveRef, id, o, x))
  {
    SavedIntentResolvesSame(s, e, id);
    IntentSavedTwice(s, e, id);
    var s' := SaveIntent(s, id, e.paymentIntentRef);
    assert Summary(s', e, 0) == Summary(s, e, 0);
  }

  lemma PayKeeps(s: Store, e: PaymentEvent, id: nat, o: Order, x: int)
    requires Standing(s, e, Pay, id, o)
    ensures Keeps(s, e, StepAt(s, e, Pay, id, o, x))
  {
    if s.orders[id].status == Pending {
      var s' := StepAt(s, e, Pay, id, o, x).0;
      ResolveAgrees(s, s', e);
      PaidSummary(s', e, id);
      assert SetOrder(s, id, CreditedOrder(s.orders[id], e)) == s';
    }
  }

  lemma RereadKeeps(s: Store, e: PaymentEvent, id: nat, o: Order, x: int)
    requires Standing(s, e, Reread, id, o)
    ensures Keeps(s, e, StepAt(s, e, Reread, id, o, x))
  {
    assert SetOrder(s, id, s.orders[id]).orders == s.orders;
  }

  /** The summary once the order is paid for and its intent recorded: only the workspace is left. */
  lemma PaidSummary(s: Store, e: PaymentEvent, id: nat)
    requires ResolveId(s, e) == Some(id) && s.orders[id].status == Paid
    requires !AmountMismatch(s.orders[id], e) && WithIntent(s.orders[id], e) == s.orders[id]
    ensures var o := s.orders[id];
            Summary(s, e, 0)
            == if o.workspace !in s.workspaces then Mark(s, e.key, Errored)
               else Mark(s.(workspaces :=
                            s.workspaces[o.workspace := CreditedWorkspace(s.workspaces[o.workspace], o, e, 0)]),
                         e.key, Processed)
  {
    assert SetOrder(s, id, s.orders[id]) == s;
  }

  lemma ReviveKeeps(s: Store, e: PaymentEvent, id: nat, o: Order)
    requires Standing(s, e, TryRevive, id, o) && Revive(s, id).Some?
    ensures Keeps(s, e, (Revive(s, id).value, At(ReadPlan, id, o)))
  {
    var s' := Revive(s, id).value;
    ResolveAgrees(s, s', e);
    PaidSummary(s', e, id);
    assert SetOrder(s, id, CreditedOrder(s.orders[id], e)) == s';
  }

  lemma TryReviveKeeps(s: Store, e: PaymentEvent, id: nat, o: Order, x: int)
    requires Standing(s, e, TryRevive, id, o)
    ensures Keeps(s, e, StepAt(s, e, TryRevive, id, o, x))
  {
    if Revive(s, id).Some? {
      ReviveKeeps(s, e, id, o);
    } else {
      assert SetOrder(s, id, s.orders[id]) == s;
    }
  }

  /** What stands between two stores with the same paid order is their workspaces. */
  lemma PaidSummariesAgree(s: Store, t: Store, e: PaymentEvent, id: nat, o: Order)
    requires ResolveId(s, e) == Some(id) == ResolveId(t, e) && s.orders[id] == o && o.status == Paid
    requires !AmountMismatch(o, e) && WithIntent(o, e) == o
    requires s.orders == t.orders && s.events == t.events && s.workspaces.Keys == t.workspaces.Keys
    requires forall w | w in s.workspaces && w != o.workspace ::
               ForgetExpiry(s.workspaces[w]) == ForgetExpiry(t.workspaces[w])
    requires o.workspace in s.workspaces ==>
               ForgetExpiry(CreditedWorkspace(s.workspaces[o.workspace], o, e, 0))
               == ForgetExpiry(CreditedWorkspace(t.workspaces[o.workspace], o, e, 0))
    ensures SameOutcome(Summary(t, e, 0), Summary(s, e, 0))
  {
    PaidSummary(s, e, id);
    PaidSummary(t, e, id);
    if o.workspace in s.workspaces {
      WorkspaceSet(t.workspaces, s.workspaces, o.workspace,
                   CreditedWorkspace(t.workspaces[o.workspace], o, e, 0),
                   CreditedWorkspace(s.workspaces[o.workspace], o, e, 0));
    }
  }

  /** Crediting a workspace that has the plan already only marks the event. */
  lemma CreditedIsDone(s: Store, e: PaymentEvent, id: nat, o: Order)
    requires ResolveId(s, e) == Some(id) && s.orders[id] == o && o.status == Paid
    requires !AmountMismatch(o, e) && WithIntent(o, e) == o
    requires o.workspace in s.workspaces
    requires var w := s.workspaces[o.workspace]; ForgetExpiry(CreditedWorkspace(w, o, e, 0)) == ForgetExpiry(w)
    ensures SameOutcome(Summary(s, e, 0), Mark(s, e.key, Processed))
  {
    PaidSummary(s, e, id);
    var w := CreditedWorkspace(s.workspaces[o.workspace], o, e, 0);
    WorkspaceSet(s.workspaces, s.workspaces, o.workspace, w, w);
  }

  lemma GrantPlanKeeps(s: Store, e: PaymentEvent, id: nat, o: Order, x: int)
    requires Standing(s, e, GrantPlan, id, o)
    ensures Keeps(s, e, StepAt(s, e, GrantPlan, id, o, x))
  {
    var s' := StepAt(s, e, GrantPlan, id, o, x).0;
    ResolveAgrees(s, s', e);
    PaidSummariesAgree(s, s', e, id, s.orders[id]);
    if o.workspace !in s.workspaces {
      PaidSummary(s, e, id);
    }
  }

  lemma SubscribeKeeps(s: Store, e: PaymentEvent, id: nat, o: Order, x: int)
    requires Standing(s, e, Subscribe, id, o)
    ensures Keeps(s, e, StepAt(s, e, Subscribe, id, o, x))
  {
    var s' := StepAt(s, e, Subscribe, id, o, x).0;
    ResolveAgrees(s, s', e);
    PaidSummariesAgree(s, s', e, id, s.orders[id]);
  }

  lemma ClearedAgrees(s: Store, e: PaymentEvent, id: nat, o: Order)
    requires Standing(s, e, ClearMark, id, o)
    ensures var s' := ClearCancel(s, o.workspace);
            ResolveId(s', e) == Some(id) && SameOutcome(Summary(s', e, 0), Summary(s, e, 0))
  {
    var s' := ClearCancel(s, o.workspace);
    ResolveAgrees(s, s', e);
    PaidSummariesAgree(s, s', e, id, s.orders[id]);
  }

  lemma ClearMarkKeeps(s: Store, e: PaymentEvent, id: nat, o: Order, x: int)
    requires Standing(s, e, ClearMark, id, o)
    ensures Keeps(s, e, StepAt(s, e, ClearMark, id, o, x))
  {
    ClearedAgrees(s, e, id, o);
    CreditedIsDone(ClearCancel(s, o.workspace), e, id, s.orders[id]);
  }

  lemma MarkForgotten(s: Store, e: PaymentEvent, status: EventStatus)
    ensures Summary(Mark(s, e.key, status), e, 0) == Summary(s, e, 0)
  {
    var s' := Mark(s, e.key, status);
    ResolveAgrees(s, s', e);
    assert s'.events[e.key := Processed] == s.events[e.key := Processed] || e.key !in s.events;
    assert s'.events[e.key := Errored] == s.events[e.key := Errored] || e.key !in s.events;
  }

  lemma MarkKeeps(s: Store, e: PaymentEvent, status: EventStatus)
    requires SameOutcome(Summary(s, e, 0), Mark(s, e.key, status))
    ensures Keeps(s, e, (Mark(s, e.key, status), Done))
  {
    MarkForgotten(s, e, status);
  }

  lemma StepKeeps(s: Store, e: PaymentEvent, ph: Phase, x: int)
    requires PhaseOk(s, e, ph)
    ensures Keeps(s, e, Step(s, e, ph, x))
  {
    match ph
    case Lookup => ResolveKeeps(s, e, ph, x);
    case LookupIntent => ResolveKeeps(s, e, ph, x);
    case At(SaveRef, id, o) => SaveRefKeeps(s, e, id, o, x);
    case At(Pay, id, o) => PayKeeps(s, e, id, o, x);
    case At(Reread, id, o) => RereadKeeps(s, e, id, o, x);
    case At(TryRevive, id, o) => TryReviveKeeps(s, e, id, o, x);
    case At(ClearMark, id, o) => ClearMarkKeeps(s, e, id, o, x);
    case At(ReadPlan, id, o) =>
    case At(GrantPlan, id, o) => GrantPlanKeeps(s, e, id, o, x);
    case At(Subscribe, id, o) => SubscribeKeeps(s, e, id, o, x);
    case Finish => MarkKeeps(s, e, Processed);
    case Fail => MarkKeeps(s, e, Errored);
    case Done =>
  }

  /** Rerunning after any number of calls comes to the same outcome as rerunning before them. */
  lemma {:induction false} PrefixKeeps(s: Store, e: PaymentEvent, ph: Phase, x: int, k: nat)
    requires PhaseOk(s, e, ph)
    ensures Keeps(s, e, Prefix(s, e, ph, x, k))
    decreases k
  {
    if k != 0 {
      var (s', ph') := Step(s, e, ph, x);
      StepKeeps(s, e, ph, x);
      PrefixKeeps(s', e, ph', x, k - 1);
    }
  }

  lemma {:induction false} DoneStays(s: Store, e: PaymentEvent, x: int, k: nat)
    ensures Prefix(s, e, Done, x, k) == (s, Done)
    decreases k
  {
    if k != 0 {
      DoneStays(s, e, x, k - 1);
    }
  }

  lemma {:induction false} ToEndIsPrefix(s: Store, e: PaymentEvent, ph: Phase, x: int, k: nat)
    requires Rank(ph) <= k
    ensures Prefix(s, e, ph, x, k) == (ToEnd(s, e, ph, x), Done)
    decreases k
  {
    if ph.Done? {
      DoneStays(s, e, x, k);
    } else {
      var (s', ph') := Step(s, e, ph, x);
      ToEndIsPrefix(s', e, ph', x, k - 1);
    }
  }

  /** A done handler keeps the summary if its own is where it stands. */
  lemma DoneKeeps(s: Store, e: PaymentEvent, next: (Store, Phase), rerun: Store, whole: Store)
    requires Keeps(s, e, next) && next.1.Done? && rerun == Summary(next.0, e, 0) && whole == Summary(s, e, 0)
    ensures SameOutcome(rerun, next.0) && SameOutcome(rerun, whole)
  {
  }

  lemma DoneIsSummary(s: Store, e: PaymentEvent, next: (Store, Phase), rerun: Store, whole: Store)
    requires Keeps(s, e, next) && next.1.Done? && rerun == Summary(next.0, e, 0) && whole == Summary(s, e, 0)
    ensures SameOutcome(next.0, whole)
  {
    DoneKeeps(s, e, next, rerun, whole);
    OutcomesChain(rerun, next.0, whole);
  }

  /** An undisturbed handler comes to its summary. */
  lemma ToEndIsSummary(s: Store, e: PaymentEvent, ph: Phase, x: int)
    requires PhaseOk(s, e, ph)
    ensures SameOutcome(ToEnd(s, e, ph, x), Summary(s, e, 0))
  {
    PrefixKeeps(s, e, ph, x, Rank(ph));
    ToEndIsPrefix(s, e, ph, x, Rank(ph));
    var next := Prefix(s, e, ph, x, Rank(ph));
    DoneIsSummary(s, e, next, Summary(next.0, e, 0), Summary(s, e, 0));
  }

  lemma HandlerIsSummary(s: Store, e: PaymentEvent, x: int)
    ensures SameOutcome(HandlePaid(s, e, x), Summary(s, e, x))
  {
    ToEndIsSummary(s, e, Lookup, x);
    ClockOnlyMovesExpiry(s, e, x, 0);
  }

  // ---- restart -----------------------------------------------------------

  /** From any store: stop after any number of repository calls (just after reviving an order,
      say), run the handler again on the same event, and the orders, plans, subscription
      references, cancel marks and event rows are those of one uninterrupted run. */
  lemma HandlePaidRestarts(s: Store, e: PaymentEvent, k: nat, x: int, y: int)
    ensures SameOutcome(HandlePaid(Prefix(s, e, Lookup, x, k).0, e, y), HandlePaid(s, e, x))
  {
    var stopped := Prefix(s, e, Lookup, x, k).0;
    ToEndIsSummary(stopped, e, Lookup, y);
    PrefixKeeps(s, e, Lookup, x, k);
    ToEndIsSummary(s, e, Lookup, x);
  }

  /** A delivery of the event: the handler runs only if the event row is new or in error. */
  function Deliver(s: Store, e: PaymentEvent, expiresAt: int): Store {
    var (s', isNew) := InsertEvent(s, e.key);
    if isNew then HandlePaid(s', e, expiresAt) else s
  }

  /** What a first delivery leaves behind when it stops after k calls: a returned error marks
      the event, a crash does not. */
  function Interrupted(s: Store, e: PaymentEvent, expiresAt: int, k: nat, marked: bool): Store {
    var stopped := Prefix(InsertEvent(s, e.key).0, e, Lookup, expiresAt, k).0;
    if marked then Mark(stopped, e.key, Errored) else stopped
  }

  /** The redelivery of an interrupted event is taken up exactly when the stored event is in
      error, and then it completes the first delivery's work; otherwise it changes nothing, so a
      handler that died without recording its error is not resumed. */
  lemma RedeliveryResumesIffErrored(s: Store, e: PaymentEvent, k: nat, marked: bool, x: int, y: int)
    requires InsertEvent(s, e.key).1
    ensures var left := Interrupted(s, e, x, k, marked);
            && e.key in left.events
            && (marked ==> left.events[e.key] == Errored)
            && (!marked && !Prefix(InsertEvent(s, e.key).0, e, Lookup, x, k).1.Done? ==> left.events[e.key] == Received)
            && (left.events[e.key] == Errored ==> SameOutcome(Deliver(left, e, y), Deliver(s, e, x)))
            && (left.events[e.key] != Errored ==> Deliver(left, e, y) == left)
  {
    var s1 := InsertEvent(s, e.key).0;
    EventRowStays(s1, e, Lookup, x, k);
    var left := Interrupted(s, e, x, k, marked);
    if left.events[e.key] == Errored {
      var again := InsertEvent(left, e.key).0;
      var stopped := Prefix(s1, e, Lookup, x, k).0;
      EventRowIrrelevant(again, stopped, e);
      ToEndIsSummary(again, e, Lookup, y);
      PrefixKeeps(s1, e, Lookup, x, k);
      ToEndIsSummary(s1, e, Lookup, x);
    }
  }

  lemma {:induction false} EventRowStays(s: Store, e: PaymentEvent, ph: Phase, x: int, k: nat)
    requires e.key in s.events
    ensures var (s', ph') := Prefix(s, e, ph, x, k);
            && e.key in s'.events
            && (ph.Done? ==> ph'.Done?)
            && (!ph'.Done? ==> s'.events[e.key] == s.events[e.key])
    decreases k
  {
    if k != 0 {
      var (s', ph') := Step(s, e, ph, x);
      EventRowStays(s', e, ph', x, k - 1);
    }
  }

  lemma SetAgain<K, V>(a: map<K, V>, b: map<K, V>, k: K, x: V, y: V)
    requires k in a && k in b && a[k := x] == b[k := x]
    ensures a[k := y] == b[k := y]
  {
    assert a[k := y] == a[k := x][k := y];
    assert b[k := y] == b[k := x][k := y];
  }

  lemma CreditsAgree(a: Store, b: Store, e: PaymentEvent, id: nat)
    requires id < |a.orders| && a.orders == b.orders && a.workspaces == b.workspaces
    requires e.key in a.events && e.key in b.events
    requires forall status: EventStatus :: Mark(a, e.key, status).events == Mark(b, e.key, status).events
    ensures SameOutcome(CreditSummary(a, e, id, 0), CreditSummary(b, e, id, 0))
  {
    assert Mark(a, e.key, Processed).events == Mark(b, e.key, Processed).events;
    assert Mark(a, e.key, Errored).events == Mark(b, e.key, Errored).events;
  }

  lemma EventRowIrrelevant(a: Store, b: Store, e: PaymentEvent)
    requires a.orders == b.orders && a.workspaces == b.workspaces
    requires e.key in a.events && e.key in b.events && a.events[e.key := Processed] == b.events[e.key := Processed]
    ensures SameOutcome(Summary(a, e, 0), Summary(b, e, 0))
  {
    forall status: EventStatus ensures Mark(a, e.key, status).events == Mark(b, e.key, status).events {
      SetAgain(a.events, b.events, e.key, Processed, status);
    }
    var id := ResolveId(a, e);
    assert id == ResolveId(b, e);
    if id.Some? && !AmountMismatch(a.orders[id.value], e) {
      CreditsAgree(a, b, e, id.value);
    }
  }

  /** The gap is real: a crash right after the order is paid leaves the buyer on the old plan,
      and no redelivery changes that. */
  lemma CrashAfterPayIsNotResumed(y: int)
    ensures exists s: Store, e: PaymentEvent, w: string ::
              var left := Interrupted(s, e, 0, 2, false);
              && InsertEvent(s, e.key).1 && w in left.workspaces && w in Deliver(s, e, 0).workspaces
              && Deliver(left, e, y) == left
              && left.orders == Deliver(s, e, 0).orders
              && left.workspaces[w].plan != Deliver(s, e, 0).workspaces[w].plan
  {
    var o := Order("w", "pro", 900, "USD", "stripe", 0, Pending, Unknown, "", "");
    var s := Store([o], map["w" := Workspace(FREE, "", None, false)], map[], []);
    var e := PaymentEvent(EventKey("stripe", "evt"), Some(0), "", "", "", 900, "USD");
    var s1 := InsertEvent(s, e.key).0;
    assert Step(s1, e, Lookup, 0) == (s1, At(Pay, 0, o));
    var s2 := SetOrder(s1, 0, o.(status := Paid));
    assert Step(s1, e, At(Pay, 0, o), 0) == (s2, At(ReadPlan, 0, o));
    assert Prefix(s1, e, At(Pay, 0, o), 0, 1).0 == Prefix(s2, e, At(ReadPlan, 0, o), 0, 0).0 == s2;
    var left := Interrupted(s, e, 0, 2, false);
    assert left == s2;
    HandlerIsSummary(s1, e, 0);
    assert ForgetExpiry(Deliver(s, e, 0).workspaces["w"]) == ForgetExpiry(Summary(s1, e, 0).workspaces["w"]);
    assert left.workspaces["w"].plan != Deliver(s, e, 0).workspaces["w"].plan;
  }
}
