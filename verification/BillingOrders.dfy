/** Orders under interleaving: every schedule of handler calls and of the other paths' calls. */
module BillingOrders {
  // Paid-event handlers advance one repository call at a time; the calls every other path makes
  // (failed and refund events, user and admin cancels, manual mark-paid, the stale-order sweeper,
  // renewals, workspace edits) may happen between any two of them.

  import opened Common
  import opened BillingRepo
  import opened BillingPaid

  datatype Entry =
    | StatusSet(id: nat, from: OrderStatus, to: OrderStatus)
    | PlanSet(change: PlanChange, event: PaymentEvent)

  datatype Handler = Handler(event: PaymentEvent, phase: Phase, expiresAt: int)

  /** The log is history only, single-row status writes and plan changes made for orders; no step
      reads it. */
  datatype System = System(store: Store, handlers: map<nat, Handler>, log: seq<Entry>)

  datatype Action =
    | Create(order: Order)
    | Deliver(h: nat, event: PaymentEvent, expiresAt: int)
    | Advance(h: nat)
    | Drop(h: nat, marked: bool)
    | FailOrder(id: nat)
    | Cancel(id: nat, who: CanceledBy)
    | Sweep(ids: set<nat>)
    | MarkPaid(id: nat)
    | Refund(id: nat)
    | SetRefs(id: nat, channelRef: string, intent: string)
    | OtherPlanChange(workspace: string, plan: string, reason: Reason)
    | EditWorkspace(workspace: string, row: Workspace)

  const MANUAL := "manual"

  ghost predicate CanAct(s: System, a: Action) {
    match a
    case Create(o) => o.status == Pending && o.canceledBy == Unknown
    case Deliver(h, _, _) => h !in s.handlers
    case Advance(h) => h in s.handlers
    case Drop(h, _) => h in s.handlers
    case FailOrder(id) => InStatus(s.store, id, Pending)
    case Cancel(id, who) => InStatus(s.store, id, Pending) && (who == ByUser || who == ByAdmin)
    case Sweep(ids) => forall i :: i in ids ==> InStatus(s.store, i, Pending)
    case MarkPaid(id) => InStatus(s.store, id, Pending) && s.store.orders[id].channel == MANUAL
    case Refund(id) => InStatus(s.store, id, Paid)
    case SetRefs(id, _, _) => id < |s.store.orders|
    case OtherPlanChange(w, _, reason) => w in s.store.workspaces && !reason.ForOrder?
    case EditWorkspace(_, _) => true
  }

  /** A status write of one order together with its log entry. */
  function Write(s: System, id: nat, next: Store, to: OrderStatus): System
    requires id < |s.store.orders|
  {
    s.(store := next, log := s.log + [StatusSet(id, s.store.orders[id].status, to)])
  }

  function SweptOrders(orders: seq<Order>, ids: set<nat>): (out: seq<Order>)
    ensures |out| == |orders|
  {
    seq(|orders|, i requires 0 <= i < |orders| =>
      if i in ids then orders[i].(status := Canceled, canceledBy := ByExpiry) else orders[i])
  }

  /** What one handler call adds to the log. */
  function Entries(before: Store, after: Store, e: PaymentEvent, ph: Phase): seq<Entry> {
    if ph.At? && (ph.stage.Pay? || ph.stage.TryRevive?) && ph.id < |before.orders| && after != before then
      [StatusSet(ph.id, before.orders[ph.id].status, Paid)]
    else if ph.At? && ph.stage.GrantPlan? && |after.planLog| > 0 && after != before then
      [PlanSet(after.planLog[|after.planLog| - 1], e)]
    else []
  }

  ghost function Act(s: System, a: Action): System
    requires CanAct(s, a)
  {
    match a
    case Create(o) => s.(store := s.store.(orders := s.store.orders + [o]))
    case Deliver(h, e, x) =>
      var (store, isNew) := InsertEvent(s.store, e.key);
      s.(store := store, handlers := if isNew then s.handlers[h := Handler(e, Lookup, x)] else s.handlers)
    case Advance(h) =>
      var hd := s.handlers[h];
      var (store, ph) := Step(s.store, hd.event, hd.phase, hd.expiresAt);
      System(store, s.handlers[h := hd.(phase := ph)], s.log + Entries(s.store, store, hd.event, hd.phase))
    case Drop(h, marked) =>
      var hd := s.handlers[h];
      s.(store := if marked then Mark(s.store, hd.event.key, Errored) else s.store,
         handlers := s.handlers[h := hd.(phase := Done)])
    case FailOrder(id) => Write(s, id, UpdateStatus(s.store, id, Pending, Failed).value, Failed)
    case Cancel(id, who) => Write(s, id, CancelOrder(s.store, id, who).value, Canceled)
    case Sweep(ids) => s.(store := s.store.(orders := SweptOrders(s.store.orders, ids)))
    case MarkPaid(id) => Write(s, id, UpdateStatus(s.store, id, Pending, Paid).value, Paid)
    case Refund(id) => Write(s, id, UpdateStatus(s.store, id, Paid, Refunded).value, Refunded)
    case SetRefs(id, ref, intent) =>
      s.(store := SetOrder(s.store, id, s.store.orders[id].(channelRef := ref, paymentIntent := intent)))
    case OtherPlanChange(w, plan, reason) => s.(store := ChangePlan(s.store, w, plan, reason).value)
    case EditWorkspace(w, row) => s.(store := s.store.(workspaces := s.store.workspaces[w := row]))
  }

  // ---- one order's life --------------------------------------------------

  /** The edges of the order state machine. */
  predicate Allowed(o: Order, o': Order) {
    && o.SameSale(o')
    && (|| (o'.status == o.status && o'.canceledBy == o.canceledBy)
        || (o.status == Pending && o'.status == Paid && o'.canceledBy == o.canceledBy)
        || (o.status == Pending && o'.status == Failed)
        || (o.status == Pending && o'.status == Canceled && o'.canceledBy != Unknown)
        || (o.status == Canceled && o.canceledBy == ByExpiry && o'.status == Paid)
        || (o.status == Paid && o'.status == Refunded))
  }

  lemma OrdersFollowTheMachine(s: System, a: Action, id: nat)
    requires CanAct(s, a) && id < |s.store.orders|
    ensures id < |Act(s, a).store.orders| && Allowed(s.store.orders[id], Act(s, a).store.orders[id])
  {
    if a.Advance? {
      HandlerFollowsTheMachine(s.store, s.handlers[a.h].event, s.handlers[a.h].phase, s.handlers[a.h].expiresAt, id);
    }
  }

  lemma HandlerFollowsTheMachine(s: Store, e: PaymentEvent, ph: Phase, x: int, id: nat)
    requires id < |s.orders|
    ensures |Step(s, e, ph, x).0.orders| == |s.orders| && Allowed(s.orders[id], Step(s, e, ph, x).0.orders[id])
  {
    if ph.At? {
      StageFollowsTheMachine(s, e, ph.stage, ph.id, ph.order, x, id);
    }
  }

  lemma StageFollowsTheMachine(s: Store, e: PaymentEvent, stage: Stage, at: nat, o: Order, x: int, id: nat)
    requires id < |s.orders|
    ensures var s' := StepAt(s, e, stage, at, o, x).0;
            |s'.orders| == |s.orders| && Allowed(s.orders[id], s'.orders[id])
  {
  }

  /** Failed, refunded, and canceled by anyone but the sweeper: no way out. */
  predicate Closed(o: Order) {
    o.status == Failed || o.status == Refunded || (o.status == Canceled && o.canceledBy != ByExpiry)
  }

  ghost predicate Schedule(s: System, acts: seq<Action>)
    decreases |acts|
  {
    acts == [] || (CanAct(s, acts[0]) && Schedule(Act(s, acts[0]), acts[1..]))
  }

  ghost function After(s: System, acts: seq<Action>): System
    requires Schedule(s, acts)
    decreases |acts|
  {
    if acts == [] then s else After(Act(s, acts[0]), acts[1..])
  }

  lemma {:induction false} ClosedOrdersStayClosed(s: System, acts: seq<Action>, id: nat)
    requires Schedule(s, acts) && id < |s.store.orders| && Closed(s.store.orders[id])
    ensures var orders' := After(s, acts).store.orders;
            && id < |orders'|
            && orders'[id].status == s.store.orders[id].status
            && orders'[id].SameSale(s.store.orders[id])
    decreases |acts|
  {
    if acts != [] {
      OrdersFollowTheMachine(s, acts[0], id);
      ClosedOrdersStayClosed(Act(s, acts[0]), acts[1..], id);
    }
  }

  // ---- every granted plan was paid for -----------------------------------

  ghost predicate WasPaid(log: seq<Entry>, id: nat) {
    exists j :: 0 <= j < |log| && log[j].StatusSet? && log[j].id == id && log[j].to == Paid
  }

  /** A handler that holds an order has checked the amount; one past the payment step stands on
      an order that has been paid. */
  predicate PastPayment(stage: Stage) {
    !(stage.SaveRef? || stage.Pay? || stage.Reread? || stage.TryRevive?)
  }

  predicate Checked(s: Store, e: PaymentEvent, ph: Phase) {
    ph.At? ==>
      && ph.id < |s.orders|
      && ph.order.SameSale(s.orders[ph.id])
      && !AmountMismatch(s.orders[ph.id], e)
  }

  ghost predicate HandlerOk(s: System, hd: Handler) {
    && Checked(s.store, hd.event, hd.phase)
    && (hd.phase.At? && PastPayment(hd.phase.stage) ==> WasPaid(s.log, hd.phase.id))
  }

  /** A plan change made for an order: the order was paid before it, for the amount the event
      carries, and the plan and workspace are the order's own. */
  ghost predicate Earned(orders: seq<Order>, log: seq<Entry>, j: nat)
    requires j < |log| && log[j].PlanSet?
  {
    var c := log[j].change;
    && c.reason.ForOrder? && c.reason.id < |orders|
    && WasPaid(log[..j], c.reason.id)
    && !AmountMismatch(orders[c.reason.id], log[j].event)
    && c.toPlan == orders[c.reason.id].planCode
    && c.workspace == orders[c.reason.id].workspace
  }

  predicate EverPaid(o: Order) {
    o.status == Paid || o.status == Refunded
  }

  ghost predicate Inv(s: System) {
    && (forall id :: 0 <= id < |s.store.orders| && EverPaid(s.store.orders[id]) ==> WasPaid(s.log, id))
    && (forall h :: h in s.handlers ==> HandlerOk(s, s.handlers[h]))
    && (forall j :: 0 <= j < |s.log| && s.log[j].PlanSet? ==> Earned(s.store.orders, s.log, j))
  }

  lemma PaidStaysPaid(log: seq<Entry>, more: seq<Entry>, id: nat)
    requires WasPaid(log, id)
    ensures WasPaid(log + more, id)
  {
    var j :| 0 <= j < |log| && log[j].StatusSet? && log[j].id == id && log[j].to == Paid;
    assert (log + more)[j] == log[j];
  }

  ghost predicate GrowsTo(s: System, s': System) {
    && |s.store.orders| <= |s'.store.orders|
    && (forall id :: 0 <= id < |s.store.orders| ==> s.store.orders[id].SameSale(s'.store.orders[id]))
    && s.log <= s'.log
  }

  /** What was established stays established as orders and log grow. */
  lemma EstablishedStays(s: System, s': System)
    requires Inv(s) && GrowsTo(s, s')
    ensures forall h :: h in s.handlers ==> HandlerOk(s', s.handlers[h])
    ensures forall j :: 0 <= j < |s.log| && s.log[j].PlanSet? ==> Earned(s'.store.orders, s'.log, j)
    ensures forall id :: 0 <= id < |s.store.orders| && WasPaid(s.log, id) ==> WasPaid(s'.log, id)
  {
    var more := s'.log[|s.log|..];
    assert s'.log == s.log + more;
    forall id | 0 <= id < |s.store.orders| && WasPaid(s.log, id) ensures WasPaid(s'.log, id) {
      PaidStaysPaid(s.log, more, id);
    }
    forall j | 0 <= j < |s.log| && s.log[j].PlanSet? ensures Earned(s'.store.orders, s'.log, j) {
      assert s'.log[..j] == s.log[..j] && s'.log[j] == s.log[j];
      assert Earned(s.store.orders, s.log, j);
    }
    forall h | h in s.handlers ensures HandlerOk(s', s.handlers[h]) {
      assert HandlerOk(s, s.handlers[h]);
    }
  }

  lemma ActGrows(s: System, a: Action)
    requires CanAct(s, a)
    ensures GrowsTo(s, Act(s, a))
  {
    var s' := Act(s, a);
    forall id | 0 <= id < |s.store.orders|
      ensures id < |s'.store.orders| && s.store.orders[id].SameSale(s'.store.orders[id])
    {
      OrdersFollowTheMachine(s, a, id);
    }
  }

  lemma ActKeepsInv(s: System, a: Action)
    requires Inv(s) && CanAct(s, a)
    ensures Inv(Act(s, a))
  {
    ActGrows(s, a);
    if a.Advance? {
      AdvanceKeepsInv(s, a.h);
    } else {
      OtherActKeepsInv(s, a, Act(s, a));
    }
  }

  lemma OtherActKeepsInv(s: System, a: Action, s': System)
    requires Inv(s) && CanAct(s, a) && !a.Advance? && s' == Act(s, a) && GrowsTo(s, s')
    ensures Inv(s')
  {
    OtherActsPay(s, a);
    EstablishedStays(s, s');
  }

  lemma OtherActsPay(s: System, a: Action)
    requires Inv(s) && CanAct(s, a) && !a.Advance?
    ensures var s' := Act(s, a);
            forall id :: 0 <= id < |s'.store.orders| && EverPaid(s'.store.orders[id]) ==> WasPaid(s'.log, id)
  {
    var s' := Act(s, a);
    forall id | 0 <= id < |s'.store.orders| && EverPaid(s'.store.orders[id]) ensures WasPaid(s'.log, id) {
      OtherActPays(s, a, id);
    }
  }

  lemma OtherActPays(s: System, a: Action, id: nat)
    requires Inv(s) && CanAct(s, a) && !a.Advance?
    requires id < |Act(s, a).store.orders| && EverPaid(Act(s, a).store.orders[id])
    ensures WasPaid(Act(s, a).log, id)
  {
    var s' := Act(s, a);
    if a.MarkPaid? && id == a.id {
      assert s'.log[|s.log|].to == Paid && s'.log[|s.log|].id == id;
    } else {
      assert id < |s.store.orders| && EverPaid(s.store.orders[id]);
      PaidStaysPaid(s.log, s'.log[|s.log|..], id);
      assert s'.log == s.log + s'.log[|s.log|..];
    }
  }

  lemma AdvanceKeepsInv(s: System, h: nat)
    requires Inv(s) && CanAct(s, Advance(h)) && GrowsTo(s, Act(s, Advance(h)))
    ensures Inv(Act(s, Advance(h)))
  {
    var (s', hd) := (Act(s, Advance(h)), s.handlers[h]);
    EstablishedStays(s, s');
    forall id | 0 <= id < |s'.store.orders| && EverPaid(s'.store.orders[id]) ensures WasPaid(s'.log, id) {
      AdvancePays(s, h, id);
    }
    AdvanceHandlerOk(s, h);
    AdvanceEarns(s, h);
  }

  lemma AdvancePays(s: System, h: nat, id: nat)
    requires Inv(s) && CanAct(s, Advance(h))
    requires id < |Act(s, Advance(h)).store.orders| && EverPaid(Act(s, Advance(h)).store.orders[id])
    ensures WasPaid(Act(s, Advance(h)).log, id)
  {
    var (s', hd) := (Act(s, Advance(h)), s.handlers[h]);
    HandlerPays(s.store, hd.event, hd.phase, hd.expiresAt, id);
    if EverPaid(s.store.orders[id]) {
      PaidStaysPaid(s.log, s'.log[|s.log|..], id);
      assert s'.log == s.log + s'.log[|s.log|..];
    } else {
      assert s'.log[|s.log|] == StatusSet(id, s.store.orders[id].status, Paid);
    }
  }

  /** A handler call that pays an order logs it. */
  lemma HandlerPays(s: Store, e: PaymentEvent, ph: Phase, x: int, id: nat)
    requires id < |Step(s, e, ph, x).0.orders| && EverPaid(Step(s, e, ph, x).0.orders[id])
    ensures id < |s.orders|
    ensures EverPaid(s.orders[id])
            || Entries(s, Step(s, e, ph, x).0, e, ph) == [StatusSet(id, s.orders[id].status, Paid)]
  {
  }

  lemma StageCarries(s: Store, e: PaymentEvent, stage: Stage, id: nat, o: Order, x: int)
    requires Checked(s, e, At(stage, id, o))
    ensures var (s', ph') := StepAt(s, e, stage, id, o, x);
            && Checked(s', e, ph')
            && (ph'.At? && PastPayment(ph'.stage) ==>
                  ph'.id == id && (EverPaid(s'.orders[id]) || PastPayment(stage)))
  {
  }

  /** A handler gets past the payment step only on an order that is paid by then. */
  lemma HandlerCarries(s: Store, e: PaymentEvent, ph: Phase, x: int)
    requires Checked(s, e, ph)
    ensures var (s', ph') := Step(s, e, ph, x);
            && Checked(s', e, ph')
            && (ph'.At? && PastPayment(ph'.stage) ==>
                  EverPaid(s'.orders[ph'.id]) || (ph.At? && PastPayment(ph.stage) && ph.id == ph'.id))
  {
    if ph.At? {
      StageCarries(s, e, ph.stage, ph.id, ph.order, x);
    }
  }

  lemma AdvanceHandlerOk(s: System, h: nat)
    requires Inv(s) && CanAct(s, Advance(h)) && GrowsTo(s, Act(s, Advance(h)))
    ensures HandlerOk(Act(s, Advance(h)), Act(s, Advance(h)).handlers[h])
  {
    var (s', hd) := (Act(s, Advance(h)), s.handlers[h]);
    assert HandlerOk(s, hd);
    HandlerCarries(s.store, hd.event, hd.phase, hd.expiresAt);
    var ph' := s'.handlers[h].phase;
    if ph'.At? && PastPayment(ph'.stage) {
      if EverPaid(s'.store.orders[ph'.id]) {
        AdvancePays(s, h, ph'.id);
      } else {
        PaidStaysPaid(s.log, s'.log[|s.log|..], ph'.id);
        assert s'.log == s.log + s'.log[|s.log|..];
      }
    }
  }

  lemma AdvanceEarns(s: System, h: nat)
    requires Inv(s) && CanAct(s, Advance(h)) && GrowsTo(s, Act(s, Advance(h)))
    ensures var s' := Act(s, Advance(h));
            forall j :: |s.log| <= j < |s'.log| && s'.log[j].PlanSet? ==> Earned(s'.store.orders, s'.log, j)
  {
    var (s', hd) := (Act(s, Advance(h)), s.handlers[h]);
    assert HandlerOk(s, hd);
    assert s'.log[..|s.log|] == s.log;
  }

  // ---- whole interleavings -----------------------------------------------

  lemma {:induction false} InvHoldsThroughout(s: System, acts: seq<Action>)
    requires Inv(s) && Schedule(s, acts)
    ensures Inv(After(s, acts))
    decreases |acts|
  {
    if acts != [] {
      ActKeepsInv(s, acts[0]);
      InvHoldsThroughout(Act(s, acts[0]), acts[1..]);
    }
  }

  /** A system before any order exists, with whatever workspaces. */
  function Fresh(workspaces: map<string, Workspace>): System {
    System(Store([], workspaces, map[], []), map[], [])
  }

  /** Whatever the interleaving, a plan change made for an order comes after that order was paid, grants
      the order's own plan to its own workspace, and its event was for a trial, carried no amount, or
      carried the order's amount in the order's currency. */
  lemma GrantedPlansWerePaidFor(workspaces: map<string, Workspace>, acts: seq<Action>, j: nat)
    requires Schedule(Fresh(workspaces), acts)
    requires j < |After(Fresh(workspaces), acts).log| && After(Fresh(workspaces), acts).log[j].PlanSet?
    ensures var s := After(Fresh(workspaces), acts);
            && Earned(s.store.orders, s.log, j)
            && var (o, e) := (s.store.orders[s.log[j].change.reason.id], s.log[j].event);
               || o.trialDays > 0 || e.amountCents <= 0
               || (e.amountCents == o.amountCents && CurrenciesAgree(e.currency, o.currency))
  {
    InvHoldsThroughout(Fresh(workspaces), acts);
    var s := After(Fresh(workspaces), acts);
    AmountMismatchIff(s.store.orders[s.log[j].change.reason.id], s.log[j].event);
  }

  /** The log leaves out no plan change made for an order. */
  lemma PlanChangesAreLogged(s: System, a: Action)
    requires CanAct(s, a)
    ensures var s' := Act(s, a);
            && s.store.planLog <= s'.store.planLog
            && |s'.store.planLog| <= |s.store.planLog| + 1
            && (|s'.store.planLog| > |s.store.planLog| ==>
                  var c := s'.store.planLog[|s.store.planLog|];
                  c.reason.ForOrder? ==> a.Advance? && s'.log == s.log + [PlanSet(c, s.handlers[a.h].event)])
  {
  }

  lemma OneMoreAct(s: System, acts: seq<Action>, a: Action)
    requires CanAct(s, a) && Schedule(Act(s, a), acts)
    ensures Schedule(s, [a] + acts) && After(s, [a] + acts) == After(Act(s, a), acts)
  {
    assert ([a] + acts)[1..] == acts;
  }

  /** One more action at the end of a schedule. */
  lemma {:induction false} ThenActs(start: System, acts: seq<Action>, s: System, a: Action)
    requires Schedule(start, acts) && After(start, acts) == s && CanAct(s, a)
    ensures Schedule(start, acts + [a]) && After(start, acts + [a]) == Act(s, a)
    decreases |acts|
  {
    if acts == [] {
      OneMoreAct(s, [], a);
    } else {
      ThenActs(Act(start, acts[0]), acts[1..], s, a);
      OneMoreAct(start, acts[1..] + [a], acts[0]);
      assert [acts[0]] + (acts[1..] + [a]) == acts + [a];
    }
  }

  // ---- when a closed order's plan is still granted ------------------------

  /** The handler is about to read the order's plan, or to grant it. */
  predicate Granting(ph: Phase, id: nat) {
    ph.At? && ph.id == id && (ph.stage.ReadPlan? || ph.stage.GrantPlan?)
  }

  ghost predicate GrantPending(s: System, id: nat) {
    exists h :: h in s.handlers && Granting(s.handlers[h].phase, id)
  }

  /** The log has a plan change for the order after its first `from` entries. */
  ghost predicate GrantedSince(from: nat, log: seq<Entry>, id: nat) {
    exists j :: from <= j < |log| && log[j].PlanSet? && log[j].change.reason == ForOrder(id)
  }

  /** The schedule goes through from here and grants the order's plan on the way. */
  ghost predicate GrantsLater(s: System, acts: seq<Action>, id: nat) {
    Schedule(s, acts) && GrantedSince(|s.log|, After(s, acts).log, id)
  }

  lemma StageComesToGrant(s: Store, e: PaymentEvent, stage: Stage, at: nat, o: Order, x: int, id: nat)
    requires id < |s.orders| && Closed(s.orders[id]) && !Granting(At(stage, at, o), id)
    ensures !Granting(StepAt(s, e, stage, at, o, x).1, id)
  {
  }

  lemma HandlerComesToGrant(s: Store, e: PaymentEvent, ph: Phase, x: int, id: nat)
    requires id < |s.orders| && Closed(s.orders[id]) && !Granting(ph, id)
    ensures !Granting(Step(s, e, ph, x).1, id) && !GrantedSince(0, Entries(s, Step(s, e, ph, x).0, e, ph), id)
  {
    if ph.At? {
      StageComesToGrant(s, e, ph.stage, ph.id, ph.order, x, id);
    }
  }

  lemma OtherActsGrantNothing(s: System, a: Action, id: nat)
    requires CanAct(s, a) && !a.Advance? && !GrantPending(s, id)
    ensures !GrantPending(Act(s, a), id) && !GrantedSince(|s.log|, Act(s, a).log, id)
  {
    var s' := Act(s, a);
    forall h | h in s'.handlers ensures !Granting(s'.handlers[h].phase, id) {
      assert h in s.handlers ==> !Granting(s.handlers[h].phase, id);
    }
  }

  /** No action brings a closed order's grant about. */
  lemma ActGrantsNothing(s: System, a: Action, id: nat)
    requires CanAct(s, a) && id < |s.store.orders| && Closed(s.store.orders[id]) && !GrantPending(s, id)
    ensures !GrantPending(Act(s, a), id) && s.log <= Act(s, a).log && !GrantedSince(|s.log|, Act(s, a).log, id)
  {
    if a.Advance? {
      var (s', hd) := (Act(s, a), s.handlers[a.h]);
      HandlerComesToGrant(s.store, hd.event, hd.phase, hd.expiresAt, id);
      var more := Entries(s.store, s'.store, hd.event, hd.phase);
      forall j | |s.log| <= j < |s'.log| ensures !(s'.log[j].PlanSet? && s'.log[j].change.reason == ForOrder(id)) {
        assert s'.log[j] == more[j - |s.log|];
      }
      forall h | h in s'.handlers ensures !Granting(s'.handlers[h].phase, id) {
        assert h == a.h || !Granting(s.handlers[h].phase, id);
      }
    } else {
      OtherActsGrantNothing(s, a, id);
    }
  }

  lemma {:induction false} NothingPendingGrantsNothing(s: System, acts: seq<Action>, id: nat)
    requires Schedule(s, acts) && id < |s.store.orders| && Closed(s.store.orders[id]) && !GrantPending(s, id)
    ensures s.log <= After(s, acts).log && !GrantedSince(|s.log|, After(s, acts).log, id)
    decreases |acts|
  {
    if acts != [] {
      var next := Act(s, acts[0]);
      OrdersFollowTheMachine(s, acts[0], id);
      ActGrantsNothing(s, acts[0], id);
      NothingPendingGrantsNothing(next, acts[1..], id);
      var log := After(s, acts).log;
      forall j | |s.log| <= j < |log| ensures !(log[j].PlanSet? && log[j].change.reason == ForOrder(id)) {
        assert j < |next.log| ==> log[j] == next.log[j];
      }
    }
  }

  /** Standing at the grant, the next call goes through as soon as the workspace is there. */
  lemma GrantGoesThrough(s: System, h: nat, id: nat) returns (acts: seq<Action>)
    requires h in s.handlers && s.handlers[h].phase.At? && s.handlers[h].phase.stage.GrantPlan?
    requires s.handlers[h].phase.id == id
    ensures GrantsLater(s, acts, id)
  {
    var (o, edit) := (s.handlers[h].phase.order, EditWorkspace(s.handlers[h].phase.order.workspace, BUYER));
    ThenActs(s, [], s, edit);
    var there := Act(s, edit);
    ThenActs(s, [] + [edit], there, Advance(h));
    acts := [] + [edit] + [Advance(h)];
    var granted := Act(there, Advance(h));
    assert granted.log[|s.log|].change == PlanChange(o.workspace, BUYER.plan, o.planCode, ForOrder(id));
  }

  lemma PendingGrantGoesThrough(s: System, h: nat, id: nat) returns (acts: seq<Action>)
    requires h in s.handlers && Granting(s.handlers[h].phase, id)
    ensures GrantsLater(s, acts, id)
  {
    if s.handlers[h].phase.stage.GrantPlan? {
      acts := GrantGoesThrough(s, h, id);
    } else {
      var next := Act(s, Advance(h));
      assert next.log == s.log;
      var rest := GrantGoesThrough(next, h, id);
      OneMoreAct(s, rest, Advance(h));
      acts := [Advance(h)] + rest;
    }
  }

  /** From any state on, the plan of a refunded order (or of one closed in another way) can still be
      granted exactly if a handler stands, at that moment, between the payment and the grant of that
      order; otherwise no continuation ever grants it again. */
  lemma RefundOvertakenIff(s: System, id: nat)
    requires id < |s.store.orders| && Closed(s.store.orders[id])
    ensures (exists acts :: GrantsLater(s, acts, id)) <==> GrantPending(s, id)
  {
    if GrantPending(s, id) {
      var h :| h in s.handlers && Granting(s.handlers[h].phase, id);
      var acts := PendingGrantGoesThrough(s, h, id);
    } else {
      forall acts ensures !GrantsLater(s, acts, id) {
        if Schedule(s, acts) {
          NothingPendingGrantsNothing(s, acts, id);
        }
      }
    }
  }

  // ---- and it does happen --------------------------------------------------

  const SOLD := Order("w", "pro", 900, "USD", "stripe", 0, Pending, Unknown, "", "")
  const PAYMENT := PaymentEvent(EventKey("stripe", "evt"), Some(0), "", "", "", 900, "USD")
  const BUYER := Workspace(FREE, "", None, false)

  /** A schedule from an empty system up to a handler that has seen the payment. */
  lemma PaymentSeen() returns (acts: seq<Action>, s: System)
    ensures Schedule(Fresh(map["w" := BUYER]), acts) && After(Fresh(map["w" := BUYER]), acts) == s
    ensures s.store == Store([SOLD.(status := Paid)], map["w" := BUYER], map[PAYMENT.key := Received], [])
    ensures s.handlers == map[0 := Handler(PAYMENT, At(ReadPlan, 0, SOLD), 0)]
  {
    var s0 := Fresh(map["w" := BUYER]);
    ThenActs(s0, [], s0, Create(SOLD));
    assert [] + [Create(SOLD)] == [Create(SOLD)];
    var s1 := Act(s0, Create(SOLD));
    ThenActs(s0, [Create(SOLD)], s1, Deliver(0, PAYMENT, 0));
    var s2 := Act(s1, Deliver(0, PAYMENT, 0));
    ThenActs(s0, [Create(SOLD)] + [Deliver(0, PAYMENT, 0)], s2, Advance(0));
    var s3 := Act(s2, Advance(0));
    assert s3.handlers[0].phase == At(Pay, 0, SOLD);
    ThenActs(s0, [Create(SOLD)] + [Deliver(0, PAYMENT, 0)] + [Advance(0)], s3, Advance(0));
    acts := [Create(SOLD)] + [Deliver(0, PAYMENT, 0)] + [Advance(0)] + [Advance(0)];
    s := Act(s3, Advance(0));
  }

  /** The handler reads the plan, then the order is refunded. */
  lemma RefundWhilePlanIsRead() returns (acts: seq<Action>, s: System)
    ensures Schedule(Fresh(map["w" := BUYER]), acts) && After(Fresh(map["w" := BUYER]), acts) == s
    ensures s.store == Store([SOLD.(status := Refunded)], map["w" := BUYER], map[PAYMENT.key := Received], [])
    ensures s.handlers == map[0 := Handler(PAYMENT, At(GrantPlan, 0, SOLD), 0)]
  {
    var s0 := Fresh(map["w" := BUYER]);
    var paid, s1 := PaymentSeen();
    ThenActs(s0, paid, s1, Advance(0));
    var s2 := Act(s1, Advance(0));
    ThenActs(s0, paid + [Advance(0)], s2, Refund(0));
    acts := paid + [Advance(0)] + [Refund(0)];
    s := Act(s2, Refund(0));
  }

  /** The refund's own downgrade follows. */
  lemma RefundGoesThrough() returns (acts: seq<Action>, s: System)
    ensures Schedule(Fresh(map["w" := BUYER]), acts) && After(Fresh(map["w" := BUYER]), acts) == s
    ensures s.store.orders == [SOLD.(status := Refunded)] && s.store.workspaces == map["w" := BUYER]
    ensures s.store.planLog == [PlanChange("w", FREE, FREE, ForRefund(0))]
    ensures s.handlers == map[0 := Handler(PAYMENT, At(GrantPlan, 0, SOLD), 0)]
  {
    var refunded, s1 := RefundWhilePlanIsRead();
    var downgrade := OtherPlanChange("w", FREE, ForRefund(0));
    ThenActs(Fresh(map["w" := BUYER]), refunded, s1, downgrade);
    acts := refunded + [downgrade];
    s := Act(s1, downgrade);
  }

  /** A refund may overtake a handler that has already seen the payment: from an empty system a
      schedule leads to a refunded order whose workspace, after the refund's own downgrade, is on the
      plan the order granted. */
  lemma RefundMayBeOvertaken() returns (acts: seq<Action>)
    ensures Schedule(Fresh(map["w" := BUYER]), acts)
    ensures var s := After(Fresh(map["w" := BUYER]), acts).store;
            && InStatus(s, 0, Refunded) && s.orders[0].SameSale(SOLD)
            && "w" in s.workspaces && s.workspaces["w"].plan == SOLD.planCode
            && |s.planLog| == 2 && s.planLog[0] == PlanChange("w", FREE, FREE, ForRefund(0))
            && s.planLog[1] == PlanChange("w", FREE, SOLD.planCode, ForOrder(0))
  {
    var refunded, s := RefundGoesThrough();
    ThenActs(Fresh(map["w" := BUYER]), refunded, s, Advance(0));
    acts := refunded + [Advance(0)];
  }
}
