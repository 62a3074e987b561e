/** Renewal and cancellation events of a subscription, repository call by repository call. */
module BillingRenewal {
  import opened Common
  import opened BillingRepo
  import opened BillingPaid

  // ---- the workspace of a subscription --------------------------------------

  /** An absent reference is stored as NULL and matches nothing. */
  predicate Carries(workspaces: map<string, Workspace>, w: string, ref: string) {
    ref != "" && w in workspaces && workspaces[w].subscriptionRef == ref
  }

  ghost predicate AtMostOne(workspaces: map<string, Workspace>, ref: string) {
    forall v, w :: Carries(workspaces, v, ref) && Carries(workspaces, w, ref) ==> v == w
  }

  /** What the lookup may answer: some workspace with the reference, whichever, or none if there is none. */
  ghost predicate Answers(workspaces: map<string, Workspace>, ref: string, found: Option<string>) {
    match found
    case Some(w) => Carries(workspaces, w, ref)
    case None => forall w :: !Carries(workspaces, w, ref)
  }

  // ---- renewal ----------------------------------------------------------------

  /** price is the catalog's current price of the order's plan and interval, 0 or less if there is none. */
  predicate RenewalMismatch(s: Store, e: PaymentEvent, price: int) {
    && e.orderId.Some? && e.amountCents > 0 && e.orderId.value < |s.orders| && price > 0
    && var currency := s.orders[e.orderId.value].currency;
       (e.currency != "" && currency != "" && !EqualFold(e.currency, currency)) || price != e.amountCents
  }

  /** plan is the workspace's plan as it was found. */
  datatype RenewalPhase =
    | Anchor | Reconcile | Find | Extend(w: string, plan: string) | Restore(w: string, plan: string)
    | Close | GiveUp | Over

  /** A workspace that has fallen back to the free plan gets the order's plan again. */
  predicate Restores(s: Store, e: PaymentEvent, plan: string) {
    && e.orderId.Some? && plan == FREE && e.orderId.value < |s.orders|
    && s.orders[e.orderId.value].planCode != "" && s.orders[e.orderId.value].planCode != plan
  }

  const RENEWAL := OtherReason("renewal")

  function AfterCall(next: Option<Store>, s: Store, ok: RenewalPhase): (Store, RenewalPhase) {
    if next.Some? then (next.value, ok) else (s, GiveUp)
  }

  function Anchored(s: Store, e: PaymentEvent): Store {
    if e.orderId.Some? && e.paymentIntentRef != "" then SaveIntent(s, e.orderId.value, e.paymentIntentRef) else s
  }

  /** found is what the lookup answers if this step is the lookup. */
  function RenewalStep(s: Store, e: PaymentEvent, price: int, found: Option<string>, ph: RenewalPhase, x: int)
    : (Store, RenewalPhase)
  {
    match ph
    case Anchor => (Anchored(s, e), Reconcile)
    case Reconcile => (s, if RenewalMismatch(s, e, price) then Close else Find)
    case Find =>
      (s, if found.Some? && found.value in s.workspaces then Extend(found.value, s.workspaces[found.value].plan)
       else Close)
    case Extend(w, plan) => AfterCall(SetSubscription(s, w, e.subscriptionRef, x), s, Restore(w, plan))
    case Restore(w, plan) =>
      if Restores(s, e, plan) then AfterCall(ChangePlan(s, w, s.orders[e.orderId.value].planCode, RENEWAL), s, Close)
      else (s, Close)
    case Close => (Mark(s, e.key, Processed), Over)
    case GiveUp => (Mark(s, e.key, Errored), Over)
    case Over => (s, Over)
  }

  function RenewalPrefix(s: Store, e: PaymentEvent, price: int, found: Option<string>, ph: RenewalPhase, x: int, k: nat)
    : (Store, RenewalPhase)
    decreases k
  {
    if k == 0 then (s, ph)
    else
      var (s', ph') := RenewalStep(s, e, price, found, ph, x);
      RenewalPrefix(s', e, price, found, ph', x, k - 1)
  }

  /** The calls of an undisturbed renewal, run to the end. */
  const RENEWAL_CALLS: nat := 6

  function HandleRenewed(s: Store, e: PaymentEvent, price: int, found: Option<string>, x: int): Store {
    RenewalPrefix(s, e, price, found, Anchor, x, RENEWAL_CALLS).0
  }

  function Extended(w: Workspace, e: PaymentEvent, x: int): Workspace {
    w.(subscriptionRef := e.subscriptionRef, expiresAt := Some(x))
  }

  /** The rest of a renewal once its workspace is known. */
  function RenewFor(s: Store, e: PaymentEvent, w: string, x: int): Store
    requires w in s.workspaces
  {
    var row := s.workspaces[w];
    if Restores(s, e, row.plan) then
      var code := s.orders[e.orderId.value].planCode;
      Mark(s.(workspaces := s.workspaces[w := Extended(row, e, x).(plan := code)],
              planLog := s.planLog + [PlanChange(w, row.plan, code, RENEWAL)]), e.key, Processed)
    else Mark(s.(workspaces := s.workspaces[w := Extended(row, e, x)]), e.key, Processed)
  }

  /** The handler in one piece. */
  function RenewalSpec(s: Store, e: PaymentEvent, price: int, found: Option<string>, x: int): Store {
    var s1 := Anchored(s, e);
    if RenewalMismatch(s1, e, price) || found.None? || found.value !in s1.workspaces then Mark(s1, e.key, Processed)
    else RenewFor(s1, e, found.value, x)
  }

  /** What one more call leaves of the remaining ones. */
  lemma PrefixUnfolds(s: Store, e: PaymentEvent, price: int, found: Option<string>, ph: RenewalPhase, x: int, k: nat)
    requires k > 0
    ensures var (s', ph') := RenewalStep(s, e, price, found, ph, x);
            RenewalPrefix(s, e, price, found, ph, x, k) == RenewalPrefix(s', e, price, found, ph', x, k - 1)
  {
  }

  lemma OverStaysOver(s: Store, e: PaymentEvent, price: int, found: Option<string>, x: int, k: nat)
    ensures RenewalPrefix(s, e, price, found, Over, x, k) == (s, Over)
    decreases k
  {
    if k > 0 {
      OverStaysOver(s, e, price, found, x, k - 1);
    }
  }

  lemma CloseEnds(s: Store, e: PaymentEvent, price: int, found: Option<string>, x: int, k: nat)
    requires k > 0
    ensures RenewalPrefix(s, e, price, found, Close, x, k).0 == Mark(s, e.key, Processed)
  {
    PrefixUnfolds(s, e, price, found, Close, x, k);
    OverStaysOver(Mark(s, e.key, Processed), e, price, found, x, k - 1);
  }

  lemma ExtendEnds(s: Store, e: PaymentEvent, price: int, found: Option<string>, w: string, x: int)
    requires Carries(s.workspaces, w, e.subscriptionRef)
    ensures RenewalPrefix(s, e, price, found, Extend(w, s.workspaces[w].plan), x, 3).0 == RenewFor(s, e, w, x)
  {
    var plan := s.workspaces[w].plan;
    var s1 := s.(workspaces := s.workspaces[w := Extended(s.workspaces[w], e, x)]);
    PrefixUnfolds(s, e, price, found, Extend(w, plan), x, 3);
    PrefixUnfolds(s1, e, price, found, Restore(w, plan), x, 2);
    var s2 := RenewalStep(s1, e, price, found, Restore(w, plan), x).0;
    CloseEnds(s2, e, price, found, x, 1);
    if Restores(s, e, plan) {
      assert s2.workspaces
             == s.workspaces[w := Extended(s.workspaces[w], e, x).(plan := s.orders[e.orderId.value].planCode)];
    }
  }

  /** The handler run call by call is its one-piece description, plan-change log included. */
  lemma RenewalIsSpec(s: Store, e: PaymentEvent, price: int, found: Option<string>, x: int)
    requires Answers(s.workspaces, e.subscriptionRef, found)
    ensures HandleRenewed(s, e, price, found, x) == RenewalSpec(s, e, price, found, x)
  {
    var s1 := Anchored(s, e);
    PrefixUnfolds(s, e, price, found, Anchor, x, 6);
    PrefixUnfolds(s1, e, price, found, Reconcile, x, 5);
    if RenewalMismatch(s1, e, price) {
      CloseEnds(s1, e, price, found, x, 4);
    } else {
      PrefixUnfolds(s1, e, price, found, Find, x, 4);
      if found.Some? && found.value in s1.workspaces {
        ExtendEnds(s1, e, price, found, found.value, x);
      } else {
        CloseEnds(s1, e, price, found, x, 3);
      }
    }
  }

  lemma AnchoringKeeps(s: Store, e: PaymentEvent, price: int, plan: string)
    ensures var s1 := Anchored(s, e);
            && s1.workspaces == s.workspaces && s1.planLog == s.planLog && |s1.orders| == |s.orders|
            && (forall i :: 0 <= i < |s.orders| ==>
                  s1.orders[i].status == s.orders[i].status && s1.orders[i].SameSale(s.orders[i]))
            && (RenewalMismatch(s1, e, price) <==> RenewalMismatch(s, e, price))
            && (Restores(s1, e, plan) <==> Restores(s, e, plan))
  {
  }

  /** A renewal touches the workspace its lookup answered and no other: it moves the expiry, and
      changes the plan exactly when the workspace has fallen back to the free plan and the event names
      an order of another one. A renewal for the wrong amount, or of an unknown subscription, touches
      none, and none changes an order's status. */
  lemma RenewalTouchesOneWorkspace(s: Store, e: PaymentEvent, price: int, found: Option<string>, x: int)
    requires Answers(s.workspaces, e.subscriptionRef, found)
    ensures var s' := RenewalSpec(s, e, price, found, x);
            && |s'.orders| == |s.orders|
            && (forall i :: 0 <= i < |s.orders| ==>
                  s'.orders[i].status == s.orders[i].status && s'.orders[i].SameSale(s.orders[i]))
            && if RenewalMismatch(s, e, price) || found.None? then
                 s'.workspaces == s.workspaces && s'.planLog == s.planLog
               else
                 && found.value in s'.workspaces
                 && var (was, after) := (s.workspaces[found.value], s'.workspaces[found.value]);
                    && s'.workspaces == s.workspaces[found.value := after]
                    && after.expiresAt == Some(x) && after.subscriptionRef == was.subscriptionRef
                    && after.cancelRequested == was.cancelRequested
                    && (after.plan != was.plan <==> Restores(s, e, was.plan))
                    && (after.plan != was.plan ==> was.plan == FREE && after.plan == s.orders[e.orderId.value].planCode)
  {
    var s1 := Anchored(s, e);
    AnchoringKeeps(s, e, price, if found.Some? then s.workspaces[found.value].plan else "");
  }

  // ---- restart of a renewal -----------------------------------------------------

  ghost predicate OnTrack(s: Store, e: PaymentEvent, price: int, found: Option<string>, w: string) {
    && Anchored(s, e) == s && !RenewalMismatch(s, e, price)
    && found == Some(w) && Carries(s.workspaces, w, e.subscriptionRef)
  }

  ghost predicate RenewalPhaseOk(s: Store, e: PaymentEvent, price: int, found: Option<string>, ph: RenewalPhase) {
    && Answers(s.workspaces, e.subscriptionRef, found)
    && match ph
       case Anchor => true
       case Reconcile => Anchored(s, e) == s
       case Find => Anchored(s, e) == s && !RenewalMismatch(s, e, price)
       case Extend(w, plan) => OnTrack(s, e, price, found, w) && s.workspaces[w].plan == plan
       case Restore(w, plan) => OnTrack(s, e, price, found, w) && s.workspaces[w].plan == plan
       case Close => SameOutcome(RenewalSpec(s, e, price, found, 0), Mark(s, e.key, Processed))
       case GiveUp => false
       case Over => SameOutcome(RenewalSpec(s, e, price, found, 0), s)
  }

  /** Which of two workspaces a lookup answers makes no difference if the amount is wrong, if only one
      can be answered, or if none of them would get a plan back. */
  ghost predicate LookupDoesNotMatter(s: Store, e: PaymentEvent, price: int) {
    || RenewalMismatch(s, e, price)
    || AtMostOne(s.workspaces, e.subscriptionRef)
    || (forall w :: Carries(s.workspaces, w, e.subscriptionRef) ==> !Restores(s, e, s.workspaces[w].plan))
  }

  ghost predicate RenewalKeeps(s: Store, e: PaymentEvent, price: int, found: Option<string>,
                               next: (Store, RenewalPhase)) {
    && RenewalPhaseOk(next.0, e, price, found, next.1)
    && SameOutcome(RenewalSpec(next.0, e, price, found, 0), RenewalSpec(s, e, price, found, 0))
    && (LookupDoesNotMatter(s, e, price) ==> LookupDoesNotMatter(next.0, e, price))
  }

  /** Replacing a workspace by one with the same reference. */
  lemma SameCarriers(before: map<string, Workspace>, after: map<string, Workspace>, w: string, ref: string)
    requires Carries(before, w, ref) && w in after && after == before[w := after[w]] && after[w].subscriptionRef == ref
    ensures forall v :: Carries(after, v, ref) <==> Carries(before, v, ref)
    ensures AtMostOne(before, ref) ==> AtMostOne(after, ref)
  {
  }

  lemma StillDoesNotMatter(s: Store, s': Store, e: PaymentEvent, price: int, w: string)
    requires Carries(s.workspaces, w, e.subscriptionRef) && !RenewalMismatch(s, e, price)
    requires s'.orders == s.orders && w in s'.workspaces && s'.workspaces == s.workspaces[w := s'.workspaces[w]]
    requires s'.workspaces[w].subscriptionRef == e.subscriptionRef
    requires s'.workspaces[w].plan == s.workspaces[w].plan || Restores(s, e, s.workspaces[w].plan)
    ensures LookupDoesNotMatter(s, e, price) ==> LookupDoesNotMatter(s', e, price)
  {
    SameCarriers(s.workspaces, s'.workspaces, w, e.subscriptionRef);
    if !AtMostOne(s.workspaces, e.subscriptionRef) && LookupDoesNotMatter(s, e, price) {
      forall v | Carries(s'.workspaces, v, e.subscriptionRef) ensures !Restores(s', e, s'.workspaces[v].plan) {
        assert Carries(s.workspaces, v, e.subscriptionRef);
      }
    }
  }

  lemma AnchoringTwice(s: Store, e: PaymentEvent)
    ensures Anchored(Anchored(s, e), e) == Anchored(s, e) && Anchored(s, e).workspaces == s.workspaces
  {
    assert Anchored(Anchored(s, e), e).orders == Anchored(s, e).orders;
  }

  lemma OnTrackSpec(s: Store, e: PaymentEvent, price: int, found: Option<string>, w: string)
    requires OnTrack(s, e, price, found, w)
    ensures RenewalSpec(s, e, price, found, 0) == RenewFor(s, e, w, 0)
  {
  }

  /** What a renewal makes of the row it found. */
  function RenewedRow(s: Store, e: PaymentEvent, row: Workspace, x: int): Workspace {
    if Restores(s, e, row.plan) then Extended(row, e, x).(plan := s.orders[e.orderId.value].planCode)
    else Extended(row, e, x)
  }

  lemma RenewForSetsOneRow(s: Store, e: PaymentEvent, w: string, x: int)
    requires w in s.workspaces
    ensures var s' := RenewFor(s, e, w, x);
            && s'.orders == s.orders && s'.events == Mark(s, e.key, Processed).events
            && s'.workspaces == s.workspaces[w := RenewedRow(s, e, s.workspaces[w], x)]
  {
  }

  /** Two stores that differ in the workspace of the subscription renew alike if its row comes to the same. */
  lemma RenewForAgrees(s: Store, s': Store, e: PaymentEvent, w: string)
    requires w in s.workspaces && w in s'.workspaces && s'.orders == s.orders && s'.events == s.events
    requires s'.workspaces == s.workspaces[w := s'.workspaces[w]]
    requires ForgetExpiry(RenewedRow(s', e, s'.workspaces[w], 0)) == ForgetExpiry(RenewedRow(s, e, s.workspaces[w], 0))
    ensures SameOutcome(RenewFor(s', e, w, 0), RenewFor(s, e, w, 0))
  {
    RenewForSetsOneRow(s, e, w, 0);
    RenewForSetsOneRow(s', e, w, 0);
    WorkspaceSet(s'.workspaces, s.workspaces, w,
                 RenewedRow(s', e, s'.workspaces[w], 0), RenewedRow(s, e, s.workspaces[w], 0));
  }

  lemma TrackGoesOn(s: Store, s': Store, e: PaymentEvent, price: int, found: Option<string>, w: string)
    requires OnTrack(s, e, price, found, w) && Answers(s.workspaces, e.subscriptionRef, found)
    requires w in s'.workspaces && s'.orders == s.orders && s'.events == s.events
    requires s'.workspaces == s.workspaces[w := s'.workspaces[w]]
    requires s'.workspaces[w].subscriptionRef == e.subscriptionRef
    requires ForgetExpiry(RenewedRow(s', e, s'.workspaces[w], 0)) == ForgetExpiry(RenewedRow(s, e, s.workspaces[w], 0))
    ensures OnTrack(s', e, price, found, w) && Answers(s'.workspaces, e.subscriptionRef, found)
    ensures SameOutcome(RenewalSpec(s', e, price, found, 0), RenewalSpec(s, e, price, found, 0))
  {
    assert Anchored(s', e).orders == Anchored(s, e).orders;
    OnTrackSpec(s, e, price, found, w);
    OnTrackSpec(s', e, price, found, w);
    RenewForAgrees(s, s', e, w);
  }

  lemma ExtendKeeps(s: Store, e: PaymentEvent, price: int, found: Option<string>, w: string, plan: string, x: int)
    requires RenewalPhaseOk(s, e, price, found, Extend(w, plan))
    ensures RenewalKeeps(s, e, price, found, RenewalStep(s, e, price, found, Extend(w, plan), x))
  {
    var s' := s.(workspaces := s.workspaces[w := Extended(s.workspaces[w], e, x)]);
    assert RenewalStep(s, e, price, found, Extend(w, plan), x) == (s', Restore(w, plan));
    StillDoesNotMatter(s, s', e, price, w);
    TrackGoesOn(s, s', e, price, found, w);
  }

  /** Renewing a row that has its plan back only marks the event. */
  lemma RestoredIsDone(s: Store, e: PaymentEvent, price: int, found: Option<string>, w: string)
    requires OnTrack(s, e, price, found, w) && !Restores(s, e, s.workspaces[w].plan)
    ensures SameOutcome(RenewalSpec(s, e, price, found, 0), Mark(s, e.key, Processed))
  {
    OnTrackSpec(s, e, price, found, w);
    RenewForSetsOneRow(s, e, w, 0);
    var row := RenewedRow(s, e, s.workspaces[w], 0);
    WorkspaceSet(s.workspaces, s.workspaces, w, row, row);
  }

  lemma RestoreKeeps(s: Store, e: PaymentEvent, price: int, found: Option<string>, w: string, plan: string, x: int)
    requires RenewalPhaseOk(s, e, price, found, Restore(w, plan)) && Restores(s, e, plan)
    ensures RenewalKeeps(s, e, price, found, RenewalStep(s, e, price, found, Restore(w, plan), x))
  {
    var s' := RenewalStep(s, e, price, found, Restore(w, plan), x).0;
    assert s'.workspaces == s.workspaces[w := s.workspaces[w].(plan := s.orders[e.orderId.value].planCode)];
    StillDoesNotMatter(s, s', e, price, w);
    TrackGoesOn(s, s', e, price, found, w);
    RestoredIsDone(s', e, price, found, w);
  }

  lemma NothingToRestoreKeeps(s: Store, e: PaymentEvent, price: int, found: Option<string>, w: string, plan: string)
    requires RenewalPhaseOk(s, e, price, found, Restore(w, plan)) && !Restores(s, e, plan)
    ensures RenewalKeeps(s, e, price, found, (s, Close))
  {
    RestoredIsDone(s, e, price, found, w);
  }

  lemma AnchorKeeps(s: Store, e: PaymentEvent, price: int, found: Option<string>)
    requires RenewalPhaseOk(s, e, price, found, Anchor)
    ensures RenewalKeeps(s, e, price, found, (Anchored(s, e), Reconcile))
  {
    AnchoringTwice(s, e);
    forall plan {
      AnchoringKeeps(s, e, price, plan);
    }
  }

  lemma LookingKeeps(s: Store, e: PaymentEvent, price: int, found: Option<string>, ph: RenewalPhase, x: int)
    requires RenewalPhaseOk(s, e, price, found, ph) && (ph.Reconcile? || ph.Find?)
    ensures RenewalKeeps(s, e, price, found, RenewalStep(s, e, price, found, ph, x))
  {
  }

  lemma ClosingKeeps(s: Store, e: PaymentEvent, price: int, found: Option<string>)
    requires RenewalPhaseOk(s, e, price, found, Close)
    ensures RenewalKeeps(s, e, price, found, (Mark(s, e.key, Processed), Over))
  {
    var s' := Mark(s, e.key, Processed);
    MarkingChangesOnlyTheEvent(s, e, price, found);
    assert SameOutcome(RenewalSpec(s', e, price, found, 0), RenewalSpec(s, e, price, found, 0));
  }

  lemma MarkingChangesOnlyTheEvent(s: Store, e: PaymentEvent, price: int, found: Option<string>)
    ensures RenewalSpec(Mark(s, e.key, Processed), e, price, found, 0) == RenewalSpec(s, e, price, found, 0)
  {
    assert e.key in s.events ==> s.events[e.key := Processed][e.key := Processed] == s.events[e.key := Processed];
  }

  lemma RenewalStepKeeps(s: Store, e: PaymentEvent, price: int, found: Option<string>, ph: RenewalPhase, x: int)
    requires RenewalPhaseOk(s, e, price, found, ph)
    ensures RenewalKeeps(s, e, price, found, RenewalStep(s, e, price, found, ph, x))
  {
    match ph
    case Anchor => AnchorKeeps(s, e, price, found);
    case Extend(w, plan) => ExtendKeeps(s, e, price, found, w, plan, x);
    case Restore(w, plan) =>
      if Restores(s, e, plan) {
        RestoreKeeps(s, e, price, found, w, plan, x);
      } else {
        NothingToRestoreKeeps(s, e, price, found, w, plan);
      }
    case Close => ClosingKeeps(s, e, price, found);
    case Over =>
    case GiveUp =>
    case _ => LookingKeeps(s, e, price, found, ph, x);
  }

  lemma {:induction false} RenewalPrefixKeeps(s: Store, e: PaymentEvent, price: int, found: Option<string>,
                                              ph: RenewalPhase, x: int, k: nat)
    requires RenewalPhaseOk(s, e, price, found, ph)
    ensures RenewalKeeps(s, e, price, found, RenewalPrefix(s, e, price, found, ph, x, k))
    decreases k
  {
    if k > 0 {
      var (s', ph') := RenewalStep(s, e, price, found, ph, x);
      RenewalStepKeeps(s, e, price, found, ph, x);
      RenewalPrefixKeeps(s', e, price, found, ph', x, k - 1);
    }
  }

  lemma RenewalClock(s: Store, e: PaymentEvent, price: int, found: Option<string>, x: int, y: int)
    ensures SameOutcome(RenewalSpec(s, e, price, found, x), RenewalSpec(s, e, price, found, y))
  {
    if found.Some? && found.value in s.workspaces {
      var (s1, w) := (Anchored(s, e), found.value);
      RenewForSetsOneRow(s1, e, w, x);
      RenewForSetsOneRow(s1, e, w, y);
      var row := s.workspaces[w];
      WorkspaceSet(s.workspaces, s.workspaces, w, RenewedRow(s1, e, row, x), RenewedRow(s1, e, row, y));
    }
  }

  lemma WhicheverIsFound(s: Store, e: PaymentEvent, price: int, a: Option<string>, b: Option<string>)
    requires Answers(s.workspaces, e.subscriptionRef, a) && Answers(s.workspaces, e.subscriptionRef, b)
    requires LookupDoesNotMatter(s, e, price)
    ensures SameOutcome(RenewalSpec(s, e, price, a, 0), RenewalSpec(s, e, price, b, 0))
  {
    AnchoringKeeps(s, e, price, if a.Some? then s.workspaces[a.value].plan else "");
    AnchoringKeeps(s, e, price, if b.Some? then s.workspaces[b.value].plan else "");
  }

  /** The outcome of stopping after k calls and rerunning, the first lookup answering a, the second b. */
  ghost predicate RestartsAlike(s: Store, e: PaymentEvent, price: int, k: nat, a: Option<string>, b: Option<string>,
                                x: int, y: int) {
    var stopped := RenewalPrefix(s, e, price, a, Anchor, x, k).0;
    Answers(s.workspaces, e.subscriptionRef, a) && Answers(stopped.workspaces, e.subscriptionRef, b) ==>
      SameOutcome(HandleRenewed(stopped, e, price, b, y), HandleRenewed(s, e, price, a, x))
  }

  lemma RenewalRestarts(s: Store, e: PaymentEvent, price: int, k: nat, a: Option<string>, b: Option<string>, x: int,
                        y: int)
    requires LookupDoesNotMatter(s, e, price)
    ensures RestartsAlike(s, e, price, k, a, b, x, y)
  {
    var stopped := RenewalPrefix(s, e, price, a, Anchor, x, k).0;
    if Answers(s.workspaces, e.subscriptionRef, a) && Answers(stopped.workspaces, e.subscriptionRef, b) {
      RenewalPrefixKeeps(s, e, price, a, Anchor, x, k);
      WhicheverIsFound(stopped, e, price, a, b);
      RenewalIsSpec(stopped, e, price, b, y);
      RenewalIsSpec(s, e, price, a, x);
      RenewalClock(stopped, e, price, b, y, 0);
      RenewalClock(s, e, price, a, x, 0);
    }
  }

  /** Two workspaces with the reference, one of which would get a plan back: the answers matter. */
  lemma LookupMatters(s: Store, e: PaymentEvent, price: int, v: string, w: string, x: int, y: int)
    requires !RenewalMismatch(s, e, price) && v != w
    requires Carries(s.workspaces, v, e.subscriptionRef) && Carries(s.workspaces, w, e.subscriptionRef)
    requires Restores(s, e, s.workspaces[v].plan)
    ensures !RestartsAlike(s, e, price, 0, Some(v), Some(w), x, y)
  {
    RenewalIsSpec(s, e, price, Some(w), y);
    RenewalIsSpec(s, e, price, Some(v), x);
    RenewalTouchesOneWorkspace(s, e, price, Some(v), x);
    RenewalTouchesOneWorkspace(s, e, price, Some(w), y);
    var (one, other) := (RenewalSpec(s, e, price, Some(v), x), RenewalSpec(s, e, price, Some(w), y));
    assert one.workspaces[v].plan != other.workspaces[v].plan;
    assert ForgetExpiry(one.workspaces[v]) != ForgetExpiry(other.workspaces[v]);
  }

  /** Stopped after any number of calls and rerun, with whatever the two lookups answer, a renewal ends
      as one uninterrupted run, exactly when it does not matter what they answer. */
  lemma RenewalRestartsIff(s: Store, e: PaymentEvent, price: int, x: int, y: int)
    ensures (forall k: nat, a, b :: RestartsAlike(s, e, price, k, a, b, x, y)) <==> LookupDoesNotMatter(s, e, price)
  {
    if LookupDoesNotMatter(s, e, price) {
      forall k: nat, a, b ensures RestartsAlike(s, e, price, k, a, b, x, y) {
        RenewalRestarts(s, e, price, k, a, b, x, y);
      }
    } else {
      var v :| Carries(s.workspaces, v, e.subscriptionRef) && Restores(s, e, s.workspaces[v].plan);
      var p, q :| Carries(s.workspaces, p, e.subscriptionRef) && Carries(s.workspaces, q, e.subscriptionRef) && p != q;
      LookupMatters(s, e, price, v, if p == v then q else p, x, y);
    }
  }

  // ---- cancellation ---------------------------------------------------------------

  function Downgraded(s: Store, w: string): Store
    requires w in s.workspaces
  {
    s.(workspaces := s.workspaces[w := s.workspaces[w].(plan := FREE)],
       planLog := s.planLog + [PlanChange(w, s.workspaces[w].plan, FREE, OtherReason("subscription"))])
  }

  function Dropped(s: Store, w: string): Store
    requires w in s.workspaces
  {
    s.(workspaces := s.workspaces[w := s.workspaces[w].(subscriptionRef := "", expiresAt := None)])
  }

  /** The store after k of the handler's calls: lookup, downgrade, dropping the subscription,
      clearing the cancel mark, marking the event. */
  function CanceledPrefix(s: Store, e: PaymentEvent, found: Option<string>, k: nat): Store {
    if found.None? || found.value !in s.workspaces then if k < 2 then s else Mark(s, e.key, Processed)
    else
      var w := found.value;
      if k < 2 then s
      else if k == 2 then Downgraded(s, w)
      else if k == 3 then Dropped(Downgraded(s, w), w)
      else if k == 4 then ClearCancel(Dropped(Downgraded(s, w), w), w)
      else Mark(ClearCancel(Dropped(Downgraded(s, w), w), w), e.key, Processed)
  }

  function HandleCanceled(s: Store, e: PaymentEvent, found: Option<string>): Store {
    CanceledPrefix(s, e, found, 5)
  }

  const ENDED := Workspace(FREE, "", None, false)

  /** The workspace the lookup answered ends on the free plan without subscription or cancel mark, and
      no other workspace changes. */
  lemma CancellationEnds(s: Store, e: PaymentEvent, found: Option<string>)
    requires Answers(s.workspaces, e.subscriptionRef, found)
    ensures HandleCanceled(s, e, found).workspaces
            == if found.Some? then s.workspaces[found.value := ENDED] else s.workspaces
  {
  }

  ghost predicate CancelsAlike(s: Store, e: PaymentEvent, k: nat, a: Option<string>, b: Option<string>) {
    var stopped := CanceledPrefix(s, e, a, k);
    Answers(s.workspaces, e.subscriptionRef, a) && Answers(stopped.workspaces, e.subscriptionRef, b) ==>
      SameOutcome(HandleCanceled(stopped, e, b), HandleCanceled(s, e, a))
  }

  /** The cancel mark of the reference's workspace is set. */
  ghost predicate MarkSet(s: Store, ref: string) {
    exists w :: Carries(s.workspaces, w, ref) && s.workspaces[w].cancelRequested
  }

  lemma CancellationRestarts(s: Store, e: PaymentEvent, k: nat, a: Option<string>, b: Option<string>)
    requires AtMostOne(s.workspaces, e.subscriptionRef) && !(k == 3 && MarkSet(s, e.subscriptionRef))
    ensures CancelsAlike(s, e, k, a, b)
  {
    var t := CanceledPrefix(s, e, a, k);
    if Answers(s.workspaces, e.subscriptionRef, a) && Answers(t.workspaces, e.subscriptionRef, b) {
      if a.Some? && k <= 2 {
        RestartBeforeDrop(s, e, k, a.value, b);
      } else if a.Some? {
        RestartAfterDrop(s, e, k, a.value, b);
      }
    }
  }

  /** Up to the downgrade the reference still leads to the workspace. */
  lemma RestartBeforeDrop(s: Store, e: PaymentEvent, k: nat, w: string, b: Option<string>)
    requires AtMostOne(s.workspaces, e.subscriptionRef) && Carries(s.workspaces, w, e.subscriptionRef) && k <= 2
    requires Answers(CanceledPrefix(s, e, Some(w), k).workspaces, e.subscriptionRef, b)
    ensures SameOutcome(HandleCanceled(CanceledPrefix(s, e, Some(w), k), e, b), HandleCanceled(s, e, Some(w)))
  {
    var t := CanceledPrefix(s, e, Some(w), k);
    assert t.workspaces == s.workspaces[w := t.workspaces[w]];
    SameCarriers(s.workspaces, t.workspaces, w, e.subscriptionRef);
    assert Carries(t.workspaces, w, e.subscriptionRef);
    assert b.Some? && Carries(s.workspaces, b.value, e.subscriptionRef);
    CancellationEnds(s, e, Some(w));
    CancellationEnds(t, e, b);
  }

  lemma NothingLeftAfterDrop(s: Store, e: PaymentEvent, k: nat, w: string)
    requires w in s.workspaces && k > 2 && (k == 3 ==> !s.workspaces[w].cancelRequested)
    ensures var t := CanceledPrefix(s, e, Some(w), k);
            && t.orders == s.orders && t.workspaces == s.workspaces[w := ENDED]
            && Mark(t, e.key, Processed).events == Mark(s, e.key, Processed).events
  {
  }

  /** After that the reference is unknown, and the rerun only marks the event. */
  lemma RestartAfterDrop(s: Store, e: PaymentEvent, k: nat, w: string, b: Option<string>)
    requires AtMostOne(s.workspaces, e.subscriptionRef) && Carries(s.workspaces, w, e.subscriptionRef) && k > 2
    requires k == 3 ==> !s.workspaces[w].cancelRequested
    requires Answers(CanceledPrefix(s, e, Some(w), k).workspaces, e.subscriptionRef, b)
    ensures SameOutcome(HandleCanceled(CanceledPrefix(s, e, Some(w), k), e, b), HandleCanceled(s, e, Some(w)))
  {
    NothingLeftAfterDrop(s, e, k, w);
    NothingLeftAfterDrop(s, e, 5, w);
    assert b == None by {
      if b.Some? {
        assert b.value != w && Carries(s.workspaces, b.value, e.subscriptionRef);
      }
    }
  }

  /** A mark that is left behind stays, and a second workspace with the reference is ended as well. */
  lemma CancellationDiffers(s: Store, e: PaymentEvent, k: nat)
    requires !AtMostOne(s.workspaces, e.subscriptionRef) || (k == 3 && MarkSet(s, e.subscriptionRef))
    ensures exists a, b :: !CancelsAlike(s, e, k, a, b)
  {
    if !AtMostOne(s.workspaces, e.subscriptionRef) {
      var v, w :| Carries(s.workspaces, v, e.subscriptionRef) && Carries(s.workspaces, w, e.subscriptionRef) && v != w;
      SecondWorkspaceEnds(s, e, k, v, w);
    } else {
      var w :| Carries(s.workspaces, w, e.subscriptionRef) && s.workspaces[w].cancelRequested;
      MarkIsLeft(s, e, w);
    }
  }

  lemma SecondWorkspaceEnds(s: Store, e: PaymentEvent, k: nat, v: string, w: string)
    requires v != w && Carries(s.workspaces, v, e.subscriptionRef) && Carries(s.workspaces, w, e.subscriptionRef)
    ensures !CancelsAlike(s, e, k, Some(v), Some(w))
  {
    var t := CanceledPrefix(s, e, Some(v), k);
    CancellationEnds(s, e, Some(v));
    assert Carries(t.workspaces, w, e.subscriptionRef);
    CancellationEnds(t, e, Some(w));
    var (once, twice) := (HandleCanceled(s, e, Some(v)).workspaces, HandleCanceled(t, e, Some(w)).workspaces);
    assert once[w].subscriptionRef != "" && twice[w].subscriptionRef == "";
    assert ForgetExpiry(once[w]) != ForgetExpiry(twice[w]);
  }

  lemma MarkIsLeft(s: Store, e: PaymentEvent, w: string)
    requires AtMostOne(s.workspaces, e.subscriptionRef) && Carries(s.workspaces, w, e.subscriptionRef)
    requires s.workspaces[w].cancelRequested
    ensures !CancelsAlike(s, e, 3, Some(w), None)
  {
    var t := CanceledPrefix(s, e, Some(w), 3);
    assert forall v :: Carries(t.workspaces, v, e.subscriptionRef) ==> Carries(s.workspaces, v, e.subscriptionRef);
    CancellationEnds(s, e, Some(w));
    CancellationEnds(t, e, None);
    assert ForgetExpiry(t.workspaces[w]) != ForgetExpiry(ENDED);
  }

  /** Stopped after k calls and rerun, with whatever the two lookups answer, a cancellation comes to the
      same exactly when no two workspaces carry the reference and it was not stopped between dropping
      the subscription and clearing a set cancel mark: there the rerun takes the event for an unknown
      subscription's, and the mark stays in the operators' queue. */
  lemma CancellationRestartsIff(s: Store, e: PaymentEvent, k: nat)
    ensures (forall a, b :: CancelsAlike(s, e, k, a, b))
            <==> AtMostOne(s.workspaces, e.subscriptionRef) && !(k == 3 && MarkSet(s, e.subscriptionRef))
  {
    if AtMostOne(s.workspaces, e.subscriptionRef) && !(k == 3 && MarkSet(s, e.subscriptionRef)) {
      forall a, b ensures CancelsAlike(s, e, k, a, b) {
        CancellationRestarts(s, e, k, a, b);
      }
    } else {
      CancellationDiffers(s, e, k);
    }
  }
}
