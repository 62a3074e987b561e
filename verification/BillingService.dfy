/** The billing handlers over the repository, call by call. */
module BillingService {
  import opened Common
  import opened BillingRepo
  import opened BillingPaid
  import opened BillingRenewal
  import opened BillingCalls
  import BillingOrders

  datatype EventKind =
    CheckoutCompleted | PaymentFailed | RefundCreated | SubscriptionRenewed | SubscriptionCanceled | OtherKind

  /** A store that no handler is at work on. */
  function Alone(s: Store): BillingOrders.System {
    BillingOrders.System(s, map[], [])
  }

  // ---- refunded payments, in one piece ------------------------------------

  /** The refund handler after its status write, up to its end. */
  function Downgrade(s: Store, e: PaymentEvent, id: nat, o: Order): Store {
    match ChangePlan(s, o.workspace, FREE, ForRefund(id))
    case None => Mark(s, e.key, Errored)
    case Some(s1) =>
      if e.subscriptionRef == "" then Mark(s1, e.key, Processed)
      else
        match SetSubscription(s1, o.workspace, "", 0)
        case None => Mark(s1, e.key, Errored)
        case Some(s2) => Mark(ClearCancel(s2, o.workspace), e.key, Processed)
  }

  function RefundSpec(s: Store, e: PaymentEvent): Store {
    var id := ResolveId(s, e);
    if id.None? then Mark(s, e.key, Processed)
    else
      match UpdateStatus(s, id.value, Paid, Refunded)
      case None => Mark(s, e.key, Processed)
      case Some(s1) => Downgrade(s1, e, id.value, s.orders[id.value])
  }

  /** A refund takes the plan away exactly when the order was paid and its workspace exists, and
      then drops a subscription the event names together with the cancel mark. */
  lemma RefundDowngradesPaidOrders(s: Store, e: PaymentEvent, id: nat)
    requires ResolveId(s, e) == Some(id) && s.orders[id].workspace in s.workspaces
    ensures var (w, s') := (s.orders[id].workspace, RefundSpec(s, e));
            && w in s'.workspaces
            && (if s.orders[id].status == Paid then
                  && s'.orders == s.orders[id := s.orders[id].(status := Refunded)]
                  && s'.workspaces[w].plan == FREE
                  && (e.subscriptionRef != "" ==>
                        s'.workspaces[w].subscriptionRef == "" && !s'.workspaces[w].cancelRequested)
                else s'.orders == s.orders && s'.workspaces == s.workspaces)
            && (forall v :: v in s.workspaces && v != w ==> v in s'.workspaces && s'.workspaces[v] == s.workspaces[v])
  {
  }

  // ---- restart of a refund -------------------------------------------------

  /** The store after k of the handler's calls: finding the order, the status write, the downgrade and,
      if the event names a subscription, dropping it and clearing the cancel mark; then the event mark. */
  function RefundPrefix(s: Store, e: PaymentEvent, k: nat): Store {
    var id := ResolveId(s, e);
    if id.None? then if k < 2 then s else Mark(s, e.key, Processed)
    else if s.orders[id.value].status != Paid then if k < 3 then s else Mark(s, e.key, Processed)
    else if k < 2 then s
    else RefundedPrefix(SetOrder(s, id.value, s.orders[id.value].(status := Refunded)), e, id.value, k)
  }

  /** The same from the status write on. */
  function RefundedPrefix(s1: Store, e: PaymentEvent, id: nat, k: nat): Store
    requires id < |s1.orders|
  {
    var ws := s1.orders[id].workspace;
    if ws !in s1.workspaces then if k < 4 then s1 else Mark(s1, e.key, Errored)
    else
      var s2 := ChangePlan(s1, ws, FREE, ForRefund(id)).value;
      if k == 2 then s1
      else if e.subscriptionRef == "" then if k == 3 then s2 else Mark(s2, e.key, Processed)
      else
        var s3 := SetSubscription(s2, ws, "", 0).value;
        if k == 3 then s2
        else if k == 4 then s3
        else if k == 5 then ClearCancel(s3, ws)
        else Mark(ClearCancel(s3, ws), e.key, Processed)
  }

  lemma DowngradeRunsToItsEnd(s1: Store, e: PaymentEvent, id: nat, o: Order, k: nat)
    requires id < |s1.orders| && o.workspace == s1.orders[id].workspace && k >= 6
    ensures RefundedPrefix(s1, e, id, k) == Downgrade(s1, e, id, o)
  {
  }

  lemma RefundRunsToItsEnd(s: Store, e: PaymentEvent, k: nat)
    requires k >= 6
    ensures RefundPrefix(s, e, k) == RefundSpec(s, e)
  {
    var id := ResolveId(s, e);
    if id.Some? && s.orders[id.value].status == Paid {
      var o := s.orders[id.value];
      DowngradeRunsToItsEnd(SetOrder(s, id.value, o.(status := Refunded)), e, id.value, o, k);
    }
  }

  /** What the refund makes of the workspace row. */
  function RefundedRow(w: Workspace, e: PaymentEvent): Workspace {
    if e.subscriptionRef == "" then w.(plan := FREE) else ENDED
  }

  /** What a stop after k calls, the status write done, leaves of the row. */
  function RowAfter(w: Workspace, e: PaymentEvent, k: nat): Workspace {
    if k <= 2 then w
    else if k == 3 || e.subscriptionRef == "" then w.(plan := FREE)
    else if k == 4 then Workspace(FREE, "", None, w.cancelRequested)
    else ENDED
  }

  lemma DowngradeWritesOneRow(s1: Store, e: PaymentEvent, id: nat, k: nat)
    requires id < |s1.orders| && k >= 2
    ensures var (t, ws) := (RefundedPrefix(s1, e, id, k), s1.orders[id].workspace);
            && t.orders == s1.orders
            && t.workspaces
               == (if ws in s1.workspaces then s1.workspaces[ws := RowAfter(s1.workspaces[ws], e, k)]
                   else s1.workspaces)
  {
  }

  lemma DowngradeMarksOnly(s1: Store, e: PaymentEvent, id: nat, k: nat)
    requires id < |s1.orders|
    ensures Mark(RefundedPrefix(s1, e, id, k), e.key, Processed).events == Mark(s1, e.key, Processed).events
  {
  }

  lemma RefundWritesOneRow(s: Store, e: PaymentEvent, id: nat, k: nat)
    requires ResolveId(s, e) == Some(id) && s.orders[id].status == Paid && k >= 2
    ensures var (t, ws) := (RefundPrefix(s, e, k), s.orders[id].workspace);
            && t.orders == s.orders[id := s.orders[id].(status := Refunded)]
            && t.workspaces
               == (if ws in s.workspaces then s.workspaces[ws := RowAfter(s.workspaces[ws], e, k)] else s.workspaces)
            && Mark(t, e.key, Processed).events == Mark(s, e.key, Processed).events
  {
    var s1 := SetOrder(s, id, s.orders[id].(status := Refunded));
    DowngradeWritesOneRow(s1, e, id, k);
    DowngradeMarksOnly(s1, e, id, k);
  }

  /** Once the status is written, a rerun on the same event only marks the event: it takes no plan,
      subscription or cancel mark away. */
  lemma RefundRerunSkipsDowngrade(s: Store, e: PaymentEvent, id: nat, k: nat)
    requires ResolveId(s, e) == Some(id) && s.orders[id].status == Paid && k >= 2
    ensures RefundSpec(RefundPrefix(s, e, k), e) == Mark(RefundPrefix(s, e, k), e.key, Processed)
  {
    RefundWritesOneRow(s, e, id, k);
    ResolveAgrees(s, RefundPrefix(s, e, k), e);
  }

  /** The same tables, the log of plan changes aside. */
  predicate SameTables(a: Store, b: Store) {
    a.orders == b.orders && a.workspaces == b.workspaces && a.events == b.events
  }

  /** The stop after k calls left nothing undone that the rerun would skip. */
  predicate NothingSkipped(w: Workspace, e: PaymentEvent, k: nat) {
    && (k == 2 ==> w.plan == FREE)
    && (e.subscriptionRef != "" && k <= 3 ==> w.subscriptionRef == "" && w.expiresAt == None)
    && (e.subscriptionRef != "" && k <= 4 ==> !w.cancelRequested)
  }

  lemma SkippedIff(w: Workspace, e: PaymentEvent, k: nat)
    requires k >= 2
    ensures RowAfter(w, e, k) == RefundedRow(w, e) <==> NothingSkipped(w, e, k)
  {
  }

  /** Unlike the paid handler, the refund handler is not restartable. Stopped after any number of calls
      and rerun, it comes to the tables of one uninterrupted run exactly if it had not written the
      order's status yet, or if the calls it missed had nothing to take from the workspace. (A missing
      workspace leaves the event in error after an uninterrupted run, and processed after a rerun.) */
  lemma RefundRestartsIff(s: Store, e: PaymentEvent, k: nat)
    ensures SameTables(RefundSpec(RefundPrefix(s, e, k), e), RefundSpec(s, e))
            <==> var id := ResolveId(s, e);
                 || id.None? || s.orders[id.value].status != Paid || k < 2
                 || (var ws := s.orders[id.value].workspace;
                     if ws in s.workspaces then NothingSkipped(s.workspaces[ws], e, k) else e.key !in s.events)
  {
    var id := ResolveId(s, e);
    if id.Some? && s.orders[id.value].status == Paid && k >= 2 {
      RefundedRestartsIff(s, e, id.value, k);
    } else {
      UnpaidRestarts(s, e, k);
    }
  }

  lemma UnpaidRestarts(s: Store, e: PaymentEvent, k: nat)
    requires var id := ResolveId(s, e); id.None? || s.orders[id.value].status != Paid || k < 2
    ensures SameTables(RefundSpec(RefundPrefix(s, e, k), e), RefundSpec(s, e))
  {
    var t := RefundPrefix(s, e, k);
    if t != s {
      ResolveAgrees(s, t, e);
      assert Mark(t, e.key, Processed).events == Mark(s, e.key, Processed).events;
    }
  }

  lemma RefundedRestartsIff(s: Store, e: PaymentEvent, id: nat, k: nat)
    requires ResolveId(s, e) == Some(id) && s.orders[id].status == Paid && k >= 2
    ensures var ws := s.orders[id].workspace;
            SameTables(RefundSpec(RefundPrefix(s, e, k), e), RefundSpec(s, e))
            <==> if ws in s.workspaces then NothingSkipped(s.workspaces[ws], e, k) else e.key !in s.events
  {
    var ws := s.orders[id].workspace;
    RefundRerunSkipsDowngrade(s, e, id, k);
    RefundWritesOneRow(s, e, id, k);
    RefundWritesOneRow(s, e, id, 6);
    RefundRunsToItsEnd(s, e, 6);
    if ws in s.workspaces {
      var w := s.workspaces[ws];
      SkippedIff(w, e, k);
      assert RowAfter(w, e, 6) == RefundedRow(w, e);
      assert s.workspaces[ws := RowAfter(w, e, k)][ws] == RowAfter(w, e, k);
    }
  }

  // ---- a renewal after a refund -----------------------------------------------

  /** A refund event that names no subscription leaves the workspace its subscription, and the next
      renewal that names the order gives its plan back; one that does name it makes the workspace
      unknown to the renewal's lookup. So a refunded order's plan comes back exactly in the first case
      (an order without a plan code grants nothing to begin with). */
  lemma RenewalRevivesRefundIff(s: Store, e: PaymentEvent, id: nat, r: PaymentEvent, price: int, x: int)
    requires ResolveId(s, e) == Some(id) && s.orders[id].status == Paid && s.orders[id].workspace in s.workspaces
    requires s.workspaces[s.orders[id].workspace].subscriptionRef == r.subscriptionRef != ""
    requires r.orderId == Some(id) && !RenewalMismatch(s, r, price)
    ensures var (ws, t) := (s.orders[id].workspace, RefundSpec(s, e));
            && (Carries(t.workspaces, ws, r.subscriptionRef) <==> e.subscriptionRef == "")
            && (e.subscriptionRef == "" ==>
                  var after := RenewalSpec(t, r, price, Some(ws), x);
                  && InStatus(after, id, Refunded) && ws in after.workspaces
                  && (after.workspaces[ws].plan == s.orders[id].planCode <==> s.orders[id].planCode != ""))
  {
    var (ws, t) := (s.orders[id].workspace, RefundSpec(s, e));
    RefundRunsToItsEnd(s, e, 6);
    RefundWritesOneRow(s, e, id, 6);
    if e.subscriptionRef == "" {
      assert Carries(t.workspaces, ws, r.subscriptionRef);
      AnchoringKeeps(t, r, price, FREE);
    }
  }

  const PAID := PaymentEvent(EventKey("stripe", "pay"), Some(0), "", "sub", "", 900, "USD")
  const REFUND := PaymentEvent(EventKey("stripe", "refund"), Some(0), "", "", "", 900, "USD")
  const RENEWED := PaymentEvent(EventKey("stripe", "renew"), Some(0), "", "sub", "", 900, "USD")

  /** It happens: paid, refunded and renewed, an order is refunded and its workspace on its plan. */
  lemma RenewalRevivesRefund(x: int, y: int)
    ensures var s := Store([BillingOrders.SOLD], map["w" := BillingOrders.BUYER], map[], []);
            var refunded := RefundSpec(HandlePaid(s, PAID, x), REFUND);
            var renewed := HandleRenewed(refunded, RENEWED, 900, Some("w"), y);
            && Answers(refunded.workspaces, "sub", Some("w"))
            && "w" in refunded.workspaces && refunded.workspaces["w"].plan == FREE
            && InStatus(renewed, 0, Refunded)
            && "w" in renewed.workspaces && renewed.workspaces["w"].plan == BillingOrders.SOLD.planCode
  {
    var s := Store([BillingOrders.SOLD], map["w" := BillingOrders.BUYER], map[], []);
    var paid := HandlePaid(s, PAID, x);
    HandlerIsSummary(s, PAID, x);
    assert ForgetExpiry(paid.workspaces["w"]) == Workspace("pro", "sub", None, false);
    RenewalRevivesRefundIff(paid, REFUND, 0, RENEWED, 900, y);
    RefundDowngradesPaidOrders(paid, REFUND, 0);
    RenewalIsSpec(RefundSpec(paid, REFUND), RENEWED, 900, Some("w"), y);
  }

  class Service {
    var orders: seq<Order>
    var workspaces: map<string, Workspace>
    var events: map<EventKey, EventStatus>
    var planLog: seq<PlanChange>

    function View(): Store
      reads this
    {
      Store(orders, workspaces, events, planLog)
    }

    constructor (workspaces: map<string, Workspace>)
      ensures View() == Store([], workspaces, map[], [])
    {
      orders, events, planLog := [], map[], [];
      this.workspaces := workspaces;
    }

    /** found is what the workspace lookup of a subscription event answered. */
    method HandleWebhook(kind: EventKind, e: PaymentEvent, price: int, expiresAt: int)
      returns (ghost found: Option<string>)
      modifies this
      ensures kind.SubscriptionRenewed? || kind.SubscriptionCanceled? ==>
                InsertEvent(old(View()), e.key).1 ==> Answers(old(workspaces), e.subscriptionRef, found)
      ensures var (s, isNew) := InsertEvent(old(View()), e.key);
              View() == if !isNew then old(View())
                        else match kind
                             case CheckoutCompleted => HandlePaid(s, e, expiresAt)
                             case PaymentFailed => FailedCall(ResolveId(s, e), Alone(s), e).store
                             case RefundCreated => RefundSpec(s, e)
                             case SubscriptionRenewed => HandleRenewed(s, e, price, found, expiresAt)
                             case SubscriptionCanceled => HandleCanceled(s, e, found)
                             case OtherKind => Mark(s, e.key, Processed)
    {
      found := None;
      if e.key in events && events[e.key] != Errored {
        return;
      }
      events := events[e.key := Received];
      match kind {
        case CheckoutCompleted => HandlePaidEvent(e, expiresAt);
        case PaymentFailed => HandleFailedEvent(e);
        case RefundCreated => HandleRefundEvent(e);
        case SubscriptionRenewed => found := HandleRenewedEvent(e, price, expiresAt);
        case SubscriptionCanceled => found := HandleCanceledEvent(e);
        case OtherKind => MarkEvent(e.key, Processed);
      }
    }

    method MarkEvent(k: EventKey, status: EventStatus)
      modifies this`events
      ensures View() == Mark(old(View()), k, status)
    {
      if k in events {
        events := events[k := status];
      }
    }

    method ResolveOrder(e: PaymentEvent) returns (id: Option<nat>)
      ensures id == ResolveId(View(), e)
    {
      if e.orderId.Some? {
        return if e.orderId.value < |orders| then e.orderId else None;
      }
      if e.channelRef != "" {
        id := FindByChannelRef(orders, e.key.channel, e.channelRef);
        if id.Some? {
          return;
        }
      }
      var ref := e.paymentIntentRef;
      if ref == "" {
        ref := e.channelRef;
      }
      if ref != "" {
        id := FindByIntent(orders, ref);
        return;
      }
      return None;
    }

    /** The payment itself: pending -> paid, or a paid row seen again, or a revival. */
    method PayOrRevive(ghost e: PaymentEvent, id: nat, ghost order: Order, ghost x: int) returns (paid: bool)
      requires id < |orders|
      modifies this`orders
      ensures ToEnd(old(View()), e, At(Pay, id, order), x)
              == ToEnd(View(), e, if paid then At(ReadPlan, id, order) else Finish, x)
    {
      var cur := orders[id];
      if cur.status == Pending {
        orders := orders[id := cur.(status := Paid)];
        return true;
      }
      if cur.status == Paid {
        return true;
      }
      if cur.status == Canceled && cur.canceledBy == ByExpiry {
        orders := orders[id := cur.(status := Paid, canceledBy := Unknown)];
        RevivedToEnd(old(View()), e, id, order, x);
        return true;
      }
      if cur.status == Canceled {
        UnrevivedToEnd(old(View()), e, id, order, x);
      }
      return false;
    }

    method HandlePaidEvent(e: PaymentEvent, expiresAt: int)
      modifies this
      ensures View() == HandlePaid(old(View()), e, expiresAt)
    {
      var id := ResolveOrder(e);
      ResolvedToEnd(View(), e, expiresAt);
      if id.None? {
        MarkEvent(e.key, Processed);
        return;
      }
      var order := orders[id.value];
      if AmountMismatch(order, e) {
        MarkEvent(e.key, Processed);
        return;
      }
      if e.paymentIntentRef != "" {
        orders := orders[id.value := order.(paymentIntent := e.paymentIntentRef)];
      }
      var paid := PayOrRevive(e, id.value, order, expiresAt);
      if !paid {
        MarkEvent(e.key, Processed);
        return;
      }
      GrantOrder(e, id.value, order, expiresAt);
    }

    method GrantOrder(e: PaymentEvent, id: nat, order: Order, expiresAt: int)
      modifies this
      ensures View() == ToEnd(old(View()), e, At(ReadPlan, id, order), expiresAt)
    {
      ghost var s0 := View();
      GrantToEnd(s0, e, id, order, expiresAt);
      var ws := order.workspace;
      if ws !in workspaces {
        MarkEvent(e.key, Errored);
        return;
      }
      planLog := planLog + [PlanChange(ws, workspaces[ws].plan, order.planCode, ForOrder(id))];
      workspaces := workspaces[ws := workspaces[ws].(plan := order.planCode)];
      if e.subscriptionRef != "" {
        workspaces :=
            workspaces[ws := workspaces[ws].(subscriptionRef := e.subscriptionRef, expiresAt := Some(expiresAt))];
      }
      workspaces := workspaces[ws := workspaces[ws].(cancelRequested := false)];
      MarkEvent(e.key, Processed);
    }

    method HandleFailedEvent(e: PaymentEvent)
      modifies this
      ensures View() == FailedCall(ResolveId(old(View()), e), Alone(old(View())), e).store
    {
      var id := ResolveOrder(e);
      FailResolved(id, e);
    }

    /** id is what the preceding lookup answered; the order may have changed since. */
    method FailResolved(id: Option<nat>, e: PaymentEvent)
      modifies this
      ensures View() == FailedCall(id, Alone(old(View())), e).store
    {
      if id.Some? && id.value < |orders| && orders[id.value].status == Pending {
        orders := orders[id.value := orders[id.value].(status := Failed)];
      }
      MarkEvent(e.key, Processed);
    }

    method HandleRefundEvent(e: PaymentEvent)
      modifies this
      ensures View() == RefundSpec(old(View()), e)
    {
      var id := ResolveOrder(e);
      if id.None? || orders[id.value].status != Paid {
        MarkEvent(e.key, Processed);
        return;
      }
      var order := orders[id.value];
      orders := orders[id.value := order.(status := Refunded)];
      var ws := order.workspace;
      if ws !in workspaces {
        MarkEvent(e.key, Errored);
        return;
      }
      planLog := planLog + [PlanChange(ws, workspaces[ws].plan, FREE, ForRefund(id.value))];
      workspaces := workspaces[ws := workspaces[ws].(plan := FREE)];
      if e.subscriptionRef != "" {
        workspaces := workspaces[ws := workspaces[ws].(subscriptionRef := "", expiresAt := None)];
        workspaces := workspaces[ws := workspaces[ws].(cancelRequested := false)];
      }
      MarkEvent(e.key, Processed);
    }

    /** Any row with the reference may be the one that is found. */
    method FindWorkspace(ref: string) returns (found: Option<string>)
      ensures Answers(workspaces, ref, found)
    {
      if exists w :: w in workspaces && Carries(workspaces, w, ref) {
        var w :| w in workspaces && Carries(workspaces, w, ref);
        return Some(w);
      }
      return None;
    }

    method HandleRenewedEvent(e: PaymentEvent, price: int, expiresAt: int) returns (ghost found: Option<string>)
      modifies this
      ensures Answers(old(workspaces), e.subscriptionRef, found)
      ensures View() == HandleRenewed(old(View()), e, price, found, expiresAt)
    {
      if e.orderId.Some? {
        if e.paymentIntentRef != "" && e.orderId.value < |orders| {
          orders := orders[e.orderId.value := orders[e.orderId.value].(paymentIntent := e.paymentIntentRef)];
        }
      }
      assert View() == Anchored(old(View()), e);
      if e.orderId.Some? && RenewalMismatch(View(), e, price) {
        if w :| Carries(workspaces, w, e.subscriptionRef) {
          found := Some(w);
        } else {
          found := None;
        }
        RenewalIsSpec(old(View()), e, price, found, expiresAt);
        MarkEvent(e.key, Processed);
        return;
      }
      var w := FindWorkspace(e.subscriptionRef);
      found := w;
      RenewalIsSpec(old(View()), e, price, found, expiresAt);
      if w.None? {
        MarkEvent(e.key, Processed);
        return;
      }
      Renew(e, w.value, expiresAt);
    }

    method Renew(e: PaymentEvent, ws: string, expiresAt: int)
      requires Carries(workspaces, ws, e.subscriptionRef)
      modifies this
      ensures View() == RenewFor(old(View()), e, ws, expiresAt)
    {
      var currentPlan := workspaces[ws].plan;
      workspaces :=
          workspaces[ws := workspaces[ws].(subscriptionRef := e.subscriptionRef, expiresAt := Some(expiresAt))];
      if Restores(View(), e, currentPlan) {
        var code := orders[e.orderId.value].planCode;
        planLog := planLog + [PlanChange(ws, workspaces[ws].plan, code, RENEWAL)];
        workspaces := workspaces[ws := workspaces[ws].(plan := code)];
      }
      MarkEvent(e.key, Processed);
    }

    method HandleCanceledEvent(e: PaymentEvent) returns (ghost found: Option<string>)
      modifies this
      ensures Answers(old(workspaces), e.subscriptionRef, found)
      ensures View() == HandleCanceled(old(View()), e, found)
    {
      var w := FindWorkspace(e.subscriptionRef);
      found := w;
      if w.Some? {
        var ws := w.value;
        planLog := planLog + [PlanChange(ws, workspaces[ws].plan, FREE, OtherReason("subscription"))];
        workspaces := workspaces[ws := workspaces[ws].(plan := FREE)];
        workspaces := workspaces[ws := workspaces[ws].(subscriptionRef := "", expiresAt := None)];
        workspaces := workspaces[ws := workspaces[ws].(cancelRequested := false)];
      }
      MarkEvent(e.key, Processed);
    }

    method ReadOrder(id: nat) returns (seen: Option<Order>)
      ensures seen == GetOrder(View(), id)
    {
      return if id < |orders| then Some(orders[id]) else None;
    }

    /** seen is what the preceding ReadOrder answered; the order may have changed since. */
    method CancelPendingOrder(seen: Option<Order>, caller: string, id: nat) returns (refused: Option<Refusal>)
      modifies this`orders
      ensures UserCancel(seen, Alone(old(View())), caller, id).1 == refused
      ensures UserCancel(seen, Alone(old(View())), caller, id).0.store == View()
    {
      refused := UserCancelGate(caller, seen);
      if refused.Some? {
        return;
      }
      if id >= |orders| || orders[id].status != Pending {
        return Some(LostRace);
      }
      orders := orders[id := orders[id].(status := Canceled, canceledBy := ByUser)];
    }

    method AdminCancelPendingOrder(seen: Option<Order>, id: nat) returns (refused: Option<Refusal>)
      modifies this`orders
      ensures AdminCancel(seen, Alone(old(View())), id).1 == refused
      ensures AdminCancel(seen, Alone(old(View())), id).0.store == View()
    {
      refused := AdminCancelGate(seen);
      if refused.Some? {
        return;
      }
      if id >= |orders| || orders[id].status != Pending {
        return Some(Conflict);
      }
      orders := orders[id := orders[id].(status := Canceled, canceledBy := ByAdmin)];
    }

    method MarkOrderPaid(seen: Option<Order>, id: nat) returns (refused: Option<Refusal>)
      modifies this`orders
      ensures MarkPaidCall(seen, Alone(old(View())), id).1 == refused
      ensures MarkPaidCall(seen, Alone(old(View())), id).0.store == View()
    {
      refused := MarkPaidGate(seen);
      if refused.Some? {
        return;
      }
      if id >= |orders| || orders[id].status != Pending {
        return Some(Conflict);
      }
      orders := orders[id := orders[id].(status := Paid)];
    }
  }

  // ---- unrolling the call-by-call handler ---------------------------------

  /** Resolution reads only: the handler continues from the resolved order's first write. */
  lemma ResolvedToEnd(s: Store, e: PaymentEvent, x: int)
    ensures HandlePaid(s, e, x) == ToEnd(s, e, Resolved(s, e, ResolveId(s, e)), x)
  {
    var (_, ph) := Step(s, e, Lookup, x);
    if ph.LookupIntent? {
      assert Step(s, e, LookupIntent, x) == (s, Resolved(s, e, ResolveId(s, e)));
    }
  }

  lemma RevivedToEnd(s: Store, e: PaymentEvent, id: nat, o: Order, x: int)
    requires InStatus(s, id, Canceled) && s.orders[id].canceledBy == ByExpiry
    ensures ToEnd(s, e, At(Pay, id, o), x) == ToEnd(Revive(s, id).value, e, At(ReadPlan, id, o), x)
  {
    OneCall(s, e, At(Pay, id, o), x);
    OneCall(s, e, At(Reread, id, o), x);
    OneCall(s, e, At(TryRevive, id, o), x);
  }

  lemma UnrevivedToEnd(s: Store, e: PaymentEvent, id: nat, o: Order, x: int)
    requires InStatus(s, id, Canceled) && s.orders[id].canceledBy != ByExpiry
    ensures ToEnd(s, e, At(Pay, id, o), x) == ToEnd(s, e, Finish, x)
  {
    OneCall(s, e, At(Pay, id, o), x);
    OneCall(s, e, At(Reread, id, o), x);
    OneCall(s, e, At(TryRevive, id, o), x);
  }

  lemma GrantToEnd(s: Store, e: PaymentEvent, id: nat, o: Order, x: int)
    ensures ToEnd(s, e, At(ReadPlan, id, o), x)
            == match ChangePlan(s, o.workspace, o.planCode, ForOrder(id))
               case None => Mark(s, e.key, Errored)
               case Some(s1) =>
                 Mark(ClearCancel(if e.subscriptionRef == "" then s1
                                  else SetSubscription(s1, o.workspace, e.subscriptionRef, x).value, o.workspace),
                      e.key, Processed)
  {
    OneCall(s, e, At(ReadPlan, id, o), x);
    OneCall(s, e, At(GrantPlan, id, o), x);
    var (s1, ph) := Step(s, e, At(GrantPlan, id, o), x);
    if ph.Fail? {
      OneCall(s1, e, Fail, x);
    } else {
      var s2 := if ph.stage.Subscribe? then Step(s1, e, ph, x).0 else s1;
      if ph.stage.Subscribe? {
        OneCall(s1, e, ph, x);
      }
      OneCall(s2, e, At(ClearMark, id, o), x);
      OneCall(ClearCancel(s2, o.workspace), e, Finish, x);
    }
  }

  lemma OneCall(s: Store, e: PaymentEvent, ph: Phase, x: int)
    requires !ph.Done?
    ensures var (s', ph') := Step(s, e, ph, x);
            ToEnd(s, e, ph, x) == ToEnd(s', e, ph', x) && (ph'.Done? ==> ToEnd(s, e, ph, x) == s')
  {
  }
}
