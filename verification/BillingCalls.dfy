/** Calls that read an order and later write it under compare-and-set: cancellations, marking a manual
    order paid, failed-payment events. Anything may happen between the read and the write. */
module BillingCalls {
  import opened Common
  import opened BillingRepo
  import opened BillingPaid
  import opened BillingOrders

  /** LostRace is the bare status conflict of the write. */
  datatype Refusal = Invalid | NotFound | Conflict | LostRace

  function GetOrder(s: Store, id: nat): Option<Order> {
    if id < |s.orders| then Some(s.orders[id]) else None
  }

  // ---- what is decided from the copy that was read -----------------------------

  /** caller is the principal's workspace; an order of another one is not found. */
  function UserCancelGate(caller: string, seen: Option<Order>): Option<Refusal> {
    if caller == "" then Some(Invalid)
    else if seen.None? then Some(NotFound)
    else if seen.value.workspace != caller then Some(NotFound)
    else if seen.value.status != Pending then Some(Conflict)
    else None
  }

  function AdminCancelGate(seen: Option<Order>): Option<Refusal> {
    if seen.None? then Some(NotFound) else if seen.value.status != Pending then Some(Conflict) else None
  }

  function MarkPaidGate(seen: Option<Order>): Option<Refusal> {
    if seen.None? then Some(NotFound) else if seen.value.channel != MANUAL then Some(Invalid) else None
  }

  // ---- the write ---------------------------------------------------------------

  /** next is the compare-and-set's answer on the store of now. */
  function Written(s: System, id: nat, next: Option<Store>, to: OrderStatus, conflict: Refusal)
    : (System, Option<Refusal>)
    requires next.Some? ==> id < |s.store.orders|
  {
    if next.Some? then (Write(s, id, next.value, to), None) else (s, Some(conflict))
  }

  function UserCancel(seen: Option<Order>, s: System, caller: string, id: nat): (System, Option<Refusal>) {
    var gate := UserCancelGate(caller, seen);
    if gate.Some? then (s, gate) else Written(s, id, CancelOrder(s.store, id, ByUser), Canceled, LostRace)
  }

  function AdminCancel(seen: Option<Order>, s: System, id: nat): (System, Option<Refusal>) {
    var gate := AdminCancelGate(seen);
    if gate.Some? then (s, gate) else Written(s, id, CancelOrder(s.store, id, ByAdmin), Canceled, Conflict)
  }

  function MarkPaidCall(seen: Option<Order>, s: System, id: nat): (System, Option<Refusal>) {
    var gate := MarkPaidGate(seen);
    if gate.Some? then (s, gate) else Written(s, id, UpdateStatus(s.store, id, Pending, Paid), Paid, Conflict)
  }

  /** The write and the event mark are one transaction; a conflict only marks the event. */
  function FailedCall(resolved: Option<nat>, s: System, e: PaymentEvent): System {
    var failed := if resolved.None? then s
                  else Written(s, resolved.value, UpdateStatus(s.store, resolved.value, Pending, Failed), Failed,
                               Conflict).0;
    failed.(store := Mark(failed.store, e.key, Processed))
  }

  // ---- between the read and the write --------------------------------------------

  /** What was sold does not change, and no order becomes pending again. */
  lemma {:induction false} PendingNeverReturns(s: System, acts: seq<Action>, id: nat)
    requires Schedule(s, acts) && id < |s.store.orders|
    ensures var orders' := After(s, acts).store.orders;
            && id < |orders'| && s.store.orders[id].SameSale(orders'[id])
            && (orders'[id].status == Pending ==> s.store.orders[id].status == Pending)
    decreases |acts|
  {
    if acts != [] {
      OrdersFollowTheMachine(s, acts[0], id);
      PendingNeverReturns(Act(s, acts[0]), acts[1..], id);
    }
  }

  /** Either nothing happened, or exactly this action, which moved exactly this order along its edge. */
  ghost predicate TakesEdgeOrNothing(s: System, s': System, refused: Option<Refusal>, a: Action, id: nat) {
    && (if refused.None? then CanAct(s, a) && s' == Act(s, a) else s' == s)
    && |s'.store.orders| == |s.store.orders|
    && (forall k :: 0 <= k < |s.store.orders| ==> Allowed(s.store.orders[k], s'.store.orders[k]))
    && (forall k :: 0 <= k < |s.store.orders| && k != id ==> s'.store.orders[k] == s.store.orders[k])
    && (refused.None? ==> id < |s.store.orders| && s'.store.orders[id].status != Pending)
  }

  /** Whatever happens after the read, the user's cancellation is the atomic Cancel action or nothing.
      It succeeds exactly for an order of the caller's workspace that was there to be read and is still
      pending when it is written; the race is lost exactly when it stopped being pending between. */
  lemma UserCancelIsOneAction(s: System, acts: seq<Action>, caller: string, id: nat)
    requires Schedule(s, acts)
    ensures var (now, seen) := (After(s, acts), GetOrder(s.store, id));
            var (s', refused) := UserCancel(seen, now, caller, id);
            && TakesEdgeOrNothing(now, s', refused, Cancel(id, ByUser), id)
            && (refused.None? <==>
                  caller != "" && seen.Some? && seen.value.workspace == caller && InStatus(now.store, id, Pending))
            && (refused.None? ==> s'.store.orders[id].workspace == caller && s'.store.orders[id].canceledBy == ByUser)
            && (refused == Some(Invalid) <==> caller == "")
            && (refused == Some(NotFound) <==> caller != "" && (seen.None? || seen.value.workspace != caller))
            && (refused == Some(Conflict) <==>
                  caller != "" && seen.Some? && seen.value.workspace == caller && !InStatus(s.store, id, Pending))
            && (refused == Some(LostRace) <==>
                  caller != "" && seen.Some? && seen.value.workspace == caller
                  && InStatus(s.store, id, Pending) && !InStatus(now.store, id, Pending))
  {
    if id < |s.store.orders| {
      PendingNeverReturns(s, acts, id);
    }
  }

  /** The same for the admin's, whichever workspace the order is of. */
  lemma AdminCancelIsOneAction(s: System, acts: seq<Action>, id: nat)
    requires Schedule(s, acts)
    ensures var (now, seen) := (After(s, acts), GetOrder(s.store, id));
            var (s', refused) := AdminCancel(seen, now, id);
            && TakesEdgeOrNothing(now, s', refused, Cancel(id, ByAdmin), id)
            && (refused.None? <==> seen.Some? && InStatus(now.store, id, Pending))
            && (refused.Some? ==> refused == Some(if seen.None? then NotFound else Conflict))
            && (refused.None? ==> s'.store.orders[id].canceledBy == ByAdmin)
  {
    if id < |s.store.orders| {
      PendingNeverReturns(s, acts, id);
    }
  }

  /** Marking paid reads the channel only; its status test is the write's. */
  lemma MarkPaidIsOneAction(s: System, acts: seq<Action>, id: nat)
    requires Schedule(s, acts)
    ensures var (now, seen) := (After(s, acts), GetOrder(s.store, id));
            var (s', refused) := MarkPaidCall(seen, now, id);
            && TakesEdgeOrNothing(now, s', refused, MarkPaid(id), id)
            && (refused.None? <==> seen.Some? && seen.value.channel == "manual" && InStatus(now.store, id, Pending))
            && (refused.Some? ==>
                  refused == Some(if seen.None? then NotFound else if seen.value.channel != "manual" then Invalid
                                  else Conflict))
            && (refused.None? ==> s'.store.orders[id].status == Paid)
  {
    if id < |s.store.orders| {
      PendingNeverReturns(s, acts, id);
    }
  }

  /** A failed payment fails the order it resolved to exactly if that is still pending, and is
      processed either way; plans and workspaces are untouched. */
  lemma FailedEventIsOneAction(s: System, acts: seq<Action>, e: PaymentEvent)
    requires Schedule(s, acts)
    ensures var (now, id) := (After(s, acts), ResolveId(s.store, e));
            var s' := FailedCall(id, now, e);
            && s'.(store := s'.store.(events := now.store.events))
               == (if id.Some? && InStatus(now.store, id.value, Pending) then Act(now, FailOrder(id.value)) else now)
            && (e.key in now.store.events ==> s'.store.events == now.store.events[e.key := Processed])
            && s'.store.workspaces == now.store.workspaces && s'.store.planLog == now.store.planLog
            && (forall k :: 0 <= k < |now.store.orders| ==>
                  k < |s'.store.orders| && Allowed(now.store.orders[k], s'.store.orders[k]))
  {
  }

  /** Of all these calls on one order at most one succeeds: after a success every later one, whenever
      it did its read and whatever happens between, is refused. */
  lemma OnlyOneSucceeds(s: System, s': System, refused: Option<Refusal>, a: Action, id: nat, acts: seq<Action>,
                        seen: Option<Order>, caller: string)
    requires TakesEdgeOrNothing(s, s', refused, a, id) && refused.None? && Schedule(s', acts)
    ensures var now := After(s', acts);
            && UserCancel(seen, now, caller, id).1.Some?
            && AdminCancel(seen, now, id).1.Some?
            && MarkPaidCall(seen, now, id).1.Some?
  {
    PendingNeverReturns(s', acts, id);
  }

  /** The interleaving's invariant holds after each of them. */
  lemma CallsKeepInv(s: System, s': System, refused: Option<Refusal>, a: Action, id: nat)
    requires Inv(s) && TakesEdgeOrNothing(s, s', refused, a, id)
    ensures Inv(s')
  {
    if refused.None? {
      ActKeepsInv(s, a);
    }
  }
}
