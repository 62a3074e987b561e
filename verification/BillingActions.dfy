/** What each action of an interleaving does to orders, events and handlers, field by field, and the edges
    it may move an order along. */
module BillingActions {
  import opened Common
  import opened BillingRepo
  import opened BillingPaid
  import opened BillingOrders

  /** The calls of the other paths: each changes the orders it names, in the way it says, and no other. */
  lemma OutsideActs(s: System, a: Action, id: nat)
    requires CanAct(s, a) && !a.Advance? && id < |s.store.orders|
    ensures var (o, orders') := (s.store.orders[id], Act(s, a).store.orders);
            && |orders'| == |s.store.orders| + (if a.Create? then 1 else 0)
            && orders'[id]
               == match a
                  case FailOrder(i) => if i == id then o.(status := Failed) else o
                  case Cancel(i, who) => if i == id then o.(status := Canceled, canceledBy := who) else o
                  case Sweep(ids) => if id in ids then o.(status := Canceled, canceledBy := ByExpiry) else o
                  case MarkPaid(i) => if i == id then o.(status := Paid) else o
                  case Refund(i) => if i == id then o.(status := Refunded) else o
                  case SetRefs(i, ref, intent) =>
                    if i == id then o.(channelRef := ref, paymentIntent := intent) else o
                  case _ => o
  {
  }

  /** And to which they may be applied: only a pending order fails, is canceled or is marked paid by hand,
      the last only on the manual channel, and only a paid one is refunded. */
  lemma ActsNeed(s: System, a: Action)
    requires CanAct(s, a)
    ensures match a
            case Create(o) => o.status == Pending && o.canceledBy == Unknown
            case FailOrder(i) => i < |s.store.orders| && s.store.orders[i].status == Pending
            case Cancel(i, who) =>
              i < |s.store.orders| && s.store.orders[i].status == Pending && who in {ByUser, ByAdmin}
            case Sweep(ids) => forall i :: i in ids ==> i < |s.store.orders| && s.store.orders[i].status == Pending
            case MarkPaid(i) =>
              i < |s.store.orders| && s.store.orders[i].status == Pending && s.store.orders[i].channel == "manual"
            case Refund(i) => i < |s.store.orders| && s.store.orders[i].status == Paid
            case _ => true
  {
  }

  /** The edges spelled out. What was sold to whom, for how much and through which channel stays. */
  ghost predicate Edge(o: Order, o': Order) {
    && o'.workspace == o.workspace && o'.planCode == o.planCode && o'.amountCents == o.amountCents
    && o'.currency == o.currency && o'.channel == o.channel && o'.trialDays == o.trialDays
    && match o'.status
       case Pending => o.status == Pending
       case Paid => o.status in {Paid, Pending} || (o.status == Canceled && o.canceledBy == ByExpiry)
       case Failed => o.status in {Failed, Pending}
       case Canceled =>
         (o.status == Canceled && o'.canceledBy == o.canceledBy) || (o.status == Pending && o'.canceledBy != Unknown)
       case Refunded => o.status in {Refunded, Paid}
  }

  lemma AllowedIsEdge(o: Order, o': Order)
    requires Allowed(o, o')
    ensures Edge(o, o')
  {
  }

  lemma EveryEdge(s: System, a: Action, id: nat)
    requires CanAct(s, a) && id < |s.store.orders|
    ensures id < |Act(s, a).store.orders| && Edge(s.store.orders[id], Act(s, a).store.orders[id])
  {
    OrdersFollowTheMachine(s, a, id);
    AllowedIsEdge(s.store.orders[id], Act(s, a).store.orders[id]);
  }

  /** The ends of the machine. */
  lemma ClosedMeaning(o: Order)
    ensures Closed(o) <==>
              o.status in {Failed, Refunded} || (o.status == Canceled && o.canceledBy in {Unknown, ByUser, ByAdmin})
  {
  }

  /** History is complete: every single-row change of a status is written down, as it was, at once. */
  lemma StatusChangesAreLogged(s: System, a: Action, id: nat)
    requires CanAct(s, a) && !a.Sweep? && id < |s.store.orders|
    ensures var s' := Act(s, a);
            && id < |s'.store.orders|
            && (s'.store.orders[id].status != s.store.orders[id].status ==>
                  s'.log == s.log + [StatusSet(id, s.store.orders[id].status, s'.store.orders[id].status)])
  {
    if a.Advance? && s.handlers[a.h].phase.At? {
      var hd := s.handlers[a.h];
      StageLogs(s.store, hd.event, hd.phase, hd.expiresAt, id);
    }
  }

  lemma StageLogs(s: Store, e: PaymentEvent, ph: Phase, x: int, id: nat)
    requires ph.At? && id < |s.orders|
    ensures var s' := StepAt(s, e, ph.stage, ph.id, ph.order, x).0;
            && id < |s'.orders|
            && (s'.orders[id].status != s.orders[id].status ==>
                  Entries(s, s', e, ph) == [StatusSet(id, s.orders[id].status, s'.orders[id].status)])
  {
  }

  // ---- handlers ---------------------------------------------------------------

  /** A delivery starts a handler exactly if the event is new or in error, and records it as received. */
  lemma DeliverStarts(s: System, h: nat, e: PaymentEvent, x: int)
    requires CanAct(s, Deliver(h, e, x))
    ensures var s' := Act(s, Deliver(h, e, x));
            var starts := e.key !in s.store.events || s.store.events[e.key] == Errored;
            && s'.handlers == (if starts then s.handlers[h := Handler(e, Lookup, x)] else s.handlers)
            && s'.store.events == (if starts then s.store.events[e.key := Received] else s.store.events)
            && s'.store.orders == s.store.orders && s'.store.workspaces == s.store.workspaces && s'.log == s.log
  {
  }

  /** A handler that stops is over: returning an error it marks its event, dying it leaves everything. */
  lemma DropStops(s: System, h: nat, marked: bool)
    requires CanAct(s, Drop(h, marked))
    ensures var (s', key) := (Act(s, Drop(h, marked)), s.handlers[h].event.key);
            && s'.handlers == s.handlers[h := s.handlers[h].(phase := Done)]
            && s'.store.events
               == (if marked && key in s.store.events then s.store.events[key := Errored] else s.store.events)
            && s'.store.orders == s.store.orders && s'.store.workspaces == s.store.workspaces && s'.log == s.log
  {
  }

  /** What a handler does is one call of the handler, on the tables as it finds them. */
  lemma AdvanceSteps(s: System, h: nat)
    requires CanAct(s, Advance(h))
    ensures var (s', hd) := (Act(s, Advance(h)), s.handlers[h]);
            && (s'.store, s'.handlers[h].phase) == Step(s.store, hd.event, hd.phase, hd.expiresAt)
            && s'.handlers[h].event == hd.event && s'.handlers[h].expiresAt == hd.expiresAt
            && (forall g :: g in s.handlers && g != h ==> g in s'.handlers && s'.handlers[g] == s.handlers[g])
  {
  }
}
