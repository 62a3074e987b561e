/** The billing tables and the repository calls on them. Every status change is a
    compare-and-set: it applies only to a row still in the expected status.
    Orders are only inserted and updated, so an order id is its position in creation order. */
module BillingRepo {
  import opened Common

  datatype OrderStatus = Pending | Paid | Failed | Canceled | Refunded

  datatype CanceledBy = Unknown | ByUser | ByAdmin | ByExpiry

  datatype Order = Order(
    workspace: string, planCode: string, amountCents: int, currency: string, channel: string, trialDays: int,
    status: OrderStatus, canceledBy: CanceledBy, channelRef: string, paymentIntent: string)
  {
    /** The fields fixed when the order is created. */
    predicate SameSale(other: Order) {
      workspace == other.workspace && planCode == other.planCode && amountCents == other.amountCents
      && currency == other.currency && channel == other.channel && trialDays == other.trialDays
    }
  }

  datatype Workspace = Workspace(plan: string, subscriptionRef: string, expiresAt: Option<int>, cancelRequested: bool)

  datatype EventStatus = Received | Processed | Errored

  datatype EventKey = EventKey(channel: string, id: string)

  datatype PaymentEvent = PaymentEvent(
    key: EventKey, orderId: Option<nat>, channelRef: string, subscriptionRef: string,
    paymentIntentRef: string, amountCents: int, currency: string)

  datatype Reason = ForOrder(id: nat) | ForRefund(id: nat) | OtherReason(text: string)

  datatype PlanChange = PlanChange(workspace: string, fromPlan: string, toPlan: string, reason: Reason)

  datatype Store = Store(
    orders: seq<Order>,
    workspaces: map<string, Workspace>,
    events: map<EventKey, EventStatus>,
    planLog: seq<PlanChange>)

  const FREE := "free"

  // ---- order calls -------------------------------------------------------

  predicate InStatus(s: Store, id: nat, status: OrderStatus) {
    id < |s.orders| && s.orders[id].status == status
  }

  function SetOrder(s: Store, id: nat, o: Order): Store
    requires id < |s.orders|
  {
    s.(orders := s.orders[id := o])
  }

  /** None is ErrStatusConflict. */
  function UpdateStatus(s: Store, id: nat, from: OrderStatus, to: OrderStatus): Option<Store> {
    if InStatus(s, id, from) then Some(SetOrder(s, id, s.orders[id].(status := to))) else None
  }

  function CancelOrder(s: Store, id: nat, who: CanceledBy): Option<Store> {
    if InStatus(s, id, Pending) then Some(SetOrder(s, id, s.orders[id].(status := Canceled, canceledBy := who)))
    else None
  }

  /** The one exit from canceled: only a row the sweeper canceled is revived. */
  function Revive(s: Store, id: nat): Option<Store> {
    if InStatus(s, id, Canceled) && s.orders[id].canceledBy == ByExpiry
    then Some(SetOrder(s, id, s.orders[id].(status := Paid, canceledBy := Unknown))) else None
  }

  function SaveIntent(s: Store, id: nat, ref: string): Store {
    if id < |s.orders| then SetOrder(s, id, s.orders[id].(paymentIntent := ref)) else s
  }

  /** Which row answers when several share a reference is not specified; the first one is taken. */
  function FindByChannelRef(orders: seq<Order>, channel: string, ref: string): (id: Option<nat>)
    ensures id.Some? ==>
              && id.value < |orders| && orders[id.value].channel == channel && orders[id.value].channelRef == ref
    ensures id.None? ==> forall i :: 0 <= i < |orders| ==> orders[i].channel != channel || orders[i].channelRef != ref
  {
    if orders == [] then None
    else
      var n := |orders| - 1;
      match FindByChannelRef(orders[..n], channel, ref)
      case Some(id) => Some(id)
      case None => if orders[n].channel == channel && orders[n].channelRef == ref then Some(n) else None
  }

  /** The most recently created order carrying the payment intent. */
  function FindByIntent(orders: seq<Order>, ref: string): (id: Option<nat>)
    ensures id.Some? ==> id.value < |orders| && orders[id.value].paymentIntent == ref
    ensures id.Some? ==> forall i :: id.value < i < |orders| ==> orders[i].paymentIntent != ref
    ensures id.None? ==> forall i :: 0 <= i < |orders| ==> orders[i].paymentIntent != ref
  {
    if orders == [] then None
    else
      var n := |orders| - 1;
      if orders[n].paymentIntent == ref then Some(n) else FindByIntent(orders[..n], ref)
  }

  // ---- workspace calls ---------------------------------------------------

  /** None: the workspace row is missing and the transaction fails. */
  function ChangePlan(s: Store, workspace: string, to: string, reason: Reason): Option<Store> {
    if workspace !in s.workspaces then None
    else
      var w := s.workspaces[workspace];
      Some(s.(workspaces := s.workspaces[workspace := w.(plan := to)],
              planLog := s.planLog + [PlanChange(workspace, w.plan, to, reason)]))
  }

  function SetSubscription(s: Store, workspace: string, ref: string, expiresAt: int): Option<Store> {
    if workspace !in s.workspaces then None
    else
      var w := s.workspaces[workspace];
      Some(s.(workspaces := s.workspaces[workspace :=
                w.(subscriptionRef := ref, expiresAt := if ref == "" then None else Some(expiresAt))]))
  }

  function ClearCancel(s: Store, workspace: string): Store {
    if workspace in s.workspaces
    then s.(workspaces := s.workspaces[workspace := s.workspaces[workspace].(cancelRequested := false)])
    else s
  }

  // ---- event calls -------------------------------------------------------

  /** A redelivery is taken up again only when the stored event is in error. */
  function InsertEvent(s: Store, k: EventKey): (Store, bool) {
    if k !in s.events || s.events[k] == Errored then (s.(events := s.events[k := Received]), true) else (s, false)
  }

  function Mark(s: Store, k: EventKey, status: EventStatus): Store {
    if k in s.events then s.(events := s.events[k := status]) else s
  }

  // ---- amount reconciliation ---------------------------------------------

  /** Unicode simple case folding of the letters that fold to ASCII. */
  function FoldChar(c: char): char {
    if 'A' <= c <= 'Z' then c - 'A' + 'a'
    else if c == '\U{212A}' then 'k'
    else if c == '\U{017F}' then 's'
    else c
  }

  predicate EqualFold(a: string, b: string) {
    |a| == |b| && forall i :: 0 <= i < |a| ==> FoldChar(a[i]) == FoldChar(b[i])
  }

  predicate AmountMismatch(o: Order, e: PaymentEvent) {
    if o.trialDays > 0 || e.amountCents <= 0 then false
    else o.amountCents != e.amountCents
         || (e.currency != "" && o.currency != "" && !EqualFold(e.currency, o.currency))
  }

  /** The same letter up to case; the Kelvin sign and the long s are cases of k and s. */
  predicate SameLetter(c: char, d: char) {
    || c == d
    || ('a' <= c <= 'z' && d as int == c as int - 32)
    || ('a' <= d <= 'z' && c as int == d as int - 32)
    || {c, d} <= {'k', 'K', '\U{212A}'}
    || {c, d} <= {'s', 'S', '\U{017F}'}
  }

  /** The currencies agree: one of them is not given, or they spell the same up to letter case. */
  predicate CurrenciesAgree(a: string, b: string) {
    a == "" || b == "" || (|a| == |b| && forall i :: 0 <= i < |a| ==> SameLetter(a[i], b[i]))
  }

  lemma FoldsAlikeIff(c: char, d: char)
    ensures FoldChar(c) == FoldChar(d) <==> SameLetter(c, d)
  {
  }

  lemma EqualFoldIff(a: string, b: string)
    ensures a == "" || b == "" || EqualFold(a, b) <==> CurrenciesAgree(a, b)
  {
    if |a| == |b| {
      forall i | 0 <= i < |a| ensures FoldChar(a[i]) == FoldChar(b[i]) <==> SameLetter(a[i], b[i]) {
        FoldsAlikeIff(a[i], b[i]);
      }
    }
  }

  /** An event's amount is accepted for a trial, if the event carries none, or if amount and currency are
      the order's. */
  lemma AmountMismatchIff(o: Order, e: PaymentEvent)
    ensures !AmountMismatch(o, e) <==>
              o.trialDays > 0 || e.amountCents <= 0
              || (e.amountCents == o.amountCents && CurrenciesAgree(e.currency, o.currency))
  {
    EqualFoldIff(e.currency, o.currency);
  }
}
