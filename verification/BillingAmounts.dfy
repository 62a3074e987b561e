/** What an event's own fields decide: its order, whether its amount is accepted, and what it changes. */
module BillingAmounts {
  import opened Common
  import opened BillingRepo
  import opened BillingPaid
  import opened BillingRenewal
  import opened BillingService
  import BillingOrders

  // ---- the amount of a payment ------------------------------------------------

  /** An event for another amount, or in another currency, is marked and changes nothing else. */
  lemma WrongAmountChangesNothing(s: Store, e: PaymentEvent, id: nat, x: int)
    requires ResolveId(s, e) == Some(id) && s.orders[id].trialDays <= 0 && e.amountCents > 0
    requires e.amountCents != s.orders[id].amountCents || !CurrenciesAgree(e.currency, s.orders[id].currency)
    ensures HandlePaid(s, e, x) == Mark(s, e.key, Processed)
  {
    AmountMismatchIff(s.orders[id], e);
    ResolvedToEnd(s, e, x);
    OneCall(s, e, Finish, x);
  }

  lemma PaymentRunsOn(s: Store, e: PaymentEvent, id: nat, x: int)
    requires ResolveId(s, e) == Some(id) && s.orders[id].status == Pending
    requires s.orders[id].trialDays > 0 || e.amountCents <= 0
             || (e.amountCents == s.orders[id].amountCents && CurrenciesAgree(e.currency, s.orders[id].currency))
    ensures var o := s.orders[id];
            HandlePaid(s, e, x)
            == ToEnd(SetOrder(s, id, WithIntent(o, e).(status := Paid)), e, At(ReadPlan, id, o), x)
  {
    var o := s.orders[id];
    AmountMismatchIff(o, e);
    ResolvedToEnd(s, e, x);
    var s1 := SetOrder(s, id, WithIntent(o, e));
    if e.paymentIntentRef != "" {
      OneCall(s, e, At(SaveRef, id, o), x);
    } else {
      assert s1 == s;
    }
    OneCall(s1, e, At(Pay, id, o), x);
    assert SetOrder(s1, id, WithIntent(o, e).(status := Paid)) == SetOrder(s, id, WithIntent(o, e).(status := Paid));
  }

  /** An accepted event pays a pending order and gives its workspace the order's plan and, if it names
      one, the subscription and its expiry; a cancel mark goes, and nothing else changes. */
  lemma AcceptedPaymentPays(s: Store, e: PaymentEvent, id: nat, x: int)
    requires ResolveId(s, e) == Some(id) && s.orders[id].status == Pending && s.orders[id].workspace in s.workspaces
    requires s.orders[id].trialDays > 0 || e.amountCents <= 0
             || (e.amountCents == s.orders[id].amountCents && CurrenciesAgree(e.currency, s.orders[id].currency))
    ensures var (o, was, s') := (s.orders[id], s.workspaces[s.orders[id].workspace], HandlePaid(s, e, x));
            && s'.orders
               == s.orders[id := o.(status := Paid, paymentIntent := if e.paymentIntentRef == "" then o.paymentIntent
                                                                    else e.paymentIntentRef)]
            && s'.workspaces
               == s.workspaces[o.workspace :=
                    if e.subscriptionRef == "" then Workspace(o.planCode, was.subscriptionRef, was.expiresAt, false)
                    else Workspace(o.planCode, e.subscriptionRef, Some(x), false)]
  {
    var o := s.orders[id];
    PaymentRunsOn(s, e, id, x);
    GrantToEnd(SetOrder(s, id, WithIntent(o, e).(status := Paid)), e, id, o, x);
  }

  /** So a pending order of an existing workspace is paid, and its plan granted, exactly by an event for
      a trial, without an amount, or for the order's amount in the order's currency. */
  lemma PaidIffAmountAgrees(s: Store, e: PaymentEvent, id: nat, x: int)
    requires ResolveId(s, e) == Some(id) && s.orders[id].status == Pending && s.orders[id].workspace in s.workspaces
    ensures var (o, s') := (s.orders[id], HandlePaid(s, e, x));
            InStatus(s', id, Paid) <==>
              o.trialDays > 0 || e.amountCents <= 0
              || (e.amountCents == o.amountCents && CurrenciesAgree(e.currency, o.currency))
  {
    AmountMismatchIff(s.orders[id], e);
    if AmountMismatch(s.orders[id], e) {
      WrongAmountChangesNothing(s, e, id, x);
    } else {
      AcceptedPaymentPays(s, e, id, x);
    }
  }

  lemma CreditedOrders(s: Store, e: PaymentEvent, id: nat, x: int)
    requires ResolveId(s, e) == Some(id) && !AmountMismatch(s.orders[id], e)
    ensures var o := s.orders[id];
            Summary(s, e, x).orders == s.orders[id := if Creditable(o) then CreditedOrder(o, e) else WithIntent(o, e)]
  {
  }

  /** An accepted event finds any order: it ends paid exactly if it was pending, paid already, or canceled
      by the sweeper, and otherwise keeps its status and who canceled it. */
  lemma LatePayment(s: Store, e: PaymentEvent, id: nat, x: int)
    requires ResolveId(s, e) == Some(id)
    requires s.orders[id].trialDays > 0 || e.amountCents <= 0
             || (e.amountCents == s.orders[id].amountCents && CurrenciesAgree(e.currency, s.orders[id].currency))
    ensures var (o, orders') := (s.orders[id], HandlePaid(s, e, x).orders);
            && |orders'| == |s.orders| && o.SameSale(orders'[id])
            && if o.status == Pending || o.status == Paid || (o.status == Canceled && o.canceledBy == ByExpiry)
               then orders'[id].status == Paid
               else orders'[id].status == o.status && orders'[id].canceledBy == o.canceledBy
  {
    AmountMismatchIff(s.orders[id], e);
    HandlerIsSummary(s, e, x);
    CreditedOrders(s, e, id, x);
  }

  // ---- the handler, exactly -----------------------------------------------------

  function CreditedStatus(o: Order): Order {
    o.(status := Paid, canceledBy := if o.status == Canceled then Unknown else o.canceledBy)
  }

  /** From the compare-and-set on: an order that may be credited is, by one of three ways. */
  lemma PayToEnd(s: Store, e: PaymentEvent, id: nat, o: Order, x: int)
    requires id < |s.orders|
    ensures var now := s.orders[id];
            ToEnd(s, e, At(Pay, id, o), x)
            == if Creditable(now) then ToEnd(SetOrder(s, id, CreditedStatus(now)), e, At(ReadPlan, id, o), x)
               else Mark(s, e.key, Processed)
  {
    var now := s.orders[id];
    OneCall(s, e, At(Pay, id, o), x);
    if now.status != Pending {
      OneCall(s, e, At(Reread, id, o), x);
      if now.status == Paid {
        assert SetOrder(s, id, CreditedStatus(now)) == s;
      } else if now.status == Canceled {
        OneCall(s, e, At(TryRevive, id, o), x);
      }
      if !Creditable(now) {
        OneCall(s, e, Finish, x);
      }
    }
  }

  /** From the plan on: the workspace is credited, and the change of its plan is logged. */
  lemma CreditToEnd(s: Store, e: PaymentEvent, id: nat, o: Order, x: int)
    ensures ToEnd(s, e, At(ReadPlan, id, o), x)
            == if o.workspace !in s.workspaces then Mark(s, e.key, Errored)
               else
                 var was := s.workspaces[o.workspace];
                 Mark(s.(workspaces := s.workspaces[o.workspace := CreditedWorkspace(was, o, e, x)],
                         planLog := s.planLog + [PlanChange(o.workspace, was.plan, o.planCode, ForOrder(id))]),
                      e.key, Processed)
  {
    GrantToEnd(s, e, id, o, x);
    if o.workspace in s.workspaces {
      var w := CreditedWorkspace(s.workspaces[o.workspace], o, e, x);
      var granted := ChangePlan(s, o.workspace, o.planCode, ForOrder(id)).value;
      var kept := if e.subscriptionRef == "" then granted
                  else SetSubscription(granted, o.workspace, e.subscriptionRef, x).value;
      assert ClearCancel(kept, o.workspace).workspaces == s.workspaces[o.workspace := w];
    }
  }

  /** An accepted event after its order has been resolved. */
  lemma AcceptedToEnd(s: Store, e: PaymentEvent, id: nat, x: int)
    requires ResolveId(s, e) == Some(id) && !AmountMismatch(s.orders[id], e)
    ensures HandlePaid(s, e, x)
            == ToEnd(SetOrder(s, id, WithIntent(s.orders[id], e)), e, At(Pay, id, s.orders[id]), x)
  {
    var o := s.orders[id];
    ResolvedToEnd(s, e, x);
    if e.paymentIntentRef != "" {
      OneCall(s, e, At(SaveRef, id, o), x);
    } else {
      assert SetOrder(s, id, WithIntent(o, e)) == s;
    }
  }

  /** An uninterrupted run leaves exactly what its description says, the new expiry included, and logs a
      plan change exactly if it credited a workspace. */
  lemma HandlerIsSummaryExactly(s: Store, e: PaymentEvent, x: int)
    ensures var (id, s') := (ResolveId(s, e), HandlePaid(s, e, x));
            && s'.(planLog := s.planLog) == Summary(s, e, x)
            && s'.planLog
               == if id.Some? && !AmountMismatch(s.orders[id.value], e) && Creditable(s.orders[id.value])
                     && s.orders[id.value].workspace in s.workspaces
                  then
                    var o := s.orders[id.value];
                    var was := s.workspaces[o.workspace].plan;
                    s.planLog + [PlanChange(o.workspace, was, o.planCode, ForOrder(id.value))]
                  else s.planLog
  {
    var id := ResolveId(s, e);
    if id.None? || AmountMismatch(s.orders[id.value], e) {
      ResolvedToEnd(s, e, x);
      OneCall(s, e, Finish, x);
    } else {
      var o := s.orders[id.value];
      AcceptedToEnd(s, e, id.value, x);
      var saved := SetOrder(s, id.value, WithIntent(o, e));
      PayToEnd(saved, e, id.value, o, x);
      if Creditable(o) {
        assert SetOrder(saved, id.value, CreditedStatus(saved.orders[id.value]))
            == SetOrder(s, id.value, CreditedOrder(o, e));
        CreditToEnd(SetOrder(s, id.value, CreditedOrder(o, e)), e, id.value, o, x);
      }
    }
  }

  /** What the sweeper cancels is canceled by expiry, so a late payment still finds it; it cancels exactly
      the orders it selected. */
  lemma SweptOrdersAreRevivable(orders: seq<Order>, ids: set<nat>, i: nat)
    requires i < |orders|
    ensures BillingOrders.SweptOrders(orders, ids)[i]
            == if i in ids then orders[i].(status := Canceled, canceledBy := ByExpiry) else orders[i]
  {
  }

  /** Letter case does not matter, anything else does. */
  lemma CurrencyExamples()
    ensures CurrenciesAgree("USD", "usd") && CurrenciesAgree("", "USD")
    ensures !CurrenciesAgree("USD", "EUR") && !CurrenciesAgree("USD", "USDT")
  {
    assert !SameLetter("USD"[0], "EUR"[0]);
  }

  // ---- the order an event means -------------------------------------------------

  predicate HasChannelRef(o: Order, e: PaymentEvent) {
    e.channelRef != "" && o.channel == e.key.channel && o.channelRef == e.channelRef
  }

  /** The payment intent, or the channel reference in its place, if the event carries either. */
  predicate HasIntent(o: Order, e: PaymentEvent) {
    if e.paymentIntentRef != "" then o.paymentIntent == e.paymentIntentRef
    else e.channelRef != "" && o.paymentIntent == e.channelRef
  }

  /** An event that names an order means that order or none. Otherwise it means an order with its channel
      reference; only if there is none, the most recent one with its payment intent. */
  lemma ResolutionMeaning(s: Store, e: PaymentEvent)
    ensures var (id, n) := (ResolveId(s, e), |s.orders|);
            if e.orderId.Some? then id == if e.orderId.value < n then e.orderId else None
            else if exists i :: 0 <= i < n && HasChannelRef(s.orders[i], e) then
              id.Some? && HasChannelRef(s.orders[id.value], e)
            else
              && (id.Some? ==> HasIntent(s.orders[id.value], e))
              && (forall i :: 0 <= i < n && HasIntent(s.orders[i], e) ==> id.Some? && i <= id.value)
  {
  }

  // ---- what a renewal does --------------------------------------------------------

  /** The event names an order, carries an amount, and the catalog has a price for it that differs in
      amount or currency. */
  predicate WrongPrice(s: Store, e: PaymentEvent, price: int) {
    && e.orderId.Some? && e.orderId.value < |s.orders| && e.amountCents > 0 && price > 0
    && (e.amountCents != price || !CurrenciesAgree(e.currency, s.orders[e.orderId.value].currency))
  }

  /** The named order is given the event's payment intent, if there is one. For the wrong price nothing else
      changes; otherwise the workspace found gets the subscription and its new expiry, and the named
      order's plan if it has fallen back to the free one. */
  lemma RenewalOutcome(s: Store, e: PaymentEvent, price: int, w: string, x: int)
    requires Carries(s.workspaces, w, e.subscriptionRef)
    ensures var (was, after) := (s.workspaces[w], RenewalSpec(s, e, price, Some(w), x).workspaces);
            var code := if e.orderId.Some? && e.orderId.value < |s.orders| then s.orders[e.orderId.value].planCode
                        else "";
            after == if WrongPrice(s, e, price) then s.workspaces
                     else s.workspaces[w := Workspace(if was.plan == "free" && code != "" then code else was.plan,
                                                      e.subscriptionRef, Some(x), was.cancelRequested)]
    ensures var orders' := RenewalSpec(s, e, price, Some(w), x).orders;
            orders' == if e.orderId.Some? && e.orderId.value < |s.orders| && e.paymentIntentRef != ""
                       then s.orders[e.orderId.value :=
                              s.orders[e.orderId.value].(paymentIntent := e.paymentIntentRef)]
                       else s.orders
  {
    AnchoringKeeps(s, e, price, s.workspaces[w].plan);
    if e.orderId.Some? && e.orderId.value < |s.orders| {
      EqualFoldIff(e.currency, s.orders[e.orderId.value].currency);
    }
  }
}
