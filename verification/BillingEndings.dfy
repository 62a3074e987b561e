/** How a paid plan ends: the refund and the cancellation handler as the repository calls they make, one
    after the other. */
module BillingEndings {
  import opened Common
  import opened BillingRepo
  import opened BillingPaid
  import opened BillingRenewal
  import opened BillingService

  datatype EndingPhase =
    | FindOrder
    | FindCarrier(found: Option<string>)
    | SetRefunded(id: nat)
    | TakePlan(workspace: string, reason: Reason, dropping: bool)
    | DropSubscription(workspace: string)
    | ClearRequest(workspace: string)
    | Ends(status: EventStatus)
    | Over

  /** One repository call; a call that fails sends the handler to mark the event in error. A refund takes a
      subscription along only if its event names one, a cancellation always. */
  function Call(s: Store, e: PaymentEvent, ph: EndingPhase): (Store, EndingPhase) {
    match ph
    case FindOrder =>
      (s, if ResolveId(s, e).None? then Ends(Processed) else SetRefunded(ResolveId(s, e).value))
    case FindCarrier(found) =>
      (s, if found.None? || found.value !in s.workspaces then Ends(Processed)
          else TakePlan(found.value, OtherReason("subscription"), true))
    case SetRefunded(id) =>
      (match UpdateStatus(s, id, Paid, Refunded)
       case None => (s, Ends(Processed))
       case Some(s1) => (s1, TakePlan(s.orders[id].workspace, ForRefund(id), e.subscriptionRef != "")))
    case TakePlan(workspace, reason, dropping) =>
      (match ChangePlan(s, workspace, "free", reason)
       case None => (s, Ends(Errored))
       case Some(s1) => (s1, if dropping then DropSubscription(workspace) else Ends(Processed)))
    case DropSubscription(workspace) =>
      (match SetSubscription(s, workspace, "", 0)
       case None => (s, Ends(Errored))
       case Some(s1) => (s1, ClearRequest(workspace)))
    case ClearRequest(workspace) => (ClearCancel(s, workspace), Ends(Processed))
    case Ends(status) => (Mark(s, e.key, status), EndingPhase.Over)
    case Over => (s, EndingPhase.Over)
  }

  function Calls(s: Store, e: PaymentEvent, ph: EndingPhase, k: nat): Store
    decreases k
  {
    if k == 0 then s
    else
      var (s1, next) := Call(s, e, ph);
      Calls(s1, e, next, k - 1)
  }

  lemma {:induction false} OverStays(s: Store, e: PaymentEvent, k: nat)
    ensures Calls(s, e, EndingPhase.Over, k) == s
  {
    if k > 0 {
      OverStays(s, e, k - 1);
    }
  }

  lemma EndsNext(s: Store, e: PaymentEvent, status: EventStatus, k: nat)
    ensures Calls(s, e, Ends(status), k) == if k == 0 then s else Mark(s, e.key, status)
  {
    if k > 0 {
      OverStays(Mark(s, e.key, status), e, k - 1);
    }
  }

  /** The calls after the plan is taken away. */
  lemma DropCalls(s: Store, e: PaymentEvent, workspace: string, k: nat)
    requires workspace in s.workspaces
    ensures var dropped := SetSubscription(s, workspace, "", 0).value;
            var cleared := ClearCancel(dropped, workspace);
            Calls(s, e, DropSubscription(workspace), k)
            == if k == 0 then s else if k == 1 then dropped else if k == 2 then cleared
               else Mark(cleared, e.key, Processed)
  {
    if k > 0 {
      var dropped := SetSubscription(s, workspace, "", 0).value;
      assert Calls(s, e, DropSubscription(workspace), k) == Calls(dropped, e, ClearRequest(workspace), k - 1);
      if k > 1 {
        EndsNext(ClearCancel(dropped, workspace), e, Processed, k - 2);
      }
    }
  }

  // ---- refunds ----------------------------------------------------------------

  lemma RefundedCalls(s: Store, e: PaymentEvent, id: nat, workspace: string, k: nat)
    requires id < |s.orders| && workspace == s.orders[id].workspace
    ensures Calls(s, e, TakePlan(workspace, ForRefund(id), e.subscriptionRef != ""), k)
            == RefundedPrefix(s, e, id, k + 2)
  {
    if k > 0 {
      if workspace in s.workspaces {
        var taken := ChangePlan(s, workspace, "free", ForRefund(id)).value;
        if e.subscriptionRef != "" {
          DropCalls(taken, e, workspace, k - 1);
        } else {
          EndsNext(taken, e, Processed, k - 1);
        }
      } else {
        EndsNext(s, e, Errored, k - 1);
      }
    }
  }

  lemma StatusCalls(s: Store, e: PaymentEvent, id: nat, k: nat)
    requires ResolveId(s, e) == Some(id)
    ensures Calls(s, e, SetRefunded(id), k) == RefundPrefix(s, e, k + 1)
  {
    if k > 0 {
      if s.orders[id].status == Paid {
        var refunded := SetOrder(s, id, s.orders[id].(status := Refunded));
        RefundedCalls(refunded, e, id, s.orders[id].workspace, k - 1);
      } else {
        EndsNext(s, e, Processed, k - 1);
      }
    }
  }

  /** After any number of calls a refund is where its description by numbers says. */
  lemma RefundCallByCall(s: Store, e: PaymentEvent, k: nat)
    ensures Calls(s, e, FindOrder, k) == RefundPrefix(s, e, k)
  {
    if k > 0 {
      if ResolveId(s, e).Some? {
        StatusCalls(s, e, ResolveId(s, e).value, k - 1);
      } else {
        EndsNext(s, e, Processed, k - 1);
      }
    }
  }

  // ---- cancellations ------------------------------------------------------------

  /** And so is a cancellation. */
  lemma CancellationCallByCall(s: Store, e: PaymentEvent, found: Option<string>, k: nat)
    ensures Calls(s, e, FindCarrier(found), k) == CanceledPrefix(s, e, found, k)
  {
    if k > 0 {
      if found.Some? && found.value in s.workspaces {
        CarrierCalls(s, e, found.value, k - 1);
      } else {
        EndsNext(s, e, Processed, k - 1);
      }
    }
  }

  lemma CarrierCalls(s: Store, e: PaymentEvent, w: string, k: nat)
    requires w in s.workspaces
    ensures Calls(s, e, TakePlan(w, OtherReason("subscription"), true), k) == CanceledPrefix(s, e, Some(w), k + 1)
  {
    if k > 0 {
      var taken := ChangePlan(s, w, "free", OtherReason("subscription")).value;
      DropCalls(taken, e, w, k - 1);
      assert taken == Downgraded(s, w);
      assert SetSubscription(taken, w, "", 0).value == Dropped(taken, w);
    }
  }
}
