/** A reservation that nobody interferes with: its statements, run to the end, are the whole operation; and
    what the steps of the others do. */
module QuotaAlone {
  import opened Common
  import opened QuotaTables
  import opened QuotaRuns
  import opened QuotaConcurrency
  import opened QuotaService
  import QuotaOutcomes

  /** The counter the call reserves on in this period. */
  function CounterOf(call: Call, period: string): CounterKey {
    CounterKey(call.workspace, period, call.key)
  }

  /** Nobody else holds a lock the call needs. */
  ghost predicate Undisturbed(s: System, p: nat, period: string) {
    && p in s.procs
    && (forall q :: q in s.procs && q != p && s.procs[q].phase.InTransaction() ==>
          s.procs[q].phase.ck != CounterOf(s.procs[p].call, period))
    && InsertUncontended(s, p)
  }

  /** What the call has read so far still holds. */
  ghost predicate ReadRightly(t: Tables, call: Call, ph: Phase, period: string) {
    var ck := CounterOf(call, period);
    && (!ph.Fresh? ==> call.amount > 0 && call.idem != "" && FindIdem(t.reservations, call.Idem()).None?)
    && (ph.InTransaction() ==> ph.ck == ck && ph.seen == t.CounterAt(ck))
    && (ph.Limited? ==> ph.limit == LimitFor(t.plans, ck.workspace, ck.key))
    && (ph.Admitted? || ph.Charged? || ph.Inserted? ==>
          Fits64(Granted(t.grants, ck))
          && Available(LimitFor(t.plans, ck.workspace, ck.key), Granted(t.grants, ck), ph.seen) >= call.amount)
    && (ph.Charged? || ph.Inserted? ==> Fits64(ph.seen.reserved + call.amount))
  }

  function NextStatement(p: nat, ph: Phase, period: string): Step
    requires !ph.Done?
  {
    match ph
    case Fresh => FirstRead(p)
    case Missed => LockCounter(p, period)
    case Locked(_, _) => Recheck(p)
    case Rechecked(_, _) => ReadLimit(p)
    case Limited(_, _, _) => Decide(p)
    case Admitted(_, _) => Charge(p)
    case Charged(_, _) => Insert(p)
    case Inserted(_, _) => Commit(p)
  }

  function Left(ph: Phase): nat {
    match ph
    case Fresh => 8
    case Missed => 7
    case Locked(_, _) => 6
    case Rechecked(_, _) => 5
    case Limited(_, _, _) => 4
    case Admitted(_, _) => 3
    case Charged(_, _) => 2
    case Inserted(_, _) => 1
    case Done(_) => 0
  }

  /** Where the whole operation would leave the system. */
  ghost function Reserved(s: System, p: nat, period: string): System
    requires p in s.procs
  {
    var call := s.procs[p].call;
    var (t, r) := ReserveSpec(s.tables, CounterOf(call, period), call.amount, call.idem, call.expiresAt);
    System(t, s.procs[p := Proc(call, Done(OutcomeOf(r, call.failOpen)))])
  }

  /** After one statement: the call has ended as the whole operation would end, or reads rightly on. */
  ghost predicate GoesOn(s: System, s': System, p: nat, period: string)
    requires p in s.procs
  {
    p in s'.procs
    && if s'.procs[p].phase.Done? then s' == Reserved(s, p, period)
       else
         && s' == s.At(p, s'.procs[p].phase)
         && Left(s'.procs[p].phase) < Left(s.procs[p].phase)
         && ReadRightly(s.tables, s.procs[p].call, s'.procs[p].phase, period)
  }

  ghost predicate Stands(s: System, p: nat, period: string) {
    && Undisturbed(s, p, period) && !s.procs[p].phase.Done?
    && ReadRightly(s.tables, s.procs[p].call, s.procs[p].phase, period)
  }

  lemma LooksUp(s: System, p: nat, period: string)
    requires Stands(s, p, period) && (s.procs[p].phase.Fresh? || s.procs[p].phase.Missed? || s.procs[p].phase.Locked?)
    ensures CanStep(s, NextStatement(p, s.procs[p].phase, period))
    ensures GoesOn(s, Next(s, NextStatement(p, s.procs[p].phase, period)), p, period)
  {
  }

  lemma ReadsLimit(s: System, p: nat, period: string)
    requires Stands(s, p, period) && s.procs[p].phase.Rechecked?
    ensures GoesOn(s, Next(s, ReadLimit(p)), p, period)
  {
  }

  lemma DecisionIs(t: Tables, call: Call, ck: CounterKey, seen: Counter, limit: int, grants: int, avail: int)
    requires grants == Granted(t.grants, ck) && avail == Available(limit, grants, seen)
    ensures AfterDecision(t, call, ck, seen, limit)
            == if !Fits64(grants) then Done(StorageFailure(call))
               else if avail < call.amount then Done(Failed(Exhausted)) else Admitted(ck, seen)
  {
  }

  /** The decision is the whole operation's, as far as the tables go. */
  lemma DecisionRight(t: Tables, call: Call, ph: Phase, period: string)
    requires ph.Limited? && ReadRightly(t, call, ph, period)
    ensures var ph' := AfterDecision(t, call, ph.ck, ph.seen, ph.limit);
            if ph'.Done? then
              ReserveSpec(t, ph.ck, call.amount, call.idem, call.expiresAt)
              == (t, Err(if Fits64(Granted(t.grants, ph.ck)) then Exhausted else Unavailable))
              && ph'.outcome == OutcomeOf(Err(if Fits64(Granted(t.grants, ph.ck)) then Exhausted else Unavailable),
                                          call.failOpen)
            else ph' == Admitted(ph.ck, ph.seen) && ReadRightly(t, call, ph', period)
  {
    var grants := Granted(t.grants, ph.ck);
    var avail := Available(ph.limit, grants, ph.seen);
    QuotaOutcomes.ReserveExhausted(t, ph.ck, call.amount, call.idem, call.expiresAt, grants, avail);
    DecisionIs(t, call, ph.ck, ph.seen, ph.limit, grants, avail);
  }

  /** A call that leaves the tables alone ends as the whole operation if that answers the same. */
  lemma EndsAs(s: System, p: nat, period: string, r: Result<Hold, Failure>)
    requires p in s.procs
    requires var call := s.procs[p].call;
             ReserveSpec(s.tables, CounterOf(call, period), call.amount, call.idem, call.expiresAt) == (s.tables, r)
    ensures s.At(p, Done(OutcomeOf(r, s.procs[p].call.failOpen))) == Reserved(s, p, period)
  {
  }

  lemma DecidesTo(s: System, p: nat, period: string, decided: Phase)
    requires Stands(s, p, period) && s.procs[p].phase.Limited?
    requires var ph := s.procs[p].phase;
             decided == AfterDecision(s.tables, s.procs[p].call, ph.ck, ph.seen, ph.limit)
    ensures GoesOn(s, s.At(p, decided), p, period)
  {
    var (t, call, ph) := (s.tables, s.procs[p].call, s.procs[p].phase);
    DecisionRight(t, call, ph, period);
    if decided.Done? {
      EndsAs(s, p, period, Err(if Fits64(Granted(t.grants, ph.ck)) then Exhausted else Unavailable));
    }
  }

  lemma NextDecides(s: System, p: nat)
    requires p in s.procs && s.procs[p].phase.Limited?
    ensures var ph := s.procs[p].phase;
            Next(s, Decide(p)) == s.At(p, AfterDecision(s.tables, s.procs[p].call, ph.ck, ph.seen, ph.limit))
  {
  }

  lemma Decides(s: System, p: nat, period: string)
    requires Stands(s, p, period) && s.procs[p].phase.Limited?
    ensures GoesOn(s, Next(s, Decide(p)), p, period)
  {
    var ph := s.procs[p].phase;
    var decided := AfterDecision(s.tables, s.procs[p].call, ph.ck, ph.seen, ph.limit);
    NextDecides(s, p);
    DecidesTo(s, p, period, decided);
  }

  lemma Charges(s: System, p: nat, period: string)
    requires Stands(s, p, period) && s.procs[p].phase.Admitted?
    ensures GoesOn(s, Next(s, Charge(p)), p, period)
  {
    if !Fits64(s.procs[p].phase.seen.reserved + s.procs[p].call.amount) {
      EndsAs(s, p, period, Err(Unavailable));
    }
  }

  lemma Inserts(s: System, p: nat, period: string)
    requires Stands(s, p, period) && s.procs[p].phase.Charged?
    ensures CanStep(s, Insert(p)) && GoesOn(s, Next(s, Insert(p)), p, period)
  {
  }

  lemma Commits(s: System, p: nat, period: string)
    requires Stands(s, p, period) && s.procs[p].phase.Inserted?
    ensures GoesOn(s, Next(s, Commit(p)), p, period)
  {
  }

  lemma StatementRunsOn(s: System, p: nat, period: string)
    requires Stands(s, p, period)
    ensures CanStep(s, NextStatement(p, s.procs[p].phase, period))
    ensures GoesOn(s, Next(s, NextStatement(p, s.procs[p].phase, period)), p, period)
  {
    match s.procs[p].phase
    case Rechecked(_, _) => ReadsLimit(s, p, period);
    case Limited(_, _, _) => Decides(s, p, period);
    case Admitted(_, _) => Charges(s, p, period);
    case Charged(_, _) => Inserts(s, p, period);
    case Inserted(_, _) => Commits(s, p, period);
    case _ => LooksUp(s, p, period);
  }

  lemma StandsOn(s: System, s': System, p: nat, period: string)
    requires Stands(s, p, period) && GoesOn(s, s', p, period) && !s'.procs[p].phase.Done?
    ensures Stands(s', p, period) && Reserved(s', p, period) == Reserved(s, p, period)
    ensures Left(s'.procs[p].phase) < Left(s.procs[p].phase)
  {
  }

  lemma OneMoreStep(s: System, step: Step, rest: seq<Step>)
    requires CanStep(s, step) && Schedule(Next(s, step), rest)
    ensures Schedule(s, [step] + rest) && After(s, [step] + rest) == After(Next(s, step), rest)
  {
    assert ([step] + rest)[1..] == rest;
  }

  /** From any point on: if nobody interferes, the remaining statements come to the whole operation. */
  lemma {:induction false} StatementsRunThrough(s: System, p: nat, period: string) returns (steps: seq<Step>)
    requires Stands(s, p, period)
    ensures Schedule(s, steps) && After(s, steps) == Reserved(s, p, period)
    decreases Left(s.procs[p].phase)
  {
    StatementRunsOn(s, p, period);
    var step := NextStatement(p, s.procs[p].phase, period);
    var s' := Next(s, step);
    if s'.procs[p].phase.Done? {
      OneMoreStep(s, step, []);
      steps := [step] + [];
    } else {
      StandsOn(s, s', p, period);
      var rest := StatementsRunThrough(s', p, period);
      OneMoreStep(s, step, rest);
      steps := [step] + rest;
    }
  }

  /** A call that arrives while its locks are free can run to its end, and then tables and answer are
      those of the whole operation: a replay, a refusal, or one charged counter and one new row. */
  lemma UndisturbedCallIsReserve(s: System, p: nat, call: Call, period: string) returns (steps: seq<Step>)
    requires p !in s.procs && s.Unlocked(CounterOf(call, period))
    requires forall q :: q in s.procs && s.procs[q].phase.Inserted? ==> s.procs[q].call.Idem() != call.Idem()
    ensures Schedule(s, steps)
    ensures var (t, r) := ReserveSpec(s.tables, CounterOf(call, period), call.amount, call.idem, call.expiresAt);
            After(s, steps) == System(t, s.procs[p := Proc(call, Done(OutcomeOf(r, call.failOpen)))])
  {
    var arrived := Next(s, Arrive(p, call));
    var rest := StatementsRunThrough(arrived, p, period);
    OneMoreStep(s, Arrive(p, call), rest);
    steps := [Arrive(p, call)] + rest;
  }

  /** What the caller is told: storage trouble becomes a degraded admission exactly if it asked for that. */
  lemma OutcomeMeaning(r: Result<Hold, Failure>, failOpen: bool)
    ensures OutcomeOf(r, failOpen).Degraded? <==> r == Err(Unavailable) && failOpen
    ensures OutcomeOf(r, failOpen).Failed? <==> r.Err? && !(r.error == Unavailable && failOpen)
    ensures forall e: Failure :: OutcomeOf(r, failOpen) == Outcome.Failed(e) ==> r == Err(e)
    ensures forall id: nat :: OutcomeOf(r, failOpen) == Placed(id) <==> r == Ok(Hold(id, false))
    ensures forall id: nat :: OutcomeOf(r, failOpen) == Replayed(id) <==> r == Ok(Hold(id, true))
  {
  }

  /** What the others do meanwhile: whole operations and plan edits reach the tables and no call; a call
      arrives with nothing read; one that loses the store ends as its caller asked, and charges nothing. */
  lemma OtherSteps(s: System, step: Step)
    requires CanStep(s, step) && (step.Arrive? || step.Other? || step.EditPlans? || step.StorageError?)
    ensures var s' := Next(s, step);
            match step
            case Arrive(p, call) => s'.tables == s.tables && s'.procs == s.procs[p := Proc(call, Fresh)]
            case Other(op) => s'.tables == Apply(s.tables, op) && s'.procs == s.procs
            case EditPlans(plans) =>
              && s'.procs == s.procs && s'.tables.plans == plans
              && s'.tables.counters == s.tables.counters && s'.tables.reservations == s.tables.reservations
              && s'.tables.grants == s.tables.grants && s'.tables.consumed == s.tables.consumed
            case StorageError(p) =>
              && s'.tables == s.tables
              && s'.procs == s.procs[p := Proc(s.procs[p].call,
                                               Done(OutcomeOf(Err(Unavailable), s.procs[p].call.failOpen)))]
            case _ => false
  {
  }
}
