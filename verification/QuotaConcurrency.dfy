/** Reserve as the statements it really runs, interleaved with any number of other calls. */
module QuotaConcurrency {
  // A call reads once outside a transaction, then locks its counter row (the upsert that
  // returns used and reserved), re-reads the idempotency key, reads the plan limit, reads the
  // grants and decides, updates the counter, inserts the row under the unique key and commits.
  // Its writes are private until the commit; a rollback discards them. The locks are derived
  // from the phases: a call in a transaction holds its counter row, and a call past its insert
  // holds its unique-key entry. All other operations are single steps that wait for the rows
  // they write.

  import opened Common
  import opened QuotaTables
  import opened QuotaLedger
  import opened QuotaRuns

  datatype Call = Call(workspace: string, key: string, amount: int, idem: string, expiresAt: int, failOpen: bool)
  {
    function Idem(): IdemKey {
      IdemKey(workspace, key, idem)
    }
  }

  datatype Outcome = Placed(id: nat) | Replayed(id: nat) | Degraded | Failed(failure: Failure)

  datatype Phase =
    | Fresh
    | Missed
    | Locked(ck: CounterKey, seen: Counter)
    | Rechecked(ck: CounterKey, seen: Counter)
    | Limited(ck: CounterKey, seen: Counter, limit: int)
    | Admitted(ck: CounterKey, seen: Counter)
    | Charged(ck: CounterKey, seen: Counter)
    | Inserted(ck: CounterKey, seen: Counter)
    | Done(outcome: Outcome)
  {
    predicate InTransaction() {
      !Fresh? && !Missed? && !Done?
    }
  }

  datatype Proc = Proc(call: Call, phase: Phase)

  datatype System = System(tables: Tables, procs: map<nat, Proc>)
  {
    ghost predicate Unlocked(ck: CounterKey) {
      forall p :: p in procs && procs[p].phase.InTransaction() ==> procs[p].phase.ck != ck
    }

    function At(p: nat, phase: Phase): System
      requires p in procs
    {
      this.(procs := procs[p := procs[p].(phase := phase)])
    }
  }

  // ---- the statements of one call ----------------------------------------

  /** Storage failures surface as a degraded admission or as unavailable, as the caller chose. */
  function StorageFailure(call: Call): Outcome {
    if call.failOpen then Degraded else Failed(Unavailable)
  }

  function AfterFirstRead(t: Tables, call: Call): Phase {
    if call.amount <= 0 || call.idem == "" then Done(Failed(Invalid))
    else
      match FindIdem(t.reservations, call.Idem())
      case Some(id) => Done(Replayed(id))
      case None => Missed
  }

  function AfterRecheck(t: Tables, call: Call, ck: CounterKey, seen: Counter): Phase {
    match FindIdem(t.reservations, call.Idem())
    case Some(id) => Done(Replayed(id))
    case None => Rechecked(ck, seen)
  }

  function AfterDecision(t: Tables, call: Call, ck: CounterKey, seen: Counter, limit: int): Phase {
    var grants := Granted(t.grants, ck);
    if !Fits64(grants) then Done(StorageFailure(call))
    else if Available(limit, grants, seen) < call.amount then Done(Failed(Exhausted))
    else Admitted(ck, seen)
  }

  function AfterCharge(call: Call, ck: CounterKey, seen: Counter): Phase {
    if Fits64(seen.reserved + call.amount) then Charged(ck, seen) else Done(StorageFailure(call))
  }

  function AfterInsert(t: Tables, call: Call, ck: CounterKey, seen: Counter): Phase {
    match FindIdem(t.reservations, call.Idem())
    case Some(id) => Done(Replayed(id))
    case None => Inserted(ck, seen)
  }

  function Committed(t: Tables, call: Call, ck: CounterKey, seen: Counter): Tables {
    t.(counters := t.counters[ck := seen.(reserved := seen.reserved + call.amount)],
       reservations := t.reservations + [NewReservation(ck, call.amount, call.idem, call.expiresAt)])
  }

  datatype Step =
    | Arrive(p: nat, call: Call)
    | FirstRead(p: nat)
    | LockCounter(p: nat, period: string)
    | Recheck(p: nat)
    | ReadLimit(p: nat)
    | Decide(p: nat)
    | Charge(p: nat)
    | Insert(p: nat)
    | Commit(p: nat)
    | StorageError(p: nat)
    | Other(op: Op)
    | EditPlans(plans: map<string, Plan>)

  /** The insert waits for an uncommitted row with the same unique key. */
  ghost predicate InsertUncontended(s: System, p: nat)
    requires p in s.procs
  {
    forall q :: q in s.procs && q != p && s.procs[q].phase.Inserted? ==>
                  s.procs[q].call.Idem() != s.procs[p].call.Idem()
  }

  ghost predicate CanStep(s: System, step: Step) {
    match step
    case Arrive(p, call) => p !in s.procs
    case FirstRead(p) => p in s.procs && s.procs[p].phase.Fresh?
    case LockCounter(p, period) =>
      p in s.procs && s.procs[p].phase.Missed?
      && s.Unlocked(CounterKey(s.procs[p].call.workspace, period, s.procs[p].call.key))
    case Recheck(p) => p in s.procs && s.procs[p].phase.Locked?
    case ReadLimit(p) => p in s.procs && s.procs[p].phase.Rechecked?
    case Decide(p) => p in s.procs && s.procs[p].phase.Limited?
    case Charge(p) => p in s.procs && s.procs[p].phase.Admitted?
    case Insert(p) => p in s.procs && s.procs[p].phase.Charged? && InsertUncontended(s, p)
    case Commit(p) => p in s.procs && s.procs[p].phase.Inserted?
    case StorageError(p) => p in s.procs && !s.procs[p].phase.Done?
    case Other(op) =>
      !op.Reserve? && Enabled(s.tables, op) && forall ck :: ck in Touches(s.tables, op) ==> s.Unlocked(ck)
    case EditPlans(_) => true
  }

  /** The steps of one call up to its insert: they change nothing but that call's own phase. */
  predicate Local(step: Step) {
    !step.Arrive? && !step.Commit? && !step.Other? && !step.EditPlans?
  }

  ghost function NextPhase(s: System, step: Step): Phase
    requires CanStep(s, step) && Local(step)
  {
    var (t, call, ph) := (s.tables, s.procs[step.p].call, s.procs[step.p].phase);
    match step
    case FirstRead(_) => AfterFirstRead(t, call)
    case LockCounter(_, period) =>
      var ck := CounterKey(call.workspace, period, call.key);
      Locked(ck, t.CounterAt(ck))
    case Recheck(_) => AfterRecheck(t, call, ph.ck, ph.seen)
    case ReadLimit(_) => Limited(ph.ck, ph.seen, LimitFor(t.plans, ph.ck.workspace, ph.ck.key))
    case Decide(_) => AfterDecision(t, call, ph.ck, ph.seen, ph.limit)
    case Charge(_) => AfterCharge(call, ph.ck, ph.seen)
    case Insert(_) => AfterInsert(t, call, ph.ck, ph.seen)
    case StorageError(_) => Done(StorageFailure(call))
  }

  ghost function Next(s: System, step: Step): System
    requires CanStep(s, step)
  {
    match step
    case Arrive(p, call) => s.(procs := s.procs[p := Proc(call, Fresh)])
    case Commit(p) =>
      var ph := s.procs[p].phase;
      s.At(p, Done(Placed(|s.tables.reservations|))).(tables := Committed(s.tables, s.procs[p].call, ph.ck, ph.seen))
    case Other(op) => s.(tables := Apply(s.tables, op))
    case EditPlans(plans) => s.(tables := s.tables.(plans := plans))
    case _ => s.At(step.p, NextPhase(s, step))
  }

  // ---- the invariant -----------------------------------------------------

  ghost predicate ProcOk(t: Tables, proc: Proc) {
    var ph := proc.phase;
    && (!ph.Fresh? && !ph.Done? ==> proc.call.amount > 0 && proc.call.idem != "")
    && (ph.InTransaction() ==>
          && ph.ck.workspace == proc.call.workspace && ph.ck.key == proc.call.key
          && t.CounterAt(ph.ck) == ph.seen)
    && (ph.Charged? || ph.Inserted? ==> Fits64(ph.seen.reserved + proc.call.amount))
    && (ph.Inserted? ==> FindIdem(t.reservations, proc.call.Idem()).None?)
    && (ph.Done? && ph.outcome.Placed? ==>
          ph.outcome.id < |t.reservations| && t.reservations[ph.outcome.id].Idem() == proc.call.Idem()
          && t.reservations[ph.outcome.id].amount == proc.call.amount)
    && (ph.Done? && ph.outcome.Replayed? ==>
          ph.outcome.id < |t.reservations| && t.reservations[ph.outcome.id].Idem() == proc.call.Idem())
  }

  /** No two calls hold the same lock, and no two calls were given the same new reservation. */
  ghost predicate Exclusive(a: Proc, b: Proc) {
    && (a.phase.InTransaction() && b.phase.InTransaction() ==> a.phase.ck != b.phase.ck)
    && (a.phase.Inserted? && b.phase.Inserted? ==> a.call.Idem() != b.call.Idem())
    && (a.phase.Done? && b.phase.Done? && a.phase.outcome.Placed? && b.phase.outcome.Placed? ==>
          a.phase.outcome.id != b.phase.outcome.id)
  }

  ghost predicate SystemInv(s: System) {
    && LedgerInv(s.tables)
    && (forall p :: p in s.procs ==> ProcOk(s.tables, s.procs[p]))
    && (forall p, q :: p in s.procs && q in s.procs && p != q ==> Exclusive(s.procs[p], s.procs[q]))
  }

  lemma StepKeepsInv(s: System, step: Step)
    requires SystemInv(s) && CanStep(s, step)
    ensures SystemInv(Next(s, step))
  {
    match step
    case Commit(p) => CommitKeepsInv(s, p);
    case Other(op) => OtherKeepsInv(s, op);
    case EditPlans(plans) => EditPlansKeepsInv(s, plans);
    case Arrive(p, call) => ArriveKeepsInv(s, p, call);
    case _ => LocalStepKeepsInv(s, step);
  }

  lemma ArriveKeepsInv(s: System, p: nat, call: Call)
    requires SystemInv(s) && CanStep(s, Arrive(p, call))
    ensures SystemInv(Next(s, Arrive(p, call)))
  {
  }

  lemma LocalStepKeepsInv(s: System, step: Step)
    requires SystemInv(s) && CanStep(s, step) && Local(step)
    ensures SystemInv(Next(s, step))
  {
    var ph := NextPhase(s, step);
    LocalStepKeepsProc(s, step);
    forall q | q in s.procs && q != step.p ensures Apart(s, step.p, ph, q) {
      LocalStepKeepsExclusion(s, step, q);
    }
    OnePhaseChanges(s, step.p, ph);
  }

  /** Call p in its new phase and call q. */
  ghost predicate Apart(s: System, p: nat, ph: Phase, q: nat)
    requires p in s.procs && q in s.procs
  {
    Exclusive(s.procs[p].(phase := ph), s.procs[q]) && Exclusive(s.procs[q], s.procs[p].(phase := ph))
  }

  lemma OnePhaseChanges(s: System, p: nat, ph: Phase)
    requires SystemInv(s) && p in s.procs && ProcOk(s.tables, s.procs[p].(phase := ph))
    requires forall q :: q in s.procs && q != p ==> Apart(s, p, ph, q)
    ensures SystemInv(s.At(p, ph))
  {
    var s' := s.At(p, ph);
    forall a, b | a in s'.procs && b in s'.procs && a != b ensures Exclusive(s'.procs[a], s'.procs[b]) {
      assert a == p ==> Apart(s, p, ph, b);
      assert b == p ==> Apart(s, p, ph, a);
    }
  }

  lemma LocalStepKeepsProc(s: System, step: Step)
    requires SystemInv(s) && CanStep(s, step) && Local(step)
    ensures ProcOk(s.tables, s.procs[step.p].(phase := NextPhase(s, step)))
  {
    assert ProcOk(s.tables, s.procs[step.p]);
  }

  lemma LocalStepKeepsExclusion(s: System, step: Step, q: nat)
    requires SystemInv(s) && CanStep(s, step) && Local(step)
    requires q in s.procs && q != step.p
    ensures Apart(s, step.p, NextPhase(s, step), q)
  {
    assert Exclusive(s.procs[step.p], s.procs[q]) && Exclusive(s.procs[q], s.procs[step.p]);
    PhasesAhead(s, step);
  }

  /** A call takes only the lock it asked for, claims only the key the insert waited for, and is
      never given a new reservation before its commit. */
  lemma PhasesAhead(s: System, step: Step)
    requires CanStep(s, step) && Local(step)
    ensures var (ph, ph') := (s.procs[step.p].phase, NextPhase(s, step));
            && (ph'.InTransaction() ==>
                  (ph.InTransaction() && ph'.ck == ph.ck) || (step.LockCounter? && s.Unlocked(ph'.ck)))
            && (ph'.Inserted? ==> step.Insert?)
            && (ph'.Done? ==> !ph'.outcome.Placed?)
  {
  }

  lemma CommitKeepsInv(s: System, p: nat)
    requires SystemInv(s) && CanStep(s, Commit(p))
    ensures SystemInv(Next(s, Commit(p)))
  {
    var s' := Next(s, Commit(p));
    CommitKeepsTables(s, p);
    forall q | q in s.procs && q != p
      ensures ProcOk(s'.tables, s'.procs[q])
      ensures Exclusive(s'.procs[p], s'.procs[q]) && Exclusive(s'.procs[q], s'.procs[p])
    {
      CommitKeepsProc(s, p, q);
    }
  }

  lemma CommitKeepsTables(s: System, p: nat)
    requires SystemInv(s) && CanStep(s, Commit(p))
    ensures LedgerInv(Next(s, Commit(p)).tables)
    ensures ProcOk(Next(s, Commit(p)).tables, Next(s, Commit(p)).procs[p])
  {
    var (call, ph) := (s.procs[p].call, s.procs[p].phase);
    assert ProcOk(s.tables, s.procs[p]);
    var row := NewReservation(ph.ck, call.amount, call.idem, call.expiresAt);
    ChargeKeepsLedger(s.tables, ph.ck, call.amount, row, Next(s, Commit(p)).tables);
  }

  lemma NewRowIsFound(rs: seq<Reservation>, r: Reservation, k: IdemKey)
    ensures r.Idem() != k ==> FindIdem(rs + [r], k) == FindIdem(rs, k)
  {
    assert (rs + [r])[..|rs|] == rs;
  }

  lemma CommitKeepsProc(s: System, p: nat, q: nat)
    requires SystemInv(s) && CanStep(s, Commit(p)) && q in s.procs && q != p
    ensures var s' := Next(s, Commit(p));
            && ProcOk(s'.tables, s'.procs[q])
            && Exclusive(s'.procs[p], s'.procs[q]) && Exclusive(s'.procs[q], s'.procs[p])
  {
    var (call, ph) := (s.procs[p].call, s.procs[p].phase);
    assert ProcOk(s.tables, s.procs[q]);
    assert Exclusive(s.procs[p], s.procs[q]) && Exclusive(s.procs[q], s.procs[p]);
    NewRowIsFound(s.tables.reservations, NewReservation(ph.ck, call.amount, call.idem, call.expiresAt),
                  s.procs[q].call.Idem());
  }

  lemma OtherKeepsInv(s: System, op: Op)
    requires SystemInv(s) && CanStep(s, Other(op))
    ensures SystemInv(Next(s, Other(op)))
  {
    var t' := Apply(s.tables, op);
    ApplyKeepsLedger(s.tables, op);
    forall p | p in s.procs
      ensures ProcOk(t', s.procs[p])
    {
      assert ProcOk(s.tables, s.procs[p]);
      var ph := s.procs[p].phase;
      ApplyFrame(s.tables, op, if ph.InTransaction() then ph.ck else CounterKey("", "", ""));
      assert ph.InTransaction() ==> !s.Unlocked(ph.ck);
    }
  }

  lemma EditPlansKeepsInv(s: System, plans: map<string, Plan>)
    requires SystemInv(s)
    ensures SystemInv(s.(tables := s.tables.(plans := plans)))
  {
    var t' := s.tables.(plans := plans);
    EditKeepsLedger(s.tables, plans);
    forall p | p in s.procs ensures ProcOk(t', s.procs[p]) {
      assert ProcOk(s.tables, s.procs[p]);
    }
  }

  // ---- whole interleavings -----------------------------------------------

  ghost predicate Schedule(s: System, steps: seq<Step>)
    decreases |steps|
  {
    steps == [] || (CanStep(s, steps[0]) && Schedule(Next(s, steps[0]), steps[1..]))
  }

  ghost function After(s: System, steps: seq<Step>): System
    requires Schedule(s, steps)
    decreases |steps|
  {
    if steps == [] then s else After(Next(s, steps[0]), steps[1..])
  }

  const EMPTY: Tables := Tables(map[], [], [], {}, map[])

  /** In every state any interleaving reaches, each counter's reserved column is what its open
      reservations hold, and no clamp would bite. */
  lemma {:induction false} LedgerHoldsThroughout(s: System, steps: seq<Step>)
    requires SystemInv(s) && Schedule(s, steps)
    ensures SystemInv(After(s, steps))
    decreases |steps|
  {
    if steps != [] {
      StepKeepsInv(s, steps[0]);
      LedgerHoldsThroughout(Next(s, steps[0]), steps[1..]);
    }
  }

  lemma EmptySystemOk()
    ensures SystemInv(System(EMPTY, map[]))
  {
    assert forall ck :: CounterMatches(EMPTY, ck);
  }

  /** Whatever the schedule, starting from empty tables: of the calls sharing one
      (workspace, key, idempotency key) at most one was granted a new reservation, and every
      other one that succeeded was answered with the id of that same row. */
  lemma AtMostOneReservationPerKey(steps: seq<Step>, p: nat, q: nat)
    requires Schedule(System(EMPTY, map[]), steps)
    ensures var s := After(System(EMPTY, map[]), steps);
            && LedgerInv(s.tables)
            && (p in s.procs && q in s.procs && p != q
                && s.procs[p].phase.Done? && s.procs[q].phase.Done?
                && s.procs[p].call.Idem() == s.procs[q].call.Idem() ==>
                  var (a, b) := (s.procs[p].phase.outcome, s.procs[q].phase.outcome);
                  && !(a.Placed? && b.Placed?)
                  && ((a.Placed? || a.Replayed?) && (b.Placed? || b.Replayed?) ==> a.id == b.id))
  {
    EmptySystemOk();
    LedgerHoldsThroughout(System(EMPTY, map[]), steps);
    var s := After(System(EMPTY, map[]), steps);
    if p in s.procs && q in s.procs && p != q {
      assert ProcOk(s.tables, s.procs[p]) && ProcOk(s.tables, s.procs[q]);
      assert Exclusive(s.procs[p], s.procs[q]);
    }
  }

  /** A reservation's key, counter and amount never change once it is committed, so the id a
      call was answered with keeps naming the same hold. */
  lemma {:induction false} RowsKeepTheirIdentity(s: System, steps: seq<Step>, id: nat)
    requires Schedule(s, steps) && id < |s.tables.reservations|
    ensures var (r, rs') := (s.tables.reservations[id], After(s, steps).tables.reservations);
            && id < |rs'|
            && rs'[id].Idem() == r.Idem() && rs'[id].CounterOf() == r.CounterOf() && rs'[id].amount == r.amount
    decreases |steps|
  {
    if steps != [] {
      var s' := Next(s, steps[0]);
      if steps[0].Other? {
        ApplyFrame(s.tables, steps[0].op, CounterKey("", "", ""));
      }
      RowsKeepTheirIdentity(s', steps[1..], id);
    }
  }

  /** Only a commit charges, it charges one counter by the call's own amount, and it does so
      exactly when it adds the row the caller is given; every other step of a call leaves the
      committed tables alone. */
  lemma ChargedExactlyOnCommit(s: System, step: Step)
    requires SystemInv(s) && CanStep(s, step) && !step.Other? && !step.EditPlans?
    ensures var t, t' := s.tables, Next(s, step).tables;
            if step.Commit? then
              var (call, ck) := (s.procs[step.p].call, s.procs[step.p].phase.ck);
              && (forall k :: t'.CounterAt(k)
                    == if k == ck then Counter(t.CounterAt(k).used, t.CounterAt(k).reserved + call.amount)
                       else t.CounterAt(k))
              && t'.reservations == t.reservations + [NewReservation(ck, call.amount, call.idem, call.expiresAt)]
              && Next(s, step).procs[step.p].phase == Done(Placed(|t.reservations|))
            else t' == t
  {
    if step.Commit? {
      assert ProcOk(s.tables, s.procs[step.p]);
    }
  }

  // ---- the capacity bound under interleaving -----------------------------

  /** A call past its decision still fits next to everything committed to its locked counter. */
  ghost predicate RoomKept(t: Tables, proc: Proc, ck: CounterKey, limit: int) {
    && (proc.phase.Limited? && proc.phase.ck == ck ==> proc.phase.limit == limit)
    && ((proc.phase.Admitted? || proc.phase.Charged? || proc.phase.Inserted?) && proc.phase.ck == ck ==>
          proc.phase.seen.used + proc.phase.seen.reserved + proc.call.amount <= Capacity(t, ck))
  }

  ghost predicate SystemBounded(s: System, ck: CounterKey, limit: int) {
    Bounded(s.tables, ck, limit) && forall p :: p in s.procs ==> RoomKept(s.tables, s.procs[p], ck, limit)
  }

  ghost predicate StepDisciplined(s: System, step: Step, ck: CounterKey, limit: int) {
    match step
    case Other(op) => Disciplined(s.tables, op, ck)
    case EditPlans(plans) => LimitFor(plans, ck.workspace, ck.key) == limit && !IsSoft(plans, ck.workspace)
    case _ => true
  }

  lemma StepKeepsBound(s: System, step: Step, ck: CounterKey, limit: int)
    requires SystemInv(s) && SystemBounded(s, ck, limit) && CanStep(s, step) && StepDisciplined(s, step, ck, limit)
    ensures SystemBounded(Next(s, step), ck, limit)
  {
    match step
    case Other(op) => OtherKeepsRoom(s, op, ck, limit);
    case EditPlans(plans) => EditKeepsRoom(s, plans, ck, limit);
    case Commit(p) => CommitKeepsRoom(s, p, ck, limit);
    case Arrive(p, call) => ArriveKeepsRoom(s, p, call, ck, limit);
    case _ => LocalKeepsRoom(s, step, ck, limit);
  }

  lemma OtherKeepsRoom(s: System, op: Op, ck: CounterKey, limit: int)
    requires SystemInv(s) && SystemBounded(s, ck, limit) && CanStep(s, Other(op)) && Disciplined(s.tables, op, ck)
    ensures SystemBounded(Next(s, Other(op)), ck, limit)
  {
    ApplyKeepsBound(s.tables, op, ck, limit);
    GrantsGrow(s.tables, op, ck);
    forall p | p in s.procs ensures RoomKept(Apply(s.tables, op), s.procs[p], ck, limit) {
      assert RoomKept(s.tables, s.procs[p], ck, limit);
    }
  }

  lemma EditKeepsRoom(s: System, plans: map<string, Plan>, ck: CounterKey, limit: int)
    requires SystemBounded(s, ck, limit) && StepDisciplined(s, EditPlans(plans), ck, limit)
    ensures SystemBounded(Next(s, EditPlans(plans)), ck, limit)
  {
    forall p | p in s.procs ensures RoomKept(s.tables.(plans := plans), s.procs[p], ck, limit) {
      assert RoomKept(s.tables, s.procs[p], ck, limit);
    }
  }

  lemma CommitKeepsRoom(s: System, p: nat, ck: CounterKey, limit: int)
    requires SystemInv(s) && SystemBounded(s, ck, limit) && CanStep(s, Commit(p))
    ensures SystemBounded(Next(s, Commit(p)), ck, limit)
  {
    var s' := Next(s, Commit(p));
    assert ProcOk(s.tables, s.procs[p]) && RoomKept(s.tables, s.procs[p], ck, limit);
    forall q | q in s.procs ensures RoomKept(s'.tables, s'.procs[q], ck, limit) {
      assert RoomKept(s.tables, s.procs[q], ck, limit);
    }
  }

  lemma ArriveKeepsRoom(s: System, p: nat, call: Call, ck: CounterKey, limit: int)
    requires SystemBounded(s, ck, limit) && CanStep(s, Arrive(p, call))
    ensures SystemBounded(Next(s, Arrive(p, call)), ck, limit)
  {
    var s' := Next(s, Arrive(p, call));
    forall q | q in s'.procs ensures RoomKept(s'.tables, s'.procs[q], ck, limit) {
      assert q != p ==> RoomKept(s.tables, s.procs[q], ck, limit);
    }
  }

  lemma LocalKeepsRoom(s: System, step: Step, ck: CounterKey, limit: int)
    requires SystemInv(s) && SystemBounded(s, ck, limit) && CanStep(s, step) && Local(step)
    ensures SystemBounded(Next(s, step), ck, limit)
  {
    var s' := Next(s, step);
    OwnRoomKept(s, step, ck, limit);
    forall q | q in s.procs ensures RoomKept(s'.tables, s'.procs[q], ck, limit) {
      assert RoomKept(s.tables, s.procs[q], ck, limit);
    }
  }

  lemma OwnRoomKept(s: System, step: Step, ck: CounterKey, limit: int)
    requires SystemInv(s) && SystemBounded(s, ck, limit) && CanStep(s, step) && Local(step)
    ensures RoomKept(s.tables, s.procs[step.p].(phase := NextPhase(s, step)), ck, limit)
  {
    var proc := s.procs[step.p];
    assert ProcOk(s.tables, proc) && RoomKept(s.tables, proc, ck, limit);
    if step.Decide? {
      DecisionKeepsRoom(s.tables, proc, ck, limit);
    } else {
      OtherPhasesKeepRoom(s, step, ck, limit);
    }
  }

  lemma OtherPhasesKeepRoom(s: System, step: Step, ck: CounterKey, limit: int)
    requires CanStep(s, step) && Local(step) && !step.Decide?
    requires RoomKept(s.tables, s.procs[step.p], ck, limit) && LimitFor(s.tables.plans, ck.workspace, ck.key) == limit
    ensures RoomKept(s.tables, s.procs[step.p].(phase := NextPhase(s, step)), ck, limit)
  {
  }

  lemma DecisionKeepsRoom(t: Tables, proc: Proc, ck: CounterKey, limit: int)
    requires LedgerInv(t) && Bounded(t, ck, limit) && proc.phase.Limited? && ProcOk(t, proc)
             && RoomKept(t, proc, ck, limit)
    ensures RoomKept(t, proc.(phase := AfterDecision(t, proc.call, proc.phase.ck, proc.phase.seen, proc.phase.limit)),
                     ck, limit)
  {
    if proc.phase.ck == ck {
      DecisionFits(t, proc.call, ck, limit);
    }
  }

  lemma DecisionFits(t: Tables, call: Call, ck: CounterKey, limit: int)
    requires LedgerInv(t) && Bounded(t, ck, limit) && 0 < call.amount
    ensures AfterDecision(t, call, ck, t.CounterAt(ck), limit).Admitted? ==> call.amount <= Slack(t, ck)
  {
    if Fits64(Granted(t.grants, ck)) {
      AdmittedFits(t, ck, call.amount, limit);
    }
  }

  lemma GrantsGrow(t: Tables, op: Op, ck: CounterKey)
    requires Disciplined(t, op, ck)
    ensures Granted(Apply(t, op).grants, ck) >= Granted(t.grants, ck)
  {
    if op.AddGrant? {
      GrantAdds(t.grants, op.grant, ck);
    }
  }

  ghost predicate ScheduleDisciplined(s: System, steps: seq<Step>, ck: CounterKey, limit: int)
    requires Schedule(s, steps)
    decreases |steps|
  {
    steps == [] || (StepDisciplined(s, steps[0], ck, limit)
                    && ScheduleDisciplined(Next(s, steps[0]), steps[1..], ck, limit))
  }

  /** Under every interleaving, with a fixed hard limit and disciplined callers, a counter never
      exceeds limit + grants. */
  lemma {:induction false} BoundHoldsThroughout(s: System, steps: seq<Step>, ck: CounterKey, limit: int)
    requires SystemInv(s) && SystemBounded(s, ck, limit)
    requires Schedule(s, steps) && ScheduleDisciplined(s, steps, ck, limit)
    ensures SystemBounded(After(s, steps), ck, limit)
    decreases |steps|
  {
    if steps != [] {
      StepKeepsInv(s, steps[0]);
      StepKeepsBound(s, steps[0], ck, limit);
      BoundHoldsThroughout(Next(s, steps[0]), steps[1..], ck, limit);
    }
  }

  // ---- the commit is the atomic operation --------------------------------

  /** The whole operation on an unused key charges and inserts exactly when it finds the capacity. */
  lemma ReserveChargesIff(t: Tables, call: Call, ck: CounterKey)
    requires call.amount > 0 && call.idem != "" && ck.workspace == call.workspace && ck.key == call.key
    requires FindIdem(t.reservations, call.Idem()).None? && Fits64(t.CounterAt(ck).reserved + call.amount)
    ensures ReserveSpec(t, ck, call.amount, call.idem, call.expiresAt)
            == (Committed(t, call, ck, t.CounterAt(ck)), Ok(Hold(|t.reservations|, false)))
            <==> && Fits64(Granted(t.grants, ck))
                 && Available(LimitFor(t.plans, ck.workspace, ck.key), Granted(t.grants, ck), t.CounterAt(ck))
                    >= call.amount
  {
  }

  /** At its commit a call does to the tables what the whole operation, asked to reserve there and
      then, would do, exactly when that operation would find the capacity. */
  lemma CommitIsAtomicReserveIff(s: System, p: nat)
    requires SystemInv(s) && CanStep(s, Commit(p))
    ensures var (t, call, ck) := (s.tables, s.procs[p].call, s.procs[p].phase.ck);
            ReserveSpec(t, ck, call.amount, call.idem, call.expiresAt)
            == (Next(s, Commit(p)).tables, Ok(Hold(|t.reservations|, false)))
            <==> && Fits64(Granted(t.grants, ck))
                 && Available(LimitFor(t.plans, ck.workspace, ck.key), Granted(t.grants, ck), t.CounterAt(ck))
                    >= call.amount
  {
    assert ProcOk(s.tables, s.procs[p]);
    ReserveChargesIff(s.tables, s.procs[p].call, s.procs[p].phase.ck);
  }

  /** And it would, whenever the counter's bound is kept and the capacity stays below 2^63. */
  lemma CommitIsAtomicReserve(s: System, p: nat, limit: int)
    requires SystemInv(s) && CanStep(s, Commit(p)) && SystemBounded(s, s.procs[p].phase.ck, limit)
    requires Capacity(s.tables, s.procs[p].phase.ck) <= INT64_MAX
    ensures var (call, ck) := (s.procs[p].call, s.procs[p].phase.ck);
            ReserveSpec(s.tables, ck, call.amount, call.idem, call.expiresAt)
            == (Next(s, Commit(p)).tables, Ok(Hold(|s.tables.reservations|, false)))
  {
    var (t, call, ck) := (s.tables, s.procs[p].call, s.procs[p].phase.ck);
    CommitIsAtomicReserveIff(s, p);
    assert ProcOk(t, s.procs[p]) && RoomKept(t, s.procs[p], ck, limit);
    RoomIsAvailable(t, ck, call.amount, limit);
  }

  lemma RoomIsAvailable(t: Tables, ck: CounterKey, amount: int, limit: int)
    requires LedgerInv(t) && Bounded(t, ck, limit) && 0 < amount <= Slack(t, ck) && Capacity(t, ck) <= INT64_MAX
    ensures Fits64(Granted(t.grants, ck)) && Available(limit, Granted(t.grants, ck), t.CounterAt(ck)) >= amount
  {
    assert CounterMatches(t, ck);
    HeldNonNegative(t.reservations, ck);
    GrantedNonNegative(t.grants, ck);
    AvailabilityNeverOverAdmits(limit, Granted(t.grants, ck), t.CounterAt(ck), amount);
  }

  // ---- where the availability test goes wrong ---------------------------------

  /** A hold of 2^62 under an unlimited plan, as the first reservation there is. */
  lemma UnlimitedHold(t: Tables, ck: CounterKey)
    requires LimitFor(t.plans, ck.workspace, ck.key) == UNLIMITED
    requires t.counters == map[] && t.reservations == [] && t.grants == []
    ensures var t' := Apply(t, QuotaRuns.Reserve(ck, UNLIMITED, "hold", 0));
            && t'.CounterAt(ck) == Counter(0, UNLIMITED) && t'.grants == []
            && t'.reservations == [NewReservation(ck, UNLIMITED, "hold", 0)]
  {
    AvailableIsWrapped(UNLIMITED, 0, Counter(0, 0));
    FirstHold(t, ck, UNLIMITED, UNLIMITED, "hold");
  }

  lemma FirstHold(t: Tables, ck: CounterKey, amount: int, limit: int, idem: string)
    requires 0 < amount <= INT64_MAX && idem != "" && LimitFor(t.plans, ck.workspace, ck.key) == limit
    requires t.CounterAt(ck) == Counter(0, 0) && Granted(t.grants, ck) == 0 && t.reservations == []
    requires FindIdem(t.reservations, IdemKey(ck.workspace, ck.key, idem)).None?
    requires Available(limit, 0, Counter(0, 0)) >= amount
    ensures var t' := ReserveSpec(t, ck, amount, idem, 0).0;
            && t'.CounterAt(ck) == Counter(0, amount) && t'.grants == t.grants
            && t'.reservations == [NewReservation(ck, amount, idem, 0)]
  {
  }

  lemma WrapAdmits(t: Tables, ck: CounterKey, row: Reservation)
    requires LimitFor(t.plans, ck.workspace, ck.key) == 0 && t.grants == []
             && t.CounterAt(ck) == Counter(INT64_MAX, UNLIMITED)
    requires t.reservations == [row] && row.idemKey != "more"
    ensures Capacity(t, ck) == 0 && ReserveSpec(t, ck, 1, "more", 0).1 == Ok(Hold(1, false))
  {
    AvailableIsWrapped(0, 0, Counter(INT64_MAX, UNLIMITED));
    assert FindIdem(t.reservations, IdemKey(ck.workspace, ck.key, "more")).None?;
  }

  /** The over-admission is reached: after that hold, a soft consume of everything int64 can count and
      a switch to a plan with limit 0, one more unit is admitted although the capacity is 0. */
  lemma OverAdmissionHappens(ck: CounterKey, unlimited: map<string, Plan>, soft: map<string, Plan>,
                             none: map<string, Plan>)
    requires LimitFor(unlimited, ck.workspace, ck.key) == UNLIMITED && IsSoft(soft, ck.workspace)
    requires LimitFor(none, ck.workspace, ck.key) == 0 && !IsSoft(none, ck.workspace)
    ensures var held := Apply(EMPTY.(plans := unlimited), QuotaRuns.Reserve(ck, UNLIMITED, "hold", 0));
            var used := Apply(held.(plans := soft), QuotaRuns.Consume(ck, INT64_MAX, ""));
            var t := used.(plans := none);
            && LedgerInv(t) && Capacity(t, ck) == 0 && t.CounterAt(ck) == Counter(INT64_MAX, UNLIMITED)
            && ReserveSpec(t, ck, 1, "more", 0).1 == Ok(Hold(1, false))
  {
    var (hold, consume) := (QuotaRuns.Reserve(ck, UNLIMITED, "hold", 0), QuotaRuns.Consume(ck, INT64_MAX, ""));
    var start := EMPTY.(plans := unlimited);
    var held := Apply(start, hold);
    var used := Apply(held.(plans := soft), consume);
    EmptySystemOk();
    EditKeepsLedger(EMPTY, unlimited);
    ApplyKeepsLedger(start, hold);
    EditKeepsLedger(held, soft);
    ApplyKeepsLedger(held.(plans := soft), consume);
    EditKeepsLedger(used, none);
    UnlimitedHold(start, ck);
    WrapAdmits(used.(plans := none), ck, NewReservation(ck, UNLIMITED, "hold", 0));
  }

  lemma EditKeepsLedger(t: Tables, plans: map<string, Plan>)
    requires LedgerInv(t)
    ensures LedgerInv(t.(plans := plans))
  {
    var t' := t.(plans := plans);
    forall k ensures CounterMatches(t', k) {
      assert CounterMatches(t, k);
    }
  }
}
