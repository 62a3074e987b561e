/** Whole operations as values, and what every run of them keeps. */
module QuotaRuns {
  import opened Common
  import opened QuotaTables
  import opened QuotaLedger

  datatype Op =
    | Consume(ck: CounterKey, n: int, idem: string)
    | Reserve(ck: CounterKey, amount: int, idem: string, expiresAt: int)
    | Settle(id: nat, amount: int, idem: string)
    | ReleaseHold(id: nat, amount: int, idem: string)
    | Expire(ids: set<nat>)
    | Unconsume(ck: CounterKey, n: int)
    | AddGrant(grant: Grant, blankRef: bool)

  /** The sweeper's statement selects open rows only. */
  ghost predicate Enabled(t: Tables, op: Op) {
    op.Expire? ==> Expirable(t.reservations, op.ids)
  }

  function Apply(t: Tables, op: Op): Tables {
    match op
    case Consume(ck, n, idem) => ConsumeSpec(t, ck, n, idem).0
    case Reserve(ck, amount, idem, expiresAt) => ReserveSpec(t, ck, amount, idem, expiresAt).0
    case Settle(id, actual, idem) => SettleSpec(t, id, actual, idem).0
    case ReleaseHold(id, amount, idem) => ReleaseHoldSpec(t, id, amount, idem).0
    case Expire(ids) => ExpireSpec(t, ids)
    case Unconsume(ck, n) => UnconsumeSpec(t, ck, n).0
    case AddGrant(g, blankRef) => GrantSpec(t, g, blankRef).0
  }

  /** The counters whose rows an operation may write. */
  function Touches(t: Tables, op: Op): set<CounterKey> {
    match op
    case Consume(ck, _, _) => {ck}
    case Reserve(ck, _, _, _) => {ck}
    case Settle(id, _, _) => if id < |t.reservations| then {t.reservations[id].CounterOf()} else {}
    case ReleaseHold(id, _, _) => if id < |t.reservations| then {t.reservations[id].CounterOf()} else {}
    case Expire(ids) => set i | i in ids && i < |t.reservations| :: t.reservations[i].CounterOf()
    case Unconsume(ck, _) => {ck}
    case AddGrant(_, _) => {}
  }

  ghost predicate RunEnabled(t: Tables, ops: seq<Op>)
    decreases |ops|
  {
    ops == [] || (Enabled(t, ops[0]) && RunEnabled(Apply(t, ops[0]), ops[1..]))
  }

  function Run(t: Tables, ops: seq<Op>): Tables
    decreases |ops|
  {
    if ops == [] then t else Run(Apply(t, ops[0]), ops[1..])
  }

  lemma ApplyKeepsLedger(t: Tables, op: Op)
    requires LedgerInv(t) && Enabled(t, op)
    ensures LedgerInv(Apply(t, op))
  {
    match op
    case Consume(ck, n, idem) => ConsumeKeepsLedger(t, ck, n, idem);
    case Reserve(ck, amount, idem, expiresAt) => ReserveKeepsLedger(t, ck, amount, idem, expiresAt);
    case Settle(id, actual, idem) => SettleKeepsLedger(t, id, actual, idem);
    case ReleaseHold(id, amount, idem) => ReleaseHoldKeepsLedger(t, id, amount, idem);
    case Expire(ids) => ExpireKeepsLedger(t, ids);
    case Unconsume(ck, n) => UnconsumeKeepsLedger(t, ck, n);
    case AddGrant(g, blankRef) => GrantKeepsLedger(t, g, blankRef);
  }

  /** No reservation row is lost, and its key, counter and amount stay. */
  ghost predicate SameIdentities(rs: seq<Reservation>, rs': seq<Reservation>) {
    && |rs'| >= |rs|
    && forall i :: 0 <= i < |rs| ==>
         rs'[i].Idem() == rs[i].Idem() && rs'[i].CounterOf() == rs[i].CounterOf() && rs'[i].amount == rs[i].amount
  }

  lemma ReserveFrame(t: Tables, ck: CounterKey, amount: int, idem: string, expiresAt: int, k: CounterKey)
    ensures var t' := ReserveSpec(t, ck, amount, idem, expiresAt).0;
            && SameIdentities(t.reservations, t'.reservations) && (k != ck ==> t'.CounterAt(k) == t.CounterAt(k))
            && t'.plans == t.plans && t'.grants == t.grants
  {
  }

  lemma SettleFrame(t: Tables, id: nat, actual: int, idem: string, k: CounterKey)
    ensures var t' := SettleSpec(t, id, actual, idem).0;
            && SameIdentities(t.reservations, t'.reservations) && |t'.reservations| == |t.reservations|
            && (id < |t.reservations| && k != t.reservations[id].CounterOf() ==> t'.CounterAt(k) == t.CounterAt(k))
            && (id >= |t.reservations| ==> t' == t)
            && t'.plans == t.plans && t'.grants == t.grants
  {
  }

  lemma ReleaseFrame(t: Tables, id: nat, amount: int, idem: string, k: CounterKey)
    ensures var t' := ReleaseHoldSpec(t, id, amount, idem).0;
            && SameIdentities(t.reservations, t'.reservations) && |t'.reservations| == |t.reservations|
            && (id < |t.reservations| && k != t.reservations[id].CounterOf() ==> t'.CounterAt(k) == t.CounterAt(k))
            && (id >= |t.reservations| ==> t' == t)
            && t'.plans == t.plans && t'.grants == t.grants
  {
  }

  lemma ExpireFrame(t: Tables, ids: set<nat>, k: CounterKey)
    ensures var t' := ExpireSpec(t, ids);
            && SameIdentities(t.reservations, t'.reservations) && |t'.reservations| == |t.reservations|
            && (k !in Touches(t, Expire(ids)) ==> t'.CounterAt(k) == t.CounterAt(k))
  {
    assert forall i :: i in ids && i < |t.reservations| ==> t.reservations[i].CounterOf() in Touches(t, Expire(ids));
  }

  lemma ConsumeFrame(t: Tables, ck: CounterKey, n: int, idem: string, k: CounterKey)
    ensures var t' := ConsumeSpec(t, ck, n, idem).0;
            && t'.reservations == t.reservations && t'.plans == t.plans && t'.grants == t.grants
            && (k != ck ==> t'.CounterAt(k) == t.CounterAt(k))
  {
  }

  /** An operation leaves alone every counter it does not touch, the plans, and the identity
      of every reservation row; only Reserve adds a row. */
  lemma ApplyFrame(t: Tables, op: Op, ck: CounterKey)
    ensures ck !in Touches(t, op) ==> Apply(t, op).CounterAt(ck) == t.CounterAt(ck)
    ensures Apply(t, op).plans == t.plans
    ensures t.grants <= Apply(t, op).grants
    ensures !op.Reserve? ==> |Apply(t, op).reservations| == |t.reservations|
    ensures SameIdentities(t.reservations, Apply(t, op).reservations)
  {
    match op
    case Reserve(k, amount, idem, expiresAt) => ReserveFrame(t, k, amount, idem, expiresAt, ck);
    case Settle(id, actual, idem) => SettleFrame(t, id, actual, idem, ck);
    case ReleaseHold(id, amount, idem) => ReleaseFrame(t, id, amount, idem, ck);
    case Expire(ids) => ExpireFrame(t, ids, ck);
    case Consume(k, n, idem) => ConsumeFrame(t, k, n, idem, ck);
    case Unconsume(k, n) =>
    case AddGrant(g, blankRef) =>
  }

  // ---- the capacity bound ------------------------------------------------

  ghost predicate GrantsNonNegative(grants: seq<Grant>, ck: CounterKey) {
    forall i :: 0 <= i < |grants| && grants[i].CounterOf() == ck ==> grants[i].amount >= 0
  }

  lemma {:induction false} GrantedNonNegative(grants: seq<Grant>, ck: CounterKey)
    requires GrantsNonNegative(grants, ck)
    ensures Granted(grants, ck) >= 0
  {
    if grants != [] {
      GrantedNonNegative(grants[..|grants| - 1], ck);
    }
  }

  /** used + reserved <= limit + grants, for a counter whose workspace has the hard plan limit. */
  ghost predicate Bounded(t: Tables, ck: CounterKey, limit: int) {
    && LimitFor(t.plans, ck.workspace, ck.key) == limit && Fits64(limit)
    && !IsSoft(t.plans, ck.workspace)
    && GrantsNonNegative(t.grants, ck)
    && HasRoom(t, ck, Capacity(t, ck))
  }

  predicate HasRoom(t: Tables, ck: CounterKey, capacity: int) {
    t.CounterAt(ck).used + t.CounterAt(ck).reserved <= capacity
  }

  /** What a counter is still short of its capacity. */
  function Slack(t: Tables, ck: CounterKey): int {
    Capacity(t, ck) - t.CounterAt(ck).used - t.CounterAt(ck).reserved
  }

  /** What a settlement needs in order to be carried out, not refused or replayed. */
  predicate SettlesAfresh(t: Tables, id: nat, actual: int, idem: string) {
    && id < |t.reservations| && t.reservations[id].status == Reserved
    && actual >= 0 && idem != ""
    && Fits64(t.CounterAt(t.reservations[id].CounterOf()).used + actual)
  }

  /** What a grant needs in order to be added. */
  predicate AddsGrant(t: Tables, g: Grant, blankRef: bool) {
    !blankRef && forall i :: 0 <= i < |t.grants| ==> !t.grants[i].SameDedupKey(g)
  }

  /** These conditions are exactly when the two calls report that they did something. */
  lemma CarriedOutIff(t: Tables, id: nat, actual: int, idem: string, g: Grant, blankRef: bool)
    ensures SettlesAfresh(t, id, actual, idem) <==> SettleSpec(t, id, actual, idem).1 == Ok(Settlement(actual, false))
    ensures AddsGrant(t, g, blankRef) <==> GrantSpec(t, g, blankRef).1 == Ok(true)
  {
  }

  predicate GivesBack(t: Tables, ck: CounterKey, n: int) {
    ck in t.counters && Fits64(t.counters[ck].used - n)
  }

  /** The callers' side of the bound, as far as this counter goes: a settlement exceeds what is
      outstanding, and a negative release of consumed units takes, by no more than the slack; and no
      negative grant is added. */
  ghost predicate Disciplined(t: Tables, op: Op, ck: CounterKey) {
    match op
    case Settle(id, actual, idem) =>
      SettlesAfresh(t, id, actual, idem) && t.reservations[id].CounterOf() == ck ==>
        actual - t.reservations[id].Outstanding() <= Slack(t, ck)
    case Unconsume(k, n) => k == ck && GivesBack(t, ck, n) ==> -n <= Slack(t, ck)
    case AddGrant(g, blankRef) => AddsGrant(t, g, blankRef) && g.CounterOf() == ck ==> g.amount >= 0
    case _ => true
  }

  /** A settlement keeps the bound exactly when it exceeds the hold by no more than the slack. */
  lemma SettleKeepsBoundIff(t: Tables, id: nat, actual: int, idem: string, limit: int)
    requires LedgerInv(t) && SettlesAfresh(t, id, actual, idem) && Bounded(t, t.reservations[id].CounterOf(), limit)
    ensures var ck := t.reservations[id].CounterOf();
            Bounded(SettleSpec(t, id, actual, idem).0, ck, limit)
            <==> actual - t.reservations[id].Outstanding() <= Slack(t, ck)
  {
    SettleMovesHoldToUsed(t, id, actual, idem);
  }

  /** A release of consumed units keeps it exactly when it is not carried out, or takes at most the
      slack; every release of a non-negative number does. */
  lemma UnconsumeKeepsBoundIff(t: Tables, ck: CounterKey, n: int, limit: int)
    requires LedgerInv(t) && Bounded(t, ck, limit)
    ensures Bounded(UnconsumeSpec(t, ck, n).0, ck, limit) <==> !GivesBack(t, ck, n) || -n <= Slack(t, ck)
    ensures n >= 0 ==> -n <= Slack(t, ck)
  {
    assert CounterMatches(t, ck);
  }

  lemma GrantAdds(grants: seq<Grant>, g: Grant, ck: CounterKey)
    ensures Granted(grants + [g], ck) == Granted(grants, ck) + if g.CounterOf() == ck then g.amount else 0
    ensures GrantsNonNegative(grants + [g], ck) <==>
              GrantsNonNegative(grants, ck) && (g.CounterOf() == ck ==> g.amount >= 0)
  {
    var more := grants + [g];
    assert more[..|grants|] == grants && more[|grants|] == g;
  }

  lemma GrantKeepsBoundIff(t: Tables, g: Grant, blankRef: bool, ck: CounterKey, limit: int)
    requires Bounded(t, ck, limit)
    ensures Bounded(GrantSpec(t, g, blankRef).0, ck, limit)
            <==> (AddsGrant(t, g, blankRef) && g.CounterOf() == ck ==> g.amount >= 0)
  {
    GrantAdds(t.grants, g, ck);
  }

  /** Every other operation keeps the bound, so the discipline is exactly what is needed. */
  lemma BoundKeptIffDisciplined(t: Tables, op: Op, ck: CounterKey, limit: int)
    requires LedgerInv(t) && Enabled(t, op) && Bounded(t, ck, limit)
    ensures Bounded(Apply(t, op), ck, limit) <==> Disciplined(t, op, ck)
  {
    if op.AddGrant? {
      GrantKeepsBoundIff(t, op.grant, op.blankRef, ck, limit);
    } else {
      ApplyFrame(t, op, ck);
      if ck in Touches(t, op) {
        TouchingOpKeepsBoundIff(t, op, ck, limit);
      }
    }
  }

  lemma ApplyKeepsBound(t: Tables, op: Op, ck: CounterKey, limit: int)
    requires LedgerInv(t) && Enabled(t, op) && Bounded(t, ck, limit) && Disciplined(t, op, ck)
    ensures Bounded(Apply(t, op), ck, limit)
  {
    BoundKeptIffDisciplined(t, op, ck, limit);
  }

  /** Settling no more than is outstanding and releasing no negative units is disciplined. */
  lemma UsualCallsAreDisciplined(t: Tables, op: Op, ck: CounterKey, limit: int)
    requires Bounded(t, ck, limit)
    requires op.Settle? && op.id < |t.reservations| ==> op.amount <= t.reservations[op.id].Outstanding()
    requires op.Unconsume? ==> op.n >= 0
    requires op.AddGrant? ==> op.grant.amount >= 0
    ensures Disciplined(t, op, ck)
  {
  }

  lemma TouchingOpKeepsBoundIff(t: Tables, op: Op, ck: CounterKey, limit: int)
    requires LedgerInv(t) && Enabled(t, op) && Bounded(t, ck, limit)
    requires ck in Touches(t, op) && !op.AddGrant?
    ensures Bounded(Apply(t, op), ck, limit) <==> Disciplined(t, op, ck)
  {
    match op
    case Consume(k, n, idem) => ConsumeKeepsBound(t, ck, n, idem, limit);
    case Reserve(k, amount, idem, expiresAt) => ReserveKeepsBound(t, ck, amount, idem, expiresAt, limit);
    case Settle(id, actual, idem) => SettleOpKeepsBoundIff(t, id, actual, idem, limit);
    case ReleaseHold(id, amount, idem) => ReleaseKeepsBound(t, id, amount, idem, limit);
    case Expire(ids) => ExpireKeepsBound(t, ids, ck, limit);
    case Unconsume(k, n) => UnconsumeKeepsBoundIff(t, ck, n, limit);
  }

  lemma SettleOpKeepsBoundIff(t: Tables, id: nat, actual: int, idem: string, limit: int)
    requires LedgerInv(t) && id < |t.reservations| && Bounded(t, t.reservations[id].CounterOf(), limit)
    ensures var ck := t.reservations[id].CounterOf();
            Bounded(SettleSpec(t, id, actual, idem).0, ck, limit) <==> Disciplined(t, Op.Settle(id, actual, idem), ck)
  {
    if SettlesAfresh(t, id, actual, idem) {
      SettleKeepsBoundIff(t, id, actual, idem, limit);
    } else {
      SettleMovesHoldToUsed(t, id, actual, idem);
    }
  }

  lemma ConsumeKeepsBound(t: Tables, ck: CounterKey, n: int, idem: string, limit: int)
    requires LedgerInv(t) && Bounded(t, ck, limit)
    ensures Bounded(ConsumeSpec(t, ck, n, idem).0, ck, limit)
  {
    if 0 < n {
      HardUpsertAppliesIffFits(t, ck, n, limit);
    }
  }

  lemma ReleaseKeepsBound(t: Tables, id: nat, amount: int, idem: string, limit: int)
    requires LedgerInv(t) && id < |t.reservations| && Bounded(t, t.reservations[id].CounterOf(), limit)
    ensures Bounded(ReleaseHoldSpec(t, id, amount, idem).0, t.reservations[id].CounterOf(), limit)
  {
    RemainingIsOutstanding(t, id, amount, idem);
    assert ReleaseHoldSpec(t, id, amount, idem).0.CounterAt(t.reservations[id].CounterOf()).used
        == t.CounterAt(t.reservations[id].CounterOf()).used;
  }

  lemma ExpireKeepsBound(t: Tables, ids: set<nat>, ck: CounterKey, limit: int)
    requires LedgerInv(t) && Expirable(t.reservations, ids) && Bounded(t, ck, limit)
    ensures Bounded(ExpireSpec(t, ids), ck, limit)
  {
    ExpireGivesBack(t, ids, ck);
    GroupSumNonNegative(t.reservations, ids, ck);
  }

  /** An admitted reservation fits next to what the counter carries. */
  lemma AdmittedFits(t: Tables, ck: CounterKey, amount: int, limit: int)
    requires LedgerInv(t) && Bounded(t, ck, limit) && 0 < amount && Fits64(Granted(t.grants, ck))
    ensures Available(limit, Granted(t.grants, ck), t.CounterAt(ck)) >= amount ==> amount <= Slack(t, ck)
  {
    assert CounterMatches(t, ck);
    HeldNonNegative(t.reservations, ck);
    GrantedNonNegative(t.grants, ck);
    AvailabilityNeverOverAdmits(limit, Granted(t.grants, ck), t.CounterAt(ck), amount);
  }

  lemma ReserveKeepsBound(t: Tables, ck: CounterKey, amount: int, idem: string, expiresAt: int, limit: int)
    requires LedgerInv(t) && Bounded(t, ck, limit)
    ensures Bounded(ReserveSpec(t, ck, amount, idem, expiresAt).0, ck, limit)
  {
    if 0 < amount && Fits64(Granted(t.grants, ck)) {
      AdmittedFits(t, ck, amount, limit);
    }
  }

  /** Without the discipline the bound is lost: a release of -1 units consumes past the limit. */
  lemma NegativeReleaseBreaksBound()
    ensures exists t: Tables, ck: CounterKey, n: int ::
              LedgerInv(t) && Bounded(t, ck, 0) && n < 0 && !Bounded(UnconsumeSpec(t, ck, n).0, ck, 0)
  {
    var ck := CounterKey("w", "2026-01", "k");
    var t := Tables(map[ck := Counter(0, 0)], [], [], {}, map[]);
    assert LedgerInv(t) && Bounded(t, ck, 0);
    UnconsumeKeepsBoundIff(t, ck, -1, 0);
  }

  // ---- lifecycle of one reservation --------------------------------------

  /** Settled, released and expired are absorbing: the row never changes again. */
  lemma TerminalRowFrozen(t: Tables, op: Op, id: nat)
    requires id < |t.reservations| && t.reservations[id].status != Reserved && Enabled(t, op)
    ensures Apply(t, op).reservations[id] == t.reservations[id]
  {
  }

  lemma {:induction false} TerminalRowFrozenForever(t: Tables, ops: seq<Op>, id: nat)
    requires id < |t.reservations| && t.reservations[id].status != Reserved && RunEnabled(t, ops)
    ensures id < |Run(t, ops).reservations| && Run(t, ops).reservations[id] == t.reservations[id]
    decreases |ops|
  {
    if ops != [] {
      TerminalRowFrozen(t, ops[0], id);
      ApplyFrame(t, ops[0], CounterKey("", "", ""));
      TerminalRowFrozenForever(Apply(t, ops[0]), ops[1..], id);
    }
  }

  /** What one call reports as released from reservation id; a replay reports nothing. */
  function ReportedRelease(t: Tables, op: Op, id: nat): int {
    if op.ReleaseHold? && op.id == id then
      match ReleaseHoldSpec(t, id, op.amount, op.idem).1
      case Ok(g) => if g.replay then 0 else g.released
      case Err(_) => 0
    else 0
  }

  function ReportedOverRun(t: Tables, ops: seq<Op>, id: nat): int
    decreases |ops|
  {
    if ops == [] then 0 else ReportedRelease(t, ops[0], id) + ReportedOverRun(Apply(t, ops[0]), ops[1..], id)
  }

  lemma ReportMatchesRow(t: Tables, op: Op, id: nat)
    requires id < |t.reservations| && Enabled(t, op)
    ensures id < |Apply(t, op).reservations|
    ensures ReportedRelease(t, op, id)
            == Apply(t, op).reservations[id].releasedAmount - t.reservations[id].releasedAmount
  {
    ApplyFrame(t, op, CounterKey("", "", ""));
  }

  /** Conservation: the amounts the calls reported are exactly what the row records, and every
      successful call reports as remaining what is outstanding afterwards. */
  lemma {:induction false} ReportsSumToReleased(t: Tables, ops: seq<Op>, id: nat)
    requires LedgerInv(t) && id < |t.reservations| && RunEnabled(t, ops)
    ensures LedgerInv(Run(t, ops)) && id < |Run(t, ops).reservations|
    ensures ReportedOverRun(t, ops, id)
            == Run(t, ops).reservations[id].releasedAmount - t.reservations[id].releasedAmount
    decreases |ops|
  {
    if ops != [] {
      ApplyKeepsLedger(t, ops[0]);
      ReportMatchesRow(t, ops[0], id);
      ReportsSumToReleased(Apply(t, ops[0]), ops[1..], id);
    }
  }

  lemma RemainingIsOutstanding(t: Tables, id: nat, amount: int, idem: string)
    requires LedgerInv(t)
    ensures var (t', res) := ReleaseHoldSpec(t, id, amount, idem);
            match res
            case Err(_) => t' == t
            case Ok(g) =>
              && id < |t'.reservations|
              && g.remaining == t'.reservations[id].Outstanding()
              && (g.replay <==> idem in t.reservations[id].releaseKeys)
              && (g.replay ==> t' == t)
              && (!g.replay ==>
                    && g.released > 0
                    && (0 < amount <= t.reservations[id].Outstanding() ==> g.released == amount)
                    && (g.remaining == 0 <==> t'.reservations[id].status == Released)
                    && t'.CounterAt(t.reservations[id].CounterOf()).reserved
                       == t.CounterAt(t.reservations[id].CounterOf()).reserved - g.released)
  {
    if id < |t.reservations| && t.reservations[id].status == Reserved {
      ClampNeverBites(t, id);
    }
  }

  /** A settlement turns the whole hold into actual use, whatever period it was made in. */
  lemma SettleMovesHoldToUsed(t: Tables, id: nat, actual: int, idem: string)
    requires LedgerInv(t)
    ensures var (t', res) := SettleSpec(t, id, actual, idem);
            match res
            case Err(_) => t' == t
            case Ok(s) =>
              var ck := t.reservations[id].CounterOf();
              && s.actual == t'.reservations[id].settledAmount
              && t'.reservations[id].status == Settled && t'.reservations[id].settleKey == Some(idem)
              && (s.replay ==> t' == t)
              && (!s.replay ==>
                    && t'.CounterAt(ck).used == t.CounterAt(ck).used + actual
                    && t'.CounterAt(ck).reserved == t.CounterAt(ck).reserved - t.reservations[id].Outstanding())
  {
    if id < |t.reservations| && t.reservations[id].status == Reserved {
      ClampNeverBites(t, id);
    }
  }

  // ---- idempotency keys over whole runs ------------------------------------

  /** The operation is a keyed consume that goes through, not a replay. */
  predicate ConsumesAfresh(t: Tables, op: Op, k: IdemKey) {
    && op.Consume? && op.idem != "" && IdemKey(op.ck.workspace, op.ck.key, op.idem) == k
    && ConsumeSpec(t, op.ck, op.n, op.idem).1 == Ok(false)
  }

  function FreshConsumes(t: Tables, ops: seq<Op>, k: IdemKey): nat
    decreases |ops|
  {
    if ops == [] then 0
    else (if ConsumesAfresh(t, ops[0], k) then 1 else 0) + FreshConsumes(Apply(t, ops[0]), ops[1..], k)
  }

  lemma KeyOnceUsedStays(t: Tables, op: Op, k: IdemKey)
    ensures k in Apply(t, op).consumed <==> k in t.consumed || ConsumesAfresh(t, op, k)
    ensures k in t.consumed ==> !ConsumesAfresh(t, op, k)
  {
  }

  /** Over any run a key is charged at most once, and exactly once if and only if the run is what put
      it there. */
  lemma {:induction false} KeyedConsumeChargesOnce(t: Tables, ops: seq<Op>, k: IdemKey)
    ensures FreshConsumes(t, ops, k) == if k !in t.consumed && k in Run(t, ops).consumed then 1 else 0
    ensures k in t.consumed ==> k in Run(t, ops).consumed
    decreases |ops|
  {
    if ops != [] {
      KeyOnceUsedStays(t, ops[0], k);
      KeyedConsumeChargesOnce(Apply(t, ops[0]), ops[1..], k);
    }
  }

  /** A consume call answered as a replay, or refused, charges nothing. */
  lemma ReplayedConsumeChargesNothing(t: Tables, ck: CounterKey, n: int, idem: string)
    ensures ConsumeSpec(t, ck, n, idem).1 != Ok(false) ==> ConsumeSpec(t, ck, n, idem).0 == t
    ensures ConsumeSpec(t, ck, n, idem).1 == Ok(false) ==>
              ConsumeSpec(t, ck, n, idem).0.CounterAt(ck) == t.CounterAt(ck).(used := t.CounterAt(ck).used + n)
  {
  }

  predicate HasGrant(grants: seq<Grant>, g: Grant) {
    exists i :: 0 <= i < |grants| && grants[i].SameDedupKey(g)
  }

  ghost predicate GrantsDistinct(grants: seq<Grant>) {
    forall i, j :: 0 <= i < j < |grants| ==> !grants[i].SameDedupKey(grants[j])
  }

  /** How many grants with g's dedup key the table holds. */
  function GrantCount(grants: seq<Grant>, g: Grant): nat {
    if grants == [] then 0
    else GrantCount(grants[..|grants| - 1], g) + if grants[|grants| - 1].SameDedupKey(g) then 1 else 0
  }

  lemma {:induction false} DistinctGrantCount(grants: seq<Grant>, g: Grant)
    requires GrantsDistinct(grants)
    ensures GrantCount(grants, g) == if HasGrant(grants, g) then 1 else 0
  {
    if grants != [] {
      var n := |grants| - 1;
      DistinctGrantCount(grants[..n], g);
      if i :| 0 <= i < |grants| && grants[i].SameDedupKey(g) {
        assert i == n || grants[..n][i].SameDedupKey(g);
      }
      if i :| 0 <= i < n && grants[..n][i].SameDedupKey(g) {
        assert !grants[i].SameDedupKey(grants[n]);
      }
    }
  }

  lemma GrantKeepsDistinct(t: Tables, op: Op)
    requires GrantsDistinct(t.grants)
    ensures GrantsDistinct(Apply(t, op).grants)
  {
  }

  /** Over any run of whatever grants, retried in whatever order, a dedup key is credited at most
      once, and not again if it was there before. */
  lemma {:induction false} GrantCreditsOnce(t: Tables, ops: seq<Op>, g: Grant)
    requires GrantsDistinct(t.grants)
    ensures GrantsDistinct(Run(t, ops).grants) && GrantCount(Run(t, ops).grants, g) <= 1
    ensures HasGrant(t.grants, g) ==> GrantCount(Run(t, ops).grants, g) == GrantCount(t.grants, g) == 1
    ensures t.grants <= Run(t, ops).grants
    decreases |ops|
  {
    DistinctGrantCount(t.grants, g);
    if ops != [] {
      var t' := Apply(t, ops[0]);
      GrantKeepsDistinct(t, ops[0]);
      ApplyFrame(t, ops[0], CounterKey("", "", ""));
      if i :| 0 <= i < |t.grants| && t.grants[i].SameDedupKey(g) {
        assert t'.grants[i].SameDedupKey(g);
      }
      GrantCreditsOnce(t', ops[1..], g);
    }
  }

  // ---- one batch is its rows one at a time -------------------------------

  function ExpireInOrder(t: Tables, order: seq<nat>): Tables {
    if order == [] then t else ExpireSpec(ExpireInOrder(t, order[..|order| - 1]), {order[|order| - 1]})
  }

  function IdSet(order: seq<nat>): set<nat> {
    set i | 0 <= i < |order| :: order[i]
  }

  /** The grouped update equals expiring the same rows singly, in whatever order. */
  lemma {:induction false} BatchIsOneAtATime(t: Tables, order: seq<nat>)
    requires LedgerInv(t) && Expirable(t.reservations, IdSet(order))
    requires forall i, j :: 0 <= i < j < |order| ==> order[i] != order[j]
    ensures ExpireInOrder(t, order) == ExpireSpec(t, IdSet(order))
  {
    if order == [] {
      assert ExpireRows(t.reservations, {}) == t.reservations;
      assert ExpireSpec(t, {}).counters == t.counters;
    } else {
      var n := |order| - 1;
      var (front, last) := (order[..n], order[n]);
      assert IdSet(order) == IdSet(front) + {last};
      assert last !in IdSet(front);
      BatchIsOneAtATime(t, front);
      BatchPlusOne(t, IdSet(front), last);
    }
  }

  lemma BatchPlusOne(t: Tables, ids: set<nat>, id: nat)
    requires LedgerInv(t) && Expirable(t.reservations, ids + {id}) && id !in ids
    ensures ExpireSpec(ExpireSpec(t, ids), {id}) == ExpireSpec(t, ids + {id})
  {
    var (two, one) := (ExpireSpec(ExpireSpec(t, ids), {id}), ExpireSpec(t, ids + {id}));
    assert two.reservations == one.reservations;
    forall ck | ck in t.counters ensures two.counters[ck] == one.counters[ck] {
      CounterOfBatchPlusOne(t, ids, id, ck);
    }
    assert two.counters == one.counters;
  }

  lemma CounterOfBatchPlusOne(t: Tables, ids: set<nat>, id: nat, ck: CounterKey)
    requires LedgerInv(t) && Expirable(t.reservations, ids + {id}) && id !in ids && ck in t.counters
    ensures ExpireSpec(ExpireSpec(t, ids), {id}).CounterAt(ck) == ExpireSpec(t, ids + {id}).CounterAt(ck)
  {
    var mid := ExpireSpec(t, ids);
    ExpireKeepsLedger(t, ids);
    ExpireGivesBack(t, ids, ck);
    ExpireGivesBack(mid, {id}, ck);
    ExpireGivesBack(t, ids + {id}, ck);
    SumsOfBatchPlusOne(t.reservations, ids, id, ck);
  }

  lemma SumsOfBatchPlusOne(rs: seq<Reservation>, ids: set<nat>, id: nat, ck: CounterKey)
    requires id !in ids
    ensures GroupSum(rs, ids + {id}, ck) == GroupSum(rs, ids, ck) + GroupSum(ExpireRows(rs, ids), {id}, ck)
  {
    GroupSumSame(ExpireRows(rs, ids), rs, {id}, ck);
    GroupSumSplit(rs, ids, id, ck);
  }

  lemma {:induction false} GroupSumSplit(rs: seq<Reservation>, ids: set<nat>, id: nat, ck: CounterKey)
    requires id !in ids
    ensures GroupSum(rs, ids + {id}, ck) == GroupSum(rs, ids, ck) + GroupSum(rs, {id}, ck)
  {
    if rs != [] {
      GroupSumSplit(rs[..|rs| - 1], ids, id, ck);
    }
  }

  lemma {:induction false} GroupSumSame(rs: seq<Reservation>, rs': seq<Reservation>, ids: set<nat>, ck: CounterKey)
    requires |rs| == |rs'|
    requires forall i :: 0 <= i < |rs| ==>
               rs[i].CounterOf() == rs'[i].CounterOf() && rs[i].Outstanding() == rs'[i].Outstanding()
    ensures GroupSum(rs, ids, ck) == GroupSum(rs', ids, ck)
  {
    if rs != [] {
      GroupSumSame(rs[..|rs| - 1], rs'[..|rs'| - 1], ids, ck);
    }
  }
}
