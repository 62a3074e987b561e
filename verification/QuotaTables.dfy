/** The quota tables and what each service operation does to them.

    Rows of quota_reservation are only ever inserted and updated, never removed,
    so a reservation id is modelled as the row's position in insertion order.
    A SQL statement whose bigint arithmetic leaves the 64-bit range fails and its
    transaction rolls back; that is the Unavailable outcome here. */
module QuotaTables {
  import opened Common

  datatype CounterKey = CounterKey(workspace: string, period: string, key: string)

  datatype Counter = Counter(used: int, reserved: int)

  datatype Status = Reserved | Settled | Released | Expired

  datatype Reservation = Reservation(
    workspace: string, quotaKey: string, periodKey: string, amount: int,
    settledAmount: int, releasedAmount: int, status: Status,
    idemKey: string, settleKey: Option<string>, releaseKeys: seq<string>, expiresAt: int)
  {
    function Outstanding(): int {
      amount - releasedAmount
    }

    function CounterOf(): CounterKey {
      CounterKey(workspace, periodKey, quotaKey)
    }

    function Idem(): IdemKey {
      IdemKey(workspace, quotaKey, idemKey)
    }
  }

  /** The unique key of quota_reservation, and of quota_consume_idem. */
  datatype IdemKey = IdemKey(workspace: string, key: string, idem: string)

  datatype Grant = Grant(workspace: string, period: string, key: string, amount: int, reason: string, refId: string)
  {
    function CounterOf(): CounterKey {
      CounterKey(workspace, period, key)
    }

    predicate SameDedupKey(other: Grant) {
      workspace == other.workspace && key == other.key && reason == other.reason && refId == other.refId
    }
  }

  datatype Plan = Plan(limits: map<string, int>, soft: bool)

  /** plans maps a workspace to the plan row it joins to; a workspace without one is absent. */
  datatype Tables = Tables(
    counters: map<CounterKey, Counter>,
    reservations: seq<Reservation>,
    grants: seq<Grant>,
    consumed: set<IdemKey>,
    plans: map<string, Plan>)
  {
    function CounterAt(ck: CounterKey): Counter {
      if ck in counters then counters[ck] else Counter(0, 0)
    }
  }

  datatype Failure = Invalid | NotFound | Conflict | Exhausted | Unavailable

  // ---- plan limits -------------------------------------------------------

  const UNLIMITED: int := 0x4000_0000_0000_0000

  /** A missing plan or key counts as limit 0; a negative limit means unlimited. */
  function LimitFor(plans: map<string, Plan>, workspace: string, key: string): int {
    var raw := if workspace in plans && key in plans[workspace].limits then plans[workspace].limits[key] else 0;
    if raw < 0 then UNLIMITED else raw
  }

  predicate IsSoft(plans: map<string, Plan>, workspace: string) {
    workspace in plans && plans[workspace].soft
  }

  function Granted(grants: seq<Grant>, ck: CounterKey): int {
    if grants == [] then 0
    else
      var last := grants[|grants| - 1];
      Granted(grants[..|grants| - 1], ck) + if last.CounterOf() == ck then last.amount else 0
  }

  function Capacity(t: Tables, ck: CounterKey): int {
    LimitFor(t.plans, ck.workspace, ck.key) + Granted(t.grants, ck)
  }

  // ---- sums over reservation rows ----------------------------------------

  function Share(r: Reservation, ck: CounterKey): int {
    if r.status == Reserved && r.CounterOf() == ck then r.Outstanding() else 0
  }

  /** What the open reservations of one counter still hold. */
  function Held(rs: seq<Reservation>, ck: CounterKey): int {
    if rs == [] then 0 else Held(rs[..|rs| - 1], ck) + Share(rs[|rs| - 1], ck)
  }

  /** The grouped sum of a batch: outstanding amounts of the rows in ids that belong to ck. */
  function GroupSum(rs: seq<Reservation>, ids: set<nat>, ck: CounterKey): int {
    if rs == [] then 0
    else
      var n := |rs| - 1;
      GroupSum(rs[..n], ids, ck) + if n in ids && rs[n].CounterOf() == ck then rs[n].Outstanding() else 0
  }

  function FindIdem(rs: seq<Reservation>, k: IdemKey): (id: Option<nat>)
    ensures id.Some? ==> id.value < |rs| && rs[id.value].Idem() == k
    ensures id.None? ==> forall i :: 0 <= i < |rs| ==> rs[i].Idem() != k
  {
    if rs == [] then None
    else if rs[|rs| - 1].Idem() == k then Some(|rs| - 1)
    else FindIdem(rs[..|rs| - 1], k)
  }

  // ---- Consume -----------------------------------------------------------

  /** The soft upsert: always applies. */
  function SoftUpsert(t: Tables, ck: CounterKey, n: int): Result<(Tables, bool), Failure> {
    var c := t.CounterAt(ck);
    if !Fits64(c.used + n) then Err(Unavailable)
    else Ok((t.(counters := t.counters[ck := c.(used := c.used + n)]), true))
  }

  /** The hard upsert: the proposed row is filtered by n <= capacity, and an existing row
      is updated only under its own condition. The flag says whether a row was affected. */
  function HardUpsert(t: Tables, ck: CounterKey, n: int, limit: int): Result<(Tables, bool), Failure> {
    var cap := limit + Granted(t.grants, ck);
    if n > cap then Ok((t, false))
    else if ck !in t.counters then Ok((t.(counters := t.counters[ck := Counter(n, 0)]), true))
    else
      var c := t.counters[ck];
      if !Fits64(c.used + n) || !Fits64(c.used + n + c.reserved) then Err(Unavailable)
      else if c.used + n + c.reserved <= cap then
        Ok((t.(counters := t.counters[ck := c.(used := c.used + n)]), true))
      else Ok((t, false))
  }

  function ConsumeOnce(t: Tables, ck: CounterKey, n: int): Result<(Tables, bool), Failure> {
    if IsSoft(t.plans, ck.workspace) then SoftUpsert(t, ck, n)
    else HardUpsert(t, ck, n, LimitFor(t.plans, ck.workspace, ck.key))
  }

  /** idem == "" is the unkeyed call; the result says whether the call was a replay. */
  function ConsumeSpec(t: Tables, ck: CounterKey, n: int, idem: string): (Tables, Result<bool, Failure>) {
    var k := IdemKey(ck.workspace, ck.key, idem);
    if n <= 0 then (t, Err(Invalid))
    else if idem != "" && k in t.consumed then (t, Ok(true))
    else
      match ConsumeOnce(t, ck, n)
      case Err(e) => (t, Err(e))
      case Ok((t', applied)) =>
        if !applied then (t, Err(Exhausted))
        else (if idem == "" then t' else t'.(consumed := t'.consumed + {k}), Ok(false))
  }

  // ---- Reserve, run without interruption ---------------------------------

  datatype Hold = Hold(id: nat, replay: bool)

  /** Go computes limit + grants - used - reserved in int64, left to right. */
  function Available(limit: int, grants: int, c: Counter): int {
    Wrap64(Wrap64(Wrap64(limit + grants) - c.used) - c.reserved)
  }

  function NewReservation(ck: CounterKey, amount: int, idem: string, expiresAt: int): Reservation {
    Reservation(ck.workspace, ck.key, ck.period, amount, 0, 0, Reserved, idem, None, [], expiresAt)
  }

  function ReserveSpec(t: Tables, ck: CounterKey, amount: int, idem: string, expiresAt: int)
    : (Tables, Result<Hold, Failure>)
  {
    var found := FindIdem(t.reservations, IdemKey(ck.workspace, ck.key, idem));
    var c := t.CounterAt(ck);
    var grants := Granted(t.grants, ck);
    if amount <= 0 || idem == "" then (t, Err(Invalid))
    else if found.Some? then (t, Ok(Hold(found.value, true)))
    else if !Fits64(grants) then (t, Err(Unavailable))
    else if Available(LimitFor(t.plans, ck.workspace, ck.key), grants, c) < amount then (t, Err(Exhausted))
    else if !Fits64(c.reserved + amount) then (t, Err(Unavailable))
    else
      (t.(counters := t.counters[ck := c.(reserved := c.reserved + amount)],
          reservations := t.reservations + [NewReservation(ck, amount, idem, expiresAt)]),
       Ok(Hold(|t.reservations|, false)))
  }

  // ---- Settle ------------------------------------------------------------

  datatype Settlement = Settlement(actual: int, replay: bool)

  function SettleSpec(t: Tables, id: nat, actual: int, idem: string): (Tables, Result<Settlement, Failure>) {
    if actual < 0 || idem == "" then (t, Err(Invalid))
    else if id >= |t.reservations| then (t, Err(NotFound))
    else
      var r := t.reservations[id];
      if r.status == Settled && r.settleKey == Some(idem) then (t, Ok(Settlement(r.settledAmount, true)))
      else if r.status != Reserved then (t, Err(Conflict))
      else
        var ck := r.CounterOf();
        var c := if ck in t.counters
                 then Counter(t.counters[ck].used + actual, Max(0, t.counters[ck].reserved - r.Outstanding()))
                 else Counter(actual, 0);
        if !Fits64(c.used) then (t, Err(Unavailable))
        else
          (t.(counters := t.counters[ck := c],
              reservations :=
                  t.reservations[id := r.(status := Settled, settledAmount := actual, settleKey := Some(idem))]),
           Ok(Settlement(actual, false)))
  }

  // ---- ReleaseReservation ------------------------------------------------

  datatype Giveback = Giveback(released: int, remaining: int, replay: bool)

  /** A non-positive request, or one above what is outstanding, releases everything left. */
  function ReleaseAmount(r: Reservation, amount: int): int {
    if amount <= 0 || amount > r.Outstanding() then r.Outstanding() else amount
  }

  function ReleaseHoldSpec(t: Tables, id: nat, amount: int, idem: string): (Tables, Result<Giveback, Failure>) {
    if idem == "" then (t, Err(Invalid))
    else if id >= |t.reservations| then (t, Err(NotFound))
    else
      var r := t.reservations[id];
      if idem in r.releaseKeys then (t, Ok(Giveback(0, r.Outstanding(), true)))
      else if r.status != Reserved then (t, Err(Conflict))
      else
        var amt := ReleaseAmount(r, amount);
        var ck := r.CounterOf();
        var status := if r.releasedAmount + amt >= r.amount then Released else r.status;
        (t.(counters := if ck in t.counters
                        then t.counters[ck := t.counters[ck].(reserved := Max(0, t.counters[ck].reserved - amt))]
                        else t.counters,
            reservations := t.reservations[id := r.(releasedAmount := r.releasedAmount + amt,
                                                    releaseKeys := r.releaseKeys + [idem], status := status)]),
         Ok(Giveback(amt, r.Outstanding() - amt, false)))
  }

  // ---- ExpireDueReservations ---------------------------------------------

  ghost predicate Expirable(rs: seq<Reservation>, ids: set<nat>) {
    forall i :: i in ids ==> i < |rs| && rs[i].status == Reserved
  }

  function ExpireRows(rs: seq<Reservation>, ids: set<nat>): (out: seq<Reservation>)
    ensures |out| == |rs|
  {
    seq(|rs|, i requires 0 <= i < |rs| => if i in ids then rs[i].(status := Expired) else rs[i])
  }

  /** The batch has a row of this counter. */
  predicate InBatch(rs: seq<Reservation>, ids: set<nat>, ck: CounterKey) {
    exists i :: i in ids && i < |rs| && rs[i].CounterOf() == ck
  }

  /** One batch: the rows of ids expire and each counter gives back its grouped sum. */
  function ExpireSpec(t: Tables, ids: set<nat>): Tables {
    t.(reservations := ExpireRows(t.reservations, ids),
       counters := map ck | ck in t.counters ::
         if InBatch(t.reservations, ids, ck)
         then t.counters[ck].(reserved := Max(0, t.counters[ck].reserved - GroupSum(t.reservations, ids, ck)))
         else t.counters[ck])
  }

  // ---- Release (of consumed units) and Grant -----------------------------

  function UnconsumeSpec(t: Tables, ck: CounterKey, n: int): (Tables, Result<(), Failure>) {
    if ck !in t.counters then (t, Ok(()))
    else if !Fits64(t.counters[ck].used - n) then (t, Err(Unavailable))
    else (t.(counters := t.counters[ck := t.counters[ck].(used := Max(0, t.counters[ck].used - n))]), Ok(()))
  }

  /** blankRef is the TrimSpace(refID) == "" test. */
  function GrantSpec(t: Tables, g: Grant, blankRef: bool): (Tables, Result<bool, Failure>) {
    if blankRef then (t, Err(Invalid))
    else if exists i :: 0 <= i < |t.grants| && t.grants[i].SameDedupKey(g) then (t, Ok(false))
    else (t.(grants := t.grants + [g]), Ok(true))
  }
}
