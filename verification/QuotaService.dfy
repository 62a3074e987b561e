/** The quota service over its tables, statement by statement, each method proved to do what
    its specification function in QuotaTables says. A returned error has rolled back. */
module QuotaService {
  import opened Common
  import opened QuotaTables
  import opened QuotaLedger
  import opened QuotaRuns
  import opened QuotaConcurrency

  // ---- the sweeper's sub-select: ORDER BY expires_at, id LIMIT n ----------

  predicate Due(rs: seq<Reservation>, now: int, skip: set<nat>, i: nat) {
    i < |rs| && rs[i].status == Reserved && rs[i].expiresAt <= now && i !in skip
  }

  predicate Sooner(rs: seq<Reservation>, i: nat, j: nat)
    requires i < |rs| && j < |rs|
  {
    rs[i].expiresAt < rs[j].expiresAt || (rs[i].expiresAt == rs[j].expiresAt && i <= j)
  }

  /** picked are the first limit due rows no other transaction has locked. */
  ghost predicate IsDueBatch(rs: seq<Reservation>, now: int, limit: int, locked: set<nat>, picked: seq<nat>) {
    && (forall k :: 0 <= k < |picked| ==> Due(rs, now, locked, picked[k]))
    && (forall k, m :: 0 <= k < m < |picked| ==> picked[k] != picked[m] && Sooner(rs, picked[k], picked[m]))
    && |picked| <= limit
    && (forall i: nat :: Due(rs, now, locked, i) && i !in picked ==>
          |picked| == limit && forall k :: 0 <= k < |picked| ==> Sooner(rs, picked[k], i))
  }

  /** In the fields: open rows whose expiry has come and that nobody has locked, each once, earliest expiry
      first and older rows before younger ones; one of them is left out only for limit others that come
      before it. */
  lemma DueBatchMeaning(rs: seq<Reservation>, now: int, limit: int, locked: set<nat>, picked: seq<nat>, i: nat)
    requires IsDueBatch(rs, now, limit, locked, picked)
    ensures forall k :: 0 <= k < |picked| ==>
              && picked[k] < |rs| && picked[k] !in locked
              && rs[picked[k]].status == Reserved && rs[picked[k]].expiresAt <= now
    ensures forall k, m :: 0 <= k < m < |picked| ==>
              var (x, y) := (rs[picked[k]].expiresAt, rs[picked[m]].expiresAt);
              x < y || (x == y && picked[k] < picked[m])
    ensures |picked| <= limit
    ensures i < |rs| && i !in locked && rs[i].status == Reserved && rs[i].expiresAt <= now && i !in picked ==>
              && |picked| == limit
              && forall k :: 0 <= k < |picked| ==>
                   var (x, y) := (rs[picked[k]].expiresAt, rs[i].expiresAt);
                   x < y || (x == y && picked[k] < i)
  {
    assert forall k :: 0 <= k < |picked| ==> Due(rs, now, locked, picked[k]);
    if i < |rs| && i !in locked && rs[i].status == Reserved && rs[i].expiresAt <= now && i !in picked {
      assert Due(rs, now, locked, i);
    }
  }

  method FirstDue(rs: seq<Reservation>, now: int, skip: set<nat>) returns (first: Option<nat>)
    ensures first.None? ==> forall i: nat :: !Due(rs, now, skip, i)
    ensures first.Some? ==> Due(rs, now, skip, first.value)
    ensures first.Some? ==> forall i: nat :: Due(rs, now, skip, i) ==> Sooner(rs, first.value, i)
  {
    first := None;
    for i := 0 to |rs|
      invariant first.None? ==> forall j: nat :: j < i ==> !Due(rs, now, skip, j)
      invariant first.Some? ==> first.value < i && Due(rs, now, skip, first.value)
      invariant first.Some? ==> forall j: nat :: j < i && Due(rs, now, skip, j) ==> Sooner(rs, first.value, j)
    {
      if Due(rs, now, skip, i) && (first.None? || rs[i].expiresAt < rs[first.value].expiresAt) {
        first := Some(i);
      }
    }
  }

  method SelectDue(rs: seq<Reservation>, now: int, limit: nat, locked: set<nat>) returns (picked: seq<nat>)
    ensures IsDueBatch(rs, now, limit, locked, picked)
  {
    picked := [];
    var skip := locked;
    while |picked| < limit
      invariant |picked| <= limit
      invariant skip == locked + IdSet(picked)
      invariant forall k :: 0 <= k < |picked| ==> Due(rs, now, locked, picked[k])
      invariant forall k, m :: 0 <= k < m < |picked| ==> picked[k] != picked[m] && Sooner(rs, picked[k], picked[m])
      invariant forall i: nat, k :: Due(rs, now, skip, i) && 0 <= k < |picked| ==> Sooner(rs, picked[k], i)
      decreases limit - |picked|
    {
      var next := FirstDue(rs, now, skip);
      if next.None? {
        break;
      }
      IdSetSnoc(picked, next.value);
      ghost var (before, skipped) := (picked, skip);
      picked := picked + [next.value];
      skip := skip + {next.value};
      forall i: nat, k | Due(rs, now, skip, i) && 0 <= k < |picked|
        ensures Sooner(rs, picked[k], i)
      {
        assert Due(rs, now, skipped, i);
        assert k < |before| ==> Sooner(rs, before[k], i);
      }
    }
    forall i: nat | Due(rs, now, locked, i) && i !in picked
      ensures Due(rs, now, skip, i)
    {
    }
  }

  lemma IdSetSnoc(order: seq<nat>, id: nat)
    ensures IdSet(order + [id]) == IdSet(order) + {id}
  {
    var longer := order + [id];
    assert forall i :: 0 <= i < |order| ==> longer[i] == order[i];
    forall x | x in IdSet(order) + {id} ensures x in IdSet(longer) {
      if x == id {
        assert longer[|order|] == id;
      } else {
        var i :| 0 <= i < |order| && order[i] == x;
        assert longer[i] == x;
      }
    }
  }

  /** sum(outstanding) over the batch arrays for one group. */
  function ArraySum(ws: seq<string>, periods: seq<string>, keys: seq<string>, outstanding: seq<int>, ck: CounterKey)
    : int
    requires |ws| == |periods| == |keys| == |outstanding|
  {
    if ws == [] then 0
    else
      var n := |ws| - 1;
      ArraySum(ws[..n], periods[..n], keys[..n], outstanding[..n], ck)
      + if CounterKey(ws[n], periods[n], keys[n]) == ck then outstanding[n] else 0
  }

  ghost predicate ArraysDescribe(rs: seq<Reservation>, picked: seq<nat>,
                                 ws: seq<string>, periods: seq<string>, keys: seq<string>, outstanding: seq<int>)
  {
    && |ws| == |periods| == |keys| == |outstanding| == |picked|
    && (forall k :: 0 <= k < |picked| ==>
          && picked[k] < |rs|
          && CounterKey(ws[k], periods[k], keys[k]) == rs[picked[k]].CounterOf()
          && outstanding[k] == rs[picked[k]].Outstanding())
  }

  lemma {:induction false} ArraySumIsGroupSum(rs: seq<Reservation>, picked: seq<nat>, ws: seq<string>,
                                              periods: seq<string>, keys: seq<string>, outstanding: seq<int>,
                                              ck: CounterKey)
    requires ArraysDescribe(rs, picked, ws, periods, keys, outstanding)
    requires forall k, m :: 0 <= k < m < |picked| ==> picked[k] != picked[m]
    ensures ArraySum(ws, periods, keys, outstanding, ck) == GroupSum(rs, IdSet(picked), ck)
  {
    if picked == [] {
      assert IdSet(picked) == {};
      GroupSumAbsent(rs, {}, ck);
    } else {
      var n := |picked| - 1;
      ArraySumIsGroupSum(rs, picked[..n], ws[..n], periods[..n], keys[..n], outstanding[..n], ck);
      IdSetSnoc(picked[..n], picked[n]);
      assert picked[..n] + [picked[n]] == picked;
      GroupSumSplit(rs, IdSet(picked[..n]), picked[n], ck);
      GroupSumSingle(rs, picked[n], ck);
    }
  }

  lemma {:induction false} GroupSumSingle(rs: seq<Reservation>, id: nat, ck: CounterKey)
    requires id < |rs|
    ensures GroupSum(rs, {id}, ck) == if rs[id].CounterOf() == ck then rs[id].Outstanding() else 0
  {
    var n := |rs| - 1;
    if id == n {
      GroupSumAbsent(rs[..n], {id}, ck);
    } else {
      GroupSumSingle(rs[..n], id, ck);
    }
  }

  predicate Listed(ws: seq<string>, periods: seq<string>, keys: seq<string>, ck: CounterKey)
    requires |ws| == |periods| == |keys|
  {
    exists j :: 0 <= j < |ws| && CounterKey(ws[j], periods[j], keys[j]) == ck
  }

  /** The counters after the grouped update of one batch. */
  function GroupedCounters(counters: map<CounterKey, Counter>,
                           ws: seq<string>, periods: seq<string>, keys: seq<string>, outstanding: seq<int>)
    : map<CounterKey, Counter>
    requires |ws| == |periods| == |keys| == |outstanding|
  {
    map ck | ck in counters ::
      if Listed(ws, periods, keys, ck)
      then counters[ck].(reserved := Max(0, counters[ck].reserved - ArraySum(ws, periods, keys, outstanding, ck)))
      else counters[ck]
  }

  /** One counter of the batch. */
  lemma GroupedCounterExpires(t: Tables, picked: seq<nat>,
                              ws: seq<string>, periods: seq<string>, keys: seq<string>, outstanding: seq<int>,
                              ck: CounterKey)
    requires ArraysDescribe(t.reservations, picked, ws, periods, keys, outstanding) && ck in t.counters
    requires forall i, j :: 0 <= i < j < |picked| ==> picked[i] != picked[j]
    ensures GroupedCounters(t.counters, ws, periods, keys, outstanding)[ck] == ExpireSpec(t, IdSet(picked)).counters[ck]
  {
    ArraySumIsGroupSum(t.reservations, picked, ws, periods, keys, outstanding, ck);
    ListedIffPicked(t.reservations, picked, ws, periods, keys, outstanding, ck);
  }

  lemma ListedIffPicked(rs: seq<Reservation>, picked: seq<nat>,
                        ws: seq<string>, periods: seq<string>, keys: seq<string>, outstanding: seq<int>, ck: CounterKey)
    requires ArraysDescribe(rs, picked, ws, periods, keys, outstanding)
    ensures Listed(ws, periods, keys, ck) <==> InBatch(rs, IdSet(picked), ck)
  {
    if j :| 0 <= j < |ws| && CounterKey(ws[j], periods[j], keys[j]) == ck {
      assert picked[j] in IdSet(picked);
    }
  }

  lemma GroupedCountersExpire(t: Tables, picked: seq<nat>,
                              ws: seq<string>, periods: seq<string>, keys: seq<string>, outstanding: seq<int>)
    requires ArraysDescribe(t.reservations, picked, ws, periods, keys, outstanding)
    requires forall i, j :: 0 <= i < j < |picked| ==> picked[i] != picked[j]
    ensures GroupedCounters(t.counters, ws, periods, keys, outstanding) == ExpireSpec(t, IdSet(picked)).counters
  {
    forall ck | ck in t.counters
      ensures GroupedCounters(t.counters, ws, periods, keys, outstanding)[ck]
              == ExpireSpec(t, IdSet(picked)).counters[ck]
    {
      GroupedCounterExpires(t, picked, ws, periods, keys, outstanding, ck);
    }
  }

  method BatchArrays(rs: seq<Reservation>, picked: seq<nat>)
    returns (ws: array<string>, periods: array<string>, keys: array<string>, outstanding: array<int>)
    requires forall k :: 0 <= k < |picked| ==> picked[k] < |rs|
    ensures ArraysDescribe(rs, picked, ws[..], periods[..], keys[..], outstanding[..])
  {
    ws, periods := new string[|picked|], new string[|picked|];
    keys, outstanding := new string[|picked|], new int[|picked|];
    for i := 0 to |picked|
      invariant forall k :: 0 <= k < i ==>
                  && CounterKey(ws[k], periods[k], keys[k]) == rs[picked[k]].CounterOf()
                  && outstanding[k] == rs[picked[k]].Outstanding()
    {
      var r := rs[picked[i]];
      ws[i], periods[i], keys[i], outstanding[i] := r.workspace, r.periodKey, r.quotaKey, r.Outstanding();
    }
  }

  function OutcomeOf(r: Result<Hold, Failure>, failOpen: bool): Outcome {
    match r
    case Ok(h) => if h.replay then Replayed(h.id) else Placed(h.id)
    case Err(e) => if e == Unavailable && failOpen then Degraded else Failed(e)
  }

  class Service {
    var counters: map<CounterKey, Counter>
    var reservations: seq<Reservation>
    var grants: seq<Grant>
    var consumed: set<IdemKey>
    var plans: map<string, Plan>

    function View(): Tables
      reads this
    {
      Tables(counters, reservations, grants, consumed, plans)
    }

    constructor (plans: map<string, Plan>)
      ensures View() == EMPTY.(plans := plans)
    {
      counters, reservations, grants, consumed := map[], [], [], {};
      this.plans := plans;
    }

    method ConsumeOnce(ck: CounterKey, n: int, limit: int, soft: bool) returns (applied: Result<bool, Failure>)
      modifies this`counters
      ensures match (if soft then SoftUpsert(old(View()), ck, n) else HardUpsert(old(View()), ck, n, limit))
              case Ok((t, b)) => View() == t && applied == Ok(b)
              case Err(e) => View() == old(View()) && applied == Err(e)
    {
      var c := if ck in counters then counters[ck] else Counter(0, 0);
      if soft {
        if !Fits64(c.used + n) {
          return Err(Unavailable);
        }
        counters := counters[ck := c.(used := c.used + n)];
        return Ok(true);
      }
      var capacity := limit + Granted(grants, ck);
      if n > capacity {
        return Ok(false);
      }
      if ck !in counters {
        counters := counters[ck := Counter(n, 0)];
        return Ok(true);
      }
      if !Fits64(c.used + n) || !Fits64(c.used + n + c.reserved) {
        return Err(Unavailable);
      }
      if c.used + n + c.reserved > capacity {
        return Ok(false);
      }
      counters := counters[ck := c.(used := c.used + n)];
      return Ok(true);
    }

    method Consume(workspace: string, key: string, n: int, period: string, idem: string)
      returns (replay: Result<bool, Failure>)
      modifies this
      ensures (View(), replay) == ConsumeSpec(old(View()), CounterKey(workspace, period, key), n, idem)
    {
      if n <= 0 {
        return Err(Invalid);
      }
      var limit := LimitFor(plans, workspace, key);
      var soft := IsSoft(plans, workspace);
      var ck := CounterKey(workspace, period, key);
      if idem != "" {
        replay := ConsumeIdem(ck, n, limit, soft, idem);
        return;
      }
      var applied := ConsumeOnce(ck, n, limit, soft);
      if applied.Err? {
        return Err(applied.error);
      }
      if !applied.value {
        return Err(Exhausted);
      }
      return Ok(false);
    }

    /** The keyed transaction: the key is inserted first and rolled back with a refusal. */
    method ConsumeIdem(ck: CounterKey, n: int, limit: int, soft: bool, idem: string)
      returns (replay: Result<bool, Failure>)
      requires n > 0 && idem != "" && limit == LimitFor(plans, ck.workspace, ck.key)
               && soft == IsSoft(plans, ck.workspace)
      modifies this
      ensures (View(), replay) == ConsumeSpec(old(View()), ck, n, idem)
    {
      var k := IdemKey(ck.workspace, ck.key, idem);
      if k in consumed {
        return Ok(true);
      }
      var rollback := consumed;
      consumed := consumed + {k};
      var applied := ConsumeOnce(ck, n, limit, soft);
      if applied != Ok(true) {
        consumed := rollback;
        return Err(if applied.Ok? then Exhausted else applied.error);
      }
      return Ok(false);
    }

    /** The decision of a reservation whose counter row is locked, including the charge's own overflow. */
    method Decide(ghost t: Tables, ck: CounterKey, seen: Counter, amount: int, idem: string, expiresAt: int)
      returns (refused: Option<Failure>)
      requires amount > 0 && idem != "" && t.plans == plans && t.grants == grants && t.CounterAt(ck) == seen
      requires FindIdem(t.reservations, IdemKey(ck.workspace, ck.key, idem)).None?
      ensures refused.Some? ==> ReserveSpec(t, ck, amount, idem, expiresAt) == (t, Err(refused.value))
      ensures refused.None? ==>
                ReserveSpec(t, ck, amount, idem, expiresAt)
                == (t.(counters := t.counters[ck := seen.(reserved := seen.reserved + amount)],
                       reservations := t.reservations + [NewReservation(ck, amount, idem, expiresAt)]),
                    Ok(Hold(|t.reservations|, false)))
    {
      var limit := LimitFor(plans, ck.workspace, ck.key);
      var granted := Granted(grants, ck);
      if !Fits64(granted) {
        return Some(Unavailable);
      }
      var avail := Available(limit, granted, seen);
      if avail < amount {
        return Some(Exhausted);
      }
      return if Fits64(seen.reserved + amount) then None else Some(Unavailable);
    }

    /** The transaction of a reservation; every return without a commit rolls back. */
    method ReserveTx(ck: CounterKey, amount: int, idem: string, expiresAt: int) returns (r: Result<Hold, Failure>)
      requires amount > 0 && idem != ""
      modifies this
      ensures (View(), r) == ReserveSpec(old(View()), ck, amount, idem, expiresAt)
    {
      ghost var before := View();
      var rollback := counters;
      if ck !in counters {
        counters := counters[ck := Counter(0, 0)];
      }
      var seen := counters[ck];
      var known := FindIdem(reservations, IdemKey(ck.workspace, ck.key, idem));
      if known.Some? {
        counters := rollback;
        return Ok(Hold(known.value, true));
      }
      var refused := Decide(before, ck, seen, amount, idem, expiresAt);
      if refused.Some? {
        counters := rollback;
        return Err(refused.value);
      }
      counters := counters[ck := seen.(reserved := seen.reserved + amount)];
      assert counters == before.counters[ck := seen.(reserved := seen.reserved + amount)];
      reservations := reservations + [NewReservation(ck, amount, idem, expiresAt)];
      return Ok(Hold(|reservations| - 1, false));
    }

    method Reserve(workspace: string, key: string, amount: int, period: string, idem: string,
                   expiresAt: int, failOpen: bool) returns (outcome: Outcome)
      modifies this
      ensures var (t, r) := ReserveSpec(old(View()), CounterKey(workspace, period, key), amount, idem, expiresAt);
              View() == t && outcome == OutcomeOf(r, failOpen)
    {
      if amount <= 0 || idem == "" {
        return Failed(Invalid);
      }
      var known := FindIdem(reservations, IdemKey(workspace, key, idem));
      if known.Some? {
        return Replayed(known.value);
      }
      var r := ReserveTx(CounterKey(workspace, period, key), amount, idem, expiresAt);
      if r.Err? {
        return if r.error == Unavailable && failOpen then Degraded else Failed(r.error);
      }
      return if r.value.replay then Replayed(r.value.id) else Placed(r.value.id);
    }

    method Settle(id: nat, actual: int, idem: string) returns (r: Result<Settlement, Failure>)
      modifies this
      ensures (View(), r) == SettleSpec(old(View()), id, actual, idem)
    {
      if actual < 0 || idem == "" {
        return Err(Invalid);
      }
      if id >= |reservations| {
        return Err(NotFound);
      }
      var row := reservations[id];
      match row.status {
        case Settled =>
          if row.settleKey == Some(idem) {
            return Ok(Settlement(row.settledAmount, true));
          }
          return Err(Conflict);
        case Released => return Err(Conflict);
        case Expired => return Err(Conflict);
        case Reserved =>
      }
      var ck := row.CounterOf();
      if ck in counters {
        var c := counters[ck];
        if !Fits64(c.used + actual) {
          return Err(Unavailable);
        }
        counters := counters[ck := Counter(c.used + actual, Max(0, c.reserved - row.Outstanding()))];
      } else {
        if !Fits64(actual) {
          return Err(Unavailable);
        }
        counters := counters[ck := Counter(actual, 0)];
      }
      reservations := reservations[id := row.(status := Settled, settledAmount := actual, settleKey := Some(idem))];
      return Ok(Settlement(actual, false));
    }

    method ReleaseReservation(id: nat, amount: int, idem: string) returns (r: Result<Giveback, Failure>)
      modifies this
      ensures (View(), r) == ReleaseHoldSpec(old(View()), id, amount, idem)
    {
      if idem == "" {
        return Err(Invalid);
      }
      if id >= |reservations| {
        return Err(NotFound);
      }
      var row := reservations[id];
      if idem in row.releaseKeys {
        return Ok(Giveback(0, row.Outstanding(), true));
      }
      if row.status != Reserved {
        return Err(Conflict);
      }
      var amt := amount;
      if amt <= 0 {
        amt := row.Outstanding();
      }
      if amt > row.Outstanding() {
        amt := row.Outstanding();
      }
      var ck := row.CounterOf();
      if ck in counters {
        counters := counters[ck := counters[ck].(reserved := Max(0, counters[ck].reserved - amt))];
      }
      reservations := reservations[id := row.(
        releasedAmount := row.releasedAmount + amt,
        releaseKeys := row.releaseKeys + [idem],
        status := if row.releasedAmount + amt >= row.amount then Released else row.status)];
      return Ok(Giveback(amt, row.Outstanding() - amt, false));
    }

    /** locked are the rows other transactions hold; the statement skips them. */
    method ExpireDueReservations(now: int, limit: int, locked: set<nat>) returns (picked: seq<nat>)
      modifies this
      ensures IsDueBatch(old(reservations), now, if limit <= 0 then 100 else limit, locked, picked)
      ensures View() == ExpireSpec(old(View()), IdSet(picked))
    {
      picked := SelectDue(reservations, now, if limit <= 0 then 100 else limit, locked);
      var rs := reservations;
      reservations := ExpireRows(rs, IdSet(picked));
      if |picked| == 0 {
        assert counters == ExpireSpec(old(View()), {}).counters;
        return;
      }
      var ws, periods, keys, outstanding := BatchArrays(rs, picked);
      GroupedCountersExpire(old(View()), picked, ws[..], periods[..], keys[..], outstanding[..]);
      counters := GroupedCounters(counters, ws[..], periods[..], keys[..], outstanding[..]);
    }

    /** Gives back consumed units of the current period. */
    method Release(ck: CounterKey, n: int) returns (r: Result<(), Failure>)
      modifies this`counters
      ensures (View(), r) == UnconsumeSpec(old(View()), ck, n)
    {
      if ck in counters {
        if !Fits64(counters[ck].used - n) {
          return Err(Unavailable);
        }
        counters := counters[ck := counters[ck].(used := Max(0, counters[ck].used - n))];
      }
      return Ok(());
    }

    method Grant(g: Grant, blankRef: bool) returns (unlocked: Result<bool, Failure>)
      modifies this`grants
      ensures (View(), unlocked) == GrantSpec(old(View()), g, blankRef)
    {
      if blankRef {
        return Err(Invalid);
      }
      for i := 0 to |grants|
        invariant forall j :: 0 <= j < i ==> !grants[j].SameDedupKey(g)
      {
        if grants[i].SameDedupKey(g) {
          return Ok(false);
        }
      }
      grants := grants + [g];
      return Ok(true);
    }
  }
}
