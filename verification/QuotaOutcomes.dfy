/** What each call answers, decided by the fields it finds, and what a later call undoes. */
module QuotaOutcomes {
  import opened Common
  import opened QuotaTables
  import opened QuotaLedger
  import opened QuotaRuns

  // ---- the answers ------------------------------------------------------------

  /** A missing plan, or a key the plan does not name, counts as limit 0; a negative limit as 2^62. */
  lemma LimitMeaning(plans: map<string, Plan>, workspace: string, key: string)
    ensures workspace !in plans ==> LimitFor(plans, workspace, key) == 0 && !IsSoft(plans, workspace)
    ensures workspace in plans && key !in plans[workspace].limits ==> LimitFor(plans, workspace, key) == 0
    ensures workspace in plans && key in plans[workspace].limits ==>
              var limit := plans[workspace].limits[key];
              && (limit >= 0 ==> LimitFor(plans, workspace, key) == limit)
              && (limit < 0 ==> LimitFor(plans, workspace, key) == 4611686018427387904)
    ensures workspace in plans ==> (IsSoft(plans, workspace) <==> plans[workspace].soft)
  {
  }

  /** A consume is a replay exactly for a key that was used. Otherwise a soft plan lets it through unless
      used overflows; a hard plan exactly if it fits next to what the counter carries. */
  lemma ConsumeAnswers(t: Tables, ck: CounterKey, n: int, idem: string)
    requires LedgerInv(t) && n > 0
    ensures var (c, cap) := (t.CounterAt(ck), Capacity(t, ck));
            var (total, r) := (c.used + c.reserved + n, ConsumeSpec(t, ck, n, idem).1);
            if idem != "" && IdemKey(ck.workspace, ck.key, idem) in t.consumed then r == Ok(true)
            else if IsSoft(t.plans, ck.workspace) then r == if Fits64(c.used + n) then Ok(false) else Err(Unavailable)
            else
              && (r == Ok(false) <==> total <= cap && (ck in t.counters ==> Fits64(total)))
              && (r == Err(Exhausted) <==> n > cap || (ck in t.counters && Fits64(total) && total > cap))
              && (r == Err(Unavailable) <==> n <= cap && ck in t.counters && !Fits64(total))
  {
    assert CounterMatches(t, ck);
    HeldNonNegative(t.reservations, ck);
  }

  /** A reservation that is neither invalid nor a replay is admitted exactly if it fits, as long as
      capacity and counter are of ordinary size. */
  lemma ReserveAnswers(t: Tables, ck: CounterKey, amount: int, idem: string, x: int)
    requires LedgerInv(t) && amount > 0 && idem != "" && Fits64(Granted(t.grants, ck)) && Capacity(t, ck) <= INT64_MAX
    requires forall i :: 0 <= i < |t.reservations| ==> t.reservations[i].Idem() != IdemKey(ck.workspace, ck.key, idem)
    requires t.CounterAt(ck).used + t.CounterAt(ck).reserved <= Capacity(t, ck) + 0x8000_0000_0000_0000
    requires LimitFor(t.plans, ck.workspace, ck.key) <= INT64_MAX
    ensures var c := t.CounterAt(ck);
            ReserveSpec(t, ck, amount, idem, x).1
            == if c.used + c.reserved + amount <= Capacity(t, ck) then Ok(Hold(|t.reservations|, false))
               else Err(Exhausted)
  {
    var (limit, grants) := (LimitFor(t.plans, ck.workspace, ck.key), Granted(t.grants, ck));
    var avail := Available(limit, grants, t.CounterAt(ck));
    OrdinaryAvailability(t, ck, amount, limit, grants, avail);
    if avail >= amount {
      ReserveAdmits(t, ck, amount, idem, x, grants, avail);
    } else {
      ReserveExhausted(t, ck, amount, idem, x, grants, avail);
    }
  }

  lemma OrdinaryAvailability(t: Tables, ck: CounterKey, amount: int, limit: int, grants: int, avail: int)
    requires LedgerInv(t) && amount > 0 && limit == LimitFor(t.plans, ck.workspace, ck.key) <= INT64_MAX
    requires grants == Granted(t.grants, ck) && Fits64(grants) && limit + grants <= INT64_MAX
    requires t.CounterAt(ck).used + t.CounterAt(ck).reserved <= limit + grants + 0x8000_0000_0000_0000
    requires avail == Available(limit, grants, t.CounterAt(ck))
    ensures avail >= amount <==> t.CounterAt(ck).used + t.CounterAt(ck).reserved + amount <= limit + grants
    ensures avail >= amount ==> Fits64(t.CounterAt(ck).reserved + amount)
  {
    assert CounterMatches(t, ck);
    HeldNonNegative(t.reservations, ck);
    AvailabilityNeverOverAdmits(limit, grants, t.CounterAt(ck), amount);
  }

  /** avail is what the availability test computes. */
  lemma ReserveAdmits(t: Tables, ck: CounterKey, amount: int, idem: string, x: int, grants: int, avail: int)
    requires amount > 0 && idem != "" && FindIdem(t.reservations, IdemKey(ck.workspace, ck.key, idem)).None?
    requires grants == Granted(t.grants, ck) && Fits64(grants)
    requires avail == Available(LimitFor(t.plans, ck.workspace, ck.key), grants, t.CounterAt(ck)) && avail >= amount
    ensures ReserveSpec(t, ck, amount, idem, x).1
            == if Fits64(t.CounterAt(ck).reserved + amount) then Ok(Hold(|t.reservations|, false)) else Err(Unavailable)
  {
  }

  lemma ReserveExhausted(t: Tables, ck: CounterKey, amount: int, idem: string, x: int, grants: int, avail: int)
    requires amount > 0 && idem != "" && FindIdem(t.reservations, IdemKey(ck.workspace, ck.key, idem)).None?
    requires grants == Granted(t.grants, ck)
    requires avail == Available(LimitFor(t.plans, ck.workspace, ck.key), grants, t.CounterAt(ck))
    ensures !Fits64(grants) ==> ReserveSpec(t, ck, amount, idem, x) == (t, Err(Unavailable))
    ensures Fits64(grants) && avail < amount ==> ReserveSpec(t, ck, amount, idem, x) == (t, Err(Exhausted))
  {
  }

  /** Bad arguments are refused, and a used key is answered with the row that carries it. */
  lemma ReserveChecks(t: Tables, ck: CounterKey, amount: int, idem: string, x: int, i: nat)
    ensures amount <= 0 || idem == "" ==> ReserveSpec(t, ck, amount, idem, x) == (t, Err(Invalid))
    ensures amount > 0 && idem != "" && i < |t.reservations|
            && t.reservations[i].Idem() == IdemKey(ck.workspace, ck.key, idem) ==>
              var (t', r) := ReserveSpec(t, ck, amount, idem, x);
              && t' == t && r.Ok? && r.value.replay && r.value.id < |t.reservations|
              && t.reservations[r.value.id].Idem() == IdemKey(ck.workspace, ck.key, idem)
    ensures ConsumeSpec(t, ck, if amount > 0 then 0 else amount, idem) == (t, Err(Invalid))
  {
  }

  /** A settlement is judged by its arguments, then the row's status and key, then the sum. */
  lemma SettleAnswers(t: Tables, id: nat, actual: int, idem: string)
    ensures var r := SettleSpec(t, id, actual, idem).1;
            if actual < 0 || idem == "" then r == Err(Invalid)
            else if id >= |t.reservations| then r == Err(NotFound)
            else
              var row := t.reservations[id];
              match row.status
              case Reserved =>
                r == if Fits64(t.CounterAt(row.CounterOf()).used + actual) then Ok(Settlement(actual, false))
                     else Err(Unavailable)
              case Settled =>
                r == if row.settleKey == Some(idem) then Ok(Settlement(row.settledAmount, true)) else Err(Conflict)
              case _ => r == Err(Conflict)
  {
  }

  /** A settlement that is carried out moves its own counter, whatever that carries: the use is added, the
      hold taken off, never below 0; a counter that is not there yet starts with the use. */
  lemma SettleCounter(t: Tables, id: nat, actual: int, idem: string)
    requires SettleSpec(t, id, actual, idem).1 == Ok(Settlement(actual, false))
    ensures var (t', row) := (SettleSpec(t, id, actual, idem).0, t.reservations[id]);
            var ck := CounterKey(row.workspace, row.periodKey, row.quotaKey);
            var (c, left) := (t.CounterAt(ck), row.amount - row.releasedAmount);
            && (ck in t.counters ==>
                  t'.CounterAt(ck) == Counter(c.used + actual, if c.reserved >= left then c.reserved - left else 0))
            && (ck !in t.counters ==> t'.CounterAt(ck) == Counter(actual, 0))
            && (forall other :: other != ck ==> t'.CounterAt(other) == t.CounterAt(other))
            && t'.reservations
               == t.reservations[id := row.(status := Settled, settledAmount := actual, settleKey := Some(idem))]
  {
  }

  /** The hard statement fails exactly when one of the sums it forms leaves bigint, whatever the counter
      carries. */
  lemma HardUpsertFails(t: Tables, ck: CounterKey, n: int, limit: int)
    requires ck in t.counters && n <= limit + Granted(t.grants, ck)
    ensures HardUpsert(t, ck, n, limit) == Err(Unavailable) <==>
              var c := t.counters[ck]; !(Fits64(c.used + n) && Fits64(c.used + n + c.reserved))
  {
  }

  /** A release is judged by its key first: a known one is a replay whatever became of the row. */
  lemma ReleaseAnswers(t: Tables, id: nat, amount: int, idem: string)
    requires LedgerInv(t)
    ensures var r := ReleaseHoldSpec(t, id, amount, idem).1;
            if idem == "" then r == Err(Invalid)
            else if id >= |t.reservations| then r == Err(NotFound)
            else
              var (row, left) := (t.reservations[id], t.reservations[id].amount - t.reservations[id].releasedAmount);
              if idem in row.releaseKeys then r.Ok? && r.value.replay && r.value.released == 0
              else if row.status != Reserved then r == Err(Conflict)
              else if 0 < amount < left then r == Ok(Giveback(amount, left - amount, false))
              else r == Ok(Giveback(left, 0, false))
  {
  }

  /** Consumed units go back on an existing counter, never below 0; a grant counts at once. */
  lemma OtherAnswers(t: Tables, ck: CounterKey, n: int, g: Grant)
    ensures ck !in t.counters ==> UnconsumeSpec(t, ck, n) == (t, Ok(()))
    ensures ck in t.counters && !Fits64(t.counters[ck].used - n) ==> UnconsumeSpec(t, ck, n) == (t, Err(Unavailable))
    ensures ck in t.counters && Fits64(t.counters[ck].used - n) ==>
              var (t', r) := UnconsumeSpec(t, ck, n);
              && r.Ok? && t'.CounterAt(ck).reserved == t.CounterAt(ck).reserved
              && t'.CounterAt(ck).used == if n <= t.CounterAt(ck).used then t.CounterAt(ck).used - n else 0
    ensures GrantSpec(t, g, true) == (t, Err(Invalid))
    ensures GrantSpec(t, g, false).1 == Ok(true) ==>
              Capacity(GrantSpec(t, g, false).0, ck)
              == Capacity(t, ck)
                 + if g.workspace == ck.workspace && g.period == ck.period && g.key == ck.key then g.amount else 0
  {
    GrantAdds(t.grants, g, ck);
  }

  /** What the ledger says of a row. */
  lemma RowMeaning(t: Tables, i: nat)
    requires LedgerInv(t) && i < |t.reservations|
    ensures var r := t.reservations[i];
            && 0 < r.amount && 0 <= r.releasedAmount <= r.amount
            && (r.status == Released <==> r.releasedAmount == r.amount)
            && (r.status == Reserved ==> 0 < r.Outstanding())
  {
  }

  // ---- the row a reservation makes, and its end ---------------------------------

  /** The sweeper may take the new row exactly from its expiry time on. */
  lemma ReservedRow(t: Tables, ck: CounterKey, amount: int, idem: string, x: int)
    requires ReserveSpec(t, ck, amount, idem, x).1.Ok? && !ReserveSpec(t, ck, amount, idem, x).1.value.replay
    ensures var (t', id) := (ReserveSpec(t, ck, amount, idem, x).0, |t.reservations|);
            && id < |t'.reservations|
            && var row := t'.reservations[id];
               && row.CounterOf() == ck && row.Idem() == IdemKey(ck.workspace, ck.key, idem)
               && row.amount == row.Outstanding() == amount && row.settledAmount == row.releasedAmount == 0
               && row.status == Reserved && row.expiresAt == x
               && row.releaseKeys == [] && row.settleKey == None
  {
  }

  /** An expired row is closed: it settles no more, and gives nothing more back. */
  lemma ExpiredRowIsClosed(t: Tables, ids: set<nat>, id: nat, actual: nat, key: string)
    requires Expirable(t.reservations, ids) && id in ids && key != "" && key !in t.reservations[id].releaseKeys
    ensures var t' := ExpireSpec(t, ids);
            && t'.reservations[id].status == Expired
            && SettleSpec(t', id, actual, key) == (t', Err(Conflict))
            && ReleaseHoldSpec(t', id, actual, key) == (t', Err(Conflict))
  {
  }

  // ---- what a later call undoes ---------------------------------------------------

  /** Releasing what was just consumed restores the counter. */
  lemma ReleaseUndoesConsume(t: Tables, ck: CounterKey, n: int, idem: string)
    requires LedgerInv(t) && ConsumeSpec(t, ck, n, idem).1 == Ok(false) && Fits64(t.CounterAt(ck).used)
    ensures UnconsumeSpec(ConsumeSpec(t, ck, n, idem).0, ck, n).0.CounterAt(ck) == t.CounterAt(ck)
  {
    assert CounterMatches(t, ck);
  }

  /** The last row is an open hold on a counter that was c before it. */
  ghost predicate HoldsLast(t: Tables, ck: CounterKey, c: Counter) {
    && LedgerInv(t) && t.reservations != [] && c.reserved >= 0
    && var row := t.reservations[|t.reservations| - 1];
       && row.CounterOf() == ck && row.status == Reserved && row.releaseKeys == [] && row.settleKey == None
       && ck in t.counters && t.counters[ck] == Counter(c.used, c.reserved + row.Outstanding())
  }

  lemma ReserveHoldsLast(t: Tables, ck: CounterKey, amount: int, idem: string, x: int)
    requires LedgerInv(t)
    requires ReserveSpec(t, ck, amount, idem, x).1.Ok? && !ReserveSpec(t, ck, amount, idem, x).1.value.replay
    ensures HoldsLast(ReserveSpec(t, ck, amount, idem, x).0, ck, t.CounterAt(ck))
  {
    ReserveKeepsLedger(t, ck, amount, idem, x);
    ReservedRow(t, ck, amount, idem, x);
    assert CounterMatches(t, ck);
    HeldNonNegative(t.reservations, ck);
  }

  /** Releasing everything, or letting the hold expire, restores the counter; settling it leaves exactly
      the actual use. */
  lemma HoldEndsWithoutTrace(t: Tables, ck: CounterKey, c: Counter, key: string, actual: nat)
    requires HoldsLast(t, ck, c) && key != ""
    ensures var id: nat := |t.reservations| - 1;
            && ReleaseHoldSpec(t, id, 0, key).0.CounterAt(ck) == c
            && ExpireSpec(t, {id}).CounterAt(ck) == c
            && (Fits64(c.used + actual) ==>
                  SettleSpec(t, id, actual, key).0.CounterAt(ck) == Counter(c.used + actual, c.reserved))
  {
    var id: nat := |t.reservations| - 1;
    assert Expirable(t.reservations, {id});
    ExpireGivesBack(t, {id}, ck);
    GroupSumSingleton(t.reservations, id, ck);
  }

  lemma {:induction false} GroupSumSingleton(rs: seq<Reservation>, id: nat, ck: CounterKey)
    requires id < |rs|
    ensures GroupSum(rs, {id}, ck) == if rs[id].CounterOf() == ck then rs[id].Outstanding() else 0
  {
    var n := |rs| - 1;
    if id == n {
      GroupSumAbsent(rs[..n], {id}, ck);
    } else {
      GroupSumSingleton(rs[..n], id, ck);
    }
  }
}
