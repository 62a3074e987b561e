/** The ledger invariant: each counter's reserved column is what its open reservations still hold. */
module QuotaLedger {
  import opened Common
  import opened QuotaTables

  /** The lifecycle invariant of one reservation row. */
  predicate RowOk(r: Reservation) {
    && 0 < r.amount
    && 0 <= r.releasedAmount <= r.amount
    && (r.status == Released <==> r.releasedAmount == r.amount)
  }

  ghost predicate RowsOk(rs: seq<Reservation>) {
    && (forall i :: 0 <= i < |rs| ==> RowOk(rs[i]))
    && (forall i, j :: 0 <= i < j < |rs| ==> rs[i].Idem() != rs[j].Idem())
  }

  ghost predicate CounterMatches(t: Tables, ck: CounterKey) {
    t.CounterAt(ck).used >= 0 && t.CounterAt(ck).reserved == Held(t.reservations, ck)
  }

  ghost predicate CountersMatch(t: Tables) {
    forall ck :: CounterMatches(t, ck)
  }

  ghost predicate LedgerInv(t: Tables) {
    RowsOk(t.reservations) && CountersMatch(t)
  }

  // ---- sums --------------------------------------------------------------

  lemma {:induction false} HeldUpdate(rs: seq<Reservation>, i: nat, r: Reservation, ck: CounterKey)
    requires i < |rs|
    ensures Held(rs[i := r], ck) == Held(rs, ck) - Share(rs[i], ck) + Share(r, ck)
  {
    var n := |rs| - 1;
    if i == n {
      assert rs[i := r][..n] == rs[..n];
    } else {
      assert rs[i := r][..n] == rs[..n][i := r];
      HeldUpdate(rs[..n], i, r, ck);
    }
  }

  lemma HeldAppend(rs: seq<Reservation>, r: Reservation, ck: CounterKey)
    ensures Held(rs + [r], ck) == Held(rs, ck) + Share(r, ck)
  {
    assert (rs + [r])[..|rs|] == rs;
  }

  lemma {:induction false} HeldNonNegative(rs: seq<Reservation>, ck: CounterKey)
    requires forall i :: 0 <= i < |rs| ==> RowOk(rs[i])
    ensures Held(rs, ck) >= 0
  {
    if rs != [] {
      HeldNonNegative(rs[..|rs| - 1], ck);
    }
  }

  /** One open row never holds more than its counter's total. */
  lemma {:induction false} HeldCoversRow(rs: seq<Reservation>, i: nat)
    requires i < |rs|
    requires forall j :: 0 <= j < |rs| ==> RowOk(rs[j])
    ensures Share(rs[i], rs[i].CounterOf()) <= Held(rs, rs[i].CounterOf())
  {
    var n := |rs| - 1;
    if i == n {
      HeldNonNegative(rs[..n], rs[i].CounterOf());
    } else {
      HeldCoversRow(rs[..n], i);
      assert rs[..n][i] == rs[i];
    }
  }

  lemma {:induction false} HeldAfterExpire(rs: seq<Reservation>, ids: set<nat>, ck: CounterKey)
    requires forall i :: i in ids && i < |rs| ==> rs[i].status == Reserved
    ensures Held(ExpireRows(rs, ids), ck) == Held(rs, ck) - GroupSum(rs, ids, ck)
  {
    if rs != [] {
      var n := |rs| - 1;
      assert ExpireRows(rs, ids)[..n] == ExpireRows(rs[..n], ids);
      HeldAfterExpire(rs[..n], ids, ck);
    }
  }

  lemma {:induction false} GroupSumAbsent(rs: seq<Reservation>, ids: set<nat>, ck: CounterKey)
    requires forall i :: i in ids && i < |rs| ==> rs[i].CounterOf() != ck
    ensures GroupSum(rs, ids, ck) == 0
  {
    if rs != [] {
      GroupSumAbsent(rs[..|rs| - 1], ids, ck);
    }
  }

  lemma {:induction false} GroupSumNonNegative(rs: seq<Reservation>, ids: set<nat>, ck: CounterKey)
    requires forall i :: 0 <= i < |rs| ==> RowOk(rs[i])
    ensures GroupSum(rs, ids, ck) >= 0
  {
    if rs != [] {
      GroupSumNonNegative(rs[..|rs| - 1], ids, ck);
    }
  }

  /** A batch never gives back more than its counter holds. */
  lemma GroupSumCovered(t: Tables, ids: set<nat>, ck: CounterKey)
    requires LedgerInv(t) && Expirable(t.reservations, ids)
    ensures GroupSum(t.reservations, ids, ck) <= t.CounterAt(ck).reserved
  {
    HeldAfterExpire(t.reservations, ids, ck);
    HeldNonNegative(ExpireRows(t.reservations, ids), ck);
    assert CounterMatches(t, ck);
  }

  // ---- clamps never bite -------------------------------------------------

  /** What one open reservation still holds is covered by its own counter's reserved column,
      whatever month it is settled or released in; so that counter row exists. */
  lemma ClampNeverBites(t: Tables, id: nat)
    requires LedgerInv(t) && id < |t.reservations| && t.reservations[id].status == Reserved
    ensures var r := t.reservations[id];
            && r.CounterOf() in t.counters
            && 0 < r.Outstanding() <= t.counters[r.CounterOf()].reserved
  {
    HeldCoversRow(t.reservations, id);
    assert CounterMatches(t, t.reservations[id].CounterOf());
  }

  // ---- every operation keeps the invariant -------------------------------

  /** A change that leaves rows and reserved columns alone and no used column negative. */
  lemma SameHoldsKeepLedger(t: Tables, t': Tables)
    requires LedgerInv(t) && t'.reservations == t.reservations
    requires forall k :: t'.CounterAt(k).used >= 0 && t'.CounterAt(k).reserved == t.CounterAt(k).reserved
    ensures LedgerInv(t')
  {
    forall k ensures CounterMatches(t', k) {
      assert CounterMatches(t, k);
    }
  }

  lemma ConsumeKeepsHolds(t: Tables, ck: CounterKey, n: int, idem: string, k: CounterKey)
    requires CounterMatches(t, k) && CounterMatches(t, ck) && RowsOk(t.reservations)
    ensures var t' := ConsumeSpec(t, ck, n, idem).0;
            && t'.reservations == t.reservations
            && t'.CounterAt(k).used >= 0 && t'.CounterAt(k).reserved == t.CounterAt(k).reserved
  {
  }

  lemma ConsumeKeepsLedger(t: Tables, ck: CounterKey, n: int, idem: string)
    requires LedgerInv(t)
    ensures LedgerInv(ConsumeSpec(t, ck, n, idem).0)
  {
    var t' := ConsumeSpec(t, ck, n, idem).0;
    forall k ensures t'.CounterAt(k).used >= 0 && t'.CounterAt(k).reserved == t.CounterAt(k).reserved {
      assert CounterMatches(t, k) && CounterMatches(t, ck);
      ConsumeKeepsHolds(t, ck, n, idem, k);
    }
    assert CounterMatches(t, ck);
    ConsumeKeepsHolds(t, ck, n, idem, ck);
    SameHoldsKeepLedger(t, t');
  }

  /** A new row under a key no row has yet, charged to its counter. */
  lemma ChargeKeepsLedger(t: Tables, ck: CounterKey, amount: int, row: Reservation, t': Tables)
    requires LedgerInv(t) && 0 < amount
    requires row.CounterOf() == ck && row.amount == amount && row.releasedAmount == 0 && row.status == Reserved
    requires forall i :: 0 <= i < |t.reservations| ==> t.reservations[i].Idem() != row.Idem()
    requires t' == t.(counters := t.counters[ck := Counter(t.CounterAt(ck).used, t.CounterAt(ck).reserved + amount)],
                      reservations := t.reservations + [row])
    ensures LedgerInv(t')
  {
    forall k ensures CounterMatches(t', k) {
      HeldAppend(t.reservations, row, k);
      assert CounterMatches(t, k);
    }
  }

  lemma ReserveKeepsLedger(t: Tables, ck: CounterKey, amount: int, idem: string, expiresAt: int)
    requires LedgerInv(t)
    ensures LedgerInv(ReserveSpec(t, ck, amount, idem, expiresAt).0)
  {
    var (t', res) := ReserveSpec(t, ck, amount, idem, expiresAt);
    if res.Ok? && !res.value.replay {
      ChargeKeepsLedger(t, ck, amount, NewReservation(ck, amount, idem, expiresAt), t');
    }
  }

  lemma SettleKeepsLedger(t: Tables, id: nat, actual: int, idem: string)
    requires LedgerInv(t)
    ensures LedgerInv(SettleSpec(t, id, actual, idem).0)
  {
    var (t', res) := SettleSpec(t, id, actual, idem);
    if res.Ok? && !res.value.replay {
      ClampNeverBites(t, id);
      forall k ensures CounterMatches(t', k) {
        HeldUpdate(t.reservations, id, t'.reservations[id], k);
        assert CounterMatches(t, k);
      }
    }
  }

  lemma ReleaseHoldKeepsLedger(t: Tables, id: nat, amount: int, idem: string)
    requires LedgerInv(t)
    ensures LedgerInv(ReleaseHoldSpec(t, id, amount, idem).0)
  {
    var (t', res) := ReleaseHoldSpec(t, id, amount, idem);
    if res.Ok? && !res.value.replay {
      ClampNeverBites(t, id);
      forall k ensures CounterMatches(t', k) {
        HeldUpdate(t.reservations, id, t'.reservations[id], k);
        assert CounterMatches(t, k);
      }
    }
  }

  /** A counter of a batch gives back its grouped sum, also where that is nothing. */
  lemma ExpireGivesBack(t: Tables, ids: set<nat>, k: CounterKey)
    requires LedgerInv(t) && Expirable(t.reservations, ids)
    ensures ExpireSpec(t, ids).CounterAt(k)
            == Counter(t.CounterAt(k).used, t.CounterAt(k).reserved - GroupSum(t.reservations, ids, k))
  {
    GroupSumCovered(t, ids, k);
    if k in t.counters {
      if !InBatch(t.reservations, ids, k) {
        GroupSumAbsent(t.reservations, ids, k);
      }
    } else {
      GroupSumNonNegative(t.reservations, ids, k);
    }
  }

  lemma ExpireKeepsLedger(t: Tables, ids: set<nat>)
    requires LedgerInv(t) && Expirable(t.reservations, ids)
    ensures LedgerInv(ExpireSpec(t, ids))
  {
    forall k ensures CounterMatches(ExpireSpec(t, ids), k) {
      ExpireGivesBack(t, ids, k);
      HeldAfterExpire(t.reservations, ids, k);
      assert CounterMatches(t, k);
    }
  }

  lemma UnconsumeKeepsLedger(t: Tables, ck: CounterKey, n: int)
    requires LedgerInv(t)
    ensures LedgerInv(UnconsumeSpec(t, ck, n).0)
  {
    var t' := UnconsumeSpec(t, ck, n).0;
    forall k ensures t'.CounterAt(k).used >= 0 && t'.CounterAt(k).reserved == t.CounterAt(k).reserved {
      assert CounterMatches(t, k);
    }
    SameHoldsKeepLedger(t, t');
  }

  lemma GrantKeepsLedger(t: Tables, g: Grant, blankRef: bool)
    requires LedgerInv(t)
    ensures LedgerInv(GrantSpec(t, g, blankRef).0)
  {
    var t' := GrantSpec(t, g, blankRef).0;
    forall k ensures t'.CounterAt(k).used >= 0 && t'.CounterAt(k).reserved == t.CounterAt(k).reserved {
      assert CounterMatches(t, k);
    }
    SameHoldsKeepLedger(t, t');
  }

  // ---- the hard upsert ---------------------------------------------------

  /** The two-branch statement affects a row exactly when the units fit under the capacity,
      a missing counter row counting as zeros. */
  lemma HardUpsertAppliesIffFits(t: Tables, ck: CounterKey, n: int, limit: int)
    requires LedgerInv(t) && 0 < n
    ensures match HardUpsert(t, ck, n, limit)
            case Ok((t', applied)) =>
              && (applied <==> t.CounterAt(ck).used + t.CounterAt(ck).reserved + n <= limit + Granted(t.grants, ck))
              && (if applied
                  then t' == t.(counters :=
                                t.counters[ck := Counter(t.CounterAt(ck).used + n, t.CounterAt(ck).reserved)])
                  else t' == t)
            case Err(e) => !Fits64(t.CounterAt(ck).used + t.CounterAt(ck).reserved + n)
  {
    assert CounterMatches(t, ck);
    HeldNonNegative(t.reservations, ck);
  }

  /** A value of the counter row and of the plan that fits its 64-bit columns; a negative limit in the
      plan has been taken for unlimited. */
  predicate Columns(limit: int, grants: int, c: Counter, amount: int) {
    && 0 <= limit <= INT64_MAX && Fits64(grants) && 0 <= c.used <= INT64_MAX && 0 <= c.reserved <= INT64_MAX
    && 0 < amount <= INT64_MAX
  }

  /** Go's availability test is wrong in two intervals and right everywhere else: it refuses units that
      fit exactly when the true difference exceeds int64, and admits units that do not fit exactly
      when the counter is over its capacity by more than 2^63 and at most 2^64 - amount. */
  lemma AvailabilityDecidesRightlyIff(limit: int, grants: int, c: Counter, amount: int)
    requires Columns(limit, grants, c, amount)
    ensures var (over, admitted) := (c.used + c.reserved - limit - grants, Available(limit, grants, c) >= amount);
            && (!admitted && over + amount <= 0 <==> -over > INT64_MAX)
            && (admitted && over + amount > 0 <==> TWO64 / 2 < over <= TWO64 - amount)
  {
    AvailableIsWrapped(limit, grants, c);
  }

  /** So it never admits what does not fit on a counter at most 2^63 over its capacity. */
  lemma AvailabilityNeverOverAdmits(limit: int, grants: int, c: Counter, amount: int)
    requires Fits64(limit) && Fits64(grants) && 0 <= c.used && 0 <= c.reserved && 0 < amount
    requires c.used + c.reserved <= limit + grants - INT64_MIN
    ensures Available(limit, grants, c) >= amount ==> c.used + c.reserved + amount <= limit + grants
    ensures limit + grants <= INT64_MAX ==> Available(limit, grants, c) == limit + grants - c.used - c.reserved
    ensures limit == UNLIMITED && grants < UNLIMITED ==> limit + grants <= INT64_MAX
  {
    AvailableIsWrapped(limit, grants, c);
  }

  lemma AvailableIsWrapped(limit: int, grants: int, c: Counter)
    ensures Available(limit, grants, c) == Wrap64(limit + grants - c.used - c.reserved)
  {
    WrapAfterWrap(limit + grants, -c.used);
    WrapAfterWrap(limit + grants - c.used, -c.reserved);
  }
}
