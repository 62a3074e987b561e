/** Retried calls: what a key remembers, what a closed row refuses, and what a pair of calls undoes. */
module QuotaReplays {
  import opened Common
  import opened QuotaTables
  import opened QuotaLedger
  import opened QuotaRuns

  // ---- the same call again -------------------------------------------------

  /** A release that succeeded is answered as a replay from then on, whatever the retry asks for, and
      frees nothing more. */
  lemma ReleaseReplays(t: Tables, id: nat, amount: int, idem: string, again: int)
    requires ReleaseHoldSpec(t, id, amount, idem).1.Ok?
    ensures var t' := ReleaseHoldSpec(t, id, amount, idem).0;
            && id < |t'.reservations|
            && ReleaseHoldSpec(t', id, again, idem) == (t', Ok(Giveback(0, t'.reservations[id].Outstanding(), true)))
  {
  }

  /** A settlement that succeeded is answered with its own amount from then on; under another key it is
      refused, and so is every release under a key the row does not know. */
  lemma SettleReplays(t: Tables, id: nat, actual: int, idem: string, again: nat, key: string)
    requires SettleSpec(t, id, actual, idem).1.Ok? && key != ""
    ensures var (t', first) := SettleSpec(t, id, actual, idem);
            && SettleSpec(t', id, again, idem) == (t', Ok(Settlement(first.value.actual, true)))
            && (key != idem ==> SettleSpec(t', id, again, key) == (t', Err(Conflict)))
            && id < |t'.reservations|
            && (key !in t'.reservations[id].releaseKeys ==> ReleaseHoldSpec(t', id, again, key) == (t', Err(Conflict)))
  {
  }

  /** A reservation that succeeded is answered with its id from then on, whatever amount, counter
      period and expiry the retry names. */
  lemma ReserveReplays(t: Tables, ck: CounterKey, amount: int, idem: string, x: int, again: int, period: string, y: int)
    requires ReserveSpec(t, ck, amount, idem, x).1.Ok? && again > 0
    ensures var (t', first) := ReserveSpec(t, ck, amount, idem, x);
            ReserveSpec(t', CounterKey(ck.workspace, period, ck.key), again, idem, y)
            == (t', Ok(Hold(first.value.id, true)))
  {
    var t' := ReserveSpec(t, ck, amount, idem, x).0;
    if !ReserveSpec(t, ck, amount, idem, x).1.value.replay {
      assert t'.reservations[|t'.reservations| - 1].Idem() == IdemKey(ck.workspace, ck.key, idem);
    }
  }

  /** A keyed consume that succeeded is a replay from then on. */
  lemma ConsumeReplays(t: Tables, ck: CounterKey, n: int, idem: string, again: int, period: string)
    requires ConsumeSpec(t, ck, n, idem).1.Ok? && idem != "" && again > 0
    ensures var t' := ConsumeSpec(t, ck, n, idem).0;
            ConsumeSpec(t', CounterKey(ck.workspace, period, ck.key), again, idem) == (t', Ok(true))
  {
  }

  /** A grant that was accepted is known from then on, whatever amount the retry names. */
  lemma GrantReplays(t: Tables, g: Grant, again: Grant)
    requires GrantSpec(t, g, false).1.Ok? && again.SameDedupKey(g)
    ensures var t' := GrantSpec(t, g, false).0; GrantSpec(t', again, false) == (t', Ok(false))
  {
    var t' := GrantSpec(t, g, false).0;
    if GrantSpec(t, g, false).1.value {
      assert t'.grants[|t.grants|].SameDedupKey(again);
    }
  }

  // ---- over whole runs -------------------------------------------------------

  predicate KnowsKey(t: Tables, id: nat, key: string) {
    id < |t.reservations| && key in t.reservations[id].releaseKeys
  }

  /** The operation is a release of this reservation, under this key, that goes through. */
  predicate ReleasesAfresh(t: Tables, op: Op, id: nat, key: string) {
    && op.ReleaseHold? && op.id == id && op.idem == key
    && ReleaseHoldSpec(t, id, op.amount, key).1.Ok? && !ReleaseHoldSpec(t, id, op.amount, key).1.value.replay
  }

  function FreshReleases(t: Tables, ops: seq<Op>, id: nat, key: string): nat
    decreases |ops|
  {
    if ops == [] then 0
    else (if ReleasesAfresh(t, ops[0], id, key) then 1 else 0) + FreshReleases(Apply(t, ops[0]), ops[1..], id, key)
  }

  lemma ReleaseKeyStays(t: Tables, op: Op, id: nat, key: string)
    requires Enabled(t, op)
    ensures KnowsKey(Apply(t, op), id, key) <==> KnowsKey(t, id, key) || ReleasesAfresh(t, op, id, key)
    ensures KnowsKey(t, id, key) ==> !ReleasesAfresh(t, op, id, key)
  {
  }

  /** Over any run at most one release per reservation and key goes through: exactly one if the run is
      what taught the row the key, none if the row knew it. */
  lemma {:induction false} KeyedReleaseFreesOnce(t: Tables, ops: seq<Op>, id: nat, key: string)
    requires RunEnabled(t, ops)
    ensures FreshReleases(t, ops, id, key) == if !KnowsKey(t, id, key) && KnowsKey(Run(t, ops), id, key) then 1 else 0
    ensures KnowsKey(t, id, key) ==> KnowsKey(Run(t, ops), id, key)
    decreases |ops|
  {
    if ops != [] {
      ReleaseKeyStays(t, ops[0], id, key);
      KeyedReleaseFreesOnce(Apply(t, ops[0]), ops[1..], id, key);
    }
  }

  predicate IsSettled(t: Tables, id: nat) {
    id < |t.reservations| && t.reservations[id].status == Settled
  }

  predicate SettlesNow(t: Tables, op: Op, id: nat) {
    op.Settle? && op.id == id && SettlesAfresh(t, id, op.amount, op.idem)
  }

  function FreshSettlements(t: Tables, ops: seq<Op>, id: nat): nat
    decreases |ops|
  {
    if ops == [] then 0
    else (if SettlesNow(t, ops[0], id) then 1 else 0) + FreshSettlements(Apply(t, ops[0]), ops[1..], id)
  }

  lemma SettledStays(t: Tables, op: Op, id: nat)
    requires Enabled(t, op)
    ensures IsSettled(Apply(t, op), id) <==> IsSettled(t, id) || SettlesNow(t, op, id)
  {
  }

  /** Over any run a reservation is settled at most once, under whatever keys. */
  lemma {:induction false} SettledAtMostOnce(t: Tables, ops: seq<Op>, id: nat)
    requires RunEnabled(t, ops)
    ensures FreshSettlements(t, ops, id) == if !IsSettled(t, id) && IsSettled(Run(t, ops), id) then 1 else 0
    ensures IsSettled(t, id) ==> IsSettled(Run(t, ops), id)
    decreases |ops|
  {
    if ops != [] {
      SettledStays(t, ops[0], id);
      SettledAtMostOnce(Apply(t, ops[0]), ops[1..], id);
    }
  }
}
