/** Metered dimensions of a plan and the overage arithmetic billed and previewed from them. */
module Metering {
  import opened Common
  import opened Ordering

  datatype Dim = Dim(name: string, unitCents: int, included: int)

  const PREFIX := "metered_"
  const UNIT := "_unit_cents"
  const INCLUDED := "_included"

  function UnitKey(name: string): string { PREFIX + name + UNIT }

  function IncludedKey(name: string): string { PREFIX + name + INCLUDED }

  function NameOf(d: Dim): string { d.name }

  predicate HasPrefix(s: string, p: string) { |p| <= |s| && s[..|p|] == p }

  predicate HasSuffix(s: string, p: string) { |p| <= |s| && s[|s| - |p|..] == p }

  // ---- meteredDims -------------------------------------------------------

  function LimitOr0(limits: map<string, int>, key: string): int {
    if key in limits then limits[key] else 0
  }

  /** The metered dimensions of a plan: priced ones only, with their included units or 0, in
      strictly ascending name order. */
  ghost predicate IsMeteredDims(limits: map<string, int>, dims: seq<Dim>) {
    && StrictlySortedBy(dims, NameOf)
    && (forall d :: d in dims <==>
          UnitKey(d.name) in limits && limits[UnitKey(d.name)] > 0
          && d.unitCents == limits[UnitKey(d.name)]
          && d.included == LimitOr0(limits, IncludedKey(d.name)))
  }

  /** The keys of the plan's limits that make a dimension. */
  lemma DimMeaning(limits: map<string, int>, dims: seq<Dim>, name: string, unit: int, included: int)
    requires IsMeteredDims(limits, dims)
    ensures var (u, i) := ("metered_" + name + "_unit_cents", "metered_" + name + "_included");
            Dim(name, unit, included) in dims <==>
              u in limits && limits[u] == unit > 0 && included == if i in limits then limits[i] else 0
  {
  }

  /** So the result does not depend on the order the map is walked in. */
  lemma MeteredDimsUnique(limits: map<string, int>, a: seq<Dim>, b: seq<Dim>)
    requires IsMeteredDims(limits, a) && IsMeteredDims(limits, b)
    ensures a == b
  {
    StrictIsSortedDistinct(a);
    StrictIsSortedDistinct(b);
    assert forall d :: d in a <==> d in b;
    SameMembersSameMultiset(a, b);
    DistinctKeysIdentify(a, NameOf);
    SortedUnique(a, b, NameOf);
  }

  lemma StrictIsSortedDistinct(dims: seq<Dim>)
    requires StrictlySortedBy(dims, NameOf)
    ensures SortedBy(dims, NameOf) && DistinctKeys(dims, NameOf)
  {
    forall i, j | 0 <= i < j < |dims| ensures NameOf(dims[i]) != NameOf(dims[j]) {
      LessIrreflexive(NameOf(dims[i]));
    }
  }

  lemma {:induction false} DistinctCount<T>(xs: seq<T>, key: T -> string, x: T)
    requires DistinctKeys(xs, key)
    ensures multiset(xs)[x] == if x in xs then 1 else 0
  {
    if xs != [] {
      var n := |xs| - 1;
      assert xs == xs[..n] + [xs[n]];
      DistinctCount(xs[..n], key, x);
    }
  }

  lemma SameMembersSameMultiset(a: seq<Dim>, b: seq<Dim>)
    requires DistinctKeys(a, NameOf) && DistinctKeys(b, NameOf) && forall d :: d in a <==> d in b
    ensures multiset(a) == multiset(b)
  {
    forall d ensures multiset(a)[d] == multiset(b)[d] {
      DistinctCount(a, NameOf, d);
      DistinctCount(b, NameOf, d);
    }
  }

  /** A key after its prefix and one suffix are cut. */
  lemma CutKey(k: string, suffix: string)
    requires HasPrefix(k, PREFIX) && HasSuffix(k[|PREFIX|..], suffix)
    ensures var rest := k[|PREFIX|..]; k == PREFIX + rest[..|rest| - |suffix|] + suffix
  {
    var rest := k[|PREFIX|..];
    assert k == PREFIX + rest;
    assert rest == rest[..|rest| - |suffix|] + suffix;
  }

  lemma KeyParts(name: string, suffix: string)
    ensures var k := PREFIX + name + suffix;
            && HasPrefix(k, PREFIX) && HasSuffix(k[|PREFIX|..], suffix)
            && k[|PREFIX|..][..|k[|PREFIX|..]| - |suffix|] == name
  {
    var k := PREFIX + name + suffix;
    assert k[|PREFIX|..] == name + suffix;
  }

  /** The last letters tell the two kinds of key apart. */
  lemma SuffixesExclude(rest: string)
    ensures !(HasSuffix(rest, UNIT) && HasSuffix(rest, INCLUDED))
  {
    assert UNIT[|UNIT| - 1] == 's' && INCLUDED[|INCLUDED| - 1] == 'd';
    assert HasSuffix(rest, UNIT) ==> rest[|rest| - 1] == rest[|rest| - |UNIT|..][|UNIT| - 1] == 's';
    assert HasSuffix(rest, INCLUDED) ==> rest[|rest| - 1] == rest[|rest| - |INCLUDED|..][|INCLUDED| - 1] == 'd';
  }

  ghost predicate Seen(limits: map<string, int>, todo: set<string>, key: string) {
    key in limits && key !in todo
  }

  /** What has been collected from the keys walked so far. */
  ghost predicate Collected(limits: map<string, int>, todo: set<string>, byDim: map<string, Dim>) {
    && (forall n :: n in byDim <==> Seen(limits, todo, UnitKey(n)) || Seen(limits, todo, IncludedKey(n)))
    && (forall n :: n in byDim ==>
          byDim[n] == Dim(n, if Seen(limits, todo, UnitKey(n)) then limits[UnitKey(n)] else 0,
                          if Seen(limits, todo, IncludedKey(n)) then limits[IncludedKey(n)] else 0))
  }

  /** The walk takes the keys in no particular order. */
  method CollectDims(limits: map<string, int>) returns (byDim: map<string, Dim>)
    ensures Collected(limits, {}, byDim)
  {
    byDim := map[];
    var todo := limits.Keys;
    while todo != {}
      invariant todo <= limits.Keys
      invariant Collected(limits, todo, byDim)
      decreases |todo|
    {
      var k :| k in todo;
      ghost var left := todo - {k};
      if HasPrefix(k, PREFIX) {
        var rest := k[|PREFIX|..];
        SuffixesExclude(rest);
        if HasSuffix(rest, UNIT) {
          var name := rest[..|rest| - |UNIT|];
          CutKey(k, UNIT);
          var d := if name in byDim then byDim[name] else Dim(name, 0, 0);
          TakeUnitKey(limits, todo, byDim, name);
          byDim := byDim[name := d.(unitCents := limits[k])];
        } else if HasSuffix(rest, INCLUDED) {
          var name := rest[..|rest| - |INCLUDED|];
          CutKey(k, INCLUDED);
          var d := if name in byDim then byDim[name] else Dim(name, 0, 0);
          TakeIncludedKey(limits, todo, byDim, name);
          byDim := byDim[name := d.(included := limits[k])];
        } else {
          TakeOtherKey(limits, todo, byDim, k);
        }
      } else {
        TakeOtherKey(limits, todo, byDim, k);
      }
      todo := todo - {k};
    }
  }

  lemma SameKeySameName(n: string, m: string, suffix: string)
    requires PREFIX + n + suffix == PREFIX + m + suffix
    ensures n == m
  {
    KeyParts(n, suffix);
    KeyParts(m, suffix);
  }

  lemma KindsDiffer(n: string, m: string)
    ensures UnitKey(n) != IncludedKey(m)
  {
    KeyParts(n, UNIT);
    KeyParts(m, INCLUDED);
    SuffixesExclude(UnitKey(n)[|PREFIX|..]);
  }

  lemma KeysDiffer(n: string, m: string)
    ensures UnitKey(n) == UnitKey(m) ==> n == m
    ensures IncludedKey(n) == IncludedKey(m) ==> n == m
    ensures UnitKey(n) != IncludedKey(m)
  {
    if UnitKey(n) == UnitKey(m) {
      SameKeySameName(n, m, UNIT);
    }
    if IncludedKey(n) == IncludedKey(m) {
      SameKeySameName(n, m, INCLUDED);
    }
    KindsDiffer(n, m);
  }

  lemma TakeUnitKey(limits: map<string, int>, todo: set<string>, byDim: map<string, Dim>, name: string)
    requires Collected(limits, todo, byDim) && UnitKey(name) in todo && todo <= limits.Keys
    ensures var d := if name in byDim then byDim[name] else Dim(name, 0, 0);
            Collected(limits, todo - {UnitKey(name)}, byDim[name := d.(unitCents := limits[UnitKey(name)])])
  {
    forall n ensures UnitKey(n) == UnitKey(name) ==> n == name
             ensures IncludedKey(n) != UnitKey(name) {
      KeysDiffer(n, name);
      KeysDiffer(name, n);
    }
  }

  lemma TakeIncludedKey(limits: map<string, int>, todo: set<string>, byDim: map<string, Dim>, name: string)
    requires Collected(limits, todo, byDim) && IncludedKey(name) in todo && todo <= limits.Keys
    ensures var d := if name in byDim then byDim[name] else Dim(name, 0, 0);
            Collected(limits, todo - {IncludedKey(name)}, byDim[name := d.(included := limits[IncludedKey(name)])])
  {
    forall n ensures IncludedKey(n) == IncludedKey(name) ==> n == name
             ensures UnitKey(n) != IncludedKey(name) {
      KeysDiffer(n, name);
    }
  }

  lemma TakeOtherKey(limits: map<string, int>, todo: set<string>, byDim: map<string, Dim>, k: string)
    requires Collected(limits, todo, byDim) && k in todo
    requires !(HasPrefix(k, PREFIX) && (HasSuffix(k[|PREFIX|..], UNIT) || HasSuffix(k[|PREFIX|..], INCLUDED)))
    ensures Collected(limits, todo - {k}, byDim)
  {
    forall n ensures UnitKey(n) != k && IncludedKey(n) != k {
      KeyParts(n, UNIT);
      KeyParts(n, INCLUDED);
    }
  }

  method PricedDims(byDim: map<string, Dim>) returns (dims: seq<Dim>)
    requires forall n :: n in byDim ==> byDim[n].name == n
    ensures DistinctKeys(dims, NameOf)
    ensures forall d :: d in dims <==> d.name in byDim && byDim[d.name] == d && d.unitCents > 0
  {
    dims := [];
    var todo := byDim.Keys;
    while todo != {}
      invariant todo <= byDim.Keys
      invariant DistinctKeys(dims, NameOf)
      invariant forall d :: d in dims <==> d.name in byDim && d.name !in todo && byDim[d.name] == d && d.unitCents > 0
      decreases |todo|
    {
      var n :| n in todo;
      if byDim[n].unitCents > 0 {
        assert forall i :: 0 <= i < |dims| ==> dims[i] in dims && dims[i].name != n;
        dims := dims + [byDim[n]];
      }
      todo := todo - {n};
    }
  }

  method MeteredDims(limits: map<string, int>) returns (dims: seq<Dim>)
    ensures IsMeteredDims(limits, dims)
  {
    var byDim := CollectDims(limits);
    var unsorted := PricedDims(byDim);
    dims := Sort(unsorted, NameOf);
    SortedStaysDistinct(unsorted, dims);
    forall d ensures d in dims <==> d in unsorted {
      assert d in dims <==> d in multiset(dims);
      assert d in unsorted <==> d in multiset(unsorted);
    }
  }

  lemma SortedStaysDistinct(xs: seq<Dim>, out: seq<Dim>)
    requires DistinctKeys(xs, NameOf) && SortedPermutation(xs, out, NameOf)
    ensures StrictlySortedBy(out, NameOf)
  {
    forall i, j | 0 <= i < j < |out| ensures Less(NameOf(out[i]), NameOf(out[j])) {
      assert Leq(NameOf(out[i]), NameOf(out[j]));
      if NameOf(out[i]) == NameOf(out[j]) {
        assert out[i] in multiset(out) && out[j] in multiset(out);
        assert out[i] in xs && out[j] in xs;
        assert out[i] == out[j];
        DistinctCount(xs, NameOf, out[i]);
        TwiceCounts(out, i, j);
        assert false;
      }
    }
  }

  // ---- overage -----------------------------------------------------------

  datatype Item = Item(dim: string, used: int, included: int, unitCents: int)

  datatype MetaItem = MetaItem(dim: string, used: int, included: int, unitCents: int, units: int, cents: int)

  /** int64 arithmetic throughout, as the service computes it. */
  function Over(it: Item): int { Wrap64(it.used - it.included) }

  predicate Billable(it: Item) { Over(it) > 0 && it.unitCents > 0 }

  function Cents(it: Item): int {
    if Billable(it) then Wrap64(Over(it) * it.unitCents) else 0
  }

  function BilledTotal(items: seq<Item>): int {
    if items == [] then 0
    else Wrap64(BilledTotal(items[..|items| - 1]) + Cents(items[|items| - 1]))
  }

  function MetaOf(it: Item): MetaItem {
    MetaItem(it.dim, it.used, it.included, it.unitCents, Over(it), Cents(it))
  }

  function BilledMeta(items: seq<Item>): seq<MetaItem> {
    if items == [] then []
    else
      var (front, it) := (BilledMeta(items[..|items| - 1]), items[|items| - 1]);
      if Billable(it) then front + [MetaOf(it)] else front
  }

  function MetaSum(meta: seq<MetaItem>): int {
    if meta == [] then 0 else MetaSum(meta[..|meta| - 1]) + meta[|meta| - 1].cents
  }

  datatype OverageOrder = OverageOrder(amountCents: int, meta: seq<MetaItem>)

  function ComposedOrder(items: seq<Item>): Option<OverageOrder> {
    if BilledTotal(items) > 0 then Some(OverageOrder(BilledTotal(items), BilledMeta(items))) else None
  }

  // What the amounts are when they leave int64, too: congruent to the exact ones modulo 2^64.

  lemma ItemMeaning(it: Item)
    ensures Fits64(Over(it)) && (Over(it) - (it.used - it.included)) % 0x1_0000_0000_0000_0000 == 0
    ensures Billable(it) <==> Over(it) >= 1 && it.unitCents >= 1
    ensures Billable(it) ==> Fits64(Cents(it)) && (Cents(it) - Over(it) * it.unitCents) % 0x1_0000_0000_0000_0000 == 0
    ensures !Billable(it) ==> Cents(it) == 0
  {
  }

  /** The metadata lists the billable items in order, with what they were billed for. */
  lemma MetaMeaning(front: seq<Item>, it: Item)
    ensures BilledMeta([]) == []
    ensures var meta := BilledMeta(front + [it]);
            if Over(it) >= 1 && it.unitCents >= 1 then
              && |meta| == |BilledMeta(front)| + 1 && meta[..|meta| - 1] == BilledMeta(front)
              && var m := meta[|meta| - 1];
                 && m.dim == it.dim && m.used == it.used && m.included == it.included && m.unitCents == it.unitCents
                 && m.units == Over(it) && m.cents == Cents(it)
            else meta == BilledMeta(front)
  {
    assert (front + [it])[..|front|] == front;
  }

  /** There is an order exactly if the total is positive; it is for the total and lists the billable items;
      and the total is the sum of what they list, as int64 computes it. */
  lemma {:induction false} OrderMeaning(items: seq<Item>)
    ensures ComposedOrder(items).None? <==> BilledTotal(items) <= 0
    ensures ComposedOrder(items).Some? ==>
              ComposedOrder(items).value == OverageOrder(BilledTotal(items), BilledMeta(items))
    ensures BilledTotal(items) == Wrap64(MetaSum(BilledMeta(items)))
  {
    if items != [] {
      var (front, it) := (items[..|items| - 1], items[|items| - 1]);
      assert items == front + [it];
      OrderMeaning(front);
      MetaMeaning(front, it);
      assert MetaSum(BilledMeta(items)) == MetaSum(BilledMeta(front)) + Cents(it);
      WrapAfterWrap(MetaSum(BilledMeta(front)), Cents(it));
    }
  }

  function BilledUpTo(items: seq<Item>, i: nat): int
    requires i <= |items|
  {
    BilledTotal(items[..i])
  }

  function MetaUpTo(items: seq<Item>, i: nat): seq<MetaItem>
    requires i <= |items|
  {
    BilledMeta(items[..i])
  }

  lemma BilledSnoc(items: seq<Item>, i: nat)
    requires i < |items|
    ensures BilledUpTo(items, i + 1) == Wrap64(BilledUpTo(items, i) + Cents(items[i]))
    ensures MetaUpTo(items, i + 1) == MetaUpTo(items, i) + if Billable(items[i]) then [MetaOf(items[i])] else []
  {
    assert items[..i + 1][..i] == items[..i];
  }

  method ComposeOrder(items: seq<Item>) returns (order: Option<OverageOrder>)
    ensures order == ComposedOrder(items)
  {
    var amount := 0;
    var meta := [];
    for i := 0 to |items|
      invariant amount == BilledUpTo(items, i) && meta == MetaUpTo(items, i)
    {
      var it := items[i];
      BilledSnoc(items, i);
      var units := Wrap64(it.used - it.included);
      if units <= 0 || it.unitCents <= 0 {
        continue;
      }
      amount := Wrap64(amount + Wrap64(units * it.unitCents));
      meta := meta + [MetaItem(it.dim, it.used, it.included, it.unitCents, units, Wrap64(units * it.unitCents))];
    }
    assert items[..|items|] == items;
    if amount <= 0 {
      return None;
    }
    return Some(OverageOrder(amount, meta));
  }

  /** The unique key of overage orders. */
  datatype BillKey = BillKey(workspace: string, period: string)

  /** One billing call: the insert does nothing for a workspace and period that have their order. */
  function Billed(bills: map<BillKey, OverageOrder>, k: BillKey, items: seq<Item>)
    : (map<BillKey, OverageOrder>, Option<OverageOrder>)
  {
    var order := ComposedOrder(items);
    if order.None? || k in bills then (bills, None) else (bills[k := order.value], order)
  }

  class Overages {
    var bills: map<BillKey, OverageOrder>

    constructor ()
      ensures bills == map[]
    {
      bills := map[];
    }

    method CreateOverageOrder(k: BillKey, items: seq<Item>) returns (created: Option<OverageOrder>)
      modifies this
      ensures (bills, created) == Billed(old(bills), k, items)
    {
      created := ComposeOrder(items);
      if created.None? {
        return;
      }
      if k in bills {
        return None;
      }
      bills := bills[k := created.value];
    }
  }

  /** One call of the month-end run, or of any rerun of it. */
  datatype Billing = Billing(k: BillKey, items: seq<Item>)

  function AfterRuns(bills: map<BillKey, OverageOrder>, runs: seq<Billing>): map<BillKey, OverageOrder>
    decreases |runs|
  {
    if runs == [] then bills else AfterRuns(Billed(bills, runs[0].k, runs[0].items).0, runs[1..])
  }

  /** How many of the calls created an order for this workspace and period. */
  function Created(bills: map<BillKey, OverageOrder>, runs: seq<Billing>, k: BillKey): nat
    decreases |runs|
  {
    if runs == [] then 0
    else
      var (after, order) := Billed(bills, runs[0].k, runs[0].items);
      (if runs[0].k == k && order.Some? then 1 else 0) + Created(after, runs[1..], k)
  }

  /** What the first call with something to bill for it composes. */
  function FirstBill(runs: seq<Billing>, k: BillKey): Option<OverageOrder>
    decreases |runs|
  {
    if runs == [] then None
    else if runs[0].k == k && ComposedOrder(runs[0].items).Some? then ComposedOrder(runs[0].items)
    else FirstBill(runs[1..], k)
  }

  /** However often and with whatever usage the run is repeated, a workspace and period is billed at
      most once: by the order it had, or by the first call with something to bill. */
  lemma {:induction false} PeriodBilledOnce(bills: map<BillKey, OverageOrder>, runs: seq<Billing>, k: BillKey)
    ensures Created(bills, runs, k) == if k !in bills && FirstBill(runs, k).Some? then 1 else 0
    ensures (if k in AfterRuns(bills, runs) then Some(AfterRuns(bills, runs)[k]) else None)
            == if k in bills then Some(bills[k]) else FirstBill(runs, k)
    decreases |runs|
  {
    if runs != [] {
      PeriodBilledOnce(Billed(bills, runs[0].k, runs[0].items).0, runs[1..], k);
    }
  }

  function ItemsFor(dims: seq<Dim>, usage: string -> int): seq<Item> {
    seq(|dims|, i requires 0 <= i < |dims| =>
        Item(dims[i].name, usage(dims[i].name), dims[i].included, dims[i].unitCents))
  }

  /** Each dimension is billed for its own use, by its own terms. */
  lemma ItemsMeaning(dims: seq<Dim>, usage: string -> int, i: nat)
    requires i < |dims|
    ensures |ItemsFor(dims, usage)| == |dims|
    ensures var (it, d) := (ItemsFor(dims, usage)[i], dims[i]);
            it.dim == d.name && it.used == usage(d.name) && it.included == d.included && it.unitCents == d.unitCents
  {
  }

  method PreviewCents(d: Dim, used: int) returns (projected: int)
    requires d.unitCents > 0
    ensures projected == Cents(Item(d.name, used, d.included, d.unitCents))
  {
    projected := 0;
    var over := Wrap64(used - d.included);
    if over > 0 {
      projected := Wrap64(over * d.unitCents);
    }
  }

  method PreviewItems(dims: seq<Dim>, usage: string -> int) returns (total: int, cents: seq<int>)
    requires forall i :: 0 <= i < |dims| ==> dims[i].unitCents > 0
    ensures |cents| == |dims|
    ensures forall i :: 0 <= i < |dims| ==> cents[i] == Cents(ItemsFor(dims, usage)[i])
    ensures total == BilledTotal(ItemsFor(dims, usage))
  {
    total, cents := 0, [];
    ghost var items := ItemsFor(dims, usage);
    for i := 0 to |dims|
      invariant |cents| == i && forall j :: 0 <= j < i ==> cents[j] == Cents(items[j])
      invariant total == BilledUpTo(items, i)
    {
      var projected := PreviewCents(dims[i], usage(dims[i].name));
      BilledSnoc(items, i);
      total := Wrap64(total + projected);
      cents := cents + [projected];
    }
    assert items[..|items|] == items;
  }

  method UsagePreview(limits: map<string, int>, usage: string -> int)
    returns (dims: seq<Dim>, total: int, cents: seq<int>)
    ensures IsMeteredDims(limits, dims) && |cents| == |dims|
    ensures forall i :: 0 <= i < |dims| ==> cents[i] == Cents(ItemsFor(dims, usage)[i])
    ensures total == BilledTotal(ItemsFor(dims, usage))
  {
    dims := MeteredDims(limits);
    assert forall i :: 0 <= i < |dims| ==> dims[i] in dims;
    total, cents := PreviewItems(dims, usage);
  }

  /** The amounts without a bound on their width. */
  function ExactCents(it: Item): int {
    if it.used > it.included && it.unitCents > 0 then (it.used - it.included) * it.unitCents else 0
  }

  function ExactTotal(items: seq<Item>): int {
    if items == [] then 0 else ExactTotal(items[..|items| - 1]) + ExactCents(items[|items| - 1])
  }

  /** No product and no running total leaves int64. */
  ghost predicate NoOverflow(items: seq<Item>) {
    && (forall i :: 0 <= i < |items| ==> Fits64(items[i].used - items[i].included))
    && Fits64(ExactTotal(items))
  }

  lemma {:induction false} ExactTotalGrows(items: seq<Item>, i: nat)
    requires i < |items|
    ensures 0 <= ExactCents(items[i]) <= ExactTotal(items) && 0 <= ExactTotal(items[..|items| - 1]) <= ExactTotal(items)
  {
    var n := |items| - 1;
    CentsNonNegative(items[n]);
    CentsNonNegative(items[i]);
    if n > 0 {
      ExactTotalGrows(items[..n], if i < n then i else 0);
    }
  }

  lemma CentsNonNegative(it: Item)
    ensures ExactCents(it) >= 0
  {
  }

  /** One item within int64. */
  lemma CentsAreExact(it: Item)
    requires Fits64(it.used - it.included) && ExactCents(it) <= INT64_MAX
    ensures Cents(it) == ExactCents(it) >= 0 && (Billable(it) <==> ExactCents(it) > 0)
  {
  }

  lemma BilledMetaSnoc(front: seq<Item>, it: Item)
    ensures BilledMeta(front + [it]) == [] <==> BilledMeta(front) == [] && !Billable(it)
    ensures MetaSum(BilledMeta(front + [it])) == MetaSum(BilledMeta(front)) + if Billable(it) then Cents(it) else 0
  {
    assert (front + [it])[..|front|] == front;
    var meta := BilledMeta(front);
    if Billable(it) {
      assert BilledMeta(front + [it])[..|meta|] == meta;
    }
  }

  lemma TotalsSnoc(front: seq<Item>, it: Item)
    ensures BilledTotal(front + [it]) == Wrap64(BilledTotal(front) + Cents(it))
    ensures ExactTotal(front + [it]) == ExactTotal(front) + ExactCents(it)
  {
    assert (front + [it])[..|front|] == front;
  }

  ghost predicate ExactBill(items: seq<Item>) {
    && BilledTotal(items) == ExactTotal(items) == MetaSum(BilledMeta(items)) >= 0
    && (BilledTotal(items) == 0 <==> BilledMeta(items) == [])
  }

  lemma ExactBillSnoc(front: seq<Item>, it: Item)
    requires ExactBill(front) && Fits64(it.used - it.included) && ExactTotal(front) + ExactCents(it) <= INT64_MAX
    ensures ExactBill(front + [it])
  {
    CentsAreExact(it);
    TotalsSnoc(front, it);
    BilledMetaSnoc(front, it);
  }

  lemma {:induction false} NoOverflowBillsExactly(items: seq<Item>)
    requires NoOverflow(items)
    ensures ExactBill(items)
  {
    if items != [] {
      var (front, it) := (items[..|items| - 1], items[|items| - 1]);
      assert items == front + [it];
      TotalsSnoc(front, it);
      ExactTotalGrows(items, |items| - 1);
      NoOverflowBillsExactly(front);
      ExactBillSnoc(front, it);
    }
  }

  /** Within int64 the bill is exact: the amount is the true sum, the metadata items add up to it,
      and there is no order exactly when nothing is owed. */
  lemma BillIsExact(items: seq<Item>)
    requires NoOverflow(items)
    ensures BilledTotal(items) == ExactTotal(items) == MetaSum(BilledMeta(items)) >= 0
    ensures BilledTotal(items) == 0 <==> BilledMeta(items) == []
  {
    NoOverflowBillsExactly(items);
  }

  /** What the preview shows for a plan and a usage is what the month-end run bills for the same
      plan and usage, overflow included, unless the period has its order already; and there is nothing
      to bill exactly when the preview's total is not positive. */
  method PreviewThenBill(desk: Overages, k: BillKey, limits: map<string, int>, usage: string -> int)
    returns (previewTotal: int, order: Option<OverageOrder>)
    modifies desk
    ensures order.Some? <==> previewTotal > 0 && k !in old(desk.bills)
    ensures order.Some? ==> order.value.amountCents == previewTotal && desk.bills == old(desk.bills)[k := order.value]
    ensures order.None? ==> desk.bills == old(desk.bills)
    ensures forall dims :: IsMeteredDims(limits, dims) && NoOverflow(ItemsFor(dims, usage)) ==>
              && previewTotal == ExactTotal(ItemsFor(dims, usage)) >= 0
              && (order.Some? ==> MetaSum(order.value.meta) == previewTotal)
  {
    var shown, total, _ := UsagePreview(limits, usage);
    var billed := MeteredDims(limits);
    MeteredDimsUnique(limits, shown, billed);
    order := desk.CreateOverageOrder(k, ItemsFor(billed, usage));
    previewTotal := total;
    forall dims | IsMeteredDims(limits, dims) && NoOverflow(ItemsFor(dims, usage))
      ensures dims == billed && BilledTotal(ItemsFor(dims, usage)) == ExactTotal(ItemsFor(dims, usage))
      ensures BilledTotal(ItemsFor(dims, usage)) == MetaSum(BilledMeta(ItemsFor(dims, usage))) >= 0
    {
      MeteredDimsUnique(limits, dims, billed);
      BillIsExact(ItemsFor(dims, usage));
    }
  }
}
