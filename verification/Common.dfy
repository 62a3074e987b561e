/** Small shared vocabulary: optional values and Go's 64-bit signed integers. */
module Common {

  datatype Option<+T> = None | Some(value: T)

  datatype Result<+T, +E> = Ok(value: T) | Err(error: E)

  const INT64_MAX: int := 0x7FFF_FFFF_FFFF_FFFF
  const INT64_MIN: int := -0x8000_0000_0000_0000

  predicate Fits64(x: int) {
    INT64_MIN <= x <= INT64_MAX
  }

  const TWO64: int := 0x1_0000_0000_0000_0000

  /** Two's-complement wrap-around of Go's int64 (and of int on 64-bit targets). */
  function Wrap64(x: int): (r: int)
    ensures Fits64(r)
    ensures Fits64(x) ==> r == x
    ensures (r - x) % TWO64 == 0
  {
    if Fits64(x) then x else (x + 0x8000_0000_0000_0000) % TWO64 - 0x8000_0000_0000_0000
  }

  lemma WrapAfterWrap(x: int, y: int)
    ensures Wrap64(Wrap64(x) + y) == Wrap64(x + y)
  {
    var q := (Wrap64(x) - x) / 0x1_0000_0000_0000_0000;
    assert Wrap64(x) == x + q * 0x1_0000_0000_0000_0000;
  }

  function Max(a: int, b: int): int {
    if a >= b then a else b
  }

  function Min(a: int, b: int): int {
    if a <= b then a else b
  }
}

/** Sequences of distinct elements, and the newest part of a sequence. */
module Sequences {

  function Without<T(==)>(xs: seq<T>, x: T): (out: seq<T>)
    ensures |out| <= |xs|
    ensures x !in out
    ensures x !in xs ==> out == xs
  {
    if xs == [] then []
    else if xs[0] == x then Without(xs[1..], x)
    else [xs[0]] + Without(xs[1..], x)
  }

  ghost predicate Distinct<T>(xs: seq<T>) {
    forall i, j :: 0 <= i < j < |xs| ==> xs[i] != xs[j]
  }

  /** Taking an element out of distinct ones splices it out where it stands. */
  lemma {:induction false} WithoutIsSplice<T>(xs: seq<T>, p: nat)
    requires Distinct(xs) && p < |xs|
    ensures Without(xs, xs[p]) == xs[..p] + xs[p + 1..]
  {
    if p == 0 {
      assert xs[0] !in xs[1..];
    } else {
      WithoutIsSplice(xs[1..], p - 1);
      assert xs[1..][..p - 1] == xs[1..p] && xs[1..][p..] == xs[p + 1..];
      assert xs[..p] == [xs[0]] + xs[1..p];
    }
  }

  lemma SpliceMembers<T(!new)>(xs: seq<T>, p: nat, y: T)
    requires Distinct(xs) && p < |xs|
    ensures y in xs[..p] + xs[p + 1..] <==> y in xs && y != xs[p]
  {
    if y in xs && y != xs[p] {
      var i :| 0 <= i < |xs| && xs[i] == y;
      if i < p {
        assert y in xs[..p];
      } else {
        assert xs[p + 1..][i - p - 1] == y;
      }
    }
  }

  lemma SpliceDistinct<T>(xs: seq<T>, p: nat)
    requires Distinct(xs) && p < |xs|
    ensures Distinct(xs[..p] + xs[p + 1..])
  {
    var out := xs[..p] + xs[p + 1..];
    assert forall i :: 0 <= i < |out| ==> out[i] == xs[if i < p then i else i + 1];
  }

  /** It takes out one position and disturbs nothing else. */
  lemma WithoutKeepsRest<T(!new)>(xs: seq<T>, x: T)
    requires Distinct(xs)
    ensures Distinct(Without(xs, x))
    ensures forall y :: y in Without(xs, x) <==> y in xs && y != x
    ensures |Without(xs, x)| == if x in xs then |xs| - 1 else |xs|
  {
    if x in xs {
      var p :| 0 <= p < |xs| && xs[p] == x;
      WithoutIsSplice(xs, p);
      SpliceDistinct(xs, p);
      forall y ensures y in Without(xs, x) <==> y in xs && y != x {
        SpliceMembers(xs, p, y);
      }
    }
  }

  /** The last n elements, or all of them if there are no more than n. */
  function LastN<T>(xs: seq<T>, n: nat): seq<T> {
    if |xs| <= n then xs else xs[|xs| - n..]
  }

  lemma LastNAppend<T>(xs: seq<T>, x: T, n: nat)
    requires n > 0
    ensures LastN(xs + [x], n) == if |LastN(xs, n)| < n then LastN(xs, n) + [x] else LastN(xs, n)[1..] + [x]
  {
  }

  /** An element already among the last n moves to the end of them. */
  lemma MovesToEnd<T>(xs: seq<T>, n: nat, x: T)
    requires 0 < n && Distinct(xs) && x in LastN(xs, n)
    ensures LastN(Without(xs, x) + [x], n) == Without(LastN(xs, n), x) + [x]
  {
    var k := if |xs| <= n then 0 else |xs| - n;
    LastNIsSuffix(xs, n, k);
    var p :| 0 <= p < |xs[k..]| && xs[k..][p] == x;
    SuffixMoves(xs, k, p);
    LastNIsSuffix(Without(xs, x) + [x], n, k);
  }

  lemma LastNIsSuffix<T>(xs: seq<T>, n: nat, k: nat)
    requires k == if |xs| <= n then 0 else |xs| - n
    ensures LastN(xs, n) == xs[k..]
  {
  }

  lemma SuffixMoves<T>(xs: seq<T>, k: nat, p: nat)
    requires Distinct(xs) && k + p < |xs|
    ensures var x := xs[k + p]; |Without(xs, x)| == |xs| - 1 && (Without(xs, x) + [x])[k..] == Without(xs[k..], x) + [x]
  {
    var x := xs[k + p];
    WithoutIsSplice(xs, k + p);
    SuffixDistinct(xs, k);
    WithoutIsSplice(xs[k..], p);
    SpliceSuffix(xs, k + p, k, x);
  }

  lemma SuffixDistinct<T>(xs: seq<T>, k: nat)
    requires Distinct(xs) && k <= |xs|
    ensures Distinct(xs[k..])
  {
  }

  lemma SpliceSuffix<T>(xs: seq<T>, q: nat, k: nat, x: T)
    requires k <= q < |xs|
    ensures (xs[..q] + xs[q + 1..] + [x])[k..] == xs[k..][..q - k] + xs[k..][q - k + 1..] + [x]
  {
    assert (xs[..q] + xs[q + 1..] + [x])[k..] == xs[k..q] + xs[q + 1..] + [x];
    assert xs[k..][..q - k] == xs[k..q];
    assert xs[k..][q - k + 1..] == xs[q + 1..];
  }

  /** Any other element joins at the end and may push out the first of the last n. */
  lemma JoinsAtEnd<T>(xs: seq<T>, n: nat, x: T)
    requires 0 < n && Distinct(xs) && x !in LastN(xs, n)
    ensures LastN(Without(xs, x) + [x], n) == (if |LastN(xs, n)| < n then LastN(xs, n) else LastN(xs, n)[1..]) + [x]
  {
    LastNAppend(Without(xs, x), x, n);
    if x in xs {
      var p :| 0 <= p < |xs| && xs[p] == x;
      WithoutIsSplice(xs, p);
      OutsideLastN(xs, n, p);
    }
  }

  /** Taking out an element that is not among the last n, when those are not all. */
  lemma OutsideLastN<T>(xs: seq<T>, n: nat, p: nat)
    requires p < |xs| && xs[p] !in LastN(xs, n)
    ensures p < |xs| - n
    ensures LastN(xs[..p] + xs[p + 1..], n) == LastN(xs, n)
  {
    AmongLastN(xs, n, p);
    SpliceBefore(xs, p, |xs| - n);
  }

  lemma AmongLastN<T>(xs: seq<T>, n: nat, p: nat)
    requires p < |xs|
    ensures |xs| - n <= p ==> xs[p] in LastN(xs, n)
  {
    if |xs| - n <= p {
      assert xs[p] == LastN(xs, n)[if |xs| <= n then p else p - (|xs| - n)];
    }
  }

  lemma SpliceBefore<T>(xs: seq<T>, p: nat, k: nat)
    requires p < k <= |xs|
    ensures (xs[..p] + xs[p + 1..])[k - 1..] == xs[k..]
  {
  }
}

/** String order as Go compares strings, and what it takes for a sorted result to be unique. */
module Ordering {

  predicate Less(a: string, b: string) {
    if b == "" then false
    else if a == "" then true
    else a[0] < b[0] || (a[0] == b[0] && Less(a[1..], b[1..]))
  }

  predicate Leq(a: string, b: string) {
    a == b || Less(a, b)
  }

  lemma {:induction false} LessIrreflexive(a: string)
    ensures !Less(a, a)
  {
    if a != "" {
      LessIrreflexive(a[1..]);
    }
  }

  lemma {:induction false} LessTransitive(a: string, b: string, c: string)
    requires Less(a, b) && Less(b, c)
    ensures Less(a, c)
    decreases |a|
  {
    if a != "" && a[0] == b[0] == c[0] {
      LessTransitive(a[1..], b[1..], c[1..]);
    }
  }

  lemma {:induction false} LessTotal(a: string, b: string)
    ensures Less(a, b) || a == b || Less(b, a)
    decreases |a|
  {
    if a != "" && b != "" && a[0] == b[0] {
      LessTotal(a[1..], b[1..]);
      assert a == [a[0]] + a[1..] && b == [b[0]] + b[1..];
    }
  }

  lemma LeqAntisymmetric(a: string, b: string)
    requires Leq(a, b) && Leq(b, a)
    ensures a == b
  {
    if a != b {
      LessTransitive(a, b, a);
      LessIrreflexive(a);
    }
  }

  // ---- sorted sequences --------------------------------------------------

  ghost predicate SortedBy<T>(xs: seq<T>, key: T -> string) {
    forall i, j :: 0 <= i < j < |xs| ==> Leq(key(xs[i]), key(xs[j]))
  }

  ghost predicate StrictlySortedBy<T>(xs: seq<T>, key: T -> string) {
    forall i, j :: 0 <= i < j < |xs| ==> Less(key(xs[i]), key(xs[j]))
  }

  ghost predicate DistinctKeys<T>(xs: seq<T>, key: T -> string) {
    forall i, j :: 0 <= i < j < |xs| ==> key(xs[i]) != key(xs[j])
  }

  /** Every element of one sequence is below the last of a sorted rearrangement. */
  lemma LastDominates<T>(xs: seq<T>, ys: seq<T>, key: T -> string)
    requires SortedBy(ys, key) && multiset(xs) == multiset(ys) && xs != []
    ensures ys != [] && xs[|xs| - 1] in ys && Leq(key(xs[|xs| - 1]), key(ys[|ys| - 1]))
  {
    var x := xs[|xs| - 1];
    assert x in multiset(xs);
    assert x in multiset(ys);
    var i :| 0 <= i < |ys| && ys[i] == x;
  }

  lemma DropLast<T>(xs: seq<T>, ys: seq<T>)
    requires multiset(xs) == multiset(ys) && xs != [] && ys != [] && xs[|xs| - 1] == ys[|ys| - 1]
    ensures multiset(xs[..|xs| - 1]) == multiset(ys[..|ys| - 1])
  {
    var (n, m) := (|xs| - 1, |ys| - 1);
    assert xs == xs[..n] + [xs[n]];
    assert ys == ys[..m] + [ys[m]];
    assert multiset(xs[..n]) == multiset(xs) - multiset{xs[n]};
    assert multiset(ys[..m]) == multiset(ys) - multiset{xs[n]};
  }

  /** Elements with the same key are the same. */
  ghost predicate KeysIdentify<T>(xs: seq<T>, key: T -> string) {
    forall i, j :: 0 <= i < |xs| && 0 <= j < |xs| && key(xs[i]) == key(xs[j]) ==> xs[i] == xs[j]
  }

  lemma DistinctKeysIdentify<T>(xs: seq<T>, key: T -> string)
    requires DistinctKeys(xs, key)
    ensures KeysIdentify(xs, key)
  {
  }

  /** Sorted by keys that identify, with the same elements: the same sequence. */
  lemma {:induction false} SortedUnique<T>(xs: seq<T>, ys: seq<T>, key: T -> string)
    requires SortedBy(xs, key) && SortedBy(ys, key) && KeysIdentify(xs, key)
    requires multiset(xs) == multiset(ys)
    ensures xs == ys
    decreases |xs|
  {
    if xs == [] {
      assert |multiset(ys)| == 0;
    } else {
      LastDominates(xs, ys, key);
      LastDominates(ys, xs, key);
      LeqAntisymmetric(key(xs[|xs| - 1]), key(ys[|ys| - 1]));
      DropLast(xs, ys);
      SortedUnique(xs[..|xs| - 1], ys[..|ys| - 1], key);
    }
  }

  function Itself(s: string): string { s }

  lemma TwiceCounts<T>(xs: seq<T>, i: nat, j: nat)
    requires i < j < |xs| && xs[i] == xs[j]
    ensures multiset(xs)[xs[i]] >= 2
  {
    assert xs == xs[..j] + [xs[j]] + xs[j + 1..];
    assert xs[i] in xs[..j];
  }

  /** A sorted rearrangement, whichever algorithm produces it. */
  ghost predicate SortedPermutation<T>(xs: seq<T>, out: seq<T>, key: T -> string) {
    SortedBy(out, key) && multiset(out) == multiset(xs)
  }

  lemma LeqTransitive(a: string, b: string, c: string)
    requires Leq(a, b) && Leq(b, c)
    ensures Leq(a, c)
  {
    if a != b && b != c {
      LessTransitive(a, b, c);
    }
  }

  /** Everything up to the insertion point is at most x. */
  lemma BelowInsertion<T>(xs: seq<T>, x: T, key: T -> string, i: nat)
    requires SortedBy(xs, key) && i <= |xs|
    requires i > 0 ==> !Less(key(x), key(xs[i - 1]))
    ensures forall j :: 0 <= j < i ==> Leq(key(xs[j]), key(x))
  {
    if i > 0 {
      LessTotal(key(x), key(xs[i - 1]));
      forall j | 0 <= j < i ensures Leq(key(xs[j]), key(x)) {
        if j < i - 1 {
          LeqTransitive(key(xs[j]), key(xs[i - 1]), key(x));
        }
      }
    }
  }

  lemma InsertionSorts<T>(xs: seq<T>, x: T, key: T -> string, i: nat)
    requires SortedBy(xs, key) && i <= |xs|
    requires forall j :: 0 <= j < i ==> Leq(key(xs[j]), key(x))
    requires forall j :: i <= j < |xs| ==> Leq(key(x), key(xs[j]))
    ensures SortedPermutation(xs + [x], xs[..i] + [x] + xs[i..], key)
  {
    assert xs == xs[..i] + xs[i..];
  }

  method InsertSorted<T>(xs: seq<T>, x: T, key: T -> string) returns (out: seq<T>)
    requires SortedBy(xs, key)
    ensures SortedPermutation(xs + [x], out, key)
  {
    var i := |xs|;
    while i > 0 && Less(key(x), key(xs[i - 1]))
      invariant 0 <= i <= |xs|
      invariant forall j :: i <= j < |xs| ==> Leq(key(x), key(xs[j]))
    {
      i := i - 1;
    }
    BelowInsertion(xs, x, key, i);
    InsertionSorts(xs, x, key, i);
    out := xs[..i] + [x] + xs[i..];
  }

  method Sort<T>(xs: seq<T>, key: T -> string) returns (out: seq<T>)
    ensures SortedPermutation(xs, out, key)
  {
    out := [];
    for i := 0 to |xs|
      invariant SortedPermutation(xs[..i], out, key)
    {
      var before := out;
      out := InsertSorted(before, xs[i], key);
      assert xs[..i + 1] == xs[..i] + [xs[i]];
      assert multiset(before + [xs[i]]) == multiset(before) + multiset{xs[i]};
    }
    assert xs[..|xs|] == xs;
  }
}

/** Mapping commutes with rearranging. */
module Permutations {

  function Mapped<T, U>(xs: seq<T>, f: T -> U): (out: seq<U>)
    ensures |out| == |xs| && forall i :: 0 <= i < |xs| ==> out[i] == f(xs[i])
  {
    seq(|xs|, i requires 0 <= i < |xs| => f(xs[i]))
  }

  lemma MappedAround<T, U>(front: seq<T>, x: T, back: seq<T>, f: T -> U)
    ensures multiset(Mapped(front + [x] + back, f)) == multiset(Mapped(front + back, f)) + multiset{f(x)}
  {
    assert Mapped(front + [x] + back, f) == Mapped(front, f) + [f(x)] + Mapped(back, f);
    assert Mapped(front + back, f) == Mapped(front, f) + Mapped(back, f);
  }

  /** Taking the element at one place out. */
  lemma TakenOut<T>(xs: seq<T>, k: nat)
    requires k < |xs|
    ensures xs == xs[..k] + [xs[k]] + xs[k + 1..]
    ensures multiset(xs) == multiset(xs[..k] + xs[k + 1..]) + multiset{xs[k]}
  {
  }

  lemma Cancelled<T>(a: multiset<T>, b: multiset<T>, x: T)
    requires a + multiset{x} == b + multiset{x}
    ensures a == b
  {
    assert a == (a + multiset{x}) - multiset{x};
    assert b == (b + multiset{x}) - multiset{x};
  }

  function Removed<T>(xs: seq<T>, k: nat): seq<T>
    requires k < |xs|
  {
    xs[..k] + xs[k + 1..]
  }

  lemma HeadCancelled<T>(a: seq<T>, b: seq<T>, k: nat)
    requires a != [] && multiset(a) == multiset(b) && k < |b| && b[k] == a[0]
    ensures multiset(a[1..]) == multiset(Removed(b, k))
  {
    TakenOut(b, k);
    assert a == [a[0]] + a[1..];
    Cancelled(multiset(a[1..]), multiset(Removed(b, k)), a[0]);
  }

  lemma HeadMapped<T, U>(a: seq<T>, b: seq<T>, k: nat, f: T -> U)
    requires a != [] && k < |b| && b[k] == a[0]
    requires multiset(Mapped(a[1..], f)) == multiset(Mapped(Removed(b, k), f))
    ensures multiset(Mapped(a, f)) == multiset(Mapped(b, f))
  {
    assert Mapped(a, f) == [f(a[0])] + Mapped(a[1..], f);
    TakenOut(b, k);
    MappedAround(b[..k], b[k], b[k + 1..], f);
  }

  lemma {:induction false} MappedPermutation<T, U>(a: seq<T>, b: seq<T>, f: T -> U)
    requires multiset(a) == multiset(b)
    ensures multiset(Mapped(a, f)) == multiset(Mapped(b, f))
    decreases |a|
  {
    if a == [] {
      assert |multiset(b)| == 0;
    } else {
      assert a[0] in multiset(b);
      var k :| 0 <= k < |b| && b[k] == a[0];
      HeadCancelled(a, b, k);
      MappedPermutation(a[1..], Removed(b, k), f);
      HeadMapped(a, b, k, f);
    }
  }

  lemma HeadMatched<T, U>(a: seq<T>, k: nat, b: seq<T>, f: T -> U)
    requires k < |a| && b != [] && f(a[k]) == f(b[0])
    requires multiset(Mapped(a, f)) == multiset(Mapped(b, f))
    ensures multiset(Mapped(Removed(a, k), f)) == multiset(Mapped(b[1..], f))
  {
    TakenOut(a, k);
    MappedAround(a[..k], a[k], a[k + 1..], f);
    assert Mapped(b, f) == [f(b[0])] + Mapped(b[1..], f);
    Cancelled(multiset(Mapped(Removed(a, k), f)), multiset(Mapped(b[1..], f)), f(a[k]));
  }

  lemma HeadRestored<T, U>(a: seq<T>, k: nat, b: seq<T>, rest: seq<T>, f: T -> U)
    requires k < |a| && b != [] && f(a[k]) == f(b[0])
    requires multiset(rest) == multiset(Removed(a, k)) && Mapped(rest, f) == Mapped(b[1..], f)
    ensures multiset([a[k]] + rest) == multiset(a) && Mapped([a[k]] + rest, f) == Mapped(b, f)
  {
    TakenOut(a, k);
    assert Mapped([a[k]] + rest, f) == [f(a[k])] + Mapped(rest, f);
    assert Mapped(b, f) == [f(b[0])] + Mapped(b[1..], f);
  }

  /** Two sequences with the same images are each other's rearrangement, up to the map. */
  lemma {:induction false} MatchedThroughMap<T, U>(a: seq<T>, b: seq<T>, f: T -> U) returns (mid: seq<T>)
    requires multiset(Mapped(a, f)) == multiset(Mapped(b, f))
    ensures multiset(mid) == multiset(a) && Mapped(mid, f) == Mapped(b, f)
    decreases |b|
  {
    if b == [] {
      assert |multiset(Mapped(a, f))| == |a| == 0;
      mid := [];
    } else {
      assert Mapped(b, f)[0] in multiset(Mapped(a, f));
      var k :| 0 <= k < |a| && Mapped(a, f)[k] == Mapped(b, f)[0];
      HeadMatched(a, k, b, f);
      var rest := MatchedThroughMap(Removed(a, k), b[1..], f);
      HeadRestored(a, k, b, rest, f);
      mid := [a[k]] + rest;
    }
  }
}
