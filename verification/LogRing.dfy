/** The in-memory log ring: a global tail window and a bounded window per request id. */
module LogRing {
  import opened Common
  import opened Sequences

  /** NoRequest is the empty request id. */
  datatype RequestId = NoRequest | Request(id: string)

  datatype Entry = Entry(time: int, level: int, message: string, requestId: RequestId)

  datatype Query = Query(minLevel: int, limit: int)

  // ---- ring buffers ------------------------------------------------------

  /** A ring buffer read from its oldest element. */
  function Unrolled(xs: seq<Entry>, head: nat): seq<Entry>
    requires head <= |xs|
  {
    xs[head..] + xs[..head]
  }

  /** xs[head] is the oldest element once the buffer is full; before that head is 0. */
  ghost predicate RingOk(xs: seq<Entry>, head: nat, capacity: nat) {
    0 < capacity && |xs| <= capacity && head <= |xs|
    && (|xs| < capacity ==> head == 0) && (|xs| == capacity ==> head < |xs|)
  }

  ghost predicate Holds(xs: seq<Entry>, head: nat, capacity: nat, history: seq<Entry>) {
    RingOk(xs, head, capacity) && Unrolled(xs, head) == LastN(history, capacity)
  }

  lemma WrapIndex(a: nat, n: nat)
    requires 0 < n && a < 2 * n
    ensures a % n == if a < n then a else a - n
  {
  }

  lemma AppendHolds(xs: seq<Entry>, head: nat, capacity: nat, history: seq<Entry>, e: Entry)
    requires Holds(xs, head, capacity, history) && |xs| < capacity
    ensures Holds(xs + [e], 0, capacity, history + [e])
  {
    LastNAppend(history, e, capacity);
    assert Unrolled(xs, 0) == xs;
    assert Unrolled(xs + [e], 0) == xs + [e];
  }

  lemma OverwriteHolds(xs: seq<Entry>, head: nat, capacity: nat, history: seq<Entry>, e: Entry)
    requires Holds(xs, head, capacity, history) && |xs| == capacity
    ensures Holds(xs[head := e], (head + 1) % capacity, capacity, history + [e])
  {
    LastNAppend(history, e, capacity);
    WrapIndex(head + 1, capacity);
    UnrolledOverwrite(xs, head, (head + 1) % capacity, e);
  }

  lemma UnrolledOverwrite(xs: seq<Entry>, head: nat, next: nat, e: Entry)
    requires head < |xs| && next == if head + 1 < |xs| then head + 1 else 0
    ensures Unrolled(xs[head := e], next) == Unrolled(xs, head)[1..] + [e]
    ensures |Unrolled(xs, head)| == |xs|
  {
    var updated := xs[head := e];
    assert updated == xs[..head] + [e] + xs[head + 1..];
    assert Unrolled(xs, head)[1..] == xs[head + 1..] + xs[..head];
  }

  /** Reading a ring element by element. */
  method ReadRing(xs: seq<Entry>, head: nat) returns (out: seq<Entry>)
    requires head < |xs| || (xs == [] && head == 0)
    ensures out == Unrolled(xs, head)
  {
    out := [];
    for i := 0 to |xs|
      invariant out == Unrolled(xs, head)[..i]
    {
      WrapIndex(head + i, |xs|);
      out := out + [xs[(head + i) % |xs|]];
    }
  }

  // ---- queries -----------------------------------------------------------

  function AtLevel(xs: seq<Entry>, minLevel: int): seq<Entry> {
    if xs == [] then []
    else AtLevel(xs[..|xs| - 1], minLevel) + if xs[|xs| - 1].level >= minLevel then [xs[|xs| - 1]] else []
  }

  function Answer(xs: seq<Entry>, q: Query): seq<Entry> {
    LastN(AtLevel(xs, q.minLevel), if q.limit <= 0 then 100 else q.limit)
  }

  /** Exactly the entries at or above the level stay, each as often as before. */
  lemma {:induction false} AtLevelMeaning(xs: seq<Entry>, minLevel: int)
    ensures forall e :: multiset(AtLevel(xs, minLevel))[e] == if e.level >= minLevel then multiset(xs)[e] else 0
  {
    if xs != [] {
      AtLevelMeaning(xs[..|xs| - 1], minLevel);
      assert xs == xs[..|xs| - 1] + [xs[|xs| - 1]];
    }
  }

  /** And they stay in order: what is selected from a concatenation is selected from its parts. */
  lemma {:induction false} AtLevelInOrder(xs: seq<Entry>, ys: seq<Entry>, minLevel: int)
    ensures AtLevel(xs + ys, minLevel) == AtLevel(xs, minLevel) + AtLevel(ys, minLevel)
    decreases |ys|
  {
    if ys == [] {
      assert xs + ys == xs;
    } else {
      var (front, y) := (ys[..|ys| - 1], ys[|ys| - 1]);
      AtLevelInOrder(xs, front, minLevel);
      assert (xs + ys)[..|xs + ys| - 1] == xs + front;
    }
  }

  /** The answer is everything at or above the level from some position on; it is at most as long as the
      limit (100 if none is given), and if it is shorter nothing older qualifies. */
  ghost predicate AnswersFrom(xs: seq<Entry>, q: Query, out: seq<Entry>, k: nat) {
    && k <= |xs| && out == AtLevel(xs[k..], q.minLevel)
    && |out| <= (if q.limit <= 0 then 100 else q.limit)
    && (|out| < (if q.limit <= 0 then 100 else q.limit) ==> forall i :: 0 <= i < k ==> xs[i].level < q.minLevel)
  }

  ghost predicate NewestAtLevel(xs: seq<Entry>, q: Query, out: seq<Entry>) {
    && (exists k: nat :: AnswersFrom(xs, q, out, k))
    && (forall e :: e in out ==> e in xs && e.level >= q.minLevel)
  }

  lemma {:induction false} NewestOf(xs: seq<Entry>, minLevel: int, n: nat) returns (k: nat)
    requires n <= |AtLevel(xs, minLevel)|
    ensures k <= |xs| && AtLevel(xs[k..], minLevel) == LastN(AtLevel(xs, minLevel), n)
    ensures n == |AtLevel(xs, minLevel)| ==> k == 0
    decreases |xs|
  {
    if n == |AtLevel(xs, minLevel)| {
      k := 0;
      assert xs[0..] == xs;
    } else {
      FirstOfAll(xs, minLevel);
      var j := NewestOf(xs[1..], minLevel, n);
      k := j + 1;
      assert xs[k..] == xs[1..][j..];
    }
  }

  lemma FirstOfAll(xs: seq<Entry>, minLevel: int)
    requires xs != []
    ensures var (all, rest) := (AtLevel(xs, minLevel), AtLevel(xs[1..], minLevel));
            && |rest| <= |all| <= |rest| + 1
            && forall n: nat :: n <= |rest| ==> LastN(all, n) == LastN(rest, n)
  {
    AtLevelInOrder([xs[0]], xs[1..], minLevel);
    assert [xs[0]] + xs[1..] == xs;
    assert [xs[0]][..0] == [];
  }

  lemma AnswerMeaning(xs: seq<Entry>, q: Query)
    ensures NewestAtLevel(xs, q, Answer(xs, q))
  {
    var limit: nat := if q.limit <= 0 then 100 else q.limit;
    var all := AtLevel(xs, q.minLevel);
    var k := NewestOf(xs, q.minLevel, if |all| <= limit then |all| else limit);
    assert AnswersFrom(xs, q, Answer(xs, q), k);
    forall e | e in Answer(xs, q) ensures e in xs && e.level >= q.minLevel {
      OnlyAtLevel(xs, q.minLevel, e);
    }
  }

  lemma OnlyAtLevel(xs: seq<Entry>, minLevel: int, e: Entry)
    ensures e in AtLevel(xs, minLevel) <==> e in xs && e.level >= minLevel
  {
    AtLevelMeaning(xs, minLevel);
    assert e in AtLevel(xs, minLevel) <==> multiset(AtLevel(xs, minLevel))[e] > 0;
    assert e in xs <==> multiset(xs)[e] > 0;
  }

  method FilterEntries(xs: seq<Entry>, q: Query) returns (out: seq<Entry>)
    ensures out == Answer(xs, q) && NewestAtLevel(xs, q, out)
  {
    var limit := q.limit;
    if limit <= 0 {
      limit := 100;
    }
    out := [];
    for i := 0 to |xs|
      invariant out == AtLevel(xs[..i], q.minLevel)
    {
      assert xs[..i + 1][..i] == xs[..i];
      if xs[i].level >= q.minLevel {
        out := out + [xs[i]];
      }
    }
    assert xs[..|xs|] == xs;
    if |out| > limit {
      out := out[|out| - limit..];
    }
    AnswerMeaning(xs, q);
  }

  // ---- what the history says ----------------------------------------------

  /** The distinct request ids captured, ordered by their latest capture, oldest first. */
  function Recency(h: seq<Entry>): seq<RequestId> {
    if h == [] then []
    else
      var (before, id) := (Recency(h[..|h| - 1]), h[|h| - 1].requestId);
      if id == NoRequest then before else Without(before, id) + [id]
  }

  function Retained(h: seq<Entry>, maxRequests: nat): seq<RequestId> {
    LastN(Recency(h), maxRequests)
  }

  /** The entries of one id since it was last admitted: everything captured for it while it stayed
      among the retained ids. */
  function SinceAdmitted(h: seq<Entry>, id: RequestId, maxRequests: nat): seq<Entry> {
    if h == [] then []
    else
      var (before, e) := (h[..|h| - 1], h[|h| - 1]);
      if e.requestId != id then SinceAdmitted(before, id, maxRequests)
      else if id in Retained(before, maxRequests) then SinceAdmitted(before, id, maxRequests) + [e]
      else [e]
  }

  predicate Readmits(h: seq<Entry>, e: Entry, maxRequests: nat) {
    e.requestId != NoRequest && e.requestId !in Retained(h, maxRequests)
  }

  /** Captures that pushed another request id out. */
  function Evictions(h: seq<Entry>, maxRequests: nat): nat {
    if h == [] then 0
    else
      var (before, e) := (h[..|h| - 1], h[|h| - 1]);
      Evictions(before, maxRequests)
      + if Readmits(before, e, maxRequests) && |Recency(before)| >= maxRequests then 1 else 0
  }

  /** Captures that overwrote an older entry of their own request. */
  function Overwrites(h: seq<Entry>, perRequest: nat, maxRequests: nat): nat {
    if h == [] then 0
    else
      var (before, e) := (h[..|h| - 1], h[|h| - 1]);
      Overwrites(before, perRequest, maxRequests)
      + if e.requestId in Retained(before, maxRequests)
           && |SinceAdmitted(before, e.requestId, maxRequests)| >= perRequest then 1 else 0
  }

  /** What the window of e's request holds before e is recorded. */
  function WindowBefore(h: seq<Entry>, e: Entry, maxRequests: nat): seq<Entry> {
    if e.requestId in Retained(h, maxRequests) then SinceAdmitted(h, e.requestId, maxRequests) else []
  }

  lemma OneMoreCapture(h: seq<Entry>, e: Entry, perRequest: nat, maxRequests: nat)
    requires perRequest > 0
    ensures Overwrites(h + [e], perRequest, maxRequests)
            == Overwrites(h, perRequest, maxRequests) + if |WindowBefore(h, e, maxRequests)| >= perRequest then 1 else 0
    ensures Evictions(h + [e], maxRequests)
            == Evictions(h, maxRequests)
               + if Readmits(h, e, maxRequests) && |Recency(h)| >= maxRequests then 1 else 0
    ensures e.requestId == NoRequest ==> Recency(h + [e]) == Recency(h)
  {
    assert (h + [e])[..|h|] == h;
  }

  lemma OneMoreWindow(h: seq<Entry>, e: Entry, k: RequestId, maxRequests: nat)
    ensures SinceAdmitted(h + [e], k, maxRequests)
            == if k == e.requestId then WindowBefore(h, e, maxRequests) + [e] else SinceAdmitted(h, k, maxRequests)
  {
    assert (h + [e])[..|h|] == h;
  }

  /** The position of the latest capture of an id, or -1. */
  function LatestCapture(h: seq<Entry>, id: RequestId): int {
    if h == [] then -1
    else if h[|h| - 1].requestId == id then |h| - 1
    else LatestCapture(h[..|h| - 1], id)
  }

  /** Recency is what it says: each captured id once, in the order of its latest capture. */
  lemma {:induction false} RecencyMeaning(h: seq<Entry>)
    ensures Distinct(Recency(h))
    ensures forall id :: id in Recency(h) <==> id != NoRequest && LatestCapture(h, id) >= 0
    ensures InCaptureOrder(h, Recency(h))
  {
    if h != [] {
      var (before, id) := (h[..|h| - 1], h[|h| - 1].requestId);
      RecencyMeaning(before);
      if id != NoRequest {
        WithoutKeepsRest(Recency(before), id);
        assert Distinct(Recency(h));
        WithoutKeepsOrder(before, Recency(before), id);
        AppendKeepsOrder(h, Without(Recency(before), id));
      } else {
        SameOrderWithout(h, Recency(before));
      }
    }
  }

  /** An entry without an id leaves the order of the others alone. */
  lemma SameOrderWithout(h: seq<Entry>, ids: seq<RequestId>)
    requires h != [] && InCaptureOrder(h[..|h| - 1], ids) && h[|h| - 1].requestId !in ids
    ensures InCaptureOrder(h, ids)
  {
    assert forall i :: 0 <= i < |ids| ==>
             ids[i] in ids && LatestCapture(h, ids[i]) == LatestCapture(h[..|h| - 1], ids[i]);
  }

  lemma AppendKeepsOrder(h: seq<Entry>, ids: seq<RequestId>)
    requires h != [] && InCaptureOrder(h[..|h| - 1], ids) && h[|h| - 1].requestId !in ids
    ensures InCaptureOrder(h, ids + [h[|h| - 1].requestId])
  {
    SameOrderWithout(h, ids);
    CaptureBound(h[..|h| - 1]);
    assert forall i :: 0 <= i < |ids| ==>
             ids[i] in ids && LatestCapture(h, ids[i]) == LatestCapture(h[..|h| - 1], ids[i]);
  }

  lemma {:induction false} CaptureBound(h: seq<Entry>)
    ensures forall id :: LatestCapture(h, id) < |h|
  {
    if h != [] {
      CaptureBound(h[..|h| - 1]);
    }
  }

  ghost predicate InCaptureOrder(h: seq<Entry>, ids: seq<RequestId>) {
    forall i, j :: 0 <= i < j < |ids| ==> LatestCapture(h, ids[i]) < LatestCapture(h, ids[j])
  }

  lemma WithoutKeepsOrder(h: seq<Entry>, ids: seq<RequestId>, id: RequestId)
    requires Distinct(ids) && InCaptureOrder(h, ids)
    ensures InCaptureOrder(h, Without(ids, id))
  {
    if id in ids {
      var p :| 0 <= p < |ids| && ids[p] == id;
      WithoutIsSplice(ids, p);
      SpliceKeepsOrder(h, ids, p);
    }
  }

  lemma SpliceKeepsOrder(h: seq<Entry>, ids: seq<RequestId>, p: nat)
    requires p < |ids| && InCaptureOrder(h, ids)
    ensures InCaptureOrder(h, ids[..p] + ids[p + 1..])
  {
    var out := ids[..p] + ids[p + 1..];
    forall i, j | 0 <= i < j < |out| ensures LatestCapture(h, out[i]) < LatestCapture(h, out[j]) {
      var (i', j') := (if i < p then i else i + 1, if j < p then j else j + 1);
      assert out[i] == ids[i'] && out[j] == ids[j'];
    }
  }

  /** One capture seen from the retained ids. */
  lemma RetainedStep(h: seq<Entry>, e: Entry, maxRequests: nat)
    requires 0 < maxRequests && e.requestId != NoRequest
    ensures var (lru, id) := (Retained(h, maxRequests), e.requestId);
            Retained(h + [e], maxRequests)
            == if id in lru then Without(lru, id) + [id]
               else (if |lru| < maxRequests then lru else lru[1..]) + [id]
  {
    assert (h + [e])[..|h|] == h;
    RecencyMeaning(h);
    if e.requestId in Retained(h, maxRequests) {
      MovesToEnd(Recency(h), maxRequests, e.requestId);
    } else {
      JoinsAtEnd(Recency(h), maxRequests, e.requestId);
    }
  }

  // ---- the ring ----------------------------------------------------------

  datatype Bucket = Bucket(entries: seq<Entry>, head: nat, full: bool)

  datatype Stats = Stats(captured: nat, droppedGlobal: nat, droppedPerRequest: nat, droppedRequests: nat, requests: nat)

  ghost predicate BucketHolds(b: Bucket, perRequest: nat, entries: seq<Entry>) {
    Holds(b.entries, b.head, perRequest, entries) && b.full == (|b.entries| == perRequest)
  }

  ghost predicate TailHolds(tail: seq<Entry>, head: nat, capacity: nat, captured: nat, dropped: nat, h: seq<Entry>) {
    Holds(tail, head, capacity, h) && captured == |h| == |tail| + dropped
  }

  /** The windows hold what was captured since their requests were admitted, apart from these. */
  ghost predicate WindowsHold(buckets: map<RequestId, Bucket>, h: seq<Entry>, perRequest: nat, maxRequests: nat,
                              apart: set<RequestId>)
  {
    forall k :: k in buckets && k !in apart ==> BucketHolds(buckets[k], perRequest, SinceAdmitted(h, k, maxRequests))
  }

  lemma FewerWindowsHold(before: map<RequestId, Bucket>, after: map<RequestId, Bucket>, h: seq<Entry>,
                         perRequest: nat, maxRequests: nat, apart: set<RequestId>)
    requires WindowsHold(before, h, perRequest, maxRequests, {})
    requires forall k :: k in after ==> k in before && after[k] == before[k]
    ensures WindowsHold(after, h, perRequest, maxRequests, apart)
  {
  }

  /** The windows of all requests once the entry's own has taken it. */
  lemma RecordedWindows(buckets: map<RequestId, Bucket>, b: Bucket, h: seq<Entry>, e: Entry, perRequest: nat,
                        maxRequests: nat)
    requires perRequest > 0 && WindowsHold(buckets, h, perRequest, maxRequests, {e.requestId})
    requires BucketHolds(b, perRequest, WindowBefore(h, e, maxRequests) + [e])
    ensures WindowsHold(buckets[e.requestId := b], h + [e], perRequest, maxRequests, {})
  {
    var after := buckets[e.requestId := b];
    forall k | k in after ensures BucketHolds(after[k], perRequest, SinceAdmitted(h + [e], k, maxRequests)) {
      OneMoreWindow(h, e, k, maxRequests);
    }
  }

  /** An entry without a request id leaves every window alone. */
  lemma UntouchedWindows(buckets: map<RequestId, Bucket>, h: seq<Entry>, e: Entry, perRequest: nat, maxRequests: nat)
    requires e.requestId !in buckets && WindowsHold(buckets, h, perRequest, maxRequests, {})
    ensures WindowsHold(buckets, h + [e], perRequest, maxRequests, {})
  {
    forall k | k in buckets ensures BucketHolds(buckets[k], perRequest, SinceAdmitted(h + [e], k, maxRequests)) {
      OneMoreWindow(h, e, k, maxRequests);
    }
  }

  class Ring {
    const capacity: nat
    const perRequest: nat
    const maxRequests: nat
    var tail: seq<Entry>
    var tailHead: nat
    var buckets: map<RequestId, Bucket>
    var lru: seq<RequestId>
    var captured: nat
    var droppedGlobal: nat
    var droppedPerRequest: nat
    var droppedRequests: nat
    /** Everything ever captured. */
    ghost var history: seq<Entry>

    /** The global part holds the end of h. */
    ghost predicate TailAfter(h: seq<Entry>)
      reads this
    {
      TailHolds(tail, tailHead, capacity, captured, droppedGlobal, h)
    }

    ghost predicate TailOk()
      reads this
    {
      TailAfter(history)
    }

    /** The per-request part holds the end of h. */
    ghost predicate RequestsAfter(h: seq<Entry>)
      reads this
    {
      && 0 < perRequest && 0 < maxRequests
      && lru == Retained(h, maxRequests)
      && (forall id :: id in buckets <==> id in lru)
      && WindowsHold(buckets, h, perRequest, maxRequests, {})
      && droppedRequests == Evictions(h, maxRequests)
      && droppedPerRequest == Overwrites(h, perRequest, maxRequests)
    }

    ghost predicate RequestsOk()
      reads this
    {
      RequestsAfter(history)
    }

    ghost predicate Valid()
      reads this
    {
      TailOk() && RequestsOk()
    }

    constructor (capacity: int, perRequest: int, maxRequests: int)
      ensures Valid() && history == []
      ensures this.capacity == (if capacity > 0 then capacity else 4096)
      ensures this.perRequest == (if perRequest > 0 then perRequest else 256)
      ensures this.maxRequests == (if maxRequests > 0 then maxRequests else 512)
    {
      this.capacity := if capacity > 0 then capacity else 4096;
      this.perRequest := if perRequest > 0 then perRequest else 256;
      this.maxRequests := if maxRequests > 0 then maxRequests else 512;
      tail, tailHead, buckets, lru := [], 0, map[], [];
      captured, droppedGlobal, droppedPerRequest, droppedRequests := 0, 0, 0, 0;
      history := [];
    }

    /** Records one entry in the global window and in its request's window. */
    method Capture(e: Entry)
      requires Valid()
      modifies this
      ensures Valid() && history == old(history) + [e]
    {
      CaptureTail(e);
      CaptureRequest(e);
      assert TailAfter(history + [e]) && RequestsAfter(history + [e]);
      history := history + [e];
    }

    /** The global part; history still ends before e. */
    method CaptureTail(e: Entry)
      requires TailOk()
      modifies this`captured, this`tail, this`tailHead, this`droppedGlobal
      ensures TailAfter(history + [e])
    {
      captured := captured + 1;
      if |tail| < capacity {
        AppendHolds(tail, tailHead, capacity, history, e);
        tail := tail + [e];
      } else {
        OverwriteHolds(tail, tailHead, capacity, history, e);
        tail := tail[tailHead := e];
        tailHead := (tailHead + 1) % capacity;
        droppedGlobal := droppedGlobal + 1;
      }
    }

    /** The per-request part; history still ends before e. */
    method CaptureRequest(e: Entry)
      requires RequestsOk()
      modifies this`buckets, this`lru, this`droppedPerRequest, this`droppedRequests
      ensures RequestsAfter(history + [e])
    {
      if e.requestId == NoRequest {
        RetainedDistinct(history, maxRequests);
        OneMoreCapture(history, e, perRequest, maxRequests);
        UntouchedWindows(buckets, history, e, perRequest, maxRequests);
        return;
      }
      var b := Admit(e);
      Record(e, b);
    }

    /** What Admit hands to Record: the id is the most recent, and b is its window so far. */
    ghost predicate Admitted(e: Entry, b: Bucket)
      reads this
    {
      && 0 < perRequest && 0 < maxRequests && e.requestId != NoRequest
      && lru == Retained(history + [e], maxRequests)
      && (forall k :: k in lru <==> k in buckets || k == e.requestId)
      && WindowsHold(buckets, history, perRequest, maxRequests, {e.requestId})
      && BucketHolds(b, perRequest, WindowBefore(history, e, maxRequests))
      && droppedRequests == Evictions(history + [e], maxRequests)
      && droppedPerRequest == Overwrites(history, perRequest, maxRequests)
    }

    method Admit(e: Entry) returns (b: Bucket)
      requires RequestsOk() && e.requestId != NoRequest
      modifies this`buckets, this`lru, this`droppedRequests
      ensures Admitted(e, b)
    {
      RetainedStep(history, e, maxRequests);
      OneMoreCapture(history, e, perRequest, maxRequests);
      RetainedDistinct(history, maxRequests);
      if e.requestId !in buckets {
        b := AdmitNew(e);
      } else {
        b := buckets[e.requestId];
        WithoutKeepsRest(lru, e.requestId);
        lru := Without(lru, e.requestId) + [e.requestId];
      }
    }

    method AdmitNew(e: Entry) returns (b: Bucket)
      requires RequestsOk() && e.requestId != NoRequest && e.requestId !in buckets
      requires Retained(history + [e], maxRequests)
               == (if |lru| < maxRequests then lru else lru[1..]) + [e.requestId]
      requires Evictions(history + [e], maxRequests)
               == droppedRequests + if |Recency(history)| >= maxRequests then 1 else 0
      modifies this`buckets, this`lru, this`droppedRequests
      ensures Admitted(e, b)
    {
      ghost var before := buckets;
      MakeRoom();
      FewerWindowsHold(before, buckets, history, perRequest, maxRequests, {e.requestId});
      b := Bucket([], 0, false);
      EmptyBucket();
      lru := lru + [e.requestId];
    }

    method MakeRoom()
      requires RequestsOk()
      modifies this`buckets, this`lru, this`droppedRequests
      ensures lru == if |old(lru)| < maxRequests then old(lru) else old(lru)[1..]
      ensures forall k :: k in lru <==> k in buckets
      ensures forall k :: k in buckets ==> k in old(buckets) && buckets[k] == old(buckets)[k]
      ensures droppedRequests == old(droppedRequests) + if |Recency(history)| >= maxRequests then 1 else 0
    {
      BucketsMatchLru();
      ForgetOldest();
    }

    /** Forgets the least recent request when the bound is reached. */
    method ForgetOldest()
      requires 0 < maxRequests && |buckets| == |lru| && Distinct(lru) && (forall k :: k in buckets <==> k in lru)
      modifies this`buckets, this`lru, this`droppedRequests
      ensures lru == if |old(lru)| < maxRequests then old(lru) else old(lru)[1..]
      ensures forall k :: k in lru <==> k in buckets
      ensures forall k :: k in buckets ==> k in old(buckets) && buckets[k] == old(buckets)[k]
      ensures droppedRequests == old(droppedRequests) + if |old(lru)| >= maxRequests then 1 else 0
    {
      if |buckets| >= maxRequests {
        buckets := buckets - {lru[0]};
        DropFirst(lru);
        lru := lru[1..];
        droppedRequests := droppedRequests + 1;
      }
    }

    /** One entry into one window. */
    method Push(b0: Bucket, e: Entry, ghost since: seq<Entry>) returns (b: Bucket, overwrote: bool)
      requires BucketHolds(b0, perRequest, since)
      ensures BucketHolds(b, perRequest, since + [e]) && overwrote == (|since| >= perRequest)
    {
      b := b0;
      assert |Unrolled(b.entries, b.head)| == |b.entries|;
      overwrote := false;
      if |b.entries| < perRequest {
        AppendHolds(b.entries, b.head, perRequest, since, e);
        b := b.(entries := b.entries + [e]);
        if |b.entries| == perRequest {
          b := b.(full := true, head := 0);
        }
      } else {
        OverwriteHolds(b.entries, b.head, perRequest, since, e);
        b := b.(entries := b.entries[b.head := e], head := (b.head + 1) % perRequest);
        overwrote := true;
      }
    }

    method Record(e: Entry, b0: Bucket)
      requires Admitted(e, b0)
      modifies this`buckets, this`droppedPerRequest
      ensures RequestsAfter(history + [e])
    {
      ghost var since := WindowBefore(history, e, maxRequests);
      var b, overwrote := Push(b0, e, since);
      if overwrote {
        droppedPerRequest := droppedPerRequest + 1;
      }
      RecordedWindows(buckets, b, history, e, perRequest, maxRequests);
      OneMoreCapture(history, e, perRequest, maxRequests);
      buckets := buckets[e.requestId := b];
    }

    lemma EmptyBucket()
      requires perRequest > 0
      ensures BucketHolds(Bucket([], 0, false), perRequest, [])
    {
    }

    lemma BucketsMatchLru()
      requires RequestsOk()
      ensures |buckets| == |lru| && Distinct(lru) && (|lru| >= maxRequests <==> |Recency(history)| >= maxRequests)
    {
      RetainedDistinct(history, maxRequests);
      assert buckets.Keys == set k | k in lru;
      DistinctSize(lru);
    }

    method ByRequestId(id: RequestId, q: Query) returns (out: seq<Entry>)
      requires Valid()
      ensures out == if id in Retained(history, maxRequests)
                     then Answer(LastN(SinceAdmitted(history, id, maxRequests), perRequest), q) else []
      ensures id in Retained(history, maxRequests) ==>
                NewestAtLevel(LastN(SinceAdmitted(history, id, maxRequests), perRequest), q, out)
    {
      if id == NoRequest {
        RecencyMeaning(history);
        return [];
      }
      if id !in buckets {
        return [];
      }
      var b := buckets[id];
      var entries := b.entries;
      if b.full {
        entries := ReadRing(b.entries, b.head);
      }
      assert entries == Unrolled(b.entries, b.head);
      out := FilterEntries(entries, q);
    }

    method Tail(q: Query) returns (out: seq<Entry>)
      requires Valid()
      ensures out == Answer(LastN(history, capacity), q) && NewestAtLevel(LastN(history, capacity), q, out)
    {
      var entries := ReadRing(tail, tailHead);
      out := FilterEntries(entries, q);
    }

    method GetStats() returns (s: Stats)
      requires Valid()
      ensures s == Stats(|history|, |history| - |LastN(history, capacity)|,
                         Overwrites(history, perRequest, maxRequests), Evictions(history, maxRequests),
                         |Retained(history, maxRequests)|)
    {
      BucketsMatchLru();
      assert |Unrolled(tail, tailHead)| == |tail|;
      s := Stats(captured, droppedGlobal, droppedPerRequest, droppedRequests, |buckets|);
    }
  }

  lemma DropFirst(ids: seq<RequestId>)
    requires ids != [] && Distinct(ids)
    ensures forall k :: k in ids[1..] <==> k in ids && k != ids[0]
  {
    assert forall k :: k in ids <==> k == ids[0] || k in ids[1..];
  }

  lemma RetainedDistinct(h: seq<Entry>, maxRequests: nat)
    ensures Distinct(Retained(h, maxRequests)) && NoRequest !in Retained(h, maxRequests)
    ensures |Retained(h, maxRequests)| == Min(|Recency(h)|, maxRequests)
  {
    RecencyMeaning(h);
  }

  lemma {:induction false} DistinctSize(xs: seq<RequestId>)
    requires Distinct(xs)
    ensures |set k | k in xs| == |xs|
  {
    if xs != [] {
      var n := |xs| - 1;
      DistinctSize(xs[..n]);
      assert (set k | k in xs) == (set k | k in xs[..n]) + {xs[n]};
    }
  }
}
