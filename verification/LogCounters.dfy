/** Where the captured entries went: the counters of the log ring add up. */
module LogCounters {
  import opened Common
  import opened Sequences
  import opened LogRing

  // ---- requests --------------------------------------------------------------

  /** Captures that brought in a request that was not retained. */
  function Admissions(h: seq<Entry>, maxRequests: nat): nat {
    if h == [] then 0
    else
      var (before, id) := (h[..|h| - 1], h[|h| - 1].requestId);
      Admissions(before, maxRequests) + if id != NoRequest && id !in Retained(before, maxRequests) then 1 else 0
  }

  /** Every request that was brought in is retained or was dropped. */
  lemma {:induction false} RequestsAddUp(h: seq<Entry>, maxRequests: nat)
    requires maxRequests > 0
    ensures Admissions(h, maxRequests) == |Retained(h, maxRequests)| + Evictions(h, maxRequests)
  {
    if h != [] {
      var (before, e) := (h[..|h| - 1], h[|h| - 1]);
      assert h == before + [e];
      RequestsAddUp(before, maxRequests);
      OneMoreCapture(before, e, 1, maxRequests);
      OneMoreRetained(before, e, maxRequests);
    }
  }

  lemma OneMoreRetained(h: seq<Entry>, e: Entry, maxRequests: nat)
    requires maxRequests > 0
    ensures var (lru, after, id) := (Retained(h, maxRequests), Retained(h + [e], maxRequests), e.requestId);
            && |after| == |lru| + (if id != NoRequest && id !in lru && |lru| < maxRequests then 1 else 0)
            && (|lru| < maxRequests <==> |Recency(h)| < maxRequests)
  {
    RetainedDistinct(h, maxRequests);
    OneMoreCapture(h, e, 1, maxRequests);
    if e.requestId != NoRequest {
      RetainedStep(h, e, maxRequests);
      if e.requestId in Retained(h, maxRequests) {
        WithoutKeepsRest(Retained(h, maxRequests), e.requestId);
      }
    }
  }

  // ---- entries ---------------------------------------------------------------

  /** Captures that name a request. */
  function Named(h: seq<Entry>): nat {
    if h == [] then 0 else Named(h[..|h| - 1]) + if h[|h| - 1].requestId != NoRequest then 1 else 0
  }

  /** How many entries the window of a request holds. */
  function InWindow(h: seq<Entry>, id: RequestId, perRequest: nat, maxRequests: nat): nat {
    Min(|SinceAdmitted(h, id, maxRequests)|, perRequest)
  }

  function InWindows(h: seq<Entry>, ids: seq<RequestId>, perRequest: nat, maxRequests: nat): nat {
    if ids == [] then 0
    else InWindows(h, ids[..|ids| - 1], perRequest, maxRequests) + InWindow(h, ids[|ids| - 1], perRequest, maxRequests)
  }

  /** Entries that went when their request was dropped. */
  function Dropped(h: seq<Entry>, perRequest: nat, maxRequests: nat): nat {
    if h == [] then 0
    else
      var (before, id) := (h[..|h| - 1], h[|h| - 1].requestId);
      var lru := Retained(before, maxRequests);
      Dropped(before, perRequest, maxRequests)
      + if id != NoRequest && id !in lru && 0 < maxRequests <= |lru|
        then InWindow(before, lru[0], perRequest, maxRequests) else 0
  }

  lemma {:induction false} InWindowsOfParts(h: seq<Entry>, a: seq<RequestId>, b: seq<RequestId>, per: nat, max: nat)
    ensures InWindows(h, a + b, per, max) == InWindows(h, a, per, max) + InWindows(h, b, per, max)
    decreases |b|
  {
    if b == [] {
      assert a + b == a;
    } else {
      var n := |b| - 1;
      InWindowsOfParts(h, a, b[..n], per, max);
      assert (a + b)[..|a + b| - 1] == a + b[..n];
    }
  }

  lemma InWindowsAround(h: seq<Entry>, a: seq<RequestId>, id: RequestId, b: seq<RequestId>, per: nat, max: nat)
    ensures InWindows(h, (a + [id]) + b, per, max) == InWindows(h, a + b, per, max) + InWindow(h, id, per, max)
  {
    InWindowsOfParts(h, a, b, per, max);
    InWindowsOfParts(h, a, [id], per, max);
    InWindowsOfParts(h, a + [id], b, per, max);
    OneWindow(h, id, per, max);
  }

  lemma InWindowsWithout(h: seq<Entry>, ids: seq<RequestId>, id: RequestId, per: nat, max: nat)
    requires Distinct(ids) && id in ids
    ensures InWindows(h, ids, per, max) == InWindows(h, Without(ids, id), per, max) + InWindow(h, id, per, max)
  {
    var a, b := SplitAround(ids, id);
    InWindowsAround(h, a, id, b, per, max);
  }

  lemma SplitAround(ids: seq<RequestId>, id: RequestId) returns (a: seq<RequestId>, b: seq<RequestId>)
    requires Distinct(ids) && id in ids
    ensures ids == (a + [id]) + b && Without(ids, id) == a + b
  {
    var p :| 0 <= p < |ids| && ids[p] == id;
    WithoutIsSplice(ids, p);
    a, b := ids[..p], ids[p + 1..];
  }

  lemma OneWindow(h: seq<Entry>, id: RequestId, per: nat, max: nat)
    ensures InWindows(h, [id], per, max) == InWindow(h, id, per, max)
  {
    assert [id][..0] == [];
  }

  /** Another request's capture leaves a window alone. */
  lemma {:induction false} SameWindows(h: seq<Entry>, e: Entry, ids: seq<RequestId>, per: nat, max: nat)
    requires e.requestId !in ids
    ensures InWindows(h + [e], ids, per, max) == InWindows(h, ids, per, max)
  {
    if ids != [] {
      SameWindows(h, e, ids[..|ids| - 1], per, max);
      OneMoreWindow(h, e, ids[|ids| - 1], max);
    }
  }

  /** A capture of a retained request: one more in its window, or one overwritten. */
  lemma KnownRequestAddsUp(h: seq<Entry>, e: Entry, per: nat, max: nat)
    requires 0 < per && 0 < max && e.requestId != NoRequest && e.requestId in Retained(h, max)
    ensures InWindows(h + [e], Retained(h + [e], max), per, max) + Overwrites(h + [e], per, max)
            == InWindows(h, Retained(h, max), per, max) + Overwrites(h, per, max) + 1
  {
    var (lru, id) := (Retained(h, max), e.requestId);
    RetainedDistinct(h, max);
    RetainedStep(h, e, max);
    OneMoreCapture(h, e, per, max);
    OneMoreWindow(h, e, id, max);
    WithoutKeepsRest(lru, id);
    InWindowsWithout(h, lru, id, per, max);
    SameWindows(h, e, Without(lru, id), per, max);
    InWindowsOfParts(h + [e], Without(lru, id), [id], per, max);
    OneWindow(h + [e], id, per, max);
  }

  /** A capture of a new request: one entry in a new window, and perhaps an old window that goes. */
  lemma NewRequestAddsUp(h: seq<Entry>, e: Entry, per: nat, max: nat)
    requires 0 < per && 0 < max && e.requestId != NoRequest && e.requestId !in Retained(h, max)
    ensures Overwrites(h + [e], per, max) == Overwrites(h, per, max)
    ensures var lru := Retained(h, max);
            InWindows(h + [e], Retained(h + [e], max), per, max)
            == InWindows(h, lru, per, max) + 1 - if |lru| < max then 0 else InWindow(h, lru[0], per, max)
  {
    var (lru, id) := (Retained(h, max), e.requestId);
    var kept := if |lru| < max then lru else lru[1..];
    RetainedDistinct(h, max);
    RetainedStep(h, e, max);
    OneMoreCapture(h, e, per, max);
    OneMoreWindow(h, e, id, max);
    SameWindows(h, e, kept, per, max);
    InWindowsOfParts(h + [e], kept, [id], per, max);
    OneWindow(h + [e], id, per, max);
    if |lru| >= max {
      InWindowsOfParts(h, [lru[0]], kept, per, max);
      OneWindow(h, lru[0], per, max);
      assert lru == [lru[0]] + kept;
    }
  }

  /** Every captured entry that names a request is in a window, was overwritten there, or went with its
      request. */
  lemma {:induction false} EntriesAddUp(h: seq<Entry>, per: nat, max: nat)
    requires 0 < per && 0 < max
    ensures Named(h) == InWindows(h, Retained(h, max), per, max) + Overwrites(h, per, max) + Dropped(h, per, max)
  {
    if h != [] {
      var (before, e) := (h[..|h| - 1], h[|h| - 1]);
      assert h == before + [e];
      EntriesAddUp(before, per, max);
      if e.requestId == NoRequest {
        RetainedDistinct(before, max);
        OneMoreCapture(before, e, per, max);
        SameWindows(before, e, Retained(before, max), per, max);
      } else if e.requestId in Retained(before, max) {
        KnownRequestAddsUp(before, e, per, max);
      } else {
        NewRequestAddsUp(before, e, per, max);
      }
    }
  }

  // ---- what a ring reports ---------------------------------------------------

  /** So the counters a ring reports account for everything it was given. */
  method Report(r: Ring) returns (s: Stats)
    requires r.Valid()
    ensures s.captured == |r.history|
    ensures s.droppedGlobal == if s.captured > r.capacity then s.captured - r.capacity else 0
    ensures s.requests + s.droppedRequests == Admissions(r.history, r.maxRequests)
    ensures s.droppedPerRequest
            == Named(r.history) - InWindows(r.history, Retained(r.history, r.maxRequests), r.perRequest, r.maxRequests)
               - Dropped(r.history, r.perRequest, r.maxRequests)
  {
    s := r.GetStats();
    RequestsAddUp(r.history, r.maxRequests);
    EntriesAddUp(r.history, r.perRequest, r.maxRequests);
  }
}
