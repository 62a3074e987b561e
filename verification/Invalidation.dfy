/** Page dependencies, the tombstones over the embedded snapshot, and invalidation through both
    the cache and the snapshot. */
module Invalidation {
  import opened Common
  import opened Paths
  import opened PageCache
  import opened Sequences

  // ---- the dependency graph ----------------------------------------------

  type Deps = map<string, seq<string>>

  function Dependents(deps: Deps, p: string): seq<string> {
    if p in deps then deps[p] else []
  }

  /** walk goes from one pattern to another along registered dependencies. */
  ghost predicate IsWalk(deps: Deps, walk: seq<string>) {
    walk != [] && forall i :: 0 <= i < |walk| - 1 ==> walk[i + 1] in Dependents(deps, walk[i])
  }

  ghost predicate Reaches(deps: Deps, from: string, to: string) {
    exists walk :: IsWalk(deps, walk) && walk[0] == from && walk[|walk| - 1] == to
  }

  function Nodes(deps: Deps, from: string): set<string> {
    {from} + set p, i | p in deps && 0 <= i < |deps[p]| :: deps[p][i]
  }

  lemma ReachExtends(deps: Deps, from: string, mid: string, to: string)
    requires Reaches(deps, from, mid) && to in Dependents(deps, mid)
    ensures Reaches(deps, from, to)
  {
    var walk :| IsWalk(deps, walk) && walk[0] == from && walk[|walk| - 1] == mid;
    assert IsWalk(deps, walk + [to]);
    assert (walk + [to])[0] == from && (walk + [to])[|walk|] == to;
  }

  ghost predicate ClosedUnder(deps: Deps, s: seq<string>) {
    forall p, q :: p in s && q in Dependents(deps, p) ==> q in s
  }

  lemma {:induction false} WalkStaysInside(deps: Deps, s: seq<string>, walk: seq<string>, n: nat)
    requires ClosedUnder(deps, s) && IsWalk(deps, walk) && walk[0] in s && n < |walk|
    ensures walk[n] in s
    decreases n
  {
    if n > 0 {
      WalkStaysInside(deps, s, walk, n - 1);
    }
  }

  lemma ClosedHoldsReachable(deps: Deps, s: seq<string>, from: string, to: string)
    requires ClosedUnder(deps, s) && from in s && Reaches(deps, from, to)
    ensures to in s
  {
    var walk :| IsWalk(deps, walk) && walk[0] == from && walk[|walk| - 1] == to;
    WalkStaysInside(deps, s, walk, |walk| - 1);
  }

  /** Of everything that has left the queue, all dependents are known. */
  ghost predicate VisitedDone(deps: Deps, out: seq<string>, queue: seq<string>) {
    forall p, q :: p in out && p !in queue && q in Dependents(deps, p) ==> q in out
  }

  lemma VisitedClosed(deps: Deps, cur: string, known: seq<string>, waiting: seq<string>, out: seq<string>,
                      queue: seq<string>)
    requires waiting != [] && waiting[0] == cur && VisitedDone(deps, known, waiting)
    requires forall p :: p in out <==> p in known || p in Dependents(deps, cur)
    requires forall p :: p in queue <==> p in waiting[1..] || (p in out && p !in known)
    ensures VisitedDone(deps, out, queue)
  {
    forall p, q | p in out && p !in queue && q in Dependents(deps, p) ensures q in out {
      if p != cur {
        assert p in known;
        assert p !in waiting by {
          assert waiting == [cur] + waiting[1..];
        }
      }
    }
  }

  class Registry {
    var deps: Deps

    constructor ()
      ensures deps == map[]
    {
      deps := map[];
    }

    /** Registering the same edge twice changes nothing; the source panics on the excluded inputs. */
    method RegisterDep(page: string, dependsOn: string)
      requires ValidPattern(page) && ValidPattern(dependsOn) && page != dependsOn
      modifies this
      ensures forall p, q :: q in Dependents(deps, p) <==>
                q in Dependents(old(deps), p) || (p == dependsOn && q == page)
      ensures |Dependents(deps, dependsOn)|
              == |Dependents(old(deps), dependsOn)| + if page in Dependents(old(deps), dependsOn) then 0 else 1
    {
      var pages := Dependents(deps, dependsOn);
      for i := 0 to |pages|
        invariant page !in pages[..i]
      {
        if pages[i] == page {
          return;
        }
      }
      deps := deps[dependsOn := pages + [page]];
    }

    /** The queue walk: every reachable pattern exactly once, whatever cycles there are. */
    method AffectedPatterns(pattern: string) returns (out: seq<string>)
      ensures Distinct(out) && |out| > 0 && out[0] == pattern
      ensures forall p :: p in out <==> Reaches(deps, pattern, p)
    {
      out := [pattern];
      var seen := {pattern};
      var queue := [pattern];
      assert IsWalk(deps, [pattern]);
      ghost var nodes := Nodes(deps, pattern);
      while |queue| > 0
        invariant Distinct(out) && |out| > 0 && out[0] == pattern
        invariant seen == set p | p in out
        invariant seen <= nodes
        invariant forall p :: p in out ==> Reaches(deps, pattern, p)
        invariant forall p :: p in queue ==> p in out
        invariant VisitedDone(deps, out, queue)
        decreases nodes - seen, |queue|
      {
        var cur := queue[0];
        ghost var (known, waiting) := (out, queue);
        out, seen, queue := VisitAll(pattern, cur, out, seen, queue[1..]);
        VisitedClosed(deps, cur, known, waiting, out, queue);
      }
      forall p | Reaches(deps, pattern, p) ensures p in out {
        ClosedHoldsReachable(deps, out, pattern, p);
      }
    }

    /** The inner loop: queue the dependents of cur that have not been seen. */
    method VisitAll(pattern: string, cur: string, out0: seq<string>, seen0: set<string>, queue0: seq<string>)
      returns (out: seq<string>, seen: set<string>, queue: seq<string>)
      requires Distinct(out0) && |out0| > 0 && out0[0] == pattern && cur in out0
      requires seen0 == (set p | p in out0) && seen0 <= Nodes(deps, pattern)
      requires forall p :: p in out0 ==> Reaches(deps, pattern, p)
      ensures Distinct(out) && out0 <= out && queue0 <= queue
      ensures seen == (set p | p in out) && seen0 <= seen <= Nodes(deps, pattern)
      ensures forall p :: p in out ==> Reaches(deps, pattern, p)
      ensures forall p :: p in out <==> p in out0 || p in Dependents(deps, cur)
      ensures forall p :: p in queue <==> p in queue0 || (p in out && p !in out0)
      ensures seen == seen0 ==> queue == queue0
    {
      out, seen, queue := out0, seen0, queue0;
      var next := Dependents(deps, cur);
      for i := 0 to |next|
        invariant Distinct(out) && out0 <= out && queue0 <= queue
        invariant seen == set p | p in out
        invariant seen0 <= seen <= Nodes(deps, pattern)
        invariant forall p :: p in out ==> Reaches(deps, pattern, p)
        invariant forall p :: p in out <==> p in out0 || p in next[..i]
        invariant forall p :: p in queue <==> p in queue0 || (p in out && p !in out0)
        invariant seen == seen0 ==> queue == queue0
      {
        assert next[..i + 1] == next[..i] + [next[i]];
        if next[i] in seen {
          continue;
        }
        ReachExtends(deps, pattern, cur, next[i]);
        assert next[i] !in seen0;
        seen := seen + {next[i]};
        out := out + [next[i]];
        queue := queue + [next[i]];
      }
      assert next[..|next|] == next;
    }
  }

  // ---- what an invalidation is about --------------------------------------

  /** The one path a pattern denotes for these parameters, if it denotes a single one. */
  function Target(pattern: string, params: Params): Option<string> {
    if !HasParams(pattern) then Some(pattern) else ExpandSpec(pattern, params)
  }

  /** A page is affected when it is the target, or, where the parameters do not expand the
      pattern, when the pattern matches it. */
  predicate Affected(pattern: string, params: Params, path: string) {
    match Target(pattern, params)
    case Some(loc) => path == loc
    case None => MatchSpec(pattern, path).Some?
  }

  ghost function AffectedSet(pattern: string, params: Params): iset<string> {
    iset p | Affected(pattern, params, p)
  }

  predicate AffectedBySome(patterns: seq<string>, params: Params, path: string) {
    exists i :: 0 <= i < |patterns| && Affected(patterns[i], params, path)
  }

  ghost function AffectedByAny(patterns: seq<string>, params: Params): iset<string> {
    iset p | AffectedBySome(patterns, params, p)
  }

  /** The cache can be told to forget the pattern's page: a single target must have a cache key. */
  predicate Forgettable(pattern: string, params: Params) {
    Target(pattern, params).None? || CacheKey(Target(pattern, params).value).Some?
  }

  /** The affected paths are gone from the cache, every other path is as it was. */
  ghost predicate Kept(before: map<string, Entry>, after: map<string, Entry>, gone: iset<string>) {
    forall p :: CacheKey(p).Some? ==> StaleSpec(after, p) == if p in gone then None else StaleSpec(before, p)
  }

  lemma AffectedByOneMore(patterns: seq<string>, i: nat, params: Params)
    requires i < |patterns|
    ensures AffectedByAny(patterns[..i + 1], params)
            == AffectedByAny(patterns[..i], params) + AffectedSet(patterns[i], params)
  {
    var longer := patterns[..i + 1];
    assert forall j :: 0 <= j < i ==> longer[j] == patterns[..i][j];
    assert longer[i] == patterns[i];
  }

  /** An expanded path contains no parameter segment, so it is recorded as a concrete path. */
  lemma ExpandedHasNoParams(pattern: string, params: Params)
    requires ExpandSpec(pattern, params).Some?
    ensures !HasParams(ExpandSpec(pattern, params).value)
  {
    var segs := Split(pattern);
    JoinSplit(pattern);
    FilledSlashless(segs, params);
    var out := FillSegs(segs, params);
    SplitJoin(out);
    forall i | 0 <= i < |out| ensures !IsParam(out[i]) {
      assert Supplied(segs[i], params) && out[i] == Fill(segs[i], params);
    }
  }

  // ---- tombstones ---------------------------------------------------------

  class Tombstones {
    var exact: set<string>
    var patterns: seq<string>

    ghost predicate Dead(path: string)
      reads this
    {
      path in exact || exists i :: 0 <= i < |patterns| && MatchSpec(patterns[i], path).Some?
    }

    constructor ()
      ensures forall p :: !Dead(p)
    {
      exact, patterns := {}, [];
    }

    method Add(pathOrPattern: string)
      modifies this
      ensures HasParams(pathOrPattern) ==> forall p :: Dead(p) <==> old(Dead(p)) || MatchSpec(pathOrPattern, p).Some?
      ensures !HasParams(pathOrPattern) ==> forall p :: Dead(p) <==> old(Dead(p)) || p == pathOrPattern
    {
      if HasParams(pathOrPattern) {
        for i := 0 to |patterns|
          invariant forall j :: 0 <= j < i ==> patterns[j] != pathOrPattern
        {
          if patterns[i] == pathOrPattern {
            return;
          }
        }
        ghost var before := patterns;
        patterns := patterns + [pathOrPattern];
        assert forall i :: 0 <= i < |before| ==> patterns[i] == before[i];
        assert patterns[|before|] == pathOrPattern;
        return;
      }
      exact := exact + {pathOrPattern};
    }

    method Has(path: string) returns (dead: bool)
      ensures dead == Dead(path)
    {
      if path in exact {
        return true;
      }
      for i := 0 to |patterns|
        invariant forall j :: 0 <= j < i ==> MatchSpec(patterns[j], path).None?
      {
        var m := Match(patterns[i], path);
        if m.Some? {
          return true;
        }
      }
      return false;
    }
  }

  // ---- the service --------------------------------------------------------

  function EvictionTest(pattern: string): string -> bool {
    key => MatchSpec(pattern, KeyToPath(key)).Some?
  }

  function Embedded(snapshot: map<string, string>, path: string): Option<string> {
    match PageFile(path)
    case None => None
    case Some(file) => if file in snapshot then Some(snapshot[file]) else None
  }

  /** A page an invalidation is about, through whichever reachable pattern. */
  ghost predicate PageAffected(deps: Deps, pattern: string, params: Params, path: string) {
    exists q :: Reaches(deps, pattern, q) && Affected(q, params, path)
  }

  class Service {
    const cache: LayeredCache
    const registry: Registry
    const dead: Tombstones
    /** The prerendered page files shipped with the build; read-only. */
    const snapshot: map<string, string>

    ghost predicate Valid()
      reads this, cache, cache.mem
    {
      cache.Valid()
    }

    constructor (cache: LayeredCache, registry: Registry, snapshot: map<string, string>)
      requires cache.Valid()
      ensures Valid() && this.cache == cache && this.registry == registry && this.snapshot == snapshot
      ensures fresh(dead) && forall p :: !dead.Dead(p)
    {
      this.cache, this.registry, this.snapshot := cache, registry, snapshot;
      dead := new Tombstones();
    }

    /** The embedded layer, consulted before the cache. */
    method EmbedPage(path: string) returns (html: Option<string>)
      ensures html == if dead.Dead(path) then None else Embedded(snapshot, path)
    {
      var gone := dead.Has(path);
      if gone {
        return None;
      }
      var file := PageFile(path);
      if file.None? || file.value !in snapshot {
        return None;
      }
      return Some(snapshot[file.value]);
    }

    /** Tombstone first, then the cache: the order the source uses in every branch. */
    method InvalidateTarget(loc: string) returns (ok: bool)
      requires Valid() && !HasParams(loc)
      modifies cache, cache.mem, dead
      ensures Valid()
      ensures ok <==> CacheKey(loc).Some?
      ensures forall p :: dead.Dead(p) <==> old(dead.Dead(p)) || p == loc
      ensures Kept(old(cache.Backing()), cache.Backing(), iset{loc})
    {
      dead.Add(loc);
      ghost var before := cache.Backing();
      var invalid := cache.Delete([loc]);
      DeleteOne(before, cache.Backing(), loc);
      return invalid == [];
    }

    method InvalidateMatches(pattern: string)
      requires Valid() && HasParams(pattern)
      modifies cache, cache.mem, dead
      ensures Valid()
      ensures forall p :: dead.Dead(p) <==> old(dead.Dead(p)) || MatchSpec(pattern, p).Some?
      ensures Kept(old(cache.Backing()), cache.Backing(), iset p | MatchSpec(pattern, p).Some?)
    {
      Bury(pattern);
      EvictMatches(pattern);
    }

    /** The cache alone; the tombstones are not touched. */
    method EvictMatches(pattern: string)
      requires Valid() && HasParams(pattern)
      modifies cache, cache.mem
      ensures Valid()
      ensures Kept(old(cache.Backing()), cache.Backing(), iset p | MatchSpec(pattern, p).Some?)
    {
      EvictedAreMatches(cache.Backing(), pattern);
      var _ := cache.EvictMatching(EvictionTest(pattern));
    }

    /** The tombstone alone; the cache is not touched. */
    method Bury(pattern: string)
      requires Valid() && HasParams(pattern)
      modifies dead
      ensures Valid() && cache.Backing() == old(cache.Backing())
      ensures forall p :: dead.Dead(p) <==> old(dead.Dead(p)) || MatchSpec(pattern, p).Some?
    {
      dead.Add(pattern);
    }

    method InvalidatePattern(pattern: string, params: Params) returns (ok: bool)
      requires Valid()
      modifies cache, cache.mem, dead
      ensures Valid()
      ensures ok <==> Forgettable(pattern, params)
      ensures forall p :: dead.Dead(p) <==> old(dead.Dead(p)) || p in AffectedSet(pattern, params)
      ensures Kept(old(cache.Backing()), cache.Backing(), AffectedSet(pattern, params))
    {
      if !HasParams(pattern) {
        assert AffectedSet(pattern, params) == iset{pattern};
        ok := InvalidateTarget(pattern);
        return;
      }
      var loc := ExpandPath(pattern, params);
      if loc.Some? {
        ExpandedHasNoParams(pattern, params);
        assert AffectedSet(pattern, params) == iset{loc.value};
        ok := InvalidateTarget(loc.value);
        return;
      }
      assert AffectedSet(pattern, params) == iset p | MatchSpec(pattern, p).Some?;
      InvalidateMatches(pattern);
      return true;
    }

    method Invalidate(pattern: string, params: Params) returns (ok: bool, ghost affected: seq<string>)
      requires Valid()
      modifies cache, cache.mem, dead
      ensures Valid()
      ensures Distinct(affected) && forall q :: q in affected <==> Reaches(registry.deps, pattern, q)
      ensures ok <==> forall q :: q in affected ==> Forgettable(q, params)
      ensures ok ==> forall p :: dead.Dead(p) <==> old(dead.Dead(p)) || p in AffectedByAny(affected, params)
      ensures ok ==> Kept(old(cache.Backing()), cache.Backing(), AffectedByAny(affected, params))
    {
      var pats := registry.AffectedPatterns(pattern);
      affected := pats;
      ghost var before := cache.Backing();
      for i := 0 to |pats|
        invariant Valid()
        invariant forall q :: q in pats[..i] ==> Forgettable(q, params)
        invariant forall p :: dead.Dead(p) <==> old(dead.Dead(p)) || p in AffectedByAny(pats[..i], params)
        invariant Kept(before, cache.Backing(), AffectedByAny(pats[..i], params))
      {
        assert pats[..i + 1] == pats[..i] + [pats[i]];
        AffectedByOneMore(pats, i, params);
        ghost var mid := cache.Backing();
        ok := InvalidatePattern(pats[i], params);
        if !ok {
          assert pats[i] in pats;
          return;
        }
      }
      assert pats[..|pats|] == pats;
      return true, pats;
    }
  }

  lemma DeleteOne(before: map<string, Entry>, after: map<string, Entry>, path: string)
    requires after == before - KeysOf([path])
    ensures Kept(before, after, iset{path})
    ensures InvalidPaths([path]) == [] <==> CacheKey(path).Some?
  {
    assert [path][..0] == [];
    forall p | CacheKey(p).Some? ensures StaleSpec(after, p) == if p == path then None else StaleSpec(before, p) {
      if CacheKey(p) == CacheKey(path) {
        CacheKeyInjective(p, path);
      }
    }
  }

  lemma EvictedAreMatches(before: map<string, Entry>, pattern: string)
    ensures Kept(before, Unmatched(before, EvictionTest(pattern)), iset p | MatchSpec(pattern, p).Some?)
  {
    forall p | CacheKey(p).Some?
      ensures StaleSpec(Unmatched(before, EvictionTest(pattern)), p)
              == if MatchSpec(pattern, p).Some? then None else StaleSpec(before, p)
    {
      KeyToPathInverts(p);
    }
  }

  /** After a successful invalidation none of the three layers serves an affected page under its path,
      and no other path serves the page's file from the snapshot, with one exception: tombstones
      are kept by path, and the root's file is also read for /index, which goes on serving it unless
      it is dead or affected itself. */
  method ServeAfterInvalidate(s: Service, pattern: string, params: Params, path: string, other: string, now: int)
    returns (ok: bool, embedded: Option<string>, sameFile: Option<string>, cached: Option<Entry>, stale: Option<Entry>)
    requires s.Valid()
    modifies s.cache, s.cache.mem, s.dead
    ensures ok && PageAffected(s.registry.deps, pattern, params, path) ==>
              embedded == None && cached == None && stale == None
    ensures ok && PageAffected(s.registry.deps, pattern, params, path) && PageFile(other).Some?
            && PageFile(other) == PageFile(path) ==>
              (sameFile.Some? <==>
                 && ((path == "/" && other == "/index") || (path == "/index" && other == "/"))
                 && PageFile(other).value in s.snapshot
                 && !old(s.dead.Dead(other)) && !PageAffected(s.registry.deps, pattern, params, other))
  {
    ghost var pats;
    ok, pats := s.Invalidate(pattern, params);
    embedded := s.EmbedPage(path);
    sameFile := s.EmbedPage(other);
    stale := s.cache.GetStale(path);
    cached := s.cache.Get(path, now);
    if ok {
      AffectedMeansListed(s.registry.deps, pats, pattern, params, path);
      AffectedMeansListed(s.registry.deps, pats, pattern, params, other);
      if PageFile(other).Some? && PageFile(path).Some? {
        PageFilesCollideOnlyAtTheRoot(path, other);
      }
    }
  }

  lemma AffectedMeansListed(deps: Deps, pats: seq<string>, pattern: string, params: Params, path: string)
    requires forall q :: q in pats <==> Reaches(deps, pattern, q)
    ensures path in AffectedByAny(pats, params) <==> PageAffected(deps, pattern, params, path)
  {
    if AffectedBySome(pats, params, path) {
      var i :| 0 <= i < |pats| && Affected(pats[i], params, path);
      assert pats[i] in pats;
    }
    if PageAffected(deps, pattern, params, path) {
      var q :| Reaches(deps, pattern, q) && Affected(q, params, path);
      assert q in pats;
    }
  }

  /** The operation may write this path: a put of it, or a load that answers for it. */
  predicate MayWrite(op: Op, path: string) {
    (op.DoPut? && op.path == path) || (op.DoLoad? && op.path == path && op.loaded.Some?)
  }

  /** Once a path is out of the cache, no run that neither puts nor loads it brings it back. */
  lemma {:induction false} GoneUntilPut(m: map<string, Entry>, ops: seq<Op>, path: string, buildId: string, ttl: int)
    requires StaleSpec(m, path).None?
    requires forall i :: 0 <= i < |ops| ==> !MayWrite(ops[i], path)
    ensures StaleSpec(Effects(m, ops, buildId, ttl), path).None?
  {
    if ops != [] {
      GoneUntilPut(m, ops[..|ops| - 1], path, buildId, ttl);
      var op := ops[|ops| - 1];
      if (op.DoPut? || op.DoLoad?) && CacheKey(op.path).Some? && CacheKey(op.path) == CacheKey(path) {
        CacheKeyInjective(op.path, path);
      }
    }
  }
}
