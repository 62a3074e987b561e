/** How long a page is served and which pages are, said in times and builds. */
module PageServing {
  import opened Common
  import opened Paths
  import opened Sequences
  import opened PageCache

  /** The entry as the cache keeps it: of its build, and built when it was put unless it says when. */
  function Kept(ent: Entry, buildId: string, t: int): Entry {
    Entry(ent.html, ent.propsHash, if ent.builtAt == 0 then t else ent.builtAt, buildId)
  }

  /** An entry put at time t is answered until its time to live is over, counted from when it was built,
      and by a stale lookup after that, too; other paths are served as before. */
  lemma PutIsServedUntilTtl(m: map<string, Entry>, path: string, ent: Entry, buildId: string, ttl: int, t: int,
                            now: int, other: string)
    requires CacheKey(path).Some? && (ent.buildId == "" || ent.buildId == buildId)
    ensures var (m', kept) := (PutSpec(m, path, ent, buildId, t).0, Kept(ent, buildId, t));
            && LookupSpec(m', path, now, ttl) == (if now <= kept.builtAt + ttl then Some(kept) else None)
            && StaleSpec(m', path) == Some(kept)
            && (other != path ==>
                  LookupSpec(m', other, now, ttl) == LookupSpec(m, other, now, ttl)
                  && StaleSpec(m', other) == StaleSpec(m, other))
  {
    if other != path && CacheKey(other).Some? && CacheKey(other) == CacheKey(path) {
      CacheKeyInjective(other, path);
    }
  }

  /** An entry of another build, or for a path without a key, is refused and changes nothing. */
  lemma PutIsRefused(m: map<string, Entry>, path: string, ent: Entry, buildId: string, t: int)
    requires CacheKey(path).None? || (ent.buildId != "" && ent.buildId != buildId)
    ensures PutSpec(m, path, ent, buildId, t)
            == (m, Some(if CacheKey(path).None? then InvalidKey else BuildMismatch))
  {
  }

  /** Through both layers, or memory alone: put, then get. */
  method PutThenGet(c: LayeredCache, path: string, ent: Entry, t: int, now: int) returns (got: Option<Entry>)
    requires c.Valid() && CacheKey(path).Some? && (ent.buildId == "" || ent.buildId == c.buildId)
    modifies c, c.mem
    ensures c.Valid()
    ensures var kept := Kept(ent, c.buildId, t); got == if now <= kept.builtAt + c.ttl then Some(kept) else None
  {
    ghost var before := c.Backing();
    var _ := c.Put(path, ent, t);
    PutIsServedUntilTtl(before, path, ent, c.buildId, c.ttl, t, now, path);
    WrittenIsListed(old(c.mem.ll), CacheKey(path).value, c.mem.max);
    got := c.Get(path, now);
  }

  lemma WrittenIsListed(ll: seq<string>, key: string, max: nat)
    requires max > 0
    ensures key in Written(ll, key, max)
  {
    assert ([key] + Without(ll, key))[0] == key;
    assert Written(ll, key, max)[0] == key;
  }

  /** A load stores its answer: until it is too old the loader is not asked again. */
  method LoadThenLoad(c: LayeredCache, path: string, first: Entry, t: int, second: Option<Entry>, now: int)
    returns (again: Option<Entry>, hit: bool)
    requires c.Valid() && CacheKey(path).Some? && (first.buildId == "" || first.buildId == c.buildId)
    requires LookupSpec(c.Backing(), path, t, c.ttl).None?
    modifies c, c.mem
    ensures c.Valid()
    ensures var kept := Kept(first, c.buildId, t);
            && (hit <==> now <= kept.builtAt + c.ttl)
            && again == if hit then Some(kept) else second
  {
    ghost var before := c.Backing();
    var _, _ := c.GetOrLoad(path, Some(first), t);
    WrittenIsListed(old(c.mem.ll), CacheKey(path).value, c.mem.max);
    PutIsServedUntilTtl(before, path, first, c.buildId, c.ttl, t, now, path);
    again, hit := c.GetOrLoad(path, second, now);
  }

  /** The keys that are listed, and counted by an eviction: those in memory, and with a disk those of the
      entry files, of whatever build. */
  lemma TrackedMeaning(c: LayeredCache, k: string)
    ensures k in c.Tracked() <==> k in c.mem.items || (c.hasDisk && EntryFile(k) in c.disk)
  {
  }

  /** A cache opened over a disk serves exactly the entries of its own build that are not too old. */
  method GetFromDisk(disk: Disk, buildId: string, ttl: int, path: string, now: int) returns (got: Option<Entry>)
    requires buildId != ""
    ensures got.Some? ==>
              && CacheKey(path).Some? && EntryFile(CacheKey(path).value) in disk
              && disk[EntryFile(CacheKey(path).value)] == Encoded(got.value)
              && got.value.buildId == buildId && now <= got.value.builtAt + (if ttl <= 0 then 3600 else ttl)
    ensures got.None? && CacheKey(path).Some? && EntryFile(CacheKey(path).value) in disk ==>
              var blob := disk[EntryFile(CacheKey(path).value)];
              blob.Garbled? || blob.ent.buildId != buildId || now > blob.ent.builtAt + (if ttl <= 0 then 3600 else ttl)
  {
    var c := new LayeredCache(buildId, 0, ttl, true, disk);
    got := c.Get(path, now);
  }

  /** The entry, if it is not too old. */
  function Fresh(ent: Option<Entry>, now: int, ttl: int): Option<Entry> {
    if ent.Some? && now <= ent.value.builtAt + ttl then ent else None
  }

  /** What a read is told by the last entry written for its path: a get if it is not too old, a stale get
      whatever its age, and a load likewise, with the loader's answer in its place. */
  function Told(m: map<string, Entry>, before: seq<Op>, op: Op, buildId: string, ttl: int): Option<Entry> {
    if !(op.DoGet? || op.DoStale? || op.DoLoad?) || CacheKey(op.path).None? then None
    else
      var last := LastWrite(m, before, CacheKey(op.path).value, buildId, ttl);
      if op.DoStale? then last
      else if Fresh(last, op.now, ttl).Some? || op.DoGet? then Fresh(last, op.now, ttl)
      else op.loaded
  }

  lemma LastAnswer(m: map<string, Entry>, before: seq<Op>, op: Op, buildId: string, ttl: int)
    ensures OpAnswer(Effects(m, before, buildId, ttl), op, ttl) == Told(m, before, op, buildId, ttl)
  {
    if (op.DoGet? || op.DoStale? || op.DoLoad?) && CacheKey(op.path).Some? {
      ServedIsLastWrite(m, before, op.path, if op.DoStale? then 0 else op.now, buildId, ttl);
    }
  }

  /** In a run every answer is what the last write of its path tells. */
  lemma {:induction false} AnswersMeaning(m: map<string, Entry>, ops: seq<Op>, buildId: string, ttl: int)
    ensures |Answers(m, ops, buildId, ttl)| == |ops|
    ensures forall i :: 0 <= i < |ops| ==>
              Answers(m, ops, buildId, ttl)[i] == Told(m, ops[..i], ops[i], buildId, ttl)
  {
    if ops != [] {
      var (front, last) := (ops[..|ops| - 1], ops[|ops| - 1]);
      AnswersMeaning(m, front, buildId, ttl);
      LastAnswer(m, front, last, buildId, ttl);
      forall i | 0 <= i < |ops|
        ensures Answers(m, ops, buildId, ttl)[i] == Told(m, ops[..i], ops[i], buildId, ttl)
      {
        assert i < |front| ==> front[..i] == ops[..i];
      }
    }
  }
}
