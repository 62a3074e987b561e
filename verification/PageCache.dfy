/** The rendered-page cache: a bounded LRU in memory over entry files on disk. */
module PageCache {
  import opened Common
  import opened Paths
  import opened Ordering
  import opened Sequences

  /** builtAt == 0 is Go's zero time. */
  datatype Entry = Entry(html: string, propsHash: string, builtAt: int, buildId: string)

  // ---- the memory layer --------------------------------------------------

  function Newest<T>(xs: seq<T>, max: nat): seq<T> {
    if |xs| <= max then xs else xs[..max]
  }

  /** ll is the recency list, front first, its elements named by the key they hold; items is the
      index from key to element, giving the element's entry. */
  class MemCache {
    const max: nat
    var ll: seq<string>
    var items: map<string, Entry>

    /** The list and the index name the same keys, each once. */
    ghost predicate Linked()
      reads this
    {
      0 < max && Distinct(ll) && forall k :: k in ll <==> k in items
    }

    ghost predicate Valid()
      reads this
    {
      Linked() && |ll| <= max
    }

    constructor (max: nat)
      requires 0 < max
      ensures Valid() && items == map[] && ll == [] && this.max == max
    {
      this.max := max;
      ll, items := [], map[];
    }

    method MoveToFront(key: string)
      requires Linked() && key in items
      modifies this`ll
      ensures Linked() && |ll| == |old(ll)| && ll == [key] + Without(old(ll), key)
    {
      WithoutKeepsRest(ll, key);
      ll := [key] + Without(ll, key);
    }

    method Get(key: string) returns (ent: Option<Entry>)
      requires Valid()
      modifies this`ll
      ensures Valid()
      ensures ent == if key in items then Some(items[key]) else None
      ensures ll == if key in items then [key] + Without(old(ll), key) else old(ll)
    {
      if key !in items {
        return None;
      }
      MoveToFront(key);
      return Some(items[key]);
    }

    method Peek(key: string) returns (ent: Option<Entry>)
      ensures ent == if key in items then Some(items[key]) else None
    {
      if key !in items {
        return None;
      }
      return Some(items[key]);
    }

    /** The key becomes the most recent; what passes the bound falls out at the back. */
    method Put(key: string, ent: Entry)
      requires Valid()
      modifies this
      ensures Valid()
      ensures ll == Newest([key] + Without(old(ll), key), max)
      ensures key in items && items[key] == ent
      ensures forall k :: k in items && k != key ==> k in old(items) && items[k] == old(items)[k]
    {
      if key in items {
        WithoutKeepsRest(ll, key);
        items := items[key := ent];
        MoveToFront(key);
        return;
      }
      items := items[key := ent];
      assert [key] + ll == [key] + Without(ll, key);
      ll := [key] + ll;
      Trim();
      assert ll[0] == key;
    }

    /** Drops least recent keys until the bound holds. */
    method Trim()
      requires Linked()
      modifies this
      ensures Valid()
      ensures ll == Newest(old(ll), max)
      ensures forall k :: k in items ==> k in old(items) && items[k] == old(items)[k]
    {
      while |ll| > max
        invariant Linked() && |ll| <= |old(ll)| && (|ll| >= max || ll == old(ll))
        invariant ll == old(ll)[..|ll|]
        invariant forall k :: k in items ==> k in old(items) && items[k] == old(items)[k]
      {
        DropOldest();
      }
    }

    method DropOldest()
      requires Linked() && ll != []
      modifies this
      ensures Linked() && ll == old(ll)[..|old(ll)| - 1]
      ensures forall k :: k in items ==> k in old(items) && items[k] == old(items)[k]
    {
      var oldest := ll[|ll| - 1];
      assert forall k :: k in ll <==> k == oldest || k in ll[..|ll| - 1];
      assert oldest !in ll[..|ll| - 1];
      items := items - {oldest};
      ll := ll[..|ll| - 1];
    }

    method Delete(key: string)
      requires Valid()
      modifies this
      ensures Valid() && items == old(items) - {key} && ll == Without(old(ll), key)
    {
      WithoutKeepsRest(ll, key);
      if key in items {
        ll := Without(ll, key);
        items := items - {key};
      }
    }
  }

  // ---- memory over disk --------------------------------------------------

  /** What an entry file decodes to. */
  datatype Blob = Encoded(ent: Entry) | Garbled

  predicate Expired(ent: Entry, now: int, ttl: int) {
    now - ent.builtAt > ttl
  }

  /** A file under the cache directory: the entry file of a key (its disk name is DiskKey(key)),
      or a marker, sidecar or other file that no listing takes for an entry. */
  datatype File = EntryFile(key: string) | OtherFile(name: string)

  type Disk = map<File, Blob>

  function DiskKeys(disk: Disk): (keys: set<string>)
    ensures forall k :: k in keys <==> EntryFile(k) in disk
  {
    set f | f in disk && f.EntryFile? :: f.key
  }

  /** Entries of the current build on disk, by cache key. */
  function OnDisk(disk: Disk, buildId: string): map<string, Entry> {
    map k | k in DiskKeys(disk) && disk[EntryFile(k)].Encoded? && disk[EntryFile(k)].ent.buildId == buildId
      :: disk[EntryFile(k)].ent
  }

  lemma OnDiskPut(disk: Disk, key: string, ent: Entry, buildId: string)
    requires ent.buildId == buildId
    ensures OnDisk(disk[EntryFile(key) := Encoded(ent)], buildId) == OnDisk(disk, buildId)[key := ent]
  {
  }

  lemma OnDiskRemove(disk: Disk, key: string, buildId: string)
    ensures OnDisk(disk - {EntryFile(key)}, buildId) == OnDisk(disk, buildId) - {key}
  {
  }

  // ---- what the layers amount to: a plain map -----------------------------

  function LookupSpec(m: map<string, Entry>, path: string, now: int, ttl: int): Option<Entry> {
    var key := CacheKey(path);
    if key.Some? && key.value in m && !Expired(m[key.value], now, ttl) then Some(m[key.value]) else None
  }

  function StaleSpec(m: map<string, Entry>, path: string): Option<Entry> {
    var key := CacheKey(path);
    if key.Some? && key.value in m then Some(m[key.value]) else None
  }

  datatype PutError = InvalidKey | BuildMismatch

  function Stamped(ent: Entry, buildId: string, now: int): Entry {
    ent.(buildId := if ent.buildId == "" then buildId else ent.buildId,
         builtAt := if ent.builtAt == 0 then now else ent.builtAt)
  }

  function PutSpec(m: map<string, Entry>, path: string, ent: Entry, buildId: string, now: int)
    : (map<string, Entry>, Option<PutError>)
  {
    var key := CacheKey(path);
    if key.None? then (m, Some(InvalidKey))
    else if ent.buildId != "" && ent.buildId != buildId then (m, Some(BuildMismatch))
    else (m[key.value := Stamped(ent, buildId, now)], None)
  }

  function KeysOf(paths: seq<string>): set<string> {
    if paths == [] then {}
    else KeysOf(paths[..|paths| - 1])
         + (if CacheKey(paths[|paths| - 1]).Some? then {CacheKey(paths[|paths| - 1]).value} else {})
  }

  function InvalidPaths(paths: seq<string>): seq<string> {
    if paths == [] then []
    else InvalidPaths(paths[..|paths| - 1])
         + (if CacheKey(paths[|paths| - 1]).None? then [paths[|paths| - 1]] else [])
  }

  function Matching(keys: seq<string>, matches: string -> bool): (out: set<string>)
    ensures forall k :: k in out <==> k in keys && matches(k)
  {
    set k | k in keys && matches(k)
  }

  function MatchingSet(keys: set<string>, matches: string -> bool): set<string> {
    set k | k in keys && matches(k)
  }

  function Unmatched(m: map<string, Entry>, matches: string -> bool): map<string, Entry> {
    map k | k in m && !matches(k) :: m[k]
  }

  lemma MinusMatching(m: map<string, Entry>, keys: set<string>, matches: string -> bool)
    requires m.Keys <= keys
    ensures m - MatchingSet(keys, matches) == Unmatched(m, matches)
  {
  }

  /** A key moved to the front stays there when it is written. */
  lemma MovingTwice(ll: seq<string>, key: string)
    ensures Without([key] + Without(ll, key), key) == Without(ll, key)
  {
    var moved := [key] + Without(ll, key);
    assert moved[1..] == Without(ll, key);
  }

  /** The entries of these keys only. */
  function Restricted(m: map<string, Entry>, keys: seq<string>): map<string, Entry> {
    map k | k in m && k in keys :: m[k]
  }

  lemma MemoryWritten(before: map<string, Entry>, after: map<string, Entry>, ll: seq<string>, key: string, e: Entry)
    requires key in after && after[key] == e && forall k :: k in after <==> k in ll
    requires forall k :: k in after && k != key ==> k in before && after[k] == before[k]
    ensures after == Restricted(before[key := e], ll)
  {
  }

  /** The recency list once a key has been written. */
  function Written(ll: seq<string>, key: string, max: nat): seq<string> {
    Newest([key] + Without(ll, key), max)
  }

  /** Writing a listed key only moves it to the front. */
  lemma ListedIsMoved(ll: seq<string>, key: string, max: nat)
    requires Distinct(ll) && key in ll && |ll| <= max
    ensures Written(ll, key, max) == [key] + Without(ll, key)
  {
    WithoutKeepsRest(ll, key);
  }

  lemma WritingTwice(ll: seq<string>, key: string, max: nat)
    requires Distinct(ll) && key in ll && |ll| <= max
    ensures Written(Written(ll, key, max), key, max) == Written(ll, key, max)
  {
    ListedIsMoved(ll, key, max);
    MovingTwice(ll, key);
  }

  class LayeredCache {
    const buildId: string
    const ttl: int
    const hasDisk: bool
    const mem: MemCache
    var disk: Disk

    /** Every memory entry is of the current build and is what its entry file holds. */
    ghost predicate Valid()
      reads this, mem
    {
      && mem.Valid()
      && buildId != ""
      && (forall k :: k in mem.items ==> mem.items[k].buildId == buildId)
      && (hasDisk ==> forall k :: k in mem.items ==>
            EntryFile(k) in disk && disk[EntryFile(k)] == Encoded(mem.items[k]))
    }

    /** The map the cache stands for: the disk where there is one, else the memory. */
    ghost function Backing(): map<string, Entry>
      reads this, mem
    {
      if hasDisk then OnDisk(disk, buildId) else mem.items
    }

    constructor (buildId: string, memPages: int, ttl: int, hasDisk: bool, disk: Disk)
      requires buildId != ""
      ensures Valid() && fresh(mem)
      ensures this.buildId == buildId && this.hasDisk == hasDisk && this.disk == disk
      ensures this.ttl == (if ttl <= 0 then 3600 else ttl) && mem.max == if memPages <= 0 then 1024 else memPages
      ensures Backing() == if hasDisk then OnDisk(disk, buildId) else map[]
    {
      var pages := if memPages <= 0 then 1024 else memPages;
      var layer := new MemCache(pages);
      this.buildId, this.ttl, this.hasDisk := buildId, if ttl <= 0 then 3600 else ttl, hasDisk;
      this.mem, this.disk := layer, disk;
    }

    /** The cache afterwards: what is served comes first in memory, and an entry file that cannot be
        decoded is gone; nothing else moves. */
    method Get(path: string, now: int) returns (ent: Option<Entry>)
      requires Valid()
      modifies this, mem
      ensures Valid() && Backing() == old(Backing())
      ensures ent == LookupSpec(Backing(), path, now, ttl)
      ensures ent.Some? ==> CacheKey(path).value in mem.items && mem.items[CacheKey(path).value] == ent.value
      ensures ent.None? ==> mem.items == old(mem.items)
      ensures mem.ll == if CacheKey(path).Some? && CacheKey(path).value in mem.items
                        then Written(old(mem.ll), CacheKey(path).value, mem.max) else old(mem.ll)
      ensures disk == if CacheKey(path).Some? then old(Readable(CacheKey(path).value)) else old(disk)
    {
      var key := CacheKey(path);
      if key.None? {
        return None;
      }
      MemoryIsBacked(key.value);
      ent := FromMemory(key.value, now);
      if ent.Some? || !hasDisk {
        return;
      }
      ent := Promote(key.value, now);
    }

    method FromMemory(key: string, now: int) returns (ent: Option<Entry>)
      requires Valid()
      modifies mem`ll
      ensures Valid() && Backing() == old(Backing())
      ensures ent == if key in mem.items && !Expired(mem.items[key], now, ttl) then Some(mem.items[key]) else None
      ensures mem.ll == if key in mem.items then Written(old(mem.ll), key, mem.max) else old(mem.ll)
    {
      if key in mem.items {
        ListedIsMoved(mem.ll, key, mem.max);
      }
      var cached := mem.Get(key);
      if cached.Some? && !Expired(cached.value, now, ttl) {
        return cached;
      }
      return None;
    }

    lemma MemoryIsBacked(key: string)
      requires Valid()
      ensures key in mem.items ==> key in Backing() && Backing()[key] == mem.items[key]
      ensures !hasDisk ==> Backing() == mem.items
    {
    }

    /** The disk without the key's entry file if that cannot be decoded. */
    ghost function Readable(key: string): Disk
      reads this
    {
      if hasDisk && EntryFile(key) in disk && disk[EntryFile(key)].Garbled? then disk - {EntryFile(key)} else disk
    }

    /** The entry file's content; one that cannot be decoded goes away. */
    method Decode(key: string) returns (ent: Option<Entry>)
      requires Valid() && hasDisk
      modifies this`disk
      ensures Valid() && Backing() == old(Backing()) && disk == old(Readable(key))
      ensures ent == if EntryFile(key) in disk then Some(disk[EntryFile(key)].ent) else None
      ensures EntryFile(key) in disk ==> disk[EntryFile(key)].Encoded?
    {
      if EntryFile(key) !in disk {
        return None;
      }
      var blob := disk[EntryFile(key)];
      if blob.Garbled? {
        RemoveFile(key);
        return None;
      }
      return Some(blob.ent);
    }

    /** The disk half of Get: a live entry of this build goes into memory, a garbled one goes away. */
    method Promote(key: string, now: int) returns (ent: Option<Entry>)
      requires Valid() && hasDisk
      modifies this`disk, mem
      ensures Valid() && Backing() == old(Backing()) && disk == old(Readable(key))
      ensures ent == if key in Backing() && !Expired(Backing()[key], now, ttl) then Some(Backing()[key]) else None
      ensures ent.Some? ==>
                mem.ll == Written(old(mem.ll), key, mem.max) && key in mem.items && mem.items[key] == ent.value
      ensures ent.None? ==> mem.ll == old(mem.ll) && mem.items == old(mem.items)
    {
      ent := Decode(key);
      if ent.None? || ent.value.buildId != buildId || Expired(ent.value, now, ttl) {
        return None;
      }
      mem.Put(key, ent.value);
    }

    /** Deletes an entry file that is not behind any memory entry. */
    method RemoveFile(key: string)
      requires Valid() && key !in mem.items
      modifies this`disk
      ensures Valid()
      ensures disk == old(disk) - {EntryFile(key)}
      ensures hasDisk ==> Backing() == old(Backing()) - {key}
    {
      OnDiskRemove(disk, key, buildId);
      disk := disk - {EntryFile(key)};
    }

    method Put(path: string, ent: Entry, now: int) returns (err: Option<PutError>)
      requires Valid()
      modifies this, mem
      ensures Valid()
      ensures err == PutSpec(old(Backing()), path, ent, buildId, now).1
      ensures var full := PutSpec(old(Backing()), path, ent, buildId, now).0;
              Backing() == if hasDisk then full else Restricted(full, mem.ll)
      ensures mem.ll == if err.Some? then old(mem.ll) else Written(old(mem.ll), CacheKey(path).value, mem.max)
    {
      RestrictedIsAll();
      var key := CacheKey(path);
      if key.None? {
        return Some(InvalidKey);
      }
      var e := ent;
      if e.buildId == "" {
        e := e.(buildId := buildId);
      }
      if e.buildId != buildId {
        return Some(BuildMismatch);
      }
      if e.builtAt == 0 {
        e := e.(builtAt := now);
      }
      Store(key.value, e);
      return None;
    }

    /** Both layers take the entry; the memory bound may drop others from memory. */
    method Store(key: string, e: Entry)
      requires Valid() && e.buildId == buildId
      modifies this, mem
      ensures Valid() && mem.ll == Written(old(mem.ll), key, mem.max)
      ensures var full := old(Backing())[key := e]; Backing() == if hasDisk then full else Restricted(full, mem.ll)
    {
      ghost var before := mem.items;
      mem.Put(key, e);
      if hasDisk {
        OnDiskPut(disk, key, e, buildId);
        disk := disk[EntryFile(key) := Encoded(e)];
      } else {
        MemoryWritten(before, mem.items, mem.ll, key, e);
      }
    }

    lemma RestrictedIsAll()
      requires Valid()
      ensures !hasDisk ==> Restricted(Backing(), mem.ll) == Backing()
    {
    }

    /** The key names an entry in memory or an entry file, of whatever build. */
    ghost predicate Has(k: string)
      reads this, mem
    {
      k in mem.items || (hasDisk && EntryFile(k) in disk)
    }

    /** Paths without a valid key are reported; the others are gone from both layers. */
    method Delete(paths: seq<string>) returns (invalid: seq<string>)
      requires Valid()
      modifies this, mem
      ensures Valid()
      ensures invalid == InvalidPaths(paths)
      ensures Backing() == old(Backing()) - KeysOf(paths)
      ensures forall k :: Has(k) <==> old(Has(k)) && k !in KeysOf(paths)
    {
      invalid := [];
      ghost var before := Backing();
      assert before - {} == before;
      for i := 0 to |paths|
        invariant Valid()
        invariant invalid == InvalidPaths(paths[..i])
        invariant Backing() == before - KeysOf(paths[..i])
        invariant forall k :: Has(k) <==> old(Has(k)) && k !in KeysOf(paths[..i])
      {
        assert paths[..i + 1][..i] == paths[..i];
        MinusTwice(before, KeysOf(paths[..i]), KeysOf(paths[..i + 1]), CacheKey(paths[i]));
        var key := CacheKey(paths[i]);
        if key.None? {
          invalid := invalid + [paths[i]];
          continue;
        }
        DeleteKey(key.value);
      }
      assert paths[..|paths|] == paths;
    }

    method DeleteKey(key: string)
      requires Valid()
      modifies this, mem
      ensures Valid() && Backing() == old(Backing()) - {key}
      ensures forall k :: Has(k) <==> old(Has(k)) && k != key
    {
      mem.Delete(key);
      if hasDisk {
        RemoveFile(key);
      }
    }

    method GetStale(path: string) returns (ent: Option<Entry>)
      requires Valid()
      ensures ent == StaleSpec(Backing(), path)
    {
      var key := CacheKey(path);
      if key.None? {
        return None;
      }
      var cached := mem.Peek(key.value);
      if cached.Some? && cached.value.buildId == buildId {
        return cached;
      }
      if !hasDisk || EntryFile(key.value) !in disk {
        return None;
      }
      var blob := disk[EntryFile(key.value)];
      if blob.Garbled? || blob.ent.buildId != buildId {
        return None;
      }
      return Some(blob.ent);
    }

    ghost function Tracked(): set<string>
      reads this, mem
    {
      mem.items.Keys + if hasDisk then DiskKeys(disk) else {}
    }

    /** The keys of both layers, sorted. */
    method Keys() returns (keys: seq<string>)
      ensures forall k :: k in keys <==> k in Tracked()
      ensures SortedBy(keys, Itself) && Distinct(keys)
    {
      var todo := mem.items.Keys + if hasDisk then DiskKeys(disk) else {};
      var unsorted := [];
      while todo != {}
        invariant todo <= Tracked()
        invariant Distinct(unsorted)
        invariant forall k :: k in unsorted <==> k in Tracked() && k !in todo
        decreases |todo|
      {
        var k :| k in todo;
        unsorted := unsorted + [k];
        todo := todo - {k};
      }
      keys := Sort(unsorted, Itself);
      SameNames(unsorted, keys);
    }

    method EvictKeys(keys: seq<string>, matches: string -> bool) returns (n: nat)
      requires Valid() && Distinct(keys)
      modifies this, mem
      ensures Valid()
      ensures Backing() == old(Backing()) - Matching(keys, matches)
      ensures forall k :: Has(k) <==> old(Has(k)) && k !in Matching(keys, matches)
      ensures n == |Matching(keys, matches)|
    {
      n := 0;
      ghost var before := Backing();
      assert before - {} == before;
      for i := 0 to |keys|
        invariant Valid()
        invariant Backing() == before - Matching(keys[..i], matches)
        invariant forall k :: Has(k) <==> old(Has(k)) && k !in Matching(keys[..i], matches)
        invariant n == |Matching(keys[..i], matches)|
      {
        MatchingSnoc(before, keys, i, matches);
        if !matches(keys[i]) {
          continue;
        }
        DeleteKey(keys[i]);
        n := n + 1;
      }
      assert keys[..|keys|] == keys;
    }

    /** Drops every entry whose key matches, of whatever build, and counts them. */
    method EvictMatching(matches: string -> bool) returns (n: nat)
      requires Valid()
      modifies this, mem
      ensures Valid()
      ensures Backing() == Unmatched(old(Backing()), matches)
      ensures forall k :: Has(k) <==> old(Has(k)) && !matches(k)
      ensures n == |MatchingSet(old(Tracked()), matches)|
    {
      var keys := Keys();
      ghost var before := Backing();
      n := EvictKeys(keys, matches);
      assert Matching(keys, matches) == MatchingSet(old(Tracked()), matches);
      MinusMatching(before, old(Tracked()), matches);
    }

    /** loaded is what the load function answers, None its error; hit tells where ent came from. */
    method GetOrLoad(path: string, loaded: Option<Entry>, now: int) returns (ent: Option<Entry>, hit: bool)
      requires Valid()
      modifies this, mem
      ensures Valid()
      ensures hit <==> LookupSpec(old(Backing()), path, now, ttl).Some?
      ensures ent == if CacheKey(path).None? then None
                     else if hit then LookupSpec(old(Backing()), path, now, ttl) else loaded
      ensures var full := if hit || CacheKey(path).None? || loaded.None? then old(Backing())
                          else PutSpec(old(Backing()), path, loaded.value, buildId, now).0;
              Backing() == if hasDisk then full else Restricted(full, mem.ll)
      ensures !hit && loaded.Some? && PutSpec(old(Backing()), path, loaded.value, buildId, now).1.None? ==>
                mem.ll == Written(old(mem.ll), CacheKey(path).value, mem.max)
    {
      if CacheKey(path).None? {
        RestrictedIsAll();
        return None, false;
      }
      ent := Get(path, now);
      RestrictedIsAll();
      if ent.Some? {
        return ent, true;
      }
      if CacheKey(path).value in old(mem.items) {
        WritingTwice(old(mem.ll), CacheKey(path).value, mem.max);
      }
      if loaded.None? {
        return None, false;
      }
      var _ := Put(path, loaded.value, now);
      return loaded, false;
    }
  }

  lemma MinusTwice(m: map<string, Entry>, a: set<string>, b: set<string>, k: Option<string>)
    requires b == a + (if k.Some? then {k.value} else {})
    ensures k.Some? ==> (m - a) - {k.value} == m - b
  {
  }

  lemma MatchingSnoc(m: map<string, Entry>, keys: seq<string>, i: nat, matches: string -> bool)
    requires Distinct(keys) && i < |keys|
    ensures var (done, more) := (Matching(keys[..i], matches), Matching(keys[..i + 1], matches));
            if matches(keys[i]) then
              more == done + {keys[i]} && |more| == |done| + 1 && m - more == (m - done) - {keys[i]}
            else more == done
  {
    assert keys[..i + 1] == keys[..i] + [keys[i]];
    var (done, more) := (Matching(keys[..i], matches), Matching(keys[..i + 1], matches));
    if matches(keys[i]) {
      assert more == done + {keys[i]} && keys[i] !in done;
      MinusTwice(m, done, more, Some(keys[i]));
    } else {
      assert more == done;
    }
  }

  lemma SameNames(xs: seq<string>, out: seq<string>)
    requires Distinct(xs) && SortedPermutation(xs, out, Itself)
    ensures Distinct(out) && forall k :: k in out <==> k in xs
  {
    forall k ensures k in out <==> k in xs {
      assert k in out <==> k in multiset(out);
      assert k in xs <==> k in multiset(xs);
    }
    forall i, j | 0 <= i < j < |out| ensures out[i] != out[j] {
      DistinctOnce(xs, out[i]);
      assert out == out[..j] + [out[j]] + out[j + 1..];
      assert out[i] in out[..j];
      assert multiset(out)[out[j]] == multiset(out[..j])[out[j]] + 1 + multiset(out[j + 1..])[out[j]];
    }
  }

  lemma {:induction false} DistinctOnce(xs: seq<string>, x: string)
    requires Distinct(xs)
    ensures multiset(xs)[x] <= 1
  {
    if xs != [] {
      var n := |xs| - 1;
      assert xs == xs[..n] + [xs[n]];
      DistinctOnce(xs[..n], x);
      assert x == xs[n] ==> x !in xs[..n];
    }
  }

  // ---- whole runs --------------------------------------------------------

  datatype Op =
    | DoGet(path: string, now: int)
    | DoStale(path: string)
    | DoPut(path: string, ent: Entry, now: int)
    | DoDelete(path: string)
    | DoEvict(matches: string -> bool)
    | DoLoad(path: string, loaded: Option<Entry>, now: int)

  function OpAnswer(m: map<string, Entry>, op: Op, ttl: int): Option<Entry> {
    match op
    case DoGet(path, now) => LookupSpec(m, path, now, ttl)
    case DoStale(path) => StaleSpec(m, path)
    case DoLoad(path, loaded, now) =>
      var live := LookupSpec(m, path, now, ttl);
      if CacheKey(path).None? || live.Some? then live else loaded
    case _ => None
  }

  function OpEffect(m: map<string, Entry>, op: Op, buildId: string, ttl: int): map<string, Entry> {
    match op
    case DoPut(path, ent, now) => PutSpec(m, path, ent, buildId, now).0
    case DoDelete(path) => if CacheKey(path).Some? then m - {CacheKey(path).value} else m
    case DoEvict(matches) => Unmatched(m, matches)
    case DoLoad(path, loaded, now) =>
      if loaded.None? || LookupSpec(m, path, now, ttl).Some? then m else PutSpec(m, path, loaded.value, buildId, now).0
    case _ => m
  }

  function Answers(m: map<string, Entry>, ops: seq<Op>, buildId: string, ttl: int): seq<Option<Entry>> {
    if ops == [] then []
    else
      var (before, op) := (Effects(m, ops[..|ops| - 1], buildId, ttl), ops[|ops| - 1]);
      Answers(m, ops[..|ops| - 1], buildId, ttl) + [OpAnswer(before, op, ttl)]
  }

  function Effects(m: map<string, Entry>, ops: seq<Op>, buildId: string, ttl: int): map<string, Entry> {
    if ops == [] then m else OpEffect(Effects(m, ops[..|ops| - 1], buildId, ttl), ops[|ops| - 1], buildId, ttl)
  }

  method Perform(c: LayeredCache, op: Op) returns (answer: Option<Entry>)
    requires c.Valid() && c.hasDisk
    modifies c, c.mem
    ensures c.Valid() && c.Backing() == OpEffect(old(c.Backing()), op, c.buildId, c.ttl)
    ensures answer == OpAnswer(old(c.Backing()), op, c.ttl)
  {
    answer := None;
    match op {
      case DoGet(path, now) => answer := c.Get(path, now);
      case DoStale(path) => answer := c.GetStale(path);
      case DoPut(path, ent, now) => var _ := c.Put(path, ent, now);
      case DoDelete(path) => PerformDelete(c, path);
      case DoEvict(matches) => var _ := c.EvictMatching(matches);
      case DoLoad(path, loaded, now) => answer := PerformLoad(c, path, loaded, now);
    }
  }

  method PerformDelete(c: LayeredCache, path: string)
    requires c.Valid()
    modifies c, c.mem
    ensures c.Valid()
    ensures c.Backing() == OpEffect(old(c.Backing()), DoDelete(path), c.buildId, c.ttl)
  {
    var _ := c.Delete([path]);
    assert [path][..0] == [];
  }

  method PerformLoad(c: LayeredCache, path: string, loaded: Option<Entry>, now: int) returns (answer: Option<Entry>)
    requires c.Valid() && c.hasDisk
    modifies c, c.mem
    ensures c.Valid()
    ensures c.Backing() == OpEffect(old(c.Backing()), DoLoad(path, loaded, now), c.buildId, c.ttl)
    ensures answer == OpAnswer(old(c.Backing()), DoLoad(path, loaded, now), c.ttl)
  {
    var ent, _ := c.GetOrLoad(path, loaded, now);
    return ent;
  }

  /** With a disk, a run answers as a plain map does: the memory bound and what was evicted when
      make no difference. */
  method Replay(c: LayeredCache, ops: seq<Op>) returns (answers: seq<Option<Entry>>)
    requires c.Valid() && c.hasDisk
    modifies c, c.mem
    ensures c.Valid() && c.Backing() == Effects(old(c.Backing()), ops, c.buildId, c.ttl)
    ensures answers == Answers(old(c.Backing()), ops, c.buildId, c.ttl)
  {
    answers := [];
    for i := 0 to |ops|
      invariant c.Valid() && c.Backing() == Effects(old(c.Backing()), ops[..i], c.buildId, c.ttl)
      invariant answers == Answers(old(c.Backing()), ops[..i], c.buildId, c.ttl)
    {
      assert ops[..i + 1][..i] == ops[..i];
      var answer := Perform(c, ops[i]);
      answers := answers + [answer];
    }
    assert ops[..|ops|] == ops;
  }

  /** An entry the cache takes, as it is kept. */
  function Taken(ent: Entry, buildId: string, now: int): Option<Entry> {
    if ent.buildId == "" || ent.buildId == buildId then Some(Stamped(ent, buildId, now)) else None
  }

  function Live(ent: Option<Entry>, now: int, ttl: int): Option<Entry> {
    if ent.Some? && !Expired(ent.value, now, ttl) then ent else None
  }

  /** What an operation leaves of a key's entry: puts, deletes, evictions that match and loads that
      found nothing live write it, everything else keeps it. */
  function Rewritten(ent: Option<Entry>, op: Op, key: string, buildId: string, ttl: int): Option<Entry> {
    match op
    case DoPut(path, put, now) =>
      if CacheKey(path) == Some(key) && Taken(put, buildId, now).Some? then Taken(put, buildId, now) else ent
    case DoDelete(path) => if CacheKey(path) == Some(key) then None else ent
    case DoEvict(matches) => if matches(key) then None else ent
    case DoLoad(path, loaded, now) =>
      if CacheKey(path) == Some(key) && Live(ent, now, ttl).None?
         && loaded.Some? && Taken(loaded.value, buildId, now).Some?
      then Taken(loaded.value, buildId, now) else ent
    case _ => ent
  }

  /** The last write of a key decides what is served for it. */
  function LastWrite(m: map<string, Entry>, ops: seq<Op>, key: string, buildId: string, ttl: int): Option<Entry> {
    if ops == [] then (if key in m then Some(m[key]) else None)
    else Rewritten(LastWrite(m, ops[..|ops| - 1], key, buildId, ttl), ops[|ops| - 1], key, buildId, ttl)
  }

  lemma EffectOnOneKey(m: map<string, Entry>, op: Op, path: string, buildId: string, ttl: int)
    requires CacheKey(path).Some?
    ensures StaleSpec(OpEffect(m, op, buildId, ttl), path)
            == Rewritten(StaleSpec(m, path), op, CacheKey(path).value, buildId, ttl)
  {
  }

  lemma {:induction false} ServedIsLastWrite(m: map<string, Entry>, ops: seq<Op>, path: string, now: int,
                                             buildId: string, ttl: int)
    requires CacheKey(path).Some?
    ensures var last := LastWrite(m, ops, CacheKey(path).value, buildId, ttl);
            && StaleSpec(Effects(m, ops, buildId, ttl), path) == last
            && LookupSpec(Effects(m, ops, buildId, ttl), path, now, ttl) == Live(last, now, ttl)
  {
    if ops != [] {
      var n := |ops| - 1;
      ServedIsLastWrite(m, ops[..n], path, now, buildId, ttl);
      EffectOnOneKey(Effects(m, ops[..n], buildId, ttl), ops[n], path, buildId, ttl);
    }
  }
}
