/** Route patterns, concrete paths and cache keys. */
module Paths {
  import opened Common

  type Params = map<string, string>

  // ---- strings.Split and strings.Join on '/' ------------------------------

  function Split(s: string): (segs: seq<string>)
    ensures segs != []
  {
    if s == "" then [""]
    else
      var rest := Split(s[1..]);
      if s[0] == '/' then [""] + rest else [[s[0]] + rest[0]] + rest[1..]
  }

  function Join(segs: seq<string>): string
    requires segs != []
  {
    if |segs| == 1 then segs[0] else segs[0] + "/" + Join(segs[1..])
  }

  ghost predicate Slashless(segs: seq<string>) {
    forall i :: 0 <= i < |segs| ==> '/' !in segs[i]
  }

  lemma JoinCons(seg: string, segs: seq<string>)
    requires segs != []
    ensures Join([seg] + segs) == seg + "/" + Join(segs)
  {
    assert ([seg] + segs)[1..] == segs;
  }

  lemma JoinOne(seg: string)
    ensures Join([seg]) == seg
  {
  }

  lemma FirstGrows(first: string, rest: seq<string>, c: char)
    ensures Join([[c] + first] + rest) == [c] + Join([first] + rest)
  {
    if rest == [] {
      assert [[c] + first] + rest == [[c] + first] && [first] + rest == [first];
      JoinOne(first);
      JoinOne([c] + first);
    } else {
      JoinCons(first, rest);
      JoinCons([c] + first, rest);
    }
  }

  lemma JoinGrows(segs: seq<string>, c: char)
    requires segs != []
    ensures Join([""] + segs) == "/" + Join(segs)
    ensures Join([[c] + segs[0]] + segs[1..]) == [c] + Join(segs)
  {
    JoinCons("", segs);
    FirstGrows(segs[0], segs[1..], c);
    assert segs == [segs[0]] + segs[1..];
  }

  lemma {:induction false} JoinSplit(s: string)
    ensures Join(Split(s)) == s && Slashless(Split(s))
  {
    if s != "" {
      JoinSplit(s[1..]);
      JoinGrows(Split(s[1..]), s[0]);
      assert s == [s[0]] + s[1..];
    }
  }

  lemma {:induction false} SplitJoin(segs: seq<string>)
    requires segs != [] && Slashless(segs)
    ensures Split(Join(segs)) == segs
    decreases |segs|, |segs[0]|
  {
    var s := Join(segs);
    if segs[0] != "" {
      var shorter := [segs[0][1..]] + segs[1..];
      assert shorter[1..] == segs[1..];
      assert s[1..] == Join(shorter);
      SplitJoin(shorter);
      assert s[0] == segs[0][0] != '/';
      assert segs[0] == [s[0]] + shorter[0];
      assert segs == [segs[0]] + shorter[1..];
    } else if |segs| > 1 {
      assert s[1..] == Join(segs[1..]);
      SplitJoin(segs[1..]);
    }
  }

  // ---- segments ----------------------------------------------------------

  predicate WordChar(c: char) {
    'a' <= c <= 'z' || 'A' <= c <= 'Z' || '0' <= c <= '9' || c == '_'
  }

  predicate ValidParamValue(v: string) {
    0 < |v| <= 256 && forall i :: 0 <= i < |v| ==> WordChar(v[i]) || v[i] == '-'
  }

  predicate StartsWithColon(seg: string) { seg != "" && seg[0] == ':' }

  predicate IsParam(seg: string) { |seg| > 1 && seg[0] == ':' }

  predicate IsWordName(s: string) { s != "" && forall i :: 0 <= i < |s| ==> WordChar(s[i]) }

  predicate ValidSegment(seg: string) {
    seg != "" && if seg[0] == ':' then IsWordName(seg[1..]) else ':' !in seg
  }

  predicate ValidPattern(pattern: string) {
    pattern == "/"
    || (pattern != "" && pattern[0] == '/'
        && forall i :: 0 <= i < |Split(pattern[1..])| ==> ValidSegment(Split(pattern[1..])[i]))
  }

  predicate HasParams(pattern: string) {
    exists i :: 0 <= i < |Split(pattern)| && IsParam(Split(pattern)[i])
  }

  /** In a valid pattern a segment starting with a colon always names a parameter. */
  lemma ValidSegments(pattern: string)
    requires ValidPattern(pattern)
    ensures forall i :: 0 <= i < |Split(pattern)| && StartsWithColon(Split(pattern)[i]) ==> IsParam(Split(pattern)[i])
  {
    if pattern == "/" {
      assert Split(pattern[1..]) == [""];
    } else {
      assert Split(pattern) == [""] + Split(pattern[1..]);
    }
  }

  // ---- Match -------------------------------------------------------------

  /** A parameter takes any non-empty segment; a later one of the same name overrides. */
  function MatchSegs(ps: seq<string>, ss: seq<string>): Option<Params>
    requires |ps| == |ss|
  {
    if ps == [] then Some(map[])
    else
      var n := |ps| - 1;
      match MatchSegs(ps[..n], ss[..n])
      case None => None
      case Some(params) =>
        if IsParam(ps[n]) then (if ss[n] == "" then None else Some(params[ps[n][1..] := ss[n]]))
        else if ps[n] == ss[n] then Some(params) else None
  }

  function MatchSpec(pattern: string, path: string): Option<Params> {
    var (ps, ss) := (Split(pattern), Split(path));
    if |ps| != |ss| then None else MatchSegs(ps, ss)
  }

  lemma {:induction false} MatchFailsEarly(ps: seq<string>, ss: seq<string>, n: nat)
    requires |ps| == |ss| && n <= |ps| && MatchSegs(ps[..n], ss[..n]).None?
    ensures MatchSegs(ps, ss).None?
    decreases |ps| - n
  {
    if n < |ps| {
      assert ps[..n + 1][..n] == ps[..n] && ss[..n + 1][..n] == ss[..n];
      MatchFailsEarly(ps, ss, n + 1);
    } else {
      assert ps[..n] == ps && ss[..n] == ss;
    }
  }

  method Match(pattern: string, path: string) returns (params: Option<Params>)
    ensures params == MatchSpec(pattern, path)
  {
    var ps, ss := Split(pattern), Split(path);
    if |ps| != |ss| {
      return None;
    }
    var found: Params := map[];
    for i := 0 to |ps|
      invariant MatchSegs(ps[..i], ss[..i]) == Some(found)
    {
      assert ps[..i + 1][..i] == ps[..i] && ss[..i + 1][..i] == ss[..i];
      if IsParam(ps[i]) {
        if ss[i] == "" {
          MatchFailsEarly(ps, ss, i + 1);
          return None;
        }
        found := found[ps[i][1..] := ss[i]];
        continue;
      }
      if ps[i] != ss[i] {
        MatchFailsEarly(ps, ss, i + 1);
        return None;
      }
    }
    assert ps[..|ps|] == ps && ss[..|ss|] == ss;
    return Some(found);
  }

  // ---- ExpandPath --------------------------------------------------------

  predicate Supplied(seg: string, params: Params) {
    !StartsWithColon(seg) || (seg[1..] in params && ValidParamValue(params[seg[1..]]))
  }

  function Fill(seg: string, params: Params): string
    requires Supplied(seg, params)
  {
    if StartsWithColon(seg) then params[seg[1..]] else seg
  }

  function FillSegs(segs: seq<string>, params: Params): (out: seq<string>)
    requires forall i :: 0 <= i < |segs| ==> Supplied(segs[i], params)
    ensures |out| == |segs|
  {
    seq(|segs|, i requires 0 <= i < |segs| && Supplied(segs[i], params) => Fill(segs[i], params))
  }

  function ExpandSpec(pattern: string, params: Params): Option<string> {
    var segs := Split(pattern);
    if forall i :: 0 <= i < |segs| ==> Supplied(segs[i], params) then Some(Join(FillSegs(segs, params))) else None
  }

  method ExpandPath(pattern: string, params: Params) returns (loc: Option<string>)
    ensures loc == ExpandSpec(pattern, params)
  {
    var segs := Split(pattern);
    var out := new string[|segs|];
    for i := 0 to |segs|
      invariant forall j :: 0 <= j < i ==> Supplied(segs[j], params)
      invariant forall j :: 0 <= j < i ==> out[j] == Fill(segs[j], params)
    {
      if StartsWithColon(segs[i]) {
        if segs[i][1..] !in params || !ValidParamValue(params[segs[i][1..]]) {
          assert !Supplied(segs[i], params);
          return None;
        }
        out[i] := params[segs[i][1..]];
        continue;
      }
      out[i] := segs[i];
    }
    assert out[..] == FillSegs(segs, params);
    return Some(Join(out[..]));
  }

  // ---- the two are inverse -----------------------------------------------

  /** Parameters of the same name were matched by the same text. */
  ghost predicate NamesAgree(ps: seq<string>, ss: seq<string>)
    requires |ps| == |ss|
  {
    forall i, j :: 0 <= i < j < |ps| && IsParam(ps[i]) && ps[i] == ps[j] ==> ss[i] == ss[j]
  }

  ghost predicate DistinctNames(pattern: string) {
    var ps := Split(pattern);
    forall i, j :: 0 <= i < j < |ps| && IsParam(ps[i]) ==> ps[i] != ps[j]
  }

  /** Segment i is a parameter named k, and the path's segment there is v. */
  predicate Captures(ps: seq<string>, ss: seq<string>, i: nat, k: string, v: string)
    requires |ps| == |ss|
  {
    i < |ps| && IsParam(ps[i]) && ps[i][1..] == k && ss[i] == v
  }

  /** Literal segments are the path's, and each bound name has a value some segment of that name
      captured. */
  lemma {:induction false} MatchSegsMeaning(ps: seq<string>, ss: seq<string>)
    requires |ps| == |ss| && MatchSegs(ps, ss).Some?
    ensures var params := MatchSegs(ps, ss).value;
            && (forall i :: 0 <= i < |ps| && !IsParam(ps[i]) ==> ss[i] == ps[i])
            && (forall i :: 0 <= i < |ps| && IsParam(ps[i]) ==> ps[i][1..] in params && ss[i] != "")
            && (forall k :: k in params ==> exists i: nat :: Captures(ps, ss, i, k, params[k]))
  {
    if ps != [] {
      var n := |ps| - 1;
      MatchSegsMeaning(ps[..n], ss[..n]);
      var (before, params) := (MatchSegs(ps[..n], ss[..n]).value, MatchSegs(ps, ss).value);
      forall k | k in params ensures exists i: nat :: Captures(ps, ss, i, k, params[k]) {
        if k in before && before[k] == params[k] {
          var i: nat :| Captures(ps[..n], ss[..n], i, k, before[k]);
          assert Captures(ps, ss, i, k, params[k]);
        } else {
          assert Captures(ps, ss, n, k, params[k]);
        }
      }
    }
  }

  /** The captured values fill every parameter segment exactly when equal names captured equal text. */
  lemma CapturesAgree(ps: seq<string>, ss: seq<string>)
    requires |ps| == |ss| && MatchSegs(ps, ss).Some?
    ensures forall i :: 0 <= i < |ps| && IsParam(ps[i]) ==> ps[i][1..] in MatchSegs(ps, ss).value
    ensures NamesAgree(ps, ss) <==>
              forall i :: 0 <= i < |ps| && IsParam(ps[i]) ==> MatchSegs(ps, ss).value[ps[i][1..]] == ss[i]
  {
    MatchSegsMeaning(ps, ss);
    if NamesAgree(ps, ss) {
      forall i | 0 <= i < |ps| && IsParam(ps[i]) ensures MatchSegs(ps, ss).value[ps[i][1..]] == ss[i] {
        CaptureIsOwn(ps, ss, i);
      }
    }
  }

  lemma CaptureIsOwn(ps: seq<string>, ss: seq<string>, i: nat)
    requires |ps| == |ss| && MatchSegs(ps, ss).Some? && NamesAgree(ps, ss) && i < |ps| && IsParam(ps[i])
    ensures ps[i][1..] in MatchSegs(ps, ss).value && MatchSegs(ps, ss).value[ps[i][1..]] == ss[i]
  {
    MatchSegsMeaning(ps, ss);
    var v := MatchSegs(ps, ss).value[ps[i][1..]];
    var j: nat :| Captures(ps, ss, j, ps[i][1..], v);
    SameName(ps[i], ps[j]);
  }

  lemma SameName(a: string, b: string)
    requires IsParam(a) && IsParam(b) && a[1..] == b[1..]
    ensures a == b
  {
    assert a == [':'] + a[1..] && b == [':'] + b[1..];
  }

  /** Expanding what a valid pattern matched gives the path back exactly when every captured value
      is whitelisted and equal parameter names captured equal text. */
  lemma MatchThenExpand(pattern: string, path: string)
    requires ValidPattern(pattern) && MatchSpec(pattern, path).Some?
    ensures var params := MatchSpec(pattern, path).value;
            ExpandSpec(pattern, params) == Some(path) <==>
              && (forall k :: k in params ==> ValidParamValue(params[k]))
              && NamesAgree(Split(pattern), Split(path))
  {
    var (ps, ss, params) := (Split(pattern), Split(path), MatchSpec(pattern, path).value);
    ValidSegments(pattern);
    JoinSplit(pattern);
    JoinSplit(path);
    MatchSegsMeaning(ps, ss);
    CapturesAgree(ps, ss);
    if ExpandSpec(pattern, params).Some? {
      FilledSlashless(ps, params);
      SplitJoin(FillSegs(ps, params));
      FillsBack(ps, ss, params);
      forall k | k in params ensures ValidParamValue(params[k]) {
        var i: nat :| Captures(ps, ss, i, k, params[k]);
        assert Supplied(ps[i], params);
      }
    }
  }

  lemma FillsBack(ps: seq<string>, ss: seq<string>, params: Params)
    requires |ps| == |ss|
    requires forall i :: 0 <= i < |ps| ==> Supplied(ps[i], params)
    requires forall i :: 0 <= i < |ps| ==> (StartsWithColon(ps[i]) <==> IsParam(ps[i]))
    requires forall i :: 0 <= i < |ps| && !IsParam(ps[i]) ==> ss[i] == ps[i]
    ensures FillSegs(ps, params) == ss <==>
              forall i :: 0 <= i < |ps| && IsParam(ps[i]) ==> params[ps[i][1..]] == ss[i]
  {
    var out := FillSegs(ps, params);
    if forall i :: 0 <= i < |ps| && IsParam(ps[i]) ==> params[ps[i][1..]] == ss[i] {
      forall i | 0 <= i < |ps| ensures out[i] == ss[i] {
        assert out[i] == Fill(ps[i], params);
      }
    } else {
      var i :| 0 <= i < |ps| && IsParam(ps[i]) && params[ps[i][1..]] != ss[i];
      assert out[i] != ss[i];
    }
  }

  /** With distinct parameter names the whitelist is all it takes. */
  lemma MatchThenExpandDistinct(pattern: string, path: string)
    requires ValidPattern(pattern) && DistinctNames(pattern) && MatchSpec(pattern, path).Some?
    ensures var params := MatchSpec(pattern, path).value;
            ExpandSpec(pattern, params) == Some(path) <==> forall k :: k in params ==> ValidParamValue(params[k])
  {
    MatchThenExpand(pattern, path);
  }

  lemma FilledSlashless(segs: seq<string>, params: Params)
    requires forall i :: 0 <= i < |segs| ==> Supplied(segs[i], params)
    requires Slashless(segs)
    ensures Slashless(FillSegs(segs, params))
  {
  }

  /** The names a pattern binds. */
  function Names(ps: seq<string>): set<string> {
    set i | 0 <= i < |ps| && IsParam(ps[i]) :: ps[i][1..]
  }

  /** The parameters the pattern names. */
  function Bound(ps: seq<string>, params: Params): Params {
    map k | k in params && k in Names(ps) :: params[k]
  }

  /** Matching what a valid pattern expanded to gives back its parameters. */
  lemma ExpandThenMatch(pattern: string, params: Params)
    requires ValidPattern(pattern) && ExpandSpec(pattern, params).Some?
    ensures MatchSpec(pattern, ExpandSpec(pattern, params).value)
            == Some(Bound(Split(pattern), params))
  {
    var ps := Split(pattern);
    ValidSegments(pattern);
    JoinSplit(pattern);
    FilledSlashless(ps, params);
    SplitJoin(FillSegs(ps, params));
    FilledMatches(ps, params);
  }

  lemma OneMoreName(ps: seq<string>, params: Params)
    requires ps != []
    requires var seg := ps[|ps| - 1]; IsParam(seg) ==> seg[1..] in params
    ensures var (before, seg) := (Bound(ps[..|ps| - 1], params), ps[|ps| - 1]);
            Bound(ps, params) == if IsParam(seg) then before[seg[1..] := params[seg[1..]]] else before
  {
    var n := |ps| - 1;
    assert Names(ps) == Names(ps[..n]) + (if IsParam(ps[n]) then {ps[n][1..]} else {});
  }

  lemma {:induction false} FilledMatches(ps: seq<string>, params: Params)
    requires forall i :: 0 <= i < |ps| ==> Supplied(ps[i], params)
    requires forall i :: 0 <= i < |ps| && StartsWithColon(ps[i]) ==> IsParam(ps[i])
    ensures MatchSegs(ps, FillSegs(ps, params)) == Some(Bound(ps, params))
  {
    if ps != [] {
      var n := |ps| - 1;
      FilledMatches(ps[..n], params);
      assert FillSegs(ps, params)[..n] == FillSegs(ps[..n], params);
      assert Supplied(ps[n], params);
      OneMoreName(ps, params);
    } else {
      assert Names(ps) == {};
    }
  }

  // ---- cache keys --------------------------------------------------------

  const INDEX := "index.html"
  const ENTRY_SUFFIX := ".entry"

  predicate ContainsDoubleSlash(s: string) {
    exists i :: 0 <= i < |s| - 1 && s[i] == '/' && s[i + 1] == '/'
  }

  function CacheKey(path: string): Option<string> {
    if path == "/" then Some(INDEX)
    else if path == "" || path[0] != '/' || path[|path| - 1] == '/' || ContainsDoubleSlash(path) then None
    else if forall i :: 0 <= i < |Split(path[1..])| ==> ValidParamValue(Split(path[1..])[i]) then Some(path[1..])
    else None
  }

  function KeyToPath(key: string): string {
    if key == INDEX then "/" else "/" + key
  }

  function DiskKey(key: string): string {
    key + ENTRY_SUFFIX
  }

  const PAGE_SUFFIX := ".html"

  /** The file a prerendered page of this path is read from. */
  function PageFile(path: string): Option<string> {
    match CacheKey(path)
    case None => None
    case Some(key) => Some(if key == INDEX then key else key + PAGE_SUFFIX)
  }

  lemma {:induction false} SplitKeepsChars(s: string, c: char)
    requires c in s && c != '/'
    ensures exists i :: 0 <= i < |Split(s)| && c in Split(s)[i]
  {
    var rest := Split(s[1..]);
    if s[0] == c {
      assert c in Split(s)[0];
    } else {
      SplitKeepsChars(s[1..], c);
      var i :| 0 <= i < |rest| && c in rest[i];
      if s[0] == '/' {
        assert Split(s)[i + 1] == rest[i];
      } else if i > 0 {
        assert Split(s)[i] == rest[i];
      } else {
        assert c in Split(s)[0];
      }
    }
  }

  /** Only the key of the root path carries a dot. */
  lemma KeysAreDotless(path: string)
    requires CacheKey(path).Some? && path != "/"
    ensures '.' !in CacheKey(path).value
  {
    if '.' in path[1..] {
      SplitKeepsChars(path[1..], '.');
    }
  }

  /** keyToPath undoes cacheKey, so no two paths share a key. */
  lemma KeyToPathInverts(path: string)
    requires CacheKey(path).Some?
    ensures KeyToPath(CacheKey(path).value) == path
  {
    if path != "/" {
      KeysAreDotless(path);
      assert INDEX[5] == '.';
    }
  }

  lemma CacheKeyInjective(a: string, b: string)
    requires CacheKey(a).Some? && CacheKey(a) == CacheKey(b)
    ensures a == b
  {
    KeyToPathInverts(a);
    KeyToPathInverts(b);
  }

  lemma PlainPageFile(path: string)
    requires CacheKey(path).Some? && path != "/"
    ensures path == "/" + CacheKey(path).value && PageFile(path) == Some(CacheKey(path).value + PAGE_SUFFIX)
  {
    KeysAreDotless(path);
    KeyToPathInverts(path);
    assert INDEX[5] == '.';
  }

  lemma OneSegmentKey(seg: string)
    requires ValidParamValue(seg)
    ensures CacheKey("/" + seg) == Some(seg)
  {
    var path := "/" + seg;
    assert path[1..] == seg && '/' !in seg;
    SplitJoin([seg]);
    JoinOne(seg);
    assert path[|path| - 1] == seg[|seg| - 1];
  }

  lemma IndexPageFile()
    ensures PageFile("/index") == PageFile("/") == Some(INDEX)
  {
    OneSegmentKey("index");
    assert "/" + "index" == "/index";
    assert "index" + PAGE_SUFFIX == INDEX;
  }

  lemma OnlyIndexSharesTheRootFile(path: string)
    requires CacheKey(path).Some? && path != "/"
    ensures PageFile(path) == PageFile("/") <==> path == "/index"
  {
    PlainPageFile(path);
    IndexPageFile();
    var key := CacheKey(path).value;
    if key + PAGE_SUFFIX == INDEX {
      assert key == (key + PAGE_SUFFIX)[..|key|] == INDEX[..5] == "index";
    }
  }

  /** Two paths read the same page file only if they are the same path, except that the root shares
      its file with /index. */
  lemma PageFilesCollideOnlyAtTheRoot(a: string, b: string)
    requires PageFile(a).Some? && PageFile(b).Some?
    ensures PageFile(a) == PageFile(b) <==> a == b || (a == "/" && b == "/index") || (a == "/index" && b == "/")
  {
    if a == "/" || b == "/" {
      if a != "/" {
        OnlyIndexSharesTheRootFile(a);
      }
      if b != "/" {
        OnlyIndexSharesTheRootFile(b);
      }
    } else {
      PlainPageFile(a);
      PlainPageFile(b);
      var (ka, kb) := (CacheKey(a).value, CacheKey(b).value);
      if ka + PAGE_SUFFIX == kb + PAGE_SUFFIX {
        assert ka == (ka + PAGE_SUFFIX)[..|ka|] == (kb + PAGE_SUFFIX)[..|kb|] == kb;
      }
    }
  }

  /** No entry file stands where another key's entry file needs a directory. */
  lemma EntryNeverADirectory(a: string, b: string)
    requires CacheKey(a).Some? && CacheKey(b).Some?
    ensures !(DiskKey(CacheKey(a).value) + "/" <= DiskKey(CacheKey(b).value))
  {
    var (ka, kb) := (CacheKey(a).value, CacheKey(b).value);
    var (dir, file) := (DiskKey(ka) + "/", DiskKey(kb));
    assert dir[|ka|] == '.' && dir[|dir| - 1] == '/';
    assert dir <= file ==> file[|ka|] == '.' && file[|dir| - 1] == '/';
    if b == "/" {
      assert file == "index.html.entry";
    } else {
      KeysAreDotless(b);
      assert forall i :: 0 <= i < |kb| ==> file[i] == kb[i] != '.';
    }
  }

  /** The suffix is what does it: two keys themselves may stand in each other's way. */
  lemma BareKeysCollide()
    ensures exists a, b :: CacheKey(a).Some? && CacheKey(b).Some? && CacheKey(a).value + "/" <= CacheKey(b).value
  {
    OneSegmentKey("b");
    assert "/" + "b" == "/b";
    TwoSegmentKey();
    assert "b" + "/" <= "b/x";
  }

  lemma TwoSegmentKey()
    ensures CacheKey("/b/x") == Some("b/x")
  {
    SplitJoin(["b", "x"]);
    assert Join(["b", "x"]) == "b/x" by { assert ["b", "x"][1..] == ["x"]; }
    assert "/b/x"[1..] == "b/x";
  }
}
