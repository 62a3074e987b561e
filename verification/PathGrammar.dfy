/** Which names, values, patterns and paths there are, said in characters, and what an invalidation of a
    pattern means for one path. */
module PathGrammar {
  import opened Common
  import opened Paths
  import opened Invalidation

  /** The ASCII digits, letters and the underscore, by code point. */
  predicate AsciiWord(c: char) {
    48 <= c as int <= 57 || 65 <= c as int <= 90 || 97 <= c as int <= 122 || c as int == 95
  }

  lemma WordChars(c: char)
    ensures WordChar(c) <==> AsciiWord(c)
  {
  }

  /** A parameter value has 1 to 256 letters, digits, underscores and hyphens. */
  lemma ValueMeaning(v: string)
    ensures ValidParamValue(v) <==> 1 <= |v| <= 256 && forall c :: c in v ==> AsciiWord(c) || c == '-'
  {
    forall i | 0 <= i < |v| ensures WordChar(v[i]) <==> AsciiWord(v[i]) {
      WordChars(v[i]);
    }
  }

  /** A segment is a parameter if a colon and a name make it up; the name is not looked at. */
  lemma ParamMeaning(seg: string)
    ensures IsParam(seg) <==> exists name: string :: name != "" && seg == ":" + name
  {
    if IsParam(seg) {
      assert seg == ":" + seg[1..];
    }
  }

  /** Below the root every segment of a valid pattern is a colon with a word, or text without a colon. */
  lemma SegmentMeaning(seg: string)
    ensures ValidSegment(seg) <==>
              || (seg != "" && ':' !in seg)
              || (exists name: string :: name != "" && seg == ":" + name && forall c :: c in name ==> AsciiWord(c))
  {
    if seg != "" && seg[0] == ':' {
      assert seg == ":" + seg[1..];
      NameMeaning(seg[1..]);
      forall name: string | seg == ":" + name ensures name == seg[1..] {
      }
    }
  }

  lemma NameMeaning(name: string)
    ensures IsWordName(name) <==> name != "" && forall c :: c in name ==> AsciiWord(c)
  {
    forall i | 0 <= i < |name| ensures WordChar(name[i]) <==> AsciiWord(name[i]) {
      WordChars(name[i]);
    }
  }

  /** A valid pattern is the root, or slashes each followed by a valid segment. */
  lemma PatternMeaning(segs: seq<string>)
    requires segs != [] && Slashless(segs)
    ensures ValidPattern("/" + Join(segs)) <==>
              "/" + Join(segs) == "/" || forall i :: 0 <= i < |segs| ==> ValidSegment(segs[i])
  {
    SplitJoin(segs);
    assert ("/" + Join(segs))[1..] == Join(segs);
  }

  lemma PatternsStartWithSlash(pattern: string)
    ensures ValidPattern(pattern) ==> pattern != "" && pattern[0] == '/'
  {
  }

  /** A valid pattern has parameters exactly if there is a colon in it. */
  lemma HasParamsIffColon(pattern: string)
    requires ValidPattern(pattern)
    ensures HasParams(pattern) <==> ':' in pattern
  {
    ValidSegments(pattern);
    if ':' in pattern {
      SplitKeepsChars(pattern, ':');
      var i :| 0 <= i < |Split(pattern)| && ':' in Split(pattern)[i];
      ColonSegment(pattern, i);
    } else if HasParams(pattern) {
      var i :| 0 <= i < |Split(pattern)| && IsParam(Split(pattern)[i]);
      SegmentChars(pattern, i, ':');
    }
  }

  lemma ColonSegment(pattern: string, i: nat)
    requires ValidPattern(pattern) && i < |Split(pattern)| && ':' in Split(pattern)[i]
    ensures StartsWithColon(Split(pattern)[i])
  {
    assert Split(pattern) == [""] + Split(pattern[1..]);
    if pattern == "/" {
      assert false;
    } else {
      assert ValidSegment(Split(pattern[1..])[i - 1]);
    }
  }

  /** The characters of a segment are the path's. */
  lemma {:induction false} SegmentChars(s: string, i: nat, c: char)
    requires i < |Split(s)| && c in Split(s)[i]
    ensures c in s
  {
    if s != "" {
      var rest := Split(s[1..]);
      if s[0] == '/' {
        if i > 0 {
          SegmentChars(s[1..], i - 1, c);
        }
      } else if i == 0 && c != s[0] {
        assert c in rest[0];
        SegmentChars(s[1..], 0, c);
      } else if i > 0 {
        SegmentChars(s[1..], i, c);
      }
    }
  }

  // ---- which paths have a key ------------------------------------------------

  lemma DoubleSlashMeaning(s: string)
    ensures ContainsDoubleSlash(s) <==> exists a: string, b: string :: s == a + "//" + b
  {
    if ContainsDoubleSlash(s) {
      var i :| 0 <= i < |s| - 1 && s[i] == '/' && s[i + 1] == '/';
      assert s == s[..i] + "//" + s[i + 2..];
    }
    forall a: string, b: string | s == a + "//" + b ensures ContainsDoubleSlash(s) {
      assert s[|a|] == '/' && s[|a| + 1] == '/';
    }
  }

  /** The root, and slashes each followed by a parameter value, have a key, and no other path has. */
  lemma KeyMeaning(segs: seq<string>)
    requires segs != [] && Slashless(segs)
    ensures CacheKey("/" + Join(segs))
            == if segs == [""] then Some("index.html")
               else if forall i :: 0 <= i < |segs| ==> ValidParamValue(segs[i]) then Some(Join(segs)) else None
  {
    var path := "/" + Join(segs);
    SplitJoin(segs);
    assert path[1..] == Join(segs);
    if segs == [""] {
      JoinOne("");
    } else if forall i :: 0 <= i < |segs| ==> ValidParamValue(segs[i]) {
      NoBareSlashes(segs);
    }
  }

  /** Joining values leaves no slash at an end and no two in a row. */
  lemma {:induction false} NoBareSlashes(segs: seq<string>)
    requires segs != [] && Slashless(segs) && forall i :: 0 <= i < |segs| ==> segs[i] != ""
    ensures var s := Join(segs); s != "" && s[0] != '/' && s[|s| - 1] != '/' && !ContainsDoubleSlash("/" + s)
    decreases |segs|
  {
    var s := Join(segs);
    if |segs| > 1 {
      NoBareSlashes(segs[1..]);
      var rest := Join(segs[1..]);
      assert s == segs[0] + "/" + rest;
      forall i | 0 <= i < |"/" + s| - 1 ensures !(("/" + s)[i] == '/' && ("/" + s)[i + 1] == '/') {
        if i > |segs[0]| {
          assert ("/" + s)[i] == ("/" + rest)[i - |segs[0]| - 1];
          assert ("/" + s)[i + 1] == ("/" + rest)[i - |segs[0]|];
        }
      }
    } else {
      JoinOne(segs[0]);
      assert segs == [segs[0]];
    }
  }

  /** The files of a path's cache entry and of its prerendered page. */
  lemma FileMeaning(path: string)
    requires CacheKey(path).Some?
    ensures DiskKey(CacheKey(path).value) == (if path == "/" then "index.html.entry" else path[1..] + ".entry")
    ensures PageFile(path) == Some(if path == "/" then "index.html" else path[1..] + ".html")
  {
    if path != "/" {
      PlainPageFile(path);
      assert path[1..] == CacheKey(path).value;
    }
  }

  // ---- what an invalidation means for one path ----------------------------------

  /** A pattern without parameters affects its own path only. One whose parameters all have valid values
      affects the one path they fill in; if a parameter is missing or its value is not valid, every path
      the pattern matches. */
  lemma AffectedMeaning(pattern: string, params: Params, path: string)
    ensures !HasParams(pattern) ==> (Affected(pattern, params, path) <==> path == pattern)
    ensures HasParams(pattern) && (forall i :: 0 <= i < |Split(pattern)| ==> Supplied(Split(pattern)[i], params)) ==>
              (Affected(pattern, params, path) <==> path == Join(FillSegs(Split(pattern), params)))
    ensures HasParams(pattern) && (exists i :: 0 <= i < |Split(pattern)| && !Supplied(Split(pattern)[i], params)) ==>
              (Affected(pattern, params, path) <==> MatchSpec(pattern, path).Some?)
  {
  }
}
