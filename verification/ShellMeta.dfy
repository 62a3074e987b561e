/** The streaming injector that puts meta tags into an HTML shell it sees chunk by chunk. */
module ShellMeta {

  type Bytes = seq<bv8>

  const SCAN_LIMIT: nat := 262144

  /** "</head>", "<head", "<html", "<!doctype" */
  const HEAD_CLOSE: Bytes := [0x3c, 0x2f, 0x68, 0x65, 0x61, 0x64, 0x3e]
  const HEAD_OPEN: Bytes := [0x3c, 0x68, 0x65, 0x61, 0x64]
  const HTML_OPEN: Bytes := [0x3c, 0x68, 0x74, 0x6d, 0x6c]
  const DOCTYPE: Bytes := [0x3c, 0x21, 0x64, 0x6f, 0x63, 0x74, 0x79, 0x70, 0x65]
  const GT: bv8 := 0x3e

  // ---- searching ---------------------------------------------------------

  function FoldByte(c: bv8): bv8 {
    if 0x41 <= c <= 0x5a then c + 0x20 else c
  }

  /** needle occurs at i, ASCII case ignored. */
  predicate FoundAt(b: Bytes, needle: Bytes, i: int) {
    0 <= i <= |b| - |needle| && forall j :: 0 <= j < |needle| ==> FoldByte(b[i + j]) == needle[j]
  }

  /** i is the first occurrence, or -1 if there is none. */
  ghost predicate IsFirst(b: Bytes, needle: Bytes, i: int) {
    && (i == -1 || FoundAt(b, needle, i))
    && (forall k :: FoundAt(b, needle, k) ==> i != -1 && i <= k)
  }

  function FirstFrom(b: Bytes, needle: Bytes, i: nat): (r: int)
    requires i <= |b|
    requires forall k :: FoundAt(b, needle, k) ==> i <= k
    ensures IsFirst(b, needle, r)
    decreases |b| - i
  {
    if FoundAt(b, needle, i) then i
    else if i == |b| then -1
    else FirstFrom(b, needle, i + 1)
  }

  function First(b: Bytes, needle: Bytes): (r: int)
    ensures IsFirst(b, needle, r)
  {
    FirstFrom(b, needle, 0)
  }

  lemma FirstIsUnique(b: Bytes, needle: Bytes, i: int)
    requires IsFirst(b, needle, i)
    ensures First(b, needle) == i
  {
  }

  /** indexFold: fold a copy of the buffer, then search it. */
  method IndexFold(b: Bytes, needle: Bytes) returns (r: int)
    ensures r == First(b, needle)
  {
    if |b| < |needle| {
      FirstIsUnique(b, needle, -1);
      return -1;
    }
    var fold := new bv8[|b|];
    for i := 0 to |b|
      invariant forall j :: 0 <= j < i ==> fold[j] == FoldByte(b[j])
    {
      var c := b[i];
      if 0x41 <= c <= 0x5a {
        c := c + 0x20;
      }
      fold[i] := c;
    }
    for i := 0 to |b| - |needle| + 1
      invariant forall k :: FoundAt(b, needle, k) ==> i <= k
    {
      var eq := fold[i..i + |needle|] == needle;
      assert eq <==> FoundAt(b, needle, i) by {
        if eq {
          forall j | 0 <= j < |needle| ensures FoldByte(b[i + j]) == needle[j] {
            assert fold[i..i + |needle|][j] == fold[i + j];
          }
        }
      }
      if eq {
        FirstIsUnique(b, needle, i);
        return i;
      }
    }
    FirstIsUnique(b, needle, -1);
    return -1;
  }

  function IndexByte(b: Bytes, c: bv8, from: nat): (r: int)
    requires from <= |b|
    ensures r == -1 || (from <= r < |b| && b[r] == c)
    ensures forall k :: from <= k < |b| && b[k] == c ==> r != -1 && r <= k
    decreases |b| - from
  {
    if from == |b| then -1 else if b[from] == c then from else IndexByte(b, c, from + 1)
  }

  // ---- what a response should come out as ---------------------------------

  function InsertAt(body: Bytes, inject: Bytes, at: nat): Bytes
    requires at <= |body|
  {
    body[..at] + inject + body[at..]
  }

  /** Just past the '>' that ends the first occurrence of an opener, or -1. */
  function AfterOpener(body: Bytes, opener: Bytes): (r: int)
    ensures -1 <= r <= |body|
  {
    var i := First(body, opener);
    if i < 0 then -1
    else
      var end := IndexByte(body, GT, i);
      if end < 0 then -1 else end + 1
  }

  function FallbackPoint(body: Bytes): (r: int)
    ensures -1 <= r <= |body|
  {
    if AfterOpener(body, HEAD_OPEN) >= 0 then AfterOpener(body, HEAD_OPEN)
    else if AfterOpener(body, HTML_OPEN) >= 0 then AfterOpener(body, HTML_OPEN)
    else AfterOpener(body, DOCTYPE)
  }

  function WithFallback(body: Bytes, inject: Bytes): Bytes {
    if FallbackPoint(body) >= 0 then InsertAt(body, inject, FallbackPoint(body)) else body
  }

  // ---- the writer --------------------------------------------------------

  /** out is what has reached the underlying response writer. */
  datatype Writer = Writer(inject: Bytes, buf: Bytes, scanning: bool, started: bool, skip: bool, out: Bytes)

  function New(inject: Bytes): Writer {
    Writer(inject, [], true, false, false, [])
  }

  /** html: the headers describe uncompressed HTML when the first chunk is written. */
  function WriteSpec(m: Writer, p: Bytes, html: bool): Writer {
    var m1 := if m.started then m else m.(started := true, skip := !html);
    if m1.skip || !m1.scanning then m1.(out := m1.out + p)
    else
      var buf := m1.buf + p;
      var i := First(buf, HEAD_CLOSE);
      if i >= 0 then m1.(buf := [], scanning := false, out := m1.out + InsertAt(buf, m1.inject, i))
      else if |buf| > SCAN_LIMIT then m1.(buf := [], scanning := false, out := m1.out + buf)
      else m1.(buf := buf)
  }

  function FinishSpec(m: Writer): Writer {
    if !m.scanning || m.skip || m.buf == [] then m
    else m.(buf := [], scanning := false, out := m.out + WithFallback(m.buf, m.inject))
  }

  class ShellMetaWriter {
    const inject: Bytes
    var buf: Bytes
    var scanning: bool
    var started: bool
    var skip: bool
    var out: Bytes

    function View(): Writer
      reads this
    {
      Writer(inject, buf, scanning, started, skip, out)
    }

    constructor (inject: Bytes)
      ensures View() == New(inject)
    {
      this.inject := inject;
      buf, scanning, started, skip, out := [], true, false, false, [];
    }

    method Flush(b: Bytes)
      modifies this`out
      ensures out == old(out) + b
    {
      if |b| == 0 {
        return;
      }
      out := out + b;
    }

    method Emit(split: nat)
      requires split <= |buf|
      modifies this
      ensures View() == old(View()).(buf := [], scanning := false, out := old(out) + InsertAt(old(buf), inject, split))
    {
      var b := buf;
      buf, scanning := [], false;
      Flush(b[..split]);
      Flush(inject);
      Flush(b[split..]);
    }

    method EmitPassthrough()
      modifies this
      ensures View() == old(View()).(buf := [], scanning := false, out := old(out) + old(buf))
    {
      var b := buf;
      buf, scanning := [], false;
      Flush(b);
    }

    method Write(p: Bytes, html: bool)
      modifies this
      ensures View() == WriteSpec(old(View()), p, html)
    {
      if !started {
        started := true;
        skip := !html;
      }
      if skip || !scanning {
        out := out + p;
        return;
      }
      buf := buf + p;
      var i := IndexFold(buf, HEAD_CLOSE);
      if i >= 0 {
        Emit(i);
        return;
      }
      if |buf| > SCAN_LIMIT {
        EmitPassthrough();
      }
    }

    /** The fallback ladder over the openers, in order. */
    method LadderPoint() returns (at: int)
      ensures at == FallbackPoint(buf)
    {
      var openers := [HEAD_OPEN, HTML_OPEN, DOCTYPE];
      for k := 0 to 3
        invariant k > 0 ==> AfterOpener(buf, HEAD_OPEN) < 0
        invariant k > 1 ==> AfterOpener(buf, HTML_OPEN) < 0
        invariant k > 2 ==> AfterOpener(buf, DOCTYPE) < 0
      {
        var i := IndexFold(buf, openers[k]);
        if i < 0 {
          continue;
        }
        var end := IndexByte(buf, GT, i);
        if end >= 0 {
          return end + 1;
        }
      }
      return -1;
    }

    method Finish()
      modifies this
      ensures View() == FinishSpec(old(View()))
    {
      if !scanning || skip || |buf| == 0 {
        return;
      }
      var at := LadderPoint();
      if at >= 0 {
        Emit(at);
        return;
      }
      EmitPassthrough();
    }
  }

  // ---- a whole response, however it is cut --------------------------------

  function Concat(chunks: seq<Bytes>): Bytes {
    if chunks == [] then [] else Concat(chunks[..|chunks| - 1]) + chunks[|chunks| - 1]
  }

  function WriteAll(m: Writer, chunks: seq<Bytes>, html: bool): Writer {
    if chunks == [] then m else WriteSpec(WriteAll(m, chunks[..|chunks| - 1], html), chunks[|chunks| - 1], html)
  }

  function Response(chunks: seq<Bytes>, inject: Bytes, html: bool): Bytes {
    FinishSpec(WriteAll(New(inject), chunks, html)).out
  }

  /** An occurrence in a prefix is one in the whole, and an occurrence that ends inside a prefix is
      one in the prefix. */
  lemma PrefixOccurrences(a: Bytes, b: Bytes, needle: Bytes, i: int)
    ensures FoundAt(a, needle, i) ==> FoundAt(a + b, needle, i)
    ensures FoundAt(a + b, needle, i) && i + |needle| <= |a| ==> FoundAt(a, needle, i)
  {
    if FoundAt(a, needle, i) {
      forall j | 0 <= j < |needle| ensures FoldByte((a + b)[i + j]) == needle[j] {
        assert (a + b)[i + j] == a[i + j];
      }
    }
    if FoundAt(a + b, needle, i) && i + |needle| <= |a| {
      forall j | 0 <= j < |needle| ensures FoldByte(a[i + j]) == needle[j] {
        assert (a + b)[i + j] == a[i + j];
      }
    }
  }

  lemma FirstInPrefix(a: Bytes, b: Bytes, needle: Bytes)
    ensures First(a, needle) >= 0 ==> First(a + b, needle) == First(a, needle)
    ensures First(a, needle) < 0 && First(a + b, needle) >= 0 ==> First(a + b, needle) + |needle| > |a|
  {
    PrefixOccurrences(a, b, needle, First(a, needle));
    PrefixOccurrences(a, b, needle, First(a + b, needle));
  }

  /** Where the writer stands after the bytes seen so far: still buffering, or already decided, by
      an insertion before the first closing tag or by giving up past the limit. */
  ghost predicate Standing(m: Writer, body: Bytes, inject: Bytes) {
    && m.inject == inject && !m.skip
    && (m.scanning ==>
          m.out == [] && m.buf == body && First(body, HEAD_CLOSE) < 0 && |body| <= SCAN_LIMIT)
    && (!m.scanning ==>
          m.buf == []
          && (|| (First(body, HEAD_CLOSE) >= 0 && m.out == InsertAt(body, inject, First(body, HEAD_CLOSE)))
              || (m.out == body && |body| > SCAN_LIMIT
                  && (First(body, HEAD_CLOSE) >= 0 ==> First(body, HEAD_CLOSE) + |HEAD_CLOSE| - 1 > SCAN_LIMIT))))
  }

  lemma WriteStands(m: Writer, body: Bytes, inject: Bytes, p: Bytes)
    requires Standing(m, body, inject)
    ensures Standing(WriteSpec(m, p, true), body + p, inject)
  {
    FirstInPrefix(body, p, HEAD_CLOSE);
    if m.scanning {
      assert m.buf + p == body + p;
    } else {
      var i := First(body, HEAD_CLOSE);
      if i >= 0 && m.out == InsertAt(body, inject, i) {
        assert m.out + p == InsertAt(body + p, inject, i);
      }
    }
  }

  lemma {:induction false} AllWritesStand(chunks: seq<Bytes>, inject: Bytes)
    ensures Standing(WriteAll(New(inject), chunks, true), Concat(chunks), inject)
  {
    if chunks == [] {
      assert First([], HEAD_CLOSE) < 0;
    } else {
      var n := |chunks| - 1;
      AllWritesStand(chunks[..n], inject);
      WriteStands(WriteAll(New(inject), chunks[..n], true), Concat(chunks[..n]), inject, chunks[n]);
    }
  }

  /** The insertion point no chunking can miss. */
  predicate TagInReach(body: Bytes) {
    First(body, HEAD_CLOSE) >= 0 && First(body, HEAD_CLOSE) + |HEAD_CLOSE| - 1 <= SCAN_LIMIT
  }

  /** However the body is cut: the text goes in right before the first closing tag when the tag's
      last byte lies at most at the scan limit; a body without the tag gets the fallback when it is
      no longer than the limit and comes out unchanged otherwise; in the remaining case it comes
      out with that one insertion or unchanged. */
  lemma ResponseIsChunkIndependent(chunks: seq<Bytes>, inject: Bytes)
    ensures var (body, out) := (Concat(chunks), Response(chunks, inject, true));
            var i := First(body, HEAD_CLOSE);
            if TagInReach(body) then out == InsertAt(body, inject, i)
            else if i < 0 then out == if |body| <= SCAN_LIMIT then WithFallback(body, inject) else body
            else out == InsertAt(body, inject, i) || out == body
  {
    AllWritesStand(chunks, inject);
    var m := WriteAll(New(inject), chunks, true);
    if m.scanning && m.buf == [] {
      assert WithFallback([], inject) == [] by {
        assert First([], HEAD_OPEN) < 0 && First([], HTML_OPEN) < 0 && First([], DOCTYPE) < 0;
      }
    }
  }

  /** Anything that is not plain HTML passes through byte for byte. */
  lemma {:induction false} OthersPassThrough(chunks: seq<Bytes>, inject: Bytes)
    ensures var m := WriteAll(New(inject), chunks, false);
            m.out == Concat(chunks) && m.buf == [] && (chunks != [] ==> m.skip)
    ensures Response(chunks, inject, false) == Concat(chunks)
  {
    if chunks != [] {
      OthersPassThrough(chunks[..|chunks| - 1], inject);
    }
  }

  // ---- the reach is exact -------------------------------------------------

  /** A closing tag out of reach: written whole, the body gets the insertion; cut just before the
      tag's last byte, it comes out unchanged. So the outcome is independent of the chunking
      exactly when the tag is in reach (or absent, or there is nothing to insert). */
  lemma OutOfReachDependsOnChunks(body: Bytes, inject: Bytes)
    requires First(body, HEAD_CLOSE) >= 0 && !TagInReach(body)
    ensures var cut := First(body, HEAD_CLOSE) + |HEAD_CLOSE| - 1;
            && Response([body], inject, true) == InsertAt(body, inject, First(body, HEAD_CLOSE))
            && cut <= |body|
            && Response([body[..cut], body[cut..]], inject, true) == body
  {
    var cut := First(body, HEAD_CLOSE) + |HEAD_CLOSE| - 1;
    WholeBody(body, inject);
    TagIsCut(body, cut);
    GivesUpOnFirst(body[..cut], body[cut..], inject);
  }

  lemma TagIsCut(body: Bytes, cut: int)
    requires First(body, HEAD_CLOSE) >= 0 && cut == First(body, HEAD_CLOSE) + |HEAD_CLOSE| - 1
    ensures 0 <= cut <= |body| && First(body[..cut], HEAD_CLOSE) < 0 && body[..cut] + body[cut..] == body
  {
    assert body[..cut] + body[cut..] == body;
    FirstInPrefix(body[..cut], body[cut..], HEAD_CLOSE);
  }

  lemma GivesUpOnFirst(a: Bytes, b: Bytes, inject: Bytes)
    requires First(a, HEAD_CLOSE) < 0 && |a| > SCAN_LIMIT
    ensures Response([a, b], inject, true) == a + b
  {
    var one := WriteSpec(New(inject), a, true);
    assert [] + a == a;
    assert one == Writer(inject, [], false, true, false, a);
    assert [a, b][..1] == [a] && [a][..0] == [];
    assert WriteAll(New(inject), [a], true) == one;
    assert WriteAll(New(inject), [a, b], true) == one.(out := a + b);
  }

  lemma WholeBody(body: Bytes, inject: Bytes)
    requires First(body, HEAD_CLOSE) >= 0
    ensures Response([body], inject, true) == InsertAt(body, inject, First(body, HEAD_CLOSE))
  {
    assert [body][..0] == [];
    assert WriteAll(New(inject), [body], true) == WriteSpec(New(inject), body, true);
    assert [] + body == body;
  }

  /** The writer itself, driven by any chunks. */
  method Serve(chunks: seq<Bytes>, inject: Bytes, html: bool) returns (out: Bytes)
    ensures out == Response(chunks, inject, html)
  {
    var w := new ShellMetaWriter(inject);
    for i := 0 to |chunks|
      invariant w.View() == WriteAll(New(inject), chunks[..i], html)
    {
      assert chunks[..i + 1][..i] == chunks[..i];
      w.Write(chunks[i], html);
    }
    assert chunks[..|chunks|] == chunks;
    w.Finish();
    out := w.out;
  }
}
