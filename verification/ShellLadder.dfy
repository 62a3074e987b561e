/** Where the injector puts its text when the closing tag never comes, said in bytes. */
module ShellLadder {
  import opened ShellMeta

  // ---- what is searched for ------------------------------------------------

  ghost predicate Spells(b: Bytes, text: string) {
    |b| == |text| && forall i :: 0 <= i < |b| ==> b[i] as int == text[i] as int
  }

  /** The tags the injector knows, in lower case. */
  lemma Openers()
    ensures Spells(HEAD_CLOSE, "</head>") && Spells(HEAD_OPEN, "<head")
    ensures Spells(HTML_OPEN, "<html") && Spells(DOCTYPE, "<!doctype") && GT as char == '>'
  {
  }

  /** The same byte, or the two cases of one ASCII letter. */
  predicate SameLetter(c: bv8, d: bv8) {
    c == d || (0x41 <= c <= 0x5a && d == c + 0x20) || (0x41 <= d <= 0x5a && c == d + 0x20)
  }

  /** Two bytes are folded together exactly if they are equal or the two cases of one ASCII letter. */
  lemma FoldsCaseOnly(c: bv8, d: bv8)
    ensures FoldByte(c) == FoldByte(d) <==> SameLetter(c, d)
    ensures !(0x41 <= c <= 0x5a) ==> FoldByte(c) == c
  {
  }

  /** A text without capitals occurs at i exactly if it lies there letter by letter, in any case. */
  lemma FoundMeaning(b: Bytes, needle: Bytes, i: int)
    requires forall j :: 0 <= j < |needle| ==> !(0x41 <= needle[j] <= 0x5a)
    ensures FoundAt(b, needle, i) <==>
              i >= 0 && i + |needle| <= |b| && forall j :: 0 <= j < |needle| ==> SameLetter(b[i + j], needle[j])
  {
    if i >= 0 && i + |needle| <= |b| {
      forall j | 0 <= j < |needle| ensures FoldByte(b[i + j]) == needle[j] <==> SameLetter(b[i + j], needle[j]) {
        FoldsCaseOnly(b[i + j], needle[j]);
      }
    }
  }

  /** The tags have none. */
  lemma OpenersHaveNoCapitals(opener: Bytes)
    requires opener in {HEAD_CLOSE, HEAD_OPEN, HTML_OPEN, DOCTYPE}
    ensures forall j :: 0 <= j < |opener| ==> !(0x41 <= opener[j] <= 0x5a)
  {
  }

  // ---- the ladder ------------------------------------------------------------

  /** The first occurrence of the opener is at i, and the first '>' from there on at g. */
  ghost predicate ClosesAt(body: Bytes, opener: Bytes, i: nat, g: nat) {
    && FoundAt(body, opener, i) && (forall k :: FoundAt(body, opener, k) ==> i <= k)
    && i <= g < |body| && body[g] == 0x3e && (forall j :: i <= j < g ==> body[j] != 0x3e)
  }

  /** The tag's first occurrence is closed by the '>' at g. */
  ghost predicate Opens(body: Bytes, opener: Bytes, g: nat) {
    exists i: nat :: ClosesAt(body, opener, i, g)
  }

  ghost predicate Unusable(body: Bytes, opener: Bytes) {
    forall g: nat :: !Opens(body, opener, g)
  }

  lemma AfterOpenerMeaning(body: Bytes, opener: Bytes)
    ensures forall g: nat :: Opens(body, opener, g) <==> AfterOpener(body, opener) == g + 1
    ensures AfterOpener(body, opener) < 0 <==> Unusable(body, opener)
    ensures AfterOpener(body, opener) != 0
  {
    var i := First(body, opener);
    if i >= 0 && IndexByte(body, GT, i) >= 0 {
      assert ClosesAt(body, opener, i, IndexByte(body, GT, i));
      assert Opens(body, opener, IndexByte(body, GT, i));
    }
    forall g: nat | Opens(body, opener, g) ensures AfterOpener(body, opener) == g + 1 {
      var at: nat :| ClosesAt(body, opener, at, g);
      assert i == at;
    }
  }

  /** The ladder's rungs in order: <head, or else <html, or else <!doctype. */
  ghost predicate Rung(body: Bytes, opener: Bytes) {
    || opener == HEAD_OPEN
    || (opener == HTML_OPEN && Unusable(body, HEAD_OPEN))
    || (opener == DOCTYPE && Unusable(body, HEAD_OPEN) && Unusable(body, HTML_OPEN))
  }

  lemma AfterOpened(body: Bytes, opener: Bytes, g: nat)
    requires Opens(body, opener, g)
    ensures AfterOpener(body, opener) == g + 1 && g < |body|
  {
    AfterOpenerMeaning(body, opener);
  }

  lemma AfterUnusable(body: Bytes, opener: Bytes)
    requires Unusable(body, opener)
    ensures AfterOpener(body, opener) < 0
  {
    AfterOpenerMeaning(body, opener);
  }

  lemma RungDecides(body: Bytes, opener: Bytes, g: nat)
    requires Rung(body, opener) && Opens(body, opener, g)
    ensures FallbackPoint(body) == g + 1 && g < |body|
  {
    AfterOpened(body, opener, g);
    if opener == HTML_OPEN || opener == DOCTYPE {
      AfterUnusable(body, HEAD_OPEN);
    }
    if opener == DOCTYPE {
      AfterUnusable(body, HTML_OPEN);
    }
  }

  /** The text goes right behind the '>' of the first usable opener. */
  lemma FallbackGoesBehind(body: Bytes, inject: Bytes, opener: Bytes, g: nat)
    requires Rung(body, opener) && Opens(body, opener, g)
    ensures g < |body| && WithFallback(body, inject) == body[..g + 1] + inject + body[g + 1..]
  {
    RungDecides(body, opener, g);
  }

  /** A body in which none of them is closed stays as it is. */
  lemma NoFallback(body: Bytes, inject: Bytes)
    requires Unusable(body, HEAD_OPEN) && Unusable(body, HTML_OPEN) && Unusable(body, DOCTYPE)
    ensures WithFallback(body, inject) == body
  {
    AfterUnusable(body, HEAD_OPEN);
    AfterUnusable(body, HTML_OPEN);
    AfterUnusable(body, DOCTYPE);
  }

  /** A whole response, however it is cut, when the closing tag is nowhere in a body of at most 256 KiB. */
  lemma ResponseWithoutTag(chunks: seq<Bytes>, inject: Bytes)
    requires |Concat(chunks)| <= 262144 && forall k :: !FoundAt(Concat(chunks), HEAD_CLOSE, k)
    ensures Response(chunks, inject, true) == WithFallback(Concat(chunks), inject)
  {
    ResponseIsChunkIndependent(chunks, inject);
  }

  /** And when its first occurrence i ends within the first 262145 bytes. */
  lemma ResponseWithTag(chunks: seq<Bytes>, inject: Bytes, i: nat)
    requires FoundAt(Concat(chunks), HEAD_CLOSE, i) && forall k :: FoundAt(Concat(chunks), HEAD_CLOSE, k) ==> i <= k
    requires i + 7 <= 262145
    ensures i <= |Concat(chunks)|
    ensures Response(chunks, inject, true) == Concat(chunks)[..i] + inject + Concat(chunks)[i..]
  {
    ResponseIsChunkIndependent(chunks, inject);
  }

  /** A longer body without the tag comes out as it is. */
  lemma LongResponseWithoutTag(chunks: seq<Bytes>, inject: Bytes)
    requires |Concat(chunks)| >= 262145 && forall k :: !FoundAt(Concat(chunks), HEAD_CLOSE, k)
    ensures Response(chunks, inject, true) == Concat(chunks)
  {
    ResponseIsChunkIndependent(chunks, inject);
  }

  /** The headers are looked at with the first chunk and not again. */
  lemma HeadersDecideOnce(m: Writer, p: Bytes, html: bool)
    ensures m.started ==> WriteSpec(m, p, true) == WriteSpec(m, p, false) && WriteSpec(m, p, html).skip == m.skip
    ensures !m.started ==> WriteSpec(m, p, html).started && WriteSpec(m, p, html).skip == !html
  {
  }

  /** Finishing leaves nothing behind and may be repeated; what is written after it goes straight through. */
  lemma FinishIsFinal(chunks: seq<Bytes>, inject: Bytes, html: bool, p: Bytes)
    ensures var m := FinishSpec(WriteAll(New(inject), chunks, html));
            && m.buf == [] && FinishSpec(m) == m
            && (Concat(chunks) != [] ==> WriteSpec(m, p, html) == m.(out := m.out + p))
  {
    if html {
      AllWritesStand(chunks, inject);
      StartedByContent(chunks, inject);
    } else {
      OthersPassThrough(chunks, inject);
      StartedByContent(chunks, inject);
    }
  }

  lemma {:induction false} StartedByContent(chunks: seq<Bytes>, inject: Bytes)
    ensures forall html :: chunks != [] ==> WriteAll(New(inject), chunks, html).started
  {
    if chunks != [] {
      StartedByContent(chunks[..|chunks| - 1], inject);
    }
  }
}
