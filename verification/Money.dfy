/** Minor-unit amounts and their display strings, in 64-bit integers. */
module Money {
  import opened Common

  // ---- digits ------------------------------------------------------------

  predicate IsDigit(c: char) { '0' <= c <= '9' }

  predicate DigitsOnly(s: string) {
    forall i :: 0 <= i < |s| ==> IsDigit(s[i])
  }

  function DigitValue(c: char): int { c as int - '0' as int }

  /** The number a digit string denotes, of any length. */
  function DecValue(s: string): int {
    if s == "" then 0 else DecValue(s[..|s| - 1]) * 10 + DigitValue(s[|s| - 1])
  }

  lemma {:induction false} DecValueGrows(s: string, n: nat)
    requires DigitsOnly(s) && n <= |s|
    ensures 0 <= DecValue(s[..n]) <= DecValue(s)
    decreases |s|
  {
    if n < |s| {
      assert s[..|s| - 1][..n] == s[..n];
      DecValueGrows(s[..|s| - 1], n);
    } else {
      assert s[..n] == s;
      if s != "" {
        DecValueGrows(s[..|s| - 1], 0);
      }
    }
  }

  function DigitChar(d: int): char
    requires 0 <= d < 10
  {
    (d + '0' as int) as char
  }

  /** Sprintf("%d") of a non-negative number. */
  function NatText(n: nat): (s: string)
    ensures s != "" && DigitsOnly(s) && DecValue(s) == n
  {
    if n < 10 then
      assert DecValue([DigitChar(n)]) == DecValue("") * 10 + n;
      [DigitChar(n)]
    else
      var (front, last) := (NatText(n / 10), DigitChar(n % 10));
      assert (front + [last])[..|front|] == front;
      front + [last]
  }

  function IntText(n: int): string {
    if n < 0 then "-" + NatText(-n) else NatText(n)
  }

  /** Sprintf("%02d"). */
  function TwoDigitText(n: int): string {
    if 0 <= n < 10 then "0" + NatText(n) else IntText(n)
  }

  // ---- atoiClamped -------------------------------------------------------

  /** Fails exactly when the value exceeds MaxInt; never wraps. */
  method AtoiClamped(digits: string) returns (v: Option<int>)
    requires DigitsOnly(digits)
    ensures v == if DecValue(digits) <= INT64_MAX then Some(DecValue(digits)) else None
  {
    var acc := 0;
    for i := 0 to |digits|
      invariant acc == DecValue(digits[..i]) && 0 <= acc <= INT64_MAX
    {
      var d := DigitValue(digits[i]);
      assert digits[..i + 1][..i] == digits[..i];
      DecValueGrows(digits, i + 1);
      if acc > (INT64_MAX - d) / 10 {
        return None;
      }
      acc := acc * 10 + d;
    }
    assert digits[..|digits|] == digits;
    return Some(acc);
  }

  const WHOLE_LIMIT: int := (INT64_MAX - 99) / 100

  /** "5" after the dot is fifty minor units, "05" five, nothing zero. */
  function FracValue(frac: string): int {
    if |frac| == 1 then DecValue(frac) * 10 else DecValue(frac)
  }

  method ParseUnits(intPart: string, fracPart: string) returns (units: Option<int>)
    requires DigitsOnly(intPart) && DigitsOnly(fracPart) && |fracPart| <= 2
    ensures units
            == if DecValue(intPart) <= WHOLE_LIMIT then Some(DecValue(intPart) * 100 + FracValue(fracPart)) else None
    ensures units.Some? ==> 0 <= units.value <= INT64_MAX
  {
    var whole := AtoiClamped(intPart);
    if whole.None? {
      return None;
    }
    var frac := 0;
    for i := 0 to |fracPart|
      invariant frac == DecValue(fracPart[..i])
    {
      assert fracPart[..i + 1][..i] == fracPart[..i];
      frac := frac * 10 + DigitValue(fracPart[i]);
    }
    assert fracPart[..|fracPart|] == fracPart;
    if |fracPart| == 1 {
      frac := frac * 10;
    }
    FracBound(fracPart);
    DecValueGrows(intPart, 0);
    if whole.value > (INT64_MAX - 99) / 100 {
      return None;
    }
    return Some(whole.value * 100 + frac);
  }

  lemma FracBound(frac: string)
    requires DigitsOnly(frac) && |frac| <= 2
    ensures 0 <= FracValue(frac) <= 99
  {
    if frac != "" {
      var front := frac[..|frac| - 1];
      assert DecValue(frac) == DecValue(front) * 10 + DigitValue(frac[|frac| - 1]);
      if front != "" {
        assert front[..0] == "" && DecValue(front) == DigitValue(front[0]);
      }
    }
  }

  // ---- ParseAmount -------------------------------------------------------

  /** Unicode white space, as strings.TrimSpace takes it. */
  predicate IsSpace(c: char) {
    '\t' <= c <= '\r' || c == ' ' || c == '\U{85}' || c == '\U{A0}' || c == '\U{1680}'
    || '\U{2000}' <= c <= '\U{200A}' || c == '\U{2028}' || c == '\U{2029}' || c == '\U{202F}'
    || c == '\U{205F}' || c == '\U{3000}'
  }

  function TrimLeft(s: string): string {
    if s != "" && IsSpace(s[0]) then TrimLeft(s[1..]) else s
  }

  function TrimRight(s: string): string {
    if s != "" && IsSpace(s[|s| - 1]) then TrimRight(s[..|s| - 1]) else s
  }

  function TrimSpace(s: string): string { TrimRight(TrimLeft(s)) }

  function IndexByte(s: string, c: char): (i: int)
    ensures i == -1 ==> c !in s
    ensures i != -1 ==> 0 <= i < |s| && s[i] == c && c !in s[..i]
  {
    if s == "" then -1
    else if s[0] == c then 0
    else
      var j := IndexByte(s[1..], c);
      assert j >= 0 ==> s[..j + 1] == [s[0]] + s[1..][..j];
      if j < 0 then -1 else j + 1
  }

  datatype Sign = NoSign | Plus | Minus

  /** An amount as written; frac None: there is no dot and the digits are minor units already. */
  datatype Written = Written(sign: Sign, whole: string, frac: Option<string>)

  predicate WellFormed(w: Written) {
    && DigitsOnly(w.whole)
    && (w.frac.Some? ==> |w.frac.value| <= 2 && DigitsOnly(w.frac.value))
    && (w.whole == "" ==> w.frac.Some?)
  }

  function SignText(sign: Sign): string {
    match sign case NoSign => "" case Plus => "+" case Minus => "-"
  }

  function Body(w: Written): string {
    if w.frac.Some? then w.whole + "." + w.frac.value else w.whole
  }

  function Text(w: Written): string {
    SignText(w.sign) + Body(w)
  }

  /** What a written amount is worth in minor units, exactly. */
  function Worth(w: Written): int {
    var units := if w.frac.Some? then DecValue(w.whole) * 100 + FracValue(w.frac.value) else DecValue(w.whole);
    if w.sign == Minus then -units else units
  }

  predicate InRange(w: Written) {
    DecValue(w.whole) <= if w.frac.Some? then WHOLE_LIMIT else INT64_MAX
  }

  function SignOf(s: string): Sign {
    if s == "" then NoSign else if s[0] == '-' then Minus else if s[0] == '+' then Plus else NoSign
  }

  function Unsigned(s: string): string {
    if SignOf(s) == NoSign then s else s[1..]
  }

  function ReadBody(sign: Sign, body: string): Written {
    var dot := IndexByte(body, '.');
    if dot < 0 then Written(sign, body, None) else Written(sign, body[..dot], Some(body[dot + 1..]))
  }

  /** Reading follows the text: sign, then the first dot. */
  function Read(s: string): Written {
    ReadBody(SignOf(s), Unsigned(s))
  }

  /** Every text is that of what is read from it. */
  lemma ReadInvertsText(s: string)
    ensures Text(Read(s)) == s
  {
    assert s == SignText(SignOf(s)) + Unsigned(s);
    BodyInvertsReadBody(SignOf(s), Unsigned(s));
  }

  lemma BodyInvertsReadBody(sign: Sign, body: string)
    ensures Body(ReadBody(sign, body)) == body
  {
    var dot := IndexByte(body, '.');
    if dot >= 0 {
      assert body == body[..dot] + "." + body[dot + 1..];
    }
  }

  lemma {:induction false} FirstOccurrence(s: string, c: char, k: nat)
    requires k < |s| && s[k] == c && c !in s[..k]
    ensures IndexByte(s, c) == k
    decreases k
  {
    if k > 0 {
      assert s[0] == s[..k][0];
      assert s[1..][..k - 1] == s[..k][1..];
      FirstOccurrence(s[1..], c, k - 1);
    }
  }

  lemma FirstDot(a: string, b: string)
    requires '.' !in a
    ensures var s := a + "." + b;
            IndexByte(s, '.') == |a| && s[..|a|] == a && s[|a| + 1..] == b
  {
    var s := a + "." + b;
    assert s[..|a|] == a;
    FirstOccurrence(s, '.', |a|);
  }

  /** The readable texts are exactly those of well-formed amounts. */
  lemma TextReadsBack(w: Written)
    requires WellFormed(w)
    ensures Read(Text(w)) == w
  {
    BodyStart(w);
    SignReadsBack(w.sign, Body(w));
    BodyReadsBack(w);
  }

  lemma SignReadsBack(sign: Sign, body: string)
    requires body != "" && body[0] != '-' && body[0] != '+'
    ensures SignOf(SignText(sign) + body) == sign && Unsigned(SignText(sign) + body) == body
  {
    assert (SignText(sign) + body)[|SignText(sign)|..] == body;
  }

  lemma BodyReadsBack(w: Written)
    requires WellFormed(w)
    ensures ReadBody(w.sign, Body(w)) == w
  {
    if w.frac.Some? {
      FirstDot(w.whole, w.frac.value);
    }
  }

  lemma BodyStart(w: Written)
    requires WellFormed(w)
    ensures Body(w) != "" && (IsDigit(Body(w)[0]) || Body(w)[0] == '.')
    ensures var last := Body(w)[|Body(w)| - 1]; IsDigit(last) || last == '.'
  {
    if w.frac.Some? && w.frac.value != "" {
      assert Body(w)[|Body(w)| - 1] == w.frac.value[|w.frac.value| - 1];
    }
  }

  /** The exact worth of a readable amount in range, and 0 for everything else. */
  function ParseSpec(display: string): int {
    var w := Read(TrimSpace(display));
    if WellFormed(w) && InRange(w) then Worth(w) else 0
  }

  /** A non-zero result is what some readable text of the amount is worth. */
  lemma NonZeroIsRead(display: string)
    ensures ParseSpec(display) != 0 ==>
              exists w :: WellFormed(w) && Text(w) == TrimSpace(display) && ParseSpec(display) == Worth(w)
  {
    ReadInvertsText(TrimSpace(display));
  }

  method ParseAmount(display: string) returns (units: int)
    ensures units == ParseSpec(display)
    ensures Fits64(units)
    ensures units != 0 ==>
              exists w :: WellFormed(w) && Text(w) == TrimSpace(display) && units == Worth(w)
  {
    NonZeroIsRead(display);
    var s := TrimSpace(display);
    if s == "" {
      return 0;
    }
    var neg := false;
    if s[0] == '-' {
      neg := true;
      units := ParseMagnitude(s[1..], Minus);
    } else if s[0] == '+' {
      units := ParseMagnitude(s[1..], Plus);
    } else {
      units := ParseMagnitude(s, NoSign);
    }
    if neg {
      units := -units;
    }
  }

  function Magnitude(w: Written): int {
    if WellFormed(w) && InRange(w) then Worth(w.(sign := NoSign)) else 0
  }

  /** The unsigned part; what does not read is worth 0. */
  method ParseMagnitude(s: string, ghost sign: Sign) returns (units: int)
    ensures units == Magnitude(ReadBody(sign, s))
    ensures 0 <= units <= INT64_MAX
  {
    if s == "" {
      return 0;
    }
    var intPart, fracPart, hasDot := s, "", false;
    var i := IndexByte(s, '.');
    if i >= 0 {
      intPart, fracPart, hasDot := s[..i], s[i + 1..], true;
    }
    units := CheckedUnits(intPart, fracPart, hasDot, sign);
  }

  method CheckedUnits(intPart: string, fracPart: string, hasDot: bool, ghost sign: Sign) returns (units: int)
    requires hasDot || (intPart != "" && fracPart == "")
    ensures units == Magnitude(Written(sign, intPart, if hasDot then Some(fracPart) else None))
    ensures 0 <= units <= INT64_MAX
  {
    if |fracPart| > 2 || !DigitsOnly(intPart) || !DigitsOnly(fracPart) {
      return 0;
    }
    var u := UnitsOf(intPart, fracPart, hasDot);
    return if u.Some? then u.value else 0;
  }

  method UnitsOf(intPart: string, fracPart: string, hasDot: bool) returns (u: Option<int>)
    requires DigitsOnly(intPart) && DigitsOnly(fracPart) && |fracPart| <= 2
    ensures var w := Written(NoSign, intPart, if hasDot then Some(fracPart) else None);
            u == if InRange(w) then Some(Worth(w)) else None
    ensures u.Some? ==> 0 <= u.value <= INT64_MAX
  {
    DecValueGrows(intPart, 0);
    if hasDot {
      u := ParseUnits(intPart, fracPart);
    } else {
      u := AtoiClamped(intPart);
    }
  }

  // ---- currencies --------------------------------------------------------

  function Upper(c: char): char {
    if 'a' <= c <= 'z' then c - 'a' + 'A' else c
  }

  predicate IsZeroDecimal(currency: string) {
    |currency| == 3 && Upper(currency[0]) == 'J' && Upper(currency[1]) == 'P' && Upper(currency[2]) == 'Y'
  }

  function GoDiv100(n: int): int { if n >= 0 then n / 100 else -(-n / 100) }

  function GoMod100(n: int): int { n - 100 * GoDiv100(n) }

  function FormatCents(cents: int, currency: string): string {
    if IsZeroDecimal(currency) then IntText(cents)
    else
      var sign := if cents < 0 then "-" else "";
      var c := if cents < 0 then Wrap64(-cents) else cents;
      sign + IntText(GoDiv100(c)) + "." + TwoDigitText(GoMod100(c))
  }

  predicate AllZeros(s: string) {
    forall i :: 0 <= i < |s| ==> s[i] == '0'
  }

  function ParseForCurrency(display: string, currency: string): int {
    if !IsZeroDecimal(currency) then ParseSpec(display)
    else
      var s := TrimSpace(display);
      var i := IndexByte(s, '.');
      if i < 0 then ParseSpec(s)
      else if !AllZeros(s[i + 1..]) then 0
      else ParseSpec(s[..i])
  }

  method ParseAmountForCurrency(display: string, currency: string) returns (units: int)
    ensures units == ParseForCurrency(display, currency)
  {
    if !IsZeroDecimal(currency) {
      units := ParseAmount(display);
      return;
    }
    var s := TrimSpace(display);
    var i := IndexByte(s, '.');
    if i >= 0 {
      var frac := s[i + 1..];
      if frac != "" && !AllZeros(frac) {
        return 0;
      }
      s := s[..i];
    }
    units := ParseAmount(s);
  }

  // ---- the round trip ----------------------------------------------------

  predicate NoOuterSpace(s: string) {
    s == "" || (!IsSpace(s[0]) && !IsSpace(s[|s| - 1]))
  }

  lemma TrimKeeps(s: string)
    requires NoOuterSpace(s)
    ensures TrimSpace(s) == s
  {
  }

  lemma ParseOfText(w: Written)
    requires WellFormed(w)
    ensures ParseSpec(Text(w)) == if InRange(w) then Worth(w) else 0
  {
    var s := Text(w);
    BodyStart(w);
    assert s[|s| - 1] == Body(w)[|Body(w)| - 1];
    assert w.sign == NoSign ==> s[0] == Body(w)[0];
    TrimKeeps(s);
    TextReadsBack(w);
  }

  lemma TwoDigits(r: int)
    requires 0 <= r < 100
    ensures var t := TwoDigitText(r); |t| == 2 && DigitsOnly(t) && DecValue(t) == r
  {
    var t := TwoDigitText(r);
    if r < 10 {
      assert |NatText(r)| == 1;
      assert t[..1] == "0" && t[..1][..0] == "";
    } else {
      assert |NatText(r / 10)| == 1;
    }
  }

  /** n minor units as written with two decimals. */
  function TwoDecimal(sign: Sign, n: int): Written
    requires n >= 0
  {
    Written(sign, NatText(n / 100), Some(TwoDigitText(n % 100)))
  }

  lemma TwoDecimalWorth(sign: Sign, n: int)
    requires n >= 0
    ensures var w := TwoDecimal(sign, n);
            && WellFormed(w)
            && (sign == Minus ==> Worth(w) == -n) && (sign != Minus ==> Worth(w) == n)
            && (InRange(w) <==> n / 100 <= WHOLE_LIMIT)
  {
    TwoDigits(n % 100);
  }

  /** How a two-decimal amount other than MinInt is written. */
  lemma FormattedText(c: int, currency: string)
    requires !IsZeroDecimal(currency) && INT64_MIN < c <= INT64_MAX
    ensures FormatCents(c, currency) == Text(TwoDecimal(if c < 0 then Minus else NoSign, if c < 0 then -c else c))
  {
    var n := if c < 0 then -c else c;
    assert GoDiv100(n) == n / 100 && GoMod100(n) == n % 100;
    var (sign, q, r) := (if c < 0 then "-" else "", NatText(n / 100), TwoDigitText(n % 100));
    assert sign + q + "." + r == sign + (q + "." + r);
  }

  /** Formatting then parsing a two-decimal amount gives it back exactly up to
      9223372036854775799 in absolute value; beyond that it gives 0. */
  lemma RoundTripTwoDecimal(c: int, currency: string)
    requires Fits64(c) && !IsZeroDecimal(currency)
    ensures ParseForCurrency(FormatCents(c, currency), currency) == c
            <==> -9223372036854775799 <= c <= 9223372036854775799
  {
    if c == INT64_MIN {
      MinIntDoesNotParse(c, currency);
    } else {
      var n := if c < 0 then -c else c;
      FormattedText(c, currency);
      TwoDecimalWorth(if c < 0 then Minus else NoSign, n);
      ParseOfText(TwoDecimal(if c < 0 then Minus else NoSign, n));
      LimitMeaning(n);
    }
  }

  lemma LimitMeaning(n: nat)
    ensures n / 100 <= WHOLE_LIMIT <==> n <= 9223372036854775799
  {
    assert WHOLE_LIMIT == 92233720368547757;
  }

  /** MinInt has no positive counterpart and comes out with a second minus sign. */
  lemma MinIntDoesNotParse(c: int, currency: string)
    requires c == INT64_MIN && !IsZeroDecimal(currency)
    ensures ParseSpec(FormatCents(c, currency)) == 0
  {
    var (d, m) := (GoDiv100(c), GoMod100(c));
    MinIntFormats(c, d, m, currency);
    NegativesDoNotParse(d, m);
  }

  lemma MinIntFormats(c: int, d: int, m: int, currency: string)
    requires c == INT64_MIN && d == GoDiv100(c) && m == GoMod100(c) && !IsZeroDecimal(currency)
    ensures d < 0 && m < 0 && FormatCents(c, currency) == "-" + IntText(d) + "." + TwoDigitText(m)
  {
    assert Wrap64(-c) == c;
  }

  lemma NegativesDoNotParse(d: int, m: int)
    requires d < 0 && m < 0
    ensures ParseSpec("-" + IntText(d) + "." + TwoDigitText(m)) == 0
  {
    var (q, r) := (IntText(d), TwoDigitText(m));
    var s := "-" + q + "." + r;
    assert r == "-" + NatText(-m);
    assert s[|s| - 1] == r[|r| - 1] && IsDigit(r[|r| - 1]);
    TrimKeeps(s);
    assert Unsigned(s) == q + "." + r;
    assert forall i :: 0 <= i < |q| ==> q[i] == '-' || IsDigit(q[i]);
    FirstDot(q, r);
    assert Read(s).whole == q && q[0] == '-';
  }

  /** For a zero-decimal currency only MinInt is lost. */
  lemma RoundTripZeroDecimal(c: int, currency: string)
    requires Fits64(c) && IsZeroDecimal(currency)
    ensures ParseForCurrency(FormatCents(c, currency), currency) == c <==> c != INT64_MIN
  {
    var w := Written(if c < 0 then Minus else NoSign, NatText(if c < 0 then -c else c), None);
    WholeParses(w, IntText(c));
  }

  /** Without a dot both parsers read the same digits. */
  lemma WholeParses(w: Written, s: string)
    requires WellFormed(w) && w.frac.None? && s == Text(w)
    ensures TrimSpace(s) == s && IndexByte(s, '.') == -1 && ParseSpec(s) == if InRange(w) then Worth(w) else 0
  {
    ParseOfText(w);
    WholeTrims(w);
    WholeHasNoDot(w);
  }

  lemma WholeHasNoDot(w: Written)
    requires WellFormed(w) && w.frac.None?
    ensures '.' !in Text(w)
  {
  }

  lemma WholeTrims(w: Written)
    requires WellFormed(w) && w.frac.None?
    ensures TrimSpace(Text(w)) == Text(w)
  {
    BodyStart(w);
    var s := Text(w);
    assert s[|s| - 1] == Body(w)[|Body(w)| - 1];
    assert w.sign == NoSign ==> s[0] == Body(w)[0];
    TrimKeeps(s);
  }

  /** The "4500.00" echo of a whole amount parses like "4500"; any other fraction yields 0. */
  lemma ZeroDecimalEcho(whole: nat, frac: string, currency: string)
    requires IsZeroDecimal(currency) && DigitsOnly(frac) && whole <= INT64_MAX
    ensures ParseForCurrency(NatText(whole) + "." + frac, currency) == if AllZeros(frac) then whole else 0
  {
    EchoReads(NatText(whole), frac);
    DigitsParse(NatText(whole));
  }

  /** The echoed text as the parser cuts it. */
  lemma EchoReads(digits: string, frac: string)
    requires digits != "" && DigitsOnly(digits) && DigitsOnly(frac)
    ensures var s := digits + "." + frac;
            TrimSpace(s) == s && IndexByte(s, '.') == |digits| && s[..|digits|] == digits && s[|digits| + 1..] == frac
  {
    var s := digits + "." + frac;
    assert s[0] == digits[0];
    assert frac != "" ==> s[|s| - 1] == frac[|frac| - 1];
    assert frac == "" ==> s[|s| - 1] == '.';
    TrimKeeps(s);
    FirstDot(digits, frac);
  }

  lemma DigitsParse(digits: string)
    requires digits != "" && DigitsOnly(digits) && DecValue(digits) <= INT64_MAX
    ensures TrimSpace(digits) == digits && ParseSpec(digits) == DecValue(digits)
  {
    PlainText(digits);
    PlainParses(Written(NoSign, digits, None), digits);
  }

  lemma PlainText(digits: string)
    ensures digits == Text(Written(NoSign, digits, None))
  {
    assert "" + digits == digits;
  }

  lemma PlainParses(w: Written, s: string)
    requires WellFormed(w) && w.frac.None? && w.sign == NoSign && s == Text(w) && InRange(w)
    ensures TrimSpace(s) == s && ParseSpec(s) == DecValue(w.whole)
  {
    WholeParses(w, s);
  }
}
