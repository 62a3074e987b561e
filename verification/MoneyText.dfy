/** The characters and currencies the amount strings depend on. */
module MoneyText {
  import opened Common
  import opened Money

  /** The code points strings.TrimSpace trims. */
  lemma SpaceMeaning(c: char)
    ensures IsSpace(c) <==>
              c as int in {0x9, 0xA, 0xB, 0xC, 0xD, 0x20, 0x85, 0xA0, 0x1680, 0x2000, 0x2001, 0x2002, 0x2003, 0x2004,
                           0x2005, 0x2006, 0x2007, 0x2008, 0x2009, 0x200A, 0x2028, 0x2029, 0x202F, 0x205F, 0x3000}
  {
  }

  /** The one currency without minor units is the yen, in any letter case. */
  lemma ZeroDecimalMeaning(currency: string)
    ensures IsZeroDecimal(currency) <==>
              |currency| == 3 && currency[0] in "Jj" && currency[1] in "Pp" && currency[2] in "Yy"
  {
  }

  /** A whole amount of yen with a fraction is read exactly if the fraction is zeros only. */
  lemma YenEcho(whole: nat, frac: string)
    requires DigitsOnly(frac) && whole <= INT64_MAX
    ensures ParseForCurrency(NatText(whole) + "." + frac, "JPY")
            == if exists c :: c in frac && c != '0' then 0 else whole
  {
    ZeroDecimalMeaning("JPY");
    ZeroDecimalEcho(whole, frac, "JPY");
    if !AllZeros(frac) {
      var i :| 0 <= i < |frac| && frac[i] != '0';
      assert frac[i] in frac;
    }
  }

  /** Without any whole part there is no amount of yen. */
  lemma YenNeedsWhole(frac: string)
    requires DigitsOnly(frac)
    ensures ParseForCurrency("." + frac, "JPY") == 0
  {
  }

  // ---- what surrounds an amount -------------------------------------------------

  predicate Blank(s: string) {
    forall c :: c in s ==> IsSpace(c)
  }

  /** Nothing to trim at either end. */
  predicate Tight(s: string) {
    s != "" ==> !IsSpace(s[0]) && !IsSpace(s[|s| - 1])
  }

  lemma {:induction false} LeftBlanks(a: string, t: string)
    requires Blank(a) && (t != "" ==> !IsSpace(t[0]))
    ensures TrimLeft(a + t) == t
  {
    if a == "" {
      assert a + t == t;
    } else {
      LeftBlanks(a[1..], t);
      assert (a + t)[0] in a && (a + t)[1..] == a[1..] + t;
    }
  }

  lemma {:induction false} RightBlanks(t: string, b: string)
    requires Blank(b) && (t != "" ==> !IsSpace(t[|t| - 1]))
    ensures TrimRight(t + b) == t
    decreases |b|
  {
    if b == "" {
      assert t + b == t;
    } else {
      var n := |b| - 1;
      RightBlanks(t, b[..n]);
      assert (t + b)[|t + b| - 1] == b[n] && b[n] in b && (t + b)[..|t + b| - 1] == t + b[..n];
    }
  }

  lemma TrimDropsBlanks(a: string, s: string, b: string)
    requires Blank(a) && Blank(b) && Tight(s)
    ensures TrimSpace(a + s + b) == s
  {
    if s == "" {
      LeftBlanks(a + b, "");
      assert a + s + b == (a + b) + "";
    } else {
      LeftBlanks(a, s + b);
      RightBlanks(s, b);
      assert a + s + b == a + (s + b);
    }
  }

  /** Every string is blanks, a tight text, and blanks; so the above says what trimming does. */
  lemma {:induction false} Cut(s: string) returns (a: string, t: string, b: string)
    ensures s == a + t + b && Blank(a) && Blank(b) && Tight(t)
    decreases |s|
  {
    if s == "" || (!IsSpace(s[0]) && !IsSpace(s[|s| - 1])) {
      a, t, b := "", s, "";
    } else if IsSpace(s[0]) {
      var c;
      c, t, b := Cut(s[1..]);
      a := [s[0]] + c;
      assert s == [s[0]] + s[1..];
    } else {
      var n := |s| - 1;
      var d;
      a, t, d := Cut(s[..n]);
      b := d + [s[n]];
      assert s == s[..n] + [s[n]];
    }
  }

  /** Blanks around an amount do not matter. */
  lemma BlanksDoNotMatter(a: string, s: string, b: string)
    requires Blank(a) && Blank(b)
    ensures ParseSpec(a + s + b) == ParseSpec(s)
  {
    var c, t, d := Cut(s);
    TrimDropsBlanks(c, t, d);
    TrimDropsBlanks(a + c, t, d + b);
    assert a + s + b == (a + c) + t + (d + b);
  }

  // ---- fractions ------------------------------------------------------------------

  lemma DottedIsTight(whole: string, frac: string)
    requires DigitsOnly(whole) && DigitsOnly(frac)
    ensures TrimSpace(whole + "." + frac) == whole + "." + frac
  {
    var s := whole + "." + frac;
    assert s[0] == if whole == "" then '.' else whole[0];
    assert s[|s| - 1] == if frac == "" then '.' else frac[|frac| - 1];
    TrimDropsBlanks("", s, "");
    assert "" + s + "" == s;
  }

  lemma DottedReads(whole: string, frac: string)
    requires DigitsOnly(whole)
    ensures Read(whole + "." + frac) == Written(NoSign, whole, Some(frac))
  {
    var s := whole + "." + frac;
    assert s[0] == if whole == "" then '.' else whole[0];
    FirstDot(whole, frac);
  }

  lemma FracDigits(frac: string)
    requires DigitsOnly(frac) && |frac| <= 2
    ensures FracValue(frac) == (if |frac| > 0 then 10 * DigitValue(frac[0]) else 0)
                               + (if |frac| > 1 then DigitValue(frac[1]) else 0)
  {
    if frac != "" {
      var front := frac[..|frac| - 1];
      assert DecValue(frac) == DecValue(front) * 10 + DigitValue(frac[|frac| - 1]);
      if front != "" {
        assert front[..0] == "" && DecValue(front) == DigitValue(front[0]);
      }
    }
  }

  lemma DottedParses(whole: string, frac: string, w: Written)
    requires DigitsOnly(whole) && DigitsOnly(frac) && w == Written(NoSign, whole, Some(frac))
    ensures ParseSpec(whole + "." + frac) == if WellFormed(w) && InRange(w) then Worth(w) else 0
  {
    DottedIsTight(whole, frac);
    DottedReads(whole, frac);
  }

  /** Behind the dot stand tens and ones of minor units, neither of which need be given. */
  lemma FractionMeaning(whole: string, frac: string)
    requires DigitsOnly(whole) && DigitsOnly(frac) && |frac| <= 2 && DecValue(whole) <= 92233720368547757
    ensures ParseSpec(whole + "." + frac)
            == DecValue(whole) * 100 + (if |frac| > 0 then 10 * DigitValue(frac[0]) else 0)
               + (if |frac| > 1 then DigitValue(frac[1]) else 0)
  {
    DottedParses(whole, frac, Written(NoSign, whole, Some(frac)));
    FracDigits(frac);
  }

  /** More than two digits behind the dot are no amount. */
  lemma LongFraction(whole: string, frac: string)
    requires DigitsOnly(whole) && DigitsOnly(frac) && |frac| > 2
    ensures ParseSpec(whole + "." + frac) == 0
  {
    DottedParses(whole, frac, Written(NoSign, whole, Some(frac)));
  }

  /** The smallest integer, written out. */
  lemma MinIntText(currency: string, c: int, d: int, m: int)
    requires !IsZeroDecimal(currency) && c == -9223372036854775808 && d == -92233720368547758 && m == -8
    ensures FormatCents(c, currency) == "-" + IntText(d) + "." + IntText(m)
  {
    assert GoDiv100(c) == d && GoMod100(c) == m;
    MinIntFormats(c, d, m, currency);
  }
}
