/** Fixed-point decimals with four fractional digits: parsing into and printing from
    unbounded integers counting ten-thousandths. */
module Decimals {
  import opened Outcomes

  const SCALE: nat := 10_000

  predicate IsDigit(c: char) { '0' <= c <= '9' }

  predicate AllDigits(s: string) { forall i :: 0 <= i < |s| ==> IsDigit(s[i]) }

  function DigitValue(c: char): nat
    requires IsDigit(c)
  {
    (c as int) - ('0' as int)
  }

  function DigitChar(d: nat): (c: char)
    requires d < 10
    ensures IsDigit(c) && DigitValue(c) == d
  {
    (d + ('0' as int)) as char
  }

  /** The number a digit string writes; the empty string writes zero. */
  function Value(s: string): nat
    requires AllDigits(s)
  {
    if s == "" then 0 else 10 * Value(s[..|s| - 1]) + DigitValue(s[|s| - 1])
  }

  /** The decimal numeral of `n`, without leading zeros. */
  function Numeral(n: nat): (s: string)
    ensures s != "" && AllDigits(s)
  {
    if n < 10 then [DigitChar(n)] else Numeral(n / 10) + [DigitChar(n % 10)]
  }

  function Zeros(n: nat): (s: string)
    ensures |s| == n && AllDigits(s)
  {
    seq(n, _ => '0')
  }

  function PadStart(s: string, width: nat): string {
    if |s| < width then Zeros(width - |s|) + s else s
  }

  function PadEnd(s: string, width: nat): string {
    if |s| < width then s + Zeros(width - |s|) else s
  }

  /** Where the first point is, or the length when there is none. */
  function Point(s: string): (i: nat)
    ensures i <= |s| && (forall k :: 0 <= k < i ==> s[k] != '.') && (i < |s| ==> s[i] == '.')
  {
    if s == "" || s[0] == '.' then 0 else 1 + Point(s[1..])
  }

  function Whole(s: string): string { s[..Point(s)] }

  function Fraction(s: string): string {
    if Point(s) == |s| then "" else s[Point(s) + 1..]
  }

  /** Digits, optionally followed by a point and one to four digits. */
  predicate Accepted(s: string) {
    && Whole(s) != "" && AllDigits(Whole(s)) && AllDigits(Fraction(s)) && |Fraction(s)| <= 4
    && (Point(s) < |s| ==> Fraction(s) != "")
  }

  function Decimal4(s: string): (r: Option<nat>)
    ensures r.Some? <==> Accepted(s)
  {
    if Accepted(s) then
      assert AllDigits(PadEnd(Fraction(s), 4));
      Some(Value(Whole(s)) * SCALE + Value(PadEnd(Fraction(s), 4)))
    else None
  }

  function Format4(v: nat): string {
    Numeral(v / SCALE) + "." + PadStart(Numeral(v % SCALE), 4)
  }

  /** The written form with leading zeros of the whole part dropped and four decimals. */
  function Canonical(s: string): string
    requires Accepted(s)
  {
    StripZeros(Whole(s)) + "." + PadEnd(Fraction(s), 4)
  }

  /** Drops leading zeros, keeping the last digit. */
  function StripZeros(s: string): string {
    if |s| > 1 && s[0] == '0' then StripZeros(s[1..]) else s
  }

  // ---------- digit strings ----------

  lemma {:induction false} ValueOfNumeral(n: nat)
    ensures Value(Numeral(n)) == n
  {
    if n < 10 {
      assert [DigitChar(n)][..0] == "";
    } else {
      ValueOfNumeral(n / 10);
      var s := Numeral(n);
      assert s[..|s| - 1] == Numeral(n / 10);
    }
  }

  lemma {:induction false} LeadingZero(s: string)
    requires AllDigits(s)
    ensures Value("0" + s) == Value(s)
  {
    var t := "0" + s;
    assert AllDigits(t);
    if s == "" {
      assert t[..0] == "";
    } else {
      LeadingZero(s[..|s| - 1]);
      assert t[..|t| - 1] == "0" + s[..|s| - 1];
    }
  }

  lemma {:induction false} PaddedValue(k: nat, s: string)
    requires AllDigits(s)
    ensures AllDigits(Zeros(k) + s) && Value(Zeros(k) + s) == Value(s)
  {
    if k == 0 {
      assert Zeros(0) + s == s;
    } else {
      PaddedValue(k - 1, s);
      assert Zeros(k) + s == "0" + (Zeros(k - 1) + s);
      LeadingZero(Zeros(k - 1) + s);
    }
  }

  function Pow10(k: nat): nat { if k == 0 then 1 else 10 * Pow10(k - 1) }

  lemma {:induction false} ValueBelow(s: string)
    requires AllDigits(s)
    ensures Value(s) < Pow10(|s|)
  {
    if s != "" { ValueBelow(s[..|s| - 1]); }
  }

  /** A digit string without a superfluous leading zero is the numeral of its value. */
  lemma {:induction false} NumeralOfValue(s: string)
    requires AllDigits(s) && s != "" && (|s| > 1 ==> s[0] != '0')
    ensures Numeral(Value(s)) == s
    ensures |s| > 1 ==> Value(s) >= 10
  {
    var init, last := s[..|s| - 1], DigitValue(s[|s| - 1]);
    if |s| == 1 {
      assert init == "";
      assert s == [DigitChar(last)];
    } else {
      NumeralOfValue(init);
      assert Value(init) >= 1 by {
        if |init| == 1 { assert init[..0] == ""; }
      }
      assert Value(s) == 10 * Value(init) + last;
      assert Value(s) / 10 == Value(init) && Value(s) % 10 == last;
      assert DigitChar(last) == s[|s| - 1];
      assert s == init + [s[|s| - 1]];
    }
  }

  function LeadingZeros(s: string): nat {
    if |s| > 1 && s[0] == '0' then 1 + LeadingZeros(s[1..]) else 0
  }

  lemma {:induction false} StripSplits(s: string)
    requires s != ""
    ensures StripZeros(s) != "" && s == Zeros(LeadingZeros(s)) + StripZeros(s)
    ensures |StripZeros(s)| > 1 ==> StripZeros(s)[0] != '0'
  {
    if |s| > 1 && s[0] == '0' {
      StripSplits(s[1..]);
      assert s == "0" + s[1..];
      assert Zeros(LeadingZeros(s)) == "0" + Zeros(LeadingZeros(s[1..]));
    }
  }

  lemma {:induction false} StripKeepsValue(s: string)
    requires AllDigits(s) && s != ""
    ensures AllDigits(StripZeros(s)) && Value(StripZeros(s)) == Value(s)
  {
    StripSplits(s);
    var k, t := LeadingZeros(s), StripZeros(s);
    assert AllDigits(t) by {
      forall i | 0 <= i < |t| ensures IsDigit(t[i]) { assert t[i] == s[k + i]; }
    }
    PaddedValue(k, t);
  }

  /** The numeral of a digit string's value is the string without its leading zeros. */
  lemma {:induction false} NumeralStrips(s: string)
    requires AllDigits(s) && s != ""
    ensures Numeral(Value(s)) == StripZeros(s)
  {
    StripSplits(s);
    StripKeepsValue(s);
    NumeralOfValue(StripZeros(s));
  }

  /** Padding the numeral of a value back to the string's own width restores the string. */
  lemma {:induction false} PadRestores(s: string)
    requires AllDigits(s) && s != ""
    ensures PadStart(Numeral(Value(s)), |s|) == s
  {
    NumeralStrips(s);
    StripSplits(s);
  }

  // ---------- what is accepted ----------

  /** `s` is the digits `w`, or those, a point and the one to four digits `f`. */
  predicate Written(s: string, w: string, f: string) {
    && w != "" && AllDigits(w) && AllDigits(f)
    && (s == w || (1 <= |f| <= 4 && s == w + "." + f))
  }

  lemma PointOf(w: string, f: string)
    requires AllDigits(w)
    ensures Point(w + "." + f) == |w| && Whole(w + "." + f) == w && Fraction(w + "." + f) == f
  {
    var s := w + "." + f;
    assert s[|w|] == '.';
    assert forall k :: 0 <= k < |w| ==> s[k] == w[k] && IsDigit(s[k]);
  }

  lemma PointOfDigits(w: string)
    requires AllDigits(w)
    ensures Point(w) == |w| && Whole(w) == w && Fraction(w) == ""
  {
    assert forall k :: 0 <= k < |w| ==> IsDigit(w[k]);
  }

  /** Parsing accepts exactly the strings so written. */
  lemma AcceptsWhatIsWritten(s: string)
    ensures Decimal4(s).Some? <==> exists w, f :: Written(s, w, f)
  {
    if Decimal4(s).Some? {
      var w, f := Whole(s), Fraction(s);
      if Point(s) < |s| { assert s == w + "." + f; } else { assert s == w; }
      assert Written(s, w, f);
    }
    if w, f :| Written(s, w, f) {
      if s == w { PointOfDigits(w); } else { PointOf(w, f); }
    }
  }

  // ---------- round trips ----------

  lemma FourDigits(v: nat)
    requires v < SCALE
    ensures |PadStart(Numeral(v), 4)| == 4
  {
    assert v >= 10 ==> Numeral(v) == Numeral(v / 10) + [DigitChar(v % 10)];
    assert v >= 100 ==> Numeral(v / 10) == Numeral(v / 10 / 10) + [DigitChar(v / 10 % 10)];
    assert v >= 1000 ==> Numeral(v / 10 / 10) == Numeral(v / 10 / 10 / 10) + [DigitChar(v / 10 / 10 % 10)];
  }

  lemma PadEndWhole(f: string)
    requires |f| == 4
    ensures PadEnd(f, 4) == f
  {}

  lemma {:induction false} PaddedFraction(v: nat)
    requires v < SCALE
    ensures var f := PadStart(Numeral(v), 4); AllDigits(f) && |f| == 4 && Value(f) == v
  {
    FourDigits(v);
    ValueOfNumeral(v);
    if |Numeral(v)| < 4 {
      PaddedValue(4 - |Numeral(v)|, Numeral(v));
    }
  }

  lemma {:induction false} ParseOfParts(w: string, f: string)
    requires AllDigits(w) && w != "" && AllDigits(f) && |f| == 4
    ensures Decimal4(w + "." + f) == Some(Value(w) * SCALE + Value(f))
  {
    var s := w + "." + f;
    PointOf(w, f);
    ParseByParts(s, w, f);
  }

  lemma {:induction false} ParseByParts(s: string, w: string, f: string)
    requires Whole(s) == w && Fraction(s) == f && AllDigits(w) && w != "" && AllDigits(f) && |f| == 4
    ensures Decimal4(s) == Some(Value(w) * SCALE + Value(f))
  {
    PadEndWhole(f);
  }

  /** Printing then parsing gives every number back. */
  lemma {:induction false} ParseOfPrint(v: nat)
    ensures Decimal4(Format4(v)) == Some(v)
  {
    PaddedFraction(v % SCALE);
    ValueOfNumeral(v / SCALE);
    ParseOfParts(Numeral(v / SCALE), PadStart(Numeral(v % SCALE), 4));
  }

  lemma FractionBelow(f: string)
    requires AllDigits(f) && |f| == 4
    ensures Value(f) < SCALE
  {
    ValueBelow(f);
    assert Pow10(4) == 10 * Pow10(3) && Pow10(3) == 10 * Pow10(2) && Pow10(2) == 10 * Pow10(1) && Pow10(1) == 10;
  }

  /** Parsing then printing gives every accepted string's canonical form. */
  lemma {:induction false} PrintOfParse(s: string)
    requires Accepted(s)
    ensures Format4(Decimal4(s).value) == Canonical(s)
  {
    var w, f := Whole(s), PadEnd(Fraction(s), 4);
    assert AllDigits(f) && |f| == 4;
    FractionBelow(f);
    var v := Decimal4(s).value;
    assert v / SCALE == Value(w) && v % SCALE == Value(f);
    NumeralStrips(w);
    PadRestores(f);
  }

  /** Comparing printed forms is comparing exact values. */
  lemma PrintIsInjective(u: nat, v: nat)
    ensures Format4(u) == Format4(v) <==> u == v
  {
    ParseOfPrint(u);
    ParseOfPrint(v);
  }
}
