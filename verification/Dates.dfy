/** Dates written as four, two and two digits: comparing them as strings is comparing them as
    (year, month, day). */
module Dates {
  import opened Ordering
  import D = Decimals

  predicate IsIsoDate(s: string) {
    |s| == 10 && s[4] == '-' && s[7] == '-'
    && D.AllDigits(s[..4]) && D.AllDigits(s[5..7]) && D.AllDigits(s[8..])
  }

  /** Four, two and two digits between dashes. */
  ghost predicate DateWritten(s: string, y: string, m: string, d: string) {
    && |y| == 4 && |m| == 2 && |d| == 2
    && (forall c :: c in y + m + d ==> '0' <= c <= '9') && s == y + "-" + m + "-" + d
  }

  lemma IsoDateMeans(s: string)
    ensures IsIsoDate(s) <==> exists y, m, d :: DateWritten(s, y, m, d)
  {
    if IsIsoDate(s) {
      assert s == s[..4] + "-" + s[5..7] + "-" + s[8..];
      assert DateWritten(s, s[..4], s[5..7], s[8..]);
    }
    if y, m, d :| DateWritten(s, y, m, d) {
      assert s[..4] == y && s[5..7] == m && s[8..] == d;
      assert forall i :: 0 <= i < 4 ==> y[i] in y + m + d;
      assert forall i :: 0 <= i < 2 ==> m[i] in y + m + d && d[i] in y + m + d;
    }
  }

  function Year(s: string): nat
    requires IsIsoDate(s)
  {
    D.Value(s[..4])
  }

  function Month(s: string): nat
    requires IsIsoDate(s)
  {
    D.Value(s[5..7])
  }

  function Day(s: string): nat
    requires IsIsoDate(s)
  {
    D.Value(s[8..])
  }

  ghost predicate Earlier(a: string, b: string)
    requires IsIsoDate(a) && IsIsoDate(b)
  {
    || Year(a) < Year(b)
    || (Year(a) == Year(b) && Month(a) < Month(b))
    || (Year(a) == Year(b) && Month(a) == Month(b) && Day(a) < Day(b))
  }

  // ---------- digit strings of one length ----------

  lemma {:induction false} ValueFromFront(s: string)
    requires D.AllDigits(s) && s != ""
    ensures D.AllDigits(s[1..]) && D.Value(s) == D.DigitValue(s[0]) * D.Pow10(|s| - 1) + D.Value(s[1..])
  {
    var init, last := s[..|s| - 1], s[|s| - 1];
    if |s| == 1 {
      assert init == "" && s[1..] == "";
    } else {
      ValueFromFront(init);
      assert init[1..] == s[1..][..|s| - 2];
      Times10(D.DigitValue(s[0]), D.Pow10(|s| - 2));
    }
  }

  lemma Times10(a: nat, p: nat)
    ensures 10 * (a * p) == a * (10 * p)
  {}

  lemma Leads(a: nat, b: nat, p: nat, x: nat, y: nat)
    requires a < b && x < p
    ensures a * p + x < b * p + y
  {
    assert (b - a - 1) * p >= 0;
    assert b * p == a * p + p + (b - a - 1) * p;
  }

  lemma DigitsOrdered(a: char, b: char)
    requires D.IsDigit(a) && D.IsDigit(b)
    ensures a < b <==> D.DigitValue(a) < D.DigitValue(b)
    ensures a == b <==> D.DigitValue(a) == D.DigitValue(b)
  {}

  lemma HeadDecides(a: string, b: string)
    requires a != "" && b != ""
    ensures StringLeq(a, b) <==> a[0] < b[0] || (a[0] == b[0] && StringLeq(a[1..], b[1..]))
    ensures a == b <==> a[0] == b[0] && a[1..] == b[1..]
  {
    assert a == [a[0]] + a[1..] && b == [b[0]] + b[1..];
  }

  /** Digit strings of one length compare as the numbers they write. */
  lemma {:induction false} DigitsCompareAsNumbers(a: string, b: string)
    requires D.AllDigits(a) && D.AllDigits(b) && |a| == |b|
    ensures StringLeq(a, b) <==> D.Value(a) <= D.Value(b)
    ensures a == b <==> D.Value(a) == D.Value(b)
  {
    if a != "" {
      hide StringLeq, D.Value, D.Pow10, D.DigitValue;
      ValueFromFront(a);
      ValueFromFront(b);
      var p, x, y := D.Pow10(|a| - 1), D.Value(a[1..]), D.Value(b[1..]);
      D.ValueBelow(a[1..]);
      D.ValueBelow(b[1..]);
      DigitsOrdered(a[0], b[0]);
      HeadDecides(a, b);
      if a[0] < b[0] {
        Leads(D.DigitValue(a[0]), D.DigitValue(b[0]), p, x, y);
      } else if b[0] < a[0] {
        Leads(D.DigitValue(b[0]), D.DigitValue(a[0]), p, y, x);
      } else {
        DigitsCompareAsNumbers(a[1..], b[1..]);
      }
    }
  }

  /** Between strings starting with equally long parts, the first parts decide unless equal. */
  lemma {:induction false} FirstPartDecides(a: string, x: string, b: string, y: string)
    requires |a| == |b|
    ensures StringLeq(a + x, b + y) <==> if a == b then StringLeq(x, y) else StringLeq(a, b)
  {
    if a == "" {
      assert a + x == x && b + y == y;
    } else {
      FirstPartDecides(a[1..], x, b[1..], y);
      assert (a + x)[1..] == a[1..] + x && (b + y)[1..] == b[1..] + y;
      assert a == [a[0]] + a[1..] && b == [b[0]] + b[1..];
    }
  }

  lemma SplitDate(s: string)
    requires IsIsoDate(s)
    ensures s == s[..4] + ("-" + (s[5..7] + ("-" + s[8..])))
  {}

  /** String order on dates is calendar order, and equal strings are equal dates. */
  lemma DateOrderIsNumeric(a: string, b: string)
    requires IsIsoDate(a) && IsIsoDate(b)
    ensures StringLess(a, b) <==> Earlier(a, b)
    ensures a == b <==> Year(a) == Year(b) && Month(a) == Month(b) && Day(a) == Day(b)
  {
    hide StringLeq, D.Value;
    SplitDate(a);
    SplitDate(b);
    FirstPartDecides(a[..4], "-" + (a[5..7] + ("-" + a[8..])), b[..4], "-" + (b[5..7] + ("-" + b[8..])));
    FirstPartDecides("-", a[5..7] + ("-" + a[8..]), "-", b[5..7] + ("-" + b[8..]));
    FirstPartDecides(a[5..7], "-" + a[8..], b[5..7], "-" + b[8..]);
    FirstPartDecides("-", a[8..], "-", b[8..]);
    DigitsCompareAsNumbers(a[..4], b[..4]);
    DigitsCompareAsNumbers(a[5..7], b[5..7]);
    DigitsCompareAsNumbers(a[8..], b[8..]);
  }
}
