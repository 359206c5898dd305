/** Counts as the web client adds them: natural numbers held in binary floating point with 53
    significant bits, each sum rounded to the nearest, ties to even (section 4.3.1 of IEEE 754-2019).
    A sum past the largest finite number stays above every count, and so compares as infinity does. */
module Doubles {
  import opened Rounding

  /** From here on not every natural number is held exactly. */
  const EXACT: nat := 9_007_199_254_740_992

  /** The distance between neighbouring numbers held at the size of `n`. */
  function Spacing(n: nat): (u: nat)
    ensures u > 0
  {
    if n < EXACT then 1 else 2 * Spacing(n / 2)
  }

  function Nearest(n: nat): nat { RoundHalfEven(n, Spacing(n)) * Spacing(n) }

  function Plus(a: nat, b: nat): nat { Nearest(a + b) }

  lemma RoundsUpTo(n: nat, u: nat, k: nat)
    requires u > 0 && k * u <= n
    ensures k <= RoundHalfEven(n, u)
  {
    RoundHalfEvenIsExact(k, u);
    RoundHalfEvenIsMonotone(k * u, n, u);
  }

  lemma {:induction false} SpacingDivides(n: nat) returns (k: nat)
    requires n >= EXACT
    ensures EXACT <= k * Spacing(n) <= n
  {
    if n / 2 < EXACT {
      k := EXACT / 2;
    } else {
      var l := SpacingDivides(n / 2);
      k := l;
      assert k * Spacing(n) == 2 * (l * Spacing(n / 2));
    }
  }

  /** A number that is rounded below the limit was below it, and was not rounded at all. */
  lemma NearestIsExact(n: nat)
    ensures Nearest(n) < EXACT <==> n < EXACT
    ensures n < EXACT ==> Nearest(n) == n
  {
    if n < EXACT {
      RoundHalfEvenIsExact(n, 1);
    } else {
      var u := Spacing(n);
      var k := SpacingDivides(n);
      RoundsUpTo(n, u, k);
      MulOrder(k, RoundHalfEven(n, u), u);
    }
  }

  /** A sum shown below the limit is the exact sum. */
  lemma PlusIsExact(a: nat, b: nat)
    ensures Plus(a, b) < EXACT ==> Plus(a, b) == a + b
  {
    NearestIsExact(a + b);
  }

  lemma PlusGrows(a: nat, b: nat)
    ensures a + b >= EXACT ==> Plus(a, b) >= EXACT
  {
    NearestIsExact(a + b);
  }

  lemma NothingAdded()
    ensures Plus(0, 0) == 0
  {
    NearestIsExact(0);
  }

  /** At the limit one more is lost: the tie goes to the even neighbour. */
  lemma OneIsLost()
    ensures Plus(EXACT, 1) == EXACT
  {
    assert Spacing(EXACT + 1) == 2 * Spacing((EXACT + 1) / 2) == 2;
    RoundHalfEvenIsNearestEven(EXACT + 1, 2, EXACT / 2);
  }
}
