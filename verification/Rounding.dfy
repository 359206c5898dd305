/** Round-half-even division of unbounded naturals, the rule of roundTiesToEven in
    section 4.3.1 of IEEE 754-2019, and the weighted sums it is applied to. */
module Rounding {

  function Abs(x: int): nat { if x < 0 then -x else x }

  function RoundHalfEven(value: nat, divisor: nat): nat
    requires divisor > 0
  {
    var quotient := value / divisor;
    var remainder := value % divisor;
    var doubled := remainder * 2;
    if doubled > divisor || (doubled == divisor && quotient % 2 == 1) then quotient + 1 else quotient
  }

  /** `q` is a nearest multiple count, and the even one when two are equally near. */
  ghost predicate NearestEven(value: int, divisor: int, q: int) {
    && 2 * Abs(value - q * divisor) <= divisor
    && (2 * Abs(value - q * divisor) == divisor ==> q % 2 == 0)
  }

  lemma QuotientDistance(value: nat, divisor: nat)
    requires divisor > 0
    ensures value - (value / divisor) * divisor == value % divisor
    ensures value - (value / divisor + 1) * divisor == value % divisor - divisor
    ensures 0 <= value % divisor < divisor
  {
    assert (value / divisor + 1) * divisor == (value / divisor) * divisor + divisor;
  }

  lemma MulOrder(a: int, b: int, d: int)
    requires a <= b && d >= 0
    ensures a * d <= b * d
  {
    assert b * d - a * d == (b - a) * d;
  }

  lemma OrderOfNearest(u: int, v: int, divisor: int, p: int, q: int, pd: int, qd: int)
    requires u <= v && divisor > 0
    requires 2 * Abs(u - pd) <= divisor && (2 * Abs(u - pd) == divisor ==> p % 2 == 0)
    requires 2 * Abs(v - qd) <= divisor && (2 * Abs(v - qd) == divisor ==> q % 2 == 0)
    requires p > q ==> pd >= qd + divisor
    requires p > q + 1 ==> pd >= qd + 2 * divisor
    ensures p <= q
  {
    // were p the larger, u and v would share the midpoint of q and q + 1, both then even
  }

  /** The rule is monotone; with `u == v` it leaves one candidate. */
  lemma NearestEvenOrder(u: int, v: int, divisor: int, p: int, q: int)
    requires divisor > 0 && u <= v && NearestEven(u, divisor, p) && NearestEven(v, divisor, q)
    ensures p <= q
  {
    if p > q { MulOrder(q + 1, p, divisor); }
    if p > q + 1 { MulOrder(q + 2, p, divisor); }
    assert (q + 1) * divisor == q * divisor + divisor;
    assert (q + 2) * divisor == q * divisor + 2 * divisor;
    OrderOfNearest(u, v, divisor, p, q, p * divisor, q * divisor);
  }

  /** The rounding is the unique nearest-even quotient: every integer satisfying the rule is it. */
  lemma RoundHalfEvenIsNearestEven(value: nat, divisor: nat, q: int)
    requires divisor > 0
    ensures q == RoundHalfEven(value, divisor) <==> NearestEven(value, divisor, q)
  {
    QuotientDistance(value, divisor);
    var r := RoundHalfEven(value, divisor);
    assert NearestEven(value, divisor, r);
    if NearestEven(value, divisor, q) {
      NearestEvenOrder(value, value, divisor, r, q);
      NearestEvenOrder(value, value, divisor, q, r);
    }
  }

  lemma RoundHalfEvenIsMonotone(u: nat, v: nat, divisor: nat)
    requires divisor > 0 && u <= v
    ensures RoundHalfEven(u, divisor) <= RoundHalfEven(v, divisor)
  {
    var p, q := RoundHalfEven(u, divisor), RoundHalfEven(v, divisor);
    RoundHalfEvenIsNearestEven(u, divisor, p);
    RoundHalfEvenIsNearestEven(v, divisor, q);
    NearestEvenOrder(u, v, divisor, p, q);
  }

  lemma RoundHalfEvenIsExact(k: nat, divisor: nat)
    requires divisor > 0
    ensures RoundHalfEven(k * divisor, divisor) == k
  {
    RoundHalfEvenIsNearestEven(k * divisor, divisor, k);
  }

  // ---------- weighted sums ----------

  const BPS: nat := 10_000

  function Sum(xs: seq<nat>): nat {
    if xs == [] then 0 else Sum(xs[..|xs| - 1]) + xs[|xs| - 1]
  }

  /** One input times its weight, before rounding. */
  function Weighted(x: nat, w: nat): nat { x * w }

  function Dot(xs: seq<nat>, ws: seq<nat>): nat
    requires |xs| == |ws|
  {
    if xs == [] then 0
    else Dot(xs[..|xs| - 1], ws[..|ws| - 1]) + Weighted(xs[|xs| - 1], ws[|ws| - 1])
  }

  /** The contributions, each rounded on its own. */
  function RoundedTerms(xs: seq<nat>, ws: seq<nat>): (r: seq<nat>)
    requires |xs| == |ws|
    ensures |r| == |xs|
  {
    seq(|xs|, i requires 0 <= i < |xs| => RoundHalfEven(Weighted(xs[i], ws[i]), BPS))
  }

  lemma {:induction false} TermError(xs: seq<nat>, ws: seq<nat>)
    requires |xs| == |ws|
    ensures 2 * Abs(Sum(RoundedTerms(xs, ws)) * BPS - Dot(xs, ws)) <= |xs| * BPS
  {
    if xs != [] {
      var n := |xs| - 1;
      TermError(xs[..n], ws[..n]);
      var all := RoundedTerms(xs, ws);
      assert all[..n] == RoundedTerms(xs[..n], ws[..n]);
      assert all[n] == RoundHalfEven(Weighted(xs[n], ws[n]), BPS);
      RoundHalfEvenIsNearestEven(Weighted(xs[n], ws[n]), BPS, all[n]);
      assert Dot(xs, ws) == Dot(xs[..n], ws[..n]) + Weighted(xs[n], ws[n]);
      assert Sum(all) == Sum(all[..n]) + all[n];
    }
  }

  lemma TotalError(exact: nat)
    ensures 2 * Abs(exact - RoundHalfEven(exact, BPS) * BPS) <= BPS
  {
    RoundHalfEvenIsNearestEven(exact, BPS, RoundHalfEven(exact, BPS));
  }

  lemma HalfUnitsAdd(sum: int, total: int, exact: int, n: nat)
    requires 2 * Abs(sum * BPS - exact) <= n * BPS
    requires 2 * Abs(exact - total * BPS) <= BPS
    ensures Abs(sum - total) <= (n + 1) / 2
  {
    assert 2 * (sum - total) <= n + 1 && 2 * (total - sum) <= n + 1;
  }

  /** Displayed contributions add up to the displayed score within half a unit per term,
      plus half a unit for the total itself. */
  lemma {:induction false} ContributionsReconcile(xs: seq<nat>, ws: seq<nat>)
    requires |xs| == |ws|
    ensures Abs(Sum(RoundedTerms(xs, ws)) - RoundHalfEven(Dot(xs, ws), BPS)) <= (|xs| + 1) / 2
  {
    var sum, exact := Sum(RoundedTerms(xs, ws)), Dot(xs, ws);
    var total := RoundHalfEven(exact, BPS);
    assert 2 * Abs(sum * BPS - exact) <= |xs| * BPS by { TermError(xs, ws); }
    assert 2 * Abs(exact - total * BPS) <= BPS by { TotalError(exact); }
    HalfUnitsAdd(sum, total, exact, |xs|);
  }

  lemma Distribute(k: int, a: int, b: int)
    ensures k * (a + b) == k * a + k * b
  {}

  lemma {:induction false} DotBounds(xs: seq<nat>, ws: seq<nat>, lo: nat, hi: nat)
    requires |xs| == |ws| && forall i :: 0 <= i < |xs| ==> lo <= xs[i] <= hi
    ensures lo * Sum(ws) <= Dot(xs, ws) <= hi * Sum(ws)
  {
    if xs != [] {
      var n := |xs| - 1;
      DotBounds(xs[..n], ws[..n], lo, hi);
      MulOrder(lo, xs[n], ws[n]);
      MulOrder(xs[n], hi, ws[n]);
      Distribute(lo, Sum(ws[..n]), ws[n]);
      Distribute(hi, Sum(ws[..n]), ws[n]);
    }
  }

  lemma {:induction false} DotMonotone(xs: seq<nat>, ys: seq<nat>, ws: seq<nat>)
    requires |xs| == |ys| == |ws| && forall i :: 0 <= i < |xs| ==> xs[i] <= ys[i]
    ensures Dot(xs, ws) <= Dot(ys, ws)
  {
    if xs != [] {
      var n := |xs| - 1;
      DotMonotone(xs[..n], ys[..n], ws[..n]);
      MulOrder(xs[n], ys[n], ws[n]);
    }
  }

  /** With weights summing to one whole, the rounded score stays within its inputs' range. */
  lemma {:induction false} ScoreWithinInputs(xs: seq<nat>, ws: seq<nat>, lo: nat, hi: nat)
    requires |xs| == |ws| && Sum(ws) == BPS
    requires forall i :: 0 <= i < |xs| ==> lo <= xs[i] <= hi
    ensures lo <= RoundHalfEven(Dot(xs, ws), BPS) <= hi
  {
    DotBounds(xs, ws, lo, hi);
    RoundHalfEvenIsExact(lo, BPS);
    RoundHalfEvenIsExact(hi, BPS);
    RoundHalfEvenIsMonotone(lo * BPS, Dot(xs, ws), BPS);
    RoundHalfEvenIsMonotone(Dot(xs, ws), hi * BPS, BPS);
  }

  lemma {:induction false} ScoreIsMonotone(xs: seq<nat>, ys: seq<nat>, ws: seq<nat>)
    requires |xs| == |ys| == |ws| && forall i :: 0 <= i < |xs| ==> xs[i] <= ys[i]
    ensures RoundHalfEven(Dot(xs, ws), BPS) <= RoundHalfEven(Dot(ys, ws), BPS)
  {
    DotMonotone(xs, ys, ws);
    RoundHalfEvenIsMonotone(Dot(xs, ws), Dot(ys, ws), BPS);
  }
}
