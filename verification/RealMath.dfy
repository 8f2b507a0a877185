/** Small facts about products of reals. */
module RealMath {
  predicate InUnit(x: real) { 0.0 <= x <= 1.0 }

  lemma Scale(a: real, x: real, y: real)
    requires a >= 0.0 && x <= y
    ensures a * x <= a * y
  {
  }

  lemma ScaleUnit(a: real, x: real)
    requires a >= 0.0 && InUnit(x)
    ensures 0.0 <= a * x <= a
  {
  }

  lemma Positive(a: real, b: real)
    requires a > 0.0 && b > 0.0
    ensures a * b > 0.0
  {
  }

  lemma Associate(a: real, b: real, c: real)
    ensures a * (b * c) == (a * b) * c
  {
  }

  lemma AddBounds(x: real, y: real, a: real, b: real)
    requires x <= a && y <= b
    ensures x + y <= a + b
  {
  }

  /** The blend of two numbers. */
  function Blend(w: real, t: real, d: real): real {
    w * d + (1.0 - d) * t
  }

  lemma BlendInUnit(w: real, t: real, d: real)
    requires InUnit(w) && InUnit(t) && InUnit(d)
    ensures InUnit(Blend(w, t, d))
  {
    var e := 1.0 - d;
    var x, y := d * w, e * t;
    ScaleUnit(d, w);
    ScaleUnit(e, t);
    AddBounds(x, y, d, e);
    AddBounds(0.0, 0.0, x, y);
    assert w * d == x && Blend(w, t, d) == x + y;
  }

  lemma BlendDistance(w: real, t: real, d: real)
    ensures Blend(w, t, d) - t == d * (w - t)
  {
  }

  lemma BlendAbove(w: real, t: real, d: real, low: real)
    requires InUnit(d) && w >= low && t >= low
    ensures Blend(w, t, d) >= low
  {
    var e := 1.0 - d;
    var x, y, a, b := d * w, e * t, d * low, e * low;
    Scale(d, low, w);
    Scale(e, low, t);
    AddBounds(a, b, x, y);
    assert a + b == low;
    assert w * d == x && Blend(w, t, d) == x + y;
  }

  function Pow(x: real, n: nat): real {
    if n == 0 then 1.0 else x * Pow(x, n - 1)
  }

  /** Bernoulli's inequality upside down: d^n (1 + n (1 - d)) <= 1. */
  lemma {:induction false} PowBound(d: real, n: nat)
    requires InUnit(d)
    ensures InUnit(Pow(d, n)) && Pow(d, n) * (1.0 + n as real * (1.0 - d)) <= 1.0
    decreases n
  {
    if n > 0 {
      PowBound(d, n - 1);
      PowBoundStep(d, Pow(d, n - 1), (n - 1) as real);
    }
  }

  lemma PowBoundStep(d: real, p: real, k: real)
    requires InUnit(d) && InUnit(p) && p * (1.0 + k * (1.0 - d)) <= 1.0
    ensures InUnit(d * p) && (d * p) * (1.0 + (k + 1.0) * (1.0 - d)) <= 1.0
  {
    ScaleUnit(d, p);
    Shrink(d, p, 1.0 + k * (1.0 - d));
    Grow(d * p, k, 1.0 - d);
  }

  lemma Shrink(d: real, p: real, m: real)
    requires InUnit(d) && InUnit(p) && p * m <= 1.0
    ensures (d * p) * m + (1.0 - d) * (d * p) <= 1.0
  {
    ScaleUnit(d, p);
    Scale(d, p * m, 1.0);
    Associate(d, p, m);
    Remainder(1.0 - d, d * p);
    AddBounds((d * p) * m, (1.0 - d) * (d * p), d, 1.0 - d);
  }

  lemma Remainder(e: real, q: real)
    requires e >= 0.0 && q <= 1.0
    ensures e * q <= e
  {
    Scale(e, q, 1.0);
  }

  lemma Grow(q: real, k: real, e: real)
    ensures q * (1.0 + (k + 1.0) * e) == q * (1.0 + k * e) + e * q
  {
  }

  /** p (1 + n e) <= 1 and n (e gap) >= 1 leave p below the gap. */
  lemma SmallEnough(p: real, n: real, e: real, gap: real)
    requires InUnit(p) && gap > 0.0
    requires p * (1.0 + n * e) <= 1.0 && n * (e * gap) >= 1.0
    ensures p < gap
  {
    if p > 0.0 {
      var u := n * e;
      Associate(n, e, gap);
      Scale(gap, p * (1.0 + u), 1.0);
      Scale(p, 1.0, u * gap);
      Positive(p, gap);
      Regroup(p, u, gap);
      Conclude(p, p * (u * gap), p * gap, gap);
    }
  }

  lemma Regroup(p: real, u: real, gap: real)
    ensures gap * (p * (1.0 + u)) == p * gap + p * (u * gap)
  {
  }

  lemma Conclude(p: real, pug: real, pg: real, gap: real)
    requires p <= pug && pg + pug <= gap && pg > 0.0
    ensures p < gap
  {
  }

  lemma ScaleAgain(d: real, p: real, x: real, y: real)
    requires y == p * x
    ensures d * y == (d * p) * x
  {
    Associate(d, p, x);
  }

  lemma Reciprocal(x: real)
    requires x > 0.0
    ensures 1.0 / x > 0.0 && x * (1.0 / x) == 1.0
  {
  }

  /** `n` blends towards the same target. */
  function Approach(w: real, t: real, d: real, n: nat): real {
    if n == 0 then w else Blend(Approach(w, t, d, n - 1), t, d)
  }

  lemma {:induction false} ApproachDistance(w: real, t: real, d: real, n: nat)
    ensures Approach(w, t, d, n) - t == Pow(d, n) * (w - t)
    decreases n
  {
    if n > 0 {
      var x := Approach(w, t, d, n - 1);
      ApproachDistance(w, t, d, n - 1);
      BlendDistance(x, t, d);
      ScaleAgain(d, Pow(d, n - 1), w - t, x - t);
    }
  }

  /** Some number of steps is enough to bring the power below the gap. */
  lemma EnoughSteps(d: real, gap: real) returns (n: nat)
    requires d < 1.0 && gap > 0.0
    ensures n as real * ((1.0 - d) * gap) >= 1.0
  {
    var x := (1.0 - d) * gap;
    Positive(1.0 - d, gap);
    Reciprocal(x);
    n := (1.0 / x).Floor + 1;
    Scale(x, 1.0 / x, n as real);
  }

  lemma StepsSuffice(d: real, gap: real, n: nat)
    requires 0.0 <= d < 1.0 && gap > 0.0 && n as real * ((1.0 - d) * gap) >= 1.0
    ensures 0.0 <= Pow(d, n) < gap && n > 0
  {
    PowBound(d, n);
    SmallEnough(Pow(d, n), n as real, 1.0 - d, gap);
  }

  lemma ApproachBelow(w: real, t: real, d: real, low: real, n: nat)
    requires w - t <= 1.0 && 0.0 <= Pow(d, n) < low - t
    ensures Approach(w, t, d, n) < low
  {
    ApproachDistance(w, t, d, n);
    BelowBy(Approach(w, t, d, n), t, low, Pow(d, n), w - t);
  }

  lemma BelowBy(y: real, t: real, low: real, p: real, x: real)
    requires y - t == p * x && x <= 1.0 && 0.0 <= p < low - t
    ensures y < low
  {
    Scale(p, x, 1.0);
  }
}
