/** The deposition-rate responses: three closed-form maps from a chemical
    concentration c to a deposition strength. Each takes the maximum
    strength, a threshold (default 0.08) and a transition width (default
    1/250); the constant response ignores the last two.

    numpy's `tanh` is passed in as `tanh`; the lemmas assume of it only the
    facts collected in TanhLaws. */
module Deposition {

  const DefaultThreshold: real := 0.08
  const DefaultTransWidth: real := 1.0 / 250.0

  /** The properties of the hyperbolic tangent the responses rely on: it
      vanishes at zero, stays strictly between -1 and 1, and is strictly
      increasing. */
  ghost predicate TanhLaws(tanh: real -> real) {
    && tanh(0.0) == 0.0
    && (forall x :: -1.0 < tanh(x) < 1.0)
    && (forall x, y :: x < y ==> tanh(x) < tanh(y))
  }

  /** numpy's broadcasting of a scalar response over an array of
      concentrations. */
  function Elementwise(f: real -> real, cs: seq<real>): (r: seq<real>)
    ensures |r| == |cs|
    ensures forall i :: 0 <= i < |cs| ==> r[i] == f(cs[i])
  {
    if cs == [] then [] else [f(cs[0])] + Elementwise(f, cs[1..])
  }

  /** Constant deposition: the maximum strength, whatever the concentration. */
  function ConstantDep(c: real, depMaxStr: real, depThreshold: real := DefaultThreshold,
                       depTransWidth: real := DefaultTransWidth): (r: real)
    ensures r == depMaxStr
  {
    depMaxStr + 0.0 * c
  }

  /** Soft switch: a tanh step from the maximum strength down to zero
      around the threshold, half of the strength at the threshold. (How
      close it gets to either end far from the threshold depends on the
      limits of tanh, which TanhLaws does not state.) */
  function AtanDep(tanh: real -> real, c: real, depMaxStr: real, depThreshold: real := DefaultThreshold,
                   depTransWidth: real := DefaultTransWidth): (r: real)
    requires depTransWidth != 0.0
    ensures TanhLaws(tanh) && c == depThreshold ==> r == depMaxStr / 2.0
  {
    depMaxStr / 2.0 * (tanh((-c + depThreshold) / depTransWidth) + 1.0)
  }

  /** Soft switch scaled linearly in the concentration: 0.6 of the maximum
      strength at the threshold and zero at c == -0.2 * threshold. */
  function LinAtanDep(tanh: real -> real, c: real, depMaxStr: real, depThreshold: real := DefaultThreshold,
                      depTransWidth: real := DefaultTransWidth): (r: real)
    requires depThreshold != 0.0 && depTransWidth != 0.0
    ensures TanhLaws(tanh) && c == depThreshold ==> r == 0.6 * depMaxStr
    ensures c == -0.2 * depThreshold ==> r == 0.0
  {
    depMaxStr * (c + 0.2 * depThreshold) / (depThreshold * 2.0) * (tanh((-c + depThreshold) / depTransWidth) + 1.0)
  }

  /** Applied to an array, the constant response is the maximum strength in
      every entry. */
  lemma ConstantDepBroadcast(cs: seq<real>, depMaxStr: real)
    ensures var r := Elementwise(c => ConstantDep(c, depMaxStr), cs);
      |r| == |cs| && forall i :: 0 <= i < |r| ==> r[i] == depMaxStr
  {
  }

  /** The soft switch stays between zero and the maximum strength, strictly
      so when the strength is positive. */
  lemma AtanDepBounds(tanh: real -> real, c: real, depMaxStr: real, depThreshold: real, depTransWidth: real)
    requires TanhLaws(tanh) && depTransWidth != 0.0
    ensures depMaxStr >= 0.0 ==> 0.0 <= AtanDep(tanh, c, depMaxStr, depThreshold, depTransWidth) <= depMaxStr
    ensures depMaxStr > 0.0 ==> 0.0 < AtanDep(tanh, c, depMaxStr, depThreshold, depTransWidth) < depMaxStr
  {
    var x := (-c + depThreshold) / depTransWidth;
    TanhRange(tanh, x);
    HalfScaled(depMaxStr, tanh(x) + 1.0, AtanDep(tanh, c, depMaxStr, depThreshold, depTransWidth));
  }

  /** With a positive transition width and a non-negative strength the soft
      switch never increases with the concentration, and strictly decreases
      when the strength is positive. */
  lemma AtanDepNonIncreasing(tanh: real -> real, c1: real, c2: real, depMaxStr: real,
                             depThreshold: real, depTransWidth: real)
    requires TanhLaws(tanh)
    requires depTransWidth > 0.0 && depMaxStr >= 0.0 && c1 <= c2
    ensures AtanDep(tanh, c2, depMaxStr, depThreshold, depTransWidth) <= AtanDep(tanh, c1, depMaxStr, depThreshold, depTransWidth)
    ensures depMaxStr > 0.0 && c1 < c2 ==>
      AtanDep(tanh, c2, depMaxStr, depThreshold, depTransWidth) < AtanDep(tanh, c1, depMaxStr, depThreshold, depTransWidth)
  {
    var x1 := (-c1 + depThreshold) / depTransWidth;
    var x2 := (-c2 + depThreshold) / depTransWidth;
    if c1 < c2 {
      assert x2 < x1 by {
        assert x1 - x2 == (c2 - c1) / depTransWidth;
      }
      TanhIncreasing(tanh, x2, x1);
      HalfScaledMonotone(depMaxStr, tanh(x2) + 1.0, tanh(x1) + 1.0,
                         AtanDep(tanh, c2, depMaxStr, depThreshold, depTransWidth),
                         AtanDep(tanh, c1, depMaxStr, depThreshold, depTransWidth));
    }
  }

  /** The linear soft switch is the soft switch scaled by
      (c + 0.2 * threshold) / threshold. */
  lemma LinAtanDepScalesAtanDep(tanh: real -> real, c: real, depMaxStr: real,
                                depThreshold: real, depTransWidth: real)
    requires depThreshold != 0.0 && depTransWidth != 0.0
    ensures LinAtanDep(tanh, c, depMaxStr, depThreshold, depTransWidth)
      == AtanDep(tanh, c, depMaxStr, depThreshold, depTransWidth) * (c + 0.2 * depThreshold) / depThreshold
  {
    Regroup(depMaxStr, c + 0.2 * depThreshold, depThreshold, tanh((-c + depThreshold) / depTransWidth) + 1.0);
  }

  /** With the default parameters the soft switch is at half strength at
      c == 0.08 and the constant response is independent of c. */
  lemma DefaultsExample(tanh: real -> real)
    requires TanhLaws(tanh)
    ensures AtanDep(tanh, 0.08, 3.0) == 1.5
    ensures LinAtanDep(tanh, 0.08, 3.0) == 1.8
    ensures Elementwise(c => ConstantDep(c, 3.0), [0.0, 1.0, 2.0]) == [3.0, 3.0, 3.0]
  {
  }

  // ---------------------------------------------------------------------
  // Real arithmetic used above

  /** The range of tanh, from TanhLaws. */
  lemma TanhRange(tanh: real -> real, x: real)
    requires TanhLaws(tanh)
    ensures -1.0 < tanh(x) < 1.0
  {
  }

  /** The monotonicity of tanh, from TanhLaws. */
  lemma TanhIncreasing(tanh: real -> real, x: real, y: real)
    requires TanhLaws(tanh) && x < y
    ensures tanh(x) < tanh(y)
  {
  }

  /** The two groupings of the linear soft switch agree. */
  lemma Regroup(m: real, s: real, d: real, t: real)
    requires d != 0.0
    ensures m * s / (d * 2.0) * t == m / 2.0 * t * s / d
  {
    assert m * s / (d * 2.0) * t == (m * s * t) / (d * 2.0);
    assert m / 2.0 * t * s / d == (m * s * t) / (d * 2.0);
  }

  /** Half of a strength scaled by a factor in (0, 2) lies between zero and
      the strength. */
  lemma HalfScaled(m: real, u: real, r: real)
    requires 0.0 < u < 2.0 && r == m / 2.0 * u
    ensures m >= 0.0 ==> 0.0 <= r <= m
    ensures m > 0.0 ==> 0.0 < r < m
  {
    if m > 0.0 {
      var h, w := m / 2.0, 2.0 - u;
      MulPos(h, u);
      MulPos(h, w);
      assert m - r == h * w;
    } else if m == 0.0 {
      assert r == 0.0 * u;
    }
  }

  /** Half of a non-negative strength preserves the order of the factors it
      scales, strictly when the strength is positive. */
  lemma HalfScaledMonotone(m: real, u: real, v: real, ru: real, rv: real)
    requires m >= 0.0 && u < v && ru == m / 2.0 * u && rv == m / 2.0 * v
    ensures ru <= rv
    ensures m > 0.0 ==> ru < rv
  {
    var h := m / 2.0;
    assert rv - ru == h * (v - u);
    if m > 0.0 {
      MulPos(h, v - u);
    } else {
      assert h == 0.0;
    }
  }

  /** The product of two positive reals is positive. */
  lemma MulPos(a: real, b: real)
    requires a > 0.0 && b > 0.0
    ensures a * b > 0.0
  {
  }

  /** The laws are satisfiable: x / (1 + |x|) obeys all of them, so the
      lemmas that assume them are not vacuous. */
  lemma TanhLawsSatisfiable()
    ensures TanhLaws(x => x / (1.0 + (if x < 0.0 then -x else x)))
  {
    var f := x => x / (1.0 + (if x < 0.0 then -x else x));
    forall x: real ensures -1.0 < f(x) < 1.0 {
      var d := 1.0 + (if x < 0.0 then -x else x);
      assert d > 0.0;
      assert -d < x < d;
    }
    forall x: real, y: real | x < y ensures f(x) < f(y) {
      SoftSignIncreasing(x, y);
    }
  }

  /** Helper for TanhLawsSatisfiable: x / (1 + |x|) is strictly increasing. */
  lemma SoftSignIncreasing(x: real, y: real)
    requires x < y
    ensures x / (1.0 + (if x < 0.0 then -x else x)) < y / (1.0 + (if y < 0.0 then -y else y))
  {
    var dx := 1.0 + (if x < 0.0 then -x else x);
    var dy := 1.0 + (if y < 0.0 then -y else y);
    if x < 0.0 && y < 0.0 {
      assert x * dy - y * dx == x - y;
    } else if x >= 0.0 && y >= 0.0 {
      assert x * dy - y * dx == x - y;
    } else {
      assert x * dy < 0.0;
      assert y * dx >= 0.0;
    }
    CrossLess(x, dx, y, dy);
  }

  /** Two quotients with positive denominators compare as their cross
      products. */
  lemma CrossLess(a: real, p: real, b: real, q: real)
    requires p > 0.0 && q > 0.0 && a * q < b * p
    ensures a / p < b / q
  {
    var s := a / p;
    var t := b / q;
    assert a == s * p;
    assert b == t * q;
    assert (s - t) * (p * q) == a * q - b * p;
    assert p * q > 0.0;
  }
}
