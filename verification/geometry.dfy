/** Real-number geometry shared by the motion engine: the constant pi, squared
    distances, distance comparisons that stand in for `sqrt`, and an abstract
    trigonometry supplied by the caller.

    The program compares `sqrt(dx*dx + dy*dy)` against a threshold. Over the
    reals that comparison is decided exactly by comparing the squared distance
    with the squared threshold (taking the sign of the threshold into account),
    so the model never needs a square-root function; `SqrtComparisons` proves
    the correspondence for every non-negative square root of the squared
    distance. */
module Geometry {

  /** `math.pi` in its shortest decimal form: the double nearest to pi, which
      is neither pi itself nor the double's exact binary value. */
  const Pi: real := 3.141592653589793

  function Sq(a: real): real { a * a }

  /** Squared Euclidean distance between (px, py) and (qx, qy). */
  function Dist2(px: real, py: real, qx: real, qy: real): real {
    Sq(px - qx) + Sq(py - qy)
  }

  /** `sqrt(d2) <= lim`, stated without a square root. */
  predicate DistAtMost(d2: real, lim: real) {
    lim >= 0.0 && d2 <= lim * lim
  }

  /** `sqrt(d2) < lim`, stated without a square root. */
  predicate DistBelow(d2: real, lim: real) {
    lim > 0.0 && d2 < lim * lim
  }

  /** For non-negative reals, comparing squares decides the comparison. */
  lemma SquareMonotone(a: real, b: real)
    requires a >= 0.0 && b >= 0.0
    ensures a <= b <==> a * a <= b * b
    ensures a < b <==> a * a < b * b
  {
    if a < b {
      ProductGrows(a, b);
    } else if a == b {
    } else {
      ProductGrows(b, a);
    }
  }

  lemma ProductGrows(a: real, b: real)
    requires 0.0 <= a < b
    ensures a * a < b * b
  {
    var e := b - a;
    assert e > 0.0;
    assert b * b == a * a + 2.0 * a * e + e * e;
    assert a * e >= 0.0;
    assert e * e > 0.0;
  }

  /** The squared-distance predicates agree with the comparisons the program
      makes on `sqrt(d2)`, whatever non-negative root `s` of `d2` is used. */
  lemma SqrtComparisons(d2: real, s: real, lim: real)
    requires s >= 0.0 && s * s == d2
    ensures DistAtMost(d2, lim) <==> s <= lim
    ensures DistBelow(d2, lim) <==> s < lim
  {
    if lim >= 0.0 {
      SquareMonotone(s, lim);
    }
  }

  /** A point of the unit circle: the pair (cos t, sin t) for some angle t. */
  type UnitVec = p: (real, real)
    | -1.0 <= p.0 <= 1.0 && -1.0 <= p.1 <= 1.0 && p.0 * p.0 + p.1 * p.1 == 1.0
    witness (1.0, 0.0)

  /** The transcendental functions the engine calls, left abstract: `polar(t)`
      is (cos t, sin t) and `atan2(y, x)` is the quadrant-aware arc tangent.
      The type of `polar` carries the only facts the proofs rely on; nothing
      is assumed of `atan2`. */
  datatype Trig = Trig(polar: real -> UnitVec, atan2: (real, real) -> real)

  function Cos(trig: Trig, t: real): real { trig.polar(t).0 }

  function Sin(trig: Trig, t: real): real { trig.polar(t).1 }

  /** Scaling a unit vector by `speed` gives components no longer than `speed`
      and a vector of length exactly `speed`. */
  lemma ScaledUnit(trig: Trig, t: real, speed: real)
    ensures speed >= 0.0 ==> -speed <= Cos(trig, t) * speed <= speed
    ensures speed >= 0.0 ==> -speed <= Sin(trig, t) * speed <= speed
    ensures Sq(Cos(trig, t) * speed) + Sq(Sin(trig, t) * speed) == Sq(speed)
  {
    var c, s := Cos(trig, t), Sin(trig, t);
    assert c * c + s * s == 1.0;
    if speed >= 0.0 {
      BoundedScale(c, speed);
      BoundedScale(s, speed);
    }
    calc {
      Sq(c * speed) + Sq(s * speed);
      (c * c + s * s) * (speed * speed);
      speed * speed;
    }
  }

  lemma BoundedScale(c: real, k: real)
    requires -1.0 <= c <= 1.0 && k >= 0.0
    ensures -k <= c * k <= k
  {
    if c >= 0.0 {
      assert c * k <= 1.0 * k;
    } else {
      assert (-c) * k <= 1.0 * k;
    }
  }

  /** The fraction u of the length a, `u * a` for u in [0, 1): in [0, a)
      when a is positive. A zero length gives 0 without forming the
      product. */
  function Scale(u: real, a: real): (s: real)
    requires 0.0 <= u < 1.0
    ensures a > 0.0 ==> 0.0 <= s < a
    ensures a == 0.0 ==> s == 0.0
  {
    if a == 0.0 then 0.0
    else
      FractionBelow(u, a);
      u * a
  }

  /** `u * a` stays in [0, a) when u is in [0, 1) and a is positive. */
  lemma FractionBelow(u: real, a: real)
    requires 0.0 <= u < 1.0
    ensures a > 0.0 ==> 0.0 <= u * a < a
  {
    if a > 0.0 {
      assert u * a < 1.0 * a;
    }
  }
}
