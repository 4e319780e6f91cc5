/**
 * Vectors and matrices of reals, the numpy reductions TOPSIS uses on them
 * (sum of squares, maximum, minimum), and the square root it takes, which is
 * supplied by the caller as a function characterised by `IsSqrt`.
 *
 * Products whose sign matters are written through `Square` and `Product`, and
 * the facts about them are stated on those terms, so that each fact is
 * proved once and then used by name.
 */
module Vectors {

  type Vector = seq<real>
  type Matrix = seq<seq<real>>

  /** Every row of `x` has exactly `m` entries, as in a 2-D numpy array. */
  predicate Rectangular(x: Matrix, m: nat) {
    forall i :: 0 <= i < |x| ==> |x[i]| == m
  }

  /** `x[:, j]` */
  function Column(x: Matrix, j: nat): (c: Vector)
    requires forall i :: 0 <= i < |x| ==> j < |x[i]|
    ensures |c| == |x|
  {
    seq(|x|, i requires 0 <= i < |x| => x[i][j])
  }

  /** `v * c` */
  function Scale(v: Vector, c: real): (w: Vector)
    ensures |w| == |v|
  {
    seq(|v|, i requires 0 <= i < |v| => v[i] * c)
  }

  /** `a - b` */
  function Diff(a: Vector, b: Vector): (d: Vector)
    requires |a| == |b|
    ensures |d| == |a|
  {
    seq(|a|, i requires 0 <= i < |a| => a[i] - b[i])
  }

  function Square(x: real): real {
    x * x
  }

  function Product(x: real, y: real): real {
    x * y
  }

  /** `np.sum(v**2)` */
  function SumSquares(v: Vector): (r: real)
    ensures r >= 0.0
  {
    if |v| == 0 then 0.0 else Square(v[0]) + SumSquares(v[1..])
  }

  /** A sum of squares vanishes exactly when every term does. */
  lemma {:induction false} SumSquaresZero(v: Vector)
    ensures SumSquares(v) == 0.0 <==> forall i :: 0 <= i < |v| ==> v[i] == 0.0
  {
    if |v| > 0 {
      SumSquaresZero(v[1..]);
      assert forall i :: 1 <= i < |v| ==> v[i] == v[1..][i - 1];
      if v[0] != 0.0 {
        SquarePositive(v[0]);
      }
    }
  }

  /** Scaling a vector by `c` scales its sum of squares by `c * c`. */
  lemma {:induction false} SumSquaresScale(v: Vector, c: real)
    ensures SumSquares(Scale(v, c)) == Square(c) * SumSquares(v)
  {
    if |v| > 0 {
      var w, t := Scale(v, c), v[1..];
      ScaleTail(v, c);
      SumSquaresScale(t, c);
      ScaledSquare(v[0], c);
      assert w[0] == v[0] * c;
      ScaleStep(SumSquares(w), Square(v[0] * c), SumSquares(Scale(t, c)), SumSquares(v),
                Square(c), Square(v[0]), SumSquares(t));
    }
  }

  /** `np.max(v)` */
  function Max(v: Vector): real
    requires |v| > 0
  {
    if |v| == 1 then v[0]
    else
      var m := Max(v[1..]);
      if v[0] >= m then v[0] else m
  }

  /** `np.min(v)` */
  function Min(v: Vector): real
    requires |v| > 0
  {
    if |v| == 1 then v[0]
    else
      var m := Min(v[1..]);
      if v[0] <= m then v[0] else m
  }

  /** The maximum is an upper bound of `v` that `v` attains. */
  lemma {:induction false} MaxIsGreatest(v: Vector)
    requires |v| > 0
    ensures forall i :: 0 <= i < |v| ==> v[i] <= Max(v)
    ensures exists i :: 0 <= i < |v| && v[i] == Max(v)
  {
    if |v| == 1 {
      assert v[0] == Max(v);
    } else {
      var t := v[1..];
      MaxIsGreatest(t);
      var k :| 0 <= k < |t| && t[k] == Max(t);
      forall i | 0 <= i < |v|
        ensures v[i] <= Max(v)
      {
        if i > 0 {
          assert v[i] == t[i - 1];
        }
      }
      if v[0] < Max(t) {
        assert v[k + 1] == t[k] == Max(v);
      } else {
        assert v[0] == Max(v);
      }
    }
  }

  /** The minimum is a lower bound of `v` that `v` attains. */
  lemma {:induction false} MinIsLeast(v: Vector)
    requires |v| > 0
    ensures forall i :: 0 <= i < |v| ==> Min(v) <= v[i]
    ensures exists i :: 0 <= i < |v| && v[i] == Min(v)
  {
    if |v| == 1 {
      assert v[0] == Min(v);
    } else {
      var t := v[1..];
      MinIsLeast(t);
      var k :| 0 <= k < |t| && t[k] == Min(t);
      forall i | 0 <= i < |v|
        ensures Min(v) <= v[i]
      {
        if i > 0 {
          assert v[i] == t[i - 1];
        }
      }
      if v[0] > Min(t) {
        assert v[k + 1] == t[k] == Min(v);
      } else {
        assert v[0] == Min(v);
      }
    }
  }

  /** Scaling commutes with dropping the first entry. */
  lemma ScaleTail(v: Vector, c: real)
    requires |v| > 0
    ensures Scale(v, c)[1..] == Scale(v[1..], c)
  {
    forall i | 0 <= i < |v| - 1
      ensures Scale(v, c)[1..][i] == Scale(v[1..], c)[i]
    {
      assert Scale(v, c)[1..][i] == Scale(v, c)[i + 1] == v[i + 1] * c;
      assert v[1..][i] == v[i + 1];
    }
  }

  /** A difference is zero exactly where its operands agree. */
  lemma DiffZero(a: Vector, b: Vector)
    requires |a| == |b|
    ensures (forall i :: 0 <= i < |a| ==> Diff(a, b)[i] == 0.0) <==> a == b
  {
    if forall i :: 0 <= i < |a| ==> Diff(a, b)[i] == 0.0 {
      forall i | 0 <= i < |a|
        ensures a[i] == b[i]
      {
        assert Diff(a, b)[i] == a[i] - b[i];
      }
    }
  }

  /**
   * `sqrt` behaves as `np.sqrt` on the non-negative reals: it returns the
   * non-negative number whose square is its argument.
   */
  ghost predicate IsSqrt(sqrt: real -> real) {
    forall x :: 0.0 <= x ==> 0.0 <= sqrt(x) && Square(sqrt(x)) == x
  }

  /** The square root is zero exactly at zero. */
  lemma SqrtZero(sqrt: real -> real, x: real)
    requires IsSqrt(sqrt) && 0.0 <= x
    ensures 0.0 <= sqrt(x)
    ensures sqrt(x) == 0.0 <==> x == 0.0
  {
    if sqrt(x) != 0.0 {
      SquarePositive(sqrt(x));
    }
  }

  // Facts of real arithmetic, each stated on `Square` and `Product` terms and
  // proved on its own.

  lemma ProductPositive(x: real, y: real)
    requires 0.0 < x && 0.0 < y
    ensures 0.0 < Product(x, y)
  {
  }

  lemma SquarePositive(a: real)
    requires a != 0.0
    ensures 0.0 < Square(a)
  {
    if a > 0.0 {
      ProductPositive(a, a);
    } else {
      ProductPositive(-a, -a);
      assert Product(-a, -a) == Square(a);
    }
  }

  /** One step of scaling a sum by `k`: if `w = a + b` with `a = k x`, `b = k y`, then `w = k (x + y)`. */
  lemma ScaleStep(w: real, a: real, b: real, z: real, k: real, x: real, y: real)
    requires w == a + b && a == k * x && b == k * y && z == x + y
    ensures w == k * z
  {
  }

  lemma ScaledSquare(a: real, c: real)
    ensures Square(a * c) == Square(c) * Square(a)
  {
  }

  lemma Quotient(x: real, d: real, y: real)
    requires d != 0.0 && x == d * y
    ensures x / d == y
  {
  }

  lemma RatioBounds(a: real, t: real)
    requires 0.0 <= a <= t && t > 0.0
    ensures 0.0 <= a / t <= 1.0
  {
  }

  lemma TimesQuotient(b: real, t: real)
    requires t != 0.0
    ensures t * (b / t) == b
  {
  }

  lemma OneMinus(t: real, q: real)
    ensures t * (1.0 - q) == t - t * q
  {
  }

  lemma RatioOne(a: real, t: real)
    requires t > 0.0
    ensures a / t == 0.0 <==> a == 0.0
    ensures a / t == 1.0 <==> a == t
  {
  }
}
