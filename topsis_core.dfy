/**
 * The stages of TOPSIS that the command-line script and the web app share:
 * column normalisation with the zero-norm patch, weighting, the ideal-best
 * and ideal-worst points chosen by impact sign, and the Euclidean distance
 * of every row to both points.
 *
 * A decision matrix has one row per alternative and `m` criterion columns.
 */
module TopsisCore {
  import opened Vectors

  /**
   * A table as read from CSV: an identifier column followed by `criteria`
   * numeric columns, whose values are the rows of `data`.
   */
  datatype Frame = Frame(criteria: nat, data: Matrix)
  {
    /** `df.shape[1]` */
    function Columns(): nat {
      criteria + 1
    }

    /** Every row holds one real per criterion column. */
    predicate Numeric() {
      Rectangular(data, criteria)
    }
  }

  /** The two impact symbols both front ends accept. */
  predicate IsImpact(t: string) {
    t == "+" || t == "-"
  }

  // ---------------------------------------------------------------------
  // Step 1: vector normalisation
  // ---------------------------------------------------------------------

  /** `np.sqrt(np.sum(x**2, axis=0))`: the Euclidean length of every column. */
  function ColumnNorms(sqrt: real -> real, x: Matrix, m: nat): (r: Vector)
    requires Rectangular(x, m)
    ensures |r| == m
  {
    seq(m, j requires 0 <= j < m => sqrt(SumSquares(Column(x, j))))
  }

  /** The value of `rss` after `rss[rss == 0] = 1`. */
  function ZeroToOne(v: Vector): (r: Vector)
    ensures |r| == |v|
    ensures forall j :: 0 <= j < |v| ==> r[j] != 0.0
    ensures forall j :: 0 <= j < |v| && v[j] != 0.0 ==> r[j] == v[j]
    ensures forall j :: 0 <= j < |v| && v[j] == 0.0 ==> r[j] == 1.0
  {
    seq(|v|, j requires 0 <= j < |v| => if v[j] == 0.0 then 1.0 else v[j])
  }

  /** `a[a == 0] = 1`, performed in place on the array. */
  method ReplaceZeroWithOne(a: array<real>)
    modifies a
    ensures a[..] == ZeroToOne(old(a[..]))
  {
    for j := 0 to a.Length
      invariant forall k :: 0 <= k < j ==> a[k] == ZeroToOne(old(a[..]))[k]
      invariant forall k :: j <= k < a.Length ==> a[k] == old(a[k])
    {
      if a[j] == 0.0 {
        a[j] := 1.0;
      }
    }
    assert a[..] == ZeroToOne(old(a[..]));
  }

  /** `x / rss`: every entry divided by the divisor of its column. */
  function Normalize(x: Matrix, m: nat, rss: Vector): (r: Matrix)
    requires Rectangular(x, m) && |rss| == m
    requires forall j :: 0 <= j < m ==> rss[j] != 0.0
    ensures |r| == |x| && Rectangular(r, m)
  {
    seq(|x|, i requires 0 <= i < |x| =>
      seq(m, j requires 0 <= j < m => x[i][j] / rss[j]))
  }

  /** `normalized * weights`: every entry multiplied by the weight of its column. */
  function Weigh(x: Matrix, m: nat, w: Vector): (r: Matrix)
    requires Rectangular(x, m) && |w| == m
    ensures |r| == |x| && Rectangular(r, m)
  {
    seq(|x|, i requires 0 <= i < |x| =>
      seq(m, j requires 0 <= j < m => x[i][j] * w[j]))
  }

  /** The column divisors after the zero patch. */
  function Divisors(sqrt: real -> real, x: Matrix, m: nat): (r: Vector)
    requires Rectangular(x, m)
    ensures |r| == m && forall j :: 0 <= j < m ==> r[j] != 0.0
  {
    ZeroToOne(ColumnNorms(sqrt, x, m))
  }

  /** The normalised decision matrix. */
  function Normalized(sqrt: real -> real, x: Matrix, m: nat): (r: Matrix)
    requires Rectangular(x, m)
    ensures |r| == |x| && Rectangular(r, m)
  {
    Normalize(x, m, Divisors(sqrt, x, m))
  }

  /** The weighted normalised decision matrix. */
  function Weighted(sqrt: real -> real, x: Matrix, m: nat, w: Vector): (r: Matrix)
    requires Rectangular(x, m) && |w| == m
    ensures |r| == |x| && Rectangular(r, m)
  {
    Weigh(Normalized(sqrt, x, m), m, w)
  }

  /**
   * Steps 1 and 2 as the code runs them: the column norms are computed into
   * an array, patched in place, and used to divide; the result is weighted.
   */
  method NormalizeAndWeigh(sqrt: real -> real, x: Matrix, m: nat, w: Vector) returns (weighted: Matrix)
    requires Rectangular(x, m) && |w| == m
    ensures weighted == Weighted(sqrt, x, m, w)
  {
    var norms := ColumnNorms(sqrt, x, m);
    var rss := new real[m](j requires 0 <= j < m => norms[j]);
    assert rss[..] == norms;
    ReplaceZeroWithOne(rss);
    weighted := Weigh(Normalize(x, m, rss[..]), m, w);
  }

  /** The norm of column `j` is zero exactly when the column is all zeros. */
  lemma ColumnNormZero(sqrt: real -> real, x: Matrix, m: nat, j: nat)
    requires IsSqrt(sqrt) && Rectangular(x, m) && j < m
    ensures 0.0 <= ColumnNorms(sqrt, x, m)[j]
    ensures ColumnNorms(sqrt, x, m)[j] == 0.0 <==> forall i :: 0 <= i < |x| ==> x[i][j] == 0.0
  {
    var col := Column(x, j);
    SumSquaresZero(col);
    SqrtZero(sqrt, SumSquares(col));
    assert forall i :: 0 <= i < |x| ==> col[i] == x[i][j];
  }

  /** A column that is entirely zero is divided by 1, so it stays entirely zero. */
  lemma NormalizedZeroColumn(sqrt: real -> real, x: Matrix, m: nat, j: nat)
    requires IsSqrt(sqrt) && Rectangular(x, m) && j < m
    requires forall i :: 0 <= i < |x| ==> x[i][j] == 0.0
    ensures Divisors(sqrt, x, m)[j] == 1.0
    ensures forall i :: 0 <= i < |x| ==> Normalized(sqrt, x, m)[i][j] == 0.0
  {
    ColumnNormZero(sqrt, x, m, j);
  }

  /**
   * Any other column is divided by its Euclidean length, and afterwards has
   * length one.
   */
  lemma NormalizedColumn(sqrt: real -> real, x: Matrix, m: nat, j: nat)
    requires IsSqrt(sqrt) && Rectangular(x, m) && j < m
    requires exists i :: 0 <= i < |x| && x[i][j] != 0.0
    ensures sqrt(SumSquares(Column(x, j))) > 0.0
    ensures forall i :: 0 <= i < |x| ==>
              Normalized(sqrt, x, m)[i][j] == x[i][j] / sqrt(SumSquares(Column(x, j)))
    ensures SumSquares(Column(Normalized(sqrt, x, m), j)) == 1.0
  {
    ColumnNormZero(sqrt, x, m, j);
    var col := Column(x, j);
    var s := SumSquares(col);
    var r := sqrt(s);
    assert Divisors(sqrt, x, m)[j] == r;
    var n := Column(Normalized(sqrt, x, m), j);
    forall i | 0 <= i < |x|
      ensures n[i] == Scale(col, 1.0 / r)[i]
    {
      DivideAsScale(x[i][j], r);
    }
    assert n == Scale(col, 1.0 / r);
    SumSquaresScale(col, 1.0 / r);
    InverseSquare(r, s);
  }

  lemma DivideAsScale(a: real, r: real)
    requires r != 0.0
    ensures a / r == a * (1.0 / r)
  {
  }

  /** When `r * r == s` and `r != 0`, `(1 / r)^2 * s == 1`. */
  lemma InverseSquare(r: real, s: real)
    requires r != 0.0 && Square(r) == s
    ensures Square(1.0 / r) * s == 1.0
  {
    assert Square(1.0 / r) * Square(r) == Square((1.0 / r) * r);
  }

  // ---------------------------------------------------------------------
  // Step 3: ideal-best and ideal-worst points
  // ---------------------------------------------------------------------

  /** The ideal-best value of a column: its maximum for a `+` impact, its minimum otherwise. */
  function BestOf(col: Vector, impact: string): real
    requires |col| > 0
  {
    if impact == "+" then Max(col) else Min(col)
  }

  /** The ideal-worst value of a column: its minimum for a `+` impact, its maximum otherwise. */
  function WorstOf(col: Vector, impact: string): real
    requires |col| > 0
  {
    if impact == "+" then Min(col) else Max(col)
  }

  /** The ideal-best point: one value per impact token, taken from the column of the same index. */
  function IdealBest(v: Matrix, m: nat, impacts: seq<string>): (r: Vector)
    requires |v| > 0 && Rectangular(v, m) && |impacts| <= m
    ensures |r| == |impacts|
  {
    seq(|impacts|, j requires 0 <= j < |impacts| => BestOf(Column(v, j), impacts[j]))
  }

  /** The ideal-worst point. */
  function IdealWorst(v: Matrix, m: nat, impacts: seq<string>): (r: Vector)
    requires |v| > 0 && Rectangular(v, m) && |impacts| <= m
    ensures |r| == |impacts|
  {
    seq(|impacts|, j requires 0 <= j < |impacts| => WorstOf(Column(v, j), impacts[j]))
  }

  /** The loop over the impacts that appends one best and one worst value per column. */
  method IdealPoints(v: Matrix, m: nat, impacts: seq<string>) returns (best: Vector, worst: Vector)
    requires |v| > 0 && Rectangular(v, m) && |impacts| <= m
    ensures best == IdealBest(v, m, impacts)
    ensures worst == IdealWorst(v, m, impacts)
  {
    best, worst := [], [];
    for j := 0 to |impacts|
      invariant best == IdealBest(v, m, impacts)[..j]
      invariant worst == IdealWorst(v, m, impacts)[..j]
    {
      var col := Column(v, j);
      if impacts[j] == "+" {
        best := best + [Max(col)];
        worst := worst + [Min(col)];
      } else {
        best := best + [Min(col)];
        worst := worst + [Max(col)];
      }
    }
  }

  /**
   * Each column lies between its two ideal values, in the order the impact
   * gives, and each ideal value is the entry of some row.
   */
  lemma IdealBounds(v: Matrix, m: nat, impacts: seq<string>, j: nat)
    requires |v| > 0 && Rectangular(v, m) && j < |impacts| <= m
    ensures impacts[j] == "+" ==>
              forall i :: 0 <= i < |v| ==>
                IdealWorst(v, m, impacts)[j] <= v[i][j] <= IdealBest(v, m, impacts)[j]
    ensures impacts[j] != "+" ==>
              forall i :: 0 <= i < |v| ==>
                IdealBest(v, m, impacts)[j] <= v[i][j] <= IdealWorst(v, m, impacts)[j]
    ensures exists i :: 0 <= i < |v| && v[i][j] == IdealBest(v, m, impacts)[j]
    ensures exists i :: 0 <= i < |v| && v[i][j] == IdealWorst(v, m, impacts)[j]
  {
    var col := Column(v, j);
    MaxIsGreatest(col);
    MinIsLeast(col);
    assert forall i :: 0 <= i < |v| ==> v[i][j] == col[i];
    var hi :| 0 <= hi < |col| && col[hi] == Max(col);
    var lo :| 0 <= lo < |col| && col[lo] == Min(col);
    assert v[hi][j] == Max(col) && v[lo][j] == Min(col);
  }

  // ---------------------------------------------------------------------
  // Step 4: Euclidean distances
  // ---------------------------------------------------------------------

  /** `np.sqrt(np.sum((a - b)**2))` */
  function Distance(sqrt: real -> real, a: Vector, b: Vector): real
    requires |a| == |b|
  {
    sqrt(SumSquares(Diff(a, b)))
  }

  /** The distance of every row of `v` to the point `p`. */
  function Distances(sqrt: real -> real, v: Matrix, m: nat, p: Vector): (d: Vector)
    requires Rectangular(v, m) && |p| == m
    ensures |d| == |v|
  {
    seq(|v|, i requires 0 <= i < |v| => Distance(sqrt, v[i], p))
  }

  /** A distance is non-negative and is zero exactly between equal points. */
  lemma DistanceZero(sqrt: real -> real, a: Vector, b: Vector)
    requires IsSqrt(sqrt) && |a| == |b|
    ensures Distance(sqrt, a, b) >= 0.0
    ensures Distance(sqrt, a, b) == 0.0 <==> a == b
  {
    SumSquaresZero(Diff(a, b));
    SqrtZero(sqrt, SumSquares(Diff(a, b)));
    DiffZero(a, b);
  }

  /** Every entry of a distance vector is non-negative. */
  lemma DistancesNonNegative(sqrt: real -> real, v: Matrix, m: nat, p: Vector)
    requires IsSqrt(sqrt) && Rectangular(v, m) && |p| == m
    ensures forall i :: 0 <= i < |v| ==> Distances(sqrt, v, m, p)[i] >= 0.0
  {
    forall i | 0 <= i < |v|
      ensures Distances(sqrt, v, m, p)[i] >= 0.0
    {
      DistanceZero(sqrt, v[i], p);
    }
  }

  /** `dist_best + dist_worst` */
  function Totals(dBest: Vector, dWorst: Vector): (t: Vector)
    requires |dBest| == |dWorst|
    ensures |t| == |dBest|
  {
    seq(|dBest|, i requires 0 <= i < |dBest| => dBest[i] + dWorst[i])
  }

  /** Every row of the matrix is the same row. */
  predicate AllRowsEqual(v: Matrix) {
    forall i, k :: 0 <= i < |v| && 0 <= k < |v| ==> v[i] == v[k]
  }

  /**
   * A row is at distance zero from both ideal points exactly when all rows
   * of the weighted matrix coincide; then every row is, so the sum of the
   * two distances is zero for one row iff it is zero for all of them.
   */
  lemma DegenerateTotals(sqrt: real -> real, v: Matrix, m: nat, impacts: seq<string>)
    requires IsSqrt(sqrt) && |v| > 0 && Rectangular(v, m) && |impacts| == m
    ensures var t := Totals(Distances(sqrt, v, m, IdealBest(v, m, impacts)),
                            Distances(sqrt, v, m, IdealWorst(v, m, impacts)));
            ((exists i :: 0 <= i < |v| && t[i] == 0.0) <==> AllRowsEqual(v)) &&
            (AllRowsEqual(v) <==> forall i :: 0 <= i < |v| ==> t[i] == 0.0)
  {
    var best, worst := IdealBest(v, m, impacts), IdealWorst(v, m, impacts);
    var dB, dW := Distances(sqrt, v, m, best), Distances(sqrt, v, m, worst);
    var t := Totals(dB, dW);
    forall i | 0 <= i < |v|
      ensures t[i] == 0.0 <==> v[i] == best && v[i] == worst
    {
      DistanceZero(sqrt, v[i], best);
      DistanceZero(sqrt, v[i], worst);
    }
    if exists i :: 0 <= i < |v| && t[i] == 0.0 {
      var i :| 0 <= i < |v| && t[i] == 0.0;
      SameIdealsAllRowsEqual(v, m, impacts);
    }
    if AllRowsEqual(v) {
      AllRowsEqualIdeals(v, m, impacts);
    }
  }

  /** When the two ideal points coincide, every row equals them. */
  lemma SameIdealsAllRowsEqual(v: Matrix, m: nat, impacts: seq<string>)
    requires |v| > 0 && Rectangular(v, m) && |impacts| == m
    requires IdealBest(v, m, impacts) == IdealWorst(v, m, impacts)
    ensures forall i :: 0 <= i < |v| ==> v[i] == IdealBest(v, m, impacts)
    ensures AllRowsEqual(v)
  {
    var best := IdealBest(v, m, impacts);
    forall i | 0 <= i < |v|
      ensures v[i] == best
    {
      forall j | 0 <= j < m
        ensures v[i][j] == best[j]
      {
        IdealBounds(v, m, impacts, j);
      }
    }
  }

  /** When all rows coincide, both ideal points equal that row. */
  lemma AllRowsEqualIdeals(v: Matrix, m: nat, impacts: seq<string>)
    requires |v| > 0 && Rectangular(v, m) && |impacts| == m
    requires AllRowsEqual(v)
    ensures IdealBest(v, m, impacts) == v[0] && IdealWorst(v, m, impacts) == v[0]
  {
    forall j | 0 <= j < m
      ensures IdealBest(v, m, impacts)[j] == v[0][j] && IdealWorst(v, m, impacts)[j] == v[0][j]
    {
      IdealBounds(v, m, impacts, j);
    }
  }

  // ---------------------------------------------------------------------
  // The stages composed, and how they respond to the weights and impacts
  // ---------------------------------------------------------------------

  /** The distance of every weighted row to the ideal-best point. */
  function BestDistances(sqrt: real -> real, x: Matrix, m: nat, w: Vector, impacts: seq<string>): (d: Vector)
    requires |x| > 0 && Rectangular(x, m) && |w| == m && |impacts| == m
    ensures |d| == |x|
  {
    var v := Weighted(sqrt, x, m, w);
    Distances(sqrt, v, m, IdealBest(v, m, impacts))
  }

  /** The distance of every weighted row to the ideal-worst point. */
  function WorstDistances(sqrt: real -> real, x: Matrix, m: nat, w: Vector, impacts: seq<string>): (d: Vector)
    requires |x| > 0 && Rectangular(x, m) && |w| == m && |impacts| == m
    ensures |d| == |x|
  {
    var v := Weighted(sqrt, x, m, w);
    Distances(sqrt, v, m, IdealWorst(v, m, impacts))
  }

  /** Every impact turned round: `+` becomes `-` and anything else becomes `+`. */
  function Flip(impacts: seq<string>): (r: seq<string>)
    ensures |r| == |impacts|
  {
    seq(|impacts|, j requires 0 <= j < |impacts| => if impacts[j] == "+" then "-" else "+")
  }

  /** Turning every impact round swaps the two ideal points. */
  lemma FlipSwapsIdeals(v: Matrix, m: nat, impacts: seq<string>)
    requires |v| > 0 && Rectangular(v, m) && |impacts| <= m
    ensures IdealBest(v, m, Flip(impacts)) == IdealWorst(v, m, impacts)
    ensures IdealWorst(v, m, Flip(impacts)) == IdealBest(v, m, impacts)
  {
  }

  /** Turning every impact round swaps the two distance vectors. */
  lemma FlipSwapsDistances(sqrt: real -> real, x: Matrix, m: nat, w: Vector, impacts: seq<string>)
    requires |x| > 0 && Rectangular(x, m) && |w| == m && |impacts| == m
    ensures BestDistances(sqrt, x, m, w, Flip(impacts)) == WorstDistances(sqrt, x, m, w, impacts)
    ensures WorstDistances(sqrt, x, m, w, Flip(impacts)) == BestDistances(sqrt, x, m, w, impacts)
  {
    FlipSwapsIdeals(Weighted(sqrt, x, m, w), m, impacts);
  }
}
