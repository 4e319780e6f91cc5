/**
 * The scoring helper of the web app: the same stages as the command-line
 * script, behind its own, coarser checks, with no guard on the score
 * division and with ranks taken by the average rule and cast to `int`.
 *
 * A division `0 / 0` yields NaN, its rank stays NaN, and the cast to `int`
 * raises; the helper catches that and returns the message, which the model
 * reports as `NonFiniteScore`.
 */
module WebApp {
  import opened Results
  import opened Text
  import opened Vectors
  import opened TopsisCore
  import opened Ranking

  /** The reasons the helper returns a message instead of a result. */
  datatype Failure =
    | TooFewColumns
    | LengthMismatch
    | UnknownImpact
    | EmptyReduction
    | NonFiniteScore

  /**
   * The checks of the helper on the parsed weights and the impact string;
   * on success, the impact tokens.
   */
  function Validate(f: Frame, w: Vector, impacts: string): (r: Result<seq<string>, Failure>)
    requires f.Numeric()
    ensures r.Ok? ==>
              && f.Columns() >= 3 && |w| == f.criteria
              && r.value == Split(impacts, ',') && |r.value| == f.criteria
              && forall j :: 0 <= j < f.criteria ==> IsImpact(r.value[j])
  {
    if f.Columns() < 3 then Err(TooFewColumns)
    else
      var imp := Split(impacts, ',');
      if |w| != f.criteria || |imp| != f.criteria then Err(LengthMismatch)
      else if !(forall t :: t in imp ==> IsImpact(t)) then Err(UnknownImpact)
      else Ok(imp)
  }

  /**
   * Each check rejects exactly what passes the checks before it and fails it;
   * in particular a bad impact symbol is reported only when the counts agree.
   */
  lemma ValidationFailures(f: Frame, w: Vector, impacts: string)
    requires f.Numeric()
    ensures var r, imp := Validate(f, w, impacts), Split(impacts, ',');
            && (r == Err(TooFewColumns) <==> f.criteria < 2)
            && (r == Err(LengthMismatch) <==>
                  f.criteria >= 2 && (|w| != f.criteria || |imp| != f.criteria))
            && (r == Err(UnknownImpact) <==>
                  f.criteria >= 2 && |w| == f.criteria == |imp| &&
                  exists t :: t in imp && !IsImpact(t))
  {
  }

  /** A row at distance zero from both ideal points. */
  predicate HasZeroTotal(sBest: Vector, sWorst: Vector)
    requires |sBest| == |sWorst|
  {
    exists i :: 0 <= i < |sBest| && sBest[i] + sWorst[i] == 0.0
  }

  /** `s_worst / (s_best + s_worst)`, defined only where no sum is zero. */
  function UnguardedScores(sBest: Vector, sWorst: Vector): (s: Vector)
    requires |sBest| == |sWorst| && !HasZeroTotal(sBest, sWorst)
    ensures |s| == |sBest|
  {
    seq(|sBest|, i requires 0 <= i < |sBest| => sWorst[i] / (sBest[i] + sWorst[i]))
  }

  /** The scores the helper computes for a non-empty matrix without a degenerate row. */
  function Scores(sqrt: real -> real, x: Matrix, m: nat, w: Vector, impacts: seq<string>): (s: Vector)
    requires |x| > 0 && Rectangular(x, m) && |w| == m && |impacts| == m
    requires !HasZeroTotal(BestDistances(sqrt, x, m, w, impacts), WorstDistances(sqrt, x, m, w, impacts))
    ensures |s| == |x|
  {
    UnguardedScores(BestDistances(sqrt, x, m, w, impacts), WorstDistances(sqrt, x, m, w, impacts))
  }

  /**
   * `calculate_topsis` of the web app, from the table onwards: checks,
   * scores, and the truncated average ranks. Writing the result file is
   * left to the caller.
   */
  method CalculateTopsis(sqrt: real -> real, f: Frame, w: Vector, impacts: string)
    returns (r: Result<Ranked, Failure>)
    requires f.Numeric()
    ensures Validate(f, w, impacts).Err? ==> r == Err(Validate(f, w, impacts).error)
    ensures Validate(f, w, impacts).Ok? && |f.data| == 0 ==> r == Err(EmptyReduction)
    ensures Validate(f, w, impacts).Ok? && |f.data| > 0 ==>
              var imp := Validate(f, w, impacts).value;
              var sBest := BestDistances(sqrt, f.data, f.criteria, w, imp);
              var sWorst := WorstDistances(sqrt, f.data, f.criteria, w, imp);
              && (HasZeroTotal(sBest, sWorst) ==> r == Err(NonFiniteScore))
              && (!HasZeroTotal(sBest, sWorst) ==>
                    var s := Scores(sqrt, f.data, f.criteria, w, imp);
                    r == Ok(Ranked(s, TruncatedRanks(s))))
  {
    var v := Validate(f, w, impacts);
    if v.Err? {
      return Err(v.error);
    }
    var imp := v.value;
    var x, m := f.data, f.criteria;
    var weighted := NormalizeAndWeigh(sqrt, x, m, w);
    if |x| == 0 {
      return Err(EmptyReduction);
    }
    var best, worst := IdealPoints(weighted, m, imp);
    var sBest := Distances(sqrt, weighted, m, best);
    var sWorst := Distances(sqrt, weighted, m, worst);
    if HasZeroTotal(sBest, sWorst) {
      return Err(NonFiniteScore);
    }
    var score := seq(|x|, i requires 0 <= i < |x| => sWorst[i] / (sBest[i] + sWorst[i]));
    r := Ok(Ranked(score, TruncatedRanks(score)));
  }

  /** The helper fails on the score exactly when every weighted row is the same row. */
  lemma NonFiniteExactlyWhenRowsEqual(sqrt: real -> real, x: Matrix, m: nat, w: Vector, impacts: seq<string>)
    requires IsSqrt(sqrt) && |x| > 0 && Rectangular(x, m) && |w| == m && |impacts| == m
    ensures HasZeroTotal(BestDistances(sqrt, x, m, w, impacts), WorstDistances(sqrt, x, m, w, impacts))
            <==> AllRowsEqual(Weighted(sqrt, x, m, w))
  {
    var v := Weighted(sqrt, x, m, w);
    var dB, dW := BestDistances(sqrt, x, m, w, impacts), WorstDistances(sqrt, x, m, w, impacts);
    assert dB == Distances(sqrt, v, m, IdealBest(v, m, impacts));
    assert dW == Distances(sqrt, v, m, IdealWorst(v, m, impacts));
    DegenerateTotals(sqrt, v, m, impacts);
    assert forall i :: 0 <= i < |x| ==> Totals(dB, dW)[i] == dB[i] + dW[i];
  }

  /**
   * Where the scores are defined, each lies in [0, 1], and the sum of the
   * two distances is positive.
   */
  lemma ScoresRange(sqrt: real -> real, x: Matrix, m: nat, w: Vector, impacts: seq<string>)
    requires IsSqrt(sqrt) && |x| > 0 && Rectangular(x, m) && |w| == m && |impacts| == m
    requires !HasZeroTotal(BestDistances(sqrt, x, m, w, impacts), WorstDistances(sqrt, x, m, w, impacts))
    ensures var dB, dW := BestDistances(sqrt, x, m, w, impacts), WorstDistances(sqrt, x, m, w, impacts);
            forall i :: 0 <= i < |x| ==>
              dB[i] + dW[i] > 0.0 && 0.0 <= Scores(sqrt, x, m, w, impacts)[i] <= 1.0
  {
    var v := Weighted(sqrt, x, m, w);
    var dB, dW := BestDistances(sqrt, x, m, w, impacts), WorstDistances(sqrt, x, m, w, impacts);
    DistancesNonNegative(sqrt, v, m, IdealBest(v, m, impacts));
    DistancesNonNegative(sqrt, v, m, IdealWorst(v, m, impacts));
    forall i | 0 <= i < |x|
      ensures dB[i] + dW[i] > 0.0 && 0.0 <= Scores(sqrt, x, m, w, impacts)[i] <= 1.0
    {
      assert dB[i] + dW[i] != 0.0;
      RatioBounds(dW[i], dB[i] + dW[i]);
    }
  }

}
