/**
 * How the web app's scoring differs from the command-line script's: both
 * accept the same arguments once the weights are parsed, agree on every
 * score when no row sits at both ideal points, part ways when every row is
 * the same. How their tie rules compare is stated in `Ranking`.
 */
module Variants {
  import opened Results
  import opened Text
  import opened Vectors
  import opened TopsisCore
  import opened Ranking
  import Script = TopsisScript
  import Web = WebApp

  /**
   * For weight arguments made of accepted tokens, the script's checks pass
   * exactly when the web app's checks pass on the parsed weights and the
   * table has rows (the script's numeric-column check turns away a table
   * without rows, the web app's `astype(float)` does not), and then both
   * hand on the same impact tokens.
   */
  lemma SameAcceptance(f: Frame, weights: string, impacts: string)
    requires f.Numeric()
    requires forall t :: t in Split(weights, ',') ==> IsWeightToken(t)
    ensures var w := Script.ParseWeights(Split(weights, ','));
            && (Script.ValidateInputs(f, weights, impacts).Ok? <==> Web.Validate(f, w, impacts).Ok? && |f.data| > 0)
            && (Script.ValidateInputs(f, weights, impacts).Ok? ==>
                  Script.ValidateInputs(f, weights, impacts).value.impacts == Web.Validate(f, w, impacts).value &&
                  Script.ValidateInputs(f, weights, impacts).value.weights == w)
  {
    Script.ValidationFailures(f, weights, impacts);
    Web.ValidationFailures(f, Script.ParseWeights(Split(weights, ',')), impacts);
  }

  /**
   * The weight checks part ways: the script admits only digits and one '.',
   * while the web app hands every token to `float`, which also reads a sign.
   * A negative weight the script turns away is scored by the web app.
   */
  lemma SignedWeightDiffers(data: Matrix, weights: string, impacts: string)
    requires |data| > 0 && Rectangular(data, 2) && weights == "-1,1" && impacts == "+,+"
    ensures Script.ValidateInputs(Frame(2, data), weights, impacts) == Err(Script.NonNumericWeights)
    ensures Web.Validate(Frame(2, data), [-1.0, 1.0], impacts) == Ok(["+", "+"])
  {
    ScriptRejectsSigned(data, weights, impacts);
    WebAcceptsSigned(data, impacts);
  }

  lemma ScriptRejectsSigned(data: Matrix, weights: string, impacts: string)
    requires |data| > 0 && Rectangular(data, 2) && weights == "-1,1"
    ensures Script.ValidateInputs(Frame(2, data), weights, impacts) == Err(Script.NonNumericWeights)
  {
    Script.SplitTwo("-1", "1", weights);
    RejectsSign();
    assert "-1" in Split(weights, ',');
  }

  lemma WebAcceptsSigned(data: Matrix, impacts: string)
    requires Rectangular(data, 2) && impacts == "+,+"
    ensures Web.Validate(Frame(2, data), [-1.0, 1.0], impacts) == Ok(["+", "+"])
  {
    Script.SplitTwo("+", "+", impacts);
  }

  /** Where no row is at distance zero from both ideal points, the two scorings agree. */
  lemma SameScoresWhenDefined(sqrt: real -> real, x: Matrix, m: nat, w: Vector, impacts: seq<string>)
    requires |x| > 0 && Rectangular(x, m) && |w| == m && |impacts| == m
    requires !Web.HasZeroTotal(BestDistances(sqrt, x, m, w, impacts), WorstDistances(sqrt, x, m, w, impacts))
    ensures Web.Scores(sqrt, x, m, w, impacts) == Script.Scores(sqrt, x, m, w, impacts)
  {
    var dB, dW := BestDistances(sqrt, x, m, w, impacts), WorstDistances(sqrt, x, m, w, impacts);
    forall i | 0 <= i < |x|
      ensures Web.Scores(sqrt, x, m, w, impacts)[i] == Script.Scores(sqrt, x, m, w, impacts)[i]
    {
      assert Totals(dB, dW)[i] == dB[i] + dW[i] != 0.0;
    }
  }

  /**
   * When every weighted row is the same, the script scores every row 0
   * while the web app's division has no defined value.
   */
  lemma DegenerateTableDiffers(sqrt: real -> real, x: Matrix, m: nat, w: Vector, impacts: seq<string>)
    requires IsSqrt(sqrt) && |x| > 0 && Rectangular(x, m) && |w| == m && |impacts| == m
    requires AllRowsEqual(Weighted(sqrt, x, m, w))
    ensures Web.HasZeroTotal(BestDistances(sqrt, x, m, w, impacts), WorstDistances(sqrt, x, m, w, impacts))
    ensures forall i :: 0 <= i < |x| ==> Script.Scores(sqrt, x, m, w, impacts)[i] == 0.0
  {
    Web.NonFiniteExactlyWhenRowsEqual(sqrt, x, m, w, impacts);
    Script.DegenerateScores(sqrt, x, m, w, impacts);
  }
}
