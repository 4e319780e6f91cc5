/**
 * The command-line script: its input guard `validate_inputs`, the scoring
 * routine `calculate_topsis` (which replaces a zero sum of distances by 1),
 * and `topsis`, which runs both and ranks the scores with the minimum rule.
 */
module TopsisScript {
  import opened Results
  import opened Text
  import opened Vectors
  import opened TopsisCore
  import opened Ranking

  /** The reasons the script stops before scoring, one per error message. */
  datatype Failure =
    | TooFewColumns
    | NonNumericColumns
    | NonNumericWeights
    | WeightCountMismatch
    | ImpactCountMismatch
    | UnknownImpact
    | EmptyReduction

  /** What `validate_inputs` hands on: the data part, the parsed weights and the impact tokens. */
  datatype Inputs = Inputs(data: Matrix, criteria: nat, weights: Vector, impacts: seq<string>)

  /** `float(t)` for every token. */
  function ParseWeights(tokens: seq<string>): (w: Vector)
    requires forall t :: t in tokens ==> IsWeightToken(t)
    ensures |w| == |tokens|
    ensures forall i :: 0 <= i < |w| ==> w[i] == ParseWeight(tokens[i]) && w[i] >= 0.0
  {
    seq(|tokens|, i requires 0 <= i < |tokens| => ParseWeight(tokens[i]))
  }

  /**
   * `validate_inputs` without its file checks: the guards run in the order of
   * the script and the first that fails decides the error. The numeric-column
   * check is taken as the precondition `f.Numeric()` for a table with rows;
   * a table with no data rows is the one case it decides here, because pandas
   * gives a column without values the `object` dtype, so no column counts as
   * numeric and the check fails.
   */
  function ValidateInputs(f: Frame, weights: string, impacts: string): (r: Result<Inputs, Failure>)
    requires f.Numeric()
    ensures r.Ok? ==>
              && f.Columns() >= 3 && |f.data| > 0
              && r.value.data == f.data && r.value.criteria == f.criteria
              && |r.value.weights| == f.criteria && |r.value.impacts| == f.criteria
              && (forall j :: 0 <= j < f.criteria ==> r.value.weights[j] >= 0.0)
              && (forall j :: 0 <= j < f.criteria ==> IsImpact(r.value.impacts[j]))
  {
    if f.Columns() < 3 then Err(TooFewColumns)
    else if |f.data| == 0 then Err(NonNumericColumns)
    else
      var tokens := Split(weights, ',');
      if !(forall t :: t in tokens ==> IsWeightToken(t)) then Err(NonNumericWeights)
      else
        var w := ParseWeights(tokens);
        var symbols := Split(impacts, ',');
        if |w| != f.criteria then Err(WeightCountMismatch)
        else if |symbols| != f.criteria then Err(ImpactCountMismatch)
        else if !(forall t :: t in symbols ==> IsImpact(t)) then Err(UnknownImpact)
        else Ok(Inputs(f.data, f.criteria, w, symbols))
  }

  /** Each guard rejects exactly the arguments that pass the guards before it and fail it. */
  lemma ValidationFailures(f: Frame, weights: string, impacts: string)
    requires f.Numeric()
    ensures var r := ValidateInputs(f, weights, impacts);
            var tokens, symbols := Split(weights, ','), Split(impacts, ',');
            && (r == Err(TooFewColumns) <==> f.criteria < 2)
            && (r == Err(NonNumericColumns) <==> f.criteria >= 2 && |f.data| == 0)
            && (r == Err(NonNumericWeights) <==>
                  f.criteria >= 2 && |f.data| > 0 && exists t :: t in tokens && !IsWeightToken(t))
            && (r == Err(WeightCountMismatch) <==>
                  f.criteria >= 2 && |f.data| > 0 && (forall t :: t in tokens ==> IsWeightToken(t)) &&
                  |tokens| != f.criteria)
            && (r == Err(ImpactCountMismatch) <==>
                  f.criteria >= 2 && |f.data| > 0 && (forall t :: t in tokens ==> IsWeightToken(t)) &&
                  |tokens| == f.criteria && |symbols| != f.criteria)
            && (r == Err(UnknownImpact) <==>
                  f.criteria >= 2 && |f.data| > 0 && (forall t :: t in tokens ==> IsWeightToken(t)) &&
                  |tokens| == f.criteria == |symbols| && exists t :: t in symbols && !IsImpact(t))
  {
    var r := ValidateInputs(f, weights, impacts);
    var tokens, symbols := Split(weights, ','), Split(impacts, ',');
    if f.criteria < 2 {
      assert r == Err(TooFewColumns);
    } else if |f.data| == 0 {
      assert r == Err(NonNumericColumns);
    } else if !(forall t :: t in tokens ==> IsWeightToken(t)) {
      assert r == Err(NonNumericWeights);
    } else if |tokens| != f.criteria {
      assert |ParseWeights(tokens)| == |tokens|;
      assert r == Err(WeightCountMismatch);
    } else if |symbols| != f.criteria {
      assert |ParseWeights(tokens)| == |tokens|;
      assert r == Err(ImpactCountMismatch);
    } else if !(forall t :: t in symbols ==> IsImpact(t)) {
      assert |ParseWeights(tokens)| == |tokens|;
      assert r == Err(UnknownImpact);
    } else {
      assert |ParseWeights(tokens)| == |tokens|;
      assert r.Ok?;
    }
  }

  /**
   * Arguments written as weight tokens and impact signs joined by commas
   * are accepted for any table with rows, and validation gives back those
   * very tokens and signs.
   */
  lemma ValidationAccepts(f: Frame, tokens: seq<string>, symbols: seq<string>)
    requires f.Numeric() && f.criteria >= 2
    requires |tokens| == f.criteria == |symbols|
    requires forall t :: t in tokens ==> IsWeightToken(t)
    requires forall t :: t in symbols ==> IsImpact(t)
    ensures ValidateInputs(f, Join(tokens, ','), Join(symbols, ',')) ==
            if |f.data| == 0 then Err(NonNumericColumns)
            else Ok(Inputs(f.data, f.criteria, ParseWeights(tokens), symbols))
  {
    if |f.data| == 0 {
      return;
    }
    var weights, impacts := Join(tokens, ','), Join(symbols, ',');
    assert Split(weights, ',') == tokens by {
      forall t | t in tokens
        ensures ',' !in t
      {
        WeightTokenShape(t);
        assert forall i :: 0 <= i < |t| ==> t[i] != ',';
      }
      SplitJoin(tokens, ',');
    }
    assert Split(impacts, ',') == symbols by {
      forall t | t in symbols
        ensures ',' !in t
      {
      }
      SplitJoin(symbols, ',');
    }
    assert |ParseWeights(tokens)| == f.criteria;
  }

  /** A table with a single criterion column is turned away before anything else is read. */
  lemma TooFewColumnsExample()
    ensures ValidateInputs(Frame(1, []), "1", "+") == Err(TooFewColumns)
  {
  }

  /** A signed weight fails the digit check. */
  lemma SignedWeightExample(data: Matrix, weights: string, impacts: string)
    requires |data| > 0 && Rectangular(data, 3) && weights == "1,-1,1" && impacts == "+,+,+"
    ensures ValidateInputs(Frame(3, data), weights, impacts) == Err(NonNumericWeights)
  {
    SplitThree("1", "-1", "1", weights);
    RejectedWeightTokens();
  }

  /** Two weights for three criteria. */
  lemma WeightCountExample(data: Matrix, weights: string, impacts: string)
    requires |data| > 0 && Rectangular(data, 3) && weights == "1,1" && impacts == "+,+,+"
    ensures ValidateInputs(Frame(3, data), weights, impacts) == Err(WeightCountMismatch)
  {
    SplitTwo("1", "1", weights);
    OneIsWeight();
  }

  /** One impact for two criteria. */
  lemma ImpactCountExample(data: Matrix, weights: string, impacts: string)
    requires |data| > 0 && Rectangular(data, 2) && weights == "1,1" && impacts == "+"
    ensures ValidateInputs(Frame(2, data), weights, impacts) == Err(ImpactCountMismatch)
  {
    SplitTwo("1", "1", weights);
    assert Split(impacts, ',') == ["+"];
    OneIsWeight();
  }

  /** An impact other than `+` or `-`. */
  lemma UnknownImpactExample(data: Matrix, weights: string, impacts: string)
    requires |data| > 0 && Rectangular(data, 2) && weights == "1,1" && impacts == "+,*"
    ensures ValidateInputs(Frame(2, data), weights, impacts) == Err(UnknownImpact)
  {
    SplitTwo("1", "1", weights);
    SplitTwo("+", "*", impacts);
    OneIsWeight();
    assert !IsImpact(Split(impacts, ',')[1]);
  }

  /** `s.split(',')` of `s` written as three comma-free pieces joined by commas. */
  lemma SplitThree(a: string, b: string, c: string, s: string)
    requires ',' !in a && ',' !in b && ',' !in c
    requires s == a + [','] + b + [','] + c
    ensures Split(s, ',') == [a, b, c]
  {
    assert [a, b, c][1..] == [b, c];
    assert [b, c][1..] == [c];
    assert Join([b, c], ',') == b + [','] + c;
    assert Join([a, b, c], ',') == a + [','] + (b + [','] + c);
    assert a + [','] + (b + [','] + c) == s;
    SplitJoin([a, b, c], ',');
  }

  /** `s.split(',')` of `s` written as two comma-free pieces joined by a comma. */
  lemma SplitTwo(a: string, b: string, s: string)
    requires ',' !in a && ',' !in b
    requires s == a + [','] + b
    ensures Split(s, ',') == [a, b]
  {
    assert [a, b][1..] == [b];
    assert Join([a, b], ',') == a + [','] + b;
    SplitJoin([a, b], ',');
  }

  lemma OneIsWeight()
    ensures IsWeightToken("1")
  {
    assert RemoveFirst("1", '.') == "1";
  }

  // ---------------------------------------------------------------------
  // calculate_topsis
  // ---------------------------------------------------------------------

  /** `dist_worst / total_dist` after `total_dist[total_dist == 0] = 1`. */
  function GuardedScores(dBest: Vector, dWorst: Vector): (s: Vector)
    requires |dBest| == |dWorst|
    ensures |s| == |dBest|
  {
    var total := ZeroToOne(Totals(dBest, dWorst));
    seq(|dBest|, i requires 0 <= i < |dBest| => dWorst[i] / total[i])
  }

  /** The scores `calculate_topsis` returns for a non-empty matrix. */
  function Scores(sqrt: real -> real, x: Matrix, m: nat, w: Vector, impacts: seq<string>): (s: Vector)
    requires |x| > 0 && Rectangular(x, m) && |w| == m && |impacts| == m
    ensures |s| == |x|
  {
    GuardedScores(BestDistances(sqrt, x, m, w, impacts), WorstDistances(sqrt, x, m, w, impacts))
  }

  /**
   * `calculate_topsis`. With no rows, `np.max` of the first (empty) column
   * raises, which the model reports as `EmptyReduction`.
   */
  method CalculateTopsis(sqrt: real -> real, x: Matrix, m: nat, w: Vector, impacts: seq<string>)
    returns (r: Result<Vector, Failure>)
    requires Rectangular(x, m) && |w| == m && |impacts| == m
    ensures r.Err? <==> |x| == 0 && m > 0
    ensures r.Err? ==> r.error == EmptyReduction
    ensures r.Ok? && |x| > 0 ==> r.value == Scores(sqrt, x, m, w, impacts)
    ensures r.Ok? && |x| == 0 ==> r.value == []
  {
    var weighted := NormalizeAndWeigh(sqrt, x, m, w);
    if |x| == 0 {
      if m > 0 {
        return Err(EmptyReduction);
      }
      return Ok([]);
    }
    var best, worst := IdealPoints(weighted, m, impacts);
    var dBest := Distances(sqrt, weighted, m, best);
    var dWorst := Distances(sqrt, weighted, m, worst);
    var t := Totals(dBest, dWorst);
    var total := new real[|t|](i requires 0 <= i < |t| => t[i]);
    assert total[..] == t;
    ReplaceZeroWithOne(total);
    var patched := total[..];
    r := Ok(seq(|x|, i requires 0 <= i < |x| => dWorst[i] / patched[i]));
  }

  // ---------------------------------------------------------------------
  // What the scores mean
  // ---------------------------------------------------------------------

  /**
   * Every guarded score lies in [0, 1]. It is 0 exactly for the rows at
   * distance zero from the ideal-worst point (the rows at distance zero from
   * both included), and 1 exactly for the rows at the ideal-best point but
   * away from the ideal-worst one.
   */
  lemma GuardedScoresRange(dBest: Vector, dWorst: Vector)
    requires |dBest| == |dWorst|
    requires forall i :: 0 <= i < |dBest| ==> dBest[i] >= 0.0 && dWorst[i] >= 0.0
    ensures forall i :: 0 <= i < |dBest| ==> 0.0 <= GuardedScores(dBest, dWorst)[i] <= 1.0
    ensures forall i :: 0 <= i < |dBest| ==> (GuardedScores(dBest, dWorst)[i] == 0.0 <==> dWorst[i] == 0.0)
    ensures forall i :: 0 <= i < |dBest| ==>
              (GuardedScores(dBest, dWorst)[i] == 1.0 <==> dBest[i] == 0.0 && dWorst[i] > 0.0)
  {
    var s := GuardedScores(dBest, dWorst);
    forall i | 0 <= i < |dBest|
      ensures 0.0 <= s[i] <= 1.0
      ensures s[i] == 0.0 <==> dWorst[i] == 0.0
      ensures s[i] == 1.0 <==> dBest[i] == 0.0 && dWorst[i] > 0.0
    {
      var t := dBest[i] + dWorst[i];
      if t == 0.0 {
        assert s[i] == 0.0 / 1.0;
      } else {
        assert s[i] == dWorst[i] / t;
        RatioBounds(dWorst[i], t);
        RatioOne(dWorst[i], t);
      }
    }
  }

  /**
   * The scores of `calculate_topsis` lie in [0, 1]; a row scores 0 exactly
   * when it coincides with the ideal-worst point and 1 exactly when it
   * coincides with the ideal-best point and not with the ideal-worst one.
   */
  lemma ScoresRange(sqrt: real -> real, x: Matrix, m: nat, w: Vector, impacts: seq<string>)
    requires IsSqrt(sqrt) && |x| > 0 && Rectangular(x, m) && |w| == m && |impacts| == m
    ensures var v, s := Weighted(sqrt, x, m, w), Scores(sqrt, x, m, w, impacts);
            forall i :: 0 <= i < |x| ==>
              && 0.0 <= s[i] <= 1.0
              && (s[i] == 0.0 <==> v[i] == IdealWorst(v, m, impacts))
              && (s[i] == 1.0 <==> v[i] == IdealBest(v, m, impacts) && v[i] != IdealWorst(v, m, impacts))
  {
    var v := Weighted(sqrt, x, m, w);
    var best, worst := IdealBest(v, m, impacts), IdealWorst(v, m, impacts);
    var dB, dW := Distances(sqrt, v, m, best), Distances(sqrt, v, m, worst);
    forall i | 0 <= i < |x|
      ensures dB[i] >= 0.0 && dW[i] >= 0.0
      ensures dB[i] == 0.0 <==> v[i] == best
      ensures dW[i] == 0.0 <==> v[i] == worst
    {
      DistanceZero(sqrt, v[i], best);
      DistanceZero(sqrt, v[i], worst);
    }
    GuardedScoresRange(dB, dW);
  }

  /**
   * When every weighted row is the same, both distances vanish everywhere
   * and the guard makes every score 0 instead of failing.
   */
  lemma DegenerateScores(sqrt: real -> real, x: Matrix, m: nat, w: Vector, impacts: seq<string>)
    requires IsSqrt(sqrt) && |x| > 0 && Rectangular(x, m) && |w| == m && |impacts| == m
    requires AllRowsEqual(Weighted(sqrt, x, m, w))
    ensures forall i :: 0 <= i < |x| ==> Scores(sqrt, x, m, w, impacts)[i] == 0.0
  {
    var v := Weighted(sqrt, x, m, w);
    AllRowsEqualIdeals(v, m, impacts);
    ScoresRange(sqrt, x, m, w, impacts);
  }

  /** Two identical rows of the table get the same score and hence the same rank. */
  lemma IdenticalRowsTie(sqrt: real -> real, x: Matrix, m: nat, w: Vector, impacts: seq<string>, i: nat, k: nat)
    requires |x| > 0 && Rectangular(x, m) && |w| == m && |impacts| == m
    requires i < |x| && k < |x| && x[i] == x[k]
    ensures Scores(sqrt, x, m, w, impacts)[i] == Scores(sqrt, x, m, w, impacts)[k]
    ensures MinRanks(Scores(sqrt, x, m, w, impacts))[i] == MinRanks(Scores(sqrt, x, m, w, impacts))[k]
  {
    var v := Weighted(sqrt, x, m, w);
    assert v[i] == v[k];
    MinRanksOrder(Scores(sqrt, x, m, w, impacts), i, k);
  }

  /**
   * Turning every impact round swaps the two ideal points, so each score
   * becomes its complement, except for rows whose two distances are both zero.
   */
  lemma FlippedScores(sqrt: real -> real, x: Matrix, m: nat, w: Vector, impacts: seq<string>)
    requires |x| > 0 && Rectangular(x, m) && |w| == m && |impacts| == m
    ensures var dB, dW := BestDistances(sqrt, x, m, w, impacts), WorstDistances(sqrt, x, m, w, impacts);
            forall i :: 0 <= i < |x| && dB[i] + dW[i] != 0.0 ==>
              Scores(sqrt, x, m, w, Flip(impacts))[i] == 1.0 - Scores(sqrt, x, m, w, impacts)[i]
  {
    var dB, dW := BestDistances(sqrt, x, m, w, impacts), WorstDistances(sqrt, x, m, w, impacts);
    FlipSwapsDistances(sqrt, x, m, w, impacts);
    forall i | 0 <= i < |x| && dB[i] + dW[i] != 0.0
      ensures Scores(sqrt, x, m, w, Flip(impacts))[i] == 1.0 - Scores(sqrt, x, m, w, impacts)[i]
    {
      assert Scores(sqrt, x, m, w, Flip(impacts))[i] == dB[i] / (dW[i] + dB[i]);
      assert Scores(sqrt, x, m, w, impacts)[i] == dW[i] / (dB[i] + dW[i]);
      Complement(dB[i], dW[i]);
    }
  }

  lemma Complement(a: real, b: real)
    requires b + a != 0.0
    ensures a / (b + a) == 1.0 - b / (a + b)
  {
    var t := a + b;
    assert b + a == t;
    var q := b / t;
    TimesQuotient(b, t);
    OneMinus(t, q);
    Quotient(a, t, 1.0 - q);
  }

  // ---------------------------------------------------------------------
  // topsis
  // ---------------------------------------------------------------------

  /** The effect of `topsis` on the table: validate, score, rank with `method='min'`. */
  method Topsis(sqrt: real -> real, f: Frame, weights: string, impacts: string)
    returns (r: Result<Ranked, Failure>)
    requires f.Numeric()
    ensures ValidateInputs(f, weights, impacts).Err? ==> r == Err(ValidateInputs(f, weights, impacts).error)
    ensures ValidateInputs(f, weights, impacts).Ok? ==>
              var inputs := ValidateInputs(f, weights, impacts).value;
              var s := Scores(sqrt, f.data, f.criteria, inputs.weights, inputs.impacts);
              r == Ok(Ranked(s, MinRanks(s)))
  {
    var v := ValidateInputs(f, weights, impacts);
    if v.Err? {
      return Err(v.error);
    }
    var inputs := v.value;
    assert inputs.criteria >= 2;
    var scores := CalculateTopsis(sqrt, inputs.data, inputs.criteria, inputs.weights, inputs.impacts);
    assert scores.value == Scores(sqrt, f.data, f.criteria, inputs.weights, inputs.impacts);
    r := Ok(Ranked(scores.value, MinRanks(scores.value)));
  }
}
