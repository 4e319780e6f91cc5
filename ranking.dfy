/**
 * Ranking a score column in descending order, as
 * `Series.rank(ascending=False, ...)` does in pandas, under the two tie rules
 * the repository uses: `method='min'` (every tied row gets the best position
 * of its group) and the default `'average'` (every tied row gets the mean of
 * the positions of its group), the latter then cast to `int`, which truncates.
 */
module Ranking {
  import opened Vectors

  /** The two columns a run appends to the table: scores and ranks. */
  datatype Ranked = Ranked(scores: seq<real>, ranks: seq<int>)

  /** The number of entries of `s` strictly greater than `x`. */
  function CountGreater(s: seq<real>, x: real): (c: nat)
    ensures c <= |s|
  {
    if |s| == 0 then 0 else (if s[0] > x then 1 else 0) + CountGreater(s[1..], x)
  }

  /** The number of entries of `s` equal to `x`. */
  function CountEqual(s: seq<real>, x: real): (c: nat)
    ensures c <= |s|
  {
    if |s| == 0 then 0 else (if s[0] == x then 1 else 0) + CountEqual(s[1..], x)
  }

  /** No entry is greater than `x` exactly when `x` bounds `s` from above. */
  lemma {:induction false} CountGreaterZero(s: seq<real>, x: real)
    ensures CountGreater(s, x) == 0 <==> forall k :: 0 <= k < |s| ==> s[k] <= x
  {
    if |s| > 0 {
      CountGreaterZero(s[1..], x);
      assert forall k :: 1 <= k < |s| ==> s[k] == s[1..][k - 1];
    }
  }

  /** Entries greater than or equal to `x` are never more than all entries. */
  lemma {:induction false} CountAtMost(s: seq<real>, x: real)
    ensures CountGreater(s, x) + CountEqual(s, x) <= |s|
  {
    if |s| > 0 {
      CountAtMost(s[1..], x);
    }
  }

  /** An entry of `s` is counted among the entries equal to it. */
  lemma {:induction false} CountEqualMember(s: seq<real>, i: nat)
    requires i < |s|
    ensures CountEqual(s, s[i]) >= 1
  {
    if i > 0 {
      CountEqualMember(s[1..], i - 1);
    }
  }

  /**
   * Every entry greater than `y` is either greater than `x` or equal to it,
   * when `x > y`.
   */
  lemma {:induction false} CountGreaterBelow(s: seq<real>, x: real, y: real)
    requires x > y
    ensures CountGreater(s, y) >= CountGreater(s, x) + CountEqual(s, x)
  {
    if |s| > 0 {
      CountGreaterBelow(s[1..], x, y);
    }
  }

  // ---------------------------------------------------------------------
  // method='min'
  // ---------------------------------------------------------------------

  /** `s.rank(ascending=False, method='min')`: one plus the number of strictly greater scores. */
  function MinRanks(s: seq<real>): (r: seq<int>)
    ensures |r| == |s|
  {
    seq(|s|, i requires 0 <= i < |s| => 1 + CountGreater(s, s[i]))
  }

  /** Minimum ranks lie between 1 and the number of rows. */
  lemma MinRanksBounds(s: seq<real>)
    ensures forall i :: 0 <= i < |s| ==> 1 <= MinRanks(s)[i] <= |s|
  {
    forall i | 0 <= i < |s|
      ensures 1 <= MinRanks(s)[i] <= |s|
    {
      CountAtMost(s, s[i]);
      CountEqualMember(s, i);
    }
  }

  /** A greater score gets a better (smaller) rank than a smaller one, and equal scores equal ranks. */
  lemma MinRanksOrder(s: seq<real>, i: nat, k: nat)
    requires i < |s| && k < |s|
    ensures MinRanks(s)[i] < MinRanks(s)[k] <==> s[i] > s[k]
    ensures MinRanks(s)[i] == MinRanks(s)[k] <==> s[i] == s[k]
  {
    if s[i] > s[k] {
      CountGreaterBelow(s, s[i], s[k]);
      CountEqualMember(s, i);
    } else if s[k] > s[i] {
      CountGreaterBelow(s, s[k], s[i]);
      CountEqualMember(s, k);
    }
  }

  /** Rank 1 goes exactly to the rows holding the highest score. */
  lemma MinRankOne(s: seq<real>, i: nat)
    requires i < |s|
    ensures MinRanks(s)[i] == 1 <==> forall k :: 0 <= k < |s| ==> s[k] <= s[i]
  {
    CountGreaterZero(s, s[i]);
  }

  // ---------------------------------------------------------------------
  // method='average', then astype(int)
  // ---------------------------------------------------------------------

  /** The sum of the `e` consecutive positions `a, a + 1, ..., a + e - 1`. */
  function PositionSum(a: int, e: nat): int
    decreases e
  {
    if e == 0 then 0 else a + PositionSum(a + 1, e - 1)
  }

  lemma {:induction false} PositionSumClosed(a: int, e: nat)
    ensures 2 * PositionSum(a, e) == e * (2 * a + e - 1)
    decreases e
  {
    if e > 0 {
      PositionSumClosed(a + 1, e - 1);
      assert e * (2 * a + e - 1) == 2 * a + (e - 1) * (2 * (a + 1) + (e - 1) - 1);
    }
  }

  /**
   * `s.rank(ascending=False)`: in a descending order the rows tied with row
   * `i` take the positions after the `G` greater ones, `G + 1` to `G + E`;
   * each gets the mean of those positions.
   */
  function AverageRanks(s: seq<real>): (r: seq<real>)
    ensures |r| == |s|
  {
    seq(|s|, i requires 0 <= i < |s| =>
      var e := CountEqual(s, s[i]);
      if e == 0 then 0.0
      else PositionSum(CountGreater(s, s[i]) + 1, e) as real / e as real)
  }

  /** `int(x)`: truncation toward zero. */
  function Truncate(x: real): (r: int)
    ensures x >= 0.0 ==> 0 <= r && r as real <= x < r as real + 1.0
    ensures x < 0.0 ==> r <= 0 && r as real - 1.0 < x <= r as real
  {
    if x >= 0.0 then x.Floor else -((-x).Floor)
  }

  /** `s.rank(ascending=False).astype(int)` */
  function TruncatedRanks(s: seq<real>): (r: seq<int>)
    ensures |r| == |s|
  {
    seq(|s|, i requires 0 <= i < |s| => Truncate(AverageRanks(s)[i]))
  }

  /** The mean of the tied positions is `G + (E + 1) / 2`. */
  lemma AverageRankValue(s: seq<real>, i: nat)
    requires i < |s|
    ensures var g, e := CountGreater(s, s[i]), CountEqual(s, s[i]);
            AverageRanks(s)[i] == g as real + (e + 1) as real / 2.0
  {
    CountEqualMember(s, i);
    MeanOfPositions(CountGreater(s, s[i]), CountEqual(s, s[i]));
  }

  /** The mean of the positions `g + 1` to `g + e`. */
  lemma MeanOfPositions(g: nat, e: nat)
    requires e >= 1
    ensures PositionSum(g + 1, e) as real / e as real == g as real + (e + 1) as real / 2.0
  {
    PositionSumClosed(g + 1, e);
    var p := PositionSum(g + 1, e);
    var y := g as real + (e + 1) as real / 2.0;
    assert 2 * p == e * (2 * g + e + 1);
    assert p as real == e as real * y;
    Quotient(p as real, e as real, y);
  }

  /** After truncation, the rank is `G + (E + 1) / 2` in integer division. */
  lemma TruncatedRankValue(s: seq<real>, i: nat)
    requires i < |s|
    ensures TruncatedRanks(s)[i] == CountGreater(s, s[i]) + (CountEqual(s, s[i]) + 1) / 2
  {
    var g, e := CountGreater(s, s[i]), CountEqual(s, s[i]);
    AverageRankValue(s, i);
    var q := (e + 1) / 2;
    if (e + 1) % 2 == 0 {
      assert AverageRanks(s)[i] == (g + q) as real;
    } else {
      assert AverageRanks(s)[i] == (g + q) as real + 0.5;
    }
  }

  /** Truncated average ranks lie between 1 and the number of rows. */
  lemma TruncatedRanksBounds(s: seq<real>)
    ensures forall i :: 0 <= i < |s| ==> 1 <= TruncatedRanks(s)[i] <= |s|
  {
    forall i | 0 <= i < |s|
      ensures 1 <= TruncatedRanks(s)[i] <= |s|
    {
      TruncatedRankValue(s, i);
      CountAtMost(s, s[i]);
      CountEqualMember(s, i);
    }
  }

  /** A greater score still gets a strictly better rank, and equal scores equal ranks. */
  lemma TruncatedRanksOrder(s: seq<real>, i: nat, k: nat)
    requires i < |s| && k < |s|
    ensures TruncatedRanks(s)[i] < TruncatedRanks(s)[k] <==> s[i] > s[k]
    ensures TruncatedRanks(s)[i] == TruncatedRanks(s)[k] <==> s[i] == s[k]
  {
    TruncatedRankValue(s, i);
    TruncatedRankValue(s, k);
    CountEqualMember(s, i);
    CountEqualMember(s, k);
    if s[i] > s[k] {
      CountGreaterBelow(s, s[i], s[k]);
    } else if s[k] > s[i] {
      CountGreaterBelow(s, s[k], s[i]);
    }
  }

  /**
   * The truncated average rank is never better than the minimum rank, and
   * the two agree exactly when at most two rows share the score.
   */
  lemma MinVersusTruncated(s: seq<real>, i: nat)
    requires i < |s|
    ensures MinRanks(s)[i] <= TruncatedRanks(s)[i]
    ensures MinRanks(s)[i] == TruncatedRanks(s)[i] <==> CountEqual(s, s[i]) <= 2
  {
    TruncatedRankValue(s, i);
    CountEqualMember(s, i);
  }

  /** A two-way tie at the top followed by a lower score: both rules give 1, 1, 3. */
  lemma TwoWayTieExample()
    ensures MinRanks([0.9, 0.9, 0.5]) == [1, 1, 3]
    ensures TruncatedRanks([0.9, 0.9, 0.5]) == [1, 1, 3]
  {
    var s := [0.9, 0.9, 0.5];
    assert CountGreater(s, 0.9) == 0 && CountEqual(s, 0.9) == 2;
    assert CountGreater(s, 0.5) == 2 && CountEqual(s, 0.5) == 1;
    TruncatedRankValue(s, 0);
    TruncatedRankValue(s, 1);
    TruncatedRankValue(s, 2);
  }

  /** A three-way tie: the minimum rule gives 1, 1, 1 and the truncated mean 2, 2, 2. */
  lemma ThreeWayTieExample()
    ensures MinRanks([0.9, 0.9, 0.9]) == [1, 1, 1]
    ensures TruncatedRanks([0.9, 0.9, 0.9]) == [2, 2, 2]
  {
    var s := [0.9, 0.9, 0.9];
    assert CountGreater(s, 0.9) == 0 && CountEqual(s, 0.9) == 3;
    TruncatedRankValue(s, 0);
    TruncatedRankValue(s, 1);
    TruncatedRankValue(s, 2);
  }
}
