# TOPSIS ranking, modelled in Dafny

This project models the TOPSIS computation of the repository as it exists in
two front ends. TOPSIS is the Hwang–Yoon method for ranking alternatives by
their closeness to an ideal solution.

- The command-line script `Part_1_Script/topsis.py` checks its arguments in
  `validate_inputs` and scores the rows in `calculate_topsis`. The score
  division is guarded: a zero sum of distances is replaced by 1. `topsis` then
  ranks the scores with pandas' `method='min'`.
- The web helper `calculate_topsis` in `Part_3_Web_App/app.py` runs the same
  stages behind coarser checks. Its score division is unguarded, and it ranks
  with pandas' default average rule followed by a cast to `int`.

Both front ends run the same stages:

1. Each column is divided by its Euclidean norm; a zero norm is replaced by 1
   in place.
2. The result is multiplied by the weights.
3. An ideal-best and an ideal-worst value is chosen per column by a loop over
   the impacts: maximum and minimum for `+`, swapped for anything else.
4. The Euclidean distance of every row to both ideal points is taken.
5. Each row is scored as `d_worst / (d_best + d_worst)`, and the rows are ranked.

Numbers are reals. `np.sqrt` is a function parameter `sqrt`; the predicate
`Vectors.IsSqrt` requires it to return, for every non-negative `x`, the
non-negative real whose square is `x`. In-place steps keep their form:
- `rss[rss == 0] = 1` and `total_dist[total_dist == 0] = 1` are the method
  `TopsisCore.ReplaceZeroWithOne`, which works on an array.
- The appending loop that builds the ideal points is the method
  `TopsisCore.IdealPoints`.
- `calculate_topsis` of the script, `topsis`, and the web helper are methods.
  Each method's result is given exactly, in every case, by specification functions, and the properties are
  proved as lemmas about those functions.

Modules:
- `Results` defines `Result`.
- `Text` covers `str.split`, `replace('.', '', 1)`, `isdigit`, and `float` on
  accepted weight tokens.
- `Vectors` covers sums of squares, `np.max` and `np.min`, the square root,
  and the arithmetic facts the proofs use.
- `TopsisCore` holds the shared stages.
- `Ranking` covers the `min` and truncated-average ranks.
- `TopsisScript` models the command-line script.
- `WebApp` models the web helper.
- `Variants` compares the two front ends.

The two front ends part ways in four places:
- The script guards the score division; the web helper does not. For a table
  whose weighted rows all coincide, the web helper computes `0/0`; the cast
  to `int` then raises, and the helper returns an error message.
  `WebApp.CalculateTopsis` models this as `NonFiniteScore`.
- The script ranks with `min`; the web helper ranks with the truncated
  average rule, which `Ranking.TruncatedRanks` models.
- A table with a header and no data rows is read by pandas with `object`
  columns. The script's numeric-column check rejects it
  (`NonNumericColumns`). The web helper's `astype(float)` accepts it, and
  `np.max` of an empty column then raises (`EmptyReduction`).
- The script admits a weight token only if it is made of digits and at most
  one `.`. The web helper hands every token to `float`, which also reads a
  sign, an exponent and more. So `-1,1` is `NonNumericWeights` for the
  script, while the web helper scores with a weight of −1.
  `Variants.SignedWeightDiffers` states this case.

## Model

| member | source | states |
|---|---|---|
| Text.Split | Part_1_Script/topsis.py:45 | `str.split(',')`: at least one piece, no piece holds the separator, and joining the pieces with the separator gives back the argument |
| Text.SplitJoin | Part_1_Script/topsis.py:56 | splitting a comma-joined list of comma-free tokens gives back exactly that list |
| Text.RemoveFirst | Part_1_Script/topsis.py:49 | `replace('.', '', 1)`: without a `.` the token is unchanged; otherwise the multiset of characters loses exactly one `.` and the length drops by one |
| Text.RemoveFirstDeletesFirst | Part_1_Script/topsis.py:49 | the `.` removed is the first one: the result is the token with one position deleted, that position holds `.`, and no `.` comes before it |
| Text.WeightTokenShape | Part_1_Script/topsis.py:49 | a weight token passes the digit check iff all its characters are digits or `.`, it holds at most one `.`, and it holds at least one digit |
| Text.RejectedWeightTokens | Part_1_Script/topsis.py:49 | `""`, `-1`, `1.2.3`, `1e3` and `.` are all rejected |
| Text.ParseWeight | Part_1_Script/topsis.py:53 | `float(w)` of an accepted token: the token with its first `.` removed, read as a whole number, over ten to the count of digits after the `.`; non-negative. Its value on every token is stated in `ParseWeightValue` and `ParseWeightDecimal` |
| Text.ParseWeightValue | Part_1_Script/topsis.py:53 | `float` of every accepted token: without a `.` it is the number its digits spell; with one, the digits before the `.` plus the digits after it over ten to their count |
| Text.ParseWeightDecimal | Part_1_Script/topsis.py:49-53 | any two digit strings, not both empty, joined by a `.` form an accepted token whose value is the whole part plus the fraction |
| Text.NumberAppend | Part_1_Script/topsis.py:53 | the digits of `a` followed by those of `b` spell `a` times ten to the length of `b`, plus `b` |
| Text.ParseWeightExamples | Part_1_Script/topsis.py:53 | `2`, `0.25` and `.5` are accepted and parse to 2, 0.25 and 0.5 |
| Vectors.SumSquaresZero | Part_1_Script/topsis.py:83 | a sum of squares is zero iff every entry is zero |
| Vectors.SumSquaresScale | Part_1_Script/topsis.py:88 | scaling a vector by `c` scales its sum of squares by `c*c` |
| Vectors.MaxIsGreatest | Part_1_Script/topsis.py:103 | `np.max` bounds every entry from above and is one of the entries |
| Vectors.MinIsLeast | Part_1_Script/topsis.py:104 | `np.min` bounds every entry from below and is one of the entries |
| Vectors.DiffZero | Part_1_Script/topsis.py:114 | a difference vector is all zero iff its operands are equal |
| Vectors.SqrtZero | Part_1_Script/topsis.py:83 | the square root is non-negative and is zero iff its argument is zero |
| TopsisCore.ZeroToOne | Part_1_Script/topsis.py:86 | after `rss[rss == 0] = 1` every zero entry is 1, every non-zero entry is unchanged, and so no entry is zero |
| TopsisCore.ReplaceZeroWithOne | Part_1_Script/topsis.py:86 | the in-place patch leaves the array equal to `ZeroToOne` of its old contents |
| TopsisCore.ColumnNorms | Part_1_Script/topsis.py:83 | `np.sqrt(np.sum(x**2, axis=0))`: one norm per criterion column, the square root of the column's sum of squares. Its meaning is in `ColumnNormZero` |
| TopsisCore.Normalized | Part_1_Script/topsis.py:83-88 | `x / rss` after the zero patch: every entry divided by its column's norm, or by 1 for an all-zero column. Its meaning is in `NormalizedZeroColumn` and `NormalizedColumn` |
| TopsisCore.Weighted | Part_1_Script/topsis.py:83-91 | `normalized_data * weights`: entry `(i, j)` of the normalised matrix times `w[j]`, same shape as the table. The in-place route to it is `NormalizeAndWeigh` |
| TopsisCore.ColumnNormZero | Part_1_Script/topsis.py:83 | a column norm is non-negative and is zero iff the column is all zeros |
| TopsisCore.NormalizedZeroColumn | Part_1_Script/topsis.py:83-88 | an all-zero column is divided by 1 and stays all zero |
| TopsisCore.NormalizedColumn | Part_1_Script/topsis.py:83-88 | any other column has a positive norm, every entry is divided by it, and the normalised column has sum of squares 1 |
| TopsisCore.NormalizeAndWeigh | Part_1_Script/topsis.py:83-91 | the norms are computed into an array, patched in place, used to divide, and the result weighted; the outcome equals the weighted normalised matrix |
| TopsisCore.IdealPoints | Part_1_Script/topsis.py:97-110 | the appending loop over the impacts yields exactly the per-column ideal-best and ideal-worst points |
| TopsisCore.IdealBest | Part_1_Script/topsis.py:100-107 | one value per impact: the column maximum for `+`, the column minimum for anything else. Its meaning is in `IdealBounds`, `MaxIsGreatest` and `MinIsLeast` |
| TopsisCore.IdealWorst | Part_1_Script/topsis.py:100-107 | one value per impact: the column minimum for `+`, the column maximum for anything else. Its meaning is in `IdealBounds` and `FlipSwapsIdeals` |
| TopsisCore.IdealBounds | Part_1_Script/topsis.py:100-107 | for `+` every column entry lies between worst and best; otherwise between best and worst; both ideal values are entries of some row |
| TopsisCore.Distances | Part_1_Script/topsis.py:114-115 | `np.sqrt(np.sum((v - p)**2, axis=1))`: one Euclidean distance per row to the point `p`. Its meaning is in `DistanceZero` and `DistancesNonNegative` |
| TopsisCore.DistanceZero | Part_1_Script/topsis.py:114-115 | a distance is non-negative and is zero iff the row equals the point |
| TopsisCore.DistancesNonNegative | Part_1_Script/topsis.py:114-115 | every entry of a distance vector is non-negative |
| TopsisCore.DegenerateTotals | Part_1_Script/topsis.py:119-120 | some row has zero total distance iff all weighted rows coincide iff every row has zero total distance |
| TopsisCore.SameIdealsAllRowsEqual | Part_1_Script/topsis.py:100-107 | when the two ideal points are equal, every row equals them |
| TopsisCore.AllRowsEqualIdeals | Part_1_Script/topsis.py:100-107 | when all rows coincide, both ideal points equal that row |
| TopsisCore.FlipSwapsDistances | Part_1_Script/topsis.py:102-107 | reversing every impact swaps the best and worst distance vectors |
| Ranking.CountGreaterZero | Part_1_Script/topsis.py:135 | no score exceeds `x` iff `x` bounds all scores |
| Ranking.CountGreaterBelow | Part_1_Script/topsis.py:135 | for `x > y`, the scores above `y` include all those above or equal to `x` |
| Ranking.MinRanks | Part_1_Script/topsis.py:135 | `rank(ascending=False, method='min')`: one rank per score, one plus the number of strictly greater scores. Its meaning is in `MinRanksOrder`, `MinRankOne` and `MinRanksBounds` |
| Ranking.MinRanksBounds | Part_1_Script/topsis.py:135 | every `min` rank lies in `[1, n]` |
| Ranking.MinRanksOrder | Part_1_Script/topsis.py:135 | one rank is smaller than another iff its score is greater; ranks are equal iff scores are equal |
| Ranking.MinRankOne | Part_1_Script/topsis.py:135 | rank 1 goes exactly to the rows holding the highest score |
| Ranking.TwoWayTieExample | Part_1_Script/topsis.py:135 | `[0.9, 0.9, 0.5]` ranks `[1, 1, 3]` under both rules |
| Ranking.PositionSumClosed | Part_3_Web_App/app.py:69 | the sum of `e` consecutive positions from `a` is `e(2a + e - 1)/2` |
| Ranking.AverageRanks | Part_3_Web_App/app.py:69 | `rank(ascending=False)`: one rank per score, the mean of the positions `G + 1` to `G + E` that its tie group takes in descending order. Its meaning is in `AverageRankValue` |
| Ranking.Truncate | Part_3_Web_App/app.py:69 | `astype(int)` of one value, truncating toward zero: for `x >= 0` the integer `r` with `r <= x < r + 1`, for `x < 0` the one with `r - 1 < x <= r` |
| Ranking.TruncatedRanks | Part_3_Web_App/app.py:69 | `rank(ascending=False).astype(int)`: each average rank truncated. Its meaning is in `TruncatedRankValue`, `TruncatedRanksOrder`, `TruncatedRanksBounds` and `MinVersusTruncated` |
| Ranking.AverageRankValue | Part_3_Web_App/app.py:69 | the average rank of a row is the mean of its tie group's positions, `G + (E + 1)/2` |
| Ranking.TruncatedRankValue | Part_3_Web_App/app.py:69 | after `astype(int)` the rank is `G + (E + 1) div 2` |
| Ranking.TruncatedRanksBounds | Part_3_Web_App/app.py:69 | every truncated rank lies in `[1, n]` |
| Ranking.TruncatedRanksOrder | Part_3_Web_App/app.py:69 | a greater score still gets a strictly smaller rank; ranks are equal iff scores are equal |
| Ranking.MinVersusTruncated | Part_3_Web_App/app.py:69 | the truncated average rank is never smaller than the `min` rank, and equals it iff at most two rows share the score |
| Ranking.ThreeWayTieExample | Part_3_Web_App/app.py:69 | a three-way top tie ranks `[1, 1, 1]` under `min` but `[2, 2, 2]` truncated |
| TopsisScript.ParseWeights | Part_1_Script/topsis.py:53 | one weight per token, each the `float` value of its token, hence non-negative |
| TopsisScript.ValidateInputs | Part_1_Script/topsis.py:25-75 | on success: at least 3 columns, at least one data row, one non-negative weight and one `+`/`-` impact per criterion, and the data passed through |
| TopsisScript.ValidationFailures | Part_1_Script/topsis.py:25-73 | each error (too few columns, no numeric columns because the table has no rows, non-numeric weight, weight count, impact count, unknown impact) happens iff the earlier guards pass and that one fails |
| TopsisScript.ValidationAccepts | Part_1_Script/topsis.py:37-75 | comma-joined accepted tokens and `+`/`-` signs of the right count are accepted for a table with rows and give back those tokens, parsed, and signs; a table without rows gets `NonNumericColumns` |
| TopsisScript.TooFewColumnsExample | Part_1_Script/topsis.py:26-28 | a table with one criterion is rejected for its column count |
| TopsisScript.SignedWeightExample | Part_1_Script/topsis.py:49-51 | `1,-1,1` is rejected as non-numeric |
| TopsisScript.WeightCountExample | Part_1_Script/topsis.py:61-63 | two weights for three criteria are rejected |
| TopsisScript.ImpactCountExample | Part_1_Script/topsis.py:65-67 | one impact for two criteria is rejected |
| TopsisScript.UnknownImpactExample | Part_1_Script/topsis.py:70-73 | an impact `*` is rejected |
| TopsisScript.GuardedScores | Part_1_Script/topsis.py:119-122 | `dist_worst / total_dist` after `total_dist[total_dist == 0] = 1`: one score per row, the worst distance over the patched total. Its meaning is in `GuardedScoresRange`, `ScoresRange`, `DegenerateScores` and `FlippedScores` |
| TopsisScript.CalculateTopsis | Part_1_Script/topsis.py:77-123 | it fails, with `EmptyReduction`, iff there are no rows and at least one criterion (`np.max` of an empty column); for a non-empty table it returns the guarded scores, with each zero total distance replaced by 1 in place |
| TopsisScript.GuardedScoresRange | Part_1_Script/topsis.py:119-122 | for non-negative distances each guarded score is in `[0, 1]`; it is 0 iff the worst distance is 0, and 1 iff the best distance is 0 and the worst is not |
| TopsisScript.ScoresRange | Part_1_Script/topsis.py:77-123 | every score is in `[0, 1]`; it is 0 iff the row is the ideal-worst point, and 1 iff it is the ideal-best point but not the ideal-worst |
| TopsisScript.DegenerateScores | Part_1_Script/topsis.py:119-122 | when all weighted rows coincide, every score is 0 instead of a division fault |
| TopsisScript.IdenticalRowsTie | Part_1_Script/topsis.py:77-135 | identical table rows get equal scores and equal ranks |
| TopsisScript.FlippedScores | Part_1_Script/topsis.py:100-122 | reversing every impact turns each score `s` into `1 - s`, for every row whose total distance is non-zero |
| TopsisScript.Topsis | Part_1_Script/topsis.py:125-135 | a validation error is passed on; otherwise the result is the scores with their `min` ranks (validation has already turned away a table without rows) |
| WebApp.Validate | Part_3_Web_App/app.py:29-46 | on success: at least 3 columns, one weight per criterion, and the impact tokens, one `+`/`-` per criterion |
| WebApp.ValidationFailures | Part_3_Web_App/app.py:29-46 | too few columns, a length mismatch of weights or impacts, and an unknown impact each happen iff the earlier checks pass and that one fails; the impact symbols are checked only after the lengths |
| WebApp.UnguardedScores | Part_3_Web_App/app.py:66 | `s_worst / (s_best + s_worst)`: one score per row, defined only where no total is zero. Its meaning is in `ScoresRange`, `NonFiniteExactlyWhenRowsEqual` and `Variants.SameScoresWhenDefined` |
| WebApp.CalculateTopsis | Part_3_Web_App/app.py:29-69 | a check error is passed on; no rows gives `EmptyReduction`; if some row has zero total distance the result is `NonFiniteScore`; otherwise it is exactly the unguarded scores with their truncated average ranks |
| WebApp.NonFiniteExactlyWhenRowsEqual | Part_3_Web_App/app.py:63-69 | the score division is undefined for some row iff all weighted rows coincide |
| WebApp.ScoresRange | Part_3_Web_App/app.py:63-66 | where the scores are defined, every total distance is positive and every score is in `[0, 1]` |
| Variants.SameAcceptance | Part_3_Web_App/app.py:39-46 | for weight strings of accepted tokens, the script's checks pass iff the web checks pass on the parsed weights and the table has rows, and both then yield the same weights and impacts |
| Variants.SignedWeightDiffers | Part_3_Web_App/app.py:39 | for the weights `-1,1` and impacts `+,+` on a two-criterion table with rows, the script reports `NonNumericWeights`, while the web checks pass with the weights −1 and 1 |
| Variants.SameScoresWhenDefined | Part_3_Web_App/app.py:66 | where no total distance is zero, the web scores equal the script's scores |
| Variants.DegenerateTableDiffers | Part_1_Script/topsis.py:119-122 | when all weighted rows coincide, the script scores every row 0, while the web division is undefined |

## Left out

- File existence, extension, `pd.read_csv`, `to_csv`, `print` and `sys.exit` (Part_1_Script/topsis.py:1-23, 137-157) are I/O and process control. A failed check is an `Err` value.
- The pandas numeric-column check (Part_1_Script/topsis.py:37-41) and `astype(float)` (Part_3_Web_App/app.py:33-37) depend on library type inference. For a table with rows, the model takes "every entry is a number" as the precondition `Frame.Numeric`. The one case it decides is a table without rows, which the script rejects.
- The script normalises `data_part.values` as read (Part_1_Script/topsis.py:83). For an all-integer CSV that array is `int64`, so `**2` or `np.sum` wraps around silently once a square or a column's sum of squares passes 2^63−1. The norm is then wrong, and NaN when the sum wraps negative. The model computes on unbounded reals and does not capture this wrap-around. The web helper converts to `float` first (Part_3_Web_App/app.py:35).
- `float` on the web weights (Part_3_Web_App/app.py:39) is a foreign parser. `WebApp.CalculateTopsis` takes the parsed weights, so a token that `float` rejects is not modelled.
- The catch-all `except` (Part_3_Web_App/app.py:76-77) turns exceptions into message strings. The model names only the two failures the core can cause, `EmptyReduction` and `NonFiniteScore`.
- The Flask routes, upload handling, e-mail and configuration (Part_3_Web_App/app.py:1-23, 79-146) and Part_2_Package/setup.py are web, network and packaging code.
- IEEE-754 rounding, NaN and infinity are out of scope. Values are reals; a NaN score is the `NonFiniteScore` failure.
- `np.sqrt` is a parameter characterised by `IsSqrt`, not a computation, so no concrete table's scores are worked out; the concrete examples are stated on the ranking and validation steps only.
- `str.isdigit` is modelled over ASCII digits only. Non-ASCII characters that `isdigit` accepts are not modelled. These include ones such as `²` that `float` at Part_1_Script/topsis.py:53 then rejects with an uncaught error.
- The model reads a CLI weight token as its exact decimal value; Python's `float` gives the nearest double.
- Invariance of the ranking under multiplying every weight by the same positive constant is not proved: it needs nonlinear real arithmetic (products of a column maximum with a scale factor) that the proofs here keep out.
