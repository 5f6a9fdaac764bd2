# HappyLens ranking core in Dafny

HappyLens explores a yearly country-happiness dataset. A user gives six
well-being factors (GDP, SocialSupport, LifeExpectancy, Freedom, Generosity,
Corruption) a weight in [0,1]. The tool scores every country by the weighted
sum of its factors and shows the ten best. The logic exists twice: in the text
interface (`cli/main.py`) and inline in the Streamlit dashboard
(`dashboard/app.py`). The dashboard also shows precomputed country clusters with
fixed descriptions.

This project models that logic:

- `Data.dfy` (`HappinessData`): the factors in canonical order, a factor cell
  (`Num`, `Missing` for NaN, `Text` for a non-numeric token), the raw CSV row,
  the loaded row and the ranked row.
- `Subsequence.dfy`: order-preserving row selection by a boolean mask and the
  positions it keeps.
- `Ranking.dfy`: pandas' never-failing numeric coercion, the weighted score with NaN
  propagation, the descending order with missing scores last, the sort and the
  ten-row cut. It also proves that any sorted permutation, cut to ten rows,
  is a correct top-10 ranking, whatever its tie order.
- `Cli.dfy`: `load_and_prepare_data`, `get_user_weights` and `compute_scores`.
  `get_user_weights` is a retry loop over a sequence of keyboard tokens.
  `compute_scores` coerces the columns of a copied frame in a loop, then scores,
  sorts and cuts. `main` is modelled as `Run`.
- `Dashboard.dfy`: the dashboard loader, the slider weight map, the
  personalised-ranking block, the cluster options, the cluster filter and the
  description lookup.

Numbers are `real`. A factor cell is a `Cell`: `Num` for a number, `Missing`
for NaN, `Text` for a non-numeric value before coercion. A keyboard token is an
`Option<real>`: `None` when it does not parse as a number. A score is an
`Option<real>`: `None` stands for NaN. The score of a row is `None` when any of
its six factors fails to coerce, even if that factor's weight is 0, because NaN
times 0 is NaN.

Points of behaviour worth stating, as the code has them:

- A stable sort would keep tied rows in input order. The code calls pandas'
  default `sort_values`, which is quicksort and not stable, so no contract here
  fixes the order of tied rows.
- With all weights 0 a row with a missing factor still scores NaN, because
  NaN × 0 is NaN (`ZeroWeightsScore`).
- A cluster id with no description raises `KeyError` in the code. Here it is
  `Failure(UnknownCluster(id))`.

## Model

| member | source | states |
|---|---|---|
| `Subsequence.Filter` | cli/main.py:15 | the selection keeps exactly the rows satisfying the mask, and never grows |
| `Subsequence.Positions` | cli/main.py:15 | the kept indices are strictly increasing, each satisfies the mask, and every index satisfying the mask is kept |
| `Subsequence.FilterAppend` | cli/main.py:15 | selecting from a concatenation is the concatenation of the selections, so relative order is kept |
| `Subsequence.FilterAtPositions` | cli/main.py:15 | the k-th kept row is the input row at the k-th position where the mask holds |
| `Cli.LoadAndPrepareData` | cli/main.py:14-17 | exactly the 2024 rows, in original order, duplicates kept; each keeps Country, HappinessScore and its factor cells unchanged and drops Year, Rank, upperwhisker and lowerwhisker |
| `Cli.DropAll` | cli/main.py:16 | dropping the columns maps each row to its projection and keeps the row count |
| `Cli.LoadAppend` | cli/main.py:15-16 | loading a concatenated table gives the two loads concatenated: no reordering, no deduplication |
| `Cli.LoadNoMatch` | cli/main.py:15 | a table with no 2024 row loads as the empty table, not an error |
| `Cli.Accepted` | cli/main.py:33-42 | the values stored from a token stream are the parsed tokens in [0,1], in order; all lie in [0,1] |
| `Cli.AcceptedPrefix` | cli/main.py:32-43 | what a prefix of the input stores is a prefix of what the whole input stores |
| `Cli.AcceptedStep` | cli/main.py:33-42 | reading one token stores its value if it parses and lies in [0,1], and stores nothing otherwise |
| `Cli.AcceptedAppend` | cli/main.py:33-42 | the values stored from two stretches of input, read one after the other, are concatenated |
| `Cli.Accepts` | cli/main.py:35-36 | a token is stored when it parses as a number w with 0 <= w <= 1; stated by `Cli.AcceptedStep` and `Cli.AcceptedBoundaries` |
| `Cli.AcceptedBoundaries` | cli/main.py:36 | 1.0001, -0.0001 and an unparsable token are rejected; exactly 0 and exactly 1 are accepted |
| `Cli.WeightsOf` | cli/main.py:31-37 | the weight map keyed by the six factors gives the k-th factor the k-th value |
| `Cli.StoreWeight` | cli/main.py:37 | storing the value for factor k extends a map of the first k factors to the first k+1, leaving the earlier ones unchanged |
| `Cli.AskFactor` | cli/main.py:33-42 | the retry loop for one factor returns the first accepted value after the current position and consumes every rejected token before it; if the input ends first it has consumed it all and found nothing to accept |
| `Cli.HoldsAllFactors` | cli/main.py:31-43 | once all six factors are stored, the map is the one the k-th accepted token per k-th factor determines |
| `Cli.GetUserWeights` | cli/main.py:23-43 | succeeds iff the input holds at least six accepted tokens; then its keys are exactly the six factors, every value is in [0,1], the k-th factor has the k-th accepted value, and reading stops right after the sixth accepted token; running out of input is EndOfInput |
| `Cli.CoerceColumn` | cli/main.py:58 | coercing one factor column keeps the row count, Country and HappinessScore, coerces that factor's cell in every row and changes no other factor |
| `Cli.ComputeScores` | cli/main.py:45-61 | the result is a top-10 ranking of the input projected to (Country, HappinessScore, Score) over the coerced factors, with missing scores after numeric ones; the input is not modified |
| `Cli.ThreeDistinctScores` | cli/main.py:61 | with three rows of distinct numeric scores, in any input order, every top-10 ranking lists them from highest to lowest |
| `Cli.GdpOnlyScenario` | cli/main.py:57-61 | A (0.9, 0.8), B (0.1, 0.1), C (all 0.5) weighted on GDP alone rank as A 0.9, C 0.5, B 0.1 |
| `Cli.Run` | cli/main.py:63-70 | a text session succeeds iff six weights are accepted, and then returns a top-10 ranking of the 2024 rows under those weights |
| `HappinessData.Factor.Index` | cli/main.py:21 | each factor sits at its index in the canonical factor list |
| `HappinessData.IndexInvertsFactors` | cli/main.py:21 | the canonical factor list has no repeats |
| `HappinessData.FactorsComplete` | cli/main.py:21 | every factor is in the canonical list |
| `HappinessData.FactorCells.Set` | cli/main.py:58 | overwriting one factor column changes that cell and no other |
| `Ranking.Coerce` | cli/main.py:58 | coercion never leaves text, keeps numbers as they are, and turns everything else into NaN |
| `Ranking.CoerceAll` | cli/main.py:57-58 | every factor cell of the row is coerced |
| `Ranking.WeightedSum` | cli/main.py:60 | the running sum of value times weight over the first n factors; stated by `Ranking.WeightedSumMissing` and `Ranking.ScoreClosedForm` |
| `Ranking.WeightedSumMissing` | cli/main.py:60 | a partial sum is missing exactly when one of the factors it covers is not a number |
| `Ranking.Score` | cli/main.py:57-60 | the score of a row: stated by `Ranking.ScoreClosedForm` (the six-term sum) and `Ranking.ScoreMissingIff` (NaN propagation) |
| `Ranking.ScoreMissingIff` | cli/main.py:57-60 | a score is missing exactly when some factor fails to coerce, whatever the weights |
| `Ranking.ScoreClosedForm` | cli/main.py:60 | a numeric score is the sum over the six factors of value times weight |
| `Ranking.UniformScore` | cli/main.py:60 | with all weights equal to c, the score is c times the unweighted factor sum |
| `Ranking.ZeroWeightsScore` | cli/main.py:60 | with all weights 0 the score is 0, except that a row with a missing factor still scores NaN |
| `Ranking.UniformWeightsKeepOrder` | cli/main.py:60-61 | equal positive weights order rows exactly as their unweighted sums do |
| `Ranking.Insert` | cli/main.py:61 | inserting into a sorted ranking keeps it sorted and adds exactly one row |
| `Ranking.SortByScore` | cli/main.py:61 | the sort returns a permutation, non-increasing in score, with missing scores last |
| `Ranking.Projected` | cli/main.py:61 | each row becomes (Country, HappinessScore, Score), one per input row, in order |
| `Ranking.Top` | cli/main.py:61 | the cut keeps the first min(10, n) rows, in order |
| `Ranking.TopOfRanking` | cli/main.py:61 | the first ten rows of any sorted permutation have min(10, n) rows and are sorted; each input row is used at most once; no row left out scores above a row kept |
| `Dashboard.LoadHappinessData` | dashboard/app.py:14-18 | exactly the 2024 rows, in original order, without Year, Rank, upperwhisker and lowerwhisker |
| `Dashboard.SliderValue` | dashboard/app.py:113 | a slider value lies in [0,1], and the default position gives 0.5 |
| `Dashboard.SliderWeights` | dashboard/app.py:107-113 | the slider map has exactly the six factors as keys, the k-th slider's value for the k-th factor, every value in [0,1] |
| `Dashboard.PersonalizedRanking` | dashboard/app.py:115-120 | the ranking block returns a top-10 ranking of the rows under the slider weights, missing scores last |
| `Dashboard.InsertDistinct` | dashboard/app.py:128 | adding an id keeps the options strictly increasing and adds exactly that id |
| `Dashboard.ClusterOptions` | dashboard/app.py:128 | the options are strictly increasing and are exactly the cluster ids present in the table |
| `Dashboard.FilterByCluster` | dashboard/app.py:130 | exactly the table rows with the selected id, in table order |
| `Dashboard.CardsOrderedByAverage` | dashboard/app.py:32-61 | the description table has cards for ids 0 to 3 only, and its average scores order them 2 > 0 > 1 > 3 |
| `Dashboard.Describe` | dashboard/app.py:133 | the description lookup succeeds for ids 0, 1, 2 and 3 and fails with UnknownCluster for any other id; on success it returns that id's card |
| `Dashboard.DescriptionsCoverOptions` | dashboard/app.py:128-133 | every selectable cluster has a description iff every id in the table is in 0..3 |
| `Dashboard.ViewCluster` | dashboard/app.py:128-133 | for a selected option, the view succeeds iff the id is in 0..3, and then shows that id's card and a non-empty list of exactly that cluster's rows, in table order with duplicates kept |

## Left out

- CSV reading and the hardcoded file paths: the tables are inputs already parsed into rows.
- `st.cache_data` caching: loading is a pure function here.
- The prompts and messages of the weight loop, and the printing of the result.
- A token is `Some(r)` when `float()` parses it, else `None`. "nan" and "inf" parse in Python but fail the range test. So they behave like `None`: rejected and consumed, with only a different message.
- Parsing numeric text inside a factor column: a cell pandas can read as a number is `Num` already, and any other text is `Text`.
- IEEE-754 rounding: scores and slider values are exact reals, and NaN is `None`.
- The order of tied rows in the sort. pandas' default quicksort is not stable, so no contract fixes it; the sort inside the model is one valid choice.
- Columns other than Country, Year, Rank, HappinessScore, upperwhisker, lowerwhisker and the six factors, a missing column, and a missing Year value. A row always has exactly these columns, and Year is an integer.
- A NaN Country or HappinessScore: they are `string` and `real` here, so such a cell cannot be represented, although the code passes it through to the output unchanged.
- Cli.ComputeScores: requires a weight for every factor; the source would raise KeyError otherwise, and both callers always pass all six.
- Dashboard.ViewCluster: requires the selected id to be one of the options, which the radio widget guarantees; an empty cluster table, where the radio yields None, is not modelled.
- The Streamlit layout (`st.columns`, `cols[i % 3]`), the button that triggers the ranking, the radio widget and the markdown card.
- The Plotly choropleth, its colour map and the three `add_scattergeo` labels.
- The offline clustering that produced the cluster table: it is an opaque input.
