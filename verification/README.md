# Securities scoring, ranking and purchase arithmetic

This project models the computing core of a small Streamlit application for
comparing securities. The user uploads Excel sheets of held securities and of
candidate securities. The application then:

- scores six financial ratios of every row (self-capital ratio, ROE, ROA,
  PER, PBR and dividend yield), each from 1 to 5 or unscored;
- adds the six scores into a total score;
- ranks the rows by each raw ratio (top 10);
- averages each score column per industry;
- sizes a purchase of candidate securities, either by a share count or by a
  budget;
- simulates selling some held securities and buying one candidate with 70% of
  their market value.

The model fixes these modelling choices:

- Every cell is already coerced to a number or to missing (`Option<real>`, with
  `None` for pandas' NaN).
- Money and ratios are exact `real`s.
- Column sums and means follow pandas' default of skipping missing cells. A sum
  of nothing is 0 and a mean of nothing is missing.

Modules:

- `Wrappers`: `Option` and `Result`.
- `Seqs`: an order-keeping filter (the model of boolean-mask selection and
  `isin`).
- `Series`: skip-missing count, sum and mean.
- `Scoring`: the six band tables and scorers. `page1.py`, `page2.py` and
  `stapp.py` carry identical copies of them.
- `Records`: the sheet row, the score vector, `calculate_scores`, the total and
  the percent rescaling.
- `Ranking`: `nlargest` and `groupby('業種').mean()`.
- `Holdings`: the holdings page and the stand-alone app. It covers the column
  drop loop and the scoring pipeline.
- `Purchase`: the candidates page. It covers candidate scoring, company
  selection and the two sizing modes.
- `Substitution`: the substitution page. It covers held value, average
  dividends, the after-tax ceiling, the candidate purchase and the deltas.

Some reads of the source:

- The scorers use "at least" bands for self-capital ratio, ROE, ROA and
  dividend yield, so a threshold value belongs to the higher band. They use
  strict "below" bands for PER and PBR, so a threshold value belongs to the
  lower band.
- A price is divided by without any guard. Every division by a price therefore
  requires a positive price.
- In share-count mode the candidates page leaves the sheet's own `購入株数`
  column as it is. Only budget mode overwrites it. The model keeps that
  difference.

## Model

| member | source | states |
|---|---|---|
| Scoring.AtLeastScore | page1.py:12-52 | an "at least" chain scores 1..5, and the score is k or more exactly when the value reaches the k-threshold |
| Scoring.BelowScore | page1.py:54-80 | a strict "below" chain scores 1..5, and the score is k or more exactly when the value is strictly below the k-threshold |
| Scoring.BandsOf | home.py:33-84 | the six band tables; higher-is-better thresholds fall and lower-is-better thresholds rise |
| Scoring.MetricScore | page1.py:12-94 | missing in gives missing out and present in gives 1..5, in both directions; the score is characterised by the ratio's thresholds |
| Scoring.ScoreMonotone | page1.py:26-80 | ROE, ROA, self-capital ratio and yield scores never fall as the value rises; PER and PBR scores never rise |
| Scoring.SelfCapitalRatioBands | page1.py:12-24 | 80 scores 5 (the threshold is in the higher band), 79.999 scores 4, and so on down to 1 below 20 |
| Scoring.RoeBands | page1.py:26-38 | 15→5, 10→4, 5→3, 2→2, below 2→1 |
| Scoring.RoaBands | page1.py:40-52 | 10→5, exactly 7.5→4, 7.499→3, 5→3, 2.5→2, below 2.5→1 |
| Scoring.PerBands | page1.py:54-66 | below 10→5; exactly 10 scores 4, not 5; 15→3, 20→2, 25→1 |
| Scoring.PbrBands | page1.py:68-80 | below 1→5; exactly 1 scores 4; 2→3, 3→2, 4→1 |
| Scoring.DividendYieldBands | page1.py:82-94 | 5%→5, 4%→4, 3%→3, 2%→2, below 2%→1 |
| Scoring.NegativeValues | stapp.py:15-97 | negative ratios are not rejected: lowest band for higher-is-better ratios, highest band for PER and PBR |
| Records.ScoreRow | page1.py:124-132 | each of the six ratios goes to its own scorer, and the vector is well scored |
| Records.TotalScore | page1.py:134-137 | the total equals pandas' skip-missing sum of the six score cells; it lies between the number of scored components and five times that number, so in 0..30; it is 0 exactly when nothing is scored |
| Records.ColumnSum | stapp.py:136-137 | the skip-missing sum of the six score cells equals the sum of the present scores |
| Records.TotalMonotone | page2.py:131-132 | raising or filling in one score raises the total by exactly that change, and never lowers it |
| Records.RescaleYield | page1.py:120-121 | the dividend yield becomes 100 × the uploaded fraction, missing stays missing, and no other cell changes |
| Records.Combine | page1.py:134-137 | a combined row holds the sheet row, its six scores and their total |
| Records.ScoresDependOnRatiosOnly | page2.py:119-128 | rows with equal ratios get equal scores and totals |
| Records.AllMissingTotalsZero | stapp.py:136-137 | a row with no ratio present totals 0, not missing |
| Records.RescaleRows | stapp.py:115-116 | the rescaling applied row by row, keeping the row count |
| Records.CombineRows | stapp.py:130-137 | the combined frame row by row, keeping the row count |
| Seqs.Filter | page2.py:150 | the selection keeps exactly the rows that pass the mask, and never more rows than the frame has |
| Seqs.FilterAppend | page2.py:150 | the selection keeps frame order: selecting from a concatenation concatenates the selections |
| Seqs.FilterMultiset | page3.py:29 | a kept row appears exactly as often as in the frame, and a dropped row never appears |
| Series.MeanPresent | page3.py:32 | the mean is missing exactly when every cell is missing |
| Series.CountZero | page1.py:251 | no cell is counted exactly when every cell is missing |
| Series.SumAllMissing | page1.py:136-137 | a skip-missing sum over all-missing cells is 0 |
| Series.SumAppend | page3.py:35 | sums and counts split over concatenation |
| Series.SumWithin | page1.py:251 | the sum lies between the lower and the upper bound, each taken once per present cell |
| Series.MeanWithin | stapp.py:255 | the mean lies between any bounds on the present cells, so between their minimum and maximum |
| Series.MeanOfOne | stapp.py:255 | the mean of one cell is that cell, missing included |
| Series.SumNonNegative | page3.py:35 | a sum of non-negative cells is non-negative |
| Ranking.Insert | page1.py:144 | inserting into a descending sequence gives a descending permutation one row longer |
| Ranking.Slot | page1.py:144 | the place for a row in a descending sequence: every row before it is strictly larger, and no row from it on is larger |
| Ranking.InsertPlacement | page1.py:144 | insertion puts the row at that place, after the strictly larger rows and before the rows it ties with, and leaves every other row in order |
| Ranking.SortDescending | page1.py:144 | the sort result is descending and a permutation of its input, of the same length |
| Ranking.Ranked | page1.py:144 | only rows with a value are ranked |
| Ranking.Unranked | page1.py:144 | the rows that `nlargest` puts last are exactly those whose value is missing |
| Ranking.RankedSplit | page1.py:144 | every row of the frame is either ranked or missing, so the two parts hold the frame's rows exactly and add up to its length |
| Ranking.SortedRankedMultiset | stapp.py:146 | the sorted ranked rows hold every row with a value exactly as often as the frame does, and no row more often |
| Ranking.TopN | page1.py:142-145 | top-N returns N rows, or the whole frame when it has fewer; its first rows are the rows with a value, in descending order, up to N of them; after those come rows whose value is missing, in frame order |
| Ranking.TopTen | page1.py:142-152 | `display_top_10` shows ten rows of the frame, or all of them when there are fewer |
| Ranking.TopNFromFrame | page1.py:144 | top-N only returns rows of the frame, never more often than they occur |
| Ranking.TopNAllWhenFew | stapp.py:146 | when no more than N rows have a value, every row with a value comes back as often as it occurs |
| Ranking.TopNWhenMany | stapp.py:146 | when more than N rows have a value, top-N is the first N rows of the sorted rows with a value |
| Ranking.TopNLeftOutNotLarger | stapp.py:144-147 | when a row with a value is left out, every returned row has a value and none is smaller than the left-out row |
| Ranking.TopNOfSorted | page1.py:144 | ranking an already ranked frame returns its first N rows |
| Ranking.SortedIsFixed | stapp.py:146 | sorting a descending sequence leaves it unchanged |
| Ranking.Members | page1.py:251 | every member of an industry group carries that industry |
| Ranking.ScoreColumn | page1.py:251 | a score column holds each row's score as a numeric cell |
| Ranking.GroupMeans | page1.py:251 | each of a group's six mean scores is missing exactly when no member of the group has that score |
| Ranking.ColumnMissing | page1.py:251 | a column's mean is missing exactly when no row has that score |
| Ranking.IndustryMeans | stapp.py:255 | the table has one entry per industry that occurs, holding the column means of its members |
| Ranking.IndustryHasMembers | stapp.py:255 | every industry in the table has at least one member |
| Ranking.ColumnMeanWithin | page1.py:251 | a column mean is missing exactly when no row has the score, and otherwise lies within any bounds on the scores |
| Ranking.IndustryMeanWithin | page1.py:251 | an industry's mean score is missing exactly when no member is scored; otherwise it lies within the members' range and in 1..5 |
| Ranking.IndustryMeanOfOne | stapp.py:255 | a one-member industry reproduces that member's scores |
| Holdings.HistoryColumns | page1.py:113-115 | the past-year labels `配当利回り2020` … `配当利回り2024`, in year order |
| Holdings.DropYieldHistory | stapp.py:108-112 | the loop removes exactly the past-year labels that are present, and keeps every other column in order and with its multiplicity |
| Holdings.MetricColumnsKept | page1.py:113-117 | no metric column is dropped by the loop |
| Holdings.MissingMetric | page1.py:124-132 | reports a metric column the frame lacks exactly when one is missing |
| Holdings.ScoreHoldings | page1.py:113-137 | the score table of page1.py:113-137 fails exactly when the sheet has no rows (the score columns are never added) or a metric column is absent, naming that column; otherwise it drops the past-year columns, rescales the yield and scores every row consistently |
| Holdings.YieldScoredInPercent | page1.py:120-131 | the yield is scored in percent, as 100 × the uploaded fraction |
| Holdings.OtherScoresUnscaled | stapp.py:115-127 | the other five scores are those of the uploaded cells |
| Purchase.ScoreCandidates | page2.py:117-132 | scoring fails exactly when the sheet has no rows; otherwise the page rescales the yield unconditionally and scores every row consistently |
| Purchase.SelectCompanies | page2.py:150 | the filter keeps exactly the rows of the selected companies |
| Purchase.SelectCompaniesSpec | page2.py:150 | the filter keeps each selected row as often as it occurs, and in frame order |
| Purchase.Times | page2.py:156-157 | a missing cell times a number stays missing, and otherwise it is the product |
| Purchase.SharesForBudget | page2.py:160 | floor division: price × shares ≤ budget < price × (shares + 1), and the count is non-negative for a non-negative budget |
| Purchase.FloorOfQuotient | page3.py:53 | the floor of a quotient brackets the dividend |
| Purchase.SizeRow | page2.py:154-162 | count mode keeps the sheet's share cell; budget mode stores the floor-divided share count |
| Purchase.CountPlan | page2.py:156-157 | count mode: amount = price × count and dividend = per-share dividend × count, each missing when its cell is missing |
| Purchase.BudgetPlan | page2.py:160-162 | budget mode: a whole, non-negative share count; the amount is at most the budget, with less than one price left over; the dividend is for those shares |
| Purchase.SizeSelection | page2.py:154-162 | every selected row is sized the same way |
| Purchase.BudgetIsCountOfItsShares | page2.py:160-162 | budget mode is count mode for the share count the budget buys |
| Purchase.ExactShares | page2.py:160 | a budget that is an exact multiple of the price buys exactly that multiple |
| Purchase.ExactBudget | page2.py:160-161 | an exact multiple of the price is spent in full |
| Purchase.BudgetExample | page2.py:160-162 | 1,000,000 yen at 2,500 yen buys 400 shares for 1,000,000 yen |
| Purchase.BudgetFromSlider | page2.py:146 | every budget on the slider is a whole number of millions from 1,000,000 to 100,000,000 |
| Substitution.HeldRows | page3.py:29 | the held rows are exactly the frame's rows of the selected securities |
| Substitution.AverageDividend | page3.py:32 | the four-year average is missing exactly when all four years are missing |
| Substitution.AverageDividendSpec | page3.py:32 | a present four-year average lies within any bounds on the years present |
| Substitution.FullHistoryAverage | page3.py:32 | with all four years present, the average is their sum over 4 |
| Substitution.SumOfSelected | page3.py:29-35 | summing a column over the selected rows equals summing it over the whole frame with the unselected rows counted as missing |
| Substitution.HeldValue | page3.py:35 | the held value is the skip-missing sum of `時価` over the whole frame, unselected rows counting as missing |
| Substitution.HeldDividends | page3.py:98 | the held dividends are the skip-missing sum of `配当金平均` over the whole frame, unselected rows counting as missing |
| Substitution.HeldValueStep | page3.py:29-35 | held value adds a row's `時価` exactly when the row is selected and the value is present; every other row adds nothing |
| Substitution.HeldValueNonNegative | page3.py:35 | non-negative market values give a non-negative held value |
| Substitution.Ceiling | page3.py:39 | for a non-negative held value the ceiling lies in 0..held value, and 30% of the held value is kept back |
| Substitution.Trunc | page3.py:43 | Python's `int()` truncates toward zero |
| Substitution.FirstIndex | page3.py:50 | the index of the first row with the name, and no earlier row has it |
| Substitution.FirstNamed | page3.py:50 | `.iloc[0]` finds a row exactly when some row has the name, and that row comes from the frame |
| Substitution.Simulate | page3.py:13-115 | missing sheets, an empty selection and an unknown candidate are the three failures, each in both directions; otherwise the figures are those of the first candidate row with the chosen name, for the held value and dividends of the selection |
| Substitution.Figures | page3.py:39-115 | the shares are the floor of purchase / price (price × shares ≤ purchase < price × (shares + 1)); value, dividends and the two changes follow, the dividend change missing exactly when the per-share dividend is |
| Substitution.WithinCeiling | page3.py:43-115 | with the purchase on the slider, the candidate costs at most the purchase amount, and so at most the ceiling; the value change is at most −30% of a non-negative held value |
| Substitution.SimulationExample | page3.py:35-84 | a held value of 10,000,000 yen gives a 7,000,000 yen ceiling; at 3,500 yen that buys 2,000 shares, a value change of −3,000,000 yen |
| Substitution.Line | page3.py:70-74 | one per-security line: name, market value and average dividend, the average missing exactly when all four years are |
| Substitution.HeldLines | page3.py:68-74 | the loop appends one line per held row, in frame order |

## Left out

- The Streamlit interface is left out: page layout, titles, multiselects, select boxes, sliders as widgets, tables and number formatting. The widget values become parameters.
- Charts are left out: matplotlib bar and radar charts, font loading and subplot layout. They only render.
- `pd.read_excel` and `pd.to_numeric(errors='coerce')` (page2.py:112-114) are left out. Cells arrive already coerced to a number or to missing.
- `st.session_state` is left out. The stored sheets are passed as parameters, with `None` for a sheet that was never uploaded.
- The candidates page rescales `配当利回り` of the stored frame in place (page2.py:117). A revisit to that page therefore rescales it again. The model takes one visit and does not model that aliasing.
- The holdings page does the same when no past-year column was dropped (page1.py:121): `df` is then still the stored frame, so the stored yield is rescaled again on a rerun that finds the uploader empty, such as a return to the page. While the uploader still holds the file, each rerun reads it again (page1.py:103-105) and replaces the stored frame. The model takes one run and does not model that aliasing either.
- `.round(2)` on the percentage (page1.py:121, stapp.py:116) and IEEE floating point are left out. All arithmetic is exact.
- Records.RescaleYield: does not round to two decimals, because rounding is left out of the model.
- Missing columns on the candidates page and the substitution page would raise a `KeyError`. For the holdings pipeline that failure is modelled only for the metric columns (`Holdings.ScoreHoldings`). The other pages assume their sheets have the columns they read. The `KeyError` of a sheet without rows is modelled on both scoring pages.
- Holdings.ScoreHoldings: does not model the `KeyError` of a sheet without a `企業名` column (page1.py:140, stapp.py:147) or, when the industry view is chosen, without a `業種` column (page1.py:251, stapp.py:255). Every row is taken to carry a name and an optional industry, so `ScoreHoldings` and `Ranking.IndustryMeans` succeed on such a sheet.
- Ranking.TopN: the order of rows that tie is not stated in its contract. Among equal values the model keeps frame order (`Ranking.InsertPlacement`), which is what `nlargest`'s default `keep='first'` gives.
- Ranking.IndustryMeans: the output order of the industries is not modelled. The result is a map keyed by industry.
- `nlargest` is applied to PER and PBR as well (page1.py:150-151). That lists the largest multiples, which are the worst scored ones. The model ranks them as written.
- Division by a zero or missing price (page2.py:160, page3.py:53) is not guarded in the source. The model requires a positive price there (`Purchase.Priced`, `Substitution.CandidatePriced`). That also excludes negative prices, for which the source would compute a negative share count; the model does not cover them.
- page3.py:7-8 uses `os` and `fm` without importing them. main.py:5 imports page3 at start-up, so that `NameError` stops the whole application before any page is shown. The model covers the page's arithmetic as written and does not reproduce that failure.
- Substitution.WithinCeiling: the bound `purchase ≤ ceiling` is stated only for a non-negative held value. With a negative held value the slider range 0..`int(ceiling)` is empty, and Streamlit rejects that slider.
- The slider's step of 1,000,000 (page3.py:43) is not a requirement of the model. Every purchase amount from 0 to the truncated ceiling is covered.
- `main.py` navigation and the descriptive text of `home.py` are not part of this model. Only home.py's band table is used, as documentation.
