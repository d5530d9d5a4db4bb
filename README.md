# Game stock advisor: the deterministic core, in Dafny

The service trains a regressor on a video-game sales table and ranks the
(Platform, Genre, Publisher) combinations of that table by predicted sales
for a chosen year. This project models the logic around the regressor:

- the cleaning of the CSV records and the two process-wide variables `MODEL`
  and `DATA_DF`, as a class `Advisor.Advisor` with two nullable fields and
  the train, get-years and predict handlers as its methods (`advisor.dfy`);
- the cleaned table, the year range and the column means (`sales_data.dfy`);
- the prediction heuristic: distinct combinations, regional means over the
  matching records, the linear growth factor, the proportional regional
  split with its 45/25/20/10 fallback, ranking, the top six and their names
  (`forecast.dfy`);
- the browser's `escapeHtml` and a decoder that undoes it (`html_escape.dfy`);
- the input check at the start of `getPredictions`, with JavaScript's
  `Number` and `parseInt` readings of a text for decimal notation, and the
  rounding of `Number` to a double where the check compares it with one
  (`form_validation.dfy`).

The fitted regressor is an uninterpreted function value
`(platform, year, genre, publisher) -> real`; fitting is a function
parameter that yields `None` when it raises. Sales figures are exact `real`
numbers, so the regional figures add up exactly to the global one. The two
loops of `predict` are methods proved against the functions that specify
them (`Forecast.EvaluateAll`, `Forecast.BuildGames`).

The fallback split is taken whenever the regional total is not positive
(`total_regional > 0`, app.py:159), so negative totals take it too.

`Advisor.Lifecycle` is a usage scenario of the two variables, not code of
the service: it walks an advisor through refused requests, a train request
without a dataset, and a successful one.

## Model

| member | source | states |
|---|---|---|
| SalesData.DropMissingGlobal | app.py:27 | the first pass keeps exactly the records whose Global_Sales is present |
| SalesData.DropMissing | app.py:28 | the second pass keeps every complete record and only complete records |
| SalesData.DropMissingAppend | app.py:27-28 | cleaning works record by record: cleaning a concatenation is the concatenation of the cleaned parts, so the original order is kept |
| SalesData.CleanKeepsCompleteRows | app.py:27-28 | the two passes together keep exactly the records with no missing field, in order; the first pass is subsumed by the second |
| SalesData.MinYear | app.py:88 | the earliest year is an observed year and no observed year is earlier |
| SalesData.MaxYear | app.py:89 | the latest year is an observed year and no observed year is later |
| SalesData.YearRangeSpec | app.py:87-92 | the year list is strictly ascending and gap-free, runs from min(Year) to max(Year)+20 inclusive, has length max-min+21 and contains every observed year |
| SalesData.MeanYearWithinRange | app.py:149 | the mean training year lies between the earliest and the latest observed year |
| SalesData.MeanSalesBounds | app.py:126-129 | a regional mean lies between the smallest and largest figure it averages |
| Forecast.Combinations | app.py:111 | the combinations are pairwise distinct, every triple of the table is among them (so exactly once), and each comes from a record of the table |
| Forecast.Similar | app.py:117-122 | the similar games are exactly the records whose triple equals the combination |
| Forecast.SimilarKeepsMultiplicity | app.py:117-129 | each matching record is kept as many times as it occurs in the table, which the regional means count, and every other record is dropped |
| Forecast.CombinationHasMatches | app.py:111-124 | every combination has at least one exactly matching record |
| Forecast.RegionalAveragesOfCombination | app.py:124-135 | for a combination of the table the whole-table fallback is unreachable: the regional figures are means over the non-empty match set |
| Forecast.GrowthFactor | app.py:149-155 | the growth factor is at least one, and equals one exactly when the target year is not after the mean year |
| Forecast.GrowSpec | app.py:149-155 | up to the mean year the prediction is unchanged; after it, it is multiplied by 1 + 0.02*(year - mean), a factor greater than one |
| Forecast.GrowthIsLinear | app.py:152-155 | past the mean year each further year adds two percent of the raw prediction |
| Forecast.ApportionSumsToGlobal | app.py:157-168 | in both branches the four regional figures add up exactly to the global prediction |
| Forecast.ApportionFallback | app.py:164-168 | when the regional total is not positive the split is exactly 45/25/20/10 |
| Forecast.ApportionProportional | app.py:158-163 | when the regional total is positive each region's figure is the prediction times its mean's share of the total |
| Forecast.ApportionKeepsRatios | app.py:159-163 | the regional figures stand in the same ratios as the historical regional means |
| Forecast.EvaluateSpec | app.py:115-177 | each result keeps its combination, predicts the regressor's figure times the growth factor, and splits exactly that figure |
| Forecast.EvaluateCombination | app.py:116-177 | the loop body, step by step, computes the combination's evaluation |
| Forecast.SplitPrediction | app.py:157-168 | the step-by-step regional split of the loop body computes the proportional split, or the 45/25/20/10 one when the regional total is not positive |
| Forecast.EvaluateAll | app.py:114-177 | the first loop appends one evaluation per combination, in combination order |
| Forecast.SortByPrediction | app.py:180-181 | the results are rearranged (a permutation) into non-increasing order of predicted global sales |
| Forecast.BuildGames | app.py:185-202 | the second loop builds one entry per ranked result with rank idx+1, name "{Genre} - {Platform}" and that result's own figures |
| Forecast.RankedGamesOrder | app.py:108-192 | the list holds min(6, number of combinations) games, ranked 1..k, in non-increasing order of predicted sales, whatever max_games was |
| Forecast.RankedGamesEntries | app.py:186-201 | every listed game is a combination of the table under its display name, carrying that same combination's evaluation, split exactly |
| Forecast.TopBeatsTheRest | app.py:181-182 | no result left out of the top six predicts more than any shown one |
| Forecast.SingleRecordExample | app.py:107-202 | a one-record table with equal regional sales, predicted for its own year, yields one game with no growth and a 25/25/25/25 split |
| Advisor.Advisor.constructor | app.py:12-14 | before training both variables are unset |
| Advisor.Advisor.Train | app.py:17-58 | a missing dataset or a failing fit leaves model and table unchanged; success assigns both together, the table being the cleaned records; they stay set or unset together |
| Advisor.Advisor.GetYears | app.py:80-94 | refused before training; otherwise the year range of the table (an empty table raises) |
| Advisor.Advisor.Predict | app.py:96-215 | refused unless both variables are set; invalid fields and an empty results frame are errors; otherwise echoes year and max_games, reports the number of combinations and returns the ranked game list |
| HtmlEscape.EscapeChar | static/js/script.js:216-224 | the five special characters become entities that start with `&`, end with `;` and hold no special character after the `&`; every other character is kept |
| HtmlEscape.EscapeHtmlAppend | static/js/script.js:224 | escaping distributes over concatenation |
| HtmlEscape.EscapeHtmlIsSafe | static/js/script.js:217-224 | the output holds no `<`, `>`, `"` or `'`, and every `&` in it begins one of the five entities |
| HtmlEscape.EscapeHtmlLength | static/js/script.js:224 | the output is never shorter than the input, and has the same length exactly when the input holds none of the five characters, in which case it is the input |
| HtmlEscape.UnescapeEscapeHtml | static/js/script.js:217-224 | decoding the five entities left to right recovers the original text |
| HtmlEscape.EscapeHtmlInjective | static/js/script.js:217-224 | two texts that escape alike are equal |
| FormValidation.ValidateForm | static/js/script.js:59-68 | an empty year shows the year error; otherwise an empty games count, or one whose number rounds to a double below one, shows the count error; a request is sent exactly when neither applies |
| FormValidation.ParseIntAgreesWithNumber | static/js/script.js:65-82 | on every text whose exact decimal value is not negative, `parseInt` reads its integer part; below one it may read NaN instead (".5") |
| FormValidation.SentValuesMatchInput | static/js/script.js:65-83 | a sent body carries both fields read by `parseInt`; a games count that reads as a number is at least 1 - 2^-54; from one upwards it is sent as its integer part, at least one; below one it is sent as 0 or null |
| FormValidation.CountJustBelowOneIsSentAsZero | static/js/script.js:65-82 | the count "0.99999999999999999", which the browser rounds to 1, passes the guard and is sent as 0 |

## Left out

- The scikit-learn pipeline (one-hot encoding, passthrough year, a 200-tree random forest with parallel jobs, app.py:30-54): a foreign library; the fitted model is an uninterpreted function value and the fit a parameter that may fail.
- Reading the CSV file and the path and existence check (app.py:21-26): I/O; the existence check is a boolean argument and the file contents a sequence of records with optional fields for the nine columns used. Any further CSV columns, whose missing cells `dropna()` would also reject, are not modelled.
- Flask routing, `request.json`, `jsonify`, HTTP status codes and `render_template` (app.py:60-78, 96-105, 204-215): plumbing; the outcomes are typed results. A request without a JSON body is the same `InvalidInput` error as a missing year.
- `int(...)` of the request fields: a field arrives already read as an integer, absent, or malformed; the text-to-integer and float truncation rules of Python's `int` are not modelled.
- `round(..., 2)` and `float(...)` (app.py:197-201): floating-point presentation; figures are exact reals, so the model does not show IEEE rounding in the means, the shares or the 0.45+0.25+0.20+0.10 sum.
- The response's `message` text and the constant empty `all_predictions` list (app.py:209-211): string formatting and a constant.
- A year column that pandas reads as floating point (because of empty cells before cleaning) would make `range` in get_years raise; years are integers here.
- A regressor whose `predict` raises: not modelled.
- Advisor.Advisor.Train: `fit` is an arbitrary parameter and may succeed on an empty cleaned table, whereas scikit-learn's `fit` (app.py:54) raises on zero samples; so the `EmptyDataset` outcome of GetYears and the `NoCombinations` outcome of Predict, which the model handles, cannot be reached after a real fit.
- The unsynchronised sharing of the two variables between concurrent requests (app.py:13-14, 19): one sequential owner object.
- Advisor.Advisor.Predict: fixes the order among equal predictions to that of an insertion sort, whereas pandas' default sort leaves it unspecified; RankedGamesOrder and TopBeatsTheRest rely only on sortedness and permutation.
- FormValidation.ValidateForm: reads `Number(maxGames)` as an exact decimal and applies the rounding to a double only in the comparison with one; texts in hexadecimal ("0x10"), binary ("0b0"), octal ("0o0"), exponent ("1e-3") or `Infinity` notation are read as NaN, and white space beyond the six ASCII characters is not skipped. The browser reads "0x10" as 16 both ways and sends 16 where the model sends 0, refuses "0x0", "0b0", "0o0", "1e-3" and "-Infinity", which the model sends, and trims Unicode spaces such as U+00A0. For a decimal with more than 20 significant digits, ECMAScript lets `Number` replace the digits past the 20th before rounding, so whether such a text near the midpoint 1 - 2^-54 counts as below one depends on the engine; the model uses the exact decimal.
- FormValidation.ParseIntAgreesWithNumber: relates `parseInt` to the exact decimal, not to the double `Number` yields; they differ past double precision, where "1.99999999999999999" is 2 for `Number` and 1 for `parseInt`. It also reads `parseInt` as an exact integer, whereas JavaScript's `parseInt` returns a double: above 2^53 the browser rounds, so "9007199254740993" is 9007199254740992 in the browser and 9007199254740993 in the model.
- FormValidation.SentValuesMatchInput: the sent fields are `ParseInt`'s exact integers, while the browser sends `parseInt`'s double, which `JSON.stringify` writes rounded above 2^53 ("9007199254740993" is sent as 9007199254740992); so "sent as its integer part" holds in the browser only up to 2^53, for the games count and the year alike. A count between 1 - 2^-54 and one, such as "0.99999999999999999", is sent as 0 (see CountJustBelowOneIsSentAsZero), so the guard does not ensure a sent count of at least one.
- `String(text)` in `escapeHtml`: the argument is a string already.
- The DOM, `fetch`, timers, event listeners and HTML templating of static/js/script.js (`trainModel`, `displayResults`, `createGameCard`, `showLoading`, `showError`, `hideError`): UI.
