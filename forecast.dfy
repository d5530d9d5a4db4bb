/** The prediction heuristic of the `predict` handler (app.py lines 107-202):
    enumerate the distinct (Platform, Genre, Publisher) triples, predict
    global sales for each, scale by a linear growth factor, split the figure
    over the four regions in proportion to the historical regional means,
    rank, keep the top six and name them.
    The trained regressor is an uninterpreted function value; sales are
    exact reals. */
module Forecast {
  import opened SalesData

  /** The fitted pipeline: (platform, year, genre, publisher) to predicted global sales. */
  type Regressor = (string, int, string, string) -> real

  /** Number of games the response shows, whatever the caller asked for. */
  const DisplayCount: nat := 6

  /** A distinct (Platform, Genre, Publisher) triple of the table. */
  datatype Combo = Combo(platform: string, genre: string, publisher: string)

  function ComboOf(r: Row): Combo {
    Combo(r.platform, r.genre, r.publisher)
  }

  /** `DATA_DF[["Platform", "Genre", "Publisher"]].drop_duplicates()`: the
      triples in order of first occurrence, each once. */
  function Combinations(rows: seq<Row>): (cs: seq<Combo>)
    ensures |cs| <= |rows|
    ensures forall i, j :: 0 <= i < j < |cs| ==> cs[i] != cs[j]
    ensures forall r :: r in rows ==> ComboOf(r) in cs
    ensures forall c :: c in cs ==> exists r :: r in rows && ComboOf(r) == c
    decreases |rows|
  {
    if rows == [] then []
    else
      var prev := Combinations(rows[..|rows| - 1]);
      var c := ComboOf(rows[|rows| - 1]);
      assert forall r :: r in rows ==> r in rows[..|rows| - 1] || r == rows[|rows| - 1];
      if c in prev then prev else prev + [c]
  }

  /** The rows of `DATA_DF[mask]`: those whose triple equals `c`, in table order. */
  function Similar(rows: seq<Row>, c: Combo): (s: seq<Row>)
    ensures |s| <= |rows|
    ensures forall r :: r in s <==> r in rows && ComboOf(r) == c
  {
    if rows == [] then []
    else (if ComboOf(rows[0]) == c then [rows[0]] else []) + Similar(rows[1..], c)
  }

  /** A matching row is kept as many times as it occurs in the table, which
      the regional means count; other rows are dropped. */
  lemma {:induction false} SimilarKeepsMultiplicity(rows: seq<Row>, c: Combo)
    ensures forall r :: multiset(Similar(rows, c))[r] == (if ComboOf(r) == c then multiset(rows)[r] else 0)
  {
    if rows != [] {
      assert rows == [rows[0]] + rows[1..];
      SimilarKeepsMultiplicity(rows[1..], c);
    }
  }

  /** Every combination was taken from the table itself, so its set of
      exactly matching rows is never empty. */
  lemma CombinationHasMatches(rows: seq<Row>, c: Combo)
    requires c in Combinations(rows)
    ensures Similar(rows, c) != []
  {
    var r :| r in rows && ComboOf(r) == c;
    assert r in Similar(rows, c);
  }

  /** Four regional figures. */
  datatype Regional = Regional(na: real, eu: real, jp: real, other: real) {
    function Sum(): real { na + eu + jp + other }
  }

  /** The mean of each regional column over `rows`. */
  function Averages(rows: seq<Row>): Regional
    requires rows != []
  {
    Regional(MeanSales(rows, NA), MeanSales(rows, EU), MeanSales(rows, JP), MeanSales(rows, Other))
  }

  /** The regional means used for `c`: over its matching rows when there are
      any, otherwise over the whole table. */
  function RegionalAverages(rows: seq<Row>, c: Combo): Regional
    requires rows != []
  {
    var similar := Similar(rows, c);
    if |similar| > 0 then Averages(similar) else Averages(rows)
  }

  /** For a combination of the table the whole-table fallback is never taken:
      each regional figure is the mean over the matching rows, and it lies
      between the smallest and largest figure among them. */
  lemma RegionalAveragesOfCombination(rows: seq<Row>, c: Combo, g: Region, lo: real, hi: real)
    requires c in Combinations(rows)
    requires forall r :: r in rows && ComboOf(r) == c ==> lo <= Sales(r, g) <= hi
    ensures Similar(rows, c) != []
    ensures RegionalAverages(rows, c) == Averages(Similar(rows, c))
    ensures lo <= MeanSales(Similar(rows, c), g) <= hi
  {
    CombinationHasMatches(rows, c);
    MeanSalesBounds(Similar(rows, c), g, lo, hi);
  }

  /** The multiplier applied to a prediction: one for years up to the mean
      training year, 1 + 0.02 * (year - mean) after it. */
  function GrowthFactor(year: int, meanYear: real): (f: real)
    ensures f >= 1.0
    ensures f == 1.0 <==> year as real <= meanYear
  {
    var diff := year as real - meanYear;
    if diff > 0.0 then 1.0 + 0.02 * diff else 1.0
  }

  /** The growth adjustment as the source applies it: multiply only when the
      target year is after the mean year. */
  function Grow(predicted: real, year: int, meanYear: real): real {
    var diff := year as real - meanYear;
    if diff > 0.0 then predicted * (1.0 + 0.02 * diff) else predicted
  }

  /** Up to the mean year the prediction is untouched; after it, it is scaled
      by the growth factor, which is strictly greater than one. */
  lemma GrowSpec(predicted: real, year: int, meanYear: real)
    ensures Grow(predicted, year, meanYear) == predicted * GrowthFactor(year, meanYear)
    ensures year as real <= meanYear ==> Grow(predicted, year, meanYear) == predicted
    ensures year as real > meanYear ==> GrowthFactor(year, meanYear) > 1.0
    ensures year as real > meanYear && predicted > 0.0 ==> Grow(predicted, year, meanYear) > predicted
  {
  }

  /** After the mean year each further year adds two percent of the raw
      prediction: the growth is linear, not compound. */
  lemma GrowthIsLinear(predicted: real, year: int, meanYear: real)
    requires year as real > meanYear
    ensures Grow(predicted, year + 1, meanYear) - Grow(predicted, year, meanYear) == 0.02 * predicted
  {
  }

  /** Splits `g` over the regions: proportionally to `avg` when the regional
      total is positive, 45/25/20/10 otherwise. */
  function Apportion(g: real, avg: Regional): Regional {
    var total := avg.Sum();
    if total > 0.0 then
      Regional(g * (avg.na / total), g * (avg.eu / total), g * (avg.jp / total), g * (avg.other / total))
    else
      Regional(g * 0.45, g * 0.25, g * 0.20, g * 0.10)
  }

  /** In both branches the four regional figures add up exactly to the
      global figure. */
  lemma ApportionSumsToGlobal(g: real, avg: Regional)
    ensures Apportion(g, avg).Sum() == g
  {
    var t := avg.Sum();
    if t > 0.0 {
      ShareSum(g, avg.na, avg.eu, avg.jp, avg.other);
    }
  }

  /** With no positive regional history the split is exactly 45/25/20/10. */
  lemma ApportionFallback(g: real, avg: Regional)
    requires avg.Sum() <= 0.0
    ensures var split := Apportion(g, avg);
      split.na == 0.45 * g && split.eu == 0.25 * g && split.jp == 0.20 * g && split.other == 0.10 * g
  {
  }

  /** With a positive regional total each region receives the share of the
      global figure that its mean has of the total. */
  lemma ApportionProportional(g: real, avg: Regional)
    requires avg.Sum() > 0.0
    ensures var split := Apportion(g, avg);
      && split.na * avg.Sum() == g * avg.na
      && split.eu * avg.Sum() == g * avg.eu
      && split.jp * avg.Sum() == g * avg.jp
      && split.other * avg.Sum() == g * avg.other
  {
    var t := avg.Sum();
    var split := Apportion(g, avg);
    assert split == Regional(g * (avg.na / t), g * (avg.eu / t), g * (avg.jp / t), g * (avg.other / t));
    ShareTimesTotal(g, avg.na, t, split.na);
    ShareTimesTotal(g, avg.eu, t, split.eu);
    ShareTimesTotal(g, avg.jp, t, split.jp);
    ShareTimesTotal(g, avg.other, t, split.other);
  }

  lemma ShareSum(g: real, a: real, b: real, c: real, d: real)
    requires a + b + c + d > 0.0
    ensures var t := a + b + c + d;
      g * (a / t) + g * (b / t) + g * (c / t) + g * (d / t) == g
  {
    var t := a + b + c + d;
    var qa, qb, qc, qd := a / t, b / t, c / t, d / t;
    DivTimes(a, t);
    DivTimes(b, t);
    DivTimes(c, t);
    DivTimes(d, t);
    var q := qa + qb + qc + qd;
    calc {
      q * t;
      qa * t + qb * t + qc * t + qd * t;
      a + b + c + d;
      t;
    }
    CancelFactor(q, t);
    assert g * qa + g * qb + g * qc + g * qd == g * q;
  }

  lemma ShareTimesTotal(g: real, x: real, t: real, share: real)
    requires t != 0.0 && share == g * (x / t)
    ensures share * t == g * x
  {
    DivTimes(x, t);
    assert share * t == g * ((x / t) * t);
  }

  lemma DivTimes(x: real, t: real)
    requires t != 0.0
    ensures x / t * t == x
  {
  }

  lemma CancelFactor(x: real, t: real)
    requires t != 0.0 && x * t == t
    ensures x == 1.0
  {
    assert (x - 1.0) * t == 0.0;
  }

  /** Apportioning preserves the ratios between regions: two regions'
      shares stand in the ratio of their historical means. */
  lemma ApportionKeepsRatios(g: real, avg: Regional)
    requires avg.Sum() > 0.0
    ensures Apportion(g, avg).na * avg.eu == Apportion(g, avg).eu * avg.na
    ensures Apportion(g, avg).jp * avg.other == Apportion(g, avg).other * avg.jp
    ensures Apportion(g, avg).na * avg.jp == Apportion(g, avg).jp * avg.na
  {
    var s, t := Apportion(g, avg), avg.Sum();
    ApportionProportional(g, avg);
    assert s.na * avg.eu * t == g * avg.na * avg.eu == s.eu * avg.na * t;
    assert s.jp * avg.other * t == g * avg.jp * avg.other == s.other * avg.jp * t;
    assert s.na * avg.jp * t == g * avg.na * avg.jp == s.jp * avg.na * t;
  }

  /** One entry of `results`. */
  datatype Evaluation = Evaluation(combo: Combo, sales: Regional, predicted: real)

  /** The loop body of `predict` for one combination. */
  function Evaluate(rows: seq<Row>, model: Regressor, c: Combo, year: int): Evaluation
    requires rows != []
  {
    var avg := RegionalAverages(rows, c);
    var predicted := Grow(model(c.platform, year, c.genre, c.publisher), year, MeanYear(rows));
    Evaluation(c, Apportion(predicted, avg), predicted)
  }

  /** An evaluation keeps its combination, predicts the regressor's figure
      times the growth factor, and splits exactly that figure over the
      regions. */
  lemma EvaluateSpec(rows: seq<Row>, model: Regressor, c: Combo, year: int)
    requires rows != []
    ensures var e := Evaluate(rows, model, c, year);
      && e.combo == c
      && e.sales.Sum() == e.predicted
      && e.predicted == model(c.platform, year, c.genre, c.publisher) * GrowthFactor(year, MeanYear(rows))
  {
    GrownAndSplit(model(c.platform, year, c.genre, c.publisher), year, MeanYear(rows), RegionalAverages(rows, c));
  }

  lemma GrownAndSplit(raw: real, year: int, meanYear: real, avg: Regional)
    ensures var predicted := Grow(raw, year, meanYear);
      && Apportion(predicted, avg).Sum() == predicted
      && predicted == raw * GrowthFactor(year, meanYear)
  {
    GrowSpec(raw, year, meanYear);
    ApportionSumsToGlobal(Grow(raw, year, meanYear), avg);
  }

  /** The evaluations of all combinations, in combination order. */
  function Evaluations(rows: seq<Row>, model: Regressor, year: int): (es: seq<Evaluation>)
    requires rows != []
  {
    var cs := Combinations(rows);
    seq(|cs|, k requires 0 <= k < |cs| => Evaluate(rows, model, cs[k], year))
  }

  /** The body of the first loop of `predict`, step by step, for one
      combination. */
  method EvaluateCombination(rows: seq<Row>, model: Regressor, c: Combo, year: int, meanYear: real)
    returns (e: Evaluation)
    requires rows != [] && meanYear == MeanYear(rows)
    ensures e == Evaluate(rows, model, c, year)
  {
    var similar := Similar(rows, c);
    var avg := if |similar| > 0 then Averages(similar) else Averages(rows);
    assert avg == RegionalAverages(rows, c);
    var raw := model(c.platform, year, c.genre, c.publisher);
    var predicted := raw;
    var diff := year as real - meanYear;
    if diff > 0.0 {
      predicted := predicted * (1.0 + 0.02 * diff);
    }
    assert predicted == Grow(raw, year, MeanYear(rows));
    var split := SplitPrediction(predicted, avg);
    e := Evaluation(c, split, predicted);
  }

  /** The regional split of the loop body, step by step. */
  method SplitPrediction(predicted: real, avg: Regional) returns (split: Regional)
    ensures split == Apportion(predicted, avg)
  {
    var total := avg.na + avg.eu + avg.jp + avg.other;
    if total > 0.0 {
      split := Regional(predicted * (avg.na / total), predicted * (avg.eu / total),
                        predicted * (avg.jp / total), predicted * (avg.other / total));
    } else {
      split := Regional(predicted * 0.45, predicted * 0.25, predicted * 0.20, predicted * 0.10);
    }
  }

  /** The first loop of `predict`: one evaluation appended per combination. */
  method EvaluateAll(rows: seq<Row>, model: Regressor, combos: seq<Combo>, year: int)
    returns (results: seq<Evaluation>)
    requires rows != []
    ensures |results| == |combos|
    ensures forall k :: 0 <= k < |combos| ==> results[k] == Evaluate(rows, model, combos[k], year)
  {
    results := [];
    var meanYear := MeanYear(rows);
    for i := 0 to |combos|
      invariant |results| == i
      invariant forall k :: 0 <= k < i ==> results[k] == Evaluate(rows, model, combos[k], year)
    {
      var e := EvaluateCombination(rows, model, combos[i], year, meanYear);
      results := results + [e];
    }
  }

  // ---------------------------------------------------------------------
  // Ranking

  predicate Descending(s: seq<Evaluation>) {
    forall i, j :: 0 <= i < j < |s| ==> s[i].predicted >= s[j].predicted
  }

  function Insert(e: Evaluation, s: seq<Evaluation>): (r: seq<Evaluation>)
    requires Descending(s)
    ensures Descending(r)
    ensures multiset(r) == multiset(s) + multiset{e}
    ensures forall x :: x in r ==> x == e || x in s
  {
    if s == [] then [e]
    else if e.predicted >= s[0].predicted then [e] + s
    else
      var tail := Insert(e, s[1..]);
      PrependDescending(s[0], tail);
      assert s == [s[0]] + s[1..];
      [s[0]] + tail
  }

  lemma PrependDescending(x: Evaluation, s: seq<Evaluation>)
    requires Descending(s)
    requires forall y :: y in s ==> y.predicted <= x.predicted
    ensures Descending([x] + s)
  {
    var r := [x] + s;
    forall i, j | 0 <= i < j < |r|
      ensures r[i].predicted >= r[j].predicted
    {
      assert r[j] == s[j - 1];
      if i > 0 {
        assert r[i] == s[i - 1];
      }
    }
  }

  /** `sort_values("predicted_global", ascending=False)`: a rearrangement of
      the evaluations in non-increasing order of prediction. */
  function SortByPrediction(s: seq<Evaluation>): (r: seq<Evaluation>)
    ensures |r| == |s|
    ensures Descending(r)
    ensures multiset(r) == multiset(s)
  {
    if s == [] then []
    else
      assert s == [s[0]] + s[1..];
      var r := Insert(s[0], SortByPrediction(s[1..]));
      assert |r| == |multiset(r)|;
      r
  }

  /** `head(6)`. */
  function Top(s: seq<Evaluation>): seq<Evaluation> {
    if |s| <= DisplayCount then s else s[..DisplayCount]
  }

  /** One entry of `games_list`. */
  datatype Game = Game(
    rank: int,
    name: string,
    platform: string,
    genre: string,
    publisher: string,
    predictedSales: real,
    naSales: real,
    euSales: real,
    jpSales: real,
    otherSales: real)

  /** The display name "{Genre} - {Platform}". */
  function GameName(c: Combo): string {
    c.genre + " - " + c.platform
  }

  /** The k-th (0-based) entry of the response for evaluation `e`. */
  function GameAt(k: nat, e: Evaluation): Game {
    Game(k + 1, GameName(e.combo), e.combo.platform, e.combo.genre, e.combo.publisher,
         e.predicted, e.sales.na, e.sales.eu, e.sales.jp, e.sales.other)
  }

  /** The second loop of `predict`: one game per ranked evaluation. */
  method BuildGames(top: seq<Evaluation>) returns (games: seq<Game>)
    ensures |games| == |top|
    ensures forall k :: 0 <= k < |top| ==> games[k] == GameAt(k, top[k])
  {
    games := [];
    for idx := 0 to |top|
      invariant |games| == idx
      invariant forall k :: 0 <= k < idx ==> games[k] == GameAt(k, top[k])
    {
      var row := top[idx];
      var c := row.combo;
      var name := c.genre + " - " + c.platform;
      games := games + [Game(idx + 1, name, c.platform, c.genre, c.publisher,
                             row.predicted, row.sales.na, row.sales.eu, row.sales.jp, row.sales.other)];
    }
  }

  /** The ranked game list for a table, a regressor and a target year. */
  function RankedGames(rows: seq<Row>, model: Regressor, year: int): seq<Game>
    requires rows != []
  {
    var top := Top(SortByPrediction(Evaluations(rows, model, year)));
    seq(|top|, k requires 0 <= k < |top| => GameAt(k, top[k]))
  }

  /** The response lists min(6, number of combinations) games, ranked
      1..k, in non-increasing order of predicted sales. */
  lemma RankedGamesOrder(rows: seq<Row>, model: Regressor, year: int)
    requires rows != []
    ensures var gs := RankedGames(rows, model, year);
      var n := |Combinations(rows)|;
      && |gs| == (if n < DisplayCount then n else DisplayCount)
      && (forall k :: 0 <= k < |gs| ==> gs[k].rank == k + 1)
      && (forall i, j :: 0 <= i < j < |gs| ==> gs[i].predictedSales >= gs[j].predictedSales)
  {
    var sorted := SortByPrediction(Evaluations(rows, model, year));
    var top := Top(sorted);
    assert Descending(top) by {
      forall i, j | 0 <= i < j < |top|
        ensures top[i].predicted >= top[j].predicted
      {
        assert top[i] == sorted[i] && top[j] == sorted[j];
      }
    }
    GamesOfDescending(top);
  }

  /** Listing a non-increasing sequence of evaluations gives ranks 1..k and
      non-increasing predicted sales. */
  lemma GamesOfDescending(top: seq<Evaluation>)
    requires Descending(top)
    ensures var gs := seq(|top|, k requires 0 <= k < |top| => GameAt(k, top[k]));
      && (forall k :: 0 <= k < |gs| ==> gs[k].rank == k + 1)
      && (forall i, j :: 0 <= i < j < |gs| ==> gs[i].predictedSales >= gs[j].predictedSales)
  {
    var gs := seq(|top|, k requires 0 <= k < |top| => GameAt(k, top[k]));
    forall i, j | 0 <= i < j < |gs|
      ensures gs[i].predictedSales >= gs[j].predictedSales
    {
      assert gs[i] == GameAt(i, top[i]) && gs[j] == GameAt(j, top[j]);
    }
  }

  /** Each listed game is one combination of the table, named
      "{Genre} - {Platform}", and carries that same combination's
      evaluation, whose regional figures add up to its predicted sales. */
  lemma RankedGamesEntries(rows: seq<Row>, model: Regressor, year: int)
    requires rows != []
    ensures var gs := RankedGames(rows, model, year);
      forall k :: 0 <= k < |gs| ==> EntryOfCombination(rows, model, year, gs[k])
  {
    var gs := RankedGames(rows, model, year);
    forall k | 0 <= k < |gs|
      ensures EntryOfCombination(rows, model, year, gs[k])
    {
      RankedGameEntry(rows, model, year, k);
    }
  }

  /** `g` shows a combination of the table under its display name, with
      that combination's own evaluation, split exactly over the regions. */
  ghost predicate EntryOfCombination(rows: seq<Row>, model: Regressor, year: int, g: Game)
    requires rows != []
  {
    var c := Combo(g.platform, g.genre, g.publisher);
    && c in Combinations(rows)
    && g.name == g.genre + " - " + g.platform
    && Evaluation(c, Regional(g.naSales, g.euSales, g.jpSales, g.otherSales), g.predictedSales)
       == Evaluate(rows, model, c, year)
    && g.naSales + g.euSales + g.jpSales + g.otherSales == g.predictedSales
  }

  lemma RankedGameEntry(rows: seq<Row>, model: Regressor, year: int, k: nat)
    requires rows != [] && k < |RankedGames(rows, model, year)|
    ensures EntryOfCombination(rows, model, year, RankedGames(rows, model, year)[k])
  {
    var es := Evaluations(rows, model, year);
    var sorted := SortByPrediction(es);
    var e := Top(sorted)[k];
    assert e == sorted[k];
    assert e in multiset(es);
    var m :| 0 <= m < |es| && es[m] == e;
    var c := Combinations(rows)[m];
    assert e == Evaluate(rows, model, c, year);
    EvaluateSpec(rows, model, c, year);
    assert RankedGames(rows, model, year)[k] == GameAt(k, e);
  }

  /** Nothing left out of the list predicts more than what is shown: every
      evaluation missing from the top six is at most every shown one. */
  lemma TopBeatsTheRest(es: seq<Evaluation>)
    ensures var top := Top(SortByPrediction(es));
      forall e :: e in es && e !in top ==> forall i :: 0 <= i < |top| ==> top[i].predicted >= e.predicted
  {
    forall e | e in es && e !in Top(SortByPrediction(es)) {
      HiddenIsNotBetter(es, e);
    }
  }

  lemma HiddenIsNotBetter(es: seq<Evaluation>, e: Evaluation)
    requires e in es && e !in Top(SortByPrediction(es))
    ensures var top := Top(SortByPrediction(es));
      forall i :: 0 <= i < |top| ==> top[i].predicted >= e.predicted
  {
    var sorted := SortByPrediction(es);
    assert e in multiset(sorted);
    var j :| 0 <= j < |sorted| && sorted[j] == e;
    assert j >= |Top(sorted)|;
  }

  /** A table of one record with equal regional sales, predicted for its own
      year: one game, no growth (the year is the mean year), the prediction
      split into four equal quarters. */
  lemma SingleRecordExample(model: Regressor)
    ensures var rows := [Row("X", 2000, "Action", "P", 1.0, 1.0, 1.0, 1.0, 4.0)];
      var p := model("X", 2000, "Action", "P");
      RankedGames(rows, model, 2000) == [Game(1, "Action - X", "X", "Action", "P", p, p / 4.0, p / 4.0, p / 4.0, p / 4.0)]
  {
    var row := Row("X", 2000, "Action", "P", 1.0, 1.0, 1.0, 1.0, 4.0);
    var rows := [row];
    var c := Combo("X", "Action", "P");
    var p := model("X", 2000, "Action", "P");
    assert rows[..0] == [] && rows[1..] == [];
    assert Combinations(rows) == [c];
    assert Similar(rows, c) == rows;
    assert TotalYears(rows) == 2000;
    assert MeanYear(rows) == 2000.0;
    assert forall g :: TotalSales(rows, g) == 1.0;
    assert Averages(rows) == Regional(1.0, 1.0, 1.0, 1.0);
    var e := Evaluation(c, Regional(p / 4.0, p / 4.0, p / 4.0, p / 4.0), p);
    assert Evaluate(rows, model, c, 2000) == e;
    assert Evaluations(rows, model, 2000) == [e];
    assert SortByPrediction([e]) == [e];
    assert Top([e]) == [e];
    assert GameName(c) == "Action - X";
    assert RankedGames(rows, model, 2000)[0] == GameAt(0, e);
  }
}
