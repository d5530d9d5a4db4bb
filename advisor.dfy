/** The service's process-wide state and its three handlers that touch it
    (app.py lines 12-58, 80-94, 96-215): `MODEL` and `DATA_DF` become the two
    nullable fields of one owner object. */
module Advisor {
  import opened Wrappers
  import opened SalesData
  import opened Forecast

  /** Outcome of a train request. */
  datatype TrainOutcome =
    | DatasetNotFound   // the CSV file does not exist: `(None, None)`, status 500
    | TrainingFailed    // the fit raised: the exception text, status 400
    | Trained           // both globals replaced

  /** The typed errors of `get_years` and `predict`. */
  datatype ApiError =
    | NotTrained        // get_years before training, status 400
    | EmptyDataset      // get_years on an empty table: `min([])` raises
    | ModelNotLoaded    // predict before training, status 500
    | InvalidInput      // `int(...)` of a request field raised, status 400
    | NoCombinations    // sorting an empty results frame raised, status 400

  /** A field of the JSON request body, as `int(data.get(...))` sees it. */
  datatype Field = Absent | Whole(n: int) | Malformed

  /** The success response of `predict`. */
  datatype Prediction = Prediction(
    year: int,
    requestedStock: int,
    games: seq<Game>,
    totalGames: nat)

  /** `max_games` when the request omits it. */
  const DefaultMaxGames: int := 6

  class Advisor {
    /** `MODEL`: the fitted regressor, or None before training. */
    var model: Option<Regressor>
    /** `DATA_DF`: the cleaned table the model was fitted on, or None. */
    var data: Option<seq<Row>>

    /** The two globals are set together or not at all. */
    predicate Valid()
      reads this
    {
      model.Some? <==> data.Some?
    }

    constructor ()
      ensures Valid()
      ensures model == None && data == None
    {
      model := None;
      data := None;
    }

    /** `load_and_train_model` and the train endpoint. `fileExists` is the
        result of the filesystem check, `raw` the records of the CSV file and
        `fit` the regressor's training, which yields None when it raises. */
    method Train(fileExists: bool, raw: seq<RawRow>, fit: seq<Row> -> Option<Regressor>)
      returns (outcome: TrainOutcome)
      requires Valid()
      modifies this
      ensures Valid()
      ensures !fileExists ==> outcome == DatasetNotFound
      ensures fileExists && fit(Clean(raw)).None? ==> outcome == TrainingFailed
      ensures fileExists && fit(Clean(raw)).Some? ==> outcome == Trained
      ensures outcome == Trained ==> model == fit(Clean(raw)) && data == Some(Clean(raw))
      ensures outcome != Trained ==> model == old(model) && data == old(data)
    {
      if !fileExists {
        return DatasetNotFound;
      }
      var df := DropMissingGlobal(raw);
      var rows := DropMissing(df);
      var fitted := fit(rows);
      if fitted.None? {
        return TrainingFailed;
      }
      model := fitted;
      data := Some(rows);
      outcome := Trained;
    }

    /** The get-years endpoint. */
    method GetYears() returns (r: Result<seq<int>, ApiError>)
      ensures data.None? ==> r == Err(NotTrained)
      ensures data == Some([]) ==> r == Err(EmptyDataset)
      ensures r.Ok? ==> data.Some? && data.value != [] && r.value == YearRange(data.value)
      ensures data.Some? && data.value != [] ==> r.Ok?
    {
      if data.None? {
        return Err(NotTrained);
      }
      var rows := data.value;
      if rows == [] {
        return Err(EmptyDataset);
      }
      r := Ok(YearRange(rows));
    }

    /** The predict endpoint: `year` and `maxGames` are the two body fields. */
    method Predict(year: Field, maxGames: Field) returns (r: Result<Prediction, ApiError>)
      ensures model.None? || data.None? ==> r == Err(ModelNotLoaded)
      ensures model.Some? && data.Some? && (!year.Whole? || maxGames.Malformed?) ==> r == Err(InvalidInput)
      ensures model.Some? && data.Some? && year.Whole? && !maxGames.Malformed? && Combinations(data.value) == [] ==>
        r == Err(NoCombinations)
      ensures r.Ok? <==>
        model.Some? && data.Some? && year.Whole? && !maxGames.Malformed? && Combinations(data.value) != []
      ensures r.Ok? ==>
        && data.value != []
        && r.value.year == year.n
        && r.value.requestedStock == (if maxGames.Whole? then maxGames.n else DefaultMaxGames)
        && r.value.totalGames == |Combinations(data.value)|
        && r.value.games == RankedGames(data.value, model.value, year.n)
    {
      if model.None? || data.None? {
        return Err(ModelNotLoaded);
      }
      if !year.Whole? || maxGames.Malformed? {
        return Err(InvalidInput);
      }
      var yearInput := year.n;
      var requested := if maxGames.Whole? then maxGames.n else DefaultMaxGames;
      var rows, regressor := data.value, model.value;
      var combos := Combinations(rows);
      if combos == [] {
        return Err(NoCombinations);
      }
      assert rows != [];
      var results := EvaluateAll(rows, regressor, combos, yearInput);
      assert results == Evaluations(rows, regressor, yearInput);
      var ranked := SortByPrediction(results);
      var top := Top(ranked);
      var games := BuildGames(top);
      assert games == RankedGames(rows, regressor, yearInput);
      r := Ok(Prediction(yearInput, requested, games, |results|));
    }
  }

  /** The lifecycle: prediction and year listing are refused until a train
      request succeeds; a train request without a dataset changes nothing. */
  method Lifecycle(raw: seq<RawRow>, fit: seq<Row> -> Option<Regressor>)
  {
    var advisor := new Advisor();
    var years := advisor.GetYears();
    assert years == Err(NotTrained);
    var prediction := advisor.Predict(Whole(2030), Absent);
    assert prediction == Err(ModelNotLoaded);
    var outcome := advisor.Train(false, raw, fit);
    assert outcome == DatasetNotFound && advisor.model == None;
    prediction := advisor.Predict(Whole(2030), Whole(10));
    assert prediction == Err(ModelNotLoaded);
    outcome := advisor.Train(true, raw, fit);
    if outcome == Trained && Clean(raw) != [] {
      years := advisor.GetYears();
      assert years == Ok(YearRange(Clean(raw)));
      prediction := advisor.Predict(Whole(2030), Whole(10));
      assert prediction.Ok? && prediction.value.requestedStock == 10;
    }
  }
}
