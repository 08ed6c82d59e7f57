/**
 * The loop the two programs form: main.py's save_observation appends rows
 * that train_model.py reads back, and the model train_model.py writes is
 * the one load_model picks up next. These lemmas connect the writer's and
 * the reader's conventions: the same feature columns in the same order,
 * the same calendar features from Python's date methods and from pandas,
 * and a freshly written artifact that is the newest '.pkl' file.
 */
module FeedbackLoop {
  import opened Wrappers
  import opened Text
  import opened Calendar
  import opened ObservationLog
  import opened ModelStore
  import opened App
  import opened Training
  import opened WeatherApi

  /** A date string the app writes is never one of pandas' NA strings (none is ten characters long). */
  lemma DateIsNotMissing(d: Date)
    requires ValidDate(d)
    ensures !IsMissing(Str(FormatDate(d)))
  {
    var s := FormatDate(d);
    assert |s| == 10;
    assert forall t :: t in NaStrings ==> |t| <= 8;
  }

  /** The fields an observation puts under the columns the trainer reads. */
  lemma ReadFields(o: Observation)
    requires ValidObservation(o)
    ensures Field(o, "date_prevision") == Str(FormatDate(o.forecastDate))
    ensures Field(o, "temp_predite_modele") == NumberCell(o.modelTemp)
    ensures Field(o, "temp_observee_api") == NumberCell(o.apiTemp)
    ensures Field(o, "humidity_api") == NumberCell(o.humidity)
    ensures Field(o, "pressure_api") == NumberCell(o.pressure)
    ensures Field(o, "wind_speed_api") == NumberCell(o.windSpeed)
  {
  }

  /** Every required column is in the header the app writes. */
  lemma HeaderHasRequiredColumns()
    ensures HasRequiredColumns(Header)
  {
    forall k | 0 <= k < |RequiredColumns|
      ensures ColumnIndex(Header, RequiredColumns[k]).Some?
    {
      if k == 0 {
        HeaderPositions(3); assert RequiredColumns[k] == Columns[3];
      } else if k == 1 {
        HeaderPositions(4); assert RequiredColumns[k] == Columns[4];
      } else if k == 2 {
        HeaderPositions(5); assert RequiredColumns[k] == Columns[5];
      } else if k == 3 {
        HeaderPositions(6); assert RequiredColumns[k] == Columns[6];
      } else if k == 4 {
        HeaderPositions(7); assert RequiredColumns[k] == Columns[7];
      } else {
        HeaderPositions(2); assert RequiredColumns[k] == Columns[2];
      }
    }
  }

  /** A logged row has, under every column the trainer reads, the field the app wrote for its value. */
  lemma LoggedColumns(o: Observation)
    requires ValidObservation(o)
    ensures HasRequiredColumns(Header)
    ensures Lookup(Header, EncodeRow(o), "date_prevision") == Some(Str(FormatDate(o.forecastDate)))
    ensures Lookup(Header, EncodeRow(o), "temp_predite_modele") == Some(NumberCell(o.modelTemp))
    ensures Lookup(Header, EncodeRow(o), "temp_observee_api") == Some(NumberCell(o.apiTemp))
    ensures Lookup(Header, EncodeRow(o), "humidity_api") == Some(NumberCell(o.humidity))
    ensures Lookup(Header, EncodeRow(o), "pressure_api") == Some(NumberCell(o.pressure))
    ensures Lookup(Header, EncodeRow(o), "wind_speed_api") == Some(NumberCell(o.windSpeed))
  {
    HeaderHasRequiredColumns();
    ReadFields(o);
    RowReadsBack(o, "date_prevision");
    RowReadsBack(o, "temp_predite_modele");
    RowReadsBack(o, "temp_observee_api");
    RowReadsBack(o, "humidity_api");
    RowReadsBack(o, "pressure_api");
    RowReadsBack(o, "wind_speed_api");
  }

  /** The line a header and five optional numbers describe, with a date field `ds`. */
  predicate Describes(header: Line, line: Line, ds: string,
                      temp: Option<real>, api: Option<real>, humidity: Option<real>, pressure: Option<real>, wind: Option<real>)
  {
    && HasRequiredColumns(header)
    && Lookup(header, line, "date_prevision") == Some(Str(ds))
    && Lookup(header, line, "temp_predite_modele") == Some(NumberCell(temp))
    && Lookup(header, line, "temp_observee_api") == Some(NumberCell(api))
    && Lookup(header, line, "humidity_api") == Some(NumberCell(humidity))
    && Lookup(header, line, "pressure_api") == Some(NumberCell(pressure))
    && Lookup(header, line, "wind_speed_api") == Some(NumberCell(wind))
  }

  /** Such a line is complete exactly when its date is not an NA string and no number is absent. */
  lemma CompleteWhen(header: Line, line: Line, ds: string,
                     temp: Option<real>, api: Option<real>, humidity: Option<real>, pressure: Option<real>, wind: Option<real>)
    requires Describes(header, line, ds, temp, api, humidity, pressure, wind)
    ensures Complete(header, line) <==>
      !IsMissing(Str(ds)) && temp.Some? && api.Some? && humidity.Some? && pressure.Some? && wind.Some?
  {
    if Complete(header, line) {
      CompleteHasAll(header, line, ds, temp, api, humidity, pressure, wind);
    }
    if !IsMissing(Str(ds)) && temp.Some? && api.Some? && humidity.Some? && pressure.Some? && wind.Some? {
      AllMakeComplete(header, line, ds, temp, api, humidity, pressure, wind);
    }
  }

  lemma CompleteHasAll(header: Line, line: Line, ds: string,
                       temp: Option<real>, api: Option<real>, humidity: Option<real>, pressure: Option<real>, wind: Option<real>)
    requires Describes(header, line, ds, temp, api, humidity, pressure, wind) && Complete(header, line)
    ensures !IsMissing(Str(ds)) && temp.Some? && api.Some? && humidity.Some? && pressure.Some? && wind.Some?
  {
    var cols := RequiredColumns;
    assert !IsMissing(Lookup(header, line, cols[0]).value) && !IsMissing(Lookup(header, line, cols[1]).value);
    assert !IsMissing(Lookup(header, line, cols[2]).value) && !IsMissing(Lookup(header, line, cols[3]).value);
    assert !IsMissing(Lookup(header, line, cols[4]).value) && !IsMissing(Lookup(header, line, cols[5]).value);
  }

  lemma AllMakeComplete(header: Line, line: Line, ds: string,
                        temp: Option<real>, api: Option<real>, humidity: Option<real>, pressure: Option<real>, wind: Option<real>)
    requires Describes(header, line, ds, temp, api, humidity, pressure, wind)
    requires !IsMissing(Str(ds)) && temp.Some? && api.Some? && humidity.Some? && pressure.Some? && wind.Some?
    ensures Complete(header, line)
  {
    var cols := RequiredColumns;
    forall k | 0 <= k < |cols|
      ensures !IsMissing(Lookup(header, line, cols[k]).value)
    {
      if k == 0 {
        assert cols[k] == "temp_predite_modele";
      } else if k == 1 {
        assert cols[k] == "temp_observee_api";
      } else if k == 2 {
        assert cols[k] == "humidity_api";
      } else if k == 3 {
        assert cols[k] == "pressure_api";
      } else if k == 4 {
        assert cols[k] == "wind_speed_api";
      } else {
        assert cols[k] == "date_prevision";
      }
    }
  }

  /** dropna keeps a logged row exactly when the app had all five values: an empty field is the only way one goes missing. */
  lemma LoggedRowRetained(o: Observation)
    requires ValidObservation(o)
    ensures HasRequiredColumns(Header)
    ensures Complete(Header, EncodeRow(o)) <==>
      o.modelTemp.Some? && o.apiTemp.Some? && o.humidity.Some? && o.pressure.Some? && o.windSpeed.Some?
  {
    LoggedColumns(o);
    DateIsNotMissing(o.forecastDate);
    CompleteWhen(Header, EncodeRow(o), FormatDate(o.forecastDate), o.modelTemp, o.apiTemp, o.humidity, o.pressure, o.windSpeed);
  }

  /** The trainer's X columns are the inference row's columns, in the same order. */
  lemma SameFeatureColumns()
    ensures |FeatureColumns| == |InferenceColumns|
    ensures forall k :: 0 <= k < |FeatureColumns| ==> FeatureColumns[k] == InferenceColumns[k]
  {
  }

  /** A numeric X column of a line with a parsable date reads as the number in its field. */
  lemma NumericFeature(header: Line, line: Line, name: string, v: Option<real>)
    requires DateAt(header, line).Some? && Lookup(header, line, name) == Some(NumberCell(v))
    requires name != "day_of_year" && name != "month" && name != "day_of_week"
    ensures TrainingFeature(header, line, name) == v
  {
  }

  /** The derived X columns of a line whose date parses as `d` are pandas' calendar features of `d`. */
  lemma CalendarFeatures(header: Line, line: Line, d: Date)
    requires ValidDate(d) && DateAt(header, line) == Some(d)
    ensures TrainingFeature(header, line, "day_of_year") == Some(PandasFeatures(d).dayOfYear as real)
    ensures TrainingFeature(header, line, "month") == Some(PandasFeatures(d).month as real)
    ensures TrainingFeature(header, line, "day_of_week") == Some(PandasFeatures(d).dayOfWeek as real)
  {
  }

  /** Such a line, with a date field that parses as `d`, has under each X column what the inference row has for `d`. */
  lemma FeaturesWhen(header: Line, line: Line, d: Date,
                     temp: Option<real>, humidity: Option<real>, pressure: Option<real>, wind: Option<real>, k: nat)
    requires ValidDate(d) && DateAt(header, line) == Some(d)
    requires Lookup(header, line, "temp_predite_modele") == Some(NumberCell(temp))
    requires Lookup(header, line, "humidity_api") == Some(NumberCell(humidity))
    requires Lookup(header, line, "pressure_api") == Some(NumberCell(pressure))
    requires Lookup(header, line, "wind_speed_api") == Some(NumberCell(wind))
    requires k < |FeatureColumns|
    ensures TrainingFeature(header, line, FeatureColumns[k]) == InferenceFeatures(temp, d, humidity, pressure, wind)[k]
  {
    if k == 0 {
      NumericFeature(header, line, "temp_predite_modele", temp);
    } else if k == 1 {
      NumericFeature(header, line, "humidity_api", humidity);
    } else if k == 2 {
      NumericFeature(header, line, "pressure_api", pressure);
    } else if k == 3 {
      NumericFeature(header, line, "wind_speed_api", wind);
    } else {
      CalendarFeatures(header, line, d);
      FeaturesAgree(d);
    }
  }

  /**
   * Training reads back from a logged row, for every feature column, what an inference
   * row built from the row's own values has there: the logged model temperature, the
   * three API readings, and the same day of year, month and weekday from pandas as from
   * Python's date methods (years up to 9999). Whether that is the row get_weather handed
   * to predict is TomorrowRowFeatures.
   */
  lemma LoggedFeatures(o: Observation, k: nat)
    requires ValidObservation(o) && o.forecastDate.year <= 9999 && k < |FeatureColumns|
    ensures TrainingFeature(Header, EncodeRow(o), FeatureColumns[k])
         == InferenceFeatures(o.modelTemp, o.forecastDate, o.humidity, o.pressure, o.windSpeed)[k]
  {
    LoggedColumns(o);
    ParseFormatDate(o.forecastDate);
    assert DateAt(Header, EncodeRow(o)) == Some(o.forecastDate);
    FeaturesWhen(Header, EncodeRow(o), o.forecastDate, o.modelTemp, o.humidity, o.pressure, o.windSpeed, k);
  }

  /** Such a line with all five numbers present gives the example of the inference row and the observed temperature. */
  lemma ExampleWhen(header: Line, line: Line, ds: string, d: Date,
                    temp: Option<real>, api: Option<real>, humidity: Option<real>, pressure: Option<real>, wind: Option<real>)
    requires Describes(header, line, ds, temp, api, humidity, pressure, wind)
    requires ParseDate(ds) == Some(d)
    requires temp.Some? && api.Some? && humidity.Some? && pressure.Some? && wind.Some?
    ensures var e := ExampleOf(header, line);
      var row := InferenceFeatures(temp, d, humidity, pressure, wind);
      && e.Some? && e.value.y == api.value
      && |e.value.x| == |row|
      && forall k :: 0 <= k < |row| ==> Some(e.value.x[k]) == row[k]
  {
    FeaturesAgree(d);
    assert DateAt(header, line) == Some(d);
    ExampleByName(header, line);
    var e := ExampleOf(header, line);
    forall k | 0 <= k < |FeatureColumns|
      ensures Some(e.value.x[k]) == InferenceFeatures(temp, d, humidity, pressure, wind)[k]
    {
      FeaturesWhen(header, line, d, temp, humidity, pressure, wind, k);
    }
  }

  /**
   * A logged complete row gives the example whose features are the inference row built
   * from its own values, the logged model temperature first, and whose target is the API
   * temperature.
   */
  lemma LoggedExample(o: Observation)
    requires ValidObservation(o) && o.forecastDate.year <= 9999
    requires o.modelTemp.Some? && o.apiTemp.Some? && o.humidity.Some? && o.pressure.Some? && o.windSpeed.Some?
    ensures var e := ExampleOf(Header, EncodeRow(o));
      var row := InferenceFeatures(o.modelTemp, o.forecastDate, o.humidity, o.pressure, o.windSpeed);
      && e.Some? && e.value.y == o.apiTemp.value
      && |e.value.x| == |row|
      && forall k :: 0 <= k < |row| ==> Some(e.value.x[k]) == row[k]
  {
    LoggedColumns(o);
    ParseFormatDate(o.forecastDate);
    ExampleWhen(Header, EncodeRow(o), FormatDate(o.forecastDate), o.forecastDate,
                o.modelTemp, o.apiTemp, o.humidity, o.pressure, o.windSpeed);
  }

  /**
   * Tomorrow's logged row against the row get_weather handed to predict_with_model. The
   * trainer reads back the same humidity, pressure, wind and calendar features, but its
   * first feature is the temperature shown, the prediction when there was one: it agrees
   * with the first value given to predict exactly when there was no prediction or the
   * prediction equals the API temperature (years up to 9999).
   */
  lemma TomorrowRowFeatures(model: Option<Regressor>, predict: (Regressor, seq<Option<real>>) -> Option<real>,
                            city: string, fc: Forecast, now: DateTime, k: nat)
    requires ValidDateTime(now) && fc.tomorrow.tempMax.Some? && NextDay(now.date).year <= 9999
    requires k < |FeatureColumns|
    ensures var t := fc.tomorrow;
      var tomorrow := NextDay(now.date);
      var prediction := PredictWith(model, predict, t.tempMax, tomorrow, t.humidity, t.pressure, t.windSpeed);
      var given := InferenceFeatures(t.tempMax, tomorrow, t.humidity, t.pressure, t.windSpeed);
      var read := TrainingFeature(Header, EncodeRow(TomorrowObservation(model, predict, city, fc, now)), FeatureColumns[k]);
      && (k > 0 ==> read == given[k])
      && (k == 0 ==> (read == given[0] <==> prediction.None? || prediction == t.tempMax))
  {
    var t := fc.tomorrow;
    var o := TomorrowObservation(model, predict, city, fc, now);
    LoggedFeatures(o, k);
    SameTail(o.modelTemp, t.tempMax, o.forecastDate, t.humidity, t.pressure, t.windSpeed);
  }

  /** Two inference rows that differ only in their temperature agree after the first value. */
  lemma SameTail(temp: Option<real>, temp': Option<real>, date: Date,
                 humidity: Option<real>, pressure: Option<real>, wind: Option<real>)
    requires ValidDate(date)
    ensures InferenceFeatures(temp, date, humidity, pressure, wind)[0] == temp
    ensures InferenceFeatures(temp, date, humidity, pressure, wind)[1..]
         == InferenceFeatures(temp', date, humidity, pressure, wind)[1..]
  {
  }

  /**
   * Tomorrow's row with, under temp_predite_modele, the temperature the prediction was
   * made from, as the day-after row and a call without a prediction already log it.
   */
  function IntendedTomorrowRow(city: string, fc: Forecast, now: DateTime): (o: Observation)
    requires ValidDateTime(now)
    ensures ValidObservation(o)
  {
    var t := fc.tomorrow;
    Observation(now, city, NextDay(now.date), t.tempMax, t.tempMax, t.humidity, t.pressure, t.windSpeed)
  }

  /** With that row, every feature the trainer reads is the one get_weather handed to predict (years up to 9999). */
  lemma IntendedRowFeatures(city: string, fc: Forecast, now: DateTime, k: nat)
    requires ValidDateTime(now) && NextDay(now.date).year <= 9999 && k < |FeatureColumns|
    ensures var t := fc.tomorrow;
      TrainingFeature(Header, EncodeRow(IntendedTomorrowRow(city, fc, now)), FeatureColumns[k])
      == InferenceFeatures(t.tempMax, NextDay(now.date), t.humidity, t.pressure, t.windSpeed)[k]
  {
    LoggedFeatures(IntendedTomorrowRow(city, fc, now), k);
  }

  /** Writing a '.pkl' file later than every '.pkl' file there makes it the one load_model loads. */
  lemma NewerModelLoaded(dir: seq<ModelFile>, f: ModelFile)
    requires DistinctNames(dir) && IsPkl(f.name)
    requires forall g :: g in dir && IsPkl(g.name) ==> g.mtime < f.mtime
    ensures Loaded(Store(dir, f)) == f.payload
  {
    var r := Store(dir, f);
    NewestIsLatest(r);
    var i :| 0 <= i < |r| && r[i] == f;
    var k := Newest(r).value;
    assert r[i].mtime <= r[k].mtime;
    assert r[k] in r;
  }

  /**
   * A run that saves, on a directory whose '.pkl' files are all older than the run,
   * leaves the app loading the regressor fitted on that run's training lines.
   */
  lemma TrainedModelLoaded(file: CsvFile, now: DateTime, shuffle: nat -> seq<nat>, dir: seq<ModelFile>)
    requires ValidDateTime(now) && Shuffles(shuffle) && DistinctNames(dir)
    requires forall g :: g in dir && IsPkl(g.name) ==> g.mtime < Seconds(now)
    requires Train(file, now, shuffle, dir).outcome.Saved?
    ensures var lines := file.value;
      var table := Examples(lines[0], Retained(lines[0], lines[1..])).value;
      var train := Train(file, now, shuffle, dir).outcome.train;
      && (forall i :: 0 <= i < |train| ==> train[i] < |table|)
      && Loaded(Train(file, now, shuffle, dir).models) == Some(Fit(Select(table, train)))
  {
    var lines := file.value;
    var table := Examples(lines[0], Retained(lines[0], lines[1..])).value;
    SplitIsPartition(|table|, shuffle);
    var train := Split(|table|, shuffle).0;
    NewerModelLoaded(dir, ModelFile(ArtifactName(now), Seconds(now), Some(Fit(Select(table, train)))));
  }
}
