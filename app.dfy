/**
 * app/main.py without its widgets: the rain-icon choice, model selection
 * in data/models, the inference feature row, the prediction fallbacks, and
 * the WeatherApp state that get_weather and save_observation change: the
 * loaded model, the observations file and the icon on the weather label.
 * The clock, the text typed in the city field, the API key, the HTTP
 * response, the directory listing and the regressor's predict are inputs.
 */
module App {
  import opened Wrappers
  import opened Text
  import opened Calendar
  import opened WeatherApi
  import opened ObservationLog
  import opened ModelStore

  // ----------------------------------------------------------- rain icon

  /** The prob_int set_weather_icon_display derives: int() of a '%'-terminated string with every '%' removed, else -1. */
  function RainPercent(text: Option<string>): int {
    if text.Some? && EndsWith(text.value, "%") then
      match ParseInt(RemoveAll(text.value, '%'))
      case Some(p) => p
      case None => -1
    else -1
  }

  /** The icon file set_weather_icon_display puts on the label; None stands for a value that is not a str. */
  function IconFile(text: Option<string>): string {
    if text == Some("loading") then "loading.gif" else IconFor(RainPercent(text))
  }

  /** The icon for prob_int: the thresholds 70, 40 and 0, checked in that order. */
  function IconFor(p: int): string {
    if p >= 70 then "heavy_rain.png"
    else if p >= 40 then "rain.png"
    else if p >= 0 then "sun.png"
    else "default.png"
  }

  /** What get_weather hands to the icon: f"{prob_pluie_demain}%", or 'N/A' when there is no rain probability. */
  function IconText(chance: Option<int>): string {
    match chance
    case Some(p) => IntToString(p) + "%"
    case None => "N/A"
  }

  // ------------------------------------------------------- model selection

  /**
   * The position load_model loads from: the .pkl entries sorted by mtime,
   * newest first and stably (so among equal mtimes the first listed wins),
   * then the head of that list. None when no name ends in '.pkl'.
   */
  function Newest(dir: seq<ModelFile>): (k: Option<nat>)
    ensures k.Some? ==> k.value < |dir|
  {
    if dir == [] then None
    else
      var k := Newest(dir[..|dir| - 1]);
      var last := dir[|dir| - 1];
      if IsPkl(last.name) && (k.None? || last.mtime > dir[k.value].mtime) then Some(|dir| - 1) else k
  }

  /** What self.model holds after load_model: the newest .pkl's payload, None when there is none or joblib.load raises. */
  function Loaded(dir: seq<ModelFile>): Option<Regressor> {
    match Newest(dir)
    case Some(k) => dir[k].payload
    case None => None
  }

  /** load_model's choice: one scan standing for the filter, the stable descending sort and `model_files[0]`. */
  method LatestModel(dir: seq<ModelFile>) returns (k: Option<nat>)
    ensures k == Newest(dir)
  {
    k := None;
    for i := 0 to |dir|
      invariant k == Newest(dir[..i])
    {
      assert dir[..i + 1][..i] == dir[..i];
      if IsPkl(dir[i].name) && (k.None? || dir[i].mtime > dir[k.value].mtime) {
        k := Some(i);
      }
    }
    assert dir[..|dir|] == dir;
  }

  // ------------------------------------------------------------ prediction

  /** The columns of predict_with_model's one-row DataFrame, in order. */
  const InferenceColumns: seq<string> := [
    "temp_predite_modele", "humidity_api", "pressure_api", "wind_speed_api",
    "day_of_year", "month", "day_of_week"]

  /** The value predict_with_model puts under the column called `name` (None is a NaN cell). */
  function InferenceFeature(name: string, temp: Option<real>, date: Date,
                            humidity: Option<real>, pressure: Option<real>, wind: Option<real>): Option<real>
    requires ValidDate(date)
  {
    var f := PythonFeatures(date);
    if name == "temp_predite_modele" then temp
    else if name == "humidity_api" then humidity
    else if name == "pressure_api" then pressure
    else if name == "wind_speed_api" then wind
    else if name == "day_of_year" then Some(f.dayOfYear as real)
    else if name == "month" then Some(f.month as real)
    else if name == "day_of_week" then Some(f.dayOfWeek as real)
    else None
  }

  /** The feature row predict_with_model builds: timetuple().tm_yday, month and weekday() beside the four API values. */
  function InferenceFeatures(temp: Option<real>, date: Date,
                             humidity: Option<real>, pressure: Option<real>, wind: Option<real>): (row: seq<Option<real>>)
    requires ValidDate(date)
    ensures |row| == |InferenceColumns|
  {
    var f := PythonFeatures(date);
    [temp, humidity, pressure, wind, Some(f.dayOfYear as real), Some(f.month as real), Some(f.dayOfWeek as real)]
  }

  /** Each value of the inference row is the feature its column names. */
  lemma InferenceByName(temp: Option<real>, date: Date, humidity: Option<real>, pressure: Option<real>, wind: Option<real>)
    requires ValidDate(date)
    ensures var row := InferenceFeatures(temp, date, humidity, pressure, wind);
      forall k :: 0 <= k < |row| ==> row[k] == InferenceFeature(InferenceColumns[k], temp, date, humidity, pressure, wind)
  {
  }

  /**
   * predict_with_model: None without a model, None when predict raises (the oracle's None),
   * otherwise the oracle's value for the feature row.
   */
  function PredictWith(model: Option<Regressor>, predict: (Regressor, seq<Option<real>>) -> Option<real>,
                       temp: Option<real>, date: Date,
                       humidity: Option<real>, pressure: Option<real>, wind: Option<real>): Option<real>
    requires ValidDate(date)
  {
    match model
    case None => None
    case Some(m) => predict(m, InferenceFeatures(temp, date, humidity, pressure, wind))
  }

  /** The tomorrow temperature shown and logged as the model's: the prediction, or the API value when there is none. */
  function DisplayTemperature(prediction: Option<real>, api: Option<real>): Option<real> {
    if prediction.Some? then prediction else api
  }

  // ------------------------------------------------------------ get_weather

  /** The row get_weather saves for tomorrow: the temperature shown (the prediction, or the API value) beside the API values. */
  function TomorrowObservation(model: Option<Regressor>, predict: (Regressor, seq<Option<real>>) -> Option<real>,
                               city: string, fc: Forecast, now: DateTime): (o: Observation)
    requires ValidDateTime(now)
    ensures ValidObservation(o)
  {
    var tomorrow := NextDay(now.date);
    var t := fc.tomorrow;
    var prediction := PredictWith(model, predict, t.tempMax, tomorrow, t.humidity, t.pressure, t.windSpeed);
    Observation(now, city, tomorrow, DisplayTemperature(prediction, t.tempMax), t.tempMax, t.humidity, t.pressure, t.windSpeed)
  }

  /** The row get_weather saves for the day after: its API temp_max in both temperature columns. */
  function DayAfterObservation(city: string, fc: Forecast, now: DateTime): (o: Observation)
    requires ValidDateTime(now)
    ensures ValidObservation(o)
  {
    var a := fc.dayAfter;
    Observation(now, city, NextDay(NextDay(now.date)), a.tempMax, a.tempMax, a.humidity, a.pressure, a.windSpeed)
  }

  /** The observations get_weather saves for a stripped city once the fetch has answered `fetched`. */
  function RowsForForecast(model: Option<Regressor>, predict: (Regressor, seq<Option<real>>) -> Option<real>,
                           city: string, fetched: Option<Forecast>, now: DateTime): (os: seq<Observation>)
    requires ValidDateTime(now)
    ensures AllValid(os)
  {
    match fetched
    case None => []
    case Some(fc) =>
      if fc.tomorrow.tempMax.None? then []
      else if fc.dayAfter.tempMax.None? then [TomorrowObservation(model, predict, city, fc, now)]
      else [TomorrowObservation(model, predict, city, fc, now), DayAfterObservation(city, fc, now)]
  }

  /** The observations one get_weather call saves, in order. */
  function LoggedObservations(model: Option<Regressor>, predict: (Regressor, seq<Option<real>>) -> Option<real>,
                              cityText: string, key: Option<string>, response: Response, now: DateTime): seq<Observation>
    requires ValidDateTime(now)
  {
    var city := Strip(cityText);
    if city == "" then [] else RowsForForecast(model, predict, city, Fetched(key, city, response, now.date), now)
  }

  /** The icon set after the fetch answered `fetched`: the rain icon on success, the cleared display's default otherwise. */
  function IconForForecast(fetched: Option<Forecast>): string {
    if fetched.Some? && fetched.value.tomorrow.tempMax.Some?
    then IconFile(Some(IconText(fetched.value.tomorrow.rainChance)))
    else IconFile(None)
  }

  /** The icon get_weather leaves on the label, None when the city is empty and the label is left alone. */
  function ShownIcon(cityText: string, key: Option<string>, response: Response, now: DateTime): Option<string>
    requires ValidDateTime(now)
  {
    var city := Strip(cityText);
    if city == "" then None else Some(IconForForecast(Fetched(key, city, response, now.date)))
  }

  class WeatherApp {
    var model: Option<Regressor>
    var log: CsvFile
    var icon: string

    /** __init__: the display starts cleared (the default icon), then load_model runs. */
    constructor (dir: seq<ModelFile>, file: CsvFile)
      ensures model == Loaded(dir) && log == file && icon == IconFile(None)
    {
      log := file;
      icon := IconFile(None);
      new;
      LoadModel(dir);
    }

    /** load_model over the listing of data/models; a payload of None is a joblib.load that raised. */
    method LoadModel(dir: seq<ModelFile>)
      modifies this`model
      ensures model == Loaded(dir)
    {
      model := None;
      var k := LatestModel(dir);
      if k.Some? {
        model := dir[k.value].payload;
      }
    }

    /** save_observation: `now` is datetime.now(); when `writable` is false, opening the file fails and nothing is written. */
    method SaveObservation(city: string, date: Date, modelTemp: Option<real>, apiTemp: Option<real>,
                           humidity: Option<real>, pressure: Option<real>, wind: Option<real>,
                           now: DateTime, writable: bool)
      requires ValidDateTime(now) && ValidDate(date)
      modifies this`log
      ensures log == if writable
        then Appended(old(log), Observation(now, city, date, modelTemp, apiTemp, humidity, pressure, wind))
        else old(log)
    {
      if writable {
        var row := EncodeRow(Observation(now, city, date, modelTemp, apiTemp, humidity, pressure, wind));
        var header := if log.None? then [Header] else [];
        log := Some(log.GetOr([]) + header + [row]);
      }
    }

    /**
     * get_weather: read and strip the city, fetch, predict for tomorrow, set the icon
     * and save up to two observations, all stamped with `now`. Each save_observation
     * opens the file on its own: `opensFirst` and `opensSecond` say whether the first
     * and the second open succeed.
     */
    method GetWeather(cityText: string, key: Option<string>, response: Response, now: DateTime,
                      predict: (Regressor, seq<Option<real>>) -> Option<real>, opensFirst: bool, opensSecond: bool)
      requires ValidDateTime(now)
      modifies this`log, this`icon
      ensures log == AppendAll(old(log), Opened(LoggedObservations(model, predict, cityText, key, response, now),
                                                [opensFirst, opensSecond]))
      ensures icon == ShownIcon(cityText, key, response, now).GetOr(old(icon))
    {
      var city := Strip(cityText);
      if city == "" {
        assert LoggedObservations(model, predict, cityText, key, response, now) == [];
        NothingAppended(log);
        return;
      }
      icon := IconFile(None);
      icon := IconFile(Some("loading"));
      var apiData := FetchWeatherData(key, city, response, now.date);
      Show(city, apiData, now, predict, opensFirst, opensSecond);
    }

    /** The part of get_weather after fetch_weather_data answered `fetched`. */
    method Show(city: string, fetched: Option<Forecast>, now: DateTime,
                predict: (Regressor, seq<Option<real>>) -> Option<real>, opensFirst: bool, opensSecond: bool)
      requires ValidDateTime(now)
      modifies this`log, this`icon
      ensures log == AppendAll(old(log), Opened(RowsForForecast(model, predict, city, fetched, now), [opensFirst, opensSecond]))
      ensures icon == IconForForecast(fetched)
    {
      if fetched.Some? && fetched.value.tomorrow.tempMax.Some? {
        ShowAndSave(city, fetched.value, now, predict, opensFirst, opensSecond);
      } else {
        icon := IconFile(None);
        assert RowsForForecast(model, predict, city, fetched, now) == [];
        NothingAppended(log);
      }
    }

    /** The branch of get_weather after a forecast with a temp_max for tomorrow came back. */
    method ShowAndSave(city: string, fc: Forecast, now: DateTime,
                       predict: (Regressor, seq<Option<real>>) -> Option<real>, opensFirst: bool, opensSecond: bool)
      requires ValidDateTime(now) && fc.tomorrow.tempMax.Some?
      modifies this`log, this`icon
      ensures log == AppendAll(old(log), Opened(RowsForForecast(model, predict, city, Some(fc), now), [opensFirst, opensSecond]))
      ensures icon == IconForForecast(Some(fc))
    {
      ghost var before := log;
      ghost var opens := [opensFirst, opensSecond];
      ghost var logged := RowsForForecast(model, predict, city, Some(fc), now);
      var t := fc.tomorrow;
      var a := fc.dayAfter;
      var tomorrow := NextDay(now.date);
      var dayAfter := NextDay(tomorrow);
      var prediction := PredictWith(model, predict, t.tempMax, tomorrow, t.humidity, t.pressure, t.windSpeed);
      var shown := DisplayTemperature(prediction, t.tempMax);
      icon := IconFile(Some(IconText(t.rainChance)));
      var first := Observation(now, city, tomorrow, shown, t.tempMax, t.humidity, t.pressure, t.windSpeed);
      assert first == TomorrowObservation(model, predict, city, fc, now);
      SaveObservation(city, tomorrow, shown, t.tempMax, t.humidity, t.pressure, t.windSpeed, now, opensFirst);
      NothingAppended(before);
      SaveStep(before, [], opens, first);
      assert [] + [first] == [first];
      assert log == AppendAll(before, Opened([first], opens));
      if a.tempMax.Some? {
        var second := Observation(now, city, dayAfter, a.tempMax, a.tempMax, a.humidity, a.pressure, a.windSpeed);
        assert second == DayAfterObservation(city, fc, now);
        assert logged == [first, second];
        SaveObservation(city, dayAfter, a.tempMax, a.tempMax, a.humidity, a.pressure, a.windSpeed, now, opensSecond);
        SaveStep(before, [first], opens, second);
        assert [first] + [second] == [first, second];
        assert log == AppendAll(before, Opened([first, second], opens));
      } else {
        assert logged == [first];
      }
      assert model == old(model);
      assert log == AppendAll(before, Opened(logged, opens));
    }
  }

  /**
   * The observations of `os` whose save_observation got the file open, in order:
   * os[i] is written exactly when opens[i] holds.
   */
  function Opened(os: seq<Observation>, opens: seq<bool>): (r: seq<Observation>)
    requires |os| <= |opens|
    ensures |r| <= |os|
    ensures AllValid(os) ==> AllValid(r)
  {
    if os == [] then []
    else Opened(os[..|os| - 1], opens) + (if opens[|os| - 1] then [os[|os| - 1]] else [])
  }

  /** A call that logs nothing leaves the file as it was. */
  lemma NothingAppended(file: CsvFile)
    ensures AppendAll(file, []) == file
  {
    assert Rows([]) == [];
  }

  /**
   * One more save_observation after those of `os`: when its open succeeds the file gains
   * that row (and the header first when no earlier save created the file); otherwise the
   * file is as the earlier saves left it.
   */
  lemma SaveStep(before: CsvFile, os: seq<Observation>, opens: seq<bool>, o: Observation)
    requires AllValid(os) && ValidObservation(o) && |os| < |opens|
    ensures AllValid(os + [o])
    ensures AppendAll(before, Opened(os + [o], opens))
         == if opens[|os|] then Appended(AppendAll(before, Opened(os, opens)), o) else AppendAll(before, Opened(os, opens))
  {
    var all := os + [o];
    assert all[..|all| - 1] == os && all[|all| - 1] == o;
    var kept := Opened(os, opens);
    OpenedSnoc(os, opens, o);
    if opens[|os|] {
      AppendAllSnoc(before, kept, o);
    }
  }

  lemma OpenedSnoc(os: seq<Observation>, opens: seq<bool>, o: Observation)
    requires |os| < |opens|
    ensures Opened(os + [o], opens) == if opens[|os|] then Opened(os, opens) + [o] else Opened(os, opens)
  {
    var all := os + [o];
    assert all[..|all| - 1] == os && all[|all| - 1] == o;
  }

  /** Saves that all open write every row in order; saves that all fail write none. */
  lemma {:induction false} OpenedAllOrNone(os: seq<Observation>, opens: seq<bool>)
    requires |os| <= |opens|
    ensures (forall i :: 0 <= i < |os| ==> opens[i]) ==> Opened(os, opens) == os
    ensures (forall i :: 0 <= i < |os| ==> !opens[i]) ==> Opened(os, opens) == []
  {
    if os != [] {
      var init := os[..|os| - 1];
      OpenedAllOrNone(init, opens);
      assert init + [os[|os| - 1]] == os;
    }
  }

  // ---------------------------------------------------------------- lemmas

  /** An integer percentage shown as f"{p}%" reads back as p. */
  lemma PercentReadsBack(p: int)
    ensures RainPercent(Some(IntToString(p) + "%")) == p
  {
    IntHasNoPercent(p);
    PercentText(IntToString(p));
    ParseIntToString(p);
  }

  lemma IntHasNoPercent(p: int)
    ensures forall k :: 0 <= k < |IntToString(p)| ==> IntToString(p)[k] != '%'
  {
    if p < 0 {
      SignedHasNoPercent(NatToString(-p));
    } else {
      DigitsHaveNoPercent(NatToString(p));
    }
  }

  lemma DigitsHaveNoPercent(d: string)
    requires AllDigits(d)
    ensures forall k :: 0 <= k < |d| ==> d[k] != '%'
  {
    forall k | 0 <= k < |d|
      ensures d[k] != '%'
    {
      assert IsDigit(d[k]);
    }
  }

  lemma SignedHasNoPercent(d: string)
    requires AllDigits(d)
    ensures forall k :: 0 <= k < |"-" + d| ==> ("-" + d)[k] != '%'
  {
    var s := "-" + d;
    forall k | 0 <= k < |s|
      ensures s[k] != '%'
    {
      if k > 0 {
        assert s[k] == d[k - 1] && IsDigit(d[k - 1]);
      }
    }
  }

  /** A str ending in a single '%' reads as int() of what comes before it. */
  lemma PercentText(s: string)
    requires forall k :: 0 <= k < |s| ==> s[k] != '%'
    ensures RainPercent(Some(s + "%")) == ParseInt(s).GetOr(-1)
  {
    RemoveTrailing(s, '%');
    var t := s + "%";
    assert t[|t| - 1..] == "%";
    assert EndsWith(t, "%");
  }

  /** The icon for a rain probability p: heavy rain from 70, rain from 40, sun from 0, the default below 0. */
  lemma IconThresholds(p: int)
    ensures var icon := IconFile(Some(IconText(Some(p))));
      && (icon == "heavy_rain.png" <==> 70 <= p)
      && (icon == "rain.png" <==> 40 <= p < 70)
      && (icon == "sun.png" <==> 0 <= p < 40)
      && (icon == "default.png" <==> p < 0)
  {
    PercentIcon(p);
    IconForThresholds(p);
  }

  /** The icon for f"{p}%" is the one the thresholds give p. */
  lemma PercentIcon(p: int)
    ensures IconFile(Some(IconText(Some(p)))) == IconFor(p)
  {
    PercentReadsBack(p);
    var t := IntToString(p) + "%";
    assert t != "loading" by {
      assert t[|t| - 1] == '%';
    }
  }

  lemma IconForThresholds(p: int)
    ensures var icon := IconFor(p);
      && (icon == "heavy_rain.png" <==> 70 <= p)
      && (icon == "rain.png" <==> 40 <= p < 70)
      && (icon == "sun.png" <==> 0 <= p < 40)
      && (icon == "default.png" <==> p < 0)
  {
    assert |"heavy_rain.png"| == 14 && |"rain.png"| == 8 && |"sun.png"| == 7 && |"default.png"| == 11;
  }

  /** A value that is not a str, a str not ending in '%', or one whose digits int() rejects gets the default icon. */
  lemma DefaultIcon(text: Option<string>)
    requires text != Some("loading")
    ensures IconFile(text) == "default.png" <==> RainPercent(text) < 0
    ensures text.None? || !EndsWith(text.value, "%") ==> IconFile(text) == "default.png"
    ensures text.Some? && EndsWith(text.value, "%") && ParseInt(RemoveAll(text.value, '%')).None?
            ==> IconFile(text) == "default.png"
  {
  }

  /** 'N/A', what get_weather passes without a rain probability, gets the default icon. */
  lemma NoChanceDefaultIcon()
    ensures IconFile(Some(IconText(None))) == "default.png"
  {
    assert !EndsWith("N/A", "%");
  }

  /**
   * load_model keeps only '.pkl' names, ends with no model when there is none, and otherwise
   * loads an entry whose mtime no other '.pkl' entry exceeds, the first listed of those.
   */
  lemma {:induction false} NewestIsLatest(dir: seq<ModelFile>)
    ensures Newest(dir).None? <==> forall i :: 0 <= i < |dir| ==> !IsPkl(dir[i].name)
    ensures Newest(dir).Some? ==>
      var k := Newest(dir).value;
      && IsPkl(dir[k].name)
      && (forall i :: 0 <= i < |dir| && IsPkl(dir[i].name) ==> dir[i].mtime <= dir[k].mtime)
      && (forall i :: 0 <= i < k && IsPkl(dir[i].name) ==> dir[i].mtime < dir[k].mtime)
  {
    if dir != [] {
      var init := dir[..|dir| - 1];
      NewestIsLatest(init);
      assert forall i :: 0 <= i < |init| ==> init[i] == dir[i];
      var k := Newest(init);
      var last := dir[|dir| - 1];
      if IsPkl(last.name) && (k.None? || last.mtime > dir[k.value].mtime) {
        assert Newest(dir) == Some(|dir| - 1);
      } else {
        assert Newest(dir) == k;
      }
    }
  }

  /** The model held after load_model: None without '.pkl' names, and None whenever loading the chosen one raises. */
  lemma LoadedModel(dir: seq<ModelFile>)
    ensures (forall i :: 0 <= i < |dir| ==> !IsPkl(dir[i].name)) ==> Loaded(dir).None?
    ensures Loaded(dir).Some? ==> exists i :: 0 <= i < |dir| && IsPkl(dir[i].name) && dir[i].payload == Loaded(dir)
  {
    NewestIsLatest(dir);
  }

  /** The inference row: the four API values, then day of year in [1, 366], month in [1, 12] and weekday in [0, 6], Monday 0. */
  lemma InferenceRowShape(temp: Option<real>, date: Date, humidity: Option<real>, pressure: Option<real>, wind: Option<real>)
    requires ValidDate(date)
    ensures var row := InferenceFeatures(temp, date, humidity, pressure, wind);
      && row[..4] == [temp, humidity, pressure, wind]
      && row[4].Some? && 1.0 <= row[4].value <= 366.0 && row[4].value == PythonDayOfYear(date) as real
      && row[5] == Some(date.month as real) && 1.0 <= row[5].value <= 12.0
      && row[6].Some? && 0.0 <= row[6].value <= 6.0 && row[6].value == PythonWeekday(date) as real
  {
    var f := PythonFeatures(date);
    assert 1 <= f.dayOfYear <= 366 && 0 <= f.dayOfWeek <= 6;
  }

  /** predict_with_model returns None without a model and when predict raises; otherwise the predicted value. */
  lemma PredictionFallbacks(model: Option<Regressor>, predict: (Regressor, seq<Option<real>>) -> Option<real>,
                            temp: Option<real>, date: Date, humidity: Option<real>, pressure: Option<real>, wind: Option<real>)
    requires ValidDate(date)
    ensures var r := PredictWith(model, predict, temp, date, humidity, pressure, wind);
      && (model.None? ==> r.None?)
      && (model.Some? ==> r == predict(model.value, InferenceFeatures(temp, date, humidity, pressure, wind)))
  {
  }

  /** get_weather saves nothing for an empty city, a failed fetch, or a missing temp_max for tomorrow. */
  lemma NothingLogged(model: Option<Regressor>, predict: (Regressor, seq<Option<real>>) -> Option<real>,
                      cityText: string, key: Option<string>, response: Response, now: DateTime)
    requires ValidDateTime(now)
    ensures var city := Strip(cityText);
      var fc := Fetched(key, city, response, now.date);
      (city == "" || fc.None? || fc.value.tomorrow.tempMax.None?)
      <==> LoggedObservations(model, predict, cityText, key, response, now) == []
  {
  }

  /**
   * On success get_weather saves tomorrow's row, whose model column is the prediction or,
   * without one, the API value, and then a day-after row exactly when the day after has a
   * temp_max, with its model column equal to its API column. Both carry the stripped city,
   * the same timestamp and their own day's humidity, pressure and wind speed.
   */
  lemma LoggedOnSuccess(model: Option<Regressor>, predict: (Regressor, seq<Option<real>>) -> Option<real>,
                        cityText: string, key: Option<string>, response: Response, now: DateTime)
    requires ValidDateTime(now)
    requires Strip(cityText) != ""
    requires var fc := Fetched(key, Strip(cityText), response, now.date);
      fc.Some? && fc.value.tomorrow.tempMax.Some?
    ensures var city := Strip(cityText);
      var fc := Fetched(key, city, response, now.date).value;
      var os := LoggedObservations(model, predict, cityText, key, response, now);
      var tomorrow := NextDay(now.date);
      var t := fc.tomorrow;
      var prediction := PredictWith(model, predict, t.tempMax, tomorrow, t.humidity, t.pressure, t.windSpeed);
      && |os| == (if fc.dayAfter.tempMax.Some? then 2 else 1)
      && os[0].loggedAt == now && os[0].city == city && os[0].forecastDate == tomorrow && os[0].apiTemp == t.tempMax
      && os[0].modelTemp == (if prediction.Some? then prediction else t.tempMax)
      && os[0].modelTemp.Some?
      && os[0].humidity == t.humidity && os[0].pressure == t.pressure && os[0].windSpeed == t.windSpeed
      && (|os| == 2 ==>
            && os[1].loggedAt == now && os[1].city == city && os[1].forecastDate == NextDay(tomorrow)
            && os[1].modelTemp == os[1].apiTemp == fc.dayAfter.tempMax
            && os[1].humidity == fc.dayAfter.humidity && os[1].pressure == fc.dayAfter.pressure
            && os[1].windSpeed == fc.dayAfter.windSpeed)
  {
  }
}
