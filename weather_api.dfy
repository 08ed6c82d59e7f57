/**
 * app/weather_api.py: fetch_weather_data. Without a usable API key it
 * answers from a built-in sample for Lyon; with one, it folds the 3-hourly
 * entries of the provider's 'list' into two day buckets, tomorrow and the
 * day after, keeping per day the highest temp_max, the highest
 * pop * 100 (a missing pop counts as 0) and the last humidity, pressure
 * and wind speed present.
 *
 * The HTTP request and JSON decoding are outside the model: the method
 * receives what they produced as a Response. Entries arrive decoded, with
 * their calendar date already derived from 'dt'; a missing value is None.
 */
module WeatherApi {
  import opened Wrappers
  import opened Text
  import opened Calendar

  /** One forecast entry of 'list': the date of its 'dt', main.temp_max, pop, main.humidity, main.pressure, wind.speed. */
  datatype Entry = Entry(
    date: Option<Date>,
    tempMax: Option<real>,
    pop: Option<real>,
    humidity: Option<real>,
    pressure: Option<real>,
    windSpeed: Option<real>)

  /** The five values reported for one day. */
  datatype DayForecast = DayForecast(
    tempMax: Option<real>,
    rainChance: Option<int>,
    humidity: Option<real>,
    pressure: Option<real>,
    windSpeed: Option<real>)

  /**
   * The returned dictionary: its ten keys are temp_max, prob_pluie, humidity,
   * pressure and wind_speed, each for "demain" (tomorrow) and "apres_demain"
   * (the day after).
   */
  datatype Forecast = Forecast(tomorrow: DayForecast, dayAfter: DayForecast)

  /** What the request produced: a failure (connection error, error status, undecodable body) or a body whose 'list' may be absent. */
  datatype Response = RequestFailed | Received(list: Option<seq<Entry>>)

  const PlaceholderKey: string := "VOTRE_CLE_API_OPENWEATHERMAP"

  /** A key that is set, non-empty and not the placeholder. */
  predicate HasUsableKey(key: Option<string>) {
    key.Some? && key.value != "" && key.value != PlaceholderKey
  }

  const LyonSample: Forecast := Forecast(
    DayForecast(Some(15.0), Some(15), Some(70.0), Some(1012.0), Some(5.0)),
    DayForecast(Some(25.0), Some(50), Some(65.0), Some(1010.0), Some(7.0)))

  /** The no-key fallback: the fixed record for "lyon" in any letter case, nothing for any other city. */
  function SampleForecast(city: string): Option<Forecast> {
    if Lower(city) == "lyon" then Some(LyonSample) else None
  }

  // ------------------------------------------------ the per-day fold, as functions

  function TempOf(e: Entry): Option<real> { e.tempMax }
  function HumidityOf(e: Entry): Option<real> { e.humidity }
  function PressureOf(e: Entry): Option<real> { e.pressure }
  function WindOf(e: Entry): Option<real> { e.windSpeed }

  /** forecast.get('pop', 0) * 100. */
  function Rain(e: Entry): real { e.pop.GetOr(0.0) * 100.0 }

  function RainOf(e: Entry): Option<real> { Some(Rain(e)) }

  /** The entries dated `day`, in list order. */
  function OnDay(es: seq<Entry>, day: Date): seq<Entry> {
    if es == [] then []
    else OnDay(es[..|es| - 1], day) + (if es[|es| - 1].date == Some(day) then [es[|es| - 1]] else [])
  }

  /** One update of a running maximum: a value replaces the held one when none is held or when it is larger. */
  function MaxStep(acc: Option<real>, x: Option<real>): Option<real> {
    if acc.None? || (x.Some? && x.value > acc.value) then x else acc
  }

  /** The running maximum of `f` over a list, folded in list order. */
  function RunningMax(ds: seq<Entry>, f: Entry -> Option<real>): Option<real> {
    if ds == [] then None else MaxStep(RunningMax(ds[..|ds| - 1], f), f(ds[|ds| - 1]))
  }

  /** One update of a last-seen value: a present value replaces the held one. */
  function LastStep(acc: Option<real>, x: Option<real>): Option<real> {
    if x.Some? then x else acc
  }

  /** The last present value of `f` in a list. */
  function LastPresent(ds: seq<Entry>, f: Entry -> Option<real>): Option<real> {
    if ds == [] then None else LastStep(LastPresent(ds[..|ds| - 1], f), f(ds[|ds| - 1]))
  }

  /** The five accumulators the loop keeps for one day (prob_pluie before int()). */
  datatype Running = Running(
    tempMax: Option<real>,
    rain: Option<real>,
    humidity: Option<real>,
    pressure: Option<real>,
    windSpeed: Option<real>)

  const NothingSeen: Running := Running(None, None, None, None, None)

  /** What one entry of a day does to that day's accumulators. */
  function Absorb(acc: Running, e: Entry): Running {
    Running(
      MaxStep(acc.tempMax, TempOf(e)),
      MaxStep(acc.rain, RainOf(e)),
      LastStep(acc.humidity, HumidityOf(e)),
      LastStep(acc.pressure, PressureOf(e)),
      LastStep(acc.windSpeed, WindOf(e)))
  }

  /** The accumulators after a day's entries, taken in list order. */
  function Accumulate(ds: seq<Entry>): Running {
    if ds == [] then NothingSeen else Absorb(Accumulate(ds[..|ds| - 1]), ds[|ds| - 1])
  }

  /** Python's int() on a float: truncation toward zero. */
  function Truncate(x: real): (i: int)
    ensures 0.0 <= x ==> i as real <= x < i as real + 1.0
    ensures x < 0.0 ==> i as real - 1.0 < x <= i as real
  {
    if x >= 0.0 then x.Floor else -((-x).Floor)
  }

  /** The day's entry of the returned dictionary, from the accumulators. */
  function Report(acc: Running): DayForecast {
    DayForecast(
      acc.tempMax,
      if acc.rain.Some? then Some(Truncate(acc.rain.value)) else None,
      acc.humidity, acc.pressure, acc.windSpeed)
  }

  /** The five values of one day, from that day's entries. */
  function DaySummary(day: seq<Entry>): DayForecast {
    Report(Accumulate(day))
  }

  /** The result of the loop and the dictionary after it; an entry without 'dt' raises KeyError, which yields None. */
  function Aggregate(es: seq<Entry>, today: Date): Option<Forecast>
    requires ValidDate(today)
  {
    if exists i :: 0 <= i < |es| && es[i].date.None? then None
    else
      var tomorrow := NextDay(today);
      Some(Forecast(DaySummary(OnDay(es, tomorrow)), DaySummary(OnDay(es, NextDay(tomorrow)))))
  }

  /** What fetch_weather_data returns, given the key, the city and the response. */
  function Fetched(key: Option<string>, city: string, response: Response, today: Date): Option<Forecast>
    requires ValidDate(today)
  {
    if !HasUsableKey(key) then SampleForecast(city)
    else match response
      case RequestFailed => None
      case Received(list) => Aggregate(list.GetOr([]), today)
  }

  // ------------------------------------------------------------- the method

  /** fetch_weather_data(city_name), with the key, the response and today's date as inputs. */
  method FetchWeatherData(key: Option<string>, city: string, response: Response, today: Date)
    returns (r: Option<Forecast>)
    requires ValidDate(today)
    ensures r == Fetched(key, city, response, today)
  {
    if !HasUsableKey(key) {
      return SampleForecast(city);
    }
    if response.RequestFailed? {
      return None;
    }
    var es := response.list.GetOr([]);
    var tomorrow := NextDay(today);
    var dayAfter := NextDay(tomorrow);
    NextDayOrdinal(tomorrow);

    var tempMaxTomorrow: Option<real> := None;
    var rainTomorrow: Option<real> := None;
    var humidityTomorrow: Option<real> := None;
    var pressureTomorrow: Option<real> := None;
    var windTomorrow: Option<real> := None;
    var tempMaxDayAfter: Option<real> := None;
    var rainDayAfter: Option<real> := None;
    var humidityDayAfter: Option<real> := None;
    var pressureDayAfter: Option<real> := None;
    var windDayAfter: Option<real> := None;

    for i := 0 to |es|
      invariant forall j :: 0 <= j < i ==> es[j].date.Some?
      invariant Running(tempMaxTomorrow, rainTomorrow, humidityTomorrow, pressureTomorrow, windTomorrow)
             == Accumulate(OnDay(es[..i], tomorrow))
      invariant Running(tempMaxDayAfter, rainDayAfter, humidityDayAfter, pressureDayAfter, windDayAfter)
             == Accumulate(OnDay(es[..i], dayAfter))
    {
      var e := es[i];
      if e.date.None? {
        assert !(forall j :: 0 <= j < |es| ==> es[j].date.Some?);
        return None;
      }
      OnDayStep(es, i, tomorrow);
      OnDayStep(es, i, dayAfter);
      if e.date.value == tomorrow {
        AccumulateStep(OnDay(es[..i], tomorrow), e);
        tempMaxTomorrow, rainTomorrow, humidityTomorrow, pressureTomorrow, windTomorrow :=
          AbsorbEntry(tempMaxTomorrow, rainTomorrow, humidityTomorrow, pressureTomorrow, windTomorrow, e);
      } else if e.date.value == dayAfter {
        AccumulateStep(OnDay(es[..i], dayAfter), e);
        tempMaxDayAfter, rainDayAfter, humidityDayAfter, pressureDayAfter, windDayAfter :=
          AbsorbEntry(tempMaxDayAfter, rainDayAfter, humidityDayAfter, pressureDayAfter, windDayAfter, e);
      }
    }
    assert es[..|es|] == es;
    r := Some(Forecast(
      DayForecast(tempMaxTomorrow,
                  if rainTomorrow.Some? then Some(Truncate(rainTomorrow.value)) else None,
                  humidityTomorrow, pressureTomorrow, windTomorrow),
      DayForecast(tempMaxDayAfter,
                  if rainDayAfter.Some? then Some(Truncate(rainDayAfter.value)) else None,
                  humidityDayAfter, pressureDayAfter, windDayAfter)));
  }

  /** The loop body's updates of one day's five accumulators for an entry of that day. */
  method AbsorbEntry(tempMax: Option<real>, rain: Option<real>, humidity: Option<real>,
                     pressure: Option<real>, wind: Option<real>, e: Entry)
    returns (tempMax': Option<real>, rain': Option<real>, humidity': Option<real>,
             pressure': Option<real>, wind': Option<real>)
    ensures Running(tempMax', rain', humidity', pressure', wind')
         == Absorb(Running(tempMax, rain, humidity, pressure, wind), e)
  {
    tempMax', rain', humidity', pressure', wind' := tempMax, rain, humidity, pressure, wind;
    var r := Rain(e);
    if tempMax.None? || (e.tempMax.Some? && e.tempMax.value > tempMax.value) {
      tempMax' := e.tempMax;
    }
    if rain.None? || r > rain.value {
      rain' := Some(r);
    }
    if e.humidity.Some? { humidity' := e.humidity; }
    if e.pressure.Some? { pressure' := e.pressure; }
    if e.windSpeed.Some? { wind' := e.windSpeed; }
  }

  // ----------------------------------------------------------------- lemmas

  lemma OnDayStep(es: seq<Entry>, i: nat, day: Date)
    requires i < |es|
    ensures es[i].date == Some(day) ==> OnDay(es[..i + 1], day) == OnDay(es[..i], day) + [es[i]]
    ensures es[i].date != Some(day) ==> OnDay(es[..i + 1], day) == OnDay(es[..i], day)
  {
    assert es[..i + 1][..i] == es[..i];
    assert OnDay(es[..i], day) + [] == OnDay(es[..i], day);
  }

  lemma AccumulateStep(ds: seq<Entry>, e: Entry)
    ensures Accumulate(ds + [e]) == Absorb(Accumulate(ds), e)
  {
    assert (ds + [e])[..|ds|] == ds;
  }

  lemma OnDaySnoc(es: seq<Entry>, e: Entry, day: Date)
    ensures OnDay(es + [e], day) == OnDay(es, day) + (if e.date == Some(day) then [e] else [])
  {
    assert (es + [e])[..|es|] == es;
  }

  lemma {:induction false} OnDayConcat(a: seq<Entry>, b: seq<Entry>, day: Date)
    ensures OnDay(a + b, day) == OnDay(a, day) + OnDay(b, day)
  {
    if b == [] {
      assert a + b == a;
    } else {
      var b' := b[..|b| - 1];
      assert (a + b)[..|a + b| - 1] == a + b';
      assert (a + b)[|a + b| - 1] == b[|b| - 1];
      OnDayConcat(a, b', day);
    }
  }

  /** The entries of a day are exactly the entries of the list that carry that date. */
  lemma {:induction false} OnDayMembers(es: seq<Entry>, day: Date)
    ensures forall e :: e in OnDay(es, day) <==> e in es && e.date == Some(day)
  {
    if es != [] {
      var init, last := es[..|es| - 1], es[|es| - 1];
      OnDayMembers(init, day);
      assert es == init + [last];
    }
  }

  /** The accumulators are the running maxima of temp_max and rain and the last present readings. */
  lemma {:induction false} AccumulateFields(ds: seq<Entry>)
    ensures Accumulate(ds) == Running(RunningMax(ds, TempOf), RunningMax(ds, RainOf),
      LastPresent(ds, HumidityOf), LastPresent(ds, PressureOf), LastPresent(ds, WindOf))
  {
    if ds != [] {
      AccumulateFields(ds[..|ds| - 1]);
    }
  }

  /**
   * A running maximum of `f` is the largest present value of `f` in the list, and
   * None exactly when no element has one.
   */
  lemma {:induction false} MaximumOf(ds: seq<Entry>, f: Entry -> Option<real>)
    ensures var m := RunningMax(ds, f);
      && (m.None? <==> forall e :: e in ds ==> f(e).None?)
      && (m.Some? ==> exists e :: e in ds && f(e) == m)
      && (forall e :: e in ds && f(e).Some? ==> m.Some? && f(e).value <= m.value)
  {
    if ds != [] {
      var init, last := ds[..|ds| - 1], ds[|ds| - 1];
      assert ds == init + [last];
      MaximumOf(init, f);
      var m0 := RunningMax(init, f);
      var m := RunningMax(ds, f);
      assert forall e :: e in ds <==> e in init || e == last;
      if m0.None? || (f(last).Some? && f(last).value > m0.value) {
        assert m == f(last);
      } else {
        assert m == m0;
        var w :| w in init && f(w) == m0;
        assert w in ds;
      }
    }
  }

  /**
   * A last-present reading is the value of the last element of the list that has one,
   * and None exactly when no element has one.
   */
  lemma {:induction false} LastReadingOf(ds: seq<Entry>, f: Entry -> Option<real>)
    ensures var v := LastPresent(ds, f);
      && (v.None? <==> forall k :: 0 <= k < |ds| ==> f(ds[k]).None?)
      && (v.Some? ==> exists k :: 0 <= k < |ds| && f(ds[k]) == v
                       && forall j :: k < j < |ds| ==> f(ds[j]).None?)
  {
    if ds != [] {
      var n := |ds| - 1;
      var init := ds[..n];
      LastReadingOf(init, f);
      assert forall k :: 0 <= k < n ==> init[k] == ds[k];
      var v := LastPresent(ds, f);
      if f(ds[n]).Some? {
        assert v == f(ds[n]);
      } else {
        assert v == LastPresent(init, f);
        if v.Some? {
          var k :| 0 <= k < n && f(init[k]) == v && forall j :: k < j < n ==> f(init[j]).None?;
          assert f(ds[k]) == v;
        }
      }
    }
  }

  /** A day's temp_max is the highest temp_max present among that day's entries, None if there is none. */
  lemma DailyTemperature(es: seq<Entry>, day: Date)
    ensures var t := DaySummary(OnDay(es, day)).tempMax;
      && (t.None? <==> forall e :: e in es && e.date == Some(day) ==> e.tempMax.None?)
      && (t.Some? ==> exists e :: e in es && e.date == Some(day) && e.tempMax == t)
      && (forall e :: e in es && e.date == Some(day) && e.tempMax.Some? ==> t.Some? && e.tempMax.value <= t.value)
  {
    var ds := OnDay(es, day);
    AccumulateFields(ds);
    MaximumOf(ds, TempOf);
    OnDayMembers(es, day);
  }

  /**
   * A day's rain probability is int() of the largest pop * 100 among that day's entries
   * (missing pop as 0), and None exactly when the day has no entry.
   */
  lemma DailyRainChance(es: seq<Entry>, day: Date)
    ensures var p := DaySummary(OnDay(es, day)).rainChance;
      && (p.None? <==> forall e :: e in es ==> e.date != Some(day))
      && (p.Some? ==> exists top :: top in es && top.date == Some(day) && p == Some(Truncate(Rain(top)))
                        && forall e :: e in es && e.date == Some(day) ==> Rain(e) <= Rain(top))
  {
    var ds := OnDay(es, day);
    AccumulateFields(ds);
    MaximumOf(ds, RainOf);
    OnDayMembers(es, day);
    var m := RunningMax(ds, RainOf);
    if m.Some? {
      var top :| top in ds && RainOf(top) == m;
      forall e | e in es && e.date == Some(day) ensures Rain(e) <= Rain(top) {
        assert e in ds && RainOf(e).Some?;
      }
    }
  }

  /**
   * A day's humidity (likewise pressure and wind speed) is the reading of the last of that
   * day's entries, in list order, that has one; None exactly when none has one.
   */
  lemma DailyLastReadings(es: seq<Entry>, day: Date)
    ensures var ds, h := OnDay(es, day), DaySummary(OnDay(es, day)).humidity;
      && (h.None? <==> forall k :: 0 <= k < |ds| ==> ds[k].humidity.None?)
      && (h.Some? ==> exists k :: 0 <= k < |ds| && ds[k].humidity == h
                       && forall j :: k < j < |ds| ==> ds[j].humidity.None?)
    ensures var ds, p := OnDay(es, day), DaySummary(OnDay(es, day)).pressure;
      && (p.None? <==> forall k :: 0 <= k < |ds| ==> ds[k].pressure.None?)
      && (p.Some? ==> exists k :: 0 <= k < |ds| && ds[k].pressure == p
                       && forall j :: k < j < |ds| ==> ds[j].pressure.None?)
    ensures var ds, w := OnDay(es, day), DaySummary(OnDay(es, day)).windSpeed;
      && (w.None? <==> forall k :: 0 <= k < |ds| ==> ds[k].windSpeed.None?)
      && (w.Some? ==> exists k :: 0 <= k < |ds| && ds[k].windSpeed == w
                       && forall j :: k < j < |ds| ==> ds[j].windSpeed.None?)
  {
    var ds := OnDay(es, day);
    AccumulateFields(ds);
    LastReadingOf(ds, HumidityOf);
    LastReadingOf(ds, PressureOf);
    LastReadingOf(ds, WindOf);
  }

  /** Maxima do not depend on the order of the entries: reordering the list keeps both temp_max and the rain probability. */
  lemma MaximaIgnoreOrder(es1: seq<Entry>, es2: seq<Entry>, day: Date)
    requires multiset(es1) == multiset(es2)
    ensures DaySummary(OnDay(es1, day)).tempMax == DaySummary(OnDay(es2, day)).tempMax
    ensures DaySummary(OnDay(es1, day)).rainChance == DaySummary(OnDay(es2, day)).rainChance
  {
    var ds1, ds2 := OnDay(es1, day), OnDay(es2, day);
    OnDayMembers(es1, day);
    OnDayMembers(es2, day);
    assert forall e :: e in ds1 <==> e in ds2 by {
      forall e ensures e in es1 <==> e in es2 {
        assert e in es1 <==> e in multiset(es1);
        assert e in es2 <==> e in multiset(es2);
      }
    }
    AccumulateFields(ds1);
    AccumulateFields(ds2);
    SameMembersSameMaximum(ds1, ds2, TempOf);
    SameMembersSameMaximum(ds1, ds2, RainOf);
  }

  lemma SameMembersSameMaximum(ds1: seq<Entry>, ds2: seq<Entry>, f: Entry -> Option<real>)
    requires forall e :: e in ds1 <==> e in ds2
    ensures RunningMax(ds1, f) == RunningMax(ds2, f)
  {
    MaximumOf(ds1, f);
    MaximumOf(ds2, f);
    var m1, m2 := RunningMax(ds1, f), RunningMax(ds2, f);
    if m1.Some? {
      var e1 :| e1 in ds1 && f(e1) == m1;
      var e2 :| e2 in ds2 && f(e2) == m2;
      assert m1.value <= m2.value && m2.value <= m1.value;
    }
  }

  /** Dropping an entry of another date leaves a day's entries as they were. */
  lemma OnDayOther(a: seq<Entry>, e: Entry, b: seq<Entry>, day: Date)
    requires e.date != Some(day)
    ensures OnDay(a + [e] + b, day) == OnDay(a + b, day)
  {
    OnDayConcat(a + [e], b, day);
    OnDaySnoc(a, e, day);
    assert OnDay(a, day) + [] == OnDay(a, day);
    OnDayConcat(a, b, day);
  }

  /** An entry dated neither tomorrow nor the day after changes nothing, wherever it stands in the list. */
  lemma OtherDayEntryIgnored(a: seq<Entry>, e: Entry, b: seq<Entry>, today: Date)
    requires ValidDate(today) && e.date.Some?
    requires e.date.value != NextDay(today) && e.date.value != NextDay(NextDay(today))
    ensures Aggregate(a + [e] + b, today) == Aggregate(a + b, today)
  {
    OnDayOther(a, e, b, NextDay(today));
    OnDayOther(a, e, b, NextDay(NextDay(today)));
    MissingDateSplit(a, [e], b);
  }

  /** An entry for one of the two days never changes the other day's values. */
  lemma EntryTouchesOnlyItsDay(a: seq<Entry>, e: Entry, b: seq<Entry>, today: Date)
    requires ValidDate(today) && e.date.Some?
    requires Aggregate(a + [e] + b, today).Some?
    ensures Aggregate(a + b, today).Some?
    ensures e.date.value == NextDay(today) ==>
      Aggregate(a + [e] + b, today).value.dayAfter == Aggregate(a + b, today).value.dayAfter
    ensures e.date.value == NextDay(NextDay(today)) ==>
      Aggregate(a + [e] + b, today).value.tomorrow == Aggregate(a + b, today).value.tomorrow
  {
    var t := NextDay(today);
    NextDayOrdinal(t);
    MissingDateSplit(a, [e], b);
    if e.date.value == t {
      OnDayOther(a, e, b, NextDay(t));
    } else if e.date.value == NextDay(t) {
      OnDayOther(a, e, b, t);
    }
  }

  lemma MissingDateSplit(a: seq<Entry>, m: seq<Entry>, b: seq<Entry>)
    requires forall k :: 0 <= k < |m| ==> m[k].date.Some?
    ensures (exists i :: 0 <= i < |a + m + b| && (a + m + b)[i].date.None?)
       <==> (exists i :: 0 <= i < |a + b| && (a + b)[i].date.None?)
  {
    if exists i :: 0 <= i < |a + m + b| && (a + m + b)[i].date.None? {
      var i :| 0 <= i < |a + m + b| && (a + m + b)[i].date.None?;
      if i < |a| {
        assert (a + b)[i] == a[i];
      } else {
        assert (a + b)[i - |m|] == b[i - |a| - |m|];
      }
    }
    if exists i :: 0 <= i < |a + b| && (a + b)[i].date.None? {
      var i :| 0 <= i < |a + b| && (a + b)[i].date.None?;
      if i < |a| {
        assert (a + m + b)[i] == a[i];
      } else {
        assert (a + m + b)[i + |m|] == b[i - |a|];
      }
    }
  }

  /** An empty or absent 'list' leaves all ten values None. */
  lemma NoEntriesNoValues(key: Option<string>, city: string, list: Option<seq<Entry>>, today: Date)
    requires ValidDate(today) && HasUsableKey(key)
    requires list.None? || list == Some([])
    ensures var empty := DayForecast(None, None, None, None, None);
      Fetched(key, city, Received(list), today) == Some(Forecast(empty, empty))
  {
    assert list.GetOr([]) == [];
  }

  /** Without a usable key the answer is the Lyon sample for "lyon" spelt in any case, and None for every other city. */
  lemma SampleOnlyForLyon(key: Option<string>, city: string, response: Response, today: Date)
    requires ValidDate(today) && !HasUsableKey(key)
    ensures Fetched(key, city, response, today) == (
      if |city| == 4 && city[0] in "lL" && city[1] in "yY" && city[2] in "oO" && city[3] in "nN"
      then Some(LyonSample) else None)
  {
    var spelt := |city| == 4 && city[0] in "lL" && city[1] in "yY" && city[2] in "oO" && city[3] in "nN";
    if spelt {
      assert Lower(city) == "lyon";
    }
  }
}
