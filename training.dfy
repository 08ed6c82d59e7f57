/**
 * training/train_model.py: train_and_save_model. It reads the observations
 * file, drops the lines missing any of six required values, derives the
 * calendar features of date_prevision with pandas' .dt accessors, takes the
 * seven feature columns and the observed temperature as target, splits off
 * a test set when there are at least five lines, fits a regressor on the
 * training part and writes it to data/models under a timestamped name.
 * The clock, sklearn's shuffling and the models directory are inputs; the
 * forest itself is not modelled (see ModelStore.Regressor).
 */
module Training {
  import opened Wrappers
  import opened Text
  import opened Calendar
  import opened ObservationLog
  import opened ModelStore

  /** The columns whose missing values drop a line. */
  const RequiredColumns: seq<string> := [
    "temp_predite_modele", "temp_observee_api",
    "humidity_api", "pressure_api", "wind_speed_api",
    "date_prevision"]

  /** X's columns, in order. */
  const FeatureColumns: seq<string> := [
    "temp_predite_modele", "humidity_api", "pressure_api", "wind_speed_api",
    "day_of_year", "month", "day_of_week"]

  /** y's column. */
  const TargetColumn: string := "temp_observee_api"

  /** One line of the cleaned table, as the regressor sees it. */
  datatype Example = Example(x: seq<real>, y: real)

  /**
   * How a run ends: each early return, the caught exceptions (EmptyDataError
   * on an empty file, any other as Failed), or a saved artifact with the
   * positions of the cleaned table's lines used for training and for testing.
   */
  datatype Outcome =
    | NoObservationsFile
    | EmptyFile
    | EmptyAfterCleaning
    | Failed
    | Saved(name: string, train: seq<nat>, test: seq<nat>)

  datatype Run = Run(outcome: Outcome, models: seq<ModelFile>)

  // ------------------------------------------------------------ reading

  /** read_csv refuses a data line with more fields than the header. */
  predicate Tokenizes(lines: seq<Line>)
    requires lines != []
  {
    forall i :: 1 <= i < |lines| ==> |lines[i]| <= |lines[0]|
  }

  /** Selecting the required columns needs each to be named in the header (else KeyError). */
  predicate HasRequiredColumns(header: Line) {
    forall k :: 0 <= k < |RequiredColumns| ==> ColumnIndex(header, RequiredColumns[k]).Some?
  }

  /** A line dropna keeps: none of the required columns reads as missing. */
  predicate Complete(header: Line, line: Line)
    requires HasRequiredColumns(header)
  {
    forall k :: 0 <= k < |RequiredColumns| ==> !IsMissing(Lookup(header, line, RequiredColumns[k]).value)
  }

  /** df.dropna(subset=required_columns): the complete lines, in their order. */
  function Retained(header: Line, lines: seq<Line>): seq<Line>
    requires HasRequiredColumns(header)
  {
    if lines == [] then []
    else
      var last := lines[|lines| - 1];
      Retained(header, lines[..|lines| - 1]) + (if Complete(header, last) then [last] else [])
  }

  /** The number in a numeric column; None when the field is not a number (fitting would then raise). */
  function NumberAt(header: Line, line: Line, name: string): Option<real> {
    match Lookup(header, line, name)
    case Some(Num(x)) => Some(x)
    case _ => None
  }

  /** pd.to_datetime on the date_prevision field. */
  function DateAt(header: Line, line: Line): Option<Date> {
    match Lookup(header, line, "date_prevision")
    case Some(Str(s)) => ParseDate(s)
    case _ => None
  }

  /** The value a cleaned line has under X's column `name`, derived columns included. */
  function TrainingFeature(header: Line, line: Line, name: string): Option<real> {
    match DateAt(header, line)
    case None => None
    case Some(d) =>
      var f := PandasFeatures(d);
      if name == "day_of_year" then Some(f.dayOfYear as real)
      else if name == "month" then Some(f.month as real)
      else if name == "day_of_week" then Some(f.dayOfWeek as real)
      else NumberAt(header, line, name)
  }

  /** X's and y's entries for one cleaned line; None when a value cannot be used. */
  function ExampleOf(header: Line, line: Line): (e: Option<Example>)
    ensures e.Some? ==> |e.value.x| == |FeatureColumns| && Some(e.value.y) == NumberAt(header, line, TargetColumn)
  {
    match DateAt(header, line)
    case None => None
    case Some(d) =>
      var f := PandasFeatures(d);
      var temp := NumberAt(header, line, "temp_predite_modele");
      var humidity := NumberAt(header, line, "humidity_api");
      var pressure := NumberAt(header, line, "pressure_api");
      var wind := NumberAt(header, line, "wind_speed_api");
      var target := NumberAt(header, line, TargetColumn);
      if temp.Some? && humidity.Some? && pressure.Some? && wind.Some? && target.Some? then
        Some(Example([temp.value, humidity.value, pressure.value, wind.value,
                      f.dayOfYear as real, f.month as real, f.dayOfWeek as real], target.value))
      else None
  }

  /** Each entry of an example's X is the feature its column names. */
  lemma ExampleByName(header: Line, line: Line)
    ensures var e := ExampleOf(header, line);
      e.Some? ==> forall k :: 0 <= k < |FeatureColumns| ==> Some(e.value.x[k]) == TrainingFeature(header, line, FeatureColumns[k])
  {
    var e := ExampleOf(header, line);
    if e.Some? {
      forall k | 0 <= k < |FeatureColumns|
        ensures Some(e.value.x[k]) == TrainingFeature(header, line, FeatureColumns[k])
      {
        if k == 0 {
          assert "temp_predite_modele"[0] == 't';
        } else if k == 1 {
          assert "humidity_api"[0] == 'h';
        } else if k == 2 {
          assert "pressure_api"[0] == 'p';
        } else if k == 3 {
          assert "wind_speed_api"[0] == 'w';
        } else if k == 6 {
          assert "day_of_week"[7] != "day_of_year"[7];
        }
      }
    }
  }

  /** The table of examples, None as soon as one line cannot be used. */
  function Examples(header: Line, lines: seq<Line>): (r: Option<seq<Example>>)
    ensures r.Some? ==> |r.value| == |lines|
  {
    if lines == [] then Some([])
    else
      match Examples(header, lines[..|lines| - 1])
      case None => None
      case Some(es) =>
        match ExampleOf(header, lines[|lines| - 1])
        case None => None
        case Some(e) => Some(es + [e])
  }

  // -------------------------------------------------------------- split

  function Range(n: nat): (r: seq<nat>)
    ensures |r| == n && forall i :: 0 <= i < n ==> r[i] == i
  {
    if n == 0 then [] else Range(n - 1) + [n - 1]
  }

  /** Every position below `n` once: what sklearn's shuffle yields. */
  predicate IsPermutation(p: seq<nat>, n: nat) {
    && |p| == n
    && (forall i :: 0 <= i < n ==> p[i] < n)
    && (forall m :: 0 <= m < n ==> m in p)
    && (forall i, j :: 0 <= i < j < n ==> p[i] != p[j])
  }

  ghost predicate Shuffles(shuffle: nat -> seq<nat>) {
    forall n: nat :: IsPermutation(shuffle(n), n)
  }

  /** train_test_split's n_test for test_size=0.2: ceil(0.2 * n). */
  function TestSize(n: nat): nat {
    (n + 4) / 5
  }

  /** The positions for training and for testing, in that order. */
  function Split(n: nat, shuffle: nat -> seq<nat>): (seq<nat>, seq<nat>)
    requires Shuffles(shuffle)
  {
    if n < 5 then (Range(n), [])
    else
      var p := shuffle(n);
      (p[TestSize(n)..], p[..TestSize(n)])
  }

  function Select<T>(table: seq<T>, positions: seq<nat>): (r: seq<T>)
    requires forall i :: 0 <= i < |positions| ==> positions[i] < |table|
    ensures |r| == |positions| && forall i :: 0 <= i < |r| ==> r[i] == table[positions[i]]
  {
    if positions == [] then []
    else Select(table, positions[..|positions| - 1]) + [table[positions[|positions| - 1]]]
  }

  // ------------------------------------------------------------ artifact

  const ArtifactPrefix: string := "weather_model_"

  /** f'weather_model_{timestamp}.pkl' with the timestamp strftime('%Y%m%d_%H%M%S'). */
  function ArtifactName(now: DateTime): (name: string)
    requires ValidDateTime(now)
    ensures |name| == |ArtifactPrefix| + 15 + |PklSuffix|
    ensures IsPkl(name)
  {
    var name := ArtifactPrefix + Stamp(now) + PklSuffix;
    assert name[|name| - |PklSuffix|..] == PklSuffix;
    name
  }

  // ---------------------------------------------------------- the run

  /** What train_and_save_model ends with, and the models directory after it. */
  function Train(file: CsvFile, now: DateTime, shuffle: nat -> seq<nat>, dir: seq<ModelFile>): Run
    requires ValidDateTime(now) && Shuffles(shuffle) && DistinctNames(dir)
  {
    match file
    case None => Run(NoObservationsFile, dir)
    case Some(lines) =>
      if lines == [] then Run(EmptyFile, dir)
      else if !Tokenizes(lines) || !HasRequiredColumns(lines[0]) then Run(Failed, dir)
      else
        var kept := Retained(lines[0], lines[1..]);
        if kept == [] then Run(EmptyAfterCleaning, dir)
        else match Examples(lines[0], kept)
          case None => Run(Failed, dir)
          case Some(table) =>
            var (train, test) := Split(|table|, shuffle);
            SplitIsPartition(|table|, shuffle);
            var forest := Fit(Select(table, train));
            var name := ArtifactName(now);
            Run(Saved(name, train, test), Store(dir, ModelFile(name, Seconds(now), Some(forest))))
  }

  /** model.fit(X_train, y_train), identified by what it was fitted on. */
  function Fit(examples: seq<Example>): (r: Regressor)
    ensures |r.features| == |r.targets| == |examples|
  {
    if examples == [] then Regressor([], [])
    else
      var init := Fit(examples[..|examples| - 1]);
      var e := examples[|examples| - 1];
      Regressor(init.features + [e.x], init.targets + [e.y])
  }

  /** train_and_save_model, with the observations file, the clock, the shuffle and data/models as inputs. */
  method TrainAndSaveModel(file: CsvFile, now: DateTime, shuffle: nat -> seq<nat>, dir: seq<ModelFile>)
    returns (outcome: Outcome, models: seq<ModelFile>)
    requires ValidDateTime(now) && Shuffles(shuffle) && DistinctNames(dir)
    ensures Run(outcome, models) == Train(file, now, shuffle, dir)
  {
    models := dir;
    if file.None? {
      return NoObservationsFile, models;
    }
    var lines := file.value;
    if lines == [] {
      return EmptyFile, models;
    }
    var header := lines[0];
    if !Tokenizes(lines) || !HasRequiredColumns(header) {
      return Failed, models;
    }
    var kept := DropIncomplete(header, lines[1..]);
    if kept == [] {
      return EmptyAfterCleaning, models;
    }
    var examples := ExampleTable(header, kept);
    if examples.None? {
      return Failed, models;
    }
    var table := examples.value;
    var train, test;
    if |table| < 5 {
      train, test := Range(|table|), [];
    } else {
      var p := shuffle(|table|);
      test, train := p[..TestSize(|table|)], p[TestSize(|table|)..];
    }
    SplitIsPartition(|table|, shuffle);
    var forest := Fit(Select(table, train));
    var name := ArtifactName(now);
    models := Store(models, ModelFile(name, Seconds(now), Some(forest)));
    outcome := Saved(name, train, test);
  }

  /** df.dropna(subset=required_columns): the data lines with every required field present, in order. */
  method DropIncomplete(header: Line, data: seq<Line>) returns (kept: seq<Line>)
    requires HasRequiredColumns(header)
    ensures kept == Retained(header, data)
  {
    kept := [];
    for i := 0 to |data|
      invariant kept == Retained(header, data[..i])
    {
      assert data[..i + 1][..i] == data[..i];
      if Complete(header, data[i]) {
        kept := kept + [data[i]];
      }
    }
    assert data[..|data|] == data;
  }

  /** The date features and the X / y selection over the cleaned lines; None once a line cannot be used. */
  method ExampleTable(header: Line, kept: seq<Line>) returns (examples: Option<seq<Example>>)
    ensures examples == Examples(header, kept)
  {
    var table: seq<Example> := [];
    for i := 0 to |kept|
      invariant Examples(header, kept[..i]) == Some(table)
    {
      var e := ExampleOf(header, kept[i]);
      ExamplesStep(header, kept, i, table);
      if e.None? {
        return None;
      }
      table := table + [e.value];
    }
    assert kept[..|kept|] == kept;
    examples := Some(table);
  }

  // ------------------------------------------------------------- lemmas

  /** One more line either extends the table of a prefix by its example or makes the whole table fail. */
  lemma ExamplesStep(header: Line, lines: seq<Line>, i: nat, table: seq<Example>)
    requires i < |lines| && Examples(header, lines[..i]) == Some(table)
    ensures var e := ExampleOf(header, lines[i]);
      && (e.None? ==> Examples(header, lines) == None)
      && (e.Some? ==> Examples(header, lines[..i + 1]) == Some(table + [e.value]))
  {
    var all := lines[..i + 1];
    assert all[..i] == lines[..i] && all[i] == lines[i];
    if ExampleOf(header, lines[i]).None? {
      ExamplesFailFrom(header, lines, i + 1);
    }
  }

  /** Once a prefix of the lines fails, every longer prefix fails too. */
  lemma {:induction false} ExamplesFailFrom(header: Line, lines: seq<Line>, i: nat)
    requires 0 < i <= |lines| && Examples(header, lines[..i]) == None
    ensures Examples(header, lines) == None
    decreases |lines| - i
  {
    if i < |lines| {
      var j := i + 1;
      assert lines[..j][..j - 1] == lines[..i];
      ExamplesFailFrom(header, lines, j);
    } else {
      assert lines[..i] == lines;
    }
  }

  /** The training and test positions split the table: each line is used in exactly one of them. */
  lemma SplitIsPartition(n: nat, shuffle: nat -> seq<nat>)
    requires Shuffles(shuffle)
    ensures var (train, test) := Split(n, shuffle);
      && (forall i :: 0 <= i < |train| ==> train[i] < n)
      && (forall i :: 0 <= i < |test| ==> test[i] < n)
      && (forall m :: 0 <= m < n ==> (m in train) != (m in test))
      && (forall i, j :: 0 <= i < j < |train| ==> train[i] != train[j])
      && (forall i, j :: 0 <= i < j < |test| ==> test[i] != test[j])
  {
    if n < 5 {
      var r := Range(n);
      forall m | 0 <= m < n
        ensures m in r
      {
        assert r[m] == m;
      }
    } else {
      var p := shuffle(n);
      var t := TestSize(n);
      assert IsPermutation(p, n);
      var train, test := p[t..], p[..t];
      forall m | 0 <= m < n
        ensures (m in train) != (m in test)
      {
        assert m in p;
        var k :| 0 <= k < n && p[k] == m;
        if k < t {
          assert test[k] == m;
        } else {
          assert train[k - t] == m;
        }
      }
      assert forall i, j :: 0 <= i < j < |train| ==> train[i] == p[t + i] && train[j] == p[t + j];
    }
  }

  /**
   * The split rule: fewer than five lines train on all of them with an empty test set;
   * otherwise ceil(n / 5) lines are held out for testing and the rest train.
   */
  lemma SplitSizes(n: nat, shuffle: nat -> seq<nat>)
    requires Shuffles(shuffle)
    ensures var (train, test) := Split(n, shuffle);
      && (n < 5 ==> train == Range(n) && test == [])
      && (n >= 5 ==> 5 * (|test| - 1) < n <= 5 * |test| && |train| == n - |test| && test != [])
  {
    if n >= 5 {
      assert IsPermutation(shuffle(n), n);
    }
  }

  /** dropna keeps exactly the complete lines, in their order. */
  lemma {:induction false} RetainedLines(header: Line, lines: seq<Line>)
    requires HasRequiredColumns(header)
    ensures forall l :: l in Retained(header, lines) <==> l in lines && Complete(header, l)
    ensures |Retained(header, lines)| <= |lines|
  {
    if lines != [] {
      var init := lines[..|lines| - 1];
      RetainedLines(header, init);
      assert lines == init + [lines[|lines| - 1]];
    }
  }

  /** dropna of one line keeps it exactly when it is complete. */
  lemma RetainedOne(header: Line, l: Line)
    requires HasRequiredColumns(header)
    ensures Retained(header, [l]) == if Complete(header, l) then [l] else []
  {
    assert [l][..0] == [];
  }

  /** dropna works line by line: the lines kept from `a + b` are those kept from `a`, then those kept from `b`. */
  lemma {:induction false} RetainedConcat(header: Line, a: seq<Line>, b: seq<Line>)
    requires HasRequiredColumns(header)
    ensures Retained(header, a + b) == Retained(header, a) + Retained(header, b)
  {
    if b == [] {
      assert a + b == a;
    } else {
      var init, last := b[..|b| - 1], b[|b| - 1];
      var ab := a + b;
      assert ab[..|ab| - 1] == a + init && ab[|ab| - 1] == last;
      var kept := if Complete(header, last) then [last] else [];
      assert Retained(header, ab) == Retained(header, a + init) + kept;
      assert Retained(header, b) == Retained(header, init) + kept;
      RetainedConcat(header, a, init);
    }
  }

  /** A retained line has no missing value in any required column. */
  lemma RetainedComplete(header: Line, lines: seq<Line>, l: Line, c: string)
    requires HasRequiredColumns(header) && l in Retained(header, lines) && c in RequiredColumns
    ensures Lookup(header, l, c).Some? && !IsMissing(Lookup(header, l, c).value)
  {
    RetainedLines(header, lines);
    var k :| 0 <= k < |RequiredColumns| && RequiredColumns[k] == c;
  }

  /** Nothing is trained and data/models is left alone unless the run ends Saved. */
  lemma EarlyEndsWriteNothing(file: CsvFile, now: DateTime, shuffle: nat -> seq<nat>, dir: seq<ModelFile>)
    requires ValidDateTime(now) && Shuffles(shuffle) && DistinctNames(dir)
    ensures var r := Train(file, now, shuffle, dir);
      && (file.None? ==> r.outcome == NoObservationsFile)
      && (file == Some([]) ==> r.outcome == EmptyFile)
      && (!r.outcome.Saved? ==> r.models == dir)
  {
  }

  /**
   * A saved run writes one artifact under the timestamped name, fitted on the training
   * positions, keeps every other model file, and evaluates (has a test set) exactly
   * when at least five lines survived cleaning.
   */
  lemma SavedRun(file: CsvFile, now: DateTime, shuffle: nat -> seq<nat>, dir: seq<ModelFile>)
    requires ValidDateTime(now) && Shuffles(shuffle) && DistinctNames(dir)
    requires Train(file, now, shuffle, dir).outcome.Saved?
    ensures var r := Train(file, now, shuffle, dir);
      var lines := file.value;
      var kept := Retained(lines[0], lines[1..]);
      && lines != [] && HasRequiredColumns(lines[0]) && kept != []
      && r.outcome.name == ArtifactName(now)
      && (r.outcome.test != [] <==> |kept| >= 5)
      && (exists f :: f in r.models && f.name == ArtifactName(now) && f.mtime == Seconds(now) && f.payload.Some?)
      && (forall g :: g in dir && g.name != ArtifactName(now) ==> g in r.models)
  {
    var lines := file.value;
    var kept := Retained(lines[0], lines[1..]);
    var table := Examples(lines[0], kept).value;
    SplitSizes(|table|, shuffle);
  }

  /** Strings sharing a prefix and a suffix compare as their middles of equal length. */
  lemma SameAffixes(p: string, x: string, y: string, q: string)
    requires |x| == |y|
    ensures LexLess(p + x + q, p + y + q) <==> LexLess(x, y)
  {
    assert p + x + q == p + (x + q) && p + y + q == p + (y + q);
    LexLessConcat(p, x + q, p, y + q);
    LexLessConcat(x, q, y, q);
    LexLessIrreflexive(p);
    LexLessIrreflexive(q);
  }

  /** Artifact names sort as the instants they were written (years up to 9999). */
  lemma ArtifactNameOrder(a: DateTime, b: DateTime)
    requires ValidDateTime(a) && ValidDateTime(b) && a.date.year <= 9999 && b.date.year <= 9999
    ensures LexLess(ArtifactName(a), ArtifactName(b)) <==> Seconds(a) < Seconds(b)
  {
    var sa, sb := Stamp(a), Stamp(b);
    StampOrder(a, b);
    SameAffixes(ArtifactPrefix, sa, sb, PklSuffix);
  }
}
