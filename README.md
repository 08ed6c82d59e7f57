# Weather-Predictor, modelled in Dafny

Weather-Predictor is a small desktop application with a training script.

- **The desktop application** (`app/main.py`, `app/weather_api.py`) fetches the 3-hourly OpenWeatherMap forecast for a city. It folds the forecast into two day summaries, "tomorrow" and "the day after". It predicts tomorrow's maximum temperature with the newest trained model in `data/models`, and it shows a rain icon. Each successful query logs one or two observation rows to `data/observations/temperature_observations.csv`.
- **The training script** (`training/train_model.py`) reads that CSV file. It drops incomplete lines, derives calendar features from the forecast date and splits train from test. It fits a regressor and writes it as `weather_model_YYYYMMDD_HHMMSS.pkl`, and the application loads that file on its next start.

The project models the logic around the widgets, the HTTP call and the library calls:

| file | module | what it holds |
|---|---|---|
| `wrappers.dfy` | `Wrappers` | `Option` |
| `text.dfy` | `Text` | Python's `int()` on text, `str()` of an integer, `strip`, ASCII `lower`, `endswith`, `replace(c, '')`, zero padding, lexical order |
| `calendar.dfy` | `Calendar` | proleptic Gregorian dates; `toordinal`, `timetuple().tm_yday` and `weekday()`; pandas' `dayofyear` (month-offset table) and `dayofweek` (Sakamoto's method); `strftime` for the three formats used; parsing `YYYY-MM-DD` |
| `weather_api.dfy` | `WeatherApi` | `fetch_weather_data`'s loop as a method proved equal to a fold specification |
| `observation_log.dfy` | `ObservationLog` | the CSV file as `Option<seq<Line>>`: the header, the row encoding, append-mode writes, and pandas' by-name lookup with its NA strings |
| `model_store.dfy` | `ModelStore` | the `data/models` listing and what writing a file into it does |
| `app.dfy` | `App` | the icon classifier, model selection, the inference row, and `WeatherApp` with the fields `model`, `log` and `icon` that `__init__`, `load_model`, `save_observation` and `get_weather` change |
| `training.dfy` | `Training` | `train_and_save_model` as a method with its `dropna` loop and feature loop, proved equal to a specification function |
| `feedback_loop.dfy` | `FeedbackLoop` | how the two programs meet: the trainer reads back from a logged row the values the application wrote, with the same calendar features; a newly trained artifact is the model the application loads. Tomorrow's row carries the shown temperature, not the one the prediction was made from (see Findings) |

Everything the programs take from outside is a parameter. That covers:

- the API key and the HTTP response, already decoded into entries with their local calendar dates;
- today's date and the clock;
- the text in the city field;
- the listing of `data/models`, with modification times and what `joblib.load` produces;
- the regressor's `predict`, and scikit-learn's shuffling, a permutation of the row positions;
- whether the observations file can be opened, once for each save.

A trained regressor is identified with the table it was fitted on.

## Model

| member | source | states |
|---|---|---|
| WeatherApi.Fetched | app/weather_api.py:20-129 | Defined by its body: the sample record without a usable key, None on a failed request, else Aggregate of the entries, which is None when one lacks `dt`. Its behaviour is stated by SampleOnlyForLyon, DailyTemperature, DailyRainChance and DailyLastReadings. |
| WeatherApi.Aggregate | app/weather_api.py:58-119 | Defined by its body: the two day summaries folded from the entries of each day. Its behaviour is stated by DailyTemperature, DailyRainChance, DailyLastReadings and EntryTouchesOnlyItsDay. |
| WeatherApi.FetchWeatherData | app/weather_api.py:20-129 | The result is the sample record or None without a usable key. It is None when the request fails or an entry lacks `dt`. Otherwise it holds the two day summaries of the entries dated tomorrow and the day after. |
| WeatherApi.AbsorbEntry | app/weather_api.py:87-105 | One entry updates a day's running temp_max, rain chance and last three readings exactly as the fold specification's step does. |
| WeatherApi.SampleOnlyForLyon | app/weather_api.py:20-38 | Without a usable key, only a four-letter city spelling "lyon" in any letter case gets the fixed record; every other city gets None. |
| WeatherApi.NoEntriesNoValues | app/weather_api.py:58-119 | A missing or empty `list` gives both days with all five fields None. |
| WeatherApi.OtherDayEntryIgnored | app/weather_api.py:87-105 | An entry dated neither tomorrow nor the day after does not change the result. |
| WeatherApi.EntryTouchesOnlyItsDay | app/weather_api.py:87-105 | An entry dated tomorrow leaves the day-after summary as it was without it, and the other way round. |
| WeatherApi.DailyTemperature | app/weather_api.py:87-100 | A day's temp_max is None exactly when none of that day's entries has one. Otherwise it is one of their values and no smaller than any of them. |
| WeatherApi.DailyRainChance | app/weather_api.py:82-115 | A day's rain chance is None exactly when the day has no entry. Otherwise it is the truncated `pop*100` of an entry of that day whose value is the largest, with a missing `pop` counted as 0. |
| WeatherApi.DailyLastReadings | app/weather_api.py:94-105 | Humidity, pressure and wind speed are each None exactly when no entry of the day has one. Otherwise each is the value of the last entry of the day that has one. |
| WeatherApi.MaximaIgnoreOrder | app/weather_api.py:88-102 | Reordering the entries changes neither day's temp_max nor its rain chance. |
| WeatherApi.MissingDateSplit | app/weather_api.py:72-73 | Inserting entries that all have a date does not change whether some entry lacks one. |
| WeatherApi.Truncate | app/weather_api.py:109 | `int()` of a float truncates toward zero: the result is the integer part for non-negative and for negative values. |
| Calendar.NextDayOrdinal | app/weather_api.py:54-55 | `today + timedelta(days=1)` is a valid date one ordinal later. |
| Calendar.PythonFeatures | app/main.py:389-391 | day_of_year is in [1, year length], month is the date's month, and weekday is in [0, 6]. |
| Calendar.MondayIsZero | app/main.py:391 | `weekday()` numbers Monday 0 (2024-01-01 was a Monday). |
| Calendar.OrdinalOrder | app/weather_api.py:87 | Ordinals order dates as the calendar does, and equal ordinals mean equal dates. |
| Calendar.NextDayWeekday | app/main.py:391 | The day after a date has the next weekday, modulo 7; with MondayIsZero this fixes `weekday()` on every date. |
| Calendar.PandasDayOfYear | training/train_model.py:48 | Defined by its body: the month-offset table plus the day. Its behaviour is stated by DayOfYearAgrees. |
| Calendar.PandasDayOfWeek | training/train_model.py:50 | Defined by its body: Sakamoto's method. Its behaviour is stated by DayOfWeekAgrees. |
| Calendar.DayOfYearAgrees | training/train_model.py:48 | pandas' `dt.dayofyear` equals Python's `tm_yday` on every valid date. |
| Calendar.DayOfWeekAgrees | training/train_model.py:50 | pandas' `dt.dayofweek` equals Python's `weekday()` on every valid date. |
| Calendar.FeaturesAgree | training/train_model.py:47-50 | Training derives the same (day_of_year, month, day_of_week) from a date as inference does. |
| Calendar.FormatDate | app/main.py:429 | `strftime('%Y-%m-%d')` is ten characters long with dashes at positions 4 and 7. |
| Calendar.FormatDateTime | app/main.py:427 | `strftime('%Y-%m-%d %H:%M:%S')` is 19 characters long: the date, a space, and two-digit fields separated by colons. |
| Calendar.ParseDate | training/train_model.py:47 | Whatever `pd.to_datetime` accepts is a valid calendar date. |
| Calendar.ParseFormatDate | training/train_model.py:47 | Parsing a date the application wrote gives back that date (years up to 9999). |
| Calendar.Stamp | training/train_model.py:90 | `strftime('%Y%m%d_%H%M%S')` is 15 characters long with `_` at position 8. |
| Calendar.StampOrder | training/train_model.py:90 | One stamp sorts before another exactly when its instant is earlier (years up to 9999). |
| Text.Strip | app/main.py:439 | The stripped text neither starts nor ends with whitespace. |
| Text.StripRemovesOnlySpace | app/main.py:439 | `strip()` returns a slice `s[i..j]` of its input, and every character before `i` and from `j` on is whitespace. |
| Text.StripEmpty | app/main.py:439-440 | `strip()` gives the empty text, so `not city_name` holds, if and only if the input is all whitespace. |
| Text.Lower | app/weather_api.py:23 | `lower()` keeps the length and lowers each character. |
| Text.RemoveAll | app/main.py:332 | `replace('%', '')` leaves no `%`, leaves a text without one unchanged, and turns a text of digits and `%` into digits. |
| Text.RemoveAllAbsent | app/main.py:332 | `replace(c, '')` returns a text holding no `c` unchanged. |
| Text.RemoveAllCounts | app/main.py:332 | `replace(c, '')` keeps each other character exactly as often as it occurs, and no `c`. |
| Text.RemoveAllConcat | app/main.py:332 | `replace(c, '')` on a concatenation is the concatenation of the two results, so the kept characters keep their order. |
| Text.ParseInt | app/main.py:332 | Defined by its body: Python's `int()` on text, with surrounding whitespace, a sign and `_` between digits. Its behaviour is stated by ParseIntToString. |
| Text.ParseIntToString | app/main.py:332 | `int()` reads back the text `str()` gives for any integer, negative ones included. |
| ObservationLog.EncodeRow | app/main.py:427-432 | Defined by its body: the eight cells `writer.writerow` writes, eight long. Its behaviour is stated by RowFollowsHeader and RowReadsBack. |
| ObservationLog.AppendAll | app/main.py:415-432 | Defined by its body: the file after one append per observation. Its behaviour is stated by FreshLog, ExistingLog, RowsInOrder and AppendAllSnoc. |
| ObservationLog.RowFollowsHeader | app/main.py:421-432 | Each of the data row's eight fields is the observation's value for the header column at the same position. |
| ObservationLog.HeaderPositions | app/main.py:421-425 | Each of the eight column names is found at its own position in the header. |
| ObservationLog.RowReadsBack | app/main.py:421-432 | Reading a logged row by column name under the logged header gives the field written for that name. |
| ObservationLog.ColumnIndexFinds | training/train_model.py:27 | A column lookup finds the first header field with that name; None means no field has it. |
| ObservationLog.SaveOnce | app/main.py:415-432 | One write adds the header exactly when the file did not exist, then exactly one row, and keeps every earlier line. |
| ObservationLog.AppendAllSnoc | app/main.py:418-432 | Saving one more observation extends the file of the earlier saves by that observation's row. |
| ObservationLog.FreshLog | app/main.py:415-432 | N saves on a missing file give the header followed by the N rows in order. |
| ObservationLog.ExistingLog | app/main.py:415-432 | N saves on an existing file append the N rows and keep every line before them. |
| ObservationLog.RowsInOrder | app/main.py:418-432 | The k-th row those N saves write is the k-th observation's row. |
| ModelStore.Store | training/train_model.py:92-94 | After the dump, the new file is listed. Any file with the same name is replaced, and every other file is kept. |
| App.Newest | app/main.py:368-374 | The chosen position is inside the listing; the rest of the selection is stated by NewestIsLatest. |
| App.Loaded | app/main.py:365-381 | Defined by its body: the chosen file's payload, None without one. Its behaviour is stated by LoadedModel. |
| App.LatestModel | app/main.py:368-374 | The loop's choice is the selection the specification `Newest` defines. |
| App.NewestIsLatest | app/main.py:368-374 | There is no choice exactly when no name ends in `.pkl`. Otherwise the choice is a `.pkl` file with the greatest mtime, and no earlier-listed `.pkl` file shares that mtime (the stable sort keeps listing order). |
| App.LoadedModel | app/main.py:367-381 | With no `.pkl` file the model is None. A loaded model is the payload of some `.pkl` file. |
| App.WeatherApp.LoadModel | app/main.py:365-381 | `model` becomes what loading the chosen file gives: None when there is no file or the load raises. |
| App.WeatherApp.constructor | app/main.py:113-114 | A new window holds the loaded model, the existing observations file, and the default icon that clearing the display sets. |
| App.InferenceByName | app/main.py:393-402 | The inference row has seven values, each the feature its column names. |
| App.InferenceRowShape | app/main.py:389-402 | The row holds the four API values, then day_of_year in [1, 366], month in [1, 12] and weekday in [0, 6]. |
| App.PredictWith | app/main.py:383-409 | Defined by its body. Its behaviour is stated by PredictionFallbacks. |
| App.PredictionFallbacks | app/main.py:387-409 | There is no prediction without a model. With a model, the prediction is the regressor's answer for the inference row, None when it raises. |
| App.RainPercent | app/main.py:329-334 | Defined by its body: `prob_int`. Its behaviour is stated by PercentText, PercentReadsBack and DefaultIcon. |
| App.IconFor | app/main.py:336-343 | Defined by its body: the three thresholds. Its behaviour is stated by IconForThresholds. |
| App.IconFile | app/main.py:329-343 | Defined by its body: `loading.gif` for 'loading', else the icon of `prob_int`. Its behaviour is stated by IconThresholds and DefaultIcon. |
| App.IconForThresholds | app/main.py:336-343 | Each of the four icons is chosen exactly on its range of percentages. |
| App.PercentReadsBack | app/main.py:329-334 | The text `f"{p}%"` is parsed back to p. |
| App.PercentText | app/main.py:329-334 | For a text without `%` followed by `%`, the parsed value is `int()` of the text, or -1 when `int()` fails. |
| App.IconThresholds | app/main.py:336-343 | A percentage p gives heavy_rain at 70 and above, rain at 40 to 69, sun at 0 to 39, and default below 0, each an if-and-only-if. |
| App.DefaultIcon | app/main.py:329-343 | The default icon shows exactly when the parsed value is negative. Text that is not a str, lacks a trailing `%` or fails to parse shows it. |
| App.NoChanceDefaultIcon | app/main.py:498 | A missing rain chance, shown as 'N/A', gives the default icon. |
| App.TomorrowObservation | app/main.py:463-477 | Tomorrow's row is a valid observation. Its values are stated by LoggedOnSuccess and TomorrowRowFeatures. |
| App.DayAfterObservation | app/main.py:464 | The day-after row is a valid observation. Its values are stated by LoggedOnSuccess. |
| App.RowsForForecast | app/main.py:450-509 | Every saved row is a valid observation. Which rows there are is stated by NothingLogged and LoggedOnSuccess. |
| App.LoggedObservations | app/main.py:438-509 | Defined by its body: no rows for an empty stripped city, else RowsForForecast. Its behaviour is stated by NothingLogged and LoggedOnSuccess. |
| App.WeatherApp.SaveObservation | app/main.py:411-436 | The file gains the header if it did not exist, then the observation's row, or stays unchanged when it cannot be opened. |
| App.Opened | app/main.py:415-436 | The rows whose save got the file open are at most the rows saved, and are valid when those are. Which ones they are is stated by SaveStep and OpenedAllOrNone. |
| App.SaveStep | app/main.py:415-436 | A save that opens the file appends its row to the file the earlier saves left, with the header when none of them created it; a save that fails leaves that file unchanged. |
| App.OpenedAllOrNone | app/main.py:500-509 | When every open succeeds, all rows are written in order; when none does, nothing is. |
| App.WeatherApp.GetWeather | app/main.py:438-514 | The file gains exactly the call's logged observations whose own open succeeded, in order. The icon is unchanged for an empty city, is the rain icon after a forecast with tomorrow's temp_max, and is the default otherwise. |
| App.WeatherApp.Show | app/main.py:450-514 | After the fetch, the file gains exactly the rows the forecast calls for whose open succeeded. The icon is the rain icon after a forecast with tomorrow's temp_max and the default otherwise. |
| App.WeatherApp.ShowAndSave | app/main.py:450-509 | After a forecast with tomorrow's temp_max, the rain icon is set. Tomorrow's row is appended when the first open succeeds, then the day-after row when it exists and the second open succeeds. |
| App.NothingLogged | app/main.py:439-450 | No observation is logged exactly when the stripped city is empty, the fetch gives None, or tomorrow's temp_max is None. |
| App.LoggedOnSuccess | app/main.py:466-509 | On success, tomorrow's row carries the save time, the city, tomorrow's date, the API temp_max and humidity, pressure and wind speed, with the prediction, or the API value without one, as model temperature. The day-after row is logged if and only if its temp_max exists. It carries the same time and city, the next date, that day's readings, and the API value in both temperature columns. |
| Training.TestSize | training/train_model.py:66-71 | Defined by its body: ceil(n/5), as scikit-learn rounds a 0.2 test fraction. Its behaviour is stated by SplitSizes. |
| Training.Split | training/train_model.py:66-71 | Defined by its body: the test set is the first TestSize shuffled positions, the train set the rest. Its behaviour is stated by SplitIsPartition and SplitSizes. |
| Training.Train | training/train_model.py:19-101 | Defined by its body: the outcome and models directory of one run. Its behaviour is stated by EarlyEndsWriteNothing, SavedRun and TrainedModelLoaded. |
| Training.TrainAndSaveModel | training/train_model.py:19-101 | The outcome and the resulting models directory are those of the specification `Train`. |
| Training.DropIncomplete | training/train_model.py:40 | The loop keeps exactly the lines the specification `Retained` keeps, in order. |
| Training.ExampleTable | training/train_model.py:47-63 | The loop builds the example table of the specification `Examples`, and fails exactly when it does. |
| Training.ExampleOf | training/train_model.py:54-63 | A usable line gives seven features and, as target, the number under `temp_observee_api`. |
| Training.ExampleByName | training/train_model.py:54-62 | The k-th feature of a usable line is the value of the k-th X column, looked up by name. |
| Training.RetainedLines | training/train_model.py:33-40 | `dropna` keeps a line if and only if it is complete in the six required columns. |
| Training.RetainedOne | training/train_model.py:33-40 | `dropna` on one line keeps that line exactly when it is complete, and otherwise gives no line. |
| Training.RetainedConcat | training/train_model.py:40 | `dropna` works line by line: on two tables one after the other it gives their results one after the other, so the kept lines keep their order. |
| Training.RetainedComplete | training/train_model.py:33-40 | Every retained line has a non-missing value in each required column. |
| Training.SplitIsPartition | training/train_model.py:66-71 | Every cleaned line is in exactly one of train and test, and neither uses a line twice. |
| Training.SplitSizes | training/train_model.py:66-71 | Fewer than five lines train on all of them with an empty test set. Otherwise the test set is ceil(n/5) lines, non-empty, and the rest train. |
| Training.EarlyEndsWriteNothing | training/train_model.py:22-44 | A missing file and an empty file end early. No outcome but Saved changes the models directory. |
| Training.SavedRun | training/train_model.py:66-94 | A saved run names its artifact from the clock and evaluates (has a test set) iff at least five lines survived. It writes a `.pkl` file with the run's mtime and keeps every other file. |
| Training.ArtifactName | training/train_model.py:90-91 | The name is 33 characters long and ends in `.pkl`, so the application's filter keeps it. |
| Training.ArtifactNameOrder | training/train_model.py:90-91 | Artifact names sort as the instants they were written (years up to 9999). |
| FeedbackLoop.DateIsNotMissing | app/main.py:429 | A logged forecast date never reads as one of pandas' NA strings. |
| FeedbackLoop.LoggedColumns | app/main.py:421-432 | A logged row, read under the logged header, has the six required columns with the date and numbers the application held. |
| FeedbackLoop.LoggedRowRetained | training/train_model.py:40 | A logged row survives `dropna` exactly when all five of its values were present. |
| FeedbackLoop.SameFeatureColumns | training/train_model.py:54-62 | X's columns are the inference row's columns, in the same order. |
| FeedbackLoop.LoggedFeatures | training/train_model.py:47-62 | For each X column, training reads from a logged row what an inference row built from that row's own values has there, the logged model temperature first (years up to 9999). |
| FeedbackLoop.TomorrowRowFeatures | app/main.py:466-503 | Against the row get_weather handed to predict, tomorrow's logged row reads back the same six last features. Its first feature agrees exactly when there was no prediction or the prediction equals the API temperature (years up to 9999). |
| FeedbackLoop.IntendedTomorrowRow | app/main.py:500-503 | Tomorrow's row with the API temperature under `temp_predite_modele` is a valid observation. |
| FeedbackLoop.IntendedRowFeatures | training/train_model.py:54-62 | With that row, every X column the trainer reads is the value get_weather handed to predict (years up to 9999). |
| FeedbackLoop.LoggedExample | training/train_model.py:47-63 | A logged complete row becomes the example whose features are the inference row built from its own values, the logged model temperature first, and whose target is the API temperature. |
| FeedbackLoop.NewerModelLoaded | app/main.py:368-377 | Writing a `.pkl` file newer than every `.pkl` file present makes it the model the application loads. |
| FeedbackLoop.TrainedModelLoaded | training/train_model.py:90-94 | After a saved run on a directory of older `.pkl` files, the application loads the regressor fitted on that run's training lines. |

## Findings

| source | as written | input that shows it | evidently intended | confidence | as-written member | corrected member |
|---|---|---|---|---|---|---|
| app/main.py:466-503 | get_weather predicts from the API temperature but logs the shown temperature, the prediction when there is one, under `temp_predite_modele`, the column the trainer reads as its first feature (training/train_model.py:54-62) | a model is loaded and predicts 21.0 for tomorrow while the API gives temp_max 20.0: inference feature 0 is 20.0, the logged row trains with 21.0 | the trainer's first feature is the value the prediction is made from, as the day-after row and a call without a model already log it | low: the intent is inferred from the feature names, not executed | FeedbackLoop.TomorrowRowFeatures | FeedbackLoop.IntendedRowFeatures |

The application's methods keep the logging the code does (App.TomorrowObservation). The corrected row is FeedbackLoop.IntendedTomorrowRow, and the train/serve agreement is proved for it.

## Left out

- The PyQt window, layout, clock, message boxes and label texts are not modelled. The pixmap and movie loading and their "..." and "?" placeholders are not modelled either. The icon is the file name `set_weather_icon_display` picks, and "loading" is `loading.gif`.
- The HTTP request, `raise_for_status`, JSON decoding, dotenv and reading the key from the environment are parameters. The response is `RequestFailed` or the `list`, already decoded into entries.
- `datetime.fromtimestamp` and its time zone are not modelled. An entry carries its local date, or None when `dt` is missing, which makes the whole fetch None as the KeyError branch does.
- `datetime.now()` is a parameter, and the artifact's mtime is the instant its name was taken from.
- App.WeatherApp.GetWeather: reads the clock once, as `now`. The source reads it for the fetch's `today`, for each of the two row dates and for each save's timestamp, so a call that spans midnight or a second is not modelled. Both rows carry the same timestamp.
- App.WeatherApp.Show: takes the same single clock reading `now` for the row dates and both timestamps.
- App.WeatherApp.ShowAndSave: takes the same single clock reading `now` for the row dates and both timestamps.
- The Python date range is not modelled. Years above 9999 are accepted, where Python raises; the round trips through the four-digit text formats are proved for years up to 9999.
- `pop` present with the value null is not modelled. There `pop * 100` raises and the fetch gives None; the model treats every absent `pop` as 0.
- `round(float(prediction), 1)` is not modelled: the prediction is the regressor's value. Floating-point error in `pop * 100` is not modelled; values are reals.
- The RandomForestRegressor's arithmetic is not modelled. A trained model is the table it was fitted on, and `predict` is a parameter that may answer None for an exception.
- The MAE evaluation only prints, so it is not modelled. Whether it happens is the test set being non-empty, stated in Training.SavedRun.
- `train_test_split(random_state=42)` is any permutation of the row positions. The test set is its first ceil(0.2·n) positions and the training set the rest, as scikit-learn computes the test size: rounding up, not to nearest.
- CSV quoting and number formatting are not modelled. A field is a string, a number or empty, and a number reads back as the same number: `str(x)` round-trips a float.
- Calendar.ParseDate: accepts every valid `YYYY-MM-DD` date from year 1. `pd.to_datetime` at its default nanosecond resolution rejects dates outside 1677-09-21 to 2262-04-11, which ends a training run in its generic failure; that rejection is not modelled.
- pandas' type inference is not modelled. A numeric column holding non-NA text makes training fail, as fitting would. Only `YYYY-MM-DD` dates are parsed, where pandas accepts more formats.
- A data line with more fields than the header is a parse failure. pandas' rule that makes the first column an index when every data line has exactly one extra field is not modelled.
- An observations file that exists but is empty gets no header when appended to, exactly as the code behaves.
- A failing `joblib.dump` is not modelled; the write always succeeds. The listing's order after a write puts a new name last.
- `if self.model:` is modelled as "a model is loaded"; a regressor is always truthy.
- Unicode case mapping is not modelled: `lower()` maps A-Z only. `strip()` removes exactly the characters Python's `str.isspace` accepts.
- Text.ParseInt: accepts only the ASCII digits 0-9. Python's `int()` also reads the other Unicode decimal digits (`int('٣') == 3`). The only text parsed is get_weather's `f"{prob_pluie_demain}%"`, a number's digits followed by `%`, which holds no such digit.
- Entries whose date is not tomorrow or the day after take no part in the result. Every other entry feeds exactly one of the two summaries (Forecast's two DayForecast parts with five fields each are the ten keys of the result dict).
