# Blossom Buddy watering core, modelled in Dafny

Blossom Buddy is a Laravel application that tells plant owners when to water
next. This project models the three services that hold its logic:

- **The watering calculator** (`WateringCalculatorService`). It turns a plant's
  watering benchmark (`{value, unit}`, e.g. `{"6-12", "days"}`) and a series of
  daily humidity readings into five things:
  - a base interval;
  - an average humidity;
  - a tranche-based adjustment factor;
  - the adjusted interval, split into days and hours;
  - two French sentences: the next-watering message and the humidity
    explanation.
- **The forecast-horizon rule of the weather service** (`WeatherapiService`).
  - It decides how many forecast days a benchmark calls for.
  - It clamps a forecast request to the provider's horizon and names it in the
    cache.
- **The plant importer** (`PerenualPlantService::fetchAndStorePlants`).
  - For IDs 1..maxRequests it maps each payload onto a plant record and
    upserts it by API id.
  - It tallies the processed, created, updated and failed IDs.

Files:

- `wrappers.dfy`: `Option`.
- `php_text.dfy`: PHP's `trim`, `strtolower`, `explode` and `implode` on
  strings.
- `php_numbers.dfy`:
  - `floatval` and `intval` prefix parsing;
  - `round` (halves away from zero);
  - the rendering of integers and one-decimal floats in string interpolation.
- `benchmark.dfy`: the benchmark record and the tests both services apply to
  it.
- `watering_calculator.dfy`, `weatherapi.dfy`, `perenual_import.dfy`: the
  three services.

Modelling choices:

- Numbers are exact `real`s.
- The calculator's results are pure functions.
- The importer's loop is a method.
  - The HTTP client and the database are replaced by what they answer: a
    response and a save outcome per ID.
  - The plant table is a map from API id to record.
- Every text the services produce has a decoder, and a round-trip lemma shows
  that the text carries what it claims:
  - the watering message;
  - the humidity explanation;
  - the cache key;
  - a flattened list column.

Behaviour of the code that the model keeps:

- A range value ending in a dash, such as `"6-"`:
  - `explode` yields an empty second piece, so the `?? $range[0]` fallback
    never fires.
  - The calculator's base becomes half the lower bound (3.0 days).
  - The forecast horizon becomes `min(0, maxForecastDays)`.
- A value that does not start like a number parses to 0. It does not fall back
  to the default.

## Model

| member | source | states |
|---|---|---|
| WateringCalculator.ExtractAverageDays | app/Services/WateringCalculatorService.php:73-96 | The base interval is never negative, and it is exactly 7.0 whenever value or unit is missing or the lower-cased unit is not `days`. |
| WateringCalculator.AverageDaysOfRange | app/Services/WateringCalculatorService.php:84-91 | `{"lo-hi", "days"}` gives the midpoint (lo+hi)/2 of the range. |
| WateringCalculator.AverageDaysOfValue | app/Services/WateringCalculatorService.php:94-95 | `{"n", "days"}` gives n days. |
| WateringCalculator.AverageDaysOfOpenRange | app/Services/WateringCalculatorService.php:87-91 | `{"n-", "days"}` gives n/2: the second piece exists but is empty and reads as 0. |
| WateringCalculator.AverageDaysIgnoresQuotes | app/Services/WateringCalculatorService.php:84 | Wrapping the value in one more pair of `"` does not change the base interval. |
| WateringCalculator.AverageDaysOfNonNumeric | app/Services/WateringCalculatorService.php:94-95 | A single days value that does not start like a number gives 0.0, not the 7.0 default. |
| WateringCalculator.AverageDaysExamples | app/Services/WateringCalculatorService.php:73-96 | "7" days gives 7, "6-12" gives 9, "6-" gives 3, a `weeks` unit gives 7, a missing value gives 7. |
| WateringCalculator.AverageHumidity | app/Services/WateringCalculatorService.php:118-129 | The average has one decimal and is 60 when no reading is usable. Otherwise it is the mean of the usable readings rounded to one decimal with halves away from zero: the nearest tenth, and at a tie the one farther from zero. |
| WateringCalculator.AverageHumidityIgnoresNull | app/Services/WateringCalculatorService.php:120-122 | Inserting a null reading anywhere in the series does not change the average. |
| WateringCalculator.AverageHumidityWithin | app/Services/WateringCalculatorService.php:118-129 | If every usable reading lies between two one-decimal bounds, so does the rounded average. |
| WateringCalculator.NoReadingsNoAdjustment | app/Services/WateringCalculatorService.php:124-125 | A series with no usable reading averages to 60 and so gets factor 1.0. |
| WateringCalculator.HumidityAdjustment | app/Services/WateringCalculatorService.php:49-71 | The factor is a whole number of tenths, at least 0.3, and 1 on [40,70]. Above 70 it is 1 plus 0.1 for each full 10 points over 70. Below 40 it is 1 minus 0.1 for each full 10 points under 40, and exactly 0.3 at or below -30. |
| WateringCalculator.HumidityAdjustmentMonotone | app/Services/WateringCalculatorService.php:49-71 | More humidity never gives a smaller factor. |
| WateringCalculator.HumidityAdjustmentUncapped | app/Services/WateringCalculatorService.php:51-55 | There is no upper cap: humidity 70+10n gives factor 1+n/10 for every n. |
| WateringCalculator.HumidityAdjustmentExamples | app/Services/WateringCalculatorService.php:49-71 | 85 gives 1.1, 95 gives 1.2, 25 gives 0.9, 55 gives 1.0, -50 gives 0.3. |
| WateringCalculator.TranchePolicyIsHundredths | app/Services/WateringCalculatorService.php:70 | Every factor of the tranche policy already has two decimals, so `round($adjustment, 2)` does not change it. |
| WateringCalculator.ConvertToDaysAndHours | app/Services/WateringCalculatorService.php:98-116 | For a non-negative interval, hours are in [0,24). Days are the whole part, or one more with 0 hours exactly when the fractional hours round to 24. days·24+hours equals total_hours, which is the nearest integer to 24 times the interval. |
| WateringCalculator.ConvertExamples | app/Services/WateringCalculatorService.php:98-116 | 7.5 days gives (7, 12, 180); 7.7 gives (7, 17, 185); 6.999999 carries to (7, 0, 168); 9.0 gives (9, 0, 216). |
| WateringCalculator.WateringMessage | app/Services/WateringCalculatorService.php:131-145 | The message starts with "Prochain arrosage dans ". It ends in the plural `s` exactly when its last count is above 1: the days in the days-only form, the hours otherwise. For non-negative counts it decodes to exactly those days and hours. |
| WateringCalculator.WateringMessageRoundTrip | app/Services/WateringCalculatorService.php:131-145 | A string decodes to (days, hours) if and only if it is the message written for them. So the decoder accepts exactly the three written forms: hours alone when days is 0, days alone when hours is 0, otherwise both. It also pins the counts as written without leading zeros and the plural mark on each unit. |
| PhpNumbers.NumeralIsNatToString | app/Services/WateringCalculatorService.php:137 | A digit string with no leading zero is the one rendering of its value that `"{$n}"` produces, so a decoded count reads back to the same characters. |
| WateringCalculator.ZeroDaysRejected | app/Services/WateringCalculatorService.php:136-138 | A count of 0 followed by `jour` is not a message the service writes: with no whole days it writes the hours alone. It decodes to nothing. |
| WateringCalculator.ZeroHoursRejected | app/Services/WateringCalculatorService.php:140-144 | Days followed by ` et 0` are not a message the service writes: with no hours it writes the days alone. It decodes to nothing. |
| WateringCalculator.LeadingZeroRejected | app/Services/WateringCalculatorService.php:137 | A count written with a leading zero is not how `"{$hours}"` or `"{$days}"` renders an integer, and decodes to nothing. |
| WateringCalculator.SingularDaysRejected | app/Services/WateringCalculatorService.php:141-144 | A day count above one followed by `jour` without its `s` is not a message the service writes: it decodes to nothing, whatever follows. |
| WateringCalculator.AdjustmentTrend | app/Services/WateringCalculatorService.php:147-157 | The explanation says raised iff the factor is above 1 and lowered iff it is below 1. The percentage quoted is the nearest integer to the distance from 1 in percent. |
| WateringCalculator.HumidityExplanation | app/Services/WateringCalculatorService.php:147-160 | The explanation sentence reads back as the factor's trend and percentage: raised when the factor is above 1, lowered when below, unchanged otherwise. |
| WateringCalculator.ExplainRoundTrip | app/Services/WateringCalculatorService.php:147-160 | Each of the three sentences, whatever average it quotes, reads back exactly the trend and percentage it was written from. |
| PhpNumbers.FloatValOfFormatTenths | app/Services/WateringCalculatorService.php:151 | The average humidity as interpolated into the explanation reads back as the same number. |
| WateringCalculator.CalculateNextWatering | app/Services/WateringCalculatorService.php:11-47 | base_watering_days is the benchmark's base interval, average_humidity is the average of the series, and the factor is the adjustment for that average. adjusted_total_days is base times factor, and days, hours and total_hours are its breakdown. The message decodes to those days and hours, and so is exactly the message written for them. The explanation decodes to the factor's trend. |
| WateringCalculator.ExampleSingleValueHumid | app/Services/WateringCalculatorService.php:11-47 | "7" days at humidities 80, 85, 90 gives average 85, factor 1.1, 7.7 days, and 7 days 17 hours (185 hours), with the message "Prochain arrosage dans 7 jours et 17 heures". |
| WateringCalculator.ExampleRangeWithoutReadings | app/Services/WateringCalculatorService.php:11-47 | "6-12" days with only null readings gives 9 days, average 60, factor 1.0, 9 days 0 hours (216 hours), the days-only message and the "normale" explanation. |
| Benchmark.DaysRangePieces | app/Services/WateringCalculatorService.php:84-90 | A written-out range `lo-hi` is a days range whose two trimmed pieces are exactly the two numbers. |
| PhpText.QuoteTrimWrapped | app/Services/WateringCalculatorService.php:84 | `trim($v, '"')` gives the same result on `v` and on `"v"`. |
| PhpText.JoinSplit | app/Services/WateringCalculatorService.php:88 | Joining the pieces of `explode` with the same character restores the string. |
| PhpNumbers.IntValIsFloorOfFloatVal | app/Services/WeatherapiService.php:95-98 | `intval` of a piece is the whole part of its `floatval`. |
| Weatherapi.ForecastDays | app/Services/WeatherapiService.php:74-103 | The horizon never exceeds maxForecastDays. It is exactly maxForecastDays unless the benchmark is a days benchmark, and for one it is at least min(0, maxForecastDays). |
| Weatherapi.RangeUsesUpperBound | app/Services/WeatherapiService.php:92-95 | `{"lo-hi", "days"}` asks for min(hi, maxForecastDays): the upper bound, not the midpoint. |
| Weatherapi.SingleValueDays | app/Services/WeatherapiService.php:96-98 | `{"n", "days"}` asks for min(n, maxForecastDays). |
| Weatherapi.OpenRangeAsksForNothing | app/Services/WeatherapiService.php:92-95 | `{"n-", "days"}` asks for min(0, maxForecastDays) whatever n is. |
| Weatherapi.NonNumericAsksForNothing | app/Services/WeatherapiService.php:96-102 | A dash-free days value that does not start like a number asks for min(0, maxForecastDays): there is no lower clamp. |
| Weatherapi.ForecastDaysExamples | app/Services/WeatherapiService.php:74-103 | With a five-day horizon: "6-12" gives 5, "1-3" gives 3, "2" gives 2, a `weeks` unit gives 5, a missing value gives 5. |
| Weatherapi.HorizonMatchesBaseInterval | app/Services/WeatherapiService.php:96-102 | For a single value the horizon is min(⌊calculator's base interval⌋, maxForecastDays): both services take the same branch on the same cleaned value. |
| Weatherapi.HorizonCoversBaseInterval | app/Services/WeatherapiService.php:92-102 | For a range whose ends are in order, the horizon is at least min(⌊calculator's base interval⌋, maxForecastDays). |
| Weatherapi.PlanForecast | app/Services/WeatherapiService.php:25-29 | The requested count is at most both the asked-for count and maxForecastDays, and equals one of them. The cache key decodes to the city and that count. |
| Weatherapi.CacheKeyRoundTrip | app/Services/WeatherapiService.php:29 | City and count are read back from `weather_forecast_{city}_{days}_days`, even when the city contains `_`. |
| Weatherapi.CacheKeyInjective | app/Services/WeatherapiService.php:29 | Two requests share a cache key only if they have the same city and the same count. |
| Weatherapi.PlanForecastExamples | app/Services/WeatherapiService.php:27-29 | Ten days for Paris with a five-day horizon is the request for 5 days keyed `weather_forecast_Paris_5_days`. Three days is kept. |
| PerenualImport.Flatten | app/Services/PerenualPlantService.php:58-62 | A column is null exactly when the field is null, and a scalar passes through unchanged. A list whose items hold no `,` reads back from the column, which the decoder accepts only with `, ` between items. An empty list gives the empty string. |
| PerenualImport.FlattenListRoundTrip | app/Services/PerenualPlantService.php:58-62 | Splitting a `, `-joined non-empty list at its `, ` separators recovers the list. |
| PerenualImport.BareCommaRejected | app/Services/PerenualPlantService.php:58-62 | A `,` not followed by a space is not a separator the column format writes: such a column reads back as nothing. |
| PerenualImport.ToRecord | app/Services/PerenualPlantService.php:49-63 | There is a record exactly when the payload has an id, and api_id is that id. common_name is the name or `Unknown`, and family is the family or null. The other four columns are faithful flattenings of their fields. |
| PerenualImport.ToRecordExample | app/Services/PerenualPlantService.php:55-63 | A payload with no name and a two-item scientific name maps to `Unknown` and the joined name. |
| PerenualImport.StoredRecord | app/Services/PerenualPlantService.php:41-79 | An ID stores a record exactly when the request succeeded, the payload is present and has an id, and the save did not throw. |
| PerenualImport.RequestCount | app/Services/PerenualPlantService.php:23-34 | A null limit means one request, and a negative limit means none. |
| PerenualImport.ProcessId | app/Services/PerenualPlantService.php:35-79 | Each ID is counted once. A rejected ID counts one error, is logged, and changes nothing else. A stored ID upserts its record under its API id: a creation when the id is new, an update when it is already there. The table grows by the number of creations. |
| PerenualImport.FailedUpTo | app/Services/PerenualPlantService.php:34-80 | The error log after IDs 1..k holds exactly the IDs in 1..k whose request failed, whose payload was empty or had no id, or whose save threw. They are in strictly increasing order. |
| PerenualImport.FetchAndStorePlants | app/Services/PerenualPlantService.php:21-83 | processed is max(limit, 0), with one when the limit is null, and equals created+updated+errors. errors is the length of the log, and the log equals `FailedUpTo` of processed. The table afterwards holds each earlier key plus each stored API id, each with its latest record. Its size grows by exactly the number of creations. |

## Left out

- HTTP requests, the cache store, timeouts and logging are not modelled.
  - `getForecast` (app/Services/WeatherapiService.php:31-71) is modelled only up to the clamped count and the cache key.
  - In the importer, what the provider and `updateOrCreate` answer for ID i is the parameter `source(i)`.
  - Log lines are modelled only as the list of IDs the importer reports as failed.
- Floating point is not modelled. Numbers are exact reals, so the float noise that `round($adjustment, 2)` removes does not arise.
- `total_hours` is a PHP float (the result of `round`) but is an integer in the model.
- `floatval` and `intval` are modelled only for what reaches them here: leading whitespace, an optional `+`, then `digits[.digits]`, with 0 when there is no numeric prefix. The following are not modelled:
  - a `-` sign, which never reaches them because pieces are split on `-` and single values contain none;
  - exponents;
  - hexadecimal;
  - `INF`.
- Non-numeric humidity entries are folded into null: the series is a sequence of optional reals.
- Readings outside [0,100] are not excluded: the code drops only null and non-numeric entries (app/Services/WateringCalculatorService.php:120-122), and so does the model. AverageHumidityWithin states what does hold: bounded readings give a bounded average.
- An empty second range piece reads as 0. The `?? $range[0]` fallback applies only to a missing piece, which `explode` never produces once a `-` is present (app/Services/WateringCalculatorService.php:88-90).
- No per-day forecast normaliser exists: `getForecast` returns the provider's raw payload (app/Services/WeatherapiService.php:64), so the humidity series is an input of the calculator.
- Idempotence of the calculator holds because every operation is a pure function; no lemma states it.
- The importer's payload is modelled with simplifications:
  - `common_name` and `family` are modelled as strings or null; an array in those fields is not modelled.
  - A failed save is assumed to leave the table unchanged.
  - A payload that is not an array is modelled as an absent body.
- The importer's flattening of the watering benchmark into a `"value, unit"` string is not connected to the calculator's keyed benchmark.
- WateringCalculator.HumidityExplanation: the decoder reads back the trend and percentage only. That the quoted average reads back is stated separately by PhpNumbers.FloatValOfFormatTenths.
- PhpNumbers.FloatValOfFormatTenths: stated for non-negative averages only, because the `floatval` model reads no sign. Humidity averages are non-negative whenever the readings are.
- PerenualImport.Flatten: an absent `scientific_name`, `origin`, `default_image` or `watering_general_benchmark` key is not modelled. The code reads these keys without a default, outside the `try` (app/Services/PerenualPlantService.php:58-62). Under Laravel's error handler the undefined-key warning becomes an exception that escapes `fetchAndStorePlants`, so the remaining IDs are skipped and the tallies are not returned. The model treats these four keys as present and models only a null value.
- PerenualImport.FetchAndStorePlants: the model assumes every request gets an HTTP response. `Http::timeout(30)->get(...)` (app/Services/PerenualPlantService.php:35) runs outside the `try`. A connection failure or timeout throws out of `fetchAndStorePlants`, so the remaining IDs are skipped and no tally is returned. The unconditional `processed == RequestCount(...)` holds only for runs without such a failure.
- Weatherapi.PlanForecast: the default of 5 days for `getForecast`'s `$days` parameter (app/Services/WeatherapiService.php:25) is not modelled; the count is always an explicit argument.
- Weatherapi.HorizonCoversBaseInterval: stated only for ranges whose lower end does not exceed the upper end. For an inverted range such as "12-6", the midpoint exceeds the upper end.
- PerenualImport.FlattenListRoundTrip: stated for non-empty lists whose items contain no `,`. Other lists are flattened the same way but cannot be read back unambiguously.
- Controllers, models, migrations, routes, the console command and the service provider are not part of this model.
