/**
 The pure part of the weather service: how many forecast days a plant's
 watering benchmark calls for, and how a forecast request is clamped to the
 provider's horizon and named in the cache. Fetching, caching and logging
 are not modelled.
 */
module Weatherapi {
  import opened Wrappers
  import opened PhpText
  import opened PhpNumbers
  import opened Benchmark
  import WateringCalculator

  /** PHP `min` on two integers. */
  function Min(a: int, b: int): (r: int)
    ensures r <= a && r <= b && (r == a || r == b)
  {
    if a <= b then a else b
  }

  // ---------------------------------------------------------------------------
  // Forecast horizon
  // ---------------------------------------------------------------------------

  /**
   The number of forecast days for a benchmark: the horizon `maxForecastDays`
   unless it is a `days` benchmark; for a range, the integer part of its upper
   end; otherwise the integer part of the value; in both cases capped at the
   horizon, with no lower clamp.
   */
  function ForecastDays(b: WateringBenchmark, maxForecastDays: int): (r: int)
    ensures r <= maxForecastDays
    ensures !IsDaysBenchmark(b) ==> r == maxForecastDays
    ensures IsDaysBenchmark(b) ==> r >= Min(0, maxForecastDays)
  {
    if b.value.None? || b.unit.None? then maxForecastDays
    else if ToLower(b.unit.value) != "days" then maxForecastDays
    else
      var maxDays := if IsRange(b) then IntVal(HighPiece(b)) else IntVal(CleanValue(b));
      Min(maxDays, maxForecastDays)
  }

  /**
   Proof plumbing: exposes the range branch of `ForecastDays` (the integer the
   second piece starts with, capped).
   */
  lemma ForecastDaysOfRange(b: WateringBenchmark, maxForecastDays: int)
    requires IsDaysBenchmark(b) && IsRange(b)
    ensures ForecastDays(b, maxForecastDays) == Min(IntVal(HighPiece(b)), maxForecastDays)
  {
  }

  /**
   Proof plumbing: exposes the single-value branch of `ForecastDays` (the
   integer the value starts with, capped).
   */
  lemma ForecastDaysOfSingleValue(b: WateringBenchmark, maxForecastDays: int)
    requires IsDaysBenchmark(b) && !IsRange(b)
    ensures ForecastDays(b, maxForecastDays) == Min(IntVal(CleanValue(b)), maxForecastDays)
  {
  }

  /** `{"lo-hi", "days"}` asks for the upper end `hi`, not the midpoint, capped. */
  lemma RangeUsesUpperBound(lo: nat, hi: nat, maxForecastDays: int)
    ensures ForecastDays(DaysRange(lo, hi), maxForecastDays) == Min(hi, maxForecastDays)
  {
    DaysRangePieces(lo, hi);
    ForecastDaysOfRange(DaysRange(lo, hi), maxForecastDays);
    FloatValOfDigits(NatToString(hi));
  }

  /** `{"n", "days"}` asks for n days, capped. */
  lemma SingleValueDays(n: nat, maxForecastDays: int)
    ensures ForecastDays(DaysValue(n), maxForecastDays) == Min(n, maxForecastDays)
  {
    DaysValueClean(n);
    ForecastDaysOfSingleValue(DaysValue(n), maxForecastDays);
    FloatValOfDigits(NatToString(n));
  }

  /**
   `{"n-", "days"}`: the piece after the dash exists but is empty, so the
   request is for `min(0, horizon)` days whatever n is.
   */
  lemma OpenRangeAsksForNothing(n: nat, maxForecastDays: int)
    ensures ForecastDays(WateringBenchmark(Some(NatToString(n) + "-"), Some("days")), maxForecastDays)
         == Min(0, maxForecastDays)
  {
    var a := NatToString(n);
    var b := WateringBenchmark(Some(a + "-"), Some("days"));
    OpenRangePieces(a);
    assert ToLower("days") == "days";
    assert HighPiece(b) == "";
    ForecastDaysOfRange(b, maxForecastDays);
    FloatValOfDigits("");
  }

  /** A single `days` value that does not start like a number asks for `min(0, horizon)` days. */
  lemma NonNumericAsksForNothing(v: string, maxForecastDays: int)
    requires |v| > 0 && !IsDigit(v[0]) && !IsNumericSpace(v[0]) && v[0] !in "+.\""
    requires '-' !in v
    ensures ForecastDays(WateringBenchmark(Some(v), Some("days")), maxForecastDays) == Min(0, maxForecastDays)
  {
    assert ToLower("days") == "days";
    TrimStartNoop(v, IsQuote);
    var c := TrimStart(v, IsQuote);
    TrimEndKeepsFirst(c, IsQuote);
    NonNumericIsZero(TrimEnd(c, IsQuote));
  }

  /** The documented values with a five-day horizon. */
  lemma ForecastDaysExamples()
    ensures ForecastDays(DaysRange(6, 12), 5) == 5
    ensures ForecastDays(DaysRange(1, 3), 5) == 3
    ensures ForecastDays(DaysValue(2), 5) == 2
    ensures ForecastDays(WateringBenchmark(Some("7"), Some("weeks")), 5) == 5
    ensures ForecastDays(WateringBenchmark(None, Some("days")), 5) == 5
  {
    RangeUsesUpperBound(6, 12, 5);
    RangeUsesUpperBound(1, 3, 5);
    SingleValueDays(2, 5);
    assert |ToLower("weeks")| == 5;
  }

  /**
   For a single value the horizon is the whole part of the watering
   calculator's base interval, capped at the horizon.
   */
  lemma HorizonMatchesBaseInterval(b: WateringBenchmark, maxForecastDays: int)
    requires IsDaysBenchmark(b) && !IsRange(b)
    ensures ForecastDays(b, maxForecastDays) == Min(WateringCalculator.ExtractAverageDays(b).Floor, maxForecastDays)
  {
    ForecastDaysOfSingleValue(b, maxForecastDays);
    WateringCalculator.AverageDaysOfSingleValue(b);
    IntValIsFloorOfFloatVal(CleanValue(b));
  }

  /**
   For a range whose ends are in order the horizon is at least the whole part
   of the calculator's base interval: the upper end is never below the
   midpoint. Both are capped at the horizon.
   */
  lemma HorizonCoversBaseInterval(b: WateringBenchmark, maxForecastDays: int)
    requires IsDaysBenchmark(b) && IsRange(b)
    requires FloatVal(LowPiece(b)) <= FloatVal(HighPiece(b))
    ensures ForecastDays(b, maxForecastDays) >= Min(WateringCalculator.ExtractAverageDays(b).Floor, maxForecastDays)
  {
    var lo, hi := FloatVal(LowPiece(b)), FloatVal(HighPiece(b));
    var mid := WateringCalculator.ExtractAverageDays(b);
    WateringCalculator.AverageDaysOfRangeValue(b);
    assert mid <= hi;
    WateringCalculator.FloorMonotone(mid, hi);
    ForecastDaysOfRange(b, maxForecastDays);
    IntValIsFloorOfFloatVal(HighPiece(b));
  }

  // ---------------------------------------------------------------------------
  // Forecast requests
  // ---------------------------------------------------------------------------

  /** What `getForecast` asks for: the clamped day count and its cache key. */
  datatype ForecastRequest = ForecastRequest(days: int, cacheKey: string)

  const CacheKeyPrefix: string := "weather_forecast_"
  const CacheKeySuffix: string := "_days"

  /** `weather_forecast_{city}_{days}_days`. */
  function CacheKey(city: string, days: int): string {
    CacheKeyPrefix + city + "_" + IntToString(days) + CacheKeySuffix
  }

  /**
   The request for `days` days of forecast for `city`: at most the provider's
   horizon, keyed by the city and the clamped count.
   */
  function PlanForecast(city: string, days: int, maxForecastDays: int): (r: ForecastRequest)
    ensures r.days <= days && r.days <= maxForecastDays
    ensures r.days == days || r.days == maxForecastDays
    ensures DecodeCacheKey(r.cacheKey) == Some((city, r.days))
  {
    var clamped := Min(days, maxForecastDays);
    CacheKeyRoundTrip(city, clamped);
    ForecastRequest(clamped, CacheKey(city, clamped))
  }

  /**
   Reads the city and day count back out of a cache key. The count is after
   the last `_` of the middle part, so a city may itself contain `_`.
   */
  function DecodeCacheKey(key: string): Option<(string, int)> {
    if |key| < |CacheKeyPrefix| + |CacheKeySuffix| then None
    else if key[..|CacheKeyPrefix|] != CacheKeyPrefix then None
    else if key[|key| - |CacheKeySuffix|..] != CacheKeySuffix then None
    else DecodeCityAndDays(key[|CacheKeyPrefix|..|key| - |CacheKeySuffix|])
  }

  /** Splits `{city}_{days}` at its last `_`. */
  function DecodeCityAndDays(middle: string): Option<(string, int)> {
    if '_' !in middle then None
    else
      var i := LastIndexOf(middle, '_');
      match ParseInt(middle[i + 1..])
      case None => None
      case Some(n) => Some((middle[..i], n))
  }

  lemma CacheKeyRoundTrip(city: string, days: int)
    ensures DecodeCacheKey(CacheKey(city, days)) == Some((city, days))
  {
    var middle := city + "_" + IntToString(days);
    var key := CacheKey(city, days);
    assert key == CacheKeyPrefix + middle + CacheKeySuffix;
    StripAffixes(CacheKeyPrefix, middle, CacheKeySuffix);
    CityAndDaysRoundTrip(city, days);
  }

  lemma StripAffixes(prefix: string, middle: string, suffix: string)
    ensures var key := prefix + middle + suffix;
      && key[..|prefix|] == prefix
      && key[|key| - |suffix|..] == suffix
      && key[|prefix|..|key| - |suffix|] == middle
  {
  }

  lemma CityAndDaysRoundTrip(city: string, days: int)
    ensures DecodeCityAndDays(city + "_" + IntToString(days)) == Some((city, days))
  {
    var d := IntToString(days);
    var middle := city + "_" + d;
    LastIndexOfBefore(city, '_', d);
    assert middle[|city| + 1..] == d;
    assert middle[..|city|] == city;
    ParseIntToString(days);
  }

  lemma LastIndexOfBefore(a: string, c: char, b: string)
    requires c !in b
    ensures c in a + [c] + b && LastIndexOf(a + [c] + b, c) == |a|
  {
    var s := a + [c] + b;
    assert s[|a|] == c;
    assert s[|a| + 1..] == b;
  }

  /** Two requests share a cache entry only if they are for the same city and count. */
  lemma CacheKeyInjective(city1: string, days1: int, city2: string, days2: int)
    requires CacheKey(city1, days1) == CacheKey(city2, days2)
    ensures city1 == city2 && days1 == days2
  {
    CacheKeyRoundTrip(city1, days1);
    CacheKeyRoundTrip(city2, days2);
  }

  /** A ten-day request is clamped to a five-day horizon; a shorter one is kept. */
  lemma PlanForecastExamples()
    ensures PlanForecast("Paris", 10, 5) == ForecastRequest(5, "weather_forecast_Paris_5_days")
    ensures PlanForecast("Lyon", 3, 5).days == 3
  {
    ExampleParisKey();
  }

  lemma ExampleParisKey()
    ensures CacheKey("Paris", 5) == "weather_forecast_Paris_5_days"
  {
    assert IntToString(5) == "5";
  }
}
