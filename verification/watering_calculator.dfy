/**
 The watering-interval calculator: from a plant's watering benchmark and a
 series of daily humidity readings it derives a base interval, a humidity
 adjustment factor, the adjusted interval split into days and hours, and two
 French sentences describing the result.
 */
module WateringCalculator {
  import opened Wrappers
  import opened PhpText
  import opened PhpNumbers
  import opened Benchmark

  /** Base interval used when the benchmark cannot be read. */
  const DefaultDays: real := 7.0

  /** Average humidity assumed when no reading is usable. */
  const DefaultHumidity: real := 60.0

  /** Lowest adjustment factor the policy allows. */
  const MinFactor: real := 0.3

  // ---------------------------------------------------------------------------
  // Base interval
  // ---------------------------------------------------------------------------

  /**
   The base number of days of a benchmark: the default unless it is a `days`
   benchmark; the mean of the two ends of a range; otherwise the number the
   value starts with (0 when it starts with none).
   */
  function ExtractAverageDays(b: WateringBenchmark): (r: real)
    ensures r >= 0.0
    ensures !IsDaysBenchmark(b) ==> r == DefaultDays
  {
    if b.value.None? || b.unit.None? then DefaultDays
    else if ToLower(b.unit.value) != "days" then DefaultDays
    else if IsRange(b) then (FloatVal(LowPiece(b)) + FloatVal(HighPiece(b))) / 2.0
    else FloatVal(CleanValue(b))
  }

  /**
   Proof plumbing: exposes the range branch of `ExtractAverageDays` (the mean
   of the numbers its two pieces start with) so callers need not unfold it.
   */
  lemma AverageDaysOfRangeValue(b: WateringBenchmark)
    requires IsDaysBenchmark(b) && IsRange(b)
    ensures ExtractAverageDays(b) == (FloatVal(LowPiece(b)) + FloatVal(HighPiece(b))) / 2.0
  {
  }

  /**
   Proof plumbing: exposes the single-value branch of `ExtractAverageDays`
   (the number the value starts with).
   */
  lemma AverageDaysOfSingleValue(b: WateringBenchmark)
    requires IsDaysBenchmark(b) && !IsRange(b)
    ensures ExtractAverageDays(b) == FloatVal(CleanValue(b))
  {
  }

  /** `{"lo-hi", "days"}` gives the midpoint of the range. */
  lemma AverageDaysOfRange(lo: nat, hi: nat)
    ensures ExtractAverageDays(DaysRange(lo, hi)) == (lo + hi) as real / 2.0
  {
    var b := DaysRange(lo, hi);
    DaysRangePieces(lo, hi);
    AverageDaysOfRangeValue(b);
    FloatValOfDigits(NatToString(lo));
    FloatValOfDigits(NatToString(hi));
    assert FloatVal(LowPiece(b)) + FloatVal(HighPiece(b)) == (lo + hi) as real;
  }

  /** `{"n", "days"}` gives n days. */
  lemma AverageDaysOfValue(n: nat)
    ensures ExtractAverageDays(DaysValue(n)) == n as real
  {
    DaysValueClean(n);
    AverageDaysOfSingleValue(DaysValue(n));
    FloatValOfDigits(NatToString(n));
  }

  /**
   `{"n-", "days"}`: the second piece is present but empty and reads as 0, so
   the result is half of n rather than n.
   */
  lemma AverageDaysOfOpenRange(n: nat)
    ensures ExtractAverageDays(WateringBenchmark(Some(NatToString(n) + "-"), Some("days"))) == n as real / 2.0
  {
    var a := NatToString(n);
    var b := WateringBenchmark(Some(a + "-"), Some("days"));
    OpenRangePieces(a);
    assert IsDaysBenchmark(b) by {
      assert ToLower("days") == "days";
    }
    assert LowPiece(b) == a && HighPiece(b) == "";
    AverageDaysOfRangeValue(b);
    FloatValOfDigits(a);
    FloatValOfDigits("");
  }

  /** The values in the documented examples. */
  lemma AverageDaysExamples()
    ensures ExtractAverageDays(DaysValue(7)) == 7.0
    ensures ExtractAverageDays(DaysRange(6, 12)) == 9.0
    ensures ExtractAverageDays(WateringBenchmark(Some("6-"), Some("days"))) == 3.0
    ensures ExtractAverageDays(WateringBenchmark(Some("7"), Some("weeks"))) == 7.0
    ensures ExtractAverageDays(WateringBenchmark(None, Some("days"))) == 7.0
  {
    AverageDaysOfValue(7);
    AverageDaysOfRange(6, 12);
    OpenRangeExample();
    assert |ToLower("weeks")| == 5;
  }

  lemma OpenRangeExample()
    ensures ExtractAverageDays(WateringBenchmark(Some("6-"), Some("days"))) == 3.0
  {
    assert NatToString(6) + "-" == "6-";
    AverageDaysOfOpenRange(6);
  }

  /** Extra surrounding quotes do not change the base interval. */
  lemma AverageDaysIgnoresQuotes(v: string, unit: Option<string>)
    ensures ExtractAverageDays(WateringBenchmark(Some("\"" + v + "\""), unit))
         == ExtractAverageDays(WateringBenchmark(Some(v), unit))
  {
    QuoteTrimWrapped(v);
  }

  /** A single value that does not start like a number gives 0 days, not the default. */
  lemma AverageDaysOfNonNumeric(b: WateringBenchmark)
    requires IsDaysBenchmark(b) && !IsRange(b)
    requires var v := CleanValue(b);
      |v| > 0 && !IsDigit(v[0]) && !IsNumericSpace(v[0]) && v[0] != '+' && v[0] != '.'
    ensures ExtractAverageDays(b) == 0.0
  {
    NonNumericIsZero(CleanValue(b));
  }

  // ---------------------------------------------------------------------------
  // Average humidity
  // ---------------------------------------------------------------------------

  /** The usable readings, in order: null and non-numeric entries are dropped. */
  function ValidReadings(s: seq<Option<real>>): (v: seq<real>)
    ensures |v| <= |s|
    ensures forall x :: x in v <==> Some(x) in s
  {
    if |s| == 0 then []
    else
      assert s == [s[0]] + s[1..];
      (if s[0].Some? then [s[0].value] else []) + ValidReadings(s[1..])
  }

  function Sum(xs: seq<real>): real {
    if |xs| == 0 then 0.0 else xs[0] + Sum(xs[1..])
  }

  function Mean(xs: seq<real>): real
    requires |xs| > 0
  {
    Sum(xs) / |xs| as real
  }

  /**
   The mean of the usable readings rounded to one decimal, or 60 when there is
   no usable reading.
   */
  function AverageHumidity(s: seq<Option<real>>): (r: real)
    ensures IsTenths(r)
    ensures |ValidReadings(s)| == 0 ==> r == DefaultHumidity
    ensures |ValidReadings(s)| > 0 ==> -0.05 <= r - Mean(ValidReadings(s)) <= 0.05
    ensures |ValidReadings(s)| > 0 && Mean(ValidReadings(s)) >= 0.0 ==>
      r - 0.05 <= Mean(ValidReadings(s)) < r + 0.05
    ensures |ValidReadings(s)| > 0 && Mean(ValidReadings(s)) < 0.0 ==>
      r - 0.05 < Mean(ValidReadings(s)) <= r + 0.05
  {
    var v := ValidReadings(s);
    if |v| == 0 then DefaultHumidity else RoundToTenth(Sum(v) / |v| as real)
  }

  lemma {:induction false} ValidReadingsConcat(a: seq<Option<real>>, b: seq<Option<real>>)
    ensures ValidReadings(a + b) == ValidReadings(a) + ValidReadings(b)
    decreases |a|
  {
    if |a| > 0 {
      assert (a + b)[0] == a[0];
      assert (a + b)[1..] == a[1..] + b;
      ValidReadingsConcat(a[1..], b);
    } else {
      assert a + b == b;
    }
  }

  /** A null entry anywhere in the series is ignored. */
  lemma AverageHumidityIgnoresNull(a: seq<Option<real>>, b: seq<Option<real>>)
    ensures AverageHumidity(a + [None] + b) == AverageHumidity(a + b)
  {
    ValidReadingsConcat(a + [None], b);
    ValidReadingsConcat(a, [None]);
    ValidReadingsConcat(a, b);
    assert ValidReadings([None]) == [];
    assert ValidReadings(a + [None] + b) == ValidReadings(a + b);
  }

  lemma {:induction false} SumBounds(xs: seq<real>, lo: real, hi: real)
    requires forall i :: 0 <= i < |xs| ==> lo <= xs[i] <= hi
    ensures |xs| as real * lo <= Sum(xs) <= |xs| as real * hi
    decreases |xs|
  {
    if |xs| > 0 {
      SumBounds(xs[1..], lo, hi);
      assert |xs| as real * lo == (|xs| - 1) as real * lo + lo;
      assert |xs| as real * hi == (|xs| - 1) as real * hi + hi;
    }
  }

  lemma MeanBounds(xs: seq<real>, lo: real, hi: real)
    requires |xs| > 0
    requires forall i :: 0 <= i < |xs| ==> lo <= xs[i] <= hi
    ensures lo <= Mean(xs) <= hi
  {
    SumBounds(xs, lo, hi);
    var n := |xs| as real;
    DivideBounds(Sum(xs), n, lo, hi);
  }

  lemma DivideBounds(s: real, n: real, lo: real, hi: real)
    requires n > 0.0 && n * lo <= s <= n * hi
    ensures lo <= s / n <= hi
  {
  }

  /**
   When every usable reading lies between two one-decimal bounds (0 and 100,
   say), so does the average humidity.
   */
  lemma AverageHumidityWithin(s: seq<Option<real>>, lo: real, hi: real)
    requires IsTenths(lo) && IsTenths(hi)
    requires exists x :: Some(x) in s
    requires forall x :: Some(x) in s ==> lo <= x <= hi
    ensures lo <= AverageHumidity(s) <= hi
  {
    var v := ValidReadings(s);
    var w :| Some(w) in s;
    assert w in v;
    forall i | 0 <= i < |v|
      ensures lo <= v[i] <= hi
    {
      assert v[i] in v;
    }
    MeanBounds(v, lo, hi);
    RoundToTenthMonotone(lo, Mean(v));
    RoundToTenthMonotone(Mean(v), hi);
    RoundToTenthFixes(lo);
    RoundToTenthFixes(hi);
  }

  /** A series without any reading falls back to 60%, which needs no adjustment. */
  lemma NoReadingsNoAdjustment(s: seq<Option<real>>)
    requires forall i :: 0 <= i < |s| ==> s[i].None?
    ensures AverageHumidity(s) == DefaultHumidity
    ensures HumidityAdjustment(AverageHumidity(s)) == 1.0
  {
    NoReadingsEmpty(s);
    var h := AverageHumidity(s);
    assert h == 60.0;
    var f := HumidityAdjustment(h);
    assert f == 1.0;
  }

  lemma {:induction false} NoReadingsEmpty(s: seq<Option<real>>)
    requires forall i :: 0 <= i < |s| ==> s[i].None?
    ensures ValidReadings(s) == []
  {
    if |s| > 0 {
      NoReadingsEmpty(s[1..]);
    }
  }

  // ---------------------------------------------------------------------------
  // Humidity adjustment
  // ---------------------------------------------------------------------------

  function Max(a: real, b: real): real {
    if a >= b then a else b
  }

  /**
   The tranche policy before rounding: +10% per full 10 points above 70,
   -10% per full 10 points below 40 but never below 0.3, no change between.
   */
  function TranchePolicy(h: real): real {
    if h > 70.0 then 1.0 + ((h - 70.0) / 10.0).Floor as real * 0.10
    else if h < 40.0 then Max(1.0 - ((40.0 - h) / 10.0).Floor as real * 0.10, MinFactor)
    else 1.0
  }

  /** Every factor of the policy is already a two-decimal number. */
  lemma TranchePolicyIsHundredths(h: real)
    ensures IsHundredths(TranchePolicy(h))
  {
    if h > 70.0 {
      var k := ((h - 70.0) / 10.0).Floor;
      assert TranchePolicy(h) * 100.0 == (100 + 10 * k) as real;
    } else if h < 40.0 {
      var k := ((40.0 - h) / 10.0).Floor;
      if 1.0 - k as real * 0.10 >= MinFactor {
        assert TranchePolicy(h) * 100.0 == (100 - 10 * k) as real;
      }
    }
  }

  /** Every factor of the policy is a whole number of tenths. */
  lemma TranchePolicyIsTenths(h: real)
    ensures IsTenths(TranchePolicy(h))
  {
    if h > 70.0 {
      var k := ((h - 70.0) / 10.0).Floor;
      assert TranchePolicy(h) == (10 + k) as real / 10.0;
      TenthsOf(10 + k);
    } else if h < 40.0 {
      var k := ((40.0 - h) / 10.0).Floor;
      if 1.0 - k as real * 0.10 >= MinFactor {
        assert TranchePolicy(h) == (10 - k) as real / 10.0;
        TenthsOf(10 - k);
      } else {
        TenthsOf(3);
      }
    } else {
      TenthsOf(10);
    }
  }

  /**
   The adjustment factor for an average humidity `h`, rounded to two
   decimals. Above 70 it is one plus a tenth per whole 10 points over 70; below
   40 it is one minus a tenth per whole 10 points under 40, floored at 0.3;
   between 40 and 70 it is 1.
   */
  function HumidityAdjustment(h: real): (r: real)
    ensures IsTenths(r)
    ensures r >= MinFactor
    ensures 40.0 <= h <= 70.0 ==> r == 1.0
    ensures h > 70.0 ==> r >= 1.0 && 70.0 + 100.0 * (r - 1.0) <= h < 80.0 + 100.0 * (r - 1.0)
    ensures h < 40.0 ==> r <= 1.0
    ensures -40.0 < h < 40.0 ==> 100.0 * (1.0 - r) <= 40.0 - h < 100.0 * (1.0 - r) + 10.0
    ensures h <= -30.0 ==> r == MinFactor
  {
    TranchePolicyIsTenths(h);
    TranchePolicyIsHundredths(h);
    RoundToHundredthFixes(TranchePolicy(h));
    RoundToHundredth(TranchePolicy(h))
  }

  lemma FloorMonotone(x: real, y: real)
    requires x <= y
    ensures x.Floor <= y.Floor
  {
  }

  /** More humidity never shortens the interval. */
  lemma HumidityAdjustmentMonotone(h1: real, h2: real)
    requires h1 <= h2
    ensures HumidityAdjustment(h1) <= HumidityAdjustment(h2)
  {
    TranchePolicyMonotone(h1, h2);
    TranchePolicyIsHundredths(h1);
    RoundToHundredthFixes(TranchePolicy(h1));
    TranchePolicyIsHundredths(h2);
    RoundToHundredthFixes(TranchePolicy(h2));
  }

  lemma TranchePolicyMonotone(h1: real, h2: real)
    requires h1 <= h2
    ensures TranchePolicy(h1) <= TranchePolicy(h2)
  {
    if h1 > 70.0 {
      FloorMonotone((h1 - 70.0) / 10.0, (h2 - 70.0) / 10.0);
    } else if h2 < 40.0 {
      FloorMonotone((40.0 - h2) / 10.0, (40.0 - h1) / 10.0);
    }
  }

  /** The factor has no upper cap: 70 + 10n gives 1 + n/10 for every n. */
  lemma HumidityAdjustmentUncapped(n: nat)
    ensures HumidityAdjustment(70.0 + 10.0 * n as real) == 1.0 + n as real / 10.0
  {
    var h := 70.0 + 10.0 * n as real;
    if n > 0 {
      assert (h - 70.0) / 10.0 == n as real;
    }
    TranchePolicyIsHundredths(h);
    RoundToHundredthFixes(TranchePolicy(h));
  }

  lemma HumidityAdjustmentExamples()
    ensures HumidityAdjustment(85.0) == 1.1
    ensures HumidityAdjustment(95.0) == 1.2
    ensures HumidityAdjustment(25.0) == 0.9
    ensures HumidityAdjustment(55.0) == 1.0
    ensures HumidityAdjustment(-50.0) == 0.3
  {
  }

  // ---------------------------------------------------------------------------
  // Days and hours
  // ---------------------------------------------------------------------------

  datatype Breakdown = Breakdown(days: int, hours: int, totalHours: int)

  lemma FloorShift(n: int, y: real)
    ensures (n as real + y).Floor == n + y.Floor
  {
  }

  /**
   Splits a number of days into whole days and the remaining hours rounded to
   the hour, carrying a rounded 24 into the next day, and the whole interval
   rounded to the hour.
   */
  function ConvertToDaysAndHours(t: real): (r: Breakdown)
    ensures t >= 0.0 ==> r.days >= 0 && 0 <= r.hours < 24
    ensures t >= 0.0 ==> r.days == t.Floor || (r.days == t.Floor + 1 && r.hours == 0)
    ensures t >= 0.0 ==> (r.days == t.Floor + 1 <==> (t - t.Floor as real) * 24.0 >= 23.5)
    ensures t >= 0.0 ==> r.days * 24 + r.hours == r.totalHours
    ensures t >= 0.0 ==> r.totalHours as real - 0.5 <= t * 24.0 < r.totalHours as real + 0.5
  {
    var days := t.Floor;
    var fraction := (t - days as real) * 24.0;
    var hours := RoundHalfAway(fraction);
    var total := RoundHalfAway(t * 24.0);
    FloorShift(24 * days, fraction + 0.5);
    assert t * 24.0 + 0.5 == (24 * days) as real + (fraction + 0.5);
    if hours >= 24 then Breakdown(days + 1, 0, total) else Breakdown(days, hours, total)
  }

  lemma ConvertExamples()
    ensures ConvertToDaysAndHours(7.5) == Breakdown(7, 12, 180)
    ensures ConvertToDaysAndHours(7.7) == Breakdown(7, 17, 185)
    ensures ConvertToDaysAndHours(6.999999) == Breakdown(7, 0, 168)
    ensures ConvertToDaysAndHours(9.0) == Breakdown(9, 0, 216)
  {
  }

  // ---------------------------------------------------------------------------
  // Messages
  // ---------------------------------------------------------------------------

  const MessagePrefix: string := "Prochain arrosage dans "

  /** The French plural mark: only for counts above one. */
  function Plural(n: int): string {
    if n > 1 then "s" else ""
  }

  /** The hour unit as written after the count `n`: " heure", plus "s" when n > 1. */
  function HourUnit(n: int): string {
    " heure" + Plural(n)
  }

  /** The day unit as written after the count `n`: " jour", plus "s" when n > 1. */
  function DayUnit(n: int): string {
    " jour" + Plural(n)
  }

  /** "<n> jour", with the plural mark when n > 1. */
  function DayPhrase(n: int): string {
    IntToString(n) + DayUnit(n)
  }

  /** "<n> heure", with the plural mark when n > 1. */
  function HourPhrase(n: int): string {
    IntToString(n) + HourUnit(n)
  }

  /** The text after the prefix: the hours alone, the days alone, or both. */
  function MessageBody(days: int, hours: int): string {
    if days == 0 then HourPhrase(hours)
    else if hours == 0 then DayPhrase(days)
    else DayPhrase(days) + " et " + HourPhrase(hours)
  }

  /**
   "Prochain arrosage dans ...": hours only when there are no whole days, days
   only when there are no hours, otherwise both. The decoder below reads back
   only messages of exactly these forms (`WateringMessageRoundTrip`), so the
   last ensures pins the whole message.
   */
  function WateringMessage(days: int, hours: int): (m: string)
    ensures StartsWith(m, MessagePrefix)
    ensures m[|m| - 1] == 's' <==> (if days != 0 && hours == 0 then days > 1 else hours > 1)
    ensures days >= 0 && hours >= 0 ==> DecodeWateringMessage(m) == Some((days, hours))
  {
    var m := MessagePrefix + MessageBody(days, hours);
    assert m[..|MessagePrefix|] == MessagePrefix;
    MessageBodyLastChar(days, hours);
    if days >= 0 && hours >= 0 then MessageBodyDecodes(days, hours); m else m
  }

  /**
   Reads the days and hours back out of a watering message. Counts must be
   written without leading zeros, a day count must be positive, the hours after
   " et " must be positive, and every unit carries the plural mark its count
   calls for.
   */
  function DecodeWateringMessage(m: string): Option<(int, int)> {
    if StartsWith(m, MessagePrefix) then DecodeCount(m[|MessagePrefix|..]) else None
  }

  function DecodeCount(s: string): Option<(int, int)> {
    var n := LeadingDigits(s);
    if !IsNumeral(n) then None else DecodeUnit(DigitsValue(n), s[|n|..])
  }

  /**
   Reads the unit after the leading count `n`. The plural mark must agree with
   the count, so a message with a wrong plural decodes to nothing.
   */
  function DecodeUnit(n: nat, s: string): Option<(int, int)> {
    if s == HourUnit(n) then Some((0, n))
    else if n > 0 && StartsWith(s, DayUnit(n)) then DecodeDaysTail(n, s[|DayUnit(n)|..])
    else None
  }

  /** Reads what follows the day count: nothing, or " et <hours> heure[s]" with hours > 0. */
  function DecodeDaysTail(days: nat, s: string): Option<(int, int)> {
    if s == "" then Some((days, 0))
    else if StartsWith(s, " et ") then
      var n := LeadingDigits(s[4..]);
      if IsNumeral(n) && DigitsValue(n) > 0 && s[4..][|n|..] == HourUnit(DigitsValue(n))
      then Some((days, DigitsValue(n)))
      else None
    else None
  }

  lemma ReadCount(n: nat, tail: string)
    requires |tail| > 0 && !IsDigit(tail[0])
    ensures LeadingDigits(NatToString(n) + tail) == NatToString(n)
    ensures (NatToString(n) + tail)[|NatToString(n)|..] == tail
  {
    LeadingDigitsOf(NatToString(n), tail);
  }

  lemma DecodeAfterPrefix(rest: string)
    ensures DecodeWateringMessage(MessagePrefix + rest) == DecodeCount(rest)
  {
    assert (MessagePrefix + rest)[..|MessagePrefix|] == MessagePrefix;
    assert (MessagePrefix + rest)[|MessagePrefix|..] == rest;
  }

  lemma DecodeCountOf(n: nat, tail: string)
    requires |tail| > 0 && !IsDigit(tail[0])
    ensures DecodeCount(NatToString(n) + tail) == DecodeUnit(n, tail)
  {
    ReadCount(n, tail);
    NatToStringIsNumeral(n);
  }

  lemma DecodeHourPhrase(n: nat)
    ensures DecodeCount(HourPhrase(n)) == Some((0, n))
  {
    var unit := HourUnit(n);
    assert HourPhrase(n) == NatToString(n) + unit;
    DecodeCountOf(n, unit);
  }

  lemma DecodeDayPhrase(n: nat, tail: string)
    requires n > 0 && (tail == "" || tail[0] == ' ')
    ensures DecodeCount(DayPhrase(n) + tail) == DecodeDaysTail(n, tail)
  {
    var unit := " jour" + Plural(n) + tail;
    assert DayPhrase(n) + tail == NatToString(n) + unit;
    DecodeCountOf(n, unit);
    DecodeDayUnit(n, tail);
  }

  lemma DecodeDayUnit(n: nat, tail: string)
    requires n > 0 && (tail == "" || tail[0] == ' ')
    ensures DecodeUnit(n, " jour" + Plural(n) + tail) == DecodeDaysTail(n, tail)
  {
    var s := " jour" + Plural(n) + tail;
    assert s != HourUnit(n) by {
      assert s[1] == 'j';
    }
    assert StartsWith(s, DayUnit(n)) by {
      assert s[..|DayUnit(n)|] == DayUnit(n);
    }
    assert s[|DayUnit(n)|..] == tail;
  }

  lemma DecodeDaysTailOf(days: nat, s: string, n: string)
    requires StartsWith(s, " et ") && LeadingDigits(s[4..]) == n
    requires IsNumeral(n) && DigitsValue(n) > 0
    requires s[4..][|n|..] == HourUnit(DigitsValue(n))
    ensures DecodeDaysTail(days, s) == Some((days, DigitsValue(n)))
  {
  }

  lemma DecodeHoursTail(days: nat, hours: nat)
    requires hours > 0
    ensures DecodeDaysTail(days, " et " + HourPhrase(hours)) == Some((days, hours))
  {
    var unit := HourUnit(hours);
    var h := NatToString(hours);
    var s := " et " + HourPhrase(hours);
    assert s == " et " + (h + unit);
    assert StartsWith(s, " et ") by {
      assert s[..4] == " et ";
    }
    assert s[4..] == h + unit;
    ReadCount(hours, unit);
    NatToStringIsNumeral(hours);
    assert s[4..][|h|..] == unit;
    DecodeDaysTailOf(days, s, h);
  }

  /** Each of the three forms reads back the counts it was written from. */
  lemma MessageBodyDecodes(days: nat, hours: nat)
    ensures DecodeWateringMessage(MessagePrefix + MessageBody(days, hours)) == Some((days, hours))
  {
    if days == 0 {
      DecodeAfterPrefix(HourPhrase(hours));
      DecodeHourPhrase(hours);
    } else if hours == 0 {
      DecodeAfterPrefix(DayPhrase(days));
      DecodeDayPhrase(days, "");
      assert DayPhrase(days) + "" == DayPhrase(days);
    } else {
      var tail := " et " + HourPhrase(hours);
      assert MessageBody(days, hours) == DayPhrase(days) + tail;
      DecodeAfterPrefix(DayPhrase(days) + tail);
      DecodeDayPhrase(days, tail);
      DecodeHoursTail(days, hours);
    }
  }

  /** The message ends in "s" exactly when its last count is above one. */
  lemma MessageBodyLastChar(days: int, hours: int)
    ensures var b := MessageBody(days, hours);
      |b| > 0 && (b[|b| - 1] == 's' <==> (if days != 0 && hours == 0 then days > 1 else hours > 1))
  {
  }

  /** What the day count may be followed by: nothing, or the positive hours. */
  lemma DaysTailIsWritten(days: nat, t: string, d: int, h: int)
    requires DecodeDaysTail(days, t) == Some((d, h))
    ensures d == days && h >= 0 && (if h == 0 then t == "" else t == " et " + HourPhrase(h))
  {
    if t != "" {
      var digits := LeadingDigits(t[4..]);
      NumeralIsNatToString(digits);
      assert t[4..] == digits + t[4..][|digits|..];
      assert t == t[..4] + t[4..];
    }
  }

  lemma UnitIsWritten(v: nat, u: string, d: int, h: int)
    requires DecodeUnit(v, u) == Some((d, h))
    ensures d >= 0 && h >= 0 && NatToString(v) + u == MessageBody(d, h)
  {
    if u == HourUnit(v) {
      assert d == 0 && h == v;
      assert MessageBody(0, v) == NatToString(v) + HourUnit(v);
    } else {
      var t := u[|DayUnit(v)|..];
      assert u == DayUnit(v) + t;
      DayUnitIsWritten(v, t, d, h);
      assert NatToString(v) + u == NatToString(v) + DayUnit(v) + t;
    }
  }

  lemma DayUnitIsWritten(v: nat, t: string, d: int, h: int)
    requires v > 0 && DecodeDaysTail(v, t) == Some((d, h))
    ensures d >= 0 && h >= 0 && NatToString(v) + DayUnit(v) + t == MessageBody(d, h)
  {
    DaysTailIsWritten(v, t, d, h);
    if h == 0 {
      assert MessageBody(v, 0) == NatToString(v) + DayUnit(v) + t;
    } else {
      assert MessageBody(v, h) == NatToString(v) + DayUnit(v) + t;
    }
  }

  lemma CountIsWritten(rest: string, d: int, h: int)
    requires DecodeCount(rest) == Some((d, h))
    ensures d >= 0 && h >= 0 && rest == MessageBody(d, h)
  {
    var n := LeadingDigits(rest);
    var u := rest[|n|..];
    assert DecodeUnit(DigitsValue(n), u) == Some((d, h));
    UnitIsWritten(DigitsValue(n), u, d, h);
    NumeralIsNatToString(n);
    assert rest == n + u;
  }

  /**
   Only messages of the three written forms decode: whatever reads back as
   (d, h) is, character for character, the message written for d days and h hours.
   */
  lemma DecodedMessageIsWritten(m: string)
    ensures DecodeWateringMessage(m).Some? ==>
              var (d, h) := DecodeWateringMessage(m).value;
              d >= 0 && h >= 0 && m == WateringMessage(d, h)
  {
    if DecodeWateringMessage(m).Some? {
      var (d, h) := DecodeWateringMessage(m).value;
      var rest := m[|MessagePrefix|..];
      assert m == MessagePrefix + rest;
      CountIsWritten(rest, d, h);
    }
  }

  /**
   The message names exactly the days and hours it was built from, and no
   other string reads back as those counts.
   */
  lemma WateringMessageRoundTrip(m: string, days: nat, hours: nat)
    ensures DecodeWateringMessage(m) == Some((days, hours)) <==> m == WateringMessage(days, hours)
  {
    DecodedMessageIsWritten(m);
  }

  /** A day count of zero is never written with the day unit. */
  lemma ZeroDaysRejected(tail: string)
    ensures DecodeWateringMessage(MessagePrefix + "0 jour" + tail) == None
  {
    var unit := " jour" + tail;
    assert MessagePrefix + "0 jour" + tail == MessagePrefix + (NatToString(0) + unit);
    DecodeAfterPrefix(NatToString(0) + unit);
    DecodeCountOf(0, unit);
    assert unit != HourUnit(0) by {
      assert unit[1] == 'j';
    }
  }

  /** Zero hours are never written after the days: " et 0" ends every decoding. */
  lemma ZeroHoursRejected(days: nat, tail: string)
    ensures DecodeWateringMessage(MessagePrefix + DayPhrase(days) + " et 0" + tail) == None
  {
    var rest := " et 0" + tail;
    if days == 0 {
      assert MessagePrefix + DayPhrase(0) + " et 0" + tail == MessagePrefix + "0 jour" + rest;
      ZeroDaysRejected(rest);
    } else {
      assert MessagePrefix + DayPhrase(days) + " et 0" + tail == MessagePrefix + (DayPhrase(days) + rest);
      DecodeAfterPrefix(DayPhrase(days) + rest);
      DecodeDayPhrase(days, rest);
      ZeroHoursTailRejected(days, tail);
    }
  }

  lemma ZeroHoursTailRejected(days: nat, tail: string)
    ensures DecodeDaysTail(days, " et 0" + tail) == None
  {
    var s := " et 0" + tail;
    assert StartsWith(s, " et ") by {
      assert s[..4] == " et ";
    }
    var after := s[4..];
    assert after[0] == '0';
    var n := LeadingDigits(after);
    assert |n| > 0 && n[0] == '0';
    if |n| == 1 {
      assert n[..0] == "";
      assert DigitsValue(n) == 0;
    }
  }

  /** A count written with a leading zero is not read back. */
  lemma LeadingZeroRejected(t: string)
    requires |t| > 0 && IsDigit(t[0])
    ensures DecodeWateringMessage(MessagePrefix + "0" + t) == None
  {
  }

  /**
   A day count above one written without its plural mark is not read back,
   whatever follows it.
   */
  lemma SingularDaysRejected(n: nat, tail: string)
    requires n > 1 && (tail == "" || tail[0] == ' ')
    ensures DecodeWateringMessage(MessagePrefix + NatToString(n) + " jour" + tail) == None
  {
    var unit := " jour" + tail;
    assert MessagePrefix + NatToString(n) + " jour" + tail == MessagePrefix + (NatToString(n) + unit);
    DecodeAfterPrefix(NatToString(n) + unit);
    DecodeCountOf(n, unit);
    SingularDayUnitRejected(n, tail);
  }

  lemma SingularDayUnitRejected(n: nat, tail: string)
    requires n > 1 && (tail == "" || tail[0] == ' ')
    ensures DecodeUnit(n, " jour" + tail) == None
  {
    var s := " jour" + tail;
    assert s != HourUnit(n) by {
      assert s[1] == 'j';
    }
    assert DayUnit(n) == " jours";
    if |s| >= 6 {
      assert s[5] == ' ';
    }
  }

  /** Which way the factor moved the interval, and by how many percent. */
  datatype Trend = Raised(percent: nat) | Lowered(percent: nat) | Unchanged

  /**
   Raised when the factor is above 1, lowered when below, unchanged at 1; the
   percentage is the change rounded to the nearest whole percent.
   */
  function AdjustmentTrend(factor: real): (t: Trend)
    ensures t.Raised? <==> factor > 1.0
    ensures t.Lowered? <==> factor < 1.0
    ensures t.Raised? ==> t.percent as real - 0.5 <= (factor - 1.0) * 100.0 < t.percent as real + 0.5
    ensures t.Lowered? ==> t.percent as real - 0.5 <= (1.0 - factor) * 100.0 < t.percent as real + 0.5
  {
    if factor > 1.0 then Raised(RoundHalfAway((factor - 1.0) * 100.0))
    else if factor < 1.0 then Lowered(RoundHalfAway((1.0 - factor) * 100.0))
    else Unchanged
  }

  const RaisedPrefix: string := "Humidité élevée ("
  const LoweredPrefix: string := "Humidité faible ("
  const UnchangedPrefix: string := "Humidité normale ("

  /**
   The sentence explaining the factor, quoting the average humidity: it reads
   back as the factor's trend and percentage.
   */
  function HumidityExplanation(average: real, factor: real): (e: string)
    requires IsTenths(average)
    ensures DecodeExplanation(e) == Some(AdjustmentTrend(factor))
  {
    var shown := FormatTenths(average);
    ExplainRoundTrip(shown, AdjustmentTrend(factor));
    Explain(shown, AdjustmentTrend(factor))
  }

  function Explain(shown: string, t: Trend): string {
    match t
    case Raised(p) => RaisedPrefix + shown + "%) : temps d'arrosage augmenté de " + NatToString(p) + "%"
    case Lowered(p) => LoweredPrefix + shown + "%) : temps d'arrosage réduit de " + NatToString(p) + "%"
    case Unchanged => UnchangedPrefix + shown + "%) : aucun ajustement nécessaire"
  }

  /** Reads the trend back out of an explanation. */
  function DecodeExplanation(e: string): Option<Trend> {
    if |e| == 0 then None
    else if StartsWith(e, RaisedPrefix) then Some(Raised(DigitsValue(TrailingDigits(e[..|e| - 1]))))
    else if StartsWith(e, LoweredPrefix) then Some(Lowered(DigitsValue(TrailingDigits(e[..|e| - 1]))))
    else if StartsWith(e, UnchangedPrefix) then Some(Unchanged)
    else None
  }

  lemma ReadPercent(front: string, p: nat)
    requires |front| > 0 && front[|front| - 1] == ' '
    ensures var e := front + NatToString(p) + "%";
      DigitsValue(TrailingDigits(e[..|e| - 1])) == p
  {
    var e := front + NatToString(p) + "%";
    assert e[..|e| - 1] == front + NatToString(p);
    TrailingDigitsOf(front, NatToString(p));
  }

  lemma RaisedRoundTrip(shown: string, p: nat)
    ensures DecodeExplanation(Explain(shown, Raised(p))) == Some(Raised(p))
  {
    var front := RaisedPrefix + shown + "%) : temps d'arrosage augmenté de ";
    var e := Explain(shown, Raised(p));
    assert e == front + NatToString(p) + "%";
    assert e[..|RaisedPrefix|] == RaisedPrefix;
    ReadPercent(front, p);
  }

  lemma LoweredRoundTrip(shown: string, p: nat)
    ensures DecodeExplanation(Explain(shown, Lowered(p))) == Some(Lowered(p))
  {
    var front := LoweredPrefix + shown + "%) : temps d'arrosage réduit de ";
    var e := Explain(shown, Lowered(p));
    assert e == front + NatToString(p) + "%";
    assert e[9] != RaisedPrefix[9];
    assert e[..|LoweredPrefix|] == LoweredPrefix;
    ReadPercent(front, p);
  }

  lemma UnchangedRoundTrip(shown: string)
    ensures DecodeExplanation(Explain(shown, Unchanged)) == Some(Unchanged)
  {
    var e := Explain(shown, Unchanged);
    assert e[9] != RaisedPrefix[9] && e[9] != LoweredPrefix[9];
    assert e[..|UnchangedPrefix|] == UnchangedPrefix;
  }

  /** Every explanation reads back exactly the trend and percentage it was written from. */
  lemma ExplainRoundTrip(shown: string, t: Trend)
    ensures DecodeExplanation(Explain(shown, t)) == Some(t)
  {
    match t
    case Raised(p) => RaisedRoundTrip(shown, p);
    case Lowered(p) => LoweredRoundTrip(shown, p);
    case Unchanged => UnchangedRoundTrip(shown);
  }

  // ---------------------------------------------------------------------------
  // The whole calculation
  // ---------------------------------------------------------------------------

  /** The array the calculator returns. */
  datatype WateringResult = WateringResult(
    baseWateringDays: real,
    averageHumidity: real,
    humidityAdjustmentFactor: real,
    adjustedTotalDays: real,
    days: int,
    hours: int,
    totalHours: int,
    message: string,
    humidityExplanation: string)

  /**
   Base days times the humidity factor, broken down into days and hours, with
   the two sentences describing the outcome.
   */
  function CalculateNextWatering(b: WateringBenchmark, dailyHumidity: seq<Option<real>>): (r: WateringResult)
    ensures r.baseWateringDays == ExtractAverageDays(b)
    ensures r.averageHumidity == AverageHumidity(dailyHumidity)
    ensures r.humidityAdjustmentFactor == HumidityAdjustment(r.averageHumidity)
    ensures r.baseWateringDays >= 0.0 && r.humidityAdjustmentFactor >= MinFactor
    ensures r.adjustedTotalDays == Scale(r.baseWateringDays, r.humidityAdjustmentFactor)
    ensures r.adjustedTotalDays >= 0.0
    ensures IsTenths(r.averageHumidity)
    ensures r.days >= 0 && 0 <= r.hours < 24
    ensures r.days * 24 + r.hours == r.totalHours
    ensures r.totalHours as real - 0.5 <= r.adjustedTotalDays * 24.0 < r.totalHours as real + 0.5
    ensures DecodeWateringMessage(r.message) == Some((r.days, r.hours))
    ensures DecodeExplanation(r.humidityExplanation) == Some(AdjustmentTrend(r.humidityAdjustmentFactor))
  {
    var average := AverageHumidity(dailyHumidity);
    Assemble(ExtractAverageDays(b), average, HumidityAdjustment(average))
  }

  function Assemble(baseDays: real, average: real, factor: real): (r: WateringResult)
    requires baseDays >= 0.0 && factor >= MinFactor && IsTenths(average)
    ensures r.baseWateringDays == baseDays && r.averageHumidity == average
    ensures r.humidityAdjustmentFactor == factor
    ensures r.adjustedTotalDays == Scale(baseDays, factor)
    ensures r.adjustedTotalDays >= 0.0
    ensures r.days >= 0 && 0 <= r.hours < 24
    ensures r.days * 24 + r.hours == r.totalHours
    ensures r.totalHours as real - 0.5 <= r.adjustedTotalDays * 24.0 < r.totalHours as real + 0.5
    ensures DecodeWateringMessage(r.message) == Some((r.days, r.hours))
    ensures DecodeExplanation(r.humidityExplanation) == Some(AdjustmentTrend(factor))
  {
    var adjusted := Scale(baseDays, factor);
    var breakdown := ConvertToDaysAndHours(adjusted);
    WateringResult(baseDays, average, factor, adjusted,
                   breakdown.days, breakdown.hours, breakdown.totalHours,
                   WateringMessage(breakdown.days, breakdown.hours),
                   HumidityExplanation(average, factor))
  }

  /** The base interval stretched by the humidity factor. */
  function Scale(days: real, factor: real): (r: real)
    requires days >= 0.0 && factor >= 0.0
    ensures r >= 0.0
  {
    days * factor
  }

  /**
   Proof plumbing: exposes how `CalculateNextWatering` composes its steps, for
   the worked examples below.
   */
  lemma CalculationSteps(b: WateringBenchmark, s: seq<Option<real>>, base: real, average: real, factor: real)
    requires ExtractAverageDays(b) == base
    requires AverageHumidity(s) == average
    requires HumidityAdjustment(average) == factor
    ensures CalculateNextWatering(b, s) == Assemble(base, average, factor)
  {
  }

  /** "7" days at humidities 80, 85 and 90: 7.7 days, i.e. 7 days and 17 hours. */
  lemma ExampleSingleValueHumid()
    ensures var r := CalculateNextWatering(DaysValue(7), [Some(80.0), Some(85.0), Some(90.0)]);
      && r.baseWateringDays == 7.0
      && r.averageHumidity == 85.0
      && r.humidityAdjustmentFactor == 1.1
      && r.adjustedTotalDays == 7.7
      && r.days == 7 && r.hours == 17 && r.totalHours == 185
      && r.message == "Prochain arrosage dans 7 jours et 17 heures"
  {
    var s := [Some(80.0), Some(85.0), Some(90.0)];
    AverageDaysOfValue(7);
    ExampleAverage();
    HumidityAdjustmentExamples();
    CalculationSteps(DaysValue(7), s, 7.0, 85.0, 1.1);
    var r := Assemble(7.0, 85.0, 1.1);
    assert Scale(7.0, 1.1) == 7.7;
    ConvertExamples();
    assert r.days == 7 && r.hours == 17;
    ExampleMessage();
  }

  lemma ExampleAverage()
    ensures AverageHumidity([Some(80.0), Some(85.0), Some(90.0)]) == 85.0
  {
    ExampleReadings();
    ExampleSum();
    RoundToTenthFixes(85.0);
  }

  lemma ExampleReadings()
    ensures ValidReadings([Some(80.0), Some(85.0), Some(90.0)]) == [80.0, 85.0, 90.0]
  {
    var s := [Some(80.0), Some(85.0), Some(90.0)];
    assert s[1..] == [Some(85.0), Some(90.0)];
    assert s[1..][1..] == [Some(90.0)];
  }

  lemma ExampleSum()
    ensures Sum([80.0, 85.0, 90.0]) == 255.0
  {
    assert [80.0, 85.0, 90.0][1..] == [85.0, 90.0];
    assert [85.0, 90.0][1..] == [90.0];
  }

  lemma ExampleMessage()
    ensures WateringMessage(7, 17) == "Prochain arrosage dans 7 jours et 17 heures"
  {
    ExampleMessageParts();
    assert MessagePrefix + MessageBody(7, 17) == "Prochain arrosage dans 7 jours et 17 heures";
  }

  lemma ExampleMessageParts()
    ensures MessageBody(7, 17) == "7 jours" + " et " + "17 heures"
  {
    ExampleDayPhrase();
    ExampleHourPhrase();
  }

  lemma ExampleDayPhrase()
    ensures DayPhrase(7) == "7 jours"
  {
  }

  lemma ExampleHourPhrase()
    ensures HourPhrase(17) == "17 heures"
  {
    assert NatToString(17) == "17";
  }

  /** "6-12" days with no humidity data: 9 days exactly, no adjustment. */
  lemma ExampleRangeWithoutReadings()
    ensures var r := CalculateNextWatering(DaysRange(6, 12), [None, None, None]);
      && r.baseWateringDays == 9.0
      && r.averageHumidity == 60.0
      && r.humidityAdjustmentFactor == 1.0
      && r.adjustedTotalDays == 9.0
      && r.days == 9 && r.hours == 0 && r.totalHours == 216
      && r.message == "Prochain arrosage dans 9 jours"
      && r.humidityExplanation == UnchangedPrefix + "60" + "%) : aucun ajustement nécessaire"
  {
    ExampleRangeSteps();
    assert Scale(9.0, 1.0) == 9.0;
    ConvertExamples();
    ExampleDaysOnlyMessage();
    ExampleUnchangedExplanation();
  }

  lemma ExampleRangeSteps()
    ensures CalculateNextWatering(DaysRange(6, 12), [None, None, None]) == Assemble(9.0, 60.0, 1.0)
  {
    AverageDaysOfRange(6, 12);
    ExampleNoReadings();
    CalculationSteps(DaysRange(6, 12), [None, None, None], 9.0, 60.0, 1.0);
  }

  lemma ExampleNoReadings()
    ensures AverageHumidity([None, None, None]) == 60.0 && HumidityAdjustment(60.0) == 1.0
  {
    var s: seq<Option<real>> := [None, None, None];
    NoReadingsNoAdjustment(s);
  }

  lemma ExampleDaysOnlyMessage()
    ensures WateringMessage(9, 0) == "Prochain arrosage dans 9 jours"
  {
    assert DayPhrase(9) == "9 jours";
    assert MessagePrefix + MessageBody(9, 0) == "Prochain arrosage dans 9 jours";
  }

  lemma ExampleUnchangedExplanation()
    ensures HumidityExplanation(60.0, 1.0) == UnchangedPrefix + "60" + "%) : aucun ajustement nécessaire"
  {
    ExampleSixtyShown();
    assert AdjustmentTrend(1.0) == Unchanged;
    assert HumidityExplanation(60.0, 1.0) == Explain("60", Unchanged);
  }

  lemma ExampleSixtyShown()
    ensures FormatTenths(60.0) == "60"
  {
    assert (60.0 * 10.0).Floor == 600;
  }
}
