/**
 The plant's watering benchmark and the tests that both the watering
 calculator and the forecast-horizon rule apply to it before reading a number.
 */
module Benchmark {
  import opened Wrappers
  import opened PhpText
  import opened PhpNumbers

  /**
   A `{value, unit}` benchmark such as `{"6-12", "days"}`. A field is `None`
   when the key is missing or null (PHP's `isset` fails).
   */
  datatype WateringBenchmark = WateringBenchmark(value: Option<string>, unit: Option<string>)

  /** Both fields set and the unit, lower-cased, equal to `days`. */
  predicate IsDaysBenchmark(b: WateringBenchmark) {
    b.value.Some? && b.unit.Some? && ToLower(b.unit.value) == "days"
  }

  /** The value with its surrounding `"` characters removed. */
  function CleanValue(b: WateringBenchmark): string
    requires b.value.Some?
  {
    QuoteTrim(b.value.value)
  }

  /** A value such as `6-12`: the cleaned value contains a `-`. */
  predicate IsRange(b: WateringBenchmark)
    requires b.value.Some?
  {
    '-' in CleanValue(b)
  }

  /**
   The `explode('-', ...)` pieces of a range. There are always at least two,
   so a fallback for a missing second piece is never taken.
   */
  function RangePieces(b: WateringBenchmark): (pieces: seq<string>)
    requires b.value.Some? && IsRange(b)
    ensures |pieces| >= 2
  {
    Split(CleanValue(b), '-')
  }

  /** The first piece of a range, trimmed of whitespace. */
  function LowPiece(b: WateringBenchmark): string
    requires b.value.Some? && IsRange(b)
  {
    SpaceTrim(RangePieces(b)[0])
  }

  /** The second piece of a range, trimmed of whitespace. */
  function HighPiece(b: WateringBenchmark): string
    requires b.value.Some? && IsRange(b)
  {
    SpaceTrim(RangePieces(b)[1])
  }

  /** The benchmark `{"<lo>-<hi>", "days"}`. */
  function DaysRange(lo: nat, hi: nat): WateringBenchmark {
    WateringBenchmark(Some(NatToString(lo) + "-" + NatToString(hi)), Some("days"))
  }

  /** The benchmark `{"<n>", "days"}`. */
  function DaysValue(n: nat): WateringBenchmark {
    WateringBenchmark(Some(NatToString(n)), Some("days"))
  }

  lemma QuoteTrimDigits(s: string)
    requires |s| > 0 && IsDigit(s[0]) && IsDigit(s[|s| - 1])
    ensures QuoteTrim(s) == s
  {
    TrimNoop(s, IsQuote);
  }

  lemma SpaceTrimDigits(s: string)
    requires AllDigits(s)
    ensures SpaceTrim(s) == s
  {
    TrimNoop(s, IsTrimSpace);
  }

  /** A written-out range `lo-hi` splits into exactly the two numbers. */
  lemma DaysRangePieces(lo: nat, hi: nat)
    ensures IsDaysBenchmark(DaysRange(lo, hi))
    ensures IsRange(DaysRange(lo, hi))
    ensures LowPiece(DaysRange(lo, hi)) == NatToString(lo)
    ensures HighPiece(DaysRange(lo, hi)) == NatToString(hi)
  {
    var a, c := NatToString(lo), NatToString(hi);
    DaysRangeClean(lo, hi);
    assert (a + "-" + c)[|a|] == '-';
    NoDashInDigits(a);
    NoDashInDigits(c);
    SplitPair(a, '-', c);
    assert RangePieces(DaysRange(lo, hi)) == [a, c];
    SpaceTrimDigits(a);
    SpaceTrimDigits(c);
  }

  lemma DaysRangeClean(lo: nat, hi: nat)
    ensures IsDaysBenchmark(DaysRange(lo, hi))
    ensures CleanValue(DaysRange(lo, hi)) == NatToString(lo) + "-" + NatToString(hi)
  {
    assert ToLower("days") == "days";
    QuoteTrimDigits(NatToString(lo) + "-" + NatToString(hi));
  }

  lemma NoDashInDigits(s: string)
    requires AllDigits(s)
    ensures '-' !in s
  {
  }

  /** A written-out number `n` is a single value, not a range. */
  lemma DaysValueClean(n: nat)
    ensures IsDaysBenchmark(DaysValue(n))
    ensures CleanValue(DaysValue(n)) == NatToString(n)
    ensures !IsRange(DaysValue(n))
  {
    var a := NatToString(n);
    assert ToLower("days") == "days";
    QuoteTrimDigits(a);
    NoDashInDigits(a);
  }

  /** `"n-"` keeps its dash through the quote trim and splits into n and an empty piece. */
  lemma OpenRangePieces(a: string)
    requires |a| > 0 && AllDigits(a)
    ensures QuoteTrim(a + "-") == a + "-"
    ensures Split(a + "-", '-') == [a, ""]
    ensures SpaceTrim(a) == a && SpaceTrim("") == ""
  {
    assert (a + "-")[|a|] == '-';
    TrimNoop(a + "-", IsQuote);
    NoDashInDigits(a);
    SplitPair(a, '-', "");
    assert a + ['-'] + "" == a + "-";
    SpaceTrimDigits(a);
    SpaceTrimDigits("");
  }
}
