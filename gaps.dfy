/** Gap arithmetic: the percentage range check and the symmetric side gap
    (internal/gaps/gaps.go and its Rust twin src/gaps/mod.rs). */
module Gaps {
  import opened Wrappers
  import Decimal

  datatype GapError = InvalidPercentage

  /** Go's `ValidatePercentage`: `None` stands for a nil error. */
  function ValidatePercentage(p: int): (r: Option<GapError>)
    ensures r.None? <==> 1 <= p <= 100
    ensures r.Some? ==> r.value == InvalidPercentage
  {
    if p < 1 || p > 100 then Some(InvalidPercentage) else None
  }

  const RangeMessage: string := "Percentage must be between 1 and 100 (got "

  /** Rust's `validate_percentage`: the error message carries the offending value. */
  function CheckPercentage(p: int): (r: Result<(), string>)
    ensures r.Ok? <==> ValidatePercentage(p).None?
  {
    if 1 <= p <= 100 then Ok(()) else Err(RangeMessage + Decimal.Format(p) + ")")
  }

  /** The offending value can be read back out of Rust's error message. */
  lemma CheckPercentageNamesValue(p: int)
    requires Decimal.IsI64(p) && !(1 <= p <= 100)
    ensures var m := CheckPercentage(p).error;
      |RangeMessage| < |m| && m[..|RangeMessage|] == RangeMessage && m[|m| - 1] == ')'
      && Decimal.ParseI64(m[|RangeMessage|..|m| - 1]) == Some(p)
  {
    var m := CheckPercentage(p).error;
    assert m[|RangeMessage|..|m| - 1] == Decimal.Format(p);
    Decimal.ParseFormat(p);
  }

  /** `num / den` rounded to the nearest integer, ties away from zero (`math.Round`, `f64::round`). */
  function RoundDiv(num: int, den: int): int
    requires den > 0
  {
    if num >= 0 then (2 * num + den) / (2 * den) else -((2 * -num + den) / (2 * den))
  }

  /** The side gap that leaves `percentage` per cent of `monitorWidth` for the workspace:
      `monitorWidth * (100 - percentage) / 200`, rounded (internal/gaps/gaps.go `CalculateGapSize`,
      src/gaps/mod.rs `calculate_gap_size`). */
  function CalculateGapSize(monitorWidth: int, percentage: int): int {
    RoundDiv(monitorWidth * (100 - percentage), 200)
  }

  lemma RoundDivNearest(num: int)
    requires num >= 0
    ensures 200 * RoundDiv(num, 200) - 100 <= num < 200 * RoundDiv(num, 200) + 100
  {
    var q := (2 * num + 200) / 400;
    assert 400 * q <= 2 * num + 200 < 400 * q + 400;
  }

  /** The gap is the exact quotient `w * (100 - p) / 200` rounded to nearest, ties upward. */
  lemma GapIsNearest(w: int, p: int)
    requires w >= 0 && p <= 100
    ensures var g := CalculateGapSize(w, p);
      200 * g - 100 <= w * (100 - p) < 200 * g + 100
  {
    RoundDivNearest(w * (100 - p));
  }

  /** At 100 per cent there is no gap at all. */
  lemma GapAtFullWidth(w: int)
    ensures CalculateGapSize(w, 100) == 0
  {
  }

  /** For a valid percentage the gap lies between zero and half the monitor width. */
  lemma GapBounds(w: int, p: int)
    requires w >= 0 && 1 <= p <= 100
    ensures 0 <= CalculateGapSize(w, p) && 2 * CalculateGapSize(w, p) <= w
  {
    GapIsNearest(w, p);
    var g := CalculateGapSize(w, p);
    var k := 100 - p;
    var n := w * k;
    assert 0 <= n by { MulNonNegative(w, k); }
    assert n <= 99 * w by {
      assert 99 * w - n == w * (99 - k);
      MulNonNegative(w, 99 - k);
    }
  }

  lemma MulNonNegative(a: int, b: int)
    requires a >= 0 && b >= 0
    ensures a * b >= 0
  {
  }

  /** A larger workspace never has larger gaps. */
  lemma GapMonotone(w: int, p: int, q: int)
    requires w >= 0 && p <= q <= 100
    ensures CalculateGapSize(w, q) <= CalculateGapSize(w, p)
  {
    GapIsNearest(w, p);
    GapIsNearest(w, q);
    var a, b := w * (100 - p), w * (100 - q);
    assert b <= a by {
      assert a - b == w * (q - p);
    }
  }

  /** The gaps of `p` and of `100 - p` add up to half the monitor width, within one pixel. */
  lemma GapComplement(w: int, p: int)
    requires w >= 0 && 0 <= p <= 100
    ensures var s := CalculateGapSize(w, p) + CalculateGapSize(w, 100 - p);
      -2 <= 2 * s - w <= 2
  {
    GapIsNearest(w, p);
    GapIsNearest(w, 100 - p);
    assert w * (100 - p) + w * (100 - (100 - p)) == 100 * w;
  }

  /** The unit tests' and the end-to-end tests' values. */
  lemma GapExamples()
    ensures CalculateGapSize(1000, 40) == 300 && CalculateGapSize(1920, 50) == 480
    ensures CalculateGapSize(2560, 80) == 256 && CalculateGapSize(2560, 100) == 0
    ensures CalculateGapSize(1000, 1) == 495
    ensures CalculateGapSize(1920, 60) == 384 && CalculateGapSize(1920, 75) == 240
    ensures ValidatePercentage(0).Some? && ValidatePercentage(-10).Some? && ValidatePercentage(101).Some?
    ensures ValidatePercentage(1).None? && ValidatePercentage(50).None? && ValidatePercentage(100).None?
  {
  }
}
