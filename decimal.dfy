/** Decimal text of 64-bit integers: Go's `strconv.ParseInt(s, 10, 64)` and `strconv.FormatInt(n, 10)`,
    Rust's `str::parse::<i64>` and `{}` formatting of an `i64`. The two languages agree on this syntax:
    an optional `+` or `-`, then one or more ASCII digits, and a range error outside 64 bits. */
module Decimal {
  import opened Wrappers

  const MinI64: int := -0x8000_0000_0000_0000
  const MaxI64: int := 0x7FFF_FFFF_FFFF_FFFF

  predicate IsI64(n: int) {
    MinI64 <= n <= MaxI64
  }

  predicate IsDigit(c: char) {
    '0' <= c <= '9'
  }

  predicate AllDigits(s: string) {
    forall i :: 0 <= i < |s| ==> IsDigit(s[i])
  }

  function DigitValue(c: char): (d: nat)
    requires IsDigit(c)
    ensures d < 10
  {
    c as int - '0' as int
  }

  function DigitChar(d: nat): (c: char)
    requires d < 10
    ensures IsDigit(c) && DigitValue(c) == d
  {
    ('0' as int + d) as char
  }

  /** The number a string of digits denotes (most significant digit first). */
  function DigitsValue(s: string): nat
    requires AllDigits(s)
  {
    if s == [] then 0 else DigitsValue(s[..|s| - 1]) * 10 + DigitValue(s[|s| - 1])
  }

  /** The shortest digit string of `n`. */
  function NatDigits(n: nat): (s: string)
    ensures s != [] && AllDigits(s)
    ensures |s| > 1 ==> s[0] != '0'
  {
    if n < 10 then [DigitChar(n)] else NatDigits(n / 10) + [DigitChar(n % 10)]
  }

  /** Decimal text of `n`, with a leading `-` when negative. */
  function Format(n: int): string {
    if n < 0 then "-" + NatDigits(-n) else NatDigits(n)
  }

  /** Parses a decimal integer the way both `strconv.ParseInt(s, 10, 64)` and `i64::from_str` do;
      `None` for a syntax error or a value outside 64 bits. */
  function ParseI64(s: string): (r: Option<int>)
    ensures r.Some? ==> IsI64(r.value)
  {
    var negative := s != [] && s[0] == '-';
    var body := if s != [] && (s[0] == '-' || s[0] == '+') then s[1..] else s;
    if body == [] || !AllDigits(body) then None
    else
      var m: int := DigitsValue(body);
      var v := if negative then -m else m;
      if IsI64(v) then Some(v) else None
  }

  lemma {:induction false} DigitsOfNat(n: nat)
    ensures DigitsValue(NatDigits(n)) == n
  {
    if n >= 10 {
      DigitsOfNat(n / 10);
      var s := NatDigits(n);
      assert s[..|s| - 1] == NatDigits(n / 10);
    }
  }

  /** Reading back the text of a 64-bit integer gives the integer: `strconv.FormatInt` and
      `strconv.ParseInt` are inverse on the 64-bit range. */
  lemma ParseFormat(n: int)
    requires IsI64(n)
    ensures ParseI64(Format(n)) == Some(n)
  {
    var m: nat := if n < 0 then -n else n;
    var d := NatDigits(m);
    DigitsOfNat(m);
    assert IsDigit(d[0]);
    if n < 0 {
      var s := Format(n);
      assert s == "-" + d && s[0] == '-';
      assert s[1..] == d;
    } else {
      assert Format(n) == d;
    }
  }

  /** A string is rejected when it has a character, after an optional leading sign, that is not a digit. */
  lemma ParseRejectsNonDigit(s: string, i: nat)
    requires 0 < i < |s| || (i == 0 < |s| && s[0] != '+' && s[0] != '-')
    requires !IsDigit(s[i])
    ensures ParseI64(s) == None
  {
    var body := if s[0] == '-' || s[0] == '+' then s[1..] else s;
    if body != [] {
      if s[0] == '-' || s[0] == '+' {
        assert body[i - 1] == s[i];
      } else {
        assert body[i] == s[i];
      }
    }
  }

  /** The inputs the command-line tests feed in: `"abc"` and an empty string are errors,
      signed numbers are read with their sign. */
  lemma ParseExamples()
    ensures ParseI64("abc") == None && ParseI64("") == None && ParseI64("-") == None
    ensures ParseI64("-10") == Some(-10) && ParseI64("+5") == Some(5) && ParseI64("150") == Some(150)
  {
    ParseRejectsNonDigit("abc", 0);
    assert DigitsValue("10") == 10 by { assert "10"[..1] == "1"; }
    assert DigitsValue("150") == 150 by { assert "150"[..2] == "15"; assert "15"[..1] == "1"; }
  }
}
