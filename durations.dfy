/**
 * Retention durations, such as "24h" or "-10s": an optional sign, decimal digits and one unit
 * (h, m or s), or the bare "0". The value is in whole seconds.
 */
module Durations {
  import opened Wrappers

  predicate IsDigit(c: char)
  {
    '0' <= c <= '9'
  }

  predicate AllDigits(ds: string)
  {
    forall i :: 0 <= i < |ds| ==> IsDigit(ds[i])
  }

  /** Seconds per unit. Only h, m and s are units here. */
  function UnitSeconds(u: char): Option<nat>
  {
    if u == 'h' then Some(3600)
    else if u == 'm' then Some(60)
    else if u == 's' then Some(1)
    else None
  }

  /** The value of a string of decimal digits, most significant first. */
  function DigitsValue(ds: string): nat
    requires AllDigits(ds)
  {
    if ds == [] then 0
    else DigitsValue(ds[..|ds| - 1]) * 10 + (ds[|ds| - 1] - '0') as nat
  }

  /** The decimal representation of `n`, without leading zeros. */
  function DecimalDigits(n: nat): (ds: string)
    ensures |ds| >= 1 && AllDigits(ds)
  {
    if n < 10 then ['0' + n as char]
    else DecimalDigits(n / 10) + ['0' + (n % 10) as char]
  }

  /**
   * Parses a duration. `None` means the text is not a duration.
   * The sign applies to the whole value, and "0" with or without a sign is zero.
   */
  function ParseDuration(text: string): (d: Option<int>)
    ensures text == "" ==> d.None?
  {
    var signed := |text| > 0 && (text[0] == '-' || text[0] == '+');
    var negative := |text| > 0 && text[0] == '-';
    var body := if signed then text[1..] else text;
    if body == "0" then Some(0)
    else if |body| < 2 then None
    else
      var digits := body[..|body| - 1];
      var unit := UnitSeconds(body[|body| - 1]);
      if unit.None? || !AllDigits(digits) then None
      else
        var magnitude := DigitsValue(digits) * unit.value;
        Some(if negative then -magnitude else magnitude)
  }

  /** Writes `count` units of `u`, with a minus sign when `negative`. */
  function FormatDuration(negative: bool, count: nat, u: char): (text: string)
    requires UnitSeconds(u).Some?
    ensures |text| >= 2 && text[|text| - 1] == u
  {
    (if negative then "-" else "") + DecimalDigits(count) + [u]
  }

  /** Reading back the decimal representation of `n` gives `n`. */
  lemma {:induction false} DigitsRoundTrip(n: nat)
    ensures DigitsValue(DecimalDigits(n)) == n
  {
    if n >= 10 {
      var ds := DecimalDigits(n);
      assert ds[..|ds| - 1] == DecimalDigits(n / 10);
      DigitsRoundTrip(n / 10);
    }
  }

  /** Every duration the formatter writes parses back to its signed number of seconds. */
  lemma FormatParseRoundTrip(negative: bool, count: nat, u: char)
    requires UnitSeconds(u).Some?
    ensures ParseDuration(FormatDuration(negative, count, u))
         == Some(if negative then -(count * UnitSeconds(u).value) else count * UnitSeconds(u).value)
  {
    var ds := DecimalDigits(count);
    DigitsRoundTrip(count);
    var text := FormatDuration(negative, count, u);
    var body := ds + [u];
    assert text == (if negative then "-" else "") + body;
    assert body[..|body| - 1] == ds;
    assert body[|body| - 1] == u;
    assert body != "0";
    if negative {
      assert text[0] == '-' && text[1..] == body;
    } else {
      assert text == body;
      assert IsDigit(ds[0]);
    }
  }

  /**
   * Everything the parser accepts has the duration shape: the bare "0" under an optional sign, or
   * an optional sign, at least one decimal digit and a unit letter last. So "garbage", "10", "h"
   * and "1x" are all rejected.
   */
  lemma ParseAcceptsOnlyDurations(text: string)
    requires ParseDuration(text).Some?
    ensures var start := if |text| > 0 && (text[0] == '-' || text[0] == '+') then 1 else 0;
            || text[start..] == "0"
            || (&& |text| >= start + 2
                && UnitSeconds(text[|text| - 1]).Some?
                && forall i :: start <= i < |text| - 1 ==> IsDigit(text[i]))
  {
    var start := if |text| > 0 && (text[0] == '-' || text[0] == '+') then 1 else 0;
    var body := text[start..];
    if body != "0" {
      assert body[|body| - 1] == text[|text| - 1];
      forall i | start <= i < |text| - 1 ensures IsDigit(text[i]) {
        assert text[i] == body[..|body| - 1][i - start];
      }
    }
  }

  /** Text that starts with a minus sign never parses to a positive duration. */
  lemma NegativeSignNeverPositive(text: string)
    requires |text| > 0 && text[0] == '-'
    ensures ParseDuration(text).None? || ParseDuration(text).value <= 0
  {
  }
}
