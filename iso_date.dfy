/**
 * The date-only form `YYYY-MM-DD` of the date-time string format of ECMA-262
 * section 21.4.1.32: what `new Date(s)` accepts from an `<input type="date">`
 * and what `toISOString().split('T')[0]` produces.
 */
module IsoDate {
  import opened Wrappers
  import opened Calendar

  predicate IsDigit(c: char)
  {
    '0' <= c <= '9'
  }

  predicate AllDigits(s: string)
  {
    forall i :: 0 <= i < |s| ==> IsDigit(s[i])
  }

  function DigitChar(n: int): (c: char)
    requires 0 <= n <= 9
    ensures IsDigit(c)
  {
    ('0' as int + n) as char
  }

  /** The value of a string of decimal digits. */
  function DigitsValue(s: string): (n: nat)
    requires AllDigits(s)
  {
    if s == [] then 0 else 10 * DigitsValue(s[..|s| - 1]) + (s[|s| - 1] as int - '0' as int)
  }

  function Pow10(w: nat): (p: nat)
    ensures p >= 1
  {
    if w == 0 then 1 else 10 * Pow10(w - 1)
  }

  /** The decimal digits of `n`, left-padded with zeros to at least `width` characters. */
  function PadDigits(n: nat, width: nat): (r: string)
    ensures AllDigits(r)
    ensures 1 <= |r| && width <= |r|
    decreases n + width
  {
    if n < 10 && width <= 1 then [DigitChar(n)]
    else PadDigits(n / 10, if width == 0 then 0 else width - 1) + [DigitChar(n % 10)]
  }

  /** Padding a number below `10^width` gives exactly `width` digits that read back as the number. */
  lemma {:induction false} PadDigitsValue(n: nat, width: nat)
    requires 1 <= width && n < Pow10(width)
    ensures |PadDigits(n, width)| == width
    ensures DigitsValue(PadDigits(n, width)) == n
    decreases width
  {
    var r := PadDigits(n, width);
    if !(n < 10 && width <= 1) {
      PadDigitsValue(n / 10, width - 1);
      assert r[..|r| - 1] == PadDigits(n / 10, width - 1);
    }
  }

  /** Reading a digit string and padding it back to its length gives the same string. */
  lemma {:induction false} DigitsValuePad(s: string)
    requires 1 <= |s| && AllDigits(s)
    ensures PadDigits(DigitsValue(s), |s|) == s
    decreases |s|
  {
    var init := s[..|s| - 1];
    var v := DigitsValue(s);
    if |s| == 1 {
      assert init == [];
    } else {
      DigitsValuePad(init);
      DigitsValueBound(init);
      assert v / 10 == DigitsValue(init);
      assert v % 10 == s[|s| - 1] as int - '0' as int;
      assert s == init + [s[|s| - 1]];
    }
  }

  lemma {:induction false} DigitsValueBound(s: string)
    requires AllDigits(s)
    ensures DigitsValue(s) < Pow10(|s|)
    decreases |s|
  {
    if s != [] {
      DigitsValueBound(s[..|s| - 1]);
    }
  }

  /** The year as `toISOString` writes it: four digits, or a sign and six digits outside 0000..9999. */
  function YearText(y: int): string
  {
    if 0 <= y <= 9999 then PadDigits(y, 4)
    else if y > 9999 then "+" + PadDigits(y, 6)
    else "-" + PadDigits(-y, 6)
  }

  /** `date.toISOString().split('T')[0]`: the date part of the ISO string. */
  function Format(d: Date): (r: string)
    requires ValidDate(d)
    ensures |r| >= 10
    ensures d.year > 9999 ==> r[0] == '+'
    ensures d.year < 0 ==> r[0] == '-'
  {
    YearText(d.year) + "-" + PadDigits(d.month, 2) + "-" + PadDigits(d.day, 2)
  }

  /** The string has the shape `DDDD-DD-DD`. */
  predicate WellShaped(s: string)
  {
    |s| == 10 && s[4] == '-' && s[7] == '-' &&
    AllDigits(s[0..4]) && AllDigits(s[5..7]) && AllDigits(s[8..10])
  }

  /**
   * `new Date(s)` on a date-only string, read as a UTC calendar date. A string
   * of another shape, or with a month or day out of range, is an invalid date
   * (ECMA-262: illegal element values make the parse return NaN).
   */
  function Parse(s: string): (r: Option<Date>)
    ensures r.Some? ==> ValidDate(r.value) && 0 <= r.value.year <= 9999
  {
    if !WellShaped(s) then None
    else
      var d := Date(DigitsValue(s[0..4]), DigitsValue(s[5..7]), DigitsValue(s[8..10]));
      DigitsValueBound(s[0..4]);
      if ValidDate(d) then Some(d) else None
  }

  /** A parsed string is the canonical text of its date. */
  lemma ParseThenFormat(s: string)
    requires Parse(s).Some?
    ensures Format(Parse(s).value) == s
  {
    var d := Parse(s).value;
    DigitsValuePad(s[0..4]);
    DigitsValuePad(s[5..7]);
    DigitsValuePad(s[8..10]);
    assert s == s[0..4] + "-" + s[5..7] + "-" + s[8..10];
  }

  /** Every date of years 0000..9999 survives formatting and parsing. */
  lemma FormatThenParse(d: Date)
    requires ValidDate(d)
    ensures 0 <= d.year <= 9999 ==> Parse(Format(d)) == Some(d)
  {
    if d.year < 0 || d.year > 9999 {
      return;
    }
    var s := Format(d);
    PadDigitsValue(d.year, 4);
    PadDigitsValue(d.month, 2);
    PadDigitsValue(d.day, 2);
    assert s[0..4] == PadDigits(d.year, 4);
    assert s[5..7] == PadDigits(d.month, 2);
    assert s[8..10] == PadDigits(d.day, 2);
  }
}
