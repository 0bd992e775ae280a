/**
 * The name of a new capture file: `capture_` followed by the local time
 * formatted `yyyyMMddHHmmssfff` (zero-padded fields, milliseconds last),
 * then `.png`.
 */
module CaptureNaming {
  import opened CaptureStore

  /** The fields of `DateTime.Now` the file name shows. */
  datatype Stamp = Stamp(year: nat, month: nat, day: nat, hour: nat, minute: nat, second: nat, millisecond: nat)

  predicate ValidStamp(t: Stamp)
  {
    && 1 <= t.year <= 9999 && 1 <= t.month <= 12 && 1 <= t.day <= 31
    && t.hour < 24 && t.minute < 60 && t.second < 60 && t.millisecond < 1000
  }

  function Pow10(w: nat): (r: nat)
    ensures r >= 1
  {
    if w == 0 then 1 else 10 * Pow10(w - 1)
  }

  predicate IsDigit(c: char) { '0' <= c <= '9' }

  function DigitChar(d: nat): (c: char)
    requires d < 10
    ensures IsDigit(c) && c as int - '0' as int == d
  {
    ('0' as int + d) as char
  }

  /** `n` in exactly `w` decimal digits, zero-padded on the left, most significant first. */
  function Digits(n: nat, w: nat): (r: string)
    ensures |r| == w
    ensures forall i :: 0 <= i < |r| ==> IsDigit(r[i])
  {
    if w == 0 then "" else Digits(n / 10, w - 1) + [DigitChar(n % 10)]
  }

  /** The value of a string of decimal digits. */
  function DigitsValue(s: string): nat
    requires forall i :: 0 <= i < |s| ==> IsDigit(s[i])
  {
    if s == [] then 0
    else 10 * DigitsValue(s[..|s| - 1]) + DigitValue(s[|s| - 1])
  }

  function DigitValue(c: char): (d: nat)
    requires IsDigit(c)
    ensures d < 10
  {
    c as int - '0' as int
  }

  /** Reading the digits back gives the number, when it fits in `w` digits. */
  lemma {:induction false} DigitsRoundTrip(n: nat, w: nat)
    requires n < Pow10(w)
    ensures DigitsValue(Digits(n, w)) == n
  {
    if w > 0 {
      assert n / 10 < Pow10(w - 1);
      DigitsRoundTrip(n / 10, w - 1);
      var s := Digits(n, w);
      assert s[..|s| - 1] == Digits(n / 10, w - 1);
    }
  }

  /** `yyyyMMddHHmmssfff`. */
  function StampText(t: Stamp): (r: string)
    ensures |r| == 17
  {
    Digits(t.year, 4) + Digits(t.month, 2) + Digits(t.day, 2) +
    Digits(t.hour, 2) + Digits(t.minute, 2) + Digits(t.second, 2) + Digits(t.millisecond, 3)
  }

  /** The name a new capture is saved under, without the storage directory. */
  function CaptureFileName(t: Stamp): (r: string)
    ensures |r| == 29
    ensures IsCaptureName(r)
  {
    var r := FilePrefix + StampText(t) + FileExtension;
    assert r[..|FilePrefix|] == FilePrefix;
    assert r[|r| - |FileExtension|..] == FileExtension;
    r
  }

  /** The digit field of `StampText` at offset `at` of width `w`, read back. */
  function Field(s: string, at: nat, w: nat): nat
    requires at + w <= |s|
    requires forall i :: 0 <= i < |s| ==> IsDigit(s[i])
  {
    DigitsValue(s[at..at + w])
  }

  lemma StampTextFields(t: Stamp)
    requires ValidStamp(t)
    ensures forall i :: 0 <= i < 17 ==> IsDigit(StampText(t)[i])
    ensures var s := StampText(t);
      && Field(s, 0, 4) == t.year && Field(s, 4, 2) == t.month && Field(s, 6, 2) == t.day
      && Field(s, 8, 2) == t.hour && Field(s, 10, 2) == t.minute && Field(s, 12, 2) == t.second
      && Field(s, 14, 3) == t.millisecond
  {
    var s := StampText(t);
    var head := Digits(t.year, 4) + Digits(t.month, 2) + Digits(t.day, 2) +
      Digits(t.hour, 2) + Digits(t.minute, 2) + Digits(t.second, 2);
    assert s == head + Digits(t.millisecond, 3);
    assert s[14..17] == Digits(t.millisecond, 3);
    assert s[0..4] == Digits(t.year, 4);
    assert s[4..6] == Digits(t.month, 2);
    assert s[6..8] == Digits(t.day, 2);
    assert s[8..10] == Digits(t.hour, 2);
    assert s[10..12] == Digits(t.minute, 2);
    assert s[12..14] == Digits(t.second, 2);
    assert Pow10(2) == 100 && Pow10(3) == 1000 && Pow10(4) == 10000;
    DigitsRoundTrip(t.year, 4);
    DigitsRoundTrip(t.month, 2);
    DigitsRoundTrip(t.day, 2);
    DigitsRoundTrip(t.hour, 2);
    DigitsRoundTrip(t.minute, 2);
    DigitsRoundTrip(t.second, 2);
    DigitsRoundTrip(t.millisecond, 3);
  }

  /** Two captures taken at different milliseconds never share a file name. */
  lemma CaptureFileNameInjective(a: Stamp, b: Stamp)
    requires ValidStamp(a) && ValidStamp(b)
    requires CaptureFileName(a) == CaptureFileName(b)
    ensures a == b
  {
    var na, nb := CaptureFileName(a), CaptureFileName(b);
    assert StampText(a) == na[8..25];
    assert StampText(b) == nb[8..25];
    StampTextFields(a);
    StampTextFields(b);
  }
}
