/** Clock readings. Every `new Date()` of the backend becomes an explicit
    `Instant` argument; `toISOString()` is written out for the years 0..9999
    it renders as four digits. */
module Clock {

  /** A UTC instant to the millisecond, as its calendar fields. */
  datatype Instant = Instant(year: int, month: int, day: int, hour: int, minute: int, second: int, millis: int)

  predicate Valid(t: Instant) {
    && 0 <= t.year <= 9999 && 1 <= t.month <= 12 && 1 <= t.day <= 31
    && 0 <= t.hour < 24 && 0 <= t.minute < 60 && 0 <= t.second < 60
    && 0 <= t.millis < 1000
  }

  /** `new Date('YYYY-MM-DD')`: midnight UTC of that day. */
  function Midnight(year: int, month: int, day: int): Instant {
    Instant(year, month, day, 0, 0, 0, 0)
  }

  /** `a > b` on dates: field by field, most significant first. */
  predicate After(a: Instant, b: Instant) {
    if a.year != b.year then a.year > b.year
    else if a.month != b.month then a.month > b.month
    else if a.day != b.day then a.day > b.day
    else if a.hour != b.hour then a.hour > b.hour
    else if a.minute != b.minute then a.minute > b.minute
    else if a.second != b.second then a.second > b.second
    else a.millis > b.millis
  }

  /** `After` is a strict order: irreflexive, asymmetric and transitive. */
  lemma AfterIsStrictOrder(a: Instant, b: Instant, c: Instant)
    ensures !After(a, a)
    ensures After(a, b) ==> !After(b, a)
    ensures After(a, b) && After(b, c) ==> After(a, c)
  {
  }

  predicate IsDigit(c: char) { '0' <= c <= '9' }

  predicate AllDigits(s: string) {
    forall i :: 0 <= i < |s| ==> IsDigit(s[i])
  }

  function DigitChar(d: int): (c: char)
    requires 0 <= d < 10
    ensures IsDigit(c)
  {
    ('0' as int + d) as char
  }

  function DigitValue(c: char): int
    requires IsDigit(c)
  {
    c as int - '0' as int
  }

  function Pow10(n: nat): (p: nat)
    ensures p >= 1
  {
    if n == 0 then 1 else 10 * Pow10(n - 1)
  }

  /** The last `width` decimal digits of `n`, zero-padded on the left
      (`String(n).padStart(width, '0')` for `n < 10^width`). */
  function Digits(n: nat, width: nat): (s: string)
    ensures |s| == width
    ensures AllDigits(s)
  {
    if width == 0 then []
    else Digits(n / 10, width - 1) + [DigitChar(n % 10)]
  }

  /** The number a string of decimal digits denotes. */
  function DecimalValue(s: string): nat
    requires AllDigits(s)
  {
    if s == [] then 0
    else 10 * DecimalValue(s[..|s| - 1]) + DigitValue(s[|s| - 1])
  }

  /** Reading back a padded number gives the number. */
  lemma {:induction false} DecimalValueOfDigits(n: nat, width: nat)
    requires n < Pow10(width)
    ensures DecimalValue(Digits(n, width)) == n
  {
    if width > 0 {
      var s := Digits(n, width);
      assert s[..|s| - 1] == Digits(n / 10, width - 1);
      DecimalValueOfDigits(n / 10, width - 1);
    }
  }

  /** `toISOString()`: `YYYY-MM-DDTHH:mm:ss.sssZ`. */
  function ToIso(t: Instant): (s: string)
    requires Valid(t)
    ensures |s| == 24
  {
    // Grouped as digit runs each followed by its separator.
    Digits(t.year, 4) + "-" + (Digits(t.month, 2) + "-" + (Digits(t.day, 2) + "T"
    + (Digits(t.hour, 2) + ":" + (Digits(t.minute, 2) + ":" + (Digits(t.second, 2) + "."
    + (Digits(t.millis, 3) + "Z"))))))
  }
}
