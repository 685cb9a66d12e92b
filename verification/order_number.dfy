/** Order numbers (backend orders/orders.service.ts, `generateOrderNumber`):
    `ORD-` + the ISO timestamp with its separators removed and cut to
    fourteen digits (`YYYYMMDDHHmmss`) + `-` + up to four upper-cased
    characters of a random base-36 text. The clock reading and the random
    text are parameters. */
module OrderNumber {
  import opened Text
  import opened Clock

  /** The characters `/[-:T.Z]/g` removes from the ISO text. */
  predicate IsIsoSeparator(c: char) {
    c == '-' || c == ':' || c == 'T' || c == '.' || c == 'Z'
  }

  /** `s.substring(start, end)` for `0 <= start <= end`: both bounds
      clamped to the length. */
  function Substring(s: string, start: nat, end: nat): (r: string)
    requires start <= end
    ensures |r| <= end - start
    ensures forall c :: c in r ==> c in s
  {
    var e := if end < |s| then end else |s|;
    var b := if start < e then start else e;
    s[b..e]
  }

  /** `Math.random().toString(36).substring(2, 6).toUpperCase()`, given the
      base-36 text of the random number. */
  function RandomPart(randomText: string): (r: string)
    ensures |r| <= 4
    ensures forall i :: 0 <= i < |r| ==> !IsLowerAscii(r[i])
  {
    ToUpper(Substring(randomText, 2, 6))
  }

  /** The clock fields down to the second, each zero-padded. */
  function CalendarDigits(now: Instant): (d: string)
    requires Valid(now)
    ensures |d| == 14 && AllDigits(d)
  {
    Digits(now.year, 4) + Digits(now.month, 2) + Digits(now.day, 2)
    + Digits(now.hour, 2) + Digits(now.minute, 2) + Digits(now.second, 2)
  }

  /** `toISOString().replace(/[-:T.Z]/g, '')`: all seventeen digits of the
      reading, milliseconds last. */
  function IsoDigits(now: Instant): (s: string)
    requires Valid(now)
    ensures s == CalendarDigits(now) + Digits(now.millis, 3)
  {
    IsoDigitsAreCalendar(now);
    RemoveChars(ToIso(now), IsIsoSeparator)
  }

  /** The fourteen date digits of the order number: the milliseconds are
      cut off. */
  function DatePart(now: Instant): (d: string)
    requires Valid(now)
    ensures d == CalendarDigits(now)
  {
    IsoDigits(now)[..14]
  }

  /** `generateOrderNumber`. */
  function GenerateOrderNumber(now: Instant, randomText: string): (n: string)
    requires Valid(now)
    ensures 19 <= |n| <= 23
    ensures n[..4] == "ORD-"
    ensures n[4..18] == DatePart(now) && AllDigits(n[4..18])
    ensures n[18] == '-'
    ensures n[19..] == RandomPart(randomText)
  {
    "ORD-" + DatePart(now) + "-" + RandomPart(randomText)
  }

  /** A run of digits and one separator in front of the rest of the text:
      the separator goes, the digits stay. */
  lemma StripPiece(d: string, c: char, rest: string)
    requires AllDigits(d) && IsIsoSeparator(c)
    ensures RemoveChars(d + [c] + rest, IsIsoSeparator) == d + RemoveChars(rest, IsIsoSeparator)
  {
    assert d + [c] + rest == d + ([c] + rest);
    RemoveCharsConcat(d, [c] + rest, IsIsoSeparator);
    RemoveCharsKeeps(d, IsIsoSeparator);
    assert ([c] + rest)[1..] == rest;
  }

  /** Stripping the ISO separators from seven digit runs leaves the runs,
      joined. */
  lemma StripRuns(d1: string, d2: string, d3: string, d4: string, d5: string, d6: string, d7: string)
    requires AllDigits(d1) && AllDigits(d2) && AllDigits(d3) && AllDigits(d4)
    requires AllDigits(d5) && AllDigits(d6) && AllDigits(d7)
    ensures RemoveChars(d1 + "-" + (d2 + "-" + (d3 + "T" + (d4 + ":" + (d5 + ":" + (d6 + "." + (d7 + "Z")))))), IsIsoSeparator)
            == d1 + d2 + d3 + d4 + d5 + d6 + d7
  {
    var r7 := d7 + "Z";
    assert r7 == d7 + ['Z'] + [];
    var r6 := d6 + "." + r7;
    var r5 := d5 + ":" + r6;
    var r4 := d4 + ":" + r5;
    var r3 := d3 + "T" + r4;
    var r2 := d2 + "-" + r3;
    StripPiece(d7, 'Z', []);
    StripPiece(d6, '.', r7);
    StripPiece(d5, ':', r6);
    StripPiece(d4, ':', r5);
    StripPiece(d3, 'T', r4);
    StripPiece(d2, '-', r3);
    StripPiece(d1, '-', r2);
    assert RemoveChars([], IsIsoSeparator) == [];
  }

  lemma IsoDigitsAreCalendar(now: Instant)
    requires Valid(now)
    ensures RemoveChars(ToIso(now), IsIsoSeparator) == CalendarDigits(now) + Digits(now.millis, 3)
  {
    StripRuns(Digits(now.year, 4), Digits(now.month, 2), Digits(now.day, 2),
              Digits(now.hour, 2), Digits(now.minute, 2), Digits(now.second, 2),
              Digits(now.millis, 3));
  }

  /** Reading the date digits back gives the clock reading to the second. */
  lemma DatePartDecodes(now: Instant)
    requires Valid(now)
    ensures DecimalValue(DatePart(now)[..4]) == now.year
    ensures DecimalValue(DatePart(now)[4..6]) == now.month
    ensures DecimalValue(DatePart(now)[6..8]) == now.day
    ensures DecimalValue(DatePart(now)[8..10]) == now.hour
    ensures DecimalValue(DatePart(now)[10..12]) == now.minute
    ensures DecimalValue(DatePart(now)[12..14]) == now.second
  {
    var d := DatePart(now);
    assert d[..4] == Digits(now.year, 4);
    assert d[4..6] == Digits(now.month, 2);
    assert d[6..8] == Digits(now.day, 2);
    assert d[8..10] == Digits(now.hour, 2);
    assert d[10..12] == Digits(now.minute, 2);
    assert d[12..14] == Digits(now.second, 2);
    assert Pow10(2) == 100 && Pow10(4) == 10000;
    DecimalValueOfDigits(now.year, 4);
    DecimalValueOfDigits(now.month, 2);
    DecimalValueOfDigits(now.day, 2);
    DecimalValueOfDigits(now.hour, 2);
    DecimalValueOfDigits(now.minute, 2);
    DecimalValueOfDigits(now.second, 2);
  }

  /** Two readings that differ before the milliseconds give different
      order numbers; readings within the same second can only be told apart
      by the random part. */
  lemma DistinctSecondsDistinctNumbers(a: Instant, b: Instant, ra: string, rb: string)
    requires Valid(a) && Valid(b)
    requires (a.year, a.month, a.day, a.hour, a.minute, a.second) != (b.year, b.month, b.day, b.hour, b.minute, b.second)
    ensures GenerateOrderNumber(a, ra) != GenerateOrderNumber(b, rb)
  {
    DatePartDecodes(a);
    DatePartDecodes(b);
    var na, nb := GenerateOrderNumber(a, ra), GenerateOrderNumber(b, rb);
    assert na[4..18] == DatePart(a) && nb[4..18] == DatePart(b);
  }

  /** A random text shorter than three characters leaves the suffix empty. */
  lemma ShortRandomTextGivesEmptySuffix(now: Instant, randomText: string)
    requires Valid(now) && |randomText| <= 2
    ensures |GenerateOrderNumber(now, randomText)| == 19
  {
  }
}
