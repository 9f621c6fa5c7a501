/** Parsing of the creation timestamp with the format `%Y-%m-%dT%H:%M:%SZ`
    and its reduction to a `YYYY-MM` month key (`to_period("M")` then `str`). */
module Timestamps {
  import opened Wrappers
  import opened StringOrder

  /** A calendar date and time of day, as a Python `datetime` holds it. */
  datatype DateTime = DateTime(year: nat, month: nat, day: nat, hour: nat, minute: nat, second: nat)

  predicate IsDigit(c: char) {
    '0' <= c <= '9'
  }

  predicate AllDigits(s: string) {
    forall i :: 0 <= i < |s| ==> IsDigit(s[i])
  }

  function DigitValue(c: char): nat
    requires IsDigit(c)
  {
    c as int - '0' as int
  }

  function DigitChar(d: nat): char
    requires d < 10
  {
    ('0' as int + d) as char
  }

  function Pow10(k: nat): nat
    decreases k
  {
    if k == 0 then 1 else 10 * Pow10(k - 1)
  }

  /** The number a string of decimal digits denotes. */
  function DecimalValue(s: string): nat
    requires AllDigits(s)
    decreases |s|
  {
    if s == [] then 0 else 10 * DecimalValue(s[..|s| - 1]) + DigitValue(s[|s| - 1])
  }

  /** The lowest `width` decimal digits of `n`, zero-padded on the left. */
  function Digits(n: nat, width: nat): (s: string)
    ensures |s| == width
    decreases width
  {
    if width == 0 then [] else Digits(n / 10, width - 1) + [DigitChar(n % 10)]
  }

  predicate IsLeapYear(year: nat) {
    year % 4 == 0 && (year % 100 != 0 || year % 400 == 0)
  }

  function DaysInMonth(year: nat, month: nat): nat
    requires 1 <= month <= 12
  {
    if month == 2 then (if IsLeapYear(year) then 29 else 28)
    else if month == 4 || month == 6 || month == 9 || month == 11 then 30
    else 31
  }

  /** The range checks a Python `datetime` makes on construction. */
  predicate ValidDateTime(d: DateTime) {
    && 1 <= d.year <= 9999
    && 1 <= d.month <= 12
    && 1 <= d.day <= DaysInMonth(d.year, d.month)
    && d.hour < 24
    && d.minute < 60
    && d.second < 60
  }

  /** The zero-padded layout `YYYY-MM-DDTHH:MM:SSZ` the listing endpoint emits. */
  predicate WellFormed(s: string) {
    && |s| == 20
    && AllDigits(s[0..4]) && s[4] == '-'
    && AllDigits(s[5..7]) && s[7] == '-'
    && AllDigits(s[8..10]) && s[10] == 'T'
    && AllDigits(s[11..13]) && s[13] == ':'
    && AllDigits(s[14..16]) && s[16] == ':'
    && AllDigits(s[17..19]) && s[19] == 'Z'
  }

  /** The six numeric fields of a well-formed timestamp, unchecked. */
  function Fields(s: string): DateTime
    requires WellFormed(s)
  {
    DateTime(DecimalValue(s[0..4]), DecimalValue(s[5..7]), DecimalValue(s[8..10]),
             DecimalValue(s[11..13]), DecimalValue(s[14..16]), DecimalValue(s[17..19]))
  }

  /** `datetime.strptime(s, "%Y-%m-%dT%H:%M:%SZ")`; `None` where it raises. */
  function Parse(s: string): (r: Option<DateTime>)
    ensures r.Some? ==> WellFormed(s) && ValidDateTime(r.value)
  {
    if WellFormed(s) && ValidDateTime(Fields(s)) then Some(Fields(s)) else None
  }

  /** The same timestamp written back in the layout it was parsed from. */
  function Format(d: DateTime): string {
    DatePart(d) + "T" + TimePart(d) + "Z"
  }

  /** `YYYY-MM-DD` */
  function DatePart(d: DateTime): string {
    Digits(d.year, 4) + "-" + Digits(d.month, 2) + "-" + Digits(d.day, 2)
  }

  /** `HH:MM:SS` */
  function TimePart(d: DateTime): string {
    Digits(d.hour, 2) + ":" + Digits(d.minute, 2) + ":" + Digits(d.second, 2)
  }

  /** The month bucket of a time: `str(pd.Timestamp(d).to_period("M"))`. */
  function MonthKey(d: DateTime): string {
    Digits(d.year, 4) + "-" + Digits(d.month, 2)
  }

  /** Splitting a number into its last decimal digit and the rest. */
  lemma DivMod10(v: nat, d: nat)
    requires d < 10
    ensures (10 * v + d) / 10 == v && (10 * v + d) % 10 == d
  {
  }

  lemma {:induction false} DigitsAreDigits(n: nat, width: nat)
    ensures AllDigits(Digits(n, width))
    decreases width
  {
    if width > 0 {
      DigitsAreDigits(n / 10, width - 1);
    }
  }

  /** Writing a digit string's value back with as many digits gives the string. */
  lemma {:induction false} DigitsOfDecimalValue(s: string)
    requires AllDigits(s)
    ensures Digits(DecimalValue(s), |s|) == s
    decreases |s|
  {
    if s != [] {
      var init, last := s[..|s| - 1], s[|s| - 1];
      var n := DecimalValue(s);
      assert n == 10 * DecimalValue(init) + DigitValue(last);
      DivMod10(DecimalValue(init), DigitValue(last));
      assert Digits(n, |s|) == Digits(DecimalValue(init), |s| - 1) + [DigitChar(DigitValue(last))];
      DigitsOfDecimalValue(init);
      assert DigitChar(DigitValue(last)) == last;
      assert s == init + [last];
    }
  }

  /** Reading back a number written with enough digits gives the number. */
  lemma {:induction false} DecimalValueOfDigits(n: nat, width: nat)
    requires n < Pow10(width)
    ensures AllDigits(Digits(n, width))
    ensures DecimalValue(Digits(n, width)) == n
    decreases width
  {
    DigitsAreDigits(n, width);
    if width > 0 {
      var s := Digits(n, width);
      DecimalValueOfDigits(n / 10, width - 1);
      assert s[..width - 1] == Digits(n / 10, width - 1);
      assert DigitValue(DigitChar(n % 10)) == n % 10;
    }
  }

  /** A string made of three fields and two separators, rebuilt from its parts. */
  lemma {:induction false} ThreeFields(s: string, a: string, x: char, b: string, y: char, c: string)
    requires |s| == |a| + |b| + |c| + 2
    requires s[0..|a|] == a && s[|a|] == x && s[|a| + 1..|a| + 1 + |b|] == b
    requires s[|a| + 1 + |b|] == y && s[|a| + 2 + |b|..] == c
    ensures s == a + [x] + b + [y] + c
  {
    var t := a + [x] + b + [y] + c;
    forall i | 0 <= i < |s| ensures s[i] == t[i] {
      if i < |a| {
        assert s[i] == s[0..|a|][i];
      } else if |a| < i < |a| + 1 + |b| {
        assert s[i] == s[|a| + 1..|a| + 1 + |b|][i - |a| - 1];
      } else if i > |a| + 1 + |b| {
        assert s[i] == s[|a| + 2 + |b|..][i - |a| - 2 - |b|];
      }
    }
  }

  /** A slice of a slice is a slice of the original string. */
  lemma SliceOfSlice(s: string, i: nat, j: nat, k: nat, l: nat)
    requires i <= j <= |s| && k <= l <= j - i
    ensures s[i..j][k..l] == s[i + k..i + l]
  {
    forall t | 0 <= t < l - k ensures s[i..j][k..l][t] == s[i + k..i + l][t] {
    }
  }

  /** One digit field of width `w`, read and written back at that width. */
  lemma FieldRoundTrip(a: string, w: nat)
    requires |a| == w && AllDigits(a)
    ensures Digits(DecimalValue(a), w) == a
  {
    DigitsOfDecimalValue(a);
  }

  /** Three digit fields of widths `w1`, `w2` and `w3` with a separator
      between each pair, rebuilt from the numbers they hold. */
  lemma DigitFields(t: string, w1: nat, w2: nat, w3: nat, sep: char)
    requires |t| == w1 + w2 + w3 + 2
    requires AllDigits(t[0..w1]) && t[w1] == sep
    requires AllDigits(t[w1 + 1..w1 + 1 + w2]) && t[w1 + 1 + w2] == sep
    requires AllDigits(t[w1 + 2 + w2..])
    ensures Digits(DecimalValue(t[0..w1]), w1) + [sep]
          + Digits(DecimalValue(t[w1 + 1..w1 + 1 + w2]), w2) + [sep]
          + Digits(DecimalValue(t[w1 + 2 + w2..]), w3) == t
  {
    var a, b, c := t[0..w1], t[w1 + 1..w1 + 1 + w2], t[w1 + 2 + w2..];
    FieldRoundTrip(a, w1);
    FieldRoundTrip(b, w2);
    FieldRoundTrip(c, w3);
    ThreeFields(t, a, sep, b, sep, c);
  }

  /** `YYYY-MM-DD`, rebuilt from the fields it holds. */
  lemma DatePartOfFields(s: string)
    requires WellFormed(s)
    ensures DatePart(Fields(s)) == s[0..10]
  {
    SliceOfSlice(s, 0, 10, 0, 4);
    SliceOfSlice(s, 0, 10, 5, 7);
    SliceOfSlice(s, 0, 10, 8, 10);
    assert s[0..10][8..] == s[0..10][8..10];
    DigitFields(s[0..10], 4, 2, 2, '-');
  }

  /** `HH:MM:SS`, rebuilt from the fields it holds. */
  lemma TimePartOfFields(s: string)
    requires WellFormed(s)
    ensures TimePart(Fields(s)) == s[11..19]
  {
    SliceOfSlice(s, 11, 19, 0, 2);
    SliceOfSlice(s, 11, 19, 3, 5);
    SliceOfSlice(s, 11, 19, 6, 8);
    assert s[11..19][6..] == s[11..19][6..8];
    DigitFields(s[11..19], 2, 2, 2, ':');
  }

  /** Formatting the fields of a well-formed timestamp gives the timestamp back. */
  lemma FormatFields(s: string)
    requires WellFormed(s)
    ensures Format(Fields(s)) == s
  {
    DatePartOfFields(s);
    TimePartOfFields(s);
    ThreeFields(s, s[0..10], 'T', s[11..19], 'Z', []);
  }

  /** Every timestamp the parser accepts is the formatting of what it parsed. */
  lemma FormatParse(s: string)
    requires Parse(s).Some?
    ensures Format(Parse(s).value) == s
  {
    FormatFields(s);
  }

  /** The three fields of a string built from three fields and two separators. */
  lemma {:induction false} FieldsOfThree(a: string, x: char, b: string, y: char, c: string)
    ensures var s := a + [x] + b + [y] + c;
      && s[..|a|] == a && s[|a|] == x && s[|a| + 1..|a| + 1 + |b|] == b
      && s[|a| + 1 + |b|] == y && s[|a| + 2 + |b|..] == c
  {
  }

  /** Where each field of a formatted timestamp sits. */
  lemma FormatLayout(d: DateTime)
    ensures var f := Format(d);
      && f[0..4] == Digits(d.year, 4) && f[4] == '-'
      && f[5..7] == Digits(d.month, 2) && f[7] == '-'
      && f[8..10] == Digits(d.day, 2) && f[10] == 'T'
      && f[11..13] == Digits(d.hour, 2) && f[13] == ':'
      && f[14..16] == Digits(d.minute, 2) && f[16] == ':'
      && f[17..19] == Digits(d.second, 2) && f[19] == 'Z'
  {
    var f := Format(d);
    var date, time := DatePart(d), TimePart(d);
    assert f[0..10] == date && f[10] == 'T' && f[11..19] == time && f[19] == 'Z';
    FieldsOfThree(Digits(d.year, 4), '-', Digits(d.month, 2), '-', Digits(d.day, 2));
    FieldsOfThree(Digits(d.hour, 2), ':', Digits(d.minute, 2), ':', Digits(d.second, 2));
    SliceOfSlice(f, 0, 10, 0, 4);
    SliceOfSlice(f, 0, 10, 5, 7);
    SliceOfSlice(f, 0, 10, 8, 10);
    SliceOfSlice(f, 11, 19, 0, 2);
    SliceOfSlice(f, 11, 19, 3, 5);
    SliceOfSlice(f, 11, 19, 6, 8);
  }

  /** Every valid date and time survives formatting and parsing unchanged. */
  lemma ParseFormat(d: DateTime)
    requires ValidDateTime(d)
    ensures Parse(Format(d)) == Some(d)
  {
    var f := Format(d);
    FormatLayout(d);
    assert Pow10(4) == 10000 && Pow10(2) == 100;
    DecimalValueOfDigits(d.year, 4);
    DecimalValueOfDigits(d.month, 2);
    DecimalValueOfDigits(d.day, 2);
    DecimalValueOfDigits(d.hour, 2);
    DecimalValueOfDigits(d.minute, 2);
    DecimalValueOfDigits(d.second, 2);
    assert WellFormed(f);
    assert Fields(f) == d;
  }

  /** The month key of a date and time is the first seven characters of its
      formatting. */
  lemma MonthKeyOfFormat(d: DateTime)
    ensures Format(d)[..7] == MonthKey(d)
  {
    assert Format(d)[..7] == DatePart(d)[..7] == MonthKey(d);
  }

  /** For a timestamp the parser accepts, the month key is its `YYYY-MM` prefix. */
  lemma MonthKeyIsPrefix(s: string)
    requires Parse(s).Some?
    ensures MonthKey(Parse(s).value) == s[..7]
  {
    var d := Parse(s).value;
    FormatParse(s);
    MonthKeyOfFormat(d);
  }

  /** On numbers that fit in `width` digits, comparing their zero-padded
      digit strings compares the numbers. */
  lemma {:induction false} DigitsOrder(a: nat, b: nat, width: nat)
    requires a < Pow10(width) && b < Pow10(width)
    ensures Less(Digits(a, width), Digits(b, width)) <==> a < b
    decreases width
  {
    if width > 0 {
      var a', b' := a / 10, b / 10;
      assert a' < Pow10(width - 1) && b' < Pow10(width - 1);
      DigitsOrder(a', b', width - 1);
      DigitsOrder(b', a', width - 1);
      LessConcat(Digits(a', width - 1), [DigitChar(a % 10)], Digits(b', width - 1), [DigitChar(b % 10)]);
      LessIrreflexive(Digits(a', width - 1));
      LessIrreflexive(Digits(b', width - 1));
    }
  }

  /** Month keys sort as strings exactly as their months sort in time, which is
      why ordering the buckets by key orders them chronologically. */
  lemma MonthKeyChronological(d1: DateTime, d2: DateTime)
    requires ValidDateTime(d1) && ValidDateTime(d2)
    ensures Less(MonthKey(d1), MonthKey(d2))
        <==> d1.year < d2.year || (d1.year == d2.year && d1.month < d2.month)
  {
    var y1, y2 := Digits(d1.year, 4), Digits(d2.year, 4);
    assert Pow10(4) == 10000 && Pow10(2) == 100;
    DigitsOrder(d1.year, d2.year, 4);
    DigitsOrder(d2.year, d1.year, 4);
    DigitsOrder(d1.month, d2.month, 2);
    DecimalValueOfDigits(d1.year, 4);
    DecimalValueOfDigits(d2.year, 4);
    LessConcat(y1, "-" + Digits(d1.month, 2), y2, "-" + Digits(d2.month, 2));
    LessConcat("-", Digits(d1.month, 2), "-", Digits(d2.month, 2));
    assert MonthKey(d1) == y1 + ("-" + Digits(d1.month, 2));
    assert MonthKey(d2) == y2 + ("-" + Digits(d2.month, 2));
  }

  lemma FourDigitExamples()
    ensures Digits(2023, 4) == "2023"
    ensures Digits(2024, 4) == "2024"
  {
    assert Digits(2023, 4) == "2023";
  }

  lemma TwoDigitExamples()
    ensures Digits(0, 2) == "00" && Digits(1, 2) == "01" && Digits(12, 2) == "12"
    ensures Digits(23, 2) == "23" && Digits(31, 2) == "31" && Digits(59, 2) == "59"
  {
    assert Digits(0, 2) == "00" && Digits(1, 2) == "01" && Digits(12, 2) == "12";
  }

  lemma DateOf2023Dec31()
    ensures DatePart(DateTime(2023, 12, 31, 23, 59, 0)) == "2023-12-31"
    ensures MonthKey(DateTime(2023, 12, 31, 23, 59, 0)) == "2023-12"
  {
    FourDigitExamples();
    TwoDigitExamples();
  }

  lemma TimeOf2023Dec31()
    ensures TimePart(DateTime(2023, 12, 31, 23, 59, 0)) == "23:59:00"
  {
    TwoDigitExamples();
  }

  lemma DateOf2024Jan01()
    ensures DatePart(DateTime(2024, 1, 1, 0, 0, 1)) == "2024-01-01"
    ensures MonthKey(DateTime(2024, 1, 1, 0, 0, 1)) == "2024-01"
  {
    FourDigitExamples();
    TwoDigitExamples();
  }

  lemma TimeOf2024Jan01()
    ensures TimePart(DateTime(2024, 1, 1, 0, 0, 1)) == "00:00:01"
  {
    TwoDigitExamples();
  }

  lemma FormatOf2023Dec31()
    ensures Format(DateTime(2023, 12, 31, 23, 59, 0)) == "2023-12-31T23:59:00Z"
  {
    DateOf2023Dec31();
    TimeOf2023Dec31();
  }

  lemma FormatOf2024Jan01()
    ensures Format(DateTime(2024, 1, 1, 0, 0, 1)) == "2024-01-01T00:00:01Z"
  {
    DateOf2024Jan01();
    TimeOf2024Jan01();
  }

  /** Two timestamps either side of a year boundary fall into consecutive
      months, and the earlier month's key sorts first. */
  lemma YearBoundary()
    ensures Parse("2023-12-31T23:59:00Z") == Some(DateTime(2023, 12, 31, 23, 59, 0))
    ensures Parse("2024-01-01T00:00:01Z") == Some(DateTime(2024, 1, 1, 0, 0, 1))
    ensures MonthKey(DateTime(2023, 12, 31, 23, 59, 0)) == "2023-12"
    ensures MonthKey(DateTime(2024, 1, 1, 0, 0, 1)) == "2024-01"
    ensures Less("2023-12", "2024-01")
  {
    var d1, d2 := DateTime(2023, 12, 31, 23, 59, 0), DateTime(2024, 1, 1, 0, 0, 1);
    FormatOf2023Dec31();
    FormatOf2024Jan01();
    DateOf2023Dec31();
    DateOf2024Jan01();
    ParseFormat(d1);
    ParseFormat(d2);
    MonthKeyChronological(d1, d2);
  }
}
