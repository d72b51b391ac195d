/** The ISO 8601 extended rendering of a UTC wall clock that Python's
    `datetime.isoformat()` produces for a time in `timezone.utc`:
    `YYYY-MM-DDTHH:MM:SS[.ffffff]+00:00`, the fraction only when the
    microsecond is not zero, the offset always `+00:00` and never `Z`. */
module IsoFormat {
  import opened Wrappers
  import opened Calendar
  import opened Timestamps

  function Pow10(n: nat): nat {
    if n == 0 then 1 else 10 * Pow10(n - 1)
  }

  predicate IsDigit(c: char) {
    '0' <= c <= '9'
  }

  function DigitChar(n: int): (c: char)
    requires 0 <= n < 10
    ensures IsDigit(c)
  {
    (48 + n) as char
  }

  /** Python's `'%0*d' % (width, n)` for `n >= 0`: decimal digits, padded
      with zeros on the left up to `width`. */
  function Decimal(n: nat, width: nat): (r: string)
    ensures 1 <= |r| && width <= |r|
    decreases n, width
  {
    (if n >= 10 || width > 1 then Decimal(n / 10, if width > 0 then width - 1 else 0) else "")
      + [DigitChar(n % 10)]
  }

  predicate AllDigits(s: string) {
    forall i :: 0 <= i < |s| ==> IsDigit(s[i])
  }

  /** The number a string of decimal digits denotes. */
  function DigitsValue(s: string): nat
    requires AllDigits(s)
  {
    if s == [] then 0
    else
      var c := s[|s| - 1];
      assert IsDigit(c);
      10 * DigitsValue(s[..|s| - 1]) + (c as int - 48)
  }

  /** Appending a digit multiplies the value by ten and adds the digit. */
  lemma AppendDigit(p: string, c: char)
    requires AllDigits(p) && IsDigit(c)
    ensures AllDigits(p + [c])
    ensures DigitsValue(p + [c]) == 10 * DigitsValue(p) + (c as int - 48)
  {
    assert (p + [c])[..|p|] == p;
  }

  /** The zero-padded text of a number is all digits and reads back as the
      number, whatever the width. */
  lemma {:induction false} DecimalValue(n: nat, width: nat)
    ensures AllDigits(Decimal(n, width)) && DigitsValue(Decimal(n, width)) == n
    decreases n, width
  {
    var more := n >= 10 || width > 1;
    var prefix := if more then Decimal(n / 10, if width > 0 then width - 1 else 0) else "";
    if more {
      DecimalValue(n / 10, if width > 0 then width - 1 else 0);
    }
    assert Decimal(n, width) == prefix + [DigitChar(n % 10)];
    AppendDigit(prefix, DigitChar(n % 10));
  }

  /** A number below `10^width` takes exactly `width` characters. */
  lemma {:induction false} DecimalLength(n: nat, width: nat)
    requires 1 <= width && n < Pow10(width)
    ensures |Decimal(n, width)| == width
    decreases width
  {
    if width > 1 {
      DecimalLength(n / 10, width - 1);
    }
  }

  /** A number of at least `10^width` gets no zero padding: its text is
      the one it has at width zero. */
  lemma {:induction false} DecimalWide(n: nat, width: nat)
    requires n >= Pow10(width)
    ensures Decimal(n, width) == Decimal(n, 0)
    decreases width
  {
    if width > 0 {
      assert n / 10 >= Pow10(width - 1);
      DecimalWide(n / 10, width - 1);
    }
  }

  /** A number below `10^width` takes exactly `width` digits, and reading
      them back gives the number. */
  lemma {:induction false} DecimalFixedWidth(n: nat, width: nat)
    requires 1 <= width && n < Pow10(width)
    ensures |Decimal(n, width)| == width
    ensures AllDigits(Decimal(n, width)) && DigitsValue(Decimal(n, width)) == n
    decreases width
  {
    DecimalValue(n, width);
    DecimalLength(n, width);
  }

  /** The digits of a number are the only string of `width` digits with that
      value: zero padding is canonical. */
  lemma {:induction false} DecimalOfDigits(s: string)
    requires 1 <= |s| && AllDigits(s)
    ensures Decimal(DigitsValue(s), |s|) == s
    decreases |s|
  {
    var p, c := s[..|s| - 1], s[|s| - 1];
    assert IsDigit(c);
    assert s == p + [c];
    var n, d := DigitsValue(s), c as int - 48;
    assert n == 10 * DigitsValue(p) + d && 0 <= d < 10;
    assert n % 10 == d && n / 10 == DigitsValue(p);
    assert DigitChar(d) == c;
    if |s| > 1 {
      DecimalOfDigits(p);
      assert Decimal(n, |s|) == Decimal(DigitsValue(p), |p|) + [c];
    } else {
      assert p == [] && n == d;
      assert Decimal(n, |s|) == [c];
    }
  }

  /** Python's `'%04d' % y`: the sign takes one of the four places. A year
      Python can hold takes exactly four digits that read back as the year. */
  function YearText(y: int): (r: string)
    ensures 0 <= y < 10000 ==> |r| == 4 && AllDigits(r) && DigitsValue(r) == y
    ensures y < 0 ==> |r| >= 4 && r[0] == '-' && AllDigits(r[1..]) && DigitsValue(r[1..]) == -y
  {
    if y >= 0 then
      (if y < 10000 then DecimalFixedWidth(y, 4); Decimal(y, 4) else Decimal(y, 4))
    else
      var digits := Decimal(-y, 3);
      DecimalValue(-y, 3);
      assert ("-" + digits)[1..] == digits;
      "-" + digits
  }

  function DateText(d: Date): string
    requires ValidDate(d)
  {
    YearText(d.year) + "-" + Decimal(d.month, 2) + "-" + Decimal(d.day, 2)
  }

  function TimeText(t: WallClock): string {
    Decimal(t.hour, 2) + ":" + Decimal(t.minute, 2) + ":" + Decimal(t.second, 2)
  }

  /** Python writes the fraction of a second only when it is not zero. */
  function FractionText(us: nat): string {
    if us != 0 then "." + Decimal(us, 6) else ""
  }

  /** `datetime.isoformat()` of a wall clock in UTC: the offset is always
      written `+00:00`, and a four-digit year gives 25 characters, or 32 with
      a fraction of a second. */
  function Render(t: WallClock): (r: string)
    ensures |r| >= 6 && r[|r| - 6..] == "+00:00"
    ensures 0 <= t.date.year < 10000 ==> |r| == (if t.microsecond == 0 then 25 else 32) && r[10] == 'T'
  {
    DecimalLength(t.date.month, 2);
    DecimalLength(t.date.day, 2);
    DecimalLength(t.hour, 2);
    DecimalLength(t.minute, 2);
    DecimalLength(t.second, 2);
    DecimalLength(t.microsecond, 6);
    DateText(t.date) + "T" + TimeText(t) + FractionText(t.microsecond) + "+00:00"
  }

  /** The field of `width` digits at position `at` of `s`, if it is there. */
  function Field(s: string, at: nat, width: nat): Option<nat> {
    if at + width <= |s| && AllDigits(s[at..at + width]) then Some(DigitsValue(s[at..at + width]))
    else None
  }

  function ParseDate(p: string): Option<Date> {
    if |p| != 10 || p[4] != '-' || p[7] != '-' then None
    else
      var year, month, day := Field(p, 0, 4), Field(p, 5, 2), Field(p, 8, 2);
      if year.None? || month.None? || day.None? then None
      else Some(Date(year.value, month.value, day.value))
  }

  function ParseTime(p: string): Option<(nat, nat, nat)> {
    if |p| != 8 || p[2] != ':' || p[5] != ':' then None
    else
      var hour, minute, second := Field(p, 0, 2), Field(p, 3, 2), Field(p, 6, 2);
      if hour.None? || minute.None? || second.None? then None
      else Some((hour.value, minute.value, second.value))
  }

  function ParseFraction(p: string): Option<nat> {
    if p == "" then Some(0)
    else if |p| != 7 || p[0] != '.' then None
    else
      var us := Field(p, 1, 6);
      if us.None? || us.value == 0 then None else us
  }

  /** Reads back a rendering of a UTC wall clock with a four-digit year: the
      inverse of `Render` that consumers of the external entry rely on. */
  function ParseUtc(s: string): Option<WallClock> {
    if !(|s| == 25 || |s| == 32) || s[10] != 'T' || s[|s| - 6..] != "+00:00" then None
    else
      var date, time, us := ParseDate(s[..10]), ParseTime(s[11..19]), ParseFraction(s[19..|s| - 6]);
      if date.None? || time.None? || us.None? then None
      else
        var t := DateTime(date.value, time.value.0, time.value.1, time.value.2, us.value);
        if t.Valid() then Some(t) else None
  }

  lemma {:induction false} FieldOf(s: string, at: nat, n: nat, width: nat)
    requires 1 <= width && n < Pow10(width)
    requires at + width <= |s| && s[at..at + width] == Decimal(n, width)
    ensures Field(s, at, width) == Some(n)
  {
    DecimalFixedWidth(n, width);
  }

  lemma {:induction false} ParseDateText(d: Date)
    requires 0 <= d.year <= 9999 && ValidDate(d)
    ensures |DateText(d)| == 10 && ParseDate(DateText(d)) == Some(d)
  {
    var y, mo, dd := Decimal(d.year, 4), Decimal(d.month, 2), Decimal(d.day, 2);
    DecimalFixedWidth(d.year, 4);
    DecimalFixedWidth(d.month, 2);
    DecimalFixedWidth(d.day, 2);
    var p := DateText(d);
    assert p == y + "-" + mo + "-" + dd;
    assert p[0..4] == y && p[4] == '-' && p[5..7] == mo && p[7] == '-' && p[8..10] == dd;
    FieldOf(p, 0, d.year, 4);
    FieldOf(p, 5, d.month, 2);
    FieldOf(p, 8, d.day, 2);
  }

  lemma {:induction false} ParseTimeText(t: WallClock)
    ensures |TimeText(t)| == 8 && ParseTime(TimeText(t)) == Some((t.hour, t.minute, t.second))
  {
    var h, mi, se := Decimal(t.hour, 2), Decimal(t.minute, 2), Decimal(t.second, 2);
    DecimalFixedWidth(t.hour, 2);
    DecimalFixedWidth(t.minute, 2);
    DecimalFixedWidth(t.second, 2);
    var p := TimeText(t);
    assert p == h + ":" + mi + ":" + se;
    assert p[0..2] == h && p[2] == ':' && p[3..5] == mi && p[5] == ':' && p[6..8] == se;
    FieldOf(p, 0, t.hour, 2);
    FieldOf(p, 3, t.minute, 2);
    FieldOf(p, 6, t.second, 2);
  }

  lemma {:induction false} ParseFractionText(us: nat)
    requires us < 1000000
    ensures |FractionText(us)| == (if us == 0 then 0 else 7)
    ensures ParseFraction(FractionText(us)) == Some(us)
  {
    if us != 0 {
      DecimalFixedWidth(us, 6);
      FieldOf(FractionText(us), 1, us, 6);
    }
  }

  /** Parsing undoes rendering for every UTC wall clock with a year Python
      can hold in four digits. */
  lemma {:induction false} ParseRender(t: WallClock)
    requires 0 <= t.date.year <= 9999
    ensures ParseUtc(Render(t)) == Some(t)
  {
    ParseDateText(t.date);
    ParseTimeText(t);
    ParseFractionText(t.microsecond);
    var s := Render(t);
    var f := FractionText(t.microsecond);
    assert s[..10] == DateText(t.date);
    assert s[10] == 'T';
    assert s[11..19] == TimeText(t);
    assert s[19..|s| - 6] == f;
    assert s[|s| - 6..] == "+00:00";
  }

  lemma {:induction false} FieldText(s: string, at: nat, width: nat)
    requires 1 <= width && Field(s, at, width).Some?
    ensures at + width <= |s| && Decimal(Field(s, at, width).value, width) == s[at..at + width]
  {
    DecimalOfDigits(s[at..at + width]);
  }

  lemma {:induction false} DateTextOfParse(p: string)
    requires ParseDate(p).Some? && ValidDate(ParseDate(p).value)
    ensures DateText(ParseDate(p).value) == p
  {
    FieldText(p, 0, 4);
    FieldText(p, 5, 2);
    FieldText(p, 8, 2);
    var d := ParseDate(p).value;
    assert YearText(d.year) == p[0..4];
    assert DateText(d) == p[0..4] + "-" + p[5..7] + "-" + p[8..10];
    assert p == p[0..4] + [p[4]] + p[5..7] + [p[7]] + p[8..10];
  }

  lemma {:induction false} TimeTextOfParse(p: string, t: WallClock)
    requires ParseTime(p) == Some((t.hour, t.minute, t.second))
    ensures TimeText(t) == p
  {
    FieldText(p, 0, 2);
    FieldText(p, 3, 2);
    FieldText(p, 6, 2);
    assert p == p[0..2] + ":" + p[3..5] + ":" + p[6..8];
  }

  lemma {:induction false} FractionTextOfParse(p: string)
    requires ParseFraction(p).Some?
    ensures FractionText(ParseFraction(p).value) == p
  {
    if p != "" {
      FieldText(p, 1, 6);
      assert p == "." + p[1..7];
    }
  }

  /** Rendering undoes parsing: every text the parser accepts is exactly the
      rendering of the wall clock it reads, so the rendering is canonical. */
  lemma {:induction false} RenderParse(s: string)
    requires ParseUtc(s).Some?
    ensures Render(ParseUtc(s).value) == s
  {
    var t := ParseUtc(s).value;
    DateTextOfParse(s[..10]);
    TimeTextOfParse(s[11..19], t);
    FractionTextOfParse(s[19..|s| - 6]);
    assert s == s[..10] + "T" + s[11..19] + s[19..|s| - 6] + s[|s| - 6..];
  }

  /** Distinct UTC wall clocks with four-digit years render differently. */
  lemma {:induction false} RenderInjective(a: WallClock, b: WallClock)
    requires 0 <= a.date.year <= 9999 && 0 <= b.date.year <= 9999
    requires Render(a) == Render(b)
    ensures a == b
  {
    ParseRender(a);
    ParseRender(b);
  }
}
