/** The Gregorian calendar, a reading of the wall clock, and the zero-padded decimal fields
    that strftime("%Y-%m-%d"), strftime("%Y%m%d_%H%M%S") and datetime.isoformat() print. */
module Calendar {

  predicate IsLeapYear(y: int) {
    y % 4 == 0 && (y % 100 != 0 || y % 400 == 0)
  }

  function DaysInMonth(y: int, m: int): (n: int)
    requires 1 <= m <= 12
    ensures 28 <= n <= 31
    ensures n == 29 <==> m == 2 && IsLeapYear(y)
    ensures n == 28 <==> m == 2 && !IsLeapYear(y)
    ensures m != 2 ==> (n == 30 <==> m in {4, 6, 9, 11})
  {
    if m == 2 then (if IsLeapYear(y) then 29 else 28)
    else if m == 4 || m == 6 || m == 9 || m == 11 then 30
    else 31
  }

  /** A date that datetime.date accepts: year in MINYEAR..MAXYEAR, a month, a day of it. */
  predicate IsCalendarDate(y: int, m: int, d: int) {
    1 <= y <= 9999 && 1 <= m <= 12 && 1 <= d <= DaysInMonth(y, m)
  }

  datatype Instant = Instant(year: int, month: int, day: int,
                             hour: int, minute: int, second: int, microsecond: int)

  /** What datetime.now() can return. The year is kept at four digits, where %Y prints
      exactly four characters. */
  predicate IsClockReading(t: Instant) {
    && 1000 <= t.year <= 9999
    && IsCalendarDate(t.year, t.month, t.day)
    && 0 <= t.hour < 24 && 0 <= t.minute < 60 && 0 <= t.second < 60
    && 0 <= t.microsecond < 1000000
  }

  type Clock = t: Instant | IsClockReading(t) witness Instant(2000, 1, 1, 0, 0, 0, 0)

  predicate IsDigit(c: char) {
    '0' <= c <= '9'
  }

  predicate AllDigits(s: string) {
    forall i :: 0 <= i < |s| ==> IsDigit(s[i])
  }

  function DigitChar(k: nat): (c: char)
    requires k < 10
    ensures IsDigit(c)
  {
    ('0' as int + k) as char
  }

  function DigitValue(c: char): (k: nat)
    requires IsDigit(c)
    ensures k < 10 && DigitChar(k) == c
  {
    c as int - '0' as int
  }

  function Pow10(n: nat): (p: nat)
    ensures p >= 1
  {
    if n == 0 then 1 else 10 * Pow10(n - 1)
  }

  /** The last `width` decimal digits of n, most significant first, zero-padded. */
  function Digits(n: nat, width: nat): (s: string)
    ensures |s| == width && AllDigits(s)
  {
    if width == 0 then "" else Digits(n / 10, width - 1) + [DigitChar(n % 10)]
  }

  /** The number a string of decimal digits denotes, as int() reads it. */
  function NumberOf(s: string): (n: nat)
    requires AllDigits(s)
    ensures n < Pow10(|s|)
  {
    if s == [] then 0 else NumberOf(s[..|s| - 1]) * 10 + DigitValue(s[|s| - 1])
  }

  lemma {:induction false} NumberOfDigits(n: nat, width: nat)
    requires n < Pow10(width)
    ensures NumberOf(Digits(n, width)) == n
  {
    if width > 0 {
      var s := Digits(n, width);
      assert s[..|s| - 1] == Digits(n / 10, width - 1);
      NumberOfDigits(n / 10, width - 1);
      DigitCharValue(n % 10);
    }
  }

  /** int() of four digits. */
  lemma NumberOfFour(s: string)
    requires |s| == 4 && AllDigits(s)
    ensures NumberOf(s) == 1000 * DigitValue(s[0]) + 100 * DigitValue(s[1])
                           + 10 * DigitValue(s[2]) + DigitValue(s[3])
  {
    assert s[..3][..2] == s[..2] && s[..2][..1] == s[..1] && s[..1][..0] == [];
    assert NumberOf(s[..1]) == DigitValue(s[0]);
    assert NumberOf(s[..2]) == 10 * DigitValue(s[0]) + DigitValue(s[1]);
    assert NumberOf(s[..3]) == 100 * DigitValue(s[0]) + 10 * DigitValue(s[1]) + DigitValue(s[2]);
    assert s[..4] == s;
  }

  lemma DigitCharValue(k: nat)
    requires k < 10
    ensures DigitValue(DigitChar(k)) == k
  {
  }

  /** Two zero-padded digits, spelled out. */
  lemma TwoDigits(n: nat)
    requires n < 100
    ensures Digits(n, 2) == [DigitChar(n / 10), DigitChar(n % 10)]
  {
    assert n / 10 < 10 && (n / 10) / 10 == 0 && (n / 10) % 10 == n / 10;
    assert Digits(n / 10, 1) == [DigitChar(n / 10)];
  }

  /** strftime("%Y-%m-%d"). */
  function FormatDate(t: Clock): (s: string)
    ensures |s| == 10 && s[4] == '-' && s[7] == '-'
    ensures s[..4] == Digits(t.year, 4)
  {
    Digits(t.year, 4) + "-" + Digits(t.month, 2) + "-" + Digits(t.day, 2)
  }

  /** strftime("%Y%m%d_%H%M%S"): an 8-digit date, an underscore, a 6-digit time. */
  function FormatStamp(t: Clock): (s: string)
    ensures |s| == 15 && s[8] == '_' && AllDigits(s[..8]) && AllDigits(s[9..])
    ensures var d := FormatDate(t); s[..4] == d[..4] && s[4..6] == d[5..7] && s[6..8] == d[8..10]
  {
    var time := Digits(t.hour, 2) + Digits(t.minute, 2) + Digits(t.second, 2);
    StampLayout(Digits(t.year, 4), Digits(t.month, 2), Digits(t.day, 2), time);
    Digits(t.year, 4) + Digits(t.month, 2) + Digits(t.day, 2) + "_" + time
  }

  /** Where the year, month and day sit in "Y-M-D" and in "YMD_T". */
  lemma StampLayout(y: string, m: string, d: string, time: string)
    requires |y| == 4 && |m| == 2 && |d| == 2 && |time| == 6
    requires AllDigits(y) && AllDigits(m) && AllDigits(d) && AllDigits(time)
    ensures var s, date := y + m + d + "_" + time, y + "-" + m + "-" + d;
      && |s| == 15 && s[8] == '_' && AllDigits(s[..8]) && AllDigits(s[9..])
      && s[..4] == date[..4] && s[4..6] == date[5..7] && s[6..8] == date[8..10]
  {
    var s, date := y + m + d + "_" + time, y + "-" + m + "-" + d;
    assert s[..8] == y + m + d && s[9..] == time;
    assert s[..4] == y == date[..4];
    assert s[4..6] == m == date[5..7];
    assert s[6..8] == d == date[8..10];
  }

  /** datetime.isoformat(): the microseconds are printed only when they are not zero. */
  function IsoFormat(t: Clock): (s: string)
    ensures |s| == if t.microsecond == 0 then 19 else 26
    ensures s[..10] == FormatDate(t) && s[10] == 'T'
  {
    FormatDate(t) + "T" + Digits(t.hour, 2) + ":" + Digits(t.minute, 2) + ":" + Digits(t.second, 2)
      + (if t.microsecond == 0 then "" else "." + Digits(t.microsecond, 6))
  }
}
