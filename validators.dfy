/** The input validators (src/utils/validators.py) for amounts, categories and dates. */
module Validators {
  import opened Exceptions
  import opened Calendar
  import opened Text
  import Expenses

  const AmountNotPositiveMessage := "Amount must be greater than zero"
  const AmountNotNumberMessage := "Amount must be a valid number"
  const CategoryEmptyMessage := "Category cannot be empty"
  const DateFormatMessage := "Date must be in YYYY-MM-DD format"

  // ---- validate_amount ----

  /** What float(amount_str) produced: a number, or the ValueError "could not convert". */
  datatype FloatParse = Number(x: real) | NotConvertible

  function ValidateAmount(p: FloatParse): (r: Result<real>)
    ensures r.Ok? <==> p.Number? && p.x > 0.0
    ensures r.Ok? ==> r.value == p.x
    ensures p.Number? && p.x <= 0.0 ==> r == Err(ValueError(AmountNotPositiveMessage))
    ensures p.NotConvertible? ==> r == Err(ValueError(AmountNotNumberMessage))
  {
    match p
    case NotConvertible => Err(ValueError(AmountNotNumberMessage))
    case Number(x) => if x <= 0.0 then Err(ValueError(AmountNotPositiveMessage)) else Ok(x)
  }

  // ---- validate_category ----

  function ValidateCategory(category: string): (r: Result<string>)
    ensures r.Err? <==> AllSpace(category)
    ensures r.Err? ==> r.error == ValueError(CategoryEmptyMessage)
    ensures r.Ok? ==> r.value == Capitalize(Strip(category))
  {
    var stripped := Strip(category);
    if stripped == "" then Err(ValueError(CategoryEmptyMessage)) else Ok(Capitalize(stripped))
  }

  /** An accepted category is non-empty, has no surrounding whitespace, starts with an
      upper-cased character and has every later character lower-cased. */
  lemma ValidatedCategoryShape(category: string)
    requires ValidateCategory(category).Ok?
    ensures var c := ValidateCategory(category).value;
      && c != [] && !IsSpace(c[0]) && !IsSpace(c[|c| - 1])
      && c[0] == ToUpper(c[0])
      && forall k :: 1 <= k < |c| ==> c[k] == ToLower(c[k])
  {
    var c := ValidateCategory(category).value;
    var s := Strip(category);
    assert c[0] == ToUpper(s[0]);
    forall k | 1 <= k < |c| ensures c[k] == ToLower(c[k]) {
      assert c[k] == ToLower(s[k]);
    }
  }

  /** validate_category accepts its own output unchanged. */
  lemma {:induction false} ValidateCategoryIdempotent(category: string)
    requires ValidateCategory(category).Ok?
    ensures ValidateCategory(ValidateCategory(category).value) == ValidateCategory(category)
  {
    var c := ValidateCategory(category).value;
    ValidatedCategoryShape(category);
    StripFixed(c);
    CapitalizeIdempotent(Strip(category));
  }

  // ---- validate_date ----

  predicate IsNonZeroDigit(c: char) {
    '1' <= c <= '9'
  }

  /** The two-character alternatives of strptime's %m pattern, 1[0-2] and 0[1-9]. */
  predicate IsMonthPair(a: char, b: char) {
    (a == '1' && '0' <= b <= '2') || (a == '0' && IsNonZeroDigit(b))
  }

  /** The two-character alternatives of strptime's %d pattern, 3[01], [12]\d and 0[1-9]. */
  predicate IsDayPair(a: char, b: char) {
    (a == '3' && (b == '0' || b == '1')) || ((a == '1' || a == '2') && IsDigit(b))
      || (a == '0' && IsNonZeroDigit(b))
  }

  /** The day strptime's %d pattern reads when it is the whole remaining text: the pattern
      tries 3[01], [12]\d, 0[1-9], [1-9] and " [1-9]" in that order, and text left over after
      the first alternative that matches is "unconverted data". */
  function DayField(s: string): (r: Option<int>)
    ensures r.Some? ==> 1 <= r.value <= 31
  {
    if |s| == 2 && IsDayPair(s[0], s[1]) then Some(10 * DigitValue(s[0]) + DigitValue(s[1]))
    else if |s| == 2 && s[0] == ' ' && IsNonZeroDigit(s[1]) then Some(DigitValue(s[1]))
    else if |s| == 1 && IsNonZeroDigit(s[0]) then Some(DigitValue(s[0]))
    else None
  }

  /** The (year, month, day) that strptime(s, "%Y-%m-%d") reads, or None when its pattern
      does not match all of s: four digits, '-', a month (1[0-2], 0[1-9] or [1-9], which must
      be followed by '-'), '-', and a day as DayField reads it. */
  function DateFields(s: string): (r: Option<(int, int, int)>)
    ensures r.Some? ==> 0 <= r.value.0 <= 9999 && 1 <= r.value.1 <= 12 && 1 <= r.value.2 <= 31
  {
    if |s| < 7 || !AllDigits(s[..4]) || s[4] != '-' then None
    else
      var year := NumberOf(s[..4]);
      var rest := s[5..];
      if |rest| >= 3 && IsMonthPair(rest[0], rest[1]) && rest[2] == '-' then
        match DayField(rest[3..])
        case Some(d) => Some((year, 10 * DigitValue(rest[0]) + DigitValue(rest[1]), d))
        case None => None
      else if IsNonZeroDigit(rest[0]) && rest[1] == '-' then
        match DayField(rest[2..])
        case Some(d) => Some((year, DigitValue(rest[0]), d))
        case None => None
      else None
  }

  /** `not date_str or date_str.strip() == ""`: None, the empty string or only whitespace. */
  predicate IsBlank(date: Option<string>) {
    date.None? || Strip(date.value) == ""
  }

  /** A present date is blank exactly when it is all whitespace, the empty string included. */
  lemma BlankIsWhitespace(s: string)
    ensures IsBlank(Some(s)) <==> AllSpace(s)
  {
  }

  /** validate_date: a blank input gives today's date; otherwise the input is returned
      unchanged when strptime reads a date datetime.date accepts, and rejected if not. */
  function ValidateDate(date: Option<string>, now: Clock): (r: Result<string>)
    ensures IsBlank(date) ==> r == Ok(FormatDate(now))
    ensures !IsBlank(date) && r.Ok? ==> r.value == date.value
    ensures r.Err? ==> r.error == ValueError(DateFormatMessage)
  {
    if date.None? || date.value == "" || Strip(date.value) == "" then Ok(FormatDate(now))
    else match DateFields(date.value)
      case Some((y, m, d)) =>
        if IsCalendarDate(y, m, d) then Ok(date.value) else Err(ValueError(DateFormatMessage))
      case None => Err(ValueError(DateFormatMessage))
  }

  /** The zero-padded YYYY-MM-DD spelling of a year, month and day. */
  function PaddedDate(y: nat, m: nat, d: nat): (s: string)
  {
    Digits(y, 4) + "-" + Digits(m, 2) + "-" + Digits(d, 2)
  }

  /** strptime reads zero-padded YYYY-MM-DD text as the year, month and day it spells, when the
      month and day fit its patterns. */
  lemma PaddedDateFields(y: nat, m: nat, d: nat)
    requires y <= 9999 && m <= 99 && d <= 99
    ensures DateFields(PaddedDate(y, m, d))
            == if 1 <= m <= 12 && 1 <= d <= 31 then Some((y, m, d)) else None
  {
    var s := PaddedDate(y, m, d);
    TwoDigits(m);
    TwoDigits(d);
    DigitCharValue(m / 10);
    DigitCharValue(m % 10);
    DigitCharValue(d / 10);
    DigitCharValue(d % 10);
    assert s[..4] == Digits(y, 4);
    assert Pow10(4) == 10000;
    NumberOfDigits(y, 4);
    var rest := s[5..];
    assert rest == Digits(m, 2) + "-" + Digits(d, 2);
    assert rest[3..] == Digits(d, 2);
    if IsMonthPair(rest[0], rest[1]) {
      assert 10 * DigitValue(rest[0]) + DigitValue(rest[1]) == m;
      if IsDayPair(rest[3], rest[4]) {
        assert DayField(rest[3..]) == Some(d);
      } else {
        assert DayField(rest[3..]) == None;
        assert !(1 <= d <= 31);
      }
    } else {
      assert !(1 <= m <= 12);
    }
  }

  /** On zero-padded YYYY-MM-DD text, validate_date accepts exactly the dates of the Gregorian
      calendar (year 1 to 9999, month 1 to 12, day within the month, leap years included). */
  lemma PaddedDateAccepted(y: nat, m: nat, d: nat, now: Clock)
    requires y <= 9999 && m <= 99 && d <= 99
    ensures ValidateDate(Some(PaddedDate(y, m, d)), now) == Ok(PaddedDate(y, m, d))
            <==> IsCalendarDate(y, m, d)
  {
    var s := PaddedDate(y, m, d);
    PaddedDateFields(y, m, d);
    assert s[0] == Digits(y, 4)[0] && s[9] == Digits(d, 2)[1];
    ValidateDateReads(s, now);
  }

  /** The date validate_date returns for a blank input is itself accepted unchanged. */
  lemma TodayAccepted(today: Clock, now: Clock)
    ensures ValidateDate(Some(FormatDate(today)), now) == Ok(FormatDate(today))
  {
    PaddedDateAccepted(today.year, today.month, today.day, now);
  }

  /** For text with no surrounding whitespace, validate_date returns the text exactly when
      strptime reads it as a calendar date. */
  lemma ValidateDateReads(s: string, now: Clock)
    requires s != [] && !IsSpace(s[0]) && !IsSpace(s[|s| - 1])
    ensures ValidateDate(Some(s), now) ==
      if DateFields(s).Some? && IsCalendarDate(DateFields(s).value.0, DateFields(s).value.1,
                                                DateFields(s).value.2)
      then Ok(s) else Err(ValueError(DateFormatMessage))
  {
    StripFixed(s);
  }

  /** strptime also reads a one-digit month and a one-digit day (and validate_date then
      returns the text as given, not zero-padded): such a date is accepted for every year
      from 1 on. */
  lemma {:induction false} UnpaddedDateAccepted(y: nat, m: nat, d: nat, now: Clock)
    requires y <= 9999 && 1 <= m <= 9 && 1 <= d <= 9
    ensures var s := Digits(y, 4) + "-" + [DigitChar(m)] + "-" + [DigitChar(d)];
      ValidateDate(Some(s), now) == if 1 <= y then Ok(s) else Err(ValueError(DateFormatMessage))
  {
    var s := Digits(y, 4) + "-" + [DigitChar(m)] + "-" + [DigitChar(d)];
    assert s[..4] == Digits(y, 4);
    assert Pow10(4) == 10000;
    NumberOfDigits(y, 4);
    DigitCharValue(m);
    DigitCharValue(d);
    assert s[5..] == [DigitChar(m), '-', DigitChar(d)];
    assert s[5..][2..] == [DigitChar(d)];
    assert DateFields(s) == Some((y, m, d));
    ValidateDateReads(s, now);
  }

  /** How validate_date reads "<year>-02-29": accepted exactly in a Gregorian leap year. */
  lemma LeapDay(s: string, year: string, now: Clock)
    requires |year| == 4 && AllDigits(year) && NumberOf(year) >= 1 && s == year + "-02-29"
    ensures ValidateDate(Some(s), now) == if IsLeapYear(NumberOf(year)) then Ok(s)
                                          else Err(ValueError(DateFormatMessage))
  {
    assert s[..4] == year;
    assert s[5..][3..] == "29";
    assert s[0] == year[0] && s[|s| - 1] == '9';
    NumberOfFour(year);
    assert DateFields(s) == Some((NumberOf(year), 2, 29));
    ValidateDateReads(s, now);
  }

  /** Text whose fifth character is not '-' (a date written "12/21/2025", say) is rejected. */
  lemma NoDashRejected(s: string, now: Clock)
    requires s != [] && !IsSpace(s[0]) && !IsSpace(s[|s| - 1])
    requires |s| < 5 || s[4] != '-'
    ensures ValidateDate(Some(s), now) == Err(ValueError(DateFormatMessage))
  {
    ValidateDateReads(s, now);
  }

  /** Surrounding whitespace is not stripped before strptime reads the text. */
  lemma LeadingSpaceRejected(s: string, now: Clock)
    requires !IsBlank(Some(s)) && IsSpace(s[0])
    ensures ValidateDate(Some(s), now) == Err(ValueError(DateFormatMessage))
  {
    assert !IsDigit(s[0]);
    assert DateFields(s) == None by {
      if |s| >= 7 { assert s[..4][0] == s[0]; }
    }
  }

  lemma TrailingSpaceRejected(s: string, now: Clock)
    requires !IsBlank(Some(s)) && IsSpace(s[|s| - 1])
    ensures ValidateDate(Some(s), now) == Err(ValueError(DateFormatMessage))
  {
    assert !IsDigit(s[|s| - 1]);
    LastNotDigitNoFields(s);
  }

  /** strptime's day field ends the text, so text that does not end in a digit is no date. */
  lemma LastNotDigitNoFields(s: string)
    requires s != [] && !IsDigit(s[|s| - 1])
    ensures DateFields(s) == None
  {
    if |s| >= 7 && AllDigits(s[..4]) && s[4] == '-' {
      var rest := s[5..];
      assert rest[|rest| - 1] == s[|s| - 1];
      if |rest| > 3 {
        assert rest[3..][|rest| - 4] == s[|s| - 1];
      }
      if |rest| > 2 {
        assert rest[2..][|rest| - 3] == s[|s| - 1];
      }
    }
  }

  lemma SlashDateRejected(now: Clock)
    ensures ValidateDate(Some("12/21/2025"), now) == Err(ValueError(DateFormatMessage))
  {
    NoDashRejected("12/21/2025", now);
  }

  lemma BlankDateExamples(now: Clock)
    ensures ValidateDate(Some("   "), now) == Ok(FormatDate(now))
    ensures ValidateDate(None, now) == Ok(FormatDate(now))
  {
  }

  // ---- The validators feed the entity ----

  /** What the validators accept is what the expense constructor keeps: a validated amount
      never trips its guard, and a validated category and date are stored verbatim. */
  lemma ValidatedInputsConstruct(amount: FloatParse, category: string, description: string,
                                 date: Option<string>, now: Clock, suffix: Expenses.Suffix)
    requires ValidateAmount(amount).Ok? && ValidateCategory(category).Ok?
    requires ValidateDate(date, now).Ok?
    ensures var r := Expenses.New(ValidateAmount(amount).value, ValidateCategory(category).value,
                                  description, Some(ValidateDate(date, now).value), None, None,
                                  now, suffix);
      && r.Ok? && Expenses.WellFormed(r.value)
      && r.value.amount == amount.x
      && r.value.category == ValidateCategory(category).value && r.value.category != ""
      && r.value.date == ValidateDate(date, now).value
  {
    assert ValidateDate(date, now).value != "" by {
      if IsBlank(date) {
        assert |FormatDate(now)| == 10;
      } else {
        assert Strip(date.value) != "";
      }
    }
    ValidatedCategoryShape(category);
  }
}
