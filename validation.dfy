/** The two input validators of ScanEQ.py: `validate_ticker` (a regular expression
    matched with Python's `re.match`) and `validate_date` (`datetime.strptime` with the
    format "%Y-%m-%d").  Each is modelled the way the matcher it relies on works, and
    then characterised by a declarative description of the strings it accepts. */
module Validation {

  import opened Wrappers

  // ---------------------------------------------------------------------------
  // Ticker symbols: re.match("^[a-zA-Z0-9.-]{1,10}$", ticker)
  // ---------------------------------------------------------------------------

  /** The upper bound of the repetition `{1,10}`. */
  const MaxTickerLength: nat := 10

  /** Membership in the character class `[a-zA-Z0-9.-]`. */
  predicate IsTickerChar(c: char) {
    ('a' <= c <= 'z') || ('A' <= c <= 'Z') || ('0' <= c <= '9') || c == '.' || c == '-'
  }

  predicate AllTickerChars(s: string) {
    forall i :: 0 <= i < |s| ==> IsTickerChar(s[i])
  }

  /** What the ticker pattern is meant to describe: 1 to 10 characters of the class. */
  predicate IsTickerSymbol(s: string) {
    1 <= |s| <= MaxTickerLength && AllTickerChars(s)
  }

  /** The greedy phase of `[...]{1,limit}`: the number of leading characters of `t`
      the class consumes, never more than `limit`. */
  function GreedyRun(t: string, limit: nat): (k: nat)
    ensures k <= limit && k <= |t|
    ensures forall i :: 0 <= i < k ==> IsTickerChar(t[i])
    ensures k < limit && k < |t| ==> !IsTickerChar(t[k])
  {
    if limit == 0 || |t| == 0 || !IsTickerChar(t[0]) then 0
    else 1 + GreedyRun(t[1..], limit - 1)
  }

  /** Python's `$` without MULTILINE: it holds at the end of the string and also just
      before a newline that is the string's last character. */
  predicate EndAnchorAt(t: string, k: nat) {
    k == |t| || (k + 1 == |t| && t[k] == '\n')
  }

  /** Backtracking of the repetition: the counts k, k-1, ..., 1 are tried in turn
      until `$` holds after one of them. */
  predicate AnchorWithin(t: string, k: nat)
    decreases k
  {
    k >= 1 && (EndAnchorAt(t, k) || AnchorWithin(t, k - 1))
  }

  /** `validate_ticker` without its error dialog (ScanEQ.py:50-55). */
  predicate ValidateTicker(t: string) {
    AnchorWithin(t, GreedyRun(t, MaxTickerLength))
  }

  /** Backtracking to a shorter count never helps: every character the greedy phase
      consumed is a class character, so `$` cannot hold before the end of the run. */
  lemma {:induction false} AnchorOnlyAtRunEnd(t: string, k: nat)
    requires k <= |t|
    requires forall i :: 0 <= i < k ==> IsTickerChar(t[i])
    ensures AnchorWithin(t, k) <==> k >= 1 && EndAnchorAt(t, k)
  {
    if k >= 1 {
      assert IsTickerChar(t[k - 1]);
      AnchorOnlyAtRunEnd(t, k - 1);
      assert !EndAnchorAt(t, k - 1);
    }
  }

  /** The strings `validate_ticker` accepts: a ticker symbol, or a ticker symbol
      followed by a single newline (the effect of `$`). */
  lemma ValidateTickerAccepts(t: string)
    ensures ValidateTicker(t) <==>
      IsTickerSymbol(t) || (|t| >= 1 && t[|t| - 1] == '\n' && IsTickerSymbol(t[..|t| - 1]))
  {
    var k := GreedyRun(t, MaxTickerLength);
    AnchorOnlyAtRunEnd(t, k);
    if IsTickerSymbol(t) {
      assert k == |t|;
    } else if |t| >= 1 && t[|t| - 1] == '\n' && IsTickerSymbol(t[..|t| - 1]) {
      var u := t[..|t| - 1];
      assert forall i :: 0 <= i < |u| ==> u[i] == t[i];
      assert k == |t| - 1;
    }
  }

  /** A trailing newline is accepted, and so are the dot and the hyphen. */
  lemma TickerAcceptedCases()
    ensures ValidateTicker("AAPL\n")
    ensures ValidateTicker("BRK.B") && ValidateTicker("BF-B")
  {
    ValidateTickerAccepts("AAPL\n");
    assert "AAPL\n"[..4] == "AAPL";
    ValidateTickerAccepts("BRK.B");
    ValidateTickerAccepts("BF-B");
  }

  /** The empty string, eleven class characters, two trailing newlines and an inner
      space are rejected. */
  lemma TickerRejectedCases()
    ensures !ValidateTicker("")
    ensures !ValidateTicker("ABCDEFGHIJK")
    ensures !ValidateTicker("AAPL\n\n")
    ensures !ValidateTicker("AA PL")
  {
    ValidateTickerAccepts("");
    ValidateTickerAccepts("ABCDEFGHIJK");
    var twice := "AAPL\n\n";
    ValidateTickerAccepts(twice);
    assert !IsTickerChar(twice[..5][4]);
    var spaced := "AA PL";
    ValidateTickerAccepts(spaced);
    assert !IsTickerChar(spaced[2]);
    assert !IsTickerChar(spaced[..4][2]);
  }

  // ---------------------------------------------------------------------------
  // Calendar
  // ---------------------------------------------------------------------------

  /** The year range of Python's `datetime` (MINYEAR and MAXYEAR). */
  const MinYear: int := 1
  const MaxYear: int := 9999

  /** The Gregorian leap-year rule. */
  predicate IsLeapYear(y: int) {
    y % 4 == 0 && (y % 100 != 0 || y % 400 == 0)
  }

  function DaysInMonth(y: int, m: int): (n: int)
    requires 1 <= m <= 12
    ensures 28 <= n <= 31
    ensures m == 2 ==> (n == 29 <==> IsLeapYear(y))
  {
    if m == 2 then (if IsLeapYear(y) then 29 else 28)
    else if m == 4 || m == 6 || m == 9 || m == 11 then 30
    else 31
  }

  datatype Date = Date(year: int, month: int, day: int)

  /** The dates `datetime(year, month, day)` constructs without raising ValueError. */
  predicate IsCalendarDate(d: Date) {
    MinYear <= d.year <= MaxYear && 1 <= d.month <= 12 && 1 <= d.day <= DaysInMonth(d.year, d.month)
  }

  // ---------------------------------------------------------------------------
  // Dates: datetime.strptime(date_text, "%Y-%m-%d")
  // ---------------------------------------------------------------------------

  predicate IsDigit(c: char) {
    '0' <= c <= '9'
  }

  function DigitValue(c: char): (v: nat)
    requires IsDigit(c)
    ensures v < 10
  {
    c as int - '0' as int
  }

  function DigitChar(v: nat): (c: char)
    requires v < 10
    ensures IsDigit(c) && DigitValue(c) == v
  {
    ('0' as int + v) as char
  }

  /** What a directive matched: its value and the text after it. */
  datatype Field = Field(value: nat, rest: string)

  /** The value of the four digits `\d\d\d\d` that `%Y` matches. */
  function YearValue(s: string): (y: nat)
    requires |s| >= 4 && IsDigit(s[0]) && IsDigit(s[1]) && IsDigit(s[2]) && IsDigit(s[3])
    ensures y < 10000
  {
    DigitValue(s[0]) * 1000 + DigitValue(s[1]) * 100 + DigitValue(s[2]) * 10 + DigitValue(s[3])
  }

  /** `%m` followed by the literal '-': the alternatives 1[0-2], 0[1-9] and [1-9]
      are tried in this order, each with the '-' that must follow it. */
  function MatchMonthDash(t: string): (r: Option<Field>)
    ensures r.Some? ==> 1 <= r.value.value <= 12 && |r.value.rest| < |t|
  {
    if |t| >= 3 && t[0] == '1' && '0' <= t[1] <= '2' && t[2] == '-' then
      Some(Field(10 + DigitValue(t[1]), t[3..]))
    else if |t| >= 3 && t[0] == '0' && '1' <= t[1] <= '9' && t[2] == '-' then
      Some(Field(DigitValue(t[1]), t[3..]))
    else if |t| >= 2 && '1' <= t[0] <= '9' && t[1] == '-' then
      Some(Field(DigitValue(t[0]), t[2..]))
    else
      None
  }

  /** `%d`, the last directive: the first of 3[01], [12]\d, 0[1-9], [1-9] and ' '[1-9]
      that matches a prefix of `t` wins. */
  function MatchDay(t: string): (r: Option<Field>)
    ensures r.Some? ==> 1 <= r.value.value <= 31 && |r.value.rest| < |t|
  {
    if |t| >= 2 && t[0] == '3' && '0' <= t[1] <= '1' then
      Some(Field(30 + DigitValue(t[1]), t[2..]))
    else if |t| >= 2 && '1' <= t[0] <= '2' && IsDigit(t[1]) then
      Some(Field(10 * DigitValue(t[0]) + DigitValue(t[1]), t[2..]))
    else if |t| >= 2 && t[0] == '0' && '1' <= t[1] <= '9' then
      Some(Field(DigitValue(t[1]), t[2..]))
    else if |t| >= 1 && '1' <= t[0] <= '9' then
      Some(Field(DigitValue(t[0]), t[1..]))
    else if |t| >= 2 && t[0] == ' ' && '1' <= t[1] <= '9' then
      Some(Field(DigitValue(t[1]), t[2..]))
    else
      None
  }

  /** `datetime.strptime(s, "%Y-%m-%d")`: the match of the format's regular
      expression, the "unconverted data remains" check, then the range check of
      `datetime(year, month, day)`.  None stands for the ValueError. */
  function ParseDate(s: string): (r: Option<Date>)
    ensures r.Some? ==> IsCalendarDate(r.value)
  {
    if |s| < 5 || !(IsDigit(s[0]) && IsDigit(s[1]) && IsDigit(s[2]) && IsDigit(s[3])) || s[4] != '-' then
      None
    else
      match MatchMonthDash(s[5..])
      case None => None
      case Some(month) =>
        match MatchDay(month.rest)
        case None => None
        case Some(day) =>
          var d := Date(YearValue(s), month.value, day.value);
          if day.rest != [] then None
          else if IsCalendarDate(d) then Some(d)
          else None
  }

  /** `validate_date` without its error dialog (ScanEQ.py:57-63). */
  predicate ValidateDate(s: string) {
    ParseDate(s).Some?
  }

  // ---------------------------------------------------------------------------
  // The spellings of a date that strptime reads
  // ---------------------------------------------------------------------------

  /** How a month or day number below ten is written: "05", "5" or " 5".  Numbers of
      ten and above are written with two digits whatever the padding. */
  datatype Padding = ZeroPadded | Unpadded | SpacePadded

  function TwoDigitText(n: nat): string
    requires n < 100
  {
    [DigitChar(n / 10), DigitChar(n % 10)]
  }

  function FieldText(n: nat, p: Padding): string
    requires n < 100
  {
    if n >= 10 || p == ZeroPadded then TwoDigitText(n)
    else if p == Unpadded then [DigitChar(n)]
    else [' ', DigitChar(n)]
  }

  function YearText(y: nat): string
    requires y < 10000
  {
    TwoDigitText(y / 100) + TwoDigitText(y % 100)
  }

  /** The fields of `d` fit the widths of the format: four year digits, at most two
      month and day digits. */
  predicate FitsFormat(d: Date) {
    0 <= d.year < 10000 && 0 <= d.month < 100 && 0 <= d.day < 100
  }

  function DateText(d: Date, monthPad: Padding, dayPad: Padding): string
    requires FitsFormat(d)
  {
    YearText(d.year) + "-" + FieldText(d.month, monthPad) + "-" + FieldText(d.day, dayPad)
  }

  /** The canonical YYYY-MM-DD text of a date. */
  function IsoText(d: Date): string
    requires FitsFormat(d)
  {
    DateText(d, ZeroPadded, ZeroPadded)
  }

  lemma DigitCharOfValue(c: char)
    requires IsDigit(c)
    ensures DigitChar(DigitValue(c)) == c
  {
  }

  /** Four digits are the year text of their value. */
  lemma YearTextOfDigits(s: string)
    requires |s| >= 4 && IsDigit(s[0]) && IsDigit(s[1]) && IsDigit(s[2]) && IsDigit(s[3])
    ensures s[..4] == YearText(YearValue(s))
  {
    var a, b, c, e := DigitValue(s[0]), DigitValue(s[1]), DigitValue(s[2]), DigitValue(s[3]);
    var y := YearValue(s);
    assert y == 100 * (10 * a + b) + (10 * c + e);
    assert y / 100 == 10 * a + b && y % 100 == 10 * c + e;
    assert (10 * a + b) / 10 == a && (10 * a + b) % 10 == b;
    assert (10 * c + e) / 10 == c && (10 * c + e) % 10 == e;
    DigitCharOfValue(s[0]);
    DigitCharOfValue(s[1]);
    DigitCharOfValue(s[2]);
    DigitCharOfValue(s[3]);
  }

  /** The year text is four digits whose value is the year. */
  lemma DigitsOfYearText(y: nat, rest: string)
    requires y < 10000
    ensures var s := YearText(y) + rest;
      |s| >= 4 && IsDigit(s[0]) && IsDigit(s[1]) && IsDigit(s[2]) && IsDigit(s[3]) &&
      YearValue(s) == y && s[4..] == rest
  {
    var s := YearText(y) + rest;
    var hi, lo := y / 100, y % 100;
    assert s[0] == DigitChar(hi / 10) && s[1] == DigitChar(hi % 10);
    assert s[2] == DigitChar(lo / 10) && s[3] == DigitChar(lo % 10);
    assert YearValue(s) == (hi / 10) * 1000 + (hi % 10) * 100 + (lo / 10) * 10 + lo % 10;
    assert s[4..] == rest;
  }

  /** `%m` followed by '-' reads back a month written zero-padded or unpadded. */
  lemma MonthDashReads(m: nat, p: Padding, rest: string)
    requires 1 <= m <= 12 && p != SpacePadded
    ensures MatchMonthDash(FieldText(m, p) + "-" + rest) == Some(Field(m, rest))
  {
    var t := FieldText(m, p) + "-" + rest;
    if m >= 10 || p == ZeroPadded {
      assert t[0] == DigitChar(m / 10) && t[1] == DigitChar(m % 10) && t[2] == '-';
      assert t[3..] == rest;
    } else {
      assert t[0] == DigitChar(m) && t[1] == '-';
      assert t[2..] == rest;
    }
  }

  /** `%d` reads back a whole day field, whatever its padding. */
  lemma DayReads(n: nat, p: Padding)
    requires 1 <= n <= 31
    ensures MatchDay(FieldText(n, p)) == Some(Field(n, []))
  {
    var t := FieldText(n, p);
    if n >= 10 || p == ZeroPadded {
      assert t[0] == DigitChar(n / 10) && t[1] == DigitChar(n % 10);
    }
  }

  /** What `%m-` matched is a month text followed by '-'. */
  lemma MonthDashSpelling(t: string) returns (p: Padding)
    requires MatchMonthDash(t).Some?
    ensures p != SpacePadded
    ensures var f := MatchMonthDash(t).value; t == FieldText(f.value, p) + "-" + f.rest
  {
    var f := MatchMonthDash(t).value;
    if |t| >= 3 && t[0] == '1' && '0' <= t[1] <= '2' && t[2] == '-' {
      p := ZeroPadded;
      assert FieldText(f.value, p) == [t[0], t[1]];
      assert t == [t[0], t[1]] + "-" + t[3..];
    } else if |t| >= 3 && t[0] == '0' && '1' <= t[1] <= '9' && t[2] == '-' {
      p := ZeroPadded;
      DigitCharOfValue(t[1]);
      assert FieldText(f.value, p) == [t[0], t[1]];
      assert t == [t[0], t[1]] + "-" + t[3..];
    } else {
      p := Unpadded;
      DigitCharOfValue(t[0]);
      assert FieldText(f.value, p) == [t[0]];
      assert t == [t[0]] + "-" + t[2..];
    }
  }

  /** What `%d` matched, when nothing is left over, is a day text. */
  lemma DaySpelling(t: string) returns (p: Padding)
    requires MatchDay(t).Some? && MatchDay(t).value.rest == []
    ensures t == FieldText(MatchDay(t).value.value, p)
  {
    var f := MatchDay(t).value;
    if |t| >= 2 && t[0] == '3' && '0' <= t[1] <= '1' {
      p := ZeroPadded;
      DigitCharOfValue(t[1]);
      assert t == [t[0], t[1]];
    } else if |t| >= 2 && '1' <= t[0] <= '2' && IsDigit(t[1]) {
      p := ZeroPadded;
      DigitCharOfValue(t[0]);
      DigitCharOfValue(t[1]);
      assert (10 * DigitValue(t[0]) + DigitValue(t[1])) / 10 == DigitValue(t[0]);
      assert t == [t[0], t[1]];
    } else if |t| >= 2 && t[0] == '0' && '1' <= t[1] <= '9' {
      p := ZeroPadded;
      DigitCharOfValue(t[1]);
      assert t == [t[0], t[1]];
    } else if |t| >= 1 && '1' <= t[0] <= '9' {
      p := Unpadded;
      DigitCharOfValue(t[0]);
      assert t == [t[0]];
    } else {
      p := SpacePadded;
      DigitCharOfValue(t[1]);
      assert t == [t[0], t[1]];
    }
  }

  /** strptime reads every spelling of a date in the format's field ranges: the date
      when `datetime` accepts it, the ValueError (None) when the day does not exist
      in that month or the year is 0000. */
  lemma ParseDateText(d: Date, monthPad: Padding, dayPad: Padding)
    requires 0 <= d.year < 10000 && 1 <= d.month <= 12 && 1 <= d.day <= 31
    requires monthPad != SpacePadded
    ensures ParseDate(DateText(d, monthPad, dayPad)) == if IsCalendarDate(d) then Some(d) else None
  {
    var dayText := FieldText(d.day, dayPad);
    var rest := "-" + FieldText(d.month, monthPad) + "-" + dayText;
    var s := DateText(d, monthPad, dayPad);
    assert s == YearText(d.year) + rest;
    DigitsOfYearText(d.year, rest);
    assert s[4] == '-';
    assert s[5..] == FieldText(d.month, monthPad) + "-" + dayText;
    MonthDashReads(d.month, monthPad, dayText);
    DayReads(d.day, dayPad);
  }

  /** Everything strptime accepts is one of those spellings of a calendar date. */
  lemma ParseDateSound(s: string) returns (monthPad: Padding, dayPad: Padding)
    requires ParseDate(s).Some?
    ensures IsCalendarDate(ParseDate(s).value)
    ensures monthPad != SpacePadded
    ensures s == DateText(ParseDate(s).value, monthPad, dayPad)
  {
    var d := ParseDate(s).value;
    var month := MatchMonthDash(s[5..]).value;
    monthPad := MonthDashSpelling(s[5..]);
    dayPad := DaySpelling(month.rest);
    YearTextOfDigits(s);
    assert s == s[..4] + "-" + s[5..];
  }

  /** `validate_date` holds exactly of the texts "Y-M-D" of calendar dates, with a
      four-digit year, a month written "07" or "7" and a day written "05", "5" or " 5",
      and nothing after the day. */
  lemma ValidateDateAccepts(s: string)
    ensures ValidateDate(s) <==>
      exists d: Date, mp: Padding, dp: Padding ::
        IsCalendarDate(d) && mp != SpacePadded && s == DateText(d, mp, dp)
  {
    if ValidateDate(s) {
      var mp, dp := ParseDateSound(s);
      var d := ParseDate(s).value;
      assert IsCalendarDate(d) && mp != SpacePadded && s == DateText(d, mp, dp);
    }
    if exists d: Date, mp: Padding, dp: Padding :: IsCalendarDate(d) && mp != SpacePadded && s == DateText(d, mp, dp) {
      var d: Date, mp: Padding, dp: Padding :|
        IsCalendarDate(d) && mp != SpacePadded && s == DateText(d, mp, dp);
      ParseDateText(d, mp, dp);
    }
  }

  /** The canonical text of a calendar date reads back as that date. */
  lemma IsoRoundTrip(d: Date)
    requires IsCalendarDate(d)
    ensures ParseDate(IsoText(d)) == Some(d)
  {
    ParseDateText(d, ZeroPadded, ZeroPadded);
  }

  /** February 29 is accepted exactly in leap years; a 31st of a 30-day month and
      the year 0000 never are. */
  lemma CalendarEdgeCases(y: int, m: int)
    requires MinYear <= y <= MaxYear && 1 <= m <= 12
    ensures ValidateDate(IsoText(Date(y, 2, 29))) <==> IsLeapYear(y)
    ensures (m == 4 || m == 6 || m == 9 || m == 11) ==> !ValidateDate(IsoText(Date(y, m, 31)))
    ensures !ValidateDate(IsoText(Date(0, m, 1)))
  {
    ParseDateText(Date(y, 2, 29), ZeroPadded, ZeroPadded);
    ParseDateText(Date(y, m, 31), ZeroPadded, ZeroPadded);
    ParseDateText(Date(0, m, 1), ZeroPadded, ZeroPadded);
  }
}
