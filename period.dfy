/** Calendar-month keys of the form "YYYY-MM" and the two neighbour
    functions `getPrevMonth` / `getNextMonth` (App.tsx:10-20). Both split the
    key at '-', turn the parts into numbers, let JavaScript's `Date` normalise
    `new Date(y, monthIndex, 1)` and print the result as
    `${year}-${month padded to two digits}`. */
module Period {
  import opened Wrappers
  import opened Decimal

  /** A year and a month number as read from a key; after a `Date`
      normalisation the month lies in 1..12. */
  datatype YearMonth = YearMonth(year: nat, month: nat)

  /** What the functions print when the key does not read as two numbers:
      an invalid `Date` prints NaN for both the year and the month. */
  const InvalidPeriod: string := "NaN-NaN"

  /** The two parts `split('-')` destructures: the text before the first
      '-' and the text between it and the next '-'. None when there is no
      '-' at all (the split has one part, so `m` is `undefined`, which
      `Date` turns into NaN) or when a part is not a string of digits. */
  function Parse(s: string): (p: Option<YearMonth>)
    ensures p.Some? ==> IndexOf(s, '-') < |s|
  {
    var i := IndexOf(s, '-');
    if i == |s| then None
    else
      var y := s[..i];
      var rest := s[i + 1..];
      var m := rest[..IndexOf(rest, '-')];
      if AllDigits(y) && AllDigits(m) then Some(YearMonth(DigitsValue(y), DigitsValue(m)))
      else None
  }

  /** `padStart(2, '0')`. */
  function PadTwo(s: string): (r: string)
    ensures |s| >= 2 ==> r == s
    ensures |s| < 2 ==> |r| == 2 && r[2 - |s|..] == s
    ensures forall j | 0 <= j < 2 - |s| :: r[j] == '0'
  {
    if |s| >= 2 then s else seq(2 - |s|, _ => '0') + s
  }

  /** `${year}-${String(month).padStart(2, '0')}` for a normalised month. */
  function Format(p: YearMonth): (s: string)
    requires 1 <= p.month <= 12
    ensures Parse(s) == Some(p)
    ensures MonthHasTwoDigits(s)
  {
    var ys := NatToString(p.year);
    var ms := PadTwo(NatToString(p.month));
    PaddedMonth(p.month);
    ParseJoined(ys, ms);
    ys + "-" + ms
  }

  /** A month in 1..12, padded, is two digits that read back as the month. */
  lemma PaddedMonth(m: nat)
    requires 1 <= m <= 12
    ensures var ms := PadTwo(NatToString(m));
      |ms| == 2 && AllDigits(ms) && DigitsValue(ms) == m
  {
    var ms := PadTwo(NatToString(m));
    if m < 10 {
      assert ms == ['0', DigitChar(m)];
      assert ms[..1] == ['0'];
    }
  }

  /** Two digit strings joined by '-' read back as their two values. */
  lemma ParseJoined(ys: string, ms: string)
    requires AllDigits(ys) && AllDigits(ms)
    ensures Parse(ys + "-" + ms) == Some(YearMonth(DigitsValue(ys), DigitsValue(ms)))
  {
    assert ys + "-" + ms == ys + "-" + ms + [];
    ParseSplit(ys, ms, []);
  }

  predicate NoDash(t: string) {
    forall j | 0 <= j < |t| :: t[j] != '-'
  }

  /** How `split('-')` followed by `[y, m]` reads a key: the year is the
      text before the first '-', the month the text from there to the next
      '-' or the end, and anything after is ignored. The key reads as the
      two numbers exactly when both parts are digit strings. */
  lemma ParseSplit(ys: string, ms: string, rest: string)
    requires NoDash(ys) && NoDash(ms)
    requires rest == [] || rest[0] == '-'
    ensures Parse(ys + "-" + ms + rest) ==
      if AllDigits(ys) && AllDigits(ms) then Some(YearMonth(DigitsValue(ys), DigitsValue(ms))) else None
  {
    var s := ys + "-" + ms + rest;
    assert s == ys + ['-'] + (ms + rest);
    IndexOfAfter(ys, '-', ms + rest);
    assert s[..|ys|] == ys;
    assert s[|ys| + 1..] == ms + rest;
    if rest == [] {
      assert ms + rest == ms;
      assert IndexOf(ms, '-') == |ms|;
    } else {
      assert ms + rest == ms + ['-'] + rest[1..];
      IndexOfAfter(ms, '-', rest[1..]);
    }
    assert (ms + rest)[..|ms|] == ms;
  }

  /** A key without any '-' does not read: the split has one part, so `m`
      is `undefined`, and `Date` turns it into NaN. */
  lemma ParseNoDash(s: string)
    requires NoDash(s)
    ensures Parse(s) == None
  {
    assert IndexOf(s, '-') == |s|;
  }

  /** The key ends in '-' and exactly two digits. */
  predicate MonthHasTwoDigits(s: string) {
    |s| >= 3 && s[|s| - 3] == '-' && IsDigit(s[|s| - 2]) && IsDigit(s[|s| - 1])
  }

  /** `new Date(y, ...)` reads a year 0..99 as 1900..1999. */
  function DateYear(y: nat): (r: nat)
    ensures r >= 100
    ensures y >= 100 ==> r == y
  {
    if y <= 99 then 1900 + y else y
  }

  /** The month `new Date(y, monthIndex, 1)` lands on, where monthIndex is
      zero-based and may lie outside 0..11: the same count of months since
      year 0, written with a month in 1..12. */
  function DateMonth(y: nat, monthIndex: int): (p: YearMonth)
    requires monthIndex >= -12
    ensures 1 <= p.month <= 12
    ensures p.year * 12 + (p.month - 1) == DateYear(y) * 12 + monthIndex
  {
    var t := DateYear(y) * 12 + monthIndex;
    YearMonth(t / 12, t % 12 + 1)
  }

  /** getPrevMonth (App.tsx:10-14). */
  function PrevMonth(s: string): (r: string)
    ensures Parse(s).None? ==> r == InvalidPeriod
    ensures Parse(s).Some? ==>
      Parse(r) == Some(DateMonth(Parse(s).value.year, Parse(s).value.month - 2)) && MonthHasTwoDigits(r)
  {
    match Parse(s)
    case None => InvalidPeriod
    case Some(p) => Format(DateMonth(p.year, p.month - 2))
  }

  /** getNextMonth (App.tsx:16-20). */
  function NextMonth(s: string): (r: string)
    ensures Parse(s).None? ==> r == InvalidPeriod
    ensures Parse(s).Some? ==>
      Parse(r) == Some(DateMonth(Parse(s).value.year, Parse(s).value.month)) && MonthHasTwoDigits(r)
  {
    match Parse(s)
    case None => InvalidPeriod
    case Some(p) => Format(DateMonth(p.year, p.month))
  }

  /** A month of the calendar, from a year at which `Date` reads years
      literally. */
  predicate Calendar(p: YearMonth) {
    p.year >= 100 && 1 <= p.month <= 12
  }

  /** The calendar's own notion of the previous month. */
  function CalendarPrev(p: YearMonth): YearMonth
    requires Calendar(p)
  {
    if p.month == 1 then YearMonth(p.year - 1, 12) else YearMonth(p.year, p.month - 1)
  }

  /** The calendar's own notion of the next month. */
  function CalendarNext(p: YearMonth): YearMonth
    requires Calendar(p)
  {
    if p.month == 12 then YearMonth(p.year + 1, 1) else YearMonth(p.year, p.month + 1)
  }

  /** The `Date` normalisation moves one calendar month back and forth,
      wrapping December and January across the year boundary. */
  lemma DateShiftIsCalendarShift(p: YearMonth)
    requires Calendar(p)
    ensures DateMonth(p.year, p.month - 2) == CalendarPrev(p)
    ensures DateMonth(p.year, p.month) == CalendarNext(p)
  {
  }

  /** On a canonical key, getPrevMonth prints the calendar's previous month. */
  lemma PrevOfFormat(p: YearMonth)
    requires Calendar(p)
    ensures PrevMonth(Format(p)) == Format(CalendarPrev(p))
  {
    DateShiftIsCalendarShift(p);
    var s := Format(p);
    assert Parse(s) == Some(p);
    var q := DateMonth(p.year, p.month - 2);
    assert PrevMonth(s) == Format(q);
  }

  /** On a canonical key, getNextMonth prints the calendar's next month. */
  lemma NextOfFormat(p: YearMonth)
    requires Calendar(p)
    ensures NextMonth(Format(p)) == Format(CalendarNext(p))
  {
    DateShiftIsCalendarShift(p);
    var s := Format(p);
    assert Parse(s) == Some(p);
    var q := DateMonth(p.year, p.month);
    assert NextMonth(s) == Format(q);
  }

  /** From year 101 up, the next month of a key's previous month is the key. */
  lemma NextAfterPrev(p: YearMonth)
    requires Calendar(p) && p.year >= 101
    ensures NextMonth(PrevMonth(Format(p))) == Format(p)
  {
    PrevOfFormat(p);
    var q := CalendarPrev(p);
    NextOfFormat(q);
    assert CalendarNext(q) == p;
  }

  /** The previous month of a key's next month is the key. */
  lemma PrevAfterNext(p: YearMonth)
    requires Calendar(p)
    ensures PrevMonth(NextMonth(Format(p))) == Format(p)
  {
    NextOfFormat(p);
    var n := CalendarNext(p);
    PrevOfFormat(n);
    assert CalendarPrev(n) == p;
  }

  /** On a canonical key, the previous month of the next month and the next
      month of the previous month are the key itself. */
  lemma PrevNextRoundTrip(p: YearMonth)
    requires Calendar(p) && p.year >= 101
    ensures NextMonth(PrevMonth(Format(p))) == Format(p)
    ensures PrevMonth(NextMonth(Format(p))) == Format(p)
  {
    NextAfterPrev(p);
    PrevAfterNext(p);
  }

  /** Stepping forward never returns to the same key, except from the
      invalid key, which maps to itself. */
  lemma NextMonthMovesOn(s: string)
    requires s != InvalidPeriod
    ensures NextMonth(s) != s
  {
    if Parse(s).Some? {
      var p := Parse(s).value;
      var n := DateMonth(p.year, p.month);
      assert Parse(NextMonth(s)) == Some(n);
    }
  }

  /** From a canonical key, the month after next is neither the key nor its
      next month. */
  lemma MonthAfterNextIsNew(p: YearMonth)
    requires Calendar(p)
    ensures NextMonth(NextMonth(Format(p))) != Format(p)
    ensures NextMonth(NextMonth(Format(p))) != NextMonth(Format(p))
  {
    DateShiftIsCalendarShift(p);
    var n := CalendarNext(p);
    DateShiftIsCalendarShift(n);
    var nn := CalendarNext(n);
    assert Parse(NextMonth(NextMonth(Format(p)))) == Some(nn);
    assert nn != p;
    assert nn != n;
  }

  /** The text of a key, spelled out. */
  lemma FormatText(p: YearMonth)
    requires 1 <= p.month <= 12
    ensures Format(p) == NatToString(p.year) + "-" + PadTwo(NatToString(p.month))
  {
  }

  lemma FormatJanuary2024()
    ensures Format(YearMonth(2024, 1)) == "2024-01"
  {
    FormatText(YearMonth(2024, 1));
    NatToStringFourDigits(2024);
    assert PadTwo(NatToString(1)) == "01";
  }

  lemma FormatDecember2023()
    ensures Format(YearMonth(2023, 12)) == "2023-12"
  {
    FormatText(YearMonth(2023, 12));
    NatToStringFourDigits(2023);
    NatToStringTwoDigits(12);
  }

  lemma PrevMonthOfJanuary()
    ensures PrevMonth("2024-01") == "2023-12"
  {
    FormatJanuary2024();
    FormatDecember2023();
    PrevOfFormat(YearMonth(2024, 1));
  }

  lemma NextMonthOfDecember()
    ensures NextMonth("2023-12") == "2024-01"
  {
    FormatJanuary2024();
    FormatDecember2023();
    NextOfFormat(YearMonth(2023, 12));
  }

  lemma ParseYearHundred()
    ensures Parse("0100-01") == Some(YearMonth(100, 1))
  {
    assert AllDigits("0100") && AllDigits("01");
    ParseJoined("0100", "01");
    assert "0100-01" == "0100" + "-" + "01";
    assert DigitsValue("0") == 0 by { assert "0"[..0] == []; }
    assert DigitsValue("01") == 1 by { assert "01"[..1] == "0"; }
    assert DigitsValue("010") == 10 by { assert "010"[..2] == "01"; }
    assert DigitsValue("0100") == 100 by { assert "0100"[..3] == "010"; }
  }

  lemma FormatDecember99()
    ensures Format(YearMonth(99, 12)) == "99-12"
  {
    FormatText(YearMonth(99, 12));
    NatToStringTwoDigits(99);
    NatToStringTwoDigits(12);
  }

  lemma FormatJanuary2000()
    ensures Format(YearMonth(2000, 1)) == "2000-01"
  {
    FormatText(YearMonth(2000, 1));
    NatToStringFourDigits(2000);
    assert PadTwo(NatToString(1)) == "01";
  }

  lemma ParseNinetyNine()
    ensures Parse("99-12") == Some(YearMonth(99, 12))
  {
    assert DigitsValue("99") == 99 by { assert "99"[..1] == "9"; }
    assert DigitsValue("12") == 12 by { assert "12"[..1] == "1"; }
    ParseJoined("99", "12");
    assert "99-12" == "99" + "-" + "12";
  }

  lemma PrevMonthOfHundred()
    ensures PrevMonth("0100-01") == "99-12"
  {
    ParseYearHundred();
    assert DateMonth(100, -1) == YearMonth(99, 12);
    FormatDecember99();
  }

  lemma NextMonthOfNinetyNine()
    ensures NextMonth("99-12") == "2000-01"
  {
    ParseNinetyNine();
    assert DateMonth(99, 12) == YearMonth(2000, 1);
    FormatJanuary2000();
  }

  /** Below year 101 the round trip fails: the previous month of "0100-01"
      is "99-12", which `Date` then reads as 1999. */
  lemma TwoDigitYearBreaksRoundTrip()
    ensures PrevMonth("0100-01") == "99-12"
    ensures NextMonth("99-12") == "2000-01"
  {
    PrevMonthOfHundred();
    NextMonthOfNinetyNine();
  }
}
