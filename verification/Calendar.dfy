/**
 Whole seconds of an RFC 3339 instant (section 5.6 of RFC 3339), by the era and day-of-era formula,
 against counting days one at a time through the Gregorian calendar.
 */
module Calendar {
  import opened Wrappers

  // ----- the calendar, counted naively

  predicate IsLeap(y: nat) {
    y % 4 == 0 && (y % 100 != 0 || y % 400 == 0)
  }

  function DaysInMonth(y: nat, m: nat): nat {
    if m == 2 then (if IsLeap(y) then 29 else 28)
    else if m == 4 || m == 6 || m == 9 || m == 11 then 30
    else 31
  }

  function DaysInYear(y: nat): nat {
    if IsLeap(y) then 366 else 365
  }

  function DaysBeforeYear(y: nat): nat {
    if y == 0 then 0 else DaysBeforeYear(y - 1) + DaysInYear(y - 1)
  }

  function DaysBeforeMonth(y: nat, m: nat): nat
    requires 1 <= m <= 12
  {
    if m == 1 then 0 else DaysBeforeMonth(y, m - 1) + DaysInMonth(y, m - 1)
  }

  /** Days since the first of January of year zero, every earlier year and month added up. */
  function NaiveDays(y: nat, m: nat, d: int): int
    requires 1 <= m <= 12
  {
    DaysBeforeYear(y) + DaysBeforeMonth(y, m) + d - 1
  }

  /** The naive count of 1970-01-01; `EpochIsZero` shows it is. */
  const EPOCH_DAYS := 719_528

  datatype Date = Date(year: nat, month: nat, day: nat) {
    predicate Valid() {
      1 <= month <= 12 && 1 <= day <= DaysInMonth(year, month)
    }
  }

  const EPOCH := Date(1970, 1, 1)
  const ORIGIN := Date(0, 1, 1)

  function Tomorrow(date: Date): (next: Date)
    requires date.Valid()
    ensures next.Valid()
  {
    if date.day < DaysInMonth(date.year, date.month) then date.(day := date.day + 1)
    else if date.month < 12 then Date(date.year, date.month + 1, 1)
    else Date(date.year + 1, 1, 1)
  }

  // ----- the formula the host uses

  function CivilDays(year: int, month: int, day: int): int {
    var shifted := if month <= 2 then year - 1 else year;
    var era := shifted / 400;
    var yearOfEra := shifted - era * 400;
    var monthIndex := (month + 9) % 12;
    var dayOfYear := (153 * monthIndex + 2) / 5 + day - 1;
    var dayOfEra := yearOfEra * 365 + yearOfEra / 4 - yearOfEra / 100 + dayOfYear;
    era * 146_097 + dayOfEra - 719_468
  }

  lemma {:induction false} YearsInClosedForm(y: nat)
    ensures DaysBeforeYear(y) == 365 * y + (y + 3) / 4 - (y + 99) / 100 + (y + 399) / 400
  {
    if y > 0 {
      YearsInClosedForm(y - 1);
      LeapStep(y - 1);
    }
  }

  /** One more year adds a leap day exactly when it is a leap year. */
  lemma LeapStep(y: nat)
    ensures (y + 4) / 4 - (y + 3) / 4 == if y % 4 == 0 then 1 else 0
    ensures (y + 100) / 100 - (y + 99) / 100 == if y % 100 == 0 then 1 else 0
    ensures (y + 400) / 400 - (y + 399) / 400 == if y % 400 == 0 then 1 else 0
    ensures y % 400 == 0 ==> y % 100 == 0
    ensures y % 100 == 0 ==> y % 4 == 0
  {
    StepOf4(y);
    StepOf100(y);
    StepOf400(y);
    Multiples(y);
  }

  lemma StepOf4(y: nat)
    ensures (y + 4) / 4 - (y + 3) / 4 == if y % 4 == 0 then 1 else 0
  {
  }

  lemma StepOf100(y: nat)
    ensures (y + 100) / 100 - (y + 99) / 100 == if y % 100 == 0 then 1 else 0
  {
  }

  lemma StepOf400(y: nat)
    ensures (y + 400) / 400 - (y + 399) / 400 == if y % 400 == 0 then 1 else 0
  {
  }

  lemma Multiples(y: nat)
    ensures y % 400 == 0 ==> y % 100 == 0
    ensures y % 100 == 0 ==> y % 4 == 0
  {
    assert y % 400 == 0 ==> y == 100 * (y / 400 * 4);
    assert y % 100 == 0 ==> y == 4 * (y / 100 * 25);
  }

  /** Splitting years into eras of four hundred counts the same leap days. */
  lemma EraArithmetic(shifted: int)
    requires shifted >= -1
    ensures var era := shifted / 400;
            var yearOfEra := shifted - era * 400;
            era * 146_097 + yearOfEra * 365 + yearOfEra / 4 - yearOfEra / 100 ==
            365 * shifted + shifted / 4 - shifted / 100 + shifted / 400
  {
    var era := shifted / 400;
    var yearOfEra := shifted - era * 400;
    assert shifted == era * 400 + yearOfEra && 0 <= yearOfEra < 400;
    assert shifted / 4 == era * 100 + yearOfEra / 4;
    assert shifted / 100 == era * 4 + yearOfEra / 100;
  }

  /** Months counted from March: their lengths follow one linear rule. */
  lemma MonthTable(y: nat, m: nat)
    requires 1 <= m <= 12
    ensures (153 * ((m + 9) % 12) + 2) / 5 ==
            if m <= 2 then DaysBeforeMonth(y, m) + 306
            else DaysBeforeMonth(y, m) - 59 - (if IsLeap(y) then 1 else 0)
  {
    assert DaysBeforeMonth(y, 2) == 31;
    assert DaysBeforeMonth(y, 3) == 31 + DaysInMonth(y, 2);
    assert DaysBeforeMonth(y, 4) == DaysBeforeMonth(y, 3) + 31;
    assert DaysBeforeMonth(y, 5) == DaysBeforeMonth(y, 4) + 30;
    assert DaysBeforeMonth(y, 6) == DaysBeforeMonth(y, 5) + 31;
    assert DaysBeforeMonth(y, 7) == DaysBeforeMonth(y, 6) + 30;
    assert DaysBeforeMonth(y, 8) == DaysBeforeMonth(y, 7) + 31;
    assert DaysBeforeMonth(y, 9) == DaysBeforeMonth(y, 8) + 31;
    assert DaysBeforeMonth(y, 10) == DaysBeforeMonth(y, 9) + 30;
    assert DaysBeforeMonth(y, 11) == DaysBeforeMonth(y, 10) + 31;
    assert DaysBeforeMonth(y, 12) == DaysBeforeMonth(y, 11) + 30;
  }

  /** How the leap days up to a year compare with those before it. */
  lemma LeapCounts(y: nat)
    ensures y / 4 - y / 100 + y / 400 + 1 ==
            (y + 3) / 4 - (y + 99) / 100 + (y + 399) / 400 + (if IsLeap(y) then 1 else 0)
  {
    LeapStep(y);
    assert (y + 4) / 4 == y / 4 + 1 && (y + 100) / 100 == y / 100 + 1 && (y + 400) / 400 == y / 400 + 1;
  }

  lemma YearsBeforeJanuary(y: nat)
    ensures (y - 1) / 4 - (y - 1) / 100 + (y - 1) / 400 + 1 == (y + 3) / 4 - (y + 99) / 100 + (y + 399) / 400
  {
    assert (y + 3) / 4 == (y - 1) / 4 + 1;
    assert (y + 99) / 100 == (y - 1) / 100 + 1;
    assert (y + 399) / 400 == (y - 1) / 400 + 1;
  }

  /** The formula is the naive day count, for every year, month and day number. */
  lemma CivilDaysIsNaive(y: nat, m: nat, d: int)
    requires 1 <= m <= 12
    ensures CivilDays(y, m, d) == NaiveDays(y, m, d) - EPOCH_DAYS
  {
    YearsInClosedForm(y);
    MonthTable(y, m);
    if m <= 2 {
      EraArithmetic(y - 1);
      YearsBeforeJanuary(y);
    } else {
      EraArithmetic(y);
      LeapCounts(y);
    }
  }

  lemma EpochIsZero()
    ensures CivilDays(EPOCH.year, EPOCH.month, EPOCH.day) == 0
    ensures NaiveDays(EPOCH.year, EPOCH.month, EPOCH.day) == EPOCH_DAYS
  {
    CivilDaysIsNaive(EPOCH.year, EPOCH.month, EPOCH.day);
  }

  /** Each calendar day is one more than the day before it, across months, leap years and centuries. */
  lemma TomorrowIsOneMore(date: Date)
    requires date.Valid()
    ensures var next := Tomorrow(date);
            CivilDays(next.year, next.month, next.day) == CivilDays(date.year, date.month, date.day) + 1
  {
    var next := Tomorrow(date);
    CivilDaysIsNaive(date.year, date.month, date.day);
    CivilDaysIsNaive(next.year, next.month, next.day);
    TomorrowNaively(date);
  }

  lemma TomorrowNaively(date: Date)
    requires date.Valid()
    ensures var next := Tomorrow(date);
            NaiveDays(next.year, next.month, next.day) == NaiveDays(date.year, date.month, date.day) + 1
  {
    WholeYear(date.year);
  }

  lemma WholeYear(y: nat)
    ensures DaysBeforeMonth(y, 12) + 31 == DaysInYear(y)
  {
    MonthTable(y, 12);
  }

  // ----- instants

  datatype Fields = Fields(year: nat, month: nat, day: nat, hour: nat, minute: nat, second: nat, offset: int)

  function Seconds(f: Fields): int {
    CivilDays(f.year, f.month, f.day) * 86_400 + f.hour * 3600 + f.minute * 60 + f.second - f.offset
  }

  function DaysLater(date: Date, n: nat): (later: Date)
    requires date.Valid()
    ensures later.Valid()
  {
    if n == 0 then date else Tomorrow(DaysLater(date, n - 1))
  }

  lemma {:induction false} DaysLaterCounts(date: Date, n: nat)
    requires date.Valid()
    ensures var later := DaysLater(date, n);
            CivilDays(later.year, later.month, later.day) == CivilDays(date.year, date.month, date.day) + n
  {
    if n > 0 {
      DaysLaterCounts(date, n - 1);
      TomorrowIsOneMore(DaysLater(date, n - 1));
    }
  }

  /** The date `n` days after the epoch, or before it. */
  function DateOf(n: int): (date: Date)
    requires n + EPOCH_DAYS >= 0
    ensures date.Valid()
  {
    DaysLater(ORIGIN, n + EPOCH_DAYS)
  }

  lemma DateOfCounts(n: int)
    requires n + EPOCH_DAYS >= 0
    ensures CivilDays(DateOf(n).year, DateOf(n).month, DateOf(n).day) == n
  {
    DaysLaterCounts(ORIGIN, n + EPOCH_DAYS);
    OriginDays();
  }

  lemma OriginDays()
    ensures CivilDays(ORIGIN.year, ORIGIN.month, ORIGIN.day) == -EPOCH_DAYS
  {
  }

  /** The instant `t` seconds after the epoch, as a clock at `offset` shows it. */
  function Spelled(t: int, offset: int): Fields
    requires (t + offset) / 86_400 + EPOCH_DAYS >= 0
  {
    var shown := t + offset;
    var date := DateOf(shown / 86_400);
    Fields(date.year, date.month, date.day, shown % 86_400 / 3600, shown % 3600 / 60, shown % 60, offset)
  }

  /** Every spelling of an instant, at any offset, gives that instant's seconds. */
  lemma SpellingsAgree(t: int, offset: int)
    requires (t + offset) / 86_400 + EPOCH_DAYS >= 0
    ensures Seconds(Spelled(t, offset)) == t
  {
    DateOfCounts((t + offset) / 86_400);
    ClockSplits(t + offset);
  }

  lemma ClockSplits(shown: int)
    ensures shown == shown / 86_400 * 86_400 + shown % 86_400 / 3600 * 3600 + shown % 3600 / 60 * 60 + shown % 60
    ensures shown % 86_400 / 3600 <= 23 && shown % 3600 / 60 <= 59
  {
    var clock := shown % 86_400;
    assert clock % 3600 == shown % 3600 by {
      assert shown == shown / 86_400 * 24 * 3600 + clock;
    }
    assert shown % 3600 % 60 == shown % 60 by {
      assert shown == shown / 3600 * 60 * 60 + shown % 3600;
    }
  }

  // ----- text

  predicate IsDigit(c: char) {
    '0' <= c <= '9'
  }

  function DigitValue(c: char): nat
    requires IsDigit(c)
  {
    c as int - '0' as int
  }

  function Number(s: string): Option<nat> {
    if s == "" || !IsDigit(s[|s| - 1]) then None
    else if |s| == 1 then Some(DigitValue(s[0]))
    else
      var front := Number(s[..|s| - 1]);
      if front.None? then None else Some(front.value * 10 + DigitValue(s[|s| - 1]))
  }

  function CountDigits(s: string, i: nat): (n: nat)
    requires i <= |s|
    ensures i + n <= |s|
    decreases |s| - i
  {
    if i < |s| && IsDigit(s[i]) then 1 + CountDigits(s, i + 1) else 0
  }

  function OffsetOf(s: string): Option<int> {
    if s == "Z" || s == "z" then Some(0)
    else if |s| == 6 && (s[0] == '+' || s[0] == '-') && s[3] == ':' then
      var hours, minutes := Number(s[1..3]), Number(s[4..6]);
      if hours.None? || minutes.None? then None
      else
        var magnitude := hours.value * 3600 + minutes.value * 60;
        Some(if s[0] == '+' then magnitude else -magnitude)
    else None
  }

  function ParseFields(v: string): Option<Fields> {
    if |v| < 20 || v[4] != '-' || v[7] != '-' || !(v[10] == 'T' || v[10] == 't')
       || v[13] != ':' || v[16] != ':' then None
    else
      var year, month, day := Number(v[0..4]), Number(v[5..7]), Number(v[8..10]);
      var hour, minute, second := Number(v[11..13]), Number(v[14..16]), Number(v[17..19]);
      if year.None? || month.None? || day.None? || hour.None? || minute.None? || second.None? then None
      else if !(1 <= month.value <= 12) || !(1 <= day.value <= 31)
              || hour.value > 23 || minute.value > 59 || second.value > 60 then None
      else if v[19] == '.' && CountDigits(v, 20) == 0 then None
      else
        var rest := if v[19] == '.' then 20 + CountDigits(v, 20) else 19;
        var offset := OffsetOf(v[rest..]);
        if offset.None? then None
        else Some(Fields(year.value, month.value, day.value, hour.value, minute.value, second.value, offset.value))
  }

  /** Whole seconds of an instant, or nothing for other text and for instants before the epoch. */
  function Rfc3339Seconds(v: string): Option<nat> {
    var fields := ParseFields(v);
    if fields.None? || Seconds(fields.value) < 0 then None else Some(Seconds(fields.value))
  }

  // ----- writing an instant, and reading it back

  function Digit(n: nat): (c: char)
    requires n < 10
    ensures IsDigit(c) && DigitValue(c) == n
  {
    '0' + n as char
  }

  function Tens(n: nat): char
    requires n < 100
  {
    Digit(n / 10)
  }

  function Ones(n: nat): char {
    Digit(n % 10)
  }

  function TwoDigits(n: nat): string
    requires n < 100
  {
    [Tens(n), Ones(n)]
  }

  /** The fields an instant can show, whatever its offset. */
  predicate Shown(f: Fields) {
    && f.year <= 9999 && 1 <= f.month <= 12 && 1 <= f.day <= 31
    && f.hour <= 23 && f.minute <= 59 && f.second <= 60
  }

  predicate Writable(f: Fields) {
    Shown(f) && -360_000 < f.offset < 360_000 && f.offset % 60 == 0
  }

  /** Date and time of day, with `mark` between them. */
  function WrittenClock(f: Fields, mark: char): (s: string)
    requires Shown(f)
    ensures |s| == 19
  {
    [Tens(f.year / 100), Ones(f.year / 100), Tens(f.year % 100), Ones(f.year % 100), '-',
     Tens(f.month), Ones(f.month), '-', Tens(f.day), Ones(f.day), mark,
     Tens(f.hour), Ones(f.hour), ':', Tens(f.minute), Ones(f.minute), ':', Tens(f.second), Ones(f.second)]
  }

  function WrittenOffset(offset: int): (s: string)
    requires -360_000 < offset < 360_000
  {
    if offset == 0 then "Z"
    else
      var magnitude := if offset < 0 then -offset else offset;
      (if offset < 0 then "-" else "+") + TwoDigits(magnitude / 3600) + ":" + TwoDigits(magnitude % 3600 / 60)
  }

  function WrittenFraction(fraction: string): string {
    if fraction == "" then "" else "." + fraction
  }

  /** An instant with a mark, a fraction and a zone of the writer's choosing. */
  function Spelling(f: Fields, mark: char, fraction: string, zone: string): string
    requires Shown(f)
  {
    WrittenClock(f, mark) + WrittenFraction(fraction) + zone
  }

  function Written(f: Fields, fraction: string): string
    requires Writable(f)
  {
    Spelling(f, 'T', fraction, WrittenOffset(f.offset))
  }

  predicate AllDigits(s: string) {
    forall k | 0 <= k < |s| :: IsDigit(s[k])
  }

  /** What may follow the seconds: a zone that says this offset. */
  predicate IsZone(zone: string, offset: int) {
    || ((zone == "Z" || zone == "z") && offset == 0)
    || (&& |zone| == 6 && zone[0] in "+-" && zone[3] == ':' && AllDigits(zone[1..3]) && AllDigits(zone[4..6])
        && var magnitude := Pair(zone[1..3]) * 3600 + Pair(zone[4..6]) * 60;
           offset == if zone[0] == '+' then magnitude else -magnitude)
  }

  function Pair(s: string): nat
    requires |s| == 2 && AllDigits(s)
  {
    10 * DigitValue(s[0]) + DigitValue(s[1])
  }

  lemma NumberOfTwo(n: nat)
    requires n < 100
    ensures Number(TwoDigits(n)) == Some(n)
  {
    var s := TwoDigits(n);
    assert s[..1] == [Digit(n / 10)];
    assert Number(s[..1]) == Some(n / 10);
  }

  lemma NumberOfFour(n: nat)
    requires n < 10_000
    ensures Number(TwoDigits(n / 100) + TwoDigits(n % 100)) == Some(n)
  {
    var s := TwoDigits(n / 100) + TwoDigits(n % 100);
    NumberOfTwo(n / 100);
    assert s[..3][..2] == TwoDigits(n / 100);
    assert s[..3][2] == Digit(n % 100 / 10);
    assert Number(s[..3]) == Some(n / 100 * 10 + n % 100 / 10);
    assert s[3] == Digit(n % 100 % 10);
  }

  lemma NumberOfPair(s: string)
    requires |s| == 2
    ensures Number(s) == if AllDigits(s) then Some(Pair(s)) else None
  {
    assert s[..1] == [s[0]];
  }

  lemma PairOfTwo(n: nat)
    requires n < 100
    ensures AllDigits(TwoDigits(n)) && Pair(TwoDigits(n)) == n
  {
  }

  lemma TwoOfPair(s: string)
    requires |s| == 2 && AllDigits(s)
    ensures Pair(s) < 100 && s == TwoDigits(Pair(s))
  {
    var n := Pair(s);
    assert n / 10 == DigitValue(s[0]) && n % 10 == DigitValue(s[1]);
    assert Tens(n) == s[0] && Ones(n) == s[1];
  }

  lemma OffsetOfZone(zone: string, offset: int)
    ensures OffsetOf(zone) == Some(offset) <==> IsZone(zone, offset)
  {
    if |zone| == 6 {
      NumberOfPair(zone[1..3]);
      NumberOfPair(zone[4..6]);
    }
  }

  lemma WrittenOffsetIsZone(offset: int)
    requires -360_000 < offset < 360_000 && offset % 60 == 0
    ensures IsZone(WrittenOffset(offset), offset)
  {
    if offset != 0 {
      var magnitude := if offset < 0 then -offset else offset;
      var s := WrittenOffset(offset);
      PairOfTwo(magnitude / 3600);
      PairOfTwo(magnitude % 3600 / 60);
      assert s[1..3] == TwoDigits(magnitude / 3600);
      assert s[4..6] == TwoDigits(magnitude % 3600 / 60);
      assert magnitude % 60 == 0;
      assert magnitude % 3600 / 60 * 60 == magnitude % 3600;
    }
  }

  /** Digits followed by something else are counted exactly. */
  lemma {:induction false} CountOfDigits(s: string, i: nat, n: nat)
    requires i + n < |s| && !IsDigit(s[i + n])
    requires forall k | i <= k < i + n :: IsDigit(s[k])
    ensures CountDigits(s, i) == n
    decreases n
  {
    if n > 0 {
      CountOfDigits(s, i + 1, n - 1);
    }
  }

  lemma Pieces(a: string, b: string, c: string)
    ensures var v := a + b + c; v[..|a|] == a && v[|a| + |b|..] == c
    ensures forall k | 0 <= k < |b| :: (a + b + c)[|a| + k] == b[k]
  {
  }

  /** Where the zone begins: the fraction is skipped, whatever its length. */
  lemma RestOfSpelling(f: Fields, mark: char, fraction: string, zone: string)
    requires Shown(f) && AllDigits(fraction) && IsZone(zone, f.offset)
    ensures var v := Spelling(f, mark, fraction, zone);
            && |v| >= 20 && v[..19] == WrittenClock(f, mark)
            && (v[19] == '.' <==> fraction != "")
            && (fraction != "" ==> CountDigits(v, 20) == |fraction|)
            && v[19 + |WrittenFraction(fraction)|..] == zone
  {
    var v := Spelling(f, mark, fraction, zone);
    Pieces(WrittenClock(f, mark), WrittenFraction(fraction), zone);
    assert !IsDigit(zone[0]) && zone[0] != '.';
    if fraction != "" {
      assert forall k | 20 <= k < 20 + |fraction| :: v[k] == fraction[k - 20];
      assert v[20 + |fraction|] == zone[0];
      CountOfDigits(v, 20, |fraction|);
    }
  }

  lemma ClockOfWritten(f: Fields, mark: char)
    requires Shown(f)
    ensures var v := WrittenClock(f, mark);
            && v[4] == '-' && v[7] == '-' && v[10] == mark && v[13] == ':' && v[16] == ':'
            && v[0..4] == TwoDigits(f.year / 100) + TwoDigits(f.year % 100)
            && v[5..7] == TwoDigits(f.month) && v[8..10] == TwoDigits(f.day)
            && v[11..13] == TwoDigits(f.hour) && v[14..16] == TwoDigits(f.minute) && v[17..19] == TwoDigits(f.second)
  {
    var v := WrittenClock(f, mark);
    assert v[0..4] == [v[0], v[1], v[2], v[3]];
    PairAt(v, 5);
    PairAt(v, 8);
    PairAt(v, 11);
    PairAt(v, 14);
    PairAt(v, 17);
  }

  lemma PairAt(v: string, i: nat)
    requires i + 2 <= |v|
    ensures v[i..i + 2] == [v[i], v[i + 1]]
  {
  }

  /** Every spelling is parsed, with either mark, any run of fraction digits and any zone. */
  lemma ParseOfSpelling(f: Fields, mark: char, fraction: string, zone: string)
    requires Shown(f) && (mark == 'T' || mark == 't') && AllDigits(fraction) && IsZone(zone, f.offset)
    ensures ParseFields(Spelling(f, mark, fraction, zone)) == Some(f)
  {
    var v := Spelling(f, mark, fraction, zone);
    RestOfSpelling(f, mark, fraction, zone);
    ClockOfWritten(f, mark);
    assert forall i, j | 0 <= i <= j <= 19 :: v[i..j] == v[..19][i..j];
    NumberOfFour(f.year);
    NumberOfTwo(f.month);
    NumberOfTwo(f.day);
    NumberOfTwo(f.hour);
    NumberOfTwo(f.minute);
    NumberOfTwo(f.second);
    OffsetOfZone(zone, f.offset);
  }

  lemma TwoOfNumber(s: string)
    requires |s| == 2 && Number(s).Some?
    ensures Number(s).value < 100 && s == TwoDigits(Number(s).value)
  {
    NumberOfPair(s);
    TwoOfPair(s);
  }

  lemma FourOfNumber(s: string)
    requires |s| == 4 && Number(s).Some?
    ensures var n := Number(s).value; n < 10_000 && s == TwoDigits(n / 100) + TwoDigits(n % 100)
  {
    assert s[..3][..2] == s[..2];
    TwoOfNumber(s[..2]);
    var high, n := Number(s[..2]).value, Number(s).value;
    assert n == (high * 10 + DigitValue(s[2])) * 10 + DigitValue(s[3]);
    TwoOfPair(s[2..]);
    assert n / 100 == high && n % 100 == Pair(s[2..]);
    assert s == s[..2] + s[2..];
  }

  lemma {:induction false} DigitsCounted(s: string, i: nat)
    requires i <= |s|
    ensures AllDigits(s[i..i + CountDigits(s, i)])
    decreases |s| - i
  {
    if i < |s| && IsDigit(s[i]) {
      DigitsCounted(s, i + 1);
      assert s[i..i + CountDigits(s, i)] == [s[i]] + s[i + 1..i + 1 + CountDigits(s, i + 1)];
    }
  }

  lemma ClockIsWritten(v: string)
    requires ParseFields(v).Some?
    ensures var f := ParseFields(v).value; Shown(f) && v[..19] == WrittenClock(f, v[10])
  {
    var f := ParseFields(v).value;
    FourOfNumber(v[0..4]);
    TwoOfNumber(v[5..7]);
    TwoOfNumber(v[8..10]);
    TwoOfNumber(v[11..13]);
    TwoOfNumber(v[14..16]);
    TwoOfNumber(v[17..19]);
    ClockOfWritten(f, v[10]);
  }

  lemma InThree(v: string, i: nat, j: nat)
    requires i <= j <= |v|
    ensures v == v[..i] + v[i..j] + v[j..]
  {
  }

  lemma FractionIsWritten(v: string, rest: nat)
    requires 19 < |v| && if v[19] == '.' then 20 < rest <= |v| else rest == 19
    ensures v[19..rest] == WrittenFraction(if v[19] == '.' then v[20..rest] else "")
  {
  }

  /** Nothing else is parsed: whatever parses is a spelling of the fields it parses to. */
  lemma ParsedIsSpelled(v: string) returns (fraction: string, zone: string)
    requires ParseFields(v).Some?
    ensures var f := ParseFields(v).value;
            && Shown(f) && (v[10] == 'T' || v[10] == 't') && AllDigits(fraction) && IsZone(zone, f.offset)
            && v == Spelling(f, v[10], fraction, zone)
  {
    var f := ParseFields(v).value;
    ClockIsWritten(v);
    var rest := if v[19] == '.' then 20 + CountDigits(v, 20) else 19;
    fraction, zone := if v[19] == '.' then v[20..rest] else "", v[rest..];
    DigitsCounted(v, 20);
    OffsetOfZone(zone, f.offset);
    InThree(v, 19, rest);
    FractionIsWritten(v, rest);
  }

  /** An instant written at any offset and precision reads as itself, or as nothing when it is before the epoch. */
  lemma EverySpellingIsRead(t: int, offset: int, fraction: string)
    requires (t + offset) / 86_400 + EPOCH_DAYS >= 0
    requires -360_000 < offset < 360_000 && offset % 60 == 0
    requires Spelled(t, offset).year <= 9999
    requires AllDigits(fraction)
    ensures Rfc3339Seconds(Written(Spelled(t, offset), fraction)) == if t >= 0 then Some(t) else None
  {
    ClockSplits(t + offset);
    WrittenOffsetIsZone(offset);
    ParseOfSpelling(Spelled(t, offset), 'T', fraction, WrittenOffset(offset));
    SpellingsAgree(t, offset);
  }
}
