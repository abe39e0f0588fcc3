/**
 Pickup slots: the backend's rule, the form's mirror of it, and the default slot.

 Instants are milliseconds from 1 January 1970 UTC.  The bakery keeps a fixed offset, so its
 wall clock is the instant shifted by OFFSET.
 */
module Pickup {
  import opened Options
  import opened Decimal
  import opened Calendar

  const MINUTE := 60_000
  const HOUR := 3_600_000
  const DAY := 86_400_000
  /** Seven hours, two hours and fourteen days. */
  const OFFSET := 25_200_000
  const LEAD := 7_200_000
  const ADVANCE := 1_209_600_000
  const OPEN_HOUR := 8
  const CLOSE_HOUR := 18

  /** Go's zero time, 1 January of year 1. */
  const ZERO_TIME := -62_135_596_800_000

  function HourOf(wall: int): nat {
    wall % DAY / HOUR
  }

  function MinuteOf(wall: int): nat {
    wall % DAY % HOUR / MINUTE
  }

  predicate Open(at: int) {
    OPEN_HOUR <= HourOf(at + OFFSET) < CLOSE_HOUR
  }

  function FloorMinute(at: int): int {
    at - at % MINUTE
  }

  /** The backend's ValidatePickupAt. */
  predicate ValidPickupAt(at: int, now: int) {
    at != ZERO_TIME && now + LEAD <= at <= now + ADVANCE && Open(at)
  }

  // ---------------------------------------------------------------------------------------
  // The form's text
  // ---------------------------------------------------------------------------------------

  function YearText(year: int): string {
    if year < 0 then "-" + Print(-year) else Print(year)
  }

  function Text(year: string, month: string, date: string, hour: string, minute: string): string {
    year + "-" + month + "-" + date + "T" + hour + ":" + minute
  }

  function DateText(c: Civil, hour: nat, minute: nat): string {
    Text(YearText(c.year), Pad2(c.month + 1), Pad2(c.date), Pad2(hour), Pad2(minute))
  }

  function FormatWall(wall: int): string {
    DateText(CivilOf(wall / DAY), HourOf(wall), MinuteOf(wall))
  }

  function FormatLocal(at: int): string {
    FormatWall(at + OFFSET)
  }

  predicate LocalPattern(s: string) {
    && |s| == 16
    && AllDigits(s[..4]) && s[4] == '-' && AllDigits(s[5..7]) && s[7] == '-' && AllDigits(s[8..10])
    && s[10] == 'T' && AllDigits(s[11..13]) && s[13] == ':' && AllDigits(s[14..])
  }

  /**
   Parsing `<text>:00+07:00` as an ECMAScript date-time string, or none for text that is not a
   date and time of day.  Midnight may be written as hour 24 of the day before.
   */
  function ParseLocal(s: string): Option<int> {
    if !LocalPattern(s) then None
    else
      var year, month, date := Read(s[..4]), Read(s[5..7]), Read(s[8..10]);
      var hour, minute := Read(s[11..13]), Read(s[14..]);
      if 1 <= month <= 12 && ValidCivil(Civil(year, month - 1, date)) && minute < 60
         && (hour < 24 || (hour == 24 && minute == 0))
      then Some(DayNumber(Civil(year, month - 1, date)) * DAY + hour * HOUR + minute * MINUTE - OFFSET)
      else None
  }

  /** The form's isPickupLocalValueValid. */
  predicate LocalValueValid(s: string, now: int) {
    match ParseLocal(s)
    case None => false
    case Some(at) =>
      !(at < now + LEAD || at > now + ADVANCE)
      && var hour := HourOf(at + OFFSET); hour >= OPEN_HOUR && hour < CLOSE_HOUR
  }

  // ---------------------------------------------------------------------------------------
  // Round trips
  // ---------------------------------------------------------------------------------------

  lemma TextParts(year: string, month: string, date: string, hour: string, minute: string)
    requires |year| == 4 && |month| == 2 && |date| == 2 && |hour| == 2 && |minute| == 2
    ensures var s := Text(year, month, date, hour, minute);
            && |s| == 16 && s[..4] == year && s[5..7] == month && s[8..10] == date
            && s[11..13] == hour && s[14..] == minute
            && s[4] == '-' && s[7] == '-' && s[10] == 'T' && s[13] == ':'
  {
  }

  lemma PartsMakeText(s: string)
    requires LocalPattern(s)
    ensures s == Text(s[..4], s[5..7], s[8..10], s[11..13], s[14..])
  {
    TextParts(s[..4], s[5..7], s[8..10], s[11..13], s[14..]);
    var t := Text(s[..4], s[5..7], s[8..10], s[11..13], s[14..]);
    forall i | 0 <= i < 16 ensures s[i] == t[i] {
      assert i < 4 ==> s[i] == s[..4][i] == t[..4][i];
      assert 5 <= i < 7 ==> s[i] == s[5..7][i - 5] == t[5..7][i - 5];
      assert 8 <= i < 10 ==> s[i] == s[8..10][i - 8] == t[8..10][i - 8];
      assert 11 <= i < 13 ==> s[i] == s[11..13][i - 11] == t[11..13][i - 11];
      assert 14 <= i ==> s[i] == s[14..][i - 14] == t[14..][i - 14];
    }
  }

  lemma TimeParts(day: int, hour: nat, minute: nat, rest: nat)
    requires hour < 24 && minute < 60 && rest < MINUTE
    ensures var wall := day * DAY + hour * HOUR + minute * MINUTE + rest;
            wall / DAY == day && HourOf(wall) == hour && MinuteOf(wall) == minute
            && wall % DAY == hour * HOUR + minute * MINUTE + rest && FloorMinute(wall) == wall - rest
  {
    var ofHour := minute * MINUTE + rest;
    var ofDay := hour * HOUR + ofHour;
    Quotient(day, DAY, ofDay);
    Quotient(hour, HOUR, ofHour);
    Quotient(minute, MINUTE, rest);
    Quotient(1440 * day + 60 * hour + minute, MINUTE, rest);
  }

  lemma MulGrows(k: int, d: nat)
    ensures k >= 1 ==> k * d >= d
    ensures k <= -1 ==> k * d + d <= 0
  {
  }

  lemma Quotient(q: int, d: nat, r: nat)
    requires r < d
    ensures (q * d + r) / d == q && (q * d + r) % d == r
  {
    var n := q * d + r;
    var k := n / d - q;
    MulGrows(k, d);
    assert k * d == n / d * d - q * d == r - n % d;
  }

  /** A wall clock is its day, hour and minute put together, and less than a minute more. */
  lemma WallParts(wall: int) returns (rest: nat)
    ensures HourOf(wall) < 24 && MinuteOf(wall) < 60 && rest < MINUTE
    ensures wall == wall / DAY * DAY + HourOf(wall) * HOUR + MinuteOf(wall) * MINUTE + rest
  {
    rest := wall % DAY % HOUR % MINUTE;
  }

  function BakeryYear(at: int): int {
    CivilOf((at + OFFSET) / DAY).year
  }

  /** A year the form writes with four digits. */
  predicate Writable(at: int) {
    1000 <= BakeryYear(at) <= 9999
  }

  lemma TextParses(c: Civil, hour: nat, minute: nat)
    requires ValidCivil(c) && 1000 <= c.year <= 9999 && hour < 24 && minute < 60
    ensures ParseLocal(DateText(c, hour, minute))
            == Some(DayNumber(c) * DAY + hour * HOUR + minute * MINUTE - OFFSET)
  {
    hide DayNumber, Pad2, Print, Read, Text;
    FourDigits(c.year);
    ReadPrint(c.year);
    Pad2Reads(c.month + 1);
    Pad2Reads(c.date);
    Pad2Reads(hour);
    Pad2Reads(minute);
    TextParts(Print(c.year), Pad2(c.month + 1), Pad2(c.date), Pad2(hour), Pad2(minute));
  }

  lemma WallFloor(at: int)
    ensures var wall := at + OFFSET;
            && HourOf(wall) < 24 && MinuteOf(wall) < 60
            && FloorMinute(at) == wall / DAY * DAY + HourOf(wall) * HOUR + MinuteOf(wall) * MINUTE - OFFSET
  {
    var wall := at + OFFSET;
    var rest := WallParts(wall);
    TimeParts(wall / DAY, HourOf(wall), MinuteOf(wall), rest);
    FloorShift(at, rest);
  }

  lemma WritableParses(at: int)
    requires Writable(at)
    ensures ParseLocal(FormatLocal(at)) == Some(FloorMinute(at))
  {
    hide CivilOf, DateText, ParseLocal, HourOf, MinuteOf, FloorMinute;
    var wall := at + OFFSET;
    WallFloor(at);
    FormatDay(wall / DAY, HourOf(wall), MinuteOf(wall));
  }

  lemma FormatDay(day: int, hour: nat, minute: nat)
    requires 1000 <= CivilOf(day).year <= 9999 && hour < 24 && minute < 60
    ensures ParseLocal(DateText(CivilOf(day), hour, minute))
            == Some(day * DAY + hour * HOUR + minute * MINUTE - OFFSET)
  {
    hide CivilOf, DateText, ParseLocal;
    TextParses(CivilOf(day), hour, minute);
  }

  lemma FloorShift(at: int, rest: nat)
    requires FloorMinute(at + OFFSET) == at + OFFSET - rest
    ensures FloorMinute(at) == at - rest
  {
    var q := (at + OFFSET) / MINUTE;
    assert at == (q - 420) * MINUTE + rest;
    Quotient(q - 420, MINUTE, rest);
  }

  lemma UnwritableIsRejected(at: int)
    requires !Writable(at)
    ensures ParseLocal(FormatLocal(at)) == None
  {
    var wall := at + OFFSET;
    var c := CivilOf(wall / DAY);
    var rest := WallParts(wall);
    UnwritableText(c, HourOf(wall), MinuteOf(wall));
  }

  lemma UnwritableText(c: Civil, hour: nat, minute: nat)
    requires ValidCivil(c) && !(1000 <= c.year <= 9999) && hour < 24 && minute < 60
    ensures ParseLocal(DateText(c, hour, minute)) == None
  {
    Pad2Reads(c.month + 1);
    Pad2Reads(c.date);
    Pad2Reads(hour);
    Pad2Reads(minute);
    var s := DateText(c, hour, minute);
    assert |s| == |YearText(c.year)| + 12;
    if c.year < 0 {
      assert |s| == 16 ==> s[..4][0] == s[0] == '-';
    } else {
      FourDigits(c.year);
    }
  }

  /**
   Formatting then parsing gives the instant floored to its minute in the years 1000 to 9999, and
   outside them text that no longer parses.
   */
  lemma FormatThenParse(at: int)
    ensures ParseLocal(FormatLocal(at)) == if Writable(at) then Some(FloorMinute(at)) else None
  {
    hide ParseLocal, FormatLocal, Writable, FloorMinute;
    if Writable(at) {
      WritableParses(at);
    } else {
      UnwritableIsRejected(at);
    }
  }

  lemma FormattedText(at: int)
    requires Writable(at)
    ensures LocalPattern(FormatLocal(at))
    ensures Read(FormatLocal(at)[..4]) >= 1000 && FormatLocal(at)[11..13] != "24"
  {
    var wall := at + OFFSET;
    WallFloor(at);
    FormattedDate(CivilOf(wall / DAY), HourOf(wall), MinuteOf(wall));
  }

  lemma FormattedDate(c: Civil, hour: nat, minute: nat)
    requires ValidCivil(c) && 1000 <= c.year <= 9999 && hour < 24 && minute < 60
    ensures LocalPattern(DateText(c, hour, minute))
    ensures Read(DateText(c, hour, minute)[..4]) >= 1000 && DateText(c, hour, minute)[11..13] != "24"
  {
    hide DayNumber, Pad2, Print, Read, Text;
    FourDigits(c.year);
    ReadPrint(c.year);
    Pad2Reads(c.month + 1);
    Pad2Reads(c.date);
    Pad2Reads(hour);
    Pad2Reads(minute);
    Hour24Text(Pad2(hour));
    TextParts(Print(c.year), Pad2(c.month + 1), Pad2(c.date), Pad2(hour), Pad2(minute));
  }

  /**
   Parsing then formatting gives the text back exactly when the year is 1000 or later and
   midnight was not written as hour 24.
   */
  lemma ParseThenFormat(s: string)
    requires ParseLocal(s).Some?
    ensures FormatLocal(ParseLocal(s).value) == s <==> Read(s[..4]) >= 1000 && s[11..13] != "24"
  {
    if Read(s[..4]) >= 1000 && s[11..13] != "24" {
      ParsedIsFormatted(s);
    } else {
      hide ParseLocal, FormatLocal, Writable, Read;
      var at := ParseLocal(s).value;
      if Writable(at) {
        FormattedText(at);
      } else {
        UnwritableIsRejected(at);
      }
    }
  }

  lemma ParsedIsFormatted(s: string)
    requires ParseLocal(s).Some? && s[11..13] != "24" && Read(s[..4]) >= 1000
    ensures FormatLocal(ParseLocal(s).value) == s
  {
    var year, month, date := Read(s[..4]), Read(s[5..7]), Read(s[8..10]);
    var hour, minute := Read(s[11..13]), Read(s[14..]);
    Hour24Text(s[11..13]);
    assert 1 <= month && minute < 60 && hour < 24;
    FormatOf(Civil(year, month - 1, date), hour, minute, ParseLocal(s).value);
    TextOfParts(s);
  }

  lemma FormatOf(c: Civil, hour: nat, minute: nat, at: int)
    requires ValidCivil(c) && hour < 24 && minute < 60
    requires at == DayNumber(c) * DAY + hour * HOUR + minute * MINUTE - OFFSET
    ensures FormatLocal(at) == DateText(c, hour, minute)
  {
    hide CivilOf, DayNumber, DateText, HourOf, MinuteOf;
    CivilOfNumber(c);
    TimeParts(DayNumber(c), hour, minute, 0);
  }

  lemma CivilOfNumber(c: Civil)
    requires ValidCivil(c)
    ensures CivilOf(DayNumber(c)) == c
  {
    DatesAreDistinct(CivilOf(DayNumber(c)), c);
  }

  lemma TextOfParts(s: string)
    requires LocalPattern(s) && Read(s[..4]) >= 1000
    ensures Text(Print(Read(s[..4])), Pad2(Read(s[5..7])), Pad2(Read(s[8..10])), Pad2(Read(s[11..13])),
                 Pad2(Read(s[14..]))) == s
  {
    PartsMakeText(s);
    FourDigitText(s[..4]);
    TwoDigitText(s[5..7]);
    TwoDigitText(s[8..10]);
    TwoDigitText(s[11..13]);
    TwoDigitText(s[14..]);
  }

  lemma TwoDigitText(s: string)
    requires |s| == 2 && AllDigits(s)
    ensures Pad2(Read(s)) == s
  {
    assert Pow10(2) == 10 * Pow10(1) && Pow10(1) == 10 * Pow10(0);
    ReadBound(s);
    Pad2Reads(Read(s));
    ReadInjective(Pad2(Read(s)), s);
  }

  lemma FourDigitText(s: string)
    requires |s| == 4 && AllDigits(s) && Read(s) >= 1000
    ensures Print(Read(s)) == s
  {
    assert Pow10(1) == 10 && Pow10(2) == 100 && Pow10(3) == 1000 && Pow10(4) == 10_000;
    ReadBound(s);
    FourDigits(Read(s));
    ReadPrint(Read(s));
    ReadInjective(Print(Read(s)), s);
  }

  lemma Hour24Text(s: string)
    requires |s| == 2 && AllDigits(s)
    ensures Read(s) == 24 <==> s == "24"
  {
    assert Read("24") == 24 by {
      assert "24"[..1] == "2" && "2"[..0] == "";
      assert Read("2") == 2;
    }
    if Read(s) == 24 {
      ReadInjective(s, "24");
    }
  }

  // ---------------------------------------------------------------------------------------
  // The default slot
  // ---------------------------------------------------------------------------------------

  /** A JavaScript Date read and set through its UTC getters and setters. */
  class WallClock {
    var time: int

    constructor (time: int)
      ensures this.time == time
    {
      this.time := time;
    }

    method GetUTCHours() returns (hour: nat)
      ensures hour == HourOf(time)
    {
      return time % DAY / HOUR;
    }

    method GetUTCDate() returns (date: nat)
      ensures date == CivilOf(time / DAY).date
    {
      return CivilOf(time / DAY).date;
    }

    /** Moves to another date of the month, rolling over its end; the time of day stays. */
    method SetUTCDate(date: int)
      modifies this
      ensures time == old(time) + (date - CivilOf(old(time) / DAY).date) * DAY
    {
      var c := CivilOf(time / DAY);
      time := MakeDay(c.year, c.month, date) * DAY + time % DAY;
    }

    /** `setUTCHours(hour, 0, 0, 0)`: that hour sharp on the same day. */
    method SetUTCHours(hour: nat)
      requires hour < 24
      modifies this
      ensures time / DAY == old(time) / DAY
      ensures HourOf(time) == hour && MinuteOf(time) == 0 && FloorMinute(time) == time
    {
      TimeParts(time / DAY, hour, 0, 0);
      time := time / DAY * DAY + hour * HOUR;
    }
  }

  /** The first open instant from `at` on. */
  function FirstOpen(at: int): int {
    if Open(at) then at
    else
      var wall := at + OFFSET;
      var day := if HourOf(wall) < OPEN_HOUR then wall / DAY else wall / DAY + 1;
      day * DAY + OPEN_HOUR * HOUR - OFFSET
  }

  method DefaultPickupLocalInputValue(now: int) returns (s: string)
    ensures s == FormatLocal(FirstOpen(now + LEAD))
  {
    hide FormatWall;
    var wall := new WallClock(now + LEAD + OFFSET);
    var hour := wall.GetUTCHours();
    if hour < OPEN_HOUR {
      wall.SetUTCHours(OPEN_HOUR);
    } else if hour >= CLOSE_HOUR {
      var date := wall.GetUTCDate();
      wall.SetUTCDate(date + 1);
      NextDayDivides(now + LEAD + OFFSET);
      wall.SetUTCHours(OPEN_HOUR);
    }
    SharpHour(wall.time);
    return FormatWall(wall.time);
  }

  /** A wall clock on a whole minute is its day, hour and minute. */
  lemma SharpHour(wall: int)
    ensures FloorMinute(wall) == wall ==> wall == wall / DAY * DAY + HourOf(wall) * HOUR + MinuteOf(wall) * MINUTE
  {
    var rest := WallParts(wall);
    TimeParts(wall / DAY, HourOf(wall), MinuteOf(wall), rest);
  }

  lemma NextDayDivides(wall: int)
    ensures (wall + DAY) / DAY == wall / DAY + 1
  {
    Quotient(wall / DAY + 1, DAY, wall % DAY);
  }

  /** FirstOpen is open, not before `at`, and no open instant lies between. */
  lemma FirstOpenIsEarliest(at: int, other: int)
    ensures Open(FirstOpen(at)) && at <= FirstOpen(at) < at + DAY
    ensures at <= other && Open(other) ==> FirstOpen(at) <= other
    ensures !Open(at) ==> FloorMinute(FirstOpen(at)) == FirstOpen(at)
  {
    if !Open(at) {
      var wall := at + OFFSET;
      var rest := WallParts(wall);
      var day := if HourOf(wall) < OPEN_HOUR then wall / DAY else wall / DAY + 1;
      TimeParts(day, OPEN_HOUR, 0, 0);
      FloorShift(FirstOpen(at), 0);
      if at <= other && Open(other) {
        var otherRest := WallParts(other + OFFSET);
        assert (other + OFFSET) / DAY >= day;
      }
    }
  }

  /** The zero-time guard never decides: that instant is at seven in the morning. */
  lemma ZeroTimeIsClosed()
    ensures !Open(ZERO_TIME)
  {
    assert ZERO_TIME + OFFSET == -719_162 * DAY + 7 * HOUR;
    TimeParts(-719_162, 7, 0, 0);
  }

  /** The form's check and the backend's agree on every text. */
  lemma TextChecksAgree(s: string, now: int)
    ensures LocalValueValid(s, now)
            <==> ParseLocal(s).Some? && ValidPickupAt(ParseLocal(s).value, now)
  {
    hide ParseLocal;
    ZeroTimeIsClosed();
  }

  /** Of any instant, the form checks its whole minute. */
  lemma MinuteChecksAgree(at: int, now: int)
    ensures LocalValueValid(FormatLocal(at), now) <==> Writable(at) && ValidPickupAt(FloorMinute(at), now)
  {
    hide ParseLocal, FormatLocal, LocalValueValid, Writable, ValidPickupAt, FloorMinute;
    TextChecksAgree(FormatLocal(at), now);
    FormatThenParse(at);
  }

  /**
   On a whole minute, the default slot is the earliest instant the backend accepts, and the form
   accepts its text in every year it can write.
   */
  lemma DefaultIsEarliest(now: int, other: int)
    requires FloorMinute(now) == now
    ensures var slot := FirstOpen(now + LEAD);
            && ValidPickupAt(slot, now) && (ValidPickupAt(other, now) ==> slot <= other)
            && ParseLocal(FormatLocal(slot)) == (if Writable(slot) then Some(slot) else None)
            && (LocalValueValid(FormatLocal(slot), now) <==> Writable(slot))
  {
    hide ParseLocal, FormatLocal, LocalValueValid, Writable;
    var slot := FirstOpen(now + LEAD);
    FirstOpenIsEarliest(now + LEAD, other);
    ZeroTimeIsClosed();
    assert FloorMinute(slot) == slot by {
      LeadIsMinutes(now);
    }
    FormatThenParse(slot);
    MinuteChecksAgree(slot, now);
  }

  lemma LeadIsMinutes(now: int)
    ensures FloorMinute(now + LEAD) == FloorMinute(now) + LEAD
  {
    Quotient(now / MINUTE + 120, MINUTE, now % MINUTE);
  }

  /**
   The default slot passes checkout exactly when its year can be written and `now` is a whole
   minute or the lead time lands outside opening hours: otherwise the dropped seconds put it
   before the lead time.
   */
  lemma DefaultPasses(now: int)
    ensures LocalValueValid(FormatLocal(FirstOpen(now + LEAD)), now)
       <==> Writable(FirstOpen(now + LEAD)) && (FloorMinute(now) == now || !Open(now + LEAD))
  {
    hide ParseLocal, FormatLocal, LocalValueValid, Writable;
    var slot := FirstOpen(now + LEAD);
    FirstOpenIsEarliest(now + LEAD, now);
    ZeroTimeIsClosed();
    LeadIsMinutes(now);
    MinuteChecksAgree(slot, now);
  }

  lemma EpochDay()
    ensures CivilOf(0) == Civil(1970, 0, 1)
  {
    hide CivilOf;
    assert DayNumber(Civil(1970, 0, 1)) == 0;
    CivilOfNumber(Civil(1970, 0, 1));
  }

  /** Half a minute past ten in the morning of the first day: the default is refused. */
  lemma DefaultCanBeRefused()
    ensures !LocalValueValid(FormatLocal(FirstOpen(3 * HOUR + 30_000 + LEAD)), 3 * HOUR + 30_000)
  {
    hide ParseLocal, FormatLocal, LocalValueValid, CivilOf;
    var now := 3 * HOUR + 30_000;
    TimeParts(0, 12, 0, 30_000);
    EpochDay();
    DefaultPasses(now);
  }

  // ---------------------------------------------------------------------------------------
  // In plain numbers
  // ---------------------------------------------------------------------------------------

  /** Eight to six in the bakery is one to eleven in the morning, UTC. */
  lemma OpenInUtc(at: int)
    ensures Open(at) <==> 3_600_000 <= at % 86_400_000 < 39_600_000
  {
    var day, ofDay := at / DAY, at % DAY;
    var wall := ofDay + OFFSET;
    if wall < DAY {
      Quotient(day, DAY, wall);
    } else {
      Quotient(day + 1, DAY, wall - DAY);
    }
    HourOfDay(at + OFFSET);
  }

  lemma HourOfDay(wall: int)
    ensures OPEN_HOUR <= HourOf(wall) < CLOSE_HOUR <==> 8 * HOUR <= wall % DAY < 18 * HOUR
  {
  }

  /** A pickup is valid from two hours to fourteen days ahead, in opening hours. */
  lemma ValidInPlainNumbers(at: int, now: int)
    ensures ValidPickupAt(at, now)
       <==> 2 * 3_600_000 <= at - now <= 14 * 86_400_000 && 3_600_000 <= at % 86_400_000 < 39_600_000
  {
    OpenInUtc(at);
    ZeroTimeIsClosed();
  }

  /** Half past eight on 1 February 1970, bakery time. */
  lemma TextInPlainNumbers()
    ensures FormatLocal(31 * 86_400_000 + 5_400_000) == "1970-02-01T08:30"
  {
    hide FormatLocal, DateText, DayNumber;
    DayInPlainNumbers();
    DateInPlainNumbers();
    FormatOf(Civil(1970, 1, 1), 8, 30, 31 * 86_400_000 + 5_400_000);
  }

  lemma DateInPlainNumbers()
    ensures DateText(Civil(1970, 1, 1), 8, 30) == "1970-02-01T08:30"
  {
    hide Print, Pad2, Read;
    ReadsInPlainNumbers();
    FourDigitText("1970");
    TwoDigitText("02");
    TwoDigitText("01");
    TwoDigitText("08");
    TwoDigitText("30");
    JoinedInPlainNumbers();
    hide Text;
  }

  lemma JoinedInPlainNumbers()
    ensures Text("1970", "02", "01", "08", "30") == "1970-02-01T08:30"
  {
  }

  lemma ReadsInPlainNumbers()
    ensures Read("1970") == 1970 && Read("02") == 2 && Read("01") == 1 && Read("08") == 8 && Read("30") == 30
  {
    assert "1970"[..3] == "197" && "197"[..2] == "19" && "19"[..1] == "1" && "1"[..0] == "";
    assert Read("1") == 1 && Read("19") == 19 && Read("197") == 197;
    assert "0"[..0] == "" && "02"[..1] == "0" && "01"[..1] == "0" && "08"[..1] == "0";
    assert "3"[..0] == "" && "30"[..1] == "3";
  }

  lemma DayInPlainNumbers()
    ensures DayNumber(Civil(1970, 1, 1)) == 31
  {
    assert DaysBefore(1970, 1) == DaysBefore(1970, 0) + 31;
  }
}
