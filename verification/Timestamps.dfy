/**
 TIMESTAMP (section 6.2.3 of RFC 5424): its syntax, the state tables of the two
 generated machines for it, and time.Parse / time.Format with the layout
 2006-01-02T15:04:05.999999Z07:00 over a record of calendar fields.
 */
module Timestamps {
  import opened Bytes
  import opened Functions

  /** Wall-clock fields and the offset from UTC in minutes. */
  datatype Timestamp = Timestamp(
    year: int, month: int, day: int, hour: int, minute: int, second: int, micros: int, offset: int)
  {
    predicate Valid() {
      && 0 <= year <= 9999 && 1 <= month <= 12 && 1 <= day <= DaysIn(year, month)
      && 0 <= hour <= 23 && 0 <= minute <= 59 && 0 <= second <= 59
      && 0 <= micros <= 999999 && -1439 <= offset <= 1439
    }
  }

  predicate IsLeap(year: int) {
    year % 4 == 0 && (year % 100 != 0 || year % 400 == 0)
  }

  function DaysIn(year: int, month: int): int {
    if month == 2 then (if IsLeap(year) then 29 else 28)
    else if month == 4 || month == 6 || month == 9 || month == 11 then 30
    else 31
  }

  function YearLength(year: int): int {
    DaysIn(year, 1) + DaysIn(year, 2) + DaysIn(year, 3) + DaysIn(year, 4) + DaysIn(year, 5) + DaysIn(year, 6)
    + DaysIn(year, 7) + DaysIn(year, 8) + DaysIn(year, 9) + DaysIn(year, 10) + DaysIn(year, 11) + DaysIn(year, 12)
  }

  /** The days of the years before this one, from year 0 on. */
  function DaysBefore(year: nat): int {
    if year == 0 then 0 else DaysBefore(year - 1) + YearLength(year - 1)
  }

  lemma Quotient(x: nat, q: nat)
    ensures 4 * q <= x < 4 * q + 4 ==> x / 4 == q
    ensures 100 * q <= x < 100 * q + 100 ==> x / 100 == q
    ensures 400 * q <= x < 400 * q + 400 ==> x / 400 == q
  {
  }

  lemma Remainder(k: nat)
    ensures 4 * k % 4 == 0 && 100 * k % 100 == 0
  {
  }

  lemma Fourth(year: nat)
    ensures (year + 4) / 4 == (year + 3) / 4 + if year % 4 == 0 then 1 else 0
  {
    var q := year / 4;
    Quotient(year + 4, q + 1);
    Quotient(year + 3, if year % 4 == 0 then q else q + 1);
  }

  lemma Hundredth(year: nat)
    ensures (year + 100) / 100 == (year + 99) / 100 + if year % 100 == 0 then 1 else 0
    ensures year % 100 == 0 ==> year % 4 == 0
  {
    var q := year / 100;
    Quotient(year + 100, q + 1);
    Quotient(year + 99, if year % 100 == 0 then q else q + 1);
    Remainder(25 * q);
  }

  lemma FourHundredth(year: nat)
    ensures (year + 400) / 400 == (year + 399) / 400 + if year % 400 == 0 then 1 else 0
    ensures year % 400 == 0 ==> year % 100 == 0
  {
    var q := year / 400;
    Quotient(year + 400, q + 1);
    Quotient(year + 399, if year % 400 == 0 then q else q + 1);
    Remainder(4 * q);
  }

  lemma YearLengthIs(year: nat)
    ensures YearLength(year) == 365 + if IsLeap(year) then 1 else 0
  {
    hide IsLeap;
  }

  lemma {:induction false} DaysBeforeIs(year: nat)
    ensures DaysBefore(year) == 365 * year + (year + 3) / 4 - (year + 99) / 100 + (year + 399) / 400
  {
    hide YearLength;
    if year > 0 {
      DaysBeforeIs(year - 1);
      Fourth(year - 1);
      Hundredth(year - 1);
      FourHundredth(year - 1);
      YearLengthIs(year - 1);
    }
  }

  lemma MonthLengths(year: nat)
    ensures forall month :: month in {1, 3, 5, 7, 8, 10, 12} ==> DaysIn(year, month) == 31
    ensures forall month :: month in {4, 6, 9, 11} ==> DaysIn(year, month) == 30
    ensures DaysIn(year, 2) == if YearLength(year) == 366 then 29 else 28
    ensures YearLength(year) == 365 || YearLength(year) == 366
  {
    hide IsLeap;
  }

  /**
   A year has 365 or 366 days, any 400 years have 146097, and the years before any
   one have a leap day in each 4th, but not in each 100th save each 400th.
   */
  lemma Calendar(year: nat)
    ensures YearLength(year) == 365 || YearLength(year) == 366
    ensures DaysBefore(year) == 365 * year + (year + 3) / 4 - (year + 99) / 100 + (year + 399) / 400
    ensures DaysBefore(year + 400) - DaysBefore(year) == 146097
  {
    hide YearLength, DaysBefore;
    MonthLengths(year);
    DaysBeforeIs(year);
    DaysBeforeIs(year + 400);
    FourCenturies(year);
  }

  lemma FourCenturies(year: nat)
    ensures (year + 403) / 4 == (year + 3) / 4 + 100
    ensures (year + 499) / 100 == (year + 99) / 100 + 4
    ensures (year + 799) / 400 == (year + 399) / 400 + 1
  {
    Quotient(year + 403, (year + 3) / 4 + 100);
    Quotient(year + 499, (year + 99) / 100 + 4);
    Quotient(year + 799, (year + 399) / 400 + 1);
  }

  // ------------------------------------------------------------------
  // Syntax: FULL-DATE "T" FULL-TIME

  datatype Zone = Zulu | Numeric(negative: bool, hours: nat, minutes: nat)

  datatype Stamp = Stamp(
    year: nat, month: nat, day: nat, hour: nat, minute: nat, second: nat, frac: bytes, zone: Zone)
  {
    /** The ranges of section 6 of RFC 5424; the length of the month is not part of the syntax. */
    predicate WellFormed() {
      && year <= 9999 && 1 <= month <= 12 && 1 <= day <= 31
      && hour <= 23 && minute <= 59 && second <= 59
      && |frac| <= 6 && AllDigits(frac)
      && (zone.Numeric? ==> zone.hours <= 23 && zone.minutes <= 59)
    }

    function Value(): Timestamp
      requires WellFormed()
    {
      Timestamp(year, month, day, hour, minute, second, Micros(frac), ZoneOffset(zone))
    }
  }

  function Micros(frac: bytes): int
    requires |frac| <= 6
  {
    Num(frac) * Pow10(6 - |frac|)
  }

  function ZoneOffset(z: Zone): int {
    match z
    case Zulu => 0
    case Numeric(negative, h, m) => if negative then -(h * 60 + m) else h * 60 + m
  }

  function Two(n: nat): (s: bytes)
    requires n < 100
    ensures |s| == 2 && AllDigits(s)
  {
    [48 + n / 10, 48 + n % 10]
  }

  function Four(n: nat): (s: bytes)
    requires n < 10000
    ensures |s| == 4 && AllDigits(s)
  {
    Two(n / 100) + Two(n % 100)
  }

  function DateText(year: nat, month: nat, day: nat): (s: bytes)
    requires year <= 9999 && month <= 12 && day <= 31
    ensures |s| == 10
  {
    Four(year) + [DASH] + Two(month) + [DASH] + Two(day)
  }

  function TimeText(hour: nat, minute: nat, second: nat): (s: bytes)
    requires hour <= 23 && minute <= 59 && second <= 59
    ensures |s| == 9
  {
    [UPPER_T] + Two(hour) + [COLON] + Two(minute) + [COLON] + Two(second)
  }

  function FracText(frac: bytes): bytes {
    if frac == [] then [] else [DOT] + frac
  }

  function ZoneText(z: Zone): (s: bytes)
    requires z.Numeric? ==> z.hours <= 23 && z.minutes <= 59
    ensures |s| == 1 || |s| == 6
    ensures s[0] in {PLUS, DASH, UPPER_Z}
  {
    match z
    case Zulu => [UPPER_Z]
    case Numeric(negative, h, m) => [if negative then DASH else PLUS] + Two(h) + [COLON] + Two(m)
  }

  function StampText(st: Stamp): (s: bytes)
    requires st.WellFormed()
    ensures |s| >= 20
  {
    DateText(st.year, st.month, st.day) + (TimeText(st.hour, st.minute, st.second) + (FracText(st.frac) + ZoneText(st.zone)))
  }

  // ------------------------------------------------------------------
  // State tables

  predicate Between(lo: byte, b: byte, hi: byte) {
    lo <= b <= hi
  }

  /**
   States 6 and 554..590 of the parser; 0 is the error exit. State 578 is left
   by a space, which Automaton handles.
   */
  function ParserNext(n: int, b: byte): (m: int)
    ensures m == 0 || 554 <= m <= 590
  {
    match n
    case 6 => if IsDigit(b) then 554 else 0
    case 554 => if IsDigit(b) then 555 else 0
    case 555 => if IsDigit(b) then 556 else 0
    case 556 => if IsDigit(b) then 557 else 0
    case 557 => if b == DASH then 558 else 0
    case 558 => if b == 48 then 559 else if b == 49 then 590 else 0
    case 559 => if Between(49, b, 57) then 560 else 0
    case 560 => if b == DASH then 561 else 0
    case 561 => if b == 48 then 562 else if b == 51 then 589 else if Between(49, b, 50) then 588 else 0
    case 562 => if Between(49, b, 57) then 563 else 0
    case 563 => if b == UPPER_T then 564 else 0
    case 564 => if b == 50 then 587 else if Between(48, b, 49) then 565 else 0
    case 565 => if IsDigit(b) then 566 else 0
    case 566 => if b == COLON then 567 else 0
    case 567 => if Between(48, b, 53) then 568 else 0
    case 568 => if IsDigit(b) then 569 else 0
    case 569 => if b == COLON then 570 else 0
    case 570 => if Between(48, b, 53) then 571 else 0
    case 571 => if IsDigit(b) then 572 else 0
    case 572 => if b == PLUS || b == DASH then 573 else if b == DOT then 580 else if b == UPPER_Z then 578 else 0
    case 573 => if b == 50 then 579 else if Between(48, b, 49) then 574 else 0
    case 574 => if IsDigit(b) then 575 else 0
    case 575 => if b == COLON then 576 else 0
    case 576 => if Between(48, b, 53) then 577 else 0
    case 577 => if IsDigit(b) then 578 else 0
    case 579 => if Between(48, b, 51) then 575 else 0
    case 580 => if IsDigit(b) then 581 else 0
    case 586 => if b == PLUS || b == DASH then 573 else if b == UPPER_Z then 578 else 0
    case 587 => if Between(48, b, 51) then 566 else 0
    case 588 => if IsDigit(b) then 563 else 0
    case 589 => if Between(48, b, 49) then 563 else 0
    case 590 => if Between(48, b, 50) then 560 else 0
    case _ =>
      if 581 <= n <= 585 then
        if b == PLUS || b == DASH then 573
        else if b == UPPER_Z then 578
        else if IsDigit(b) then n + 1
        else 0
      else 0
  }

  /** States 1..37 and the final state 54 of the builder; 0 is the error exit. */
  function BuilderNext(n: int, b: byte): (m: int)
    ensures 0 <= m <= 37 || m == 54
  {
    match n
    case 1 => if IsDigit(b) then 2 else 0
    case 2 => if IsDigit(b) then 3 else 0
    case 3 => if IsDigit(b) then 4 else 0
    case 4 => if IsDigit(b) then 5 else 0
    case 5 => if b == DASH then 6 else 0
    case 6 => if b == 48 then 7 else if b == 49 then 37 else 0
    case 7 => if Between(49, b, 57) then 8 else 0
    case 8 => if b == DASH then 9 else 0
    case 9 => if b == 48 then 10 else if b == 51 then 36 else if Between(49, b, 50) then 35 else 0
    case 10 => if Between(49, b, 57) then 11 else 0
    case 11 => if b == UPPER_T then 12 else 0
    case 12 => if b == 50 then 34 else if Between(48, b, 49) then 13 else 0
    case 13 => if IsDigit(b) then 14 else 0
    case 14 => if b == COLON then 15 else 0
    case 15 => if Between(48, b, 53) then 16 else 0
    case 16 => if IsDigit(b) then 17 else 0
    case 17 => if b == COLON then 18 else 0
    case 18 => if Between(48, b, 53) then 19 else 0
    case 19 => if IsDigit(b) then 20 else 0
    case 20 => if b == PLUS || b == DASH then 21 else if b == DOT then 27 else if b == UPPER_Z then 54 else 0
    case 21 => if b == 50 then 26 else if Between(48, b, 49) then 22 else 0
    case 22 => if IsDigit(b) then 23 else 0
    case 23 => if b == COLON then 24 else 0
    case 24 => if Between(48, b, 53) then 25 else 0
    case 25 => if IsDigit(b) then 54 else 0
    case 26 => if Between(48, b, 51) then 23 else 0
    case 27 => if IsDigit(b) then 28 else 0
    case 33 => if b == PLUS || b == DASH then 21 else if b == UPPER_Z then 54 else 0
    case 34 => if Between(48, b, 51) then 14 else 0
    case 35 => if IsDigit(b) then 11 else 0
    case 36 => if Between(48, b, 49) then 11 else 0
    case 37 => if Between(48, b, 50) then 8 else 0
    case _ =>
      if 28 <= n <= 32 then
        if b == PLUS || b == DASH then 21
        else if b == UPPER_Z then 54
        else if IsDigit(b) then n + 1
        else 0
      else 0
  }

  function ParserRun(n: int, s: bytes): int
    decreases |s|
  {
    if s == [] then n else ParserRun(ParserNext(n, s[0]), s[1..])
  }

  function BuilderRun(n: int, s: bytes): int
    decreases |s|
  {
    if s == [] then n else BuilderRun(BuilderNext(n, s[0]), s[1..])
  }

  /** The parser's number for a state of the builder. */
  function Renamed(n: int): int {
    if n == 0 then 0 else if n == 1 then 6 else if n == 54 then 578 else if n < 26 then n + 552 else n + 553
  }

  lemma {:induction false} RunsAgree(n: int, s: bytes)
    requires 0 <= n <= 37 || n == 54
    ensures ParserRun(Renamed(n), s) == Renamed(BuilderRun(n, s))
    decreases |s|
  {
    if s != [] {
      NextAgrees(n, s[0]);
      RunsAgree(BuilderNext(n, s[0]), s[1..]);
    }
  }

  lemma NextAgrees(n: int, b: byte)
    requires 0 <= n <= 37 || n == 54
    ensures ParserNext(Renamed(n), b) == Renamed(BuilderNext(n, b))
  {
  }

  // ------------------------------------------------------------------
  // The tables accept the syntax

  lemma {:induction false} RunDead(s: bytes)
    ensures ParserRun(0, s) == 0
    decreases |s|
  {
    if s != [] { RunDead(s[1..]); }
  }

  lemma {:induction false} RunConcat(n: int, s: bytes, t: bytes)
    ensures ParserRun(n, s + t) == ParserRun(ParserRun(n, s), t)
    decreases |s|
  {
    if s == [] {
      assert s + t == t;
    } else {
      TailOfConcat(s, t);
      RunConcat(ParserNext(n, s[0]), s[1..], t);
    }
  }

  lemma Run1(n: int, a: byte)
    ensures ParserRun(n, [a]) == ParserNext(n, a)
  {
    assert [a][1..] == [];
  }

  lemma Run2(n: int, s: bytes)
    requires |s| == 2
    ensures ParserRun(n, s) == ParserNext(ParserNext(n, s[0]), s[1])
  {
    assert s == [s[0]] + [s[1]];
    RunConcat(n, [s[0]], [s[1]]);
    Run1(n, s[0]);
    Run1(ParserNext(n, s[0]), s[1]);
  }

  lemma DateForward(year: nat, month: nat, day: nat)
    requires year <= 9999 && 1 <= month <= 12 && 1 <= day <= 31
    ensures ParserRun(6, DateText(year, month, day)) == 563
  {
    var y, m, d := Four(year), Two(month), Two(day);
    var hi, lo := Two(year / 100), Two(year % 100);
    RunConcat(6, hi, lo);
    Run2(6, hi);
    Run2(555, lo);
    assert ParserRun(6, y) == 557;
    RunConcat(6, y, [DASH]);
    Run1(557, DASH);
    RunConcat(6, y + [DASH], m);
    Run2(558, m);
    RunConcat(6, y + [DASH] + m, [DASH]);
    Run1(560, DASH);
    RunConcat(6, y + [DASH] + m + [DASH], d);
    Run2(561, d);
  }

  lemma TimeForward(hour: nat, minute: nat, second: nat)
    requires hour <= 23 && minute <= 59 && second <= 59
    ensures ParserRun(563, TimeText(hour, minute, second)) == 572
  {
    var h, m, s := Two(hour), Two(minute), Two(second);
    Run1(563, UPPER_T);
    RunConcat(563, [UPPER_T], h);
    Run2(564, h);
    RunConcat(563, [UPPER_T] + h, [COLON]);
    Run1(566, COLON);
    RunConcat(563, [UPPER_T] + h + [COLON], m);
    Run2(567, m);
    RunConcat(563, [UPPER_T] + h + [COLON] + m, [COLON]);
    Run1(569, COLON);
    RunConcat(563, [UPPER_T] + h + [COLON] + m + [COLON], s);
    Run2(570, s);
  }

  lemma {:induction false} FracDigits(n: int, frac: bytes)
    requires AllDigits(frac) && 580 <= n && n + |frac| <= 586
    ensures ParserRun(n, frac) == n + |frac|
    decreases |frac|
  {
    if frac != [] { FracDigits(n + 1, frac[1..]); }
  }

  lemma OffsetForward(hours: nat, minutes: nat)
    requires hours <= 23 && minutes <= 59
    ensures ParserRun(573, Two(hours) + [COLON] + Two(minutes)) == 578
  {
    var h, m := Two(hours), Two(minutes);
    Run2(573, h);
    RunConcat(573, h, [COLON]);
    Run1(575, COLON);
    RunConcat(573, h + [COLON], m);
    Run2(576, m);
  }

  /** A zone ends the timestamp after the seconds and after every fraction. */
  lemma ZoneForward(n: int, z: Zone)
    requires n == 572 || 581 <= n <= 586
    requires z.Numeric? ==> z.hours <= 23 && z.minutes <= 59
    ensures ParserRun(n, ZoneText(z)) == 578
  {
    hide Two;
    match z
    case Zulu =>
      Run1(n, UPPER_Z);
    case Numeric(negative, hours, minutes) =>
      var sign := if negative then DASH else PLUS;
      Run1(n, sign);
      OffsetForward(hours, minutes);
      RunConcat(n, [sign], Two(hours) + [COLON] + Two(minutes));
      assert ZoneText(z) == [sign] + (Two(hours) + [COLON] + Two(minutes));
  }

  lemma FracZoneForward(frac: bytes, z: Zone)
    requires |frac| <= 6 && AllDigits(frac)
    requires z.Numeric? ==> z.hours <= 23 && z.minutes <= 59
    ensures ParserRun(572, FracText(frac) + ZoneText(z)) == 578
  {
    if frac == [] {
      assert FracText(frac) + ZoneText(z) == ZoneText(z);
      ZoneForward(572, z);
    } else {
      Run1(572, DOT);
      RunConcat(572, [DOT], frac);
      FracDigits(580, frac);
      RunConcat(572, FracText(frac), ZoneText(z));
      ZoneForward(580 + |frac|, z);
    }
  }

  lemma StampForward(st: Stamp)
    requires st.WellFormed()
    ensures ParserRun(6, StampText(st)) == 578
  {
    hide ParserNext, DateText, TimeText, FracText, ZoneText;
    var date, time := DateText(st.year, st.month, st.day), TimeText(st.hour, st.minute, st.second);
    var rest := FracText(st.frac) + ZoneText(st.zone);
    DateForward(st.year, st.month, st.day);
    TimeForward(st.hour, st.minute, st.second);
    FracZoneForward(st.frac, st.zone);
    RunConcat(6, date, time + rest);
    RunConcat(563, time, rest);
  }

  // ------------------------------------------------------------------
  // The tables accept nothing else

  /** A run that ends in 578 has not ended before, and took a live transition. */
  lemma Peel(n: int, s: bytes)
    requires n != 578 && ParserRun(n, s) == 578
    ensures s != [] && ParserNext(n, s[0]) != 0
    ensures ParserRun(ParserNext(n, s[0]), s[1..]) == 578
  {
    if s != [] { RunDead(s[1..]); }
  }

  /** Two digits read as a number print as themselves. */
  lemma TwoDigits(a: byte, b: byte)
    requires IsDigit(a) && IsDigit(b)
    ensures 0 <= (a - 48) as int * 10 + (b - 48) as int < 100
    ensures Two((a - 48) as int * 10 + (b - 48) as int) == [a, b]
  {
  }

  lemma YearBack(s: bytes) returns (year: nat)
    requires ParserRun(6, s) == 578
    ensures |s| >= 4 && year <= 9999 && s[..4] == Four(year)
    ensures ParserRun(557, s[4..]) == 578
  {
    Peel(6, s);
    var s1 := s[1..];
    Peel(554, s1);
    var s2 := s1[1..];
    Peel(555, s2);
    var s3 := s2[1..];
    Peel(556, s3);
    assert s3[1..] == s[4..];
    assert s[1] == s1[0] && s[2] == s2[0] && s[3] == s3[0];
    TwoDigits(s[0], s[1]);
    TwoDigits(s[2], s[3]);
    var hi: nat, lo: nat := (s[0] - 48) as int * 10 + (s[1] - 48) as int, (s[2] - 48) as int * 10 + (s[3] - 48) as int;
    year := hi * 100 + lo;
    assert year / 100 == hi && year % 100 == lo;
    assert s[..4] == [s[0], s[1]] + [s[2], s[3]];
  }

  lemma MonthDayBack(s: bytes) returns (month: nat, day: nat)
    requires ParserRun(557, s) == 578
    ensures |s| >= 6 && 1 <= month <= 12 && 1 <= day <= 31
    ensures s[..6] == [DASH] + Two(month) + [DASH] + Two(day)
    ensures ParserRun(563, s[6..]) == 578
  {
    Peel(557, s);
    var s1 := s[1..];
    Peel(558, s1);
    var s2 := s1[1..];
    Peel(ParserNext(558, s1[0]), s2);
    var s3 := s2[1..];
    Peel(560, s3);
    var s4 := s3[1..];
    Peel(561, s4);
    var s5 := s4[1..];
    Peel(ParserNext(561, s4[0]), s5);
    assert s5[1..] == s[6..];
    assert s[1] == s1[0] && s[2] == s2[0] && s[3] == s3[0] && s[4] == s4[0] && s[5] == s5[0];
    TwoDigits(s[1], s[2]);
    TwoDigits(s[4], s[5]);
    month := (s[1] - 48) as int * 10 + (s[2] - 48) as int;
    day := (s[4] - 48) as int * 10 + (s[5] - 48) as int;
    assert s[..6] == [DASH] + [s[1], s[2]] + [DASH] + [s[4], s[5]];
  }

  lemma HourBack(s: bytes) returns (hour: nat, rest: bytes)
    requires ParserRun(564, s) == 578
    ensures hour <= 23 && s == Two(hour) + rest
    ensures ParserRun(566, rest) == 578
  {
    Peel(564, s);
    var s1 := s[1..];
    Peel(ParserNext(564, s[0]), s1);
    rest := s1[1..];
    assert s[1] == s1[0];
    TwoDigits(s[0], s[1]);
    hour := (s[0] - 48) as int * 10 + (s[1] - 48) as int;
    assert s == [s[0], s[1]] + rest;
  }

  lemma TimeBack(s: bytes) returns (hour: nat, minute: nat, second: nat)
    requires ParserRun(563, s) == 578
    ensures |s| >= 9 && hour <= 23 && minute <= 59 && second <= 59
    ensures s[..9] == TimeText(hour, minute, second)
    ensures ParserRun(572, s[9..]) == 578
  {
    hide Two, ParserRun;
    Peel(563, s);
    var h, m, t;
    hour, h := HourBack(s[1..]);
    Peel(566, h);
    minute, m := MinuteBack(567, h[1..]);
    Peel(569, m);
    second, t := MinuteBack(570, m[1..]);
    TimeParts(s, Two(hour), h, Two(minute), m, Two(second), t);
  }

  lemma TimeParts(s: bytes, hour: bytes, h: bytes, minute: bytes, m: bytes, second: bytes, t: bytes)
    requires s != [] && h != [] && m != [] && |hour| == |minute| == |second| == 2
    requires s[1..] == hour + h && h[1..] == minute + m && m[1..] == second + t
    requires s[0] == UPPER_T && h[0] == COLON && m[0] == COLON
    ensures |s| >= 9 && s[9..] == t
    ensures s[..9] == [UPPER_T] + hour + [COLON] + minute + [COLON] + second
  {
    var x := [UPPER_T] + hour + [COLON] + minute + [COLON] + second;
    assert m == [COLON] + (second + t);
    assert h == [COLON] + (minute + m);
    assert s == [UPPER_T] + (hour + h);
    assert s == x + t;
  }

  lemma MinuteBack(n: int, s: bytes) returns (minute: nat, rest: bytes)
    requires n == 567 || n == 570 || n == 576
    requires ParserRun(n, s) == 578
    ensures minute <= 59 && s == Two(minute) + rest
    ensures ParserRun(if n == 576 then 578 else n + 2, rest) == 578
  {
    Peel(n, s);
    var s1 := s[1..];
    Peel(n + 1, s1);
    rest := s1[1..];
    assert s[1] == s1[0];
    TwoDigits(s[0], s[1]);
    minute := (s[0] - 48) as int * 10 + (s[1] - 48) as int;
    assert s == [s[0], s[1]] + rest;
  }

  lemma OffsetBack(s: bytes) returns (hours: nat, minutes: nat)
    requires ParserRun(573, s) == 578
    ensures hours <= 23 && minutes <= 59 && s == Two(hours) + [COLON] + Two(minutes)
  {
    Peel(573, s);
    var s1 := s[1..];
    Peel(ParserNext(573, s[0]), s1);
    var s2 := s1[1..];
    Peel(575, s2);
    var rest;
    minutes, rest := MinuteBack(576, s2[1..]);
    Ended(rest);
    assert s[1] == s1[0] && s[2] == s2[0];
    TwoDigits(s[0], s[1]);
    hours := (s[0] - 48) as int * 10 + (s[1] - 48) as int;
    assert s == [s[0], s[1]] + [COLON] + Two(minutes);
  }

  /** Nothing follows the zone. */
  lemma Ended(s: bytes)
    requires ParserRun(578, s) == 578
    ensures s == []
  {
    if s != [] { RunDead(s[1..]); }
  }

  lemma ZoneBack(n: int, s: bytes) returns (z: Zone)
    requires n == 572 || 581 <= n <= 586
    requires ParserRun(n, s) == 578 && s != [] && s[0] in {PLUS, DASH, UPPER_Z}
    ensures z.Numeric? ==> z.hours <= 23 && z.minutes <= 59
    ensures s == ZoneText(z)
  {
    hide Two;
    Peel(n, s);
    if s[0] == UPPER_Z {
      Ended(s[1..]);
      assert s == [UPPER_Z];
      z := Zulu;
    } else {
      var hours, minutes := OffsetBack(s[1..]);
      z := Numeric(s[0] == DASH, hours, minutes);
      assert s == [s[0]] + s[1..];
    }
  }

  lemma FracBack(n: int, s: bytes) returns (frac: bytes, z: Zone)
    requires 580 <= n <= 586 && ParserRun(n, s) == 578
    ensures n + |frac| <= 586 && AllDigits(frac) && (n == 580 ==> frac != [])
    ensures z.Numeric? ==> z.hours <= 23 && z.minutes <= 59
    ensures s == frac + ZoneText(z)
    decreases 586 - n
  {
    hide ZoneText;
    Peel(n, s);
    if s[0] in {PLUS, DASH, UPPER_Z} {
      z := ZoneBack(n, s);
      frac := [];
    } else {
      assert n <= 585 && IsDigit(s[0]) && ParserNext(n, s[0]) == n + 1;
      hide ParserNext;
      var f;
      f, z := FracBack(n + 1, s[1..]);
      frac := [s[0]] + f;
      assert s == [s[0]] + s[1..];
    }
  }

  lemma DateBack(s: bytes) returns (year: nat, month: nat, day: nat)
    requires ParserRun(6, s) == 578
    ensures year <= 9999 && 1 <= month <= 12 && 1 <= day <= 31
    ensures |s| >= 10 && s[..10] == DateText(year, month, day)
    ensures ParserRun(563, s[10..]) == 578
  {
    hide ParserRun, Two, Four;
    year := YearBack(s);
    month, day := MonthDayBack(s[4..]);
    assert s[4..][6..] == s[10..];
    assert s[..10] == s[..4] + s[4..][..6];
  }

  lemma StampBack(s: bytes) returns (st: Stamp)
    requires ParserRun(6, s) == 578
    ensures st.WellFormed() && StampText(st) == s
  {
    hide ParserRun, DateText, TimeText, FracText, ZoneText;
    var year, month, day := DateBack(s);
    var s1 := s[10..];
    var hour, minute, second := TimeBack(s1);
    var s2 := s1[9..];
    var frac, zone := FracZoneBack(s2);
    st := Stamp(year, month, day, hour, minute, second, frac, zone);
    assert s == s[..10] + s1 && s1 == s1[..9] + s2;
  }

  lemma FracZoneBack(s: bytes) returns (frac: bytes, z: Zone)
    requires ParserRun(572, s) == 578
    ensures |frac| <= 6 && AllDigits(frac)
    ensures z.Numeric? ==> z.hours <= 23 && z.minutes <= 59
    ensures s == FracText(frac) + ZoneText(z)
  {
    Peel(572, s);
    if s[0] == DOT {
      frac, z := FracBack(580, s[1..]);
      assert s == [DOT] + s[1..];
    } else {
      frac := [];
      z := ZoneBack(572, s);
      assert s == [] + ZoneText(z);
    }
  }

  /** States 6 and 554..590 of the parser accept exactly FULL-DATE "T" FULL-TIME. */
  lemma TimestampTable(s: bytes)
    ensures ParserRun(6, s) == 578 <==> exists st: Stamp :: st.WellFormed() && StampText(st) == s
  {
    hide ParserNext, StampText;
    if ParserRun(6, s) == 578 {
      var st := StampBack(s);
    }
    if exists st: Stamp :: st.WellFormed() && StampText(st) == s {
      var st: Stamp :| st.WellFormed() && StampText(st) == s;
      StampForward(st);
    }
  }

  // ------------------------------------------------------------------
  // time.Parse and time.Format

  /** The fraction of a second, without its dot, and what follows it. */
  function SplitFrac(s: bytes): (bytes, bytes) {
    if s != [] && s[0] == DOT then
      var n := DigitRun(s[1..]);
      (s[1..][..n], s[1..][n..])
    else ([], s)
  }

  function ParseZone(s: bytes): Option<int> {
    if s == [UPPER_Z] then Some(0)
    else if |s| == 6 then
      var minutes := Num(s[1..3]) * 60 + Num(s[4..6]);
      Some(if s[0] == DASH then -minutes else minutes)
    else None
  }

  /**
   time.Parse on a text the state tables accepted: it fails exactly when the
   month does not have the day.
   */
  function ParseTime(text: bytes): Option<Timestamp> {
    if |text| < 20 then None
    else
      var year, month, day := Num(text[0..4]), Num(text[5..7]), Num(text[8..10]);
      var (frac, tail) := SplitFrac(text[19..]);
      var zone := ParseZone(tail);
      if zone.None? || |frac| > 6 || day > DaysIn(year, month) then None
      else
        Some(Timestamp(year, month, day, Num(text[11..13]), Num(text[14..16]), Num(text[17..19]),
                       Micros(frac), zone.value))
  }

  lemma NumTwo(n: nat)
    requires n < 100
    ensures Num(Two(n)) == n
  {
    var s := Two(n);
    assert s[..1] == [s[0]] && s[..1][..0] == [];
    assert Num([s[0]]) == n / 10;
  }

  lemma NumFour(n: nat)
    requires n < 10000
    ensures Num(Four(n)) == n
  {
    NumTwo(n / 100);
    NumTwo(n % 100);
    NumConcat(Two(n / 100), Two(n % 100));
    assert Pow10(2) == 100;
  }

  lemma {:induction false} DigitRunStops(frac: bytes, rest: bytes)
    requires AllDigits(frac) && rest != [] && !IsDigit(rest[0])
    ensures DigitRun(frac + rest) == |frac|
    ensures (frac + rest)[..|frac|] == frac && (frac + rest)[|frac|..] == rest
    decreases |frac|
  {
    if frac == [] {
      assert frac + rest == rest;
    } else {
      TailOfConcat(frac, rest);
      DigitRunStops(frac[1..], rest);
    }
  }

  lemma SplitFracText(frac: bytes, z: Zone)
    requires AllDigits(frac) && (z.Numeric? ==> z.hours <= 23 && z.minutes <= 59)
    ensures SplitFrac(FracText(frac) + ZoneText(z)) == (frac, ZoneText(z))
  {
    hide ZoneText;
    if frac == [] {
      assert FracText(frac) + ZoneText(z) == ZoneText(z);
    } else {
      var s := FracText(frac) + ZoneText(z);
      assert s[1..] == frac + ZoneText(z);
      DigitRunStops(frac, ZoneText(z));
    }
  }

  lemma ParseZoneText(z: Zone)
    requires z.Numeric? ==> z.hours <= 23 && z.minutes <= 59
    ensures ParseZone(ZoneText(z)) == Some(ZoneOffset(z))
  {
    if z.Numeric? {
      var s := ZoneText(z);
      assert s[1..3] == Two(z.hours) && s[4..6] == Two(z.minutes);
      NumTwo(z.hours);
      NumTwo(z.minutes);
    }
  }

  lemma DateTimeSlices(st: Stamp)
    requires st.WellFormed()
    ensures var s := StampText(st);
            && s[0..4] == Four(st.year) && s[5..7] == Two(st.month) && s[8..10] == Two(st.day)
            && s[11..13] == Two(st.hour) && s[14..16] == Two(st.minute) && s[17..19] == Two(st.second)
            && s[19..] == FracText(st.frac) + ZoneText(st.zone)
  {
    hide Two, Four, FracText, ZoneText;
    var date, time := DateText(st.year, st.month, st.day), TimeText(st.hour, st.minute, st.second);
    var rest := FracText(st.frac) + ZoneText(st.zone);
    var s := StampText(st);
    assert date[0..4] == Four(st.year) && date[5..7] == Two(st.month) && date[8..10] == Two(st.day);
    assert time[1..3] == Two(st.hour) && time[4..6] == Two(st.minute) && time[7..9] == Two(st.second);
    assert s[..10] == date && s[10..19] == time && s[19..] == rest;
    assert s[0..4] == date[0..4] && s[5..7] == date[5..7] && s[8..10] == date[8..10];
    assert s[11..13] == time[1..3] && s[14..16] == time[4..6] && s[17..19] == time[7..9];
  }

  /** What the parser reads from a timestamp the tables accepted. */
  lemma ParseStamp(st: Stamp)
    requires st.WellFormed()
    ensures ParseTime(StampText(st)) == if st.day <= DaysIn(st.year, st.month) then Some(st.Value()) else None
  {
    hide StampText, Two, Four, FracText, ZoneText, SplitFrac, ParseZone;
    DateTimeSlices(st);
    NumFour(st.year);
    NumTwo(st.month);
    NumTwo(st.day);
    NumTwo(st.hour);
    NumTwo(st.minute);
    NumTwo(st.second);
    SplitFracText(st.frac, st.zone);
    ParseZoneText(st.zone);
  }

  lemma ValueValid(st: Stamp)
    requires st.WellFormed() && st.day <= DaysIn(st.year, st.month)
    ensures st.Value().Valid()
  {
    NumNonNegative(st.frac);
    PowSplit(|st.frac|, 6 - |st.frac|);
    MulBelow(Num(st.frac), Pow10(|st.frac|), Pow10(6 - |st.frac|));
    assert Pow10(6) == 1000000;
  }

  lemma MulBelow(a: nat, b: nat, c: nat)
    requires a < b && c > 0
    ensures 0 <= a * c < b * c
  {
  }

  lemma TenTimes(a: nat, b: nat)
    ensures 10 * (a * b) == (10 * a) * b
  {
  }

  lemma {:induction false} PowSplit(a: nat, b: nat)
    ensures Pow10(a + b) == Pow10(a) * Pow10(b)
  {
    if a > 0 {
      PowSplit(a - 1, b);
      TenTimes(Pow10(a - 1), Pow10(b));
    }
  }

  function TrimZeros(s: bytes): (r: bytes)
    ensures AllDigits(s) ==> AllDigits(r)
    ensures |r| <= |s|
  {
    if s != [] && s[|s| - 1] == ZERO then TrimZeros(s[..|s| - 1]) else s
  }

  function Six(n: nat): (s: bytes)
    requires n < 1000000
    ensures |s| == 6 && AllDigits(s)
  {
    Two(n / 10000) + Four(n % 10000)
  }

  /** The syntax time.Format writes: no trailing zeros, no empty fraction, Z for offset zero. */
  function Canonical(t: Timestamp): (st: Stamp)
    requires t.Valid()
    ensures st.WellFormed()
  {
    var abs := if t.offset < 0 then -t.offset else t.offset;
    Stamp(t.year, t.month, t.day, t.hour, t.minute, t.second, TrimZeros(Six(t.micros)),
          if t.offset == 0 then Zulu else Numeric(t.offset < 0, abs / 60, abs % 60))
  }

  function Format(t: Timestamp): bytes
    requires t.Valid()
  {
    StampText(Canonical(t))
  }

  lemma {:induction false} TrimZerosValue(s: bytes)
    ensures Num(s) == Num(TrimZeros(s)) * Pow10(|s| - |TrimZeros(s)|)
  {
    if s != [] && s[|s| - 1] == ZERO {
      var h := s[..|s| - 1];
      TrimZerosValue(h);
      var r := TrimZeros(h);
      assert Pow10(|s| - |r|) == 10 * Pow10(|h| - |r|);
      assert 10 * (Num(r) * Pow10(|h| - |r|)) == Num(r) * (10 * Pow10(|h| - |r|));
    }
  }

  lemma NumSix(n: nat)
    requires n < 1000000
    ensures Num(Six(n)) == n
  {
    NumTwo(n / 10000);
    NumFour(n % 10000);
    NumConcat(Two(n / 10000), Four(n % 10000));
    assert Pow10(4) == 10000;
  }

  /** Parsing a formatted timestamp gives it back. */
  lemma ParseFormat(t: Timestamp)
    requires t.Valid()
    ensures ParseTime(Format(t)) == Some(t)
    ensures ParserRun(6, Format(t)) == 578
  {
    hide StampText, ParserNext, Six;
    var st := Canonical(t);
    StampForward(st);
    ParseStamp(st);
    NumSix(t.micros);
    TrimZerosValue(Six(t.micros));
    assert st.Value() == t;
  }

  // ------------------------------------------------------------------
  // Of all texts with its value, the one that is printed

  lemma {:induction false} NumInjective(s: bytes, t: bytes)
    requires AllDigits(s) && AllDigits(t) && |s| == |t| && Num(s) == Num(t)
    ensures s == t
    decreases |s|
  {
    if s != [] {
      var n := |s| - 1;
      NumInjective(s[..n], t[..n]);
      assert s == s[..n] + [s[n]] && t == t[..n] + [t[n]];
    }
  }

  function Zeros(n: nat): (s: bytes)
    ensures |s| == n && AllDigits(s)
  {
    if n == 0 then [] else Zeros(n - 1) + [ZERO]
  }

  lemma {:induction false} NumZeros(n: nat)
    ensures Num(Zeros(n)) == 0
  {
    if n > 0 {
      NumZeros(n - 1);
      assert Zeros(n)[..n - 1] == Zeros(n - 1);
    }
  }

  lemma TrimOne(s: bytes)
    ensures TrimZeros(s + [ZERO]) == TrimZeros(s)
  {
    var p := s + [ZERO];
    assert p[..|p| - 1] == s;
  }

  lemma {:induction false} Padded(frac: bytes, n: nat)
    ensures TrimZeros(frac + Zeros(n)) == TrimZeros(frac)
    decreases n
  {
    hide TrimZeros;
    if n == 0 {
      assert frac + [] == frac;
    } else {
      Padded(frac, n - 1);
      TrimOne(frac + Zeros(n - 1));
      assert frac + Zeros(n - 1) + [ZERO] == frac + Zeros(n);
    }
  }

  lemma {:induction false} TrimmedIsShorter(s: bytes)
    ensures TrimZeros(s) == s || |TrimZeros(s)| < |s|
  {
  }

  /** The printed fraction is the shortest one with its value. */
  lemma ShortestFraction(frac: bytes, micros: nat)
    requires |frac| <= 6 && AllDigits(frac) && micros < 1000000 && Micros(frac) == micros
    ensures frac == TrimZeros(Six(micros)) || |TrimZeros(Six(micros))| < |frac|
  {
    hide Six, TrimZeros, Num, Pow10, Zeros;
    var n := 6 - |frac|;
    Padded(frac, n);
    NumConcat(frac, Zeros(n));
    NumZeros(n);
    NumSix(micros);
    NumInjective(frac + Zeros(n), Six(micros));
    TrimmedIsShorter(frac);
  }

  lemma ShortestZone(z: Zone, offset: int)
    requires z.Numeric? ==> z.hours <= 23 && z.minutes <= 59
    requires ZoneOffset(z) == offset
    ensures var abs := if offset < 0 then -offset else offset;
            var best := if offset == 0 then Zulu else Numeric(offset < 0, abs / 60, abs % 60);
            z == best || |ZoneText(z)| > |ZoneText(best)|
  {
  }

  /** Of all timestamps with the same value the printed one is the shortest, and the only one so short. */
  lemma FormatIsShortest(t: Timestamp, st: Stamp)
    requires t.Valid() && st.WellFormed() && st.Value() == t
    ensures st == Canonical(t) || |StampText(st)| > |Format(t)|
  {
    hide Six, TrimZeros, Micros, ZoneOffset, DateText, TimeText, ZoneText;
    ShortestFraction(st.frac, t.micros);
    ShortestZone(st.zone, t.offset);
  }

  lemma ExampleText(st: Stamp)
    requires st == Stamp(2003, 8, 24, 5, 14, 15, [48, 48, 48, 48, 48, 51], Numeric(true, 7, 0))
    ensures StampText(st) == [50, 48, 48, 51, 45, 48, 56, 45, 50, 52] + ([84, 48, 53, 58, 49, 52, 58, 49, 53]
                             + ([46, 48, 48, 48, 48, 48, 51] + [45, 48, 55, 58, 48, 48]))
  {
    assert DateText(2003, 8, 24) == [50, 48, 48, 51, 45, 48, 56, 45, 50, 52];
    assert TimeText(5, 14, 15) == [84, 48, 53, 58, 49, 52, 58, 49, 53];
    assert ZoneText(st.zone) == [45, 48, 55, 58, 48, 48];
    assert FracText(st.frac) == [46, 48, 48, 48, 48, 48, 51];
  }

  /** `2003-08-24T05:14:15.000003-07:00`. */
  lemma StampExample()
    ensures ParseTime([50, 48, 48, 51, 45, 48, 56, 45, 50, 52] + ([84, 48, 53, 58, 49, 52, 58, 49, 53]
                      + ([46, 48, 48, 48, 48, 48, 51] + [45, 48, 55, 58, 48, 48])))
         == Some(Timestamp(2003, 8, 24, 5, 14, 15, 3, -420))
  {
    hide ParseTime, StampText, Num, Six;
    var st := Stamp(2003, 8, 24, 5, 14, 15, [48, 48, 48, 48, 48, 51], Numeric(true, 7, 0));
    ExampleText(st);
    ThreeMicros();
    ParseStamp(st);
  }

  lemma ThreeMicros()
    ensures Num([48, 48, 48, 48, 48, 51]) == 3
  {
    NumSix(3);
    assert Six(3) == [48, 48, 48, 48, 48, 51];
  }
}
