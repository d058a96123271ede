/** The MS-DOS date and time of a Unix time, against a calendar counted day by day. */
module DosDate {

  datatype Date = Date(year: int, month: int, day: int)

  // ---- Reference: the Gregorian calendar ----

  predicate Leap(year: int)
  {
    year % 4 == 0 && (year % 100 != 0 || year % 400 == 0)
  }

  function DaysIn(year: int, month: int): int
  {
    if month == 2 then (if Leap(year) then 29 else 28)
    else if month == 4 || month == 6 || month == 9 || month == 11 then 30
    else 31
  }

  function NextDay(d: Date): Date
  {
    if d.day < DaysIn(d.year, d.month) then Date(d.year, d.month, d.day + 1)
    else if d.month < 12 then Date(d.year, d.month + 1, 1)
    else Date(d.year + 1, 1, 1)
  }

  /** The date `n` days after 1970-01-01, one day at a time. */
  function Counted(n: nat): Date
  {
    if n == 0 then Date(1970, 1, 1) else NextDay(Counted(n - 1))
  }

  // ---- The closed form ----

  function YearOfEra(doe: nat): nat
  {
    (doe - doe / 1460 + doe / 36_524 - doe / 146_096) / 365
  }

  function DayOfYear(doe: nat): int
  {
    var yoe := YearOfEra(doe);
    doe - (365 * yoe + yoe / 4 - yoe / 100)
  }

  function DateInYear(doy: int, marchYear: int): Date
  {
    var mp := (5 * doy + 2) / 153;
    var day := doy - (153 * mp + 2) / 5 + 1;
    var month := if mp < 10 then mp + 3 else mp - 9;
    Date(marchYear + (if month <= 2 then 1 else 0), month, day)
  }

  function CivilDate(days: nat): Date
  {
    var z := days + 719_468;
    var era, doe := z / 146_097, z % 146_097;
    DateInYear(DayOfYear(doe), YearOfEra(doe) + era * 400)
  }

  // ---- The closed form counts days correctly ----

  /** Years before the last day of a leap cycle: century, 4-year cycle, year, day (from 1 March). */
  datatype Cycle = Cycle(c: int, q: int, r: int, doy: int)

  predicate LongYear(k: Cycle)
  {
    k.r == 3 && (k.q < 24 || k.c == 3)
  }

  predicate InRange(k: Cycle)
  {
    && 0 <= k.c <= 3 && 0 <= k.q <= 24 && 0 <= k.r <= 3
    && 0 <= k.doy <= (if LongYear(k) then 365 else 364)
  }

  function DayOfEra(k: Cycle): int
  {
    36_524 * k.c + 1461 * k.q + 365 * k.r + k.doy
  }

  function CycleOf(doe: nat): (k: Cycle)
    requires doe < 146_097
    ensures InRange(k) && DayOfEra(k) == doe
  {
    var c := if doe / 36_524 < 3 then doe / 36_524 else 3;
    var inCentury := doe - 36_524 * c;
    var q := inCentury / 1461;
    var inCycle := inCentury - 1461 * q;
    var r := if inCycle / 365 < 3 then inCycle / 365 else 3;
    Cycle(c, q, r, inCycle - 365 * r)
  }

  lemma CyclesBelow(k: Cycle)
    requires InRange(k)
    ensures 0 <= DayOfEra(k)
    ensures DayOfEra(k) / 36_524 - DayOfEra(k) / 146_096 == k.c
  {
  }

  lemma YearOfCycle(k: Cycle)
    requires InRange(k)
    ensures DayOfEra(k) >= 0
    ensures YearOfEra(DayOfEra(k)) == 100 * k.c + 4 * k.q + k.r
    ensures DayOfYear(DayOfEra(k)) == k.doy
  {
    var doe := DayOfEra(k);
    CyclesBelow(k);
    var over := 24 * k.c + k.q + 365 * k.r + k.doy;
    assert doe == 1460 * (25 * k.c + k.q) + over;
    var e := if over >= 1460 then 1 else 0;
    assert doe / 1460 == 25 * k.c + k.q + e;
    var y := 100 * k.c + 4 * k.q + k.r;
    assert doe - doe / 1460 + k.c == 365 * y + (k.doy - e);
    assert y / 4 == 25 * k.c + k.q && y / 100 == k.c;
  }

  function NextCycle(k: Cycle): Cycle
  {
    if k.doy < (if LongYear(k) then 365 else 364) then k.(doy := k.doy + 1)
    else if k.r < 3 then Cycle(k.c, k.q, k.r + 1, 0)
    else if k.q < 24 then Cycle(k.c, k.q + 1, 0, 0)
    else Cycle(k.c + 1, 0, 0, 0)
  }

  lemma Remainder4(a: int, b: int)
    requires 0 <= b < 4
    ensures (4 * a + b) % 4 == b
  {
  }

  lemma Remainder100(a: int, b: int)
    requires 0 <= b < 100
    ensures (100 * a + b) % 100 == b
  {
  }

  lemma Remainder400(a: int, b: int)
    requires 0 <= b < 400
    ensures (400 * a + b) % 400 == b
  {
  }

  lemma LeapYears(era: int, k: Cycle)
    requires InRange(k)
    ensures Leap(MarchYear(era, k) + 1) <==> LongYear(k)
  {
    var y := era * 400 + 100 * k.c + 4 * k.q + k.r + 1;
    if k.r < 3 {
      Remainder4(100 * era + 25 * k.c + k.q, k.r + 1);
    } else {
      Remainder4(100 * era + 25 * k.c + k.q + 1, 0);
      if k.q < 24 {
        Remainder100(4 * era + k.c, 4 * k.q + 4);
      } else {
        Remainder100(4 * era + k.c + 1, 0);
        if k.c < 3 {
          Remainder400(era, 100 * k.c + 100);
        } else {
          Remainder400(era + 1, 0);
        }
      }
    }
  }

  /** Stepping inside a year that starts on 1 March. */
  lemma NextInYear(doy: int, marchYear: int)
    requires 0 <= doy <= 364
    ensures doy < 364 || Leap(marchYear + 1) ==>
              NextDay(DateInYear(doy, marchYear)) == DateInYear(doy + 1, marchYear)
    ensures doy == 364 && !Leap(marchYear + 1) ==>
              NextDay(DateInYear(doy, marchYear)) == DateInYear(0, marchYear + 1)
  {
  }

  lemma NextAfterLeapDay(marchYear: int)
    requires Leap(marchYear + 1)
    ensures NextDay(DateInYear(365, marchYear)) == DateInYear(0, marchYear + 1)
  {
  }

  function MarchYear(era: int, k: Cycle): int
  {
    era * 400 + 100 * k.c + 4 * k.q + k.r
  }

  /** The date of a day given by its era and its place in the leap cycles. */
  lemma CivilOfCycle(days: nat, era: int, doe: int, k: Cycle)
    requires InRange(k) && DayOfEra(k) == doe && days + 719_468 == 146_097 * era + doe
    ensures CivilDate(days) == DateInYear(k.doy, MarchYear(era, k))
  {
    YearOfCycle(k);
    hide YearOfEra, DayOfYear, DateInYear;
    assert (days + 719_468) / 146_097 == era && (days + 719_468) % 146_097 == doe;
  }

  lemma NextCycleIsNextDay(k: Cycle)
    requires InRange(k) && k != Cycle(3, 24, 3, 365)
    ensures InRange(NextCycle(k)) && DayOfEra(NextCycle(k)) == DayOfEra(k) + 1
    ensures forall era :: MarchYear(era, NextCycle(k)) == MarchYear(era, k) + (if NextCycle(k).doy == 0 then 1 else 0)
    ensures NextCycle(k).doy == if k.doy == 365 || (k.doy == 364 && !LongYear(k)) then 0 else k.doy + 1
  {
  }

  lemma NextCivil(n: nat, era: int, doe: int, k: Cycle)
    requires InRange(k) && DayOfEra(k) == doe && n + 719_468 == 146_097 * era + doe
    ensures CivilDate(n + 1) == NextDay(CivilDate(n))
  {
    var y := MarchYear(era, k);
    hide CivilDate, DateInYear, NextDay, Leap, MarchYear, DayOfEra;
    CivilOfCycle(n, era, doe, k);
    LeapYears(era, k);
    if k == Cycle(3, 24, 3, 365) {
      EraEnds();
      NextEraYear(era);
      CivilOfCycle(n + 1, era + 1, 0, Cycle(0, 0, 0, 0));
    } else {
      NextCycleIsNextDay(k);
      CivilOfCycle(n + 1, era, doe + 1, NextCycle(k));
    }
    if k.doy < 365 {
      NextInYear(k.doy, y);
    } else {
      NextAfterLeapDay(y);
    }
  }

  lemma EraEnds()
    ensures DayOfEra(Cycle(0, 0, 0, 0)) == 0 && DayOfEra(Cycle(3, 24, 3, 365)) == 146_096
  {
  }

  lemma NextEraYear(era: int)
    ensures MarchYear(era + 1, Cycle(0, 0, 0, 0)) == MarchYear(era, Cycle(3, 24, 3, 365)) + 1
  {
  }

  /** For every day since 1970 the closed form gives the counted Gregorian date. */
  lemma {:induction false} CivilIsCounted(n: nat)
    ensures CivilDate(n) == Counted(n)
  {
    if n == 0 {
      CivilOfCycle(0, 4, 135_080, Cycle(3, 17, 1, 306));
      assert DateInYear(306, 1969) == Date(1970, 1, 1);
    } else {
      hide CivilDate, NextDay;
      CivilIsCounted(n - 1);
      var z := n - 1 + 719_468;
      NextCivil(n - 1, z / 146_097, z % 146_097, CycleOf(z % 146_097));
    }
  }

  // ---- Packing ----

  function Pow2(k: nat): (p: nat)
    ensures p >= 1
  {
    if k == 0 then 1 else 2 * Pow2(k - 1)
  }

  /** Bitwise or of two naturals. */
  function BitOr(a: nat, b: nat): nat
    decreases a + b
  {
    if a == 0 then b
    else if b == 0 then a
    else (if a % 2 == 1 || b % 2 == 1 then 1 else 0) + 2 * BitOr(a / 2, b / 2)
  }

  lemma BitOrOfEven(half: nat, low: nat)
    ensures BitOr(2 * half, low) == low % 2 + 2 * BitOr(half, low / 2)
  {
    assert (2 * half) / 2 == half && (2 * half) % 2 == 0;
  }

  lemma TwiceThePower(high: nat, k: nat)
    requires k > 0
    ensures high * Pow2(k) == 2 * (high * Pow2(k - 1))
  {
  }

  /** Or of fields that do not overlap is their sum. */
  lemma {:induction false} OrOfFields(high: nat, low: nat, k: nat)
    requires low < Pow2(k)
    ensures BitOr(high * Pow2(k), low) == high * Pow2(k) + low
    decreases k
  {
    if k > 0 {
      var half := high * Pow2(k - 1);
      TwiceThePower(high, k);
      OrOfFields(high, low / 2, k - 1);
      hide BitOr;
      BitOrOfEven(half, low);
    }
  }

  const CLAMPED_YEAR := 2107

  function ClampedYear(year: int): int
  {
    if year < CLAMPED_YEAR then year else CLAMPED_YEAR
  }

  function AsU64(x: int): nat
  {
    x % 0x1_0000_0000_0000_0000
  }

  function AsU16(x: nat): nat
  {
    x % 0x1_0000
  }

  function PackTime(hour: nat, minute: nat, second: nat): nat
  {
    AsU16(BitOr(BitOr(hour * Pow2(11), minute * Pow2(5)), second / 2))
  }

  function PackDate(d: Date): nat
  {
    AsU16(BitOr(BitOr(AsU64(d.year - 1980) * Pow2(9), AsU64(d.month) * Pow2(5)), AsU64(d.day)))
  }

  /** (time, date) words of a date and a second of the day. */
  function Pack(d: Date, s: nat): (nat, nat)
  {
    if d.year < 1980 then (0, BitOr(1 * Pow2(5), 1))
    else (PackTime(s / 3600, (s % 3600) / 60, s % 60), PackDate(d.(year := ClampedYear(d.year))))
  }

  function DayOf(unixSecs: nat): nat
  {
    unixSecs / 86_400
  }

  function SecondOfDay(unixSecs: nat): nat
  {
    unixSecs % 86_400
  }

  /** (time, date) words of a Unix time. */
  function DosDateTime(unixSecs: nat): (nat, nat)
  {
    Pack(CivilDate(DayOf(unixSecs)), SecondOfDay(unixSecs))
  }

  lemma DayParts(a: nat, b: nat)
    ensures SecondOfDay(a) < 86_400
    ensures a <= b ==> DayOf(a) < DayOf(b) || (DayOf(a) == DayOf(b) && SecondOfDay(a) <= SecondOfDay(b))
  {
  }

  predicate ValidDate(d: Date)
  {
    1970 <= d.year && 1 <= d.month <= 12 && 1 <= d.day <= DaysIn(d.year, d.month)
  }

  lemma {:induction false} ValidCounted(n: nat)
    ensures ValidDate(Counted(n))
  {
    if n > 0 {
      ValidCounted(n - 1);
    }
  }

  function DecodeDate(date: nat): Date
  {
    Date(1980 + date / 512, (date / 32) % 16, date % 32)
  }

  /** Second of the day. */
  function DecodeTime(time: nat): nat
  {
    (time / 2048) * 3600 + ((time / 32) % 64) * 60 + (time % 32) * 2
  }

  lemma Powers()
    ensures Pow2(5) == 32 && Pow2(6) == 64 && Pow2(9) == 512 && Pow2(11) == 2048
  {
    assert Pow2(3) == 8;
  }

  lemma PackTimeFields(hour: nat, minute: nat, second: nat)
    requires hour < 24 && minute < 60 && second < 60
    ensures PackTime(hour, minute, second) == hour * 2048 + minute * 32 + second / 2
  {
    Powers();
    OrOfFields(hour, minute * 32, 11);
    OrOfFields(hour * 64 + minute, second / 2, 5);
    hide Pow2, BitOr, AsU16;
    assert (hour * 64 + minute) * 32 == hour * 2048 + minute * 32;
    SmallCast(hour * 2048 + minute * 32 + second / 2);
  }

  lemma PackDateFields(d: Date)
    requires 1980 <= d.year <= CLAMPED_YEAR && 1 <= d.month <= 12 && 1 <= d.day <= 31
    ensures PackDate(d) == (d.year - 1980) * 512 + d.month * 32 + d.day
  {
    Powers();
    var y := d.year - 1980;
    hide BitOr, Pow2, AsU64, AsU16;
    OrOfFields(y, d.month * 32, 9);
    OrOfFields(y * 16 + d.month, d.day, 5);
    assert (y * 16 + d.month) * 32 == y * 512 + d.month * 32;
    SmallCast(y);
    SmallCast(d.month);
    SmallCast(d.day);
    SmallCast(y * 512 + d.month * 32 + d.day);
  }

  lemma SmallCast(x: nat)
    requires x < 0x1_0000
    ensures AsU64(x) == AsU16(x) == x
  {
  }

  lemma DateFields(d: Date)
    requires 1980 <= d.year && 1 <= d.month <= 12 && 1 <= d.day <= 31
    ensures DecodeDate((d.year - 1980) * 512 + d.month * 32 + d.day) == d
  {
    var t := (d.year - 1980) * 512 + d.month * 32 + d.day;
    assert t / 32 == (d.year - 1980) * 16 + d.month && t % 32 == d.day && t / 512 == d.year - 1980;
  }

  lemma PackEarly()
    ensures BitOr(1 * Pow2(5), 1) == 33
  {
    assert Pow2(5) == 32;
    OrOfFields(1, 1, 5);
  }

  /** Packing any valid date and second of the day keeps every field but the odd second and the clamp. */
  lemma PackRoundTrip(d: Date, s: nat)
    requires ValidDate(d) && s < 86_400
    ensures if d.year < 1980 then Pack(d, s) == (0, 33)
            else
              && DecodeDate(Pack(d, s).1) == d.(year := ClampedYear(d.year))
              && DecodeTime(Pack(d, s).0) == s - s % 2
  {
    if d.year < 1980 {
      PackEarly();
    } else {
      hide PackTime, PackDate, DecodeTime, DecodeDate;
      DateRoundTrip(d.(year := ClampedYear(d.year)));
      TimeRoundTrip(s);
    }
  }

  lemma DateRoundTrip(d: Date)
    requires 1980 <= d.year <= CLAMPED_YEAR && 1 <= d.month <= 12 && 1 <= d.day <= 31
    ensures DecodeDate(PackDate(d)) == d
  {
    hide PackDate, DecodeDate;
    PackDateFields(d);
    DateFields(d);
  }

  lemma TimeRoundTrip(s: nat)
    requires s < 86_400
    ensures DecodeTime(PackTime(s / 3600, (s % 3600) / 60, s % 60)) == s - s % 2
  {
    hide PackTime, DecodeTime;
    TimeSplit(s);
    var h, m, q := s / 3600, (s % 3600) / 60, s % 60;
    PackTimeFields(h, m, q);
    TimeFields(h, m, q / 2);
  }

  lemma TimeSplit(s: nat)
    requires s < 86_400
    ensures s / 3600 < 24 && (s % 3600) / 60 < 60
    ensures s - s % 2 == (s / 3600) * 3600 + ((s % 3600) / 60) * 60 + ((s % 60) / 2) * 2
  {
    var h, r := s / 3600, s % 3600;
    var m, q := r / 60, r % 60;
    Remainder60(60 * h + m, q);
    Remainder2(30 * (60 * h + m) + q / 2, q % 2);
  }

  lemma Remainder60(a: int, b: int)
    requires 0 <= b < 60
    ensures (60 * a + b) % 60 == b
  {
  }

  lemma Remainder2(a: int, b: int)
    requires 0 <= b < 2
    ensures (2 * a + b) % 2 == b
  {
  }

  lemma TimeFields(h: nat, m: nat, half: nat)
    requires m < 60 && half < 30
    ensures DecodeTime(h * 2048 + m * 32 + half) == h * 3600 + m * 60 + half * 2
  {
    var t := h * 2048 + m * 32 + half;
    assert t / 32 == h * 64 + m && t % 32 == half && t / 2048 == h;
  }

  /** The words decode to the counted date with its year clamped, and to the even second below. */
  lemma DosRoundTrip(unixSecs: nat)
    ensures var d := Counted(DayOf(unixSecs));
            var s := SecondOfDay(unixSecs);
            var (time, date) := DosDateTime(unixSecs);
            if d.year < 1980 then DecodeDate(date) == Date(1980, 1, 1) && DecodeTime(time) == 0
            else DecodeDate(date) == d.(year := ClampedYear(d.year)) && DecodeTime(time) == s - s % 2
  {
    hide CivilDate, Counted, Pack, DayOf, SecondOfDay;
    var n, s := DayOf(unixSecs), SecondOfDay(unixSecs);
    CivilIsCounted(n);
    ValidCounted(n);
    DayParts(unixSecs, unixSecs);
    PackRoundTrip(Counted(n), s);
    EarlyDecodes();
    hide DecodeDate, DecodeTime;
  }

  lemma EarlyDecodes()
    ensures DecodeDate(33) == Date(1980, 1, 1) && DecodeTime(0) == 0
  {
  }

  lemma WordsFit(unixSecs: nat)
    ensures DosDateTime(unixSecs).0 <= 0xFFFF && DosDateTime(unixSecs).1 <= 0xFFFF
  {
    hide CivilDate, BitOr, Pow2, AsU64;
    PackEarly();
  }

  // ---- Order ----

  function DateKey(d: Date): int
  {
    d.year * 512 + d.month * 32 + d.day
  }

  lemma {:induction false} CountedGrows(m: nat, n: nat)
    requires m <= n
    ensures Counted(m).year <= Counted(n).year
    ensures DateKey(Counted(m)) + (n - m) <= DateKey(Counted(n))
    decreases n - m
  {
    if m < n {
      ValidCounted(n - 1);
      CountedGrows(m, n - 1);
    }
  }

  /** Date word before time word. */
  function Stamp(unixSecs: nat): nat
  {
    DosDateTime(unixSecs).1 * 0x1_0000 + DosDateTime(unixSecs).0
  }

  /** Up to the end of 2107 later seconds never get an earlier stamp. */
  lemma StampNeverDecreases(a: nat, b: nat)
    requires a <= b
    requires Counted(DayOf(b)).year <= CLAMPED_YEAR
    ensures Stamp(a) <= Stamp(b)
  {
    DayParts(a, b);
    DayParts(b, b);
    hide CivilDate, Counted, Pack, DayOf, SecondOfDay;
    var m, n := DayOf(a), DayOf(b);
    CountedGrows(m, n);
    CivilIsCounted(m);
    CivilIsCounted(n);
    ValidCounted(m);
    ValidCounted(n);
    PackGrows(Counted(m), Counted(n), SecondOfDay(a), SecondOfDay(b));
  }

  lemma PackGrows(d: Date, e: Date, s: nat, t: nat)
    requires ValidDate(d) && ValidDate(e) && d.year <= e.year <= CLAMPED_YEAR && s < 86_400 && t < 86_400
    requires DateKey(d) < DateKey(e) || (d == e && s <= t)
    ensures Pack(d, s).1 * 0x1_0000 + Pack(d, s).0 <= Pack(e, t).1 * 0x1_0000 + Pack(e, t).0
  {
    PackEarly();
    hide PackTime, PackDate;
    if e.year >= 1980 {
      PackDateFields(e);
      if d.year >= 1980 {
        PackDateFields(d);
        TimeSplit(s);
        TimeSplit(t);
        PackTimeFields(s / 3600, (s % 3600) / 60, s % 60);
        PackTimeFields(t / 3600, (t % 3600) / 60, t % 60);
        if d == e {
          TimeGrows(s, t);
        }
      }
    }
  }

  /** Minutes and seconds of an hour, as they are packed. */
  function InHour(s: nat): nat
  {
    ((s % 3600) / 60) * 32 + (s % 60) / 2
  }

  lemma InHourIsSmall(s: nat)
    ensures InHour(s) < 2048
  {
    var r := s % 3600;
    assert r / 60 < 60;
  }

  lemma InHourOf(s: nat)
    ensures InHour(s) == ((s % 3600) / 60) * 32 + ((s % 3600) % 60) / 2
  {
    var h, r := s / 3600, s % 3600;
    assert s == 60 * (60 * h + r / 60) + r % 60;
    Remainder60(60 * h + r / 60, r % 60);
  }

  lemma TimeGrows(s: nat, t: nat)
    requires s <= t < 86_400
    ensures (s / 3600) * 2048 + InHour(s) <= (t / 3600) * 2048 + InHour(t)
  {
    var h, k := s / 3600, t / 3600;
    assert h <= k;
    if h == k {
      assert s % 3600 == s - 3600 * h && t % 3600 == t - 3600 * h;
      InHourOf(s);
      InHourOf(t);
      hide InHour;
      HourGrows(s % 3600, t % 3600);
    } else {
      hide InHour;
      InHourIsSmall(s);
      assert h * 2048 + 2048 <= k * 2048;
    }
  }

  lemma HourGrows(s: nat, t: nat)
    requires s <= t < 3600
    ensures (s / 60) * 32 + (s % 60) / 2 <= (t / 60) * 32 + (t % 60) / 2
  {
  }

  // ---- Past 2107 ----

  /** The time word of a second of the day. */
  function TimeKey(s: nat): nat
  {
    (s / 3600) * 2048 + InHour(s)
  }

  lemma TimeKeyIsPacked(s: nat)
    requires s < 86_400
    ensures PackTime(s / 3600, (s % 3600) / 60, s % 60) == TimeKey(s) < 0x1_0000
  {
    TimeSplit(s);
    InHourIsSmall(s);
    PackTimeFields(s / 3600, (s % 3600) / 60, s % 60);
    hide PackTime;
  }

  lemma OddSecond(s: nat)
    requires s % 2 == 1 && s < 86_400
    ensures TimeKey(s) == TimeKey(s - 1)
  {
    var h, r := s / 3600, s % 3600;
    assert s - 1 == 3600 * h + (r - 1) && r > 0;
    assert (s - 1) / 3600 == h && (s - 1) % 3600 == r - 1;
    InHourOf(s);
    InHourOf(s - 1);
    assert r / 60 == (r - 1) / 60 && (r % 60) / 2 == ((r - 1) % 60) / 2;
  }

  lemma EvenSecond(s: nat)
    requires s < 86_400
    ensures TimeKey(s) == TimeKey(2 * (s / 2))
  {
    if s % 2 == 1 {
      OddSecond(s);
      assert 2 * (s / 2) == s - 1;
    } else {
      assert 2 * (s / 2) == s;
    }
  }

  lemma TimeKeyDecodes(s: nat)
    requires s < 86_400
    ensures DecodeTime(TimeKey(s)) == s - s % 2
  {
    TimeRoundTrip(s);
    TimeKeyIsPacked(s);
    hide PackTime, DecodeTime, TimeKey;
  }

  lemma TimeKeyGrows(s: nat, t: nat)
    requires s <= t < 86_400
    ensures TimeKey(s) <= TimeKey(t)
  {
    TimeGrows(s, t);
    hide InHour;
  }

  lemma LaterKey(i: nat, j: nat)
    requires i < j < 43_200
    ensures TimeKey(2 * i) < TimeKey(2 * j)
  {
    hide TimeKey, DecodeTime;
    TimeKeyGrows(2 * i, 2 * j);
    TimeKeyDecodes(2 * i);
    TimeKeyDecodes(2 * j);
    Remainder2(i, 0);
    Remainder2(j, 0);
  }

  /** Time words are ordered as seconds are, two seconds apart. */
  lemma TimeKeyOrder(s: nat, t: nat)
    requires s < 86_400 && t < 86_400
    ensures TimeKey(s) <= TimeKey(t) <==> s / 2 <= t / 2
    ensures TimeKey(s) == TimeKey(t) <==> s / 2 == t / 2
  {
    hide TimeKey;
    EvenSecond(s);
    EvenSecond(t);
    KeyOrder(s / 2, t / 2);
  }

  lemma KeyOrder(i: nat, j: nat)
    requires i < 43_200 && j < 43_200
    ensures TimeKey(2 * i) <= TimeKey(2 * j) <==> i <= j
    ensures TimeKey(2 * i) == TimeKey(2 * j) <==> i == j
  {
    hide TimeKey;
    if i < j {
      LaterKey(i, j);
    } else if j < i {
      LaterKey(j, i);
    }
  }

  /** Month and day as they are packed. */
  function MonthDay(d: Date): int
  {
    d.month * 32 + d.day
  }

  lemma StampFields(d: Date, s: nat)
    requires ValidDate(d) && 1980 <= d.year && s < 86_400
    ensures var (time, date) := Pack(d, s);
            && time == TimeKey(s) < 0x1_0000
            && date == (ClampedYear(d.year) - 1980) * 512 + MonthDay(d)
  {
    TimeKeyIsPacked(s);
    PackDateFields(d.(year := ClampedYear(d.year)));
    hide PackTime, PackDate, TimeKey;
  }

  /** Both stamps have the year 2107. */
  lemma ClampedOrder(d: Date, e: Date, s: nat, t: nat)
    requires ValidDate(d) && ValidDate(e) && d.year >= CLAMPED_YEAR && e.year >= CLAMPED_YEAR
    requires s < 86_400 && t < 86_400
    ensures Pack(d, s).1 * 0x1_0000 + Pack(d, s).0 <= Pack(e, t).1 * 0x1_0000 + Pack(e, t).0
       <==> MonthDay(d) < MonthDay(e) || (MonthDay(d) == MonthDay(e) && s / 2 <= t / 2)
    ensures Pack(d, s) == Pack(e, t) <==> MonthDay(d) == MonthDay(e) && s / 2 == t / 2
  {
    StampFields(d, s);
    StampFields(e, t);
    TimeKeyOrder(s, t);
    hide Pack, TimeKey, MonthDay;
  }

  /** Before the year 2107 every stamp is smaller than from then on. */
  lemma EarlierYearIsSmaller(d: Date, e: Date, s: nat, t: nat)
    requires ValidDate(d) && ValidDate(e) && d.year < CLAMPED_YEAR <= e.year && s < 86_400 && t < 86_400
    ensures Pack(d, s).1 * 0x1_0000 + Pack(d, s).0 <= Pack(e, t).1 * 0x1_0000 + Pack(e, t).0
  {
    StampFields(e, t);
    if d.year >= 1980 {
      StampFields(d, s);
    } else {
      PackEarly();
    }
    hide PackTime, PackDate, TimeKey, BitOr;
  }

  /**
   * For any two times in order, the later one has no earlier stamp if and only if it is at most in 2107, or
   * the earlier one is before 2107, or month, day and second (counted in twos) are in order as well.
   */
  lemma StampsInOrder(a: nat, b: nat)
    requires a <= b
    ensures var d, e := Counted(DayOf(a)), Counted(DayOf(b));
            Stamp(a) <= Stamp(b)
            <==> || e.year <= CLAMPED_YEAR || d.year < CLAMPED_YEAR
                 || MonthDay(d) < MonthDay(e)
                 || (MonthDay(d) == MonthDay(e) && SecondOfDay(a) / 2 <= SecondOfDay(b) / 2)
  {
    DayParts(a, b);
    DayParts(b, b);
    hide CivilDate, Counted, Pack, DayOf, SecondOfDay, MonthDay;
    var d, e := Counted(DayOf(a)), Counted(DayOf(b));
    if e.year <= CLAMPED_YEAR {
      StampNeverDecreases(a, b);
    } else {
      CivilIsCounted(DayOf(a));
      CivilIsCounted(DayOf(b));
      ValidCounted(DayOf(a));
      ValidCounted(DayOf(b));
      if d.year < CLAMPED_YEAR {
        EarlierYearIsSmaller(d, e, SecondOfDay(a), SecondOfDay(b));
      } else {
        ClampedOrder(d, e, SecondOfDay(a), SecondOfDay(b));
      }
    }
  }

  /** The last second of 2107. */
  const LAST_SECOND := 50_403 * 86_400 - 1

  lemma LastSecond()
    ensures DayOf(LAST_SECOND) == 50_402 && SecondOfDay(LAST_SECOND) == 86_399
  {
  }

  /** A later time is clamped, as a whole, to the end of 2107 only in the last two seconds of a year. */
  lemma ClampedOnlyAtYearsEnd(unixSecs: nat)
    requires Counted(DayOf(unixSecs)).year > CLAMPED_YEAR
    ensures var d := Counted(DayOf(unixSecs));
            Stamp(unixSecs) == Stamp(LAST_SECOND)
            <==> d.month == 12 && d.day == 31 && SecondOfDay(unixSecs) >= 86_398
  {
    LastSecond();
    LastDayOf2107();
    DayParts(unixSecs, unixSecs);
    hide CivilDate, Counted, Pack, DayOf, SecondOfDay;
    var n, s := DayOf(unixSecs), SecondOfDay(unixSecs);
    CivilIsCounted(n);
    CivilIsCounted(50_402);
    ValidCounted(n);
    ClampedOrder(Counted(n), Date(2107, 12, 31), s, 86_399);
    WordsFit(unixSecs);
    WordsFit(LAST_SECOND);
    hide ClampedYear, ValidDate;
    DecemberThirtyFirst(Counted(n));
  }

  lemma DecemberThirtyFirst(d: Date)
    requires ValidDate(d)
    ensures MonthDay(d) == MonthDay(Date(2107, 12, 31)) <==> d.month == 12 && d.day == 31
  {
  }

  lemma LastDayOf2107()
    ensures CivilDate(50_402) == Date(2107, 12, 31) && CivilDate(50_403) == Date(2108, 1, 1)
  {
    CivilOfCycle(50_402, 5, 39_385, Cycle(1, 1, 3, 305));
    CivilOfCycle(50_403, 5, 39_386, Cycle(1, 1, 3, 306));
    hide CivilDate;
    assert DateInYear(305, 2107) == Date(2107, 12, 31) && DateInYear(306, 2107) == Date(2108, 1, 1);
  }

  lemma StampAtMidnight(days: nat)
    ensures DosDateTime(days * 86_400) == Pack(CivilDate(days), 0)
  {
    hide CivilDate, Pack;
    assert DayOf(days * 86_400) == days && SecondOfDay(days * 86_400) == 0;
  }

  /** Past 2107 only the year is clamped, so a later time can get an earlier stamp. */
  lemma StampFallsAfter2107()
    ensures Counted(50_403).year == 2108
    ensures Stamp(50_402 * 86_400) > Stamp(50_403 * 86_400)
  {
    CivilIsCounted(50_403);
    LastDayOf2107();
    StampAtMidnight(50_402);
    StampAtMidnight(50_403);
    hide CivilDate, Counted, DosDateTime, PackTime, PackDate;
    PackDateFields(Date(2107, 12, 31));
    PackDateFields(Date(2107, 1, 1));
    PackTimeFields(0, 0, 0);
    assert Pack(Date(2107, 12, 31), 0) == (0, 65_439);
    assert Pack(Date(2108, 1, 1), 0) == (0, 65_057);
  }
}
