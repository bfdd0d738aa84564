/** The real-time clock's calendar arithmetic (driver/rtc.c:39-105). */
module Calendar {
  import opened CArithmetic

  const DAY := 86400

  /** driver/rtc.c:69-76; the day of the era is an unsigned 32-bit number. Any month and day is accepted. */
  function DaysFromCivil(year: int, m: nat, d: nat): int {
    var y := if m <= 2 then year - 1 else year;
    var era := Quotient(if y >= 0 then y else y - 399, 400);
    var yoe := y - era * 400;
    var doy := (153 * (if m > 2 then m - 3 else m + 9) + 2) / 5 + d - 1;
    var doe := (yoe * 365 + yoe / 4 - yoe / 100 + doy) % WORD;
    era * 146097 + doe - 719468
  }

  // The Gregorian calendar, one rule at a time.

  predicate IsLeap(y: int) {
    y % 4 == 0 && (y % 100 != 0 || y % 400 == 0)
  }

  function MonthLength(y: int, m: nat): nat {
    if m == 2 then (if IsLeap(y) then 29 else 28)
    else if m == 4 || m == 6 || m == 9 || m == 11 then 30 else 31
  }

  function YearLength(y: int): nat {
    if IsLeap(y) then 366 else 365
  }

  datatype Date = Date(year: int, month: nat, day: nat)

  predicate IsDate(a: Date) {
    1 <= a.month <= 12 && 1 <= a.day <= MonthLength(a.year, a.month)
  }

  function Next(a: Date): (b: Date)
    requires IsDate(a)
    ensures IsDate(b)
  {
    if a.day < MonthLength(a.year, a.month) then a.(day := a.day + 1)
    else if a.month < 12 then Date(a.year, a.month + 1, 1)
    else Date(a.year + 1, 1, 1)
  }

  function Days(a: Date): int
    requires IsDate(a)
  {
    DaysFromCivil(a.year, a.month, a.day)
  }

  /** Days from 1 January 1970 to the start of a year, counted year by year in either direction. */
  function YearsBefore(y: int): int
    decreases if y >= 1970 then y - 1970 else 1970 - y
  {
    if y == 1970 then 0
    else if y > 1970 then YearsBefore(y - 1) + YearLength(y - 1)
    else YearsBefore(y + 1) - YearLength(y)
  }

  function MonthsBefore(y: int, m: nat): nat {
    if m <= 1 then 0 else MonthsBefore(y, m - 1) + MonthLength(y, m - 1)
  }

  function CountedDays(a: Date): int
    requires IsDate(a)
  {
    YearsBefore(a.year) + MonthsBefore(a.year, a.month) + a.day - 1
  }

  /** Day number of 1 March of a year, in closed form. */
  function MarchFirst(y: int): int {
    365 * y + y / 4 - y / 100 + y / 400 - 719468
  }

  /** The era and the year of the era are the quotient and remainder rounded down. */
  lemma {:induction false} EraIsFloor(y: int)
    ensures Quotient(if y >= 0 then y else y - 399, 400) == y / 400
  {
    if y < 0 {
      var q := y / 400;
      assert y == 400 * q + y % 400;
      NegativeFloor(399 - y, -q);
    }
  }

  lemma {:induction false} NegativeFloor(a: nat, q: nat)
    requires 400 * q <= a < 400 * (q + 1)
    ensures a / 400 == q
  {}

  lemma {:induction false} FloorOfSum(era: int, yoe: nat, k: int)
    requires k == 4 || k == 100
    ensures (400 * era + yoe) / k == 400 / k * era + yoe / k
  {
    if k == 4 {
      assert (400 * era + yoe) / 4 == 100 * era + yoe / 4;
    } else {
      assert (400 * era + yoe) / 100 == 4 * era + yoe / 100;
    }
  }

  lemma {:induction false} SmallDay(yoe: nat, doy: nat)
    requires yoe < 400 && doy < 400
    ensures var doe := yoe * 365 + yoe / 4 - yoe / 100 + doy;
            doe % WORD == doe
  {
    assert 0 <= yoe * 365 + yoe / 4 - yoe / 100 + doy < WORD;
  }

  lemma {:induction false} EraSum(y: int, era: int, yoe: nat)
    requires y == 400 * era + yoe && yoe < 400
    ensures era * 146097 + yoe * 365 + yoe / 4 - yoe / 100 - 719468 == MarchFirst(y)
  {
    FloorOfSum(era, yoe, 4);
    FloorOfSum(era, yoe, 100);
    assert y / 400 == era;
  }

  lemma {:induction false} ClosedForm(year: int, m: nat, d: nat)
    requires 1 <= m <= 12 && 1 <= d <= 31
    ensures var y := if m <= 2 then year - 1 else year;
            var doy := (153 * (if m > 2 then m - 3 else m + 9) + 2) / 5 + d - 1;
            DaysFromCivil(year, m, d) == MarchFirst(y) + doy
  {
    hide Quotient;
    var y := if m <= 2 then year - 1 else year;
    var era, yoe := y / 400, y % 400;
    EraIsFloor(y);
    var doy := (153 * (if m > 2 then m - 3 else m + 9) + 2) / 5 + d - 1;
    SmallDay(yoe, doy);
    EraSum(y, era, yoe);
  }

  lemma {:induction false} Steps(y: int)
    ensures (y + 1) / 4 == y / 4 + (if (y + 1) % 4 == 0 then 1 else 0)
    ensures (y + 1) / 100 == y / 100 + (if (y + 1) % 100 == 0 then 1 else 0)
    ensures (y + 1) / 400 == y / 400 + (if (y + 1) % 400 == 0 then 1 else 0)
  {}

  lemma {:induction false} Multiples(y: int)
    ensures y % 400 == 0 ==> y % 100 == 0
    ensures y % 100 == 0 ==> y % 4 == 0
  {
    if y % 400 == 0 {
      var q := y / 400;
      assert y == 100 * (4 * q);
    }
    if y % 100 == 0 {
      var q := y / 100;
      assert y == 4 * (25 * q);
    }
  }

  /** From one 1 March to the next there is a 29 February exactly if the later year is a leap year. */
  lemma {:induction false} MarchToMarch(y: int)
    ensures MarchFirst(y + 1) == MarchFirst(y) + YearLength(y + 1)
  {
    Steps(y);
    Multiples(y + 1);
  }

  /** The month formula adds up the month lengths from March on. */
  lemma {:induction false} MonthFormula(y: int, m: nat)
    requires 3 <= m <= 12
    ensures (153 * (m - 3) + 2) / 5 + MonthLength(y, 2) + 31 == MonthsBefore(y, m)
    decreases m
  {
    if m == 3 {
      assert MonthsBefore(y, 3) == MonthsBefore(y, 2) + MonthLength(y, 2);
      assert MonthsBefore(y, 2) == MonthsBefore(y, 1) + 31;
    } else {
      MonthFormula(y, m - 1);
      hide IsLeap;
    }
  }

  /** 1 January is 306 days after the 1 March before it. */
  lemma {:induction false} JanuaryFirst(y: int)
    ensures YearsBefore(y) == MarchFirst(y - 1) + 306
    decreases if y >= 1970 then y - 1970 else 1970 - y
  {
    hide IsLeap;
    if y > 1970 {
      JanuaryFirst(y - 1);
      MarchToMarch(y - 2);
    } else if y < 1970 {
      JanuaryFirst(y + 1);
      MarchToMarch(y - 1);
    }
  }

  /** The closed form counts the days of the calendar, for every date of every year. */
  lemma {:induction false} DaysAreCounted(a: Date)
    requires IsDate(a)
    ensures Days(a) == CountedDays(a)
  {
    hide IsLeap, MarchFirst, DaysFromCivil;
    ClosedForm(a.year, a.month, a.day);
    JanuaryFirst(a.year);
    if a.month > 2 {
      MonthFormula(a.year, a.month);
      MarchToMarch(a.year - 1);
    } else {
      assert MonthsBefore(a.year, 2) == MonthsBefore(a.year, 1) + 31;
    }
  }

  lemma {:induction false} EpochStartsAtZero()
    ensures Days(Date(1970, 1, 1)) == 0
  {
    DaysAreCounted(Date(1970, 1, 1));
  }

  lemma {:induction false} NextYear(y: int)
    ensures YearsBefore(y + 1) == YearsBefore(y) + YearLength(y)
    ensures MonthsBefore(y, 12) + 31 == YearLength(y)
  {
    MonthFormula(y, 12);
  }

  /** Each date is one more than the one before it. */
  lemma {:induction false} NextDayIsOneMore(a: Date)
    requires IsDate(a)
    ensures Days(Next(a)) == Days(a) + 1
  {
    hide IsLeap, MonthLength, YearLength, YearsBefore, Days;
    DaysAreCounted(a);
    DaysAreCounted(Next(a));
    NextYear(a.year);
    assert MonthLength(a.year, 12) == 31 by {
      December(a.year);
    }
  }

  lemma {:induction false} December(y: int)
    ensures MonthLength(y, 12) == 31
  {}

  predicate Before(a: Date, b: Date) {
    a.year < b.year || (a.year == b.year && (a.month < b.month || (a.month == b.month && a.day < b.day)))
  }

  lemma {:induction false} MonthsGrow(y: int, m: nat, n: nat)
    requires 1 <= m < n <= 13
    ensures MonthsBefore(y, m) + MonthLength(y, m) <= MonthsBefore(y, n)
    decreases n
  {
    if m + 1 < n {
      MonthsGrow(y, m, n - 1);
    }
  }

  lemma {:induction false} YearsGrow(y: int, z: int)
    requires y < z
    ensures YearsBefore(y) + YearLength(y) <= YearsBefore(z)
    decreases z - y
  {
    NextYear(z - 1);
    if y + 1 < z {
      YearsGrow(y, z - 1);
    }
  }

  lemma {:induction false} WithinYear(a: Date)
    requires IsDate(a)
    ensures YearsBefore(a.year) <= CountedDays(a) < YearsBefore(a.year) + YearLength(a.year)
  {
    NextYear(a.year);
    if a.month < 12 {
      MonthsGrow(a.year, a.month, 12);
    }
  }

  /** Later dates have larger numbers, and equal numbers mean equal dates. */
  lemma {:induction false} DaysFollowTheCalendar(a: Date, b: Date)
    requires IsDate(a) && IsDate(b)
    ensures Before(a, b) <==> Days(a) < Days(b)
    ensures a == b <==> Days(a) == Days(b)
  {
    hide DaysFromCivil, IsLeap;
    if Before(a, b) {
      LaterIsLarger(a, b);
    } else if Before(b, a) {
      LaterIsLarger(b, a);
    }
  }

  lemma {:induction false} LaterIsLarger(a: Date, b: Date)
    requires IsDate(a) && IsDate(b) && Before(a, b)
    ensures Days(a) < Days(b)
  {
    DaysAreCounted(a);
    DaysAreCounted(b);
    hide DaysFromCivil, IsLeap;
    if a.year < b.year {
      WithinYear(a);
      WithinYear(b);
      YearsGrow(a.year, b.year);
    } else if a.month < b.month {
      MonthsGrow(a.year, a.month, b.month);
    }
  }

  // The chip's registers.

  /** driver/rtc.c:39-41. */
  function BcdToBin(v: Byte): Byte {
    (v % 16 + v / 16 * 10) % 256
  }

  function BinToBcd(n: nat): Byte
    requires n < 100
  {
    n / 10 * 16 + n % 10
  }

  lemma {:induction false} BcdRoundTrip(n: nat, v: Byte)
    ensures n < 100 ==> BcdToBin(BinToBcd(n)) == n
    ensures v % 16 < 10 && v / 16 < 10 ==> BcdToBin(v) < 100 && BinToBcd(BcdToBin(v)) == v
  {
    hide BcdToBin, BinToBcd;
    if n < 100 {
      FromDigits(n / 10, n % 10);
    }
    if v % 16 < 10 && v / 16 < 10 {
      FromDigits(v / 16, v % 16);
    }
  }

  lemma {:induction false} FromDigits(high: nat, low: nat)
    requires high < 10 && low < 10
    ensures BcdToBin(high * 16 + low) == high * 10 + low
    ensures BinToBcd(high * 10 + low) == high * 16 + low
  {
    assert (high * 16 + low) / 16 == high && (high * 16 + low) % 16 == low;
    assert (high * 10 + low) / 10 == high && (high * 10 + low) % 10 == low;
  }

  /** One consistent reading of the six registers. */
  datatype Registers = Registers(year: Byte, month: Byte, day: Byte, hour: Byte, minute: Byte, second: Byte)

  datatype Moment = Moment(date: Date, hour: nat, minute: nat, second: nat)

  predicate IsMoment(t: Moment) {
    && IsDate(t.date) && 2000 <= t.date.year < 2100
    && t.hour < 24 && t.minute < 60 && t.second < 60
  }

  function Shown(t: Moment): Registers
    requires IsMoment(t)
  {
    Registers(BinToBcd(t.date.year - 2000), BinToBcd(t.date.month), BinToBcd(t.date.day),
              BinToBcd(t.hour), BinToBcd(t.minute), BinToBcd(t.second))
  }

  /** driver/rtc.c:89-96, in 32-bit arithmetic. */
  function Epoch(r: Registers): (e: nat)
    ensures e < WORD
  {
    EpochOf(DaysFromCivil(2000 + BcdToBin(r.year), BcdToBin(r.month), BcdToBin(r.day)),
            BcdToBin(r.hour), BcdToBin(r.minute), BcdToBin(r.second))
  }

  function EpochOf(days: int, hour: nat, minute: nat, second: nat): nat {
    (days % WORD * DAY + hour * 3600 + minute * 60 + second) % WORD
  }

  lemma {:induction false} EpochFits(days: nat, hour: nat, minute: nat, second: nat)
    requires days < 47482 && hour < 24 && minute < 60 && second < 60
    ensures EpochOf(days, hour, minute, second) == days * DAY + hour * 3600 + minute * 60 + second
  {
    assert days % WORD == days;
    assert days * DAY + hour * 3600 + minute * 60 + second < WORD;
  }

  function Seconds(t: Moment): int
    requires IsMoment(t)
  {
    CountedDays(t.date) * DAY + t.hour * 3600 + t.minute * 60 + t.second
  }

  lemma {:induction false} YearRange(a: Date)
    requires IsDate(a) && 2000 <= a.year < 2100
    ensures 10957 <= CountedDays(a) < 47482
  {
    JanuaryFirst(a.year);
    WithinYear(a);
    assert YearsBefore(a.year) + YearLength(a.year) == YearsBefore(a.year + 1) by {
      NextYear(a.year);
    }
    JanuaryFirst(a.year + 1);
    hide IsDate, CountedDays;
  }

  /** From 2000 to 2099 the 32-bit clock is the number of seconds since 1970: it never wraps. */
  lemma {:induction false} EpochIsExact(t: Moment)
    requires IsMoment(t)
    ensures Epoch(Shown(t)) == Seconds(t) < WORD
  {
    hide BcdToBin, BinToBcd, DaysFromCivil, CountedDays, IsLeap, EpochOf;
    BcdRoundTrip(t.date.year - 2000, 0);
    BcdRoundTrip(t.date.month, 0);
    BcdRoundTrip(t.date.day, 0);
    BcdRoundTrip(t.hour, 0);
    BcdRoundTrip(t.minute, 0);
    BcdRoundTrip(t.second, 0);
    DaysAreCounted(t.date);
    YearRange(t.date);
    EpochFits(CountedDays(t.date), t.hour, t.minute, t.second);
  }

  predicate Earlier(s: Moment, t: Moment) {
    Before(s.date, t.date)
    || (s.date == t.date && (s.hour < t.hour || (s.hour == t.hour && (s.minute < t.minute
        || (s.minute == t.minute && s.second < t.second)))))
  }

  /** The clock never stands still or runs backwards between two readings at different times. */
  lemma {:induction false} EpochIsMonotone(s: Moment, t: Moment)
    requires IsMoment(s) && IsMoment(t) && Earlier(s, t)
    ensures Seconds(s) < Seconds(t) && Epoch(Shown(s)) < Epoch(Shown(t))
  {
    hide CountedDays, DaysFromCivil, IsLeap, Epoch, Shown;
    EpochIsExact(s);
    EpochIsExact(t);
    if Before(s.date, t.date) {
      DaysAreCounted(s.date);
      DaysAreCounted(t.date);
      LaterIsLarger(s.date, t.date);
    }
  }

  /** The time one second later. */
  function NextSecond(t: Moment): (t': Moment)
    requires IsDate(t.date)
  {
    if t.second < 59 then t.(second := t.second + 1)
    else if t.minute < 59 then t.(minute := t.minute + 1, second := 0)
    else if t.hour < 23 then t.(hour := t.hour + 1, minute := 0, second := 0)
    else Moment(Next(t.date), 0, 0, 0)
  }

  /** The year 2000 begins at 946684800, and from one second to the next the clock goes up by one. */
  lemma {:induction false} EpochTicks(t: Moment)
    requires IsMoment(t) && IsMoment(NextSecond(t))
    ensures Epoch(Shown(NextSecond(t))) == Epoch(Shown(t)) + 1
    ensures IsMoment(Moment(Date(2000, 1, 1), 0, 0, 0)) && Epoch(Shown(Moment(Date(2000, 1, 1), 0, 0, 0))) == 946684800
  {
    hide CountedDays, DaysFromCivil, Epoch, Shown, IsLeap;
    var start := Moment(Date(2000, 1, 1), 0, 0, 0);
    EpochIsExact(t);
    EpochIsExact(NextSecond(t));
    NextDayIsOneMore(t.date);
    DaysAreCounted(t.date);
    DaysAreCounted(Next(t.date));
    DaysOf2000();
    assert IsMoment(start);
    EpochIsExact(start);
    DaysAreCounted(start.date);
  }

  lemma {:induction false} DaysOf2000()
    ensures DaysFromCivil(2000, 1, 1) == 10957
  {}

  class Clock {
    var bootEpoch: nat
    var bootEpochSet: bool

    constructor ()
      ensures bootEpoch == 0 && !bootEpochSet
    {
      bootEpoch, bootEpochSet := 0, false;
    }

    /** driver/rtc.c:83-86. */
    method Init(now: Moment)
      requires IsMoment(now)
      modifies this
      ensures bootEpochSet && bootEpoch == Seconds(now)
    {
      EpochIsExact(now);
      bootEpoch, bootEpochSet := Epoch(Shown(now)), true;
    }

    /** driver/rtc.c:99-105, in wrapping 32-bit arithmetic. */
    method GetUptime(now: Moment) returns (uptime: nat)
      requires IsMoment(now)
      requires bootEpochSet ==> bootEpoch < WORD
      modifies this
      ensures bootEpochSet && bootEpoch == if old(bootEpochSet) then old(bootEpoch) else Seconds(now)
      ensures bootEpoch <= Seconds(now) ==> uptime == Seconds(now) - bootEpoch
    {
      hide Epoch, Seconds, Shown;
      EpochIsExact(now);
      if !bootEpochSet {
        bootEpoch, bootEpochSet := Epoch(Shown(now)), true;
      }
      uptime := Wrapped(Epoch(Shown(now)) - bootEpoch);
    }
  }

  function Wrapped(x: int): (r: nat)
    ensures r < WORD && (0 <= x < WORD ==> r == x)
  {
    x % WORD
  }
}
