/** `js/src/format.ts`: dates and times of numbers of days and milliseconds since 1 January 1960. */
module Calendar {
  import opened Wrappers
  /** A date; months count from 0. */
  datatype Date = Date(year: int, month: int, day: int)

  /** Days either side of 1960 that are dates. */
  const MAX_DAYS: int := 100_000_000
  const ERA: int := 146_097
  const DAY_MS: int := 86_400_000

  // ---------------------------------------------------------------- the calendar, day by day

  predicate Leap(year: int)
  {
    year % 4 == 0 && (year % 100 != 0 || year % 400 == 0)
  }

  function MonthDays(year: int, month: int): int
  {
    if month == 1 then (if Leap(year) then 29 else 28)
    else if month == 3 || month == 5 || month == 8 || month == 10 then 30
    else 31
  }

  predicate Valid(d: Date)
  {
    0 <= d.month < 12 && 1 <= d.day <= MonthDays(d.year, d.month)
  }

  function Tomorrow(d: Date): Date
  {
    if d.day < MonthDays(d.year, d.month) then d.(day := d.day + 1)
    else if d.month < 11 then Date(d.year, d.month + 1, 1)
    else Date(d.year + 1, 0, 1)
  }

  function Yesterday(d: Date): Date
  {
    if d.day > 1 then d.(day := d.day - 1)
    else if d.month > 0 then Date(d.year, d.month - 1, MonthDays(d.year, d.month - 1))
    else Date(d.year - 1, 11, 31)
  }

  /** The day before tomorrow is today. */
  lemma StepsBack(d: Date)
    requires Valid(d)
    ensures Valid(Tomorrow(d)) && Yesterday(Tomorrow(d)) == d
    ensures Valid(Yesterday(d)) && Tomorrow(Yesterday(d)) == d
  {}

  /** The date `days` days on, or back, from 1 January 1960, a day at a time. */
  function Walk(days: int): Date
    decreases if days < 0 then -days else days
  {
    if days == 0 then Date(1960, 0, 1)
    else if days > 0 then Tomorrow(Walk(days - 1))
    else Yesterday(Walk(days + 1))
  }

  // ---------------------------------------------------------------- by arithmetic

  /** The days of a year that starts in March before its month `mp`. */
  function MonthStart(mp: int): int
  {
    (153 * mp + 2) / 5
  }

  /** The date `days` after 1 January 1960, in eras of 400 years that start on 1 March. */
  function Civil(days: int): Date
  {
    var z := days - 3653 + 719_468;
    var era := z / ERA;
    var doe := z - era * ERA;
    var yoe := YearOfEra(doe);
    var doy := doe - (365 * yoe + yoe / 4 - yoe / 100);
    DateIn(yoe + era * 400, doy)
  }

  function YearOfEra(doe: int): int
  {
    (doe - doe / 1460 + doe / 36_524 - doe / 146_096) / 365
  }

  /** The date of day `doy`, from March, of the year from March of `year`. */
  function DateIn(year: int, doy: int): Date
  {
    var mp := (5 * doy + 2) / 153;
    var day := doy - MonthStart(mp) + 1;
    var month := if mp < 10 then mp + 2 else mp - 10;
    Date(year + (if month < 2 then 1 else 0), month, day)
  }

  /** As `Civil`, inside the range of dates only. */
  function CivilInRange(days: int): Option<Date>
  {
    if -MAX_DAYS <= days <= MAX_DAYS then Some(Civil(days)) else None
  }

  /** A place in an era: century, four years of it, year of those, and day of the year from March. */
  datatype Place = Place(c: int, q: int, r: int, doy: int)

  function YearOf(p: Place): int
  {
    100 * p.c + 4 * p.q + p.r
  }

  /** The place is a day: the last day of a year is its 366th only before a leap year's March. */
  predicate IsDay(p: Place)
  {
    && 0 <= p.c < 4 && 0 <= p.q < 25 && 0 <= p.r < 4
    && 0 <= p.doy < if p.r == 3 && (p.q < 24 || p.c == 3) then 366 else 365
  }

  function DayOfEra(p: Place): int
  {
    36_524 * p.c + 1461 * p.q + 365 * p.r + p.doy
  }

  /** Every day of an era has a place. */
  function PlaceOf(doe: int): (p: Place)
    requires 0 <= doe < ERA
    ensures IsDay(p) && DayOfEra(p) == doe
  {
    var c := if doe / 36_524 < 4 then doe / 36_524 else 3;
    var inC := doe - 36_524 * c;
    var q := inC / 1461;
    var inQ := inC - 1461 * q;
    var r := if inQ / 365 < 4 then inQ / 365 else 3;
    Place(c, q, r, inQ - 365 * r)
  }

  /** The year the arithmetic finds is the place's. */
  lemma YearFound(p: Place)
    requires IsDay(p)
    ensures 0 <= DayOfEra(p) < ERA
    ensures YearOfEra(DayOfEra(p)) == YearOf(p)
    ensures var yoe := YearOf(p); 365 * yoe + yoe / 4 - yoe / 100 == DayOfEra(p) - p.doy
  {
    var doe := DayOfEra(p);
    var e := if Late(p) >= 1460 then 1 else 0;
    CenturyFound(p);
    FourFound(p);
    YearStart(p);
    assert doe - doe / 1460 + p.c == 365 * YearOf(p) + (p.doy - e);
    Quotient365(YearOf(p), p.doy - e);
  }

  /** What 1460 days at a time leave of the place's day. */
  function Late(p: Place): int
  {
    24 * p.c + p.q + 365 * p.r + p.doy
  }

  lemma CenturyFound(p: Place)
    requires IsDay(p)
    ensures 0 <= DayOfEra(p) < ERA && DayOfEra(p) / 36_524 - DayOfEra(p) / 146_096 == p.c
  {
    var doe := DayOfEra(p);
    assert 36_524 * p.c <= doe;
    if p.c < 3 {
      assert doe < 36_524 * (p.c + 1);
    }
  }

  lemma FourFound(p: Place)
    requires IsDay(p)
    ensures DayOfEra(p) / 1460 == 25 * p.c + p.q + if Late(p) >= 1460 then 1 else 0
  {
    assert DayOfEra(p) == 1460 * (25 * p.c + p.q) + Late(p);
    Quotient1460(25 * p.c + p.q, Late(p));
  }

  lemma YearStart(p: Place)
    requires IsDay(p)
    ensures YearOf(p) / 4 == 25 * p.c + p.q && YearOf(p) / 100 == p.c
  {
    Mod4(25 * p.c + p.q, p.r);
    Mod100(p.c, 4 * p.q + p.r);
  }

  lemma Quotient365(a: int, b: int)
    requires 0 <= b < 365
    ensures (365 * a + b) / 365 == a
  {}

  lemma Quotient1460(a: int, b: int)
    requires 0 <= b < 2920
    ensures (1460 * a + b) / 1460 == a + if b >= 1460 then 1 else 0
  {}

  lemma Mod4(a: int, b: int)
    ensures (4 * a + b) % 4 == b % 4 && (4 * a + b) / 4 == a + b / 4
  {}

  lemma Mod100(a: int, b: int)
    requires 0 <= b <= 100
    ensures (100 * a + b) % 100 == (if b == 100 then 0 else b) && (b < 100 ==> (100 * a + b) / 100 == a)
  {}

  lemma Mod400(a: int, b: int)
    requires 0 <= b <= 400
    ensures (400 * a + b) % 400 == if b == 400 then 0 else b
  {}

  /** The month the arithmetic finds, and its length. */
  lemma MonthFound(doy: int, mp: int)
    requires 0 <= mp < 12 && MonthStart(mp) <= doy < (if mp < 11 then MonthStart(mp + 1) else 366)
    ensures (5 * doy + 2) / 153 == mp
  {}

  lemma MonthExists(doy: int)
    requires 0 <= doy < 366
    ensures var mp := (5 * doy + 2) / 153; 0 <= mp < 12 && MonthStart(mp) <= doy < if mp < 11 then MonthStart(mp + 1) else 366
  {}

  lemma EraFound(era: int, doe: int)
    requires 0 <= doe < ERA
    ensures (era * ERA + doe) / ERA == era
  {}

  /** Day 0 of era 0 is 1 March of year 0. */
  function DayNumber(era: int, p: Place): int
  {
    era * ERA + DayOfEra(p) + 3653 - 719_468
  }

  lemma CivilAt(era: int, p: Place)
    requires IsDay(p)
    ensures Civil(DayNumber(era, p)) == DateIn(era * 400 + YearOf(p), p.doy)
  {
    hide DateIn, YearOfEra, DayOfEra, YearOf;
    YearFound(p);
    EraFound(era, DayOfEra(p));
  }

  /** Every day has an era and a place in it. */
  lemma DayPlaced(days: int) returns (era: int, p: Place)
    ensures IsDay(p) && days == DayNumber(era, p)
  {
    hide DayOfEra;
    var z := days - 3653 + 719_468;
    era := z / ERA;
    p := PlaceOf(z - era * ERA);
  }

  /** The place a day later. */
  function After(era: int, p: Place): (int, Place)
  {
    if p.doy < 364 || (p.doy == 364 && p.r == 3 && (p.q < 24 || p.c == 3)) then (era, p.(doy := p.doy + 1))
    else if p.r < 3 then (era, Place(p.c, p.q, p.r + 1, 0))
    else if p.q < 24 then (era, Place(p.c, p.q + 1, 0, 0))
    else if p.c < 3 then (era, Place(p.c + 1, 0, 0, 0))
    else (era + 1, Place(0, 0, 0, 0))
  }

  lemma AfterIs(era: int, p: Place)
    requires IsDay(p)
    ensures IsDay(After(era, p).1)
    ensures DayNumber(After(era, p).0, After(era, p).1) == DayNumber(era, p) + 1
  {}

  /** The year from March of `era * 400 + YearOf(p)` ends with 29 February exactly when its place can. */
  lemma LeapAt(era: int, p: Place)
    requires IsDay(p)
    ensures Leap(era * 400 + YearOf(p) + 1) <==> p.r == 3 && (p.q < 24 || p.c == 3)
  {
    Mod4(100 * era + 25 * p.c + p.q, p.r + 1);
    Mod100(4 * era + p.c, 4 * p.q + p.r + 1);
    Mod400(era, YearOf(p) + 1);
  }

  /** The dates of one year from March follow each other. */
  lemma DateSteps(year: int, doy: int)
    requires 0 <= doy < if Leap(year + 1) then 366 else 365
    ensures Valid(DateIn(year, doy))
    ensures Tomorrow(DateIn(year, doy)) == if doy + 1 < (if Leap(year + 1) then 366 else 365) then DateIn(year, doy + 1) else DateIn(year + 1, 0)
  {
    hide Leap;
    MonthExists(doy);
  }

  /** A day on, the arithmetic gives tomorrow's date. */
  lemma CivilSteps(days: int)
    ensures Valid(Civil(days)) && Civil(days + 1) == Tomorrow(Civil(days))
  {
    hide DayNumber, DateIn, Civil, Leap, Tomorrow, Valid;
    var era, p := DayPlaced(days);
    var next := After(era, p);
    AfterIs(era, p);
    CivilAt(era, p);
    CivilAt(next.0, next.1);
    LeapAt(era, p);
    DateSteps(era * 400 + YearOf(p), p.doy);
    YearAfter(era, p);
  }

  /** A day on is in the same year, from March, or on its first day in the next. */
  lemma YearAfter(era: int, p: Place)
    requires IsDay(p)
    ensures var next := After(era, p);
            if next.1.doy == 0 then next.0 * 400 + YearOf(next.1) == era * 400 + YearOf(p) + 1
            else next == (era, p.(doy := p.doy + 1))
  {}

  lemma CivilStarts()
    ensures Civil(0) == Date(1960, 0, 1)
  {}

  /** The arithmetic agrees with the calendar, day by day in both directions. */
  lemma {:induction false} CivilIsWalk(days: int)
    ensures Civil(days) == Walk(days) && Valid(Walk(days))
    decreases if days < 0 then -days else days
  {
    hide Civil, Tomorrow, Yesterday, Valid;
    CivilSteps(days);
    if days == 0 {
      CivilStarts();
    } else if days > 0 {
      CivilIsWalk(days - 1);
      CivilSteps(days - 1);
    } else {
      CivilIsWalk(days + 1);
      StepsBack(Civil(days));
    }
  }

  /** The number of a date's day. */
  function DaysOf(d: Date): int
  {
    var year := d.year - if d.month < 2 then 1 else 0;
    DayNumber(year / 400, PlaceIn(year % 400, MonthStart((d.month + 10) % 12) + d.day - 1))
  }

  function PlaceIn(yoe: int, doy: int): Place
  {
    Place(yoe / 100, yoe % 100 / 4, yoe % 4, doy)
  }

  /** Dates are their months and days of years from March. */
  lemma DateBack(d: Date)
    requires Valid(d)
    ensures var year, doy := d.year - (if d.month < 2 then 1 else 0), MonthStart((d.month + 10) % 12) + d.day - 1;
            DateIn(year, doy) == d && 0 <= doy < if Leap(year + 1) then 366 else 365
  {
    hide Leap;
    MonthFound(MonthStart((d.month + 10) % 12) + d.day - 1, (d.month + 10) % 12);
  }

  /** Every date is that of its number, */
  lemma CivilOnto(d: Date)
    requires Valid(d)
    ensures Civil(DaysOf(d)) == d
  {
    hide Civil, DayNumber, DateIn, Leap, Valid, MonthStart;
    var year, doy := d.year - (if d.month < 2 then 1 else 0), MonthStart((d.month + 10) % 12) + d.day - 1;
    DateBack(d);
    var p := PlaceIn(year % 400, doy);
    assert year / 400 * 400 + YearOf(p) == year;
    LeapAt(year / 400, p.(doy := 0));
    CivilAt(year / 400, p);
  }

  /** and every number is that of its date: dates and days are one to one. */
  lemma CivilInto(days: int)
    ensures Valid(Civil(days)) && DaysOf(Civil(days)) == days
  {
    hide Civil, DayNumber, Leap, Valid, YearOf;
    CivilSteps(days);
    var era, p := DayPlaced(days);
    CivilAt(era, p);
    YearSplit(era, p);
    MonthExists(p.doy);
    DateNumber(era * 400 + YearOf(p), p.doy);
  }

  lemma YearSplit(era: int, p: Place)
    requires IsDay(p)
    ensures (era * 400 + YearOf(p)) / 400 == era && PlaceIn((era * 400 + YearOf(p)) % 400, p.doy) == p
  {
    var y := YearOf(p);
    assert 0 <= y < 400;
    assert (era * 400 + y) / 400 == era && (era * 400 + y) % 400 == y;
    assert y / 100 == p.c && y % 100 == 4 * p.q + p.r;
  }

  lemma DateNumber(year: int, doy: int)
    requires 0 <= doy < 366
    ensures DaysOf(DateIn(year, doy)) == DayNumber(year / 400, PlaceIn(year % 400, doy))
  {
    hide DayNumber, PlaceIn;
    MonthExists(doy);
  }

  /** A number is shown as a date exactly when it is at most 100,000,000 either way. */
  lemma RangeChecked(days: int)
    ensures CivilInRange(days) == if -100_000_000 <= days <= 100_000_000 then Some(Walk(days)) else None
  {
    CivilIsWalk(days);
  }

  // ---------------------------------------------------------------- times and periods

  /** The date and the time of day of a number of milliseconds. */
  method Clock(ms: int) returns (days: int, hour: int, minute: int, second: int)
    ensures 0 <= hour < 24 && 0 <= minute < 60 && 0 <= second < 60
    ensures var shown := days * DAY_MS + hour * 3_600_000 + minute * 60_000 + second * 1000; shown <= ms < shown + 1000
  {
    days := ms / DAY_MS;
    var rest := ms - days * DAY_MS;
    hour := rest / 3_600_000;
    rest := rest - hour * 3_600_000;
    minute := rest / 60_000;
    rest := rest - minute * 60_000;
    second := rest / 1000;
  }

  /** Only one date and time of day is that of a number of milliseconds. */
  lemma ClockUnique(d: int, h: int, m: int, s: int, e: int, i: int, n: int, t: int, ms: int)
    requires 0 <= h < 24 && 0 <= m < 60 && 0 <= s < 60 && 0 <= i < 24 && 0 <= n < 60 && 0 <= t < 60
    requires var shown := d * DAY_MS + h * 3_600_000 + m * 60_000 + s * 1000; shown <= ms < shown + 1000
    requires var shown := e * DAY_MS + i * 3_600_000 + n * 60_000 + t * 1000; shown <= ms < shown + 1000
    ensures (d, h, m, s) == (e, i, n, t)
  {
    assert d == ms / DAY_MS == e;
    var rest := ms - d * DAY_MS;
    assert h == rest / 3_600_000 == i;
    var left := rest - h * 3_600_000;
    assert m == left / 60_000 == n;
  }

  /** JavaScript's remainder, which has the sign of `a`. */
  function Remainder(a: int, b: int): int
    requires b > 0
  {
    if a >= 0 then a % b else -(-a % b)
  }

  /** `((a % b) + b) % b` */
  function Mod(a: int, b: int): int
    requires b > 0
  {
    Remainder(Remainder(a, b) + b, b)
  }

  /** The remainder as JavaScript takes it, and made positive, is the remainder. */
  lemma ModIs(v: int)
    ensures Mod(v, 52) == v % 52 && Mod(v, 12) == v % 12 && Mod(v, 4) == v % 4 && Mod(v, 2) == v % 2
  {
    hide Mod;
    Mod52(v);
    Mod12(v);
    Mod4To(v);
    Mod2(v);
  }

  lemma Mod52(v: int)
    ensures Mod(v, 52) == v % 52
  {}

  lemma Mod12(v: int)
    ensures Mod(v, 12) == v % 12
  {}

  lemma Mod4To(v: int)
    ensures Mod(v, 4) == v % 4
  {}

  lemma Mod2(v: int)
    ensures Mod(v, 2) == v % 2
  {}

  /** A number of weeks from 1960 is its year's and its week; so for months, quarters and half years. */
  lemma PeriodIs(v: int)
    ensures 0 <= Mod(v, 52) < 52 && v == v / 52 * 52 + Mod(v, 52)
    ensures 0 <= Mod(v, 12) < 12 && v == v / 12 * 12 + Mod(v, 12)
    ensures 0 <= Mod(v, 4) < 4 && v == v / 4 * 4 + Mod(v, 4)
    ensures 0 <= Mod(v, 2) < 2 && v == v / 2 * 2 + Mod(v, 2)
  {
    hide Mod;
    ModIs(v);
  }
}
