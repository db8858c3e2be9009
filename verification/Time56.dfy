/**
 * CP56Time2a, section 6.8 of IEC 60870-5-4: seven octets for a wall clock reading of the years 2000
 * to 2099, with a flag that tells summer time from standard time.
 */
module Time56 {
  import opened Octets

  /** Seconds since 2000-01-01 00:00:00 UTC, and nanoseconds. */
  datatype Instant = Instant(sec: int, nsec: nat)

  /** What a clock on the wall shows at every second: the reading, the day of the week, and whether it is summer time. */
  datatype Clock = Clock(wall: int -> Option<Wall>, weekday: int -> nat, dst: int -> bool)

  datatype Wall = Wall(year: int, month: nat, day: nat, hour: nat, minute: nat, second: nat)

  const DAY := 86400
  const DAYS_2000_TO_2099 := 36525

  // ---- calendar ----

  function DaysBefore(leap: bool, month: nat): nat {
    var extra := if leap then 1 else 0;
    if month <= 1 then 0 else if month == 2 then 31 else if month == 3 then 59 + extra else if month == 4 then 90 + extra
    else if month == 5 then 120 + extra else if month == 6 then 151 + extra else if month == 7 then 181 + extra
    else if month == 8 then 212 + extra else if month == 9 then 243 + extra else if month == 10 then 273 + extra
    else if month == 11 then 304 + extra else if month == 12 then 334 + extra else 365 + extra
  }

  function DaysIn(leap: bool, month: nat): nat {
    if month == 2 then if leap then 29 else 28
    else if month == 4 || month == 6 || month == 9 || month == 11 then 30 else 31
  }

  function MonthOf(leap: bool, dayOfYear: nat): nat {
    if dayOfYear < DaysBefore(leap, 2) then 1 else if dayOfYear < DaysBefore(leap, 3) then 2
    else if dayOfYear < DaysBefore(leap, 4) then 3 else if dayOfYear < DaysBefore(leap, 5) then 4
    else if dayOfYear < DaysBefore(leap, 6) then 5 else if dayOfYear < DaysBefore(leap, 7) then 6
    else if dayOfYear < DaysBefore(leap, 8) then 7 else if dayOfYear < DaysBefore(leap, 9) then 8
    else if dayOfYear < DaysBefore(leap, 10) then 9 else if dayOfYear < DaysBefore(leap, 11) then 10
    else if dayOfYear < DaysBefore(leap, 12) then 11 else 12
  }

  /** In these years every fourth one, counting from 2000, has 366 days. */
  function YearOf(d: nat): nat {
    var r := d % 1461;
    4 * (d / 1461) + if r < 366 then 0 else 1 + (r - 366) / 365
  }

  function YearStart(y: nat): nat {
    1461 * (y / 4) + if y % 4 == 0 then 0 else 366 + 365 * (y % 4 - 1)
  }

  /** The wall clock at a local second, as Date and Clock report it; None outside the years 2000 to 2099. */
  function WallAt(local: int): Option<Wall> {
    if local < 0 || local >= DAYS_2000_TO_2099 * DAY then None
    else
      var d, s := local / DAY, local % DAY;
      var y := YearOf(d);
      var doy := DayOfYear(d);
      var m := MonthOf(y % 4 == 0, doy);
      Some(Wall(2000 + y, m, Minus(doy, DaysBefore(y % 4 == 0, m)) + 1, s / 3600, s % 3600 / 60, s % 60))
  }

  function DayOfYear(d: nat): nat {
    Minus(d, YearStart(YearOf(d)))
  }

  function Minus(a: nat, b: nat): nat {
    if a < b then 0 else a - b
  }

  predicate IsDate(w: Wall) {
    && 2000 <= w.year <= 2099 && 1 <= w.month <= 12 && 1 <= w.day <= DaysIn(w.year % 4 == 0, w.month)
    && w.hour <= 23 && w.minute <= 59 && w.second <= 59
  }

  /** The local second of a reading. */
  function LocalOf(w: Wall): int {
    var y := w.year - 2000;
    var day := if y < 0 then 0 else YearStart(y) + DaysBefore(y % 4 == 0, w.month) + w.day - 1;
    day * DAY + w.hour * 3600 + w.minute * 60 + w.second
  }

  // ---- the codec ----

  /** Monday is 1; 2000-01-01 was a Saturday. */
  function DayOfWeek(local: int): nat {
    (local / DAY + 5) % 7 + 1
  }

  /** The clock of a time zone, given by its offset from UTC in seconds and its summer time, at every second. */
  function ClockOf(offset: int -> int, dst: int -> bool): Clock {
    Clock(u => WallAt(u + offset(u)), u => DayOfWeek(u + offset(u)), dst)
  }

  function Cp56(z: Clock, t: Instant): Bytes
    requires z.wall(t.sec).Some? && t.nsec < 1_000_000_000
  {
    var w := z.wall(t.sec).value;
    var msec := t.nsec / 1_000_000 + w.second * 1000;
    [Low(msec), Low(msec / 256), Low(w.minute), Low(w.hour + if z.dst(t.sec) then 128 else 0),
     Low(32 * z.weekday(t.sec) + w.day), Low(w.month), if w.year >= 2000 then Low(w.year - 2000) else 0]
  }

  const DELTAS: seq<int> := [-3600, 3600, -1800, 1800, -7200, 7200]

  predicate SameReading(z: Clock, a: int, b: int) {
    z.wall(a) == z.wall(b)
  }

  /** The first listed shift, from the i-th on, that agrees with the flag and reads the same. */
  function ShiftFrom(z: Clock, sec: int, su: bool, i: nat): int
    requires i <= |DELTAS|
    decreases |DELTAS| - i
  {
    if i == |DELTAS| then sec
    else if z.dst(sec + DELTAS[i]) == su && SameReading(z, sec + DELTAS[i], sec) then sec + DELTAS[i]
    else ShiftFrom(z, sec, su, i + 1)
  }

  function ResolveSummerTime(z: Clock, sec: int, su: bool): int {
    if z.dst(sec) == su then sec else ShiftFrom(z, sec, su, 0)
  }

  /** The search as the program makes it. */
  method Resolve(z: Clock, sec: int, su: bool) returns (r: int)
    ensures r == ResolveSummerTime(z, sec, su)
  {
    if z.dst(sec) == su {
      return sec;
    }
    for i := 0 to |DELTAS|
      invariant ShiftFrom(z, sec, su, i) == ShiftFrom(z, sec, su, 0)
    {
      var alt := sec + DELTAS[i];
      if z.dst(alt) != su {
        continue;
      }
      if z.wall(alt) == z.wall(sec) {
        return alt;
      }
    }
    return sec;
  }

  /** The reading in the octets, when every field is in its range and the reading is not marked invalid. */
  function Reading(b: Bytes): Option<Wall> {
    if |b| < 7 || b[2] / 128 == 1 then None
    else
      var x, year := MilliOf(b[0], b[1]), YearField(b[6]);
      var w := Wall(year, b[5] % 16, b[4] % 32, b[3] % 32, b[2] % 64, x / 1000);
      if x >= 60000 || w.minute > 59 || w.hour > 23 || w.day < 1 || w.month < 1 || w.month > 12 || year > 2099 then None
      else Some(w)
  }

  function MilliOf(lo: nat, hi: nat): nat {
    lo + 256 * hi
  }

  function YearField(b: nat): nat {
    2000 + b % 128
  }

  /**
   * ParseCP56Time2a; chosen is the second time.Date returns for the reading. A reading that time.Date
   * had to move is refused.
   */
  function ParseCp56(z: Clock, b: Bytes, chosen: int): Option<Instant> {
    match Reading(b)
    case None => None
    case Some(w) =>
      if z.wall(chosen) != Some(w) then None
      else Some(Instant(ResolveSummerTime(z, chosen, b[3] / 128 == 1), MilliOf(b[0], b[1]) % 1000 * 1_000_000))
  }

  /** time.Date's promise: an instant with that reading whenever the zone has one, but not which. */
  ghost predicate DateReturns(z: Clock, w: Wall, chosen: int) {
    (exists u :: z.wall(u) == Some(w)) ==> z.wall(chosen) == Some(w)
  }
}
