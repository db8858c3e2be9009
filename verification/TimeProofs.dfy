/** When a time survives CP56Time2a. */
module TimeProofs {
  import opened Octets
  import opened Time56

  // ---- calendar ----

  lemma MonthFound(leap: bool, doy: nat)
    requires doy < if leap then 366 else 365
    ensures var m := MonthOf(leap, doy);
            1 <= m <= 12 && DaysBefore(leap, m) <= doy < DaysBefore(leap, m) + DaysIn(leap, m)
  {
  }

  lemma YearFound(d: nat)
    requires d < DAYS_2000_TO_2099
    ensures var y := YearOf(d);
            y <= 99 && YearStart(y) <= d < YearStart(y) + if y % 4 == 0 then 366 else 365
  {
    var q, r := d / 1461, d % 1461;
    assert q <= 24;
    var k := if r < 366 then 0 else 1 + (r - 366) / 365;
    assert k <= 3 && (4 * q + k) / 4 == q && (4 * q + k) % 4 == k;
  }

  /** Every second of the hundred years reads as a date, and no two read the same. */
  lemma WallReadsBack(local: int)
    requires 0 <= local < DAYS_2000_TO_2099 * DAY
    ensures WallAt(local).Some? && IsDate(WallAt(local).value) && LocalOf(WallAt(local).value) == local
  {
    var d, s := local / DAY, local % DAY;
    YearFound(d);
    MonthFound(YearOf(d) % 4 == 0, DayOfYear(d));
    ClockReadsBack(s);
    var w := WallAt(local).value;
    assert w.year - 2000 == YearOf(d) && (w.year % 4 == 0) == (YearOf(d) % 4 == 0);
    assert local == d * DAY + s;
  }

  lemma ClockReadsBack(s: nat)
    requires s < DAY
    ensures s / 3600 <= 23 && s % 3600 / 60 <= 59 && s % 60 <= 59
    ensures s / 3600 * 3600 + s % 3600 / 60 * 60 + s % 60 == s
  {
  }

  lemma WallOfDay(d: nat, s: nat)
    requires d < DAYS_2000_TO_2099 && s < DAY
    ensures var y := YearOf(d);
            var m := MonthOf(y % 4 == 0, DayOfYear(d));
            WallAt(d * DAY + s) == Some(Wall(2000 + y, m, Minus(DayOfYear(d), DaysBefore(y % 4
                == 0, m)) + 1, s / 3600, s % 3600 / 60, s % 60))
  {
    DivMod(d, s);
  }

  lemma ClockFound(hour: nat, minute: nat, second: nat)
    requires hour <= 23 && minute <= 59 && second <= 59
    ensures var s := hour * 3600 + minute * 60 + second;
            s < DAY && s / 3600 == hour && s % 3600 / 60 == minute && s % 60 == second
  {
  }

  lemma DayFound(y: nat, month: nat, day: nat)
    requires y <= 99 && 1 <= month <= 12 && 1 <= day <= DaysIn(y % 4 == 0, month)
    ensures var d := YearStart(y) + DaysBefore(y % 4 == 0, month) + day - 1;
            && d < DAYS_2000_TO_2099 && YearOf(d) == y && MonthOf(y % 4 == 0, DayOfYear(d)) == month
            && Minus(DayOfYear(d), DaysBefore(y % 4 == 0, month)) + 1 == day
  {
    DayWithinYear(y % 4 == 0, month, day);
    YearUnique(y, YearStart(y) + DaysBefore(y % 4 == 0, month) + day - 1);
    MonthUnique(y % 4 == 0, month, day);
  }

  /** Every date of the hundred years is the reading of its local second. */
  lemma DateIsRead(w: Wall)
    requires IsDate(w)
    ensures WallAt(LocalOf(w)) == Some(w)
  {
    var y := w.year - 2000;
    DayFound(y, w.month, w.day);
    ClockFound(w.hour, w.minute, w.second);
    var d, s := YearStart(y) + DaysBefore(y % 4 == 0, w.month) + w.day - 1, w.hour * 3600 + w.minute * 60 + w.second;
    ReadAt(w, y, d, s, LocalOf(w));
  }

  lemma ReadAt(w: Wall, y: nat, d: nat, s: nat, local: int)
    requires local == d * DAY + s
    requires w.year == 2000 + y && d < DAYS_2000_TO_2099 && s < DAY && YearOf(d) == y
    requires MonthOf(y % 4 == 0, DayOfYear(d)) == w.month && Minus(DayOfYear(d), DaysBefore(y % 4
        == 0, w.month)) + 1 == w.day
    requires s / 3600 == w.hour && s % 3600 / 60 == w.minute && s % 60 == w.second
    ensures WallAt(local) == Some(w)
  {
    hide WallAt, YearOf, DayOfYear, MonthOf, DaysBefore, Minus;
    WallOfDay(d, s);
  }

  lemma DivMod(d: nat, s: nat)
    requires s < DAY
    ensures (d * DAY + s) / DAY == d && (d * DAY + s) % DAY == s
  {
  }

  lemma DayWithinYear(leap: bool, month: nat, day: nat)
    requires 1 <= month <= 12 && 1 <= day <= DaysIn(leap, month)
    ensures DaysBefore(leap, month) + day - 1 < if leap then 366 else 365
  {
  }

  lemma MonthUnique(leap: bool, month: nat, day: nat)
    requires 1 <= month <= 12 && 1 <= day <= DaysIn(leap, month)
    ensures MonthOf(leap, DaysBefore(leap, month) + day - 1) == month
  {
  }

  lemma YearUnique(y: nat, d: nat)
    requires y <= 99 && YearStart(y) <= d < YearStart(y) + if y % 4 == 0 then 366 else 365
    ensures YearOf(d) == y && d < DAYS_2000_TO_2099
  {
    var r := d - 1461 * (y / 4);
    assert 0 <= r < 1461 && d / 1461 == y / 4 && d % 1461 == r;
  }

  // ---- clocks ----

  /** Whatever the clock shows is a date. */
  ghost predicate ShowsDates(z: Clock) {
    forall u :: z.wall(u).Some? ==> IsDate(z.wall(u).value) && 1 <= z.weekday(u) <= 7
  }

  lemma ZoneShowsDates(offset: int -> int, dst: int -> bool)
    ensures ShowsDates(ClockOf(offset, dst))
  {
    var z := ClockOf(offset, dst);
    forall u | z.wall(u).Some?
      ensures IsDate(z.wall(u).value) && 1 <= z.weekday(u) <= 7
    {
      WallReadsBack(u + offset(u));
    }
  }

  /** In a zone, two seconds read the same only if they are the same local second. */
  lemma SameReadingIsSameLocal(offset: int -> int, dst: int -> bool, a: int, b: int)
    requires WallAt(a + offset(a)).Some?
    ensures SameReading(ClockOf(offset, dst), a, b) <==> a + offset(a) == b + offset(b)
  {
    if SameReading(ClockOf(offset, dst), a, b) {
      OneLocal(a + offset(a), b + offset(b));
    }
  }

  lemma OneLocal(m: int, n: int)
    requires WallAt(m).Some? && WallAt(m) == WallAt(n)
    ensures m == n
  {
    WallReadsBack(m);
    WallReadsBack(n);
  }

  lemma ShownAt(w: Wall, local: int)
    ensures WallAt(local) == Some(w) <==> IsDate(w) && local == LocalOf(w)
  {
    if WallAt(local) == Some(w) {
      WallReadsBack(local);
    }
    if IsDate(w) && local == LocalOf(w) {
      DateIsRead(w);
    }
  }

  /** A zone shows a reading exactly when it is a date and not skipped. */
  lemma ShownExactlyWhen(offset: int -> int, dst: int -> bool, w: Wall, u: int)
    ensures ClockOf(offset, dst).wall(u) == Some(w) <==> IsDate(w) && u + offset(u) == LocalOf(w)
  {
    ShownAt(w, u + offset(u));
  }

  // ---- octets ----

  lemma MilliOctets(msec: nat)
    requires msec < 60000
    ensures MilliOf(Low(msec), Low(msec / 256)) == msec
  {
  }

  lemma MilliParts(ms: nat, second: nat)
    requires ms < 1000 && second <= 59
    ensures var msec := ms + second * 1000; msec < 60000 && msec / 1000 == second && msec % 1000 == ms
  {
  }

  lemma FieldOctets(w: Wall, su: bool, dow: nat)
    requires IsDate(w) && 1 <= dow <= 7
    ensures Low(w.minute) % 64 == w.minute && Low(w.minute) / 128 == 0
    ensures Low(w.hour + if su then 128 else 0) % 32 == w.hour
    ensures (Low(w.hour + if su then 128 else 0) / 128 == 1) == su
    ensures Low(32 * dow + w.day) % 32 == w.day && Low(w.month) % 16 == w.month
    ensures w.year >= 2000 && YearField(Low(w.year - 2000)) == w.year
  {
  }

  /** The octets hold these fields. */
  predicate Holds(b: Bytes, w: Wall, su: bool, msec: nat) {
    && |b| == 7 && MilliOf(b[0], b[1]) == msec && b[2] % 64 == w.minute && b[2] / 128 == 0
    && b[3] % 32 == w.hour && (b[3] / 128 == 1) == su && b[4] % 32 == w.day && b[5] % 16 == w.month
        && YearField(b[6]) == w.year
  }

  function SevenOctets(w: Wall, su: bool, dow: nat, msec: nat): Bytes {
    [Low(msec), Low(msec / 256), Low(w.minute), Low(w.hour + if su then 128 else 0), Low(32 * dow + w.day), Low(w.month),
     if w.year >= 2000 then Low(w.year - 2000) else 0]
  }

  lemma SevenOctetsHold(w: Wall, su: bool, dow: nat, msec: nat)
    requires IsDate(w) && 1 <= dow <= 7 && msec < 60000
    ensures Holds(SevenOctets(w, su, dow, msec), w, su, msec)
  {
    MilliOctets(msec);
    FieldOctets(w, su, dow);
  }

  lemma ReadingIs(b: Bytes, w: Wall, su: bool, msec: nat)
    requires IsDate(w) && Holds(b, w, su, msec) && msec < 60000 && msec / 1000 == w.second
    ensures Reading(b) == Some(w)
  {
    DayAtMost(w.year % 4 == 0, w.month, w.day);
  }

  lemma DayAtMost(leap: bool, month: nat, day: nat)
    requires day <= DaysIn(leap, month)
    ensures day <= 31
  {
  }

  /** The octets of a time carry its reading, its milliseconds and its summer time flag. */
  lemma OctetsCarryReading(z: Clock, t: Instant)
    requires ShowsDates(z) && z.wall(t.sec).Some? && t.nsec < 1_000_000_000
    ensures var b := Cp56(z, t);
            && Reading(b) == z.wall(t.sec)
            && MilliOf(b[0], b[1]) % 1000 == t.nsec / 1_000_000
            && (b[3] / 128 == 1) == z.dst(t.sec)
  {
    var w := z.wall(t.sec).value;
    CarriedOctets(w, z.dst(t.sec), z.weekday(t.sec), t.nsec / 1_000_000, Cp56(z, t));
  }

  lemma CarriedOctets(w: Wall, su: bool, dow: nat, ms: nat, b: Bytes)
    requires IsDate(w) && 1 <= dow <= 7 && ms < 1000 && b == SevenOctets(w, su, dow, ms + w.second * 1000)
    ensures Reading(b) == Some(w) && MilliOf(b[0], b[1]) % 1000 == ms && (b[3] / 128 == 1) == su
  {
    var msec := ms + w.second * 1000;
    MilliParts(ms, w.second);
    SevenOctetsHold(w, su, dow, msec);
    ReadingIs(b, w, su, msec);
  }

  // ---- day of the week ----

  /** The day of the week turns once a day, from Monday 1 to Sunday 7, and is the same all day. */
  lemma WeekdayTurns(local: int, second: nat)
    requires local % DAY + second < DAY
    ensures DayOfWeek(local + DAY) == if DayOfWeek(local) == 7 then 1 else DayOfWeek(local) + 1
    ensures DayOfWeek(local + second) == DayOfWeek(local) && 1 <= DayOfWeek(local) <= 7
  {
    var d, r := local / DAY, local % DAY;
    assert local == DAY * d + r;
    assert (local + DAY) / DAY == d + 1;
    assert (local + second) / DAY == d;
  }

  /** 2019-06-05 was a Wednesday, and 2019-12-15 a Sunday. */
  lemma KnownWeekdays()
    ensures DayOfWeek(LocalOf(Wall(2019, 6, 5, 4, 3, 0))) == 3
    ensures DayOfWeek(LocalOf(Wall(2019, 12, 15, 14, 13, 3))) == 7
  {
  }

  /** The octets carry the day of the week in the three bits above the day. */
  lemma OctetsCarryWeekday(z: Clock, t: Instant)
    requires ShowsDates(z) && z.wall(t.sec).Some? && t.nsec < 1_000_000_000
    ensures Cp56(z, t)[4] / 32 == z.weekday(t.sec)
  {
    hide Low, DaysIn;
    var w := z.wall(t.sec).value;
    DayAtMost(w.year % 4 == 0, w.month, w.day);
    DayOctet(z.weekday(t.sec), w.day);
  }

  lemma DayOctet(dow: nat, day: nat)
    requires dow <= 7 && day <= 31
    ensures Low(32 * dow + day) / 32 == dow
  {
  }

  // ---- round trip ----

  /**
   * Encoding and parsing, whichever instant with that reading time.Date chose: the milliseconds survive, and the
   * second is the one the flag leads to.
   */
  lemma ParseOfEncoding(z: Clock, t: Instant, chosen: int)
    requires ShowsDates(z) && z.wall(t.sec).Some? && t.nsec < 1_000_000_000
    requires DateReturns(z, z.wall(t.sec).value, chosen)
    ensures SameReading(z, chosen, t.sec)
    ensures ParseCp56(z, Cp56(z, t), chosen)
            == Some(Instant(ResolveSummerTime(z, chosen, z.dst(t.sec)), t.nsec / 1_000_000 * 1_000_000))
  {
    OctetsCarryReading(z, t);
  }

  lemma {:induction false} ShiftReads(z: Clock, sec: int, su: bool, i: nat)
    requires i <= |DELTAS|
    ensures var r := ShiftFrom(z, sec, su, i);
            SameReading(z, r, sec) && (r == sec || (z.dst(r) == su && r - sec in DELTAS))
    decreases |DELTAS| - i
  {
    if i < |DELTAS| {
      ShiftReads(z, sec, su, i + 1);
      assert DELTAS[i] in DELTAS;
    }
  }

  lemma {:induction false} ShiftFinds(z: Clock, sec: int, su: bool, i: nat, k: nat)
    requires i <= k < |DELTAS| && z.dst(sec + DELTAS[k]) == su && SameReading(z, sec + DELTAS[k], sec)
    ensures z.dst(ShiftFrom(z, sec, su, i)) == su && ShiftFrom(z, sec, su, i) - sec in DELTAS
    decreases |DELTAS| - i
  {
    assert DELTAS[i] in DELTAS;
    if i < k {
      ShiftFinds(z, sec, su, i + 1, k);
    }
  }

  /** The only instants with this reading are a and b. */
  ghost predicate OnlyReadings(z: Clock, a: int, b: int) {
    forall u :: SameReading(z, u, a) ==> u == a || u == b
  }

  /**
   * A time whose reading has at most one other instant survives, to the millisecond, exactly when
   * time.Date chose it, or chose the other one and the two differ in their flags by a listed shift.
   */
  lemma SurvivesExactlyWhen(z: Clock, t: Instant, chosen: int)
    requires ShowsDates(z) && z.wall(t.sec).Some? && t.nsec < 1_000_000_000
    requires DateReturns(z, z.wall(t.sec).value, chosen) && OnlyReadings(z, t.sec, chosen)
    ensures ParseCp56(z, Cp56(z, t), chosen) == Some(Instant(t.sec, t.nsec / 1_000_000 * 1_000_000))
            <==> chosen == t.sec || (z.dst(chosen) != z.dst(t.sec) && t.sec - chosen in DELTAS)
  {
    ParseOfEncoding(z, t, chosen);
    ShiftReads(z, chosen, z.dst(t.sec), 0);
    var r := ShiftFrom(z, chosen, z.dst(t.sec), 0);
    if z.dst(chosen) != z.dst(t.sec) && t.sec - chosen in DELTAS {
      var k :| 0 <= k < |DELTAS| && DELTAS[k] == t.sec - chosen;
      ShiftFinds(z, chosen, z.dst(t.sec), 0, k);
      assert SameReading(z, r, t.sec);
    }
  }

  /** The clocks in use: two instants with one reading differ in their flags and are a listed shift apart. */
  ghost predicate OrdinaryClock(z: Clock) {
    forall a, b :: z.wall(a).Some? && SameReading(z, a, b) && a != b ==> z.dst(a) != z.dst(b) && a - b in DELTAS
  }

  lemma AtMostTwo(z: Clock, a: int, b: int)
    requires OrdinaryClock(z) && z.wall(a).Some? && SameReading(z, a, b) && a != b
    ensures OnlyReadings(z, a, b)
  {
    forall u | SameReading(z, u, a)
      ensures u == a || u == b
    {
      if u != a && u != b {
        assert SameReading(z, a, u) && SameReading(z, b, u);
      }
    }
  }

  /**
   * In an ordinary zone's clock every time of the hundred years survives to the millisecond, whatever time.Date
   * chose.
   */
  lemma OrdinaryClockRoundTrip(z: Clock, t: Instant, chosen: int)
    requires ShowsDates(z) && z.wall(t.sec).Some? && t.nsec < 1_000_000_000 && DateReturns(z, z.wall(t.sec).value, chosen)
    requires OrdinaryClock(z)
    ensures ParseCp56(z, Cp56(z, t), chosen) == Some(Instant(t.sec, t.nsec / 1_000_000 * 1_000_000))
  {
    if chosen == t.sec {
      ParseOfEncoding(z, t, chosen);
    } else {
      assert z.wall(t.sec) == Some(z.wall(t.sec).value);
      AtMostTwo(z, t.sec, chosen);
      SurvivesExactlyWhen(z, t, chosen);
      assert SameReading(z, t.sec, chosen);
    }
  }

  predicate Encodable(z: Clock, t: Instant) {
    z.wall(t.sec).Some? && t.nsec < 1_000_000_000
  }

  /** The time comes back cut to the millisecond when time.Date chooses this instant. */
  ghost predicate Survives(z: Clock, t: Instant, chosen: int) {
    Encodable(z, t) && DateReturns(z, z.wall(t.sec).value, chosen)
    ==> ParseCp56(z, Cp56(z, t), chosen) == Some(t.(nsec := t.nsec / 1_000_000 * 1_000_000))
  }

  ghost predicate AllSurvive(z: Clock) {
    forall t: Instant, chosen: int :: Survives(z, t, chosen)
  }

  /** Two instants with one reading, of which one survives the choice of the other, differ by flag and listed shift. */
  lemma SurvivorsPaired(z: Clock, a: int, b: int)
    requires ShowsDates(z) && z.wall(a).Some? && SameReading(z, a, b) && a != b && Survives(z, Instant(a, 0), b)
    ensures z.dst(a) != z.dst(b) && a - b in DELTAS
  {
    assert z.wall(b) == Some(z.wall(a).value);
    ParseOfEncoding(z, Instant(a, 0), b);
    ShiftReads(z, b, z.dst(a), 0);
  }

  /** All times of the years 2000 to 2099 survive, whatever time.Date chooses, exactly on an ordinary clock. */
  lemma AllSurviveExactlyOnOrdinaryClocks(z: Clock)
    requires ShowsDates(z)
    ensures AllSurvive(z) <==> OrdinaryClock(z)
  {
    if OrdinaryClock(z) {
      forall t: Instant, chosen: int
        ensures Survives(z, t, chosen)
      {
        if Encodable(z, t) && DateReturns(z, z.wall(t.sec).value, chosen) {
          OrdinaryClockRoundTrip(z, t, chosen);
        }
      }
    }
    if AllSurvive(z) {
      forall a, b | z.wall(a).Some? && SameReading(z, a, b) && a != b
        ensures z.dst(a) != z.dst(b) && a - b in DELTAS
      {
        assert Survives(z, Instant(a, 0), b);
        SurvivorsPaired(z, a, b);
      }
    }
  }

  /** Two instants with one reading and one flag: the earlier is read as the later when time.Date prefers the later. */
  lemma TwinLost(z: Clock, a: int, b: int)
    requires ShowsDates(z) && z.wall(a).Some? && SameReading(z, a, b) && a != b && z.dst(a) == z.dst(b)
    ensures DateReturns(z, z.wall(a).value, b) && ParseCp56(z, Cp56(z, Instant(a, 0)), b) == Some(Instant(b, 0))
    ensures !AllSurvive(z)
  {
    assert z.wall(b) == Some(z.wall(a).value);
    ParseOfEncoding(z, Instant(a, 0), b);
    assert !Survives(z, Instant(a, 0), b);
  }

  // ---- which zones ----

  /** Standard time at one offset, summer time an hour, half an hour or two hours ahead of it. */
  ghost predicate OneOffset(offset: int -> int, dst: int -> bool, std: int, summer: int) {
    (summer == 3600 || summer == 1800 || summer == 7200)
    && forall u :: offset(u) == std + if dst(u) then summer else 0
  }

  lemma ZonePaired(offset: int -> int, dst: int -> bool, std: int, summer: int, a: int, b: int)
    requires OneOffset(offset, dst, std, summer) && a != b
    requires ClockOf(offset, dst).wall(a).Some? && SameReading(ClockOf(offset, dst), a, b)
    ensures dst(a) != dst(b) && a - b in DELTAS
  {
    SameReadingIsSameLocal(offset, dst, a, b);
    ShiftListed(a - b, summer);
  }

  /** Such a zone has an ordinary clock, wherever and however often the clocks are changed. */
  lemma OneOffsetIsOrdinary(offset: int -> int, dst: int -> bool, std: int, summer: int)
    requires OneOffset(offset, dst, std, summer)
    ensures OrdinaryClock(ClockOf(offset, dst))
  {
    forall a, b | ClockOf(offset, dst).wall(a).Some? && SameReading(ClockOf(offset, dst), a, b) && a != b
      ensures dst(a) != dst(b) && a - b in DELTAS
    {
      ZonePaired(offset, dst, std, summer, a, b);
    }
  }

  /** In it every time survives. */
  lemma OneOffsetAllSurvive(offset: int -> int, dst: int -> bool, std: int, summer: int)
    requires OneOffset(offset, dst, std, summer)
    ensures AllSurvive(ClockOf(offset, dst))
  {
    OneOffsetIsOrdinary(offset, dst, std, summer);
    ZoneShowsDates(offset, dst);
    AllSurviveExactlyOnOrdinaryClocks(ClockOf(offset, dst));
  }

  lemma ShiftListed(d: int, summer: int)
    requires summer == 3600 || summer == 1800 || summer == 7200
    ensures d == summer || d == -summer ==> d in DELTAS
  {
    assert DELTAS[0] == -3600 && DELTAS[1] == 3600 && DELTAS[2] == -1800 && DELTAS[3] == 1800;
    assert DELTAS[4] == -7200 && DELTAS[5] == 7200;
  }

  /** A zone that moves its standard time back by an hour loses the hour it repeats. */
  lemma MovedBackLoses(offset: int -> int, dst: int -> bool, at: int)
    requires WallAt(at).Some? && (forall u :: offset(u) == if u < at then 3600 else 0) && (forall u :: !dst(u))
    ensures var z := ClockOf(offset, dst);
            && !AllSurvive(z) && z.wall(at - 3600).Some? && DateReturns(z, z.wall(at - 3600).value, at)
            && ParseCp56(z, Cp56(z, Instant(at - 3600, 0)), at) == Some(Instant(at, 0))
  {
    ZoneShowsDates(offset, dst);
    MovedBackTwins(offset, dst, at);
    TwinLost(ClockOf(offset, dst), at - 3600, at);
  }

  lemma MovedBackTwins(offset: int -> int, dst: int -> bool, at: int)
    requires WallAt(at).Some? && forall u :: offset(u) == if u < at then 3600 else 0
    ensures ClockOf(offset, dst).wall(at - 3600).Some? && SameReading(ClockOf(offset, dst), at - 3600, at)
  {
    assert (at - 3600) + offset(at - 3600) == at == at + offset(at);
  }

  /** Nothing is moved silently: what is accepted reads exactly as the octets say, and its milliseconds are theirs. */
  lemma AcceptedReadsTheSame(z: Clock, b: Bytes, chosen: int)
    requires ParseCp56(z, b, chosen).Some?
    ensures var r := ParseCp56(z, b, chosen).value;
            Reading(b).Some? && z.wall(r.sec) == Reading(b) && r.nsec == MilliOf(b[0], b[1]) % 1000 * 1_000_000
  {
    ShiftReads(z, chosen, b[3] / 128 == 1, 0);
  }

  /** Octets carry a reading exactly when they are seven, not marked invalid, and every field is in its range. */
  lemma CarryExactlyWhen(b: Bytes)
    ensures Reading(b).Some? <==>
              && |b| >= 7 && (b[0] as int) + 256 * (b[1] as int) < 60000 && b[2] < 128 && b[2] % 64 < 60 && b[3] % 32 < 24
              && b[4] % 32 > 0 && 1 <= b[5] % 16 <= 12 && b[6] % 128 < 100
    ensures Reading(b).Some? ==>
              Reading(b).value == Wall(2000 + (b[6] as int) % 128, b[5] % 16, b[4] % 32, b[3] % 32, b[2] % 64,
                                       ((b[0] as int) + 256 * (b[1] as int)) / 1000)
  {
  }

  /** Octets are refused exactly when they carry no reading, or one the clock never shows. */
  lemma RefusedExactlyWhen(z: Clock, b: Bytes, chosen: int)
    requires Reading(b).Some? ==> DateReturns(z, Reading(b).value, chosen)
    ensures ParseCp56(z, b, chosen) == None <==> Reading(b) == None || forall u :: z.wall(u) != Some(Reading(b).value)
  {
  }
}
