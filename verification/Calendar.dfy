/** The wall clock counts seconds by the Gregorian calendar. */
module Calendar {
  import opened Octets
  import opened Time56
  import opened TimeProofs

  predicate Leap(year: nat) {
    year % 4 == 0 && (year % 100 != 0 || year % 400 == 0)
  }

  function MonthLength(year: nat, month: nat): nat {
    if month == 2 then if Leap(year) then 29 else 28
    else if month in {4, 6, 9, 11} then 30 else 31
  }

  /** What a clock shows one second later. */
  function NextSecond(w: Wall): Wall
    requires IsDate(w)
  {
    if w.second < 59 then w.(second := w.second + 1)
    else if w.minute < 59 then w.(minute := w.minute + 1, second := 0)
    else if w.hour < 23 then w.(hour := w.hour + 1, minute := 0, second := 0)
    else NextDay(w).(hour := 0, minute := 0, second := 0)
  }

  function NextDay(w: Wall): Wall
    requires IsDate(w)
  {
    if w.day < MonthLength(w.year, w.month) then w.(day := w.day + 1)
    else if w.month < 12 then w.(month := w.month + 1, day := 1)
    else w.(year := w.year + 1, month := 1, day := 1)
  }

  lemma Lengths(year: nat, month: nat)
    requires 2000 <= year <= 2099 && 1 <= month <= 12
    ensures MonthLength(year, month) == DaysIn(year % 4 == 0, month)
    ensures DaysBefore(year % 4 == 0, month + 1) == DaysBefore(year % 4 == 0, month) + MonthLength(year, month)
    ensures YearStart(year - 1999) == YearStart(year - 2000) + DaysBefore(year % 4 == 0, 13)
    ensures DaysBefore(true, 1) == 0 == DaysBefore(false, 1) && year % 4 == (year - 2000) % 4
  {
  }

  lemma NextIsDate(w: Wall)
    requires IsDate(w) && w != Wall(2099, 12, 31, 23, 59, 59)
    ensures IsDate(NextSecond(w)) && LocalOf(NextSecond(w)) == LocalOf(w) + 1
  {
    hide DaysBefore, YearStart, Leap;
    Lengths(w.year, w.month);
    var leap := w.year % 4 == 0;
    assert LocalOf(w) == (YearStart(w.year - 2000) + DaysBefore(leap, w.month) + w.day - 1) * DAY
                         + w.hour * 3600 + w.minute * 60 + w.second;
  }

  /** The clock starts with the century, and each second it shows what follows by the calendar, until the last one. */
  lemma ClockAdvances(local: nat)
    requires local < DAYS_2000_TO_2099 * DAY
    ensures WallAt(0) == Some(Wall(2000, 1, 1, 0, 0, 0))
    ensures WallAt(local).Some? && IsDate(WallAt(local).value)
    ensures WallAt(local + 1) == if WallAt(local) == Some(Wall(2099, 12, 31, 23, 59, 59)) then None
                                 else Some(NextSecond(WallAt(local).value))
  {
    hide WallAt, LocalOf, IsDate;
    FirstAndLast();
    WallReadsBack(local);
    var w := WallAt(local).value;
    ShownAt(Wall(2000, 1, 1, 0, 0, 0), 0);
    if w == Wall(2099, 12, 31, 23, 59, 59) {
      NoneAfter(local + 1);
    } else {
      NextIsDate(w);
      ShownAt(NextSecond(w), local + 1);
    }
  }

  lemma FirstAndLast()
    ensures IsDate(Wall(2000, 1, 1, 0, 0, 0)) && LocalOf(Wall(2000, 1, 1, 0, 0, 0)) == 0
    ensures LocalOf(Wall(2099, 12, 31, 23, 59, 59)) == DAYS_2000_TO_2099 * DAY - 1
  {
  }

  lemma NoneAfter(local: nat)
    requires local >= DAYS_2000_TO_2099 * DAY
    ensures WallAt(local) == None
  {
  }
}
