/**
 Hourly log rotation (logger/file_appender.cc): files are named by a yyyymmddhh
 suffix and history is trimmed by comparing suffixes as plain numbers.
 */
module LogRotation {

  // ---- Calendar hours ----

  predicate Leap(year: nat) {
    year % 4 == 0 && (year % 100 != 0 || year % 400 == 0)
  }

  function DaysIn(year: nat, month: nat): (d: nat)
    requires 1 <= month <= 12
    ensures 28 <= d <= 31
  {
    if month == 2 then (if Leap(year) then 29 else 28)
    else if month in {4, 6, 9, 11} then 30
    else 31
  }

  /** A civil hour, as localtime_r fills it in; no daylight shift. */
  datatype Hour = Hour(year: nat, month: nat, day: nat, hour: nat) {
    predicate Ok() {
      1 <= month <= 12 && 1 <= day <= DaysIn(year, month) && hour < 24
    }

    /** GenHourSuffix. */
    function Suffix(): int {
      hour + day * 100 + month * 10000 + year * 1000000
    }

    predicate SameDay(h: Hour) {
      year == h.year && month == h.month && day == h.day
    }

    /** Earlier on the calendar. */
    predicate Before(h: Hour) {
      || year < h.year
      || (year == h.year && month < h.month)
      || (year == h.year && month == h.month && day < h.day)
      || (SameDay(h) && hour < h.hour)
    }

    function Next(): (h: Hour)
      requires Ok()
      ensures h.Ok() && Before(h)
    {
      if hour < 23 then this.(hour := hour + 1)
      else if day < DaysIn(year, month) then this.(day := day + 1, hour := 0)
      else if month < 12 then Hour(year, month + 1, 1, 0)
      else Hour(year + 1, 1, 1, 0)
    }
  }

  /** Suffixes are in calendar order, so the file names are too. */
  lemma SuffixOrder(a: Hour, b: Hour)
    requires a.Ok() && b.Ok()
    ensures a.Before(b) <==> a.Suffix() < b.Suffix()
    ensures a == b <==> a.Suffix() == b.Suffix()
  {
  }

  /** The suffix reads yyyymmddhh: year, month, day and hour come back by division. */
  lemma SuffixReadsBack(h: Hour)
    requires h.Ok()
    ensures var s := h.Suffix();
      s % 100 == h.hour && s / 100 % 100 == h.day && s / 10000 % 100 == h.month && s / 1000000 == h.year
  {
    var s := h.Suffix();
    assert s / 100 == h.day + h.month * 100 + h.year * 10000;
    assert s / 10000 == h.month + h.year * 100;
  }

  /** Nothing lies between an hour and the next one. */
  lemma NextIsNext(a: Hour, b: Hour)
    requires a.Ok() && b.Ok() && a.Before(b)
    ensures a.Next() == b || a.Next().Before(b)
  {
  }

  /** Within a day the suffix counts hours; a change of day jumps by at least 77. */
  lemma NextSuffix(a: Hour)
    requires a.Ok()
    ensures a.SameDay(a.Next()) ==> a.Next().Suffix() == a.Suffix() + 1
    ensures !a.SameDay(a.Next()) ==> a.Next().Suffix() >= a.Suffix() + 77
  {
  }

  /** The number of hours from a to b on the calendar. */
  ghost function HoursBetween(a: Hour, b: Hour): nat
    requires a.Ok() && b.Ok() && (a == b || a.Before(b))
    decreases b.Suffix() - a.Suffix()
  {
    if a == b then 0
    else
      SuffixOrder(a, b);
      SuffixOrder(a, a.Next());
      NextIsNext(a, b);
      SuffixOrder(a.Next(), b);
      1 + HoursBetween(a.Next(), b)
  }

  /** The gap between two suffixes is at least their distance in hours, and equals it only within a day. */
  lemma {:induction false} GapAtLeastHours(a: Hour, b: Hour)
    requires a.Ok() && b.Ok() && (a == b || a.Before(b))
    ensures a.SameDay(b) ==> b.Suffix() - a.Suffix() == HoursBetween(a, b)
    ensures !a.SameDay(b) ==> b.Suffix() - a.Suffix() >= HoursBetween(a, b) + 76
    decreases b.Suffix() - a.Suffix()
  {
    if a != b {
      SuffixOrder(a, b);
      SuffixOrder(a, a.Next());
      SuffixOrder(a.Next(), b);
      NextIsNext(a, b);
      NextSuffix(a);
      GapAtLeastHours(a.Next(), b);
    }
  }

  /** The test of DeleteOverdueFile. */
  predicate Overdue(suffix: int, nowSuffix: int, retain: int) {
    nowSuffix > suffix + retain
  }

  ghost function NotOverdue(suffixes: set<int>, nowSuffix: int, retain: int): set<int> {
    set s | s in suffixes && !Overdue(s, nowSuffix, retain)
  }

  /** The same test on the hours behind the suffixes. */
  predicate Kept(h: Hour, now: Hour, retain: int) {
    !Overdue(h.Suffix(), now.Suffix(), retain)
  }

  /** A kept file is never older than the retention time. */
  lemma KeptIsYoung(h: Hour, now: Hour, retain: int)
    requires h.Ok() && now.Ok() && (h == now || h.Before(now)) && Kept(h, now, retain)
    ensures HoursBetween(h, now) <= retain
  {
    GapAtLeastHours(h, now);
  }

  // ---- How far suffixes and hours drift apart ----

  function DaysBeforeYear(year: nat): nat {
    if year == 0 then 0 else DaysBeforeYear(year - 1) + (if Leap(year - 1) then 366 else 365)
  }

  function DaysBeforeMonth(year: nat, month: nat): nat
    requires 1 <= month <= 12
  {
    if month == 1 then 0 else DaysBeforeMonth(year, month - 1) + DaysIn(year, month - 1)
  }

  /** Days on the calendar before the month of h. */
  function DaysBefore(h: Hour): nat
    requires h.Ok()
  {
    DaysBeforeYear(h.year) + DaysBeforeMonth(h.year, h.month)
  }

  lemma MonthOneMore(year: nat, month: nat)
    requires 1 <= month < 12
    ensures DaysBeforeMonth(year, month + 1) == DaysBeforeMonth(year, month) + DaysIn(year, month)
  {
  }

  lemma YearHasAllMonths(year: nat)
    ensures DaysBeforeMonth(year, 1) == 0
    ensures DaysBeforeYear(year + 1) == DaysBeforeYear(year) + DaysBeforeMonth(year, 12) + 31
  {
    var february := DaysIn(year, 2);
    MonthOneMore(year, 1);
    MonthOneMore(year, 2);
    assert DaysBeforeMonth(year, 3) == february + 31;
    MonthOneMore(year, 3);
    MonthOneMore(year, 4);
    MonthOneMore(year, 5);
    assert DaysBeforeMonth(year, 6) == february + 123;
    MonthOneMore(year, 6);
    MonthOneMore(year, 7);
    MonthOneMore(year, 8);
    assert DaysBeforeMonth(year, 9) == february + 215;
    MonthOneMore(year, 9);
    MonthOneMore(year, 10);
    MonthOneMore(year, 11);
    assert DaysBeforeMonth(year, 12) == february + 306;
  }

  lemma NextDay(a: Hour)
    requires a.Ok()
    ensures var b := a.Next();
      if a.SameDay(b) then DaysBefore(b) == DaysBefore(a) && b.hour == a.hour + 1
      else DaysBefore(b) + b.day == DaysBefore(a) + a.day + 1 && b.hour == 0 && a.hour == 23
  {
    hide DaysBeforeMonth, DaysBeforeYear, Leap;
    YearHasAllMonths(a.year);
    YearHasAllMonths(a.year + 1);
    if a.month < 12 {
      MonthOneMore(a.year, a.month);
    }
  }

  lemma {:induction false} HoursFromDates(a: Hour, b: Hour)
    requires a.Ok() && b.Ok() && (a == b || a.Before(b))
    ensures HoursBetween(a, b) == (DaysBefore(b) + b.day - DaysBefore(a) - a.day) * 24 + b.hour - a.hour
    decreases b.Suffix() - a.Suffix()
  {
    hide DaysBefore;
    if a != b {
      SuffixOrder(a, b);
      SuffixOrder(a, a.Next());
      SuffixOrder(a.Next(), b);
      NextIsNext(a, b);
      NextDay(a);
      HoursFromDates(a.Next(), b);
    }
  }

  /** By how much the suffix outruns the hours at the start of the month of h. */
  function MonthOffset(h: Hour): int
    requires h.Ok()
  {
    h.month * 10000 + h.year * 1000000 - DaysBefore(h) * 24
  }

  /** The drift between two hours: 76 for each day, and the jumps of the months between them. */
  function Drift(a: Hour, b: Hour): int
    requires a.Ok() && b.Ok()
  {
    (b.day - a.day) * 76 + MonthOffset(b) - MonthOffset(a)
  }

  /** Suffixes differ by the hours between them and the drift; each new month adds at least 6976 to it. */
  lemma GapIsHoursAndDrift(a: Hour, b: Hour)
    requires a.Ok() && b.Ok() && (a == b || a.Before(b))
    ensures b.Suffix() - a.Suffix() == HoursBetween(a, b) + Drift(a, b)
    ensures a.year == b.year && a.month == b.month ==> Drift(a, b) == (b.day - a.day) * 76
    ensures a.SameDay(b) <==> Drift(a, b) == 0
    ensures Drift(a, b) >= 0
    ensures a.year != b.year || a.month != b.month ==> Drift(a, b) >= 6976
  {
    HoursFromDates(a, b);
    GapAtLeastHours(a, b);
    if a.year != b.year || a.month != b.month {
      MonthsJump(a, b);
    }
  }

  lemma {:induction false} MonthsJump(a: Hour, b: Hour)
    requires a.Ok() && b.Ok() && (a.year < b.year || (a.year == b.year && a.month < b.month))
    ensures MonthOffset(b) - MonthOffset(a) >= 9256
    decreases b.year - a.year, b.month - a.month + 12
  {
    hide DaysBeforeMonth, DaysBeforeYear, Leap;
    YearHasAllMonths(a.year);
    YearHasAllMonths(a.year + 1);
    if a.month < 12 {
      MonthOneMore(a.year, a.month);
    }
    var next := if a.month < 12 then Hour(a.year, a.month + 1, 1, 0) else Hour(a.year + 1, 1, 1, 0);
    assert MonthOffset(next) - MonthOffset(a) >= 9256;
    if next.year != b.year || next.month != b.month {
      MonthsJump(next, b);
    }
  }

  /**
   For every retention time: the code agrees with "delete what is older than retain hours"
   if and only if the file is that old, or the drift up to now still fits in what is left of
   its time. Within a month the drift is 76 for every midnight passed.
   */
  lemma RetentionExact(h: Hour, now: Hour, retain: int)
    requires h.Ok() && now.Ok() && (h == now || h.Before(now))
    ensures (Kept(h, now, retain) <==> HoursBetween(h, now) <= retain) <==>
      HoursBetween(h, now) > retain || Drift(h, now) <= retain - HoursBetween(h, now)
    ensures h.year == now.year && h.month == now.month ==>
      ((Kept(h, now, retain) <==> HoursBetween(h, now) <= retain) <==>
       HoursBetween(h, now) > retain || (now.day - h.day) * 76 <= retain - HoursBetween(h, now))
  {
    GapIsHoursAndDrift(h, now);
  }

  lemma {:induction false} YearsAreShort(year: nat, k: nat)
    ensures DaysBeforeYear(year + k) <= DaysBeforeYear(year) + k * 366
  {
    if k > 0 {
      YearsAreShort(year, k - 1);
    }
  }

  /** No retention time is safe: each loses some file that is young enough to keep. */
  lemma EveryRetentionLosesYoungFiles(retain: int)
    requires retain > 0
    ensures exists h: Hour, now: Hour ::
      h.Ok() && now.Ok() && h.Before(now) && HoursBetween(h, now) <= retain && !Kept(h, now, retain)
  {
    var h, now;
    if retain < 8784 {
      h, now := Hour(2022, 12, 31, 23), Hour(2023, 1, 1, 0);
      assert h.Next() == now && HoursBetween(now, now) == 0;
    } else {
      var k := retain / 8784;
      h, now := Hour(2022, 1, 1, 0), Hour(2022 + k, 1, 1, 0);
      YearsAreShort(2022, k);
      HoursFromDates(h, now);
    }
    assert h.Ok() && now.Ok() && h.Before(now) && HoursBetween(h, now) <= retain && !Kept(h, now, retain);
  }

  /** One hour old, 24 hours of retention, deleted at midnight. */
  lemma MidnightDeletesYoungFile()
    ensures var h, now := Hour(2022, 4, 2, 23), Hour(2022, 4, 3, 0);
      && h.Ok() && now.Ok() && h.Next() == now && h.Before(now)
      && HoursBetween(h, now) == 1 && !Kept(h, now, 24)
  {
    var h, now := Hour(2022, 4, 2, 23), Hour(2022, 4, 3, 0);
    assert DaysIn(2022, 4) == 30;
    assert h.Next() == now;
    assert HoursBetween(now, now) == 0;
  }

  // ---- The appender ----

  class FileAppender {
    const retainHours: int
    const isCut: bool
    var lastHourSuffix: int
    var historyFiles: set<int>
    ghost var lastHour: Hour
    ghost var history: set<Hour>

    /** Every remembered file is an earlier hour, at most retainHours before the last rotation. */
    ghost predicate Valid()
      reads this
    {
      && lastHour.Ok() && lastHourSuffix == lastHour.Suffix()
      && historyFiles == (set h | h in history :: h.Suffix())
      && (forall h | h in history :: h.Ok() && h.Before(lastHour) && HoursBetween(h, lastHour) <= retainHours)
      && (retainHours <= 0 ==> history == {})
    }

    constructor (retain: int, cut: bool, now: Hour)
      requires now.Ok()
      ensures Valid() && retainHours == retain && isCut == cut && lastHour == now && history == {}
    {
      retainHours, isCut := retain, cut;
      lastHourSuffix, lastHour := now.Suffix(), now;
      historyFiles, history := {}, {};
    }

    /** Rotates when the hour has advanced; returns the suffixes of the files removed. */
    method CutIfNeed(now: Hour) returns (removed: set<int>)
      requires Valid() && now.Ok()
      modifies this
      ensures Valid()
      ensures isCut && old(lastHour).Before(now) ==>
        && lastHour == now
        && (retainHours > 0 ==> history == set h | h in old(history) + {old(lastHour)} && Kept(h, now, retainHours))
      ensures !(isCut && old(lastHour).Before(now)) ==>
        lastHour == old(lastHour) && history == old(history) && removed == {}
      ensures removed == if retainHours > 0 && isCut && old(lastHour).Before(now)
                         then old(historyFiles) + {old(lastHourSuffix)} - historyFiles else {}
    {
      removed := {};
      if !isCut {
        return;
      }
      var nowHourSuffix := now.Suffix();
      SuffixOrder(lastHour, now);
      if nowHourSuffix > lastHourSuffix {
        if retainHours > 0 {
          historyFiles := historyFiles + {lastHourSuffix};
          ghost var all := history + {lastHour};
          SuffixSetOneMore(history, lastHour);
          removed := DeleteOverdueFile(nowHourSuffix);
          history := set h | h in all && Kept(h, now, retainHours);
          KeptSuffixes(all, now, retainHours);
          KeptAreYoung(all, lastHour, now, retainHours);
        }
        lastHourSuffix, lastHour := nowHourSuffix, now;
      }
    }

    /** Erases the overdue suffixes from the history, one by one. */
    method DeleteOverdueFile(nowHourSuffix: int) returns (removed: set<int>)
      requires retainHours > 0
      modifies `historyFiles
      ensures historyFiles == NotOverdue(old(historyFiles), nowHourSuffix, retainHours)
      ensures removed == old(historyFiles) - historyFiles
    {
      removed := {};
      var todo := historyFiles;
      while todo != {}
        invariant todo <= historyFiles <= old(historyFiles)
        invariant forall s | s in historyFiles && s !in todo :: !Overdue(s, nowHourSuffix, retainHours)
        invariant removed == old(historyFiles) - historyFiles
        invariant forall s | s in removed :: Overdue(s, nowHourSuffix, retainHours)
      {
        SomeSuffix(todo);
        var hourSuffix :| hourSuffix in todo;
        if Overdue(hourSuffix, nowHourSuffix, retainHours) {
          removed := removed + {hourSuffix};
          historyFiles := historyFiles - {hourSuffix};
        }
        todo := todo - {hourSuffix};
      }
      assert forall s :: s in historyFiles <==> s in NotOverdue(old(historyFiles), nowHourSuffix, retainHours);
    }
  }

  lemma SomeSuffix(s: set<int>)
    requires s != {}
    ensures exists x :: x in s
  {
    if forall x :: x !in s {
      assert false;
    }
  }

  lemma SuffixSetOneMore(hs: set<Hour>, h: Hour)
    ensures (set x | x in hs + {h} :: x.Suffix()) == (set x | x in hs :: x.Suffix()) + {h.Suffix()}
  {
  }

  lemma KeptSuffixes(hs: set<Hour>, now: Hour, retain: int)
    ensures (set h | h in (set x | x in hs && Kept(x, now, retain)) :: h.Suffix())
         == NotOverdue(set h | h in hs :: h.Suffix(), now.Suffix(), retain)
  {
  }

  lemma KeptAreYoung(hs: set<Hour>, last: Hour, now: Hour, retain: int)
    requires now.Ok() && last.Ok() && last.Before(now)
    requires forall h | h in hs :: h.Ok() && (h == last || h.Before(last))
    ensures forall h | h in hs && Kept(h, now, retain) :: h.Before(now) && HoursBetween(h, now) <= retain
  {
    forall h | h in hs && Kept(h, now, retain) ensures h.Before(now) && HoursBetween(h, now) <= retain {
      SuffixOrder(h, last);
      SuffixOrder(last, now);
      SuffixOrder(h, now);
      KeptIsYoung(h, now, retain);
    }
  }
}
