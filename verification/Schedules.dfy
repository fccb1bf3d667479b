/** The export scheduler (api/src/exports/schedules.ts): creation, deletion and evaluation of schedules
    in the `export_schedules` table, with the calendar step that computes the next run. */
module Schedules {
  import opened Basics
  import opened Calendar

  const QUERY_LIMIT: nat := 10_000

  datatype Schedule = Schedule(projectId: string, exportType: string, frequency: string,
                               lastRunAt: Option<int>, nextRunAt: int)

  type Table = map<string, Schedule>

  predicate ValidFrequency(f: string) {
    f == "weekly" || f == "monthly"
  }

  predicate ValidExportType(t: string) {
    t == "iso42001" || t == "soc2" || t == "supply-chain"
  }

  /** The distance from a run to the next one. */
  function Period(frequency: string, from: int): int {
    if frequency == "weekly" then 7 * MS_PER_DAY
    else if frequency == "monthly" then DaysInMonth(YearOf(Day(from)), MonthOf(Day(from))) * MS_PER_DAY
    else 0
  }

  function LeastPeriod(frequency: string): int {
    if frequency == "weekly" then 7 * MS_PER_DAY else if frequency == "monthly" then 28 * MS_PER_DAY else 0
  }

  method ComputeNextRunAt(frequency: string, from: int) returns (next: int)
    ensures next == from + Period(frequency, from)
  {
    hide YearOf, MonthOf, DateOf, SetDate, SetMonth, DaysInMonth;
    next := from;
    if frequency == "weekly" {
      SetDateMoves(from, 7);
      next := SetDate(next, DateOf(Day(next)) + 7);
    } else if frequency == "monthly" {
      SetNextMonthMoves(from);
      next := SetMonth(next, MonthOf(Day(next)) + 1);
    }
  }

  /** A weekly step is 7 days; a monthly one is the length of the month it starts in, so 28 to 31 days. */
  lemma PeriodBounds(frequency: string, from: int)
    ensures frequency == "weekly" ==> Period(frequency, from) == 7 * MS_PER_DAY
    ensures frequency == "monthly" ==> 28 * MS_PER_DAY <= Period(frequency, from) <= 31 * MS_PER_DAY
    ensures LeastPeriod(frequency) <= Period(frequency, from)
  {}

  /** In the Gregorian calendar: a weekly run is 7 days later at the same time, and a monthly one goes from a
      date that exists to the same date of the next month, counted on into the month after when that date does
      not exist. */
  lemma NextRunInCalendar(y: int, month: Month, date: int, time: int)
    requires 0 <= time < 86_400_000 && 1 <= date
    requires Gregorian(y, month, date) < (if month == 11 then Gregorian(y + 1, 0, 1) else Gregorian(y, month + 1, 1))
    ensures var from := Gregorian(y, month, date) * 86_400_000 + time;
            var nextMonth := if month == 11 then Gregorian(y + 1, 0, date) else Gregorian(y, month + 1, date);
            && from + Period("weekly", from) == from + 604_800_000
            && from + Period("monthly", from) == nextMonth * 86_400_000 + time
  {
    hide Gregorian, MakeDay, YearOf, MonthOf, DateOf, DaysInMonth;
    var (y1, m1) := NextMonth(y, month);
    MakeDayIsGregorian(y, month, date);
    MakeDayIsGregorian(y1, m1, date);
    MakeDayIsGregorian(y1, m1, 1);
    MonthsFollow(y, month, 1);
    MonthsFollow(y, month, date);
    MakeDayCarries(y, month, 1);
    MakeDayCarries(y, month, date);
    MakeDayShifts(y, month, 1, date);
    CivilRoundTrip(y, month, date);
    DayOf(MakeDay(y, month, date), time);
    Distribute(MakeDay(y, month, date), DaysInMonth(y, month));
  }

  lemma DayOf(day: int, time: int)
    requires 0 <= time < 86_400_000
    ensures Day(day * 86_400_000 + time) == day
  {}

  // ----- Evaluation -----

  function Due(table: Table, projectId: string, now: int): set<string> {
    set id | id in table && table[id].projectId == projectId && table[id].nextRunAt <= now
  }

  function Evaluated(table: Table, chosen: set<string>, now: int): Table {
    map id | id in table ::
      if id in chosen
      then table[id].(lastRunAt := Some(now), nextRunAt := now + Period(table[id].frequency, now))
      else table[id]
  }

  ghost predicate AllValid(table: Table) {
    forall id :: id in table ==> ValidFrequency(table[id].frequency)
  }

  /** A chosen schedule is never due again at the same instant; the others stay due. */
  lemma EvaluationSettles(table: Table, projectId: string, chosen: set<string>, now: int)
    requires AllValid(table) && chosen <= Due(table, projectId, now)
    ensures Due(Evaluated(table, chosen, now), projectId, now) == Due(table, projectId, now) - chosen
  {
    hide YearOf, MonthOf, DaysInMonth;
    var after := Evaluated(table, chosen, now);
    forall id ensures id in Due(after, projectId, now) <==> id in Due(table, projectId, now) - chosen {
      if id in table {
        assert after[id].projectId == table[id].projectId;
        PeriodBounds(table[id].frequency, now);
      }
    }
  }

  /** With at most 10000 due rows nothing stays due, so evaluating again at the same instant evaluates
      none; with more, exactly the excess stays due. */
  lemma RepeatEvaluates(table: Table, projectId: string, chosen: set<string>, now: int)
    requires AllValid(table) && chosen <= Due(table, projectId, now)
    requires |chosen| == if |Due(table, projectId, now)| <= 10_000 then |Due(table, projectId, now)| else 10_000
    ensures var left := Due(Evaluated(table, chosen, now), projectId, now);
            && |left| == |Due(table, projectId, now)| - |chosen|
            && (left == {} <==> |Due(table, projectId, now)| <= 10_000)
  {
    EvaluationSettles(table, projectId, chosen, now);
    var due := Due(table, projectId, now);
    assert due == chosen + (due - chosen) && |due| == |chosen| + |due - chosen|;
  }

  // ----- Runs of one schedule over time -----

  /** The time a schedule was created and the times of its runs, each at least a period after the one
      before: for a monthly schedule the length of the month that one fell in. */
  ghost predicate Separated(frequency: string, times: seq<int>) {
    forall i :: 0 < i < |times| ==> times[i - 1] + Period(frequency, times[i - 1]) <= times[i]
  }

  /** The row agrees with its history, and is next due exactly one period after the last entry of it. */
  ghost predicate Consistent(s: Schedule, times: seq<int>) {
    && ValidFrequency(s.frequency)
    && times != []
    && Separated(s.frequency, times)
    && (s.lastRunAt == if |times| == 1 then None else Some(times[|times| - 1]))
    && s.nextRunAt == times[|times| - 1] + Period(s.frequency, times[|times| - 1])
  }

  lemma NewIsConsistent(projectId: string, exportType: string, frequency: string, now: int)
    requires ValidFrequency(frequency)
    ensures Consistent(Schedule(projectId, exportType, frequency, None, now + Period(frequency, now)), [now])
  {
    hide Period;
  }

  lemma RunKeepsConsistent(s: Schedule, times: seq<int>, now: int)
    requires Consistent(s, times) && s.nextRunAt <= now
    ensures Consistent(s.(lastRunAt := Some(now), nextRunAt := now + Period(s.frequency, now)), times + [now])
  {
    hide Period;
  }

  lemma LeastPeriods()
    ensures LeastPeriod("weekly") == 604_800_000 && LeastPeriod("monthly") == 2_419_200_000
  {}

  /** Any two runs of a schedule are at least as many least periods apart as there are steps between
      them: 7 days each for a weekly one, 28 for a monthly one. */
  lemma {:induction false} RunsApart(frequency: string, times: seq<int>, i: nat, j: nat)
    requires Separated(frequency, times) && i <= j < |times|
    ensures times[i] + (j - i) * LeastPeriod(frequency) <= times[j]
    ensures LeastPeriod("weekly") == 604_800_000 && LeastPeriod("monthly") == 2_419_200_000
    decreases j - i
  {
    LeastPeriods();
    hide Period, LeastPeriod;
    if i < j {
      RunsApart(frequency, times, i, j - 1);
      PeriodBounds(frequency, times[j - 1]);
      assert (j - i) * LeastPeriod(frequency) == (j - 1 - i) * LeastPeriod(frequency) + LeastPeriod(frequency);
    }
  }

  /** In the calendar, every run of a monthly schedule falls in a later month than the one before:
      between two of them lie at least as many months as there are steps. */
  lemma {:induction false} MonthlyRunsInLaterMonths(times: seq<int>, i: nat, j: nat)
    requires Separated("monthly", times) && i <= j < |times|
    ensures MonthIndex(Day(times[i])) + (j - i) <= MonthIndex(Day(times[j]))
    decreases j - i
  {
    hide MonthIndex, YearOf, MonthOf, DaysInMonth;
    if i < j {
      MonthlyRunsInLaterMonths(times, i, j - 1);
      var a, b := times[j - 1], times[j];
      assert a + DaysInMonth(YearOf(Day(a)), MonthOf(Day(a))) * MS_PER_DAY <= b;
      DaysLater(a, b, DaysInMonth(YearOf(Day(a)), MonthOf(Day(a))));
      MonthLengthLater(Day(a), Day(b));
    }
  }

  lemma DaysLater(a: int, b: int, days: int)
    requires a + days * MS_PER_DAY <= b
    ensures Day(a) + days <= Day(b)
  {}

  class ScheduleStore {
    var table: Table
    /** When each schedule was created and every run it ever made. */
    ghost var times: map<string, seq<int>>

    ghost predicate Valid()
      reads this
    {
      forall id :: id in table ==> id in times && Consistent(table[id], times[id])
    }

    constructor ()
      ensures Valid() && table == map[]
    {
      table, times := map[], map[];
    }

    /** `id` is the generated key. `keyProject` is the caller's project scope, `None` for an admin. */
    method CreateSchedule(projectId: string, exportType: string, frequency: string,
                          keyProject: Option<string>, id: string, now: int)
      returns (status: int)
      requires Valid() && id !in times
      modifies this
      ensures Valid()
      ensures status == if projectId == "" || exportType !in {"iso42001", "soc2", "supply-chain"}
                             || frequency !in {"weekly", "monthly"} then 400
                        else if keyProject.Some? && keyProject.value != "" && keyProject.value != projectId then 403
                        else 201
      ensures status == 201 ==>
                table == old(table)[id := Schedule(projectId, exportType, frequency, None, now + Period(frequency, now))]
                && times == old(times)[id := [now]]
      ensures status != 201 ==> table == old(table) && times == old(times)
    {
      hide Period, Consistent;
      if projectId == "" {
        return 400;
      }
      if !ValidExportType(exportType) {
        return 400;
      }
      if !ValidFrequency(frequency) {
        return 400;
      }
      if ScopedElsewhere(keyProject, Some(projectId)) {
        return 403;
      }
      var nextRunAt := ComputeNextRunAt(frequency, now);
      NewIsConsistent(projectId, exportType, frequency, now);
      table := table[id := Schedule(projectId, exportType, frequency, None, nextRunAt)];
      times := times[id := [now]];
      return 201;
    }

    method DeleteSchedule(id: string, keyProject: Option<string>) returns (status: int)
      requires Valid()
      modifies `table
      ensures Valid()
      ensures status == if id !in old(table) then 404
                        else if keyProject.Some? && keyProject.value != ""
                                  && keyProject.value != old(table)[id].projectId then 403
                        else 200
      ensures table == if status == 200 then old(table) - {id} else old(table)
    {
      if id !in table {
        return 404;
      }
      if ScopedElsewhere(keyProject, Some(table[id].projectId)) {
        return 403;
      }
      table := table - {id};
      return 200;
    }

    /** The query returns some 10000 of the due rows when there are more, in no stated order. */
    method EvaluateSchedules(projectId: string, keyProject: Option<string>, now: int)
      returns (status: int, evaluated: nat, ghost chosen: set<string>)
      requires Valid()
      modifies this
      ensures Valid()
      ensures status == if projectId == "" then 400
                        else if keyProject.Some? && keyProject.value != "" && keyProject.value != projectId then 403
                        else 200
      ensures status != 200 ==> evaluated == 0 && chosen == {}
      ensures status == 200 ==>
                var due := set id | id in old(table) && old(table)[id].projectId == projectId
                                    && old(table)[id].nextRunAt <= now;
                chosen <= due && evaluated == |chosen| == if |due| <= 10_000 then |due| else 10_000
      ensures table.Keys == old(table).Keys
      ensures forall id :: id in table && id !in chosen ==> table[id] == old(table)[id]
      ensures forall id :: id in table && id in chosen ==>
                && table[id].projectId == old(table)[id].projectId && table[id].exportType == old(table)[id].exportType
                && table[id].frequency == old(table)[id].frequency && table[id].lastRunAt == Some(now)
                && table[id].nextRunAt == now + Period(old(table)[id].frequency, now)
      ensures table == Evaluated(old(table), chosen, now)
      ensures times == TimesAfter(old(times), chosen, now)
    {
      evaluated, chosen := 0, {};
      NoneEvaluated(table, times, now);
      if projectId == "" {
        return 400, 0, {};
      }
      if ScopedElsewhere(keyProject, Some(projectId)) {
        return 403, 0, {};
      }
      var due := Due(table, projectId, now);
      var selected := Limited(due);
      evaluated := RunAll(selected, now);
      status, chosen := 200, selected;
    }

    /** The loop over the rows the query returned. */
    method RunAll(selected: set<string>, now: int) returns (evaluated: nat)
      requires Valid() && forall id :: id in selected ==> id in table && table[id].nextRunAt <= now
      modifies this
      ensures Valid() && evaluated == |selected|
      ensures table == Evaluated(old(table), selected, now)
      ensures times == TimesAfter(old(times), selected, now)
    {
      hide Valid, Evaluated, TimesAfter, Period, Consistent;
      evaluated := 0;
      var todo := selected;
      ghost var done: set<string> := {};
      NoneEvaluated(table, times, now);
      while todo != {}
        invariant todo !! done && todo + done == selected && evaluated == |done|
        invariant table == Evaluated(old(table), done, now)
        invariant times == TimesAfter(old(times), done, now)
        invariant Valid()
        decreases todo
      {
        var id :| id in todo;
        OneMoreEvaluated(old(table), old(times), done, id, now);
        RunOne(id, now);
        evaluated := evaluated + 1;
        todo := todo - {id};
        done := done + {id};
      }
      assert done == selected;
    }

    method RunOne(id: string, now: int)
      requires Valid() && id in table && table[id].nextRunAt <= now
      modifies this
      ensures Valid()
      ensures table == old(table)[id := old(table)[id].(lastRunAt := Some(now), nextRunAt := now + Period(old(table)[id].frequency, now))]
      ensures id in old(times) && times == old(times)[id := old(times)[id] + [now]]
    {
      hide Consistent, Period;
      RunKeepsConsistent(table[id], times[id], now);
      var nextRunAt := ComputeNextRunAt(table[id].frequency, now);
      table := table[id := table[id].(lastRunAt := Some(now), nextRunAt := nextRunAt)];
      times := times[id := times[id] + [now]];
    }
  }

  ghost function TimesAfter(times: map<string, seq<int>>, chosen: set<string>, now: int): map<string, seq<int>> {
    map id | id in times :: if id in chosen then times[id] + [now] else times[id]
  }

  lemma NoneEvaluated(table: Table, times: map<string, seq<int>>, now: int)
    ensures Evaluated(table, {}, now) == table
    ensures TimesAfter(times, {}, now) == times
  {}

  lemma OneMoreEvaluated(table: Table, times: map<string, seq<int>>, done: set<string>, id: string, now: int)
    requires id !in done && id in table
    ensures id in Evaluated(table, done, now) && Evaluated(table, done, now)[id] == table[id]
    ensures Evaluated(table, done + {id}, now)
            == Evaluated(table, done, now)[id := table[id].(lastRunAt := Some(now), nextRunAt := now + Period(table[id].frequency, now))]
    ensures id in TimesAfter(times, done, now) ==>
              TimesAfter(times, done + {id}, now) == TimesAfter(times, done, now)[id := TimesAfter(times, done, now)[id] + [now]]
  {
    hide Period;
  }

  /** Any 10000 of the rows, or all of them when there are no more. */
  method Limited(rows: set<string>) returns (some: set<string>)
    ensures some <= rows && |some| == if |rows| <= QUERY_LIMIT then |rows| else QUERY_LIMIT
  {
    some := {};
    var rest := rows;
    while rest != {} && |some| < QUERY_LIMIT
      invariant some <= rows && rest == rows - some && |some| <= QUERY_LIMIT && |some| + |rest| == |rows|
      decreases rest
    {
      var id :| id in rest;
      rest := rest - {id};
      some := some + {id};
    }
    if rest == {} {
      assert some == rows;
    }
  }
}
