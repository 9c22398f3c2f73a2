/** The two periodic loops of the scheduler: one wakes at every whole minute and hands the scheduled job
    the minute just ended, the other wakes at every midnight. Each iteration reads the clock
    afresh; the readings are given as sequences, one per iteration. */
module Scheduler {
  import opened Wrappers
  import opened Civil

  /** Python's `datetime.MAXYEAR`: moving past its last day raises OverflowError. */
  const MAX_YEAR: int := 9999
  const LastDay: Date := Date(MAX_YEAR, 12, 31)

  /** A clock reading Python can represent. */
  predicate Reading(t: DateTime) { Valid(t) && t.date.year <= MAX_YEAR }

  /** `get_time_range_for_schedule` at Korean time `now`: the minute that ended at `now`
      floored to the minute; nothing when that minute would start before 0001-01-01. */
  function TimeRange(now: DateTime): (r: Option<(DateTime, DateTime)>)
    requires Reading(now)
    ensures r.None? <==> Micros(FloorMinute(now)) < MINUTE
    ensures r.Some? ==> (r.value.1 == FloorMinute(now) && Valid(r.value.0)
                         && Micros(r.value.1) - Micros(r.value.0) == MINUTE && r.value.0.micros % MINUTE == 0)
  {
    var endTime := FloorMinute(now);
    if Micros(endTime) < MINUTE then None
    else
      var startTime := Minus(endTime, MINUTE);
      MinuteBefore(endTime);
      Some((startTime, endTime))
  }

  /** A minute before a whole minute is a whole minute. */
  lemma MinuteBefore(t: DateTime)
    requires Valid(t) && t.micros % MINUTE == 0 && Micros(t) >= MINUTE
    ensures Minus(t, MINUTE).micros % MINUTE == 0
  {
    var m := t.micros;
    var q := m / MINUTE;
    assert m == q * MINUTE;
    if m >= MINUTE {
      assert Minus(t, MINUTE).micros == (q - 1) * MINUTE;
      WholeMinutes(q - 1);
    } else {
      assert Minus(t, MINUTE).micros == (q + 1439) * MINUTE;
      WholeMinutes(q + 1439);
    }
  }

  lemma WholeMinutes(k: int)
    ensures (k * MINUTE) % MINUTE == 0
  {
  }

  /** The minute after the reading's minute, in each of the three cases of the computation. */
  lemma MinuteRoll(now: DateTime)
    requires Valid(now)
    ensures FloorMinute(now).micros == Hour(now) * HOUR + Minute(now) * MINUTE
    ensures Minute(now) < 59 ==> Hour(now) * HOUR + (Minute(now) + 1) * MINUTE == FloorMinute(now).micros + MINUTE
    ensures Minute(now) == 59 && Hour(now) < 23 ==> (Hour(now) + 1) * HOUR == FloorMinute(now).micros + MINUTE
    ensures Minute(now) == 59 && Hour(now) == 23 ==> FloorMinute(now).micros + MINUTE == DAY
    ensures FloorMinute(now).micros + MINUTE <= DAY
    ensures !(Minute(now) == 59 && Hour(now) == 23) ==> FloorMinute(now).micros + MINUTE < DAY
  {
    FieldBounds(now);
    var h, m := Hour(now), Minute(now);
    assert now.micros == h * HOUR + now.micros % HOUR;
    assert now.micros % HOUR == m * MINUTE + now.micros % MINUTE;
    assert (m + 1) * MINUTE == m * MINUTE + MINUTE;
    assert (h + 1) * HOUR == h * HOUR + 59 * MINUTE + MINUTE;
    assert h * HOUR <= 23 * HOUR;
  }

  /** The hour after `h` on a 24-hour clock: it wraps around only after 23. */
  lemma WrapHour(h: nat)
    requires h < 24
    ensures (h + 1) % 24 < h <==> h == 23
    ensures h < 23 ==> (h + 1) % 24 == h + 1
    ensures h == 23 ==> (h + 1) % 24 == 0
  {
  }

  /** The next-minute computation of `run_every_5_minutes` on the local clock: the minute is
      advanced, rolled into the hour at 60 and into the next day past 23:59; nothing when that
      day is past the last representable one. */
  function NextMinuteBoundary(now: DateTime): (r: Option<DateTime>)
    requires Reading(now)
    ensures r.None? <==> now.date == LastDay && Hour(now) == 23 && Minute(now) == 59
    ensures r.Some? ==> Reading(r.value)
  {
    var h, m := Hour(now), Minute(now);
    FieldBounds(now);
    MinuteRoll(now);
    WrapHour(h);
    var nextMinute := m + 1;
    if nextMinute >= 60 then
      var hour := (h + 1) % 24;
      if hour < h then
        if now.date == LastDay then None
        else
          NextDayYear(now.date);
          Some(DateTime(NextDay(now.date), hour * HOUR))
      else Some(DateTime(now.date, hour * HOUR))
    else Some(DateTime(now.date, h * HOUR + nextMinute * MINUTE))
  }

  /** The boundary is a representable whole minute, exactly one minute after the reading's
      minute began. */
  lemma NextMinuteBoundaryIsNextMinute(now: DateTime)
    requires Reading(now) && NextMinuteBoundary(now).Some?
    ensures var next := NextMinuteBoundary(now).value;
      Reading(next) && next.micros % MINUTE == 0 && Micros(next) == Micros(FloorMinute(now)) + MINUTE
  {
    var floor := FloorMinute(now);
    var next := NextMinuteBoundary(now).value;
    var last := Minute(now) == 59 && Hour(now) == 23;
    BoundaryCases(now);
    if last {
      DayLater(now.date);
      MinuteRoll(now);
      SameDay(DateTime(now.date, 0), floor);
      assert next.micros == 0;
    } else {
      SameDay(floor, next);
      assert next.micros == floor.micros + MINUTE;
      WholeMinutes(Hour(now) * 60 + Minute(now) + 1);
    }
  }

  /** The boundary is the next day's midnight after 23:59, and otherwise the same day's minute
      after the reading's. */
  lemma BoundaryCases(now: DateTime)
    requires Reading(now) && NextMinuteBoundary(now).Some?
    ensures Minute(now) == 59 && Hour(now) == 23 ==> NextMinuteBoundary(now).value == DateTime(NextDay(now.date), 0)
    ensures !(Minute(now) == 59 && Hour(now) == 23) ==>
      NextMinuteBoundary(now).value == DateTime(now.date, FloorMinute(now).micros + MINUTE)
      && FloorMinute(now).micros + MINUTE == (Hour(now) * 60 + Minute(now) + 1) * MINUTE
  {
    var h, m := Hour(now), Minute(now);
    FieldBounds(now);
    MinuteRoll(now);
    WrapHour(h);
  }

  /** Stepping forward a day from any day but the last stays representable. */
  lemma NextDayYear(d: Date)
    requires ValidDate(d) && d.year <= MAX_YEAR && d != LastDay
    ensures NextDay(d).year <= MAX_YEAR
  {
  }

  /** Two instants of the same day differ by their times of day. */
  lemma SameDay(a: DateTime, b: DateTime)
    requires Valid(a) && Valid(b) && a.date == b.date
    ensures Micros(b) == Micros(a) + b.micros - a.micros
  {
  }

  /** The next day's midnight is a day after this day's. */
  lemma DayLater(d: Date)
    requires ValidDate(d)
    ensures Micros(DateTime(NextDay(d), 0)) == Micros(DateTime(d, 0)) + DAY
  {
    OrdinalNextDay(d);
    var k := Ordinal(d);
    assert (k + 1 - 1) * DAY == (k - 1) * DAY + DAY;
  }

  /** `now.replace(hour=0, minute=0, second=0, microsecond=0)`, plus a day unless the reading's
      hour, minute and second are all zero; nothing past the last representable day. */
  function NextMidnight(now: DateTime): (r: Option<DateTime>)
    requires Reading(now)
    ensures r.None? <==> now.date == LastDay && !(Hour(now) == 0 && Minute(now) == 0 && Second(now) == 0)
    ensures r.Some? ==> Reading(r.value) && r.value.micros == 0
    ensures r.Some? ==> (r.value.date == now.date <==> Hour(now) == 0 && Minute(now) == 0 && Second(now) == 0)
    ensures r.Some? && r.value.date != now.date ==> r.value.date == NextDay(now.date)
  {
    var midnight := DateTime(now.date, 0);
    if Hour(now) != 0 || Minute(now) != 0 || Second(now) != 0 then
      if now.date == LastDay then None
      else
        NextDayYear(now.date);
        assert NextDay(now.date) != now.date;
        Some(DateTime(NextDay(now.date), 0))
    else Some(midnight)
  }

  /** A keyword argument: a time the scheduler passes, or a value given by the caller. */
  datatype Arg = TimeArg(t: DateTime) | Given(text: string)

  /** `task_kwargs = dict(kwargs); task_kwargs.update(start_time=..., end_time=...)`. */
  function TaskKwargs(kwargs: map<string, Arg>, startTime: DateTime, endTime: DateTime): (r: map<string, Arg>)
    ensures r.Keys == kwargs.Keys + {"start_time", "end_time"}
    ensures r["start_time"] == TimeArg(startTime) && r["end_time"] == TimeArg(endTime)
    ensures forall k :: k in kwargs && k != "start_time" && k != "end_time" ==> r[k] == kwargs[k]
  {
    kwargs["start_time" := TimeArg(startTime)]["end_time" := TimeArg(endTime)]
  }

  /** How a task run ended; an exception is logged and the loop goes on. */
  datatype TaskOutcome = Completed | Raised

  /** One iteration of the minute loop: when it woke, how long it slept (in microseconds), the
      arguments the scheduled job was called with (none when computing the range raised) and the
      outcome. */
  datatype MinuteTick = MinuteTick(wakeAt: DateTime, waitMicros: int, call: Option<map<string, Arg>>, outcome: TaskOutcome)

  /** The iteration with local reading `local`, Korean reading `kst` taken after the sleep, and
      `raises` telling whether the scheduled job body raises; nothing when the boundary overflows, which
      ends the loop. */
  function MinuteIteration(local: DateTime, kst: DateTime, kwargs: map<string, Arg>, raises: bool): (r: Option<MinuteTick>)
    requires Reading(local) && Reading(kst)
    ensures r.None? <==> NextMinuteBoundary(local).None?
  {
    match NextMinuteBoundary(local)
    case None => None
    case Some(nextTime) =>
      var wait := Micros(nextTime) - Micros(local);
      match TimeRange(kst)
      case None => Some(MinuteTick(nextTime, wait, None, Raised))
      case Some((startTime, endTime)) =>
        Some(MinuteTick(nextTime, wait, Some(TaskKwargs(kwargs, startTime, endTime)), if raises then Raised else Completed))
  }

  lemma IterationOfBoundary(local: DateTime, kst: DateTime, kwargs: map<string, Arg>, raises: bool,
                             next: DateTime, range: Option<(DateTime, DateTime)>)
    requires Reading(local) && Reading(kst) && NextMinuteBoundary(local) == Some(next) && TimeRange(kst) == range
    ensures Valid(next) && MinuteIteration(local, kst, kwargs, raises)
      == Some(MinuteTick(next, Micros(next) - Micros(local),
                         if range.None? then None else Some(TaskKwargs(kwargs, range.value.0, range.value.1)),
                         if range.None? || raises then Raised else Completed))
  {
    var wait := Micros(next) - Micros(local);
    match range
    case None =>
      assert MinuteIteration(local, kst, kwargs, raises) == Some(MinuteTick(next, wait, None, Raised));
    case Some((startTime, endTime)) =>
      assert MinuteIteration(local, kst, kwargs, raises)
        == Some(MinuteTick(next, wait, Some(TaskKwargs(kwargs, startTime, endTime)), if raises then Raised else Completed));
  }

  /** The body of the minute loop for one pair of clock readings; nothing when computing the
      boundary raises, which leaves the loop. */
  method MinuteStep(now: DateTime, kstNow: DateTime, kwargs: map<string, Arg>, raises: bool) returns (tick: Option<MinuteTick>)
    requires Reading(now) && Reading(kstNow)
    ensures tick == MinuteIteration(now, kstNow, kwargs, raises)
  {
    var nextTime := NextMinuteBoundary(now);
    if nextTime.None? {
      return None;
    }
    var sleepMicros := Micros(nextTime.value) - Micros(now);
    var call: Option<map<string, Arg>> := None;
    var outcome := Raised;
    var range := TimeRange(kstNow);
    if range.Some? {
      call := Some(TaskKwargs(kwargs, range.value.0, range.value.1));
      if !raises {
        outcome := Completed;
      }
    }
    tick := Some(MinuteTick(nextTime.value, sleepMicros, call, outcome));
    IterationOfBoundary(now, kstNow, kwargs, raises, nextTime.value, range);
  }

  /** `run_every_5_minutes` over as many iterations as there are clock readings. */
  method RunEveryMinute(local: seq<DateTime>, kst: seq<DateTime>, raises: seq<bool>, kwargs: map<string, Arg>)
    returns (ticks: seq<MinuteTick>)
    requires |local| == |kst| == |raises|
    requires forall i :: 0 <= i < |local| ==> Reading(local[i]) && Reading(kst[i])
    ensures |ticks| <= |local|
    ensures forall i :: 0 <= i < |ticks| ==> MinuteIteration(local[i], kst[i], kwargs, raises[i]) == Some(ticks[i])
    ensures |ticks| == |local| || NextMinuteBoundary(local[|ticks|]).None?
  {
    ticks := [];
    var i := 0;
    while i < |local|
      invariant i == |ticks| <= |local|
      invariant forall j :: 0 <= j < i ==> MinuteIteration(local[j], kst[j], kwargs, raises[j]) == Some(ticks[j])
    {
      var tick := MinuteStep(local[i], kst[i], kwargs, raises[i]);
      if tick.None? {
        return;
      }
      TicksSnoc(local, kst, raises, kwargs, ticks, tick.value);
      ticks := ticks + [tick.value];
      i := i + 1;
    }
  }

  /** Each tick of the minute loop is the iteration of its readings, one more included. */
  lemma TicksSnoc(local: seq<DateTime>, kst: seq<DateTime>, raises: seq<bool>, kwargs: map<string, Arg>,
                  ticks: seq<MinuteTick>, t: MinuteTick)
    requires |ticks| < |local| == |kst| == |raises|
    requires forall i :: 0 <= i < |local| ==> Reading(local[i]) && Reading(kst[i])
    requires forall j :: 0 <= j < |ticks| ==> MinuteIteration(local[j], kst[j], kwargs, raises[j]) == Some(ticks[j])
    requires MinuteIteration(local[|ticks|], kst[|ticks|], kwargs, raises[|ticks|]) == Some(t)
    ensures forall j :: 0 <= j < |ticks| + 1 ==>
      MinuteIteration(local[j], kst[j], kwargs, raises[j]) == Some((ticks + [t])[j])
  {
    forall j | 0 <= j < |ticks| + 1
      ensures MinuteIteration(local[j], kst[j], kwargs, raises[j]) == Some((ticks + [t])[j])
    {
      if j < |ticks| {
        assert (ticks + [t])[j] == ticks[j];
      }
    }
  }

  /** One iteration of the midnight loop. */
  datatype DailyTick = DailyTick(wakeAt: DateTime, waitMicros: int, outcome: TaskOutcome)

  function DailyIteration(kst: DateTime, raises: bool): (r: Option<DailyTick>)
    requires Reading(kst)
    ensures r.None? <==> NextMidnight(kst).None?
    ensures r.Some? ==> (r.value.wakeAt == NextMidnight(kst).value
                         && r.value.waitMicros == Micros(r.value.wakeAt) - Micros(kst)
                         && (r.value.outcome == Completed <==> !raises))
  {
    match NextMidnight(kst)
    case None => None
    case Some(midnight) => Some(DailyTick(midnight, Micros(midnight) - Micros(kst), if raises then Raised else Completed))
  }

  /** `run_daily_at_midnight` over as many iterations as there are clock readings. */
  method RunDailyAtMidnight(kst: seq<DateTime>, raises: seq<bool>) returns (ticks: seq<DailyTick>)
    requires |kst| == |raises|
    requires forall i :: 0 <= i < |kst| ==> Reading(kst[i])
    ensures |ticks| <= |kst|
    ensures forall i :: 0 <= i < |ticks| ==> DailyIteration(kst[i], raises[i]) == Some(ticks[i])
    ensures |ticks| == |kst| || NextMidnight(kst[|ticks|]).None?
  {
    ticks := [];
    var i := 0;
    while i < |kst|
      invariant i == |ticks| <= |kst|
      invariant forall j :: 0 <= j < i ==> DailyIteration(kst[j], raises[j]) == Some(ticks[j])
    {
      var tick := DailyStep(kst[i], raises[i]);
      if tick.None? {
        return;
      }
      DailyTicksSnoc(kst, raises, ticks, tick.value);
      ticks := ticks + [tick.value];
      i := i + 1;
    }
  }

  /** The body of the midnight loop for one clock reading; nothing when computing the next
      midnight raises, which leaves the loop. */
  method DailyStep(now: DateTime, raises: bool) returns (tick: Option<DailyTick>)
    requires Reading(now)
    ensures tick == DailyIteration(now, raises)
  {
    var nextMidnight := NextMidnight(now);
    if nextMidnight.None? {
      return None;
    }
    var sleepMicros := Micros(nextMidnight.value) - Micros(now);
    var outcome := if raises then Raised else Completed;
    DailyOfMidnight(now, raises, nextMidnight.value);
    tick := Some(DailyTick(nextMidnight.value, sleepMicros, outcome));
  }

  lemma DailyOfMidnight(now: DateTime, raises: bool, midnight: DateTime)
    requires Reading(now) && NextMidnight(now) == Some(midnight)
    ensures Valid(midnight)
    ensures DailyIteration(now, raises)
      == Some(DailyTick(midnight, Micros(midnight) - Micros(now), if raises then Raised else Completed))
  {
    var r := DailyIteration(now, raises);
    assert r.Some? && r.value.wakeAt == midnight;
  }

  /** Each tick of the midnight loop is the iteration of its reading, one more included. */
  lemma DailyTicksSnoc(kst: seq<DateTime>, raises: seq<bool>, ticks: seq<DailyTick>, t: DailyTick)
    requires |ticks| < |kst| == |raises|
    requires forall i :: 0 <= i < |kst| ==> Reading(kst[i])
    requires forall j :: 0 <= j < |ticks| ==> DailyIteration(kst[j], raises[j]) == Some(ticks[j])
    requires DailyIteration(kst[|ticks|], raises[|ticks|]) == Some(t)
    ensures forall j :: 0 <= j < |ticks| + 1 ==> DailyIteration(kst[j], raises[j]) == Some((ticks + [t])[j])
  {
    forall j | 0 <= j < |ticks| + 1
      ensures DailyIteration(kst[j], raises[j]) == Some((ticks + [t])[j])
    {
      if j < |ticks| {
        assert (ticks + [t])[j] == ticks[j];
      }
    }
  }

  // ---------------------------------------------------------------------------------------
  // Properties

  /** The scheduled job is called exactly when the range could be computed, with the caller's arguments
      and the range, and completes exactly when it was called and did not raise. */
  lemma MinuteCall(local: DateTime, kst: DateTime, kwargs: map<string, Arg>, raises: bool)
    requires Reading(local) && Reading(kst) && MinuteIteration(local, kst, kwargs, raises).Some?
    ensures var t := MinuteIteration(local, kst, kwargs, raises).value;
      (t.call.Some? <==> TimeRange(kst).Some?)
      && (t.call.Some? ==> t.call.value == TaskKwargs(kwargs, TimeRange(kst).value.0, TimeRange(kst).value.1))
      && (t.outcome == Completed <==> t.call.Some? && !raises)
  {
  }

  /** The minute loop wakes at the next whole minute: strictly after the reading and at most a
      minute later, whatever the hour or day rollover. */
  lemma MinuteWait(local: DateTime, kst: DateTime, kwargs: map<string, Arg>, raises: bool)
    requires Reading(local) && Reading(kst) && MinuteIteration(local, kst, kwargs, raises).Some?
    ensures var t := MinuteIteration(local, kst, kwargs, raises).value;
      t.wakeAt == NextMinuteBoundary(local).value && Micros(t.wakeAt) == Micros(FloorMinute(local)) + MINUTE
      && t.waitMicros == Micros(t.wakeAt) - Micros(local)
      && 0 < t.waitMicros <= MINUTE && t.wakeAt.micros % MINUTE == 0
  {
    NextMinuteBoundaryIsNextMinute(local);
  }

  /** A later reading never wakes the loop earlier, and readings within the same minute wake it
      at the same boundary. */
  lemma BoundaryMonotone(a: DateTime, b: DateTime)
    requires Reading(a) && Reading(b) && Micros(a) <= Micros(b)
    requires NextMinuteBoundary(a).Some? && NextMinuteBoundary(b).Some?
    ensures Micros(NextMinuteBoundary(a).value) <= Micros(NextMinuteBoundary(b).value)
    ensures Micros(b) < Micros(NextMinuteBoundary(a).value) ==> NextMinuteBoundary(a) == NextMinuteBoundary(b)
  {
    var fa, fb := FloorMinute(a), FloorMinute(b);
    MicrosAligned(fa);
    MicrosAligned(fb);
    AlignedOrder(Micros(fa), Micros(fb));
    NextMinuteBoundaryIsNextMinute(a);
    NextMinuteBoundaryIsNextMinute(b);
    if Micros(b) < Micros(NextMinuteBoundary(a).value) {
      AlignedOrder(Micros(fb), Micros(fa));
      MicrosInjective(NextMinuteBoundary(a).value, NextMinuteBoundary(b).value);
    }
  }

  /** Of two minute-aligned counts less than a minute apart, neither exceeds the other. */
  lemma AlignedOrder(x: int, y: int)
    requires x % MINUTE == 0 && y % MINUTE == 0 && x < y + MINUTE
    ensures x <= y
  {
    var p, q := x / MINUTE, y / MINUTE;
    assert x == p * MINUTE && y == q * MINUTE;
  }

  /** An instant aligned to the minute within its day is aligned to the minute overall. */
  lemma MicrosAligned(t: DateTime)
    requires Valid(t) && t.micros % MINUTE == 0
    ensures Micros(t) % MINUTE == 0
  {
    OrdinalPositive(t.date);
    var k := Ordinal(t.date) - 1;
    assert Micros(t) == (k * 1440 + t.micros / MINUTE) * MINUTE;
  }

  /** The handed-over range is the whole minute just before the Korean reading's minute. */
  lemma RangeIsPreviousMinute(kst: DateTime)
    requires Reading(kst) && TimeRange(kst).Some?
    ensures var (s, e) := TimeRange(kst).value;
      Micros(s) + MINUTE == Micros(e) && Micros(e) <= Micros(kst) < Micros(e) + MINUTE
      && Hour(e) == Hour(kst) && Minute(e) == Minute(kst) && Second(e) == 0
  {
  }

  /** The scheduled job's start and end arguments are always the scheduler's, even when the caller
      passed its own. */
  lemma RangeOverridesCaller(local: DateTime, kst: DateTime, kwargs: map<string, Arg>, raises: bool, t: DateTime)
    requires Reading(local) && Reading(kst)
    requires "start_time" in kwargs && kwargs["start_time"] == TimeArg(t)
    requires MinuteIteration(local, kst, kwargs, raises).Some? && TimeRange(kst).Some?
    ensures var call := MinuteIteration(local, kst, kwargs, raises).value.call;
      call.Some? && call.value["start_time"] == TimeArg(TimeRange(kst).value.0)
      && (t != TimeRange(kst).value.0 ==> call.value["start_time"] != kwargs["start_time"])
  {
  }

  /** The midnight loop wakes at a midnight: today's when the reading is 00:00:00 (then the wait
      is at most zero, and negative when the reading has microseconds), otherwise tomorrow's,
      within a day. */
  lemma MidnightWait(kst: DateTime, raises: bool)
    requires Reading(kst) && DailyIteration(kst, raises).Some?
    ensures var t := DailyIteration(kst, raises).value;
      t.wakeAt.micros == 0 && Hour(t.wakeAt) == 0 && Minute(t.wakeAt) == 0 && Second(t.wakeAt) == 0
    ensures var t := DailyIteration(kst, raises).value;
      Hour(kst) == 0 && Minute(kst) == 0 && Second(kst) == 0 ==>
        t.wakeAt.date == kst.date && 0 < t.waitMicros + SECOND && t.waitMicros <= 0 && (kst.micros > 0 ==> t.waitMicros < 0)
    ensures var t := DailyIteration(kst, raises).value;
      !(Hour(kst) == 0 && Minute(kst) == 0 && Second(kst) == 0) ==>
        t.wakeAt.date == NextDay(kst.date) && 0 < t.waitMicros <= DAY - SECOND
  {
    var t := DailyIteration(kst, raises).value;
    if !(Hour(kst) == 0 && Minute(kst) == 0 && Second(kst) == 0) {
      OrdinalNextDay(kst.date);
      assert kst.micros >= SECOND;
    }
  }

  /** A task that raises does not stop the loops: an iteration exists exactly when its boundary
      does, whatever the scheduled job does. */
  lemma FailureIsolated(local: DateTime, kst: DateTime, kwargs: map<string, Arg>)
    requires Reading(local) && Reading(kst)
    ensures MinuteIteration(local, kst, kwargs, true).Some? == MinuteIteration(local, kst, kwargs, false).Some?
    ensures DailyIteration(kst, true).Some? == DailyIteration(kst, false).Some?
    ensures MinuteIteration(local, kst, kwargs, true).Some? ==>
      MinuteIteration(local, kst, kwargs, true).value.(outcome := Completed) ==
      MinuteIteration(local, kst, kwargs, false).value.(outcome := Completed)
  {
  }
}
