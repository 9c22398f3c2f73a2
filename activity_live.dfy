/** The per-minute activity job: centres of the detected box are paired frame to frame, every
    interval of the processed range gets one row, zero-filled, and a pair is charged to every
    interval that contains either of its two time stamps. */
module ActivityLive {
  import opened Wrappers
  import opened Civil
  import opened Sorting
  import opened Detection
  import opened ActiveReport
  import opened Text

  /** The device serial used when a frame has no rows. */
  const DEVICE_SN := "SFRXC12515GF00001"

  /** A distance between two centres (`np.linalg.norm` of their difference). */
  type Norm = (Center, Center) -> real

  ghost predicate NonNegative(norm: Norm) { forall a, b :: norm(a, b) >= 0.0 }

  /** The samples the extraction loop collects, in frame order. */
  function Samples(frames: seq<Frame>): (s: seq<Sample>)
    ensures |s| <= |frames|
    ensures forall i :: 0 <= i < |s| ==> Valid(s[i].at) && s[i].at.date.year <= 9999
  {
    if frames == [] then []
    else
      var c := ExtractCenter(frames[|frames| - 1].result);
      Samples(frames[..|frames| - 1]) + (if c.Some? then [Sample(c.value.0, c.value.1)] else [])
  }

  /** The loop that fills `center_data`: one sample for each frame whose centre extracts. */
  method CollectSamples(frames: seq<Frame>) returns (samples: seq<Sample>)
    ensures samples == Samples(frames)
  {
    samples := [];
    var i := 0;
    while i < |frames|
      invariant 0 <= i <= |frames|
      invariant samples == Samples(frames[..i])
    {
      var c := ExtractCenter(frames[i].result);
      if c.Some? {
        samples := samples + [Sample(c.value.0, c.value.1)];
      }
      assert frames[..i + 1][..i] == frames[..i];
      i := i + 1;
    }
    assert frames[..i] == frames;
  }

  /** `center_data.sort(key=lambda x: x[0])`. */
  function SortSamples(s: seq<Sample>): seq<Sample> { SortByKey(s, SampleKey) }

  /** The record time stamps of the fallback branch: every present, non-empty one parsed, or
      nothing when one of them does not parse (the exception makes the job use the clock). */
  function RecordTimes(frames: seq<Frame>): (r: Option<seq<DateTime>>)
    ensures r.Some? ==> forall i :: 0 <= i < |r.value| ==> Valid(r.value[i])
  {
    if frames == [] then Some([])
    else
      var rest := RecordTimes(frames[..|frames| - 1]);
      var ts := frames[|frames| - 1].result.timestamp;
      if rest.None? then None
      else if ts.None? || ts.value == [] then rest
      else
        match ParseStamp(ts.value)
        case None => None
        case Some(t) => Some(rest.value + [t])
  }

  function TimeKey(t: DateTime): int { if Valid(t) then Micros(t) else 0 }

  /** `[now - timedelta(minutes=interval), now]`; OverflowError when that is before year 1. */
  function ClockRange(now: DateTime, interval: nat): (r: Result<(DateTime, DateTime), string>)
    requires Valid(now) && 1 <= interval <= 1440
    ensures r.Ok? ==>
      Valid(r.value.0) && r.value.1 == now && Micros(r.value.0) + interval * MINUTE == Micros(now)
  {
    if Micros(now) >= interval * MINUTE then Ok((Minus(now, interval * MINUTE), now))
    else Err("OverflowError")
  }

  /** The first and last sorted sample. */
  function SampleRange(s: seq<Sample>): (r: (DateTime, DateTime))
    requires |s| >= 2 && forall i :: 0 <= i < |s| ==> Valid(s[i].at)
    ensures Bounds(s, r.0, r.1)
  {
    SampleBounds(s);
    (SortSamples(s)[0].at, SortSamples(s)[|s| - 1].at)
  }

  /** The earliest and latest parseable record time stamp, or the clock range when there is
      none or one does not parse. */
  function StampRange(frames: seq<Frame>, interval: nat, now: DateTime): (r: Result<(DateTime, DateTime), string>)
    requires Valid(now) && 1 <= interval <= 1440
    ensures r.Ok? ==> Valid(r.value.0) && Valid(r.value.1)
  {
    match RecordTimes(frames)
    case None => ClockRange(now, interval)
    case Some(ts) =>
      if ts == [] then ClockRange(now, interval)
      else
        var st := SortByKey(ts, TimeKey);
        assert st[0] in multiset(ts) && st[|st| - 1] in multiset(ts);
        Ok((st[0], st[|st| - 1]))
  }

  /** The processed range, chosen in this order: both explicit bounds; else the first and last
      sorted sample when there are two or more; else the earliest and latest parseable record
      time stamp; else the `interval` minutes up to the clock reading `now`. */
  function ChooseRange(frames: seq<Frame>, interval: nat, start: Option<DateTime>,
                       end: Option<DateTime>, now: DateTime): (r: Result<(DateTime, DateTime), string>)
    requires Valid(now) && 1 <= interval <= 1440
    requires start.Some? ==> Valid(start.value)
    requires end.Some? ==> Valid(end.value)
    ensures r.Ok? ==> Valid(r.value.0) && Valid(r.value.1)
    ensures start.Some? && end.Some? ==> r == Ok((start.value, end.value))
    ensures !(start.Some? && end.Some?) && |Samples(frames)| >= 2 ==>
      r.Ok? && Bounds(Samples(frames), r.value.0, r.value.1)
    ensures !(start.Some? && end.Some?) && frames == [] ==> r == ClockRange(now, interval)
  {
    if start.Some? && end.Some? then Ok((start.value, end.value))
    else if |Samples(frames)| >= 2 then Ok(SampleRange(Samples(frames)))
    else if frames != [] then StampRange(frames, interval, now)
    else ClockRange(now, interval)
  }

  /** `lo` and `hi` are valid and bound the time stamp of every sample. */
  predicate Bounds(s: seq<Sample>, lo: DateTime, hi: DateTime) {
    Valid(lo) && Valid(hi) && Micros(lo) <= Micros(hi)
    && forall i :: 0 <= i < |s| ==> Micros(lo) <= SampleKey(s[i]) <= Micros(hi)
  }

  /** The first and last sorted samples bound every sample. */
  lemma SampleBounds(s: seq<Sample>)
    requires forall i :: 0 <= i < |s| ==> Valid(s[i].at)
    requires |s| >= 2
    ensures Bounds(s, SortSamples(s)[0].at, SortSamples(s)[|s| - 1].at)
  {
    SortedEnds(s, SampleKey);
    var lo, hi := SortSamples(s)[0], SortSamples(s)[|s| - 1];
    assert Valid(lo.at) && Valid(hi.at);
    assert SampleKey(lo) <= SampleKey(s[0]) <= SampleKey(hi);
  }

  /** The interval starts, as microsecond counts: from `cur`, in steps of `step`, while the
      start is before `end`. */
  function IntervalStarts(cur: nat, end: int, step: nat): (r: seq<nat>)
    requires step > 0
    ensures r != [] <==> cur < end
    ensures r != [] ==> r[0] == cur
    decreases end - cur
  {
    if cur < end then [cur] + IntervalStarts(cur + step, end, step) else []
  }

  /** Each start is one step after the previous one. */
  predicate Contiguous(r: seq<nat>, step: nat) {
    forall i :: 0 <= i < |r| - 1 ==> r[i + 1] == r[i] + step
  }

  /** The intervals are contiguous: each starts where the previous one ends, every start is
      before the end of the range, and the last interval reaches it. */
  lemma {:induction false} IntervalStartsContiguous(cur: nat, end: int, step: nat)
    requires step > 0
    ensures Contiguous(IntervalStarts(cur, end, step), step)
    ensures forall i :: 0 <= i < |IntervalStarts(cur, end, step)| ==> IntervalStarts(cur, end, step)[i] < end
    ensures IntervalStarts(cur, end, step) != [] ==>
      end <= IntervalStarts(cur, end, step)[|IntervalStarts(cur, end, step)| - 1] + step
    decreases end - cur
  {
    var r := IntervalStarts(cur, end, step);
    if r != [] {
      var tail := IntervalStarts(cur + step, end, step);
      IntervalStartsContiguous(cur + step, end, step);
      assert r == [cur] + tail;
      forall i | 0 <= i < |r| - 1 ensures r[i + 1] == r[i] + step {
        if i > 0 {
          assert r[i] == tail[i - 1] && r[i + 1] == tail[i];
        }
      }
      if tail != [] {
        assert r[|r| - 1] == tail[|tail| - 1];
      }
    }
  }

  /** Some start `r[i]` has `t` in its interval. */
  predicate Covered(r: seq<nat>, step: nat, t: int) {
    exists i :: 0 <= i < |r| && r[i] <= t < r[i] + step
  }

  /** No two intervals overlap: starts are at least one step apart. */
  predicate Separated(r: seq<nat>, step: nat) {
    forall i, j :: 0 <= i < j < |r| ==> r[i] + step <= r[j]
  }

  /** Every instant of `[cur, end)` falls in an interval; by `IntervalStartsSeparated` and
      `IntervalUnique` it falls in no other. */
  lemma {:induction false} IntervalStartsCover(cur: nat, end: int, step: nat, t: int)
    requires step > 0 && cur <= t < end
    ensures Covered(IntervalStarts(cur, end, step), step, t)
    decreases end - cur
  {
    var r := IntervalStarts(cur, end, step);
    if t >= cur + step {
      IntervalStartsCover(cur + step, end, step, t);
      var tail := IntervalStarts(cur + step, end, step);
      var k :| 0 <= k < |tail| && tail[k] <= t < tail[k] + step;
      assert r[k + 1] == tail[k];
    } else {
      assert r[0] <= t < r[0] + step;
    }
  }

  /** The starts are at least one step apart and none is before `cur`. */
  lemma {:induction false} IntervalStartsSeparated(cur: nat, end: int, step: nat)
    requires step > 0
    ensures Separated(IntervalStarts(cur, end, step), step)
    ensures forall i :: 0 <= i < |IntervalStarts(cur, end, step)| ==> cur <= IntervalStarts(cur, end, step)[i]
    decreases end - cur
  {
    var r := IntervalStarts(cur, end, step);
    if r != [] {
      var tail := IntervalStarts(cur + step, end, step);
      IntervalStartsSeparated(cur + step, end, step);
      assert r == [cur] + tail;
      forall i | 0 <= i < |r| ensures cur <= r[i] {
        if i > 0 {
          assert r[i] == tail[i - 1];
        }
      }
      forall i, j | 0 <= i < j < |r| ensures r[i] + step <= r[j] {
        assert r[j] == tail[j - 1];
        if i > 0 {
          assert r[i] == tail[i - 1];
        }
      }
    }
  }

  /** An instant lies in at most one interval. */
  lemma IntervalUnique(r: seq<nat>, step: nat, t: int, i: nat, j: nat)
    requires Separated(r, step)
    requires i < |r| && j < |r|
    requires r[i] <= t < r[i] + step
    requires r[j] <= t < r[j] + step
    ensures i == j
  {
  }

  /** The sample's time stamp lies in `[lo, hi)` (samples always hold valid instants). */
  predicate Within(x: Sample, lo: int, hi: int) { lo <= SampleKey(x) < hi }

  /** What pair `(s[i-1], s[i])` adds to the interval `[lo, hi)`: its distance when either time
      stamp lies in the interval, else nothing. */
  function Charge(s: seq<Sample>, i: nat, lo: int, hi: int, norm: Norm): real
    requires 1 <= i < |s|
  {
    if Within(s[i - 1], lo, hi) || Within(s[i], lo, hi) then norm(s[i - 1].center, s[i].center)
    else 0.0
  }

  /** The charges of the pairs ending before index `n`. */
  function PairSum(s: seq<Sample>, n: nat, lo: int, hi: int, norm: Norm): real
    requires n <= |s|
  {
    if n <= 1 then 0.0 else PairSum(s, n - 1, lo, hi, norm) + Charge(s, n - 1, lo, hi, norm)
  }

  /** A row per interval start `u`, with the charged distance of `[u, u + step)`. */
  function LiveRow(sn: string, u: nat, s: seq<Sample>, step: nat, norm: Norm): Row {
    var t := FromMicros(u);
    Row(sn, Date8(t.date), HHMM(t) + "00", PairSum(s, |s|, u, u + step, norm))
  }

  function LiveRows(sn: string, starts: seq<nat>, s: seq<Sample>, step: nat, norm: Norm): (rows: seq<Row>)
    ensures |rows| == |starts|
  {
    if starts == [] then [] else [LiveRow(sn, starts[0], s, step, norm)] + LiveRows(sn, starts[1..], s, step, norm)
  }

  /** `df['device'].iloc[0]`, or DEVICE_SN for an empty frame. */
  function FrameSn(frames: seq<Frame>): string {
    if frames == [] then DEVICE_SN else frames[0].device
  }

  /** The rows `calculate_activity` returns for the range `ChooseRange` picks. */
  function ExpectedRows(frames: seq<Frame>, interval: nat, start: Option<DateTime>,
                        end: Option<DateTime>, now: DateTime, norm: Norm): Result<seq<Row>, string>
    requires Valid(now) && 1 <= interval <= 1440
    requires start.Some? ==> Valid(start.value)
    requires end.Some? ==> Valid(end.value)
  {
    match ChooseRange(frames, interval, start, end, now)
    case Err(e) => Err(e)
    case Ok((lo, hi)) =>
      var sorted := SortSamples(Samples(frames));
      Ok(LiveRows(FrameSn(frames), IntervalStarts(Micros(FloorMinute(lo)), Micros(hi), interval * MINUTE),
                  sorted, interval * MINUTE, norm))
  }

  /** `calculate_activity`: rows from the start of the range floored to the minute, one per
      `interval` minutes while the row start is before the end of the range. (The loop that
      would step the first start back below the range start never runs, because flooring
      never moves a time forward.) */
  method CalculateActivity(frames: seq<Frame>, interval: nat, start: Option<DateTime>,
                           end: Option<DateTime>, now: DateTime, norm: Norm)
    returns (r: Result<seq<Row>, string>)
    requires Valid(now) && 1 <= interval <= 1440
    requires start.Some? ==> Valid(start.value)
    requires end.Some? ==> Valid(end.value)
    ensures r == ExpectedRows(frames, interval, start, end, now, norm)
  {
    var samples := CollectSamples(frames);
    var sorted := SortSamples(samples);
    var sn := FrameSn(frames);
    var range := ChooseRange(frames, interval, start, end, now);
    if range.Err? {
      return Err(range.error);
    }
    var (lo, hi) := range.value;
    var starts := IntervalStarts(Micros(FloorMinute(lo)), Micros(hi), interval * MINUTE);
    var slots := IntervalSlots(Micros(FloorMinute(lo)), Micros(hi), interval * MINUTE, sorted, norm);
    FormatSlots(sn, starts, sorted, interval * MINUTE, norm);
    r := Ok(FormatRows(sn, slots));
  }

  /** An interval start with its charged distance. */
  datatype Slot = Slot(start: nat, active: real)

  function Slots(starts: seq<nat>, s: seq<Sample>, step: nat, norm: Norm): (r: seq<Slot>)
    ensures |r| == |starts|
  {
    if starts == [] then []
    else [Slot(starts[0], PairSum(s, |s|, starts[0], starts[0] + step, norm))] + Slots(starts[1..], s, step, norm)
  }

  /** The row of each slot: the start's `%Y%m%d` and `%H%M` + "00", and its activity. */
  function FormatRows(sn: string, slots: seq<Slot>): (rows: seq<Row>)
    ensures |rows| == |slots|
  {
    if slots == [] then []
    else
      var t := FromMicros(slots[0].start);
      [Row(sn, Date8(t.date), HHMM(t) + "00", slots[0].active)] + FormatRows(sn, slots[1..])
  }

  lemma {:induction false} FormatSlots(sn: string, starts: seq<nat>, s: seq<Sample>, step: nat, norm: Norm)
    ensures FormatRows(sn, Slots(starts, s, step, norm)) == LiveRows(sn, starts, s, step, norm)
  {
    if starts != [] {
      FormatSlots(sn, starts[1..], s, step, norm);
    }
  }

  lemma {:induction false} SlotsAppend(starts: seq<nat>, u: nat, s: seq<Sample>, step: nat, norm: Norm)
    ensures Slots(starts + [u], s, step, norm)
         == Slots(starts, s, step, norm) + [Slot(u, PairSum(s, |s|, u, u + step, norm))]
  {
    if starts == [] {
      assert starts + [u] == [u];
    } else {
      assert (starts + [u])[1..] == starts[1..] + [u];
      SlotsAppend(starts[1..], u, s, step, norm);
    }
  }

  /** The outer loop: one slot per interval start from `first` while before `end`; the loop
      variable is the interval start's microsecond count. The rows are formatted from the
      slots afterwards (`FormatRows`), with the values the loop would have formatted. */
  method IntervalSlots(first: nat, end: int, step: nat, s: seq<Sample>, norm: Norm)
    returns (slots: seq<Slot>)
    requires step > 0
    ensures slots == Slots(IntervalStarts(first, end, step), s, step, norm)
  {
    var cur := first;
    slots := [];
    ghost var done: seq<nat> := [];
    while cur < end
      invariant IntervalStarts(first, end, step) == done + IntervalStarts(cur, end, step)
      invariant slots == Slots(done, s, step, norm)
      decreases end - cur
    {
      var next := cur + step;
      var activity := IntervalActivity(s, cur, next, norm);
      slots := slots + [Slot(cur, activity)];
      SlotsAppend(done, cur, s, step, norm);
      assert IntervalStarts(cur, end, step) == [cur] + IntervalStarts(next, end, step);
      StartsRegroup(done, [cur], IntervalStarts(next, end, step));
      done := done + [cur];
      cur := next;
    }
    assert done + [] == done;
  }

  lemma StartsRegroup(a: seq<nat>, b: seq<nat>, c: seq<nat>)
    ensures a + (b + c) == (a + b) + c
  {
  }

  /** The inner loop: the charged distance of one interval `[lo, hi)`. */
  method IntervalActivity(s: seq<Sample>, lo: int, hi: int, norm: Norm) returns (activity: real)
    ensures activity == PairSum(s, |s|, lo, hi, norm)
  {
    activity := 0.0;
    if |s| >= 2 {
      var i := 1;
      while i < |s|
        invariant 1 <= i <= |s|
        invariant activity == PairSum(s, i, lo, hi, norm)
      {
        var p, c := s[i - 1], s[i];
        if Within(p, lo, hi) || Within(c, lo, hi) {
          activity := activity + norm(p.center, c.center);
        }
        i := i + 1;
      }
    }
  }

  /** Row `i` is the row of start `i`. */
  lemma {:induction false} LiveRowsIndex(sn: string, starts: seq<nat>, s: seq<Sample>, step: nat, norm: Norm, i: nat)
    requires i < |starts|
    ensures LiveRows(sn, starts, s, step, norm)[i] == LiveRow(sn, starts[i], s, step, norm)
  {
    if i > 0 {
      LiveRowsIndex(sn, starts[1..], s, step, norm, i - 1);
    }
  }

  /** With fewer than two samples every interval is charged nothing. */
  lemma FewSamplesNoActivity(s: seq<Sample>, lo: int, hi: int, norm: Norm)
    requires |s| < 2
    ensures PairSum(s, |s|, lo, hi, norm) == 0.0
  {
  }

  /** Charges are never negative when distances are not. */
  lemma {:induction false} PairSumNonNegative(s: seq<Sample>, n: nat, lo: int, hi: int, norm: Norm)
    requires n <= |s|
    requires NonNegative(norm)
    ensures PairSum(s, n, lo, hi, norm) >= 0.0
  {
    if n > 1 {
      PairSumNonNegative(s, n - 1, lo, hi, norm);
      assert norm(s[n - 2].center, s[n - 1].center) >= 0.0;
    }
  }

  /** A pair whose two time stamps fall in two different intervals is charged to both: its
      distance is part of each interval's sum. */
  lemma {:induction false} PairChargedToBoth(s: seq<Sample>, n: nat, k: nat, lo: int, hi: int, norm: Norm)
    requires n <= |s|
    requires NonNegative(norm)
    requires 1 <= k < n
    requires Within(s[k - 1], lo, hi) || Within(s[k], lo, hi)
    ensures PairSum(s, n, lo, hi, norm) >= norm(s[k - 1].center, s[k].center)
  {
    assert Charge(s, k, lo, hi, norm) == norm(s[k - 1].center, s[k].center);
    PairSumIncludes(s, n, k, lo, hi, norm);
  }

  /** The sum over the first `n` samples includes the charge of every pair among them. */
  lemma {:induction false} PairSumIncludes(s: seq<Sample>, n: nat, k: nat, lo: int, hi: int, norm: Norm)
    requires n <= |s| && NonNegative(norm) && 1 <= k < n
    ensures PairSum(s, n, lo, hi, norm) >= Charge(s, k, lo, hi, norm)
  {
    var prev, c := PairSum(s, n - 1, lo, hi, norm), Charge(s, n - 1, lo, hi, norm);
    assert PairSum(s, n, lo, hi, norm) == prev + c;
    if k < n - 1 {
      PairSumIncludes(s, n - 1, k, lo, hi, norm);
      ChargeNonNegative(s, n - 1, lo, hi, norm);
      SumBelow(prev, c, Charge(s, k, lo, hi, norm));
    } else {
      PairSumNonNegative(s, n - 1, lo, hi, norm);
      SumBelow(c, prev, c);
    }
  }

  lemma SumBelow(a: real, b: real, x: real)
    requires a >= x && b >= 0.0
    ensures a + b >= x && b + a >= x
  {
  }

  lemma ChargeNonNegative(s: seq<Sample>, i: nat, lo: int, hi: int, norm: Norm)
    requires 1 <= i < |s| && NonNegative(norm)
    ensures Charge(s, i, lo, hi, norm) >= 0.0
  {
    assert norm(s[i - 1].center, s[i].center) >= 0.0;
  }

  /** A pair with neither time stamp in the interval adds nothing to it. */
  lemma PairOutsideNotCharged(s: seq<Sample>, k: nat, lo: int, hi: int, norm: Norm)
    requires 1 <= k < |s|
    requires !Within(s[k - 1], lo, hi) && !Within(s[k], lo, hi)
    ensures Charge(s, k, lo, hi, norm) == 0.0
  {
  }

  /** The synthetic record of an empty query: the device serial and the range start's stamp,
      and no boxes. */
  function EmptyFrame(start: DateTime): Frame
    requires Valid(start)
  {
    Frame(DEVICE_SN, YoloResult(Some(Stamp(start)), None, None))
  }

  predicate AllIdle(rows: seq<Row>) {
    forall i :: 0 <= i < |rows| ==> rows[i].active == 0.0 && rows[i].sn == DEVICE_SN
  }

  /** An empty query gives every interval of the range the activity 0. */
  lemma EmptyQueryZeroRows(start: DateTime, end: DateTime, norm: Norm)
    requires Valid(start) && Valid(end)
    ensures ExpectedRows([EmptyFrame(start)], 1, Some(start), Some(end), start, norm).Ok?
    ensures |ExpectedRows([EmptyFrame(start)], 1, Some(start), Some(end), start, norm).value|
         == |IntervalStarts(Micros(FloorMinute(start)), Micros(end), MINUTE)|
    ensures AllIdle(ExpectedRows([EmptyFrame(start)], 1, Some(start), Some(end), start, norm).value)
  {
    var frames := [EmptyFrame(start)];
    assert frames[..0] == [];
    assert Samples(frames) == [];
    var starts := IntervalStarts(Micros(FloorMinute(start)), Micros(end), MINUTE);
    var rows := ExpectedRows(frames, 1, Some(start), Some(end), start, norm).value;
    assert rows == LiveRows(DEVICE_SN, starts, [], MINUTE, norm);
    forall i | 0 <= i < |rows| ensures rows[i].active == 0.0 && rows[i].sn == DEVICE_SN {
      LiveRowsIndex(DEVICE_SN, starts, [], MINUTE, norm, i);
    }
  }

  /** The key columns of the row of the interval starting at `u`. */
  function SlotKey(sn: string, u: nat): Key {
    var t := FromMicros(u);
    Key(sn, Date8(t.date), HHMM(t) + "00")
  }

  /** Whole-minute interval starts before year 10000 have keys ordered as the starts; in
      particular distinct starts have distinct keys. */
  lemma SlotKeyOrder(sn: string, u: nat, v: nat)
    requires u % MINUTE == 0 && v % MINUTE == 0
    requires FromMicros(u).date.year <= 9999 && FromMicros(v).date.year <= 9999
    ensures Before(SlotKey(sn, u), SlotKey(sn, v)) <==> u < v
    ensures SlotKey(sn, u) == SlotKey(sn, v) <==> u == v
  {
    var a, b := FromMicros(u), FromMicros(v);
    DayAligned(u);
    DayAligned(v);
    MicrosOrder(a, b);
    Date8Order(a.date, b.date);
    ParseDate8Date8(a.date);
    ParseDate8Date8(b.date);
    HHMMOrder(a, b);
    StrLessConcat(HHMM(a), "00", HHMM(b), "00");
    if Ordinal(a.date) == Ordinal(b.date) {
      OrdinalInjective(a.date, b.date);
    }
    if SlotKey(sn, u) == SlotKey(sn, v) {
      assert (HHMM(a) + "00")[..4] == HHMM(a) && (HHMM(b) + "00")[..4] == HHMM(b);
    }
  }

  /** The key columns of each row: DATE is the interval start's YYYYMMDD and TIME its HHMM
      followed by "00". */
  lemma LiveRowKey(sn: string, t: DateTime, s: seq<Sample>, step: nat, norm: Norm)
    requires Valid(t) && t.date.year <= 9999
    ensures |LiveRow(sn, Micros(t), s, step, norm).date| == 8
    ensures ParseDate8(LiveRow(sn, Micros(t), s, step, norm).date) == Some(t.date)
    ensures |LiveRow(sn, Micros(t), s, step, norm).time| == 6
    ensures ParseNat(LiveRow(sn, Micros(t), s, step, norm).time[..2]) == Hour(t)
    ensures ParseNat(LiveRow(sn, Micros(t), s, step, norm).time[2..4]) == Minute(t)
    ensures LiveRow(sn, Micros(t), s, step, norm).time[4..] == "00"
  {
    FromMicrosMicros(t);
    ParseDate8Date8(t.date);
    FieldBounds(t);
    var time := LiveRow(sn, Micros(t), s, step, norm).time;
    assert time[..2] == Pad2(Hour(t));
    assert time[2..4] == Pad2(Minute(t));
  }

  /** The query of `fetch_yolo_data_by_time_range`: the stored frames of device `sn` whose
      stamp text lies in `[Stamp(start), Stamp(end))` by string comparison; a frame without a
      stamp has a NULL `timestamp` and no comparison holds for it. */
  predicate InWindow(f: Frame, sn: string, start: DateTime, end: DateTime)
    requires Valid(start) && Valid(end)
  {
    f.device == sn && f.result.timestamp.Some?
    && StrLessEq(Stamp(start), f.result.timestamp.value)
    && StrLess(f.result.timestamp.value, Stamp(end))
  }

  function FetchByTimeRange(table: seq<Frame>, sn: string, start: DateTime, end: DateTime)
    : (r: seq<Frame>)
    requires Valid(start) && Valid(end)
    ensures |r| <= |table|
    ensures forall f :: f in r <==> f in table && InWindow(f, sn, start, end)
  {
    if table == [] then []
    else
      var rest := FetchByTimeRange(table[..|table| - 1], sn, start, end);
      var f := table[|table| - 1];
      assert table == table[..|table| - 1] + [f];
      if InWindow(f, sn, start, end) then rest + [f] else rest
  }

  /** What `process_current_interval` hands to the calculation: the fetched frames, or the one
      synthetic record when the query is empty. */
  function IntervalInput(fetched: seq<Frame>, start: DateTime): (frames: seq<Frame>)
    requires Valid(start)
    ensures frames != []
  {
    if fetched == [] then [EmptyFrame(start)] else fetched
  }

  /** The rows of one processing run; with both bounds given the range never fails. */
  function IntervalRows(fetched: seq<Frame>, start: DateTime, end: DateTime, norm: Norm)
    : seq<Row>
    requires Valid(start) && Valid(end)
  {
    ExpectedRows(IntervalInput(fetched, start), 1, Some(start), Some(end), start, norm).value
  }

  /** A run writes rows exactly when the range, started at its floored minute, is not empty. */
  lemma IntervalRowsEmpty(fetched: seq<Frame>, start: DateTime, end: DateTime, norm: Norm)
    requires Valid(start) && Valid(end)
    ensures ExpectedRows(IntervalInput(fetched, start), 1, Some(start), Some(end), start, norm).Ok?
    ensures IntervalRows(fetched, start, end, norm) == [] <==> Micros(end) <= Micros(FloorMinute(start))
  {
  }

  /** `process_current_interval`. `table` is the stored detection table and `fetchFault` says
      whether the query raises; `fault` is the row (if any) at which the write raises. The
      result is `True` only when rows were computed and all of them were saved and committed. */
  method ProcessCurrentInterval(store: ReportStore, table: seq<Frame>, fetchFault: bool,
                                start: DateTime, end: DateTime, norm: Norm, fault: Option<nat>)
    returns (ok: bool)
    requires Valid(start) && Valid(end)
    modifies store
    ensures var rows := IntervalRows(FetchByTimeRange(table, DEVICE_SN, start, end), start, end, norm);
      if fetchFault || rows == [] then
        !ok && store.view == old(store.view) && store.committed == old(store.committed)
      else if fault.None? || fault.value > |rows| then
        ok && store.committed == ApplyRows(old(store.view), rows) && store.view == store.committed
      else
        !ok && store.view == old(store.committed) && store.committed == old(store.committed)
  {
    if fetchFault {
      return false;
    }
    var fetched := FetchByTimeRange(table, DEVICE_SN, start, end);
    var frames := IntervalInput(fetched, start);
    var activity := CalculateActivity(frames, 1, Some(start), Some(end), start, norm);
    if activity.Err? || activity.value == [] {
      return false;
    }
    var saved := store.SaveActivityData(activity.value, fault);
    ok := saved.Ok?;
  }
}
