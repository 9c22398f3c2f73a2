/** The batch activity job run by cron every five minutes: the five-minute window before the
    clock, the distance between each pair of consecutive centres charged to the five-minute
    bucket of the later centre, one row per bucket that received a distance, in key order, and
    the insert-or-update that stores them. */
module ActivityBatch {
  import opened Wrappers
  import opened Civil
  import opened Sorting
  import opened Detection
  import opened ActiveReport
  import Live = ActivityLive

  /** The fixed device serial the job processes. */
  const DEVICE_SN := "SFRXC12515GF00001"

  // ---------------------------------------------------------------------------------------
  // The processed window

  /** `get_time_range`: `end` is the clock reading with its minute floored to a multiple of
      five and seconds and microseconds cleared, `start` five minutes before it; subtracting
      the five minutes raises OverflowError in the first minutes of year 1. */
  function TimeRange(now: DateTime): (r: Result<(DateTime, DateTime), string>)
    requires Valid(now)
    ensures r.Ok? <==> Micros(now) >= FIVE_MINUTES
    ensures r.Ok? ==> r.value.1 == FloorFiveMinutes(now)
    ensures r.Ok? ==> Valid(r.value.0) && Micros(r.value.0) + FIVE_MINUTES == Micros(r.value.1)
  {
    var end := FloorFiveMinutes(now);
    EndBound(now);
    if Micros(end) >= FIVE_MINUTES then Ok((Minus(end, FIVE_MINUTES), end))
    else Err("OverflowError")
  }

  lemma EndBound(now: DateTime)
    requires Valid(now)
    ensures Micros(FloorFiveMinutes(now)) >= FIVE_MINUTES <==> Micros(now) >= FIVE_MINUTES
  {
    BucketOf(now);
    BucketAtLeast(Micros(now));
  }

  lemma BucketAtLeast(u: nat)
    ensures Bucket(u) >= FIVE_MINUTES <==> u >= FIVE_MINUTES
  {
    if u < FIVE_MINUTES {
      assert u % FIVE_MINUTES == u;
    }
  }

  /** The window ends at the last five-minute boundary at or before the clock, on the clock's
      day and hour, and is five minutes long. */
  lemma TimeRangeWindow(now: DateTime)
    requires Valid(now) && Micros(now) >= FIVE_MINUTES
    ensures var (start, end) := TimeRange(now).value;
      Valid(start) && Valid(end) && end.date == now.date && Hour(end) == Hour(now)
      && Minute(end) % 5 == 0 && Minute(end) <= Minute(now) < Minute(end) + 5
      && Second(end) == 0 && end.micros % MINUTE == 0
      && Micros(end) % FIVE_MINUTES == 0
      && Micros(end) <= Micros(now) < Micros(end) + FIVE_MINUTES
      && Micros(start) + FIVE_MINUTES == Micros(end)
  {
    BucketOf(now);
    FloorFive(Minute(now));
    WholeMinutes(now.micros);
  }

  /** Flooring to five minutes leaves a whole number of minutes. */
  lemma WholeMinutes(m: nat)
    ensures (m - m % FIVE_MINUTES) % MINUTE == 0
  {
    assert m - m % FIVE_MINUTES == (m / FIVE_MINUTES * 5) * MINUTE;
  }

  lemma FloorFive(m: nat)
    ensures ((m / 5) * 5) % 5 == 0 && (m / 5) * 5 <= m < (m / 5) * 5 + 5
  {
  }

  /** The start of the five-minute bucket holding the instant `u` (microseconds). */
  function Bucket(u: nat): (b: nat)
    ensures b <= u < b + FIVE_MINUTES && b % FIVE_MINUTES == 0
  {
    u - u % FIVE_MINUTES
  }

  /** The bucket of an instant is the instant with its minute floored to a multiple of five
      and seconds and microseconds cleared. */
  lemma BucketOf(t: DateTime)
    requires Valid(t)
    ensures Micros(t) >= 0 && Bucket(Micros(t)) == Micros(FloorFiveMinutes(t))
  {
    MicrosNonNeg(t);
    OrdinalPositive(t.date);
    var q: nat := (Ordinal(t.date) - 1) * 288;
    assert Micros(t) == q * FIVE_MINUTES + t.micros;
    ShiftMod(q, t.micros);
  }

  lemma ShiftMod(q: nat, m: nat)
    ensures (q * FIVE_MINUTES + m) % FIVE_MINUTES == m % FIVE_MINUTES
  {
    var a, b := m / FIVE_MINUTES, m % FIVE_MINUTES;
    assert q * FIVE_MINUTES + m == (q + a) * FIVE_MINUTES + b;
  }

  // ---------------------------------------------------------------------------------------
  // Distances between consecutive centres

  /** `(curr_ts, dist)`: the later time stamp of a pair and the distance between the two. */
  datatype Step = Step(at: nat, dist: real)

  /** The `distances` list of sorted samples `s`. */
  function Steps(s: seq<Sample>, norm: Live.Norm): (r: seq<Step>)
    ensures |r| == if |s| == 0 then 0 else |s| - 1
    decreases |s|
  {
    if |s| < 2 then []
    else Steps(s[..|s| - 1], norm) + [Step(SampleKey(s[|s| - 1]), norm(s[|s| - 2].center, s[|s| - 1].center))]
  }

  /** Step `i` pairs sample `i` with sample `i + 1` and carries the time of the latter. */
  lemma {:induction false} StepsIndex(s: seq<Sample>, norm: Live.Norm, i: nat)
    requires i + 1 < |s|
    ensures Steps(s, norm)[i] == Step(SampleKey(s[i + 1]), norm(s[i].center, s[i + 1].center))
    decreases |s|
  {
    if i + 2 < |s| {
      var p := s[..|s| - 1];
      StepsIndex(p, norm, i);
      assert p[i] == s[i] && p[i + 1] == s[i + 1];
    }
  }

  /** The loop over `range(1, len(center_data))`. */
  method PairDistances(s: seq<Sample>, norm: Live.Norm) returns (steps: seq<Step>)
    ensures steps == Steps(s, norm)
  {
    steps := [];
    if |s| < 2 {
      return;
    }
    var i := 1;
    while i < |s|
      invariant 1 <= i <= |s|
      invariant steps == Steps(s[..i], norm)
    {
      steps := steps + [Step(SampleKey(s[i]), norm(s[i - 1].center, s[i].center))];
      assert s[..i + 1][..i] == s[..i];
      i := i + 1;
    }
    assert s[..i] == s;
  }

  // ---------------------------------------------------------------------------------------
  // Per-bucket sums

  /** One item of `activity_log`: a bucket and its accumulated distance. The dictionary is a
      list of items in insertion order. */
  datatype Entry = Entry(bucket: nat, total: real)

  function EntryKey(e: Entry): int { e.bucket }

  /** `activity_log.get(b, 0)`. */
  function Value(log: seq<Entry>, b: nat): real
    decreases |log|
  {
    if log == [] then 0.0
    else if log[0].bucket == b then log[0].total
    else Value(log[1..], b)
  }

  /** `activity_log[b] = activity_log.get(b, 0) + d`: an existing item keeps its place. */
  function AddTo(log: seq<Entry>, b: nat, d: real): (r: seq<Entry>)
    decreases |log|
  {
    if log == [] then [Entry(b, d)]
    else if log[0].bucket == b then [Entry(b, log[0].total + d)] + log[1..]
    else [log[0]] + AddTo(log[1..], b, d)
  }

  function Buckets(log: seq<Entry>): set<nat> {
    set i | 0 <= i < |log| :: log[i].bucket
  }

  /** The dictionary after the accumulation loop. */
  function Accumulated(steps: seq<Step>): seq<Entry>
    decreases |steps|
  {
    if steps == [] then []
    else
      var last := steps[|steps| - 1];
      AddTo(Accumulated(steps[..|steps| - 1]), Bucket(last.at), last.dist)
  }

  /** The loop `for ts, dist in distances`. */
  method Accumulate(steps: seq<Step>) returns (log: seq<Entry>)
    ensures log == Accumulated(steps)
  {
    log := [];
    for i := 0 to |steps|
      invariant log == Accumulated(steps[..i])
    {
      log := AddTo(log, Bucket(steps[i].at), steps[i].dist);
      assert steps[..i + 1][..i] == steps[..i];
    }
    assert steps[..|steps|] == steps;
  }

  /** The distances of the steps in bucket `b`, summed. */
  function SumIn(steps: seq<Step>, b: nat): real
    decreases |steps|
  {
    if steps == [] then 0.0
    else
      var last := steps[|steps| - 1];
      SumIn(steps[..|steps| - 1], b) + (if Bucket(last.at) == b then last.dist else 0.0)
  }

  function StepBuckets(steps: seq<Step>): set<nat> {
    set i | 0 <= i < |steps| :: Bucket(steps[i].at)
  }

  function Total(log: seq<Entry>): real
    decreases |log|
  {
    if log == [] then 0.0 else log[0].total + Total(log[1..])
  }

  function StepTotal(steps: seq<Step>): real
    decreases |steps|
  {
    if steps == [] then 0.0 else StepTotal(steps[..|steps| - 1]) + steps[|steps| - 1].dist
  }

  lemma BucketsCons(e: Entry, log: seq<Entry>)
    ensures Buckets([e] + log) == {e.bucket} + Buckets(log)
  {
    var r := [e] + log;
    assert r[0] == e;
    forall k | k in Buckets(r) ensures k in {e.bucket} + Buckets(log) {
      var i :| 0 <= i < |r| && r[i].bucket == k;
      if i > 0 { assert log[i - 1] == r[i]; }
    }
    forall k | k in Buckets(log) ensures k in Buckets(r) {
      var i :| 0 <= i < |log| && log[i].bucket == k;
      assert r[i + 1] == log[i];
    }
  }

  /** Adding to the dictionary adds `b` to its keys and keeps them distinct. */
  lemma {:induction false} AddToBuckets(log: seq<Entry>, b: nat, d: real)
    requires DistinctKeys(log, EntryKey)
    ensures DistinctKeys(AddTo(log, b, d), EntryKey)
    ensures Buckets(AddTo(log, b, d)) == Buckets(log) + {b}
    decreases |log|
  {
    if log == [] {
      BucketsCons(Entry(b, d), []);
    } else {
      var rest := log[1..];
      assert log == [log[0]] + rest;
      BucketsCons(log[0], rest);
      if log[0].bucket != b {
        AddToBuckets(rest, b, d);
        var ar := AddTo(rest, b, d);
        BucketsCons(log[0], ar);
        forall i | 0 <= i < |ar| ensures ar[i].bucket != log[0].bucket {
          assert ar[i].bucket in Buckets(ar);
          if ar[i].bucket != b {
            var j :| 0 <= j < |rest| && rest[j].bucket == ar[i].bucket;
            assert log[j + 1] == rest[j];
          }
        }
        assert AddTo(log, b, d) == [log[0]] + ar;
      } else {
        BucketsCons(Entry(b, log[0].total + d), rest);
        forall i | 0 < i < |log| ensures log[i].bucket != b {
          assert EntryKey(log[0]) != EntryKey(log[i]);
        }
      }
    }
  }

  /** Adding to the dictionary changes the value of `b` alone. */
  lemma {:induction false} AddToValue(log: seq<Entry>, b: nat, d: real, k: nat)
    ensures Value(AddTo(log, b, d), k) == Value(log, k) + (if k == b then d else 0.0)
    decreases |log|
  {
    if log != [] && log[0].bucket != b {
      AddToValue(log[1..], b, d, k);
    }
  }

  /** Adding `d` to the dictionary adds `d` to the sum of its values. */
  lemma {:induction false} AddToTotal(log: seq<Entry>, b: nat, d: real)
    ensures Total(AddTo(log, b, d)) == Total(log) + d
    decreases |log|
  {
    if log == [] {
      assert Total([Entry(b, d)]) == d + Total([]);
    } else if log[0].bucket != b {
      AddToTotal(log[1..], b, d);
      assert AddTo(log, b, d) == [log[0]] + AddTo(log[1..], b, d);
    } else {
      assert AddTo(log, b, d)[1..] == log[1..];
    }
  }

  /** The dictionary the loop builds: one item per bucket that received a distance, whose value
      is the sum of the distances in that bucket; together they hold every distance. */
  lemma {:induction false} AccumulatedProps(steps: seq<Step>)
    ensures DistinctKeys(Accumulated(steps), EntryKey)
    ensures Buckets(Accumulated(steps)) == StepBuckets(steps)
    ensures forall k :: Value(Accumulated(steps), k) == SumIn(steps, k)
    ensures Total(Accumulated(steps)) == StepTotal(steps)
    decreases |steps|
  {
    if steps != [] {
      var p := steps[..|steps| - 1];
      var last := steps[|steps| - 1];
      AccumulatedProps(p);
      AddToBuckets(Accumulated(p), Bucket(last.at), last.dist);
      AddToTotal(Accumulated(p), Bucket(last.at), last.dist);
      forall k ensures Value(Accumulated(steps), k) == SumIn(steps, k) {
        AddToValue(Accumulated(p), Bucket(last.at), last.dist, k);
      }
      assert StepBuckets(steps) == StepBuckets(p) + {Bucket(last.at)} by {
        forall k | k in StepBuckets(steps) ensures k in StepBuckets(p) + {Bucket(last.at)} {
          var i :| 0 <= i < |steps| && Bucket(steps[i].at) == k;
          if i < |p| { assert p[i] == steps[i]; }
        }
        forall k | k in StepBuckets(p) ensures k in StepBuckets(steps) {
          var i :| 0 <= i < |p| && Bucket(p[i].at) == k;
          assert steps[i] == p[i];
        }
      }
    }
  }

  /** With distinct keys, each item's value is what the dictionary returns for its key. */
  lemma {:induction false} ValueAt(log: seq<Entry>, i: nat)
    requires DistinctKeys(log, EntryKey) && i < |log|
    ensures Value(log, log[i].bucket) == log[i].total
    decreases |log|
  {
    if i > 0 {
      assert EntryKey(log[0]) != EntryKey(log[i]);
      ValueAt(log[1..], i - 1);
    }
  }

  // ---------------------------------------------------------------------------------------
  // Output rows

  /** The row of one bucket: the bucket start's `YYYYMMDD`, its `HHMM` followed by "00". */
  function BucketRow(sn: string, e: Entry): Row {
    var k := Live.SlotKey(sn, e.bucket);
    Row(k.sn, k.date, k.time, e.total)
  }

  function BucketRows(sn: string, log: seq<Entry>): (rows: seq<Row>)
    ensures |rows| == |log|
    decreases |log|
  {
    if log == [] then [] else BucketRows(sn, log[..|log| - 1]) + [BucketRow(sn, log[|log| - 1])]
  }

  lemma {:induction false} BucketRowsIndex(sn: string, log: seq<Entry>, i: nat)
    requires i < |log|
    ensures BucketRows(sn, log)[i] == BucketRow(sn, log[i])
    decreases |log|
  {
    if i < |log| - 1 {
      BucketRowsIndex(sn, log[..|log| - 1], i);
    }
  }

  /** The loop over `sorted(activity_log.items())`. */
  method EmitRows(sn: string, ordered: seq<Entry>) returns (rows: seq<Row>)
    ensures rows == BucketRows(sn, ordered)
  {
    rows := [];
    for i := 0 to |ordered|
      invariant rows == BucketRows(sn, ordered[..i])
    {
      rows := rows + [BucketRow(sn, ordered[i])];
      assert ordered[..i + 1][..i] == ordered[..i];
    }
    assert ordered[..|ordered|] == ordered;
  }

  /** The sorted samples of a frame. */
  function BatchSamples(frames: seq<Frame>): seq<Sample> { Live.SortSamples(Live.Samples(frames)) }

  /** `df['device'].iloc[0] if not df.empty else None`, with `None` as the empty text. */
  function BatchSn(frames: seq<Frame>): string { if frames == [] then "" else frames[0].device }

  function BatchSteps(frames: seq<Frame>, norm: Live.Norm): seq<Step> {
    Steps(BatchSamples(frames), norm)
  }

  /** `sorted(activity_log.items())`: the buckets are distinct, so the order is by bucket. */
  function BatchLog(frames: seq<Frame>, norm: Live.Norm): seq<Entry> {
    SortByKey(Accumulated(BatchSteps(frames, norm)), EntryKey)
  }

  /** What `calculate_activity` returns: no rows with fewer than two samples or a falsy serial,
      otherwise one row per bucket in bucket order. */
  function BatchActivity(frames: seq<Frame>, norm: Live.Norm): seq<Row> {
    if |BatchSamples(frames)| < 2 || BatchSn(frames) == "" then []
    else BucketRows(BatchSn(frames), BatchLog(frames, norm))
  }

  /** `calculate_activity` of the batch job. */
  method CalculateBatchActivity(frames: seq<Frame>, norm: Live.Norm) returns (rows: seq<Row>)
    ensures rows == BatchActivity(frames, norm)
  {
    var samples := Live.CollectSamples(frames);
    var sorted := Live.SortSamples(samples);
    assert sorted == BatchSamples(frames);
    if |sorted| < 2 {
      return [];
    }
    var steps := PairDistances(sorted, norm);
    var log := Accumulate(steps);
    assert SortByKey(log, EntryKey) == BatchLog(frames, norm);
    var sn := if frames == [] then "" else frames[0].device;
    assert sn == BatchSn(frames);
    if sn == "" {
      return [];
    }
    rows := EmitRows(sn, SortByKey(log, EntryKey));
  }

  // ---------------------------------------------------------------------------------------
  // Properties of the rows

  /** The bucket of step `j` is the later sample's instant floored to five minutes. */
  lemma StepBucketTime(s: seq<Sample>, norm: Live.Norm, j: nat)
    requires j + 1 < |s| && Valid(s[j + 1].at)
    ensures Bucket(Steps(s, norm)[j].at) == Micros(FloorFiveMinutes(s[j + 1].at))
    ensures FromMicros(Bucket(Steps(s, norm)[j].at)) == FloorFiveMinutes(s[j + 1].at)
  {
    StepsIndex(s, norm, j);
    BucketOf(s[j + 1].at);
    FromMicrosMicros(FloorFiveMinutes(s[j + 1].at));
  }

  /** The key of the row a pair is charged to: the later sample's date, and its time floored to
      five minutes as `HHMM` followed by "00". */
  lemma PairRowKey(frames: seq<Frame>, norm: Live.Norm, j: nat)
    requires j + 1 < |BatchSamples(frames)|
    ensures Valid(BatchSamples(frames)[j + 1].at)
    ensures var t := BatchSamples(frames)[j + 1].at;
      Live.SlotKey(BatchSn(frames), Bucket(BatchSteps(frames, norm)[j].at))
      == Key(BatchSn(frames), Date8(t.date), HHMM(FloorFiveMinutes(t)) + "00")
  {
    var s := BatchSamples(frames);
    BatchCalendar(frames);
    StepBucketTime(s, norm, j);
  }

  /** Samples on valid instants before year 10000, as the stamp parser yields them. */
  predicate Calendar(s: seq<Sample>) {
    forall i :: 0 <= i < |s| ==> Valid(s[i].at) && s[i].at.date.year <= 9999
  }

  lemma BatchCalendar(frames: seq<Frame>)
    ensures Calendar(BatchSamples(frames))
  {
    var raw := Live.Samples(frames);
    var s := BatchSamples(frames);
    forall i | 0 <= i < |s| ensures Valid(s[i].at) && s[i].at.date.year <= 9999 {
      assert s[i] in multiset(raw);
      var k :| 0 <= k < |raw| && raw[k] == s[i];
    }
  }

  /** Every bucket of the dictionary is a whole minute of a date before year 10000. */
  lemma LogBuckets(s: seq<Sample>, norm: Live.Norm, log: seq<Entry>, i: nat)
    requires Calendar(s) && log == SortByKey(Accumulated(Steps(s, norm)), EntryKey) && i < |log|
    ensures log[i].bucket % MINUTE == 0
    ensures FromMicros(log[i].bucket).date.year <= 9999
  {
    var j := LogBucketStep(Steps(s, norm), log, i);
    StepBucketTime(s, norm, j);
    FiveMinuteWhole(log[i].bucket);
  }

  /** Every bucket of the sorted dictionary is the bucket of some step. */
  lemma LogBucketStep(steps: seq<Step>, log: seq<Entry>, i: nat) returns (j: nat)
    requires log == SortByKey(Accumulated(steps), EntryKey) && i < |log|
    ensures j < |steps| && Bucket(steps[j].at) == log[i].bucket
  {
    var acc := Accumulated(steps);
    AccumulatedProps(steps);
    assert log[i] in multiset(acc);
    var p :| 0 <= p < |acc| && acc[p] == log[i];
    assert log[i].bucket in Buckets(acc);
    j :| 0 <= j < |steps| && Bucket(steps[j].at) == log[i].bucket;
  }

  lemma FiveMinuteWhole(b: nat)
    requires b % FIVE_MINUTES == 0
    ensures b % MINUTE == 0
  {
    assert b == b / FIVE_MINUTES * 5 * MINUTE;
  }

  /** The rows are in strictly increasing (DATE, TIME) order, so no two share a key. */
  lemma BatchRowsAscending(frames: seq<Frame>, norm: Live.Norm)
    ensures var rows := BatchActivity(frames, norm);
      forall i, j :: 0 <= i < j < |rows| ==> Before(KeyOf(rows[i]), KeyOf(rows[j]))
  {
    var rows := BatchActivity(frames, norm);
    if rows != [] {
      var sn := BatchSn(frames);
      var log := BatchLog(frames, norm);
      var s := BatchSamples(frames);
      BatchCalendar(frames);
      AccumulatedProps(BatchSteps(frames, norm));
      SortDistinctStrict(Accumulated(BatchSteps(frames, norm)), EntryKey);
      forall i, j | 0 <= i < j < |rows| ensures Before(KeyOf(rows[i]), KeyOf(rows[j])) {
        BucketRowsIndex(sn, log, i);
        BucketRowsIndex(sn, log, j);
        LogBuckets(s, norm, log, i);
        LogBuckets(s, norm, log, j);
        Live.SlotKeyOrder(sn, log[i].bucket, log[j].bucket);
      }
    }
  }

  /** A row holding bucket `b` of the steps: its key names the bucket and its value is the sum
      of the distances charged to it. */
  predicate ChargedRow(r: Row, sn: string, steps: seq<Step>, b: nat) {
    KeyOf(r) == Live.SlotKey(sn, b) && r.active == SumIn(steps, b)
  }

  /** Each pair's distance is charged to the bucket of its later sample: that bucket has a
      row holding the bucket's sum. */
  lemma {:induction false} BatchStepCharged(frames: seq<Frame>, norm: Live.Norm, j: nat)
    requires |BatchSamples(frames)| >= 2 && BatchSn(frames) != "" && j < |BatchSteps(frames, norm)|
    ensures exists i :: (0 <= i < |BatchActivity(frames, norm)|
      && ChargedRow(BatchActivity(frames, norm)[i], BatchSn(frames), BatchSteps(frames, norm),
                    Bucket(BatchSteps(frames, norm)[j].at)))
  {
    assert BatchActivity(frames, norm) == BucketRows(BatchSn(frames), BatchLog(frames, norm));
    StepRow(BatchSn(frames), BatchSteps(frames, norm), BatchLog(frames, norm), j);
  }

  /** Every row is the bucket of some pair and holds that bucket's sum (no zero-fill). */
  lemma {:induction false} BatchRowCharged(frames: seq<Frame>, norm: Live.Norm, i: nat)
    requires |BatchSamples(frames)| >= 2 && BatchSn(frames) != "" && i < |BatchActivity(frames, norm)|
    ensures exists j :: (0 <= j < |BatchSteps(frames, norm)|
      && ChargedRow(BatchActivity(frames, norm)[i], BatchSn(frames), BatchSteps(frames, norm),
                    Bucket(BatchSteps(frames, norm)[j].at)))
  {
    assert BatchActivity(frames, norm) == BucketRows(BatchSn(frames), BatchLog(frames, norm));
    RowStep(BatchSn(frames), BatchSteps(frames, norm), BatchLog(frames, norm), i);
  }

  lemma {:induction false} StepRow(sn: string, steps: seq<Step>, log: seq<Entry>, j: nat)
    requires log == SortByKey(Accumulated(steps), EntryKey) && j < |steps|
    ensures exists i :: 0 <= i < |BucketRows(sn, log)| && ChargedRow(BucketRows(sn, log)[i], sn, steps, Bucket(steps[j].at))
  {
    var i := StepLogIndex(steps, log, j);
    LogRowCharged(sn, steps, log, i);
  }

  lemma {:induction false} RowStep(sn: string, steps: seq<Step>, log: seq<Entry>, i: nat)
    requires log == SortByKey(Accumulated(steps), EntryKey) && i < |BucketRows(sn, log)|
    ensures exists j :: 0 <= j < |steps| && ChargedRow(BucketRows(sn, log)[i], sn, steps, Bucket(steps[j].at))
  {
    var j := LogBucketStep(steps, log, i);
    LogRowCharged(sn, steps, log, i);
  }

  /** The bucket of every step is an item of the sorted dictionary. */
  lemma {:induction false} StepLogIndex(steps: seq<Step>, log: seq<Entry>, j: nat) returns (i: nat)
    requires log == SortByKey(Accumulated(steps), EntryKey) && j < |steps|
    ensures i < |log| && log[i].bucket == Bucket(steps[j].at)
  {
    var acc := Accumulated(steps);
    AccumulatedProps(steps);
    var b := Bucket(steps[j].at);
    assert b in StepBuckets(steps);
    var p :| 0 <= p < |acc| && acc[p].bucket == b;
    assert acc[p] in multiset(log);
    i :| 0 <= i < |log| && log[i] == acc[p];
  }

  /** Row `i` holds the `i`-th bucket of the sorted dictionary and that bucket's sum. */
  lemma {:induction false} LogRowCharged(sn: string, steps: seq<Step>, log: seq<Entry>, i: nat)
    requires log == SortByKey(Accumulated(steps), EntryKey) && i < |log|
    ensures ChargedRow(BucketRows(sn, log)[i], sn, steps, log[i].bucket)
  {
    var acc := Accumulated(steps);
    AccumulatedProps(steps);
    BucketRowsIndex(sn, log, i);
    assert log[i] in multiset(acc);
    var p :| 0 <= p < |acc| && acc[p] == log[i];
    ValueAt(acc, p);
  }

  function ActiveSum(rows: seq<Row>): real
    decreases |rows|
  {
    if rows == [] then 0.0 else rows[0].active + ActiveSum(rows[1..])
  }

  /** The rows together hold every pair distance: their activities sum to the sum of the
      distances (before rounding). */
  lemma BatchRowsTotal(frames: seq<Frame>, norm: Live.Norm)
    requires |BatchSamples(frames)| >= 2 && BatchSn(frames) != ""
    ensures ActiveSum(BatchActivity(frames, norm)) == StepTotal(BatchSteps(frames, norm))
  {
    var acc := Accumulated(BatchSteps(frames, norm));
    AccumulatedProps(BatchSteps(frames, norm));
    TotalSort(acc);
    BucketRowsSum(BatchSn(frames), BatchLog(frames, norm));
  }

  lemma {:induction false} TotalAppend(log: seq<Entry>, e: Entry)
    ensures Total(log + [e]) == Total(log) + e.total
    decreases |log|
  {
    if log != [] {
      assert (log + [e])[1..] == log[1..] + [e];
      TotalAppend(log[1..], e);
    }
  }

  lemma {:induction false} ActiveSumAppend(rows: seq<Row>, r: Row)
    ensures ActiveSum(rows + [r]) == ActiveSum(rows) + r.active
    decreases |rows|
  {
    if rows != [] {
      assert (rows + [r])[1..] == rows[1..] + [r];
      ActiveSumAppend(rows[1..], r);
    }
  }

  lemma {:induction false} TotalInsert(x: Entry, log: seq<Entry>)
    ensures Total(Insert(x, log, EntryKey)) == x.total + Total(log)
    decreases |log|
  {
    if log != [] && EntryKey(x) >= EntryKey(log[0]) {
      TotalInsert(x, log[1..]);
    }
  }

  /** Sorting the items keeps the sum of their values. */
  lemma {:induction false} TotalSort(log: seq<Entry>)
    ensures Total(SortByKey(log, EntryKey)) == Total(log)
    decreases |log|
  {
    if log != [] {
      var p, x := log[..|log| - 1], log[|log| - 1];
      var sp := SortByKey(p, EntryKey);
      assert SortByKey(log, EntryKey) == Insert(x, sp, EntryKey);
      assert Total(log) == Total(p) + x.total by {
        assert p + [x] == log;
        TotalAppend(p, x);
      }
      TotalSort(p);
      TotalInsert(x, sp);
    }
  }

  /** Rows whose activities are, in order, the values of the items. */
  predicate ActivesMatch(rows: seq<Row>, log: seq<Entry>) {
    |rows| == |log| && forall i :: 0 <= i < |rows| ==> rows[i].active == log[i].total
  }

  lemma {:induction false} ActivesMatchSum(rows: seq<Row>, log: seq<Entry>)
    requires ActivesMatch(rows, log)
    ensures ActiveSum(rows) == Total(log)
    decreases |log|
  {
    if log != [] {
      assert ActivesMatch(rows[1..], log[1..]) by {
        forall i | 0 <= i < |rows| - 1 ensures rows[1..][i].active == log[1..][i].total {
          assert rows[1..][i] == rows[i + 1] && log[1..][i] == log[i + 1];
        }
      }
      ActivesMatchSum(rows[1..], log[1..]);
    }
  }

  lemma BucketRowsSum(sn: string, log: seq<Entry>)
    ensures ActiveSum(BucketRows(sn, log)) == Total(log)
  {
    var rows := BucketRows(sn, log);
    forall i | 0 <= i < |rows| ensures rows[i].active == log[i].total {
      BucketRowsIndex(sn, log, i);
    }
    ActivesMatchSum(rows, log);
  }

  /** The job produces no rows exactly when there are fewer than two samples or the serial is
      falsy. */
  lemma BatchActivityEmpty(frames: seq<Frame>, norm: Live.Norm)
    ensures BatchActivity(frames, norm) == [] <==> |Live.Samples(frames)| < 2 || BatchSn(frames) == ""
  {
    var steps := BatchSteps(frames, norm);
    if |BatchSamples(frames)| >= 2 {
      AccumulatedProps(steps);
      assert Bucket(steps[0].at) in StepBuckets(steps);
    }
  }

  // ---------------------------------------------------------------------------------------
  // Storing the rows and running the job

  /** `save_activity_data` of the batch job: for each row a count query on its key, then an
      UPDATE of `active` when the key exists or an INSERT otherwise, then a commit; an empty
      frame returns 0. `fault == Some(i)` makes the statements of row `i` raise (or the
      commit, for `i == |rows|`): the session is rolled back and the error re-raised. */
  method SaveBatchRows(store: ReportStore, rows: seq<Row>, fault: Option<nat>) returns (r: Result<nat, string>)
    modifies store
    ensures rows == [] ==> r == Ok(0) && store.view == old(store.view) && store.committed == old(store.committed)
    ensures rows != [] && (fault.None? || fault.value > |rows|) ==>
      r == Ok(|rows|) && store.committed == ApplyRows(old(store.view), rows) && store.view == store.committed
    ensures rows != [] && fault.Some? && fault.value <= |rows| ==>
      r.Err? && store.view == old(store.committed) && store.committed == old(store.committed)
  {
    if rows == [] {
      return Ok(0);
    }
    var count := 0;
    while count < |rows|
      invariant 0 <= count <= |rows|
      invariant store.view == ApplyRows(old(store.view), rows[..count])
      invariant store.committed == old(store.committed)
      invariant fault.Some? ==> count <= fault.value
    {
      if fault == Some(count) {
        store.Rollback();
        return Err("database error");
      }
      var row := rows[count];
      // The `UPDATE` of an existing record and the `INSERT` of a new one both leave the row's
      // `active` stored under its key.
      store.view := store.view[KeyOf(row) := row.active];
      assert rows[..count + 1][..count] == rows[..count];
      count := count + 1;
    }
    assert rows[..count] == rows;
    if fault == Some(count) {
      store.Rollback();
      return Err("database error");
    }
    store.Commit();
    r := Ok(count);
  }

  /** `fetch_all_yolo_data`: every stored frame of the device. */
  function DeviceFrames(table: seq<Frame>, sn: string): (r: seq<Frame>)
    ensures |r| <= |table|
    ensures forall f :: f in r <==> f in table && f.device == sn
  {
    if table == [] then []
    else
      var rest := DeviceFrames(table[..|table| - 1], sn);
      var f := table[|table| - 1];
      assert table == table[..|table| - 1] + [f];
      if f.device == sn then rest + [f] else rest
  }

  /** The frames a run reads: all of the device's in test mode, otherwise those of the window
      before the clock; nothing when computing the window raises. */
  function RunInput(table: seq<Frame>, testMode: bool, now: DateTime): Option<seq<Frame>>
    requires Valid(now)
  {
    if testMode then Some(DeviceFrames(table, DEVICE_SN))
    else
      match TimeRange(now)
      case Err(_) => None
      case Ok((start, end)) => Some(Live.FetchByTimeRange(table, DEVICE_SN, start, end))
  }

  function RunRows(table: seq<Frame>, testMode: bool, now: DateTime, norm: Live.Norm): seq<Row>
    requires Valid(now)
  {
    match RunInput(table, testMode, now)
    case None => []
    case Some(frames) => BatchActivity(frames, norm)
  }

  /** `process_current_interval` of the batch job, in its own session on `store`.
      `connectFault` and `fetchFault` make connecting and the query raise; `fault` is as in
      `SaveBatchRows`. The result is `True` exactly when rows were computed and all of them
      stored and committed; closing the session drops anything uncommitted. */
  method ProcessBatchInterval(store: ReportStore, table: seq<Frame>, connectFault: bool, fetchFault: bool,
                              testMode: bool, now: DateTime, norm: Live.Norm, fault: Option<nat>)
    returns (ok: bool)
    requires Valid(now)
    modifies store
    ensures store.view == store.committed
    ensures var rows := RunRows(table, testMode, now, norm);
      if connectFault || RunInput(table, testMode, now).None? || fetchFault || rows == [] then
        !ok && store.committed == old(store.committed)
      else if fault.None? || fault.value > |rows| then
        ok && store.committed == ApplyRows(old(store.committed), rows)
      else
        !ok && store.committed == old(store.committed)
  {
    store.Rollback();
    ok := false;
    if connectFault {
      store.Rollback();
      return;
    }
    var input := RunInput(table, testMode, now);
    if input.None? || fetchFault {
      store.Rollback();
      return;
    }
    var frames := input.value;
    if frames == [] {
      store.Rollback();
      return;
    }
    var rows := CalculateBatchActivity(frames, norm);
    if rows == [] {
      store.Rollback();
      return;
    }
    var saved := SaveBatchRows(store, rows, fault);
    ok := saved.Ok?;
    store.Rollback();
  }

  /** `main`: runs the job in the mode the `--test` flag selects and exits with 0 on success
      and 1 otherwise. */
  method RunJob(store: ReportStore, table: seq<Frame>, connectFault: bool, fetchFault: bool,
                testFlag: bool, now: DateTime, norm: Live.Norm, fault: Option<nat>)
    returns (code: int)
    requires Valid(now)
    modifies store
    ensures code == 0 || code == 1
    ensures var rows := RunRows(table, testFlag, now, norm);
      code == 0 <==>
        !connectFault && RunInput(table, testFlag, now).Some? && !fetchFault && rows != []
        && (fault.None? || fault.value > |rows|)
  {
    var success := ProcessBatchInterval(store, table, connectFault, fetchFault, testFlag, now, norm, fault);
    code := if success then 0 else 1;
  }
}
