/** The daily heatmap job: it reads one device's detector records for a day, extracts keypoint
    positions (stopping a record at its first keypoint without a coordinate pair), gates on
    ten points, and uploads the image under a key built from the day and the serial number. */
module HeatmapCron {
  import opened Wrappers
  import opened Text
  import opened Civil
  import opened Detection
  import opened HeatmapGenerator

  const DEVICE_SN: string := "SFRXC12515GF00001"

  /** A keypoint whose `xy` unpacks into `x, y`. */
  predicate Regular(kp: Keypoint) { kp.xy.Some? && |kp.xy.value| == 2 }

  /** The position of the first keypoint that does not unpack, or the length when all do. */
  function FirstIrregular(kps: seq<Keypoint>): (n: nat)
    ensures n <= |kps|
    ensures forall i :: 0 <= i < n ==> Regular(kps[i])
    ensures n < |kps| ==> !Regular(kps[n])
    decreases |kps|
  {
    if kps == [] || !Regular(kps[0]) then 0 else 1 + FirstIrregular(kps[1..])
  }

  /** How the loop over one subject's keypoints ends: after the last keypoint, on a keypoint
      without `xy` (KeyError, caught), or on an `xy` that is not a pair (ValueError, which the
      handler does not name and so leaves the job). */
  datatype Halt = Complete | MissingXy | NotAPair

  function HaltOf(kps: seq<Keypoint>): Halt {
    var n := FirstIrregular(kps);
    if n == |kps| then Complete else if kps[n].xy.None? then MissingXy else NotAPair
  }

  /** The inner loop `for kp in kps: x, y = kp["xy"]; ...`. */
  method SubjectKeypointsUnpacked(kps: seq<Keypoint>) returns (points: seq<Point>, halt: Halt)
    ensures points == SubjectPoints(kps[..FirstIrregular(kps)])
    ensures halt == HaltOf(kps)
  {
    points := [];
    for k := 0 to |kps|
      invariant k <= FirstIrregular(kps)
      invariant points == SubjectPoints(kps[..k])
    {
      var kp := kps[k];
      if kp.xy.None? {
        return points, MissingXy;
      }
      if |kp.xy.value| != 2 {
        return points, NotAPair;
      }
      SubjectPointsStep(kps, k);
      var x, y := kp.xy.value[0], kp.xy.value[1];
      if x > 0.0 && y > 0.0 {
        points := points + [Point(x, y)];
      }
    }
    halt := Complete;
  }

  /** A record whose first subject has an `xy` that is not a pair before any keypoint
      without `xy`. */
  predicate RaisesValueError(input: HeatmapInput) {
    Parse(input).Some? && HaltOf(FirstSubject(Parse(input).value)) == NotAPair
  }

  /** The points one record adds: its first subject's kept points up to the first keypoint
      that does not unpack. */
  function CronInputPoints(input: HeatmapInput): seq<Point> {
    match Parse(input)
    case None => []
    case Some(r) => var kps := FirstSubject(r); SubjectPoints(kps[..FirstIrregular(kps)])
  }

  /** The exceptions that leave the job: the ValueError of a record that does not unpack (with
      its position), the two configuration errors, a date before the first representable day,
      and a database error of the query (or of the connection it opens). */
  datatype JobError = PairUnpack(record: nat) | DatabaseUrlNotSet | AwsEnvNotSet | DateOverflow | QueryFailed

  /** The extraction of `generate_heatmap` in the job, over records in query order. */
  function CronKeptPoints(inputs: seq<HeatmapInput>): (r: Result<seq<Point>, JobError>)
    ensures r.Err? ==> r.error.PairUnpack? && r.error.record < |inputs|
    decreases |inputs|
  {
    if inputs == [] then Ok([])
    else
      var n := |inputs| - 1;
      match CronKeptPoints(inputs[..n])
      case Err(e) => Err(e)
      case Ok(ps) => if RaisesValueError(inputs[n]) then Err(PairUnpack(n)) else Ok(ps + CronInputPoints(inputs[n]))
  }

  /** One more record: an error stays, a raising record ends the extraction, any other adds its
      points. */
  lemma CronKeptPointsStep(inputs: seq<HeatmapInput>, i: nat)
    requires i < |inputs|
    ensures CronKeptPoints(inputs[..i + 1]) ==
      if CronKeptPoints(inputs[..i]).Err? then CronKeptPoints(inputs[..i])
      else if RaisesValueError(inputs[i]) then Err(PairUnpack(i))
      else Ok(CronKeptPoints(inputs[..i]).value + CronInputPoints(inputs[i]))
  {
    assert inputs[..i + 1][..i] == inputs[..i];
  }

  method CronExtractKeypoints(inputs: seq<HeatmapInput>) returns (r: Result<seq<Point>, JobError>)
    ensures r == CronKeptPoints(inputs)
  {
    var keypointsXy := [];
    for i := 0 to |inputs|
      invariant CronKeptPoints(inputs[..i]) == Ok(keypointsXy)
    {
      CronKeptPointsStep(inputs, i);
      var parsed := Parse(inputs[i]);
      if parsed.None? {
        assert keypointsXy + CronInputPoints(inputs[i]) == keypointsXy;
        continue;
      }
      var data := parsed.value;
      if data.keypoints.Some? && |data.keypoints.value| > 0 {
        var kps := data.keypoints.value[0];
        assert kps == FirstSubject(data);
        var points, halt := SubjectKeypointsUnpacked(kps);
        if halt == NotAPair {
          assert RaisesValueError(inputs[i]);
          CronErrorStays(inputs, i + 1);
          return Err(PairUnpack(i));
        }
        assert CronInputPoints(inputs[i]) == points;
        keypointsXy := keypointsXy + points;
      } else {
        assert FirstSubject(data) == [] && CronInputPoints(inputs[i]) == [];
        assert keypointsXy + CronInputPoints(inputs[i]) == keypointsXy;
      }
    }
    assert inputs[..|inputs|] == inputs;
    return Ok(keypointsXy);
  }

  /** `generate_heatmap` in the job: the ValueError escapes; otherwise an image exists only
      with at least ten points and a successful drawing. */
  method GenerateCronHeatmap(inputs: seq<HeatmapInput>, rendered: bool) returns (r: Result<bool, JobError>)
    ensures CronKeptPoints(inputs).Err? ==> r == Err(CronKeptPoints(inputs).error)
    ensures CronKeptPoints(inputs).Ok? ==> r == Ok(|CronKeptPoints(inputs).value| >= MIN_POINTS && rendered)
  {
    var extracted := CronExtractKeypoints(inputs);
    if extracted.Err? {
      return Err(extracted.error);
    }
    var keypointsXy := extracted.value;
    if |keypointsXy| < MIN_POINTS {
      return Ok(false);
    }
    return Ok(rendered);
  }

  // ---------------------------------------------------------------------------------------
  // Properties of the extraction

  /** Once the extraction of a prefix has raised, the whole extraction raises the same error. */
  lemma {:induction false} CronErrorStays(inputs: seq<HeatmapInput>, m: nat)
    requires m <= |inputs| && CronKeptPoints(inputs[..m]).Err?
    ensures CronKeptPoints(inputs) == CronKeptPoints(inputs[..m])
    decreases |inputs| - m
  {
    if m < |inputs| {
      CronKeptPointsStep(inputs, m);
      CronErrorStays(inputs, m + 1);
    } else {
      assert inputs[..m] == inputs;
    }
  }

  /** The error names the record that raised it. */
  lemma {:induction false} CronErrorSource(inputs: seq<HeatmapInput>)
    requires CronKeptPoints(inputs).Err?
    ensures RaisesValueError(inputs[CronKeptPoints(inputs).error.record])
    decreases |inputs|
  {
    var n := |inputs| - 1;
    var front := inputs[..n];
    if CronKeptPoints(front).Err? {
      CronErrorSource(front);
      assert inputs[CronKeptPoints(front).error.record] == front[CronKeptPoints(front).error.record];
    }
  }

  /** A raising record makes the extraction raise. */
  lemma CronErrorFrom(inputs: seq<HeatmapInput>, i: nat)
    requires i < |inputs| && RaisesValueError(inputs[i])
    ensures CronKeptPoints(inputs).Err?
  {
    CronKeptPointsStep(inputs, i);
    CronErrorStays(inputs, i + 1);
  }

  /** The job raises exactly when some record's first subject reaches an `xy` that is not a
      pair before any keypoint without `xy`. */
  lemma CronErrorIff(inputs: seq<HeatmapInput>)
    ensures CronKeptPoints(inputs).Err? <==> exists i :: 0 <= i < |inputs| && RaisesValueError(inputs[i])
  {
    if CronKeptPoints(inputs).Err? {
      CronErrorSource(inputs);
    }
    if exists i :: 0 <= i < |inputs| && RaisesValueError(inputs[i]) {
      var i :| 0 <= i < |inputs| && RaisesValueError(inputs[i]);
      CronErrorFrom(inputs, i);
    }
  }

  /** When every keypoint of every first subject unpacks, the job keeps the same points as the
      service-side extraction. */
  lemma {:induction false} CronAgreesWhenRegular(inputs: seq<HeatmapInput>)
    requires forall i :: 0 <= i < |inputs| && Parse(inputs[i]).Some? ==>
      forall kp :: kp in FirstSubject(Parse(inputs[i]).value) ==> Regular(kp)
    ensures CronKeptPoints(inputs) == Ok(KeptPoints(inputs))
    decreases |inputs|
  {
    if inputs != [] {
      var n := |inputs| - 1;
      CronAgreesWhenRegular(inputs[..n]);
      if Parse(inputs[n]).Some? {
        var kps := FirstSubject(Parse(inputs[n]).value);
        assert kps[..FirstIrregular(kps)] == kps;
      }
    }
  }

  /** A keypoint without `xy` ends its record: nothing after it in the same subject is kept. */
  lemma MissingXyTruncates(r: YoloResult, j: nat)
    requires j < |FirstSubject(r)| && FirstSubject(r)[j].xy.None?
    requires forall i :: 0 <= i < j ==> Regular(FirstSubject(r)[i])
    ensures !RaisesValueError(Decoded(r))
    ensures CronInputPoints(Decoded(r)) == SubjectPoints(FirstSubject(r)[..j])
  {
    var kps := FirstSubject(r);
    var n := FirstIrregular(kps);
    assert !Regular(kps[j]);
  }

  // ---------------------------------------------------------------------------------------
  // The jobs

  /** The environment the job sees: whether `DATABASE_URL` and the four AWS variables are set,
      whether the query raises (the engine connects only when the query runs, and the job's
      `try` has no `except`), and whether drawing and upload succeed. */
  datatype JobEnv = JobEnv(dbConfigured: bool, queryFails: bool, s3Configured: bool, rendered: bool, uploaded: bool)

  /** What a run did: the object key an upload was attempted under, and the returned flag. */
  datatype Run = Run(uploadKey: Option<string>, success: bool)

  /** `fetch_yolo_data` of the job: with a non-empty date the records on that day, otherwise
      every record of the device (no limit). */
  function CronFetch(table: seq<StoredResult>, sn: string, date: string): (r: seq<HeatmapInput>)
    ensures date != [] ==> r == ResultsOn(table, sn, DashedSlice(date))
    ensures date == [] ==> r == ResultsOf(table, sn)
  {
    if date != [] then ResultsOn(table, sn, DashedSlice(date)) else ResultsOf(table, sn)
  }

  /** The part of a run after the records are fetched, shared by both job kinds; `key` is the
      object key the image goes to. */
  function UploadRecords(records: seq<HeatmapInput>, key: string, env: JobEnv): (r: Result<Run, JobError>)
    ensures records == [] ==> r == Ok(Run(None, false))
    ensures r.Ok? && r.value.success ==> r.value.uploadKey == Some(key) && env.uploaded
    ensures r.Ok? && r.value.uploadKey.Some? ==>
      CronKeptPoints(records).Ok? && |CronKeptPoints(records).value| >= MIN_POINTS && env.rendered && env.s3Configured
  {
    if records == [] then Ok(Run(None, false))
    else match CronKeptPoints(records)
      case Err(e) => Err(e)
      case Ok(points) =>
        if |points| < MIN_POINTS || !env.rendered then Ok(Run(None, false))
        else if !env.s3Configured then Err(AwsEnvNotSet)
        else Ok(Run(Some(key), env.uploaded))
  }

  /** `process_device_heatmap`: `date` is the day to draw (`None` means today on the Korean
      clock `now`). */
  function ProcessDeviceHeatmap(sn: string, date: Option<string>, now: DateTime, table: seq<StoredResult>, env: JobEnv): (r: Result<Run, JobError>)
    requires Valid(now)
    ensures !env.dbConfigured ==> r == Err(DatabaseUrlNotSet)
    ensures env.dbConfigured && env.queryFails ==> r == Err(QueryFailed)
    ensures env.dbConfigured && !env.queryFails ==>
      r == UploadRecords(CronFetch(table, sn, date.GetOr(Date8(now.date))), HeatmapKey(date.GetOr(Date8(now.date)), sn), env)
  {
    var dateStr := if date.None? then Date8(now.date) else date.value;
    if !env.dbConfigured then Err(DatabaseUrlNotSet)
    else if env.queryFails then Err(QueryFailed)
    else UploadRecords(CronFetch(table, sn, dateStr), HeatmapKey(dateStr, sn), env)
  }

  /** `process_previous_day_heatmap`: the day before the Korean date of `now`. */
  function ProcessPreviousDayHeatmap(sn: string, now: DateTime, table: seq<StoredResult>, env: JobEnv): (r: Result<Run, JobError>)
    requires Valid(now)
    ensures now.date == MinDate ==> r == Err(DateOverflow)
    ensures now.date != MinDate ==> r == ProcessDeviceHeatmap(sn, Some(Date8(PrevDay(now.date))), now, table, env)
  {
    if now.date == MinDate then Err(DateOverflow)
    else ProcessDeviceHeatmap(sn, Some(Date8(PrevDay(now.date))), now, table, env)
  }

  /** `test_current_data_heatmap`: every record of the device, uploaded under the test key of
      today's date. */
  function TestCurrentDataHeatmap(sn: string, now: DateTime, table: seq<StoredResult>, env: JobEnv): (r: Result<Run, JobError>)
    requires Valid(now)
    ensures !env.dbConfigured ==> r == Err(DatabaseUrlNotSet)
    ensures env.dbConfigured && env.queryFails ==> r == Err(QueryFailed)
    ensures env.dbConfigured && !env.queryFails ==> r == UploadRecords(ResultsOf(table, sn), TestHeatmapKey(Date8(now.date), sn), env)
  {
    if !env.dbConfigured then Err(DatabaseUrlNotSet)
    else if env.queryFails then Err(QueryFailed)
    else UploadRecords(CronFetch(table, sn, ""), TestHeatmapKey(Date8(now.date), sn), env)
  }

  datatype Mode = Cron | Test

  /** `main`: exit status 0 on success and 1 otherwise; an exception leaves the job as an
      error. */
  function Main(mode: Mode, date: Option<string>, now: DateTime, table: seq<StoredResult>, env: JobEnv): (r: Result<int, JobError>)
    requires Valid(now)
    ensures r.Ok? ==> r.value in {0, 1}
  {
    var run :=
      if mode == Test then TestCurrentDataHeatmap(DEVICE_SN, now, table, env)
      else if date.Some? && date.value != [] then ProcessDeviceHeatmap(DEVICE_SN, date, now, table, env)
      else ProcessPreviousDayHeatmap(DEVICE_SN, now, table, env);
    match run
    case Err(e) => Err(e)
    case Ok(run) => Ok(if run.success then 0 else 1)
  }

  // ---------------------------------------------------------------------------------------
  // Properties of the jobs

  /** The cron job with an explicit date uploads under that date's key; without one it uploads
      under the previous day's key, and both draw only that day's records. */
  lemma MainCronKeys(date: Option<string>, now: DateTime, table: seq<StoredResult>, env: JobEnv)
    requires Valid(now) && env.dbConfigured
    ensures env.queryFails && ((date.Some? && date.value != []) || now.date != MinDate) ==>
      Main(Cron, date, now, table, env) == Err(QueryFailed)
    ensures date.Some? && date.value != [] && !env.queryFails ==>
      Main(Cron, date, now, table, env) ==
        (match UploadRecords(ResultsOn(table, DEVICE_SN, DashedSlice(date.value)), HeatmapKey(date.value, DEVICE_SN), env)
         case Err(e) => Err(e)
         case Ok(run) => Ok(if run.success then 0 else 1))
    ensures (date.None? || date.value == []) && now.date != MinDate && !env.queryFails ==>
      var day := Date8(PrevDay(now.date));
      Main(Cron, date, now, table, env) ==
        (match UploadRecords(ResultsOn(table, DEVICE_SN, DashedSlice(day)), HeatmapKey(day, DEVICE_SN), env)
         case Err(e) => Err(e)
         case Ok(run) => Ok(if run.success then 0 else 1))
  {
    if (date.None? || date.value == []) && now.date != MinDate {
      var prev := PrevDay(now.date);
      assert Date8(prev) != [] by {
        assert |Year4(prev.year)| >= 1 by { assert ParseNat(Year4(prev.year)) == prev.year; }
      }
    }
  }

  /** The previous-day job reads the records filed under the day before, written with dashes. */
  lemma PreviousDayFilter(now: DateTime)
    requires Valid(now) && now.date != MinDate && now.date.year <= 9999
    ensures DashedSlice(Date8(PrevDay(now.date))) == DateDashed(PrevDay(now.date))
    ensures HeatmapKey(Date8(PrevDay(now.date)), DEVICE_SN)[8..16] == Date8(PrevDay(now.date))
  {
    var prev := PrevDay(now.date);
    DashedSliceOfDate8(prev);
    HeatmapKeyParts(Date8(prev), DEVICE_SN, Date8(prev), DEVICE_SN);
  }

  /** A run that succeeds has uploaded under the key of its day and serial number. */
  lemma SuccessUploadsUnderKey(sn: string, date: string, now: DateTime, table: seq<StoredResult>, env: JobEnv)
    requires Valid(now) && date != []
    ensures var r := ProcessDeviceHeatmap(sn, Some(date), now, table, env);
      r.Ok? && r.value.success <==>
        env.dbConfigured && !env.queryFails && env.s3Configured && env.rendered && env.uploaded
        && ResultsOn(table, sn, DashedSlice(date)) != []
        && CronKeptPoints(ResultsOn(table, sn, DashedSlice(date))).Ok?
        && |CronKeptPoints(ResultsOn(table, sn, DashedSlice(date))).value| >= MIN_POINTS
    ensures var r := ProcessDeviceHeatmap(sn, Some(date), now, table, env);
      r.Ok? && r.value.success ==> r.value.uploadKey == Some(HeatmapKey(date, sn))
  {
  }
}
