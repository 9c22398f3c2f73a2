/** The service-side heatmap helpers: reading the detector records of one device, extracting
    the keypoint positions the heatmap is drawn from, the minimum-points gate, and the object
    key and URL of an uploaded heatmap. The drawing itself is an outcome given as a parameter. */
module HeatmapGenerator {
  import opened Wrappers
  import opened Text
  import opened Civil
  import opened Detection
  import opened Counting

  const DEVICE_SN: string := "SFRXC12515GF00001"

  /** `len(keypoints_xy) < 10` gives no heatmap. */
  const MIN_POINTS: nat := 10

  /** The service query's `LIMIT 1000` when no date is given. */
  const FETCH_LIMIT: nat := 1000

  datatype Point = Point(x: real, y: real)

  /** A stored `yolo_result`: an already decoded object, or JSON text together with what it
      decodes to (`None` when `json.loads` raises JSONDecodeError). */
  datatype HeatmapInput = Decoded(r: YoloResult) | Encoded(parsed: Option<YoloResult>)

  /** The record an input stands for, or nothing when it does not decode. */
  function Parse(input: HeatmapInput): Option<YoloResult> {
    match input
    case Decoded(r) => Some(r)
    case Encoded(p) => p
  }

  predicate Undecodable(input: HeatmapInput) { Parse(input).None? }

  /** `data["keypoints"][0]` when the key is present with a non-empty list, else nothing. */
  function FirstSubject(r: YoloResult): seq<Keypoint> {
    match r.keypoints
    case Some(ks) => if |ks| > 0 then ks[0] else []
    case None => []
  }

  /** The point of a keypoint that has an `xy` of two positive coordinates. */
  function PointOf(kp: Keypoint): (p: Option<Point>)
    ensures p.Some? <==> kp.xy.Some? && |kp.xy.value| == 2 && kp.xy.value[0] > 0.0 && kp.xy.value[1] > 0.0
    ensures p.Some? ==> kp.xy == Some([p.value.x, p.value.y])
  {
    match kp.xy
    case None => None
    case Some(xy) =>
      if |xy| == 2 && xy[0] > 0.0 && xy[1] > 0.0 then
        assert xy == [xy[0], xy[1]];
        Some(Point(xy[0], xy[1]))
      else None
  }

  /** The kept points of one subject's keypoints, in keypoint order. */
  function SubjectPoints(kps: seq<Keypoint>): (r: seq<Point>)
    ensures |r| <= |kps|
    ensures forall p :: p in r <==> exists kp :: kp in kps && PointOf(kp) == Some(p)
    decreases |kps|
  {
    if kps == [] then []
    else
      var last := kps[|kps| - 1];
      assert forall kp :: kp in kps <==> kp in kps[..|kps| - 1] || kp == last;
      SubjectPoints(kps[..|kps| - 1]) + (match PointOf(last) case Some(p) => [p] case None => [])
  }

  lemma SubjectPointsStep(kps: seq<Keypoint>, k: nat)
    requires k < |kps|
    ensures SubjectPoints(kps[..k + 1]) ==
      SubjectPoints(kps[..k]) + (if PointOf(kps[k]).Some? then [PointOf(kps[k]).value] else [])
  {
    assert kps[..k + 1][..k] == kps[..k];
  }

  function InputPoints(input: HeatmapInput): seq<Point> {
    match Parse(input)
    case None => []
    case Some(r) => SubjectPoints(FirstSubject(r))
  }

  /** `keypoints_xy` after the extraction loop: record order, then keypoint order. */
  function KeptPoints(inputs: seq<HeatmapInput>): seq<Point>
    decreases |inputs|
  {
    if inputs == [] then [] else KeptPoints(inputs[..|inputs| - 1]) + InputPoints(inputs[|inputs| - 1])
  }

  /** The inner loop of the extraction over one subject's keypoints. */
  method SubjectKeypointsXy(kps: seq<Keypoint>) returns (points: seq<Point>)
    ensures points == SubjectPoints(kps)
  {
    points := [];
    for k := 0 to |kps|
      invariant points == SubjectPoints(kps[..k])
    {
      SubjectPointsStep(kps, k);
      var kp := kps[k];
      if kp.xy.Some? && |kp.xy.value| == 2 {
        var x, y := kp.xy.value[0], kp.xy.value[1];
        if x > 0.0 && y > 0.0 {
          points := points + [Point(x, y)];
        }
      }
    }
    assert kps[..|kps|] == kps;
  }

  /** The extraction loop of `generate_heatmap`, with its two counters. */
  method ExtractKeypoints(inputs: seq<HeatmapInput>) returns (keypointsXy: seq<Point>, processedCount: nat, errorCount: nat)
    ensures keypointsXy == KeptPoints(inputs)
    ensures processedCount == |inputs|
    ensures errorCount == Count(inputs, Undecodable) && errorCount <= processedCount
  {
    keypointsXy := [];
    processedCount := 0;
    errorCount := 0;
    for i := 0 to |inputs|
      invariant keypointsXy == KeptPoints(inputs[..i])
      invariant processedCount == i
      invariant errorCount == Count(inputs[..i], Undecodable)
    {
      assert inputs[..i + 1][..i] == inputs[..i];
      assert KeptPoints(inputs[..i + 1]) == KeptPoints(inputs[..i]) + InputPoints(inputs[i]);
      processedCount := processedCount + 1;
      var parsed := Parse(inputs[i]);
      if parsed.None? {
        errorCount := errorCount + 1;
        continue;
      }
      var data := parsed.value;
      if data.keypoints.Some? && |data.keypoints.value| > 0 {
        var kps := data.keypoints.value[0];
        var points := SubjectKeypointsXy(kps);
        keypointsXy := keypointsXy + points;
      } else {
        assert FirstSubject(data) == [];
      }
    }
    assert inputs[..|inputs|] == inputs;
  }

  /** `generate_heatmap`: a heatmap exists only with at least ten kept points and when the
      drawing succeeds (`rendered`). */
  method GenerateHeatmap(inputs: seq<HeatmapInput>, rendered: bool) returns (produced: bool)
    ensures produced <==> |KeptPoints(inputs)| >= MIN_POINTS && rendered
  {
    var keypointsXy, processedCount, errorCount := ExtractKeypoints(inputs);
    if keypointsXy == [] || |keypointsXy| < MIN_POINTS {
      return false;
    }
    return rendered;
  }

  // ---------------------------------------------------------------------------------------
  // Properties of the extraction

  /** The points of a concatenation are the points of its parts, in order. */
  lemma {:induction false} KeptPointsAppend(a: seq<HeatmapInput>, b: seq<HeatmapInput>)
    ensures KeptPoints(a + b) == KeptPoints(a) + KeptPoints(b)
    decreases |b|
  {
    if b == [] {
      assert a + b == a;
    } else {
      var init, x := b[..|b| - 1], b[|b| - 1];
      assert KeptPoints(a + b) == KeptPoints(a + init) + InputPoints(x) by {
        assert (a + b)[..|a + b| - 1] == a + init;
        assert (a + b)[|a + b| - 1] == x;
      }
      KeptPointsAppend(a, init);
      assert KeptPoints(b) == KeptPoints(init) + InputPoints(x);
      AppendRegroup(KeptPoints(a), KeptPoints(init), InputPoints(x));
    }
  }

  lemma AppendRegroup(p: seq<Point>, q: seq<Point>, r: seq<Point>)
    ensures (p + q) + r == p + (q + r)
  {
  }

  /** A single record contributes its first subject's kept points; an undecodable record
      contributes nothing. */
  lemma KeptPointsOne(input: HeatmapInput)
    ensures KeptPoints([input]) == InputPoints(input)
    ensures Undecodable(input) ==> KeptPoints([input]) == []
  {
    assert [input][..0] == [];
  }

  /** Every point a record contributes is kept. */
  lemma {:induction false} KeptPointsContains(inputs: seq<HeatmapInput>, i: nat, p: Point)
    requires i < |inputs| && p in InputPoints(inputs[i])
    ensures p in KeptPoints(inputs)
  {
    assert inputs == inputs[..i] + [inputs[i]] + inputs[i + 1..];
    KeptPointsAppend(inputs[..i] + [inputs[i]], inputs[i + 1..]);
    KeptPointsAppend(inputs[..i], [inputs[i]]);
    KeptPointsOne(inputs[i]);
  }

  /** Every kept point comes from some record's first subject. */
  lemma {:induction false} KeptPointsSource(inputs: seq<HeatmapInput>, p: Point)
    requires p in KeptPoints(inputs)
    ensures exists i :: 0 <= i < |inputs| && p in InputPoints(inputs[i])
    decreases |inputs|
  {
    var n := |inputs| - 1;
    if p in KeptPoints(inputs[..n]) {
      KeptPointsSource(inputs[..n], p);
      var i :| 0 <= i < n && p in InputPoints(inputs[..n][i]);
      assert inputs[..n][i] == inputs[i];
    } else {
      assert p in InputPoints(inputs[n]);
    }
  }

  // ---------------------------------------------------------------------------------------
  // Fetching, object keys and upload

  /** A row of `capstone.yolo_results`: its `device` and `date` columns and its record. */
  datatype StoredResult = StoredResult(device: string, date: string, result: HeatmapInput)

  /** `f"{date_str[:4]}-{date_str[4:6]}-{date_str[6:8]}"`. */
  function DashedSlice(s: string): string {
    Slice(s, 0, 4) + "-" + Slice(s, 4, 6) + "-" + Slice(s, 6, 8)
  }

  /** The date filter of an eight-digit date is its `%Y-%m-%d` form. */
  lemma DashedSliceOfDate8(d: Date)
    requires ValidDate(d) && d.year <= 9999
    ensures DashedSlice(Date8(d)) == DateDashed(d)
  {
    DashedSliceOfParts(Year4(d.year), Pad2(d.month), Pad2(d.day));
  }

  lemma DashedSliceOfParts(y: string, m: string, dd: string)
    requires |y| == 4 && |m| == 2 && |dd| == 2
    ensures DashedSlice(y + m + dd) == y + "-" + m + "-" + dd
  {
    var s := y + m + dd;
    assert s[0..4] == y && s[4..6] == m && s[6..8] == dd;
  }

  /** The records of one device whose `date` column equals `date`, in table order. */
  function ResultsOn(table: seq<StoredResult>, sn: string, date: string): (r: seq<HeatmapInput>)
    ensures |r| <= |table|
    ensures forall x :: x in r <==> exists row :: row in table && row.device == sn && row.date == date && row.result == x
    decreases |table|
  {
    if table == [] then []
    else
      var last := table[|table| - 1];
      assert forall row :: row in table <==> row in table[..|table| - 1] || row == last;
      ResultsOn(table[..|table| - 1], sn, date) + (if last.device == sn && last.date == date then [last.result] else [])
  }

  /** The records of one device, in table order. */
  function ResultsOf(table: seq<StoredResult>, sn: string): (r: seq<HeatmapInput>)
    ensures |r| <= |table|
    ensures forall x :: x in r <==> exists row :: row in table && row.device == sn && row.result == x
    decreases |table|
  {
    if table == [] then []
    else
      var last := table[|table| - 1];
      assert forall row :: row in table <==> row in table[..|table| - 1] || row == last;
      ResultsOf(table[..|table| - 1], sn) + (if last.device == sn then [last.result] else [])
  }

  /** `fetch_yolo_data` of the service helpers over a table held newest first: with a date,
      the device's records on that date (the filter is the dashed form of the text's first
      eight characters); without one, the device's newest thousand records; a database error
      (`fault`) gives no records. */
  function FetchYoloData(table: seq<StoredResult>, sn: string, date: Option<string>, fault: bool): (r: seq<HeatmapInput>)
    ensures fault ==> r == []
    ensures !fault && date.Some? && date.value != [] ==> r == ResultsOn(table, sn, DashedSlice(date.value))
    ensures !fault && (date.None? || date.value == []) ==>
      |r| <= FETCH_LIMIT && |r| <= |ResultsOf(table, sn)| && r == ResultsOf(table, sn)[..|r|]
      && (|r| == FETCH_LIMIT || r == ResultsOf(table, sn))
  {
    if fault then []
    else if date.Some? && date.value != [] then ResultsOn(table, sn, DashedSlice(date.value))
    else
      var all := ResultsOf(table, sn);
      if |all| <= FETCH_LIMIT then all else all[..FETCH_LIMIT]
  }

  /** `yolo_result->>'timestamp'`: NULL for a record without a time stamp. */
  function StampOf(input: HeatmapInput): Option<string> {
    match Parse(input)
    case Some(r) => r.timestamp
    case None => None
  }

  /** Records listed in the order of `ORDER BY yolo_result->>'timestamp' DESC`. */
  predicate ListedNewestFirst(rs: seq<HeatmapInput>) {
    forall i, j :: 0 <= i < j < |rs| ==> StampAtMost(StampOf(rs[j]), StampOf(rs[i]))
  }

  /** A table listed in that order. */
  predicate NewestFirst(table: seq<StoredResult>) {
    forall i, j :: 0 <= i < j < |table| ==> StampAtMost(StampOf(table[j].result), StampOf(table[i].result))
  }

  /** The records of one device keep the order of the table. */
  lemma {:induction false} ResultsOfNewestFirst(table: seq<StoredResult>, sn: string)
    requires NewestFirst(table)
    ensures ListedNewestFirst(ResultsOf(table, sn))
    decreases |table|
  {
    if table != [] {
      var p := table[..|table| - 1];
      var last := table[|table| - 1];
      assert NewestFirst(p) by {
        forall i, j | 0 <= i < j < |p| ensures StampAtMost(StampOf(p[j].result), StampOf(p[i].result)) {
          assert p[i] == table[i] && p[j] == table[j];
        }
      }
      ResultsOfNewestFirst(p, sn);
      var dp := ResultsOf(p, sn);
      if last.device == sn {
        var d := dp + [last.result];
        assert d == ResultsOf(table, sn);
        forall i, j | 0 <= i < j < |d| ensures StampAtMost(StampOf(d[j]), StampOf(d[i])) {
          if j < |dp| {
            assert d[i] == dp[i] && d[j] == dp[j];
          } else {
            assert dp[i] in dp && d[i] == dp[i];
            var row :| row in p && row.device == sn && row.result == dp[i];
            var k :| 0 <= k < |p| && p[k] == row;
            assert table[k] == row && k < |table| - 1;
          }
        }
      } else {
        assert dp == ResultsOf(table, sn);
      }
    }
  }

  /** Without a date, over a table in the query's order, the records read are the device's
      newest ones, newest first: none left out is newer than any read. */
  lemma FetchedAreNewest(table: seq<StoredResult>, sn: string, date: Option<string>)
    requires NewestFirst(table) && (date.None? || date.value == [])
    ensures ListedNewestFirst(FetchYoloData(table, sn, date, false))
    ensures var d, r := ResultsOf(table, sn), FetchYoloData(table, sn, date, false);
      forall i, j :: 0 <= i < |r| <= j < |d| ==> StampAtMost(StampOf(d[j]), StampOf(r[i]))
  {
    ResultsOfNewestFirst(table, sn);
    var d, r := ResultsOf(table, sn), FetchYoloData(table, sn, date, false);
    assert r == d[..|r|];
  }

  /** `f"heatmap/{date}/{sn}_heatmap.png"`, the key both jobs upload to. */
  function HeatmapKey(date: string, sn: string): string {
    "heatmap/" + date + "/" + sn + "_heatmap.png"
  }

  /** `f"heatmap/{date}/{sn}_heatmap_test.png"`, the key of a test run. */
  function TestHeatmapKey(date: string, sn: string): string {
    "heatmap/" + date + "/" + sn + "_heatmap_test.png"
  }

  /** An eight-character date and the serial number can be read back from the key, and a
      test key is never a regular key. */
  lemma HeatmapKeyParts(date: string, sn: string, date': string, sn': string)
    requires |date| == 8 && |date'| == 8
    ensures HeatmapKey(date, sn)[8..16] == date
    ensures HeatmapKey(date, sn) == HeatmapKey(date', sn') ==> date == date' && sn == sn'
    ensures HeatmapKey(date, sn) != TestHeatmapKey(date', sn')
  {
    var k, k' := HeatmapKey(date, sn), HeatmapKey(date', sn');
    assert k[8..16] == date && k'[8..16] == date';
    if k == k' {
      assert |sn| == |sn'|;
      assert k[17..17 + |sn|] == sn && k'[17..17 + |sn'|] == sn';
    }
    var t := TestHeatmapKey(date', sn');
    assert k[|k| - 5] == 'p' && t[|t| - 5] == 't';
  }

  /** `f"https://{bucket_name}.s3.amazonaws.com/{s3_key}"`. */
  function S3Url(bucket: string, key: string): string {
    "https://" + bucket + ".s3.amazonaws.com/" + key
  }

  /** `upload_to_s3` of the service helpers: a missing local file is a failure without a URL, a
      completed upload gives the object's URL, a failed one neither. */
  function UploadToS3(bucket: string, key: string, fileExists: bool, uploaded: bool): (r: (bool, Option<string>))
    ensures r.0 <==> fileExists && uploaded
    ensures r.1.Some? <==> r.0
    ensures r.0 ==> r.1.value == S3Url(bucket, key) && EndsWith(r.1.value, "/" + key)
  {
    if !fileExists then (false, None)
    else if uploaded then
      var url := S3Url(bucket, key);
      assert url[|url| - |"/" + key|..] == "/" + key;
      (true, Some(url))
    else (false, None)
  }
}
