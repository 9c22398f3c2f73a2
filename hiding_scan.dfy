/** The offline hiding scanner: it walks the detector records in time-stamp order and logs the
    frames it judges hidden, each time stamp at most once. Its state is the log, the set of
    time stamps already logged and a record of the previous frame. */
module HidingScan {
  import opened Wrappers
  import opened Detection
  import opened Counting

  const LOW_CONF: real := 0.3
  const LOW_KEYPOINTS: nat := 6

  /** Why a frame was logged: two box-less frames in a row, at least six low-confidence
      keypoints (with their names and confidences), or a hidden frame right after it. */
  datatype Reason = ConsecutiveNoBox | LowConf(kpts: seq<(string, real)>) | FollowedBy(next: Option<string>)

  datatype LogEntry = LogEntry(ts: Option<string>, reason: Reason)

  /** `prev_info`. */
  datatype Prev = Prev(ts: Option<string>, noBox: bool)

  /** `hide_log`, `added_timestamps` and `prev_info`. */
  datatype ScanState = ScanState(log: seq<LogEntry>, added: set<Option<string>>, prev: Prev)

  /** The uncaught exceptions, with the position of the record that raised them. */
  datatype ScanError = IndexError(frame: nat) | KeyError(frame: nat)

  const Start: ScanState := ScanState([], {}, Prev(None, false))

  /** `yolo_data.get("keypoints", [[]])[0]`: an empty `keypoints` list raises IndexError. */
  function SubjectKeypoints(r: YoloResult): Option<seq<Keypoint>> {
    match r.keypoints
    case None => Some([])
    case Some(ks) => if ks == [] then None else Some(ks[0])
  }

  predicate HasLowConf(k: Keypoint) { k.conf.Some? && k.conf.value <= LOW_CONF }

  /** A keypoint the comprehension raises KeyError on: no `conf`, or a low `conf` and no
      `name`. */
  predicate Unreadable(k: Keypoint) { k.conf.None? || (k.conf.value <= LOW_CONF && k.name.None?) }

  /** `[{"name": kp["name"], "conf": kp["conf"]} for kp in keypoints_list if kp["conf"] <= 0.3]`,
      or nothing when it raises KeyError. */
  function LowConfList(kps: seq<Keypoint>): (r: Option<seq<(string, real)>>)
    ensures r.None? <==> exists k :: k in kps && Unreadable(k)
    ensures r.Some? ==> |r.value| == Count(kps, HasLowConf)
    ensures r.Some? ==> forall p :: p in r.value ==> exists k :: k in kps && k.name == Some(p.0) && k.conf == Some(p.1) && p.1 <= LOW_CONF
    decreases |kps|
  {
    if kps == [] then Some([])
    else
      var last := kps[|kps| - 1];
      var front := kps[..|kps| - 1];
      assert forall k :: k in kps <==> k in front || k == last;
      match LowConfList(front)
      case None => None
      case Some(low) =>
        match last.conf
        case None => assert last in kps && Unreadable(last); None
        case Some(c) =>
          if c <= LOW_CONF then
            match last.name
            case None => assert last in kps && Unreadable(last); None
            case Some(n) => Some(low + [(n, c)])
          else Some(low)
  }

  /** Appends an entry and marks its time stamp as logged. */
  function Append(st: ScanState, ts: Option<string>, reason: Reason): ScanState {
    st.(log := st.log + [LogEntry(ts, reason)], added := st.added + {ts})
  }

  /** `if ts not in added_timestamps:` append and mark. */
  function LogOnce(st: ScanState, ts: Option<string>, reason: Reason): ScanState {
    if ts in st.added then st else Append(st, ts, reason)
  }

  /** `for ts in tss:` log each time stamp once. */
  function LogEach(st: ScanState, tss: seq<Option<string>>, reason: Reason): ScanState
    decreases |tss|
  {
    if tss == [] then st else LogOnce(LogEach(st, tss[..|tss| - 1], reason), tss[|tss| - 1], reason)
  }

  /** One pass of the loop body over record `r`, the `i`-th. */
  function Step(st: ScanState, r: YoloResult, i: nat): Result<ScanState, ScanError> {
    var ts := r.timestamp;
    match SubjectKeypoints(r)
    case None => Err(IndexError(i))
    case Some(kps) =>
      if BoxesOf(r) == [] then
        var s1 := if st.prev.noBox
          then LogEach(st, [st.prev.ts, ts], ConsecutiveNoBox)
          else st;
        Ok(s1.(prev := Prev(ts, true)))
      else
        var s0 := st.(prev := st.prev.(noBox := false));
        match LowConfList(kps)
        case None => Err(KeyError(i))
        case Some(low) =>
          var s1 :=
            if |low| >= LOW_KEYPOINTS && ts !in s0.added then
              var s2 := Append(s0, ts, LowConf(low));
              if s2.prev.noBox && s2.prev.ts !in s2.added then Append(s2, s2.prev.ts, FollowedBy(ts)) else s2
            else s0;
          Ok(s1.(prev := Prev(ts, false)))
  }

  /** The state after the records of `data`, or the first exception. */
  function Scan(data: seq<YoloResult>): Result<ScanState, ScanError>
    decreases |data|
  {
    if data == [] then Ok(Start)
    else
      match Scan(data[..|data| - 1])
      case Err(e) => Err(e)
      case Ok(st) => Step(st, data[|data| - 1], |data| - 1)
  }

  /** The scan loop; its result is the final `hide_log`, or the exception that ends the run. */
  method RunScan(data: seq<YoloResult>) returns (r: Result<seq<LogEntry>, ScanError>)
    ensures Scan(data).Ok? ==> r == Ok(Scan(data).value.log)
    ensures Scan(data).Err? ==> r == Err(Scan(data).error)
  {
    var hideLog: seq<LogEntry> := [];
    var addedTimestamps: set<Option<string>> := {};
    var prevInfo := Prev(None, false);
    var i := 0;
    while i < |data|
      invariant 0 <= i <= |data|
      invariant Scan(data[..i]) == Ok(ScanState(hideLog, addedTimestamps, prevInfo))
    {
      assert data[..i + 1][..i] == data[..i];
      var yoloData := data[i];
      var timestamp := yoloData.timestamp;
      var boxes := BoxesOf(yoloData);
      var keypoints := SubjectKeypoints(yoloData);
      if keypoints.None? {
        ScanErrorStays(data, i + 1);
        return Err(IndexError(i));
      }
      var keypointsList := keypoints.value;
      if boxes == [] {
        if prevInfo.noBox {
          var pair := [prevInfo.ts, timestamp];
          ghost var before := ScanState(hideLog, addedTimestamps, prevInfo);
          for k := 0 to |pair|
            invariant ScanState(hideLog, addedTimestamps, prevInfo) == LogEach(before, pair[..k], ConsecutiveNoBox)
          {
            assert pair[..k + 1][..k] == pair[..k];
            var ts := pair[k];
            if ts !in addedTimestamps {
              hideLog := hideLog + [LogEntry(ts, ConsecutiveNoBox)];
              addedTimestamps := addedTimestamps + {ts};
            }
          }
          assert pair[..|pair|] == pair;
        }
        prevInfo := Prev(timestamp, true);
      } else {
        prevInfo := prevInfo.(noBox := false);
        var lowConfKpts := LowConfList(keypointsList);
        if lowConfKpts.None? {
          ScanErrorStays(data, i + 1);
          return Err(KeyError(i));
        }
        var isHiding := |lowConfKpts.value| >= LOW_KEYPOINTS;
        if isHiding && timestamp !in addedTimestamps {
          hideLog := hideLog + [LogEntry(timestamp, LowConf(lowConfKpts.value))];
          addedTimestamps := addedTimestamps + {timestamp};
          if prevInfo.noBox && prevInfo.ts !in addedTimestamps {
            hideLog := hideLog + [LogEntry(prevInfo.ts, FollowedBy(timestamp))];
            addedTimestamps := addedTimestamps + {prevInfo.ts};
          }
        }
        prevInfo := Prev(timestamp, false);
      }
      i := i + 1;
    }
    assert data[..|data|] == data;
    return Ok(hideLog);
  }

  /** Once a prefix raises, the whole run ends with that exception. */
  lemma {:induction false} ScanErrorStays(data: seq<YoloResult>, n: nat)
    requires n <= |data| && Scan(data[..n]).Err?
    ensures Scan(data) == Scan(data[..n])
    decreases |data|
  {
    if n < |data| {
      assert data[..|data| - 1][..n] == data[..n];
      ScanErrorStays(data[..|data| - 1], n);
    } else {
      assert data[..n] == data;
    }
  }

  // ---------------------------------------------------------------------------------------
  // The log and the set of logged time stamps

  function Logged(log: seq<LogEntry>): set<Option<string>> {
    set i | 0 <= i < |log| :: log[i].ts
  }

  /** No time stamp is logged twice, and the set holds exactly the logged time stamps. */
  predicate Consistent(st: ScanState) {
    (forall i, j :: 0 <= i < j < |st.log| ==> st.log[i].ts != st.log[j].ts)
    && st.added == Logged(st.log)
  }

  lemma AppendConsistent(st: ScanState, ts: Option<string>, reason: Reason)
    requires Consistent(st) && ts !in st.added
    ensures Consistent(Append(st, ts, reason))
    ensures Logged(Append(st, ts, reason).log) == Logged(st.log) + {ts}
  {
    var log := Append(st, ts, reason).log;
    forall x | x in Logged(log) ensures x in Logged(st.log) + {ts} {
      var i :| 0 <= i < |log| && log[i].ts == x;
      if i < |st.log| {
        assert log[i] == st.log[i];
      }
    }
    forall x | x in Logged(st.log) + {ts} ensures x in Logged(log) {
      if x == ts {
        assert log[|st.log|].ts == ts;
      } else {
        var i :| 0 <= i < |st.log| && st.log[i].ts == x;
        assert log[i] == st.log[i];
      }
    }
  }

  lemma {:induction false} LogEachConsistent(st: ScanState, tss: seq<Option<string>>, reason: Reason)
    requires Consistent(st)
    ensures Consistent(LogEach(st, tss, reason))
    ensures st.log <= LogEach(st, tss, reason).log
    ensures LogEach(st, tss, reason).prev == st.prev
    ensures Logged(LogEach(st, tss, reason).log) == Logged(st.log) + (set t | t in tss)
    decreases |tss|
  {
    if tss != [] {
      var front := tss[..|tss| - 1];
      var last := tss[|tss| - 1];
      LogEachConsistent(st, front, reason);
      var mid := LogEach(st, front, reason);
      assert LogEach(st, tss, reason) == LogOnce(mid, last, reason);
      LogOnceConsistent(mid, last, reason);
      StampsOfSnoc(tss, front, last);
    }
  }

  lemma StampsOfSnoc(tss: seq<Option<string>>, front: seq<Option<string>>, last: Option<string>)
    requires tss != [] && front == tss[..|tss| - 1] && last == tss[|tss| - 1]
    ensures (set t | t in tss) == (set t | t in front) + {last}
  {
    forall t | t in tss ensures t in front || t == last {
      var i :| 0 <= i < |tss| && tss[i] == t;
      if i < |front| {
        assert front[i] == t;
      }
    }
  }

  /** Logging one time stamp once keeps the state consistent and marks the stamp. */
  lemma LogOnceConsistent(st: ScanState, ts: Option<string>, reason: Reason)
    requires Consistent(st)
    ensures Consistent(LogOnce(st, ts, reason))
    ensures st.log <= LogOnce(st, ts, reason).log
    ensures LogOnce(st, ts, reason).prev == st.prev
    ensures Logged(LogOnce(st, ts, reason).log) == Logged(st.log) + {ts}
  {
    if ts !in st.added {
      AppendConsistent(st, ts, reason);
    }
  }

  /** A box-less record: when the previous frame was box-less too, both time stamps end up
      logged (each at most once); otherwise nothing is logged. */
  lemma BoxlessStep(st: ScanState, r: YoloResult, i: nat)
    requires Consistent(st) && NoBox(r) && r.keypoints != Some([])
    ensures Step(st, r, i).Ok?
    ensures Consistent(Step(st, r, i).value)
    ensures Step(st, r, i).value.prev == Prev(r.timestamp, true)
    ensures st.log <= Step(st, r, i).value.log
    ensures st.prev.noBox ==> Logged(Step(st, r, i).value.log) == Logged(st.log) + {st.prev.ts, r.timestamp}
    ensures !st.prev.noBox ==> Step(st, r, i).value.log == st.log
  {
    if st.prev.noBox {
      var pair := [st.prev.ts, r.timestamp];
      LogEachConsistent(st, pair, ConsecutiveNoBox);
      assert (set t | t in pair) == {st.prev.ts, r.timestamp};
    }
  }

  /** A boxed record adds at most its own entry: it is logged exactly when it has at least six
      low-confidence keypoints and its time stamp is not logged yet. The previous frame is never
      logged here, whatever it was. */
  lemma BoxedStep(st: ScanState, r: YoloResult, i: nat)
    requires !NoBox(r) && r.keypoints != Some([])
    requires !exists k :: k in SubjectKeypoints(r).value && Unreadable(k)
    ensures Step(st, r, i).Ok?
    ensures Step(st, r, i).value.prev == Prev(r.timestamp, false)
    ensures var low := LowConfList(SubjectKeypoints(r).value).value;
      Step(st, r, i).value.log
        == st.log + (if |low| >= LOW_KEYPOINTS && r.timestamp !in st.added then [LogEntry(r.timestamp, LowConf(low))] else [])
    ensures var low := LowConfList(SubjectKeypoints(r).value).value;
      Step(st, r, i).value.added == st.added + (if |low| >= LOW_KEYPOINTS then {r.timestamp} else {})
  {
  }

  lemma StepConsistent(st: ScanState, r: YoloResult, i: nat)
    requires Consistent(st) && Step(st, r, i).Ok?
    ensures Consistent(Step(st, r, i).value)
    ensures st.log <= Step(st, r, i).value.log
  {
    if NoBox(r) {
      BoxlessStep(st, r, i);
    } else {
      BoxedStep(st, r, i);
      var low := LowConfList(SubjectKeypoints(r).value).value;
      if |low| >= LOW_KEYPOINTS && r.timestamp !in st.added {
        AppendConsistent(st, r.timestamp, LowConf(low));
      }
    }
  }

  /** Every state the scan reaches is consistent: no time stamp is logged twice, and each
      append goes with an add to the set. */
  lemma {:induction false} ScanConsistent(data: seq<YoloResult>)
    requires Scan(data).Ok?
    ensures Consistent(Scan(data).value)
    decreases |data|
  {
    if data != [] {
      ScanConsistent(data[..|data| - 1]);
      StepConsistent(Scan(data[..|data| - 1]).value, data[|data| - 1], |data| - 1);
    }
  }

  /** The log only grows: the log after any prefix of the records begins the final log. */
  lemma {:induction false} ScanAppendOnly(data: seq<YoloResult>, n: nat)
    requires n <= |data| && Scan(data).Ok?
    ensures Scan(data[..n]).Ok?
    ensures Scan(data[..n]).value.log <= Scan(data).value.log
    decreases |data|
  {
    if n < |data| {
      var front := data[..|data| - 1];
      assert front[..n] == data[..n];
      ScanConsistent(front);
      StepConsistent(Scan(front).value, data[|data| - 1], |data| - 1);
      ScanAppendOnly(front, n);
    } else {
      assert data[..n] == data;
    }
  }

  /** `prev_info` describes the last record read. */
  lemma ScanPrev(data: seq<YoloResult>)
    requires data != [] && Scan(data).Ok?
    ensures Scan(data).value.prev == Prev(data[|data| - 1].timestamp, NoBox(data[|data| - 1]))
  {
    var r := data[|data| - 1];
    if NoBox(r) {
      ScanConsistent(data[..|data| - 1]);
      BoxlessStep(Scan(data[..|data| - 1]).value, r, |data| - 1);
    } else {
      BoxedStep(Scan(data[..|data| - 1]).value, r, |data| - 1);
    }
  }

  /** A run that raises stops at the first record that raises: the records before it scan
      without error. Parsing the keypoints raises IndexError for an empty `keypoints` list,
      whether or not the record has boxes; the comprehension raises KeyError only for a boxed
      record. */
  lemma {:induction false} ScanFirstError(data: seq<YoloResult>)
    requires Scan(data).Err?
    ensures var e := Scan(data).error;
      e.frame < |data| && Scan(data[..e.frame]).Ok?
      && Scan(data[..e.frame + 1]) == Scan(data)
      && (e.IndexError? <==> data[e.frame].keypoints == Some([]))
      && (e.KeyError? ==>
            !NoBox(data[e.frame]) && exists k :: k in SubjectKeypoints(data[e.frame]).value && Unreadable(k))
    decreases |data|
  {
    var front := data[..|data| - 1];
    if Scan(front).Err? {
      ScanFirstError(front);
      var e := Scan(front).error;
      assert front[..e.frame] == data[..e.frame];
      assert front[..e.frame + 1] == data[..e.frame + 1];
    } else {
      assert data[..|data| - 1 + 1] == data;
    }
  }

  /** An isolated box-less record, with a boxed record on each side, is never logged: the
      steps of the box-less record and of the boxed record after it add only the latter's own
      entry, if any. */
  lemma IsolatedBoxless(st: ScanState, r0: YoloResult, r1: YoloResult, r2: YoloResult, i: nat)
    requires Consistent(st) && !NoBox(r0) && NoBox(r1) && !NoBox(r2)
    requires Step(st, r0, i).Ok?
    requires Step(Step(st, r0, i).value, r1, i + 1).Ok?
    requires Step(Step(Step(st, r0, i).value, r1, i + 1).value, r2, i + 2).Ok?
    ensures var s1 := Step(st, r0, i).value;
      var s3 := Step(Step(s1, r1, i + 1).value, r2, i + 2).value;
      s1.log <= s3.log && forall k :: |s1.log| <= k < |s3.log| ==> s3.log[k].ts == r2.timestamp
  {
    var s1 := Step(st, r0, i).value;
    BoxedStep(st, r0, i);
    StepConsistent(st, r0, i);
    BoxlessStep(s1, r1, i + 1);
    var s2 := Step(s1, r1, i + 1).value;
    BoxedStep(s2, r2, i + 2);
  }

  // ---------------------------------------------------------------------------------------
  // The back-propagation branch as evidently intended

  /** The boxed-record step with the previous frame's box-less flag read before it is
      cleared, so that a hidden frame right after a box-less one also logs that one. */
  function StepIntended(st: ScanState, r: YoloResult, i: nat): Result<ScanState, ScanError> {
    var ts := r.timestamp;
    match SubjectKeypoints(r)
    case None => Err(IndexError(i))
    case Some(kps) =>
      if BoxesOf(r) == [] then Step(st, r, i)
      else
        match LowConfList(kps)
        case None => Err(KeyError(i))
        case Some(low) =>
          var s1 :=
            if |low| >= LOW_KEYPOINTS && ts !in st.added then
              var s2 := Append(st, ts, LowConf(low));
              if st.prev.noBox && st.prev.ts !in s2.added then Append(s2, st.prev.ts, FollowedBy(ts)) else s2
            else st;
          Ok(s1.(prev := Prev(ts, false)))
  }

  /** With the intended step, a hidden boxed frame right after an unlogged box-less frame logs
      both, and the log stays consistent. */
  lemma IntendedBackPropagates(st: ScanState, r: YoloResult, i: nat)
    requires Consistent(st) && !NoBox(r) && r.keypoints != Some([])
    requires !exists k :: k in SubjectKeypoints(r).value && Unreadable(k)
    requires |LowConfList(SubjectKeypoints(r).value).value| >= LOW_KEYPOINTS
    requires st.prev.noBox && st.prev.ts !in st.added && r.timestamp !in st.added && r.timestamp != st.prev.ts
    ensures StepIntended(st, r, i).Ok?
    ensures var low := LowConfList(SubjectKeypoints(r).value).value;
      StepIntended(st, r, i).value.log
        == st.log + [LogEntry(r.timestamp, LowConf(low)), LogEntry(st.prev.ts, FollowedBy(r.timestamp))]
    ensures Consistent(StepIntended(st, r, i).value)
  {
    var low := LowConfList(SubjectKeypoints(r).value).value;
    AppendConsistent(st, r.timestamp, LowConf(low));
    var s2 := Append(st, r.timestamp, LowConf(low));
    AppendConsistent(s2, st.prev.ts, FollowedBy(r.timestamp));
  }
}
