/** The pet-state service: whether the pet is hiding, judged from the five most recent detector
    records of its camera. */
module PetState {
  import opened Wrappers
  import opened Detection
  import opened Counting

  /** The serial number every pet is mapped to (the pet-to-device lookup is a constant). */
  const DEFAULT_SN: string := "SFRXC12515GF00001"
  const RECENT: nat := 5
  const LOW_CONF: real := 0.3
  const LOW_KEYPOINTS: nat := 6
  const HIDING_FRAMES: nat := 2

  /** `yolo_data.get("keypoints", [[]])[0] if yolo_data.get("keypoints") else []`: the first
      subject's keypoints, or none when the key is missing or its list is empty. */
  function SubjectKeypoints(r: YoloResult): seq<Keypoint> {
    match r.keypoints
    case Some(ks) => if ks == [] then [] else ks[0]
    case None => []
  }

  /** `kp.get("conf", 0) <= 0.3`: a keypoint without `conf` counts as confidence 0. */
  predicate LowConf(k: Keypoint) { k.conf.GetOr(0.0) <= LOW_CONF }

  /** The list comprehension `[kp for kp in keypoints_list if ...]`. */
  function LowConfKeypoints(kps: seq<Keypoint>): (r: seq<Keypoint>)
    ensures |r| == Count(kps, LowConf)
    ensures forall k :: k in r <==> k in kps && LowConf(k)
    decreases |kps|
  {
    if kps == [] then []
    else
      var last := kps[|kps| - 1];
      LowConfKeypoints(kps[..|kps| - 1]) + (if LowConf(last) then [last] else [])
  }

  /** A boxed record whose first subject has at least six low-confidence keypoints; the
      keypoints of a box-less record are never examined. */
  predicate LowKeypointFrame(r: YoloResult) {
    !NoBox(r) && Count(SubjectKeypoints(r), LowConf) >= LOW_KEYPOINTS
  }

  /** The verdict: at least two box-less records or at least two low-keypoint records. */
  predicate Hiding(data: seq<YoloResult>) {
    Count(data, NoBox) >= HIDING_FRAMES || Count(data, LowKeypointFrame) >= HIDING_FRAMES
  }

  /** `_analyze_hiding_behavior` over the records the query returned; `queryFault` is an
      exception while querying, which the service turns into `False`. */
  method AnalyzeHiding(data: seq<YoloResult>, queryFault: bool) returns (hiding: bool)
    ensures hiding <==> !queryFault && Hiding(data)
  {
    if queryFault {
      return false;
    }
    if data == [] {
      return false;
    }
    var noBoxCount := 0;
    var lowKeypointFrames := 0;
    for i := 0 to |data|
      invariant noBoxCount == Count(data[..i], NoBox)
      invariant lowKeypointFrames == Count(data[..i], LowKeypointFrame)
    {
      assert data[..i + 1][..i] == data[..i];
      var boxes := BoxesOf(data[i]);
      if boxes == [] {
        noBoxCount := noBoxCount + 1;
        continue;
      }
      var keypointsList := SubjectKeypoints(data[i]);
      if keypointsList != [] {
        var lowConfKpts := LowConfKeypoints(keypointsList);
        if |lowConfKpts| >= LOW_KEYPOINTS {
          lowKeypointFrames := lowKeypointFrames + 1;
        }
      }
    }
    assert data[..|data|] == data;
    return noBoxCount >= HIDING_FRAMES || lowKeypointFrames >= HIDING_FRAMES;
  }

  /** The stored records of one device, in table order. */
  function DeviceResults(table: seq<Frame>, sn: string): (r: seq<YoloResult>)
    ensures |r| <= |table|
    ensures forall y :: y in r <==> exists f :: f in table && f.device == sn && f.result == y
    decreases |table|
  {
    if table == [] then []
    else
      var last := table[|table| - 1];
      var prefix := DeviceResults(table[..|table| - 1], sn);
      assert forall f :: f in table <==> f in table[..|table| - 1] || f == last;
      prefix + (if last.device == sn then [last.result] else [])
  }

  /** `ORDER BY timestamp DESC LIMIT 5` over a table already held newest first. */
  function RecentResults(table: seq<Frame>, sn: string): (r: seq<YoloResult>)
    ensures |r| <= RECENT && |r| <= |DeviceResults(table, sn)|
    ensures r == DeviceResults(table, sn)[..|r|]
    ensures |r| == RECENT || r == DeviceResults(table, sn)
  {
    var d := DeviceResults(table, sn);
    if |d| <= RECENT then d else d[..RECENT]
  }

  /** Records listed in the order of the query's `ORDER BY yolo_result->>'timestamp' DESC`. */
  predicate ListedNewestFirst(rs: seq<YoloResult>) {
    forall i, j :: 0 <= i < j < |rs| ==> StampAtMost(rs[j].timestamp, rs[i].timestamp)
  }

  /** A table listed in that order. */
  predicate NewestFirst(table: seq<Frame>) {
    forall i, j :: 0 <= i < j < |table| ==> StampAtMost(table[j].result.timestamp, table[i].result.timestamp)
  }

  /** The records of one device keep the order of the table. */
  lemma {:induction false} DeviceResultsNewestFirst(table: seq<Frame>, sn: string)
    requires NewestFirst(table)
    ensures ListedNewestFirst(DeviceResults(table, sn))
    decreases |table|
  {
    if table != [] {
      var p := table[..|table| - 1];
      var last := table[|table| - 1];
      assert NewestFirst(p) by {
        forall i, j | 0 <= i < j < |p| ensures StampAtMost(p[j].result.timestamp, p[i].result.timestamp) {
          assert p[i] == table[i] && p[j] == table[j];
        }
      }
      DeviceResultsNewestFirst(p, sn);
      var dp := DeviceResults(p, sn);
      if last.device == sn {
        var d := dp + [last.result];
        assert d == DeviceResults(table, sn);
        forall i, j | 0 <= i < j < |d| ensures StampAtMost(d[j].timestamp, d[i].timestamp) {
          if j < |dp| {
            assert d[i] == dp[i] && d[j] == dp[j];
          } else {
            assert dp[i] in dp && d[i] == dp[i];
            var f :| f in p && f.device == sn && f.result == dp[i];
            var k :| 0 <= k < |p| && p[k] == f;
            assert table[k] == f && k < |table| - 1;
          }
        }
      } else {
        assert dp == DeviceResults(table, sn);
      }
    }
  }

  /** Over a table in the query's order, the records read are the device's newest ones, newest
      first: none left out is newer than any read. */
  lemma RecentAreNewest(table: seq<Frame>, sn: string)
    requires NewestFirst(table)
    ensures ListedNewestFirst(RecentResults(table, sn))
    ensures var d, r := DeviceResults(table, sn), RecentResults(table, sn);
      forall i, j :: 0 <= i < |r| <= j < |d| ==> StampAtMost(d[j].timestamp, r[i].timestamp)
  {
    DeviceResultsNewestFirst(table, sn);
    var d, r := DeviceResults(table, sn), RecentResults(table, sn);
    assert r == d[..|r|];
  }

  /** The reply of `get_pet_state`: only these two fields. */
  datatype PetStateReply = PetStateReply(petId: string, isHiding: bool)

  /** `get_pet_state` over a table held newest first. */
  method GetPetState(petId: string, table: seq<Frame>, queryFault: bool) returns (reply: PetStateReply)
    ensures reply.petId == petId
    ensures reply.isHiding <==> !queryFault && Hiding(RecentResults(table, DEFAULT_SN))
  {
    var deviceSn := DEFAULT_SN;
    var data := RecentResults(table, deviceSn);
    var isHiding := AnalyzeHiding(data, queryFault);
    reply := PetStateReply(petId, isHiding);
  }

  // ---------------------------------------------------------------------------------------
  // Properties of the verdict

  /** Hiding means two distinct records that are both box-less or both low-keypoint; in
      particular fewer than two records are never hiding. */
  lemma HidingIff(data: seq<YoloResult>)
    ensures Hiding(data) <==>
      (exists i, j :: 0 <= i < j < |data| && NoBox(data[i]) && NoBox(data[j]))
      || (exists i, j :: 0 <= i < j < |data| && LowKeypointFrame(data[i]) && LowKeypointFrame(data[j]))
    ensures |data| < HIDING_FRAMES ==> !Hiding(data)
  {
    CountAtLeastTwo(data, NoBox);
    CountAtLeastTwo(data, LowKeypointFrame);
  }

  /** The verdict depends only on the records, not on their order. */
  lemma HidingPermutation(a: seq<YoloResult>, b: seq<YoloResult>)
    requires multiset(a) == multiset(b)
    ensures Hiding(a) == Hiding(b)
  {
    CountPermutation(a, b, NoBox);
    CountPermutation(a, b, LowKeypointFrame);
  }

  /** The keypoints of a box-less record do not affect the verdict. */
  lemma BoxlessKeypointsIgnored(data: seq<YoloResult>, i: nat, kps: Option<seq<seq<Keypoint>>>)
    requires i < |data| && NoBox(data[i])
    ensures Hiding(data[i := data[i].(keypoints := kps)]) == Hiding(data)
  {
    var d := data[i := data[i].(keypoints := kps)];
    CountPointwise(d, data, NoBox);
    CountPointwise(d, data, LowKeypointFrame);
  }

  /** Only the first subject's keypoints are examined. */
  lemma FirstSubjectOnly(r: YoloResult, first: seq<Keypoint>, others: seq<seq<Keypoint>>)
    requires r.keypoints == Some([first] + others)
    ensures LowKeypointFrame(r) == LowKeypointFrame(r.(keypoints := Some([first])))
    ensures LowKeypointFrame(r) <==> !NoBox(r) && |LowConfKeypoints(first)| >= LOW_KEYPOINTS
  {
  }
}
