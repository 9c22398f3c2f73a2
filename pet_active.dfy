/** The pet-activity dashboard: five highlight clips, the most active hour, the shedding level,
    the heatmap image, the hourly activity of the day and the last seven days' averages, all
    read from the `active_reports` table, the detector's shedding scores and the object store. */
module PetActive {
  import opened Wrappers
  import opened Text
  import opened Civil
  import opened Sorting
  import opened Counting
  import ActiveReport
  import HeatmapGenerator

  type Row = ActiveReport.Row

  /** The serial number every pet is mapped to (the pet-to-device lookup is a constant). */
  const DEVICE_SN: string := "SFRXC12515GF00001"
  const HIGHLIGHTS: nat := 5
  const QUERY_LIMIT: nat := 10
  const DEFAULT_HOUR: nat := 18
  const HOURS: nat := 24
  const RECENT_DAYS: nat := 7

  // ---------------------------------------------------------------------------------------
  // Queries and the object store

  /** `s[:n]`. */
  function Take<T>(s: seq<T>, n: nat): (r: seq<T>)
    ensures |r| <= n && |r| <= |s|
    ensures |s| <= n ==> r == s
    ensures |s| > n ==> r == s[..n]
  {
    if |s| <= n then s else s[..n]
  }

  /** `WHERE "SN" = :sn [AND "DATE" = :date]` over rows listed in the query's `ORDER BY`
      order: the matching rows, in that order. */
  function Matching(rows: seq<Row>, sn: string, date: Option<string>): (r: seq<Row>)
    ensures |r| <= |rows|
    ensures forall x :: x in r <==> x in rows && x.sn == sn && (date.Some? ==> x.date == date.value)
    decreases |rows|
  {
    if rows == [] then []
    else
      var last := rows[|rows| - 1];
      Matching(rows[..|rows| - 1], sn, date)
        + (if last.sn == sn && (date.Some? ==> last.date == date.value) then [last] else [])
  }

  /** The object store as `generate_presigned_url` sees it: the URL signed for each key whose
      object exists; any other key gives `None`. */
  type Signer = map<string, string>

  function Presign(signer: Signer, key: string): Option<string> {
    if key in signer then Some(signer[key]) else None
  }

  /** `if url:` holds for the key's signed URL. */
  predicate Signed(signer: Signer, key: string) { key in signer && signer[key] != [] }

  /** The index of the first key that signs, or `|paths|` when none does. */
  function FirstSignedAt(paths: seq<string>, signer: Signer): (k: nat)
    ensures k <= |paths|
    ensures forall j :: 0 <= j < k ==> !Signed(signer, paths[j])
    ensures k < |paths| ==> Signed(signer, paths[k])
    decreases |paths|
  {
    if paths == [] then 0
    else if Signed(signer, paths[0]) then 0
    else 1 + FirstSignedAt(paths[1..], signer)
  }

  /** The URL of the first key, in order, that signs. */
  function FirstSigned(paths: seq<string>, signer: Signer): (url: Option<string>)
  {
    var k := FirstSignedAt(paths, signer);
    if k < |paths| then Some(signer[paths[k]]) else None
  }

  /** The loop `for path in paths: url = generate_presigned_url(path); if url: return url`,
      shared by the heatmap lookup and the alternate clip keys. */
  method FirstPresigned(paths: seq<string>, signer: Signer) returns (url: Option<string>)
    ensures url == FirstSigned(paths, signer)
  {
    for i := 0 to |paths|
      invariant forall j :: 0 <= j < i ==> !Signed(signer, paths[j])
    {
      var u := Presign(signer, paths[i]);
      if u.Some? && u.value != [] {
        return u;
      }
    }
    return None;
  }

  /** The first key that signs gives the URL, and no key signs exactly when there is none. */
  lemma FirstSignedSpec(paths: seq<string>, signer: Signer)
    ensures FirstSigned(paths, signer).None? <==> forall j :: 0 <= j < |paths| ==> !Signed(signer, paths[j])
    ensures forall k :: 0 <= k < |paths| && Signed(signer, paths[k]) &&
                        (forall j :: 0 <= j < k ==> !Signed(signer, paths[j])) ==>
                        FirstSigned(paths, signer) == Some(signer[paths[k]])
  {
  }

  lemma FirstSignedCons(p: string, rest: seq<string>, signer: Signer)
    ensures FirstSigned([p] + rest, signer) ==
            if Signed(signer, p) then Some(signer[p]) else FirstSigned(rest, signer)
  {
    assert ([p] + rest)[1..] == rest;
  }

  // ---------------------------------------------------------------------------------------
  // Highlight clips

  /** `stream/{sn}/{date}/{sn}_{date}_{time}.mp4`. */
  function StreamKey(r: Row): string {
    "stream/" + r.sn + "/" + r.date + "/" + r.sn + "_" + r.date + "_" + r.time + ".mp4"
  }

  /** The three alternate keys, in the order they are tried. */
  function AlternateKeys(r: Row): seq<string> {
    [ "videos/" + r.date + "/" + r.sn + "_" + r.time + ".mp4",
      "videos/" + r.sn + "/" + r.date + "/" + r.sn + "_" + r.date + "_" + r.time + ".mp4",
      "videos/" + r.date + "/" + r.sn + "_" + r.date + "_" + r.time + ".mp4" ]
  }

  /** The clip of one record: the stream key first, then the alternates. */
  function ClipOf(r: Row, signer: Signer): Option<string> {
    FirstSigned([StreamKey(r)] + AlternateKeys(r), signer)
  }

  predicate HasClip(signer: Signer, r: Row) { ClipOf(r, signer).Some? }

  /** One URL for each record that has a clip, in record order. */
  function Clips(rows: seq<Row>, signer: Signer): (urls: seq<string>)
    ensures |urls| <= |rows|
    decreases |rows|
  {
    if rows == [] then []
    else
      var last := rows[|rows| - 1];
      Clips(rows[..|rows| - 1], signer) + (match ClipOf(last, signer) case Some(u) => [u] case None => [])
  }

  /** The records the highlight lookup reads: the day's ten most active records or, when the
      day has none, the device's ten most active records on any day. `byActive` lists the table
      in descending `active` order. */
  function HighlightRows(byActive: seq<Row>, sn: string, dateStr: string): (rows: seq<Row>)
    ensures |rows| <= QUERY_LIMIT
  {
    var day := Take(Matching(byActive, sn, Some(dateStr)), QUERY_LIMIT);
    if day != [] then day else Take(Matching(byActive, sn, None), QUERY_LIMIT)
  }

  /** Rows listed in the order of the query's `ORDER BY active DESC`. */
  predicate ByActive(rows: seq<Row>) {
    forall i, j :: 0 <= i < j < |rows| ==> rows[j].active <= rows[i].active
  }

  /** The matching rows keep the order of the table. */
  lemma {:induction false} MatchingByActive(rows: seq<Row>, sn: string, date: Option<string>)
    requires ByActive(rows)
    ensures ByActive(Matching(rows, sn, date))
    decreases |rows|
  {
    if rows != [] {
      var p := rows[..|rows| - 1];
      var last := rows[|rows| - 1];
      assert ByActive(p) by {
        forall i, j | 0 <= i < j < |p| ensures p[j].active <= p[i].active {
          assert p[i] == rows[i] && p[j] == rows[j];
        }
      }
      MatchingByActive(p, sn, date);
      var mp := Matching(p, sn, date);
      var m := Matching(rows, sn, date);
      forall i, j | 0 <= i < j < |m| ensures m[j].active <= m[i].active {
        if j < |mp| {
          assert m[i] == mp[i] && m[j] == mp[j];
        } else {
          assert mp[i] in mp && m[i] == mp[i] && m[j] == last;
          var k :| 0 <= k < |p| && p[k] == mp[i];
          assert rows[k] == mp[i] && k < |rows| - 1;
        }
      }
    }
  }

  /** Over a table in the query's order, the records read are the most active of the day (or,
      when the day has none, of the device), most active first: none left out is more active
      than any read. */
  lemma HighlightRowsMostActive(byActive: seq<Row>, sn: string, dateStr: string)
    requires ByActive(byActive)
    ensures ByActive(HighlightRows(byActive, sn, dateStr))
    ensures var day := Matching(byActive, sn, Some(dateStr));
      var read := if day != [] then day else Matching(byActive, sn, None);
      var rows := HighlightRows(byActive, sn, dateStr);
      forall i, j :: 0 <= i < |rows| <= j < |read| ==> read[j].active <= rows[i].active
  {
    var day := Matching(byActive, sn, Some(dateStr));
    if day != [] {
      MatchingByActive(byActive, sn, Some(dateStr));
      TakeByActive(day, QUERY_LIMIT);
    } else {
      MatchingByActive(byActive, sn, None);
      TakeByActive(Matching(byActive, sn, None), QUERY_LIMIT);
    }
  }

  /** The first `n` of rows in descending `active` order are the most active of them. */
  lemma TakeByActive(rows: seq<Row>, n: nat)
    requires ByActive(rows)
    ensures ByActive(Take(rows, n))
    ensures forall i, j :: 0 <= i < |Take(rows, n)| <= j < |rows| ==> rows[j].active <= Take(rows, n)[i].active
  {
    var t := Take(rows, n);
    assert forall i :: 0 <= i < |t| ==> t[i] == rows[i];
  }

  /** `_get_highlight_videos_url`; a database error gives no URLs. */
  function Highlights(byActive: seq<Row>, sn: string, dateStr: string, signer: Signer, fault: bool): seq<string> {
    if fault then [] else Take(Clips(HighlightRows(byActive, sn, dateStr), signer), HIGHLIGHTS)
  }

  /** One record's attempt: the stream key, and the alternates only when it does not sign. */
  method RecordClip(r: Row, signer: Signer) returns (url: Option<string>)
    ensures url == ClipOf(r, signer)
  {
    FirstSignedCons(StreamKey(r), AlternateKeys(r), signer);
    url := Presign(signer, StreamKey(r));
    if url.Some? && url.value != [] {
      return;
    }
    url := FirstPresigned(AlternateKeys(r), signer);
  }

  /** `_get_highlight_videos_url`: a database error gives no URLs; otherwise the rows are read
      and their clips collected. */
  method HighlightVideoUrls(byActive: seq<Row>, sn: string, dateStr: string, signer: Signer, fault: bool)
    returns (urls: seq<string>)
    ensures urls == Highlights(byActive, sn, dateStr, signer, fault)
  {
    if fault {
      return [];
    }
    var rows := HighlightRows(byActive, sn, dateStr);
    urls := CollectClips(rows, signer);
  }

  /** The record loop, which stops once five URLs are collected. */
  method CollectClips(rows: seq<Row>, signer: Signer) returns (urls: seq<string>)
    ensures urls == Take(Clips(rows, signer), HIGHLIGHTS)
  {
    urls := [];
    var i := 0;
    while i < |rows| && |urls| < HIGHLIGHTS
      invariant 0 <= i <= |rows|
      invariant urls == Clips(rows[..i], signer)
      invariant |urls| <= HIGHLIGHTS
    {
      ClipsStep(rows, i, signer);
      var url := RecordClip(rows[i], signer);
      if url.Some? {
        urls := urls + [url.value];
      }
      i := i + 1;
    }
    LoopStop(rows, i, signer);
  }

  lemma ClipsStep(rows: seq<Row>, i: nat, signer: Signer)
    requires i < |rows|
    ensures var c := ClipOf(rows[i], signer);
      Clips(rows[..i + 1], signer) == Clips(rows[..i], signer) + (if c.Some? then [c.value] else [])
  {
    assert rows[..i + 1][..i] == rows[..i];
    assert rows[..i + 1][i] == rows[i];
  }

  /** The URLs of a prefix of the records are a prefix of the URLs of all of them. */
  lemma {:induction false} ClipsPrefix(rows: seq<Row>, i: nat, signer: Signer)
    requires i <= |rows|
    ensures |Clips(rows[..i], signer)| <= |Clips(rows, signer)|
    ensures Clips(rows, signer)[..|Clips(rows[..i], signer)|] == Clips(rows[..i], signer)
    decreases |rows|
  {
    if i == |rows| {
      assert rows[..i] == rows;
    } else {
      var p := rows[..|rows| - 1];
      assert p[..i] == rows[..i];
      ClipsPrefix(p, i, signer);
    }
  }

  /** Where the record loop stops, its URLs are the first five of all records' URLs. */
  lemma LoopStop(rows: seq<Row>, i: nat, signer: Signer)
    requires i <= |rows| && |Clips(rows[..i], signer)| <= HIGHLIGHTS
    requires i == |rows| || |Clips(rows[..i], signer)| == HIGHLIGHTS
    ensures Take(Clips(rows, signer), HIGHLIGHTS) == Clips(rows[..i], signer)
  {
    ClipsPrefix(rows, i, signer);
    if i == |rows| {
      assert rows[..i] == rows;
    }
  }

  /** Each record contributes exactly one URL when it has a clip and none otherwise. */
  lemma {:induction false} ClipsCount(rows: seq<Row>, signer: Signer)
    ensures |Clips(rows, signer)| == Count(rows, (r: Row) => HasClip(signer, r))
    decreases |rows|
  {
    if rows != [] {
      ClipsCount(rows[..|rows| - 1], signer);
    }
  }

  /** Every URL is the clip of one of the records, and distinct positions come from distinct
      records in record order. */
  lemma {:induction false} ClipsSource(rows: seq<Row>, signer: Signer, k: nat)
    requires k < |Clips(rows, signer)|
    ensures exists i :: 0 <= i < |rows| && ClipOf(rows[i], signer) == Some(Clips(rows, signer)[k])
    decreases |rows|
  {
    var p := rows[..|rows| - 1];
    if k < |Clips(p, signer)| {
      ClipsSource(p, signer, k);
      var i :| 0 <= i < |p| && ClipOf(p[i], signer) == Some(Clips(p, signer)[k]);
      assert rows[i] == p[i];
    } else {
      assert ClipOf(rows[|rows| - 1], signer) == Some(Clips(rows, signer)[k]);
    }
  }

  /** At most five URLs, at most one per record read, and each is the signed URL of one of that
      record's four candidate keys. */
  lemma HighlightsShape(byActive: seq<Row>, sn: string, dateStr: string, signer: Signer, fault: bool, k: nat)
    ensures |Highlights(byActive, sn, dateStr, signer, fault)| <= HIGHLIGHTS
    ensures |Highlights(byActive, sn, dateStr, signer, fault)| <= |HighlightRows(byActive, sn, dateStr)|
    ensures k < |Highlights(byActive, sn, dateStr, signer, fault)| ==>
      exists i :: 0 <= i < |HighlightRows(byActive, sn, dateStr)| &&
        var r := HighlightRows(byActive, sn, dateStr)[i];
        ClipOf(r, signer) == Some(Highlights(byActive, sn, dateStr, signer, fault)[k]) &&
        r in byActive && r.sn == sn
  {
    var rows := HighlightRows(byActive, sn, dateStr);
    if k < |Highlights(byActive, sn, dateStr, signer, fault)| {
      ClipsSource(rows, signer, k);
    }
  }

  // ---------------------------------------------------------------------------------------
  // Padding to five

  /** The value used to pad: the last URL, or "" when there is none. */
  function Fill(urls: seq<string>): string {
    if urls == [] then "" else urls[|urls| - 1]
  }

  function Repeat(x: string, n: nat): (r: seq<string>)
    ensures |r| == n && forall i :: 0 <= i < n ==> r[i] == x
  {
    if n == 0 then [] else Repeat(x, n - 1) + [x]
  }

  /** The list after the padding loop. */
  function Padded(urls: seq<string>): (r: seq<string>)
    ensures |r| >= HIGHLIGHTS
  {
    if |urls| >= HIGHLIGHTS then urls else urls + Repeat(Fill(urls), HIGHLIGHTS - |urls|)
  }

  /** `while len(highlight_urls) < 5: highlight_urls.append(highlight_urls[-1] if highlight_urls else "")`. */
  method PadHighlights(urls: seq<string>) returns (padded: seq<string>)
    ensures padded == Padded(urls)
  {
    padded := urls;
    assert padded == urls + Repeat(Fill(urls), 0);
    while |padded| < HIGHLIGHTS
      invariant |urls| <= |padded|
      invariant |urls| < HIGHLIGHTS ==> |padded| <= HIGHLIGHTS
      invariant |urls| >= HIGHLIGHTS ==> padded == urls
      invariant padded == urls + Repeat(Fill(urls), |padded| - |urls|)
      decreases HIGHLIGHTS - |padded|
    {
      if padded != [] {
        padded := padded + [padded[|padded| - 1]];
      } else {
        padded := padded + [""];
      }
    }
  }

  /** The reported list `highlight_urls[:5]` has exactly five entries: the URLs found, then
      copies of the last one (or "" when none was found). */
  lemma PaddedShape(urls: seq<string>)
    ensures |Padded(urls)| >= HIGHLIGHTS && |Padded(urls)[..HIGHLIGHTS]| == HIGHLIGHTS
    ensures |urls| <= HIGHLIGHTS ==> Padded(urls)[..|urls|] == urls
    ensures forall i :: |urls| <= i < |Padded(urls)| ==> Padded(urls)[i] == Fill(urls)
    ensures urls == [] ==> Padded(urls)[..HIGHLIGHTS] == ["", "", "", "", ""]
  {
  }

  // ---------------------------------------------------------------------------------------
  // Most active hour

  /** `max(xs)`: the first index holding the largest value (later equal values do not replace
      it). */
  function FirstArgMax(xs: seq<real>): (k: nat)
    requires xs != []
    ensures k < |xs|
    ensures forall j :: 0 <= j < |xs| ==> xs[j] <= xs[k]
    ensures forall j :: 0 <= j < k ==> xs[j] < xs[k]
    decreases |xs|
  {
    if |xs| == 1 then 0
    else
      var k := FirstArgMax(xs[..|xs| - 1]);
      if xs[|xs| - 1] > xs[k] then |xs| - 1 else k
  }

  datatype HourValue = HourValue(hour: nat, value: real)

  function Values(activity: seq<HourValue>): (vs: seq<real>)
    ensures |vs| == |activity| && forall i :: 0 <= i < |activity| ==> vs[i] == activity[i].value
  {
    seq(|activity|, i requires 0 <= i < |activity| => activity[i].value)
  }

  /** `mostActive`: the interval from the start hour to the next one. */
  datatype Span = Span(start: nat, end: nat)

  /** `_calculate_most_active_hour` and the interval built from it. */
  function MostActive(activity: seq<HourValue>): (s: Span)
    ensures s.end == s.start + 1
    ensures activity == [] ==> s.start == DEFAULT_HOUR
    ensures activity != [] ==>
      (exists k :: 0 <= k < |activity| && activity[k].hour == s.start &&
        (forall j :: 0 <= j < |activity| ==> activity[j].value <= activity[k].value) &&
        (forall j :: 0 <= j < k ==> activity[j].value < activity[k].value))
  {
    if activity == [] then Span(DEFAULT_HOUR, DEFAULT_HOUR + 1)
    else
      var k := FirstArgMax(Values(activity));
      Span(activity[k].hour, activity[k].hour + 1)
  }

  // ---------------------------------------------------------------------------------------
  // Shedding level

  /** The `abnormalBehavior` text: 없음 (no score), 낮음, 중간 and 높음. */
  datatype Shedding = NoScore | Low | Medium | High

  /** A non-null `shedding_score` of one detector record. */
  datatype ScoreRow = ScoreRow(device: string, date: string, score: Option<real>)

  /** A record of the device and day whose score is `v`. */
  predicate ScoreIs(r: ScoreRow, sn: string, dateStr: string, v: real) {
    r.device == sn && r.date == dateStr && r.score == Some(v)
  }

  /** `WHERE device = :sn AND date = :date AND shedding_score IS NOT NULL`, as floats: each value
      occurs as often as the day's records hold it. */
  function DayScores(table: seq<ScoreRow>, sn: string, dateStr: string): (xs: seq<real>)
    ensures |xs| <= |table|
    ensures forall v :: multiset(xs)[v] == Count(table, (r: ScoreRow) => ScoreIs(r, sn, dateStr, v))
    decreases |table|
  {
    if table == [] then []
    else
      var last := table[|table| - 1];
      var prefix := DayScores(table[..|table| - 1], sn, dateStr);
      var xs := prefix + (if last.device == sn && last.date == dateStr && last.score.Some? then [last.score.value] else []);
      assert forall v :: multiset(xs)[v] == multiset(prefix)[v] + (if ScoreIs(last, sn, dateStr, v) then 1 else 0);
      xs
  }

  /** `round(v, 2)` in hundredths, taken on the exact value: the nearest whole number of
      hundredths, and the even one of two equally near. */
  function Cents(v: real): (n: int)
    ensures -0.5 <= v * 100.0 - n as real <= 0.5
    ensures v * 100.0 - n as real == 0.5 || v * 100.0 - n as real == -0.5 ==> n % 2 == 0
  {
    var x := v * 100.0;
    var f := x.Floor;
    if x - f as real < 0.5 then f
    else if x - f as real > 0.5 then f + 1
    else if f % 2 == 0 then f else f + 1
  }

  /** `round(v, 2)`. */
  function Round2(v: real): real {
    Cents(v) as real / 100.0
  }

  /** The rounded value lies within half a hundredth of the value, and a value already in
      hundredths is kept. */
  lemma Round2Nearest(v: real, n: int)
    ensures -0.005 <= Round2(v) - v <= 0.005
    ensures Round2(n as real / 100.0) == n as real / 100.0
  {
    var x := n as real / 100.0;
    assert x * 100.0 == n as real;
    assert (x * 100.0).Floor == n;
  }

  /** `[round(val, 2) for val in score_values]`. */
  function Rounded(xs: seq<real>): (ys: seq<real>)
    ensures |ys| == |xs| && forall i :: 0 <= i < |xs| ==> ys[i] == Round2(xs[i])
  {
    seq(|xs|, i requires 0 <= i < |xs| => Round2(xs[i]))
  }

  /** How often each value occurs, position by position. */
  function Frequencies(xs: seq<real>): (fs: seq<real>)
    ensures |fs| == |xs| && forall i :: 0 <= i < |xs| ==> fs[i] == multiset(xs)[xs[i]] as real
  {
    seq(|xs|, i requires 0 <= i < |xs| => multiset(xs)[xs[i]] as real)
  }

  /** `Counter(xs).most_common(1)[0][0]`: a most frequent value, and among those the one seen
      first (the counter keeps first-seen order and `most_common(1)` keeps the first maximum). */
  function Mode(xs: seq<real>): (v: real)
    requires xs != []
    ensures v in xs
    ensures forall x :: x in xs ==> multiset(xs)[x] <= multiset(xs)[v]
    ensures exists k :: 0 <= k < |xs| && xs[k] == v && forall j :: 0 <= j < k ==> multiset(xs)[xs[j]] < multiset(xs)[v]
  {
    var k := FirstArgMax(Frequencies(xs));
    assert forall x :: x in xs ==> multiset(xs)[x] <= multiset(xs)[xs[k]] by {
      forall x | x in xs ensures multiset(xs)[x] <= multiset(xs)[xs[k]] {
        var j :| 0 <= j < |xs| && xs[j] == x;
        assert Frequencies(xs)[j] <= Frequencies(xs)[k];
      }
    }
    xs[k]
  }

  /** The thresholds 0.33 and 0.67, both inclusive. */
  function Level(v: real): Shedding {
    if v <= 0.33 then Low else if v <= 0.67 then Medium else High
  }

  function Rank(s: Shedding): nat {
    match s
    case NoScore => 0
    case Low => 1
    case Medium => 2
    case High => 3
  }

  /** `_calculate_shedding_score`: the level of the most frequent rounded score, the first seen
      among equally frequent ones; a database error or a day without scores gives no score. */
  function SheddingScore(table: seq<ScoreRow>, sn: string, dateStr: string, fault: bool): (s: Shedding)
    ensures s == NoScore <==> fault || DayScores(table, sn, dateStr) == []
    ensures s != NoScore ==>
      var ys := Rounded(DayScores(table, sn, dateStr));
      exists k :: 0 <= k < |ys| && s == Level(ys[k]) && (forall x :: x in ys ==> multiset(ys)[x] <= multiset(ys)[ys[k]])
        && forall j :: 0 <= j < k ==> multiset(ys)[ys[j]] < multiset(ys)[ys[k]]
  {
    var xs := DayScores(table, sn, dateStr);
    if fault || xs == [] then NoScore else Level(Mode(Rounded(xs)))
  }

  /** A higher score never gives a lower level, and each level covers its band. */
  lemma LevelMonotone(v: real, w: real)
    requires v <= w
    ensures Rank(Level(v)) <= Rank(Level(w))
    ensures Level(v) != NoScore
    ensures Level(v) == Low <==> v <= 0.33
    ensures Level(v) == High <==> 0.67 < v
  {
  }

  lemma {:induction false} TwoCounts(xs: seq<real>, a: real, b: real)
    requires a != b
    ensures multiset(xs)[a] + multiset(xs)[b] <= |xs|
    decreases |xs|
  {
    if xs != [] {
      var p := xs[..|xs| - 1];
      assert xs == p + [xs[|xs| - 1]];
      assert multiset(xs) == multiset(p) + multiset{xs[|xs| - 1]};
      TwoCounts(p, a, b);
    }
  }

  /** A value held by more than half of the day's rounded scores decides the level. */
  lemma MajorityDecides(table: seq<ScoreRow>, sn: string, dateStr: string, v: real)
    requires var ys := Rounded(DayScores(table, sn, dateStr)); multiset(ys)[v] * 2 > |ys|
    ensures SheddingScore(table, sn, dateStr, false) == Level(v)
  {
    var ys := Rounded(DayScores(table, sn, dateStr));
    assert v in ys;
    var m := Mode(ys);
    if m != v {
      TwoCounts(ys, m, v);
    }
  }

  /** The level is read after rounding: 0.334 alone is low although it is above 0.33. */
  lemma SingleScoreRounds(sn: string, dateStr: string)
    ensures Level(0.334) == Medium
    ensures SheddingScore([ScoreRow(sn, dateStr, Some(0.334))], sn, dateStr, false) == Low
  {
    var one := [ScoreRow(sn, dateStr, Some(0.334))];
    assert one[..0] == [];
    assert DayScores(one, sn, dateStr) == [0.334];
    assert Cents(0.334) == 33;
    assert Rounded([0.334]) == [0.33];
    MajorityDecides(one, sn, dateStr, 0.33);
  }

  /** Two scores that round to 0.3 outvote a single 0.5, although all three differ. */
  lemma RoundedScoresOutvote(sn: string, dateStr: string)
    ensures SheddingScore([ScoreRow(sn, dateStr, Some(0.5)), ScoreRow(sn, dateStr, Some(0.301)),
                           ScoreRow(sn, dateStr, Some(0.302))], sn, dateStr, false) == Low
  {
    var three := [ScoreRow(sn, dateStr, Some(0.5)), ScoreRow(sn, dateStr, Some(0.301)), ScoreRow(sn, dateStr, Some(0.302))];
    ThreeScores(three, sn, dateStr);
    assert Cents(0.5) == 50 && Cents(0.301) == 30 && Cents(0.302) == 30;
    assert Rounded([0.5, 0.301, 0.302]) == [0.5, 0.3, 0.3];
    assert multiset([0.5, 0.3, 0.3])[0.3] == 2;
    MajorityDecides(three, sn, dateStr, 0.3);
  }

  lemma ThreeScores(three: seq<ScoreRow>, sn: string, dateStr: string)
    requires three == [ScoreRow(sn, dateStr, Some(0.5)), ScoreRow(sn, dateStr, Some(0.301)), ScoreRow(sn, dateStr, Some(0.302))]
    ensures DayScores(three, sn, dateStr) == [0.5, 0.301, 0.302]
  {
    assert three[..1][..0] == [];
    assert DayScores(three[..1], sn, dateStr) == [0.5];
    assert three[..2][..1] == three[..1];
    assert DayScores(three[..2], sn, dateStr) == [0.5, 0.301];
    assert three[..3][..2] == three[..2] && three[..3] == three;
  }

  // ---------------------------------------------------------------------------------------
  // Heatmap image

  /** The three keys tried for the day's heatmap: the day folder, the month folder and the
      bucket's heatmap root. */
  function HeatmapPaths(dateStr: string, sn: string): seq<string> {
    [ "heatmap/" + dateStr + "/" + sn + "_heatmap.png",
      "heatmap/" + Slice(dateStr, 0, 6) + "/" + sn + "_heatmap.png",
      "heatmap/" + sn + "_" + dateStr + "_heatmap.png" ]
  }

  /** `_get_heatmap_url`. */
  method HeatmapUrl(dateStr: string, sn: string, signer: Signer) returns (url: Option<string>)
    ensures url == FirstSigned(HeatmapPaths(dateStr, sn), signer)
  {
    url := FirstPresigned(HeatmapPaths(dateStr, sn), signer);
  }

  /** The first key tried is the one the heatmap job uploads under, so an uploaded image is
      always the one shown; otherwise the month folder, then the root, and `None` when no key
      signs. */
  lemma HeatmapLookupOrder(dateStr: string, sn: string, signer: Signer)
    ensures HeatmapPaths(dateStr, sn)[0] == HeatmapGenerator.HeatmapKey(dateStr, sn)
    ensures var ps := HeatmapPaths(dateStr, sn);
      (Signed(signer, ps[0]) ==> FirstSigned(ps, signer) == Some(signer[ps[0]]))
      && (!Signed(signer, ps[0]) && Signed(signer, ps[1]) ==> FirstSigned(ps, signer) == Some(signer[ps[1]]))
      && (!Signed(signer, ps[0]) && !Signed(signer, ps[1]) && Signed(signer, ps[2]) ==>
            FirstSigned(ps, signer) == Some(signer[ps[2]]))
      && (!Signed(signer, ps[0]) && !Signed(signer, ps[1]) && !Signed(signer, ps[2]) ==>
            FirstSigned(ps, signer) == None)
  {
    FirstSignedSpec(HeatmapPaths(dateStr, sn), signer);
  }

  // ---------------------------------------------------------------------------------------
  // Hourly activity

  /** `int(time_str[:2])` on one or two ASCII digits; any other text is taken to raise
      ValueError (the sign, white space and non-ASCII digits that `int` also accepts are not
      modelled). */
  function HourOf(time: string): Option<nat> {
    var p := Slice(time, 0, 2);
    if p != [] && AllDigits(p) then Some(ParseNat(p)) else None
  }

  predicate HoursParse(rows: seq<Row>) {
    forall i :: 0 <= i < |rows| ==> HourOf(rows[i].time).Some?
  }

  /** A running total and count. */
  datatype Acc = Acc(total: real, count: nat)

  /** `round(total / count, 2) if count > 0 else 0`, without the rounding. */
  function Avg(a: Acc): real {
    if a.count > 0 then a.total / (a.count as real) else 0.0
  }

  /** The total `active` and the number of the rows whose hour is `h`. */
  function HourAcc(rows: seq<Row>, h: nat): (a: Acc)
    ensures a.count <= |rows|
    ensures a.count == 0 ==> a.total == 0.0
    decreases |rows|
  {
    if rows == [] then Acc(0.0, 0)
    else
      var a := HourAcc(rows[..|rows| - 1], h);
      var last := rows[|rows| - 1];
      if HourOf(last.time) == Some(h) then Acc(a.total + last.active, a.count + 1) else a
  }

  /** The first loop of `_get_time_of_activity`: the `hourly_data` dictionary, or `ok == false`
      when a time does not start with an hour. */
  method AggregateHours(rows: seq<Row>) returns (ok: bool, hourly: map<nat, Acc>)
    ensures ok <==> HoursParse(rows)
    ensures ok ==> hourly == Hourly(rows)
    ensures ok ==> forall h :: h in hourly <==> HourAcc(rows, h).count > 0
    ensures ok ==> forall h :: h in hourly ==> hourly[h] == HourAcc(rows, h)
  {
    hourly := map[];
    for i := 0 to |rows|
      invariant HoursParse(rows[..i])
      invariant hourly == Hourly(rows[..i])
    {
      var hour := HourOf(rows[i].time);
      if hour.None? {
        HoursParseFails(rows, i);
        return false, map[];
      }
      var h := hour.value;
      HourlyStep(rows, i, h);
      ghost var before := hourly;
      if h !in hourly {
        hourly := hourly[h := Acc(0.0, 0)];
      }
      hourly := hourly[h := Acc(hourly[h].total + rows[i].active, hourly[h].count + 1)];
      BumpInTwoSteps(before, h, rows[i].active);
      HoursParseSnoc(rows, i);
    }
    assert rows[..|rows|] == rows;
    HourlyAcc(rows);
    return true, hourly;
  }

  /** The dictionary the first loop builds over `rows`, rows whose time has no hour skipped. */
  function Hourly(rows: seq<Row>): map<nat, Acc>
    decreases |rows|
  {
    if rows == [] then map[]
    else
      var m := Hourly(rows[..|rows| - 1]);
      var last := rows[|rows| - 1];
      var hour := HourOf(last.time);
      if hour.None? then m else Bump(m, hour.value, last.active)
  }

  /** `hourly_data[hour]` created at zero when missing, then one more row of `active` added. */
  function Bump(m: map<nat, Acc>, h: nat, active: real): map<nat, Acc> {
    var prev := if h in m then m[h] else Acc(0.0, 0);
    m[h := Acc(prev.total + active, prev.count + 1)]
  }

  lemma HourlyStep(rows: seq<Row>, i: nat, h: nat)
    requires i < |rows| && HourOf(rows[i].time) == Some(h)
    ensures Hourly(rows[..i + 1]) == Bump(Hourly(rows[..i]), h, rows[i].active)
  {
    assert rows[..i + 1][..i] == rows[..i];
  }

  /** The dictionary holds exactly the hours that have rows, each with its total and count. */
  lemma {:induction false} HourlyAcc(rows: seq<Row>)
    ensures forall h :: h in Hourly(rows) <==> HourAcc(rows, h).count > 0
    ensures forall h :: h in Hourly(rows) ==> Hourly(rows)[h] == HourAcc(rows, h)
    decreases |rows|
  {
    if rows != [] {
      HourlyAcc(rows[..|rows| - 1]);
    }
  }

  /** Creating a missing entry at zero and then adding to it is one `Bump`. */
  lemma BumpInTwoSteps(m: map<nat, Acc>, h: nat, active: real)
    ensures var m1 := if h in m then m else m[h := Acc(0.0, 0)];
      m1[h := Acc(m1[h].total + active, m1[h].count + 1)] == Bump(m, h, active)
  {
  }

  lemma HoursParseSnoc(rows: seq<Row>, i: nat)
    requires i < |rows| && HoursParse(rows[..i]) && HourOf(rows[i].time).Some?
    ensures HoursParse(rows[..i + 1])
  {
    assert forall j :: 0 <= j < i ==> rows[..i + 1][j] == rows[..i][j];
  }

  lemma HoursParseFails(rows: seq<Row>, i: nat)
    requires i < |rows| && HourOf(rows[i].time).None?
    ensures !HoursParse(rows)
  {
  }

  /** The hours below `n` that have rows, ascending, each with its average. */
  function HourEntries(day: seq<Row>, n: nat): (e: seq<HourValue>)
    ensures |e| <= n
    ensures forall i :: 0 <= i < |e| ==>
      e[i].hour < n && HourAcc(day, e[i].hour).count > 0 && e[i].value == Avg(HourAcc(day, e[i].hour))
    ensures forall i, j :: 0 <= i < j < |e| ==> e[i].hour < e[j].hour
  {
    if n == 0 then []
    else
      HourEntries(day, n - 1)
        + (if HourAcc(day, n - 1).count > 0 then [HourValue(n - 1, Avg(HourAcc(day, n - 1)))] else [])
  }

  /** No hour with rows is missing. */
  lemma {:induction false} HourEntriesComplete(day: seq<Row>, n: nat, h: nat)
    requires h < n && HourAcc(day, h).count > 0
    ensures exists i :: 0 <= i < |HourEntries(day, n)| && HourEntries(day, n)[i].hour == h
  {
    var p := HourEntries(day, n - 1);
    var t := if HourAcc(day, n - 1).count > 0 then [HourValue(n - 1, Avg(HourAcc(day, n - 1)))] else [];
    HourEntriesStep(day, n);
    if h < n - 1 {
      HourEntriesComplete(day, n - 1, h);
      var i :| 0 <= i < |p| && p[i].hour == h;
      HourFoundAt(p, t, i, h);
    } else {
      HourFoundAt(p, t, |p|, h);
    }
  }

  lemma HourEntriesStep(day: seq<Row>, n: nat)
    requires n > 0
    ensures HourEntries(day, n) == HourEntries(day, n - 1)
      + (if HourAcc(day, n - 1).count > 0 then [HourValue(n - 1, Avg(HourAcc(day, n - 1)))] else [])
  {
  }

  lemma HourFoundAt(p: seq<HourValue>, t: seq<HourValue>, i: nat, h: nat)
    requires (i < |p| && p[i].hour == h) || (i == |p| && t != [] && t[0].hour == h)
    ensures exists j :: 0 <= j < |p + t| && (p + t)[j].hour == h
  {
    assert (p + t)[i].hour == h;
  }

  /** `_get_time_of_activity`: the day's rows in `TIME` order, read from `byTime`; a
      database error or an unreadable hour gives no entries. */
  function TimeOfActivity(byTime: seq<Row>, sn: string, dateStr: string, fault: bool): seq<HourValue> {
    var day := Matching(byTime, sn, Some(dateStr));
    if fault || day == [] || !HoursParse(day) then [] else HourEntries(day, HOURS)
  }

  /** The whole hourly computation: aggregation, then the `for hour in range(24)` loop. */
  method HourlyActivity(byTime: seq<Row>, sn: string, dateStr: string, fault: bool) returns (result: seq<HourValue>)
    ensures result == TimeOfActivity(byTime, sn, dateStr, fault)
  {
    if fault {
      return [];
    }
    var day := Matching(byTime, sn, Some(dateStr));
    if day == [] {
      return [];
    }
    var ok, hourly := AggregateHours(day);
    if !ok {
      return [];
    }
    result := [];
    for hour := 0 to HOURS
      invariant result == HourEntries(day, hour)
    {
      if hour in hourly {
        result := result + [HourValue(hour, Avg(hourly[hour]))];
      }
    }
  }

  /** One entry per hour of the day (0 to 23) that has rows, in ascending hour order, each with
      that hour's average; rows whose hour is 24 or more are read but never reported. */
  lemma TimeOfActivityShape(byTime: seq<Row>, sn: string, dateStr: string, h: nat)
    ensures var e := TimeOfActivity(byTime, sn, dateStr, false);
      var day := Matching(byTime, sn, Some(dateStr));
      (forall i :: 0 <= i < |e| ==> e[i].hour < HOURS && e[i].value == Avg(HourAcc(day, e[i].hour)))
      && (forall i, j :: 0 <= i < j < |e| ==> e[i].hour < e[j].hour)
      && (HoursParse(day) && h < HOURS && HourAcc(day, h).count > 0 ==>
            exists i :: 0 <= i < |e| && e[i].hour == h)
  {
    var day := Matching(byTime, sn, Some(dateStr));
    if HoursParse(day) && h < HOURS && HourAcc(day, h).count > 0 {
      assert day != [];
      HourEntriesComplete(day, HOURS, h);
    }
  }

  /** The busiest of the reported hours: 18 to 19 on a day without rows. */
  lemma MostActiveOfDay(byTime: seq<Row>, sn: string, dateStr: string, fault: bool)
    ensures var e := TimeOfActivity(byTime, sn, dateStr, fault);
      var s := MostActive(e);
      s.end == s.start + 1
      && (e == [] ==> s == Span(18, 19))
      && (e != [] ==> s.start < HOURS && exists k :: 0 <= k < |e| && e[k].hour == s.start)
  {
    var e := TimeOfActivity(byTime, sn, dateStr, fault);
    assert forall i :: 0 <= i < |e| ==> e[i].hour < HOURS;
    MostActiveReported(e);
  }

  lemma MostActiveReported(e: seq<HourValue>)
    requires forall i :: 0 <= i < |e| ==> e[i].hour < HOURS
    ensures var s := MostActive(e);
      s.end == s.start + 1
      && (e == [] ==> s == Span(18, 19))
      && (e != [] ==> s.start < HOURS && exists k :: 0 <= k < |e| && e[k].hour == s.start)
  {
    if e != [] {
      var k :| 0 <= k < |e| && e[k].hour == MostActive(e).start &&
        (forall j :: 0 <= j < |e| ==> e[j].value <= e[k].value) &&
        (forall j :: 0 <= j < k ==> e[j].value < e[k].value);
      assert e[k].hour < HOURS;
    }
  }

  // ---------------------------------------------------------------------------------------
  // The last seven days

  /** `[query_date - timedelta(days=i) for i in range(n)]`, or `None` when one of those days
      would precede 0001-01-01 (OverflowError). */
  function PastDays(q: Date, n: nat): (r: Option<seq<Date>>)
    requires ValidDate(q)
    ensures r.Some? ==> |r.value| == n && (n > 0 ==> r.value[0] == q)
    ensures r.Some? ==> forall i :: 0 <= i < |r.value| ==> ValidDate(r.value[i]) && r.value[i].year <= q.year
    ensures r.Some? ==> forall i :: 0 <= i < |r.value| - 1 ==> r.value[i] != MinDate && r.value[i + 1] == PrevDay(r.value[i])
    decreases n
  {
    if n == 0 then Some([])
    else if n == 1 then Some([q])
    else if q == MinDate then None
    else
      match PastDays(PrevDay(q), n - 1)
      case None => None
      case Some(rest) =>
        assert forall i :: 1 <= i < |rest| ==> ([q] + rest)[i] == rest[i - 1];
        Some([q] + rest)
  }

  /** The days exist exactly when `n` days fit on or after 0001-01-01, and day `i` is `i`
      days before the query day. */
  lemma {:induction false} PastDaysOrdinals(q: Date, n: nat)
    requires ValidDate(q)
    ensures PastDays(q, n).Some? <==> n <= Ordinal(q)
    ensures PastDays(q, n).Some? ==> forall i :: 0 <= i < n ==> Ordinal(PastDays(q, n).value[i]) == Ordinal(q) - i
    decreases n
  {
    PastDaysExist(q, n);
    if PastDays(q, n).Some? {
      var r := PastDays(q, n).value;
      forall i | 0 <= i < n ensures Ordinal(r[i]) == Ordinal(q) - i {
        ChainOrdinal(r, i);
      }
    }
  }

  lemma {:induction false} PastDaysExist(q: Date, n: nat)
    requires ValidDate(q)
    ensures PastDays(q, n).Some? <==> n <= Ordinal(q)
    decreases n
  {
    OrdinalPositive(q);
    PastDaysStep(q, n);
    if n >= 2 && q != MinDate {
      OrdinalPrevDay(q);
      PastDaysExist(PrevDay(q), n - 1);
    }
  }

  /** The days exist when at most one is asked for, or when the day before the first exists
      and the rest exist from it. */
  lemma PastDaysStep(q: Date, n: nat)
    requires ValidDate(q)
    ensures PastDays(q, n).Some? <==> n <= 1 || (q != MinDate && PastDays(PrevDay(q), n - 1).Some?)
  {
  }

  /** Along a chain of previous days, day `i` is `i` days before the first. */
  lemma {:induction false} ChainOrdinal(r: seq<Date>, i: nat)
    requires i < |r|
    requires forall j :: 0 <= j < |r| ==> ValidDate(r[j])
    requires forall j :: 0 <= j < |r| - 1 ==> r[j] != MinDate && r[j + 1] == PrevDay(r[j])
    ensures Ordinal(r[i]) == Ordinal(r[0]) - i
  {
    if i > 0 {
      ChainOrdinal(r, i - 1);
      OrdinalPrevDay(r[i - 1]);
    }
  }

  /** The `"MM.DD"` label built from `date_str[4:6]` and `date_str[6:8]`. */
  function Label(d: Date): string
    requires ValidDate(d) && d.year <= 9999
  {
    var s := Date8(d);
    s[4..6] + "." + s[6..8]
  }

  lemma LabelFields(d: Date)
    requires ValidDate(d) && d.year <= 9999
    ensures Label(d) == Pad2(d.month) + "." + Pad2(d.day)
  {
    var y := Year4(d.year);
    assert Date8(d) == y + Pad2(d.month) + Pad2(d.day);
    assert Date8(d)[4..6] == Pad2(d.month);
    assert Date8(d)[6..8] == Pad2(d.day);
  }

  /** The number the label spells, month times 100 plus day. */
  function LabelNumber(text: string): int {
    var month, day := Slice(text, 0, 2), Slice(text, 3, 5);
    if AllDigits(month) && AllDigits(day) then ParseNat(month) * 100 + ParseNat(day) else 0
  }

  /** Comparing labels as texts compares month, then day: the order `sort(key=day)` uses. */
  lemma LabelOrder(a: Date, b: Date)
    requires ValidDate(a) && a.year <= 9999 && ValidDate(b) && b.year <= 9999
    ensures LabelNumber(Label(a)) == a.month * 100 + a.day
    ensures StrLess(Label(a), Label(b)) <==> LabelNumber(Label(a)) < LabelNumber(Label(b))
  {
    LabelFields(a);
    LabelFields(b);
    var ma, mb := Pad2(a.month), Pad2(b.month);
    var da, db := Pad2(a.day), Pad2(b.day);
    assert Label(a) == ma + ("." + da) && Label(b) == mb + ("." + db);
    assert Slice(Label(a), 0, 2) == ma && Slice(Label(a), 3, 5) == da;
    assert Slice(Label(b), 0, 2) == mb && Slice(Label(b), 3, 5) == db;
    StrLessConcat(ma, "." + da, mb, "." + db);
    StrLessConcat(".", da, ".", db);
    StrLessIrreflexive(".");
    StrLessDigits(ma, mb);
    StrLessDigits(da, db);
    DigitsEqual(ma, mb);
  }

  /** The total `active` and the number of the rows dated `dateStr`. */
  function DayAcc(rows: seq<Row>, dateStr: string): (a: Acc)
    ensures a.count == 0 ==> a.total == 0.0
    decreases |rows|
  {
    if rows == [] then Acc(0.0, 0)
    else
      var a := DayAcc(rows[..|rows| - 1], dateStr);
      var last := rows[|rows| - 1];
      if last.date == dateStr then Acc(a.total + last.active, a.count + 1) else a
  }

  datatype DayValue = DayValue(day: string, value: real)

  predicate Reportable(dates: seq<Date>) {
    forall i :: 0 <= i < |dates| ==> ValidDate(dates[i]) && dates[i].year <= 9999
  }

  /** One entry per day, in the order of `dates`, with the day's average or 0. */
  function DailyValues(rows: seq<Row>, dates: seq<Date>): (vs: seq<DayValue>)
    requires Reportable(dates)
    ensures |vs| == |dates|
  {
    seq(|dates|, i requires 0 <= i < |dates| => DayValue(Label(dates[i]), Avg(DayAcc(rows, Date8(dates[i])))))
  }

  /** The `daily_data` dictionary after its two loops: every day's text, mapped to the total
      and count of the rows dated that day. */
  method AccumulateDays(rows: seq<Row>, dateStrs: seq<string>) returns (daily: map<string, Acc>)
    ensures forall ds :: ds in daily <==> ds in dateStrs
    ensures forall ds :: ds in daily ==> daily[ds] == DayAcc(rows, ds)
  {
    daily := map[];
    for k := 0 to |dateStrs|
      invariant forall ds :: ds in daily <==> ds in dateStrs[..k]
      invariant forall ds :: ds in daily ==> daily[ds] == Acc(0.0, 0)
    {
      assert dateStrs[..k + 1] == dateStrs[..k] + [dateStrs[k]];
      daily := daily[dateStrs[k] := Acc(0.0, 0)];
    }
    assert dateStrs[..|dateStrs|] == dateStrs;
    for i := 0 to |rows|
      invariant forall ds :: ds in daily <==> ds in dateStrs
      invariant forall ds :: ds in daily ==> daily[ds] == DayAcc(rows[..i], ds)
    {
      assert rows[..i + 1][..i] == rows[..i];
      var r := rows[i];
      if r.date in daily {
        daily := daily[r.date := Acc(daily[r.date].total + r.active, daily[r.date].count + 1)];
      }
    }
    assert rows[..|rows|] == rows;
  }

  /** The per-day averages in the dictionary's order, which is the order of `dates`. */
  method DailyAverages(rows: seq<Row>, dates: seq<Date>) returns (values: seq<DayValue>)
    requires Reportable(dates)
    ensures values == DailyValues(rows, dates)
  {
    var dateStrs := seq(|dates|, i requires 0 <= i < |dates| => Date8(dates[i]));
    var daily := AccumulateDays(rows, dateStrs);
    ghost var all := DailyValues(rows, dates);
    values := [];
    for k := 0 to |dates|
      invariant values == all[..k]
    {
      var ds := dateStrs[k];
      assert ds in dateStrs;
      var v := DayValue(Label(dates[k]), Avg(daily[ds]));
      DailyAt(rows, dates, k, daily[ds]);
      PrefixSnoc(all, k, v);
      values := values + [v];
    }
    assert all[..|dates|] == all;
  }

  lemma PrefixSnoc(s: seq<DayValue>, k: nat, x: DayValue)
    requires k < |s| && s[k] == x
    ensures s[..k + 1] == s[..k] + [x]
  {
  }

  lemma DailyAt(rows: seq<Row>, dates: seq<Date>, k: nat, acc: Acc)
    requires Reportable(dates) && k < |dates| && acc == DayAcc(rows, Date8(dates[k]))
    ensures DayValue(Label(dates[k]), Avg(acc)) == DailyValues(rows, dates)[k]
  {
  }

  /** The reported list, or the sample-data fallback taken when no day has a positive value
      (its contents come from a randomised hash and are not modelled). */
  datatype Recent = Daily(days: seq<DayValue>) | SampleData

  predicate AnyPositive(vs: seq<DayValue>) {
    exists i :: 0 <= i < |vs| && vs[i].value > 0.0
  }

  function RecentDays(q: Date): Option<seq<Date>>
    requires ValidDate(q)
  {
    PastDays(q, RECENT_DAYS)
  }

  /** The sort key of `result.sort(key=lambda x: x["day"], reverse=True)`. */
  function DescendingLabel(v: DayValue): int { -LabelNumber(v.day) }

  /** `_get_recent_activities` as written: the entries are sorted by their `"MM.DD"` label,
      descending. `rows` are the device's rows; a database error gives the empty list. */
  function RecentActivitiesAsWritten(q: Date, rows: seq<Row>, fault: bool): Recent
    requires ValidDate(q) && q.year <= 9999
  {
    match RecentDays(q)
    case None => Daily([])
    case Some(dates) =>
      if fault then Daily([])
      else
        var sorted := SortByKey(DailyValues(rows, dates), DescendingLabel);
        if !AnyPositive(sorted) then SampleData else Daily(sorted)
  }

  /** `_get_recent_activities` with the order its comment intends, newest day first: the
      days are already in that order, so no sort is needed. */
  function RecentActivities(q: Date, rows: seq<Row>, fault: bool): Recent
    requires ValidDate(q) && q.year <= 9999
  {
    match RecentDays(q)
    case None => Daily([])
    case Some(dates) =>
      if fault then Daily([])
      else
        var values := DailyValues(rows, dates);
        if !AnyPositive(values) then SampleData else Daily(values)
  }

  /** Every entry of a sorted list is the entry of one of the days. */
  lemma SortedOrigin(rows: seq<Row>, dates: seq<Date>, k: nat) returns (a: nat)
    requires Reportable(dates) && k < |dates|
    ensures a < |dates| && SortByKey(DailyValues(rows, dates), DescendingLabel)[k].day == Label(dates[a])
  {
    var values := DailyValues(rows, dates);
    a := SortByKeyOrigin(values, DescendingLabel, k);
  }

  /** Sorting by the negated label number leaves the labels in descending text order. */
  lemma SortedDescending(rows: seq<Row>, dates: seq<Date>, i: nat, j: nat)
    requires Reportable(dates) && i < j < |dates|
    ensures var days := SortByKey(DailyValues(rows, dates), DescendingLabel);
      !StrLess(days[i].day, days[j].day)
  {
    SortByKeySorted(DailyValues(rows, dates), DescendingLabel);
    var a := SortedOrigin(rows, dates, i);
    var b := SortedOrigin(rows, dates, j);
    LabelOrder(dates[a], dates[b]);
  }

  /** The as-written list is ordered by label, descending, and holds the same entries as the
      list in date order. */
  lemma AsWrittenSortedByLabel(q: Date, rows: seq<Row>, i: nat, j: nat)
    requires ValidDate(q) && q.year <= 9999
    ensures RecentDays(q).Some? && RecentActivitiesAsWritten(q, rows, false).Daily? ==>
      var days := RecentActivitiesAsWritten(q, rows, false).days;
      multiset(days) == multiset(DailyValues(rows, RecentDays(q).value))
      && (i < j < |days| ==> !StrLess(days[i].day, days[j].day))
  {
    var r := RecentDays(q);
    if r.Some? && RecentActivitiesAsWritten(q, rows, false).Daily? {
      var dates := r.value;
      assert RecentActivitiesAsWritten(q, rows, false).days == SortByKey(DailyValues(rows, dates), DescendingLabel);
      if i < j < |dates| {
        SortedDescending(rows, dates, i, j);
      }
    }
  }

  /** The corrected list covers the query day and the six days before it, newest first, each
      labelled with its own day and carrying that day's average (0 for a day without rows). */
  lemma RecentNewestFirst(q: Date, rows: seq<Row>)
    requires ValidDate(q) && q.year <= 9999 && Ordinal(q) >= RECENT_DAYS
    ensures RecentDays(q).Some?
    ensures RecentActivities(q, rows, false).Daily? ==>
      var days := RecentActivities(q, rows, false).days;
      var dates := RecentDays(q).value;
      |days| == RECENT_DAYS && days[0].day == Label(q)
      && (forall i :: 0 <= i < |days| ==>
            days[i].day == Label(dates[i]) && Ordinal(dates[i]) == Ordinal(q) - i
            && days[i].value == Avg(DayAcc(rows, Date8(dates[i]))))
  {
    PastDaysOrdinals(q, RECENT_DAYS);
  }

  /** For a query on the second of January (2025-01-02, say) the as-written list starts with
      12.31, two days back, while the corrected one starts with the query day itself. */
  lemma YearBoundaryOrder(q: Date, rows: seq<Row>)
    requires ValidDate(q) && 2 <= q.year <= 9999 && q.month == 1 && q.day == 2
    ensures var r := RecentActivitiesAsWritten(q, rows, false);
      r.Daily? ==> r.days != [] && r.days[0].day != Label(q)
    ensures var r := RecentActivities(q, rows, false);
      r.Daily? ==> r.days != [] && r.days[0].day == Label(q)
  {
    var dates := JanuaryDays(q);
    AsWrittenDays(q, rows);
    SortedHeadIsDecember(rows, dates);
    RecentNewestFirst(q, rows);
  }

  /** The seven days of a 2 January query reach back into December. */
  lemma JanuaryDays(q: Date) returns (dates: seq<Date>)
    requires ValidDate(q) && 2 <= q.year <= 9999 && q.month == 1 && q.day == 2
    ensures RecentDays(q) == Some(dates) && Reportable(dates) && |dates| == RECENT_DAYS
    ensures dates[0] == q && dates[2] == Date(q.year - 1, 12, 31)
  {
    assert Ordinal(q) >= RECENT_DAYS;
    PastDaysOrdinals(q, RECENT_DAYS);
    dates := RecentDays(q).value;
    assert dates[1] == PrevDay(q);
    assert dates[2] == PrevDay(dates[1]);
  }

  lemma AsWrittenDays(q: Date, rows: seq<Row>)
    requires ValidDate(q) && q.year <= 9999 && RecentDays(q).Some?
    ensures var r := RecentActivitiesAsWritten(q, rows, false);
      r.Daily? ==> r.days == SortByKey(DailyValues(rows, RecentDays(q).value), DescendingLabel)
  {
    var dates := RecentDays(q).value;
    assert Reportable(dates);
    var sorted := SortByKey(DailyValues(rows, dates), DescendingLabel);
    assert RecentActivitiesAsWritten(q, rows, false) == if !AnyPositive(sorted) then SampleData else Daily(sorted);
  }

  /** Sorted by label, a list holding a 31 December entry cannot start with a January day. */
  lemma SortedHeadIsDecember(rows: seq<Row>, dates: seq<Date>)
    requires Reportable(dates) && |dates| >= 3 && dates[0].month == 1 && dates[2].month == 12 && dates[2].day == 31
    ensures SortByKey(DailyValues(rows, dates), DescendingLabel)[0].day != Label(dates[0])
  {
    var values := DailyValues(rows, dates);
    assert values[2].day == Label(dates[2]);
    LabelOrder(dates[2], dates[2]);
    LabelOrder(dates[0], dates[0]);
    SortedHeadAvoids(values, 2, Label(dates[0]));
  }

  /** A label below one of the entries' cannot head the descending order. */
  lemma SortedHeadAvoids(values: seq<DayValue>, k: nat, day: string)
    requires k < |values| && LabelNumber(values[k].day) > LabelNumber(day)
    ensures SortByKey(values, DescendingLabel)[0].day != day
  {
    SortedEnds(values, DescendingLabel);
  }

  /** The corrected seven-day computation. */
  method RecentActivityList(q: Date, rows: seq<Row>, fault: bool) returns (r: Recent)
    requires ValidDate(q) && q.year <= 9999
    ensures r == RecentActivities(q, rows, fault)
  {
    var days := RecentDays(q);
    if days.None? || fault {
      return Daily([]);
    }
    var values := DailyAverages(rows, days.value);
    if !AnyPositive(values) {
      return SampleData;
    }
    return Daily(values);
  }

  // ---------------------------------------------------------------------------------------
  // The dashboard

  /** Which of the four database reads raise. */
  datatype Faults = Faults(shedding: bool, highlights: bool, hourly: bool, recent: bool)

  /** What the service reads besides the request: the `active_reports` rows in descending
      `active` order and in (`DATE`, `TIME`) order, the detector's shedding scores and the
      object store. */
  datatype Sources = Sources(byActive: seq<Row>, byDateTime: seq<Row>, scores: seq<ScoreRow>,
                             signer: Signer, faults: Faults)

  datatype PetActivity = PetActivity(
    petId: string,
    abnormalBehavior: Shedding,
    highlightVideoUrl: seq<string>,
    mostActive: Span,
    heatmapImageUrl: Option<string>,
    timeOfActivity: seq<HourValue>,
    recentDatOfActivity: Recent)

  /** The dashboard for one day. */
  function PetActivityOf(petId: string, day: Date, src: Sources): PetActivity
    requires ValidDate(day) && day.year <= 9999
  {
    var dateStr := Date8(day);
    var hourly := TimeOfActivity(src.byDateTime, DEVICE_SN, dateStr, src.faults.hourly);
    PetActivity(
      petId,
      SheddingScore(src.scores, DEVICE_SN, dateStr, src.faults.shedding),
      Padded(Highlights(src.byActive, DEVICE_SN, dateStr, src.signer, src.faults.highlights))[..HIGHLIGHTS],
      MostActive(hourly),
      FirstSigned(HeatmapPaths(dateStr, DEVICE_SN), src.signer),
      hourly,
      RecentActivities(day, Matching(src.byDateTime, DEVICE_SN, None), src.faults.recent))
  }

  /** `get_pet_active`; `today` is the Korean date, read only when no day is given. */
  method GetPetActive(petId: string, queryDate: Option<Date>, today: Date, src: Sources) returns (r: PetActivity)
    requires ValidDate(today) && today.year <= 9999
    requires queryDate.Some? ==> ValidDate(queryDate.value) && queryDate.value.year <= 9999
    ensures r == PetActivityOf(petId, queryDate.GetOr(today), src)
  {
    var day := if queryDate.Some? then queryDate.value else today;
    var dateStr := Date8(day);
    var sn := DEVICE_SN;
    var found := HighlightVideoUrls(src.byActive, sn, dateStr, src.signer, src.faults.highlights);
    var highlights := PadHighlights(found);
    var heatmap := HeatmapUrl(dateStr, sn, src.signer);
    var hourly := HourlyActivity(src.byDateTime, sn, dateStr, src.faults.hourly);
    var mostActive := MostActive(hourly);
    var shedding := SheddingScore(src.scores, sn, dateStr, src.faults.shedding);
    var recent := RecentActivityList(day, Matching(src.byDateTime, sn, None), src.faults.recent);
    r := PetActivity(petId, shedding, highlights[..HIGHLIGHTS], mostActive, heatmap, hourly, recent);
  }

  /** Whatever the data: exactly five clip entries (padded with the last one, or ""), a
      one-hour busiest interval that is 18 to 19 or a reported hour, and a seven-day list or
      the sample fallback. */
  lemma PetActivityShape(petId: string, day: Date, src: Sources)
    requires ValidDate(day) && day.year <= 9999
    ensures var r := PetActivityOf(petId, day, src);
      |r.highlightVideoUrl| == HIGHLIGHTS
      && r.mostActive.end == r.mostActive.start + 1
      && (r.mostActive.start == DEFAULT_HOUR || r.mostActive.start < HOURS)
      && (r.recentDatOfActivity.Daily? ==> |r.recentDatOfActivity.days| == 0 || |r.recentDatOfActivity.days| == RECENT_DAYS)
  {
    var dateStr := Date8(day);
    var rows := Matching(src.byDateTime, DEVICE_SN, None);
    var r := PetActivityOf(petId, day, src);
    MostActiveOfDay(src.byDateTime, DEVICE_SN, dateStr, src.faults.hourly);
    assert r.recentDatOfActivity == RecentActivities(day, rows, src.faults.recent);
    RecentLength(day, rows, src.faults.recent);
  }

  /** The list is empty or holds one entry per day of the week. */
  lemma RecentLength(q: Date, rows: seq<Row>, fault: bool)
    requires ValidDate(q) && q.year <= 9999
    ensures var r := RecentActivities(q, rows, fault);
      r.Daily? ==> |r.days| == 0 || |r.days| == RECENT_DAYS
  {
    match RecentDays(q)
    case None =>
    case Some(dates) =>
      assert |DailyValues(rows, dates)| == RECENT_DAYS;
  }
}
