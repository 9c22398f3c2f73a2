/** The object-storage service: the date folder an uploaded file belongs in, presigned upload and
    download URLs for a device's files, and the listing of a device's videos of one day. The
    storage calls are parameters: a presigner that may fail, an existence check that reports a
    missing object or an error, and a listing of a key prefix. */
module S3Service {
  import opened Wrappers
  import opened Text
  import opened Sorting

  /** The exceptions the service raises. */
  datatype S3Error =
    /** `FileNotFoundError("Serial Number not found")`. */
    | SerialNotFound
    /** `ValueError("Filename does not match SN")`. */
    | FilenameMismatch
    /** `ValueError("Device does not belong to this user")`. */
    | NotOwner
    /** `ValueError` for a date that is neither YYYYMMDD nor YYYY-MM-DD. */
    | BadDate
    /** `ValueError` for a time that is neither HHMMSS nor HH:MM:SS. */
    | BadTime
    /** `FileNotFoundError` for a video object that does not exist. */
    | VideoNotFound
    /** `RuntimeError` wrapping an error of the storage SDK. */
    | SdkFailure
    /** The `TypeError` the listing's sort raises when it has to compare a missing time. */
    | Unorderable

  // ---------------------------------------------------------------------------------------
  // The date folder of an uploaded file

  /** `_(\d{8})_` matches at position `i`. */
  predicate DateRunAt(s: string, i: int) {
    0 <= i && i + 10 <= |s| && s[i] == '_' && AllDigits(s[i + 1..i + 9]) && s[i + 9] == '_'
  }

  /** The leftmost position at or after `from` where the pattern matches, as `re.search` finds it. */
  function FirstDateRun(s: string, from: nat): (r: Option<nat>)
    requires from <= |s|
    ensures r.Some? ==> from <= r.value && DateRunAt(s, r.value)
    ensures r.Some? ==> forall j :: from <= j < r.value ==> !DateRunAt(s, j)
    ensures r.None? ==> forall j :: from <= j ==> !DateRunAt(s, j)
    decreases |s| - from
  {
    if from + 10 > |s| then None
    else if DateRunAt(s, from) then Some(from)
    else FirstDateRun(s, from + 1)
  }

  /** `extract_date_from_filename`: the eight digits of the leftmost `_dddddddd_` in the name,
      or `today` (the UTC date as YYYYMMDD) when there is none. */
  function ExtractDate(filename: string, today: string): (d: string)
    ensures (forall i :: !DateRunAt(filename, i)) ==> d == today
    ensures (exists i :: DateRunAt(filename, i)) ==>
      |d| == 8 && AllDigits(d)
      && exists i :: DateRunAt(filename, i) && d == filename[i + 1..i + 9]
                     && forall j :: 0 <= j < i ==> !DateRunAt(filename, j)
  {
    match FirstDateRun(filename, 0)
    case Some(i) => filename[i + 1..i + 9]
    case None => today
  }

  /** A name that starts with a serial number without `_`, followed by `_`, eight digits and `_`,
      gets those eight digits as its date, whatever follows. */
  lemma StreamNameDate(sn: string, date: string, rest: string, today: string)
    requires '_' !in sn && |date| == 8 && AllDigits(date)
    ensures ExtractDate(sn + "_" + date + "_" + rest, today) == date
  {
    var s := sn + "_" + date + "_" + rest;
    assert s[|sn| + 1..|sn| + 9] == date;
    assert DateRunAt(s, |sn|);
    assert forall j :: 0 <= j < |sn| ==> s[j] == sn[j];
  }

  /** `get_content_type_by_extension`. */
  function ContentType(filename: string): (t: string)
    ensures t == "video/mp4" <==> EndsWith(filename, ".mp4")
    ensures t == "image/jpeg" <==> EndsWith(filename, ".jpg")
    ensures t == "application/zip" <==> EndsWith(filename, ".zip")
    ensures t == "application/octet-stream" <==>
      !EndsWith(filename, ".mp4") && !EndsWith(filename, ".jpg") && !EndsWith(filename, ".zip")
  {
    if EndsWith(filename, ".mp4") then "video/mp4"
    else if EndsWith(filename, ".jpg") then "image/jpeg"
    else if EndsWith(filename, ".zip") then "application/zip"
    else "application/octet-stream"
  }

  // ---------------------------------------------------------------------------------------
  // Presigned upload

  /** What a presigned `put_object` URL is requested for. */
  datatype PutRequest = PutRequest(key: string, contentType: string, expiresIn: int)

  /** The upload reply. */
  datatype UploadTicket = UploadTicket(uploadUrl: string, key: string, expiresIn: int)

  /** `{folder}/{sn}/{date}/{filename}`. */
  function UploadKey(folder: string, sn: string, filename: string, today: string): string {
    folder + "/" + sn + "/" + ExtractDate(filename, today) + "/" + filename
  }

  /** `generate_presigned_upload_url`: `registered` is whether the serial number is in the device
      table, and `presign` is the SDK call, `None` when it raises. */
  function PresignedUpload(registered: bool, sn: string, filename: string, folder: string, today: string,
                           expiresIn: int, presign: PutRequest -> Option<string>): (r: Result<UploadTicket, S3Error>)
    ensures !registered ==> r == Err(SerialNotFound)
    ensures registered && !StartsWith(filename, sn) ==> r == Err(FilenameMismatch)
    ensures var request := PutRequest(UploadKey(folder, sn, filename, today), ContentType(filename), expiresIn);
      registered && StartsWith(filename, sn) ==>
        match presign(request)
        case None => r == Err(SdkFailure)
        case Some(url) => r == Ok(UploadTicket(url, request.key, expiresIn))
  {
    if !registered then Err(SerialNotFound)
    else if !StartsWith(filename, sn) then Err(FilenameMismatch)
    else
      var key := UploadKey(folder, sn, filename, today);
      match presign(PutRequest(key, ContentType(filename), expiresIn))
      case None => Err(SdkFailure)
      case Some(url) => Ok(UploadTicket(url, key, expiresIn))
  }

  // ---------------------------------------------------------------------------------------
  // Date and time normalisation

  /** `re.match` of `\d{a}<sep>\d{b}<sep>\d{c}`: the text begins with the three digit groups. */
  predicate Grouped(s: string, sep: char, a: nat, b: nat, c: nat) {
    |s| >= a + b + c + 2
    && AllDigits(s[..a]) && s[a] == sep
    && AllDigits(s[a + 1..a + b + 1]) && s[a + b + 1] == sep
    && AllDigits(s[a + b + 2..a + b + c + 2])
  }

  /** `re.match` of `\d{n}`: the text begins with `n` digits. */
  predicate DigitPrefix(s: string, n: nat) { |s| >= n && AllDigits(s[..n]) }

  /** The separated form loses every separator, anywhere in the text; the compact form is kept
      as given, including whatever follows its digits; anything else is rejected. */
  function Normalize(s: string, sep: char, a: nat, b: nat, c: nat, bad: S3Error): (r: Result<string, S3Error>)
    ensures r.Ok? <==> Grouped(s, sep, a, b, c) || DigitPrefix(s, a + b + c)
    ensures r.Err? ==> r.error == bad
    ensures !Grouped(s, sep, a, b, c) && r.Ok? ==> r.value == s
  {
    if Grouped(s, sep, a, b, c) then Ok(RemoveChar(s, sep))
    else if DigitPrefix(s, a + b + c) then Ok(s)
    else Err(bad)
  }

  /** The separated form becomes its digits followed by the rest of the text without separators,
      so an accepted text always begins with the compact form's digits. */
  lemma NormalizeGrouped(s: string, sep: char, a: nat, b: nat, c: nat, bad: S3Error)
    requires !IsDigit(sep)
    ensures Grouped(s, sep, a, b, c) ==>
      Normalize(s, sep, a, b, c, bad) ==
        Ok(s[..a] + s[a + 1..a + b + 1] + s[a + b + 2..a + b + c + 2] + RemoveChar(s[a + b + c + 2..], sep))
    ensures Normalize(s, sep, a, b, c, bad).Ok? ==> DigitPrefix(Normalize(s, sep, a, b, c, bad).value, a + b + c)
  {
    if Grouped(s, sep, a, b, c) {
      var g1, g2, g3, tail := s[..a], s[a + 1..a + b + 1], s[a + b + 2..a + b + c + 2], s[a + b + c + 2..];
      var head := g1 + [sep] + g2 + [sep] + g3;
      assert s == head + tail;
      RemoveCharConcat(head, tail, sep);
      DigitsLackSeparator(g1, sep);
      DigitsLackSeparator(g2, sep);
      DigitsLackSeparator(g3, sep);
      RemoveSeparators(g1, g2, g3, sep);
      var digits := g1 + g2 + g3;
      assert AllDigits(digits);
      assert (digits + RemoveChar(tail, sep))[..a + b + c] == digits;
    }
  }

  lemma DigitsLackSeparator(g: string, sep: char)
    requires AllDigits(g) && !IsDigit(sep)
    ensures sep !in g
  {
  }

  lemma RemoveSeparators(g1: string, g2: string, g3: string, sep: char)
    requires sep !in g1 && sep !in g2 && sep !in g3
    ensures RemoveChar(g1 + [sep] + g2 + [sep] + g3, sep) == g1 + g2 + g3
  {
    RemoveCharAbsent(g1, sep);
    RemoveSeparatorBefore(g1, g2, sep);
    RemoveSeparatorBefore(g1 + [sep] + g2, g3, sep);
  }

  lemma RemoveSeparatorBefore(x: string, y: string, sep: char)
    requires sep !in y
    ensures RemoveChar(x + [sep] + y, sep) == RemoveChar(x, sep) + y
  {
    var u := x + [sep];
    RemoveCharConcat(u, y, sep);
    assert RemoveChar(u, sep) == RemoveChar(x, sep) by {
      RemoveCharConcat(x, [sep], sep);
      assert RemoveChar([sep], sep) == [];
    }
    RemoveCharAbsent(y, sep);
  }

  /** The video date: YYYY-MM-DD or YYYYMMDD at the start of the text. */
  function NormalizeDate(date: string): Result<string, S3Error> {
    Normalize(date, '-', 4, 2, 2, BadDate)
  }

  /** The video time: HH:MM:SS or HHMMSS at the start of the text. */
  function NormalizeTime(time: string): Result<string, S3Error> {
    Normalize(time, ':', 2, 2, 2, BadTime)
  }

  /** The canonical forms normalise to their eight date digits, and normalising twice changes
      nothing. */
  lemma NormalizeDateForms(date: string)
    ensures |date| == 10 && Grouped(date, '-', 4, 2, 2) ==>
      NormalizeDate(date) == Ok(date[..4] + date[5..7] + date[8..10])
    ensures |date| == 8 && AllDigits(date) ==> NormalizeDate(date) == Ok(date)
    ensures NormalizeDate(date).Ok? ==> NormalizeDate(NormalizeDate(date).value) == NormalizeDate(date)
  {
    NormalizeGrouped(date, '-', 4, 2, 2, BadDate);
    if |date| == 10 && Grouped(date, '-', 4, 2, 2) {
      assert date[10..] == [];
      assert RemoveChar(date[10..], '-') == [];
      assert date[..4] + date[5..7] + date[8..10] + [] == date[..4] + date[5..7] + date[8..10];
    }
    if |date| == 8 {
      assert date[..8] == date;
    }
    if NormalizeDate(date).Ok? {
      var v := NormalizeDate(date).value;
      assert v[..8][4] == v[4];
      assert !Grouped(v, '-', 4, 2, 2);
    }
  }

  /** The corresponding facts for times. */
  lemma NormalizeTimeForms(time: string)
    ensures |time| == 8 && Grouped(time, ':', 2, 2, 2) ==>
      NormalizeTime(time) == Ok(time[..2] + time[3..5] + time[6..8])
    ensures |time| == 6 && AllDigits(time) ==> NormalizeTime(time) == Ok(time)
    ensures NormalizeTime(time).Ok? ==> NormalizeTime(NormalizeTime(time).value) == NormalizeTime(time)
  {
    NormalizeGrouped(time, ':', 2, 2, 2, BadTime);
    if |time| == 8 && Grouped(time, ':', 2, 2, 2) {
      assert time[8..] == [];
      assert RemoveChar(time[8..], ':') == [];
      assert time[..2] + time[3..5] + time[6..8] + [] == time[..2] + time[3..5] + time[6..8];
    }
    if |time| == 6 {
      assert time[..6] == time;
    }
    if NormalizeTime(time).Ok? {
      var v := NormalizeTime(time).value;
      assert v[..6][2] == v[2];
      assert !Grouped(v, ':', 2, 2, 2);
    }
  }

  // ---------------------------------------------------------------------------------------
  // Presigned download of one video

  /** `{sn}_{date}_{time}.mp4`. */
  function VideoFilename(sn: string, date: string, time: string): string {
    sn + "_" + date + "_" + time + ".mp4"
  }

  /** `stream/{sn}/{date}/{filename}`. */
  function VideoKey(sn: string, date: string, time: string): string {
    "stream/" + sn + "/" + date + "/" + VideoFilename(sn, date, time)
  }

  /** What `head_object` reports for a key. */
  datatype Head =
    | Present(size: Option<nat>, lastModified: Option<string>, contentType: Option<string>)
    /** A client error with code 404. */
    | Missing
    /** Any other client error. */
    | HeadFailed

  /** The download reply. */
  datatype VideoInfo = VideoInfo(filename: string, downloadUrl: string, key: string, size: nat,
                                 lastModified: Option<string>, contentType: string, expiresIn: int)

  /** `generate_video_presigned_url`: `owner` is the registered device's owner (`None` when the
      serial number is unknown), `head` the existence and metadata check and `presign` the SDK's
      `get_object` presigner, `None` when it raises. */
  function VideoPresignedUrl(owner: Option<string>, uid: string, sn: string, date: string, time: string,
                             expiresIn: int, head: string -> Head, presign: string -> Option<string>): (r: Result<VideoInfo, S3Error>)
    ensures owner.None? ==> r == Err(SerialNotFound)
    ensures owner.Some? && owner.value != uid ==> r == Err(NotOwner)
    ensures owner == Some(uid) && NormalizeDate(date).Err? ==> r == Err(BadDate)
    ensures owner == Some(uid) && NormalizeDate(date).Ok? && NormalizeTime(time).Err? ==> r == Err(BadTime)
    ensures r.Ok? <==>
      owner == Some(uid) && NormalizeDate(date).Ok? && NormalizeTime(time).Ok?
      && var key := VideoKey(sn, NormalizeDate(date).value, NormalizeTime(time).value);
         head(key).Present? && presign(key).Some?
    ensures r.Ok? ==>
      var d, t := NormalizeDate(date).value, NormalizeTime(time).value;
      r.value.filename == VideoFilename(sn, d, t) && r.value.key == VideoKey(sn, d, t)
      && r.value.downloadUrl == presign(r.value.key).value
      && r.value.size == head(r.value.key).size.GetOr(0)
      && r.value.contentType == head(r.value.key).contentType.GetOr("video/mp4")
      && r.value.lastModified == head(r.value.key).lastModified && r.value.expiresIn == expiresIn
    ensures owner == Some(uid) && NormalizeDate(date).Ok? && NormalizeTime(time).Ok? ==>
      var key := VideoKey(sn, NormalizeDate(date).value, NormalizeTime(time).value);
      (head(key).Missing? ==> r == Err(VideoNotFound))
      && (head(key).HeadFailed? || (head(key).Present? && presign(key).None?) ==> r == Err(SdkFailure))
  {
    if owner.None? then Err(SerialNotFound)
    else if owner.value != uid then Err(NotOwner)
    else match NormalizeDate(date)
      case Err(e) => Err(e)
      case Ok(d) =>
        match NormalizeTime(time)
        case Err(e) => Err(e)
        case Ok(t) =>
          var filename := VideoFilename(sn, d, t);
          var key := VideoKey(sn, d, t);
          match head(key)
          case Missing => Err(VideoNotFound)
          case HeadFailed => Err(SdkFailure)
          case Present(size, modified, contentType) =>
            match presign(key)
            case None => Err(SdkFailure)
            case Some(url) =>
              Ok(VideoInfo(filename, url, key, size.GetOr(0), modified, contentType.GetOr("video/mp4"), expiresIn))
  }

  /** A recording uploaded to the `stream` folder under its own name lands exactly where the
      download looks for it, with the video content type. */
  lemma UploadedVideoIsDownloadable(sn: string, date: string, time: string, today: string, expiresIn: int,
                                    presign: PutRequest -> Option<string>)
    requires '_' !in sn && |date| == 8 && AllDigits(date)
    ensures UploadKey("stream", sn, VideoFilename(sn, date, time), today) == VideoKey(sn, date, time)
    ensures ContentType(VideoFilename(sn, date, time)) == "video/mp4"
    ensures var r := PresignedUpload(true, sn, VideoFilename(sn, date, time), "stream", today, expiresIn, presign);
      r.Ok? ==> r.value.key == VideoKey(sn, date, time)
  {
    var f := VideoFilename(sn, date, time);
    assert ExtractDate(f, today) == date by {
      assert f == sn + "_" + date + "_" + (time + ".mp4");
      StreamNameDate(sn, date, time + ".mp4", today);
    }
    assert StartsWith(f, sn) by {
      assert f[..|sn|] == sn;
    }
    assert EndsWith(f, ".mp4") by {
      assert f[|f| - 4..] == ".mp4";
    }
  }

  // ---------------------------------------------------------------------------------------
  // Listing the videos of one day

  /** An object of a listing. */
  datatype StoredObject = StoredObject(key: string, size: nat, lastModified: string)

  /** What `list_objects_v2` returns for a prefix. */
  datatype Listing = NoContents | Contents(objects: seq<StoredObject>) | ListFailed

  /** One entry of the listing reply. */
  datatype Video = Video(filename: string, downloadUrl: string, key: string, time: Option<string>,
                         size: nat, lastModified: string, contentType: string, expiresIn: int)

  /** `stream/{sn}/{date}/`. */
  function ListPrefix(sn: string, date: string): string {
    "stream/" + sn + "/" + date + "/"
  }

  /** `key.split('/')[-1]`. */
  function LastSegment(key: string): string {
    var parts := Split(key, '/');
    parts[|parts| - 1]
  }

  predicate IsVideoObject(o: StoredObject) { EndsWith(LastSegment(o.key), ".mp4") }

  /** `re.search(r'_\d{8}_(\d{6})\.mp4$', filename)` matches: the pattern has a fixed length and
      is anchored at the end, so it can only match the last twenty characters. */
  predicate TimedName(f: string) {
    |f| >= 20 && f[|f| - 20] == '_' && AllDigits(f[|f| - 19..|f| - 11]) && f[|f| - 11] == '_'
    && AllDigits(f[|f| - 10..|f| - 4]) && f[|f| - 4..] == ".mp4"
  }

  /** A time is missing or six digits. */
  predicate TimeShape(t: Option<string>) { t.Some? ==> |t.value| == 6 && AllDigits(t.value) }

  /** The captured six digits, or `None`. */
  function TimeOf(filename: string): (t: Option<string>)
    ensures TimeShape(t)
    ensures t.Some? <==> TimedName(filename)
    ensures t.Some? ==> EndsWith(filename, t.value + ".mp4")
  {
    if TimedName(filename) then
      var t := filename[|filename| - 10..|filename| - 4];
      assert filename[|filename| - 10..] == t + ".mp4";
      Some(t)
    else None
  }

  /** A recording's own name yields its time, and the last segment of its key is that name. */
  lemma VideoNameReadsBack(sn: string, date: string, time: string)
    requires |date| == 8 && AllDigits(date) && |time| == 6 && AllDigits(time)
    requires '/' !in sn && '/' !in date && '/' !in time
    ensures TimeOf(VideoFilename(sn, date, time)) == Some(time)
    ensures LastSegment(VideoKey(sn, date, time)) == VideoFilename(sn, date, time)
    ensures StartsWith(VideoKey(sn, date, time), ListPrefix(sn, date))
  {
    var f := VideoFilename(sn, date, time);
    var n := |f|;
    assert n == |sn| + 20;
    assert f[n - 19..n - 11] == date;
    assert f[n - 10..n - 4] == time;
    assert f[n - 4..] == ".mp4";
    assert f[n - 20] == '_' && f[n - 11] == '_';
    assert '/' !in f;
    var key := VideoKey(sn, date, time);
    assert key == ("stream/" + sn + "/" + date) + ['/'] + f;
    SplitLast("stream/" + sn + "/" + date, f, '/');
    assert key[..|ListPrefix(sn, date)|] == ListPrefix(sn, date);
  }

  /** The listing's `.mp4` objects, in listing order. */
  function VideoObjects(objects: seq<StoredObject>): (r: seq<StoredObject>)
    ensures |r| <= |objects|
    ensures forall k :: 0 <= k < |r| ==> r[k] in objects && IsVideoObject(r[k])
    decreases |objects|
  {
    if objects == [] then []
    else
      var last := objects[|objects| - 1];
      VideoObjects(objects[..|objects| - 1]) + (if IsVideoObject(last) then [last] else [])
  }

  /** The reply entry for one object. */
  function VideoOf(o: StoredObject, url: string, expiresIn: int): Video {
    var name := LastSegment(o.key);
    Video(name, url, o.key, TimeOf(name), o.size, o.lastModified, "video/mp4", expiresIn)
  }

  /** The loop's result before sorting: the entries of the `.mp4` objects, or the failure of the
      first presigning that raises. */
  function Entries(objects: seq<StoredObject>, presign: string -> Option<string>, expiresIn: int): (r: Result<seq<Video>, S3Error>)
    ensures r.Err? ==> r.error == SdkFailure
    ensures r.Ok? ==> forall k :: 0 <= k < |r.value| ==> TimeShape(r.value[k].time)
    decreases |objects|
  {
    if objects == [] then Ok([])
    else
      match Entries(objects[..|objects| - 1], presign, expiresIn)
      case Err(e) => Err(e)
      case Ok(done) =>
        var last := objects[|objects| - 1];
        if !IsVideoObject(last) then Ok(done)
        else match presign(last.key)
          case None => Err(SdkFailure)
          case Some(url) => Ok(done + [VideoOf(last, url, expiresIn)])
  }

  /** Every object of `ws` can be presigned. */
  predicate AllPresigned(ws: seq<StoredObject>, presign: string -> Option<string>) {
    forall k :: 0 <= k < |ws| ==> presign(ws[k].key).Some?
  }

  /** `es` holds the entries of the objects `ws`, in their order. */
  predicate EntriesFor(es: seq<Video>, ws: seq<StoredObject>, presign: string -> Option<string>, expiresIn: int) {
    |es| == |ws|
    && forall k :: 0 <= k < |ws| ==> presign(ws[k].key).Some? && es[k] == VideoOf(ws[k], presign(ws[k].key).value, expiresIn)
  }

  /** Every `.mp4` object, and nothing else, gets an entry in listing order, unless one of them
      cannot be presigned. */
  lemma {:induction false} EntriesOfVideos(objects: seq<StoredObject>, presign: string -> Option<string>, expiresIn: int)
    ensures Entries(objects, presign, expiresIn).Ok? <==> AllPresigned(VideoObjects(objects), presign)
    ensures Entries(objects, presign, expiresIn).Ok? ==>
      EntriesFor(Entries(objects, presign, expiresIn).value, VideoObjects(objects), presign, expiresIn)
    decreases |objects|
  {
    if objects != [] {
      var p := objects[..|objects| - 1];
      EntriesOfVideos(p, presign, expiresIn);
      var last := objects[|objects| - 1];
      if IsVideoObject(last) {
        var vp := VideoObjects(p);
        AllPresignedSnoc(vp, last, presign);
        var e := Entries(p, presign, expiresIn);
        if e.Ok? && presign(last.key).Some? {
          EntriesForSnoc(e.value, vp, VideoOf(last, presign(last.key).value, expiresIn), last, presign, expiresIn);
        }
      }
    }
  }

  lemma AllPresignedSnoc(ws: seq<StoredObject>, w: StoredObject, presign: string -> Option<string>)
    ensures AllPresigned(ws + [w], presign) <==> AllPresigned(ws, presign) && presign(w.key).Some?
  {
    assert (ws + [w])[|ws|] == w;
    assert forall k :: 0 <= k < |ws| ==> (ws + [w])[k] == ws[k];
  }

  lemma EntriesForSnoc(es: seq<Video>, ws: seq<StoredObject>, e: Video, w: StoredObject,
                       presign: string -> Option<string>, expiresIn: int)
    requires EntriesFor(es, ws, presign, expiresIn)
    requires presign(w.key).Some? && e == VideoOf(w, presign(w.key).value, expiresIn)
    ensures EntriesFor(es + [e], ws + [w], presign, expiresIn)
  {
    assert forall k :: 0 <= k < |ws| ==> (ws + [w])[k] == ws[k] && (es + [e])[k] == es[k];
  }

  /** An error on a prefix of the listing is the error of the whole listing. */
  lemma {:induction false} EntriesErrPersists(objects: seq<StoredObject>, n: nat, presign: string -> Option<string>, expiresIn: int)
    requires n <= |objects| && Entries(objects[..n], presign, expiresIn).Err?
    ensures Entries(objects, presign, expiresIn) == Entries(objects[..n], presign, expiresIn)
    decreases |objects| - n
  {
    if n < |objects| {
      assert objects[..n + 1][..n] == objects[..n];
      EntriesErrPersists(objects, n + 1, presign, expiresIn);
    } else {
      assert objects[..n] == objects;
    }
  }

  /** The loop over the listing's objects. */
  method CollectEntries(objects: seq<StoredObject>, presign: string -> Option<string>, expiresIn: int)
    returns (r: Result<seq<Video>, S3Error>)
    ensures r == Entries(objects, presign, expiresIn)
  {
    var result: seq<Video> := [];
    var i := 0;
    while i < |objects|
      invariant 0 <= i <= |objects|
      invariant Entries(objects[..i], presign, expiresIn) == Ok(result)
    {
      var obj := objects[i];
      assert objects[..i + 1][..i] == objects[..i];
      assert objects[..i + 1][i] == obj;
      var name := LastSegment(obj.key);
      if EndsWith(name, ".mp4") {
        var url := presign(obj.key);
        if url.None? {
          EntriesErrPersists(objects, i + 1, presign, expiresIn);
          return Err(SdkFailure);
        }
        result := result + [VideoOf(obj, url.value, expiresIn)];
      }
      i := i + 1;
    }
    assert objects[..|objects|] == objects;
    r := Ok(result);
  }

  /** The sort key of an entry: its time as a number, and -1 (before every time) for a missing
      one. Six-digit times compare as their numbers, so this is the order of the time texts with
      "" for a missing time. */
  function TimeKey(v: Video): int {
    if v.time.Some? && AllDigits(v.time.value) then ParseNat(v.time.value) else -1
  }

  /** `result.sort(key=lambda x: x.get("time") or "")`: by time, untimed entries first. */
  function SortVideos(vs: seq<Video>): (r: seq<Video>)
    ensures |r| == |vs| && multiset(r) == multiset(vs)
  {
    SortByKey(vs, TimeKey)
  }

  /** Later entries never have an earlier time text. */
  predicate InTimeOrder(r: seq<Video>) {
    forall i, j :: 0 <= i < j < |r| && r[i].time.Some? && r[j].time.Some? ==> !StrLess(r[j].time.value, r[i].time.value)
  }

  /** Entries without a time come before every entry with one. */
  predicate UntimedFirst(r: seq<Video>) {
    forall i, j :: 0 <= i < j < |r| && r[j].time.None? ==> r[i].time.None?
  }

  predicate HasUntimed(vs: seq<Video>) { exists k :: 0 <= k < |vs| && vs[k].time.None? }

  /** The sorted entries are ordered by their time texts, untimed ones first; the entries of
      any one sort key, the untimed ones included, keep their listing order, as Python's stable
      `sort` does; and each entry of the listing appears once. */
  lemma SortVideosOrder(vs: seq<Video>)
    requires forall k :: 0 <= k < |vs| ==> TimeShape(vs[k].time)
    ensures InTimeOrder(SortVideos(vs)) && UntimedFirst(SortVideos(vs))
    ensures WithKey(SortVideos(vs), TimeKey, -1) == WithKey(vs, TimeKey, -1)
    ensures forall t :: WithKey(SortVideos(vs), TimeKey, t) == WithKey(vs, TimeKey, t)
    ensures forall k :: 0 <= k < |vs| ==> (vs[k].time.None? <==> TimeKey(vs[k]) == -1)
  {
    var r := SortVideos(vs);
    SortByKeySorted(vs, TimeKey);
    forall t ensures WithKey(r, TimeKey, t) == WithKey(vs, TimeKey, t) {
      SortByKeyStable(vs, TimeKey, t);
    }
    forall k | 0 <= k < |r| ensures TimeShape(r[k].time) {
      assert r[k] in multiset(vs);
    }
    forall i, j | 0 <= i < j < |r| && r[i].time.Some? && r[j].time.Some?
      ensures !StrLess(r[j].time.value, r[i].time.value)
    {
      assert TimeKey(r[i]) <= TimeKey(r[j]);
      StrLessDigits(r[j].time.value, r[i].time.value);
    }
  }

  /** The listing as the code sorts it: `x.get("time", "")` is the stored value, which is `None`
      for an entry without a time, and a comparison with `None` raises. With two or more entries
      every entry is compared, so one untimed entry among several makes the call fail. */
  function SortAsWritten(vs: seq<Video>): (r: Result<seq<Video>, S3Error>)
    ensures r.Ok? ==> r.value == SortVideos(vs)
  {
    if |vs| >= 2 && HasUntimed(vs) then Err(Unorderable) else Ok(SortByKey(vs, TimeKey))
  }

  /** Where the written sort does not fail it agrees with the intended one; it fails exactly on
      the listings of two or more videos of which one has no time in its name. */
  lemma SortAsWrittenFails(vs: seq<Video>)
    ensures SortAsWritten(vs).Err? <==> |vs| >= 2 && exists k :: 0 <= k < |vs| && vs[k].time.None?
    ensures SortAsWritten(vs).Ok? ==> SortAsWritten(vs).value == SortVideos(vs)
  {
  }

  /** The device and date checks shared by both sorts, followed by the listing and the loop. */
  function Listed(owner: Option<string>, uid: string, sn: string, date: string, expiresIn: int,
                  list: string -> Listing, presign: string -> Option<string>): (r: Result<seq<Video>, S3Error>)
    ensures owner.None? ==> r == Err(SerialNotFound)
    ensures owner.Some? && owner.value != uid ==> r == Err(NotOwner)
    ensures owner == Some(uid) && NormalizeDate(date).Err? ==> r == Err(BadDate)
    ensures owner == Some(uid) && NormalizeDate(date).Ok? ==>
      match list(ListPrefix(sn, NormalizeDate(date).value))
      case ListFailed => r == Err(SdkFailure)
      case NoContents => r == Ok([])
      case Contents(objects) => r == Entries(objects, presign, expiresIn)
  {
    if owner.None? then Err(SerialNotFound)
    else if owner.value != uid then Err(NotOwner)
    else match NormalizeDate(date)
      case Err(e) => Err(e)
      case Ok(d) =>
        match list(ListPrefix(sn, d))
        case ListFailed => Err(SdkFailure)
        case NoContents => Ok([])
        case Contents(objects) => Entries(objects, presign, expiresIn)
  }

  /** `list_videos_by_date` as written, sort failure included. */
  function ListVideosAsWritten(owner: Option<string>, uid: string, sn: string, date: string, expiresIn: int,
                               list: string -> Listing, presign: string -> Option<string>): (r: Result<seq<Video>, S3Error>)
    ensures Listed(owner, uid, sn, date, expiresIn, list, presign).Err? ==> r == Listed(owner, uid, sn, date, expiresIn, list, presign)
  {
    match Listed(owner, uid, sn, date, expiresIn, list, presign)
    case Err(e) => Err(e)
    case Ok(vs) => SortAsWritten(vs)
  }

  /** `list_videos_by_date` with untimed videos sorted first. */
  function ListVideos(owner: Option<string>, uid: string, sn: string, date: string, expiresIn: int,
                      list: string -> Listing, presign: string -> Option<string>): (r: Result<seq<Video>, S3Error>)
    ensures Listed(owner, uid, sn, date, expiresIn, list, presign).Err? ==> r == Listed(owner, uid, sn, date, expiresIn, list, presign)
    ensures r.Ok? ==> multiset(r.value) == multiset(Listed(owner, uid, sn, date, expiresIn, list, presign).value)
  {
    match Listed(owner, uid, sn, date, expiresIn, list, presign)
    case Err(e) => Err(e)
    case Ok(vs) => Ok(SortVideos(vs))
  }

  /** The request: the checks, the listing, the loop and the sort. */
  method ListVideosByDate(owner: Option<string>, uid: string, sn: string, date: string, expiresIn: int,
                          list: string -> Listing, presign: string -> Option<string>) returns (r: Result<seq<Video>, S3Error>)
    ensures r == ListVideos(owner, uid, sn, date, expiresIn, list, presign)
    ensures var w := ListVideosAsWritten(owner, uid, sn, date, expiresIn, list, presign);
      (w.Ok? ==> r == w) && (r.Err? ==> r == w)
  {
    if owner.None? {
      return Err(SerialNotFound);
    }
    if owner.value != uid {
      return Err(NotOwner);
    }
    var d := NormalizeDate(date);
    if d.Err? {
      return Err(d.error);
    }
    match list(ListPrefix(sn, d.value)) {
      case ListFailed => r := Err(SdkFailure);
      case NoContents => r := Ok([]);
      case Contents(objects) =>
        var entries := CollectEntries(objects, presign, expiresIn);
        if entries.Err? {
          r := Err(entries.error);
        } else {
          r := Ok(SortVideos(entries.value));
        }
    }
  }

  /** A successful listing holds one entry per `.mp4` object of the day's folder, ordered by the
      time in its name with untimed entries first. */
  lemma ListVideosContents(owner: Option<string>, uid: string, sn: string, date: string, expiresIn: int,
                           list: string -> Listing, presign: string -> Option<string>, objects: seq<StoredObject>)
    requires owner == Some(uid) && NormalizeDate(date).Ok?
    requires list(ListPrefix(sn, NormalizeDate(date).value)) == Contents(objects)
    ensures var r := ListVideos(owner, uid, sn, date, expiresIn, list, presign);
      r.Ok? ==>
        |r.value| == |VideoObjects(objects)| && InTimeOrder(r.value) && UntimedFirst(r.value)
        && forall k :: 0 <= k < |r.value| ==>
             exists o :: o in VideoObjects(objects) && presign(o.key).Some? && r.value[k] == VideoOf(o, presign(o.key).value, expiresIn)
  {
    var e := Entries(objects, presign, expiresIn);
    if e.Ok? {
      var vs := e.value;
      var ws := VideoObjects(objects);
      EntriesOfVideos(objects, presign, expiresIn);
      SortVideosOrder(vs);
      var r := SortVideos(vs);
      forall k | 0 <= k < |r|
        ensures exists o :: o in ws && presign(o.key).Some? && r[k] == VideoOf(o, presign(o.key).value, expiresIn)
      {
        assert r[k] in multiset(vs);
        var m :| 0 <= m < |vs| && vs[m] == r[k];
        assert ws[m] in ws;
      }
    }
  }

  /** The discrepancy: with a timed and an untimed video in the folder the written code fails,
      while the intended sort lists the untimed one first. */
  lemma UntimedVideoBreaksListing(owner: Option<string>, uid: string, sn: string, date: string, expiresIn: int,
                                  list: string -> Listing, presign: string -> Option<string>)
    requires Listed(owner, uid, sn, date, expiresIn, list, presign).Ok?
    requires var vs := Listed(owner, uid, sn, date, expiresIn, list, presign).value;
      |vs| >= 2 && exists k :: 0 <= k < |vs| && vs[k].time.None?
    ensures ListVideosAsWritten(owner, uid, sn, date, expiresIn, list, presign) == Err(Unorderable)
    ensures var r := ListVideos(owner, uid, sn, date, expiresIn, list, presign);
      r.Ok? && r.value != [] && r.value[0].time.None?
  {
    var vs := Listed(owner, uid, sn, date, expiresIn, list, presign).value;
    var k :| 0 <= k < |vs| && vs[k].time.None?;
    assert forall m :: 0 <= m < |vs| ==> TimeShape(vs[m].time);
    SortVideosOrder(vs);
    var r := SortVideos(vs);
    assert vs[k] in multiset(r);
    var j :| 0 <= j < |r| && r[j] == vs[k];
    if j > 0 {
      assert r[0].time.None?;
    }
  }
}
