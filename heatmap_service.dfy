/** The heatmap service: it validates the day, reads the device's records, draws and uploads the
    image, and reports the object's URL; a drawn image is always cleaned up afterwards. */
module HeatmapService {
  import opened Wrappers
  import opened Text
  import opened Civil
  import opened HeatmapGenerator

  /** Why a request failed; these stand for the service's fixed messages, and `Raised` for the
      message built from an exception. */
  datatype Failure = BadFormat | InvalidDate | NoData(date: string) | RenderFailed | S3ConnectFailed | UploadFailed | Raised

  datatype ServiceResult =
    | Success(url: string, date: string, deviceSerial: string)
    | Failed(reason: Failure)

  /** The result and whether the temporary image was cleaned up. */
  datatype Outcome = Outcome(result: ServiceResult, cleaned: bool)

  /** What the service cannot see: a database error, whether the drawing succeeds, whether the
      four AWS variables are set (and the bucket then named), whether the image file exists and
      whether the upload completes. */
  datatype ServiceEnv = ServiceEnv(fetchFault: bool, rendered: bool, s3Configured: bool, bucket: string,
                                   fileExists: bool, uploaded: bool)

  /** `if not x`: a missing or empty text. */
  function OrDefault(x: Option<string>, default: string): (r: string)
    ensures x.Some? && x.value != [] ==> r == x.value
    ensures x.None? || x.value == [] ==> r == default
  {
    if x.None? || x.value == [] then default else x.value
  }

  /** The format check `len(date_str) != 8 or not date_str.isdigit()` fails. */
  predicate BadDateText(s: string) { |s| != 8 || !AllDigits(s) }

  /** From a validated day onwards: fetch, draw, connect, upload. */
  function FetchAndUpload(date: string, sn: string, table: seq<StoredResult>, env: ServiceEnv): (o: Outcome)
    ensures o.result.Success? ==> o.result == Success(S3Url(env.bucket, HeatmapKey(date, sn)), date, sn)
    ensures o.result.Failed? ==> o.result.reason in {NoData(date), RenderFailed, S3ConnectFailed, UploadFailed}
  {
    var records := FetchYoloData(table, sn, Some(date), env.fetchFault);
    if records == [] then Outcome(Failed(NoData(date)), false)
    else
      var produced := |KeptPoints(records)| >= MIN_POINTS && env.rendered;
      if !produced then Outcome(Failed(RenderFailed), false)
      else if !env.s3Configured || env.bucket == [] then Outcome(Failed(S3ConnectFailed), true)
      else
        var (success, url) := UploadToS3(env.bucket, HeatmapKey(date, sn), env.fileExists, env.uploaded);
        if !success then Outcome(Failed(UploadFailed), true)
        else Outcome(Success(url.value, date, sn), true)
  }

  /** `generate_and_upload_heatmap`; `now` is the Korean clock, read only when no day is given. */
  function GenerateAndUploadHeatmap(date: Option<string>, device: Option<string>, now: DateTime,
                                    table: seq<StoredResult>, env: ServiceEnv): (o: Outcome)
    requires Valid(now) && now.date.year <= 9999
    ensures (date.None? || date.value == []) && now.date == MinDate ==> o == Outcome(Failed(Raised), false)
    ensures date.Some? && date.value != [] && BadDateText(date.value) ==> o == Outcome(Failed(BadFormat), false)
    ensures var sn := OrDefault(device, DEVICE_SN);
      date.Some? && date.value != [] && !BadDateText(date.value) ==>
        o == if ParseDate8(date.value).None? then Outcome(Failed(InvalidDate), false)
             else FetchAndUpload(date.value, sn, table, env)
  {
    var sn := OrDefault(device, DEVICE_SN);
    if (date.None? || date.value == []) && now.date == MinDate then Outcome(Failed(Raised), false)
    else
      var dateStr := if date.None? || date.value == [] then Date8(PrevDay(now.date)) else date.value;
      if BadDateText(dateStr) then Outcome(Failed(BadFormat), false)
      else if ParseDate8(dateStr).None? then Outcome(Failed(InvalidDate), false)
      else FetchAndUpload(dateStr, sn, table, env)
  }

  /** An exception that leaves the service to its caller: the day before the first
      representable day, computed outside the `try`. */
  datatype Uncaught = DateOverflow

  /** `generate_previous_day_heatmap`: the day before the Korean date of `now`. Yesterday is
      computed before the request's `try`, so on the first representable day the OverflowError
      is not turned into a failure report. */
  function GeneratePreviousDayHeatmap(device: Option<string>, now: DateTime, table: seq<StoredResult>, env: ServiceEnv): (r: Result<Outcome, Uncaught>)
    requires Valid(now) && now.date.year <= 9999
    ensures now.date == MinDate <==> r == Err(DateOverflow)
    ensures now.date != MinDate ==>
      r == Ok(GenerateAndUploadHeatmap(Some(Date8(PrevDay(now.date))), device, now, table, env))
  {
    if now.date == MinDate then Err(DateOverflow)
    else Ok(GenerateAndUploadHeatmap(Some(Date8(PrevDay(now.date))), device, now, table, env))
  }

  // ---------------------------------------------------------------------------------------
  // Properties

  /** A missing day means yesterday: the request behaves as the previous-day request, and
      yesterday's text always passes both date checks. On the first representable day the two
      differ: the request reports the caught OverflowError, while the previous-day request lets
      it escape. */
  lemma DefaultDateIsYesterday(device: Option<string>, now: DateTime, table: seq<StoredResult>, env: ServiceEnv)
    requires Valid(now) && now.date.year <= 9999
    ensures now.date != MinDate ==>
      Ok(GenerateAndUploadHeatmap(None, device, now, table, env)) == GeneratePreviousDayHeatmap(device, now, table, env)
    ensures now.date != MinDate ==>
      Ok(GenerateAndUploadHeatmap(Some(""), device, now, table, env)) == GeneratePreviousDayHeatmap(device, now, table, env)
    ensures now.date == MinDate ==>
      GenerateAndUploadHeatmap(None, device, now, table, env) == Outcome(Failed(Raised), false)
      && GeneratePreviousDayHeatmap(device, now, table, env) == Err(DateOverflow)
    ensures now.date != MinDate ==>
      GenerateAndUploadHeatmap(None, device, now, table, env) ==
        FetchAndUpload(Date8(PrevDay(now.date)), OrDefault(device, DEVICE_SN), table, env)
  {
    if now.date != MinDate {
      var y := PrevDay(now.date);
      ParseDate8Date8(y);
      assert !BadDateText(Date8(y));
    }
  }

  /** The request succeeds exactly when the day is a real eight-digit date, the device has
      records on it, the image is drawn, S3 is configured and the upload completes; the URL
      then names the object under the day and the device. */
  lemma SuccessIff(date: string, device: Option<string>, now: DateTime, table: seq<StoredResult>, env: ServiceEnv)
    requires Valid(now) && now.date.year <= 9999 && date != []
    ensures var sn := OrDefault(device, DEVICE_SN);
      var o := GenerateAndUploadHeatmap(Some(date), device, now, table, env);
      o.result.Success? <==>
        (!BadDateText(date) && ParseDate8(date).Some?
         && !env.fetchFault && ResultsOn(table, sn, DashedSlice(date)) != []
         && |KeptPoints(ResultsOn(table, sn, DashedSlice(date)))| >= MIN_POINTS && env.rendered
         && env.s3Configured && env.bucket != [] && env.fileExists && env.uploaded)
  {
  }

  /** A successful request reports the object's URL, the day and the device. */
  lemma SuccessReport(date: string, device: Option<string>, now: DateTime, table: seq<StoredResult>, env: ServiceEnv)
    requires Valid(now) && now.date.year <= 9999 && date != []
    ensures var sn := OrDefault(device, DEVICE_SN);
      var o := GenerateAndUploadHeatmap(Some(date), device, now, table, env);
      o.result.Success? ==>
        o.result.date == date && o.result.deviceSerial == sn
        && o.result.url == S3Url(env.bucket, HeatmapKey(date, sn))
        && EndsWith(o.result.url, "/" + HeatmapKey(date, sn))
  {
    var sn := OrDefault(device, DEVICE_SN);
    var url := S3Url(env.bucket, HeatmapKey(date, sn));
    assert url[|url| - |"/" + HeatmapKey(date, sn)|..] == "/" + HeatmapKey(date, sn);
  }

  /** The temporary image is cleaned up exactly when one was drawn, whatever else happens. */
  lemma CleanupIffDrawn(date: string, device: Option<string>, now: DateTime, table: seq<StoredResult>, env: ServiceEnv)
    requires Valid(now) && now.date.year <= 9999 && date != []
    ensures var sn := OrDefault(device, DEVICE_SN);
      var o := GenerateAndUploadHeatmap(Some(date), device, now, table, env);
      var records := FetchYoloData(table, sn, Some(date), env.fetchFault);
      o.cleaned <==>
        (!BadDateText(date) && ParseDate8(date).Some? && records != []
         && |KeptPoints(records)| >= MIN_POINTS && env.rendered)
  {
  }

  /** A day that is rejected by the format or calendar check never reaches the database. */
  lemma RejectedBeforeFetch(date: string, device: Option<string>, now: DateTime,
                            table: seq<StoredResult>, table': seq<StoredResult>, env: ServiceEnv, env': ServiceEnv)
    requires Valid(now) && now.date.year <= 9999 && date != []
    requires BadDateText(date) || ParseDate8(date).None?
    ensures GenerateAndUploadHeatmap(Some(date), device, now, table, env) ==
            GenerateAndUploadHeatmap(Some(date), device, now, table', env')
    ensures !GenerateAndUploadHeatmap(Some(date), device, now, table, env).cleaned
  {
  }
}
