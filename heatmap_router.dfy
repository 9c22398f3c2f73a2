/** The heatmap endpoint: a request names a reference day and the heatmap is drawn for the day
    before it; without a day the heatmap is drawn for yesterday. */
module HeatmapRouter {
  import opened Wrappers
  import opened Text
  import opened Civil
  import opened HeatmapGenerator
  import opened HeatmapService

  datatype Reply =
    /** The service's success result, with the reference day and the processed day added. */
    | Response(url: string, date: string, targetDate: string, deviceSerial: string)
    /** HTTP 400 with the given message. */
    | BadRequest(reason: Failure)
    /** An exception the endpoint does not catch (the day before 0001-01-01). */
    | ServerError

  /** `generate_heatmap`: `clock1` and `clock2` are the two separate readings of the Korean
      clock taken when no day is given, and `serviceClock` is the service's own reading. */
  function GenerateHeatmap(date: Option<string>, clock1: DateTime, clock2: DateTime, serviceClock: DateTime,
                           table: seq<StoredResult>, env: ServiceEnv): (r: Reply)
    requires Valid(clock1) && Valid(clock2) && Valid(serviceClock)
    requires clock1.date.year <= 9999 && clock2.date.year <= 9999 && serviceClock.date.year <= 9999
    ensures date.Some? && date.value != [] && BadDateText(date.value) ==> r == BadRequest(BadFormat)
    ensures date.Some? && date.value != [] && !BadDateText(date.value) && ParseDate8(date.value).None? ==>
      r == BadRequest(InvalidDate)
    ensures r.Response? ==> r.date == OrDefault(date, Date8(clock2.date))
    ensures r == ServerError <==>
      (date.Some? && date.value != [] && !BadDateText(date.value) && ParseDate8(date.value) == Some(MinDate))
      || ((date.None? || date.value == []) && clock1.date == MinDate)
  {
    if date.Some? && date.value != [] then
      if BadDateText(date.value) then BadRequest(BadFormat)
      else match ParseDate8(date.value)
        case None => BadRequest(InvalidDate)
        case Some(input) =>
          if input == MinDate then ServerError
          else Answer(date.value, Date8(PrevDay(input)), serviceClock, table, env)
    else if clock1.date == MinDate then ServerError
    else Answer(Date8(clock2.date), Date8(PrevDay(clock1.date)), serviceClock, table, env)
  }

  /** The service call and the reply built from its result. */
  function Answer(date: string, target: string, serviceClock: DateTime, table: seq<StoredResult>, env: ServiceEnv): (r: Reply)
    requires Valid(serviceClock) && serviceClock.date.year <= 9999
    ensures r.Response? || r.BadRequest?
    ensures r.Response? ==> r.date == date && r.targetDate == target
  {
    match GenerateAndUploadHeatmap(Some(target), None, serviceClock, table, env).result
    case Failed(reason) => BadRequest(reason)
    case Success(url, _, sn) => Response(url, date, target, sn)
  }

  // ---------------------------------------------------------------------------------------
  // Properties

  /** With a valid reference day, the processed day is the calendar day before it (across month
      and year ends), it passes the service's checks, and the reply echoes both days. */
  lemma TargetIsPreviousDay(d: Date, clock1: DateTime, clock2: DateTime, serviceClock: DateTime,
                            table: seq<StoredResult>, env: ServiceEnv)
    requires ValidDate(d) && d != MinDate && d.year <= 9999
    requires Valid(clock1) && Valid(clock2) && Valid(serviceClock)
    requires clock1.date.year <= 9999 && clock2.date.year <= 9999 && serviceClock.date.year <= 9999
    ensures var p := PrevDay(d); var date, target := Date8(d), Date8(p);
      NextDay(p) == d && ParseDate8(target) == Some(p)
      && GenerateHeatmap(Some(date), clock1, clock2, serviceClock, table, env) == Answer(date, target, serviceClock, table, env)
      && AnswerPassedChecks(Answer(date, target, serviceClock, table, env), date, target)
  {
    NextPrevDay(d);
    ParseDate8Date8(d);
    ParseDate8Date8(PrevDay(d));
    assert !BadDateText(Date8(d));
    assert !BadDateText(Date8(PrevDay(d)));
    AnswerAfterChecks(Date8(d), Date8(PrevDay(d)), serviceClock, table, env);
  }

  /** Once the target day passed both date checks, the service cannot fail on them. */
  lemma AnswerAfterChecks(date: string, target: string, serviceClock: DateTime, table: seq<StoredResult>, env: ServiceEnv)
    requires Valid(serviceClock) && serviceClock.date.year <= 9999
    requires target != [] && !BadDateText(target) && ParseDate8(target).Some?
    ensures AnswerPassedChecks(Answer(date, target, serviceClock, table, env), date, target)
  {
  }

  /** A reply that echoes both days and does not report a date-check failure. */
  predicate AnswerPassedChecks(r: Reply, date: string, target: string) {
    (r.Response? ==> r.date == date && r.targetDate == target)
    && (r.BadRequest? ==> r.reason != BadFormat && r.reason != InvalidDate)
  }

  /** Without a reference day the processed day is the day before the first clock reading and
      the reported day is the second reading's date. */
  lemma DefaultDays(clock1: DateTime, clock2: DateTime, serviceClock: DateTime, table: seq<StoredResult>, env: ServiceEnv)
    requires Valid(clock1) && Valid(clock2) && Valid(serviceClock)
    requires clock1.date.year <= 9999 && clock2.date.year <= 9999 && serviceClock.date.year <= 9999
    requires clock1.date != MinDate
    ensures var r := GenerateHeatmap(None, clock1, clock2, serviceClock, table, env);
      r == Answer(Date8(clock2.date), Date8(PrevDay(clock1.date)), serviceClock, table, env)
    ensures var r := GenerateHeatmap(None, clock1, clock2, serviceClock, table, env);
      r.Response? ==> r.targetDate == Date8(PrevDay(clock1.date)) && r.date == Date8(clock2.date)
    ensures clock1.date == clock2.date ==> NextDay(PrevDay(clock1.date)) == clock2.date
  {
    NextPrevDay(clock1.date);
  }

  /** A reply is a success exactly when the service succeeded for the processed day; a failure
      carries the service's reason. */
  lemma AnswerMirrorsService(date: string, target: string, serviceClock: DateTime, table: seq<StoredResult>, env: ServiceEnv)
    requires Valid(serviceClock) && serviceClock.date.year <= 9999
    ensures var s := GenerateAndUploadHeatmap(Some(target), None, serviceClock, table, env).result;
      var r := Answer(date, target, serviceClock, table, env);
      (r.Response? <==> s.Success?)
      && (s.Failed? ==> r == BadRequest(s.reason))
      && (s.Success? ==> r.url == s.url && r.deviceSerial == s.deviceSerial)
  {
  }
}
