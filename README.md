# Gekkota backend: a verified model of its core

This project models the logic of a FastAPI backend for monitoring a pet gecko. It covers
cameras that run an object detector, activity reports, heatmaps, clips, weights, a
retrieval-augmented chat and device registration. The model is written in Dafny. Database
tables are sequences or maps of records. Clock readings, object-store calls, the detector's
JSON and the language model are parameters. Every operation is stated against a specification,
and its properties are proved.

Modules, following the program's own structure:

- **Detection** (`detection.dfy`): the detector's per-frame `yolo_result` as the services read it, and the box-centre extraction both activity jobs share.
- **ActivityLive** (`activity_live.dfy`): the per-minute activity job of `util/active_create.py`.
  - Centres of consecutive frames are paired.
  - Every minute of the processed range gets one row, zero-filled.
  - A pair counts for every interval holding either of its time stamps.
  - Also modelled: the fallback ranges, the synthetic record of an empty query, and the fetch by time range.
- **ActivityBatch** (`activity_batch.dfy`): the five-minute cron job of `crontab/active_create.py`.
  - The window comes from the clock.
  - Each pair is charged to the bucket of its later centre.
  - Only buckets that received a distance get a row, emitted in key order.
  - Rows are stored by an insert-or-update, and the command line picks the mode.
- **ActiveReport** (`active_report.dfy`): the `active_reports` table as a class.
  - The upsert keyed by (SN, DATE, TIME), commit and rollback, and the two read queries.
  - The service's all-or-nothing save of a batch of rows.
  - The record-to-dictionary conversion.
- **PetState** and **HidingScan** (`pet_state.dfy`, `hiding_scan.dfy`): the hiding verdict.
  - The service judges from the five newest records.
  - The offline scanner keeps the log, the set of logged time stamps and the previous frame.
- **HeatmapGenerator**, **HeatmapCron**, **HeatmapService**, **HeatmapRouter**: the heatmap pipeline without the image mathematics.
  - Keypoint extraction and the ten-point gate.
  - The object key and URL.
  - Date validation and the previous-day target.
  - Cleanup, and the results reported at each layer.
- **Scheduler** (`scheduler.dfy`): the two periodic loops.
  - The next whole minute and the next midnight.
  - The range handed to the scheduled job.
  - Isolation of a task's failure.
  - One iteration runs per clock reading.
- **PetActive** (`pet_active.dfy`): the activity dashboard.
  - Five highlight clips, padded.
  - The most active hour and the shedding level.
  - The heatmap lookup order.
  - Hourly activity, and the averages of the last seven days.
- **PetHealth** (`pet_health.dfy`): one day's health record with the daily weights of its month and the monthly averages of its year.
- **S3Service** (`s3_service.dfy`): object storage.
  - The date folder of an upload and the content type.
  - Presigned upload and download URLs.
  - The listing of a device's videos of one day.
- **DeviceRepository** and **DeviceService** (`device_repository.dfy`, `device_service.dfy`): the device table as a class.
  - Updates, including the stream URL rewrite on an IP change, deletion and the serial-prefix count.
  - Serial numbers built from the ISO 8601 week, and the dictionary of a device.
- **UserAuth** (`user_auth.dfy`): profile registration.
  - The bearer token taken from the header.
  - The JWT shape check (compact serialisation, section 7.1 of RFC 7515).
  - Only a well-shaped token reaches the verifier.
- **HealthRecordModel** and **CameraDataModel** (`health_record.dfy`, `camera_data.dfy`): the JSON list columns of the health record and the camera record.
- **RagPrompt** (`rag_prompt.dfy`): the chat's helpers.
  - Truncation and passage selection.
  - The recent conversation read from the chat log.
  - The topic gate and the message list sent to the model.
- **Swagger** and **Config** (`swagger.dfy`, `config.dfy`): the OpenAPI security augmentation and its cache, and the `TEST_MODE` switch.
- **Supporting modules**, modelling what the code takes from Python:
  - **Civil**: naive `datetime` on the proleptic Gregorian calendar, `strftime` and `strptime` for the formats used, and the ISO week.
  - **JsonText**: `json.loads`, and `json.dumps` of string lists.
  - **Text**: `str` methods.
  - **Sorting**: the stable `list.sort`.
  - **Counting**, and **Wrappers** (Option and Result).

## Model

| member | source | states |
|---|---|---|
| ActiveReport.ReportStore.SaveOrUpdate | repository/active_report_repository.py:10-35 | afterwards the (SN, DATE, TIME) key holds exactly the given `active`, with no other key changed and nothing committed; it always returns true |
| ActiveReport.ApplyRowsOverride | repository/active_report_repository.py:14-31 | upserting a frame row by row equals overriding the table with the frame's own last-wins values |
| ActiveReport.LastRowWins | repository/active_report_repository.py:20-31 | after the upserts a key is present and holds the value of the last row with that key |
| ActiveReport.ApplyRowsOthers | repository/active_report_repository.py:14-31 | a key that no row names keeps its presence and its value |
| ActiveReport.ApplyRowsKeys | repository/active_report_repository.py:14-31 | the key set grows by exactly the keys of the frame's rows: an existing record is updated, never duplicated |
| ActiveReport.ApplyRowsIdempotent | service/active_report_service.py:13-31 | saving the same frame twice leaves the table as one save does |
| ActiveReport.ReportStore.Commit | service/active_report_service.py:30 | the committed table becomes the session's view |
| ActiveReport.ReportStore.Rollback | service/active_report_service.py:32-34 | the session's view returns to the committed table |
| ActiveReport.ReportStore.SaveActivityData | service/active_report_service.py:13-34 | an empty frame returns 0 and changes nothing; otherwise all rows are upserted in order and committed and the count is returned, and a failure at any row or at the commit rolls back, so none of the frame is stored |
| ActiveReport.ReportStore.GetBySnAndDate | repository/active_report_repository.py:37-42 | a record is returned exactly when it is committed under that device and date, and no key comes back twice |
| ActiveReport.ReportStore.GetLatestBySn | repository/active_report_repository.py:44-61 | returns min(limit, number of the device's records) records, each committed, in strictly descending (DATE, TIME) order, and every record left out is older than every record returned |
| ActiveReport.Newest | repository/active_report_repository.py:50 | picks a key of the set that is newer, in (DATE, TIME) order, than every other key |
| ActiveReport.BeforeTotal | repository/active_report_repository.py:50 | two distinct keys of one device are always ordered by `ORDER BY "DATE" DESC, "TIME" DESC` |
| ActiveReport.BeforeTransitive | repository/active_report_repository.py:50 | the (DATE, TIME) order is transitive |
| ActiveReport.BeforeIrreflexive | repository/active_report_repository.py:50 | the (DATE, TIME) order is strict: asymmetric and irreflexive |
| ActiveReport.RecordToDict | service/active_report_service.py:46-53 | the dictionary has exactly the keys SN, DATE, TIME and active |
| ActiveReport.RecordToDictPreserves | service/active_report_service.py:46-53 | reading the four columns back out of the dictionary gives the record unchanged |
| ActivityBatch.TimeRange | crontab/active_create.py:95-112 | the window ends at the reading with its minute floored to a multiple of five and seconds cleared, and starts five minutes earlier; it fails exactly when that start would fall before 0001-01-01 |
| ActivityBatch.TimeRangeWindow | crontab/active_create.py:95-112 | the window end is on the reading's day and hour, at or before the reading and less than five minutes before it, and the window is five minutes long |
| ActivityBatch.BucketOf | crontab/active_create.py:240-241 | the bucket of an instant is the instant with its minute floored to a multiple of five and seconds and microseconds cleared |
| ActivityBatch.Bucket | crontab/active_create.py:240-241 | a bucket start is a multiple of five minutes, at or before the instant and less than five minutes before it |
| ActivityBatch.StepsIndex | crontab/active_create.py:229-235 | step `i` is the distance between samples `i` and `i + 1`, stamped with the time of the later one |
| ActivityBatch.PairDistances | crontab/active_create.py:229-235 | the loop over `range(1, len(center_data))` produces the steps of the sorted samples |
| ActivityBatch.Accumulate | crontab/active_create.py:237-244 | the loop over the distances builds the `activity_log` dictionary |
| ActivityBatch.AddToBuckets | crontab/active_create.py:244 | adding a distance keeps the dictionary's keys distinct and adds its bucket to them |
| ActivityBatch.AddToValue | crontab/active_create.py:244 | adding a distance changes the value of its own bucket alone, by exactly that distance |
| ActivityBatch.AddToTotal | crontab/active_create.py:244 | adding a distance adds it to the sum of the dictionary's values |
| ActivityBatch.AccumulatedProps | crontab/active_create.py:237-244 | the dictionary has one entry per bucket that received a distance, each entry holds the sum of that bucket's distances, and together the entries hold every distance |
| ActivityBatch.EmitRows | crontab/active_create.py:250-259 | the loop over the sorted items emits one row per item, in order |
| ActivityBatch.BucketRowsIndex | crontab/active_create.py:251-259 | row `i` is the row of the `i`-th sorted item: the device, the date as YYYYMMDD, the bucket's HHMM followed by "00" and the sum |
| ActivityBatch.CalculateBatchActivity | crontab/active_create.py:210-261 | `calculate_activity` of the batch job returns the rows of its specification function |
| ActivityBatch.BatchActivityEmpty | crontab/active_create.py:225-227 | the job produces no rows exactly when fewer than two samples are read or the device value is falsy |
| ActivityBatch.StepBucketTime | crontab/active_create.py:240-243 | each distance goes to the bucket of the later sample of its pair |
| ActivityBatch.PairRowKey | crontab/active_create.py:240-257 | the key a pair is charged to is the later sample's date and its time floored to five minutes as HHMM followed by "00" |
| ActivityBatch.BatchRowsAscending | crontab/active_create.py:251 | the rows are in strictly ascending (DATE, TIME) order, so no two rows share a key |
| ActivityBatch.BatchStepCharged | crontab/active_create.py:237-259 | every pair distance is charged to a row: the row for the pair's bucket exists and holds that bucket's sum |
| ActivityBatch.BatchRowCharged | crontab/active_create.py:237-259 | every row is the bucket of some pair and holds that bucket's sum, so no empty bucket gets a zero row |
| ActivityBatch.BatchRowsTotal | crontab/active_create.py:237-259 | the rows' activities add up to the sum of all pair distances, before rounding |
| ActivityBatch.TotalSort | crontab/active_create.py:251 | sorting the dictionary's items keeps the sum of their values |
| ActivityBatch.SaveBatchRows | crontab/active_create.py:264-307 | an empty frame returns 0 and changes nothing; otherwise each row is updated or inserted under its key, then everything is committed and the count returned; a failure at any row or at the commit rolls back and stores none of the frame |
| ActivityBatch.DeviceFrames | crontab/active_create.py:157-185 | the frames read are exactly the stored frames of the device, none added |
| ActivityBatch.ProcessBatchInterval | crontab/active_create.py:310-355 | returns true exactly when connecting, the window and the query succeed, some rows are computed and every row and the commit succeed; then the table holds the rows upserted over it, and otherwise it is unchanged; the session ends with nothing uncommitted |
| ActivityBatch.RunJob | crontab/active_create.py:360-377 | the exit code is 0 exactly when the run in the mode chosen by `--test` succeeds, and 1 otherwise |
| ActivityLive.CollectSamples | util/active_create.py:93-97 | the extraction loop keeps, in frame order, exactly the samples whose centre and time stamp extract |
| ActivityLive.Samples | util/active_create.py:93-97 | there are at most as many samples as frames, and every sample carries a valid time before year 10000 |
| ActivityLive.RecordTimes | util/active_create.py:117-128 | when every present stamp parses, the result is a list of valid instants |
| ActivityLive.ClockRange | util/active_create.py:130-144 | the fallback range ends at the clock reading and starts `interval` minutes earlier; it fails exactly when that start is before year 1 |
| ActivityLive.SampleRange | util/active_create.py:111-114 | the first and last sorted samples bound every sample |
| ActivityLive.SampleBounds | util/active_create.py:100-114 | sorting by time stamp puts the earliest sample first and the latest last |
| ActivityLive.StampRange | util/active_create.py:115-139 | the record-stamp range, when it exists, is made of valid instants |
| ActivityLive.ChooseRange | util/active_create.py:106-144 | both explicit bounds win; else two or more samples give their first and last; an empty frame list falls back to the clock range; every result is made of valid instants |
| ActivityLive.IntervalStarts | util/active_create.py:158-160 | there are interval starts exactly when the first start is before the end, and the first is the floored range start |
| ActivityLive.IntervalStartsContiguous | util/active_create.py:158-189 | each interval starts where the previous one ends, every start is before the end of the range, and the last interval reaches it |
| ActivityLive.IntervalStartsCover | util/active_create.py:158-189 | every instant of the range falls in an interval |
| ActivityLive.IntervalStartsSeparated | util/active_create.py:158-189 | the starts are at least one interval apart and none is before the first |
| ActivityLive.IntervalUnique | util/active_create.py:158-189 | an instant lies in at most one interval |
| ActivityLive.IntervalActivity | util/active_create.py:163-175 | the inner loop sums the distance of every consecutive pair of which at least one time stamp lies in `[current_interval, next_interval)` |
| ActivityLive.IntervalSlots | util/active_create.py:158-189 | the outer loop computes one slot per interval start, each with that interval's charged distance |
| ActivityLive.FormatSlots | util/active_create.py:177-186 | formatting the computed slots gives the rows of the specification |
| ActivityLive.CalculateActivity | util/active_create.py:78-191 | `calculate_activity` returns the rows of its specification function: one row per interval from the floored range start while before the range end |
| ActivityLive.LiveRowsIndex | util/active_create.py:177-186 | row `i` is the row of interval start `i`, so there is one row per interval |
| ActivityLive.FewSamplesNoActivity | util/active_create.py:165-166 | with fewer than two samples every interval has activity 0, and still gets a row |
| ActivityLive.PairSumNonNegative | util/active_create.py:163-175 | an interval's activity is never negative when distances are not |
| ActivityLive.PairChargedToBoth | util/active_create.py:172-175 | a pair with a time stamp in the interval is charged to it in full, so a pair straddling two intervals counts in both |
| ActivityLive.PairSumIncludes | util/active_create.py:167-175 | an interval's sum is at least the charge of each single pair |
| ActivityLive.ChargeNonNegative | util/active_create.py:172-175 | a single pair's charge is never negative |
| ActivityLive.PairOutsideNotCharged | util/active_create.py:172-173 | a pair with neither time stamp in the interval adds nothing to it |
| ActivityLive.EmptyQueryZeroRows | util/active_create.py:203-213 | the synthetic record of an empty query yields a row for every minute of the range, each with activity 0 |
| ActivityLive.SlotKeyOrder | util/active_create.py:178-179 | rows of distinct whole-minute starts get distinct keys, ordered as their starts |
| ActivityLive.LiveRowKey | util/active_create.py:178-179 | DATE is the interval start's YYYYMMDD and TIME is its hour and minute followed by "00" |
| ActivityLive.FetchByTimeRange | util/active_create.py:19-53 | the frames fetched are exactly the stored frames of the device whose stamp lies in `[start, end)`, none added |
| ActivityLive.IntervalInput | util/active_create.py:203-216 | the calculation never receives an empty frame list: an empty query becomes one synthetic record |
| ActivityLive.IntervalRowsEmpty | util/active_create.py:213-220 | the calculation of a run always succeeds, and it yields no rows exactly when the range ends at or before its start floored to the minute |
| ActivityLive.ProcessCurrentInterval | util/active_create.py:194-230 | a query failure or an empty result returns false and changes nothing; otherwise the rows are upserted and committed and true is returned, and a failing save rolls back and returns false |
| Detection.ExtractCenter | util/active_create.py:60-75 | a centre is extracted exactly when there is a first box with four corner values and a non-empty time stamp that parses; it is then the midpoint of that box's corners, stamped with the parsed time |
| CameraDataModel.CameraData.GetVideoUrls | app/models/camera.py:15-16 | a null or empty column reads as the empty list; any other text is decoded as JSON, and text that is not JSON fails |
| CameraDataModel.CameraData.SetVideoUrls | app/models/camera.py:19-20 | the list is stored as its JSON text, `[]` for the empty list, and reads back as the same list |
| CameraDataModel.MalformedColumnRaises | app/models/camera.py:15-16 | column text that does not start a JSON value makes the read fail |
| HealthRecordModel.HealthRecord.GetPhotoList | app/models/health.py:22-28 | a null or empty column and text that is not JSON read as the empty list; other text reads as what it decodes to |
| HealthRecordModel.HealthRecord.SetPhotoList | app/models/health.py:31-32 | an empty list clears the column; any other list is stored as its JSON text; either way the list reads back unchanged |
| HealthRecordModel.MalformedColumnReadsEmpty | app/models/health.py:25-28 | column text that does not start a JSON value, such as a bare file name, reads as no photos |
| Civil.NextDay | util/scheduler.py:56 | `+ timedelta(days=1)` gives a valid calendar date in the same or the next year, with no upper bound on the year |
| Civil.PrevDay | service/pet_active_service.py:389 | `- timedelta(days=1)` gives a valid date in the same or the previous year; it is undefined on 0001-01-01, where Python raises OverflowError |
| Civil.PrevNextDay | router/heatmap_router.py:52-53 | stepping a day forward and then back returns the date, and the day after a date is never the first representable day |
| Civil.NextPrevDay | router/heatmap_router.py:52-53 | stepping a day back and then forward returns the date |
| Civil.OrdinalNextDay | service/pet_active_service.py:389 | the day after a date is one day later in the day count |
| Civil.OrdinalInjective | service/pet_active_service.py:389 | distinct dates have distinct day counts |
| Civil.FloorMinute | util/active_create.py:147-151 | clearing seconds and microseconds keeps the date, hour and minute, and moves the instant back by less than a minute |
| Civil.FloorFiveMinutes | crontab/active_create.py:241 | flooring the minute to a multiple of five keeps the date and hour, and moves the instant back by less than five minutes |
| Civil.FromMicrosMicros | util/active_create.py:158-160 | converting an instant to its microsecond count and back gives the instant |
| Civil.MicrosInjective | util/active_create.py:158-160 | distinct instants have distinct microsecond counts |
| Civil.IsoWeek | service/device_service.py:55 | the ISO 8601 week number lies between 1 and 53 |
| Civil.IsoWeekOfJanuaryFourth | service/device_service.py:55 | week 1 of a year is the week holding 4 January, as ISO 8601 defines it |
| Civil.IsoWeekSameWeek | service/device_service.py:55 | the days of one Monday-to-Sunday week share their week number |
| Civil.IsoWeekNext | service/device_service.py:55 | the next week has the next number, or number 1 when a new ISO year begins |
| Civil.Date8Order | service/pet_active_service.py:389 | eight-digit dates compare as text exactly as the dates compare |
| Civil.HHMMOrder | crontab/active_create.py:250-257 | `%H%M` texts compare exactly as the minutes of the day they name |
| Civil.ParseDate8 | router/heatmap_router.py:52 | `strptime(s, "%Y%m%d")` on eight digits succeeds exactly when the fixed-width fields form a real date from year 1 on |
| Civil.ParseDate8Date8 | router/heatmap_router.py:52-53 | every date written with `%Y%m%d` reads back as itself |
| Civil.Date8ParseDate8 | router/heatmap_router.py:52-53 | every eight-digit text that parses is the way its date is written |
| Civil.ParseStampStamp | util/active_create.py:68-71 | every instant with whole seconds, written as `%Y%m%d_%H%M%S`, reads back as itself |
| Civil.StampParseStamp | util/active_create.py:68-71 | every text that parses as a stamp is the stamp of the instant it denotes |
| JsonText.LoadsDumpStrings | app/models/camera.py:15-20 | a list of strings written with `json.dumps` reads back with `json.loads` as the same list, the empty list included |
| JsonText.LoadsRejectsNonValues | app/models/health.py:25-28 | empty or whitespace-only text, and text starting with a character no JSON value starts with, fails to decode |
| JsonText.LoadsRejectsUnclosedArray | app/models/health.py:25-28 | an unclosed `[` fails to decode |
| JsonText.EscapeParses | app/models/camera.py:15-20 | a string's escaped contents, followed by the closing quote, read back as the string |
| JsonText.QuoteParses | app/models/camera.py:15-20 | a string literal read as a value gives back the string |
| DeviceRepository.Assign | repository/device_repository.py:55-57 | every column key of the changes gets its given value and every other column keeps its value |
| DeviceRepository.ColumnsDetermine | repository/device_repository.py:14-20 | a device is determined by its five columns |
| DeviceRepository.AssignColumnsOnly | repository/device_repository.py:55-57 | keys that are not columns have no effect, and applying the same changes twice is applying them once |
| DeviceRepository.UpdatedBySn | repository/device_repository.py:52-62 | a truthy new IP different from the old one sets the IP and forces `rtsp_url` to `rtsp://{ip}:8554/stream`, overriding a supplied `rtsp_url`; otherwise the device is just the changes applied; id, SN and UID always follow the changes |
| DeviceRepository.UpdateKeepsStream | repository/device_repository.py:55-62 | a stream URL that follows the IP keeps following it after an update that neither sets `rtsp_url` nor clears the IP; a changed IP always re-derives it; with the IP unchanged `rtsp_url` takes its supplied value or keeps its old one |
| DeviceRepository.FirstIndex | repository/device_repository.py:27-30 | `.first()` finds the first row that passes the filter, or reports that none does |
| DeviceRepository.DeleteRemovesId | repository/device_repository.py:68-74 | with unique ids, deleting the device with an id removes exactly one row and leaves no device with that id |
| DeviceRepository.DeviceStore.FindById | repository/device_repository.py:26-27 | finds a device with the id, or reports that no device has it |
| DeviceRepository.DeviceStore.FindBySn | repository/device_repository.py:29-30 | finds the first device with the serial number, or reports that no device has it |
| DeviceRepository.DeviceStore.CountSerialPrefix | repository/device_repository.py:76-77 | counts the devices whose serial number starts with the prefix, at most all of them |
| DeviceRepository.DeviceStore.CreateDevice | repository/device_repository.py:10-24 | the new device is appended to the table and nothing else changes |
| DeviceRepository.DeviceStore.Update | repository/device_repository.py:39-46 | an unknown id returns None and changes nothing; otherwise only the device with the id changes, by the changes given, and it is returned |
| DeviceRepository.DeviceStore.UpdateBySn | repository/device_repository.py:48-66 | an unknown serial number returns None and changes nothing; otherwise only the first device with it changes, as `UpdatedBySn` says, and it is returned |
| DeviceRepository.DeviceStore.Delete | repository/device_repository.py:68-74 | returns true exactly when a device had the id; it then removes that device alone, and otherwise changes nothing |
| DeviceService.SerialNumberFields | service/device_service.py:50-62 | the prefix is "SFRXC1", the two-digit year modulo 100, the two-digit ISO week and "GF"; the serial number starts with it and ends in at least five digits that read back as the existing count plus one |
| DeviceService.SequenceReadsBack | service/device_service.py:60-62 | the sequence field reads back as the number it was made from and is at least five digits wide |
| DeviceService.SerialNumberInjective | service/device_service.py:60-62 | different sequence numbers give different serial numbers under one prefix |
| DeviceService.SerialFreshWhenDense | service/device_service.py:58-62 | the new serial number is fresh when the numbers already issued with the prefix are exactly the sequence numbers below their count; a count lowered by a deletion lifts that guarantee |
| DeviceService.GenerateAndRegisterSn | service/device_service.py:46-75 | a missing or empty IP is rejected with nothing stored; otherwise exactly one device is appended with the next serial number, the IP and the stream URL `rtsp://{ip}:8554/stream`, that serial number is returned, and the prefix count grows by one |
| DeviceService.DeviceToDict | service/device_service.py:108-115 | the dictionary has exactly the keys device_id, SN, UID, IP and rtsp_url, each holding that column |
| DeviceService.UpdateWithOwnDict | service/device_service.py:93-97 | writing a device's dictionary back with `update` reproduces the device, whatever was stored before |
| HeatmapCron.FirstIrregular | crontab/heatmap_create.py:96-97 | every keypoint before the returned position unpacks into `x, y`, and the one at it, if any, does not |
| HeatmapCron.SubjectKeypointsUnpacked | crontab/heatmap_create.py:95-99 | the inner loop keeps the positive points up to the first keypoint that does not unpack, and reports whether it stopped there on a missing `xy` (KeyError) or on a non-pair (ValueError) |
| HeatmapCron.CronKeptPoints | crontab/heatmap_create.py:89-102 | an extraction error is always an unpacking error naming one of the records |
| HeatmapCron.CronKeptPointsStep | crontab/heatmap_create.py:89-102 | one more record keeps an earlier error, raises when it has a non-pair `xy`, and otherwise adds its points |
| HeatmapCron.CronExtractKeypoints | crontab/heatmap_create.py:87-102 | the loop over the records computes the job's extraction, raising at the first record whose `xy` is not a pair |
| HeatmapCron.GenerateCronHeatmap | crontab/heatmap_create.py:67-164 | the ValueError escapes; otherwise an image exists exactly when at least ten points were kept and the drawing succeeds |
| HeatmapCron.CronErrorStays | crontab/heatmap_create.py:89-102 | once a prefix of the records has raised, the whole extraction raises the same error |
| HeatmapCron.CronErrorSource | crontab/heatmap_create.py:97-100 | the error names a record whose first subject has an `xy` that is not a pair before any keypoint without `xy` |
| HeatmapCron.CronErrorFrom | crontab/heatmap_create.py:97-100 | any such record makes the extraction raise |
| HeatmapCron.CronErrorIff | crontab/heatmap_create.py:89-102 | the job raises exactly when some record has a non-pair `xy` before any keypoint without `xy` in its first subject |
| HeatmapCron.CronAgreesWhenRegular | crontab/heatmap_create.py:89-102 | when every keypoint of every first subject unpacks, the job keeps the same points as the service's extraction |
| HeatmapCron.MissingXyTruncates | crontab/heatmap_create.py:96-102 | a keypoint without `xy` ends its record: nothing after it in that subject is kept, and the record does not raise |
| HeatmapCron.CronFetch | crontab/heatmap_create.py:58-65 | with a non-empty date the records of the device filed on that day, written `YYYY-MM-DD`; otherwise every record of the device |
| HeatmapCron.UploadRecords | crontab/heatmap_create.py:182-194 | no records gives no upload and failure; a success has uploaded under the given key; an upload happens only after at least ten points, a drawing and a configured S3 |
| HeatmapCron.ProcessDeviceHeatmap | crontab/heatmap_create.py:176-197 | a missing `DATABASE_URL` raises, and so does the database when the query fails, since the `try` has no `except`; otherwise the day defaults to today's Korean date, and that day's records go to `heatmap/{date}/{sn}_heatmap.png` |
| HeatmapCron.ProcessPreviousDayHeatmap | crontab/heatmap_create.py:199-201 | runs the job for the day before the Korean date, and raises OverflowError on the first representable day |
| HeatmapCron.TestCurrentDataHeatmap | crontab/heatmap_create.py:203-223 | a missing `DATABASE_URL` or a failing query raises; otherwise every record of the device, with no date filter, goes to `heatmap/{today}/{sn}_heatmap_test.png` |
| HeatmapCron.Main | crontab/heatmap_create.py:229-248 | a run that ends without an exception exits with 0 or 1 |
| HeatmapCron.MainCronKeys | crontab/heatmap_create.py:235-248 | the cron mode with a date uploads that day's records under that date's key; without one it does so for the previous day; the exit code is 0 exactly on success; a failing query leaves the job as an exception rather than an exit code |
| HeatmapCron.PreviousDayFilter | crontab/heatmap_create.py:58-61 | the previous-day run filters on that day written with dashes, and its key holds that day's eight digits |
| HeatmapCron.SuccessUploadsUnderKey | crontab/heatmap_create.py:176-197 | a run succeeds exactly when the database is configured and its query does not fail, S3 is configured, the day has records that give at least ten points without raising, the drawing succeeds and the upload succeeds; it has then uploaded under the day's key |
| HeatmapGenerator.PointOf | util/heatmap_generator.py:216-219 | a keypoint gives a point exactly when its `xy` has two values, both positive; the point is those two values |
| HeatmapGenerator.SubjectPoints | util/heatmap_generator.py:215-219 | the points of one subject are exactly those of its keypoints that give one, never more than there are keypoints |
| HeatmapGenerator.SubjectKeypointsXy | util/heatmap_generator.py:215-219 | the inner loop collects the subject's points in keypoint order |
| HeatmapGenerator.ExtractKeypoints | util/heatmap_generator.py:203-224 | the extraction loop keeps the first subject's points of every record, counts every record as processed, and counts as errors exactly the records that do not decode |
| HeatmapGenerator.GenerateHeatmap | util/heatmap_generator.py:183-355 | an image is produced exactly when at least ten points were kept and the drawing succeeds |
| HeatmapGenerator.KeptPointsAppend | util/heatmap_generator.py:207-224 | the points of two batches of records are the points of the first followed by those of the second |
| HeatmapGenerator.KeptPointsOne | util/heatmap_generator.py:209-224 | a single record contributes its first subject's points, and an undecodable one contributes nothing |
| HeatmapGenerator.KeptPointsContains | util/heatmap_generator.py:207-219 | every point a record contributes is kept |
| HeatmapGenerator.KeptPointsSource | util/heatmap_generator.py:207-219 | every kept point comes from some record's first subject |
| HeatmapGenerator.DashedSliceOfDate8 | util/heatmap_generator.py:128-129 | the date filter of an eight-digit date is its `YYYY-MM-DD` form |
| HeatmapGenerator.ResultsOn | util/heatmap_generator.py:130-135 | the records returned are exactly the device's records on that date |
| HeatmapGenerator.ResultsOf | util/heatmap_generator.py:138-141 | the records returned are exactly the device's records |
| HeatmapGenerator.ResultsOfNewestFirst | util/heatmap_generator.py:138-143 | over a table in the query's time-stamp order, the device's records keep that order |
| HeatmapGenerator.FetchedAreNewest | util/heatmap_generator.py:138-143 | without a date, over a table in the query's time-stamp order, the records read are newest first and none left out is newer than any read |
| HeatmapGenerator.FetchYoloData | util/heatmap_generator.py:115-180 | a database error gives no records; with a date, the device's records on that date; without one, the device's newest thousand records |
| HeatmapGenerator.HeatmapKeyParts | crontab/heatmap_create.py:190-216 | an eight-character date and the serial number can be read back from the key `heatmap/{date}/{sn}_heatmap.png`, and a test key is never a regular key |
| HeatmapGenerator.UploadToS3 | util/heatmap_generator.py:65-91 | the upload succeeds exactly when the file exists and the upload completes; a URL is returned exactly on success, and it is `https://{bucket}.s3.amazonaws.com/{key}` |
| HeatmapService.OrDefault | service/heatmap_service.py:46-47 | a missing or empty text is replaced by the default; any other text is kept |
| HeatmapService.FetchAndUpload | service/heatmap_service.py:70-121 | a success reports the S3 URL of `heatmap/{date}/{sn}_heatmap.png`, the day and the device; a failure is one of no data, drawing failed, S3 connection failed or upload failed |
| HeatmapService.GenerateAndUploadHeatmap | service/heatmap_service.py:23-133 | a missing day on the first representable date fails with the caught OverflowError; a day that is not eight digits fails the format check; one that is not a calendar date fails as invalid; any other day goes on to fetch and upload for the device, `DEVICE_SN` by default |
| HeatmapService.GeneratePreviousDayHeatmap | service/heatmap_service.py:135-149 | the request is made for the day before the Korean date; on the first representable day the OverflowError of that subtraction, made outside the request's `try`, escapes to the caller, and this happens on no other day |
| HeatmapService.DefaultDateIsYesterday | service/heatmap_service.py:39-41 | except on the first representable day, a missing or empty day behaves as the previous-day request, and yesterday's text always passes both date checks; on that day the request reports the caught OverflowError while the previous-day request lets it escape |
| HeatmapService.SuccessIff | service/heatmap_service.py:51-121 | the request succeeds exactly when the day is a real eight-digit date, the device has records on it that give at least ten points, the image is drawn, S3 is configured with a bucket, the file exists and the upload completes |
| HeatmapService.SuccessReport | service/heatmap_service.py:113-121 | a successful request reports the day, the device, and a URL that ends with the object key |
| HeatmapService.CleanupIffDrawn | service/heatmap_service.py:130-133 | the temporary image is cleaned up exactly when one was drawn, whatever happens afterwards |
| HeatmapService.RejectedBeforeFetch | service/heatmap_service.py:50-68 | a day rejected by the format or calendar check gives the same answer whatever the database and S3 hold, and nothing is cleaned up |
| HeatmapRouter.GenerateHeatmap | router/heatmap_router.py:36-74 | a given day that is not eight digits is a 400 for its format, and one that is not a calendar date is a 400 as invalid; a reply echoes the given day, or today's date when none is given; the request fails with an uncaught OverflowError exactly when the reference day, given or read from the clock, is 0001-01-01, since `except ValueError` at line 54 does not catch it |
| HeatmapRouter.Answer | router/heatmap_router.py:64-74 | the service's answer becomes a reply or a 400, and a reply adds the reference day and the processed day |
| HeatmapRouter.TargetIsPreviousDay | router/heatmap_router.py:43-58 | for a valid reference day the processed day is the calendar day before it, across month and year ends; it passes the service's two checks, and the reply echoes both days |
| HeatmapRouter.AnswerAfterChecks | router/heatmap_router.py:64-68 | once the processed day passed both date checks, the service cannot fail on them |
| HeatmapRouter.DefaultDays | router/heatmap_router.py:59-62 | without a day, the processed day is the day before the first clock reading and the reported day is the second reading's date, one day after it when both readings fall on the same day |
| HeatmapRouter.AnswerMirrorsService | router/heatmap_router.py:64-74 | a reply is a success exactly when the service succeeded, and a failure carries the service's reason |
| HidingScan.LowConfList | crontab/hiding_detector.py:52-55 | the comprehension raises KeyError exactly when some keypoint has no `conf`, or has a low one and no `name`; otherwise it lists one (name, conf) pair per keypoint with `conf <= 0.3`, each taken from such a keypoint |
| HidingScan.RunScan | crontab/hiding_detector.py:24-76 | the loop over the records ends with the log of the scan, or with the exception of the record that raises first |
| HidingScan.ScanErrorStays | crontab/hiding_detector.py:28-76 | once a prefix of the records raises, the whole run ends with that exception |
| HidingScan.AppendConsistent | crontab/hiding_detector.py:41-45 | appending a new time stamp keeps each stamp logged once and adds it to the logged set |
| HidingScan.LogEachConsistent | crontab/hiding_detector.py:39-45 | logging a list of stamps once each keeps the log consistent, only extends it, and marks exactly those stamps |
| HidingScan.LogOnceConsistent | crontab/hiding_detector.py:40-45 | logging one stamp if it is not yet logged keeps the log consistent and marks it |
| HidingScan.BoxlessStep | crontab/hiding_detector.py:37-47 | a box-less record after a box-less frame logs both time stamps, each at most once; after a boxed frame it logs nothing; either way it becomes the previous frame, box-less |
| HidingScan.BoxedStep | crontab/hiding_detector.py:49-76 | a boxed record is logged exactly when it has at least six low-confidence keypoints and its stamp is not logged yet; the previous frame is never logged here, whatever it was |
| HidingScan.StepConsistent | crontab/hiding_detector.py:28-76 | every pass of the loop keeps the log consistent and only extends it |
| HidingScan.ScanConsistent | crontab/hiding_detector.py:24-76 | no time stamp is ever logged twice, and each entry goes with an addition to `added_timestamps` |
| HidingScan.ScanAppendOnly | crontab/hiding_detector.py:24-76 | the log only grows: the log after any prefix of the records begins the final log |
| HidingScan.ScanPrev | crontab/hiding_detector.py:46-76 | `prev_info` describes the last record read: its time stamp and whether it had no box |
| HidingScan.ScanFirstError | crontab/hiding_detector.py:29-55 | a run that raises stops at the first record that raises; IndexError is raised exactly for an empty `keypoints` list, and KeyError only for a boxed record with an unreadable keypoint |
| HidingScan.IsolatedBoxless | crontab/hiding_detector.py:37-76 | a box-less record with a boxed record on each side is never logged, even when the record after it is hidden |
| HidingScan.IntendedBackPropagates | crontab/hiding_detector.py:61-74 | with the box-less flag read before it is cleared, a hidden frame right after an unlogged box-less frame logs itself and then that frame, keeping the log consistent |
| PetActive.Take | service/pet_active_service.py:78 | `s[:n]` is the whole list when it is short enough and its first `n` entries otherwise |
| PetActive.Matching | service/pet_active_service.py:199-219 | the rows returned are exactly the device's rows, on the given date when there is one, in the order of the query |
| PetActive.MatchingByActive | service/pet_active_service.py:199-219 | over rows in descending `active` order, the matching rows keep that order |
| PetActive.HighlightRowsMostActive | service/pet_active_service.py:199-223 | over rows in descending `active` order, the records read are in that order and none left out of the day's (or, without any, the device's) records is more active than any read |
| PetActive.FirstSignedAt | service/pet_active_service.py:256-262 | no key before the returned position signs, and the key at it, if any, does |
| PetActive.FirstPresigned | service/pet_active_service.py:294-303 | the loop over the keys returns the signed URL of the first key that signs, or nothing |
| PetActive.FirstSignedSpec | service/pet_active_service.py:294-303 | no URL is returned exactly when no key signs, and a returned URL is that of the first key that signs |
| PetActive.Clips | service/pet_active_service.py:231-262 | there is at most one URL per record |
| PetActive.HighlightRows | service/pet_active_service.py:199-223 | the day's ten most active records or, when the day has none, the device's ten most active on any day |
| PetActive.RecordClip | service/pet_active_service.py:238-262 | one record's URL: the stream key first, then the three alternate keys in order, only when the stream key does not sign |
| PetActive.HighlightVideoUrls | service/pet_active_service.py:183-269 | a database error gives no URLs; otherwise the URLs of the records read, until five are found |
| PetActive.CollectClips | service/pet_active_service.py:228-265 | the record loop, which stops once five URLs are collected, returns the first five URLs of all the records |
| PetActive.ClipsPrefix | service/pet_active_service.py:231-233 | the URLs of a prefix of the records are a prefix of the URLs of all of them |
| PetActive.LoopStop | service/pet_active_service.py:231-233 | where the record loop stops, its URLs are the first five of all the records' URLs |
| PetActive.ClipsCount | service/pet_active_service.py:244-262 | each record contributes exactly one URL when one of its keys signs and none otherwise |
| PetActive.ClipsSource | service/pet_active_service.py:238-262 | every URL is the clip of one of the records |
| PetActive.HighlightsShape | service/pet_active_service.py:183-269 | at most five URLs, at most one per record read, each the signed URL of a key of a record of that device |
| PetActive.Padded | service/pet_active_service.py:52-57 | the padding loop leaves at least five URLs |
| PetActive.PadHighlights | service/pet_active_service.py:52-57 | the padding loop appends copies of the last URL, or "" when there is none, until there are five |
| PetActive.PaddedShape | service/pet_active_service.py:52-57 | the five reported entries are the URLs found followed by copies of the last one, or five empty strings when none was found |
| PetActive.FirstArgMax | service/pet_active_service.py:119 | `max` picks an index holding the largest value, and the first such index |
| PetActive.MostActive | service/pet_active_service.py:105-120 | with no hourly data the busiest hour is 18; otherwise it is the hour of the first entry with the largest value; the interval is one hour long |
| PetActive.DayScores | service/pet_active_service.py:138-158 | each value occurs among the day's scores exactly as often as the device's records of that day hold it as a non-null shedding score |
| PetActive.Cents | service/pet_active_service.py:165 | `round(v, 2)` in hundredths: within half a hundredth of the value, and even when the value lies exactly halfway |
| PetActive.Round2Nearest | service/pet_active_service.py:165 | the rounded score lies within 0.005 of the score, and a score already in hundredths is kept |
| PetActive.Mode | service/pet_active_service.py:164-167 | `most_common(1)` gives a value of the list that occurs at least as often as any other, and the first such value seen |
| PetActive.LevelMonotone | service/pet_active_service.py:171-177 | a higher score never gives a lower level; a score up to 0.33 is low, above 0.67 high, between them medium |
| PetActive.MajorityDecides | service/pet_active_service.py:164-177 | a value held by more than half of the day's rounded scores decides the level |
| PetActive.SingleScoreRounds | service/pet_active_service.py:164-177 | a lone score of 0.334 is low, because it rounds to 0.33, although 0.334 itself is in the medium band |
| PetActive.RoundedScoresOutvote | service/pet_active_service.py:164-177 | the scores 0.5, 0.301 and 0.302 give low: the last two round to 0.3 and outvote 0.5 |
| PetActive.SheddingScore | service/pet_active_service.py:122-181 | the result is "없음" exactly when the query fails or the day has no non-null score; otherwise it is the level of a rounded score that occurs at least as often as any other, the first such one in query order |
| PetActive.HeatmapUrl | service/pet_active_service.py:271-307 | the heatmap URL is that of the first of the three candidate keys that signs |
| PetActive.HeatmapLookupOrder | service/pet_active_service.py:287-303 | the first key tried is the one the heatmap job uploads under; then the month folder, then the root; `None` when no key signs |
| PetActive.HourAcc | service/pet_active_service.py:341-349 | an hour's count is at most the number of rows, and an hour without rows has total 0 |
| PetActive.AggregateHours | service/pet_active_service.py:339-349 | the loop succeeds exactly when every time starts with an hour; the dictionary then holds exactly the hours that have rows, each with its total and count |
| PetActive.HourlyAcc | service/pet_active_service.py:339-349 | the `hourly_data` dictionary holds exactly the hours that have rows, each with the total and the number of its rows |
| PetActive.HourEntries | service/pet_active_service.py:352-362 | at most one entry per hour below the bound, in ascending hour order, each with that hour's average |
| PetActive.HourEntriesComplete | service/pet_active_service.py:353-362 | no hour below the bound that has rows is missing |
| PetActive.HourlyActivity | service/pet_active_service.py:309-373 | the hourly computation, of the aggregation loop and the `range(24)` loop, returns its specification function |
| PetActive.TimeOfActivityShape | service/pet_active_service.py:309-373 | one entry per hour 0 to 23 that has rows, ascending, each with that hour's average; hours of 24 or more are read but never reported |
| PetActive.MostActiveOfDay | service/pet_active_service.py:66-82 | the busiest interval is one hour long: 18 to 19 on a day without data, otherwise a reported hour |
| PetActive.MostActiveReported | service/pet_active_service.py:105-120 | over hours below 24, the busiest hour is 18 for no data and otherwise one of the reported hours |
| PetActive.PastDays | service/pet_active_service.py:389 | the days are the query day and then each day before the previous one, none after the query day's year |
| PetActive.PastDaysOrdinals | service/pet_active_service.py:389 | the days exist exactly when they all fall on or after 0001-01-01, and day `i` is `i` days before the query day |
| PetActive.PastDaysStep | service/pet_active_service.py:389 | the days exist when at most one is asked for, or when the day before the first exists and the rest exist from it |
| PetActive.LabelOrder | service/pet_active_service.py:408 | the "MM.DD" labels compare as texts as month, then day, compare |
| PetActive.DayAcc | service/pet_active_service.py:412-415 | a day without rows has total 0 |
| PetActive.DailyValues | service/pet_active_service.py:417-427 | one entry per queried day, in the order of the days |
| PetActive.AccumulateDays | service/pet_active_service.py:404-415 | the `daily_data` dictionary holds exactly the seven days' texts, each with the total and count of that day's rows |
| PetActive.DailyAverages | service/pet_active_service.py:417-427 | the loop over the dictionary's items produces each day's average, or 0, in the order of the days |
| PetActive.DailyAt | service/pet_active_service.py:417-427 | entry `k` carries day `k`'s label and average |
| PetActive.SortedOrigin | service/pet_active_service.py:430 | every entry of the sorted list is the entry of one of the days |
| PetActive.SortedDescending | service/pet_active_service.py:430 | `sort(key=day, reverse=True)` leaves the labels in descending text order |
| PetActive.AsWrittenSortedByLabel | service/pet_active_service.py:417-430 | the list as written is ordered by label, descending, and holds the same entries as the list in date order |
| PetActive.AsWrittenDays | service/pet_active_service.py:417-444 | the list as written, when not replaced by samples, is the per-day list sorted by label |
| PetActive.SortedHeadIsDecember | service/pet_active_service.py:430 | sorted by label, a list holding a 31 December entry cannot start with a January day |
| PetActive.YearBoundaryOrder | service/pet_active_service.py:429-430 | for a query on 2 January the list as written starts with 12.31, two days back, while the corrected list starts with the query day |
| PetActive.JanuaryDays | service/pet_active_service.py:389 | the seven days of a 2 January query reach back into December of the previous year |
| PetActive.RecentNewestFirst | service/pet_active_service.py:388-430 | the corrected list covers the query day and the six days before it, newest first, each labelled with its own day and carrying that day's average, or 0 |
| PetActive.RecentActivityList | service/pet_active_service.py:375-449 | the corrected seven-day computation returns its specification function |
| PetActive.RecentLength | service/pet_active_service.py:375-449 | the seven-day list is empty or has one entry per day of the week |
| PetActive.GetPetActive | service/pet_active_service.py:24-88 | `get_pet_active` returns the composition of its parts, for the given day or by default the Korean date |
| PetActive.PetActivityShape | service/pet_active_service.py:24-88 | whatever the data: exactly five clip entries, a one-hour busiest interval at 18 or at a reported hour, and a seven-day list that is empty, full or the sample fallback |
| PetHealth.DailyWeightsDomain | service/pet_health_service.py:86-97 | a day has a weight exactly when some weighed row of the pet in that month falls on it |
| PetHealth.DailyWeightsLastWins | service/pet_health_service.py:97 | of several rows on one day, the dictionary comprehension keeps the last one's weight |
| PetHealth.MonthlyWeightStats | service/pet_health_service.py:77-108 | one entry per day of the month, labelled `str(day)`, with that day's weight or `None` |
| PetHealth.MonthTotals | service/pet_health_service.py:116-125 | a month's count of weighed rows is at most the number of rows |
| PetHealth.MonthlyAverages | service/pet_health_service.py:116-128 | the dictionary holds exactly the months 1 to 12 that have weights, each with its average |
| PetHealth.YearlyWeightStats | service/pet_health_service.py:111-139 | twelve entries labelled "1" to "12", each with the month's average weight or `None` |
| PetHealth.LabelsReadBack | service/pet_health_service.py:104 | the labels read back as the day or month numbers, and no two entries share one |
| PetHealth.ConstantWeightAverage | service/pet_health_service.py:118 | a month whose weighed rows all carry one weight averages to that weight |
| PetHealth.ConstantWeightTotal | service/pet_health_service.py:118 | a month whose weighed rows all carry one weight totals that weight times their count |
| PetHealth.GetPetHealth | service/pet_health_service.py:23-48 | without a record, the response has the pet, the ISO date and `None` fields; with one, the record's fields; either way the day list has one entry per day of the month and the month list twelve |
| PetState.LowConfKeypoints | service/pet_state_service.py:97-100 | the low-confidence keypoints are exactly those whose `conf`, or 0 when absent, is at most 0.3 |
| PetState.AnalyzeHiding | service/pet_state_service.py:51-110 | the verdict is hiding exactly when the query does not fail and two of the records lack boxes or two boxed records have at least six low-confidence keypoints |
| PetState.DeviceResults | service/pet_state_service.py:61-67 | the records returned are exactly the device's records |
| PetState.DeviceResultsNewestFirst | service/pet_state_service.py:61-67 | over a table in the query's time-stamp order, the device's records keep that order |
| PetState.RecentAreNewest | service/pet_state_service.py:61-67 | over a table in the query's time-stamp order, the five records read are newest first and none left out is newer than any read |
| PetState.RecentResults | service/pet_state_service.py:61-67 | the newest five records of the device, or all of them when it has fewer |
| PetState.GetPetState | service/pet_state_service.py:13-39 | the reply carries the pet id and the hiding verdict of the default device's five newest records |
| PetState.HidingIff | service/pet_state_service.py:82-106 | hiding means two distinct records that are both box-less or both low-keypoint, so fewer than two records are never hiding |
| PetState.HidingPermutation | service/pet_state_service.py:85-106 | the verdict depends only on the records, not on their order |
| PetState.BoxlessKeypointsIgnored | service/pet_state_service.py:89-91 | the keypoints of a box-less record do not affect the verdict |
| PetState.FirstSubjectOnly | service/pet_state_service.py:94-103 | only the first subject's keypoints are examined |
| RagPrompt.TruncateText | llm_api/rag_qa_prompt.py:105-108 | a missing or empty text gives the empty string, a text that fits is kept whole, and a longer one becomes its first `max_chars` characters and `...`, so at most three characters over the bound |
| RagPrompt.TruncateTextIdempotent | llm_api/rag_qa_prompt.py:105-108 | truncating a truncated text again changes nothing |
| RagPrompt.Retrieve | llm_api/rag_qa_prompt.py:96-102 | the loop keeps, in search order, the passages of the indices that name one, without the missing-hit marker |
| RagPrompt.RetrievedFromIndices | llm_api/rag_qa_prompt.py:99-101 | every kept passage is the passage of an in-range index of the search |
| RagPrompt.RetrievedAllInRange | llm_api/rag_qa_prompt.py:99-101 | when every index names a passage, all are kept, one per index, in order |
| RagPrompt.RetrievedSkipsMissing | llm_api/rag_qa_prompt.py:100 | a missing hit (`-1`) adds no passage |
| RagPrompt.RetrievedAsWritten | llm_api/rag_qa_prompt.py:96-102 | the code as written keeps at most one passage per index, and fails on an index below minus the corpus size |
| RagPrompt.AsWrittenAgreesWithoutNegatives | llm_api/rag_qa_prompt.py:100-101 | without negative indices the code as written keeps exactly the intended passages |
| RagPrompt.MissingHitSelectsLast | llm_api/rag_qa_prompt.py:100-101 | as written, a missing hit appends the last passage of the corpus |
| RagPrompt.ShortCorpusRepeatsLast | llm_api/rag_qa_prompt.py:96-102 | a two-passage corpus searched for three answers `[1, 0, -1]`, and gives the second passage again for the missing hit as written, and drops it as intended |
| RagPrompt.SelectContexts | llm_api/rag_qa_prompt.py:328-329 | a top distance above 1.2 replaces the passages by one empty passage, and otherwise they are kept |
| RagPrompt.Recent | llm_api/rag_qa_prompt.py:182-187 | every kept chat was created strictly after the cutoff |
| RagPrompt.RecentMembers | llm_api/rag_qa_prompt.py:184-187 | a chat is kept exactly when it is the user's and was created after the cutoff |
| RagPrompt.LoadRecentConversation | llm_api/rag_qa_prompt.py:176-199 | the history is the entries of the chats of the last 24 hours, sorted by creation instant |
| RagPrompt.Conversation | llm_api/rag_qa_prompt.py:193-197 | the loop produces the entries of the chats, in their order |
| RagPrompt.RecentSorted | llm_api/rag_qa_prompt.py:184-190 | the chats of the history are oldest first and are exactly the recent ones, each as often as in the log |
| RagPrompt.ConversationEntries | llm_api/rag_qa_prompt.py:194-197 | one user entry per chat, with the chats' questions in order, and assistant entries only for non-empty answers |
| RagPrompt.ConversationLength | llm_api/rag_qa_prompt.py:194-197 | the history has one entry per chat plus one per answered chat |
| RagPrompt.FlowQuestionsAreLastFive | llm_api/rag_qa_prompt.py:220-226 | the classifier prompt lists the user's last five questions at most, oldest first |
| RagPrompt.BlankQueryRejected | llm_api/rag_qa_prompt.py:203-204 | a query of white space alone is rejected whatever the classifier says |
| RagPrompt.KeywordQueryAccepted | llm_api/rag_qa_prompt.py:207-208 | a non-blank query containing an allowed keyword, spaces ignored, is accepted without asking the classifier |
| RagPrompt.KeywordWithoutSpacesAccepted | llm_api/rag_qa_prompt.py:207-208 | a keyword with its spaces taken out is found wherever spaces fall in the rest of the query |
| RagPrompt.ClassifierDecides | llm_api/rag_qa_prompt.py:210-250 | otherwise the query passes exactly when the classifier's reply, stripped and upper-cased, is `Y` or the call raised |
| RagPrompt.ClassifierReplies | llm_api/rag_qa_prompt.py:245-250 | a lower-case `y` in white space is an acceptance, and so is a failed call |
| RagPrompt.MessageHistoryShape | llm_api/rag_qa_prompt.py:259-281 | the messages are the system prompt, the last ten history entries with their roles, and the final user message |
| RagPrompt.ContextLines | llm_api/rag_qa_prompt.py:254 | passages without line breaks read back one per line, each cut to at most 403 characters |
| RagPrompt.FinalContentCarries | llm_api/rag_qa_prompt.py:267-281 | the final user message contains the question and the passages |
| RagPrompt.HandleQuery | llm_api/rag_qa_prompt.py:297-332 | the system counts as initialised exactly when the model and index are loaded and the passages are not empty, and otherwise the request is an error; an invalid query gets the off-topic reply, where the gate sees no conversation when its own load fails; a failing pet lookup raises, a pet that is not the user's gets the not-found reply, and then a failing health-record lookup or second conversation load raises; otherwise the answer is the stripped reply of the model to the conversation followed by the profile, the question and the passages of a near enough search, or the service-error reply when the call raises |
| RagPrompt.FarSearchIgnored | llm_api/rag_qa_prompt.py:328-332 | with a top distance above the threshold the answer does not depend on the search, for passage lists that are both empty or both not |
| RagPrompt.KeywordSkipsGateLoad | llm_api/rag_qa_prompt.py:203-257 | a query with an allowed keyword is accepted before the gate loads the conversation, so a failure of that load changes nothing, while a failure of the load at line 257 makes the request raise |
| S3Service.FirstDateRun | service/s3_service.py:18 | the position found is the leftmost at or after the start where `_`, eight digits and `_` occur, and none means there is no such position |
| S3Service.ExtractDate | service/s3_service.py:17-22 | the date is the eight digits of the leftmost `_dddddddd_` in the name, or today's date when the name has none |
| S3Service.StreamNameDate | service/s3_service.py:17-20 | a name made of a serial number without `_`, `_`, eight digits and `_` gets those digits as its date, whatever follows |
| S3Service.ContentType | service/s3_service.py:25-33 | each content type is chosen exactly for its extension, `.mp4`, `.jpg` or `.zip` in that order, and octet-stream for the rest |
| S3Service.PresignedUpload | service/s3_service.py:36-70 | an unknown serial number and a name not starting with it are refused in that order; otherwise the key is `folder/sn/date/filename` with the extracted date, and an SDK failure is an error |
| S3Service.Normalize | service/s3_service.py:104-108 | a text is accepted exactly when it starts with the separated form or with the compact digits; the compact form is returned as given and anything else is the format error |
| S3Service.NormalizeGrouped | service/s3_service.py:104-106 | the separated form becomes its digits followed by the rest without separators, so an accepted text always starts with the compact digits |
| S3Service.NormalizeDateForms | service/s3_service.py:104-108 | `YYYY-MM-DD` and `YYYYMMDD` both give the eight digits, and normalising twice changes nothing |
| S3Service.NormalizeTimeForms | service/s3_service.py:111-115 | `HH:MM:SS` and `HHMMSS` both give the six digits, and normalising twice changes nothing |
| S3Service.VideoPresignedUrl | service/s3_service.py:73-155 | unknown device, foreign owner, bad date and bad time are refused in that order; a reply exists exactly when the object `stream/sn/date/sn_date_time.mp4` exists and can be presigned, and it names that file and key, with the object's size, modification time and content type; a missing object is `FileNotFoundError`, and a failing existence check or presigner is the SDK's error |
| S3Service.UploadedVideoIsDownloadable | service/s3_service.py:50-52 | a recording uploaded to `stream` under its own name lands at the key the download looks up, with the video content type |
| S3Service.TimeOf | service/s3_service.py:226-227 | a time is captured exactly when the name ends in `_`, eight digits, `_`, six digits and `.mp4`, and it is those six digits |
| S3Service.VideoNameReadsBack | service/s3_service.py:118-119 | a recording's own name yields its time, is the last segment of its key, and the key lies under the day's listing prefix |
| S3Service.VideoObjects | service/s3_service.py:208-214 | only `.mp4` objects of the listing are kept, in listing order |
| S3Service.Entries | service/s3_service.py:207-238 | the entries before sorting, or the SDK failure; every entry's time is missing or six digits |
| S3Service.EntriesOfVideos | service/s3_service.py:208-238 | every `.mp4` object and nothing else gets an entry, in order, unless one of them cannot be presigned |
| S3Service.EntriesErrPersists | service/s3_service.py:216-223 | a presigning failure part-way through is the failure of the whole listing |
| S3Service.CollectEntries | service/s3_service.py:207-238 | the loop over the listing computes exactly the entries |
| S3Service.SortVideos | service/s3_service.py:241 | the intended sort is a permutation of the entries |
| S3Service.SortVideosOrder | service/s3_service.py:241 | the sorted entries are ordered by time with untimed entries first, and for every sort key (the untimed entries' one and each six-digit time) the entries with that key keep their listing order |
| S3Service.SortAsWritten | service/s3_service.py:241 | where the sort as written succeeds it gives the intended order |
| S3Service.SortAsWrittenFails | service/s3_service.py:241 | the sort as written fails exactly on two or more entries of which one has no time |
| S3Service.Listed | service/s3_service.py:178-238 | unknown device, foreign owner and bad date are refused in that order, then the listing of the day's prefix is collected |
| S3Service.ListVideosAsWritten | service/s3_service.py:158-245 | the checks' and the listing's failures pass through unchanged |
| S3Service.ListVideos | service/s3_service.py:158-245 | failures pass through, and a success is a permutation of the collected entries |
| S3Service.ListVideosByDate | service/s3_service.py:158-245 | the request computes the listing with untimed videos first; wherever the code as written succeeds it gives the same listing, and every error it reports is the error of the code as written |
| S3Service.ListVideosContents | service/s3_service.py:194-242 | a successful listing has one entry per `.mp4` object of the day's folder, each built from such an object, ordered by time with untimed entries first |
| S3Service.UntimedVideoBreaksListing | service/s3_service.py:227-241 | with two videos of which one has no time, the written code fails with an unorderable comparison and the intended one lists the untimed video first |
| Scheduler.TimeRange | util/scheduler.py:20-35 | the range ends at the Korean reading floored to the minute and starts a minute earlier; there is none exactly when that start would precede 0001-01-01 |
| Scheduler.RangeIsPreviousMinute | util/scheduler.py:30-31 | the range is the whole minute just before the reading's minute, both ends on whole minutes |
| Scheduler.WrapHour | util/scheduler.py:53-55 | the hour after `h` wraps below `h` exactly after 23, and is `h + 1` otherwise |
| Scheduler.NextMinuteBoundary | util/scheduler.py:47-56 | the boundary is representable, and is missing exactly at 23:59 of the last representable day |
| Scheduler.NextMinuteBoundaryIsNextMinute | util/scheduler.py:47-56 | the boundary is a whole minute exactly one minute after the reading's minute began |
| Scheduler.BoundaryCases | util/scheduler.py:48-56 | after 23:59 the boundary is the next day's midnight, and otherwise the same day's next minute |
| Scheduler.BoundaryMonotone | util/scheduler.py:47-56 | a later reading never wakes the loop earlier, and readings within one minute share the boundary |
| Scheduler.NextMidnight | util/scheduler.py:99-102 | the wake-up is a midnight: the reading's own day when it reads 00:00:00, and otherwise the next day; none past the last representable day |
| Scheduler.TaskKwargs | util/scheduler.py:73-77 | the scheduled job gets the caller's arguments with `start_time` and `end_time` set to the range, and no other argument changed |
| Scheduler.MinuteIteration | util/scheduler.py:43-87 | an iteration exists exactly when the boundary can be computed |
| Scheduler.MinuteStep | util/scheduler.py:44-87 | one pass of the loop body computes the iteration of its readings |
| Scheduler.RunEveryMinute | util/scheduler.py:38-87 | each tick is the iteration of its readings, and the loop stops early only where the boundary cannot be computed |
| Scheduler.MinuteCall | util/scheduler.py:65-87 | the scheduled job is called exactly when the range could be computed, with the caller's arguments and the range, and completes exactly when called and not raising |
| Scheduler.MinuteWait | util/scheduler.py:58-62 | the loop sleeps until the next whole minute: strictly after the reading and at most a minute later, across hour and day rollovers |
| Scheduler.RangeOverridesCaller | util/scheduler.py:73-77 | the caller's own `start_time` is replaced by the scheduler's |
| Scheduler.DailyIteration | util/scheduler.py:95-123 | an iteration exists exactly when the next midnight can be computed; it wakes at that midnight and completes exactly when the scheduled job does not raise |
| Scheduler.DailyStep | util/scheduler.py:96-123 | one pass of the midnight loop body computes the iteration of its reading |
| Scheduler.RunDailyAtMidnight | util/scheduler.py:90-123 | each tick is the iteration of its reading, and the loop stops early only where the next midnight cannot be computed |
| Scheduler.MidnightWait | util/scheduler.py:99-108 | the loop wakes at 00:00:00: today's for a reading of 00:00:00, with a wait of zero or less, negative when the reading has microseconds, and otherwise tomorrow's, within a day |
| Scheduler.FailureIsolated | util/scheduler.py:65-123 | a task that raises changes nothing but the outcome, and does not stop either loop |
| UserAuth.ExtractToken | app/crud/user.py:8-15 | a header fails exactly when it does not start with `Bearer `, always with the one invalid-header error; otherwise the token is the text between the first and second space |
| UserAuth.ExtractTokenRoundTrip | app/crud/user.py:13 | a token without spaces comes back out of `Bearer ` plus the token, with or without more text after a space |
| UserAuth.PaddedLength | app/crud/user.py:28 | padding keeps the segment, adds fewer than four `=` and makes the length a multiple of four, and adds nothing to a segment already of that length |
| UserAuth.IsValidJwtFormat | app/crud/user.py:17-35 | the loop accepts exactly the tokens of three segments each of which decodes once padded |
| UserAuth.UrlToStd | app/crud/user.py:30 | the URL-safe translation maps `-` to `+` and `_` to `/` and keeps every other character |
| UserAuth.UrlSegmentDecodes | app/crud/user.py:26-32 | a URL-safe segment of whole groups of four decodes after translation |
| UserAuth.UrlSafeAccepts | app/crud/user.py:17-35 | the corrected check accepts every three-segment token in the URL-safe alphabet whose segments need no padding |
| UserAuth.ChecksAgreeWithoutUrlCharacters | app/crud/user.py:17-35 | on a token without `-` and `_` the check as written and the corrected one agree |
| UserAuth.UrlSegmentRejected | app/crud/user.py:30 | a well-formed three-segment token whose segment holds `-` or `_` is rejected as written |
| UserAuth.ExampleToken | app/crud/user.py:26-32 | the token `ab-c.abcd.abcd` is rejected as written and accepted by the corrected check |
| UserAuth.SegmentsJudged | app/crud/user.py:26-32 | a URL-safe token whose first segment loses characters outside the standard alphabet is rejected as written and accepted by the corrected check |
| UserAuth.ExampleTokenSegments | app/crud/user.py:21 | the example token splits into its three segments |
| UserAuth.CreateProfile | app/crud/user.py:44-89 | every error rolls back and only errors do; a bad header and a badly shaped token are refused with their own errors; a created user carries the verified token's non-empty UID, which was not registered |
| UserAuth.RejectedBeforeVerification | app/crud/user.py:47-51 | a header or token that fails the checks is refused whatever the verifier, the user table or the insert would do |
| Sorting.SortByKey | util/active_create.py:100 | sorting by key returns a permutation of the input |
| Sorting.SortByKeySorted | util/active_create.py:100 | the sorted sequence is in ascending key order |
| Sorting.SortByKeyStable | util/active_create.py:100 | elements with equal keys keep their input order |
| Sorting.SortedEnds | util/active_create.py:100 | the first and last sorted elements are input elements with the least and greatest key |
| Sorting.SortDistinctStrict | util/active_create.py:100 | with pairwise distinct keys the sorted order is strict |
| Swagger.AugmentedOperations | util/swagger_util.py:54-88 | paths and methods keep their names and order, `OPTIONS` in any case is untouched, and every other operation keeps its requirements and gets the mode's requirements appended |
| Swagger.OptionsInAnyCase | util/swagger_util.py:57 | `OPTIONS`, `Options` and `options` are all skipped |
| Swagger.AugmentedSchemes | util/swagger_util.py:34-52 | the components and schemes are created when missing, the mode's schemes are set, other schemes and sections are kept |
| Swagger.SchemesByMode | util/swagger_util.py:32-78 | test mode registers `X-Firebase-UID` and `BearerAuth`, production only `BearerAuth` |
| Swagger.App.CustomOpenapi | util/swagger_util.py:14-91 | a cached document is returned unchanged; otherwise the generated one is augmented for the current mode, cached and returned |
| Swagger.ServeTwice | util/swagger_util.py:15-16 | a second request gets the very document the first one got, whatever is generated or the mode then |
| Config.TestModeSpellings | util/config_util.py:5-7 | test mode is on exactly when `TEST_MODE` is set to `true` in any mix of cases |
| Config.UnsetMeansProduction | util/config_util.py:7 | an unset `TEST_MODE` means production mode |
| Config.SetThenRead | util/config_util.py:7-11 | writing `str(b)` and reading the mode back gives `b` |
| Config.Environment.IsTestMode | util/config_util.py:5-7 | test mode on implies that the variable is set |
| Config.Environment.SetupTestMode | util/config_util.py:9-11 | only `TEST_MODE` changes, and the mode then reads back as the value set |
| Text.StripEmptyIffAllSpace | llm_api/rag_qa_prompt.py:203 | a text strips to nothing exactly when every character of it is white space |

## Left out

- Image mathematics: percentiles, the 2-D histogram, the Gaussian filter, matplotlib and cv2. These are floating-point work in foreign libraries. Whether drawing succeeds is a boolean parameter.
- Euclidean distance (`np.linalg.norm`): it is a parameter function that only has to be non-negative.
- `round(x, 2)` of activities and averages: values are exact reals, and rounding is not modelled.
- PetActive.SheddingScore: `round(val, 2)` is taken on the exact decimal value, halves to even (`Cents`). Python rounds the binary float, so a score written as exactly halfway, such as 0.335, can round the other way there; the bands 0.33 and 0.67 are compared on exact values too.
- Databases:
  - Sessions, commits and SQL text are not modelled. Tables are sequences of records, and queries are functions over them.
  - A database error is a boolean or index-valued fault parameter in the members that catch it and in those whose escaping error the model states: the activity jobs, the dashboard, state and heatmap services, the heatmap job (`HeatmapCron.JobEnv`, whose `queryFails` covers the connection opened by the query) and the chat (`RagPrompt.ReadFaults`, one flag per read of the request). The repositories' plain lookups and updates do not model the database raising; there the error leaves the request unhandled.
  - Table creation (`ensure_active_reports_table_exists`) is not modelled.
- Time:
  - Clock readings are parameters: `datetime.now`, `get_kst_now`, `utcnow`.
  - Time zones are not modelled, since every instant is a naive wall-clock reading.
  - Asynchronous sleeping is not modelled: each scheduler iteration is one step, over one reading per iteration.
- `strptime` leniency: stamps are read only in their canonical fixed-width forms (`%Y%m%d_%H%M%S` and `%Y%m%d`). Shorter fields that Python would also accept are rejected.
- Base64 decoding: `base64.b64decode` is a predicate parameter. The lemmas assume one thing about it: on ASCII text without `=`, it succeeds exactly when the characters of the standard alphabet make whole groups of four. This is how it discards other characters.
- JSON: `json.loads` is modelled for every JSON value, with Python's strict strings and its `NaN` and `Infinity` extensions; numbers keep their text. `json.dumps` is modelled for the lists of strings the columns hold, with its default escaping.
- Lone surrogates: a `\u` escape of a lone surrogate, which Python accepts as a character of its own, is rejected, since a Dafny character cannot be a surrogate.
- The object store (boto3):
  - Presigning, existence checks, listings and uploads are parameters. Their failures are raised when the parameter says so.
  - Temporary files and their cleanup are an effect that is only recorded.
- Retrieval and language models:
  - Embedding, the FAISS index and OpenAI calls are parameters, and so is the classifier's reply.
  - An index search is given by its indices and top distance.
  - `format_pet_context` and the profile lookups are not modelled: the model takes the profile text, or `None`.
  - The wording of the classifier prompt is not modelled.
- RagPrompt.HandleQuery: it uses the corrected `Retrieved`, which drops missing hits. The code as written is `RagPrompt.RetrievedAsWritten`; see Findings.
- UserAuth.CreateProfile: it uses the URL-safe shape check `JwtShapedUrlSafe`. The check as written is `UserAuth.JwtShaped`; see Findings.
- Firebase token verification is a parameter, and so is the DB lookup of an existing user. FastAPI routing, dependency injection and Pydantic schemas are not part of this model.
- PetActive.RecentActivities: when no day of the week has a positive average, the code builds sample data from Python's randomised `hash()`. The model records that this fallback is taken (`SampleData`) but not its values.
- PetActive.GetPetActive: the reply's key `recentDatOfActivity` is kept under the source's spelling. Its list is the corrected, newest-first `RecentActivities`. The code as written sorts the `MM.DD` labels as text (`PetActive.RecentActivitiesAsWritten`); that list holds the same entries (`PetActive.AsWrittenSortedByLabel`) in another order at a year boundary; see Findings.
- S3Service.ListVideosByDate: a successful listing sorts untimed videos first (`SortVideos`), where the code as written raises `TypeError` for a day folder with an untimed video among others; the two agree on every other input and on every error; see Findings.
- Database ordering: `ORDER BY ... DESC` is performed by PostgreSQL, and the model reads each table in the query's order instead of sorting it. The lemmas that state what that order gives take it as a hypothesis: `ListedNewestFirst`/`NewestFirst` for the time-stamp order and `ByActive` for the `active` order. Time stamps are compared by code point (the database's collation is not modelled), and a missing time stamp sorts first, as PostgreSQL places NULL first in descending order.
- PetState.RecentResults: the five records read are the first five of the device in the table's order; `PetState.RecentAreNewest` states that they are the newest over a table in the query's order.
- PetState.GetPetState: the verdict is taken over `RecentResults`, so it rests on the same reading of the table in the query's order.
- HeatmapGenerator.FetchYoloData: without a date, the thousand records read are the first of the device in the table's order; `HeatmapGenerator.FetchedAreNewest` states that they are the newest over a table in the query's order.
- PetActive.HighlightRows: the ten records read are the first matching ones in the table's order; `PetActive.HighlightRowsMostActive` states that they are the most active over a table in descending `active` order.
- Year 9999: Python's `date` and `datetime` end at 9999-12-31, and adding a day or an interval past it raises `OverflowError`. The model's calendar has no upper year. The scheduler and the dashboard bound their dates at year 9999 themselves; the activity jobs do not, as the lines below say.
- Civil.NextDay: the day after 9999-12-31 is 10000-01-01, where Python raises.
- ActivityLive.IntervalStarts: for a range that reaches the last minute of 9999-12-31, `current_interval + timedelta(minutes=interval_minutes)` raises in the code, with the default of one minute that `process_current_interval` leaves in place; the model's starts go on into year 10000.
- ActivityLive.CalculateActivity: in that range the code raises where the model computes rows into year 10000.
- ActivityLive.ProcessCurrentInterval: in that range the code catches the error and returns false; the model saves the rows and returns true.
- ActivityBatch.CalculateBatchActivity: for a reading in the last five minutes of 9999-12-31, the batch job's `interval_start + timedelta(minutes=5)` raises in the code; the model does not compute the interval's end and gives that bucket its row.
- ActivityBatch.ProcessBatchInterval: with such a reading the code catches the error and returns false; the model saves the rows and returns true.
- Swagger.App.CustomOpenapi: a cached document is any cached value. The code re-builds an empty cached dictionary, which is falsy in Python, and this is not modelled.
- DeviceRepository: `setattr` of a name that is not a column only sets a transient attribute, which is not modelled. The lookups by Firebase UID and `get_all` are plain queries and are not modelled.
- Logging, `print` output and the command-line parsing of the cron scripts are not modelled, apart from their date and mode choice.
- Detector records: `yolo_result` is taken to be well-typed. It has no JSON `null` values, and it holds numbers wherever numbers are read. A field that is `None` in `Detection` is a key the object does not have. The code treats a `null` differently in places that the model does not follow:
  - a `null` `conf` makes `kp.get("conf", 0) <= 0.3` raise TypeError. The state service (service/pet_state_service.py:99) catches it and answers not hiding, where the model reads the missing value as 0, so the keypoint counts as low-confidence;
  - in the offline scanner (crontab/hiding_detector.py:54), `kp["conf"] <= 0.3` raises TypeError where the model raises KeyError.
- Text: `lower` and `upper` are modelled on the ASCII letters only. `strip` removes exactly the characters of Python's `str.isspace` (`Text.IsSpace`): ASCII white space, `\x1c`–`\x1f`, `\x85`, `\xa0` and the Unicode space and line separators.
- Number parsing: `int()` and `str.isdigit()` are modelled on ASCII digits only. `int()` also accepts a sign, surrounding white space and other Unicode decimal digits, and `isdigit()` and the `\d` of a regular expression accept other Unicode digits; texts that pass only through this leniency are rejected by the model.
- HidingScan.RunScan: the offline scanner is modelled as written, with its dead back-propagation branch, because its log is only printed. The intended step is modelled beside it; see Findings.

## Findings

| source | as written | input that shows it | evidently intended | confidence | as-written member | corrected member |
|---|---|---|---|---|---|---|
| crontab/hiding_detector.py:49-74 | `prev_info["no_box"]` is overwritten with `False` at line 49, before the check at line 69 reads it, so the branch that also logs the preceding box-less frame never runs | a box-less frame at stamp A followed by a boxed frame at stamp B with six low-confidence keypoints: only B is logged | when a hidden boxed frame follows an unlogged box-less frame, both are logged | not executed | HidingScan.IsolatedBoxless | HidingScan.IntendedBackPropagates |
| service/pet_active_service.py:430 | the last seven days are sorted by their `MM.DD` label as text, descending | query date 2025-01-02: the list starts with `12.31`, two days back, ahead of `01.02` and `01.01` | newest day first | not executed | PetActive.YearBoundaryOrder | PetActive.RecentNewestFirst |
| service/s3_service.py:241 | the sort key `x.get("time", "")` is `None` for a video whose name has no time, because the key is present, and comparing `None` with a string raises | a day folder holding `sn_20250101_120000.mp4` and `clip.mp4` | untimed videos sorted first, as the `""` default suggests | not executed | S3Service.UntimedVideoBreaksListing | S3Service.SortVideosOrder |
| app/crud/user.py:30 | JWT segments are decoded with the standard base64 alphabet, which drops the URL-safe `-` and `_` before the padding check | the token `ab-c.abcd.abcd`, three segments of whole four-character groups | a base64url check (section 5 of RFC 4648), as section 7.1 of RFC 7515 prescribes | not executed | UserAuth.ExampleToken | UserAuth.UrlSafeAccepts |
| llm_api/rag_qa_prompt.py:100-101 | the guard `idx < len(metadata)` lets the index's missing-hit marker `-1` through, and Python's negative indexing then selects the last passage | a corpus of two passages searched for the top three: a flat index answers `[1, 0, -1]`, and the code returns the second passage, the first, and the second again | missing hits dropped | not executed | RagPrompt.ShortCorpusRepeatsLast | RagPrompt.RetrievedSkipsMissing |
