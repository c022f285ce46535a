# GlucoseDirectClient ingestion path, modelled in Dafny

This project models the part of GlucoseDirectClient that moves glucose readings from the
shared app-group slot `latestReadings` into the host CGM framework (LoopKit), and proves
properties of that model. The path has three pieces:

- **Reading** (`glucose.dfy`, module `Glucose`): the `BloodGlucose` value, its
  concentration (0 when absent), the validity range 40–500 mg/dL inclusive, the partial
  trend lookup and the start date.
- **Client** (`client.dfy`, `date_pattern.dfy`, `decimal.dfy`): the loosely typed record
  reader `fetchLastBGs`, the date reader `parseDate` with its regular expression
  `\((.*)\)`, and `fetchLast`, which keeps the valid readings. The slot is given as an
  already decoded value: absent, not an array, or an array of field maps whose values are
  integers, strings or anything else.
- **Manager** (`manager.dfy`): the polling controller `GlucoseDirectManager`. It is a
  state machine over the in-flight flag `isFetching` and the cursor `latestBackfill`.
  `Request` models the guards of `fetchNewDataIfNeeded`. `Complete` models the sink's
  value and completion handlers. `Poll` runs one request together with its fetch, and
  `TimerTick` adds the timer's delegate notification. The module also models session
  status and the `rawState` round trip.

Timestamps are integer milliseconds since the Unix epoch and "now" is a parameter. The
host's date-range filter (`filterDateRange`) is an abstract predicate
`keep(cutoff, date)`, so nothing is assumed about whether it is strict at the cutoff.
`startDateToFilterNewData` is a value supplied by the host. Swift `Int` values are
unbounded integers.

What the code does, in the places where it is easy to misread:

- The cursor becomes the first reading of the date-filtered batch (GlucoseDirectManager.swift:147).
  So a poll whose batch is non-empty but holds nothing the date filter keeps clears the
  cursor. An empty batch answers `.noData` earlier (lines 124-129) and keeps the cursor. The session status then
  turns false, and the next poll filters against the host's start date again
  (`Manager.QuietFetchClearsCursor`).
- A record among the first n that is not tagged by another producer and lacks `Value`,
  `Trend` or `DT`, or has one of the wrong type, aborts the whole batch with `dataError`.
  A record tagged by another producer is skipped whatever its other fields hold.
- A missing slot is an error (`fetchError`) and is reported to the host as `.error`.
- `retry(2)` sits upstream of the decoding step, and the publisher it wraps never fails,
  so a decoding failure is never retried. The model therefore has no retry step.
- `.` in `\((.*)\)` does not match line terminators. A match therefore needs a `(` and a
  later `)` on the same line. Within that line, the group runs from the leftmost such `(`
  to the last `)`. On single-line texts this is the same as "some `(` is followed by some
  `)`" (`DatePattern.SingleLineMatch`).
- The 30-second debounce compares now with the cursor reading's own date. So a second
  request right after a delivery is refused exactly when the delivered reading is less than
  30 s old (`Manager.Request`, `Manager.DebouncedAfterDelivery`).
- A refused request (in flight or debounced) answers `.noData` before the slot is read
  (GlucoseDirectManager.swift:94-107), so it succeeds whatever the slot holds, including a
  date that would trap the reader.

## Model

| member | source | states |
|---|---|---|
| Glucose.GlucoseValue | GlucoseDirectClient/BloodGlucose.swift:14-20 | the concentration is the stored value when present and 0 when absent |
| Glucose.ValidityBounds | GlucoseDirectClient/BloodGlucose.swift:33 | `IsStateValid`, the model of `isStateValid`: a reading is valid iff its value is present and within 40..500, and it is inclusive at both ends: 40 and 500 are valid, 39 and 501 are not |
| Glucose.AbsentOrNegativeInvalid | GlucoseDirectClient/BloodGlucose.swift:20-33 | a reading with no value, or with a negative one, is never valid |
| Glucose.TrendType | GlucoseDirectClient/BloodGlucose.swift:34 | the trend is present iff the code is a raw value the host defines, and its raw value is then the code; an unknown code gives absent, never an error |
| Glucose.StartDate | GlucoseDirectClient/BloodGlucose.swift:26 | the start date is exactly the stored date |
| Glucose.ClassificationIgnoresOtherFields | GlucoseDirectClient/BloodGlucose.swift:33-34 | validity and trend depend only on the value and the trend code, not on date or secondary fields |
| Decimal.ParseInteger | GlucoseDirectClient/GlucoseDirectClient.swift:84 | the model of `Double(text)` restricted to integers: the group reads as a number exactly when it is an optional sign followed by digits, and the sign decides the sign of the result; other forms `Double` accepts are not read (see Left out) |
| Decimal.LeadingZeroValue | GlucoseDirectClient/GlucoseDirectClient.swift:84 | a leading zero does not change the value of a digit string |
| Decimal.PlainDigitsValue | GlucoseDirectClient/GlucoseDirectClient.swift:84 | a digit string reads as its decimal value |
| Decimal.PlusSignValue | GlucoseDirectClient/GlucoseDirectClient.swift:84 | `+` followed by digits reads as the digits' value |
| Decimal.MinusSignValue | GlucoseDirectClient/GlucoseDirectClient.swift:84 | `-` followed by digits reads as the negated value, so `-0` reads as 0 |
| Decimal.LeadingZeroTextValue | GlucoseDirectClient/GlucoseDirectClient.swift:84 | digits with an extra leading zero read as the same value, as `01462404576000` does |
| Decimal.IntToDecimalRoundTrip | GlucoseDirectClient/GlucoseDirectManager.swift:144 | the decimal text Swift prints for an Int parses back to that Int |
| Decimal.CanonicalDigitsRoundTrip | GlucoseDirectClient/GlucoseDirectManager.swift:144 | digits without a superfluous leading zero are exactly the text printed for their value |
| Decimal.CanonicalDecimalRoundTrip | GlucoseDirectClient/GlucoseDirectManager.swift:144 | a canonical integer text parses, and printing its value gives the same text back, so a canonical text is fixed by its value |
| DatePattern.CaptureGroup | GlucoseDirectClient/GlucoseDirectClient.swift:77-83 | there is no group iff no `(` is followed by a `)` on the same line; otherwise the group is the text strictly between the leftmost matching `(` and the last `)` after it on that line |
| DatePattern.FirstMatchUnique | GlucoseDirectClient/GlucoseDirectClient.swift:78 | the leftmost-longest match is unique, so the captured text is well defined |
| DatePattern.SingleLineMatch | GlucoseDirectClient/GlucoseDirectClient.swift:77-78 | on a text without line terminators, a match exists iff some `(` precedes some `)` |
| DatePattern.ParseDate | GlucoseDirectClient/GlucoseDirectClient.swift:75-88 | no match gives the date error; an integer group gives the milliseconds `ParseInteger` reads from it (its value fixed by the `Decimal` value lemmas); any other group text is the unparsable (trapping) case |
| DatePattern.ParseDateExample | GlucoseDirectClient/GlucoseDirectClient.swift:76-85 | `"/Date(1462404576000)/"` reads as epoch 1462404576000 ms |
| DatePattern.ParseDateGarbage | GlucoseDirectClient/GlucoseDirectClient.swift:86-88 | `"garbage"` has no match |
| Client.Inspect | GlucoseDirectClient/GlucoseDirectClient.swift:51-63 | a record is skipped iff its `from` is a string other than "GlucoseDirect"; otherwise missing or mistyped fields abort with dataError, an unmatched date aborts with dateError, an unparsable date traps, and a well-shaped record whose date reads as an epoch is accepted, with sgv = Value, trend = Trend, that date, and no filtered/noise |
| Client.ReadBatch | GlucoseDirectClient/GlucoseDirectClient.swift:49-66 | a successful read has at most one reading per record, each with a value and no secondary fields; a failed read fails with dateError or the record dataError |
| Client.ReadBatchSucceeds | GlucoseDirectClient/GlucoseDirectClient.swift:49-66 | reading succeeds iff no record aborts or traps, and then yields exactly the accepted readings in input order |
| Client.ReadBatchFirstStop | GlucoseDirectClient/GlucoseDirectClient.swift:50-63 | the first record that aborts or traps decides the batch outcome, whatever follows it |
| Client.AcceptedAppend | GlucoseDirectClient/GlucoseDirectClient.swift:57-60 | accepted readings keep input order: accepting distributes over concatenation |
| Client.ForeignRecordIgnored | GlucoseDirectClient/GlucoseDirectClient.swift:51-55 | inserting a foreign record anywhere in a batch leaves the outcome unchanged, whatever its other fields hold |
| Client.Prefix | GlucoseDirectClient/GlucoseDirectClient.swift:50 | the examined records are an initial segment of the array of length at most n: exactly n when there are enough, and the whole array when there are not |
| Client.FetchLastBGs | GlucoseDirectClient/GlucoseDirectClient.swift:38-47 | a missing slot gives fetchError and only it does; a non-array payload gives the array dataError; a success has at most n readings |
| Client.OnlyFirstRecordsRead | GlucoseDirectClient/GlucoseDirectClient.swift:50 | records beyond the first n never influence the outcome |
| Client.ForeignRecordsCountTowardLimit | GlucoseDirectClient/GlucoseDirectClient.swift:50-55 | skipped foreign records use up the limit: n foreign records in front yield no readings |
| Client.FetchLast | GlucoseDirectClient/GlucoseDirectClient.swift:26-32 | errors from the read pass through unchanged; a success keeps at most n readings, all valid, every one of them a read reading, and every valid read reading |
| Client.FetchLastKeepsArrayOrder | GlucoseDirectClient/GlucoseDirectClient.swift:26-64 | readings from an earlier stretch of the array precede those from a later one: fetching `a + b` gives the valid readings of `a`, then those of `b` |
| Client.EncodeDateRoundTrip | GlucoseDirectClient/GlucoseDirectClient.swift:75-85 | the producer's `"/Date(<millis>)/"` text for any integer reads back as those milliseconds |
| Client.EncodeReadingAccepted | GlucoseDirectClient/GlucoseDirectClient.swift:57-60 | an untagged record built from a reading is accepted as that reading |
| Client.FetchLastOfPassingPrefix | GlucoseDirectClient/GlucoseDirectClient.swift:26-64 | when no record among the first n stops the reader, the fetch delivers exactly the valid readings of the accepted records, in input order |
| Client.FetchLastRoundTrip | GlucoseDirectClient/GlucoseDirectClient.swift:26-64 | encoding readings into the slot and fetching yields exactly the valid ones among the first n, in original order |
| Client.ExampleRecordRead | GlucoseDirectClient/GlucoseDirectClient.swift:57-60 | `{Value: 120, Trend: 1, DT: "/Date(1462404576000)/"}` yields one valid reading of 120 at 1462404576000 ms |
| Client.ForeignExampleSkipped | GlucoseDirectClient/GlucoseDirectClient.swift:51-55 | the same record tagged `from: "OtherApp"` yields no readings and no error |
| Client.GarbageDateFails | GlucoseDirectClient/GlucoseDirectClient.swift:86-88 | the same record with `DT: "garbage"` fails the fetch with dateError |
| Manager.Init | GlucoseDirectClient/GlucoseDirectManager.swift:18-44 | `init()` (lines 18-23) gives a controller that does not sync (line 44), with no cursor and idle (the field defaults at lines 165 and 172) |
| Manager.Request | GlucoseDirectClient/GlucoseDirectManager.swift:92-109 | a request is refused iff a fetch is in flight or the cursor reading is under 30 s old; a refusal changes nothing, and a start only sets the in-flight flag |
| Manager.NoOverlappingFetches | GlucoseDirectClient/GlucoseDirectManager.swift:94-98 | while a fetch is in flight, a request answers noData and leaves the state unchanged, whatever the slot holds |
| Manager.DebouncedAfterDelivery | GlucoseDirectClient/GlucoseDirectManager.swift:101-107 | after a poll, any request made less than 30 s after the new cursor's date is refused |
| Manager.WholeSeconds | GlucoseDirectClient/GlucoseDirectManager.swift:144 | whole seconds of a millisecond date, truncated toward zero: within one second of the date, on the zero side |
| Manager.ToSample | GlucoseDirectClient/GlucoseDirectManager.swift:143-145 | a sample carries the reading's date, concentration and trend, and its sync identifier is canonical decimal text (no plus sign, no leading zero, no "-0") that parses back to the reading's whole epoch seconds, which pins the text down |
| Manager.SyncIdentifierNamesSecond | GlucoseDirectClient/GlucoseDirectManager.swift:144 | two samples share a sync identifier iff their readings fall in the same whole second |
| Manager.Cutoff | GlucoseDirectClient/GlucoseDirectManager.swift:131-139 | the cutoff is the cursor's date when there is a cursor, otherwise the host's start date |
| Manager.Complete | GlucoseDirectClient/GlucoseDirectManager.swift:111-154 | completion always clears the in-flight flag; a failure reports that error and an empty batch reports noData, both keeping the cursor; otherwise the cursor becomes the first reading the date filter keeps (absent if none), the samples are those of the kept valid readings, and the result is noData iff there are none |
| Manager.FirstInRange | GlucoseDirectClient/GlucoseDirectManager.swift:141-147 | the first date-filtered reading is the earliest-positioned reading the filter keeps, and absent iff it keeps none |
| Manager.SamplesAreNewValidReadings | GlucoseDirectClient/GlucoseDirectManager.swift:141-145 | every delivered sample comes from a batch reading that is in range and valid, and every such reading is delivered |
| Manager.Poll | GlucoseDirectClient/GlucoseDirectManager.swift:92-157 | defined for every slot when the request is refused, and for every slot whose read does not trap otherwise; one request-and-completion cycle returns the in-flight flag to its prior value; a guarded request answers noData without change, and an unguarded one is the completion of the slot's fetch from the raised-flag state |
| Manager.PollKeepsCursorValid | GlucoseDirectClient/GlucoseDirectManager.swift:143-147 | the cursor only ever holds a valid reading |
| Manager.NoDataIffCursorCleared | GlucoseDirectClient/GlucoseDirectManager.swift:143-153 | completing a fetch with a non-empty batch of valid readings (as `FetchLast` delivers) reports noData iff it clears the cursor |
| Manager.QuietFetchClearsCursor | GlucoseDirectClient/GlucoseDirectManager.swift:147 | completing a fetch whose non-empty batch has nothing in range clears the cursor, reports noData, ends the valid session and lifts the debounce at every later time |
| Manager.CursorNeverMovesBack | GlucoseDirectClient/GlucoseDirectManager.swift:131-147 | if the date filter keeps no date before the cutoff (inclusive or strict), a poll never moves an existing cursor back in time |
| Manager.CursorAdvances | GlucoseDirectClient/GlucoseDirectManager.swift:131-147 | if the date filter keeps only dates after the cutoff, a poll that changes an existing cursor moves it strictly later |
| Manager.TimerNotification | GlucoseDirectClient/GlucoseDirectManager.swift:182-190 | the delegate is notified iff the result is newData, and it receives that result |
| Manager.TimerTick | GlucoseDirectClient/GlucoseDirectManager.swift:177-191 | a timer tick is the same poll as a host request, and notifies the delegate iff that poll's result is newData, handing over that result itself |
| Manager.SessionBoundary | GlucoseDirectClient/GlucoseDirectManager.swift:57-64 | `HasValidSensorSession`, the model of `cgmManagerStatus`: a session is valid iff the cursor reading is strictly less than 4.5 minutes old: false for a reading exactly 270000 ms old, true for a reading 269999 ms old |
| Manager.RawState | GlucoseDirectClient/GlucoseDirectManager.swift:70-72 | the persisted state has exactly the sync-flag key |
| Manager.InitFromRawState | GlucoseDirectClient/GlucoseDirectManager.swift:25-29 | restoring gives an idle controller without cursor that syncs iff the stored value under the key is the boolean true |
| Manager.RawStateRoundTrip | GlucoseDirectClient/GlucoseDirectManager.swift:25-29 | restoring from a controller's raw state gives a fresh controller with the same sync flag |

## Left out

- JSON decoding of the slot's bytes is not modelled, and neither is Foundation's bridging of
  JSON values to `Int`, `String` and `Bool`. The slot is given already decoded, and each
  field is already classified as integer, string or other. In the source a JSON `true` or
  `120.0` also reads as an `Int`. An array element that is not an object reads like an
  empty map.
- The Combine machinery is left out: `retry(2)`, `sink`, the `requestReceiver`
  cancellable, `[weak self]`, and the path where the shared defaults are nil and the
  publisher completes with no value. The dispatch queues and the 10-second timer schedule
  are left out too. Each request, completion and tick is a sequential step. While a fetch
  is in flight, `Request` alone decides the answer.
- Floating-point dates are left out. The model keeps milliseconds as integers. The source
  divides `Double(text)` by 1000 and later truncates seconds with `Int(...)`. Precision loss
  past 2^53 and the `Int` overflow trap are not modelled.
- DatePattern.ParseDate: only `[+-]?digits` group text gives an epoch. Any other text is
  `Unparsable`, and the model's `Trapped` outcome. In the source, text `Double` cannot read
  traps on the force-unwrap at GlucoseDirectClient.swift:84. Forms `Double` does read
  (`"1462404576000.0"`, `"1.462404576e12"`, `"0x10"`, `inf`, `nan`) are also modelled as
  the trap, although the source accepts such a record; `Poll` and the lemmas about it
  exclude those slots when a fetch starts.
- Decimal.ParseInteger: reads only optional-sign-and-digits text, not the fractions,
  exponents, hexadecimal forms, `inf` or `nan` that Swift's `Double(text)` also reads;
  integral ones among them would give a whole number of milliseconds in the source.
- Manager.Complete: requires an outcome that is not `Trapped`, because in that case the
  source process has stopped.
- `NSMakeRange(0, wt.count)` counts Characters, not UTF-16 units. For texts with characters
  outside the Basic Multilingual Plane, or with combining sequences, the search range is
  shorter than the string. The model searches the whole string.
- The catch-all at GlucoseDirectClient.swift:70-71 maps other errors to `fetchError`. It is
  not modelled because its do-block throws only `ClientError`s: the regular expression is a
  constant and always compiles.
- LoopKit and HealthKit pieces are abstracted. The `GlucoseTrend` raw-value table is the
  parameter `trendRawValues`. `filterDateRange` is `keep`. `HKQuantity` is an integer
  mg/dL. `WeakSynchronizedDelegate` and the delegate queue are dropped. When there is no
  delegate, the host's start date is the `None` of `startDateToFilterNewData`.
- Constant parts of `NewGlucoseSample` are not modelled: condition, trend rate,
  display-only, user-entered and device. `device` is never set in the source.
- Constant stubs are left out: alerts, sounds, `appURL`, `debugDescription`, `keychain`,
  identifiers, titles, `isOnboarded`, `providesBLEHeartbeat`, `managedDataInterval`,
  `glucoseDisplay` (it returns the cursor), `isLocal`, `trendRate`,
  `glucoseRangeCategory` and `CGMError`.
- The `client` nil guard at GlucoseDirectManager.swift:94 is not modelled, because
  `init()` always sets the client.
- The settings screen, its view controller and the CGM manager UI extension are left out.
  They are presentation code.
