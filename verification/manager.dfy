/** The polling controller: a state machine over the in-flight flag and the
    last delivered reading (the cursor). A request either is refused at once
    or starts a fetch; the fetch's completion clears the flag, moves the
    cursor and reports to the host. The clock is the explicit parameter
    `now`, in milliseconds. */
module Manager {
  import opened Optional
  import opened Seqs
  import opened Decimal
  import opened Glucose
  import opened Client

  /** How many records one fetch reads from the slot. */
  const FetchBatchSize: nat := 60
  /** A cursor younger than this (half a minute) suppresses fetching. */
  const MinFetchIntervalMs: int := 30000
  /** A cursor younger than this (four and a half minutes) means a live session. */
  const SessionLifetimeMs: int := 270000
  /** The key of the persisted sync flag. */
  const ShouldSyncKey: string := "GlucoseDirectClient.shouldSync"

  datatype ManagerState = ManagerState(
    isFetching: bool,
    latestBackfill: Option<BloodGlucose>,
    shouldSyncToRemoteService: bool)

  /** What the controller learns from its host at completion time: the
      earliest date to accept on a first run, the date-range filter (kept
      abstract: `keep(cutoff, date)`), and the raw values of the trend
      directions the host defines. */
  datatype Host = Host(
    startDateToFilterNewData: Option<int>,
    keep: (Option<int>, int) -> bool,
    trendRawValues: set<int>)

  /** A reading in the shape the host stores. */
  datatype GlucoseSample = GlucoseSample(
    date: int,
    quantity: int,
    trend: Option<GlucoseTrend>,
    syncIdentifier: string)

  /** The one answer each request gets. */
  datatype ReadingResult = NoData | NewData(samples: seq<GlucoseSample>) | Error(error: ClientError)

  /** Whether a request was answered at once or started a fetch. */
  datatype Decision = Refused | Started

  datatype Step = Step(state: ManagerState, decision: Decision)

  datatype Completion = Completion(state: ManagerState, result: ReadingResult)

  /** A freshly constructed controller: idle, no cursor, not syncing. */
  function Init(): (m: ManagerState)
    ensures !m.isFetching && m.latestBackfill.None? && !m.shouldSyncToRemoteService
  {
    ManagerState(false, None, false)
  }

  /** The cursor reading is less than half a minute old (or from the future). */
  predicate IsDebounced(m: ManagerState, now: int) {
    m.latestBackfill.Some? && now - StartDate(m.latestBackfill.value) < MinFetchIntervalMs
  }

  /** A request to fetch new data, from the host or from the timer. A refused
      request is answered `NoData` and changes nothing; a started one only
      raises the in-flight flag. */
  function Request(m: ManagerState, now: int): (s: Step)
    ensures s.decision.Refused? <==> m.isFetching || IsDebounced(m, now)
    ensures s.decision.Refused? ==> s.state == m
    ensures s.decision.Started? ==> s.state == m.(isFetching := true)
  {
    if m.isFetching || IsDebounced(m, now) then Step(m, Refused)
    else Step(m.(isFetching := true), Started)
  }

  /** Swift's `Int(seconds)` of a date: whole seconds, truncated toward zero. */
  function WholeSeconds(ms: int): (s: int)
    ensures 0 <= ms ==> 0 <= s * 1000 <= ms < s * 1000 + 1000
    ensures ms < 0 ==> s * 1000 - 1000 < ms <= s * 1000 <= 0
  {
    if ms >= 0 then ms / 1000 else -((-ms) / 1000)
  }

  /** The host sample built from a reading. */
  function ToSample(bg: BloodGlucose, trendRawValues: set<int>): (s: GlucoseSample)
    ensures s.date == StartDate(bg) && s.quantity == GlucoseValue(bg)
    ensures s.trend == TrendType(bg, trendRawValues)
    ensures IsCanonicalDecimal(s.syncIdentifier)
    ensures ParseInteger(s.syncIdentifier) == Some(WholeSeconds(bg.date))
  {
    IntToDecimalRoundTrip(WholeSeconds(StartDate(bg)));
    GlucoseSample(StartDate(bg), GlucoseValue(bg), TrendType(bg, trendRawValues),
      IntToDecimal(WholeSeconds(StartDate(bg))))
  }

  /** The earliest date of interest: the cursor's, or else the host's choice. */
  function Cutoff(m: ManagerState, host: Host): (c: Option<int>)
    ensures m.latestBackfill.Some? ==> c == Some(m.latestBackfill.value.date)
    ensures m.latestBackfill.None? ==> c == host.startDateToFilterNewData
  {
    match m.latestBackfill
    case Some(bg) => Some(StartDate(bg))
    case None => host.startDateToFilterNewData
  }

  /** The date-range filter, applied to one reading. */
  function InRange(host: Host, cutoff: Option<int>): BloodGlucose -> bool {
    (bg: BloodGlucose) => host.keep(cutoff, bg.date)
  }

  lemma InRangeApplies(host: Host, cutoff: Option<int>, bg: BloodGlucose)
    ensures InRange(host, cutoff)(bg) == host.keep(cutoff, bg.date)
  {
  }

  /** The readings of a batch that pass the date-range filter, in order. */
  function NewReadings(batch: seq<BloodGlucose>, host: Host, cutoff: Option<int>): seq<BloodGlucose> {
    Filter(batch, InRange(host, cutoff))
  }

  function First(s: seq<BloodGlucose>): Option<BloodGlucose> {
    if |s| == 0 then None else Some(s[0])
  }

  /** The samples delivered for a batch: valid readings in range, as samples. */
  function SamplesOf(batch: seq<BloodGlucose>, host: Host, cutoff: Option<int>): seq<GlucoseSample> {
    Map(Filter(NewReadings(batch, host, cutoff), IsStateValid), bg => ToSample(bg, host.trendRawValues))
  }

  /** The cursor is the first reading of the batch that the date-range filter keeps. */
  ghost predicate IsFirstInRange(batch: seq<BloodGlucose>, host: Host, cutoff: Option<int>, cursor: Option<BloodGlucose>) {
    match cursor
    case None => forall i :: 0 <= i < |batch| ==> !host.keep(cutoff, batch[i].date)
    case Some(bg) =>
      exists k :: (0 <= k < |batch| && batch[k] == bg && host.keep(cutoff, bg.date)
        && forall j :: 0 <= j < k ==> !host.keep(cutoff, batch[j].date))
  }

  /** The completion of a started fetch with the client's outcome. */
  function Complete(m: ManagerState, fetched: Fetched, host: Host): (c: Completion)
    requires !fetched.Trapped?
    ensures !c.state.isFetching
    ensures c.state.shouldSyncToRemoteService == m.shouldSyncToRemoteService
    ensures c.result.Error? <==> fetched.Failed?
    ensures fetched.Failed? ==> c.result.error == fetched.error
    ensures fetched.Failed? || fetched.readings == [] ==> c.state.latestBackfill == m.latestBackfill
    ensures fetched.Readings? && fetched.readings == [] ==> c.result.NoData?
    ensures fetched.Readings? && fetched.readings != [] ==>
      IsFirstInRange(fetched.readings, host, Cutoff(m, host), c.state.latestBackfill)
    ensures fetched.Readings? && fetched.readings != [] ==>
      (c.result.NoData? <==> SamplesOf(fetched.readings, host, Cutoff(m, host)) == [])
    ensures c.result.NewData? ==> c.result.samples == SamplesOf(fetched.readings, host, Cutoff(m, host))
    ensures c.result.NewData? ==> |c.result.samples| > 0
  {
    match fetched
    case Failed(e) => Completion(m.(isFetching := false), Error(e))
    case Readings(batch) =>
      if |batch| == 0 then Completion(m.(isFetching := false), NoData)
      else
        var cutoff := Cutoff(m, host);
        var newer := NewReadings(batch, host, cutoff);
        var samples := SamplesOf(batch, host, cutoff);
        FirstInRange(batch, host, cutoff);
        Completion(
          m.(isFetching := false, latestBackfill := First(newer)),
          if |samples| == 0 then NoData else NewData(samples))
  }

  lemma {:induction false} FirstInRange(batch: seq<BloodGlucose>, host: Host, cutoff: Option<int>)
    ensures IsFirstInRange(batch, host, cutoff, First(NewReadings(batch, host, cutoff)))
  {
    var p := InRange(host, cutoff);
    if |batch| > 0 {
      InRangeApplies(host, cutoff, batch[0]);
      FirstInRange(batch[1..], host, cutoff);
      if p(batch[0]) {
        FilterHead(batch, p);
        assert host.keep(cutoff, batch[0].date);
      } else {
        assert !host.keep(cutoff, batch[0].date);
        assert NewReadings(batch, host, cutoff) == NewReadings(batch[1..], host, cutoff);
        match First(NewReadings(batch, host, cutoff))
        case None =>
          assert forall i :: 1 <= i < |batch| ==> batch[i] == batch[1..][i - 1];
        case Some(bg) =>
          var k :| 0 <= k < |batch[1..]| && batch[1..][k] == bg && host.keep(cutoff, bg.date)
            && forall j :: 0 <= j < k ==> !host.keep(cutoff, batch[1..][j].date);
          assert batch[k + 1] == bg;
          assert forall j :: 1 <= j < k + 1 ==> batch[j] == batch[1..][j - 1];
      }
    }
  }

  /** `s` is the sample of a valid reading of the batch that the date-range
      filter keeps. */
  ghost predicate IsSampleOfNewValid(s: GlucoseSample, batch: seq<BloodGlucose>, host: Host, cutoff: Option<int>) {
    exists bg :: (bg in batch && host.keep(cutoff, bg.date) && IsStateValid(bg)
      && s == ToSample(bg, host.trendRawValues))
  }

  /** The delivered samples are exactly the samples of the valid readings the
      date-range filter keeps: nothing else, and none of those left out. */
  lemma SamplesAreNewValidReadings(batch: seq<BloodGlucose>, host: Host, cutoff: Option<int>)
    ensures forall i :: 0 <= i < |SamplesOf(batch, host, cutoff)| ==>
      IsSampleOfNewValid(SamplesOf(batch, host, cutoff)[i], batch, host, cutoff)
    ensures forall bg :: bg in batch && host.keep(cutoff, bg.date) && IsStateValid(bg) ==>
      ToSample(bg, host.trendRawValues) in SamplesOf(batch, host, cutoff)
  {
    var newer := NewReadings(batch, host, cutoff);
    var valid := Filter(newer, IsStateValid);
    var samples := SamplesOf(batch, host, cutoff);
    forall i | 0 <= i < |samples|
      ensures IsSampleOfNewValid(samples[i], batch, host, cutoff)
    {
      assert valid[i] in newer;
      var k :| 0 <= k < |newer| && newer[k] == valid[i];
      InRangeApplies(host, cutoff, newer[k]);
      var bg := valid[i];
      assert bg in batch && host.keep(cutoff, bg.date) && IsStateValid(bg);
      assert samples[i] == ToSample(bg, host.trendRawValues);
    }
    forall bg | bg in batch && host.keep(cutoff, bg.date) && IsStateValid(bg)
      ensures ToSample(bg, host.trendRawValues) in samples
    {
      var k :| 0 <= k < |batch| && batch[k] == bg;
      InRangeApplies(host, cutoff, bg);
      assert bg in newer;
      var j :| 0 <= j < |newer| && newer[j] == bg;
      assert bg in valid;
      var v :| 0 <= v < |valid| && valid[v] == bg;
      assert samples[v] == ToSample(bg, host.trendRawValues);
    }
  }

  /** The whole cycle when the timer or the host asks: a request, and if it
      starts a fetch, the fetch of the slot and its completion. */
  function Poll(m: ManagerState, now: int, slot: Option<Payload>, host: Host): (c: Completion)
    requires !m.isFetching && !IsDebounced(m, now) ==> !FetchLast(FetchBatchSize, slot).Trapped?
    ensures c.state.isFetching == m.isFetching
    ensures m.isFetching || IsDebounced(m, now) ==> c == Completion(m, NoData)
    ensures !m.isFetching && !IsDebounced(m, now) ==>
      c == Complete(m.(isFetching := true), FetchLast(FetchBatchSize, slot), host)
  {
    var step := Request(m, now);
    if step.decision.Refused? then Completion(m, NoData)
    else Complete(step.state, FetchLast(FetchBatchSize, slot), host)
  }

  /** The timer's completion handler: the delegate hears of a result exactly
      when it is new data, and hears that result. */
  function TimerNotification(result: ReadingResult): (notified: Option<ReadingResult>)
    ensures notified.Some? <==> result.NewData?
    ensures notified.Some? ==> notified.value == result
  {
    if result.NewData? then Some(result) else None
  }

  /** One timer tick: the same poll as a host request, plus the notification. */
  function TimerTick(m: ManagerState, now: int, slot: Option<Payload>, host: Host): (r: (Completion, Option<ReadingResult>))
    requires !m.isFetching && !IsDebounced(m, now) ==> !FetchLast(FetchBatchSize, slot).Trapped?
    ensures r.0 == Poll(m, now, slot, host)
    ensures r.1.Some? <==> r.0.result.NewData?
    ensures r.1.Some? ==> r.1.value == r.0.result
  {
    var c := Poll(m, now, slot, host);
    (c, TimerNotification(c.result))
  }

  /** The host's session status: the cursor reading is less than four and a
      half minutes old. */
  predicate HasValidSensorSession(m: ManagerState, now: int) {
    m.latestBackfill.Some? && now - StartDate(m.latestBackfill.value) < SessionLifetimeMs
  }

  /** The session status at its boundary: live up to, and not at, 4.5 minutes. */
  lemma SessionBoundary(m: ManagerState, now: int)
    requires m.latestBackfill.Some?
    ensures m.latestBackfill.value.date == now - SessionLifetimeMs ==> !HasValidSensorSession(m, now)
    ensures m.latestBackfill.value.date == now - SessionLifetimeMs + 1 ==> HasValidSensorSession(m, now)
    ensures HasValidSensorSession(m, now) <==> now - m.latestBackfill.value.date < 270000
  {
  }

  /** A request made while a fetch is in flight is refused and starts no read,
      so no two fetches ever overlap. */
  lemma NoOverlappingFetches(m: ManagerState, now: int, slot: Option<Payload>, host: Host)
    requires m.isFetching
    ensures Request(m, now) == Step(m, Refused)
    ensures Poll(m, now, slot, host) == Completion(m, NoData)
  {
  }

  /** The cursor only ever holds a valid reading: the client's batches are
      validity-filtered and the cursor is taken from them. */
  ghost predicate CursorValid(m: ManagerState) {
    m.latestBackfill.Some? ==> IsStateValid(m.latestBackfill.value)
  }

  lemma PollKeepsCursorValid(m: ManagerState, now: int, slot: Option<Payload>, host: Host)
    requires CursorValid(m)
    requires !m.isFetching && !IsDebounced(m, now) ==> !FetchLast(FetchBatchSize, slot).Trapped?
    ensures CursorValid(Poll(m, now, slot, host).state)
  {
    var fetched := FetchLast(FetchBatchSize, slot);
    if !m.isFetching && !IsDebounced(m, now) && fetched.Readings? && |fetched.readings| > 0 {
      var c := Poll(m, now, slot, host);
      var m1 := m.(isFetching := true);
      if c.state.latestBackfill.Some? {
        assert IsFirstInRange(fetched.readings, host, Cutoff(m1, host), c.state.latestBackfill);
      }
    }
  }

  /** For a fetched batch (the client's batches are all valid), reporting no
      data and losing the cursor go together: the cursor is cleared exactly
      when no sample is delivered. */
  lemma {:induction false} NoDataIffCursorCleared(m: ManagerState, batch: seq<BloodGlucose>, host: Host)
    requires batch != []
    requires forall i :: 0 <= i < |batch| ==> IsStateValid(batch[i])
    ensures Complete(m, Readings(batch), host).result.NoData? <==>
      Complete(m, Readings(batch), host).state.latestBackfill.None?
  {
    var newer := NewReadings(batch, host, Cutoff(m, host));
    assert forall i :: 0 <= i < |newer| ==> IsStateValid(newer[i]);
    FilterKeepsAll(newer, IsStateValid);
  }

  /** A fetch whose batch holds nothing new clears the cursor, so the session
      status turns false and the next fetch is not debounced. */
  lemma QuietFetchClearsCursor(m: ManagerState, batch: seq<BloodGlucose>, host: Host)
    requires batch != []
    requires forall i :: 0 <= i < |batch| ==> !host.keep(Cutoff(m, host), batch[i].date)
    ensures Complete(m, Readings(batch), host).state.latestBackfill.None?
    ensures Complete(m, Readings(batch), host).result.NoData?
    ensures forall now :: !HasValidSensorSession(Complete(m, Readings(batch), host).state, now)
    ensures forall now :: !IsDebounced(Complete(m, Readings(batch), host).state, now)
  {
    FilterEmpty(batch, InRange(host, Cutoff(m, host)));
  }

  /** When the date-range filter keeps nothing dated before the cutoff (the
      inclusive and the strict reading alike), a poll never moves an existing
      cursor back in time. */
  lemma CursorNeverMovesBack(m: ManagerState, now: int, slot: Option<Payload>, host: Host)
    requires forall c: int, d: int :: host.keep(Some(c), d) ==> d >= c
    requires m.latestBackfill.Some?
    requires !m.isFetching && !IsDebounced(m, now) ==> !FetchLast(FetchBatchSize, slot).Trapped?
    ensures Poll(m, now, slot, host).state.latestBackfill.Some? ==>
      Poll(m, now, slot, host).state.latestBackfill.value.date >= m.latestBackfill.value.date
  {
    var fetched := FetchLast(FetchBatchSize, slot);
    var c := Poll(m, now, slot, host);
    if !m.isFetching && !IsDebounced(m, now) && fetched.Readings? && |fetched.readings| > 0 {
      var m1 := m.(isFetching := true);
      assert Cutoff(m1, host) == Some(m.latestBackfill.value.date);
      if c.state.latestBackfill.Some? {
        assert IsFirstInRange(fetched.readings, host, Cutoff(m1, host), c.state.latestBackfill);
        assert host.keep(Some(m.latestBackfill.value.date), c.state.latestBackfill.value.date);
      }
    }
  }

  /** When the date-range filter is strict (it keeps only dates after the
      cutoff), a poll that changes an existing cursor moves it strictly
      forward in time. */
  lemma CursorAdvances(m: ManagerState, now: int, slot: Option<Payload>, host: Host)
    requires forall c: int, d: int :: host.keep(Some(c), d) ==> d > c
    requires m.latestBackfill.Some?
    requires !m.isFetching && !IsDebounced(m, now) ==> !FetchLast(FetchBatchSize, slot).Trapped?
    ensures (Poll(m, now, slot, host).state.latestBackfill.Some? &&
      Poll(m, now, slot, host).state.latestBackfill != m.latestBackfill) ==>
      Poll(m, now, slot, host).state.latestBackfill.value.date > m.latestBackfill.value.date
  {
    var fetched := FetchLast(FetchBatchSize, slot);
    var c := Poll(m, now, slot, host);
    if !m.isFetching && !IsDebounced(m, now) && fetched.Readings? && |fetched.readings| > 0 {
      var m1 := m.(isFetching := true);
      assert Cutoff(m1, host) == Some(m.latestBackfill.value.date);
      if c.state.latestBackfill.Some? {
        assert IsFirstInRange(fetched.readings, host, Cutoff(m1, host), c.state.latestBackfill);
        assert host.keep(Some(m.latestBackfill.value.date), c.state.latestBackfill.value.date);
      }
    }
  }

  /** After a delivery, the controller refuses to fetch again until the new
      cursor reading is half a minute old. */
  lemma DebouncedAfterDelivery(m: ManagerState, now: int, slot: Option<Payload>, host: Host, later: int)
    requires !m.isFetching && !IsDebounced(m, now) ==> !FetchLast(FetchBatchSize, slot).Trapped?
    requires Poll(m, now, slot, host).state.latestBackfill.Some?
    requires later - Poll(m, now, slot, host).state.latestBackfill.value.date < MinFetchIntervalMs
    ensures Request(Poll(m, now, slot, host).state, later).decision.Refused?
  {
  }

  /** The sync identifier names the reading's whole second: two samples share
      one exactly when their readings fall in the same second. */
  lemma SyncIdentifierNamesSecond(a: BloodGlucose, b: BloodGlucose, trendRawValues: set<int>)
    ensures ToSample(a, trendRawValues).syncIdentifier == ToSample(b, trendRawValues).syncIdentifier
      <==> WholeSeconds(a.date) == WholeSeconds(b.date)
  {
    if ToSample(a, trendRawValues).syncIdentifier == ToSample(b, trendRawValues).syncIdentifier {
      IntToDecimalInjective(WholeSeconds(a.date), WholeSeconds(b.date));
    }
  }

  /** The persisted state: only the sync flag. */
  datatype RawValue = BoolValue(b: bool) | OtherRawValue

  function RawState(m: ManagerState): (raw: map<string, RawValue>)
    ensures raw.Keys == {ShouldSyncKey}
  {
    map[ShouldSyncKey := BoolValue(m.shouldSyncToRemoteService)]
  }

  /** Restoring from persisted state: a newer controller whose sync flag is
      the stored boolean, or false when the key is missing or not a boolean. */
  function InitFromRawState(raw: map<string, RawValue>): (m: ManagerState)
    ensures !m.isFetching && m.latestBackfill.None?
    ensures m.shouldSyncToRemoteService <==> ShouldSyncKey in raw && raw[ShouldSyncKey] == BoolValue(true)
  {
    var sync := if ShouldSyncKey in raw && raw[ShouldSyncKey].BoolValue? then raw[ShouldSyncKey].b else false;
    Init().(shouldSyncToRemoteService := sync)
  }

  /** Persisting and restoring keeps the sync flag and nothing else. */
  lemma RawStateRoundTrip(m: ManagerState)
    ensures InitFromRawState(RawState(m)) == Init().(shouldSyncToRemoteService := m.shouldSyncToRemoteService)
  {
  }
}
