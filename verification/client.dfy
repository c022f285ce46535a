/** The reader of the shared hand-off slot. The slot's bytes are taken as
    already decoded: absent, something other than an array, or an array of
    loosely typed field maps. */
module Client {
  import opened Optional
  import opened Seqs
  import opened Decimal
  import opened Glucose
  import opened DatePattern

  /** The producer tag of records this client accepts. */
  const ProducerTag: string := "GlucoseDirect"

  /** The reasons carried by the two kinds of data error. */
  const ArrayReason: string := "Failed to decode SGVs as array from recieved data."
  const RecordReason: string := "Failed to decode an SGV record."

  /** One decoded JSON value, as far as the reader distinguishes them. */
  datatype Field = IntField(i: int) | StringField(s: string) | OtherField

  /** One element of the shared array. An element that is not an object reads
      like an empty map: every field lookup on it finds nothing. */
  type Record = map<string, Field>

  /** The decoded contents of the shared slot. */
  datatype Payload = ArrayPayload(items: seq<Record>) | OtherPayload

  datatype ClientError = FetchError | DataError(reason: string) | DateError

  /** What the reader does with one record: skip it, accept its reading,
      abort the batch with an error, or trap on an unreadable date. */
  datatype Verdict = Skip | Accept(reading: BloodGlucose) | Abort(error: ClientError) | Trap

  /** The outcome of reading a batch. `Trapped` stands for the process stopping
      on a date group that is not an integer. */
  datatype Fetched = Readings(readings: seq<BloodGlucose>) | Failed(error: ClientError) | Trapped

  /** The record names a producer other than this client's. A `from` that is
      not a string does not make a record foreign. */
  predicate IsForeign(rec: Record) {
    "from" in rec && rec["from"].StringField? && rec["from"].s != ProducerTag
  }

  predicate HasInt(rec: Record, key: string) {
    key in rec && rec[key].IntField?
  }

  predicate HasString(rec: Record, key: string) {
    key in rec && rec[key].StringField?
  }

  /** The record has every field a reading is built from, with the right type. */
  predicate IsWellShaped(rec: Record) {
    HasInt(rec, "Value") && HasInt(rec, "Trend") && HasString(rec, "DT")
  }

  /** The reader's treatment of one record. */
  function Inspect(rec: Record): (v: Verdict)
    ensures v.Skip? <==> IsForeign(rec)
    ensures !IsForeign(rec) && !IsWellShaped(rec) ==> v == Abort(DataError(RecordReason))
    ensures v.Accept? ==> (IsWellShaped(rec)
      && v.reading == BloodGlucose(Some(rec["Value"].i), rec["Trend"].i, v.reading.date, None, None)
      && ParseDate(rec["DT"].s) == Epoch(v.reading.date))
    ensures v == Abort(DateError) <==> !IsForeign(rec) && IsWellShaped(rec) && ParseDate(rec["DT"].s).NoMatch?
    ensures v.Trap? <==> !IsForeign(rec) && IsWellShaped(rec) && ParseDate(rec["DT"].s).Unparsable?
    ensures !IsForeign(rec) && IsWellShaped(rec) && ParseDate(rec["DT"].s).Epoch? ==>
      v == Accept(BloodGlucose(Some(rec["Value"].i), rec["Trend"].i, ParseDate(rec["DT"].s).millis, None, None))
  {
    if IsForeign(rec) then Skip
    else if !IsWellShaped(rec) then Abort(DataError(RecordReason))
    else
      match ParseDate(rec["DT"].s)
      case Epoch(ms) => Accept(BloodGlucose(Some(rec["Value"].i), rec["Trend"].i, ms, None, None))
      case NoMatch => Abort(DateError)
      case Unparsable(_) => Trap
  }

  /** The record lets the reader go on to the next one. */
  predicate Passes(v: Verdict) {
    v.Skip? || v.Accept?
  }

  /** The batch outcome of a record that stops the reader. */
  function StopOutcome(v: Verdict): (r: Fetched)
    requires !Passes(v)
  {
    if v.Trap? then Trapped else Failed(v.error)
  }

  /** Reads records in order, stopping at the first one that aborts or traps. */
  function ReadBatch(recs: seq<Record>): (r: Fetched)
    ensures r.Readings? ==> |r.readings| <= |recs|
    ensures r.Readings? ==> forall i :: 0 <= i < |r.readings| ==>
      r.readings[i].sgv.Some? && r.readings[i].filtered.None? && r.readings[i].noise.None?
    ensures r.Failed? ==> r.error == DateError || r.error == DataError(RecordReason)
  {
    if |recs| == 0 then Readings([])
    else
      match Inspect(recs[0])
      case Skip => ReadBatch(recs[1..])
      case Accept(bg) =>
        (match ReadBatch(recs[1..])
         case Readings(rest) => Readings([bg] + rest)
         case stop => stop)
      case Abort(e) => Failed(e)
      case Trap => Trapped
  }

  /** Reference definition: the readings of the accepted records, in order. */
  function Accepted(recs: seq<Record>): seq<BloodGlucose> {
    if |recs| == 0 then []
    else if Inspect(recs[0]).Accept? then [Inspect(recs[0]).reading] + Accepted(recs[1..])
    else Accepted(recs[1..])
  }

  /** Every record before index `k` lets the reader go on. */
  ghost predicate PassesBefore(recs: seq<Record>, k: int) {
    forall i :: 0 <= i < k && i < |recs| ==> Passes(Inspect(recs[i]))
  }

  /** The reader succeeds exactly when no record stops it, and then delivers
      the accepted readings in input order. */
  lemma {:induction false} ReadBatchSucceeds(recs: seq<Record>)
    ensures ReadBatch(recs).Readings? <==> PassesBefore(recs, |recs|)
    ensures ReadBatch(recs).Readings? ==> ReadBatch(recs).readings == Accepted(recs)
  {
    if |recs| > 0 {
      ReadBatchSucceeds(recs[1..]);
      assert forall i :: 1 <= i < |recs| ==> recs[i] == recs[1..][i - 1];
      if PassesBefore(recs[1..], |recs| - 1) && Passes(Inspect(recs[0])) {
        assert PassesBefore(recs, |recs|);
      }
    }
  }

  /** The first record that stops the reader decides the batch's failure. */
  lemma {:induction false} ReadBatchFirstStop(recs: seq<Record>, k: nat)
    requires k < |recs| && PassesBefore(recs, k) && !Passes(Inspect(recs[k]))
    ensures ReadBatch(recs) == StopOutcome(Inspect(recs[k]))
  {
    if k > 0 {
      assert Passes(Inspect(recs[0]));
      assert forall i :: 0 <= i < k - 1 ==> recs[1..][i] == recs[i + 1];
      ReadBatchFirstStop(recs[1..], k - 1);
    }
  }

  /** Accepting keeps input order: it distributes over concatenation. */
  lemma {:induction false} AcceptedAppend(a: seq<Record>, b: seq<Record>)
    ensures Accepted(a + b) == Accepted(a) + Accepted(b)
  {
    if |a| == 0 {
      assert a + b == b;
    } else {
      assert (a + b)[1..] == a[1..] + b;
      AcceptedAppend(a[1..], b);
    }
  }

  /** A foreign record is skipped whatever else it holds: taking it out of a
      batch, anywhere, changes nothing. */
  lemma {:induction false} ForeignRecordIgnored(a: seq<Record>, f: Record, b: seq<Record>)
    requires IsForeign(f)
    ensures ReadBatch(a + [f] + b) == ReadBatch(a + b)
  {
    if |a| == 0 {
      assert a + [f] + b == [f] + b;
      assert ([f] + b)[1..] == b;
      assert a + b == b;
    } else {
      assert (a + [f] + b)[0] == a[0];
      assert (a + [f] + b)[1..] == a[1..] + [f] + b;
      assert (a + b)[0] == a[0];
      assert (a + b)[1..] == a[1..] + b;
      ForeignRecordIgnored(a[1..], f, b);
    }
  }

  /** The first `n` records of the array, or all of them if there are fewer. */
  function Prefix(items: seq<Record>, n: nat): (p: seq<Record>)
    ensures |p| <= n && p <= items
    ensures |items| >= n ==> |p| == n
    ensures |items| <= n ==> p == items
  {
    if |items| <= n then items else items[..n]
  }

  /** The client's read of at most `n` records from the slot. */
  function FetchLastBGs(n: nat, slot: Option<Payload>): (r: Fetched)
    ensures slot.None? ==> r == Failed(FetchError)
    ensures slot == Some(OtherPayload) ==> r == Failed(DataError(ArrayReason))
    ensures r.Readings? ==> |r.readings| <= n
    ensures r.Failed? && r.error == FetchError ==> slot.None?
  {
    match slot
    case None => Failed(FetchError)
    case Some(OtherPayload) => Failed(DataError(ArrayReason))
    case Some(ArrayPayload(items)) => ReadBatch(Prefix(items, n))
  }

  /** Records beyond the first `n` are never looked at, whatever they hold. */
  lemma OnlyFirstRecordsRead(n: nat, items: seq<Record>, more: seq<Record>)
    requires |items| >= n
    ensures FetchLastBGs(n, Some(ArrayPayload(items + more))) == FetchLastBGs(n, Some(ArrayPayload(items)))
  {
    if |items + more| <= n {
      assert more == [] && items + more == items;
    } else {
      assert (items + more)[..n] == items[..n];
    }
  }

  /** Skipped foreign records still use up the limit: `n` foreign records in
      front yield no readings, whatever follows them. */
  lemma {:induction false} ForeignRecordsCountTowardLimit(n: nat, items: seq<Record>)
    requires |items| >= n
    requires forall i :: 0 <= i < n ==> IsForeign(items[i])
    ensures FetchLastBGs(n, Some(ArrayPayload(items))) == Readings([])
  {
    var p := Prefix(items, n);
    assert forall i :: 0 <= i < |p| ==> Passes(Inspect(p[i]));
    ReadBatchSucceeds(p);
    AllForeignAcceptNothing(p);
  }

  lemma {:induction false} AllForeignAcceptNothing(recs: seq<Record>)
    requires forall i :: 0 <= i < |recs| ==> IsForeign(recs[i])
    ensures Accepted(recs) == []
  {
    if |recs| > 0 {
      assert forall i :: 0 <= i < |recs| - 1 ==> recs[1..][i] == recs[i + 1];
      AllForeignAcceptNothing(recs[1..]);
    }
  }

  /** The client's fetch: read at most `n` records, then keep the valid
      readings. Errors from the read pass through unchanged. */
  function FetchLast(n: nat, slot: Option<Payload>): (r: Fetched)
    ensures r.Readings? <==> FetchLastBGs(n, slot).Readings?
    ensures !r.Readings? ==> r == FetchLastBGs(n, slot)
    ensures r.Readings? ==> |r.readings| <= n
    ensures r.Readings? ==> forall i :: 0 <= i < |r.readings| ==> IsStateValid(r.readings[i])
    ensures r.Readings? ==> forall i :: 0 <= i < |FetchLastBGs(n, slot).readings| ==>
      (IsStateValid(FetchLastBGs(n, slot).readings[i]) ==> FetchLastBGs(n, slot).readings[i] in r.readings)
    ensures r.Readings? ==> forall i :: 0 <= i < |r.readings| ==> r.readings[i] in FetchLastBGs(n, slot).readings
  {
    match FetchLastBGs(n, slot)
    case Readings(bgs) => Readings(Filter(bgs, IsStateValid))
    case stop => stop
  }

  /** When no record among the first `n` stops the reader, the fetch delivers
      the valid readings of the accepted records, in input order. */
  lemma FetchLastOfPassingPrefix(n: nat, items: seq<Record>)
    requires PassesBefore(Prefix(items, n), |Prefix(items, n)|)
    ensures FetchLast(n, Some(ArrayPayload(items))) == Readings(Filter(Accepted(Prefix(items, n)), IsStateValid))
  {
    ReadBatchSucceeds(Prefix(items, n));
  }

  /** Readings of an earlier stretch of the array come before those of a later
      one: the fetch of `a + b` is the valid readings of `a`, then those of `b`. */
  lemma FetchLastKeepsArrayOrder(n: nat, a: seq<Record>, b: seq<Record>)
    requires |a| + |b| <= n
    requires PassesBefore(a + b, |a + b|)
    ensures FetchLast(n, Some(ArrayPayload(a + b))) ==
      Readings(Filter(Accepted(a), IsStateValid) + Filter(Accepted(b), IsStateValid))
  {
    FetchLastOfPassingPrefix(n, a + b);
    AcceptedAppend(a, b);
    FilterAppend(Accepted(a), Accepted(b), IsStateValid);
  }

  /** The producer's encoding of a date: `"/Date(<millis>)/"`. */
  function EncodeDate(ms: int): string {
    "/Date(" + IntToDecimal(ms) + ")/"
  }

  /** The producer's record for a reading, without a `from` tag. */
  function EncodeReading(bg: BloodGlucose): Record {
    map["Value" := IntField(GlucoseValue(bg)), "Trend" := IntField(bg.trend), "DT" := StringField(EncodeDate(bg.date))]
  }

  /** A reading as the reader builds it: a value present, no secondary fields. */
  predicate IsCanonical(bg: BloodGlucose) {
    bg.sgv.Some? && bg.filtered.None? && bg.noise.None?
  }

  /** Reading an encoded date gives back its milliseconds. */
  lemma EncodeDateRoundTrip(ms: int)
    ensures ParseDate(EncodeDate(ms)) == Epoch(ms)
  {
    var s := EncodeDate(ms);
    var digits := IntToDecimal(ms);
    var q := 6 + |digits|;
    assert s[6..q] == digits;
    assert forall k :: 6 <= k < q ==> s[k] == digits[k - 6];
    assert forall k :: 6 <= k < q ==> s[k] != '(' && s[k] != ')' && !IsLineTerminator(s[k]);
    assert GroupAt(s, 5, q);
    assert IsFirstMatch(s, 5, q);
    var p', q' :| IsFirstMatch(s, p', q') && CaptureGroup(s).value == s[p' + 1..q'];
    FirstMatchUnique(s, p', q', 5, q);
    IntToDecimalRoundTrip(ms);
  }

  /** An encoded reading is accepted as itself. */
  lemma EncodeReadingAccepted(bg: BloodGlucose)
    requires IsCanonical(bg)
    ensures Inspect(EncodeReading(bg)) == Accept(bg)
  {
    var rec := EncodeReading(bg);
    assert rec.Keys == {"Value", "Trend", "DT"};
    assert "from"[0] !in {'V', 'T', 'D'};
    assert !IsForeign(rec);
    assert IsWellShaped(rec);
    EncodeDateRoundTrip(bg.date);
    assert ParseDate(rec["DT"].s) == Epoch(bg.date);
  }

  /** Encoding readings into the slot and fetching them back yields exactly
      the valid ones among the first `n`, in their original order. */
  lemma {:induction false} FetchLastRoundTrip(n: nat, bgs: seq<BloodGlucose>)
    requires forall i :: 0 <= i < |bgs| ==> IsCanonical(bgs[i])
    ensures FetchLast(n, Some(ArrayPayload(Map(bgs, EncodeReading))))
      == Readings(Filter(if |bgs| <= n then bgs else bgs[..n], IsStateValid))
  {
    var items := Map(bgs, EncodeReading);
    var firsts := if |bgs| <= n then bgs else bgs[..n];
    assert Prefix(items, n) == Map(firsts, EncodeReading);
    EncodedBatchRoundTrip(firsts);
  }

  lemma {:induction false} EncodedBatchRoundTrip(bgs: seq<BloodGlucose>)
    requires forall i :: 0 <= i < |bgs| ==> IsCanonical(bgs[i])
    ensures ReadBatch(Map(bgs, EncodeReading)) == Readings(bgs)
  {
    var items := Map(bgs, EncodeReading);
    if |bgs| == 0 {
      assert items == [];
    } else {
      EncodeReadingAccepted(bgs[0]);
      assert Inspect(items[0]) == Accept(bgs[0]);
      var rest := Map(bgs[1..], EncodeReading);
      assert items[1..] == rest;
      EncodedBatchRoundTrip(bgs[1..]);
      assert ReadBatch(rest) == Readings(bgs[1..]);
      assert ReadBatch(items) == Readings([bgs[0]] + bgs[1..]);
      assert [bgs[0]] + bgs[1..] == bgs;
    }
  }

  /** A record in the format's own example, untagged, is read as one valid
      reading of 120 mg/dL at 1462404576000 ms. */
  lemma ExampleRecordRead()
    ensures FetchLast(60, Some(ArrayPayload([ExampleRecord("/Date(1462404576000)/")])))
      == Readings([BloodGlucose(Some(120), 1, 1462404576000, None, None)])
  {
    var bg := BloodGlucose(Some(120), 1, 1462404576000, None, None);
    var rec := ExampleRecord("/Date(1462404576000)/");
    ExampleRecordAccepted();
    assert [rec][1..] == [];
    assert ReadBatch([rec]) == Readings([bg]);
    assert FetchLastBGs(60, Some(ArrayPayload([rec]))) == Readings([bg]);
    assert IsStateValid(bg);
    assert Filter([bg], IsStateValid) == [bg];
  }

  /** The same record tagged by another producer is skipped, not an error. */
  lemma ForeignExampleSkipped()
    ensures FetchLast(60, Some(ArrayPayload([ExampleRecord("/Date(1462404576000)/")["from" := StringField("OtherApp")]])))
      == Readings([])
  {
    var rec := ExampleRecord("/Date(1462404576000)/")["from" := StringField("OtherApp")];
    assert rec["from"].s[0] != ProducerTag[0];
    assert IsForeign(rec);
    assert [rec][1..] == [];
    assert ReadBatch([rec]) == Readings([]);
    assert FetchLastBGs(60, Some(ArrayPayload([rec]))) == Readings([]);
    assert Filter([] , IsStateValid) == [];
  }

  /** The same record with a date text that has no brackets fails the batch. */
  lemma GarbageDateFails()
    ensures FetchLast(60, Some(ArrayPayload([ExampleRecord("garbage")]))) == Failed(DateError)
  {
    ParseDateGarbage();
    assert Inspect(ExampleRecord("garbage")) == Abort(DateError);
  }

  lemma ExampleRecordAccepted()
    ensures Inspect(ExampleRecord("/Date(1462404576000)/")) == Accept(BloodGlucose(Some(120), 1, 1462404576000, None, None))
  {
    var rec := ExampleRecord("/Date(1462404576000)/");
    assert rec.Keys == {"Value", "Trend", "DT"};
    assert "from"[0] !in {'V', 'T', 'D'};
    assert !IsForeign(rec) && IsWellShaped(rec);
    ParseDateExample();
  }

  function ExampleRecord(dt: string): Record {
    map["Value" := IntField(120), "Trend" := IntField(1), "DT" := StringField(dt)]
  }
}
