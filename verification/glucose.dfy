/** One glucose reading as the shared store hands it over, with the validity
    rule and the trend lookup that the host reads from it. Timestamps are
    integer milliseconds since the Unix epoch. */
module Glucose {
  import opened Optional

  /** Lowest and highest plausible concentration, in mg/dL, both accepted. */
  const MinGlucose: int := 40
  const MaxGlucose: int := 500

  datatype BloodGlucose = BloodGlucose(
    sgv: Option<int>,
    trend: int,
    date: int,
    filtered: Option<real>,
    noise: Option<int>)

  /** The host's trend direction, identified by its integer raw value. */
  datatype GlucoseTrend = GlucoseTrend(rawValue: int)

  /** The concentration the host sees: the stored value, or 0 when absent. */
  function GlucoseValue(bg: BloodGlucose): (g: int)
    ensures bg.sgv.Some? ==> g == bg.sgv.value
    ensures bg.sgv.None? ==> g == 0
  {
    match bg.sgv
    case Some(v) => v
    case None => 0
  }

  /** The reading lies within the plausible range, inclusive at both ends. */
  predicate IsStateValid(bg: BloodGlucose) {
    MinGlucose <= GlucoseValue(bg) <= MaxGlucose
  }

  /** When the reading was taken; the reading's own date, never adjusted. */
  function StartDate(bg: BloodGlucose): (d: int)
    ensures d == bg.date
  {
    bg.date
  }

  /** The trend direction whose raw value is the reading's trend code, if the
      host defines one; `rawValues` is the set of codes the host defines. */
  function TrendType(bg: BloodGlucose, rawValues: set<int>): (t: Option<GlucoseTrend>)
    ensures t.Some? <==> bg.trend in rawValues
    ensures t.Some? ==> t.value.rawValue == bg.trend
  {
    if bg.trend in rawValues then Some(GlucoseTrend(bg.trend)) else None
  }

  /** Validity is exactly the inclusive range check on the stored value, and
      both bounds are themselves valid. */
  lemma ValidityBounds(bg: BloodGlucose)
    ensures IsStateValid(bg) <==> bg.sgv.Some? && MinGlucose <= bg.sgv.value <= MaxGlucose
    ensures bg.sgv == Some(MinGlucose) ==> IsStateValid(bg)
    ensures bg.sgv == Some(MaxGlucose) ==> IsStateValid(bg)
    ensures bg.sgv == Some(MinGlucose - 1) ==> !IsStateValid(bg)
    ensures bg.sgv == Some(MaxGlucose + 1) ==> !IsStateValid(bg)
  {
  }

  /** A reading without a value, or with a negative one, is never valid. */
  lemma AbsentOrNegativeInvalid(bg: BloodGlucose)
    requires bg.sgv.None? || bg.sgv.value < 0
    ensures !IsStateValid(bg)
  {
  }

  /** Validity and trend depend on nothing but the value and the trend code. */
  lemma ClassificationIgnoresOtherFields(a: BloodGlucose, b: BloodGlucose, rawValues: set<int>)
    requires a.sgv == b.sgv && a.trend == b.trend
    ensures IsStateValid(a) == IsStateValid(b)
    ensures TrendType(a, rawValues) == TrendType(b, rawValues)
  {
  }
}
