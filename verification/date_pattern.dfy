/** The `DT` date text of a shared record, `"/Date(<millis>)/"`, read the way
    the client reads it: the first match of the regular expression `\((.*)\)`,
    whose group is then read as a number of milliseconds.

    In that expression `.` matches any character except a line terminator, and
    `*` is greedy: a match starts at the leftmost `(` that has a `)` later on
    the same line, and the group runs to the last such `)`. */
module DatePattern {
  import opened Optional
  import opened Decimal

  /** The characters that end a line for the regular expression engine. */
  predicate IsLineTerminator(c: char) {
    c == '\n' || c == '\r' || c == '\U{B}' || c == '\U{C}'
    || c == '\U{85}' || c == '\U{2028}' || c == '\U{2029}'
  }

  /** `\((.*)\)` matches `s[p..q + 1]`: a `(` at `p`, a `)` at `q`, and no
      line terminator in between. */
  predicate GroupAt(s: string, p: int, q: int) {
    0 <= p < q < |s| && s[p] == '(' && s[q] == ')'
    && forall k :: p < k < q ==> !IsLineTerminator(s[k])
  }

  /** The match the engine reports first: leftmost start, then longest. */
  ghost predicate IsFirstMatch(s: string, p: int, q: int) {
    && GroupAt(s, p, q)
    && (forall p', q' :: 0 <= p' < p ==> !GroupAt(s, p', q'))
    && (forall q' :: q < q' ==> !GroupAt(s, p, q'))
  }

  /** The first line terminator at or after `from`, or the end of `s`. */
  function LineEnd(s: string, from: nat): (e: nat)
    requires from <= |s|
    ensures from <= e <= |s|
    ensures forall k :: from <= k < e ==> !IsLineTerminator(s[k])
    ensures e < |s| ==> IsLineTerminator(s[e])
    decreases |s| - from
  {
    if from == |s| || IsLineTerminator(s[from]) then from else LineEnd(s, from + 1)
  }

  /** The last `)` in `s[lo..hi]`, if there is one. */
  function LastClose(s: string, lo: nat, hi: nat): (r: Option<nat>)
    requires lo <= hi <= |s|
    ensures r.None? ==> forall k :: lo <= k < hi ==> s[k] != ')'
    ensures r.Some? ==> lo <= r.value < hi && s[r.value] == ')'
    ensures r.Some? ==> forall k :: r.value < k < hi ==> s[k] != ')'
    decreases hi - lo
  {
    if hi == lo then None
    else if s[hi - 1] == ')' then Some(hi - 1)
    else LastClose(s, lo, hi - 1)
  }

  /** The longest match starting at `p`, if any starts there. */
  function MatchAt(s: string, p: nat): (r: Option<nat>)
    requires p < |s|
    ensures r.None? ==> forall q :: !GroupAt(s, p, q)
    ensures r.Some? ==> GroupAt(s, p, r.value)
    ensures r.Some? ==> forall q :: r.value < q ==> !GroupAt(s, p, q)
  {
    if s[p] != '(' then None
    else
      var hi := LineEnd(s, p + 1);
      // A `)` matched from `p` lies before the end of its line.
      assert forall q :: GroupAt(s, p, q) ==> q < hi;
      LastClose(s, p + 1, hi)
  }

  /** Scans start positions from `from` on, as the engine does. */
  function FindFrom(s: string, from: nat): (r: Option<(nat, nat)>)
    requires from <= |s|
    ensures r.None? ==> forall p, q :: from <= p ==> !GroupAt(s, p, q)
    ensures r.Some? ==> from <= r.value.0 && GroupAt(s, r.value.0, r.value.1)
    ensures r.Some? ==> forall p, q :: from <= p < r.value.0 ==> !GroupAt(s, p, q)
    ensures r.Some? ==> forall q :: r.value.1 < q ==> !GroupAt(s, r.value.0, q)
    decreases |s| - from
  {
    if from == |s| then None
    else match MatchAt(s, from)
      case Some(q) => Some((from, q))
      case None => FindFrom(s, from + 1)
  }

  /** The text of the capture group of the first match, or `None` when the
      expression matches nowhere. */
  function CaptureGroup(s: string): (r: Option<string>)
    ensures r.None? <==> forall p, q :: !GroupAt(s, p, q)
    ensures r.Some? ==> exists p, q :: IsFirstMatch(s, p, q) && r.value == s[p + 1..q]
  {
    match FindFrom(s, 0)
    case None => None
    case Some((p, q)) =>
      assert IsFirstMatch(s, p, q);
      Some(s[p + 1..q])
  }

  /** How a `DT` text reads: an epoch in milliseconds, no match at all, or a
      group whose text is not an integer. */
  datatype DateParse = Epoch(millis: int) | NoMatch | Unparsable(text: string)

  /** The client's date reader. */
  function ParseDate(wt: string): (r: DateParse)
    ensures r.NoMatch? <==> forall p, q :: !GroupAt(wt, p, q)
    ensures r.Epoch? ==> exists p, q :: IsFirstMatch(wt, p, q) && ParseInteger(wt[p + 1..q]) == Some(r.millis)
    ensures r.Unparsable? ==> exists p, q :: IsFirstMatch(wt, p, q) && r.text == wt[p + 1..q] && !IsIntegerText(r.text)
  {
    match CaptureGroup(wt)
    case None => NoMatch
    case Some(text) =>
      match ParseInteger(text)
      case Some(ms) => Epoch(ms)
      case None => Unparsable(text)
  }

  /** There is only one first match. */
  lemma FirstMatchUnique(s: string, p: int, q: int, p': int, q': int)
    requires IsFirstMatch(s, p, q) && IsFirstMatch(s, p', q')
    ensures p == p' && q == q'
  {
  }

  /** On a text of one line, a match exists exactly when some `(` comes
      before some `)`. */
  lemma SingleLineMatch(s: string)
    requires forall k :: 0 <= k < |s| ==> !IsLineTerminator(s[k])
    ensures ParseDate(s).NoMatch? <==> !exists p, q :: 0 <= p < q < |s| && s[p] == '(' && s[q] == ')'
  {
    if exists p, q :: 0 <= p < q < |s| && s[p] == '(' && s[q] == ')' {
      var p, q :| 0 <= p < q < |s| && s[p] == '(' && s[q] == ')';
      assert GroupAt(s, p, q);
    }
  }

  /** The wire format's own example reads as its milliseconds. */
  lemma ParseDateExample()
    ensures ParseDate("/Date(1462404576000)/") == Epoch(1462404576000)
  {
    var s := "/Date(1462404576000)/";
    ExampleFirstMatch();
    var p, q :| IsFirstMatch(s, p, q) && CaptureGroup(s).value == s[p + 1..q];
    FirstMatchUnique(s, p, q, 5, 19);
    assert s[6..19] == "1462404576000";
    ExampleDigits();
    IntToDecimalRoundTrip(1462404576000);
  }

  lemma ExampleFirstMatch()
    ensures IsFirstMatch("/Date(1462404576000)/", 5, 19)
  {
    var s := "/Date(1462404576000)/";
    assert forall k :: 0 <= k < 5 ==> s[k] != '(';
    assert GroupAt(s, 5, 19);
  }

  /** Swift prints the example's milliseconds as the example's digits. */
  lemma ExampleDigits()
    ensures IntToDecimal(1462404576000) == "1462404576000"
  {
    assert NatToDecimal(1) == "1";
    assert NatToDecimal(14) == "14";
    assert NatToDecimal(146) == "146";
    assert NatToDecimal(1462) == "1462";
    assert NatToDecimal(14624) == "14624";
    assert NatToDecimal(146240) == "146240";
    assert NatToDecimal(1462404) == "1462404";
    assert NatToDecimal(14624045) == "14624045";
    assert NatToDecimal(146240457) == "146240457";
    assert NatToDecimal(1462404576) == "1462404576";
    assert NatToDecimal(14624045760) == "14624045760";
    assert NatToDecimal(146240457600) == "146240457600";
    assert NatToDecimal(1462404576000) == "1462404576000";
  }

  /** A text without brackets never matches. */
  lemma ParseDateGarbage()
    ensures ParseDate("garbage") == NoMatch
  {
  }
}
