/** Order-preserving filtering and mapping of sequences, the model of Swift's
    `Array.filter` and `Array.map`. */
module Seqs {

  /** The elements of `s` that satisfy `p`, in their original order. */
  function Filter<T>(s: seq<T>, p: T -> bool): (r: seq<T>)
    ensures |r| <= |s|
    ensures forall i :: 0 <= i < |r| ==> p(r[i])
    ensures forall i :: 0 <= i < |r| ==> r[i] in s
    ensures forall i :: 0 <= i < |s| && p(s[i]) ==> s[i] in r
  {
    if |s| == 0 then []
    else if p(s[0]) then [s[0]] + Filter(s[1..], p)
    else Filter(s[1..], p)
  }

  /** `f` applied to every element of `s`, in order. */
  function Map<T, U>(s: seq<T>, f: T -> U): (r: seq<U>)
    ensures |r| == |s|
    ensures forall i :: 0 <= i < |s| ==> r[i] == f(s[i])
  {
    seq(|s|, i requires 0 <= i < |s| => f(s[i]))
  }

  /** Filtering distributes over concatenation, which is what keeping the
      input order means. */
  lemma {:induction false} FilterAppend<T>(a: seq<T>, b: seq<T>, p: T -> bool)
    ensures Filter(a + b, p) == Filter(a, p) + Filter(b, p)
  {
    if |a| == 0 {
      assert a + b == b;
    } else {
      assert (a + b)[1..] == a[1..] + b;
      FilterAppend(a[1..], b, p);
    }
  }

  /** A filter keeps the whole sequence exactly when every element passes. */
  lemma {:induction false} FilterKeepsAll<T>(s: seq<T>, p: T -> bool)
    ensures Filter(s, p) == s <==> forall i :: 0 <= i < |s| ==> p(s[i])
  {
    if |s| > 0 {
      FilterKeepsAll(s[1..], p);
      if !p(s[0]) {
        assert |Filter(s, p)| < |s|;
      }
    }
  }

  /** A filter leaves nothing exactly when no element passes. */
  lemma {:induction false} FilterEmpty<T>(s: seq<T>, p: T -> bool)
    ensures Filter(s, p) == [] <==> forall i :: 0 <= i < |s| ==> !p(s[i])
  {
    if |s| > 0 {
      FilterEmpty(s[1..], p);
      if p(s[0]) {
        assert Filter(s, p)[0] == s[0];
      } else {
        assert forall i :: 1 <= i < |s| ==> s[i] == s[1..][i - 1];
      }
    }
  }

  /** When the first element passes, it heads the filtered sequence. */
  lemma FilterHead<T>(s: seq<T>, p: T -> bool)
    requires |s| > 0 && p(s[0])
    ensures |Filter(s, p)| > 0 && Filter(s, p)[0] == s[0]
  {
  }
}
