/** `Matcher.find` called again and again: the matches a `while (matcher.find())` loop visits.
    A pattern is given by what the regex engine reports when it tries it at one position. */
module Scanning {
  import opened Text
  import opened Outcomes
  import opened Rewriting

  /** A match: the characters it spans and what its groups captured. */
  datatype Found<T> = Found(span: Span, data: T)

  /** The attempt at `p`, kept only when it is a non-empty match that starts at `p` inside the text
      (every pattern of the engine needs at least one character). */
  function TryAt<T>(s: String, p: nat, at: (String, nat) -> Option<Found<T>>): (r: Option<Found<T>>)
    ensures r.Some? ==> r.value.span.start == p < r.value.span.end <= |s|
    ensures r.Some? ==> r == at(s, p)
  {
    var a := at(s, p);
    if a.Some? && a.value.span.start == p < a.value.span.end <= |s| then a else None
  }

  /** `Matcher.find` from `from`: the leftmost match that starts at or after `from`. */
  function Find<T>(s: String, from: nat, at: (String, nat) -> Option<Found<T>>): (r: Option<Found<T>>)
    ensures r.Some? ==> from <= r.value.span.start && TryAt(s, r.value.span.start, at) == r
    decreases |s| - from
  {
    if from >= |s| then None
    else if TryAt(s, from, at).Some? then TryAt(s, from, at)
    else Find(s, from + 1, at)
  }

  /** `find` reports the leftmost match: no match starts between `from` and the one it reports,
      and none at all from `from` on when it reports nothing. */
  lemma {:induction false} FindLeftmost<T>(s: String, from: nat, at: (String, nat) -> Option<Found<T>>, p: nat)
    requires from <= p
    requires Find(s, from, at).None? || p < Find(s, from, at).value.span.start
    ensures TryAt(s, p, at).None?
    decreases |s| - from
  {
    if from < |s| && TryAt(s, from, at).None? && p > from {
      FindLeftmost(s, from + 1, at, p);
    }
  }

  /** The matches `find` reports from `from` on: the leftmost one, then the next from its end, and so on. */
  function FindAll<T>(s: String, from: nat, at: (String, nat) -> Option<Found<T>>): (ms: seq<Found<T>>)
    ensures forall i :: 0 <= i < |ms| ==> from <= ms[i].span.start < ms[i].span.end <= |s|
    ensures forall i :: 0 < i < |ms| ==> ms[i - 1].span.end <= ms[i].span.start
    decreases |s| - from
  {
    match Find(s, from, at)
    case None => []
    case Some(m) =>
      var rest := FindAll(s, m.span.end, at);
      assert forall i :: 0 < i < |[m] + rest| ==> ([m] + rest)[i] == rest[i - 1];
      [m] + rest
  }

  /** The matches one `while (matcher.find())` pass over the whole text visits, in order. */
  function Matches<T>(s: String, at: (String, nat) -> Option<Found<T>>): (ms: seq<Found<T>>)
    ensures Ordered(SpansOf(ms), |s|)
  {
    FindAll(s, 0, at)
  }

  function SpansOf<T>(ms: seq<Found<T>>): (spans: seq<Span>)
    ensures |spans| == |ms| && forall i :: 0 <= i < |ms| ==> spans[i] == ms[i].span
  {
    seq(|ms|, i requires 0 <= i < |ms| => ms[i].span)
  }

  /** Every reported match is what the pattern reports at its start. */
  lemma {:induction false} FindAllReported<T>(s: String, from: nat, at: (String, nat) -> Option<Found<T>>)
    ensures forall i :: 0 <= i < |FindAll(s, from, at)| ==>
      TryAt(s, FindAll(s, from, at)[i].span.start, at) == Some(FindAll(s, from, at)[i])
    decreases |s| - from
  {
    match Find(s, from, at)
    case None =>
    case Some(m) =>
      FindAllReported(s, m.span.end, at);
      var rest := FindAll(s, m.span.end, at);
      assert FindAll(s, from, at) == [m] + rest;
      assert forall i :: 0 < i < |[m] + rest| ==> ([m] + rest)[i] == rest[i - 1];
  }

  /** Nothing is skipped: every position from `from` on where the pattern matches lies inside a reported match. */
  lemma {:induction false} FindAllCover<T>(s: String, from: nat, at: (String, nat) -> Option<Found<T>>, p: nat)
    requires from <= p && TryAt(s, p, at).Some?
    ensures exists i :: (0 <= i < |FindAll(s, from, at)| &&
      FindAll(s, from, at)[i].span.start <= p < FindAll(s, from, at)[i].span.end)
    decreases |s| - from
  {
    var ms := FindAll(s, from, at);
    match Find(s, from, at)
    case None =>
      FindLeftmost(s, from, at, p);
    case Some(m) =>
      var rest := FindAll(s, m.span.end, at);
      assert ms == [m] + rest;
      if p >= m.span.end {
        FindAllCover(s, m.span.end, at, p);
        var j :| 0 <= j < |rest| && rest[j].span.start <= p < rest[j].span.end;
        assert ms[j + 1] == rest[j];
      } else if p < m.span.start {
        FindLeftmost(s, from, at, p);
      } else {
        assert ms[0].span.start <= p < ms[0].span.end;
      }
  }

  /** Where the pattern matches nowhere, `find` reports nothing. */
  lemma {:induction false} FindAllNone<T>(s: String, from: nat, at: (String, nat) -> Option<Found<T>>)
    requires forall p :: from <= p ==> TryAt(s, p, at).None?
    ensures FindAll(s, from, at) == []
    decreases |s| - from
  {
    if from < |s| {
      assert TryAt(s, from, at).None?;
      FindAllNone(s, from + 1, at);
    }
  }

  /** One more round of the `find` loop: the match `find` reports joins those already visited. */
  lemma {:induction false} FindAllStep<T>(s: String, at: (String, nat) -> Option<Found<T>>, all: seq<Found<T>>, found: seq<Found<T>>, pos: nat)
    requires Find(s, pos, at).Some?
    requires all == found + FindAll(s, pos, at)
    requires Ordered(SpansOf(found), |s|) && EndOf(SpansOf(found)) <= pos
    ensures all == (found + [Find(s, pos, at).value]) + FindAll(s, Find(s, pos, at).value.span.end, at)
    ensures Ordered(SpansOf(found + [Find(s, pos, at).value]), |s|)
    ensures EndOf(SpansOf(found + [Find(s, pos, at).value])) == Find(s, pos, at).value.span.end
    ensures SpansOf(found + [Find(s, pos, at).value]) == SpansOf(found) + [Find(s, pos, at).value.span]
  {
    var m := Find(s, pos, at).value;
    var rest := FindAll(s, m.span.end, at);
    assert FindAll(s, pos, at) == [m] + rest;
    assert (found + [m]) + rest == found + ([m] + rest);
    assert SpansOf(found + [m]) == SpansOf(found) + [m.span];
    OrderedSnoc(SpansOf(found), m.span, |s|);
  }

  /** When `find` reports nothing more, the loop has visited every match. */
  lemma {:induction false} FindAllDone<T>(s: String, at: (String, nat) -> Option<Found<T>>, all: seq<Found<T>>, found: seq<Found<T>>, pos: nat)
    requires Find(s, pos, at).None?
    requires all == found + FindAll(s, pos, at)
    ensures all == found
  {
  }

  /** What the groups of each match captured, in match order. */
  function DataOf<T>(ms: seq<Found<T>>): (ds: seq<T>)
    ensures |ds| == |ms| && forall i :: 0 <= i < |ms| ==> ds[i] == ms[i].data
  {
    seq(|ms|, i requires 0 <= i < |ms| => ms[i].data)
  }

  lemma {:induction false} DataCons<T>(m: Found<T>, later: seq<Found<T>>)
    ensures DataOf([m] + later) == [m.data] + DataOf(later)
  {
  }

  lemma {:induction false} DataSnoc<T>(found: seq<Found<T>>, m: Found<T>)
    ensures DataOf(found + [m]) == DataOf(found) + [m.data]
  {
    SnocEq(DataOf(found + [m]), DataOf(found), m.data);
  }

  /** When `find` reports `m` first, the data from `from` on are `m`'s, then those from its end on. */
  lemma {:induction false} DataFirst<T>(s: String, from: nat, at: (String, nat) -> Option<Found<T>>, m: Found<T>)
    requires Find(s, from, at) == Some(m)
    ensures DataOf(FindAll(s, from, at)) == [m.data] + DataOf(FindAll(s, m.span.end, at))
  {
    DataCons(m, FindAll(s, m.span.end, at));
  }

  /** Positions where the pattern does not match add no data. */
  lemma {:induction false} DataSkip<T>(s: String, from: nat, upto: nat, at: (String, nat) -> Option<Found<T>>)
    requires from <= upto && forall p :: from <= p < upto ==> TryAt(s, p, at).None?
    ensures DataOf(FindAll(s, from, at)) == DataOf(FindAll(s, upto, at))
  {
    FindSkip(s, from, upto, at);
  }

  /** `find` passes over positions where the pattern does not match. */
  lemma {:induction false} FindSkip<T>(s: String, from: nat, upto: nat, at: (String, nat) -> Option<Found<T>>)
    requires from <= upto && forall p :: from <= p < upto ==> TryAt(s, p, at).None?
    ensures Find(s, from, at) == Find(s, upto, at)
    ensures FindAll(s, from, at) == FindAll(s, upto, at)
    decreases upto - from
  {
    if from < upto {
      FindSkip(s, from + 1, upto, at);
    }
  }
}
