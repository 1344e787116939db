/** `Matcher.appendReplacement` and `Matcher.appendTail`: the rewrite loop that every
    processor runs. Each found match copies the text between the previous match and
    this one, then the replacement; `appendTail` copies what follows the last match. */
module Rewriting {
  import opened Text

  /** The characters `[start, end)` of a match. */
  datatype Span = Span(start: nat, end: nat)

  /** Matches in the order `find` reports them: inside a text of length `n`,
      increasing and non-overlapping. */
  predicate Ordered(spans: seq<Span>, n: nat) {
    (forall i :: 0 <= i < |spans| ==> spans[i].start <= spans[i].end <= n) &&
    (forall i :: 0 < i < |spans| ==> spans[i - 1].end <= spans[i].start)
  }

  /** Where `appendTail` starts copying: the end of the last match, or 0. */
  function EndOf(spans: seq<Span>): nat {
    if |spans| == 0 then 0 else spans[|spans| - 1].end
  }

  /** The buffer after `appendReplacement` ran once per span. */
  function Prefix(s: String, spans: seq<Span>, reps: seq<String>): String
    requires Ordered(spans, |s|) && |reps| == |spans|
  {
    if |spans| == 0 then []
    else
      var n := |spans| - 1;
      assert Ordered(spans[..n], |s|);
      Prefix(s, spans[..n], reps[..n]) + s[EndOf(spans[..n])..spans[n].start] + reps[n]
  }

  /** The text a rewrite loop returns: every match replaced, everything else in place. */
  function Splice(s: String, spans: seq<Span>, reps: seq<String>): String
    requires Ordered(spans, |s|) && |reps| == |spans|
  {
    Prefix(s, spans, reps) + s[EndOf(spans)..]
  }

  /** A match found after the last one keeps the order. */
  lemma {:induction false} OrderedSnoc(spans: seq<Span>, x: Span, n: nat)
    requires Ordered(spans, n) && EndOf(spans) <= x.start <= x.end <= n
    ensures Ordered(spans + [x], n) && EndOf(spans + [x]) == x.end
  {
    assert (spans + [x])[|spans|] == x;
    assert forall i :: 0 <= i < |spans| ==> (spans + [x])[i] == spans[i];
  }

  /** One more `appendReplacement`. */
  lemma {:induction false} PrefixSnoc(s: String, spans: seq<Span>, reps: seq<String>, x: Span, y: String)
    requires Ordered(spans + [x], |s|) && |reps| == |spans|
    ensures Ordered(spans, |s|) && EndOf(spans) <= x.start <= x.end <= |s|
    ensures Prefix(s, spans + [x], reps + [y]) == Prefix(s, spans, reps) + s[EndOf(spans)..x.start] + y
  {
    assert (spans + [x])[..|spans|] == spans;
    assert (reps + [y])[..|reps|] == reps;
    assert (spans + [x])[|spans|] == x;
    assert Ordered(spans, |s|);
  }

  /** Replacing every match by its own text gives back the input. */
  lemma {:induction false} SpliceIdentity(s: String, spans: seq<Span>, reps: seq<String>)
    requires Ordered(spans, |s|) && |reps| == |spans|
    requires forall i :: 0 <= i < |spans| ==> reps[i] == s[spans[i].start..spans[i].end]
    ensures Prefix(s, spans, reps) == s[..EndOf(spans)]
    ensures Splice(s, spans, reps) == s
  {
    if |spans| > 0 {
      var n := |spans| - 1;
      assert Ordered(spans[..n], |s|);
      SpliceIdentity(s, spans[..n], reps[..n]);
      var e, x := EndOf(spans[..n]), spans[n];
      assert e <= x.start <= x.end <= |s|;
      TakeSplit(s, e, x.start, x.end);
      assert Prefix(s, spans, reps) == Prefix(s, spans[..n], reps[..n]) + s[e..x.start] + reps[n];
    }
    TakeSplit(s, EndOf(spans), |s|, |s|);
    assert s[..|s|] == s;
  }

  /** The rewritten text holds every replacement in order, and the text between
      matches unchanged: the length adds up. */
  lemma {:induction false} SpliceLength(s: String, spans: seq<Span>, reps: seq<String>)
    requires Ordered(spans, |s|) && |reps| == |spans|
    ensures |Prefix(s, spans, reps)| == EndOf(spans) - Covered(spans) + TotalLength(reps)
    ensures |Splice(s, spans, reps)| == |s| - Covered(spans) + TotalLength(reps)
  {
    if |spans| > 0 {
      var n := |spans| - 1;
      assert Ordered(spans[..n], |s|);
      SpliceLength(s, spans[..n], reps[..n]);
      assert Covered(spans[..n]) <= EndOf(spans[..n]) by { CoveredBound(spans[..n], |s|); }
    }
  }

  /** The number of characters the spans cover. */
  function Covered(spans: seq<Span>): nat {
    if |spans| == 0 then 0
    else
      var n := |spans| - 1;
      Covered(spans[..n]) + (if spans[n].start <= spans[n].end then spans[n].end - spans[n].start else 0)
  }

  function TotalLength(reps: seq<String>): nat {
    if |reps| == 0 then 0 else TotalLength(reps[..|reps| - 1]) + |reps[|reps| - 1]|
  }

  lemma {:induction false} CoveredBound(spans: seq<Span>, n: nat)
    requires Ordered(spans, n)
    ensures Covered(spans) <= EndOf(spans)
  {
    if |spans| > 0 {
      var k := |spans| - 1;
      assert Ordered(spans[..k], n);
      CoveredBound(spans[..k], n);
    }
  }

  /** A rewrite of a plain text with plain replacements is plain. */
  lemma {:induction false} SplicePlain(s: String, spans: seq<Span>, reps: seq<String>)
    requires Ordered(spans, |s|) && |reps| == |spans|
    requires Plain(s) && forall i :: 0 <= i < |reps| ==> Plain(reps[i])
    ensures Plain(Prefix(s, spans, reps)) && Plain(Splice(s, spans, reps))
  {
    if |spans| > 0 {
      var n := |spans| - 1;
      assert Ordered(spans[..n], |s|);
      SplicePlain(s, spans[..n], reps[..n]);
    }
  }

  /** Order carries over between any two matches, not only neighbours. */
  lemma {:induction false} OrderedBefore(spans: seq<Span>, n: nat, i: nat, j: nat)
    requires Ordered(spans, n) && i < j < |spans|
    ensures spans[i].end <= spans[j].start
    decreases j - i
  {
    if i + 1 < j {
      OrderedBefore(spans, n, i, j - 1);
    }
  }

  /** The buffer after the first `m` replacements is a prefix of the buffer after all of them. */
  lemma {:induction false} PrefixMono(s: String, spans: seq<Span>, reps: seq<String>, m: nat)
    requires Ordered(spans, |s|) && |reps| == |spans| && m <= |spans|
    ensures Ordered(spans[..m], |s|)
    ensures |Prefix(s, spans[..m], reps[..m])| <= |Prefix(s, spans, reps)|
    ensures Prefix(s, spans, reps)[..|Prefix(s, spans[..m], reps[..m])|] == Prefix(s, spans[..m], reps[..m])
    decreases |spans| - m
  {
    if m == |spans| {
      assert spans[..m] == spans && reps[..m] == reps;
    } else {
      PrefixNext(s, spans, reps, m);
      PrefixMono(s, spans, reps, m + 1);
      ghost var whole, next, p := Prefix(s, spans, reps), Prefix(s, spans[..m + 1], reps[..m + 1]), Prefix(s, spans[..m], reps[..m]);
      assert whole[..|p|] == whole[..|next|][..|p|];
    }
  }

  /** Where the next match starts, or the end of the text after the last one. */
  function NextStart(spans: seq<Span>, m: nat, n: nat): nat
    requires m <= |spans|
  {
    if m < |spans| then spans[m].start else n
  }

  /** The matches before the `m`-th end before it starts. */
  lemma {:induction false} EndOfBefore(spans: seq<Span>, n: nat, m: nat)
    requires Ordered(spans, n) && m <= |spans|
    ensures EndOf(spans[..m]) <= NextStart(spans, m, n) <= n
  {
    if 0 < m {
      assert spans[..m][m - 1] == spans[m - 1];
      if m < |spans| {
        assert spans[m - 1].end <= spans[m].start;
      }
    }
  }

  /** The text that stays between the `m`-th match and the one before it (or the tail). */
  function Gap(s: String, spans: seq<Span>, m: nat): String
    requires Ordered(spans, |s|) && m <= |spans|
  {
    EndOfBefore(spans, |s|, m);
    s[EndOf(spans[..m])..NextStart(spans, m, |s|)]
  }

  /** The buffer after `m + 1` replacements extends the one after `m`. */
  lemma {:induction false} PrefixNext(s: String, spans: seq<Span>, reps: seq<String>, m: nat)
    requires Ordered(spans, |s|) && |reps| == |spans| && m < |spans|
    ensures Ordered(spans[..m + 1], |s|) && Ordered(spans[..m], |s|)
    ensures Prefix(s, spans[..m + 1], reps[..m + 1]) ==
      Prefix(s, spans[..m], reps[..m]) + s[EndOf(spans[..m])..spans[m].start] + reps[m]
  {
    TakeSnoc(spans, m);
    TakeSnoc(reps, m);
    assert Ordered(spans[..m + 1], |s|);
    PrefixSnoc(s, spans[..m], reps[..m], spans[m], reps[m]);
  }

  /** The rewritten text begins with the buffer after `m` replacements, followed by the
      untouched text up to the next match: what the later matches do cannot reach back. */
  lemma {:induction false} SpliceAfter(s: String, spans: seq<Span>, reps: seq<String>, m: nat)
    requires Ordered(spans, |s|) && |reps| == |spans| && m <= |spans|
    ensures Ordered(spans[..m], |s|)
    ensures var p := Prefix(s, spans[..m], reps[..m]);
      |p| + |Gap(s, spans, m)| <= |Splice(s, spans, reps)| &&
      Splice(s, spans, reps)[..|p| + |Gap(s, spans, m)|] == p + Gap(s, spans, m)
  {
    if m == |spans| {
      assert spans[..m] == spans && reps[..m] == reps;
    } else {
      PrefixAfter(s, spans, reps, m);
    }
  }

  lemma {:induction false} PrefixAfter(s: String, spans: seq<Span>, reps: seq<String>, m: nat)
    requires Ordered(spans, |s|) && |reps| == |spans| && m < |spans|
    ensures Ordered(spans[..m], |s|)
    ensures var p := Prefix(s, spans[..m], reps[..m]);
      |p| + |Gap(s, spans, m)| <= |Prefix(s, spans, reps)| &&
      Prefix(s, spans, reps)[..|p| + |Gap(s, spans, m)|] == p + Gap(s, spans, m)
  {
    var p := Prefix(s, spans[..m], reps[..m]);
    var g := Gap(s, spans, m);
    var whole := Prefix(s, spans, reps);
    var k := |p| + |g| + |reps[m]|;
    assert k <= |whole| && whole[..k] == p + g + reps[m] by {
      PrefixNext(s, spans, reps, m);
      PrefixMono(s, spans, reps, m + 1);
    }
    assert whole[..|p| + |g|] == whole[..k][..|p| + |g|];
  }

  /** How many times `c` occurs in `s`. */
  function Occurrences(s: String, c: char): nat {
    multiset(s)[c]
  }

  lemma {:induction false} OccurrencesConcat(a: String, b: String, c: char)
    ensures Occurrences(a + b, c) == Occurrences(a, c) + Occurrences(b, c)
  {
    assert multiset(a + b) == multiset(a) + multiset(b);
  }

  lemma {:induction false} OccurrencesNone(s: String, c: char)
    requires forall i :: 0 <= i < |s| ==> s[i] != c
    ensures Occurrences(s, c) == 0
  {
    assert c !in s;
  }

  /** When every match holds one more `c` than its replacement, a rewrite removes one `c` per match. */
  lemma {:induction false} PrefixOccurrences(s: String, spans: seq<Span>, reps: seq<String>, c: char)
    requires Ordered(spans, |s|) && |reps| == |spans|
    requires forall i :: 0 <= i < |spans| ==>
      Occurrences(reps[i], c) + 1 == Occurrences(s[spans[i].start..spans[i].end], c)
    ensures Occurrences(Prefix(s, spans, reps), c) + |spans| == Occurrences(s[..EndOf(spans)], c)
  {
    if |spans| > 0 {
      var n := |spans| - 1;
      var init, rinit := spans[..n], reps[..n];
      assert Ordered(init, |s|);
      assert forall i :: 0 <= i < n ==> init[i] == spans[i] && rinit[i] == reps[i];
      PrefixOccurrences(s, init, rinit, c);
      var e, x := EndOf(init), spans[n];
      var before, gap := Prefix(s, init, rinit), s[e..x.start];
      assert Prefix(s, spans, reps) == before + gap + reps[n];
      assert e <= x.start by { EndOfBefore(spans, |s|, n); }
      TakeSplit(s, e, x.start, x.end);
      OccurrencesStep(before, gap, reps[n], s[..e], s[x.start..x.end], n, c);
    }
  }

  /** One more rewritten match in `PrefixOccurrences`: counts add up across the concatenations. */
  lemma {:induction false} OccurrencesStep(before: String, gap: String, rep: String, head: String, mid: String,
                                           n: nat, c: char)
    requires Occurrences(rep, c) + 1 == Occurrences(mid, c)
    requires Occurrences(before, c) + n == Occurrences(head, c)
    ensures Occurrences(before + gap + rep, c) + n + 1 == Occurrences(head + gap + mid, c)
  {
    OccurrencesConcat(before + gap, rep, c);
    OccurrencesConcat(before, gap, c);
    OccurrencesConcat(head + gap, mid, c);
    OccurrencesConcat(head, gap, c);
  }

  lemma {:induction false} SpliceOccurrences(s: String, spans: seq<Span>, reps: seq<String>, c: char)
    requires Ordered(spans, |s|) && |reps| == |spans|
    requires forall i :: 0 <= i < |spans| ==>
      Occurrences(reps[i], c) + 1 == Occurrences(s[spans[i].start..spans[i].end], c)
    ensures Occurrences(Splice(s, spans, reps), c) + |spans| == Occurrences(s, c)
  {
    PrefixOccurrences(s, spans, reps, c);
    var e := EndOf(spans);
    assert e <= |s| by { EndOfBefore(spans, |s|, |spans|); assert spans[..|spans|] == spans; }
    var p, tail := Prefix(s, spans, reps), s[e..];
    assert Splice(s, spans, reps) == p + tail;
    OccurrencesConcat(p, tail, c);
    OccurrencesConcat(s[..e], tail, c);
    assert s == s[..e] + tail;
  }
}
