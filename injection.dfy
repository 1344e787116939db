/** `InjectionProcessor`: one pass that replaces every `{>name}` by the value injected under `name`.
    The legacy copy of this class has the same pattern and the same loop, so this module models both. */
module Injection {
  import opened Text
  import opened Outcomes
  import opened Rewriting
  import opened Scanning

  /** An injection expression found by the scanner: where it is, and the name (group 1) it refers to. */
  type InjectionMatch = Found<String>

  /** The grammar of an injection expression, `\{>\s?(\w+)\s?\}`, stated without a scanner. */
  predicate IsInjectionExpr(t: String, name: String) {
    |name| > 0 && AllWord(name) && |t| >= |name| + 3 &&
    t[0] == '{' && t[1] == '>' && t[|t| - 1] == '}' && OptionallySpaced(t[2..|t| - 1], name)
  }

  /** `name`, with at most one whitespace character on either side. */
  predicate OptionallySpaced(inner: String, name: String) {
    inner == name ||
    (|inner| == |name| + 1 && IsSpace(inner[0]) && inner[1..] == name) ||
    (|inner| == |name| + 1 && IsSpace(inner[|name|]) && inner[..|name|] == name) ||
    (|inner| == |name| + 2 && IsSpace(inner[0]) && IsSpace(inner[|name| + 1]) && inner[1..|name| + 1] == name)
  }

  /** `OptionallySpaced` by the number of spaces taken in front (`lead`) and behind (`trail`). */
  lemma {:induction false} SpacedBy(inner: String, name: String, lead: nat, trail: nat)
    requires lead <= 1 && trail <= 1 && |inner| == lead + |name| + trail
    requires inner[lead..lead + |name|] == name
    requires lead == 1 ==> IsSpace(inner[0])
    requires trail == 1 ==> IsSpace(inner[|inner| - 1])
    ensures OptionallySpaced(inner, name)
  {
    if lead == 0 && trail == 0 {
      assert inner == inner[0..|name|];
    } else if lead == 1 && trail == 0 {
      assert inner[1..] == inner[1..1 + |name|];
    } else if lead == 0 {
      assert inner[..|name|] == inner[0..|name|];
    }
  }

  /** The spaces an injection expression takes in front of and behind its name. */
  lemma {:induction false} SpacedParts(inner: String, name: String) returns (lead: nat, trail: nat)
    requires OptionallySpaced(inner, name)
    ensures lead <= 1 && trail <= 1 && |inner| == lead + |name| + trail
    ensures inner[lead..lead + |name|] == name
    ensures lead == 1 ==> IsSpace(inner[0])
    ensures trail == 1 ==> IsSpace(inner[|inner| - 1])
  {
    if inner == name {
      lead, trail := 0, 0;
      assert inner[0..|name|] == inner;
    } else if |inner| == |name| + 1 && IsSpace(inner[0]) && inner[1..] == name {
      lead, trail := 1, 0;
      assert inner[1..1 + |name|] == inner[1..];
    } else if |inner| == |name| + 1 && IsSpace(inner[|name|]) && inner[..|name|] == name {
      lead, trail := 0, 1;
      assert inner[0..|name|] == inner[..|name|];
    } else {
      lead, trail := 1, 1;
    }
  }

  /** The regex engine's attempt at position `p`: it takes the optional space, the longest
      run of word characters, the optional space and the closing brace; since these classes
      are disjoint, giving any of them back never helps, so the attempt is deterministic. */
  function InjectionAt(s: String, p: nat): (r: Option<InjectionMatch>)
    ensures r.Some? ==> r.value.span.start == p && p < r.value.span.end <= |s|
  {
    if p + 2 <= |s| && s[p] == '{' && s[p + 1] == '>' then
      var q := if p + 2 < |s| && IsSpace(s[p + 2]) then p + 3 else p + 2;
      var e := RunEnd(s, q, IsWordChar);
      var f := if e < |s| && IsSpace(s[e]) then e + 1 else e;
      if e > q && f < |s| && s[f] == '}' then Some(Found(Span(p, f + 1), s[q..e]))
      else None
    else None
  }

  /** Every match the scanner reports is an injection expression, and its group 1 is the name. */
  lemma {:induction false} InjectionAtSound(s: String, p: nat)
    requires InjectionAt(s, p).Some?
    ensures IsInjectionExpr(s[p..InjectionAt(s, p).value.span.end], InjectionAt(s, p).value.data)
  {
    var q := if p + 2 < |s| && IsSpace(s[p + 2]) then p + 3 else p + 2;
    var e := RunEnd(s, q, IsWordChar);
    var f := if e < |s| && IsSpace(s[e]) then e + 1 else e;
    ExpressionFromParts(s, p, q, e, f);
  }

  lemma {:induction false} ExpressionFromParts(s: String, p: nat, q: nat, e: nat, f: nat)
    requires p + 2 <= q <= p + 3 && q < e <= f <= e + 1 && f < |s|
    requires s[p] == '{' && s[p + 1] == '>' && s[f] == '}'
    requires q == p + 3 ==> IsSpace(s[p + 2])
    requires f == e + 1 ==> IsSpace(s[e])
    requires forall i :: q <= i < e ==> IsWordChar(s[i])
    ensures IsInjectionExpr(s[p..f + 1], s[q..e])
  {
    var t := s[p..f + 1];
    var name := s[q..e];
    assert AllWord(name) by {
      forall i | 0 <= i < |name| ensures IsWordChar(name[i]) { assert name[i] == s[q + i]; }
    }
    var inner := t[2..|t| - 1];
    assert forall i :: 0 <= i < |inner| ==> inner[i] == s[p + 2 + i];
    assert inner[q - p - 2..q - p - 2 + |name|] == name by {
      forall i | 0 <= i < |name| ensures inner[q - p - 2..q - p - 2 + |name|][i] == name[i] {
        assert inner[q - p - 2 + i] == s[q + i];
      }
    }
    SpacedBy(inner, name, q - p - 2, f - e);
  }

  /** The scanner finds every injection expression that starts at `p`. */
  lemma {:induction false} InjectionAtComplete(s: String, p: nat, k: nat, name: String)
    requires p <= k <= |s| && IsInjectionExpr(s[p..k], name)
    ensures InjectionAt(s, p) == Some(Found(Span(p, k), name))
  {
    var lead, trail := ExpressionParts(s, p, k, name);
    var q := p + 2 + lead;
    var x := q + |name|;
    assert q == if p + 2 < |s| && IsSpace(s[p + 2]) then p + 3 else p + 2 by {
      if lead == 0 { assert s[p + 2] == s[q..x][0]; }
    }
    RunEndAt(s, q, IsWordChar, x);
  }

  /** An injection expression, read off character by character. */
  lemma {:induction false} ExprParts(t: String, name: String) returns (lead: nat, trail: nat)
    requires IsInjectionExpr(t, name)
    ensures lead <= 1 && trail <= 1 && |t| == 3 + lead + |name| + trail
    ensures t[0] == '{' && t[1] == '>' && t[|t| - 1] == '}'
    ensures t[2 + lead..2 + lead + |name|] == name && |name| > 0 && AllWord(name)
    ensures lead == 1 ==> IsSpace(t[2])
    ensures trail == 1 ==> IsSpace(t[|t| - 2])
  {
    var inner := t[2..|t| - 1];
    lead, trail := SpacedParts(inner, name);
    SliceOfSlice(t, 2, |t| - 1, lead, lead + |name|);
    if lead == 1 { assert t[2] == inner[0]; }
    if trail == 1 { assert t[|t| - 2] == inner[|inner| - 1]; }
  }

  /** An injection expression at `[p, k)`, read off the text itself. */
  lemma {:induction false} ExpressionParts(s: String, p: nat, k: nat, name: String) returns (lead: nat, trail: nat)
    requires p <= k <= |s| && IsInjectionExpr(s[p..k], name)
    ensures lead <= 1 && trail <= 1 && k == p + 3 + lead + |name| + trail
    ensures s[p] == '{' && s[p + 1] == '>' && s[k - 1] == '}'
    ensures s[p + 2 + lead..p + 2 + lead + |name|] == name && |name| > 0
    ensures forall i :: p + 2 + lead <= i < p + 2 + lead + |name| ==> IsWordChar(s[i])
    ensures lead == 1 ==> IsSpace(s[p + 2])
    ensures trail == 1 ==> IsSpace(s[k - 2])
  {
    var t := s[p..k];
    lead, trail := ExprParts(t, name);
    var q := p + 2 + lead;
    var x := q + |name|;
    SliceOfSlice(s, p, k, 2 + lead, 2 + lead + |name|);
    assert s[q..x] == name;
    forall i | q <= i < x ensures IsWordChar(s[i]) { assert s[i] == name[i - q]; }
  }

  /** The expressions one pass visits, in order. */
  function InjectionMatches(s: String): (ms: seq<InjectionMatch>)
    ensures Ordered(SpansOf(ms), |s|)
  {
    FindAll(s, 0, InjectionAt)
  }

  /** `injectedObjects.get(name)` is `null` or `""`: the pass throws. */
  predicate Missing(injected: map<String, String>, name: String) {
    name !in injected || injected[name] == []
  }

  function Lookup(injected: map<String, String>, name: String): String {
    if name in injected then injected[name] else []
  }

  function ValuesOf(ms: seq<InjectionMatch>, injected: map<String, String>): (vs: seq<String>)
    ensures |vs| == |ms| && forall i :: 0 <= i < |ms| ==> vs[i] == Lookup(injected, ms[i].data)
  {
    seq(|ms|, i requires 0 <= i < |ms| => Lookup(injected, ms[i].data))
  }

  /** The position of the first match whose name is missing, or -1. */
  function FirstMissing(ms: seq<InjectionMatch>, injected: map<String, String>): (r: int)
    ensures -1 <= r < |ms|
    ensures r >= 0 ==> Missing(injected, ms[r].data)
    ensures forall i :: 0 <= i < |ms| && (r < 0 || i < r) ==> !Missing(injected, ms[i].data)
  {
    if |ms| == 0 then -1
    else if Missing(injected, ms[0].data) then 0
    else
      var r := FirstMissing(ms[1..], injected);
      assert forall i :: 0 < i < |ms| ==> ms[i] == ms[1..][i - 1];
      if r < 0 then -1 else r + 1
  }

  /** What one pass returns: the injection fault as soon as a matched name is missing,
      otherwise the text with every match replaced by its value. */
  function InjectSpec(s: String, injected: map<String, String>): (r: Result<String>)
    ensures r.Ok? <==> AllPresent(InjectionMatches(s), injected)
    ensures r.Err? ==> r.fault == InjectionFault
  {
    var ms := InjectionMatches(s);
    if FirstMissing(ms, injected) >= 0 then Err(InjectionFault)
    else Ok(Splice(s, SpansOf(ms), ValuesOf(ms, injected)))
  }

  /** Every matched name has a non-empty value. */
  predicate AllPresent(ms: seq<InjectionMatch>, injected: map<String, String>) {
    forall i :: 0 <= i < |ms| ==> !Missing(injected, ms[i].data)
  }

  /** The values substituted in a pass are copied verbatim: none holds `$` or `\`. */
  predicate PlainValues(s: String, injected: map<String, String>) {
    forall m :: m in InjectionMatches(s) && m.data in injected ==> Plain(injected[m.data])
  }

  class InjectionProcessor {
    /** The number of expressions the last pass replaced (`getExpressionsProcessedNumber`). */
    var expressionsProcessed: nat

    constructor ()
      ensures expressionsProcessed == 0
    {
      expressionsProcessed := 0;
    }

    /** `inject`: resets the counter, then rewrites match by match; a missing value aborts the pass. */
    method Inject(text: String, injected: map<String, String>) returns (r: Result<String>)
      requires PlainValues(text, injected)
      modifies this
      ensures r == InjectSpec(text, injected)
      ensures r.Ok? ==> expressionsProcessed == |InjectionMatches(text)|
      ensures r.Err? ==> expressionsProcessed == FirstMissing(InjectionMatches(text), injected)
    {
      expressionsProcessed := 0;
      var sb: String := [];
      var last := 0;
      ghost var found: seq<InjectionMatch> := [];
      var next := Find(text, last, InjectionAt);
      while next.Some?
        invariant last <= |text| && next == Find(text, last, InjectionAt)
        invariant InjectionMatches(text) == found + FindAll(text, last, InjectionAt)
        invariant Ordered(SpansOf(found), |text|) && last == EndOf(SpansOf(found))
        invariant AllPresent(found, injected)
        invariant expressionsProcessed == |found|
        invariant sb == Prefix(text, SpansOf(found), ValuesOf(found, injected))
        decreases |text| - last
      {
        var m := next.value;
        var payload := Lookup(injected, m.data);
        if m.data !in injected || payload == [] {
          RejectMatch(text, injected, found, last);
          return Err(InjectionFault);
        }
        AcceptMatch(text, injected, found, last);
        sb := sb + text[last..m.span.start] + payload;
        expressionsProcessed := expressionsProcessed + 1;
        found := found + [m];
        last := m.span.end;
        next := Find(text, last, InjectionAt);
      }
      FindAllDone(text, InjectionAt, InjectionMatches(text), found, last);
      assert FirstMissing(found, injected) == -1;
      r := Ok(sb + text[last..]);
    }
  }

  /** One match replaced: the loop's invariants hold one match further on. */
  lemma {:induction false} AcceptMatch(text: String, injected: map<String, String>, found: seq<InjectionMatch>, pos: nat)
    requires Find(text, pos, InjectionAt).Some?
    requires InjectionMatches(text) == found + FindAll(text, pos, InjectionAt)
    requires Ordered(SpansOf(found), |text|) && EndOf(SpansOf(found)) <= pos
    requires AllPresent(found, injected) && !Missing(injected, Find(text, pos, InjectionAt).value.data)
    ensures var m := Find(text, pos, InjectionAt).value;
      InjectionMatches(text) == (found + [m]) + FindAll(text, m.span.end, InjectionAt) &&
      Ordered(SpansOf(found + [m]), |text|) && EndOf(SpansOf(found + [m])) == m.span.end &&
      AllPresent(found + [m], injected) &&
      Prefix(text, SpansOf(found + [m]), ValuesOf(found + [m], injected)) ==
        Prefix(text, SpansOf(found), ValuesOf(found, injected)) + text[EndOf(SpansOf(found))..m.span.start] + Lookup(injected, m.data)
  {
    var m := Find(text, pos, InjectionAt).value;
    FindAllStep(text, InjectionAt, InjectionMatches(text), found, pos);
    SnocEq(ValuesOf(found + [m], injected), ValuesOf(found, injected), Lookup(injected, m.data));
    PrefixSnoc(text, SpansOf(found), ValuesOf(found, injected), m.span, Lookup(injected, m.data));
    assert forall i :: 0 <= i < |found| ==> (found + [m])[i] == found[i];
  }

  /** A match whose name is missing ends the pass after the matches before it. */
  lemma {:induction false} RejectMatch(text: String, injected: map<String, String>, found: seq<InjectionMatch>, pos: nat)
    requires Find(text, pos, InjectionAt).Some?
    requires InjectionMatches(text) == found + FindAll(text, pos, InjectionAt)
    requires AllPresent(found, injected) && Missing(injected, Find(text, pos, InjectionAt).value.data)
    ensures FirstMissing(InjectionMatches(text), injected) == |found|
    ensures InjectSpec(text, injected) == Err(InjectionFault)
  {
    var m := Find(text, pos, InjectionAt).value;
    var all := InjectionMatches(text);
    assert FindAll(text, pos, InjectionAt)[0] == m;
    assert all[|found|] == m;
    assert forall i :: 0 <= i < |found| ==> all[i] == found[i];
  }

  /** A text without injection expressions passes through unchanged. */
  lemma {:induction false} InjectNothing(s: String, injected: map<String, String>)
    requires InjectionMatches(s) == []
    ensures InjectSpec(s, injected) == Ok(s)
  {
    var ms := InjectionMatches(s);
    assert FirstMissing(ms, injected) == -1;
    assert SpansOf(ms) == [] && ValuesOf(ms, injected) == [];
    assert Splice(s, [], []) == s by { assert s[0..] == s; }
  }

  /** Between two matches, and before the first and after the last, the text is kept:
      a pass whose every value spells out its own expression changes nothing. */
  lemma {:induction false} InjectKeepsText(s: String, injected: map<String, String>)
    requires forall m :: m in InjectionMatches(s) ==>
      m.data in injected && injected[m.data] == s[m.span.start..m.span.end]
    ensures InjectSpec(s, injected) == Ok(s)
  {
    var ms := InjectionMatches(s);
    forall i | 0 <= i < |ms| ensures ValuesOf(ms, injected)[i] == s[SpansOf(ms)[i].start..SpansOf(ms)[i].end] {
      assert ms[i] in ms;
    }
    forall i | 0 <= i < |ms| ensures !Missing(injected, ms[i].data) {
      assert ms[i] in ms;
    }
    SpliceIdentity(s, SpansOf(ms), ValuesOf(ms, injected));
  }
}
