/** The legacy `ExpressionFinder`: locates the `{>…}` spans of a text with the pattern
    `\{>\s?(\S*)\s?}` and reports each one's text, start and end offsets and variable name. */
module ExpressionFinder {
  import opened Text
  import opened Outcomes
  import opened Rewriting
  import opened Scanning
  import Injection

  /** `InjectionExpression`: the matched text, where it starts and ends, and group 1. */
  datatype InjectionExpression = InjectionExpression(text: String, start: nat, end: nat, variableName: String)

  predicate IsNonSpace(c: char) {
    !IsSpace(c)
  }

  /** What the pattern accepts: `{>`, at most one whitespace character, a name without
      whitespace (possibly empty), at most one whitespace character, `}`. */
  predicate IsFinderExpr(t: String, name: String) {
    |t| >= |name| + 3 && t[0] == '{' && t[1] == '>' && t[|t| - 1] == '}' &&
    (forall i :: 0 <= i < |name| ==> !IsSpace(name[i])) &&
    Injection.OptionallySpaced(t[2..|t| - 1], name)
  }

  /** The regex engine's attempt at `p`. The optional space is taken when present; `\S*` first
      takes the whole run of non-space characters, and if no `}` follows the whitespace after it,
      gives characters back until it stops just before the last `}` of the run. Giving back the
      leading space never yields a match that was not found with it. */
  function ExpressionAt(s: String, p: nat): (r: Option<Found<String>>)
    ensures r.Some? ==> r.value.span.start == p < r.value.span.end <= |s|
  {
    if p + 2 <= |s| && s[p] == '{' && s[p + 1] == '>' then
      var q := if p + 2 < |s| && IsSpace(s[p + 2]) then p + 3 else p + 2;
      var e := RunEnd(s, q, IsNonSpace);
      if e + 1 < |s| && s[e + 1] == '}' then Some(Found(Span(p, e + 2), s[q..e]))
      else
        var k := LastIndexIn(s, '}', q, e);
        if k >= 0 then Some(Found(Span(p, k + 1), s[q..k])) else None
    else None
  }

  lemma {:induction false} FinderFromParts(s: String, p: nat, q: nat, e: nat, f: nat)
    requires p + 2 <= q <= p + 3 && q <= e <= f <= e + 1 && f < |s|
    requires s[p] == '{' && s[p + 1] == '>' && s[f] == '}'
    requires q == p + 3 ==> IsSpace(s[p + 2])
    requires f == e + 1 ==> IsSpace(s[e])
    requires forall i :: q <= i < e ==> !IsSpace(s[i])
    ensures IsFinderExpr(s[p..f + 1], s[q..e])
  {
    var t := s[p..f + 1];
    var name := s[q..e];
    var inner := t[2..|t| - 1];
    assert forall i :: 0 <= i < |inner| ==> inner[i] == s[p + 2 + i];
    assert inner[q - p - 2..q - p - 2 + |name|] == name by {
      forall i | 0 <= i < |name| ensures inner[q - p - 2..q - p - 2 + |name|][i] == name[i] {
        assert inner[q - p - 2 + i] == s[q + i];
      }
    }
    Injection.SpacedBy(inner, name, q - p - 2, f - e);
  }

  /** Every match the scanner reports has the shape of the pattern, and group 1 is its name. */
  lemma {:induction false} ExpressionAtSound(s: String, p: nat)
    requires ExpressionAt(s, p).Some?
    ensures IsFinderExpr(s[p..ExpressionAt(s, p).value.span.end], ExpressionAt(s, p).value.data)
  {
    var q := if p + 2 < |s| && IsSpace(s[p + 2]) then p + 3 else p + 2;
    var e := RunEnd(s, q, IsNonSpace);
    if e + 1 < |s| && s[e + 1] == '}' {
      FinderFromParts(s, p, q, e, e + 1);
    } else {
      var k := LastIndexIn(s, '}', q, e);
      FinderFromParts(s, p, q, k, k);
    }
  }

  /** Every text of the pattern's shape that starts at `p` makes the attempt at `p` succeed. The
      reported span need not be that text: on `{>a}}` the greedy `\S*` takes `a}` as the name. */
  lemma {:induction false} ExpressionAtComplete(s: String, p: nat, f: nat, name: String)
    requires p <= f <= |s| && IsFinderExpr(s[p..f], name)
    ensures ExpressionAt(s, p).Some?
  {
    var lead, trail := FinderLayout(s, p, f, name);
    var q0, c := p + 2 + lead, f - 1;
    var q := if p + 2 < |s| && IsSpace(s[p + 2]) then p + 3 else p + 2;
    var e := RunEnd(s, q, IsNonSpace);
    if q == q0 && trail == 1 {
      RunEndAt(s, q, IsNonSpace, c - 1);
      assert e + 1 < |s| && s[e + 1] == '}';
    } else {
      // The `}` lies inside the run of non-space characters from `q`, so the attempt keeps the last one.
      if q != q0 {
        assert |name| == 0;
        assert c == q;
      }
      assert q <= c < e;
      assert LastIndexIn(s, '}', q, e) >= 0;
    }
  }

  /** Where the parts of an expression of the pattern's shape at `p` lie in the text: `lead` and
      `trail` whitespace characters around the name, and the `}` at `f - 1`. */
  lemma {:induction false} FinderLayout(s: String, p: nat, f: nat, name: String) returns (lead: nat, trail: nat)
    requires p <= f <= |s| && IsFinderExpr(s[p..f], name)
    ensures lead <= 1 && trail <= 1 && f - 1 == p + 2 + lead + |name| + trail
    ensures s[p] == '{' && s[p + 1] == '>' && s[f - 1] == '}'
    ensures lead == 1 ==> IsSpace(s[p + 2])
    ensures trail == 1 ==> IsSpace(s[f - 2])
    ensures forall i :: p + 2 + lead <= i < p + 2 + lead + |name| ==> !IsSpace(s[i])
  {
    var t := s[p..f];
    var inner := t[2..|t| - 1];
    lead, trail := Injection.SpacedParts(inner, name);
    assert s[p] == t[0] && s[p + 1] == t[1] && s[f - 1] == t[|t| - 1];
    forall j | 0 <= j < |inner| ensures inner[j] == s[p + 2 + j] { assert inner[j] == t[2 + j]; }
    var q0 := p + 2 + lead;
    forall i | q0 <= i < q0 + |name| ensures !IsSpace(s[i]) {
      assert s[i] == inner[lead + (i - q0)] == inner[lead..lead + |name|][i - q0] == name[i - q0];
    }
  }

  /** The expression `find` reported as `m`. */
  function ToExpression(s: String, m: Found<String>): InjectionExpression
    requires m.span.start <= m.span.end <= |s|
  {
    InjectionExpression(s[m.span.start..m.span.end], m.span.start, m.span.end, m.data)
  }

  /** The expressions the loop collects, in the order `find` reports them. */
  function Expressions(s: String): seq<InjectionExpression> {
    var ms := FindAll(s, 0, ExpressionAt);
    seq(|ms|, i requires 0 <= i < |ms| => ToExpression(s, ms[i]))
  }

  /** `findInjectionExpressions`: one expression per match, added as `find` reports them. */
  method FindInjectionExpressions(text: String) returns (output: seq<InjectionExpression>)
    ensures output == Expressions(text)
  {
    output := [];
    var last := 0;
    ghost var found: seq<Found<String>> := [];
    var next := Find(text, last, ExpressionAt);
    while next.Some?
      invariant last <= |text| && next == Find(text, last, ExpressionAt)
      invariant FindAll(text, 0, ExpressionAt) == found + FindAll(text, last, ExpressionAt)
      invariant Ordered(SpansOf(found), |text|) && last == EndOf(SpansOf(found))
      invariant |output| == |found| && forall i :: 0 <= i < |found| ==> output[i] == ToExpression(text, found[i])
      decreases |text| - last
    {
      var m := next.value;
      FindAllStep(text, ExpressionAt, FindAll(text, 0, ExpressionAt), found, last);
      output := output + [ToExpression(text, m)];
      found := found + [m];
      last := m.span.end;
      next := Find(text, last, ExpressionAt);
    }
  }

  /** Each expression's text is the input between its offsets, has the shape `{>` name `}` with at
      most one whitespace character around a name without whitespace, and the expressions come left
      to right without overlapping. */
  lemma {:induction false} ExpressionsWellFormed(s: String)
    ensures forall i :: 0 <= i < |Expressions(s)| ==>
      Expressions(s)[i].start < Expressions(s)[i].end <= |s| &&
      Expressions(s)[i].text == s[Expressions(s)[i].start..Expressions(s)[i].end] &&
      IsFinderExpr(Expressions(s)[i].text, Expressions(s)[i].variableName)
    ensures forall i :: 0 < i < |Expressions(s)| ==> Expressions(s)[i - 1].end <= Expressions(s)[i].start
  {
    var ms := FindAll(s, 0, ExpressionAt);
    FindAllReported(s, 0, ExpressionAt);
    forall i | 0 <= i < |ms|
      ensures IsFinderExpr(s[ms[i].span.start..ms[i].span.end], ms[i].data)
    {
      ExpressionAtSound(s, ms[i].span.start);
    }
  }

  /** Nothing is missed: every text of the pattern's shape in the input starts inside a reported
      expression. */
  lemma {:induction false} ExpressionsCover(s: String, p: nat, f: nat, name: String)
    requires p <= f <= |s| && IsFinderExpr(s[p..f], name)
    ensures exists i :: 0 <= i < |Expressions(s)| && Expressions(s)[i].start <= p < Expressions(s)[i].end
  {
    ExpressionAtComplete(s, p, f, name);
    assert TryAt(s, p, ExpressionAt).Some?;
    FindAllCover(s, 0, ExpressionAt, p);
    var ms := FindAll(s, 0, ExpressionAt);
    var i :| 0 <= i < |ms| && ms[i].span.start <= p < ms[i].span.end;
    assert Expressions(s)[i] == ToExpression(s, ms[i]);
  }

  /** The name may be empty: `{>}` is reported with an empty variable name. */
  lemma {:induction false} EmptyNameFound()
    ensures Expressions("{>}") == [InjectionExpression("{>}", 0, 3, "")]
  {
    var s := "{>}";
    assert s[0] == '{' && s[1] == '>' && s[2] == '}' && |s| == 3;
    assert !IsSpace(s[2]) && IsNonSpace(s[2]);
    assert RunEnd(s, 3, IsNonSpace) == 3;
    assert RunEnd(s, 2, IsNonSpace) == 3;
    assert LastIndexIn(s, '}', 2, 3) == 2;
    assert s[2..2] == "";
    assert ExpressionAt(s, 0).Some?;
    assert ExpressionAt(s, 0).value.span == Span(0, 3);
    assert ExpressionAt(s, 0) == Some(Found(Span(0, 3), ""));
    assert Find(s, 0, ExpressionAt) == Some(Found(Span(0, 3), ""));
    assert Find(s, 3, ExpressionAt) == None;
    assert FindAll(s, 3, ExpressionAt) == [];
    assert FindAll(s, 0, ExpressionAt) == [Found(Span(0, 3), "")];
    assert s[0..3] == s;
  }
}
