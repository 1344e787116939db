/** `EmissionProcessor`: anchored objects `{< k:v|k2:v2 payload }`. Phase 1 replaces each one by a
    temporary token `$@s<index> ` followed by its payload and records the object's components;
    phase 2 reads every payload's final offset off the tokens, then strips the tokens. The legacy
    copy of this class has the same patterns, fields and loops, so this module models both. */
module Emission {
  import opened Text
  import opened Outcomes
  import opened Rewriting
  import opened Scanning
  import opened Assoc
  import Meta

  // ---------------------------------------------------------------------------
  // The anchored-object pattern `\{<\s*([\w:\|]+)\s([\w\s]+)\s*}`
  // ---------------------------------------------------------------------------

  /** `[\w:\|]`: the characters of the parameter group. */
  predicate IsParamChar(c: char) {
    IsWordChar(c) || c == ':' || c == '|'
  }

  /** `[\w\s]`: the characters of the payload group. */
  predicate IsWordOrSpace(c: char) {
    IsWordChar(c) || IsSpace(c)
  }

  /** Group 1 (the parameters) and group 2 (the payload) of an anchored expression. */
  datatype Anchor = Anchor(params: String, value: String)

  predicate AllParamChars(x: String) {
    forall i :: 0 <= i < |x| ==> IsParamChar(x[i])
  }

  predicate AllWordOrSpace(x: String) {
    forall i :: 0 <= i < |x| ==> IsWordOrSpace(x[i])
  }

  predicate AllSpace(x: String) {
    forall i :: 0 <= i < |x| ==> IsSpace(x[i])
  }

  /** The shape of an anchored expression, stated without a scanner: `{<`, whitespace, a
      non-empty parameter run, one whitespace character, a non-empty run of word and whitespace
      characters (the payload, which keeps any whitespace before the brace), `}`. */
  predicate IsAnchorExpr(t: String, a: Anchor) {
    var lead := |t| - |a.params| - |a.value| - 4;
    var e := 2 + lead + |a.params|;
    lead >= 0 && |a.params| > 0 && |a.value| > 0 &&
    t[0] == '{' && t[1] == '<' && AllSpace(t[2..2 + lead]) &&
    t[2 + lead..e] == a.params && IsSpace(t[e]) && t[e + 1..|t| - 1] == a.value && t[|t| - 1] == '}' &&
    AllParamChars(a.params) && AllWordOrSpace(a.value)
  }

  /** The regex engine's attempt at `p`. The classes `\s`, `[\w:\|]` and `[\w\s]`-then-`}` meet
      only where giving characters back cannot help, so the attempt is deterministic: the leading
      whitespace, the longest parameter run, one whitespace character, the longest payload run,
      and a `}` right after it (trailing whitespace stays in the payload). */
  function AnchorAt(s: String, p: nat): (r: Option<Found<Anchor>>)
    ensures r.Some? ==> r.value.span.start == p < r.value.span.end <= |s|
  {
    if p + 2 <= |s| && s[p] == '{' && s[p + 1] == '<' then
      var q := RunEnd(s, p + 2, IsSpace);
      var e := RunEnd(s, q, IsParamChar);
      if q < e < |s| && IsSpace(s[e]) then
        var f := RunEnd(s, e + 1, IsWordOrSpace);
        if e + 1 < f < |s| && s[f] == '}' then Some(Found(Span(p, f + 1), Anchor(s[q..e], s[e + 1..f])))
        else None
      else None
    else None
  }

  /** Every match the scanner reports is an anchored expression with those groups. */
  lemma {:induction false} AnchorAtSound(s: String, p: nat)
    requires AnchorAt(s, p).Some?
    ensures IsAnchorExpr(s[p..AnchorAt(s, p).value.span.end], AnchorAt(s, p).value.data)
  {
    assert p + 2 <= |s| && s[p] == '{' && s[p + 1] == '<';
    var q := RunEnd(s, p + 2, IsSpace);
    var e := RunEnd(s, q, IsParamChar);
    assert q < e < |s| && IsSpace(s[e]);
    var f := RunEnd(s, e + 1, IsWordOrSpace);
    assert e + 1 < f < |s| && s[f] == '}';
    var r := AnchorAt(s, p).value;
    assert r.span.end == f + 1 && r.data == Anchor(s[q..e], s[e + 1..f]);
    AnchorFromParts(s, p, q, e, f);
    assert s[p..r.span.end] == s[p..f + 1];
  }

  lemma {:induction false} AnchorFromParts(s: String, p: nat, q: nat, e: nat, f: nat)
    requires p + 2 <= q < e && e + 1 < f < |s|
    requires s[p] == '{' && s[p + 1] == '<' && IsSpace(s[e]) && s[f] == '}'
    requires forall i :: p + 2 <= i < q ==> IsSpace(s[i])
    requires forall i :: q <= i < e ==> IsParamChar(s[i])
    requires forall i :: e + 1 <= i < f ==> IsWordOrSpace(s[i])
    ensures IsAnchorExpr(s[p..f + 1], Anchor(s[q..e], s[e + 1..f]))
  {
    var lead, params, value := s[p + 2..q], s[q..e], s[e + 1..f];
    SliceParts(s, p, q, e, f);
    assert AllSpace(lead) by {
      forall i | 0 <= i < |lead| ensures IsSpace(lead[i]) { assert lead[i] == s[p + 2 + i]; }
    }
    assert AllParamChars(params) by {
      forall i | 0 <= i < |params| ensures IsParamChar(params[i]) { assert params[i] == s[q + i]; }
    }
    assert AllWordOrSpace(value) by {
      forall i | 0 <= i < |value| ensures IsWordOrSpace(value[i]) { assert value[i] == s[e + 1 + i]; }
    }
  }

  lemma {:induction false} SliceParts(s: String, p: nat, q: nat, e: nat, f: nat)
    requires p + 2 <= q < e && e + 1 < f < |s|
    ensures var t := s[p..f + 1];
      t[0] == s[p] && t[1] == s[p + 1] && t[e - p] == s[e] && t[|t| - 1] == s[f] &&
      t[2..q - p] == s[p + 2..q] && t[q - p..e - p] == s[q..e] && t[e - p + 1..|t| - 1] == s[e + 1..f]
  {
    SliceOfSlice(s, p, f + 1, 2, q - p);
    SliceOfSlice(s, p, f + 1, q - p, e - p);
    SliceOfSlice(s, p, f + 1, e - p + 1, f - p);
  }

  /** The scanner finds every anchored expression that starts at `p`. */
  lemma {:induction false} AnchorAtComplete(s: String, p: nat, t: String, a: Anchor)
    requires p + |t| <= |s| && s[p..p + |t|] == t && IsAnchorExpr(t, a)
    ensures AnchorAt(s, p) == Some(Found(Span(p, p + |t|), a))
  {
    var n := |t|;
    var q := n - |a.params| - |a.value| - 2;
    var e := q + |a.params|;
    var f := p + n - 1;
    assert t == s[p..f + 1];
    SliceParts(s, p, p + q, p + e, f);
    assert s[p] == '{' && s[p + 1] == '<' && IsSpace(s[p + e]) && s[f] == '}';
    assert AllSpace(s[p + 2..p + q]) by {
      assert t[2..q] == s[p + 2..p + q];
    }
    assert s[p + q..p + e] == a.params && AllParamChars(s[p + q..p + e]) by {
      assert t[q..e] == s[p + q..p + e];
    }
    assert s[p + e + 1..f] == a.value && AllWordOrSpace(s[p + e + 1..f]) by {
      assert t[e + 1..n - 1] == s[p + e + 1..f];
    }
    AnchorAtRuns(s, p, p + q, p + e, f);
  }

  lemma {:induction false} AnchorAtRuns(s: String, p: nat, q: nat, e: nat, f: nat)
    requires p + 2 <= q < e && e + 1 < f < |s|
    requires s[p] == '{' && s[p + 1] == '<' && IsSpace(s[e]) && s[f] == '}'
    requires AllSpace(s[p + 2..q]) && AllParamChars(s[q..e]) && AllWordOrSpace(s[e + 1..f])
    ensures AnchorAt(s, p) == Some(Found(Span(p, f + 1), Anchor(s[q..e], s[e + 1..f])))
  {
    AnchorRuns(s, p, q, e, f);
  }

  /** The runs the scanner measures end where the expression's parts end. */
  lemma {:induction false} AnchorRuns(s: String, p: nat, q: nat, e: nat, f: nat)
    requires p + 2 <= q < e && e + 1 < f < |s|
    requires IsSpace(s[e]) && s[f] == '}'
    requires AllSpace(s[p + 2..q]) && AllParamChars(s[q..e]) && AllWordOrSpace(s[e + 1..f])
    ensures RunEnd(s, p + 2, IsSpace) == q
    ensures RunEnd(s, q, IsParamChar) == e
    ensures RunEnd(s, e + 1, IsWordOrSpace) == f
  {
    assert forall i :: p + 2 <= i < q ==> s[i] == s[p + 2..q][i - p - 2];
    assert forall i :: q <= i < e ==> s[i] == s[q..e][i - q];
    assert forall i :: e + 1 <= i < f ==> s[i] == s[e + 1..f][i - e - 1];
    assert s[q] == s[q..e][0];
    RunEndAt(s, p + 2, IsSpace, q);
    RunEndAt(s, q, IsParamChar, e);
    RunEndAt(s, e + 1, IsWordOrSpace, f);
  }

  /** The anchored expressions one phase-1 pass visits, in order. */
  function AnchorMatches(s: String): (ms: seq<Found<Anchor>>)
    ensures Ordered(SpansOf(ms), |s|)
  {
    FindAll(s, 0, AnchorAt)
  }

  // ---------------------------------------------------------------------------
  // The parameter pattern `(\w+):(\w+)(?=\|)?` and `extractParameters`
  // ---------------------------------------------------------------------------

  /** The attempt at `p`: the longest word run, `:`, the longest word run. The trailing optional
      look-ahead never changes what is matched. */
  function ParamAt(s: String, p: nat): (r: Option<Found<(String, String)>>)
    ensures r.Some? ==> r.value.span.start == p < r.value.span.end <= |s|
  {
    if p < |s| then
      var a := RunEnd(s, p, IsWordChar);
      if p < a < |s| && s[a] == ':' then
        var b := RunEnd(s, a + 1, IsWordChar);
        if a + 1 < b then Some(Found(Span(p, b), (s[p..a], s[a + 1..b]))) else None
      else None
    else None
  }

  /** A reported pair is literally `key:value`, both sides non-empty runs of word characters. */
  lemma {:induction false} ParamAtSound(s: String, p: nat)
    requires ParamAt(s, p).Some?
    ensures var m := ParamAt(s, p).value; var d := m.data;
      |d.0| > 0 && AllWord(d.0) && |d.1| > 0 && AllWord(d.1) && s[m.span.start..m.span.end] == d.0 + ":" + d.1
  {
    var a := RunEnd(s, p, IsWordChar);
    var b := RunEnd(s, a + 1, IsWordChar);
    ParamFromParts(s, p, a, b);
  }

  lemma {:induction false} ParamFromParts(s: String, p: nat, a: nat, b: nat)
    requires p < a && a + 1 < b <= |s| && s[a] == ':'
    requires forall i :: p <= i < a ==> IsWordChar(s[i])
    requires forall i :: a + 1 <= i < b ==> IsWordChar(s[i])
    ensures AllWord(s[p..a]) && AllWord(s[a + 1..b]) && s[p..b] == s[p..a] + ":" + s[a + 1..b]
  {
    assert s[p..b] == s[p..a] + [s[a]] + s[a + 1..b];
    var x, y := s[p..a], s[a + 1..b];
    forall j | 0 <= j < |x| ensures IsWordChar(x[j]) { assert x[j] == s[p + j]; }
    forall j | 0 <= j < |y| ensures IsWordChar(y[j]) { assert y[j] == s[a + 1 + j]; }
  }

  function ParamPairs(s: String): seq<(String, String)> {
    DataOf(FindAll(s, 0, ParamAt))
  }

  /** The map `extractParameters` builds: every `key:value` pair put in the order found. */
  function Params(s: String): map<String, String> {
    PutAll(map[], ParamPairs(s))
  }

  /** Each pair is literally `key:value` in the parameter text, with both sides non-empty runs of
      word characters; the map holds exactly the keys of the pairs, each with the value of the last
      pair that names it. */
  lemma {:induction false} ParamsFound(s: String, k: String)
    ensures forall i :: 0 <= i < |ParamPairs(s)| ==>
      |ParamPairs(s)[i].0| > 0 && AllWord(ParamPairs(s)[i].0) &&
      |ParamPairs(s)[i].1| > 0 && AllWord(ParamPairs(s)[i].1) &&
      var sp := FindAll(s, 0, ParamAt)[i].span;
      s[sp.start..sp.end] == ParamPairs(s)[i].0 + ":" + ParamPairs(s)[i].1
    ensures k in Params(s) <==> LastWith(ParamPairs(s), k) >= 0
    ensures k in Params(s) ==> Params(s)[k] == ParamPairs(s)[LastWith(ParamPairs(s), k)].1
  {
    var ms := FindAll(s, 0, ParamAt);
    FindAllReported(s, 0, ParamAt);
    forall i | 0 <= i < |ms|
      ensures var sp := ms[i].span; var d := ms[i].data;
        |d.0| > 0 && AllWord(d.0) && |d.1| > 0 && AllWord(d.1) && s[sp.start..sp.end] == d.0 + ":" + d.1
    {
      ParamAtSound(s, ms[i].span.start);
    }
    PutAllAt(map[], ParamPairs(s), k);
  }

  /** Every `key:value` pair of word runs written in the parameter text is reported where it starts,
      with that key; the value is the longest word run after the `:`, so it begins with the one written. */
  lemma {:induction false} ParamAtComplete(s: String, p: nat, k: String, v: String)
    requires |k| > 0 && AllWord(k) && |v| > 0 && AllWord(v)
    requires p + |k| + 1 + |v| <= |s| && s[p..p + |k| + 1 + |v|] == k + ":" + v
    ensures ParamAt(s, p).Some? && ParamAt(s, p).value.data.0 == k
    ensures var d := ParamAt(s, p).value.data.1; |v| <= |d| && d[..|v|] == v
  {
    var a, c := p + |k|, p + |k| + 1 + |v|;
    PairLaidOut(s, p, k, v);
    RunEndAt(s, p, IsWordChar, a);
    var b := RunEnd(s, a + 1, IsWordChar);
    assert c <= b;
    var d := s[a + 1..b];
    assert d[..|v|] == v by {
      forall i | 0 <= i < |v| ensures d[..|v|][i] == v[i] { assert d[i] == s[a + 1 + i]; }
    }
  }

  /** The characters of a `key:value` pair written at `p`. */
  lemma {:induction false} PairLaidOut(s: String, p: nat, k: String, v: String)
    requires |k| > 0 && AllWord(k) && |v| > 0 && AllWord(v)
    requires p + |k| + 1 + |v| <= |s| && s[p..p + |k| + 1 + |v|] == k + ":" + v
    ensures forall i :: p <= i < p + |k| ==> IsWordChar(s[i])
    ensures s[p + |k|] == ':' && s[p..p + |k|] == k
    ensures forall i :: p + |k| + 1 <= i < p + |k| + 1 + |v| ==> IsWordChar(s[i])
    ensures s[p + |k| + 1..p + |k| + 1 + |v|] == v
  {
    var w := k + ":" + v;
    var a, c := p + |k|, p + |k| + 1 + |v|;
    assert forall i :: p <= i < c ==> s[i] == s[p..c][i - p];
    forall i | p <= i < a ensures IsWordChar(s[i]) { assert w[i - p] == k[i - p]; }
    assert w[|k|] == ':';
    forall i | a + 1 <= i < c ensures IsWordChar(s[i]) { assert w[i - p] == v[i - a - 1]; }
    assert s[p..a] == k by { forall i | 0 <= i < |k| ensures s[p..a][i] == k[i] { assert w[i] == k[i]; } }
    assert s[a + 1..c] == v by {
      forall i | 0 <= i < |v| ensures s[a + 1..c][i] == v[i] { assert w[|k| + 1 + i] == v[i]; }
    }
  }

  /** A pair followed by the end of the text or by a character outside `\w` is reported whole. */
  lemma {:induction false} ParamAtWhole(s: String, p: nat, k: String, v: String)
    requires |k| > 0 && AllWord(k) && |v| > 0 && AllWord(v)
    requires p + |k| + 1 + |v| <= |s| && s[p..p + |k| + 1 + |v|] == k + ":" + v
    requires p + |k| + 1 + |v| < |s| ==> !IsWordChar(s[p + |k| + 1 + |v|])
    ensures ParamAt(s, p) == Some(Found(Span(p, p + |k| + 1 + |v|), (k, v)))
  {
    var a, c := p + |k|, p + |k| + 1 + |v|;
    PairLaidOut(s, p, k, v);
    RunEndAt(s, p, IsWordChar, a);
    RunEndAt(s, a + 1, IsWordChar, c);
  }

  /** Nothing is missed: every `key:value` pair of word runs in the parameter text starts inside a
      pair the loop reports. */
  lemma {:induction false} ParamsCover(s: String, p: nat, k: String, v: String)
    requires |k| > 0 && AllWord(k) && |v| > 0 && AllWord(v)
    requires p + |k| + 1 + |v| <= |s| && s[p..p + |k| + 1 + |v|] == k + ":" + v
    ensures var ms := FindAll(s, 0, ParamAt);
      exists i :: 0 <= i < |ms| && ms[i].span.start <= p < ms[i].span.end
  {
    ParamAtComplete(s, p, k, v);
    assert TryAt(s, p, ParamAt).Some?;
    FindAllCover(s, 0, ParamAt, p);
  }

  /** Where the text from `from` on is pairs joined by `|`: the first pair, then either the end
      of the text or `|` and the rest of the pairs. */
  lemma {:induction false} FirstPiece(s: String, from: nat, entries: seq<(String, String)>)
    requires |entries| > 0 && from <= |s|
    requires s[from..] == Join(Meta.Pieces(entries), "|")
    ensures var w := entries[0].0 + ":" + entries[0].1;
      from + |w| <= |s| && s[from..from + |w|] == w &&
      (|entries| == 1 ==> from + |w| == |s|) &&
      (|entries| > 1 ==>
         from + |w| < |s| && s[from + |w|] == '|' && s[from + |w| + 1..] == Join(Meta.Pieces(entries[1..]), "|"))
  {
    var ps := Meta.Pieces(entries);
    var w := entries[0].0 + ":" + entries[0].1;
    assert ps[0] == w;
    var t := s[from..];
    if |entries| == 1 {
      assert t == w;
    } else {
      var r := Join(ps[1..], "|");
      assert t == w + "|" + r;
      assert Meta.Pieces(entries[1..]) == ps[1..];
      assert s[from + |w|] == t[|w|];
      assert s[from + |w| + 1..] == t[|w| + 1..] == r;
    }
    assert s[from..from + |w|] == t[..|w|];
  }

  /** A whole pair at `from` is the first match `find` reports from there. */
  lemma {:induction false} ParamHead(s: String, from: nat, k: String, v: String)
    requires |k| > 0 && AllWord(k) && |v| > 0 && AllWord(v)
    requires from + |k| + 1 + |v| <= |s| && s[from..from + |k| + 1 + |v|] == k + ":" + v
    requires from + |k| + 1 + |v| < |s| ==> !IsWordChar(s[from + |k| + 1 + |v|])
    ensures Find(s, from, ParamAt) == Some(Found(Span(from, from + |k| + 1 + |v|), (k, v)))
  {
    ParamAtWhole(s, from, k, v);
  }

  /** No pair starts at a `|`. */
  lemma {:induction false} BarSkipped(s: String, b: nat)
    requires b < |s| && s[b] == '|'
    ensures TryAt(s, b, ParamAt).None?
  {
    assert RunEnd(s, b, IsWordChar) == b;
  }

  /** Pairs whose keys and values are non-empty runs of word characters. */
  predicate WordPairs(entries: seq<(String, String)>) {
    forall j :: 0 <= j < |entries| ==> Meta.Wordy(entries[j].0) && Meta.Wordy(entries[j].1)
  }

  /** From `from` on, the text is `key:value` pairs of word runs joined by `|`: `find` reports
      exactly those pairs, in order. */
  lemma {:induction false} ParamPairsFrom(s: String, from: nat, entries: seq<(String, String)>)
    requires |entries| > 0 && from <= |s| && WordPairs(entries)
    requires s[from..] == Join(Meta.Pieces(entries), "|")
    ensures DataOf(FindAll(s, from, ParamAt)) == entries
    decreases |entries|
  {
    if |entries| == 1 {
      ParamPairsOne(s, from, entries);
    } else {
      var next := ParamPairsStep(s, from, entries);
      ParamPairsFrom(s, next, entries[1..]);
      ConsEq(DataOf(FindAll(s, from, ParamAt)), DataOf(FindAll(s, next, ParamAt)), entries);
    }
  }

  /** A single pair from `from` to the end of the text is the one pair reported. */
  lemma {:induction false} ParamPairsOne(s: String, from: nat, entries: seq<(String, String)>)
    requires |entries| == 1 && from <= |s| && WordPairs(entries)
    requires s[from..] == Join(Meta.Pieces(entries), "|")
    ensures DataOf(FindAll(s, from, ParamAt)) == entries
  {
    var e := entries[0];
    assert Meta.Wordy(e.0) && Meta.Wordy(e.1);
    assert from + |e.0| + 1 + |e.1| == |s| && s[from..|s|] == e.0 + ":" + e.1 by {
      FirstPiece(s, from, entries);
    }
    ParamLast(s, from, e);
    SingleEq(DataOf(FindAll(s, from, ParamAt)), entries);
  }

  /** The first of several pairs is reported first; the rest of the pairs are laid out from `next` on. */
  lemma {:induction false} ParamPairsStep(s: String, from: nat, entries: seq<(String, String)>) returns (next: nat)
    requires |entries| > 1 && from <= |s| && WordPairs(entries)
    requires s[from..] == Join(Meta.Pieces(entries), "|")
    ensures next <= |s| && WordPairs(entries[1..]) && s[next..] == Join(Meta.Pieces(entries[1..]), "|")
    ensures DataOf(FindAll(s, from, ParamAt)) == [entries[0]] + DataOf(FindAll(s, next, ParamAt))
  {
    var e := entries[0];
    var b := from + |e.0| + 1 + |e.1|;
    next := b + 1;
    assert Meta.Wordy(e.0) && Meta.Wordy(e.1);
    assert s[from..b] == e.0 + ":" + e.1 && b < |s| && s[b] == '|' &&
      s[next..] == Join(Meta.Pieces(entries[1..]), "|") by { FirstPiece(s, from, entries); }
    WordPairsRest(entries);
    ParamNext(s, from, entries[0], next);
  }

  lemma {:induction false} WordPairsRest(entries: seq<(String, String)>)
    requires |entries| > 0 && WordPairs(entries)
    ensures WordPairs(entries[1..])
  {
    var rest := entries[1..];
    assert forall j :: 0 <= j < |rest| ==> rest[j] == entries[j + 1];
  }

  /** A pair `e` at `from` that ends the text is the one pair `find` reports from there. */
  lemma {:induction false} ParamLast(s: String, from: nat, e: (String, String))
    requires |e.0| > 0 && AllWord(e.0) && |e.1| > 0 && AllWord(e.1)
    requires from + |e.0| + 1 + |e.1| == |s| && s[from..|s|] == e.0 + ":" + e.1
    ensures DataOf(FindAll(s, from, ParamAt)) == [e]
  {
    ParamHead(s, from, e.0, e.1);
    DataFirst(s, from, ParamAt, Found(Span(from, |s|), e));
    assert FindAll(s, |s|, ParamAt) == [];
  }

  /** A pair `e` at `from` followed by `|` is the first pair `find` reports; it goes on past the `|`. */
  lemma {:induction false} ParamNext(s: String, from: nat, e: (String, String), next: nat)
    requires |e.0| > 0 && AllWord(e.0) && |e.1| > 0 && AllWord(e.1)
    requires next == from + |e.0| + 1 + |e.1| + 1 && next <= |s|
    requires s[from..next - 1] == e.0 + ":" + e.1 && s[next - 1] == '|'
    ensures DataOf(FindAll(s, from, ParamAt)) == [e] + DataOf(FindAll(s, next, ParamAt))
  {
    var b := from + |e.0| + 1 + |e.1|;
    ParamHead(s, from, e.0, e.1);
    DataFirst(s, from, ParamAt, Found(Span(from, b), e));
    BarSkipped(s, b);
    DataSkip(s, b, b + 1, ParamAt);
  }

  /** Parameters written as `key:value` pairs of word runs joined by `|` read back as the map that
      puts them in order: every key is present, with the value of the last pair that names it. */
  lemma {:induction false} ParamsOf(entries: seq<(String, String)>)
    requires |entries| > 0
    requires forall j :: 0 <= j < |entries| ==> Meta.Wordy(entries[j].0) && Meta.Wordy(entries[j].1)
    ensures Params(Join(Meta.Pieces(entries), "|")) == PutAll(map[], entries)
  {
    var s := Join(Meta.Pieces(entries), "|");
    assert s[0..] == s;
    assert WordPairs(entries);
    ParamPairsFrom(s, 0, entries);
  }

  // ---------------------------------------------------------------------------
  // Temporary tokens `$@s<index> ` and the pattern `\$@s\d+\s`
  // ---------------------------------------------------------------------------

  /** `TOKEN_START + index + " "`. */
  function Token(index: nat): (t: String)
    ensures |t| == |Decimal(index)| + 4 && t[0] == '$'
    ensures forall i :: 0 < i < |t| ==> t[i] != '$'
  {
    "$@s" + Decimal(index) + " "
  }

  function TokenAt(s: String, p: nat): (r: Option<Found<()>>)
    ensures r.Some? ==> r.value.span.start == p < r.value.span.end <= |s|
  {
    if p + 3 <= |s| && s[p] == '$' && s[p + 1] == '@' && s[p + 2] == 's' then
      var d := RunEnd(s, p + 3, IsDigit);
      if p + 3 < d < |s| && IsSpace(s[d]) then Some(Found(Span(p, d + 1), ())) else None
    else None
  }

  /** A token written by phase 1 is exactly what the token pattern matches there. */
  lemma {:induction false} TokenAtToken(s: String, p: nat, index: nat)
    requires p + |Token(index)| <= |s| && s[p..p + |Token(index)|] == Token(index)
    ensures TokenAt(s, p) == Some(Found(Span(p, p + |Token(index)|), ()))
  {
    var t := Token(index);
    var d := Decimal(index);
    assert forall i :: 0 <= i < |t| ==> s[p + i] == t[i];
    forall i | p + 3 <= i < p + 3 + |d| ensures IsDigit(s[i]) {
      assert s[i] == t[i - p] == d[i - p - 3];
    }
    assert s[p + 3 + |d|] == t[3 + |d|] == ' ';
    RunEndAt(s, p + 3, IsDigit, p + 3 + |d|);
  }

  /** A reported token is `$@s`, a non-empty run of digits and one whitespace character. */
  lemma {:induction false} TokenAtSound(s: String, p: nat)
    requires TokenAt(s, p).Some?
    ensures var e := TokenAt(s, p).value.span.end;
      p + 5 <= e && s[p] == '$' && s[p + 1] == '@' && s[p + 2] == 's' && IsSpace(s[e - 1]) &&
      forall i :: p + 3 <= i < e - 1 ==> IsDigit(s[i])
  {
  }

  /** Every `$@s`, non-empty run of digits and whitespace character at `p` is reported there. */
  lemma {:induction false} TokenAtComplete(s: String, p: nat, d: nat)
    requires p + 3 < d < |s| && s[p] == '$' && s[p + 1] == '@' && s[p + 2] == 's'
    requires (forall i :: p + 3 <= i < d ==> IsDigit(s[i])) && IsSpace(s[d])
    ensures TokenAt(s, p) == Some(Found(Span(p, d + 1), ()))
  {
    RunEndAt(s, p + 3, IsDigit, d);
  }

  /** Two different indices give tokens neither of which starts the other's text. */
  lemma {:induction false} TokensDiffer(t: String, a: nat, b: nat)
    requires a != b
    requires |Token(a)| <= |t| && t[..|Token(a)|] == Token(a)
    ensures !(|Token(b)| <= |t| && t[..|Token(b)|] == Token(b))
  {
    var ta, tb := Token(a), Token(b);
    var da, db := Decimal(a), Decimal(b);
    if |tb| <= |t| {
      var i: nat;
      if |da| == |db| {
        DecimalInjective(a, b);
        assert da != db;
        i :| i < |da| && da[i] != db[i];
        assert tb[3 + i] == db[i] && ta[3 + i] == da[i];
        i := 3 + i;
      } else if |db| < |da| {
        assert tb[3 + |db|] == ' ' && ta[3 + |db|] == da[|db|];
        i := 3 + |db|;
      } else {
        assert tb[3 + |da|] == db[|da|] && ta[3 + |da|] == ' ';
        i := 3 + |da|;
      }
      assert t[..|tb|][i] != tb[i] by {
        assert t[..|tb|][i] == t[..|ta|][i] == ta[i];
      }
    }
  }

  function TokenMatches(s: String): (ms: seq<Found<()>>)
    ensures Ordered(SpansOf(ms), |s|)
  {
    FindAll(s, 0, TokenAt)
  }

  function Empties(n: nat): (r: seq<String>)
    ensures |r| == n && forall i :: 0 <= i < n ==> r[i] == []
  {
    seq(n, i => [])
  }

  /** Phase 2's text: every token removed, everything else kept in order. */
  function StripTokens(s: String): String {
    var ms := TokenMatches(s);
    Splice(s, SpansOf(ms), Empties(|ms|))
  }

  // ---------------------------------------------------------------------------
  // nextIndex: a counter that wraps from 1000 back to 0
  // ---------------------------------------------------------------------------

  /** The index `nextIndex` returns when the counter holds `c`. */
  function Wrap(c: nat): nat {
    if c > 1000 then 0 else c
  }

  /** The counter after `n` calls of `nextIndex` from `c`. */
  function CounterAfter(c: nat, n: nat): nat {
    if n == 0 then c else Wrap(CounterAfter(c, n - 1)) + 1
  }

  /** The indices `n` successive calls of `nextIndex` return, starting from counter `c`. */
  function Indices(c: nat, n: nat): (r: seq<nat>)
    ensures |r| == n
  {
    if n == 0 then [] else Indices(c, n - 1) + [Wrap(CounterAfter(c, n - 1))]
  }

  lemma {:induction false} IndicesAt(c: nat, n: nat, j: nat)
    requires j < n
    ensures Indices(c, n)[j] == Wrap(CounterAfter(c, j))
  {
    if j < n - 1 {
      IndicesAt(c, n - 1, j);
    }
  }

  lemma {:induction false} ModStep(y: nat)
    ensures (y + 1) % 1001 == if y % 1001 == 1000 then 0 else y % 1001 + 1
  {
  }

  /** The `j`-th index is the first one plus `j`, modulo 1001. */
  lemma {:induction false} WrapCounter(c: nat, j: nat)
    ensures Wrap(CounterAfter(c, j)) == (Wrap(c) + j) % 1001
  {
    if j > 0 {
      WrapCounter(c, j - 1);
      ModStep(Wrap(c) + j - 1);
    }
  }

  /** `nextIndex` only returns values in 0..1000; successive calls count up by one and go from
      1000 back to 0; so any 1001 successive calls return pairwise different indices. */
  lemma {:induction false} IndicesWrap(c: nat, n: nat)
    ensures forall j :: 0 <= j < n ==> Indices(c, n)[j] <= 1000
    ensures forall j :: 0 <= j < n ==> Indices(c, n)[j] == (Wrap(c) + j) % 1001
    ensures forall j :: 0 < j < n ==> Indices(c, n)[j] == if Indices(c, n)[j - 1] == 1000 then 0 else Indices(c, n)[j - 1] + 1
    ensures n <= 1001 ==> forall i, j :: 0 <= i < j < n ==> Indices(c, n)[i] != Indices(c, n)[j]
  {
    forall j | 0 <= j < n ensures Indices(c, n)[j] == (Wrap(c) + j) % 1001 {
      IndicesAt(c, n, j);
      WrapCounter(c, j);
    }
    forall j | 0 < j < n
      ensures Indices(c, n)[j] == if Indices(c, n)[j - 1] == 1000 then 0 else Indices(c, n)[j - 1] + 1
    {
      ModStep(Wrap(c) + j - 1);
    }
    if n <= 1001 {
      forall i, j | 0 <= i < j < n ensures Indices(c, n)[i] != Indices(c, n)[j] {
        ModDistinct(Wrap(c) + i, Wrap(c) + j);
      }
    }
  }

  /** Numbers less than 1001 apart leave different remainders. */
  lemma {:induction false} ModDistinct(x: nat, y: nat)
    requires x < y < x + 1001
    ensures x % 1001 != y % 1001
  {
    var q, r := x / 1001, y / 1001;
    assert x == 1001 * q + x % 1001;
    assert y == 1001 * r + y % 1001;
    assert y - x == 1001 * (r - q) + (y % 1001 - x % 1001);
  }

  // ---------------------------------------------------------------------------
  // Phase 1: processAnchoredObjects
  // ---------------------------------------------------------------------------

  /** What phase 1 records per anchored object: payload, index and parameters. */
  datatype Component = Component(value: String, index: nat, parameters: map<String, String>)

  /** `AnchoredObject`: the payload, its offset in the final text and its parameters. */
  datatype AnchoredObject = AnchoredObject(text: String, position: int, parameters: map<String, String>)

  /** What replaces the `i`-th anchored expression: its token, then its payload. */
  function Replacements(ms: seq<Found<Anchor>>, ids: seq<nat>): (reps: seq<String>)
    requires |ids| == |ms|
    ensures |reps| == |ms|
  {
    seq(|ms|, i requires 0 <= i < |ms| => Token(ids[i]) + ms[i].data.value)
  }

  function ComponentsOf(ms: seq<Found<Anchor>>, ids: seq<nat>): (cs: seq<Component>)
    requires |ids| == |ms|
    ensures |cs| == |ms|
  {
    seq(|ms|, i requires 0 <= i < |ms| => Component(ms[i].data.value, ids[i], Params(ms[i].data.params)))
  }

  /** Phase 1's text when the counter starts at `c`. */
  function Phase1Text(s: String, c: nat): String {
    var ms := AnchorMatches(s);
    Splice(s, SpansOf(ms), Replacements(ms, Indices(c, |ms|)))
  }

  /** Phase 1's components when the counter starts at `c`. */
  function Phase1Components(s: String, c: nat): seq<Component> {
    var ms := AnchorMatches(s);
    ComponentsOf(ms, Indices(c, |ms|))
  }

  /** Phase 1 removes the opening brace of every anchored expression and writes none: the text it
      returns holds one `{` fewer per anchored expression. So the phase-1 loop always ends. */
  lemma {:induction false} Phase1RemovesBraces(s: String, c: nat)
    ensures Occurrences(Phase1Text(s, c), '{') + |AnchorMatches(s)| == Occurrences(s, '{')
  {
    var ms := AnchorMatches(s);
    var spans, reps := SpansOf(ms), Replacements(ms, Indices(c, |ms|));
    FindAllReported(s, 0, AnchorAt);
    forall i | 0 <= i < |ms|
      ensures Occurrences(reps[i], '{') + 1 == Occurrences(s[spans[i].start..spans[i].end], '{')
    {
      var m := ms[i];
      assert AnchorAt(s, m.span.start) == Some(m);
      AnchorAtSound(s, m.span.start);
      AnchorExprOneBrace(s[m.span.start..m.span.end], m.data);
      TokenHasNoBrace(Indices(c, |ms|)[i]);
      OccurrencesConcat(Token(Indices(c, |ms|)[i]), m.data.value, '{');
    }
    SpliceOccurrences(s, spans, reps, '{');
  }

  /** An anchored expression holds one `{`, its opening one; its payload holds none. */
  lemma {:induction false} AnchorExprOneBrace(t: String, a: Anchor)
    requires IsAnchorExpr(t, a)
    ensures Occurrences(t, '{') == 1
    ensures Occurrences(a.value, '{') == 0
  {
    var lead := |t| - |a.params| - |a.value| - 4;
    var e := 2 + lead + |a.params|;
    var rest := t[1..];
    forall i | 0 <= i < |rest| ensures rest[i] != '{' {
      var j := i + 1;
      assert rest[i] == t[j];
      if 2 <= j < 2 + lead {
        assert t[j] == t[2..2 + lead][j - 2];
      } else if 2 + lead <= j < e {
        assert t[j] == t[2 + lead..e][j - 2 - lead];
      } else if e + 1 <= j < |t| - 1 {
        assert t[j] == t[e + 1..|t| - 1][j - e - 1];
      }
    }
    OccurrencesNone(rest, '{');
    OccurrencesNone(a.value, '{');
    OccurrencesConcat([t[0]], rest, '{');
    assert t == [t[0]] + rest;
  }

  lemma {:induction false} TokenHasNoBrace(index: nat)
    ensures Occurrences(Token(index), '{') == 0
  {
    var t := Token(index);
    var d := Decimal(index);
    forall i | 0 <= i < |t| ensures t[i] != '{' {
      if 3 <= i < 3 + |d| {
        assert t[i] == d[i - 3];
      }
    }
    OccurrencesNone(t, '{');
  }

  // ---------------------------------------------------------------------------
  // Phase 2: constructAnchoredObjects
  // ---------------------------------------------------------------------------

  /** The summed length of the tokens of `cs`. */
  function TokenLengths(cs: seq<Component>): nat {
    if |cs| == 0 then 0 else TokenLengths(cs[..|cs| - 1]) + |Token(cs[|cs| - 1].index)|
  }

  /** The `k`-th object: where its token first occurs, less the length of the earlier tokens. */
  function PlacedAt(s: String, cs: seq<Component>, k: nat): AnchoredObject
    requires k < |cs|
  {
    AnchoredObject(cs[k].value, IndexOf(s, Token(cs[k].index)) - TokenLengths(cs[..k]), cs[k].parameters)
  }

  function Placed(s: String, cs: seq<Component>): (objs: seq<AnchoredObject>)
    ensures |objs| == |cs|
  {
    seq(|cs|, k requires 0 <= k < |cs| => PlacedAt(s, cs, k))
  }

  class EmissionProcessor {
    /** The counter behind `nextIndex`; it is never reset, so indices keep counting across calls. */
    var internalIndex: nat
    /** The number of anchored expressions the last phase-1 pass replaced. */
    var expressionsProcessed: nat

    constructor ()
      ensures internalIndex == 0 && expressionsProcessed == 0
    {
      internalIndex := 0;
      expressionsProcessed := 0;
    }

    /** `nextIndex`: returns the counter, after first wrapping it to 0 when it is past 1000. */
    method NextIndex() returns (index: nat)
      modifies this
      ensures index == Wrap(old(internalIndex)) && index <= 1000
      ensures internalIndex == index + 1 && expressionsProcessed == old(expressionsProcessed)
    {
      if internalIndex > 1000 {
        internalIndex := 0;
      }
      index := internalIndex;
      internalIndex := internalIndex + 1;
    }

    /** `extractParameters`: puts every `key:value` pair into a fresh map, in the order found. */
    method ExtractParameters(input: String) returns (output: map<String, String>)
      ensures output == Params(input)
    {
      output := map[];
      var last := 0;
      ghost var found: seq<Found<(String, String)>> := [];
      var next := Find(input, last, ParamAt);
      while next.Some?
        invariant last <= |input| && next == Find(input, last, ParamAt)
        invariant FindAll(input, 0, ParamAt) == found + FindAll(input, last, ParamAt)
        invariant Ordered(SpansOf(found), |input|) && last == EndOf(SpansOf(found))
        invariant output == PutAll(map[], DataOf(found))
        decreases |input| - last
      {
        var m := next.value;
        FindAllStep(input, ParamAt, FindAll(input, 0, ParamAt), found, last);
        DataSnoc(found, m);
        PutAllSnoc(map[], DataOf(found), m.data);
        output := output[m.data.0 := m.data.1];
        found := found + [m];
        last := m.span.end;
        next := Find(input, last, ParamAt);
      }
      FindAllDone(input, ParamAt, FindAll(input, 0, ParamAt), found, last);
    }

    /** `processAnchoredObjects`: resets the counter of processed expressions, then replaces every
        anchored expression by its token and payload and records its components in match order. */
    method ProcessAnchoredObjects(input: String) returns (output: String, objects: seq<Component>)
      modifies this
      ensures output == Phase1Text(input, old(internalIndex))
      ensures objects == Phase1Components(input, old(internalIndex))
      ensures expressionsProcessed == |AnchorMatches(input)|
      ensures internalIndex == CounterAfter(old(internalIndex), |AnchorMatches(input)|)
    {
      expressionsProcessed := 0;
      objects := [];
      ghost var c := internalIndex;
      var sb: String := [];
      var last := 0;
      ghost var found: seq<Found<Anchor>> := [];
      var next := Find(input, last, AnchorAt);
      while next.Some?
        invariant last <= |input| && next == Find(input, last, AnchorAt)
        invariant AnchorMatches(input) == found + FindAll(input, last, AnchorAt)
        invariant Ordered(SpansOf(found), |input|) && last == EndOf(SpansOf(found))
        invariant expressionsProcessed == |found|
        invariant internalIndex == CounterAfter(c, |found|)
        invariant objects == ComponentsOf(found, Indices(c, |found|))
        invariant sb == Prefix(input, SpansOf(found), Replacements(found, Indices(c, |found|)))
        decreases |input| - last
      {
        var m := next.value;
        var parameters := ExtractParameters(m.data.params);
        var index := NextIndex();
        Phase1Step(input, c, found, last);
        objects := objects + [Component(m.data.value, index, parameters)];
        sb := sb + input[last..m.span.start] + (Token(index) + m.data.value);
        expressionsProcessed := expressionsProcessed + 1;
        found := found + [m];
        last := m.span.end;
        next := Find(input, last, AnchorAt);
      }
      FindAllDone(input, AnchorAt, AnchorMatches(input), found, last);
      output := sb + input[last..];
    }

    /** `constructAnchoredObjects`: places every component by the first occurrence of its token,
        less the length of the tokens before it, then removes every token from the text. */
    method ConstructAnchoredObjects(input: String, components: seq<Component>) returns (output: String, objects: seq<AnchoredObject>)
      ensures output == StripTokens(input)
      ensures objects == Placed(input, components)
    {
      objects := PlaceComponents(input, components);
      output := RemoveTokens(input);
    }

    /** The first loop of `constructAnchoredObjects`: each position is where the component's token
        first occurs, less the length of the tokens of the components before it. */
    method PlaceComponents(input: String, components: seq<Component>) returns (objects: seq<AnchoredObject>)
      ensures objects == Placed(input, components)
    {
      objects := [];
      var acc := 0;
      for k := 0 to |components|
        invariant acc == TokenLengths(components[..k]) && objects == Placed(input, components[..k])
      {
        var token := Token(components[k].index);
        var position := IndexOf(input, token) - acc;
        PlacedSnoc(input, components, k);
        acc := acc + |token|;
        objects := objects + [AnchoredObject(components[k].value, position, components[k].parameters)];
      }
      assert components[..|components|] == components;
    }

    /** The second loop of `constructAnchoredObjects`: every token replaced by nothing. */
    method RemoveTokens(input: String) returns (output: String)
      ensures output == StripTokens(input)
    {
      var sb: String := [];
      var last := 0;
      ghost var found: seq<Found<()>> := [];
      var next := Find(input, last, TokenAt);
      while next.Some?
        invariant next == Find(input, last, TokenAt) && StripState(input, found, last, sb)
        decreases |input| - last
      {
        var m := next.value;
        StripStep(input, found, last, sb);
        sb := sb + input[last..m.span.start];
        found := found + [m];
        last := m.span.end;
        next := Find(input, last, TokenAt);
      }
      FindAllDone(input, TokenAt, TokenMatches(input), found, last);
      output := sb + input[last..];
    }
  }

  lemma {:induction false} PlacedSnoc(s: String, cs: seq<Component>, k: nat)
    requires k < |cs|
    ensures TokenLengths(cs[..k + 1]) == TokenLengths(cs[..k]) + |Token(cs[k].index)|
    ensures Placed(s, cs[..k + 1]) == Placed(s, cs[..k]) + [PlacedAt(s, cs, k)]
  {
    assert cs[..k + 1][..k] == cs[..k];
    forall j | 0 <= j <= k ensures cs[..k + 1][..j] == cs[..j] && cs[..k][..j] == cs[..j] { }
  }

  /** Phase 2's loop after the tokens before `pos`: `sb` holds the text up to the last of them,
      each removed. */
  ghost predicate StripState(s: String, found: seq<Found<()>>, pos: nat, sb: String) {
    pos <= |s| && TokenMatches(s) == found + FindAll(s, pos, TokenAt) &&
    Ordered(SpansOf(found), |s|) && pos == EndOf(SpansOf(found)) &&
    sb == Prefix(s, SpansOf(found), Empties(|found|))
  }

  /** One more token removed: phase 2's invariants hold one match further on. */
  lemma {:induction false} StripStep(s: String, found: seq<Found<()>>, pos: nat, sb: String)
    requires Find(s, pos, TokenAt).Some? && StripState(s, found, pos, sb)
    ensures var m := Find(s, pos, TokenAt).value;
      pos <= m.span.start <= m.span.end <= |s| &&
      StripState(s, found + [m], m.span.end, sb + s[pos..m.span.start])
  {
    var m := Find(s, pos, TokenAt).value;
    FindAllStep(s, TokenAt, TokenMatches(s), found, pos);
    assert Empties(|found| + 1) == Empties(|found|) + [[]];
    PrefixSnoc(s, SpansOf(found), Empties(|found|), m.span, []);
  }

  /** One more anchored expression replaced: phase 1's invariants hold one match further on. */
  lemma {:induction false} Phase1Step(s: String, c: nat, found: seq<Found<Anchor>>, pos: nat)
    requires Find(s, pos, AnchorAt).Some?
    requires AnchorMatches(s) == found + FindAll(s, pos, AnchorAt)
    requires Ordered(SpansOf(found), |s|) && EndOf(SpansOf(found)) <= pos
    ensures var m := Find(s, pos, AnchorAt).value;
      var ids := Indices(c, |found|);
      var i := Wrap(CounterAfter(c, |found|));
      AnchorMatches(s) == (found + [m]) + FindAll(s, m.span.end, AnchorAt) &&
      Ordered(SpansOf(found + [m]), |s|) && EndOf(SpansOf(found + [m])) == m.span.end &&
      Indices(c, |found| + 1) == ids + [i] &&
      ComponentsOf(found + [m], ids + [i]) == ComponentsOf(found, ids) + [Component(m.data.value, i, Params(m.data.params))] &&
      Prefix(s, SpansOf(found + [m]), Replacements(found + [m], ids + [i])) ==
        Prefix(s, SpansOf(found), Replacements(found, ids)) + s[EndOf(SpansOf(found))..m.span.start] + (Token(i) + m.data.value)
  {
    var m := Find(s, pos, AnchorAt).value;
    var ids := Indices(c, |found|);
    var i := Wrap(CounterAfter(c, |found|));
    FindAllStep(s, AnchorAt, AnchorMatches(s), found, pos);
    ReplacementsSnoc(found, ids, m, i);
    ComponentsOfSnoc(found, ids, m, i);
    assert Prefix(s, SpansOf(found + [m]), Replacements(found + [m], ids + [i])) ==
        Prefix(s, SpansOf(found), Replacements(found, ids)) + s[EndOf(SpansOf(found))..m.span.start] + (Token(i) + m.data.value) by {
      PrefixSnoc(s, SpansOf(found), Replacements(found, ids), m.span, Token(i) + m.data.value);
    }
  }

  lemma {:induction false} ReplacementsSnoc(ms: seq<Found<Anchor>>, ids: seq<nat>, m: Found<Anchor>, i: nat)
    requires |ids| == |ms|
    ensures Replacements(ms + [m], ids + [i]) == Replacements(ms, ids) + [Token(i) + m.data.value]
  {
  }

  lemma {:induction false} ComponentsOfSnoc(ms: seq<Found<Anchor>>, ids: seq<nat>, m: Found<Anchor>, i: nat)
    requires |ids| == |ms|
    ensures ComponentsOf(ms + [m], ids + [i]) == ComponentsOf(ms, ids) + [Component(m.data.value, i, Params(m.data.params))]
  {
  }
}
