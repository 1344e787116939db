/** `ExpressionProcessor`: the conditional pass. A ternary `{ v ? a | b }` picks a branch by a
    boolean variable; a matching expression `{ v:val a |:val2 b | fallback }` picks a branch by a
    string variable. The legacy `TernaryProcessor` is the strict ternary variant.

    The ternary and matching patterns rely on the regex engine's greedy backtracking, so the
    matches a pass visits come from a scanner supplied with the processor: what the engine reports
    when it tries the pattern at one position, with the captured groups. The sub-pattern that
    splits the alternatives of a matching expression is deterministic and is scanned exactly. */
module Expressions {
  import opened Text
  import opened Outcomes
  import opened Rewriting
  import opened Scanning
  import opened Assoc

  /** Groups 1, 2 and 3 of a ternary match: the variable, the true text, the false text. */
  datatype TernaryGroups = TernaryGroups(name: String, valTrue: String, valFalse: String)

  /** Groups 2, 3, 4, 5 and 8 of a matching expression: the variable, the value it is compared to,
      the text for that value, the `|:value text` alternatives, and the fallback. */
  datatype MatchingGroups = MatchingGroups(name: String, value: String, payloadTrue: String,
                                           payloadFalse: String, fallback: String)

  type TernaryScanner = (String, nat) -> Option<Found<TernaryGroups>>
  type MatchingScanner = (String, nat) -> Option<Found<MatchingGroups>>

  /** A chosen text loses one trailing space, if it has one. */
  function DropTrailingSpace(c: String): (r: String)
    ensures c == r || c == r + " "
    ensures |c| > 0 && c[|c| - 1] == ' ' ==> |r| == |c| - 1
  {
    if |c| > 0 && c[|c| - 1] == ' ' then c[..|c| - 1] else c
  }

  // ---------------------------------------------------------------------------------------------
  // Ternary expressions

  /** The text a ternary expression becomes: a variable that is not set counts as false. */
  function TernaryChoice(g: TernaryGroups, booleans: map<String, bool>): String {
    var chosenBool := if g.name in booleans then booleans[g.name] else false;
    DropTrailingSpace(if chosenBool then g.valTrue else g.valFalse)
  }

  /** An unset variable and a variable set to false choose the same text. */
  lemma {:induction false} TernaryUnsetIsFalse(g: TernaryGroups, booleans: map<String, bool>)
    requires g.name !in booleans
    ensures TernaryChoice(g, booleans) == TernaryChoice(g, booleans[g.name := false])
    ensures TernaryChoice(g, booleans) == DropTrailingSpace(g.valFalse)
  {
  }

  function TernaryChoices(ms: seq<Found<TernaryGroups>>, booleans: map<String, bool>): (cs: seq<String>)
    ensures |cs| == |ms| && forall i :: 0 <= i < |ms| ==> cs[i] == TernaryChoice(ms[i].data, booleans)
  {
    seq(|ms|, i requires 0 <= i < |ms| => TernaryChoice(ms[i].data, booleans))
  }

  /** What one ternary pass returns: every match replaced by the text it chooses. */
  function TernaryText(s: String, at: TernaryScanner, booleans: map<String, bool>): String {
    var ms := Matches(s, at);
    Splice(s, SpansOf(ms), TernaryChoices(ms, booleans))
  }

  /** The texts a ternary pass substitutes are copied verbatim: none holds `$` or `\`. */
  predicate PlainTernaries(s: String, at: TernaryScanner, booleans: map<String, bool>) {
    forall m :: m in Matches(s, at) ==> Plain(TernaryChoice(m.data, booleans))
  }

  // ---------------------------------------------------------------------------------------------
  // The alternatives of a matching expression: `\|:(\w+)\s*([^\\|]+)\s*(\?\=\|)?`

  predicate IsPayloadChar(c: char) {
    c != '\\' && c != '|'
  }

  /** The regex engine's attempt at `p`. The word run, the whitespace run and the payload run are
      taken greedily; the trailing `\s*(\?\=\|)?` then matches nothing, since the payload stops only
      at `\`, `|` or the end. When the payload would be empty, the engine gives back one whitespace
      character to it, or else one word character, or fails. */
  function SubgroupAt(s: String, p: nat): (r: Option<Found<(String, String)>>)
    ensures r.Some? ==> r.value.span.start == p < r.value.span.end <= |s|
    ensures r.Some? ==> |r.value.data.0| > 0 && AllWord(r.value.data.0) && |r.value.data.1| > 0
  {
    if p + 2 <= |s| && s[p] == '|' && s[p + 1] == ':' then
      var w := RunEnd(s, p + 2, IsWordChar);
      var e := RunEnd(s, w, IsSpace);
      var f := RunEnd(s, e, IsPayloadChar);
      if w == p + 2 then None
      else if f > e then Some(Found(Span(p, f), (s[p + 2..w], s[e..f])))
      else if e > w then Some(Found(Span(p, e), (s[p + 2..w], s[e - 1..e])))
      else if w > p + 3 then Some(Found(Span(p, w), (s[p + 2..w - 1], s[w - 1..w])))
      else None
    else None
  }

  /** A reported alternative is written in the text as `|:`, its value, a run of whitespace and
      its text; the text holds neither `|` nor `\` and runs up to the next of them or the end. */
  lemma {:induction false} SubgroupAtSound(s: String, p: nat)
    requires SubgroupAt(s, p).Some?
    ensures var m := SubgroupAt(s, p).value; var v, t, f := m.data.0, m.data.1, m.span.end;
      s[p] == '|' && s[p + 1] == ':' && p + 2 + |v| <= f - |t| &&
      s[p + 2..p + 2 + |v|] == v && s[f - |t|..f] == t &&
      (forall i :: p + 2 + |v| <= i < f - |t| ==> IsSpace(s[i])) &&
      (forall i :: 0 <= i < |t| ==> IsPayloadChar(t[i])) &&
      (f < |s| ==> !IsPayloadChar(s[f]))
  {
    var w := RunEnd(s, p + 2, IsWordChar);
    var e := RunEnd(s, w, IsSpace);
    var f := RunEnd(s, e, IsPayloadChar);
    var t := SubgroupAt(s, p).value.data.1;
    if f > e {
      forall i | 0 <= i < |t| ensures IsPayloadChar(t[i]) { assert t[i] == s[e + i]; }
    }
  }

  /** The alternative pattern matches at `p` exactly when the text there starts with `|:`, a word
      character and one more character that may belong to a text. */
  lemma {:induction false} SubgroupAtWhen(s: String, p: nat)
    ensures SubgroupAt(s, p).Some? <==>
      p + 4 <= |s| && s[p] == '|' && s[p + 1] == ':' && IsWordChar(s[p + 2]) && IsPayloadChar(s[p + 3])
  {
    if p + 4 <= |s| && s[p] == '|' && s[p + 1] == ':' && IsWordChar(s[p + 2]) {
      var w := RunEnd(s, p + 2, IsWordChar);
      if w == p + 3 {
        var e := RunEnd(s, w, IsSpace);
        if e == w && IsPayloadChar(s[w]) {
          assert RunEnd(s, e, IsPayloadChar) > e;
        }
      }
    }
  }

  /** The `(value, text)` pairs `extractMatchPairs` collects, in order. */
  function MatchPairs(s: String): seq<(String, String)> {
    DataOf(FindAll(s, 0, SubgroupAt))
  }

  /** One alternative as it is written: `|:value text`. */
  function Alternative(a: (String, String)): String {
    "|:" + a.0 + " " + a.1
  }

  function Alternatives(alts: seq<(String, String)>): String {
    if |alts| == 0 then [] else Alternative(alts[0]) + Alternatives(alts[1..])
  }

  /** An alternative that reads back as written: a word for its value, and a text that does not
      start with whitespace and holds neither `|` nor `\`. */
  predicate Readable(a: (String, String)) {
    |a.0| > 0 && AllWord(a.0) && |a.1| > 0 && !IsSpace(a.1[0]) &&
    forall i :: 0 <= i < |a.1| ==> IsPayloadChar(a.1[i])
  }

  /** Written alternatives read back as the pairs they were written from. */
  lemma {:induction false} AlternativesRoundTrip(alts: seq<(String, String)>)
    requires forall i :: 0 <= i < |alts| ==> Readable(alts[i])
    ensures MatchPairs(Alternatives(alts)) == alts
  {
    AlternativesScan([], alts);
    assert [] + Alternatives(alts) == Alternatives(alts);
  }

  lemma {:induction false} AlternativesScan(x: String, alts: seq<(String, String)>)
    requires forall i :: 0 <= i < |alts| ==> Readable(alts[i])
    ensures DataOf(FindAll(x + Alternatives(alts), |x|, SubgroupAt)) == alts
    decreases |alts|
  {
    var s := x + Alternatives(alts);
    if |alts| == 0 {
      assert |s| == |x|;
      assert FindAll(s, |x|, SubgroupAt) == [];
    } else {
      var a, tl := alts[0], alts[1..];
      var rest := Alternatives(tl);
      var y := x + Alternative(a);
      ConcatAssoc(x, Alternative(a), rest);
      assert rest == [] || rest[0] == '|';
      AlternativeAt(s, x, a, rest);
      var m := Found(Span(|x|, |y|), a);
      assert Find(s, |x|, SubgroupAt) == Some(m);
      var later := FindAll(s, |y|, SubgroupAt);
      assert FindAll(s, |x|, SubgroupAt) == [m] + later;
      assert forall i :: 0 <= i < |tl| ==> Readable(tl[i]);
      AlternativesScan(y, tl);
      DataCons(m, later);
      ConsTail(alts);
    }
  }

  /** A written alternative, followed by the end or by the next `|`, is one match. */
  lemma {:induction false} AlternativeAt(s: String, x: String, a: (String, String), rest: String)
    requires Readable(a) && s == x + Alternative(a) + rest && (rest == [] || rest[0] == '|')
    ensures SubgroupAt(s, |x|) == Some(Found(Span(|x|, |x| + |Alternative(a)|), a))
  {
    var p := |x|;
    var w := p + 2 + |a.0|;
    var e := w + 1;
    var f := e + |a.1|;
    AlternativeLayout(s, x, a, rest, p, w, e, f);
    RunEndAt(s, p + 2, IsWordChar, w);
    RunEndAt(s, w, IsSpace, e);
    RunEndAt(s, e, IsPayloadChar, f);
  }

  lemma {:induction false} AlternativeShape(a: (String, String))
    ensures var alt := Alternative(a);
      |alt| == 3 + |a.0| + |a.1| && alt[0] == '|' && alt[1] == ':' && alt[2 + |a.0|] == ' ' &&
      alt[2..2 + |a.0|] == a.0 && alt[3 + |a.0|..|alt|] == a.1
  {
  }

  /** Where the parts of a written alternative lie in the text. */
  lemma {:induction false} AlternativeLayout(s: String, x: String, a: (String, String), rest: String, p: nat, w: nat, e: nat, f: nat)
    requires Readable(a) && s == x + Alternative(a) + rest && (rest == [] || rest[0] == '|')
    requires p == |x| && w == p + 2 + |a.0| && e == w + 1 && f == e + |a.1|
    ensures f == |x| + |Alternative(a)| <= |s|
    ensures s[p] == '|' && s[p + 1] == ':' && s[w] == ' '
    ensures s[p + 2..w] == a.0 && s[e..f] == a.1
    ensures forall i :: p + 2 <= i < w ==> IsWordChar(s[i])
    ensures forall i :: e <= i < f ==> IsPayloadChar(s[i])
    ensures f < |s| ==> !IsPayloadChar(s[f])
  {
    var alt := Alternative(a);
    AlternativeShape(a);
    assert s[p..f] == alt by { assert s == (x + alt) + rest; }
    assert s[p] == alt[0] && s[p + 1] == alt[1] && s[w] == alt[2 + |a.0|] by {
      assert s[p..f][0] == s[p] && s[p..f][1] == s[p + 1] && s[p..f][2 + |a.0|] == s[w];
    }
    SliceOfSlice(s, p, f, 2, 2 + |a.0|);
    SliceOfSlice(s, p, f, 3 + |a.0|, |alt|);
    forall i | p + 2 <= i < w ensures IsWordChar(s[i]) { assert s[i] == s[p + 2..w][i - p - 2]; }
    forall i | e <= i < f ensures IsPayloadChar(s[i]) { assert s[i] == s[e..f][i - e]; }
    if f < |s| {
      assert s == (x + alt) + rest && f == |x + alt|;
      assert s[f] == rest[0];
    }
  }

  // ---------------------------------------------------------------------------------------------
  // Matching expressions

  /** The variable's value, with `null` read as the empty text. */
  function Expected(g: MatchingGroups, variables: map<String, String>): String {
    if g.name in variables then variables[g.name] else []
  }

  /** The text a matching expression becomes. An unset or empty variable takes the fallback; a
      variable equal to the first value takes the first text; otherwise the first alternative,
      left to right, whose value equals the variable; otherwise the fallback. */
  function MatchingChoice(g: MatchingGroups, variables: map<String, String>): String {
    var expected := Expected(g, variables);
    var pairs := MatchPairs(g.payloadFalse);
    var i := FirstWith(pairs, expected);
    DropTrailingSpace(
      if expected == [] then g.fallback
      else if expected == g.value then g.payloadTrue
      else if |g.payloadFalse| != 0 && i < |pairs| then pairs[i].1
      else g.fallback)
  }

  /** A matching expression written out with readable alternatives chooses as follows: an unset or
      empty variable takes the fallback, the first value takes the first text, otherwise the first
      alternative naming the variable's value wins, and the fallback is taken when none names it. */
  lemma {:induction false} MatchingChoiceOf(name: String, value: String, payloadTrue: String,
                         alts: seq<(String, String)>, fallback: String, variables: map<String, String>)
    requires forall i :: 0 <= i < |alts| ==> Readable(alts[i])
    ensures var g := MatchingGroups(name, value, payloadTrue, Alternatives(alts), fallback);
      var r := MatchingChoice(g, variables);
      var e := if name in variables then variables[name] else [];
      (e == [] ==> r == DropTrailingSpace(fallback)) &&
      (e != [] && e == value ==> r == DropTrailingSpace(payloadTrue)) &&
      (e != [] && e != value ==>
        (forall i :: 0 <= i < |alts| && alts[i].0 == e && (forall j :: 0 <= j < i ==> alts[j].0 != e) ==>
          r == DropTrailingSpace(alts[i].1)) &&
        ((forall i :: 0 <= i < |alts| ==> alts[i].0 != e) ==> r == DropTrailingSpace(fallback)))
  {
    AlternativesRoundTrip(alts);
    var e := if name in variables then variables[name] else [];
    var k := FirstWith(alts, e);
    if k < |alts| {
      assert |alts[k].0| > 0;
      assert |Alternatives(alts)| != 0;
    }
    forall i | 0 <= i < |alts| && alts[i].0 == e && (forall j :: 0 <= j < i ==> alts[j].0 != e)
      ensures k == i
    {
    }
  }

  function MatchingChoices(ms: seq<Found<MatchingGroups>>, variables: map<String, String>): (cs: seq<String>)
    ensures |cs| == |ms| && forall i :: 0 <= i < |ms| ==> cs[i] == MatchingChoice(ms[i].data, variables)
  {
    seq(|ms|, i requires 0 <= i < |ms| => MatchingChoice(ms[i].data, variables))
  }

  /** What one matching pass returns: every match replaced by the text it chooses. */
  function MatchingText(s: String, at: MatchingScanner, variables: map<String, String>): String {
    var ms := Matches(s, at);
    Splice(s, SpansOf(ms), MatchingChoices(ms, variables))
  }

  predicate PlainMatchings(s: String, at: MatchingScanner, variables: map<String, String>) {
    forall m :: m in Matches(s, at) ==> Plain(MatchingChoice(m.data, variables))
  }

  /** A text in which neither pass finds anything comes back unchanged. */
  lemma {:induction false} NothingToChoose(s: String, tat: TernaryScanner, mat: MatchingScanner,
                        booleans: map<String, bool>, variables: map<String, String>)
    requires Matches(s, tat) == [] && Matches(s, mat) == []
    ensures TernaryText(s, tat, booleans) == s
    ensures MatchingText(s, mat, variables) == s
    ensures LegacyTernaryText(s, tat, booleans) == Ok(s)
  {
    assert SpansOf<TernaryGroups>([]) == [] && SpansOf<MatchingGroups>([]) == [];
    assert Splice(s, [], []) == s by { assert s[0..] == s; }
  }

  /** One more match rewritten: the buffer grows by the gap before it and its replacement. */
  lemma {:induction false} RewriteStep<T>(s: String, at: (String, nat) -> Option<Found<T>>, all: seq<Found<T>>,
                       found: seq<Found<T>>, pos: nat, reps: seq<String>, y: String)
    requires Find(s, pos, at).Some?
    requires all == found + FindAll(s, pos, at)
    requires Ordered(SpansOf(found), |s|) && EndOf(SpansOf(found)) <= pos && |reps| == |found|
    ensures var m := Find(s, pos, at).value;
      all == (found + [m]) + FindAll(s, m.span.end, at) &&
      Ordered(SpansOf(found + [m]), |s|) && EndOf(SpansOf(found + [m])) == m.span.end &&
      Prefix(s, SpansOf(found + [m]), reps + [y]) ==
        Prefix(s, SpansOf(found), reps) + s[EndOf(SpansOf(found))..m.span.start] + y
  {
    var m := Find(s, pos, at).value;
    FindAllStep(s, at, all, found, pos);
    PrefixSnoc(s, SpansOf(found), reps, m.span, y);
  }

  class ExpressionProcessor {
    /** What the ternary pattern reports at a position. */
    const ternaryAt: TernaryScanner
    /** What the matching pattern reports at a position. */
    const matchingAt: MatchingScanner
    /** The number of expressions substituted since the last `process` began. */
    var expressionsProcessed: nat

    constructor (ternaryAt: TernaryScanner, matchingAt: MatchingScanner)
      ensures this.ternaryAt == ternaryAt && this.matchingAt == matchingAt
      ensures expressionsProcessed == 0
    {
      this.ternaryAt := ternaryAt;
      this.matchingAt := matchingAt;
      expressionsProcessed := 0;
    }

    /** `process`: resets the counter, runs the ternary pass, then the matching pass on its output. */
    method Process(input: String, booleans: map<String, bool>, variables: map<String, String>)
      returns (output: String)
      requires PlainTernaries(input, ternaryAt, booleans)
      requires PlainMatchings(TernaryText(input, ternaryAt, booleans), matchingAt, variables)
      modifies this
      ensures output == MatchingText(TernaryText(input, ternaryAt, booleans), matchingAt, variables)
      ensures expressionsProcessed == |Matches(input, ternaryAt)| +
        |Matches(TernaryText(input, ternaryAt, booleans), matchingAt)|
    {
      expressionsProcessed := 0;
      output := ProcessTernary(input, booleans);
      output := ProcessMatching(output, variables);
    }

    /** `processTernary`: one substitution per match, counted. */
    method ProcessTernary(input: String, booleans: map<String, bool>) returns (output: String)
      requires PlainTernaries(input, ternaryAt, booleans)
      modifies this
      ensures output == TernaryText(input, ternaryAt, booleans)
      ensures expressionsProcessed == old(expressionsProcessed) + |Matches(input, ternaryAt)|
    {
      var sb: String := [];
      var last := 0;
      ghost var found: seq<Found<TernaryGroups>> := [];
      var next := Find(input, last, ternaryAt);
      while next.Some?
        invariant last <= |input| && next == Find(input, last, ternaryAt)
        invariant Matches(input, ternaryAt) == found + FindAll(input, last, ternaryAt)
        invariant Ordered(SpansOf(found), |input|) && last == EndOf(SpansOf(found))
        invariant expressionsProcessed == old(expressionsProcessed) + |found|
        invariant sb == Prefix(input, SpansOf(found), TernaryChoices(found, booleans))
        decreases |input| - last
      {
        var m := next.value;
        var chosenBool := if m.data.name in booleans then booleans[m.data.name] else false;
        var chosen := DropTrailingSpace(if chosenBool then m.data.valTrue else m.data.valFalse);
        TernaryStep(input, booleans, found, last);
        sb := sb + input[last..m.span.start] + chosen;
        expressionsProcessed := expressionsProcessed + 1;
        found := found + [m];
        last := m.span.end;
        next := Find(input, last, ternaryAt);
      }
      FindAllDone(input, ternaryAt, Matches(input, ternaryAt), found, last);
      output := sb + input[last..];
    }

    lemma {:induction false} TernaryStep(s: String, booleans: map<String, bool>, found: seq<Found<TernaryGroups>>, pos: nat)
      requires Find(s, pos, ternaryAt).Some?
      requires Matches(s, ternaryAt) == found + FindAll(s, pos, ternaryAt)
      requires Ordered(SpansOf(found), |s|) && EndOf(SpansOf(found)) == pos
      ensures var m := Find(s, pos, ternaryAt).value;
        Matches(s, ternaryAt) == (found + [m]) + FindAll(s, m.span.end, ternaryAt) &&
        Ordered(SpansOf(found + [m]), |s|) && EndOf(SpansOf(found + [m])) == m.span.end &&
        Prefix(s, SpansOf(found + [m]), TernaryChoices(found + [m], booleans)) ==
          Prefix(s, SpansOf(found), TernaryChoices(found, booleans)) + s[pos..m.span.start] +
          TernaryChoice(m.data, booleans)
    {
      var m := Find(s, pos, ternaryAt).value;
      var cs := TernaryChoices(found, booleans);
      var c := TernaryChoice(m.data, booleans);
      RewriteStep(s, ternaryAt, Matches(s, ternaryAt), found, pos, cs, c);
      SnocEq(TernaryChoices(found + [m], booleans), cs, c);
    }

    /** `processMatching`: each match takes the text `MatchingChoice` names; the labelled
        `continue outer` of the source is the early exit of the search over the alternatives. */
    method ProcessMatching(input: String, variables: map<String, String>) returns (output: String)
      requires PlainMatchings(input, matchingAt, variables)
      modifies this
      ensures output == MatchingText(input, matchingAt, variables)
      ensures expressionsProcessed == old(expressionsProcessed) + |Matches(input, matchingAt)|
    {
      var sb: String := [];
      var last := 0;
      ghost var found: seq<Found<MatchingGroups>> := [];
      var next := Find(input, last, matchingAt);
      while next.Some?
        invariant last <= |input| && next == Find(input, last, matchingAt)
        invariant Matches(input, matchingAt) == found + FindAll(input, last, matchingAt)
        invariant Ordered(SpansOf(found), |input|) && last == EndOf(SpansOf(found))
        invariant expressionsProcessed == old(expressionsProcessed) + |found|
        invariant sb == Prefix(input, SpansOf(found), MatchingChoices(found, variables))
        decreases |input| - last
      {
        var m := next.value;
        var chosen := SelectBranch(m.data, variables);
        MatchingStep(input, variables, found, last);
        sb := Accept(chosen, sb, input[last..m.span.start]);
        found := found + [m];
        last := m.span.end;
        next := Find(input, last, matchingAt);
      }
      FindAllDone(input, matchingAt, Matches(input, matchingAt), found, last);
      output := sb + input[last..];
    }

    /** The branch selection inside the loop of `processMatching`, up to the call of `accept`. */
    method SelectBranch(g: MatchingGroups, variables: map<String, String>) returns (chosen: String)
      ensures DropTrailingSpace(chosen) == MatchingChoice(g, variables)
    {
      var expectedValue := if g.name in variables then variables[g.name] else [];
      if expectedValue == [] {
        chosen := g.fallback;
      } else if expectedValue == g.value {
        chosen := g.payloadTrue;
      } else if |g.payloadFalse| != 0 {
        var matchPairs := ExtractMatchPairs(g.payloadFalse);
        var i := 0;
        while i < |matchPairs| && matchPairs[i].0 != expectedValue
          invariant i <= |matchPairs|
          invariant forall j :: 0 <= j < i ==> matchPairs[j].0 != expectedValue
        {
          i := i + 1;
        }
        assert i == FirstWith(matchPairs, expectedValue);
        chosen := if i < |matchPairs| then matchPairs[i].1 else g.fallback;
      } else {
        chosen := g.fallback;
      }
    }

    lemma {:induction false} MatchingStep(s: String, variables: map<String, String>, found: seq<Found<MatchingGroups>>, pos: nat)
      requires Find(s, pos, matchingAt).Some?
      requires Matches(s, matchingAt) == found + FindAll(s, pos, matchingAt)
      requires Ordered(SpansOf(found), |s|) && EndOf(SpansOf(found)) == pos
      ensures var m := Find(s, pos, matchingAt).value;
        Matches(s, matchingAt) == (found + [m]) + FindAll(s, m.span.end, matchingAt) &&
        Ordered(SpansOf(found + [m]), |s|) && EndOf(SpansOf(found + [m])) == m.span.end &&
        Prefix(s, SpansOf(found + [m]), MatchingChoices(found + [m], variables)) ==
          Prefix(s, SpansOf(found), MatchingChoices(found, variables)) + s[pos..m.span.start] +
          MatchingChoice(m.data, variables)
    {
      var m := Find(s, pos, matchingAt).value;
      var cs := MatchingChoices(found, variables);
      var c := MatchingChoice(m.data, variables);
      RewriteStep(s, matchingAt, Matches(s, matchingAt), found, pos, cs, c);
      SnocEq(MatchingChoices(found + [m], variables), cs, c);
    }

    /** `accept`: drops one trailing space, appends the gap and the chosen text, counts one. */
    method Accept(chosen: String, sb: String, gap: String) returns (out: String)
      modifies this
      ensures out == sb + gap + DropTrailingSpace(chosen)
      ensures expressionsProcessed == old(expressionsProcessed) + 1
    {
      var c := chosen;
      if |c| > 0 && c[|c| - 1] == ' ' {
        c := c[..|c| - 1];
      }
      out := sb + gap + c;
      expressionsProcessed := expressionsProcessed + 1;
    }

    /** `extractMatchPairs`: the `(value, text)` pair of every alternative, in order. */
    method ExtractMatchPairs(input: String) returns (output: seq<(String, String)>)
      ensures output == MatchPairs(input)
      ensures forall i :: 0 <= i < |output| ==> |output[i].0| > 0 && AllWord(output[i].0) && |output[i].1| > 0
    {
      output := [];
      var last := 0;
      ghost var found: seq<Found<(String, String)>> := [];
      var next := Find(input, last, SubgroupAt);
      while next.Some?
        invariant last <= |input| && next == Find(input, last, SubgroupAt)
        invariant FindAll(input, 0, SubgroupAt) == found + FindAll(input, last, SubgroupAt)
        invariant output == DataOf(found)
        decreases |input| - last
      {
        var m := next.value;
        PairsStep(input, found, last);
        output := output + [m.data];
        found := found + [m];
        last := m.span.end;
        next := Find(input, last, SubgroupAt);
      }
      FindAllDone(input, SubgroupAt, FindAll(input, 0, SubgroupAt), found, last);
      PairsWellFormed(input);
    }
  }

  lemma {:induction false} PairsStep(s: String, found: seq<Found<(String, String)>>, pos: nat)
    requires Find(s, pos, SubgroupAt).Some?
    requires FindAll(s, 0, SubgroupAt) == found + FindAll(s, pos, SubgroupAt)
    ensures var m := Find(s, pos, SubgroupAt).value;
      FindAll(s, 0, SubgroupAt) == (found + [m]) + FindAll(s, m.span.end, SubgroupAt) &&
      DataOf(found + [m]) == DataOf(found) + [m.data]
  {
    var m := Find(s, pos, SubgroupAt).value;
    assert FindAll(s, pos, SubgroupAt) == [m] + FindAll(s, m.span.end, SubgroupAt);
    ConcatAssoc(found, [m], FindAll(s, m.span.end, SubgroupAt));
    DataSnoc(found, m);
  }

  /** Every pair read off a text has a word for its value and a non-empty text. */
  lemma {:induction false} PairsWellFormed(s: String)
    ensures forall i :: 0 <= i < |MatchPairs(s)| ==>
      |MatchPairs(s)[i].0| > 0 && AllWord(MatchPairs(s)[i].0) && |MatchPairs(s)[i].1| > 0
  {
    FindAllReported(s, 0, SubgroupAt);
  }

  // ---------------------------------------------------------------------------------------------
  // The legacy strict ternary pass

  /** The position of the first match whose variable is not set, or -1. */
  function FirstUnbound(ms: seq<Found<TernaryGroups>>, booleans: map<String, bool>): (r: int)
    ensures -1 <= r < |ms|
    ensures r >= 0 ==> ms[r].data.name !in booleans
    ensures forall i :: 0 <= i < |ms| && (r < 0 || i < r) ==> ms[i].data.name in booleans
  {
    if |ms| == 0 then -1
    else if ms[0].data.name !in booleans then 0
    else
      var r := FirstUnbound(ms[1..], booleans);
      assert forall i :: 0 < i < |ms| ==> ms[i] == ms[1..][i - 1];
      if r < 0 then -1 else r + 1
  }

  /** What the strict pass returns: a processing fault as soon as a variable is not set. */
  function LegacyTernaryText(s: String, at: TernaryScanner, booleans: map<String, bool>): Result<String> {
    var ms := Matches(s, at);
    if FirstUnbound(ms, booleans) >= 0 then Err(ProcessingFault)
    else Ok(Splice(s, SpansOf(ms), TernaryChoices(ms, booleans)))
  }

  /** The strict pass fails exactly when some matched variable is not set; otherwise it agrees
      with the current pass, which reads an unset variable as false. */
  lemma {:induction false} StrictAgrees(s: String, at: TernaryScanner, booleans: map<String, bool>)
    ensures LegacyTernaryText(s, at, booleans).Err? <==>
      exists m :: m in Matches(s, at) && m.data.name !in booleans
    ensures LegacyTernaryText(s, at, booleans).Err? ==> LegacyTernaryText(s, at, booleans).fault == ProcessingFault
    ensures LegacyTernaryText(s, at, booleans).Ok? ==> LegacyTernaryText(s, at, booleans).value == TernaryText(s, at, booleans)
  {
    var ms := Matches(s, at);
    var r := FirstUnbound(ms, booleans);
    if r >= 0 {
      assert ms[r] in ms;
    } else {
      forall m | m in ms ensures m.data.name in booleans {
        var i :| 0 <= i < |ms| && ms[i] == m;
      }
    }
  }

  /** The substituted texts of the strict pass, up to the first unset variable, hold neither `$` nor `\`. */
  predicate PlainStrict(s: String, at: TernaryScanner, booleans: map<String, bool>) {
    var ms := Matches(s, at);
    var r := FirstUnbound(ms, booleans);
    forall i :: 0 <= i < (if r < 0 then |ms| else r) ==> Plain(ChoiceAt(ms, i, booleans))
  }

  function ChoiceAt(ms: seq<Found<TernaryGroups>>, i: nat, booleans: map<String, bool>): String
    requires i < |ms|
  {
    TernaryChoice(ms[i].data, booleans)
  }

  /** A `{` followed on the same line by a `}`: what `\{.*}` finds, `.` stopping at line terminators. */
  predicate BracePair(s: String, i: nat, j: nat) {
    i < j < |s| && s[i] == '{' && s[j] == '}' && forall k :: i < k < j ==> !IsLineTerminator(s[k])
  }

  ghost predicate HasBracePair(s: String) {
    exists i: nat, j: nat {:trigger BracePair(s, i, j)} :: BracePair(s, i, j)
  }

  /** Some `{` before `j` is followed by no line terminator up to `j`. */
  predicate OpenAt(s: String, j: nat)
    requires j <= |s|
  {
    exists i: nat :: i < j && s[i] == '{' && forall k :: i < k < j ==> !IsLineTerminator(s[k])
  }

  /** A brace opens at `j + 1` when `s[j]` is `{`, or when one was open at `j` and `s[j]` does not end the line. */
  lemma {:induction false} OpenNext(s: String, j: nat)
    requires j < |s|
    ensures OpenAt(s, j + 1) <==> !IsLineTerminator(s[j]) && (s[j] == '{' || OpenAt(s, j))
  {
    if OpenAt(s, j + 1) {
      var i: nat :| i < j + 1 && s[i] == '{' && forall k :: i < k < j + 1 ==> !IsLineTerminator(s[k]);
      if i < j {
        assert OpenAt(s, j);
      }
    }
    if !IsLineTerminator(s[j]) && s[j] == '{' {
      assert OpenAt(s, j + 1) by {
        assert j < j + 1 && s[j] == '{';
      }
    } else if !IsLineTerminator(s[j]) && OpenAt(s, j) {
      var i: nat :| i < j && s[i] == '{' && forall k :: i < k < j ==> !IsLineTerminator(s[k]);
      assert forall k :: i < k < j + 1 ==> !IsLineTerminator(s[k]);
    }
  }

  class TernaryProcessor {
    /** What the shorthand ternary pattern reports at a position. */
    const shortAt: TernaryScanner
    var expressionsProcessed: nat

    constructor (shortAt: TernaryScanner)
      ensures this.shortAt == shortAt && expressionsProcessed == 0
    {
      this.shortAt := shortAt;
      expressionsProcessed := 0;
    }

    /** `process`: resets the counter and runs the strict ternary pass. The string variables are
        accepted and not used. */
    method Process(input: String, booleans: map<String, bool>, variables: map<String, String>)
      returns (r: Result<String>)
      requires PlainStrict(input, shortAt, booleans)
      modifies this
      ensures r == LegacyTernaryText(input, shortAt, booleans)
      ensures r.Ok? ==> expressionsProcessed == |Matches(input, shortAt)|
      ensures r.Err? ==> expressionsProcessed == FirstUnbound(Matches(input, shortAt), booleans)
    {
      expressionsProcessed := 0;
      r := ProcessShorthand(input, booleans);
    }

    /** `processShorthand`: like the current ternary pass, except that an unset variable throws. */
    method ProcessShorthand(input: String, booleans: map<String, bool>) returns (r: Result<String>)
      requires PlainStrict(input, shortAt, booleans)
      modifies this
      ensures r == LegacyTernaryText(input, shortAt, booleans)
      ensures r.Ok? ==> expressionsProcessed == old(expressionsProcessed) + |Matches(input, shortAt)|
      ensures r.Err? ==>
        expressionsProcessed == old(expressionsProcessed) + FirstUnbound(Matches(input, shortAt), booleans)
    {
      var sb: String := [];
      var last := 0;
      ghost var found: seq<Found<TernaryGroups>> := [];
      var next := Find(input, last, shortAt);
      while next.Some?
        invariant last <= |input| && next == Find(input, last, shortAt)
        invariant Matches(input, shortAt) == found + FindAll(input, last, shortAt)
        invariant Ordered(SpansOf(found), |input|) && last == EndOf(SpansOf(found))
        invariant FirstUnbound(found, booleans) == -1
        invariant expressionsProcessed == old(expressionsProcessed) + |found|
        invariant sb == Prefix(input, SpansOf(found), TernaryChoices(found, booleans))
        decreases |input| - last
      {
        var m := next.value;
        if m.data.name !in booleans {
          StrictStop(input, booleans, found, last);
          return Err(ProcessingFault);
        }
        var chosen := DropTrailingSpace(if booleans[m.data.name] then m.data.valTrue else m.data.valFalse);
        StrictStep(input, booleans, found, last);
        sb := sb + input[last..m.span.start] + chosen;
        expressionsProcessed := expressionsProcessed + 1;
        found := found + [m];
        last := m.span.end;
        next := Find(input, last, shortAt);
      }
      StrictDone(input, booleans, found, last);
      r := Ok(sb + input[last..]);
    }

    lemma {:induction false} StrictStep(s: String, booleans: map<String, bool>, found: seq<Found<TernaryGroups>>, pos: nat)
      requires Find(s, pos, shortAt).Some? && Find(s, pos, shortAt).value.data.name in booleans
      requires Matches(s, shortAt) == found + FindAll(s, pos, shortAt)
      requires Ordered(SpansOf(found), |s|) && EndOf(SpansOf(found)) == pos
      requires FirstUnbound(found, booleans) == -1
      ensures var m := Find(s, pos, shortAt).value;
        Matches(s, shortAt) == (found + [m]) + FindAll(s, m.span.end, shortAt) &&
        Ordered(SpansOf(found + [m]), |s|) && EndOf(SpansOf(found + [m])) == m.span.end &&
        FirstUnbound(found + [m], booleans) == -1 &&
        Prefix(s, SpansOf(found + [m]), TernaryChoices(found + [m], booleans)) ==
          Prefix(s, SpansOf(found), TernaryChoices(found, booleans)) + s[pos..m.span.start] +
          TernaryChoice(m.data, booleans)
    {
      var m := Find(s, pos, shortAt).value;
      var cs := TernaryChoices(found, booleans);
      var c := TernaryChoice(m.data, booleans);
      RewriteStep(s, shortAt, Matches(s, shortAt), found, pos, cs, c);
      SnocEq(TernaryChoices(found + [m], booleans), cs, c);
      assert forall i :: 0 <= i < |found| ==> (found + [m])[i] == found[i];
      assert forall i :: 0 <= i < |found + [m]| ==> (found + [m])[i].data.name in booleans;
    }

    /** When `find` reports nothing more and every variable was set, the pass succeeds. */
    lemma {:induction false} StrictDone(s: String, booleans: map<String, bool>, found: seq<Found<TernaryGroups>>, pos: nat)
      requires Find(s, pos, shortAt).None?
      requires Matches(s, shortAt) == found + FindAll(s, pos, shortAt)
      requires FirstUnbound(found, booleans) == -1
      requires Ordered(SpansOf(found), |s|) && EndOf(SpansOf(found)) == pos
      ensures LegacyTernaryText(s, shortAt, booleans) ==
        Ok(Prefix(s, SpansOf(found), TernaryChoices(found, booleans)) + s[pos..])
    {
      FindAllDone(s, shortAt, Matches(s, shortAt), found, pos);
    }

    /** A match whose variable is not set ends the pass after the matches before it. */
    lemma {:induction false} StrictStop(s: String, booleans: map<String, bool>, found: seq<Found<TernaryGroups>>, pos: nat)
      requires Find(s, pos, shortAt).Some? && Find(s, pos, shortAt).value.data.name !in booleans
      requires Matches(s, shortAt) == found + FindAll(s, pos, shortAt)
      requires FirstUnbound(found, booleans) == -1
      ensures FirstUnbound(Matches(s, shortAt), booleans) == |found|
      ensures LegacyTernaryText(s, shortAt, booleans) == Err(ProcessingFault)
    {
      var all := Matches(s, shortAt);
      assert FindAll(s, pos, shortAt)[0] == Find(s, pos, shortAt).value;
      assert all[|found|] == Find(s, pos, shortAt).value;
      assert forall i :: 0 <= i < |found| ==> all[i] == found[i];
    }

    /** `checkInvalidPatternsRemaining`: a syntax fault exactly when a `{` is followed on the same
        line by a `}`. The scan keeps whether a `{` is open on the current line. */
    method CheckInvalidPatternsRemaining(input: String) returns (r: Result<()>)
      ensures r.Err? <==> HasBracePair(input)
      ensures r.Err? ==> r.fault == SyntaxFault
    {
      var open := false;
      var j := 0;
      while j < |input|
        invariant j <= |input|
        invariant open <==> OpenAt(input, j)
        invariant forall a: nat, b: nat :: b < j ==> !BracePair(input, a, b)
      {
        if input[j] == '}' && open {
          var i: nat :| i < j && input[i] == '{' && forall k :: i < k < j ==> !IsLineTerminator(input[k]);
          assert BracePair(input, i, j);
          return Err(SyntaxFault);
        }
        forall a: nat | true ensures !BracePair(input, a, j) {
          if BracePair(input, a, j) {
            assert OpenAt(input, j);
          }
        }
        OpenNext(input, j);
        open := !IsLineTerminator(input[j]) && (input[j] == '{' || open);
        j := j + 1;
      }
      r := Ok(());
    }
  }
}
