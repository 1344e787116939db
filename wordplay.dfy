/** `WordplayImpl`: the engine. It owns the boolean variables, the string variables and the injected
    values, and `process` runs the passes in a fixed order: it splits off the code section and folds
    its injections into the injected values, repeats the injection pass until a pass finds nothing,
    repeats the conditional pass until a pass finds nothing, repeats phase 1 of the anchored objects
    until a pass finds nothing, and runs phase 2 once on the final text.

    The injection and conditional loops end only when the text stops regenerating expressions
    (injecting `{>a}` for `a` makes the injection loop run for ever), so the model gives them a
    number of extra passes (`fuel`) and reports `Diverged` when it runs out. The phase-1 loop needs
    no such bound: every pass removes one `{` per anchored expression and writes none. */
module Wordplay {
  import opened Text
  import opened Outcomes
  import opened Rewriting
  import opened Scanning
  import opened Assoc
  import opened Meta
  import opened Code
  import opened Injection
  import opened Expressions
  import opened Emission

  /** `WordplayOutput`: the final text, the anchored objects in the order phase 1 found them, and
      the meta objects of the code section in line order (`null` without a code section). */
  datatype WordplayOutput = WordplayOutput(text: String, anchoredObjects: seq<AnchoredObject>,
                                           metaObjects: Option<seq<MetaObject>>)

  // ---------------------------------------------------------------------------------------------
  // What `process` computes

  /** The injected values after `process` put the code section's injections over them, in line order. */
  function Declared(injected: map<String, String>, parsed: Parsed): map<String, String> {
    if parsed.injections.Some? then PutAll(injected, parsed.injections.value) else injected
  }

  /** The injection loop: a pass, repeated while the pass before replaced something. After `fuel`
      repeats the source would still be looping; the model reports `Diverged`. */
  function InjectFix(s: String, injected: map<String, String>, fuel: nat): (r: Result<String>)
    ensures r.Ok? ==> InjectionMatches(r.value) == []
    ensures r.Err? ==> r.fault == InjectionFault || r.fault == Diverged
    decreases fuel
  {
    var t :- InjectSpec(s, injected);
    if |InjectionMatches(s)| == 0 then InjectNothing(s, injected); Ok(t)
    else if fuel == 0 then Err(Diverged)
    else InjectFix(t, injected, fuel - 1)
  }

  /** One round of the injection loop: a failing pass fails the loop; a pass that replaced nothing
      ends it; otherwise the loop goes on from the pass's text, or runs out of fuel. */
  lemma {:induction false} InjectFixUnfold(s: String, injected: map<String, String>, fuel: nat)
    ensures InjectSpec(s, injected).Err? ==> InjectFix(s, injected, fuel) == InjectSpec(s, injected)
    ensures InjectSpec(s, injected).Ok? && |InjectionMatches(s)| == 0 ==>
      InjectFix(s, injected, fuel) == InjectSpec(s, injected)
    ensures InjectSpec(s, injected).Ok? && |InjectionMatches(s)| != 0 ==>
      InjectFix(s, injected, fuel) ==
        if fuel == 0 then Err(Diverged) else InjectFix(InjectSpec(s, injected).value, injected, fuel - 1)
    ensures InjectPlain(s, injected, fuel) && InjectSpec(s, injected).Ok? && |InjectionMatches(s)| != 0 && fuel > 0 ==>
      InjectPlain(InjectSpec(s, injected).value, injected, fuel - 1)
  {
  }

  /** Every pass of the injection loop copies its values verbatim: none of them holds `$` or `\`. */
  predicate InjectPlain(s: String, injected: map<String, String>, fuel: nat)
    decreases fuel
  {
    PlainValues(s, injected) &&
    (InjectSpec(s, injected).Ok? && |InjectionMatches(s)| != 0 && fuel > 0 ==>
      InjectPlain(InjectSpec(s, injected).value, injected, fuel - 1))
  }

  /** The text one conditional pass (`ExpressionProcessor.process`) returns. */
  function PassText(s: String, tat: TernaryScanner, mat: MatchingScanner,
                    booleans: map<String, bool>, variables: map<String, String>): String
  {
    MatchingText(TernaryText(s, tat, booleans), mat, variables)
  }

  /** The count one conditional pass leaves in `expressionsProcessed`. */
  function PassCount(s: String, tat: TernaryScanner, mat: MatchingScanner, booleans: map<String, bool>): nat
  {
    |Matches(s, tat)| + |Matches(TernaryText(s, tat, booleans), mat)|
  }

  /** The conditional loop, bounded like the injection loop. */
  function ExpressionFix(s: String, tat: TernaryScanner, mat: MatchingScanner,
                         booleans: map<String, bool>, variables: map<String, String>, fuel: nat): (r: Result<String>)
    ensures r.Ok? ==> Matches(r.value, tat) == [] && Matches(r.value, mat) == []
    ensures r.Err? ==> r.fault == Diverged
    decreases fuel
  {
    if PassCount(s, tat, mat, booleans) == 0 then
      PassSettled(s, tat, mat, booleans, variables);
      Ok(PassText(s, tat, mat, booleans, variables))
    else if fuel == 0 then Err(Diverged)
    else ExpressionFix(PassText(s, tat, mat, booleans, variables), tat, mat, booleans, variables, fuel - 1)
  }

  /** One round of the conditional loop that substituted something: the loop goes on from the
      pass's text. */
  lemma {:induction false} ExpressionFixStep(s: String, tat: TernaryScanner, mat: MatchingScanner,
                                             booleans: map<String, bool>, variables: map<String, String>, fuel: nat)
    requires PassCount(s, tat, mat, booleans) != 0 && fuel > 0
    ensures ExpressionFix(s, tat, mat, booleans, variables, fuel) ==
      ExpressionFix(PassText(s, tat, mat, booleans, variables), tat, mat, booleans, variables, fuel - 1)
    ensures ExpressionPlain(s, tat, mat, booleans, variables, fuel) ==>
      ExpressionPlain(PassText(s, tat, mat, booleans, variables), tat, mat, booleans, variables, fuel - 1)
  {
  }

  /** Every pass of the conditional loop copies the texts it chooses verbatim. */
  predicate ExpressionPlain(s: String, tat: TernaryScanner, mat: MatchingScanner,
                            booleans: map<String, bool>, variables: map<String, String>, fuel: nat)
    decreases fuel
  {
    PlainTernaries(s, tat, booleans) &&
    PlainMatchings(TernaryText(s, tat, booleans), mat, variables) &&
    (PassCount(s, tat, mat, booleans) != 0 && fuel > 0 ==>
      ExpressionPlain(PassText(s, tat, mat, booleans, variables), tat, mat, booleans, variables, fuel - 1))
  }

  /** The phase-1 loop from counter `c`: the marked text, the components found before (`acc`) and
      by every pass in order, and the counter afterwards. The loop ends on a text with no anchored
      expression left, and keeps what was found before it in front. */
  function AnchorFix(s: String, c: nat, acc: seq<Component>): (r: (String, seq<Component>, nat))
    ensures AnchorMatches(r.0) == []
    ensures |acc| <= |r.1| && r.1[..|acc|] == acc
    decreases Occurrences(s, '{')
  {
    var n := |AnchorMatches(s)|;
    if n == 0 then
      AnchorFixBase(s, c, acc);
      (Phase1Text(s, c), acc + Phase1Components(s, c), CounterAfter(c, n))
    else
      Phase1RemovesBraces(s, c);
      var found := Phase1Components(s, c);
      var r := AnchorFix(Phase1Text(s, c), CounterAfter(c, n), acc + found);
      PrefixOfPrefix(r.1, acc, found);
      r
  }

  /** A sequence that starts with `a + b` starts with `a`. */
  lemma {:induction false} PrefixOfPrefix<T>(x: seq<T>, a: seq<T>, b: seq<T>)
    requires |a + b| <= |x| && x[..|a + b|] == a + b
    ensures |a| <= |x| && x[..|a|] == a
  {
    assert x[..|a|] == x[..|a + b|][..|a|];
  }

  /** The last pass of the phase-1 loop. */
  lemma {:induction false} AnchorFixBase(s: String, c: nat, acc: seq<Component>)
    requires |AnchorMatches(s)| == 0
    ensures AnchorMatches(Phase1Text(s, c)) == []
    ensures acc + Phase1Components(s, c) == acc
  {
    Phase1Settled(s, c);
    assert acc + Phase1Components(s, c) == acc;
  }

  /** Phase 1 on a text without anchored expressions changes nothing and finds nothing. */
  lemma {:induction false} Phase1Settled(s: String, c: nat)
    requires AnchorMatches(s) == []
    ensures Phase1Text(s, c) == s && Phase1Components(s, c) == []
  {
    assert SpansOf<Anchor>([]) == [] && Replacements([], Indices(c, 0)) == [];
    assert Splice(s, [], []) == s by { assert s[0..] == s; }
  }

  /** The data section after the injection and conditional loops, under the injections in effect. */
  function RenderedData(data: String, booleans: map<String, bool>, variables: map<String, String>,
                        declared: map<String, String>, tat: TernaryScanner, mat: MatchingScanner,
                        fuel: nat): Result<String>
  {
    var t :- InjectFix(data, declared, fuel);
    ExpressionFix(t, tat, mat, booleans, variables, fuel)
  }

  /** The text phase 1 starts from: the data section after the injection and conditional loops. */
  function Rendered(input: String, booleans: map<String, bool>, variables: map<String, String>,
                    injected: map<String, String>, tat: TernaryScanner, mat: MatchingScanner, fuel: nat): Result<String>
  {
    var parsed :- ParseSpec(input);
    RenderedData(parsed.data, booleans, variables, Declared(injected, parsed), tat, mat, fuel)
  }

  /** Phase 1 to its fixpoint, then phase 2, on a rendered text. */
  function Finished(t: String, counter: nat, metas: Option<seq<MetaObject>>): WordplayOutput
  {
    var (marked, components, _) := AnchorFix(t, counter, []);
    WordplayOutput(StripTokens(marked), Placed(marked, components), metas)
  }

  /** `process`: the output, or the first fault of any stage. */
  function ProcessSpec(input: String, booleans: map<String, bool>, variables: map<String, String>,
                       injected: map<String, String>, counter: nat, tat: TernaryScanner, mat: MatchingScanner,
                       fuel: nat): Result<WordplayOutput>
  {
    var parsed :- ParseSpec(input);
    var t :- RenderedData(parsed.data, booleans, variables, Declared(injected, parsed), tat, mat, fuel);
    Ok(Finished(t, counter, parsed.metas))
  }

  /** What `process` needs of the texts it substitutes: neither `$` nor `\` in any of them. */
  predicate Substitutable(input: String, booleans: map<String, bool>, variables: map<String, String>,
                          injected: map<String, String>, tat: TernaryScanner, mat: MatchingScanner, fuel: nat)
  {
    match ParseSpec(input)
    case Err(_) => true
    case Ok(parsed) =>
      var declared := Declared(injected, parsed);
      InjectPlain(parsed.data, declared, fuel) &&
      (InjectFix(parsed.data, declared, fuel).Ok? ==>
        ExpressionPlain(InjectFix(parsed.data, declared, fuel).value, tat, mat, booleans, variables, fuel))
  }

  // ---------------------------------------------------------------------------------------------
  // What the loops guarantee

  /** A code section's injection overrides the injected value of its name (the last line naming it
      wins); every other name keeps the value it had. */
  lemma {:induction false} DeclaredOverrides(injected: map<String, String>, parsed: Parsed, k: String)
    requires parsed.injections.Some?
    ensures var defs := parsed.injections.value;
      var j := LastWith(defs, k);
      (k in Declared(injected, parsed) <==> k in injected || j >= 0) &&
      (j >= 0 ==> Declared(injected, parsed)[k] == defs[j].1) &&
      (j < 0 && k in injected ==> Declared(injected, parsed)[k] == injected[k])
  {
    PutAllAt(injected, parsed.injections.value, k);
  }

  /** A text without injection expressions comes back unchanged from the injection loop. */
  lemma {:induction false} InjectFixSettled(s: String, injected: map<String, String>, fuel: nat)
    requires InjectionMatches(s) == []
    ensures InjectFix(s, injected, fuel) == Ok(s)
  {
    InjectNothing(s, injected);
  }

  /** A pass that substitutes nothing returns its text unchanged. */
  lemma {:induction false} PassSettled(s: String, tat: TernaryScanner, mat: MatchingScanner,
                                       booleans: map<String, bool>, variables: map<String, String>)
    requires PassCount(s, tat, mat, booleans) == 0
    ensures PassText(s, tat, mat, booleans, variables) == s
    ensures Matches(s, tat) == [] && Matches(s, mat) == []
  {
    assert Matches(s, tat) == [];
    var u := TernaryText(s, tat, booleans);
    assert u == s by {
      assert SpansOf<TernaryGroups>([]) == [];
      assert Splice(s, [], []) == s by { assert s[0..] == s; }
    }
    assert Matches(u, mat) == [];
    NothingToChoose(s, tat, mat, booleans, variables);
  }

  /** A text in which neither pattern matches comes back unchanged from the conditional loop. */
  lemma {:induction false} ExpressionFixSettled(s: String, tat: TernaryScanner, mat: MatchingScanner,
                                                booleans: map<String, bool>, variables: map<String, String>, fuel: nat)
    requires Matches(s, tat) == [] && Matches(s, mat) == []
    ensures ExpressionFix(s, tat, mat, booleans, variables, fuel) == Ok(s)
  {
    NothingToChoose(s, tat, mat, booleans, variables);
    assert PassCount(s, tat, mat, booleans) == 0;
  }

  /** A text without anchored expressions comes back unchanged from the phase-1 loop. */
  lemma {:induction false} AnchorFixSettled(s: String, c: nat, acc: seq<Component>)
    requires AnchorMatches(s) == []
    ensures AnchorFix(s, c, acc) == (s, acc, c)
  {
    Phase1Settled(s, c);
    assert acc + [] == acc;
  }

  /** A script with no delimiter line, no injection, conditional or anchored expression comes back
      as it is, less any tokens, with no anchored objects and no meta objects. */
  lemma {:induction false} ProcessInert(input: String, booleans: map<String, bool>, variables: map<String, String>,
                                        injected: map<String, String>, counter: nat, tat: TernaryScanner,
                                        mat: MatchingScanner, fuel: nat)
    requires !Contains(input, Delimiter)
    requires InjectionMatches(input) == [] && AnchorMatches(input) == []
    requires Matches(input, tat) == [] && Matches(input, mat) == []
    ensures ProcessSpec(input, booleans, variables, injected, counter, tat, mat, fuel) ==
      Ok(WordplayOutput(StripTokens(input), [], None))
  {
    assert ParseSpec(input) == Ok(Parsed(input, None, None));
    InjectFixSettled(input, injected, fuel);
    ExpressionFixSettled(input, tat, mat, booleans, variables, fuel);
    assert Rendered(input, booleans, variables, injected, tat, mat, fuel) == Ok(input);
    AnchorFixSettled(input, counter, []);
    assert Placed(input, []) == [];
  }

  // ---------------------------------------------------------------------------------------------
  // The engine

  class WordplayImpl {
    const injectionProcessor: InjectionProcessor
    const expressionProcessor: ExpressionProcessor
    const emissionProcessor: EmissionProcessor

    var booleanVariables: map<String, bool>
    var variables: map<String, String>
    var injectedObjects: map<String, String>

    /** A fresh engine; the scanners stand for the compiled ternary and matching patterns. */
    constructor (ternaryAt: TernaryScanner, matchingAt: MatchingScanner)
      ensures fresh(injectionProcessor) && fresh(expressionProcessor) && fresh(emissionProcessor)
      ensures expressionProcessor.ternaryAt == ternaryAt && expressionProcessor.matchingAt == matchingAt
      ensures emissionProcessor.internalIndex == 0
      ensures booleanVariables == map[] && variables == map[] && injectedObjects == map[]
    {
      injectionProcessor := new InjectionProcessor();
      expressionProcessor := new ExpressionProcessor(ternaryAt, matchingAt);
      emissionProcessor := new EmissionProcessor();
      booleanVariables := map[];
      variables := map[];
      injectedObjects := map[];
    }

    /** `process`. The code section's injections stay in the injected values once the parse
        succeeded, also when a later stage fails; the anchor counter moves on only when the
        conditional loop has ended, since phase 1 is the only user of `nextIndex`. */
    method Process(input: String, fuel: nat) returns (r: Result<WordplayOutput>)
      requires Substitutable(input, booleanVariables, variables, injectedObjects,
                             expressionProcessor.ternaryAt, expressionProcessor.matchingAt, fuel)
      modifies this, injectionProcessor, expressionProcessor, emissionProcessor
      ensures r == ProcessSpec(input, booleanVariables, variables, old(injectedObjects),
                               old(emissionProcessor.internalIndex),
                               expressionProcessor.ternaryAt, expressionProcessor.matchingAt, fuel)
      ensures booleanVariables == old(booleanVariables) && variables == old(variables)
      ensures injectedObjects ==
        if ParseSpec(input).Ok? then Declared(old(injectedObjects), ParseSpec(input).value) else old(injectedObjects)
      ensures emissionProcessor.internalIndex ==
        var t := Rendered(input, booleanVariables, variables, old(injectedObjects),
                          expressionProcessor.ternaryAt, expressionProcessor.matchingAt, fuel);
        if t.Ok? then AnchorFix(t.value, old(emissionProcessor.internalIndex), []).2
        else old(emissionProcessor.internalIndex)
      ensures r.Ok? ==> (injectionProcessor.expressionsProcessed == 0 &&
        expressionProcessor.expressionsProcessed == 0 && emissionProcessor.expressionsProcessed == 0)
    {
      var parsed := Parse(input);
      if parsed.Err? {
        return Err(parsed.fault);
      }
      var p := parsed.value;
      FoldInjections(p);
      var conditioned := Condition(p.data, fuel);
      if conditioned.Err? {
        return Err(conditioned.fault);
      }
      var output := Emit(conditioned.value, p.metas);
      r := Ok(output);
    }

    /** The injection loop, then the conditional loop. */
    method Condition(data: String, fuel: nat) returns (r: Result<String>)
      requires InjectPlain(data, injectedObjects, fuel)
      requires InjectFix(data, injectedObjects, fuel).Ok? ==>
        ExpressionPlain(InjectFix(data, injectedObjects, fuel).value, expressionProcessor.ternaryAt,
                        expressionProcessor.matchingAt, booleanVariables, variables, fuel)
      modifies injectionProcessor, expressionProcessor
      ensures r == RenderedData(data, booleanVariables, variables, injectedObjects,
                                expressionProcessor.ternaryAt, expressionProcessor.matchingAt, fuel)
      ensures r.Ok? ==> injectionProcessor.expressionsProcessed == 0 &&
                        expressionProcessor.expressionsProcessed == 0
    {
      var injected := InjectToFixpoint(data, fuel);
      if injected.Err? {
        return Err(injected.fault);
      }
      r := ExpressionsToFixpoint(injected.value, fuel);
    }

    /** Phase 1 to its fixpoint, then phase 2. */
    method Emit(t: String, metas: Option<seq<MetaObject>>) returns (output: WordplayOutput)
      modifies emissionProcessor
      ensures output == Finished(t, old(emissionProcessor.internalIndex), metas)
      ensures emissionProcessor.internalIndex == AnchorFix(t, old(emissionProcessor.internalIndex), []).2
      ensures emissionProcessor.expressionsProcessed == 0
    {
      var marked, anchored := AnchorsToFixpoint(t);
      var final, objects := emissionProcessor.ConstructAnchoredObjects(marked, anchored);
      output := WordplayOutput(final, objects, metas);
    }

    /** The injection loop of `process`: a pass, repeated while the pass before replaced something. */
    method InjectToFixpoint(data: String, fuel: nat) returns (r: Result<String>)
      requires InjectPlain(data, injectedObjects, fuel)
      modifies injectionProcessor
      ensures r == InjectFix(data, injectedObjects, fuel)
      ensures r.Ok? ==> injectionProcessor.expressionsProcessed == 0
    {
      var text := data;
      var left := fuel;
      r := injectionProcessor.Inject(text, injectedObjects);
      InjectFixUnfold(text, injectedObjects, left);
      while r.Ok? && injectionProcessor.expressionsProcessed != 0 && left > 0
        invariant r == InjectSpec(text, injectedObjects)
        invariant r.Ok? ==> injectionProcessor.expressionsProcessed == |InjectionMatches(text)|
        invariant InjectFix(text, injectedObjects, left) == InjectFix(data, injectedObjects, fuel)
        invariant InjectPlain(text, injectedObjects, left)
        decreases left
      {
        left := left - 1;
        text := r.value;
        r := injectionProcessor.Inject(text, injectedObjects);
        InjectFixUnfold(text, injectedObjects, left);
      }
      if r.Ok? && injectionProcessor.expressionsProcessed != 0 {
        r := Err(Diverged);
      }
    }

    /** The conditional loop of `process`: a pass, repeated while the pass before substituted something. */
    method ExpressionsToFixpoint(data: String, fuel: nat) returns (r: Result<String>)
      requires ExpressionPlain(data, expressionProcessor.ternaryAt, expressionProcessor.matchingAt,
                               booleanVariables, variables, fuel)
      modifies expressionProcessor
      ensures r == ExpressionFix(data, expressionProcessor.ternaryAt, expressionProcessor.matchingAt,
                                 booleanVariables, variables, fuel)
      ensures r.Ok? ==> expressionProcessor.expressionsProcessed == 0
    {
      var tat, mat := expressionProcessor.ternaryAt, expressionProcessor.matchingAt;
      var text := data;
      var left := fuel;
      var output := ExpressionRound(text);
      while expressionProcessor.expressionsProcessed != 0 && left > 0
        invariant output == PassText(text, tat, mat, booleanVariables, variables)
        invariant expressionProcessor.expressionsProcessed == PassCount(text, tat, mat, booleanVariables)
        invariant ExpressionFix(text, tat, mat, booleanVariables, variables, left) ==
          ExpressionFix(data, tat, mat, booleanVariables, variables, fuel)
        invariant ExpressionPlain(text, tat, mat, booleanVariables, variables, left)
        decreases left
      {
        ExpressionFixStep(text, tat, mat, booleanVariables, variables, left);
        left := left - 1;
        text := output;
        output := ExpressionRound(text);
      }
      if expressionProcessor.expressionsProcessed != 0 {
        r := Err(Diverged);
      } else {
        r := Ok(output);
      }
    }

    /** One call of `ExpressionProcessor.process` in the conditional loop. */
    method ExpressionRound(text: String) returns (output: String)
      requires PlainTernaries(text, expressionProcessor.ternaryAt, booleanVariables)
      requires PlainMatchings(TernaryText(text, expressionProcessor.ternaryAt, booleanVariables),
                              expressionProcessor.matchingAt, variables)
      modifies expressionProcessor
      ensures output == PassText(text, expressionProcessor.ternaryAt, expressionProcessor.matchingAt,
                                 booleanVariables, variables)
      ensures expressionProcessor.expressionsProcessed ==
        PassCount(text, expressionProcessor.ternaryAt, expressionProcessor.matchingAt, booleanVariables)
    {
      output := expressionProcessor.Process(text, booleanVariables, variables);
    }

    /** The phase-1 loop of `process`: a pass, repeated while the pass before found an anchored
        expression, the components of every pass appended in order. */
    method AnchorsToFixpoint(data: String) returns (marked: String, anchored: seq<Component>)
      modifies emissionProcessor
      ensures (marked, anchored, emissionProcessor.internalIndex) ==
        AnchorFix(data, old(emissionProcessor.internalIndex), [])
      ensures emissionProcessor.expressionsProcessed == 0
    {
      ghost var prev, c, acc := data, emissionProcessor.internalIndex, [];
      marked, anchored := emissionProcessor.ProcessAnchoredObjects(data);
      while emissionProcessor.expressionsProcessed != 0
        invariant marked == Phase1Text(prev, c) && anchored == acc + Phase1Components(prev, c)
        invariant emissionProcessor.expressionsProcessed == |AnchorMatches(prev)|
        invariant emissionProcessor.internalIndex == CounterAfter(c, |AnchorMatches(prev)|)
        invariant AnchorFix(prev, c, acc) == AnchorFix(data, old(emissionProcessor.internalIndex), [])
        decreases Occurrences(prev, '{')
      {
        Phase1RemovesBraces(prev, c);
        prev, c, acc := marked, emissionProcessor.internalIndex, anchored;
        var more;
        marked, more := emissionProcessor.ProcessAnchoredObjects(marked);
        anchored := anchored + more;
      }
    }

    /** The loop of `process` that puts each injection of the code section, in line order. */
    method FoldInjections(p: Parsed)
      modifies this
      ensures injectedObjects == Declared(old(injectedObjects), p)
      ensures booleanVariables == old(booleanVariables) && variables == old(variables)
    {
      if p.injections.Some? {
        var pairs := p.injections.value;
        for k := 0 to |pairs|
          invariant injectedObjects == PutAll(old(injectedObjects), pairs[..k])
          invariant booleanVariables == old(booleanVariables) && variables == old(variables)
        {
          TakeSnoc(pairs, k);
          PutAllSnoc(old(injectedObjects), pairs[..k], pairs[k]);
          injectedObjects := injectedObjects[pairs[k].0 := pairs[k].1];
        }
        assert pairs[..|pairs|] == pairs;
      }
    }

    /** `extractHeaders`: this engine reads no headers. */
    method ExtractHeaders(input: String) returns (headers: map<String, String>)
      ensures headers == map[]
    {
      headers := map[];
    }

    /** `reset`: forgets every variable and injected value; the anchor counter keeps counting. */
    method Reset()
      modifies this
      ensures booleanVariables == map[] && variables == map[] && injectedObjects == map[]
    {
      booleanVariables := map[];
      variables := map[];
      injectedObjects := map[];
    }

    /** `setVariable(String, boolean)`. */
    method SetBooleanVariable(name: String, value: bool)
      modifies this
      ensures booleanVariables == old(booleanVariables)[name := value]
      ensures variables == old(variables) && injectedObjects == old(injectedObjects)
    {
      booleanVariables := booleanVariables[name := value];
    }

    /** `setVariable(String, String)`. */
    method SetVariable(name: String, value: String)
      modifies this
      ensures variables == old(variables)[name := value]
      ensures booleanVariables == old(booleanVariables) && injectedObjects == old(injectedObjects)
    {
      variables := variables[name := value];
    }

    /** `inject`. */
    method Inject(id: String, value: String)
      modifies this
      ensures injectedObjects == old(injectedObjects)[id := value]
      ensures booleanVariables == old(booleanVariables) && variables == old(variables)
    {
      injectedObjects := injectedObjects[id := value];
    }
  }
}
