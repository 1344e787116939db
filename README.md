# Wordplay text-rewriting core, modelled in Dafny

Wordplay renders story templates. A template is a data section, optionally followed by a code
section after a line that holds only `$`. The code section declares injections (`> name value`)
and meta objects (`<m id k:v|k2:v2`, `<l id a|b|c`). `WordplayImpl.process` runs these stages in
a fixed order:

1. it splits off the code section and puts the code section's injections into the engine's map
   of injected values;
2. it repeats the injection pass (`{>name}` becomes the injected value) until a pass replaces
   nothing;
3. it repeats the conditional pass until a pass substitutes nothing. The pass handles ternaries
   `{ v ? a | b }` over boolean variables and matching expressions
   `{ v:val a |:val2 b | fallback }` over string variables;
4. it repeats phase 1 of the anchored objects until a pass finds nothing. Phase 1 replaces
   `{< k:v payload }` by a temporary token `$@s<index> ` followed by the payload;
5. it runs phase 2 once. Phase 2 reads each payload's final offset off the tokens and then strips
   the tokens.

The model also covers `HeaderPreprocessor`, `LineEnding.deduce` and the legacy package
(`com.github.rskupnik.internal`). The legacy package holds:

- earlier copies of the injection, emission and code processors, whose logic is the same as the
  current ones, so the same Dafny members model both;
- the strict `TernaryProcessor`, in which an unset boolean throws;
- the prototype `ExpressionFinder`.

## How the model is laid out

- `text.dfy`:
  - `Text` holds the Java string operations over `seq<char>`: `indexOf`, `trim`, `split` (which
    drops trailing empty pieces), `\w`, `\s`, and the decimal rendering of an `int`;
  - `Outcomes` holds the faults (`SyntaxFault`, `InjectionFault`, `ProcessingFault`,
    `RuntimeFault` for the `substring(…, -1)` and `charAt(0)` crashes, and `Diverged`) and the
    `Result` type.
- `scan.dfy` (`Scanning`): the matches a `while (matcher.find())` loop visits. Each pattern is a
  function that reports the match at one position; `Find` returns the leftmost match at or after
  a position, and `FindAll` returns all of them in order.
- `splice.dfy` (`Rewriting`): the text that the `appendReplacement`/`appendTail` loops build.
- `assoc.dfy` (`Assoc`): `Map.put` applied to a list of pairs in order.
- One module per processor. Each processor with a counter field is a `class`, and its rewrite
  loops are `while` loops proved against a function of the input:
  - `injection.dfy`, `expressions.dfy`, `emission.dfy`, `meta.dfy`, `code.dfy`, `header.dfy`,
    `line_ending.dfy`, `expression_finder.dfy`;
  - `placement.dfy` holds the phase-2 placement theorem;
  - `wordplay.dfy` holds the engine class.
- To verify, give Dafny every file at once: `dafny verify *.dfy`.
- Patterns:
  - The injection, anchored-object, parameter, token, alternative and finder patterns are
    deterministic, so each has an exact scanner. For each, one lemma states the shape of what it
    reports (`…Sound`) and one states that a text of that shape is found (`…Complete`,
    `SubgroupAtWhen`). The injection, anchored-object and token lemmas also give the reported span.
    The parameter lemmas give the key and the start of the value. The finder's only say that the
    attempt succeeds, since its greedy `\S*` may report a longer name.
  - The ternary and matching patterns rely on the regex engine's greedy backtracking. They are
    scanner parameters of the processor. Everything the code does with their groups is modelled
    exactly.
- The injection and conditional loops of `process` stop only when the text no longer regenerates
  expressions. They take a number of extra passes (`fuel`) and report `Diverged` when it runs out.
  The phase-1 loop needs no bound: each pass removes one `{` per anchored expression.

Two results of the code are easy to misread, and the model keeps them as written:

- An anchored payload keeps the whitespace in front of its closing brace. The pattern's
  `[\w\s]+` captures it, and the token replacement writes it back. So `A {< k:v B } C` renders
  as `A B  C` (two spaces), not `A B C`.
- `WordplayImpl.extractHeaders` returns an empty map. It does not call `HeaderPreprocessor`.

## Model

The legacy processors in `src/main/java/com/github/rskupnik/internal/processors/` are modelled by
the same members as their current counterparts:

- `InjectionProcessor.java:17-33` by `Injection.InjectionProcessor.Inject`;
- `CodeProcessor.java:18-58` by `Code.Parse` and `Code.ParseLine`;
- `EmissionProcessor.java:26-89` by the `Emission.EmissionProcessor` methods;
- `EmissionProcessor.java:91-136` by `Meta.ProcessMeta`.


| member | source | states |
|---|---|---|
| Wordplay.WordplayImpl.Process | src/main/java/com/github/rskupnik/wordplay/WordplayImpl.java:45-95 | The result is `ProcessSpec`: the parse, then the injection loop, the conditional loop, phase 1 to its fixpoint and phase 2 once, or the first fault of any stage. The variable maps do not change. The injected values become the code section's injections put over the old ones whenever the parse succeeded, even if a later stage fails. The anchor counter moves on by what phase 1 used. On success every processor's counter is 0. |
| Wordplay.WordplayImpl.FoldInjections | src/main/java/com/github/rskupnik/wordplay/WordplayImpl.java:52-56 | The injected values become the old ones with each code-section pair put in line order. No other field changes. |
| Wordplay.DeclaredOverrides | src/main/java/com/github/rskupnik/wordplay/WordplayImpl.java:52-56 | After the fold, a name is present exactly when it was injected before or a code line names it. The last code line naming it gives its value; every other name keeps its old value. |
| Wordplay.WordplayImpl.Condition | src/main/java/com/github/rskupnik/wordplay/WordplayImpl.java:62-76 | The injection loop, then the conditional loop, give `RenderedData` of the data section. On success both processors' counters are 0. |
| Wordplay.WordplayImpl.InjectToFixpoint | src/main/java/com/github/rskupnik/wordplay/WordplayImpl.java:64-67 | The do/while loop over `inject` returns `InjectFix`. On success the last pass counted 0. |
| Wordplay.InjectFix | src/main/java/com/github/rskupnik/wordplay/WordplayImpl.java:64-67 | When the injection loop ends, no injection expression is left in the text. It fails only with the injection fault of a pass, or with `Diverged`. |
| Wordplay.InjectFixUnfold | src/main/java/com/github/rskupnik/wordplay/WordplayImpl.java:65-67 | One round of the injection loop: a failing pass fails the loop; a pass that found nothing ends it with its text; otherwise the loop goes on from the pass's text. |
| Wordplay.InjectFixSettled | src/main/java/com/github/rskupnik/wordplay/WordplayImpl.java:64-67 | A text without injection expressions comes back unchanged from the injection loop. |
| Wordplay.WordplayImpl.ExpressionsToFixpoint | src/main/java/com/github/rskupnik/wordplay/WordplayImpl.java:72-75 | The do/while loop over `ExpressionProcessor.process` returns `ExpressionFix`. On success the last pass counted 0. |
| Wordplay.WordplayImpl.ExpressionRound | src/main/java/com/github/rskupnik/wordplay/WordplayImpl.java:74 | One call of the conditional pass returns the matching pass applied to the ternary pass's output. Its counter is the number of ternary matches plus the number of matching matches. |
| Wordplay.ExpressionFix | src/main/java/com/github/rskupnik/wordplay/WordplayImpl.java:72-75 | When the conditional loop ends, neither the ternary nor the matching pattern matches the text. It fails only with `Diverged`. |
| Wordplay.ExpressionFixStep | src/main/java/com/github/rskupnik/wordplay/WordplayImpl.java:73-75 | A pass that substituted something makes the loop go on from that pass's text. |
| Wordplay.PassSettled | src/main/java/com/github/rskupnik/wordplay/WordplayImpl.java:73-75 | A pass that counted nothing returns its input unchanged, and neither pattern matches that input. |
| Wordplay.ExpressionFixSettled | src/main/java/com/github/rskupnik/wordplay/WordplayImpl.java:72-75 | A text on which neither pattern matches comes back unchanged from the conditional loop. |
| Wordplay.WordplayImpl.AnchorsToFixpoint | src/main/java/com/github/rskupnik/wordplay/WordplayImpl.java:79-86 | The phase-1 loop returns the marked text and the components of every pass in discovery order, and leaves the counter where `AnchorFix` says. The last pass counted 0. |
| Wordplay.AnchorFix | src/main/java/com/github/rskupnik/wordplay/WordplayImpl.java:79-86 | The phase-1 loop ends: it is well-founded on the number of `{`. Its text holds no anchored expression, and components found by earlier passes stay in front. |
| Wordplay.AnchorFixBase | src/main/java/com/github/rskupnik/wordplay/WordplayImpl.java:86 | The pass that ends the loop adds no component and leaves no anchored expression. |
| Wordplay.AnchorFixSettled | src/main/java/com/github/rskupnik/wordplay/WordplayImpl.java:79-86 | A text without anchored expressions leaves the phase-1 loop unchanged, with no component and the counter unchanged. |
| Wordplay.Phase1Settled | src/main/java/com/github/rskupnik/wordplay/internal/processors/EmissionProcessor.java:83-105 | Phase 1 on a text with no anchored expression returns the text and no components. |
| Wordplay.WordplayImpl.Emit | src/main/java/com/github/rskupnik/wordplay/WordplayImpl.java:78-94 | Phase 1 to its fixpoint, then phase 2 once on the final text, give the output text and anchored objects of `Finished`, together with the code section's meta objects. |
| Wordplay.ProcessInert | src/main/java/com/github/rskupnik/wordplay/WordplayImpl.java:45-95 | A script with no delimiter line and no expression of any kind renders as itself, minus any token, with no anchored objects and no meta objects. |
| Wordplay.WordplayImpl.ExtractHeaders | src/main/java/com/github/rskupnik/wordplay/WordplayImpl.java:98-100 | Always returns the empty map. |
| Wordplay.WordplayImpl.Reset | src/main/java/com/github/rskupnik/wordplay/WordplayImpl.java:103-107 | Clears the boolean, string and injected maps. The anchor counter is not touched. |
| Wordplay.WordplayImpl.SetBooleanVariable | src/main/java/com/github/rskupnik/wordplay/WordplayImpl.java:110-112 | Overwrites one boolean entry; the other maps are unchanged. |
| Wordplay.WordplayImpl.SetVariable | src/main/java/com/github/rskupnik/wordplay/WordplayImpl.java:115-117 | Overwrites one string entry; the other maps are unchanged. |
| Wordplay.WordplayImpl.Inject | src/main/java/com/github/rskupnik/wordplay/WordplayImpl.java:120-122 | Overwrites one injected entry; the other maps are unchanged. |
| Wordplay.WordplayImpl.constructor | src/main/java/com/github/rskupnik/wordplay/WordplayImpl.java:35-42 | Creates fresh processors, empty maps and an anchor counter of 0. |
| Code.Parse | src/main/java/com/github/rskupnik/wordplay/internal/processors/CodeProcessor.java:40-59 | Returns `ParseSpec`: without the delimiter, the input with both lists absent; otherwise the data before the first delimiter and the lists read from the split code section, or the first line's fault. |
| Code.ParseData | src/main/java/com/github/rskupnik/wordplay/internal/processors/CodeProcessor.java:41-45 | Without `"\n$\n"` the result is the input with no lists (`null`, `null`). With it, both lists are present, and the input is the data section, the delimiter and the code section, in that order. The data section holds no delimiter. |
| Code.DelimiterBounds | src/main/java/com/github/rskupnik/wordplay/internal/processors/CodeProcessor.java:41-52 | A delimiter, where there is one, lies inside the input, so both `substring` calls are in range. |
| Code.ReadSections | src/main/java/com/github/rskupnik/wordplay/internal/processors/CodeProcessor.java:52-58 | The code section is split on `"\n"` and its lines are read into the output triple, with the data section kept as it is. |
| Code.ReadLines | src/main/java/com/github/rskupnik/wordplay/internal/processors/CodeProcessor.java:53-56 | The line loop returns `LinesSpec`: every line's effect appended in line order, or the fault of the first failing line. |
| Code.LinesNext | src/main/java/com/github/rskupnik/wordplay/internal/processors/CodeProcessor.java:54-56 | One more line either applies its effect to the lists of the lines before it or ends the loop with its fault. |
| Code.LinesErrPrefix | src/main/java/com/github/rskupnik/wordplay/internal/processors/CodeProcessor.java:54-56 | Once a line has failed, the lines after it do not change the outcome. |
| Code.LineErrorAborts | src/main/java/com/github/rskupnik/wordplay/internal/processors/CodeProcessor.java:54-56 | A failing line makes the whole parse fail with its fault, whatever comes after it. |
| Code.ParseLine | src/main/java/com/github/rskupnik/wordplay/internal/processors/CodeProcessor.java:61-82 | Returns `LineSpec`: an empty line adds nothing; a first character other than `<` or `>` is a syntax fault; `>` splits the trimmed rest at its first space (no space is a runtime fault); `<` appends `processMeta` of the trimmed rest. |
| Code.LineSpec | src/main/java/com/github/rskupnik/wordplay/internal/processors/CodeProcessor.java:69-75 | An injection name holds no space: it is the text before the first space. |
| Code.InjectedNonEmpty | src/main/java/com/github/rskupnik/wordplay/internal/processors/CodeProcessor.java:69-75 | An injection read from a `>` line has a non-empty name starting with a visible character and a non-empty value ending with one. |
| Code.InjectionLineRoundTrip | src/main/java/com/github/rskupnik/wordplay/internal/processors/CodeProcessor.java:69-75 | A line `> name value` with a word-character name and a one-line value that ends in a visible character reads back as the pair `(name, value)`. |
| Code.InjectionLinesRead | src/main/java/com/github/rskupnik/wordplay/internal/processors/CodeProcessor.java:53-75 | Such injection lines read back, in order, as their pairs, with no meta objects. |
| Code.ParseRoundTrip | src/main/java/com/github/rskupnik/wordplay/internal/processors/CodeProcessor.java:40-59 | A data section without `$`, the delimiter, and injection lines joined by `"\n"` parse back into that data section, those pairs and no meta objects. |
| Code.DelimiterFirstAt | src/main/java/com/github/rskupnik/wordplay/internal/processors/CodeProcessor.java:41 | When the data section holds no `$`, the first delimiter is the one right after it. |
| Meta.ProcessMeta | src/main/java/com/github/rskupnik/wordplay/internal/processors/EmissionProcessor.java:125-136 | Returns `MetaSpec`: it drops one leading `<`, reads the type character, and hands the trimmed rest to the map or the list parser. |
| Meta.MetaKind | src/main/java/com/github/rskupnik/wordplay/internal/processors/EmissionProcessor.java:125-135 | A parsed meta object is a map for `m` and a list for `l`, and its id holds no space. An empty line is a runtime fault (`charAt(0)`). Any other type character is a syntax fault. |
| Meta.ProcessMetaMap | src/main/java/com/github/rskupnik/wordplay/internal/processors/EmissionProcessor.java:138-159 | Returns `MetaMapSpec`: each piece's entry is put in order, and the first malformed piece aborts with a syntax fault. |
| Meta.IdAndBody | src/main/java/com/github/rskupnik/wordplay/internal/processors/EmissionProcessor.java:139-144 | The id is the text before the first space and holds none, and the line is the id, a space and the body. An empty line is a syntax fault; a line without a space is a runtime fault. |
| Meta.EntryOf | src/main/java/com/github/rskupnik/wordplay/internal/processors/EmissionProcessor.java:147-155 | A piece without `:`, or one that splits into fewer than two parts, is a syntax fault. |
| Meta.Entries | src/main/java/com/github/rskupnik/wordplay/internal/processors/EmissionProcessor.java:145-156 | There is one entry per piece, in order. Every failure is a syntax fault. |
| Meta.EntriesErrPrefix | src/main/java/com/github/rskupnik/wordplay/internal/processors/EmissionProcessor.java:146-156 | The first malformed piece decides the outcome, whatever follows it. |
| Meta.EntryOfPair | src/main/java/com/github/rskupnik/wordplay/internal/processors/EmissionProcessor.java:151-152 | A piece `key:value` of word characters reads back as `(key, value)`. |
| Meta.MetaMapOf | src/main/java/com/github/rskupnik/wordplay/internal/processors/EmissionProcessor.java:138-159 | A body of `key:value` pieces joined by `\|` gives the map that puts them in order: a later duplicate key wins. |
| Meta.MetaMapRoundTrip | src/main/java/com/github/rskupnik/wordplay/internal/processors/EmissionProcessor.java:125-159 | A meta-map line `<m id k:v\|…` written from an id and entries reads back as that id and the map of those entries. |
| Meta.MetaListOf | src/main/java/com/github/rskupnik/wordplay/internal/processors/EmissionProcessor.java:161-170 | A body of items joined by `\|` gives the list of those items, in order. |
| Meta.MetaListRoundTrip | src/main/java/com/github/rskupnik/wordplay/internal/processors/EmissionProcessor.java:125-170 | A meta-list line `<l id a\|b…` reads back as that id and those items. |
| Meta.TypedLine | src/main/java/com/github/rskupnik/wordplay/internal/processors/EmissionProcessor.java:126-135 | `<m ` or `<l ` in front of a trimmed text dispatches that text to the map or the list parser. |
| Meta.JavaSplitJoin | src/main/java/com/github/rskupnik/wordplay/internal/processors/CodeProcessor.java:53 | Non-empty-ended pieces free of a one-character separator, joined with it and split at it, give back the pieces. |
| Injection.InjectionProcessor.Inject | src/main/java/com/github/rskupnik/wordplay/internal/processors/InjectionProcessor.java:37-53 | Returns `InjectSpec`. On success the counter equals the number of matches. On an injection fault the counter equals the number of matches replaced before the first missing value. |
| Injection.InjectSpec | src/main/java/com/github/rskupnik/wordplay/internal/processors/InjectionProcessor.java:42-52 | The pass succeeds exactly when every matched name has a non-empty value; otherwise it is an injection fault. |
| Injection.FirstMissing | src/main/java/com/github/rskupnik/wordplay/internal/processors/InjectionProcessor.java:44-46 | The first match whose name is absent or maps to `""`, with every earlier match present. |
| Injection.InjectionAt | src/main/java/com/github/rskupnik/wordplay/internal/processors/InjectionProcessor.java:27 | A reported match starts at the position tried and lies inside the text. |
| Injection.InjectionAtSound | src/main/java/com/github/rskupnik/wordplay/internal/processors/InjectionProcessor.java:27 | Every reported match has the form `{>`, at most one whitespace character, a non-empty word, at most one whitespace character, `}`, and group 1 is that word. |
| Injection.InjectionAtComplete | src/main/java/com/github/rskupnik/wordplay/internal/processors/InjectionProcessor.java:27 | Every text of that form starting at a position is reported there, with that name. |
| Injection.InjectionMatches | src/main/java/com/github/rskupnik/wordplay/internal/processors/InjectionProcessor.java:41-42 | The matches are visited left to right and do not overlap. |
| Injection.AcceptMatch | src/main/java/com/github/rskupnik/wordplay/internal/processors/InjectionProcessor.java:47-48 | Replacing one more match adds the gap before it and its value to the buffer. |
| Injection.RejectMatch | src/main/java/com/github/rskupnik/wordplay/internal/processors/InjectionProcessor.java:44-46 | A match with a missing value ends the pass with an injection fault, after the matches before it. |
| Injection.InjectNothing | src/main/java/com/github/rskupnik/wordplay/internal/processors/InjectionProcessor.java:41-52 | A text without injection expressions comes back unchanged. |
| Injection.InjectKeepsText | src/main/java/com/github/rskupnik/wordplay/internal/processors/InjectionProcessor.java:47-50 | The text between and around matches is kept: when every value spells out its own expression, the pass returns its input. |
| Injection.InjectionProcessor.constructor | src/main/java/com/github/rskupnik/wordplay/internal/processors/InjectionProcessor.java:29 | The counter starts at 0. |
| Expressions.ExpressionProcessor.Process | src/main/java/com/github/rskupnik/wordplay/internal/processors/ExpressionProcessor.java:43-48 | Resets the counter, runs the ternary pass, then runs the matching pass on its output. The counter is the number of both kinds of match. |
| Expressions.ExpressionProcessor.ProcessTernary | src/main/java/com/github/rskupnik/wordplay/internal/processors/ExpressionProcessor.java:50-72 | Returns the input with every ternary match replaced by the branch it chooses. The counter grows by one per match. |
| Expressions.ExpressionProcessor.TernaryStep | src/main/java/com/github/rskupnik/wordplay/internal/processors/ExpressionProcessor.java:53-68 | One more ternary match adds the gap before it and its chosen branch to the buffer. |
| Expressions.TernaryUnsetIsFalse | src/main/java/com/github/rskupnik/wordplay/internal/processors/ExpressionProcessor.java:58-63 | An unset boolean chooses what `false` chooses: the false branch. |
| Expressions.DropTrailingSpace | src/main/java/com/github/rskupnik/wordplay/internal/processors/ExpressionProcessor.java:64-65 | The chosen text loses exactly one trailing space when it has one, and is otherwise unchanged. |
| Expressions.ExpressionProcessor.ProcessMatching | src/main/java/com/github/rskupnik/wordplay/internal/processors/ExpressionProcessor.java:74-134 | Returns the input with every matching expression replaced by the text it chooses. The counter grows by one per match. |
| Expressions.ExpressionProcessor.MatchingStep | src/main/java/com/github/rskupnik/wordplay/internal/processors/ExpressionProcessor.java:77-106 | One more matching expression adds the gap before it and its chosen text to the buffer. |
| Expressions.ExpressionProcessor.SelectBranch | src/main/java/com/github/rskupnik/wordplay/internal/processors/ExpressionProcessor.java:84-106 | The branch selection, including the labelled `continue outer`, chooses `MatchingChoice`. |
| Expressions.MatchingChoiceOf | src/main/java/com/github/rskupnik/wordplay/internal/processors/ExpressionProcessor.java:84-105 | An unset or empty variable takes the fallback. A variable equal to the first value takes the first text. Otherwise the first alternative, left to right, naming the variable's value wins, and the fallback is taken when none names it. |
| Expressions.ExpressionProcessor.Accept | src/main/java/com/github/rskupnik/wordplay/internal/processors/ExpressionProcessor.java:136-143 | Appends the gap and the chosen text minus one trailing space, and counts one. |
| Expressions.ExpressionProcessor.ExtractMatchPairs | src/main/java/com/github/rskupnik/wordplay/internal/processors/ExpressionProcessor.java:145-155 | Returns every `(value, text)` pair the sub-pattern finds, in order. Each value is a non-empty word and each text is non-empty. |
| Expressions.SubgroupAt | src/main/java/com/github/rskupnik/wordplay/internal/processors/ExpressionProcessor.java:34 | A reported alternative lies inside the text, has a non-empty word for its value and has a non-empty text. |
| Expressions.SubgroupAtSound | src/main/java/com/github/rskupnik/wordplay/internal/processors/ExpressionProcessor.java:34 | A reported alternative is `\|:`, its value, whitespace and its text, written in the input. The text holds neither `\|` nor `\\` and runs up to the next of them or the end. |
| Expressions.SubgroupAtWhen | src/main/java/com/github/rskupnik/wordplay/internal/processors/ExpressionProcessor.java:34 | The pattern matches at a position exactly when the input there starts with `\|:`, a word character, and a character other than `\|` and `\\`. |
| Expressions.AlternativesRoundTrip | src/main/java/com/github/rskupnik/wordplay/internal/processors/ExpressionProcessor.java:145-155 | Alternatives written as `\|:value text` read back as the pairs they were written from. |
| Expressions.PairsWellFormed | src/main/java/com/github/rskupnik/wordplay/internal/processors/ExpressionProcessor.java:145-155 | Every pair read off a text has a word for its value and a non-empty text. |
| Expressions.NothingToChoose | src/main/java/com/github/rskupnik/wordplay/internal/processors/ExpressionProcessor.java:43-48 | A text that neither pattern matches comes back unchanged from both passes, and from the strict legacy pass. |
| Scanning.Matches | src/main/java/com/github/rskupnik/wordplay/internal/processors/ExpressionProcessor.java:52-53 | The matches one `while (matcher.find())` pass over the whole text visits (the ternary and matching passes among them) come left to right and do not overlap. |
| Expressions.ExpressionProcessor.constructor | src/main/java/com/github/rskupnik/wordplay/internal/processors/ExpressionProcessor.java:32-36 | The processor keeps the two patterns' scanners, and the counter starts at 0. |
| Expressions.TernaryProcessor.Process | src/main/java/com/github/rskupnik/internal/processors/TernaryProcessor.java:19-23 | Resets the counter and runs the strict pass. On success the counter is the number of matches; on a processing fault it is the number substituted before the first unset variable. |
| Expressions.TernaryProcessor.ProcessShorthand | src/main/java/com/github/rskupnik/internal/processors/TernaryProcessor.java:25-44 | Returns `LegacyTernaryText` and counts one per substituted match. |
| Expressions.StrictAgrees | src/main/java/com/github/rskupnik/internal/processors/TernaryProcessor.java:32-38 | The strict pass fails, with a processing fault, exactly when some matched variable is unset. Otherwise it returns what the current pass returns. |
| Expressions.FirstUnbound | src/main/java/com/github/rskupnik/internal/processors/TernaryProcessor.java:32-34 | The first match whose variable is unset, with every earlier one set. |
| Expressions.TernaryProcessor.StrictStep | src/main/java/com/github/rskupnik/internal/processors/TernaryProcessor.java:28-40 | One more match with a set variable adds the gap before it and its chosen branch to the buffer. |
| Expressions.TernaryProcessor.StrictStop | src/main/java/com/github/rskupnik/internal/processors/TernaryProcessor.java:32-34 | A match with an unset variable ends the pass with a processing fault. |
| Expressions.TernaryProcessor.StrictDone | src/main/java/com/github/rskupnik/internal/processors/TernaryProcessor.java:28-43 | When `find` reports nothing more, the buffer plus the tail is the pass's result. |
| Expressions.TernaryProcessor.CheckInvalidPatternsRemaining | src/main/java/com/github/rskupnik/internal/processors/TernaryProcessor.java:46-51 | A syntax fault exactly when some `{` is followed, later on the same line, by `}`. |
| Expressions.OpenNext | src/main/java/com/github/rskupnik/internal/processors/TernaryProcessor.java:15 | A `{` is open after a position exactly when that character does not end the line and either is `{` or has one open before it. |
| Expressions.TernaryProcessor.constructor | src/main/java/com/github/rskupnik/internal/processors/TernaryProcessor.java:12-17 | The processor keeps the shorthand pattern's scanner, and the counter starts at 0. |
| Emission.EmissionProcessor.ProcessAnchoredObjects | src/main/java/com/github/rskupnik/wordplay/internal/processors/EmissionProcessor.java:83-105 | Returns phase 1's text: every anchored expression becomes its token followed by its payload. It returns the components `(payload, index, parameters)` in match order. The counter equals the number of matches, and `internalIndex` has moved on by one per match. |
| Emission.Phase1Step | src/main/java/com/github/rskupnik/wordplay/internal/processors/EmissionProcessor.java:88-101 | One more anchored expression adds the gap, its token and its payload to the buffer, and its component to the list. |
| Emission.AnchorAt | src/main/java/com/github/rskupnik/wordplay/internal/processors/EmissionProcessor.java:34 | A reported match starts at the position tried and lies inside the text. |
| Emission.AnchorAtSound | src/main/java/com/github/rskupnik/wordplay/internal/processors/EmissionProcessor.java:34 | Every reported match is `{<`, whitespace, a non-empty run of `[\w:\|]`, one whitespace character, a non-empty run of `[\w\s]` (the payload, trailing whitespace included), `}`. |
| Emission.AnchorAtComplete | src/main/java/com/github/rskupnik/wordplay/internal/processors/EmissionProcessor.java:34 | Every text of that form starting at a position is reported there, with its groups. |
| Emission.AnchorMatches | src/main/java/com/github/rskupnik/wordplay/internal/processors/EmissionProcessor.java:87-88 | The anchored expressions are visited left to right and do not overlap. |
| Emission.AnchorExprOneBrace | src/main/java/com/github/rskupnik/wordplay/internal/processors/EmissionProcessor.java:34 | An anchored expression holds one `{`, and its payload holds none. |
| Emission.Phase1RemovesBraces | src/main/java/com/github/rskupnik/wordplay/internal/processors/EmissionProcessor.java:88-102 | Phase 1 removes exactly one `{` per anchored expression and writes none. |
| Emission.TokenHasNoBrace | src/main/java/com/github/rskupnik/wordplay/internal/processors/EmissionProcessor.java:97 | A token holds no `{`. |
| Emission.EmissionProcessor.ExtractParameters | src/main/java/com/github/rskupnik/wordplay/internal/processors/EmissionProcessor.java:107-116 | Returns `Params`: every `key:value` pair put into a fresh map in the order found. |
| Emission.ParamsFound | src/main/java/com/github/rskupnik/wordplay/internal/processors/EmissionProcessor.java:107-115 | Each pair is literally `key:value` in the parameter text, both sides non-empty words. A key is in the map exactly when some pair has it, with the value of the last such pair. |
| Emission.ParamAtSound | src/main/java/com/github/rskupnik/wordplay/internal/processors/EmissionProcessor.java:35 | A reported pair spans `key:value`, both sides non-empty runs of word characters. |
| Emission.ParamAtComplete | src/main/java/com/github/rskupnik/wordplay/internal/processors/EmissionProcessor.java:35 | Every `key:value` pair of non-empty word runs written at a position is reported there with that key; the value reported starts with the one written. |
| Emission.ParamsCover | src/main/java/com/github/rskupnik/wordplay/internal/processors/EmissionProcessor.java:107-115 | The `find` loop misses no pair: every `key:value` pair of word runs in the parameter text starts inside a pair it reports. |
| Emission.ParamsOf | src/main/java/com/github/rskupnik/wordplay/internal/processors/EmissionProcessor.java:107-115 | Non-empty word pairs written `k1:v1\|k2:v2\|…` read back as the map that puts them in order: each key with the value of its last pair. |
| Emission.EmissionProcessor.NextIndex | src/main/java/com/github/rskupnik/wordplay/internal/processors/EmissionProcessor.java:118-123 | Returns the counter after wrapping it to 0 when it is past 1000, so the result is at most 1000. The counter becomes the result plus one. |
| Emission.IndicesWrap | src/main/java/com/github/rskupnik/wordplay/internal/processors/EmissionProcessor.java:118-123 | Successive indices are at most 1000, count up by one and go from 1000 back to 0. Up to 1001 successive indices are pairwise different. |
| Emission.WrapCounter | src/main/java/com/github/rskupnik/wordplay/internal/processors/EmissionProcessor.java:118-123 | The `j`-th index after counter `c` is the first index plus `j`, modulo 1001. |
| Emission.Token | src/main/java/com/github/rskupnik/wordplay/internal/processors/EmissionProcessor.java:57 | A token is `$`, then three more characters and the decimal digits of the index, with no other `$`. |
| Emission.TokenAtToken | src/main/java/com/github/rskupnik/wordplay/internal/processors/EmissionProcessor.java:36 | Where phase 1 wrote a token, the token pattern matches exactly that token. |
| Emission.TokenAtSound | src/main/java/com/github/rskupnik/wordplay/internal/processors/EmissionProcessor.java:36 | A reported token is `$@s`, a non-empty run of digits and one whitespace character. |
| Emission.TokenAtComplete | src/main/java/com/github/rskupnik/wordplay/internal/processors/EmissionProcessor.java:36 | Every `$@s`, run of digits and whitespace character at a position is reported there, spanning exactly those characters. |
| Emission.TokensDiffer | src/main/java/com/github/rskupnik/wordplay/internal/processors/EmissionProcessor.java:57-58 | The tokens of two different indices never start with each other, so `indexOf` tells them apart. |
| Emission.EmissionProcessor.ConstructAnchoredObjects | src/main/java/com/github/rskupnik/wordplay/internal/processors/EmissionProcessor.java:51-72 | Returns the input with every token removed, and one object per component, placed by the first occurrence of its token minus the lengths of the earlier tokens. |
| Emission.EmissionProcessor.PlaceComponents | src/main/java/com/github/rskupnik/wordplay/internal/processors/EmissionProcessor.java:55-61 | The `acc` loop gives `Placed`: one object per component, in component order. |
| Emission.PlacedSnoc | src/main/java/com/github/rskupnik/wordplay/internal/processors/EmissionProcessor.java:56-61 | One more component adds its token's length to `acc` and its object at the end. |
| Emission.EmissionProcessor.RemoveTokens | src/main/java/com/github/rskupnik/wordplay/internal/processors/EmissionProcessor.java:64-69 | The token loop gives `StripTokens`: every match of the token pattern replaced by nothing. |
| Emission.StripStep | src/main/java/com/github/rskupnik/wordplay/internal/processors/EmissionProcessor.java:66-68 | One more token removed keeps the loop's buffer equal to the text up to it, with every token so far dropped. |
| Emission.EmissionProcessor.constructor | src/main/java/com/github/rskupnik/wordplay/internal/processors/EmissionProcessor.java:39-40 | Both counters start at 0. |
| Placement.PlacedAtPayload | src/main/java/com/github/rskupnik/wordplay/internal/processors/EmissionProcessor.java:51-72 | When the tokens of pairwise different indices sit in the text in component order and no other `$` occurs, the `k`-th object's position is the offset of the text that followed its token in the stripped text. What precedes that offset is the original text up to that token, with every token dropped. |
| Placement.PositionOfToken | src/main/java/com/github/rskupnik/wordplay/internal/processors/EmissionProcessor.java:55-60 | In that case the `k`-th position is where its token starts, less the characters the earlier tokens cover. |
| Placement.TokenFirstAt | src/main/java/com/github/rskupnik/wordplay/internal/processors/EmissionProcessor.java:57-58 | In that case `indexOf` of the `k`-th token is where it was laid out. |
| Placement.TokensFound | src/main/java/com/github/rskupnik/wordplay/internal/processors/EmissionProcessor.java:64-69 | In that case the token pattern finds exactly the laid-out tokens, and phase 2's text is the input with those spans dropped. |
| Placement.TokenScan | src/main/java/com/github/rskupnik/wordplay/internal/processors/EmissionProcessor.java:64-68 | From the end of the `k`-th token on, `find` reports exactly the remaining tokens. |
| Placement.DroppedLength | src/main/java/com/github/rskupnik/wordplay/internal/processors/EmissionProcessor.java:58-59 | Dropping the first `k + 1` tokens shortens the text before the `k`-th token's end by the characters those tokens cover. |
| HeaderPreprocessor.Process | src/main/java/com/github/rskupnik/wordplay/internal/preprocessors/HeaderPreprocessor.java:12-30 | Returns `Headers`: none without a delimiter line; otherwise the map built from the lines after the first one. |
| HeaderPreprocessor.Headers | src/main/java/com/github/rskupnik/wordplay/internal/preprocessors/HeaderPreprocessor.java:16-18 | Without `lineEnding + "!$" + lineEnding` in the input, the result is the empty map. |
| HeaderPreprocessor.HeadersAt | src/main/java/com/github/rskupnik/wordplay/internal/preprocessors/HeaderPreprocessor.java:14-20 | The body starts after the delimiter line and lies inside the input. |
| HeaderPreprocessor.HeadersIgnorePrefix | src/main/java/com/github/rskupnik/wordplay/internal/preprocessors/HeaderPreprocessor.java:16-21 | Nothing before the first delimiter line is read: the headers are those of the lines after it. |
| HeaderPreprocessor.LinesToMapNext | src/main/java/com/github/rskupnik/wordplay/internal/preprocessors/HeaderPreprocessor.java:21-27 | A line of at most one part adds nothing. Any other line puts its value under its first part. |
| HeaderPreprocessor.LinesToMapEntries | src/main/java/com/github/rskupnik/wordplay/internal/preprocessors/HeaderPreprocessor.java:21-27 | A key is present exactly when some line sets it, and it holds the value of the last line that does. |
| HeaderPreprocessor.LastDefining | src/main/java/com/github/rskupnik/wordplay/internal/preprocessors/HeaderPreprocessor.java:21-27 | The last line whose first part is the key and which has two or more parts. |
| HeaderPreprocessor.IntoValue | src/main/java/com/github/rskupnik/wordplay/internal/preprocessors/HeaderPreprocessor.java:32-38 | The index loop returns the parts after the first, run together. |
| HeaderPreprocessor.ValueRunsTogether | src/main/java/com/github/rskupnik/wordplay/internal/preprocessors/HeaderPreprocessor.java:32-38 | `a b c` gives `a` the value `bc`. |
| LineEnding.Deduce | src/main/java/com/github/rskupnik/wordplay/util/LineEnding.java:5-7 | `"\r\n"` when the input holds a CR LF pair, even with lone LFs elsewhere. Otherwise `"\n"` when it holds an LF, and otherwise `"\r"`, also for a text without line breaks. The result is always one of the three. |
| LineEnding.ContainsCrLf | src/main/java/com/github/rskupnik/wordplay/util/LineEnding.java:6 | `contains("\r\n")` holds exactly when some CR is followed by an LF. |
| LineEnding.ContainsLf | src/main/java/com/github/rskupnik/wordplay/util/LineEnding.java:6 | `contains("\n")` holds exactly when some character is an LF. |
| ExpressionFinder.FindInjectionExpressions | src/main/java/com/github/rskupnik/internal/expressions/ExpressionFinder.java:16-25 | Returns one expression per match, in the order `find` reports them. |
| ExpressionFinder.ExpressionsWellFormed | src/main/java/com/github/rskupnik/internal/expressions/ExpressionFinder.java:16-25 | Each expression's text is the input between its offsets, with the shape `{>`, an optional space, a name without whitespace, an optional space, `}`. The expressions come left to right without overlap. |
| ExpressionFinder.ExpressionAt | src/main/java/com/github/rskupnik/internal/expressions/ExpressionFinder.java:10 | A reported match starts at the position tried and lies inside the text. |
| ExpressionFinder.ExpressionAtSound | src/main/java/com/github/rskupnik/internal/expressions/ExpressionFinder.java:10 | Every reported match has the pattern's shape, and group 1 is its name. |
| ExpressionFinder.ExpressionAtComplete | src/main/java/com/github/rskupnik/internal/expressions/ExpressionFinder.java:10 | Every text of the pattern's shape starting at a position makes the attempt there succeed. |
| ExpressionFinder.ExpressionsCover | src/main/java/com/github/rskupnik/internal/expressions/ExpressionFinder.java:16-25 | The loop misses no expression: every text of the pattern's shape starts inside a reported expression. |
| ExpressionFinder.EmptyNameFound | src/main/java/com/github/rskupnik/internal/expressions/ExpressionFinder.java:10 | The name may be empty: `{>}` is reported with an empty name. |
| Scanning.FindLeftmost | src/main/java/com/github/rskupnik/wordplay/internal/processors/InjectionProcessor.java:42 | `find` reports the leftmost match: nothing matches between the start position and the match it reports. |
| Scanning.FindAllCover | src/main/java/com/github/rskupnik/wordplay/internal/processors/InjectionProcessor.java:42 | The `find` loop skips nothing: every position where the pattern matches lies inside a reported match. |
| Scanning.FindAllStep | src/main/java/com/github/rskupnik/wordplay/internal/processors/InjectionProcessor.java:42-49 | Each round of a `find` loop visits the next match, after the ones already visited. |
| Scanning.FindAllDone | src/main/java/com/github/rskupnik/wordplay/internal/processors/InjectionProcessor.java:42-50 | When `find` reports nothing more, the loop has visited every match. |
| Rewriting.SpliceIdentity | src/main/java/com/github/rskupnik/wordplay/internal/processors/InjectionProcessor.java:47-50 | Replacing every match by its own text gives back the input. |
| Rewriting.SpliceLength | src/main/java/com/github/rskupnik/wordplay/internal/processors/InjectionProcessor.java:47-52 | The rewritten text is the input's length, less what the matches cover, plus the replacements' lengths. |
| Rewriting.SplicePlain | src/main/java/com/github/rskupnik/wordplay/internal/processors/InjectionProcessor.java:47 | A rewrite with replacements free of `$` and `\` keeps a text free of them. |
| Rewriting.SpliceOccurrences | src/main/java/com/github/rskupnik/wordplay/internal/processors/EmissionProcessor.java:97-98 | When every match holds one more `c` than its replacement, the rewrite removes one `c` per match. |
| Text.Trim | src/main/java/com/github/rskupnik/wordplay/internal/processors/CodeProcessor.java:69 | `trim` leaves a text that starts and ends with a visible character, and that is a slice of the input with only characters up to U+0020 around it. |
| Text.IndexOf | src/main/java/com/github/rskupnik/wordplay/internal/processors/CodeProcessor.java:41 | `indexOf` is -1 exactly when the pattern occurs nowhere. Otherwise the pattern occurs there and not earlier. |
| Text.JavaSplitPieces | src/main/java/com/github/rskupnik/wordplay/internal/processors/CodeProcessor.java:53 | The pieces of `split` hold no separator, and joined with it they give a prefix of the input. Only trailing empty pieces are lost. |
| Text.JoinSplitAll | src/main/java/com/github/rskupnik/wordplay/internal/processors/CodeProcessor.java:53 | Splitting at every separator and joining again gives back the input. |
| Text.ParseDecimalInverse | src/main/java/com/github/rskupnik/wordplay/internal/processors/EmissionProcessor.java:57 | The decimal rendering of an index reads back as that index. |
| Text.DecimalInjective | src/main/java/com/github/rskupnik/wordplay/internal/processors/EmissionProcessor.java:57 | Different indices render differently. |
| Assoc.PutAllAt | src/main/java/com/github/rskupnik/wordplay/WordplayImpl.java:53-55 | `put` in order: a key is present exactly when it was before or some pair has it, and the last such pair gives its value. |
| Assoc.PutAllKeys | src/main/java/com/github/rskupnik/wordplay/internal/processors/EmissionProcessor.java:110-114 | The keys after the puts are the old keys plus the pairs' keys, and no other. |
| Assoc.FirstWith | src/main/java/com/github/rskupnik/wordplay/internal/processors/ExpressionProcessor.java:95-101 | The first pair with the key, every pair before it having another key, or the end when none has it. |

## Left out

- The ternary and matching patterns (`ExpressionProcessor.java:32-33`, `TernaryProcessor.java:12`) depend on Java's backtracking regex engine. The model does not reimplement it: a `TernaryScanner` or `MatchingScanner` supplied with the processor reports the match and groups at each position. The legacy `PATTERN_FULL` and `PATTERN_SUBGROUP` of `TernaryProcessor` are never used by its code.
- `Matcher.appendReplacement` treats `$` and `\` in an unquoted replacement specially. The model requires every substituted text to hold neither (`Plain`, `PlainValues`, `PlainTernaries`, `PlainMatchings`, `PlainStrict`, `Substitutable`), and then `appendReplacement` copies them verbatim. Phase 1 quotes its replacement and needs no such requirement.
- Wordplay.WordplayImpl.Process: the injection and conditional loops are bounded by `fuel` extra passes and return `Diverged` where the Java loop would run for ever (for instance when `a` is injected as `{>a}`).
- Wordplay.WordplayImpl.Process: does not state the processors' `expressionsProcessed` counters when a stage fails; it states them only on success.
- Wordplay.AnchorFix: its own contract does not state the counter it returns. `Wordplay.WordplayImpl.AnchorsToFixpoint` ties that counter to `internalIndex`.
- Placement.PlacedAtPayload: is stated for a text in which the tokens of pairwise different indices sit in component order and no other `$` occurs. The model does not prove that phase 1's output meets this. It fails, for instance, with more than 1001 anchored objects in one render (indices repeat) or with a `$` elsewhere in the text.
- `HashMap` iteration order and thread safety are not observable in this single-threaded code. Maps are Dafny `map`s, and only the order of `put` calls is modelled (`Assoc.PutAll`).
- The data holders (`WordplayOutput`, `AnchoredObject`, `MetaMap`, `MetaList`, `InjectionExpression`) are datatypes. Their typed accessors (`getInt`, `getBool`, `getIntParam`) wrap `Integer.parseInt` and `Boolean.parseBoolean` and are not modelled.
- The `Wordplay` interfaces of both packages hold no logic.
- The legacy root `WordplayImpl` delegates to an `Injector` class; `Injector` is not part of this model.
- The `main` methods and the `System.out.println` calls of `ExpressionFinder` only print.
- A `null` input, and the `NullPointerException` paths it would take, are not modelled: every text is a `seq<char>`.
- `\w` and `\s` are the ASCII classes of a pattern compiled without flags. Text is a sequence of `char`, with no encoding or normalisation.
- `expressionsProcessedNumber` and `internalIndex` are Java `int`s. Neither can overflow in the model (`internalIndex` wraps at 1000), so they are `nat`s.
