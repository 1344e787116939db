/** `CodeProcessor`: a script may end in a code section, after a line holding only `$`. Each of its
    lines is empty, an injection `> name body`, or a meta object `<m …` / `<l …`. The legacy copy of
    the processor reads lines the same way. */
module Code {
  import opened Text
  import opened Outcomes
  import opened Meta

  /** The line that separates the data section from the code section. */
  const Delimiter: String := "\n$\n"

  /** What `parse` returns: the data section, and the injections and meta objects of the code
      section, both absent (`null`) when the script has no code section. */
  datatype Parsed = Parsed(data: String, injections: Option<seq<(String, String)>>, metas: Option<seq<MetaObject>>)

  /** What one code line adds to the output of `parse`. */
  datatype LineEffect = Skip | Injected(name: String, body: String) | Emitted(meta: MetaObject)

  /** `parseLine`: an empty line adds nothing; a line that starts with neither `<` nor `>` is a
      syntax error; `>` trims the rest and splits it at its first space (no space makes
      `substring(0, -1)` throw); `<` hands the trimmed rest to the meta parser. */
  function LineSpec(line: String): (r: Result<LineEffect>)
    ensures r.Ok? && r.value.Injected? ==> !Contains(r.value.name, " ")
  {
    if line == [] then Ok(Skip)
    else if line[0] != '<' && line[0] != '>' then Err(SyntaxFault)
    else
      var rest := Trim(line[1..]);
      if line[0] == '>' then
        var i := IndexOf(rest, " ");
        if i < 0 then Err(RuntimeFault)
        else
          PrefixBeforeFirstFree(rest, " ", i);
          Ok(Injected(rest[..i], rest[i + 1..]))
      else
        var m :- MetaSpec(rest);
        Ok(Emitted(m))
  }

  /** The effect of one line on the lists built so far. */
  function Apply(acc: (seq<(String, String)>, seq<MetaObject>), effect: LineEffect): (seq<(String, String)>, seq<MetaObject>) {
    match effect
    case Skip => acc
    case Injected(name, body) => (acc.0 + [(name, body)], acc.1)
    case Emitted(m) => (acc.0, acc.1 + [m])
  }

  /** The lists built from `lines` in order, or the error of the first line that has one. */
  function LinesSpec(lines: seq<String>): Result<(seq<(String, String)>, seq<MetaObject>)> {
    if |lines| == 0 then Ok(([], []))
    else
      var acc :- LinesSpec(lines[..|lines| - 1]);
      var effect :- LineSpec(lines[|lines| - 1]);
      Ok(Apply(acc, effect))
  }

  /** `parse`: no delimiter line leaves the script whole with no code section; otherwise the data
      section is the text before the first delimiter and the code section is split on `"\n"`. */
  function ParseSpec(input: String): Result<Parsed> {
    var delimIndex := IndexOf(input, Delimiter);
    if delimIndex == -1 then Ok(Parsed(input, None, None))
    else SectionsSpec(input[..delimIndex], input[delimIndex + 3..])
  }

  /** The data section as it is, and the lists read from the code section's lines. */
  function SectionsSpec(data: String, code: String): Result<Parsed> {
    var acc :- LinesSpec(JavaSplit(code, "\n"));
    Ok(Parsed(data, Some(acc.0), Some(acc.1)))
  }

  /** `parseLine`, returning what the Java method adds to the output lists. */
  method ParseLine(line: String) returns (r: Result<LineEffect>)
    ensures r == LineSpec(line)
  {
    if line == [] {
      return Ok(Skip);
    }
    var token := line[0];
    if token != '<' && token != '>' {
      return Err(SyntaxFault);
    }
    var rest := Trim(line[1..]);
    if token == '>' {
      var space := IndexOf(rest, " ");
      if space < 0 {
        NoSpaceLineSpec(line, rest);
        return Err(RuntimeFault);
      }
      InjectionLineSpec(line, rest, space);
      return Ok(Injected(rest[..space], rest[space + 1..]));
    }
    var meta := ProcessMeta(rest);
    MetaLineSpec(line, rest);
    if meta.Err? {
      return Err(meta.fault);
    }
    return Ok(Emitted(meta.value));
  }

  /** What `parseLine` gives for a `>` line: the trimmed rest split at its first space. */
  lemma InjectionLineSpec(line: String, rest: String, space: nat)
    requires line != [] && line[0] == '>' && rest == Trim(line[1..])
    requires space == IndexOf(rest, " ") && space < |rest|
    ensures LineSpec(line) == Ok(Injected(rest[..space], rest[space + 1..]))
  {
  }

  /** A `>` line whose trimmed rest holds no space makes `parseLine` throw. */
  lemma NoSpaceLineSpec(line: String, rest: String)
    requires line != [] && line[0] == '>' && rest == Trim(line[1..]) && IndexOf(rest, " ") < 0
    ensures LineSpec(line) == Err(RuntimeFault)
  {
  }

  /** What `parseLine` gives for a `<` line: the meta parser's object, or its error. */
  lemma MetaLineSpec(line: String, rest: String)
    requires line != [] && line[0] == '<' && rest == Trim(line[1..])
    ensures MetaSpec(rest).Err? ==> LineSpec(line) == Err(MetaSpec(rest).fault)
    ensures MetaSpec(rest).Ok? ==> LineSpec(line) == Ok(Emitted(MetaSpec(rest).value))
  {
  }

  /** An injection read from a `>` line has a non-empty name and a non-empty value: the trimmed
      rest neither starts nor ends with a space, so its first space splits it into two non-empty
      parts, the name starting and the value ending with a visible character. */
  lemma {:induction false} InjectedNonEmpty(line: String)
    ensures var r := LineSpec(line);
      r.Ok? && r.value.Injected? ==>
        |r.value.name| > 0 && |r.value.body| > 0 &&
        r.value.name[0] > ' ' && r.value.body[|r.value.body| - 1] > ' '
  {
    if line != [] && line[0] == '>' {
      var rest := Trim(line[1..]);
      var i := IndexOf(rest, " ");
      if i >= 0 {
        assert rest[i] == rest[i..i + 1][0] == ' ';
        InjectionLineSpec(line, rest, i);
      }
    }
  }

  /** `parse`: splits off the data section, then reads the code lines in order; the first line
      that fails ends the parse with its error. */
  method Parse(input: String) returns (r: Result<Parsed>)
    ensures r == ParseSpec(input)
  {
    var delimIndex := IndexOf(input, Delimiter);
    DelimiterBounds(input);
    if delimIndex == -1 {
      r := Ok(Parsed(input, None, None));
    } else {
      r := ReadSections(input[..delimIndex], input[delimIndex + 3..]);
    }
  }

  /** The delimiter line, where there is one, lies inside the script. */
  lemma DelimiterBounds(input: String)
    ensures IndexOf(input, Delimiter) == -1 || 0 <= IndexOf(input, Delimiter) <= |input| - |Delimiter|
    ensures |Delimiter| == 3
  {
  }

  /** The part of `parse` after the split: the code lines read in order. */
  method ReadSections(data: String, code: String) returns (r: Result<Parsed>)
    ensures r == SectionsSpec(data, code)
  {
    var lists := ReadLines(JavaSplit(code, "\n"));
    if lists.Err? {
      return Err(lists.fault);
    }
    return Ok(Parsed(data, Some(lists.value.0), Some(lists.value.1)));
  }

  /** The loop of `parse` over the code lines: each line's effect in order, or the first error. */
  method ReadLines(codeLines: seq<String>) returns (r: Result<(seq<(String, String)>, seq<MetaObject>)>)
    ensures r == LinesSpec(codeLines)
  {
    var injections: seq<(String, String)> := [];
    var metas: seq<MetaObject> := [];
    for k := 0 to |codeLines|
      invariant LinesSpec(codeLines[..k]) == Ok((injections, metas))
    {
      LinesNext(codeLines, k);
      var effect := ParseLine(codeLines[k]);
      if effect.Err? {
        LinesErrPrefix(codeLines, k + 1);
        return Err(effect.fault);
      }
      match effect.value {
        case Skip =>
        case Injected(name, body) =>
          injections := injections + [(name, body)];
        case Emitted(m) =>
          metas := metas + [m];
      }
    }
    assert codeLines[..|codeLines|] == codeLines;
    return Ok((injections, metas));
  }

  /** One more line read: its effect applied to the lists of the lines before it. */
  lemma {:induction false} LinesNext(lines: seq<String>, k: nat)
    requires k < |lines|
    ensures LinesSpec(lines[..k]).Ok? && LineSpec(lines[k]).Ok? ==>
      LinesSpec(lines[..k + 1]) == Ok(Apply(LinesSpec(lines[..k]).value, LineSpec(lines[k]).value))
    ensures LinesSpec(lines[..k]).Ok? && LineSpec(lines[k]).Err? ==>
      LinesSpec(lines[..k + 1]) == Err(LineSpec(lines[k]).fault)
  {
    TakeTake(lines, k);
  }

  /** A first error among the lines seen so far is the error of all of them. */
  lemma {:induction false} LinesErrPrefix(lines: seq<String>, k: nat)
    requires k <= |lines| && LinesSpec(lines[..k]).Err?
    ensures LinesSpec(lines) == LinesSpec(lines[..k])
    decreases |lines| - k
  {
    if k < |lines| {
      TakeTake(lines, k);
      assert LinesSpec(lines[..k + 1]) == LinesSpec(lines[..k]);
      LinesErrPrefix(lines, k + 1);
    } else {
      assert lines[..k] == lines;
    }
  }

  // ---------------------------------------------------------------------------
  // What `parse` promises
  // ---------------------------------------------------------------------------

  /** Without a delimiter line the whole script is data and there is no code section; with one,
      the data section is the text before the first delimiter, which holds none. */
  lemma {:induction false} ParseData(input: String)
    ensures !Contains(input, Delimiter) ==> ParseSpec(input) == Ok(Parsed(input, None, None))
    ensures Contains(input, Delimiter) && ParseSpec(input).Ok? ==>
      var p := ParseSpec(input).value;
      p.injections.Some? && p.metas.Some? &&
      input == p.data + Delimiter + input[|p.data| + 3..] && !Contains(p.data, Delimiter)
  {
    var d := IndexOf(input, Delimiter);
    if d >= 0 {
      assert input == input[..d] + input[d..d + 3] + input[d + 3..];
      PrefixBeforeFirstFree(input, Delimiter, d);
    }
  }

  /** A line that fails makes the whole parse fail, whatever the other lines hold. */
  lemma {:induction false} LineErrorAborts(before: seq<String>, line: String, after: seq<String>)
    requires LinesSpec(before).Ok? && LineSpec(line).Err?
    ensures LinesSpec(before + [line] + after) == Err(LineSpec(line).fault)
  {
    var lines := before + [line] + after;
    var k := |before| + 1;
    assert lines[..k][..|before|] == before;
    assert lines[..k][k - 1] == line;
    LinesErrPrefix(lines, k);
  }

  /** The injection line `> name body`. */
  function InjectionLine(def: (String, String)): String {
    "> " + def.0 + " " + def.1
  }

  /** A definition that an injection line carries through unchanged: a word-character name and a
      one-line body that ends visibly. */
  predicate Writable(def: (String, String)) {
    Wordy(def.0) && |def.1| > 0 && def.1[|def.1| - 1] > ' ' &&
    forall i :: 0 <= i < |def.1| ==> def.1[i] != '\n'
  }

  /** Writing an injection line and reading it back gives the definition. */
  lemma {:induction false} InjectionLineRoundTrip(def: (String, String))
    requires Writable(def)
    ensures LineSpec(InjectionLine(def)) == Ok(Injected(def.0, def.1))
  {
    var line := InjectionLine(def);
    var t := def.0 + " " + def.1;
    assert line[1..] == " " + t;
    assert t[0] == def.0[0] && t[|t| - 1] == def.1[|def.1| - 1];
    TrimSpaced(t);
    IdAndBodyOf(def.0, def.1);
  }

  function InjectionLines(defs: seq<(String, String)>): (lines: seq<String>)
    ensures |lines| == |defs|
  {
    seq(|defs|, i requires 0 <= i < |defs| => InjectionLine(defs[i]))
  }

  lemma {:induction false} InjectionLinesTake(defs: seq<(String, String)>, n: nat)
    requires n <= |defs|
    ensures InjectionLines(defs)[..n] == InjectionLines(defs[..n])
  {
    var a, b := InjectionLines(defs)[..n], InjectionLines(defs[..n]);
    forall i | 0 <= i < n ensures a[i] == b[i] {
    }
  }

  /** Injection lines are read back, in order, as their definitions. */
  lemma {:induction false} InjectionLinesRead(defs: seq<(String, String)>)
    requires forall i :: 0 <= i < |defs| ==> Writable(defs[i])
    ensures LinesSpec(InjectionLines(defs)) == Ok((defs, []))
  {
    if |defs| > 0 {
      InjectionLinesRead(defs[..|defs| - 1]);
      InjectionLinesLast(defs);
    }
  }

  /** One more injection line adds its definition to those the lines before it gave. */
  lemma {:induction false} InjectionLinesLast(defs: seq<(String, String)>)
    requires |defs| > 0 && forall i :: 0 <= i < |defs| ==> Writable(defs[i])
    requires LinesSpec(InjectionLines(defs[..|defs| - 1])) == Ok((defs[..|defs| - 1], []))
    ensures LinesSpec(InjectionLines(defs)) == Ok((defs, []))
  {
    var n := |defs| - 1;
    var lines := InjectionLines(defs);
    InjectionLinesTake(defs, n);
    InjectionLineRoundTrip(defs[n]);
    assert lines[n] == InjectionLine(defs[n]);
    LinesLast(lines, (defs[..n], []), Injected(defs[n].0, defs[n].1));
    TakeSnoc(defs, n);
    assert defs[..n] + [(defs[n].0, defs[n].1)] == defs;
  }

  /** The last line's effect applied to the lists of the lines before it. */
  lemma LinesLast(lines: seq<String>, acc: (seq<(String, String)>, seq<MetaObject>), effect: LineEffect)
    requires |lines| > 0 && LinesSpec(lines[..|lines| - 1]) == Ok(acc)
    requires LineSpec(lines[|lines| - 1]) == Ok(effect)
    ensures LinesSpec(lines) == Ok(Apply(acc, effect))
  {
  }

  /** A data section without `$` followed by a code section of injection lines parses back into
      that data section and those definitions, with no meta objects. */
  lemma {:induction false} ParseRoundTrip(data: String, defs: seq<(String, String)>)
    requires forall i :: 0 <= i < |data| ==> data[i] != '$'
    requires |defs| > 0 && forall i :: 0 <= i < |defs| ==> Writable(defs[i])
    ensures ParseSpec(data + Delimiter + Join(InjectionLines(defs), "\n")) == Ok(Parsed(data, Some(defs), Some([])))
  {
    var code := Join(InjectionLines(defs), "\n");
    var input := data + Delimiter + code;
    DelimiterFirstAt(data, code);
    assert input[|data| + 3..] == code;
    assert input[..|data|] == data;
    LinesFreeOfNewline(defs);
    JavaSplitJoin(InjectionLines(defs), '\n');
    InjectionLinesRead(defs);
  }

  /** No injection line holds a line break, and the last one is not empty. */
  lemma {:induction false} LinesFreeOfNewline(defs: seq<(String, String)>)
    requires forall i :: 0 <= i < |defs| ==> Writable(defs[i])
    requires |defs| > 0
    ensures var lines := InjectionLines(defs);
      (forall k, i :: 0 <= k < |lines| && 0 <= i < |lines[k]| ==> lines[k][i] != '\n') &&
      lines[|lines| - 1] != []
  {
    var lines := InjectionLines(defs);
    forall k, i | 0 <= k < |lines| && 0 <= i < |lines[k]| ensures lines[k][i] != '\n' {
      var d := defs[k];
      assert lines[k] == "> " + d.0 + " " + d.1;
      if 2 <= i < 2 + |d.0| {
        assert lines[k][i] == d.0[i - 2];
        assert IsWordChar(d.0[i - 2]);
      } else if i >= 3 + |d.0| {
        assert lines[k][i] == d.1[i - 3 - |d.0|];
      }
    }
  }

  /** With no `$` in the data section, the first delimiter is the one right after it. */
  lemma {:induction false} DelimiterFirstAt(data: String, code: String)
    requires forall i :: 0 <= i < |data| ==> data[i] != '$'
    ensures IndexOf(data + Delimiter + code, Delimiter) == |data|
  {
    var input := data + Delimiter + code;
    assert OccursAt(input, Delimiter, |data|) by {
      assert input[|data|..|data| + 3] == Delimiter;
    }
    forall j | 0 <= j < |data| ensures !OccursAt(input, Delimiter, j) {
      if j + 1 < |data| {
        assert input[j + 1] == data[j + 1];
      } else {
        assert input[j + 1] == Delimiter[0];
      }
      NoDelimiterAt(input, j);
    }
  }

  /** The delimiter cannot start where the next character is not `$`. */
  lemma {:induction false} NoDelimiterAt(s: String, j: nat)
    requires j + 1 < |s| && s[j + 1] != '$'
    ensures !OccursAt(s, Delimiter, j)
  {
    if j + 3 <= |s| {
      assert s[j..j + 3][1] == s[j + 1];
    }
  }
}
