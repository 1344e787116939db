/** `HeaderPreprocessor`: reads `key value…` lines that follow a `!$` line. */
module HeaderPreprocessor {
  import opened Text
  import opened Outcomes
  import LineEnding

  const Delimiter: String := "!$"

  /** The delimiter line as searched for: the text's own line ending on both sides of `!$`. */
  function DelimiterLine(lineEnding: String): String {
    lineEnding + Delimiter + lineEnding
  }

  /** The text after the first delimiter line, or `None` without one. */
  function Body(input: String): Option<String> {
    var lineEnding := LineEnding.Deduce(input);
    var index := IndexOf(input, DelimiterLine(lineEnding));
    if index < 0 then None else Some(input[index + |Delimiter| + 2 * |lineEnding|..])
  }

  /** `intoValue`: the parts after the first, run together without a separator. */
  function ValueOf(parts: seq<String>): String {
    if |parts| <= 1 then [] else ValueOf(parts[..|parts| - 1]) + parts[|parts| - 1]
  }

  /** A line that sets `key`: it splits on `" "` into two or more parts, the first being `key`. */
  predicate Defines(line: String, key: String) {
    var parts := JavaSplit(line, " ");
    |parts| > 1 && parts[0] == key
  }

  /** The map the loop over `lines` builds: every line of two or more parts puts its value under its key. */
  function LinesToMap(lines: seq<String>): map<String, String> {
    if |lines| == 0 then map[]
    else
      var parts := JavaSplit(lines[|lines| - 1], " ");
      var m := LinesToMap(lines[..|lines| - 1]);
      if |parts| <= 1 then m else m[parts[0] := ValueOf(parts)]
  }

  /** The headers of `input`: none without a delimiter line, otherwise those of the lines after it. */
  function Headers(input: String): (r: map<String, String>)
    ensures !Contains(input, DelimiterLine(LineEnding.Deduce(input))) ==> r == map[]
  {
    match Body(input)
    case None => map[]
    case Some(body) => LinesToMap(JavaSplit(body, LineEnding.Deduce(input)))
  }

  /** `intoValue`, an index loop that appends to a buffer. */
  method IntoValue(parts: seq<String>) returns (v: String)
    ensures v == ValueOf(parts)
  {
    v := [];
    var i := 1;
    while i < |parts|
      invariant 1 <= i <= |parts| || (|parts| == 0 && i == 1)
      invariant v == ValueOf(parts[..if i <= |parts| then i else |parts|])
    {
      TakeTake(parts, i);
      v := v + parts[i];
      i := i + 1;
    }
    assert |parts| > 0 ==> parts[..|parts|] == parts;
    assert |parts| == 0 ==> ValueOf(parts) == [];
  }

  /** `process`: finds the delimiter line and puts one entry per `key value…` line after it. */
  method Process(input: String) returns (output: map<String, String>)
    ensures output == Headers(input)
  {
    output := map[];
    var lineEnding := LineEnding.Deduce(input);
    var delimiterIndex := IndexOf(input, DelimiterLine(lineEnding));
    HeadersAt(input, lineEnding, delimiterIndex);
    if delimiterIndex == -1 {
      return;
    }
    var body := input[delimiterIndex + |Delimiter| + |lineEnding| * 2..];
    var lines := JavaSplit(body, lineEnding);
    var i := 0;
    while i < |lines|
      invariant 0 <= i <= |lines|
      invariant output == LinesToMap(lines[..i])
    {
      LinesToMapNext(lines, i);
      var split := JavaSplit(lines[i], " ");
      if |split| > 1 {
        var value := IntoValue(split);
        output := output[split[0] := value];
      }
      i := i + 1;
    }
    assert lines[..|lines|] == lines;
  }

  /** The headers in terms of where the delimiter line was found. */
  lemma {:induction false} HeadersAt(input: String, lineEnding: String, index: int)
    requires lineEnding == LineEnding.Deduce(input)
    requires index == IndexOf(input, DelimiterLine(lineEnding))
    ensures index == -1 ==> Headers(input) == map[]
    ensures index != -1 ==> 0 <= index + |Delimiter| + |lineEnding| * 2 <= |input|
    ensures index != -1 ==>
      Headers(input) == LinesToMap(JavaSplit(input[index + |Delimiter| + |lineEnding| * 2..], lineEnding))
  {
    if index == -1 {
      assert Body(input) == None;
    } else {
      assert Body(input) == Some(input[index + |Delimiter| + |lineEnding| * 2..]);
    }
  }

  /** One more line puts its entry, if it has one, over the map of the lines before it. */
  lemma {:induction false} LinesToMapNext(lines: seq<String>, i: nat)
    requires i < |lines|
    ensures var parts := JavaSplit(lines[i], " ");
      LinesToMap(lines[..i + 1]) ==
        if |parts| <= 1 then LinesToMap(lines[..i]) else LinesToMap(lines[..i])[parts[0] := ValueOf(parts)]
  {
    TakeTake(lines, i);
  }

  /** The last line that sets `key`, or -1. */
  function LastDefining(lines: seq<String>, key: String): (r: int)
    ensures -1 <= r < |lines|
    ensures r >= 0 ==> Defines(lines[r], key)
    ensures forall k :: r < k < |lines| ==> !Defines(lines[k], key)
  {
    if |lines| == 0 then -1
    else if Defines(lines[|lines| - 1], key) then |lines| - 1
    else
      var init := lines[..|lines| - 1];
      assert forall k :: 0 <= k < |init| ==> init[k] == lines[k];
      LastDefining(init, key)
  }

  /** A key is present exactly when some line sets it, and it holds the value of the
      last line that does: a later line with the same key overwrites an earlier one. */
  lemma {:induction false} LinesToMapEntries(lines: seq<String>, key: String)
    ensures key in LinesToMap(lines) <==> LastDefining(lines, key) >= 0
    ensures key in LinesToMap(lines) ==>
      LinesToMap(lines)[key] == ValueOf(JavaSplit(lines[LastDefining(lines, key)], " "))
  {
    if |lines| > 0 {
      var n := |lines| - 1;
      LinesToMapEntries(lines[..n], key);
      if !Defines(lines[n], key) {
        var parts := JavaSplit(lines[n], " ");
        assert |parts| <= 1 || parts[0] != key;
        assert key in LinesToMap(lines) <==> key in LinesToMap(lines[..n]);
        var j := LastDefining(lines[..n], key);
        assert j >= 0 ==> lines[..n][j] == lines[j];
      }
    }
  }

  /** Nothing before the first delimiter line is read: the headers are those of the text after it. */
  lemma {:induction false} HeadersIgnorePrefix(before: String, after: String, lineEnding: String)
    requires lineEnding == LineEnding.Deduce(before + DelimiterLine(lineEnding) + after)
    requires IndexOf(before + DelimiterLine(lineEnding) + after, DelimiterLine(lineEnding)) == |before|
    ensures Headers(before + DelimiterLine(lineEnding) + after) == LinesToMap(JavaSplit(after, lineEnding))
  {
    var input := before + DelimiterLine(lineEnding) + after;
    assert input[|before| + |Delimiter| + 2 * |lineEnding|..] == after;
  }

  /** The value runs the remaining parts together: `a b c` gives `a` the value `bc`. */
  lemma {:induction false} ValueRunsTogether()
    ensures ValueOf(["a", "b", "c"]) == "bc"
  {
    assert ["a", "b", "c"][..2] == ["a", "b"];
    assert ["a", "b"][..1] == ["a"];
  }
}
