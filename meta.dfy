/** `EmissionProcessor.processMeta`: a code-section line `<m id k:v|k2:v2` declares a meta map,
    `<l id a|b|c` a meta list. The legacy copy of the processor has the same three members. None of
    them touches the processor's fields, so they are modelled here as module-level members. */
module Meta {
  import opened Text
  import opened Outcomes
  import opened Assoc

  /** `MetaMap` and `MetaList`: an id with a map of strings or a list of strings. */
  datatype MetaObject =
    | MetaMap(id: String, data: map<String, String>)
    | MetaList(id: String, items: seq<String>)

  /** The id and the body of a trimmed meta line: the text before and after its first space. An
      empty line is a syntax error; a line with no space makes `substring(0, -1)` throw. */
  function IdAndBody(line: String): (r: Result<(String, String)>)
    ensures r.Ok? ==> !Contains(r.value.0, " ") && line == r.value.0 + " " + r.value.1
    ensures r.Err? ==> (r.fault == SyntaxFault <==> line == []) && (r.fault == RuntimeFault <==> line != [])
    ensures r.Err? <==> line == [] || !Contains(line, " ")
  {
    if line == [] then Err(SyntaxFault)
    else
      var i := IndexOf(line, " ");
      if i < 0 then Err(RuntimeFault)
      else
        assert line == line[..i] + line[i..i + 1] + line[i + 1..];
        PrefixBeforeFirstFree(line, " ", i);
        Ok((line[..i], line[i + 1..]))
  }

  /** One `key:value` piece of a meta map: split at `:`; no `:` at all, or fewer than two pieces
      after the split drops trailing empty ones (`":"`, `"a:"`), is a syntax error. */
  function EntryOf(token: String): (r: Result<(String, String)>)
    ensures r.Err? ==> r.fault == SyntaxFault
  {
    if !Contains(token, ":") then Err(SyntaxFault)
    else
      var elements := JavaSplit(token, ":");
      if |elements| < 2 then Err(SyntaxFault) else Ok((elements[0], elements[1]))
  }

  /** The entries of all pieces, in order, or the error of the first piece that has none. */
  function Entries(tokens: seq<String>): (r: Result<seq<(String, String)>>)
    ensures r.Ok? ==> |r.value| == |tokens|
    ensures r.Err? ==> r.fault == SyntaxFault
  {
    if |tokens| == 0 then Ok([])
    else
      var init :- Entries(tokens[..|tokens| - 1]);
      var e :- EntryOf(tokens[|tokens| - 1]);
      Ok(init + [e])
  }

  /** `processMetaMap` on the trimmed text after the type character. */
  function MetaMapSpec(line: String): Result<MetaObject> {
    var (id, body) :- IdAndBody(line);
    var entries :- Entries(JavaSplit(body, "|"));
    Ok(MetaMap(id, PutAll(map[], entries)))
  }

  /** `processMetaList` on the trimmed text after the type character. */
  function MetaListSpec(line: String): Result<MetaObject> {
    var (id, body) :- IdAndBody(line);
    Ok(MetaList(id, JavaSplit(body, "|")))
  }

  /** `processMeta`: drops one leading `<`, reads the type character (an empty line makes
      `charAt(0)` throw), then hands the trimmed rest to the map or the list parser. */
  function MetaSpec(line: String): Result<MetaObject> {
    var l := StripLt(line);
    if l == [] then Err(RuntimeFault)
    else if l[0] != 'm' && l[0] != 'l' then Err(SyntaxFault)
    else if l[0] == 'm' then MetaMapSpec(Trim(l[1..]))
    else MetaListSpec(Trim(l[1..]))
  }

  function StripLt(line: String): String {
    if |line| > 0 && line[0] == '<' then line[1..] else line
  }

  /** A meta object's kind is the type character, and its id holds no space; a line whose type
      character is neither `m` nor `l` is a syntax error, and an empty one a runtime error. */
  lemma {:induction false} MetaKind(line: String)
    ensures MetaSpec(line).Ok? ==> !Contains(MetaSpec(line).value.id, " ")
    ensures MetaSpec(line).Ok? ==> StripLt(line)[0] == (if MetaSpec(line).value.MetaMap? then 'm' else 'l')
    ensures StripLt(line) == [] ==> MetaSpec(line) == Err(RuntimeFault)
    ensures StripLt(line) != [] && StripLt(line)[0] != 'm' && StripLt(line)[0] != 'l' ==>
      MetaSpec(line) == Err(SyntaxFault)
  {
    var l := StripLt(line);
    if l != [] && l[0] == 'm' {
      var t := Trim(l[1..]);
      assert MetaSpec(line) == MetaMapSpec(t);
      var ib := IdAndBody(t);
    } else if l != [] && l[0] == 'l' {
      var t := Trim(l[1..]);
      assert MetaSpec(line) == MetaListSpec(t);
      var ib := IdAndBody(t);
    }
  }

  /** A first error among the pieces seen so far is the error of all of them. */
  lemma {:induction false} EntriesErrPrefix(tokens: seq<String>, k: nat)
    requires k <= |tokens| && Entries(tokens[..k]).Err?
    ensures Entries(tokens) == Entries(tokens[..k])
    decreases |tokens| - k
  {
    if k < |tokens| {
      assert tokens[..k + 1][..k] == tokens[..k];
      assert Entries(tokens[..k + 1]) == Entries(tokens[..k]);
      EntriesErrPrefix(tokens, k + 1);
    } else {
      assert tokens[..k] == tokens;
    }
  }

  /** `processMetaMap`: puts the entry of every piece into a fresh map, piece by piece, and stops
      with a syntax error at the first piece without one. */
  method ProcessMetaMap(line: String) returns (r: Result<MetaObject>)
    ensures r == MetaMapSpec(line)
  {
    if line == [] {
      return Err(SyntaxFault);
    }
    var i := IndexOf(line, " ");
    if i < 0 {
      return Err(RuntimeFault);
    }
    var id := line[..i];
    var body := line[i + 1..];
    var tokens := JavaSplit(body, "|");
    var data: map<String, String> := map[];
    ghost var entries: seq<(String, String)> := [];
    for k := 0 to |tokens|
      invariant Entries(tokens[..k]) == Ok(entries) && data == PutAll(map[], entries)
    {
      assert tokens[..k + 1][..k] == tokens[..k];
      var token := tokens[k];
      if !Contains(token, ":") {
        EntriesErrPrefix(tokens, k + 1);
        return Err(SyntaxFault);
      }
      var elements := JavaSplit(token, ":");
      if |elements| < 2 {
        EntriesErrPrefix(tokens, k + 1);
        return Err(SyntaxFault);
      }
      data := data[elements[0] := elements[1]];
      assert (entries + [(elements[0], elements[1])])[..|entries|] == entries;
      entries := entries + [(elements[0], elements[1])];
    }
    assert tokens[..|tokens|] == tokens;
    return Ok(MetaMap(id, data));
  }

  /** `processMeta`. */
  method ProcessMeta(line: String) returns (r: Result<MetaObject>)
    ensures r == MetaSpec(line)
  {
    var l := line;
    if |l| > 0 && l[0] == '<' {
      l := l[1..];
    }
    if l == [] {
      return Err(RuntimeFault);
    }
    var kind := l[0];
    if kind != 'm' && kind != 'l' {
      return Err(SyntaxFault);
    }
    l := Trim(l[1..]);
    if kind == 'm' {
      r := ProcessMetaMap(l);
    } else {
      r := MetaListSpec(l);
    }
  }

  // ---------------------------------------------------------------------------
  // What a meta line reads back: the round trips
  // ---------------------------------------------------------------------------

  /** A text free of `c`, joined with `c` and split at `c`, gives back its pieces. */
  lemma {:induction false} SplitAllJoin(parts: seq<String>, c: char)
    requires |parts| >= 1 && forall k, i :: 0 <= k < |parts| && 0 <= i < |parts[k]| ==> parts[k][i] != c
    ensures SplitAll(Join(parts, [c]), [c]) == parts
  {
    var s := Join(parts, [c]);
    if |parts| == 1 {
      forall i ensures !OccursAt(s, [c], i) {
        if 0 <= i && i + 1 <= |s| {
          assert s[i..i + 1] == [s[i]];
        }
      }
    } else {
      var rest := Join(parts[1..], [c]);
      assert s == parts[0] + ([c] + rest);
      IndexOfAfterPrefix(parts[0], [c] + rest, [c]);
      assert OccursAt([c] + rest, [c], 0);
      assert s[..|parts[0]|] == parts[0];
      assert s[|parts[0]| + 1..] == rest;
      SplitAllJoin(parts[1..], c);
    }
  }

  /** `JavaSplit` of non-empty pieces joined by a one-character separator they do not hold gives
      back the pieces: no trailing piece is empty, so none is dropped. */
  lemma {:induction false} JavaSplitJoin(parts: seq<String>, c: char)
    requires |parts| >= 1 && forall k, i :: 0 <= k < |parts| && 0 <= i < |parts[k]| ==> parts[k][i] != c
    requires parts[|parts| - 1] != []
    ensures JavaSplit(Join(parts, [c]), [c]) == parts
  {
    SplitAllJoin(parts, c);
  }

  /** A text of word characters holds neither a space, `|` nor `:`. */
  predicate Wordy(t: String) {
    |t| > 0 && AllWord(t)
  }

  function Pair(e: (String, String)): String {
    e.0 + ":" + e.1
  }

  function Pieces(entries: seq<(String, String)>): (ps: seq<String>)
    ensures |ps| == |entries|
  {
    seq(|entries|, k requires 0 <= k < |entries| => Pair(entries[k]))
  }

  /** A `key:value` piece of word characters reads back as that entry. */
  lemma {:induction false} EntryOfPair(k: String, v: String)
    requires Wordy(k) && Wordy(v)
    ensures EntryOf(k + ":" + v) == Ok((k, v))
  {
    var t := k + ":" + v;
    assert t == Join([k, v], ":");
    assert OccursAt(t, ":", |k|);
    JavaSplitJoin([k, v], ':');
  }

  lemma {:induction false} EntriesOfPieces(entries: seq<(String, String)>)
    requires forall k :: 0 <= k < |entries| ==> Wordy(entries[k].0) && Wordy(entries[k].1)
    ensures Entries(Pieces(entries)) == Ok(entries)
  {
    if |entries| > 0 {
      var n := |entries| - 1;
      var ps := Pieces(entries);
      EntriesOfPieces(entries[..n]);
      PiecesTake(entries, n);
      EntryOfPair(entries[n].0, entries[n].1);
      assert Entries(ps) == Ok(entries[..n] + [entries[n]]) by {
        assert ps[|ps| - 1] == Pair(entries[n]);
      }
      TakeSnoc(entries, n);
      assert entries[..n + 1] == entries;
    }
  }

  lemma {:induction false} PiecesTake(entries: seq<(String, String)>, n: nat)
    requires n <= |entries|
    ensures Pieces(entries)[..n] == Pieces(entries[..n])
  {
    var a, b := Pieces(entries)[..n], Pieces(entries[..n]);
    assert |a| == |b|;
    forall i | 0 <= i < n ensures a[i] == b[i] {
    }
  }

  /** The id and the body of `id + " " + body` when the id has no space. */
  lemma {:induction false} IdAndBodyOf(id: String, body: String)
    requires Wordy(id)
    ensures IdAndBody(id + " " + body) == Ok((id, body))
  {
    var line := id + " " + body;
    assert OccursAt(line, " ", |id|);
    forall i | 0 <= i < |id| ensures !OccursAt(line, " ", i) {
      assert line[i] == id[i];
    }
    assert line[..|id|] == id && line[|id| + 1..] == body;
  }

  /** `<`, the type character and one space in front of a text that starts and ends with a
      visible character select the parser and are trimmed away. */
  lemma {:induction false} TypedLine(prefix: String, t: String)
    requires |t| > 0 && t[0] > ' ' && t[|t| - 1] > ' '
    requires |prefix| == 3 && prefix[0] == '<' && prefix[2] == ' '
    ensures prefix[1] == 'm' ==> MetaSpec(prefix + t) == MetaMapSpec(t)
    ensures prefix[1] == 'l' ==> MetaSpec(prefix + t) == MetaListSpec(t)
  {
    var l := StripLt(prefix + t);
    assert l == prefix[1..] + t;
    assert l[1..] == prefix[2..] + t;
    assert prefix[2..] == " ";
    TrimSpaced(t);
  }

  /** Trimming one leading space off a text that starts and ends visibly gives the text back. */
  lemma {:induction false} TrimSpaced(t: String)
    requires |t| > 0 && t[0] > ' ' && t[|t| - 1] > ' '
    ensures Trim(" " + t) == t
  {
    assert (" " + t)[1..] == t;
    assert TrimStart(" " + t) == t;
  }

  /** A body of `key:value` pieces of word characters, read by the map parser. */
  lemma {:induction false} MetaMapOf(id: String, entries: seq<(String, String)>)
    requires Wordy(id) && |entries| > 0
    requires forall k :: 0 <= k < |entries| ==> Wordy(entries[k].0) && Wordy(entries[k].1)
    ensures MetaMapSpec(id + " " + Join(Pieces(entries), "|")) == Ok(MetaMap(id, PutAll(map[], entries)))
  {
    var ps := Pieces(entries);
    forall k, i | 0 <= k < |ps| && 0 <= i < |ps[k]| ensures ps[k][i] != '|' {
      var e := entries[k];
      assert ps[k] == e.0 + ":" + e.1;
      if i < |e.0| { assert ps[k][i] == e.0[i]; }
      else if i > |e.0| { assert ps[k][i] == e.1[i - |e.0| - 1]; }
    }
    JavaSplitJoin(ps, '|');
    EntriesOfPieces(entries);
    IdAndBodyOf(id, Join(ps, "|"));
  }

  /** Writing a meta map line and reading it back gives the map of its entries: every key with the
      value of the last entry that names it. */
  lemma {:induction false} MetaMapRoundTrip(id: String, entries: seq<(String, String)>)
    requires Wordy(id) && |entries| > 0
    requires forall k :: 0 <= k < |entries| ==> Wordy(entries[k].0) && Wordy(entries[k].1)
    ensures MetaSpec("<m " + (id + " " + Join(Pieces(entries), "|"))) == Ok(MetaMap(id, PutAll(map[], entries)))
  {
    var ps := Pieces(entries);
    var body := Join(ps, "|");
    var t := id + " " + body;
    assert body[|body| - 1] > ' ' by { PiecesEndVisible(entries); }
    assert t[|t| - 1] == body[|body| - 1];
    TypedLine("<m ", t);
    MetaMapOf(id, entries);
  }

  /** Writing a meta list line and reading it back gives its items. */
  lemma {:induction false} MetaListRoundTrip(id: String, items: seq<String>)
    requires Wordy(id) && |items| > 0 && forall k :: 0 <= k < |items| ==> Wordy(items[k])
    ensures MetaSpec("<l " + (id + " " + Join(items, "|"))) == Ok(MetaList(id, items))
  {
    var t := id + " " + Join(items, "|");
    assert t[|t| - 1] > ' ' by {
      JoinLast(items, "|");
      var last := items[|items| - 1];
      assert t[|t| - 1] == last[|last| - 1];
    }
    TypedLine("<l ", t);
    MetaListOf(id, items);
  }

  /** A body of `|`-separated word-character items, read by the list parser. */
  lemma {:induction false} MetaListOf(id: String, items: seq<String>)
    requires Wordy(id) && |items| > 0 && forall k :: 0 <= k < |items| ==> Wordy(items[k])
    ensures MetaListSpec(id + " " + Join(items, "|")) == Ok(MetaList(id, items))
  {
    forall k, i | 0 <= k < |items| && 0 <= i < |items[k]| ensures items[k][i] != '|' {
      assert IsWordChar(items[k][i]);
    }
    JavaSplitJoin(items, '|');
    IdAndBodyOf(id, Join(items, "|"));
  }

  /** The joined pieces of word-character entries end in a visible character. */
  lemma {:induction false} PiecesEndVisible(entries: seq<(String, String)>)
    requires |entries| > 0
    requires forall k :: 0 <= k < |entries| ==> Wordy(entries[k].0) && Wordy(entries[k].1)
    ensures |Join(Pieces(entries), "|")| > 0
    ensures Join(Pieces(entries), "|")[|Join(Pieces(entries), "|")| - 1] > ' '
  {
    var ps := Pieces(entries);
    var e := entries[|entries| - 1];
    var last := ps[|ps| - 1];
    assert last == e.0 + ":" + e.1;
    assert last[|last| - 1] == e.1[|e.1| - 1];
    assert IsWordChar(e.1[|e.1| - 1]);
    JoinEndsWith(ps, "|");
  }

  /** A joined text ends with the last character of its last piece. */
  lemma {:induction false} JoinEndsWith(parts: seq<String>, sep: String)
    requires |parts| > 0 && |parts[|parts| - 1]| > 0
    ensures |Join(parts, sep)| > 0
    ensures Join(parts, sep)[|Join(parts, sep)| - 1] == parts[|parts| - 1][|parts[|parts| - 1]| - 1]
  {
    JoinLast(parts, sep);
    var j, l := Join(parts, sep), parts[|parts| - 1];
    assert j[|j| - |l|..][|l| - 1] == j[|j| - 1];
  }

  /** A joined text ends with the last piece. */
  lemma {:induction false} JoinLast(parts: seq<String>, sep: String)
    requires |parts| > 0
    ensures |parts[|parts| - 1]| <= |Join(parts, sep)|
    ensures Join(parts, sep)[|Join(parts, sep)| - |parts[|parts| - 1]|..] == parts[|parts| - 1]
  {
    if |parts| > 1 {
      JoinLast(parts[1..], sep);
    }
  }
}
