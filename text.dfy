/** Java string operations used by the processors, over `seq<char>`:
    the regex character classes `\w`, `\s` and `\d`, `String.trim`,
    `String.indexOf`, `String.split` with a literal separator, and the
    decimal rendering of a non-negative `int`. */
module Text {

  type String = seq<char>

  /** `\w`: ASCII letters, digits and the underscore. */
  predicate IsWordChar(c: char) {
    ('a' <= c <= 'z') || ('A' <= c <= 'Z') || ('0' <= c <= '9') || c == '_'
  }

  /** `\s`: space, tab, line feed, vertical tab, form feed, carriage return. */
  predicate IsSpace(c: char) {
    c == ' ' || c == '\t' || c == '\n' || c == '\U{B}' || c == '\U{C}' || c == '\r'
  }

  /** `\d`. */
  predicate IsDigit(c: char) {
    '0' <= c <= '9'
  }

  /** The characters that `.` does not match in a Java pattern compiled without flags. */
  predicate IsLineTerminator(c: char) {
    c == '\n' || c == '\r' || c == '\U{85}' || c == '\U{2028}' || c == '\U{2029}'
  }

  predicate AllWord(s: String) {
    forall i :: 0 <= i < |s| ==> IsWordChar(s[i])
  }

  predicate AllDigits(s: String) {
    forall i :: 0 <= i < |s| ==> IsDigit(s[i])
  }

  /** A replacement text that `Matcher.appendReplacement` copies verbatim:
      it holds neither a group reference `$` nor an escape `\`. */
  predicate Plain(s: String) {
    forall i :: 0 <= i < |s| ==> s[i] != '$' && s[i] != '\\'
  }

  /** A sequence is its first element followed by the rest. */
  lemma {:induction false} ConsEq<T>(ds: seq<T>, later: seq<T>, a: seq<T>)
    requires |a| > 0 && ds == [a[0]] + later && later == a[1..]
    ensures ds == a
  {
    assert a == [a[0]] + a[1..];
  }

  /** A sequence of one element is that element. */
  lemma {:induction false} SingleEq<T>(ds: seq<T>, a: seq<T>)
    requires |a| == 1 && ds == [a[0]]
    ensures ds == a
  {
  }

  /** A sequence is its first elements followed by the last one. Stated for any element type, so
      that the solver compares elements as values and never as sequences. */
  lemma {:induction false} SnocEq<T>(a: seq<T>, b: seq<T>, x: T)
    requires |a| == |b| + 1 && a[|b|] == x
    requires forall i :: 0 <= i < |b| ==> a[i] == b[i]
    ensures a == b + [x]
  {
  }

  lemma {:induction false} ConcatAssoc<T>(a: seq<T>, b: seq<T>, c: seq<T>)
    ensures (a + b) + c == a + (b + c)
  {
  }

  lemma {:induction false} ConsTail<T>(a: seq<T>)
    requires |a| > 0
    ensures [a[0]] + a[1..] == a
  {
  }

  lemma {:induction false} TakeSnoc<T>(a: seq<T>, m: nat)
    requires m < |a|
    ensures a[..m + 1] == a[..m] + [a[m]]
  {
  }

  lemma {:induction false} TakeTake<T>(a: seq<T>, m: nat)
    requires m < |a|
    ensures a[..m + 1][..m] == a[..m]
  {
  }

  /** A prefix cut at two points. */
  lemma {:induction false} TakeSplit<T>(s: seq<T>, a: nat, b: nat, c: nat)
    requires a <= b <= c <= |s|
    ensures s[..c] == s[..a] + s[a..b] + s[b..c]
  {
    var x := s[..a] + s[a..b] + s[b..c];
    assert |x| == c;
    forall i | 0 <= i < c ensures x[i] == s[i] {
      if i < a {
      } else if i < b {
        assert x[i] == s[a..b][i - a];
      } else {
        assert x[i] == s[b..c][i - b];
      }
    }
  }

  /** A slice of a slice is a slice of the original. */
  lemma {:induction false} SliceOfSlice(s: String, lo: nat, hi: nat, i: nat, j: nat)
    requires lo <= hi <= |s| && i <= j <= hi - lo
    ensures s[lo..hi][i..j] == s[lo + i..lo + j]
  {
    var x, y := s[lo..hi][i..j], s[lo + i..lo + j];
    assert |x| == |y|;
    forall k | 0 <= k < |x| ensures x[k] == y[k] { }
  }

  /** The end of the longest run starting at `from` of characters satisfying `p`. */
  function RunEnd(s: String, from: nat, p: char -> bool): (e: nat)
    requires from <= |s|
    ensures from <= e <= |s|
    ensures forall i :: from <= i < e ==> p(s[i])
    ensures e < |s| ==> !p(s[e])
    decreases |s| - from
  {
    if from < |s| && p(s[from]) then RunEnd(s, from + 1, p) else from
  }

  /** The run ends exactly where the first character outside the class (or the text) is. */
  lemma {:induction false} RunEndAt(s: String, from: nat, p: char -> bool, x: nat)
    requires from <= x <= |s|
    requires forall i :: from <= i < x ==> p(s[i])
    requires x < |s| ==> !p(s[x])
    ensures RunEnd(s, from, p) == x
  {
  }

  /** The last position in `[from, to)` that holds `c`, or -1: where a greedy `.*c` or `\S*c` stops. */
  function LastIndexIn(s: String, c: char, lo: nat, hi: nat): (k: int)
    requires lo <= hi <= |s|
    ensures k == -1 || (lo <= k < hi && s[k] == c)
    ensures forall i :: lo <= i < hi && k < i ==> s[i] != c
    decreases hi - lo
  {
    if hi == lo then -1 else if s[hi - 1] == c then hi - 1 else LastIndexIn(s, c, lo, hi - 1)
  }

  // ---------------------------------------------------------------------------
  // String.trim
  // ---------------------------------------------------------------------------

  function TrimStart(s: String): (r: String)
    ensures |r| <= |s| && r == s[|s| - |r|..]
    ensures |r| > 0 ==> r[0] > ' '
    ensures forall i :: 0 <= i < |s| - |r| ==> s[i] <= ' '
  {
    if |s| > 0 && s[0] <= ' ' then TrimStart(s[1..]) else s
  }

  function TrimEnd(s: String): (r: String)
    ensures |r| <= |s| && r == s[..|r|]
    ensures |r| > 0 ==> r[|r| - 1] > ' '
    ensures forall i :: |r| <= i < |s| ==> s[i] <= ' '
  {
    if |s| > 0 && s[|s| - 1] <= ' ' then TrimEnd(s[..|s| - 1]) else s
  }

  /** `String.trim`: drops every character up to U+0020 from both ends. */
  function Trim(s: String): (r: String)
    ensures |r| <= |s|
    ensures |r| > 0 ==> r[0] > ' ' && r[|r| - 1] > ' '
    ensures |s| > 0 && s[0] > ' ' && s[|s| - 1] > ' ' ==> r == s
    ensures (forall i :: 0 <= i < |s| ==> s[i] <= ' ') ==> r == []
  {
    TrimEnd(TrimStart(s))
  }

  // ---------------------------------------------------------------------------
  // String.indexOf and String.contains
  // ---------------------------------------------------------------------------

  predicate OccursAt(s: String, pat: String, i: int) {
    0 <= i && i + |pat| <= |s| && s[i..i + |pat|] == pat
  }

  function IndexOfFrom(s: String, pat: String, from: nat): (r: int)
    ensures r == -1 || (from <= r && OccursAt(s, pat, r))
    ensures r == -1 ==> forall i :: from <= i ==> !OccursAt(s, pat, i)
    ensures r >= 0 ==> forall i :: from <= i < r ==> !OccursAt(s, pat, i)
    decreases |s| - from
  {
    if from + |pat| > |s| then -1
    else if s[from..from + |pat|] == pat then from
    else IndexOfFrom(s, pat, from + 1)
  }

  /** `String.indexOf(String)`: the first occurrence, or -1. */
  function IndexOf(s: String, pat: String): (r: int)
    ensures r == -1 || OccursAt(s, pat, r)
    ensures r == -1 <==> forall i :: !OccursAt(s, pat, i)
    ensures forall i :: 0 <= i < r ==> !OccursAt(s, pat, i)
  {
    IndexOfFrom(s, pat, 0)
  }

  predicate Contains(s: String, pat: String) {
    IndexOf(s, pat) >= 0
  }

  /** An occurrence of `pat` cannot start inside a prefix `a` whose characters all differ from `pat[0]`;
      so the first occurrence in `a + b` is the first occurrence in `b`, shifted by `|a|`. */
  lemma {:induction false} IndexOfAfterPrefix(a: String, b: String, pat: String)
    requires |pat| > 0
    requires forall i :: 0 <= i < |a| ==> a[i] != pat[0]
    ensures IndexOf(a + b, pat) == if IndexOf(b, pat) < 0 then -1 else |a| + IndexOf(b, pat)
  {
    var s := a + b;
    forall i | 0 <= i < |a| ensures !OccursAt(s, pat, i) {
      assert i < |s| ==> s[i] == a[i];
    }
    var r := IndexOf(s, pat);
    if IndexOf(b, pat) < 0 {
      forall i ensures !OccursAt(s, pat, i) {
        if i >= |a| {
          OccursShifted(a, b, pat, i - |a|);
        }
      }
    } else {
      var k := IndexOf(b, pat);
      OccursShifted(a, b, pat, k);
      assert r >= |a|;
      OccursShifted(a, b, pat, r - |a|);
    }
  }

  /** An occurrence in `b` is one in `a + b`, shifted by `|a|`, and back. */
  lemma {:induction false} OccursShifted(a: String, b: String, pat: String, j: nat)
    ensures OccursAt(a + b, pat, |a| + j) <==> OccursAt(b, pat, j)
  {
    if |a| + j + |pat| <= |a + b| {
      assert (a + b)[|a| + j..|a| + j + |pat|] == b[j..j + |pat|];
    }
  }

  // ---------------------------------------------------------------------------
  // String.split with a literal separator
  // ---------------------------------------------------------------------------

  /** Every piece between occurrences of `sep`, empty pieces included. */
  function SplitAll(s: String, sep: String): (parts: seq<String>)
    requires |sep| > 0
    ensures |parts| >= 1
    decreases |s|
  {
    var i := IndexOf(s, sep);
    if i < 0 then [s] else [s[..i]] + SplitAll(s[i + |sep|..], sep)
  }

  /** Joins pieces with `sep` between them: the inverse of `SplitAll`. */
  function Join(parts: seq<String>, sep: String): String {
    if |parts| == 0 then [] else if |parts| == 1 then parts[0] else parts[0] + sep + Join(parts[1..], sep)
  }

  lemma {:induction false} JoinSplitAll(s: String, sep: String)
    requires |sep| > 0
    ensures Join(SplitAll(s, sep), sep) == s
    decreases |s|
  {
    var i := IndexOf(s, sep);
    if i >= 0 {
      var rest := s[i + |sep|..];
      var parts := SplitAll(s, sep);
      assert |parts| >= 2 && parts[0] == s[..i] && parts[1..] == SplitAll(rest, sep) by {
        assert parts == [s[..i]] + SplitAll(rest, sep);
      }
      assert s == s[..i] + sep + rest by {
        assert OccursAt(s, sep, i);
        assert s == s[..i] + s[i..i + |sep|] + rest;
      }
      JoinSplitAll(rest, sep);
      calc {
        Join(parts, sep);
        parts[0] + sep + Join(parts[1..], sep);
        s[..i] + sep + rest;
        s;
      }
    }
  }

  /** No piece of `SplitAll` holds the separator. */
  lemma {:induction false} SplitAllPiecesFree(s: String, sep: String)
    requires |sep| > 0
    ensures forall k :: 0 <= k < |SplitAll(s, sep)| ==> !Contains(SplitAll(s, sep)[k], sep)
    decreases |s|
  {
    var i := IndexOf(s, sep);
    if i >= 0 {
      var rest := s[i + |sep|..];
      SplitAllPiecesFree(rest, sep);
      assert SplitAll(s, sep)[1..] == SplitAll(rest, sep);
      PrefixBeforeFirstFree(s, sep, i);
    }
  }

  lemma {:induction false} PrefixBeforeFirstFree(s: String, sep: String, i: nat)
    requires |sep| > 0
    requires i <= |s| && forall j :: 0 <= j < i ==> !OccursAt(s, sep, j)
    ensures !Contains(s[..i], sep)
  {
    forall j | 0 <= j < i && OccursAt(s[..i], sep, j) ensures false {
      assert s[..i][j..j + |sep|] == s[j..j + |sep|];
      assert OccursAt(s, sep, j);
    }
  }

  function DropTrailingEmpty(parts: seq<String>): (r: seq<String>)
    ensures |r| <= |parts| && r == parts[..|r|]
    ensures |r| > 0 ==> r[|r| - 1] != []
    ensures forall k :: |r| <= k < |parts| ==> parts[k] == []
  {
    if |parts| > 0 && parts[|parts| - 1] == [] then DropTrailingEmpty(parts[..|parts| - 1]) else parts
  }

  /** `String.split` with a literal separator and no limit: when the separator occurs,
      trailing empty pieces are dropped; when it does not, the result is the input alone
      (so `"".split(x)` is `[""]`). */
  function JavaSplit(s: String, sep: String): (parts: seq<String>)
    requires |sep| > 0
    ensures !Contains(s, sep) ==> parts == [s]
  {
    var all := SplitAll(s, sep);
    if |all| == 1 then all else DropTrailingEmpty(all)
  }

  /** The pieces of a split are the pieces of the input between separators,
      none of them holding the separator, and joined back they give a prefix
      of the input that lacks only trailing separators. */
  lemma {:induction false} JavaSplitPieces(s: String, sep: String)
    requires |sep| > 0
    ensures forall k :: 0 <= k < |JavaSplit(s, sep)| ==> !Contains(JavaSplit(s, sep)[k], sep)
    ensures |Join(JavaSplit(s, sep), sep)| <= |s|
    ensures Join(JavaSplit(s, sep), sep) == s[..|Join(JavaSplit(s, sep), sep)|]
  {
    JoinSplitAll(s, sep);
    SplitAllPiecesFree(s, sep);
    var all := SplitAll(s, sep);
    var parts := JavaSplit(s, sep);
    if |all| != 1 {
      JoinPrefix(all, |parts|, sep);
    }
  }

  /** Joining a prefix of the pieces gives a prefix of the joined text. */
  lemma {:induction false} JoinPrefix(parts: seq<String>, n: nat, sep: String)
    requires n <= |parts|
    ensures |Join(parts[..n], sep)| <= |Join(parts, sep)|
    ensures Join(parts[..n], sep) == Join(parts, sep)[..|Join(parts[..n], sep)|]
  {
    if n == 0 {
    } else if n == |parts| {
      assert parts[..n] == parts;
    } else if n == 1 {
      assert parts[..n] == [parts[0]];
    } else {
      JoinPrefix(parts[1..], n - 1, sep);
      assert parts[..n][1..] == parts[1..][..n - 1];
    }
  }

  // ---------------------------------------------------------------------------
  // Decimal rendering of a non-negative int ("" + n in Java)
  // ---------------------------------------------------------------------------

  function DigitChar(d: nat): char
    requires d < 10
  {
    ['0', '1', '2', '3', '4', '5', '6', '7', '8', '9'][d]
  }

  function Decimal(n: nat): (r: String)
    ensures |r| >= 1 && AllDigits(r)
    ensures n >= 10 ==> r[0] != '0'
  {
    if n < 10 then [DigitChar(n)] else Decimal(n / 10) + [DigitChar(n % 10)]
  }

  function DigitValue(c: char): nat
    requires IsDigit(c)
  {
    (c as int - '0' as int) as nat
  }

  /** Reads a run of decimal digits back into a number. */
  function ParseDecimal(s: String): nat
    requires AllDigits(s)
  {
    if |s| == 0 then 0 else ParseDecimal(s[..|s| - 1]) * 10 + DigitValue(s[|s| - 1])
  }

  lemma {:induction false} ParseDecimalInverse(n: nat)
    ensures ParseDecimal(Decimal(n)) == n
  {
    var r := Decimal(n);
    if n < 10 {
      assert r[..0] == [];
    } else {
      ParseDecimalInverse(n / 10);
      assert r[..|r| - 1] == Decimal(n / 10);
    }
  }

  /** Different numbers render differently. */
  lemma {:induction false} DecimalInjective(a: nat, b: nat)
    ensures Decimal(a) == Decimal(b) ==> a == b
  {
    ParseDecimalInverse(a);
    ParseDecimalInverse(b);
  }
}

/** The outcomes of a processing step: a value, or the exception that aborts it. */
module Outcomes {

  /** The exceptions the engine throws. `RuntimeFault` stands for the unchecked
      `StringIndexOutOfBoundsException` that a `substring(0, -1)` or a `charAt(0)`
      on an empty string raises; `Diverged` marks a fixpoint loop that ran out of
      the fuel the model gives it (the source would loop forever). */
  datatype Fault = SyntaxFault | InjectionFault | ProcessingFault | RuntimeFault | Diverged

  datatype Result<+T> = Ok(value: T) | Err(fault: Fault) {
    predicate IsFailure() {
      Err?
    }

    function PropagateFailure<U>(): Result<U>
      requires Err?
    {
      Err(fault)
    }

    function Extract(): T
      requires Ok?
    {
      value
    }
  }

  datatype Option<+T> = None | Some(value: T)
}
