/** `LineEnding.deduce`: the line break a text uses. */
module LineEnding {
  import opened Text

  const CRLF: String := "\r\n"
  const LF: String := "\n"
  const CR: String := "\r"

  /** Some character pair of `s` is a carriage return followed by a line feed. */
  predicate HasCrLf(s: String) {
    exists i :: 0 <= i < |s| - 1 && s[i] == '\r' && s[i + 1] == '\n'
  }

  predicate HasLf(s: String) {
    exists i :: 0 <= i < |s| && s[i] == '\n'
  }

  /** `"\r\n"` as soon as one occurs (lone `"\n"` elsewhere do not matter), else `"\n"`
      if one occurs, else `"\r"`, also for a text without any line break. */
  function Deduce(input: String): (r: String)
    ensures HasCrLf(input) ==> r == CRLF
    ensures !HasCrLf(input) && HasLf(input) ==> r == LF
    ensures !HasCrLf(input) && !HasLf(input) ==> r == CR
    ensures r == CRLF || r == LF || r == CR
  {
    ContainsCrLf(input);
    ContainsLf(input);
    if Contains(input, CRLF) then CRLF else if Contains(input, LF) then LF else CR
  }

  lemma {:induction false} ContainsCrLf(s: String)
    ensures Contains(s, CRLF) <==> HasCrLf(s)
  {
    if HasCrLf(s) {
      var i :| 0 <= i < |s| - 1 && s[i] == '\r' && s[i + 1] == '\n';
      assert s[i..i + 2] == CRLF;
      assert OccursAt(s, CRLF, i);
    }
    if Contains(s, CRLF) {
      var i := IndexOf(s, CRLF);
      assert s[i..i + 2] == CRLF;
      assert s[i] == s[i..i + 2][0] == '\r' && s[i + 1] == s[i..i + 2][1] == '\n';
    }
  }

  lemma {:induction false} ContainsLf(s: String)
    ensures Contains(s, LF) <==> HasLf(s)
  {
    if HasLf(s) {
      var i :| 0 <= i < |s| && s[i] == '\n';
      assert s[i..i + 1] == LF;
      assert OccursAt(s, LF, i);
    }
    if Contains(s, LF) {
      var i := IndexOf(s, LF);
      assert s[i..i + 1] == LF;
      assert s[i] == s[i..i + 1][0] == '\n';
    }
  }
}
