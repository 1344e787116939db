/** What phase 2 of the emission processor computes, stated about the text phase 1 leaves: when the
    temporary tokens sit at known places with pairwise different indices and the text holds no other
    `$`, the token pattern finds exactly those tokens, each object's position is the offset in the
    final text where the text that followed its token now starts, and everything before that offset
    is the original text up to and including its token with every token dropped. */
module Placement {
  import opened Text
  import opened Outcomes
  import opened Rewriting
  import opened Scanning
  import opened Emission

  /** The token of `id` sits at `t`. */
  predicate TokenLaidAt(s: String, t: Span, id: nat) {
    t.end == t.start + |Token(id)| && t.end <= |s| && s[t.start..t.end] == Token(id)
  }

  predicate StartsSome(ts: seq<Span>, i: nat) {
    exists k :: 0 <= k < |ts| && ts[k].start == i
  }

  predicate DollarAt(s: String, i: nat) {
    i < |s| && s[i] == '$'
  }

  /** Every `$` of `s` is where one of `ts` starts. */
  predicate DollarsOnlyAt(s: String, ts: seq<Span>) {
    forall i {:trigger DollarAt(s, i)} :: 0 <= i < |s| && DollarAt(s, i) ==> StartsSome(ts, i)
  }

  /** The tokens of `ids` sit at `ts`, in order, and no other `$` occurs in `s`. */
  predicate TokensLaidOut(s: String, ts: seq<Span>, ids: seq<nat>) {
    |ts| == |ids| && Ordered(ts, |s|) &&
    (forall k {:trigger TokenLaidAt(s, ts[k], ids[k])} :: 0 <= k < |ts| ==> TokenLaidAt(s, ts[k], ids[k])) &&
    DollarsOnlyAt(s, ts)
  }

  predicate Distinct(ids: seq<nat>) {
    forall j, k :: 0 <= j < k < |ids| ==> ids[j] != ids[k]
  }

  function IndicesOf(cs: seq<Component>): (ids: seq<nat>)
    ensures |ids| == |cs| && forall k :: 0 <= k < |cs| ==> ids[k] == cs[k].index
  {
    seq(|cs|, k requires 0 <= k < |cs| => cs[k].index)
  }

  /** Between the end of the `k`-th token and the start of the next one there is no `$`. */
  lemma {:induction false} NoDollarBetween(s: String, ts: seq<Span>, k: nat, p: nat)
    requires Ordered(ts, |s|) && DollarsOnlyAt(s, ts) && k <= |ts|
    requires forall j :: 0 <= j < |ts| ==> ts[j].start < ts[j].end
    requires EndOf(ts[..k]) <= p < NextStart(ts, k, |s|)
    ensures p < |s| && s[p] != '$'
  {
    EndOfBefore(ts, |s|, k);
    if s[p] == '$' {
      assert DollarAt(s, p);
      var j :| 0 <= j < |ts| && ts[j].start == p;
      if j < k - 1 {
        OrderedBefore(ts, |s|, j, k - 1);
      } else if k < j {
        OrderedBefore(ts, |s|, k, j);
      }
    }
  }

  lemma {:induction false} TokensNonEmpty(s: String, ts: seq<Span>, ids: seq<nat>)
    requires TokensLaidOut(s, ts, ids)
    ensures forall j :: 0 <= j < |ts| ==> ts[j].start < ts[j].end
  {
    forall j | 0 <= j < |ts| ensures ts[j].start < ts[j].end {
      assert TokenLaidAt(s, ts[j], ids[j]);
    }
  }

  /** From the end of the `k`-th token, `find` passes over the text up to the next token and
      reports that token. */
  lemma {:induction false} TokenNext(s: String, ts: seq<Span>, ids: seq<nat>, k: nat)
    requires TokensLaidOut(s, ts, ids) && k < |ts|
    ensures Find(s, EndOf(ts[..k]), TokenAt) == Some(Found(ts[k], ()))
  {
    assert Find(s, EndOf(ts[..k]), TokenAt) == Find(s, ts[k].start, TokenAt) by {
      TokensNonEmpty(s, ts, ids);
      SkipGap(s, ts, k);
    }
    assert TokenAt(s, ts[k].start) == Some(Found(ts[k], ())) by {
      assert TokenLaidAt(s, ts[k], ids[k]);
      TokenAtToken(s, ts[k].start, ids[k]);
    }
  }

  /** Past the last token, `find` reports nothing. */
  lemma {:induction false} TokensExhausted(s: String, ts: seq<Span>, ids: seq<nat>)
    requires TokensLaidOut(s, ts, ids)
    ensures FindAll(s, EndOf(ts), TokenAt) == []
  {
    assert FindAll(s, EndOf(ts), TokenAt) == FindAll(s, |s|, TokenAt) by {
      TokensNonEmpty(s, ts, ids);
      SkipGap(s, ts, |ts|);
      assert ts[..|ts|] == ts;
    }
    forall p | |s| <= p ensures TryAt(s, p, TokenAt).None? { }
    FindAllNone(s, |s|, TokenAt);
  }

  /** `find` passes over the text between the end of the `k`-th token and the next token. */
  lemma {:induction false} SkipGap(s: String, ts: seq<Span>, k: nat)
    requires Ordered(ts, |s|) && DollarsOnlyAt(s, ts) && k <= |ts|
    requires forall j :: 0 <= j < |ts| ==> ts[j].start < ts[j].end
    ensures Find(s, EndOf(ts[..k]), TokenAt) == Find(s, NextStart(ts, k, |s|), TokenAt)
    ensures FindAll(s, EndOf(ts[..k]), TokenAt) == FindAll(s, NextStart(ts, k, |s|), TokenAt)
  {
    var from := EndOf(ts[..k]);
    EndOfBefore(ts, |s|, k);
    var upto := NextStart(ts, k, |s|);
    forall p | from <= p < upto ensures TryAt(s, p, TokenAt).None? {
      NoDollarBetween(s, ts, k, p);
    }
    FindSkip(s, from, upto, TokenAt);
  }

  /** From the end of the `k`-th token on, the token pattern finds exactly the remaining tokens. */
  lemma {:induction false} TokenScan(s: String, ts: seq<Span>, ids: seq<nat>, k: nat)
    requires TokensLaidOut(s, ts, ids) && k <= |ts|
    ensures SpansOf(FindAll(s, EndOf(ts[..k]), TokenAt)) == ts[k..]
    decreases |ts| - k
  {
    if k == |ts| {
      TokensExhausted(s, ts, ids);
      assert ts[..k] == ts;
    } else {
      TokenNext(s, ts, ids, k);
      var t := ts[k];
      assert EndOf(ts[..k + 1]) == t.end by {
        assert ts[..k + 1][k] == t;
      }
      TokenScan(s, ts, ids, k + 1);
      assert ts[k..] == [t] + ts[k + 1..];
    }
  }

  /** Phase 2 strips exactly the laid-out tokens. */
  lemma {:induction false} TokensFound(s: String, ts: seq<Span>, ids: seq<nat>)
    requires TokensLaidOut(s, ts, ids)
    ensures SpansOf(TokenMatches(s)) == ts
    ensures StripTokens(s) == Splice(s, ts, Empties(|ts|))
  {
    TokenScan(s, ts, ids, 0);
    assert ts[..0] == [] && ts[0..] == ts;
  }

  /** The first occurrence of the `k`-th token is where it was laid out. */
  lemma {:induction false} TokenFirstAt(s: String, ts: seq<Span>, ids: seq<nat>, k: nat)
    requires TokensLaidOut(s, ts, ids) && Distinct(ids) && k < |ts|
    ensures IndexOf(s, Token(ids[k])) == ts[k].start
  {
    var tok := Token(ids[k]);
    assert TokenLaidAt(s, ts[k], ids[k]);
    assert OccursAt(s, tok, ts[k].start);
    forall i | 0 <= i < ts[k].start ensures !OccursAt(s, tok, i) {
      if OccursAt(s, tok, i) {
        assert s[i] == tok[0] == '$';
        assert DollarAt(s, i);
        var j :| 0 <= j < |ts| && ts[j].start == i;
        assert TokenLaidAt(s, ts[j], ids[j]);
        if j < k {
          OrderedBefore(ts, |s|, j, k);
        }
        assert j != k && ids[j] != ids[k];
        var rest := s[i..];
        assert rest[..|Token(ids[j])|] == s[ts[j].start..ts[j].end];
        assert rest[..|tok|] == s[i..i + |tok|];
        TokensDiffer(rest, ids[j], ids[k]);
      }
    }
  }

  /** The token lengths phase 2 subtracts are the characters the laid-out tokens cover. */
  lemma {:induction false} TokenLengthsCovered(cs: seq<Component>, ts: seq<Span>, k: nat)
    requires |ts| == |cs| && k <= |cs|
    requires forall j :: 0 <= j < |ts| ==> ts[j].end == ts[j].start + |Token(cs[j].index)|
    ensures TokenLengths(cs[..k]) == Covered(ts[..k])
  {
    if k > 0 {
      TokenLengthsCovered(cs, ts, k - 1);
      assert cs[..k][..k - 1] == cs[..k - 1];
      assert ts[..k][..k - 1] == ts[..k - 1];
    }
  }

  lemma {:induction false} NoReplacementText(n: nat)
    ensures TotalLength(Empties(n)) == 0
  {
    if n > 0 {
      NoReplacementText(n - 1);
      assert Empties(n)[..n - 1] == Empties(n - 1);
    }
  }

  /** Phase 2's promise: the `k`-th object's position is the offset, in the text with the tokens
      removed, of the text that followed the `k`-th token, and what precedes that offset is the
      original text up to the end of that token with every token dropped. */
  lemma {:induction false} PlacedAtPayload(s: String, cs: seq<Component>, ts: seq<Span>, k: nat)
    requires TokensLaidOut(s, ts, IndicesOf(cs)) && Distinct(IndicesOf(cs)) && k < |cs|
    ensures Ordered(ts[..k + 1], |s|)
    ensures var pos := PlacedAt(s, cs, k).position; var after := Gap(s, ts, k + 1); var out := StripTokens(s);
      0 <= pos && pos + |after| <= |out| &&
      out[..pos] == Prefix(s, ts[..k + 1], Empties(k + 1)) && out[pos..pos + |after|] == after
  {
    var out := StripTokens(s);
    var pos := PlacedAt(s, cs, k).position;
    assert out == Splice(s, ts, Empties(|ts|)) by {
      TokensFound(s, ts, IndicesOf(cs));
    }
    assert pos == ts[k].start - Covered(ts[..k]) by {
      PositionOfToken(s, cs, ts, k);
    }
    DroppedBefore(s, ts, k, out, pos);
  }

  /** The `k`-th object's position is where its token starts, less what the earlier tokens cover. */
  lemma {:induction false} PositionOfToken(s: String, cs: seq<Component>, ts: seq<Span>, k: nat)
    requires TokensLaidOut(s, ts, IndicesOf(cs)) && Distinct(IndicesOf(cs)) && k < |cs|
    ensures PlacedAt(s, cs, k).position == ts[k].start - Covered(ts[..k])
  {
    TokenFirstAt(s, ts, IndicesOf(cs), k);
    forall j | 0 <= j < |ts| ensures ts[j].end == ts[j].start + |Token(cs[j].index)| {
      assert TokenLaidAt(s, ts[j], IndicesOf(cs)[j]);
    }
    TokenLengthsCovered(cs, ts, k);
  }

  /** With every span of `ts` dropped, the text that followed the `k`-th span starts at its start
      less the characters the spans before it cover. */
  lemma {:induction false} DroppedBefore(s: String, ts: seq<Span>, k: nat, out: String, pos: int)
    requires Ordered(ts, |s|) && k < |ts|
    requires out == Splice(s, ts, Empties(|ts|)) && pos == ts[k].start - Covered(ts[..k])
    ensures Ordered(ts[..k + 1], |s|)
    ensures var after := Gap(s, ts, k + 1);
      0 <= pos && pos + |after| <= |out| &&
      out[..pos] == Prefix(s, ts[..k + 1], Empties(k + 1)) && out[pos..pos + |after|] == after
    ensures Gap(s, ts, k + 1) == s[ts[k].end..NextStart(ts, k + 1, |s|)]
  {
    var es := Empties(|ts|);
    assert es[..k + 1] == Empties(k + 1);
    PrefixMono(s, ts, es, k + 1);
    var upto := Prefix(s, ts[..k + 1], es[..k + 1]);
    DroppedLength(s, ts, k);
    var after := Gap(s, ts, k + 1);
    assert out[..pos + |after|] == upto + after by {
      SpliceAfter(s, ts, es, k + 1);
    }
    assert out[..pos] == upto by {
      assert out[..pos] == out[..pos + |after|][..pos];
    }
    assert out[pos..pos + |after|] == after by {
      assert out[pos..pos + |after|] == out[..pos + |after|][pos..];
    }
    assert ts[..k + 1][k] == ts[k];
  }

  /** Dropping the first `k + 1` spans leaves the text before the `k`-th span's end shorter by what
      the first `k` spans cover and by the whole `k`-th span. */
  lemma {:induction false} DroppedLength(s: String, ts: seq<Span>, k: nat)
    requires Ordered(ts, |s|) && k < |ts|
    ensures Ordered(ts[..k + 1], |s|) && Covered(ts[..k]) <= ts[k].start
    ensures |Prefix(s, ts[..k + 1], Empties(k + 1))| == ts[k].start - Covered(ts[..k])
  {
    var es := Empties(|ts|);
    assert es[..k] == Empties(k) && es[..k + 1] == Empties(k + 1);
    PrefixNext(s, ts, es, k);
    EndOfBefore(ts, |s|, k);
    assert |Prefix(s, ts[..k], es[..k])| == EndOf(ts[..k]) - Covered(ts[..k]) by {
      SpliceLength(s, ts[..k], es[..k]);
      NoReplacementText(k);
    }
  }
}
