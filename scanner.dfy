/** The scanner: `find_next_white_char` and `find_next_white_char_or_error`
    move a cursor over the NUL-terminated program buffer to the next SPACE,
    TAB, LF or NUL, skipping every other byte as a comment. */
module Scanner {
  import opened Base

  /** The first position after `p` that holds a token or NUL. */
  function NextWhite(pr: seq<char>, p: nat): (q: nat)
    requires Program(pr) && p < |pr| - 1
    ensures p < q < |pr| && IsStop(pr[q])
    decreases |pr| - p
  {
    if IsStop(pr[p + 1]) then p + 1 else NextWhite(pr, p + 1)
  }

  /** Every byte NextWhite passes over is a comment byte. */
  lemma {:induction false} NextWhiteSkips(pr: seq<char>, p: nat)
    requires Program(pr) && p < |pr| - 1
    ensures forall k :: p < k < NextWhite(pr, p) ==> !IsStop(pr[k])
    decreases |pr| - p
  {
    if !IsStop(pr[p + 1]) {
      NextWhiteSkips(pr, p + 1);
    }
  }

  /** The cursor movement of `find_next_white_char_or_error`: the next token
      after `p`, or Unfinished when the sentinel comes first. */
  function NextToken(pr: seq<char>, p: nat): (r: Result<nat>)
    requires Program(pr) && p < |pr| - 1
    ensures r.Ok? <==> pr[NextWhite(pr, p)] != NUL
    ensures r.Ok? ==> r.value == NextWhite(pr, p) && TokenAt(pr, r.value)
    ensures r.Err? ==> r.error == Unfinished
  {
    var q := NextWhite(pr, p);
    if pr[q] == NUL then Err(Unfinished) else Ok(q)
  }

  /** The tokens of `pr` from position `p` on, up to the first NUL: the
      program text as the interpreter sees it, with comments removed. */
  function TokensFrom(pr: seq<char>, p: nat): (ts: seq<char>)
    requires Program(pr) && p < |pr|
    ensures forall i :: 0 <= i < |ts| ==> IsToken(ts[i])
    ensures IsToken(pr[p]) ==> |ts| > 0 && ts[0] == pr[p]
    ensures pr[p] == NUL ==> ts == []
    decreases |pr| - p
  {
    if pr[p] == NUL then []
    else if IsToken(pr[p]) then [pr[p]] + TokensFrom(pr, p + 1)
    else TokensFrom(pr, p + 1)
  }

  /** Comment bytes between `p` and `q` do not change the token stream. */
  lemma {:induction false} SkipComments(pr: seq<char>, p: nat, q: nat)
    requires Program(pr) && p <= q < |pr|
    requires forall k :: p <= k < q ==> !IsStop(pr[k])
    ensures TokensFrom(pr, p) == TokensFrom(pr, q)
    decreases q - p
  {
    if p < q {
      SkipComments(pr, p + 1, q);
    }
  }

  /** From a token, the stream is that token followed by the stream at the
      position the scanner moves to. */
  lemma TokensAtToken(pr: seq<char>, p: nat)
    requires Program(pr) && TokenAt(pr, p)
    ensures TokensFrom(pr, p) == [pr[p]] + TokensFrom(pr, NextWhite(pr, p))
  {
    NextWhiteSkips(pr, p);
    SkipComments(pr, p + 1, NextWhite(pr, p));
  }

  /** Scanning for the next token from a token drops exactly the first
      token of the stream, and fails exactly when there is no second one. */
  lemma NextTokenDrops(pr: seq<char>, p: nat)
    requires Program(pr) && TokenAt(pr, p)
    ensures NextToken(pr, p).Err? <==> |TokensFrom(pr, p)| == 1
    ensures NextToken(pr, p).Ok? ==> TokensFrom(pr, NextToken(pr, p).value) == TokensFrom(pr, p)[1..]
  {
    TokensAtToken(pr, p);
  }

  /** From a comment byte, the scanner lands where the stream continues. */
  lemma NextWhiteFromComment(pr: seq<char>, p: nat)
    requires Program(pr) && p < |pr| && !IsStop(pr[p])
    ensures TokensFrom(pr, NextWhite(pr, p)) == TokensFrom(pr, p)
  {
    NextWhiteSkips(pr, p);
    SkipComments(pr, p, NextWhite(pr, p));
  }

  /** `find_next_white_char`: advance at least one byte, then skip comment
      bytes; `found` tells whether the cursor stopped on a token (not NUL). */
  method FindNextWhiteChar(pr: seq<char>, p: nat) returns (q: nat, found: bool)
    requires Program(pr) && p < |pr| - 1
    ensures p < q < |pr| && IsStop(pr[q])
    ensures forall k :: p < k < q ==> !IsStop(pr[k])
    ensures q == NextWhite(pr, p)
    ensures found <==> pr[q] != NUL
  {
    q := p + 1;
    while pr[q] != SPACE && pr[q] != LF && pr[q] != TAB && pr[q] != NUL
      invariant p < q < |pr|
      invariant forall k :: p < k < q ==> !IsStop(pr[k])
      decreases |pr| - q
    {
      q := q + 1;
    }
    NextWhiteSkips(pr, p);
    found := pr[q] != NUL;
  }

  /** `find_next_white_char_or_error`: the same movement, with the
      "unfinished command" error in place of a false result. */
  method FindNextWhiteCharOrError(pr: seq<char>, p: nat) returns (r: Result<nat>)
    requires Program(pr) && p < |pr| - 1
    ensures r.Err? <==> pr[NextWhite(pr, p)] == NUL
    ensures r.Err? ==> r.error == Unfinished
    ensures r.Ok? ==> r.value == NextWhite(pr, p) && TokenAt(pr, r.value)
  {
    var q, found := FindNextWhiteChar(pr, p);
    if !found {
      return Err(Unfinished);
    }
    return Ok(q);
  }

  /** One step along the stream: from a token that has a successor, the
      scanner lands on that successor and the stream loses its head. */
  lemma Advance(pr: seq<char>, p: nat, more: seq<char>) returns (q: nat)
    requires Program(pr) && TokenAt(pr, p)
    requires TokensFrom(pr, p)[1..] == more && more != []
    ensures NextToken(pr, p) == Ok(q) && TokenAt(pr, q)
    ensures TokensFrom(pr, q) == more && pr[q] == more[0]
  {
    NextTokenDrops(pr, p);
    q := NextToken(pr, p).value;
  }

  /** A stream with one token left: the scanner runs into NUL. */
  lemma StreamEnds(pr: seq<char>, p: nat)
    requires Program(pr) && TokenAt(pr, p) && |TokensFrom(pr, p)| == 1
    ensures NextToken(pr, p) == Err(Unfinished)
  {
    NextTokenDrops(pr, p);
  }

  /** Two cursors, possibly in different buffers, from which the same
      tokens follow: the buffers differ at most in their comment bytes. */
  ghost predicate SameStream(pr1: seq<char>, p1: nat, pr2: seq<char>, p2: nat) {
    Program(pr1) && Program(pr2) && p1 < |pr1| && p2 < |pr2| &&
    TokensFrom(pr1, p1) == TokensFrom(pr2, p2)
  }

  /** The scanner keeps two such cursors in step. */
  lemma NextTokenSame(pr1: seq<char>, p1: nat, pr2: seq<char>, p2: nat)
    requires SameStream(pr1, p1, pr2, p2) && TokenAt(pr1, p1) && TokenAt(pr2, p2)
    ensures pr1[p1] == pr2[p2]
    ensures NextToken(pr1, p1).Ok? <==> NextToken(pr2, p2).Ok?
    ensures NextToken(pr1, p1).Ok? ==>
      SameStream(pr1, NextToken(pr1, p1).value, pr2, NextToken(pr2, p2).value)
    ensures SameStream(pr1, NextWhite(pr1, p1), pr2, NextWhite(pr2, p2))
  {
    TokensAtToken(pr1, p1);
    TokensAtToken(pr2, p2);
    var w1, w2 := NextWhite(pr1, p1), NextWhite(pr2, p2);
    assert TokensFrom(pr1, w1) == TokensFrom(pr1, p1)[1..];
    assert TokensFrom(pr2, w2) == TokensFrom(pr2, p2)[1..];
  }

  /** The comment-free buffer of the tokens from `p` on. */
  function Stripped(pr: seq<char>, p: nat): (b: seq<char>)
    requires Program(pr) && p < |pr|
    ensures Program(b) && |b| == |TokensFrom(pr, p)| + 1
  {
    TokensFrom(pr, p) + [NUL]
  }

  /** A buffer of nothing but tokens has itself as its stream. */
  lemma {:induction false} TokensOfTokens(ts: seq<char>)
    requires forall i :: 0 <= i < |ts| ==> IsToken(ts[i])
    ensures TokensFrom(ts + [NUL], 0) == ts
    decreases |ts|
  {
    if ts != [] {
      TokensOfTokens(ts[1..]);
      TokensShift(ts + [NUL], 1);
      assert (ts + [NUL])[1..] == ts[1..] + [NUL];
    }
  }

  /** Dropping leading bytes does not change the stream of what remains. */
  lemma {:induction false} TokensShift(pr: seq<char>, k: nat)
    requires Program(pr) && k < |pr|
    ensures TokensFrom(pr, k) == TokensFrom(pr[k..], 0)
    decreases |pr| - k
  {
    if pr[k] != NUL {
      TokensShift(pr, k + 1);
      TokensShift(pr[k..], 1);
      assert pr[k..][1..] == pr[k + 1..];
    }
  }
}
