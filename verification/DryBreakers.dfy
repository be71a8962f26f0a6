/** The restart sequences of the DRY sampler: where the scan for them stops. */
module DryBreakers {
  import opened TokenSearch

  /** Head token to the tails that complete a restart sequence; an empty tail is a one-token sequence. */
  type Breakers = map<Token, seq<seq<Token>>>

  /** The restart sequence with the head at `ix` and this tail stands in the window, tail and all. */
  predicate TailAt(w: seq<Token>, ix: nat, tail: seq<Token>) {
    ix + 1 + |tail| <= |w| && w[ix + 1..ix + 1 + |tail|] == tail
  }

  /** Length of the longest of the tails that stands after the head at `ix`; -1 if none does. */
  function LongestTail(w: seq<Token>, ix: nat, tails: seq<seq<Token>>): (n: int)
    requires ix < |w|
    ensures -1 <= n <= |w| - 1 - ix
  {
    if tails == [] then -1
    else
      var rest, tail := LongestTail(w, ix, tails[..|tails| - 1]), tails[|tails| - 1];
      if |tail| > rest && TailAt(w, ix, tail) then |tail| else rest
  }

  lemma {:induction false} LongestTailIsLongest(w: seq<Token>, ix: nat, tails: seq<seq<Token>>)
    requires ix < |w|
    ensures var n := LongestTail(w, ix, tails);
            && (n >= 0 ==> exists t :: t in tails && |t| == n && TailAt(w, ix, t))
            && (forall t :: t in tails && TailAt(w, ix, t) ==> |t| <= n)
  {
    if tails != [] {
      var front, tail := tails[..|tails| - 1], tails[|tails| - 1];
      LongestTailIsLongest(w, ix, front);
      assert tails == front + [tail];
      assert tail in tails;
    }
  }

  function TailsOf(breakers: Breakers, head: Token): seq<seq<Token>> {
    if head in breakers then breakers[head] else []
  }

  /** The scan from the end with `i` tokens behind it. */
  function LimitFrom(w: seq<Token>, breakers: Breakers, i: nat): (limit: nat)
    requires i <= |w|
    ensures limit <= |w|
    decreases |w| - i
  {
    if i == |w| then |w|
    else
      var ix := |w| - 1 - i;
      var n := LongestTail(w, ix, TailsOf(breakers, w[ix]));
      if n >= 0 then i - n else LimitFrom(w, breakers, i + 1)
  }

  function RepeatLimit(w: seq<Token>, breakers: Breakers): (limit: nat)
    ensures limit <= |w|
  {
    LimitFrom(w, breakers, 0)
  }

  /** A complete restart sequence starts at `ix`. */
  ghost predicate BreaksAt(w: seq<Token>, breakers: Breakers, ix: nat) {
    ix < |w| && exists t :: t in TailsOf(breakers, w[ix]) && TailAt(w, ix, t)
  }

  lemma BreaksWhereTail(w: seq<Token>, breakers: Breakers, ix: nat)
    requires ix < |w|
    ensures BreaksAt(w, breakers, ix) <==> LongestTail(w, ix, TailsOf(breakers, w[ix])) >= 0
  {
    LongestTailIsLongest(w, ix, TailsOf(breakers, w[ix]));
  }

  /** The rightmost head at which a restart sequence is complete, or -1. */
  function LastBreak(w: seq<Token>, breakers: Breakers, i: nat): (ix: int)
    requires i <= |w|
    ensures -1 <= ix < |w| - i
    decreases |w| - i
  {
    if i == |w| then -1
    else
      var ix := |w| - 1 - i;
      if LongestTail(w, ix, TailsOf(breakers, w[ix])) >= 0 then ix else LastBreak(w, breakers, i + 1)
  }

  lemma {:induction false} LastBreakIsLast(w: seq<Token>, breakers: Breakers, i: nat, k: nat)
    requires i <= |w|
    ensures var ix := LastBreak(w, breakers, i);
            && (ix >= 0 ==> BreaksAt(w, breakers, ix))
            && (ix < k < |w| - i ==> !BreaksAt(w, breakers, k))
    decreases |w| - i
  {
    if i < |w| {
      BreaksWhereTail(w, breakers, |w| - 1 - i);
      if LongestTail(w, |w| - 1 - i, TailsOf(breakers, w[|w| - 1 - i])) < 0 {
        LastBreakIsLast(w, breakers, i + 1, k);
      }
    }
  }

  lemma {:induction false} LimitIsAfterLastBreak(w: seq<Token>, breakers: Breakers, i: nat)
    requires i <= |w|
    ensures var ix := LastBreak(w, breakers, i);
            LimitFrom(w, breakers, i)
            == if ix < 0 then |w| else |w| - 1 - ix - LongestTail(w, ix, TailsOf(breakers, w[ix]))
    decreases |w| - i
  {
    if i < |w| && LongestTail(w, |w| - 1 - i, TailsOf(breakers, w[|w| - 1 - i])) < 0 {
      LimitIsAfterLastBreak(w, breakers, i + 1);
    }
  }

  /**
   The limit is the number of tokens after the longest restart sequence at the rightmost head where one is complete,
   all of them if there is none; and no complete restart sequence starts among the last `limit` tokens.
   */
  lemma RepeatLimitMeaning(w: seq<Token>, breakers: Breakers, k: nat)
    ensures var limit, ix := RepeatLimit(w, breakers), LastBreak(w, breakers, 0);
            && limit == (if ix < 0 then |w| else |w| - 1 - ix - LongestTail(w, ix, TailsOf(breakers, w[ix])))
            && (ix >= 0 ==> BreaksAt(w, breakers, ix))
            && (ix < k < |w| ==> !BreaksAt(w, breakers, k))
            && (|w| - limit <= k < |w| ==> !BreaksAt(w, breakers, k))
  {
    LimitIsAfterLastBreak(w, breakers, 0);
    LastBreakIsLast(w, breakers, 0, k);
    var ix := LastBreak(w, breakers, 0);
    if ix >= 0 {
      BreaksWhereTail(w, breakers, ix);
    }
  }

  lemma EmptyTailBreaks(w: seq<Token>, breakers: Breakers, ix: nat)
    requires ix < |w|
    requires forall h :: h in breakers ==> breakers[h] == [[]]
    ensures w[ix] in breakers ==> BreaksAt(w, breakers, ix)
  {
    var head := w[ix];
    if head in breakers {
      assert breakers[head] == [[]];
      assert [] in TailsOf(breakers, head) && TailAt(w, ix, []);
    }
  }

  /** With one-token breakers the limit is the distance to the last of them. */
  lemma OneTokenBreakers(w: seq<Token>, breakers: Breakers, k: nat)
    requires forall h :: h in breakers ==> breakers[h] == [[]]
    ensures var limit := RepeatLimit(w, breakers);
            && (|w| - limit <= k < |w| ==> w[k] !in breakers)
            && (limit < |w| ==> w[|w| - 1 - limit] in breakers)
  {
    RepeatLimitMeaning(w, breakers, k);
    var limit, ix := RepeatLimit(w, breakers), LastBreak(w, breakers, 0);
    if ix >= 0 {
      var t :| t in TailsOf(breakers, w[ix]) && TailAt(w, ix, t);
      LongestTailIsLongest(w, ix, TailsOf(breakers, w[ix]));
    }
    if |w| - limit <= k < |w| {
      EmptyTailBreaks(w, breakers, k);
    }
  }

  // ---------------------------------------------------------------- the scan

  method FindLongestTail(w: seq<Token>, ix: nat, tails: seq<seq<Token>>) returns (longest: int)
    requires ix < |w|
    ensures longest == LongestTail(w, ix, tails)
  {
    longest := -1;
    var i := |w| - 1 - ix;
    for t := 0 to |tails|
      invariant longest == LongestTail(w, ix, tails[..t])
    {
      assert tails[..t + 1][..t] == tails[..t];
      var seqLen := |tails[t]|;
      if seqLen > longest && seqLen <= i {
        var matches := true;
        var offset := 0;
        while offset < seqLen && matches
          invariant 0 <= offset <= seqLen
          invariant matches ==> tails[t][..offset] == w[ix + 1..ix + 1 + offset]
          invariant !matches ==> !TailAt(w, ix, tails[t])
          decreases seqLen - offset, matches
        {
          if tails[t][offset] != w[ix + 1 + offset] {
            matches := false;
            assert w[ix + 1..ix + 1 + seqLen][offset] == w[ix + 1 + offset];
          } else {
            assert w[ix + 1..ix + 2 + offset] == w[ix + 1..ix + 1 + offset] + [w[ix + 1 + offset]];
            offset := offset + 1;
          }
        }
        if matches {
          longest := seqLen;
        }
      }
    }
    assert tails[..|tails|] == tails;
  }

  /** Step 1: works backwards to the first head that completes a restart sequence. */
  method ScanBreakers(w: seq<Token>, breakers: Breakers) returns (limit: int)
    ensures limit == RepeatLimit(w, breakers)
  {
    limit := |w|;
    for i := 0 to |w|
      invariant limit == |w|
      invariant RepeatLimit(w, breakers) == LimitFrom(w, breakers, i)
    {
      var ix := |w| - 1 - i;
      if w[ix] in breakers {
        var longest := FindLongestTail(w, ix, breakers[w[ix]]);
        if longest >= 0 {
          limit := i - longest;
          break;
        }
      }
    }
  }
}
