/** The DRY repetition sampler: sample_dry of gpttype_adapter.cpp. */
module DrySampler {
  import opened Numbers
  import opened TokenSearch
  import opened SuffixRepeats
  import opened DryBreakers

  // ---------------------------------------------------------------- what a token would extend

  /** The longest repeat, capped, that ends just before one of the positions `1 .. p` holding `t`; -1 without one. */
  function Best(w: seq<Token>, limit: nat, t: Token, p: nat): (n: int)
    requires p <= |w|
    ensures -1 <= n <= limit
  {
    if p <= 1 then -1
    else
      var rest, n := Best(w, limit, t, p - 1), Min(RepeatLength(w, |w| - (p - 1)), limit);
      if w[p - 1] == t && n > rest then n else rest
  }

  /** The last `len` tokens also stand just before an earlier `t`. */
  ghost predicate Continues(w: seq<Token>, t: Token, len: nat) {
    exists p :: 1 <= p < |w| && ContinuesAt(w, t, len, p)
  }

  ghost predicate ContinuesAt(w: seq<Token>, t: Token, len: nat, p: nat) {
    len <= p < |w| && w[p] == t && w[p - len..p] == w[|w| - len..]
  }

  lemma RepeatContinues(w: seq<Token>, limit: nat, t: Token, p: nat, len: nat)
    requires 0 < p < |w| && len <= limit
    ensures w[p] == t && len <= Min(RepeatLength(w, |w| - p), limit) <==> ContinuesAt(w, t, len, p)
  {
    RepeatLengthIsLongest(w, |w| - p, len);
    if len <= p {
      RepeatsAsSlices(w, |w| - p, len);
    }
  }

  lemma {:induction false} BestUpTo(w: seq<Token>, limit: nat, t: Token, p: nat, len: nat)
    requires p <= |w| && len <= limit
    ensures len <= Best(w, limit, t, p) <==> exists q :: 1 <= q < p && ContinuesAt(w, t, len, q)
  {
    if p > 1 {
      BestUpTo(w, limit, t, p - 1, len);
      RepeatContinues(w, limit, t, p - 1, len);
    }
  }

  /** `Best` is the largest length up to the limit whose tokens also stand before an earlier `t`. */
  lemma BestIsLargest(w: seq<Token>, limit: nat, t: Token, len: nat)
    requires len <= limit
    ensures len <= Best(w, limit, t, |w|) <==> Continues(w, t, len)
  {
    BestUpTo(w, limit, t, |w|, len);
  }

  /** Position `p` of the cached tokens holds `t`, and the last `len` tokens stand before it, all in the newest `n`. */
  predicate EndsBefore(cur: seq<Token>, n: nat, t: Token, len: nat, p: int) {
    && n <= |cur| && |cur| - n + len <= p < |cur| && cur[p] == t
    && cur[p - len..p] == cur[|cur| - len..]
  }

  lemma ContinuesAtWhere(cur: seq<Token>, n: nat, t: Token, len: nat, p: nat)
    requires n <= |cur| && p < n
    ensures ContinuesAt(cur[|cur| - n..], t, len, p) <==> EndsBefore(cur, n, t, len, |cur| - n + p)
  {
    var w, from := cur[|cur| - n..], |cur| - n;
    if len <= p {
      assert w[p - len..p] == cur[from + p - len..from + p];
      assert w[|w| - len..] == cur[|cur| - len..];
    }
  }

  lemma ContinuesWhere(cur: seq<Token>, n: nat, t: Token, len: nat)
    requires n <= |cur|
    ensures Continues(cur[|cur| - n..], t, len) <==>
            exists p :: |cur| - n < p < |cur| && EndsBefore(cur, n, t, len, p)
  {
    var w := cur[|cur| - n..];
    if Continues(w, t, len) {
      var p :| 1 <= p < |w| && ContinuesAt(w, t, len, p);
      ContinuesAtWhere(cur, n, t, len, p);
      assert EndsBefore(cur, n, t, len, |cur| - n + p);
    }
    if p :| |cur| - n < p < |cur| && EndsBefore(cur, n, t, len, p) {
      ContinuesAtWhere(cur, n, t, len, p - (|cur| - n));
      assert ContinuesAt(w, t, len, p - (|cur| - n));
    }
  }

  // ---------------------------------------------------------------- the penalty

  lemma FloorOfQuotient(x: real, y: real, e: int)
    requires x >= 0.0 && y > 0.0
    ensures (x / y).Floor >= 0 && (e <= (x / y).Floor <==> e as real * y <= x)
  {
    var q := x / y;
    assert q * y == x && q >= 0.0;
    TimesPositive(e as real, q, y);
  }

  lemma TimesPositive(a: real, b: real, y: real)
    requires y > 0.0
    ensures a <= b <==> a * y <= b * y
  {
  }

  function Power(b: real, n: nat): real {
    if n == 0 then 1.0 else b * Power(b, n - 1)
  }

  /** Powers add up: with Power(b, 0) == 1 and Power(b, 1) == b there is nothing else they can be. */
  lemma {:induction false} PowerAdds(b: real, m: nat, n: nat)
    ensures Power(b, 0) == 1.0 && Power(b, 1) == b
    ensures Power(b, m + n) == Power(b, m) * Power(b, n)
  {
    assert Power(b, 1) == b * Power(b, 0);
    if m > 0 {
      PowerAdds(b, m - 1, n);
      Associate(b, Power(b, m - 1), Power(b, n));
    }
  }

  lemma Associate(a: real, b: real, c: real)
    ensures a * (b * c) == a * b * c
  {
  }

  lemma {:induction false} PowerPositive(b: real, n: nat)
    requires b > 0.0
    ensures Power(b, n) > 0.0
  {
    if n > 0 {
      PowerPositive(b, n - 1);
    }
  }

  datatype Settings = Settings(
    nCtx: int,
    range: int,
    multiplier: real,
    base: real,
    logBase: real,     // std::log(base)
    allowed: nat,
    breakers: Breakers)
  {
    predicate Admissible() {
      base > 1.000001 ==> logBase > 0.0
    }

    /** How many of `size` cached tokens are looked at. */
    function LastN(size: nat): (n: int)
      ensures n <= size
    {
      var r := if range <= 0 || range > nCtx then nCtx else range;
      Min(Min(size, r), nCtx)
    }

    function Window(cur: seq<Token>): seq<Token> {
      var n := LastN(|cur|);
      if n <= 0 then [] else cur[|cur| - n..]
    }

    /** Largest exponent before the power leaves the range of a float; 0 for no clamp. */
    function MaxExponent(): int
      requires Admissible()
    {
      if base > 1.000001 then (88.7228391 / logBase).Floor else 0
    }

    function Exponent(repeatLen: int): int
      requires Admissible()
    {
      var e := repeatLen - allowed;
      if MaxExponent() > 0 && e > MaxExponent() then MaxExponent() else e
    }

    function PenaltyFor(repeatLen: int): real
      requires Admissible() && repeatLen >= allowed
    {
      multiplier * Power(base, Exponent(repeatLen))
    }

    predicate Penalised(cur: seq<Token>, t: Token) {
      var w := Window(cur);
      var limit := RepeatLimit(w, breakers);
      multiplier > 0.0 && base > 0.0 && limit > allowed && Best(w, limit, t, |w|) >= allowed
    }

    /** What is taken off the logit of `t`. */
    function Penalty(cur: seq<Token>, t: Token): real
      requires Admissible()
    {
      var w := Window(cur);
      if Penalised(cur, t) then PenaltyFor(Best(w, RepeatLimit(w, breakers), t, |w|)) else 0.0
    }

    /** The number of tokens looked at: as many as there are, as the range says and as the context has. */
    predicate Looks(size: nat, n: int) {
      n == Min(Min(size, nCtx), if 0 < range <= nCtx then range else nCtx)
    }

    /** The window holds the newest `n` tokens, in order. */
    lemma WindowMeaning(cur: seq<Token>, n: int, i: nat)
      requires Looks(|cur|, n)
      ensures |Window(cur)| == Max(n, 0)
      ensures i < n ==> Window(cur)[i] == cur[|cur| - n + i]
      ensures n > 0 ==> Window(cur) == cur[|cur| - n..]
    {
    }

    /** The clamp is the greatest exponent for which the power stays below the limit of a float. */
    lemma MaxExponentMeaning(e: int)
      requires Admissible()
      ensures base <= 1.000001 ==> MaxExponent() == 0
      ensures base > 1.000001 ==> MaxExponent() >= 0 && (e <= MaxExponent() <==> e as real * logBase <= 88.7228391)
    {
      if base > 1.000001 {
        FloorOfQuotient(88.7228391, logBase, e);
      }
    }

    /**
     A token loses logit exactly if the restart limit is above the allowed length and the last `allowed` tokens of
     the window also stand just before an earlier occurrence of it.
     */
    lemma PenalisedIff(cur: seq<Token>, t: Token)
      requires Admissible() && multiplier > 0.0 && base > 0.0
      ensures Penalty(cur, t) >= 0.0
      ensures Penalty(cur, t) > 0.0
              <==> RepeatLimit(Window(cur), breakers) > allowed && Continues(Window(cur), t, allowed)
    {
      var w := Window(cur);
      var limit := RepeatLimit(w, breakers);
      if limit > allowed {
        BestIsLargest(w, limit, t, allowed);
        if Penalised(cur, t) {
          PowerPositive(base, Exponent(Best(w, limit, t, |w|)));
        }
      }
    }

    /** The same over the cached tokens, of which the newest `n` are looked at. */
    lemma PenalisedWhere(cur: seq<Token>, t: Token, n: int)
      requires Admissible() && multiplier > 0.0 && base > 0.0 && Looks(|cur|, n)
      ensures Penalty(cur, t) > 0.0 <==>
              && n > 0 && RepeatLimit(cur[|cur| - n..], breakers) > allowed
              && exists p :: |cur| - n < p < |cur| && EndsBefore(cur, n, t, allowed, p)
    {
      PenalisedIff(cur, t);
      WindowMeaning(cur, n, 0);
      if n > 0 {
        ContinuesWhere(cur, n, t, allowed);
      }
    }

    /** And so goes the penalty: by the largest length up to the restart limit that stands before a `t`. */
    lemma PenaltyWhere(cur: seq<Token>, t: Token, n: int, len: nat, p: nat)
      requires Admissible() && multiplier > 0.0 && base > 0.0 && Looks(|cur|, n) && n > 0
      requires allowed < RepeatLimit(cur[|cur| - n..], breakers)
      requires allowed <= len <= RepeatLimit(cur[|cur| - n..], breakers)
      requires |cur| - n < p < |cur| && EndsBefore(cur, n, t, len, p)
      requires forall l: nat, q :: len < l <= RepeatLimit(cur[|cur| - n..], breakers) && |cur| - n < q < |cur| ==>
                 !EndsBefore(cur, n, t, l, q)
      ensures var e := len - allowed;
              Penalty(cur, t) == multiplier * Power(base, if MaxExponent() > 0 then Min(e, MaxExponent()) else e)
    {
      WindowMeaning(cur, n, 0);
      ContinuesWhere(cur, n, t, len);
      forall l | len < l <= RepeatLimit(Window(cur), breakers)
        ensures !Continues(Window(cur), t, l)
      {
        ContinuesWhere(cur, n, t, l);
      }
      PenaltyIs(cur, t, len);
    }

    /** The penalty goes by the largest such length up to the restart limit, with the exponent clamped. */
    lemma PenaltyIs(cur: seq<Token>, t: Token, len: nat)
      requires Admissible() && multiplier > 0.0 && base > 0.0
      requires allowed < RepeatLimit(Window(cur), breakers)
      requires allowed <= len <= RepeatLimit(Window(cur), breakers) && Continues(Window(cur), t, len)
      requires forall l :: len < l <= RepeatLimit(Window(cur), breakers) ==> !Continues(Window(cur), t, l)
      ensures var e := len - allowed;
              Penalty(cur, t) == multiplier * Power(base, if MaxExponent() > 0 then Min(e, MaxExponent()) else e)
    {
      var w := Window(cur);
      var limit := RepeatLimit(w, breakers);
      BestIsLargest(w, limit, t, len);
      if len < limit {
        BestIsLargest(w, limit, t, len + 1);
      }
      assert Best(w, limit, t, |w|) == len;
    }

    /** With nothing allowed every token after the first of the window counts; the first position never does. */
    lemma NothingAllowed(cur: seq<Token>, t: Token)
      requires Admissible() && multiplier > 0.0 && base > 0.0 && allowed == 0
      ensures Penalty(cur, t) > 0.0 <==> RepeatLimit(Window(cur), breakers) > 0 && t in Window(cur)[1..]
    {
      var w := Window(cur);
      PenalisedIff(cur, t);
      if RepeatLimit(w, breakers) > 0 {
        if t in w[1..] {
          var i :| 0 <= i < |w[1..]| && w[1..][i] == t;
          assert ContinuesAt(w, t, 0, i + 1);
        }
        if Continues(w, t, 0) {
          var p :| 1 <= p < |w| && ContinuesAt(w, t, 0, p);
          assert w[1..][p - 1] == t;
        }
      }
    }
  }

  // ---------------------------------------------------------------- the sampler

  class Sampler {
    var cur: seq<Token>              // current_context_tokens
    var repeatCount: seq<int>        // dry_repeat_count
    var maxRepeat: map<Token, int>   // dry_max_token_repeat

    ghost predicate Counted(w: seq<Token>, limit: nat, k: nat)
      reads this`repeatCount
    {
      |repeatCount| == |w|
      && forall j :: 1 <= j < k && j < |w| ==> repeatCount[|w| - 1 - j] == Min(RepeatLength(w, j), limit)
    }

    /**
     Step 2: the Z-algorithm from the end. Entry `|w| - 1 - k` becomes the capped length of the repeat at `k`,
     with at most `2 * (|w| - 1)` comparisons of tokens.
     */
    method CountRepeats(w: seq<Token>, limit: nat) returns (ghost comparisons: nat)
      requires w != [] && |repeatCount| == |w|
      modifies this`repeatCount
      ensures Counted(w, limit, |w|)
      ensures repeatCount[|w| - 1] == old(repeatCount)[|w| - 1]
      ensures comparisons <= 2 * (|w| - 1)
    {
      comparisons := 0;
      var size, last := |w|, |w| - 1;
      var rt, lt := 0, 0;
      for k := 1 to size
        invariant Counted(w, limit, k) && repeatCount[last] == old(repeatCount)[last]
        invariant InBox(w, lt, rt, k)
        invariant comparisons <= k - 1 + rt
      {
        ghost var more;
        if k > rt {
          lt, rt, more := OutsideBox(w, limit, k, lt, rt);
        } else {
          lt, rt, more := InsideBox(w, limit, k, lt, rt);
        }
        comparisons := comparisons + more;
      }
    }

    /** The last box found before `k`, none as long as `rt` is 0. */
    ghost predicate InBox(w: seq<Token>, lt: nat, rt: nat, k: nat) {
      rt < |w| && (rt > 0 ==> 1 <= lt < k && lt <= rt && Box(w, lt, rt))
    }

    /** Outside of the last box everything is compared. */
    method OutsideBox(w: seq<Token>, limit: nat, k: nat, lt: nat, rt: nat)
      returns (lt': nat, rt': nat, ghost comparisons: nat)
      requires rt < k < |w| && Counted(w, limit, k) && InBox(w, lt, rt, k)
      modifies this`repeatCount
      ensures Counted(w, limit, k + 1) && repeatCount[|w| - 1] == old(repeatCount)[|w| - 1]
      ensures InBox(w, lt', rt', k + 1) && comparisons + rt <= 1 + rt'
    {
      var n;
      n, comparisons := CompareFrom(w, k, 0);
      repeatCount := repeatCount[|w| - 1 - k := Min(n, limit)];
      lt', rt' := lt, rt;
      if n > 0 {
        RepeatIsBox(w, k, n);
        lt' := k;
        rt' := k + n - 1;
      }
    }

    /** Inside of it the entry at the pair index counts, unless it reaches the edge of the box. */
    method InsideBox(w: seq<Token>, limit: nat, k: nat, lt: nat, rt: nat)
      returns (lt': nat, rt': nat, ghost comparisons: nat)
      requires 1 <= k <= rt && Counted(w, limit, k) && InBox(w, lt, rt, k)
      modifies this`repeatCount
      ensures Counted(w, limit, k + 1) && repeatCount[|w| - 1] == old(repeatCount)[|w| - 1]
      ensures InBox(w, lt', rt', k + 1) && comparisons + rt <= 1 + rt'
    {
      var last := |w| - 1;
      var p := k - lt;
      var rightPartLen := rt - k + 1;
      lt', rt', comparisons := lt, rt, 0;
      if repeatCount[last - p] < rightPartLen {
        CappedInsideBox(w, lt, rt, k, limit);
        repeatCount := repeatCount[last - k := Min(repeatCount[last - p], limit)];
      } else {
        RepeatsToBoxEdge(w, lt, rt, k, limit);
        var n;
        n, comparisons := CompareFrom(w, k, rightPartLen);
        repeatCount := repeatCount[last - k := Min(n, limit)];
        RepeatIsBox(w, k, n);
        lt' := k;
        rt' := k + n - 1;
      }
    }

    /** Step 3: the best repeat that each token would extend, if it is long enough to matter. */
    method TabulateTokens(w: seq<Token>, limit: nat, allowed: nat)
      requires w != [] && Counted(w, limit, |w|) && maxRepeat == map[]
      modifies this`maxRepeat
      ensures Tabulated(w, limit, allowed, |w|)
    {
      for i := 0 to |w| - 1
        invariant Counted(w, limit, |w|)
        invariant Tabulated(w, limit, allowed, i + 1)
      {
        var repeatLen := repeatCount[i];
        assert repeatLen == Min(RepeatLength(w, |w| - (i + 1)), limit) by {
          assert repeatCount[|w| - 1 - (|w| - 1 - i)] == repeatLen;
        }
        if repeatLen >= allowed {
          var token := w[i + 1];
          if token !in maxRepeat || maxRepeat[token] < repeatLen {
            maxRepeat := maxRepeat[token := repeatLen];
          }
        }
      }
    }

    ghost predicate Tabulated(w: seq<Token>, limit: nat, allowed: nat, p: nat)
      requires p <= |w|
      reads this`maxRepeat
    {
      forall t ::
        && (t in maxRepeat <==> Best(w, limit, t, p) >= allowed)
        && (t in maxRepeat ==> maxRepeat[t] == Best(w, limit, t, p))
    }

    /** Step 4: each token of the table is penalised once, in whatever order the table is walked. */
    method ApplyPenalties(s: Settings, logits: array<real>) returns (count: nat)
      requires s.Admissible()
      requires forall t :: t in maxRepeat ==> 0 <= t < logits.Length && maxRepeat[t] >= s.allowed
      modifies logits
      ensures count == |maxRepeat|
      ensures forall t :: 0 <= t < logits.Length ==>
                logits[t] == old(logits[t]) - if t in maxRepeat then s.PenaltyFor(maxRepeat[t]) else 0.0
    {
      count := 0;
      var maxExponent := s.MaxExponent();
      var rest := maxRepeat.Keys;
      ghost var was := logits[..];
      while rest != {}
        invariant rest <= maxRepeat.Keys
        invariant count == |maxRepeat| - |rest|
        invariant AllButRest(s, maxRepeat, was, logits[..], rest)
        decreases rest
      {
        SomeToken(rest);
        var token :| token in rest;
        OneLess(s, maxRepeat, was, logits[..], rest, token);
        var penalty := ClampedPenalty(s, maxRepeat[token], maxExponent);
        Subtract(logits, token, penalty);
        rest := rest - {token};
        count := count + 1;
      }
    }

    /** sample_dry: every logit loses its penalty and nothing else; `sorted` falls if any was changed. */
    method SampleDry(s: Settings, logits: array<real>, sorted: bool) returns (stillSorted: bool)
      requires s.Admissible()
      requires forall t :: t in cur ==> 0 <= t < logits.Length
      modifies this`repeatCount, this`maxRepeat, logits
      ensures forall t :: 0 <= t < logits.Length ==> logits[t] == old(logits[t]) - s.Penalty(cur, t)
      ensures stillSorted ==> sorted && forall t :: !s.Penalised(cur, t)
      ensures sorted && !stillSorted ==> exists t :: s.Penalised(cur, t)
    {
      stillSorted := sorted;
      if s.multiplier <= 0.0 || s.base <= 0.0 {
        return;
      }
      var lastN := s.LastN(|cur|);
      if lastN <= s.allowed {
        return;
      }
      var w := cur[|cur| - lastN..];
      assert w == s.Window(cur) && forall t :: t in w ==> t in cur;
      var limit := ScanBreakers(w, s.breakers);
      if limit <= s.allowed {
        return;
      }
      var count := PenaliseWindow(s, w, limit, logits);
      forall t ensures s.Penalised(cur, t) <==> Best(w, limit, t, |w|) >= s.allowed {
      }
      if count > 0 {
        stillSorted := false;
      }
    }

    /** Steps 2 to 4. */
    method PenaliseWindow(s: Settings, w: seq<Token>, limit: nat, logits: array<real>) returns (count: nat)
      requires s.Admissible() && w != []
      requires forall t :: t in w ==> 0 <= t < logits.Length
      modifies this`repeatCount, this`maxRepeat, logits
      ensures forall t :: 0 <= t < logits.Length ==>
                var best := Best(w, limit, t, |w|);
                logits[t] == old(logits[t]) - if best >= s.allowed then s.PenaltyFor(best) else 0.0
      ensures count == 0 ==> forall t :: Best(w, limit, t, |w|) < s.allowed
      ensures count > 0 ==> exists t :: Best(w, limit, t, |w|) >= s.allowed
    {
      repeatCount, maxRepeat := seq(|w|, _ => 0), map[];
      ghost var comparisons := CountRepeats(w, limit);
      TabulateTokens(w, limit, s.allowed);
      forall t | t in maxRepeat ensures 0 <= t < logits.Length {
        BestIsToken(w, limit, t, |w|);
      }
      count := ApplyPenalties(s, logits);
      if count > 0 {
        SomeToken(maxRepeat.Keys);
      }
    }
  }

  /** The comparing loop of both branches: `n` tokens are known to repeat; it goes on up to the first that does not. */
  method CompareFrom(w: seq<Token>, k: nat, start: nat) returns (n: nat, ghost comparisons: nat)
    requires 1 <= k < |w| && Repeats(w, k, start)
    ensures start <= n && Repeats(w, k, n) && n == RepeatLength(w, k)
    ensures n + k <= |w| && comparisons == n - start + if n + k < |w| then 1 else 0
  {
    var size, last := |w|, |w| - 1;
    n, comparisons := start, 0;
    while n + k < size && w[last - n] == w[last - (n + k)]
      invariant start <= n && Repeats(w, k, n) && comparisons == n - start
      decreases size - n
    {
      n := n + 1;
      comparisons := comparisons + 1;
    }
    comparisons := comparisons + if n + k < size then 1 else 0;
    RepeatStops(w, k, n);
  }

  /** Every token of the table but those in `rest` has lost its penalty, and no other token anything. */
  ghost predicate AllButRest(s: Settings, table: map<Token, int>, was: seq<real>, now: seq<real>, rest: set<Token>)
    requires s.Admissible()
  {
    && |now| == |was|
    && (forall t :: t in table ==> 0 <= t < |was| && table[t] >= s.allowed)
    && forall t :: 0 <= t < |was| ==>
         now[t] == was[t] - if t in table && t !in rest then s.PenaltyFor(table[t]) else 0.0
  }

  lemma OneLess(s: Settings, table: map<Token, int>, was: seq<real>, now: seq<real>, rest: set<Token>, token: Token)
    requires s.Admissible() && AllButRest(s, table, was, now, rest) && token in rest && token in table
    ensures AllButRest(s, table, was, now[token := now[token] - s.PenaltyFor(table[token])], rest - {token})
  {
  }

  /** The penalty with its exponent clamped. */
  method ClampedPenalty(s: Settings, repeatLen: int, maxExponent: int) returns (penalty: real)
    requires s.Admissible() && repeatLen >= s.allowed && maxExponent == s.MaxExponent()
    ensures penalty == s.PenaltyFor(repeatLen)
  {
    var repeatExp := repeatLen - s.allowed;
    if maxExponent > 0 && repeatExp > maxExponent {
      repeatExp := maxExponent;
    }
    penalty := s.multiplier * Power(s.base, repeatExp);
  }

  method Subtract(logits: array<real>, t: nat, penalty: real)
    requires t < logits.Length
    modifies logits
    ensures logits[..] == old(logits[..])[t := old(logits[..])[t] - penalty]
  {
    logits[t] := logits[t] - penalty;
  }

  lemma SomeToken(tokens: set<Token>)
    ensures tokens != {} ==> exists t :: t in tokens
  {
    if !exists t :: t in tokens {
      assert tokens == {};
    }
  }

  lemma {:induction false} BestIsToken(w: seq<Token>, limit: nat, t: Token, p: nat)
    requires p <= |w| && Best(w, limit, t, p) >= 0
    ensures t in w
  {
    if Best(w, limit, t, p - 1) >= 0 {
      BestIsToken(w, limit, t, p - 1);
    }
  }
}
