/**
 The prompt cache of gpttype_generate on the context-shift path: what the KV cache holds, the tokens the
 program believes it holds, and how one request reuses them.
 */
module PromptCache {
  import opened Numbers
  import opened TokenSearch

  // ---------------------------------------------------------------- the KV cache

  /** Which token was evaluated at which position. */
  type Kv = map<nat, Token>

  /** llama_kv_cache_seq_rm: forget positions `[p0, p1)`; a negative `p1` means to the end. */
  function SeqRm(kv: Kv, p0: nat, p1: int): Kv {
    map p | p in kv && !(p0 <= p && (p1 < 0 || p < p1)) :: kv[p]
  }

  function Lowered(positions: set<nat>, p0: nat, diff: nat): set<nat>
    requires diff <= p0
  {
    set p | p in positions && p0 <= p :: p - diff
  }

  lemma LoweredAt(positions: set<nat>, p0: nat, diff: nat, q: nat)
    requires diff <= p0
    ensures q in Lowered(positions, p0, diff) <==> p0 <= q + diff && q + diff in positions
  {
    if q in Lowered(positions, p0, diff) {
      var p :| p in positions && p0 <= p && p - diff == q;
    }
    if p0 <= q + diff && q + diff in positions {
      var p := q + diff;
      assert p in positions && p0 <= p && p - diff == q;
    }
  }

  /** llama_kv_cache_seq_add to the end: positions from `p0` move `diff` down, onto free positions. */
  function SeqShift(kv: Kv, p0: nat, diff: nat): Kv
    requires diff <= p0
    requires forall p :: p in kv ==> !(p0 - diff <= p < p0)
  {
    (map p | p in kv && p < p0 :: kv[p])
    + (map q {:trigger q in Lowered(kv.Keys, p0, diff)} | q in Lowered(kv.Keys, p0, diff) ::
         LoweredAt(kv.Keys, p0, diff, q);
         kv[q + diff])
  }

  lemma SeqShiftAt(kv: Kv, p0: nat, diff: nat, q: nat)
    requires diff <= p0
    requires forall p :: p in kv ==> !(p0 - diff <= p < p0)
    ensures var was := if q < p0 - diff then q else q + diff;
            && (q in SeqShift(kv, p0, diff) <==> was in kv)
            && (was in kv ==> SeqShift(kv, p0, diff)[q] == kv[was])
  {
    LoweredAt(kv.Keys, p0, diff, q);
  }

  /** llama_decode of `batch` at position `pos`. */
  function Decode(kv: Kv, batch: seq<Token>, pos: nat): Kv
    decreases |batch|
  {
    if batch == [] then kv else Decode(kv[pos := batch[0]], batch[1..], pos + 1)
  }

  lemma {:induction false} DecodeAt(kv: Kv, batch: seq<Token>, pos: nat, p: nat)
    ensures p in Decode(kv, batch, pos) <==> p in kv || pos <= p < pos + |batch|
    ensures p in Decode(kv, batch, pos) ==>
              Decode(kv, batch, pos)[p] == if pos <= p < pos + |batch| then batch[p - pos] else kv[p]
    decreases |batch|
  {
    if batch != [] {
      DecodeAt(kv[pos := batch[0]], batch[1..], pos + 1, p);
    }
  }

  lemma {:induction false} DecodeInBatches(kv: Kv, a: seq<Token>, b: seq<Token>, pos: nat)
    ensures Decode(Decode(kv, a, pos), b, pos + |a|) == Decode(kv, a + b, pos)
    decreases |a|
  {
    if a == [] {
      assert a + b == b;
    } else {
      assert (a + b)[1..] == a[1..] + b;
      DecodeInBatches(kv[pos := a[0]], a[1..], b, pos + 1);
    }
  }

  // ---------------------------------------------------------------- common prefix

  function CommonPrefix(a: seq<Token>, b: seq<Token>): (n: nat)
    ensures n <= |a| && n <= |b|
  {
    if a == [] || b == [] || a[0] != b[0] then 0 else 1 + CommonPrefix(a[1..], b[1..])
  }

  lemma {:induction false} CommonPrefixIsLongest(a: seq<Token>, b: seq<Token>, k: nat)
    requires k <= |a| && k <= |b|
    ensures k <= CommonPrefix(a, b) <==> a[..k] == b[..k]
  {
    if k > 0 {
      FirstAndRest(a, b, k);
      if a[0] == b[0] {
        CommonPrefixIsLongest(a[1..], b[1..], k - 1);
      }
    }
  }

  lemma FirstAndRest(a: seq<Token>, b: seq<Token>, k: nat)
    requires 0 < k <= |a| && k <= |b|
    ensures a[..k] == b[..k] <==> a[0] == b[0] && a[1..][..k - 1] == b[1..][..k - 1]
  {
    assert a[..k][0] == a[0] && b[..k][0] == b[0];
    assert a[..k][1..] == a[1..][..k - 1] && b[..k][1..] == b[1..][..k - 1];
    assert a[..k] == [a[0]] + a[..k][1..] && b[..k] == [b[0]] + b[..k][1..];
  }

  /** Both scans stop once all but the last prompt token are matched; a one-token prompt is matched whole. */
  function MatchLimit(prompt: seq<Token>): nat
    requires prompt != []
  {
    if |prompt| == 1 then 1 else |prompt| - 1
  }

  function Matched(cur: seq<Token>, prompt: seq<Token>): (n: nat)
    requires prompt != []
    ensures n <= |cur| && n <= |prompt|
  {
    var n := CommonPrefix(cur, prompt);
    if n < MatchLimit(prompt) then n else MatchLimit(prompt)
  }

  lemma MatchedIsPrefix(cur: seq<Token>, prompt: seq<Token>)
    requires prompt != []
    ensures var n := Matched(cur, prompt); cur[..n] == prompt[..n]
    ensures |prompt| >= 2 ==> Matched(cur, prompt) < |prompt|
    ensures var n := Matched(cur, prompt);
            n < |cur| && n < MatchLimit(prompt) ==> cur[n] != prompt[n]
  {
    var n := Matched(cur, prompt);
    CommonPrefixIsLongest(cur, prompt, n);
    if n < |cur| && n < MatchLimit(prompt) {
      CommonPrefixIsLongest(cur, prompt, n + 1);
      assert cur[..n + 1] == cur[..n] + [cur[n]] && prompt[..n + 1] == prompt[..n] + [prompt[n]];
    }
  }

  /** The match ends where the cached tokens end, before the last prompt token (of two or more), or at a difference. */
  lemma MatchedMeaning(cur: seq<Token>, prompt: seq<Token>, k: nat)
    requires prompt != []
    ensures k <= Matched(cur, prompt) <==>
            && k <= |cur| && (k < |prompt| || k == |prompt| <= 1)
            && forall i :: 0 <= i < k ==> cur[i] == prompt[i]
  {
    if k <= |cur| && k <= |prompt| {
      CommonPrefixIsLongest(cur, prompt, k);
      SameUpTo(cur, prompt, k);
    }
  }

  lemma SameUpTo(a: seq<Token>, b: seq<Token>, k: nat)
    requires k <= |a| && k <= |b|
    ensures a[..k] == b[..k] <==> forall i :: 0 <= i < k ==> a[i] == b[i]
  {
    if a[..k] == b[..k] {
      forall i | 0 <= i < k
        ensures a[i] == b[i]
      {
        assert a[..k][i] == b[..k][i];
      }
    }
  }

  lemma MatchedAt(cur: seq<Token>, prompt: seq<Token>, p: nat)
    requires prompt != [] && p < Matched(cur, prompt)
    ensures cur[p] == prompt[p]
  {
    MatchedIsPrefix(cur, prompt);
    var n := Matched(cur, prompt);
    assert cur[..n][p] == prompt[..n][p];
  }

  /** A scan that agrees up to `n` and cannot go on has counted the match. */
  lemma MatchedWhereScanStops(cur: seq<Token>, prompt: seq<Token>, n: nat)
    requires prompt != [] && n <= |cur| && n <= MatchLimit(prompt) && cur[..n] == prompt[..n]
    requires n == |cur| || n == MatchLimit(prompt) || cur[n] != prompt[n]
    ensures Matched(cur, prompt) == n
  {
    CommonPrefixIsLongest(cur, prompt, n);
    if n < |cur| && n < MatchLimit(prompt) {
      CommonPrefixIsLongest(cur, prompt, n + 1);
      assert cur[..n + 1][n] == cur[n] && prompt[..n + 1][n] == prompt[n];
    }
  }

  // ---------------------------------------------------------------- purge

  function ShortfallThreshold(nctx: nat): nat { 200 + nctx / 30 }

  function SlackAllowance(nctx: nat): nat { 60 + nctx / 50 }

  /** How many tokens must be shared before a shift is tried; `rest` is the unmatched part of the prompt. */
  function SharedThreshold(rest: int, genamt: nat, nctx: nat): int {
    Max(Min(rest - (genamt + SlackAllowance(nctx)), nctx * 45 / 100),
        ShortfallThreshold(nctx) - SlackAllowance(nctx))
  }

  /** The threshold is never below 140, so comparing it with an unsigned length is sound. */
  lemma SharedThresholdIsPositive(rest: int, genamt: nat, nctx: nat)
    ensures SharedThreshold(rest, genamt, nctx) >= 140
  {
    assert nctx / 30 >= nctx / 50;
  }

  /** When a shared run of `len` tokens is long enough. */
  lemma SharedThresholdMeaning(len: nat, rest: int, genamt: nat, nctx: nat)
    ensures len > SharedThreshold(rest, genamt, nctx) <==>
            && len > 140 + nctx / 30 - nctx / 50
            && (len + genamt + 60 + nctx / 50 > rest || 100 * len > 45 * nctx)
  {
  }

  datatype State = State(kv: Kv, cur: seq<Token>)

  function SharedRun(cur: seq<Token>, prompt: seq<Token>): seq<Token>
    requires prompt != []
  {
    var trim := Matched(cur, prompt);
    LongestRun(cur[trim..], |cur| - trim, prompt[trim..])
  }

  /** Where the shared run starts in the cached context. */
  function SharedAt(cur: seq<Token>, prompt: seq<Token>): int
    requires prompt != []
  {
    FindFrom(cur, SharedRun(cur, prompt), 0)
  }

  predicate PurgeFires(cur: seq<Token>, prompt: seq<Token>, genamt: nat, nctx: nat)
    requires prompt != []
  {
    var trim := Matched(cur, prompt);
    var shared := SharedRun(cur, prompt);
    && trim < MatchLimit(prompt)
    && |prompt| >= 6 && |cur| >= 6
    && |prompt| - trim >= ShortfallThreshold(nctx)
    && |shared| > SharedThreshold(|prompt| - trim, genamt, nctx)
    && shared <= prompt[trim..]
    && SharedAt(cur, prompt) > trim
  }

  /** All that makes a purge fire, given the match, the shared run and where it stands first in the cached tokens. */
  lemma PurgeFiresMeaning(cur: seq<Token>, prompt: seq<Token>, genamt: nat, nctx: nat)
    requires prompt != []
    ensures var trim, run := Matched(cur, prompt), SharedRun(cur, prompt);
            var rest := |prompt| - trim;
            PurgeFires(cur, prompt, genamt, nctx) <==>
            && |cur| >= 6 && |prompt| >= 6 && rest >= 200 + nctx / 30
            && |run| > 140 + nctx / 30 - nctx / 50
            && (|run| + genamt + 60 + nctx / 50 > rest || 100 * |run| > 45 * nctx)
            && run <= prompt[trim..]
            && (exists k :: trim < k && OccursAt(cur, run, k))
            && !exists k :: k <= trim && OccursAt(cur, run, k)
  {
    var trim, run := Matched(cur, prompt), SharedRun(cur, prompt);
    SharedThresholdMeaning(|run|, |prompt| - trim, genamt, nctx);
    if run != [] {
      FoundAfter(cur, run, trim);
    }
  }

  lemma FoundAfter(cur: seq<Token>, run: seq<Token>, trim: nat)
    requires run != []
    ensures FindFrom(cur, run, 0) > trim <==>
            (exists k :: trim < k && OccursAt(cur, run, k)) && !exists k :: k <= trim && OccursAt(cur, run, k)
  {
    var f := FindFrom(cur, run, 0);
    forall k | OccursAt(cur, run, k)
      ensures 0 <= f <= k
    {
      FindFromIsFirst(cur, run, 0, k);
    }
    FindFromIsFirst(cur, run, 0, 0);
  }

  /** `found - trim` tokens are cut out at `trim`; the last slot keeps what stood there before the shift. */
  function CutTokens(cur: seq<Token>, trim: nat, found: nat): (r: seq<Token>)
    requires trim < found < |cur|
    ensures |r| == |cur| - (found - trim)
  {
    cur[..trim] + cur[found..|cur| - 1] + [cur[|cur| - 1 - (found - trim)]]
  }

  /** The tokens from `trim` to `to` are those `diff` further on, the others what they were. */
  ghost predicate Moved(now: seq<Token>, was: seq<Token>, trim: nat, diff: nat, to: nat) {
    && trim <= to && to + diff <= |was| == |now|
    && (forall k {:trigger now[k]} :: trim <= k < to ==> now[k] == was[k + diff])
    && forall k {:trigger now[k]} :: 0 <= k < trim || to <= k < |was| ==> now[k] == was[k]
  }

  lemma MovedNext(now: seq<Token>, was: seq<Token>, trim: nat, diff: nat, to: nat)
    requires Moved(now, was, trim, diff, to) && to + diff < |was| && diff > 0
    ensures Moved(now[to := now[to + diff]], was, trim, diff, to + 1)
  {
  }

  lemma IsCut(now: seq<Token>, cur: seq<Token>, trim: nat, found: nat)
    requires trim < found < |cur| && Moved(now, cur, trim, found - trim, |cur| - 1 - (found - trim))
    ensures now[..|cur| - (found - trim)] == CutTokens(cur, trim, found)
  {
    var cut := CutTokens(cur, trim, found);
    forall k | 0 <= k < |cut|
      ensures now[k] == cut[k]
    {
      if trim <= k < |cut| - 1 {
        assert cut[k] == cur[found..|cur| - 1][k - trim] == cur[k + (found - trim)];
      }
    }
  }

  function CutKv(kv: Kv, trim: nat, found: nat): Kv
    requires trim <= found
  {
    SeqShift(SeqRm(kv, trim, found), found, found - trim)
  }

  function Cut(s: State, trim: nat, found: nat): State
    requires trim < found < |s.cur|
  {
    State(CutKv(s.kv, trim, found), CutTokens(s.cur, trim, found))
  }

  function Purge(s: State, prompt: seq<Token>, genamt: nat, nctx: nat): State
    requires prompt != []
  {
    if PurgeFires(s.cur, prompt, genamt, nctx) then
      SharedIsLong(s.cur, prompt, genamt, nctx);
      Cut(s, Matched(s.cur, prompt), SharedAt(s.cur, prompt))
    else s
  }

  lemma SharedIsLong(cur: seq<Token>, prompt: seq<Token>, genamt: nat, nctx: nat)
    requires prompt != [] && PurgeFires(cur, prompt, genamt, nctx)
    ensures |SharedRun(cur, prompt)| > 140
    ensures Matched(cur, prompt) < SharedAt(cur, prompt) < |cur|
  {
    SharedThresholdIsPositive(|prompt| - Matched(cur, prompt), genamt, nctx);
  }

  // ---------------------------------------------------------------- one request

  /** What sampling yields: a token, and whether it ends the generation (end token, stop token or stop string). */
  datatype Sample = Sample(id: Token, stop: bool)

  datatype Request = Request(
    prompt: seq<Token>,
    blank: bool,            // neither prompt nor memory text: the cache is not reused
    nPredict: nat,
    nctx: nat,
    nBatch: int,
    repeatLastN: int,
    tape: seq<Sample>)      // the outcomes of sampling, in order
  {
    predicate Admissible() {
      (!blank ==> prompt != []) && |tape| >= nPredict
    }

    /** The cache after the purge, as fast-forward sees it. */
    function Purged(s: State): State
      requires Admissible()
    {
      if blank then s else Purge(s, prompt, nPredict, nctx)
    }

    /** The number of prompt tokens taken over from the cache. */
    function Reused(s: State): (n: nat)
      requires Admissible()
      ensures n <= |Purged(s).cur| && n <= |prompt|
    {
      if blank then 0 else Matched(Purged(s).cur, prompt)
    }

    function Output(): seq<Token>
      requires Admissible()
    {
      Sampled(tape, nPredict)
    }

    /** The cache after the request, given what is left in it at the start. */
    function Finish(kv: Kv, n: nat): State
      requires Admissible() && n <= |prompt|
    {
      if nPredict == 0 then State(kv, prompt[..n])
      else
        var full := prompt + Output();
        SampledLength(tape, nPredict);
        State(Decode(kv, full[n..|full| - 1], n), full)
    }

    function Step(s: State): State
      requires Admissible()
    {
      Finish(SeqRm(Purged(s).kv, Reused(s), -1), Reused(s))
    }
  }

  /** What a request makes of the cache `kv`, at position `p`. */
  lemma FinishAt(r: Request, kv: Kv, n: nat, p: nat)
    requires r.Admissible() && n <= |r.prompt|
    ensures var t := r.Finish(kv, n);
            && t.cur[..n] == r.prompt[..n]
            && (p in t.kv <==> p in kv || (r.nPredict > 0 && n <= p < |t.cur| - 1))
            && (p in t.kv ==> t.kv[p] == if r.nPredict > 0 && n <= p < |t.cur| - 1 then t.cur[p] else kv[p])
  {
    if r.nPredict > 0 {
      var full := r.prompt + r.Output();
      SampledLength(r.tape, r.nPredict);
      DecodeAt(kv, full[n..|full| - 1], n, p);
    }
  }

  /** The tokens sampled with a budget of `n`. */
  function Sampled(tape: seq<Sample>, n: nat): seq<Token>
    requires n <= |tape|
  {
    if n == 0 then []
    else if tape[0].stop then [tape[0].id]
    else [tape[0].id] + Sampled(tape[1..], n - 1)
  }

  lemma {:induction false} SampledLength(tape: seq<Sample>, n: nat)
    requires n <= |tape|
    ensures |Sampled(tape, n)| <= n
    ensures n > 0 ==> Sampled(tape, n) != []
  {
    if n > 0 && !tape[0].stop {
      SampledLength(tape[1..], n - 1);
    }
  }

  /** One more sample: it is the next token of the output, and what is left yields the rest. */
  lemma SampledNext(tape: seq<Sample>, n: nat, t: nat, budget: nat)
    requires n <= |tape| && 0 < budget <= |tape| - t && t <= |Sampled(tape, n)|
    requires Sampled(tape[t..], budget) == Sampled(tape, n)[t..]
    ensures var left := if tape[t].stop then 0 else budget - 1;
            && t < |Sampled(tape, n)| && Sampled(tape, n)[t] == tape[t].id
            && Sampled(tape[t + 1..], left) == Sampled(tape, n)[t + 1..]
  {
    var rest := Sampled(tape, n)[t..];
    assert tape[t..][1..] == tape[t + 1..];
    assert rest[0] == tape[t].id && rest[1..] == Sampled(tape, n)[t + 1..];
  }

  /** The last `len` entries of `len` zeros followed by `cur`. */
  function Recent(len: nat, cur: seq<Token>): seq<Token> {
    (seq(len, _ => 0) + cur)[|cur|..]
  }

  lemma RecentMeaning(len: nat, cur: seq<Token>, i: nat)
    requires i < len
    ensures |Recent(len, cur)| == len
    ensures Recent(len, cur)[i] == if |cur| + i >= len then cur[|cur| + i - len] else 0
  {
  }

  lemma RecentPush(len: nat, cur: seq<Token>, id: Token)
    requires len > 0
    ensures Recent(len, cur) != [] && Recent(len, cur + [id]) == Recent(len, cur)[1..] + [id]
  {
    assert seq(len, _ => 0) + (cur + [id]) == seq(len, _ => 0) + cur + [id];
  }

  lemma OutputFromStart(r: Request, n: nat)
    requires r.Admissible() && n <= |r.prompt|
    ensures (r.prompt + r.Output())[..n] == r.prompt[..n]
    ensures Sampled(r.tape[0..], r.nPredict) == r.Output()[0..]
  {
    assert r.tape[0..] == r.tape;
  }

  lemma RecentStart(len: nat, cur: seq<Token>, n: nat)
    requires n <= |cur|
    ensures (seq(len, _ => 0) + cur[..n])[n..] == Recent(len, cur[..n])
  {
  }

  // ---------------------------------------------------------------- the program

  class Session {
    var kv: Kv
    var cur: seq<Token>        // current_context_tokens
    var lastN: seq<Token>      // last_n_tokens
    var nPast: nat
    var embdInp: seq<Token>    // what is left of the prompt
    var remaining: int         // remaining_tokens
    var stopperUnused: int     // stopper_unused_tokens
    var lastTokenCount: int    // last_token_count

    ghost function Cache(): State
      reads this
    {
      State(kv, cur)
    }

    constructor ()
      ensures Cache() == State(map[], [])
    {
      kv, cur, lastN, nPast, embdInp := map[], [], [], 0, [];
      remaining, stopperUnused, lastTokenCount := 0, 0, 0;
    }

    method PurgeMissingTokens(prompt: seq<Token>, genamt: nat, nctx: nat)
      requires prompt != []
      modifies this`kv, this`cur
      ensures Cache() == Purge(old(Cache()), prompt, genamt, nctx)
    {
      var trim, needed := ScanMatch(prompt);
      if !needed || |prompt| < 6 || |cur| < 6 || |prompt| - trim < ShortfallThreshold(nctx) {
        return;
      }
      var found := FindShared(prompt, trim, SharedThreshold(|prompt| - trim, genamt, nctx));
      if found > trim {
        SharedIsLong(cur, prompt, genamt, nctx);
        CutOut(trim, found);
      }
    }

    /** Takes positions `trim .. found` out of the KV cache and out of the tokens. */
    method CutOut(trim: nat, found: nat)
      requires trim < found < |cur|
      modifies this`kv, this`cur
      ensures kv == CutKv(old(kv), trim, found)
      ensures cur == CutTokens(old(cur), trim, found)
    {
      kv := SeqRm(kv, trim, found);
      kv := SeqShift(kv, found, found - trim);
      CutTokensInPlace(trim, found);
    }

    /** Counts the tokens matched from the start; no surgery is needed once all but the last are. */
    method ScanMatch(prompt: seq<Token>) returns (trim: nat, needed: bool)
      requires prompt != []
      ensures trim == Matched(cur, prompt)
      ensures needed <==> trim < MatchLimit(prompt)
    {
      trim, needed := 0, true;
      var i := 0;
      while i < |cur|
        invariant trim == i <= |cur| && i < MatchLimit(prompt) && needed
        invariant cur[..i] == prompt[..i]
      {
        if cur[i] != prompt[i] {
          break;
        }
        trim := trim + 1;
        if i + 2 >= |prompt| {
          needed := false;
          break;
        }
        i := i + 1;
      }
      MatchedWhereScanStops(cur, prompt, trim);
    }

    /** Where the run shared with the rest of the prompt starts; -1 if it is too short or not at its start. */
    method FindShared(prompt: seq<Token>, trim: nat, threshold: int) returns (found: int)
      requires prompt != [] && trim == Matched(cur, prompt)
      ensures var shared := SharedRun(cur, prompt);
              found == if |shared| > threshold && shared <= prompt[trim..] then SharedAt(cur, prompt) else -1
    {
      var shared := LongestCommonSubseq(cur[trim..], prompt[trim..]);
      var starts := ArrStartWith(prompt[trim..], shared);
      if |shared| > threshold && starts {
        found := ArrFindIndexOf(cur, shared);
      } else {
        found := -1;
      }
    }

    /** Shifts the tokens after `trim .. found` down, all but the last, and shortens the vector. */
    method CutTokensInPlace(trim: nat, found: nat)
      requires trim < found < |cur|
      modifies this`cur
      ensures cur == CutTokens(old(cur), trim, found)
    {
      var diff := found - trim;
      ghost var was := cur;
      var i := trim + diff;
      while i < |cur| - 1
        invariant found <= i <= |was| - 1 && |cur| == |was|
        invariant Moved(cur, was, trim, diff, i - diff)
      {
        MovedNext(cur, was, trim, diff, i - diff);
        cur := cur[i - diff := cur[i]];
        i := i + 1;
      }
      IsCut(cur, was, trim, found);
      cur := cur[..|cur| - diff];
    }

    method ContextFastForward()
      requires nPast == 0 && embdInp != []
      modifies this`nPast, this`lastN, this`embdInp
      ensures nPast == Matched(cur, old(embdInp))
      ensures embdInp == old(embdInp)[nPast..]
      ensures lastN == (old(lastN) + cur[..nPast])[nPast..]
    {
      var len := |embdInp|;
      var i := 0;
      while i < |cur|
        invariant embdInp == old(embdInp)
        invariant nPast == i <= |cur| && i < MatchLimit(embdInp)
        invariant lastN == old(lastN) + cur[..i]
        invariant cur[..i] == embdInp[..i]
      {
        if cur[i] != embdInp[i] {
          break;
        }
        nPast := nPast + 1;
        lastN := lastN + [cur[i]];
        if i + 2 >= len {
          break;
        }
        i := i + 1;
      }
      MatchedWhereScanStops(cur, embdInp, nPast);
      lastN := lastN[nPast..];
      embdInp := embdInp[nPast..];
    }

    /** gpttype_generate from the assembled prompt on. */
    method Generate(r: Request)
      requires r.Admissible()
      modifies this
      ensures Cache() == r.Step(old(Cache()))
      ensures nPast + (if r.nPredict == 0 then 0 else 1) == |cur|
      ensures lastN == Recent(Max(r.repeatLastN, 1), cur)
      ensures lastTokenCount == |r.Output()|
    {
      Prepare(r);
      MainLoop(r);
      lastTokenCount := r.nPredict - stopperUnused;
    }

    /** Works out what the cache already holds of the prompt and forgets the rest of it. */
    method Prepare(r: Request)
      requires r.Admissible()
      modifies this
      ensures nPast == r.Reused(old(Cache())) && kv == SeqRm(r.Purged(old(Cache())).kv, nPast, -1)
      ensures cur == r.prompt[..nPast] && InStep(r, nPast, 0, 0)
    {
      var lastSize := Max(r.repeatLastN, 1);
      lastN := seq(lastSize, _ => 0);
      nPast, embdInp := 0, r.prompt;
      Reuse(r);
      RecentStart(lastSize, cur, nPast);
      OutputFromStart(r, nPast);
      kv := SeqRm(kv, nPast, -1);
      cur := cur[..nPast];
      remaining, stopperUnused := r.nPredict, 0;
    }

    /** Purges and fast-forwards, unless the prompt is blank. */
    method Reuse(r: Request)
      requires r.Admissible() && nPast == 0 && embdInp == r.prompt
      modifies this`kv, this`cur, this`nPast, this`lastN, this`embdInp
      ensures Cache() == r.Purged(old(Cache())) && nPast == r.Reused(old(Cache()))
      ensures cur[..nPast] == r.prompt[..nPast] && embdInp == r.prompt[nPast..]
      ensures lastN == (old(lastN) + cur[..nPast])[nPast..]
    {
      if !r.blank {
        PurgeMissingTokens(r.prompt, r.nPredict, r.nctx);
        ContextFastForward();
        MatchedIsPrefix(cur, r.prompt);
      }
    }

    /**
     The bookkeeping between two loop iterations: `consumed` prompt tokens fed after the first `n`, and
     `t` tokens sampled after the whole prompt.
     */
    ghost predicate InStep(r: Request, n: nat, consumed: nat, t: nat)
      requires r.Admissible()
      reads this`cur, this`lastN, this`embdInp, this`remaining, this`stopperUnused
    {
      var full := r.prompt + r.Output();
      && n <= |r.prompt| && embdInp == r.prompt[n..]
      && consumed <= |embdInp| && t <= |r.Output()| && (t > 0 ==> consumed == |embdInp|)
      && |cur| == n + consumed + t && cur == full[..|cur|]
      && lastN == Recent(Max(r.repeatLastN, 1), cur)
      && 0 <= remaining <= |r.tape| - t && Sampled(r.tape[t..], remaining) == r.Output()[t..]
      && (t == 0 ==> remaining == r.nPredict)
      && (if remaining > 0 then stopperUnused == 0 && t + remaining == r.nPredict else r.nPredict - stopperUnused == t)
    }

    /** Feeds what is left of the prompt in batches, then samples until the budget or a stop ends it. */
    method MainLoop(r: Request)
      requires r.Admissible() && InStep(r, nPast, 0, 0) && nPast == |cur|
      modifies this`kv, this`cur, this`lastN, this`nPast, this`remaining, this`stopperUnused
      ensures Cache() == r.Finish(old(kv), old(nPast))
      ensures nPast + (if r.nPredict == 0 then 0 else 1) == |cur|
      ensures lastN == Recent(Max(r.repeatLastN, 1), cur)
      ensures r.nPredict - stopperUnused == |r.Output()|
    {
      var embd: seq<Token> := [];
      var consumed, t := 0, 0;
      ghost var n := nPast;
      ghost var full := r.prompt + r.Output();
      SampledLength(r.tape, r.nPredict);
      while remaining > 0
        invariant InStep(r, n, consumed, t)
        invariant n <= nPast && nPast + |embd| == |cur| && embd == full[nPast..|cur|]
        invariant kv == Decode(old(kv), full[n..nPast], n)
        invariant t > 0 ==> |embd| == 1
        invariant r.nPredict == 0 ==> consumed == 0 && embd == []
        decreases remaining + |embdInp| - consumed
      {
        Evaluate(embd, full, n, old(kv));
        embd, consumed, t := Advance(r, n, consumed, t);
      }
    }

    /** One iteration after the evaluation: feeds a batch while prompt is left, samples one token otherwise. */
    method Advance(r: Request, ghost n: nat, from: nat, at: nat)
      returns (embd: seq<Token>, consumed: nat, t: nat)
      requires r.Admissible() && InStep(r, n, from, at) && remaining > 0
      modifies this`cur, this`lastN, this`remaining, this`stopperUnused
      ensures InStep(r, n, consumed, t)
      ensures |cur| == |old(cur)| + |embd| && embd == (r.prompt + r.Output())[|old(cur)|..|cur|]
      ensures t > 0 ==> |embd| == 1
      ensures remaining - consumed < old(remaining) - from
    {
      consumed, t := from, at;
      if |embdInp| <= consumed {
        SampledNext(r.tape, r.nPredict, t, remaining);
        embd := SampleNext(r.tape[t], Max(r.repeatLastN, 1));
        t := t + 1;
      } else {
        embd, consumed := FeedBatch(consumed, r.nBatch, Max(r.repeatLastN, 1), r.prompt + r.Output());
      }
    }

    /** Evaluates the pending batch at the end of what was evaluated of `full` from `n` on. */
    method Evaluate(embd: seq<Token>, ghost full: seq<Token>, ghost n: nat, ghost start: Kv)
      requires n <= nPast && nPast + |embd| == |cur| <= |full| && embd == full[nPast..|cur|]
      requires kv == Decode(start, full[n..nPast], n)
      modifies this`kv, this`nPast
      ensures nPast == |cur| && kv == Decode(start, full[n..nPast], n)
    {
      if |embd| > 0 {
        kv := Decode(kv, embd, nPast);
      }
      DecodeInBatches(start, full[n..nPast], embd, n);
      assert full[n..nPast] + embd == full[n..|cur|];
      nPast := nPast + |embd|;
    }

    method SampleNext(sample: Sample, lastSize: nat) returns (embd: seq<Token>)
      requires remaining > 0 && lastSize > 0 && lastN == Recent(lastSize, cur)
      modifies this`cur, this`lastN, this`remaining, this`stopperUnused
      ensures embd == [sample.id] && cur == old(cur) + embd && lastN == Recent(lastSize, cur)
      ensures remaining == if sample.stop then 0 else old(remaining) - 1
      ensures stopperUnused == if sample.stop then old(remaining) - 1 else old(stopperUnused)
    {
      Push(sample.id, lastSize);
      embd := [sample.id];
      remaining := remaining - 1;
      if sample.stop {
        stopperUnused := remaining;
        remaining := 0;
      }
    }

    method Push(id: Token, lastSize: nat)
      requires lastSize > 0 && lastN == Recent(lastSize, cur)
      modifies this`cur, this`lastN
      ensures cur == old(cur) + [id] && lastN == Recent(lastSize, cur)
    {
      RecentPush(lastSize, cur, id);
      lastN := lastN[1..] + [id];
      cur := cur + [id];
    }

    /** Moves tokens of `full` into a batch until it is full or the prompt is used up; always at least one. */
    method FeedBatch(from: nat, nBatch: int, lastSize: nat, ghost full: seq<Token>)
      returns (embd: seq<Token>, consumed: nat)
      requires from < |embdInp| && from <= |cur| && |cur| - from + |embdInp| <= |full|
      requires cur == full[..|cur|]
      requires forall k :: 0 <= k < |embdInp| ==> embdInp[k] == full[|cur| - from + k]
      requires lastSize > 0 && lastN == Recent(lastSize, cur)
      modifies this`cur, this`lastN
      ensures from < consumed <= |embdInp| && |cur| == |old(cur)| + consumed - from
      ensures |embd| == if nBatch < 1 then 1 else Min(nBatch, |embdInp| - from)
      ensures cur == full[..|cur|] && embd == full[|old(cur)|..|cur|]
      ensures lastN == Recent(lastSize, cur)
    {
      embd, consumed := [], from;
      while |embdInp| > consumed
        invariant from <= consumed <= |embdInp| && |cur| == |old(cur)| + consumed - from
        invariant |embd| == consumed - from && (|embd| < nBatch || |embd| == 0)
        invariant cur == full[..|cur|] && embd == full[|old(cur)|..|cur|]
        invariant lastN == Recent(lastSize, cur)
      {
        var token := embdInp[consumed];
        embd := embd + [token];
        Push(token, lastSize);
        consumed := consumed + 1;
        if |embd| >= nBatch {
          break;
        }
      }
    }
  }
}
