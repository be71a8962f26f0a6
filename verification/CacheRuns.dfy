/** What the prompt cache holds over any sequence of requests. */
module CacheRuns {
  import opened TokenSearch
  import opened PromptCache

  /** No position holds a token other than the one the program believes is there. */
  ghost predicate Agrees(s: State) {
    forall p :: p in s.kv ==> p < |s.cur| && s.kv[p] == s.cur[p]
  }

  /** The cache agrees and its last token is still to be evaluated. */
  ghost predicate Clean(s: State) {
    Agrees(s) && |s.cur| - 1 !in s.kv
  }

  /** Clean, and every token but the last was evaluated: the cache is exactly `cur[..|cur| - 1]`. */
  ghost predicate Complete(s: State) {
    Clean(s) && forall p: nat :: p < |s.cur| - 1 ==> p in s.kv
  }

  // ---------------------------------------------------------------- the purge

  /** Position by position: what a cut leaves in the cache and in the tokens. */
  lemma CutAt(kv: Kv, cur: seq<Token>, trim: nat, found: nat, p: nat)
    requires trim < found < |cur|
    ensures var was := if p < trim then p else p + (found - trim);
            && (p in CutKv(kv, trim, found) <==> was in kv)
            && (was in kv ==> CutKv(kv, trim, found)[p] == kv[was])
            && (was < |cur| - 1 ==> CutTokens(cur, trim, found)[p] == cur[was])
            && (was == |cur| - 1 ==> CutTokens(cur, trim, found)[p] == cur[p])
  {
    SeqShiftAt(SeqRm(kv, trim, found), found, found - trim, p);
  }

  /** A cut keeps the cache and the tokens aligned on all but the last token, whatever the cache lacks. */
  lemma CutKeepsAlignment(s: State, trim: nat, found: nat, p: nat)
    requires trim < found < |s.cur| && Agrees(s)
    ensures var t := Cut(s, trim, found);
            && (p in t.kv ==> p < |t.cur| && (p < |t.cur| - 1 ==> t.kv[p] == t.cur[p]))
            && (Clean(s) ==> (p in t.kv ==> p < |t.cur| - 1))
            && (Complete(s) ==> (p < |t.cur| - 1 ==> p in t.kv))
  {
    CutAt(s.kv, s.cur, trim, found, p);
  }

  lemma PurgeKeepsAlignment(s: State, prompt: seq<Token>, genamt: nat, nctx: nat, p: nat)
    requires prompt != [] && Agrees(s)
    ensures var t := Purge(s, prompt, genamt, nctx);
            && |t.cur| <= |s.cur|
            && (p in t.kv ==> p < |t.cur| && (p < |t.cur| - 1 ==> t.kv[p] == t.cur[p]))
            && (Clean(s) ==> (p in t.kv ==> p < |t.cur| - 1))
            && (Complete(s) ==> (p < |t.cur| - 1 ==> p in t.kv))
  {
    if PurgeFires(s.cur, prompt, genamt, nctx) {
      SharedIsLong(s.cur, prompt, genamt, nctx);
      CutKeepsAlignment(s, Matched(s.cur, prompt), SharedAt(s.cur, prompt), p);
    }
  }

  /** After a cut the tokens agree with a prompt that goes on with the run found: all of it but its last token. */
  lemma CutMatches(cur: seq<Token>, prompt: seq<Token>, trim: nat, found: nat, shared: seq<Token>)
    requires trim < found && shared != [] && OccursAt(cur, shared, found)
    requires trim <= |prompt| && cur[..trim] == prompt[..trim] && shared <= prompt[trim..]
    ensures CommonPrefix(CutTokens(cur, trim, found), prompt) >= trim + |shared| - 1
  {
    forall i: nat | i < trim + |shared| - 1
      ensures CutTokens(cur, trim, found)[i] == prompt[i]
    {
      if i < trim {
        assert cur[..trim][i] == prompt[..trim][i];
      } else {
        assert cur[found..found + |shared|][i - trim] == prompt[trim..][i - trim];
      }
    }
    AgreeUpTo(CutTokens(cur, trim, found), prompt, trim + |shared| - 1);
  }

  lemma AgreeUpTo(a: seq<Token>, b: seq<Token>, n: nat)
    requires n <= |a| && n <= |b| && forall i :: 0 <= i < n ==> a[i] == b[i]
    ensures CommonPrefix(a, b) >= n
  {
    assert a[..n] == b[..n];
    CommonPrefixIsLongest(a, b, n);
  }

  /** When a purge fires, the match grows from `trim` to at least `trim + |shared| - 1`: by 140 tokens or more. */
  lemma PurgeExtendsMatch(s: State, prompt: seq<Token>, genamt: nat, nctx: nat)
    requires prompt != [] && PurgeFires(s.cur, prompt, genamt, nctx)
    ensures Matched(Purge(s, prompt, genamt, nctx).cur, prompt)
            >= Matched(s.cur, prompt) + |SharedRun(s.cur, prompt)| - 1
            >= Matched(s.cur, prompt) + 140
  {
    var trim, found, shared := Matched(s.cur, prompt), SharedAt(s.cur, prompt), SharedRun(s.cur, prompt);
    SharedIsLong(s.cur, prompt, genamt, nctx);
    MatchedIsPrefix(s.cur, prompt);
    FindFromIsFirst(s.cur, shared, 0, 0);
    CutMatches(s.cur, prompt, trim, found, shared);
  }

  // ---------------------------------------------------------------- one request

  /** What is left in the cache before the first evaluation, at position `p`: prompt tokens, below `Reused`. */
  lemma StartOfRequest(s: State, r: Request, p: nat)
    requires r.Admissible() && Clean(s)
    ensures var n, kv := r.Reused(s), SeqRm(r.Purged(s).kv, r.Reused(s), -1);
            && (p in kv <==> p in r.Purged(s).kv && p < n)
            && (p in kv ==> p < |r.Purged(s).cur| - 1 && kv[p] == r.prompt[p])
            && (Complete(s) ==> (p in kv <==> p < n && p < |r.Purged(s).cur| - 1))
  {
    if !r.blank {
      PurgeKeepsAlignment(s, r.prompt, r.nPredict, r.nctx, p);
      if p < r.Reused(s) {
        MatchedAt(r.Purged(s).cur, r.prompt, p);
      }
    }
  }

  /** A prompt of two tokens or more always leaves one to evaluate. */
  lemma SomethingToEvaluate(s: State, r: Request)
    requires r.Admissible() && |r.prompt| >= 2
    ensures r.prompt[r.Reused(s)..] != []
  {
    if !r.blank {
      MatchedIsPrefix(r.Purged(s).cur, r.prompt);
    }
  }

  /** The cached tokens do not exceed the context size after a request ... */
  lemma ContextFits(s: State, r: Request)
    requires r.Admissible() && |r.prompt| + r.nPredict <= r.nctx
    ensures |r.Step(s).cur| <= r.nctx
  {
    SampledLength(r.tape, r.nPredict);
  }

  /** ... nor between any two iterations of its loop. */
  lemma LoopFits(session: Session, r: Request, n: nat, consumed: nat, t: nat)
    requires r.Admissible() && |r.prompt| + r.nPredict <= r.nctx
    requires session.InStep(r, n, consumed, t)
    ensures |session.cur| <= r.nctx
  {
    SampledLength(r.tape, r.nPredict);
  }

  /** After a request the cache agrees with the tokens, and it lacks a token exactly where it did before. */
  lemma StepAt(s: State, r: Request, p: nat)
    requires r.Admissible() && r.nPredict > 0 && Clean(s)
    ensures var t := r.Step(s);
            && (p in t.kv <==> p < |t.cur| - 1 && (p < r.Reused(s) ==> p in r.Purged(s).kv))
            && (p in t.kv ==> t.kv[p] == t.cur[p])
  {
    var n := r.Reused(s);
    StartOfRequest(s, r, p);
    FinishAt(r, SeqRm(r.Purged(s).kv, n, -1), n, p);
    SampledLength(r.tape, r.nPredict);
    if p < n {
      assert r.Step(s).cur[p] == r.prompt[p];
    }
  }

  lemma StepIsClean(s: State, r: Request)
    requires r.Admissible() && r.nPredict > 0 && Clean(s)
    ensures Clean(r.Step(s))
  {
    forall p | p in r.Step(s).kv
      ensures p < |r.Step(s).cur| - 1 && r.Step(s).kv[p] == r.Step(s).cur[p]
    {
      StepAt(s, r, p);
    }
  }

  /** The request leaves at least the last cached token unmatched. */
  predicate LeavesLast(s: State, r: Request)
    requires r.Admissible()
  {
    r.Purged(s).cur == [] || r.Reused(s) < |r.Purged(s).cur|
  }

  /**
   A complete cache stays complete if and only if the request does not match the whole cached context: the last
   cached token was never evaluated, so matching it too skips its evaluation.
   */
  lemma StepIsComplete(s: State, r: Request)
    requires r.Admissible() && r.nPredict > 0 && Complete(s)
    ensures Complete(r.Step(s)) <==> LeavesLast(s, r)
  {
    StepIsClean(s, r);
    SampledLength(r.tape, r.nPredict);
    var n, last := r.Reused(s), |r.Purged(s).cur| - 1;
    if last >= 0 && n == last + 1 {
      StepAt(s, r, last);
      StartOfRequest(s, r, last);
      assert last !in r.Step(s).kv && last < |r.Step(s).cur| - 1;
    } else {
      forall p: nat | p < |r.Step(s).cur| - 1 ensures p in r.Step(s).kv {
        StepAt(s, r, p);
        StartOfRequest(s, r, p);
      }
    }
  }

  /**
   The failing family: a prompt that continues the whole cached context, last sampled token included, leaves a
   position behind that is never evaluated.
   */
  lemma ContinuationLeavesHole(s: State, r: Request, more: seq<Token>)
    requires r.Admissible() && r.nPredict > 0 && Complete(s)
    requires s.cur != [] && more != [] && !r.blank && r.prompt == s.cur + more
    ensures !Complete(r.Step(s))
    ensures |s.cur| - 1 !in r.Step(s).kv && |r.Step(s).cur| > |s.cur|
  {
    var len := |s.cur|;
    CommonPrefixIsLongest(s.cur, r.prompt, len);
    assert Matched(s.cur, r.prompt) == len;
    if PurgeFires(s.cur, r.prompt, r.nPredict, r.nctx) {
      SharedIsLong(s.cur, r.prompt, r.nPredict, r.nctx);
      assert false;
    }
    StepIsComplete(s, r);
    SampledLength(r.tape, r.nPredict);
    StepAt(s, r, len - 1);
    StartOfRequest(s, r, len - 1);
  }

  /** All of the purged cache `t` is reused, and its last slot holds another token than is believed. */
  predicate LastIsStale(s: State, t: State, n: nat) {
    && s.cur != [] && |s.cur| - 1 in s.kv
    && n == |t.cur| > 0
    && t.cur[|t.cur| - 1] != s.cur[|s.cur| - 1]
  }

  /** With requests that sample nothing too: a wrong token is served exactly when a purge left a stale last slot. */
  predicate ServesStale(s: State, r: Request)
    requires r.Admissible()
  {
    && !r.blank && PurgeFires(s.cur, r.prompt, r.nPredict, r.nctx)
    && LastIsStale(s, r.Purged(s), r.Reused(s))
  }

  /** The last slot after a cut: the evaluated token moves there, the stale one is believed there. */
  lemma LastSlotAfterCut(s: State, trim: nat, found: nat)
    requires trim < found < |s.cur|
    ensures var t := Cut(s, trim, found);
            && t.cur != []
            && (|t.cur| - 1 in t.kv <==> |s.cur| - 1 in s.kv)
            && (|s.cur| - 1 in s.kv ==> t.kv[|t.cur| - 1] == s.kv[|s.cur| - 1])
  {
    CutAt(s.kv, s.cur, trim, found, |s.cur| - 1 - (found - trim));
  }

  lemma LastSlotAfterPurge(s: State, r: Request)
    requires r.Admissible() && !r.blank && Agrees(s) && PurgeFires(s.cur, r.prompt, r.nPredict, r.nctx)
    ensures var t := r.Purged(s);
            && t.cur != []
            && (|t.cur| - 1 in t.kv <==> |s.cur| - 1 in s.kv)
            && (|s.cur| - 1 in s.kv ==> t.kv[|t.cur| - 1] == s.cur[|s.cur| - 1])
  {
    SharedIsLong(s.cur, r.prompt, r.nPredict, r.nctx);
    LastSlotAfterCut(s, Matched(s.cur, r.prompt), SharedAt(s.cur, r.prompt));
  }

  /** How a kept position `p` of the purged cache `t` fares. */
  lemma KeptAt(s: State, t: State, prompt: seq<Token>, n: nat, p: nat, fires: bool)
    requires p in t.kv && p < n <= |t.cur| && n <= |prompt| && t.cur[p] == prompt[p] && s.cur != []
    requires fires && p == |t.cur| - 1 ==> |s.cur| - 1 in s.kv
    requires t.kv[p] == if fires && p == |t.cur| - 1 then s.cur[|s.cur| - 1] else t.cur[p]
    ensures t.kv[p] == prompt[p] <==> !(fires && LastIsStale(s, t, n)) || p != n - 1
  {
  }

  /** A position kept from the purged cache holds a matched token. */
  lemma KeptIsMatched(s: State, r: Request, p: nat)
    requires r.Admissible() && p in SeqRm(r.Purged(s).kv, r.Reused(s), -1)
    ensures !r.blank && p < r.Reused(s) && p in r.Purged(s).kv && r.Purged(s).cur[p] == r.prompt[p]
  {
    MatchedAt(r.Purged(s).cur, r.prompt, p);
  }

  /** What a position of the purged cache holds. */
  lemma PurgedAt(s: State, r: Request, p: nat)
    requires r.Admissible() && !r.blank && Agrees(s) && p in r.Purged(s).kv
    ensures var t, fires := r.Purged(s), PurgeFires(s.cur, r.prompt, r.nPredict, r.nctx);
            && p < |t.cur| && s.cur != []
            && t.kv[p] == (if fires && p == |t.cur| - 1 then s.cur[|s.cur| - 1] else t.cur[p])
            && (fires && p == |t.cur| - 1 ==> |s.cur| - 1 in s.kv)
  {
    PurgeKeepsAlignment(s, r.prompt, r.nPredict, r.nctx, p);
    if PurgeFires(s.cur, r.prompt, r.nPredict, r.nctx) {
      LastSlotAfterPurge(s, r);
    }
  }

  /** One position before the first evaluation: it holds its prompt token unless the request serves a stale one. */
  lemma AnyStartAt(s: State, r: Request, p: nat)
    requires r.Admissible() && Agrees(s) && p < r.Reused(s) && p in r.Purged(s).kv
    ensures r.Purged(s).kv[p] == r.prompt[p] <==> !ServesStale(s, r) || p != r.Reused(s) - 1
  {
    var fires := PurgeFires(s.cur, r.prompt, r.nPredict, r.nctx);
    MatchedAt(r.Purged(s).cur, r.prompt, p);
    PurgedAt(s, r, p);
    KeptAt(s, r.Purged(s), r.prompt, r.Reused(s), p, fires);
  }

  /** The same after the request, sampling or not. */
  lemma AnyStepAt(s: State, r: Request, p: nat)
    requires r.Admissible() && Agrees(s)
    ensures var n, t := r.Reused(s), r.Step(s);
            && (p < n ==> (p in t.kv <==> p in r.Purged(s).kv))
            && (p in t.kv ==> p < |t.cur| && (t.kv[p] == t.cur[p] <==> !ServesStale(s, r) || p != n - 1))
  {
    var n, kv := r.Reused(s), SeqRm(r.Purged(s).kv, r.Reused(s), -1);
    FinishAt(r, kv, n, p);
    if p in kv {
      KeptIsMatched(s, r, p);
      AnyStartAt(s, r, p);
      assert r.Step(s).cur[..n][p] == r.prompt[..n][p];
    }
  }

  /** A cache that is right everywhere but at `n - 1`, and there exactly if it is not `stale`. */
  lemma AgreesUnless(t: State, n: nat, stale: bool)
    requires forall p: nat :: p in t.kv ==> p < |t.cur| && (t.kv[p] == t.cur[p] <==> !stale || p != n - 1)
    requires stale ==> n > 0 && n - 1 in t.kv
    ensures Agrees(t) <==> !stale
  {
  }

  /** What is reused stays in the cache. */
  lemma ReusedStays(s: State, r: Request, n: nat, p: nat)
    requires r.Admissible() && p < n == r.Reused(s) && p in r.Purged(s).kv
    ensures p in r.Step(s).kv
  {
    FinishAt(r, SeqRm(r.Purged(s).kv, n, -1), n, p);
  }

  lemma StaleIsReused(s: State, r: Request, n: nat)
    requires r.Admissible() && Agrees(s) && ServesStale(s, r) && n == r.Reused(s)
    ensures n > 0 && n - 1 in r.Purged(s).kv
  {
    LastSlotAfterPurge(s, r);
  }

  /** For every request, sampling or not: the cache still agrees exactly if no stale token is served. */
  lemma AnyStepAgrees(s: State, r: Request)
    requires r.Admissible() && Agrees(s)
    ensures Agrees(r.Step(s)) <==> !ServesStale(s, r)
  {
    var n := r.Reused(s);
    forall p: nat | p in r.Step(s).kv
      ensures p < |r.Step(s).cur|
      ensures r.Step(s).kv[p] == r.Step(s).cur[p] <==> !ServesStale(s, r) || p != n - 1
    {
      AnyStepAt(s, r, p);
    }
    if ServesStale(s, r) {
      StaleIsReused(s, r, n);
      ReusedStays(s, r, n, n - 1);
    }
    AgreesUnless(r.Step(s), n, ServesStale(s, r));
  }

  // ---------------------------------------------------------------- runs

  ghost predicate Completing(rs: seq<Request>) {
    forall r :: r in rs ==> r.Admissible() && r.nPredict > 0
  }

  /** The cache after the requests `rs`, from the start of the program. */
  function Run(rs: seq<Request>): State
    requires forall r :: r in rs ==> r.Admissible()
  {
    if rs == [] then State(map[], []) else rs[|rs| - 1].Step(Run(rs[..|rs| - 1]))
  }

  /** Over any run the KV cache never holds a wrong token, nor the last one. */
  lemma {:induction false} RunIsClean(rs: seq<Request>)
    requires Completing(rs)
    ensures Clean(Run(rs))
  {
    if rs != [] {
      RunIsClean(rs[..|rs| - 1]);
      StepIsClean(Run(rs[..|rs| - 1]), rs[|rs| - 1]);
    }
  }

  /** The KV cache is `cur[..|cur| - 1]` after the run and after each of its requests before. */
  ghost predicate AlwaysComplete(rs: seq<Request>)
    requires Completing(rs)
  {
    Complete(Run(rs)) && (rs != [] ==> AlwaysComplete(rs[..|rs| - 1]))
  }

  ghost predicate AlwaysLeavesLast(rs: seq<Request>)
    requires Completing(rs)
  {
    rs != [] ==>
      && AlwaysLeavesLast(rs[..|rs| - 1])
      && LeavesLast(Run(rs[..|rs| - 1]), rs[|rs| - 1])
  }

  /** The KV cache stays complete through a run exactly if no request of it matches all that is cached. */
  lemma {:induction false} RunIsComplete(rs: seq<Request>)
    requires Completing(rs)
    ensures AlwaysComplete(rs) <==> AlwaysLeavesLast(rs)
  {
    if rs != [] {
      var front := rs[..|rs| - 1];
      RunIsComplete(front);
      if Complete(Run(front)) {
        StepIsComplete(Run(front), rs[|rs| - 1]);
      }
    }
  }

  /** A run that leaves a hole: sample one token, then send the prompt, that token and one more. */
  lemma HoleAfterTwoRequests()
    ensures var one := Request([1, 2, 3], false, 1, 4096, 512, 64, [Sample(4, false)]);
            var two := Request([1, 2, 3, 4, 5], false, 1, 4096, 512, 64, [Sample(6, false)]);
            var s := Run([one, two]);
            s.cur == [1, 2, 3, 4, 5, 6] && 3 !in s.kv && 4 in s.kv
  {
    var one := Request([1, 2, 3], false, 1, 4096, 512, 64, [Sample(4, false)]);
    var two := Request([1, 2, 3, 4, 5], false, 1, 4096, 512, 64, [Sample(6, false)]);
    assert [one, two][..1] == [one] && [one][..0] == [];
    var s := Run([one]);
    assert one.Output() == [4] && two.Output() == [6] && s.cur == [1, 2, 3, 4];
    RunIsComplete([one]);
    assert two.prompt == s.cur + [5];
    ContinuationLeavesHole(s, two, [5]);
    StepAt(s, two, 4);
  }

  // ---------------------------------------------------------------- a prompt with a stretch dropped

  /** The cached tokens without those from `a` to `b` and from `c` on, followed by new ones. */
  function Dropped(cur: seq<Token>, a: nat, b: nat, c: nat, more: seq<Token>): seq<Token>
    requires a <= b <= c <= |cur|
  {
    cur[..a] + cur[b..c] + more
  }

  lemma DroppedMatch(cur: seq<Token>, a: nat, b: nat, c: nat, more: seq<Token>)
    requires a < b < c <= |cur| && cur[a] != cur[b]
    requires c - b + |more| >= 2
    ensures Matched(cur, Dropped(cur, a, b, c, more)) == a
  {
    var prompt := Dropped(cur, a, b, c, more);
    assert prompt[a] == cur[b] && prompt[..a] == cur[..a];
    MatchedWhereScanStops(cur, prompt, a);
  }

  /** A run shared with the rest of the prompt has no new token, so it lies in the stretch that is kept. */
  lemma DroppedRun(cur: seq<Token>, a: nat, b: nat, c: nat, more: seq<Token>)
    requires a < b < c <= |cur| && forall t :: t in more ==> t !in cur
    ensures LongestRun(cur[a..], |cur| - a, cur[b..c] + more) == cur[b..c]
  {
    var x, run := cur[a..], cur[b..c];
    var r := LongestRun(x, |x|, run + more);
    assert x[b - a..b - a + |run|] == run;
    assert OccursAt(x, run, b - a);
    assert (run + more)[0..|run|] == run;
    assert OccursAt(run + more, run, 0);
    LongestRunIsLongest(x, run + more, run);
    var i :| OccursAt(x, r, i);
    var j :| OccursAt(run + more, r, j);
    WithoutNew(cur, a, i, run, more, j, r);
    assert r == (run + more)[0..|run|];
  }

  lemma WithoutNew(cur: seq<Token>, a: nat, i: int, run: seq<Token>, more: seq<Token>, j: int, r: seq<Token>)
    requires a <= |cur| && OccursAt(cur[a..], r, i) && OccursAt(run + more, r, j) && r != []
    requires forall t :: t in more ==> t !in cur
    ensures j + |r| <= |run|
  {
    var k := |r| - 1;
    LastOfRun(cur[a..], r, i);
    LastOfRun(run + more, r, j);
    NewTokens(run, more);
    assert r[k] == cur[a + i + k] && r[k] in cur;
    assert r[k] == (run + more)[j + k];
  }

  lemma NewTokens(run: seq<Token>, more: seq<Token>)
    ensures forall k :: |run| <= k < |run| + |more| ==> (run + more)[k] in more
  {
  }

  lemma LastOfRun(x: seq<Token>, r: seq<Token>, i: int)
    requires OccursAt(x, r, i) && r != []
    ensures r[|r| - 1] == x[i + |r| - 1]
  {
    assert x[i..i + |r|][|r| - 1] == r[|r| - 1];
  }

  /**
   When a prompt that drops a stretch and goes on with new tokens makes the purge fire: what is kept after the stretch
   must be long, alone and with the new tokens, these must be few or what is kept make up 45 percent of the context,
   and it must not stand up to where the stretch begins already.
   */
  lemma DroppedFires(cur: seq<Token>, a: nat, b: nat, c: nat, more: seq<Token>, genamt: nat, nctx: nat)
    requires a < b < c <= |cur| && cur[a] != cur[b] && forall t :: t in more ==> t !in cur
    ensures var kept := c - b;
            PurgeFires(cur, Dropped(cur, a, b, c, more), genamt, nctx) <==>
            && kept + |more| >= 200 + nctx / 30
            && kept > 140 + nctx / 30 - nctx / 50
            && (|more| < genamt + 60 + nctx / 50 || 100 * kept > 45 * nctx)
            && forall k :: 0 <= k <= a ==> !OccursAt(cur, cur[b..c], k)
  {
    if c - b + |more| >= 2 {
      DroppedMatch(cur, a, b, c, more);
      DroppedShares(cur, a, b, c, more);
      FiresWith(cur, Dropped(cur, a, b, c, more), cur[b..c], b, |more|, genamt, nctx);
    } else {
      TooShort(cur, a, b, c, more, genamt, nctx);
    }
  }

  lemma DroppedShares(cur: seq<Token>, a: nat, b: nat, c: nat, more: seq<Token>)
    requires a < b < c <= |cur| && (forall t :: t in more ==> t !in cur)
    requires Matched(cur, Dropped(cur, a, b, c, more)) == a && c - b + |more| >= 2
    ensures SharedRun(cur, Dropped(cur, a, b, c, more)) == cur[b..c] <= Dropped(cur, a, b, c, more)[a..]
    ensures OccursAt(cur, cur[b..c], b)
  {
    assert Dropped(cur, a, b, c, more)[a..] == cur[b..c] + more;
    DroppedRun(cur, a, b, c, more);
  }

  /** A purge with this match and this shared run, which stands after the match and is followed by `more` new tokens. */
  lemma FiresWith(cur: seq<Token>, prompt: seq<Token>, run: seq<Token>, b: nat, more: nat, genamt: nat, nctx: nat)
    requires prompt != [] && SharedRun(cur, prompt) == run <= prompt[Matched(cur, prompt)..]
    requires OccursAt(cur, run, b) && b > Matched(cur, prompt) && |prompt| == Matched(cur, prompt) + |run| + more
    ensures PurgeFires(cur, prompt, genamt, nctx) <==>
            && |run| + more >= 200 + nctx / 30
            && |run| > 140 + nctx / 30 - nctx / 50
            && (more < genamt + 60 + nctx / 50 || 100 * |run| > 45 * nctx)
            && forall k :: 0 <= k <= Matched(cur, prompt) ==> !OccursAt(cur, run, k)
  {
    PurgeFiresMeaning(cur, prompt, genamt, nctx);
  }

  lemma TooShort(cur: seq<Token>, a: nat, b: nat, c: nat, more: seq<Token>, genamt: nat, nctx: nat)
    requires a < b < c <= |cur| && c - b + |more| < 2
    ensures !PurgeFires(cur, Dropped(cur, a, b, c, more), genamt, nctx)
  {
    var prompt := Dropped(cur, a, b, c, more);
    assert prompt[..a] == cur[..a];
    CommonPrefixIsLongest(cur, prompt, a);
  }

  // ---------------------------------------------------------------- a request that serves a stale token

  /** The tokens 0, 1, .. 399. */
  ghost predicate Counting(cur: seq<Token>) {
    |cur| == 400 && forall i :: 0 <= i < 400 ==> cur[i] == i
  }

  /** A prompt that drops 10 .. 19 of them and goes on differently after 398. */
  ghost predicate Shortened(prompt: seq<Token>) {
    |prompt| == 391 && forall i :: 0 <= i < 391 ==>
      prompt[i] == if i < 10 then i else if i < 389 then i + 10 else if i == 389 then 389 else 1000
  }

  lemma ShortenedMatch(cur: seq<Token>, prompt: seq<Token>)
    requires Counting(cur) && Shortened(prompt)
    ensures Matched(cur, prompt) == 10
  {
    MatchedWhereScanStops(cur, prompt, 10);
  }

  lemma TwoTokensOfRun(x: seq<Token>, i: int, y: seq<Token>, j: int, r: seq<Token>, k: nat)
    requires OccursAt(x, r, i) && OccursAt(y, r, j) && k + 1 < |r|
    ensures x[i + k] == y[j + k] && x[i + k + 1] == y[j + k + 1]
  {
    assert x[i..i + |r|][k] == y[j..j + |r|][k] && x[i..i + |r|][k + 1] == y[j..j + |r|][k + 1];
  }

  lemma ShortenedRun(cur: seq<Token>, prompt: seq<Token>)
    requires Counting(cur) && Shortened(prompt)
    ensures SharedRun(cur, prompt) == cur[20..399]
  {
    ShortenedMatch(cur, prompt);
    var x, y, run := cur[10..], prompt[10..], cur[20..399];
    var r := LongestRun(x, |x|, y);
    assert OccursAt(x, run, 10) && OccursAt(y, run, 0);
    LongestRunIsLongest(x, y, run);
    var i :| OccursAt(x, r, i);
    var j :| OccursAt(y, r, j);
    if j + |r| > 379 {
      TwoTokensOfRun(x, i, y, j, r, 378 - j);
    }
  }

  lemma ShortenedFires(cur: seq<Token>, prompt: seq<Token>)
    requires Counting(cur) && Shortened(prompt)
    ensures PurgeFires(cur, prompt, 1, 1000) && SharedAt(cur, prompt) == 20
  {
    ShortenedMatch(cur, prompt);
    ShortenedRun(cur, prompt);
    var run := cur[20..399];
    var found := FindFrom(cur, run, 0);
    assert OccursAt(cur, run, 20);
    FindFromIsFirst(cur, run, 0, 20);
    assert found >= 0 && OccursAt(cur, run, found);
    assert cur[found..found + |run|][0] == run[0];
    assert prompt[10..][..379] == run;
  }

  /** A request that samples nothing keeps what it reuses and drops the rest. */
  lemma SamplingNothing(s: State, r: Request)
    requires r.Admissible() && r.nPredict == 0
    ensures r.Step(s) == State(SeqRm(r.Purged(s).kv, r.Reused(s), -1), r.prompt[..r.Reused(s)])
  {
  }

  /** It can leave the last cached token evaluated. */
  lemma SamplingNothingKeepsLast(s: State, r: Request, n: nat)
    requires r.Admissible() && r.nPredict == 0 && Complete(s)
    requires 0 < n == r.Reused(s) < |r.Purged(s).cur|
    ensures var t := r.Step(s);
            t.cur == r.prompt[..n] && |t.cur| == n && n - 1 in t.kv && Agrees(t)
  {
    SamplingNothing(s, r);
    LastReusedIsIn(s, r, n);
    CleanStepAgrees(s, r);
    PrefixIsKept(r.Step(s), SeqRm(r.Purged(s).kv, n, -1), r.prompt, n);
  }

  lemma PrefixIsKept(t: State, kv: Kv, prompt: seq<Token>, n: nat)
    requires n <= |prompt| && t == State(kv, prompt[..n])
    ensures t.cur == prompt[..n] && |t.cur| == n && t.kv == kv
  {
  }

  lemma LastReusedIsIn(s: State, r: Request, n: nat)
    requires r.Admissible() && Complete(s) && 0 < n == r.Reused(s) < |r.Purged(s).cur|
    ensures n - 1 in SeqRm(r.Purged(s).kv, n, -1)
  {
    StartOfRequest(s, r, n - 1);
  }

  lemma CleanStepAgrees(s: State, r: Request)
    requires r.Admissible() && Clean(s)
    ensures Agrees(r.Step(s))
  {
    CleanIsNotStale(s, r);
    AnyStepAgrees(s, r);
  }

  lemma CleanIsNotStale(s: State, r: Request)
    requires r.Admissible() && Clean(s)
    ensures !ServesStale(s, r)
  {
  }

  /** A fully evaluated context, as a request that samples nothing leaves it, then a purge: 399 stands for 389. */
  lemma StaleTokenServed(s: State, r: Request)
    requires Counting(s.cur) && Shortened(r.prompt) && Agrees(s) && 399 in s.kv
    requires r.Admissible() && !r.blank && r.nPredict == 1 && r.nctx == 1000
    ensures ServesStale(s, r) && !Agrees(r.Step(s))
    ensures var t := r.Purged(s);
            |t.cur| == 390 && 389 in t.kv && t.cur[389] == 389 && t.kv[389] == 399
  {
    ShortenedFires(s.cur, r.prompt);
    ShortenedMatch(s.cur, r.prompt);
    var cut := CutTokens(s.cur, 10, 20);
    MatchedWhereScanStops(cut, r.prompt, 390);
    LastSlotAfterPurge(s, r);
    AnyStepAgrees(s, r);
  }

  /** With an empty cache nothing is reused, and the request leaves all its tokens evaluated but the last. */
  lemma FirstRequest(r: Request)
    requires r.Admissible() && r.nPredict > 0
    ensures Complete(r.Step(State(map[], []))) && r.Step(State(map[], [])).cur == r.prompt + r.Output()
  {
    StepIsComplete(State(map[], []), r);
  }

  /** A prompt that differs in its last token reuses all that stands before. */
  lemma ReusesAllButLast(s: State, r: Request, c: seq<Token>, x: Token)
    requires r.Admissible() && !r.blank && c != [] && r.prompt == c + [x] && |s.cur| > |c| && s.cur[..|c|] == c
    ensures r.Purged(s) == s && r.Reused(s) == |c|
  {
    assert r.prompt[..|c|] == c;
    MatchedWhereScanStops(s.cur, r.prompt, |c|);
  }

  lemma RunOneMore(rs: seq<Request>, r: Request)
    requires r.Admissible() && forall q :: q in rs ==> q.Admissible()
    ensures (forall q :: q in rs + [r] ==> q.Admissible()) && Run(rs + [r]) == r.Step(Run(rs))
  {
    assert (rs + [r])[..|rs|] == rs;
  }

  lemma KeepsAllButLast(s: State, r: Request, c: seq<Token>, x: Token)
    requires Complete(s) && |s.cur| > |c| && s.cur[..|c|] == c
    requires c != [] && r.Admissible() && !r.blank && r.nPredict == 0 && r.prompt == c + [x]
    ensures var t := r.Step(s); t.cur == c && |c| - 1 in t.kv && Agrees(t)
  {
    ReusesAllButLast(s, r, c, x);
    assert r.prompt[..|c|] == c;
    SamplingNothingKeepsLast(s, r, |c|);
  }

  /** The program can come to hold a fully evaluated context: a request that samples, then one that does not. */
  lemma EvaluatedAfterTwoRequests(c: seq<Token>, one: Request, two: Request, x: Token, y: Token)
    requires c != [] && one.Admissible() && one.nPredict > 0 && one.prompt == c + [x]
    requires two.Admissible() && !two.blank && two.nPredict == 0 && two.prompt == c + [y]
    ensures var s := Run([one, two]); s.cur == c && |c| - 1 in s.kv && Agrees(s)
  {
    RunOneMore([], one);
    RunOneMore([one], two);
    assert [] + [one] == [one] && [one] + [two] == [one, two];
    FirstRequest(one);
    assert (one.prompt + one.Output())[..|c|] == c;
    KeepsAllButLast(one.Step(State(map[], [])), two, c, y);
  }

  /** A run that serves a stale token: a third request, which makes a purge fire and matches all that is left. */
  lemma StaleAfterThreeRequests(c: seq<Token>, prompt: seq<Token>)
    requires Counting(c) && Shortened(prompt)
    ensures var one := Request(c + [9998], false, 1, 1000, 512, 64, [Sample(5, false)]);
            var two := Request(c + [9999], false, 0, 1000, 512, 64, []);
            var three := Request(prompt, false, 1, 1000, 512, 64, [Sample(6, false)]);
            !Agrees(Run([one, two, three]))
  {
    var one := Request(c + [9998], false, 1, 1000, 512, 64, [Sample(5, false)]);
    var two := Request(c + [9999], false, 0, 1000, 512, 64, []);
    var three := Request(prompt, false, 1, 1000, 512, 64, [Sample(6, false)]);
    EvaluatedAfterTwoRequests(c, one, two, 9998, 9999);
    RunOneMore([one, two], three);
    assert [one, two] + [three] == [one, two, three];
    StaleTokenServed(Run([one, two]), three);
  }
}
