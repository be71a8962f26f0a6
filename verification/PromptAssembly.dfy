/**
 How a request's budget is set (generate in koboldcpp.py) and its tokens are put together (gpttype_generate):
 memory first, then the prompt, both cut at the front where the context is too small.
 */
module PromptAssembly {
  import opened Numbers
  import opened TokenSearch
  import opened PromptCache
  import opened CacheRuns

  // ---------------------------------------------------------------- the budget

  /** The context size and the number of tokens to generate. */
  datatype Budget = Budget(nctx: int, nPredict: int)

  /** What generate makes of a request's sizes, with `available` tokens of context at hand. */
  function Clamped(maxContext: int, maxLength: int, available: int): Budget {
    var nctx := if maxContext > available then available else maxContext;
    var minRemain := Min(nctx - 4, 16);
    Budget(nctx, if maxLength >= nctx - minRemain then nctx - minRemain else maxLength)
  }

  /** The budget keeps 16 tokens of context free, in a context of fewer than 20 all but 4. */
  lemma ClampedMeaning(maxContext: int, maxLength: int, available: int)
    ensures var b := Clamped(maxContext, maxLength, available);
            b.nPredict == Min(maxLength, if b.nctx >= 20 then b.nctx - 16 else 4)
  {
  }

  /** The budget leaves four tokens of context exactly when the context has 8 or the request asks for little. */
  lemma ClampLeavesFour(maxContext: int, maxLength: int, available: int)
    ensures var b := Clamped(maxContext, maxLength, available);
            && b.nctx == Min(maxContext, available)
            && b.nPredict <= maxLength
            && (maxLength >= 0 ==> b.nPredict >= 0)
            && (b.nPredict + 4 <= b.nctx <==> b.nctx >= 8 || maxLength <= b.nctx - 4)
  {
  }

  /** It leaves no more than four in small contexts only. */
  lemma ClampLeavesOnlyFour(maxContext: int, maxLength: int, available: int)
    ensures var b := Clamped(maxContext, maxLength, available);
            b.nPredict + 4 == b.nctx <==>
            (b.nctx == 8 && maxLength >= 4) || (b.nctx < 8 && maxLength == b.nctx - 4)
  {
  }

  // ---------------------------------------------------------------- putting the tokens together

  /** The last `n` tokens, or all. */
  function Last(s: seq<Token>, n: nat): seq<Token> {
    if |s| <= n then s else s[|s| - n..]
  }

  /** The same, with the token that starts a text, if there is one, put in front of a text that was cut. */
  function LastFrom(s: seq<Token>, n: nat, bos: seq<Token>): seq<Token> {
    if |s| > n > 0 && bos != [] then [bos[0]] + s[|s| - (n - 1)..] else Last(s, n)
  }

  function WithoutBos(s: seq<Token>, bos: seq<Token>): seq<Token> {
    if bos != [] && s != [] && bos[0] == s[0] then s[1..] else s
  }

  /** The memory that is kept: all but what is needed to leave four tokens beside it. */
  function MemoryPart(memory: seq<Token>, bos: seq<Token>, b: Budget): seq<Token>
    requires 0 <= b.nPredict <= b.nctx - 4
  {
    LastFrom(memory, b.nctx - b.nPredict - 4, bos)
  }

  /** The prompt that is kept when it stands alone. */
  function PromptAlone(prompt: seq<Token>, bos: seq<Token>, b: Budget): seq<Token>
    requires 0 <= b.nPredict <= b.nctx - 4
  {
    LastFrom(prompt, b.nctx - b.nPredict, bos)
  }

  /** The prompt that is kept behind the memory. */
  function PromptPart(prompt: seq<Token>, memory: seq<Token>, bos: seq<Token>, b: Budget): seq<Token>
    requires 0 <= b.nPredict <= b.nctx - 4
  {
    if memory == [] then PromptAlone(prompt, bos, b)
    else
      LastFits(memory, bos, b);
      Last(WithoutBos(PromptAlone(prompt, bos, b), bos), b.nctx - b.nPredict - |MemoryPart(memory, bos, b)|)
  }

  lemma LastFits(memory: seq<Token>, bos: seq<Token>, b: Budget)
    requires 0 <= b.nPredict <= b.nctx - 4
    ensures |MemoryPart(memory, bos, b)| <= b.nctx - b.nPredict - 4
  {
  }

  /** The request: the kept memory followed by the kept prompt. */
  function Assembled(prompt: seq<Token>, memory: seq<Token>, bos: seq<Token>, b: Budget): seq<Token>
    requires 0 <= b.nPredict <= b.nctx - 4
  {
    MemoryPart(memory, bos, b) + PromptPart(prompt, memory, bos, b)
  }

  /** How a text is cut: the tokens in front go, and the first that is left is replaced. */
  lemma CutFront(s: seq<Token>, n: nat, bos: seq<Token>)
    requires |s| > n
    ensures LastFrom(s, n, bos)
         == if n > 0 && bos != [] then s[|s| - n..][0 := bos[0]] else s[|s| - n..]
  {
  }

  /** Tokens that with `reserve` more would not fit are cut at the front. */
  method CutTokens(s: seq<Token>, reserve: nat, nctx: int, bos: seq<Token>) returns (t: seq<Token>)
    requires reserve <= nctx
    ensures t == LastFrom(s, nctx - reserve, bos)
  {
    t := s;
    if |t| + reserve > nctx {
      var offset := |t| - nctx + reserve;
      CutFront(s, nctx - reserve, bos);
      t := t[offset..];
      if |bos| > 0 && |t| > 0 {
        t := t[0 := bos[0]];
      }
    }
  }

  /** The token that starts a text is taken from the memory. */
  method RemoveBos(s: seq<Token>, bos: seq<Token>) returns (t: seq<Token>)
    ensures t == WithoutBos(s, bos)
  {
    t := s;
    if |bos| > 0 && t != [] && bos[0] == t[0] {
      t := t[1..];
    }
  }

  /** The front of the prompt goes as far as memory, prompt and generation together exceed the context. */
  method DropExcess(s: seq<Token>, memory: nat, nPredict: nat, nctx: int) returns (t: seq<Token>)
    requires memory + nPredict <= nctx
    ensures t == Last(s, nctx - nPredict - memory)
  {
    t := s;
    var totalSize := memory + |t| + nPredict;
    if totalSize > nctx {
      var excess := totalSize - nctx;
      if |t| >= excess {
        t := t[excess..];
      } else {
        t := [];
      }
    }
  }

  /** The memory is stuck to the front of the prompt. */
  method AddMemory(alone: seq<Token>, memory: seq<Token>, bos: seq<Token>, nctx: nat, nPredict: nat,
                   ghost prompt: seq<Token>)
    returns (embdInp: seq<Token>)
    requires nPredict + 4 <= nctx && memory != []
    requires alone == PromptAlone(prompt, bos, Budget(nctx, nPredict))
    ensures embdInp == Assembled(prompt, memory, bos, Budget(nctx, nPredict))
  {
    ghost var b := Budget(nctx, nPredict);
    embdInp := RemoveBos(alone, bos);
    var embdInpMem := CutTokens(memory, nPredict + 4, nctx, bos);
    LastFits(memory, bos, b);
    embdInp := DropExcess(embdInp, |embdInpMem|, nPredict, nctx);
    embdInp := embdInpMem + embdInp;
    WithMemory(prompt, memory, bos, b, embdInp);
  }

  /** The statements of gpttype_generate between tokenizing and fast-forwarding, without images. */
  method Assemble(prompt: seq<Token>, memory: seq<Token>, bos: seq<Token>, nctx: int, nPredict: int)
    returns (embdInp: seq<Token>)
    requires 0 <= nPredict <= nctx - 4
    ensures embdInp == Assembled(prompt, memory, bos, Budget(nctx, nPredict))
  {
    embdInp := CutTokens(prompt, nPredict, nctx, bos);
    if |memory| > 0 {
      embdInp := AddMemory(embdInp, memory, bos, nctx, nPredict, prompt);
    } else {
      WithoutMemory(prompt, bos, Budget(nctx, nPredict));
    }
  }

  lemma WithoutMemory(prompt: seq<Token>, bos: seq<Token>, b: Budget)
    requires 0 <= b.nPredict <= b.nctx - 4
    ensures Assembled(prompt, [], bos, b) == PromptAlone(prompt, bos, b)
  {
    assert MemoryPart([], bos, b) == [];
  }

  lemma WithMemory(prompt: seq<Token>, memory: seq<Token>, bos: seq<Token>, b: Budget, r: seq<Token>)
    requires 0 <= b.nPredict <= b.nctx - 4 && memory != []
    requires var m := LastFrom(memory, b.nctx - (b.nPredict + 4), bos);
             && |m| + b.nPredict <= b.nctx
             && r == m + Last(WithoutBos(PromptAlone(prompt, bos, b), bos), b.nctx - b.nPredict - |m|)
    ensures r == Assembled(prompt, memory, bos, b)
  {
  }

  // ---------------------------------------------------------------- what comes out

  /** `part` is the end of `whole`, except that the token that starts a text may stand in front. */
  predicate EndOf(part: seq<Token>, whole: seq<Token>, bos: seq<Token>) {
    && |part| <= |whole|
    && forall i :: 0 <= i < |part| ==>
         part[i] == whole[|whole| - |part| + i] || (i == 0 && bos != [] && part[0] == bos[0])
  }

  lemma MemoryMeaning(memory: seq<Token>, bos: seq<Token>, b: Budget)
    requires 0 <= b.nPredict <= b.nctx - 4
    ensures var m := MemoryPart(memory, bos, b);
            && EndOf(m, memory, bos) && |m| + b.nPredict + 4 <= b.nctx
            && (|memory| + b.nPredict + 4 <= b.nctx ==> m == memory)
            && (|memory| + b.nPredict + 4 > b.nctx ==> |m| + b.nPredict + 4 == b.nctx)
            && (m != memory && m != [] && bos != [] ==> m[0] == bos[0])
  {
    EndOfLastFrom(memory, b.nctx - b.nPredict - 4, bos);
  }

  lemma AloneMeaning(prompt: seq<Token>, bos: seq<Token>, b: Budget)
    requires 0 <= b.nPredict <= b.nctx - 4
    ensures var p := PromptAlone(prompt, bos, b);
            && EndOf(p, prompt, bos) && EndOf(WithoutBos(p, bos), prompt, bos)
            && |p| + b.nPredict <= b.nctx && (p == prompt || |p| + b.nPredict == b.nctx)
            && (p != prompt && bos != [] ==> p[0] == bos[0])
  {
    EndOfLastFrom(prompt, b.nctx - b.nPredict, bos);
    EndOfRest(PromptAlone(prompt, bos, b), prompt, bos);
  }

  lemma EndOfRest(part: seq<Token>, whole: seq<Token>, bos: seq<Token>)
    requires EndOf(part, whole, bos)
    ensures EndOf(WithoutBos(part, bos), whole, bos)
  {
    if part != [] {
      forall i | 0 <= i < |part[1..]|
        ensures part[1..][i] == whole[|whole| - |part[1..]| + i]
      {
        assert part[1..][i] == part[i + 1];
      }
    }
  }

  /** The prompt behind `m` tokens of memory. */
  lemma BehindMeaning(prompt: seq<Token>, bos: seq<Token>, b: Budget, m: nat)
    requires 0 <= b.nPredict <= b.nctx - 4 && m + b.nPredict + 4 <= b.nctx
    ensures var p := Last(WithoutBos(PromptAlone(prompt, bos, b), bos), b.nctx - b.nPredict - m);
            && EndOf(p, prompt, bos) && m + |p| + b.nPredict <= b.nctx
            && (m + |p| + b.nPredict < b.nctx && m > 0 ==> p == WithoutBos(prompt, bos))
  {
    AloneMeaning(prompt, bos, b);
    EndOfLast(WithoutBos(PromptAlone(prompt, bos, b), bos), prompt, bos, b.nctx - b.nPredict - m);
  }

  /** What a prompt `p` behind the memory `m` is like; `whole` is the prompt that would be left with room for it. */
  ghost predicate FitsBehind(p: seq<Token>, m: seq<Token>, prompt: seq<Token>, whole: seq<Token>, bos: seq<Token>,
                             b: Budget)
  {
    && EndOf(p, prompt, bos) && |m| + |p| + b.nPredict <= b.nctx
    && (|m| + |p| + b.nPredict < b.nctx ==> p == whole)
  }

  lemma PromptMeaning(prompt: seq<Token>, memory: seq<Token>, bos: seq<Token>, b: Budget)
    requires 0 <= b.nPredict <= b.nctx - 4
    ensures var m, p := MemoryPart(memory, bos, b), PromptPart(prompt, memory, bos, b);
            && EndOf(p, prompt, bos) && |m| + |p| + b.nPredict <= b.nctx
            && (memory == [] ==> FitsBehind(p, [], prompt, prompt, bos, b))
            && (m != [] ==>
                  var bare := if bos != [] && prompt != [] && prompt[0] == bos[0] then prompt[1..] else prompt;
                  FitsBehind(p, m, prompt, bare, bos, b))
            && (memory == [] && p != prompt && bos != [] ==> p[0] == bos[0])
  {
    MemoryMeaning(memory, bos, b);
    if memory == [] {
      AloneMeaning(prompt, bos, b);
    } else {
      BehindMeaning(prompt, bos, b, |MemoryPart(memory, bos, b)|);
    }
  }

  /**
   The request is the end of the memory followed by the end of the prompt, and leaves room for what is to be
   generated. Tokens are left out for lack of room only: a cut prompt fills the context. What is cut starts again with
   the token that starts a text.
   */
  lemma AssembledMeaning(prompt: seq<Token>, memory: seq<Token>, bos: seq<Token>, b: Budget)
    requires 0 <= b.nPredict <= b.nctx - 4
    ensures var m, p := MemoryPart(memory, bos, b), PromptPart(prompt, memory, bos, b);
            && EndOf(m, memory, bos) && EndOf(p, prompt, bos)
            && |m| + |p| + b.nPredict <= b.nctx
            && (|memory| + b.nPredict + 4 <= b.nctx ==> m == memory)
            && (|memory| + b.nPredict + 4 > b.nctx ==> |m| + b.nPredict + 4 == b.nctx)
            && (memory == [] ==> FitsBehind(p, [], prompt, prompt, bos, b))
            && (m != [] ==>
                  var bare := if bos != [] && prompt != [] && prompt[0] == bos[0] then prompt[1..] else prompt;
                  FitsBehind(p, m, prompt, bare, bos, b))
            && (m != memory && m != [] && bos != [] ==> m[0] == bos[0])
            && (memory == [] && p != prompt && bos != [] ==> p[0] == bos[0])
  {
    MemoryMeaning(memory, bos, b);
    PromptMeaning(prompt, memory, bos, b);
  }

  /** A prompt without memory: the whole, or as much of its end as fits, behind the token that starts a text. */
  lemma AssembledAlone(prompt: seq<Token>, bos: seq<Token>, b: Budget)
    requires 0 <= b.nPredict <= b.nctx - 4
    ensures var fit := b.nctx - b.nPredict;
            Assembled(prompt, [], bos, b) ==
            if |prompt| <= fit then prompt
            else if bos == [] then prompt[|prompt| - fit..]
            else [bos[0]] + prompt[|prompt| - (fit - 1)..]
  {
    WithoutMemory(prompt, bos, b);
  }

  /** The memory that is kept, in plain slices; `room` is what the context has for it. */
  lemma MemoryKept(memory: seq<Token>, bos: seq<Token>, b: Budget)
    requires 0 <= b.nPredict <= b.nctx - 4
    ensures var room := b.nctx - b.nPredict - 4;
            MemoryPart(memory, bos, b) ==
            if |memory| <= room then memory
            else if bos == [] || room == 0 then memory[|memory| - room..]
            else [bos[0]] + memory[|memory| - (room - 1)..]
  {
  }

  /**
   The prompt behind a memory: its last `k` tokens, where `own` of them could stand alone without the token that starts
   a text, and the memory leaves room for `k`.
   */
  lemma AssembledBehind(prompt: seq<Token>, memory: seq<Token>, bos: seq<Token>, b: Budget, m: nat)
    requires 0 <= b.nPredict <= b.nctx - 4 && memory != [] && m == |MemoryPart(memory, bos, b)|
    ensures Assembled(prompt, memory, bos, b) == MemoryPart(memory, bos, b) + PromptPart(prompt, memory, bos, b)
    ensures var fit := b.nctx - b.nPredict;
            var own := if |prompt| > fit then (if bos == [] then fit else fit - 1)
                       else if bos != [] && prompt != [] && prompt[0] == bos[0] then |prompt| - 1
                       else |prompt|;
            var k := Min(own, fit - m);
            0 <= k <= |prompt| && PromptPart(prompt, memory, bos, b) == prompt[|prompt| - k..]
  {
    PromptPartIs(prompt, memory, bos, b);
    EndOfPrompt(prompt, bos, b.nctx - b.nPredict, m);
  }

  lemma PromptPartIs(prompt: seq<Token>, memory: seq<Token>, bos: seq<Token>, b: Budget)
    requires 0 <= b.nPredict <= b.nctx - 4 && memory != []
    ensures |MemoryPart(memory, bos, b)| <= b.nctx - b.nPredict
    ensures PromptPart(prompt, memory, bos, b)
         == EndBehind(prompt, bos, b.nctx - b.nPredict, |MemoryPart(memory, bos, b)|)
  {
    var m := MemoryPart(memory, bos, b);
    LastFits(memory, bos, b);
    assert PromptPart(prompt, memory, bos, b)
        == Last(WithoutBos(PromptAlone(prompt, bos, b), bos), b.nctx - b.nPredict - |m|);
  }

  /** The end of the prompt that fits behind `m` tokens. */
  function EndBehind(prompt: seq<Token>, bos: seq<Token>, fit: nat, m: nat): seq<Token>
    requires m <= fit
  {
    Last(WithoutBos(LastFrom(prompt, fit, bos), bos), fit - m)
  }

  lemma EndOfPrompt(prompt: seq<Token>, bos: seq<Token>, fit: nat, m: nat)
    requires m <= fit && fit > 0
    ensures var own := if |prompt| > fit then (if bos == [] then fit else fit - 1)
                       else if bos != [] && prompt != [] && prompt[0] == bos[0] then |prompt| - 1
                       else |prompt|;
            var k := Min(own, fit - m);
            0 <= k <= |prompt| && EndBehind(prompt, bos, fit, m) == prompt[|prompt| - k..]
  {
    BareIsEnd(prompt, bos, fit);
    LastOfEnd(prompt, WithoutBos(LastFrom(prompt, fit, bos), bos), fit - m);
  }

  lemma BareIsEnd(prompt: seq<Token>, bos: seq<Token>, fit: nat)
    requires fit > 0
    ensures var own := if |prompt| > fit then (if bos == [] then fit else fit - 1)
                       else if bos != [] && prompt != [] && prompt[0] == bos[0] then |prompt| - 1
                       else |prompt|;
            var bare := WithoutBos(LastFrom(prompt, fit, bos), bos);
            |bare| == own <= |prompt| && bare == prompt[|prompt| - own..]
  {
  }

  lemma LastOfEnd(prompt: seq<Token>, bare: seq<Token>, n: nat)
    requires |bare| <= |prompt| && bare == prompt[|prompt| - |bare|..]
    ensures Last(bare, n) == prompt[|prompt| - Min(|bare|, n)..]
  {
  }

  /** Where both fit, nothing is left out but the token that starts the prompt, which the memory has. */
  lemma BothFit(prompt: seq<Token>, memory: seq<Token>, bos: seq<Token>, b: Budget)
    requires 0 <= b.nPredict && memory != []
    requires |memory| + b.nPredict + 4 <= b.nctx && |memory| + |prompt| + b.nPredict <= b.nctx
    ensures Assembled(prompt, memory, bos, b)
         == memory + if bos != [] && prompt != [] && prompt[0] == bos[0] then prompt[1..] else prompt
  {
    MemoryKept(memory, bos, b);
    AssembledBehind(prompt, memory, bos, b, |memory|);
  }

  lemma EndOfLastFrom(s: seq<Token>, n: nat, bos: seq<Token>)
    ensures EndOf(LastFrom(s, n, bos), s, bos)
    ensures |LastFrom(s, n, bos)| == if |s| <= n then |s| else n
    ensures |s| <= n ==> LastFrom(s, n, bos) == s
    ensures |s| > n > 0 && bos != [] ==> LastFrom(s, n, bos)[0] == bos[0]
  {
    if |s| > n {
      CutFront(s, n, bos);
    }
  }

  lemma EndOfLast(s: seq<Token>, whole: seq<Token>, bos: seq<Token>, n: nat)
    requires EndOf(s, whole, bos)
    ensures EndOf(Last(s, n), whole, bos)
  {
  }

  /**
   Nothing at all is left exactly when there was nothing, or when the memory is cut away in a context of just
   four tokens more than are to be generated and the prompt is no more than the token that starts a text.
   */
  lemma NothingAssembled(prompt: seq<Token>, memory: seq<Token>, bos: seq<Token>, b: Budget)
    requires 0 <= b.nPredict <= b.nctx - 4
    ensures Assembled(prompt, memory, bos, b) == [] <==>
            (memory == [] || b.nPredict + 4 == b.nctx) &&
            (prompt == [] || (memory != [] && bos != [] && prompt == [bos[0]]))
  {
    var alone := PromptAlone(prompt, bos, b);
    EndOfLastFrom(memory, b.nctx - b.nPredict - 4, bos);
    EndOfLastFrom(prompt, b.nctx - b.nPredict, bos);
    if memory != [] && b.nPredict + 4 == b.nctx && prompt != [] {
      assert |alone| == 1 ==> alone == prompt;
      if bos != [] && prompt == [bos[0]] {
        assert WithoutBos(prompt, bos) == [];
      }
    }
  }

  /**
   From the request's sizes to the cache: whatever is asked for, the cached tokens fit the context, between any two
   iterations of the request's loop and after it, as long as the context has room for eight tokens.
   */
  lemma CacheFitsContext(maxContext: int, maxLength: int, available: int, memory: seq<Token>, prompt: seq<Token>,
                         bos: seq<Token>, r: Request, s: State, session: Session, n: nat, consumed: nat, t: nat)
    requires maxLength >= 0 && Min(maxContext, available) >= 8
    requires var b := Clamped(maxContext, maxLength, available);
             && r.nctx == b.nctx && r.nPredict == b.nPredict
             && r.prompt == Assembled(prompt, memory, bos, b)
    requires r.Admissible()
    ensures |r.prompt| + r.nPredict <= r.nctx && |r.Step(s).cur| <= r.nctx
    ensures session.InStep(r, n, consumed, t) ==> |session.cur| <= r.nctx
  {
    var b := Clamped(maxContext, maxLength, available);
    AssembledMeaning(prompt, memory, bos, b);
    ContextFits(s, r);
    if session.InStep(r, n, consumed, t) {
      LoopFits(session, r, n, consumed, t);
    }
  }
}
