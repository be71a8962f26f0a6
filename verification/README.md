# Verification of koboldcpp

Dafny models of six independent cores of koboldcpp, with proofs that they do what they are for:

- the **prompt cache** of `gpttype_generate`: which tokens of the last request are reused, how a removed middle part is
  shifted out, what the KV cache holds over any run of requests (`TokenSearch`, `PromptCache`, `CacheRuns`), and how the
  tokens of a request are put together (`PromptAssembly`);
- the **DRY sampler**: a Z-algorithm from the end over capped entries, restart sequences and the penalty table
  (`SuffixRepeats`, `DryBreakers`, `DrySampler`, `BreakerTable`);
- the **OpenCL kernels** that dequantise and multiply in one go (`RealSums`, `DequantMatVec`, `Q4K`) and the **buffer
  pool** (`BufferPool`);
- **LoRA factor pairs**: tensor operations on two factors instead of their product (`Tensors`, `Lora`, `LoraPrograms`,
  `LoraJoins`);
- **model conversion**: byte pair merging (`Bpe`) and the accumulator for expert tensors (`Experts`, `ExpertRuns`);
- the **base64 codec** (`Base64`), RFC 4648 sections 4 and 5.

Loops and updates in place of the C++ sources are methods over classes and arrays, each proved against a function or
relation whose properties are then proved as lemmas; the pure operations on LoRA pairs are functions. Floating-point
numbers are reals, tokens are integers, the tokenizer and the network are parameters, and the KV cache is a map from
positions to the tokens evaluated there.

`dafny verify dfyconfig.toml` checks the whole project.

## What the proofs show about the code

- **The KV cache is not always all cached tokens but the last.** The last sampled token is never evaluated. A prompt
  that goes on from the whole cached context fast-forwards over it, so its position stays empty for good
  (`CacheRuns.ContinuationLeavesHole`, `CacheRuns.HoleAfterTwoRequests`). The cache is complete after every request of
  a run exactly if each request leaves the last cached token unmatched (`CacheRuns.RunIsComplete`). No wrong token is
  ever held as long as every request generates (`CacheRuns.RunIsClean`).
- **With requests that generate nothing, a wrong token can be served.** The shift loop leaves the last slot stale. That
  is harmless after a request that samples, since the last token is not in the KV cache; after one that samples nothing
  it can be, and a purge followed by a full match reuses it (`CacheRuns.StaleAfterThreeRequests`; the exact condition is
  `CacheRuns.AnyStepAgrees`).
- **Slicing a LoRA pair above two dimensions** is accepted always and right only if A's first axis follows
  (`Lora.SliceIsRight`).
- **`permute` of a LoRA pair** accepts axes a tensor does not have (`Lora.AxesTooLarge`; the exact condition is
  `Lora.PermuteAccepts`), and **`reshape`** of a pair of rank 0 accepts shapes of another size
  (`LoraPrograms.RankZeroReshapes`).
- **The plain q8_0 kernel** reads and writes past its blocks exactly if the size of the work-groups, which is left to the
  OpenCL implementation, is odd (`DequantMatVec.StaysInBlocks`, `DequantMatVec.WrongColumn`). **The fused kernel on
  16-bit floats** takes in one column too many if the row is odd (`DequantMatVec.RowIsDotProduct`).
- **DRY with an allowed length of 0** penalises every token of the window except for an occurrence at its very first
  position (`DrySampler.Settings.NothingAllowed`).
- **A context of just four tokens more than are to be generated** cuts the memory away whole, and a prompt that is only
  the token that starts a text then leaves nothing at all (`PromptAssembly.NothingAssembled`,
  `PromptAssembly.ClampLeavesOnlyFour`).
- **A pooled buffer of the largest size there is** is never chosen for reuse, because the search starts with that size
  as its best (`BufferPool.Fits`).

## Model

| member | source | states |
|---|---|---|
| TokenSearch.ArrStartWith | model_adapter.cpp:333-348 | true exactly if the search tokens are a prefix of the target |
| TokenSearch.ArrFindIndexOf | model_adapter.cpp:350-376 | the index is that of the first occurrence, -1 exactly if there is none; an empty search is found at 0 of every nonempty target only |
| TokenSearch.StandsAt | model_adapter.cpp:360-369 | the inner loop decides whether the search stands at a place |
| TokenSearch.FindFromIsFirst | model_adapter.cpp:358-375 | the specified index is an occurrence and no earlier one exists |
| TokenSearch.CellIsSuffix | model_adapter.cpp:390-399 | a cell of the table is the length of a common suffix of the two prefixes |
| TokenSearch.CellBoundsSuffixes | model_adapter.cpp:390-399 | no common suffix of the two prefixes is longer than the cell |
| TokenSearch.FillTable | model_adapter.cpp:382-399 | the loops fill every cell with the longest common suffix |
| TokenSearch.LongestCommonSubseq | model_adapter.cpp:378-418 | the scan of the table returns the specified run |
| TokenSearch.LongestRunIsLongest | model_adapter.cpp:401-417 | the run stands in both inputs, and no contiguous run common to both is longer |
| TokenSearch.LongestRunIsFirst | model_adapter.cpp:402-416 | of several longest common runs it is the one that starts first in the first input |
| PromptCache.SeqShiftAt | src/llama.cpp:3332-3377 | position by position: a shift to the end keeps what lies below, moves the rest down and loses nothing |
| PromptCache.DecodeInBatches | gpttype_adapter.cpp:2495-2500 | evaluating in two batches is evaluating in one |
| PromptCache.CommonPrefixIsLongest | gpttype_adapter.cpp:1001-1016 | the common prefix agrees and cannot be extended |
| PromptCache.MatchedIsPrefix | model_adapter.cpp:435-470 | what is matched is a common prefix, and of a prompt of two tokens or more never the whole prompt |
| PromptCache.MatchedMeaning | model_adapter.cpp:435-470 | the match ends at the first difference, where the cached tokens end, or before the last prompt token of two or more, and nowhere else |
| PromptCache.MatchedAt | model_adapter.cpp:435-470 | cached and prompt tokens agree at every matched position |
| PromptCache.SharedThresholdIsPositive | gpttype_adapter.cpp:994-1024 | the threshold is at least 140 for every context size and generation length, so comparing it with an unsigned length is sound |
| PromptCache.SharedThresholdMeaning | gpttype_adapter.cpp:1022-1031 | in plain numbers when a shared run is long enough: above 140 + nctx/30 - nctx/50, and either all but few of the rest or more than 45 percent of the context |
| PromptCache.PurgeFiresMeaning | gpttype_adapter.cpp:994-1034 | a purge fires if and only if both texts have 6 tokens, enough is left, the run is long enough, the prompt goes on with it, and it stands in the cached tokens, nowhere before the match ends |
| PromptCache.RecentMeaning | gpttype_adapter.cpp:2339-2342 | entry by entry what last_n_tokens holds: the newest tokens, zeros before them |
| PromptCache.SharedIsLong | gpttype_adapter.cpp:1029-1034 | when a purge fires the shared run is longer than 140 and stands at the place found |
| PromptCache.SampledLength | gpttype_adapter.cpp:2483-2864 | between one and the budget's number of tokens are sampled, none exactly with no budget |
| PromptCache.SampledNext | gpttype_adapter.cpp:2661-2771 | one more sample is the next token of the output; only a stop or the budget ends it |
| PromptCache.FinishAt | gpttype_adapter.cpp:2395-2864 | position by position what a request leaves in the KV cache: the kept prompt tokens and every token of prompt and output but the last |
| PromptCache.Session.constructor | gpttype_adapter.cpp:102 | the program starts with no cached tokens |
| PromptCache.Session.ScanMatch | gpttype_adapter.cpp:997-1016 | the scan counts exactly the match and reports whether it stopped short of all but the last prompt token |
| PromptCache.Session.FindShared | gpttype_adapter.cpp:1026-1034 | the place of the shared run in the cached tokens, -1 if it is too short or not where the prompt goes on |
| PromptCache.Session.CutTokensInPlace | gpttype_adapter.cpp:1042-1049 | the shift loop and the resize cut the tokens out and leave the stale last slot |
| PromptCache.Session.CutOut | gpttype_adapter.cpp:1038-1049 | KV cache and tokens lose the same positions |
| PromptCache.Session.PurgeMissingTokens | gpttype_adapter.cpp:986-1053 | the cache becomes the purged cache of the specification, on every early exit too |
| PromptCache.Session.ContextFastForward | model_adapter.cpp:431-477 | n_past is the length of the match, the prompt loses exactly that much, and last_n_tokens moves on by the same tokens |
| PromptCache.Session.Prepare | gpttype_adapter.cpp:2339-2398 | after purge, fast-forward and seq_rm: cached tokens are prompt[..n_past], the KV cache holds nothing from n_past on, cached and remaining tokens make up the prompt |
| PromptCache.Session.FeedBatch | gpttype_adapter.cpp:2778-2862 | at least one and at most a batch of prompt tokens moves over, in order, whatever n_batch is |
| PromptCache.Session.MainLoop | gpttype_adapter.cpp:2483-2864 | terminates; keeps tokens = evaluated + pending and last_n_tokens = the last entries of zeros followed by the tokens; ends in the state the specification gives |
| PromptCache.Session.Generate | gpttype_adapter.cpp:2336-2885 | a request maps the cache as Request.Step says; the number of evaluated tokens is all but the last; last_n_tokens is what it should be; last_token_count is the number of tokens sampled, on every stop reason |
| CacheRuns.CutAt | gpttype_adapter.cpp:1038-1049 | position by position, what a cut leaves in the KV cache and in the tokens |
| CacheRuns.CutKeepsAlignment | gpttype_adapter.cpp:1039-1045 | a cut keeps KV cache and tokens aligned on all but the last token, whatever the cache lacks |
| CacheRuns.PurgeKeepsAlignment | gpttype_adapter.cpp:986-1053 | so does a purge, whether it fires or not |
| CacheRuns.PurgeExtendsMatch | gpttype_adapter.cpp:1031-1049 | when a purge fires, the match with the prompt grows by at least the shared run less one token, so by 140 or more |
| CacheRuns.StartOfRequest | gpttype_adapter.cpp:2377-2395 | before the first evaluation the KV cache holds exactly prompt tokens, below min(n_past, |cur| - 1), all of them if it was complete |
| CacheRuns.SomethingToEvaluate | model_adapter.cpp:465-468 | a prompt of two tokens or more always leaves one to evaluate |
| CacheRuns.ContextFits | gpttype_adapter.cpp:2483-2864 | after a request that fits the context the cached tokens do not exceed it |
| CacheRuns.LoopFits | gpttype_adapter.cpp:2483-2864 | nor between any two iterations of its loop |
| CacheRuns.StepAt | gpttype_adapter.cpp:2377-2864 | after a request that generates, a position of the KV cache is filled, with the right token, unless it is the last or was empty before |
| CacheRuns.StepIsClean | gpttype_adapter.cpp:2377-2864 | such a request leaves no wrong token in the KV cache, nor the last one |
| CacheRuns.StepIsComplete | gpttype_adapter.cpp:2377-2864 | the KV cache stays exactly cur[..|cur| - 1] if and only if the request leaves the last cached token unmatched |
| CacheRuns.ContinuationLeavesHole | model_adapter.cpp:435-470 | every prompt that goes on from the whole cached context leaves its last token unevaluated for good |
| CacheRuns.AnyStepAt | gpttype_adapter.cpp:2377-2864 | the same position by position for requests that sample nothing too |
| CacheRuns.AnyStepAgrees | gpttype_adapter.cpp:1042-1045 | the KV cache agrees with the tokens after a request exactly if no stale last slot is matched |
| CacheRuns.RunIsClean | gpttype_adapter.cpp:1913-2885 | over any run of requests that generate, the KV cache never holds a wrong token |
| CacheRuns.RunIsComplete | gpttype_adapter.cpp:1913-2885 | over any such run, the KV cache is cur[..|cur| - 1] after every request if and only if no request matches all that is cached |
| CacheRuns.HoleAfterTwoRequests | gpttype_adapter.cpp:2674-2680 | a run of two requests that leaves a hole in the KV cache |
| CacheRuns.ShortenedFires | gpttype_adapter.cpp:1031-1034 | a prompt of 400 tokens that makes a purge fire |
| CacheRuns.DroppedFires | gpttype_adapter.cpp:994-1034 | for every cached text, dropped stretch, new tokens and sizes: a prompt that drops the stretch and goes on with new tokens makes a purge fire if and only if what is kept after it is long enough in plain numbers and does not stand earlier |
| CacheRuns.SamplingNothingKeepsLast | gpttype_adapter.cpp:2397-2483 | a request with no budget can leave the last cached token evaluated |
| CacheRuns.EvaluatedAfterTwoRequests | gpttype_adapter.cpp:2397-2483 | the program comes to hold a fully evaluated context, of any length, by two requests |
| CacheRuns.StaleTokenServed | gpttype_adapter.cpp:1042-1049 | a purge in such a state leaves a wrong token that the next match serves |
| CacheRuns.StaleAfterThreeRequests | gpttype_adapter.cpp:986-2885 | a run of three requests from the start of the program that ends with a wrong token in the KV cache |
| PromptAssembly.ClampedMeaning | koboldcpp.py:926-937 | the budget is the request's, or what leaves 16 tokens of context, or 4 in a context of fewer than 20 |
| PromptAssembly.ClampLeavesFour | koboldcpp.py:926-934 | the clamped budget leaves four tokens of context exactly if the context has 8 or the request asks for no more than the context less 4 |
| PromptAssembly.ClampLeavesOnlyFour | koboldcpp.py:931-933 | exactly when it leaves no more than four |
| PromptAssembly.CutTokens | gpttype_adapter.cpp:2248-2260 | the tokens that do not fit are cut at the front and the token that starts a text is put back |
| PromptAssembly.DropExcess | gpttype_adapter.cpp:2319-2330 | the front of the prompt goes as far as the sum exceeds the context |
| PromptAssembly.AddMemory | gpttype_adapter.cpp:2297-2334 | the kept memory and what then still fits of the prompt, without the token that starts a text |
| PromptAssembly.Assemble | gpttype_adapter.cpp:2247-2334 | the assembled tokens are the kept memory followed by the kept prompt |
| PromptAssembly.AssembledMeaning | gpttype_adapter.cpp:2247-2334 | both are ends of what was given, up to the token that starts a text; with the tokens to generate they fit the context; nothing is cut but for lack of room, and what is cut starts with that token again |
| PromptAssembly.AssembledAlone | gpttype_adapter.cpp:2248-2260 | without memory: the prompt if it fits, else the token that starts a text and as much of the end as fits behind it |
| PromptAssembly.MemoryKept | gpttype_adapter.cpp:2281-2295 | the memory that is kept, in plain slices |
| PromptAssembly.AssembledBehind | gpttype_adapter.cpp:2297-2334 | the prompt behind memory, in plain slices, without the token that starts a text when it begins with it |
| PromptAssembly.BothFit | gpttype_adapter.cpp:2300-2334 | memory and prompt that fit stand one after the other; of the tokens that start a text the second goes |
| PromptAssembly.NothingAssembled | gpttype_adapter.cpp:2297-2334 | exactly when nothing at all is left |
| PromptAssembly.CacheFitsContext | koboldcpp.py:926-937 | from any request with 8 tokens of context or more: the cached tokens exceed the context neither between two iterations of the loop nor after it |
| SuffixRepeats.RepeatLengthIsLongest | gpttype_adapter.cpp:591-595 | the repeat length is the longest suffix of the window that also ends at the place, and every shorter one repeats too |
| SuffixRepeats.RepeatsAsSlices | gpttype_adapter.cpp:591-595 | the same in terms of slices of the window |
| SuffixRepeats.BoxCopies | gpttype_adapter.cpp:619-623 | inside a box, repeats at the pair index and at the place are the same up to the right edge |
| SuffixRepeats.CappedInsideBox | gpttype_adapter.cpp:625-627 | an entry that was capped before it is reused still gives the capped answer |
| DryBreakers.LongestTailIsLongest | gpttype_adapter.cpp:549-569 | the longest of the tails that stands after a head, -1 if none does |
| DryBreakers.RepeatLimitMeaning | gpttype_adapter.cpp:542-576 | the limit is the number of tokens after the longest restart sequence at the rightmost complete head, all of them if there is none; none starts among the last so many tokens |
| DryBreakers.OneTokenBreakers | gpttype_adapter.cpp:552-554 | with one-token restart sequences it is the distance to the last of them |
| DryBreakers.FindLongestTail | gpttype_adapter.cpp:549-569 | the inner loops find the longest tail |
| DryBreakers.ScanBreakers | gpttype_adapter.cpp:542-576 | the scan from the end computes the limit |
| DrySampler.Sampler.CountRepeats | gpttype_adapter.cpp:603-642 | every entry becomes the capped length of the longest repeat, though entries are reused capped, with at most 2(N - 1) comparisons of tokens |
| DrySampler.CompareFrom | gpttype_adapter.cpp:610-613 | the comparing loop of either branch finds the length of the repeat, with one comparison for each token gained and one for the end |
| DrySampler.Sampler.OutsideBox | gpttype_adapter.cpp:608-618 | outside of the last box: the entry, the new box, and no more comparisons than it grows by and one |
| DrySampler.Sampler.InsideBox | gpttype_adapter.cpp:619-640 | the same inside of it, in both cases |
| DrySampler.Sampler.TabulateTokens | gpttype_adapter.cpp:656-669 | a token is in the table exactly if it continues a repeat that is long enough, with the largest one |
| DrySampler.Sampler.ApplyPenalties | gpttype_adapter.cpp:673-703 | each token of the table loses its penalty once, in whatever order the table is walked |
| DrySampler.Sampler.SampleDry | gpttype_adapter.cpp:504-708 | every logit loses its penalty and nothing else, on every early return; `sorted` falls exactly if one did |
| DrySampler.BestIsLargest | gpttype_adapter.cpp:656-669 | the length a token goes by is the largest up to the limit whose tokens also stand just before an earlier occurrence of it |
| DrySampler.PowerAdds | gpttype_adapter.cpp:689 | the powers of the base: the first is the base, and they add up |
| DrySampler.Settings.WindowMeaning | gpttype_adapter.cpp:508-515 | the window holds the newest tokens, in order, as many as there are, as the range says and as the context has |
| DrySampler.Settings.MaxExponentMeaning | gpttype_adapter.cpp:675-681 | the clamp is the greatest exponent that keeps the power in range, and none for a base up to 1.000001 |
| DrySampler.Settings.PenalisedIff | gpttype_adapter.cpp:504-708 | a token loses logit if and only if the limit is above the allowed length and the last allowed tokens of the window stand just before an earlier occurrence of it |
| DrySampler.Settings.PenaltyIs | gpttype_adapter.cpp:656-699 | the penalty goes by the largest such length up to the limit; its exponent is that length less the allowed one, clamped where the base asks for it |
| DrySampler.Settings.PenalisedWhere | gpttype_adapter.cpp:504-708 | the same condition over positions of all cached tokens |
| DrySampler.Settings.PenaltyWhere | gpttype_adapter.cpp:656-699 | and the same penalty |
| DrySampler.Settings.NothingAllowed | gpttype_adapter.cpp:656-662 | with an allowed length of 0 every token of the window after its first position is penalised; the first position never counts |
| BreakerTable.WordTailsMeaning | gpttype_adapter.cpp:324-384 | exactly the empty tail of a token that contains the string, else one clamped tail for each suffix that is a proper prefix of it, come to those already there; no pair is doubled |
| BreakerTable.ContainsMeaning | gpttype_adapter.cpp:328 | a token contains the string exactly if it is the string with something before and after it, possibly nothing |
| BreakerTable.AddsMeaning | gpttype_adapter.cpp:343-366 | a tail is added exactly if the string falls apart into an end of the token and a rest, both nonempty, and the tail is the first tokens of the rest, as many as the limit allows |
| BreakerTable.Table.AddTail | gpttype_adapter.cpp:367-379 | a pair is added unless it is there |
| BreakerTable.Table.AddWord | gpttype_adapter.cpp:327-382 | the search of one token adds the specified tails |
| BreakerTable.Table.GetOverlappingTokenSequences | gpttype_adapter.cpp:324-384 | the whole vocabulary gets the specified tails |
| BreakerTable.MatchesToEnd | gpttype_adapter.cpp:350-358 | the comparison succeeds exactly if the rest of the token is a prefix of the string |
| RealSums.SumSwap | ggml-opencl.cpp:517-541 | the order of a double sum does not matter |
| RealSums.TotalIsSum | ggml-opencl.cpp:777-782 | the sum of an array is the sum of its elements |
| RealSums.Reduce | ggml-opencl.cpp:775-785 | halving steps leave the sum of all partial sums in the first |
| DequantMatVec.Format.SlotHandles | ggml-opencl.cpp:761-764 | the two columns of a loop position belong to it, as its first and its second |
| DequantMatVec.Format.ColumnHandled | ggml-opencl.cpp:761-772 | every column belongs to exactly one loop position, in both layouts |
| DequantMatVec.Format.InRow | ggml-opencl.cpp:761-772 | no loop position reaches outside of the row |
| DequantMatVec.EvenColumn | ggml-opencl.cpp:723 | in groups of even size every work-item stands at an even column |
| DequantMatVec.OfSlot | ggml-opencl.cpp:732-735 | in the split layout a work-item at an odd column does what its neighbour does |
| DequantMatVec.ItemAtSlot | ggml-opencl.cpp:723-727 | every pair of columns has a work-item, whatever the size of the groups, though those of neighbouring groups overlap |
| DequantMatVec.StaysInBlocks | ggml-opencl.cpp:723-742 | every work-item keeps to its block if and only if the layout is split or the size of the groups is even |
| DequantMatVec.LastItem | ggml-opencl.cpp:723-742 | with groups of odd size a work-item of q8_0 writes the column after the row |
| DequantMatVec.WrongColumn | ggml-opencl.cpp:723-742 | and where the groups have one item, every item at the end of a block writes the first column of the next with what stands behind its own |
| DequantMatVec.DequantizeRow | ggml-opencl.cpp:722-742 | with that condition the plain kernel leaves the dequantised value in every column, in whatever order the overlapping work-items run |
| DequantMatVec.WorkItem | ggml-opencl.cpp:761-773 | the partial sum of a work-item is its share |
| DequantMatVec.MatVecRow | ggml-opencl.cpp:745-786 | the fused kernel's result is the dot product of the vector with the dequantised row; a row of an odd number of columns takes in the column and the number after it |
| DequantMatVec.RowIsDotProduct | ggml-opencl.cpp:761-773 | so it is the dot product over the row itself if and only if the row is even or what is taken in is zero |
| DequantMatVec.WeightQ4 | ggml-opencl.cpp:121-131 | column by column what the dequantised row is for q4_0: a nibble less 8, scaled |
| DequantMatVec.Nibbles | ggml-opencl.cpp:126-127 | the nibbles of a byte are its remainder and its quotient by 16 |
| DequantMatVec.WeightQ8 | ggml-opencl.cpp:173-181 | the same for q8_0 |
| DequantMatVec.WeightF16 | ggml-opencl.cpp:182-185 | and for 16-bit floats |
| Q4K.UnpackIsScales | ggml-opencl.cpp:527-531 | the masked 16-bit unpacking gives the scales and minimums of get_scale_min_k4, for every packed byte |
| Q4K.PackedComesBack | ggml/src/ggml-quants.c:2509-2523 | any eight scales and eight minimums below 64, packed as quantize_row_q4_K_ref packs them, come back from get_scale_min_k4 |
| Q4K.NumbersAre | ggml-opencl.cpp:189-201 | the scale, minimum and quant of every column in numbers: remainders and quotients of the packed bytes |
| Q4K.TermIs | ggml-opencl.cpp:269-278 | every term of the dot product is (d * scale * quant - dmin * minimum) times the entry of the vector |
| Q4K.QuantAt | ggml-opencl.cpp:275-279 | which byte and which half of it a column's four bits come from |
| Q4K.DequantizeItem | ggml-opencl.cpp:252-280 | one work-item writes its eight columns and no other |
| Q4K.DequantizeBlock | ggml-opencl.cpp:252-280 | the plain kernel writes every column of the block with its decoded value |
| Q4K.BlockItem | ggml-opencl.cpp:517-541 | what a work-item of the fused kernel adds for a block is the sum of its terms |
| Q4K.ItemsCoverBlock | ggml-opencl.cpp:494-508 | the 32 work-items cover the 256 columns of a block once each |
| Q4K.SharesAreRow | ggml-opencl.cpp:517-551 | all shares of all work-items add up to the row |
| Q4K.MatVecRow | ggml-opencl.cpp:483-555 | the fused kernel's result is the dot product of the vector with the row that the plain kernel decodes, for every number of blocks |
| BufferPool.StepKeepsValid | ggml-opencl.cpp:1305-1360 | whatever a client does, every buffer is in exactly one slot or held by one client, with its true size recorded |
| BufferPool.BuffersAreConserved | ggml-opencl.cpp:1305-1360 | created = pooled + held + released |
| BufferPool.RunIsValid | ggml-opencl.cpp:1305-1360 | so over every run |
| BufferPool.MallocHandsOut | ggml-opencl.cpp:1329-1344 | the buffer handed out is nobody else's, as large as reported and as asked for, and no held buffer changes |
| BufferPool.HeldUntilGivenUp | ggml-opencl.cpp:1305-1360 | a buffer stays with its holder, at its true size, until the holder gives it up |
| BufferPool.NeverHandedOutTwice | ggml-opencl.cpp:1305-1360 | over every run, a buffer handed out twice was given up in between |
| BufferPool.CreatesOnlyWhenNothingFits | ggml-opencl.cpp:1329-1344 | a buffer is created exactly when no pooled one fits, and one is released exactly when then the pool is not empty |
| BufferPool.MallocReuses | ggml-opencl.cpp:1329-1336 | a buffer of the pool that is large enough is handed out, the first of the smallest, and nothing else changes |
| BufferPool.MallocReplaces | ggml-opencl.cpp:1337-1347 | where none is, the first of the largest is released before one of the size asked for is created |
| BufferPool.MallocCreates | ggml-opencl.cpp:1344-1347 | with an empty pool one is just created |
| BufferPool.FreeMeaning | ggml-opencl.cpp:1350-1362 | a buffer given back goes into the first empty slot, and is released exactly if there is none |
| BufferPool.Pool.constructor | ggml-opencl.cpp:1297-1302 | the pool starts out empty |
| BufferPool.Pool.Search | ggml-opencl.cpp:1309-1328 | the first smallest slot that fits and the first largest slot, -1 exactly if there is none |
| BufferPool.Pool.Malloc | ggml-opencl.cpp:1305-1345 | malloc is the specified step: the smallest fitting buffer, else the largest is released and a new one created |
| BufferPool.Pool.Free | ggml-opencl.cpp:1347-1360 | free is the specified step: the first empty slot, else the buffer is released |
| Tensors.UnravelRavel | convert_lora_to_gguf.py:128-152 | row-major storage places every index once |
| Tensors.RavelUnravel | convert_lora_to_gguf.py:128-152 | and every place has one index |
| Tensors.RowMajor | convert_lora_to_gguf.py:128-152 | elements are stored in the order of their indices, the first axis counting most |
| Tensors.ReshapeMeaning | convert_lora_to_gguf.py:147-152 | reshaping keeps every element at its place in storage and every length that is given |
| Tensors.SelectMeaning | convert_lora_to_gguf.py:65-67 | what t[i] of a tensor is, element by element, negative positions included |
| Tensors.SliceMeaning | convert_lora_to_gguf.py:70-74 | what t[start:stop] of a tensor is, element by element, for all bounds |
| Tensors.ClipMeaning | convert_lora_to_gguf.py:70-74 | a bound is counted from the end if negative and cut to size |
| Tensors.PermuteMeaning | convert_lora_to_gguf.py:166-168 | permuting moves an element to where entry order[i] of its index stands at i |
| Tensors.PermuteTakes | convert_lora_to_gguf.py:160-168 | permute takes exactly what lists every axis once, counted from either end |
| Tensors.SwapMeaning | convert_lora_to_gguf.py:173-180 | exchanging two existing axes, counted from either end, exchanges two lengths and the same two entries of every index; others are refused |
| Tensors.ExpandMeaning | convert_lora_to_gguf.py:138-142 | every -1 in a new shape is replaced by the number of elements over the product of the other lengths; where there is one, the shape then holds all elements |
| Tensors.StackMeaning | convert_hf_to_gguf.py:1556 | element by element what a stack is |
| Tensors.StackTakes | convert_hf_to_gguf.py:1556 | one or more tensors can be stacked exactly if they have one shape |
| Lora.NewAccepts | convert_lora_to_gguf.py:43-51 | the constructor takes exactly factors of the same number of axes and of one rank, and when it fails an assertion |
| Lora.DenseMeaning | convert_lora_to_gguf.py:43-51 | an element of the product is the sum of rank products of an element of B and one of A, A's matrix being shared along axes of length 1 |
| Lora.SelectCommutes | convert_lora_to_gguf.py:65-67 | t[i] of a pair above two dimensions stands for t[i] of the product |
| Lora.SelectAccepts | convert_lora_to_gguf.py:65-69 | t[i] is taken exactly above two dimensions and where both factors have the position |
| Lora.SliceCommutes | convert_lora_to_gguf.py:70-74 | a slice that fits stands for the slice of the product |
| Lora.SliceIsRight | convert_lora_to_gguf.py:70-74 | every slice is accepted; it stands for the slice of the product if and only if A's first axis is as long as B's, or the slice takes in A's only position, or it is empty |
| Lora.PermuteRowsCommutes | convert_lora_to_gguf.py:163-166 | permuting the leading axes of B permutes the product, where A is one matrix |
| Lora.TransposeCommutes | convert_lora_to_gguf.py:167-168 | the transposed factors, exchanged, stand for the transposed matrix |
| Lora.PermuteCommutes | convert_lora_to_gguf.py:160-171 | whatever permute accepts and a tensor takes stands for the permuted product |
| Lora.PermuteAccepts | convert_lora_to_gguf.py:160-171 | of what permute accepts, a tensor takes exactly the orders of existing axes |
| Lora.PermuteRefuses | convert_lora_to_gguf.py:160-171 | of the orders a tensor takes: refused are those that move the last axis above two dimensions, and with an assertion those that keep it where A is not one matrix |
| Lora.AxesTooLarge | convert_lora_to_gguf.py:162 | an order that permute accepts of every matrix and no tensor takes |
| LoraPrograms.ReshapeCommutes | convert_lora_to_gguf.py:128-152 | whatever reshape accepts and a tensor takes stands for the reshaped product, -1 included |
| LoraPrograms.ReshapeAccepts | convert_lora_to_gguf.py:128-152 | reshape accepts every split of the rows where A is one matrix, and is right there |
| LoraPrograms.ReshapeIsTaken | convert_lora_to_gguf.py:128-152 | whatever reshape accepts of a pair of rank 1 or more, the tensor takes |
| LoraPrograms.RankZeroReshapes | convert_lora_to_gguf.py:147-152 | of rank 0 it accepts any number of rows, and the tensor takes exactly its own number of elements |
| LoraPrograms.RankStays | convert_lora_to_gguf.py:56-180 | no operation changes the rank |
| LoraPrograms.SwapCommutes | convert_lora_to_gguf.py:173-180 | transpose and swapaxes stand for those of the product |
| LoraPrograms.SwapAccepts | convert_lora_to_gguf.py:173-180 | exchanging two axes is taken exactly if they exist and permute takes the order: A is one matrix where the last axis stays, or it is the transpose of a matrix |
| LoraPrograms.ProgramCommutes | convert_lora_to_gguf.py:56-180 | any program of these operations, run on the pair, stands for the same program run on the product |
| LoraPrograms.ProgramIsTaken | convert_lora_to_gguf.py:56-180 | whatever program a pair of rank 1 or more accepts, with existing axes, the product takes |
| LoraPrograms.HeadsOfTensor | convert_hf_to_gguf.py:1515-1520 | the head permutation puts rows q of the two halves of each head next to each other, for tensors of any number of axes |
| LoraPrograms.HeadsOfPair | convert_hf_to_gguf.py:1515-1520 | run on the factors of a matrix it succeeds and stands for the permuted matrix |
| LoraJoins.StackCommutes | convert_lora_to_gguf.py:196-203 | a stack of pairs stands for the stack of their products |
| LoraJoins.StackAccepts | convert_lora_to_gguf.py:196-203 | stack takes exactly pairs whose A's have one shape and whose B's have one shape |
| LoraJoins.CatCommutes | convert_lora_to_gguf.py:213-217 | matrices with one A, one under another, stand for their products one under another |
| LoraJoins.UnderMeaning | convert_lora_to_gguf.py:209-217 | each row of matrices one under another comes after all rows of the matrices before it |
| LoraJoins.CatAccepts | convert_lora_to_gguf.py:213-219 | of matrices, cat takes exactly those with one A |
| Bpe.FindBest | convert_hf_to_gguf.py:1829-1833 | the inner loop finds the first pair of minimal rank, -1 exactly if none is ranked |
| Bpe.Bpe | convert_hf_to_gguf.py:1825-1840 | bpe terminates and returns what merging the best pair until none lies within the limit gives |
| Bpe.MergedMeaning | convert_hf_to_gguf.py:1827-1839 | merging keeps the bytes in order, makes only ranked parts within the limit, and ends when no pair is left |
| Bpe.MergedNext | convert_hf_to_gguf.py:1829-1839 | in plain terms the merge that comes next: of the neighbours that are ranked together, the first pair of least rank, if that is below the limit |
| Bpe.MergedStops | convert_hf_to_gguf.py:1834-1835 | and merging stops if and only if no such pair is ranked below the limit |
| Bpe.TokenParts | convert_hf_to_gguf.py:1825-1840 | the parts join to the token, each of several bytes is a key ranked within the limit, no two neighbours could still be merged |
| Bpe.OwnRankSplits | convert_hf_to_gguf.py:655-656 | with its own rank as the limit a token of several bytes gives at least two parts |
| Bpe.WiderContinues | convert_hf_to_gguf.py:1834-1835 | merging under a limit is a first stretch of merging under any wider one |
| Bpe.TwoPartsRejoin | convert_hf_to_gguf.py:655-657 | a token that splits in two under its own rank comes back whole under any wider limit |
| Bpe.SplitsInTwo | convert_hf_to_gguf.py:655-656 | with distinct ranks, the vocabulary writer's assertion holds if and only if merging up to and including the token's rank puts it together |
| Bpe.Merges | convert_hf_to_gguf.py:651-657 | the vocabulary loop passes its assertion exactly if every token of more than one byte splits in two, and then lists a pair for each that joins to it, in order |
| Bpe.LongerMeaning | convert_hf_to_gguf.py:651-654 | which tokens get a pair: each of other than one byte, in the order of the vocabulary, and no other |
| Experts.NamesDiffer | convert_hf_to_gguf.py:1552 | the names of a layer's tensors differ |
| Experts.NamesCount | convert_hf_to_gguf.py:1544-1552 | a layer has three names for each expert |
| Experts.DecimalMeaning | convert_hf_to_gguf.py:1552 | numbers in names are their decimal digits without a leading zero |
| Experts.NameExample | convert_hf_to_gguf.py:1552 | the name an expert's tensor arrives with, spelled out for layer 10 |
| Experts.MergedNameExample | convert_hf_to_gguf.py:1558 | the name of a stacked tensor, spelled out for layer 10 |
| Experts.Accumulator.constructor | convert_hf_to_gguf.py:1522 | nothing is held at the start |
| Experts.Accumulator.TakeOut | convert_hf_to_gguf.py:1551-1554 | the inner loop gathers the experts in order and takes exactly them out, or reports the first that is missing |
| Experts.Accumulator.MergeLayer | convert_hf_to_gguf.py:1545-1563 | the three stacked tensors, or the first failure; what is left is the dictionary without the layer's names |
| Experts.Accumulator.ModifyTensors | convert_hf_to_gguf.py:1533-1567 | one arrival maps the dictionaries and lets leave what Arrive says |
| Experts.Accumulator.CheckProcessed | convert_hf_to_gguf.py:1600-1604 | the final check raises exactly if some layer still holds a tensor |
| ExpertRuns.HeldIsArrived | convert_hf_to_gguf.py:1542 | what is held under a name is the tensor that arrived with it |
| ExpertRuns.OrderIsComplete | convert_hf_to_gguf.py:1544 | every complete layer and every tensor that is no expert's leaves once, and nothing else does |
| ExpertRuns.RunAccumulates | convert_hf_to_gguf.py:1533-1567 | for any order of arrival, experts' tensors and others mixed: the run succeeds, the stacked tensors of every complete layer and every other tensor leave once, and the rest is held as it arrived |
| ExpertRuns.HeldInAnyOrder | convert_hf_to_gguf.py:1542 | the same tensors in two orders: the same is held for every layer |
| ExpertRuns.AnyOrder | convert_hf_to_gguf.py:1533-1567 | the same tensors in two orders: the runs end with the same dictionaries, and the same tensors leave |
| ExpertRuns.ExpertLeaves | convert_hf_to_gguf.py:1548-1562 | whenever it arrived, the tensor of expert xid of a complete layer leaves at position xid of the stacked tensor of its weight |
| ExpertRuns.LeftOver | convert_hf_to_gguf.py:1600-1604 | after such a run something is left exactly if a layer has begun and is not complete |
| Experts.ExpertAtItsIndex | convert_hf_to_gguf.py:1548-1562 | each stacked tensor made of a dictionary has its new name and holds the entry of expert xid at index xid |
| Base64.Encode | common/base64.hpp:79-144 | encode writes the RFC 4648 encoding: the bits in sixes, filled up with zeros, and the padding |
| Base64.AlphabetIs | common/base64.hpp:84-86 | the characters of the two alphabets, in order |
| Base64.Examples | common/base64.hpp:79-144 | the encodings of "f" and "fo" in RFC 4648, section 10 |
| Base64.LongerExample | common/base64.hpp:79-144 | the encoding of "foobar" there |
| Base64.ThreeBytes | common/base64.hpp:92-140 | the shifts and masks of a whole group are its four sixes |
| Base64.ValueOfSymbol | common/base64.hpp:344-389 | the value of a character is what it was made from, and no character is the padding |
| Base64.ValueAccepts | common/base64.hpp:344-389 | a character is valid exactly if it belongs to the alphabet, or to one of the two while none is settled |
| Base64.Carried | common/base64.hpp:217-226 | the shifts that carry bits over write exactly the next eight bits, at every fill |
| Base64.WritesCount | common/base64.hpp:205-229 | after n characters floor(6n/8) bytes are written, those of the bits read |
| Base64.Decode | common/base64.hpp:199-244 | decode gives the bits of the characters regrouped into bytes, or rejects an invalid character or, unless loose, anything but padding after padding |
| Base64.DecodeInPlace | common/base64.hpp:294-313 | in place it gives the same, never writing over a character that is still to be read; what is not written over stays |
| Base64.AutoMeaning | common/base64.hpp:366-386 | automatic detection accepts exactly what one of the two alphabets accepts, with the same bytes |
| Base64.DecodedAccepts | common/base64.hpp:199-244 | decoding succeeds exactly if all characters before the first padding belong to the alphabet and, unless loose, only padding follows |
| Base64.DecodedBit | common/base64.hpp:205-229 | every bit of a decoded byte is the same bit of the sixes that the characters stand for |
| Base64.SixBitsOfSixes | common/base64.hpp:92-140 | cutting bits into sixes keeps them and adds fewer than six zeros |
| Base64.RoundTrip | common/base64.hpp:79-244 | decoding gives back what was encoded, in either alphabet, with detection too, strict or loose |
| Base64.EncodedLength | common/base64.hpp:338-341 | the encoding has the length required_encode_size promises |
| Base64.DecodedLength | common/base64.hpp:324-327 | the number of decoded bytes is floor(6n/8) and fits max_decode_size |

## Left out

Of the modelled code:

- Abort from another thread, which sets the remaining budget to 0 at any time (gpttype_adapter.cpp:1857-1866).
- RWKV, Mamba and `requireFullSubset`, image tokens and the exits on a failed evaluation: they end or bypass the cache.
- Smart context (model_adapter.cpp:479-536); context shift turns it off.
- The keys and values in the KV cache and the effect of a position shift on them: a cell is the token it was computed
  for. A full cache, several sequences and defragmentation are not part of it.
- The samplers other than DRY: what sampling yields is a parameter of a request.
- Floats as such: rounding, overflow and the order of float additions; `pow` is exact and the logarithm of
  the base is a parameter.
- Debug output, timing, the streaming of text and the rendering of tokens.
- Work-items run one after the other between barriers, those of the plain template kernel in any order. Work-groups are
  of one size, which divides the number of work-items.
- Block formats other than 32-wide ones and the one-wide f16 of the generic kernel, work-groups of other sizes than 32,
  `K_QUANTS_PER_ITERATION == 2`, and the q2_K, q3_K, q5_K and q6_K kernels.
- Failure of `clCreateBuffer`, which ends the program; buffers of 0 bytes, which OpenCL refuses; the spin lock.
- DequantizeRow: with groups of odd size and the paired layout there is no result to state, since the kernel then writes
  outside of the row.
- CatPairs: above two dimensions it is modelled, but no lemma says what its result stands for.
- Tuple indices and slice steps on LoRA pairs, and dtype conversion.
- LlamaModel.permute of the query and key weights inside `modify_tensors`: the accumulator takes the tensor as already
  permuted.
- The vocabulary file around `bpe`, and names that `map_tensor_name` computes: a map of known names stands for it.
- Decoding characters as signed or unsigned `char`: characters are bytes.

Of the repository:

- llama.cpp and ggml themselves, the grammar, GGUF reading and writing, format detection and loading.
- The HTTP server, streaming, Horde worker, GUI, launcher and class.py of koboldcpp: input and output.
- RoPE scaling, layer estimation and other heuristics without a crisp specification.
- Vocabulary scripts and hyperparameter tables: case tables.
