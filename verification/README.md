# A Dafny model of ds4

ds4 runs one large mixture-of-experts language model on one machine, and brings its own tool to quantise and prune the
model. This project models the algorithms of the host code, the offline tool and the small device kernels whose correctness
other code silently relies on, and proves what they promise.

- **Worker pool** (`WorkerPool`, `WorkerPoolSafety`): a generation counter, a done counter and two condition variables.
  Lock-held blocks are atomic steps, wait sets are explicit, and the theorems are about every interleaving.
- **Tokenizer** (`ByteEncoding`, `StrTable`, `Vocabulary`, `Bpe`, `TokenLaws`, `PreTokenizer`, `PieceShapes`, `BlankRuns`,
  `Detokenizer`, `ControlTokens`, `LetterRuns`, `ChatTokenizer`, `RenderedChat`): from bytes to token ids and back (UTF-8
  after section 3 of RFC 3629).
- **Block quantisers** (`WeightedFit`, `QuantSearch`, `QpSearch`, `Iq2Grid`, `Iq2Index`, `Iq2Build`, `Iq2Search`,
  `Iq2Group`, `KBlocks`, `KDots`, `KWriters`): the searches over real arithmetic, the writers with their packed layouts, and
  the dot products that read them.
- **Small floats** (`Binary32`, `E4m3`, `KvQuant`, `Nvfp4Lanes`, `Nvfp4`, `Nvfp4Blocks`): rounding (roundTiesToEven of
  section 4.3.1 of IEEE 754-2019) and the repacking of MXFP4 experts as NVFP4 (sections 5.3.3 and 5.4.1 of the OCP
  Microscaling Formats v1.0 specification).
- **KV compressor** (`Pooling`, `Compressor`, `CompressorCells`, `CompressorKernels`): the rolling state against the batch.
- **Model files** (`GgufValues`, `GgufMetadata`, `GgufProvenance`, `GgufPlan`, `GgufLoad`, `GgufFile`, `GgufLayout`,
  `GgufReads`): what the tool plans and writes, what the loader reads ("File Structure" section of the GGUF v3
  specification).
- **Pruning** (`NameMap`, `Reap`, `ExpertWorkers`, `ReapTensors`): which expert a slot holds, and the threads that fill it.
- **Tensor spans** (`TensorSpans`, `SpanGroups`) and the **think-tag filter** (`TagFilter`).

Code that updates things in place is a method or a class proved against a function; the properties are lemmas about those
functions. What a function of the model computes is stated once more on its own terms: `PieceShapes`, `RenderedChat`,
`TokenLaws`, `CompressorCells`, `SpanGroups` and `GgufLayout` say it of bytes, offsets and slices. Kernels are loops over
their thread index. Dying is a result, `None` or `false`.

## What the proofs found

Where the code and a comment or an obvious expectation disagree, the model follows the code.

- A row count within n_threads - 1 of 2^64 makes every slice empty (`WorkerPool.SlicesPartition`, `WrappedHits`).
- A stray UTF-8 lead byte lets a letter run swallow `k>`, so "no piece has a letter before `>`" is false
  (`ControlTokens.LetterBeforeGtHappens`). It happens exactly when the two bytes lie inside one character
  (`LetterRuns.LetterBeforeGtExactly`), so never in encoded text (`LetterRuns.NeverInEncoded`); the weaker fact that control
  ids never come out of text holds for every text (`ControlTokens.TextNeverControl`).
- The comment's `\s+(?!\S)` look-ahead is not what the branch for blanks does: two blanks and a letter are cut differently
  (`BlankRuns.BlanksDiffer`). `BlankRuns.PatternExactly` has the condition under which all pieces agree.
- `ds4q_make_qp_quants` stores codes in bytes, which is right exactly if no scaled value is below minus one half
  (`QpSearch.CodesFitExactly`). The IQ2_XXS writer passes it negated values exactly when a tuple has an odd number of
  negative ones and its least important value is not zero (`Iq2Search.NegativePassed`); then -4 becomes 252
  (`Iq2Group.NegativeReachesSearch`). The group is written soundly all the same (`Iq2Group.WriteGroup`).
- The comment on `float_to_e4m3` promises round-to-nearest-even (gguf-tools/deepseek4-quantize.c:1659). That holds from 2^-6
  up. Below, lines 1670-1677 flush everything under 2^-9, break ties upwards and stop at code 7: 0.75, 2.5 and 7.5 units
  of 2^-9 go wrong (`E4m3.BelowNormalDiffers`; `E4m3.EncoderBelowNormal` has the exact condition). The same comment calls
  it idempotent on all finite values; byte 0x80 alone comes back as 0x00 (`E4m3.ByteRoundTrip`, line 1663).
- The NVFP4 repack is lossless exactly within 17 octaves below the larger of the largest exponent and zero
  (`Nvfp4Blocks.RepackLossless`).
- Overlapping tensors may be cached twice, also at the smallest span size (`TensorSpans.OverlapCachesTwice`). Chunks are
  disjoint, and the reported number of bytes right, exactly when no merged span reaches into the next one
  (`TensorSpans.DisjointExactly`, `CachedIsExact`).
- The loader does not know the NVFP4 type: it gives such a tensor no bytes and so does not check its bounds
  (`GgufLoad.SizesAgree`, `GgufFile.LoadedBytes`).
- A template key `general.alignment` followed by a NUL sets the tool's alignment but not the loader's
  (`GgufMetadata.HiddenTextDiffers`); `GgufMetadata.AlignmentAgrees` has the exact condition.
- A pruning plan whose list names experts that do not exist, or is empty, makes the loader expect another number of experts
  than was written (`Reap.ExpectedIsWritten` gives the exact condition); a planned layer without list and count gets
  all-zero experts (`Reap.SlotsAreKept`).

## Model

| member | source | states |
|---|---|---|
| WorkerPool.SlicesPartition | src/util/ds4_util.c:277-280 | The slices of all threads contain every row below n_rows exactly once if and only if n_rows + n_threads - 1 does not wrap in 64 bits. |
| WorkerPool.PrefixHits | src/util/ds4_util.c:277-280 | Without wrap-around the first k slices contain exactly the rows below k times rows_per_thread. |
| WorkerPool.WrappedHits | src/util/ds4_util.c:277-280 | With wrap-around no thread gets any row. |
| WorkerPool.ThreadPool.InitPool | src/util/ds4_util.c:318-333 | For a given number of threads, creating the pool is the step Init of the transition system: n - 1 fresh workers, generation zero. |
| WorkerPool.ThreadPool.InitThreads | src/util/ds4_util.c:299-334 | Nothing when the pool exists; otherwise the step Init with the number of threads chosen from processors, environment and request. |
| WorkerPool.ThreadCount | src/util/ds4_util.c:304-316 | Between 1 and 32 threads whatever is asked for, at most 12 when nothing is, and a request in range is obeyed. |
| WorkerPool.ThreadPool.BeginCall | src/util/ds4_util.c:357-376 | A call runs inline exactly when it is nested, the pool has one thread or there are few rows; otherwise it publishes the job in one locked block and wakes every sleeper. |
| WorkerPool.ThreadPool.EnterMain | src/util/ds4_util.c:373-382 | The caller takes slice 0, or none when it is empty. |
| WorkerPool.ThreadPool.CheckMain | src/util/ds4_util.c:384-388 | The caller leaves exactly when done has reached the number of workers, and waits otherwise. |
| WorkerPool.ThreadPool.WakeUp | src/util/ds4_util.c:260-275 | One turn of the locked loop head: sleep, exit, or copy the job and its generation. |
| WorkerPool.ThreadPool.EnterWorker | src/util/ds4_util.c:277-285 | A worker calls fn on its own slice of its own copy of the job, or not at all when the slice is empty. |
| WorkerPool.ThreadPool.Report | src/util/ds4_util.c:287-292 | A worker counts itself done and wakes the caller when it is the last. |
| WorkerPool.ThreadPool.BeginShutdown | src/util/ds4_util.c:336-343 | Shutdown is published under the lock and wakes every sleeper. |
| WorkerPoolSafety.StepKeepsInv | src/util/ds4_util.c:256-389 | Every lock-held block and every entry to and exit from fn, by any thread, keeps the invariant of the barrier. |
| WorkerPoolSafety.RunKeepsInv | src/util/ds4_util.c:256-389 | The invariant holds in every state of every run, over any number of pool lifetimes. |
| WorkerPoolSafety.ReturnedCallIsComplete | src/util/ds4_util.c:357-389 | When a call returns nothing still runs, every invocation carried its own fn and ctx, and each row was handed out exactly once if and only if the row sum does not wrap. |
| WorkerPoolSafety.CallHandsEachRowOnce | src/util/ds4_util.c:357-389 | The same for whole runs, from the step that published the job to the return. |
| WorkerPoolSafety.RowsNeverRepeated | src/util/ds4_util.c:277-285 | At no moment of a call has a row been handed out twice, or a row beyond the job. |
| WorkerPoolSafety.NestedCallIsInline | src/util/ds4_util.c:360-363 | A call made from inside fn runs inline on its own thread, any other exactly when there is one thread or too few rows. |
| WorkerPoolSafety.GenerationsInStep | src/util/ds4_util.c:260-275 | A worker has taken every generation or all but the latest, and holds the job of its own generation: none is skipped, repeated or mixed. |
| WorkerPoolSafety.GenerationStep | src/util/ds4_util.c:370 | The 32-bit generation counter may wrap; consecutive generations still differ. |
| WorkerPoolSafety.NeverStuck | src/util/ds4_util.c:256-389 | No wakeup is lost: while a call or a shutdown is in progress some step other than a spurious wakeup is enabled. |
| WorkerPoolSafety.WorkLowersRank | src/util/ds4_util.c:256-389 | Every such step lowers a rank, and a spurious wakeup raises it by at most one. |
| WorkerPoolSafety.BusyRunIsBounded | src/util/ds4_util.c:256-389 | So every call and every shutdown returns under every schedule, within rank plus twice the number of spurious wakeups. |
| WorkerPoolSafety.ShutdownExitsAll | src/util/ds4_util.c:336-353 | When the pool is destroyed every worker has exited, with no work left. |
| ByteEncoding.Utf8RoundTrip | src/tokenizer/ds4_tokenizer.c:129-145 | Decoding undoes encoding for every code point that up to four bytes can carry, whatever follows. |
| ByteEncoding.CodepointBijection | src/tokenizer/ds4_tokenizer.c:147-161 | The two directions of the byte map are inverse to each other. |
| ByteEncoding.Gpt2ByteToCodepoint | src/tokenizer/ds4_tokenizer.c:147-161 | The loop computes the map from bytes to code points. |
| ByteEncoding.Gpt2CodepointToByte | src/tokenizer/ds4_tokenizer.c:654-668 | The loop computes the inverse, and -1 exactly for code points that no byte maps to. |
| ByteEncoding.ByteEncode | src/tokenizer/ds4_tokenizer.c:165-175 | The encoder loop computes the encoding of the whole string. |
| ByteEncoding.DecodeEncode | src/tokenizer/ds4_tokenizer.c:165-175 | Decoding the encoding of any byte string, NULs and malformed UTF-8 included, gives it back. |
| ByteEncoding.EncodedBytes | src/tokenizer/ds4_tokenizer.c:165-175 | Encoded text holds no space and no byte above 0xC5. |
| StrTable.StrI32Table.Put | src/tokenizer/ds4_tokenizer.c:54-70 | Inserting or overwriting refines the update of a finite map, while fewer keys are stored than the table was sized for. |
| StrTable.StrI32Table.Get | src/tokenizer/ds4_tokenizer.c:72-90 | A lookup returns the last value put for the key, or nothing. |
| StrTable.StrI32Table.Probe | src/tokenizer/ds4_tokenizer.c:56-66 | Probing stops at the key or at a free slot, because a free slot always remains. |
| StrTable.NextPow2 | src/tokenizer/ds4_tokenizer.c:37-41 | The least power of two that is large enough. |
| Vocabulary.VocabLoad | src/tokenizer/ds4_tokenizer.c:472-512 | The two tables hold for every token its last index and for every merge its last rank; the control tokens are found by their texts. |
| Vocabulary.LookUpAll | src/tokenizer/ds4_tokenizer.c:462-470 | A missing required text is the only reason to give up. |
| Bpe.BestPairIsLeast | src/tokenizer/ds4_tokenizer.c:238-249 | The scan finds the leftmost mergeable pair of least rank, and none exactly when no pair can be merged. |
| Bpe.MergeAllResult | src/tokenizer/ds4_tokenizer.c:237-265 | Merging never changes the bytes and stops only when no adjacent pair can be merged. |
| Bpe.FindBest | src/tokenizer/ds4_tokenizer.c:238-247 | The inner loop computes that scan through the string tables. |
| Bpe.MergeInPlace | src/tokenizer/ds4_tokenizer.c:251-264 | The two symbols are replaced by their concatenation and the rest moves up by one. |
| Bpe.MergeSymbols | src/tokenizer/ds4_tokenizer.c:237-265 | The loop over the symbol array ends with the fully merged symbols. |
| Bpe.SplitInto | src/tokenizer/ds4_tokenizer.c:222-235 | The encoded piece is cut into its characters, a truncated one counting one byte. |
| Bpe.EmitPiece | src/tokenizer/ds4_tokenizer.c:218-283 | A piece appends exactly its tokens. |
| Bpe.LookUpRank | src/tokenizer/ds4_tokenizer.c:201-216 | The rank of a pair is looked up under its two halves with a space between. |
| TokenLaws.EncodingOfByte | src/tokenizer/ds4_tokenizer.c:129-161 | The bytes that stand for each byte, written out: itself from 33 to 126, and two bytes otherwise. |
| TokenLaws.RankIsPosition | src/tokenizer/ds4_tokenizer.c:201-216 | Two symbols have rank r exactly when the last merge of the list that names them, with a space between, is number r; they can be merged exactly when one does. |
| TokenLaws.MergesLeastFirst | src/tokenizer/ds4_tokenizer.c:237-265 | Merging joins the leftmost of the pairs of least rank and goes on, and changes nothing when no pair can be merged. |
| TokenLaws.TokenOfSymbol | src/tokenizer/ds4_tokenizer.c:267-271 | A symbol that is a token gives its id. |
| TokenLaws.FallbackOfSymbol | src/tokenizer/ds4_tokenizer.c:272-278 | A symbol that is no token gives, in order, the ids of those of its bytes that are tokens by themselves. |
| TokenLaws.SymbolsInOrder | src/tokenizer/ds4_tokenizer.c:267-280 | Symbols are looked up one behind the other. |
| TokenLaws.PieceTokensAre | src/tokenizer/ds4_tokenizer.c:218-283 | The tokens of a piece: the encodings of its single bytes, merged, and looked up. |
| PreTokenizer.NextCuts | src/tokenizer/ds4_tokenizer.c:399-455 | The ten branches give the ends of the next piece or two, which are those of PieceShapes.CutsExactly. |
| PreTokenizer.BpeTokenizeText | src/tokenizer/ds4_tokenizer.c:395-458 | The loop appends the tokens of all pieces in order, the pieces being those of PieceShapes.PiecesExactly. |
| PreTokenizer.PiecesPartition | src/tokenizer/ds4_tokenizer.c:395-458 | Every text is the concatenation of its pieces, and no piece is empty. |
| PreTokenizer.TextRoundTrip | src/tokenizer/ds4_tokenizer.c:395-458 | With a closed vocabulary, tokenizing any byte string and detokenizing it gives it back. |
| PreTokenizer.ConsumeBlanks | src/tokenizer/ds4_tokenizer.c:435-450 | A run of blanks is cut behind its last newline, if it has one. |
| PieceShapes.CutsExactly | src/tokenizer/ds4_tokenizer.c:399-455 | At every place of every text the ends of a step are those of the one alternative that fits, said of the bytes alone: up to three digits and fewer only before no digit; whole CJK characters; a mark and all letters behind it; one other character or a blank and all letters; all punctuation and all newlines behind it; a whole run of blanks, cut behind its last newline; one character. Nothing else is. |
| PieceShapes.PiecesExactly | src/tokenizer/ds4_tokenizer.c:395-458 | The pieces of a text are these matches one behind the other, and no other list is. |
| PieceShapes.MatchOnce | src/tokenizer/ds4_tokenizer.c:399-455 | At no place do two lists of ends match. |
| PieceShapes.AsciiClasses | src/tokenizer/ds4_tokenizer.c:293-315 | Letters, digits, blanks, newlines and punctuation among the ASCII bytes. |
| PieceShapes.CjkByCodePoint | src/tokenizer/ds4_tokenizer.c:317-374 | A whole character beyond ASCII is a letter, and CJK, hiragana or katakana by its code point alone. |
| BlankRuns.CutsAgree | src/tokenizer/ds4_tokenizer.c:435-450 | The one or two cuts of a step are the matches of the pattern in the comment exactly under a condition on the ends of the run of blanks. |
| BlankRuns.PatternExactly | src/tokenizer/ds4_tokenizer.c:380-387 | All pieces of a text are the matches of the pattern exactly when every run of blanks meets that condition; for the other alternatives the pattern takes the matches of PieceShapes.CutsExactly. |
| BlankRuns.BlanksDiffer | src/tokenizer/ds4_tokenizer.c:435-450 | Two blanks and a letter do not: the code keeps the blanks together, the pattern gives one to the letter. |
| Detokenizer.VocabTokenText | src/tokenizer/ds4_tokenizer.c:679-706 | The text of a token: literal for control texts, decoded otherwise, empty for an id out of range. |
| Detokenizer.IsLiteralSpecial | src/tokenizer/ds4_tokenizer.c:670-677 | Whether the three bytes of U+FF5C occur anywhere. |
| TokenLaws.HasBarExactly | src/tokenizer/ds4_tokenizer.c:670-677 | They occur exactly when one of the suffixes of the text begins with them. |
| Detokenizer.NoBarInEncoding | src/tokenizer/ds4_tokenizer.c:670-677 | Byte-encoded text never contains them. |
| Detokenizer.MergeSegments | src/tokenizer/ds4_tokenizer.c:237-265 | Merged symbols still encode consecutive segments of the same bytes. |
| Detokenizer.PieceRoundTrip | src/tokenizer/ds4_tokenizer.c:218-283 | With a closed vocabulary the tokens of a piece spell the piece. |
| ControlTokens.CutsClean | src/tokenizer/ds4_tokenizer.c:395-458 | No piece of any text holds three ASCII letters in front of a `>`. |
| ControlTokens.LetterBeforeGtHappens | src/tokenizer/ds4_tokenizer.c:345-366 | One ASCII letter in front of a `>` does occur, behind a stray lead byte: a concrete text. |
| LetterRuns.LetterBeforeGtExactly | src/tokenizer/ds4_tokenizer.c:395-458 | Some piece holds a letter in front of a `>` if and only if one character of the text, as the splitter steps over them, holds both bytes. |
| LetterRuns.CutsJoined | src/tokenizer/ds4_tokenizer.c:395-458 | Whatever branch is taken, pieces end where characters end, and no character inside a piece begins with a `>` behind a letter. |
| LetterRuns.NeverInWholeChars | src/tokenizer/ds4_tokenizer.c:395-458 | So it never happens when no byte below 128 lies inside a multi-byte character. |
| LetterRuns.NeverInEncoded | src/tokenizer/ds4_tokenizer.c:395-458 | And never in the encoding of any sequence of code points. |
| ControlTokens.PieceNeverControl | src/tokenizer/ds4_tokenizer.c:218-283 | Byte pair encoding a clean piece never emits one of the seven control ids. |
| ControlTokens.TextNeverControl | src/tokenizer/ds4_tokenizer.c:395-458 | For every vocabulary and every text, tokenizing the text never emits one of them. |
| ChatTokenizer.EncodeChatPrompt | src/tokenizer/ds4_tokenizer.c:524-545 | The prompt is the pushed control ids with the tokens of the system and user texts between them. |
| ChatTokenizer.RoleBoundaries | src/tokenizer/ds4_tokenizer.c:524-545 | The control ids in a prompt are exactly those pushed, in those places: no text can add, move or forge one. |
| ChatTokenizer.SpecialTokenAt | src/tokenizer/ds4_tokenizer.c:547-570 | The first of the seven control texts that stands at this place, the end of the text included. |
| ChatTokenizer.TokenizeRenderedChat | src/tokenizer/ds4_tokenizer.c:581-602 | The scan appends the tokens of the plain spans and the ids of the control texts between them; which these are is RenderedChat.PartsExactly. |
| ChatTokenizer.PartsCover | src/tokenizer/ds4_tokenizer.c:581-602 | The spans and control texts spell the whole text. |
| ChatTokenizer.ChatRoundTripFor | src/tokenizer/ds4_tokenizer.c:581-602 | For any control texts of the right form, concatenating the token texts of a rendered chat gives the chat back. |
| ChatTokenizer.ChatRoundTrip | src/tokenizer/ds4_tokenizer.c:581-706 | In particular for the texts of the source, every byte string and every closed vocabulary. |
| RenderedChat.PartsExactly | src/tokenizer/ds4_tokenizer.c:581-602 | With slices alone: the parts of a chat are those cut at the leftmost control texts that do not overlap, the first of the list where several stand; no plain part has a control text begin in it, and no other list of parts is such a cut. |
| RenderedChat.ChatIsSplit | src/tokenizer/ds4_tokenizer.c:581-602 | The tokens of a chat are those of such a cut. |
| RenderedChat.ChatConcat | src/tokenizer/ds4_tokenizer.c:581-602 | For any seven texts: if none begins inside a, and none before number k begins where that one stands, a + text k + b gives the tokens of a, id k, and the tokens of b; those of a are those of plain text. |
| RenderedChat.ChatConcatControl | src/tokenizer/ds4_tokenizer.c:547-602 | For the control texts of the source no condition on the list is left, because none of them begins another. |
| RenderedChat.PromptCarriesTexts | src/tokenizer/ds4_tokenizer.c:524-545 | A built prompt is BOS, ids that spell the reasoning prefix and the system text, the user id, ids that spell the prompt, the assistant id and a think tag, with no control id among the spelling ones. |
| WeightedFit.SquaredErrorQuadratic | gguf-tools/quants.c:173-178 | The weighted squared error is a quadratic in scale and offset with the six running sums as coefficients. |
| WeightedFit.Chebyshev | gguf-tools/quants.c:155-168 | For comonotone values and codes and nonnegative weights the covariance is nonnegative, and positive as soon as the determinant is. |
| WeightedFit.ErrorBound | gguf-tools/quants.c:141-148 | No element missed by more than h bounds the error by the weight times h, or h squared. |
| WeightedFit.ErrorIs | gguf-tools/quants.c:141-148 | The error of a line is the sum of weight times distance, or of weight times squared distance, over the elements. |
| WeightedFit.NearestIntError | gguf-tools/quants.c:111-117 | Rounding moves a value by at most one half, and ties go to the even number. |
| WeightedFit.NearestIntMonotone | gguf-tools/quants.c:111-117 | Rounding is monotone. |
| QuantSearch.MakeQkx2Quants | gguf-tools/quants.c:119-189 | The search in place returns the scale, offset and codes of the specified search. |
| QuantSearch.MakeQkx3Quants | gguf-tools/quants.c:191-263 | The search in place returns the scale, offset and codes of the specified search, with squared values as weights when none are given. |
| QuantSearch.FitLineSigns | gguf-tools/quants.c:165-172 | Every candidate has a positive scale, and an offset that is never positive, also in the branch that clamps it. |
| QuantSearch.TryKeepsGood | gguf-tools/quants.c:153-186 | A step keeps scale at least zero, offset at most zero and the recorded error that of the current codes and line. |
| QuantSearch.LowIs | gguf-tools/quants.c:122-132 | The least value that the search starts from is zero or one of the values. |
| QuantSearch.InitialErrorBound | gguf-tools/quants.c:139-148 | The first division has error at most sum_w times ((max - min) / (2 nmax)), squared unless the absolute error is used. |
| QuantSearch.RunErrorBound | gguf-tools/quants.c:139-188 | So has the result, after any number of steps. |
| QuantSearch.RunIsBestTried | gguf-tools/quants.c:173-184 | No candidate line that was tried beats the result. |
| QuantSearch.ResultBeatsStep | gguf-tools/quants.c:153-184 | Whatever codes step j tries, those of steps of which (rmin + rdelta * j + nmax) / (max - min) make up one: the result is at least as good as their least-squares line, and with squared errors as every line with an offset that is not positive. |
| QuantSearch.ChangeIsProgress | gguf-tools/quants.c:180-186 | A step either leaves everything as it is or strictly lowers the error. |
| QuantSearch.FitLineIsOptimal | gguf-tools/quants.c:165-172 | A candidate is the least-squares line of its codes among all lines whose offset is not positive. |
| QuantSearch.ResultIsLeastSquares | gguf-tools/quants.c:119-189 | With squared errors, once a candidate was taken the result is the least-squares line of its codes. |
| QuantSearch.FlatBlockIsExact | gguf-tools/quants.c:133-138 | The early return is exact: scale zero and zero codes reproduce the block. |
| QpSearch.MakeQpQuants | gguf-tools/quants.c:265-329 | For values and weights of any sign the search in place returns the stored codes and the ratio of the running sums of the specified search, with codes that wrap; for nonnegative ones these are the specified codes in range and their least-squares scale. |
| QpSearch.FoundIsResult | gguf-tools/quants.c:265-329 | For nonnegative values and weights nothing wraps and the running sums stay those of the stored codes, through all moves and sweeps. |
| QpSearch.CodesInRange | gguf-tools/quants.c:297-304 | For nonnegative values every code lies in 0..nmax and survives storing. |
| QpSearch.CodesFitExactly | gguf-tools/quants.c:297-304 | The codes lie in 0..nmax and survive storing if and only if no scaled value is below minus one half. |
| QpSearch.NegativeValueWraps | gguf-tools/quants.c:893 | They do not for a group of 32 with one value of -1 and the rest 1, at nmax 4: the code -4 is stored as 252. |
| QpSearch.CodeUpdate | gguf-tools/quants.c:308-323 | The two running sums stay the weighted sums over the current codes. |
| QpSearch.MoveLowers | gguf-tools/quants.c:311-323 | Every accepted move strictly lowers the least error that the codes can reach with any scale. |
| QpSearch.DescentLowers | gguf-tools/quants.c:305-327 | The descent keeps codes in range and never raises that error. |
| QpSearch.UnchangedIsSettled | gguf-tools/quants.c:326 | A sweep without changes leaves no acceptable single move. |
| QpSearch.ScaleIsOptimal | gguf-tools/quants.c:328 | The returned scale is the least-squares scale of the returned codes. |
| QpSearch.PickIsLeast | gguf-tools/quants.c:272-295 | The chosen step has the least error of the grid. |
| QpSearch.ResultBeatsGrid | gguf-tools/quants.c:265-329 | The result beats every grid scale together with its own codes. |
| QpSearch.ResultBeatsStep | gguf-tools/quants.c:272-295 | For every step from -4 to 4, zero included, the result is at least as good as the codes of scale max / (0.1 * step + nmax) with that scale. |
| QpSearch.MoveExactly | gguf-tools/quants.c:310-323 | Visiting an element takes its nearest code for the least-squares scale of all the others exactly when that strictly lowers the least error the codes can reach. |
| QpSearch.ResultIsFiveSweeps | gguf-tools/quants.c:296-327 | The result is what five sweeps make of the codes of one of those steps, though the loop stops early. |
| Binary32.PowerBitsValue | gguf-tools/deepseek4-quantize.c:1748 | The pattern that ldexpf(1, k) returns, for every exponent the line can reach: the power itself down to 2^-149 and zero below. Nvfp4.ScaleCodeValue says what scale byte it becomes. |
| E4m3.DecodersAgree | src/quant/ds4_quant.c:230-243 | The runtime table, the offline decoder and the device decoder read every code but NaN as the same number. |
| E4m3.Dequant | src/quant/ds4_quant.c:245-270 | The binary search returns the nearest value, ties to the even code, saturating at 448, with the sign of the input. |
| E4m3.RoundedToNearest | src/quant/ds4_quant.c:245-270 | Whichever code is the nearest even one to the clamped magnitude, its value with the sign of x is what the search returns: there is no second candidate. |
| E4m3.EncoderMonotone | gguf-tools/deepseek4-quantize.c:1662-1689 | The bit-level encoder is monotone over all nonnegative patterns, infinity and NaN included, and never gives the NaN code. |
| E4m3.EncoderIsNearest | gguf-tools/deepseek4-quantize.c:1662-1689 | From 2^-6 up it picks the nearest even code, saturating at 448. |
| E4m3.EncoderMatchesRuntime | gguf-tools/deepseek4-quantize.c:1662-1689 | So from 2^-6 up, for either sign, it decodes to what the runtime rounds the same value to. |
| E4m3.EncoderBelowNormal | gguf-tools/deepseek4-quantize.c:1670-1677 | Below 2^-6 it is nearest-even exactly for the values named: it flushes below 2^-9, breaks ties upwards and stops at 7. |
| E4m3.BelowNormalDiffers | gguf-tools/deepseek4-quantize.c:1659-1677 | Three floats that are not rounded to nearest even: 0.75, 2.5 and 7.5 units of 2^-9 give the codes 0, 3 and 7. |
| E4m3.EncoderMatchesExactly | gguf-tools/deepseek4-quantize.c:1662-1689 | For every finite float of either sign, the encoded byte decodes to what the runtime rounds the float to if and only if the float is at least 2^-6 or one of the smaller values that the encoder rounds right. |
| E4m3.InfinityMatchesRuntime | gguf-tools/deepseek4-quantize.c:1679-1680 | Both infinities saturate to 448 with their sign, as the runtime saturates everything from 448 up. |
| E4m3.EncodeDecoded | gguf-tools/deepseek4-quantize.c:1662-1689 | Any float pattern with the value of a code encodes to that code. |
| E4m3.ByteRoundTrip | gguf-tools/deepseek4-quantize.c:1662-1689 | Each byte that is not NaN decodes to a float, given by a function, and encoding that float gives the byte back if and only if the byte is not 0x80, negative zero. |
| KvQuant.QuantizeRow | src/quant/ds4_quant.c:275-292 | The in-place loop quantises block after block of 64 and leaves the rotary tail alone. |
| KvQuant.QuantizeBlock | src/quant/ds4_quant.c:277-291 | One block: the least power of two that brings the floored maximum to at most 448, then rounding. |
| KvQuant.ExponentBounds | src/quant/ds4_quant.c:283-284 | The scale covers the block and is the least that covers the floored maximum. |
| KvQuant.SecondExponent | src/quant/ds4_quant.c:283-284 | A second pass uses the same scale, or half of it when rounding lowered the maximum. |
| KvQuant.BlockIdempotent | src/quant/ds4_quant.c:277-291 | Quantising a block twice is quantising it once. |
| KvQuant.RowIdempotent | src/quant/ds4_quant.c:275-292 | The same for every row, with no condition on its values. |
| KvQuant.RowElement | src/quant/ds4_quant.c:275-292 | Every element of a row becomes a signed code times the scale of its block of 64, the least power of two whose 448-fold covers the largest magnitude and 0.0001, and no other code is closer to it. |
| Nvfp4Lanes.X2IsTwiceFp4 | src/gpu/ds4_cuda_common.h:717-725 | The doubled value is twice the table entry for all sixteen nibbles. |
| Nvfp4Lanes.UnpackIsElementwise | src/gpu/ds4_cuda_common.h:727-742 | The eight-at-once unpacking gives the doubled values of the eight nibbles in element order. |
| Nvfp4.KmaxFromE8m0 | gguf-tools/deepseek4-quantize.c:1647-1655 | The largest exponent, but never below zero. |
| Nvfp4.E8m0Value | gguf-tools/deepseek4-quantize.c:657-662 | A scale byte of 1 to 254 is two to its exponent. |
| Nvfp4.ScaleCodeValue | gguf-tools/deepseek4-quantize.c:1747-1751 | Stored scale times scale_2 is the source scale within 17 octaves of the maximum and zero beyond. |
| Nvfp4.RepackedWeight | gguf-tools/deepseek4-quantize.c:1741-1753 | A repacked weight equals its source if and only if its nibble is a zero or its scale lies within those 17 octaves. |
| Nvfp4Blocks.GenerateExpert | gguf-tools/deepseek4-quantize.c:1691-1759 | The bytes written, in 144-byte blocks of nibbles and scales, or nothing when a shape does not fit. |
| Nvfp4Blocks.WriteBlock | gguf-tools/deepseek4-quantize.c:1742-1752 | One block: 128 nibble bytes and 16 scales, each source scale twice. |
| Nvfp4Blocks.RepackLossless | gguf-tools/deepseek4-quantize.c:1691-1759 | For every expert shape, every weight the reader decodes equals the source weight exactly under that condition. |
| Nvfp4Blocks.AllColumnsCovered | gguf-tools/deepseek4-quantize.c:1718 | Every column lies in a block exactly when their number is a multiple of 256. |
| Nvfp4Blocks.ExpertScale2 | gguf-tools/deepseek4-quantize.c:1797-1802 | The separately computed scale_2 is that of the blocks. |
| Nvfp4Blocks.DotBlock | src/gpu/ds4_cuda_common.h:756-776 | The dot product with its four-way integer products and factor one half is the plain sum of weight times activation. |
| Nvfp4Blocks.SubBlockSum | src/gpu/ds4_cuda_common.h:764-772 | The integer sum of one sub-block. |
| Pooling.PoolCandidates | src/gpu/ds4_cuda_compressor.cuh:117-124 | The division of the sums over the candidates is their softmax mean. |
| Pooling.SilentPrefix | src/gpu/ds4_cuda_compressor.cuh:117-123 | Candidates of zero weight in front change nothing. |
| Pooling.PoolIsSoftmax | src/gpu/ds4_cuda_compressor.cuh:117-125 | For every positive exponential with exp(a + b) = exp(a) exp(b) the pooled value times the sum of exp(score) is the sum of value times exp(score), over the candidates with finite scores; it is zero without any. |
| Compressor.BoundaryCands | src/gpu/ds4_cuda_compressor.cuh:126-165 | At a window boundary the rolling state pools the candidates of the batch row. |
| Compressor.DecodeMatchesBatch | src/gpu/ds4_cuda_dispatch2.cuh:217-298 | Decoding from any state that follows the first a tokens pools every later window like the batch. |
| Compressor.RollingMatchesBatch | src/gpu/ds4_cuda_dispatch2.cuh:217-298 | From a cleared state, token by token, every window pools to exactly the batch row, for ratio 4 with its overlap and for every other ratio. |
| Compressor.PrefillFollows | src/gpu/ds4_cuda_dispatch2.cuh:299-410 | A prefill leaves the state that decoding the same tokens would have left. |
| Compressor.PrefillThenDecode | src/gpu/ds4_cuda_dispatch2.cuh:299-410 | Prefilling any number of tokens and decoding the rest gives the rows of one batch. |
| Compressor.ReplayMatchesBatch | src/gpu/ds4_cuda_dispatch2.cuh:411-493 | Replaying from any window boundary up to any token gives the rows of the whole batch. |
| Compressor.ReplayFollows | src/gpu/ds4_cuda_dispatch2.cuh:411-493 | The state after a replay of whole windows follows all tokens so far, those before the replay included. |
| Compressor.ReplayThenDecode | src/gpu/ds4_cuda_dispatch2.cuh:411-493 | So decoding on after a replay gives the rows of the one whole batch. |
| Compressor.ReplayThenReplay | src/gpu/ds4_cuda_dispatch2.cuh:411-493 | And so does another replay. |
| Compressor.QuietPrevious | src/gpu/ds4_cuda_compressor.cuh:82-97 | In row 0 a cleared previous window has no weight, so it pools like the batch that leaves it out. |
| CompressorKernels.StoreKernel | src/gpu/ds4_cuda_compressor.cuh:6-30 | A token is stored in the row of its position modulo the ratio, with its score offset added. |
| CompressorKernels.SetRowsKernel | src/gpu/ds4_cuda_compressor.cuh:32-57 | Copies tokens into consecutive rows. |
| CompressorKernels.ShiftKernel | src/gpu/ds4_cuda_compressor.cuh:167-177 | The current window becomes the previous one as well. |
| CompressorKernels.UpdatePoolKernel | src/gpu/ds4_cuda_compressor.cuh:127-168 | Every column of the row pooled from the state, as the softmax mean of its cells; nothing else is written. |
| CompressorKernels.PrefillPoolKernel | src/gpu/ds4_cuda_compressor.cuh:57-125 | All rows and columns pooled from the tokens, each as the softmax mean of its cells. |
| CompressorKernels.DecodeToken | src/gpu/ds4_cuda_dispatch2.cuh:217-298 | Storing, pooling at a boundary and shifting is one step of the specification. |
| CompressorKernels.Prefill | src/gpu/ds4_cuda_dispatch2.cuh:299-410 | The launches of a prefill write the batch rows and leave the specified state. |
| CompressorKernels.ClearState | src/gpu/ds4_cuda_compressor.cuh:1-4 | Clearing gives a previous window of zero weight. |
| CompressorCells.StateCandsExactly | src/gpu/ds4_cuda_compressor.cuh:142-160 | The cells that the update kernel pools into column d, by their offsets: rows of the state at r * width + d, and for ratio 4 the four behind at r * width + head_dim + d. |
| CompressorCells.BatchCandsExactly | src/gpu/ds4_cuda_compressor.cuh:76-116 | The cells that the prefill kernel pools into column d of a row: the tokens of its window, for ratio 4 of the second head behind the first head of the window before, from the state in row 0 of a replay. |
| CompressorCells.StateRowIsSoftmax | src/gpu/ds4_cuda_compressor.cuh:127-168 | A row pooled from the state is the softmax mean of these cells. |
| CompressorCells.BatchRowIsSoftmax | src/gpu/ds4_cuda_compressor.cuh:57-125 | So is a row pooled from the tokens. |
| CompressorKernels.FusedEmitRow | src/gpu/ds4_cuda_compressor.cuh:218-221 | The fused kernel emits exactly at window ends, into the row numbered like the window. |
| TensorSpans.CacheTensorSpans | src/core/ds4.c:186-235 | The routine succeeds exactly when every range is accepted and every tensor lies in the file; it caches the planned chunks in order. |
| TensorSpans.AbsorbSpans | src/core/ds4.c:210-213 | The inner merging loop. |
| TensorSpans.PlanCovers | src/core/ds4.c:206-231 | Every byte of every tensor is cached. |
| TensorSpans.EveryTensorCached | src/core/ds4.c:186-235 | The same for the tensor directory itself. |
| TensorSpans.PlanBridges | src/core/ds4.c:210 | Nothing else is cached but gaps of at most 64 KiB between tensors. |
| SpanGroups.PlanExactly | src/core/ds4.c:199-231 | The chunks are those of maximal groups, and nothing else is: a span joins its group exactly when it begins at most 65536 bytes behind the highest end so far and ends within the limit, and every group is cut into pieces of the limit and a last one. |
| TensorSpans.DirectoryBounds | src/core/ds4.c:202-235 | For every directory inside the file no chunk is empty, longer than max_span or outside the file. |
| TensorSpans.DisjointExactly | src/core/ds4.c:202-235 | For any sorted spans the chunks do not overlap if and only if no merged span reaches into the span where merging stopped. |
| TensorSpans.DirectoryDisjoint | src/core/ds4.c:186-235 | In particular they do not for a directory whose tensors do not overlap. |
| TensorSpans.OverlapCachesTwice | src/core/ds4.c:174-184 | With overlapping tensors they may, also at the least span size of 64 MiB: a concrete directory. |
| TensorSpans.TotalIsBytes | src/core/ds4.c:227 | For disjoint chunks the total is the number of bytes they cover. |
| TensorSpans.CachedIsExact | src/core/ds4.c:186-235 | For every directory inside the file the reported total is the number of bytes cached if and only if no merged span reaches into the next one; it always is when the tensors do not overlap. |
| TagFilter.ChunksDoNotMatter | src/cli/ds4_cli.c:375-419 | However a stream is cut, the events and every field are those of the whole stream at once. |
| TagFilter.ProcessSplit | src/cli/ds4_cli.c:375-419 | Two chunks are one chunk. |
| TagFilter.ScanSplit | src/cli/ds4_cli.c:386-417 | Scanning x and then b, with what x left pending in front, is scanning both at once. |
| TagFilter.ProcessKeeps | src/cli/ds4_cli.c:404-411 | Pending text is a proper prefix of a tag that fits its buffer, and grey is on only inside a thought. |
| TagFilter.FinishedOutput | src/cli/ds4_cli.c:421-427 | Finishing after any chunks is one scan that holds nothing back. |
| TagFilter.FinishedPaints | src/cli/ds4_cli.c:345-427 | However a text is cut, once it is finished the bytes written are the text without its tags, with a newline behind a closing tag that is not at the start of a line, and grey is on for exactly the bytes of thoughts. |
| TagFilter.SeenSpan | src/cli/ds4_cli.c:386-417 | What stands in front of the first tag is seen byte by byte. |
| TagFilter.TokenPrinter.ProcessText | src/cli/ds4_cli.c:375-419 | The loop over the buffer computes that scan. |
| TagFilter.TokenPrinter.FinishText | src/cli/ds4_cli.c:421-427 | Finishing empties the pending text and resets the colour. |
| KBlocks.Q2RoundTrip | gguf-tools/quants.c:579-584 | Unpacking the four codes of every byte gives the packed codes back. |
| KBlocks.Q4RoundTrip | gguf-tools/quants.c:427-431 | The same for the nibbles of Q4_K. |
| KBlocks.ScalesRoundTrip | gguf-tools/quants.c:331-339 | Both halves of the packed 6-bit scales and minima are read back. |
| KBlocks.Q2Layout | gguf-tools/quants.c:579-584 | Code 128 h + 32 k + l stands in bits 2 k and 2 k + 1 of byte 32 h + l. |
| KBlocks.Q4Layout | gguf-tools/quants.c:427-431 | Codes 64 g + l and 64 g + 32 + l are the low and the high nibble of byte 32 g + l. |
| KBlocks.ScalesLayout | gguf-tools/quants.c:394-408 | The low six bits of bytes 0 to 7 hold four scales and four minima, bytes 8 to 11 the low nibbles of the others, whose high bits top bytes 0 to 7. |
| KBlocks.PackQ2Codes | gguf-tools/quants.c:579-584 | The packing loop of the Q2_K writer. |
| KBlocks.PackQ4Codes | gguf-tools/quants.c:427-431 | The packing loop of the Q4_K writer. |
| KBlocks.PackScales | gguf-tools/quants.c:394-408 | The scale packing loop of the Q4_K writer. |
| KDots.DotQ2 | src/quant/ds4_quant.c:421-457 | For every number of blocks the Q2_K kernel is the sum of (d sc code - dmin m) y.d q8 over all elements. |
| KDots.DotQ4 | src/quant/ds4_quant.c:559-589 | The same for Q4_K, with its packed scales and cached sums. |
| KDots.FastIsSimple | src/quant/ds4_quant.c:421-457 | Two integer sums and two products give the plain dot product. |
| KDots.SumsFit | src/quant/ds4_quant.c:421-457 | No prefix of either integer sum leaves 32 bits. |
| KWriters.WriteQ2Ref | gguf-tools/quants.c:528-585 | The writer from its sixteen searches to the packed block: with the magnitudes as weights each group of s is what the search finds for the values and weights of that group, with an error within half a step of the even division; every scale and minimum fits four bits and every code two. |
| KWriters.WriteQ2Weighted | gguf-tools/quants.c:587-639 | The same for the weighted writer, with the given weights; scales, minima and the two block scales are those of the coordinate descent over the weight sums of the groups. |
| KWriters.KernelReads2 | src/quant/ds4_quant.c:421-457 | For every number of written blocks the value of the Q2_K kernel is the plain dot product of the arrays of the writer. |
| KWriters.WriteQ4Ref | gguf-tools/quants.c:369-432 | The Q4_K writer: with av plus the magnitude as weights each group of s is what the search finds for the values and weights of that group, with an error within half a step of the even division; every scale and minimum fits six bits and every code four, packed with their high bits spread. |
| KWriters.WriteQ4Weighted | gguf-tools/quants.c:434-504 | The same for the weighted writer, with the given weights. |
| KWriters.KernelReads4 | src/quant/ds4_quant.c:559-589 | The same for the Q4_K kernel. |
| KWriters.UnitsFit | gguf-tools/quants.c:394-398 | A scale between zero and the largest one becomes a number between 0 and n. |
| KWriters.SearchGroups | gguf-tools/quants.c:540-548 | For every group the codes, scale and minimum are the search result on the values and weights of that group alone: zero for values without range, otherwise the state after all steps, with its error bound. |
| KWriters.UnitsNearest | gguf-tools/quants.c:394-398 | The rounded scale is off by at most half a unit of the largest one over n. |
| KWriters.CodesAreNearest | gguf-tools/quants.c:569-577 | With the rounded scales no code stands for a value closer to its element than the one stored; a group whose rounded scale is zero keeps the codes of its search. |
| KWriters.WeightSumsAre | gguf-tools/quants.c:603-605 | The weight of a group is the sum over the weights of that group. |
| KDots.Q2MinSum | src/quant/ds4_quant.c:428-431 | The minima against the cached sums. |
| KDots.Q2ScaleSum | src/quant/ds4_quant.c:436-453 | The scaled codes. |
| KDots.Q4MinSum | src/quant/ds4_quant.c:568-574 | The minima against pairs of cached sums. |
| KDots.Q4ScaleSum | src/quant/ds4_quant.c:575-585 | The scaled nibbles. |
| KDots.QuantizeQ8 | src/quant/ds4_quant.c:298-336 | The activation block: codes within 127, cached sums of 16, and an error of at most half a step each. |
| KDots.GroupSums | src/quant/ds4_quant.c:328-332 | The cached sums are the sums of their groups. |
| Iq2Grid.GridIncreasing | gguf-tools/quants.c:698-715 | The 256 grid codes are strictly increasing and fit the map. |
| Iq2Index.CodeOfDigits | gguf-tools/quants.c:722-731 | The code of a number's digits is the number. |
| Iq2Index.CodeFitsMap | gguf-tools/quants.c:906-913 | A tuple of digits up to two indexes the map. |
| Iq2Index.ScanIsTwoShells | gguf-tools/quants.c:748-756 | The scan over sorted distances stops exactly behind the two nearest shells. |
| Iq2Build.BuildIndex | gguf-tools/quants.c:717-794 | The first pass predicts exactly the space that the second fills. |
| Iq2Build.CountSpace | gguf-tools/quants.c:734-757 | The counting pass. |
| Iq2Build.FillLists | gguf-tools/quants.c:761-787 | The filling pass. |
| Iq2Build.NeighboursAreShells | gguf-tools/quants.c:762-787 | The list of a tuple holds exactly the grid points of its two nearest shells. |
| Iq2Build.ListOfEntry | gguf-tools/quants.c:773-786 | Every negative map entry leads to a list that is not empty. |
| Iq2Search.FindBestNeighbour | gguf-tools/quants.c:796-820 | A point of the list with the least weighted error, and its tuple. |
| Iq2Search.SnapTuple | gguf-tools/quants.c:906-922 | A tuple becomes the rounded one where that is allowed, and otherwise an allowed tuple of the two nearest shells with the least weighted error. |
| Iq2Search.DigitIsNearest | gguf-tools/quants.c:908-911 | No other digit has a level closer to the scaled value. |
| Iq2Search.SearchGroup | gguf-tools/quants.c:901-965 | The thirteen steps try the tuples of id = (5 + 0.1 * step) / (3 * scale); the first with the greatest sumqx^2 / sumq2 is taken with its least-squares scale; a positive scale is refined once more; the scale is the magnitude of the last one, and the signs are to be flipped exactly when that was negative. |
| Iq2Search.PackedIsGrid | gguf-tools/quants.c:967-971 | Packing an allowed tuple finds its grid index: the assertion cannot fail. |
| Iq2Search.PackGroup | gguf-tools/quants.c:967-974 | The four indices of a group. |
| Iq2Search.SevenSignsAreEnough | gguf-tools/quants.c:869-882 | With an even number of flips seven stored signs determine the eighth, also after flipping all. |
| Iq2Search.SignTuple | gguf-tools/quants.c:857-882 | Magnitudes and signs, with an odd number of flips evened out at the first least important value. |
| Iq2Search.SignedParts | gguf-tools/quants.c:857-882 | The flips are even, and value and sign give the input back. |
| Iq2Search.NegativePassed | gguf-tools/quants.c:869-881 | A negative value is passed on if and only if the flips were odd and the least important value is not zero. |
| Iq2Search.Init | gguf-tools/quants.c:717-794 | The tables are built for the built-in grid. |
| Iq2Group.NegativeReachesSearch | gguf-tools/quants.c:857-893 | The group of the example comes out of the sign step as it is, so its negative value reaches the scale search. |
| Iq2Group.SignGroup | gguf-tools/quants.c:856-883 | Four tuples of eight with even flips, from which all 32 values are restored. |
| Iq2Group.WriteGroup | gguf-tools/quants.c:849-978 | A group is zero exactly when no value reaches 1e-15 or the first scale is not positive. Otherwise it holds the tuples and the scale the search found, and the signs of the input, inverted exactly when the last scale was negative; for all values and weights neither assertion of the writer can fail, and seven signs a tuple are enough. |
| Iq2Group.GroupDecodes | gguf-tools/quants.c:849-978 | For nonnegative weights a written group decodes to its input: the sum of weight * value * decoded value is not negative, and no other scale comes closer with the same signs and tuples. |
| GgufValues.NumberOfLe | src/model/ds4_gguf.c:67-73 | Little-endian numbers round trip. |
| GgufLayout.NumbersLayout | src/model/ds4_gguf.c:54-73 | Numbers of four and eight bytes are little-endian, byte by byte. |
| GgufLayout.KvLayout | src/model/ds4_gguf.c:226-245 | A metadata record is the length of its key, the key, the type and the value. |
| GgufLayout.ValueLayout | src/model/ds4_gguf.c:168-206 | Texts stand behind their lengths, arrays behind the type and the number of their items. |
| GgufLayout.ScalarSizes | src/model/ds4_gguf.c:146-166 | The sizes of the scalar types. |
| GgufValues.SkipsExactlyValues | src/model/ds4_gguf.c:168-206 | The skipper succeeds exactly on encodings of well-formed values of the type, nested at most 8 deep, and stops exactly behind them. |
| GgufValues.Cursor.SkipTyped | src/model/ds4_gguf.c:168-206 | The recursive method over the cursor computes the skipper; the first error is kept. |
| GgufValues.Cursor.Has | src/model/ds4_gguf.c:46-52 | The bounds test cannot wrap. |
| GgufValues.Cursor.ReadNumber | src/model/ds4_gguf.c:54-73 | Reads a number or leaves the cursor alone. |
| GgufValues.Cursor.StringAt | src/model/ds4_gguf.c:75-83 | Reads a string inside the file. |
| GgufMetadata.TemplateSkipAgrees | gguf-tools/deepseek4-quantize.c:1923-1947 | Whatever the tool skips in a template the loader skips to the same place. |
| GgufMetadata.KvRead | src/model/ds4_gguf.c:226-245 | A valid record is read back wherever it stands. |
| GgufMetadata.KvAtIs | src/model/ds4_gguf.c:226-245 | Whatever is read as a record is a valid record. |
| GgufMetadata.KeptExactly | gguf-tools/deepseek4-quantize.c:2132-2137 | Exactly the records with stale importance-matrix or pruning keys are dropped. |
| GgufLayout.StaleExactly | gguf-tools/deepseek4-quantize.c:2132-2137 | A record is stale exactly when its key begins with "quantize.imatrix." or "reap.". |
| GgufLayout.KeptInOrder | gguf-tools/deepseek4-quantize.c:2132-2137 | The records that are kept stay in order. |
| GgufLayout.KeptOne | gguf-tools/deepseek4-quantize.c:2132-2137 | A single record is kept unless it is stale. |
| GgufLayout.AlignmentIs | src/model/ds4_gguf.c:222-245 | The alignment of both programs is 32 until a 32-bit record under "general.alignment" holds a number other than zero; the last such record counts. |
| GgufMetadata.AlignmentAgrees | gguf-tools/deepseek4-quantize.c:2117-2122 | For every list of records, dropping the stale ones leaves the loader the alignment of the tool if and only if the last record that sets it hides no text behind a NUL, or sets what the loader has anyway. |
| GgufMetadata.HiddenTextDiffers | gguf-tools/deepseek4-quantize.c:2117-2122 | A concrete template on which the two programs use different alignments. |
| GgufMetadata.LoadKeyValues | gguf-tools/deepseek4-quantize.c:2106-2155 | The loop over the template, with its spans and copies, yields the kept bytes, their count and the alignment. |
| GgufProvenance.ImatrixReserved | gguf-tools/deepseek4-quantize.c:1975-1988 | The reserved size and count of the importance-matrix records are those of the bytes written. |
| GgufProvenance.ReapReserved | gguf-tools/deepseek4-quantize.c:2031-2051 | The same for the pruning records. |
| GgufProvenance.WrittenAlignment | gguf-tools/deepseek4-quantize.c:2117-2122 | With the provenance added the loader still sees the alignment the file was laid out with if and only if nothing is hidden so. |
| GgufProvenance.ExtrasValid | gguf-tools/deepseek4-quantize.c:1990-2011 | Every added record is well-formed. |
| GgufLayout.ImatrixLayout | gguf-tools/deepseek4-quantize.c:1990-2011 | The importance-matrix records, with their keys, types and bytes. |
| GgufLayout.ReapLayout | gguf-tools/deepseek4-quantize.c:2073-2092 | The pruning records, with their keys, types and bytes. |
| GgufLayout.NumbersInOrder | gguf-tools/deepseek4-quantize.c:2065-2071 | The numbers of an array stand behind each other in four bytes each. |
| GgufProvenance.Output.WriteImatrixKvs | gguf-tools/deepseek4-quantize.c:1990-2011 | The importance-matrix records are written. |
| GgufProvenance.Output.WriteReapKvs | gguf-tools/deepseek4-quantize.c:2073-2092 | The pruning records are written. |
| GgufProvenance.Output.WritePadding | gguf-tools/deepseek4-quantize.c:2302-2309 | Zeros, in chunks. |
| GgufPlan.PlanTensors | gguf-tools/deepseek4-quantize.c:2220-2300 | The planning loop yields the directory with renamed experts and companions, its size in bytes and the offsets; it dies exactly on a tensor that cannot be written. |
| GgufPlan.TensorCount | gguf-tools/deepseek4-quantize.c:2207-2224 | The header counts one companion per NVFP4 expert. |
| GgufLayout.CompanionNames | gguf-tools/deepseek4-quantize.c:2259-2293 | Wherever the first ".weight" of a name stands, at its end too, it and what is behind are replaced in the two names of an NVFP4 expert. |
| GgufLayout.OtherNames | gguf-tools/deepseek4-quantize.c:2259-2282 | A name without ".weight" stays, and its companion has the suffix behind it. |
| GgufLayout.CompanionEntry | gguf-tools/deepseek4-quantize.c:2274-2291 | An NVFP4 expert has two entries: itself, and one float for each of its experts, the third dimension. |
| GgufLayout.OtherEntry | gguf-tools/deepseek4-quantize.c:2220-2293 | Every other tensor has one entry, itself. |
| GgufPlan.RangesDisjoint | gguf-tools/deepseek4-quantize.c:2252-2289 | Offsets are aligned and every range ends before the next begins. |
| GgufPlan.TensorInfoIsBytes | gguf-tools/deepseek4-quantize.c:2256-2290 | The planned size of the directory is the number of bytes written. |
| GgufLoad.SizesAgree | src/model/ds4_gguf.c:135-142 | Writer and loader compute the same size for f32, f16, bf16, i32, q8_0, q2_K, q4_K and iq2_xxs; the loader computes none for NVFP4. |
| GgufLayout.BlockSizes | gguf-tools/quants.c:39-60 | Elements and bytes of a block of each type that is written, as the sum of its fields. |
| GgufLoad.AlignUpIsPad | src/model/ds4_gguf.c:85-88 | The two roundings to the alignment agree. |
| GgufLoad.RecordsRead | src/model/ds4_gguf.c:254-281 | Written directory entries are read back. |
| GgufLoad.ParseMetadata | src/model/ds4_gguf.c:220-246 | The loop computes the table and the alignment in force at its end. |
| GgufLoad.ParseTensors | src/model/ds4_gguf.c:250-297 | The two loops compute the directory and the absolute offsets, or die. |
| GgufLoad.ModelOpen | src/model/ds4_gguf.c:305-384 | Opening yields exactly the model that the bytes describe. |
| GgufReads.LoadsExactly | src/model/ds4_gguf.c:220-384 | For every byte string and every model: the loader opens the file as that model if and only if it has at least 32 bytes and begins with the magic number, version 3, the two counts, valid metadata records and readable directory entries of that model, the alignment is that of the records, and every tensor that is not empty lies inside the file at the offset behind them that its entry says. |
| GgufReads.RecordAtIs | src/model/ds4_gguf.c:254-281 | What is read as a directory entry is the encoding of one with one to eight dimensions whose element count does not overflow. |
| GgufReads.PlaceExactly | src/model/ds4_gguf.c:285-296 | A tensor is accepted exactly when its absolute offset fits 64 bits and its bytes, if any, end inside the file. |
| GgufFile.PlannedIsWritten | gguf-tools/deepseek4-quantize.c:2294-2298 | The planned metadata size is the number of bytes written, and the planned counts are the numbers of records written. |
| GgufLayout.HeadLayout | gguf-tools/deepseek4-quantize.c:2311-2330 | The bytes 47 47 55 46, the version, the number of tensors and the number of records. |
| GgufLayout.RecordLayout | gguf-tools/deepseek4-quantize.c:2311-2345 | A directory entry: name with length, number of dimensions, dimensions, type and offset. |
| GgufLayout.DimsInOrder | gguf-tools/deepseek4-quantize.c:2326 | The dimensions stand in order, eight bytes each. |
| GgufLayout.FileLayout | gguf-tools/deepseek4-quantize.c:2311-2356 | Head, records, directory and zeros up to the alignment; then the tensors in order, each with its zeros. |
| GgufFile.WriteFullGguf | gguf-tools/deepseek4-quantize.c:2311-2356 | The writer produces exactly the planned file, or dies on a tensor of the wrong size. |
| GgufFile.WrittenFileLoads | src/model/ds4_gguf.c:220-297 | Loading a written file recovers every record, name, shape, type and offset; it is refused only for another version or below 32 bytes. |
| GgufFile.LoadedBytes | src/model/ds4_gguf.c:285-296 | Every tensor's bytes stand, aligned, at its absolute offset, with the size that the loader computed. |
| GgufFile.TemplateToModel | gguf-tools/deepseek4-quantize.c:2094-2356 | From any template that the tool accepts and that hides nothing, with the tensors that the plan accepts, to the loaded model. |
| GgufFile.ConvertTemplate | gguf-tools/deepseek4-quantize.c:2094-2356 | The tool reads a template, plans and writes; it dies exactly on a bad record, a tensor that cannot be written or one of the wrong size, and the loader opens the result as the planned model. |
| GgufFile.ExpandedDescribable | gguf-tools/deepseek4-quantize.c:2220-2293 | Whatever the plan accepts, with names and shapes that the format can hold, expands to entries that both programs describe, companions included. |
| NameMap.StringMap.constructor | gguf-tools/deepseek4-quantize.c:371-382 | Building stores every key in the first free slot of its path, which always exists. |
| NameMap.StringMap.Get | gguf-tools/deepseek4-quantize.c:385-394 | A lookup returns the first position of the key in the list, or -1. |
| NameMap.FoundIsFirst | gguf-tools/deepseek4-quantize.c:385-394 | The first hit on a probe path is the first of equal keys. |
| Reap.LoadLayer | gguf-tools/deepseek4-quantize.c:947-988 | Loading a layer drops repetitions, fills in the default list and dies exactly on numbers out of range; the flags mark exactly the experts of the list. |
| Reap.FillKeep | gguf-tools/deepseek4-quantize.c:933-945 | The list without repetitions, and flags that mark exactly its experts. |
| Reap.SlotsMatchKeepSet | gguf-tools/deepseek4-quantize.c:1026-1031 | Slots and kept experts are in bijection. |
| Reap.SlotsAreExperts | gguf-tools/deepseek4-quantize.c:1026-1031 | Slots are expert numbers if and only if the list counts up from zero, as it does by default. |
| Reap.SlotsAreKept | gguf-tools/deepseek4-quantize.c:1009-1031 | Every slot holds a kept expert if and only if all listed experts exist. |
| Reap.LoadedSlots | gguf-tools/deepseek4-quantize.c:1009-1031 | Both for every layer that loads. |
| Reap.CountIsBelow | gguf-tools/deepseek4-quantize.c:2012-2019 | The counted experts are the listed ones in range. |
| Reap.DescribePlan | gguf-tools/deepseek4-quantize.c:2073-2092 | The three metadata arrays. |
| Reap.ApplyReapMetadata | src/model/ds4_weights.c:618-671 | The loader takes over the arrays, or dies on a disabled hash layer or an unknown policy. |
| Reap.DescriptionAccepted | src/model/ds4_weights.c:647-668 | A written description is accepted if and only if no hash layer is disabled. |
| Reap.ExpectedIsWritten | src/model/ds4_weights.c:314-320 | The number of experts the loader expects is the number written, exactly for lists whose experts exist or that happen to have the default length. |
| ExpertWorkers.StepKeepsInv | gguf-tools/deepseek4-quantize.c:1619-1634 | Every step of every thread keeps the invariant. |
| ExpertWorkers.RunFillsEverySlab | gguf-tools/deepseek4-quantize.c:1619-1634 | After any run of any number of threads, every byte of every slab was written exactly once and is right. |
| ExpertWorkers.FinishedIsComplete | gguf-tools/deepseek4-quantize.c:1619-1634 | The same, from the invariant alone. |
| ExpertWorkers.NeverStuck | gguf-tools/deepseek4-quantize.c:1619-1634 | A thread inside its loop can always step. |
| ExpertWorkers.RunIsBounded | gguf-tools/deepseek4-quantize.c:1619-1634 | Every run ends within its initial rank. |
| ReapTensors.RouterWeight | gguf-tools/deepseek4-quantize.c:1441-1449 | Row e of the router comes from the expert of slot e. |
| ReapTensors.RouterBias | gguf-tools/deepseek4-quantize.c:1469-1476 | So does bias e; a slot without an expert gets -1e30. |
| ReapTensors.Scales2 | gguf-tools/deepseek4-quantize.c:1784-1804 | So does second scale e. |
| ReapTensors.SlotIsOneExpert | gguf-tools/deepseek4-quantize.c:1428-1483 | Router row, bias, the three slabs and the three second scales of a slot come from one expert. |
| ReapTensors.TensorIsFilled | gguf-tools/deepseek4-quantize.c:1809-1848 | However the threads interleave, every slot ends up with the slab of its own expert. |
| ReapTensors.TensorRunStarts | gguf-tools/deepseek4-quantize.c:1571-1634 | Any number of threads can start on the slabs of a tensor. |
| ReapTensors.TensorRunEnds | gguf-tools/deepseek4-quantize.c:1571-1634 | Every run on them ends, and no thread is stuck before that. |

## Left out

- QuantSearch.MakeQkx2Quants: does not model float rounding, because the theorems are about real arithmetic; the step parameters must be nonnegative and weights not negative. The same holds for QuantSearch.MakeQkx3Quants.
- QpSearch.MakeQpQuants: does not model float rounding, because the theorems are about real arithmetic.
- WeightedFit.NearestIntError: does not model what the magic-number rounding does with floats above 4194303, which the source asserts away.
- E4m3.DecodersAgree: does not cover the NaN codes 0x7F and 0xFF, which the offline decoder reads as zero and the runtime table as 480, nor the sign of a zero, because a real zero has none.
- E4m3.EncoderMatchesExactly: does not cover NaN inputs, which have no value to round; E4m3.EncoderMonotone still keeps their code at most 126.
- Nvfp4.E8m0Value: does not cover the scale byte 255, which is NaN in the specification.
- KDots.DotQ2: does not model rounding of the final float products, nor the NEON form. The same holds for KDots.DotQ4.
- KDots.QuantizeQ8: does not model float rounding of the scaled values.
- E4m3.EncoderBelowNormal: does not model the rounding of `kf + 0.5f`, which never crosses an integer for the values that reach it.
- KvQuant.QuantizeRow: does not model float rounding, so log2 and division are exact.
- Iq2Search.SearchGroup: does not model float rounding; the errors compared are reals below any limit.
- Iq2Group.WriteGroup: does not model the square roots that make the weights, nor the last scaling of the eight group scales of a block.
- KWriters.WriteQ4Ref: does not model the square root in its weights or rounding to half precision, which are parameters. The same holds for the other three writers.
- Iq2Index.ScanIsTwoShells: does not model qsort itself; sorting is a function that returns the sorted permutation. TensorSpans does the same.
- Pooling.PoolCandidates: does not model the pooling of candidates that are all minus infinity, which is NaN in the source and zero here; the exponential is a parameter.
- Compressor.ReplayMatchesBatch: does not cover a start that is not a window boundary, because the launch sites align it.
- StrTable.StrI32Table.Put: does not model the hash function, which is a parameter. NameMap does the same.
- Bpe.MergeSymbols: does not model the growth of the symbol array and the freeing of merged strings.
- TensorSpans.CacheTensorSpans: does not cover files within 64 KiB of 2^64, where the gap test wraps; caching a range is a parameter.
- GgufMetadata.LoadKeyValues: does not model seeks by 2^63 bytes or more, which would move backwards; lengths beyond the end of the file are death.
- GgufPlan.PlanTensors: does not model the policy that picks types or the parsing of tensor names; both arrive with the tensors. Sums are not reduced modulo 2^64.
- GgufFile.WrittenFileLoads: does not cover files of 2^64 bytes or element counts of 2^64, which no program here can address.
- ReapTensors.RouterWeight: does not model the quantisation of the compacted rows, and stores the matrix with two indices instead of one offset.
- ExpertWorkers.RunFillsEverySlab: does not model the progress messages, nor how the bytes of one expert are produced.
- Vocabulary.VocabLoad: does not model how the arrays are found in the model file.
- The directory of the template file itself; it has the format that GgufLoad reads.
- JSON parsing of pruning plans; a layer arrives with its fields taken apart.
- The NEON forms, RMSNorm and RoPE after pooling, SwiGLU and attention.
- The fused conditional emit kernel beyond its guard and row number.
- File, mmap, environment and command-line handling, logging, colours as escape codes, and the HTTP server.
- IQ2 decoding on the CPU, whose table is a placeholder in the repository.
- CUDA launches, streams and managed memory.
