# Proofs about the measuring and patching code

This project models the parts of the repository where a fast, resumable or in-place form has to
agree with something simpler, and proves that it does: the transcript scorer, the event-log
readers, the resumable upload, three rewrites of mlx-lm, the trace analysis, the device-tree
codecs and a few search loops. Where the code does not meet what it promises, the exact condition
under which it does is proved, with a concrete failing input.

Check it with `dafny verify dfyconfig.toml` (Dafny 4.11).

## How it is laid out

| files | component |
|---|---|
| `EditDistance`, `NumberWords`, `NormalForm`, `Scoring` | `corpus/score.py` |
| `EventLog`, `EventStream`, `EventProtocol`, `TurnText` | the event log's wire format, `stream_events`, the whole system as steps, `wait_for_sse_text` |
| `Archive`, `ProofOfWork`, `SubmitServer`, `SubmitProtocol`, `SubmitClient` | the upload: chunks, proof of work, the endpoints, all interleavings of runs, `submit` itself |
| `ConvRing`, `QGateSplit`, `MaskMirror` | the three rewrites of mlx-lm |
| `TickUnwrap`, `ChainCensus` | trace analysis |
| `DeviceTree`, `RegText`, `Positional` | cells, `reg`, `iommus`; numbers in positional notation |
| `TdtDecode`, `DifferentialCompare`, `ProcessTree` | decode loop, comparator and shrinker, process-tree closure |
| `Arith`, `Sequences`, `Text`, `Octets`, `Wrappers` | shared facts and types |

Code that changes things step by step is a method with loops or a class with fields, proved
against a function or predicate on values; the theorems are about that function. Protocols are
systems of steps, and their theorems quantify over every schedule of steps.

## What is assumed

- SHA-256 is a function from bytes to digests; results that need it say `NoCollisions`.
- JSON is a pair of functions, `Sound` when the server's documents contain no raw newline, are
  read back as written and are no JSON when cut short.
- In the scorer `normalize` (a regular expression, Unicode upper-casing) is a function from text to
  word lists; its last line is modelled on ASCII text in `NormalForm`.
- Upstream mlx-lm's `batch_size` is the number of sequences the cache's arrays hold when it is read.
- A projection, a decoder step, a compiled unit and a convolution are functions; numbers in tensors
  are reals, or raw bits where the source compares bits.
- Time-outs, sleeps, crashes and lost packets are nondeterministic steps or cuts; where the source
  does not catch socket errors (`wait_for_sse_text`) an attempt may also end in one, a connection
  that is never made being one that fails before its first byte.

## What the code does not do

- The ring's compaction copies from one row past the oldest live row
  (`scripts/patch-mlx-lm-convring.py:30-32`), so its source slice is one row short at the end of
  the buffer and the assignment raises: with a kernel of four, on the 258th decode step after
  seeding. Copying the live rows makes the patched block equal to the old one in every run; both
  are proved, and for a window of two rows, where broadcasting hides the error, exactly when the
  result is still right (`ConvRing.WrittenRunIff`, `WrittenBlockRefinesIff`, `WrittenAgreesIffHarmless`).
- A ring outlives code that writes the cached rows -- filter, extend, the state setter -- and the
  next decode call then reads the ring's rows. The two blocks agree on a run exactly when at every
  decode call the ring feeds the rows then cached (`ConvRing.AgreesIffCurrent`): rows written over
  the cache while a ring is held do harm exactly when they differ (`ReplacedWhileHeld`).
- `split_q_gate_weights` leaves a linear `bias` fused although the layer it writes for accepts
  `attention_bias`; the two calls agree exactly for layers without one
  (`QGateSplit.SameAttentionIffNoBias`).
- `unwrap` is documented as monotonically increasing; it is so exactly when no tick is more than
  half the range ahead of its predecessor, and at the widths whose ticks it returns as they are (0
  and 64 or more) exactly when they do not fall (`TickUnwrap.NondecreasingIff`, `StepBackIsKept`).
- `shrink_inputs` raises `IndexError` when halving makes a 0-dimensional input the first of the
  largest (`DifferentialCompare.ScalarFirstRaises`). With tries left it raises exactly when there is no input, or a
  scalar is the first input with any elements, every other input with more than one element has
  rows of a single element, there are more tries than halvings and the unit diverges on every
  halved list on the way (`RaisesIff`); with at least one input and no scalars it always returns.
- A mask mirror dropped by a state restore is filled with zeros by a later `extend`, and because
  the arrays are joined before `self.batch_size` is read, a missing list of its own is filled for
  both batches. The guard can then skip a mask that masks, after a padded restore
  (`MaskMirror.RestoreThenExtendIsWrong`) and, with a further extend and a filter, after an unpadded
  one (`UnpaddedRestoreIsWrong`). After one extend of caches that are in order no later run drops a
  mask that masks exactly when each side has its list or nothing to mask, and nothing is appended
  to a side without one (`ExtendGuardIff`); in general exactly when a list that is set bounds the
  paddings from above, entry by entry (`GuardSafeIff`).
- `stream_events` can catch up with the log exactly while the store still has the event after its
  cursor or an open connection has sent all that was dropped (`EventProtocol.CanCatchUpIff`). A burst of
  one event more than the store keeps loses the client (`BurstLosesClient`); with the events in
  flight a client goes on yielding after the drop (`InFlightIsNotLost`).
- `wait_for_sse_text` catches no error of its connections: it raises exactly when one it makes
  ends in a socket error before the turn's terminal event was read, or breaks at or after the
  "data:" of an event it still reads and before the end of that event's JSON, since the unfinished
  last line is read (`TurnText.RaisesIff`, `CutsDataIff`); such a break exists at every event
  (`EveryEventCanBreak`).
- The module docstring of `scripts/collect_submit.py` promises 200 for a chunk posted again; the
  server answers so exactly until the archive is published (`SubmitServer.RepostIff`,
  `RepostRefused`). The model follows the server.
- The server does not check the archive as a whole: a published row is the archive it is named
  after exactly when the first initiate call for it declared that archive's chunks
  (`SubmitServer.PublishedIsArchiveIff`), and the key of one archive can be made to serve another
  (`FalseDeclaration`). The upload theorems are about the calls `submit` makes.
- Without `max_symbols` the decode loop is sure to halt without its step cap exactly when no entry of
  the duration table is zero (`TdtDecode.HaltsWithoutMaxSymbolsIff`).
- `_dt_reg` raises `ValueError` when the parent's two cell counts are both zero (`DeviceTree.DtReg`).

## Model

| member | source | states |
|---|---|---|
| EditDistance.Edits | corpus/score.py:60-66 | the one-row in-place loop returns the length of a shortest script of single-word insertions, deletions and replacements: one exists and none is shorter |
| EditDistance.NextRow | corpus/score.py:62-65 | the inner loop turns the table row for i reference words into the row for i + 1, in place |
| EditDistance.DistIsLeastScript | corpus/score.py:60-66 | the two-index recursion is the minimum over all edit scripts |
| EditDistance.ScriptIsLongEnough | corpus/score.py:60-66 | no script of edits that turns one list into the other is shorter than the distance |
| EditDistance.ShortestScript | corpus/score.py:60-66 | a script of exactly that length exists |
| EditDistance.ZeroIffEqual | corpus/score.py:60-66 | distance zero means the lists are equal |
| EditDistance.Symmetric | corpus/score.py:60-66 | exchanging reference and transcript does not change the distance |
| EditDistance.Triangle | corpus/score.py:60-66 | the triangle inequality |
| EditDistance.Bounds | corpus/score.py:60-66 | the distance lies between the length difference and the larger length |
| EditDistance.RefusedCost | corpus/score.py:78-81 | charging a refused clip all its reference words is the distance to the empty transcript |
| NumberWords.TextIsTokens | corpus/score.py:25-34 | the text `words` builds is its scale-and-unit tokens joined with single spaces |
| NumberWords.ValueOfTokens | corpus/score.py:25-34 | splitting at the last word of the largest scale recovers every natural number, nested billions included |
| NumberWords.OrdinalOfJoin | corpus/score.py:37-40 | `ordinal` changes the last word of a text and nothing else |
| NumberWords.StripBoth | corpus/score.py:40 | strip takes the spaces off both ends and nothing else |
| NumberWords.ReadOrdinalWord | corpus/score.py:37-40 | every ordinal word is traced back to its cardinal, irregular ones included |
| NumberWords.UnitWords | corpus/score.py:19-22 | the words for the numbers below twenty and for their ranks are the English ones |
| NumberWords.TenWords | corpus/score.py:20 | so are those for the tens |
| NumberWords.PrintedWords | corpus/score.py:43-51 | the padded text `number` returns splits into exactly the expected words |
| NumberWords.ReadPrinted | corpus/score.py:43-51 | whole value, ordinal flag and every decimal digit are recovered from the printed text |
| NumberWords.PrintingIsInjective | corpus/score.py:43-51 | numbers that print the same words are the same number printed the same way |
| NormalForm.NormalFormOfNumber | corpus/score.py:54-57 | upper-casing and filtering leave of a printed number its words in upper case |
| NormalForm.ShoutAt | corpus/score.py:57 | of ASCII text letters become the capital of themselves, digits stay, and all else becomes a space |
| NormalForm.ShoutTwice | corpus/score.py:57 | doing that twice is doing it once |
| NormalForm.NormalFormIsInjective | corpus/score.py:43-57 | numbers with the same normal form are the same number printed the same way |
| Scoring.RefsKeepLast | corpus/score.py:70 | each clip is scored once, with the last manifest entry given for it |
| Scoring.Score | corpus/score.py:69-89 | the dictionary has a bucket for exactly the subsets that occur, and each holds the sums over that subset's clips |
| Scoring.AddClip | corpus/score.py:75-89 | one clip adds its own amount to every counter: refused clips an error and all reference words, others the edit distance |
| Scoring.Conserved | corpus/score.py:75-89 | in each bucket clips = scored + errors, and no other counter of scored clips exceeds them |
| Scoring.OneClip | corpus/score.py:75-89 | what one clip alone is counted as, latency included |
| Scoring.TallyAdds | corpus/score.py:71-89 | a bucket is the sum of its clips in any division of them |
| Scoring.ReferenceWordsFixed | corpus/score.py:75-87 | the number of reference words and of clips does not depend on the transcripts |
| Scoring.AllRefused | corpus/score.py:78-82 | in a bucket of refusals every clip is an error and every reference word an edit |
| Scoring.NoEditsIff | corpus/score.py:83-86 | a bucket has no edits exactly when every transcript has its reference's words |
| Scoring.NoErrorsIff | corpus/score.py:78-87 | it has no errors exactly when no clip is refused, and no empty transcripts exactly when every transcript there has a word |
| Scoring.RankIsPercentile | corpus/score.py:93-96 | the sorted list's entry at the rounded-up rank is the least sample with that share of samples at or below it |
| Scoring.PercentileIsUnique | corpus/score.py:93-96 | there is one such sample value |
| Scoring.Percentiles | corpus/score.py:93-96 | both indexes are in range and give the 50th and 95th percentile; none exactly for an empty list |
| Scoring.Merge | corpus/score.py:102-108 | each clip gets the first row with a transcript, or its last row when none has one, the last row of the first file standing first |
| Scoring.Extended | corpus/score.py:105-108 | taking one more extra row keeps that rule |
| ProofOfWork.LeadingZeroBits | scripts/collect_submit.py:86-100 | at least k zero bits exactly when the number the hex string writes is below 2^(4L-k), for all strings and k |
| Positional.HexDigits | scripts/collect_submit.py:89 | the sixteen hexadecimal digits, in either case |
| ProofOfWork.SolvePow | scripts/collect_submit.py:103-110 | the least nonce that meets the difficulty, whenever one exists |
| EventStream.CutAnywhere | scripts/card_timing_boot.py:58-74 | for any bytes, reading x then y gives what reading x + y gives: the framing does not depend on chunk boundaries |
| EventStream.DrainLeavesNoSep | scripts/card_timing_boot.py:64-65 | no complete block stays in the buffer |
| EventStream.EventReader.Receive | scripts/card_timing_boot.py:60-74 | one chunk moves the cursor, the buffer and the events yielded to those of the framing function |
| EventStream.EventReader.ReadBlock | scripts/card_timing_boot.py:66-74 | the data lines of one block, up to the first that is not JSON |
| EventStream.EventReader.TakeBlock | scripts/card_timing_boot.py:65-74 | the buffer is cut at its first blank line |
| EventProtocol.PrefixAlways | scripts/card_timing_boot.py:37-85 | after every schedule of emits, reconnects, cuts and chunks: what was yielded is a prefix of the log, without gap or repeat, and the cursor is the last sequence number |
| EventProtocol.OneStep | scripts/card_timing_boot.py:49-85 | every single step keeps client and log in step, and neither goes back |
| EventProtocol.DrainFrames | serve/mlx_omarchy_assistant/server.py:565-568 | any prefix of the server's frames is read as whole events plus an incomplete rest |
| EventLog.WireWords | serve/mlx_omarchy_assistant/server.py:565-568 | the field names on the wire |
| EventProtocol.CatchesUp | serve/mlx_omarchy_assistant/history.py:270-278 | a half-received frame is replayed: one complete connection brings the client level with the log, if the store still has the events |
| EventProtocol.InFlightCatchesUp | scripts/card_timing_boot.py:58-74 | an open connection that has sent all that was dropped brings the client level with the log |
| EventProtocol.CanCatchUpIff | scripts/card_timing_boot.py:37-85 | from any state in step some schedule brings the client level with the log exactly when the store still has the next event, or an open connection has sent up to what was dropped |
| EventProtocol.StuckAfterGap | serve/mlx_omarchy_assistant/history.py:276-277 | with no connection open, once the next event has been dropped nothing is ever yielded again |
| EventProtocol.BurstKeepsIff | serve/mlx_omarchy_assistant/history.py:270-278 | a client that connects after n events can catch up exactly when n is at most 4096 |
| EventProtocol.BurstLosesClient | serve/mlx_omarchy_assistant/history.py:270-278 | a run into the gap: a client without a connection while one event more than the store keeps is emitted |
| EventProtocol.InFlightIsNotLost | scripts/card_timing_boot.py:58-74 | a dropped event that is in flight is still yielded |
| TurnText.WaitForText | scripts/pair_measure.py:192-231 | the result is that of the attempts followed one after the other, and the text is exactly the turn's text from the starting cursor to the cursor, which never passes the turn's first terminal event |
| TurnText.ScanIsExact | scripts/pair_measure.py:210-228 | one connection, broken at any byte, keeps the text exact |
| TurnText.ConnectionReads | scripts/pair_measure.py:200-231 | a connection that ends at any byte, quietly or in a socket error, moves the cursor past exactly the events whose data it read whole, up to the first terminal one; it raises and it ends the wait exactly when stated |
| TurnText.WholeFramesAreRead | scripts/pair_measure.py:210-228 | whole frames up to event k move the cursor to k or to the turn's first terminal event |
| TurnText.AttemptRaisesIff | scripts/pair_measure.py:200-231 | one attempt raises exactly when it breaks in the data of an event it still reads (the JSON error) or ends in a socket error before the turn's terminal event was read |
| TurnText.RaisesIff | scripts/pair_measure.py:200-231 | the wait raises exactly when some attempt it makes does |
| TurnText.CutsDataIff | scripts/pair_measure.py:210-213 | such a break, as a byte position: past the frames before event k, at or after its "data:" and before the end of its JSON, no event before k being terminal |
| TurnText.EveryEventCanBreak | scripts/pair_measure.py:210-213 | breaking just after "data:" raises, for every log and cursor |
| Archive.ChunkArchive | scripts/collect_submit.py:113-119 | the chunks are the archive's slices, indexed, hashed and together the archive |
| Archive.JoinAll | scripts/collect_submit.py:113-119 | slices joined in order are the archive |
| Archive.SliceLength | services/community-data/src/caps.ts:25-32 | a slice has exactly the length the server expects for its index |
| Archive.LargestArchive | services/community-data/src/caps.ts:4-6 | the largest archive is ten full chunks and one of 2^19 bytes, as many as are allowed |
| SubmitServer.MissingHas | services/community-data/src/store.ts:244-255 | the missing list is exactly the indexes below the count that are not stored |
| SubmitServer.MissingAscends | services/community-data/src/store.ts:244-255 | it is in ascending order without repeats |
| SubmitServer.OneByteChunks | services/community-data/src/validate.ts:36-68 | of archives in one-byte chunks exactly those of one to eleven bytes with a hash for each are allowed |
| SubmitServer.HandleKeepsGenuineIff | services/community-data/src/routes.ts:76-341 | of all requests, chunk bodies damaged or late included, exactly a first accepted initiate call whose declaration is not that of the archive it names makes a row that is not its archive's |
| SubmitServer.HandleGrows | services/community-data/src/store.ts:261-329 | no request loses a chunk, changes a shape or touches a published row |
| SubmitServer.RepliesAreTrue | services/community-data/src/routes.ts:76-341 | what every reply says -- missing, incomplete, duplicate, accepted -- is true of the table after it, and a refusal changes nothing |
| SubmitServer.PublishedIsArchive | services/community-data/src/store.ts:292-329 | the chunks of a published row made by this client's calls are, in order, the archive |
| SubmitServer.HandleKeepsConsistent | services/community-data/src/routes.ts:76-341 | every request at all, false declarations included, keeps every row true to its own declaration, and complete once published |
| SubmitServer.PublishedIsArchiveIff | services/community-data/src/store.ts:292-329 | a published row joins to an archive exactly when its declaration was that archive's |
| SubmitServer.FalseDeclaration | services/community-data/src/routes.ts:76-341 | the key of a one-byte archive, initiated with the shape of another, takes that one's chunk and is published |
| SubmitServer.RepostIff | services/community-data/src/store.ts:261-284 | a stored chunk posted again is accepted exactly until publication, and changes nothing |
| SubmitServer.RepostRefused | services/community-data/src/routes.ts:239-281 | the one chunk of a published one-byte archive is refused when posted again |
| SubmitProtocol.StepIsSafe | scripts/collect_submit.py:153-266 | every step of every run, lost or repeated requests, cuts and clean-up keep the safety invariant |
| SubmitProtocol.RunIsSafe | scripts/collect_submit.py:153-266 | so does every schedule |
| SubmitProtocol.MayComeLate | scripts/collect_submit.py:113-266 | the schedules covered include every late or repeated delivery of any request a run made, cut-off runs included |
| SubmitProtocol.ChunksAreSlices | scripts/collect_submit.py:113-119 | after any schedule the chunk held at index i is the i-th slice |
| SubmitProtocol.ReceiptMeansStored | scripts/collect_submit.py:153-266 | a run with a receipt has its archive published, and the stored chunks join to it |
| SubmitProtocol.MissingNeverGrows | scripts/collect_submit.py:239-253 | apart from clean-up no step makes a chunk missing |
| SubmitProtocol.PostsOnlyMissing | scripts/collect_submit.py:239-249 | a run posts only chunks the server reported missing to it |
| SubmitProtocol.CompleteSucceeds | scripts/collect_submit.py:255-266 | without clean-up in between, a run that reaches the last call gets its receipt |
| SubmitProtocol.WhichReceipt | scripts/collect_submit.py:176-266 | one exchange gives "deduplicated" exactly to a probing or initiating run whose archive is published already, and changes nothing; the other receipt exactly to a completing run the server accepts, which is then published |
| SubmitProtocol.ReRunFinishes | scripts/collect_submit.py:153-160 | whatever happened before, a new run left alone gets a receipt within 15 calls, for every archive the service accepts at all |
| SubmitProtocol.UnacceptableNeverReceipt | scripts/collect_submit.py:160-163 | for any other archive, a difficulty beyond 64 bits or a nonce of more than 32 digits, no schedule gives a receipt |
| SubmitProtocol.AcceptableIff | services/community-data/src/pow.ts:24-37 | what is acceptable, in figures: size, bits asked for and length of the nonce |
| SubmitClient.Solve | scripts/collect_submit.py:103-110 | the nonce found is the one the protocol sends, the least that meets the difficulty |
| SubmitClient.InitiateUpload | scripts/collect_submit.py:190-228 | the two-attempt loop, a nonce found for each, follows the protocol and hands on a list of indexes the client has chunks for |
| SubmitClient.PostChunks | scripts/collect_submit.py:239-253 | the reported chunks are posted in order up to the first refusal |
| SubmitClient.Submit | scripts/collect_submit.py:153-266 | the call ends where the lone protocol run does; the receipt says "deduplicated" exactly for an archive published before, which changes nothing; from a genuine table any other archive is uploaded and published exactly when it is acceptable |
| SubmitClient.OneRest | scripts/collect_submit.py:153-266 | a run left alone comes to rest in one state only |
| ConvRing.IntendedStepRefines | scripts/patch-mlx-lm-convring.py:28-37 | with the live rows copied, every ring step is the concatenate step, exactly for windows the buffer holds |
| ConvRing.CompactionIsShort | scripts/patch-mlx-lm-convring.py:29-33 | the slice copied as written has one row less than the window, which the assignment survives only for two rows |
| ConvRing.WrittenStepRefinesIff | scripts/patch-mlx-lm-convring.py:28-37 | as written a step is right exactly when no compaction is due, or the window is two equal rows |
| ConvRing.IntendedRunIsWindows | scripts/patch-mlx-lm-convring.py:28-37 | any number of steps yields the consecutive windows of seed and inputs; none is possible with a window as large as the buffer |
| ConvRing.WrittenRunIff | scripts/patch-mlx-lm-convring.py:28-37 | as written a run after seeding succeeds exactly up to cap - n steps, and is then right |
| ConvRing.KernelOfFour | scripts/patch-mlx-lm-convring.py:23-33 | for three live rows the 257th step works and the 258th raises |
| ConvRing.Ring.constructor | scripts/patch-mlx-lm-convring.py:20-26 | a new ring holds its seed |
| ConvRing.Ring.Compact | scripts/patch-mlx-lm-convring.py:29-33 | the in-place compaction of the buffer, with numpy-style broadcasting or failure |
| ConvRing.Ring.Write | scripts/patch-mlx-lm-convring.py:34-37 | one row is written behind the live ones, and window, live rows and offset move on |
| ConvRing.Ring.Step | scripts/patch-mlx-lm-convring.py:28-37 | window, live rows and offset after a step on the in-place buffer are those of the step function |
| ConvRing.ConvCache.RingBranch | scripts/patch-mlx-lm-convring.py:62-64 | the ring branch on the cache object: its window, and the last n rows as state |
| ConvRing.ConvCache.Block | scripts/patch-mlx-lm-convring.py:40-82 | the patched block on the cache object, ring creation and removal included, is the block function; a call with lengths leaves of every sequence what its own rows of the chunk alone would leave |
| ConvRing.ConvCache.Write | scripts/patch-mlx-lm-ssm-maskless.py:115-157 | other code that writes the cached rows leaves the ring as it is |
| ConvRing.BlockRefines | scripts/patch-mlx-lm-convring.py:40-82 | one call gives the convolution the old block's rows and leaves its state, as long as the ring holds the cached rows and no compaction is due |
| ConvRing.PaddingLeavesNoTrace | scripts/patch-mlx-lm-convring.py:95-103 | with lengths, the cached rows of every sequence are those after the chunk cut to its length, negative lengths counting as 0 and too large ones as the whole chunk |
| ConvRing.ChunksJoin | scripts/patch-mlx-lm-convring.py:84-103 | a chunk given in two calls leaves the same rows as in one |
| ConvRing.InputsJoin | scripts/patch-mlx-lm-convring.py:84-103 | and gives the convolution the same rows |
| ConvRing.AgreesIffCurrent | scripts/patch-mlx-lm-convring.py:40-103 | for either copy, every window and every mix of calls and rows written over the cache, the two blocks agree on a run exactly when at each decode call the ring feeds the rows then cached |
| ConvRing.FedIff | scripts/patch-mlx-lm-convring.py:28-37 | as written that means: the ring holds the cached rows and no compaction is due, or one is due and both cached rows are the ring's last |
| ConvRing.ReplacedWhileHeld | scripts/patch-mlx-lm-convring.py:43-64 | rows written over the cache while a ring is held, then a decode call: the blocks agree exactly when the rows are the ring's |
| ConvRing.IntendedBlockRefines | scripts/patch-mlx-lm-convring.py:84-103 | with the intended copy the patched block is the old block in a mix of prefill and decode calls exactly when the buffer holds the window or no call decodes |
| ConvRing.GoesThroughIffFits | scripts/patch-mlx-lm-convring.py:40-82 | as written, for a window of other than two rows, a run raises nothing exactly when no compaction falls due, whatever is written over the cache |
| ConvRing.FitsIffShort | scripts/patch-mlx-lm-convring.py:44-61 | no compaction falls due exactly when no uninterrupted stretch of decode calls exceeds cap - n |
| ConvRing.WrittenBlockRefinesIff | scripts/patch-mlx-lm-convring.py:40-103 | as written, for a window of other than two rows, a run raises nothing exactly when no such stretch is longer, and is then the old block's run if nothing else writes the cache |
| ConvRing.WrittenAgreesIffHarmless | scripts/patch-mlx-lm-convring.py:40-103 | as written, for every window and every mix of calls, the two blocks agree on a run exactly when each compaction that falls due finds a window of two equal rows |
| QGateSplit.SplitQGateWeights | scripts/patch-mlx-lm-qwen3next-qgate-split.py:60-76 | the dictionary loop leaves every key as specified, in whatever order keys are visited |
| QGateSplit.RowMapIsBijection | scripts/patch-mlx-lm-qwen3next-qgate-split.py:71-75 | every fused row goes to exactly one row of one half, and back |
| QGateSplit.HeadAndDim | scripts/patch-mlx-lm-qwen3next-qgate-split.py:71-75 | row (head, dim) of a half is fused row head * 2 * dims + dim, plus dims for the gate |
| QGateSplit.OtherKeysUntouched | scripts/patch-mlx-lm-qwen3next-qgate-split.py:64-76 | keys neither selected nor written keep their tensor, and none is invented |
| QGateSplit.SecondSplitChangesNothing | scripts/patch-mlx-lm-qwen3next-qgate-split.py:69-70 | splitting twice is splitting once |
| QGateSplit.SameAttention | scripts/patch-mlx-lm-qwen3next-qgate-split.py:49-57 | without a linear bias queries and gate are the same for every weight, input, head and dimension |
| QGateSplit.SameAttentionIffNoBias | scripts/patch-mlx-lm-qwen3next-qgate-split.py:45-57 | and only without one |
| MaskMirror.MirrorHolds | scripts/patch-mlx-lm-ssm-maskless.py:83-191 | after every history without a foreign restore the list equals the padding array or both are unset |
| MaskMirror.SkippedMaskIsIdentity | scripts/patch-mlx-lm-ssm-maskless.py:45-57 | wherever the list is right, a skipped mask was all True and masking with it changes nothing |
| MaskMirror.SeenThroughMask | scripts/patch-mlx-lm-ssm-maskless.py:45-57 | a consumer sees zero at position pos of sequence b when pos is below its padding, and the value as it is otherwise |
| MaskMirror.AdvanceIsLater | scripts/patch-mlx-lm-ssm-maskless.py:174-181 | after an advance by k the rest of a text is seen as in the whole text from position k on |
| MaskMirror.FilterIsChoice | scripts/patch-mlx-lm-ssm-maskless.py:126-134 | after a filter sequence i is seen as sequence indices[i] was before |
| MaskMirror.ExtendIsBoth | scripts/patch-mlx-lm-ssm-maskless.py:140-157 | joined batches are seen one after the other, each as before |
| MaskMirror.MasklessIsSound | scripts/patch-mlx-lm-ssm-maskless.py:45-57 | no consumer sees a difference after any history, restores included, in which at every extend each side has its list or nothing to mask |
| MaskMirror.NoRestoreIsOk | scripts/patch-mlx-lm-ssm-maskless.py:83-191 | without a restore every history is such |
| MaskMirror.ExtendStaysFineIff | scripts/patch-mlx-lm-ssm-maskless.py:140-157 | of caches whose lists bound their paddings, extend makes one exactly under that condition |
| MaskMirror.GuardSafeIff | scripts/patch-mlx-lm-ssm-maskless.py:45-57 | no later run of filter, extend, prepare, advance, finalize and restore drops a mask that masks exactly when a list that is set bounds the paddings entry by entry, or the guard is off for want of an array or by lengths |
| MaskMirror.ExtendGuardIff | scripts/patch-mlx-lm-ssm-maskless.py:115-157 | and after one extend of caches in order exactly under the condition |
| MaskMirror.ExtendKeepsMirrorIff | scripts/patch-mlx-lm-ssm-maskless.py:140-157 | extend keeps list and array equal exactly when its own side has one, or nothing is appended to an unpadded batch, and the other side has one or no padding |
| MaskMirror.OwnListTooLong | scripts/patch-mlx-lm-ssm-maskless.py:141-153 | without a list of its own a cache gets one too long by the whole other batch |
| MaskMirror.RestoreThenExtendIsWrong | scripts/patch-mlx-lm-ssm-maskless.py:115-157 | a restored padding of three, extended, loses a mask that masks |
| MaskMirror.UnpaddedRestoreIsWrong | scripts/patch-mlx-lm-ssm-maskless.py:115-157 | so does an unpadded restore, extended twice and filtered |
| MaskMirror.ArraysCache.DoFilter | scripts/patch-mlx-lm-ssm-maskless.py:126-134 | filter on the three fields, in place; an exact mirror stays exact |
| MaskMirror.ArraysCache.DoExtend | scripts/patch-mlx-lm-ssm-maskless.py:140-157 | extend on the fields of two caches, the second unchanged; two exact mirrors give an exact one |
| MaskMirror.ArraysCache.DoAdvance | scripts/patch-mlx-lm-ssm-maskless.py:174-181 | advance on the three fields, in place; an exact mirror stays exact |
| MaskMirror.ArraysCache.Mask | scripts/patch-mlx-lm-ssm-maskless.py:45-57 | the guard's scan and the mask it otherwise builds; through it a consumer sees zeros exactly at the positions before a sequence's padding ends, wherever the list bounds the paddings |
| TickUnwrap.Unwrap | scripts/profile_analyze.py:60-76 | ticks of width 0 or 64 and more come back as they are; otherwise the output starts at the first tick, is congruent to every tick and moves in steps of at most half the range |
| TickUnwrap.RecoversIffSmallSteps | scripts/profile_analyze.py:60-76 | a true series is recovered up to its start exactly when its steps lie in (-2^(b-1), 2^(b-1)] |
| TickUnwrap.NondecreasingIff | scripts/profile_analyze.py:61 | the documented monotonicity holds exactly when no tick is more than half the range ahead, and of ticks returned as they are exactly when none falls |
| TickUnwrap.StepBackIsKept | scripts/profile_analyze.py:64-73 | ticks falling from 5 to 3 come back falling, at width 0 and at every width from three bits |
| ChainCensus.ChainsFor | scripts/chain_census.py:173-198 | the chains returned are exactly the maximal linked elementwise stretches of length two or more, in order and disjoint |
| ChainCensus.ChainsOf | scripts/chain_census.py:173-198 | the same with the elementwise test made from the kernel names |
| ChainCensus.OneCensus | scripts/chain_census.py:173-198 | a sequence has only one such list of chains |
| ChainCensus.LinkedIff | scripts/chain_census.py:183-190 | two dispatches are linked exactly when their counts agree and the first's third binding is among the second's first two |
| ChainCensus.FamiliesIff | scripts/chain_census.py:62-63 | exactly seven families of kernel names are elementwise |
| ChainCensus.UnnamedBreaksChains | scripts/chain_census.py:177-182 | a kernel without a name is never elementwise |
| ChainCensus.MaximalIsJointed | scripts/chain_census.py:183-190 | maximality in terms of what cannot be extended is maximality in terms of joints |
| ChainCensus.TokenBounds | scripts/chain_census.py:96-111 | one window a marker, each ending at the next |
| ChainCensus.TokenOf | scripts/chain_census.py:113-120 | the first window that holds the submission time, none if none does |
| ChainCensus.ExactlyOneWindow | scripts/chain_census.py:96-120 | with markers in order every time from decode_start on lies in exactly one window, and earlier times in none |
| DeviceTree.DecodeEncode | scripts/collect_quick.py:257-262 | decoding undoes encoding for any list of cells |
| DeviceTree.EncodeDecode | scripts/collect_quick.py:257-262 | encoding undoes decoding for any accepted bytes |
| DeviceTree.DtReg | scripts/collect_quick.py:265-294 | the printed list is that of the complete entries under the parent's counts; None and the error case exactly as in the source |
| DeviceTree.EntriesOfRegCells | scripts/collect_quick.py:286-293 | any entries that fit their cell counts are read back from their cells |
| DeviceTree.RegRoundTrip | scripts/collect_quick.py:265-294 | laid out as bytes, decoded, printed and parsed by the other program, they come back |
| DeviceTree.ListedAndReadBack | scripts/collect_quick.py:265-294 | entries laid out under the parent's counts, or two and one where the parent has none, are listed in order and read back by the other program |
| DeviceTree.ZeroCountsRaise | scripts/collect_quick.py:282-286 | with both counts zero every list of cells raises |
| RegText.ParseFormat | scripts/ane_soc_from_collect.py:44-46 | the other program reads exactly what was printed |
| RegText.LiteralIff | scripts/ane_soc_from_collect.py:40-41 | a hexadecimal literal is read exactly when it is 0x or 0X and at least one digit, as the number its digits write |
| Text.DecimalReadsBack | scripts/collect_quick.py:498 | a phandle printed as text is its decimal digits without a needless zero |
| DeviceTree.PrintedAreCellsIff | scripts/ane_soc_from_collect.py:322-323 | the overlay printer's numbers are cells exactly for addresses below 2^64 and sizes below 2^32 |
| DeviceTree.PrintedReadsBack | scripts/ane_soc_from_collect.py:322-323 | and then decode to the entry |
| DeviceTree.TranslationKeepsOffsets | scripts/ane_soc_from_collect.py:271-274 | translation keeps low halves and distances and meets the Linux base |
| DeviceTree.ResolveWith | scripts/collect_quick.py:492-506 | the cursor loop is the resolving function |
| DeviceTree.ResolveIommus | scripts/collect_quick.py:484-506 | on a tree, with its phandles and cell counts, the resolving function for at most eight targets |
| DeviceTree.ResolveFlattened | scripts/collect_quick.py:484-506 | a well-formed list of phandles and specifiers resolves to its first eight targets |
| DeviceTree.ResolvedOnTree | scripts/collect_quick.py:484-506 | on a tree, references with the specifiers their nodes ask for resolve to the paths of the first eight, an unknown phandle to its number as text |
| DeviceTree.U64LePairs | scripts/ane_soc_from_collect.py:49-58 | the loop reads the little-endian pairs |
| DeviceTree.LittleIsBigBackwards | scripts/ane_soc_from_collect.py:54-55 | the little-endian value is the big-endian value of the bytes backwards |
| DeviceTree.PairsReadBack | scripts/ane_soc_from_collect.py:49-58 | any ranges come back from their bytes, all but those at address zero |
| TdtDecode.Decode | harness/ref_trace.py:26-41 | the loop is the iterated pass, and its trace is a run of the model: there are decoder states, the first the initial one, such that each step is the answer at its frame for the last token and state before it, a blank keeping the state; it ends at the last frame or the cap |
| TdtDecode.TraceIsUnique | harness/ref_trace.py:26-41 | a model has only one such trace |
| TdtDecode.TimeIsAccountedFor | harness/ref_trace.py:32-41 | the time of every step and the final time are the durations so far plus the forced advances |
| TdtDecode.HaltsWithoutCap | harness/ref_trace.py:28-41 | with max_symbols it halts in frames * max(1, max_symbols) steps for any model outputs |
| TdtDecode.MaxSymbolsAlwaysHalts | harness/ref_trace.py:28-41 | with it every model over every duration table halts on any number of frames |
| TdtDecode.OnlyTheCapEnds | harness/ref_trace.py:28-41 | without it answers of duration zero run into the cap |
| TdtDecode.ZeroAnswersMoveOn | harness/ref_trace.py:35-41 | with max_symbols answers of duration zero stay max(1, max_symbols) steps on each frame and then move on by one |
| TdtDecode.HaltsWithoutMaxSymbolsIff | harness/ref_trace.py:28-41 | without it every model over a duration table halts on any number of frames exactly when no entry is zero |
| DifferentialCompare.FirstDiffIndex | scripts/differential_compile.py:80-84 | the least flat index at which the bits differ, -1 exactly for equal bits |
| DifferentialCompare.CompareCapture | scripts/differential_compile.py:96-126 | nothing exactly for equal captures, else the first output that differs and what differs there first |
| DifferentialCompare.ExplanationIsUnique | scripts/differential_compile.py:96-126 | only one report is true of two captures |
| DifferentialCompare.DiffRecords | scripts/differential_compile.py:218-247 | nothing exactly for traces with equal labels and bitwise equal outputs, else the length mismatch or the earliest record with its true detail |
| DifferentialCompare.ReportIsUnique | scripts/differential_compile.py:218-247 | only one report is true of two traces |
| DifferentialCompare.StandaloneDiverges | scripts/differential_compile.py:586-594 | whether the eager and the compiled outputs differ, or that a call raised |
| DifferentialCompare.ShrinkInputs | scripts/differential_compile.py:597-613 | the loop with its early exits is the shrinking function; its result has each input's element type, trailing axes and first elements, and is reached by halving the first largest array, each time with a divergence, until one row is left, half the rows no longer reproduce or the tries are used |
| DifferentialCompare.ShrunkInputs | scripts/differential_compile.py:597-613 | the same of the shrinking function, in terms of shapes and elements alone; the result diverges or is the input |
| DifferentialCompare.ShrunkIsUnique | scripts/differential_compile.py:597-613 | only one list is such a result |
| DifferentialCompare.HalvedIsHalf | scripts/differential_compile.py:600-606 | one round keeps the first half of the rows of the first largest array, rounded down |
| DifferentialCompare.RaisesIff | scripts/differential_compile.py:597-613 | for every unit it raises exactly for no inputs, or for a scalar leading thin inputs with more tries than halvings on every halved list of which the unit diverges |
| DifferentialCompare.AlwaysRaisesIff | scripts/differential_compile.py:600-603 | for a unit that always diverges the shapes alone decide |
| DifferentialCompare.NoScalarsReturns | scripts/differential_compile.py:601-604 | with an input and no scalars it always returns |
| DifferentialCompare.ScalarFirstRaises | scripts/differential_compile.py:601-603 | a scalar before an array of two rows makes it raise |
| ProcessTree.ChildrenOf | scripts/pair_memory_common.py:43-61 | on any finite child relation, cycles included, the closure terminates with exactly the reachable pids |
| ProcessTree.ReadChildren | scripts/pair_memory_common.py:54-59 | one children file marks every child seen and queues exactly the new ones |
| ProcessTree.Sample | scripts/pair_memory_common.py:131-144 | each reachable process enters both memory totals once |

## Left out

- Scoring.Score: the rounded `wer` and `empty_rate` are not computed; they are quotients of counters that are.
- Scoring.Score: `normalize` is a parameter, so nothing is claimed about its regular expression or upper-casing.
- NormalForm.NormalFormIsInjective: is about a text that is one printed number, not about numbers inside longer texts.
- ProofOfWork.LeadingZeroBits: asks for hexadecimal digits; on others `int(char, 16)` raises.
- EventProtocol.PrefixAlways: `\r\n` line ends, several data lines in one event and comments do not occur on this server's wire and are not modelled; neither is a server restart that loses sequence numbers since the last checkpoint.
- TurnText.WaitForText: the log is the one the last connection sees, each connection bringing a prefix of what follows its cursor; the time of the first visible text and the deadline's error value are not modelled.
- SubmitServer.HandleKeepsGenuineIff: covers summaries stored unchanged; the rewriting of an archive after privacy redaction, schema checks, rate limits and submissions without an archive are not modelled.
- SubmitProtocol.StepIsSafe: the state between two network calls is a value, and each call is one step; `SubmitClient` has the same client as methods, for a service no one else talks to.
- SubmitClient.Submit: asks that some nonce meets the difficulty when a search is begun; without one `solve_pow` never returns.
- ConvRing.ConvCache.Block: the mask applied before both blocks, other code changing the number of sequences while a ring exists, and a kernel of one (no rows kept) are not modelled.
- MaskMirror.ArraysCache.DoExtend: both sides have their arrays set or both unset, since what upstream `cat` does otherwise is not part of this model; a cache is not extended with itself.
- MaskMirror.SkippedMaskIsIdentity: the mask that follows the guard in mlx-lm 0.32 (`scripts/patch-mlx-lm-ssm-maskless.py:68-70`) is only quoted in part and not modelled.
- RegText.ParseFormat: of the literals `int(s, 0)` accepts only hexadecimal ones without underscores, signs or blanks are read; others read as None.
- DeviceTree.ResolveIommus: list entries that are not integers are skipped by the source and not modelled.
- DeviceTree.PrintedReadsBack: the angle-bracket text around the four cells is not modelled.
- DeviceTree.U64LePairs: starts from bytes, not from their hexadecimal text.
- DifferentialCompare.CompareCapture: the mode with a tolerance compares floating-point numbers and is not modelled.
- ProcessTree.ChildrenOf: the child relation does not change while it is read.
- `phase_of_host` and `_read_cpu_list`: one scan and one parser, which would only add easy members.
- HTTP, sockets, sysfs, files, report text, medians and timing.
