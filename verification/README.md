# A verified model of irregex's bindings and generators

These Dafny modules model the parts of the repository that carry an argument: the match
sequence and its buffer protocols in the Go binding, replacement and splitting, the
concurrent corpus search, batch cursors and the handle pool, the statistical judge, the
table compilers for Unicode names, ranges, folds, rarities and schemas, the vendored-file
gate, and the crate-recovery normal form. The regular-expression engine itself enters as a
parameter: an arbitrary function giving, for each byte position, the end of the match that
starts there, if there is one. Everything is proved for all such functions, texts,
interleavings, file trees and tables.

| module | models |
|---|---|
| Basics, Joining, Numerals, Sorting, Sums | shared definitions: options, bytes, joining and splitting, decimal numerals and 64-bit wrap-around, a stable sort, sums |
| Runes, MatchSequence, Routes, Sinks | UTF-8 scanning, the thinning of the engine's sequence to Go's, the routes to a limited find, the two-pass buffer protocol |
| Split, Templates | splitting, template references, expansion, rebuilding |
| Corpus, Batches, Handles | search and close under any interleaving, batch cursors, the handle pool |
| Dominance | the Mann-Whitney judge |
| Names, Ranges, Folds, Rarity | the Unicode and rarity tables and their readers |
| Schema, SchemaLoad | the schema contract, its loading and its canonical text |
| Manifest, Drift | the pinned manifest, re-pinning, verifying, propagating |
| VersionReq, VersionTexts | version requirements in normal form, what becomes of each text, upload framing |

`dafny verify dfyconfig.toml` checks the whole project.

## What the code does not do

Where a promise of the documentation fails, the code was followed and the exact condition
under which the promise holds was proved.

- `goSequence` reproduces Go's sequence exactly when the engine's walk hides nothing
  (`MatchSequence.ThinningIsGoIff`). A non-empty match starting inside a multi-byte rune
  can swallow one that Go would report (`ThinningLosesAHiddenMatch`).
- The nullable flag is a test on the empty subject. A pattern that is not nullable there can
  still match emptily in a longer text, and then a find with limit other than 1 is not
  thinned (`Routes.RoutesAgreeIff`, `NullableFlagCanMiss`).
- `groupNumber` has no overflow check: 2^64 + n is read as group n, and a number from 2^62
  to 2^63 - 1 makes the doubled index negative and panics (`Templates.ReferenceIsDocumentedIff`,
  `HugeReferenceWraps`, `LargeReferencePanics`).
- A propagate does not make every sibling clean whatever its earlier state: a shared file
  the sibling has and the source neither has nor pins stays red, and so does a pinned file
  that neither has, where the sibling has its directory (`Drift.PropagateIff`,
  `ObstaclesOccur`).
- Replacing a pattern while a handle is on loan, or while the pool keeps one that the drain
  missed, lets the old pattern come back (`Handles.EveryRunLendsCurrentIff`,
  `StaleHandleComesBack`, `MissedHandleIsLent`).
- The judge takes its direction from the medians and its significance from the ranks. So a
  loss is not a win from the other side when the medians are equal: it is then a loss from
  both sides (`Dominance.VerdictFromTheOtherSide`, `LossFromBothSides`). And a win can go to
  the sample that ranks significantly higher (`VerdictFollowsRanksIff`,
  `WinAgainstTheRanks`). With fewer than two observations in all, the tie correction divides
  by zero (`Judge`).
- The gate's introduction says the manifest is in the shared set; the list does not name it.
  It is delivered by propagate only, and the model does the same.

## Model

| member | source | states |
|---|---|---|
| Runes.RuneWidth | bindings/go/bridge.go:601-610 | the scan always advances, by at most four bytes, never past the end of the text, and by one from there |
| Runes.DecodeUndoesEncode | bindings/go/bridge.go:601-610 | over the encoding of any scalar value (section 3 of RFC 3629) the scan passes over exactly that encoding |
| Runes.WideRuneIsEncoded | bindings/go/bridge.go:598-600 | and where it passes over several bytes they are such an encoding, so invalid UTF-8 is passed over one byte at a time |
| Runes.InsideARune | bindings/go/bridge.go:561-576 | every position strictly inside a multi-byte rune is a continuation byte, where a scan advances by one |
| MatchSequence.Leftmost | src/kernel/regex/glean/cursor.zig:200-209 | the leftmost match at or after a position: one that exists, with none starting earlier; none exactly when nothing starts there |
| MatchSequence.GoSequence | bindings/go/bridge.go:577-596 | the one-pass loop over resume and prevEnd computes the recursive thinning |
| MatchSequence.ThinSimulatesGo | bindings/go/bridge.go:561-596 | the simulation: from related positions, thinning the engine's remaining walk equals the rest of Go's allMatches loop exactly when nothing is hidden |
| MatchSequence.ThinningIsGoIff | bindings/go/bridge.go:574-576 | over the whole text or any region of it (lines 877-900), goSequence of the engine's widest sequence equals Go's sequence span for span, if and only if the walk hides no match |
| MatchSequence.ThinningIsGo | bindings/go/bridge.go:561-596 | the promise itself, over any region: equality whenever no non-empty match starts strictly inside a multi-byte rune |
| MatchSequence.NoMatchInsideARuneHidesNothing | bindings/go/bridge.go:567-576 | that documented hypothesis is enough for nothing to be hidden |
| MatchSequence.ThinningLosesAHiddenMatch | bindings/go/bridge.go:574-576 | without the hypothesis the equality fails: a concrete text and match function |
| MatchSequence.GoSkips | bindings/go/bridge.go:574-576 | positions where nothing starts do not change what Go's loop delivers |
| MatchSequence.EngineSeqOrdered | include/irgx.h:369-372 | the engine's sequence is in reading order, with at most one span per position and so at most len + 1 |
| MatchSequence.ThinSubset | bindings/go/bridge.go:564-565 | thinning only removes spans |
| MatchSequence.ThinOrdered | bindings/go/bridge.go:564-576 | what is left is still in reading order |
| MatchSequence.ThinLeavesNoAbutting | bindings/go/bridge.go:567-569 | no empty match is left where the match before it ended |
| MatchSequence.ReportedSequence | bindings/go/bridge.go:577-596 | what is reported for a text or a region is ordered and free of abutting empty matches |
| Routes.Walk.Next | src/kernel/regex/glean/cursor.zig:128-144 | each pull yields the head of the remaining engine sequence, and the end is final |
| Routes.FindAll | src/surface/ffi/pattern.zig:358-391 | the room holds the first spans of the sequence as far as it goes, and the total returned is that of the whole region, never capped |
| Routes.Push | src/surface/ffi/contract.zig:382-386 | an element is stored only where there is room, and counted by the caller always |
| Routes.FindUpto | src/surface/ffi/pattern.zig:542-568 | the stopped walk writes exactly the first spans, as many as fit or exist |
| Routes.FindFirst | src/surface/ffi/pattern.zig:615-629 | the first span of the sequence, or none when it is empty |
| Routes.RawSpans | bindings/go/bridge.go:528-542 | a guessed window and at most one retry give the whole sequence, cut at the limit |
| Routes.UptoSpans | bindings/go/bridge.go:472-489 | the first limit spans of the engine's sequence |
| Routes.FirstSpan | bindings/go/bridge.go:510-525 | the sequence cut to its first span |
| Routes.FindSpans | bindings/go/bridge.go:448-462 | whichever route is taken, the answer is the engine's sequence, thinned for a nullable pattern with limit other than one, and cut at the limit; the same over a region (lines 880-900) |
| Routes.FirstIsKept | bindings/go/bridge.go:506-509 | thinning never removes the first span |
| Routes.PrefixSurvivesIff | bindings/go/bridge.go:444-447 | the first n spans come through the thinning unchanged exactly when neither rule applies to any of them |
| Routes.RoutesAgreeIff | bindings/go/bridge.go:437-462 | route agreement for every limit: the first spans of the thinned sequence come back, exactly when the pattern is nullable, the limit is 0 or 1, or neither thinning rule applies to the spans fetched |
| Routes.NoEmptyMatchAgrees | bindings/go/bridge.go:444-447 | with no empty match in the text, every route and limit agrees |
| Routes.FindGivesGo | bindings/go/bridge.go:437-462 | end to end: under the documented hypothesis, and for a pattern flagged nullable or without an empty match in the region, a find gives the first limit spans of Go's own sequence |
| Routes.NullableFlagCanMiss | bindings/go/pattern.go:173-177 | a pattern that does not match the empty subject can still have empty matches in a text, and then a find reports a span Go would not |
| Sinks.Verb.Run | bindings/go/sink.go:7-15 | the protocol of a batch verb: the buffer is filled as far as either goes, the count is of what exists |
| Sinks.Drain | bindings/go/sink.go:32-54 | one call if the first failed or its answer fitted, else two; the answer and status are those of the specification, failures included |
| Sinks.DrainedByCases | bindings/go/sink.go:32-54 | every outcome spelled out: a failure of either call is handed on with its status and no elements, a success has the status of the first call and the elements of the call that sufficed |
| Sinks.DrainedIsCompleteIff | bindings/go/sink.go:39-49 | a guess that suffices gives the whole first answer; otherwise the whole second one comes back if and only if it has not grown, and else its first elements, as many as there were |
| Sinks.DrainedIsWholeIff | bindings/go/sink.go:39-49 | what comes back is the whole of one of the answers, unless the guess was short, the answer grew, and its beginning changed as well |
| Split.SplitText | bindings/go/replace.go:19-48 | the loop over begin, end and out produces the pieces between the separating spans that the limit lets through |
| Split.LoopSawEnough | bindings/go/replace.go:29-43 | looking at the first n spans only is enough: together they hold every cut the limit lets through |
| Split.NextSpan | bindings/go/replace.go:32-43 | one round keeps what the loop knows: the cuts met, the pieces they close and where the open piece begins |
| Split.ClosingCompletes | bindings/go/replace.go:44-47 | however the loop ends, closing the piece still open completes the split |
| Split.SplitConserves | bindings/go/replace.go:11-18 | pieces and separators interleaved rebuild the text; at most n pieces for n > 0, the first n - 1 agree with the unlimited split, and the last is the exact remainder |
| Split.InterleavedIsAPrefix | bindings/go/replace.go:36-46 | any leading pieces and separators spell a prefix of the text |
| Split.EverySeparatorCuts | bindings/go/replace.go:37-41 | a reported span separates unless it is an empty match at either edge of the text |
| Split.ReportedSpanCutsIff | bindings/go/replace.go:36-46 | of an ordered sequence, exactly the spans that are not an empty match at either edge of the text separate |
| Split.CutsOrdered | bindings/go/replace.go:32-43 | the separators are ordered and do not overlap |
| Numerals.NumeralReads | bindings/go/replace.go:231-240 | a decimal numeral is all digits, has no leading zero and reads back as its number |
| Numerals.WrapStep | bindings/go/replace.go:233-239 | wrapping a 64-bit product at every digit is wrapping the exact value once |
| Templates.Reference | bindings/go/replace.go:195-226 | the scanning loop reads the reference of the specification; a failed read gives back the whole text, or all but the second dollar |
| Templates.GroupNumber | bindings/go/replace.go:231-245 | a numeric name gives its value wrapped to 64 bits, any other name its group or -1 |
| Templates.Substitute | bindings/go/replace.go:185-187 | the text a reference appends, nothing for an absent or unentered group, and a panic exactly where the index is negative |
| Templates.ReferenceIsDocumentedIff | bindings/go/replace.go:153-158 | a reference means what the documentation says if and only if it is a name, or its number wraps to itself below 2^62, to a negative number, or to one below 2^62 that is empty here |
| Templates.SmallReferenceIsExact | bindings/go/replace.go:228-243 | every group number below 2^62 is read as written |
| Templates.LargeReferencePanics | bindings/go/replace.go:185-187 | every number from 2^62 to 2^63 - 1 panics |
| Templates.HugeReferenceWraps | bindings/go/replace.go:231-243 | 2^64 + n expands to group n |
| Templates.Expand | bindings/go/replace.go:170-189 | the loop ends on every template, and appends the expansion of the specification to what was there |
| Templates.PlainReferenceExpands | bindings/go/replace.go:170-226 | a dollar and a word stand for what the group of that name gives, however the text goes on behind the word, and all of that is expanded in turn |
| Templates.BracedReferenceExpands | bindings/go/replace.go:195-226 | so do a dollar and a word in braces, whatever comes behind |
| Templates.StrayDollarStays | bindings/go/replace.go:179-184 | a dollar that begins nothing stays, at the end, before what is no name, and before a brace that holds no name or is not closed; everything behind it is expanded |
| Templates.GroupGives | bindings/go/replace.go:185-187 | a group that was entered gives its bytes of the text, any other nothing |
| Templates.NamedReference | bindings/go/replace.go:228-244 | a name that is no number gives the group of that name, or nothing |
| Templates.DoubledExpandsToItself | bindings/go/replace.go:179-184 | a text with every dollar doubled expands to the text |
| Templates.DoubledIsLiteral | bindings/go/replace.go:50-73 | ReplaceAllString with every dollar of r doubled is ReplaceAllLiteralString with r |
| Templates.WholeMatchExpandsToTheMatch | bindings/go/replace.go:153-158 | `${0}` expands to the match |
| Templates.WholeMatchIsIdentity | bindings/go/replace.go:50-61 | ReplaceAllString with `${0}` gives the text back |
| Templates.ReplaceAllString | bindings/go/replace.go:121-140 | one pass over the matches gives src with each replaced by its expansion, captures asked for only when the template has a dollar; a panic in any expansion is a panic of the whole |
| Templates.ReplaceAllLiteralString | bindings/go/replace.go:65-73 | src with every match replaced by the text verbatim |
| Templates.PanicIsFinal | bindings/go/replace.go:130-139 | a panic at one match is the outcome whatever the later matches are |
| Templates.RebuiltLength | bindings/go/replace.go:128-139 | the result's length is the text's, less the matched bytes, plus the emitted ones |
| Corpus.StepKeepsInv | bindings/go/tree.go:222-337 | every step of every goroutine, watcher or context keeps the lock discipline, and an observer of its event alone finds nothing wrong |
| Corpus.EveryRunIsSafe | bindings/go/tree.go:275-289 | in every interleaving of any number of searches and closes: no token is tripped, used or freed when not live, each is freed at most once, the engine is entered only while open and by one search at a time, closed at most once and never in use, and no search is refused while it is open |
| Corpus.NothingIsLeft | bindings/go/tree.go:331-336 | when all goroutines have returned, every token has been freed and nobody is inside the engine |
| Corpus.EveryRunTells | bindings/go/tree.go:222-337 | in every run: a watcher that finished without being stopped has tripped its token; only a cancelled context has it tripped or makes a search give up; a finished search has entered and left the engine unless it was refused, had no token or gave up; and once a close has returned somebody has closed the engine |
| Corpus.CancelledBeforehandGivesUp | bindings/go/tree.go:247-249 | a search whose context was cancelled from the outset does nothing but give up |
| Corpus.CancelReachesTheEngine | bindings/go/tree.go:323-330 | while a search is inside the engine with its context cancelled, two steps of its waiting watcher trip the token |
| Corpus.StepUsesWork | bindings/go/tree.go:323-336 | every step uses up a bounded amount of work |
| Corpus.RunsAreBounded | bindings/go/tree.go:222-337 | no run is longer than the work its goroutines start with |
| Corpus.HolderCanMove | bindings/go/tree.go:331-333 | the lock holder can move or its watcher can, no context being cancelled for it: waiting for the watcher cannot block |
| Corpus.SomeoneCanMove | bindings/go/tree.go:222-337 | no deadlock: until everyone has returned, the program itself can take a step, whatever the contexts do |
| Corpus.EveryRunCompletes | bindings/go/tree.go:222-337 | every run can be carried on by steps of the program alone, no further context being cancelled, until all have returned, within the work left |
| Batches.Cursor.constructor | bindings/go/tree.go:302-304 | a fresh cursor stands for the promised records, from the first |
| Batches.Cursor.Next | bindings/go/tree.go:362-375 | yields the head of the pending sequence and leaves its tail, or reports the end, the count unchanged |
| Batches.Cursor.One | bindings/go/tree.go:378-393 | the same for the single-record tail case, the source coming up short included |
| Batches.Cursor.Refill | bindings/go/tree.go:396-422 | the same for a batch of any size the source chooses, an empty one ending the stream |
| Batches.Cursor.All | bindings/go/tree.go:427-436 | everything pending, in order, leaving nothing |
| Batches.Cursor.Rewind | bindings/go/walk.go:383-386 | the whole sequence is pending again |
| Batches.Cursor.Close | bindings/go/tree.go:443-450 | what was already copied out is still yielded, and nothing else |
| Batches.Call | bindings/go/walk.go:383-463 | one call on a cursor is one call on the plain list it stands for |
| Batches.Drive | bindings/go/walk.go:383-463 | over every sequence of Next, All, Rewind and Len calls and every batch split, the answers are those of a plain list with a position |
| Batches.NothingLostOrRepeated | bindings/go/walk.go:393-463 | without a rewind, what was yielded and what is still to come are always the whole list |
| Handles.MoveKeepsIff | bindings/go/pattern.go:255-270 | acquiring, compiling, releasing and dropping leave no handle with two borrowers, or lent while pooled, and all on the present pattern; replacing the pattern does so exactly when it is harmless |
| Handles.EveryRunLendsCurrentIff | bindings/go/familiar.go:138-153 | in every run of any number of goroutines no handle has two borrowers or is lent while pooled, and all handles are compiled from the present configuration throughout if and only if every replacement kept the configuration, or found nothing on loan and a pool that drained empty |
| Handles.CompiledValueLendsCurrentIff | bindings/go/pattern.go:156-181 | that holds of every run from a value as it is compiled |
| Handles.StaleHandleComesBack | bindings/go/familiar.go:143-148 | a handle on loan during a replacement is lent again, still on the old pattern |
| Handles.MissedHandleIsLent | bindings/go/familiar.go:143-148 | so is a pooled handle that the drain missed, with nothing on loan |
| Handles.Regexp.constructor | bindings/go/pattern.go:156-181 | compiling leaves one handle, in the pool, made from the configuration |
| Handles.Regexp.Get | bindings/go/pattern.go:264 | any pooled handle or none, and none only from an empty pool where the pool hands out what it holds |
| Handles.Regexp.Acquire | bindings/go/pattern.go:263-268 | a handle comes from the pool or is compiled from the present configuration, each a move of the machine; a refusal comes only after the pool gave none, and changes nothing; where the pool hands out what it holds, a pooled handle is what comes |
| Handles.Regexp.Release | bindings/go/pattern.go:270 | the borrower's loan ends and the handle is pooled, a move of the machine |
| Handles.Regexp.UnmarshalText | bindings/go/familiar.go:138-153 | text that does not compile changes nothing; otherwise the pool is asked until it gives none, and not before, and the configuration overwritten, one replacing move; where the pool hands out what it holds it is empty then, and with nothing on loan no handle of the old pattern is left |
| Dominance.RankLoop | bench/apparatus/statcore.py:83-98 | the two nested loops compute the rank sum of the first sample and the tie correction, as sums over the pool of per-observation definitions |
| Dominance.GroupScore | bench/apparatus/statcore.py:88-98 | a tie group at positions i to j - 1 earns twice the average rank i + 1 + j, by the pairwise count |
| Dominance.RankSumIsPairwise | bench/apparatus/statcore.py:83-100 | u1 is the number of pairs with a above b plus half the tied ones, however the pool is sorted |
| Dominance.PairsAddUp | bench/apparatus/statcore.py:100-101 | u1 + u2 is n1 * n2 |
| Dominance.AllRanksAddUp | bench/apparatus/statcore.py:92-97 | all ranks add up to N(N + 1) / 2 |
| Dominance.DoubleUPermutes | bench/apparatus/statcore.py:83-100 | the pairwise statistic does not depend on the order of either sample |
| Dominance.TieSumPermutes | bench/apparatus/statcore.py:94 | nor does the tie correction |
| Dominance.Judge | bench/apparatus/statcore.py:73-114 | dominance returns what the pairwise definition judges, and has no answer exactly for fewer than two observations |
| Dominance.JudgedByHand | bench/apparatus/statcore.py:100-114 | the judgement worked out by hand: p from the corrected shift in standard deviations of the textbook variance, the verdict from p, the level and the medians, the speedup as how often the first median goes into the second |
| Dominance.VarianceFormula | bench/apparatus/statcore.py:103 | 12 N(N - 1) times the variance is n1 n2 times N^3 - N less the tie correction |
| Dominance.CorrectionIsHalf | bench/apparatus/statcore.py:105-106 | the correction takes off one half exactly |
| Dominance.MedianOfSorted | bench/apparatus/statcore.py:79-80 | the median is the middle quantile of any sorted rearrangement: there is only one |
| Dominance.TieSumCeiling | bench/apparatus/statcore.py:94 | the tie correction is at most N^3 - N, and equal to it only when all values tie |
| Dominance.VarianceIsSound | bench/apparatus/statcore.py:103-104 | the variance is never negative, and zero exactly when a sample is empty or all values tie |
| Dominance.CorrectionKeepsTheSign | bench/apparatus/statcore.py:105-106 | the continuity correction never turns a shift round and never enlarges it |
| Dominance.ExchangedSamples | bench/apparatus/statcore.py:100-105 | exchanging the samples negates the shift and keeps the tie correction |
| Dominance.SignificanceIsEven | bench/apparatus/statcore.py:104-108 | p depends on the size of the shift only |
| Dominance.VerdictFromTheOtherSide | bench/apparatus/statcore.py:105-114 | p is the same from either side; a win is a loss from the other side, and a loss is a win exactly when the medians differ |
| Dominance.EqualMediansLose | bench/apparatus/statcore.py:110-112 | with equal medians, significantly different ranks are a loss from both sides |
| Dominance.LossFromBothSides | bench/apparatus/statcore.py:110-112 | and that occurs under the normal distribution: ten 0s and eleven 5s against eleven 5s and ten 9s, with their medians, at level 0.05 |
| Dominance.VerdictFollowsRanksIff | bench/apparatus/statcore.py:105-112 | a significant verdict goes the way of the ranks if and only if the medians are ordered as the ranks are shifted |
| Dominance.WinAgainstTheRanks | bench/apparatus/statcore.py:105-112 | where they are not, a sample that ranks higher can win, under the normal distribution: 21 fours and 14 nines against 14 ones and 21 fives, at level 0.05 |
| Dominance.SignificantShift | bench/apparatus/statcore.py:103-108 | a corrected shift of twice a bound on the standard deviation is significant at 0.05, ties or not |
| Dominance.NothingToTellApartIsParity | bench/apparatus/statcore.py:103-112 | where the variance vanishes the verdict is parity |
| Dominance.VerdictIgnoresOrder | bench/apparatus/statcore.py:79-114 | the whole judgement, medians included, is the same for reordered samples |
| Dominance.QuantileInRange | bench/apparatus/statcore.py:32-42 | a quantile lies between its two order statistics and in the sample's range |
| Dominance.QuantileIsAMean | bench/apparatus/statcore.py:32-42 | at position k + t a quantile is the mean of its two order statistics weighted 1 - t and t |
| Dominance.MiddleOfEven | bench/apparatus/statcore.py:32-42 | the median of an even sample is the mean of the two in the middle |
| Dominance.MiddleOfOdd | bench/apparatus/statcore.py:32-42 | the median of an odd sample is the one in the middle |
| Dominance.SeparatedIsNeverALoss | bench/apparatus/statcore.py:110-112 | a sample entirely below its rival is never judged a loss, nor the rival a win |
| Names.FrontCode | tools/build_unicode_names.py:128-153 | the loop emits the concatenation of the entries, and one offset per block, where the block's head starts |
| Names.CodeOne | tools/build_unicode_names.py:137-152 | one round appends the next entry, and its place if it heads a block |
| Names.CountShared | tools/build_unicode_names.py:144-147 | the inner loop counts the shared prefix |
| Names.SharedIsCommon | tools/build_unicode_names.py:144-148 | what is counted is the longest common prefix |
| Names.HeadsAreMultiples | tools/build_unicode_names.py:138 | an entry heads a block exactly when its number is a multiple of 32 |
| Names.OffsetsIndexHeads | tools/build_unicode_names.py:137-139 | one offset per block, the position of its head |
| Names.StreamIsLaid | tools/build_unicode_names.py:131-153 | every entry of the stream occupies exactly the bytes its lengths announce |
| Names.HeadEntryReads | tools/build_unicode_names.py:131-143 | the bytes of an entry that heads a block: length and name |
| Names.TailEntryReads | tools/build_unicode_names.py:131-152 | the bytes of any other: how much is shared, how much is not, and what is not |
| Names.StreamOfOneMore | tools/build_unicode_names.py:137-153 | the stream is the entries, one behind the other |
| Names.DecodeRoundTrip | tools/build_unicode_names.py:128-153 | decoding the stream front to back gives back exactly the list, and the last entry ends where the stream does |
| Names.StreamIsPrintable | tools/build_unicode_names.py:19-22 | every byte of the stream is printable, given printable names short enough for the bias |
| Names.LessIsTotal | tools/build_unicode_names.py:172 | names are comparable: the byte order is total |
| Names.LessIsTransitive | tools/build_unicode_names.py:172 | and transitive |
| Names.LessAtTheDifference | tools/build_unicode_names.py:172 | the first difference decides, the smaller byte first, and a proper prefix comes first |
| Names.FrontCodeEncodes | tools/build_unicode_names.py:171-175 | what is rendered from a strictly sorted list is a table the reader can use |
| Names.Head | src/kernel/regex/unicode/names.zig:49-54 | a block's head reads back as the name it stores |
| Names.HeadInPlace | src/kernel/regex/unicode/names.zig:72-75 | the buffer holds the block's head, and reading goes on behind it |
| Names.Scan | src/kernel/regex/unicode/names.zig:77-89 | the walk over a block finds the query if it is one of the block's names, and nothing only if it is none |
| Names.BlocksUpTo | src/kernel/regex/unicode/names.zig:61-66 | the binary search finds how many heads do not exceed the query |
| Names.NextInPlace | src/kernel/regex/unicode/names.zig:80-86 | overwriting the buffer after the shared prefix turns it from one name into the next |
| Names.CopyIn | src/kernel/regex/unicode/names.zig:83 | the copy changes the named bytes of the buffer and none before or behind them |
| Names.NotBeforeTheFirst | src/kernel/regex/unicode/names.zig:67 | a query below every head is no name |
| Names.OnlyInItsBlock | src/kernel/regex/unicode/names.zig:56-68 | a name outside the chosen block is not the query |
| Names.Lookup | src/kernel/regex/unicode/names.zig:59-90 | the lookup gives a name's codepoint if the query is in the list, and nothing if and only if it is not |
| Ranges.MergeStep | tools/build_unicode_tables.py:120-125 | one round of the merge keeps the output canonical and denoting what was seen |
| Ranges.Coalesce | tools/build_unicode_tables.py:114-126 | the output is sorted with gaps and denotes exactly the input's set |
| Ranges.CanonicalIsUnique | tools/build_unicode_tables.py:114-126 | two canonical lists denoting one set are one list, so coalescing decides equality |
| Ranges.CanonicalIsShortest | tools/build_unicode_tables.py:115 | no list denoting the set has fewer ranges |
| Ranges.Union | tools/build_unicode_tables.py:129-134 | the union is canonical and denotes the union of the groups |
| Ranges.UnionIgnoresOrder | tools/build_unicode_tables.py:129-134 | the order and repetition of the groups do not matter |
| Ranges.InRanges | src/kernel/regex/unicode/tables.zig:23-35 | the binary search decides membership of every canonical table |
| Folds.GroupRows | tools/build_unicode_tables.py:145-154 | the groups are each target with everything that folds to it |
| Folds.GroupIsFibre | tools/build_unicode_tables.py:140-142 | over simple data a group is the set of codepoints with that fold |
| Folds.EnterGroup | tools/build_unicode_tables.py:159-160 | the inner loop enters each member of a group with the sorted list of the others, and changes no other entry |
| Folds.FoldOrbits | tools/build_unicode_tables.py:155-161 | over simple data, in whatever order the groups are visited, each codepoint gets the sorted list of its other equivalents, and has an entry exactly when there are any |
| Folds.Flatten | tools/build_unicode_tables.py:220-227 | one entry per codepoint, strictly sorted, whose slice of the members is its orbit |
| Folds.FoldOrbit | src/kernel/regex/unicode/tables.zig:56-69 | the binary search and slice give the orbit, or nothing for a codepoint without one |
| Folds.OrbitOf | src/kernel/regex/unicode/tables.zig:54-69 | from rows to lookup: the orbit read for any codepoint lists its other equivalents in order |
| Folds.OrbitsPartition | tools/build_unicode_tables.py:137-144 | membership of orbits is irreflexive, symmetric and transitive across members: a partition |
| Folds.ChainedFoldsOverlap | tools/build_unicode_tables.py:145-161 | without simple data the groups overlap, which is why the hypothesis is needed |
| Rarity.CellError | tools/build_rarity_table.py:95-98 | every cell is within a half of count * SCALE / total |
| Rarity.CellFits | tools/build_rarity_table.py:95-98 | and between 0 and SCALE without a clamp |
| Rarity.CellOrder | tools/build_rarity_table.py:95-98 | cells are monotone in the counts, strictly once these differ by total / SCALE |
| Rarity.CellsAddUp | tools/build_rarity_table.py:95-98 | the 256 cells add up to within 128 of SCALE |
| Rarity.Inversions | tools/build_rarity_table.py:164-169 | the count is of the inverted neighbours, and is zero if and only if no pair at all is inverted |
| Rarity.NeighboursSuffice | tools/build_rarity_table.py:163-170 | no inverted neighbours in the report's order means no inverted pair |
| Rarity.ScaledNeverInverts | tools/build_rarity_table.py:136-139 | the emitted table inverts no pair, whatever was counted |
| Schema.FieldRoundTrip | tools/build_schema_tables.py:200 | a field's text reads back as the field |
| Schema.FieldReads | tools/build_schema_tables.py:200 | a field's text: name, tag, nested id and 1 or 0, with colons |
| Schema.EnumLineReads | tools/build_schema_tables.py:195 | an enum's line, byte by byte |
| Schema.SchemaLineReads | tools/build_schema_tables.py:196-203 | a schema's line, byte by byte |
| Schema.VerbLineReads | tools/build_schema_tables.py:204 | a verb's line, byte by byte |
| Schema.TextInOrder | tools/build_schema_tables.py:195-205 | the text: the enums' lines, the schemas' and the verbs', in order, with newlines |
| Schema.RowRoundTrip | tools/build_schema_tables.py:195-204 | a line reads back as its row, up to prose and symbols |
| Schema.TextRoundTrip | tools/build_schema_tables.py:195-205 | the hashed text reads back as the wire-visible table |
| Schema.TextIsWire | tools/build_schema_tables.py:184-193 | over identifier names, two tables have equal text if and only if they agree in everything wire-visible |
| Joining.SplitUndoesJoin | tools/build_schema_tables.py:195-204 | joined parts without the separator split back into themselves |
| SchemaLoad.Load | tools/build_schema_tables.py:114-169 | loading yields the resolved, sorted table exactly for an acceptable contract, and dies for any other |
| SchemaLoad.LoadsIff | tools/build_schema_tables.py:130-168 | a contract loads if and only if its ids are positions, every type is known and refers to what exists, no schema has more than 64 fields, and every verb names known parameters, schema, stream and producer |
| SchemaLoad.TagIsThePlace | tools/build_schema_tables.py:60 | a type's tag is its place among the known types |
| SchemaLoad.LoadSchemas | tools/build_schema_tables.py:130-149 | the resolved schemas, in the contract's order, if and only if every schema is acceptable |
| SchemaLoad.LoadFields | tools/build_schema_tables.py:132-144 | the resolved fields, if and only if every type is known and every reference resolves |
| SchemaLoad.LoadVerbs | tools/build_schema_tables.py:152-163 | the resolved verbs, if and only if every one names known parameters, schema, stream and producer |
| Sorting.SortOrders | tools/build_schema_tables.py:150 | sorting by key puts the keys in order |
| Sorting.SortPermutes | tools/build_schema_tables.py:150 | and only rearranges |
| SchemaLoad.EnumResolves | tools/build_schema_tables.py:138-139 | an accepted enum reference points, by position, at the enum it names |
| SchemaLoad.SchemaResolves | tools/build_schema_tables.py:140-143 | so does a schema reference |
| SchemaLoad.LoadedTableResolves | tools/build_schema_tables.py:166-169 | after a load, position id - 1 holds id, and every nested id of every field resolves to what the contract named |
| SchemaLoad.LoadedVerbResolves | tools/build_schema_tables.py:152-167 | the same for op codes and the schemas of verbs |
| Manifest.LineRoundTrip | bench/apparatus/shared_drift.py:131-146 | a clean pin, written as digest, two blanks and name, reads back from its line |
| Manifest.SpacedLineReads | bench/apparatus/shared_drift.py:127-132 | white space around the line and behind the two blanks changes nothing |
| Manifest.NothingSaid | bench/apparatus/shared_drift.py:128-130 | blank lines and comments say nothing, wherever they start |
| Manifest.WrittenByLines | bench/apparatus/shared_drift.py:146-151 | the text written, line by line |
| Manifest.ParsedIsClean | bench/apparatus/shared_drift.py:127-132 | whatever a line says is clean, unless it names nothing |
| Manifest.ReadPins | bench/apparatus/shared_drift.py:122-133 | the loop reads the pins of the text, a later line winning |
| Manifest.PinnedIsClean | bench/apparatus/shared_drift.py:122-133 | every pin read from any text is clean, unless its name is empty |
| Manifest.WrittenReadsBack | bench/apparatus/shared_drift.py:136-152 | clean pins written below the comment head read back as themselves |
| Drift.UpdateConverges | bench/apparatus/shared_drift.py:136-193 | after --update, verify is clean, or there was nothing to pin |
| Drift.VerifyCodes | bench/apparatus/shared_drift.py:155-193 | the exit codes spelled out: 2 without pins, 0 exactly when every pinned file whose directory is here is present at its digest and every shared file present is pinned, else 1 |
| Drift.UpdateKeepsForeignPins | bench/apparatus/shared_drift.py:139-145 | pins for groups not carried here stand unchanged, and what is present is pinned as observed |
| Drift.DeliveredFiles | bench/apparatus/shared_drift.py:230-236 | delivery in sequence writes exactly the offered files whose group the sibling has, creates no group, and leaves a sound tree |
| Drift.ReceivesIff | bench/apparatus/shared_drift.py:230-235 | a file is delivered where the source holds it and the sibling has the first two components of its name |
| Drift.PathOfName | bench/apparatus/shared_drift.py:119-119 | directory and group of a name, from its components |
| Drift.PropagateIff | bench/apparatus/shared_drift.py:210-236 | from a clean checkout, a sibling with the manifest's group ends clean if and only if there was no obstacle before: a shared file of its own that the source lacks and does not pin at that digest, or a pinned name neither side holds in a directory the sibling has or is about to be given |
| Drift.PropagateConverges | bench/apparatus/shared_drift.py:210-225 | the documented promise, for a source that holds every pinned file and a sibling without stray files |
| Drift.StrayFileStaysRed | bench/apparatus/shared_drift.py:171-188 | a stray shared file keeps the sibling from verifying clean |
| Drift.GapStaysRed | bench/apparatus/shared_drift.py:170-188 | so does a pinned file that neither side holds, where the sibling has its directory |
| Drift.ObstaclesOccur | bench/apparatus/shared_drift.py:210-236 | over every gate with two shared files in the manifest's group and one in another, there are a clean checkout, which holds the first, and two siblings that a propagate leaves red, one by each obstacle |
| Drift.Checkout.Update | bench/apparatus/shared_drift.py:136-152 | nothing but the manifest changes; the pins read back from it are those observed and, unchanged, those of groups not carried here; and verify is then clean, or there was nothing to pin |
| Drift.Checkout.Verify | bench/apparatus/shared_drift.py:155-193 | the three differences give the exit code |
| Drift.Checkout.Propagate | bench/apparatus/shared_drift.py:228-236 | the loop leaves the sibling with what sequential delivery gives, and the source untouched |
| VersionReq.ParseIffMatches | tools/recover_crate.py:138-146 | matching from the left accepts exactly the texts of the regular expression, and finds the only groups it can set |
| VersionReq.VersionReq | tools/recover_crate.py:131-163 | the loop gives the normal form, and refuses the text when it refuses any part |
| VersionReq.CanonicalIsCanonical | tools/recover_crate.py:153-161 | a canonical comparator is accepted and is its own canonical form |
| VersionReq.NormalMeansTheSame | tools/recover_crate.py:131-137 | the result is accepted and parses to the text's comparators, up to the default caret and collapsed wildcards |
| VersionReq.NormalIsIdempotent | tools/recover_crate.py:131-163 | normalizing twice is normalizing once |
| VersionReq.SameNormalIff | tools/recover_crate.py:131-163 | two accepted texts have one normal form if and only if their comparators agree up to those two rewritings |
| VersionTexts.DefaultIsTheCaret | tools/recover_crate.py:158-161 | numbers without an operator come back with a caret, blanks around them gone |
| VersionTexts.OperatorStays | tools/recover_crate.py:158-161 | numbers with an operator come back with it, all blanks gone |
| VersionTexts.WildcardsCollapse | tools/recover_crate.py:153-157 | numbers followed by wildcards come back as the numbers and one star |
| VersionTexts.RefusedIff | tools/recover_crate.py:150-160 | within the grammar a text is refused exactly for a leading zero, an operator or prerelease beside a wildcard, a number behind a wildcard, or a prerelease of an incomplete version |
| VersionTexts.OutsideIsRefused | tools/recover_crate.py:145-147 | outside the grammar every text is refused |
| VersionTexts.CommaJoins | tools/recover_crate.py:144-163 | several requirements are normalized one by one and joined by a comma and a blank, refused if any is |
| VersionReq.FrameIff | tools/recover_crate.py:292-297 | a frame is exactly what reads back as two length-prefixed blocks and nothing more, the first within its quota |
| VersionReq.LittleEndian | tools/recover_crate.py:297 | lengths are four bytes, the least significant first |

## Left out

- The regular-expression engine, the munch automata, the full-text index, the sieve, the line grid and the literal planes: the match function is a parameter.
- Anchored and earliest walks, engine faults, cancellation inside a find, pinning, finalizers and struct layouts of the foreign calls.
- ReplaceAllStringFunc, ReplaceAllFunc, the byte-slice twins, QuoteMeta, AppendText and the other call-throughs of the Go binding: one branch or one loop each.
- That an engine call returns: in the corpus model a search inside the engine can always take its next step, out of it.
- Search's refusals of an empty pattern and of negative bounds, and whether a cancelled search can return a cursor: the latter is decided by native code.
- The pool is as weak as sync.Pool promises: it may forget a handle, or say it has none, at any moment; a constant says of a value's pool whether it hands out what it holds. The methods of `Handles.Regexp` are single moves; interleavings are the machine's.
- A compile that reads the configuration while another goroutine overwrites it is not a step of the pool model; the source does not promise to survive it.
- Rewinding a Walk after Close hands a null handle to native code; the model asks for an open one.
- Floating-point rounding in the judge: the model is over real numbers, with the normal distribution function and the square root known by their laws. The two witnesses against the judge hold for every distribution and root with two more of those laws (`Dominance.Normal`). The bootstrap interval of median_ci is random and not modelled.
- Library sorts (the pool of the judge, the ranges of coalesce, the names of the manifest) enter by their contract: a sorted rearrangement.
- Captures from findGroups enter `Templates.ReplaceAllString` as a parameter that agrees with the spans. The two-line lookup of expand, the inner loops of front_code, fold_orbits and load, the round of front_code and the entries it appends, the round of rebuild, the rank sums of a tie group, and the block walk of the name lookup are methods of their own, to keep the proofs short.
- Unicode's letter and digit classes, its simple case folding and the shape of its data files: parameters and hypotheses. UCD, TOML, JSON and tar parsing are not modelled.
- The computed name families (Hangul syllables and ideograph ranges), the query's upper-casing, name aliases and the escaping of the generated string literal.
- Hash functions: the digest of a file is an arbitrary function, and the schema digest is the text before hashing. `Schema.TextIsWire` asks for identifier names, which the loader does not check.
- The discovery of sibling checkouts, what verify and propagate print, and the argument parsing of every tool.
- The collision counts and listings of the rarity report, and its census of files.
- Everything else recover_crate does: archives, manifests, dependencies and the upload itself.
