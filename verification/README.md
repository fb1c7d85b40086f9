# Verified cores: allowance, text kernels, evidence and judges

This project models the parts of the repository whose result decides something later: how much an
evaluation may still spend, who controls a run, which text survives a cut, what a set of event logs says, and
which judge a worker family gets.  Each part is written in the form of its source.  Code that updates state is a class or a
method with a loop, proved equal to a specification function; pure code is a function.  The main results are lemmas
about those functions, for every input and every run.

| file | what it models |
|---|---|
| `Budget.dfy`, `SettlementOrder.dfy` | the dollar ledger of the stochastic evals: reserve, complete, void, refuse; and when the order of settlements shows |
| `ControllerLock.dfy` | the takeover of a run's controller lock, over interleavings of processes and crashes |
| `SettlementOverlap.dfy` | the one settlement slot of a run, handed back during proofs |
| `Utf8Truncation.dfy` | the byte-bounded truncators and UTF-8 itself (section 3 of RFC 3629) |
| `ShellWords.dfy` | the quote-aware word splitter |
| `StableJson.dfy`, `JsonText.dfy`, `JsonMeaning.dfy`, `TextOrder.dfy` | canonical JSON (string escapes as in section 7 of RFC 8259) and the code-unit order of its keys |
| `StructuralMask.dfy` | the lexer mask, the brace matcher and the top-level splitter |
| `JsonlLog.dfy`, `Whitespace.dfy` | the line-oriented log reader and run tagging |
| `Rounding.dfy`, `NoiseBand.dfy` | four-digit rounding, noise bands and comparisons |
| `EvalMetrics.dfy`, `EvalMeaning.dfy` | the projector from events and usage records to indicators, and what each indicator says about the records |
| `JudgePooling.dfy`, `JudgeMatrix.dfy` | pooling of verdict counts and the choice of the best allowed judge |
| `Collections.dfy` | sequences, stable sorting, folds and permutations used by all of them |

Dollars and other non-integer numbers are reals.  Where a JavaScript number may be NaN or infinite and the code looks
at that, the model has a value for it (`Budget.Number`, `JudgeMatrix.Difference`).  `null`, an absent field and
a field of the wrong type are `None`.

## Where the code and its documentation differ

The model follows the code; each difference has a lemma.

- `evals/budget.mjs:11-15` says that concurrent invocations cannot collectively cross the cap.  They can
  (`CapCanBeCrossed`): the cap is on estimates.  `CapExact` says exactly when a run is beyond it, `CapNeverCrossed` when
  it never is, and `CallKeepsCap` gives the comparison to make before a settlement.
- `src/run/lock.mjs:8-12` says that there is nothing to fence against, since at most one takeover can observe a
  captured lock as stale.  With three processes a live lock can be captured and a third one installed in the
  gap (`RaceIsLost`); one handle is certain exactly for at most two processes (`OneHolderExact`).  A lock put back
  after its release stays until its writer dies (`OrphanArises`, `OrphanBlocksAll`).
- `test/fixture-runtime-guard.mjs:5` promises a mask of the text's length.  A text that ends inside an open quoted
  literal after an odd number of backslashes gets one entry more (`MaskMayOverrun`); `MaskLength` is the exact condition.
- `evals/metrics.mjs:362-364` says it does not matter which source contributed a record.  Two sources that
  record the same node at the same time are an exception: the later one wins (`MergeOrderMatters`).
  `MergeOrderExact` says exactly when the merge order is invisible to the grouped events.
- `evals/metrics.mjs:342-344` says that an absent artefact is reported as a missing measurement and never as a measured
  zero.  Two rates are exceptions when no missing source is named: the protocol failure rate without events
  (`EmptyEvents`) and the judge rate without usage records (`EmptyUsage`).
- `boundedUtf8` and `boundedText` agree except for the empty text with a limit of zero, and but for lone surrogates,
  which only the first replaces by U+FFFD (`TruncatorsAgree`).
- Settlement order shows in the totals exactly when some settlement's evidence changes what another is charged
  for want of a price (`SettlementOrderExact`, with `UnknownSettlementOrderMatters` as an example).
- `evals/judge-canary-matrix.mjs:335-339` breaks ties by id.  Ids that `localeCompare` finds equal are not told apart,
  and then the file read first wins (`WinnerFollowsFileOrder`); `FileOrderExact` and `MatrixOrderExact` say that this
  is the only case in which file order matters.

## Model

| member | source | states |
|---|---|---|
| Budget.StochasticBudget.constructor | evals/budget.mjs:20-43 | a new ledger has spent, voided and reserved nothing, holds the given budget and starts from the seed: a map is copied whole, a record loses its entries that are not finite and non-negative |
| Budget.StochasticBudget.Create | evals/budget.mjs:20-28 | an allowance exists if and only if the budget setting, or without one the flag, is a finite non-negative number, and the flag is not bad even beside a good setting; there is no default |
| Budget.SeedExact | evals/budget.mjs:36-40 | a record seeds exactly its finite non-negative numbers, each as it is; a map is taken whole |
| Budget.UnknownIsNeverBelowSeed | evals/budget.mjs:36-40 | in every ledger reached from a seeded one a fallback charge is at least the seed of its runtime key |
| Budget.BudgetFromArgs | evals/budget.mjs:161-173 | the loop reads the flag as specified, whatever the reading of numbers |
| Budget.FlagExact | evals/budget.mjs:164 | an argument gives the flag a value exactly when it is the flag before that value, or the flag, an equals sign and that value |
| Budget.FirstFlagDecides | evals/budget.mjs:162-170 | the first argument that gives the flag a value decides, and the flag is missing exactly when no argument gives a value |
| Budget.StochasticBudget.Reserved | evals/budget.mjs:46-50 | the loop over the reservations in flight computes the sum of their estimates, whatever order it visits them in |
| Budget.StochasticBudget.StartInvocation | evals/budget.mjs:60-69 | the fields after the call, and the answer, are those of one start step: no estimate fails, reaching the allowance stops, otherwise a fresh reservation is in flight |
| Budget.StochasticBudget.CompleteInvocation | evals/budget.mjs:80-102 | the fields after the call are those of one completion step, also when it fails after raising the observed cost |
| Budget.StochasticBudget.VoidInvocation | evals/budget.mjs:112-123 | the fields after the call are those of one voiding step |
| Budget.StochasticBudget.ReleaseRefused | evals/budget.mjs:133-136 | the fields after the call are those of one refusal step: nothing spent, one more refusal |
| Budget.StochasticBudget.RemoveReservation | evals/budget.mjs:155-157 | reports whether the reservation was active and leaves every other reservation in flight |
| Budget.StochasticBudget.Report | evals/budget.mjs:139-152 | the report is the current totals with the reserved sum and the overrun beyond the budget |
| Budget.OverrunBound | evals/budget.mjs:46-136 | over every interleaving of calls, spent plus voided plus reserved is at most the budget plus what settled charges exceeded their estimates since the last admitted start |
| Budget.CapExact | evals/budget.mjs:46-136 | after every interleaving the cap is kept if and only if what settlements since the last admission added beyond estimates, less what refusals gave back, fits in the room that admission left |
| Budget.CallKeepsCap | evals/budget.mjs:60-136 | a call keeps the cap if and only if it is no settlement or its charge beyond the estimate fits in the room before it |
| Budget.CapNeverCrossed | evals/budget.mjs:46-136 | a run is within the cap at every moment if and only if every call of it fits |
| Budget.CapCanBeCrossed | evals/budget.mjs:11-15 | on a fresh budget of 10 an estimate of 1 is admitted and settles at a price of 50, an overrun of 40 |
| Budget.CapHolds | evals/budget.mjs:11-15 | if no charge exceeds its estimate the cap is never crossed and no overrun is reported |
| Budget.ReportedOverrun | evals/budget.mjs:149 | the reported overrun is covered by the excess of charges over estimates since the last admission |
| Budget.ZeroBudgetAdmitsNothing | evals/budget.mjs:65 | with a zero budget no call is ever admitted and nothing is ever committed |
| Budget.ExactlyOnce | evals/budget.mjs:60-157 | a reservation is admitted at most once, and once admitted it is either in flight or settled exactly once |
| Budget.Conservation | evals/budget.mjs:28-157 | in every reachable ledger spend is priced plus unknown, every total is the sum of its charges, and admitted starts are in flight, completed, voided or refused |
| Budget.FailureKeepsTotals | evals/budget.mjs:93-156 | a call that fails or is stopped changes no total, counter or reservation; settling an inactive reservation fails; voiding at an unknown zero cost fails; and a completion without a price fails for its cost exactly when its stated number is not finite and positive or its fallback charge is not positive |
| Budget.HighestNeverDecreases | evals/budget.mjs:82-84 | the highest observed cost of a runtime key never decreases over any continuation of a run |
| Budget.UnknownIsNeverCheap | evals/budget.mjs:88-93 | in every reachable ledger a charge made without a price or a stated number is positive and at least every priced charge ever recorded for its runtime key |
| Budget.HighestIsObserved | evals/budget.mjs:82-99 | a remembered cost is the seed, a priced charge of the run or evidence a completion carried: it is never invented |
| SettlementOrder.SettlementsCommute | evals/budget.mjs:80-136 | from every ledger two settlements of different reservations reach the same ledger in either order if and only if neither leaves evidence that changes what the other is charged |
| SettlementOrder.SettlementOrderExact | evals/budget.mjs:80-136 | any settlements of different reservations end in the same totals, counters, reservations and observed costs in every order if and only if, on the ledger before them, no one's evidence changes what another is charged |
| SettlementOrder.KnownChargesInAnyOrder | evals/budget.mjs:80-136 | in particular when each is a refusal, has a price or states a number, an unknown one included |
| SettlementOrder.UnknownSettlementOrderMatters | evals/budget.mjs:88-92 | after two admissions on a fresh budget, a completion without a price and one at a price of 5 spend 6 dollars in one order and 10 in the other |
| SettlementOrder.StepAdds | evals/budget.mjs:80-136 | a settlement adds an effect and evidence that depend on the ledger only by being active, and by its fallback charge when it has no price and states no number |
| SettlementOrder.OneAffected | evals/budget.mjs:82-99 | of two settlements at most one can change the charge of the other |
| Budget.PricedCost | evals/budget.mjs:201-207 | whatever the price table answers, a price is absent or non-negative |
| Budget.PriceExact | evals/budget.mjs:201-207 | a price is the table's answer for the runtime when that is finite and not negative; a runtime given by name is priced as that model |
| Budget.KeyExact | evals/budget.mjs:176-179 | prices and evidence are kept by the runtime's id, else by its model, and a name is a model |
| Budget.EstimateExact | evals/budget.mjs:187-193 | an estimate is the finite non-negative number given, and no other then; without one the price of the usage, and without that the positive observed cost |
| Budget.StartExact | evals/budget.mjs:60-69 | a start is admitted exactly when its estimate leaves the committed amount below the budget, and reserves that estimate for that runtime |
| Budget.FallbackExact | evals/budget.mjs:91-116 | a fallback charge is the positive observed cost of the key, and the estimate exactly when there is none |
| Budget.ChargeExact | evals/budget.mjs:85-116 | a settlement charges its price, or the number stated beside an unknown price, or the fallback with its own evidence counted in, and says which |
| Budget.ObserveExact | evals/budget.mjs:81-84 | carried evidence raises the observed cost of its own key to the larger of both, and no other key |
| Utf8Truncation.BoundedUtf8 | src/util.mjs:99-107 | the backward scan over continuation bytes, decoded, is the longest prefix of whole code points that leaves room for the ellipsis |
| Utf8Truncation.BoundedText | src/util.mjs:157-170 | the forward greedy loop keeps the same longest prefix, without replacing lone surrogates |
| Utf8Truncation.TailText | src/util.mjs:133-139 | the forward scan from the cut, decoded, is the longest suffix of whole code points |
| Utf8Truncation.DecodeEncode | src/util.mjs:100-101 | decoding an encoded text gives it back, with lone surrogates as U+FFFD |
| Utf8Truncation.KnownEncodings | src/util.mjs:100-103 | four texts, the ellipsis among them, have the bytes that RFC 3629 gives them |
| Utf8Truncation.LeadIsBoundary | src/util.mjs:105 | every byte of an encoding that is not a continuation byte starts a code point |
| Utf8Truncation.FitIsLongest | src/util.mjs:163-168 | a prefix of k code points fits the limit exactly when k is at most the number kept |
| Utf8Truncation.TruncatorsAgree | src/util.mjs:99-170 | for every text and limit the two truncators give the same text up to lone surrogates exactly when it is not the empty text with limit zero; and exactly the same text when also no lone surrogate is kept |
| Utf8Truncation.BoundedSize | src/util.mjs:101-106 | the result takes at most max(maxBytes, 3) bytes, at most maxBytes when the ellipsis fits, and is the bare ellipsis when it does not |
| Utf8Truncation.BoundedIsMaximal | src/util.mjs:104-106 | of a text that is cut, a longer prefix of code points would not fit with the ellipsis |
| Utf8Truncation.BoundedIdempotent | src/util.mjs:99-107 | cutting a cut text at the same limit changes nothing |
| Utf8Truncation.TailIsMaximal | src/util.mjs:136-138 | a suffix of code points fits exactly when it is no longer than the kept one, which drops at most 3 bytes beyond the cut |
| Utf8Truncation.TailStartIsFirst | src/util.mjs:136-137 | the kept suffix fits and every earlier start is too long, also for negative limits |
| ShellWords.Split | src/util.mjs:256-293 | the loop over quote, escape and current word computes the specified words for every text |
| ShellWords.ReadsBack | src/util.mjs:256-293 | words printed as adjacent bare, single-quoted, double-quoted or Windows-path segments, separated by whitespace, read back exactly |
| ShellWords.EveryListIsPrintable | src/util.mjs:256-293 | every list of strings, including empty ones and ones of quotes, spaces and backslashes, has a line that reads as it |
| ShellWords.SplitAtSpace | src/util.mjs:265-269 | splitting distributes over concatenation at a whitespace character if and only if the text before it leaves no quote open |
| ShellWords.ScanGrows | src/util.mjs:264-292 | no further text removes or changes a finished word, or shortens the current one |
| ShellWords.OpenDoubleQuote | src/util.mjs:275-291 | a double quote that is never closed takes everything after it into the last word, and a backslash at the very end stays one |
| ShellWords.OpenSingleQuote | src/util.mjs:270-291 | so does a single quote |
| Whitespace.SpacesExact | src/util.mjs:265 | the whitespace that separates words is that of ECMAScript, character by character |
| StableJson.Canonical | src/util.mjs:64-71 | two values serialize to the same string if and only if they are equal up to the key order of objects at every depth; integers below 10 to the 21st are printed digit by digit |
| JsonMeaning.ObjectExact | src/util.mjs:66-69 | an object is written as its fields in ascending key order, each a quoted key, a colon and its value, with commas and between braces |
| JsonMeaning.ArrayExact | src/util.mjs:65 | an array is written as its items in order, with commas and between brackets |
| JsonMeaning.BoolExact | src/util.mjs:70 | true and false are written as such |
| JsonMeaning.ScalarsExact | src/util.mjs:70 | numbers and strings are written as they are spelled |
| JsonMeaning.UnescapeEscape | src/util.mjs:68-70 | a reader of JSON strings that follows section 7 of RFC 8259 gets every string back |
| JsonMeaning.EscapesExact | src/util.mjs:68-70 | short escapes are used where they exist, and everything printable but quotes, backslashes and surrogates stands for itself |
| JsonMeaning.DecimalReads | src/util.mjs:70 | an integer's digits spell it, without a leading zero |
| StableJson.SerializeIsPrint | src/util.mjs:64-71 | serializing is printing in the given order after sorting the keys at every depth |
| StableJson.PrintDelimits | src/util.mjs:64-71 | at one place of any text at most one value can be read: a printed value followed by a delimiter is never the start of another, and printing is injective |
| StableJson.NormalIffSame | src/util.mjs:68 | values have the same key-sorted form exactly when they are equal up to key order |
| JsonText.QuotedDetermined | src/util.mjs:68-70 | a quoted string read at a place of a text is determined: escaping is injective, lone surrogates and control characters included |
| StableJson.NumbersDetermined | src/util.mjs:70 | a number read at a place of a text is determined by its digits, and no integer prints like another number |
| TextOrder.LeIsTotalOrder | src/util.mjs:68 | the code-unit order that keys are sorted by is total, transitive and antisymmetric |
| TextOrder.LeExact | src/util.mjs:68 | keys are ordered by the first code unit in which they differ, and a proper beginning comes first |
| StructuralMask.ComputeMask | test/fixture-runtime-guard.mjs:12-45 | the loop's array marks exactly the characters the lexer's state makes visible |
| StructuralMask.MaskLength | test/fixture-runtime-guard.mjs:5-22 | the mask has the text's length exactly when the text does not end with an odd run of backslashes that began inside a quoted literal |
| StructuralMask.MaskMayOverrun | test/fixture-runtime-guard.mjs:22 | an opening quote and a backslash, two characters, have a mask of three entries |
| StructuralMask.MaskMarksCode | test/fixture-runtime-guard.mjs:12-45 | in every sequence of plain, quoted, line-comment and block-comment tokens exactly the characters of the plain ones are marked |
| StructuralMask.OneCommentExact | test/fixture-runtime-guard.mjs:33-41 | a block comment that closes nowhere inside is read as one comment, to its end, if and only if its body does not begin with a slash |
| StructuralMask.SlashBlocks | test/fixture-runtime-guard.mjs:33-41 | a body that begins with a slash may show code (`/*/*/` shows its fourth character) and may still be hidden (`/*//*/` is read as two comments) |
| StructuralMask.SliceIsFresh | test/fixture-runtime-guard.mjs:154-160 | between two visible positions of a text the slice of its mask is the mask of the substring lexed on its own |
| StructuralMask.BlockOf | test/fixture-runtime-guard.mjs:154-160 | the block taken between matching braces comes with a slice that equals its own mask, and there is no block exactly when the brace is hidden or never closes |
| StructuralMask.FindMatchingBrace | test/fixture-runtime-guard.mjs:53-64 | the returned index is the first visible closing brace at which the depth returns to zero, and -1 is returned only if there is none |
| StructuralMask.FirstReturnToZero | test/fixture-runtime-guard.mjs:54-61 | from a visible opening brace, that index is the first at which as many braces have closed as opened |
| StructuralMask.SplitTopLevelEntries | test/fixture-runtime-guard.mjs:74-90 | the loop returns the trimmed non-blank pieces between the visible commas at depth zero |
| Whitespace.TrimExact | test/fixture-runtime-guard.mjs:89 | trimming drops whitespace at both ends, all of it, and nothing else |
| StructuralMask.EntriesExact | test/fixture-runtime-guard.mjs:88-89 | the entries are the trimmed pieces that hold more than whitespace, each such piece giving one |
| StructuralMask.PiecesRejoin | test/fixture-runtime-guard.mjs:74-88 | the raw pieces joined with commas are the text |
| StructuralMask.PieceEndsAtCut | test/fixture-runtime-guard.mjs:83-88 | there is one piece more than there are visible depth-zero commas, and each such comma ends the piece of its number |
| StructuralMask.StartAfterLastCut | test/fixture-runtime-guard.mjs:83-86 | a piece starts just after a visible depth-zero comma and holds none |
| JsonlLog.ReadRecords | evals/metrics.mjs:386-398 | the loop parses the committed lines in order and fails as soon as one does not parse; an unterminated last line is never parsed |
| JsonlLog.TornTail | evals/metrics.mjs:386-398 | a log of records cut at any character reads as exactly the records whose newline survived |
| JsonlLog.WholeIsExact | evals/metrics.mjs:394 | a record survives a cut exactly when all of it and its newline lie before the cut |
| JsonlLog.LogReadsBack | evals/ledger.mjs:77-88 | a whole log reads back as the records written |
| JsonlLog.ReturnedLogReadsBack | evals/ledger.mjs:79 | so does a log whose lines end in carriage return and newline |
| JsonlLog.TagIsRunId | evals/ledger.mjs:55 | the tag taken from a file name is the run id if and only if the run id holds no dot |
| Rounding.Round4Near | src/campaign/metrics-evals.mjs:23-25 | rounding moves a value by at most half of 0.0001, upward on a tie |
| Rounding.Round4Negated | src/campaign/metrics-evals.mjs:23-25 | rounding is odd except on ties, where a value and its negation sum to 0.0001 |
| NoiseBand.NoiseBandOf | evals/metrics.mjs:506-529 | the loops compute, for every indicator named by any report, the band of its sorted numeric readings, and none for the others |
| NoiseBand.BandCoversReadings | evals/metrics.mjs:525-526 | any two readings differ by at most twice the band plus 0.0001, the extremes by at least twice the band less 0.0001, and the median lies between the extremes |
| NoiseBand.MedianSplits | evals/metrics.mjs:525 | the median is no less than any reading of the lower half and no more than any of the upper half |
| NoiseBand.ReportedMedian | evals/metrics.mjs:520-526 | one reading is its own median without a band; from two on the reported median is theirs up to half a unit of rounding |
| NoiseBand.BandsExact | evals/metrics.mjs:511-518 | an indicator has a band exactly when a report names it, and its readings are the numbers the reports give it |
| NoiseBand.BandsIgnoreOrder | evals/metrics.mjs:506-529 | the bands do not depend on the order of the reports |
| NoiseBand.CompareSwaps | evals/metrics.mjs:437-448 | a comparison and its reverse swap their sides, are comparable alike, and have the same direction exactly unless the sides state different ones |
| NoiseBand.CompareKeepsSides | evals/metrics.mjs:442-444 | a comparison holds the value and the count of each side, null and zero for a missing one |
| NoiseBand.DeltaIsGrowth | evals/metrics.mjs:438-441 | the delta is after minus before up to half a unit of rounding, and there is one exactly when both are numbers |
| NoiseBand.SignificanceExact | evals/metrics.mjs:449-453 | significance is judged exactly when both sides are numbers and the indicator has a band |
| NoiseBand.DirectionExact | evals/metrics.mjs:445 | the direction is the later side's, else the earlier side's, else informative |
| NoiseBand.CompareReversed | evals/metrics.mjs:440-441 | their deltas sum to 0, or to 0.0001 exactly on a rounding tie |
| NoiseBand.SignificantIsLarge | evals/metrics.mjs:449-453 | a difference called significant exceeds the band less half a unit of rounding, and one called insignificant is within the band and half a unit |
| EvalMetrics.GroupEvalEventsByNode | evals/metrics.mjs:186-197 | the grouping loop and the in-place sorts give each node its events, stably sorted by time |
| EvalMeaning.GroupInTime | evals/metrics.mjs:179-202 | of two events of a group the earlier one in the group is not later in time, an unreadable time standing at zero |
| EvalMetrics.SortedEntries | evals/metrics.mjs:195-202 | sorting by time and then recorded index is the stable sort by time, unreadable times counting as zero |
| EvalMetrics.TerminalEvalEventOf | evals/metrics.mjs:211-217 | the backward search finds the last event whose status is neither pending nor running |
| EvalMetrics.TerminalIsLastSettled | evals/metrics.mjs:204-217 | the terminal event is a settled event after which none has settled, and is missing exactly when no event has settled |
| EvalMeaning.TerminalExact | evals/metrics.mjs:204-217 | a node's terminal event is a recorded event that settles it, such that no other that does is later in time, nor recorded later at one time; there is none exactly when no event settles it |
| EvalMeaning.NodesThatEnd | evals/metrics.mjs:68-89 | a node is closed exactly when its last settling event says done or no-op, and blocked exactly when it says blocked |
| EvalMeaning.RevisionsExact | evals/metrics.mjs:223-225 | the revisions of a node are those of its last settling event, or none |
| EvalMetrics.EvalFirstPassGateRateOf | evals/metrics.mjs:281-298 | the loop gives one for every node whose first verdict passed, zero for every other gated node, and counts them |
| EvalMetrics.FirstVerdictIsFirst | evals/metrics.mjs:290 | the verdict taken is recorded by an event before which none has one |
| EvalMeaning.VerdictExact | evals/metrics.mjs:290 | a gate's verdict is that of the recorded event before which no other has one, in time and then in the record |
| EvalMeaning.GatesExact | evals/metrics.mjs:281-298 | a node is gated exactly when some event has a verdict for it, and its value is 1 exactly when the first verdict is "pass" |
| EvalMetrics.EvalJudgeInvocationNodeIdsOf | evals/metrics.mjs:266-271 | the loop collects exactly the nodes of the judge records |
| EvalMetrics.EvalWorkerRuntimesByNodeOf | evals/metrics.mjs:328-338 | the loops collect every node's distinct worker runtimes, for the nodes that have one |
| EvalMeaning.FailoverExact | evals/metrics.mjs:91-92 | a node was worked on exactly when a worker event names a runtime for it, and failed over exactly when two name different ones |
| EvalMetrics.EvalUsageCostOf | evals/metrics.mjs:245-258 | the loop sums and counts the known costs and collects their nodes |
| EvalMetrics.CostedNodes | evals/metrics.mjs:245-258 | a node counts as costed exactly when some record reports a known cost for it, and each such record is counted once |
| EvalMeaning.SpendExact | evals/metrics.mjs:250-256 | the known cost is the sum over the records that have a cost of no unknown provenance |
| EvalMeaning.CostedExact | evals/metrics.mjs:254 | a node is costed exactly when a record with such a cost names it, and its name is not empty |
| EvalMeaning.JudgedExact | evals/metrics.mjs:266-271 | a node is judged exactly when a record of the judge role names it |
| EvalMetrics.EvalEventSpanSecondsOf | evals/metrics.mjs:307-319 | the loop computes the span between the clock's bounds, none for fewer than two readable times |
| EvalMetrics.ClockBounds | evals/metrics.mjs:307-319 | the clock's bounds are the least and the greatest readable time, and both occur |
| EvalMeaning.SpanExact | evals/metrics.mjs:307-319 | there is a span exactly when two events have readable times, and it is the greatest difference of two, in seconds |
| EvalMetrics.ProjectEvalIndicators | evals/metrics.mjs:54-106 | the code's report is the specified projection of the records that are objects |
| EvalMeaning.RatesExact | evals/metrics.mjs:79-103 | each rate, times its denominator, is its numerator up to rounding, and both are sizes of sets of nodes defined on the records; with its direction, excluded runs and missing sources |
| EvalMeaning.GateRateExact | evals/metrics.mjs:162-172 | the gate rate holds the passes of every gated node of the kept events, and is missing exactly without gates or with a missing source |
| EvalMeaning.TotalsExact | evals/metrics.mjs:95-101 | the three means are of the known cost, the revisions and the span over the closed nodes of the record |
| EvalMeaning.LostExact | evals/metrics.mjs:116-123 | a missing source feeds an indicator exactly when it is one of its files, or such a file of a run |
| EvalMeaning.WithoutExact | evals/metrics.mjs:174-177 | exclusion drops exactly the events that name an excluded run, and keeps every other as often as it is recorded |
| EvalMetrics.TotalsAreMeans | evals/metrics.mjs:95-101 | cost, revisions and wall clock, times their count, are the known cost, the summed revisions and the span up to rounding; each is missing exactly when nothing was counted, the sum is unknown or a source is missing |
| EvalMetrics.RatesAreFractions | evals/metrics.mjs:150-160 | judge, blocked and failover rates lie between 0 and 1, and are missing exactly when nothing was counted or a source is missing |
| EvalMetrics.ProtocolRateExact | evals/metrics.mjs:93-103 | the protocol failure rate, events over usage records, is a fraction if and only if there are no more failures than records |
| EvalMetrics.ProtocolRateMayExceedOne | evals/metrics.mjs:93-103 | two failures beside one usage record make a rate of 2 |
| EvalMetrics.EmptyEvents | evals/metrics.mjs:340-345 | without events every indicator is missing, but for the protocol failure rate, which is zero exactly when there are usage records and no missing source is named |
| EvalMetrics.EmptyUsage | evals/metrics.mjs:340-345 | without usage records cost and protocol failures are missing, and the judge rate is zero exactly when a checkpoint closed and no missing source is named |
| EvalMetrics.ProjectionIgnoresOrder | evals/metrics.mjs:54-106 | any reordering that keeps the order of events of one node and one time, and any reordering of usage records, give the same report |
| EvalMetrics.ExclusionDeletesEvents | evals/metrics.mjs:64-104 | first-pass, blocked and failover rates with runs excluded are those of the event list without these runs' events, but for the run names they list |
| EvalMetrics.ExclusionKeepsTotals | evals/metrics.mjs:64-104 | cost, revisions and wall clock do not change for any exclusion set, nor do the judge and protocol rates but for the run names they list |
| EvalMetrics.MergeOrderIrrelevant | evals/metrics.mjs:369-377 | run sources whose tied events commute pairwise, in particular ones that share no node and time, give the same report merged in any order |
| EvalMetrics.MergeOrderExact | evals/metrics.mjs:362-377 | merging in every order groups the events alike if and only if for every two sources the events of one node and one time read the same in either order |
| EvalMetrics.MergeOrderMatters | evals/metrics.mjs:362-377 | of a "done" and a "blocked" at one time the later source wins: the blocked count is 1 in one order and 0 in the other |
| JudgePooling.PoolPartitions | evals/judge-canary-matrix.mjs:220-252 | invocations are errors plus defect verdicts plus clean verdicts; a rate is measured exactly when its verdicts exist |
| JudgePooling.CountsExact | evals/judge-canary-matrix.mjs:221-237 | the pooled counts count the verdicts on planted and on clean cases, those cited and those rejected |
| JudgePooling.RateExact | evals/judge-canary-matrix.mjs:235-249 | each of the six rates is measured exactly when it has verdicts to count among, and lies within bounds exactly when its counts do |
| JudgePooling.CasesExact | evals/judge-canary-matrix.mjs:229 | the cases are the distinct ids |
| JudgePooling.BlockingOrdered | evals/judge-canary-matrix.mjs:243-250 | recall blocking at major and above is at most recall at minor and above, which is at most recall; false alarms are ordered alike |
| JudgePooling.PoolAdds | evals/judge-canary-matrix.mjs:41-43 | the pooled counts of two sets of outcomes add |
| JudgePooling.PoolCostAdds | evals/judge-canary-matrix.mjs:227 | pooled costs, voided reservations included, add over sets of outcomes up to their rounding |
| JudgePooling.MoneyExact | evals/judge-canary-matrix.mjs:194-257 | the pooled cost is what was spent and what was voided, up to rounding, and the priced cost per verdict is the mean over the priced verdicts |
| JudgePooling.CostsAreMeans | evals/judge-canary-matrix.mjs:240-257 | cost per case times invocations is the cost, and priced cost per verdict times priced verdicts is the priced sum, up to rounding; each is missing exactly when it has no invocation or priced verdict |
| JudgePooling.PooledRateBetween | evals/judge-canary-matrix.mjs:235-249 | each of the six pooled rates lies within any bounds that hold that rate of every file that measured one |
| JudgePooling.PoolIgnoresOrder | evals/judge-canary-matrix.mjs:220-252 | pooling does not depend on the order of the outcomes |
| JudgeMatrix.GroupFiles | evals/judge-canary-matrix.mjs:295-308 | the loop refuses exactly the lists in which one runtime has two vendors, and otherwise groups outcomes, paths and repetitions by runtime |
| JudgeMatrix.PoolJudges | evals/judge-canary-matrix.mjs:294-328 | there are rows exactly when every runtime has one vendor, and then one per runtime, stably sorted by the locale's comparison of ids |
| JudgeMatrix.NotAfterIsPreorder | evals/judge-canary-matrix.mjs:331-350 | with NaN read as a tie, "not after" is a total preorder over all judges whenever the comparison of ids is one, so the sort is well defined |
| JudgeMatrix.JudgesOrdered | evals/judge-canary-matrix.mjs:309-310 | pooled judges have different ids and come in the order of the comparison, and one without a cost has no false-alarm rate |
| JudgeMatrix.JudgesOfFiles | evals/judge-canary-matrix.mjs:295-309 | there is a judge for every id a file names, and for no other |
| JudgeMatrix.JudgeExact | evals/judge-canary-matrix.mjs:305-327 | a judge pools all cases of its files, and for each of five families those it authored; its repetitions are the rounds of its files |
| JudgeMatrix.ComparatorExact | evals/judge-canary-matrix.mjs:344-350 | of two judges with costs and rates the comparator is negative exactly when the left one beats the right one, and zero exactly when they tie |
| JudgeMatrix.WindowMembers | evals/judge-canary-matrix.mjs:363-368 | a measured judge is in the window exactly when its recall is within 0.05 of every measured one's, and an unmeasured one only if none is measured |
| JudgeMatrix.BestBeatsWindow | evals/judge-canary-matrix.mjs:361-370 | the best judge is in the window and beats every other there by cost, then false alarms, then id, although equal missing costs compare as NaN; one it does not beat ties with it in all three and stands after it |
| JudgeMatrix.BeatsIsStrict | evals/judge-canary-matrix.mjs:344-350 | of two judges at most one beats the other, and then they do not tie |
| JudgeMatrix.BelowWindowIsIgnored | evals/judge-canary-matrix.mjs:363-369 | inserting a judge below the window anywhere does not change the best |
| JudgeMatrix.BestJudge | evals/judge-canary-matrix.mjs:389-406 | for a family with an allowed judge, the best is of another vendor, within 0.05 of every allowed measured recall, and beats every other judge of the window or ties with it and stands before it |
| JudgeMatrix.MarkedCell | evals/judge-canary-matrix.mjs:392-404 | a cell repeats its judge's id, vendor, rates, cost and cases; exactly the cell of the best judge is marked, and the row names it |
| JudgeMatrix.RowsExact | evals/judge-canary-matrix.mjs:311-318 | a judge row holds its judge and the paths of the files with its id, in order |
| JudgeMatrix.AllowedExact | evals/judge-canary-matrix.mjs:390-404 | a judge is allowed exactly when it is of another vendor, and a row without one says so and names no best |
| JudgeMatrix.RowsOfFamilies | evals/judge-canary-matrix.mjs:32 | there is one row for each of five worker families, in order |
| JudgeMatrix.ConsistentInAnyOrder | evals/judge-canary-matrix.mjs:302-304 | the order of the result files does not decide whether they are refused |
| JudgeMatrix.FileOrderExact | evals/judge-canary-matrix.mjs:294-328 | every order of the result files gives the same pooled judges if and only if the locale's comparison tells the ids of different judges apart |
| JudgeMatrix.MatrixOrderExact | evals/judge-canary-matrix.mjs:389-406 | and every order gives the same family rows if and only if it does |
| JudgeMatrix.WinnerFollowsFileOrder | evals/judge-canary-matrix.mjs:309-349 | of two judges with tied ids and the same outcomes, the best of every family allowed both is the one whose file was read first |
| TextOrder.DecomposedLeTies | evals/judge-canary-matrix.mjs:310 | a comparison that respects canonical equivalence is a total preorder and ties two different ids: U+00E1, and U+0061 with U+0301 |
| JudgeMatrix.BestIgnoresJudgeBelowWindow | evals/judge-canary-matrix.mjs:389-406 | adding a judge whose recall is below the window does not change the best of a family row |
| ControllerLock.OneHolderExact | src/run/lock.mjs:149-194 | over every interleaving of file operations and every crash there is at most one handle if and only if at most two processes contend |
| ControllerLock.StaleLockIsTakenOver | src/run/lock.mjs:161-192 | a contender left alone with the lock of a dead process, or an unreadable one, renames it aside, discards it and installs its own |
| ControllerLock.FreeLockIsTaken | src/run/lock.mjs:161-164 | and with nothing under the name it installs its own at once |
| ControllerLock.CrashedHolderIsReplaced | src/run/lock.mjs:131-141 | a holder that crashes is replaced by the next contender |
| ControllerLock.LiveLockIsRespected | src/run/lock.mjs:168-171 | a live process's lock is left alone and the contender gives up |
| ControllerLock.ReleaseExact | src/run/lock.mjs:261-268 | releasing removes the holder's own lock, and leaves alone whatever else stands under the name |
| ControllerLock.GivesUpExact | src/run/lock.mjs:161-193 | in every run a call gives up exactly when it reads the lock of a live process or ends its twentieth takeover |
| ControllerLock.GetsLockExact | src/run/lock.mjs:162-164 | a step gets the lock exactly when it links while nothing stands under the name, and the handle then passes its `assert` |
| ControllerLock.SecondHolderExact | src/run/lock.mjs:161-192 | with any number of processes a second handle appears exactly when a process installs its lock while nothing stands under the name and another process holds |
| ControllerLock.OneAsserts | src/run/lock.mjs:249-260 | in every run at most one handle passes its `assert` |
| ControllerLock.RaceIsLost | src/run/lock.mjs:178-189 | after a live lock was renamed aside, a third process can install its own in the gap, and the put-back discards the live one: two handles |
| ControllerLock.OrphanArises | src/run/lock.mjs:178-189 | two processes can reach a state in which a released lock is put back and nobody holds it |
| ControllerLock.OrphanBlocksAll | src/run/lock.mjs:161-193 | such a lock blocks every process, its writer included, in every run in which the writer does not die |
| SettlementOverlap.Overlap.AcquireSection | src/engine/settlement-overlap.mjs:72-79 | the fields after the call are those of taking the free slot or joining the queue |
| SettlementOverlap.Overlap.ReleaseSection | src/engine/settlement-overlap.mjs:84-88 | the fields after the call are those of the hand-off to the first waiter, or of a free slot without one |
| SettlementOverlap.Overlap.ParkForProof | src/engine/settlement-overlap.mjs:100-107 | parking is one park step: the slot is handed back and the settlement proves |
| SettlementOverlap.Overlap.EndSettlement | src/engine/settlement-overlap.mjs:126-137 | ending is one finish step: the first error that is not a lost lock is kept, and the slot is handed back |
| SettlementOverlap.SectionsNeverOverlap | src/engine/settlement-overlap.mjs:12-19 | in every run in which settlements park and end from their sections, at most one is in its section, and whenever one waits another is in its section |
| SettlementOverlap.FirstComeFirstServed | src/engine/settlement-overlap.mjs:80-88 | in every such run, who was given the slot, followed by who still waits, is who asked for it, in order |
| SettlementOverlap.ParkExact | src/engine/settlement-overlap.mjs:52-56 | a settlement that does not wait may hand the slot back soundly if and only if it is in its section or nobody is: nested or concurrent proofs of one settlement break mutual exclusion |
| SettlementOverlap.FailureIsFirst | src/engine/settlement-overlap.mjs:135-137 | the failure reported is the first error that is not a lost lock |

## Left out

- The scheduler, resume, the integration transaction, routing and the campaign chain (`src/engine`, `src/repo`, `src/campaign`): not modelled but for the settlement slot.
- Command lines, rendering, installers, file system access, child processes and fixtures: but for the budget flag, what they read is a parameter here.
- `priceUsage` (src/run/usage.mjs), `JSON.parse` and `Date.parse`: arbitrary functions or already-parsed values.  The clock is the parameter `startedAt`.
- A reservation's object identity is a serial number that is never reused.
- A `Map` given as the seed of observed costs is copied unfiltered, in the source and in the model, but the model's map holds only finite numbers.
- Floating-point rounding error: numbers are reals, and only the explicit four-digit rounding is kept.
- `StableJson.Canonical`: numbers that are not integers below 10 to the 21st are represented by the literal with a point or an exponent that they print as, so two of them are equal when these are; NaN, infinities, `undefined` and `toJSON` are not JSON values.
- `localeCompare` on runtime ids is a parameter: any total preorder.
- Sorted lists of distinct names are sets, and the order of a record's keys is not modelled; nor is a node named `__proto__`, which a plain object drops.
- `EvalMetrics.MergeOrderIrrelevant`: one way, since reports can coincide although their events group differently; `EvalMetrics.MergeOrderExact` is the exact condition on the grouped events.
- The `{indicators}` wrapper of a report: a band reads the map inside it.
- Process start tokens: a process of the lock's model is a pid with its token, so a recycled pid is another process; on a platform without tokens it would read as alive.  Two acquisitions of one process are told apart by a serial number in place of the start time.
- Reading errors other than a missing or unparsable lock file, and the removal of private files, which no other process sees.
- The promise of a settlement-slot waiter resolves at once: a granted waiter counts as in its section.  A node's second settlement while its first is pending, which the scheduler excludes, is not modelled.
- Decoding malformed UTF-8 reads one U+FFFD per byte that starts no well-formed sequence; the truncators only decode cuts at code point boundaries, so no result depends on that choice.
- The regular expressions that find `runtimes` blocks and read an entry (`parseRuntimeEntry`, `stripLeadingTrivia`): pattern search over pieces that are modelled.
- `test/host-layout-guard.mjs` holds a second copy of the mask and is not modelled apart.
- The mask is not a full JavaScript lexer: it reads `/*/` as a complete comment (`StructuralMask.OneCommentExact`) and does not know regular expressions or template substitutions; the model does the same.
- `compareEvalReports` and `bandValueOf` (evals/metrics.mjs:467-492): a loop over the comparison that is modelled.
