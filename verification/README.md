# Verified model of big-code-analysis

A Dafny model of the self-contained algorithms of big-code-analysis, with proofs of what they are for.
`dafny verify dfyconfig.toml` checks all of it.

| files | what is modelled |
|---|---|
| `SpaceTree`, `SpaceContents`, `OpsWalk`, `UnframedWalk`, `Vocabularies`, `SpaceVocabularies` | The operator/operand walk of `src/ops.rs`: work stack, ancestor chain, level counter, stack of open states. `SpaceTree` says by recursion what tree of spaces a file is meant to have, and `SpaceContents` what each space in it says of its node; `OpsWalk` is the loop; `UnframedWalk` is what it does without a frame at the root; the other two are about what is listed for a space. |
| `MapTree` | The frame-stack tree conversion of `src/wire.rs`, with frames as objects updated in place. |
| `SuppressionMarker`, `CommentStripping`, `NativeMarkers`, `MarkerRoundTrip`, `LizardMarkers`, `SuppressionAudit`, `AuditContents`, `SuppressionWalk` | The suppression-marker grammar of `src/suppression.rs`, from raw comment text to silenced metrics and diagnostics, and the audit walk that lists the markers of a file. |
| `RustTokens`, `RustLexer`, `SourceLines`, `HitOffsets` | The Rust lexer of `utils/check-diagnostic-prefix.py`, against a token grammar stated without a scanner, and its line reporting. |
| `ConcurrentRunner`, `RunnerInvariant`, `RunnerOutcomes`, `RunnerOrder` | `ConcurrentRunner::run` of `src/concurrent_files.rs` as a step system: the calling thread, N consumers, a FIFO channel, poison pills, panicking callbacks, first-error-wins joins. |
| `EditDistance`, `Suggestion` | Two-row Levenshtein with its early exits, and "did you mean?" selection, of `src/suggestion.rs`. |
| `CivilDate`, `Rfc3339` | The date conversion and time stamp of `big-code-analysis-cli/build.rs`, against the proleptic Gregorian calendar (section 5.7 and Appendix C of RFC 3339) and the date-time production (section 5.6 of RFC 3339). |
| `BitFields`, `Metrics`, `MetricSet` | The metric bit field of `src/metric_set.rs` and its closure under dependencies. |
| `IntHash`, `HashPermutations` | The 64-bit multiplicative hasher of `src/int_hash.rs`. |
| `Wrappers`, `Sequences`, `Sorting`, `ByteStrings`, `Strings` | Shared: results, sequence facts, sorting, byte order, Rust string operations. |

Code that updates things in place is a method proved against a specification function or predicate; loops keep
the source's local variables. A loop body is a method of its own where that keeps its proof short
(`OpsWalk.VisitNode`, `MapTree.Turn`, `SuppressionWalk.Visit`, `MetricSet.Turn`). Ghost parameters carry only
proof information.

## What the proofs found

- **What keeps the root framed.** `ops_inner` calls its empty-root error unreachable (src/ops.rs:392-399): a root not
  classified as `Unit` gets a synthetic frame, and every supported language's root opens a space of its own. These two
  are `SpaceTree.OpensFrame`, and under it the result is the space tree (`OpsWalk.OpsInner`). The error comes back
  iff the root is a `Unit` and no node at all is promoted (`UnframedWalk.EmptyRootIff`). When the root is a `Unit`
  that is not promoted but some node is, the first outermost space takes the file's name, its later siblings as
  children and their counts, and the counts met before it are lost (`UnframedWalk.UnframedOutcome`, shown on a tree
  of three nodes by `UnframedWalk.FlatOutcome`).
- **Distinct vocabularies.** Operands are listed without repetition unless a key that loses bytes in decoding comes out
  as another key; on valid text they always are (`SpaceVocabularies.OperandsDistinctIff`, `ValidOperandsDistinct`).
  Operators on valid text are iff no two token ids that occur share a spelling and none is spelled as a primitive type
  that occurs (`SpaceVocabularies.ValidOperatorsDistinctIff`). Inputs that repeat: two lossy keys
  (`Vocabularies.LossyKeysClash`), and either clash of spellings (`SpaceVocabularies.SpellingsClash`).
- **Markers on one line come out in reverse.** The audit sorts stably by line, after a walk that meets children last
  to first: unless comments nest, several markers on one line are listed last to first
  (`SuppressionAudit.LinesComeOutReversed`).
- **Silent markers.** The rule that a recognisable marker never silently does nothing (src/suppression.rs:211-213) has
  one exception, which the code intends: a list of nothing but blanks, in whatever comment
  (`NativeMarkers.SilentCommentIff`).
- **White space.** The comment on `parse_marker` (src/suppression.rs:385-387) says that ASCII white space is stripped
  before matching; the code strips all Unicode white space, and the model follows the code: a marker spaced with no-break
  spaces reads back (`MarkerRoundTrip.NoBreakSpaces`).
- **`# lizard`.** The comment in `parse_lizard` (src/suppression.rs:475-477) speaks of tolerating a space after `#`.
  A lone `#` with a space is taken for the language's own opener, and there is no marker: `// # lizard forgives`
  (`LizardMarkers.SpacedHashIsNoMarker`). Behind a `#` of the language's own it is one: `# # lizard forgives`
  (`LizardMarkers.HashedSpaceIsMarker`). The marker is read iff no `#` stands before its own and `lizard` follows that
  at once, or a single one does with nothing but white space behind it (`LizardMarkers.LizardMarkerIff`).
- **Unterminated strings.** `regular_string_end` returns one past the end of the source for a string that is never
  closed (utils/check-diagnostic-prefix.py:198); the scanner's outer loop stops there all the same.
- **Two-word keys.** Single-integer keys never share a hash; keys of two words do, systematically
  (`HashPermutations.TwoWordKeysCollide`).

## Model

| member | source | states |
|---|---|---|
| `OpsWalk.OpsInner` | src/ops.rs:301-407 | For every finite tree and every language the loop returns what the recursive fold returns; with a frame at the root that is the file's space tree, in which each space is the record of its node: kind, name, line span, entries of the subtree, one space below it per promoted descendant |
| `OpsWalk.FramedOutcomeIsFileSpace` | src/ops.rs:301-407 | The recursive fold over a framed root is the declared space tree: nesting, source order, vocabularies of whole subtrees |
| `UnframedWalk.UnframedOutcome` | src/ops.rs:392-406 | The whole outcome, vocabularies included, without a frame at the root: the empty-root error iff nothing is promoted; otherwise the first outermost space, with its later siblings as children and the counts of every node from its own on |
| `UnframedWalk.EmptyRootIff` | src/ops.rs:392-400 | The empty-root error comes back iff the root is classified `Unit` and no node at all is promoted |
| `UnframedWalk.FlatOutcome` | src/ops.rs:392-406 | A tree without a frame at the root, whose second space ends up inside the first and whose root's operand is lost |
| `UnframedWalk.FirstSpaceSwallowsTheRest` | src/ops.rs:352-372 | Without an open frame the first space met becomes the bottom one: later outermost spaces become its children after its own, later counts are added to its own, and those met before it are lost |
| `OpsWalk.FoldForestAddsSubSpaces` | src/ops.rs:334-390 | With a frame open, visiting a forest adds exactly its outermost spaces in source order and its total counts to that frame |
| `OpsWalk.VisitKeepsOutcome` | src/ops.rs:334-390 | One turn of the loop on any node leaves the outcome of the rest of the walk unchanged, although spaces close late |
| `OpsWalk.LateCloseIsClose` | src/ops.rs:337-340 | Leaving a space open until the next level drop, or the final drain, has the effect of closing it at the end of its subtree |
| `OpsWalk.PushedIsForest` | src/ops.rs:379-388 | The reversed children come off the work stack in source order, each subtree before the next sibling |
| `OpsWalk.VisitKeepsChain` | src/ops.rs:335-378 | After truncation the chain at a visit is exactly the root-to-parent path, and every entry still on the stack keeps its path |
| `OpsWalk.ClosingKeepsFrames` | src/ops.rs:337-340 | A level drop leaves exactly the promoted nodes of the visited node's path open (and any synthetic root), and never meets the short-stack guard |
| `OpsWalk.ClosingReachesTheFramesOf` | src/ops.rs:258-278 | Closing by the difference in open spaces returns to the frames of the path, short of the bottom state |
| `OpsWalk.CloseKeepsOuterFrames` | src/ops.rs:258-278 | Closing spaces leaves the identity of those below them unchanged |
| `OpsWalk.VisitKeepsFrames` | src/ops.rs:352-372 | A visit opens a frame for its node iff the node is promoted, and the level counter says so |
| `OpsWalk.LoopTurn` | src/ops.rs:334-390 | Everything the loop keeps survives a turn, and the nodes still to visit become fewer |
| `OpsWalk.Finalize` | src/ops.rs:258-278 | The pop-and-merge loop is the recursive closing of that many spaces |
| `OpsWalk.ComputeOperatorsAndOperands` | src/ops.rs:233-248 | The vocabularies are the sorted renderings of the distinct keys, in whatever order the hash maps give them |
| `OpsWalk.PushChildren` | src/spaces/compute.rs:733-748 | Extending and then reversing the tail puts the children on the stack with the leftmost on top |
| `OpsWalk.VisitNode` | src/ops.rs:334-378 | The new open states, level and level counter of one visit |
| `OpsWalk.Finish` | src/ops.rs:390-406 | The final drain leaves one state, which closes into the returned tree, or none |
| `SpaceContents.SpacesAreDescribed` | src/ops.rs:76-102 | In pre-order there is one space per promoted node and no other; its kind and name are the classifiers' (a nested unit has no name), its lines count from 1, its operands and operators are exactly what is counted in its subtree, in byte order, and as many spaces are below it as promoted nodes |
| `SpaceContents.FileIsDescribed` | src/ops.rs:401-407 | The top space is a unit with the file's name, the file's lines and all its entries, over the records of the promoted nodes |
| `SpaceTree.TotalCountsEachNodeOnce` | src/ops.rs:270-276 | The counts behind a space's vocabulary take each node of its subtree once, and nothing else |
| `Vocabularies.SortedVocabulary` | src/ops.rs:214-231 | Sorting the byte keys first and the text again only when bytes were lost gives render-everything-then-sort, for every decoder that is the identity where it borrows |
| `Vocabularies.VocabularyIgnoresKeyOrder` | src/ops.rs:176-183 | The order in which a hash map yields the keys never shows |
| `ByteStrings.LexIsPrecedes` | src/ops.rs:214-231 | The order of entries: a prefix first, otherwise the smaller byte where two first differ |
| `Vocabularies.VocabularyDistinctIff` | src/ops.rs:205-213 | The entries are distinct iff the keys are and no key that loses bytes comes out as another |
| `Vocabularies.LossyKeysClash` | src/ops.rs:205-213 | Two different keys whose first byte is replaced give one entry twice |
| `SpaceVocabularies.OperatorsDistinctIff` | src/ops.rs:233-248 | A space lists its operators without repetition iff the token ids and primitive types that occur are spelled apart and no spelling that loses bytes comes out as another |
| `SpaceVocabularies.ValidOperatorsDistinctIff` | src/ops.rs:233-248 | On valid text: iff no two token ids share a spelling and none is spelled as a primitive type |
| `SpaceVocabularies.OperandsDistinctIff` | src/ops.rs:233-248 | Operands repeat only when one that loses bytes comes out as another |
| `SpaceVocabularies.ValidOperandsDistinct` | src/ops.rs:233-248 | On valid text operands never repeat |
| `SpaceVocabularies.SpellingsClash` | src/ops.rs:233-248 | Two token ids of one spelling, or one spelled as a primitive type, repeat an entry |
| `SpaceVocabularies.DescendantEntries` | src/ops.rs:192-196 | A space lists every operator and operand that any space below it lists |
| `MapTree.MapTree` | src/wire.rs:425-456 | The frame-stack loop returns what the obvious recursion returns and makes the same calls of `build` in the same order, for every tree and every `build` |
| `MapTree.RecursionBuildsBottomUp` | src/wire.rs:416-424 | Those calls: one per node, each after those of all its descendants, on the node's converted children |
| `MapTree.ConvertedAt` | src/wire.rs:464-465 | The converted children stand in source order, each at its child's place |
| `MapTree.Turn` | src/wire.rs:435-454 | A turn pushes a frame or folds one into its parent, keeps the frames half-built, and brings the node count down |
| `MapTree.Push` | src/wire.rs:440-445 | Pushing a frame for the next child keeps every frame's converted prefix and the calls made |
| `MapTree.Fold` | src/wire.rs:446-453 | Folding the last frame makes exactly one call, at that frame's node, and puts its result next in the parent |
| `SuppressionWalk.SuppressionMarkers` | src/suppression.rs:729-784 | The explicit-stack walk lists, by line, exactly the records of the tree's comments that parse as markers, each once: line from 1, kind, scope and dialect as parsed, the innermost enclosing named function for a marker on a function and none for one on a file; the order on a line is that of the mirrored walk |
| `AuditContents.MarkersAreRecords` | src/suppression.rs:797-816 | Marker by marker, the audit's answers in source order are the records of the marked comments in source order |
| `AuditContents.RecordListed` | src/suppression.rs:797-816 | A marker is listed iff some node of the tree has it for its record |
| `SuppressionAudit.AuditListsMarkers` | src/suppression.rs:720-724 | That list is a permutation, sorted by line, of the markers of the tree in source order |
| `SuppressionAudit.EnclosingIsInnermost` | src/suppression.rs:715-719 | The function a marker is attributed to is the innermost enclosing one whose name can be resolved; none iff there is none |
| `SuppressionAudit.LinesComeOutReversed` | src/suppression.rs:776-783 | Where comments do not nest, the markers of one line come out in reverse source order |
| `SuppressionAudit.MirroredPermutes` | src/suppression.rs:776-780 | Meeting children last to first meets the same markers as source order |
| `SuppressionAudit.SortKeepsLines` | src/suppression.rs:782-783 | The sort keeps the order of markers on one line |
| `SuppressionWalk.VisitKeepsChain` | src/suppression.rs:732-737 | Each waiting frame still finds its path as a prefix of the chain, and its inherited name is the one that path gives |
| `SuppressionWalk.VisitMeetsMarker` | src/suppression.rs:752-780 | A visit yields the node's own marker, and puts in its place on the stack exactly the markers below it |
| `SuppressionWalk.Visit` | src/suppression.rs:752-780 | The new markers, stack and chain of one visit |
| `MarkerRoundTrip.MarkerReadsBack` | src/suppression.rs:391-463 | Round trip: any accepted opener, `suppress` or `suppress-file`, any list of suppressible metrics with repeats, blanks and spacing, any text after it, reads back as the function's or the file's marker on that set, with no diagnostics |
| `NativeMarkers.WordInComment` | src/suppression.rs:498-566 | In any comment `bca:` and `suppress` is read for the function, `suppress-file` for the file: everything is silenced iff only a closer follows, the list iff a closed list follows, otherwise nothing, with the body told to be malformed; any other word is told to be an unknown verb |
| `NativeMarkers.NoWordParsed` | src/suppression.rs:521-530 | Without a word behind the namespace the body is told to be malformed |
| `MarkerRoundTrip.BareVerb` | src/suppression.rs:383-391 | Behind slashes, stars, bangs, semicolons, dashes and hashes, with white space anywhere and stars and slashes behind it, a bare verb silences everything for its function or its file |
| `NativeMarkers.NativeSuppressesIff` | src/suppression.rs:498-566 | A body suppresses iff it is the namespace, a verb, and nothing or a closed list followed by anything |
| `NativeMarkers.NeverSilent` | src/suppression.rs:379-382 | Markers are the texts with more than white space behind the namespace; one that is no directive suppresses nothing and draws exactly one complaint; one draws none iff it is a directive whose list holds no unusable name |
| `NativeMarkers.SilentCommentIff` | src/suppression.rs:211-213 | In any comment, a verb silences nothing and draws no complaint iff a closed list of nothing but blanks follows it |
| `MarkerRoundTrip.ListReadsBack` | src/suppression.rs:568-622 | A printed metric list parses to its set of metrics without diagnostics |
| `MarkerRoundTrip.NoBreakSpaces` | src/suppression.rs:385-387 | A marker spaced with U+00A0, which is not ASCII white space, reads back for every suppressible metric |
| `CommentStripping.CommentIsStripped` | src/suppression.rs:401-462 | Stripping openers and closers leaves the directive itself untouched, and no comment that holds one is taken for a Lizard marker |
| `LizardMarkers.LizardMarkerIff` | src/suppression.rs:436-496 | Behind any opener, any `#`s of the language's own and any spacing, a Lizard marker is read as its kind, covering every metric, iff its `#` is not taken for the language's; otherwise the comment is no marker |
| `LizardMarkers.HashedSpaceIsMarker` | src/suppression.rs:475-477 | `# # lizard forgives` is a marker |
| `LizardMarkers.SpacedHashIsNoMarker` | src/suppression.rs:436-449 | `// # lizard forgives` is not |
| `SuppressionMarker.ParseMetricList` | src/suppression.rs:568-622 | The loop with its reported set, counter and cap computes the list's silenced set and its diagnostics |
| `SuppressionMarker.ListIsExact` | src/suppression.rs:601-608 | A metric is silenced iff it is not `tokens` and some part of the list, trimmed, is its name |
| `SuppressionMarker.FirstUnusableSpec` | src/suppression.rs:571-577 | The names reported are exactly the distinct unusable ones, by first appearance |
| `SuppressionMarker.DiagnosticsAreBounded` | src/suppression.rs:295-303 | At most eight names and one count, which add up to the distinct unusable names; of `tokens` it is said that it cannot be suppressed, of any other that it is unknown |
| `SuppressionMarker.UnusableIff` | src/suppression.rs:601-608 | A name is unusable iff a part of the list spells it and no metric but `tokens` is spelled that way |
| `SuppressionMarker.UnusableNameSilencesNothing` | src/suppression.rs:595-600 | An unusable name changes nothing about what a list silences: first, last, in between or alone |
| `SuppressionMarker.TypoNarrows` | src/suppression.rs:595-600 | Putting an unusable name in the place of any part of a list can only narrow what is silenced |
| `MarkerRoundTrip.TypoBehindName` | src/suppression.rs:595-600 | An unusable name behind a metric leaves exactly that metric silenced |
| `MarkerRoundTrip.ExitBehindCognitive` | src/suppression.rs:595-600 | The documented typo, `cognitive, exit`, silences `cognitive` alone |
| `SuppressionMarker.SilentIffBlank` | src/suppression.rs:211-213 | A metric list silences nothing and draws no complaint iff all its parts are blank: the exact exception to the rule that a marker never silently does nothing |
| `SuppressionMarker.MergeCovers` | src/suppression.rs:153-171 | Stacked scopes cover a metric iff one of them does |
| `Metrics.NamedIff` | src/metric_set.rs:245-271 | Parsing a name yields a metric iff the name is that metric's display spelling |
| `Metrics.Spellings` | src/metric_set.rs:245-271 | The thirteen names that users write and what each parses to |
| `RustLexer.ScanLiterals` | utils/check-diagnostic-prefix.py:208-300 | The index-jumping scan reports, left to right, exactly the string literals among the source's tokens whose content begins with a word and a colon: the offset of the content and the first such word |
| `RustLexer.HitsOffend` | utils/check-diagnostic-prefix.py:201-205 | The hits of a source are the offending literals of its token list and no others |
| `RustLexer.PrintedTokensScan` | utils/check-diagnostic-prefix.py:208-300 | Printing any well-separated token list and scanning it reports exactly that list's offending strings |
| `RustLexer.HitsIncrease` | utils/check-diagnostic-prefix.py:208-210 | Reported offsets increase strictly and lie inside the source |
| `RustLexer.PrefixOfContent` | utils/check-diagnostic-prefix.py:201-205 | Matching at the content start, unbounded by the literal, sees a severity prefix iff the content itself has it |
| `RustLexer.CharLiteralEnd` | utils/check-diagnostic-prefix.py:125-155 | A character literal of the grammar and its end; none iff none begins there, so it is a lifetime or label |
| `RustLexer.RawStringEnd` | utils/check-diagnostic-prefix.py:158-184 | A raw string of the grammar, closed by a quote and as many hashes as it opened with, or running to the end; none iff none begins there |
| `RustLexer.RegularStringEnd` | utils/check-diagnostic-prefix.py:187-198 | A quoted string of the grammar with its escapes; one past the end of the source when it is never closed |
| `RustLexer.SkipBlockComment` | utils/check-diagnostic-prefix.py:257-270 | A block comment of the grammar, nested to any depth, or one that runs to the end |
| `RustLexer.ScanFromStart` | utils/check-diagnostic-prefix.py:246-300 | The walk's hits are those the token list has from the start |
| `RustTokens.TokensTile` | utils/check-diagnostic-prefix.py:211-213 | The tokens of a source spell it out without gap or overlap, each where the grammar allows it |
| `RustTokens.PrintedTokensReadBack` | utils/check-diagnostic-prefix.py:211-213 | A well-separated token list is the only tokenisation of its own text |
| `RustTokens.StartsUnique` | utils/check-diagnostic-prefix.py:249-299 | At most one comment or literal begins at a place, so the order of the scanner's cases does not matter |
| `SourceLines.ScanText` | utils/check-diagnostic-prefix.py:303-330 | A triple is reported iff some literal begins with that severity word and a colon, on that line counted from 1, the line is not opted out, and its text but for the indent is the one given |
| `SourceLines.LineOf` | utils/check-diagnostic-prefix.py:343-355 | Bisecting the line starts gives the number of newlines before the offset |
| `SourceLines.LineHoldsOffset` | utils/check-diagnostic-prefix.py:318-322 | The reported line is the one of the newline split that the offset lies in |
| `HitOffsets.NoHitStartsALine` | utils/check-diagnostic-prefix.py:343-355 | No reported offset is a line start, so the side to which the bisection breaks ties does not matter |
| `SourceLines.LineStarts` | utils/check-diagnostic-prefix.py:333-340 | Hopping from newline to newline collects the start of every line |
| `SourceLines.IsAllowed` | utils/check-diagnostic-prefix.py:106-122 | True iff the opt-out is on the line or in the unbroken comment block above it |
| `Strings.SplitJoins` | utils/check-diagnostic-prefix.py:323-323 | Splitting loses nothing, and no part holds a separator |
| `RunnerOutcomes.OkMeansAllFinished` | src/concurrent_files.rs:403-459 | Under every interleaving Ok means that every path not skipped was handed to the callback exactly once and that call returned, and that `max(1, num_jobs)` consumers were at work; with verification off no path is skipped |
| `RunnerInvariant.StepKeepsInv` | src/concurrent_files.rs:403-459 | Every step of every thread keeps: paths conserved across undispatched, skipped, queued, in flight, finished and lost; pills behind jobs; pills sent accounted for; result right so far |
| `RunnerOutcomes.MaximalRunsEnd` | src/concurrent_files.rs:403-459 | No run takes more than 4 steps per path, 6 per consumer and 5 more, and a run that cannot go on has returned with every consumer gone |
| `RunnerOutcomes.CanComplete` | src/concurrent_files.rs:426-459 | From every state that the protocol keeps, unless a spawn failed, some schedule ends the run: with the receiver error if a consumer has panicked, else with Ok |
| `RunnerOutcomes.SuccessIsPossible` | src/concurrent_files.rs:403-459 | For every worker count and path list some run returns Ok with every consumer gone |
| `RunnerOutcomes.PanicFailsTheRun` | src/concurrent_files.rs:450-456 | Any consumer in a callback may panic, and then the run can end only in the receiver error |
| `RunnerOutcomes.SomeStepIsEnabled` | src/concurrent_files.rs:426-455 | No deadlock: until everything is over some thread can step |
| `RunnerOutcomes.RunsAreBounded` | src/concurrent_files.rs:157-172 | Under any schedule a run takes no more steps than its start allows |
| `RunnerOutcomes.PillsAreTakenLast` | src/concurrent_files.rs:437-448 | A consumer takes a pill only when no job is queued and none is left to dispatch |
| `RunnerOutcomes.FailureMeansPanic` | src/concurrent_files.rs:450-456 | Once all `max(1, num_jobs)` threads were spawned, `run` fails iff a callback panicked, and then with the receiver error |
| `RunnerOutcomes.PanicsLoseOnlyTheirOwn` | src/concurrent_files.rs:450-456 | Each panic loses only the path in that consumer's hands; jobs are stranded only when all consumers panicked |
| `RunnerOutcomes.FailedSpawnDispatchesNothing` | src/concurrent_files.rs:410-424 | A failed spawn returns the thread error with no path dispatched |
| `RunnerOrder.FirstInFirstOut` | src/concurrent_files.rs:406-406 | Under every interleaving the paths not yet taken wait in the order of the file list |
| `RunnerOrder.ReceiveTakesHead` | src/concurrent_files.rs:157-172 | A consumer that receives a job is at work on the path that was first in line |
| `RunnerOutcomes.FirstErrorStays` | src/concurrent_files.rs:433-456 | Once there is an error no later poisoning or join replaces it |
| `RunnerInvariant.SendsSucceed` | src/concurrent_files.rs:406-448 | No send can fail while `run` still owns its receiver |
| `EditDistance.EditDistanceWithCutoff` | src/suggestion.rs:30-55 | The result is within the cutoff iff the distance is, and then equals it; otherwise it is the distance or cutoff + 1 |
| `EditDistance.DistanceIsLeast` | src/suggestion.rs:27-29 | No edit script that rewrites one string into the other costs less than the distance |
| `EditDistance.DistanceIsReached` | src/suggestion.rs:27-29 | Some edit script costs exactly the distance |
| `EditDistance.DistanceIsSymmetric` | src/suggestion.rs:31-35 | Swapping the strings, as the code does to put the long one first, changes nothing |
| `EditDistance.LengthsBoundDistance` | src/suggestion.rs:36-38 | The length difference is a lower bound: the first early exit is sound |
| `EditDistance.RowsStayAbove` | src/suggestion.rs:49-51 | A row wholly above the cutoff settles that the distance is: the exit inside the loop is sound |
| `EditDistance.FillRow` | src/suggestion.rs:42-48 | A row of prefix distances from the one above it, with its minimum |
| `Suggestion.ClosestNames` | src/suggestion.rs:79-117 | At most three of the best candidates, in name order, any best candidate left out coming after three that are not; none iff no candidate is within one edit in three bytes, and two edits in all, or shares its first three bytes |
| `Suggestion.SuggestionsOutrank` | src/suggestion.rs:74-78 | A typo hit beats every prefix hit and the nearest one wins; then names the input is a prefix of; then longer shared prefixes |
| `Suggestion.ComputeScore` | src/suggestion.rs:83-106 | The score in terms of the true distance and the longest shared prefix |
| `Suggestion.SelectionIsSuggested` | src/suggestion.rs:109-116 | After the sort the leading ties are the candidates with the best score, in name order |
| `CivilDate.CivilIsCalendar` | big-code-analysis-cli/build.rs:170-183 | The date of every day count is the one the calendar reaches by turning over that many days from 1970-01-01 |
| `CivilDate.NextDayIsNextDate` | big-code-analysis-cli/build.rs:174-183 | Each date is valid, and the next day count gives its calendar successor, across months, leap years and eras |
| `CivilDate.EpochIsDayZero` | big-code-analysis-cli/build.rs:174-183 | Day 0 is 1970-01-01 |
| `CivilDate.YearOfEraFits` | big-code-analysis-cli/build.rs:177-177 | The year formula finds the year of the era that the day falls in |
| `CivilDate.DayOfYearFits` | big-code-analysis-cli/build.rs:179-179 | The day-of-year subtraction cannot underflow and gives at most 365 |
| `CivilDate.CivilStaysInWord` | big-code-analysis-cli/build.rs:174-183 | For every 64-bit count of seconds all intermediate values of the conversion fit in 64 bits |
| `CivilDate.DaysRoundTrip` | big-code-analysis-cli/build.rs:174-183 | Counting days by the calendar inverts the conversion |
| `CivilDate.CivilRoundTrip` | big-code-analysis-cli/build.rs:174-183 | Every date from the epoch on is the date of exactly the day count the calendar gives it |
| `CivilDate.NthDateOrder` | big-code-analysis-cli/build.rs:174-183 | Dates are ordered as their day counts are |
| `Rfc3339.FormatReadsBack` | big-code-analysis-cli/build.rs:170-185 | Up to 9999-12-31T23:59:59 the text is a date-time of section 5.6 of RFC 3339 and parses to the same second |
| `Rfc3339.FirstSecond` | big-code-analysis-cli/build.rs:170-185 | Second 0 is printed as 1970-01-01T00:00:00Z |
| `Rfc3339.LastPrinted` | big-code-analysis-cli/build.rs:170-185 | The last second of year 9999 is printed as 9999-12-31T23:59:59Z |
| `Rfc3339.FormatOrder` | big-code-analysis-cli/build.rs:184-184 | In that range the texts compare as strings as the seconds do as numbers |
| `Rfc3339.FourDigitYears` | big-code-analysis-cli/build.rs:184-184 | The year has at most four digits iff the second is not past 9999-12-31T23:59:59 |
| `Rfc3339.MomentRoundTrip` | big-code-analysis-cli/build.rs:171-183 | Date and time of day are valid and determine the second |
| `MetricSet.Resolved` | src/metric_set.rs:420-438 | For any dependencies, circular ones too, the worklist ends with the least closed superset |
| `MetricSet.FromSliceWithDeps` | src/metric_set.rs:393-399 | The result depends only on which metrics are in the slice: their closure |
| `MetricSet.ClosureIsClosed` | src/metric_set.rs:401-405 | The closure holds the set and the dependencies of all it holds |
| `MetricSet.ClosureIdempotent` | src/metric_set.rs:405-407 | Resolving twice is resolving once |
| `MetricSet.ClosureMonotone` | src/metric_set.rs:401-405 | A larger set has a larger closure |
| `MetricSet.ClosureOfUnion` | src/metric_set.rs:401-405 | Closing a union is the union of the closures |
| `MetricSet.TableClosesInOneStep` | src/metric_set.rs:90-116 | In the dependency table as it is, one step closes every set |
| `MetricSet.SelectingOne` | src/metric_set.rs:90-116 | What selecting each single metric brings along |
| `MetricSet.CloseBelow` | src/metric_set.rs:420-438 | The loop terminates in a closed set that holds the start and stays inside any closed set that does |
| `MetricSet.WithMembers` | src/metric_set.rs:356-371 | Setting a metric's bit adds that metric and no other |
| `MetricSet.UnionMembers` | src/metric_set.rs:363-365 | Or-ing bit fields is the union of the sets |
| `MetricSet.MembersDetermine` | src/metric_set.rs:300-310 | A bit field is determined by the set it stands for |
| `HashPermutations.KeysNeverCollide` | src/int_hash.rs:51-58 | Each 64-bit hash belongs to exactly one single-integer key |
| `HashPermutations.HashKey` | src/int_hash.rs:93-115 | A fresh hasher given one 64-bit key finishes with that key's hash |
| `HashPermutations.FinishTellsApart` | src/int_hash.rs:113-115 | Two hashers finish alike iff they are in one state |
| `IntHash.RotationBits` | src/int_hash.rs:70-72 | The rotations move bit `i` to bit `i + 5` and `i + 26`, around the end of the word |
| `HashPermutations.WordPermutes` | src/int_hash.rs:70-72 | From any state writing one word is a permutation of the words, with its inverse |
| `HashPermutations.StatePermutes` | src/int_hash.rs:70-72 | A fixed word permutes the states, with the inverse |
| `HashPermutations.StatesPermute` | src/int_hash.rs:77-81 | So does any fixed sequence of words or bytes |
| `IntHash.SeedInverse` | src/int_hash.rs:52-58 | Multiplication by the odd seed modulo 2^64 has an inverse |
| `HashPermutations.TwoWordKeysCollide` | src/int_hash.rs:70-72 | For two-word keys, every other first word has exactly one second word that gives the same hash |
| `IntHash.IntKeyHasher.Write` | src/int_hash.rs:77-81 | The byte loop mixes in every byte in turn |

## Left out

- tree-sitter, grammars and per-language classifiers: promotion, kind, name, Halstead contribution, comment and function predicates are parameters, free to inspect ancestors; any text of a node is a parameter.
- `SiblingCache`, `FoldCache` and the observation counters: memoisation with no effect on the results.
- Lossy decoding: `String::from_utf8_lossy` is any decoder that is the identity on what it borrows.
- OpsWalk.Finish: the drain `finalize(usize::MAX)` closes as many states as are open, because no stack is that high.
- ConcurrentRunner: threads are a step system on values, and `is_file`, a failed spawn and a panicking callback are free choices; what a consumer prints for an error the callback returns is not modelled.
- Suggestion.ClosestNames: `usize` has 64 bits, and rendering the suggestion text is left out.
- `NumJobs` parsing, serde encodings, the depth-bounded serializer, `Drop`, `Display` texts and the other projections of src/wire.rs: finite tables or library code.
- src/int_hash.rs on targets where `usize` is not 64 bits wide.
- The rest of build.rs, file discovery and the printed report of the prefix gate.
- `SuppressionScope::merge` in place: merging is on values.
- `threshold_metric_for_name`, `SuppressionPolicy`, `MetricSet::all` and the serialized forms: single-branch facts.
