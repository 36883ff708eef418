# A verified model of the OpenSearch Go client's failure handling and client cache

This project models the hand-written core of the OpenSearch Go client and proves what it promises. It
follows one story: how a partial failure is detected on a response, gated by a mask, collapsed into an
error and judged against a threshold; how that mask is written down, read back and changed while other
goroutines use it; how a default client is keyed in the cache; and how a response body is read.

| file | what it models |
|---|---|
| `Text.dfy` | splitting, joining, trimming and sub-sequences |
| `ErrorMask.dfy`, `MaskMeaning.dfy`, `MaskLaws.dfy`, `MaskRoundTrip.dfy`, `MaskTable.dfy` | the partial-failure mask: its token language and printer, what a text means, their laws, and the shipped token table |
| `MaskCell.dfy`, `MaskWriters.dfy`, `ConflictReports.dfy` | the live mask cell under concurrent writers, as an interleaving of atomic steps, what the writers leave in it, and what its conflict errors can name |
| `Clients.dfy` | client construction, value copies, clones, and which cell every sub-client reads |
| `ErrorTree.dfy`, `SuccessRate.dfy`, `NestedVerdict.dfy` | error trees, the `errors.As` search, collapsing, flattening and the success-rate verdict, on what the client returns and on any tree |
| `PartialFailures.dfy` | the bulk and multi-search detectors, end to end from response and mask to verdict |
| `KeyBuilder.dfy`, `Sorting.dfy`, `ConfigKey.dfy`, `KeyUniqueness.dfy`, `KeyBytes.dfy`, `KeyCollisions.dfy` | the default-client cache key, as builder calls and as bytes |
| `ClientResolution.dfy` | seed addresses, URLs and credentials of a new client, and cache coherence |
| `ErrorBody.dfy` | the five error shapes and the classification of a JSON body |
| `Responses.dfy`, `ResponseRuns.dfy`, `ResponseFamily.dfy` | the response object, its shared reader and render cache, and whole sequences of calls on a response and on its value copies |
| `Version.dfy` | version parsing |

`dafny verify dfyconfig.toml` checks everything. Loops and in-place updates of the source are methods with
loops, classes with `modifies` clauses, and fields that are reassigned; each is proved against a
specification function, and the laws are lemmas about that function. An interleaving is a schedule, a list
of writer numbers, so a lemma for every schedule is a lemma for every interleaving. A sequence of calls on
shared objects is a method that takes an arbitrary list of calls.

Modelling decisions:

- The 32-bit mask is the set of its one bits. Or, and, and and-not are union, intersection and difference; a
  table entry holds a bit position, so each category is one bit by construction.
- Mask text is a sequence of Unicode characters, configuration strings are bytes; trimming either uses Go's
  definition of white space, in UTF-8 for bytes.
- Integers that Go stores in 64 bits have subset types with that range; success rates are exact reals.
- `url.Parse` is an arbitrary partial function, JSON text an arbitrary decoder into a tree, environment
  variables are parameters.

## Where the code and its documentation disagree

- A comment beside the cache key says that the separator carries no weight because every field is
  length-prefixed, so the stream is unambiguous (`opensearch.go:568-572`). That holds for the sequence of
  builder calls (`KeyCallsDetermineConfig`), but the builder writes integers and booleans without a length
  and without a kind (`internal/ttlcache/keyhash.go:48-63`), so the bytes that are hashed are ambiguous. What
  is ambiguous is exactly the two counts that are not written: `KeyBytesAndCountsDetermineConfig` proves, for
  all configurations, that every hashed field agrees exactly when the bytes do and there are as many addresses
  and as many headers. Neither count can be dropped: for every configuration `KeyBytesCollide` gives two
  variants with the same bytes that differ in the number of addresses, and `HeadersCollide` two that differ in
  the number of headers. Of the first pair one resolves and the other is refused
  (`CollidingKeysResolveApart`). The counts follow when no address and no header name equals the separator
  (`KeyBytesDetermineConfig`), so the separators do carry weight. `NewDefaultClient` keys one and the same
  configuration under whatever environment it finds, and there the bytes decide without any condition
  (`DefaultKeyFollowsEnvironment`).
- `Bool` is documented to write a single byte (`internal/ttlcache/keyhash.go:57`); the code writes eight.
- The error a failed `SetErrorMask` returns is documented to name a value that did not match the expected
  one (`opensearchapi/api.go:177-179`). The value is loaded after the failed swap, so it can match.
  `ReportsDifferIffNotRestorable` proves that it differs in every interleaving exactly when the other writers'
  updates cannot leave a value and come back to it; `OneSidedWritersAreReportedTruly` gives cases a caller can
  check, and `ReportMayNameTheExpectedValue` three writers for which the promise fails.
- `RequireSuccessRate` is documented to pass only when every category clears the threshold
  (`opensearchapi/errors.go:349-359`). Of each sub-error of the outermost multi-error it looks at one category,
  so a multi-search error joined once more can pass with all sub-queries failed (`NestedFailureIsHidden`).
  `VerdictIsPromisedIffCovered` proves on which trees the promise holds, and `DispatchIsCovered` that the
  client's own errors are among them.
- `String` is documented never to touch the body of a response that came from `Execute`
  (`response.go:96-99`). After `HijackBody` it does, and a later `ParseError` finds an empty body;
  `RunBuffered` and `DrainedMeansRenderedAfterHijack` state exactly when.
- The mask's `String` is documented as the printing half of a round trip. For a mask of undefined bits only it prints
  the empty text instead of `empty`; `ReprintIsStable` states exactly when printing again is stable.

## Model

| member | source | states |
|---|---|---|
| `Text.JoinOfSplit` | errmask/errmask.go:249 | joining the pieces of a split with the separator gives the text back |
| `Text.SplitPartsAreFree` | errmask/errmask.go:249 | no piece of a split contains the separator |
| `Text.SplitOfJoin` | errmask/errmask.go:224 | joining separator-free pieces and splitting again gives the pieces back |
| `Text.TrimSpaceStrips` | errmask/errmask.go:250 | trimming removes exactly the white space around a text |
| `ErrorMask.New` | errmask/errmask.go:59-65 | the loop computes the union of its arguments |
| `ErrorMask.UnionIsLeast` | errmask/errmask.go:49-65 | the union is the least mask that has every argument |
| `ErrorMask.NameToBit` | errmask/errmask.go:312-325 | the table scan agrees with the meaning of a name: `all`, a reset alias, the first entry of that name, or unknown |
| `ErrorMask.Parse` | errmask/errmask.go:243-279 | the loop returns the left-to-right effect of the pieces on the base and the rejected pieces, untrimmed and in order |
| `ErrorMask.ToString` | errmask/errmask.go:214-225 | the loop prints the tokens of the set categories in table order, and `empty` for zero |
| `MaskMeaning.UnknownPieces` | errmask/errmask.go:248-266 | for every text, table and base, the rejected list is, in order and untrimmed, exactly the pieces that are not blank and whose name, after one optional sign, is neither reserved nor a token of the table |
| `MaskMeaning.UnknownNames` | errmask/errmask.go:262-266 | an unknown name, bare or under either sign, leaves the base and comes back as the one unknown piece |
| `MaskMeaning.LastNamingDecides` | errmask/errmask.go:229-273 | for every text, table and base, a bit is set exactly when the last piece that names its category, `all` or a reset has no minus sign and is no reset, or no piece does and it was set before |
| `MaskMeaning.PrintedInTableOrder` | errmask/errmask.go:210-225 | the printed text has the token of each set category once, in table order, joined by commas; zero prints as `empty`, a mask without a defined bit as the empty text |
| `MaskLaws.ParseOfConcat` | errmask/errmask.go:237-279 | for all texts, parsing two texts joined by a comma is parsing the second on the result of the first, and the rejected lists concatenate |
| `MaskLaws.ParseIsAffine` | errmask/errmask.go:243-279 | for every text and base, the result is the base restricted to a mask `keep`, with the bits of a mask `set` added, where `keep` and `set` are what the text gives from all ones and from zero; the rejected list does not depend on the base |
| `MaskLaws.LastMentionDecides` | errmask/errmask.go:235-238 | a bit is set exactly when the last piece that mentions it, by name, by `all` or by a reset, turns it on |
| `MaskLaws.UnmentionedBitIsKept` | errmask/errmask.go:243-279 | a bit no piece mentions keeps the base's value |
| `MaskLaws.ForwardCompatible` | errmask/errmask.go:67-71 | for every text and base, an older table and any table that extends it agree on all old bits, and the newer one rejects exactly the old rejects it does not recognise |
| `MaskLaws.ResolvedMaskIsForwardCompatible` | opensearchapi/api.go:34-56 | the same for the mask resolved from configuration and environment |
| `MaskLaws.ResolvedMaskDefaults` | opensearchapi/api.go:39-56 | nil means report everything, a configured mask is honoured, and the environment's text is parsed on top of whichever it is |
| `MaskRoundTrip.CategoryNames` | errmask/errmask.go:229-233 | `name` and `+name` set exactly that bit, `-name` clears exactly that bit |
| `MaskRoundTrip.ReservedNames` | errmask/errmask.go:235-273 | `all` and `-all` reach every defined bit and no other; a reset name clears everything under either sign |
| `MaskRoundTrip.RoundTrip` | errmask/errmask.go:210-279 | for every table and mask, parsing the printed mask from zero gives the mask restricted to the defined bits and rejects nothing |
| `MaskRoundTrip.PrintedTextIsCanonical` | errmask/errmask.go:210-279 | for every text, printing the mask it denotes and parsing again gives the same mask |
| `MaskRoundTrip.ReprintIsStable` | errmask/errmask.go:214-225 | printing, parsing and printing again is stable exactly when the mask is zero or has a defined bit |
| `MaskTable.ShippedTableIsWellFormed` | errmask/errmask.go:158-305 | the shipped table has distinct bits under proper distinct names, and `All` is its fifteen low bits |
| `MaskTable.ShippedTableObeysLaws` | errmask/errmask.go:67-71 | for the client's own table, every mask round trips on the fifteen categories, and every later table that extends it reads every text alike on them |
| `MaskCell.NoLostUpdate` | opensearchapi/api.go:153-175 | in every interleaving the mask is the seed with the successful updates applied in the order they succeeded, and no writer succeeds twice |
| `MaskCell.EveryUpdateIsApplied` | opensearchapi/api.go:163-175 | once all writers have finished, each is in that order exactly once |
| `MaskCell.ConflictsAreBounded` | opensearchapi/api.go:163-175 | in every interleaving `n` writers meet at most `n(n-1)/2` conflicts |
| `MaskCell.ConflictBoundIsExact` | opensearchapi/api.go:163-175 | for every `n` some interleaving in which all finish meets exactly that many |
| `MaskCell.StepsAreBounded` | opensearchapi/api.go:163-175 | `n` writers take at most `3n(n-1)/2 + 2n` atomic steps however they are scheduled |
| `MaskCell.WriterFinishes` | opensearchapi/api.go:163-175 | the retry loop is wait-free: among `n` writers, one that gets `3n-1` turns has finished, however the turns of the others fall |
| `MaskCell.RetryLoopsEnd` | opensearchapi/api.go:153-175 | a schedule that gives every writer `3n-1` turns ends with every update applied exactly once, composed from the seed in the order of success |
| `MaskWriters.CellHistory` | opensearchapi/api.go:144-175 | in every interleaving the cell goes through one value for each success, starting with the seed, each computed by that writer's update from the one before |
| `MaskWriters.SeedUntilFirstSuccess` | opensearchapi/api.go:144-148 | while no writer has succeeded the cell holds the seed |
| `MaskWriters.SettersAddUp` | opensearchapi/api.go:163-175 | at every moment of every interleaving the cell of writers that set bits is the seed plus the bits of those that have finished, in the end of all |
| `MaskWriters.ClearersAddUp` | opensearchapi/api.go:163-175 | and that of writers that clear bits is the seed without the bits of those that have finished |
| `MaskCell.NextKeepsInv` | opensearchapi/api.go:170-175 | every atomic step keeps the protocol invariant |
| `ConflictReports.ReportsAreExactly` | opensearchapi/api.go:170-175 | for all updates and seeds, an expected and an actual value are reported by some interleaving exactly when other writers, each at most once, can take the mask through the expected value, away from it, and on to the actual one |
| `ConflictReports.ReportsDifferIffNotRestorable` | opensearchapi/api.go:177-183 | for all updates and seeds, every conflict error of every interleaving names two different values exactly when no sequence of other writers leaves a value and comes back to it |
| `ConflictReports.OneSidedWritersAreReportedTruly` | opensearchapi/api.go:177-183 | the promise holds if all writers only set bits, or all only clear bits, or there are fewer than three writers |
| `ConflictReports.QuietReportDiffers` | opensearchapi/api.go:171-174 | within one run, if no writer succeeds between a failed swap and the second load, the error names the value that made the swap fail |
| `ConflictReports.ReportMayNameTheExpectedValue` | opensearchapi/api.go:174 | three writers and an interleaving in which the reported value equals the expected one |
| `Clients.MaskRef.CompareAndSwap` | opensearchapi/api.go:171 | replaces the value exactly when it equals the expected one |
| `Clients.Client.SetErrorMask` | opensearchapi/api.go:170-175 | called alone, sets the mask or leaves it and reports expected and found |
| `Clients.Client.Clone` | opensearchapi/api.go:205-207 | a new client on the same underlying client, with its own cell seeded from the current mask, and its sub-clients on that cell |
| `Clients.Client.AssignSubClients` | opensearchapi/clients_gen.go:52-63 | the first-level sub-clients point at the client; nested ones are not there yet |
| `Clients.Client.AssignNested` | opensearchapi/clients_gen.go:64-67 | the nested sub-clients point at the client |
| `Clients.Client.AssignAliases` | opensearchapi/clients_gen.go:68-71 | the alias fields equal the fields they alias, nested sub-clients included |
| `Clients.ClientInit` | opensearchapi/clients_gen.go:47-73 | every field path, including those nested under each alias, reaches the new client and its fresh cell |
| `Clients.Run` | opensearchapi/api.go:133-175 | over every sequence of copies, clones and sets, every client reads the value the replay gives its cell, every sub-client reached through any field reads that same cell, and two clients share a cell exactly when the replay puts them on one |
| `Clients.CopiesAndOnlyCopiesShare` | opensearchapi/api.go:133-140 | over every sequence, the replay puts two clients on one cell exactly when chains of copies without a clone lead from both back to the same client |
| `Clients.CellDependsOnOwnSets` | opensearchapi/api.go:194-207 | over every sequence, a cell's value is its seed under the sets made through its own clients, in order |
| `Clients.CloneIsIndependent` | opensearchapi/api.go:194-207 | a clone made anywhere in a sequence gets a new cell seeded once; afterwards neither it nor the original is affected by sets on the other |
| `ErrorTree.AsIsFirstInPreOrder` | opensearchapi/errors.go:286-289 | the search finds the first match of the tree's pre-order listing |
| `ErrorTree.AsGoesLeft` | opensearchapi/errors.go:286-289 | the search takes the error itself if it matches, otherwise looks below, and of several branches into the leftmost one with a match |
| `ErrorTree.ToleratedIffSomePartialNode` | opensearchapi/errors.go:340-347 | an error is tolerated exactly when some error in its tree is a partial failure, even beside a transport error; otherwise it passes unchanged |
| `ErrorTree.PartialIffSomeNodeSaysSo` | opensearchapi/errors.go:285-289 | an error is a partial failure exactly when its tree has one of the four categories, a per-operation error, or a foreign type that says so; nil is not |
| `ErrorTree.FlattenUndoesCollapse` | opensearchapi/errors.go:316-338 | for every list of errors, flattening the collapsed error gives the list back exactly when the list is empty, or is one error without a partial failure inside a multi-error, or has several errors and a wrapper or a partial failure among them |
| `ErrorTree.CollapsedShape` | opensearchapi/errors.go:189-205 | no sub-error collapses to nil, one to itself, more to a multi-error with exactly these under the operation's own type, or a plain join |
| `ErrorTree.ErrorsThroughWrap` | opensearchapi/errors.go:316-338 | a wrapped multi-error that carries a partial failure is flattened to its sub-errors; an error that carries none, or holds no multi-error, is kept whole |
| `ErrorTree.CategoriesSurviveCollapse` | opensearchapi/errors.go:189-205 | any number of failure categories come back as they were, with a per-operation wrapper or a plain join |
| `SuccessRate.RequireSuccessRate` | opensearchapi/errors.go:364-391 | the loop with its flag and early returns computes the judgement of the sub-errors in order; nil stays nil, and an error without a category in its tree comes back unchanged at every threshold |
| `SuccessRate.JudgeVerdict` | opensearchapi/errors.go:364-391 | the result is nil exactly when some sub-error carries counts and all that do clear the threshold; otherwise it is the error itself or the error wrapped once |
| `SuccessRate.FirstFailureDecides` | opensearchapi/errors.go:356-386 | the first category that does not clear decides: the bare error when its total is zero, the error with the rate added otherwise |
| `SuccessRate.Antitone` | opensearchapi/errors.go:349-391 | for every tree, what passes a threshold passes every lower one |
| `SuccessRate.VerdictThroughWrappers` | opensearchapi/errors.go:330-391 | for every tree, any chain of single-error wrappers leaves the verdict unchanged |
| `SuccessRate.TwoThresholds` | opensearchapi/errors.go:364-391 | checking against two thresholds in turn passes exactly when checking once against the lower one does |
| `SuccessRate.LeafListVerdict` | opensearchapi/errors.go:349-391 | a joined or per-operation list of leaf errors passes exactly when it holds a category and all its categories are healthy; transport errors in it are ignored |
| `SuccessRate.CountsOfLeaf` | opensearchapi/errors.go:361-415 | the counts of a category are its successes and its successes plus failures; other leaf errors have none |
| `SuccessRate.CountsOfTree` | opensearchapi/errors.go:397-415 | for every tree, the counts are those of its first bulk failure; without one of its first search failure; then of its first shard failure; then of its first failed multi-search |
| `SuccessRate.BareCategoryVerdicts` | opensearchapi/errors.go:361-386 | each bare category passes exactly when its total is not zero and its share of successes, in its own fields, is at least the threshold |
| `SuccessRate.DispatchVerdict` | opensearchapi/errors.go:349-391 | the error a dispatch returns passes exactly when every category has a non-zero total and a success rate of at least the threshold |
| `NestedVerdict.VerdictOfJudged` | opensearchapi/errors.go:364-415 | for every tree and threshold, the check passes exactly when some category is looked at and all categories looked at are healthy: of each sub-error the first of the first kind it carries |
| `NestedVerdict.HealthyTreesPass` | opensearchapi/errors.go:349-359 | for every tree, if it carries a category and all it carries are healthy, the check passes |
| `NestedVerdict.VerdictIsPromisedIffCovered` | opensearchapi/errors.go:349-391 | for every tree, the verdict at every threshold is that all its categories are healthy exactly when a category without a total is looked at, or every category has a total and a rate no worse than that of one that is looked at |
| `NestedVerdict.OneCategoryEachIsCovered` | opensearchapi/errors.go:393-396 | the condition holds when no sub-error of the outermost multi-error carries two different categories, however deeply wrapped |
| `NestedVerdict.DispatchIsCovered` | opensearchapi/errors.go:193-205 | the error a dispatch returns for any categories, inside any chain of single-error wrappers, meets that condition |
| `NestedVerdict.NestedFailureIsHidden` | opensearchapi/errors.go:353-359 | a multi-search error with all sub-queries failed is refused, and passes once it is joined again |
| `PartialFailures.BulkItemFailures` | opensearchapi/bulk_gen.go:221-246 | the nested loops return the failing slots and the number of the others, or nil, as a function of the response |
| `PartialFailures.BulkFailuresOnFields` | opensearchapi/bulk_gen.go:221-246 | for every response that result is nil exactly without a response, without the flag, or when no create, delete, index or update field of any item carries an error; otherwise it lists the failed fields in that order, item by item, and failed plus succeeded is the number of filled fields |
| `PartialFailures.FailingIsOrderedSubsequence` | opensearchapi/bulk_gen.go:225-238 | the reported items are the slots at the failing positions, one by one |
| `PartialFailures.FailingAtAscends` | opensearchapi/bulk_gen.go:227-233 | the failing positions ascend, so each slot is reported at most once and in scan order |
| `PartialFailures.FailingAtHas` | opensearchapi/bulk_gen.go:232-236 | a position is among them exactly when its slot carries an error |
| `PartialFailures.BulkConservation` | opensearchapi/bulk_gen.go:225-245 | failed plus succeeded is the number of filled slots |
| `PartialFailures.BulkVerdict` | opensearchapi/bulk_gen.go:221-283 | end to end, the success-rate check on the returned error passes exactly when masked, unflagged, without a failed field, or the share of filled fields that did not fail reaches the threshold |
| `PartialFailures.EnvironmentDecidesBulkErrors` | opensearchapi/api.go:39-56 | the last token of the environment variable that mentions bulk items decides whether bulk calls return their failures, whatever is configured |
| `PartialFailures.SearchShardFailures` | opensearchapi/msearch_gen.go:355-378 | the loop sums the shard counts of the answered sub-responses and collects their shard failures in order |
| `PartialFailures.CountsAdd` | opensearchapi/msearch_gen.go:359-368 | shard totals, failed shards and shard failures of a list are those of its parts, summed and concatenated |
| `PartialFailures.CountsOfOne` | opensearchapi/msearch_gen.go:361-367 | an answered sub-response counts with its own total, failed shards and failures; any other not at all |
| `PartialFailures.MultiSearchItemFailures` | opensearchapi/msearch_gen.go:383-408 | the loop lists the error envelopes of the refused sub-responses with their positions and counts the rest |
| `PartialFailures.RefusalsAreThePositions` | opensearchapi/msearch_gen.go:389-400 | each listed item failure has the position and envelope of a refused sub-response, in order |
| `PartialFailures.RefusedAtHas` | opensearchapi/msearch_gen.go:389-400 | a position is listed exactly when its sub-response is refused |
| `PartialFailures.MSearchPartialFailures` | opensearchapi/msearch_gen.go:413-426 | each category is reported exactly when it occurred and is not masked |
| `PartialFailures.MSearchReturns` | opensearchapi/msearch_gen.go:413-426 | nil, the one category bare, or both with the shard failures first under the multi-search error, as they occurred and are not masked |
| `PartialFailures.MSearchVerdict` | opensearchapi/errors.go:353-359 | end to end, a multi-search passes exactly when each of its two categories is masked or healthy on its own |
| `KeyBuilder.BigEndianRoundTrip` | internal/ttlcache/keyhash.go:50-76 | the fixed-width bytes determine the integer |
| `KeyBuilder.ReadStrOfFrame` | internal/ttlcache/keyhash.go:35-46 | a length-prefixed string is read back from the front of any bytes |
| `KeyBuilder.ReadNumOfFrame` | internal/ttlcache/keyhash.go:50-63 | an integer is read back from the front of any bytes |
| `KeyBuilder.ZeroFramesAsEmptyString` | internal/ttlcache/keyhash.go:35-55 | a zero integer and an empty string are written as the same bytes |
| `Sorting.LessEqIsLexicographic` | opensearch.go:607-611 | strings compare byte by byte: a prefix comes first, otherwise the first different byte decides |
| `Sorting.AscendingIsUnique` | opensearch.go:602-616 | two ascending arrangements of the same strings are equal |
| `Sorting.SortIsCanonical` | opensearch.go:607-611 | two lists sort alike exactly when they have the same elements with the same multiplicities |
| `ConfigKey.WriteHeader` | opensearch.go:608-616 | the nested loops write each header's name, its number of values and its sorted values |
| `ConfigKey.BuildKey` | opensearch.go:583-662 | a key is built exactly when none of the thirteen opaque fields is set, and then the calls are those of the configuration's content, whatever order the header map is ranged over |
| `ConfigKey.StreamFront` | opensearch.go:596-600 | the stream starts with the addresses, the separator, the user name and the password |
| `ConfigKey.StreamHeaders` | opensearch.go:602-616 | then come the headers, each name once and ascending, each with its values ascending |
| `ConfigKey.StreamBack` | opensearch.go:618-659 | then separator, certificate, verification flag, statuses with their count, and every other field at its own place |
| `KeyUniqueness.ContentIgnoresOrder` | opensearch.go:602-616 | neither the iteration order of the header map nor the order of a header's values changes the key |
| `KeyUniqueness.NumbersDetermineFields` | opensearch.go:624-655 | each numeric and boolean field is recovered, and nil, false and true discovery stay apart |
| `KeyUniqueness.TokensDetermineContent` | opensearch.go:596-659 | the sequence of builder calls is uniquely decodable although it counts neither addresses nor headers |
| `KeyUniqueness.KeyCallsDetermineConfig` | opensearch.go:568-662 | two configurations make the same calls exactly when they agree on every hashed field, header values as multisets |
| `KeyBytes.KeyBytesAndCountsDetermineConfig` | opensearch.go:568-662 | for all configurations, every hashed field agrees, header values as multisets, exactly when the hashed bytes are equal and there are as many addresses and as many headers |
| `KeyBytes.KeyBytesDetermineConfig` | opensearch.go:583-662 | when no address and no header name of two configurations is the separator, the counts follow: the hashed bytes are equal exactly when every hashed field is |
| `KeyBytes.AddressesAloneAreUnambiguous` | opensearch.go:596-600 | for every configuration, separators or not, a change of the addresses alone always changes the bytes |
| `KeyCollisions.KeyBytesCollide` | opensearch.go:568-572 | for every configuration, two variants that differ in hashed fields have the same bytes: as many headers, but only one of them with an address, which is the separator |
| `KeyCollisions.HeadersCollide` | opensearch.go:568-572 | for every configuration, two variants with the same addresses that differ in headers, certificate and retried statuses have the same bytes |
| `ClientResolution.AddrsFromEnvironment` | opensearch.go:819-832 | the loop returns the trimmed comma-separated addresses of a set, non-empty variable |
| `ClientResolution.TrimBlanksIs` | opensearch.go:827-829 | what is left of a piece is it without the white-space characters around it, in UTF-8 |
| `ClientResolution.SpaceBytesAreSpaceChars` | opensearch.go:827-829 | the byte sequences trimmed are the UTF-8 encodings of the white-space characters |
| `ClientResolution.AddrsToURLs` | opensearch.go:835-848 | fails exactly when some address does not parse; otherwise as many URLs as addresses, each that of its address |
| `ClientResolution.ExtractCredentials` | opensearch.go:852-873 | the loop computes the credentials in force |
| `ClientResolution.CredentialsInForce` | opensearch.go:850-873 | configured values are never replaced, missing ones come from the first URL that carries user information, a password it lacks stays missing, later URLs do not matter, and without such a URL nothing changes |
| `ClientResolution.NewClient` | opensearch.go:421-443 | configured addresses give one URL each, that of the address without trailing slashes; without them the trimmed pieces of a non-empty environment variable do; without either the URL is the default one; credentials start from the configured ones and are filled from the first URL with user information |
| `ClientResolution.AddressesComeFrom` | opensearch.go:421-443 | the same of the specification, and configured addresses resolve alike under every environment |
| `ClientResolution.DefaultUrlText` | opensearch.go:435-439 | the default URL is http://localhost:9200 |
| `ClientResolution.EqualKeysEqualClients` | opensearch.go:358-370 | under one environment, configurations with equal key calls resolve to the same URLs and credentials, listed or from the environment |
| `ClientResolution.EqualKeyBytesEqualClients` | opensearch.go:358-370 | under one environment, configurations with equal key bytes, as many addresses in force and as many headers resolve to the same URLs and credentials |
| `ClientResolution.SeparatorFreeKeyBytesEqualClients` | opensearch.go:358-370 | the same for equal key bytes, whatever the counts, when no address in force and no header name is the separator |
| `ClientResolution.DefaultKeyFollowsEnvironment` | opensearch.go:311-370 | one configuration under two environments: its key bytes agree exactly when the addresses in force do, and then the clients resolve alike |
| `ClientResolution.CollidingKeysResolveApart` | opensearch.go:358-370 | without such a condition, equal key bytes with one configuration resolving and the other refused |
| `ErrorBody.CausedByRoundTrip` | error.go:85-89 | causes nested to any depth survive encoding and decoding |
| `ErrorBody.CauseRoundTrip` | error.go:75-105 | a structured cause survives encoding and decoding, absent and empty lists of root causes included |
| `ErrorBody.CauseMeans` | error.go:75-105 | the decoder accepts exactly the trees of a cause and gives that cause: every field from the member of its name, absent and null alike, other types refused, causes nested to any depth |
| `ErrorBody.ClassifyOfEncode` | error.go:142-207 | each of the five shapes is classified as itself with equal fields, exactly when a structured error has a status and a type or reason |
| `ErrorBody.OutcomesOf` | error.go:170-206 | for every body, exactly when it is a message, reason, plain or string error, and with which fields |
| `ErrorBody.StructuredOutcomes` | error.go:119-140 | with a numeric status and an error object: a structured error, its raw text, or unrecognised, exactly when |
| `ErrorBody.UnrecognisedKeepsItsText` | error.go:206 | a body of no recognised shape comes back as its own text under the HTTP status |
| `ErrorBody.RefusedBodies` | error.go:162-214 | exactly which bodies are refused for their type |
| `ErrorBody.ClassifyIsIdempotent` | error.go:143-214 | for every body, the shape it is classified as is classified as itself when encoded |
| `ErrorBody.EncodeIsInjective` | error.go:25-140 | the shapes are disjoint and their fields recoverable |
| `Responses.Response.constructor` | response.go:85-92 | a response over an unread body with an empty cache |
| `Responses.Response.HijackBody` | response.go:78-82 | gives the buffer away and forgets it |
| `Responses.Response.RenderedBody` | response.go:126-149 | the buffer wins, then the cache; otherwise the body is drained once into the cache |
| `Responses.Response.String` | response.go:104-113 | shows the buffer, else the cached rendering, else the body or its read error, else the status alone and, with a cache, leaves what is shown unchanged |
| `Responses.Response.ParseError` | error.go:143-207 | drains the body, restores it as a fresh reader over the same bytes, and classifies them |
| `ResponseRuns.Execute` | opensearch.go:754-791 | which of the three errors is returned, or none; without error or after a failed decode the response is buffered and its body readable again, beside a transport error the body is unread, after a failed read it is drained and not buffered |
| `ResponseRuns.RunBuffered` | response.go:55-149 | over every sequence of String, RawBody, HijackBody and ParseError calls and String calls on copies, each call returns what the history determines |
| `ResponseRuns.DrainedMeansRenderedAfterHijack` | response.go:129-148 | the body is lost to ParseError exactly when a rendering followed a hijack |
| `ResponseRuns.UnhijackedCallsAreIndependent` | opensearch.go:772-789 | without a hijack every call returns the same whatever was called before |
| `ResponseRuns.RunCopies` | response.go:94-149 | over every sequence of copies and String calls, all calls show the same and together read the body at most once |
| `ResponseFamily.RunFamily` | response.go:31-149 | over every sequence of copies and of String, RawBody, HijackBody and ParseError calls on any copy, each call returns what the replay says, for buffered and unbuffered responses, with and without a body or a read error |
| `ResponseFamily.ExecuteAndCall` | opensearch.go:754-791 | any calls on any copies of a response Execute returned, without error or with any of its errors, return what the replay says for the body as Execute left it |
| `ResponseFamily.AnswersAt` | response.go:94-149 | a call's answer is decided by the calls before it |
| `ResponseFamily.BytesAreKeptOnce` | response.go:138-149 | over every sequence the body's bytes are neither lost nor duplicated: either some copies hold them in their reader or the cache does, never both |
| `ResponseFamily.LastFinderHolds` | error.go:143-160 | after a ParseError that found the bytes, until they are taken again, exactly the copy it was called on and the copies made from that one since find them |
| `ResponseFamily.HoldersFromHistory` | error.go:143-160 | after any calls, a copy finds the bytes exactly when no call took them, or the last call that took them is a ParseError on that copy or on the copy it descends from |
| `ResponseFamily.SoleParserFinds` | error.go:143-160 | without a hijack, ParseError called on one copy only finds the bytes every time |
| `ResponseFamily.UnhijackedCopiesShowTheOriginal` | response.go:94-113 | without a hijack, every copy of a buffered response shows the original text and gives the original bytes, whichever copies ParseError was called on |
| `ResponseFamily.CopyKeepsItsBuffer` | response.go:67-82 | whatever happens to other copies, a copy of a buffered response gives its bytes and shows the original exactly until it, or the copy it descends from, is hijacked |
| `ResponseFamily.RenderingsAgree` | response.go:115-149 | the first rendering of a copy without a buffer decides what every later rendering of such a copy shows |
| `ResponseFamily.ParseErrorOnEarlierCopy` | error.go:148-160 | a copy taken before ParseError shares the drained reader and finds an empty body |
| `Version.ParseVersionAccepts` | opensearch.go:665-689 | a version is returned exactly when the text starts with three dotted numbers below 2^63, and it is their values |
| `Version.ParseOfPrinted` | opensearch.go:664-689 | printing three numbers and parsing them with any suffix that does not start with a digit gives them back, or fails when one does not fit |
| `Version.ValueOfConcat` | opensearch.go:665-689 | digits count in tens: what stands before `n` digits counts ten to the `n` times |
| `Version.ValueOfDigit` | opensearch.go:665-689 | a digit counts as itself |

## Left out

- The hash itself: a key is compared by its stream, so hash collisions, reference counts and idle eviction of the cache are not part of this model.
- The transport, routing and discovery, and the start of background discovery in `NewClient`.
- Generated request and parameter plumbing, the other failure detectors, and union decoding; they repeat the bulk and multi-search pattern or are lookups.
- JSON text: escaping, duplicate and case-insensitive keys, and numbers beyond the range of a float; `url.Parse` and the regular-expression engine.
- Floating-point rounding of rates and the wording of error messages; what is inside a shard failure's or sub-query's cause.
- Multi-errors of other packages that hold nil entries, and error types with their own `As` or `Is` methods.
- Invalid UTF-8 in mask text.
- Closing a body: a closed reader that refuses further reads is not modelled; concurrent String calls on copies, which the source declares unsafe.
- Clients.Client.SetErrorMask: states the sequential call; its two atomic steps under interference are the subject of `MaskCell.dfy`.
- ResponseRuns.Execute: covers the buffering from the HTTP response on, not building or sending the request.
