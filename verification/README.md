# Chrys: a verification model of the transcript and stream kernel

This Dafny project models the part of Chrys that decides what a transcript means, how a streamed response is put
together, and what is rolled back, re-inserted or refused when something goes wrong. Code that changes state step by
step is a class or a method with loops, proved against functions of its inputs; code made of expressions is functions;
what the repository promises of either is stated as lemmas over all inputs, all interleavings or all runs.

| file | subject |
|---|---|
| `Values`, `Transcript`, `Accessors` | Python values; what the walks see of a live message and of a serialized one, name by name |
| `Exchanges`, `Agreement` | the exchange grammar and its walk; agreement of the two accessors |
| `Fifo`, `Pairing`, `PairingLaws`, `PairingLists` | first-come-first-served queues; the pairing walk; matching and conservation; its lists, exactly |
| `Schemas`, `Locations`, `LocationSearch`, `ErrorLocations`, `IndexFailures`, `ErrorCap` | JSON Pointer references, readings of an error location, the branch-and-bound search over them, where it raises, the fair cap |
| `SchemaPaths`, `PathReadings`, `LocationPaths` | locations that spell a path of the schema, and where the resolver comes out |
| `Classes`, `SlotMeaning`, `Classifier`, `Policies`, `Rewriters` | classification of an input class graph; what its slots hold and what keeps it out of the strongest tier |
| `Restoration`, `RestorationLaws`, `FullDumps`, `ClassPlaces`, `RoundTrip`, `InverseLimits`, `Repetition` | re-inserting explicit nulls: conservative, inverse to the loss of nulls and exactly where, idempotent |
| `MiddleTier`, `ForeignParts` | what is restored below the strongest tier; values that restoration does not look into, and keys it leaves alone |
| `Contents`, `Landing`, `Assembly`, `AssemblyLaws`, `Chunking`, `ChunkingLimits` | adding content fragments, assembling a streamed response, independence of chunking and exactly where |
| `Blocks`, `Turns` | finished contents and messages told from the fragments and updates behind them |
| `StreamFlow`, `FilterOrder`, `ResponseStreams` | chains of wrapped streams: filters and their order, pulling, finalization, closing |
| `Identity` | the weak identity registry under every interleaving |
| `RetryHistory`, `Retry`, `RetryLaws`, `RetryRounds` | two-level history snapshots and the retry loop |
| `Sorting`, `Canonical`, `ReadBack` | the canonical text of tool arguments, and reading it back |

## Where the code and its text disagree

- `_tool_arg_errors.py:346-352` says that the penalty for selecting after a blind skip outweighs anything a location can
  earn otherwise. It does for locations of at most 287 parts (`ErrorLocations.BlindLosesWhenShort`) and fails for every
  longer length (`ErrorLocations.BlindWinsWhenLong`). The comment next to the skip states speaks of one further skip
  after a blind one; the code allows a chain of them, and so does the model.
- `_tool_arg_errors.py:571-680` raises `IndexError` for an integer part below minus the length of `prefixItems`. The
  model keeps that as an outcome of its own. A location of strings, integers and booleans makes the resolver raise for
  some schema exactly if one of its integers is negative (`IndexFailures.PlainRaisesExactly`); with other parts in it,
  exactly if a negative integer comes before a part of no text that is followed by another such part or a float
  (`IndexFailures.RaisesExactly`).
- `retry.py:50-55` and `retry.py:189-193` describe stall exhaustion as "every attempt stalled". The code raises it when
  the last attempt stalled, could be retried and found the budget used up (`RetryLaws.ExhaustionIsALastStall`). Without
  exempted failures the description is true of all runs exactly if the budget is zero or less
  (`RetryLaws.ExhaustionMeansEveryStall`); with them it is true of no configuration
  (`RetryLaws.ExhaustionWithoutEveryStall`).
- A root model over null dumps as null although the value is not null (`InverseLimits.UnfaithfulIsOverNull`). Where the
  walk looks for nulls, such a value cannot be told from a null that was dropped: a value whose nulls are otherwise
  explicit comes back from every loss exactly if it has none there (`InverseLimits.InvertsExactly`).
- A result hook registered at a finalized stream that wraps an abandoned one makes the next request for its result
  finalize the abandoned stream too (`ResponseStreams.Chain.HarmfulHook`; chains come to that,
  `ResponseStreams.LateResultHook`). Every other result hook, late or not, is harmless
  (`ResponseStreams.HarmlessHookIsSafe`), and with those alone nothing of an abandoned stream ever runs
  (`ResponseStreams.Chain.CloseBetween`).
- Truncating to a limit of zero characters yields one; to every positive limit it is exact
  (`Canonical.TruncationIsExact`).
- Combining the properties of two content fragments with what comes before is associative exactly if they are not an
  explicit null segment marker in front of segments (`Contents.AssociatesUnlessNull`), and that is exactly when no
  stream shows that a fragment was split in two (`ChunkingLimits.SplitIsInvisible`).
- An update cut in two leaves an empty message behind exactly if it brings nothing new, opens a message, neither part is
  a heartbeat or retry boundary, and one part repeats objects already seen while the other does not
  (`ChunkingLimits.CutIsInvisible`, `ChunkingLimits.CutLeavesEmptyMessage`).

## Model

| member | source | states |
|---|---|---|
| Exchanges.IterExchanges | src/chrys/kernel/exchanges.py:415-476 | The loop yields a triple if and only if the grammar calls it an exchange: a maximal run of unmarked, non-result-only assistant messages with a call, and the maximal output run after it |
| Exchanges.IsResultOnly | src/chrys/kernel/exchanges.py:380-395 | The early-stopping loop decides: an assistant message with a result and without a call |
| Exchanges.EmbeddedResults | src/chrys/kernel/exchanges.py:403-474 | The embedded results collected by the nested loops are those of the response run, in order |
| Exchanges.WalkMeetsGrammar | src/chrys/kernel/exchanges.py:415-476 | Both directions of "yielded if and only if an exchange of the grammar", for every transcript and vocabulary |
| Exchanges.WalkIsOrdered | src/chrys/kernel/exchanges.py:415-476 | Exchanges are disjoint, in transcript order, and carry the embedded results of their own run |
| Exchanges.EmbeddedCovers | src/chrys/kernel/exchanges.py:455-474 | A content is listed as embedded if and only if it is a result content of the response run |
| Exchanges.EmbeddedTells | src/chrys/kernel/exchanges.py:403-474 | Embedded results are listed in transcript order, each with the kind, error kind and policy-free id of its content |
| Exchanges.MarkerSplitsWalk | src/chrys/kernel/exchanges.py:415-476 | The walk over `xs + [marker] + ys` is that over `xs` followed by that over `ys` with shifted indices |
| Accessors.TypesAreNamed | src/chrys/kernel/exchanges.py:55-87 | The content types that are calls and results, live and serialized, name by name |
| Accessors.NameComesBack | src/chrys/kernel/exchanges.py:55-87 | Each type is told by its own name |
| Accessors.ErrorKindsAreNamed | src/chrys/kernel/exchanges.py:91-94 | The error kinds that reject a call before dispatch, by name |
| Accessors.LiveFacts | src/chrys/kernel/exchanges.py:135-171 | Two live contents look alike to the walks if and only if type, informational flag, error kind and, for images the image id, else the call id agree |
| Accessors.DictFacts | src/chrys/kernel/exchanges.py:177-222 | The same of serialized contents, whose MCP calls are informational anyway |
| Agreement.ContentAgrees | src/chrys/kernel/exchanges.py:135-222 | Live and serialized views of a content agree if and only if its id holds no tuple and no object with an export of its own, and its informational flag is set on function and MCP calls only |
| Agreement.MessageAgrees | src/chrys/kernel/_serialization.py:290-371 | Live and serialized views of a message agree if and only if all contents survive and the marker, if any, is neither a tuple nor an object the serializer does not know |
| Agreement.AccessorsAgree | src/chrys/kernel/_types.py:1528-1606 | For transcripts without legacy contents that survive serialization, exchanges and pairings under both accessors are equal, for every policy |
| Pairing.PairingState.RegisterCall | src/chrys/kernel/exchanges.py:530-553 | Registering a call updates the state as the value-level walk says |
| Pairing.PairingState.ConsumeResult | src/chrys/kernel/exchanges.py:555-590 | Consuming a result updates the state as the value-level walk says, in every id policy |
| Pairing.PairResults | src/chrys/kernel/exchanges.py:612-657 | The nested walk over an exchange ends in the pairing the laws below are about |
| PairingLaws.KeyIsQueue | src/chrys/kernel/exchanges.py:530-569 | What the walk keeps for one truthy key is one FIFO queue over the calls and results of that key, whatever else the transcript holds |
| PairingLaws.StreamIsQueue | src/chrys/kernel/exchanges.py:524-590 | The same for the queue of an id-less stream under its policy |
| PairingLaws.KeyPairsInOrder | src/chrys/kernel/exchanges.py:530-569 | Filled slots are a prefix, filled in walk order; every pair has call message at or before result message, at the same message only when the result is embedded |
| PairingLaws.KeyPairingIsMaximum | src/chrys/kernel/exchanges.py:530-569 | Per key the assignment is a maximum matching among all that never answer a call of a later message |
| PairingLaws.StreamPairingIsMaximum | src/chrys/kernel/exchanges.py:555-590 | Per id-less stream the same, over the results its policy lets consume |
| PairingLaws.KeyConserves | src/chrys/kernel/exchanges.py:555-569 | Every truthy result lands exactly once: in a slot of its key or among its unconsumed results |
| PairingLaws.FalsyConserves | src/chrys/kernel/exchanges.py:569-590 | Id-less calls and results are conserved over slots, leftovers and unpairables |
| PairingLaws.InventoryIsExact | src/chrys/kernel/exchanges.py:343-359 | `results_by_key` is, key by key, exactly the multiset of truthy results seen |
| PairingLaws.AnsweredMeansEligible | src/chrys/kernel/exchanges.py:361-372 | `answered_keys` is the key set of the eligible truthy results, and assigned results are eligible |
| PairingLists.ListsAreExact | src/chrys/kernel/exchanges.py:530-590 | The eligible results of a key are those after its first call, the eligible id-less results of a stream those after the first id-less call of either stream, the unpairable calls and results and the unconsumed id-less results those their policy says: each list exactly, in walk order |
| PairingLaws.EventsCover | src/chrys/kernel/exchanges.py:612-657 | The walk registers exactly the in-scope calls and consumes exactly the in-scope results, each once |
| PairingLaws.EventsAreOrdered | src/chrys/kernel/exchanges.py:612-657 | A call precedes a result in the walk exactly when its message is not a later one |
| Fifo.QueueIsMaximum | src/chrys/kernel/exchanges.py:530-569 | First come, first served answers at least as many calls as any assignment of later results to earlier calls |
| Schemas.DecodeUndoesEscape | src/chrys/kernel/_tool_arg_errors.py:136-151 | The two-step token decoding undoes the escaping of section 3 of RFC 6901 for every string |
| Schemas.OrderMatters | src/chrys/kernel/_tool_arg_errors.py:136-151 | In the order section 4 of RFC 6901 forbids, `~1` would decode to `/` |
| Schemas.PointerRoundTrip | src/chrys/kernel/_tool_arg_errors.py:136-151 | Escaping, joining, splitting and decoding any list of tokens gives that list back |
| Schemas.ReferenceFindsPath | src/chrys/kernel/_tool_arg_errors.py:136-151 | A reference escaped from the path of any mapping in the schema leads to that mapping |
| Schemas.ResolveLocalRef | src/chrys/kernel/_tool_arg_errors.py:136-151 | The loop ends on every schema, cyclic references included, at the specified node |
| Schemas.ResolutionEnds | src/chrys/kernel/_tool_arg_errors.py:136-151 | What resolution returns has no reference that can be followed, except around a cycle of references already followed |
| Locations.MoveWeights | src/chrys/kernel/_tool_arg_errors.py:571-680 | Every reading weighs between the desperate skip and the discriminator selection, or the blind penalty, and that one only after a blind skip |
| LocationSearch.BoundIsAdmissible | src/chrys/kernel/_tool_arg_errors.py:697-725 | The bound of full weight per remaining part is never below what any continuation earns |
| LocationSearch.PruningIsSafe | src/chrys/kernel/_tool_arg_errors.py:696-725 | An entry whose bound the incumbent reaches cannot improve on it |
| LocationSearch.FullPopIsOptimal | src/chrys/kernel/_tool_arg_errors.py:696-725 | A full reading popped first is optimal over everything still in the frontier |
| LocationSearch.ReadingBelowBest | src/chrys/kernel/_tool_arg_errors.py:562-725 | The recursive optimum bounds every reading that `expand` allows |
| LocationSearch.Dive | src/chrys/kernel/_tool_arg_errors.py:679-695 | The greedy dive offers exactly the reading that takes the heaviest, first listed move at every part |
| LocationSearch.Search | src/chrys/kernel/_tool_arg_errors.py:562-725 | The result is the greedy reading or a strictly better one, and optimal when the frontier empties or a full reading is popped before the state cap |
| ErrorLocations.ExpandLoop | src/chrys/kernel/_tool_arg_errors.py:571-680 | The loops of `expand`, with their deduplication of children, list the specified moves |
| ErrorLocations.ResolveErrorLocation | src/chrys/kernel/_tool_arg_errors.py:503-725 | For every schema graph and location: never worse than greedy, and maximal in (fully consumed, weight) over all readings when complete |
| SchemaPaths.NamesIsResolved | src/chrys/kernel/_tool_arg_errors.py:136-151 | A reference resolves to a node that is none itself if and only if following it and the references it leads to comes there |
| SchemaPaths.VariantsBranch | src/chrys/kernel/_tool_arg_errors.py:154-160 | The branches of a node are the resolved mappings of its first combination, in order, or the node itself |
| SchemaPaths.UnionNamesAre | src/chrys/kernel/_tool_arg_errors.py:402-448 | The names a union's marker can show are those of its branches: reference and title, discriminator tags and targets, and the same one nested union deep |
| PathReadings.StepReads | src/chrys/kernel/_tool_arg_errors.py:562-680 | Where a part, told from the schema, is a tag or title of a union, of a union within it or behind its marker, names a property, item or key of an open mapping, or is a branch marker, that is its heaviest reading |
| PathReadings.LeavesIs | src/chrys/kernel/_tool_arg_errors.py:451-482 | A skipped marker leaves selection possible if it spells a union and, delimited, one of its names, as a last resort if it hides the schema, and not at all otherwise |
| LocationPaths.GreedySpells | src/chrys/kernel/_tool_arg_errors.py:503-695 | A location that spells such a path from the root is read greedily as that path: to its end, displaying exactly its members and keys, 8 half points per tag, 6 per member |
| LocationPaths.ResolveSpelledLocation | src/chrys/kernel/_tool_arg_errors.py:503-725 | The resolver then consumes the whole location, and its answer is that path, node and display, unless another reading is strictly heavier; in a schema without unions a path of members is its answer, node and display, even where the state cap cuts the search short |
| IndexFailures.RaisesExactly | src/chrys/kernel/_tool_arg_errors.py:571-680 | For every location: some well-formed schema makes the resolver raise, in the greedy dive already, if and only if a negative integer comes before any part of no text that is followed by another such part or a float |
| IndexFailures.PlainRaisesExactly | src/chrys/kernel/_tool_arg_errors.py:571-680 | For strings, integers and booleans: if and only if some integer is negative |
| ErrorLocations.BlindLosesWhenShort | src/chrys/kernel/_tool_arg_errors.py:340-352 | Up to 287 parts every full reading that selects blindly loses to every full reading that does not |
| ErrorLocations.BlindWinsWhenLong | src/chrys/kernel/_tool_arg_errors.py:340-352 | For every longer length there is a location for which it does not |
| ErrorCap.CappedValidationErrors | src/chrys/kernel/_tool_arg_errors.py:1437-1489 | Above 50 errors: exactly 50, a prefix of every field's errors, every field represented when there are at most 50, no field more than one ahead of another that has errors left |
| ErrorCap.ClampingKeepsMarkers | src/chrys/kernel/_tool_arg_errors.py:1454-1467 | A giant part is cut to one character past the scan limit, and is taken for the same kind of marker as before |
| ErrorCap.GroupByHead | src/chrys/kernel/_tool_arg_errors.py:1468-1476 | Grouping lists the fields in order of first appearance, each with its errors in order |
| ErrorCap.SelectionIsFair | src/chrys/kernel/_tool_arg_errors.py:1468-1489 | Any number of whole rounds and part of one more is fair in that sense once it holds 50 errors |
| Classes.KeyChoice | src/chrys/kernel/_null_overlay.py:222-230 | The key a field is dumped under: its name, or by alias its serialization alias before its alias |
| Classifier.PolicyBuilder.MetadataIsPlain | src/chrys/kernel/_null_overlay.py:300-311 | Metadata passes if and only if it holds no serializer and nothing unknown, at any depth |
| Classifier.PolicyBuilder.RecordSlotClasses | src/chrys/kernel/_null_overlay.py:350-359 | A slot is recorded with exactly the classes it may hold, and refused if and only if it pairs a class with a subclass |
| Classifier.PolicyBuilder.AnnotationIsPlain | src/chrys/kernel/_null_overlay.py:361-390 | The search ends on cyclic graphs; success means the shape is whitelisted and every class mentioned is approved or under way, and keeps the soundness invariant; refusal means that no set of plain classes closed under mention covers the annotation |
| Classifier.PolicyBuilder.ModelIsPlain | src/chrys/kernel/_null_overlay.py:392-454 | Success means that the model's flags and keys are plain and each of its slots is checked and recorded; refusal means that it lies in no closed set of plain classes |
| Classifier.PolicyBuilder.DictIsPlain | src/chrys/kernel/_null_overlay.py:456-510 | The same for typed dictionaries |
| Classifier.PolicyBuilder.DataIsPlain | src/chrys/kernel/_null_overlay.py:512-581 | The same for dataclasses |
| Classifier.ApproveKeepsSound | src/chrys/kernel/_null_overlay.py:445-454 | Approving the class whose check ended keeps every approved class settled |
| Policies.Classify | src/chrys/kernel/_null_overlay.py:816-858 | The strongest tier is given if and only if the root's output is its own, the compiled schema is trusted and every class within reach of the root is plain, on cyclic graphs too; what the middle tier restores is said by `MiddleTier` |
| Policies.ReachIsClean | src/chrys/kernel/_null_overlay.py:361-581 | Where everything within reach of the root is plain, the reach is a closed set of plain classes, which the search must accept |
| Policies.ReachableIsApproved | src/chrys/kernel/_null_overlay.py:350-581 | Under the strongest tier every class reachable along declared annotations is approved, passed its checks, and is recorded with distinct keys and slots free of subclass pairs |
| Policies.SlotIsApproved | src/chrys/kernel/_null_overlay.py:313-359 | The classes a slot may hold, typed dictionaries looked through, are approved |
| SlotMeaning.SlotHoldsExactly | src/chrys/kernel/_null_overlay.py:313-348 | The classes listed for a slot are exactly those its values may be or hold outside of other models: mappings by their values, typed dictionaries by members and extra items, however they refer to each other |
| Rewriters.TargetsAreWithin | src/chrys/kernel/_null_overlay.py:361-390 | The classes whose checks an annotation runs are those written anywhere in it |
| Rewriters.PlainUnlessRewritten | src/chrys/kernel/_null_overlay.py:300-581 | A class is plain if and only if nothing about it may rewrite, rename or drop what its values hold: each serializer, foreign metadata at any depth, alias, clash of keys or blurred slot is one such thing |
| Rewriters.PlainGraphIs | src/chrys/kernel/_null_overlay.py:361-581 | A graph is plain if and only if every class within reach of the root is known and has none of them |
| MiddleTier.RestorableIsVouched | src/chrys/kernel/_null_overlay.py:758-811 | The middle tier lists a root field if and only if nothing may rewrite its value (serializers at any depth of its annotation, field serializers, an untrusted compiled field) or contest its dump entry (exclusion, another field or computed field of its key) |
| MiddleTier.MiddleTierVouches | src/chrys/kernel/_null_overlay.py:1010-1023 | It puts in exactly the missing nulls that the caller set in such fields, and each of them is in every dump that drops nothing, whatever serializers make of the other entries |
| MiddleTier.ClassifyAndVouch | src/chrys/kernel/_null_overlay.py:816-1023 | Classification and restoration in a row say the same of every model below the strongest tier |
| Restoration.RestoreFull | src/chrys/kernel/_null_overlay.py:899-1007 | The recursive walk with its loops computes the specified restoration |
| RestorationLaws.RestoreExtends | src/chrys/kernel/_null_overlay.py:899-1007 | For every value, dump and policy: nothing is removed or overwritten, everything inserted is null, and removing the insertions gives the dump back |
| RestorationLaws.ExplicitNullsExtend | src/chrys/kernel/_null_overlay.py:1010-1023 | The same for the entry point under every tier |
| ForeignParts.ForeignIsOpaque | src/chrys/kernel/_null_overlay.py:899-1007 | Values that differ only inside parts of classes their slots do not declare, or that are not approved, restore alike from every dump |
| ForeignParts.ContestedKeysStay | src/chrys/kernel/_null_overlay.py:888-948 | A key that an extra claims together with a dumped or computed field stays as it was dumped, under every policy |
| RestorationLaws.RestoreTwice | src/chrys/kernel/_null_overlay.py:899-1007 | Restoring twice is restoring once whenever no two places of a mapping share a key |
| RestorationLaws.SharedKeysRestoreTwice | src/chrys/kernel/_null_overlay.py:899-1007 | With shared keys, as only a hand-built policy has them, it need not be |
| Repetition.ClassifiedKeysApart | src/chrys/kernel/_null_overlay.py:888-1007 | A classified policy never has two places of any value share a key: colliding extras switch both sides off |
| Repetition.RestoresOnce | src/chrys/kernel/_null_overlay.py:1010-1023 | The entry point is idempotent for every value and dump under every classified policy |
| ClassPlaces.ModelIsFaithful | src/chrys/kernel/_null_overlay.py:907-948 | The places restoration visits in an approved model are, key by key, those its full dump fills; what it does not visit holds no null |
| ClassPlaces.DataIsFaithful | src/chrys/kernel/_null_overlay.py:950-974 | The same for dataclasses |
| ClassPlaces.SlotIsRecorded | src/chrys/kernel/_null_overlay.py:350-359 | The slot the walk looks up allows exactly the classes the annotation declares, all of them approved |
| RoundTrip.RestoreInverts | src/chrys/kernel/_null_overlay.py:899-1007 | For a well-typed value with explicit nulls, whatever subset of null entries, and per list all or none of the nulls, was dropped from its full dump: restoration gives exactly the full dump back |
| RoundTrip.ClassifyAndRestore | src/chrys/kernel/_null_overlay.py:816-1023 | Classification, loss and restoration in a row: the dump is always extended, and equals the full dump under the strongest tier |
| InverseLimits.InvertsExactly | src/chrys/kernel/_null_overlay.py:899-1007 | Of the values of approved classes whose nulls are explicit, exactly those come back from every loss that hold no root model over null where the walk looks for nulls |
| InverseLimits.UnfaithfulItemIsLost | src/chrys/kernel/_null_overlay.py:979-999 | Under every policy, a list or tuple with such an item does not come back once its nulls are dropped |
| InverseLimits.UnfaithfulEntryIsLost | src/chrys/kernel/_null_overlay.py:968-977 | Nor does a mapping once the entry of such a value is dropped |
| InverseLimits.UnfaithfulIsOverNull | src/chrys/kernel/_null_overlay.py:907-912 | The values that differ from their dumps in being null are exactly the root models over null, at any depth |
| Contents.CombinePropsAssociates | src/chrys/kernel/_types.py:1867-1890 | Combining properties, segment ids merged without repetition, is associative unless a null marker stands in front of segments |
| Contents.AssociatesUnlessNull | src/chrys/kernel/_types.py:1867-1890 | It is associative with whatever comes before if and only if that is not so |
| Contents.CombineArgumentsAssociates | src/chrys/kernel/_types.py:1752-1772 | Merging call arguments is associative, failures included |
| Contents.DeduplicatedInOrder | src/chrys/kernel/_types.py:1867-1890 | Merged segment ids are the ids mentioned, in the order of first mention |
| Landing.CallLandsWhole | src/chrys/kernel/_types.py:2300-2307 | Landing the two parts of a call fragment, not a null marker in front of segments, is landing the fragment, whatever precedes it |
| Landing.CoalesceTextContent | src/chrys/kernel/_types.py:2356-2385 | The loop computes the specified gluing, and fails exactly where an addition raises anything but a mismatch |
| Landing.TextSplitCoalesces | src/chrys/kernel/_types.py:2356-2385 | A text fragment, or the two it splits into, not a null marker in front of segments, coalesce alike anywhere in a message |
| Landing.CoalescingKeepsTokens | src/chrys/kernel/_types.py:2356-2385 | Coalescing texts or reasoning keeps every character and every other content, in order |
| Landing.CoalescesTextsOnce | src/chrys/kernel/_types.py:2356-2385 | Coalesced texts are never neighbours, and coalescing them again changes nothing |
| Blocks.LandingBlocks | src/chrys/kernel/_types.py:1752-1792 | The contents of a streamed message are blocks of what came in: a call is told by its fragments in a row, with the first one's id, the first name and exception that are not empty, all argument characters in order, later entries over earlier ones, raw items and segments in order; it raises if and only if some call has text and entries |
| Blocks.GluingBlocks | src/chrys/kernel/_types.py:1666-1750 | The same for the texts and reasonings that coalescing glues: a block goes on as long as nothing disagrees, and coalescing fails if and only if texts in a row lack a text |
| Assembly.Response.ProcessUpdate | src/chrys/kernel/_types.py:2232-2353 | The in-place update of messages, usage and seen objects is the specified step, and raises exactly where that has no result |
| Assembly.Response.Finalize | src/chrys/kernel/_types.py:2473-2483 | Finalization replaces usage by the latest snapshot and coalesces every message |
| Assembly.FromUpdates | src/chrys/kernel/_types.py:2775-2779 | The assembly of a whole stream |
| AssemblyLaws.FinalUsageIsLatest | src/chrys/kernel/_types.py:499-517 | The usage of a finished response is, key by key, the last value of the stream that is not null |
| AssemblyLaws.UsageIsSummed | src/chrys/kernel/_types.py:2308-2316 | While the stream comes in, the usage so far is, key by key, the sum over its snapshots of numbers |
| AssemblyLaws.IncorporatesOnce | src/chrys/kernel/_types.py:2241-2321 | Whatever is repeated, the messages hold every object other than usage exactly once, in order of first emission |
| Turns.MessagesAreTurns | src/chrys/kernel/_types.py:2232-2353 | The messages are the turns of the stream, told from the updates alone: an update leaves a turn exactly if its message id or role disagrees, opens none if it only repeats, and the message has the turn's last role and author, its message id and its contents; assembly raises if and only if some turn does not land |
| Turns.TurnsHoldAll | src/chrys/kernel/_types.py:2241-2321 | The turns hold every content exactly once, in order of first emission |
| Turns.FinishedAsTold | src/chrys/kernel/_types.py:2775-2779 | A finished response holds one message per turn, whose contents are the blocks of what the turn emitted |
| Turns.FinishedCalls | src/chrys/kernel/_types.py:1752-1792 | The calls of a finished message are those of its turn, call by call, and their argument characters, read in order, those of the fragments |
| Chunking.ChunkingIsInvisible | src/chrys/kernel/_types.py:2203-2385 | Splitting or gluing a text or call fragment wherever it is emitted, repetitions included, cutting or joining an update, and inserting or removing heartbeats and retry boundaries leave the finished response the same |
| ChunkingLimits.SplitIsInvisible | src/chrys/kernel/_types.py:1867-1890 | A split fragment shows in no stream if and only if it is not a null marker in front of segments |
| ChunkingLimits.CutIsInvisible | src/chrys/kernel/_types.py:2257-2350 | A cut shows in no stream that goes on from a finishable beginning if and only if something is new, a part is ignored, the message is open, or both parts repeat seen objects or neither does |
| ChunkingLimits.CutLeavesEmptyMessage | src/chrys/kernel/_types.py:2309-2350 | A repeated text cut from the usage of an update for another role adds an empty message |
| Chunking.RechunkingIsInvisible | src/chrys/kernel/_types.py:2203-2385 | So does any number of such changes |
| Chunking.CutStep | src/chrys/kernel/_types.py:2257-2350 | Two updates cut from one lead to the same state if and only if that condition holds, and to one message more otherwise |
| StreamFlow.RegistrationDelivers | src/chrys/kernel/_types.py:3960-3990 | A filter registered at any stream, before or after resolution, is kept where it will be applied |
| StreamFlow.ResolutionDelivers | src/chrys/kernel/_types.py:3692-3708 | The first resolution of a stream hands exactly its filters down |
| StreamFlow.EveryFilterOnce | src/chrys/kernel/_types.py:3692-3759 | An update pulled through the whole chain, mapped or not, passed every filter exactly as often as it was registered |
| StreamFlow.FilteredBeforeJoining | src/chrys/kernel/_types.py:3746-3759 | A filter has been applied when the update joins the updates of the stream that applies it |
| FilterOrder.RegistrationKeepsOrder | src/chrys/kernel/_types.py:3960-3990 | Wherever filters of a stream are kept, they are kept in the order they were registered |
| FilterOrder.ResolutionKeepsOrder | src/chrys/kernel/_types.py:3692-3708 | Handing them down keeps that order |
| FilterOrder.PassedInOrder | src/chrys/kernel/_types.py:3692-3759 | An update passes the filters of any one stream of the chain in the order they were registered there |
| FilterOrder.MapsFirst | src/chrys/kernel/_types.py:3746-3759 | At a stream that maps, the map comes behind everything done below and before the filters kept there |
| ResponseStreams.Chain.AddFilter | src/chrys/kernel/_types.py:3960-3990 | Registration keeps the delivery invariant |
| ResponseStreams.Chain.Pull | src/chrys/kernel/_types.py:3713-3759 | A pull resolves and accumulates at every level what that level sees; where no stream on the way is closed it yields, stops or raises exactly as the raw source does, and else it stops without touching the source; where it stops, every level it came to is consumed, cleaned up and finalized on the updates it has; a closed stream yields nothing and changes nothing |
| ResponseStreams.Chain.PullOutermost | src/chrys/kernel/_types.py:3713-3759 | What the outermost stream yields has passed every registered filter exactly once per registration |
| ResponseStreams.Chain.GetFinal | src/chrys/kernel/_types.py:3854-3950 | Asking an abandoned stream fails; a stream with something left to pull is pulled to its end, cleaned up and finalized, every level it came to having gained one update per raw value, in order, and fails if and only if the source does; with nothing left, exactly what is missing is finalized, a wrapped stream before its wrapper |
| ResponseStreams.FinalOfNew | src/chrys/kernel/_types.py:3854-3950 | Asking a stream of a new chain over raw values: it and every stream inside are finalized exactly once, on one update per raw value with the values in order, and no other stream is |
| ResponseStreams.AnyRun | src/chrys/kernel/_types.py:3692-3950 | Over any calls at any streams of a new chain, closing at the outermost one: cleanup hooks run at most once per stream, finalizers at most once and once more per result hook registered there, and never before those of the stream inside |
| ResponseStreams.Chain.Close | src/chrys/kernel/_types.py:3761-3829 | Closing marks the stream and, level by level, the open resolved streams inside, abandons what is not finalized, finalizes nothing |
| ResponseStreams.CloseReachesIs | src/chrys/kernel/_types.py:3761-3829 | Closing comes to the open streams below that exist: all but those behind an awaitable not yet awaited |
| ResponseStreams.Chain.CloseBetween | src/chrys/kernel/_types.py:3713-3950 | Whatever is called before and after closing the outermost stream: cleanup runs at most once per stream; the streams the close came to before they were finalized are abandoned, never finalize, and refuse their result at every level |
| ResponseStreams.HarmlessHookIsSafe | src/chrys/kernel/_types.py:3992-4000 | A result hook leaves that so unless its stream is finalized and wraps an abandoned one |
| ResponseStreams.Chain.HarmfulHook | src/chrys/kernel/_types.py:3892-3908 | In that case the next request for the result finalizes the abandoned stream |
| ResponseStreams.LateResultHook | src/chrys/kernel/_types.py:3892-4000 | A new chain of two comes to that: pulled to its end, with a result hook at either stream around the close |
| Identity.WeakIdentityRegistry.Register | src/chrys/kernel/identity.py:68-88 | Registration changes the entries as specified; usage may be refused, a member is kept as it is |
| Identity.WeakIdentityRegistry.Evict | src/chrys/kernel/identity.py:82-86 | The callback removes its own entry or nothing |
| Identity.MembershipIsExact | src/chrys/kernel/identity.py:68-92 | Over every interleaving of births at reused addresses, deaths, registrations and late callbacks: a member exactly if that very object was registered, not refused, and is alive |
| Identity.StaleCallbackIsHarmless | src/chrys/kernel/identity.py:82-86 | A late callback changes no membership and no entry but its own |
| Identity.NothingLeaks | src/chrys/kernel/identity.py:82-95 | Once the callbacks have run there is one entry per living member and nothing else |
| RetryHistory.CopyProperties | src/chrys/foundation/retry.py:121-122 | The copy shows the same and shares no dictionary at either level |
| RetryHistory.SnapshotProperties | src/chrys/foundation/retry.py:98-107 | A snapshot shows what the messages show, in dictionaries of its own |
| RetryHistory.RestoreProperties | src/chrys/foundation/retry.py:110-118 | Restoring gives every message its snapshot view in fresh dictionaries and leaves the snapshot reusable |
| RetryHistory.History.Apply | src/chrys/foundation/retry.py:98-107 | Any in-place change of a live message, its properties or a nested dictionary reaches only live and fresh objects |
| Retry.RestoreHistory | src/chrys/orchestration/engine/executor.py:1883-1908 | The rollback gives back messages, properties, compressed blocks, session and floor of the snapshot |
| Retry.Run | src/chrys/foundation/retry.py:186-274 | Every attempt starts from the history of the entry however earlier attempts mutated it, no run changes the snapshot, and the events are those of the specified plan |
| RetryLaws.RunsAreBounded | src/chrys/foundation/retry.py:198-274 | Budgeted retries are numbered 1, 2, ... with the scheduled delays and stay within the budget; attempts are at most budget plus one plus exempted retries |
| RetryLaws.RunsAreShaped | src/chrys/foundation/retry.py:255-274 | The trace of each retry is attempt, rollback, event, sleep, and nothing else |
| RetryRounds.RunsAreEarned | src/chrys/foundation/retry.py:198-274 | Told from the rounds: another attempt exactly where the last one failed or stalled, may be retried, is retryable and is exempted or within the budget; the retry published for it, its delay the scheduled one or the exemption's rounded up; and how the run ends |
| RetryLaws.ExhaustionIsALastStall | src/chrys/foundation/retry.py:212-232 | A run ends in stall exhaustion if and only if its last attempt stalled, could be retried and was not; the budget is used up then |
| RetryLaws.ExhaustionMeansEveryStall | src/chrys/foundation/retry.py:50-55 | Without exempted failures it means that every attempt stalled, in all runs of a configuration, if and only if there is no budget |
| RetryLaws.ExhaustionWithoutEveryStall | src/chrys/foundation/retry.py:241-250 | With an exempted failure every configuration has a run that ends so although an attempt did not stall |
| Sorting.TextLeqIs | src/chrys/foundation/tool_execution_stamp.py:105-116 | Texts are sorted by code point: a prefix first, otherwise by the first difference |
| Sorting.SortedKeysAreUnique | src/chrys/foundation/tool_execution_stamp.py:105-116 | The sorted keys do not depend on the order the items come in |
| Canonical.SameText | src/chrys/foundation/tool_execution_stamp.py:75-137 | The canonical text is invariant under any reordering of mappings and sets at any depth, in the key-collision branch too |
| ReadBack.EqualTextsAreSame | src/chrys/foundation/tool_execution_stamp.py:75-84 | Two JSON values are written alike if and only if they are the same up to the order of object members, for any quoting that tells where a string ends |
| ReadBack.ListsAgree | src/chrys/foundation/tool_execution_stamp.py:110-111 | Lists have one canonical text if and only if their items do, in order |
| ReadBack.SetsAgree | src/chrys/foundation/tool_execution_stamp.py:112-115 | Sets if and only if their members do, in any order |
| ReadBack.MappingsAgree | src/chrys/foundation/tool_execution_stamp.py:100-106 | Mappings with keys rendered apart if and only if the same names are bound to the same texts |
| ReadBack.CollidingMappingsAgree | src/chrys/foundation/tool_execution_stamp.py:107-109 | Mappings with keys rendered alike if and only if the same keys are bound to the same texts |
| Canonical.NormalizeKeepsEntries | src/chrys/foundation/tool_execution_stamp.py:101-113 | Normalization keeps every entry of a mapping, as a member or as one of the sorted pairs |
| Canonical.TruncationIsExact | src/chrys/foundation/tool_execution_stamp.py:161-168 | Truncation yields exactly the smaller of length and limit, if and only if it does not cut to zero |
| Canonical.TruncationKeepsEnds | src/chrys/foundation/tool_execution_stamp.py:161-168 | What is left is a prefix, the marker and a suffix, the prefix at most one longer |

## Left out

- Exchanges: the accessors are modelled by the views they compute; Python's `str` on a non-string id and `str.isalnum`
  are function parameters, so everything holds for any such functions.
- Agreement.AccessorsAgree: requires the informational attribute to be a scalar; `annotations`, `author_name`,
  `message_id` and `raw_representation`, which no walk reads, are not part of the serialized views.
- ErrorLocations.ResolveErrorLocation: the rendering of the winning path (`_format_argument_location`) and the texts of
  the messages; weights are doubled to integers, and `heapq` is used by its contract (a least entry comes first).
- LocationPaths.GreedySpells: locations read by guessing, as a title where there is no real choice or a selection behind a
  marker that hides the schema; those have the bounds of `LocationSearch` alone.
- ErrorCap.CappedValidationErrors: Python's `1 == True == 1.0` on location parts as grouping keys.
- Policies.Classify: Pydantic itself; compiled schemas and decorators enter as flags of a class and as the facts about
  the root, reasons are kept without their text, and the fallback policy after an unexpected exception is not modelled.
- Classes: annotations are trees over class names; the identity of annotation objects matters to the code only to stop
  recursion, which the model does on the class names of typed dictionaries.
- RoundTrip.RestoreInverts: restoration is modelled on values, not on dumps shared with other holders; dictionary keys
  are strings; the members of sets are atoms; a field a dump leaves out at run time is one with an `exclude_if`.
- Restoration.RestoreFull: the `KeyError` of a hand-built policy that approves a class without recording its keys.
- Assembly.Response.ProcessUpdate: response metadata where the last update wins (ids, timestamps, model, finish reason,
  continuation token, additional properties), contents given as dictionaries, and the state after it raised.
- Assembly.Response.Finalize: the coalescing of code interpreter contents, which runs after the two passes modelled here
  on the same lists.
- ResponseStreams.Chain: the streams of a chain are rows of one sequence, level 0 innermost; awaits are calls, so
  cancellation and pull context managers are not modelled, and finalizers and hooks do not raise.
- ResponseStreams.Chain.CloseBetween: closing an inner stream directly while its outer stream stays open.
- StreamFlow.EveryFilterOnce: updates record what was applied to them instead of being transformed; a hook that replaces
  an update keeps its record.
- Identity: `TypeError` for objects without weak reference support, and `__len__` while callbacks are pending.
- Retry.Run: the run is a list of rounds giving what the callbacks answer; error texts, logging and `after_restore` are
  not events, and compressed blocks are only appended during an attempt.
- Canonical.SameText: mapping keys are scalars; models, dataclasses and typed leaves enter as their dumps, and the JSON
  quoting of strings is a function parameter. The digest of the text is not modelled.
- The user interface, the installer, translation scripts, profiling, the result ceiling, and agent run preparation.
