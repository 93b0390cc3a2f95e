# OTMP, modelled and proved

OTMP keeps the metadata of a table as a SQLite image. A commit rewrites only the pages it
changed: they go into packs, an immutable 128-way page map is updated by path copying, and one
compare-and-swap on `_otmp/HEAD` publishes the result. This project models that design and the
checks around it, and proves what they are for.

The proofs rest on these hypotheses, which appear as `requires` clauses and never as axioms:
digests do not collide (`CollisionFree`, `PagesCollisionFree`), and encoded nodes of at most
128 entries that name only content-addressed objects fit the size limit (`CapacityFits`,
`IndexFits`; `PageMapCodec.FullNodesFit` and `CheckpointCodec.FullNodesFit` show it of the
stored forms with names of the length written).

## Structure

| part | modules |
|---|---|
| page map and copy-on-write image | Objects, PageMapTree, PageMapView, PageMapFill, PageMapClosure, PageMapSharing, PageMapReader, PagePacks, RootGrowth, Persist, Resolve, ImagePages, Overlay, Generations, Sessions, DeepMaps |
| checkpoint hash tree | CheckpointIndex |
| publication protocol | Publication (the step system), Publisher (the loops that drive it), PublishedImages (its HEADs and their images), PublicationEffort (what it takes before a call gives up) |
| footer cache | FooterCache (the accounts), FooterTurns (who waits for whom) |
| SQLite page roles | PageRoles, SchemaRecords, BtreePages |
| stored forms | Encoding, Cbor, Utf8, Documents, StoredReferences, PageMapCodec, CheckpointCodec, ScalarCodec, PagePackCodec, KeyOrder, OrderedForms |
| tables and schemas | Membership, SchemaRows |
| reading data files | SchemaAdapter, AdapterBinding, ThriftBounds |

The main results, each over all inputs or all runs:

1. `Sessions.CommitAll`: whatever runs of page writes and truncates are committed one after the
   other over any generation that resolves, the strict reader resolves every generation, old ones
   included, to exactly the bytes its session left; only a page map of more than 64 levels is
   refused, and the writer never makes one of its own accord.
2. `Publication.HistoryIsLinear`, `KeyCommitsOnce`, `LedgerExact`, `OkIsRecorded`,
   `DefiniteFailure`, `CommittedIsStored`, `OneFounder`: safety of publication under every
   interleaving, lost response and late write; `PublicationEffort.FailsOnlyOvertaken` and
   `DoubtsOnlyLost` say what it takes before a call gives up; `Publisher.Table.Publish` shows that the loops
   the writers run stay inside that step system and end, and `PublishedImages.HeadsStayResolved`
   that in every state each HEAD of the history resolves to its image.
3. `PageMapView.UpdateRefinesMap`, `PageMapFill.HeightAtMostTen`, `PageMapSharing.UntouchedReused`,
   `Persist.PersistClosure`: the page map is a map, stays shallow, shares what it did not touch,
   and refers to nothing that is neither old nor published.
4. `FooterCache.Cache.TryReserve` and `FooterTurns.NoCircularWait`: the byte budget is conserved,
   and nobody waits for somebody who waits.
5. `PageRoles.RunsKeepForest`, `ChainExact`, `ChainsApart`, `VisitCharge`: page roles stay a
   forest, overflow chains end exactly where their record ends and share no page;
   `BtreePages.PassesExactly`: accepted are exactly the bytes of b-tree pages with admissible
   mentions.
6. `SchemaAdapter.BatchProjects` and `AdapterBinding.FilesRead`, `Membership.AppendKeepsValid`, `SchemaRows.ValidateSchema`,
   `ThriftBounds.AcceptsExactly`, `CheckpointIndex.Build`, the bijections of the codecs and the
   order of their map keys (`OrderedForms`).

Where the code differs from what one would expect of it, the model follows the code:

- `initialize` can be told `AlreadyExists` although its own HEAD founded the table: its response
  is lost, another writer commits on top, and the reconciling read sees a HEAD that is not its
  own (otmp/src/runtime.rs:623). `Publication.FounderMisinformed` gives the run;
  `Publication.InitReadAnswer` says exactly when the answer is right.
- A stored checkpoint-index node has the keys of all its maps in the order of their encodings,
  as section 4.2.1 of RFC 8949 asks, exactly when it is a leaf (`OrderedForms.CheckpointsOrdered`;
  `OutOfOrder` gives a node): the map of a child is written with `page_count` before `first_page`
  (otmp-protocol/src/checkpoint_index.rs:158-164). Page-map nodes, scalars and partition tuples
  are always in order. Encoding stays deterministic and injective regardless.
- Identifier rows are read by ordinal but their ordinals are not checked for gaps
  (otmp/src/image.rs:840-858). Accepted tables are the written ones exactly when the last ordinal
  is one less than the number of rows (`SchemaRows.TablesExactly`).
- A failed append deletes its staged files before publication, but not when the second pin finds
  the key recorded for another intent (otmp/src/runtime.rs:855-860):
  `PublicationEffort.ConflictLeavesFiles`.
- The level of a page map is not checked before it is published, while the reader refuses more
  than 64 levels (otmp/src/physical.rs:149-168). A parent that another writer left 64 levels deep
  and full along its right spine resolves, takes one page more, and the generation committed
  then is refused (`DeepMaps.CommitTooDeep`).
- The loop that reduces two roots of a page map to one ends if and only if in some round the pair
  fits into one node (`RootGrowth.EndsExactly`); pairs of the names actually written always do.

## Model

| member | source | states |
|---|---|---|
| `PageMapTree.UpdateShape` | otmp/src/physical.rs:480-518 | updating a well-formed tree gives a forest of the same level, ordered and within capacity, that flattens to the old entries cut at eof and overridden by the changes |
| `PageMapTree.LeafNodesShape` | otmp/src/physical.rs:426-448 | whatever a run of sorted entries is split into, its leaves hold exactly those entries in that order |
| `PageMapTree.InternalNodesShape` | otmp/src/physical.rs:450-478 | grouping a forest one level up keeps its entries and their order |
| `PageMapTree.FlattenSorted` | otmp/src/physical.rs:382-395 | a well-formed tree flattens to valid entries in strict page order between its minimum and maximum |
| `PageMapView.UpdateRefinesMap` | otmp/src/physical.rs:480-518 | `update` is map update: the mapping afterwards is the old one restricted to eof and overridden by the changes |
| `PageMapSharing.UntouchedReused` | otmp/src/physical.rs:485-495 | any subtree, at any depth, that receives no change and lies at or below eof is in the result as the very same value |
| `PageMapFill.UpdateFill` | otmp/src/physical.rs:480-518 | updates never fail on size, and every node off the right spine keeps at least 64 entries despite pruning and without merging |
| `PageMapFill.InternalNodesFill` | otmp/src/physical.rs:450-478 | midpoint splits leave every new node at least half full when there is enough to fill one |
| `PageMapFill.HeightBound` | otmp/src/physical.rs:605-608 | 64 to the power of the height is at most the page count |
| `PageMapFill.HeightAtMostTen` | otmp/src/physical.rs:149-168 | with 64-bit page numbers the height is at most 10, so the reader's cap of 64 levels never refuses a written tree |
| `PageMapClosure.UpdateClosed` | otmp/src/physical.rs:480-518 | an updated tree reaches only what the old tree reached, the packs of the changes and its own new nodes |
| `PageMapClosure.FlattenReach` | otmp/src/physical.rs:520-546 | every pack that a mapped page names is among the references reached |
| `PageMapClosure.BackedStored` | otmp/src/physical.rs:520-546 | publishing the artifacts a tree reaches next to an older store puts the whole tree in the store |
| `PageMapReader.LoadComplete` | otmp/src/physical.rs:149-211 | the strict reader accepts every stored well-formed tree within the declared bounds and returns it unchanged |
| `PageMapReader.LoadSound` | otmp/src/physical.rs:149-211 | whatever the strict reader accepts is a stored well-formed tree of the declared level, within its bounds, with no node twice |
| `PageMapReader.NamesDisjoint` | otmp/src/physical.rs:149-211 | stored siblings share no node, so the repeat check never refuses a tree that was written |
| `RootGrowth.GrowthShrinks` | otmp/src/physical.rs:601-604 | each added level has fewer roots, so the loop ends |
| `RootGrowth.OversizedPairStalls` | otmp/src/physical.rs:601-604 | a round with a pair that does not fit makes no progress: two roots come back one level up |
| `RootGrowth.EndsExactly` | otmp/src/physical.rs:601-604 | from two roots the loop ends if and only if the pair of some round fits into one node |
| `RootGrowth.GrowShape` | otmp/src/physical.rs:596-608 | adding levels keeps the entries and ends with at most one root |
| `RootGrowth.CollapseKeeps` | otmp/src/physical.rs:605-608 | dropping single-child roots keeps the entries and ends at a leaf or a root of at least two children |
| `PagePacks.PackRoundTrip` | otmp/src/physical.rs:318-363 | every page of a written pack is read back, wherever the pack is stored |
| `PagePacks.WritePacksReadBack` | otmp/src/physical.rs:561-595 | every store that holds the written packs gives back every page written |
| `PagePacks.WritePacksUsed` | otmp/src/physical.rs:561-595 | no pack is written that holds no mapped page |
| `PagePacks.CompressedReadBack` | otmp/src/physical.rs:353-363 | a page whose stored bytes inflate to it, with its digest, is read back |
| `PagePacks.ReadPageSound` | otmp/src/physical.rs:318-363 | whatever page is read, stored or compressed, has the declared size and digest |
| `Persist.ReduceRoots` | otmp/src/physical.rs:601-604 | the root-growing loop computes the specified growth |
| `Persist.DropSingleRoots` | otmp/src/physical.rs:605-608 | the loop that drops single-child roots computes the specified collapse |
| `Persist.SumLengths` | otmp/src/physical.rs:609-617 | the reachable length is the sum over distinct references in any order, or an overflow error |
| `Persist.PersistFrozen` | otmp/src/physical.rs:554-632 | the step-by-step `persist` meets its specification, errors included |
| `Persist.PersistContent` | otmp/src/physical.rs:554-632 | the new root maps exactly what the parent mapped, cut at eof and overridden by the changed pages; no root means no such entry |
| `Persist.PersistClosure` | otmp/src/physical.rs:520-632 | what the new root reaches was reachable before or is a returned artifact; every returned artifact is reachable; with the artifacts published the tree is stored |
| `CheckpointIndex.VerifySound` | otmp/src/physical.rs:55-121 | an accepted index graph lists every page of its interval exactly once, in order, each with the digest of its own bytes |
| `CheckpointIndex.VerifyComplete` | otmp/src/physical.rs:55-121 | every stored tree that tiles its interval is accepted for the bytes its hashes digest |
| `CheckpointIndex.IndexAuthenticates` | otmp/src/physical.rs:55-147 | one index root accepts at most one checkpoint of its length |
| `CheckpointIndex.OneCheckpoint` | otmp/src/physical.rs:55-147 | an index is accepted only for the checkpoint it names, by digest and length, and only for those bytes |
| `CheckpointIndex.BuildLeaves` | otmp/src/checkpoint_index.rs:56-65 | the leaf loop tiles all pages with leaves of at most 128 hashes |
| `CheckpointIndex.BuildLevel` | otmp/src/checkpoint_index.rs:66-88 | one pass over a level yields parents that tile the same pages |
| `CheckpointIndex.Build` | otmp/src/checkpoint_index.rs:35-110 | `build` ends, succeeds exactly for nonempty page-aligned bytes that are the checkpoint, and the verifier accepts its tree for those bytes in every store that has it |
| `ImagePages.SuppliedExact` | otmp/src/physical.rs:296-302 | counting the entries beyond the checkpoint is checking that each such page is mapped |
| `Resolve.AssembleInPlace` | otmp/src/physical.rs:303-370 | filling the buffer page by page gives the image in which a byte comes from its mapped page, else from the checkpoint, else is zero; it fails when a page does not read |
| `Resolve.ResolveGeneration` | otmp/src/physical.rs:214-379 | the imperative reader meets its specification, errors included |
| `Overlay.Overlay.ReadAt` | otmp/src/cow_writer.rs:41-59 | a read returns the flat image's bytes, zeros past its end, and how many bytes were there |
| `Overlay.Overlay.WritePage` | otmp/src/cow_writer.rs:91-117 | a page write replaces that page of the flat image byte by byte, zero-filling up to it, and keeps every other byte; a page is rejected exactly when its number or size is wrong, which changes nothing and fails the session |
| `Overlay.Overlay.WritePages` | otmp/src/cow_writer.rs:118-147 | consecutive writes are the single writes in turn, up to the first rejected one |
| `Overlay.Overlay.SetLength` | otmp/src/cow_writer.rs:196-212 | truncation to any length, aligned or not: the image has that length, keeps its bytes below it and is zero beyond its old end |
| `Overlay.RunByte` | otmp/src/cow_writer.rs:91-212 | each byte a session leaves is that of the last write covering it, zero if a truncate below it came later, and the parent's where nothing touched it |
| `Overlay.RunLength` | otmp/src/cow_writer.rs:91-212 | a session leaves an image as long as its last truncate or its parent, extended to the end of the furthest page written since |
| `Overlay.Overlay.Freeze` | otmp/src/cow_writer.rs:284-319 | `changed` is exactly the pages that differ from or are absent in the parent, although only touched pages are compared |
| `Overlay.Materialize` | otmp/src/cow_writer.rs:230-244 | materializing a frozen image lays its pages over the parent's bytes |
| `Overlay.DifferenceMaterializes` | otmp/src/cow_writer.rs:230-319 | freezing and materializing gives the flat image back |
| `Generations.MappedChanges` | otmp/src/physical.rs:561-595 | the mapping of a session's changed pages has exactly the differing pages, each read back as its new bytes |
| `Generations.IncrementalResolves` | otmp/src/physical.rs:214-379 | over any parent that resolves, with the persisted artifacts published next to the old store, the strict reader returns the session's final bytes if the map has at most 64 levels and an error otherwise |
| `Generations.CheckpointResolves` | otmp/src/runtime.rs:1366-1387 | a fresh checkpoint resolves to its own bytes |
| `Generations.DraftSucceeds` | otmp/src/physical.rs:554-632 | over a writer's own parent `persist` fails only when the reachable lengths overflow 64 bits, and the new map again is half full off its spine and at most 10 levels high |
| `Sessions.ObjectStore.Put` | otmp/src/runtime.rs:1791-1811 | an immutable put creates the object or confirms the same one, and never overwrites |
| `Sessions.ObjectStore.PutAll` | otmp/src/runtime.rs:987-996 | publishing artifacts only adds them, and succeeds exactly when no name holds something else |
| `Sessions.RunSession` | otmp/src/cow_writer.rs:246-320 | a session succeeds exactly when every write is accepted and it ends page-aligned, and then freezes the difference of its final bytes, which `Overlay.RunByte` gives byte by byte |
| `Sessions.FinishCandidate` | otmp/src/runtime.rs:1357-1399 | the incremental form is chosen exactly while it reaches fewer bytes than the image; either candidate resolves to the session's bytes, up to the reader's level cap, and it fails exactly when its draft does |
| `Sessions.Commit` | otmp/src/runtime.rs:1357-1399 | one session end to end over any parent: success exactly when the parent resolves, the session is sound and the draft persists; then the new generation resolves to the session's bytes exactly when its map has at most 64 levels, which over the writer's own parents it has, and nothing stored has changed |
| `Sessions.CommitAll` | otmp/src/physical.rs:214-379 | after any number of sessions from any generation that resolves, every generation of the run still resolves to the bytes its session left; the run ends early only at a session that cannot be committed or, not from the writer's own generations, at one whose map is too deep |
| `DeepMaps.DeepSession` | otmp/src/physical.rs:480-608 | over a parent 64 levels deep and full along its right spine, the session that writes the next page can be committed, and whatever is published for it is too deep |
| `DeepMaps.DeepParent` | otmp/src/physical.rs:214-379 | there is such a parent, and it resolves |
| `DeepMaps.CommitTooDeep` | otmp/src/runtime.rs:1357-1399 | committing over it succeeds with a generation the reader refuses, while the parent still resolves |
| `DeepMaps.ReachCount` | otmp/src/physical.rs:520-546 | a tree reaches at most its level plus two references for every entry |
| `Sessions.Genesis` | otmp/src/image.rs:1621-1642 | the first generation resolves to the genesis image and can be written over |
| `Publication.HistoryIsLinear` | otmp/src/runtime.rs:1440-1463 | in every interleaving HEAD runs through versions and revisions 0, 1, 2, ..., each the successor of the one it replaced, and never repeats |
| `Publication.NoStaleWrite` | otmp/src/storage.rs:602-645 | a write, late ones included, takes effect only over the current HEAD it was drawn up against |
| `Publication.KeyCommitsOnce` | otmp/src/runtime.rs:1049-1070 | no two versions carry the same idempotency key |
| `Publication.LedgerExact` | otmp/src/runtime.rs:1972-1989 | a version's ledger holds exactly the keys committed up to it, with the intent and result of the committing call |
| `Publication.OkIsRecorded` | otmp/src/runtime.rs:957-963 | an Ok result is the one committed for that key and intent, also when another call committed it |
| `Publication.DoneIsFinal` | otmp/src/runtime.rs:940-1072 | a call that has returned takes no further step |
| `Publication.DefiniteFailure` | otmp/src/runtime.rs:1000-1071 | after any error but the indeterminate one, no candidate of the call is or ever becomes part of HEAD history, whatever writes still land |
| `Publication.UnrecordedSettles` | otmp/src/runtime.rs:1016-1037 | a HEAD whose ledger lacks the key, or has it for another intent, shows that the candidate did not commit |
| `Publication.CommittedIsStored` | otmp/src/runtime.rs:821-878 | the objects a committed HEAD leads to are stored and stay stored, through crashes between puts and clean-ups; what they are is the subject of PublishedImages |
| `PublishedImages.ResolveLocal` | otmp/src/physical.rs:214-379 | what a generation resolves to depends only on the checkpoint, the index nodes, and the map nodes and packs it refers to |
| `PublishedImages.IncrementalRefers` | otmp/src/physical.rs:520-632 | an incremental candidate refers only to what its parent refers to and to its own objects |
| `PublishedImages.CheckpointRefers` | otmp/src/runtime.rs:1366-1387 | a checkpoint candidate refers only to its own objects |
| `PublishedImages.IncrementalMakes` | otmp/src/runtime.rs:1388-1399 | so the writer's candidates may lead to just that, as the protocol allows, and resolve by it |
| `PublishedImages.HeadsResolve` | otmp/src/runtime.rs:987-1008 | in every reachable state every HEAD of the history resolves to its image by the objects it leads to |
| `PublishedImages.HeadsStayResolved` | otmp/src/runtime.rs:821-1072 | and it does so from the store of every later state, whatever was under way, lost, crashed or cleaned up |
| `Publication.ClosureSurvives` | otmp/src/runtime.rs:1783-1789 | clean-up takes nothing that a HEAD, installed or only drawn up, leads to |
| `Publication.HistoryGrows` | otmp/src/storage.rs:602-645 | later histories extend earlier ones |
| `Publication.OneFounder` | otmp/src/runtime.rs:602-637 | at most one `initialize` returns Ok, and its HEAD is the first |
| `Publication.InitFailureIsDefinite` | otmp/src/runtime.rs:602-637 | an `initialize` that fails without a lost response has not founded the table and never will |
| `Publication.InitReadAnswer` | otmp/src/runtime.rs:618-636 | what the reconciling read concludes: Ok exactly when its HEAD is the only one, and wrongly AlreadyExists exactly when others committed on top of it |
| `Publication.FounderMisinformed` | otmp/src/runtime.rs:618-636 | a run in which the founder of the table is told that it already existed |
| `PublicationEffort.FailsOnlyOvertaken` | otmp/src/runtime.rs:1000-1071 | a call none of whose operations fails, and whose key nobody uses for another intent, fails for good only after others have installed `maxRebases + 1` HEADs since it was ready to publish |
| `PublicationEffort.DoubtsOnlyLost` | otmp/src/runtime.rs:1009-1046 | a call ends in doubt only after losing the answers to `maxReconciliations + 1` writes of one candidate, or after losing one and failing to pin the winner |
| `PublicationEffort.FounderDoubtsOnlyLost` | otmp/src/runtime.rs:602-637 | `initialize` ends in doubt only after losing `maxReconciliations + 1` answers, or after losing one and failing to read a HEAD it was told of |
| `PublicationEffort.ConflictLeavesFiles` | otmp/src/runtime.rs:846-860 | a call whose key turns out at the second pin to be recorded for another intent fails and leaves all its staged files |
| `PublicationEffort.RepeatsAreAnswered` | otmp/src/runtime.rs:821-831 | a call whose key is recorded when it begins is answered from the ledger for good, without staging or drawing up anything |
| `PublicationEffort.LostWritesLand` | otmp/src/runtime.rs:1012-1046 | a write whose request was delayed can take effect in every later state in which HEAD is the one it expects |
| `Publisher.Table.ReplaceHead` | otmp/src/storage.rs:602-645 | HEAD is replaced exactly when it is the expected one and the request arrived; the answer may be lost before or after |
| `Publisher.Table.PutAll` | otmp/src/runtime.rs:969-997 | either all immutable objects are put or the call ends with a definite failure |
| `Publisher.Table.Reconcile` | otmp/src/runtime.rs:1014-1046 | after a lost answer the call ends, retries within the policy, which it does only over the HEAD it expected, or rebases |
| `Publisher.Table.Attempt` | otmp/src/runtime.rs:1000-1048 | one candidate is tried until it is settled, lost for good or overtaken, which ends |
| `Publisher.Table.Rebase` | otmp/src/runtime.rs:1049-1070 | the winner is pinned and either answers the call or becomes its parent; where the pin succeeds and does not answer, the call fails only when its rebases are used up |
| `Publisher.Table.Publish` | otmp/src/runtime.rs:940-1072 | the whole loop ends for any behaviour of the others and the store; success names a committed version with the call's key and intent, and a definite failure has left no version; where every operation succeeds, it takes `maxRebases + 1` HEADs of others to make the call fail and `maxReconciliations + 1` lost answers to leave it in doubt |
| `FooterCache.Cache.TryReserve` | otmp-datafusion/src/footer.rs:226-276 | bytes are granted exactly when they fit after evicting oldest entries, no earlier than needed; otherwise pressure is reported exactly when somebody else can release |
| `FooterCache.Cache.EvictOldest` | otmp-datafusion/src/footer.rs:226-276 | eviction drops the oldest entry; a leased one stays charged |
| `FooterCache.Cache.FinishTransient` | otmp-datafusion/src/footer.rs:56-70 | a finished decode keeps its bytes charged, now to an entry |
| `FooterCache.Cache.MarkKey` | otmp-datafusion/src/footer.rs:71-76 | a key reservation moves between the phase counters and nothing else changes |
| `FooterCache.Cache.Shrink` | otmp-datafusion/src/footer.rs:77-81 | shrinking gives back exactly the difference |
| `FooterCache.Cache.Drop` | otmp-datafusion/src/footer.rs:48-54 | dropping a reservation gives back its bytes and its place in its phase counter |
| `FooterCache.Cache.Get` | otmp-datafusion/src/footer.rs:315-343 | a hit takes a lease and, for a preflight reader without one, announces itself; another identity under the URI is an error |
| `FooterCache.Cache.Insert` | otmp-datafusion/src/footer.rs:344-374 | a footer is cached once under its reservation; a slower load shares the entry and its reservation goes; a short reservation or another identity is refused without a trace |
| `FooterCache.Cache.Release` | otmp-datafusion/src/footer.rs:84-95 | the last lease of an entry the cache has dropped frees its bytes, and only that |
| `FooterCache.HeldStaysCharged` | otmp-datafusion/src/footer.rs:315-374 | over any run of calls an entry's leases are the times it was handed out less the times it was given back, and while that is positive its bytes stay charged |
| `FooterCache.WithinLimit` | otmp-datafusion/src/footer.rs:28-54 | in every valid state each live reservation is within the bytes used, and those within the limit |
| `FooterCache.ConflictsExactly` | otmp-datafusion/src/footer.rs:214-225 | looking in the identity index finds a conflict exactly when another identity is cached under the URI |
| `FooterTurns.OneUnsizedLoad` | otmp-datafusion/src/footer.rs:491-618 | in every interleaving at most one registered load lacks its admitted payload, and it has the registration turn |
| `FooterTurns.NoCircularWait` | otmp-datafusion/src/footer.rs:226-314 | whoever is told to wait for bytes waits for a reservation of somebody else who will release it without waiting for anything |
| `FooterTurns.WaitsExactly` | otmp-datafusion/src/footer.rs:226-283 | a caller whose bytes do not fit waits exactly when somebody else holds a reservation it may wait for; otherwise it is refused |
| `FooterTurns.TurnExactly` | otmp-datafusion/src/footer.rs:566-615 | in every run a load has the registration turn exactly until it has its payload with bytes to spare for the next one or is dropped, a reader exactly while it looks the footer up and asks for the key |
| `FooterTurns.AloneFails` | otmp-datafusion/src/footer.rs:277-314 | a corollary: a caller outside whose ownership nothing can be released is refused instead of waiting |
| `FooterTurns.ReaderServed` | otmp-datafusion/src/footer.rs:491-724 | a run in which a load is registered, sized and decoded, its reader served, and an option decoded after waiting for another reader's hit; in the end only what is cached is charged |
| `FooterTurns.ReaderFails` | otmp-datafusion/src/footer.rs:491-724 | a run in which a load waits for its payload behind another reader's hit and is refused, and its reader fails; in the end nothing is charged |
| `FooterTurns.InvLeads` | otmp-datafusion/src/footer.rs:491-724 | loads, readers, turn and reservations stay consistent over every run, cancellations included |
| `PageRoles.VisitForest` | otmp/src/reader_engine_pages.rs:73-281 | validating any bytes as any page keeps the roles a forest under page 1 |
| `PageRoles.VisitCharge` | otmp/src/reader_engine.rs:151-167 | one page adds at most two roles a cell and one more, an overflow page at most one, so the roles never exceed the bytes reserved for them |
| `PageRoles.LeadsToRoot` | otmp/src/reader_engine_pages.rs:48-70 | parents and owners lead from every registered page to page 1 |
| `PageRoles.NoCycle` | otmp/src/reader_engine_pages.rs:48-70 | no page is above itself |
| `PageRoles.RunsKeepForest` | otmp/src/reader_engine_pages.rs:73-281 | over any calls on one image, failed ones included, the forest stays and accepted pages stay accepted |
| `PageRoles.RolesOnlyGrow` | otmp/src/reader_engine_pages.rs:48-70 | a page keeps the first role it is given |
| `PageRoles.ChainExact` | otmp/src/reader_engine_pages.rs:81-116 | a fully validated overflow chain has exactly as many pages as its bytes fill, each in the role of its place, and ends in zero |
| `PageRoles.ChainDistinct` | otmp/src/reader_engine_pages.rs:81-116 | a validated chain visits no page twice |
| `PageRoles.ChainsApart` | otmp/src/reader_engine_pages.rs:48-116 | the validated chains of two records share no page |
| `PageRoles.LocalSplit` | otmp/src/reader_engine_pages.rs:296-309 | the local part of a record is the one length the format allows: all of a payload that fits, else the length within bounds that leaves full overflow pages, else the least |
| `PageRoles.DecodeVarint` | otmp/src/reader_engine_pages.rs:283-295 | the loop reads the specified integer, or fails on a truncated one |
| `SchemaRecords.VarintInverse` | otmp/src/reader_engine_pages.rs:283-295 | every 64-bit integer in SQLite's shortest form, of one to nine bytes, is read back whatever follows it |
| `PageRoles.ParseSchemaRoot` | otmp/src/reader_engine_pages.rs:350-414 | the loops over serial types and values compute the specified root page, errors included |
| `SchemaRecords.VarintExactly` | otmp/src/reader_engine_pages.rs:283-295 | an integer is read exactly from the bytes that spell it, in shortest form or not |
| `SchemaRecords.SchemaRootExactly` | otmp/src/reader_engine_pages.rs:350-414 | the root page found in a record, kept whole or in part, is the value of its fourth column, exactly when that is null or a number that is not negative; in anything else none is found |
| `PageRoles.PageValidator.Add` | otmp/src/reader_engine_pages.rs:48-70 | a mention is admitted exactly when the page is in the image and either new and within the budget or already has that role |
| `PageRoles.PageValidator.Cells` | otmp/src/reader_engine_pages.rs:174-278 | the cell loop registers the cells' mentions in order up to the first flaw |
| `PageRoles.PageValidator.Validate` | otmp/src/reader_engine_pages.rs:73-281 | the validator registers what the page mentions up to its first flaw and accepts it exactly when there is none; what pages mention is the subject of BtreePages; the count returned is that of the new roles |
| `BtreePages.PagesExactly` | otmp/src/reader_engine_pages.rs:126-281 | the bytes found flawless are exactly those that hold a b-tree page of section 1.6, in any layout, and the mentions found are its right child, then cell by cell its child, schema root and first overflow page |
| `BtreePages.PassesExactly` | otmp/src/reader_engine_pages.rs:73-281 | bytes are accepted as a b-tree page exactly when they hold one whose mentions are in the image, give no page two roles and fit the budget |
| `BtreePages.WrittenPagesPass` | otmp/src/reader_engine_pages.rs:73-281 | then just these roles are added to the old ones |
| `BtreePages.AdmittedExactly` | otmp/src/reader_engine_pages.rs:48-70 | registering mentions one by one succeeds exactly when they are admissible together |
| `BtreePages.WriteReads` | otmp/src/reader_engine_pages.rs:126-281 | whatever page is written to 4096 bytes, the check finds on it just what it mentions |
| `ThriftBounds.Complete` | otmp-datafusion/src/footer_bounds.rs:59-117 | every well-formed value is read to its end |
| `ThriftBounds.Sound` | otmp-datafusion/src/footer_bounds.rs:59-117 | whatever is read to its end is the encoding of a well-formed value |
| `ThriftBounds.AcceptsExactly` | otmp-datafusion/src/footer_bounds.rs:10-117 | accepted are exactly the encodings of one struct of the grammar within depth 64 |
| `ThriftBounds.IntegerWritten` | otmp-datafusion/src/footer_bounds.rs:37-50 | the value read from an integer written least significant group first is the integer, for all of 64 bits |
| `ThriftBounds.Value` | otmp-datafusion/src/footer_bounds.rs:59-117 | the cursor never leaves the bytes, and at most one value more is entered than there are bytes, whatever counts are declared |
| `ThriftBounds.Input.ReadInteger` | otmp-datafusion/src/footer_bounds.rs:37-50 | the integer loop stops where the specified integer ends, within 64 bits |
| `ThriftBounds.Input.ReadValue` | otmp-datafusion/src/footer_bounds.rs:59-117 | the cursor-driven reader meets its specification, calls counted |
| `ThriftBounds.Validate` | otmp-datafusion/src/footer_bounds.rs:10-17 | a footer passes exactly when it is one struct of the grammar, after at most length + 1 values |
| `SchemaAdapter.Projects` | otmp-datafusion/src/schemaadapter.rs:318-397 | row i of a mapped column is the projection by field ID of row i of its input, through structs, lists and maps, with defaults, nulls and offsets |
| `SchemaAdapter.SlotProjects` | otmp-datafusion/src/schemaadapter.rs:171-269 | each query field gets the value of its ID, or its default when the file has none; which fields are bound is the subject of AdapterBinding |
| `SchemaAdapter.BatchProjects` | otmp-datafusion/src/schemaadapter.rs:36-96 | the same for whole batches, as a corollary: row by row, what their rows mean under the query's schema |
| `AdapterBinding.CompatibleExactly` | otmp-datafusion/src/schemaadapter.rs:288-313 | the conversions made are exactly those to the types of a schema that keep every value, in numbers no narrower |
| `AdapterBinding.BoundLosesNothing` | otmp-datafusion/src/schemaadapter.rs:254-265 | a primitive that is bound, at whatever depth, keeps every value the file can hold |
| `AdapterBinding.BindExactly` | otmp-datafusion/src/schemaadapter.rs:171-269 | a field is bound exactly when the file holds it in one unambiguous column of a fitting shape, or lacks it where neither schema requires it and its default converts |
| `AdapterBinding.PartExactly` | otmp-datafusion/src/schemaadapter.rs:271-287 | an element, key or value is bound exactly when both schemas and the file agree on its ID and its type fits |
| `AdapterBinding.FilesRead` | otmp-datafusion/src/schemaadapter.rs:36-96 | a file is read under a query schema exactly when every query field is held or may be lacking in a shape that fits, and each of its batches is then mapped |
| `AdapterBinding.BatchConforms` | otmp-datafusion/src/schemaadapter.rs:318-397 | every batch read has the query's types, as many rows, and parts of matching lengths at every depth |
| `SchemaAdapter.RunShape` | otmp-datafusion/src/schemaadapter.rs:355-397 | the items of a list row are the values between its offsets, each in its place |
| `SchemaAdapter.PositionUnique` | otmp-datafusion/src/schemaadapter.rs:132-150 | a column is found exactly when it is the only candidate by ID or, without an ID, by name |
| `SchemaAdapter.FindPosition` | otmp-datafusion/src/schemaadapter.rs:132-150 | the two collecting loops find that column or refuse an ambiguous one |
| `SchemaAdapter.ValidateIds` | otmp-datafusion/src/schemaadapter.rs:114-131 | a file passes exactly when the IDs it declares, nested ones included, parse and are distinct |
| `Cbor.HeadReads` | otmp-protocol/src/cbor.rs:262-303 | a shortest head is read back |
| `Cbor.HeadSound` | otmp-protocol/src/cbor.rs:262-303 | only shortest heads are accepted |
| `Cbor.TokensExactly` | otmp-protocol/src/cbor.rs:225-334 | a string of items has one encoding, and bytes have at most one reading |
| `Utf8.Utf8Exactly` | otmp-protocol/src/cbor.rs:225-260 | accepted as text are exactly the encodings of sequences of scalar values |
| `StoredReferences.UriExactly` | otmp-protocol/src/value.rs:343-362 | relative URIs are exactly one or more named parts that do not climb, with slashes between them and no backslash or colon |
| `Cbor.Output.Major` | otmp-protocol/src/cbor.rs:396-425 | the shortest head is appended |
| `Cbor.Decoder.Head` | otmp-protocol/src/cbor.rs:262-303 | the cursor passes exactly over a shortest head, within bounds |
| `Cbor.Decoder.Next` | otmp-protocol/src/cbor.rs:225-260 | the next item is read, or nothing that could follow is an item |
| `KeyOrder.HeadsLess` | otmp-protocol/src/cbor.rs:396-425 | numeric order is the order of the encoded heads, across all widths |
| `KeyOrder.OrderOf` | otmp-protocol/src/cbor.rs:124-334 | tokens are the parts of one item at most, so whether all map keys ascend is a property of the bytes |
| `OrderedForms.PageMapsOrdered` | otmp-protocol/src/page_map.rs:128-197 | in every stored page-map node all map keys ascend as encoded bytes |
| `OrderedForms.CheckpointsOrdered` | otmp-protocol/src/checkpoint_index.rs:133-176 | in a stored checkpoint-index node all map keys ascend if and only if it is a leaf |
| `OrderedForms.OutOfOrder` | otmp-protocol/src/checkpoint_index.rs:157-165 | a storable internal node whose bytes are out of order |
| `OrderedForms.TuplesOrdered` | otmp-protocol/src/cbor.rs:89-97 | in every stored partition tuple the field IDs ascend as encoded bytes |
| `OrderedForms.ScalarsOrdered` | otmp-protocol/src/cbor.rs:13-86 | a stored scalar is one item without maps |
| `PageMapCodec.Validate` | otmp-protocol/src/page_map.rs:86-125 | the running check accepts exactly increasing pages with nonempty references and payloads inside their packs |
| `PageMapCodec.EncodePageMap` | otmp-protocol/src/page_map.rs:138-197 | a node is encoded exactly when it is valid and within the size limit |
| `PageMapCodec.DecodePageMap` | otmp-protocol/src/page_map.rs:233-313 | bytes are accepted exactly when they are the stored form of a node, and give that node |
| `PageMapCodec.StoredOnce` | otmp-protocol/src/page_map.rs:138-197 | no two nodes have the same stored form |
| `PageMapCodec.FullNodesFit` | otmp-protocol/src/page_map.rs:5-7 | 128 entries with names of the length content addressing gives stay under the size limit |
| `CheckpointCodec.Validate` | otmp-protocol/src/checkpoint_index.rs:50-87 | the running check accepts exactly nodes whose children cover consecutive intervals of their declared pages |
| `CheckpointCodec.EncodeCheckpointIndex` | otmp-protocol/src/checkpoint_index.rs:133-176 | a node is encoded exactly when it is valid and within the size limit |
| `CheckpointCodec.DecodeCheckpointIndex` | otmp-protocol/src/checkpoint_index.rs:178-249 | bytes are accepted exactly when they are the stored form of a node, and give that node |
| `CheckpointCodec.StoredOnce` | otmp-protocol/src/checkpoint_index.rs:133-176 | no two nodes have the same stored form |
| `CheckpointCodec.FullNodesFit` | otmp-protocol/src/checkpoint_index.rs:4-14 | 128 children with names of the length content addressing gives stay under the size limit |
| `ScalarCodec.EncodeTypedScalar` | otmp-protocol/src/cbor.rs:13-86 | the stored form, with the one NaN |
| `ScalarCodec.DecodeTypedScalar` | otmp-protocol/src/cbor.rs:99-223 | bytes are accepted exactly when they are the stored form of a valid scalar, and give that scalar |
| `ScalarCodec.StoredSame` | otmp-protocol/src/cbor.rs:13-86 | two scalars have one stored form if and only if they are the same up to their NaN |
| `ScalarCodec.NansStored` | otmp-protocol/src/cbor.rs:350-364 | every NaN of a width, and nothing else, is stored as the canonical one of that width |
| `ScalarCodec.NanExactly` | otmp-protocol/src/cbor.rs:350-364 | what is taken for a NaN is exactly what has all exponent bits set and a fraction that is not zero |
| `ScalarCodec.MinimalExactly` | otmp-protocol/src/cbor.rs:337-344 | the decimals accepted are exactly the shortest two's complement forms of their numbers |
| `ScalarCodec.PrefixFree` | otmp-protocol/src/cbor.rs:134-223 | what follows a scalar never changes which scalar is read |
| `ScalarCodec.EncodePartitionTuple` | otmp-protocol/src/cbor.rs:89-97 | the stored form of a tuple, by increasing field ID |
| `ScalarCodec.DecodePartitionTuple` | otmp-protocol/src/cbor.rs:106-122 | bytes are accepted exactly when they are the stored form of a valid tuple, and give that tuple |
| `PagePackCodec.HeaderExactly` | otmp-protocol/src/page_pack.rs:44-79 | header fields and header bytes determine each other |
| `PagePackCodec.RecordExactly` | otmp-protocol/src/page_pack.rs:81-140 | an index record and its bytes determine each other |
| `PagePackCodec.SortedCheck` | otmp-protocol/src/page_pack.rs:81-140 | sorting ranges and looking at neighbours is checking that all are pairwise disjoint |
| `PagePackCodec.RegionsApart` | otmp-protocol/src/page_pack.rs:44-140 | no byte of an accepted pack belongs to two of its header, index and payloads, and none of these is empty or reaches outside |
| `PagePackCodec.DecodeHeader` | otmp-protocol/src/page_pack.rs:44-79 | a header is accepted exactly when it is that of a pack of this length |
| `PagePackCodec.DecodeIndexParts` | otmp-protocol/src/page_pack.rs:81-140 | header and index are accepted exactly when they are those of a valid pack: pages increase, payloads lie inside and overlap nowhere |
| `PagePackCodec.DecodePackIndex` | otmp-protocol/src/page_pack.rs:142-158 | the same for a whole object, index where the header says |
| `PagePackCodec.PackDecodes` | otmp-protocol/src/page_pack.rs:160-201 | an encoded pack is accepted with its own records |
| `PagePackCodec.PackPayloads` | otmp-protocol/src/page_pack.rs:160-201 | the payload of each record is the page encoded, with its digest |
| `PagePackCodec.EncodePagePack` | otmp-protocol/src/page_pack.rs:160-201 | the buffer filled in place is the pack, for exactly the page lists that can be packed |
| `Membership.WalkAncestry` | otmp/src/sql_writer.rs:32-63 | the walk ends for any tables and returns the chain of strictly decreasing sequence numbers, or refuses |
| `Membership.ChainDescends` | otmp/src/sql_writer.rs:32-63 | sequence numbers strictly decrease along an ancestry |
| `Membership.AncestryArrives` | otmp/src/sql_writer.rs:32-63 | in valid tables the walk from every branch and tag arrives |
| `Membership.GenesisValid` | otmp/src/image.rs:189-250 | genesis tables are valid |
| `Membership.AppendKeepsValid` | otmp/src/image.rs:271-413 | an append to any branch keeps sequence numbers 1 to the last, membership the union of what each branch's ancestry added, and every other branch's ancestry and files |
| `Membership.LiveOnce` | otmp/src/image.rs:271-413 | in valid tables a file is live at most once on a branch, added by one snapshot, with its sequence number |
| `Membership.Metadata.Apply` | otmp/src/image.rs:271-413 | row by row, either all rows of an append are added or none |
| `Membership.CountsMeanSequenced` | otmp/src/image.rs:673-699 | the three aggregates agree exactly when the sequence numbers are 1 to the last, each once |
| `Membership.ValidateMembership` | otmp/src/image.rs:600-644 | validation passes exactly when every branch has an ancestry and lists the files it added, and no tag lists any |
| `SchemaRows.FieldTable.InsertFields` | otmp/src/image.rs:1674-1726 | rows are inserted in order, each field before those below it, and exactly when no ID repeats |
| `SchemaRows.Siblings` | otmp/src/image.rs:974-987 | the rows under a parent are a list exactly when their ordinals are 0, 1, ..., each once |
| `SchemaRows.ValidateChildren` | otmp/src/image.rs:942-972 | the recursive check passes exactly when rows and types agree at every depth |
| `SchemaRows.RowsExactly` | otmp/src/image.rs:799-889 | contiguity, types and reachability hold exactly when the rows are those written for the schema the root rows describe |
| `SchemaRows.SchemaCheck.ValidateSiblings` | otmp-protocol/src/types.rs:139-207 | fields pass exactly when IDs are positive and distinct over all depths, names distinct among siblings, map keys required primitives and nesting at most 64; the eligible identifiers are those outside optional fields |
| `SchemaRows.ValidateIdentifiers` | otmp-protocol/src/types.rs:66-79 | identifier fields are distinct and eligible |
| `SchemaRows.ValidateSchema` | otmp/src/image.rs:799-872 | stored rows are accepted exactly when they are the rows of a valid schema, which is then unique; they are the written ones exactly if the identifier ordinals have no gap |
| `SchemaRows.WrittenAccepted` | otmp/src/image.rs:1644-1726 | what is written for a valid schema is accepted as that schema and no other, and has no gap |
| `SchemaRows.IdentifierRowsExactly` | otmp/src/image.rs:1657-1670 | identifier rows, by rising ordinal, are those written for what they list exactly when the last ordinal is one less than their number |
| `SchemaRows.TablesExactly` | otmp/src/image.rs:799-872 | rows are the written ones of a valid schema exactly when they are accepted and the identifier ordinals have no gap |
| `SchemaRows.IdentifierGapsPass` | otmp/src/image.rs:840-858 | identifier rows with a gap in their ordinals, which are never written, are accepted wherever the written ones are |

## Left out

- SHA-256, zstd and fresh identifiers: digests are a function that does not collide where a theorem says so, decompression is a parameter of the environment, and fresh names are arguments with the freshness they need.
- The tree modules work on a store of nodes and packs as values, where the byte-level codecs are proved separately; that an object of the store is the decoding of its bytes is the content of the codec theorems and is not threaded through the tree proofs.
- SQLite header, identity and image-root-hash checks of `resolve_generation`, and the contents of SQLite pages other than their structure.
- The JSON of generations, commits and HEAD: the protocol model has their fields as values.
- The candidate builder is any function of the pinned parent; `commit_staged_files`, `otmp/src/runtime/history.rs` and `otmp/src/runtime/transactions.rs` are not part of this model.
- Sessions.Commit: the store keeps objects under the names of their own content (`WellNamed`), as every writer's put does; a foreign object under such a name would make the put fail.
- PublishedImages.HeadsResolve: that a candidate is what the writer's code makes over its parent is a hypothesis about the builder (`Builds`), met by the candidates of Sessions (`IncrementalMakes`, `CheckpointMakes`).
- Publisher.Table.Publish: drives append calls; the loop of `initialize` is in the step system (its theorems above) but not written as a method.
- FooterCache.Cache.Insert: sizes and identities are given; decoding, retries and tracing are not part of this model, and wake-ups are not timed.
- SchemaAdapter.Projects: casts and default conversion are functions of the environment, and Arrow's own constructor checks are a parameter that may refuse; a refused array is an error, never a wrong row.
- AdapterBinding.CompatibleExactly: the values of text and byte types are those of single cells; that Arrow's 32-bit offsets may overflow when a large batch is cast is an error of the cast, not modelled. Dictionaries are named by their value type, and decimals keep their scale, so that a change of scale is never a conversion.
- AdapterBinding.FilesRead: that Arrow takes every array built from fitting parts is a hypothesis (`TakesAll`); nullability is left to it.
- SchemaRows.ValidateSchema: a field's own type parameters and defaults are one check given as a parameter (otmp-protocol/src/types.rs:124-134 and 209-217); defaults and documentation ride along with the field; the foreign-key bookkeeping of `otmp_field_ids` is not modelled.
- Membership.Metadata.Apply: file descriptors, metrics and commit rows carry no membership and are not modelled; the transaction is all rows or none.
- S3 and file-system detail of the stores, the command line, DataFusion planning, Parquet decoding and the field-by-field checks of protocol objects.
