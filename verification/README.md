# A verified model of the versioned configuration system

This project models five connected parts of a configuration service for protobuf messages and
proves what they promise, for every input and every run:

* the **in-memory value store** (`ValueStores`): a 64-slot ring with a revision counter,
  compare-and-swap writes, point-in-time reads, history and watches. It refines an unbounded log
  (`StoreLog`), whose answers `StoreLaws` ties to each other over runs. `WatchPipeline` is the state
  machine of writers, forwarding goroutines and readers;
* the **mask and merge algebra** (`Masks`, `MaskLaws`, `Presence`, `Merging`, `LeafMerging`,
  `Diffing`): keeping, discarding, merging and comparing message trees, with the masks searched by
  text prefix as the radix tree does;
* the **defaulting tracker and its server** (`Trackers`, `Servers`): Apply, Reset, SetDefault and their
  dry runs over two stores. `TrackerSpec` states each result on the stores' logs; `TrackerLaws`, `ApplyLaws`,
  `WriteLaws` and `ServerLaws` prove what those results mean;
* the **reactive controller** (`Reactive`, `ReactiveValues`): an index of observable values that mirrors a store;
  and callbacks bound to groups of them (`Binding`, with its invariant in `BindingCache`,
  `BindingInvariant` and `BindingSteps` and its laws in `BindingLaws`);
* two conversions: the size-bounded **history annotation** of the CRD driver (`CrdHistory`) and the
  **`Value` message** (`Values`).

A message is a finite map from field name to a leaf (scalar, list or map, taken whole) or a
sub-message; a flag marks Duration and Timestamp, which merging treats specially. A descriptor lists
the declared fields in order and is finite. Field names hold no dot and are not empty; hypotheses beyond that
(`NoEmptySub`, `LeafPrefixFree`, `PrefixFree`, `NoZeroTime`) are stated where a property needs them, and
where one could be in doubt a lemma shows that it is needed.

The loops of the source that update something in place are methods with loops, proved equal to
specification functions; the laws are lemmas about those functions. The stores, the tracker, the
server, the observable values, the controller and the object that holds a CRD history are classes.

## Where the code and its documentation differ

* The laws documented for `ExclusiveKeep` and `ExclusiveDiscard` (`util/fieldmask/masks.go:98-114`) do not
  hold of every message. A sub-message that is present but empty is lost, and an unpopulated sibling whose
  name starts with a leaf's name protects that leaf. `Presence` proves the exact conditions.
* `Bind` documents exactly one callback for a change (`reactive/bind.go:24-27`). A deletion carries the
  revision of the config it deletes (`reactive/controller.go:143`), so it shares that revision's queue and
  makes a call of its own only if that revision had no queue so far. Puts do call back once; a value that
  Bind registers while one is dispatched can make that call come before another value's update, which is then
  lost. `BindingLaws` proves exactly when that can happen.
* `Start` reads the revision and takes the watch in two steps. If a config was active and 63 or more writes
  come in between, nothing is replayed and the index is behind until the next event.
* Reads reach the newest 64 revisions; the walks of Watch and History stop before the slot after the cursor and
  reach 63. A watch from an older revision of a full ring is no error: it replays nothing.
* A zero Duration or Timestamp in the middle of two merges makes their grouping matter.
* A dry run of SetDefault accepts a request without a revision when a default is stored; the real call then
  fails, because it asks for revision 0.

## Model

| member | source | states |
|---|---|---|
| Messages.JoinInjective | util/fieldmask/diff.go:31 | Path texts name declared paths uniquely, so text lists speak about fields unambiguously |
| Masks.KeepFields | util/fieldmask/masks.go:122-156 | The in-place loop with its growing text prefix computes the keep specification on the part of the mask below that prefix, and reports whether anything is left |
| Masks.KeepOne | util/fieldmask/masks.go:131-153 | One field: kept, pruned through a recursive call, or cleared |
| Masks.DiscardFields | util/fieldmask/masks.go:158-194 | The same for discard |
| Masks.DiscardOne | util/fieldmask/masks.go:167-191 | One field under discard |
| Masks.PathSetPrefix | util/fieldmask/masks.go:132-138 | When a text prefix search for a field succeeds: a listed name, or a name with something listed below it, starts with the field's name |
| MaskLaws.KeepLeaves | util/fieldmask/masks.go:98-108 | Keeping leaves exactly the leaves the mask covers, with their values |
| MaskLaws.DiscardLeaves | util/fieldmask/masks.go:110-120 | Discarding leaves exactly the leaves the mask does not cover |
| MaskLaws.Partition | util/fieldmask/masks.go:122-194 | Each present leaf survives unchanged in exactly one of the two results, and no leaf appears |
| MaskLaws.RestoredExactly | util/fieldmask/masks.go:122-194 | For any message and mask the two halves give the message back if and only if the mask loses no sub-message: none that it reaches into without naming it is empty |
| MaskLaws.HalvesRestoreExactly | util/fieldmask/masks.go:122-194 | The same for merging them |
| MaskLaws.EmptySubIsLost | util/fieldmask/masks.go:144-147 | A present but empty sub-message at any depth is lost under some set of texts |
| MaskLaws.RestoringExactly | util/fieldmask/masks.go:122-194 | The halves restore a message for every set of texts if and only if it has no present but empty sub-message |
| MaskLaws.LosableIsLost | util/fieldmask/masks.go:131-147 | A present but empty sub-message that declares a field, or whose name starts a sibling's, is lost under some valid mask |
| MaskLaws.LostIsLosable | util/fieldmask/masks.go:131-147 | Valid masks lose no other |
| MaskLaws.RestoringValidExactly | util/fieldmask/masks.go:122-194 | The halves restore a message for every valid mask if and only if no such sub-message is present but empty |
| MaskLaws.CoveringIsNaming | util/fieldmask/masks.go:131-143 | For a valid mask the text prefix search agrees with naming a path or an ancestor of it, if no leaf's name starts a sibling's |
| MaskLaws.ShadowWitness | util/fieldmask/masks.go:132-138 | Where a leaf's name starts a sibling's, a valid mask covers a leaf it does not name |
| MaskLaws.CoveringIsNamingExactly | util/fieldmask/masks.go:122-156 | Covering and naming agree for all valid masks and leaves if and only if no leaf's name starts a sibling's |
| MaskLaws.AllPathsDeclared | server/config.go:191-193 | The texts a valid mask may hold are those of the declared paths |
| Presence.RangePresentMessageFields | util/fieldmask/masks.go:57-76 | Lists the texts of the populated leaves, each once |
| Presence.RangeAbsentMessageFields | util/fieldmask/masks.go:78-96 | Lists the texts of the topmost unpopulated fields, each once |
| Presence.ByPresence | util/fieldmask/masks.go:13-19 | The normalised mask of the populated leaves; keeping with it changes nothing iff no sub-message is present but empty |
| Presence.ByAbsence | util/fieldmask/masks.go:21-27 | The normalised mask of the unpopulated fields; the exact conditions of its two documented laws |
| Presence.KeepPresent | util/fieldmask/masks.go:98-99 | Keeping what is present gives the message with its leafless sub-messages pruned, for every message |
| Presence.PruneIsIdentity | util/fieldmask/masks.go:99 | Pruning changes nothing iff no sub-message is present but empty |
| Presence.KeepPresentExactly | util/fieldmask/masks.go:99 | Exact condition of the first documented law of keep |
| Presence.KeepAbsentExactly | util/fieldmask/masks.go:100 | Exact condition of the second documented law of keep: no populated leaf is shadowed by a sibling's name |
| Presence.NothingShadowed | util/fieldmask/masks.go:100 | No message shadows a leaf where no leaf's name starts a sibling's |
| Presence.DiscardPresent | util/fieldmask/masks.go:111 | The first documented law of discard, when no sub-message is present but empty |
| Presence.DiscardPresentExactly | util/fieldmask/masks.go:111 | Exact condition of the first documented law of discard, for every type: no sub-message is left over, that is without present leaves and either non-empty or not reached by a populated sibling's name |
| Presence.LeftoverIsEmptySub | util/fieldmask/masks.go:111 | With prefix-free names that condition is that no sub-message is present but empty |
| Presence.ShelteredSubIsCleared | util/fieldmask/masks.go:132-147 | Without them it is not: a sibling's name can get an empty sub-message cleared |
| Presence.DiscardAbsentExactly | util/fieldmask/masks.go:112 | Exact condition of the second documented law of discard: nothing shadowed, and no empty sub-message reached |
| Presence.ShadowedLeafIsKept | util/fieldmask/masks.go:100 | A concrete message on which the second law of keep fails |
| Presence.EmptySubIsDropped | util/fieldmask/masks.go:99-111 | A concrete message on which the first laws of keep and of discard fail |
| Presence.KeepNormalized | util/fieldmask/masks.go:13-27 | Normalising a mask changes no result of keep or discard |
| Presence.NormalizedIsMinimal | server/config.go:190 | What is left of a mask when it is normalised |
| Presence.NamesNormalized | server/config.go:190 | Normalising changes no path that is named |
| Presence.AbsentNamesMissing | util/fieldmask/masks.go:78-96 | The absence mask names exactly the declared paths at which the message has nothing |
| Presence.ExclusiveKeep | util/fieldmask/masks.go:103-108 | A nil mask is a no-op, a non-nil one keeps what it covers |
| Presence.ExclusiveDiscard | util/fieldmask/masks.go:115-120 | A nil mask is a no-op, a non-nil one discards what it covers |
| Merging.MergeMessage | util/merge/merge.go:66-123 | The loop over populated fields in any order computes the merge; an explicitly zero Duration or Timestamp resets |
| Merging.MergeOneField | util/merge/merge.go:104-118 | One field: lists and maps replaced, messages merged, scalars set |
| Merging.MergeList | util/merge/merge.go:125-141 | The destination list becomes a copy of the source's, whatever it held |
| Merging.MergeMap | util/merge/merge.go:143-163 | The destination map becomes a copy of the source's, whatever it held |
| Merging.MergeIntoEmpty | util/merge/merge.go:36-43 | The empty message is a left identity |
| Merging.MergeEmpty | util/merge/merge.go:36-43 | Exactly when an empty source changes nothing |
| Merging.MergeSelf | util/merge/merge.go:36-43 | Merging a message over itself changes nothing |
| Merging.MergeTwice | util/merge/merge.go:36-43 | Merging one source twice equals merging it once |
| Merging.MergeConforms | util/merge/merge.go:55-64 | The result has the type of its arguments |
| Merging.MergeAssociative | util/merge/merge.go:36-43 | Grouping does not matter when the middle message holds no zero Duration or Timestamp |
| Merging.ResetBreaksAssociativity | util/merge/merge.go:86-102 | Any message that holds one has neighbours between which grouping matters |
| Merging.MergeAssociativeExactly | util/merge/merge.go:66-123 | Merging around a message is associative for all neighbours if and only if it resets no Duration or Timestamp |
| LeafMerging.MergeLeaf | util/merge/merge.go:36-43 | Leaf by leaf the source wins where it has the leaf; else the destination's stays, unless its Duration or Timestamp is reset |
| LeafMerging.MergeParent | util/merge/merge.go:86-102 | Which Durations and Timestamps are present and zero after a merge |
| LeafMerging.KeepNamed | util/fieldmask/masks.go:140-150 | What a mask names is kept whole |
| LeafMerging.KeepZeroed | util/fieldmask/masks.go:140-150 | A zero Duration or Timestamp survives a keep iff the mask names it or an ancestor |
| Diffing.DiffFields | util/fieldmask/diff.go:21-61 | The recursive walk appends to the shared list, under its prefix, each differing path once |
| Diffing.Diff | util/fieldmask/diff.go:12-19 | A declared path is listed, once, iff its presence-aware value differs; nothing else is listed; the list is empty iff the messages are equal |
| Diffing.DiffersExactly | util/fieldmask/diff.go:21-61 | The same about the set of listed paths |
| Diffing.DiffersDeclared | util/fieldmask/diff.go:21-61 | Only declared paths are listed |
| Diffing.NothingDiffers | util/fieldmask/diff.go:50-55 | No path is listed exactly when the messages are equal, which makes the length comparison after the recursion right |
| Diffing.DifferingSymmetric | util/fieldmask/diff.go:21-61 | Swapping the arguments lists the same paths |
| Diffing.AncestorsDiffer | util/fieldmask/diff.go:52-55 | The listed paths are closed under ancestors |
| StoreLog.EventsStable | storage/inmemory/value_store.go:217-255 | Later writes do not change what is replayed of earlier revisions |
| StoreLog.RunStart | storage/inmemory/value_store.go:391-407 | The start of the maximal run of values ending at a revision, within the walk |
| StoreLaws.ReadStable | storage/inmemory/value_store.go:131-168 | A read at a revision that held a value answers what the read without a revision answered when it was current while fewer than 64 writes followed, and is not found afterwards |
| StoreLaws.PutIsReadBack | storage/inmemory/value_store.go:49-168 | In every run: what a Put wrote is read back at its revision, whatever fewer than 64 writes are tried afterwards |
| StoreLaws.ReadNothing | storage/inmemory/value_store.go:156-162 | A deleted revision reads as not found |
| StoreLaws.ReadOutside | storage/inmemory/value_store.go:123-137 | Which revisions are out of range and which are not found |
| StoreLaws.PutExactly | storage/inmemory/value_store.go:55-63 | When a Put succeeds, in terms of what a read gives; the next read gives what was put |
| StoreLaws.DeleteExactly | storage/inmemory/value_store.go:319-327 | When a Delete succeeds, in terms of what a read gives, and which error it reports otherwise; the next read finds nothing |
| StoreLaws.OneWriterWins | storage/inmemory/value_store.go:55-63 | Of two writers giving the same revision the second fails if the first succeeded |
| StoreLaws.HistoryEndsAtRead | storage/inmemory/value_store.go:370-389 | A history of a revision ends there iff that revision reads as a value among the newest 63; when it is empty and when it is an error |
| StoreLaws.HistoryIsReads | storage/inmemory/value_store.go:391-408 | A history lists, ascending and without a gap, what each revision read as when it was current, as far back as there were values |
| StoreLaws.EventsAreReads | storage/inmemory/value_store.go:78-110 | The event of a revision carries what a read gives right after it and what it gave right before |
| StoreLaws.ReplayExactly | storage/inmemory/value_store.go:180-200 | Where a watch starts to replay, in terms of what a read gives |
| ValueStores.ValueStore.constructor | storage/inmemory/value_store.go:37-43 | An empty ring refines the empty log |
| ValueStores.ValueStore.Write | storage/inmemory/value_store.go:65-76 | Overwriting the next slot keeps slot r mod 64 holding revision r for each of the newest 64 revisions |
| ValueStores.ValueStore.Put | storage/inmemory/value_store.go:49-115 | Appends to the log and tells each watch the live event, or leaves everything on a conflict; the guard is exact |
| ValueStores.ValueStore.Delete | storage/inmemory/value_store.go:313-359 | Appends a deletion and tells each watch, or reports the exact error and leaves everything |
| ValueStores.ValueStore.Notify | storage/inmemory/value_store.go:82-112 | Every registered watch gets the event of the write, once |
| ValueStores.ValueStore.Get | storage/inmemory/value_store.go:117-169 | Equals the log lookup within the newest 64 revisions, with the errors told apart |
| ValueStores.ValueStore.WalkBack | storage/inmemory/value_store.go:185-196 | Where the backward walk stops: at the revision, at an unused slot, or after 63 slots |
| ValueStores.ValueStore.Watch | storage/inmemory/value_store.go:171-311 | Replays exactly the events a live watch would have received from its start on, each with its Previous, fewer than 64, then registers for what follows |
| ValueStores.ValueStore.Replay | storage/inmemory/value_store.go:202-255 | The forward walk with its running previous value writes the live events |
| ValueStores.ValueStore.ReplaySlot | storage/inmemory/value_store.go:219-254 | One slot of it: the event of its revision, and the previous value for the next |
| ValueStores.ValueStore.Unwatch | storage/inmemory/value_store.go:276-280 | Removes one callback and no other |
| ValueStores.ValueStore.History | storage/inmemory/value_store.go:361-409 | Ascending, the maximal run of values ending at the chosen revision within the newest 63, or the exact error |
| ValueStores.ValueStore.Collect | storage/inmemory/value_store.go:391-408 | The backward walk, reversed, is that run |
| WatchPipeline.ReplayFits | storage/inmemory/value_store.go:175-255 | A replay has at most 63 events, so it never fills the update channel |
| WatchPipeline.StepSafe | storage/inmemory/value_store.go:257-308 | Each step of writers, goroutines and readers keeps the pipeline invariant |
| WatchPipeline.RunSafe | storage/inmemory/value_store.go:86-112 | Every interleaving keeps it |
| WatchPipeline.StreamKept | storage/inmemory/value_store.go:281-306 | A goroutine's own steps neither lose, add nor reorder events |
| WatchPipeline.ConsumedIsContiguous | storage/inmemory/value_store.go:217-308 | In every run, what a reader has consumed from a watch that has not overflowed is the contiguous run of log events from its start, and all of them once nothing is in flight |
| WatchPipeline.OverflowLosesOne | storage/inmemory/value_store.go:297-303 | An overflowing watch loses one event, the one in hand; all before it were delivered in order |
| WatchPipeline.StepWrites | storage/inmemory/value_store.go:49-76 | The writes of a run are accepted and appended as the store does |
| WatchPipeline.WatchIsReplayThenLive | storage/inmemory/value_store.go:171-311 | From the moment a watch starts, in every run, its reader consumes the events from the revision the store replays from, in order |
| Configs.RestoreRedacted | test/ext/ext_cli.pb.go:715-743 | Unredacting a redacted message from its original succeeds and gives the original |
| Configs.RedactShows | test/ext/ext_cli.pb.go:715-722 | A non-empty secret is shown as the redaction text, everything else as it is |
| Configs.RedactHides | test/ext/ext_cli.pb.go:715-722 | Messages that differ only in what their non-empty secrets say are shown as the same |
| Configs.RestoreResolves | test/ext/ext_cli.pb.go:729-737 | A redacted secret gets the original's value; nothing else changes |
| Configs.DiscontinuousExactly | test/ext/ext_cli.pb.go:729-742 | Unredacting is refused exactly when a redacted secret has no value in the original |
| Configs.SetRevisionConforms | server/reflect.go:48-66 | Setting the revision keeps the type and sets the number read back |
| Configs.RedactUnset | server/config.go:97-106 | Redacting and removing the revision commute |
| Configs.UnsetForgets | server/reflect.go:34-83 | Removing the revision undoes setting or copying it |
| Configs.OnlyTheRevision | server/reflect.go:34-83 | Removing, setting and copying the revision touch no other field |
| Configs.TheRevision | apis/core/v1/extensions.go:24-34 | What each leaves in the revision field; setting another number clears the timestamp |
| Configs.NumberOfRevision | server/config.go:258-263 | Which revision number a message carries |
| TrackerLaws.ResetByCovering | server/config.go:201-210 | The two keeps and two merges, leaf by leaf, for any mask |
| TrackerLaws.ResetLeaves | server/config.go:190-210 | The same by naming, for a valid mask and no leaf's name starting a sibling's |
| TrackerLaws.ResetLeavesPlain | server/config.go:190-210 | Without zero times: the patch's leaf, else the active one where the mask covers, the default's elsewhere |
| TrackerLaws.ResetStores | server/config.go:167-211 | A successful Reset with a mask stores that at every declared leaf, with the patch's secrets resolved from the kept part of the active config |
| TrackerLaws.PresentNamesLeaves | util/fieldmask/masks.go:57-76 | The presence mask names exactly the leaves the message has |
| TrackerLaws.PresentIsValid | server/config.go:191-193 | The presence mask is valid for the message's type |
| TrackerLaws.RollbackStores | server/rollback/rollback.go:138-141 | Resetting with the presence mask of a target and the target as patch stores the target's leaves, secrets resolved, and the default's elsewhere |
| TrackerLaws.RestoreLeaves | test/ext/ext_cli.pb.go:724-743 | Unredacting changes the text of secrets, never which leaves there are |
| ApplyLaws.CurrentReads | server/config.go:230-256 | What reads without a revision, or at the current one, find |
| ApplyLaws.ApplyIsCompareAndSwap | server/config.go:267-284 | While a config is active, Apply succeeds iff its explicit revision, if any, is current and its secrets resolve; and what it stores |
| ApplyLaws.ApplyOntoDefault | server/config.go:230-284 | While none is active, exactly which Applies succeed, and what they store |
| ApplyLaws.ApplyOwnRead | server/config.go:216-284 | Applying what GetActiveOrDefault showed, redacted, succeeds and stores what was there but for the revision field |
| ApplyLaws.MergeShown | server/config.go:280-282 | Merging a message that differs in the revision field only changes nothing else |
| ApplyLaws.ReadAfterWrite | server/config.go:216-228 | What the next read shows after a write |
| ApplyLaws.DryRunApplyExactly | server/config.go:343-380 | A dry run of Apply succeeds iff Apply does and a revision given is current; the next read equals its prediction up to the revision field |
| ApplyLaws.DryRunResetExactly | server/config.go:442-501 | Reset succeeds iff its dry run does and the config read is the current one; the next read equals the prediction, deletion included |
| ApplyLaws.ReadAfterRemoval | server/config.go:179-185 | After the deletion of a nil-mask Reset reads show the default |
| ApplyLaws.DryRunSetDefaultExactly | server/config.go:382-413 | After a successful dry run SetDefault succeeds iff a revision was given or no default is stored; the next read equals the prediction |
| WriteLaws.ShownSecret | server/config.go:224-226 | A secret is shown as the redaction text unless it has nothing to hide |
| WriteLaws.ShownHides | server/config.go:224-226 | Configs that differ only in what their secrets say are shown as the same |
| WriteLaws.ShownLeaf | server/config.go:220-227 | Every other leaf shown, but for the revision, is the stored one |
| WriteLaws.ActivePointInTime | server/config.go:230-256 | Reading a revision gives the config it held while fewer than 64 writes followed, and the default afterwards |
| WriteLaws.DefaultPointInTime | server/config.go:122-136 | The same for the default |
| WriteLaws.FutureRevision | server/config.go:238-240 | A revision yet to come is an error |
| WriteLaws.ApplyStoresLeaf | server/config.go:267-284 | Apply stores the request's leaves where it has them, secrets resolved, and those it started from elsewhere |
| WriteLaws.SetDefaultIsCompareAndSwap | server/config.go:87-105 | SetDefault succeeds iff the revision given is the store's, or none is given and no default is stored, and its secrets resolve; and what it stores |
| WriteLaws.SetDefaultStoresLeaf | server/config.go:99-104 | It stores the request's leaves, secrets resolved, and nothing else of the old default |
| WriteLaws.ResetSucceedsExactly | server/config.go:167-211 | Reset succeeds iff a config is active, the revision given, if any, is current, and with a mask the mask is valid and the patch's redacted secrets are kept ones |
| WriteLaws.ResetStoresLeaf | server/config.go:186-210 | With a mask it stores at every leaf what the default, the active config and the patch give by what the mask names, a redacted secret keeping its active value |
| WriteLaws.DryRunApplyShowsCurrent | server/config.go:363-369 | The current half of a dry run is what a read shows; the prediction has its revision field |
| WriteLaws.DryRunSetDefaultShowsCurrent | server/config.go:397-401 | The same for SetDefault |
| WriteLaws.DryRunResetShowsCurrent | server/config.go:445-466 | The current half of a dry run of Reset is what a read at that revision shows |
| WriteLaws.ResetDefaultExactly | server/config.go:109-120 | ResetDefault succeeds iff a default is stored, at the revision given; then the built-in default is read |
| WriteLaws.ApplyErrors | server/config.go:271-283 | Which error a refused Apply reports |
| WriteLaws.SetDefaultErrors | server/config.go:95-104 | Which error a refused SetDefault reports |
| WriteLaws.ResetErrors | server/config.go:175-210 | Which error a refused Reset reports |
| Trackers.Tracker.GetDefaultConfig | server/config.go:122-136 | The stored default, else the built-in one at revision 0; other errors pass |
| Trackers.Tracker.GetConfigOrDefault | server/config.go:230-256 | The active config, else the default as active revision 0 |
| Trackers.Tracker.GetActiveOrDefault | server/config.go:216-228 | The same redacted and with its revision, a well-typed message that shows no secret |
| Trackers.Tracker.Apply | server/config.go:267-284 | Changes the active store as specified, or reports the error and changes nothing |
| Trackers.Tracker.Reset | server/config.go:167-211 | Deletes or writes as specified, or reports the error and changes nothing |
| Trackers.Tracker.PrepareReset | server/config.go:186-208 | Mask check, keeps, unredaction and merges in the source's order |
| Trackers.Tracker.SetDefault | server/config.go:87-105 | Writes the default as specified, or reports the error and changes nothing |
| Trackers.Tracker.ResetDefault | server/config.go:109-120 | Deletes the default, or reports the store's error |
| Trackers.Tracker.DryRunApply | server/config.go:343-380 | Computes the specified prediction and changes nothing |
| Trackers.Tracker.DryRunReset | server/config.go:442-501 | Computes the specified prediction and changes nothing |
| Trackers.Tracker.DryRunSetDefault | server/config.go:382-413 | Computes the specified prediction and changes nothing |
| Trackers.ApplyTyped | server/config.go:276-283 | What Apply stores is of the configuration type |
| Servers.SetKeepsField | server/server.go:86-92 | Set leaves a masked field of the active config as it is |
| Servers.SetKeepsLeaf | server/server.go:86-92 | So it leaves every leaf under one |
| Servers.ResetKeepsLeaf | server/server.go:58-84 | Reset, with any mask or none, leaves a leaf under a masked field as it is and the config active |
| Servers.HandleTyped | server/server.go:51-100 | Requests keep both stores well typed |
| Servers.MaskedFieldIsSafe | server/server.go:51-108 | Once the active config holds a value in a leaf that is masked or under a masked field, every sequence of Set, Reset, SetDefault and ResetDefault leaves it and the config active |
| ServerLaws.SetSucceedsExactly | server/server.go:86-92 | With an active config Set succeeds iff the revision given, if any, is current and the secrets of unmasked fields resolve |
| ServerLaws.SetStoresLeaf | server/server.go:86-92 | What it stores: under unmasked fields the request's leaves where it has them, and what it started from everywhere else |
| ServerLaws.SetDefaultSucceedsExactly | server/server.go:94-100 | When SetDefault succeeds |
| ServerLaws.SetDefaultStoresLeaf | server/server.go:94-108 | It stores the request without its masked fields |
| ServerLaws.ServerResetStoresLeaf | server/server.go:58-84 | Reset stores, under unmasked fields, what the request's own mask and patch ask for, and under masked ones the active leaf, or the default's where there is none |
| ServerLaws.ServerResetSucceedsExactly | server/server.go:58-84 | When such a Reset succeeds |
| ServerLaws.ServerResetDeletes | server/server.go:58-84 | Without a mask and without masked fields it deletes the active config, if there is one |
| ServerLaws.ResetDefaultSucceedsExactly | server/server.go:51-56 | ResetDefault brings the built-in default back iff one is stored |
| Servers.Server.ClearMaskedFields | server/server.go:102-108 | Clears the masked fields and leaves every other field as it was |
| Servers.Server.AppendMaskedFields | server/server.go:62-71 | Adds exactly the masked fields to a mask, creating it when nil |
| Servers.Server.Set | server/server.go:86-92 | The handler as a step of the run above |
| Servers.Server.Reset | server/server.go:58-84 | The handler as a step of the run above |
| Servers.Server.SetDefault | server/server.go:94-100 | The handler as a step of the run above |
| Servers.Server.ResetDefault | server/server.go:51-56 | The handler as a step of the run above |
| ReactiveValues.ReactiveValue.Update | reactive/value.go:38-65 | Every watcher is sent the new revision and value exactly once on request or the first time, and nothing otherwise; when an update without notice leaves what is observed unchanged, each one's last delivery still matches the value |
| ReactiveValues.ReactiveValue.Watch | reactive/value.go:73-96 | A new channel starts with the current value, if any; no other is touched |
| ReactiveValues.ReactiveValue.WatchFunc | reactive/value.go:98-124 | A new callback is called with the current revision and value, if any |
| ReactiveValues.ReactiveValue.Unwatch | reactive/value.go:88-94 | Removes one watcher and no other |
| Reactive.ReadingIsField | reactive/controller.go:280-293 | What a node reads is the config's field at its path, a deleted config reading as an empty one |
| Reactive.SameFieldSameReading | reactive/controller.go:179-194 | A path at which two configs agree reads the same from both |
| Reactive.BuildNode | reactive/controller.go:242-257 | Every declared path at and below a node gets one node of its own |
| Reactive.Controller.constructor | reactive/controller.go:225-240 | The trie covers exactly the declared paths and the root |
| Reactive.Controller.WalkValues | reactive/controller.go:280-293 | The post-order walk updates each node with its part of the root value, exactly once |
| Reactive.Controller.HandleWatchEvent | reactive/controller.go:123-195 | Afterwards every node mirrors the config; every watcher of a node is told once if its field changed or the event is the first, and not otherwise; those of the root always once |
| Reactive.Controller.Run | reactive/controller.go:109-119 | Over any contiguous run of a store's events the nodes end mirroring the last |
| Reactive.Controller.RevisionToWatch | reactive/controller.go:97-103 | The revision Start reads: that of the active config, or 0 |
| Reactive.StartReplays | reactive/controller.go:104 | Where a watch from it starts, however many writes came in between |
| Reactive.Controller.Start | reactive/controller.go:92-121 | Never fails on a store, whatever was written since the revision was read; the nodes mirror it after the replay if and only if no config is active, none was when it was read, or fewer than 63 writes came in between |
| Reactive.Controller.CatchUp | reactive/controller.go:109-119 | Handling what the watch has received since makes the nodes mirror the store's current config, also after a start that replayed nothing |
| Reactive.ReadEvent | reactive/controller.go:135-182 | Revision, value and changed paths of an event |
| Reactive.LiveEventTyped | storage/inmemory/value_store.go:89-110 | Each event of a store continues from where the last one left; a deletion has the revision of what it deletes |
| BindingCache.OnUpdateTouches | reactive/bind.go:55-70 | An update goes to the one queue of its revision, found in the cache, or to a new one; the cache keeps finding every queue still in use although it evicts |
| BindingSteps.JoinInv | reactive/bind.go:35-40 | Registering a value that was set, before, between or during events, keeps the binder's invariant |
| BindingSteps.QuietRegisterInv | reactive/value.go:110-116 | So does registering one that was not |
| BindingInvariant.BeginPutInv | reactive/controller.go:146-182 | So does the beginning of a Put |
| BindingInvariant.BeginDeleteInv | reactive/controller.go:136-145 | So does that of a deletion, which reuses the revision |
| BindingSteps.NotifyInv | reactive/bind.go:55-78 | So does an update the binder is told of |
| BindingSteps.SetInv | reactive/value.go:43-52 | So does one it is not told of |
| BindingInvariant.EndEventInv | reactive/controller.go:127-130 | So does the end of an event, which frees its goroutines |
| BindingInvariant.ResolveInv | reactive/bind.go:72-89 | So does a resolver |
| BindingSteps.RunInv | reactive/bind.go:28-89 | So does every interleaving of registrations, updates and resolutions, each one step |
| BindingLaws.OneCallPerRevision | reactive/bind.go:55-89 | In every reachable state a revision has at most one queue and at most one call; it has one, once its goroutines have run, exactly if a Put, a deletion or a registration reached it |
| BindingLaws.PutCallsBackOnce | reactive/bind.go:24-89 | Once all values are registered a Put calls back once if it told a bound value and never otherwise, unless the config is deleted first; the call carries every value told |
| BindingLaws.NotifiedIsCarriedExactly | reactive/bind.go:35-89 | At the start of a Put, with any number of values registered: in every continuation in which the config is not deleted its calls carry what it notified, if and only if all slots are registered or no told slot changes but the only one that is not |
| BindingLaws.UndisturbedIsCarried | reactive/bind.go:65-89 | The "if" half |
| BindingLaws.DisturbedIsLost | reactive/bind.go:35-78 | The "only if" half: a schedule that loses an update |
| BindingLaws.NotifiedIsCarried | reactive/bind.go:65-69 | In any state, what a Put notified is in its call if no value joined while one that changes waited, and the config was not deleted first |
| BindingLaws.ResolvedInTimeIsSnapshot | reactive/bind.go:80-89 | Until the event after a Put the values are that Put's, and its queue, resolved then, calls back with exactly them |
| BindingLaws.DeletionCallsBack | reactive/bind.go:24-27 | A deletion makes a call of its own iff it told a bound value and its revision had no queue; with an unresolved queue it shares the Put's call; with a resolved one it makes none |
| BindingLaws.CalledIsReached | reactive/bind.go:28-89 | A Put and its call are reached |
| BindingLaws.DeletionMayBeSilent | reactive/bind.go:24-27 | From there the deletion makes no call in any continuation: the documented guarantee fails |
| BindingLaws.JoiningMayLoseAnUpdate | reactive/bind.go:24-27 | A concrete run in which a joining value resolves the queue before another's update, and that revision calls back no more |
| BindingLaws.PutMayBegin | reactive/controller.go:146-182 | Every Put event of a store is an event of this machine |
| BindingLaws.ChangedFieldCallsBackOnce | reactive/controller.go:179-194 | Bound to fields of a controller's config, a Put calls back exactly once iff it changed a bound field or is the first event, with the new reading of each |
| BindingLaws.DeletedFieldCallsBack | reactive/controller.go:136-145 | The same for deletions, also as the first event, with the condition above |
| Binding.DoResolve | reactive/bind.go:80-89 | Slots not updated are filled from the values, the others kept |
| CrdHistory.ItemFits | storage/drivers/crds/value_store.go:494-507 | An encoded entry with its comma is no longer than its estimate |
| CrdHistory.JsonFits | storage/drivers/crds/value_store.go:637-659 | The JSON text is no longer than the estimate of its entries |
| CrdHistory.SmallHistoryFits | storage/drivers/crds/value_store.go:644-653 | Sixty-four entries of 2500 bytes are estimated to fit, so such a history loses nothing |
| CrdHistory.EstimateOfSuffix | storage/drivers/crds/value_store.go:646-653 | Longer suffixes are estimated longer, so the first that does not fit decides |
| CrdHistory.EncodeHistory | storage/drivers/crds/value_store.go:635-659 | Keeps the longest newest suffix within the estimate; the text is within 250 KiB, and decodes to it when no entry is empty |
| CrdHistory.AppendedHistory | storage/drivers/crds/value_store.go:556-567 | Cutting to 64 entries and then to size keeps the newest entries, as many as fit |
| CrdHistory.ConfigObject.AppendSpecToHistory | storage/drivers/crds/value_store.go:531-577 | Keeps the history a newest run of all replaced configs, at most 64, as long as fits |
| CrdHistory.ConfigObject.Put | storage/drivers/crds/value_store.go:152-160 | So does every Put, which replaces the config |
| CrdHistory.ConfigObject.ReadHistory | storage/drivers/crds/value_store.go:579-603 | The stored entries and the current config: a newest run of everything written |
| Values.NewValue | apis/core/v1/value.go:11-86 | The message built from any nested value reads back as that value |
| Values.NewList | apis/core/v1/value.go:43-52 | Lists round-trip, in order |
| Values.NewMap | apis/core/v1/value.go:53-83 | Maps round-trip for every iteration order |
| Values.ReadValue | apis/core/v1/value.go:88-137 | The loops over list values and map entries compute the value read |
| Values.ScalarKinds | apis/core/v1/value.go:93-117 | Each scalar field of the message is read as a value of its own kind |
| Values.NumberKinds | apis/core/v1/value.go:96-107 | The same for numbers, with their widths and signs |
| Values.KeyKinds | apis/core/v1/value.go:139-155 | The same for map keys |
| Values.ListKind | apis/core/v1/value.go:122-128 | A list is read element by element, in order |
| Values.MapKind | apis/core/v1/value.go:129-134 | Every key read is that of an entry and has the value of the last such entry |
| Values.NewMapKey | apis/core/v1/value.go:57-73 | Map keys round-trip, with their kinds |
| Values.EntryOrder | apis/core/v1/value.go:128-133 | With distinct keys each entry is read under its key wherever it stands |

## Left out

- Trackers.Tracker.Apply: messages are values, so the in-place update of fetched and caller-owned messages, their aliasing, and a partly unredacted message after an error are not captured.
- Masks.KeepFields: the message is passed and returned as a value, so clearing a field in a caller's message is not captured; the same holds of DiscardFields and MergeMessage.
- Masks.HasPrefix: the radix tree is its set of keys with exact and prefix search; the tree itself is a library.
- Presence.Normalize: a mask is a set of texts; the order of its list and repeated paths are not modelled, and Normalize and IsValid are the library's documented behaviour.
- Merging.Merge: oneofs, unknown fields and the options that append lists or merge maps are not modelled.
- Configs.Redact: secrets are top-level text fields, as in the sample configuration; generated code for nested secrets is not modelled.
- ValueStores.ValueStore.Put: the wrap-around of the 64-bit revision, timestamps and cloning are not modelled; a watch's callback is the list of events handed to it.
- WatchPipeline.ConsumedIsContiguous: safety only; that goroutines make progress, and that writers blocked on a full buffer resume, is not claimed.
- WatchPipeline.OverflowLosesOne: the model lets an overflowing watch still flush what is buffered, as the source does; the log line is left out.
- Trackers.Tracker.DryRunApply: validation of the result (protovalidate) is left out, as are the messages of errors, which are kinds only.
- Reactive.BuildNode: the trie is a map from path to node instead of linked nodes with an index; recursive message types, on which the source does not terminate, have no descriptor here.
- ReactiveValues.ReactiveValue.Update: the channels' capacity of four and blocking on them are not modelled; deliveries are recorded in order.
- BindingCache.OnUpdateTouches: onUpdate is one step. In the code a queue is in the cache before its values are allocated, so a registration during a dispatch that reaches the queue of the same revision can find none and panic; the model does not show that.
- BindingSteps.JoinInv: a registration during a dispatch is likewise one step.
- BindingSteps.RunInv: interleavings inside onUpdate or inside a resolver are not steps. A resolver holds its queue's lock while it reads the missing values, and an update takes the two locks in the other order, so a deletion of the same revision can block it for ever; the model does not show that. Cancelling a bind is not modelled.
- CrdHistory.EncodeHistory: snappy, base64 and JSON are contracts on lengths and on decoding what was encoded; an entry that is empty on the wire is not given back, which an entry with a revision never is. The older annotation format, encoding errors, resource versions that are no numbers, and timestamps are left out.
- Values.NewValue: packing and unpacking Any are assumed to round-trip; floats are reals; integer kinds keep their value and their widths are not bounded.
- DryRunResetDefault, the dispatch of DryRun, History of the tracker and of the server, Get and GetDefault, the context-keyed server: delegation.
- util/fieldmask AllFields and Leaves, storage/inmemory/kv_store.go, prefixes, driver caches, `future`: easy beside the rest.
- Kubernetes and etcd client calls, CRD Watch and Delete, gRPC, command lines, prompts, logging and JSON diffs: decided elsewhere or plumbing.
