# liveconfig, verified

A Dafny model of the core of [liveconfig](https://github.com/lepek/liveconfig): the Provider that
publishes hot-reloaded config snapshots, the in-memory store behind it, the catalog built from struct
tags, and the polling watcher.

`dafny verify dfyconfig.toml` checks everything.

## What is modelled

* **The reload protocol** (`Reload`, `ReloadInvariants`, `ReloadTheorems`, on top of `StoreSteps`). One
  Provider and one in-memory store as an interleaved step system. Writers commit under one lock, release
  it and broadcast under another, watcher by watcher, into buffers of 64 that drop when full. The event
  loop dequeues, calls List, installs the snapshot, and stores count, time and error as separate atomic
  steps, then fans out subscriber by subscriber. Ticks, refresh requests, subscriptions, cancellations,
  Close and other watchers interleave freely, and every List call may fail. A run is a sequence of states
  and steps; the theorems speak about all runs. Versions (numbers of commits), a log of handled events and
  a few tallies are auxiliary: no step's guard reads them. `BroadcastOrder` says exactly when watch events
  keep the order of the audit trail, `Delivery` exactly who is woken for which change, `SubscriberStreams`
  what comes out of a subscriber's channel, `LoopProgress` that nobody gets
  stuck, and `ReloadExamples` holds runs in which the Provider does less than its documentation suggests.
* **The store and the Provider as classes** (`MemStore`, `LiveProvider`, with `Channels` and `GoSlices`).
  Each method is one critical section or one goroutine's call. `Composition` shows what the atomic steps
  add up to when nobody interrupts them, and `Simulation` that a Provider object and the step system stay
  in agreement: a call on an object that agrees with a state leaves it in agreement with the state after
  the call's own steps.
* **The audit trail and history** (`AuditedStore`).
* **The catalog** (`ConfigTypes`, `Catalog`, `CatalogProperties`, `TagMeanings`). Struct types are finite
  trees; the walk works on Go slices with shared backing arrays and spare capacity.
* **Overrides** (`FieldValues`, `OverrideApplication`, `Snapshots`, `LeafReadings`). Config values lie in a memory of
  cells; pointer fields to nested structs lead to other cells. `Snapshots.LeafwiseMeaning` says what a
  snapshot contains in terms of the type and its tags alone, and this is what the reload protocol
  publishes. `LeafReadings` spells it out for each kind of leaf, and `SharedPointers` says why the base must
  have nil nested pointers.
* **String lists** (`StringLists`) and **polling** (`Polling`).

Parameters stand for what lies outside: what a List call returned, the standard library's decoders
(strconv, time.ParseDuration, encoding/json), times, and cancellation (a flag and a step that it enables).

## Where code and documentation disagree

The model follows the code.

* `restart-required` fields are overwritten in the live snapshot (`catalog.go:142-143`, `catalog.go:306-330`),
  although `docs/ANNOTATIONS.md:60` says that the process keeps the old value:
  `Snapshots.RestartFieldsAreOverwritten`.
* A periodic or manual refresh never notifies subscribers (`provider.go:423-437`), unlike the comment at
  `provider.go:246-249`. Only a change event is fanned out: `LiveProvider.Provider.Handle`.
* Subscribers do not hear of every change of a recreate-on-change field (`provider.go:228-229`), and a missed
  one is not made up for by the next refresh (`provider.go:246-249`). If the store's event is dropped or the
  refresh for it fails, the change still reaches the snapshot, but nobody is woken:
  `ReloadExamples.DroppedChangeWakesNobody` and `ReloadExamples.FailedRefreshWakesNobody`.
  `Delivery.WhoIsWoken` gives the exact condition.
* A write that commits and is broadcast between New's List and its Watch (`provider.go:180-187`) stays
  unseen until something else triggers a refresh: `ReloadTheorems.StartupGapIsMissed`. The exact condition
  for convergence is in `ReloadTheorems.QuietMeansListed`.
* A subscription made after Close is not closed by the Provider (`provider.go:278-299`, `provider.go:331-347`),
  unlike `provider.go:234-235`: `ReloadExamples.LateSubscriberStaysOpen`, and exactly which channels stay open,
  `ReloadTheorems.OpenAfterClose`.
* Watch events can arrive in another order than the audit trail has them, because a broadcast happens after
  the store's lock is released: `BroadcastOrder.RacingWritersReorder`. The stream of a watcher is in order
  exactly if no broadcast in it was begun while an older one of it was still to come:
  `BroadcastOrder.StreamOrderIsExact`.
* An integer override outside the range of a narrow field is not rejected but wrapped
  (`catalog.go:236-248`): `FieldValues.NarrowIntegerWraps`, and exactly when, `FieldValues.IntegerOverrideIsExact`.
* An event with an empty new value can be a deletion or a write of the empty string. Replaying polled
  events therefore gives the store's contents exactly if no announced key is now stored empty:
  `Polling.FollowsOn`, with `Polling.EmptyValueReadsAsDeletion` as the shortest failing case.

## Model

| member | source | states |
|---|---|---|
| ReloadTheorems.QuietMeansListed | provider.go:367-440 | in every run, whenever nothing is pending, queued or being handled and the loop has not been stopped, the latest List call came after every write of the namespace, if and only if New's own listing was not the only attempt or no write fell into the startup gap: dropped events do no harm |
| ReloadTheorems.Convergence | provider.go:367-470 | in such a quiet state the snapshot is the base with exactly the stored overrides, or the last attempt failed and its error is recorded |
| ReloadTheorems.StartupGapIsMissed | provider.go:180-187 | for every config and every write there is a run in which the write falls between New's List and Watch and the Provider goes quiet without it |
| ReloadTheorems.NoLostWakeup | provider.go:472-487 | a subscriber registered when a change is fanned out, once it has drained its channel and called Get after each receive, holds a snapshot at least as new as the change, even if that event was dropped for it |
| Delivery.WhoIsWoken | provider.go:449-487 | in every quiet state of every run a registered subscriber has been told of a commit if and only if the commit's own event was handled while it was registered, its refresh succeeded and its key is recreate-on-change; an event is handled if and only if the loop received it, and nothing is lost without a drop; once drained, a subscriber has seen all it was told of |
| Delivery.RecreateChangesAreFannedOut | provider.go:449-487 | from the refresh of a recreate-on-change event to the end of its fan-out: every subscriber registered then is told, and from then on, once drained, holds a snapshot that contains the change |
| SubscriberStreams.DeliveredInOrder | provider.go:475-487 | in every run a subscriber receives, in order and one at a time, events that were fanned out to it; received, queued and the fan-outs that met a full buffer add up to all of them, and if none did it gets everything |
| Delivery.DeliveryStep | provider.go:404-487 | every step keeps the account of events received, handled and told |
| ReloadExamples.DroppedChangeWakesNobody | provider.go:246-249 | for every config: with 64 other events queued, a recreate-on-change write gets into the snapshot and its subscriber, registered long before, is never told |
| ReloadExamples.FailedRefreshWakesNobody | provider.go:457-464 | the same when the refresh for the event fails and a tick's succeeds |
| ReloadTheorems.ReceivedEventsAreVisible | provider.go:442-448 | after receiving an event, any later Get returns a snapshot listed at or after the commit the event reports |
| ReloadTheorems.SnapshotsAreListings | provider.go:367-383 | Get never returns anything but the base with the overrides of one store version |
| ReloadTheorems.RunAdvances | provider.go:396-403 | over any run the version of the snapshot, the counters and what subscribers have seen never go back; closed channels stay closed |
| ReloadTheorems.UnmanagedLeavesNeverChange | catalog.go:37-38 | bootstrap, secret, untagged and hidden leaves equal the base in every snapshot of every run (types without pointers) |
| ReloadTheorems.ChannelLifecycle | provider.go:278-299 | in every state of every run a channel is open exactly while it is in its list, once; it is closed at most once; no send meets a closed channel |
| ReloadTheorems.OpenAfterClose | provider.go:331-347 | after Close a subscriber's channel is open exactly if it subscribed after Close and has not been cancelled |
| ReloadTheorems.CancelledSubscriptionsEnd | provider.go:285-296 | from its cancellation on a subscription's channel is closed, or can be taken out and closed as soon as no fan-out holds the list |
| ReloadTheorems.CancelledLoopsStop | provider.go:404-408 | once cancelled, the loop can stop whenever it waits, and the store's channel is cancelled with it |
| ReloadTheorems.StoppedLoopsPublishNothing | provider.go:406-420 | after the loop has seen the cancellation or a closed watch channel, snapshot, counters and error stay as they are for good |
| LoopProgress.LoopCanMove | provider.go:404-440 | in every state of every run the loop can take a step of its own, unless it has exited or New waits for a broadcast that holds the store's watch lock |
| LoopProgress.OwnStepsProgress | provider.go:367-487 | every step of a busy loop brings it closer to waiting again |
| LoopProgress.OthersDoNotDelay | provider.go:396-399 | no step of writers, callers or subscribers takes it further away |
| LoopProgress.BroadcastsGoOn | memstore/store.go:248-260 | a broadcast under way can always go on, and its distance from its end shrinks by its own steps only |
| LoopProgress.CallersAreServed | provider.go:216-226 | once New has returned, Get, Refresh and receiving what is queued are always possible; only a fan-out makes a subscription wait |
| ReloadExamples.LateSubscriberStaysOpen | provider.go:278-299 | for every config a run in which a channel subscribed after Close is open although the Provider has shut down |
| ReloadTheorems.RequestsAreNotLost | provider.go:351-357 | after a Refresh call the store has been listed since, or a token waits, or the loop is about to list |
| ReloadTheorems.RefreshesAreBounded | provider.go:404-440 | successful and failed refreshes are at most one for New, one per handled event, one per tick and one per request; at most one token waits |
| ReloadTheorems.StatsAreOneSided | provider.go:313-327 | a time or cleared error from the n-th success comes with a count of at least n, and a Get after a count of n returns a snapshot of the n-th success or a later one |
| ReloadInvariants.InvStep | provider.go:396-487 | every step keeps the inductive invariant of the whole protocol |
| ReloadInvariants.CoverageOne | memstore/store.go:246-260 | while the loop runs, a commit made after registration and not listed since is still announced: by a pending or unfinished broadcast, a non-empty queue, or a loop about to list; every step of the store keeps this |
| ReloadInvariants.WakeNotify | provider.go:475-487 | fanning out to one subscriber leaves it something to receive, whether or not the event fitted |
| ReloadInvariants.SubsClient | provider.go:278-347 | subscribing, cancelling and Close keep the list and the open channels in agreement |
| Composition.BroadcastAsOne | memstore/store.go:248-260 | the per-watcher steps of an uninterrupted broadcast leave every registered channel as the broadcast method does |
| Composition.RefreshAsOne | provider.go:367-394 | the atomic steps of an uninterrupted refresh, failing or not, change the figures as the refresh method's contract says and publish the snapshot it says, or none |
| Composition.FanOutAsOne | provider.go:475-487 | the per-subscriber steps of an uninterrupted fan-out offer the event to every subscriber still to be served and to nobody else |
| Composition.EventAsOne | provider.go:466-469 | after a successful refresh a recreate-on-change event is offered to every registered subscriber, any other event to none |
| Simulation.New | provider.go:137-202 | a new Provider agrees with the state after the first refresh |
| Simulation.Refresh | provider.go:367-394 | a refresh keeps object and step system in agreement on figures, snapshot, subscribers and trigger |
| Simulation.HandleChangeEvent | provider.go:449-487 | so does a change event, from its List call to the end of its fan-out |
| Simulation.RequestRefresh | provider.go:351-357 | so does a refresh request |
| Simulation.Subscribe | provider.go:278-283 | so does a subscription |
| Simulation.Unsubscribe | provider.go:285-296 | so does the end of a cancelled subscription |
| Simulation.CloseSubscribers | provider.go:336-341 | so does the last part of Close |
| StoreSteps.StoreInvStep | memstore/store.go:96-209 | every step of the store keeps its invariants; audit trail and versions only grow |
| StoreSteps.LifecycleStep | memstore/store.go:187-209 | a watch channel is open exactly while registered, registered once, closed once; no send meets a closed channel |
| StoreSteps.RemovalKeepsOthers | memstore/store.go:199-205 | removing a watcher keeps all others in order |
| StoreSteps.StreamAccounting | memstore/store.go:248-260 | in every run and for every watcher, registered or removed, also in the middle of a broadcast, received, buffered and dropped add up to the broadcasts of the namespace it was there for; the stream is those broadcasts with some left out; no commit is delivered twice |
| StoreSteps.DropsNeedAFullBuffer | memstore/store.go:255-258 | an event is dropped only when 64 are queued |
| BroadcastOrder.OrderIsExact | memstore/store.go:96-138 | at any point of any run, and for any set of messages: their broadcasts are in commit order and none still to come is late already, if and only if no broadcast of one was begun while an older one was pending |
| BroadcastOrder.NamespaceOrderIsExact | memstore/store.go:127-136 | the same for a namespace of which nothing is pending |
| BroadcastOrder.StreamOrderIsExact | memstore/store.go:248-260 | every watcher's stream, whatever was dropped, is in the order of the audit trail if and only if no event in it overtook another in it |
| BroadcastOrder.UndroppedOrderIsExact | memstore/store.go:248-260 | a watcher that lost nothing got its namespace's events in order if and only if none overtook another since it registered |
| BroadcastOrder.SerialisedStreamsFollowTheTrail | memstore/store.go:129-136 | with serialised writers every watcher's stream reports commits of its namespace in the order of the audit trail |
| BroadcastOrder.RacingWritersReorder | memstore/store.go:127-136 | without serialisation a run exists in which the second commit is delivered before the first |
| AuditedStore.AuditLogRefinesState | memstore/store.go:96-171 | after any sequence of writes audit ids are 1..n, earlier records are unchanged, every old value is the one recorded before, and the latest recorded value is the stored one |
| AuditedStore.CommitPreservesAudit | memstore/store.go:99-127 | a write adds one record at the end, a no-op delete none, and the trail keeps refining the data |
| AuditedStore.WriteReadsBack | memstore/store.go:111-115 | a written key reads as written, a deleted one as absent, every other key of every namespace as before |
| AuditedStore.SetIsRecorded | memstore/store.go:96-138 | setting a key adds one record with the next id, the entry's own namespace, key, value and author, the value before and the time; stored entry and event say the same; every other key reads as before |
| AuditedStore.DeleteIsRecorded | memstore/store.go:143-182 | deleting a stored key adds one record with namespace, key, the value it had, who deleted it and when, and the event says the same; deleting an absent key does nothing |
| AuditedStore.ListAgreesWithStored | memstore/store.go:80-92 | a listing has exactly the stored keys with their values |
| AuditedStore.OtherNamespacesKeepTheirListing | memstore/store.go:100-104 | a write leaves the listing of every other namespace alone |
| AuditedStore.HistoryIsExact | memstore/store.go:216-230 | the history of a key has exactly its records, each once, with strictly falling ids |
| AuditedStore.PagesTile | memstore/store.go:232-240 | the pages at offsets 0, L, 2L, ... put together are the history, without gap or repeat, also for a defaulted limit |
| AuditedStore.PageIsSlice | memstore/store.go:232-240 | a page has the records from the offset on, at most as many as the limit says; a negative offset means the start, no limit means 50 |
| StoreTypes.HistoryOptions.Normalised | store.go:127-135 | a positive limit and a non-negative offset are kept; otherwise the limit becomes 50 and the offset 0 |
| MemStore.MemStore.constructor | memstore/store.go:57-61 | a new store is empty and valid |
| MemStore.MemStore.Get | memstore/store.go:65-77 | the stored value and whether there is one |
| MemStore.MemStore.List | memstore/store.go:80-92 | the listing, whatever order the keys come in |
| MemStore.MemStore.CommitSet | memstore/store.go:97-127 | the locked part of Set is the commit function, keeps the audit trail right and returns the event of the write, with its author and the value before |
| MemStore.MemStore.CommitDelete | memstore/store.go:144-171 | the locked part of Delete likewise, including the two no-op cases |
| MemStore.MemStore.Broadcast | memstore/store.go:248-260 | every watcher of the namespace is offered the event, nobody else |
| MemStore.MemStore.Set | memstore/store.go:96-138 | the write is committed, audited under its author with the value before, and offered to the watchers of its namespace |
| MemStore.MemStore.Delete | memstore/store.go:143-182 | the same for a deletion, audited under who deleted; a no-op deletion audits and offers nothing |
| MemStore.MemStore.Watch | memstore/store.go:187-193 | a new empty channel is registered behind the others |
| MemStore.MemStore.Unwatch | memstore/store.go:195-206 | the channel is taken out in place, the others keep their order, and it is closed; an unknown channel changes nothing |
| MemStore.MemStore.History | memstore/store.go:212-241 | the normalised page of the newest-first history |
| Channels.Channel.TrySend | memstore/store.go:255-258 | a non-blocking send queues the value or, when full, leaves the buffer as it is; the channel must be open |
| Channels.Channel.Close | memstore/store.go:202 | an open channel is closed |
| GoSlices.Append | catalog.go:91 | append writes in place when there is spare capacity and to a new array otherwise |
| GoSlices.Clone | catalog.go:89-91 | a clone holds the same elements on an array of its own |
| GoSlices.RemoveAt | provider.go:291 | the in-place removal keeps all other elements in order |
| GoSlices.SiblingsShareBacking | catalog.go:89-90 | without the clone, two appends to a slice with spare capacity overwrite each other |
| Catalog.WalkStruct | catalog.go:67-130 | the walk appends exactly what the specification lists or stops with its error, writing to no existing array, so recorded index paths keep their contents |
| Catalog.VisitField | catalog.go:69-127 | the same for one field |
| Catalog.BuildCatalog | catalog.go:47-64 | the catalog or the error of the specification |
| CatalogProperties.CatalogIsExact | catalog.go:33-64 | building fails exactly when a reachable field has an unknown tag value or is a dynamic leaf of unsupported type; otherwise the catalog has exactly the reachable dynamic leaves, in strict index-path order, no path a prefix of another |
| CatalogProperties.WalkFailsOnBadFields | catalog.go:93-118 | the same for the failures of a walk that has reached some field |
| TagMeanings.BadFieldMeans | catalog.go:93-118 | a field is rejected exactly if its dyn tag is none of the five known texts nor empty, or if it is a leaf tagged live, recreate-on-change or restart-required into whose type no text can be parsed |
| TagMeanings.BuildReportsTheFirstBadField | catalog.go:47-118 | the error names the first bad field in index-path order by its key and tag, and says which of the two it is; anything but a struct is rejected as such |
| TagMeanings.ReachableMeans | catalog.go:69-113 | the walk gets to a field exactly if it and every field on the way is exported and not named "-", and no struct on the way is tagged secret |
| TagMeanings.ManagedMeans | catalog.go:137-148 | a leaf is managed exactly if the walk gets to it and its tag is one of the three dynamic ones |
| TagMeanings.PointersAreLookedThrough | catalog.go:74-77 | a pointer to a struct nests like the struct; time.Time and a pointer to a pointer do not |
| TagMeanings.TagsAreTrimmed | catalog.go:93 | blank margins of a dyn tag do not count |
| TagMeanings.DescriptorsFollowTheTags | catalog.go:115-127 | each descriptor has the strategy of its dyn tag, the trimmed description, the key and the type of its field |
| TagMeanings.KeyIsDotted | catalog.go:84-87 | a key is the key names along the path, joined with dots |
| CatalogProperties.KeysAreInjective | catalog.go:79-87 | with distinct, dot-free sibling names no two fields of the whole tree have the same key |
| CatalogProperties.IndexByKey | provider.go:162-165 | the loop that fills the table by key |
| CatalogProperties.TableInvertsCatalog | provider.go:467 | with such names the table finds for each key the descriptor of the one field it names |
| TagMeanings.TableFollowsTheTags | provider.go:467 | with such names the table finds for every managed leaf's key the strategy of that leaf's own tag, so a change is fanned out exactly if the tag is recreate-on-change |
| TagMeanings.RecreatesFollowsTheLastTag | provider.go:162-165 | for any names: a key's changes are fanned out exactly if the last managed leaf with that key is tagged recreate-on-change |
| TagMeanings.OtherKeysAreNeverFannedOut | provider.go:467 | a change of a key that no managed leaf has is never fanned out |
| ConfigTypes.JsonTagNamesTheKey | catalog.go:171-181 | a json tag's first segment names the key; an empty one leaves the lower-case field name |
| TagMeanings.UntaggedNamesAreLowered | catalog.go:171-175 | without a json tag the key name is the field name with A-Z in lower case |
| FieldValues.ParsingMirrorsSupport | catalog.go:150-167 | a parsed value fits the field's type, and there is none for an unsupported type |
| FieldValues.SupportIsExact | catalog.go:150-167 | a type is on the list of supported types exactly if some text can be parsed into it |
| FieldValues.IntegerOverrideIsExact | catalog.go:236-248 | an integer override takes effect as written exactly when the type can hold it |
| FieldValues.NarrowIntegerWraps | catalog.go:236-248 | 300 in an int8 field becomes 44 |
| FieldValues.StringListOverride | catalog.go:257-265 | a plain list written with commas reaches a []string field unchanged |
| LeafReadings.OverriddenLeafReads | catalog.go:215-265 | in a snapshot an overridden string leaf reads as the stored text; a bool, duration or float leaf as what its decoder reads, and as if nothing was stored exactly if the decoder rejects the text |
| LeafReadings.OverriddenNumbersAndListsRead | catalog.go:236-265 | an overridden integer leaf reads as the number of its type that agrees with the decoded one in the low bits; a list as its JSON decodes or as its plain items |
| LeafReadings.UnsetReads | catalog.go:306-330 | a leaf without an override that parses reads as in the base, or behind a pointer as zero if another override opened it |
| LeafReadings.ZeroLeaves | catalog.go:203-205 | zero is "", false, 0 or no items, kind by kind |
| StringLists.SpacesAreUnicodes | catalog.go:282 | blanks are the 25 white space characters of Unicode |
| StringLists.JsonTextIsDecoded | catalog.go:283-288 | a text that starts with a bracket, blanks aside, is decoded as JSON without its blank margins, errors included |
| StringLists.BlanksAfterCommasAreDropped | catalog.go:293-298 | "a, b" reads as two items without blanks |
| StringLists.ParseStringSlice | catalog.go:281-301 | the parser computes the list the text denotes |
| StringLists.CommaListRoundTrip | catalog.go:290-300 | plain items written with commas, any blank margins and blank pieces read back as the same list, unless the text looks like JSON |
| StringLists.JoinedLooksLikeJson | catalog.go:282-283 | a plain join looks like JSON exactly when its first item starts with a bracket |
| StringLists.CommaListIsStable | catalog.go:290-300 | the comma form yields trimmed, comma-free, non-empty parts; writing and reading them again changes nothing unless the first starts with a bracket |
| OverrideApplication.NavigateField | catalog.go:199-211 | following an index path allocates the nil pointers on the way, ends at the path's place, and writes only into cells of the copy |
| OverrideApplication.ApplyOverrides | catalog.go:306-330 | nothing that existed before is written to; every leaf of the result reads as expected, now and after any later allocation; the rejected overrides are reported |
| OverrideApplication.RejectedIsExact | catalog.go:316-322 | each descriptor adds exactly its own report if its override is present and does not parse, and nothing otherwise, so the report is complete, in catalog order, and once per descriptor |
| OverrideApplication.RejectedKeysAreDistinct | catalog.go:316-322 | with distinct keys no key is reported twice |
| SharedPointers.PointersAreWrittenThrough | catalog.go:199-211 | an override written into a copy of any base leaves what existed before alone if and only if its path meets no pointer (or the value was there already); through a pointer the base itself reads the override afterwards |
| Snapshots.LeafwiseMeaning | catalog.go:306-330 | leaf by leaf: the parsed override if the leaf is managed and its override is present and parses, else the base leaf; behind nil pointers, zero if an override opened them and nothing otherwise |
| Snapshots.PointerFreeMeaning | catalog.go:303-305 | without pointers every leaf is overridden or as in the base; unmanaged leaves are as in the base |
| Snapshots.RestartFieldsAreOverwritten | catalog.go:142-143 | a restart-required leaf takes its override in the live snapshot |
| Snapshots.BuiltCatalogFits | catalog.go:120-127 | every index path of a built catalog leads to a leaf of the recorded type |
| Snapshots.RebuildReads | provider.go:375-383 | a snapshot has every leaf of the type and nothing else, each as the leafwise meaning expects it |
| Snapshots.PublishedIsRebuilt | provider.go:375-383 | a published snapshot reads, now and later, as the one its listing gives rise to |
| LiveProvider.New | provider.go:137-202 | a bad catalog or a failed first List is returned as an error; otherwise the Provider starts with a snapshot of the listing, count 1 and no error |
| LiveProvider.Provider.Refresh | provider.go:367-394 | on success a new snapshot of exactly the listing is published and counted; on failure only the error is recorded; every snapshot ever published still reads as it did |
| LiveProvider.Provider.ReadStats | provider.go:313-327 | the counters, with a missing error read as empty |
| LiveProvider.Provider.RequestRefresh | provider.go:351-357 | exactly one token waits afterwards |
| LiveProvider.Provider.NotifySubscribers | provider.go:475-487 | every subscriber is offered the event |
| LiveProvider.Provider.HandleChangeEvent | provider.go:449-470 | refresh first; subscribers are offered the event only after a successful refresh and only for a recreate-on-change key |
| LiveProvider.Provider.Handle | provider.go:409-438 | one round of the loop: one refresh with its count, time and error, and a fan-out exactly for a recreate-on-change event whose refresh succeeded |
| LiveProvider.Provider.EventLoop | provider.go:404-440 | over any inputs up to the one that stops it: the count grows by the good listings, the snapshot is that of the last good one, the recorded error that of the last refresh, earlier snapshots stay, and every subscriber is offered, in order, exactly the recreate-on-change events whose refresh succeeded |
| LiveProvider.Provider.Subscribe | provider.go:278-283 | a new empty channel is registered behind the others |
| LiveProvider.Provider.Unsubscribe | provider.go:285-296 | the channel is taken out in place and closed; one that Close has taken out already is left alone |
| LiveProvider.Provider.CloseSubscribers | provider.go:336-341 | every registered channel is closed once and the list emptied |
| Polling.PollLoop.Tick | pollingwatcher.go:98-165 | a failed list changes nothing; the first good one is a silent seed; afterwards exactly one event per key whose presence or value differs, with the right values, in any key order; a cancelled tick stops after as many true differences as were taken, and only if there are more |
| Polling.PollLoop.Run | pollingwatcher.go:87-167 | the loop completes every round before the one that cancels it, and closes its channel then; replaying what the completed rounds sent onto the seed follows the store, and the rest are differences of the interrupted round; each event's old value is what its receiver has for the key just before it |
| Polling.FollowsOn | pollingwatcher.go:125-164 | one more tick keeps that: every key reads as in the new listing (absent as ""), and the maps are equal exactly if no announced key is now stored empty |
| Polling.EmptyValueReadsAsDeletion | pollingwatcher.go:128-135 | a key that appears with an empty value leaves a replaying receiver without it |

## Left out

- The Postgres store: its transactions, trigger, NOTIFY and reconnect run in Postgres and pgx.
- A Provider on top of a polling watcher: changes before the seed are absorbed silently, so convergence does not hold there; the replay property is proved instead.
- Reflection, strconv, time.ParseDuration and encoding/json: struct types are finite trees, and the decoders are parameters.
- Dynamic tags on fields that are pointers to scalars, and on slices of named string types: setting them panics in the program.
- Struct types that are recursive through pointers, and a base config with non-nil nested struct pointers, whose cells a refresh would write to: the theorems about runs require a base without them.
- Lower-casing of field names outside ASCII, malformed UTF-8, and the difference between a nil and an empty slice.
- Type names in descriptors, logging, option defaults other than the subscriber buffer, and real time: a tick is a step that may happen at any moment.
- Wrap-around of the 64-bit audit ids and counters.
- Liveness proper, that a pending step is eventually taken, which is up to the scheduler: LoopProgress proves that the loop and a broadcast can always go on and come closer to their end with each step, and convergence speaks about quiet states.
- The outer part of Close: once-only execution and closing the store, which is a no-op for the in-memory store.
- LiveProvider.New: requires that no dynamic field is a pointer and that nested pointers in the base are nil, as in the two lines above on pointers.
- LiveProvider.Provider.EventLoop: runs over a finite list of inputs, because the program's loop need not end, and no subscriber receives in between; in module Reload they do.
- LiveProvider.Provider.ReadStats: is one look at the fields; the three loads at different times are in ReloadTheorems.StatsAreOneSided.
- OverrideApplication.ApplyOverrides: requires nil nested pointers in the base, as above; SharedPointers.PointersAreWrittenThrough has the exact condition for a write below pointers that are not nil. It takes index paths as values, which Catalog.WalkStruct shows to be stable.
