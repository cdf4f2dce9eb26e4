# go-codex in Dafny

A Dafny model of the parts of go-codex whose behaviour cannot be read off one function body: the
concurrent ports, the lock-file compare-and-swap, application shutdown, the patch engine, the codec
combinators, the stream operators and validated-function composition. `dafny verify dfyconfig.toml`
checks everything.

## What is modelled

**Concurrent code** (`PipeHub`, `SinkPush`, `FileCas`, `AppShutdown`, `Broadcast`). Goroutines, processes
and callers are components of a state; `Action` lists their atomic steps, `Enabled` says when the
scheduler may take one, `Fire` what it does, and `Exec` runs a schedule. Every schedule is a run, so a
lemma about `Exec(acts)` is about every interleaving. A send on a closed channel and a second close are
possible steps that set `panicked`; that they never happen is proved, not assumed. After cancellation a
`select` may still take any other ready case. State fields called histories only record what happened.

* `PipeHub`: `PipePort.Connect`, with any number of inputs, sinks and stream consumers. What exactly each
  output gets while the context lives, what survives cancellation, and that a cancelled hub can always
  shut itself down. `PipeProgress`: while the context lives, from wherever the hub is, everything pushed
  and the next value or error of any input can be brought to every output. `PipeRegistration` is the port
  object before that: which channels `Connect` fixes.
* `SinkPush`: `SinkPort.Start`, `Push` and `Close` with the relay (`stream.From`) and the consuming loop
  (`stream.Drain`) inside; a buffer size of 0 is a rendezvous. `SinkClosing` says exactly what a returned
  `Close` promises, whichever call it was, and exactly when a blocked `Push` or `Close` can still move;
  `SinkDraining`, that a waiting `Close` can always come to its return; `SinkProgress`, that a push on a
  started port can always be accepted and consumed by every sink.
* `FileCas`: conditional writers as separate processes that may stop anywhere. The operations of the calls
  that were made linearize as compare-and-swap. `ConditionalWrite` holds the sequential code: the lock's
  retry loop with its timing, and the body of `WriteBytesIfMatch` on a disk object, which answers as that
  same compare-and-swap.
* `AppShutdown`: `Go`, `OnShutdown`, `Shutdown` and the hook loop; its statements speak of the schedule's
  own calls (`Registered`, `FailedAtJoin`, `HookOutcomes`). `ShutdownProgress`: what a `Shutdown`
  can be waiting for, and that it can always come to its return.
* `Broadcast`: `BroadcastHub`; leaving all other subscribers out of a run gives a run again, in which the
  remaining one has the same channel. `BroadcastProgress`: from any state of an idle hub a value can be
  taken and offered to everyone subscribed, and the hub can always come to its end.

**Patches** (`DeepMerging`, `DottedPatch`, `HeapMerge`, `FlatPatches`). Wire values are trees
(`Wire.Json`). The merge is first a function with its algebra; then the loops of the source over maps in
arbitrary order are proved equal to it; then `GoHeap` does the same on a heap of cells, where sharing and
in-place update are visible: `DeepMerge` writes only cells of `dst`, `ApplyDottedPatch` writes none that
existed before. `FlatPatches` is `ApplyPatch` over codecs: what a struct decodes to after the merge.

**Codecs** (`Codecs`, `CodecShapes`, `CodecLoops`, `CodecRoundTrip`, `CodecLaws`, `UnionLaws`). The
combinators are a syntax tree, `Encode` and `Decode` its interpreters; `CodecShapes` says of each
combinator what it puts on the wire, what it takes from it and with which error it fails, in terms of its
parts alone. `Sound` collects the side conditions node by node, and `RoundTrip` shows that every sound
nesting decodes what it encodes. `CodecLaws` and `UnionLaws` show for each combinator with a side
condition which values are lost without it (for shared field names by an example, for the others exactly;
for tagged unions, over structs), and `CodecLaws` what validation and error reports amount to.
`CodecLoops` has the loops of the constructors.

**Streams** (`EventLoops`, `SlidingWindows`, `Zipping`, `Buffering`, `Debouncing`, `Routing`). An operator
goroutine is a method that runs a schedule of select cases; a case that is not ready does nothing, so any
list of steps is a schedule. The methods return what was emitted, and their contracts compare it with what
the source delivered (`Taken`). Steps carry the clock: `Buffering.Flushes` and `Debouncing.Emitted` say
which step of a schedule emits which values, the loops are proved to emit just that, and the lemmas about
these functions relate emission times to the arrival times of the values. `EventLoops.EndsAt` says where a
loop ends: a done context ends it at once, and what came out is what the steps before that give.

**Validated functions** (`Forge`): `Apply`, `Compose`, `Map`, `Filter`, `Reduce`.

## Where the code and its documentation differ

The model follows the code.

* `App.Shutdown` does not wait for every goroutine: `Go` looks at the context before it adds to the
  WaitGroup, so a `Go` caught in between starts after the wait (`LateGoroutineOutlivesShutdown`). It waits
  for exactly those added before the wait was over (`WaitedForIff`).
* `BroadcastHub` with buffer 0 does not block until a subscriber reads: it drops the value unless a
  reader is already waiting (`ZeroBufferDrops`). Not all channels are closed when the hub exits:
  exactly those subscribed at that moment are (`ClosedAtExit`). One that was unsubscribed before, or
  subscribed after, stays open (`UnsubscribedIsLeftOpen`, `LateSubscriberIsLeftOpen`), and for good
  (`OrphanNeverCloses`).
* `SinkPort.Close` is documented to block until the drain and all adapters have finished. A second call
  returns at once while the first still waits, and so does a call before `Start`
  (`SecondCloseReturnsEarly`, `EarlyCloseStopsNothing`). A returned `Close` guarantees delivery exactly when
  it found the port in push mode or the drain had already finished (`CloseGuaranteesIff`).
* A blocked `Push` does not always progress once the context given to `Start` has ended, because the drain
  no longer consumes. On a full channel it waits until its own context ends, and a `Close` waits for it
  (`PushOutlivesDrain`); `StuckIff` says exactly when.
* Every struct can be a variant of a tagged union when encoding, but one that is strict and does not
  declare the tag never decodes (`StrictVariantIsLost`, `StrictVariantNeverDecodes`). A value of a struct
  variant comes back exactly when the struct is lenient or declares the tag, and a declared tag field holds
  what the variant's name decodes to (`StructVariantTripsIff`).
* `ApplyPatch` is described as overwriting top-level keys, but its merge descends (`EntrySurvives`). It sets
  a field to the carried value exactly when nothing of the old value's encoding shows
  (`ApplyPatchSetsFieldsIff`); a map-valued field becomes the union of the entries, the patch's map exactly
  when that has all the old keys (`MapFieldUnites`).
* `ApplyDottedPatch` iterates over a Go map, so the result of a patch depends on the iteration order unless
  its entries are pairwise compatible; then, and only then, it does not (`OrderDoesNotMatterIff`).
* `Buffer` is documented with a wait since the last emission; the timer starts with the first item of a
  batch (`DeadlinesDiffer`). A timer at the documented deadline flushes a waiting batch exactly when that
  item arrived at the time of the last emission (`DocumentedTimerFlushesIff`).
* `forge.Filter` and `forge.Reduce` return an element's `CollectionElementError` inside an `ApplyError`;
  `forge.Map` returns it bare.

## Model

| member | source | states |
|---|---|---|
| PipeHub.RunKeepsInv | ports/pipe_port.go:170-308 | every interleaving keeps channel capacities, the order of closing, and per producer and output the exact relation between ingested and sent items |
| PipeHub.NeverPanics | ports/pipe_port.go:223-308 | in all runs no closed channel is sent on or closed again; done is closed only after every producer has exited and every output is closed |
| PipeHub.ExactDelivery | ports/pipe_port.go:223-264 | uncancelled, each output has been sent exactly what each producer ingested, short of at most the one value still going round |
| PipeHub.LeadsByAtMostOne | ports/pipe_port.go:223-234 | an earlier output leads a later one by at most one item per producer |
| PipeHub.OutputsAgree | ports/pipe_port.go:223-234 | with no producer in mid fan-out all outputs have been sent the same multiset of items |
| PipeHub.DeliveryInOrder | ports/pipe_port.go:223-296 | in cancelled runs too, outputs get subsequences of what was ingested, later outputs subsequences of earlier ones |
| PipeHub.PushIsFifo | ports/pipe_port.go:320-327 | accepted pushes are the ingested ones followed by the waiting ones |
| PipeHub.ExitProducer | ports/pipe_port.go:245-296 | after cancellation a producer reaches its end from any position by its own steps |
| PipeHub.CloseAll | ports/pipe_port.go:298-308 | with all producers gone the closing goroutine closes every output and then done |
| PipeHub.CancelledPipeCanFinish | ports/pipe_port.go:245-308 | from every reachable cancelled state the hub can go on to close done although nobody receives |
| PipeHub.HistoriesAreSchedule | ports/pipe_port.go:245-296 | the items counted as pushed and as ingested are those of the Push calls and of the receives that happened, in order |
| PipeHub.PushAcceptedIff | ports/pipe_port.go:320-327 | a Push is accepted exactly while fewer accepted items than the buffer size have not been taken |
| PipeHub.DeliveryBlockedIff | ports/pipe_port.go:223-234 | a fan-out is held up at an output exactly while as many items as the buffer holds were sent there and not received |
| PipeProgress.PushesCanArrive | ports/pipe_port.go:223-296 | from every state of a connected hub whose context lives, steps of producers and consumers alone bring every pushed item to every consumer, with no producer left in mid fan-out and nothing queued |
| PipeProgress.NextPushCanArrive | ports/pipe_port.go:281-327 | from every such state one more Push can be accepted and its item be received by every consumer after all the others |
| PipeProgress.InputCanArrive | ports/pipe_port.go:245-268 | any value an open input offers can be taken from every such state and brought to every output, its producer ready for the next |
| PipeProgress.InputCanEnd | ports/pipe_port.go:245-279 | the producer of an ended input can exit while the hub goes on working |
| PipeProgress.ErrorCanArrive | ports/pipe_port.go:235-279 | an error of an input can be taken and is offered to every sink, which gets it exactly if its error channel has room |
| PipeRegistration.PipePort.constructor | ports/pipe_port.go:85-101 | a buffer size that is not positive becomes 8; nothing is registered or connected |
| PipeRegistration.PipePort.InputPort | ports/pipe_port.go:124-133 | one port per name |
| PipeRegistration.PipePort.OutputPort | ports/pipe_port.go:138-147 | one port per name |
| PipeRegistration.PipePort.Stream | ports/pipe_port.go:336-342 | a fresh channel each time; after Connect it is not among the served ones |
| PipeRegistration.PipePort.Connect | ports/pipe_port.go:170-221 | the first call fixes producers and outputs as registered, a later call changes nothing |
| SinkPush.RunKeepsInv | ports/sink_port.go:307-420 | every interleaving keeps the locking, the closing order and the contents of the pipeline at every sink |
| SinkPush.NeverPanics | ports/sink_port.go:360-420 | no Push sends on the closed channel and no channel is closed twice |
| SinkPush.NothingLost | ports/sink_port.go:307-345 | uncancelled, consumed, queued, current, held and pushed items of every sink concatenate to the accepted pushes |
| SinkPush.CloseDelivers | ports/sink_port.go:403-420 | when the ending Close has returned every sink has consumed exactly the accepted pushes in order |
| SinkPush.CancelledDelivery | stream/sink.go:25-63 | cancelled, a sink consumes a subsequence of the accepted pushes |
| SinkPush.ClosedIsFinal | ports/sink_port.go:385-401 | after Close no push is accepted |
| SinkClosing.SecondCloseReturnsEarly | ports/sink_port.go:403-420 | a run in which a second Close returns while an accepted item has not reached any sink |
| SinkClosing.EarlyCloseStopsNothing | ports/sink_port.go:403-420 | a run in which a Close before Start has returned and a later push is accepted and not delivered |
| SinkClosing.CloseGuaranteesIff | ports/sink_port.go:403-420 | a returned Close means delivery in all uncancelled runs exactly when its call found push mode, or the drain had already finished, or there is no sink |
| SinkClosing.StuckIff | ports/sink_port.go:385-420 | while a push waits for room or a Close for the drain, cancelled or not, nothing can move exactly when relay and drain are gone under a full open channel |
| SinkClosing.NeverStuck | ports/sink_port.go:385-420 | in uncancelled runs some goroutine of the port can move then |
| SinkClosing.PushOutlivesDrain | ports/sink_port.go:385-401 | a run in which nothing but its own context can end the wait of a Push, which keeps Close from starting |
| SinkDraining.DrainCanFinish | ports/sink_port.go:307-345 | from every state with the push channel closed, cancelled or not, the port's own steps can finish the drain, whatever is still on its way |
| SinkDraining.CloseCanReturn | ports/sink_port.go:403-420 | from every state in which a Close waits the port's own steps can bring it to its return, with everything delivered in an uncancelled run |
| SinkPush.TakeKeepsFlow | stream/source.go:55-78 | the relay takes an item without disturbing what any sink will get |
| SinkProgress.AcceptedIsSchedule | ports/sink_port.go:385-401 | the accepted items are those of the Push calls whose send happened, in that order |
| SinkProgress.AcceptedCanBeConsumed | ports/sink_port.go:307-345 | from every uncancelled state of a started port not yet closed to pushes, the relay, drain and adapters alone can bring everything accepted to every sink |
| SinkProgress.WaitingPushCanBeAccepted | ports/sink_port.go:385-401 | a Push that has been let in can be accepted from every state of an uncancelled run, whatever fills the buffers |
| SinkProgress.NextPushCanArrive | ports/sink_port.go:385-401 | the next Push of any caller can be accepted and consumed by every sink |
| SinkProgress.StartTakesOver | ports/sink_port.go:360-377 | the first Start that gets the lock starts the port, any other changes nothing |
| SinkProgress.CloseCanComplete | ports/sink_port.go:407-420 | a Close that finds the port started and the lock free can do all of its work and return, cancelled or not, with everything accepted delivered in an uncancelled run |
| FileCas.RunKeepsInv | ports/file_backend.go:368-444 | the lock discipline and the history of effects hold after every step of any number of processes, crashes included |
| FileCas.MutualExclusion | ports/file_backend.go:332-344 | at most one process is between creating and removing the lock file |
| FileCas.RenameMatches | ports/file_backend.go:388-439 | the file a rename replaces has, at that instant, the strong or the weak tag its writer asked for |
| FileCas.Linearizable | ports/file_backend.go:368-444 | the operations form a legal sequential compare-and-swap history ending in the actual file; each is the operation of a call that was made, none is in it twice, every returned answer is in it once and no failed call at all |
| FileCas.RealTimeOrder | ports/file_backend.go:368-444 | that history respects the order of calls that do not overlap |
| FileCas.SameTagTwice | ports/file_backend.go:388-397 | two commits for one tag have a commit between them that left a file with that tag |
| FileCas.StrongTagMeansRestored | ports/file_backend.go:388-389 | with a content-identifying strong tag the very content was restored in between |
| FileCas.NeverTorn | ports/file_backend.go:421-439 | after any legal history the file is the initial one or the whole data of one commit |
| FileCas.FileIsSomeonesData | ports/file_backend.go:421-439 | in every run, crashes included, the file is the initial one or the whole data some call was made with, never that of a dry run |
| FileCas.StaleLockFreezesFile | ports/file_backend.go:332-365 | a call that stops while holding the lock, or whose removal of it fails, freezes the file for conditional writers |
| FileCas.CasIs | ports/file_backend.go:388-439 | the compare-and-swap of the history: a present file with the strong tag, or with the weak one if it could be read, is replaced unless the run is dry; in every other case nothing changes |
| FileCas.SoloCall | ports/file_backend.go:368-444 | from every state with the lock free a new call can run to its return as exactly one compare-and-swap, leaving the lock free |
| ConditionalWrite.BackoffRange | ports/file_backend.go:324-363 | the backoff stays within 10 and 200 ms and reaches the maximum |
| ConditionalWrite.RoomForAnother | ports/file_backend.go:324-328 | an attempt that begins before the default bound is not the thirtieth |
| ConditionalWrite.AcquireConditionalWriteLock | ports/file_backend.go:332-365 | at most 30 attempts, at the times that doubled backoff, drawn jitter and lateness give; every attempt but the last found the file, before 5 s and the context deadline, and with the context open; the answer is timed out exactly when the last one found the file at or after the earlier of the two, and the other answers each exactly for their reason; the last attempt under 300 ms past the deadline when its timer was not late |
| ConditionalWrite.ScheduleIs | ports/file_backend.go:324-363 | the attempts in plain numbers: waits of 10 ms doubled up to 200 ms, plus a number drawn from 0 to half of that, plus lateness |
| ConditionalWrite.WaitBounds | ports/file_backend.go:324-363 | every wait takes 10 to 300 ms beyond the timer's lateness |
| ConditionalWrite.EndsSoon | ports/file_backend.go:332-365 | there are at most 29 timely attempts, whatever the jitter |
| ConditionalWrite.Disk.WriteBytesIfMatch | ports/file_backend.go:368-444 | one compare-and-swap or an unchanged file; it fails exactly when the lock is held or a step it needs fails; lock and temporary file removed on every path on which their removal does not fail |
| ConditionalWrite.Disk.ReplaceIfMatch | ports/file_backend.go:375-443 | the part under the lock is one compare-and-swap, or exactly when a step it needs fails a failure that changes nothing |
| AppShutdown.RunKeepsInv | app/app.go:117-269 | counter, hook order and collected errors agree after every step of OnShutdown, Go, failures and Shutdown calls |
| AppShutdown.HooksStartInReverse | app/app.go:195-260 | the hooks started are a prefix of the hooks of the accepted OnShutdown calls, read backwards, after all waited-for goroutines are gone |
| AppShutdown.ShutdownResult | app/app.go:195-269 | when the teardown is over the hooks of all accepted OnShutdown calls have run in reverse order, and every Shutdown call returns the errors of the goroutines that had failed by the join, in that order, followed by those of the failed hooks in run order |
| AppShutdown.HistoriesAreSchedule | app/app.go:117-269 | registered hooks, failures and hook outcomes are those of the calls that happened, in order |
| AppShutdown.AcceptedIff | app/app.go:195-205 | an OnShutdown call that has the lock registers its hook after all others exactly when it finds the context live |
| AppShutdown.OnShutdownRegisters | app/app.go:195-205 | whenever the hook lock is free OnShutdown can be called, and registers its hook after all others exactly when the context lives |
| AppShutdown.StartedIff | app/app.go:117-125 | a Go call starts its goroutine exactly when it finds the context live |
| AppShutdown.NoHookIsMissed | app/app.go:195-205 | after the snapshot no hook is accepted, so an accepted hook is always in it |
| AppShutdown.FailureCancels | app/app.go:129-138 | a failing goroutine cancels the app |
| AppShutdown.LateGoroutineOutlivesShutdown | app/app.go:117-125 | a run in which a goroutine still runs after Shutdown returned |
| AppShutdown.WaitedGoroutineIsGone | app/app.go:234-239 | the goroutines waited for are gone before a hook starts and when a Shutdown call returns |
| AppShutdown.AddedInTimeIsGone | app/app.go:117-142 | a goroutine that Go added at any moment before the wait was over is waited for, and gone when a hook starts or a Shutdown call returns |
| AppShutdown.AddedTooLateIsMissed | app/app.go:117-142 | one that was not added by then is never waited for |
| AppShutdown.WaitedForIff | app/app.go:234-239 | the goroutines waited for are exactly those added in time |
| ShutdownProgress.BlockedIff | app/app.go:234-243 | a begun teardown has no step of its own exactly while it waits for a goroutine that has not exited or for an OnShutdown call that holds the hook lock |
| ShutdownProgress.ShutdownCanReturn | app/app.go:234-271 | from every state in which a Shutdown has begun it can return once the goroutines that are there end; nothing new need happen |
| ShutdownProgress.ShutdownCanBeCalled | app/app.go:234-271 | from every state of the app a call of Shutdown can return, once the goroutines that are there end |
| AppShutdown.FailureIsCollected | app/app.go:126-142 | a running goroutine can fail at any time; its error is collected after all earlier ones, the app is cancelled and the goroutine exits |
| AppShutdown.ReversedAt | app/app.go:246-247 | the run order is the registration order read backwards |
| AppShutdown.RunHooks | app/app.go:245-260 | the loop starts every hook in that order, goes on past failures and collects exactly the failed ones |
| DeepMerging.DeepMergeAny | codex/patch.go:141-155 | the loop over the patch gives the merge for every iteration order |
| DeepMerging.MergeIdempotent | codex/patch.go:141-155 | merging the same patch twice is merging it once |
| DeepMerging.MergeIsMergePatchWithoutNulls | codex/patch.go:31-34 | without null members the merge is MergePatch of section 2 of RFC 7396 |
| DeepMerging.MergeIsMergePatchIff | codex/patch.go:31-34 | it is that on every base exactly for the patches without null members |
| DeepMerging.MergeAbsorbedIff | codex/patch.go:141-155 | a base is absorbed by a patch exactly when the patch covers all its keys |
| DeepMerging.MergeComposesIff | codex/patch.go:141-155 | patching twice is patching once with the merged patch exactly when no path has an object, then a non-object, then a partial object |
| DeepMerging.MergesCommuteIff | codex/patch.go:141-155 | two patches commute on any base exactly when all keys they share lead to compatible values, equal ones where not both are objects |
| DottedPatch.JoinSplit | codex/patch.go:102 | splitting a path loses nothing and leaves no dot in a segment |
| DottedPatch.EffectivePathIsSplit | codex/patch.go:98-130 | the keys a patch path descends through are its split, less the empty segment of a lone trailing dot |
| DottedPatch.EffectivePathsCollideIff | codex/patch.go:99-130 | two paths mean the same place exactly when they differ by the trailing dot of a one-segment path |
| DottedPatch.BuildDottedPatch | codex/patch.go:98-108 | the loop wraps the value in one object per segment |
| DottedPatch.ApplyEntryIsMerge | codex/patch.go:125-132 | one iteration merges the wrapped value over the whole document |
| DottedPatch.ApplyDottedPatch | codex/patch.go:120-134 | the loop applies every entry once, in some order, and for pairwise compatible entries gives the result of every order |
| DottedPatch.EntriesCommuteIff | codex/patch.go:125-132 | two entries may change places exactly when their wrapped values are compatible |
| DottedPatch.OrderDoesNotMatter | codex/patch.go:125-132 | for pairwise compatible entries any two iteration orders give the same document |
| DottedPatch.OrderDoesNotMatterIff | codex/patch.go:125-132 | on every base, all iteration orders agree exactly when the entries are pairwise compatible |
| DottedPatch.IndependentIsCompatible | codex/patch.go:125-132 | entries with prefix-incomparable paths are |
| DottedPatch.OverlappingPaths | codex/patch.go:125-132 | a scalar above another entry and two spellings of one path make the order show on every base, an empty object above does not |
| DottedPatch.PatchedDocument | codex/patch.go:120-155 | each patched path holds its value merged over the old one and every place beside all of them is as before |
| DottedPatch.PatchedScalar | codex/patch.go:120-155 | a patched value that is not an object is found at its path |
| HeapMerge.MergedTreeDoc | codex/patch.go:40-52 | the tree DeepMerge leaves denotes the functional merge |
| HeapMerge.SharesNothingIff | codex/patch.go:40-52 | afterwards dst shares no cell with src exactly when src brought no map where dst had none |
| HeapMerge.GoHeap.DeepMerge | codex/patch.go:40-52 | in place on dst, src and everything outside dst's cells untouched, the result the functional merge |
| HeapMerge.GoHeap.MergeEntry | codex/patch.go:41-51 | one entry of src merged, all others kept |
| HeapMerge.GoHeap.DeepMergeAny | codex/patch.go:141-155 | the functional merge, writing no cell that existed |
| HeapMerge.GoHeap.BuildDottedPatch | codex/patch.go:98-108 | the wrapped value, every wrapping cell new |
| HeapMerge.GoHeap.PatchEntry | codex/patch.go:125-132 | one entry merged into the copied map, writing no cell that existed |
| HeapMerge.GoHeap.ApplyDottedPatch | codex/patch.go:120-134 | the functional result for some order in a new map, no cell that existed changed although many are shared |
| CodecRoundTrip.CollectLookup | codex/object.go:142-165 | with distinct names an encoded object holds each present field under its name and nothing else |
| CodecRoundTrip.SlotTrips | codex/object.go:39-66 | a field decodes to the value it was encoded from, whether present, omitted or defaulted |
| CodecRoundTrip.StructTrips | codex/object.go:127-195 | structs with required, optional, default, omit-empty, omit-default and Maybe fields round trip when their fields do |
| CodecRoundTrip.PartialTrips | codex/partial.go:141-190 | partial structs round trip, absent fields staying unset |
| CodecRoundTrip.SliceTrips | codex/slice.go:10-41 | slices round trip when their elements do |
| CodecRoundTrip.StringMapTrips | codex/stringmap.go:11-45 | string maps round trip when their values do |
| CodecRoundTrip.MapOfTrips | codex/stringmap.go:140-191 | maps with encoded keys round trip when keys and values do |
| CodecRoundTrip.RekeyBack | codex/stringmap.go:149-189 | re-keying there and back restores the map |
| CodecRoundTrip.TaggedTrips | codex/union.go:10-75 | tagged unions round trip when variants ignore the tag key or write the tag themselves |
| CodecRoundTrip.UntaggedTrips | codex/union.go:127-155 | untagged unions round trip when earlier branches reject later branches' encodings |
| CodecRoundTrip.WrapperTrips | codex/nullable.go:5-27 | Nullable, Maybe, Either2, Refine and MapCodecSafe round trip under their side conditions |
| CodecRoundTrip.ValidatedTrips | codex/map.go:45-79 | MapCodecValidated round trips when its mappings invert each other |
| CodecRoundTrip.FieldRoundTrips | codex/maybe.go:147-160 | every sound field, a Maybe field and not-set included, decodes from the object it was encoded into to the value it came from |
| CodecRoundTrip.RoundTrip | codex/object.go:127-195 | every sound nesting of all the combinators decodes each value it encodes to that value |
| CodecLaws.MaybeTripsIff | codex/maybe.go:123-137 | standing alone MaybeCodec loses exactly Nothing |
| CodecLaws.NullableTripsIff | codex/nullable.go:10-25 | Nullable loses exactly values whose own encoding is null |
| CodecLaws.EitherTripsIff | codex/either.go:123-144 | a Right comes back exactly when the left codec rejects its encoding |
| CodecLaws.OmittedTripsIff | codex/omitempty.go:77-110 | an omitted field comes back exactly when its value is the one an absent key restores |
| CodecLaws.MapSafeTripsIff | codex/map.go:11-30 | MapCodecSafe brings back exactly the values its mappings lead back to |
| CodecLaws.MapValidatedTripsIff | codex/map.go:45-79 | so does MapCodecValidated, whatever its second codec accepts |
| CodecLaws.SharedNameLoses | codex/object.go:142-165 | of two fields under one name only the later one's value is kept |
| UnionLaws.StrictVariantNeverDecodes | codex/union.go:47-66 | no object tagged with a strict variant that does not declare the tag decodes |
| UnionLaws.StrictVariantIsLost | codex/union.go:21-66 | a union that encodes every value of its strict variant and decodes none |
| UnionLaws.StructVariantTripsIff | codex/union.go:21-66 | a value of a sound struct variant encodes, and comes back exactly when the struct is lenient or declares the tag and a declared tag field has the value the name decodes to |
| UnionLaws.UntaggedTripsIff | codex/union.go:127-155 | a value of an untagged union comes back exactly when the first branch that accepts its encoding, the encoding branch or an earlier one, decodes to it |
| UnionLaws.VariantMayBeLenientStruct | codex/union.go:47-66 | codecs over lenient structs that never mention the key are safe as variants |
| CodecLaws.ValidIffEncodes | codex/codec.go:49-67 | for sound codecs Validate accepts exactly what encodes |
| CodecLaws.FailuresExact | codex/object.go:141-169 | the error list is the failing fields, each once, in declaration order |
| CodecLaws.StructReportsEverything | codex/object.go:171-267 | decoding succeeds exactly with no failing field and, when strict, no undeclared key; otherwise all of them are reported |
| CodecShapes.StructDecodesIff | codex/object.go:171-267 | an object decodes exactly when no required key is absent, what is under every declared key decodes and, for StrictStruct, no other key is there |
| CodecShapes.StructDecodesTo | codex/object.go:39-66 | each field is what its key decodes to, and without the key the declared default, or the zero value where there is none |
| CodecShapes.StructErrors | codex/object.go:171-267 | the error names every absent required key and every field that does not decode with its own error, in declaration order, and for StrictStruct every undeclared key, and nothing else |
| CodecShapes.StructEncodesTo | codex/object.go:139-170 | a field writes what its value encodes to under its name; an omit-empty field that is empty and an omit-default field equal to its default leave no key; there are no other keys |
| CodecShapes.StructEncodesIff | codex/object.go:139-170 | encoding fails exactly when a field that is not omitted does not encode, and names every such field with its error |
| CodecShapes.PartialEncodesTo | codex/partial.go:149-166 | a key is there exactly when its field is set |
| CodecShapes.PartialDecodesTo | codex/partial.go:167-185 | a present key sets its field, an absent one leaves it unset |
| CodecShapes.PartialDecodesIff | codex/partial.go:167-185 | rejected exactly when what is under a declared key does not decode; every such field is named |
| CodecShapes.OtherShapesRejected | codex/object.go:171-176 | slices, maps, structs, partial structs and tagged unions reject every wire value of another shape as a type mismatch |
| CodecShapes.SliceElementwise | codex/slice.go:14-39 | slices go element by element both ways, failing with the first element that fails |
| CodecShapes.StringMapEncodesTo | codex/stringmap.go:18-28 | string maps encode entry by entry, failing with an entry that fails |
| CodecShapes.StringMapDecodesTo | codex/stringmap.go:29-43 | and decode so |
| CodecShapes.KeyedMapEncodesTo | codex/stringmap.go:149-170 | every row's encoded key is in the object and every entry is an encoded row |
| CodecShapes.KeyedMapDecodesTo | codex/stringmap.go:171-189 | every decoded key is in the map and every row is a decoded entry |
| CodecShapes.NullIsNil | codex/nullable.go:10-25 | null is the encoding of nil and decodes to it; anything else is the inner codec's |
| CodecShapes.WrappersDecode | codex/either.go:123-144 | Either takes what its left codec accepts as Left, and only what that rejects as Right; Maybe what its inner codec accepts |
| CodecShapes.ValidatedIff | codex/map.go:45-79 | MapCodecValidated lets a value through, in either direction, exactly when its mapping gives it, its first codec carries it and its second codec validates it |
| CodecShapes.TaggedEncodes | codex/union.go:18-45 | the variant's object with its name under the tag and every other key as it was, or the selection's, the unknown variant's or the variant's error |
| CodecShapes.TaggedDecodes | codex/union.go:47-66 | an object whose tag names no variant is rejected as an unknown variant, otherwise the named variant decides |
| CodecShapes.UntaggedDecodes | codex/union.go:141-152 | the first branch that accepts, and if none does every branch's error in order |
| FlatPatches.ApplyPatchMerges | codex/patch.go:69-89 | a flat patch changes exactly the fields it carries, each to what the merged encodings decode to |
| FlatPatches.ApplyPatchFails | codex/patch.go:69-89 | applying fails exactly when a side does not encode, or not to an object, or the merged object is rejected, with that error |
| FlatPatches.FlatPatchFailsIff | codex/patch.go:69-89 | a flat patch whose sides encode fails exactly when a field it carries merges into something its codec rejects; the error names exactly these fields, each with its own error |
| FlatPatches.ApplyPatchSetsFields | codex/patch.go:69-89 | the carried fields get the carried values when each old encoding is covered by the new one, nested objects included |
| FlatPatches.ApplyPatchSetsFieldsIff | codex/patch.go:69-89 | for fields of plain codecs, keyed maps included, exactly then |
| FlatPatches.MapFieldUnites | codex/patch.go:69-89 | a patched map-valued field of a struct becomes the union of the entries, and the patch's map exactly when that has all old keys |
| FlatPatches.EntrySurvives | codex/patch.go:69-89 | a patch after which an entry it does not carry is still there |
| CodecLaws.PrefixedKeysAreNames | codex/map.go:100-125 | keys are exactly the prefix followed by an accepted non-empty name, in both directions |
| CodecLoops.MapElements | codex/slice.go:14-39 | the slice loops give all elements or the first failing index |
| CodecLoops.EncodeFields | codex/object.go:139-170 | the field loop collects every error and writes exactly the present fields |
| CodecLoops.DecodeFields | codex/object.go:171-264 | setting fields one by one over the zero value gives the collected record, or all errors and undeclared keys |
| CodecLoops.MapEntries | codex/stringmap.go:18-43 | the map loops give all entries or some failing entry's error, whatever the order |
| CodecLoops.MapRows | codex/stringmap.go:149-189 | the keyed loops give the re-keyed map; the order shows only if two entries claim one key |
| CodecLoops.TryBranches | codex/union.go:141-152 | the first accepting branch, or all errors in order |
| CodecLoops.RefineAll | codex/refine.go:28-69 | the loop wraps one constraint after the other |
| CodecLoops.RefinedIsRestriction | codex/refine.go:28-111 | a refined codec is its base restricted to the accepted values, in both directions |
| EventLoops.DoneContextEnds | stream/time.go:31-34 | a loop that has given up no send ends exactly at the first step that sees its context done, if a channel is still open |
| EventLoops.ArrivalIs | stream/time.go:35-40 | each value counted as delivered is that of a receive before the closing, in order |
| EventLoops.ArrivalListed | stream/time.go:35-40 | every receive before the closing counts |
| SlidingWindows.WindowsAreSlices | stream/time.go:243-249 | the windows are the slices ending at each multiple of step with size items before it, in order and all of them |
| SlidingWindows.Append | stream/time.go:274-288 | one value cuts a window exactly when due and keeps the buffer a suffix of the history |
| SlidingWindows.SlidingWindow | stream/time.go:249-304 | the loop emits exactly the windows of the source, with a buffer below size plus step; it ends at the first step that sees a done context, with the windows and errors of the steps before that |
| SlidingWindows.WindowsOfShorterRun | stream/time.go:249-304 | a shorter source gives the first windows of a longer one |
| Zipping.TryEmit | stream/combine.go:324-336 | pairs the fronts until one queue is empty |
| Zipping.Zip | stream/combine.go:309-383 | the output is the pairwise combination of the first items, one queue empty and the other the remainder, for every interleaving; each source's errors come out in its order; the loop ends at the first step that sees a done context, with what the steps before that give |
| Buffering.FlushesCover | stream/time.go:16-71 | every value is in one batch, in order, except fewer than n at the end; after the source's closing every one is |
| Buffering.FlushesJustified | stream/time.go:16-71 | on the schedule's clock each flush has its reason: n values at the step that brought the last, a timer maxWait or more after its first value arrived, or the source's closing |
| Buffering.DueTimerFlushes | stream/time.go:65-66 | no value still waits after a timer step maxWait or more after its arrival |
| Buffering.DeadlinesAgreeIff | stream/time.go:8-10 | the deadline is never before the documented one, and equals it exactly when the batch's first item arrived at the time of the last emission |
| Buffering.DeadlinesDiffer | stream/time.go:8-10 | a schedule whose timer at the documented deadline flushes nothing |
| Buffering.DocumentedTimerFlushesIff | stream/time.go:8-10 | with a batch waiting, a timer at the documented deadline flushes exactly when the batch's first item arrived at the time of the last emission |
| Buffering.Collect | stream/time.go:48-54 | a value joins the batch, arms the timer if first, and flushes a full batch, as the schedule's flushes have it |
| Buffering.Buffer | stream/time.go:16-71 | the loop makes exactly the schedule's flushes, at those steps, up to the first step that sees a done context, where it ends; batches and current batch concatenate to the source so far; every error so far is forwarded |
| Debouncing.EmittedAfterQuiet | stream/time.go:80-130 | on the schedule's clock a value is emitted by a timer step d or more after it arrived, or after the closing, and before the next value arrives |
| Debouncing.EmittedInOrder | stream/time.go:80-130 | no value is emitted twice, and they come in source order |
| Debouncing.DueTimerEmits | stream/time.go:115-124 | at a timer step d or more after the latest value's arrival, or after the closing, that value goes out unless it already has |
| Debouncing.SupersededIsDropped | stream/time.go:73-75 | a value that the next one follows within d is never emitted |
| Debouncing.Debounce | stream/time.go:80-130 | the loop emits exactly the schedule's emissions at those steps, up to the first step that sees a done context, where it ends; the timer armed exactly with a pending value; when it ends by itself the source's last value went out last |
| Routing.FirstAppearancesAre | stream/route.go:86-95 | the distinct keys, each of which has items |
| Routing.SplitIsPartition | stream/route.go:66-119 | splitting by key loses and duplicates nothing |
| Routing.Deliver | stream/route.go:86-100 | a new key opens and announces its stream before the item is sent |
| Routing.GroupBy | stream/route.go:55-119 | each key's stream is the source filtered to it, onKey once per key in first-appearance order, every stream closed once; the loop ends at the first step that sees a done context, the streams holding what came before; only an item whose send was given up is missing |
| Routing.CloseAll | stream/route.go:67-72 | the deferred loop closes every stream exactly once |
| Routing.GroupsHoldTheSource | stream/route.go:55-119 | the streams together hold the source |
| Routing.FirstMatch | stream/route.go:203-210 | the first matching case or none |
| Routing.IndexKeys | stream/route.go:238-246 | the index of distinct keys, or the duplicate is found |
| Routing.SwitchBy | stream/route.go:258-335 | case streams get their items, rest the others and all errors, each in order; the loop ends at the first step that sees a done context, with what came before; every case stream and rest is closed once, however the loop ends |
| Routing.SwitchHoldsTheSource | stream/route.go:258-335 | every item is on exactly one stream |
| Broadcast.LosesOnlyWhenFull | stream/broadcast.go:119-128 | a subscriber gets a subsequence of its offers, short by exactly those that found its buffer full and no reader waiting |
| Broadcast.ZeroBufferDrops | stream/broadcast.go:40-43 | without a buffer an offer with no waiting reader is lost |
| Broadcast.RunKeepsInv | stream/broadcast.go:60-139 | every interleaving keeps each channel the replay of its own history and its offers what was published since it subscribed |
| Broadcast.NeverPanics | stream/broadcast.go:87-139 | no channel is sent on after close or closed twice |
| Broadcast.SubscriberSees | stream/broadcast.go:60-139 | received and readable items are what was published while subscribed, minus the counted misses |
| Broadcast.PurgedRun | stream/broadcast.go:8-11 | leaving out of any run what the other subscribers do and what the hub does for them gives a run of a hub with one subscriber, which ends with the same channel, values, misses and closing |
| Broadcast.NonInterference | stream/broadcast.go:8-11 | runs that differ only in that leave one with the same channel |
| Broadcast.HubNeverBlocks | stream/broadcast.go:119-139 | while the hub holds the mutex its next step is always possible |
| Broadcast.ClosedAtExit | stream/broadcast.go:88-95 | at the end exactly the channels subscribed at exit are closed |
| Broadcast.OrphanNeverCloses | stream/broadcast.go:73-85 | a channel unsubscribed before, or subscribed after, the exit is never closed |
| Broadcast.UnsubscribedIsLeftOpen | stream/broadcast.go:69-95 | a run after which the hub is gone and an unsubscribed channel is open |
| Broadcast.LateSubscriberIsLeftOpen | stream/broadcast.go:52-66 | a run in which a channel subscribed after the exit is open |
| BroadcastProgress.HistoriesAreSchedule | stream/broadcast.go:60-128 | published values, current subscribers and each channel's history are those of the hub's receives, the Subscribe and Unsubscribe calls, and the offers and reads that happened, in order |
| BroadcastProgress.ValueCanBePublished | stream/broadcast.go:106-128 | from every state in which the hub is idle it can take any value and offer it once to everyone subscribed and to nobody else, and is idle again |
| BroadcastProgress.SubscriberCanGet | stream/broadcast.go:119-128 | a subscriber with room, or with a reader waiting, can get the next value |
| BroadcastProgress.MembershipCanChange | stream/broadcast.go:60-85 | while the hub does not hold the mutex anyone can subscribe, with an open, empty channel of its own, and unsubscribe, whose channel stays as it is |
| BroadcastProgress.BufferedCanBeRead | stream/broadcast.go:60-71 | what is in a subscriber's buffer can be read, in order, whatever the others do |
| BroadcastProgress.HubCanExit | stream/broadcast.go:87-95 | from wherever it is the hub can come to its end by its own steps, with every subscriber's channel closed |
| Forge.PassOrWrapApply | forge/function.go:17-26 | an error that carries a typed one comes back as it is, any other inside an ApplyError, so the result always carries one |
| Forge.ApplyGivesIff | forge/function.go:179-211 | a result comes out exactly when input and result are valid, the refinement holds and it is what is computed; otherwise the first check that fails is named |
| Forge.ComposeIsChain | forge/compose.go:42-60 | composition succeeds exactly when the chain does, with its value, and passes its errors through |
| Forge.RefinedComposition | forge/compose.go:49-60 | a refinement only restricts the input and runs first |
| Forge.ComposeAssociative | forge/compose.go:16-61 | grouping does not matter to the results |
| Forge.MapLoop | forge/collection.go:205-215 | the loop is the element-wise function |
| Forge.MapItemsAre | forge/collection.go:205-215 | all elements succeed, or the first that fails is named with its error |
| Forge.MapIsLoop | forge/collection.go:175-228 | validating the output slice again never fails and element errors come out unwrapped |
| Forge.MapFusion | forge/collection.go:175-228 | mapping a composition and composing maps succeed on the same slices with the same output |
| Forge.FusionFailsNoLater | forge/collection.go:205-215 | when they fail, the fused form blames an element no later than the staged form |
| Forge.KeptAreItems | forge/collection.go:282-284 | what a filter keeps stands at exactly the places, in increasing order, whose items satisfy its predicate |
| Forge.FilterLoop | forge/collection.go:276-287 | the loop keeps what satisfies the predicate if every element is valid, else names the first that is not |
| Forge.FilterApplied | forge/collection.go:242-301 | a failing refinement first; else the kept items, if every element is valid; else the first invalid element's error inside an ApplyError |
| Forge.ReduceLoop | forge/collection.go:355-365 | the loop is the left fold if every element is valid, else names the first that is not |
| Forge.ReduceApplied | forge/collection.go:316-378 | a failing refinement first, then the first invalid element, then an invalid accumulator, else the fold |

## Left out

* Concurrent objects as classes with goroutines: the ports, the hub, the app and the subscriber map are state machines on values, so object identity and aliasing between them are not captured (`PipePort` registration, `Disk` and `GoHeap` are classes).
* Fairness: progress is stated as "some step is enabled" or "the end can be reached", never as "eventually".
* `SinkPort.Feed` on a port in push mode, Bind after Start, and adapters that do not drain their channel.
* Unconditional writers: `WriteBytes` does not take the lock, so it is outside the compare-and-swap statements.
* Parent directories, permissions and file modes of `WriteBytesIfMatch`.
* Hook deadlines: a hook ends with or without an error; an abandoned hook function is not followed further.
* The partial result values that Go codecs return beside an error, and error message texts.
* Nil versus empty slices and maps, NaN and other values that are not equal to themselves.
* Go's static types: an ill-typed value is an encode error in the model; the zero Either, on which the source panics, is such a value.
* Which key a keyed map reports when several entries fail (StringMap names a failing one, Map only that one failed).
* Float, time and byte conversions of the primitive codecs: leaves are any pair of functions that round trip.
* Schemas, templates, dotted key codecs, EntrySlice, observers, logging and tracing.
* Error delivery to `GroupBy`'s per-key streams, which is lossy by design.
* `Throttle`, `Window`, `CombineLatest2` to `CombineLatest4`, `OfType`, `MapValues` and `MapValuesK`: easier instances of what is proved for `Buffer`, `Zip`, `Switch` and `Map`.
* Slices of a nil interface value, which forge's container codec rejects.
- Routing.SwitchBy: takes the choice function as total with results below the number of cases, which FirstMatch and IndexKeys establish for Switch and SwitchKey.
- SlidingWindows.SlidingWindow: the panics for step <= 0 and size < step are its preconditions.
- CodecLaws.NullableTripsIff: speaks of the encoding of the value referred to, given that the inner codec itself round trips.
- FlatPatches.ApplyPatchSetsFieldsIff: is exact for codecs that show every key of their encodings; for unions and converted values covering is sufficient (ApplyPatchSetsFields), but an uncovered old key may decode to nothing visible.
- FlatPatches.MapFieldUnites: speaks of shared entries whose new encodings cover the old ones; others are merged as ApplyPatchMerges says.
