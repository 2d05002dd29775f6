# FreeWheeling: verified models of the runtime protocols and data structures

FreeWheeling is a live looper. This project models the Rust layer around the native devices and
proves what its protocols and data structures promise. `dafny verify dfyconfig.toml` checks it.

Concurrent parts are step systems: a state, an action for each atomic operation of each thread,
and theorems about every finite sequence of enabled actions, that is, every interleaving.
Sequential parts are classes and methods proved against specification functions, and the
properties are lemmas about those functions. What a device, a disk or a codec answers is an
argument, so every theorem holds for every answer.

| module | models |
|---|---|
| `EventManager` | posting, the sleeping dispatch worker, pending-queue callers and shutdown |
| `MemPool` | the preallocation pool and its manager thread, in block and instance mode |
| `DiskStream` | the block pool between the audio callback and the encode thread |
| `Filenames` | hashes as hexadecimal, printed file names and their parser |
| `FileOps` | saving and renaming over a file map, with an adversary that fails operations |
| `Chains`, `ChainIterators` | block chains, the FWB2 format, the iterators and the sub-chain copy |
| `Codecs` | FLAC framing, the AU format, block decoders, the chunked file encoder |
| `PulseClock` | the pulse clock and its sync callbacks over whole runs |
| `Timebase` | bar, beat and tick in exact arithmetic |
| `Browser` | the item list, its cursors and divisions |
| `AudioRing`, `AudioFormat` | the capture and playback callbacks, their counters, buffer negotiation |
| `AudioRecovery` | who holds the DSP callback while devices fail and recover |
| `Expressions`, `Bindings` | expression splitting and evaluation, the bucketed binding table and dispatch |
| `Util`, `Wire` | shared vocabulary, integer widths, bytes and words |

## Where the code does less than its comments say

The models follow the code; each point is a theorem.

- `push_audio` looks at the free list before it drains the recycle ring, so an exhausted pool never
  recovers (`PcmOutput.PushAudio`, `PcmOutput.PushSeries`), and a pool can be exhausted
  (`DiskStream.ExhaustionIsReachable`).
- A push in flight at the stop can be accepted and never written, and only such a push
  (`StopWritesAllIff`, `LatePushIsLost`).
- `save_loop` takes a metadata file that was already there for its own leftover and removes it; it is
  atomic exactly when that path is free (`SaveLoopAtomicIff`).
- The re-check inside the rename loop returns without undoing earlier moves, so a rename of two or
  more companions to free destinations is not atomic (`RenameAtomicIff`), and one with a repeated
  extension never is (`RepeatedExtensionStrands`).
- `split_filename` can slice inside a character, although its comment excludes that; it does exactly
  when `base_len` is inside one and `base_len + 1` is not (`SplitPanicsIff`, `SplitCanPanic`).
- `get_fragment` stops at a link's end while `next_fragment` advances by a whole fragment, so a walk
  covers a chain only if its links hold whole fragments (`WalkCoversIff`).
- A block of a whole pulse or more hides turns from the sync callbacks (`FiringsBalance`,
  `OncePerCrossingIff`).
- Ticks can be negative unless a bar is a whole number of frames (`TicksInRangeIff`,
  `FractionalMeterTick`).
- The clock's addition can overflow 32 bits, which a release build wraps (`AdvanceFitsIff`).
- A move past the end of a list that ends in a division goes back to the first item
  (`MoveIsClampedIff`); `add_item` does not shift the cursor (`Browser.AddItem`).
- The frame counters outlive the ring. Frames queued when a device is activated again, and frames
  counted for a device without channels, leave them unbalanced (`AccountingIff`,
  `RecoveryUnbalances`).
- `i32::MIN / -1` in an expression aborts although the comment promises a fallback
  (`ApplyIsExactOrSaturates`).
- A literal range on the indexed parameter goes to bucket 0 and is missed by most events it accepts
  (`RangeDispatchIff`, `LetterKeysAreMissed`).
- A saved or renamed name with a dot is cut at its last dot when it is parsed again
  (`NameReadsBackIff`, `RenameReadsBackIff`).
- An empty block in the older format can be read and not written again (`RewritesIff`).
- The encode thread's branch for an error set by another thread is never taken (`EndsInErrorIff`).
- Losing every restock request empties a preallocation pool for good, and a full update queue loses
  them (`ExhaustionIsPermanent`, `MemPool.ExhaustionIsReachable`).

## Model

| member | source | states |
|---|---|---|
| `EventManager.NoLostWakeup` | src/event.rs:1428-1448 | In every reachable state of a running manager, a queued event has a poster between enqueue and flag-set, the flag, or the worker between clearing the flag and draining; a worker asleep with events queued is owed a notification |
| `EventManager.NeverLeftWaiting` | src/event.rs:1531-1545 | Once `Drop` has cleared `running`, passed the lock and notified, the worker is not asleep and not about to sleep, in any later state |
| `EventManager.ShutdownTerminates` | src/event.rs:1531-1545 | The join returns: from there on the worker can always step until it exits, and it takes at most a bounded number of steps whatever the other threads do |
| `EventManager.ShutdownCompletes` | src/event.rs:1531-1545 | From every reachable state steps of the owner and the worker reach the join with the worker gone |
| `EventManager.EventConservation` | src/event.rs:1486-1522 | With any number of drainers the queue stays within its capacity, every post is accepted, dropped and counted, or in flight, and accepted events are as a multiset those queued, in a batch, or dispatched |
| `EventManager.NoEarlyDrop` | src/event.rs:1486-1501 | While the manager runs, no event is dropped before a full queue of them has been accepted; with no more posts than the queue holds none is |
| `EventManager.PostAcceptedIff` | src/event.rs:1493-1501 | In every reachable state a post that has seen the manager running is dropped if and only if the queue is full, and otherwise it is the newest queued and accepted |
| `EventManager.AcceptedWerePosted` | src/event.rs:1486-1522 | What is accepted was posted, each event at most as often as it was, and only what was dropped is missing |
| `EventManager.QueuedAreDelivered` | src/event.rs:1428-1448 | From every reachable running state with events queued, steps of the worker and of posters that have already enqueued deliver its batch and then the whole queue in order |
| `EventManager.CallerDelivers` | src/event.rs:1518-1522 | In every reachable state an idle caller of `process_pending` can drain the queue and deliver it in order |
| `EventManager.NothingAfterStop` | src/event.rs:1440-1446 | Once the manager has stopped the worker takes no further batch and no event is accepted but those whose posters had seen it running |
| `EventManager.WorkerSleeps` | src/event.rs:1428-1448 | The worker does not spin: from every reachable running state its own steps lead to sleep |
| `EventManager.DispatchInPostOrder` | src/event.rs:1359-1396 | With a single drainer events are dispatched in the order they were accepted, none skipped |
| `EventManager.WakeInvRuns` | src/event.rs:1415-1466 | The wake-up invariant survives every run of every mix of threads |
| `EventManager.RankRuns` | src/event.rs:1428-1466 | During shutdown the worker's steps in any run come closer to its exit, and no step of another thread undoes that |
| `EventManager.BookRuns` | src/event.rs:1359-1396 | Every run keeps the books of posted, dropped, queued and dispatched events balanced |
| `MemPool.SlotsConserved` | src/mem.rs:171-236 | Ready instances, restocks owed and lost restocks always total the initial stock, so the ready queue never overflows |
| `MemPool.ExhaustionIsPermanent` | src/mem.rs:218-247 | From a reachable state in which every restock was rejected, or nothing is ready, none is owed and none can be asked of a live manager, no run ever takes an instance again |
| `MemPool.ExhaustedIffAllLost` | src/mem.rs:171-247 | While the manager lives, the pool is exhausted exactly when every slot was lost to a rejected restock |
| `MemPool.ExhaustionIsReachable` | src/mem.rs:218-247 | Every pool can get there with its manager alive: a run from the start that fills the update queue and then loses the whole stock |
| `MemPool.RecoverableIff` | src/mem.rs:136-329 | Some later run makes an instance ready if and only if one is ready, the manager owes one, or a live manager is about to be asked for one; a manager once dropped never comes back |
| `MemPool.Refill` | src/mem.rs:288-329 | A schedule of manager steps and pending requests that makes an instance ready again from any state that is not exhausted |
| `MemPool.InstancesNeverShared` | src/mem.rs:171-329 | Every instance made is in exactly one place (ready, in the worker's hand, held, awaiting deletion, recycled, gone), so none is handed out twice |
| `MemPool.BlockModeReuses` | src/mem.rs:288-329 | In block mode nothing is destroyed, and no more instances are made than the initial stock plus the peak held or awaiting deletion plus those holders dropped themselves |
| `MemPool.DeletedIsReclaimed` | src/mem.rs:271-306 | From every reachable state with a live manager and room in its queue, a deletion and manager steps recycle a held instance in block mode and destroy it otherwise |
| `MemPool.DeleteKeepsIff` | src/mem.rs:271-286 | A deletion leaves the instance with its holder if and only if the manager is gone or its queue full |
| `MemPool.RestockReuses` | src/mem.rs:307-329 | In every reachable state a restock makes the last recycled instance ready and no new one, if the pool is in block mode and has one; otherwise it makes exactly one |
| `MemPool.DroppedManagerIsGone` | src/mem.rs:136-152 | Once the manager is dropped no request reaches it, its queue only shrinks, and every caller that still owes a request loses its slot |
| `MemPool.SlotRuns` | src/mem.rs:288-329 | Every interleaving keeps the slot count |
| `MemPool.PlaceRuns` | src/mem.rs:271-329 | Every interleaving keeps each instance in exactly one place |
| `DiskStream.PoolConserved` | src/file_streamer.rs:51-91 | Free, held, queued, worker-held and recycled blocks always total the pool, so the full-ring branch never runs and no block is lost |
| `DiskStream.WrittenIsPrefix` | src/file_streamer.rs:311-429 | Whatever the disk does, the frames in the file are a prefix of the frames accepted |
| `DiskStream.FailedWriteKeeps` | src/file_streamer.rs:394-416 | A write that fails after some frames leaves exactly those in the file, still a prefix of what was accepted |
| `DiskStream.CleanStopWritesAll` | src/file_streamer.rs:343-392 | If no push was in flight at the stop and the encoder finished without error, every accepted frame is in the file |
| `DiskStream.StopWritesAllIff` | src/file_streamer.rs:51-91 | A stop requested in a reachable WRITING state is followed by the writing of every accepted frame, in every run that ends without error, if and only if no push was in flight there or the encoder had already failed |
| `DiskStream.LossFollows` | src/file_streamer.rs:343-392 | From every such state with a push in flight and a working encoder some run ends without error and leaves an accepted frame unwritten |
| `DiskStream.LatePushIsLost` | src/file_streamer.rs:343-392 | A run from the start that ends without error and loses an accepted frame |
| `DiskStream.EndsInErrorIff` | src/file_streamer.rs:311-392 | The encode thread ends in error if and only if an operation it depends on failed; then the status is the error status until the finalize, otherwise it is idle and the file is there; no other thread sets the error status |
| `DiskStream.ErrorIsReported` | src/file_streamer.rs:380-391 | After a failure the last step sets the error status, and the file is left only if its removal failed |
| `DiskStream.StreamsFromStart` | src/file_streamer.rs:51-91 | With an encoder that keeps up, any number of blocks of any contents is accepted and written, none dropped |
| `DiskStream.PcmOutput.PushAudio` | src/file_streamer.rs:51-91 | With the other threads running between its operations, a push of at least one frame succeeds exactly when the status was WRITING, the shapes fit and the free list was non-empty on entry; what it accepts and which counters move |
| `DiskStream.PcmOutput.PushSeries` | src/file_streamer.rs:64-71 | Exhaustion is permanent: after the free list was found empty every later push of audio fails, however many blocks come back |
| `DiskStream.ExhaustionIsReachable` | src/file_streamer.rs:64-91 | The free list can run empty while WRITING: pushes from the start without an encoder step use up the pool |
| `Filenames.EncodeHash` | src/core_persistence.rs:110-116 | The loop prints the hash as upper-case hexadecimal pairs |
| `Filenames.DecodeHash` | src/core_persistence.rs:118-136 | The loop parses exactly strings of 32 hexadecimal digits |
| `Filenames.DecodeEncode` | src/core_persistence.rs:110-136 | Decoding inverts encoding for every 16-byte hash |
| `Filenames.EncodeDecode` | src/core_persistence.rs:118-147 | Decoding accepts exactly 32 hex digits of either case, and encoding after it is upper-casing |
| `Filenames.EncodedAt` | src/core_persistence.rs:110-116 | Each byte is printed as its two upper-case digits, the high one first |
| `Filenames.DigitsAre` | src/core_persistence.rs:138-147 | The digits by their letters, in either case |
| `Filenames.SaveableStub` | src/core_persistence.rs:46-60 | The loop builds the sanitised file name |
| `Filenames.StubSpellsName` | src/core_persistence.rs:46-60 | A name without separators is printed as it is after a hyphen, an absent or empty one not at all |
| `Filenames.SplitUndoesStub` | src/core_persistence.rs:77-108 | Splitting a printed name gives back base, hash and sanitised name if and only if name and extension are separable, for every base, hash, name and extension |
| `Filenames.NameReadsBackIff` | src/core_persistence.rs:46-108 | Such a name is read back from a stub without extension if and only if it has no dot |
| `Filenames.PartsAreCut` | src/core_persistence.rs:77-108 | Base and hash of a split are the bytes up to the base length and the 32 after the separator |
| `Filenames.SplitPanicsIff` | src/core_persistence.rs:77-108 | For every name and base length, splitting slices inside a character if and only if the base length is not a character boundary, the index after it is, and from there the text is a hash and a tail the parser accepts |
| `Filenames.SplitNeverPanicsAtBoundary` | src/core_persistence.rs:77-90 | So it never does when the base length is a character boundary, past the end, or at an ASCII byte |
| `Filenames.SplitCanPanic` | src/core_persistence.rs:77-108 | Otherwise it can: every hash after a two-byte character, with base length one |
| `Filenames.StubInjectiveInExt` | src/core_persistence.rs:46-60 | Names that differ in the extension alone are different |
| `FileOps.SaveLoopAtomicIff` | src/core_persistence_runtime.rs:175-234 | Against every adversary, up to reported rollback failures, saving is all or nothing if and only if it returns early or the metadata path was free |
| `FileOps.SaveLoopAnswers` | src/core_persistence_runtime.rs:175-234 | Which answer is given, for every adversary: saved exactly when neither file was there and the first three operations succeed, else the first obstacle |
| `FileOps.SaveEncodedAtomic` | src/core_persistence_runtime.rs:371-447 | The encoded save adds both files and the hash or leaves everything as it was, for every adversary, unless a rollback or encoder clean-up failure is reported |
| `FileOps.SaveEncodedAnswers` | src/core_persistence_runtime.rs:371-447 | The same for the encoded save and its five operations, for every codec |
| `FileOps.PathSpells` | src/core_persistence_runtime.rs:175-200 | The path of a loop by its letters: library, slash, loop, hash, name and extension |
| `FileOps.RenameAllOrNothing` | src/core_persistence_runtime.rs:239-323 | When extensions that exist are not listed twice, success moves exactly the companions that existed; an error leaves the files as they were if and only if no undo failed and no re-check failed after a move; the late re-check never finds a file |
| `FileOps.RenameSpells` | src/core_persistence_runtime.rs:258-260 | A successful rename returns base and hash of the stub with the new name after them, or none |
| `FileOps.RenameReadsBackIff` | src/core_persistence_runtime.rs:258-260 | The new name is read back from the returned path if and only if it has no dot |
| `FileOps.RenameSucceedsIff` | src/core_persistence_runtime.rs:239-323 | A rename succeeds if and only if the name has no separator, the stub splits, a companion exists, no destination does, and every lookup, re-check and move succeeds |
| `FileOps.RenameMovesFiles` | src/core_persistence_runtime.rs:255-322 | After a success each companion has its contents under the new path and is gone under the old one, and no other file changed |
| `FileOps.RenameAtomicIff` | src/core_persistence_runtime.rs:239-323 | For an accepted name: every error without a reported undo failure leaves the files as they were, whatever operations fail, if and only if at most one companion exists or some destination does |
| `FileOps.RepeatedExtensionStrands` | src/core_persistence_runtime.rs:281-301 | When an existing extension is listed twice and the destinations are free, the re-check fails after a move that stays, with every file operation succeeding |
| `FileOps.RollbackRemoves` | src/core_persistence_runtime.rs:163-173 | With no failure counted, exactly the listed paths are gone and nothing else changed |
| `FileOps.UndoRestores` | src/core_persistence_runtime.rs:302-314 | Undoing completed moves last first restores the files if and only if no undo failed |
| `FileOps.CompanionsDistinct` | src/core_persistence_runtime.rs:255-290 | Distinct extensions give distinct sources and destinations |
| `FileOps.CheckedSettles` | src/core_persistence_runtime.rs:281-322 | After the two check passes, whose outcome makes sources and destinations disjoint, the moves are all or nothing |
| `FileOps.PersistenceRuntime.SaveLoop` | src/core_persistence_runtime.rs:175-234 | The method leaves exactly the specified files, hash and outcome for every fate of its operations, and a clean outcome with a free metadata path is all or nothing |
| `FileOps.PersistenceRuntime.SaveLoopEncoded` | src/core_persistence_runtime.rs:371-447 | The same for the encoded save, for every codec |
| `FileOps.PersistenceRuntime.EncodeAudioFile` | src/file_codecs.rs:204-229 | A failed encode removes what it created and says whether that worked |
| `FileOps.PersistenceRuntime.RenameSaveable` | src/core_persistence_runtime.rs:239-323 | The three loops leave exactly the specified files and outcome |
| `FileOps.PersistenceRuntime.RollbackFiles` | src/core_persistence_runtime.rs:163-173 | Removes each path and counts the failures that are not absence |
| `Chains.SampleIsFlat` | src/block.rs:134-145 | Indexing a chain is indexing its flat view, and fails exactly past its end |
| `Chains.Serialize` | src/block.rs:180-219 | The loops write the specified bytes, or the first error |
| `Chains.Reader.Deserialize` | src/block.rs:221-290 | The reader returns the chain the bytes denote and stops right after it, or the first error |
| `Chains.Reader.ReadLinks` | src/block.rs:240-290 | The link loop parses the links still expected within the sample budget |
| `Chains.RoundTripIff` | src/block.rs:180-290 | A chain that serializes is read back link by link, consuming exactly its bytes, if and only if it has at most 2^20 links and 2^26 main samples |
| `Chains.LegacyReadsBack` | src/block.rs:231-238 | A block in the older format reads back as one mono link with its samples |
| `Chains.LegacyFails` | src/block.rs:231-238 | It fails for a length above the limit and for too few bytes |
| `Chains.RewritesIff` | src/block.rs:180-290 | Whatever was read can be written and then reads back the same, if and only if it is not an empty block in the older format |
| `Chains.SerializableIff` | src/block.rs:190-219 | A chain serializes if and only if no link is empty or oversized and each extra channel has its link's length |
| `Chains.DeserializeBounded` | src/block.rs:307-328 | Whatever the input, a parsed chain has 1 to 2^20 links and at most 2^26 main samples |
| `ChainIterators.AudioBlockIterator.Jump` | src/block.rs:372-374 | The position is clamped to the chain |
| `ChainIterators.AudioBlockIterator.GetFragment` | src/block.rs:375-390 | A fragment is a slice of the link that holds the position, cut at the link's end |
| `ChainIterators.AudioBlockIterator.NextFragment` | src/block.rs:439-443 | The position always advances by a whole fragment, clamped to the chain |
| `ChainIterators.AudioBlockIterator.PutFragment` | src/block.rs:391-423 | Overwrites exactly the flat samples from the position on, across links, keeps the shape and the other channel, and advances past them |
| `ChainIterators.AudioBlockIterator.PutFragmentStereo` | src/block.rs:401-438 | It fails exactly when an extra channel ends before a sample to be written; otherwise the main channel is overwritten as by the single put, and on a chain whose extra channels fit their links so is the other, missing ones appearing as silence |
| `ChainIterators.WalkCoversIff` | src/block.rs:375-443 | Walking by fragments covers the chain once and in order if and only if every link with samples after it holds whole fragments |
| `ChainIterators.ChainCursor.Next` | src/block.rs:493-515 | The cursor yields the flat view one sample at a time and then nothing |
| `ChainIterators.ExtraSampleIsFlatRight` | src/block.rs:166-178 | Indexing the extra channel is indexing the right flat view |
| `ChainIterators.ExtraReachesIff` | src/block.rs:401-438 | A write to the extra channel finds its sample exactly when it can be read back |
| `ChainIterators.GenerateSubchain` | src/block.rs:147-164 | The copy is one link that holds the requested slice of both flat views |
| `Codecs.FlacEncoder.Push` | src/file_codecs.rs:125-136 | Frames and pending samples are the one cut of everything pushed so far into full frames of 4096 samples a channel, however it was split over calls |
| `Codecs.FlacEncoder.Finish` | src/file_codecs.rs:138-182 | All input ends up in frames, of which only the last may be short and none is empty |
| `Codecs.CutUnique` | src/file_codecs.rs:125-162 | There is one way to cut a stream into full frames and a shorter rest |
| `Codecs.SndFileEncoder.WriteSamplesToDisk` | src/file_codecs.rs:282-367 | Which channel arguments are accepted, what is appended and which count or error is returned |
| `Codecs.EncodeAudioFile` | src/file_codecs.rs:204-229 | Encoding in chunks gives the encoding of the whole; it fails exactly for a zero rate or an AU payload above 32 bits |
| `Codecs.FrameCountIs` | src/file_codecs.rs:282-300 | Every frame that both channels have is encoded, and no more |
| `Codecs.InterleavedAt` | src/file_codecs.rs:349-364 | Frame by frame, left before right |
| `Codecs.AuEncoder.Write` | src/file_codecs.rs:349-364 | Frames are appended in big-endian order, also when their number is then found too large, and also after such an error; the length counts accepted frames only |
| `Codecs.AuEncoder.Close` | src/file_codecs.rs:378-382 | Patching the size leaves the rest of the file as it was |
| `Codecs.AuRoundTrip` | src/file_codecs.rs:747-782 | A written AU file opens to the same frames, whether its size was patched or still unknown |
| `Codecs.HeaderReadsBack` | src/file_codecs.rs:747-782 | A written header is accepted and gives back offset, size and channels |
| `Codecs.HeaderAcceptedIff` | src/file_codecs.rs:756-782 | Exactly the headers a writer could have written at the rate are accepted, with one or two channels and the audio no earlier than the header ends |
| `Codecs.AuDecoder.ReadSamples` | src/file_codecs.rs:644-691 | A read delivers and drops the next frames of both channels; it fails exactly when it would enter a frame that is cut short |
| `Codecs.BlockDecoder.ReadSamples` | src/file_codecs.rs:566-643 | A FLAC or Vorbis read delivers and drops the next samples, across pending and possibly empty decoded blocks |
| `Codecs.ReadsAreChunkIndependent` | src/file_codecs.rs:534-697 | Any sequence of read capacities delivers the prefix of the stream of length min(sum of capacities, total), and no read fails, when the stream ends on a whole frame |
| `PulseClock.Pulse.ProcessClock` | src/core_dsp.rs:323-335 | Position, wrap flag and callbacks after a block of any size, with the addition in 32 bits |
| `PulseClock.AdvanceFitsIff` | src/core_dsp.rs:323-335 | The 32-bit addition gives the exact position if and only if it does not overflow or the pulse divides 2^32 |
| `PulseClock.Pulse.FireSyncs` | src/core_dsp.rs:355-364 | The loop calls exactly the syncs due, in registration order |
| `PulseClock.Pulse.AddSync` | src/core_dsp.rs:341-349 | A new sync gets an unused identifier unless the counter has saturated and its last value is in use; the table is bounded |
| `PulseClock.Pulse.DelSync` | src/core_dsp.rs:350-354 | Exactly the syncs with the identifier go, and the result says whether there were any |
| `PulseClock.BlockFirings` | src/core_dsp.rs:355-364 | In one block a sync is called once if its position is passed in the last partial turn, and whole turns go unnoticed |
| `PulseClock.FiringsBalance` | src/core_dsp.rs:323-364 | Over any run, calls plus the whole turns hidden inside single blocks equal the times the clock passed the position |
| `PulseClock.OncePerCrossingIff` | src/core_dsp.rs:323-364 | Over a run, calls and crossings agree if and only if every block is shorter than the pulse, and the clock ends at the total modulo the length |
| `PulseClock.QuantizeIsNearest` | src/core_dsp.rs:305-316 | The quantised length is the nearest multiple, saturated; multiples are kept |
| `Timebase.PositionDecomposes` | src/jack.rs:137-175 | With whole beats per bar, bars and beats number the whole beats, the tick is the part of the beat under way and in range |
| `Timebase.PositionIsMonotone` | src/jack.rs:137-175 | A later frame never has an earlier bar, beat and tick |
| `Timebase.PositionFailsIff` | src/jack.rs:121-147 | The inputs that have no position, including a tempo above one beat a frame |
| `Timebase.PositionTickIsExact` | src/jack.rs:148-168 | Within 32 bits, for any meter, bar, bar start and tick are those of exact arithmetic |
| `Timebase.TicksInRangeIff` | src/jack.rs:148-168 | The exact tick of every frame is in range if and only if a bar is a whole number of frames, or shorter than a frame, or a beat is one tick |
| `Timebase.PositionTickInRange` | src/jack.rs:148-168 | With whole-frame bars, fractional meters included, the position itself has its tick in range and starts its bar no later than the frame |
| `Timebase.FractionalMeterTick` | src/jack.rs:137-175 | Otherwise it can be negative: tick -1 at 130 beats a minute in 3/2, at 44100 Hz |
| `Browser.Browser.MoveTo` | src/browser.rs:340-438 | The cursor lands on an item that is not a division if there is one, the only one at the rank computed from the jump and the clamped move |
| `Browser.Browser.Adjust` | src/browser.rs:406-426 | The loop lands on the specified rank |
| `Browser.Browser.Jump` | src/browser.rs:362-404 | The nested loops go where the specified steps go |
| `Browser.MoveIsClampedIff` | src/browser.rs:406-437 | A move from rank r lands on clamp(r+k, 0, N-1) if and only if it does not run past a trailing division in a list of several items |
| `Browser.DestinationIsClamped` | src/browser.rs:340-438 | With the last item not a division, a move without jump is clamped rank arithmetic for every count |
| `Browser.JumpIsClamped` | src/browser.rs:362-404 | In a list whose divisions only separate, a jump lands on the head of the group that many groups on, clamped |
| `Browser.Browser.AddDivisions` | src/browser.rs:290-312 | The in-place loop terminates and gives the specified list |
| `Browser.DividedKeepsItems` | src/browser.rs:290-312 | Erasing divisions gives back the items; none is added in front or behind |
| `Browser.DividedPlaces` | src/browser.rs:290-312 | Where everything goes: each item after the divisions that precede it, and a division right after exactly the items that are separated from the next |
| `Browser.CloseIff` | src/browser.rs:712-728 | When two items are close, by the nanoseconds between them and the bound in seconds |
| `Browser.DividingAgainIff` | src/browser.rs:290-312 | Dividing again changes nothing if and only if the bound is positive or nothing was added the first time |
| `Browser.Browser.AddItem` | src/browser.rs:238-251 | Where the item goes, and which item the unshifted cursor then points at |
| `Browser.InsertKeepsOrder` | src/browser.rs:238-251 | Sorted insertion keeps newest first, after items of equal age |
| `Browser.Browser.RemoveItem` | src/browser.rs:264-288 | The first match goes and both cursors follow their items |
| `Browser.ShiftedFollows` | src/browser.rs:276-285 | A cursor stays with its own item when another goes; on the item that went it takes the next, or the new last |
| `Browser.Browser.ReplaceItems` | src/browser.rs:256-262 | The cursor starts on the first item that is not a division |
| `Browser.Browser.MovePatchBank` | src/browser.rs:554-591 | Moves past the next division or before the previous one, or changes nothing; going back from a cursor beyond the list is an index out of range |
| `AudioRing.AccountingIff` | src/audio_native_cpal.rs:452-486 | Between callbacks, over any number of activations: overruns are refused plus trimmed frames, underruns are missing frames, every captured frame was lost, handed over, queued or dropped with an old ring, and the frame counters balance if and only if no frame was dropped with a ring or counted without channels |
| `AudioRing.SingleActivationIff` | src/audio_native_cpal.rs:479-486 | Within one activation they balance if and only if the device has channels or nothing was counted |
| `AudioRing.RecoveryUnbalances` | src/audio_native_cpal.rs:452-467 | A run that activates again with a frame queued, after which the counters never saw that frame leave |
| `AudioRing.HandedInOrder` | src/audio_native_cpal.rs:951-1020 | Real frames are handed over in capture order, each at most once, and silence only where a frame was missing |
| `AudioRing.TrimNeverFails` | src/audio_native_cpal.rs:965-987 | The trim never finds the ring empty |
| `AudioRing.TrimLeavesACallback` | src/audio_native_cpal.rs:978-988 | In every reachable state the trim has a whole callback queued besides what it is still to discard, and no chunk exceeds the buffers |
| `AudioRing.FedCallbackMissesNothing` | src/audio_native_cpal.rs:951-1020 | A callback that begins with its frames queued hears no silence, whatever the capture side does meanwhile |
| `AudioRing.CallbackAlone` | src/audio_native_cpal.rs:951-1020 | With no capture in between, a callback of n frames hands over the newest n queued in order and then silence, leaves nothing queued, and counts exactly what it trimmed and missed |
| `AudioRing.CallbackCompletes` | src/audio_native_cpal.rs:951-1020 | Every callback can be completed by its own steps |
| `AudioRing.CaptureAlone` | src/audio_native_cpal.rs:866-893 | A capture callback with no playback in between queues its first frames as far as there is room and counts the others as overruns |
| `AudioRing.CaptureCompletes` | src/audio_native_cpal.rs:866-893 | Every capture callback can begin when none runs and be completed by its own steps |
| `AudioRing.ActivationStartsEmpty` | src/audio_native_cpal.rs:464-486 | An activation begins with an empty ring of the new size and channels |
| `AudioRing.FlowRuns` | src/audio_native_cpal.rs:866-893 | Every interleaving of the two callbacks keeps the account of captured frames |
| `AudioRing.OrderRuns` | src/audio_native_cpal.rs:951-1020 | Every interleaving keeps the handed and queued frames in capture order |
| `AudioFormat.CommonLimitIff` | src/audio_native_cpal.rs:803-818 | The common limit admits exactly the sizes that every range with the rate admits |
| `AudioFormat.ChoiceIsNearest` | src/audio_native_cpal.rs:820-834 | The chosen size is the agreed one nearest to the preferred; there is none exactly when no size is agreed |
| `AudioRecovery.AudioBackend.Activate` | src/audio_native_cpal.rs:452-601 | Where the callback ends up for every answer of the devices |
| `AudioRecovery.AudioBackend.Close` | src/audio_native_cpal.rs:603-617 | Closing brings the callback back from wherever it was |
| `AudioRecovery.AudioBackend.ReclaimCallback` | src/audio_native_cpal.rs:404-414 | The callback moves from the ring to the backend, and the ring is dropped once it is there |
| `AudioRecovery.AudioBackend.Open` | src/audio_native_cpal.rs:418-450 | Opening closes first and keeps the callback whether or not the devices open |
| `AudioRecovery.AudioBackend.Recover` | src/audio_native_cpal.rs:640-669 | One attempt needs every device operation; afterwards exactly one of stream, ring and backend holds the callback |
| `AudioRecovery.CallbackNeverLost` | src/audio_native_cpal.rs:640-669 | Over any run of attempts the callback is held, it plays exactly when the last attempt found all devices working, and the failure counter counts the failed attempts |
| `Expressions.Split` | src/config.rs:1575-1616 | The split joins back to the string, and no piece holds an operator other than a leading one |
| `Expressions.SplitUnique` | src/config.rs:1575-1616 | No other such split exists |
| `Expressions.Evaluate` | src/config.rs:115-122 | The loop folds the operations from the left, stopping at an abort |
| `Expressions.ValueOfSnoc` | src/config.rs:115-122 | The last operation is applied to the value of all before it, which is its left operand |
| `Expressions.ApplyIsExactOrSaturates` | src/config.rs:125-156 | Integer operations are exact when they fit, saturate otherwise, keep the left operand for a zero divisor, and abort exactly on the one quotient that does not fit |
| `Expressions.TruncDivLeaves` | src/config.rs:125-156 | The quotient towards zero: what is left is smaller than the divisor and has the sign of the dividend |
| `Expressions.StaticIgnoresContext` | src/config.rs:103-109 | A static expression has one value whatever the variables and the event are |
| `Expressions.FloatsStay` | src/config.rs:115-156 | Once a float is reached the value stays a float, and no later operation aborts |
| `Expressions.RangesAreSingle` | src/config.rs:125-156 | An expression with an operation is never a range |
| `Expressions.MatchIsNumeric` | src/config.rs:2955-2986 | Values of any width match exactly when they are the same number, a range the numbers between its ends, and ranges when their ends agree; floats by the tolerant comparison, and in a range by truncation |
| `Expressions.WideMatchesWrapped` | src/config.rs:2971-2986 | A number beyond 32 bits is in a range exactly when the 32-bit number it wraps to is |
| `Bindings.CheckConditions` | src/config.rs:2069-2078 | The loop stops at the first condition that fails or aborts |
| `Bindings.HoldsIff` | src/config.rs:2069-2078 | The conditions hold if and only if each of them does |
| `Bindings.LiteralHoldsIff` | src/config.rs:2069-2078 | A condition on a literal holds exactly for the events with its number, or with a number in its range |
| `Bindings.MatchBindingIndex` | src/config.rs:2113-2126 | The loop finds the first head that holds, passing over continued bindings |
| `Bindings.CollectContinued` | src/config.rs:2128-2143 | The loop collects up to the first binding that is not continued |
| `Bindings.ScanIsFirstHolding` | src/config.rs:2113-2143 | Matching and collecting in a bucket of chains returns exactly the first whole chain whose head holds |
| `Bindings.BindingTable.CreateConditions` | src/config.rs:1415-1503 | The conditions made, the bucket the last condition on the indexed parameter asks for, and when that cannot be computed |
| `Bindings.DeclaredConditionsIff` | src/config.rs:1415-1503 | A declaration makes a condition on the parameter if the schema has it, else on the variable if there is one |
| `Bindings.BindingTable.CreateOutputs` | src/config.rs:1354-1400 | Outputs are taken up to the first gap, conditions and echo go to the first |
| `Bindings.BindingTable.ParseBindingNode` | src/config.rs:1299-1413 | A declaration adds its whole chain to its one bucket, or nothing at all |
| `Bindings.BindingTable.ResolveBucket` | src/config.rs:2218-2236 | One bucket resolves to its first chain that holds |
| `Bindings.BindingTable.DispatchEventBindings` | src/config.rs:2238-2277 | Dispatch returns the first match of the event's bucket, else of the wildcard bucket, else the default echo |
| `Bindings.BucketMatchIsEarliest` | src/config.rs:2113-2126 | A bucket's match is the earliest declaration of that bucket that holds |
| `Bindings.DispatchMissesNothing` | src/config.rs:2238-2277 | If static conditions on the indexed parameter are exact, dispatch matches nothing if and only if no declared chain's head holds |
| `Bindings.DispatchIsEarliest` | src/config.rs:2238-2277 | What dispatch returns is the earliest holding declaration of the event's bucket or, if that has none, of the wildcard bucket |
| `Bindings.DispatchIsScanIff` | src/config.rs:2238-2277 | Dispatch returns the plain scan's first match if and only if that lies in the event's bucket or nothing in that bucket holds |
| `Bindings.LiteralTableDispatch` | src/config.rs:2238-2277 | Over a table of literals of any widths dispatch takes the first that equals the number of the event, and matches nothing exactly when none does |
| `Bindings.LiteralDispatchIff` | src/config.rs:2238-2277 | One literal binding matches exactly the events with its number |
| `Bindings.RangeDispatchIff` | src/config.rs:2238-2277 | One range binding matches exactly the events whose number is in the range, not negative, and a multiple of the maximum |
| `Bindings.VariableDispatchIff` | src/config.rs:2238-2277 | One binding on a variable matches exactly when the variable has the number of the literal |
| `Bindings.HoldingIsReached` | src/config.rs:1659-1671 | Conditions that hold put the chain in a bucket that dispatch searches |
| `Bindings.ExactUnlessRangeOrFloat` | src/config.rs:2165-2179 | Integer literals of any width are exact |
| `Bindings.RangeExactIff` | src/datatypes.rs:247-255 | A literal range, which reads as zero, is exact if and only if it is empty, a single multiple of the maximum, or the maximum is one and it has no negative number |
| `Bindings.SingleConditionFoundIff` | src/config.rs:1659-1671 | A binding on one literal is found by every event it accepts if and only if the literal is exact |
| `Bindings.RangeConditionFoundIff` | src/config.rs:1659-1671 | The same for a literal range, with the condition on its bounds |
| `Bindings.LetterKeysAreMissed` | src/config.rs:2971-2986 | No key in a literal range of the letter keys finds its binding |
| `Bindings.NoIndexIsPlainScan` | src/config.rs:2238-2252 | A table without an index dispatches by the plain scan |

## Left out

- PulseClock.Pulse.ProcessClock: wraps on overflow, as a release build does; a debug build panics there.
- Codecs.FlacEncoder.Finish: the rewriting of the stream header and its length check are not modelled, only the frames.
- Codecs.SndFileEncoder.WriteSamplesToDisk: covers FLAC and AU; WAV and Vorbis and the device's write errors are not modelled.
- Codecs.SndFileEncoder.PrepareFileForClosing: the codec libraries' own failures and the FLAC header-size check are not modelled, only the buffering.
- Codecs.EncodeAudioFile: covers FLAC and AU without device errors; `FileOps` models the failing file operations around it.
- Codecs.AuEncoder.Write: the device's write errors are not modelled.
- Codecs.AuDecoder.ReadSamples: the device errors of a read are not modelled; a read that returns fewer bytes than asked is folded into the loop that retries it.
- Codecs.BlockDecoder.ReadSamples: the codec's decoding errors are not modelled; the stream is the blocks it would give.
- FileOps.PersistenceRuntime.EncodeAudioFile: the encode is one write of opaque bytes that can fail, so codec errors are not told apart by stage.
- Bindings.BindingTable.CreateOutputs: parameter sets of outputs and their errors are not modelled.
- Bindings.BindingTable.ParseBindingNode: conditions, outputs and expressions come in already split; parameter sets of outputs, the loop-id flag and the errors of the input event are not modelled.
- Bindings.BindingTable.ResolveBucket: the dynamic parameters of the matched bindings are not evaluated, only which bindings match.
- FileOps.PersistenceRuntime.SaveLoop: creating the library directory is one fallible step without contents; the encoded audio and the metadata text are opaque bytes.
- Weak memory ordering: every atomic operation is one sequentially consistent step.
- Foreign code: cpal, JACK, midir, SDL, FluidLite, Android and CoreAudio calls are answers chosen freely.
- FLAC and Vorbis bit coding, WAV, MD5 and the RIFF files accepted under the AU extension.
- Float rounding: samples are opaque words, the timebase uses exact ratios, and float values in expressions are opaque to the model.
- Quantisers, faders, limiter, smoothing and `PeaksAvgsProcessor`: numeric code on single samples.
- Restarting a disk stream: one generation from start to finalize is modelled; byte counts and file names are not.
- The wait with a timeout on an empty preallocation pool.
- XML parsing, document type includes, the event-type tables and `instantiate_bound_event`.
- Browser scanning, renaming and display names, and moving to a patch bank by its number.
- Scene saving and loading, and the loader's lookups.
- The Android branches of the audio backend, which change the trim and the fallback without capture.
- Timing: CPU-load windows, startup waits and route polling.
