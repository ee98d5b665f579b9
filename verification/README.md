# Verified models of the runtime's engines

This project models the stateful engines of the WASM UI runtime — the parts that keep data between calls and
talk to a network, a host or another thread — and proves what they keep, what they undo and what they promise. Objects
whose methods change fields are classes; each method is proved against a specification function, and the theorems are
lemmas about those functions or invariants every method keeps. `dafny verify dfyconfig.toml` checks everything.

| engine | files |
|---|---|
| Retained node arena | `RoseTree`, `DomForest`, `DomSpec`, `DomArena`, `DomSteps`, `Dom`, `DomDocument`, `DomMarkup`, `DomLimits` |
| HTTP range cache, prefetcher, demux gate | `RangeCache`, `HttpRange` |
| Rolling window, EBML integers, Matroska demuxer | `Rolling`, `Vint`, `Mkv`, `MkvWriter` |
| RTP video reassembly, loss signalling, PLI pacing | `Red`, `Video`, `VideoSafety`, `VideoTorn`, `VideoDelivery`, `VideoLoss`, `Pli`, `LossAnswered` |
| Transport-wide congestion feedback | `Twcc`, `TwccFeedback` |
| Window feed against token registration | `WindowFeed` |
| Frame-stepped executor | `Executor` |
| Greedy word wrap, measure cache | `TextSplit`, `WordWrap`, `TextMeasure` |
| Pushback byte stream, WebSocket, HTTP bodies | `ByteStream`, `WebSocket`, `WebSocketMessages`, `WebSocketDropped`, `HttpChunked` |
| Resampler, segment streaming, MP4 tables | `Resampler`, `SegStream`, `Mp4Tables`, `Mp4Samples` |

`Options`, `Bytes`, `Machine` and `Sequences` hold the shared option and result types, big-endian numbers, fixed-width
arithmetic and the regrouping of concatenations.

## What the environment is

* Hosts, sockets, decoders and layout are parameters. A fetch is a value handed to a method; a depacketizer, a demuxer
  and a text measurer are functions; a poll of a future is any list of actions, and the host's readiness answers are
  arbitrary. What a property needs of them is in its `requires`.
* Threads (the window feed) are a machine of atomic steps, one per critical section, and its theorems are about every
  interleaving. Fetches in the air (the range reader, the segment stream) land whenever the caller says.
* Sequence numbers and offsets wrap where the code's integers wrap: 16-bit RTP and congestion numbers, the 32-bit cut
  in the Matroska demuxer, the signed 64-bit sums of a seek and products of a timestamp, 32-bit `usize` lengths in the
  framings. Other machine integers are unbounded here.
* Times and widths are exact: microseconds are naturals, resampler positions and text widths are reals.

## Where code and comments disagree

The code is followed, and the disagreement is a theorem or a counterexample.

* `insert_and_evict` skips a window when "we already fully have this region", but looks at its two ends only:
  `RangeCache.InsertCoversIff` says exactly when the region is there afterwards, `RangeCache.SkippedInsertLeavesHole`
  gives a hole.
* `wrap_metrics` says that wrapping again at the widest line reproduces the breaks. `WordWrap.RewrapIff` says exactly
  when; it always does if no word is wider than the limit, and `TextMeasure.LongWordRewraps` is a text with such a word
  that is measured as three lines and painted as two. A text that was measured unwrapped is painted likewise unless it
  was given no width: `TextMeasure.UnwrappedMatchesIff`, `TextMeasure.NoWidthBreaks`.
* `read_chunked` says it consumes any trailers up to the blank line; it consumes one line. What follows a body is read
  next exactly if there were no trailers (`HttpChunked.TrailersStayIff`, `HttpChunked.OneTrailerStays`). The body is
  right either way.
* The header of `twcc.rs` says that a packet older than a reported batch is dropped; it is reported in the next batch
  (`Twcc.BatchOk`: a batch reports every recorded number).
* The Matroska demuxer cuts the distance to the end of the file to 32 bits before it bounds a header read. A header that
  is in the file is not read exactly if the cut distance is shorter than it (`Mkv.HeaderUnreadIff`), and then no window
  helps (`Mkv.StarvesForeverIff`, and `Mkv.FileStarvesAtStart` is such a file); `Mkv.StarvedIff` adds the payload.
* `take_loss` is said to be raised by any loss. A frame can be lost between two others without raising it, when an
  error-correction packet follows the gap: `VideoLoss.LostFrameUnseen` loses one. `VideoLoss.LossSeenIff` says exactly
  which streams of whole frames have every loss signalled by the next frame start, `VideoLoss.ForeignHidesGap` gives a
  silent delivery of every other one.
* The comment in `twcc.rs` has deltas "chain" from the reference "in 250 µs steps"; each is taken from the exact arrival
  before it, and cut to steps later. So a report is exact only if all arrivals are whole steps
  (`TwccFeedback.WireTimesExactIff`), and otherwise the parts cut off add up: `TwccFeedback.DriftBound` bounds them, and
  `TwccFeedback.DriftIsMet` has arrivals that meet the bound.
* Decode times are multiplied by a million in a signed 64-bit integer. They go back as soon as that product overflows,
  and only then: `Mp4Samples.DtsInOrderIff`, `Mp4Samples.LargestDeltaTurnsBack`.
* A WebSocket read that is dropped while it waits, as `futures::select!` does, loses the stages of the frame it had
  taken and the whole frames before it: `WebSocketDropped.WaitingTook`. `WebSocketDropped.DropHarmlessIff` says exactly
  when nothing that arrives later tells the difference, and after `WebSocketDropped.DroppedReadDesyncs` a payload is
  read as a frame.
* An eight-byte EBML integer comes back with its marker bit: `Vint.DecodeEncode` is exact about lengths one to eight. So
  an eight-byte size is never read as "unknown" (`Vint.UnknownSizeIff`).
* A node that `push_root` took from the document is spliced without being detached: `DomLimits.SpliceSoundIff` says,
  for any entries spliced anywhere, when a sound arena is left, and `DomLimits.MoveInPlace` runs into the other case.
* A frame can be emitted without a fragment in its middle when an error-correction packet, which has a number of its
  own, hides the gap: `VideoTorn.TornByErrorCorrection`. `VideoTorn.WholeFramesIff` says exactly which streams can
  lose a fragment that way.
* The last window dispatch can be of an older block: `WindowFeed.LastDispatchCanBeStale` has one that shows a window the
  newest block dropped, and `WindowFeed.NewestLastIff` says exactly when; `WindowFeed.InOrderIff` does the same for the
  whole order of dispatches.

## Model

| member | source | states |
|---|---|---|
| DomForest.HoldsDetermines | crates/dioxus-canvas/src/dom.rs:52-61 | the arena's links determine one forest: two forests held by the same slots under the same roots are equal |
| RoseTree.EditConservesSlots | crates/dioxus-canvas/src/dom.rs:285-309 | replacing a subtree neither loses nor doubles a slot: slots before plus the replacement's are slots after plus the removed subtree's |
| DomForest.EditHolds | crates/dioxus-canvas/src/dom.rs:203-208 | splicing a child list and parent links makes the arena hold the forest edited at that node, and every other tree unchanged |
| DomForest.EraseEdit | crates/dioxus-canvas/src/dom.rs:285-294 | editing by slot is editing the document by the element id that names the slot |
| DomForest.PathSlot | crates/dioxus-canvas/src/dom.rs:126-132 | a path that exists in the document leads to one slot of the forest |
| DomForest.ErasePathEdit | crates/dioxus-canvas/src/dom.rs:296-309 | editing the slot a path leads to is editing the document at that path |
| DomSteps.AppendStep | crates/dioxus-canvas/src/dom.rs:244-249 | linking popped trees at the end of a child list keeps the whole arena invariant: forest, free list, id map, stack |
| DomSteps.InsertStep | crates/dioxus-canvas/src/dom.rs:311-327 | splicing popped trees around a node keeps the whole arena invariant |
| DomSteps.FreeStep | crates/dioxus-canvas/src/dom.rs:189-200 | freeing a detached subtree keeps the whole arena invariant: exactly its slots are free, and no id names them |
| DomInterpreter.Dom.Alloc | crates/dioxus-canvas/src/dom.rs:98-106 | a slot from the free list or a new one, written with the node, all other slots as they were |
| DomInterpreter.Dom.MapElement | crates/dioxus-canvas/src/dom.rs:108-115 | exactly this id now names the node and the node knows its id |
| DomInterpreter.Dom.Navigate | crates/dioxus-canvas/src/dom.rs:126-132 | the walk down child indices ends at the root of the subtree at that path |
| DomInterpreter.Dom.Instantiate | crates/dioxus-canvas/src/dom.rs:135-172 | a template becomes a tree of its own shape, dynamic slots as placeholders, in slots that were not in use |
| DomInterpreter.Dom.PopN | crates/dioxus-canvas/src/dom.rs:174-177 | the last m stack entries, in stack order |
| DomInterpreter.Dom.Detach | crates/dioxus-canvas/src/dom.rs:179-187 | the node leaves its parent's child list and nothing else changes |
| DomInterpreter.Dom.FreeSubtree | crates/dioxus-canvas/src/dom.rs:189-200 | terminates; frees exactly the descendants, in post order, and unmaps exactly their ids |
| DomInterpreter.Dom.SpliceIntoParent | crates/dioxus-canvas/src/dom.rs:203-208 | the moved nodes stand in the child list from the index on, in order, and have the parent |
| DomInterpreter.Dom.AppendChildren | crates/dioxus-canvas/src/dom.rs:244-249 | refines appending the popped trees to the named element's children |
| DomInterpreter.Dom.AssignNodeId | crates/dioxus-canvas/src/dom.rs:251-255 | refines naming the node at the path below the top of the stack |
| DomInterpreter.Dom.CreatePlaceholder | crates/dioxus-canvas/src/dom.rs:257-266 | refines pushing a named placeholder |
| DomInterpreter.Dom.CreateTextNode | crates/dioxus-canvas/src/dom.rs:268-277 | refines pushing a named text node |
| DomInterpreter.Dom.LoadTemplate | crates/dioxus-canvas/src/dom.rs:279-283 | refines pushing the template root's tree under the id |
| DomInterpreter.Dom.ReplaceNodeWith | crates/dioxus-canvas/src/dom.rs:285-294 | refines putting the popped trees exactly where the target was, and freeing the target |
| DomInterpreter.Dom.ReplacePlaceholderWithNodes | crates/dioxus-canvas/src/dom.rs:296-309 | refines the same at a path below the top of the stack |
| DomInterpreter.Dom.InsertNodesAfter | crates/dioxus-canvas/src/dom.rs:311-318 | refines inserting the popped trees right behind the named node |
| DomInterpreter.Dom.InsertNodesBefore | crates/dioxus-canvas/src/dom.rs:320-327 | refines inserting the popped trees right before the named node |
| DomInterpreter.Dom.SetNodeText | crates/dioxus-canvas/src/dom.rs:347-352 | refines changing the text of the named node |
| DomInterpreter.Dom.CreateEventListener | crates/dioxus-canvas/src/dom.rs:354-361 | refines adding the listener once |
| DomInterpreter.Dom.RemoveEventListener | crates/dioxus-canvas/src/dom.rs:363-368 | refines removing the listener |
| DomInterpreter.Dom.RemoveNode | crates/dioxus-canvas/src/dom.rs:370-374 | refines removing the named subtree, all of whose slots become free |
| DomInterpreter.Dom.PushRoot | crates/dioxus-canvas/src/dom.rs:376-379 | refines pushing a reference to a node that stays where it is |
| DomInterpreter.Dom.Run | crates/dioxus-canvas/src/dom.rs:243-379 | every legal run keeps the arena invariant and ends in the document the pure interpreter ends in |
| DomMarkup.MarkupDetermines | crates/dioxus-canvas/src/dom.rs:52-61 | a document written out, a start and an end for every node, tells its trees: no two are written alike |
| DomMarkup.EditInMarkup | crates/dioxus-canvas/src/dom.rs:285-327 | written out, a replacement by id puts the new trees exactly where the old one was and leaves the rest |
| DomMarkup.StepWrites | crates/dioxus-canvas/src/dom.rs:243-379 | each mutation, read off the written document: moved trees stand before, after, in or in place of the one node addressed, an update changes that node alone, a loaded tree is what its template shows at every path, and nothing else changes |
| DomMarkup.BlankDepicts | crates/dioxus-canvas/src/dom.rs:135-172 | along any walk down a template: an element with its tag and no listeners, a text with its text, a placeholder exactly where it is dynamic, as many children, no ids |
| DomDocument.EEditConservesIds | crates/dioxus-canvas/src/dom.rs:285-327 | a replacement by id conserves element ids: kept plus brought in is what was there minus the removed subtree's |
| DomDocument.PathEditConservesIds | crates/dioxus-canvas/src/dom.rs:296-309 | the same for a replacement by path |
| DomDocument.StepKeepsIds | crates/dioxus-canvas/src/dom.rs:243-379 | one mutation adds an id only if it introduces it |
| DomDocument.RunKeepsIdsUnique | crates/dioxus-canvas/src/dom.rs:243-379 | in every legal run each element id names at most one node |
| DomDocument.InsertThenRemove | crates/dioxus-canvas/src/dom.rs:311-374 | removing what was just inserted, before or after a node, restores the document |
| DomLimits.LinkedNodeBreaks | crates/dioxus-canvas/src/dom.rs:203-208 | splicing a node that still has a parent, among any others and anywhere, leaves an arena that holds no forest |
| DomLimits.CycleBreaks | crates/dioxus-canvas/src/dom.rs:203-208 | splicing a tree below itself, among any others and anywhere, leaves an arena that holds no forest |
| DomLimits.SpliceSoundIff | crates/dioxus-canvas/src/dom.rs:203-208 | splicing any popped stack entries at any index leaves a sound arena exactly if they are distinct and each is movable: parentless, not the root, target outside it |
| DomLimits.MoveInPlace | crates/dioxus-canvas/src/dom.rs:320-378 | a run from an empty document, whose last call moves a child before its sibling, after which no forest fits the arena |
| RangeCache.ChunkCovering | crates/wandr-media-engine/src/httprange.rs:165-167 | the index of the first window that covers the offset, none exactly if nothing does |
| RangeCache.ContiguousEnd | crates/wandr-media-engine/src/httprange.rs:170-177 | terminates with the least uncovered offset at or after the start |
| RangeCache.InsertedAgrees | crates/wandr-media-engine/src/httprange.rs:180-196 | inserting a slice of the file keeps every window a slice of the file |
| RangeCache.InsertedIsLast | crates/wandr-media-engine/src/httprange.rs:180-196 | a window fetched at an uncovered offset is added, is last, and survives its own eviction |
| RangeCache.OldestGo | crates/wandr-media-engine/src/httprange.rs:180-196 | eviction takes the oldest windows, and only as many as are too many |
| RangeCache.InsertCoversIff | crates/wandr-media-engine/src/httprange.rs:180-196 | the inserted region is fully cached exactly if the shortcut was not taken or no byte between its ends was missing |
| RangeCache.SkippedInsertLeavesHole | crates/wandr-media-engine/src/httprange.rs:180-196 | a cache in which the shortcut leaves a byte uncached |
| RangeCache.GateOpens | crates/wandr-media-engine/src/lib.rs:1764-1769 | from any cache, at most MAX_CHUNKS + 1 prefetches open the gate, whatever is evicted |
| RangeCache.BoundIsExact | crates/wandr-media-engine/src/httprange.rs:170-227 | there is a cache that agrees with its file for which MAX_CHUNKS prefetches are not enough |
| RangeCache.ShutGateFetches | crates/wandr-media-engine/src/httprange.rs:200-227 | while the gate is shut the prefetcher never declines, and fetches at the first uncovered offset |
| HttpRange.ReaderShared.ReadyAhead | crates/wandr-media-engine/src/httprange.rs:71-76 | the contiguous bytes ahead of the cursor and whether they reach the end |
| HttpRange.ReaderShared.InsertAndEvict | crates/wandr-media-engine/src/httprange.rs:180-196 | the window list is the specified one, and every window stays the file's slice |
| HttpRange.ReaderShared.DrivePrefetch | crates/wandr-media-engine/src/httprange.rs:200-227 | asks for a window exactly if none is in flight and the cache does not reach far enough |
| HttpRange.ReaderShared.CompletePrefetch | crates/wandr-media-engine/src/httprange.rs:200-227 | a completed fetch is inserted, a failed one is not, and the slot is free again |
| HttpRange.ReaderShared.TickUntilOpen | crates/wandr-media-engine/src/lib.rs:1744-1769 | ticks open the gate within MAX_CHUNKS + 1 fetches |
| HttpRange.HttpRangeReader.Read | crates/wandr-media-engine/src/httprange.rs:229-273 | bytes are the file's at the position, which moves by their number; would-block exactly on an uncached position while streaming, and leaves it |
| HttpRange.HttpRangeReader.Seek | crates/wandr-media-engine/src/httprange.rs:275-289 | the position asked for, wrapped to a signed 64-bit number; an error for one before the start, with the position unmoved |
| HttpRange.AimIsAskedIff | crates/wandr-media-engine/src/httprange.rs:278-282 | the casts and sums of a seek aim where it asks exactly if that is a signed 64-bit number |
| HttpRange.HttpRangeReader.ReadOn | crates/wandr-media-engine/src/httprange.rs:229-273 | successful reads put together are the file from the starting position on |
| HttpRange.HttpRangeReader.ReadExact | crates/wandr-media-engine/src/httprange.rs:229-273 | any read within the contiguous bytes ahead is served from the cache, without a fetch and without blocking |
| Rolling.AppendShows | crates/wandr-media-engine/src/streaming.rs:438-451 | appending bytes of the file keeps the window a window of the file |
| Rolling.DropShows | crates/wandr-media-engine/src/streaming.rs:453-459 | reclaiming the front keeps the window a window of the file |
| Rolling.AppendHolds | crates/wandr-media-engine/src/streaming.rs:438-451 | what was appended is there, and what it continues stays |
| Rolling.DropKeeps | crates/wandr-media-engine/src/streaming.rs:453-459 | everything from the offset on stays, nothing before it |
| Rolling.SliceOfFile | crates/wandr-media-engine/src/streaming.rs:427-436 | what the window hands out is what a buffer of the whole file would |
| Rolling.RollingBuffer.Append | crates/wandr-media-engine/src/streaming.rs:438-451 | the window after an append: longer if contiguous, the new region otherwise |
| Rolling.RollingBuffer.DropBefore | crates/wandr-media-engine/src/streaming.rs:453-459 | the window after bytes before an offset went |
| Vint.ReadVint | crates/wandr-media-engine/src/mkv.rs:49-68 | the loop reads the value and length the specification names |
| Vint.DecodeEncode | crates/wandr-media-engine/src/mkv.rs:49-68 | reading undoes writing whatever follows, exactly for lengths below eight; with eight bytes the marker stays in the value |
| Vint.UnknownSizeIff | crates/wandr-media-engine/src/mkv.rs:49-106 | a size field is read as unknown exactly if all its bits are set and it has fewer than eight bytes |
| Vint.ReadHeader | crates/wandr-media-engine/src/mkv.rs:85-106 | element id, size and header length, or none if they are not all there |
| Mkv.StepAgrees | crates/wandr-media-engine/src/mkv.rs:339-386 | one turn on a window of the file does what it does on the whole file, or asks for more |
| Mkv.NextFollowsFile | crates/wandr-media-engine/src/mkv.rs:339-386 | a call on any honest window returns the whole-file run's next block or end, or pauses on it; the position never goes back |
| Mkv.PauseNeedsMore | crates/wandr-media-engine/src/mkv.rs:339-386 | a window that reaches to the end of the file never pauses unless the file itself is stuck there |
| Mkv.HeaderUnreadIff | crates/wandr-media-engine/src/mkv.rs:339-386 | a header of at most twelve bytes that is in the file is not read from the whole file exactly if the cut distance to the end is shorter than it |
| Mkv.StarvedIff | crates/wandr-media-engine/src/mkv.rs:339-386 | a turn on the whole file starves exactly if its header is not there, not asked for in full, or its payload is not there |
| Mkv.StarvesForeverIff | crates/wandr-media-engine/src/mkv.rs:339-386 | the demuxer asks for more on every window of the file exactly if a turn on the whole file starves, and then delivers nothing from there on |
| Mkv.CutDistanceStarves | crates/wandr-media-engine/src/mkv.rs:339-386 | a header longer than the cut distance to the end is never read, in whatever window |
| Mkv.FileStarvesAtStart | crates/wandr-media-engine/src/mkv.rs:339-386 | a file one byte over 4 GiB that starts with an empty block is never demuxed at all, in whatever window |
| Mkv.ScheduleIndependence | crates/wandr-media-engine/src/mkv.rs:321-417 | after any schedule of appends, drops, resets and calls, delivered blocks and the blocks still to come are the file's blocks |
| Mkv.CompleteRunSeesAll | crates/wandr-media-engine/src/mkv.rs:321-417 | a player that reaches the end has seen exactly the file's blocks |
| Mkv.MkvDemux.Next | crates/wandr-media-engine/src/mkv.rs:339-386 | terminates; result and state are the specified ones, with the position as measure |
| MkvWriter.HeadRead | crates/wandr-media-engine/src/mkv.rs:85-106 | the header of an element that was written is read: id, length, size |
| MkvWriter.BodyRead | crates/wandr-media-engine/src/mkv.rs:388-417 | a block body that was written comes out with its track, its time relative to the cluster in microseconds, key frame flag and data; none for another track |
| MkvWriter.ReadsWhatWasWritten | crates/wandr-media-engine/src/mkv.rs:339-417 | wherever elements stand in a file, the demuxer yields exactly the blocks written on its two tracks, in order, and goes on behind them |
| MkvWriter.FileReadBack | crates/wandr-media-engine/src/mkv.rs:339-417 | a file of elements yields exactly its blocks, and then the end |
| MkvWriter.PlayerSeesWhatWasWritten | crates/wandr-media-engine/src/mkv.rs:321-417 | so does any player of it that reaches the end, however it windows the file |
| Red.RedPrimary | crates/wandr-call/src/video.rs:49-62 | the loop over the redundancy headers finds the primary block the specification names |
| Red.PrimaryOfWrap | crates/wandr-call/src/video.rs:49-62 | for any redundant blocks, the primary payload type and payload come back |
| Video.VideoStream.HandleRtp | crates/wandr-call/src/video.rs:243-337 | the reassembler's new state is the specified one |
| Video.VideoStream.TakeLoss | crates/wandr-call/src/video.rs:348-350 | reports the loss flag and clears it |
| VideoSafety.RedCarries | crates/wandr-call/src/video.rs:49-62 | a wrapped fragment carries what the plain one does |
| VideoSafety.StepSound | crates/wandr-call/src/video.rs:243-337 | any one arrival keeps every emitted frame whole and the frame under assembly a prefix of a sent frame |
| VideoSafety.NoTornFrame | crates/wandr-call/src/video.rs:243-337 | for any loss, duplication and reordering across sequence wrap, every emitted frame is a sent frame with its timestamp, provided no error-correction packet stands right before a later fragment |
| VideoSafety.NoTornFrameFromStart | crates/wandr-call/src/video.rs:132-160 | the same for a stream that starts fresh |
| VideoTorn.TornByErrorCorrection | crates/wandr-call/src/video.rs:253-266 | three packets of a stream with distinct numbers, one of them error correction, that make the reassembler emit a frame without its middle |
| VideoTorn.WholeFramesIff | crates/wandr-call/src/video.rs:243-337 | every delivery of a stream yields only whole frames exactly if no error-correction packet stands right before a fragment that can be missed, with and without duplicates |
| VideoDelivery.VideoSender.PayloadFrame | crates/wandr-call/src/video.rs:194-238 | one packet per fragment, consecutive wrapping numbers, marker on the last, the orientation that was set on each, packet and octet counters exact |
| VideoDelivery.SenderSends | crates/wandr-call/src/video.rs:194-238 | what the sender makes of a frame sends it, numbered without a gap |
| VideoDelivery.SenderTells | crates/wandr-call/src/video.rs:186-238 | what the sender emits for a frame brings it, numbered without a gap, and tells the orientation that was set |
| VideoDelivery.WrappedSends | crates/wandr-call/src/video.rs:49-62 | wrapping each packet with redundancy still sends the frame |
| VideoDelivery.OrientationBack | crates/wandr-call/src/video.rs:204-212 | a right-angled orientation that was set is the one read from the extension; without one the last stays |
| VideoDelivery.FaithfulNetwork | crates/wandr-call/src/video.rs:194-337 | loss-free in-order delivery, plain or wrapped, with error correction and other tracks between, emits exactly the sent frames with the orientation last sent |
| VideoDelivery.FramesAccounted | crates/wandr-call/src/video.rs:283-337 | frame starts are frames out, frames broken and the one being assembled |
| VideoDelivery.PacketsCounted | crates/wandr-call/src/video.rs:243-277 | once a source is locked, exactly its packets are counted, and it stays |
| VideoLoss.NoSilentLoss | crates/wandr-call/src/video.rs:283-336 | from any receiver on the stream's source: when a frame start is processed after a gap before a media packet, the loss flag has been raised |
| VideoLoss.LossSeenIff | crates/wandr-call/src/video.rs:253-336 | for a stream of whole frames: every in-order delivery that misses something has raised the loss flag by the next frame start if and only if no error-correction packet with a frame start after it can hide a gap |
| VideoLoss.ForeignHidesGap | crates/wandr-call/src/video.rs:253-266 | every error-correction packet that can hide a gap does so in some delivery, up to a later frame start |
| VideoLoss.LostFrameUnseen | crates/wandr-call/src/video.rs:253-266 | a stream of three frames whose second is lost without the flag ever being raised |
| VideoLoss.SentIsWhole | crates/wandr-call/src/video.rs:194-238 | well-cut frames of distinct timestamps, sent one after the other, make a stream of whole frames |
| Pli.PeerSession.HandleDatagram | crates/wandr-call/src/session.rs:358-373 | an indication is owed afterwards exactly if one was or a loss was raised |
| Pli.PeerSession.PumpRtcp | crates/wandr-call/src/session.rs:446-471 | sends exactly if owed, due, the source known and the packet sendable, and remembers when |
| Pli.PlisPaced | crates/wandr-call/src/session.rs:446-471 | whatever happens, indications are at least 300 ms apart |
| Pli.OwedUntilSent | crates/wandr-call/src/session.rs:446-471 | an owed indication stays owed until one is sent |
| Pli.OwedIsSent | crates/wandr-call/src/session.rs:446-471 | it goes out at the first timer that finds it due and sendable |
| Pli.NoSpuriousPli | crates/wandr-call/src/session.rs:358-471 | no more indications than losses raised, but for one already owed |
| Pli.AnsweredIff | crates/wandr-call/src/session.rs:358-471 | in any run of a new session an indication leaves at a timer if and only if a loss was raised after the last one left, that one is at least 300 ms old, the source is known and the packet sendable |
| Pli.RaisedIsAnswered | crates/wandr-call/src/session.rs:358-471 | a raised loss is answered: unless an indication leaves before, one does at the first timer that may send it |
| LossAnswered.LossIsAnswered | crates/wandr-call/src/session.rs:364-372 | from packets to the indication: when frames are lost and error correction hides nothing, one has left, or leaves at the first timer that can send one, once the next frame has started |
| Twcc.SortOk | crates/wandr-call/src/twcc.rs:80-83 | ascending offsets, and every number's arrivals in their order: a stable permutation |
| Twcc.BatchOk | crates/wandr-call/src/twcc.rs:78-84 | a batch reports exactly the recorded numbers, each once, at its first arrival, by strictly ascending offset |
| TwccFeedback.SlotsPlaced | crates/wandr-call/src/twcc.rs:85-104 | every number's slot is in range, in order, and at its distance from the base |
| TwccFeedback.ChunksFlat | crates/wandr-call/src/twcc.rs:115-129 | chunks of seven symbols, padded, hold the symbols in order |
| TwccFeedback.DecodeEncode | crates/wandr-call/src/twcc.rs:78-139 | feedback decodes to its batch: exactly its numbers, one delta each, times the reference plus deltas so far |
| TwccFeedback.TimesExactIff | crates/wandr-call/src/twcc.rs:94-113 | decoded times are the first arrivals exactly if the reference does not wrap and no delta had to be clamped |
| TwccFeedback.WireTimesExactIff | crates/wandr-call/src/twcc.rs:94-113 | with deltas cut to 250 microsecond ticks, decoded times are the first arrivals exactly if besides every arrival is a whole tick |
| TwccFeedback.DriftBound | crates/wandr-call/src/twcc.rs:94-113 | cut to ticks, the k-th time is off from the uncut one by less than k ticks, each short of one by a microsecond |
| TwccFeedback.DriftIsMet | crates/wandr-call/src/twcc.rs:99-101 | arrivals one microsecond short of a tick apart are off by exactly that |
| TwccFeedback.SymbolFits | crates/wandr-call/src/twcc.rs:102-107 | a symbol says how wide its delta's ticks are: one byte, or two with a sign |
| TwccFeedback.TellsIff | crates/wandr-call/src/twcc.rs:67-139 | from arrivals to the sender's reading: exactly the recorded numbers, each once, and each at its first arrival if and only if the batch's times fit; once the deltas are cut to ticks, if and only if they are whole ticks besides |
| TwccFeedback.TwccTracker.Record | crates/wandr-call/src/twcc.rs:57-63 | an arrival is recorded unless the batch is full |
| TwccFeedback.TwccTracker.Fill | crates/wandr-call/src/twcc.rs:99-113 | the symbol buffer marks every arrival's slot by its delta's size and no other |
| TwccFeedback.TwccTracker.Build | crates/wandr-call/src/twcc.rs:78-139 | feedback exactly for arrivals whose numbers do not span too far; cut to ticks, it tells them exactly if their times fit and are whole ticks |
| TwccFeedback.TwccTracker.Poll | crates/wandr-call/src/twcc.rs:67-139 | due feedback reports the arrivals recorded and counts on; a batch that spans too far is dropped and nothing else changes |
| WindowFeed.ScanStep | runtime/wandr-inputflinger/wandr_inputflinger.cpp:392-444 | a pass over a block has looked at exactly the pids above it, each pid once, top to bottom |
| WindowFeed.StepKeepsInv | runtime/wandr-inputflinger/wandr_inputflinger.cpp:318-489 | every step of every thread keeps the lock, the passes, the dispatch log and the promise to the newest block |
| WindowFeed.QuietMeansShown | runtime/wandr-inputflinger/wandr_inputflinger.cpp:324-358 | after any interleaving, at rest, each window of the last block whose token is registered was shown under that very token |
| WindowFeed.FocusFollowsBlock | runtime/wandr-inputflinger/wandr_inputflinger.cpp:442-472 | after any interleaving, the focus asked for is the channel of the pid that the last focus line of the block just dispatched names, if it has a token by then, and otherwise none |
| WindowFeed.FocusExactly | runtime/wandr-inputflinger/wandr_inputflinger.cpp:442-472 | the same for a pass that nobody interrupts |
| WindowFeed.DispatchesInOrder | runtime/wandr-inputflinger/wandr_inputflinger.cpp:447-451 | dispatch ids count up from one, and each dispatch is a cached block's windows, distinct, in the block's order |
| WindowFeed.SomeoneMoves | runtime/wandr-inputflinger/wandr_inputflinger.cpp:379-489 | no deadlock: while a thread is busy some thread can step |
| WindowFeed.InternalRunsEnd | runtime/wandr-inputflinger/wandr_inputflinger.cpp:379-489 | no livelock: finishing what was begun takes no more steps than the work there was |
| WindowFeed.InOrderIff | runtime/wandr-inputflinger/wandr_inputflinger.cpp:480-489 | a run at rest dispatched in push order exactly if no re-feed took the lock with an outdated copy |
| WindowFeed.NewestLastIff | runtime/wandr-inputflinger/wandr_inputflinger.cpp:480-489 | at rest the last dispatch is of the newest block exactly if the last step that took the feed lock was not a re-feed with an outdated copy |
| WindowFeed.LastDispatchCanBeStale | runtime/wandr-inputflinger/wandr_inputflinger.cpp:480-489 | an interleaving of two threads after which the last dispatch is the older block, with a window the newest one dropped |
| WindowFeed.WindowsExactly | runtime/wandr-inputflinger/wandr_inputflinger.cpp:392-444 | with tokens that stand still, exactly the listed pids that have a token are shown, under it |
| WindowFeed.PushAlone | runtime/wandr-inputflinger/wandr_inputflinger.cpp:379-475 | an uninterrupted push of the machine does what the sequential method does |
| WindowFeed.InputFeed.RegisterToken | runtime/wandr-inputflinger/wandr_inputflinger.cpp:324-330 | the pid's channel is the new token, its application token stays, others are untouched |
| WindowFeed.InputFeed.FeedWindowBlock | runtime/wandr-inputflinger/wandr_inputflinger.cpp:379-475 | caches if asked to, dispatches the block's windows, and asks for the focus of the pid that the last focus line names, if it has a token |
| WindowFeed.InputFeed.OnRegister | runtime/wandr-inputflinger/wandr_inputflinger.cpp:347-358 | a registration shows the window at once if the cached block lists its pid; one without a token does nothing |
| WindowFeed.InputFeed.Receive | runtime/wandr-inputflinger/wandr_inputflinger.cpp:514-531 | what a connection brought is fed exactly if it holds the commit line |
| Executor.InsertedOk | crates/wandr-step-executor/src/lib.rs:257-261 | a new pollable gets a key no registration in use has |
| Executor.ReleasedOk | crates/wandr-step-executor/src/lib.rs:129-133 | the last reference frees the key; keys in use stay live, their own, and nothing leaks |
| Executor.WaitParkedOk | crates/wandr-step-executor/src/lib.rs:271-288 | leaving the polling task's waker keeps the bookkeeping |
| Executor.WaitMovedOk | crates/wandr-step-executor/src/lib.rs:167-173 | moving a wait into another future, or out of all of them, keeps the bookkeeping |
| Executor.SweptOk | crates/wandr-step-executor/src/lib.rs:191-197 | dropping a completed future takes exactly its own waits, and no waker of any other wait |
| Executor.WaitDroppedOk | crates/wandr-step-executor/src/lib.rs:191-197 | dropping a wait takes its waker along and keeps the bookkeeping |
| Executor.WaitsExactly | crates/wandr-step-executor/src/lib.rs:129-197 | a wait that is made is the polling future's and for the handle's registration; handed over, it is where it was handed; dropped, it is gone with its waker; the others stay |
| Executor.ActedKeeps | crates/wandr-step-executor/src/lib.rs:57-197 | whatever code does, in a poll or outside one, keeps the invariant |
| Executor.FinishedKeeps | crates/wandr-step-executor/src/lib.rs:72-105 | the end of a poll keeps the invariant: a wait its task found not ready has a waker, a done task has no wait left |
| Executor.RunKeeps | crates/wandr-step-executor/src/lib.rs:37-105 | every run from a newly installed executor, over outside calls, polls and checks in any order, keeps the invariant |
| Executor.NoLostWakeup | crates/wandr-step-executor/src/lib.rs:72-105 | after any such run an unfinished task is queued or parked, and every wait it holds and found not ready, in its last poll or an earlier one, has its waker, under a key that still names that wait's pollable and no other registration |
| Executor.DueIsQueued | crates/wandr-step-executor/src/lib.rs:229-255 | after any such run, a check queues the task of every waker found due, unless it is done |
| Executor.PollExactly | crates/wandr-step-executor/src/lib.rs:94-104 | after any run, a poll puts on the ready list exactly the parked tasks it woke and the tasks it spawned, behind those already there; its own task again exactly if it woke itself and is not done, and otherwise it parks |
| Executor.CallExactly | crates/wandr-step-executor/src/lib.rs:57-66 | a call from outside queues exactly a parked task that it wakes, or a task it spawns |
| Executor.CheckExactly | crates/wandr-step-executor/src/lib.rs:229-255 | a check queues exactly the parked tasks one of whose wakers' pollables the host says are ready |
| Executor.UnreadyLeavesWaker | crates/wandr-step-executor/src/lib.rs:271-288 | a pending poll that found a wait of its task not ready, and did not give it up, leaves the task's waker for that wait's pollable |
| Executor.UnreadyThenReady | crates/wandr-step-executor/src/lib.rs:229-288 | and a check that finds the pollable ready queues the task |
| Executor.NothingDue | crates/wandr-step-executor/src/lib.rs:229-255 | if a check with nothing queued wakes nobody, no due waker is an unfinished task's |
| Executor.Reactor.Schedule | crates/wandr-step-executor/src/lib.rs:257-261 | the slab entry and the first reference |
| Executor.Reactor.Call | crates/wandr-step-executor/src/lib.rs:57-66 | a spawn, registration, clone, drop, hand-over or wake outside a poll is one event, and keeps the invariant |
| Executor.Reactor.RunFront | crates/wandr-step-executor/src/lib.rs:307-313 | the front task is polled once and put where the outcome says |
| Executor.Reactor.NonblockCheck | crates/wandr-step-executor/src/lib.rs:229-255 | exactly the parked tasks with a due waker join the ready list, in whatever order |
| Executor.Reactor.Step | crates/wandr-step-executor/src/lib.rs:72-105 | ends within twice the cap, with a check between any two polls; short of the cap the ready list is empty and no due waker is an unfinished task's; what it reaches, a run of events reaches |
| Executor.Serve | crates/wandr-step-executor/src/lib.rs:37-105 | an executor used for any turns of outside calls and frames is in a state that a run of events reaches |
| TextSplit.WordsOfLines | crates/dioxus-canvas/src/lib.rs:1108-1111 | a text's words are its lines' words in order |
| TextSplit.WordsOfJoin | crates/dioxus-canvas/src/lib.rs:1112-1116 | joined words split back into the same words |
| TextSplit.LinesBack | crates/dioxus-canvas/src/lib.rs:1108 | a text is cut at its newlines and nowhere else: the pieces joined with newlines are the text, and none has one |
| WordWrap.WrapIsGreedy | crates/dioxus-canvas/src/lib.rs:1102-1129 | a paragraph's lines are exactly the layouts in which every line fits or is one word and every break was forced |
| WordWrap.FewestLines | crates/dioxus-canvas/src/lib.rs:1102-1129 | no layout of the words takes fewer lines |
| WordWrap.WrapKeepsWords | crates/dioxus-canvas/src/lib.rs:1102-1129 | the lines' words are the text's words, in order |
| WordWrap.RewrapIff | crates/dioxus-canvas/src/lib.rs:1131-1151 | wrapping again at the widest line gives the same lines exactly if that width still forces every break |
| WordWrap.RewrapWhenWordsFit | crates/dioxus-canvas/src/lib.rs:1131-1151 | it does whenever no word is wider than the limit |
| TextMeasure.PaintMatchesIff | crates/dioxus-canvas/src/lib.rs:639-668 | painted lines are the measured ones exactly if the width was assigned or the widest line forces the breaks |
| TextMeasure.PaintMatches | crates/dioxus-canvas/src/lib.rs:915-945 | they are for assigned widths, for the least width, and whenever every word fits |
| TextMeasure.LeafFitsOffer | crates/dioxus-canvas/src/lib.rs:639-677 | a wrapping leaf asks for no more than it was offered unless a word alone is wider; its least width is the least that every word fits |
| TextMeasure.UnwrappedMatchesIff | crates/dioxus-canvas/src/lib.rs:670-677 | a leaf measured unwrapped is painted without a break of its own exactly if each of its lines fits the width it reported, and so always unless it was assigned none |
| TextMeasure.NoWidthBreaks | crates/dioxus-canvas/src/lib.rs:664-677 | a text in a box of no width: one line measured, two painted |
| TextMeasure.LongWordRewraps | crates/dioxus-canvas/src/lib.rs:1131-1151 | a text with a long word: three lines measured, two painted |
| TextMeasure.Measurer.MeasureCached | crates/dioxus-canvas/src/lib.rs:1083-1095 | the host's answer, and the host asked once per key |
| TextMeasure.Measurer.WrapLines | crates/dioxus-canvas/src/lib.rs:1102-1129 | the loops compute the specified lines through the cache |
| TextMeasure.Measurer.WrapMetrics | crates/dioxus-canvas/src/lib.rs:1135-1151 | the number of lines and the widest one |
| TextMeasure.Measurer.LongestWordW | crates/dioxus-canvas/src/lib.rs:1155-1166 | the widest word, at least zero |
| TextMeasure.Measurer.MeasureLeaf | crates/dioxus-canvas/src/lib.rs:639-677 | the size a wrapping leaf reports for a known width, an offered width, or a question about its extremes |
| ByteStream.FindPrefix | crates/wandr-reqwest/src/tls.rs:217-222 | a delimiter found in what has arrived is the first of all that will arrive |
| ByteStream.TlsStream.Fill | crates/wandr-reqwest/src/tls.rs:156-172 | brings at least a byte, or the end; nothing still to be read changes |
| ByteStream.TlsStream.TakeFromBuf | crates/wandr-reqwest/src/tls_p3.rs:208-212 | splits the buffer, and returned plus buffered stay what was delivered |
| ByteStream.TlsStream.ReadExact | crates/wandr-reqwest/src/tls_p3.rs:228-235 | exactly n bytes, or a failure that loses nothing, decided by the bytes to come and not by their chunks |
| ByteStream.TlsStream.ReadUntil | crates/wandr-reqwest/src/tls_p3.rs:216-226 | everything up to the first delimiter, or a failure that loses nothing, decided likewise |
| ByteStream.TlsStream.ReadToEnd | crates/wandr-reqwest/src/tls_p3.rs:243-246 | everything up to the close |
| WebSocket.MaskTwice | crates/wandr-reqwest-websocket/src/imp.rs:277-279 | masking twice with any key is no masking |
| WebSocket.MaskBits | crates/wandr-reqwest-websocket/src/imp.rs:277-279 | every bit of a masked byte is the payload's, flipped where the key's is set |
| WebSocket.RfcExamples | crates/wandr-reqwest-websocket/src/imp.rs:262-281 | the example frames of section 5.7 of RFC 6455 |
| WebSocket.LengthBack | crates/wandr-reqwest-websocket/src/imp.rs:208-218 | each of the three length forms reads back |
| WebSocket.FrameRoundTrip | crates/wandr-reqwest-websocket/src/imp.rs:199-240 | reading a frame undoes sending it, for every length, any mask key or none, whatever follows |
| WebSocketMessages.EncodeClientFrame | crates/wandr-reqwest-websocket/src/imp.rs:262-281 | a final frame, shortest length form, payload masked |
| WebSocketMessages.ReadFrame | crates/wandr-reqwest-websocket/src/imp.rs:199-240 | what the bytes to come parse to, however the transport cuts them |
| WebSocketMessages.MessageRoundTrip | crates/wandr-reqwest-websocket/src/imp.rs:112-126 | every message sent is the message received, and nothing after it is touched |
| WebSocketMessages.Opcodes | crates/wandr-reqwest-websocket/src/imp.rs:112-126 | the opcodes of RFC 6455; a close without a code is a normal one |
| WebSocketMessages.ReservedIsError | crates/wandr-reqwest-websocket/src/imp.rs:192-194 | a frame with a reserved opcode is an error, whether or not a message is under way |
| WebSocketMessages.ReassemblesIff | crates/wandr-reqwest-websocket/src/imp.rs:153-197 | a fragmented message reassembles to all its payload exactly if no control frame comes between its fragments |
| WebSocketMessages.RestIsUnexpected | crates/wandr-reqwest-websocket/src/imp.rs:163-169 | what a control frame cut off reads as an unexpected continuation |
| WebSocketMessages.ReadMessage | crates/wandr-reqwest-websocket/src/imp.rs:153-197 | the next message, error or end of the bytes to come |
| WebSocketDropped.FrameCut | crates/wandr-reqwest-websocket/src/imp.rs:199-239 | a frame is read exactly if all its bytes are there; a read that lacks some has taken exactly its complete stages: header, length, key |
| WebSocketDropped.WaitingTook | crates/wandr-reqwest-websocket/src/imp.rs:144-197 | a read that waits has taken every whole frame that arrived and the complete stages of the next, and nothing else |
| WebSocketDropped.LeftAll | crates/wandr-reqwest-websocket/src/imp.rs:144-145 | dropping it leaves all that arrived exactly if that is less than two bytes |
| WebSocketDropped.DropHarmlessIff | crates/wandr-reqwest-websocket/src/imp.rs:144-197 | dropping it never changes what is read next, whatever arrives, exactly if less than two bytes arrived or one byte after whole frames begins a frame that is no continuation |
| WebSocketDropped.DroppedReadDesyncs | crates/wandr-reqwest-websocket/src/imp.rs:199-239 | a text dropped after its two header bytes: its payload is read as a close |
| WebSocketDropped.ReadOrDrop | crates/wandr-reqwest-websocket/src/imp.rs:144-145 | a read over the stream that is dropped when it waits: no result, and what is left is what WaitingTook says, then what arrives later |
| HttpChunked.HexBack | crates/wandr-reqwest/src/http1.rs:125-130 | parsing a hexadecimal size undoes printing it, in either case |
| HttpChunked.SizeBack | crates/wandr-reqwest/src/http1.rs:124-130 | a size line gives its size whatever its extension |
| HttpChunked.ChunkedRoundTrip | crates/wandr-reqwest/src/http1.rs:121-142 | any chunks and extensions give the body back; one line after the last size line is dropped |
| HttpChunked.BodyRoundTrip | crates/wandr-reqwest/src/http1.rs:121-142 | without trailers the body comes back and what follows is untouched |
| HttpChunked.TrailersStayIff | crates/wandr-reqwest/src/http1.rs:121-142 | with n trailers before the blank line, what follows the body is read next exactly if n is zero; all but the first trailer stay unread |
| HttpChunked.OneTrailerStays | crates/wandr-reqwest/src/http1.rs:121-142 | an empty body with one trailer, whose blank line stays unread |
| HttpChunked.CutOffIff | crates/wandr-reqwest/src/http1.rs:121-142 | a body cut off anywhere before its last size line is complete is an error and never the bytes so far; from there on its data is there |
| HttpChunked.BadSizeIsError | crates/wandr-reqwest/src/http1.rs:124-130 | a size line that says no size is an error whatever came before it, and what follows the line is left |
| HttpChunked.SaysNoSize | crates/wandr-reqwest/src/http1.rs:128-130 | a size that does not fit, or a line that begins with no digit, says no size |
| HttpChunked.ReadChunked | crates/wandr-reqwest/src/http1.rs:121-142 | what the bytes to come parse to, however the transport cuts them |
| HttpChunked.ReadBody | crates/wandr-reqwest/src/http1.rs:95-119 | chunked, counted and until-close bodies, with what is left after them |
| Resampler.CountIsCeiling | crates/wandr-media-engine/src/lib.rs:726-731 | the output count for n frames is n over step, rounded up |
| Resampler.LineIsKept | crates/wandr-media-engine/src/lib.rs:720-740 | a straight line is read exactly at any position, one frame late |
| Resampler.WholeIsKept | crates/wandr-media-engine/src/lib.rs:720-740 | at whole positions the frames come out as they went in |
| Resampler.StartsFromZero | crates/wandr-media-engine/src/lib.rs:709-740 | the way up to the first frame starts from silence |
| Resampler.LinearResampler.Process | crates/wandr-media-engine/src/lib.rs:720-740 | a chunk's outputs are the interpolations of everything heard at the positions inside it, with silence before the start |
| Resampler.LinearResampler.ProcessAll | crates/wandr-media-engine/src/lib.rs:720-740 | chunk after chunk gives the one-shot result of the whole input |
| Resampler.ChunkingDoesNotMatter | crates/wandr-media-engine/src/lib.rs:709-741 | two ways to cut one input give the same output |
| SegStream.SegStream.DrivePrefetch | crates/wandr-media-engine/src/lib.rs:272-295 | a fetch is started exactly if none is in the air and the bytes are not there |
| SegStream.SegStream.Land | crates/wandr-media-engine/src/lib.rs:288-294 | a fetch that lands late leaves a segment's own bytes under its own index |
| SegStream.SegStream.OpenNext | crates/wandr-media-engine/src/lib.rs:298-341 | the segment opened is the next one, on its own bytes, whatever landed meanwhile; otherwise nothing moves |
| SegStream.SegStream.NextPacket | crates/wandr-media-engine/src/lib.rs:344-357 | one more packet of the segments since the last seek, without a gap; none only at the end or on a failure |
| SegStream.SegStream.Seek | crates/wandr-media-engine/src/lib.rs:360-369 | the only segment that is the last to start at or before the target, read-ahead dropped |
| SegStream.SegStream.DeliveredAll | crates/wandr-media-engine/src/lib.rs:344-357 | at the end of the segments everything from the seek target on was delivered |
| SegStream.Perform | crates/wandr-media-engine/src/lib.rs:269-370 | any interleaving of read-ahead, landings, packets and seeks delivers a prefix of the segments since the last seek |
| Mp4Tables.ExpandTable | crates/wandr-media-engine/src/streaming.rs:245-288 | the first n entries are the run-length expansion, truncated tables padded |
| Mp4Tables.ParseStts | crates/wandr-media-engine/src/streaming.rs:245-265 | decode times are the sums of the deltas before |
| Mp4Tables.ParseCtts | crates/wandr-media-engine/src/streaming.rs:269-288 | composition offsets, signed in version one |
| Mp4Tables.TableReadBack | crates/wandr-media-engine/src/streaming.rs:221-288 | the entries of a table that was written are read back, signed or not, with or without further fields |
| Mp4Tables.ValueIsUnrolled | crates/wandr-media-engine/src/streaming.rs:245-288 | an entry's value is the one at its place when the runs are written out |
| Mp4Tables.ParseStsc | crates/wandr-media-engine/src/streaming.rs:221-242 | each chunk gets the value of the last run that covers it, zero if none does |
| Mp4Tables.SamplesOfRun | crates/wandr-media-engine/src/streaming.rs:221-242 | strictly increasing runs cut the chunks up: a chunk's value is that of the one run it is in |
| Mp4Tables.SamplesExactly | crates/wandr-media-engine/src/streaming.rs:221-242 | chunks being numbered from one, a chunk has the value of the run that begins at or before it, the next one after it |
| Mp4Tables.SomeRun | crates/wandr-media-engine/src/streaming.rs:221-242 | and every chunk is in one |
| Mp4Tables.TimeMono | crates/wandr-media-engine/src/streaming.rs:245-265 | decode ticks never go back |
| Mp4Samples.PlaceSamples | crates/wandr-media-engine/src/streaming.rs:156-178 | as many samples as sizes and chunks allow, each at its chunk's offset plus the sizes before it in the chunk |
| Mp4Samples.ChunkContiguous | crates/wandr-media-engine/src/streaming.rs:156-178 | samples of one chunk follow each other without gap or overlap |
| Mp4Samples.SampleIsItsData | crates/wandr-media-engine/src/streaming.rs:156-178 | where a chunk holds its samples' data end to end, a placed sample's bytes are its own data |
| Mp4Samples.SampleTells | crates/wandr-media-engine/src/streaming.rs:156-184 | a placed sample's decode and presentation times are those of its ticks and composition offset in microseconds, and it is a sync sample exactly if its number is listed or nothing is |
| Mp4Samples.TicksWrap | crates/wandr-media-engine/src/streaming.rs:182-184 | decode ticks that have wrapped around convert to the same microseconds |
| Mp4Samples.DtsInOrderIff | crates/wandr-media-engine/src/streaming.rs:156-184 | decode times in microseconds never go back if and only if the last one, times a million, fits a signed 64-bit integer |
| Mp4Samples.LargestDeltaTurnsBack | crates/wandr-media-engine/src/streaming.rs:182-265 | one table entry with the largest delta, after which sample 2148 is before the start |
| Mp4Samples.ToAnnexB | crates/wandr-media-engine/src/streaming.rs:343-363 | parameter sets at sync samples, then the converted units |
| Mp4Samples.AnnexBKeepsUnits | crates/wandr-media-engine/src/streaming.rs:343-363 | a sample converts to all its units, in order, behind start codes, up to a length that is missing, zero or too large |

## Left out

- Attribute and style values of DOM nodes (`set_attribute`, `merge_attr`, static attributes): strings in a map, with no bearing on the tree.
- DomInterpreter.Dom.Instantiate: drops a template's static attribute and style values, as above.
- DomInterpreter.Dom.LoadTemplate: drops them likewise.
- DomInterpreter.Dom.ReplaceNodeWith: does not model a target without a parent, the root or a node on the stack, which is freed while the new nodes are dropped.
- DomInterpreter.Dom.InsertNodesAfter: does not model an anchor without a parent, for which the popped nodes are dropped.
- DomInterpreter.Dom.InsertNodesBefore: does not model one either.
- DomInterpreter.Dom.RemoveNode: does not model a node without a parent, which has no place to be removed from.
- DomInterpreter.Dom.Run: does not model runs that splice a node which is still in the document; `DomLimits` says what they do to the arena.
- HttpRange.HttpRangeReader.Read: does not model what a server sends that is not the file, or the log lines around it.
- HttpRange.ReaderShared.CompletePrefetch: takes what a fetch brings to be the file's, as above.
- HttpRange.ReaderShared.TickUntilOpen: is about fetches that bring their full window; a failed one only frees the slot.
- The Matroska header, the MP4 box tree, the sample size, chunk offset and sync sample tables, codec configuration records: parsers of one body each, handed in as values here.
- Mkv.MkvDemux.Next: does not model the debug build, in which an eight-byte integer stops the program instead of keeping its marker.
- MkvWriter.ReadsWhatWasWritten: is about elements of known size below 4 GiB (containers may say "unknown"), ids of at most four bytes, size and track fields of fewer than eight, and times in the signed 64-bit range; the cases outside are `Mkv.StarvedIff`, `Vint.DecodeEncode` and `Vint.UnknownSizeIff`.
- Mp4Samples.ToAnnexB: does not model the 32-bit overflow of position plus unit length, which needs a sample near 4 GiB.
- Mp4Tables.ParseStts: does not wrap a decode time in ticks at 64 bits; `Mp4Samples.TicksWrap` shows that no time in microseconds depends on it.
- The VP8 payloader and depacketizer: a function of the payload; `VideoSafety`, `VideoTorn`, `VideoDelivery` and `VideoLoss` require that fragments join to the frame and that only the first one starts it.
- VideoDelivery.VideoSender.PayloadFrame: does not model a packet that fails to marshal or to encrypt, which ends the frame with an error.
- Sender reports and the rest of the session: counters without a protocol.
- TwccFeedback.DecodeEncode: is about deltas in microseconds; `TwccFeedback.WireTimesExactIff`, `DriftBound` and `TellsIff` are about what is left of them in ticks.
- TwccFeedback.TimesExactIff: likewise.
- TwccFeedback.TwccTracker.Build: takes the marshalling library to cut a delta to a whole number of ticks toward zero, and stops before the packet's bytes.
- TwccFeedback.TwccTracker.Poll: hands out the packet as a value; its bytes, and a failure to marshal them, belong to that library.
- WindowFeed.InputFeed.Receive: takes what a connection brings as lines; cutting its bytes into them is not modelled.
- WindowFeed.InputFeed.FeedWindowBlock: does not model the text parsing of block lines and the geometry of a window beyond its rectangle.
- The executor's use of async-task: a cancelled task is one that is woken and whose next poll ends at once, and reference counts appear as "someone still refers to it", which is their contract.
- Executor.Reactor.RunFront: does not model the order in which a completed future's fields are dropped; waits it has not dropped itself go oldest first.
- Executor.NoLostWakeup: promises no wakeup to a task that holds no wait it found not ready; such a task has asked nobody to wake it, or relies on a wait that another task polled last.
- TextMeasure.Measurer.MeasureLeaf: takes the host's answer for a text and font as fixed, and leaves out text that does not wrap, which is one call.
- Floating-point rounding, in the resampler and in text widths: exact reals.
- Resampler.LinearResampler.Process: takes a chunk as whole frames; the interleaved layout of a frame's channels is not modelled.
- ByteStream.TlsStream.Fill: takes what the reader task delivers as a schedule of chunks; its wakers are not modelled. A read that is dropped loses what `WebSocketDropped` says, and nothing below the framing.
- WebSocketMessages.ReadMessage: keeps text payloads and close reasons as bytes; the lossy decoding of UTF-8 is not modelled.
- HttpChunked.ReadChunked: trims only ASCII white space around a chunk size.
- HttpChunked.ReadBody: takes the framing, which the headers decide, as a parameter.
- WebSocket.FrameRoundTrip: fixes the 32-bit `usize` of the target; a payload of 4 GiB or more does not exist there.
- The HTTP head, TLS itself, DNS, connection set-up and the write side of the streams: calls into libraries and the host.
- Cryptography, signalling text, key tables, overlay drawing, REST clients and the glue to other UI toolkits: plumbing, or results that rest on libraries.
