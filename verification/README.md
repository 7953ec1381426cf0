# gst-ffmpeg algorithms in Dafny

The GStreamer elements of gst-ffmpeg (and the AMR-WB parser of gst-plugins-bad) are mostly glue around foreign
codecs, but they hold a number of algorithms of their own. This project models those algorithms and proves what
they are there for. Code that works by changing state is a class or a method here, proved against a
specification function; what the source promises is then proved about that function, mostly over whole runs.

* **The byte pipe** (`Pipe.dfy`). In push mode the streaming thread feeds the demuxer task through an adapter, with
  one mutex and one condition variable for both directions. `PipeProtocol` is a transition system whose steps are the
  critical sections, with an explicit wait set and spurious wake-ups; a signal lets go of at least one waiter, of any
  kind. `PipeObject` is the shared structure as an object, one method for each critical section, each proved to be a
  step of the protocol.
* **The decoder's bookkeeping** (`TimestampRing.dfy`, `OpaqueList.dfy`, `AudioClip.dfy`). The 256-slot timestamp ring
  refines a queue; the queue says which input buffer every byte came from. The list that carries timestamps past a
  reordering decoder, and the nested floors of audio durations and clipping, follow.
* **H.264 configuration** (`NalEscape.dfy`, `AvcConfig.dfy`): the emulation prevention of section 7.4.1 of ITU-T H.264,
  applied in place to the record of section 5.2.4.1 of ISO/IEC 14496-15.
* **Re-framers** (`AudioEncoder.dfy`, `Interleaved.dfy`, `VideoEncoder.dfy`, `AmrwbParse.dfy`): bytes or pictures that
  wait until there is enough, and times that must not drift.
* **The muxer** (`Muxer.dfy`, `TimeConversion.dfy`) as a k-way merge over whole runs, with the tick conversions.
* **Picture layout** (`PictureLayout.dfy`): strides and planes, the rounding macros bit by bit, and the second
  implementation of the same layout in the postprocessor.
* **Documentation merge** (`OrderedDict.dfy`, `Pattern.dfy`, `ScanFormat.dfy`, `ScanMerge.dfy`): the ordered dictionary,
  the part of Python's regular expressions that is used, and the printing, loading and merging of `.signals` and
  `.args` files.

Assumed of the code around: a `GstAdapter` is a byte sequence; `gst_util_uint64_scale` rounds down and
`av_rescale_q` to nearest, halves away from zero; `gst_segment_clip` returns a range inside the one it is given;
collect pads call back only when every pad that is not at its end has a buffer at the front; codecs may return anything.

Some properties one would expect do not hold, and the project says exactly when they do:

* A task that pauses itself sets `srcresult` but signals nobody, and a serialized event waits for a read that may
  never come. The runs that leave the streaming thread with nobody to signal it are characterised step by step
  (`NeverStrandedIff`, `PauseStrandsChain`, `PauseStrandsLaterEvent`, `ShutdownStrandsEvent`); a chain wait gets out
  without interference exactly when the task has not paused (`ChainLeavesIff`), and an event exactly when a read has
  asked for bytes or still can, which excludes events after the end of the stream (`EventLeavesIff`, `NeverLostIff`).
* A ring with 256 live entries loses its oldest on the next append (`AppendRefinesIff`).
* An empty ring does not always answer "unknown": while fewer than 256 entries were ever added it answers time 0 on
  the first read since it became empty (`EmptyRingAnswer`, `EmptyRingYieldsZero`).
* The comment on `copy_config` promises a plain copy if something fails, but a truncated record is not noticed; the
  pointer stays inside the input exactly when the record is complete (`InsideIff`).
* An escaped NAL longer than its two-byte length field cannot be read back (`ReparseIff`, `SizeThatFits`).
* The encoder's frame times are exact only while they stay below 2^64; after a lock on an unknown time they are not,
  and later frames get times near 0 (`ExactAtIff`, `ExactTimesIff`, `UnknownLockWraps`).
* Ticks shorter than a nanosecond do not survive the conversion to clock time (`ExactTicksIff`).
* Clock times from 2^63 up are taken for negative ones when converted to ticks (`TicksMonotoneIff`, `StreamTimesIff`).
* The postprocessor rebuilds only when width and height both change, although its strides depend on either
  (`ChangeContext`, `StaleAfterWidthChange`).
* An object without entries is not in the printed documentation file, so reading it back loses it (`RoundTrip`,
  `EmptyObjectIsLost`).

## Model

| member | source | states |
|---|---|---|
| `PipeProtocol.InvStep` | gst-ffmpeg-0.10.9/ext/ffmpeg/gstffmpegdemux.c:1555-1696 | every critical section of either thread keeps the pipe invariant: who waits, why, and what `needed` then is |
| `PipeProtocol.InvAlongRun` | gst-ffmpeg-0.10.9/ext/ffmpeg/gstffmpegpipe.h:28-69 | the invariant holds in every state of every run, whatever the interleaving, wake-ups and spurious wake-ups |
| `PipeProtocol.OneSignalIsEnough` | gst-ffmpeg-0.10.9/ext/ffmpeg/gstffmpegprotocol.c:346-352 | in no reachable state are both threads in the wait set, and each waits only for what it may wait for; so `g_cond_signal` always reaches the one meant |
| `PipeProtocol.BytesConserved` | gst-ffmpeg-0.10.9/ext/ffmpeg/gstffmpegdemux.c:1664-1666 | bytes read since the last flush, then the queue, are the bytes accepted since then: nothing lost, duplicated or reordered |
| `PipeProtocol.StrandedCharacterised` | gst-ffmpeg-0.10.9/ext/ffmpeg/gstffmpegdemux.c:1667-1674 | the streaming thread waits with nobody left to signal it exactly after a self-pause, or in an event wait that outlived shut-down |
| `PipeProtocol.NeverStrandedIff` | gst-ffmpeg-0.10.9/ext/ffmpeg/gstffmpegdemux.c:1464-1696 | a run never strands the streaming thread exactly when it has no self-pause while that thread waits, no serialized event that finds `needed` at 0 after the task paused or ended, and no end of the task while an event waits |
| `PipeProtocol.PauseStrandsChain` | gst-ffmpeg-0.10.9/ext/ffmpeg/gstffmpegdemux.c:1464-1481 | a run in which the pause strands the waiting chain function |
| `PipeProtocol.PauseStrandsLaterEvent` | gst-ffmpeg-0.10.9/ext/ffmpeg/gstffmpegdemux.c:1474-1480 | a run in which the pause comes while nobody waits, and strands the event that comes after it |
| `PipeProtocol.PauseIsStandstill` | gst-ffmpeg-0.10.9/ext/ffmpeg/gstffmpegdemux.c:1667-1674 | with chain waiting and the task paused neither thread can take any step of its own |
| `PipeProtocol.ChainLeavesIff` | gst-ffmpeg-0.10.9/ext/ffmpeg/gstffmpegdemux.c:1667-1674 | left to the two threads alone, a waiting chain function can get out exactly when the task has not paused |
| `PipeProtocol.StrandedByPauseStays` | gst-ffmpeg-0.10.9/ext/ffmpeg/gstffmpegdemux.c:1667-1674 | the steps that end a chain wait after a pause are exactly FLUSH_START, de-activation and a spurious wake-up (an event wait after a pause ends by none: `EventWaitsForever`) |
| `PipeProtocol.ShutdownStrandsEvent` | gst-ffmpeg-0.10.9/ext/ffmpeg/gstffmpegdemux.c:1618-1623 | a run in which shut-down leaves a serialized event waiting |
| `PipeProtocol.EventWaitsForever` | gst-ffmpeg-0.10.9/ext/ffmpeg/gstffmpegdemux.c:1618-1623 | an event that finds `needed` at 0 after the end of the stream (shut-down included) or a pause waits in every state of every continuation |
| `PipeProtocol.EventLeavesIff` | gst-ffmpeg-0.10.9/ext/ffmpeg/gstffmpegdemux.c:1618-1623 | in whatever reachable state, a waiting event can leave in some run exactly when `needed` is not 0, or the stream has not ended and the task has not paused |
| `PipeProtocol.NeverLostIff` | gst-ffmpeg-0.10.9/ext/ffmpeg/gstffmpegdemux.c:1602-1623 | a run never leaves an event waiting for good exactly when it has none of the listed steps: an event after the end or a pause, a pause or shut-down before a read asked, a read that takes the request back at the end |
| `PipeProtocol.ReadReleasesChain` | gst-ffmpeg-0.10.9/ext/ffmpeg/gstffmpegprotocol.c:346-352 | a read that finds too little wakes the waiting chain function, which then returns OK |
| `PipeProtocol.ChainReleasesReader` | gst-ffmpeg-0.10.9/ext/ffmpeg/gstffmpegdemux.c:1664-1670 | a buffer that brings enough wakes the waiting read, which returns exactly its bytes |
| `PipeProtocol.ReadIsExact` | gst-ffmpeg-0.10.9/ext/ffmpeg/gstffmpegprotocol.c:354-366 | a read that returns took the front of the queue: all it asked for, or at end of stream all that is left; `needed` is reset if it returned anything |
| `PipeProtocol.ReadAtEos` | gst-ffmpeg-0.10.9/ext/ffmpeg/gstffmpegprotocol.c:346-356 | at end of stream no read waits |
| `PipeProtocol.EosDrains` | gst-ffmpeg-0.10.9/ext/ffmpeg/gstffmpegdemux.c:1602-1611 | over every run without re-activation end of stream stays and the queue only shrinks from the front |
| `PipeProtocol.EosDeliversRest` | gst-ffmpeg-0.10.9/ext/ffmpeg/gstffmpegprotocol.c:354-366 | over such a run without a flush the reads hand out exactly what was left, in order |
| `PipeProtocol.QueueBounded` | gst-ffmpeg-0.10.9/ext/ffmpeg/gstffmpegdemux.c:1664-1674 | over every run the queue never exceeds (largest read - 1) + (largest buffer) |
| `PipeProtocol.ChainOkMeansReaderStarves` | gst-ffmpeg-0.10.9/ext/ffmpeg/gstffmpegdemux.c:1667-1678 | chain returns OK only while a blocked read still lacks bytes |
| `PipeProtocol.FlagsFromRun` | gst-ffmpeg-0.10.9/ext/ffmpeg/gstffmpegdemux.c:1568-1611 | over every run `eos` is set exactly when the stream ended or was shut down since the last activation, and `srcresult` is not OK exactly when a flush, pause or shut-down came after the last FLUSH_STOP or activation |
| `PipeProtocol.ChainCallIff` | gst-ffmpeg-0.10.9/ext/ffmpeg/gstffmpegdemux.c:1643-1658 | over every run a chain call returns UNEXPECTED exactly in the first case, and WRONG_STATE exactly in the second alone |
| `PipeProtocol.ChainCallQueues` | gst-ffmpeg-0.10.9/ext/ffmpeg/gstffmpegdemux.c:1650-1666 | a refused buffer changes nothing; any other goes to the end of the queue |
| `PipeProtocol.ChainWakeIff` | gst-ffmpeg-0.10.9/ext/ffmpeg/gstffmpegdemux.c:1667-1696 | a chain call that was waiting returns WRONG_STATE exactly when a flush, pause or shut-down is in force, else waits again or returns OK |
| `PipeProtocol.ReadWaitsIff` | gst-ffmpeg-0.10.9/ext/ffmpeg/gstffmpegprotocol.c:346-352 | over every run a read waits exactly when there is too little and the stream has not ended since the last activation |
| `PipeProtocol.BytesFromRun` | gst-ffmpeg-0.10.9/ext/ffmpeg/gstffmpegdemux.c:1583-1601 | what was read since the last flush, then the queue, are the accepted buffers since then, told from the steps of the run alone |
| `PipeProtocol.FlowRestarts` | gst-ffmpeg-0.10.9/ext/ffmpeg/gstffmpegdemux.c:1583-1601 | after a FLUSH_STOP on a stream that has not ended, and after activation, the next buffer is accepted, and nothing but its bytes is there to be read |
| `PipeProtocol.FirstBytesStay` | gst-ffmpeg-0.10.9/ext/ffmpeg/gstffmpegdemux.c:1664-1666 | until the next flush those bytes stay the first that reads hand out |
| `PipeProtocol.FlushReleasesChain` | gst-ffmpeg-0.10.9/ext/ffmpeg/gstffmpegdemux.c:1568-1582 | FLUSH_START and de-activation get a waiting chain call out: whatever comes before it runs again, it returns WRONG_STATE |
| `PipeObject.FFMpegPipe.constructor` | gst-ffmpeg-0.10.9/ext/ffmpeg/gstffmpegpipe.h:51-68 | the structure starts in the protocol's initial state |
| `PipeObject.FFMpegPipe.Take` | gst-ffmpeg-0.10.9/ext/ffmpeg/gstffmpegprotocol.c:354-364 | the end of pipe_read on the object |
| `PipeObject.FFMpegPipe.ReadPass` | gst-ffmpeg-0.10.9/ext/ffmpeg/gstffmpegprotocol.c:331-367 | one pass of pipe_read is a read step of the protocol and returns its bytes |
| `PipeObject.FFMpegPipe.ChainPass` | gst-ffmpeg-0.10.9/ext/ffmpeg/gstffmpegdemux.c:1667-1678 | one test of the chain loop, waiting or returning OK |
| `PipeObject.FFMpegPipe.ChainEnter` | gst-ffmpeg-0.10.9/ext/ffmpeg/gstffmpegdemux.c:1643-1678 | chain from the lock to its first wait or return is a chain step, with the result the protocol says |
| `PipeObject.FFMpegPipe.ChainWake` | gst-ffmpeg-0.10.9/ext/ffmpeg/gstffmpegdemux.c:1671-1696 | chain after a wait is a resume step, with the result the protocol says |
| `PipeObject.FFMpegPipe.EventPass` | gst-ffmpeg-0.10.9/ext/ffmpeg/gstffmpegdemux.c:1618-1623 | one test of the serialized-event loop is a step |
| `PipeObject.FFMpegPipe.OnEos` | gst-ffmpeg-0.10.9/ext/ffmpeg/gstffmpegdemux.c:1602-1611 | EOS is a step |
| `PipeObject.FFMpegPipe.OnFlushStart` | gst-ffmpeg-0.10.9/ext/ffmpeg/gstffmpegdemux.c:1568-1582 | FLUSH_START is a step |
| `PipeObject.FFMpegPipe.OnFlushStop` | gst-ffmpeg-0.10.9/ext/ffmpeg/gstffmpegdemux.c:1583-1601 | FLUSH_STOP is a step: the queue is cleared, chain accepts again and a paused task runs again |
| `PipeObject.FFMpegPipe.OnPause` | gst-ffmpeg-0.10.9/ext/ffmpeg/gstffmpegdemux.c:1474-1480 | the self-pause is a step that signals nobody |
| `PipeObject.FFMpegPipe.ActivatePush` | gst-ffmpeg-0.10.9/ext/ffmpeg/gstffmpegdemux.c:1724-1734 | activation is a step |
| `PipeObject.FFMpegPipe.DeactivatePush` | gst-ffmpeg-0.10.9/ext/ffmpeg/gstffmpegdemux.c:1735-1744 | de-activation is a step |
| `PipeObject.FFMpegPipe.OnReady` | gst-ffmpeg-0.10.9/ext/ffmpeg/gstffmpegdemux.c:1818-1820 | going to READY clears the adapter |
| `TimestampQueue.AppendOwners` | gst-ffmpeg-0.10.9/ext/ffmpeg/gstffmpegdec.c:2927-2962 | appending a buffer adds its bytes, owned by it, or by the last entry when it has no time |
| `TimestampQueue.ConsumeOwners` | gst-ffmpeg-0.10.9/ext/ffmpeg/gstffmpegdec.c:2965-3001 | consuming k bytes removes exactly the first k, so the front entry is the buffer that holds byte k |
| `TimestampQueue.ConsumeShape` | gst-ffmpeg-0.10.9/ext/ffmpeg/gstffmpegdec.c:2972-2988 | the entries dropped are a prefix used up whole; the next keeps its unconsumed rest; a zero-size entry may stay in front |
| `TimestampQueue.RunOwners` | gst-ffmpeg-0.10.9/ext/ffmpeg/gstffmpegdec.c:2919-3018 | over every run of appends, consumptions of any number and reads the queue describes exactly the bytes that are left: a number takes that many off the front or all there are, -1 those of the front entry, and a read makes the front entry's bytes nobody's |
| `TimestampQueue.TimestampsInOrder` | gst-ffmpeg-0.10.9/ext/ffmpeg/gstffmpegdec.c:2919-3018 | over every run all entries behind the front one have a time, and the times handed out are a subsequence of those that came in: each at most once, in order; the same goes for the offsets |
| `TimestampRing.WriteSlot` | gst-ffmpeg-0.10.9/ext/ffmpeg/gstffmpegdec.c:2947-2949 | writing a live slot changes only that entry of the window, also across the wrap |
| `TimestampRing.GrowWindow` | gst-ffmpeg-0.10.9/ext/ffmpeg/gstffmpegdec.c:2936-2951 | with room left the slot after the head extends the queue |
| `TimestampRing.ShrinkWindow` | gst-ffmpeg-0.10.9/ext/ffmpeg/gstffmpegdec.c:2978-2983 | advancing the tail drops the oldest entry |
| `TimestampRing.OverfullWindow` | gst-ffmpeg-0.10.9/ext/ffmpeg/gstffmpegdec.c:2936-2951 | with all slots live a new entry overwrites the oldest |
| `TimestampRing.AddWindow` | gst-ffmpeg-0.10.9/ext/ffmpeg/gstffmpegdec.c:2936-2951 | a new entry extends the queue, or on a full ring also replaces the oldest |
| `TimestampRing.ExtendWindow` | gst-ffmpeg-0.10.9/ext/ffmpeg/gstffmpegdec.c:2952-2961 | a buffer without a time adds its size to the last entry |
| `TimestampRing.PopWindow` | gst-ffmpeg-0.10.9/ext/ffmpeg/gstffmpegdec.c:2977-2983 | dropping takes the front entry only |
| `TimestampRing.ReduceWindow` | gst-ffmpeg-0.10.9/ext/ffmpeg/gstffmpegdec.c:2984-2987 | using up part of an entry takes bytes off the front entry only |
| `TimestampRing.AppendRefinesIff` | gst-ffmpeg-0.10.9/ext/ffmpeg/gstffmpegdec.c:2927-2962 | up to 256 live entries an append is the queue's append exactly when a slot is free, none is needed, or the oldest entry equals the new one |
| `TimestampRing.ConsumeRefines` | gst-ffmpeg-0.10.9/ext/ffmpeg/gstffmpegdec.c:2965-3001 | up to 256 live entries consuming is the queue's consuming, the -1 case included |
| `TimestampRing.TakeRefines` | gst-ffmpeg-0.10.9/ext/ffmpeg/gstffmpegdec.c:3003-3018 | reading a timestamp is the queue's reading |
| `TimestampRing.InvRun` | gst-ffmpeg-0.10.9/ext/ffmpeg/gstffmpegdec.c:2917-3018 | over every run, overfull ones included, each slot outside the live ones holds time 0 if it was never written nor read, and "unknown" otherwise |
| `TimestampRing.EmptyRingAnswer` | gst-ffmpeg-0.10.9/ext/ffmpeg/gstffmpegdec.c:3003-3018 | after every run an empty ring answers 0 exactly when fewer than 256 entries were ever added and none was read since it last became empty, and "unknown" otherwise |
| `TimestampHandler.TsHandler.constructor` | gst-ffmpeg-0.10.9/ext/ffmpeg/gstffmpegdec.c:2917-2924 | zeroed slots, tail 1, no entry |
| `TimestampHandler.TsHandler.Append` | gst-ffmpeg-0.10.9/ext/ffmpeg/gstffmpegdec.c:2927-2962 | does to the array what the ring operation says, for every count; below 256 entries the queue's append |
| `TimestampHandler.TsHandler.ConsumeStep` | gst-ffmpeg-0.10.9/ext/ffmpeg/gstffmpegdec.c:2972-2988 | one round of the loop leaves the rest of the consumption to be done on the rest of the ring |
| `TimestampHandler.TsHandler.PopTail` | gst-ffmpeg-0.10.9/ext/ffmpeg/gstffmpegdec.c:2977-2983 | clears the slot at the tail and advances it |
| `TimestampHandler.TsHandler.Consume` | gst-ffmpeg-0.10.9/ext/ffmpeg/gstffmpegdec.c:2965-3001 | does what the ring operation says, for every count; up to 256 entries the queue's consuming |
| `TimestampHandler.TsHandler.GetTs` | gst-ffmpeg-0.10.9/ext/ffmpeg/gstffmpegdec.c:3003-3018 | returns what the slot at the tail holds and clears it; on a ring with entries that is the front entry |
| `TimestampHandler.EmptyRingYieldsZero` | gst-ffmpeg-0.10.9/ext/ffmpeg/gstffmpegdec.c:2917-2924 | a fresh ring answers 0, then "unknown", and 0 again after an entry came and went |
| `OpaqueList.PassThrough.Insert` | gst-ffmpeg-0.10.9/ext/ffmpeg/gstffmpegdec.c:1551-1562 | a store goes to the end |
| `OpaqueList.PassThrough.Lookup` | gst-ffmpeg-0.10.9/ext/ffmpeg/gstffmpegdec.c:1564-1588 | a find returns the first record with that address and deletes just it, or fails and changes nothing |
| `OpaqueList.ListIsOutstanding` | gst-ffmpeg-0.10.9/ext/ffmpeg/gstffmpegdec.c:1551-1588 | after any run the list is the stores minus the finds, in store order |
| `OpaqueList.FindReturnsLatestStore` | gst-ffmpeg-0.10.9/ext/ffmpeg/gstffmpegdec.c:1564-1588 | in any order of finds one succeeds exactly when the latest operation on its address was a store, and returns what that stored |
| `AudioClip.AudioBuffer.ClipTo` | gst-ffmpeg-0.10.9/ext/ffmpeg/gstffmpegdec.c:1929-1995 | a clipped buffer stays inside the data and gets the clipped times; otherwise it is kept or dropped unchanged |
| `AudioClip.CutsFit` | gst-ffmpeg-0.10.9/ext/ffmpeg/gstffmpegdec.c:1951-1983 | both cuts together fit the data, are whole sample frames, and leave bytes for the clipped time with less than two frames and a time unit to spare |
| `AudioClip.ClippingIsSafe` | gst-ffmpeg-0.10.9/ext/ffmpeg/gstffmpegdec.c:1951-1983 | clipping never removes more bytes than were decoded, for every rate, depth, channel count and segment |
| `AudioClip.DurationOfSamples` | gst-ffmpeg-0.10.9/ext/ffmpeg/gstffmpegdec.c:2049-2056 | n samples last the floor of n / rate seconds, whatever their depth and channels |
| `AudioClip.ClipKeepsSamples` | gst-ffmpeg-0.10.9/ext/ffmpeg/gstffmpegdec.c:1951-1983 | of interleaved audio clipping keeps whole samples: all but those that lie wholly in the time cut off at either end |
| `AudioClip.AudioDecoder.AudioFrame` | gst-ffmpeg-0.10.9/ext/ffmpeg/gstffmpegdec.c:2049-2081 | the buffer has its own or the interpolated time and the floored duration, or the clipped ones with enough bytes; the next time follows |
| `AudioClip.InterpolationDrift` | gst-ffmpeg-0.10.9/ext/ffmpeg/gstffmpegdec.c:2049-2067 | after a buffer with its own or an interpolated time, those without times start no later than its time and that of the samples since, exactly counted, and earlier by less than one time unit for each buffer |
| `NalEscape.RoundTrip` | gst-ffmpeg-0.10.9/ext/ffmpeg/gstffmpegcodecmap.c:2018-2041 | removing each 03 after two zeros undoes the escaping of every input |
| `NalEscape.NoForbiddenPattern` | gst-ffmpeg-0.10.9/ext/ffmpeg/gstffmpegcodecmap.c:2018-2041 | the output never holds 00 00 00, 00 00 01 or 00 00 02, and every 00 00 03 in it is an inserted escape |
| `NalEscape.EscapeIff` | gst-ffmpeg-0.10.9/ext/ffmpeg/gstffmpegcodecmap.c:2018-2041 | a byte string is the output for an input exactly when it gives the input back and is standard: after two zeros stands a byte above 3, or a 03 in front of a byte of at most 3 |
| `NalEscape.UnchangedIff` | gst-ffmpeg-0.10.9/ext/ffmpeg/gstffmpegcodecmap.c:2025-2036 | an input is its own output exactly when no byte of at most 3 follows two zeros in it |
| `NalEscape.LengthBound` | gst-ffmpeg-0.10.9/ext/ffmpeg/gstffmpegcodecmap.c:2018-2041 | n bytes, n > 0, become at most n + (n - 1) / 2 |
| `NalEscape.BoundReached` | gst-ffmpeg-0.10.9/ext/ffmpeg/gstffmpegcodecmap.c:2018-2041 | zeros reach that bound for every n |
| `NalEscape.WriteByte` | gst-ffmpeg-0.10.9/ext/ffmpeg/gstffmpegcodecmap.c:2025-2036 | one round of the loop extends what is written by the byte and the escape it needs |
| `NalEscape.WriteEscaped` | gst-ffmpeg-0.10.9/ext/ffmpeg/gstffmpegcodecmap.c:2018-2041 | the in-place loop writes exactly the escaped bytes and touches nothing else |
| `AvcConfig.InsideIff` | gst-ffmpeg-0.10.9/ext/ffmpeg/gstffmpegcodecmap.c:2055-2086 | for an announced record the source pointer stays inside the input exactly when the record is complete |
| `AvcConfig.CopiedFits` | gst-ffmpeg-0.10.9/ext/ffmpeg/gstffmpegcodecmap.c:2140-2149 | the escaped record fits the doubled allocation |
| `AvcConfig.ReparseIff` | gst-ffmpeg-0.10.9/ext/ffmpeg/gstffmpegcodecmap.c:2055-2090 | re-parsing and unescaping restores the same SPS and PPS lists exactly when every escaped NAL fits its two-byte length; bytes after the last PPS are dropped |
| `AvcConfig.SizeThatFits` | gst-ffmpeg-0.10.9/ext/ffmpeg/gstffmpegcodecmap.c:2064-2072 | NALs up to 43690 bytes always fit; one of 43691 gets length 0 |
| `AvcConfig.BuiltParses` | gst-ffmpeg-0.10.9/ext/ffmpeg/gstffmpegcodecmap.c:2055-2086 | a record built from any SPS and PPS, each behind its length in two big-endian bytes, is parsed into just these |
| `AvcConfig.CopiesBuilt` | gst-ffmpeg-0.10.9/ext/ffmpeg/gstffmpegcodecmap.c:2055-2090 | and copied as the same frame around the escaped SPS and PPS |
| `AvcConfig.CopiesOthers` | gst-ffmpeg-0.10.9/ext/ffmpeg/gstffmpegcodecmap.c:2053-2059 | fewer than seven bytes or another version are copied as they are |
| `AvcConfig.CopyNal` | gst-ffmpeg-0.10.9/ext/ffmpeg/gstffmpegcodecmap.c:2064-2072 | the body of either loop writes one length and escaped NAL |
| `AvcConfig.CopyNals` | gst-ffmpeg-0.10.9/ext/ffmpeg/gstffmpegcodecmap.c:2063-2073 | one loop writes all NALs and stops where the next part starts |
| `AvcConfig.CopyRecord` | gst-ffmpeg-0.10.9/ext/ffmpeg/gstffmpegcodecmap.c:2055-2090 | the record is written in full, with nothing else touched |
| `AvcConfig.CopyConfig` | gst-ffmpeg-0.10.9/ext/ffmpeg/gstffmpegcodecmap.c:2045-2103 | a record is escaped, anything else is copied, and the size returned fits twice the input |
| `AudioEncoder.Encoder.Chain` | gst-ffmpeg-0.10.9/ext/ffmpeg/gstffmpegenc.c:770-899 | the state left, the frames cut and the result, as a function of the state before and the outcome of every push |
| `AudioEncoder.Encoder.CutFrames` | gst-ffmpeg-0.10.9/ext/ffmpeg/gstffmpegenc.c:829-864 | the loop cuts consecutive whole frames until too little is left or a push fails |
| `AudioEncoder.Encoder.CutOne` | gst-ffmpeg-0.10.9/ext/ffmpeg/gstffmpegenc.c:829-864 | one round: the running time always is the lock plus the time of all samples consumed |
| `AudioEncoder.WrapDuration` | gst-ffmpeg-0.10.9/ext/ffmpeg/gstffmpegenc.c:845-852 | durations computed in wrapping 64-bit arithmetic are the exact distance of two frame times |
| `AudioEncoder.CutIsCutAll` | gst-ffmpeg-0.10.9/ext/ffmpeg/gstffmpegenc.c:833-869 | the loop cuts every whole frame up to and including the first whose push fails |
| `AudioEncoder.FramesFromBytesAlone` | gst-ffmpeg-0.10.9/ext/ffmpeg/gstffmpegenc.c:801-869 | from an empty adapter or a discontinuity on, however the input is divided and whichever pushes fail, the frames are the consecutive frames of the concatenation |
| `AudioEncoder.AllWholeFrames` | gst-ffmpeg-0.10.9/ext/ffmpeg/gstffmpegenc.c:833-869 | after a call that returned OK every whole frame of the input has gone out, so less than one is left |
| `AudioEncoder.NoDrift` | gst-ffmpeg-0.10.9/ext/ffmpeg/gstffmpegenc.c:801-869 | from an empty adapter or a discontinuity on, across calls that keep the lock and whichever pushes fail, the frames and their times are those of the whole stream stamped from the lock; the discontinuity mark stays until a push succeeds |
| `AudioEncoder.ExactAtIff` | gst-ffmpeg-0.10.9/ext/ffmpeg/gstffmpegenc.c:840-856 | a frame starts and ends at the lock plus the floored time of the samples before exactly when neither its start nor its length wraps 64 bits |
| `AudioEncoder.ExactTimesIff` | gst-ffmpeg-0.10.9/ext/ffmpeg/gstffmpegenc.c:840-856 | all frames since a lock are exact, so that they abut, exactly when neither the last start nor any length wraps |
| `AudioEncoder.DurationsAddUp` | gst-ffmpeg-0.10.9/ext/ffmpeg/gstffmpegenc.c:845-852 | durations sum to the floored time of all samples, whatever the lock |
| `AudioEncoder.RunTimesIff` | gst-ffmpeg-0.10.9/ext/ffmpeg/gstffmpegenc.c:801-869 | the same condition for each frame of a whole run of calls |
| `AudioEncoder.UnknownLockWraps` | gst-ffmpeg-0.10.9/ext/ffmpeg/gstffmpegenc.c:813-826 | after a lock on an unknown time a frame is exact exactly as long as no time has passed; later ones get a time one below the samples' own |
| `AudioEncoder.FramesHoldSamples` | gst-ffmpeg-0.10.9/ext/ffmpeg/gstffmpegenc.c:829-864 | for interleaved input frame k is the bytes of samples k * frameSize to (k + 1) * frameSize, all channels of each, and the samples after the last frame stay queued, however the input is divided and whichever pushes fail |
| `AudioEncoder.TimesOfSamples` | gst-ffmpeg-0.10.9/ext/ffmpeg/gstffmpegenc.c:840-856 | across calls that keep the lock frame k starts the floored time of k * frameSize samples after it and lasts until the next, modulo 2^64 |
| `AudioEncoder.AllWholeSamples` | gst-ffmpeg-0.10.9/ext/ffmpeg/gstffmpegenc.c:831-833 | after a call that returned OK the number of frames is the number of samples divided by the frame size |
| `Interleaved.FlatSlice` | gst-ffmpeg-0.10.9/ext/ffmpeg/gstffmpegenc.c:829-831 | cutting interleaved bytes between whole samples cuts the samples |
| `VideoEncoder.Encoder.Chain` | gst-ffmpeg-0.10.9/ext/ffmpeg/gstffmpegenc.c:654-726 | the queue step and what is sent, including refused sizes and failed calls |
| `VideoEncoder.Encoder.Send` | gst-ffmpeg-0.10.9/ext/ffmpeg/gstffmpegenc.c:911-953 | the draining loop sends the queued times in order up to the first failed call |
| `VideoEncoder.Encoder.FlushBuffers` | gst-ffmpeg-0.10.9/ext/ffmpeg/gstffmpegenc.c:901-963 | ends with an empty queue and sends exactly the outputs of the calls before the first failure |
| `VideoEncoder.QueueOrder` | gst-ffmpeg-0.10.9/ext/ffmpeg/gstffmpegenc.c:680-726 | at every point of a run the accepted pictures are, in order, those that left the queue and those still in it |
| `VideoEncoder.TimesGoOutInOrder` | gst-ffmpeg-0.10.9/ext/ffmpeg/gstffmpegenc.c:680-726 | without losses every picture that left lent its times to one output, in order |
| `VideoEncoder.FlushEmpties` | gst-ffmpeg-0.10.9/ext/ffmpeg/gstffmpegenc.c:901-963 | after a flush without errors every accepted picture has done so |
| `VideoEncoder.ResultsGoOutInOrder` | gst-ffmpeg-0.10.9/ext/ffmpeg/gstffmpegenc.c:654-726 | over every run the outputs are exactly the encoder's results, in order, with the delta flag on all but key pictures, and the accepted pictures are those of the right size that it did not fail on |
| `AmrwbParse.Parser.Chain` | gst-plugins-bad0.10-musepack/ext/amrwb/gstamrwbparse.c:438-524 | one call as a step on values, and the result of the last push |
| `AmrwbParse.Parser.PushBlocks` | gst-plugins-bad0.10-musepack/ext/amrwb/gstamrwbparse.c:487-519 | the loop pushes every whole block of the adapter, stamped in sequence, and remembers the size it waits for |
| `AmrwbParse.ExactTimes` | gst-plugins-bad0.10-musepack/ext/amrwb/gstamrwbparse.c:503-507 | n blocks after a known time the time is exactly n block lengths later; an unknown time stays unknown |
| `AmrwbParse.SplitMore` | gst-plugins-bad0.10-musepack/ext/amrwb/gstamrwbparse.c:487-519 | blocks may be split off before or after more bytes arrive |
| `AmrwbParse.SplitBlocks` | gst-plugins-bad0.10-musepack/ext/amrwb/gstamrwbparse.c:493-498 | every block has the size its mode says, and what is left is less than a block |
| `AmrwbParse.ChunkIndependent` | gst-plugins-bad0.10-musepack/ext/amrwb/gstamrwbparse.c:457-519 | for every division into buffers and every size table the blocks are those of one parse of the whole stream; none without the magic |
| `AmrwbParse.NothingLost` | gst-plugins-bad0.10-musepack/ext/amrwb/gstamrwbparse.c:457-519 | header, blocks and leftover together are the input |
| `AmrwbParse.TimesChunkIndependent` | gst-plugins-bad0.10-musepack/ext/amrwb/gstamrwbparse.c:451-456 | with a time on the first buffer only, the times do not depend on the division either |
| `AmrwbParse.ParsesCoded` | gst-plugins-bad0.10-musepack/ext/amrwb/gstamrwbparse.c:457-519 | a stream of the magic, any blocks with their mode in the middle four bits of the first byte and that mode's payload, and the start of one more is parsed into exactly those blocks for every division into buffers; the start stays in the adapter |
| `AmrwbParse.TimesSinceLast` | gst-plugins-bad0.10-musepack/ext/amrwb/gstamrwbparse.c:451-507 | the blocks pushed from a buffer with a time on are stamped from that time, one after another |
| `AmrwbParse.BlockTimes` | gst-plugins-bad0.10-musepack/ext/amrwb/gstamrwbparse.c:503-507 | such a block starts exactly 20 ms later for each block before it; after an unknown time all are unknown |
| `Muxer.Choose` | gst-ffmpeg-0.10.9/ext/ffmpeg/gstffmpegmux.c:562-596 | the choice meets the description of the best pad, and there is none exactly when no pad has a buffer |
| `Muxer.ChoiceUnique` | gst-ffmpeg-0.10.9/ext/ffmpeg/gstffmpegmux.c:562-596 | at most one pad meets the description of the best pad |
| `Muxer.FFMpegMux.BestPad` | gst-ffmpeg-0.10.9/ext/ffmpeg/gstffmpegmux.c:562-596 | the loop finds the pad with the earliest buffer, the earlier pad on a tie, the first pad if its time is unknown |
| `Muxer.FFMpegMux.Open` | gst-ffmpeg-0.10.9/ext/ffmpeg/gstffmpegmux.c:446-560 | the output opens exactly when every pad has its caps and each step succeeds |
| `Muxer.FFMpegMux.Collected` | gst-ffmpeg-0.10.9/ext/ffmpeg/gstffmpegmux.c:436-666 | a callback fails and changes nothing if the output does not open; otherwise it pops and writes the chosen buffer, or writes the trailer and ends when no pad has one |
| `Muxer.CallbackCount` | gst-ffmpeg-0.10.9/ext/ffmpeg/gstffmpegmux.c:600-662 | a run takes exactly one callback for each buffer and one more |
| `Muxer.EachPadInOrder` | gst-ffmpeg-0.10.9/ext/ffmpeg/gstffmpegmux.c:600-653 | each pad's buffers are written once each, in the pad's order |
| `Muxer.OutputOrdered` | gst-ffmpeg-0.10.9/ext/ffmpeg/gstffmpegmux.c:562-596 | with known, nondecreasing times on each pad the whole output is ordered by time, then pad |
| `Muxer.StreamTimesIff` | gst-ffmpeg-0.10.9/ext/ffmpeg/gstffmpegmux.c:600-653 | each stream's decoding times, in ticks, do not decrease, exactly but for the times that `TicksMonotoneIff` excepts |
| `Muxer.PacketsHoldBuffers` | gst-ffmpeg-0.10.9/ext/ffmpeg/gstffmpegmux.c:600-653 | over a whole run the packets of each stream hold the buffers of its pad, one each in order: the data, the key mark exactly without the delta flag, the nearest ticks as both times, and the duration in ticks or 0 |
| `TimeConversion.TicksMonotoneIff` | gst-ffmpeg-0.10.9/ext/ffmpeg/gstffmpegutils.h:65-78 | a later known clock time never gets an earlier tick, exactly unless it alone is at least 2^63 and one of the two is half a tick or more from 0 |
| `TimeConversion.ExactTicks` | gst-ffmpeg-0.10.9/ext/ffmpeg/gstffmpegutils.h:50-78 | ticks to clock time and back is the identity when a tick is at least a nanosecond |
| `TimeConversion.ExactTicksIff` | gst-ffmpeg-0.10.9/ext/ffmpeg/gstffmpegutils.h:50-78 | and only then |
| `TimeConversion.TicksOfTimeIff` | gst-ffmpeg-0.10.9/ext/ffmpeg/gstffmpegutils.h:65-78 | an unknown time, or any in a base without length, becomes the unknown number of ticks, any other the nearest number |
| `TimeConversion.TimeOfTicksIff` | gst-ffmpeg-0.10.9/ext/ffmpeg/gstffmpegutils.h:50-63 | the unknown number of ticks becomes the unknown time, any other the nearest time, reduced to 64 bits |
| `Bits.MacrosRoundUp` | gst-ffmpeg-0.10.9/ext/ffmpeg/gstffmpegutils.c:250-255 | the mask and shift macros, bit by bit, round up to a multiple of a power of two |
| `PictureLayout.StridesAligned` | gst-ffmpeg-0.10.9/ext/ffmpeg/gstffmpegutils.c:268-293 | all three strides of a planar format are multiples of 4 |
| `PictureLayout.PlanesEndToEnd` | gst-ffmpeg-0.10.9/ext/ffmpeg/gstffmpegutils.c:268-293 | the planes follow each other without gap and end at the returned size |
| `PictureLayout.PlanesPartition` | gst-ffmpeg-0.10.9/ext/ffmpeg/gstffmpegutils.c:268-293 | every byte of the buffer is in exactly one plane |
| `PictureLayout.SamplesFit` | gst-ffmpeg-0.10.9/ext/ffmpeg/gstffmpegutils.c:268-293 | every sample lies inside the returned size |
| `PictureLayout.SamplesDisjoint` | gst-ffmpeg-0.10.9/ext/ffmpeg/gstffmpegutils.c:268-293 | no two samples share a byte |
| `PictureLayout.PlanarLayout` | gst-ffmpeg-0.10.9/ext/ffmpeg/gstffmpegutils.c:268-293 | luma and chroma strides are the least multiples of 4 for the width and its share, there is no chroma row too many for the height, and as many luma rows as those stand for; offsets and size follow |
| `PictureLayout.PlanarSize` | gst-ffmpeg-0.10.9/ext/ffmpeg/gstffmpegutils.c:268-293 | a planar picture that needs no rounding takes exactly 9, 12, 16 or 24 bits for each pixel, as its format says |
| `PictureLayout.PackedLayout` | gst-ffmpeg-0.10.9/ext/ffmpeg/gstffmpegutils.c:294-388 | the stride of a packed format is the least multiple of 4 that holds its pixels, the size that of its rows, plus 1024 for a palette; the one exception has its exact stride and size |
| `PictureLayout.PackedRowsFit` | gst-ffmpeg-0.10.9/ext/ffmpeg/gstffmpegutils.c:294-388 | rows of the packed formats fit stride and size; the stride is aligned but for one format, where it is exactly when the row is |
| `PictureLayout.NoLayoutIff` | gst-ffmpeg-0.10.9/ext/ffmpeg/gstffmpegutils.c:389-394 | there is no size and no plane exactly for the formats without a case |
| `PostProc.SameLayout` | gst-ffmpeg-0.10.9/ext/libpostproc/gstpostproc.c:300-305 | the postprocessor's strides and plane sizes are those of the picture layout for every width and height |
| `PostProc.ChromaStride` | gst-ffmpeg-0.10.9/ext/libpostproc/gstpostproc.c:300-302 | round8(w) / 2 = round4(ceil(w / 2)), also after rounding w to 4 |
| `PostProc.PostProcessor.constructor` | gst-ffmpeg-0.10.9/ext/libpostproc/gstpostproc.c:498-506 | the zeroed element agrees with the layout of the empty picture |
| `PostProc.PostProcessor.ChangeContext` | gst-ffmpeg-0.10.9/ext/libpostproc/gstpostproc.c:280-309 | strides always agree with the stored size, which is the new one exactly when both or neither of width and height changed |
| `PostProc.PostProcessor.Rebuild` | gst-ffmpeg-0.10.9/ext/libpostproc/gstpostproc.c:298-305 | a rebuilt context has the new size and agrees with its layout |
| `PostProc.StaleAfterWidthChange` | gst-ffmpeg-0.10.9/ext/libpostproc/gstpostproc.c:289 | a change of the width alone keeps a stride that is wrong for it |
| `OrderedDict.Dict.constructor` | gst-ffmpeg-0.10.9/common/scangobj-merge.py:19-21 | an empty dictionary |
| `OrderedDict.Dict.SetItem` | gst-ffmpeg-0.10.9/common/scangobj-merge.py:27-29 | a known key keeps its place and gets the value, a new one goes to the end; key list and dictionary still agree and hold no key twice |
| `OrderedDict.Dict.Lookup` | gst-ffmpeg-0.10.9/common/scangobj-merge.py:165-167 | the value filed under a key, if any |
| `OrderedDict.Dict.Values` | gst-ffmpeg-0.10.9/common/scangobj-merge.py:66-67 | the values in key order |
| `OrderedDict.PutAllKeys` | gst-ffmpeg-0.10.9/common/scangobj-merge.py:27-29 | over any writes the key order is that of first arrival |
| `OrderedDict.PutAllGet` | gst-ffmpeg-0.10.9/common/scangobj-merge.py:27-29 | over any writes a key holds the value written last |
| `OrderedDict.PutAllAgain` | gst-ffmpeg-0.10.9/common/scangobj-merge.py:27-29 | the same writes again change nothing |
| `Pattern.RunSound` | gst-ffmpeg-0.10.9/common/scangobj-merge.py:143-158 | what the matcher finds is a reading of the text as the pattern with its groups filled in |
| `Pattern.RunComplete` | gst-ffmpeg-0.10.9/common/scangobj-merge.py:143-158 | if there is such a reading it finds one |
| `Pattern.RunPriority` | gst-ffmpeg-0.10.9/common/scangobj-merge.py:143-158 | of all readings a greedy group takes a longest text and a lazy group a shortest |
| `Pattern.WordStops` | gst-ffmpeg-0.10.9/common/scangobj-merge.py:147-153 | a group of non-blank characters runs up to the next blank |
| `ScanFormat.SignalsWellFormed` | gst-ffmpeg-0.10.9/common/scangobj-merge.py:180-184 | the .signals layout meets what the proofs need of a layout |
| `ScanFormat.ArgsWellFormed` | gst-ffmpeg-0.10.9/common/scangobj-merge.py:243-252 | so does the .args layout |
| `ScanFormat.SignalText` | gst-ffmpeg-0.10.9/common/scangobj-merge.py:180-187 | the text printed for a signal, for every content of its fields |
| `ScanFormat.ArgText` | gst-ffmpeg-0.10.9/common/scangobj-merge.py:243-255 | the text printed for an argument |
| `ScanFormat.BodyClear` | gst-ffmpeg-0.10.9/common/scangobj-merge.py:143-146 | with clean fields a block's closing line begins nowhere inside its body |
| `ScanFormat.NameSearch` | gst-ffmpeg-0.10.9/common/scangobj-merge.py:147-153 | the name pattern splits owner and name at the separator |
| `ScanFormat.RecordSearch` | gst-ffmpeg-0.10.9/common/scangobj-merge.py:211-219 | the record pattern skips the name line and returns every field as it was printed, greedy and lazy groups alike |
| `ScanFormat.BlocksFound` | gst-ffmpeg-0.10.9/common/scangobj-merge.py:159-160 | findall over a printed file returns the bodies of its blocks, in order |
| `ScanMerge.Document.constructor` | gst-ffmpeg-0.10.9/common/scangobj-merge.py:135-136 | an empty document |
| `ScanMerge.Document.LoadBlock` | gst-ffmpeg-0.10.9/common/scangobj-merge.py:160-174 | one block: the object is made if it is new, and the entry filed if it can be read |
| `ScanMerge.Document.LoadData` | gst-ffmpeg-0.10.9/common/scangobj-merge.py:138-174 | the loop loads the facts of all blocks in order |
| `ScanMerge.Document.ObjectLines` | gst-ffmpeg-0.10.9/common/scangobj-merge.py:179-187 | the inner loop prints the entries of one object |
| `ScanMerge.Document.GetData` | gst-ffmpeg-0.10.9/common/scangobj-merge.py:176-189 | the nested loops and the join produce the text of the document |
| `ScanMerge.FileRead` | gst-ffmpeg-0.10.9/common/scangobj-merge.py:138-189 | a printed file with clean fields tells every entry of the document, in order, and nothing else |
| `ScanMerge.RoundTrip` | gst-ffmpeg-0.10.9/common/scangobj-merge.py:195-257 | loading what was printed gives the objects that have entries; it restores the document exactly when every object has one |
| `ScanMerge.EmptyObjectIsLost` | gst-ffmpeg-0.10.9/common/scangobj-merge.py:176-189 | an object without entries does not come back |
| `ScanMerge.LearnAllKeys` | gst-ffmpeg-0.10.9/common/scangobj-merge.py:159-174 | whatever a file holds, known objects keep their places and others follow as they first come |
| `ScanMerge.LearnAllAt` | gst-ffmpeg-0.10.9/common/scangobj-merge.py:159-174 | whatever a file holds, each object gets exactly the entries written for it |
| `ScanMerge.LearnAllFiled` | gst-ffmpeg-0.10.9/common/scangobj-merge.py:78-86 | whatever a file holds, objects and entries stay filed under their own names, each once |
| `ScanMerge.LoadAgain` | gst-ffmpeg-0.10.9/common/scangobj-merge.py:259-276 | loading any file a second time changes nothing |
| `ScanMerge.MergedObjects` | gst-ffmpeg-0.10.9/common/scangobj-merge.py:259-276 | after a merge the old objects keep their places and the new file's others follow in its order |
| `ScanMerge.MergedEntries` | gst-ffmpeg-0.10.9/common/scangobj-merge.py:259-276 | the same for the entries of each object; a new entry replaces the old one of its name and all others stay |
| `ScanMerge.MergedFile` | gst-ffmpeg-0.10.9/common/scangobj-merge.py:259-276 | the file the script writes, read again, has the old file's objects in their places, then the new file's others in its order; in each object likewise the entries, where a new one replaces the old one of its name and all others stay |
| `ScanMerge.MergeAgain` | gst-ffmpeg-0.10.9/common/scangobj-merge.py:259-276 | running the script again on its own output and the same new file writes the same file |

## Left out

- The waiting loops of the pipe are cut at each wait: a loop that blocks is a sequence of steps, not one method.
- One streaming thread (upstream serialises chain, serialized events and FLUSH_STOP with the stream lock) and one
  reading task; `gint` and `guint` sizes are natural numbers, so a negative read size and wrap-around are not modelled.
- Events before the demuxer is opened are queued elsewhere and are not part of the pipe model; neither is what the
  task does between reads, nor pull mode and seeking.
- `PipeObject.FFMpegPipe.Signal`: a ghost method that only names the waiters let go; scheduling itself is left open.
- `TimestampRing.AppendRefinesIff`: with more than 256 live entries the ring no longer stands for a queue, because the
  code itself has overwritten entries by then; its exact behaviour is still that of the ring operations. The overflow
  of a `gint` entry size is not modelled.
- `OpaqueList.PassThrough.Insert`: the allocator is assumed to hand out an address that no live record has.
- `AudioClip.AudioBuffer.ClipTo`: takes the segment's answer as a parameter with the contract stated above.
- `AvcConfig.CopyConfig`: requires that a record announced by version and size is complete, which the code takes for
  granted (`InsideIff` says what happens otherwise). Padding and alignment of the allocation are left out.
- `AudioEncoder.Encoder.Chain`: an encoder failure counts as OK and pushes nothing, as in the code; the conversion of
  samples inside the codec and the output buffer are left out, and the consumed-sample count does not wrap.
- `VideoEncoder.Encoder.Chain`: the codec's own picture (`coded_frame`) is absent, so the queue alone gives the
  times; the statistics file of two-pass encoding is left out.
- `AmrwbParse.Parser.Chain`: push mode only; caps, the segment event and clearing on FLUSH_STOP are left out.
- `Muxer.FFMpegMux.Collected`: what the codecs' own fields and tags are set to, the special case for one image format,
  and the numbering of frames are left out.
- `Muxer.OutputOrdered`: needs known, nondecreasing times on each pad; an unknown time is written first only on the
  first pad that has a buffer.
- `TimeConversion.ExactTicks`: the bounds of `av_rescale_q` are those of 64-bit values; its overflow is not modelled.
- `PictureLayout.SamplesFit`: sizes are natural numbers, so `int` overflow for huge pictures is not modelled; for
  formats without a case in the switch the strides are left as they were, which the model takes for none.
- `PostProc.PostProcessor.Rebuild`: the library context and the CPU flags are left out.
- The nested dictionaries of `scangobj-merge.py` are values inside the outer one, so aliasing of an object is not
  captured; `copy`, `update`, `popitem` and deletion, which the merge does not call, are left out.
- Reading and writing the documentation files, and the backup, are left out; `MergeFiles` is the text before and after.
- `Pattern.RunSound`: only literals, `\S*`, `.*` and `.*?` with DOTALL exist in the pattern model; blanks are those of
  ASCII.
- `ScanMerge.RoundTrip`: is about fields without delimiters: no blanks in the one-word fields, no "::" the name could
  add to the separator, and no closing line of its own field or of the block inside a text.
- The decoder's leftover buffer, quality-of-service skipping and the rest of the decoding loop.
- GObject registration, pads, properties, caps negotiation, the codec and pixel-format tables, and the other scripts.
