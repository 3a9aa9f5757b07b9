# GtkPASoundRec core, modelled in Dafny

GtkPASoundRec records what other programs play. Its C++ core has four parts:

- `soundrec.cpp` talks to a PulseAudio server.
  - A **clip** is a list of fixed-size blocks that grows while recording (`read_cb`). It is played back with a moving block cursor (`write_cb`).
  - It is saved block by block (`save_clip`) or lent out as (pointer, size) fragments (`get_pcm`).
  - A **session** state machine (IDLE, RECORDING, PLAYING_BACK) owns the current clip `cur` and the registry of clips.
  - **Device pairing** (`update_monitors`, `sink_cb`, `source_cb`) matches every sink with its monitor source and lists the other sources as microphones.
  - A debounced **stream diff engine** (`queue_update`, `update_cb`, `need_to_update`, `sink_input_cb`) keeps the list of other programs' playback streams ("sink inputs") up to date.
- `soundrec_ui.cpp` is the GTK window.
  - Its parts here: clip names and elapsed-time labels, the record, playback and clear buttons, "save" and "save all", the source lists, and the list of application streams (`inputs_cb`).
- `soundrec_dconf.cpp` reads a key file of keyboard shortcuts (`get_key_bindings`). It rewrites GNOME's list of custom keybindings so that it holds them (`clear_and_reload`, `get_custom_id`).
- `soundrec_dbus.cpp` is the D-Bus object. Its six methods fire the window's buttons (`handle_method_call`, with the callbacks `set_dbus_cb` registers).

Each module models one part:

| module | models |
|---|---|
| `Types` | the datatypes of `soundrec.hpp` |
| `ClipBuffer` | the block buffer and the two audio callbacks |
| `ClipAccess` | `get_pcm` and `save_clip` |
| `Session` | the state machine and the registry |
| `Devices` | pairing |
| `Streams` | the diff engine |
| `Labels` | names, labels and file names of the window |
| `Window` | the clip list and its buttons |
| `InputRows` | the application-stream list |
| `KeyBindings` | the key-file parser |
| `CustomList` | the keybinding-list rewrite |
| `RemoteControl` | the D-Bus dispatch |
| `Text` | the C string functions these use (`%d`, `strtok_r`, `strcasestr`, `strtol`) |

**How the model represents the C++:**

- Every place where the source aborts on a failed `assert`, or dereferences a NULL pointer, is a `Fail(fault)` result. `Types.Fault` lists them all.
- The block size `BLOCK_SIZE` is a parameter `B` (any positive size). The source fixes it at 1 MiB.
- A clip's blocks are `seq<seq<byte>>`.
- `std::map` lookups with `operator[]` read absent keys as the zero value, which is what `Types.Lookup` does.
- Integers are unbounded. No index or size in the core comes near its C width.

**Where the code and its documented design differ, the model follows the code:**

- A source is a sink's monitor when its name begins with the sink's name (`strncmp` over the sink name's length). It is not matched on a ".monitor" suffix.
- Pairing fails only when no sink at all has a monitor. The design says a sink without a monitor must fail. `Devices.UpdateMonitorsCorrected` is that stricter pairing.
- Every non-matching (sink, source) pair lists the source as a microphone, once per sink.
- A changed stream is dropped and re-listed. It is marked NEW rather than CHANGE, so the window shows it twice (see Findings).
- Playback stops only on a request that asks for more than was left, or once nothing is left. A request that takes exactly the rest does not stop it. The next request, which finds nothing left, does (`write_cb` tests `bytes_left` after clamping).
- The session (`Session.OnRead`, `Session.OnWrite`) and the window run the corrected audio callbacks, `ClipBuffer.ReadChunk` and `ClipBuffer.PlayChunk`, and the stream engine runs in `Streams.Step` with a flag that chooses between `need_to_update` as written and corrected. The callbacks as written are modelled beside them (see Findings).
- A chunk or request large enough to run past the block after the current one makes the source copy past the end of a block. The model reports that as the fault `BlockOverrun` rather than excluding such inputs. Chunks and requests of at most one block never cause it.
- Clearing the keybinding list as written, with no bindings to add, frees a pointer twice whenever it took an entry of the recorder's out. The model reports that as the fault `DoubleFree` (see Findings).

## Model

| member | source | states |
|---|---|---|
| `Types.Tag` | soundrec.hpp:18-40 | the type tag is INPUT exactly for an application stream and DEVICE exactly for a device |
| `Types.Lookup` | soundrec.cpp:259 | reading an update map at a missing index gives NOUPDATE, otherwise the stored event |
| `Text.DecimalRoundTrip` | soundrec_ui.cpp:30 | reading back the decimal digits `%d` prints gives the number printed |
| `Text.DecimalInjective` | soundrec_ui.cpp:30 | different numbers print differently |
| `Text.Tokens` | soundrec_dconf.cpp:61-65 | the tokens `strtok_r` yields are non-empty and hold no delimiter |
| `Text.TokensOfJoin` | soundrec_dconf.cpp:61-65 | tokenising a delimiter-joined list of tokens gives the list back |
| `Text.TokensSkip` | soundrec_dconf.cpp:64-65 | delimiters in front of a string change none of its tokens |
| `Text.TokensCons` | soundrec_dconf.cpp:64-65 | a token followed by the end or a delimiter is the first token, and tokenising carries on after it |
| `Text.TokensNone` | soundrec_dconf.cpp:64 | a string has no tokens exactly when it is made of delimiters only |
| `Text.RunOfToken` | soundrec_dconf.cpp:64-65 | the run `strtok_r` takes from a token followed by the end or a delimiter is the whole token |
| `Text.FindCI` | soundrec_ui.cpp:271 | `strcasestr` returns the first case-insensitive occurrence, and none exists when it finds nothing |
| `Text.Take` | soundrec_dconf.cpp:38 | `strncpy` of at most n characters keeps the first min(n, length) characters |
| `ClipBuffer.NewClip` | soundrec.cpp:44-48 | a new clip has one block of capacity B, nothing recorded or played, empty content, and the id it was given |
| `ClipBuffer.Rewind` | soundrec.cpp:57-60 | rewinding puts the cursor on the first block and the play position at 0, keeps the blocks and the recording, and leaves a valid playback shape |
| `ClipBuffer.RecordOffset` | soundrec.cpp:334 | the bytes already recorded in the last block lie within the block |
| `ClipBuffer.FillAtRecordOffset` | soundrec.cpp:353-354 | a chunk that fits in the last block's free room extends the recording by exactly the chunk |
| `ClipBuffer.SpillAtRecordOffset` | soundrec.cpp:341-351 | a chunk that overflows the last block fills it, opens a new block, and extends the recording by exactly the chunk |
| `ClipBuffer.ReadChunk` | soundrec.cpp:326-361 | corrected capture callback: it fails with `BlockOverrun` exactly when the chunk would run past the block after the last one; otherwise the recording becomes old content plus the chunk, a block is added exactly when capacity is exceeded, earlier blocks are untouched, and the recording shape is kept |
| `ClipBuffer.ReadChunkAsWritten` | soundrec.cpp:326-361 | the capture callback as written fails exactly when the chunk would run past the block after the one `rec_size % B` points into; otherwise it counts the chunk and never drops a block |
| `ClipBuffer.ReadAsWrittenAgrees` | soundrec.cpp:334-351 | while the last block has room, the callback as written is the corrected one |
| `ClipBuffer.ReadAsWrittenOverruns` | soundrec.cpp:334-337 | when the recording exactly fills its blocks, the callback as written copies the chunk over the start of the last block and counts more bytes than the clip holds |
| `ClipBuffer.ReadAsWrittenExample` | soundrec.cpp:334-353 | a full one-block clip [x, y] becomes [z, y] as written, where the corrected callback records [x, y, z] |
| `ClipBuffer.PlayOffset` | soundrec.cpp:374 | the play position within the cursor's block lies within the block |
| `ClipBuffer.PlayWithin` | soundrec.cpp:395-397 | a request inside the cursor's block hands over exactly the next recorded bytes |
| `ClipBuffer.PlayCrosses` | soundrec.cpp:386-393 | a request that runs past the cursor's block hands over the rest of that block and then the head of the next, which are the next recorded bytes |
| `ClipBuffer.CrossSlices` | soundrec.cpp:386-395 | m bytes from offset off of block k are the tail of block k followed by the head of block k + 1 |
| `ClipBuffer.PlayChunk` | soundrec.cpp:365-402 | corrected playback callback: it fails with `BlockOverrun` exactly when the bytes served would run past the block after the cursor's; otherwise it advances by min(request, bytes left), hands over exactly the recorded bytes between the old and new positions, and stops exactly when the request exceeds what was left or nothing was left |
| `ClipBuffer.PlayChunkAsWritten` | soundrec.cpp:365-402 | the playback callback as written fails exactly when the bytes served would run past the block after the one `played_size % B` points into; otherwise it advances by min(request, bytes left) and leaves the recording alone |
| `ClipBuffer.PlayAsWrittenAgrees` | soundrec.cpp:374-393 | away from the exact end of the cursor's block, the callback as written is the corrected one |
| `ClipBuffer.PlayAsWrittenReplays` | soundrec.cpp:374-393 | at the exact end of the cursor's block, the callback as written goes through exactly when the bytes served fit in two blocks; it then hands over the bytes starting B before the play position, so the same block again, and a request of at most B leaves the cursor where it was |
| `ClipBuffer.TwoBlocksAhead` | soundrec.cpp:386-393 | at the exact end of the cursor's block, more than B recorded bytes still to play mean the clip has two more blocks after the cursor's |
| `ClipBuffer.ReplayBytesWithin` | soundrec.cpp:374-376 | at the end of the cursor's block, the first m <= B bytes of that block are the m recorded bytes starting B before the play position |
| `ClipBuffer.ReplayBytesAcross` | soundrec.cpp:386-393 | at the end of the cursor's block, that whole block then the head of the next are the m recorded bytes starting B before the play position, for B < m <= 2B |
| `ClipBuffer.PlayAsWrittenExample` | soundrec.cpp:374-397 | two full blocks [a, b] [d, e] play as [a, b], [a, b] as written and as [a, b], [d, e] corrected |
| `ClipBuffer.RecordChunks` | soundrec.cpp:326-361 | a run of capture callbacks records the concatenation of the chunks, whatever the block boundaries, and chunks of at most one block never overrun |
| `ClipBuffer.PlayRequests` | soundrec.cpp:365-402 | a run of playback callbacks hands over a contiguous stretch of the recording; requests of at most one block never overrun; when playback stops everything has been played; and requests asking for more than was left in total always stop it |
| `ClipBuffer.RecordThenPlay` | soundrec.cpp:326-402 | recording chunks into a new clip and playing it back until playback stops hands back exactly the recorded bytes; with chunks and requests of at most one block that ask for more than was recorded, recording and playback go through and playback does stop |
| `ClipBuffer.Content` | soundrec.cpp:37-41 | a clip's content is exactly rec_size bytes long |
| `ClipBuffer.WriteBlock` | soundrec.cpp:353 | copying into block k at an offset is copying into the clip's byte string at the block's start plus that offset |
| `ClipBuffer.BlockOfIsDiv` | soundrec.cpp:334 | the block and offset of a position are C's unsigned `/` and `%` by the block size |
| `ClipAccess.FragmentsShape` | soundrec.cpp:547-559 | the fragment loop yields one fragment per block touched, each non-empty and inside its block, with sizes summing to the range length |
| `ClipAccess.Fragments` | soundrec.cpp:547-559 | the fragment loop yields fragments exactly when the range is non-empty, the i-th on the block the iterator reached after i steps |
| `ClipAccess.SkipAsWritten` | soundrec.cpp:543-545 | the skip loop as written leaves the iterator on block 0 for a start of at most B, and moves it on for any later start |
| `ClipAccess.NfragAsWritten` | soundrec.cpp:534-538 | the fragment count as written is ceil(n / B), or one more, and one more only when neither start nor n is a multiple of B |
| `ClipAccess.GatherFragments` | soundrec.cpp:547-559 | the fragments point at exactly the bytes of the requested range |
| `ClipAccess.RangeFragments` | soundrec.cpp:547-559 | for a range of a valid clip, the fragments are in the clip's blocks and cover exactly that range of its recording |
| `ClipAccess.GetPcm` | soundrec.cpp:513-562 | corrected `get_pcm`: it returns min(nbytes, bytes after start), or 0 past the end; it allocates exactly as many fragments as it fills; and the fragments cover exactly those recorded bytes |
| `ClipAccess.SkipAsWrittenValue` | soundrec.cpp:543-545 | the skip loop as written stops on start's block, except one block early when start is a positive multiple of B |
| `ClipAccess.NfragAsWrittenCount` | soundrec.cpp:534-538 | the fragment count as written is one short of the blocks touched exactly when n is a positive multiple of B and start is not block-aligned |
| `ClipAccess.TouchedValue` | soundrec.cpp:534-538 | the blocks a range touches: full blocks of n, plus 0, 1 or 2 depending on the two remainders |
| `ClipAccess.CeilDivValue` | soundrec.cpp:534 | ceil(n / B) is the full blocks in n plus one for a partial block |
| `ClipAccess.GetPcmAsWritten` | soundrec.cpp:513-562 | `get_pcm` as written returns the same byte count as the corrected one |
| `ClipAccess.GetPcmAsWrittenAgrees` | soundrec.cpp:529-559 | when start is not a positive multiple of B, and it is not the case that start is unaligned while the count is a positive multiple of B, the code as written is the corrected one |
| `ClipAccess.GetPcmAsWrittenReadsEarlier` | soundrec.cpp:543-550 | when start is a positive multiple of B, the first fragment as written points at the block before start's, at the B bytes before start |
| `ClipAccess.GetPcmAsWrittenUndercounts` | soundrec.cpp:534-538 | when the count is a positive multiple of B and start is unaligned, the code as written fills one fragment more than it allocated |
| `ClipAccess.GetPcmAsWrittenExample` | soundrec.cpp:543-550 | on [a, b] [d, e] with B = 2, asking for 2 bytes from byte 2 gives block 0 ([a, b]) as written and block 1 ([d, e]) corrected |
| `ClipAccess.GetPcmUndercountExample` | soundrec.cpp:534-541 | on the same clip, 2 bytes from byte 1 allocate one fragment as written and fill two |
| `ClipAccess.SaveClip` | soundrec.cpp:471-482 | the bytes handed to the sound file, all full blocks then the last partial one, are exactly the recording |
| `Session.InitInv` | soundrec.cpp:98-104 | the initial session is idle, holds no clips and satisfies the session invariant |
| `Session.StartRecording` | soundrec.cpp:404-432 | starting fails exactly when not idle, or when an application stream's sink has no monitor; otherwise a fresh id (the counter) gets an empty clip, the state is RECORDING on it, other clips are kept, and the device recorded is the sink's monitor or the device itself |
| `Session.Stop` | soundrec.cpp:314-324 | stopping a recording or a playback returns to IDLE and keeps the clips, the current clip and the counter |
| `Session.StartPlayback` | soundrec.cpp:434-447 | playback fails exactly when not idle or the id is unknown; otherwise it plays that clip from position 0, with its content and every other clip unchanged |
| `Session.DeleteClip` | soundrec.cpp:564-576 | deletion fails exactly for an unknown id or for the current clip while a session runs; otherwise only that id leaves the registry, and `cur` is cleared when it was that clip |
| `Session.OnRead` | soundrec.cpp:326-361 | a capture callback runs the corrected `ClipBuffer.ReadChunk` on the current clip: it fails exactly on a block overrun; otherwise it appends the chunk to the current clip only, and reports the whole chunk, or on a straddling chunk only the bytes that land in the new block |
| `Session.OnWrite` | soundrec.cpp:365-402 | outside playback nothing happens; during playback it runs the corrected `ClipBuffer.PlayChunk` on the current clip: it fails exactly on a block overrun, otherwise the next bytes are handed over, and the session goes IDLE exactly when the request exceeded what was left or nothing was left |
| `Session.Progress` | soundrec.cpp:509-511 | progress fails exactly with no current clip, otherwise it is (played, recorded) of the current clip with played <= recorded |
| `Session.GetPcmById` | soundrec.cpp:513-526 | fails exactly for an unknown id; otherwise the fragments cover the clip's bytes from start on |
| `Session.SaveFaultAsWritten` | soundrec.cpp:461-469 | saving as written goes through exactly when there is a current clip and the id is known |
| `Session.SaveFault` | soundrec.cpp:468-469 | saving with the header taken from the clip itself goes through exactly when the id is known |
| `Session.SaveClipById` | soundrec.cpp:449-491 | saving fails exactly on an unknown id, and otherwise writes exactly that clip's recording |
| `Session.SaveAfterDeletingCurrent` | soundrec.cpp:461-469 | after deleting the current clip while idle, saving another registered clip fails as written and goes through corrected |
| `Session.SaveAfterDeletingCurrentExample` | soundrec.cpp:564-573 | record two clips, delete the second: saving the first then fails as written |
| `Session.Apply` | soundrec.cpp:404-576 | every call keeps the session invariant; a started recording gets the counter as its id, an id not registered before |
| `Session.Run` | soundrec.cpp:404-576 | a run of calls keeps the invariant and advances the counter by the number of recordings started |
| `Session.RunIdsFresh` | soundrec.cpp:44-47 | clip ids are never reused: a run hands out the counter, counter + 1, and so on, none registered before |
| `Devices.Matching` | soundrec.cpp:127-136 | the sources kept for a sink are sources that are its monitors |
| `Devices.NonMatching` | soundrec.cpp:137-140 | the sources listed as microphones for a sink are sources that are not its monitors |
| `Devices.MatchingSplit` | soundrec.cpp:125-141 | for one sink the monitors and the non-monitors together are exactly as many as the sources |
| `Devices.MatchingHas` | soundrec.cpp:127 | a listed source is kept for a sink exactly when it is that sink's monitor |
| `Devices.AllMonitorsHas` | soundrec.cpp:123-136 | a listed source is on the monitor list exactly when it is some sink's monitor |
| `Devices.PairSinkFails` | soundrec.cpp:125-134 | one sink fails the assertion exactly when it has two monitors, or one while its index is already mapped |
| `Devices.PairSinkSpec` | soundrec.cpp:125-141 | one sink appends its monitors and non-monitors in source order, and maps its index to its monitor |
| `Devices.PairSinkLists` | soundrec.cpp:125-141 | one sink appends its monitors and its non-monitors in source order, and sets `got_monitors` exactly when it has a monitor |
| `Devices.PairSinkMonitors` | soundrec.cpp:125-141 | one sink appends exactly its monitors, in source order, and sets `got_monitors` exactly when it has one |
| `Devices.PairSinkMics` | soundrec.cpp:125-141 | one sink appends exactly the sources that are not its monitors, in source order |
| `Devices.PairSinkMap` | soundrec.cpp:127-133 | one sink maps its index to its monitor when it has one, and leaves the rest of the map alone |
| `Devices.PairSink` | soundrec.cpp:125-141 | one sink's pass only appends to both lists, adds one entry per source to them in total, sets `got_monitors` exactly when it adds a monitor, and adds at most the sink's index to the map, keeping every earlier entry |
| `Devices.PairAll` | soundrec.cpp:123-142 | the loop over sinks only appends to both lists, and sets `got_monitors` exactly when some monitor was added |
| `Devices.PairAllFails` | soundrec.cpp:123-142 | with distinct sink indices, pairing fails exactly when some sink has two monitors |
| `Devices.PairAllLists` | soundrec.cpp:123-142 | the monitor and microphone lists come out sink by sink, in source order |
| `Devices.PairAllMonitors` | soundrec.cpp:123-136 | the monitor list comes out sink by sink, and `got_monitors` is set exactly when it is non-empty |
| `Devices.PairAllMics` | soundrec.cpp:123-140 | the microphone list comes out sink by sink, in source order |
| `Devices.PairAllMap` | soundrec.cpp:127-133 | each sink with a monitor is mapped to its first monitor, and nothing else is added to the map |
| `Devices.PairAllFault` | soundrec.cpp:130 | the only fault pairing itself raises is the duplicate monitor |
| `Devices.PairCount` | soundrec.cpp:123-142 | every (sink, source) pair lands on exactly one list: the two lengths add up to sinks times sources |
| `Devices.UpdateMonitorsSpec` | soundrec.cpp:118-147 | `update_monitors` fails exactly on a duplicate monitor or when no monitor exists, and otherwise hands over the sink-major lists, mapping exactly the monitored sinks |
| `Devices.UpdateMonitors` | soundrec.cpp:118-147 | when `update_monitors` goes through, `got_monitors` is set and the monitor list is non-empty |
| `Devices.UpdateMonitorsCorrected` | soundrec.cpp:143 | corrected pairing goes through exactly when pairing as written does and every sink has a monitor; where only the second fails it reports the sink without a monitor; on success the microphones are exactly the sources that are no sink's monitor |
| `Devices.MicsAsWrittenRepeat` | soundrec.cpp:136-140 | as written, a source that is no sink's monitor is listed as a microphone once per sink |
| `Devices.MonitorAsWrittenIsMic` | soundrec.cpp:136-140 | as written, every source that is not the second sink's monitor (the first sink's monitor included) is listed as a microphone |
| `Devices.MicsCorrected` | soundrec.cpp:136-140 | corrected microphones are exactly the sources that are no sink's monitor, each as often as it is listed |
| `Devices.MicsCorrectedDistinct` | soundrec.cpp:136-140 | with no source listed twice, no corrected microphone is listed twice |
| `Devices.UpdateMonitorsCorrectedSpec` | soundrec.cpp:143 | after corrected pairing every listed sink is mapped; a source is on the monitor list exactly when it is some sink's monitor, and on the microphone list exactly when it is not |
| `Devices.CorrectedPairingRecords` | soundrec.cpp:419-427 | after corrected pairing, recording a stream on any listed sink starts |
| `Devices.MonitorAssertionTooWeak` | soundrec.cpp:143 | with sinks a, b and only a.monitor, pairing as written succeeds, and recording a stream on b fails on the missing monitor; corrected pairing refuses |
| `Devices.MicsAsWrittenShape` | soundrec.cpp:136-140 | with sinks a, b and sources a's monitor, b's monitor and a microphone, the microphones as written are [b's monitor, mic, a's monitor, mic] |
| `Devices.MicsCorrectedShape` | soundrec.cpp:136-140 | for the same devices, the corrected microphones are [mic] |
| `Devices.MicsAsWrittenExample` | soundrec.cpp:123-143 | the same with the concrete names "a", "b", "a.monitor", "b.monitor" and "mic" |
| `Devices.OnDevEvent` | soundrec.cpp:149-169 | `sink_cb` and `source_cb` append the listed device to their list; pairing runs only on an end-of-list marker, when both lists are complete, on the lists gathered; the catalog invariant is kept |
| `Devices.Feed` | soundrec.cpp:149-169 | a run of device callbacks only appends to the lists, never clears an end-of-list flag, and never undoes a pairing |
| `Devices.FeedFlags` | soundrec.cpp:149-169 | in any callback order, pairing has run exactly when both end-of-list markers have arrived |
| `Devices.FeedInterleave` | soundrec.cpp:149-169 | from any point of an interleaving, the rest of the callbacks pair the complete lists |
| `Devices.PairsAfterBothLists` | soundrec.cpp:149-190 | however the sink and source enumerations interleave, the pairing made is that of the complete lists, in arrival order |
| `Streams.Connected` | soundrec.cpp:301-306 | on connection a listing starts at once with `update_pending` set and no timer |
| `Streams.QueueUpdate` | soundrec.cpp:270-276 | an event is stored under its index, other indices are kept, and a timer is scheduled exactly when none was pending |
| `Streams.Survivors` | soundrec.cpp:257-263 | the timer keeps exactly the streams without a REMOVE or CHANGE event |
| `Streams.Mark` | soundrec.cpp:259 | looking every stream up adds their indices to the map without changing what any index reads as |
| `Streams.TimerFires` | soundrec.cpp:252-268 | the timer drops removed and changed streams, freezes the events (each listed stream's index made explicit), clears the map and starts a listing |
| `Streams.NeedToUpdate` | soundrec.cpp:192-221 | fails exactly when a listed stream is frozen NEW or REMOVE; a stream is (re)added exactly when unknown or frozen CHANGE; an unknown stream is marked NEW |
| `Streams.NeedToUpdateCorrected` | soundrec.cpp:192-221 | corrected: fails exactly when a listed stream is frozen REMOVE; a listed stream frozen NEW is kept and marked NOUPDATE; an unknown stream frozen CHANGE keeps its CHANGE mark; otherwise as written |
| `Streams.EnumEntry` | soundrec.cpp:223-235 | a listing entry appends the stream exactly when it is unknown or frozen CHANGE, and touches neither the event map nor the timer |
| `Streams.EnumEntryCorrected` | soundrec.cpp:223-235 | a corrected listing entry touches neither the event map nor the timer |
| `Streams.KnownNewAborts` | soundrec.cpp:204-209 | as written, listing a stream already in the list whose frozen event is NEW fails the assertion |
| `Streams.KnownNewKept` | soundrec.cpp:204-209 | corrected, the same stream stays in the list once and is marked NOUPDATE |
| `Streams.FirstListingAdds` | soundrec.cpp:216-233 | a stream whose NEW event arrives during the first listing is added by that listing, and its event is left in the map with no timer scheduled |
| `Streams.NewDuringListingAborts` | soundrec.cpp:209 | as written, that NEW event waits until another event schedules the timer, which freezes it; the next listing of the stream fails the assertion |
| `Streams.NewDuringListingKept` | soundrec.cpp:204-209 | corrected, the timer after the first listing freezes the NEW event, and the next listing keeps the stream once, marked NOUPDATE |
| `Streams.EnumEnd` | soundrec.cpp:236-241 | the end of a listing hands the list and the frozen map to the window and clears `update_pending` |
| `Streams.EnumEndCorrected` | soundrec.cpp:236-241 | corrected, events that arrived during the listing schedule a timer |
| `Streams.Enumerate` | soundrec.cpp:223-242 | a run of listing entries keeps the listing going and the event map untouched |
| `Streams.ConnectedInv` | soundrec.cpp:244-250 | the engine starts in the debounce invariant |
| `Streams.StepKeepsInv` | soundrec.cpp:244-276 | every event keeps the debounce invariant: `update_pending` is set exactly while a timer or a listing is outstanding, never both |
| `Streams.Step` | soundrec.cpp:223-306 | only a listing entry can fail, and only on the assertion of `need_to_update`; a timer starts a listing with an empty event map and no timer; the end of a listing ends it and keeps the list |
| `Streams.StepCorrectedKeepsLive` | soundrec.cpp:236-276 | corrected, a waiting event is always covered by a scheduled timer or a running listing |
| `Streams.StrandedWaits` | soundrec.cpp:270-276 | from a stranded engine only a new subscription event can move on |
| `Streams.EventDuringListingStranded` | soundrec.cpp:270-276 | as written, an event that arrives during a listing is left waiting with no timer once the listing ends |
| `Streams.EventDuringListingPickedUp` | soundrec.cpp:236-241 | corrected, the same event is picked up by a timer after the listing |
| `Streams.EnumerateCorrectedInputs` | soundrec.cpp:223-235 | a corrected listing appends exactly the streams not yet known, in listing order |
| `Streams.EnumerateCorrectedFrozen` | soundrec.cpp:204-218 | a corrected listing marks NEW exactly the appended streams that were not frozen CHANGE, and leaves every other mark |
| `Labels.TwoDigits` | soundrec_ui.cpp:37 | `%02d` of a number below 100 is two digits |
| `Labels.FormatTime` | soundrec_ui.cpp:33-38 | the elapsed-time label fits the ten-byte buffer |
| `Labels.FormatTimeRoundTrip` | soundrec_ui.cpp:33-38 | below 100000 minutes, the label reads back as the seconds it shows |
| `Labels.FormatTimeInjective` | soundrec_ui.cpp:33-38 | below that bound, different durations get different labels |
| `Labels.ClipName` | soundrec_ui.cpp:28-31 | a clip name starts with "Clip" and fits the ten-byte buffer |
| `Labels.ClipNameInjective` | soundrec_ui.cpp:30 | below clip number 100000, no two clips share a name |
| `Labels.SaveName` | soundrec_ui.cpp:269-277 | the proposed name is the clip name, or the name plus ".wav"; kept exactly when the first case-insensitive ".wav" is its last four characters |
| `Labels.SaveNameEndsInWav` | soundrec_ui.cpp:269-277 | the proposed name always ends in ".wav", ignoring case |
| `Labels.SaveNameCases` | soundrec_ui.cpp:271-276 | a name with no ".wav" gets the suffix; a name whose only ".wav" ends it is kept |
| `Labels.SaveNameCorrected` | soundrec_ui.cpp:271-276 | corrected, the name is kept exactly when it ends in ".wav", and otherwise gets the suffix |
| `Labels.SaveNameCorrectedIdempotent` | soundrec_ui.cpp:271-276 | corrected, proposing a name for a proposed name changes nothing |
| `Labels.SaveNameAppendsToWavName` | soundrec_ui.cpp:271 | as written, "p.wav.wav" is proposed as "p.wav.wav.wav", and proposing again appends again; corrected it is kept |
| `Labels.DisplayName` | soundrec_ui.cpp:571-575 | a name longer than eight characters that ends in ".monitor" is shown without it; any other name is shown as is |
| `Labels.DisplayNameOfMonitor` | soundrec_ui.cpp:571-575 | a sink's monitor is shown under the sink's name |
| `Labels.SourceRows` | soundrec_ui.cpp:558-584 | a source list has one row per device, in order, each with the device's shown name |
| `Labels.SaveAllPathInjective` | soundrec_ui.cpp:341-350 | different clip numbers are saved to different files |
| `Labels.SaveAllPath` | soundrec_ui.cpp:341-350 | a file path starts with the directory, a '/' and the prefix, and ends in ".wav", with at least one character, the number, in between |
| `Labels.PlanFiles` | soundrec_ui.cpp:346-363 | writing goes ahead exactly when none of the clips' files exists, with one file per clip in clip-id order |
| `Labels.PlanStopsAtFirst` | soundrec_ui.cpp:352-360 | when a file exists, the plan stops at the first such clip |
| `Labels.SaveAll` | soundrec_ui.cpp:320-387 | "save all" refuses exactly when the path is not a directory |
| `Labels.SaveAllFilesDistinct` | soundrec_ui.cpp:346-369 | with distinct clip numbers, no two clips are written to the same file |
| `Window.Put` | soundrec_ui.cpp:108 | `clip_map[id] = dat` leaves the map sorted, holding the new entry and every entry under another id |
| `Window.Erase` | soundrec_ui.cpp:437 | `clip_map.erase(id)` keeps exactly the entries under other ids |
| `Window.RemoveRow` | soundrec_ui.cpp:434 | removing a clip's row keeps exactly the other rows, and the first row when it was not the removed one |
| `Window.AddClip` | soundrec_ui.cpp:102-111 | a new clip's row goes first, its entry is named "Clip" plus the next clip number, and other entries are kept |
| `Window.EmptyAppInv` | soundrec_ui.cpp:56-57 | the empty window agrees with the initial session |
| `Window.OnRecord` | soundrec_ui.cpp:150-173 | in IDLE a selected source starts a recording whose row goes first (failing only for a stream without monitor); in RECORDING it stops; otherwise nothing changes |
| `Window.OnPlayback` | soundrec_ui.cpp:223-245 | in IDLE it plays the selected clip or else the first row, failing only for a selected clip with no row; in PLAYING_BACK it stops; in RECORDING nothing changes |
| `Window.ClearClip` | soundrec_ui.cpp:433-437 | deleting a row and its clip fails exactly for the clip of a running session, and otherwise removes both |
| `Window.OnClear` | soundrec_ui.cpp:415-438 | as written, clearing fails exactly when playing back a clip other than the first row and that clip is selected |
| `Window.OnClearCorrected` | soundrec_ui.cpp:415-438 | corrected, clearing never fails, and removes the selected clip unless it is the one in use |
| `Window.AddClipKeepsWindowInv` | soundrec_ui.cpp:102-111 | a new row and entry keep the window consistent |
| `Window.OnRecordKeepsInv` | soundrec_ui.cpp:150-173 | the record button keeps the window in step with the session |
| `Window.OnPlaybackKeepsInv` | soundrec_ui.cpp:223-245 | the playback button keeps the window in step with the session |
| `Window.RemoveKeepsWindowInv` | soundrec_ui.cpp:434-437 | removing a row and its entry keeps the window consistent |
| `Window.ClearClipKeepsInv` | soundrec_ui.cpp:433-437 | a successful clear keeps the window in step with the session |
| `Window.OnClearCorrectedKeepsInv` | soundrec_ui.cpp:415-438 | the corrected clear button keeps the window in step with the session |
| `Window.RecordTwoClips` | soundrec_ui.cpp:150-173 | recording twice from a fresh window leaves rows [1, 0], newest first |
| `Window.ClearWhilePlayingOlderClip` | soundrec_ui.cpp:426-431 | playing clip 0 while clip 1 is the first row, clearing clip 0 fails as written and is refused harmlessly corrected |
| `Window.SaveAllClips` | soundrec_ui.cpp:346-350 | "save all" walks the entries in order, taking each clip's number and id |
| `Window.SaveAllFromWindow` | soundrec_ui.cpp:346-369 | from a consistent window, "save all" writes every registered clip, each to its own file |
| `Window.IdsCount` | soundrec_ui.cpp:56 | sorted entries, one per row, one row per registered clip: as many entries as clips |
| `InputRows.Rows` | soundrec_ui.cpp:629-635 | one row per stream, in order |
| `InputRows.RowOf` | soundrec_ui.cpp:620-635 | a stream's row carries its sink and index, and its name is "Unknown" when it has no application name |
| `InputRows.InputsCb` | soundrec_ui.cpp:593-638 | every old row not dropped stays, every stream marked NEW or CHANGE gets its row, and no other row appears |
| `InputRows.KeepRows` | soundrec_ui.cpp:607-616 | the first loop keeps exactly the rows of streams not dropped |
| `InputRows.NewRows` | soundrec_ui.cpp:618-637 | the second loop adds a row for every stream marked NEW or CHANGE, and only for those |
| `InputRows.KeepRowsOfRows` | soundrec_ui.cpp:607-616 | removing rows follows the timer's removal of streams |
| `InputRows.NewRowsAppend` | soundrec_ui.cpp:618-637 | the rows added for two lists are the rows of each |
| `InputRows.Refresh` | soundrec_ui.cpp:593-638 | a completed refresh cycle ends its listing |
| `InputRows.RefreshRows` | soundrec_ui.cpp:593-638 | the rows after a refresh are `inputs_cb` of the list and frozen map the listing left |
| `InputRows.SurvivorsQuiet` | soundrec.cpp:204-218 | a surviving stream is neither dropped nor shown again |
| `InputRows.FreshShown` | soundrec.cpp:216-218 | an appended stream is marked to be shown |
| `InputRows.DropAgrees` | soundrec_ui.cpp:611-612 | the window drops an old stream's row exactly when the timer dropped the stream |
| `InputRows.RowsAssemble` | soundrec_ui.cpp:593-638 | given the three facts above, `inputs_cb` on the old rows shows the new list |
| `InputRows.RefreshMirrors` | soundrec_ui.cpp:593-638 | with the corrected engine, a pending timer, a listing with distinct indices, no NEW event pending for a stream already listed and no REMOVE event for a stream in the listing: after a refresh the window shows exactly the engine's new list, which is the survivors plus the new streams |
| `InputRows.ChangedStreamDropped` | soundrec.cpp:257-265 | the timer drops a stream with a CHANGE event and freezes the event |
| `InputRows.ChangedListing` | soundrec.cpp:204-218 | re-listing a changed stream appends it once, marked NEW as written and CHANGE corrected |
| `InputRows.RowsAfterSingleListing` | soundrec_ui.cpp:607-636 | the window keeps or drops the old row as the frozen mark says, and adds the new row when the mark shows it |
| `InputRows.ChangedStreamShownTwice` | soundrec_ui.cpp:611-636 | as written, a changed stream ends with its old and its new row, while the engine lists it once |
| `InputRows.ChangedStreamShownOnce` | soundrec_ui.cpp:611-636 | corrected, the changed stream's row is replaced by its new one |
| `KeyBindings.MakeBinding` | soundrec_dconf.cpp:32-43 | a binding's name is the tag plus the action (up to 36 characters), its key is the one given, and its command ends in the action's method name |
| `KeyBindings.LastBindingSound` | soundrec_dconf.cpp:63-74 | the key found for an action is on some line, and no later line gives that action a key |
| `KeyBindings.LastBindingComplete` | soundrec_dconf.cpp:63-74 | a line giving an action a key with no later such line decides the action's key |
| `KeyBindings.LastBindingWins` | soundrec_dconf.cpp:67-72 | an action gets key b exactly when some line gives it b and no later line gives it any key |
| `KeyBindings.ParseSlots` | soundrec_dconf.cpp:61-74 | after the line loop, each action's slot holds the key of its last line |
| `KeyBindings.ApplyLine` | soundrec_dconf.cpp:67-72 | one line sets the slot of exactly the action it gives a key, to that key, and leaves every other slot |
| `KeyBindings.AnyKey` | soundrec_dconf.cpp:76 | the bit set is non-zero exactly when some action has a key |
| `KeyBindings.CollectBindings` | soundrec_dconf.cpp:78-83 | the second loop makes, in action order, one binding for each action the file gives a key, from that key |
| `KeyBindings.Declared` | soundrec_dconf.cpp:79-83 | there is at most one binding per action considered |
| `KeyBindings.DeclaredHas` | soundrec_dconf.cpp:79-83 | a binding is made exactly for each action with a key, built from that key |
| `KeyBindings.DeclaredEmpty` | soundrec_dconf.cpp:76 | no bindings exactly when no action has a key |
| `KeyBindings.GetKeyBindings` | soundrec_dconf.cpp:54-93 | no list exactly when the file cannot be read or gives no action a key; otherwise a non-empty list with one binding per action with a key, in action order |
| `KeyBindings.OneLinePerAction` | soundrec_dconf.cpp:61-73 | a file with one "action key" line per action gives each action its key |
| `KeyBindings.LineFields` | soundrec_dconf.cpp:64-65 | the fields of an "action key" line are the action and the key |
| `KeyBindings.LinePaddedFields` | soundrec_dconf.cpp:64-65 | with any blanks before the action, one or more blanks between action and key, and after the key the end of the line or a blank and anything else, the fields are the action and the key |
| `KeyBindings.BlankLineFields` | soundrec_dconf.cpp:64 | a line has no action field exactly when it holds blanks only |
| `KeyBindings.Fields` | soundrec_dconf.cpp:64-65 | a line has a key field only when it has an action field, and each field found is a token: non-empty and free of tabs and spaces |
| `KeyBindings.LineBinding` | soundrec_dconf.cpp:64-72 | a line gives an action a key exactly when its first field is the action and it has a second field, and that key is the second field |
| `KeyBindings.LastBinding` | soundrec_dconf.cpp:61-74 | an action has no key exactly when no line gives it one; a key found is non-empty |
| `CustomList.DeleteMarkedKeeps` | soundrec_dconf.cpp:156-167 | removing the marked positions, each shifted down by the entries already removed, leaves exactly the kept entries in order |
| `CustomList.KeptAreKeep` | soundrec_dconf.cpp:132-167 | the two removal loops leave exactly the entries that have a name not starting with the recorder's tag |
| `CustomList.KeepHas` | soundrec_dconf.cpp:140-153 | an entry is kept exactly when it has a foreign name, and taken out exactly when it has none or ours |
| `CustomList.KeepIdempotent` | soundrec_dconf.cpp:132-167 | removing again removes nothing more |
| `CustomList.CustomIdOfPath` | soundrec_dconf.cpp:189 | the corrected reading recovers the number of every path the rewrite makes |
| `CustomList.CustomPathInjective` | soundrec_dconf.cpp:189 | different numbers make different paths |
| `CustomList.ScanDigits` | soundrec_dconf.cpp:101 | the scan stops at the first non-digit, every character passed being a digit |
| `CustomList.CustomId` | soundrec_dconf.cpp:95-108 | the corrected reading finds a number exactly when the path ends in a digit followed by '/' |
| `CustomList.Strtol` | soundrec_dconf.cpp:104 | `strtol` skips a leading blank; reads the run of digits at a digit; after a '-' reads the digits negated and after a '+' reads them as they are; reads nothing when a sign has no digit after it, at the end of the string, and at a character that is neither blank, sign nor digit |
| `CustomList.CustomIdAsWritten` | soundrec_dconf.cpp:95-108 | `get_custom_id` as written fails its first assertion for a length of at most 2, reads out of bounds for a length beyond the path's, and has no other fault |
| `CustomList.AsWrittenReadsLastDigit` | soundrec_dconf.cpp:95-108 | even given the path's own length, `get_custom_id` as written reads only the last digit of the number |
| `CustomList.ReadsDigitBeforeEnd` | soundrec_dconf.cpp:101-105 | as written, a path ending in a digit and a non-digit reads as that one digit |
| `CustomList.ReadsDigitWithShortLength` | soundrec_dconf.cpp:170 | with a length one short, a path ending in two digits and a non-digit reads as the second digit |
| `CustomList.Ids` | soundrec_dconf.cpp:169-174 | the numbers read are one per kept entry, each its path's number |
| `CustomList.IdsNone` | soundrec_dconf.cpp:169-174 | reading the numbers fails exactly when some kept path holds none |
| `CustomList.MaxId` | soundrec_dconf.cpp:169-174 | the maximum starts at -1, bounds every number read, and is -1 or one of them |
| `CustomList.NewPaths` | soundrec_dconf.cpp:185-190 | the n new paths are numbered consecutively from the given first number |
| `CustomList.NewPathsFresh` | soundrec_dconf.cpp:185-190 | paths numbered above every kept number are distinct and differ from every kept path |
| `CustomList.Zip` | soundrec_dconf.cpp:185-215 | each new path is paired with its binding, in order |
| `CustomList.Assemble` | soundrec_dconf.cpp:180-225 | the reset paths pass through, and a list is stored exactly when there are bindings |
| `CustomList.ClearAndReload` | soundrec_dconf.cpp:110-231 | the corrected rewrite fails only on a path with no number; it resets exactly the entries taken out, and stores a list exactly when there are bindings |
| `CustomList.ReloadFailsIff` | soundrec_dconf.cpp:99-105 | the corrected rewrite fails exactly when a kept path holds no number |
| `CustomList.ReloadShape` | soundrec_dconf.cpp:180-190 | with bindings, the stored list is the kept paths plus fresh, distinct new paths, each binding written under its own |
| `CustomList.ReloadAddsFreshPaths` | soundrec_dconf.cpp:180-221 | the stored list starts with the kept paths, then new paths distinct from them and from each other, one per binding |
| `CustomList.ReloadDependsOnKept` | soundrec_dconf.cpp:169-225 | apart from what it resets, the rewrite depends only on the kept entries |
| `CustomList.KeptThenOurs` | soundrec_dconf.cpp:143-153 | entries of ours added behind kept ones are exactly what the next rewrite takes out |
| `CustomList.ClearUndoesReload` | soundrec_dconf.cpp:110-231 | rewriting the list a rewrite produced resets exactly the entries it added, and stores the same list again |
| `CustomList.IdsAsWritten` | soundrec_dconf.cpp:169-174 | as written, one number is read per kept entry, and the only faults are those of `get_custom_id` |
| `CustomList.ClearAndReloadAsWritten` | soundrec_dconf.cpp:110-231 | the rewrite as written, when it goes through, resets exactly the entries taken out and stores a list exactly when there are bindings; it never goes through when it took an entry out and has no bindings, and it reports a double free only then |
| `CustomList.ClearAsWrittenDoubleFrees` | soundrec_dconf.cpp:156-229 | clearing as written, with no bindings, fails whenever the list holds an entry of ours, and fails with a double free whenever the kept numbers can be read |
| `CustomList.ClearResetsOurs` | soundrec_dconf.cpp:110-231 | clearing corrected, with every kept number readable, resets exactly the entries of ours and stores no list |
| `CustomList.ClearOneOfOursExample` | soundrec_dconf.cpp:156-229 | a list holding one entry of ours, cleared: a double free as written, and corrected its path is reset and nothing else |
| `CustomList.StaleLengthCollides` | soundrec_dconf.cpp:169-174 | with foreign entries custom10 and custom9, the rewrite as written gives the new binding custom10 again, where the corrected one uses custom11 |
| `RemoteControl.HandleMethodCall` | soundrec_dbus.cpp:20-58 | each of the six methods fires its callback exactly when it is set and the state allows; an unknown method is logged and fires nothing; every call gets an empty reply |
| `RemoteControl.BindingsCallKnownMethods` | soundrec_dconf.cpp:40-49 | every installed key binding calls a method the D-Bus object knows, which fires in some state |
| `RemoteControl.PickFrom` | soundrec_ui.cpp:119-126 | the selected row is taken, or else the first row, which becomes selected; nothing only when the list is empty with nothing selected |
| `RemoteControl.PickInput` | soundrec_ui.cpp:113-148 | the source is picked from the active toggle's list, and the other lists are untouched |
| `RemoteControl.Dispatch` | soundrec_dbus.cpp:27-57 | a call that fires nothing changes nothing, and the registered callbacks never change |
| `RemoteControl.DispatchKeepsInv` | soundrec_ui.cpp:150-245 | a remote call keeps the window in step with the session |
| `RemoteControl.StopsOnlyStop` | soundrec_dbus.cpp:33-44 | "StopRecord" and "StopPlayback" never start anything or touch the clips, and with their callback set they stop what they name |
| `RemoteControl.SwitchToMicThenRecord` | soundrec_ui.cpp:136-145 | switching to the microphones and then recording records the selected microphone, or else the first one |

## Left out

- Audio I/O is not modelled: PulseAudio streams, `pa_stream_peek`, `pa_stream_write`, disconnects, and the connection-failure branch of `connect_cb`. Each capture or playback callback is one call with its chunk or request size.
- The `pcm` callback of `read_cb` is not modelled. Only the count it would be handed is modelled (`Session.OnRead`). The window never registers one.
- `save_clip` writes the WAV header through libsndfile, and file open, write and close can fail. Neither is modelled. `ClipAccess.SaveClip` models the bytes handed over; `Session.SaveFaultAsWritten` models only the header's use of `cur`.
- ClipAccess.SaveClip: when the recording is a whole number of blocks, the source dereferences the end iterator for its zero-byte last write. The model writes nothing there.
- A freshly allocated block's contents are modelled as zeros. They are never read below `rec_size`.
- The `next()` branch of `read_cb` is left out. While recording the cursor is always on the last block, so that branch cannot be reached.
- `Session.Progress` returns the pair (played, recorded) rather than the floating-point quotient. With nothing recorded the source divides 0 by 0.
- ClipAccess.GetPcm: `ceil` of a double is modelled as exact ceiling division. For any clip that fits in memory the two agree.
- Timers are events: `g_timeout_add` of `update_cb`, `recording_cb` and `playback_timeout`. The clock readings `time(NULL)` that `recording_cb` stores in `latest` are not modelled, and neither is the progress bar. The elapsed-time text is modelled from its number of seconds (`Labels.FormatTime`).
- `subscribe_inputs_cb` is modelled as one `Queue(index, event)` per event. Event types other than new, change and remove are ignored by the source and are not modelled.
- `update_dev_names` is modelled as starting from empty lists. It runs once, at connection, before anything is listed. `clear_list` takes its list by value, so a second run would keep dangling pointers; that is not modelled.
- Property lists are maps of strings. The row's icon reads as the empty string when absent, as `operator[]` inserts it.
- GTK widgets are not modelled: dialogs, the file chooser, CSS and the tree views. The window is its clip rows, its `clip_map` entries and `nclips`. `on_save` is modelled only in its choice of name (`Labels.SaveName`).
- `edited_cb`, the renaming of a clip, is not modelled. In the model, names are always "Clip" plus the number.
- `on_clear_all` and `on_save_all` only open dialogs or call the operations modelled above for every clip. They are not modelled separately.
- Labels.FormatTime: the contract states the nine-character bound and, by lemma, the round trip below 100000 minutes. Beyond that the ten-byte buffer truncates the label, which is modelled but not characterised.
- Labels.FormatTime: the seconds are a `nat`. In the source `s = latest - start` is a signed `int`; if the wall clock is set back during a recording it is negative, and C's truncating `/` then prints negative minutes and seconds (for -65 seconds, "-1:-5"). The model does not cover that case.
- Labels.ClipName: injective only below clip number 100000. Larger numbers are cut by the ten-byte buffer.
- Labels.SaveAll: its contract states only the directory test. The files it writes are stated by `PlanFiles`, `PlanStopsAtFirst` and `SaveAllFilesDistinct`.
- KeyBindings.GetKeyBindings: the source never initialises the array `bindings`. When some action has a key, the second loop tests `bindings[i] != NULL` for every action, so an action without a key reads an indeterminate pointer. The model reads it as NULL: no binding.
- KeyBindings.GetKeyBindings: the source never initialises `GError *err`, although GLib requires it to be NULL. On an unreadable file `err->message` may then be a stale error or garbage. The model returns no list and does not model the message.
- KeyBindings.MakeBinding: the command is not cut at the 120-byte `snprintf` limit. The six action names keep it far below that. The name's 50-byte `reserve` into `c_str()` is modelled as the string it leaves.
- CustomList.ClearAndReload: `strtol` overflow and the cast to `int` are not modelled. Numbers are unbounded.
- CustomList.ClearAndReloadAsWritten: the double free is reported as the fault `DoubleFree` with nothing else. What the crash leaves undone is not modelled: the queued resets of `soundrec_clear_bindings` are never synced (soundrec_dconf.cpp:235). The source also releases `g_malloc`'d strings with `delete`, which is not modelled.
- CustomList.ClearAndReloadAsWritten: with `do_both` false the source reads the uninitialised `bindings`. The model takes it as no bindings.
- CustomList.ClearAndReload: GSettings and dconf writes are outputs of the rewrite (`resets`, `list`, `writes`), not effects.
- D-Bus name ownership, the introspection XML and registration (`name_acquired`, `name_lost`) are not modelled. `set_dbus_cb` is the `Registered` record of which callbacks are set.
- ClipBuffer.ReadChunk: a chunk that would run past the block after the last one makes the source copy past the end of a block. The model reports it as `BlockOverrun` and does not model the memory it would overwrite. The same holds for `ClipBuffer.PlayChunk`, `ClipBuffer.ReadChunkAsWritten` and `ClipBuffer.PlayChunkAsWritten`, which would read past a block.
- ClipBuffer.ReadChunkAsWritten: its contract states only when it overruns, the byte count and the blocks kept. What it writes is stated by `ReadAsWrittenAgrees`, `ReadAsWrittenOverruns` and `ReadAsWrittenExample`.
- ClipBuffer.PlayChunkAsWritten: its contract states only when it overruns and the new play position. What it hands over is stated by `PlayAsWrittenAgrees`, `PlayAsWrittenReplays` and `PlayAsWrittenExample`.
- ClipAccess.GetPcm: when start is at or past the end of the recording, the source returns 0 and leaves `*data`, `*size` and `*nfrag` unset (soundrec.cpp:521-523). The model returns no fragments and a fragment count of 0 there.
- ClipAccess.GetPcmAsWritten: its contract states only the byte count. Its fragments are described by `GetPcmAsWrittenAgrees`, `GetPcmAsWrittenReadsEarlier` and `GetPcmAsWrittenUndercounts`.
- Streams.EnumEntryCorrected: its contract states only what it leaves alone. What it appends and marks is stated by `EnumerateCorrectedInputs` and `EnumerateCorrectedFrozen`.
- InputRows.Refresh: its contract states only that the listing ended. The rows are stated by `RefreshRows` and `RefreshMirrors`.
- RemoteControl.Dispatch: its contract states only the no-op case and the registry. Its effects are stated by `DispatchKeepsInv`, `StopsOnlyStop` and `SwitchToMicThenRecord`.

## Findings

| source | as written | input that shows it | evidently intended | confidence | as-written member | corrected member |
|---|---|---|---|---|---|---|
| soundrec.cpp:334-353 | `read_cb` takes the offset in the last block as `rec_size % BLOCK_SIZE`. When the recording exactly fills its blocks that is 0, so the next chunk overwrites the start of the full last block, and `rec_size` exceeds `capacity`. | block size 2, clip [x, y] full, chunk [z]: the block becomes [z, y] | a new block is opened and the clip records [x, y, z] | not executed | `ClipBuffer.ReadChunkAsWritten`, `ClipBuffer.ReadAsWrittenOverruns`, `ClipBuffer.ReadAsWrittenExample` | `ClipBuffer.ReadChunk` |
| soundrec.cpp:374-393 | `write_cb` takes the play offset as `played_size % BLOCK_SIZE`. At the exact end of the cursor's block that is 0, so the same block is played again. | block size 2, clip [a, b] [d, e], two requests of 2 bytes: [a, b] then [a, b] | [a, b] then [d, e] | not executed | `ClipBuffer.PlayChunkAsWritten`, `ClipBuffer.PlayAsWrittenReplays`, `ClipBuffer.PlayAsWrittenExample` | `ClipBuffer.PlayChunk` |
| soundrec.cpp:543-545 | The skip loop of `get_pcm` runs while `pos + BLOCK_SIZE < start`. For a start that is a positive multiple of the block size it stops one block early, and the fragments point at the bytes before start. | block size 2, clip [a, b] [d, e], start 2, 2 bytes: fragment on block 0, [a, b] | fragment on block 1, [d, e] | not executed | `ClipAccess.GetPcmAsWritten`, `ClipAccess.GetPcmAsWrittenReadsEarlier`, `ClipAccess.GetPcmAsWrittenExample` | `ClipAccess.GetPcm` |
| soundrec.cpp:534-538 | `nfrag` is ceil(n / B), plus one when `rem1 < rem2`. For n a multiple of B and an unaligned start, `rem2` is 0, and the fragment loop fills one entry past the allocated arrays. | block size 2, start 1, 2 bytes: one fragment allocated, two filled | nfrag equals the blocks the range touches | not executed | `ClipAccess.GetPcmAsWrittenUndercounts`, `ClipAccess.GetPcmUndercountExample` | `ClipAccess.GetPcm` |
| soundrec.cpp:136-140 | The microphone branch is inside the loop over sinks. Every non-monitor source is listed once per sink, and each sink's monitor is listed as a microphone of the other sinks. | sinks a, b; sources a.monitor, b.monitor, mic: microphones [b.monitor, mic, a.monitor, mic] | microphones [mic] | not executed | `Devices.MicsAsWrittenRepeat`, `Devices.MicsAsWrittenShape` | `Devices.MicsCorrected`, `Devices.MicsCorrectedShape` |
| soundrec.cpp:143 | `assert(got_monitors)` only checks that some sink has a monitor. Recording a stream on a sink without one dereferences the NULL entry `monitor_map[inp->sink]` creates. | sinks a (0), b (1); source a.monitor; recording a stream on sink 1 | every sink must have a monitor, or pairing fails | not executed | `Devices.UpdateMonitors`, `Devices.MonitorAssertionTooWeak` | `Devices.UpdateMonitorsCorrected`, `Devices.CorrectedPairingRecords` |
| soundrec.cpp:216-218 | `update_cb` drops a changed stream. When it is listed again `need_to_update` marks it NEW, overwriting CHANGE. `inputs_cb` then keeps its old row and adds a new one. | one stream with a CHANGE event, listed again: rows [old, new] | the old row is replaced: [new] | not executed | `Streams.NeedToUpdate`, `InputRows.ChangedStreamShownTwice` | `Streams.NeedToUpdateCorrected`, `InputRows.ChangedStreamShownOnce`, `InputRows.RefreshMirrors` |
| soundrec.cpp:270-276 | While a listing runs `update_pending` is set, so `queue_update` schedules no timer. The listing's end clears the flag, and the event waits until another one arrives. | any subscription event during a listing, then the end of the listing | the event is picked up by a timer | not executed | `Streams.EventDuringListingStranded` | `Streams.EnumEndCorrected`, `Streams.EventDuringListingPickedUp`, `Streams.StepCorrectedKeepsLive` |
| soundrec_ui.cpp:426-431 | `on_clear` protects only the first row (the newest clip) while a session runs. Playback may be of an older clip, whose deletion then fails the assertion in `soundrec_delete_clip`. | rows [1, 0], playing clip 0, clear clip 0 | the clip in use is protected | not executed | `Window.OnClear`, `Window.ClearWhilePlayingOlderClip` | `Window.OnClearCorrected`, `Window.OnClearCorrectedKeepsInv` |
| soundrec.cpp:461 | `save_clip` takes the header's frame count from `cur`, not from the clip saved. After the current clip is deleted `cur` is NULL. | record clips 0 and 1, delete clip 1, save clip 0 | the header is taken from the clip being saved | not executed | `Session.SaveFaultAsWritten`, `Session.SaveAfterDeletingCurrentExample` | `Session.SaveFault`, `Session.SaveClipById` |
| soundrec.cpp:209 | `need_to_update` asserts that a stream already in the list is never frozen NEW. A NEW event that arrives while the listing that adds the stream is running stays in the event map. A later timer freezes it, and the next listing of the stream fails the assertion. | stream 7's NEW event during the first listing, which lists 7; then any event about another stream, its timer, and the listing of 7 | the stream is already shown: keep it, marked NOUPDATE | not executed | `Streams.NeedToUpdate`, `Streams.KnownNewAborts`, `Streams.NewDuringListingAborts` | `Streams.NeedToUpdateCorrected`, `Streams.KnownNewKept`, `Streams.NewDuringListingKept` |
| soundrec_dconf.cpp:101-104 | `get_custom_id` scans forward from `len - 2` and steps back one, so it reads only the last digit. It is also handed the stale `len` of the last original entry. | foreign entries custom10 and custom9, one binding: the new binding gets custom10 again | the number before the final '/' is read, and the binding gets custom11 | not executed | `CustomList.CustomIdAsWritten`, `CustomList.StaleLengthCollides`, `CustomList.AsWrittenReadsLastDigit` | `CustomList.CustomId`, `CustomList.ClearAndReload`, `CustomList.ReloadAddsFreshPaths` |
| soundrec_dconf.cpp:156-229 | The removal loop frees each entry taken out and shifts the rest down, but leaves the NULL terminator where it was. With no bindings the array is not rebuilt, so the final delete loop runs to the old terminator and frees the last pointers a second time. | one entry of ours, cleared (`soundrec_clear_bindings`, no bindings) | the entries left are freed once each and the entry's path is reset | not executed | `CustomList.ClearAndReloadAsWritten`, `CustomList.ClearAsWrittenDoubleFrees`, `CustomList.ClearOneOfOursExample` | `CustomList.ClearAndReload`, `CustomList.ClearResetsOurs` |
| soundrec_ui.cpp:271 | `strcasestr` finds the first ".wav", so a name with an earlier ".wav" is not seen as ending in ".wav". | name "p.wav.wav", which a clip gets only by renaming through `edited_cb` (soundrec_ui.cpp:491-505): proposed "p.wav.wav.wav" | a name ending in ".wav" is kept | not executed | `Labels.SaveName`, `Labels.SaveNameAppendsToWavName` | `Labels.SaveNameCorrected`, `Labels.SaveNameCorrectedIdempotent` |
