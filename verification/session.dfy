/** The recording session of soundrec.cpp: the IDLE / RECORDING /
    PLAYING_BACK state, the registry of clips by id (`Clip::clip_map`,
    with ids drawn from the counter `Clip::num_clips`), the current clip
    `cur`, and the operations that move between them. The sound server's
    streams are left out; its read and write callbacks are the events
    OnRead and OnWrite. */
module Session {
  import opened Types
  import opened ClipBuffer
  import opened ClipAccess

  /** The session globals: the state, the clip registry, the id counter and
      the current clip (None for a NULL `cur`). */
  datatype Session = Session(state: RecState, clips: map<nat, Clip>, numClips: nat, cur: Option<nat>)

  /** Before anything happened: idle, no clips, counter at zero, `cur` NULL. */
  function Init(): Session
  {
    Session(Idle, map[], 0, None)
  }

  /** Every registered clip is well formed, is registered under its own id
      and has an id the counter has already handed out; `cur` names a
      registered clip; while recording the current clip has the recording
      shape, while playing back the playback shape. */
  predicate Inv(s: Session, B: pos)
  {
    && (forall id :: id in s.clips ==> id < s.numClips && s.clips[id].id == id && Valid(s.clips[id], B))
    && (s.cur.Some? ==> s.cur.value in s.clips)
    && (s.state == Recording ==> s.cur.Some? && RecordingShape(s.clips[s.cur.value], B))
    && (s.state == PlayingBack ==> s.cur.Some? && PlaybackShape(s.clips[s.cur.value], B))
  }

  lemma InitInv(B: pos)
    ensures Inv(Init(), B) && Init().state == Idle && Init().clips == map[]
  {
  }

  /** Only the clip under id may differ between the two registries. */
  predicate OthersKept(a: map<nat, Clip>, b: map<nat, Clip>, id: nat)
  {
    forall k :: k in a && k != id ==> k in b && b[k] == a[k]
  }

  /** What a started recording hands back: the session, the new clip's id
      and the device whose stream is recorded. */
  datatype Started = Started(session: Session, id: nat, source: Dev)

  /** `soundrec_start_recording`: from IDLE only, a new clip with the next
      id becomes current and the state RECORDING. An application stream is
      recorded from the monitor of the sink it plays on; a sink with no
      monitor is a NULL dereference in the source. */
  function StartRecording(s: Session, B: pos, rec: Recordable, monitors: map<nat, Dev>): (r: Result<Started>)
    requires Inv(s, B)
    ensures s.state != Idle ==> r == Fail(NotIdle)
    ensures r.Fail? <==> s.state != Idle || (rec.InputRec? && rec.input.sink !in monitors)
    ensures r.Ok? ==>
      var t := r.value;
      && Inv(t.session, B)
      && t.id == s.numClips && t.id !in s.clips
      && t.session.numClips == s.numClips + 1
      && t.session.state == Recording && t.session.cur == Some(t.id)
      && t.session.clips.Keys == s.clips.Keys + {t.id}
      && OthersKept(s.clips, t.session.clips, t.id)
      && Content(t.session.clips[t.id], B) == [] && t.session.clips[t.id].capacity == B
      && t.source == (if rec.InputRec? then monitors[rec.input.sink] else rec.dev)
  {
    if s.state != Idle then Fail(NotIdle)
    else if rec.InputRec? && rec.input.sink !in monitors then Fail(NoMonitorForSink)
    else
      var id := s.numClips;
      var source := if rec.InputRec? then monitors[rec.input.sink] else rec.dev;
      Ok(Started(Session(Recording, s.clips[id := NewClip(id, B)], id + 1, Some(id)), id, source))
  }

  /** `soundrec_stop_recording` and `soundrec_stop_playback`: each tears
      down its own stream, which the model leaves out, and goes back to
      IDLE, whatever the state. */
  function Stop(s: Session, B: pos): (r: Session)
    requires Inv(s, B)
    ensures Inv(r, B) && r.state == Idle
    ensures r.clips == s.clips && r.cur == s.cur && r.numClips == s.numClips
  {
    s.(state := Idle)
  }

  /** `soundrec_start_playback`: from IDLE only, the clip becomes current,
      rewound to its first byte, and the state PLAYING_BACK. An unknown id
      is a NULL dereference in the source. */
  function StartPlayback(s: Session, B: pos, id: nat): (r: Result<Session>)
    requires Inv(s, B)
    ensures s.state != Idle ==> r == Fail(NotIdle)
    ensures r.Fail? <==> s.state != Idle || id !in s.clips
    ensures r.Ok? ==>
      && Inv(r.value, B)
      && r.value.state == PlayingBack && r.value.cur == Some(id)
      && r.value.clips.Keys == s.clips.Keys && r.value.numClips == s.numClips
      && OthersKept(s.clips, r.value.clips, id)
      && r.value.clips[id].playedSize == 0
      && Content(r.value.clips[id], B) == Content(s.clips[id], B)
  {
    if s.state != Idle then Fail(NotIdle)
    else if id !in s.clips then Fail(NoSuchClip)
    else Ok(Session(PlayingBack, s.clips[id := Rewind(s.clips[id], B)], s.numClips, Some(id)))
  }

  /** `soundrec_delete_clip`: an unknown id fails the NULL assertion, and
      the current clip may only go while IDLE; deleting it clears `cur`. */
  function DeleteClip(s: Session, B: pos, id: nat): (r: Result<Session>)
    requires Inv(s, B)
    ensures id !in s.clips ==> r == Fail(NoSuchClip)
    ensures r.Fail? <==> id !in s.clips || (s.cur == Some(id) && s.state != Idle)
    ensures r.Ok? ==>
      && Inv(r.value, B)
      && r.value.clips.Keys == s.clips.Keys - {id}
      && OthersKept(s.clips, r.value.clips, id)
      && r.value.state == s.state && r.value.numClips == s.numClips
      && r.value.cur == (if s.cur == Some(id) then None else s.cur)
  {
    if id !in s.clips then Fail(NoSuchClip)
    else if s.cur == Some(id) && s.state != Idle then Fail(ClipIsActive)
    else
      var cur := if s.cur == Some(id) then None else s.cur;
      Ok(Session(s.state, s.clips - {id}, s.numClips, cur))
  }

  /** The outcome of a capture callback: the session, and the byte count
      read_cb hands to the pcm callback. */
  datatype ReadOutcome = ReadOutcome(session: Session, reported: nat)

  /** read_cb, which the record stream only calls while recording, running
      the corrected capture callback (ClipBuffer.ReadChunk): the chunk is
      appended to the current clip, and a chunk that would run past the
      block it opens is a block overrun. On a chunk that opens a new block
      the source has already subtracted the bytes that filled the old block
      when it calls the pcm callback, so the count reported is the bytes
      that landed in the new block. */
  function OnRead(s: Session, B: pos, chunk: seq<byte>): (r: Result<ReadOutcome>)
    requires Inv(s, B) && s.state == Recording
    ensures r.Fail? <==> RecordOffset(s.clips[s.cur.value], B) + |chunk| > B + B
    ensures r.Ok? ==>
      var t := r.value.session;
      && Inv(t, B)
      && t.state == Recording && t.cur == s.cur && t.numClips == s.numClips
      && t.clips.Keys == s.clips.Keys && OthersKept(s.clips, t.clips, s.cur.value)
      && Content(t.clips[s.cur.value], B) == Content(s.clips[s.cur.value], B) + chunk
    ensures r.Ok? ==>
      var c := s.clips[s.cur.value];
      var d := r.value.session.clips[s.cur.value];
      r.value.reported == if |d.blocks| > |c.blocks| then d.recSize - c.capacity else |chunk|
  {
    var id := s.cur.value;
    var c := s.clips[id];
    match ReadChunk(c, B, chunk)
    case Fail(f) => Fail(f)
    case Ok(d) =>
      var reported := if |chunk| > B - RecordOffset(c, B) then |chunk| - (B - RecordOffset(c, B)) else |chunk|;
      Ok(ReadOutcome(s.(clips := s.clips[id := d]), reported))
  }

  /** The outcome of a playback callback: the session and the bytes written
      to the playback stream. */
  datatype WriteOutcome = WriteOutcome(session: Session, emitted: seq<byte>)

  /** write_cb, running the corrected playback callback
      (ClipBuffer.PlayChunk): nothing unless playing back; otherwise the
      next bytes of the current clip, and back to IDLE once a request has
      asked for more than was left. A request that would read past the
      block after the cursor's is a block overrun. */
  function OnWrite(s: Session, B: pos, n: nat): (r: Result<WriteOutcome>)
    requires Inv(s, B)
    ensures s.state != PlayingBack ==> r == Ok(WriteOutcome(s, []))
    ensures s.state == PlayingBack ==>
      var c := s.clips[s.cur.value];
      r.Fail? <==> PlayOffset(c, B) + Served(c, n) > B + B
    ensures r.Ok? ==> Inv(r.value.session, B)
    ensures s.state == PlayingBack && r.Ok? ==>
      var t := r.value.session;
      && t.cur == s.cur && t.numClips == s.numClips
      && t.clips.Keys == s.clips.Keys && OthersKept(s.clips, t.clips, s.cur.value)
    ensures s.state == PlayingBack && r.Ok? ==>
      var c := s.clips[s.cur.value];
      var d := r.value.session.clips[s.cur.value];
      && d.playedSize == c.playedSize + Min(n, c.recSize - c.playedSize)
      && r.value.emitted == Content(c, B)[c.playedSize..d.playedSize]
      && Content(d, B) == Content(c, B)
      && (r.value.session.state == Idle <==> n > c.recSize - c.playedSize || c.recSize == c.playedSize)
      && (r.value.session.state != Idle ==> r.value.session.state == PlayingBack)
  {
    if s.state != PlayingBack then Ok(WriteOutcome(s, []))
    else
      var id := s.cur.value;
      match PlayChunk(s.clips[id], B, n)
      case Fail(f) => Fail(f)
      case Ok(step) =>
        var state := if step.stop then Idle else PlayingBack;
        Ok(WriteOutcome(Session(state, s.clips[id := step.clip], s.numClips, s.cur), step.emitted))
  }

  /** `soundrec_get_progress` as the pair (played, recorded) whose quotient
      the source returns; a NULL `cur` is dereferenced. */
  function Progress(s: Session, B: pos): (r: Result<(nat, nat)>)
    requires Inv(s, B)
    ensures r.Fail? <==> s.cur.None?
    ensures r.Ok? ==>
      && r.value.0 <= r.value.1
      && r.value == (s.clips[s.cur.value].playedSize, s.clips[s.cur.value].recSize)
  {
    if s.cur.None? then Fail(NoCurrentClip)
    else Ok((s.clips[s.cur.value].playedSize, s.clips[s.cur.value].recSize))
  }

  /** `soundrec_get_pcm` by id: an unknown id fails the assertion. */
  function GetPcmById(s: Session, B: pos, id: nat, start: nat, nbytes: nat): (r: Result<Pcm>)
    requires Inv(s, B)
    ensures r.Fail? <==> id !in s.clips
    ensures r.Ok? ==>
      var c := s.clips[id];
      && r.value.count == (if start >= c.recSize then 0 else Min(nbytes, c.recSize - start))
      && InBlocks(c.blocks, B, r.value.frags)
      && Gather(c.blocks, B, r.value.frags) == Content(c, B)[Min(start, c.recSize)..Min(start, c.recSize) + r.value.count]
  {
    if id !in s.clips then Fail(NoSuchClip)
    else Ok(GetPcm(s.clips[id], B, start, nbytes))
  }

  /** Where `soundrec_save_clip` as written aborts: it reads `cur->rec_size`
      for the file header before it looks the clip up, so a NULL `cur`
      fails first, then an unknown id. */
  function SaveFaultAsWritten(s: Session, id: nat): (f: Option<Fault>)
    ensures f.None? <==> s.cur.Some? && id in s.clips
  {
    if s.cur.None? then Some(NoCurrentClip)
    else if id !in s.clips then Some(NoSuchClip)
    else None
  }

  /** Where `soundrec_save_clip` aborts once the header is taken from the
      clip being saved: only on an unknown id. */
  function SaveFault(s: Session, id: nat): (f: Option<Fault>)
    ensures f.None? <==> id in s.clips
  {
    if id !in s.clips then Some(NoSuchClip) else None
  }

  /** `soundrec_save_clip` by id: the bytes handed to the sound file are
      the clip's recording. */
  method SaveClipById(s: Session, B: pos, id: nat) returns (r: Result<seq<byte>>)
    requires Inv(s, B)
    ensures r.Fail? <==> SaveFault(s, id).Some?
    ensures r.Ok? ==> r.value == Content(s.clips[id], B)
  {
    var f := SaveFault(s, id);
    if f.Some? {
      return Fail(f.value);
    }
    var bytes := SaveClip(s.clips[id], B);
    return Ok(bytes);
  }

  /** Deleting the current clip while IDLE clears `cur`; after that the
      code as written cannot save any other clip, although it is still
      registered. */
  lemma SaveAfterDeletingCurrent(s: Session, B: pos, id: nat, other: nat)
    requires Inv(s, B) && s.state == Idle && s.cur == Some(id)
    requires other in s.clips && other != id
    ensures DeleteClip(s, B, id).Ok?
    ensures var t := DeleteClip(s, B, id).value;
      && other in t.clips
      && SaveFaultAsWritten(t, other) == Some(NoCurrentClip)
      && SaveFault(t, other) == None
  {
  }

  /** Two clips recorded one after the other, the second deleted: the code
      as written then fails to save the first. */
  lemma SaveAfterDeletingCurrentExample(B: pos, d: Dev)
    ensures var s1 := StartRecording(Init(), B, DeviceRec(d), map[]);
      && s1.Ok?
      && var s2 := Stop(s1.value.session, B);
      && StartRecording(s2, B, DeviceRec(d), map[]).Ok?
      && var s3 := Stop(StartRecording(s2, B, DeviceRec(d), map[]).value.session, B);
      && DeleteClip(s3, B, 1).Ok?
      && var s4 := DeleteClip(s3, B, 1).value;
      && 0 in s4.clips
      && SaveFaultAsWritten(s4, 0) == Some(NoCurrentClip)
      && SaveFault(s4, 0) == None
  {
    InitInv(B);
    var s1 := StartRecording(Init(), B, DeviceRec(d), map[]).value.session;
    var s2 := Stop(s1, B);
    var s3 := Stop(StartRecording(s2, B, DeviceRec(d), map[]).value.session, B);
    SaveAfterDeletingCurrent(s3, B, 1, 0);
  }

  // ---------------------------------------------------------------------
  // Runs of registry operations

  /** The calls that change the registry or the state. */
  datatype Call = Record(rec: Recordable) | StopRecord | Play(id: nat) | StopPlay | Delete(id: nat)

  /** One call, and the id it returned if it started a recording. */
  function Apply(s: Session, B: pos, monitors: map<nat, Dev>, call: Call): (r: Result<(Session, Option<nat>)>)
    requires Inv(s, B)
    ensures r.Ok? ==> Inv(r.value.0, B) && r.value.0.numClips >= s.numClips
    ensures r.Ok? && r.value.1.Some? ==>
      && r.value.1.value == s.numClips && r.value.0.numClips == s.numClips + 1
      && r.value.1.value !in s.clips
    ensures r.Ok? && r.value.1.None? ==> r.value.0.numClips == s.numClips
  {
    match call
    case Record(rec) =>
      (match StartRecording(s, B, rec, monitors)
       case Ok(t) => Ok((t.session, Some(t.id)))
       case Fail(f) => Fail(f))
    case StopRecord => Ok((Stop(s, B), None))
    case Play(id) =>
      (match StartPlayback(s, B, id)
       case Ok(t) => Ok((t, None))
       case Fail(f) => Fail(f))
    case StopPlay => Ok((Stop(s, B), None))
    case Delete(id) =>
      (match DeleteClip(s, B, id)
       case Ok(t) => Ok((t, None))
       case Fail(f) => Fail(f))
  }

  /** A run of calls up to the first that fails: the session after it and
      the ids of the recordings it started, in order. */
  function Run(s: Session, B: pos, monitors: map<nat, Dev>, calls: seq<Call>): (r: Result<(Session, seq<nat>)>)
    requires Inv(s, B)
    ensures r.Ok? ==> Inv(r.value.0, B) && r.value.0.numClips == s.numClips + |r.value.1|
    decreases |calls|
  {
    if |calls| == 0 then Ok((s, []))
    else
      match Apply(s, B, monitors, calls[0])
      case Fail(f) => Fail(f)
      case Ok(step) =>
        match Run(step.0, B, monitors, calls[1..])
        case Fail(f) => Fail(f)
        case Ok(rest) =>
          Ok((rest.0, (if step.1.Some? then [step.1.value] else []) + rest.1))
  }

  /** Clip ids are never reused: the ids a run hands out count up from the
      counter, one by one, and none of them was registered before. */
  lemma {:induction false} RunIdsFresh(s: Session, B: pos, monitors: map<nat, Dev>, calls: seq<Call>)
    requires Inv(s, B)
    ensures var r := Run(s, B, monitors, calls);
      r.Ok? ==> forall i :: 0 <= i < |r.value.1| ==> r.value.1[i] == s.numClips + i && r.value.1[i] !in s.clips
    decreases |calls|
  {
    var r := Run(s, B, monitors, calls);
    if |calls| > 0 && r.Ok? {
      var a := Apply(s, B, monitors, calls[0]);
      var t, id := a.value.0, a.value.1;
      RunIdsFresh(t, B, monitors, calls[1..]);
      assert Run(t, B, monitors, calls[1..]).Ok?;
      var rest := Run(t, B, monitors, calls[1..]).value.1;
      assert forall j :: 0 <= j < |rest| ==> rest[j] == t.numClips + j;
      var head := if id.Some? then [id.value] else [];
      assert r.value.1 == head + rest;
      assert t.numClips == s.numClips + |head|;
      forall i | 0 <= i < |r.value.1|
        ensures r.value.1[i] == s.numClips + i && r.value.1[i] !in s.clips
      {
        if i >= |head| {
          assert r.value.1[i] == rest[i - |head|];
        }
        assert forall k :: k in s.clips ==> k < s.numClips;
      }
    }
  }
}
