/** Shared vocabulary of the sound recorder: the enums and the closed
    Recordable sum of soundrec.hpp, plus the option/result wrappers the
    model uses for the source's assertion failures and null dereferences. */
module Types {

  /** One byte of 16-bit little-endian stereo PCM. */
  newtype byte = x: int | 0 <= x < 256

  /** A strictly positive size: the block size of a clip. */
  type pos = n: nat | n > 0 witness 1

  datatype Option<T> = None | Some(value: T)

  /** Every place where the source aborts (a failing `assert`, or a null
      pointer it goes on to dereference) is a Fault in the model. */
  datatype Fault =
    | NotIdle              // assert(state == IDLE) when starting a session
    | NoSuchClip           // clip_map lookup of an unknown id
    | NoCurrentClip        // cur is NULL where the source dereferences it
    | ClipIsActive         // deleting the clip of a running session
    | NoMonitorForSink     // monitor_map has no entry for the input's sink
    | DuplicateMonitor     // a second monitor for the same sink index
    | NoMonitorAtAll       // assert(got_monitors)
    | SinkWithoutMonitor   // corrected pairing: a sink that has no monitor
    | FrozenNewOrRemove    // need_to_update finds a listed stream frozen NEW/REMOVE
    | NoCustomId           // get_custom_id finds no number in a keybinding path
    | OutOfBounds          // a read past the end of a C string
    | BlockOverrun         // a copy into or out of a clip block past its end
    | DoubleFree           // a delete of a pointer that was already freed

  datatype Result<T> = Ok(value: T) | Fail(fault: Fault)

  /** The session state, rec_state in the source. */
  datatype RecState = Idle | Recording | PlayingBack

  /** The tag every Recordable carries, rec_type in the source. */
  datatype RecType = INPUT | DEVICE

  /** A sink or source as published by the sound server. */
  datatype Dev = Dev(name: string, index: nat)

  /** A sink input: another application's stream, with the index of the
      sink it plays on and its string property list. */
  datatype Input = Input(sink: nat, index: nat, props: map<string, string>)

  /** The closed sum of things that can be recorded. */
  datatype Recordable = InputRec(input: Input) | DeviceRec(dev: Dev)

  /** The tag the constructors of Input and Device install. */
  function Tag(r: Recordable): (t: RecType)
    ensures t == INPUT <==> r.InputRec?
    ensures t == DEVICE <==> r.DeviceRec?
  {
    match r
    case InputRec(_) => INPUT
    case DeviceRec(_) => DEVICE
  }

  /** The classification of a stream in an update map, update_t. */
  datatype Update = NoUpdate | New | Change | Remove

  /** `m[k]` on a std::map<uint32_t, update_t>: an absent key reads as the
      zero value NOUPDATE. */
  function Lookup(m: map<nat, Update>, k: nat): (u: Update)
    ensures k !in m ==> u == NoUpdate
    ensures k in m ==> u == m[k]
  {
    if k in m then m[k] else NoUpdate
  }

  function Min(a: int, b: int): int { if a <= b then a else b }

  lemma AppendAssoc<T>(a: seq<T>, b: seq<T>, d: seq<T>)
    ensures a + b + d == a + (b + d)
  {
  }
}
