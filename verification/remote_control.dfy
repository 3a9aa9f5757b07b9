/** The recorder's D-Bus object (soundrec_dbus.cpp): each method call is
    looked up by name and, depending on the recording state, fires one of
    the four callbacks the window registered; every call gets an empty
    reply. The callbacks are the window's record and playback buttons and
    the two switches of the sources panel (soundrec_ui.cpp). */
module RemoteControl {
  import opened Types
  import KeyBindings
  import Window

  // ---------------------------------------------------------------------
  // The method table

  /** The four callbacks `soundrec_set_dbus_cb` registers. */
  datatype Callback = RecordCb | PlaybackCb | SoundCardCb | MicCb

  /** Which callbacks are set; an unset one is a NULL pointer. */
  datatype Registered = Registered(record: bool, playback: bool, soundCard: bool, mic: bool)

  /** The outcome of one method call: the callback fired, if any, the line
      logged for an unknown method, and the values of the reply. */
  datatype Handled = Handled(fired: Option<Callback>, logged: Option<string>, reply: seq<string>)

  /** handle_method_call. */
  function HandleMethodCall(state: RecState, reg: Registered, name: string): (h: Handled)
    ensures h.reply == []
    ensures h.fired == Some(RecordCb) <==>
      reg.record && ((name == "Record" && state == Idle) || (name == "StopRecord" && state == Recording))
    ensures h.fired == Some(PlaybackCb) <==>
      reg.playback && ((name == "Playback" && state == Idle) || (name == "StopPlayback" && state == PlayingBack))
    ensures h.fired == Some(SoundCardCb) <==> reg.soundCard && name == "SwitchToSoundCard"
    ensures h.fired == Some(MicCb) <==> reg.mic && name == "SwitchToMic"
    ensures h.logged.Some? <==> name !in KeyBindings.Actions
    ensures h.logged.Some? ==> h.fired.None?
  {
    var fired :=
      if name == "Record" then (if reg.record && state == Idle then Some(RecordCb) else None)
      else if name == "StopRecord" then (if reg.record && state == Recording then Some(RecordCb) else None)
      else if name == "Playback" then (if reg.playback && state == Idle then Some(PlaybackCb) else None)
      else if name == "StopPlayback" then (if reg.playback && state == PlayingBack then Some(PlaybackCb) else None)
      else if name == "SwitchToSoundCard" then (if reg.soundCard then Some(SoundCardCb) else None)
      else if name == "SwitchToMic" then (if reg.mic then Some(MicCb) else None)
      else None;
    var known := name in ["Record", "StopRecord", "Playback", "StopPlayback", "SwitchToSoundCard", "SwitchToMic"];
    Handled(fired, if known then None else Some("got unknown method: " + name), [])
  }

  /** The method a binding's command calls: what follows the interface
      name, when the command is a call on the recorder's object. */
  function MethodOf(command: string): Option<string>
  {
    var p := KeyBindings.CommandPrefix;
    if |p| <= |command| && command[..|p|] == p then Some(command[|p|..]) else None
  }

  /** Every key binding the recorder installs calls a method the object
      knows, and, with its callback set, fires it in some state. */
  lemma BindingsCallKnownMethods(i: nat, key: string, reg: Registered)
    requires i < |KeyBindings.Actions|
    requires reg.record && reg.playback && reg.soundCard && reg.mic
    ensures var b := KeyBindings.MakeBinding(KeyBindings.Actions[i], key);
      && MethodOf(b.command) == Some(KeyBindings.Actions[i])
      && HandleMethodCall(Idle, reg, MethodOf(b.command).value).logged.None?
      && exists st :: HandleMethodCall(st, reg, MethodOf(b.command).value).fired.Some?
  {
    var a := KeyBindings.Actions[i];
    var c := KeyBindings.MakeBinding(a, key).command;
    assert c == KeyBindings.CommandPrefix + a;
    assert c[..|KeyBindings.CommandPrefix|] == KeyBindings.CommandPrefix;
    assert c[|KeyBindings.CommandPrefix|..] == a;
    var st := if a == "StopRecord" then Recording else if a == "StopPlayback" then PlayingBack else Idle;
    assert HandleMethodCall(st, reg, a).fired.Some?;
  }

  // ---------------------------------------------------------------------
  // The sources panel

  /** The three toggles above the sources: applications, sound cards
      (monitors) and microphones; exactly one is active. */
  datatype Tab = AppsTab | MonitorsTab | MicsTab

  /** A list of sources and the row selected in it. */
  datatype Listing = Listing(rows: seq<Recordable>, selected: Option<Recordable>)

  datatype Sources = Sources(tab: Tab, apps: Listing, monitors: Listing, mics: Listing)

  /** The listing of the active toggle. */
  function Shown(s: Sources): Listing
  {
    match s.tab
    case AppsTab => s.apps
    case MonitorsTab => s.monitors
    case MicsTab => s.mics
  }

  /** The selected row of a listing, or else its first row, which then
      becomes selected. */
  function PickFrom(l: Listing): (r: (Option<Recordable>, Listing))
    ensures r.1.rows == l.rows && r.1.selected == r.0
    ensures r.0.None? <==> l.selected.None? && |l.rows| == 0
    ensures l.selected.Some? ==> r.0 == l.selected
    ensures l.selected.None? && |l.rows| > 0 ==> r.0 == Some(l.rows[0])
  {
    if l.selected.Some? then (l.selected, l)
    else if |l.rows| > 0 then (Some(l.rows[0]), l.(selected := Some(l.rows[0])))
    else (None, l)
  }

  /** get_record_input: the source to record, taken from the active
      toggle's listing; the other listings and the toggle stay as they are. */
  function PickInput(s: Sources): (r: (Option<Recordable>, Sources))
    ensures r.1.tab == s.tab
    ensures r.0 == PickFrom(Shown(s)).0 && Shown(r.1) == PickFrom(Shown(s)).1
    ensures s.tab != AppsTab ==> r.1.apps == s.apps
    ensures s.tab != MonitorsTab ==> r.1.monitors == s.monitors
    ensures s.tab != MicsTab ==> r.1.mics == s.mics
  {
    var (rec, l) := PickFrom(Shown(s));
    match s.tab
    case AppsTab => (rec, s.(apps := l))
    case MonitorsTab => (rec, s.(monitors := l))
    case MicsTab => (rec, s.(mics := l))
  }

  // ---------------------------------------------------------------------
  // A method call applied to the recorder

  /** What a remote call can change: the recorder's window and session,
      and the sources panel; plus the callbacks that are set. */
  datatype Remote = Remote(app: Window.App, sources: Sources, reg: Registered)

  /** One method call carried through: on_record reads its input only in
      IDLE; on_playback plays the selected clip or the first one; the
      switches activate the monitors' or the microphones' toggle. */
  function Dispatch(rs: Remote, B: pos, name: string, monitors: map<nat, Dev>, clip: Option<nat>): (r: Result<Remote>)
    requires Window.AppInv(rs.app, B)
    ensures r.Ok? ==> r.value.reg == rs.reg
    ensures HandleMethodCall(rs.app.session.state, rs.reg, name).fired.None? ==> r == Ok(rs)
  {
    var state := rs.app.session.state;
    match HandleMethodCall(state, rs.reg, name).fired
    case None => Ok(rs)
    case Some(RecordCb) =>
      var (rec, src) := if state == Idle then PickInput(rs.sources) else (None, rs.sources);
      (match Window.OnRecord(rs.app, B, rec, monitors)
       case Fail(f) => Fail(f)
       case Ok(a) => Ok(Remote(a, src, rs.reg)))
    case Some(PlaybackCb) =>
      (match Window.OnPlayback(rs.app, B, clip)
       case Fail(f) => Fail(f)
       case Ok(a) => Ok(rs.(app := a)))
    case Some(SoundCardCb) => Ok(rs.(sources := rs.sources.(tab := MonitorsTab)))
    case Some(MicCb) => Ok(rs.(sources := rs.sources.(tab := MicsTab)))
  }

  /** A remote call keeps the window in agreement with the session. */
  lemma DispatchKeepsInv(rs: Remote, B: pos, name: string, monitors: map<nat, Dev>, clip: Option<nat>)
    requires Window.AppInv(rs.app, B)
    requires Dispatch(rs, B, name, monitors, clip).Ok?
    ensures Window.AppInv(Dispatch(rs, B, name, monitors, clip).value.app, B)
  {
    var state := rs.app.session.state;
    match HandleMethodCall(state, rs.reg, name).fired
    case None =>
    case Some(RecordCb) =>
      var (rec, src) := if state == Idle then PickInput(rs.sources) else (None, rs.sources);
      Window.OnRecordKeepsInv(rs.app, B, rec, monitors);
    case Some(PlaybackCb) =>
      Window.OnPlaybackKeepsInv(rs.app, B, clip);
    case Some(SoundCardCb) =>
    case Some(MicCb) =>
  }

  /** "StopRecord" and "StopPlayback" never start anything and never touch
      the clips: afterwards the recorder is idle or in the state it was in,
      and with its callback set the call stops what it names. */
  lemma StopsOnlyStop(rs: Remote, B: pos, name: string, monitors: map<nat, Dev>, clip: Option<nat>)
    requires Window.AppInv(rs.app, B)
    requires name == "StopRecord" || name == "StopPlayback"
    ensures var r := Dispatch(rs, B, name, monitors, clip);
      && r.Ok?
      && r.value.app.session.clips == rs.app.session.clips
      && r.value.app.win == rs.app.win
      && (name == "StopRecord" && rs.reg.record ==> r.value.app.session.state != Recording)
      && (name == "StopPlayback" && rs.reg.playback ==> r.value.app.session.state != PlayingBack)
      && (r.value.app.session.state == Idle || r.value.app.session.state == rs.app.session.state)
  {
    var state := rs.app.session.state;
    var h := HandleMethodCall(state, rs.reg, name);
    if h.fired == Some(RecordCb) {
      assert state == Recording;
      var a := Window.OnRecord(rs.app, B, None, monitors);
      assert a.Ok? && a.value.session.state == Idle;
      assert Dispatch(rs, B, name, monitors, clip) == Ok(Remote(a.value, rs.sources, rs.reg));
    } else if h.fired == Some(PlaybackCb) {
      assert state == PlayingBack;
      var a := Window.OnPlayback(rs.app, B, clip);
      assert a.Ok? && a.value.session.state == Idle;
      assert Dispatch(rs, B, name, monitors, clip) == Ok(rs.(app := a.value));
    } else {
      assert h.fired.None?;
    }
  }

  /** Switching to the microphones and then asking to record records the
      selected microphone, or the first one listed, exactly as pressing
      the record button on that toggle would. */
  lemma SwitchToMicThenRecord(rs: Remote, B: pos, monitors: map<nat, Dev>, clip: Option<nat>)
    requires Window.AppInv(rs.app, B) && rs.app.session.state == Idle
    requires rs.reg.mic && rs.reg.record
    ensures var r1 := Dispatch(rs, B, "SwitchToMic", monitors, clip);
      && r1.Ok? && r1.value.sources.tab == MicsTab && r1.value.app == rs.app
      && var mic := PickFrom(rs.sources.mics).0;
         var r2 := Dispatch(r1.value, B, "Record", monitors, clip);
         && r2 == (match Window.OnRecord(rs.app, B, mic, monitors)
                   case Fail(f) => Fail(f)
                   case Ok(a) => Ok(Remote(a, rs.sources.(tab := MicsTab, mics := PickFrom(rs.sources.mics).1), rs.reg)))
         && (rs.sources.mics.selected.None? && |rs.sources.mics.rows| > 0 ==> mic == Some(rs.sources.mics.rows[0]))
  {
    var r1 := Dispatch(rs, B, "SwitchToMic", monitors, clip).value;
    assert Shown(r1.sources) == rs.sources.mics;
  }
}
