/** The clip side of the window in soundrec_ui.cpp: the clip list (newest
    clip first), `clip_map` from clip id to ClipData, the clip counter
    `nclips`, and the record, playback and clear buttons, which dispatch on
    the session state. */
module Window {
  import opened Types
  import opened Labels
  import Session

  /** ClipData: the clip's id in the session, its editable name and its
      number n. */
  datatype ClipData = ClipData(clipId: nat, name: string, n: nat)

  /** The window's clip bookkeeping: the clip ids of the list rows in
      display order, `clip_map` as its entries in ascending id order (the
      order in which a std::map is walked), and `nclips`. */
  datatype Window = Window(rows: seq<nat>, entries: seq<ClipData>, nclips: nat)

  /** The recorder as the buttons see it: the session and the window. */
  datatype App = App(session: Session.Session, win: Window)

  predicate Sorted(es: seq<ClipData>)
  {
    forall i, j :: 0 <= i < j < |es| ==> es[i].clipId < es[j].clipId
  }

  ghost predicate HasId(es: seq<ClipData>, id: nat)
  {
    exists e :: e in es && e.clipId == id
  }

  /** `clip_map[id] = dat`: the entry for id is replaced or inserted in
      its place. */
  function Put(es: seq<ClipData>, d: ClipData): (r: seq<ClipData>)
    requires Sorted(es)
    ensures Sorted(r) && d in r
    ensures forall e :: e in r ==> e == d || (e in es && e.clipId != d.clipId)
    ensures forall e :: e in es && e.clipId != d.clipId ==> e in r
  {
    if |es| == 0 then [d]
    else if d.clipId < es[0].clipId then [d] + es
    else if d.clipId == es[0].clipId then [d] + es[1..]
    else
      assert es == [es[0]] + es[1..];
      [es[0]] + Put(es[1..], d)
  }

  /** `clip_map.erase(id)`. */
  function Erase(es: seq<ClipData>, id: nat): (r: seq<ClipData>)
    requires Sorted(es)
    ensures Sorted(r)
    ensures forall e :: e in r <==> e in es && e.clipId != id
  {
    if |es| == 0 then []
    else
      assert es == [es[0]] + es[1..];
      (if es[0].clipId == id then [] else [es[0]]) + Erase(es[1..], id)
  }

  /** Removing the row of a clip. */
  function RemoveRow(rows: seq<nat>, id: nat): (r: seq<nat>)
    ensures forall x :: x in r <==> x in rows && x != id
    ensures |r| <= |rows|
    ensures |rows| > 0 && rows[0] != id ==> |r| > 0 && r[0] == rows[0]
  {
    if |rows| == 0 then []
    else
      assert rows == [rows[0]] + rows[1..];
      (if rows[0] == id then [] else [rows[0]]) + RemoveRow(rows[1..], id)
  }

  predicate DistinctRows(rows: seq<nat>)
  {
    forall i, j :: 0 <= i < j < |rows| ==> rows[i] != rows[j]
  }

  lemma {:induction false} RemoveRowDistinct(rows: seq<nat>, id: nat)
    requires DistinctRows(rows)
    ensures DistinctRows(RemoveRow(rows, id))
  {
    if |rows| > 0 {
      var t := RemoveRow(rows[1..], id);
      RemoveRowDistinct(rows[1..], id);
      assert rows[0] !in t by {
        assert forall k :: 0 <= k < |rows[1..]| ==> rows[1..][k] == rows[k + 1];
      }
      var r := RemoveRow(rows, id);
      if rows[0] != id {
        assert r == [rows[0]] + t;
        forall i, j | 0 <= i < j < |r|
          ensures r[i] != r[j]
        {
          assert r[j] == t[j - 1] && t[j - 1] in t;
          if i > 0 {
            assert r[i] == t[i - 1];
          }
        }
      } else {
        assert r == t;
      }
    }
  }

  /** add_clip: clip number nclips + 1 is named "Clip<n>", its row is put
      first and its entry into clip_map. */
  function AddClip(w: Window, id: nat): (r: Window)
    requires Sorted(w.entries)
    ensures r.rows == [id] + w.rows && r.nclips == w.nclips + 1
    ensures ClipData(id, ClipName(w.nclips + 1), w.nclips + 1) in r.entries
    ensures Sorted(r.entries)
    ensures forall e :: e in r.entries ==> e.clipId == id || (e in w.entries && e.clipId != id)
    ensures forall e :: e in w.entries && e.clipId != id ==> e in r.entries
  {
    var n := w.nclips + 1;
    Window([id] + w.rows, Put(w.entries, ClipData(id, ClipName(n), n)), n)
  }

  /** The selected item, else the first of the list, else nothing: how
      get_record_input and get_selected_or_first_clip choose. */
  function SelectedOrFirst<T>(selected: Option<T>, list: seq<T>): Option<T>
  {
    if selected.Some? then selected else if |list| > 0 then Some(list[0]) else None
  }

  /** The window on its own: the entries sorted and one per row, the rows
      distinct, and every clip number handed out once. */
  ghost predicate WindowInv(w: Window)
  {
    && Sorted(w.entries)
    && DistinctRows(w.rows)
    && (forall id :: id in w.rows <==> HasId(w.entries, id))
    && (forall e :: e in w.entries ==> 1 <= e.n <= w.nclips)
    && (forall i, j :: 0 <= i < j < |w.entries| ==> w.entries[i].n != w.entries[j].n)
  }

  /** The window agrees with the session: one row per registered clip, and
      while recording the clip being recorded is the first row. */
  ghost predicate AppInv(a: App, B: pos)
  {
    && Session.Inv(a.session, B)
    && WindowInv(a.win)
    && (forall id :: id in a.win.rows <==> id in a.session.clips)
    && (a.session.state == Recording ==> |a.win.rows| > 0 && a.session.cur == Some(a.win.rows[0]))
  }

  lemma EmptyAppInv(B: pos)
    ensures AppInv(App(Session.Init(), Window([], [], 0)), B)
  {
    Session.InitInv(B);
  }

  // ---------------------------------------------------------------------
  // The buttons

  /** on_record: in IDLE a selected source starts a recording and gets a
      row; in RECORDING the button stops; in PLAYING_BACK it refuses. */
  function OnRecord(a: App, B: pos, selected: Option<Recordable>, monitors: map<nat, Dev>): (r: Result<App>)
    requires AppInv(a, B)
    ensures a.session.state == PlayingBack ==> r == Ok(a)
    ensures a.session.state == Idle && selected.None? ==> r == Ok(a)
    ensures a.session.state == Recording ==>
      r.Ok? && r.value.session.state == Idle && r.value.win == a.win && r.value.session.clips == a.session.clips
    ensures r.Fail? <==> a.session.state == Idle && selected.Some? && selected.value.InputRec?
                         && selected.value.input.sink !in monitors
    ensures a.session.state == Idle && selected.Some? && r.Ok? ==>
      && r.value.session.state == Recording
      && r.value.win.rows == [a.session.numClips] + a.win.rows
      && r.value.session.cur == Some(a.session.numClips)
      && a.session.numClips !in a.session.clips
  {
    match a.session.state
    case PlayingBack => Ok(a)
    case Recording => Ok(App(Session.Stop(a.session, B), a.win))
    case Idle =>
      if selected.None? then Ok(a)
      else
        match Session.StartRecording(a.session, B, selected.value, monitors)
        case Fail(f) => Fail(f)
        case Ok(st) => Ok(App(st.session, AddClip(a.win, st.id)))
  }

  /** on_playback: in IDLE the selected clip, or else the first row, is
      played; with no clip nothing happens. In PLAYING_BACK the button
      stops; in RECORDING it refuses. */
  function OnPlayback(a: App, B: pos, selected: Option<nat>): (r: Result<App>)
    requires AppInv(a, B)
    ensures a.session.state == Recording ==> r == Ok(a)
    ensures a.session.state == PlayingBack ==>
      r.Ok? && r.value.session.state == Idle && r.value.win == a.win && r.value.session.clips == a.session.clips
    ensures a.session.state == Idle && selected.None? && |a.win.rows| == 0 ==> r == Ok(a)
    ensures r.Fail? <==> a.session.state == Idle && selected.Some? && selected.value !in a.win.rows
    ensures a.session.state == Idle && r.Ok? && (selected.Some? || |a.win.rows| > 0) ==>
      && r.value.session.state == PlayingBack
      && r.value.session.cur == SelectedOrFirst(selected, a.win.rows)
      && r.value.win == a.win
  {
    match a.session.state
    case Recording => Ok(a)
    case PlayingBack => Ok(App(Session.Stop(a.session, B), a.win))
    case Idle =>
      match SelectedOrFirst(selected, a.win.rows)
      case None => Ok(a)
      case Some(id) =>
        match Session.StartPlayback(a.session, B, id)
        case Fail(f) => Fail(f)
        case Ok(s) => Ok(App(s, a.win))
  }

  /** Deleting the clip's row, its clip_map entry and the clip itself. */
  function ClearClip(a: App, B: pos, id: nat): (r: Result<App>)
    requires AppInv(a, B) && id in a.win.rows
    ensures r.Fail? <==> a.session.cur == Some(id) && a.session.state != Idle
    ensures r.Ok? ==> r.value.win.rows == RemoveRow(a.win.rows, id) && id !in r.value.session.clips
  {
    match Session.DeleteClip(a.session, B, id)
    case Fail(f) => Fail(f)
    case Ok(s) => Ok(App(s, a.win.(rows := RemoveRow(a.win.rows, id), entries := Erase(a.win.entries, id))))
  }

  /** on_clear as written: while recording or playing back only the first
      row is protected. */
  function OnClear(a: App, B: pos, selected: Option<nat>): (r: Result<App>)
    requires AppInv(a, B) && (selected.Some? ==> selected.value in a.win.rows)
    ensures selected.None? ==> r == Ok(a)
    ensures r.Fail? <==>
      && selected.Some? && a.session.state == PlayingBack && a.session.cur == selected
      && selected.value != a.win.rows[0]
    ensures r.Ok? && r != Ok(a) ==> selected.Some? && selected.value !in r.value.session.clips
  {
    if selected.None? then Ok(a)
    else if a.session.state != Idle && |a.win.rows| > 0 && selected.value == a.win.rows[0] then Ok(a)
    else ClearClip(a, B, selected.value)
  }

  /** on_clear as evidently intended: the clip in use is protected, the one
      recorded or the one played back. */
  function OnClearCorrected(a: App, B: pos, selected: Option<nat>): (r: Result<App>)
    requires AppInv(a, B) && (selected.Some? ==> selected.value in a.win.rows)
    ensures r.Ok?
    ensures selected.Some? && r.value != a ==> selected.value !in r.value.session.clips
    ensures selected.Some? && (a.session.state == Idle || a.session.cur != selected) ==> selected.value !in r.value.session.clips
  {
    if selected.None? then Ok(a)
    else if a.session.state != Idle && a.session.cur == selected then Ok(a)
    else ClearClip(a, B, selected.value)
  }

  // ---------------------------------------------------------------------
  // The window keeps agreeing with the session

  lemma PutHas(es: seq<ClipData>, d: ClipData, id: nat)
    requires Sorted(es)
    ensures HasId(Put(es, d), id) <==> id == d.clipId || HasId(es, id)
  {
    if HasId(es, id) && id != d.clipId {
      var e :| e in es && e.clipId == id;
      assert e in Put(es, d);
    }
    if id == d.clipId {
      assert d in Put(es, d);
    }
  }

  lemma EraseHas(es: seq<ClipData>, id: nat, k: nat)
    requires Sorted(es)
    ensures HasId(Erase(es, id), k) <==> k != id && HasId(es, k)
  {
    if k != id && HasId(es, k) {
      var e :| e in es && e.clipId == k;
      assert e in Erase(es, id);
    }
  }

  lemma AddClipNumbers(w: Window, id: nat)
    requires Sorted(w.entries)
    requires forall e :: e in w.entries ==> 1 <= e.n <= w.nclips
    requires forall i, j :: 0 <= i < j < |w.entries| ==> w.entries[i].n != w.entries[j].n
    ensures var r := AddClip(w, id);
      && (forall e :: e in r.entries ==> 1 <= e.n <= r.nclips)
      && (forall i, j :: 0 <= i < j < |r.entries| ==> r.entries[i].n != r.entries[j].n)
  {
    var r := AddClip(w, id);
    var es := r.entries;
    forall i, j | 0 <= i < j < |es|
      ensures es[i].n != es[j].n
    {
      assert es[i] in es && es[j] in es;
      if es[i].clipId != id && es[j].clipId != id {
        var i' :| 0 <= i' < |w.entries| && w.entries[i'] == es[i];
        var j' :| 0 <= j' < |w.entries| && w.entries[j'] == es[j];
        assert i' != j';
      }
    }
  }

  lemma EraseNumbers(es: seq<ClipData>, id: nat)
    requires Sorted(es)
    requires forall i, j :: 0 <= i < j < |es| ==> es[i].n != es[j].n
    ensures var r := Erase(es, id);
      forall i, j :: 0 <= i < j < |r| ==> r[i].n != r[j].n
  {
    var r := Erase(es, id);
    forall i, j | 0 <= i < j < |r|
      ensures r[i].n != r[j].n
    {
      assert r[i] in r && r[j] in r;
      var i' :| 0 <= i' < |es| && es[i'] == r[i];
      var j' :| 0 <= j' < |es| && es[j'] == r[j];
      assert r[i].clipId < r[j].clipId;
    }
  }

  /** A new clip's row and entry keep the window consistent. */
  lemma AddClipKeepsWindowInv(w: Window, id: nat)
    requires WindowInv(w) && id !in w.rows
    ensures WindowInv(AddClip(w, id))
  {
    var r := AddClip(w, id);
    forall k
      ensures k in r.rows <==> HasId(r.entries, k)
    {
      PutHas(w.entries, ClipData(id, ClipName(w.nclips + 1), w.nclips + 1), k);
    }
    AddClipNumbers(w, id);
    assert DistinctRows(r.rows) by {
      assert forall k :: 0 <= k < |w.rows| ==> r.rows[k + 1] == w.rows[k];
    }
  }

  /** The record button keeps the window in step with the session. */
  lemma OnRecordKeepsInv(a: App, B: pos, selected: Option<Recordable>, monitors: map<nat, Dev>)
    requires AppInv(a, B) && OnRecord(a, B, selected, monitors).Ok?
    ensures AppInv(OnRecord(a, B, selected, monitors).value, B)
  {
    if a.session.state == Idle && selected.Some? {
      var st := Session.StartRecording(a.session, B, selected.value, monitors).value;
      AddClipKeepsWindowInv(a.win, st.id);
    }
  }

  /** So does the playback button. */
  lemma OnPlaybackKeepsInv(a: App, B: pos, selected: Option<nat>)
    requires AppInv(a, B) && OnPlayback(a, B, selected).Ok?
    ensures AppInv(OnPlayback(a, B, selected).value, B)
  {
  }

  /** Removing a clip's row and entry keeps the window consistent. */
  lemma RemoveKeepsWindowInv(w: Window, id: nat)
    requires WindowInv(w)
    ensures WindowInv(w.(rows := RemoveRow(w.rows, id), entries := Erase(w.entries, id)))
  {
    RemoveRowDistinct(w.rows, id);
    forall k
      ensures k in RemoveRow(w.rows, id) <==> HasId(Erase(w.entries, id), k)
    {
      EraseHas(w.entries, id, k);
    }
    EraseNumbers(w.entries, id);
  }

  /** And clearing a clip, whenever it succeeds. */
  lemma ClearClipKeepsInv(a: App, B: pos, id: nat)
    requires AppInv(a, B) && id in a.win.rows && ClearClip(a, B, id).Ok?
    ensures AppInv(ClearClip(a, B, id).value, B)
  {
    var r := ClearClip(a, B, id).value;
    RemoveKeepsWindowInv(a.win, id);
    assert forall k :: k in r.win.rows <==> k in r.session.clips;
  }

  /** The corrected clear button never fails and keeps the window in step. */
  lemma OnClearCorrectedKeepsInv(a: App, B: pos, selected: Option<nat>)
    requires AppInv(a, B) && (selected.Some? ==> selected.value in a.win.rows)
    ensures AppInv(OnClearCorrected(a, B, selected).value, B)
  {
    if selected.Some? && !(a.session.state != Idle && a.session.cur == selected) {
      ClearClipKeepsInv(a, B, selected.value);
    }
  }

  /** Recording two clips from device d in a fresh window leaves the
      window idle with rows [1, 0], newest first. */
  lemma RecordTwoClips(B: pos, d: Dev)
    ensures var a0 := App(Session.Init(), Window([], [], 0));
      AppInv(a0, B) &&
      var a1 := OnRecord(a0, B, Some(DeviceRec(d)), map[]).value;
      AppInv(a1, B) &&
      var a2 := OnRecord(a1, B, None, map[]).value;
      AppInv(a2, B) &&
      var a3 := OnRecord(a2, B, Some(DeviceRec(d)), map[]).value;
      AppInv(a3, B) &&
      var a4 := OnRecord(a3, B, None, map[]).value;
      AppInv(a4, B) && a4.session.state == Idle && a4.win.rows == [1, 0]
  {
    var a0 := App(Session.Init(), Window([], [], 0));
    EmptyAppInv(B);
    var a1 := OnRecord(a0, B, Some(DeviceRec(d)), map[]).value;
    OnRecordKeepsInv(a0, B, Some(DeviceRec(d)), map[]);
    var a2 := OnRecord(a1, B, None, map[]).value;
    OnRecordKeepsInv(a1, B, None, map[]);
    var a3 := OnRecord(a2, B, Some(DeviceRec(d)), map[]).value;
    OnRecordKeepsInv(a2, B, Some(DeviceRec(d)), map[]);
    OnRecordKeepsInv(a3, B, None, map[]);
  }

  /** With two clips listed, newest first, play back the older one and
      clear it: the clear guard, which only looks at the first row, lets it
      through and deleting the clip in use fails. The corrected guard
      refuses instead. RecordTwoClips reaches such a window. */
  lemma ClearWhilePlayingOlderClip(a: App, B: pos)
    requires AppInv(a, B) && a.session.state == Idle && a.win.rows == [1, 0]
    ensures var p := OnPlayback(a, B, Some(0)).value;
      && AppInv(p, B) && p.session.state == PlayingBack && p.win.rows == [1, 0]
      && OnClear(p, B, Some(0)) == Fail(ClipIsActive)
      && OnClearCorrected(p, B, Some(0)) == Ok(p)
  {
    OnPlaybackKeepsInv(a, B, Some(0));
  }
  // ---------------------------------------------------------------------
  // Save all

  /** save_all_ok walks clip_map: each clip number with its clip id. */
  function SaveAllClips(es: seq<ClipData>): (r: seq<(nat, nat)>)
    ensures |r| == |es|
    ensures forall i :: 0 <= i < |es| ==> r[i] == (es[i].n, es[i].clipId)
  {
    if |es| == 0 then [] else [(es[0].n, es[0].clipId)] + SaveAllClips(es[1..])
  }

  /** "Save all" from a consistent window writes every clip to its own
      file, and only clips the session holds. */
  lemma SaveAllFromWindow(a: App, B: pos, path: string, prefix: string, existing: set<string>)
    requires AppInv(a, B)
    requires SaveAll(path, prefix, true, SaveAllClips(a.win.entries), existing).WriteAll?
    ensures var fs := SaveAll(path, prefix, true, SaveAllClips(a.win.entries), existing).files;
      && |fs| == |a.session.clips|
      && (forall i, j :: 0 <= i < j < |fs| ==> fs[i].0 != fs[j].0)
      && (forall i :: 0 <= i < |fs| ==> fs[i].1 in a.session.clips)
  {
    var es := a.win.entries;
    var cs := SaveAllClips(es);
    SaveAllFilesDistinct(path, prefix, cs, existing);
    var fs := SaveAll(path, prefix, true, cs, existing).files;
    forall i | 0 <= i < |fs|
      ensures fs[i].1 in a.session.clips
    {
      assert es[i] in es;
    }
    IdsCount(es, a.win.rows, a.session.clips.Keys);
  }

  /** The clip ids of the entries. */
  function IdSet(es: seq<ClipData>): (r: set<nat>)
    ensures forall id :: id in r <==> HasId(es, id)
  {
    if |es| == 0 then {}
    else
      assert forall e :: e in es <==> e == es[0] || e in es[1..];
      {es[0].clipId} + IdSet(es[1..])
  }

  lemma {:induction false} SortedIdSetSize(es: seq<ClipData>)
    requires Sorted(es)
    ensures |IdSet(es)| == |es|
  {
    if |es| > 0 {
      var rest := es[1..];
      assert Sorted(rest) by {
        assert forall i :: 0 <= i < |rest| ==> rest[i] == es[i + 1];
      }
      SortedIdSetSize(rest);
      SortedHeadFresh(es);
      assert IdSet(es) == {es[0].clipId} + IdSet(rest);
      AddFresh(es[0].clipId, IdSet(rest));
    }
  }

  lemma AddFresh(x: nat, s: set<nat>)
    requires x !in s
    ensures |{x} + s| == |s| + 1
  {
    assert {x} + s == s + {x};
  }

  /** In sorted entries no later entry has the first one's id. */
  lemma SortedHeadFresh(es: seq<ClipData>)
    requires Sorted(es) && |es| > 0
    ensures es[0].clipId !in IdSet(es[1..])
  {
    forall e | e in es[1..]
      ensures e.clipId != es[0].clipId
    {
      var k :| 0 <= k < |es[1..]| && es[1..][k] == e;
      assert es[k + 1] == e;
    }
  }

  /** Sorted entries, one per row, one row per key: as many entries as keys. */
  lemma IdsCount(es: seq<ClipData>, rows: seq<nat>, keys: set<nat>)
    requires Sorted(es)
    requires forall id :: id in rows <==> HasId(es, id)
    requires forall id :: id in rows <==> id in keys
    ensures |es| == |keys|
  {
    assert IdSet(es) == keys;
    SortedIdSetSize(es);
  }
}
