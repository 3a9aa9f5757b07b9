/** The key-file parser of soundrec_dconf.cpp: each line of the key file
    names an action and a key combination; the last line for an action
    wins, and the bindings come out in the fixed order of the six actions,
    each with the name and the dbus-send command GNOME's custom keybinding
    runs. */
module KeyBindings {
  import opened Types
  import opened Text

  /** `binding_names`: the six actions, in the order bindings are made. */
  const Actions: seq<string> := ["Record", "StopRecord", "Playback", "StopPlayback", "SwitchToSoundCard", "SwitchToMic"]

  const NameTag: string := "SoundRecorder:"

  /** `DBUS_SEND_FORMAT` filled in up to the action: the destination
      org.SoundRecorder, the object /org/SoundRecorder, and the interface
      org.SoundRecorder. */
  const CommandPrefix: string := "dbus-send --dest=org.SoundRecorder --type=method_call /org/SoundRecorder org.SoundRecorder."

  const LineDelims: set<char> := {'\n'}

  const FieldDelims: set<char> := {'\t', ' '}

  /** A custom keybinding: its name, its key combination and its command. */
  datatype Binding = Binding(name: string, binding: string, command: string)

  /** The Binding constructor: the name is the tag followed by at most 36
      characters of the action; the command asks the recorder's D-Bus
      object to run the action. */
  function MakeBinding(action: string, key: string): (b: Binding)
    ensures StartsWith(b.name, NameTag)
    ensures |action| <= 36 ==> b.name[|NameTag|..] == action
    ensures b.binding == key && EndsWith(b.command, "." + action)
  {
    var name := NameTag + Take(action, 36);
    assert name[..|NameTag|] == NameTag;
    Binding(name, key, CommandPrefix + action)
  }

  /** The first two tab- or space-separated fields of a line. */
  function Fields(line: string): (r: (Option<string>, Option<string>))
    ensures r.1.Some? ==> r.0.Some?
    ensures r.0.Some? ==> Token(r.0.value, FieldDelims)
    ensures r.1.Some? ==> Token(r.1.value, FieldDelims)
  {
    var ts := Tokens(line, FieldDelims);
    (if |ts| > 0 then Some(ts[0]) else None, if |ts| > 1 then Some(ts[1]) else None)
  }

  /** What one line says about an action: its key, when the line's first
      field is the action and a second field exists. */
  function LineBinding(line: string, action: string): (k: Option<string>)
    ensures k.Some? ==> Fields(line).0 == Some(action) && Fields(line).1 == k && |k.value| > 0
    ensures Fields(line).0 == Some(action) && Fields(line).1.Some? ==> k == Fields(line).1
  {
    var (name, key) := Fields(line);
    if name == Some(action) && key.Some? then key else None
  }

  /** The key the file gives an action: the one on its last line that
      names the action with a key. */
  function LastBinding(lines: seq<string>, action: string): (k: Option<string>)
    ensures k.None? <==> forall j :: 0 <= j < |lines| ==> LineBinding(lines[j], action).None?
    ensures k.Some? ==> |k.value| > 0
  {
    if |lines| == 0 then None
    else if LineBinding(lines[|lines| - 1], action).Some? then LineBinding(lines[|lines| - 1], action)
    else LastBinding(lines[..|lines| - 1], action)
  }

  /** Line j gives the action key b, and no later line gives it a key. */
  predicate IsLast(lines: seq<string>, action: string, j: int, b: string)
  {
    && 0 <= j < |lines| && LineBinding(lines[j], action) == Some(b)
    && forall k :: j < k < |lines| ==> LineBinding(lines[k], action).None?
  }

  lemma {:induction false} LastBindingSound(lines: seq<string>, action: string) returns (j: int)
    requires LastBinding(lines, action).Some?
    ensures IsLast(lines, action, j, LastBinding(lines, action).value)
  {
    var n := |lines| - 1;
    if LineBinding(lines[n], action).Some? {
      j := n;
    } else {
      var init := lines[..n];
      j := LastBindingSound(init, action);
      assert lines[j] == init[j];
      forall k | j < k < |lines|
        ensures LineBinding(lines[k], action).None?
      {
        if k < n {
          assert lines[k] == init[k];
        }
      }
    }
  }

  lemma {:induction false} LastBindingComplete(lines: seq<string>, action: string, j: int, b: string)
    requires IsLast(lines, action, j, b)
    ensures LastBinding(lines, action) == Some(b)
  {
    var n := |lines| - 1;
    if j < n {
      var init := lines[..n];
      assert LineBinding(lines[n], action).None?;
      assert init[j] == lines[j];
      forall k | j < k < |init|
        ensures LineBinding(init[k], action).None?
      {
        assert init[k] == lines[k];
      }
      LastBindingComplete(init, action, j, b);
    }
  }

  /** The last line wins, in both directions: an action gets key b exactly
      when some line gives it b and no later line gives it any key. */
  lemma LastBindingWins(lines: seq<string>, action: string, b: string)
    ensures LastBinding(lines, action) == Some(b) <==> exists j :: IsLast(lines, action, j, b)
  {
    if LastBinding(lines, action) == Some(b) {
      var j := LastBindingSound(lines, action);
    }
    if exists j :: IsLast(lines, action, j, b) {
      var j :| IsLast(lines, action, j, b);
      LastBindingComplete(lines, action, j, b);
    }
  }

  /** The first loop of get_key_bindings: one slot per action, filled line
      by line; the slot of an action holds the key of its last line. */
  method ParseSlots(lines: seq<string>) returns (slots: seq<Option<string>>)
    ensures |slots| == |Actions|
    ensures forall i :: 0 <= i < |Actions| ==> slots[i] == LastBinding(lines, Actions[i])
  {
    slots := [None, None, None, None, None, None];
    var k := 0;
    while k < |lines|
      invariant k <= |lines| && |slots| == |Actions|
      invariant forall i :: 0 <= i < |Actions| ==> slots[i] == LastBinding(lines[..k], Actions[i])
    {
      assert lines[..k + 1][..k] == lines[..k];
      assert lines[..k + 1][k] == lines[k];
      slots := ApplyLine(slots, lines[k]);
      k := k + 1;
    }
    assert lines[..k] == lines;
  }

  /** One line of the file against every action in turn: the line's key
      replaces the slot of the action it names. */
  method ApplyLine(slots: seq<Option<string>>, line: string) returns (next: seq<Option<string>>)
    requires |slots| == |Actions|
    ensures |next| == |Actions|
    ensures forall i :: 0 <= i < |Actions| ==>
      next[i] == if LineBinding(line, Actions[i]).Some? then LineBinding(line, Actions[i]) else slots[i]
  {
    var (name, key) := Fields(line);
    next := slots;
    var j := 0;
    while j < |Actions|
      invariant j <= |Actions| && |next| == |Actions|
      invariant forall i :: 0 <= i < |Actions| ==>
        next[i] == if i < j && LineBinding(line, Actions[i]).Some? then LineBinding(line, Actions[i]) else slots[i]
    {
      if name == Some(Actions[j]) && key.Some? {
        next := next[j := key];
      }
      j := j + 1;
    }
  }

  /** The bindings of the first n actions that the file gives a key, in
      action order. */
  function Declared(lines: seq<string>, n: nat): (r: seq<Binding>)
    requires n <= |Actions|
    ensures |r| <= n
  {
    if n == 0 then []
    else
      var key := LastBinding(lines, Actions[n - 1]);
      Declared(lines, n - 1) + (if key.Some? then [MakeBinding(Actions[n - 1], key.value)] else [])
  }

  /** Every action with a key has its binding among the declared ones, and
      every declared binding belongs to an action with a key. */
  lemma {:induction false} DeclaredHas(lines: seq<string>, n: nat, b: Binding)
    requires n <= |Actions|
    ensures b in Declared(lines, n) <==>
      exists i :: 0 <= i < n && LastBinding(lines, Actions[i]).Some?
                 && b == MakeBinding(Actions[i], LastBinding(lines, Actions[i]).value)
  {
    if n > 0 {
      DeclaredHas(lines, n - 1, b);
      var key := LastBinding(lines, Actions[n - 1]);
      var tail := if key.Some? then [MakeBinding(Actions[n - 1], key.value)] else [];
      assert Declared(lines, n) == Declared(lines, n - 1) + tail;
      assert b in Declared(lines, n) <==> b in Declared(lines, n - 1) || b in tail;
    }
  }

  /** No action with a key, no bindings. */
  lemma {:induction false} DeclaredEmpty(lines: seq<string>, n: nat)
    requires n <= |Actions|
    ensures Declared(lines, n) == [] <==> forall i :: 0 <= i < n ==> LastBinding(lines, Actions[i]).None?
  {
    if n > 0 {
      DeclaredEmpty(lines, n - 1);
    }
  }

  /** The lines of the key file. */
  function Lines(text: string): seq<string>
  {
    Tokens(text, LineDelims)
  }

  /** Whether any slot holds a key. */
  method AnyKey(slots: seq<Option<string>>) returns (have: bool)
    ensures have <==> exists k :: 0 <= k < |slots| && slots[k].Some?
  {
    have := false;
    var i := 0;
    while i < |slots|
      invariant i <= |slots|
      invariant have <==> exists k :: 0 <= k < i && slots[k].Some?
    {
      have := have || slots[i].Some?;
      i := i + 1;
    }
  }

  /** The second loop of get_key_bindings: a binding for every slot with
      a key, in action order. */
  method CollectBindings(lines: seq<string>, slots: seq<Option<string>>) returns (list: seq<Binding>)
    requires |slots| == |Actions|
    requires forall i :: 0 <= i < |Actions| ==> slots[i] == LastBinding(lines, Actions[i])
    ensures list == Declared(lines, |Actions|)
  {
    list := [];
    var i := 0;
    while i < |Actions|
      invariant i <= |Actions|
      invariant list == Declared(lines, i)
    {
      if slots[i].Some? {
        list := list + [MakeBinding(Actions[i], slots[i].value)];
      }
      i := i + 1;
    }
  }

  /** get_key_bindings: nothing when the file cannot be read or gives no
      action a key; otherwise a binding per action with a key, in the
      fixed action order. */
  method GetKeyBindings(text: Option<string>) returns (r: Option<seq<Binding>>)
    ensures r.None? <==> text.None? || forall i :: 0 <= i < |Actions| ==> LastBinding(Lines(text.value), Actions[i]).None?
    ensures r.Some? ==> r.value == Declared(Lines(text.value), |Actions|) && |r.value| > 0
  {
    if text.None? {
      return None;
    }
    var lines := Lines(text.value);
    var slots := ParseSlots(lines);
    var have := AnyKey(slots);
    if !have {
      return None;
    }
    var list := CollectBindings(lines, slots);
    DeclaredEmpty(lines, |Actions|);
    return Some(list);
  }

  /** A key file that lists some actions once each, one "action key" line
      apiece, gives those actions exactly those keys. */
  lemma {:induction false} OneLinePerAction(actions: seq<string>, keys: seq<string>, a: string)
    requires |actions| == |keys|
    requires forall i :: 0 <= i < |keys| ==> Token(actions[i], FieldDelims) && Token(keys[i], FieldDelims)
    requires forall i, j :: 0 <= i < j < |actions| ==> actions[i] != actions[j]
    ensures var lines := seq(|actions|, i requires 0 <= i < |actions| => actions[i] + " " + keys[i]);
      forall i :: 0 <= i < |actions| && actions[i] == a ==> LastBinding(lines, a) == Some(keys[i])
  {
    var lines := seq(|actions|, i requires 0 <= i < |actions| => actions[i] + " " + keys[i]);
    forall i | 0 <= i < |actions| && actions[i] == a
      ensures LastBinding(lines, a) == Some(keys[i])
    {
      forall k | 0 <= k < |actions|
        ensures LineBinding(lines[k], a) == if k == i then Some(keys[i]) else None
      {
        assert lines[k] == actions[k] + " " + keys[k];
        LineFields(actions[k], keys[k]);
        if k != i {
          assert actions[k] != actions[i] by {
            if k < i { assert actions[k] != actions[i]; } else { assert actions[i] != actions[k]; }
          }
        }
      }
      assert IsLast(lines, a, i, keys[i]);
      LastBindingComplete(lines, a, i, keys[i]);
    }
  }

  /** The fields of a line: the action and the key, with any blanks
      before the action, at least one blank between the two, and after
      the key either the end of the line or a blank and anything else. */
  lemma LinePaddedFields(w0: string, action: string, w1: string, key: string, rest: string)
    requires Blanks(w0, FieldDelims) && Blanks(w1, FieldDelims) && |w1| > 0
    requires Token(action, FieldDelims) && Token(key, FieldDelims)
    requires |rest| == 0 || rest[0] in FieldDelims
    ensures Fields(w0 + action + w1 + key + rest) == (Some(action), Some(key))
  {
    var tail := key + rest;
    TokensCons(key, rest, FieldDelims);
    TokensSkip(w1, tail, FieldDelims);
    TokensCons(action, w1 + tail, FieldDelims);
    TokensSkip(w0, action + (w1 + tail), FieldDelims);
    assert w0 + action + w1 + key + rest == w0 + (action + (w1 + tail));
  }

  /** The fields of an "action key" line. */
  lemma LineFields(action: string, key: string)
    requires Token(action, FieldDelims) && Token(key, FieldDelims)
    ensures Fields(action + " " + key) == (Some(action), Some(key))
  {
    LinePaddedFields([], action, " ", key, []);
    assert [] + action + " " + key + [] == action + " " + key;
  }

  /** A line of blanks only has no fields. */
  lemma BlankLineFields(line: string)
    ensures Fields(line).0.None? <==> Blanks(line, FieldDelims)
  {
    TokensNone(line, FieldDelims);
  }
}
