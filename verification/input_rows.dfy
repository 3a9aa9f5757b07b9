/** The input list of the window (inputs_cb in soundrec_ui.cpp): at the
    end of each listing, the rows of streams marked REMOVE or CHANGE in the
    frozen map are removed, and every listed stream marked NEW or CHANGE
    gets a row at the end, named after its application. */
module InputRows {
  import opened Types
  import opened Streams

  /** One row of the input list: sink, stream index, name and icon. */
  datatype InputRow = InputRow(sink: nat, index: nat, name: string, icon: string)

  /** The row of a stream: its application's name or "Unknown", and its
      icon name, where a missing property reads as the empty string. */
  function RowOf(x: Input): (w: InputRow)
    ensures w.index == x.index && w.sink == x.sink
    ensures "application.name" !in x.props ==> w.name == "Unknown"
  {
    var name := if "application.name" in x.props then x.props["application.name"] else "Unknown";
    var icon := if "application.icon_name" in x.props then x.props["application.icon_name"] else "";
    InputRow(x.sink, x.index, name, icon)
  }

  /** The rows of a list of streams, in order. */
  function Rows(xs: seq<Input>): (r: seq<InputRow>)
    ensures |r| == |xs|
    ensures forall i :: 0 <= i < |xs| ==> r[i] == RowOf(xs[i])
  {
    if |xs| == 0 then [] else [RowOf(xs[0])] + Rows(xs[1..])
  }

  lemma RowsAppend(xs: seq<Input>, ys: seq<Input>)
    ensures Rows(xs + ys) == Rows(xs) + Rows(ys)
  {
    var a := Rows(xs + ys);
    var b := Rows(xs) + Rows(ys);
    forall i | 0 <= i < |a|
      ensures a[i] == b[i]
    {
      if i < |xs| {
        assert (xs + ys)[i] == xs[i];
      } else {
        assert (xs + ys)[i] == ys[i - |xs|];
      }
    }
  }

  /** An event that gives a listed stream a row. */
  predicate Shows(u: Update)
  {
    u == New || u == Change
  }

  /** The first loop of inputs_cb: rows of dropped streams go. */
  function KeepRows(rows: seq<InputRow>, frozen: map<nat, Update>): (r: seq<InputRow>)
    ensures |r| <= |rows|
    ensures forall w :: w in r <==> w in rows && !Dropped(Lookup(frozen, w.index))
  {
    if |rows| == 0 then []
    else
      assert rows == [rows[0]] + rows[1..];
      (if Dropped(Lookup(frozen, rows[0].index)) then [] else [rows[0]]) + KeepRows(rows[1..], frozen)
  }

  /** The second loop of inputs_cb: a row for every stream marked NEW or
      CHANGE, in list order. */
  function NewRows(xs: seq<Input>, frozen: map<nat, Update>): (r: seq<InputRow>)
    ensures |r| <= |xs|
    ensures forall x :: x in xs && Shows(Lookup(frozen, x.index)) ==> RowOf(x) in r
    ensures forall w :: w in r ==> Shows(Lookup(frozen, w.index))
  {
    if |xs| == 0 then []
    else
      assert xs == [xs[0]] + xs[1..];
      (if Shows(Lookup(frozen, xs[0].index)) then [RowOf(xs[0])] else []) + NewRows(xs[1..], frozen)
  }

  /** inputs_cb: the window's rows after a listing that ended with the
      list xs and the frozen map. */
  function InputsCb(rows: seq<InputRow>, xs: seq<Input>, frozen: map<nat, Update>): (r: seq<InputRow>)
    ensures forall w :: w in rows && !Dropped(Lookup(frozen, w.index)) ==> w in r
    ensures forall x :: x in xs && Shows(Lookup(frozen, x.index)) ==> RowOf(x) in r
    ensures forall w :: w in r ==> (w in rows && !Dropped(Lookup(frozen, w.index))) || Shows(Lookup(frozen, w.index))
    ensures |r| <= |rows| + |xs|
  {
    KeepRows(rows, frozen) + NewRows(xs, frozen)
  }

  // ---------------------------------------------------------------------
  // The rows follow the input list

  lemma KeepRowsCons(w: InputRow, rs: seq<InputRow>, f: map<nat, Update>)
    ensures KeepRows([w] + rs, f) == (if Dropped(Lookup(f, w.index)) then [] else [w]) + KeepRows(rs, f)
  {
    assert ([w] + rs)[1..] == rs;
  }

  lemma SurvivorsCons(x: Input, xs: seq<Input>, g: map<nat, Update>)
    ensures Survivors([x] + xs, g) == (if Dropped(Lookup(g, x.index)) then [] else [x]) + Survivors(xs, g)
  {
    assert ([x] + xs)[1..] == xs;
  }

  lemma {:induction false} KeepRowsOfRows(xs: seq<Input>, f: map<nat, Update>, g: map<nat, Update>)
    requires forall x :: x in xs ==> (Dropped(Lookup(f, x.index)) <==> Dropped(Lookup(g, x.index)))
    ensures KeepRows(Rows(xs), f) == Rows(Survivors(xs, g))
  {
    if |xs| > 0 {
      var x := xs[0];
      var rest := xs[1..];
      assert xs == [x] + rest;
      assert x in xs;
      assert forall y :: y in rest ==> y in xs;
      KeepRowsOfRows(rest, f, g);
      var hx := if Dropped(Lookup(g, x.index)) then [] else [x];
      assert Rows(xs) == [RowOf(x)] + Rows(rest) by {
        RowsAppend([x], rest);
      }
      KeepRowsCons(RowOf(x), Rows(rest), f);
      SurvivorsCons(x, rest, g);
      RowsAppend(hx, Survivors(rest, g));
      assert Rows(hx) == if Dropped(Lookup(f, x.index)) then [] else [RowOf(x)];
    }
  }

  lemma {:induction false} NewRowsAppend(xs: seq<Input>, ys: seq<Input>, f: map<nat, Update>)
    ensures NewRows(xs + ys, f) == NewRows(xs, f) + NewRows(ys, f)
  {
    if |xs| > 0 {
      assert (xs + ys)[1..] == xs[1..] + ys;
      NewRowsAppend(xs[1..], ys, f);
      var h := if Shows(Lookup(f, xs[0].index)) then [RowOf(xs[0])] else [];
      AppendAssoc(h, NewRows(xs[1..], f), NewRows(ys, f));
    } else {
      assert xs + ys == ys;
    }
  }

  lemma {:induction false} NewRowsNone(xs: seq<Input>, f: map<nat, Update>)
    requires forall x :: x in xs ==> !Shows(Lookup(f, x.index))
    ensures NewRows(xs, f) == []
  {
    if |xs| > 0 {
      assert xs[0] in xs;
      assert forall x :: x in xs[1..] ==> x in xs;
      NewRowsNone(xs[1..], f);
    }
  }

  lemma {:induction false} NewRowsAll(xs: seq<Input>, f: map<nat, Update>)
    requires forall x :: x in xs ==> Shows(Lookup(f, x.index))
    ensures NewRows(xs, f) == Rows(xs)
  {
    if |xs| > 0 {
      assert xs[0] in xs;
      assert forall x :: x in xs[1..] ==> x in xs;
      NewRowsAll(xs[1..], f);
      assert Rows(xs)[1..] == Rows(xs[1..]);
    }
  }

  /** One timer cycle as the window sees it: the timer fires, the streams
      ls are listed, the listing ends and inputs_cb updates the rows. */
  function Refresh(e: Engine, rows: seq<InputRow>, ls: seq<Input>, corrected: bool): (r: Result<(Engine, seq<InputRow>)>)
    requires e.timer
    ensures r.Ok? ==> !r.value.0.listing
  {
    match Enumerate(TimerFires(e), ls, corrected)
    case Fail(f) => Fail(f)
    case Ok(e2) =>
      var end := if corrected then EnumEndCorrected(e2) else EnumEnd(e2);
      Ok((end.engine, InputsCb(rows, end.shown, end.frozen)))
  }

  /** A refresh whose listing ended in e2 leaves e2's list, and the window
      rows inputs_cb makes of it. */
  lemma RefreshRows(e: Engine, rows: seq<InputRow>, ls: seq<Input>, corrected: bool, e2: Engine)
    requires e.timer && Enumerate(TimerFires(e), ls, corrected) == Ok(e2)
    ensures Refresh(e, rows, ls, corrected).Ok?
    ensures Refresh(e, rows, ls, corrected).value.0.inputs == e2.inputs
    ensures Refresh(e, rows, ls, corrected).value.1 == InputsCb(rows, e2.inputs, e2.frozen)
  {
  }

  /** The frozen map a corrected listing leaves, in terms of the events
      u the timer froze and the streams fr the listing appended. */
  ghost predicate FrozenAfter(f: map<nat, Update>, u: map<nat, Update>, fr: seq<Input>)
  {
    forall k :: Lookup(f, k) == if k in Indices(fr) && Lookup(u, k) != Change then New else Lookup(u, k)
  }

  /** A surviving stream is neither dropped nor shown again. */
  lemma SurvivorsQuiet(xs: seq<Input>, u: map<nat, Update>, s: seq<Input>, fr: seq<Input>, f: map<nat, Update>)
    requires s == Survivors(xs, u) && FrozenAfter(f, u, fr)
    requires forall x :: x in fr ==> x.index !in Indices(s)
    requires forall x :: x in xs ==> Lookup(u, x.index) != New
    ensures forall x :: x in s ==> Lookup(f, x.index) == NoUpdate
  {
    forall x | x in s
      ensures Lookup(f, x.index) == NoUpdate
    {
      IndicesHas(s, x.index);
      if x.index in Indices(fr) {
        IndicesHas(fr, x.index);
      }
    }
  }

  /** An appended stream is shown. */
  lemma FreshShown(u: map<nat, Update>, fr: seq<Input>, f: map<nat, Update>)
    requires FrozenAfter(f, u, fr)
    requires forall x :: x in fr ==> Lookup(u, x.index) != Remove
    ensures forall x :: x in fr ==> Shows(Lookup(f, x.index))
  {
    forall x | x in fr
      ensures Shows(Lookup(f, x.index))
    {
      IndicesHas(fr, x.index);
    }
  }

  /** The frozen map drops an old stream exactly when its event did. */
  lemma DropAgrees(xs: seq<Input>, u: map<nat, Update>, s: seq<Input>, fr: seq<Input>, f: map<nat, Update>)
    requires s == Survivors(xs, u) && FrozenAfter(f, u, fr)
    requires forall x :: x in fr ==> x.index !in Indices(s) && Lookup(u, x.index) != Remove
    ensures forall x :: x in xs ==> (Dropped(Lookup(f, x.index)) <==> Dropped(Lookup(u, x.index)))
  {
    forall x | x in xs
      ensures Dropped(Lookup(f, x.index)) <==> Dropped(Lookup(u, x.index))
    {
      IndicesHas(s, x.index);
      IndicesHas(fr, x.index);
    }
  }

  /** inputs_cb on the rows of the old list, given the three facts above,
      shows the new list. */
  lemma RowsAssemble(xs: seq<Input>, u: map<nat, Update>, s: seq<Input>, fr: seq<Input>, f: map<nat, Update>)
    requires s == Survivors(xs, u)
    requires forall x :: x in s ==> Lookup(f, x.index) == NoUpdate
    requires forall x :: x in fr ==> Shows(Lookup(f, x.index))
    requires forall x :: x in xs ==> (Dropped(Lookup(f, x.index)) <==> Dropped(Lookup(u, x.index)))
    ensures InputsCb(Rows(xs), s + fr, f) == Rows(s + fr)
  {
    assert KeepRows(Rows(xs), f) == Rows(s) by {
      KeepRowsOfRows(xs, f, u);
    }
    assert NewRows(s + fr, f) == Rows(fr) by {
      NewRowsAppend(s, fr, f);
      NewRowsNone(s, f);
      NewRowsAll(fr, f);
    }
    RowsAppend(s, fr);
  }

  /** With the corrected engine the rows keep mirroring the input list: if
      the window shows exactly the list before the timer fires, it shows
      exactly the new list after the listing, which is the surviving
      streams followed by the listed ones not among them. The conditions:
      no NEW event about a stream already listed, no stream listed twice,
      and no listed stream with a REMOVE event. */
  lemma RefreshMirrors(e: Engine, ls: seq<Input>)
    requires e.timer && Distinct(ls)
    requires forall x :: x in e.inputs ==> Lookup(e.updates, x.index) != New
    requires forall l :: l in ls ==> Lookup(e.updates, l.index) != Remove
    ensures var r := Refresh(e, Rows(e.inputs), ls, true);
      var s := Survivors(e.inputs, e.updates);
      && r.Ok?
      && r.value.0.inputs == s + Fresh(ls, Indices(s))
      && r.value.1 == Rows(r.value.0.inputs)
  {
    var t := TimerFires(e);
    var u := e.updates;
    var s := t.inputs;
    var fr := Fresh(ls, Indices(s));
    forall l | l in ls && l.index in Indices(s)
      ensures Lookup(t.frozen, l.index) == NoUpdate
    {
      IndicesHas(s, l.index);
    }
    EnumerateCorrectedInputs(t, ls);
    EnumerateCorrectedFrozen(t, ls);
    var e2 := Enumerate(t, ls, true).value;
    var f := e2.frozen;
    assert FrozenAfter(f, u, fr);
    assert forall x :: x in fr ==> x.index !in Indices(s) && Lookup(u, x.index) != Remove;
    SurvivorsQuiet(e.inputs, u, s, fr, f);
    FreshShown(u, fr, f);
    DropAgrees(e.inputs, u, s, fr, f);
    RowsAssemble(e.inputs, u, s, fr, f);
  }

  /** The timer drops a stream with a CHANGE event and freezes the event. */
  lemma ChangedStreamDropped(x: Input)
    ensures var t := TimerFires(Engine([x], map[x.index := Change], map[], true, true, false));
      t.inputs == [] && Lookup(t.frozen, x.index) == Change && t.listing
  {
    var u := map[x.index := Change];
    assert Survivors([x], u) == [] + Survivors([x][1..], u);
  }

  /** The window's rows for a stream x after a listing that left the list
      [y], where y has x's index: x's row stays unless the frozen map drops
      it, and y gets a row when the frozen map shows it. */
  lemma RowsAfterSingleListing(x: Input, y: Input, e2: Engine)
    requires x.index == y.index && e2.inputs == [y]
    ensures Dropped(Lookup(e2.frozen, x.index)) ==> InputsCb(Rows([x]), e2.inputs, e2.frozen) == NewRows([y], e2.frozen)
    ensures !Dropped(Lookup(e2.frozen, x.index)) ==> InputsCb(Rows([x]), e2.inputs, e2.frozen) == [RowOf(x)] + NewRows([y], e2.frozen)
    ensures Shows(Lookup(e2.frozen, y.index)) ==> NewRows([y], e2.frozen) == [RowOf(y)]
  {
    assert Rows([x]) == [RowOf(x)];
    KeepRowsCons(RowOf(x), [], e2.frozen);
    assert [RowOf(x)] + [] == [RowOf(x)];
    assert NewRows([y], e2.frozen) == (if Shows(Lookup(e2.frozen, y.index)) then [RowOf(y)] else []) + NewRows([], e2.frozen);
  }

  /** As written, a stream whose properties changed is listed again as NEW
      rather than CHANGE, so inputs_cb keeps its old row and appends a new
      one: the window shows the stream twice while the list holds it once. */
  lemma ChangedStreamShownTwice(x: Input, y: Input)
    requires x.index == y.index
    ensures var e := Engine([x], map[x.index := Change], map[], true, true, false);
      && Refresh(e, Rows([x]), [y], false).Ok?
      && Refresh(e, Rows([x]), [y], false).value.0.inputs == [y]
      && Refresh(e, Rows([x]), [y], false).value.1 == [RowOf(x), RowOf(y)]
  {
    var e := Engine([x], map[x.index := Change], map[], true, true, false);
    var e2 := ChangedListing(x, y, false);
    assert Lookup(e2.frozen, y.index) == New;
    assert InputsCb(Rows([x]), e2.inputs, e2.frozen) == [RowOf(x), RowOf(y)] by {
      RowsAfterSingleListing(x, y, e2);
      assert [RowOf(x)] + [RowOf(y)] == [RowOf(x), RowOf(y)];
    }
    RefreshRows(e, Rows([x]), [y], false, e2);
  }

  /** The corrected engine keeps the CHANGE mark, and the window replaces
      the stream's row. */
  lemma ChangedStreamShownOnce(x: Input, y: Input)
    requires x.index == y.index
    ensures var e := Engine([x], map[x.index := Change], map[], true, true, false);
      && Refresh(e, Rows([x]), [y], true).Ok?
      && Refresh(e, Rows([x]), [y], true).value.0.inputs == [y]
      && Refresh(e, Rows([x]), [y], true).value.1 == [RowOf(y)]
  {
    var e := Engine([x], map[x.index := Change], map[], true, true, false);
    var e2 := ChangedListing(x, y, true);
    RefreshRows(e, Rows([x]), [y], true, e2);
    RowsAfterSingleListing(x, y, e2);
  }

  /** The listing that follows a change of stream x, which reports it
      again as y: y is listed, marked NEW as written and CHANGE corrected. */
  lemma ChangedListing(x: Input, y: Input, corrected: bool) returns (e2: Engine)
    requires x.index == y.index
    ensures var t := TimerFires(Engine([x], map[x.index := Change], map[], true, true, false));
      && Enumerate(t, [y], corrected) == Ok(e2)
      && e2.inputs == [y]
      && Lookup(e2.frozen, x.index) == if corrected then Change else New
  {
    var t := TimerFires(Engine([x], map[x.index := Change], map[], true, true, false));
    ChangedStreamDropped(x);
    assert Indices(t.inputs) == [];
    var a := if corrected then EnumEntryCorrected(t, y) else EnumEntry(t, y);
    assert a.Ok? && a.value.inputs == [y];
    assert Lookup(a.value.frozen, x.index) == if corrected then Change else New;
    assert Enumerate(t, [y], corrected) == a by {
      assert [y][1..] == [];
    }
    e2 := a.value;
  }
}
