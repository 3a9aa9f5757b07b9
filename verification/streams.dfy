/** The stream diff engine of soundrec.cpp: subscription events about other
    applications' streams are collected in an update map, a 100 ms timer
    freezes that map and re-lists every stream, and need_to_update decides
    stream by stream whether the input list gains an entry. The end of the
    listing hands the list and the frozen map to the window. */
module Streams {
  import opened Types

  /** The engine's globals: the input list, the map of events being
      collected (`update_map`), the map of the current or last listing
      (`update_map_frozen`) and `update_pending`; and two facts about the
      main loop: whether the timer is scheduled and whether a listing runs. */
  datatype Engine = Engine(inputs: seq<Input>, updates: map<nat, Update>, frozen: map<nat, Update>,
                           pending: bool, timer: bool, listing: bool)

  /** The stream indices of a list, in order. */
  function Indices(xs: seq<Input>): (r: seq<nat>)
    ensures |r| == |xs|
    ensures forall i :: 0 <= i < |xs| ==> r[i] == xs[i].index
  {
    if |xs| == 0 then [] else [xs[0].index] + Indices(xs[1..])
  }

  lemma IndicesAppend(xs: seq<Input>, ys: seq<Input>)
    ensures Indices(xs + ys) == Indices(xs) + Indices(ys)
  {
  }

  /** No index occurs twice. */
  predicate Distinct(xs: seq<Input>)
  {
    forall i, j :: 0 <= i < j < |xs| ==> xs[i].index != xs[j].index
  }

  /** An event that makes the timer drop a stream from the list. */
  predicate Dropped(u: Update)
  {
    u == Remove || u == Change
  }

  /** The connection becomes ready: the first listing starts at once. */
  function Connected(): (e: Engine)
    ensures e.listing && e.pending && !e.timer
    ensures e.inputs == [] && e.updates == map[] && e.frozen == map[]
  {
    Engine([], map[], map[], true, false, true)
  }

  // ---------------------------------------------------------------------
  // queue_update

  /** A subscription event about stream idx: the last event about a stream
      wins, and a timer is scheduled unless one is scheduled or a listing
      runs already. */
  function QueueUpdate(e: Engine, idx: nat, u: Update): (r: Engine)
    ensures r.updates.Keys == e.updates.Keys + {idx}
    ensures r.updates[idx] == u
    ensures forall k :: k in e.updates && k != idx ==> r.updates[k] == e.updates[k]
    ensures r.inputs == e.inputs && r.frozen == e.frozen && r.listing == e.listing
    ensures r.pending
    ensures r.timer <==> e.timer || !e.pending
  {
    var updates := e.updates[idx := u];
    if e.pending then e.(updates := updates)
    else e.(updates := updates, pending := true, timer := true)
  }

  // ---------------------------------------------------------------------
  // update_cb

  /** The inputs the timer keeps: those without a REMOVE or CHANGE event. */
  function Survivors(xs: seq<Input>, updates: map<nat, Update>): (r: seq<Input>)
    ensures |r| <= |xs|
    ensures forall x :: x in r <==> x in xs && !Dropped(Lookup(updates, x.index))
  {
    if |xs| == 0 then []
    else
      assert xs == [xs[0]] + xs[1..];
      (if Dropped(Lookup(updates, xs[0].index)) then [] else [xs[0]]) + Survivors(xs[1..], updates)
  }

  /** `update_map[inp->index]` for every input: each index that had no
      event gets an explicit NOUPDATE entry. */
  function Mark(updates: map<nat, Update>, xs: seq<Input>): (r: map<nat, Update>)
    ensures forall k :: k in r <==> k in updates || k in Indices(xs)
    ensures forall k :: Lookup(r, k) == Lookup(updates, k)
    decreases |xs|
  {
    if |xs| == 0 then updates
    else
      var k := xs[0].index;
      var rest := Mark(if k in updates then updates else updates[k := NoUpdate], xs[1..]);
      assert Indices(xs) == [k] + Indices(xs[1..]);
      rest
  }

  /** update_cb: drop the removed and changed inputs, freeze the collected
      events, start a listing, and collect afresh. */
  function TimerFires(e: Engine): (r: Engine)
    requires e.timer
    ensures r.inputs == Survivors(e.inputs, e.updates)
    ensures forall k :: Lookup(r.frozen, k) == Lookup(e.updates, k)
    ensures forall x :: x in e.inputs ==> x.index in r.frozen
    ensures r.updates == map[] && r.listing && r.pending && !r.timer
  {
    Engine(Survivors(e.inputs, e.updates), map[], Mark(e.updates, e.inputs), true, false, true)
  }

  // ---------------------------------------------------------------------
  // need_to_update and sink_input_cb

  /** What need_to_update returns, and the frozen map it leaves. */
  datatype Need = Need(update: bool, frozen: map<nat, Update>)

  /** need_to_update as written: a listed stream that is not in the input
      list is marked NEW, whatever the frozen map said about it. */
  function NeedToUpdate(xs: seq<Input>, frozen: map<nat, Update>, idx: nat): (r: Result<Need>)
    ensures r.Fail? <==> idx in Indices(xs) && (Lookup(frozen, idx) == New || Lookup(frozen, idx) == Remove)
    ensures r.Ok? ==> (r.value.update <==> idx !in Indices(xs) || Lookup(frozen, idx) == Change)
    ensures r.Ok? ==> Lookup(r.value.frozen, idx) == (if idx in Indices(xs) then Lookup(frozen, idx) else New)
    ensures r.Ok? ==> idx in r.value.frozen
    ensures r.Ok? ==> forall k :: k != idx ==> Lookup(r.value.frozen, k) == Lookup(frozen, k)
  {
    if idx !in Indices(xs) then Ok(Need(true, frozen[idx := New]))
    else if idx !in frozen then Ok(Need(false, frozen[idx := NoUpdate]))
    else if frozen[idx] == New || frozen[idx] == Remove then Fail(FrozenNewOrRemove)
    else Ok(Need(frozen[idx] == Change, frozen))
  }

  /** need_to_update as evidently intended. A listed stream that the timer
      dropped because it changed stays CHANGE, so the window replaces its
      row instead of adding a second one. A stream already in the list whose
      NEW event was frozen (the event arrived while the listing that added
      the stream ran) is already shown: it is left in the list and marked
      NOUPDATE instead of failing the assertion. */
  function NeedToUpdateCorrected(xs: seq<Input>, frozen: map<nat, Update>, idx: nat): (r: Result<Need>)
    ensures r.Fail? <==> idx in Indices(xs) && Lookup(frozen, idx) == Remove
    ensures r.Ok? ==> (r.value.update <==> idx !in Indices(xs) || Lookup(frozen, idx) == Change)
    ensures r.Ok? ==> Lookup(r.value.frozen, idx)
                      == (if idx in Indices(xs) then (if Lookup(frozen, idx) == New then NoUpdate else Lookup(frozen, idx))
                          else if Lookup(frozen, idx) == Change then Change else New)
    ensures r.Ok? ==> forall k :: k != idx ==> Lookup(r.value.frozen, k) == Lookup(frozen, k)
  {
    if idx !in Indices(xs) then
      Ok(Need(true, frozen[idx := if Lookup(frozen, idx) == Change then Change else New]))
    else if Lookup(frozen, idx) == New then Ok(Need(false, frozen[idx := NoUpdate]))
    else NeedToUpdate(xs, frozen, idx)
  }

  /** sink_input_cb for one listed stream, given need_to_update's answer. */
  function Admit(e: Engine, l: Input, n: Result<Need>): Result<Engine>
  {
    match n
    case Fail(f) => Fail(f)
    case Ok(need) =>
      Ok(e.(inputs := if need.update then e.inputs + [l] else e.inputs, frozen := need.frozen))
  }

  /** sink_input_cb for one stream of the listing, as written. */
  function EnumEntry(e: Engine, l: Input): (r: Result<Engine>)
    requires e.listing
    ensures r.Ok? ==> r.value.updates == e.updates && r.value.listing && r.value.pending == e.pending
                      && r.value.timer == e.timer
    ensures r.Ok? ==> r.value.inputs == e.inputs + (if l.index !in Indices(e.inputs) || Lookup(e.frozen, l.index) == Change
                                                    then [l] else [])
    ensures r.Ok? ==> Lookup(r.value.frozen, l.index) == (if l.index in Indices(e.inputs) then Lookup(e.frozen, l.index) else New)
  {
    Admit(e, l, NeedToUpdate(e.inputs, e.frozen, l.index))
  }

  /** sink_input_cb for one stream of the listing, with the corrected
      need_to_update. */
  function EnumEntryCorrected(e: Engine, l: Input): (r: Result<Engine>)
    requires e.listing
    ensures r.Ok? ==> r.value.updates == e.updates && r.value.listing && r.value.pending == e.pending
                      && r.value.timer == e.timer
  {
    Admit(e, l, NeedToUpdateCorrected(e.inputs, e.frozen, l.index))
  }

  /** What the end of a listing hands to the window, and the engine after. */
  datatype Ended = Ended(engine: Engine, shown: seq<Input>, frozen: map<nat, Update>)

  /** sink_input_cb at the end of the listing, as written: the window sees
      the list and the frozen map, and update_pending drops, even when
      events arrived during the listing. */
  function EnumEnd(e: Engine): (r: Ended)
    requires e.listing
    ensures r.shown == e.inputs && r.frozen == e.frozen
    ensures r.engine == e.(pending := false, listing := false)
  {
    Ended(e.(pending := false, listing := false), e.inputs, e.frozen)
  }

  /** The end of the listing as evidently intended: events that arrived
      during the listing schedule the timer that queue_update did not. */
  function EnumEndCorrected(e: Engine): (r: Ended)
    requires e.listing
    ensures r.shown == e.inputs && r.frozen == e.frozen
    ensures !r.engine.listing && r.engine.inputs == e.inputs && r.engine.updates == e.updates
    ensures e.updates != map[] ==> r.engine.timer && r.engine.pending
    ensures e.updates == map[] ==> r.engine == e.(pending := false, listing := false)
  {
    if e.updates == map[] then Ended(e.(pending := false, listing := false), e.inputs, e.frozen)
    else Ended(e.(pending := true, timer := true, listing := false), e.inputs, e.frozen)
  }

  // ---------------------------------------------------------------------
  // The event loop

  /** Everything that can happen to the engine. */
  datatype Event = Queue(idx: nat, u: Update) | Tick | Entry(l: Input) | End

  /** The timer runs only when scheduled; listing callbacks come only while
      a listing runs. */
  predicate Enabled(e: Engine, ev: Event)
  {
    match ev
    case Queue(_, _) => true
    case Tick => e.timer
    case Entry(_) => e.listing
    case End => e.listing
  }

  /** One event, with the code as written or with both corrections. */
  function Step(e: Engine, ev: Event, corrected: bool): (r: Result<Engine>)
    requires Enabled(e, ev)
    ensures !ev.Entry? ==> r.Ok?
    ensures r.Fail? ==> r.fault == FrozenNewOrRemove
    ensures r.Ok? && ev.Tick? ==> !r.value.timer && r.value.listing && r.value.updates == map[]
    ensures r.Ok? && ev.End? ==> !r.value.listing && r.value.inputs == e.inputs
  {
    match ev
    case Queue(idx, u) => Ok(QueueUpdate(e, idx, u))
    case Tick => Ok(TimerFires(e))
    case Entry(l) => if corrected then EnumEntryCorrected(e, l) else EnumEntry(e, l)
    case End => Ok(if corrected then EnumEndCorrected(e).engine else EnumEnd(e).engine)
  }

  /** update_pending is up exactly while a timer is scheduled or a listing
      runs, and never both: there is at most one refresh in flight. */
  predicate Inv(e: Engine)
  {
    && (e.pending <==> e.timer || e.listing)
    && !(e.timer && e.listing)
  }

  lemma ConnectedInv()
    ensures Inv(Connected())
  {
  }

  /** Both versions keep the debounce invariant. */
  lemma StepKeepsInv(e: Engine, ev: Event, corrected: bool)
    requires Inv(e) && Enabled(e, ev) && Step(e, ev, corrected).Ok?
    ensures Inv(Step(e, ev, corrected).value)
  {
  }

  /** A queued event is not lost: it is covered by a scheduled timer or by
      a running listing. */
  predicate Live(e: Engine)
  {
    Inv(e) && (e.updates != map[] ==> e.timer || e.listing)
  }

  /** The corrected engine never leaves an event without a refresh to come. */
  lemma StepCorrectedKeepsLive(e: Engine, ev: Event)
    requires Live(e) && Enabled(e, ev) && Step(e, ev, true).Ok?
    ensures Live(Step(e, ev, true).value)
  {
  }

  /** Events are waiting and nothing will look at them. */
  predicate Stranded(e: Engine)
  {
    e.updates != map[] && !e.timer && !e.listing
  }

  /** From a stranded engine only a new subscription event can move on. */
  lemma StrandedWaits(e: Engine, ev: Event)
    requires Stranded(e) && Enabled(e, ev)
    ensures ev.Queue?
  {
  }

  /** As written: an event that arrives while a listing runs schedules no
      timer, and the end of the listing leaves it stranded. */
  lemma EventDuringListingStranded(e: Engine, idx: nat, u: Update)
    requires Inv(e) && e.listing
    ensures var r := Step(Step(e, Queue(idx, u), false).value, End, false);
      r.Ok? && Stranded(r.value) && idx in r.value.updates && !Live(r.value)
  {
    var q := QueueUpdate(e, idx, u);
    assert !q.timer;
    assert idx in EnumEnd(q).engine.updates;
  }

  /** Corrected: the same event is picked up by a timer after the listing. */
  lemma EventDuringListingPickedUp(e: Engine, idx: nat, u: Update)
    requires Inv(e) && e.listing
    ensures var r := Step(Step(e, Queue(idx, u), true).value, End, true);
      r.Ok? && r.value.timer && r.value.updates[idx] == u
  {
    var q := QueueUpdate(e, idx, u);
    assert idx in q.updates;
  }

  /** As written: a stream already in the list whose frozen event is NEW
      fails the assertion of need_to_update when it is listed. */
  lemma KnownNewAborts(e: Engine, l: Input)
    requires e.listing && l.index in Indices(e.inputs) && Lookup(e.frozen, l.index) == New
    ensures EnumEntry(e, l) == Fail(FrozenNewOrRemove)
  {
  }

  /** Corrected: such a stream stays in the list once and is marked
      NOUPDATE, so the window neither drops nor repeats its row. */
  lemma KnownNewKept(e: Engine, l: Input)
    requires e.listing && l.index in Indices(e.inputs) && Lookup(e.frozen, l.index) == New
    ensures EnumEntryCorrected(e, l).Ok?
    ensures EnumEntryCorrected(e, l).value.inputs == e.inputs
    ensures Lookup(EnumEntryCorrected(e, l).value.frozen, l.index) == NoUpdate
  {
  }

  /** The first listing, during which stream l appears: its NEW event
      arrives while the listing runs, and then the listing reports l. */
  function FirstListing(l: Input, corrected: bool): Result<Engine>
  {
    Step(QueueUpdate(Connected(), l.index, New), Entry(l), corrected)
  }

  /** That listing adds l to the list and keeps the NEW event waiting. */
  lemma FirstListingAdds(l: Input, corrected: bool)
    ensures FirstListing(l, corrected).Ok?
    ensures var e2 := FirstListing(l, corrected).value;
      e2.inputs == [l] && e2.listing && !e2.timer && Lookup(e2.updates, l.index) == New
  {
    assert Indices(QueueUpdate(Connected(), l.index, New).inputs) == [];
  }

  /** As written: the NEW event of a stream that the first listing already
      added is stranded when the listing ends; the next event about any
      other stream schedules the timer, which freezes NEW for l, and the
      next listing of l fails the assertion. */
  lemma NewDuringListingAborts(l: Input, other: nat, u: Update)
    requires other != l.index
    ensures FirstListing(l, false).Ok?
    ensures var e3 := Step(FirstListing(l, false).value, End, false).value;
      var e4 := QueueUpdate(e3, other, u);
      && e4.timer
      && TimerFires(e4).inputs == [l]
      && Step(TimerFires(e4), Entry(l), false) == Fail(FrozenNewOrRemove)
  {
    FirstListingAdds(l, false);
    var e3 := Step(FirstListing(l, false).value, End, false).value;
    var e4 := QueueUpdate(e3, other, u);
    var e5 := TimerFires(e4);
    assert Survivors([l], e4.updates) == [l] + Survivors([l][1..], e4.updates);
    assert Indices(e5.inputs) == [l.index];
    KnownNewAborts(e5, l);
  }

  /** Corrected: the same stream is picked up by the timer at the end of
      the first listing, and the next listing keeps it once, marked
      NOUPDATE. */
  lemma NewDuringListingKept(l: Input)
    ensures FirstListing(l, true).Ok?
    ensures var e3 := Step(FirstListing(l, true).value, End, true).value;
      && e3.timer
      && var e5 := TimerFires(e3);
      && e5.inputs == [l]
      && Step(e5, Entry(l), true).Ok?
      && Step(e5, Entry(l), true).value.inputs == [l]
      && Lookup(Step(e5, Entry(l), true).value.frozen, l.index) == NoUpdate
  {
    FirstListingAdds(l, true);
    var e3 := Step(FirstListing(l, true).value, End, true).value;
    var e5 := TimerFires(e3);
    assert Survivors([l], e3.updates) == [l] + Survivors([l][1..], e3.updates);
    assert Indices(e5.inputs) == [l.index];
    KnownNewKept(e5, l);
  }

  // ---------------------------------------------------------------------
  // A whole listing

  /** The listed streams that are not yet in the list, in listing order. */
  function Fresh(ls: seq<Input>, ids: seq<nat>): (r: seq<Input>)
    ensures forall x :: x in r <==> x in ls && x.index !in ids
  {
    if |ls| == 0 then []
    else
      assert ls == [ls[0]] + ls[1..];
      (if ls[0].index in ids then [] else [ls[0]]) + Fresh(ls[1..], ids)
  }

  /** The listing callbacks for the streams ls, one after the other. */
  function Enumerate(e: Engine, ls: seq<Input>, corrected: bool): (r: Result<Engine>)
    requires e.listing
    ensures r.Ok? ==> r.value.listing && r.value.updates == e.updates
    decreases |ls|
  {
    if |ls| == 0 then Ok(e)
    else
      var step := if corrected then EnumEntryCorrected(e, ls[0]) else EnumEntry(e, ls[0]);
      match step
      case Fail(f) => Fail(f)
      case Ok(e1) => Enumerate(e1, ls[1..], corrected)
  }

  lemma FreshCons(l: Input, ls: seq<Input>, ids: seq<nat>)
    ensures Fresh([l] + ls, ids) == (if l.index in ids then [] else [l]) + Fresh(ls, ids)
  {
    assert ([l] + ls)[1..] == ls;
  }

  lemma FreshSkips(ls: seq<Input>, ids: seq<nat>, k: nat)
    requires forall l :: l in ls ==> l.index != k
    ensures Fresh(ls, ids + [k]) == Fresh(ls, ids)
  {
    if |ls| > 0 {
      assert ls[0] in ls;
      FreshSkips(ls[1..], ids, k);
    }
  }

  /** One corrected listing callback under the conditions of the lemma
      below: the stream is appended exactly when its index is new, and the
      conditions hold again for the rest of the listing. */
  lemma EntryCorrectedStep(e: Engine, l: Input, rest: seq<Input>) returns (e1: Engine)
    requires e.listing
    requires l.index in Indices(e.inputs) ==> Lookup(e.frozen, l.index) == NoUpdate
    requires Lookup(e.frozen, l.index) != Remove
    requires forall m :: m in rest ==> m.index != l.index
    ensures EnumEntryCorrected(e, l) == Ok(e1) && e1.listing
    ensures e1.inputs == e.inputs + (if l.index in Indices(e.inputs) then [] else [l])
    ensures forall m :: m in rest ==> (m.index in Indices(e1.inputs) <==> m.index in Indices(e.inputs))
    ensures forall k :: k != l.index ==> Lookup(e1.frozen, k) == Lookup(e.frozen, k)
    ensures Lookup(e1.frozen, l.index)
         == if l.index !in Indices(e.inputs) && Lookup(e.frozen, l.index) != Change then New
            else Lookup(e.frozen, l.index)
  {
    var n := NeedToUpdateCorrected(e.inputs, e.frozen, l.index);
    assert n.Ok?;
    e1 := e.(inputs := if n.value.update then e.inputs + [l] else e.inputs, frozen := n.value.frozen);
    IndicesAppend(e.inputs, [l]);
  }

  lemma IndicesHas(xs: seq<Input>, k: nat)
    ensures k in Indices(xs) <==> exists x :: x in xs && x.index == k
  {
    if k in Indices(xs) {
      var i :| 0 <= i < |xs| && Indices(xs)[i] == k;
      assert xs[i] in xs;
    }
  }

  /** The frozen map after a listing, one callback at a time: the step on
      the first stream composes with the description of the rest. */
  lemma FrozenCompose(f0: map<nat, Update>, f1: map<nat, Update>, f2: map<nat, Update>,
                      l: Input, fresh0: bool, rest: seq<nat>, all: seq<nat>)
    requires l.index !in rest
    requires all == (if fresh0 then [l.index] else []) + rest
    requires forall k :: k != l.index ==> Lookup(f1, k) == Lookup(f0, k)
    requires Lookup(f1, l.index) == if fresh0 && Lookup(f0, l.index) != Change then New else Lookup(f0, l.index)
    requires forall k :: Lookup(f2, k) == if k in rest && Lookup(f1, k) != Change then New else Lookup(f1, k)
    ensures forall k :: Lookup(f2, k) == if k in all && Lookup(f0, k) != Change then New else Lookup(f0, k)
  {
  }

  /** What a corrected listing does to the input list, when the listing
      agrees with the events: it fails nowhere and appends exactly the
      streams not yet in the list, in listing order. */
  lemma {:induction false} EnumerateCorrectedInputs(e: Engine, ls: seq<Input>)
    requires e.listing && Distinct(ls)
    requires forall l :: l in ls && l.index in Indices(e.inputs) ==> Lookup(e.frozen, l.index) == NoUpdate
    requires forall l :: l in ls ==> Lookup(e.frozen, l.index) != Remove
    ensures var r := Enumerate(e, ls, true);
      r.Ok? && r.value.inputs == e.inputs + Fresh(ls, Indices(e.inputs))
    decreases |ls|
  {
    if |ls| > 0 {
      var l := ls[0];
      var ids := Indices(e.inputs);
      var rest := ls[1..];
      RestOtherIndex(ls);
      var e1 := EntryCorrectedStep(e, l, rest);
      assert Distinct(rest);
      FrozenRestReady(e, e1, ls);
      EnumerateCorrectedInputs(e1, rest);
      var r := Enumerate(e1, rest, true);
      assert Enumerate(e, ls, true) == r;
      var head := if l.index !in ids then [l] else [];
      assert Fresh(ls, ids) == head + Fresh(rest, ids) by {
        assert ls == [l] + rest;
        FreshCons(l, rest, ids);
      }
      StepKeepsFresh(e, e1, l, rest);
      AppendAssoc(e.inputs, head, Fresh(rest, ids));
    }
  }

  /** What a corrected listing does to the frozen map under the same
      conditions: each appended stream is marked NEW, or stays CHANGE when
      it was dropped for a change; nothing else moves. */
  lemma {:induction false} EnumerateCorrectedFrozen(e: Engine, ls: seq<Input>)
    requires e.listing && Distinct(ls)
    requires forall l :: l in ls && l.index in Indices(e.inputs) ==> Lookup(e.frozen, l.index) == NoUpdate
    requires forall l :: l in ls ==> Lookup(e.frozen, l.index) != Remove
    ensures var r := Enumerate(e, ls, true);
      r.Ok? && (forall k :: Lookup(r.value.frozen, k)
                  == if k in Indices(Fresh(ls, Indices(e.inputs))) && Lookup(e.frozen, k) != Change then New
                     else Lookup(e.frozen, k))
    decreases |ls|
  {
    if |ls| > 0 {
      var l := ls[0];
      var rest := ls[1..];
      RestOtherIndex(ls);
      var e1 := EntryCorrectedStep(e, l, rest);
      assert Distinct(rest);
      FrozenRestReady(e, e1, ls);
      EnumerateCorrectedFrozen(e1, rest);
      var r := Enumerate(e1, rest, true);
      assert Enumerate(e, ls, true) == r;
      assert ls == [l] + rest;
      FrozenStep(e, e1, l, rest, r.value.frozen);
    }
  }

  /** After the first callback the rest of the listing still finds its
      known streams unmarked and none of its streams removed. */
  lemma FrozenRestReady(e: Engine, e1: Engine, ls: seq<Input>)
    requires |ls| > 0
    requires forall l :: l in ls && l.index in Indices(e.inputs) ==> Lookup(e.frozen, l.index) == NoUpdate
    requires forall l :: l in ls ==> Lookup(e.frozen, l.index) != Remove
    requires forall m :: m in ls[1..] ==> m.index != ls[0].index
    requires forall m :: m in ls[1..] ==> (m.index in Indices(e1.inputs) <==> m.index in Indices(e.inputs))
    requires forall k :: k != ls[0].index ==> Lookup(e1.frozen, k) == Lookup(e.frozen, k)
    ensures forall l :: l in ls[1..] && l.index in Indices(e1.inputs) ==> Lookup(e1.frozen, l.index) == NoUpdate
    ensures forall l :: l in ls[1..] ==> Lookup(e1.frozen, l.index) != Remove
  {
    assert forall l :: l in ls[1..] ==> l in ls;
  }

  /** The frozen-map description of a listing, extended by one callback at
      its front. */
  lemma FrozenStep(e: Engine, e1: Engine, l: Input, rest: seq<Input>, f: map<nat, Update>)
    requires forall m :: m in rest ==> m.index != l.index
    requires e1.inputs == e.inputs + (if l.index in Indices(e.inputs) then [] else [l])
    requires forall k :: k != l.index ==> Lookup(e1.frozen, k) == Lookup(e.frozen, k)
    requires Lookup(e1.frozen, l.index)
          == if l.index !in Indices(e.inputs) && Lookup(e.frozen, l.index) != Change then New
             else Lookup(e.frozen, l.index)
    requires forall k :: (Lookup(f, k)
      == if k in Indices(Fresh(rest, Indices(e1.inputs))) && Lookup(e1.frozen, k) != Change then New
         else Lookup(e1.frozen, k))
    ensures forall k :: (Lookup(f, k)
      == if k in Indices(Fresh([l] + rest, Indices(e.inputs))) && Lookup(e.frozen, k) != Change then New
         else Lookup(e.frozen, k))
  {
    var ids := Indices(e.inputs);
    var fresh0 := l.index !in ids;
    var head := if fresh0 then [l] else [];
    FreshCons(l, rest, ids);
    StepKeepsFresh(e, e1, l, rest);
    assert Indices(Fresh([l] + rest, ids)) == (if fresh0 then [l.index] else []) + Indices(Fresh(rest, ids)) by {
      IndicesAppend(head, Fresh(rest, ids));
    }
    assert l.index !in Indices(Fresh(rest, ids)) by {
      IndicesHas(Fresh(rest, ids), l.index);
    }
    FrozenCompose(e.frozen, e1.frozen, f, l, fresh0, Indices(Fresh(rest, ids)), Indices(Fresh([l] + rest, ids)));
  }

  lemma RestOtherIndex(ls: seq<Input>)
    requires |ls| > 0 && Distinct(ls)
    ensures forall m :: m in ls[1..] ==> m.index != ls[0].index
  {
    forall m | m in ls[1..]
      ensures m.index != ls[0].index
    {
      var j :| 0 <= j < |ls[1..]| && ls[1..][j] == m;
      assert ls[j + 1] == m;
    }
  }

  /** Appending the first listed stream does not change which of the
      others are fresh. */
  lemma StepKeepsFresh(e: Engine, e1: Engine, l: Input, rest: seq<Input>)
    requires forall m :: m in rest ==> m.index != l.index
    requires e1.inputs == e.inputs + (if l.index in Indices(e.inputs) then [] else [l])
    ensures Fresh(rest, Indices(e1.inputs)) == Fresh(rest, Indices(e.inputs))
  {
    if l.index !in Indices(e.inputs) {
      IndicesAppend(e.inputs, [l]);
      assert Indices([l]) == [l.index];
      FreshSkips(rest, Indices(e.inputs), l.index);
    } else {
      assert e1.inputs == e.inputs;
    }
  }
}
