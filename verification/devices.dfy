/** Device pairing of soundrec.cpp: once both the sink list and the source
    list have been enumerated, every (sink, source) pair is visited sink by
    sink, and a source whose name starts with the sink's name is that
    sink's monitor; every other pair puts the source on the microphone
    list. */
module Devices {
  import opened Types
  import opened Text
  import Session

  /** `strncmp(source, sink, strlen(sink)) == 0`. */
  predicate IsMonitorOf(source: Dev, sink: Dev)
  {
    StartsWith(source.name, sink.name)
  }

  /** What update_monitors builds: `monitor_map` from sink index to its
      monitor, the `monitors` and `mics` lists, and `got_monitors`. */
  datatype Pairing = Pairing(monitorMap: map<nat, Dev>, monitors: seq<Dev>, mics: seq<Dev>, gotMonitors: bool)

  function EmptyPairing(): Pairing
  {
    Pairing(map[], [], [], false)
  }

  // ---------------------------------------------------------------------
  // Reference definitions: the sources each sink claims and leaves

  /** The sources that are monitors of sink, in source order. */
  function Matching(sink: Dev, sources: seq<Dev>): (r: seq<Dev>)
    ensures forall x :: x in r ==> x in sources && IsMonitorOf(x, sink)
  {
    if |sources| == 0 then []
    else (if IsMonitorOf(sources[0], sink) then [sources[0]] else []) + Matching(sink, sources[1..])
  }

  /** The sources that are not monitors of sink, in source order. */
  function NonMatching(sink: Dev, sources: seq<Dev>): (r: seq<Dev>)
    ensures forall x :: x in r ==> x in sources && !IsMonitorOf(x, sink)
  {
    if |sources| == 0 then []
    else (if IsMonitorOf(sources[0], sink) then [] else [sources[0]]) + NonMatching(sink, sources[1..])
  }

  lemma {:induction false} MatchingSplit(sink: Dev, sources: seq<Dev>)
    ensures |Matching(sink, sources)| + |NonMatching(sink, sources)| == |sources|
  {
    if |sources| > 0 { MatchingSplit(sink, sources[1..]); }
  }

  /** All monitors, sink by sink. */
  function AllMonitors(sinks: seq<Dev>, sources: seq<Dev>): seq<Dev>
  {
    if |sinks| == 0 then [] else Matching(sinks[0], sources) + AllMonitors(sinks[1..], sources)
  }

  /** All microphones as the source lists them: for every sink, the sources
      that are not its monitor. */
  function AllMics(sinks: seq<Dev>, sources: seq<Dev>): seq<Dev>
  {
    if |sinks| == 0 then [] else NonMatching(sinks[0], sources) + AllMics(sinks[1..], sources)
  }

  // ---------------------------------------------------------------------
  // update_monitors

  /** The inner loop for one sink: every source in turn. A second monitor
      for a sink index fails the assertion. */
  function PairSink(p: Pairing, sink: Dev, sources: seq<Dev>): (r: Result<Pairing>)
    ensures r.Ok? ==> p.monitors <= r.value.monitors && p.mics <= r.value.mics
    ensures r.Ok? ==> |r.value.monitors| + |r.value.mics| == |p.monitors| + |p.mics| + |sources|
    ensures r.Ok? ==> (r.value.gotMonitors <==> p.gotMonitors || |r.value.monitors| > |p.monitors|)
    ensures r.Ok? ==> r.value.monitorMap.Keys <= p.monitorMap.Keys + {sink.index}
    ensures r.Ok? ==> forall k :: k in p.monitorMap ==> k in r.value.monitorMap && r.value.monitorMap[k] == p.monitorMap[k]
    decreases |sources|
  {
    if |sources| == 0 then Ok(p)
    else
      var so := sources[0];
      if IsMonitorOf(so, sink) then
        if sink.index in p.monitorMap then Fail(DuplicateMonitor)
        else PairSink(Pairing(p.monitorMap[sink.index := so], p.monitors + [so], p.mics, true), sink, sources[1..])
      else PairSink(p.(mics := p.mics + [so]), sink, sources[1..])
  }

  /** The outer loop: every sink in turn. */
  function PairAll(p: Pairing, sinks: seq<Dev>, sources: seq<Dev>): (r: Result<Pairing>)
    ensures r.Ok? ==> p.monitors <= r.value.monitors && p.mics <= r.value.mics
    ensures r.Ok? ==> (r.value.gotMonitors <==> p.gotMonitors || |r.value.monitors| > |p.monitors|)
    decreases |sinks|
  {
    if |sinks| == 0 then Ok(p)
    else
      match PairSink(p, sinks[0], sources)
      case Fail(f) => Fail(f)
      case Ok(q) => PairAll(q, sinks[1..], sources)
  }

  /** update_monitors: pair everything, then assert that some monitor was found. */
  function UpdateMonitors(sinks: seq<Dev>, sources: seq<Dev>): (r: Result<Pairing>)
    ensures r.Ok? ==> r.value.gotMonitors && |r.value.monitors| > 0
  {
    match PairAll(EmptyPairing(), sinks, sources)
    case Fail(f) => Fail(f)
    case Ok(p) => if !p.gotMonitors then Fail(NoMonitorAtAll) else Ok(p)
  }

  /** The monitor map after claiming the monitors in ms for sink. */
  function Claim(m: map<nat, Dev>, sink: Dev, ms: seq<Dev>): map<nat, Dev>
  {
    if |ms| == 0 then m else m[sink.index := ms[0]]
  }

  /** One sink fails exactly when it has two monitors, or one while its
      index is already mapped. */
  lemma {:induction false} PairSinkFails(p: Pairing, sink: Dev, sources: seq<Dev>)
    ensures var ms := Matching(sink, sources);
      PairSink(p, sink, sources).Fail?
      <==> |ms| >= 2 || (|ms| == 1 && sink.index in p.monitorMap)
    decreases |sources|
  {
    if |sources| > 0 {
      var so := sources[0];
      var rest := sources[1..];
      if !IsMonitorOf(so, sink) {
        PairSinkFails(p.(mics := p.mics + [so]), sink, rest);
        assert Matching(sink, sources) == Matching(sink, rest);
      } else {
        assert Matching(sink, sources) == [so] + Matching(sink, rest);
        if sink.index !in p.monitorMap {
          PairSinkFails(Pairing(p.monitorMap[sink.index := so], p.monitors + [so], p.mics, true), sink, rest);
        }
      }
    }
  }

  /** One sink that succeeds appends exactly its monitors, in source
      order, and sets `got_monitors` exactly when it has one. */
  lemma {:induction false} PairSinkMonitors(p: Pairing, sink: Dev, sources: seq<Dev>)
    ensures var ms := Matching(sink, sources);
      var r := PairSink(p, sink, sources);
      r.Ok? ==> r.value.monitors == p.monitors + ms && r.value.gotMonitors == (p.gotMonitors || |ms| > 0)
    decreases |sources|
  {
    if |sources| > 0 {
      var so := sources[0];
      var rest := sources[1..];
      assert sources == [so] + rest;
      if !IsMonitorOf(so, sink) {
        var q := p.(mics := p.mics + [so]);
        assert PairSink(p, sink, sources) == PairSink(q, sink, rest);
        PairSinkMonitors(q, sink, rest);
        assert Matching(sink, sources) == Matching(sink, rest) by {
          MatchingCons(sink, so, rest);
        }
      } else if sink.index !in p.monitorMap {
        var q := Pairing(p.monitorMap[sink.index := so], p.monitors + [so], p.mics, true);
        assert PairSink(p, sink, sources) == PairSink(q, sink, rest);
        PairSinkMonitors(q, sink, rest);
        assert Matching(sink, sources) == [so] + Matching(sink, rest) by {
          MatchingCons(sink, so, rest);
        }
        assert (p.monitors + [so]) + Matching(sink, rest) == p.monitors + ([so] + Matching(sink, rest));
      }
    }
  }

  /** One sink that succeeds appends exactly its non-monitors, in source
      order. */
  lemma {:induction false} PairSinkMics(p: Pairing, sink: Dev, sources: seq<Dev>)
    ensures var r := PairSink(p, sink, sources);
      r.Ok? ==> r.value.mics == p.mics + NonMatching(sink, sources)
    decreases |sources|
  {
    if |sources| > 0 {
      var so := sources[0];
      var rest := sources[1..];
      assert sources == [so] + rest;
      if !IsMonitorOf(so, sink) {
        var q := p.(mics := p.mics + [so]);
        assert PairSink(p, sink, sources) == PairSink(q, sink, rest);
        PairSinkMics(q, sink, rest);
        assert NonMatching(sink, sources) == [so] + NonMatching(sink, rest) by {
          MatchingCons(sink, so, rest);
        }
        assert (p.mics + [so]) + NonMatching(sink, rest) == p.mics + ([so] + NonMatching(sink, rest));
      } else if sink.index !in p.monitorMap {
        var q := Pairing(p.monitorMap[sink.index := so], p.monitors + [so], p.mics, true);
        assert PairSink(p, sink, sources) == PairSink(q, sink, rest);
        PairSinkMics(q, sink, rest);
        assert NonMatching(sink, sources) == NonMatching(sink, rest) by {
          MatchingCons(sink, so, rest);
        }
      }
    }
  }

  /** One sink that succeeds grows the lists by exactly its monitors and
      its non-monitors, in source order. */
  lemma PairSinkLists(p: Pairing, sink: Dev, sources: seq<Dev>)
    ensures var ms := Matching(sink, sources);
      var r := PairSink(p, sink, sources);
      r.Ok? ==>
        && r.value.monitors == p.monitors + ms
        && r.value.mics == p.mics + NonMatching(sink, sources)
        && r.value.gotMonitors == (p.gotMonitors || |ms| > 0)
  {
    PairSinkMonitors(p, sink, sources);
    PairSinkMics(p, sink, sources);
  }

  /** One sink that succeeds maps its index to its monitor, if it has one,
      and changes nothing else in the map. */
  lemma {:induction false} PairSinkMap(p: Pairing, sink: Dev, sources: seq<Dev>)
    ensures var r := PairSink(p, sink, sources);
      r.Ok? ==> r.value.monitorMap == Claim(p.monitorMap, sink, Matching(sink, sources))
    decreases |sources|
  {
    if |sources| > 0 {
      var so := sources[0];
      var rest := sources[1..];
      if !IsMonitorOf(so, sink) {
        PairSinkMap(p.(mics := p.mics + [so]), sink, rest);
        assert Matching(sink, sources) == Matching(sink, rest);
      } else if sink.index !in p.monitorMap {
        var q := Pairing(p.monitorMap[sink.index := so], p.monitors + [so], p.mics, true);
        PairSinkMap(q, sink, rest);
        PairSinkFails(q, sink, rest);
        if PairSink(q, sink, rest).Ok? {
          assert Matching(sink, rest) == [];
          assert Matching(sink, sources) == [so];
        }
      }
    }
  }

  /** Both at once. */
  lemma PairSinkSpec(p: Pairing, sink: Dev, sources: seq<Dev>)
    ensures var ms := Matching(sink, sources);
      var r := PairSink(p, sink, sources);
      r.Ok? ==>
        && r.value.monitors == p.monitors + ms
        && r.value.mics == p.mics + NonMatching(sink, sources)
        && r.value.monitorMap == Claim(p.monitorMap, sink, ms)
        && r.value.gotMonitors == (p.gotMonitors || |ms| > 0)
  {
    PairSinkLists(p, sink, sources);
    PairSinkMap(p, sink, sources);
  }

  /** No two sinks share an index. */
  predicate DistinctIndices(sinks: seq<Dev>)
  {
    forall i, j :: 0 <= i < j < |sinks| ==> sinks[i].index != sinks[j].index
  }

  /** The set of indices of the sinks that have a monitor. */
  function Monitored(sinks: seq<Dev>, sources: seq<Dev>): set<nat>
  {
    set i | 0 <= i < |sinks| && |Matching(sinks[i], sources)| > 0 :: sinks[i].index
  }

  /** Some sink has two monitors. */
  predicate SomeDuplicate(sinks: seq<Dev>, sources: seq<Dev>)
  {
    exists i :: 0 <= i < |sinks| && |Matching(sinks[i], sources)| >= 2
  }

  lemma SomeDuplicateCons(sinks: seq<Dev>, sources: seq<Dev>)
    requires |sinks| > 0
    ensures SomeDuplicate(sinks, sources)
      <==> |Matching(sinks[0], sources)| >= 2 || SomeDuplicate(sinks[1..], sources)
  {
    if SomeDuplicate(sinks[1..], sources) {
      var i :| 0 <= i < |sinks[1..]| && |Matching(sinks[1..][i], sources)| >= 2;
      assert sinks[i + 1] == sinks[1..][i];
    }
    if SomeDuplicate(sinks, sources) {
      var i :| 0 <= i < |sinks| && |Matching(sinks[i], sources)| >= 2;
      if i > 0 { assert sinks[1..][i - 1] == sinks[i]; }
    }
  }

  lemma MonitoredCons(sinks: seq<Dev>, sources: seq<Dev>)
    requires |sinks| > 0
    ensures Monitored(sinks, sources)
      == (if |Matching(sinks[0], sources)| > 0 then {sinks[0].index} else {}) + Monitored(sinks[1..], sources)
  {
    var rest := sinks[1..];
    forall k | k in Monitored(sinks, sources)
      ensures k in (if |Matching(sinks[0], sources)| > 0 then {sinks[0].index} else {}) + Monitored(rest, sources)
    {
      var i :| 0 <= i < |sinks| && |Matching(sinks[i], sources)| > 0 && k == sinks[i].index;
      if i > 0 { assert rest[i - 1] == sinks[i]; }
    }
    forall k | k in Monitored(rest, sources)
      ensures k in Monitored(sinks, sources)
    {
      var i :| 0 <= i < |rest| && |Matching(rest[i], sources)| > 0 && k == rest[i].index;
      assert sinks[i + 1] == rest[i];
    }
  }

  /** The conditions of PairAllSpec hold again after the first sink. */
  lemma FreshAfterFirst(p: Pairing, q: Pairing, sinks: seq<Dev>, sources: seq<Dev>)
    requires |sinks| > 0 && DistinctIndices(sinks)
    requires forall i :: 0 <= i < |sinks| ==> sinks[i].index !in p.monitorMap
    requires q.monitorMap == Claim(p.monitorMap, sinks[0], Matching(sinks[0], sources))
    ensures DistinctIndices(sinks[1..])
    ensures forall i :: 0 <= i < |sinks[1..]| ==> sinks[1..][i].index !in q.monitorMap
  {
    var rest := sinks[1..];
    forall i | 0 <= i < |rest|
      ensures rest[i].index !in q.monitorMap
    {
      assert sinks[i + 1] == rest[i];
    }
  }

  /** With distinct sink indices pairing fails exactly when some sink has
      two monitors. */
  lemma {:induction false} PairAllFails(p: Pairing, sinks: seq<Dev>, sources: seq<Dev>)
    requires DistinctIndices(sinks)
    requires forall i :: 0 <= i < |sinks| ==> sinks[i].index !in p.monitorMap
    ensures PairAll(p, sinks, sources).Fail? <==> SomeDuplicate(sinks, sources)
    decreases |sinks|
  {
    if |sinks| > 0 {
      PairSinkFails(p, sinks[0], sources);
      PairSinkSpec(p, sinks[0], sources);
      SomeDuplicateCons(sinks, sources);
      var a := PairSink(p, sinks[0], sources);
      if a.Ok? {
        FreshAfterFirst(p, a.value, sinks, sources);
        PairAllFails(a.value, sinks[1..], sources);
      }
    }
  }

  /** Pairing visits every (sink, source) pair sink by sink: the monitors
      come out in sink-major order. */
  lemma {:induction false} PairAllMonitors(p: Pairing, sinks: seq<Dev>, sources: seq<Dev>)
    ensures var r := PairAll(p, sinks, sources);
      r.Ok? ==>
        && r.value.monitors == p.monitors + AllMonitors(sinks, sources)
        && r.value.gotMonitors == (p.gotMonitors || |AllMonitors(sinks, sources)| > 0)
    decreases |sinks|
  {
    if |sinks| > 0 {
      var a := PairSink(p, sinks[0], sources);
      if a.Ok? {
        var rest := sinks[1..];
        var q := a.value;
        PairAllMonitors(q, rest, sources);
        var ms := Matching(sinks[0], sources);
        assert PairAll(p, sinks, sources) == PairAll(q, rest, sources);
        assert q.monitors == p.monitors + ms by { PairSinkSpec(p, sinks[0], sources); }
        assert AllMonitors(sinks, sources) == ms + AllMonitors(rest, sources);
        assert (p.monitors + ms) + AllMonitors(rest, sources) == p.monitors + (ms + AllMonitors(rest, sources));
      }
    }
  }

  /** The same for the microphones. */
  lemma {:induction false} PairAllMics(p: Pairing, sinks: seq<Dev>, sources: seq<Dev>)
    ensures var r := PairAll(p, sinks, sources);
      r.Ok? ==> r.value.mics == p.mics + AllMics(sinks, sources)
    decreases |sinks|
  {
    if |sinks| > 0 {
      var a := PairSink(p, sinks[0], sources);
      if a.Ok? {
        var rest := sinks[1..];
        var q := a.value;
        PairAllMics(q, rest, sources);
        var ns := NonMatching(sinks[0], sources);
        assert PairAll(p, sinks, sources) == PairAll(q, rest, sources);
        assert q.mics == p.mics + ns by { PairSinkSpec(p, sinks[0], sources); }
        assert AllMics(sinks, sources) == ns + AllMics(rest, sources);
        assert (p.mics + ns) + AllMics(rest, sources) == p.mics + (ns + AllMics(rest, sources));
      }
    }
  }

  /** Both lists at once. */
  lemma PairAllLists(p: Pairing, sinks: seq<Dev>, sources: seq<Dev>)
    ensures var r := PairAll(p, sinks, sources);
      r.Ok? ==>
        && r.value.monitors == p.monitors + AllMonitors(sinks, sources)
        && r.value.mics == p.mics + AllMics(sinks, sources)
        && r.value.gotMonitors == (p.gotMonitors || |AllMonitors(sinks, sources)| > 0)
  {
    PairAllMonitors(p, sinks, sources);
    PairAllMics(p, sinks, sources);
  }

  /** With distinct sink indices each sink with a monitor is mapped to
      it, and no other index is added. */
  lemma {:induction false} PairAllMap(p: Pairing, sinks: seq<Dev>, sources: seq<Dev>)
    requires DistinctIndices(sinks)
    requires forall i :: 0 <= i < |sinks| ==> sinks[i].index !in p.monitorMap
    ensures var r := PairAll(p, sinks, sources);
      r.Ok? ==>
        && r.value.monitorMap.Keys == p.monitorMap.Keys + Monitored(sinks, sources)
        && (forall k :: k in p.monitorMap ==> r.value.monitorMap[k] == p.monitorMap[k])
        && (forall i :: 0 <= i < |sinks| && |Matching(sinks[i], sources)| > 0 ==>
              r.value.monitorMap[sinks[i].index] == Matching(sinks[i], sources)[0])
    decreases |sinks|
  {
    if |sinks| > 0 {
      PairSinkSpec(p, sinks[0], sources);
      var a := PairSink(p, sinks[0], sources);
      if a.Ok? {
        var q := a.value;
        FreshAfterFirst(p, q, sinks, sources);
        PairAllMap(q, sinks[1..], sources);
        MonitoredCons(sinks, sources);
        var r := PairAll(p, sinks, sources);
        if r.Ok? {
          forall i | 0 <= i < |sinks| && |Matching(sinks[i], sources)| > 0
            ensures r.value.monitorMap[sinks[i].index] == Matching(sinks[i], sources)[0]
          {
            if i > 0 { assert sinks[1..][i - 1] == sinks[i]; }
          }
        }
      }
    }
  }

  lemma MulStep(a: nat, b: nat)
    requires a > 0
    ensures a * b == b + (a - 1) * b
  {
  }

  /** Every pair of a sink and a source lands on exactly one of the two lists. */
  lemma {:induction false} PairCount(sinks: seq<Dev>, sources: seq<Dev>)
    ensures |AllMonitors(sinks, sources)| + |AllMics(sinks, sources)| == |sinks| * |sources|
    decreases |sinks|
  {
    if |sinks| > 0 {
      MatchingSplit(sinks[0], sources);
      PairCount(sinks[1..], sources);
      MulStep(|sinks|, |sources|);
    }
  }

  /** update_monitors, for sinks with distinct indices: it fails on a sink
      with two monitors, and otherwise when no sink has a monitor at all;
      the lists it hands on hold every pair once. */
  lemma UpdateMonitorsSpec(sinks: seq<Dev>, sources: seq<Dev>)
    requires DistinctIndices(sinks)
    ensures var r := UpdateMonitors(sinks, sources);
      && (SomeDuplicate(sinks, sources) ==> r == Fail(DuplicateMonitor))
      && (r.Fail? <==> SomeDuplicate(sinks, sources) || |AllMonitors(sinks, sources)| == 0)
      && (r.Ok? ==>
            && r.value.monitors == AllMonitors(sinks, sources)
            && r.value.mics == AllMics(sinks, sources)
            && |r.value.monitors| + |r.value.mics| == |sinks| * |sources|
            && r.value.monitorMap.Keys == Monitored(sinks, sources))
  {
    PairAllFails(EmptyPairing(), sinks, sources);
    PairAllLists(EmptyPairing(), sinks, sources);
    PairAllMap(EmptyPairing(), sinks, sources);
    PairCount(sinks, sources);
    PairAllFault(EmptyPairing(), sinks, sources);
  }

  /** The only fault pairing itself raises is the duplicate monitor. */
  lemma {:induction false} PairAllFault(p: Pairing, sinks: seq<Dev>, sources: seq<Dev>)
    ensures PairAll(p, sinks, sources).Fail? ==> PairAll(p, sinks, sources).fault == DuplicateMonitor
    decreases |sinks|
  {
    if |sinks| > 0 {
      PairSinkFault(p, sinks[0], sources);
      var a := PairSink(p, sinks[0], sources);
      if a.Ok? { PairAllFault(a.value, sinks[1..], sources); }
    }
  }

  lemma {:induction false} PairSinkFault(p: Pairing, sink: Dev, sources: seq<Dev>)
    ensures PairSink(p, sink, sources).Fail? ==> PairSink(p, sink, sources).fault == DuplicateMonitor
    decreases |sources|
  {
    if |sources| > 0 {
      var so := sources[0];
      if IsMonitorOf(so, sink) && sink.index !in p.monitorMap {
        PairSinkFault(Pairing(p.monitorMap[sink.index := so], p.monitors + [so], p.mics, true), sink, sources[1..]);
      } else if !IsMonitorOf(so, sink) {
        PairSinkFault(p.(mics := p.mics + [so]), sink, sources[1..]);
      }
    }
  }

  // ---------------------------------------------------------------------
  // The microphone list: as written and corrected

  /** A source is a monitor of some listed sink. */
  predicate MonitorOfSome(x: Dev, sinks: seq<Dev>)
  {
    exists i :: 0 <= i < |sinks| && IsMonitorOf(x, sinks[i])
  }

  /** How often x occurs in a list. */
  function Count(xs: seq<Dev>, x: Dev): nat
  {
    multiset(xs)[x]
  }

  lemma {:induction false} NonMatchingKeeps(sink: Dev, sources: seq<Dev>, x: Dev)
    requires !IsMonitorOf(x, sink)
    ensures Count(NonMatching(sink, sources), x) == Count(sources, x)
  {
    if |sources| > 0 {
      NonMatchingKeeps(sink, sources[1..], x);
      assert sources == [sources[0]] + sources[1..];
    }
  }

  /** As written, a source that is no sink's monitor is listed as a
      microphone once for every sink. */
  lemma {:induction false} MicsAsWrittenRepeat(sinks: seq<Dev>, sources: seq<Dev>, x: Dev)
    requires !MonitorOfSome(x, sinks)
    ensures Count(AllMics(sinks, sources), x) == |sinks| * Count(sources, x)
    decreases |sinks|
  {
    if |sinks| > 0 {
      assert !IsMonitorOf(x, sinks[0]);
      NonMatchingKeeps(sinks[0], sources, x);
      assert !MonitorOfSome(x, sinks[1..]);
      MicsAsWrittenRepeat(sinks[1..], sources, x);
      assert |sinks| * Count(sources, x) == Count(sources, x) + (|sinks| - 1) * Count(sources, x);
    }
  }

  /** As written, the monitor of one sink is a microphone for every other sink. */
  lemma MonitorAsWrittenIsMic(sinks: seq<Dev>, sources: seq<Dev>, x: Dev)
    requires |sinks| >= 2 && x in sources && !IsMonitorOf(x, sinks[1])
    ensures x in AllMics(sinks, sources)
  {
    NonMatchingKeeps(sinks[1], sources, x);
    assert AllMics(sinks[1..], sources) == NonMatching(sinks[1], sources) + AllMics(sinks[2..], sources);
  }

  /** The microphones as evidently intended: the sources that are no
      sink's monitor, each once, in source order. */
  function MicsCorrected(sinks: seq<Dev>, sources: seq<Dev>): (r: seq<Dev>)
    ensures forall x :: x in r <==> x in sources && !MonitorOfSome(x, sinks)
    ensures forall x :: x in r ==> Count(r, x) == Count(sources, x)
  {
    if |sources| == 0 then []
    else
      var rest := MicsCorrected(sinks, sources[1..]);
      assert sources == [sources[0]] + sources[1..];
      if MonitorOfSome(sources[0], sinks) then rest else [sources[0]] + rest
  }

  /** With no source listed twice, no microphone is listed twice. */
  lemma MicsCorrectedDistinct(sinks: seq<Dev>, sources: seq<Dev>, x: Dev)
    requires Count(sources, x) <= 1
    ensures Count(MicsCorrected(sinks, sources), x) <= 1
  {
  }

  /** Every sink has a monitor. */
  predicate EveryMonitored(sinks: seq<Dev>, sources: seq<Dev>)
  {
    forall i :: 0 <= i < |sinks| ==> |Matching(sinks[i], sources)| > 0
  }

  /** update_monitors as evidently intended: a sink without a monitor is a
      fault as well, and each non-monitor source is one microphone. */
  function UpdateMonitorsCorrected(sinks: seq<Dev>, sources: seq<Dev>): (r: Result<Pairing>)
    ensures r.Ok? <==> UpdateMonitors(sinks, sources).Ok? && EveryMonitored(sinks, sources)
    ensures UpdateMonitors(sinks, sources).Ok? && !EveryMonitored(sinks, sources) ==> r == Fail(SinkWithoutMonitor)
    ensures r.Ok? ==> UpdateMonitors(sinks, sources).Ok? && |r.value.monitors| > 0
    ensures r.Ok? ==> forall i :: 0 <= i < |sinks| ==> |Matching(sinks[i], sources)| > 0
    ensures r.Ok? ==> forall x :: x in r.value.mics <==> x in sources && !MonitorOfSome(x, sinks)
  {
    match UpdateMonitors(sinks, sources)
    case Fail(f) => Fail(f)
    case Ok(p) =>
      if !EveryMonitored(sinks, sources) then Fail(SinkWithoutMonitor)
      else Ok(p.(mics := MicsCorrected(sinks, sources)))
  }

  /** With the corrected pairing every listed sink is in the monitor map,
      and a source is on exactly one of the two lists. */
  lemma UpdateMonitorsCorrectedSpec(sinks: seq<Dev>, sources: seq<Dev>)
    requires DistinctIndices(sinks)
    ensures var r := UpdateMonitorsCorrected(sinks, sources);
      r.Ok? ==>
        && (forall i :: 0 <= i < |sinks| ==> sinks[i].index in r.value.monitorMap)
        && (forall x :: x in sources ==> (x in r.value.monitors <==> MonitorOfSome(x, sinks)))
        && (forall x :: x in sources ==> (x in r.value.mics <==> !MonitorOfSome(x, sinks)))
  {
    UpdateMonitorsSpec(sinks, sources);
    var r := UpdateMonitorsCorrected(sinks, sources);
    if r.Ok? {
      forall i | 0 <= i < |sinks|
        ensures sinks[i].index in r.value.monitorMap
      {
        assert sinks[i].index in Monitored(sinks, sources);
      }
      forall x | x in sources
        ensures x in r.value.monitors <==> MonitorOfSome(x, sinks)
      {
        AllMonitorsHas(sinks, sources, x);
      }
    }
  }

  lemma {:induction false} MatchingHas(sink: Dev, sources: seq<Dev>, x: Dev)
    requires x in sources
    ensures x in Matching(sink, sources) <==> IsMonitorOf(x, sink)
  {
    if sources[0] != x {
      MatchingHas(sink, sources[1..], x);
    }
  }

  lemma {:induction false} AllMonitorsHas(sinks: seq<Dev>, sources: seq<Dev>, x: Dev)
    requires x in sources
    ensures x in AllMonitors(sinks, sources) <==> MonitorOfSome(x, sinks)
    decreases |sinks|
  {
    if |sinks| > 0 {
      MatchingHas(sinks[0], sources, x);
      AllMonitorsHas(sinks[1..], sources, x);
      if MonitorOfSome(x, sinks[1..]) {
        var i :| 0 <= i < |sinks[1..]| && IsMonitorOf(x, sinks[1..][i]);
        assert IsMonitorOf(x, sinks[i + 1]);
      }
      if MonitorOfSome(x, sinks) {
        var i :| 0 <= i < |sinks| && IsMonitorOf(x, sinks[i]);
        if i > 0 { assert IsMonitorOf(x, sinks[1..][i - 1]); }
      }
    }
  }

  /** After the corrected pairing, recording an application stream that
      plays on a listed sink starts. */
  lemma CorrectedPairingRecords(sinks: seq<Dev>, sources: seq<Dev>, s: Session.Session, B: pos, input: Input)
    requires DistinctIndices(sinks) && UpdateMonitorsCorrected(sinks, sources).Ok?
    requires Session.Inv(s, B) && s.state == Idle
    requires exists i :: 0 <= i < |sinks| && sinks[i].index == input.sink
    ensures Session.StartRecording(s, B, InputRec(input), UpdateMonitorsCorrected(sinks, sources).value.monitorMap).Ok?
  {
    UpdateMonitorsCorrectedSpec(sinks, sources);
  }

  /** Two sinks "a" and "b", and the single source "a.monitor": the code as
      written accepts the pairing, and recording a stream that plays on "b"
      then has no monitor to record from; the corrected pairing refuses. */
  lemma MonitorAssertionTooWeak(s: Session.Session, B: pos, input: Input)
    requires Session.Inv(s, B) && s.state == Idle && input.sink == 1
    ensures var sinks := [Dev("a", 0), Dev("b", 1)];
      var sources := [Dev("a.monitor", 2)];
      && UpdateMonitors(sinks, sources).Ok?
      && Session.StartRecording(s, B, InputRec(input), UpdateMonitors(sinks, sources).value.monitorMap)
         == Fail(NoMonitorForSink)
      && UpdateMonitorsCorrected(sinks, sources) == Fail(SinkWithoutMonitor)
  {
    var sinks := [Dev("a", 0), Dev("b", 1)];
    var sources := [Dev("a.monitor", 2)];
    StartsWithOne(sources[0].name, sinks[0].name);
    StartsWithOne(sources[0].name, sinks[1].name);
    assert Matching(sinks[0], sources) == [sources[0]];
    assert Matching(sinks[1], sources) == [];
    UpdateMonitorsSpec(sinks, sources);
    assert 1 !in Monitored(sinks, sources);
  }

  lemma MatchingCons(sink: Dev, x: Dev, rest: seq<Dev>)
    ensures Matching(sink, [x] + rest) == (if IsMonitorOf(x, sink) then [x] else []) + Matching(sink, rest)
    ensures NonMatching(sink, [x] + rest) == (if IsMonitorOf(x, sink) then [] else [x]) + NonMatching(sink, rest)
  {
    assert ([x] + rest)[1..] == rest;
  }

  /** What Matching keeps of one source. */
  function Picked(sink: Dev, x: Dev): seq<Dev>
  {
    if IsMonitorOf(x, sink) then [x] else []
  }

  /** What NonMatching keeps of one source. */
  function Passed(sink: Dev, x: Dev): seq<Dev>
  {
    if IsMonitorOf(x, sink) then [] else [x]
  }

  /** One step of both filters. */
  lemma FilterStep(sink: Dev, s: seq<Dev>)
    requires |s| > 0
    ensures Matching(sink, s) == Picked(sink, s[0]) + Matching(sink, s[1..])
    ensures NonMatching(sink, s) == Passed(sink, s[0]) + NonMatching(sink, s[1..])
  {
  }

  /** The monitors of sink among three sources, one source at a time. */
  lemma MatchingOfThree(sink: Dev, s: seq<Dev>)
    requires |s| == 3
    ensures Matching(sink, s) == Picked(sink, s[0]) + Picked(sink, s[1]) + Picked(sink, s[2])
  {
    var t, u := s[1..], s[2..];
    assert t[0] == s[1] && t[1..] == u;
    assert u[0] == s[2] && u[1..] == [];
    FilterStep(sink, s);
    FilterStep(sink, t);
    FilterStep(sink, u);
  }

  /** The other sources among three, one source at a time. */
  lemma NonMatchingOfThree(sink: Dev, s: seq<Dev>)
    requires |s| == 3
    ensures NonMatching(sink, s) == Passed(sink, s[0]) + Passed(sink, s[1]) + Passed(sink, s[2])
  {
    var t, u := s[1..], s[2..];
    assert t[0] == s[1] && t[1..] == u;
    assert u[0] == s[2] && u[1..] == [];
    FilterStep(sink, s);
    FilterStep(sink, t);
    FilterStep(sink, u);
  }

  /** Filtering three sources of which only the first is sink's monitor. */
  lemma FilterFirstOfThree(sink: Dev, x: Dev, y: Dev, z: Dev)
    requires IsMonitorOf(x, sink) && !IsMonitorOf(y, sink) && !IsMonitorOf(z, sink)
    ensures Matching(sink, [x, y, z]) == [x] && NonMatching(sink, [x, y, z]) == [y, z]
  {
    MatchingOfThree(sink, [x, y, z]);
    NonMatchingOfThree(sink, [x, y, z]);
  }

  /** Filtering three sources of which only the second is sink's monitor. */
  lemma FilterSecondOfThree(sink: Dev, x: Dev, y: Dev, z: Dev)
    requires !IsMonitorOf(x, sink) && IsMonitorOf(y, sink) && !IsMonitorOf(z, sink)
    ensures Matching(sink, [x, y, z]) == [y] && NonMatching(sink, [x, y, z]) == [x, z]
  {
    MatchingOfThree(sink, [x, y, z]);
    NonMatchingOfThree(sink, [x, y, z]);
  }

  /** The four filters of the example below. */
  lemma ExampleFilters(a: Dev, b: Dev, am: Dev, bm: Dev, mic: Dev)
    requires IsMonitorOf(am, a) && !IsMonitorOf(am, b)
    requires IsMonitorOf(bm, b) && !IsMonitorOf(bm, a)
    requires !IsMonitorOf(mic, a) && !IsMonitorOf(mic, b)
    ensures Matching(a, [am, bm, mic]) == [am] && NonMatching(a, [am, bm, mic]) == [bm, mic]
    ensures Matching(b, [am, bm, mic]) == [bm] && NonMatching(b, [am, bm, mic]) == [am, mic]
  {
    FilterFirstOfThree(a, am, bm, mic);
    FilterSecondOfThree(b, am, bm, mic);
  }

  /** The lists of two sinks: each sink's filter, in sink order. */
  lemma TwoSinkLists(a: Dev, b: Dev, sources: seq<Dev>)
    ensures AllMics([a, b], sources) == NonMatching(a, sources) + NonMatching(b, sources)
    ensures AllMonitors([a, b], sources) == Matching(a, sources) + Matching(b, sources)
  {
    SinksCons(b, [], sources);
    SinksCons(a, [b], sources);
    assert [a, b] == [a] + [b];
    assert [b] == [b] + [];
    assert NonMatching(b, sources) + [] == NonMatching(b, sources);
    assert Matching(b, sources) + [] == Matching(b, sources);
  }

  /** The lists of a sink followed by more sinks. */
  lemma SinksCons(sink: Dev, rest: seq<Dev>, sources: seq<Dev>)
    ensures AllMics([sink] + rest, sources) == NonMatching(sink, sources) + AllMics(rest, sources)
    ensures AllMonitors([sink] + rest, sources) == Matching(sink, sources) + AllMonitors(rest, sources)
  {
    assert ([sink] + rest)[1..] == rest;
  }

  /** Two sinks with their monitors and a microphone: as written the
      microphone list names the microphone twice and each monitor once, as
      a microphone of the other sink; corrected it is just the microphone. */
  lemma MicsAsWrittenShape(a: Dev, b: Dev, am: Dev, bm: Dev, mic: Dev)
    requires a.index != b.index
    requires IsMonitorOf(am, a) && !IsMonitorOf(am, b)
    requires IsMonitorOf(bm, b) && !IsMonitorOf(bm, a)
    requires !IsMonitorOf(mic, a) && !IsMonitorOf(mic, b)
    ensures && UpdateMonitors([a, b], [am, bm, mic]).Ok?
            && UpdateMonitors([a, b], [am, bm, mic]).value.mics == [bm, mic, am, mic]
  {
    var sinks := [a, b];
    var sources := [am, bm, mic];
    ExampleLists(a, b, am, bm, mic);
    assert DistinctIndices(sinks);
    UpdateMonitorsSpec(sinks, sources);
  }

  /** The lists of the example and the absence of a second monitor. */
  lemma ExampleLists(a: Dev, b: Dev, am: Dev, bm: Dev, mic: Dev)
    requires IsMonitorOf(am, a) && !IsMonitorOf(am, b)
    requires IsMonitorOf(bm, b) && !IsMonitorOf(bm, a)
    requires !IsMonitorOf(mic, a) && !IsMonitorOf(mic, b)
    ensures AllMics([a, b], [am, bm, mic]) == [bm, mic, am, mic]
    ensures |AllMonitors([a, b], [am, bm, mic])| == 2
    ensures !SomeDuplicate([a, b], [am, bm, mic])
  {
    var sinks := [a, b];
    var sources := [am, bm, mic];
    ExampleFilters(a, b, am, bm, mic);
    TwoSinkLists(a, b, sources);
    assert [bm, mic] + [am, mic] == [bm, mic, am, mic];
    assert forall i :: 0 <= i < |sinks| ==> sinks[i] == a || sinks[i] == b;
  }

  /** The corrected microphone list of the example: just the microphone. */
  lemma MicsCorrectedOfExample(a: Dev, b: Dev, am: Dev, bm: Dev, mic: Dev)
    requires IsMonitorOf(am, a) && IsMonitorOf(bm, b)
    requires !IsMonitorOf(mic, a) && !IsMonitorOf(mic, b)
    ensures MicsCorrected([a, b], [am, bm, mic]) == [mic]
  {
    var sinks := [a, b];
    var sources := [am, bm, mic];
    assert MonitorOfSome(am, sinks) by { assert IsMonitorOf(am, sinks[0]); }
    assert MonitorOfSome(bm, sinks) by { assert IsMonitorOf(bm, sinks[1]); }
    assert !MonitorOfSome(mic, sinks) by {
      assert forall i :: 0 <= i < |sinks| ==> sinks[i] == a || sinks[i] == b;
    }
    assert sources[1..] == [bm, mic] && sources[1..][1..] == [mic] && [mic][1..] == [];
    assert MicsCorrected(sinks, [mic]) == [mic];
    assert MicsCorrected(sinks, [bm, mic]) == [mic];
  }

  lemma ExampleMonitored(a: Dev, b: Dev, am: Dev, bm: Dev, mic: Dev)
    requires IsMonitorOf(am, a) && !IsMonitorOf(am, b)
    requires IsMonitorOf(bm, b) && !IsMonitorOf(bm, a)
    requires !IsMonitorOf(mic, a) && !IsMonitorOf(mic, b)
    ensures EveryMonitored([a, b], [am, bm, mic])
  {
    var sinks := [a, b];
    ExampleFilters(a, b, am, bm, mic);
    assert forall i :: 0 <= i < |sinks| ==> sinks[i] == a || sinks[i] == b;
  }

  /** The corrected pairing of the same devices lists the microphone once. */
  lemma MicsCorrectedShape(a: Dev, b: Dev, am: Dev, bm: Dev, mic: Dev)
    requires a.index != b.index
    requires IsMonitorOf(am, a) && !IsMonitorOf(am, b)
    requires IsMonitorOf(bm, b) && !IsMonitorOf(bm, a)
    requires !IsMonitorOf(mic, a) && !IsMonitorOf(mic, b)
    ensures && UpdateMonitorsCorrected([a, b], [am, bm, mic]).Ok?
            && UpdateMonitorsCorrected([a, b], [am, bm, mic]).value.mics == [mic]
  {
    var sinks := [a, b];
    var sources := [am, bm, mic];
    MicsAsWrittenShape(a, b, am, bm, mic);
    ExampleMonitored(a, b, am, bm, mic);
    MicsCorrectedOfExample(a, b, am, bm, mic);
  }

  /** The same with the names "a", "b", "a.monitor", "b.monitor" and "mic". */
  lemma MicsAsWrittenExample()
    ensures var a := Dev("a", 0);
      var b := Dev("b", 1);
      var am := Dev("a.monitor", 2);
      var bm := Dev("b.monitor", 3);
      var mic := Dev("mic", 4);
      && UpdateMonitors([a, b], [am, bm, mic]).Ok?
      && UpdateMonitors([a, b], [am, bm, mic]).value.mics == [bm, mic, am, mic]
      && UpdateMonitorsCorrected([a, b], [am, bm, mic]).Ok?
      && UpdateMonitorsCorrected([a, b], [am, bm, mic]).value.mics == [mic]
  {
    var a := Dev("a", 0);
    var b := Dev("b", 1);
    var am := Dev("a.monitor", 2);
    var bm := Dev("b.monitor", 3);
    var mic := Dev("mic", 4);
    StartsWithOne(am.name, a.name);
    StartsWithOne(am.name, b.name);
    StartsWithOne(bm.name, a.name);
    StartsWithOne(bm.name, b.name);
    StartsWithOne(mic.name, a.name);
    StartsWithOne(mic.name, b.name);
    MicsAsWrittenShape(a, b, am, bm, mic);
    MicsCorrectedShape(a, b, am, bm, mic);
  }

  // ---------------------------------------------------------------------
  // Catalog: the two enumerations and when pairing runs

  /** The enumeration globals: the sinks and sources seen so far, the two
      end-of-list flags, and the pairing once it has run. */
  datatype Catalog = Catalog(sinks: seq<Dev>, sources: seq<Dev>, gotSinks: bool, gotSources: bool,
                             pairing: Option<Result<Pairing>>)

  /** One callback of the two enumerations: an entry, or the end of a list
      (an error `eol` ends a list as well). */
  datatype DevEvent = SinkItem(sink: Dev) | SinkEnd | SourceItem(source: Dev) | SourceEnd

  /** update_dev_names: both flags down, nothing listed, nothing paired. */
  function StartEnumeration(): Catalog
  {
    Catalog([], [], false, false, None)
  }

  /** sink_cb and source_cb: an entry is appended; an end-of-list raises the
      flag and pairs when the other list has ended too. */
  function OnDevEvent(c: Catalog, e: DevEvent): (r: Catalog)
    ensures CatalogInv(c) ==> CatalogInv(r)
    ensures r.sinks == c.sinks + (if e.SinkItem? then [e.sink] else [])
    ensures r.sources == c.sources + (if e.SourceItem? then [e.source] else [])
    ensures r.pairing != c.pairing ==> r.pairing == Some(UpdateMonitors(c.sinks, c.sources)) && r.gotSinks && r.gotSources
  {
    match e
    case SinkItem(d) => c.(sinks := c.sinks + [d])
    case SourceItem(d) => c.(sources := c.sources + [d])
    case SinkEnd =>
      if c.gotSources then c.(gotSinks := true, pairing := Some(UpdateMonitors(c.sinks, c.sources)))
      else c.(gotSinks := true)
    case SourceEnd =>
      if c.gotSinks then c.(gotSources := true, pairing := Some(UpdateMonitors(c.sinks, c.sources)))
      else c.(gotSources := true)
  }

  function Feed(c: Catalog, es: seq<DevEvent>): (r: Catalog)
    ensures c.sinks <= r.sinks && c.sources <= r.sources
    ensures (c.gotSinks ==> r.gotSinks) && (c.gotSources ==> r.gotSources)
    ensures c.pairing.Some? ==> r.pairing.Some?
    decreases |es|
  {
    if |es| == 0 then c else Feed(OnDevEvent(c, es[0]), es[1..])
  }

  /** Pairing has run exactly when both lists have ended. */
  predicate CatalogInv(c: Catalog)
  {
    c.pairing.Some? <==> c.gotSinks && c.gotSources
  }

  /** Whatever the callbacks' order, pairing has run exactly once both
      end-of-list markers have arrived. */
  lemma {:induction false} FeedFlags(c: Catalog, es: seq<DevEvent>)
    requires CatalogInv(c)
    ensures var d := Feed(c, es);
      && CatalogInv(d)
      && d.gotSinks == (c.gotSinks || SinkEnd in es)
      && d.gotSources == (c.gotSources || SourceEnd in es)
    decreases |es|
  {
    if |es| > 0 {
      FeedFlags(OnDevEvent(c, es[0]), es[1..]);
      assert es == [es[0]] + es[1..];
    }
  }

  /** The callbacks of one enumeration: an entry per device, then the end. */
  function SinkEvents(ds: seq<Dev>): seq<DevEvent>
  {
    if |ds| == 0 then [SinkEnd] else [SinkItem(ds[0])] + SinkEvents(ds[1..])
  }

  function SourceEvents(ds: seq<Dev>): seq<DevEvent>
  {
    if |ds| == 0 then [SourceEnd] else [SourceItem(ds[0])] + SourceEvents(ds[1..])
  }

  /** An interleaving of two callback streams, chosen step by step by pick
      (true takes from xs); every interleaving is one of these. */
  function Interleave(xs: seq<DevEvent>, ys: seq<DevEvent>, pick: seq<bool>): seq<DevEvent>
    decreases |xs| + |ys|
  {
    if |xs| == 0 then ys
    else if |ys| == 0 then xs
    else if |pick| > 0 && pick[0] then [xs[0]] + Interleave(xs[1..], ys, pick[1..])
    else [ys[0]] + Interleave(xs, ys[1..], if |pick| > 0 then pick[1..] else [])
  }

  lemma FeedCons(c: Catalog, e: DevEvent, es: seq<DevEvent>)
    ensures Feed(c, [e] + es) == Feed(OnDevEvent(c, e), es)
  {
    assert ([e] + es)[1..] == es;
  }

  /** What is still to come of the sink enumeration: its remaining entries
      and its end, or nothing once it has ended. */
  predicate SinkPending(c: Catalog, xs: seq<DevEvent>, rest: seq<Dev>)
  {
    if c.gotSinks then xs == [] && rest == [] else xs == SinkEvents(rest)
  }

  predicate SourcePending(c: Catalog, ys: seq<DevEvent>, rest: seq<Dev>)
  {
    if c.gotSources then ys == [] && rest == [] else ys == SourceEvents(rest)
  }

  /** The first step of an interleaving: which stream it takes from, and
      the interleaving of what is left. */
  lemma InterleaveHead(xs: seq<DevEvent>, ys: seq<DevEvent>, pick: seq<bool>)
    returns (fromX: bool, rest: seq<DevEvent>)
    requires |xs| + |ys| > 0
    ensures var pick' := if |pick| > 0 then pick[1..] else [];
      && (fromX ==> |xs| > 0 && Interleave(xs, ys, pick) == [xs[0]] + rest
                    && rest == Interleave(xs[1..], ys, pick'))
      && (!fromX ==> |ys| > 0 && Interleave(xs, ys, pick) == [ys[0]] + rest
                     && rest == Interleave(xs, ys[1..], pick'))
  {
    var pick' := if |pick| > 0 then pick[1..] else [];
    fromX := |xs| > 0 && (|ys| == 0 || (|pick| > 0 && pick[0]));
    if fromX {
      rest := Interleave(xs[1..], ys, pick');
      if |ys| == 0 {
        assert xs == [xs[0]] + xs[1..];
        assert |xs[1..]| == 0 || Interleave(xs[1..], [], pick') == xs[1..];
      }
    } else {
      rest := Interleave(xs, ys[1..], pick');
      if |xs| == 0 {
        assert ys == [ys[0]] + ys[1..];
      }
    }
  }

  lemma {:induction false} FeedInterleave(c: Catalog, xs: seq<DevEvent>, ys: seq<DevEvent>, pick: seq<bool>,
                                          sk: seq<Dev>, so: seq<Dev>)
    requires c.pairing.None? && !(c.gotSinks && c.gotSources)
    requires SinkPending(c, xs, sk) && SourcePending(c, ys, so)
    ensures Feed(c, Interleave(xs, ys, pick)).pairing == Some(UpdateMonitors(c.sinks + sk, c.sources + so))
    decreases |xs| + |ys|, 1
  {
    var pick' := if |pick| > 0 then pick[1..] else [];
    var fromX, rest := InterleaveHead(xs, ys, pick);
    if fromX {
      FeedCons(c, xs[0], rest);
      FeedSinkStep(c, xs, ys, pick', sk, so);
    } else {
      FeedCons(c, ys[0], rest);
      FeedSourceStep(c, xs, ys, pick', sk, so);
    }
  }

  lemma {:induction false} FeedSinkStep(c: Catalog, xs: seq<DevEvent>, ys: seq<DevEvent>, pick: seq<bool>,
                                        sk: seq<Dev>, so: seq<Dev>)
    requires c.pairing.None? && !(c.gotSinks && c.gotSources) && |xs| > 0
    requires SinkPending(c, xs, sk) && SourcePending(c, ys, so)
    ensures Feed(OnDevEvent(c, xs[0]), Interleave(xs[1..], ys, pick)).pairing
         == Some(UpdateMonitors(c.sinks + sk, c.sources + so))
    decreases |xs| + |ys|, 0
  {
    var c' := OnDevEvent(c, xs[0]);
    if |sk| > 0 {
      assert xs[0] == SinkItem(sk[0]) && xs[1..] == SinkEvents(sk[1..]);
      assert c'.sinks + sk[1..] == c.sinks + sk;
      FeedInterleave(c', xs[1..], ys, pick, sk[1..], so);
    } else {
      assert xs == [SinkEnd];
      assert c.sinks + sk == c.sinks;
      if c.gotSources {
        assert c.sources + so == c.sources;
        assert Interleave(xs[1..], ys, pick) == [];
      } else {
        assert Interleave(xs[1..], ys, pick) == ys;
        FeedInterleave(c', [], ys, pick, [], so);
      }
    }
  }

  lemma {:induction false} FeedSourceStep(c: Catalog, xs: seq<DevEvent>, ys: seq<DevEvent>, pick: seq<bool>,
                                          sk: seq<Dev>, so: seq<Dev>)
    requires c.pairing.None? && !(c.gotSinks && c.gotSources) && |ys| > 0
    requires SinkPending(c, xs, sk) && SourcePending(c, ys, so)
    ensures Feed(OnDevEvent(c, ys[0]), Interleave(xs, ys[1..], pick)).pairing
         == Some(UpdateMonitors(c.sinks + sk, c.sources + so))
    decreases |xs| + |ys|, 0
  {
    var c' := OnDevEvent(c, ys[0]);
    if |so| > 0 {
      assert ys[0] == SourceItem(so[0]) && ys[1..] == SourceEvents(so[1..]);
      assert c'.sources + so[1..] == c.sources + so;
      FeedInterleave(c', xs, ys[1..], pick, sk, so[1..]);
    } else {
      assert ys == [SourceEnd];
      assert c.sources + so == c.sources;
      if c.gotSinks {
        assert c.sinks + sk == c.sinks;
        assert Interleave(xs, ys[1..], pick) == [];
      } else {
        assert Interleave(xs, ys[1..], pick) == xs by {
          if |xs| > 0 { assert xs == [xs[0]] + xs[1..]; }
        }
        FeedInterleave(c', xs, [], pick, sk, []);
      }
    }
  }

  /** However the two enumerations interleave, pairing runs on the complete
      sink and source lists. */
  lemma PairsAfterBothLists(sinks: seq<Dev>, sources: seq<Dev>, pick: seq<bool>)
    ensures Feed(StartEnumeration(), Interleave(SinkEvents(sinks), SourceEvents(sources), pick)).pairing
         == Some(UpdateMonitors(sinks, sources))
  {
    var c := StartEnumeration();
    FeedInterleave(c, SinkEvents(sinks), SourceEvents(sources), pick, sinks, sources);
    assert c.sinks + sinks == sinks && c.sources + sources == sources;
  }
}
