/** The strings the window builds: the elapsed-time column, the clip
    names, the file name proposed by the save dialog, device names without
    their ".monitor" suffix, and the file names of "save all". */
module Labels {
  import opened Types
  import opened Text

  // ---------------------------------------------------------------------
  // ClipData::format_time

  /** "%02d" of a number below 100. */
  function TwoDigits(t: nat): (s: string)
    requires t < 100
    ensures |s| == 2 && AllDigits(s)
  {
    DigitRoundTrip(t / 10);
    DigitRoundTrip(t % 10);
    [DigitChar(t / 10), DigitChar(t % 10)]
  }

  /** The elapsed-time column: minutes, a colon and two digits of seconds,
      "%01d:%02d" into a ten-byte buffer, so at most nine characters. */
  function FormatTime(s: nat): (r: string)
    ensures |r| <= 9
  {
    Take(Decimal(s / 60) + ":" + TwoDigits(s % 60), 9)
  }

  /** Reading the column back: digits, a colon, two digits. */
  function ParseTime(str: string): Option<nat>
  {
    if |str| >= 4 && str[|str| - 3] == ':' && AllDigits(str[..|str| - 3]) && AllDigits(str[|str| - 2..])
      && ParseDecimal(str[|str| - 2..]) < 60
    then Some(ParseDecimal(str[..|str| - 3]) * 60 + ParseDecimal(str[|str| - 2..]))
    else None
  }

  function Pow10(k: nat): (p: nat)
    ensures p >= 1
  {
    if k == 0 then 1 else 10 * Pow10(k - 1)
  }

  /** A number below 10^k prints in at most k digits. */
  lemma {:induction false} DecimalShort(n: nat, k: nat)
    requires 1 <= k && n < Pow10(k)
    ensures |Decimal(n)| <= k
    decreases k
  {
    if n >= 10 {
      assert k >= 2;
      DecimalShort(n / 10, k - 1);
    }
  }

  lemma TwoDigitsValue(t: nat)
    requires t < 100
    ensures ParseDecimal(TwoDigits(t)) == t
  {
    var s := TwoDigits(t);
    DigitRoundTrip(t / 10);
    DigitRoundTrip(t % 10);
    assert s[..1] == [s[0]];
    assert [s[0]][..0] == [];
  }

  /** Up to 99999 minutes the column is not truncated, and it reads back
      as the number of seconds it shows. */
  lemma FormatTimeRoundTrip(s: nat)
    requires s < 6000000
    ensures ParseTime(FormatTime(s)) == Some(s)
  {
    var m := Decimal(s / 60);
    var t := TwoDigits(s % 60);
    assert Pow10(5) == 100000;
    DecimalShort(s / 60, 5);
    var str := m + ":" + t;
    assert FormatTime(s) == str;
    assert str[..|str| - 3] == m;
    assert str[|str| - 2..] == t;
    DecimalRoundTrip(s / 60);
    TwoDigitsValue(s % 60);
  }

  /** So two durations below that bound show differently. */
  lemma FormatTimeInjective(a: nat, b: nat)
    requires a < 6000000 && b < 6000000 && FormatTime(a) == FormatTime(b)
    ensures a == b
  {
    FormatTimeRoundTrip(a);
    FormatTimeRoundTrip(b);
  }

  // ---------------------------------------------------------------------
  // Clip names

  /** "Clip%d" into a ten-byte buffer. */
  function ClipName(n: nat): (r: string)
    ensures |r| <= 9 && StartsWith(r, "Clip")
  {
    Take("Clip" + Decimal(n), 9)
  }

  /** Below the hundred-thousandth clip no two clips share a name. */
  lemma ClipNameInjective(a: nat, b: nat)
    requires a < 100000 && b < 100000 && ClipName(a) == ClipName(b)
    ensures a == b
  {
    assert Pow10(5) == 100000;
    DecimalShort(a, 5);
    DecimalShort(b, 5);
    assert ClipName(a) == "Clip" + Decimal(a);
    assert ClipName(b) == "Clip" + Decimal(b);
    assert Decimal(a) == ClipName(a)[4..];
    DecimalInjective(a, b);
  }

  // ---------------------------------------------------------------------
  // The name proposed by on_save

  /** The name the save dialog proposes, as written: the clip name is kept
      when its first case-insensitive ".wav" is at its very end, and
      ".wav" is appended otherwise. */
  function SaveName(name: string): (r: string)
    ensures r == name || r == name + ".wav"
    ensures r == name <==> |name| >= 4 && FindCI(name, ".wav", 0) == Some(|name| - 4)
  {
    if |name| >= 4 && FindCI(name, ".wav", 0) == Some(|name| - 4) then name else name + ".wav"
  }

  /** The name proposed ends in ".wav", ignoring case. */
  lemma SaveNameEndsInWav(name: string)
    ensures |SaveName(name)| >= 4 && OccursCIAt(SaveName(name), ".wav", |SaveName(name)| - 4)
  {
    var r := SaveName(name);
    if r != name {
      assert r[|r| - 4..] == ".wav";
    }
  }

  /** A name that ends in ".wav" and has no earlier ".wav" is kept, and a
      name without any ".wav" gets the suffix. */
  lemma SaveNameCases(name: string)
    ensures FindCI(name, ".wav", 0).None? ==> SaveName(name) == name + ".wav"
    ensures |name| >= 4 && OccursCIAt(name, ".wav", |name| - 4)
            && (forall j :: 0 <= j < |name| - 4 ==> !OccursCIAt(name, ".wav", j))
            ==> SaveName(name) == name
  {
  }

  /** The proposed name as evidently intended: the suffix is what counts, not the
      first occurrence. */
  function SaveNameCorrected(name: string): (r: string)
    ensures |r| >= 4 && OccursCIAt(r, ".wav", |r| - 4)
    ensures r == name <==> |name| >= 4 && OccursCIAt(name, ".wav", |name| - 4)
    ensures r != name ==> r == name + ".wav"
  {
    if |name| >= 4 && OccursCIAt(name, ".wav", |name| - 4) then name
    else
      assert (name + ".wav")[|name|..] == ".wav";
      name + ".wav"
  }

  /** Proposing a name for a proposed name changes nothing. */
  lemma SaveNameCorrectedIdempotent(name: string)
    ensures SaveNameCorrected(SaveNameCorrected(name)) == SaveNameCorrected(name)
  {
  }

  /** As written, a name that already ends in ".wav" but has an earlier
      ".wav" gets a second suffix: "a.wav.wav" is proposed as
      "a.wav.wav.wav", and proposing again appends again. */
  lemma SaveNameAppendsToWavName(p: string)
    ensures SaveName(p + ".wav.wav") == p + ".wav.wav.wav"
    ensures SaveName(SaveName(p + ".wav.wav")) != SaveName(p + ".wav.wav")
    ensures SaveNameCorrected(p + ".wav.wav") == p + ".wav.wav"
  {
    var n := p + ".wav.wav";
    assert n[|p|..|p| + 4] == ".wav";
    assert OccursCIAt(n, ".wav", |p|);
    var n2 := n + ".wav";
    assert n2[|p|..|p| + 4] == ".wav";
    assert OccursCIAt(n2, ".wav", |p|);
    assert n[|n| - 4..] == ".wav";
  }

  // ---------------------------------------------------------------------
  // update_sources_list

  /** A device name as the source lists show it: a name longer than eight
      characters ending in ".monitor" loses that suffix. */
  function DisplayName(name: string): (r: string)
    ensures |name| > 8 && EndsWith(name, ".monitor") ==> name == r + ".monitor"
    ensures !(|name| > 8 && EndsWith(name, ".monitor")) ==> r == name
  {
    if |name| > 8 && EndsWith(name, ".monitor") then name[..|name| - 8] else name
  }

  /** The monitor of a sink is shown under the sink's own name. */
  lemma DisplayNameOfMonitor(sink: string)
    requires |sink| > 0
    ensures DisplayName(sink + ".monitor") == sink
  {
    var n := sink + ".monitor";
    assert n[|n| - 8..] == ".monitor";
    assert n[..|n| - 8] == sink;
  }

  /** The rows of one source list, in device order. */
  function SourceRows(devs: seq<Dev>): (r: seq<string>)
    ensures |r| == |devs|
    ensures forall i :: 0 <= i < |devs| ==> r[i] == DisplayName(devs[i].name)
  {
    if |devs| == 0 then [] else [DisplayName(devs[0].name)] + SourceRows(devs[1..])
  }

  // ---------------------------------------------------------------------
  // save_all_ok

  /** The file "save all" writes clip number n to: "%s/%s" then "%d.wav". */
  function SaveAllPath(path: string, prefix: string, n: nat): (r: string)
    ensures |r| > |path| + |prefix| + 5
    ensures r[..|path|] == path && r[|path|] == '/'
    ensures r[|path| + 1..|path| + 1 + |prefix|] == prefix
    ensures r[|r| - 4..] == ".wav"
  {
    path + "/" + prefix + Decimal(n) + ".wav"
  }

  /** Different clip numbers go to different files. */
  lemma SaveAllPathInjective(path: string, prefix: string, a: nat, b: nat)
    requires SaveAllPath(path, prefix, a) == SaveAllPath(path, prefix, b)
    ensures a == b
  {
    var head := path + "/" + prefix;
    var fa := SaveAllPath(path, prefix, a);
    var fb := SaveAllPath(path, prefix, b);
    assert fa == head + Decimal(a) + ".wav";
    assert fb == head + Decimal(b) + ".wav";
    assert |Decimal(a)| == |Decimal(b)|;
    assert Decimal(a) == fa[|head|..|fa| - 4];
    assert Decimal(b) == fb[|head|..|fb| - 4];
    DecimalInjective(a, b);
  }

  /** What save_all_ok decides before it writes anything. */
  datatype SavePlan = NotADirectory | AlreadyExists(file: string) | WriteAll(files: seq<(string, nat)>)

  /** The files for the clips (clip number, clip id) in clip-id order; the
      first one that exists already stops the whole plan. */
  function PlanFiles(path: string, prefix: string, clips: seq<(nat, nat)>, existing: set<string>): (r: SavePlan)
    ensures !r.NotADirectory?
    ensures r.WriteAll? ==>
      && |r.files| == |clips|
      && forall i :: 0 <= i < |clips| ==> r.files[i] == (SaveAllPath(path, prefix, clips[i].0), clips[i].1)
    ensures r.WriteAll? <==> forall i :: 0 <= i < |clips| ==> SaveAllPath(path, prefix, clips[i].0) !in existing
  {
    if |clips| == 0 then WriteAll([])
    else
      var f := SaveAllPath(path, prefix, clips[0].0);
      if f in existing then AlreadyExists(f)
      else
        var rest := PlanFiles(path, prefix, clips[1..], existing);
        if rest.WriteAll? then WriteAll([(f, clips[0].1)] + rest.files) else rest
  }

  /** When a file exists already, the plan names the first such file in
      clip order. */
  lemma {:induction false} PlanStopsAtFirst(path: string, prefix: string, clips: seq<(nat, nat)>, existing: set<string>) returns (i: nat)
    requires PlanFiles(path, prefix, clips, existing).AlreadyExists?
    ensures i < |clips|
    ensures PlanFiles(path, prefix, clips, existing).file == SaveAllPath(path, prefix, clips[i].0)
    ensures SaveAllPath(path, prefix, clips[i].0) in existing
    ensures forall j :: 0 <= j < i ==> SaveAllPath(path, prefix, clips[j].0) !in existing
  {
    var f0 := SaveAllPath(path, prefix, clips[0].0);
    if f0 in existing {
      i := 0;
    } else {
      var rest := clips[1..];
      assert PlanFiles(path, prefix, clips, existing) == PlanFiles(path, prefix, rest, existing);
      var k := PlanStopsAtFirst(path, prefix, rest, existing);
      i := k + 1;
      assert clips[i] == rest[k];
      forall j | 0 <= j < i
        ensures SaveAllPath(path, prefix, clips[j].0) !in existing
      {
        if j > 0 { assert clips[j] == rest[j - 1]; }
      }
    }
  }

  /** save_all_ok: a path that is no directory is refused; otherwise the
      plan of the clips. */
  function SaveAll(path: string, prefix: string, isDir: bool, clips: seq<(nat, nat)>, existing: set<string>): (r: SavePlan)
    ensures r.NotADirectory? <==> !isDir
  {
    if !isDir then NotADirectory else PlanFiles(path, prefix, clips, existing)
  }

  /** With distinct clip numbers, "save all" never writes two clips to the
      same file. */
  lemma SaveAllFilesDistinct(path: string, prefix: string, clips: seq<(nat, nat)>, existing: set<string>)
    requires forall i, j :: 0 <= i < j < |clips| ==> clips[i].0 != clips[j].0
    requires SaveAll(path, prefix, true, clips, existing).WriteAll?
    ensures var fs := SaveAll(path, prefix, true, clips, existing).files;
      forall i, j :: 0 <= i < j < |fs| ==> fs[i].0 != fs[j].0
  {
    var fs := SaveAll(path, prefix, true, clips, existing).files;
    forall i, j | 0 <= i < j < |fs|
      ensures fs[i].0 != fs[j].0
    {
      if fs[i].0 == fs[j].0 {
        SaveAllPathInjective(path, prefix, clips[i].0, clips[j].0);
      }
    }
  }
}
