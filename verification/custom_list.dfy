/** The rewrite of GNOME's custom-keybinding list in soundrec_dconf.cpp
    (clear_and_reload): entries without a name or named by the recorder
    are reset and taken out of the list, the rest keep their order, and
    the recorder's bindings are appended as `custom<k>` entries numbered
    from one above the largest surviving number. */
module CustomList {
  import opened Types
  import opened Text
  import opened KeyBindings

  /** One entry of the `custom-keybindings` list: its path and the name
      stored under it, if any. */
  datatype Entry = Entry(path: string, name: Option<string>)

  /** The path of custom binding k under root. The program's root is
      `KEYS_PATH`, "/org/gnome/settings-daemon/plugins/media-keys/custom-keybindings";
      the rewrite takes it as a parameter. */
  function CustomPath(root: string, k: nat): string
  {
    root + "/custom" + Decimal(k) + "/"
  }

  // ---------------------------------------------------------------------
  // Taking the recorder's entries out

  /** An entry the rewrite takes out: no name, or a name that starts with
      the recorder's tag. */
  predicate Ours(e: Entry)
  {
    e.name.None? || StartsWith(e.name.value, NameTag)
  }

  /** The entries kept, in order. */
  function Keep(es: seq<Entry>): seq<Entry>
  {
    if |es| == 0 then [] else (if Ours(es[0]) then [] else [es[0]]) + Keep(es[1..])
  }

  /** The entries taken out, in order. */
  function Taken(es: seq<Entry>): seq<Entry>
  {
    if |es| == 0 then [] else (if Ours(es[0]) then [es[0]] else []) + Taken(es[1..])
  }

  /** The first loop: the positions of the entries to take out, ascending,
      counted from base. */
  function Marked(es: seq<Entry>, base: nat): seq<nat>
  {
    if |es| == 0 then []
    else (if Ours(es[0]) then [base] else []) + Marked(es[1..], base + 1)
  }

  /** The second loop: each marked position, shifted down by the number of
      entries already taken out, is removed by moving the rest down. */
  function DeleteMarked(xs: seq<Entry>, marks: seq<nat>, nrem: nat): seq<Entry>
    decreases |marks|
  {
    if |marks| == 0 then xs
    else if marks[0] < nrem || marks[0] - nrem >= |xs| then xs
    else
      var at := marks[0] - nrem;
      DeleteMarked(xs[..at] + xs[at + 1..], marks[1..], nrem + 1)
  }

  /** The shifting removal keeps exactly the entries that are not ours,
      in order: with k kept so far and es still to scan, whose first entry
      had position base, of which base - |k| were taken out. */
  lemma {:induction false} DeleteMarkedKeeps(k: seq<Entry>, es: seq<Entry>, base: nat, nrem: nat)
    requires base == |k| + nrem
    ensures DeleteMarked(k + es, Marked(es, base), nrem) == k + Keep(es)
    decreases |es|
  {
    if |es| == 0 {
      assert k + es == k;
      assert k + Keep(es) == k;
    } else if Ours(es[0]) {
      DeleteMarkedKeeps(k, es[1..], base + 1, nrem + 1);
      OursStep(k, es, base, nrem);
    } else {
      DeleteMarkedKeeps(k + [es[0]], es[1..], base + 1, nrem);
      OtherStep(k, es, base, nrem);
    }
  }

  /** An entry of ours at the front of es is removed. */
  lemma OursStep(k: seq<Entry>, es: seq<Entry>, base: nat, nrem: nat)
    requires base == |k| + nrem && |es| > 0 && Ours(es[0])
    requires DeleteMarked(k + es[1..], Marked(es[1..], base + 1), nrem + 1) == k + Keep(es[1..])
    ensures DeleteMarked(k + es, Marked(es, base), nrem) == k + Keep(es)
  {
    var xs := k + es;
    var marks := Marked(es, base);
    assert marks == [base] + Marked(es[1..], base + 1);
    assert marks[0] - nrem == |k|;
    assert xs[..|k|] + xs[|k| + 1..] == k + es[1..];
    assert Keep(es) == Keep(es[1..]);
  }

  /** An entry that is not ours at the front of es is kept. */
  lemma OtherStep(k: seq<Entry>, es: seq<Entry>, base: nat, nrem: nat)
    requires base == |k| + nrem && |es| > 0 && !Ours(es[0])
    requires DeleteMarked((k + [es[0]]) + es[1..], Marked(es[1..], base + 1), nrem) == (k + [es[0]]) + Keep(es[1..])
    ensures DeleteMarked(k + es, Marked(es, base), nrem) == k + Keep(es)
  {
    assert Marked(es, base) == Marked(es[1..], base + 1);
    assert k + es == (k + [es[0]]) + es[1..];
    assert Keep(es) == [es[0]] + Keep(es[1..]);
    AppendAssoc(k, [es[0]], Keep(es[1..]));
  }

  /** The paths of a list of entries. */
  function Paths(es: seq<Entry>): (r: seq<string>)
    ensures |r| == |es|
    ensures forall i :: 0 <= i < |es| ==> r[i] == es[i].path
  {
    if |es| == 0 then [] else [es[0].path] + Paths(es[1..])
  }

  // ---------------------------------------------------------------------
  // Reading the number of an entry

  /** Where the run of digits that ends at j starts. */
  function RunStart(s: string, j: nat): (i: nat)
    requires j <= |s|
    ensures i <= j
    ensures forall m :: i <= m < j ==> IsDigit(s[m])
    ensures i > 0 ==> !IsDigit(s[i - 1])
  {
    if j == 0 || !IsDigit(s[j - 1]) then j else RunStart(s, j - 1)
  }

  /** get_custom_id as evidently intended: the number in front of the
      path's final '/'. */
  function CustomId(p: string): (r: Option<nat>)
    ensures r.Some? <==> |p| >= 2 && p[|p| - 1] == '/' && IsDigit(p[|p| - 2])
  {
    if |p| < 2 || p[|p| - 1] != '/' then None
    else
      var q := p[..|p| - 1];
      var i := RunStart(q, |q|);
      assert AllDigits(q[i..]) by {
        assert forall m :: 0 <= m < |q| - i ==> q[i..][m] == q[i + m];
      }
      if i == |q| then None else Some(ParseDecimal(q[i..]))
  }

  /** A run of digits after a non-digit starts right after it. */
  lemma {:induction false} RunStartAfter(head: string, d: string, n: nat)
    requires |head| > 0 && !IsDigit(head[|head| - 1]) && AllDigits(d) && n <= |d|
    ensures RunStart(head + d, |head| + n) == |head|
    decreases n
  {
    var s := head + d;
    if n == 0 {
      assert s[|head| - 1] == head[|head| - 1];
    } else {
      assert s[|head| + n - 1] == d[n - 1];
      RunStartAfter(head, d, n - 1);
    }
  }

  /** The intended reading recovers the number of every path the rewrite
      makes. */
  lemma CustomIdOfPath(root: string, k: nat)
    ensures CustomId(CustomPath(root, k)) == Some(k)
  {
    var head := root + "/custom";
    var p := CustomPath(root, k);
    var q := p[..|p| - 1];
    assert q == head + Decimal(k);
    RunStartAfter(head, Decimal(k), |Decimal(k)|);
    assert q[|head|..] == Decimal(k);
    DecimalRoundTrip(k);
  }

  /** Different numbers, different paths. */
  lemma CustomPathInjective(root: string, a: nat, b: nat)
    requires CustomPath(root, a) == CustomPath(root, b)
    ensures a == b
  {
    CustomIdOfPath(root, a);
    CustomIdOfPath(root, b);
  }

  // get_custom_id as written: from position len - 2 it scans forward over
  // digits, steps back one character and reads a number there with strtol.

  predicate IsSpace(c: char)
  {
    c == ' ' || c == '\t' || c == '\n' || c == '\r' || c == '\U{000B}' || c == '\U{000C}'
  }

  /** The character at k of a C string: past the text, its terminator. */
  function CharAt(p: string, k: nat): char
    requires k <= |p|
  {
    if k < |p| then p[k] else '\0'
  }

  /** The first position from k on that does not hold a digit. */
  function ScanDigits(p: string, k: nat): (j: nat)
    requires k <= |p|
    ensures k <= j <= |p| && !IsDigit(CharAt(p, j))
    ensures forall i :: k <= i < j ==> IsDigit(p[i])
    decreases |p| - k
  {
    if k < |p| && IsDigit(p[k]) then ScanDigits(p, k + 1) else k
  }

  /** The value of the digits of p from k on. */
  function DigitsValue(p: string, k: nat): nat
    requires k <= |p|
  {
    var j := ScanDigits(p, k);
    ParseDecimal(p[k..j])
  }

  /** `strtol(p + k, &eptr, 10)`: white space, an optional sign, then
      digits; nothing when no digit follows, which is `eptr == p + k`. */
  function Strtol(p: string, k: nat): (r: Option<int>)
    requires k <= |p|
    ensures k < |p| && IsDigit(p[k]) ==> r == Some(DigitsValue(p, k))
    ensures k == |p| ==> r.None?
    ensures k < |p| && !IsSpace(p[k]) && !IsDigit(p[k]) && p[k] != '-' && p[k] != '+' ==> r.None?
    ensures k < |p| && IsSpace(p[k]) ==> r == Strtol(p, k + 1)
    ensures k + 1 < |p| && p[k] == '-' && IsDigit(p[k + 1]) ==> r == Some(-(DigitsValue(p, k + 1) as int))
    ensures k + 1 < |p| && p[k] == '+' && IsDigit(p[k + 1]) ==> r == Some(DigitsValue(p, k + 1))
    ensures k < |p| && (p[k] == '-' || p[k] == '+') && !IsDigit(CharAt(p, k + 1)) ==> r.None?
    decreases |p| - k
  {
    if k < |p| && IsSpace(p[k]) then Strtol(p, k + 1)
    else
      var sign := if k < |p| && (p[k] == '-' || p[k] == '+') then 1 else 0;
      var at := k + sign;
      if at > |p| || !IsDigit(CharAt(p, at)) then None
      else
        var v: int := DigitsValue(p, at);
        Some(if sign == 1 && p[k] == '-' then -v else v)
  }

  /** get_custom_id as written, with the length `len` it is handed. */
  function CustomIdAsWritten(p: string, len: nat): (r: Result<int>)
    ensures len <= 2 ==> r == Fail(NoCustomId)
    ensures len > 2 && len - 2 > |p| ==> r == Fail(OutOfBounds)
    ensures r.Fail? ==> r.fault == NoCustomId || r.fault == OutOfBounds
  {
    if len <= 2 then Fail(NoCustomId)
    else if len - 2 > |p| then Fail(OutOfBounds)
    else
      var j := ScanDigits(p, len - 2);
      match Strtol(p, j - 1)
      case None => Fail(NoCustomId)
      case Some(v) => Ok(v)
  }

  /** Even with the path's own length, the reading as written sees only
      the last digit of the number. */
  lemma AsWrittenReadsLastDigit(root: string, k: nat)
    ensures var p := CustomPath(root, k); CustomIdAsWritten(p, |p|) == Ok(k % 10)
  {
    var p := CustomPath(root, k);
    var n := |p|;
    assert n >= 3 && p[n - 1] == '/' && p[n - 2] == DigitChar(k % 10) by {
      var d := Decimal(k);
      assert p[n - 2] == d[|d| - 1];
      if k >= 10 {
        assert d == Decimal(k / 10) + [DigitChar(k % 10)];
      }
    }
    DigitRoundTrip(k % 10);
    ReadsDigitBeforeEnd(p);
  }

  /** A path whose last character is not a digit and whose character
      before it is a digit reads, as written, as that one digit. */
  lemma ReadsDigitBeforeEnd(p: string)
    requires |p| >= 3 && !IsDigit(p[|p| - 1]) && IsDigit(p[|p| - 2])
    ensures CustomIdAsWritten(p, |p|) == Ok(DigitValue(p[|p| - 2]))
  {
    var n := |p|;
    var c := p[n - 2];
    assert ScanDigits(p, n - 1) == n - 1;
    assert ScanDigits(p, n - 2) == n - 1;
    assert p[n - 2..n - 1] == [c];
    assert ParseDecimal([c]) == DigitValue(c) by {
      assert [c][..0] == [];
    }
    assert !IsSpace(c);
  }

  // ---------------------------------------------------------------------
  // The rewrite

  /** The numbers of the kept entries; nothing when one has none. */
  function Ids(es: seq<Entry>): (r: Option<seq<nat>>)
    ensures r.Some? ==> |r.value| == |es| && forall i :: 0 <= i < |es| ==> CustomId(es[i].path) == Some(r.value[i])
  {
    if |es| == 0 then Some([])
    else
      match (CustomId(es[0].path), Ids(es[1..]))
      case (Some(k), Some(ks)) => Some([k] + ks)
      case _ => None
  }

  /** Reading the numbers fails exactly when some entry's path holds none. */
  lemma {:induction false} IdsNone(es: seq<Entry>)
    ensures Ids(es).None? <==> exists i :: 0 <= i < |es| && CustomId(es[i].path).None?
  {
    if |es| > 0 {
      IdsNone(es[1..]);
      if Ids(es[1..]).None? {
        var i :| 0 <= i < |es[1..]| && CustomId(es[1..][i].path).None?;
        assert es[i + 1] == es[1..][i];
      }
    }
  }

  /** The largest of -1 and the numbers. */
  function MaxId(ks: seq<int>): (m: int)
    ensures m >= -1
    ensures forall i :: 0 <= i < |ks| ==> ks[i] <= m
    ensures m == -1 || exists i :: 0 <= i < |ks| && ks[i] == m
  {
    if |ks| == 0 then -1
    else
      var m := MaxId(ks[1..]);
      if ks[0] > m then ks[0]
      else
        assert forall i :: 1 <= i < |ks| ==> ks[i] == ks[1..][i - 1];
        m
  }

  /** The paths of n new entries numbered from first on. */
  function NewPaths(root: string, first: nat, n: nat): (r: seq<string>)
    decreases n
    ensures |r| == n
    ensures forall i :: 0 <= i < n ==> r[i] == CustomPath(root, first + i)
  {
    if n == 0 then [] else [CustomPath(root, first)] + NewPaths(root, first + 1, n - 1)
  }

  /** What the rewrite does: the paths it resets, the list it stores (none
      when there are no bindings to add) and the bindings it writes. */
  datatype Rewrite = Rewrite(resets: seq<string>, list: Option<seq<string>>, writes: seq<(string, Binding)>)

  /** Pairs each new path with its binding. */
  function Zip(paths: seq<string>, bs: seq<Binding>): (r: seq<(string, Binding)>)
    requires |paths| == |bs|
    ensures |r| == |bs| && forall i :: 0 <= i < |bs| ==> r[i] == (paths[i], bs[i])
  {
    if |bs| == 0 then [] else [(paths[0], bs[0])] + Zip(paths[1..], bs[1..])
  }

  /** The rewrite given the paths taken out, the paths kept and the
      numbers read from the kept entries. */
  function Assemble(root: string, resets: seq<string>, kept: seq<string>, ks: seq<int>, bindings: Option<seq<Binding>>): (r: Rewrite)
    ensures r.resets == resets
    ensures r.list.Some? <==> bindings.Some?
  {
    match bindings
    case None => Rewrite(resets, None, [])
    case Some(bs) =>
      var added := NewPaths(root, MaxId(ks) + 1, |bs|);
      Rewrite(resets, Some(kept + added), Zip(added, bs))
  }

  /** The entries the removal loops leave in the list. */
  function Survivors(es: seq<Entry>): seq<Entry>
  {
    DeleteMarked(es, Marked(es, 0), 0)
  }

  /** clear_and_reload as evidently intended: each kept entry's number is
      read from its own path. */
  function ClearAndReload(root: string, es: seq<Entry>, bindings: Option<seq<Binding>>): (r: Result<Rewrite>)
    ensures r.Fail? ==> r == Fail(NoCustomId)
    ensures r.Ok? ==> r.value.resets == Paths(Taken(es)) && (r.value.list.Some? <==> bindings.Some?)
  {
    var kept := Survivors(es);
    match Ids(kept)
    case None => Fail(NoCustomId)
    case Some(ks) => Ok(Assemble(root, Paths(Taken(es)), Paths(kept), ks, bindings))
  }

  /** The numbers as written: every kept entry is read with the length of
      the last entry of the original list. */
  function IdsAsWritten(kept: seq<Entry>, len: nat): (r: Result<seq<int>>)
    ensures r.Ok? ==> |r.value| == |kept|
    ensures r.Fail? ==> r.fault == NoCustomId || r.fault == OutOfBounds
  {
    if |kept| == 0 then Ok([])
    else
      match (CustomIdAsWritten(kept[0].path, len), IdsAsWritten(kept[1..], len))
      case (Ok(k), Ok(ks)) => Ok([k] + ks)
      case (Fail(f), _) => Fail(f)
      case (_, Fail(f)) => Fail(f)
  }

  /** clear_and_reload as written. The removal loop shifts the list down
      without moving its NULL terminator, so with no bindings to append
      the final delete loop still runs over the old length and frees the
      last pointers a second time. */
  function ClearAndReloadAsWritten(root: string, es: seq<Entry>, bindings: Option<seq<Binding>>): (r: Result<Rewrite>)
    ensures r.Ok? ==> r.value.resets == Paths(Taken(es)) && (r.value.list.Some? <==> bindings.Some?)
    ensures r.Ok? ==> |Taken(es)| == 0 || bindings.Some?
    ensures r == Fail(DoubleFree) ==> |Taken(es)| > 0 && bindings.None?
  {
    var len := if |es| == 0 then 0 else |es[|es| - 1].path|;
    var kept := Survivors(es);
    match IdsAsWritten(kept, len)
    case Fail(f) => Fail(f)
    case Ok(ks) =>
      if |Taken(es)| > 0 && bindings.None? then Fail(DoubleFree)
      else Ok(Assemble(root, Paths(Taken(es)), Paths(kept), ks, bindings))
  }

  // ---------------------------------------------------------------------
  // What the rewrite promises

  /** The removal loop keeps exactly Keep(es). */
  lemma KeptAreKeep(es: seq<Entry>)
    ensures Survivors(es) == Keep(es)
  {
    DeleteMarkedKeeps([], es, 0, 0);
    assert [] + es == es && [] + Keep(es) == Keep(es);
  }

  /** No path occurs twice. */
  predicate Distinct(xs: seq<string>)
  {
    forall i, j :: 0 <= i < j < |xs| ==> xs[i] != xs[j]
  }

  /** No path of xs is one of ys. */
  predicate Apart(xs: seq<string>, ys: seq<string>)
  {
    forall i :: 0 <= i < |xs| ==> xs[i] !in ys
  }

  /** New paths numbered above every number of the kept paths are all
      different and differ from every kept path. */
  lemma NewPathsFresh(root: string, first: nat, n: nat, kept: seq<string>, ks: seq<nat>)
    requires |ks| == |kept|
    requires forall t :: 0 <= t < |kept| ==> CustomId(kept[t]) == Some(ks[t]) && ks[t] < first
    ensures Distinct(NewPaths(root, first, n)) && Apart(NewPaths(root, first, n), kept)
  {
    NewPathsDistinct(root, first, n);
    var added := NewPaths(root, first, n);
    forall i | 0 <= i < n
      ensures added[i] !in kept
    {
      NewPathAbove(root, first + i, kept, ks);
    }
  }

  lemma NewPathsDistinct(root: string, first: nat, n: nat)
    ensures Distinct(NewPaths(root, first, n))
  {
    var added := NewPaths(root, first, n);
    forall i, j | 0 <= i < j < n
      ensures added[i] != added[j]
    {
      if added[i] == added[j] {
        CustomPathInjective(root, first + i, first + j);
      }
    }
  }

  /** A path numbered above every kept number is not a kept path. */
  lemma NewPathAbove(root: string, k: nat, kept: seq<string>, ks: seq<nat>)
    requires |ks| == |kept|
    requires forall t :: 0 <= t < |kept| ==> CustomId(kept[t]) == Some(ks[t]) && ks[t] < k
    ensures CustomPath(root, k) !in kept
  {
    CustomIdOfPath(root, k);
    forall t | 0 <= t < |kept|
      ensures kept[t] != CustomPath(root, k)
    {
      assert CustomId(kept[t]) != CustomId(CustomPath(root, k));
    }
  }

  /** The corrected rewrite with bindings stores the kept paths followed
      by the new ones, and writes each binding under its new path. */
  lemma ReloadShape(root: string, es: seq<Entry>, bs: seq<Binding>) returns (added: seq<string>)
    requires ClearAndReload(root, es, Some(bs)).Ok?
    ensures |added| == |bs|
    ensures var r := ClearAndReload(root, es, Some(bs)).value;
      && r.list == Some(Paths(Keep(es)) + added)
      && r.writes == Zip(added, bs)
    ensures Distinct(added) && Apart(added, Paths(Keep(es)))
  {
    var ks := ReloadUnfold(root, es, bs);
    added := NewPaths(root, MaxId(ks) + 1, |bs|);
    NewPathsFresh(root, MaxId(ks) + 1, |bs|, Paths(Keep(es)), ks);
  }

  /** The corrected rewrite with bindings, one step unfolded. */
  lemma ReloadUnfold(root: string, es: seq<Entry>, bs: seq<Binding>) returns (ks: seq<nat>)
    requires ClearAndReload(root, es, Some(bs)).Ok?
    ensures Ids(Keep(es)) == Some(ks)
    ensures ClearAndReload(root, es, Some(bs)) == Ok(Assemble(root, Paths(Taken(es)), Paths(Keep(es)), ks, Some(bs)))
  {
    KeptAreKeep(es);
    ks := Ids(Keep(es)).value;
  }

  /** With bindings to add, the corrected rewrite stores the kept entries
      in their order followed by one new path per binding; the new paths
      are all different, none is a kept path, and each binding is written
      under its own path. */
  lemma ReloadAddsFreshPaths(root: string, es: seq<Entry>, bs: seq<Binding>)
    requires ClearAndReload(root, es, Some(bs)).Ok?
    ensures var r := ClearAndReload(root, es, Some(bs)).value;
      && r.list.Some? && |r.list.value| == |Keep(es)| + |bs|
      && r.list.value[..|Keep(es)|] == Paths(Keep(es))
      && Distinct(r.list.value[|Keep(es)|..])
      && Apart(r.list.value[|Keep(es)|..], Paths(Keep(es)))
      && |r.writes| == |bs|
      && (forall i :: 0 <= i < |bs| ==> r.writes[i] == (r.list.value[|Keep(es)| + i], bs[i]))
  {
    var added := ReloadShape(root, es, bs);
    var n := |Keep(es)|;
    var list := Paths(Keep(es)) + added;
    assert list[n..] == added;
    assert list[..n] == Paths(Keep(es));
    assert forall i :: 0 <= i < |bs| ==> list[n + i] == added[i];
  }

  /** Only the kept entries decide what the corrected rewrite stores and
      writes: two lists that keep the same entries differ only in what is
      reset. */
  lemma ReloadDependsOnKept(root: string, es1: seq<Entry>, es2: seq<Entry>, bindings: Option<seq<Binding>>)
    requires Keep(es1) == Keep(es2)
    requires ClearAndReload(root, es1, bindings).Ok?
    ensures ClearAndReload(root, es2, bindings) == Ok(ClearAndReload(root, es1, bindings).value.(resets := Paths(Taken(es2))))
  {
    KeptAreKeep(es1);
    KeptAreKeep(es2);
  }

  lemma {:induction false} KeepAppend(a: seq<Entry>, b: seq<Entry>)
    ensures Keep(a + b) == Keep(a) + Keep(b)
  {
    if |a| == 0 {
      assert a + b == b;
    } else {
      assert (a + b)[1..] == a[1..] + b;
      KeepAppend(a[1..], b);
      var h := if Ours(a[0]) then [] else [a[0]];
      AppendAssoc(h, Keep(a[1..]), Keep(b));
    }
  }

  lemma KeepCons(e: Entry, es: seq<Entry>)
    ensures Keep([e] + es) == (if Ours(e) then [] else [e]) + Keep(es)
    ensures Taken([e] + es) == (if Ours(e) then [e] else []) + Taken(es)
  {
    assert ([e] + es)[1..] == es;
  }

  lemma {:induction false} KeepIdempotent(es: seq<Entry>)
    ensures Keep(Keep(es)) == Keep(es)
  {
    if |es| > 0 {
      var e, rest := es[0], es[1..];
      KeepIdempotent(rest);
      assert es == [e] + rest;
      KeepCons(e, rest);
      if !Ours(e) {
        assert Keep(es) == [e] + Keep(rest);
        KeepCons(e, Keep(rest));
      } else {
        assert Keep(es) == Keep(rest);
      }
    }
  }

  /** The entries the rewrite creates, named by the bindings. */
  function Created(writes: seq<(string, Binding)>): (r: seq<Entry>)
    ensures |r| == |writes|
    ensures forall i :: 0 <= i < |writes| ==> r[i] == Entry(writes[i].0, Some(writes[i].1.name))
  {
    if |writes| == 0 then [] else [Entry(writes[0].0, Some(writes[0].1.name))] + Created(writes[1..])
  }

  lemma {:induction false} KeepCreated(writes: seq<(string, Binding)>)
    requires forall i :: 0 <= i < |writes| ==> StartsWith(writes[i].1.name, NameTag)
    ensures Keep(Created(writes)) == [] && Taken(Created(writes)) == Created(writes)
  {
    if |writes| > 0 {
      var c := Created(writes);
      assert c[1..] == Created(writes[1..]);
      KeepCreated(writes[1..]);
    }
  }

  /** The paths and names of the entries a rewrite creates. */
  lemma CreatedOfZip(paths: seq<string>, bs: seq<Binding>)
    requires |paths| == |bs|
    requires forall b :: b in bs ==> StartsWith(b.name, NameTag)
    ensures Paths(Created(Zip(paths, bs))) == paths
    ensures forall i :: 0 <= i < |bs| ==> StartsWith(Zip(paths, bs)[i].1.name, NameTag)
  {
    forall i | 0 <= i < |bs|
      ensures StartsWith(Zip(paths, bs)[i].1.name, NameTag)
    {
      assert Zip(paths, bs)[i].1 == bs[i] && bs[i] in bs;
    }
  }

  /** Adding entries of ours behind kept entries: the next rewrite keeps
      the kept ones and takes out exactly the added ones. */
  lemma KeptThenOurs(kept: seq<Entry>, writes: seq<(string, Binding)>, es: seq<Entry>)
    requires kept == Keep(es)
    requires forall i :: 0 <= i < |writes| ==> StartsWith(writes[i].1.name, NameTag)
    ensures Keep(kept + Created(writes)) == kept
    ensures Taken(kept + Created(writes)) == Created(writes)
    ensures Paths(kept + Created(writes)) == Paths(kept) + Paths(Created(writes))
  {
    var c := Created(writes);
    KeepCreated(writes);
    KeepAppend(kept, c);
    KeepIdempotent(es);
    TakenAppend(kept, c);
    TakenOfKept(es);
    PathsAppend(kept, c);
    assert kept + [] == kept && [] + c == c;
  }

  /** Reloading is idempotent: after a reload with the recorder's bindings,
      whose names carry its tag, the list holds exactly the paths it
      stored, and a second reload with the same bindings stores the same
      list and writes the same bindings, resetting just the entries the
      first one created. */
  lemma ClearUndoesReload(root: string, es: seq<Entry>, bs: seq<Binding>)
    requires ClearAndReload(root, es, Some(bs)).Ok?
    requires forall b :: b in bs ==> StartsWith(b.name, NameTag)
    ensures var r := ClearAndReload(root, es, Some(bs)).value;
      var after := Keep(es) + Created(r.writes);
      && Paths(after) == r.list.value
      && ClearAndReload(root, after, Some(bs)) == Ok(r.(resets := r.list.value[|Keep(es)|..]))
  {
    var added := ReloadShape(root, es, bs);
    var r := ClearAndReload(root, es, Some(bs)).value;
    CreatedOfZip(added, bs);
    var c := Created(r.writes);
    KeptThenOurs(Keep(es), r.writes, es);
    var after := Keep(es) + c;
    ReloadDependsOnKept(root, es, after, Some(bs));
    assert r.list.value[|Keep(es)|..] == added;
  }

  lemma {:induction false} TakenAppend(a: seq<Entry>, b: seq<Entry>)
    ensures Taken(a + b) == Taken(a) + Taken(b)
  {
    if |a| == 0 {
      assert a + b == b;
    } else {
      assert (a + b)[1..] == a[1..] + b;
      TakenAppend(a[1..], b);
      var h := if Ours(a[0]) then [a[0]] else [];
      AppendAssoc(h, Taken(a[1..]), Taken(b));
    }
  }

  lemma {:induction false} TakenOfKept(es: seq<Entry>)
    ensures Taken(Keep(es)) == []
  {
    if |es| > 0 {
      var e, rest := es[0], es[1..];
      TakenOfKept(rest);
      assert es == [e] + rest;
      KeepCons(e, rest);
      if !Ours(e) {
        assert Keep(es) == [e] + Keep(rest);
        KeepCons(e, Keep(rest));
      } else {
        assert Keep(es) == Keep(rest);
      }
    }
  }

  lemma PathsAppend(a: seq<Entry>, b: seq<Entry>)
    ensures Paths(a + b) == Paths(a) + Paths(b)
  {
    var p := Paths(a + b);
    forall i | 0 <= i < |p|
      ensures p[i] == (Paths(a) + Paths(b))[i]
    {
      if i < |a| {
        assert (a + b)[i] == a[i];
      } else {
        assert (a + b)[i] == b[i - |a|];
      }
    }
  }

  /** The corrected rewrite fails exactly when a kept entry's path holds
      no number. */
  lemma ReloadFailsIff(root: string, es: seq<Entry>, bindings: Option<seq<Binding>>)
    ensures ClearAndReload(root, es, bindings).Fail? <==>
      exists i :: 0 <= i < |Keep(es)| && CustomId(Keep(es)[i].path).None?
  {
    KeptAreKeep(es);
    IdsNone(Keep(es));
  }

  /** An entry is kept exactly when it is in the list and not ours. */
  lemma {:induction false} KeepHas(es: seq<Entry>, e: Entry)
    ensures e in Keep(es) <==> e in es && !Ours(e)
    ensures e in Taken(es) <==> e in es && Ours(e)
  {
    if |es| > 0 {
      KeepHas(es[1..], e);
      assert es == [es[0]] + es[1..];
      KeepCons(es[0], es[1..]);
    }
  }

  // ---------------------------------------------------------------------
  // The stale length

  /** A path ending in a non-digit after two digits reads, as written with
      a length one short, as the second of those digits. */
  lemma ReadsDigitWithShortLength(p: string)
    requires |p| >= 4 && !IsDigit(p[|p| - 1]) && IsDigit(p[|p| - 2]) && IsDigit(p[|p| - 3])
    ensures CustomIdAsWritten(p, |p| - 1) == Ok(DigitValue(p[|p| - 2]))
  {
    var n := |p|;
    var c := p[n - 2];
    assert ScanDigits(p, n - 1) == n - 1;
    assert ScanDigits(p, n - 2) == n - 1;
    assert ScanDigits(p, n - 3) == n - 1;
    assert p[n - 2..n - 1] == [c];
    assert ParseDecimal([c]) == DigitValue(c) by {
      assert [c][..0] == [];
    }
    assert !IsSpace(c);
  }

  /** The characters that end the path of custom10. */
  lemma TenPathEnd(root: string)
    ensures var p := CustomPath(root, 10);
      && |p| == |CustomPath(root, 9)| + 1
      && p[|p| - 1] == '/' && p[|p| - 2] == '0' && p[|p| - 3] == '1'
  {
    assert Decimal(10) == Decimal(1) + [DigitChar(0)];
  }

  /** One binding to add: it goes to the path numbered one above the
      largest number read. */
  lemma AssembleOne(root: string, resets: seq<string>, kept: seq<string>, ks: seq<int>, b: Binding)
    ensures var p := CustomPath(root, MaxId(ks) + 1);
      Assemble(root, resets, kept, ks, Some([b])) == Rewrite(resets, Some(kept + [p]), [(p, b)])
  {
    var p := CustomPath(root, MaxId(ks) + 1);
    assert NewPaths(root, MaxId(ks) + 1, 1) == [p];
    assert Zip([p], [b]) == [(p, b)];
  }

  /** The larger of two numbers read. */
  lemma MaxPair(a: int, c: int)
    requires a >= 0 && c >= 0
    ensures MaxId([a, c]) == if a > c then a else c
  {
    assert [a, c][1..] == [c] && [c][1..] == [];
  }

  /** The corrected rewrite, once the numbers of the kept entries are known. */
  lemma ReloadOk(root: string, es: seq<Entry>, bindings: Option<seq<Binding>>, ks: seq<nat>)
    requires Ids(Keep(es)) == Some(ks)
    ensures ClearAndReload(root, es, bindings) == Ok(Assemble(root, Paths(Taken(es)), Paths(Keep(es)), ks, bindings))
  {
    KeptAreKeep(es);
  }

  /** The rewrite as written, once the numbers it reads are known. */
  lemma ReloadAsWrittenOk(root: string, es: seq<Entry>, bindings: Option<seq<Binding>>, ks: seq<int>)
    requires |es| > 0 && IdsAsWritten(Keep(es), |es[|es| - 1].path|) == Ok(ks)
    requires |Taken(es)| == 0 || bindings.Some?
    ensures ClearAndReloadAsWritten(root, es, bindings) == Ok(Assemble(root, Paths(Taken(es)), Paths(Keep(es)), ks, bindings))
  {
    KeptAreKeep(es);
  }

  /** Two entries of other programs, read as written: both kept, none
      reset, and the one binding goes to the path numbered one above the
      larger number read with the second entry's length. */
  lemma ReloadPairAsWritten(root: string, es: seq<Entry>, b: Binding, ax: int, ay: int)
    requires |es| == 2 && !Ours(es[0]) && !Ours(es[1])
    requires CustomIdAsWritten(es[0].path, |es[1].path|) == Ok(ax) && CustomIdAsWritten(es[1].path, |es[1].path|) == Ok(ay)
    requires ax >= 0 && ay >= 0
    ensures var p := CustomPath(root, (if ax > ay then ax else ay) + 1);
      ClearAndReloadAsWritten(root, es, Some([b])) == Ok(Rewrite([], Some([es[0].path, es[1].path, p]), [(p, b)]))
  {
    PairIdsAsWritten(es[0], es[1], ax, ay);
    assert es == [es[0], es[1]];
    PairKeptReload(root, es, Some([b]));
    AssemblePair(root, es[0].path, es[1].path, ax, ay, b);
  }

  /** Two entries of other programs, each read from its own path: both
      kept, none reset, and the one binding goes to the path numbered one
      above the larger number. */
  lemma ReloadPair(root: string, es: seq<Entry>, b: Binding, kx: nat, ky: nat)
    requires |es| == 2 && !Ours(es[0]) && !Ours(es[1])
    requires CustomId(es[0].path) == Some(kx) && CustomId(es[1].path) == Some(ky)
    ensures var p := CustomPath(root, (if kx > ky then kx else ky) + 1);
      ClearAndReload(root, es, Some([b])) == Ok(Rewrite([], Some([es[0].path, es[1].path, p]), [(p, b)]))
  {
    PairIds(es[0], es[1], kx, ky);
    assert es == [es[0], es[1]];
    PairKeptReload(root, es, Some([b]));
    AssemblePair(root, es[0].path, es[1].path, kx, ky, b);
  }

  /** Both rewrites of two entries of other programs, once the numbers are
      read. */
  lemma PairKeptReload(root: string, es: seq<Entry>, bindings: Option<seq<Binding>>)
    requires |es| == 2 && !Ours(es[0]) && !Ours(es[1])
    ensures Ids(es).Some? ==>
      ClearAndReload(root, es, bindings) == Ok(Assemble(root, [], [es[0].path, es[1].path], Ids(es).value, bindings))
    ensures IdsAsWritten(es, |es[1].path|).Ok? ==>
      ClearAndReloadAsWritten(root, es, bindings)
        == Ok(Assemble(root, [], [es[0].path, es[1].path], IdsAsWritten(es, |es[1].path|).value, bindings))
  {
    assert es == [es[0], es[1]];
    PairKept(es[0], es[1]);
    PairPaths(es[0], es[1]);
    KeptAreKeep(es);
  }

  /** One binding behind two kept paths. */
  lemma AssemblePair(root: string, xp: string, yp: string, kx: int, ky: int, b: Binding)
    requires kx >= 0 && ky >= 0
    ensures var p := CustomPath(root, (if kx > ky then kx else ky) + 1);
      Assemble(root, [], [xp, yp], [kx, ky], Some([b])) == Rewrite([], Some([xp, yp, p]), [(p, b)])
  {
    var p := CustomPath(root, (if kx > ky then kx else ky) + 1);
    MaxPair(kx, ky);
    AssembleOne(root, [], [xp, yp], [kx, ky], b);
    assert [xp, yp] + [p] == [xp, yp, p];
  }

  lemma PairIdsAsWritten(x: Entry, y: Entry, ax: int, ay: int)
    requires CustomIdAsWritten(x.path, |y.path|) == Ok(ax) && CustomIdAsWritten(y.path, |y.path|) == Ok(ay)
    ensures IdsAsWritten([x, y], |y.path|) == Ok([ax, ay])
  {
    assert [y] + [] == [y] && [x] + [y] == [x, y];
    IdsAsWrittenCons(y, [], |y.path|, ay);
    IdsAsWrittenCons(x, [y], |y.path|, ax);
    assert [ay] + [] == [ay] && [ax] + [ay] == [ax, ay];
  }

  lemma PairIds(x: Entry, y: Entry, kx: nat, ky: nat)
    requires CustomId(x.path) == Some(kx) && CustomId(y.path) == Some(ky)
    ensures Ids([x, y]) == Some([kx, ky])
  {
    assert [y] + [] == [y] && [x] + [y] == [x, y];
    IdsCons(y, [], ky);
    IdsCons(x, [y], kx);
    assert [ky] + [] == [ky] && [kx] + [ky] == [kx, ky];
  }

  lemma PairPaths(x: Entry, y: Entry)
    ensures Paths([x, y]) == [x.path, y.path] && Paths([]) == []
  {
    assert [x, y][1..] == [y] && [y][1..] == [];
  }

  lemma IdsCons(e: Entry, rest: seq<Entry>, k: nat)
    requires CustomId(e.path) == Some(k) && Ids(rest).Some?
    ensures Ids([e] + rest) == Some([k] + Ids(rest).value)
  {
    assert ([e] + rest)[0] == e && ([e] + rest)[1..] == rest;
  }

  lemma IdsAsWrittenCons(e: Entry, rest: seq<Entry>, len: nat, k: int)
    requires CustomIdAsWritten(e.path, len) == Ok(k) && IdsAsWritten(rest, len).Ok?
    ensures IdsAsWritten([e] + rest, len) == Ok([k] + IdsAsWritten(rest, len).value)
  {
    assert ([e] + rest)[0] == e && ([e] + rest)[1..] == rest;
  }

  /** Two entries of other programs are both kept. */
  lemma PairKept(x: Entry, y: Entry)
    requires !Ours(x) && !Ours(y)
    ensures Keep([x, y]) == [x, y] && Taken([x, y]) == []
  {
    assert [x, y] == [x] + [y] && [y] == [y] + [];
    KeepCons(x, [y]);
    KeepCons(y, []);
  }

  /** With the list ending in custom9 behind custom10, both named by other
      programs, the rewrite as written reads custom10 with custom9's
      length, takes it for number 0, and hands the recorder's binding the
      path custom10 a second time; read from its own path, custom10 is 10
      and the binding goes to custom11. */
  lemma StaleLengthCollides(root: string, u1: string, u2: string, b: Binding)
    requires !StartsWith(u1, NameTag) && !StartsWith(u2, NameTag)
    ensures var es := [Entry(CustomPath(root, 10), Some(u1)), Entry(CustomPath(root, 9), Some(u2))];
      var p9, p10, p11 := CustomPath(root, 9), CustomPath(root, 10), CustomPath(root, 11);
      && ClearAndReloadAsWritten(root, es, Some([b])) == Ok(Rewrite([], Some([p10, p9, p10]), [(p10, b)]))
      && ClearAndReload(root, es, Some([b])) == Ok(Rewrite([], Some([p10, p9, p11]), [(p11, b)]))
  {
    var p9, p10 := CustomPath(root, 9), CustomPath(root, 10);
    TenPathEnd(root);
    assert CustomIdAsWritten(p10, |p9|) == Ok(0) by {
      ReadsDigitWithShortLength(p10);
    }
    AsWrittenReadsLastDigit(root, 9);
    CustomIdOfPath(root, 10);
    CustomIdOfPath(root, 9);
    ReloadPairAsWritten(root, [Entry(p10, Some(u1)), Entry(p9, Some(u2))], b, 0, 9);
    ReloadPair(root, [Entry(p10, Some(u1)), Entry(p9, Some(u2))], b, 10, 9);
  }

  /** Clearing as written (no bindings) never succeeds once the list holds
      an entry of ours: either a number cannot be read or the final loop
      frees a pointer twice. */
  lemma ClearAsWrittenDoubleFrees(root: string, es: seq<Entry>)
    requires |Taken(es)| > 0
    ensures ClearAndReloadAsWritten(root, es, None).Fail?
    ensures |es| > 0 && IdsAsWritten(Keep(es), |es[|es| - 1].path|).Ok? ==>
      ClearAndReloadAsWritten(root, es, None) == Fail(DoubleFree)
  {
    KeptAreKeep(es);
  }

  /** Clearing corrected: with every kept number readable it resets
      exactly the entries of ours and stores no list. */
  lemma ClearResetsOurs(root: string, es: seq<Entry>)
    requires forall i :: 0 <= i < |Keep(es)| ==> CustomId(Keep(es)[i].path).Some?
    ensures ClearAndReload(root, es, None) == Ok(Rewrite(Paths(Taken(es)), None, []))
  {
    ReloadFailsIff(root, es, None);
  }

  /** A list holding one entry of ours, cleared: as written the entry is
      freed once by the removal loop and again by the delete loop;
      corrected its path is reset and nothing else happens. */
  lemma ClearOneOfOursExample(root: string)
    ensures var es := [Entry(CustomPath(root, 0), None)];
      && ClearAndReloadAsWritten(root, es, None) == Fail(DoubleFree)
      && ClearAndReload(root, es, None) == Ok(Rewrite([CustomPath(root, 0)], None, []))
  {
    var es := [Entry(CustomPath(root, 0), None)];
    assert Ours(es[0]) && es[1..] == [];
    assert Taken(es) == [es[0]] + Taken([]);
    assert Keep(es) == [] + Keep([]);
    KeptAreKeep(es);
    ClearResetsOurs(root, es);
    assert Paths(es) == [CustomPath(root, 0)];
  }
}
