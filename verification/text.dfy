/** The C string routines the source relies on, restated over `string`:
    `%d` formatting and its inverse, prefix tests (`strncmp`), truncation
    by a bounded `snprintf`, and `strtok_r` tokenising. */
module Text {
  import opened Types

  predicate IsDigit(c: char) { '0' <= c <= '9' }

  predicate AllDigits(s: string) { forall i :: 0 <= i < |s| ==> IsDigit(s[i]) }

  function DigitChar(d: nat): char
    requires d < 10
  {
    "0123456789"[d]
  }

  function DigitValue(c: char): nat
    requires IsDigit(c)
  {
    (c as int - '0' as int) as nat
  }

  lemma DigitRoundTrip(d: nat)
    requires d < 10
    ensures IsDigit(DigitChar(d)) && DigitValue(DigitChar(d)) == d
  {
  }

  /** `%d` of a non-negative number. */
  function Decimal(n: nat): (s: string)
    ensures |s| >= 1 && AllDigits(s)
    ensures |s| > 1 ==> s[0] != '0'
    decreases n
  {
    if n < 10 then [DigitChar(n)]
    else
      DigitRoundTrip(n % 10);
      Decimal(n / 10) + [DigitChar(n % 10)]
  }

  /** The value of a string of decimal digits, most significant first. */
  function ParseDecimal(s: string): nat
    requires AllDigits(s)
  {
    if |s| == 0 then 0
    else ParseDecimal(s[..|s| - 1]) * 10 + DigitValue(s[|s| - 1])
  }

  /** Printing and reading back a number gives the number. */
  lemma {:induction false} DecimalRoundTrip(n: nat)
    ensures ParseDecimal(Decimal(n)) == n
    decreases n
  {
    if n < 10 {
      DigitRoundTrip(n);
    } else {
      var s := Decimal(n);
      DigitRoundTrip(n % 10);
      assert s[..|s| - 1] == Decimal(n / 10);
      DecimalRoundTrip(n / 10);
    }
  }

  /** Distinct numbers print differently. */
  lemma DecimalInjective(a: nat, b: nat)
    requires Decimal(a) == Decimal(b)
    ensures a == b
  {
    DecimalRoundTrip(a);
    DecimalRoundTrip(b);
  }

  /** `%d` of a C int, sign included. */
  function SignedDecimal(n: int): string
  {
    if n >= 0 then Decimal(n) else "-" + Decimal(-n)
  }

  /** The first n characters: what a `snprintf` into an n+1 byte buffer keeps. */
  function Take(s: string, n: nat): (r: string)
    ensures |r| == if |s| <= n then |s| else n
    ensures r == s[..|r|]
  {
    if |s| <= n then s else s[..n]
  }

  /** `strncmp(s, p, |p|) == 0`. */
  predicate StartsWith(s: string, p: string) { |p| <= |s| && s[..|p|] == p }

  predicate EndsWith(s: string, p: string) { |p| <= |s| && s[|s| - |p|..] == p }

  /** Against a one-character prefix only the first character counts. */
  lemma StartsWithOne(s: string, p: string)
    requires |p| == 1 && |s| >= 1
    ensures StartsWith(s, p) <==> s[0] == p[0]
  {
    assert s[..1] == [s[0]];
    assert p == [p[0]];
  }

  /** The length of the run of non-delimiter characters at the front. */
  function RunLength(s: string, delims: set<char>): (n: nat)
    ensures n <= |s|
    ensures forall i :: 0 <= i < n ==> s[i] !in delims
    ensures n < |s| ==> s[n] in delims
  {
    if |s| == 0 || s[0] in delims then 0 else 1 + RunLength(s[1..], delims)
  }

  /** The tokens `strtok_r` returns: maximal runs of non-delimiters, empty
      runs skipped. */
  function Tokens(s: string, delims: set<char>): (ts: seq<string>)
    ensures forall i :: 0 <= i < |ts| ==> |ts[i]| > 0
    ensures forall i, j :: 0 <= i < |ts| && 0 <= j < |ts[i]| ==> ts[i][j] !in delims
    decreases |s|
  {
    if |s| == 0 then []
    else if s[0] in delims then Tokens(s[1..], delims)
    else
      var n := RunLength(s, delims);
      [s[..n]] + Tokens(s[n..], delims)
  }

  /** Tokens joined by one delimiter. */
  function Join(ts: seq<string>, sep: char): string
  {
    if |ts| == 0 then []
    else if |ts| == 1 then ts[0]
    else ts[0] + [sep] + Join(ts[1..], sep)
  }

  predicate Token(t: string, delims: set<char>)
  {
    |t| > 0 && forall j :: 0 <= j < |t| ==> t[j] !in delims
  }

  lemma RunOfToken(t: string, rest: string, delims: set<char>)
    requires Token(t, delims)
    requires |rest| == 0 || rest[0] in delims
    ensures RunLength(t + rest, delims) == |t|
  {
    var s := t + rest;
    var n := RunLength(s, delims);
    assert forall i :: 0 <= i < |t| ==> s[i] == t[i];
    if |rest| > 0 {
      assert s[|t|] == rest[0];
    }
  }

  /** Tokenising undoes joining: the tokens of a joined token list are the list. */
  lemma {:induction false} TokensOfJoin(ts: seq<string>, sep: char, delims: set<char>)
    requires sep in delims
    requires forall i :: 0 <= i < |ts| ==> Token(ts[i], delims)
    ensures Tokens(Join(ts, sep), delims) == ts
    decreases |ts|
  {
    if |ts| == 0 {
    } else if |ts| == 1 {
      RunOfToken(ts[0], [], delims);
      assert ts[0] + [] == ts[0];
      assert ts[0][|ts[0]|..] == [];
    } else {
      var rest := [sep] + Join(ts[1..], sep);
      var s := ts[0] + rest;
      assert Join(ts, sep) == s;
      RunOfToken(ts[0], rest, delims);
      assert s[..|ts[0]|] == ts[0];
      assert s[|ts[0]|..] == rest;
      assert rest[1..] == Join(ts[1..], sep);
      TokensOfJoin(ts[1..], sep, delims);
      assert Tokens(rest, delims) == Tokens(rest[1..], delims);
    }
  }

  /** Every character of w is a delimiter. */
  predicate Blanks(w: string, delims: set<char>)
  {
    forall j :: 0 <= j < |w| ==> w[j] in delims
  }

  /** Leading delimiters are skipped. */
  lemma {:induction false} TokensSkip(w: string, s: string, delims: set<char>)
    requires Blanks(w, delims)
    ensures Tokens(w + s, delims) == Tokens(s, delims)
    decreases |w|
  {
    if |w| > 0 {
      assert (w + s)[0] == w[0];
      assert (w + s)[1..] == w[1..] + s;
      TokensSkip(w[1..], s, delims);
    } else {
      assert w + s == s;
    }
  }

  /** A token followed by the end or a delimiter is the first token. */
  lemma TokensCons(t: string, rest: string, delims: set<char>)
    requires Token(t, delims)
    requires |rest| == 0 || rest[0] in delims
    ensures Tokens(t + rest, delims) == [t] + Tokens(rest, delims)
  {
    RunOfToken(t, rest, delims);
    var s := t + rest;
    assert s[0] == t[0];
    assert s[..|t|] == t;
    assert s[|t|..] == rest;
  }

  /** A string of delimiters only has no tokens, and one with a
      non-delimiter has some. */
  lemma {:induction false} TokensNone(s: string, delims: set<char>)
    ensures |Tokens(s, delims)| == 0 <==> Blanks(s, delims)
    decreases |s|
  {
    if |s| > 0 && s[0] in delims {
      TokensNone(s[1..], delims);
      if Blanks(s[1..], delims) {
        forall j | 0 <= j < |s| ensures s[j] in delims {
          if j > 0 { assert s[j] == s[1..][j - 1]; }
        }
      }
    }
  }

  /** ASCII `tolower`. */
  function Lower(c: char): char
  {
    if 'A' <= c <= 'Z' then (c as int + 32) as char else c
  }

  /** Case-insensitive equality of two equally long strings. */
  predicate EqualCI(a: string, b: string)
  {
    |a| == |b| && forall i :: 0 <= i < |a| ==> Lower(a[i]) == Lower(b[i])
  }

  /** Whether `pat` occurs, ignoring case, at position i of s. */
  predicate OccursCIAt(s: string, pat: string, i: nat)
  {
    i + |pat| <= |s| && EqualCI(s[i..i + |pat|], pat)
  }

  /** `strcasestr`: the position of the first case-insensitive occurrence. */
  function FindCI(s: string, pat: string, from: nat): (r: Option<nat>)
    requires from <= |s|
    ensures r.Some? ==> from <= r.value && OccursCIAt(s, pat, r.value)
    ensures r.Some? ==> forall j :: from <= j < r.value ==> !OccursCIAt(s, pat, j)
    ensures r.None? ==> forall j :: from <= j <= |s| ==> !OccursCIAt(s, pat, j)
    decreases |s| - from
  {
    if OccursCIAt(s, pat, from) then Some(from)
    else if from == |s| then None
    else FindCI(s, pat, from + 1)
  }

}
