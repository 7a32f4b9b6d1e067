/**
 * Python string built-ins the core relies on: `str.isspace`, `str.strip`,
 * `str.lstrip`, `str.rstrip`, `str.split()` with no separator,
 * `str.startswith` and `str.endswith`.  Strings are sequences of code points.
 */
module Text {

  /** The code points for which Python's `str.isspace()` holds; `split()` and
      `strip()` without arguments cut at exactly these. */
  predicate IsSpace(c: char) {
    || ('\t' <= c <= '\r')          // \t \n \x0b \x0c \r
    || ('\U{1C}' <= c <= '\U{1F}')  // file, group, record and unit separators
    || c == ' ' || c == '\U{85}' || c == '\U{A0}' || c == '\U{1680}'
    || ('\U{2000}' <= c <= '\U{200A}')
    || c == '\U{2028}' || c == '\U{2029}' || c == '\U{202F}' || c == '\U{205F}' || c == '\U{3000}'
  }

  predicate AllSpace(s: string) {
    forall i :: 0 <= i < |s| ==> IsSpace(s[i])
  }

  predicate NoSpace(s: string) {
    forall i :: 0 <= i < |s| ==> !IsSpace(s[i])
  }

  /** No whitespace at either end: what `strip()` produces. */
  predicate Stripped(s: string) {
    s != [] ==> !IsSpace(s[0]) && !IsSpace(s[|s| - 1])
  }

  predicate IsSuffix<T(==)>(s: seq<T>, t: seq<T>) {
    |s| <= |t| && t[|t| - |s|..] == s
  }

  lemma SuffixTransitive<T>(a: seq<T>, b: seq<T>, c: seq<T>)
    requires IsSuffix(a, b) && IsSuffix(b, c)
    ensures IsSuffix(a, c)
  {
    assert c[|c| - |a|..] == c[|c| - |b|..][|b| - |a|..];
  }

  predicate StartsWith(s: string, prefix: string) {
    |prefix| <= |s| && s[..|prefix|] == prefix
  }

  predicate EndsWith(s: string, suffix: string) {
    IsSuffix(suffix, s)
  }

  /** Length of the leading run of whitespace (all of it whitespace: `LeadingRunIsSpace`). */
  function LeadingRun(s: string): (k: nat)
    ensures k <= |s|
    ensures k < |s| ==> !IsSpace(s[k])
    decreases |s|
  {
    if s == [] || !IsSpace(s[0]) then 0 else 1 + LeadingRun(s[1..])
  }

  lemma {:induction false} LeadingRunIsSpace(s: string)
    ensures forall j :: 0 <= j < LeadingRun(s) ==> IsSpace(s[j])
    decreases |s|
  {
    if s != [] && IsSpace(s[0]) {
      LeadingRunIsSpace(s[1..]);
      assert forall j :: 1 <= j < LeadingRun(s) ==> s[j] == s[1..][j - 1];
    }
  }

  /** Length of the trailing run of whitespace (all of it whitespace: `TrailingRunIsSpace`). */
  function TrailingRun(s: string): (m: nat)
    ensures m <= |s|
    ensures m < |s| ==> !IsSpace(s[|s| - 1 - m])
    decreases |s|
  {
    if s == [] || !IsSpace(s[|s| - 1]) then 0 else 1 + TrailingRun(s[..|s| - 1])
  }

  lemma {:induction false} TrailingRunIsSpace(s: string)
    ensures forall j :: |s| - TrailingRun(s) <= j < |s| ==> IsSpace(s[j])
    decreases |s|
  {
    if s != [] && IsSpace(s[|s| - 1]) {
      var init := s[..|s| - 1];
      TrailingRunIsSpace(init);
      assert forall j :: |s| - TrailingRun(s) <= j < |s| - 1 ==> s[j] == init[j];
    }
  }

  /** `s.lstrip()`: drops the leading whitespace. */
  function LStrip(s: string): (r: string)
    ensures |r| <= |s|
    ensures r != [] ==> !IsSpace(r[0])
  {
    s[LeadingRun(s)..]
  }

  /** The whitespace that `s.lstrip()` drops. */
  function LeadingSpace(s: string): string {
    s[..LeadingRun(s)]
  }

  /** What `lstrip()` keeps ends the text, and what it drops is whitespace
      and, put back in front, gives the text again. */
  lemma LStripFacts(s: string)
    ensures IsSuffix(LStrip(s), s)
    ensures AllSpace(LeadingSpace(s))
    ensures LeadingSpace(s) + LStrip(s) == s
  {
    LeadingRunIsSpace(s);
    assert s == s[..LeadingRun(s)] + s[LeadingRun(s)..];
  }

  /** `s.rstrip()`: drops the trailing whitespace. */
  function RStrip(s: string): (r: string)
    ensures |r| <= |s|
    ensures r != [] ==> !IsSpace(r[|r| - 1])
  {
    s[..|s| - TrailingRun(s)]
  }

  /** `s.strip()`: no whitespace at either end, and (`StripFacts`) an infix
      of `s` with only whitespace around it. */
  function Strip(s: string): (r: string)
    ensures |r| <= |s|
    ensures Stripped(r)
  {
    RStrip(LStrip(s))
  }

  /** A text with no whitespace at either end strips to itself. */
  lemma StrippedIsStrip(s: string)
    requires Stripped(s)
    ensures Strip(s) == s
  {
    assert s[0..] == s && s[..|s|] == s;
  }

  /** A word followed by one space strips to the word. */
  lemma StripWordSpace(w: string)
    requires IsWord(w)
    ensures Strip(w + " ") == w
  {
    var s := w + " ";
    assert s[0..] == s;
    assert s[..|w|] == w;
    assert TrailingRun(w) == 0;
  }

  /** Two words run together have no whitespace at either end. */
  lemma WordsJoinStripped(w: string, v: string)
    requires IsWord(w) && IsWord(v)
    ensures Stripped(w + v)
  {
    assert (w + v)[|w + v| - 1] == v[|v| - 1];
  }

  /** `s` is `r` at offset `k`, with only whitespace before and after it. */
  predicate StripsTo(s: string, k: nat, r: string) {
    && k + |r| <= |s|
    && s[k..k + |r|] == r
    && (forall j :: 0 <= j < k ==> IsSpace(s[j]))
    && (forall j :: k + |r| <= j < |s| ==> IsSpace(s[j]))
  }

  lemma StripFacts(s: string)
    ensures exists k :: 0 <= k <= |s| - |Strip(s)| && StripsTo(s, k, Strip(s))
  {
    var k := LeadingRun(s);
    var l := LStrip(s);
    var r := Strip(s);
    LeadingRunIsSpace(s);
    TrailingRunIsSpace(l);
    assert s[k..k + |r|] == r;
    assert forall j :: k + |r| <= j < |s| ==> s[j] == l[j - k];
    assert StripsTo(s, k, r);
  }

  /** Length of the leading run of non-whitespace characters. */
  function WordLength(s: string): (k: nat)
    ensures k <= |s|
    ensures NoSpace(s[..k])
    ensures k < |s| ==> IsSpace(s[k])
  {
    if s == [] || IsSpace(s[0]) then 0
    else
      var k := 1 + WordLength(s[1..]);
      assert s[..k] == [s[0]] + s[1..][..k - 1];
      k
  }

  /** A word as `split()` returns it: non-empty and free of whitespace. */
  predicate IsWord(w: string) {
    w != [] && NoSpace(w)
  }

  /** `s.split()`: the maximal runs of non-whitespace characters, in order. */
  function SplitWords(s: string): (ws: seq<string>)
    ensures forall i :: 0 <= i < |ws| ==> IsWord(ws[i])
    decreases |s|
  {
    var t := LStrip(s);
    if t == [] then []
    else
      var k := WordLength(t);
      [t[..k]] + SplitWords(t[k..])
  }

  /** `" ".join(ws)`. */
  function JoinWords(ws: seq<string>): string {
    if ws == [] then []
    else if |ws| == 1 then ws[0]
    else ws[0] + " " + JoinWords(ws[1..])
  }

  lemma {:induction false} WordLengthOfWord(w: string, rest: string)
    requires IsWord(w)
    requires rest == [] || IsSpace(rest[0])
    ensures WordLength(w + rest) == |w|
    decreases |w|
  {
    var s := w + rest;
    assert s[0] == w[0];
    if |w| > 1 {
      assert s[1..] == w[1..] + rest;
      assert IsWord(w[1..]) by {
        forall i | 0 <= i < |w| - 1 ensures !IsSpace(w[1..][i]) {
          assert w[1..][i] == w[i + 1];
        }
      }
      WordLengthOfWord(w[1..], rest);
    } else {
      assert s[1..] == rest;
      assert WordLength(rest) == 0;
    }
  }

  /** `split()` undoes `" ".join(...)` on a list of words. */
  lemma {:induction false} SplitJoin(ws: seq<string>)
    requires forall i :: 0 <= i < |ws| ==> IsWord(ws[i])
    ensures SplitWords(JoinWords(ws)) == ws
    decreases |ws|
  {
    if ws == [] {
    } else if |ws| == 1 {
      var w := ws[0];
      assert LStrip(w) == w;
      WordLengthOfWord(w, []);
      assert w + [] == w;
      assert w[|w|..] == [];
    } else {
      var w := ws[0];
      var tail := JoinWords(ws[1..]);
      var s := w + " " + tail;
      assert LStrip(s) == s;
      WordLengthOfWord(w, " " + tail);
      assert s == w + (" " + tail);
      assert s[|w|..] == " " + tail;
      SplitJoin(ws[1..]);
      assert SplitWords(s[|w|..]) == SplitWords(tail) by {
        SplitFromSpace(tail);
      }
    }
  }

  lemma SplitFromSpace(tail: string)
    ensures SplitWords(" " + tail) == SplitWords(tail)
  {
    var s := " " + tail;
    assert s[1..] == tail;
    assert LeadingRun(s) == 1 + LeadingRun(tail);
    assert s[1 + LeadingRun(tail)..] == tail[LeadingRun(tail)..];
  }
}
