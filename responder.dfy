/**
 * Sentence segmentation of a streamed reply (src/responder.py):
 * `segment_text_by_regex` and the fold over the reply stream that pushes each
 * complete sentence to the synthesizer as soon as it is available.
 */
module Sentences {
  import opened Text
  import opened Options
  import opened Seqs

  const EndPunctuations: seq<string> := [".", "!", "?", "。", "！", "？", "...", "。。。"]

  const Abbreviations: seq<string> :=
    ["Mr.", "Mrs.", "Dr.", "Prof.", "Inc.", "Ltd.", "Jr.", "Sr.", "e.g.", "i.e.", "vs.", "St.", "Rd."]

  /** The pattern puts the escaped entries of `EndPunctuations`, joined by `|`,
      inside one character class, so it matches any single character of any
      entry, or the `|` that joins them. */
  function PatternClass(): set<char> {
    (set p, c | p in EndPunctuations && c in p :: c) + {'|'}
  }

  lemma PatternClassChars()
    ensures PatternClass() == {'.', '|', '!', '?', '。', '！', '？'}
  {
    var cls := set p, c | p in EndPunctuations && c in p :: c;
    assert "." in EndPunctuations && '.' in ".";
    assert "!" in EndPunctuations && '!' in "!";
    assert "?" in EndPunctuations && '?' in "?";
    assert "。" in EndPunctuations && '。' in "。";
    assert "！" in EndPunctuations && '！' in "！";
    assert "？" in EndPunctuations && '？' in "？";
    forall c | c in cls ensures c in {'.', '!', '?', '。', '！', '？'} {
      var p :| p in EndPunctuations && c in p;
    }
  }

  /** A character the pattern's class matches. */
  predicate IsTerminator(c: char) {
    c in {'.', '|', '!', '?', '。', '！', '？'}
  }

  predicate NoTerminator(s: string) {
    forall i :: 0 <= i < |s| ==> !IsTerminator(s[i])
  }

  /** The end of the shortest match of `.*?[class]` that starts at `p`:
      the lazy `.*?` takes one more character only when the class does not
      match here, and never takes a newline. */
  function MatchFrom(s: string, p: nat): Option<nat>
    requires p <= |s|
    decreases |s| - p
  {
    if p == |s| then None
    else if IsTerminator(s[p]) then Some(p + 1)
    else if s[p] == '\n' then None
    else MatchFrom(s, p + 1)
  }

  /** `re.search(pattern, s)`, starting at `p`: the first start position at
      which the pattern matches wins; the result is the end of that match. */
  function Search(s: string, p: nat): Option<nat>
    requires p <= |s|
    decreases |s| - p
  {
    match MatchFrom(s, p)
    case Some(e) => Some(e)
    case None => if p == |s| then None else Search(s, p + 1)
  }

  /** Index of the first terminator in `s`, if there is one. */
  function FirstTerminator(s: string, p: nat): (r: Option<nat>)
    requires p <= |s|
    ensures r.Some? ==> p <= r.value < |s| && IsTerminator(s[r.value])
    ensures r.Some? ==> forall j :: p <= j < r.value ==> !IsTerminator(s[j])
    ensures r.None? ==> forall j :: p <= j < |s| ==> !IsTerminator(s[j])
    decreases |s| - p
  {
    if p == |s| then None
    else if IsTerminator(s[p]) then Some(p)
    else FirstTerminator(s, p + 1)
  }

  lemma {:induction false} MatchFromFirst(s: string, p: nat)
    requires p <= |s|
    ensures match FirstTerminator(s, p)
      case None => MatchFrom(s, p).None?
      case Some(e) => MatchFrom(s, p) == (if '\n' in s[p..e] then None else Some(e + 1))
    decreases |s| - p
  {
    if p < |s| && !IsTerminator(s[p]) {
      MatchFromFirst(s, p + 1);
      match FirstTerminator(s, p)
      case None =>
      case Some(e) =>
        assert s[p..e] == [s[p]] + s[p + 1..e];
    }
  }

  /** Although `.` never crosses a newline, the match that `re.search` finds
      always ends just after the first terminator of the whole text, because
      the match is sliced from the start of the text: a newline before the
      first terminator only moves the match's start. */
  lemma {:induction false} SearchEndsAtFirstTerminator(s: string, p: nat)
    requires p <= |s|
    ensures Search(s, p) == match FirstTerminator(s, p)
      case None => None
      case Some(e) => Some(e + 1)
    decreases |s| - p
  {
    MatchFromFirst(s, p);
    match FirstTerminator(s, p)
    case None =>
      if p < |s| {
        SearchEndsAtFirstTerminator(s, p + 1);
      }
    case Some(e) =>
      if '\n' in s[p..e] {
        assert p < e && FirstTerminator(s, p + 1) == Some(e);
        SearchEndsAtFirstTerminator(s, p + 1);
      }
  }

  /** `any(s.endswith(a) for a in suffixes)`. */
  predicate EndsWithAny(s: string, suffixes: seq<string>)
    decreases |suffixes|
  {
    suffixes != [] && (EndsWith(s, suffixes[0]) || EndsWithAny(s, suffixes[1..]))
  }

  predicate EndsWithAbbreviation(s: string) {
    EndsWithAny(s, Abbreviations)
  }

  /** One cut of the loop: the stripped text up to and including the first
      terminator, and the whitespace skipped after it. */
  datatype Cut = Cut(fragment: string, gap: string)

  /** What the loop leaves: every cut made, in order, and the text it stops on. */
  datatype Scanned = Scanned(cuts: seq<Cut>, remainder: string)

  /** The loop of `segment_text_by_regex`, run from `rt` as `remaining_text`.
      Each turn cuts just after the first terminator, which is where the
      pattern's match ends (`SearchEndsAtFirstTerminator`). */
  function Scan(rt: string): Scanned
    decreases |rt|
  {
    match FirstTerminator(rt, 0)
    case None => Scanned([], rt)
    case Some(t) =>
      var rest := LStrip(rt[t + 1..]);
      var s := Scan(rest);
      Scanned([Cut(Strip(rt[..t + 1]), LeadingSpace(rt[t + 1..]))] + s.cuts, s.remainder)
  }

  /** The fragments that are kept as sentences: those not ending in an abbreviation, in order. */
  function Kept(cuts: seq<Cut>): seq<string> {
    if cuts == [] then []
    else if EndsWithAbbreviation(cuts[0].fragment) then Kept(cuts[1..])
    else [cuts[0].fragment] + Kept(cuts[1..])
  }

  /** The cuts laid back end to end, gaps included. */
  function Glue(cuts: seq<Cut>): string {
    if cuts == [] then [] else cuts[0].fragment + cuts[0].gap + Glue(cuts[1..])
  }

  datatype Segmented = Segmented(sentences: seq<string>, remainder: string)

  /** `segment_text_by_regex(text)`. */
  function Segment(text: string): Segmented {
    if text == [] then Segmented([], [])
    else
      var sc := Scan(Strip(text));
      Segmented(Kept(sc.cuts), sc.remainder)
  }

  /** A complete sentence: non-empty, no surrounding whitespace, and ending
      with its only terminator. */
  predicate IsSentence(s: string) {
    && s != []
    && Stripped(s)
    && IsTerminator(s[|s| - 1])
    && NoTerminator(s[..|s| - 1])
  }

  /** Stripping a text whose only terminator is its last character leaves a
      sentence, and changes nothing when the text starts with a non-space. */
  lemma StripToSentence(x: string)
    requires x != [] && IsTerminator(x[|x| - 1]) && NoTerminator(x[..|x| - 1])
    ensures IsSentence(Strip(x))
    ensures !IsSpace(x[0]) ==> Strip(x) == x
  {
    var r := Strip(x);
    StripFacts(x);
    var k :| 0 <= k <= |x| - |r| && StripsTo(x, k, r);
    assert !IsSpace(x[|x| - 1]);
    assert k + |r| == |x|;
    assert r != [];
    assert r[|r| - 1] == x[|x| - 1];
    forall j | 0 <= j < |r| - 1 ensures !IsTerminator(r[j]) {
      assert r[j] == x[k + j] == x[..|x| - 1][k + j];
    }
    if !IsSpace(x[0]) {
      assert k == 0;
    }
  }

  lemma StripNoTerminator(x: string)
    requires NoTerminator(x)
    ensures NoTerminator(Strip(x))
  {
    var r := Strip(x);
    StripFacts(x);
    var k :| 0 <= k <= |x| - |r| && StripsTo(x, k, r);
    forall j | 0 <= j < |r| ensures !IsTerminator(r[j]) {
      assert r[j] == x[k + j];
    }
  }

  /** The text up to and including the first terminator strips to a sentence. */
  lemma FirstCut(rt: string, t: nat)
    requires FirstTerminator(rt, 0) == Some(t)
    ensures IsSentence(Strip(rt[..t + 1]))
    ensures !IsSpace(rt[0]) ==> Strip(rt[..t + 1]) == rt[..t + 1]
  {
    var x := rt[..t + 1];
    forall j | 0 <= j < t ensures !IsTerminator(x[..t][j]) {
      assert x[..t][j] == rt[j];
    }
    StripToSentence(x);
  }

  /** One turn of the loop, for a text with a terminator at `t`. */
  lemma ScanStep(rt: string, t: nat)
    requires FirstTerminator(rt, 0) == Some(t)
    ensures Scan(rt).cuts == [Cut(Strip(rt[..t + 1]), LeadingSpace(rt[t + 1..]))] + Scan(LStrip(rt[t + 1..])).cuts
    ensures Scan(rt).remainder == Scan(LStrip(rt[t + 1..])).remainder
  {
  }

  /** The loop stops at once on a text without a terminator. */
  lemma ScanStop(rt: string)
    requires FirstTerminator(rt, 0).None?
    ensures Scan(rt) == Scanned([], rt)
  {
  }

  /** Every fragment is a sentence and every gap is whitespace. */
  predicate WellCut(cuts: seq<Cut>)
    decreases |cuts|
  {
    cuts == [] || (IsSentence(cuts[0].fragment) && AllSpace(cuts[0].gap) && WellCut(cuts[1..]))
  }

  /** Every fragment the loop cuts is a sentence, and every gap it skips is
      whitespace. */
  lemma {:induction false} ScanWellCut(rt: string)
    ensures WellCut(Scan(rt).cuts)
    decreases |rt|
  {
    match FirstTerminator(rt, 0)
    case None =>
      ScanStop(rt);
    case Some(t) =>
      var rest := LStrip(rt[t + 1..]);
      var c := Cut(Strip(rt[..t + 1]), LeadingSpace(rt[t + 1..]));
      ScanStep(rt, t);
      FirstCut(rt, t);
      LStripFacts(rt[t + 1..]);
      ScanWellCut(rest);
      assert ([c] + Scan(rest).cuts)[1..] == Scan(rest).cuts;
  }

  lemma {:induction false} WellCutAt(cuts: seq<Cut>, i: nat)
    requires WellCut(cuts) && i < |cuts|
    ensures IsSentence(cuts[i].fragment) && AllSpace(cuts[i].gap)
    decreases i
  {
    if i > 0 {
      WellCutAt(cuts[1..], i - 1);
    }
  }

  /** The `i`-th fragment the loop cuts is a sentence, and the `i`-th gap it
      skips is whitespace. */
  lemma ScanCut(rt: string, i: nat)
    requires i < |Scan(rt).cuts|
    ensures IsSentence(Scan(rt).cuts[i].fragment) && AllSpace(Scan(rt).cuts[i].gap)
  {
    ScanWellCut(rt);
    WellCutAt(Scan(rt).cuts, i);
  }

  /** The loop stops on a text with no terminator, and that text ends the input. */
  lemma {:induction false} ScanRemainder(rt: string)
    ensures NoTerminator(Scan(rt).remainder) && IsSuffix(Scan(rt).remainder, rt)
    decreases |rt|
  {
    match FirstTerminator(rt, 0)
    case None =>
      ScanStop(rt);
    case Some(t) =>
      var rest := LStrip(rt[t + 1..]);
      ScanStep(rt, t);
      ScanRemainder(rest);
      assert IsSuffix(rt[t + 1..], rt);
      LStripFacts(rt[t + 1..]);
      SuffixTransitive(rest, rt[t + 1..], rt);
      SuffixTransitive(Scan(rest).remainder, rest, rt);
  }

  lemma GlueCons(c: Cut, cuts: seq<Cut>)
    ensures Glue([c] + cuts) == c.fragment + c.gap + Glue(cuts)
  {
    assert ([c] + cuts)[1..] == cuts;
  }

  /** One turn of the loop, laid back out: the text up to the terminator,
      the whitespace after it, then whatever the rest lays out. */
  lemma GlueStep(rt: string, t: nat)
    requires FirstTerminator(rt, 0) == Some(t)
    requires !IsSpace(rt[0])
    ensures Glue(Scan(rt).cuts) + Scan(rt).remainder
         == rt[..t + 1] + (LeadingSpace(rt[t + 1..]) + (Glue(Scan(LStrip(rt[t + 1..])).cuts) + Scan(LStrip(rt[t + 1..])).remainder))
  {
    var rest := LStrip(rt[t + 1..]);
    var ls := LeadingSpace(rt[t + 1..]);
    var later := Scan(rest);
    ScanStep(rt, t);
    FirstCut(rt, t);
    GlueCons(Cut(rt[..t + 1], ls), later.cuts);
    AppendAssociative(rt[..t + 1], ls, Glue(later.cuts) + later.remainder);
    AppendAssociative(rt[..t + 1] + ls, Glue(later.cuts), later.remainder);
  }

  /** From a text that does not start with whitespace (as the loop keeps it),
      the cuts laid end to end and then the remainder give back the text: the
      fragments appear in text order and only the whitespace between them is
      dropped. */
  lemma {:induction false} ScanGlue(rt: string)
    requires rt == [] || !IsSpace(rt[0])
    ensures rt == Glue(Scan(rt).cuts) + Scan(rt).remainder
    decreases |rt|
  {
    match FirstTerminator(rt, 0)
    case None =>
      ScanStop(rt);
    case Some(t) =>
      var rest := LStrip(rt[t + 1..]);
      GlueStep(rt, t);
      ScanGlue(rest);
      LStripFacts(rt[t + 1..]);
      assert rt == rt[..t + 1] + rt[t + 1..];
  }

  /** The fragments kept are sentences when all fragments are. */
  lemma {:induction false} KeptSentences(cuts: seq<Cut>)
    requires forall i :: 0 <= i < |cuts| ==> IsSentence(cuts[i].fragment)
    ensures forall i :: 0 <= i < |Kept(cuts)| ==> IsSentence(Kept(cuts)[i])
    decreases |cuts|
  {
    if cuts != [] {
      assert forall i :: 0 <= i < |cuts[1..]| ==> cuts[1..][i] == cuts[i + 1];
      KeptSentences(cuts[1..]);
    }
  }

  /** No fragment kept ends with an abbreviation. */
  lemma {:induction false} KeptNoAbbreviation(cuts: seq<Cut>)
    ensures forall i :: 0 <= i < |Kept(cuts)| ==> !EndsWithAbbreviation(Kept(cuts)[i])
    decreases |cuts|
  {
    if cuts != [] {
      KeptNoAbbreviation(cuts[1..]);
    }
  }

  /** What `segment_text_by_regex` returns: nothing for empty input; otherwise
      sentences that are non-empty, stripped, end with their only terminator
      and never with an abbreviation, and a remainder with no terminator that
      ends the stripped text. */
  lemma SegmentFacts(text: string)
    ensures var r := Segment(text);
      && (text == [] ==> r.sentences == [] && r.remainder == [])
      && (forall i :: 0 <= i < |r.sentences| ==> IsSentence(r.sentences[i]) && !EndsWithAbbreviation(r.sentences[i]))
      && NoTerminator(r.remainder)
      && IsSuffix(r.remainder, Strip(text))
  {
    if text != [] {
      forall i | 0 <= i < |Scan(Strip(text)).cuts|
        ensures IsSentence(Scan(Strip(text)).cuts[i].fragment)
      {
        ScanCut(Strip(text), i);
      }
      KeptSentences(Scan(Strip(text)).cuts);
      KeptNoAbbreviation(Scan(Strip(text)).cuts);
      ScanRemainder(Strip(text));
    }
  }

  lemma KeptCons(c: Cut, cuts: seq<Cut>)
    ensures Kept([c] + cuts) == (if EndsWithAbbreviation(c.fragment) then [] else [c.fragment]) + Kept(cuts)
  {
    assert ([c] + cuts)[1..] == cuts;
  }

  /** One turn of the loop, seen through `Kept`: the cut fragment is kept
      unless it ends with an abbreviation, and the rest is scanned on. */
  lemma KeptStep(rt: string, e: nat)
    requires 0 < e && FirstTerminator(rt, 0) == Some(e - 1)
    ensures var f := Strip(rt[..e]);
      Kept(Scan(rt).cuts) == (if EndsWithAbbreviation(f) then [] else [f]) + Kept(Scan(LStrip(rt[e..])).cuts)
    ensures Scan(rt).remainder == Scan(LStrip(rt[e..])).remainder
  {
    ScanStep(rt, e - 1);
    KeptCons(Cut(Strip(rt[..e]), LeadingSpace(rt[e..])), Scan(LStrip(rt[e..])).cuts);
  }

  /** `segment_text_by_regex` as the source runs it. */
  method SegmentText(text: string) returns (sentences: seq<string>, remainder: string)
    ensures Segmented(sentences, remainder) == Segment(text)
  {
    if text == [] {
      return [], [];
    }
    sentences := [];
    var remaining := Strip(text);
    ghost var goal := Scan(remaining);
    while remaining != []
      invariant sentences + Kept(Scan(remaining).cuts) == Kept(goal.cuts)
      invariant Scan(remaining).remainder == goal.remainder
      decreases |remaining|
    {
      var found := Search(remaining, 0);
      SearchEndsAtFirstTerminator(remaining, 0);
      if found.None? {
        break;
      }
      var endPos := found.value;
      var potential := Strip(remaining[..endPos]);
      KeptStep(remaining, endPos);
      ghost var later := Kept(Scan(LStrip(remaining[endPos..])).cuts);
      if EndsWithAbbreviation(potential) {
        assert [] + later == later;
        remaining := LStrip(remaining[endPos..]);
        continue;
      }
      AppendAssociative(sentences, [potential], later);
      sentences := sentences + [potential];
      remaining := LStrip(remaining[endPos..]);
    }
    ScanStop(remaining);
    remainder := remaining;
  }

  datatype Streamed = Streamed(sentences: seq<string>, buffer: string)

  /** The `for` loop over the reply stream: each text joins the carried buffer,
      the complete sentences are pushed, and the remainder is carried on. The
      loop stops at the first text seen while the user is speaking. */
  function StreamFold(buffer: string, texts: seq<string>, speaking: seq<bool>): Streamed
    requires |speaking| == |texts|
    decreases |texts|
  {
    if texts == [] || speaking[0] then Streamed([], buffer)
    else
      var seg := Segment(buffer + texts[0]);
      var r := StreamFold(seg.remainder, texts[1..], speaking[1..]);
      Streamed(NonEmpty(seg.sentences) + r.sentences, r.buffer)
  }

  /** The sentences that pass the `if sentence:` guard, in order. */
  function NonEmpty(ss: seq<string>): seq<string> {
    if ss == [] then []
    else NonEmpty(ss[..|ss| - 1]) + (if ss[|ss| - 1] != [] then [ss[|ss| - 1]] else [])
  }

  /** The guard never drops anything `segment_text_by_regex` returns, since
      every sentence it returns is non-empty. */
  lemma {:induction false} NonEmptyKeepsAll(ss: seq<string>)
    requires forall i :: 0 <= i < |ss| ==> ss[i] != []
    ensures NonEmpty(ss) == ss
  {
    if ss != [] {
      NonEmptyKeepsAll(ss[..|ss| - 1]);
    }
  }

  /** Everything the stream pushes to the synthesizer: the sentences, then the
      stripped leftover if there is one. */
  function StreamOutput(texts: seq<string>, speaking: seq<bool>): seq<string>
    requires |speaking| == |texts|
  {
    var f := StreamFold("", texts, speaking);
    f.sentences + (if Strip(f.buffer) != [] then [Strip(f.buffer)] else [])
  }

  /** One more text of the stream, taken while the user is silent. */
  lemma StreamStep(buffer: string, texts: seq<string>, speaking: seq<bool>, i: nat)
    requires |speaking| == |texts| && i < |texts| && !speaking[i]
    ensures var seg := Segment(buffer + texts[i]);
      var next := StreamFold(seg.remainder, texts[i + 1..], speaking[i + 1..]);
      StreamFold(buffer, texts[i..], speaking[i..]) == Streamed(NonEmpty(seg.sentences) + next.sentences, next.buffer)
  {
    assert texts[i..][1..] == texts[i + 1..] && speaking[i..][1..] == speaking[i + 1..];
  }

  /** Every sentence the fold pushes is complete and does not end in an abbreviation. */
  lemma {:induction false} StreamFoldSentence(buffer: string, texts: seq<string>, speaking: seq<bool>, j: nat)
    requires |speaking| == |texts|
    requires j < |StreamFold(buffer, texts, speaking).sentences|
    ensures var s := StreamFold(buffer, texts, speaking).sentences[j];
      IsSentence(s) && !EndsWithAbbreviation(s)
    decreases |texts|
  {
    var seg := Segment(buffer + texts[0]);
    var next := StreamFold(seg.remainder, texts[1..], speaking[1..]);
    StreamStep(buffer, texts, speaking, 0);
    SegmentFacts(buffer + texts[0]);
    NonEmptyKeepsAll(seg.sentences);
    if j < |seg.sentences| {
    } else {
      StreamFoldSentence(seg.remainder, texts[1..], speaking[1..], j - |seg.sentences|);
    }
  }

  /** What the fold carries has no terminator. */
  lemma {:induction false} StreamFoldBuffer(buffer: string, texts: seq<string>, speaking: seq<bool>)
    requires |speaking| == |texts|
    requires NoTerminator(buffer)
    ensures NoTerminator(StreamFold(buffer, texts, speaking).buffer)
    decreases |texts|
  {
    if texts != [] && !speaking[0] {
      var seg := Segment(buffer + texts[0]);
      StreamStep(buffer, texts, speaking, 0);
      SegmentFacts(buffer + texts[0]);
      StreamFoldBuffer(seg.remainder, texts[1..], speaking[1..]);
    }
  }

  /** What one reply pushes: every push is non-empty and stripped; all but
      the last are complete sentences that do not end in an abbreviation,
      and the last is one too or the terminator-free leftover. */
  lemma StreamOutputFacts(texts: seq<string>, speaking: seq<bool>)
    requires |speaking| == |texts|
    ensures var out := StreamOutput(texts, speaking);
      && (forall i :: 0 <= i < |out| ==> out[i] != [] && Stripped(out[i]))
      && (forall i :: 0 <= i < |out| - 1 ==> IsSentence(out[i]) && !EndsWithAbbreviation(out[i]))
      && (out != [] ==> IsSentence(out[|out| - 1]) || NoTerminator(out[|out| - 1]))
  {
    var f := StreamFold("", texts, speaking);
    forall j | 0 <= j < |f.sentences| ensures IsSentence(f.sentences[j]) && !EndsWithAbbreviation(f.sentences[j]) {
      StreamFoldSentence("", texts, speaking, j);
    }
    StreamFoldBuffer("", texts, speaking);
    StripNoTerminator(f.buffer);
  }

  lemma NoTerminatorAppend(a: string, b: string)
    requires NoTerminator(a) && NoTerminator(b)
    ensures NoTerminator(a + b)
  {
    forall i | 0 <= i < |a + b| ensures !IsTerminator((a + b)[i]) {
      if i >= |a| {
        assert (a + b)[i] == b[i - |a|];
      }
    }
  }

  /** A text with no terminator cuts nothing and leaves its stripped self. */
  lemma SegmentNoTerminator(text: string)
    requires text != [] && NoTerminator(text)
    ensures Segment(text) == Segmented([], Strip(text))
  {
    StripNoTerminator(text);
    ScanStop(Strip(text));
  }

  /** The carried remainder is stripped, so whitespace that ends a text
      with no terminator is lost: a reply streamed as a word and a space,
      then another word, is pushed as the two words run together (`"Hi "`
      then `"you"` gives `"Hiyou"`). */
  lemma StreamDropsBoundarySpace(w: string, v: string)
    requires IsWord(w) && IsWord(v) && NoTerminator(w) && NoTerminator(v)
    ensures StreamOutput([w + " ", v], [false, false]) == [w + v]
  {
    var texts := [w + " ", v];
    var speaking := [false, false];
    var first := w + " ";
    StripWordSpace(w);
    NoTerminatorAppend(w, " ");
    assert "" + texts[0] == first;
    SegmentNoTerminator(first);
    var joined := w + v;
    NoTerminatorAppend(w, v);
    WordsJoinStripped(w, v);
    StrippedIsStrip(joined);
    SegmentNoTerminator(joined);
    StreamStep("", texts, speaking, 0);
    StreamStep(w, texts[1..], speaking[1..], 0);
    assert texts[1..][1..] == [];
  }

  /** The inner `for sentence in sentences` loop: every non-empty sentence
      goes onto the output queue, in order. */
  method PushSentences(queue: seq<string>, sentences: seq<string>) returns (out: seq<string>)
    ensures out == queue + NonEmpty(sentences)
  {
    out := queue;
    for k := 0 to |sentences|
      invariant out == queue + NonEmpty(sentences[..k])
    {
      assert sentences[..k + 1][..k] == sentences[..k];
      if sentences[k] != [] {
        out := out + [sentences[k]];
      }
    }
    assert sentences[..|sentences|] == sentences;
  }

  /** The stream of one reply, `speaking[i]` being what the speaking flag
      reads when the `i`-th text arrives. */
  method StreamSentences(texts: seq<string>, speaking: seq<bool>) returns (out: seq<string>)
    requires |speaking| == |texts|
    ensures out == StreamOutput(texts, speaking)
  {
    out := [];
    var buffer := "";
    ghost var goal := StreamFold("", texts, speaking);
    var i := 0;
    while i < |texts|
      invariant 0 <= i <= |texts|
      invariant goal.buffer == StreamFold(buffer, texts[i..], speaking[i..]).buffer
      invariant goal.sentences == out + StreamFold(buffer, texts[i..], speaking[i..]).sentences
    {
      if speaking[i] {
        break;
      }
      StreamStep(buffer, texts, speaking, i);
      ghost var next := StreamFold(Segment(buffer + texts[i]).remainder, texts[i + 1..], speaking[i + 1..]);
      ghost var before := out;
      buffer := buffer + texts[i];
      var sentences;
      sentences, buffer := SegmentText(buffer);
      out := PushSentences(out, sentences);
      AppendAssociative(before, NonEmpty(sentences), next.sentences);
      i := i + 1;
    }
    assert StreamFold(buffer, texts[i..], speaking[i..]) == Streamed([], buffer);
    var leftover := Strip(buffer);
    if leftover != [] {
      out := out + [leftover];
    }
  }
}
