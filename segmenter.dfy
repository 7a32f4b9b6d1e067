/**
 * The utterance segmenter (src/segmenter.py): incoming audio chunks are
 * re-framed into fixed-size VAD windows, and a hysteresis state machine over
 * the per-window speech verdicts starts an utterance after three speech
 * windows in a row and emits it after twenty-four silent windows in a row.
 * The VAD network is an oracle from a window to a speech verdict.
 */
module Segmentation {
  import opened Seqs
  import opened Options
  import opened Text

  /** One audio sample; its value never matters to the segmenter. */
  type Sample = real

  type Window = seq<Sample>

  /** Windows kept before speech starts (the pre-roll deque's `maxlen`). */
  const PreSpeechBuffer: nat := 25
  /** Silent windows in a row that end an utterance. */
  const SilenceLimit: nat := 24
  /** Speech windows in a row that start one. */
  const MinSpeechChunks: nat := 3

  /** The VAD window for a sample rate; any rate but 8000 and 16000 is refused. */
  function WindowSize(sampleRate: int): (r: Option<nat>)
    ensures r.Some? <==> sampleRate == 8000 || sampleRate == 16000
    ensures sampleRate == 16000 ==> r == Some(512)
    ensures sampleRate == 8000 ==> r == Some(256)
  {
    if sampleRate != 8000 && sampleRate != 16000 then None
    else Some(if sampleRate == 16000 then 512 else 256)
  }

  function Samples(w: Option<Window>): seq<Sample> {
    if w.Some? then w.value else []
  }

  /** One chunk through the re-framing: the window scored, if any, and the
      samples carried to the next chunk. */
  datatype Framed = Framed(window: Option<Window>, leftover: seq<Sample>)

  /** The leftover joins the chunk in front; a combination shorter than a
      window is carried whole, otherwise its first `size` samples are scored
      and the rest is carried.  No sample is lost or reordered. */
  function Reframe(buffer: seq<Sample>, chunk: seq<Sample>, size: nat): (f: Framed)
    ensures f.window.Some? ==> |f.window.value| == size
    ensures f.window.None? <==> |buffer + chunk| < size
    ensures f.window.None? ==> f.leftover == buffer + chunk
    ensures Samples(f.window) + f.leftover == buffer + chunk
  {
    var audio := buffer + chunk;
    if |audio| < size then Framed(None, audio)
    else
      assert audio == audio[..size] + audio[size..];
      Framed(Some(audio[..size]), audio[size..])
  }

  /** All windows scored over a run of chunks, and the samples left over. */
  datatype Framing = Framing(windows: seq<Window>, leftover: seq<Sample>)

  function ReframeAll(buffer: seq<Sample>, chunks: seq<seq<Sample>>, size: nat): Framing
    decreases |chunks|
  {
    if chunks == [] then Framing([], buffer)
    else
      var f := ReframeAll(buffer, chunks[..|chunks| - 1], size);
      var r := Reframe(f.leftover, chunks[|chunks| - 1], size);
      Framing(f.windows + ToSeq(r.window), r.leftover)
  }

  /** Over any run of chunks, the windows scored followed by the leftover are
      exactly the samples received, in order; every window has the window
      size; and no chunk yields more than one window. */
  lemma {:induction false} ReframeAllConserves(buffer: seq<Sample>, chunks: seq<seq<Sample>>, size: nat)
    ensures var f := ReframeAll(buffer, chunks, size);
      && Flatten(f.windows) + f.leftover == buffer + Flatten(chunks)
      && Uniform(f.windows, size)
      && |f.windows| <= |chunks|
    decreases |chunks|
  {
    if chunks != [] {
      var init := chunks[..|chunks| - 1];
      var last := chunks[|chunks| - 1];
      var f := ReframeAll(buffer, init, size);
      var r := Reframe(f.leftover, last, size);
      var scored := ToSeq(r.window);
      ReframeAllConserves(buffer, init, size);
      FlattenAppend(f.windows, scored);
      FlattenOne(r.window);
      var a := Flatten(f.windows);
      AppendAssociative(a, Samples(r.window), r.leftover);
      AppendAssociative(a, f.leftover, last);
      AppendAssociative(buffer, Flatten(init), last);
      assert Flatten(chunks) == Flatten(init) + last;
      assert Uniform(f.windows + scored, size) by {
        forall i | 0 <= i < |f.windows + scored| ensures |(f.windows + scored)[i]| == size {
          if i >= |f.windows| {
            assert (f.windows + scored)[i] == scored[0];
          }
        }
      }
    }
  }

  lemma FlattenOne(w: Option<Window>)
    ensures Flatten(ToSeq(w)) == Samples(w)
  {
    if w.Some? {
      assert ToSeq(w)[..0] == [];
    }
  }

  /** What the deque `append` keeps: the newest `n` windows of the history. */
  lemma RecentAppend<T>(s: seq<T>, x: T, n: nat)
    ensures Recent(Recent(s, n) + [x], n) == Recent(s + [x], n)
  {
    if |s| > n {
      var r := s[|s| - n..];
      if n > 0 {
        assert (r + [x])[1..] == (s + [x])[|s| + 1 - n..];
      } else {
        assert (r + [x])[1..] == [];
      }
    }
  }

  lemma RecentIsSuffix<T>(s: seq<T>, n: nat)
    ensures IsSuffix(Recent(s, n), s)
  {
  }


  lemma SuffixUniform<T>(a: seq<seq<T>>, b: seq<seq<T>>, size: nat)
    requires IsSuffix(a, b) && Uniform(b, size)
    ensures Uniform(a, size)
  {
    forall i | 0 <= i < |a| ensures |a[i]| == size {
      assert a[i] == b[|b| - |a| + i];
    }
  }

  /** The hysteresis state of `Segmenter.loop`. */
  datatype Detector = Detector(
    preBuffer: seq<Window>,
    currentSpeech: seq<Window>,
    speechSamples: nat,
    silenceSamples: nat,
    recording: bool,
    count: nat,
    speaking: bool)

  const Initial := Detector([], [], 0, 0, false, 0, false)

  /** The hysteresis step after a window and its verdict, and the utterance
      it emits, if any. */
  datatype Observed = Observed(next: Detector, emitted: Option<seq<Sample>>)

  function Observe(d: Detector, w: Window, isSpeech: bool): Observed {
    var pre := Recent(d.preBuffer + [w], PreSpeechBuffer);
    if !d.recording then
      var speech := if isSpeech then d.speechSamples + 1 else 0;
      if speech >= MinSpeechChunks then
        Observed(d.(preBuffer := pre, currentSpeech := pre, speechSamples := speech,
                    silenceSamples := 0, recording := true, speaking := true), None)
      else
        Observed(d.(preBuffer := pre, speechSamples := speech), None)
    else
      var current := d.currentSpeech + [w];
      var silence := if isSpeech then 0 else d.silenceSamples + 1;
      if silence >= SilenceLimit && current != [] then
        Observed(d.(preBuffer := pre, currentSpeech := [], silenceSamples := silence, recording := false,
                    speechSamples := 0, count := d.count + 1, speaking := false), Some(Flatten(current)))
      else
        Observed(d.(preBuffer := pre, currentSpeech := current, silenceSamples := silence), None)
  }

  /** The states the machine can be in: the speaking flag is up exactly while
      recording; idle, nothing is collected and fewer than three speech
      windows have been seen in a row; recording, something is collected and
      fewer than twenty-four silent windows have been seen in a row; the
      pre-roll never exceeds its bound. */
  predicate Consistent(d: Detector) {
    && d.speaking == d.recording
    && (!d.recording ==> d.currentSpeech == [] && d.speechSamples < MinSpeechChunks)
    && (d.recording ==> d.currentSpeech != [] && d.silenceSamples < SilenceLimit)
    && |d.preBuffer| <= PreSpeechBuffer
  }

  lemma InitialConsistent()
    ensures Consistent(Initial)
  {
  }

  /** Every window joins the pre-roll, which keeps the newest 25 windows. */
  lemma ObservePreRoll(d: Detector, w: Window, isSpeech: bool, history: seq<Window>)
    requires d.preBuffer == Recent(history, PreSpeechBuffer)
    ensures Observe(d, w, isSpeech).next.preBuffer == Recent(history + [w], PreSpeechBuffer)
  {
    RecentAppend(history, w, PreSpeechBuffer);
  }

  /** Idle: a speech window raises the speech run by one and a silent window
      resets it to zero; recording starts
      exactly when the run reaches three, with the pre-roll (this window
      included) as the utterance so far, the silence run at zero and the
      speaking flag up.  Nothing is emitted and the count stays. */
  lemma ObserveIdle(d: Detector, w: Window, isSpeech: bool)
    requires Consistent(d) && !d.recording
    ensures var o := Observe(d, w, isSpeech);
      && o.emitted == None
      && o.next.count == d.count
      && o.next.speechSamples == (if isSpeech then d.speechSamples + 1 else 0)
      && (!isSpeech ==> !o.next.recording)
      && (o.next.recording <==> isSpeech && d.speechSamples + 1 == MinSpeechChunks)
      && (o.next.recording ==>
            && o.next.currentSpeech == o.next.preBuffer
            && o.next.currentSpeech != []
            && o.next.currentSpeech[|o.next.currentSpeech| - 1] == w
            && o.next.silenceSamples == 0
            && o.next.speaking)
      && (!o.next.recording ==> o.next.currentSpeech == [] && o.next.speaking == d.speaking)
  {
  }

  /** Recording: every window joins the utterance, a silent window raises the
      silence run by one and a speech window resets it to zero; at the twenty-fourth silent window in a row the whole
      utterance, this window last, is emitted as one block of samples,
      recording stops, the speech run resets, the count goes up by one and
      the speaking flag drops; otherwise nothing is emitted. */
  lemma ObserveRecording(d: Detector, w: Window, isSpeech: bool)
    requires Consistent(d) && d.recording
    ensures var o := Observe(d, w, isSpeech);
      && o.next.silenceSamples == (if isSpeech then 0 else d.silenceSamples + 1)
      && (o.emitted.Some? <==> !isSpeech && d.silenceSamples + 1 == SilenceLimit)
      && (o.emitted.Some? ==>
            && o.emitted.value == Flatten(d.currentSpeech + [w])
            && !o.next.recording && !o.next.speaking
            && o.next.currentSpeech == [] && o.next.speechSamples == 0
            && o.next.count == d.count + 1)
      && (o.emitted.None? ==>
            && o.next.recording && o.next.speaking
            && o.next.currentSpeech == d.currentSpeech + [w]
            && o.next.speechSamples == d.speechSamples
            && o.next.count == d.count)
  {
  }

  lemma ObserveConsistent(d: Detector, w: Window, isSpeech: bool)
    requires Consistent(d)
    ensures Consistent(Observe(d, w, isSpeech).next)
  {
  }

  /** `seg` is a run of consecutive windows of `windows`: the ones that end
      at some position `b`. */
  predicate RunOf(seg: seq<Window>, windows: seq<Window>) {
    exists b :: 0 <= b <= |windows| && IsSuffix(seg, windows[..b])
  }

  lemma RunOfSuffix(seg: seq<Window>, windows: seq<Window>)
    requires IsSuffix(seg, windows)
    ensures RunOf(seg, windows)
  {
    assert windows[..|windows|] == windows;
  }

  /** A run stays a run when more windows arrive. */
  lemma RunOfExtend(seg: seq<Window>, windows: seq<Window>, w: Window)
    requires RunOf(seg, windows)
    ensures RunOf(seg, windows + [w])
  {
    var b :| 0 <= b <= |windows| && IsSuffix(seg, windows[..b]);
    assert (windows + [w])[..b] == windows[..b];
  }

  lemma SuffixSnoc<T>(a: seq<T>, b: seq<T>, x: T)
    requires IsSuffix(a, b)
    ensures IsSuffix(a + [x], b + [x])
  {
    assert (b + [x])[|b| - |a|..] == b[|b| - |a|..] + [x];
  }

  /** The bookkeeping kept beside the machine over windows `windows`,
      utterances `output` (each the samples of the windows in the matching
      entry of `segments`) and `starts` recordings started: the pre-roll
      holds the newest windows, the utterance being collected is made of the
      latest windows, every utterance output is a non-empty run of
      consecutive windows, the count is the number output, and starts and
      emits alternate. */
  predicate Tracks(d: Detector, windows: seq<Window>, output: seq<seq<Sample>>,
                   segments: seq<seq<Window>>, starts: nat, size: nat) {
    && Consistent(d)
    && d.preBuffer == Recent(windows, PreSpeechBuffer)
    && Uniform(d.currentSpeech, size)
    && Uniform(windows, size)
    && d.count == |output| && |segments| == |output|
    && (forall i :: 0 <= i < |segments| ==> output[i] == Flatten(segments[i]) && segments[i] != [])
    && (forall i :: 0 <= i < |segments| ==> Uniform(segments[i], size))
    && (d.recording ==> IsSuffix(d.currentSpeech, windows))
    && (forall i :: 0 <= i < |segments| ==> RunOf(segments[i], windows))
    && starts == d.count + (if d.recording then 1 else 0)
  }

  /** The windows of what a step emits. */
  function EmittedWindows(d: Detector, w: Window, isSpeech: bool): seq<seq<Window>> {
    if Observe(d, w, isSpeech).emitted.Some? then [d.currentSpeech + [w]] else []
  }

  /** Whether a step starts a recording. */
  function Started(d: Detector, w: Window, isSpeech: bool): nat {
    if !d.recording && Observe(d, w, isSpeech).next.recording then 1 else 0
  }

  lemma ObserveTracks(d: Detector, windows: seq<Window>, output: seq<seq<Sample>>,
                      segments: seq<seq<Window>>, starts: nat, size: nat, w: Window, isSpeech: bool)
    requires Tracks(d, windows, output, segments, starts, size) && |w| == size
    ensures var o := Observe(d, w, isSpeech);
      Tracks(o.next, windows + [w], output + ToSeq(o.emitted),
             segments + EmittedWindows(d, w, isSpeech), starts + Started(d, w, isSpeech), size)
  {
    var o := Observe(d, w, isSpeech);
    var ws := windows + [w];
    ObserveConsistent(d, w, isSpeech);
    ObservePreRoll(d, w, isSpeech, windows);
    assert Uniform(ws, size) by {
      forall i | 0 <= i < |ws| ensures |ws[i]| == size {
        if i < |windows| { assert ws[i] == windows[i]; }
      }
    }
    forall i | 0 <= i < |segments| ensures RunOf(segments[i], ws) {
      RunOfExtend(segments[i], windows, w);
    }
    if d.recording {
      ObserveRecording(d, w, isSpeech);
      var cur := d.currentSpeech + [w];
      SuffixSnoc(d.currentSpeech, windows, w);
      assert Uniform(cur, size) by {
        forall i | 0 <= i < |cur| ensures |cur[i]| == size {
          if i < |d.currentSpeech| { assert cur[i] == d.currentSpeech[i]; }
        }
      }
      if o.emitted.Some? {
        var segs := segments + [cur];
        var outs := output + [Flatten(cur)];
        RunOfSuffix(cur, ws);
        forall i | 0 <= i < |segs|
          ensures outs[i] == Flatten(segs[i]) && segs[i] != [] && Uniform(segs[i], size) && RunOf(segs[i], ws)
        {
          if i < |segments| { assert segs[i] == segments[i] && outs[i] == output[i]; }
        }
      }
    } else {
      ObserveIdle(d, w, isSpeech);
      if o.next.recording {
        RecentIsSuffix(ws, PreSpeechBuffer);
        SuffixUniform(o.next.currentSpeech, ws, size);
      }
    }
  }

  /** The windows scored so far, each judged by `vad`, folded through the
      machine: the final state, the utterances emitted in order, the windows
      of each, and the number of recordings started. */
  datatype Run = Run(last: Detector, emitted: seq<seq<Sample>>, segments: seq<seq<Window>>, starts: nat)

  function ObserveAll(d: Detector, ws: seq<Window>, vad: Window -> bool): Run
    decreases |ws|
  {
    if ws == [] then Run(d, [], [], 0)
    else
      var r := ObserveAll(d, ws[..|ws| - 1], vad);
      var w := ws[|ws| - 1];
      var o := Observe(r.last, w, vad(w));
      Run(o.next, r.emitted + ToSeq(o.emitted), r.segments + EmittedWindows(r.last, w, vad(w)),
          r.starts + Started(r.last, w, vad(w)))
  }

  lemma ObserveAllStep(d: Detector, ws: seq<Window>, w: Window, vad: Window -> bool)
    ensures var r := ObserveAll(d, ws, vad);
      var o := Observe(r.last, w, vad(w));
      ObserveAll(d, ws + [w], vad)
        == Run(o.next, r.emitted + ToSeq(o.emitted), r.segments + EmittedWindows(r.last, w, vad(w)),
               r.starts + Started(r.last, w, vad(w)))
  {
    assert (ws + [w])[..|ws|] == ws;
  }

  /** From the idle start, over windows of one size: the state stays
      consistent, the pre-roll holds the newest 25 windows, the count equals
      the number of utterances emitted, every utterance is the samples of a
      non-empty run of consecutive windows scored, the one being collected is
      made of the latest windows, and starts and emits alternate (there is at most one
      start more than there are emits, exactly while recording). */
  lemma {:induction false} ObserveAllTracks(ws: seq<Window>, vad: Window -> bool, size: nat)
    requires Uniform(ws, size)
    ensures var r := ObserveAll(Initial, ws, vad);
      Tracks(r.last, ws, r.emitted, r.segments, r.starts, size)
    decreases |ws|
  {
    if ws != [] {
      var init := ws[..|ws| - 1];
      var w := ws[|ws| - 1];
      UniformInit(ws, size);
      ObserveAllTracks(init, vad, size);
      ObserveAllTracksStep(init, w, vad, size);
      assert init + [w] == ws;
    }
  }

  lemma UniformInit(ws: seq<Window>, size: nat)
    requires Uniform(ws, size) && ws != []
    ensures Uniform(ws[..|ws| - 1], size) && |ws[|ws| - 1]| == size
  {
    var init := ws[..|ws| - 1];
    forall i | 0 <= i < |init| ensures |init[i]| == size {
      assert init[i] == ws[i];
    }
  }

  lemma ObserveAllTracksStep(ws: seq<Window>, w: Window, vad: Window -> bool, size: nat)
    requires |w| == size
    requires var r := ObserveAll(Initial, ws, vad);
      Tracks(r.last, ws, r.emitted, r.segments, r.starts, size)
    ensures var r := ObserveAll(Initial, ws + [w], vad);
      Tracks(r.last, ws + [w], r.emitted, r.segments, r.starts, size)
  {
    ObserveAllStep(Initial, ws, w, vad);
    var r := ObserveAll(Initial, ws, vad);
    ObserveTracks(r.last, ws, r.emitted, r.segments, r.starts, size, w, vad(w));
  }

  /** How many of the last windows in a row `vad` judged `verdict`. */
  function TrailingRun(ws: seq<Window>, vad: Window -> bool, verdict: bool): nat
    decreases |ws|
  {
    if ws == [] || vad(ws[|ws| - 1]) != verdict then 0
    else TrailingRun(ws[..|ws| - 1], vad, verdict) + 1
  }

  /** The last `k` windows all have verdict `verdict`. */
  predicate EndsWithRun(ws: seq<Window>, vad: Window -> bool, verdict: bool, k: nat) {
    k <= |ws| && forall i :: |ws| - k <= i < |ws| ==> vad(ws[i]) == verdict
  }

  /** The run counted by `TrailingRun` is exactly the longest run of equal
      verdicts at the end. */
  lemma {:induction false} TrailingRunAtLeast(ws: seq<Window>, vad: Window -> bool, verdict: bool, k: nat)
    ensures TrailingRun(ws, vad, verdict) >= k <==> EndsWithRun(ws, vad, verdict, k)
    decreases |ws|
  {
    if k != 0 && ws != [] && vad(ws[|ws| - 1]) == verdict {
      var init := ws[..|ws| - 1];
      TrailingRunAtLeast(init, vad, verdict, k - 1);
      if EndsWithRun(init, vad, verdict, k - 1) {
        forall i | |ws| - k <= i < |ws| ensures vad(ws[i]) == verdict {
          if i < |ws| - 1 { assert ws[i] == init[i]; }
        }
      }
      if EndsWithRun(ws, vad, verdict, k) {
        forall i | |init| - (k - 1) <= i < |init| ensures vad(init[i]) == verdict {
          assert init[i] == ws[i];
        }
      }
    } else if k != 0 && ws != [] {
      assert !EndsWithRun(ws, vad, verdict, k) by {
        assert vad(ws[|ws| - 1]) != verdict;
      }
    }
  }

  /** What the counters count: while idle, the speech counter is the number
      of speech windows in a row at the end; while recording, the silence
      counter is the number of silent windows in a row at the end. */
  predicate Counted(d: Detector, ws: seq<Window>, vad: Window -> bool) {
    && (!d.recording ==> d.speechSamples == TrailingRun(ws, vad, true))
    && (d.recording ==> d.silenceSamples == TrailingRun(ws, vad, false))
  }

  lemma ObserveCounted(d: Detector, ws: seq<Window>, w: Window, vad: Window -> bool)
    requires Counted(d, ws, vad)
    ensures Counted(Observe(d, w, vad(w)).next, ws + [w], vad)
  {
    assert (ws + [w])[..|ws|] == ws;
  }

  /** From the idle start the state is consistent and the counters count
      the trailing runs of verdicts. */
  lemma {:induction false} ObserveAllCounted(ws: seq<Window>, vad: Window -> bool)
    ensures var r := ObserveAll(Initial, ws, vad);
      Consistent(r.last) && Counted(r.last, ws, vad)
    decreases |ws|
  {
    if ws != [] {
      var init := ws[..|ws| - 1];
      var w := ws[|ws| - 1];
      ObserveAllCounted(init, vad);
      ObserveAllStep(Initial, init, w, vad);
      var r := ObserveAll(Initial, init, vad);
      ObserveConsistent(r.last, w, vad(w));
      ObserveCounted(r.last, init, w, vad);
      assert init + [w] == ws;
    }
  }

  /** The hysteresis over the windows scored: from the idle start, an idle
      step starts recording exactly when it ends a run of three speech
      windows in a row, and a recording step emits the utterance exactly
      when it ends a run of twenty-four silent windows in a row. */
  lemma ObserveAllHysteresis(ws: seq<Window>, w: Window, vad: Window -> bool)
    ensures var r := ObserveAll(Initial, ws, vad);
      var o := Observe(r.last, w, vad(w));
      && (!r.last.recording ==>
            (o.next.recording <==> EndsWithRun(ws + [w], vad, true, MinSpeechChunks)))
      && (r.last.recording ==>
            (o.emitted.Some? <==> EndsWithRun(ws + [w], vad, false, SilenceLimit)))
  {
    var r := ObserveAll(Initial, ws, vad);
    ObserveAllCounted(ws, vad);
    assert (ws + [w])[..|ws|] == ws;
    if r.last.recording {
      ObserveRecording(r.last, w, vad(w));
      TrailingRunAtLeast(ws + [w], vad, false, SilenceLimit);
    } else {
      ObserveIdle(r.last, w, vad(w));
      TrailingRunAtLeast(ws + [w], vad, true, MinSpeechChunks);
    }
  }

  /** The pre-roll is never cleared on an emit: the window that ended one
      utterance is still in the pre-roll when the next one starts three
      speech windows later, so the next utterance opens with the tail of the
      previous one. */
  lemma PreRollOverlap(d: Detector, w0: Window, w1: Window, w2: Window, w3: Window)
    requires Consistent(d) && d.recording && d.silenceSamples + 1 == SilenceLimit
    ensures var o0 := Observe(d, w0, false);
      var o1 := Observe(o0.next, w1, true);
      var o2 := Observe(o1.next, w2, true);
      var o3 := Observe(o2.next, w3, true);
      && o0.emitted == Some(Flatten(d.currentSpeech + [w0]))
      && o3.next.recording
      && w0 in o3.next.currentSpeech
  {
    var o0 := Observe(d, w0, false);
    var p0 := o0.next.preBuffer;
    assert p0 != [] && p0[|p0| - 1] == w0;
    var p1 := Observe(o0.next, w1, true).next.preBuffer;
    assert p1[|p1| - 2] == w0;
    var p2 := Observe(Observe(o0.next, w1, true).next, w2, true).next.preBuffer;
    assert p2[|p2| - 3] == w0;
    var p3 := Recent(p2 + [w3], PreSpeechBuffer);
    assert p3[|p3| - 4] == w0;
  }

  class Segmenter {
    const sampleRate: int
    const windowSize: nat
    /** The VAD model: the speech verdict `prob > 0.4` on a window. */
    const vad: Window -> bool
    /** The leftover samples (Python's `None` is the empty buffer). */
    var buffer: seq<Sample>
    var preBuffer: seq<Window>
    var currentSpeech: seq<Window>
    var speechSamples: nat
    var silenceSamples: nat
    var recording: bool
    var count: nat
    var speaking: bool
    /** The utterances put on the output queue, in order. */
    var output: seq<seq<Sample>>
    /** Every sample received and every window scored. */
    ghost var received: seq<Sample>
    ghost var windows: seq<Window>

    function State(): Detector
      reads this
    {
      Detector(preBuffer, currentSpeech, speechSamples, silenceSamples, recording, count, speaking)
    }

    /** The windows scored, then the leftover, are the samples received; every
        window has the window size; and the machine's fields and the output
        queue are what the windows scored so far, judged by the VAD, drive the
        machine to from the idle start (`ObserveAllTracks` says what holds of
        that). */
    ghost predicate Valid()
      reads this
    {
      && WindowSize(sampleRate) == Some(windowSize)
      && Flatten(windows) + buffer == received
      && Uniform(windows, windowSize)
      && State() == ObserveAll(Initial, windows, vad).last
      && output == ObserveAll(Initial, windows, vad).emitted
    }

    constructor (sampleRate: int, vad: Window -> bool)
      requires WindowSize(sampleRate).Some?
      ensures Valid()
      ensures this.sampleRate == sampleRate && windowSize == WindowSize(sampleRate).value && this.vad == vad
      ensures buffer == [] && State() == Initial && output == []
      ensures received == [] && windows == []
    {
      this.sampleRate := sampleRate;
      windowSize := if sampleRate == 16000 then 512 else 256;
      this.vad := vad;
      preBuffer := [];
      currentSpeech := [];
      speechSamples := 0;
      silenceSamples := 0;
      recording := false;
      count := 0;
      speaking := false;
      buffer := [];
      output := [];
      received := [];
      windows := [];
    }

    /** `Segmenter(...)`: refuses a sample rate other than 8000 or 16000. */
    static method Create(sampleRate: int, vad: Window -> bool) returns (s: Option<Segmenter>)
      ensures s.None? <==> WindowSize(sampleRate).None?
      ensures s.Some? ==>
        && fresh(s.value) && s.value.Valid() && s.value.sampleRate == sampleRate && s.value.vad == vad
        && s.value.State() == Initial && s.value.buffer == [] && s.value.output == []
    {
      if sampleRate != 8000 && sampleRate != 16000 {
        return None;
      }
      var seg := new Segmenter(sampleRate, vad);
      return Some(seg);
    }

    /** One pass of `loop` over a received chunk. */
    method ProcessChunk(chunk: seq<Sample>)
      requires Valid()
      modifies this
      ensures Valid()
      ensures received == old(received) + chunk
      ensures buffer == Reframe(old(buffer), chunk, windowSize).leftover
      ensures windows == old(windows) + ToSeq(Reframe(old(buffer), chunk, windowSize).window)
      ensures Reframe(old(buffer), chunk, windowSize).window.None? ==>
        State() == old(State()) && output == old(output)
      ensures Reframe(old(buffer), chunk, windowSize).window.Some? ==>
        var w := Reframe(old(buffer), chunk, windowSize).window.value;
        var o := Observe(old(State()), w, vad(w));
        State() == o.next && output == old(output) + ToSeq(o.emitted)
    {
      ghost var f := Reframe(buffer, chunk, windowSize);
      AppendAssociative(Flatten(windows), buffer, chunk);
      var audio := buffer + chunk;
      buffer := [];
      received := received + chunk;
      if |audio| < windowSize {
        buffer := audio;
        assert f == Framed(None, audio);
        return;
      }
      assert audio == audio[..windowSize] + audio[windowSize..];
      if |audio| > windowSize {
        buffer := audio[windowSize..];
        audio := audio[..windowSize];
      } else {
        assert audio[..windowSize] == audio;
      }
      assert f == Framed(Some(audio), buffer);
      var isSpeech := vad(audio);
      FlattenAppend(windows, [audio]);
      assert [audio][..0] == [];
      AppendAssociative(Flatten(windows), audio, buffer);
      assert Uniform(windows + [audio], windowSize) by {
        forall i | 0 <= i < |windows| + 1 ensures |(windows + [audio])[i]| == windowSize {
          if i < |windows| { assert (windows + [audio])[i] == windows[i]; }
        }
      }
      ObserveAllStep(Initial, windows, audio, vad);
      Hear(audio, isSpeech);
    }

    /** The hysteresis part of `loop` for one scored window. */
    method Hear(window: Window, isSpeech: bool)
      modifies this`windows, this`preBuffer, this`currentSpeech, this`speechSamples,
        this`silenceSamples, this`recording, this`count, this`speaking, this`output
      ensures windows == old(windows) + [window]
      ensures var o := Observe(old(State()), window, isSpeech);
        State() == o.next && output == old(output) + ToSeq(o.emitted)
    {
      ghost var o := Observe(State(), window, isSpeech);
      windows := windows + [window];
      preBuffer := Recent(preBuffer + [window], PreSpeechBuffer);
      if !recording {
        speechSamples := if isSpeech then speechSamples + 1 else 0;
        if speechSamples >= MinSpeechChunks {
          currentSpeech := preBuffer;
          recording := true;
          silenceSamples := 0;
          speaking := true;
        }
      } else {
        currentSpeech := currentSpeech + [window];
        silenceSamples := if isSpeech then 0 else silenceSamples + 1;
        if silenceSamples >= SilenceLimit && currentSpeech != [] {
          output := output + [Flatten(currentSpeech)];
          currentSpeech := [];
          recording := false;
          speechSamples := 0;
          count := count + 1;
          speaking := false;
        }
      }
      assert State() == o.next;
    }
  }
}
