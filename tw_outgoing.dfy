/**
 * Spoken-word accounting for the telephony egress (src/tw_outgoing.py):
 * a FIFO of `(duration, word)` entries that is drained into the conversation
 * as playback time passes, and dropped when the caller barges in.
 * Clock readings are parameters; durations are exact reals.
 */
module Outgoing {
  import opened Text
  import opened History
  import opened Options
  import opened Seqs

  /** One queued word and the playback time it still needs, in seconds. */
  datatype Entry = Entry(duration: real, word: string)

  /** Outcome of letting `elapsed` seconds of playback pass over a queue. */
  datatype Heard = Heard(rest: seq<Entry>, spoken: seq<string>)

  function TotalDuration(q: seq<Entry>): real {
    if q == [] then 0.0 else q[0].duration + TotalDuration(q[1..])
  }

  function Words(q: seq<Entry>): seq<string> {
    if q == [] then [] else [q[0].word] + Words(q[1..])
  }

  predicate NonNegative(q: seq<Entry>) {
    forall i :: 0 <= i < |q| ==> q[i].duration >= 0.0
  }

  /** The loop of `update`: words whose duration fits in the elapsed time are
      spoken from the front; the first word that does not fit goes back with
      the time it still needs. */
  function Consume(q: seq<Entry>, elapsed: real): Heard
    decreases |q|
  {
    if q == [] || elapsed <= 0.0 then Heard(q, [])
    else
      var left := elapsed - q[0].duration;
      if left < 0.0 then Heard([Entry(-left, q[0].word)] + q[1..], [])
      else
        var h := Consume(q[1..], left);
        Heard(h.rest, [q[0].word] + h.spoken)
  }

  /** No time, no words: with non-positive elapsed time the queue is untouched. */
  lemma ConsumeIdle(q: seq<Entry>, elapsed: real)
    requires elapsed <= 0.0
    ensures Consume(q, elapsed) == Heard(q, [])
  {
  }

  /** Spoken words leave from the front in FIFO order: they are the words of
      the first entries of the queue, in queue order. */
  lemma {:induction false} ConsumeSpoken(q: seq<Entry>, elapsed: real)
    ensures var h := Consume(q, elapsed); var n := |h.spoken|;
      n <= |q| && h.spoken == Words(q[..n])
    decreases |q|
  {
    if q != [] && elapsed > 0.0 && elapsed - q[0].duration >= 0.0 {
      var left := elapsed - q[0].duration;
      ConsumeSpoken(q[1..], left);
      var n := |Consume(q[1..], left).spoken|;
      assert q[1..][..n] == q[1..n + 1];
      assert q[..n + 1][1..] == q[1..n + 1];
    } else {
      assert q[..0] == [];
    }
  }

  /** Afterwards the queue is either the untouched rest of the queue, or the
      next word with part of its duration left (strictly between zero and its
      full duration) followed by the untouched rest: at most one word is
      partly consumed. */
  lemma {:induction false} ConsumeRest(q: seq<Entry>, elapsed: real)
    ensures var h := Consume(q, elapsed); var n := |h.spoken|;
      && n <= |q|
      && (|| h.rest == q[n..]
          || (&& n < |q|
              && h.rest != []
              && h.rest[0].word == q[n].word
              && 0.0 < h.rest[0].duration < q[n].duration
              && h.rest[1..] == q[n + 1..]))
    decreases |q|
  {
    if q != [] && elapsed > 0.0 {
      ConsumeStep(q, elapsed);
      var left := elapsed - q[0].duration;
      if left >= 0.0 {
        ConsumeRest(q[1..], left);
        DropOne(q, |Consume(q[1..], left).spoken|);
      } else {
        assert q[0..] == q;
      }
    }
  }

  lemma DropOne(q: seq<Entry>, n: nat)
    requires n < |q|
    ensures q[1..][n..] == q[n + 1..]
    ensures n < |q| - 1 ==> q[1..][n] == q[n + 1] && q[1..][n + 1..] == q[n + 2..]
  {
  }

  /** One turn of the loop of `update`. */
  lemma ConsumeStep(q: seq<Entry>, elapsed: real)
    requires q != [] && elapsed > 0.0
    ensures var left := elapsed - q[0].duration;
      Consume(q, elapsed) ==
        if left < 0.0 then Heard([Entry(-left, q[0].word)] + q[1..], [])
        else Heard(Consume(q[1..], left).rest, [q[0].word] + Consume(q[1..], left).spoken)
  {
  }

  /** Playback never leaves a negative duration behind. */
  lemma {:induction false} ConsumeNonNegative(q: seq<Entry>, elapsed: real)
    requires NonNegative(q)
    ensures NonNegative(Consume(q, elapsed).rest)
    decreases |q|
  {
    if q != [] && elapsed > 0.0 {
      var left := elapsed - q[0].duration;
      if left < 0.0 {
        var r := [Entry(-left, q[0].word)] + q[1..];
        forall i | 0 < i < |r| ensures r[i].duration >= 0.0 {
          assert r[i] == q[i];
        }
      } else {
        assert NonNegative(q[1..]) by {
          forall i | 0 <= i < |q| - 1 ensures q[1..][i].duration >= 0.0 {
            assert q[1..][i] == q[i + 1];
          }
        }
        ConsumeNonNegative(q[1..], left);
      }
    }
  }

  /** What an update leaves of a valid queue is valid, and holds exactly
      the elapsed time less. */
  lemma ConsumeValid(q: seq<Entry>, elapsed: real)
    requires NonNegative(q)
    ensures NonNegative(Consume(q, elapsed).rest)
    ensures elapsed > 0.0 ==> TotalDuration(Consume(q, elapsed).rest) == Max(0.0, TotalDuration(q) - elapsed)
  {
    ConsumeNonNegative(q, elapsed);
    if elapsed > 0.0 {
      ConsumeDrains(q, elapsed);
    }
  }

  lemma NonNegativeAppend(a: seq<Entry>, b: seq<Entry>)
    requires NonNegative(a) && NonNegative(b)
    ensures NonNegative(a + b)
  {
    forall i | 0 <= i < |a + b| ensures (a + b)[i].duration >= 0.0 {
      if i >= |a| {
        assert (a + b)[i] == b[i - |a|];
      }
    }
  }

  lemma {:induction false} TotalDurationNonNegative(q: seq<Entry>)
    requires NonNegative(q)
    ensures TotalDuration(q) >= 0.0
    decreases |q|
  {
    if q != [] {
      TotalDurationNonNegative(q[1..]);
    }
  }

  function Max(a: real, b: real): real {
    if a < b then b else a
  }

  /** Playback drains exactly the elapsed time from the queue, never below zero. */
  lemma {:induction false} ConsumeDrains(q: seq<Entry>, elapsed: real)
    requires NonNegative(q)
    requires elapsed > 0.0
    ensures TotalDuration(Consume(q, elapsed).rest) == Max(0.0, TotalDuration(q) - elapsed)
    decreases |q|
  {
    if q != [] {
      var left := elapsed - q[0].duration;
      TotalDurationNonNegative(q[1..]);
      if left < 0.0 {
        assert ([Entry(-left, q[0].word)] + q[1..])[1..] == q[1..];
      } else if left == 0.0 {
        assert Consume(q[1..], left) == Heard(q[1..], []);
      } else {
        ConsumeDrains(q[1..], left);
      }
    }
  }

  /** The entries `add_words` queues: one per word, each with duration `d`. */
  function Spread(words: seq<string>, d: real): (r: seq<Entry>)
    ensures |r| == |words|
    ensures forall i :: 0 <= i < |r| ==> r[i] == Entry(d, words[i])
  {
    seq(|words|, i requires 0 <= i < |words| => Entry(d, words[i]))
  }

  /** Entries of one non-negative duration are non-negative. */
  lemma SpreadNonNegative(words: seq<string>, d: real)
    requires d >= 0.0
    ensures NonNegative(Spread(words, d))
  {
  }

  /** Seconds of audio per word; a clip with no words still divides by one. */
  function PerWordDuration(samples: nat, sampleRate: int, wordCount: nat): real
    requires sampleRate != 0
  {
    samples as real / sampleRate as real / (if wordCount > 1 then wordCount else 1) as real
  }

  /** At a positive sample rate every word gets a non-negative share. */
  lemma PerWordDurationNonNegative(samples: nat, sampleRate: int, wordCount: nat)
    requires sampleRate > 0
    ensures PerWordDuration(samples, sampleRate, wordCount) >= 0.0
  {
    var c := samples as real / sampleRate as real;
    assert c >= 0.0;
  }

  /** Queuing a clip's words at a positive rate keeps a valid queue valid. */
  lemma AddedNonNegative(q: seq<Entry>, words: seq<string>, samples: nat, sampleRate: int)
    requires NonNegative(q) && sampleRate > 0
    ensures NonNegative(q + Spread(words, PerWordDuration(samples, sampleRate, |words|)))
  {
    var d := PerWordDuration(samples, sampleRate, |words|);
    PerWordDurationNonNegative(samples, sampleRate, |words|);
    SpreadNonNegative(words, d);
    NonNegativeAppend(q, Spread(words, d));
  }

  lemma {:induction false} SpreadTotal(words: seq<string>, d: real)
    ensures TotalDuration(Spread(words, d)) == |words| as real * d
    decreases |words|
  {
    if words != [] {
      SpreadTotal(words[1..], d);
      assert Spread(words, d)[1..] == Spread(words[1..], d);
    }
  }

  /** `add_words` spreads the clip's length evenly: the queued entries add up
      to the clip's duration in seconds, and to nothing when there are no words. */
  lemma ClipDurationSpread(words: seq<string>, samples: nat, sampleRate: int)
    requires sampleRate != 0
    ensures var added := Spread(words, PerWordDuration(samples, sampleRate, |words|));
      TotalDuration(added) == if words == [] then 0.0 else samples as real / sampleRate as real
  {
    var d := PerWordDuration(samples, sampleRate, |words|);
    SpreadTotal(words, d);
    if words != [] {
      var c := samples as real / sampleRate as real;
      var n := |words| as real;
      assert d == c / n;
      assert n * (c / n) == c;
    }
  }

  class WordQueue {
    const conversation: Conversation
    var queue: seq<Entry>
    var lastUpdateTime: real

    /** No queued word needs a negative playback time. */
    ghost predicate Valid()
      reads this
    {
      NonNegative(queue)
    }

    constructor (conversation: Conversation)
      ensures Valid()
      ensures this.conversation == conversation
      ensures queue == [] && lastUpdateTime == 0.0
    {
      this.conversation := conversation;
      queue := [];
      lastUpdateTime := 0.0;
    }

    method Clear()
      modifies this
      ensures Valid()
      ensures queue == [] && lastUpdateTime == old(lastUpdateTime)
    {
      queue := [];
    }

    method IsEmpty() returns (empty: bool)
      ensures empty <==> |queue| == 0
    {
      empty := |queue| == 0;
    }

    /** Lets the time since the last update pass: the words that were played
        in full go into the conversation as the assistant's, in order. */
    method Update(now: real)
      modifies this, conversation
      ensures lastUpdateTime == now
      ensures var h := Consume(old(queue), now - old(lastUpdateTime));
        && queue == h.rest
        && conversation.messages == AppendedAll(old(conversation.messages), Assistant, h.spoken)
      ensures old(Valid()) ==> Valid()
      ensures old(Valid()) && now - old(lastUpdateTime) > 0.0 ==>
        TotalDuration(queue) == Max(0.0, TotalDuration(old(queue)) - (now - old(lastUpdateTime)))
    {
      var timePassed := now - lastUpdateTime;
      lastUpdateTime := now;
      ghost var wasValid := NonNegative(queue);
      if wasValid {
        ConsumeValid(queue, timePassed);
      }
      queue := Drain(queue, timePassed);
    }

    /** The loop of `Update`: plays `q` for `elapsed` seconds, recording every
        word played in full, and returns what is left. */
    method Drain(q: seq<Entry>, elapsed: real) returns (rest: seq<Entry>)
      modifies conversation
      ensures rest == Consume(q, elapsed).rest
      ensures conversation.messages == AppendedAll(old(conversation.messages), Assistant, Consume(q, elapsed).spoken)
    {
      rest := q;
      var timePassed := elapsed;
      ghost var spoken: seq<string> := [];
      ghost var start := conversation.messages;
      while rest != [] && timePassed > 0.0
        invariant Consume(rest, timePassed).rest == Consume(q, elapsed).rest
        invariant spoken + Consume(rest, timePassed).spoken == Consume(q, elapsed).spoken
        invariant conversation.messages == AppendedAll(start, Assistant, spoken)
        decreases |rest| + if timePassed > 0.0 then 1 else 0
      {
        ConsumeStep(rest, timePassed);
        var entry := rest[0];
        rest := rest[1..];
        timePassed := timePassed - entry.duration;
        if timePassed < 0.0 {
          rest := [Entry(-timePassed, entry.word)] + rest;
          ConsumeIdle(rest, timePassed);
        } else {
          var _ := conversation.Append(Assistant, entry.word);
          AppendedAllSnoc(start, Assistant, spoken, entry.word);
          AppendAssociative(spoken, [entry.word], Consume(rest, timePassed).spoken);
          spoken := spoken + [entry.word];
        }
      }
      if rest != [] {
        ConsumeIdle(rest, timePassed);
      }
      assert spoken + [] == spoken;
    }

    /** Queues one entry per word of `text`, each with an equal share of the
        clip's `samples` at `sampleRate`; the clock restarts only if the queue
        was empty. */
    method AddWords(text: string, samples: nat, sampleRate: int, now: real)
      requires sampleRate != 0
      modifies this
      ensures var words := SplitWords(text);
        queue == old(queue) + Spread(words, PerWordDuration(samples, sampleRate, |words|))
      ensures lastUpdateTime == if old(queue) == [] then now else old(lastUpdateTime)
      ensures old(Valid()) && sampleRate > 0 ==> Valid()
    {
      var words := SplitWords(text);
      var durationPerWord := samples as real / sampleRate as real / (if |words| > 1 then |words| else 1) as real;
      if |queue| == 0 {
        lastUpdateTime := now;
      }
      for i := 0 to |words|
        invariant queue == old(queue) + Spread(words[..i], durationPerWord)
        invariant lastUpdateTime == if old(queue) == [] then now else old(lastUpdateTime)
      {
        queue := queue + [Entry(durationPerWord, words[i])];
        assert Spread(words[..i + 1], durationPerWord) == Spread(words[..i], durationPerWord) + [Entry(durationPerWord, words[i])];
      }
      assert words[..|words|] == words;
      if old(Valid()) && sampleRate > 0 {
        AddedNonNegative(old(queue), words, samples, sampleRate);
      }
    }
  }

  /** A clip handed to the egress: reply text and its audio length in samples. */
  datatype Clip = Clip(text: string, samples: nat)

  /** What the egress sends on the call's socket. */
  datatype Outbound = ClearPlayback | Media(samples: nat)

  class TwOutgoing {
    const wordQueue: WordQueue
    const sampleRate: int

    /** The rate is a positive audio sample rate, and the word queue is valid. */
    ghost predicate Valid()
      reads this, wordQueue
    {
      sampleRate > 0 && wordQueue.Valid()
    }

    constructor (sampleRate: int, conversation: Conversation)
      requires sampleRate > 0
      ensures Valid()
      ensures this.sampleRate == sampleRate && wordQueue.conversation == conversation
      ensures fresh(wordQueue) && wordQueue.queue == []
    {
      this.sampleRate := sampleRate;
      wordQueue := new WordQueue(conversation);
    }

    /** One pass of the `run` loop.  While the caller is speaking the unplayed
        words are dropped (with one "clear" sent if there were any) and nothing
        is heard; otherwise elapsed playback is accounted at `now`, and a
        received clip is sent and its words queued at the later reading `after`. */
    method Step(speaking: bool, now: real, received: Option<Clip>, after: real) returns (sent: seq<Outbound>)
      requires Valid()
      modifies wordQueue, wordQueue.conversation
      ensures Valid()
      ensures speaking ==>
        && sent == (if old(wordQueue.queue) != [] then [ClearPlayback] else [])
        && wordQueue.queue == []
        && wordQueue.lastUpdateTime == old(wordQueue.lastUpdateTime)
        && wordQueue.conversation.messages == old(wordQueue.conversation.messages)
      ensures !speaking ==>
        var h := Consume(old(wordQueue.queue), now - old(wordQueue.lastUpdateTime));
        && wordQueue.conversation.messages == AppendedAll(old(wordQueue.conversation.messages), Assistant, h.spoken)
        && match received
           case None =>
             sent == [] && wordQueue.queue == h.rest && wordQueue.lastUpdateTime == now
           case Some(clip) =>
             var words := SplitWords(clip.text);
             && sent == [Media(clip.samples)]
             && wordQueue.queue == h.rest + Spread(words, PerWordDuration(clip.samples, sampleRate, |words|))
             && wordQueue.lastUpdateTime == if h.rest == [] then after else now
    {
      if speaking {
        var empty := wordQueue.IsEmpty();
        sent := [];
        if !empty {
          sent := [ClearPlayback];
          wordQueue.Clear();
        }
        return;
      }
      ghost var h := Consume(wordQueue.queue, now - wordQueue.lastUpdateTime);
      wordQueue.Update(now);
      assert wordQueue.queue == h.rest;
      match received
      case None =>
        sent := [];
      case Some(clip) =>
        sent := [Media(clip.samples)];
        ghost var heard := wordQueue.conversation.messages;
        wordQueue.AddWords(clip.text, clip.samples, sampleRate, after);
        assert wordQueue.conversation.messages == heard;
    }
  }
}
