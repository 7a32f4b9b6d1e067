# Voice assistant core, modelled in Dafny

This project models the sequential logic inside a threaded voice-assistant
pipeline (microphone or phone call → VAD → speech-to-text → LLM →
text-to-speech → speaker or phone call). Four pieces of that logic are
modelled, and their properties are proved:

- **Utterance segmenter** (`segmenter.dfy`, module `Segmentation`).
  - `Segmenter.ProcessChunk` is one pass of `Segmenter.loop`. Audio chunks of any length are re-framed through a leftover buffer into VAD windows: 256 samples at 8 kHz, 512 at 16 kHz.
  - `Segmenter.Hear` is the hysteresis state machine. Recording starts after 3 speech windows in a row, with the 25-window pre-roll as the utterance's head. The utterance is emitted after 24 silent windows in a row.
  - The VAD verdict (`prob > 0.4`) is an oracle `vad: Window -> bool` fixed at construction.
  - The class invariant ties the object's fields to a pure fold, `ObserveAll`, over the windows scored so far. The properties the loop promises are then proved about that fold (`ObserveAllTracks`, `ObserveAllHysteresis`).
- **Sentence splitter** (`responder.dfy`, module `Sentences`).
  - `SegmentText` is `segment_text_by_regex`, with its `while` loop. It is proved equal to the pure `Segment`, whose properties are proved as lemmas.
  - `StreamSentences` is the fold over a reply stream in `Responder.loop`. It is proved equal to `StreamOutput`.
  - The regex search is modelled literally: lazy `.*?` that never crosses a newline, then a one-character class. It is proved to end just after the first terminator (`SearchEndsAtFirstTerminator`).
- **Spoken-word accounting** (`tw_outgoing.dfy`, module `Outgoing`).
  - The class `WordQueue` holds a FIFO of `(duration, word)` entries, drained by `Update` into the conversation as playback time passes.
  - `TwOutgoing.Step` is one pass of `TwOutgoing.run`, including the barge-in branch that drops the unplayed words.
  - Clock readings are parameters.
- **Conversation history** (`conversation.dfy`, module `History`). The class `Conversation` holds a message list in which consecutive same-role appends merge into the last message, with a punctuation-aware space.

Python built-ins the code relies on are in `text.dfy`, module `Text`: `isspace`, `strip`/`lstrip`/`rstrip`, `split()`, `startswith`, `endswith`. Sequence helpers are in `seqs.dfy`, module `Seqs`: `np.concatenate` of a list of blocks, and a `deque` with `maxlen`. `options.dfy` holds `Option`.

### Where the documentation and the code differ

- **The regex character class.** The punctuation list contains two multi-character entries, `"..."` and `"。。。"`. The splitting pattern puts all entries, joined with `|`, inside one `[...]` character class (src/responder.py:46). So the pattern cuts at one past the first character in `. | ! ? 。 ！ ？`; the multi-character entries play no role, and `|` is a terminator. The model follows the code (`PatternClassChars`).
- **Newlines.** The match cannot cross a newline, but the cut is still the first terminator of the whole text (`SearchEndsAtFirstTerminator`).
- **The pre-roll is never cleared on emit.** As a result, the next utterance can start with the window that ended the previous one (`PreRollOverlap`).
- **The carried remainder is stripped.** `segment_text_by_regex` returns a stripped remainder, and the stream fold carries it into the next chunk. So whitespace at the end of a chunk with no terminator is lost: `"Hi "` then `"you"` is pushed as `"Hiyou"` (`StreamDropsBoundarySpace`).

## Model

| member | source | states |
|---|---|---|
| Segmentation.WindowSize | src/segmenter.py:64-67 | only 8000 and 16000 are accepted; the window is 512 samples at 16000 and 256 at 8000 |
| Segmentation.Segmenter.Create | src/segmenter.py:64-65 | construction fails exactly for a rate other than 8000 or 16000; otherwise the segmenter starts idle with an empty buffer and empty output |
| Segmentation.Segmenter.constructor | src/segmenter.py:58-68 | a fresh segmenter: idle state, empty pre-roll and speech, zero counters, no leftover, window size from the rate |
| Seqs.Recent | src/segmenter.py:58 | the bounded pre-roll keeps min(n, length) elements |
| Segmentation.Reframe | src/segmenter.py:93-108 | a combination shorter than the window is carried whole and no window is scored; otherwise exactly one window of the window size is scored; window then leftover equals leftover then chunk |
| Segmentation.ReframeAllConserves | src/segmenter.py:93-108 | over any run of chunks, the windows scored then the leftover are all samples received, in order; every window has the window size; at most one window per chunk |
| Seqs.FlattenLength | src/segmenter.py:130 | an utterance concatenated from k windows of one size has k times that many samples |
| Segmentation.ObservePreRoll | src/segmenter.py:115 | every window enters the pre-roll, which holds the newest 25 windows of the history |
| Segmentation.ObserveIdle | src/segmenter.py:117-124 | idle: a speech window raises the speech counter by one and a silent window resets it to 0; recording starts exactly when the counter reaches 3, with the pre-roll as the utterance, silence counter 0 and the speaking flag set; nothing is emitted |
| Segmentation.ObserveRecording | src/segmenter.py:125-135 | recording: every window is appended, a silent window raises the silence counter by one and a speech window resets it to 0, and the speech counter is left alone; exactly at the 24th silent window the concatenated utterance is emitted, recording stops, the speech counter resets, the count rises by one and the flag clears |
| Segmentation.InitialConsistent | src/segmenter.py:58-63 | the initial state satisfies the state invariant |
| Segmentation.ObserveConsistent | src/segmenter.py:114-135 | each step keeps the invariant: flag up exactly while recording, counters below their limits, pre-roll at most 25 windows |
| Segmentation.ObserveTracks | src/segmenter.py:114-135 | one step preserves the bookkeeping relation between machine state, windows seen, utterances output and recordings started, including that the utterance being collected is a suffix of the windows seen |
| Segmentation.ObserveAllTracks | src/segmenter.py:114-135 | from the idle start: the pre-roll is the newest 25 windows; count equals the number of utterances output; each utterance is the samples of a non-empty run of consecutive windows scored (`RunOf`); while recording, the utterance being collected is a suffix of the windows scored; starts and emits alternate |
| Segmentation.TrailingRunAtLeast | src/segmenter.py:117-128 | the counted run of equal verdicts reaches k exactly when the last k windows all have that verdict |
| Segmentation.ObserveCounted | src/segmenter.py:117-128 | one step keeps what the counters count: idle, the speech counter is the trailing run of speech windows; recording, the silence counter is the trailing run of silent windows |
| Segmentation.ObserveAllCounted | src/segmenter.py:114-135 | from the idle start, the state is consistent and the counters equal those trailing runs of VAD verdicts |
| Segmentation.ObserveAllHysteresis | src/segmenter.py:117-135 | from the idle start, an idle window starts recording exactly when it ends 3 speech windows in a row, and a recording window emits exactly when it ends 24 silent windows in a row |
| Segmentation.PreRollOverlap | src/segmenter.py:128-135 | after an emit, three speech windows start a new recording whose utterance still contains the window that ended the previous one |
| Segmentation.Segmenter.ProcessChunk | src/segmenter.py:93-112 | one loop pass: samples are appended to the received stream, the leftover and scored window are those of `Reframe`; with no window nothing else changes; with one, the state and output advance by one hysteresis step on the VAD verdict |
| Segmentation.Segmenter.Hear | src/segmenter.py:114-135 | the imperative hysteresis step leaves the fields equal to the pure step's next state and appends the emitted utterance, if any, to the output |
| Sentences.PatternClassChars | src/responder.py:45-46 | the punctuation list joined by `|` inside one character class matches exactly `. \| ! ? 。 ！ ？` |
| Sentences.MatchFromFirst | src/responder.py:46-49 | a match attempt from a position ends after the first terminator unless a newline comes before it |
| Sentences.SearchEndsAtFirstTerminator | src/responder.py:49-53 | `re.search` finds a match exactly when the text has a terminator, and the match ends just after the first one |
| Sentences.FirstCut | src/responder.py:53-54 | the text up to and including the first terminator strips to a sentence |
| Sentences.StripToSentence | src/responder.py:54 | stripping text that ends with its only terminator gives a sentence |
| Sentences.ScanWellCut | src/responder.py:48-62 | every fragment the loop cuts is a sentence and every gap it skips is whitespace |
| Sentences.ScanCut | src/responder.py:53-62 | the i-th fragment is a sentence and the i-th gap is whitespace |
| Sentences.ScanRemainder | src/responder.py:48-62 | the loop stops on a remainder with no terminator, and the remainder ends the text |
| Sentences.ScanGlue | src/responder.py:48-62 | the fragments, the gaps and the remainder, laid end to end, give back the text: fragments are in text order and only whitespace is dropped |
| Sentences.KeptSentences | src/responder.py:56-61 | filtering out abbreviations keeps only sentences |
| Sentences.KeptNoAbbreviation | src/responder.py:11-25 | no kept fragment ends with a listed abbreviation |
| Sentences.KeptStep | src/responder.py:53-62 | one loop turn keeps the cut fragment unless it ends with an abbreviation, and continues on the left-stripped rest |
| Sentences.SegmentFacts | src/responder.py:28-64 | empty input gives no sentences and an empty remainder; every sentence is non-empty, stripped, ends with its only terminator and never with an abbreviation; the remainder has no terminator and is a suffix of the stripped text |
| Sentences.SegmentText | src/responder.py:28-64 | the `while` loop returns exactly the sentences and remainder of `Segment` |
| Sentences.SegmentNoTerminator | src/responder.py:48-51 | non-empty text with no terminator gives no sentences and its stripped self as remainder |
| Sentences.NonEmptyKeepsAll | src/responder.py:136-137 | the `if sentence:` guard never drops a sentence the splitter returns |
| Sentences.StreamFoldSentence | src/responder.py:129-138 | every sentence the stream pushes before the flush is complete and does not end with an abbreviation |
| Sentences.StreamFoldBuffer | src/responder.py:134-135 | the buffer carried between stream texts never contains a terminator |
| Sentences.StreamOutputFacts | src/responder.py:128-140 | every push is non-empty and stripped; all but the last are complete sentences free of abbreviations; the last is a sentence or the terminator-free leftover |
| Sentences.StreamDropsBoundarySpace | src/responder.py:134-135 | a word and a space, then a word, are pushed as the two words run together: the stripped remainder loses the boundary space |
| Sentences.PushSentences | src/responder.py:136-138 | the inner loop appends exactly the non-empty sentences, in order |
| Sentences.StreamSentences | src/responder.py:128-140 | the stream loop, stopping at the first text seen while the user speaks, pushes exactly `StreamOutput`: the sentences of each step, then the stripped leftover if non-empty |
| Text.StripFacts | src/responder.py:42 | `strip()` gives an infix of the text with only whitespace around it |
| Text.LStripFacts | src/responder.py:58 | `lstrip()` drops only leading whitespace and keeps a suffix |
| Text.SplitJoin | src/tw_outgoing.py:46 | `split()` recovers any list of words joined by single spaces |
| Outgoing.ConsumeIdle | src/tw_outgoing.py:29-34 | with non-positive elapsed time the queue is untouched and nothing is spoken |
| Outgoing.ConsumeSpoken | src/tw_outgoing.py:34-42 | spoken words leave from the front in FIFO order: they are the words of the first entries |
| Outgoing.ConsumeRest | src/tw_outgoing.py:35-39 | afterwards the queue is the untouched rest, or the next word with a remaining duration strictly between 0 and its own, then the untouched rest: at most one word is partly consumed |
| Outgoing.ConsumeDrains | src/tw_outgoing.py:34-42 | with non-negative durations and positive elapsed time the total queued duration becomes max(0, total - elapsed) |
| Outgoing.ConsumeNonNegative | src/tw_outgoing.py:35-39 | playing a queue of non-negative durations leaves only non-negative durations |
| Outgoing.ConsumeValid | src/tw_outgoing.py:29-42 | an update keeps durations non-negative and, for positive elapsed time, lowers the total to max(0, total - elapsed) |
| Outgoing.AddedNonNegative | src/tw_outgoing.py:46-51 | at a positive sample rate, the words `add_words` queues have non-negative durations, so the queue stays valid |
| Outgoing.SpreadTotal | src/tw_outgoing.py:50-51 | n entries of duration d add up to n·d |
| Outgoing.ClipDurationSpread | src/tw_outgoing.py:46-51 | the entries `add_words` queues add up to the clip's length in seconds, or to nothing for no words; no division by zero |
| Outgoing.WordQueue.constructor | src/tw_outgoing.py:16-19 | an empty queue with the clock at 0; the queue is valid (no negative duration) |
| Outgoing.WordQueue.Clear | src/tw_outgoing.py:21-22 | the queue becomes empty and valid, and the clock is kept |
| Outgoing.WordQueue.IsEmpty | src/tw_outgoing.py:24-25 | true exactly when the queue has no entries; nothing changes |
| Outgoing.WordQueue.Update | src/tw_outgoing.py:27-42 | the clock moves to `now`; the queue becomes what `Consume` leaves; each fully played word is appended to the conversation as the assistant's, in order; a valid queue stays valid, and its total duration falls by the elapsed time, down to 0 |
| Outgoing.WordQueue.Drain | src/tw_outgoing.py:34-42 | the draining loop returns exactly the rest `Consume` leaves and appends exactly the words it says were spoken |
| Outgoing.WordQueue.AddWords | src/tw_outgoing.py:44-51 | one entry per `split()` word, each with an equal share of the clip, appended after the existing entries; the clock restarts only if the queue was empty; at a positive rate a valid queue stays valid |
| Outgoing.TwOutgoing.constructor | src/tw_outgoing.py:57-76 | a fresh, empty and valid word queue over the conversation, with the given positive sample rate |
| Outgoing.TwOutgoing.Step | src/tw_outgoing.py:114-141 | while the caller speaks the queue is dropped, one clear is sent only if it was non-empty, and the conversation is untouched; otherwise the heard words are accounted and a received clip is sent and queued; the queue stays valid |
| History.AppendedEffect | src/conversation.py:15-29 | an empty history or a new role adds `{role, content}` at the end; the same role keeps the count and rewrites only the last content with the spacer; earlier messages never change |
| History.AppendedAlternates | src/conversation.py:15-29 | no two neighbouring messages ever share a role |
| History.SpacerCases | src/conversation.py:19-26 | the spacer is one space exactly when the previous content is non-empty and the new content does not start with `.`, `!`, `?` or `,`; otherwise it is empty |
| History.MergeAssociative | src/conversation.py:19-27 | merging is associative when the middle part is non-empty |
| History.AppendedTwice | src/conversation.py:15-27 | two same-role appends, the first non-empty, equal one append of their merge |
| History.AppendedAllSnoc | src/tw_outgoing.py:42 | appending one more word extends the word-by-word history by one append |
| History.AppendedAllIsOneAppend | src/tw_outgoing.py:34-42 | the words spoken in one update land in one assistant message, as the merge of the words |
| History.Conversation.constructor | src/conversation.py:7-8 | the history starts empty |
| History.Conversation.Append | src/conversation.py:11-30 | the history becomes `Appended` of the old one; alternation is preserved; the returned copy equals the new history |
| History.Conversation.Get | src/conversation.py:32-34 | returns the history and changes nothing |
| History.Conversation.Reset | src/conversation.py:36-38 | the history becomes empty |

## Left out

- The VAD network (src/segmenter.py:56-57, 70-79, 111-112). The TorchScript model and the float comparison `prob > 0.4` are the oracle `vad`. `vad` is a fixed function of the window, so the model assumes one verdict per window content.
- Threads, events, locks and queues. The speaking event is a boolean field of the segmenter (`speaking`) and a parameter of `TwOutgoing.Step` and `StreamSentences`. `exit_event` polling and the early `return` on exit are not modelled. Queue timeouts and the conversation lock are absent.
- The output queue of the segmenter is the sequence field `output`; the input queue is the chunk passed to `ProcessChunk`. The one-dimensional shape assertion (src/segmenter.py:91) holds by construction.
- Clocks. `time.monotonic()` is the parameter `now` of `Update` and `after` of `AddWords` in `Step`, and `time.sleep` is dropped.
- Floating point. Durations and samples are exact reals; IEEE rounding is not modelled.
- Twilio glue: `encode_audio`, `send_audio` and `interrupt` (src/tw_outgoing.py:78-101) become the `Outbound` values `Media` and `ClearPlayback`. The `stream_sid` wait (src/tw_outgoing.py:105-111) and the squeeze/normalise step (src/tw_outgoing.py:132-135) are dropped, since only the sample count reaches `add_words`. `Media` carries the sample count, not the payload.
- Cloud clients, retries and the API warm-up call (src/responder.py:96-127, 141-148), speech-to-text and text-to-speech. The stream's texts are a parameter of `StreamSentences`.
- Device audio, wiring and configuration (src/microphone.py, src/speaker.py, src/main_twilio.py, src/main_local.py, src/config.py). They are not part of this model.
- History.Conversation.Append: the `isinstance(last_content, str)` guard (src/conversation.py:18) is always true here, because message content is always text. The copies returned by `append` and `get` are values: Python's shallow copy shares the message dictionaries, so a later same-role merge would also show in an earlier copy. The model does not capture that aliasing.
- Outgoing.TwOutgoing.Step: a clip with fewer than two samples is sent and queued like any other. In the source, a zero-sample clip makes `np.max` of an empty array raise `ValueError` (src/tw_outgoing.py:134), and one sample becomes a 0-d array after `np.squeeze`, so `len` raises `TypeError` (src/tw_outgoing.py:47). Either error ends the egress thread. Those exceptions are not modelled.
- Outgoing.TwOutgoing.constructor: requires a positive sample rate, which keeps every queued duration non-negative. The source checks nothing: a zero rate would raise `ZeroDivisionError` in `add_words`, and a negative rate would queue negative durations.
- Sentences.StreamSentences: the `speaking` flag is sampled once per stream text, as a sequence given in advance. Its interleaving with the segmenter thread is not modelled.
- Segmentation.Segmenter.ProcessChunk: the VAD call happens before the pre-roll update. Since the verdict is a pure oracle, calling it elsewhere changes nothing.
