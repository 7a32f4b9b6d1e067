/**
 * The shared conversation history (src/conversation.py): a list of
 * `{role, content}` messages in which consecutive appends by the same role
 * merge into the last message.
 */
module History {
  import opened Text

  datatype Role = User | Assistant

  datatype Message = Message(role: Role, content: string)

  /** No two neighbouring messages have the same role. */
  predicate Alternating(ms: seq<Message>) {
    forall i :: 0 < i < |ms| ==> ms[i - 1].role != ms[i].role
  }

  /** Content that attaches to the previous content without a space. */
  predicate StartsWithPunctuation(content: string) {
    StartsWith(content, ".") || StartsWith(content, "!") || StartsWith(content, "?") || StartsWith(content, ",")
  }

  /** What `append` puts between the previous content and the new one. */
  function Spacer(last: string, content: string): string {
    if last != [] && !StartsWithPunctuation(content) then " " else ""
  }

  function Merge(last: string, content: string): string {
    last + Spacer(last, content) + content
  }

  /** The message list after `append(role, content)`. */
  function Appended(ms: seq<Message>, role: Role, content: string): seq<Message> {
    if ms != [] && ms[|ms| - 1].role == role then
      ms[..|ms| - 1] + [Message(role, Merge(ms[|ms| - 1].content, content))]
    else
      ms + [Message(role, content)]
  }

  /** `append` on an empty history, or under a role other than the last
      message's, adds `{role, content}` at the end; under the last message's
      role it keeps the count and rewrites only the last content, joining it to
      the new content with the spacer.  Earlier messages never change, the last
      message has the new role, and no two neighbours ever share a role. */
  lemma AppendedEffect(ms: seq<Message>, role: Role, content: string)
    ensures var r := Appended(ms, role, content);
      && r != [] && r[|r| - 1].role == role
      && (ms == [] || ms[|ms| - 1].role != role ==> r == ms + [Message(role, content)])
      && (ms != [] && ms[|ms| - 1].role == role ==>
            && |r| == |ms|
            && r[..|r| - 1] == ms[..|ms| - 1]
            && r[|r| - 1].content == ms[|ms| - 1].content + Spacer(ms[|ms| - 1].content, content) + content)
      && (forall i :: 0 <= i < |ms| - 1 ==> r[i] == ms[i])
  {
  }

  lemma AppendedAlternates(ms: seq<Message>, role: Role, content: string)
    requires Alternating(ms)
    ensures Alternating(Appended(ms, role, content))
  {
  }

  /** The spacer is one space exactly when there is previous content and the
      new content does not open with `.`, `!`, `?` or `,`; otherwise it is empty. */
  lemma SpacerCases(last: string, content: string)
    ensures Spacer(last, content) == " " <==>
      last != [] && !(content != [] && content[0] in {'.', '!', '?', ','})
    ensures Spacer(last, content) != " " ==> Spacer(last, content) == ""
  {
    if content != [] {
      assert StartsWith(content, ".") <==> content[0] == '.' by { assert content[..1] == [content[0]]; }
      assert StartsWith(content, "!") <==> content[0] == '!' by { assert content[..1] == [content[0]]; }
      assert StartsWith(content, "?") <==> content[0] == '?' by { assert content[..1] == [content[0]]; }
      assert StartsWith(content, ",") <==> content[0] == ',' by { assert content[..1] == [content[0]]; }
    }
  }

  /** The message list after appending each of `words`, in order, under `role`. */
  function AppendedAll(ms: seq<Message>, role: Role, words: seq<string>): seq<Message>
    decreases |words|
  {
    if words == [] then ms
    else Appended(AppendedAll(ms, role, words[..|words| - 1]), role, words[|words| - 1])
  }

  lemma AppendedAllSnoc(ms: seq<Message>, role: Role, words: seq<string>, w: string)
    ensures AppendedAll(ms, role, words + [w]) == Appended(AppendedAll(ms, role, words), role, w)
  {
    assert (words + [w])[..|words|] == words;
  }

  /** The text that merging `words` one after another produces. */
  function MergedAll(words: seq<string>): string
    decreases |words|
  {
    if words == [] then ""
    else if |words| == 1 then words[0]
    else Merge(MergedAll(words[..|words| - 1]), words[|words| - 1])
  }

  lemma MergeAssociative(a: string, b: string, c: string)
    requires b != []
    ensures Merge(Merge(a, b), c) == Merge(a, Merge(b, c))
  {
    assert Merge(b, c)[0] == b[0];
    assert StartsWithPunctuation(Merge(b, c)) == StartsWithPunctuation(b) by {
      assert Merge(b, c)[..1] == b[..1];
    }
  }

  /** Two appends under one role, the first non-empty, equal one append of the merged text. */
  lemma AppendedTwice(ms: seq<Message>, role: Role, a: string, b: string)
    requires a != []
    ensures Appended(Appended(ms, role, a), role, b) == Appended(ms, role, Merge(a, b))
  {
    var ms1 := Appended(ms, role, a);
    if ms != [] && ms[|ms| - 1].role == role {
      MergeAssociative(ms[|ms| - 1].content, a, b);
      assert ms1[..|ms1| - 1] == ms[..|ms| - 1];
    } else {
      assert ms1[..|ms1| - 1] == ms;
    }
  }

  /** Appending a run of non-empty words one at a time under one role leaves
      the same history as a single append of their merged text: the words
      land in one message, joined by the spacer rule. */
  lemma {:induction false} AppendedAllIsOneAppend(ms: seq<Message>, role: Role, words: seq<string>)
    requires words != []
    requires forall i :: 0 <= i < |words| ==> words[i] != []
    ensures AppendedAll(ms, role, words) == Appended(ms, role, MergedAll(words))
    ensures MergedAll(words) != []
    decreases |words|
  {
    if |words| == 1 {
      assert words[..0] == [];
    } else {
      var init := words[..|words| - 1];
      AppendedAllIsOneAppend(ms, role, init);
      AppendedTwice(ms, role, MergedAll(init), words[|words| - 1]);
    }
  }

  class Conversation {
    var messages: seq<Message>

    constructor ()
      ensures messages == []
    {
      messages := [];
    }

    /** Adds `content` under `role` and returns a copy of the history. */
    method Append(role: Role, content: string) returns (snapshot: seq<Message>)
      modifies this
      ensures messages == Appended(old(messages), role, content)
      ensures Alternating(old(messages)) ==> Alternating(messages)
      ensures snapshot == messages
    {
      if messages != [] && messages[|messages| - 1].role == role {
        var last := messages[|messages| - 1];
        var spacer := if last.content != [] && !StartsWithPunctuation(content) then " " else "";
        messages := messages[..|messages| - 1] + [last.(content := last.content + spacer + content)];
      } else {
        messages := messages + [Message(role, content)];
      }
      snapshot := messages;
      if Alternating(old(messages)) {
        AppendedAlternates(old(messages), role, content);
      }
    }

    /** A copy of the history; nothing changes. */
    method Get() returns (snapshot: seq<Message>)
      ensures snapshot == messages
    {
      snapshot := messages;
    }

    method Reset()
      modifies this
      ensures messages == []
    {
      messages := [];
    }
  }
}
