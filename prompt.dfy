/** `buildPrompt`: the transcript string sent to the generation endpoint. */
module Prompt {
  import opened JsText
  import opened Store

  const Preamble: string := "You are a helpful assistant.\n\n"

  /** The cue after the transcript that asks for the assistant's next line. */
  const Cue: string := "\nAssistant:"

  /** One transcript line: the role's label, then the content. */
  function Render(m: Message): string
  {
    if m.role == User then "User: " + m.content else "Assistant: " + m.content
  }

  /** A line ends with the message's content, and holds a newline exactly when
      the content does. */
  lemma RenderShape(m: Message)
    ensures var line := Render(m);
      |m.content| <= |line| && line[|line| - |m.content|..] == m.content
    ensures '\n' in Render(m) <==> '\n' in m.content
  {
    var tag := if m.role == User then "User: " else "Assistant: ";
    assert Render(m) == tag + m.content;
    assert '\n' !in tag;
  }

  function Rendered(ms: seq<Message>): (lines: seq<string>)
    ensures |lines| == |ms|
    ensures forall i :: 0 <= i < |ms| ==> lines[i] == Render(ms[i])
  {
    seq(|ms|, i requires 0 <= i < |ms| => Render(ms[i]))
  }

  /** Rendering is message by message: the lines of `a + b` are those of `a`
      followed by those of `b`. */
  lemma RenderedAppend(a: seq<Message>, b: seq<Message>)
    ensures Rendered(a + b) == Rendered(a) + Rendered(b)
  {
    var ab, ra, rb := Rendered(a + b), Rendered(a), Rendered(b);
    forall i | 0 <= i < |ab| ensures ab[i] == (ra + rb)[i] {
      if i < |a| {
        assert (a + b)[i] == a[i];
      } else {
        assert (a + b)[i] == b[i - |a|];
      }
    }
  }

  /** The rendered messages joined by newlines. */
  function Transcript(ms: seq<Message>): string
  {
    Join(Rendered(ms), "\n")
  }

  /** `buildPrompt(messages)`: the preamble, the transcript and the cue. */
  function BuildPrompt(ms: seq<Message>): (p: string)
    ensures |p| >= |Preamble| + |Cue|
    ensures p[..|Preamble|] == Preamble
    ensures p[|p| - |Cue|..] == Cue
  {
    Preamble + Transcript(ms) + Cue
  }

  /** What lies between the preamble and the cue. */
  function Body(p: string): string
    requires |p| >= |Preamble| + |Cue|
  {
    p[|Preamble|..|p| - |Cue|]
  }

  /** When no content holds a newline, the text between preamble and cue splits
      on newlines into exactly one line per message, in order, each the
      message's role label followed by its content. */
  lemma PromptLines(ms: seq<Message>)
    requires |ms| >= 1
    requires forall i :: 0 <= i < |ms| ==> '\n' !in ms[i].content
    ensures SplitOn(Body(BuildPrompt(ms)), '\n') == Rendered(ms)
  {
    var lines := Rendered(ms);
    forall i | 0 <= i < |lines| ensures '\n' !in lines[i] {
      RenderShape(ms[i]);
    }
    var p := BuildPrompt(ms);
    assert Body(p) == Transcript(ms);
    SplitOnJoin(lines, '\n');
  }

  /** The prompt for a send is the prompt for the earlier messages with one
      more line, the new user message, placed just before the cue. */
  lemma PromptForSend(ms: seq<Message>, userId: Id, input: string)
    ensures
      var p := BuildPrompt(ms + [Message(userId, User, input)]);
      p == Preamble + Transcript(ms) + (if |ms| == 0 then "" else "\n") + "User: " + input + Cue
  {
    var m := Message(userId, User, input);
    var sep := if |ms| == 0 then "" else "\n";
    RenderedAppend(ms, [m]);
    assert Rendered([m]) == [Render(m)];
    assert Render(m) == "User: " + input;
    if |ms| == 0 {
      assert Rendered(ms) + [Render(m)] == [Render(m)];
      assert Transcript(ms + [m]) == Render(m);
      assert Transcript(ms) == "";
    } else {
      JoinSnoc(Rendered(ms), Render(m), "\n");
    }
    assert Transcript(ms + [m]) == Transcript(ms) + sep + Render(m);
    calc {
      BuildPrompt(ms + [m]);
      Preamble + Transcript(ms + [m]) + Cue;
      Preamble + (Transcript(ms) + sep + ("User: " + input)) + Cue;
      Preamble + Transcript(ms) + sep + "User: " + input + Cue;
    }
  }
}
