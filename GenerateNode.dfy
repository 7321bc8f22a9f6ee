/** The generate node (graph/nodes/generate.py): renders the recent chat
    history, fills the placeholders and calls the generation chain; a raising
    chain is turned into an error answer instead of propagating. */
module GenerateNode {
  import opened Wrappers
  import opened Text
  import opened State
  import opened Calls

  const NoFeedback := "No feedback yet."
  const NoHistory := "No previous conversation."
  const GenerationErrorPrefix := "I encountered an error while generating the answer: "

  /** How many of the latest exchanges are rendered. */
  const HistoryWindow := 10

  /** Python's `text or fallback` for a string. */
  function OrElse(text: string, fallback: string): string {
    if text == "" then fallback else text
  }

  /** The two lines one exchange renders as. */
  function ExchangeLines(e: Exchange): seq<string> {
    ["Human: " + e.human, "Assistant: " + e.assistant]
  }

  function HistoryLines(h: seq<Exchange>): seq<string> {
    if h == [] then [] else ExchangeLines(h[0]) + HistoryLines(h[1..])
  }

  /** history_text: "" for an empty history, otherwise the lines of the last
      ten exchanges joined by newlines. */
  function HistoryText(h: seq<Exchange>): string {
    if h == [] then "" else Join(HistoryLines(Last(h, HistoryWindow)), "\n")
  }

  /** The template variables generate passes to the chain. */
  function GenerationInputOf(s: GraphState): GenerationInput {
    GenerationInput(
      s.question,
      s.context.GetOr(""),
      OrElse(s.feedback.GetOr(""), NoFeedback),
      OrElse(HistoryText(s.chatHistory.GetOr([])), NoHistory))
  }

  /** What generate returns, given the generation chain. */
  function GenerateUpdate(s: GraphState, generator: (int, GenerationInput) -> Result<string>): (u: Update)
    ensures Keys(u) == {Generation}
    ensures generator(AttemptsOf(s), GenerationInputOf(s)).Ok? ==>
      u.generation == Some(generator(AttemptsOf(s), GenerationInputOf(s)).value)
    ensures generator(AttemptsOf(s), GenerationInputOf(s)).Fail? ==>
      u.generation == Some(GenerationErrorPrefix + generator(AttemptsOf(s), GenerationInputOf(s)).msg)
  {
    var g := match generator(AttemptsOf(s), GenerationInputOf(s))
      case Ok(text) => text
      case Fail(msg) => GenerationErrorPrefix + msg;
    NoUpdate.(generation := Some(g))
  }

  /** The loop of generate that appends two lines per recent exchange. */
  method RenderHistory(h: seq<Exchange>) returns (text: string)
    ensures text == HistoryText(h)
  {
    text := "";
    if h != [] {
      var recent := Last(h, HistoryWindow);
      var lines: seq<string> := [];
      for i := 0 to |recent|
        invariant lines == HistoryLines(recent[..i])
      {
        assert recent[..i + 1] == recent[..i] + [recent[i]];
        HistoryLinesAppend(recent[..i], recent[i]);
        lines := lines + ExchangeLines(recent[i]);
      }
      assert recent[..|recent|] == recent;
      text := Join(lines, "\n");
    }
  }

  /** generate, with the chain's exception turned into an error answer. */
  method Generate(s: GraphState, c: Collaborators) returns (u: Update)
    ensures u == GenerateUpdate(s, c.generator)
  {
    var historyText := RenderHistory(s.chatHistory.GetOr([]));
    var input := GenerationInput(
      s.question, s.context.GetOr(""),
      OrElse(s.feedback.GetOr(""), NoFeedback), OrElse(historyText, NoHistory));
    var generation: string;
    var result := c.generator(AttemptsOf(s), input);
    if result.Ok? {
      generation := result.value;
    } else {
      generation := GenerationErrorPrefix + result.msg;
    }
    u := NoUpdate.(generation := Some(generation));
  }

  // ---------------------------------------------------------------- lemmas

  lemma {:induction false} HistoryLinesAppend(h: seq<Exchange>, e: Exchange)
    ensures HistoryLines(h + [e]) == HistoryLines(h) + ExchangeLines(e)
  {
    if h == [] {
      assert HistoryLines([e]) == ExchangeLines(e) + HistoryLines([]);
    } else {
      assert (h + [e])[1..] == h[1..] + [e];
      HistoryLinesAppend(h[1..], e);
    }
  }

  /** Exchange k renders as lines 2k ("Human: ...") and 2k+1 ("Assistant: ..."). */
  lemma {:induction false} HistoryLinesAt(h: seq<Exchange>)
    ensures |HistoryLines(h)| == 2 * |h|
    ensures forall k :: 0 <= k < |h| ==>
      HistoryLines(h)[2 * k] == "Human: " + h[k].human && HistoryLines(h)[2 * k + 1] == "Assistant: " + h[k].assistant
  {
    if h != [] {
      HistoryLinesAt(h[1..]);
      forall k | 1 <= k < |h|
        ensures HistoryLines(h)[2 * k] == "Human: " + h[k].human && HistoryLines(h)[2 * k + 1] == "Assistant: " + h[k].assistant
      {
        assert HistoryLines(h)[2 * k] == HistoryLines(h[1..])[2 * (k - 1)];
        assert HistoryLines(h)[2 * k + 1] == HistoryLines(h[1..])[2 * (k - 1) + 1];
      }
    }
  }

  /** Only the last min(n, 10) exchanges are rendered, in their order, two lines each. */
  lemma {:induction false} RenderedHistoryShape(h: seq<Exchange>)
    requires h != []
    ensures var recent := h[|h| - |Last(h, HistoryWindow)|..];
      && |recent| == (if |h| < 10 then |h| else 10)
      && HistoryText(h) == Join(HistoryLines(recent), "\n")
      && |HistoryLines(recent)| == 2 * |recent|
      && (forall k :: 0 <= k < |recent| ==>
            && HistoryLines(recent)[2 * k] == "Human: " + recent[k].human
            && HistoryLines(recent)[2 * k + 1] == "Assistant: " + recent[k].assistant)
  {
    HistoryLinesAt(Last(h, HistoryWindow));
  }

  /** The history placeholder is passed exactly when there is no history: a
      rendered history starts with "Human: " and never equals it. */
  lemma {:induction false} HistoryPlaceholderIffEmpty(s: GraphState)
    ensures GenerationInputOf(s).chatHistory == NoHistory <==> s.chatHistory.GetOr([]) == []
  {
    var h := s.chatHistory.GetOr([]);
    if h != [] {
      var lines := HistoryLines(Last(h, HistoryWindow));
      HistoryLinesAt(Last(h, HistoryWindow));
      assert lines[0][0] == 'H';
      JoinHead(lines, "\n");
      assert NoHistory[0] == 'N';
    }
  }

  /** The evaluator's feedback reaches the generator verbatim; an absent or
      empty feedback is replaced by the placeholder. */
  lemma {:induction false} FeedbackPlaceholder(s: GraphState)
    ensures s.feedback.Some? && s.feedback.value != [] ==> GenerationInputOf(s).feedback == s.feedback.value
    ensures s.feedback.GetOr("") == [] ==> GenerationInputOf(s).feedback == NoFeedback
  {
  }
}
