/** The chatbot front end of main.py: RAGChatbot.ask, which validates the
    question, builds the initial state and runs the graph, and respond, which
    turns the chat widget's message list into (user, assistant) pairs. */
module Chatbot {
  import opened Wrappers
  import opened Text
  import opened State
  import opened Calls
  import opened RetrieveNode
  import opened GenerateNode
  import opened Graph
  import opened GraphProofs

  const InvalidQuestion := "Please provide a valid question."
  const NoAnswer := "I couldn't generate an answer. Please try again later."
  const ErrorPrefix := "An error occurred: "
  const DefaultMaxAttempts := 5
  /** respond keeps at most this many exchanges. */
  const HistoryLimit := 10

  /** `not question or not question.strip()`: the empty string strips to itself. */
  predicate IsBlank(question: string) {
    Strip(question) == []
  }

  /** The state ask starts the graph from. */
  function InitialState(question: string, history: seq<Exchange>, maxAttempts: int): (s: GraphState)
    ensures AttemptsOf(s) == 0 && MaxAttemptsOf(s) == maxAttempts && !AnswerReadyOf(s)
    ensures s.feedback == None && s.generation == Some("") && s.context == Some("") && s.documents == Some([])
    ensures s.chatHistory == Some(history)
    ensures Remaining(s) == if maxAttempts > 0 then maxAttempts else 0
  {
    GraphState(
      Strip(question), Some([]), Some(""), Some(""), None,
      Some(0), Some(maxAttempts), Some(false), Some(history))
  }

  /** What ask returns once the graph has run: the final generation, the
      fallback if there is none, or the text of the exception it raised. */
  function AnswerOf(outcome: Result<GraphState>): string {
    match outcome
    case Ok(t) => t.generation.GetOr(NoAnswer)
    case Fail(msg) => ErrorPrefix + msg
  }

  /** ask, as a function of the limit, the question, the history and the collaborators. */
  function Answer(maxAttempts: int, question: string, history: seq<Exchange>, c: Collaborators): string {
    if IsBlank(question) then InvalidQuestion
    else AnswerOf(Exec(Entry, InitialState(question, history, maxAttempts), c).outcome)
  }

  /** A blank question is refused without running the graph; any other one
      runs on its stripped text, which is a non-empty part of what was typed
      with no whitespace at either end. */
  lemma {:induction false} QuestionValidation(maxAttempts: int, question: string, history: seq<Exchange>, c: Collaborators)
    ensures IsBlank(question) <==> AllSpace(question)
    ensures IsBlank(question) ==> Answer(maxAttempts, question, history, c) == InvalidQuestion
    ensures !IsBlank(question) ==>
      var q := InitialState(question, history, maxAttempts).question;
      var i := LeadingSpace(question);
      && q != [] && !IsSpace(q[0]) && !IsSpace(q[|q| - 1])
      && i + |q| <= |question|
      && question == question[..i] + q + question[i + |q|..]
      && AllSpace(question[..i]) && AllSpace(question[i + |q|..])
  {
    StripSplits(question);
    assert InitialState(question, history, maxAttempts).question == Strip(question);
  }

  /** The fallback answer is never used: for a question that is not blank,
      ask returns either the final generation of the run, which always has
      one, or the error text of the exception the run raised. */
  lemma {:induction false} AnswerIsFinalGeneration(maxAttempts: int, question: string, history: seq<Exchange>, c: Collaborators)
    requires !IsBlank(question)
    ensures var e := Exec(Entry, InitialState(question, history, maxAttempts), c);
      && (e.outcome.Fail? ==> Answer(maxAttempts, question, history, c) == ErrorPrefix + e.outcome.msg)
      && (e.outcome.Ok? ==> e.outcome.value.generation == Some(Answer(maxAttempts, question, history, c)))
  {
    var n := RunFromEntry(InitialState(question, history, maxAttempts), c);
  }

  /** When the evaluator rejects every answer, ask returns the last answer
      with the clarification notice appended; the run behind it is the one
      NeverSatisfiedFromEntry describes, with max(1, max_attempts) cycles. */
  lemma {:induction false} AskNeverSatisfied(maxAttempts: int, question: string, history: seq<Exchange>, c: Collaborators)
    requires !IsBlank(question)
    requires forall k, q, g :: Judged(c, k, q, g, false)
    ensures EndsWithNotice(Answer(maxAttempts, question, history, c))
  {
    var s := InitialState(question, history, maxAttempts);
    var e := Exec(Entry, s, c);
    NeverSatisfiedFromEntry(s, c);
    RunExhausted(s, c);
    assert e.path[|e.path| - 1] == MaxAttemptsNode;
    ExhaustedNotice(c, s.question, MaxAttemptsOf(s), e);
    assert Answer(maxAttempts, question, history, c) == e.outcome.value.generation.value;
  }

  /** When the evaluator accepts every answer, ask returns the generator's
      first answer as it was produced, or the generation error text if that
      first call raised. */
  lemma {:induction false} AskSatisfiedAtOnce(maxAttempts: int, question: string, history: seq<Exchange>, c: Collaborators)
    requires !IsBlank(question)
    requires forall k, q, g :: Judged(c, k, q, g, true)
    ensures var r := c.generator(0, GenerationInputOf(AfterRetrieve(InitialState(question, history, maxAttempts), c)));
      && (r.Ok? ==> Answer(maxAttempts, question, history, c) == r.value)
      && (r.Fail? ==> Answer(maxAttempts, question, history, c) == GenerationErrorPrefix + r.msg)
  {
    SatisfiedAtOnce(InitialState(question, history, maxAttempts), c);
  }

  /** When the evaluator raises on its first call, ask returns the error text. */
  lemma {:induction false} AskEvaluatorRaises(maxAttempts: int, question: string, history: seq<Exchange>, c: Collaborators, msg: string)
    requires !IsBlank(question)
    requires forall q, g :: c.evaluator(0, q, g) == Fail(msg)
    ensures Answer(maxAttempts, question, history, c) == ErrorPrefix + msg
  {
    EvaluatorRaisesAtOnce(InitialState(question, history, maxAttempts), c, msg);
  }

  /** The chatbot: the attempt limit it passes to every run. */
  class RAGChatbot {
    var maxAttempts: int

    constructor (maxAttempts: int := DefaultMaxAttempts)
      ensures this.maxAttempts == maxAttempts
    {
      this.maxAttempts := maxAttempts;
    }

    /** ask: refuse a blank question, otherwise run the graph from the
        initial state and return its answer or the error text. */
    method Ask(question: string, chatHistory: seq<Exchange>, c: Collaborators) returns (answer: string)
      ensures answer == Answer(maxAttempts, question, chatHistory, c)
    {
      if IsBlank(question) {
        return InvalidQuestion;
      }
      var init := InitialState(question, chatHistory, maxAttempts);
      var outcome;
      ghost var path;
      outcome, path := Run(init, c);
      match outcome
      case Ok(t) =>
        answer := t.generation.GetOr(NoAnswer);
      case Fail(msg) =>
        answer := ErrorPrefix + msg;
    }
  }

  /** A chat widget message; content None when the dictionary has no "content" key. */
  datatype Message = Message(content: Option<string>)

  /** `msg.get("content", "")`. */
  function ContentOf(m: Message): string {
    m.content.GetOr("")
  }

  /** The pair of messages at positions i and i + 1. */
  function PairAt(h: seq<Message>, i: nat): Exchange
    requires i + 1 < |h|
  {
    Exchange(ContentOf(h[i]), ContentOf(h[i + 1]))
  }

  /** Both halves of an exchange are non-empty strings, i.e. truthy. */
  predicate Full(e: Exchange) {
    e.human != [] && e.assistant != []
  }

  /** The pairs respond keeps, walking the messages two at a time. */
  function Pairs(h: seq<Message>): seq<Exchange>
    decreases |h|
  {
    if |h| < 2 then []
    else (if Full(PairAt(h, 0)) then [PairAt(h, 0)] else []) + Pairs(h[2..])
  }

  /** The pairs at the even positions, with nothing dropped. */
  function RawPairs(h: seq<Message>): (r: seq<Exchange>)
    ensures |r| == |h| / 2
  {
    seq(|h| / 2, k requires 0 <= k < |h| / 2 => PairAt(h, 2 * k))
  }

  /** The exchanges of xs whose halves are both non-empty, in order. */
  function Keep(xs: seq<Exchange>): (r: seq<Exchange>)
    ensures |r| <= |xs|
    ensures forall e :: e in r ==> e in xs && Full(e)
    ensures forall e :: e in xs && Full(e) ==> e in r
  {
    if xs == [] then [] else (if Full(xs[0]) then [xs[0]] else []) + Keep(xs[1..])
  }

  /** Keeping distributes over concatenation, so the kept pairs stay in order. */
  lemma {:induction false} KeepAppend(xs: seq<Exchange>, ys: seq<Exchange>)
    ensures Keep(xs + ys) == Keep(xs) + Keep(ys)
    decreases |xs|
  {
    if xs != [] {
      KeepAppend(xs[1..], ys);
      var head := if Full(xs[0]) then [xs[0]] else [];
      AppendTail(xs, ys);
      assert Keep(xs + ys) == head + Keep(xs[1..] + ys);
      assert head + (Keep(xs[1..]) + Keep(ys)) == (head + Keep(xs[1..])) + Keep(ys);
    } else {
      assert xs + ys == ys;
    }
  }

  lemma {:induction false} RawPairsCons(h: seq<Message>)
    requires |h| >= 2
    ensures RawPairs(h) == [PairAt(h, 0)] + RawPairs(h[2..])
  {
    var r := RawPairs(h);
    var t := RawPairs(h[2..]);
    forall k | 1 <= k < |r| ensures r[k] == t[k - 1] {
      assert PairAt(h, 2 * k) == PairAt(h[2..], 2 * (k - 1));
    }
  }

  /** respond's pairing is the list of message pairs at even positions,
      in order, with the pairs that have an empty side dropped. */
  lemma {:induction false} PairsAreKeptRawPairs(h: seq<Message>)
    ensures Pairs(h) == Keep(RawPairs(h))
    decreases |h|
  {
    if |h| >= 2 {
      RawPairsCons(h);
      PairsAreKeptRawPairs(h[2..]);
      var r := RawPairs(h);
      assert r[0] == PairAt(h, 0) && r[1..] == RawPairs(h[2..]);
    }
  }

  /** A trailing message without its reply is ignored. */
  lemma {:induction false} OddTailIgnored(h: seq<Message>, m: Message)
    requires |h| % 2 == 0
    ensures Pairs(h + [m]) == Pairs(h)
    decreases |h|
  {
    if |h| >= 2 {
      assert (h + [m])[2..] == h[2..] + [m];
      assert PairAt(h + [m], 0) == PairAt(h, 0);
      OddTailIgnored(h[2..], m);
    }
  }

  /** The pairs from position i on: the pair at i, if kept, then the pairs from i + 2 on. */
  lemma {:induction false} PairsFrom(h: seq<Message>, i: nat)
    requires i + 1 < |h|
    ensures Pairs(h[i..]) == (if Full(PairAt(h, i)) then [PairAt(h, i)] else []) + Pairs(h[i + 2..])
  {
    assert h[i..][2..] == h[i + 2..];
    assert PairAt(h[i..], 0) == PairAt(h, i);
  }

  /** The while loop of respond that collects the pairs. */
  method PairHistory(history: seq<Message>) returns (pairs: seq<Exchange>)
    ensures pairs == Pairs(history)
  {
    pairs := [];
    var i := 0;
    while i + 1 < |history|
      invariant 0 <= i <= |history|
      invariant pairs + Pairs(history[i..]) == Pairs(history)
    {
      var user := ContentOf(history[i]);
      var assistant := ContentOf(history[i + 1]);
      PairsFrom(history, i);
      if user != [] && assistant != [] {
        assert pairs + [Exchange(user, assistant)] + Pairs(history[i + 2..])
            == pairs + ([Exchange(user, assistant)] + Pairs(history[i + 2..]));
        pairs := pairs + [Exchange(user, assistant)];
      } else {
        assert [] + Pairs(history[i + 2..]) == Pairs(history[i + 2..]);
      }
      i := i + 2;
    }
    assert Pairs(history[i..]) == [];
    assert pairs + [] == pairs;
  }

  /** respond: pair the messages, keep the last ten pairs and ask. */
  method Respond(message: string, history: seq<Message>, bot: RAGChatbot, c: Collaborators) returns (response: string)
    ensures response == Answer(bot.maxAttempts, message, Last(Pairs(history), HistoryLimit), c)
  {
    var pairs := PairHistory(history);
    var recent := Last(pairs, HistoryLimit);
    response := bot.Ask(message, recent, c);
  }
}
