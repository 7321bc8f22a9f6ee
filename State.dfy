/** The session state threaded through one run of the graph (graph/state.py),
    the partial updates its nodes return, and how a partial update is merged. */
module State {
  import opened Wrappers

  /** A text chunk as the retriever returns it and ingestion stores it:
      its content and the two metadata keys the chatbot reads or writes. */
  datatype Document = Document(pageContent: string, source: Option<string>, sectionIndex: Option<nat>)

  /** One earlier (human, assistant) message pair of the conversation. */
  datatype Exchange = Exchange(human: string, assistant: string)

  /** GraphState. The state is a dictionary, so every key but the question may
      be absent (None); feedback None stands both for an absent key and for a
      stored None, which every reader treats alike. */
  datatype GraphState = GraphState(
    question: string,
    documents: Option<seq<Document>>,
    context: Option<string>,
    generation: Option<string>,
    feedback: Option<string>,
    attempts: Option<int>,
    maxAttempts: Option<int>,
    answerReady: Option<bool>,
    chatHistory: Option<seq<Exchange>>)

  /** The keys of GraphState. */
  datatype Key = Question | Documents | Context | Generation | Feedback | Attempts | MaxAttempts | AnswerReady | ChatHistory

  /** The dictionary a node returns: Some(v) for each key it sets. No node
      sets question, max_attempts or chat_history. */
  datatype Update = Update(
    documents: Option<seq<Document>>,
    context: Option<string>,
    generation: Option<string>,
    feedback: Option<Option<string>>,
    attempts: Option<int>,
    answerReady: Option<bool>)

  const NoUpdate := Update(None, None, None, None, None, None)

  /** The keys an update sets. */
  function Keys(u: Update): set<Key> {
    (if u.documents.Some? then {Documents} else {})
    + (if u.context.Some? then {Context} else {})
    + (if u.generation.Some? then {Generation} else {})
    + (if u.feedback.Some? then {Feedback} else {})
    + (if u.attempts.Some? then {Attempts} else {})
    + (if u.answerReady.Some? then {AnswerReady} else {})
  }

  /** s and t hold the same value under key k. */
  predicate SameAt(s: GraphState, t: GraphState, k: Key) {
    match k
    case Question => s.question == t.question
    case Documents => s.documents == t.documents
    case Context => s.context == t.context
    case Generation => s.generation == t.generation
    case Feedback => s.feedback == t.feedback
    case Attempts => s.attempts == t.attempts
    case MaxAttempts => s.maxAttempts == t.maxAttempts
    case AnswerReady => s.answerReady == t.answerReady
    case ChatHistory => s.chatHistory == t.chatHistory
  }

  /** t holds under key k the value u sets for it. */
  predicate TakesFrom(t: GraphState, u: Update, k: Key) {
    match k
    case Documents => t.documents == u.documents
    case Context => t.context == u.context
    case Generation => t.generation == u.generation
    case Feedback => u.feedback == Some(t.feedback)
    case Attempts => t.attempts == u.attempts
    case AnswerReady => t.answerReady == u.answerReady
    case _ => false
  }

  /** How the graph runtime applies a node's update to the state: every key
      the update sets is overwritten, every other key keeps its value. */
  function Merge(s: GraphState, u: Update): (t: GraphState)
    ensures forall k :: k in Keys(u) ==> TakesFrom(t, u, k)
    ensures forall k :: k !in Keys(u) ==> SameAt(s, t, k)
  {
    GraphState(
      s.question,
      if u.documents.Some? then u.documents else s.documents,
      if u.context.Some? then u.context else s.context,
      if u.generation.Some? then u.generation else s.generation,
      if u.feedback.Some? then u.feedback.value else s.feedback,
      if u.attempts.Some? then u.attempts else s.attempts,
      s.maxAttempts,
      if u.answerReady.Some? then u.answerReady else s.answerReady,
      s.chatHistory)
  }

  /** The value readers use for attempts: state.get("attempts", 0). */
  function AttemptsOf(s: GraphState): int {
    s.attempts.GetOr(0)
  }

  /** The value the router uses for max_attempts: state.get("max_attempts", 5). */
  function MaxAttemptsOf(s: GraphState): int {
    s.maxAttempts.GetOr(5)
  }

  /** The value the router uses for answer_ready: state.get("answer_ready", False). */
  function AnswerReadyOf(s: GraphState): bool {
    s.answerReady.GetOr(false)
  }
}
