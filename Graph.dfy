/** The workflow of graph/graph.py: the router after evaluate, the
    max-attempts handler, the node wiring, and the runtime loop that runs a
    node, merges its update into the state and follows the wiring to the next
    node until END. */
module Graph {
  import opened Wrappers
  import opened State
  import opened Calls
  import opened RetrieveNode
  import opened GenerateNode
  import opened EvaluateNode

  /** The labels should_continue returns: "generate", "end", "max_attempts". */
  datatype Route = ToGenerate | ToEnd | ToMaxAttempts

  /** The nodes of the graph; MaxAttemptsNode is the node named "max_attempts"
      and End stands for END. */
  datatype Node = Retrieve | Generate | Evaluate | MaxAttemptsNode | End

  /** The notice handle_max_attempts appends to the last generation. */
  const ClarificationNotice :=
    "\n\n---\n"
    + "**Note:** I was unable to fully answer your question after multiple attempts. "
    + "Could you please clarify or rephrase your question? "
    + "More specific details would help me provide a better answer."

  /** g ends with the notice. */
  predicate EndsWithNotice(g: string) {
    |g| >= |ClarificationNotice| && g[|g| - |ClarificationNotice|..] == ClarificationNotice
  }

  /** should_continue: finish when the answer is ready, give up once the
      attempts reach the limit, and otherwise generate again. */
  function ShouldContinue(s: GraphState): (r: Route)
    ensures AnswerReadyOf(s) ==> r == ToEnd
    ensures r == ToMaxAttempts <==> !AnswerReadyOf(s) && AttemptsOf(s) >= MaxAttemptsOf(s)
    ensures r == ToGenerate <==> !AnswerReadyOf(s) && AttemptsOf(s) < MaxAttemptsOf(s)
  {
    if AnswerReadyOf(s) then ToEnd
    else if AttemptsOf(s) >= MaxAttemptsOf(s) then ToMaxAttempts
    else ToGenerate
  }

  /** handle_max_attempts: the last generation (or "" when there is none)
      followed by the clarification notice, and the answer marked ready. */
  function HandleMaxAttempts(s: GraphState): (u: Update)
    ensures Keys(u) == {Generation, AnswerReady}
    ensures u.answerReady == Some(true)
    ensures var prior := s.generation.GetOr(""); var g := u.generation.value;
      && |g| == |prior| + |ClarificationNotice|
      && g[..|prior|] == prior
      && g[|prior|..] == ClarificationNotice
  {
    NoUpdate.(generation := Some(s.generation.GetOr("") + ClarificationNotice), answerReady := Some(true))
  }

  /** The entry point and the edges build_graph adds, the conditional edges
      of evaluate included. */
  const Entry := Retrieve

  predicate IsEdge(from: Node, to: Node) {
    || (from == Retrieve && to == Generate)
    || (from == Generate && to == Evaluate)
    || (from == Evaluate && (to == Generate || to == End || to == MaxAttemptsNode))
    || (from == MaxAttemptsNode && to == End)
  }

  /** The path map of the conditional edges out of evaluate. */
  function RouteTarget(r: Route): Node {
    match r
    case ToGenerate => Generate
    case ToEnd => End
    case ToMaxAttempts => MaxAttemptsNode
  }

  /** One step of the runtime: the node's update merged into the state, and
      the node to run next. */
  datatype Transition = Transition(next: Node, state: GraphState)

  /** The generate/evaluate cycles still allowed before the router gives up. */
  function Remaining(s: GraphState): nat {
    if MaxAttemptsOf(s) > AttemptsOf(s) then MaxAttemptsOf(s) - AttemptsOf(s) else 0
  }

  /** A node's distance from END along the wiring, retries aside. */
  function Rank(n: Node): nat {
    match n
    case Retrieve => 4
    case Generate => 3
    case Evaluate => 2
    case MaxAttemptsNode => 1
    case End => 0
  }

  /** Run one node on the state. Only evaluate can raise. */
  function Step(node: Node, s: GraphState, c: Collaborators): (r: Result<Transition>)
    requires node != End
    ensures r.Fail? ==> node == Evaluate
    ensures r.Ok? ==> IsEdge(node, r.value.next)
    ensures r.Ok? ==>
      || Remaining(r.value.state) < Remaining(s)
      || (Remaining(r.value.state) == Remaining(s) && Rank(r.value.next) < Rank(node))
    ensures r.Ok? ==> AttemptsOf(r.value.state) == AttemptsOf(s) + (if node == Evaluate then 1 else 0)
    ensures r.Ok? && (node == Evaluate || node == MaxAttemptsNode) ==>
      (r.value.next == End <==> AnswerReadyOf(r.value.state))
    ensures r.Ok? ==>
      && r.value.state.question == s.question && r.value.state.maxAttempts == s.maxAttempts
      && r.value.state.chatHistory == s.chatHistory
  {
    match node
    case Retrieve => Ok(Transition(Generate, Merge(s, RetrieveUpdate(s, c.retriever))))
    case Generate => Ok(Transition(Evaluate, Merge(s, GenerateUpdate(s, c.generator))))
    case Evaluate =>
      (match EvaluateUpdate(s, c.evaluator)
       case Fail(msg) => Fail(msg)
       case Ok(u) =>
         var t := Merge(s, u);
         Ok(Transition(RouteTarget(ShouldContinue(t)), t)))
    case MaxAttemptsNode => Ok(Transition(End, Merge(s, HandleMaxAttempts(s))))
  }

  /** A run: the final state or the exception that escaped, and the nodes
      executed, in order. */
  datatype Execution = Execution(outcome: Result<GraphState>, path: seq<Node>)

  /** The run of the compiled graph from node on state s. */
  function Exec(node: Node, s: GraphState, c: Collaborators): Execution
    decreases Remaining(s), Rank(node)
  {
    if node == End then Execution(Ok(s), [])
    else
      match Step(node, s, c)
      case Fail(msg) => Execution(Fail(msg), [node])
      case Ok(Transition(next, t)) =>
        var rest := Exec(next, t, c);
        Execution(rest.outcome, [node] + rest.path)
  }

  lemma {:induction false} ExecStep(node: Node, s: GraphState, c: Collaborators)
    requires node != End
    ensures Step(node, s, c).Fail? ==> Exec(node, s, c) == Execution(Fail(Step(node, s, c).msg), [node])
    ensures Step(node, s, c).Ok? ==>
      var t := Step(node, s, c).value;
      Exec(node, s, c) == Execution(Exec(t.next, t.state, c).outcome, [node] + Exec(t.next, t.state, c).path)
  {
  }

  /** Run one node and pick its successor, as the compiled graph does. */
  method RunNode(node: Node, s: GraphState, c: Collaborators) returns (r: Result<Transition>)
    requires node != End
    ensures r == Step(node, s, c)
  {
    match node
    case Retrieve =>
      var u := RetrieveNode.Retrieve(s, c);
      r := Ok(Transition(Generate, Merge(s, u)));
    case Generate =>
      var u := GenerateNode.Generate(s, c);
      r := Ok(Transition(Evaluate, Merge(s, u)));
    case Evaluate =>
      var e := EvaluateUpdate(s, c.evaluator);
      if e.Fail? {
        r := Fail(e.msg);
      } else {
        var t := Merge(s, e.value);
        r := Ok(Transition(RouteTarget(ShouldContinue(t)), t));
      }
    case MaxAttemptsNode =>
      r := Ok(Transition(End, Merge(s, HandleMaxAttempts(s))));
  }

  /** app.invoke(state): the runtime loop. Each iteration runs the current
      node, merges its partial update into the state and follows the wiring;
      an exception from evaluate ends the run. */
  method Run(init: GraphState, c: Collaborators) returns (outcome: Result<GraphState>, ghost path: seq<Node>)
    ensures outcome == Exec(Entry, init, c).outcome
    ensures path == Exec(Entry, init, c).path
  {
    var node := Entry;
    var s := init;
    path := [];
    while node != End
      invariant path + Exec(node, s, c).path == Exec(Entry, init, c).path
      invariant Exec(node, s, c).outcome == Exec(Entry, init, c).outcome
      decreases Remaining(s), Rank(node)
    {
      var r := RunNode(node, s, c);
      ExecStep(node, s, c);
      path := path + [node];
      if r.Fail? {
        outcome := Fail(r.msg);
        return;
      }
      node, s := r.value.next, r.value.state;
    }
    outcome := Ok(s);
  }
}
