/** What every run of the graph does: the order of the nodes, the bound on
    generate/evaluate cycles, how a run ends, and the scenarios that follow. */
module GraphProofs {
  import opened Wrappers
  import opened State
  import opened Calls
  import opened RetrieveNode
  import opened GenerateNode
  import opened EvaluateNode
  import opened Graph

  /** n generate/evaluate cycles, in order. */
  function Cycles(n: nat): seq<Node> {
    if n == 0 then [] else [Generate, Evaluate] + Cycles(n - 1)
  }

  function Max1(n: nat): nat {
    if n < 1 then 1 else n
  }

  /** The state after the retrieve node. */
  function AfterRetrieve(s: GraphState, c: Collaborators): GraphState {
    Merge(s, RetrieveUpdate(s, c.retriever))
  }

  /** The state after the generate node. */
  function AfterGenerate(s: GraphState, c: Collaborators): GraphState {
    Merge(s, GenerateUpdate(s, c.generator))
  }

  /** The keys the generate/evaluate loop never writes agree. */
  predicate LoopFrame(s: GraphState, t: GraphState) {
    && t.question == s.question && t.documents == s.documents && t.context == s.context
    && t.maxAttempts == s.maxAttempts && t.chatHistory == s.chatHistory
  }

  /** g is what the generate node produced on a state that agrees with t on
      the keys the loop never writes, with one attempt fewer than t counts. */
  ghost predicate GeneratedFor(c: Collaborators, t: GraphState, g: string) {
    exists s :: LoopFrame(s, t) && AttemptsOf(s) == AttemptsOf(t) - 1 && AfterGenerate(s, c).generation == Some(g)
  }

  /** The evaluator, called with counter k, question q and answer g, returned the given score. */
  predicate Judged(c: Collaborators, k: int, q: string, g: string, score: bool) {
    c.evaluator(k, q, g).Ok? && c.evaluator(k, q, g).value.binaryScore == score
  }

  /** Where one generate/evaluate cycle leaves the run: the evaluator raised,
      or the router, given the evaluated state, sends it to END, to the
      max_attempts node or back to generate. */
  datatype CycleEnd = Raised(msg: string) | Accepted(state: GraphState) | Exhausted(state: GraphState) | Retry(state: GraphState)

  /** One generate/evaluate cycle from s. */
  function Cycle(s: GraphState, c: Collaborators): (r: CycleEnd)
    ensures !r.Raised? ==>
      && AttemptsOf(r.state) == AttemptsOf(s) + 1
      && LoopFrame(s, r.state)
      && r.state.generation == AfterGenerate(s, c).generation
      && r.state.generation.Some?
    ensures r.Raised? ==> c.evaluator(AttemptsOf(s), s.question, AfterGenerate(s, c).generation.value) == Fail(r.msg)
    ensures !r.Raised? ==> Judged(c, AttemptsOf(s), s.question, r.state.generation.value, r.Accepted?)
    ensures r.Accepted? ==> AnswerReadyOf(r.state) && r.state.feedback == None
    ensures r.Exhausted? ==> AttemptsOf(r.state) >= MaxAttemptsOf(s)
    ensures r.Retry? ==> AttemptsOf(r.state) < MaxAttemptsOf(s)
  {
    var s1 := AfterGenerate(s, c);
    match EvaluateUpdate(s1, c.evaluator)
    case Fail(m) => Raised(m)
    case Ok(u) =>
      var s2 := Merge(s1, u);
      match ShouldContinue(s2)
      case ToEnd => Accepted(s2)
      case ToMaxAttempts => Exhausted(s2)
      case ToGenerate => Retry(s2)
  }

  lemma {:induction false} CycleRaised(s: GraphState, c: Collaborators)
    requires Cycle(s, c).Raised?
    ensures Exec(Generate, s, c) == Execution(Fail(Cycle(s, c).msg), [Generate, Evaluate])
  {
    var s1 := AfterGenerate(s, c);
    ExecGenerate(s, c);
    ExecEvaluateFail(s1, c);
  }

  /** The state a cycle that does not raise ends in. */
  lemma {:induction false} CycleOk(s: GraphState, c: Collaborators)
    requires !Cycle(s, c).Raised?
    ensures var s1 := AfterGenerate(s, c);
      && EvaluateUpdate(s1, c.evaluator).Ok?
      && Cycle(s, c).state == Merge(s1, EvaluateUpdate(s1, c.evaluator).value)
  {
  }

  /** Where a cycle that does not raise routes the run. */
  lemma {:induction false} CycleState(s: GraphState, c: Collaborators)
    requires !Cycle(s, c).Raised?
    ensures var t := Cycle(s, c).state;
      var e := Exec(RouteTarget(ShouldContinue(t)), t, c);
      Exec(Generate, s, c) == Execution(e.outcome, [Generate, Evaluate] + e.path)
  {
    var s1 := AfterGenerate(s, c);
    var t := Cycle(s, c).state;
    var e := Exec(RouteTarget(ShouldContinue(t)), t, c);
    CycleOk(s, c);
    ExecEvaluateOk(s1, c);
    assert Exec(Evaluate, s1, c) == Execution(e.outcome, [Evaluate] + e.path);
    ExecGenerate(s, c);
    assert [Generate] + ([Evaluate] + e.path) == [Generate, Evaluate] + e.path;
  }

  lemma {:induction false} CycleAccepted(s: GraphState, c: Collaborators)
    requires Cycle(s, c).Accepted?
    ensures Exec(Generate, s, c) == Execution(Ok(Cycle(s, c).state), [Generate, Evaluate])
  {
    CycleState(s, c);
    assert ShouldContinue(Cycle(s, c).state) == ToEnd;
    assert [Generate, Evaluate] + [] == [Generate, Evaluate];
  }

  lemma {:induction false} CycleExhausted(s: GraphState, c: Collaborators)
    requires Cycle(s, c).Exhausted?
    ensures var t := Cycle(s, c).state;
      Exec(Generate, s, c) == Execution(Ok(Merge(t, HandleMaxAttempts(t))), [Generate, Evaluate, MaxAttemptsNode])
  {
    CycleState(s, c);
    var t := Cycle(s, c).state;
    assert ShouldContinue(t) == ToMaxAttempts;
    ExecStep(MaxAttemptsNode, t, c);
    assert Exec(MaxAttemptsNode, t, c) == Execution(Ok(Merge(t, HandleMaxAttempts(t))), [MaxAttemptsNode]);
  }

  lemma {:induction false} CycleRetry(s: GraphState, c: Collaborators)
    requires Cycle(s, c).Retry?
    ensures var e := Exec(Generate, Cycle(s, c).state, c);
      Exec(Generate, s, c) == Execution(e.outcome, [Generate, Evaluate] + e.path)
  {
    CycleState(s, c);
    assert ShouldContinue(Cycle(s, c).state) == ToGenerate;
  }

  lemma {:induction false} ExecRetrieve(s: GraphState, c: Collaborators)
    ensures var e := Exec(Generate, AfterRetrieve(s, c), c);
      Exec(Entry, s, c) == Execution(e.outcome, [Retrieve] + e.path)
  {
    ExecStep(Retrieve, s, c);
  }

  lemma {:induction false} ExecGenerate(s: GraphState, c: Collaborators)
    ensures var e := Exec(Evaluate, AfterGenerate(s, c), c);
      Exec(Generate, s, c) == Execution(e.outcome, [Generate] + e.path)
  {
    ExecStep(Generate, s, c);
  }

  lemma {:induction false} ExecEvaluateFail(s: GraphState, c: Collaborators)
    requires EvaluateUpdate(s, c.evaluator).Fail?
    ensures Exec(Evaluate, s, c) == Execution(Fail(EvaluateUpdate(s, c.evaluator).msg), [Evaluate])
  {
    ExecStep(Evaluate, s, c);
  }

  lemma {:induction false} ExecEvaluateOk(s: GraphState, c: Collaborators)
    requires EvaluateUpdate(s, c.evaluator).Ok?
    ensures var t := Merge(s, EvaluateUpdate(s, c.evaluator).value);
      var e := Exec(RouteTarget(ShouldContinue(t)), t, c);
      Exec(Evaluate, s, c) == Execution(e.outcome, [Evaluate] + e.path)
  {
    ExecStep(Evaluate, s, c);
  }


  lemma {:induction false} CyclesAt(n: nat)
    ensures |Cycles(n)| == 2 * n
    ensures forall i :: 0 <= i < 2 * n ==> Cycles(n)[i] == if i % 2 == 0 then Generate else Evaluate
  {
    if n > 0 {
      CyclesAt(n - 1);
      forall i | 2 <= i < 2 * n
        ensures Cycles(n)[i] == if i % 2 == 0 then Generate else Evaluate
      {
        assert Cycles(n)[i] == Cycles(n - 1)[i - 2];
      }
    }
  }

  /** Each run from Generate performs between 1 and max(1, remaining budget)
      cycles, may end with the max_attempts node only after its last cycle,
      and counts one attempt per cycle. */
  lemma {:induction false} LoopRun(s: GraphState, c: Collaborators) returns (n: nat)
    ensures var e := Exec(Generate, s, c);
      && 1 <= n <= Max1(Remaining(s))
      && (e.path == Cycles(n) || (e.outcome.Ok? && e.path == Cycles(n) + [MaxAttemptsNode]))
      && (e.outcome.Ok? ==> AttemptsOf(e.outcome.value) == AttemptsOf(s) + n)
    decreases Remaining(s)
  {
    var r := Cycle(s, c);
    n := 1;
    assert Cycles(1) == [Generate, Evaluate];
    if r.Raised? {
      CycleRaised(s, c);
    } else if r.Accepted? {
      CycleAccepted(s, c);
    } else if r.Exhausted? {
      CycleExhausted(s, c);
    } else {
      CycleRetry(s, c);
      var m := LoopRun(r.state, c);
      n := m + 1;
      assert Cycles(n) == [Generate, Evaluate] + Cycles(m);
    }
  }

  /** The state a finished run from s ends in: a ready answer, and the
      question, documents, context, limit and history of s. */
  predicate Finished(s: GraphState, t: GraphState) {
    AnswerReadyOf(t) && t.generation.Some? && LoopFrame(s, t)
  }

  /** A run from Generate that finishes ends with a ready answer and never
      writes the question, documents, context, limit or history. */
  lemma {:induction false} LoopResult(s: GraphState, c: Collaborators)
    ensures var e := Exec(Generate, s, c);
      e.outcome.Ok? ==> Finished(s, e.outcome.value)
    decreases Remaining(s)
  {
    var r := Cycle(s, c);
    if r.Raised? {
      CycleRaised(s, c);
    } else if r.Accepted? {
      CycleAccepted(s, c);
    } else if r.Exhausted? {
      CycleExhausted(s, c);
    } else {
      CycleRetry(s, c);
      LoopResult(r.state, c);
    }
  }

  /** e, a run for question q, if it finished through "end", returns,
      unmodified, the generation the evaluator accepted last, and leaves no
      feedback. */
  ghost predicate EndsAccepted(c: Collaborators, q: string, e: Execution) {
    e.outcome.Ok? && e.path != [] && e.path[|e.path| - 1] != MaxAttemptsNode ==>
      var t := e.outcome.value;
      && t.generation.Some?
      && Judged(c, AttemptsOf(t) - 1, q, t.generation.value, true)
      && GeneratedFor(c, t, t.generation.value)
      && t.feedback == None
  }

  /** The run of a cycle that ends at "end". */
  lemma {:induction false} AcceptedEnd(s: GraphState, c: Collaborators)
    requires Cycle(s, c).Accepted?
    ensures EndsAccepted(c, s.question, Exec(Generate, s, c))
  {
    CycleAccepted(s, c);
    var t := Cycle(s, c).state;
    assert AttemptsOf(t) - 1 == AttemptsOf(s);
    assert AfterGenerate(s, c).generation == Some(t.generation.value);
  }

  /** Prefixing a cycle keeps how a run ends. */
  lemma {:induction false} EndsAcceptedPrefix(c: Collaborators, q: string, pre: seq<Node>, e: Execution)
    requires EndsAccepted(c, q, e) && e.path != []
    ensures EndsAccepted(c, q, Execution(e.outcome, pre + e.path))
  {
    var p := pre + e.path;
    assert e.path != [] ==> p[|p| - 1] == e.path[|e.path| - 1];
  }

  /** A run from Generate that finishes through "end" returns, unmodified,
      the generation the evaluator accepted last, and leaves no feedback. */
  lemma {:induction false} LoopAccepted(s: GraphState, c: Collaborators)
    ensures EndsAccepted(c, s.question, Exec(Generate, s, c))
    decreases Remaining(s)
  {
    var r := Cycle(s, c);
    if r.Raised? {
      CycleRaised(s, c);
    } else if r.Accepted? {
      AcceptedEnd(s, c);
    } else if r.Exhausted? {
      CycleExhausted(s, c);
      assert [Generate, Evaluate, MaxAttemptsNode][2] == MaxAttemptsNode;
    } else {
      CycleRetry(s, c);
      LoopAccepted(r.state, c);
      ExecGenerate(r.state, c);
      EndsAcceptedPrefix(c, s.question, [Generate, Evaluate], Exec(Generate, r.state, c));
    }
  }

  /** e, a run for question q under limit m, if it finished through the
      max_attempts node, returns the last generation, which the evaluator
      rejected, followed by the notice, and its attempts reached the limit. */
  ghost predicate EndsExhausted(c: Collaborators, q: string, m: int, e: Execution) {
    e.outcome.Ok? && e.path != [] && e.path[|e.path| - 1] == MaxAttemptsNode ==>
      var t := e.outcome.value;
      && t.generation.Some?
      && var g := t.generation.value;
      && EndsWithNotice(g)
      && Judged(c, AttemptsOf(t) - 1, q, g[..|g| - |ClarificationNotice|], false)
      && GeneratedFor(c, t, g[..|g| - |ClarificationNotice|])
      && AttemptsOf(t) >= m
  }

  /** The run of a cycle that ends at the max_attempts node. */
  lemma {:induction false} ExhaustedEnd(s: GraphState, c: Collaborators)
    requires Cycle(s, c).Exhausted?
    ensures EndsExhausted(c, s.question, MaxAttemptsOf(s), Exec(Generate, s, c))
  {
    CycleExhausted(s, c);
    var t := Cycle(s, c).state;
    var u := HandleMaxAttempts(t);
    var t2 := Merge(t, u);
    assert t2.generation == u.generation;
    assert AttemptsOf(t2) == AttemptsOf(t);
    var g := t2.generation.value;
    assert g[..|g| - |ClarificationNotice|] == t.generation.value;
    assert LoopFrame(s, t2) && AttemptsOf(s) == AttemptsOf(t2) - 1;
    assert AfterGenerate(s, c).generation == Some(t.generation.value);
  }

  /** Prefixing a cycle keeps how a run ends. */
  lemma {:induction false} EndsExhaustedPrefix(c: Collaborators, q: string, m: int, pre: seq<Node>, e: Execution)
    requires EndsExhausted(c, q, m, e) && e.path != []
    ensures EndsExhausted(c, q, m, Execution(e.outcome, pre + e.path))
  {
    var p := pre + e.path;
    assert e.path != [] ==> p[|p| - 1] == e.path[|e.path| - 1];
  }

  /** A run from Generate that finishes through the max_attempts node
      returns the last generation, which the evaluator rejected, followed by
      the notice, and the attempts have reached the limit. */
  lemma {:induction false} LoopExhausted(s: GraphState, c: Collaborators)
    ensures EndsExhausted(c, s.question, MaxAttemptsOf(s), Exec(Generate, s, c))
    decreases Remaining(s)
  {
    var r := Cycle(s, c);
    if r.Raised? {
      CycleRaised(s, c);
    } else if r.Accepted? {
      CycleAccepted(s, c);
    } else if r.Exhausted? {
      ExhaustedEnd(s, c);
    } else {
      CycleRetry(s, c);
      LoopExhausted(r.state, c);
      ExecGenerate(r.state, c);
      EndsExhaustedPrefix(c, s.question, MaxAttemptsOf(s), [Generate, Evaluate], Exec(Generate, r.state, c));
    }
  }

  /** Consecutive nodes of p are joined by an edge of build_graph. */
  predicate Wired(p: seq<Node>) {
    forall i :: 0 <= i < |p| - 1 ==> IsEdge(p[i], p[i + 1])
  }

  lemma {:induction false} WiredCons(node: Node, q: seq<Node>)
    requires q != [] && IsEdge(node, q[0]) && Wired(q)
    ensures Wired([node] + q)
  {
    var p := [node] + q;
    forall i | 0 <= i < |p| - 1 ensures IsEdge(p[i], p[i + 1]) {
      if i > 0 {
        assert p[i] == q[i - 1] && p[i + 1] == q[i];
      }
    }
  }

  /** Every run follows the wiring of build_graph: consecutive nodes are
      joined by an edge, the first node is the one the run starts from, and
      the last is evaluate or max_attempts. */
  lemma {:induction false} ExecFollowsWiring(node: Node, s: GraphState, c: Collaborators)
    requires node != End
    ensures var p := Exec(node, s, c).path;
      && p != [] && p[0] == node
      && (p[|p| - 1] == Evaluate || p[|p| - 1] == MaxAttemptsNode)
      && Wired(p)
    decreases Remaining(s), Rank(node)
  {
    ExecStep(node, s, c);
    var r := Step(node, s, c);
    if r.Ok? && r.value.next != End {
      var t := r.value;
      ExecFollowsWiring(t.next, t.state, c);
      var q := Exec(t.next, t.state, c).path;
      WiredCons(node, q);
      assert ([node] + q)[|q|] == q[|q| - 1];
    }
  }

  /** A whole run: retrieve exactly once and first, then between 1 and
      max(1, max_attempts - attempts) generate/evaluate cycles, then possibly
      the max_attempts node, last. A finished run has counted one attempt per
      cycle and carries the retrieved context and the unchanged question,
      limit and history. */
  lemma {:induction false} RunFromEntry(s: GraphState, c: Collaborators) returns (n: nat)
    ensures var e := Exec(Entry, s, c);
      && 1 <= n <= Max1(Remaining(s))
      && (e.path == [Retrieve] + Cycles(n) || (e.outcome.Ok? && e.path == [Retrieve] + Cycles(n) + [MaxAttemptsNode]))
      && (forall i :: 0 <= i < |e.path| ==> (e.path[i] == Retrieve <==> i == 0))
      && (e.outcome.Ok? ==>
           && AttemptsOf(e.outcome.value) == AttemptsOf(s) + n
           && Finished(AfterRetrieve(s, c), e.outcome.value))
  {
    var s1 := AfterRetrieve(s, c);
    assert AttemptsOf(s1) == AttemptsOf(s) && Remaining(s1) == Remaining(s);
    ExecRetrieve(s, c);
    n := LoopRun(s1, c);
    LoopResult(s1, c);
    var p := Exec(Entry, s, c).path;
    var p1 := Exec(Generate, s1, c).path;
    assert p == [Retrieve] + p1;
    CyclesAt(n);
    forall i | 0 < i < |p| ensures p[i] != Retrieve {
      assert p[i] == p1[i - 1];
    }
  }

  /** After an unsatisfied verdict with attempts still left, the next
      generation is asked with the evaluator's critique as its feedback (the
      placeholder if the critique is empty), and with the same question,
      context and history. */
  lemma {:induction false} FeedbackReachesNextGeneration(s: GraphState, c: Collaborators, critique: string)
    requires s.generation.Some?
    requires c.evaluator(AttemptsOf(s), s.question, s.generation.value) == Ok(Verdict(false, critique))
    requires AttemptsOf(s) + 1 < MaxAttemptsOf(s)
    ensures Step(Evaluate, s, c).Ok? && Step(Evaluate, s, c).value.next == Generate
    ensures var t := Step(Evaluate, s, c).value.state;
      && GenerationInputOf(t).feedback == OrElse(critique, NoFeedback)
      && GenerationInputOf(t).question == GenerationInputOf(s).question
      && GenerationInputOf(t).context == GenerationInputOf(s).context
      && GenerationInputOf(t).chatHistory == GenerationInputOf(s).chatHistory
  {
  }

  /** A cycle whose evaluator rejects every answer neither raises nor ends the run through "end". */
  lemma {:induction false} CycleRejected(s: GraphState, c: Collaborators)
    requires forall k, q, g :: Judged(c, k, q, g, false)
    ensures Cycle(s, c).Exhausted? || Cycle(s, c).Retry?
  {
    var g := AfterGenerate(s, c).generation.value;
    assert Judged(c, AttemptsOf(s), s.question, g, false);
  }

  /** With an evaluator that rejects every answer, a run from Generate uses
      up exactly max(1, remaining budget) cycles and then the max_attempts
      node, and ends with the notice appended. */
  lemma {:induction false} NeverSatisfied(s: GraphState, c: Collaborators)
    requires forall k, q, g :: Judged(c, k, q, g, false)
    ensures var e := Exec(Generate, s, c);
      && e.outcome.Ok?
      && e.path == Cycles(Max1(Remaining(s))) + [MaxAttemptsNode]
    decreases Remaining(s)
  {
    var r := Cycle(s, c);
    CycleRejected(s, c);
    if r.Exhausted? {
      CycleExhausted(s, c);
      assert Cycles(1) == [Generate, Evaluate];
    } else {
      CycleRetry(s, c);
      NeverSatisfied(r.state, c);
      var n := Max1(Remaining(r.state));
      assert Cycles(n + 1) == [Generate, Evaluate] + Cycles(n);
    }
  }

  /** With an evaluator that rejects every answer, a whole run is retrieve,
      max(1, remaining budget) cycles and the max_attempts node. */
  lemma {:induction false} NeverSatisfiedFromEntry(s: GraphState, c: Collaborators)
    requires forall k, q, g :: Judged(c, k, q, g, false)
    ensures var e := Exec(Entry, s, c);
      && e.path == [Retrieve] + Cycles(Max1(Remaining(s))) + [MaxAttemptsNode]
      && e.outcome.Ok?
  {
    var s1 := AfterRetrieve(s, c);
    assert Remaining(s1) == Remaining(s);
    ExecRetrieve(s, c);
    NeverSatisfied(s1, c);
  }

  /** A whole run that finishes through the max_attempts node returns the
      last generation, which the evaluator rejected, followed by the notice. */
  lemma {:induction false} RunExhausted(s: GraphState, c: Collaborators)
    ensures EndsExhausted(c, s.question, MaxAttemptsOf(s), Exec(Entry, s, c))
  {
    var s1 := AfterRetrieve(s, c);
    assert s1.question == s.question && MaxAttemptsOf(s1) == MaxAttemptsOf(s);
    ExecRetrieve(s, c);
    LoopExhausted(s1, c);
    ExecGenerate(s1, c);
    EndsExhaustedPrefix(c, s.question, MaxAttemptsOf(s), [Retrieve], Exec(Generate, s1, c));
  }

  /** A run that ended at the max_attempts node has a generation ending with the notice. */
  lemma {:induction false} ExhaustedNotice(c: Collaborators, q: string, m: int, e: Execution)
    requires EndsExhausted(c, q, m, e) && e.outcome.Ok? && e.path != [] && e.path[|e.path| - 1] == MaxAttemptsNode
    ensures e.outcome.value.generation.Some?
    ensures EndsWithNotice(e.outcome.value.generation.value)
  {
  }

  /** With an evaluator that accepts every answer, the run is retrieve,
      generate, evaluate, and the answer is the first generation as produced. */
  lemma {:induction false} SatisfiedAtOnce(s: GraphState, c: Collaborators)
    requires forall k, q, g :: Judged(c, k, q, g, true)
    ensures var e := Exec(Entry, s, c);
      && e.path == [Retrieve, Generate, Evaluate]
      && e.outcome.Ok?
      && e.outcome.value.generation == GenerateUpdate(AfterRetrieve(s, c), c.generator).generation
  {
    var s1 := AfterRetrieve(s, c);
    var s2 := AfterGenerate(s1, c);
    ExecStep(Retrieve, s, c);
    ExecStep(Generate, s1, c);
    ExecStep(Evaluate, s2, c);
    assert Judged(c, AttemptsOf(s2), s2.question, s2.generation.value, true);
  }

  /** An evaluator that raises on its first call ends the run with that
      exception after retrieve, generate and evaluate; nothing is returned. */
  lemma {:induction false} EvaluatorRaisesAtOnce(s: GraphState, c: Collaborators, msg: string)
    requires forall q, g :: c.evaluator(AttemptsOf(s), q, g) == Fail(msg)
    ensures Exec(Entry, s, c) == Execution(Fail(msg), [Retrieve, Generate, Evaluate])
  {
    var s1 := AfterRetrieve(s, c);
    var s2 := AfterGenerate(s1, c);
    ExecStep(Retrieve, s, c);
    ExecStep(Generate, s1, c);
    ExecStep(Evaluate, s2, c);
    assert c.evaluator(AttemptsOf(s2), s2.question, s2.generation.value) == Fail(msg);
  }

  /** A raising retriever is absorbed: the run goes on to generate, which is
      asked with the sentinel context, and the sentinel stays the context of
      the finished run. */
  lemma {:induction false} RetrieverRaises(s: GraphState, c: Collaborators)
    requires c.retriever(s.question).Fail?
    ensures GenerationInputOf(AfterRetrieve(s, c)).context == NoDocumentsContext
    ensures AfterRetrieve(s, c).documents == Some([])
    ensures var p := Exec(Entry, s, c).path; |p| >= 3 && p[0] == Retrieve && p[1] == Generate
    ensures Exec(Entry, s, c).outcome.Ok? ==> Exec(Entry, s, c).outcome.value.context == Some(NoDocumentsContext)
  {
    var n := RunFromEntry(s, c);
    CyclesAt(n);
    var p := Exec(Entry, s, c).path;
    assert p[1] == ([Retrieve] + Cycles(n))[1];
  }
}
