/** The evaluate node (graph/nodes/evaluate.py): one evaluator call, then an
    update of exactly attempts, answer_ready and feedback. */
module EvaluateNode {
  import opened Wrappers
  import opened State
  import opened Calls

  /** str() of the KeyError raised by state["generation"] when the key is absent. */
  const MissingGeneration := "'generation'"

  /** What evaluate returns, or the exception it lets escape. */
  function EvaluateUpdate(s: GraphState, evaluator: (int, string, string) -> Result<Verdict>): (r: Result<Update>)
    ensures s.generation.None? ==> r == Fail(MissingGeneration)
    ensures s.generation.Some? ==>
      (r.Fail? <==> evaluator(AttemptsOf(s), s.question, s.generation.value).Fail?)
    ensures r.Fail? && s.generation.Some? ==>
      r.msg == evaluator(AttemptsOf(s), s.question, s.generation.value).msg
    ensures r.Ok? ==> Keys(r.value) == {Attempts, AnswerReady, Feedback}
    ensures r.Ok? ==>
      var v := evaluator(AttemptsOf(s), s.question, s.generation.value).value;
      var t := Merge(s, r.value);
      && AttemptsOf(t) == AttemptsOf(s) + 1
      && AnswerReadyOf(t) == v.binaryScore
      && t.feedback == (if v.binaryScore then None else Some(v.feedback))
      && t.question == s.question && t.generation == s.generation && t.context == s.context
      && t.documents == s.documents && t.chatHistory == s.chatHistory && t.maxAttempts == s.maxAttempts
  {
    if s.generation.None? then Fail(MissingGeneration)
    else
      var attempts := AttemptsOf(s) + 1;
      match evaluator(AttemptsOf(s), s.question, s.generation.value)
      case Fail(msg) => Fail(msg)
      case Ok(v) =>
        Ok(NoUpdate.(
          attempts := Some(attempts),
          answerReady := Some(v.binaryScore),
          feedback := Some(if v.binaryScore then None else Some(v.feedback))))
  }
}
