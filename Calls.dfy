/** The three external calls the graph makes: the vector-store retriever,
    the generation chain and the evaluation chain. Each is a parameter of
    the model; a call that raises returns Fail with the exception's text. */
module Calls {
  import opened Wrappers
  import opened State

  /** GradeAnswer: the evaluator's structured verdict. */
  datatype Verdict = Verdict(binaryScore: bool, feedback: string)

  /** The four template variables the generation chain is invoked with. */
  datatype GenerationInput = GenerationInput(question: string, context: string, feedback: string, chatHistory: string)

  /** The generator and the evaluator also receive the attempts counter at the
      time of the call, so that repeated calls may answer differently, as a
      language model does. */
  datatype Collaborators = Collaborators(
    retriever: string -> Result<seq<Document>>,
    generator: (int, GenerationInput) -> Result<string>,
    evaluator: (int, string, string) -> Result<Verdict>)
}
