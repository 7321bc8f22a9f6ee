# RAG chatbot: the evaluator-optimizer loop, in Dafny

This project models the core of a retrieval-augmented chatbot that answers
one question at a time. The core covers:

- The compiled workflow graph. `retrieve` fetches documents and assembles a
  numbered context. `generate` asks the generator for an answer, passing the
  last ten exchanges of history and the evaluator's feedback. `evaluate` asks
  the evaluator for a verdict and counts the attempt.
- The router `should_continue`. It ends the run, loops back to `generate`, or
  hands over to `max_attempts`. That node appends a clarification notice and
  ends the run.
- The chatbot front end. `RAGChatbot.ask` validates the question, builds the
  initial state, runs the graph and turns an exception into a message.
  `respond` turns the chat widget's message list into (user, assistant) pairs
  and keeps the last ten.
- The text sectioning of `build_vector_db`. It joins the PDF pages, collapses
  whitespace, cuts the text at a delimiter, strips and filters the sections,
  and numbers them from 0.

The retriever, the generator chain and the evaluator chain are parameters
(`Calls.Collaborators`). Each returns `Ok(value)` or `Fail(message)`, where
`Fail` stands for an exception.

- The generator and the evaluator also receive the current attempt counter.
  Repeated calls may therefore answer differently, as a language model does.
  A scenario can thus fix the verdict of each attempt.
- The graph state is a record whose fields are `Option`s, because the state
  is a dictionary and a key may be missing.
- Each node returns a partial update (`State.Update`). The runtime merges it
  (`State.Merge`): keys the update sets are overwritten and every other key
  keeps its value.

The runtime is stated twice:

- `Graph.Exec` is a recursive function. It returns the final state (or the
  escaping exception) together with the list of nodes executed. It terminates
  on the measure `(max_attempts - attempts, distance to END)`.
- `Graph.Run` is the imperative loop. It is proved to compute exactly
  `Exec(Entry, …)`.

The node bodies that loop in the source are methods, each proved equal to a
specification function:

- `RetrieveNode.Retrieve` for the context parts;
- `GenerateNode.RenderHistory` for the history lines;
- `Chatbot.PairHistory` for the message pairing.

The Python string operations the source relies on are modelled in `Text`:

- `str.strip()` and `str.isspace()` over Python's whitespace set;
- `str.split()` and `str.split(sep)`;
- `sep.join`;
- the slice `xs[-n:]`;
- the decimal rendering of an int in an f-string.

Modules:

| module | models |
|---|---|
| `Wrappers` | `Option`, `Result` |
| `Text` | Python string helpers |
| `State` | `graph/state.py` and the runtime's merge of partial updates |
| `Calls` | the three collaborators and the values they exchange |
| `RetrieveNode` | `graph/nodes/retrieve.py` |
| `GenerateNode` | `graph/nodes/generate.py` |
| `EvaluateNode` | `graph/nodes/evaluate.py` |
| `Graph` | `graph/graph.py`: router, max-attempts handler, wiring, runtime loop |
| `GraphProofs` | properties of whole runs |
| `Chatbot` | `main.py`: `RAGChatbot`, `respond` |
| `Ingestion` | `ingestion.py`: the sectioning in `build_vector_db` |

## Model

| member | source | states |
|---|---|---|
| `State.Merge` | graph/state.py:7-27 | Every key the node's update sets takes the update's value. Every other key is unchanged. The question, max_attempts and chat_history are never written. |
| `Text.Strip` | main.py:39-44 | `str.strip()`: the result is a contiguous slice of the input starting after its leading whitespace. Only whitespace lies before and after that slice. The result has no whitespace at either end. It is empty exactly when the input is all whitespace. |
| `Text.StripSplits` | main.py:39-44 | The input is its leading whitespace, then `str.strip()`'s result, then its trailing whitespace. |
| `Text.Words` | ingestion.py:51 | `str.split()`: every word is non-empty and contains no whitespace. |
| `Text.WordsAreMaximalRuns` | ingestion.py:51 | The input is the whitespace runs `Gaps(s)` woven with the words: run 0, word 0, run 1, …, word n-1, run n. Every run is whitespace only. Every run between two words is non-empty, so each word is a maximal run of non-whitespace characters. |
| `Text.WordsJoin` | ingestion.py:51 | Splitting words joined by single spaces gives back the same words. |
| `Text.WordsCollapse` | ingestion.py:51 | `" ".join(s.split()).split() == s.split()`: each whitespace run became exactly one separator, and no word was merged, split or lost. |
| `Text.SplitOn` | ingestion.py:53 | `str.split(sep)` for a non-empty separator: always at least one piece. |
| `Text.SplitJoin` | ingestion.py:53 | Joining the pieces of `s.split(d)` with `d` gives `s` back. |
| `Text.SplitPiecesAvoidSeparator` | ingestion.py:53 | No piece of `s.split(d)` contains `d`. |
| `Text.FindFrom` | ingestion.py:53 | `s.find(d, start)`: the index returned is an occurrence at or after `start` with no earlier one. None means there is no occurrence from `start` on. |
| `Text.CollapseNormalized` | ingestion.py:51 | `" ".join(s.split())` has no whitespace at either end. Every whitespace character in it is a single `' '` between two non-whitespace characters. |
| `Text.CollapseKeepsText` | ingestion.py:51 | Collapsing keeps every non-whitespace character, in order. |
| `Text.CollapseIdempotent` | ingestion.py:51 | Collapsing an already collapsed text changes nothing. |
| `Text.NormalizedFixed` | ingestion.py:51 | A text that is already normalised is a fixed point of the collapse. |
| `Text.Last` | graph/nodes/generate.py:23 | `xs[-n:]`: the last `min(len, n)` elements, as a suffix of `xs`; all of `xs` when it is shorter. |
| `Text.NatToString` | graph/nodes/retrieve.py:36 | The f-string rendering of a natural number is a non-empty string of decimal digits. It starts with '0' exactly for 0, so it has no leading zero. |
| `Text.DecimalRoundTrip` | graph/nodes/retrieve.py:36 | Reading the rendered digits back gives the number. |
| `Text.NatToStringInjective` | graph/nodes/retrieve.py:36 | Different document numbers render differently. |
| `RetrieveNode.RetrieveUpdate` | graph/nodes/retrieve.py:7-43 | The update sets exactly documents and context. If the retriever raised, or returned nothing, it is `[]` and "No relevant documents found.". Otherwise it is the retriever's list, unchanged, and the parts `[Document i+1 - Source: s]\ncontent` joined by a blank line; a missing source is written "Unknown". |
| `RetrieveNode.Retrieve` | graph/nodes/retrieve.py:16-43 | The early returns and the loop that appends one part per document compute `RetrieveUpdate`. |
| `RetrieveNode.SentinelIffNoDocuments` | graph/nodes/retrieve.py:18-38 | The context is the sentinel exactly when the documents are empty: a rendered context starts with `[`. |
| `RetrieveNode.ContextStartsWithFirstLabel` | graph/nodes/retrieve.py:34-38 | With documents, the context opens with `[Document 1 - Source: …]` and a newline for the first document; numbering is 1-based. |
| `GenerateNode.GenerateUpdate` | graph/nodes/generate.py:28-39 | The update sets only the generation. On success it is the generator's text. If the generator raised, it is "I encountered an error while generating the answer: " followed by the message; nothing escapes. |
| `GenerateNode.RenderHistory` | graph/nodes/generate.py:20-26 | The loop over the last ten exchanges computes the history text. |
| `GenerateNode.Generate` | graph/nodes/generate.py:7-39 | The node, with its rendering loop, computes `GenerateUpdate`. |
| `GenerateNode.HistoryLinesAppend` | graph/nodes/generate.py:23-25 | Appending an exchange appends its two lines. |
| `GenerateNode.HistoryLinesAt` | graph/nodes/generate.py:23-25 | n exchanges render as 2n lines. Exchange k gives line 2k "Human: h" and line 2k+1 "Assistant: a". |
| `GenerateNode.RenderedHistoryShape` | graph/nodes/generate.py:21-26 | Only the last `min(n, 10)` exchanges are rendered, in their order, two lines each, joined by newlines. |
| `GenerateNode.HistoryPlaceholderIffEmpty` | graph/nodes/generate.py:20-33 | "No previous conversation." is passed exactly when the history is empty or absent. |
| `GenerateNode.FeedbackPlaceholder` | graph/nodes/generate.py:16-32 | Non-empty feedback reaches the generator verbatim. Absent or empty feedback becomes "No feedback yet.". |
| `EvaluateNode.EvaluateUpdate` | graph/nodes/evaluate.py:7-32 | If the evaluator raises, its exception escapes unchanged and nothing is written. A missing generation raises the KeyError `'generation'`. Otherwise the update sets exactly attempts, answer_ready and feedback. Attempts becomes the old count (0 if missing) plus 1. answer_ready becomes the verdict's score. Feedback becomes None when satisfied and the critique verbatim otherwise. The question, generation, context, documents, history and limit are unchanged. |
| `Graph.ShouldContinue` | graph/graph.py:11-31 | "end" whenever answer_ready is true. "max_attempts" exactly when it is false and attempts >= max_attempts. "generate" exactly when it is false and attempts < max_attempts. The defaults are False, 0 and 5. |
| `Graph.HandleMaxAttempts` | graph/graph.py:34-51 | The update sets only the generation and answer_ready. The generation is the old one ("" if missing) followed by the clarification notice. answer_ready is true. |
| `Graph.Step` | graph/graph.py:54-85 | One node: only evaluate can raise. The next node is an edge of the wiring. The measure (remaining attempts, distance to END) decreases. Only evaluate adds one attempt. After evaluate or max_attempts the run ends exactly when the answer is ready. The question, limit and history are untouched. |
| `Graph.ExecStep` | graph/graph.py:54-88 | A run from a node is that node's step followed by the run from its successor, or the exception of that step. |
| `Graph.RunNode` | graph/graph.py:61-85 | Running a node and following its edge computes `Step`. |
| `Graph.Run` | graph/graph.py:88-92 | The runtime loop over the compiled graph returns the final state, or the escaping exception, of `Exec` from the entry node. It visits exactly the nodes of `Exec`. |
| `GraphProofs.Cycle` | graph/graph.py:71-82 | One generate/evaluate cycle adds one attempt and keeps the answer generated in it. The evaluator judged that answer, and the score decides the route. "end" leaves no feedback. "max_attempts" is taken only with the limit reached, and "generate" only below it. |
| `GraphProofs.CycleRaised` | graph/graph.py:70-71 | A cycle whose evaluator raises ends the run after generate and evaluate with that exception. |
| `GraphProofs.CycleAccepted` | graph/graph.py:79 | A cycle whose answer is accepted ends the run with that state. |
| `GraphProofs.CycleExhausted` | graph/graph.py:80-85 | A cycle that reaches the limit runs max_attempts and then ends. |
| `GraphProofs.CycleRetry` | graph/graph.py:78 | A cycle routed back to generate continues with the run from generate on its state. |
| `GraphProofs.CyclesAt` | graph/graph.py:70-71 | n cycles are 2n nodes alternating generate and evaluate. |
| `GraphProofs.LoopRun` | graph/graph.py:27-29 | A run from generate performs between 1 and `max(1, max_attempts - attempts)` cycles, possibly followed by max_attempts. A finished run has counted one attempt per cycle. |
| `GraphProofs.LoopResult` | graph/graph.py:24-29 | A finished run from generate has a ready answer and has not changed the question, documents, context, limit or history. |
| `GraphProofs.LoopAccepted` | graph/graph.py:24-25 | A run that ends through "end" returns, unmodified, the text the generate node produced in the last cycle (same question, context and history, one attempt before the final count). The evaluator accepted that text, and no feedback is left. |
| `GraphProofs.ExhaustedEnd` | graph/graph.py:40-50 | After a cycle that reaches the limit, the final generation is the notice appended to the text the generate node produced in that cycle, which the evaluator rejected. |
| `GraphProofs.EndsExhaustedPrefix` | graph/graph.py:78 | Prefixing any nodes to a non-empty run keeps how it ends. |
| `GraphProofs.LoopExhausted` | graph/graph.py:27-29 | A run that ends through max_attempts returns the clarification notice appended to the text the generate node produced in the last cycle (same question, context and history, one attempt before the final count). The evaluator rejected that text, and attempts are at the limit. |
| `GraphProofs.ExecFollowsWiring` | graph/graph.py:67-85 | Every run starts at its first node, follows edges of the wiring only, and ends at evaluate or max_attempts. |
| `GraphProofs.RunFromEntry` | graph/graph.py:67-85 | A whole run is retrieve, exactly once and first, then 1 to `max(1, remaining)` cycles, then possibly max_attempts. The attempts counted equal the cycles. |
| `GraphProofs.FeedbackReachesNextGeneration` | graph/nodes/evaluate.py:27 | After a rejection with attempts left, the next generate gets the critique as feedback (or the placeholder if it is empty), with the same question, context and history. |
| `GraphProofs.NeverSatisfied` | graph/graph.py:27-29 | With an evaluator that rejects everything, a run from generate makes exactly `max(1, remaining)` cycles and then runs max_attempts. |
| `GraphProofs.NeverSatisfiedFromEntry` | graph/graph.py:67-85 | With an evaluator that rejects everything, a whole run is retrieve, exactly `max(1, remaining)` cycles and max_attempts, and it finishes. |
| `GraphProofs.RunExhausted` | graph/graph.py:34-51 | A whole run that ends through max_attempts returns the clarification notice appended to the text the generate node produced in the last cycle. The evaluator rejected that text, and attempts are at the limit. |
| `GraphProofs.SatisfiedAtOnce` | graph/graph.py:24-25 | With an evaluator that accepts everything, the run is retrieve, generate, evaluate. Its answer is the first generation. |
| `GraphProofs.EvaluatorRaisesAtOnce` | graph/nodes/evaluate.py:21-24 | An evaluator that raises on its first call ends the run with that exception after retrieve, generate and evaluate. |
| `GraphProofs.RetrieverRaises` | graph/nodes/retrieve.py:16-23 | A raising retriever does not stop the run. generate is next and is asked with the sentinel context. The sentinel stays the context of the finished run. |
| `Chatbot.InitialState` | main.py:43-53 | The run starts with attempts 0, the instance's limit, answer_ready false, no feedback, empty generation, context and documents, and the given history. |
| `Chatbot.QuestionValidation` | main.py:39-44 | A question is refused with "Please provide a valid question." exactly when it is empty or all whitespace. Otherwise the run gets it stripped exactly: the typed text is whitespace, then the non-empty question, then whitespace, and the question has no whitespace at either end. |
| `Chatbot.AnswerIsFinalGeneration` | main.py:55-66 | The fallback answer is never used. ask returns the final generation of the run, or "An error occurred: " followed by the exception's message. |
| `Chatbot.AskNeverSatisfied` | main.py:55-61 | If the evaluator rejects everything, ask returns an answer ending with the clarification notice. |
| `Chatbot.AskSatisfiedAtOnce` | main.py:55-61 | If the evaluator accepts everything, ask returns the generator's first answer, or the generation error text if that call raised. |
| `Chatbot.AskEvaluatorRaises` | main.py:63-66 | If the evaluator raises on its first call, ask returns "An error occurred: " followed by the message. |
| `Chatbot.RAGChatbot.constructor` | main.py:15-22 | The chatbot keeps the limit it is given (5 by default). |
| `Chatbot.RAGChatbot.Ask` | main.py:24-66 | ask returns the answer that validation and the run determine (`Answer`). |
| `Chatbot.RawPairs` | main.py:92-99 | The message pairs at positions (0,1), (2,3), …: there are `len // 2` of them. |
| `Chatbot.Keep` | main.py:100-101 | The kept pairs are pairs of the input with both contents non-empty. Every such pair of the input is kept. There are no more of them than pairs. |
| `Chatbot.KeepAppend` | main.py:100-101 | Filtering distributes over concatenation, so the kept pairs stay in their order. |
| `Chatbot.RawPairsCons` | main.py:92-102 | The pairs of a list are its first pair followed by the pairs of the rest after two messages. |
| `Chatbot.PairsAreKeptRawPairs` | main.py:90-102 | respond's pairing is the list of pairs at even positions, in order, minus the pairs with an empty side. |
| `Chatbot.OddTailIgnored` | main.py:93 | A trailing message without a reply is dropped. |
| `Chatbot.PairHistory` | main.py:88-102 | The while loop stepping by two computes the pairing. |
| `Chatbot.Respond` | main.py:73-108 | respond asks the chatbot with the last ten kept pairs, or all of them when there are ten or fewer. |
| `Ingestion.FullText` | ingestion.py:50-51 | The joined and collapsed page text is normalised. It has the same words as the pages joined by newlines, so each whitespace run became one space. It keeps every non-whitespace character, in order. |
| `Ingestion.StripAll` | ingestion.py:53 | One stripped piece per piece. |
| `Ingestion.DropEmpty` | ingestion.py:55 | The result holds only non-empty strings of the input. It holds every non-empty string of the input. It is no longer than the input. |
| `Ingestion.Sectioning` | ingestion.py:47-68 | No pages gives "No pages found in PDF: path". An empty delimiter gives str.split's "empty separator". No section gives "No documents created from PDF content". With pages, a delimiter and at least one section, the result is a list of documents: document k holds section k, has section_index k and has no source. |
| `Ingestion.DropEmptyAppend` | ingestion.py:55 | Filtering distributes over concatenation, so the sections keep the order of their pieces. |
| `Ingestion.DropEmptyKeepsFull` | ingestion.py:55 | With no empty piece, nothing is dropped. |
| `Ingestion.StrippedAvoids` | ingestion.py:53 | Stripping a piece without the delimiter gives a text without it. |
| `Ingestion.SectionIsClean` | ingestion.py:53-55 | Every section is the stripped form of a piece of the text cut at the delimiter. It is non-empty, has no whitespace at either end and does not contain the delimiter. |
| `Ingestion.SectionsAreClean` | ingestion.py:53-55 | No section is empty and none contains the delimiter. |
| `Ingestion.SectionsAreComplete` | ingestion.py:53-55 | Every piece that is not blank becomes a section. |
| `Ingestion.NoDelimiterOneSection` | ingestion.py:53-55 | A text without the delimiter is one section, itself stripped, unless it is blank. |
| `Ingestion.DocumentsIndexed` | ingestion.py:57-65 | Document k has section_index k and no source. Its content is non-empty and free of the delimiter. |

## Left out

- LangGraph's `recursion_limit` is not modelled: the run is bounded by the attempt counter only. The limit defaults to 25 supersteps; a run with the default limit of 5 attempts takes at most 12.
- The PDF is not read. The file-existence check, `PyPDFLoader`, the embeddings, the Chroma store and `get_retriever` are library calls and file I/O (ingestion.py:41-45, 70-104). The pages are given as a sequence of strings. The retriever is a parameter.
- The prompts and the LLM chains (graph/chains/) are not modelled. The generator and the evaluator are parameters, and the prompt text is opaque.
- The Gradio interface, `create_app` and the server launch (main.py:111-135) are UI plumbing.
- `print` logging, `load_dotenv` and the module-level singletons (`app`, `retriever`, `chatbot_instance`) are left out. `Chatbot.Respond` takes the chatbot instance as a parameter.
- The text of an exception is an opaque string. Only the exceptions raised by the three collaborators are modelled, plus the KeyError of a missing generation in evaluate.
- Only string message contents are modelled. Non-string contents from the chat widget (files, lists) are not.
- A question that is `None` rather than a string is not modelled.
