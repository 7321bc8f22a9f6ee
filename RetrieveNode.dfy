/** The retrieve node (graph/nodes/retrieve.py): one retriever call for the
    question, flattened into a numbered, source-labelled context string. */
module RetrieveNode {
  import opened Wrappers
  import opened Text
  import opened State
  import opened Calls

  /** The context when the retriever raised or found nothing. */
  const NoDocumentsContext := "No relevant documents found."

  /** The update for the raised and the empty case alike. */
  const NoDocumentsUpdate := NoUpdate.(documents := Some([]), context := Some(NoDocumentsContext))

  /** doc.metadata.get("source", "Unknown"). */
  function SourceLabel(d: Document): string {
    d.source.GetOr("Unknown")
  }

  /** The context part of the document at 0-based position i:
      "[Document {i+1} - Source: {source}]\n{content}". */
  function ContextPart(i: nat, d: Document): string {
    "[Document " + NatToString(i + 1) + " - Source: " + SourceLabel(d) + "]\n" + d.pageContent
  }

  function ContextParts(docs: seq<Document>): seq<string> {
    seq(|docs|, i requires 0 <= i < |docs| => ContextPart(i, docs[i]))
  }

  /** What retrieve returns, given the retriever. */
  function RetrieveUpdate(s: GraphState, retriever: string -> Result<seq<Document>>): (u: Update)
    ensures Keys(u) == {Documents, Context}
    ensures retriever(s.question).Fail? ==> u == NoDocumentsUpdate
    ensures retriever(s.question) == Ok([]) ==> u == NoDocumentsUpdate
    ensures retriever(s.question).Ok? && retriever(s.question).value != [] ==>
      && u.documents == Some(retriever(s.question).value)
      && u.context == Some(Join(ContextParts(retriever(s.question).value), "\n\n"))
  {
    match retriever(s.question)
    case Fail(_) => NoDocumentsUpdate
    case Ok(docs) =>
      if docs == [] then NoDocumentsUpdate
      else NoUpdate.(documents := Some(docs), context := Some(Join(ContextParts(docs), "\n\n")))
  }

  /** retrieve: the early returns for a raising or empty retriever, then the
      loop that renders one context part per document, in order. */
  method Retrieve(s: GraphState, c: Collaborators) returns (u: Update)
    ensures u == RetrieveUpdate(s, c.retriever)
  {
    var found := c.retriever(s.question);
    if found.Fail? {
      return NoDocumentsUpdate;
    }
    var documents := found.value;
    if documents == [] {
      return NoDocumentsUpdate;
    }
    var parts: seq<string> := [];
    for i := 0 to |documents|
      invariant |parts| == i
      invariant forall k :: 0 <= k < i ==> parts[k] == ContextPart(k, documents[k])
    {
      parts := parts + [ContextPart(i, documents[i])];
    }
    assert parts == ContextParts(documents);
    u := NoUpdate.(documents := Some(documents), context := Some(Join(parts, "\n\n")));
  }

  // ---------------------------------------------------------------- lemmas

  /** The context is the sentinel exactly when no document was kept: a
      rendered context starts with '[' and can never equal it. */
  lemma {:induction false} SentinelIffNoDocuments(s: GraphState, retriever: string -> Result<seq<Document>>)
    ensures RetrieveUpdate(s, retriever).context == Some(NoDocumentsContext)
        <==> RetrieveUpdate(s, retriever).documents == Some([])
  {
    var r := retriever(s.question);
    if r.Ok? && r.value != [] {
      var parts := ContextParts(r.value);
      assert parts[0][0] == '[';
      JoinHead(parts, "\n\n");
      assert NoDocumentsContext[0] == 'N';
    }
  }

  /** With at least one document, the context opens with the first
      document's label, numbered 1. */
  lemma {:induction false} ContextStartsWithFirstLabel(s: GraphState, retriever: string -> Result<seq<Document>>)
    requires retriever(s.question).Ok? && retriever(s.question).value != []
    ensures var ctx := RetrieveUpdate(s, retriever).context.value;
      var head := "[Document 1 - Source: " + SourceLabel(retriever(s.question).value[0]) + "]\n";
      |head| <= |ctx| && ctx[..|head|] == head
  {
    var docs := retriever(s.question).value;
    var parts := ContextParts(docs);
    var head := "[Document 1 - Source: " + SourceLabel(docs[0]) + "]\n";
    assert NatToString(1) == "1";
    assert parts[0] == head + docs[0].pageContent;
    JoinPrefix(parts, "\n\n");
    assert parts[0][..|head|] == head;
  }
}
