/** The history-aware retriever step of the RAG chain
    (`history_aware_retriever` in api/langchain_utils.py). The language-model
    rewrite and the vector-store lookup are foreign calls; they are passed in
    as functions, so every statement here except ContextWithinTopK (which
    assumes the retriever keeps to its top-k bound) holds whatever they
    return. */
module Retriever {
  import opened ChatHistory
  import opened Context

  /** Number of documents the vector-store retriever is configured to return
      at most (search_kwargs k). Ranking happens in the store. */
  const TopK: nat := 2

  /** What the chain is invoked with: the new question and the converted
      history. */
  datatype ChatInputs = ChatInputs(input: string, chatHistory: seq<Message>)

  /** The record handed on to the answer step. */
  datatype AnswerInputs = AnswerInputs(context: string, input: string, chatHistory: seq<Message>)

  /** The standalone question, the retrieval made with it, and the record
      carrying the assembled context next to the original inputs. */
  function HistoryAwareRetriever(
    rewrite: (string, seq<Message>) -> string,
    retrieve: string -> seq<Document>,
    inputs: ChatInputs): (r: AnswerInputs)
    ensures r.input == inputs.input
    ensures r.chatHistory == inputs.chatHistory
    ensures r.context == AssembleContext(retrieve(rewrite(inputs.input, inputs.chatHistory)))
  {
    var standaloneQuestion := rewrite(inputs.input, inputs.chatHistory);
    var docs := retrieve(standaloneQuestion);
    AnswerInputs(AssembleContext(docs), inputs.input, inputs.chatHistory)
  }

  /** The context depends on the inputs only through the standalone question:
      two conversations whose questions are rewritten alike retrieve the same
      context against the same store contents (one `retrieve`), even if
      their original questions differ. */
  lemma ContextDependsOnStandaloneQuestion(
    rewrite: (string, seq<Message>) -> string,
    retrieve: string -> seq<Document>,
    a: ChatInputs, b: ChatInputs)
    requires rewrite(a.input, a.chatHistory) == rewrite(b.input, b.chatHistory)
    ensures HistoryAwareRetriever(rewrite, retrieve, a).context
         == HistoryAwareRetriever(rewrite, retrieve, b).context
  {
  }

  /** The rewrite only decides what is retrieved: the answer step gets the
      original question and history, whatever the rewrite returns. A named
      corollary of HistoryAwareRetriever's contract. */
  lemma AnswerSeesOriginalQuestion(
    rewrite1: (string, seq<Message>) -> string,
    rewrite2: (string, seq<Message>) -> string,
    retrieve: string -> seq<Document>,
    inputs: ChatInputs)
    ensures var r1 := HistoryAwareRetriever(rewrite1, retrieve, inputs);
      var r2 := HistoryAwareRetriever(rewrite2, retrieve, inputs);
      r1.input == r2.input == inputs.input && r1.chatHistory == r2.chatHistory == inputs.chatHistory
  {
  }

  /** When the rewrite returns the question as it is (allowed when no
      reformulation is needed), retrieval is made with the original input.
      A named corollary of HistoryAwareRetriever's contract. */
  lemma UnchangedQuestionRetrievesInput(
    rewrite: (string, seq<Message>) -> string,
    retrieve: string -> seq<Document>,
    inputs: ChatInputs)
    requires rewrite(inputs.input, inputs.chatHistory) == inputs.input
    ensures HistoryAwareRetriever(rewrite, retrieve, inputs).context == AssembleContext(retrieve(inputs.input))
  {
  }

  /** With a retriever that keeps to its top-k bound, the context is empty,
      one document's content, or two contents around one blank line. */
  lemma ContextWithinTopK(
    rewrite: (string, seq<Message>) -> string,
    retrieve: string -> seq<Document>,
    inputs: ChatInputs)
    requires forall q :: |retrieve(q)| <= TopK
    ensures var docs := retrieve(rewrite(inputs.input, inputs.chatHistory));
      var context := HistoryAwareRetriever(rewrite, retrieve, inputs).context;
      (docs == [] && context == "") ||
      (|docs| == 1 && context == docs[0].pageContent) ||
      (|docs| == 2 && context == docs[0].pageContent + "\n\n" + docs[1].pageContent)
  {
    var docs := retrieve(rewrite(inputs.input, inputs.chatHistory));
    if |docs| == 2 {
      assert docs == [Document(docs[0].pageContent), Document(docs[1].pageContent)];
      ContextOfTwo(docs[0].pageContent, docs[1].pageContent);
    }
  }
}
