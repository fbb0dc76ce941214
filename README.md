# RAG chain helpers: history conversion and context assembly

This project models the two pieces of its own logic that `api/langchain_utils.py` has. The rest of that file wires a retrieval-augmented generation (RAG) chain together from library calls.

- **History conversion** (`convert_chat_history`). Stored rows `{role, content}` become chat messages. The role `"user"` gives a human message. Every other role string gives an AI message, and no row is rejected. The Python loop becomes the method `ChatHistory.ConvertChatHistory`, proved equal to the reference function `ChatHistory.Convert`. The lemmas are stated about `Convert`. Writing messages back in the documented row format (`"user"`/`"assistant"`) is the inverse partner of the conversion.
- **The history-aware retriever** (`history_aware_retriever`). The question is rewritten into a standalone question. Documents are retrieved with that question. Their `page_content` strings are joined with `"\n\n"`. The returned record holds the joined `context` and the original `input` and `chat_history`. The language-model rewrite and the vector-store lookup are parameters of `Retriever.HistoryAwareRetriever`: arbitrary total functions. The join is the recursive function `Context.Join`, Python's `str.join`. Lemma `Context.JoinAt` describes its result independently, position by position.

Modules: `ChatHistory` (history.dfy), `Context` (context.dfy), `Retriever` (retriever.dfy, imports the other two).

## Model

| member | source | states |
|---|---|---|
| ChatHistory.ConvertRow | api/langchain_utils.py:94-97 | the message has the row's content; it is a human message exactly when the role is the string "user", and an AI message for every other role |
| ChatHistory.Convert | api/langchain_utils.py:92-99 | reference conversion: as many messages as rows, message i is row i converted on its own |
| ChatHistory.ConvertChatHistory | api/langchain_utils.py:85-99 | the append loop returns exactly `Convert(rows)`: same length, same order, same contents, human exactly for role "user" |
| ChatHistory.ConvertAppend | api/langchain_utils.py:93-97 | converting a concatenation of rows is the concatenation of the conversions (row-by-row, order-preserving) |
| ChatHistory.ConvertEmpty | api/langchain_utils.py:92-99 | no rows give an empty list of messages |
| ChatHistory.ConvertAt | api/langchain_utils.py:93-97 | every row, whatever its role, yields a message at its own index with its content; human iff role "user", AI iff any other role |
| ChatHistory.ToRow | api/langchain_utils.py:88-89 | the documented stored form of a message: role "user" for a human message, "assistant" otherwise, same content |
| ChatHistory.ToRows | api/langchain_utils.py:88-89 | messages written back as rows one by one, in order |
| ChatHistory.ConvertToRows | api/langchain_utils.py:85-99 | writing messages back in the documented format and converting them returns the same messages |
| ChatHistory.ToRowsConvert | api/langchain_utils.py:85-99 | rows survive conversion and write-back unchanged if and only if every role is "user" or "assistant" |
| ChatHistory.ConvertForgetsRole | api/langchain_utils.py:96-97 | an unexpected role ("system") is not rejected and converts exactly as "assistant" does |
| ChatHistory.ConvertExample | api/langchain_utils.py:92-99 | a "user" row and an "assistant" row give a human and an AI message, in that order |
| Context.Join | api/langchain_utils.py:58 | for non-empty parts, the joined length is the parts' lengths plus one separator between each two neighbours |
| Context.JoinAt | api/langchain_utils.py:58 | part i stands at offset Span(parts[..i]) of the joined string, and every part but the last is followed by exactly one separator |
| Context.JoinBoundaries | api/langchain_utils.py:58 | no leading or trailing separator: the join starts with the first part and ends with the last |
| Context.PageContents | api/langchain_utils.py:58 | the documents' page contents, one per document, in retrieval order |
| Context.AssembleContext | api/langchain_utils.py:58 | no documents give "", one document gives its content unchanged, otherwise the length is the contents plus one blank line between neighbours |
| Context.ContextAt | api/langchain_utils.py:58 | each document's content stands in the context in retrieval order, each but the last followed by "\n\n" |
| Context.ContextOfTwo | api/langchain_utils.py:58 | two documents A and B give "A\n\nB" |
| Retriever.HistoryAwareRetriever | api/langchain_utils.py:46-61 | the record keeps `input` and `chat_history` unchanged; `context` is the join of what the retriever returns for the rewrite of the original input and history |
| Retriever.ContextDependsOnStandaloneQuestion | api/langchain_utils.py:48-54 | two inputs whose questions are rewritten alike get the same context against the same store contents, even when their original questions differ |
| Retriever.AnswerSeesOriginalQuestion | api/langchain_utils.py:57-61 | whatever the rewrite returns, the record handed to the answer step carries the original question and history |
| Retriever.UnchangedQuestionRetrievesInput | api/langchain_utils.py:48-58 | when the rewrite returns the question unchanged, the context is the join of the retrieval for the original input |
| Retriever.ContextWithinTopK | api/langchain_utils.py:15 | with a retriever that returns at most k = 2 documents, the context is "", one content, or two contents around one blank line |

## Left out

- Language-model construction and calls (`ChatGoogleGenerativeAI`, `StrOutputParser`, lines 19-23, 41, 73): network calls. The rewrite step is an arbitrary function parameter instead.
- Vector-store retrieval (`vectorstore.as_retriever`, line 15, and `chroma_utils`): ranking and embeddings live in an external store; `chroma_utils` is not part of this model. The retriever is an arbitrary function parameter. Only k = 2 is kept, as the constant `TopK` and as a hypothesis of `ContextWithinTopK`.
- Prompt templates (`ChatPromptTemplate`, `MessagesPlaceholder`, lines 26-38, 66-71): fixed strings rendered by a library.
- Runnable composition (`RunnableLambda`, `RunnableSequence`, lines 63, 76-79) and the answer chain it feeds: framework plumbing. What the answer step receives is stated by `HistoryAwareRetriever` and `AnswerSeesOriginalQuestion`.
- Environment and `.env` loading (lines 8, 10-11, 23): I/O.
- Nondeterminism of the foreign calls: the rewrite is a sampled language-model call and the vector store's contents can change between requests. Each `rewrite` parameter stands for one model behaviour and each `retrieve` parameter for one store state, taken as deterministic functions of their arguments; lemmas that compare two calls under one `retrieve` speak of the same store contents.
- Errors from the network calls: the source has no handling of its own. The function parameters are total, so a failing call is not represented.
- Python's dynamic typing: a row without a `"role"` or `"content"` key would raise `KeyError`. The model's rows always carry both fields.
