# RAG document chatbot: a Dafny model

This project models the question-answering core of a small
retrieval-augmented chatbot. The chatbot reads an uploaded PDF page by page
and splits each page's text into chunks. It stores the chunks with their
embeddings in a Chroma collection. For each question it retrieves the
closest chunks and uses a relevance gate to choose between a grounded
prompt and a general-knowledge prompt. It streams the local model's reply
and separates the `<think>…</think>` reasoning from the answer. The answer
tokens alone are shown and recorded in the chat history.

Modules, following the program's files:

- `Wrappers`: `Option`.
- `Text`: the Python string operations the code relies on:
  - `str.find`;
  - `str.join`;
  - `str(n)` for a non-negative `n`.

  It also holds a split on one character. The code never splits a string.
  The split serves only `App.CitedPages`, which reads the page numbers back
  out of a citation block.
- `Prompt` (`llm_handler.py`): `generate_prompt`. The two templates are
  the exact text of the f-strings, including their leading newline and
  eight-space indentation.
- `ThinkStream` (`llm_handler.py`): the generator `get_streamed_response`
  and `stream_handler`. The HTTP reply is a sequence of lines. Each line is
  `Some(content)` when it is a JSON object whose `message` object holds a
  string `content`. It is `None` when the code skips it: an empty line,
  valid UTF-8 that is not JSON, or JSON that fails one of the two `in`
  tests without raising. The lines that make the code raise are listed
  under "## Left out".
- `PdfProcessor` (`pdf_processor.py`): `process_pdf`. A document is the
  list of its pages' texts, or `None` when it cannot be opened. The text
  splitter is an arbitrary function.
- `VectorStore` (`vector_store.py`): `setup_vector_store` and
  `query_vector_store`. The client is a map from names to collections.
  The embedding model (`encode`) and the store's nearest-neighbour search
  (`search`) are parameters.
- `App` (`app.py`, lines 67-101): the handling of the chat input. Empty
  text is falsy and submits nothing. A submitted question goes through:
  - the relevance gate;
  - the grounded context with its citations;
  - the prompt choice;
  - the order in which turns are recorded.
  The language model is a parameter `respond` that maps a prompt to its
  streamed lines. `RELEVANCE_THRESHOLD` is the parameter `threshold`.

Each operation has a partner:

- the drain loop has an independent segmentation, proved equal to it,
  lossless and unique;
- the prompt has read-back functions that recover its context or its
  question;
- the citation block has a parser that reads the page numbers back;
- the chunk ids have a parser;
- `process_pdf` has a recursive reference definition and a per-page
  characterisation.

Two behaviours of the code are worth stating:

- The code does not hold back a partial tag at the end of a line. The
  buffer is emptied after every content line, so a `<think>` split across
  two lines passes through as answer text. `SplitTagPassesThrough` and
  `StraddlingTagExample` state this.
- The code does not deduplicate citations. Two chunks from the same page
  give two identical ` - Page n` lines, each beginning with a space, as
  `RepeatedPageCitedTwice` shows.

## Model

| member | source | states |
|---|---|---|
| Prompt.GeneratePrompt | llm_handler.py:5-29 | With context: the grounded instructions, then the context, then the closing fence, then `User Question: {query}` and the closing indentation. Without context: the general instructions followed only by the labelled question. The context never appears in it. |
| Prompt.FencesAroundContext | llm_handler.py:15-18 | The grounded head ends with a `---` line between indented line breaks, and the text after the context starts with an indented `---` line, so the context sits between two fence lines. |
| Prompt.GeneralIgnoresContext | llm_handler.py:22-28 | The general prompt does not depend on the context passed in. |
| Prompt.ContextRoundTrip | llm_handler.py:9-21 | The context can be cut back out of a grounded prompt. |
| Prompt.GeneralRoundTrip | llm_handler.py:22-28 | The question can be cut back out of a general prompt. |
| Prompt.ContextInjective | llm_handler.py:9-21 | For one question, different contexts give different grounded prompts. |
| Prompt.BranchesDiffer | llm_handler.py:9-28 | No grounded prompt equals a general prompt, whatever the questions and contexts. |
| Text.FindCorrect | llm_handler.py:56 | `Find` is Python's `str.find`: the lowest index of an occurrence, or -1 exactly when there is none. |
| ThinkStream.Drain | llm_handler.py:54-76 | Draining one buffer emits at least one piece, since the remainder is always yielded. Only the last piece can be empty, because empty prefixes before a tag are skipped. No answer piece contains `<think>` and no think piece contains `</think>`. The last piece is on the channel of the final state. |
| ThinkStream.SegmentsRoundTrip | llm_handler.py:56-60 | Putting the recognised tags back between the segments gives the buffer back. |
| ThinkStream.SegmentsTagFree | llm_handler.py:56-72 | No segment contains the tag its state is waiting for. |
| ThinkStream.SegmentsUnique | llm_handler.py:56-72 | Any tag-free list of segments that re-assembles into the buffer is the one found, so the segmentation is unique. |
| ThinkStream.DrainMatchesSegments | llm_handler.py:54-76 | The drain loop emits the segments, alternately on the answer and think channels. An empty segment is dropped, except the final remainder. |
| ThinkStream.DrainOfInterleave | llm_handler.py:54-76 | Draining the text made of tag-free segments joined by tags yields those segments. |
| ThinkStream.DrainFlipsPerTag | llm_handler.py:55-72 | The state after draining has flipped once per recognised tag. |
| ThinkStream.DrainLossless | llm_handler.py:54-76 | The emitted text is the buffer with exactly the recognised tags removed, and nothing else is lost or duplicated. |
| ThinkStream.Step | llm_handler.py:46-78 | A skipped line emits nothing and changes nothing. A content line empties the buffer and emits at least one clean piece. |
| ThinkStream.Run | llm_handler.py:43-78 | Starting from an empty buffer, the buffer is empty between lines and every emitted piece is clean. |
| ThinkStream.RunIgnoresSkippedLines | llm_handler.py:47-51 | Empty lines, non-JSON lines and lines without `message.content` have no effect on the output or the state. |
| ThinkStream.RunAppend | llm_handler.py:46-78 | The stream is a left fold. Processing `a + b` is processing `a`, then `b` from the state `a` left. |
| ThinkStream.LineDrainedAlone | llm_handler.py:52-76 | Each content line is drained on its own, from the flag the earlier lines left. Only the flag carries over. |
| ThinkStream.SingleLine | llm_handler.py:43-76 | A one-line response is that line drained from outside a think block. |
| ThinkStream.OneThinkBlock | llm_handler.py:54-76 | When `before` and `reasoning` are non-empty, `before` and `after` hold no `<think>` and `reasoning` holds no `</think>`, a line `before<think>reasoning</think>after` yields answer `before`, think `reasoning`, answer `after`. An empty `before` or `reasoning` would not be emitted (lines 58 and 69). |
| ThinkStream.LineOfSegments | llm_handler.py:43-76 | A one-line response made of tag-free segments yields exactly those segments, labelled. |
| ThinkStream.SplitTagPassesThrough | llm_handler.py:52-65 | Two lines, neither holding a whole `<think>`, are both emitted as answer text, even when the tag straddles the break. |
| ThinkStream.StraddlingTagExample | llm_handler.py:56 | `"hello <th"` and `"ink>secret"` together contain `<think>`, but neither does alone. |
| ThinkStream.StreamedResponse | llm_handler.py:31-80 | `get_streamed_response` runs the line loop from an empty buffer outside a think block. No answer piece contains `<think>` and no think piece contains `</think>`. |
| ThinkStream.StreamHandler | llm_handler.py:82-89 | `stream_handler` yields only answer pieces, so no yielded token contains `<think>`. |
| ThinkStream.TagFreeReplyPassesThrough | llm_handler.py:46-76 | A reply in which no line holds `<think>` never leaves the answer state. Its answer texts are the lines' tokens, one per content line, unchanged. |
| ThinkStream.TagFreeReplyVerbatim | llm_handler.py:82-89 | For such a reply, `stream_handler` yields exactly the tokens of the content lines, in order. |
| ThinkStream.AnswerTextsAppend | llm_handler.py:87-89 | The answer filter works piece by piece and distributes over concatenation. |
| ThinkStream.PlainAnswer | llm_handler.py:82-89 | A reply whose only line is `4471` is answered `4471`. |
| PdfProcessor.ProcessPdf | pdf_processor.py:10-33 | An unreadable document gives `None` (the `(None, None)` pair). Otherwise the chunks and metadata are aligned. Each record names a page between 1 and the page count and the uploaded file, in non-decreasing page order. Both lists equal the reference definitions. |
| PdfProcessor.AddPage | pdf_processor.py:24-27 | The inner loop appends a page's chunks in splitter order, each with the record of that page. |
| PdfProcessor.ReferenceWellFormed | pdf_processor.py:21-27 | The reference output is aligned, names pages 1..n and the file, and is ordered by page. |
| PdfProcessor.PageContribution | pdf_processor.py:21-27 | The chunks labelled with page `p` are exactly the splitter's output for page `p`, in order. An empty page contributes none. |
| PdfProcessor.LaterPageAbsent | pdf_processor.py:21-27 | The first `n` pages contribute no chunk labelled with a later page. |
| VectorStore.ChunkIds | vector_store.py:20 | There is one id per chunk, and id `i` is `chunk_i`. |
| VectorStore.ChunkIdRoundTrip | vector_store.py:20 | The index can be read back out of `chunk_i`. |
| VectorStore.ChunkIdsDistinct | vector_store.py:20 | The generated ids are pairwise distinct. |
| VectorStore.Add | vector_store.py:22-27 | `add` succeeds exactly when the four lists are aligned and the ids distinct. The name and the distance space are kept. The earlier entries stay first and unchanged. Entry `k` of the batch follows them at position `k`, holding id `k`, vector `k`, document `k` and metadata `k`. |
| VectorStore.Populate | vector_store.py:14-27 | Filling the fresh collection succeeds exactly when the model gives one vector per chunk and there is one record per chunk. The result has the configured name and cosine space. |
| VectorStore.PopulateAligned | vector_store.py:19-27 | Entry `i` of the populated collection is chunk `i`, under id `chunk_i`, with its vector and its metadata, and nothing else is stored. |
| VectorStore.Recreate | vector_store.py:8-17 | Only the configured name is touched. It is dropped if present, and the failed lookup of an absent name is swallowed. It is then created afresh. |
| VectorStore.SetupVectorStore | vector_store.py:4-29 | Other collections are unchanged. The client holds the returned collection, or the empty fresh one when `add` failed. |
| VectorStore.SetupForgetsPrevious | vector_store.py:8-17 | Whatever the client held before, setup ends with the same collection, so no earlier document survives. |
| VectorStore.SetupIds | vector_store.py:20-27 | The stored entries carry pairwise distinct ids. |
| VectorStore.QueryVectorStore | vector_store.py:31-46 | No collection gives `None` (the `(None, None, None)` triple). Otherwise the store is searched with the query's embedding for `top_n` results, and the first row is returned. |
| VectorStore.QueryWithoutCollection | vector_store.py:35-36 | Without a collection, neither the model nor the store affects the result. |
| VectorStore.QueryDefault | vector_store.py:31 | The default request is for 5 results. |
| App.IsRelevant | app.py:84 | Context is used exactly when chunks came back and the closest is strictly under the threshold. No chunks always takes the general branch. Chunks without distances raise. |
| App.GateIsStrict | app.py:84 | A closest distance equal to the threshold is not relevant. |
| App.GateMonotone | app.py:84 | Raising the threshold keeps a relevant retrieval relevant. |
| App.SourceLines | app.py:86 | There is one ` - Page n` line per retrieved chunk, in retrieval order. |
| App.GroundedContext | app.py:85-87 | The chunks joined by blank lines, then `\n\nSources:\n`, then the citation block, and nothing else: the length is the sum of the three parts. |
| App.PageLineRoundTrip | app.py:86 | A citation line has no line break, and its page number reads back. |
| App.SourcesRoundTrip | app.py:86 | Parsing the citation block gives back the pages of all retrieved chunks, in order, with repeats kept. The empty block, for no chunks, cites no page. |
| App.RepeatedPageCitedTwice | app.py:86 | Two chunks of page 3 are cited as two ` - Page 3` lines. |
| App.Respond | app.py:95-96 | The recorded answer is the concatenation of the yielded answer tokens. A reply that never opens a think block is recorded verbatim, as its tokens joined. |
| App.PrepareContext | app.py:84-91 | `has_context` is the gate's decision. The grounded context is used in that case, and the fixed "No relevant context found" notice otherwise. |
| App.Ask | app.py:67-101 | An empty chat input is falsy and records nothing. Otherwise the user turn is recorded first, whatever follows. An assistant turn with the streamed answer follows exactly when answering succeeded. Without a document there is only the warning. Earlier turns are always kept. |
| App.GateSelectsPrompt | app.py:84-96 | With a document, the gate alone picks the prompt. A relevant retrieval gives a grounded prompt whose context reads back as the chunks and citations. An irrelevant one gives a general prompt whose question reads back. The answer is the streamed answer tokens. |
| App.AnsweredPrompt | app.py:84-96 | A submitted question whose retrieval the gate can judge is answered. Its prompt is built from the prepared context and the gate's flag. |
| App.PromptRevealsGate | app.py:84-94 | For a submitted question the gate can judge, any two thresholds both give an answer. The two prompts are equal exactly when the gate decided the same way. |
| App.IrrelevantRetrievalIgnored | app.py:89-94 | Once the gate rejects a retrieval, what was retrieved leaves no trace in the turn, whatever the earlier history. |
| App.MissingDistancesFail | app.py:84-101 | For a submitted question, chunks without distances raise inside the `try`. The error is shown and only the user turn is recorded. |
| App.NoDocumentConsultsNothing | app.py:74-75 | Without a collection, neither the store, the embedding model nor the language model is consulted. A submitted question leaves only its user turn. |
| App.HistoryOnlyGrows | app.py:68-98 | Earlier turns are kept. A question adds its user turn and at most one assistant turn after it. |

## Left out

- The Streamlit interface is not modelled: page configuration, widgets, spinners, chat rendering, resource caching (app.py:1-65) and writing `history.txt` (app.py:103-106). These are presentation and file I/O.
- The upload handler (app.py:43-60) is not modelled. It calls `process_pdf` and `setup_vector_store` and keeps the collection in the session. Both operations are modelled on their own, and the session is a parameter of `App.Ask`.
- The HTTP request and JSON decoding are not modelled. The reply is the list of its lines, already classified as content or skipped.
  - A `RequestException` raised part-way through a stream behaves like a reply cut short at that line.
  - A failed request behaves like an empty reply.
- Some lines make `get_streamed_response` raise an error that it does not catch (llm_handler.py:48-52, 77). The error leaves the generator and is caught at app.py:100, so no assistant turn is recorded. The model does not have these lines; it treats every line as either content or skipped. They are:
  - bytes that are not valid UTF-8, where `json.loads` raises `UnicodeDecodeError`, which `except json.JSONDecodeError` does not catch;
  - a top-level number, boolean or `null`, where `"message" in json_line` raises `TypeError`;
  - a top-level list holding the element `"message"`, or a top-level string containing `message` (such as `"a message"`), where `json_line['message']` raises `TypeError`;
  - an object whose `message` is a number, a boolean or `null`, where `"content" in ...` raises `TypeError`;
  - an object whose `message` is a list holding the element `"content"`, or a string containing `content`, where indexing it with `'content'` raises `TypeError`;
  - a `content` that is not a string, such as `{"message": {"content": 5}}`, where `buffer += token` raises `TypeError`.

  Other values fail an `in` test without raising and are skipped, which the model covers as a `None` line. Examples are a list or string without `message`, and a `message` string or list without `content`, such as `{"message": "hi"}` or `{"message": []}`.
- The text splitter (`RecursiveCharacterTextSplitter`, chunk size 1000, overlap 150) is an arbitrary function of a page's text. Its internals belong to a library.
- The PDF parser is not modelled. A document is the list of its pages' texts, and any failure while opening or reading it is the `None` document.
- The embedding model and Chroma's nearest-neighbour search are parameters. Ranking, distances and the `tolist()` conversion are not modelled.
- VectorStore.Add: does not model Chroma rejecting an id already present from an earlier `add`, or an empty batch. Setup only ever adds to a freshly created, empty collection, and the application only indexes documents that produced chunks.
- VectorStore.SetupVectorStore: a failing `add` is modelled as returning no collection. The application does not catch that exception (app.py:54), so it ends the script run. Only the state of the client is modelled.
- VectorStore.Recreate: assumes an existing collection is truthy in `if client.get_collection(...)`, so an existing collection is always deleted.
- App.Ask: models one exception from inside the `try`, the `IndexError` of chunks without distances. Failures of the embedding model, the store or the language model are not modelled.
- `st.write_stream` is not modelled as a widget. It is the concatenation of the yielded answer strings.
- `RELEVANCE_THRESHOLD` (0.75, config.py:15) is the parameter `threshold`, a real number. Floating-point distances are reals.
- `URL`, `MODEL` and `EMBEDDING_MODEL` (config.py:3-9) are not modelled. They only configure the excluded I/O.
- test_embed.py and practice.py are not modelled. They are experiments outside the application.
