/** The question-answering step of app.py: once the user submits a
    question, it is recorded as a user turn; when a document has been
    indexed, the closest chunks are retrieved, the relevance gate decides
    between a grounded and a general prompt, the model's answer tokens are
    streamed and concatenated, and the answer is recorded as an assistant
    turn. The Streamlit widgets are not modelled; the chat history is the
    list of recorded turns. */
module App {
  import opened Wrappers
  import opened Text
  import opened Prompt
  import opened ThinkStream
  import opened PdfProcessor
  import opened VectorStore

  /** The context handed to the prompt when retrieval found nothing useful. */
  const NoContextMessage: string := "No relevant context found in the document."

  /** Separates retrieved chunks in the grounded context. */
  const ChunkSeparator: string := "\n\n"

  /** Separates the chunks from the citation lines. */
  const SourcesHeader: string := "\n\nSources:\n"

  /** Opens every citation line. */
  const PagePrefix: string := " - Page "

  // ---------------------------------------------------------------------
  // The relevance gate.

  /** `context_docs and distances[0] < RELEVANCE_THRESHOLD`. `None` is the
      `IndexError` raised when chunks came back without distances. */
  function IsRelevant(docs: seq<string>, distances: seq<real>, threshold: real): (r: Option<bool>)
    // context is used exactly when there are chunks and the closest one is
    // strictly nearer than the threshold
    ensures r == Some(true) <==> |docs| > 0 && |distances| > 0 && distances[0] < threshold
    // an empty retrieval takes the general branch, whatever the threshold
    ensures |docs| == 0 ==> r == Some(false)
    ensures r.None? <==> |docs| > 0 && |distances| == 0
  {
    if |docs| == 0 then Some(false)
    else if |distances| == 0 then None
    else Some(distances[0] < threshold)
  }

  /** The comparison is strict: a closest chunk exactly at the threshold
      is not relevant. */
  lemma GateIsStrict(docs: seq<string>, distances: seq<real>)
    requires |docs| > 0 && |distances| > 0
    ensures IsRelevant(docs, distances, distances[0]) == Some(false)
  {
  }

  /** Raising the threshold never turns a relevant retrieval into an
      irrelevant one. */
  lemma GateMonotone(docs: seq<string>, distances: seq<real>, t1: real, t2: real)
    requires t1 <= t2
    requires IsRelevant(docs, distances, t1) == Some(true)
    ensures IsRelevant(docs, distances, t2) == Some(true)
  {
  }

  // ---------------------------------------------------------------------
  // The grounded context and its citations.

  /** `f" - Page {meta['page_number']}"`. */
  function PageLine(m: Meta): string {
    PagePrefix + NatToString(m.pageNumber)
  }

  /** One citation line per metadata record, in retrieval order. */
  function SourceLines(metas: seq<Meta>): (r: seq<string>)
    ensures |r| == |metas|
    ensures forall i :: 0 <= i < |metas| ==> r[i] == PageLine(metas[i])
  {
    if |metas| == 0 then [] else [PageLine(metas[0])] + SourceLines(metas[1..])
  }

  /** `"\n".join(...)` of the citation lines. */
  function Sources(metas: seq<Meta>): string {
    Join(SourceLines(metas), "\n")
  }

  /** The context of the grounded branch: the chunks, then the citations. */
  function GroundedContext(docs: seq<string>, metas: seq<Meta>): (r: string)
    ensures Join(docs, ChunkSeparator) + SourcesHeader <= r
    ensures EndsWith(r, SourcesHeader + Sources(metas))
    // and nothing else: the header is followed directly by the citations
    ensures |r| == |Join(docs, ChunkSeparator)| + |SourcesHeader| + |Sources(metas)|
  {
    var r := (Join(docs, ChunkSeparator) + SourcesHeader) + Sources(metas);
    assert r[|r| - |SourcesHeader + Sources(metas)|..] == SourcesHeader + Sources(metas);
    r
  }

  /** The page numbers of the metadata records, in order. */
  function Pages(metas: seq<Meta>): (r: seq<nat>)
    ensures |r| == |metas|
    ensures forall i :: 0 <= i < |metas| ==> r[i] == metas[i].pageNumber
  {
    if |metas| == 0 then [] else [metas[0].pageNumber] + Pages(metas[1..])
  }

  /** Reads a page number back out of a citation line. */
  function ParsePageLine(line: string): Option<nat> {
    if |line| > |PagePrefix| && line[..|PagePrefix|] == PagePrefix then ParseNat(line[|PagePrefix|..])
    else None
  }

  /** Reads the page numbers back out of a citation block. */
  function ParseLines(lines: seq<string>): Option<seq<nat>> {
    if |lines| == 0 then Some([])
    else
      var page :- ParsePageLine(lines[0]);
      var rest :- ParseLines(lines[1..]);
      Some([page] + rest)
  }

  /** Reads the page numbers back out of a citation block; the empty block
      cites no page. */
  function CitedPages(sources: string): Option<seq<nat>> {
    if sources == "" then Some([]) else ParseLines(SplitOn(sources, '\n'))
  }

  lemma PageLineRoundTrip(m: Meta)
    ensures '\n' !in PageLine(m)
    ensures ParsePageLine(PageLine(m)) == Some(m.pageNumber)
  {
    var line := PageLine(m);
    assert line[..|PagePrefix|] == PagePrefix;
    assert line[|PagePrefix|..] == NatToString(m.pageNumber);
    ParseNatToString(m.pageNumber);
    assert forall i :: 0 <= i < |line| ==> line[i] != '\n' by {
      forall i | 0 <= i < |line|
        ensures line[i] != '\n'
      {
        if i >= |PagePrefix| {
          assert line[i] == NatToString(m.pageNumber)[i - |PagePrefix|];
        }
      }
    }
  }

  lemma {:induction false} ParseSourceLines(metas: seq<Meta>)
    ensures ParseLines(SourceLines(metas)) == Some(Pages(metas))
    decreases |metas|
  {
    if |metas| > 0 {
      PageLineRoundTrip(metas[0]);
      ParseSourceLines(metas[1..]);
      assert SourceLines(metas)[1..] == SourceLines(metas[1..]);
    }
  }

  /** The citation block has exactly one line per retrieved chunk, giving
      that chunk's page, in retrieval order and with repeats kept. */
  lemma {:induction false} SourcesRoundTrip(metas: seq<Meta>)
    ensures CitedPages(Sources(metas)) == Some(Pages(metas))
  {
    var lines := SourceLines(metas);
    if |lines| > 0 {
      assert |Sources(metas)| >= |lines[0]| > 0;
      forall i | 0 <= i < |lines|
        ensures '\n' !in lines[i]
      {
        PageLineRoundTrip(metas[i]);
      }
      SplitJoin(lines, '\n');
      ParseSourceLines(metas);
    }
  }

  /** Two chunks from the same page are cited twice. */
  lemma RepeatedPageCitedTwice(source: string)
    ensures Sources([Meta(3, source), Meta(3, source)]) == " - Page 3\n - Page 3"
  {
    var metas := [Meta(3, source), Meta(3, source)];
    assert NatToString(3) == "3";
    assert PageLine(Meta(3, source)) == " - Page 3";
    var lines := SourceLines(metas);
    assert lines[0] == " - Page 3" && lines[1] == " - Page 3";
    assert Join(lines, "\n") == lines[0] + "\n" + Join(lines[1..], "\n");
    assert lines[1..] == [" - Page 3"];
  }

  /** The context and the branch flag handed to `generate_prompt`. */
  datatype Prepared = Prepared(context: string, hasContext: bool)

  /** `app.py` lines 84-91: the gate and the context it selects. */
  function PrepareContext(found: Retrieved, threshold: real): (r: Option<Prepared>)
    ensures r.None? <==> IsRelevant(found.documents, found.distances, threshold).None?
    // `has_context` is the gate's decision
    ensures r.Some? ==> (r.value.hasContext <==> IsRelevant(found.documents, found.distances, threshold) == Some(true))
    ensures r.Some? && r.value.hasContext ==> r.value.context == GroundedContext(found.documents, found.metadatas)
    // the general branch carries the fixed notice and no page text
    ensures r.Some? && !r.value.hasContext ==> r.value.context == NoContextMessage
  {
    match IsRelevant(found.documents, found.distances, threshold)
    case None => None
    case Some(relevant) =>
      if relevant then Some(Prepared(GroundedContext(found.documents, found.metadatas), true))
      else Some(Prepared(NoContextMessage, false))
  }

  // ---------------------------------------------------------------------
  // One question.

  datatype Role = User | Assistant

  /** `{"role": ..., "content": ...}` in `st.session_state.messages`. */
  datatype Message = Message(role: Role, content: string)

  /** How the assistant's part of the turn ended. */
  datatype Outcome =
    | NotSubmitted                                                // no text in the chat input
    | NoDocument                                                  // the "upload a PDF first" warning
    | Failed                                                      // the error branch of app.py:100
    | Answered(prompt: string, hasContext: bool, response: string)

  datatype Turn = Turn(messages: seq<Message>, outcome: Outcome)

  /** `st.write_stream(stream_handler(prompt))`: the answer tokens of the
      model's response to `prompt`, concatenated. */
  function Respond(prompt: string, respond: string -> seq<Option<string>>): (r: string)
    // a reply that never opens a think block is recorded verbatim
    ensures NoOpenTag(respond(prompt)) ==> r == Concat(Tokens(respond(prompt)))
  {
    var lines := respond(prompt);
    var answer := Concat(StreamHandler(lines));
    if NoOpenTag(lines) then TagFreeReplyVerbatim(lines); answer else answer
  }

  /** The handling of the chat input (app.py:67-101): empty text submits
      nothing; a question is recorded and answered. `respond` gives the
      lines of the language model's streamed reply to a prompt. */
  function Ask(history: seq<Message>, question: string, collection: Option<Collection>,
               encode: seq<string> -> seq<Embedding>,
               search: (Collection, seq<Embedding>, nat) -> Retrieved,
               respond: string -> seq<Option<string>>, threshold: real): (r: Turn)
    // the earlier turns are kept
    ensures |history| <= |r.messages| <= |history| + 2
    ensures r.messages[..|history|] == history
    // an empty input is falsy: nothing is recorded
    ensures r.outcome == NotSubmitted <==> question == ""
    ensures question == "" ==> r.messages == history
    // otherwise the user turn is recorded first, whatever happens next
    ensures question != "" ==> |r.messages| > |history| && r.messages[|history|] == Message(User, question)
    // an assistant turn follows exactly on the success path
    ensures |r.messages| == |history| + 2 <==> r.outcome.Answered?
    ensures r.outcome.Answered? ==> r.messages[|history| + 1] == Message(Assistant, r.outcome.response)
    // without a document nothing is retrieved or asked
    ensures r.outcome == NoDocument <==> question != "" && collection.None?
  {
    var asked := history + [Message(User, question)];
    if question == "" then Turn(history, NotSubmitted)
    else if collection.None? then Turn(asked, NoDocument)
    else
      var found := QueryDefault(question, collection, encode, search).value;
      match PrepareContext(found, threshold)
      case None => Turn(asked, Failed)
      case Some(prepared) =>
        var prompt := GeneratePrompt(question, prepared.context, prepared.hasContext);
        var response := Respond(prompt, respond);
        Turn(asked + [Message(Assistant, response)], Answered(prompt, prepared.hasContext, response))
  }

  /** The chunks the question retrieves from an indexed document. */
  function Retrieve(question: string, c: Collection, encode: seq<string> -> seq<Embedding>,
                    search: (Collection, seq<Embedding>, nat) -> Retrieved): Retrieved {
    search(c, encode([question]), DefaultTopN)
  }

  /** With a document indexed, the gate alone picks the prompt: a relevant
      retrieval yields the grounded prompt, from which the chunks and
      their citations can be read back; an irrelevant one yields the
      general prompt, from which the question can be read back. */
  lemma GateSelectsPrompt(history: seq<Message>, question: string, c: Collection,
                          encode: seq<string> -> seq<Embedding>,
                          search: (Collection, seq<Embedding>, nat) -> Retrieved,
                          respond: string -> seq<Option<string>>, threshold: real)
    requires question != ""
    requires IsRelevant(Retrieve(question, c, encode, search).documents,
                        Retrieve(question, c, encode, search).distances, threshold).Some?
    ensures var found := Retrieve(question, c, encode, search);
      var relevant := IsRelevant(found.documents, found.distances, threshold) == Some(true);
      var r := Ask(history, question, Some(c), encode, search, respond, threshold);
      && r.outcome.Answered?
      && r.outcome.hasContext == relevant
      && (relevant ==> ContextOf(r.outcome.prompt, question) == Some(GroundedContext(found.documents, found.metadatas)))
      && (!relevant ==> GeneralQuestionOf(r.outcome.prompt) == Some(question))
      && r.outcome.response == Respond(r.outcome.prompt, respond)
  {
    var found := Retrieve(question, c, encode, search);
    var relevant := IsRelevant(found.documents, found.distances, threshold) == Some(true);
    var context := if relevant then GroundedContext(found.documents, found.metadatas) else NoContextMessage;
    var r := Ask(history, question, Some(c), encode, search, respond, threshold);
    assert r.outcome.prompt == GeneratePrompt(question, context, relevant);
    if relevant {
      ContextRoundTrip(question, context);
    } else {
      GeneralRoundTrip(question, context);
    }
  }

  /** The prompt reveals the gate's decision: the grounded and the general
      prompt never coincide. */
  lemma PromptRevealsGate(history: seq<Message>, question: string, c: Collection,
                          encode: seq<string> -> seq<Embedding>,
                          search: (Collection, seq<Embedding>, nat) -> Retrieved,
                          respond: string -> seq<Option<string>>, t1: real, t2: real)
    requires question != ""
    requires IsRelevant(Retrieve(question, c, encode, search).documents,
                        Retrieve(question, c, encode, search).distances, t1).Some?
    ensures var a := Ask(history, question, Some(c), encode, search, respond, t1).outcome;
      var b := Ask(history, question, Some(c), encode, search, respond, t2).outcome;
      && a.Answered? && b.Answered?
      && (a.prompt == b.prompt <==> a.hasContext == b.hasContext)
  {
    var a := Ask(history, question, Some(c), encode, search, respond, t1).outcome;
    var b := Ask(history, question, Some(c), encode, search, respond, t2).outcome;
    var pa := AnsweredPrompt(history, question, c, encode, search, respond, t1);
    var pb := AnsweredPrompt(history, question, c, encode, search, respond, t2);
    if a.hasContext == b.hasContext {
      assert pa == pb;
    } else if a.hasContext {
      BranchesDiffer(question, pa.context, question, pb.context);
    } else {
      BranchesDiffer(question, pb.context, question, pa.context);
    }
  }

  /** A submitted question whose retrieval the gate can judge is answered,
      with the prompt built from the prepared context. */
  lemma AnsweredPrompt(history: seq<Message>, question: string, c: Collection,
                       encode: seq<string> -> seq<Embedding>,
                       search: (Collection, seq<Embedding>, nat) -> Retrieved,
                       respond: string -> seq<Option<string>>, threshold: real)
    returns (p: Prepared)
    requires question != ""
    requires IsRelevant(Retrieve(question, c, encode, search).documents,
                        Retrieve(question, c, encode, search).distances, threshold).Some?
    ensures var a := Ask(history, question, Some(c), encode, search, respond, threshold).outcome;
      && a.Answered?
      && a.hasContext == p.hasContext
      && a.prompt == GeneratePrompt(question, p.context, p.hasContext)
    ensures var found := Retrieve(question, c, encode, search);
      p.context == if p.hasContext then GroundedContext(found.documents, found.metadatas) else NoContextMessage
  {
    p := PrepareContext(Retrieve(question, c, encode, search), threshold).value;
  }

  /** An irrelevant retrieval leaves no trace in the prompt: whatever was
      retrieved, the prompt depends on the question alone. */
  lemma IrrelevantRetrievalIgnored(history: seq<Message>, question: string, c1: Collection, c2: Collection,
                                   encode: seq<string> -> seq<Embedding>,
                                   search: (Collection, seq<Embedding>, nat) -> Retrieved,
                                   respond: string -> seq<Option<string>>, threshold: real)
    requires IsRelevant(Retrieve(question, c1, encode, search).documents,
                        Retrieve(question, c1, encode, search).distances, threshold) == Some(false)
    requires IsRelevant(Retrieve(question, c2, encode, search).documents,
                        Retrieve(question, c2, encode, search).distances, threshold) == Some(false)
    ensures Ask(history, question, Some(c1), encode, search, respond, threshold)
         == Ask(history, question, Some(c2), encode, search, respond, threshold)
  {
  }

  /** Chunks without distances make the gate raise: the question stays
      unanswered, with only the user turn recorded. */
  lemma MissingDistancesFail(history: seq<Message>, question: string, c: Collection,
                             encode: seq<string> -> seq<Embedding>,
                             search: (Collection, seq<Embedding>, nat) -> Retrieved,
                             respond: string -> seq<Option<string>>, threshold: real)
    requires question != ""
    requires |Retrieve(question, c, encode, search).documents| > 0
    requires |Retrieve(question, c, encode, search).distances| == 0
    ensures Ask(history, question, Some(c), encode, search, respond, threshold)
         == Turn(history + [Message(User, question)], Failed)
  {
  }

  /** Without a document, neither the store, the embedding model nor the
      language model is consulted. */
  lemma NoDocumentConsultsNothing(history: seq<Message>, question: string,
                                  e1: seq<string> -> seq<Embedding>, e2: seq<string> -> seq<Embedding>,
                                  s1: (Collection, seq<Embedding>, nat) -> Retrieved,
                                  s2: (Collection, seq<Embedding>, nat) -> Retrieved,
                                  r1: string -> seq<Option<string>>, r2: string -> seq<Option<string>>,
                                  t1: real, t2: real)
    ensures Ask(history, question, None, e1, s1, r1, t1) == Ask(history, question, None, e2, s2, r2, t2)
    ensures question != "" ==> Ask(history, question, None, e1, s1, r1, t1) == Turn(history + [Message(User, question)], NoDocument)
  {
  }

  /** Turns accumulate: every recorded turn stays, and each question adds
      its user turn and at most one assistant turn after it. */
  lemma HistoryOnlyGrows(history: seq<Message>, question: string, collection: Option<Collection>,
                         encode: seq<string> -> seq<Embedding>,
                         search: (Collection, seq<Embedding>, nat) -> Retrieved,
                         respond: string -> seq<Option<string>>, threshold: real)
    ensures var r := Ask(history, question, collection, encode, search, respond, threshold);
      forall i :: |history| < i < |r.messages| ==> r.messages[i].role == Assistant
  {
  }
}
