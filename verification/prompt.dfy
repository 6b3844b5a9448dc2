/** `generate_prompt` of llm_handler.py: a choice between two fixed
    templates. Each template is the literal text of the Python triple-quoted
    f-string, including its leading newline and eight-space indentation. */
module Prompt {
  import opened Wrappers
  import opened Text

  /** A line break followed by the template's eight-space indentation. */
  const Indent: string := "\n        "

  /** Opening words of each template; they differ, which is how a prompt
      reveals the branch it was built on. */
  const GroundedOpening: string := "Based on the following context"
  const GeneralOpening: string := "The user asked a question"

  /** The grounded instructions, up to the `Context:` label. */
  const ContextPreamble: string :=
    Indent + GroundedOpening + " from a PDF document, please answer the user's question in a professsional and respectable way."
    + Indent + "Only use information from the context. If the context does not contain the answer, state that you cannot find the answer in the document."
    + Indent + "Also mention the sources of the context at the very end of the response in a professional manner after a few blank lines."
    + "\n" + Indent + "Context:"

  /** Template text before `{context}` in the grounded prompt. */
  const ContextHead: string := ContextPreamble + Indent + Fence + Indent

  /** Template text between `{context}` and the question label in the
      grounded prompt: the closing fence and a blank line. */
  const ContextMiddle: string := Indent + Fence + "\n" + Indent

  /** The general-knowledge instructions, before the labelled question. */
  const GeneralPreamble: string :=
    Indent + GeneralOpening + ", but no relevant information was found in the provided PDF document."
    + Indent + "Please provide a general, helpful answer to the user's question. Do not mention that context was not found."
    + "\n"

  /** Template text before the question label in the general-knowledge
      prompt. */
  const GeneralHead: string := GeneralPreamble + Indent

  /** Both templates end with the newline and indentation of the closing quotes. */
  const Tail: string := Indent

  const Fence: string := "---"
  const QuestionLabel: string := "User Question: "

  /** The labelled question that closes both templates. */
  function Question(query: string): string {
    QuestionLabel + query + Tail
  }

  /** `generate_prompt`. */
  function GeneratePrompt(query: string, context: string, hasContext: bool): (r: string)
    // Grounded: the context follows the head (which closes with a `---`
    // fence, see FencesAroundContext), the closing fence follows the
    // context, and the prompt ends with the labelled question.
    ensures hasContext ==>
      && ContextHead + context + ContextMiddle <= r
      && EndsWith(r, QuestionLabel + query + Tail)
      && |r| == |ContextHead| + |context| + |ContextMiddle| + |QuestionLabel| + |query| + |Tail|
    // General: fixed instructions, then the labelled question, nothing else.
    ensures !hasContext ==>
      && GeneralHead <= r
      && EndsWith(r, QuestionLabel + query + Tail)
      && |r| == |GeneralHead| + |QuestionLabel| + |query| + |Tail|
  {
    var head := if hasContext then ContextHead + context + ContextMiddle else GeneralHead;
    Framed(head, Question(query));
    head + Question(query)
  }

  /** A string built as `head + tail` starts with `head` and ends with `tail`. */
  lemma Framed(head: string, tail: string)
    ensures head <= head + tail
    ensures EndsWith(head + tail, tail)
  {
    assert (head + tail)[|head|..] == tail;
  }

  /** The grounded head closes with a `---` fence line, and the text after
      the context opens with one. */
  lemma FencesAroundContext()
    ensures EndsWith(ContextHead, Indent + Fence + Indent)
    ensures Indent + Fence <= ContextMiddle
  {
    var tail := Indent + Fence + Indent;
    assert ContextHead == ContextPreamble + tail;
    assert ContextHead[|ContextHead| - |tail|..] == tail;
    assert ContextMiddle == (Indent + Fence) + ("\n" + Indent);
  }

  /** The general-knowledge prompt never interpolates `context`. */
  lemma GeneralIgnoresContext(query: string, c1: string, c2: string)
    ensures GeneratePrompt(query, c1, false) == GeneratePrompt(query, c2, false)
  {
  }

  /** Recovers the question from a general-knowledge prompt. */
  function GeneralQuestionOf(prompt: string): Option<string>
  {
    var start := |GeneralHead| + |QuestionLabel|;
    if |prompt| >= start + |Tail|
       && prompt[..start] == GeneralHead + QuestionLabel
       && prompt[|prompt| - |Tail|..] == Tail
    then Some(prompt[start..|prompt| - |Tail|])
    else None
  }

  /** Recovers the context from a grounded prompt, given the question. */
  function ContextOf(prompt: string, query: string): Option<string>
  {
    var suffix := ContextMiddle + Question(query);
    if |prompt| >= |ContextHead| + |suffix|
       && prompt[..|ContextHead|] == ContextHead
       && prompt[|prompt| - |suffix|..] == suffix
    then Some(prompt[|ContextHead|..|prompt| - |suffix|])
    else None
  }

  /** The question can be read back from the general-knowledge prompt. */
  lemma GeneralRoundTrip(query: string, context: string)
    ensures GeneralQuestionOf(GeneratePrompt(query, context, false)) == Some(query)
  {
    var p := GeneratePrompt(query, context, false);
    var start := |GeneralHead| + |QuestionLabel|;
    assert p == GeneralHead + (QuestionLabel + query + Tail);
    Regroup(GeneralHead, QuestionLabel, query, Tail);
    Unframe(GeneralHead + QuestionLabel, query, Tail);
  }

  /** The context can be read back from the grounded prompt. */
  lemma ContextRoundTrip(query: string, context: string)
    ensures ContextOf(GeneratePrompt(query, context, true), query) == Some(context)
  {
    var p := GeneratePrompt(query, context, true);
    var suffix := ContextMiddle + Question(query);
    assert p == (ContextHead + context + ContextMiddle) + Question(query);
    Regroup(ContextHead, context, ContextMiddle, Question(query));
    Unframe(ContextHead, context, suffix);
  }

  /** Distinct contexts give distinct grounded prompts for one question. */
  lemma ContextInjective(query: string, c1: string, c2: string)
    requires GeneratePrompt(query, c1, true) == GeneratePrompt(query, c2, true)
    ensures c1 == c2
  {
    ContextRoundTrip(query, c1);
    ContextRoundTrip(query, c2);
  }

  /** The two templates never coincide: the prompt reveals which branch
      `has_context` selected. */
  lemma BranchesDiffer(q1: string, c1: string, q2: string, c2: string)
    ensures GeneratePrompt(q1, c1, true) != GeneratePrompt(q2, c2, false)
  {
    var a := GeneratePrompt(q1, c1, true);
    var b := GeneratePrompt(q2, c2, false);
    assert a[|Indent|] == GroundedOpening[0];
    assert b[|Indent|] == GeneralOpening[0];
  }
}
