/** `src/prompts/builders.py`: the answer agent's instruction text. The handoff
    record (`ReplyHandoffData`) is used by the dispatchers but not declared in the
    repository; it is modelled with the fields they set. */
module AnswerPrompt {
  import opened Wrappers
  import opened Strings
  import opened Prompts

  datatype HandoffData = HandoffData(
    userMessage: string,
    systemPromptKey: Option<string>,
    context: Option<string>,
    history: string,
    instruction: string,
    behavioralPrompts: Option<seq<string>>)

  /** The run context the builder receives: a handoff record or anything else. */
  datatype AgentContext = Handoff(data: HandoffData) | OtherContext

  const HistoryPlaceholder := "Conversation history is not yet implemented."
  const NoContext := "No additional context provided."
  const HistoryHeader := "\n\n### Conversation History:\n"
  const ContextHeader := "\n\n### Provided Context from Knowledge Base:\n"
  const QuestionHeader := "\n\n### User's Question:\n"

  /** An f-string rendering of an optional template. */
  function Render(p: Option<string>): string {
    if p.Some? then p.value else "None"
  }

  function ContextText(context: Option<string>): string {
    if context.Some? && context.value != "" then context.value else NoContext
  }

  /** Everything of a handoff prompt before the user's question: the system prompt
      for the handoff's key, the history placeholder and the context section. */
  function PromptHead(table: map<string, Option<string>>, d: HandoffData): string {
    Render(Lookup(table, d.systemPromptKey)) + HistoryHeader + HistoryPlaceholder + ContextHeader + ContextText(d.context)
  }

  /** `build_answer_prompt`. Without a handoff record the default prompt is returned
      as looked up, so it may be None; with one, the prompt is the head followed by
      the question section, and nothing else. */
  function BuildAnswerPrompt(table: map<string, Option<string>>, ctx: AgentContext): (r: Option<string>)
    ensures ctx.OtherContext? ==> r == Lookup(table, Some(DefaultKey))
    ensures ctx.Handoff? ==> r.Some?
    ensures ctx.Handoff? ==>
      && StartsWith(r.value, PromptHead(table, ctx.data))
      && EndsWith(r.value, QuestionHeader + ctx.data.userMessage + "\n")
      && |r.value| == |PromptHead(table, ctx.data)| + |QuestionHeader| + |ctx.data.userMessage| + 1
  {
    match ctx
    case OtherContext => Lookup(table, Some(DefaultKey))
    case Handoff(d) =>
      var head := PromptHead(table, d);
      var tail := QuestionHeader + d.userMessage + "\n";
      PrefixStartsWith(head, tail);
      SuffixEndsWith(head, tail);
      Some(head + tail)
  }

  lemma Regroup(a: string, b: string, c: string, d: string)
    ensures a + (b + c + d) == (a + b) + c + d
  {
  }

  /** The user's question comes back out of the prompt verbatim: strip the head and
      the question header in front and the final newline behind. */
  lemma QuestionRecovered(table: map<string, Option<string>>, d: HandoffData)
    ensures RemoveSuffix(RemovePrefix(BuildAnswerPrompt(table, Handoff(d)).value, PromptHead(table, d) + QuestionHeader), "\n")
         == d.userMessage
  {
    var head := PromptHead(table, d);
    assert BuildAnswerPrompt(table, Handoff(d)).value == head + (QuestionHeader + d.userMessage + "\n");
    Regroup(head, QuestionHeader, d.userMessage, "\n");
    RemoveFrame(head + QuestionHeader, d.userMessage, "\n");
  }

  /** The handoff's history, instruction and behavioural prompts do not reach the
      prompt; only its key, context and message do. */
  lemma PromptIgnoresInstructions(table: map<string, Option<string>>, d: HandoffData,
                                  history: string, instruction: string, prompts: Option<seq<string>>)
    ensures BuildAnswerPrompt(table, Handoff(d)) ==
            BuildAnswerPrompt(table, Handoff(d.(history := history, instruction := instruction, behavioralPrompts := prompts)))
  {
  }

  /** An absent or empty context shows the fixed notice; a non-empty one is shown as is. */
  lemma ContextDefault(context: Option<string>)
    ensures ContextText(context) == NoContext <==> context.None? || context.value in {"", NoContext}
  {
  }
}
