/** What `src/bot/message_handler.py` and `src/bot/handlers.py` have in common: the
    effects a handled message has on the outside world, the outcomes the outside
    world reports back, the fixed replies, the normalisation of the router's output,
    the forward branch and the answer-generation step. */
module Dispatch {
  import opened Wrappers
  import opened Strings
  import opened RouterModels
  import AnswerPrompt
  import RuleModels
  import RulesStore
  import Memory

  /** One observable step: a reply in the chat, a forward of the user's message, the
      typing indicator, an entry appended to the user's memory, or a run of the
      answer agent with the given handoff record. */
  datatype Effect =
    | Send(reply: Reply)
    | ForwardTo(destination: string)
    | Typing
    | Remember(role: string, entry: Reply)
    | Answer(handoff: AnswerPrompt.HandoffData)

  /** A reply's text: given verbatim (a response text, the answer agent's output, the
      user's own message when remembered), or one of the fixed notices. */
  datatype Reply = Verbatim(text: string) | Fixed(notice: Notice)

  /** The fixed notices of the two dispatchers; `NoticeText` gives their wording. */
  datatype Notice =
    | UnclearDestination
    | ForwardFailed
    | MissingReplyInfo
    | UnknownInstruction
    | GenerationFailed
    | LanguageTrouble
    | NotEnglish(language: string)
    | RoutingUnavailable
    | UnexpectedResponse
    | UnexpectedError

  /** The message being handled: its text, the memory's history text, whether a
      memory manager is attached, and the active rules. */
  datatype Session = Session(text: string, history: string, hasMemory: bool, rules: seq<RuleModels.Rule>)

  /** Without a memory manager both dispatchers use "" as the history text. */
  predicate ValidSession(s: Session) {
    !s.hasMemory ==> s.history == ""
  }

  /** The session the dispatchers see for a message: when a memory manager holds
      `stored` for the user, the message is appended to it under the bound first, and
      the history text is read afterwards, so it includes the message itself. */
  function SessionFor(text: string, stored: Option<seq<Memory.Message>>, maxHistoryLength: int,
                      rules: seq<RuleModels.Rule>): (s: Session)
    ensures ValidSession(s)
    ensures s.text == text && s.rules == rules && (s.hasMemory <==> stored.Some?)
  {
    var history := if stored.Some?
      then Memory.HistoryText(Memory.Truncate(stored.value + [Memory.Message("user", text)], maxHistoryLength))
      else "";
    Session(text, history, stored.Some?, rules)
  }

  /** With a memory manager and a positive bound, the history text is never empty and
      ends with the user's current message. */
  lemma SessionHistoryEndsWithMessage(text: string, stored: seq<Memory.Message>, maxHistoryLength: int,
                                      rules: seq<RuleModels.Rule>)
    requires maxHistoryLength >= 1
    ensures var s := SessionFor(text, Some(stored), maxHistoryLength, rules);
      s.history != "" && EndsWith(s.history, "User: " + text)
  {
    var h := Memory.Truncate(stored + [Memory.Message("user", text)], maxHistoryLength);
    Memory.AddKeepsNewest(stored, Memory.Message("user", text), maxHistoryLength);
    Memory.HistoryTextEndsWithLast(h);
    assert Memory.Line(h[|h| - 1]) == "User: " + text;
  }

  /** The first steps of both `handle_text_message`s: remember the user's message when
      a memory manager is attached, and later read that user's history text. */
  method ReceiveMessage(memory: Memory.MemoryManager?, userId: int, text: string, rules: seq<RuleModels.Rule>)
    returns (s: Session)
    modifies memory
    ensures memory == null ==> s == SessionFor(text, None, 0, rules)
    ensures memory != null ==>
      && s == SessionFor(text, Some(old(memory.GetHistory(userId))), memory.maxHistoryLength, rules)
      && memory.memory == old(memory.memory)[userId := Memory.Truncate(old(memory.GetHistory(userId)) + [Memory.Message("user", text)], memory.maxHistoryLength)]
  {
    if memory != null {
      memory.AddMessage(userId, "user", text);
      var history := memory.GetHistoryAsText(userId);
      return Session(text, history, true, rules);
    }
    return Session(text, "", false, rules);
  }

  /** What the collaborators report: whether the forward succeeded, the answer agent's
      output (None when it raised), and whether logging the interaction succeeded. */
  datatype Outcomes = Outcomes(forwarded: bool, answer: Option<string>, logged: bool)

  const NoticeHead := "This chat is for English language communication. You texted me in "
  const NoticeTail := ". Please rephrase your question in English."

  /** The wording of each fixed notice. */
  function NoticeText(n: Notice): string {
    match n
    case UnclearDestination => "Sorry, I was asked to forward your message, but the destination is unclear."
    case ForwardFailed => "Sorry, I could not forward your message at this time."
    case MissingReplyInfo => "Sorry, I was asked to reply, but I don't have the required information."
    case UnknownInstruction => "Sorry, I received an unknown instruction from the routing system."
    case GenerationFailed => "Sorry, I encountered an error while generating a detailed response."
    case LanguageTrouble => "Sorry, I had trouble processing the language of your message."
    case NotEnglish(language) => NoticeHead + language + NoticeTail
    case RoutingUnavailable => "Sorry, the message routing system is currently unavailable. Please try again later."
    case UnexpectedResponse => "Sorry, I received an unexpected response from the routing system."
    case UnexpectedError => "Sorry, an unexpected error occurred while processing your message."
  }

  function ReplyText(r: Reply): string {
    match r
    case Verbatim(text) => text
    case Fixed(n) => NoticeText(n)
  }

  /** Python truthiness of an optional string. */
  predicate Filled(s: Option<string>) {
    s.Some? && s.value != ""
  }

  /** Python truthiness of an optional list. */
  predicate HasItems(s: Option<seq<string>>) {
    s.Some? && s.value != []
  }

  /** The matched rule's instruction, when there is such a rule and its instruction
      is non-empty, followed by the behavioral prompts. */
  function Instructions(rule: Option<RuleModels.Rule>, prompts: Option<seq<string>>): seq<string> {
    (if rule.Some? && Filled(rule.value.instruction) then [rule.value.instruction.value] else []) +
    (if HasItems(prompts) then prompts.value else [])
  }

  /** The rule the decision names, looked up among the active rules. */
  function MatchedRule(rules: seq<RuleModels.Rule>, matchedRuleId: Option<string>): Option<RuleModels.Rule> {
    if Filled(matchedRuleId) then RulesStore.FindRule(rules, matchedRuleId.value) else None
  }

  /** The instruction comes only from a rule with the decision's id: the first active
      rule carrying it. */
  lemma InstructionFromMatchedRule(rules: seq<RuleModels.Rule>, matchedRuleId: Option<string>, prompts: Option<seq<string>>)
    requires !HasItems(prompts)
    requires Instructions(MatchedRule(rules, matchedRuleId), prompts) != []
    ensures Filled(matchedRuleId)
    ensures exists k :: (0 <= k < |rules| && rules[k].ruleId == matchedRuleId.value &&
      rules[k].instruction == Some(Instructions(MatchedRule(rules, matchedRuleId), prompts)[0]) &&
      forall j :: 0 <= j < k ==> rules[j].ruleId != matchedRuleId.value)
  {
  }

  /** The router output as handed to the decision parser: stripped, a leading
      "```json" and a trailing "```" removed, stripped again. */
  function CleanRouterOutput(raw: string): string {
    Strip(RemoveSuffix(RemovePrefix(Strip(raw), "```json"), "```"))
  }

  /** The cleaned output has no surrounding white space. */
  lemma CleanOutputStripped(raw: string)
    ensures Strip(CleanRouterOutput(raw)) == CleanRouterOutput(raw)
  {
    StripIdempotent(RemoveSuffix(RemovePrefix(Strip(raw), "```json"), "```"));
  }

  /** Unwrapping `open + body + close` when neither outer end is white space. */
  lemma Unwrapped(open: string, body: string, close: string)
    requires |open| >= 1 && |close| >= 1
    requires !IsSpace(open[0]) && !IsSpace(close[|close| - 1])
    ensures Strip(RemoveSuffix(RemovePrefix(Strip(open + body + close), open), close)) == Strip(body)
  {
    var inner := body + close;
    var s := open + inner;
    assert open + body + close == s;
    assert s[0] == open[0];
    assert s[|s| - 1] == close[|close| - 1];
    StripTrimmed(s);
    PrefixStartsWith(open, inner);
    assert RemovePrefix(s, open) == inner;
    SuffixEndsWith(body, close);
    assert RemoveSuffix(inner, close) == body;
  }

  /** A fenced JSON block is reduced to its stripped body. */
  lemma FencedJsonUnwrapped(body: string)
    ensures CleanRouterOutput("```json" + body + "```") == Strip(body)
  {
    Unwrapped("```json", body, "```");
  }

  /** Output without fences or surrounding white space is passed on unchanged. */
  lemma PlainOutputUnchanged(s: string)
    requires s == Strip(s) && !StartsWith(s, "```json") && !EndsWith(s, "```")
    ensures CleanRouterOutput(s) == s
  {
  }

  /** The texts of the replies among `effects`, in order. */
  function Sends(effects: seq<Effect>): seq<Reply>
    decreases |effects|
  {
    if effects == [] then [] else SendOf(effects[0]) + Sends(effects[1..])
  }

  /** The reply an effect sends, if it sends one. */
  function SendOf(e: Effect): seq<Reply> {
    if e.Send? then [e.reply] else []
  }

  lemma {:induction false} SendsAppend(a: seq<Effect>, b: seq<Effect>)
    ensures Sends(a + b) == Sends(a) + Sends(b)
    decreases |a|
  {
    if a == [] {
      assert a + b == b;
    } else {
      var head, rest := SendOf(a[0]), a[1..];
      assert (a + b)[0] == a[0];
      assert (a + b)[1..] == rest + b;
      assert Sends(a + b) == head + Sends(rest + b);
      SendsAppend(rest, b);
      assert head + (Sends(rest) + Sends(b)) == (head + Sends(rest)) + Sends(b);
    }
  }

  /** The `forward` branch: no destination gives one apology and no forward; otherwise
      the message is forwarded, and a failed forward gives one apology. */
  function ForwardEffects(params: DecisionParams, forwarded: bool): (r: seq<Effect>)
    ensures !Filled(params.destinationChatId) ==> r == [Send(Fixed(UnclearDestination))]
    ensures Filled(params.destinationChatId) ==> |r| >= 1 && r[0] == ForwardTo(params.destinationChatId.value)
    ensures forall i :: 0 <= i < |r| && r[i].ForwardTo? ==> i == 0 && Filled(params.destinationChatId)
  {
    if !Filled(params.destinationChatId) then [Send(Fixed(UnclearDestination))]
    else [ForwardTo(params.destinationChatId.value)] + if forwarded then [] else [Send(Fixed(ForwardFailed))]
  }

  /** `Remember(role, entry)` when a memory manager is attached. */
  function RememberIf(hasMemory: bool, role: string, entry: Reply): (r: seq<Effect>)
    ensures Sends(r) == []
  {
    if hasMemory then [Remember(role, entry)] else []
  }

  /** Running the answer agent and replying: the answer is remembered and sent; if
      the run raises, or logging the interaction raises after the answer was
      remembered, the fixed apology is remembered and sent instead. */
  function GenerationEffects(handoff: AnswerPrompt.HandoffData, hasMemory: bool, o: Outcomes): (r: seq<Effect>)
    ensures |r| >= 2 && r[0] == Answer(handoff) && r[|r| - 1].Send?
  {
    var tail :=
      if o.answer.None? then RememberIf(hasMemory, "assistant", Fixed(GenerationFailed)) + [Send(Fixed(GenerationFailed))]
      else RememberIf(hasMemory, "assistant", Verbatim(o.answer.value)) +
           if o.logged then [Send(Verbatim(o.answer.value))]
           else RememberIf(hasMemory, "assistant", Fixed(GenerationFailed)) + [Send(Fixed(GenerationFailed))];
    [Answer(handoff)] + tail
  }

  /** The forward branch replies at most once, and only with one of its two apologies. */
  lemma ForwardSends(params: DecisionParams, forwarded: bool)
    ensures Sends(ForwardEffects(params, forwarded)) ==
      if !Filled(params.destinationChatId) then [Fixed(UnclearDestination)]
      else if forwarded then [] else [Fixed(ForwardFailed)]
  {
    if Filled(params.destinationChatId) {
      var f: seq<Effect> := [ForwardTo(params.destinationChatId.value)];
      var tail: seq<Effect> := if forwarded then [] else [Send(Fixed(ForwardFailed))];
      SendsAppend(f, tail);
    }
  }

  /** Generation replies exactly once: with the answer when it was produced and
      logged, otherwise with the fixed apology, which is then also the last entry
      remembered. The raw error is never sent. */
  lemma GenerationSends(handoff: AnswerPrompt.HandoffData, hasMemory: bool, o: Outcomes)
    ensures o.answer.Some? && o.logged ==> Sends(GenerationEffects(handoff, hasMemory, o)) == [Verbatim(o.answer.value)]
    ensures !(o.answer.Some? && o.logged) ==> Sends(GenerationEffects(handoff, hasMemory, o)) == [Fixed(GenerationFailed)]
    ensures var r := GenerationEffects(handoff, hasMemory, o);
      !(o.answer.Some? && o.logged) && hasMemory ==> |r| >= 3 && r[|r| - 2] == Remember("assistant", Fixed(GenerationFailed))
  {
    var apology := RememberIf(hasMemory, "assistant", Fixed(GenerationFailed)) + [Send(Fixed(GenerationFailed))];
    SendsAppend(RememberIf(hasMemory, "assistant", Fixed(GenerationFailed)), [Send(Fixed(GenerationFailed))]);
    assert Sends(apology) == [Fixed(GenerationFailed)];
    var tail :=
      if o.answer.None? then apology
      else RememberIf(hasMemory, "assistant", Verbatim(o.answer.value)) +
           if o.logged then [Send(Verbatim(o.answer.value))] else apology;
    if o.answer.Some? {
      var next: seq<Effect> := if o.logged then [Send(Verbatim(o.answer.value))] else apology;
      SendsAppend(RememberIf(hasMemory, "assistant", Verbatim(o.answer.value)), next);
    }
    SendsAppend([Answer(handoff)], tail);
    assert GenerationEffects(handoff, hasMemory, o) == [Answer(handoff)] + tail;
  }

  // ---------------------------------------------------------------------------
  // The branch tree both dispatchers share

  /** Which branch a decision's action selects. */
  datatype Branch = DropBranch | ForwardBranch | ReplyBranch | UnknownBranch

  function BranchOf(action: string): Branch {
    if action == "drop" then DropBranch
    else if action == "forward" then ForwardBranch
    else if action == "reply" || action == "default_reply" then ReplyBranch
    else UnknownBranch
  }

  /** Only an action outside the router's vocabulary reaches the unknown branch. */
  lemma UnknownBranchExactly(action: string)
    ensures BranchOf(action) == UnknownBranch <==> !IsRouterAction(action)
  {
  }

  /** The `reply`/`default_reply` branch: a non-empty response text is sent verbatim;
      otherwise a non-empty prompt key hands over to the answer agent (`handoff`);
      otherwise one apology. */
  function ReplyEffects(params: DecisionParams, handoff: seq<Effect>): seq<Effect> {
    if Filled(params.responseText) then [Send(Verbatim(params.responseText.value))]
    else if Filled(params.systemPromptKey) then handoff
    else [Send(Fixed(MissingReplyInfo))]
  }

  /** The effects of carrying out `action` with `params`. */
  function ActionEffects(action: string, params: DecisionParams, forwarded: bool, handoff: seq<Effect>): seq<Effect> {
    match BranchOf(action)
    case DropBranch => []
    case ForwardBranch => ForwardEffects(params, forwarded)
    case ReplyBranch => ReplyEffects(params, handoff)
    case UnknownBranch => [Send(Fixed(UnknownInstruction))]
  }

  /** What each branch does, given a handoff that replies exactly once: drop is silent,
      forward replies at most once and forwards only to a filled destination, a reply
      replies exactly once, with the response text when there is one, and an unknown
      action gets exactly the one fixed apology. */
  lemma ActionOutcome(action: string, params: DecisionParams, forwarded: bool, handoff: seq<Effect>)
    requires |Sends(handoff)| == 1
    ensures var r := ActionEffects(action, params, forwarded, handoff);
      && (BranchOf(action) == DropBranch ==> r == [])
      && (BranchOf(action) == ForwardBranch ==> |Sends(r)| <= 1)
      && (BranchOf(action) == ReplyBranch ==> |Sends(r)| == 1)
      && (BranchOf(action) == ReplyBranch && Filled(params.responseText) ==> r == [Send(Verbatim(params.responseText.value))])
      && (BranchOf(action) == ReplyBranch && !Filled(params.responseText) ==>
            r == if Filled(params.systemPromptKey) then handoff else [Send(Fixed(MissingReplyInfo))])
      && (BranchOf(action) == UnknownBranch ==> r == [Send(Fixed(UnknownInstruction))])
      && (forall i :: 0 <= i < |r| && r[i].ForwardTo? ==> BranchOf(action) == ForwardBranch || r[i] in handoff)
  {
    if BranchOf(action) == ForwardBranch {
      ForwardSends(params, forwarded);
    }
  }

  /** A handoff run (typing indicator, then generation) replies exactly once. */
  lemma HandoffRepliesOnce(handoff: AnswerPrompt.HandoffData, hasMemory: bool, o: Outcomes)
    ensures |Sends([Typing] + GenerationEffects(handoff, hasMemory, o))| == 1
  {
    GenerationSends(handoff, hasMemory, o);
    SendsAppend([Typing], GenerationEffects(handoff, hasMemory, o));
  }

  /** A handoff run never forwards the message. */
  lemma HandoffNeverForwards(handoff: AnswerPrompt.HandoffData, hasMemory: bool, o: Outcomes)
    ensures var r := [Typing] + GenerationEffects(handoff, hasMemory, o);
      forall i :: 0 <= i < |r| ==> !r[i].ForwardTo?
  {
    var apology := RememberIf(hasMemory, "assistant", Fixed(GenerationFailed)) + [Send(Fixed(GenerationFailed))];
    assert forall i :: 0 <= i < |apology| ==> !apology[i].ForwardTo?;
  }
}
