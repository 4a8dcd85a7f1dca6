/** `src/bot/handlers.py`: the text-message handler that is wired into the bot (language
    gate, router run, decision dispatch, answer-agent handoff with retrieved context)
    and the `/reload_rules` administrator command. The language validator, the router
    agent, the decision validator, the retriever and the answer agent are inputs.
    The functions (`TextMessageEffects`, `Routed`, `DispatchDecision`, `HandoffEffects`)
    are the reference; the methods follow the handler's statements and early returns
    and are proved to produce exactly what those functions describe. */
module Handlers {
  import opened Wrappers
  import opened Strings
  import opened RuleModels
  import opened RouterModels
  import opened Dispatch
  import RulesStore
  import AnswerPrompt
  import BotConfig
  import MessageHandler

  /** The language validator's verdict, or its failure. */
  datatype LanguageCheck = ValidatorFailed | Checked(isEnglish: bool, detectedLanguage: Option<string>)

  /** The router agent's run: it raised, or its final output was not text, or text. */
  datatype RouterRun = RunFailed | NonTextOutput | TextOutput(raw: string)

  /** The retriever: not initialised, raised, or returned a context (possibly None). */
  datatype Retrieval = NoRetriever | RetrievalFailed | Retrieved(context: Option<string>)

  const UnknownLanguage := "an unknown language"

  /** The reply to a message that is not in English. */
  function LanguageNotice(detected: Option<string>): Notice {
    NotEnglish(if Filled(detected) then detected.value else UnknownLanguage)
  }

  /** The notice that ends handling before the router runs, if any. */
  function Gate(lang: LanguageCheck, routerReady: bool): Option<Notice> {
    match lang
    case ValidatorFailed => Some(LanguageTrouble)
    case Checked(isEnglish, detected) =>
      if !isEnglish then Some(LanguageNotice(detected))
      else if !routerReady then Some(RoutingUnavailable)
      else None
  }

  /** The context handed to the answer agent: None unless the retriever returned one. */
  function RetrievedContext(r: Retrieval): Option<string> {
    if r.Retrieved? then r.context else None
  }

  /** Each instruction as a "- " line. */
  function DashLines(instructions: seq<string>): (r: seq<string>)
    ensures |r| == |instructions|
  {
    seq(|instructions|, i requires 0 <= i < |instructions| => "- " + instructions[i])
  }

  /** The instruction text: the dash lines joined by line breaks, or "" for none. */
  function DashText(instructions: seq<string>): string {
    if instructions == [] then "" else Join(DashLines(instructions), "\n")
  }

  /** The record handed to the answer agent. */
  function HandoffOf(session: Session, matchedRuleId: Option<string>, params: DecisionParams, retrieval: Retrieval): AnswerPrompt.HandoffData {
    AnswerPrompt.HandoffData(
      session.text, params.systemPromptKey, RetrievedContext(retrieval), session.history,
      DashText(Instructions(MatchedRule(session.rules, matchedRuleId), params.behavioralPrompts)),
      params.behavioralPrompts)
  }

  /** `handle_answer_agent_handoff`. */
  function HandoffEffects(session: Session, matchedRuleId: Option<string>, params: DecisionParams, retrieval: Retrieval, o: Outcomes): seq<Effect> {
    [Typing] + GenerationEffects(HandoffOf(session, matchedRuleId, params, retrieval), session.hasMemory, o)
  }

  /** The branches of `handle_text_message` once a decision is parsed. */
  function DispatchDecision(d: Decision, session: Session, retrieval: Retrieval, o: Outcomes): seq<Effect> {
    ActionEffects(d.action, d.params, o.forwarded, HandoffEffects(session, d.matchedRuleId, d.params, retrieval, o))
  }

  /** `RouterDecision.model_validate_json` as the schema defines it: reading the JSON
      text (`json`, the reader, is an input), then validating the document. The
      handler itself takes the validator as an input, `validate`. */
  function ReadDecision(json: string -> Option<Value>, text: string): (r: Option<Decision>)
    ensures r.Some? ==> IsRouterAction(r.value.action)
  {
    match json(text)
    case None => None
    case Some(doc) => if ParseDecision(doc).Success? then Some(ParseDecision(doc).value) else None
  }

  /** `validate` is `model_validate_json` for the decision schema over the reader `json`. */
  ghost predicate SchemaValidator(validate: string -> Option<Decision>, json: string -> Option<Value>) {
    forall t :: validate(t) == ReadDecision(json, t)
  }

  /** A decision read from the router's output is carried out; output that does not
      read as a decision gets one fixed apology. */
  function DecisionOutcome(decision: Option<Decision>, session: Session, retrieval: Retrieval, o: Outcomes): seq<Effect> {
    if decision.None? then [Send(Fixed(UnexpectedError))] else DispatchDecision(decision.value, session, retrieval, o)
  }

  /** From the router run to the effects: a failed run or an unreadable output gets
      one fixed apology. */
  function Routed(session: Session, run: RouterRun, validate: string -> Option<Decision>, retrieval: Retrieval, o: Outcomes): seq<Effect> {
    if run.RunFailed? then [Send(Fixed(UnexpectedError))]
    else if run.NonTextOutput? then [Send(Fixed(UnexpectedResponse))]
    else DecisionOutcome(validate(CleanRouterOutput(run.raw)), session, retrieval, o)
  }

  /** All effects of `handle_text_message`: the user's message is remembered first. */
  function TextMessageEffects(session: Session, lang: LanguageCheck, routerReady: bool, run: RouterRun,
                              validate: string -> Option<Decision>, retrieval: Retrieval, o: Outcomes): seq<Effect> {
    RememberIf(session.hasMemory, "user", Verbatim(session.text)) +
    (if Gate(lang, routerReady).Some? then [Send(Fixed(Gate(lang, routerReady).value))]
     else Routed(session, run, validate, retrieval, o))
  }

  /** The stepwise clean-up of the router's output: strip, drop a leading "```json",
      drop a trailing "```", strip. */
  method StripFences(raw: string) returns (s: string)
    ensures s == CleanRouterOutput(raw)
  {
    s := Strip(raw);
    if StartsWith(s, "```json") {
      s := s[7..];
    }
    if EndsWith(s, "```") {
      s := s[..|s| - 3];
    }
    s := Strip(s);
  }

  /** `handle_answer_agent_handoff`: the instruction list is built by appending the
      rule's instruction and extending with the behavioral prompts. */
  method HandleAnswerAgentHandoff(session: Session, matchedRuleId: Option<string>, params: DecisionParams,
                                  retrieval: Retrieval, o: Outcomes)
    returns (effects: seq<Effect>)
    ensures effects == HandoffEffects(session, matchedRuleId, params, retrieval, o)
  {
    var context: Option<string> := None;
    if retrieval.Retrieved? {
      context := retrieval.context;
    }
    var rule := MatchedRule(session.rules, matchedRuleId);
    var instructions: seq<string> := [];
    if rule.Some? && Filled(rule.value.instruction) {
      instructions := instructions + [rule.value.instruction.value];
    }
    if HasItems(params.behavioralPrompts) {
      instructions := instructions + params.behavioralPrompts.value;
    }
    assert instructions == Instructions(rule, params.behavioralPrompts);
    var text := if instructions != [] then Join(DashLines(instructions), "\n") else "";
    var handoff := AnswerPrompt.HandoffData(session.text, params.systemPromptKey, context, session.history,
                                            text, params.behavioralPrompts);
    effects := [Typing] + GenerationEffects(handoff, session.hasMemory, o);
  }

  /** `handle_text_message`, as a ladder of early returns. */
  method HandleTextMessage(session: Session, lang: LanguageCheck, routerReady: bool, run: RouterRun,
                           validate: string -> Option<Decision>, retrieval: Retrieval, o: Outcomes)
    returns (effects: seq<Effect>)
    ensures effects == TextMessageEffects(session, lang, routerReady, run, validate, retrieval, o)
  {
    effects := [];
    if session.hasMemory {
      effects := effects + [Remember("user", Verbatim(session.text))];
    }
    assert effects == RememberIf(session.hasMemory, "user", Verbatim(session.text));
    if lang.ValidatorFailed? {
      return effects + [Send(Fixed(LanguageTrouble))];
    }
    if !lang.isEnglish {
      return effects + [Send(Fixed(LanguageNotice(lang.detectedLanguage)))];
    }
    if !routerReady {
      return effects + [Send(Fixed(RoutingUnavailable))];
    }
    if run.RunFailed? {
      return effects + [Send(Fixed(UnexpectedError))];
    }
    if run.NonTextOutput? {
      return effects + [Send(Fixed(UnexpectedResponse))];
    }
    var tail := RouteOutput(session, run.raw, validate, retrieval, o);
    return effects + tail;
  }

  /** The part of `handle_text_message` after a text output was received. */
  method RouteOutput(session: Session, raw: string, validate: string -> Option<Decision>, retrieval: Retrieval, o: Outcomes)
    returns (effects: seq<Effect>)
    ensures effects == DecisionOutcome(validate(CleanRouterOutput(raw)), session, retrieval, o)
  {
    var cleaned := StripFences(raw);
    var decision := validate(cleaned);
    if decision.None? {
      effects := [Send(Fixed(UnexpectedError))];
    } else {
      effects := CarryOut(decision.value, session, retrieval, o);
    }
  }

  /** The dispatch branches of `handle_text_message`. */
  method CarryOut(d: Decision, session: Session, retrieval: Retrieval, o: Outcomes) returns (effects: seq<Effect>)
    ensures effects == DispatchDecision(d, session, retrieval, o)
  {
    if d.action == "drop" {
      effects := [];
    } else if d.action == "forward" {
      effects := ForwardEffects(d.params, o.forwarded);
    } else if d.action == "reply" || d.action == "default_reply" {
      if Filled(d.params.responseText) {
        effects := [Send(Verbatim(d.params.responseText.value))];
      } else if Filled(d.params.systemPromptKey) {
        effects := HandleAnswerAgentHandoff(session, d.matchedRuleId, d.params, retrieval, o);
      } else {
        effects := [Send(Fixed(MissingReplyInfo))];
      }
    } else {
      effects := [Send(Fixed(UnknownInstruction))];
    }
  }

  // ---------------------------------------------------------------------------
  // Properties of message handling

  /** A message stopped at the gate gets exactly the gate's reply: it is not routed,
      forwarded or answered. */
  lemma GateStopsRouting(session: Session, lang: LanguageCheck, routerReady: bool, run: RouterRun,
                         validate: string -> Option<Decision>, retrieval: Retrieval, o: Outcomes)
    requires Gate(lang, routerReady).Some?
    ensures var r := TextMessageEffects(session, lang, routerReady, run, validate, retrieval, o);
      && Sends(r) == [Fixed(Gate(lang, routerReady).value)]
      && forall i :: 0 <= i < |r| ==> !r[i].ForwardTo? && !r[i].Answer?
  {
    SendsAppend(RememberIf(session.hasMemory, "user", Verbatim(session.text)), [Send(Fixed(Gate(lang, routerReady).value))]);
  }

  /** A non-English message is answered with the notice naming the detected language,
      or "an unknown language" when none was detected; a validator failure gets the
      fixed apology. Both take precedence over an unavailable router. */
  lemma LanguageGate(lang: LanguageCheck, routerReady: bool)
    ensures lang.ValidatorFailed? ==> Gate(lang, routerReady) == Some(LanguageTrouble)
    ensures lang.Checked? && !lang.isEnglish && Filled(lang.detectedLanguage) ==>
      Gate(lang, routerReady).Some? &&
      NoticeText(Gate(lang, routerReady).value) == NoticeHead + lang.detectedLanguage.value + NoticeTail
    ensures lang.Checked? && !lang.isEnglish && !Filled(lang.detectedLanguage) ==>
      Gate(lang, routerReady).Some? &&
      NoticeText(Gate(lang, routerReady).value) == NoticeHead + UnknownLanguage + NoticeTail
    ensures Gate(lang, routerReady).None? <==> lang.Checked? && lang.isEnglish && routerReady
  {
  }

  /** The notice names the language: different detected languages give different notices. */
  lemma NoticeNamesLanguage(a: string, b: string)
    requires a != "" && b != ""
    requires NoticeText(LanguageNotice(Some(a))) == NoticeText(LanguageNotice(Some(b)))
    ensures a == b
  {
    FramedEqual(NoticeHead, a, b, NoticeTail);
  }

  /** A fenced JSON decision is dispatched like the bare JSON it wraps. */
  lemma FencedDecisionDispatched(session: Session, lang: LanguageCheck, routerReady: bool, body: string,
                                 validate: string -> Option<Decision>, retrieval: Retrieval, o: Outcomes, d: Decision)
    requires Gate(lang, routerReady).None?
    requires validate(Strip(body)) == Some(d)
    ensures TextMessageEffects(session, lang, routerReady, TextOutput("```json" + body + "```"), validate, retrieval, o) ==
            RememberIf(session.hasMemory, "user", Verbatim(session.text)) + DispatchDecision(d, session, retrieval, o)
  {
    FencedJsonUnwrapped(body);
    OutputDispatched(session, lang, routerReady, "```json" + body + "```", validate, retrieval, o, d);
  }

  /** Router output that reads as a decision, past the gate, is carried out. */
  lemma OutputDispatched(session: Session, lang: LanguageCheck, routerReady: bool, raw: string,
                         validate: string -> Option<Decision>, retrieval: Retrieval, o: Outcomes, d: Decision)
    requires Gate(lang, routerReady).None?
    requires validate(CleanRouterOutput(raw)) == Some(d)
    ensures TextMessageEffects(session, lang, routerReady, TextOutput(raw), validate, retrieval, o) ==
            RememberIf(session.hasMemory, "user", Verbatim(session.text)) + DispatchDecision(d, session, retrieval, o)
  {
  }

  /** Text output is judged only through its cleaned form: two outputs that clean to
      the same text lead to the same effects, and a "```json" fence around a body that
      is not itself fenced leads where the bare, stripped body does. */
  lemma RoutedText(session: Session, a: string, b: string, validate: string -> Option<Decision>, retrieval: Retrieval, o: Outcomes)
    ensures CleanRouterOutput(a) == CleanRouterOutput(b) ==>
      Routed(session, TextOutput(a), validate, retrieval, o) == Routed(session, TextOutput(b), validate, retrieval, o)
    ensures !StartsWith(Strip(b), "```json") && !EndsWith(Strip(b), "```") ==>
      Routed(session, TextOutput("```json" + b + "```"), validate, retrieval, o) ==
      Routed(session, TextOutput(Strip(b)), validate, retrieval, o)
  {
    if CleanRouterOutput(a) == CleanRouterOutput(b) {
      SameCleanOutput(session, a, b, validate, retrieval, o);
    }
    if !StartsWith(Strip(b), "```json") && !EndsWith(Strip(b), "```") {
      FencedJsonUnwrapped(b);
      StripIdempotent(b);
      PlainOutputUnchanged(Strip(b));
      SameCleanOutput(session, "```json" + b + "```", Strip(b), validate, retrieval, o);
    }
  }

  lemma SameCleanOutput(session: Session, a: string, b: string, validate: string -> Option<Decision>, retrieval: Retrieval, o: Outcomes)
    requires CleanRouterOutput(a) == CleanRouterOutput(b)
    ensures Routed(session, TextOutput(a), validate, retrieval, o) == Routed(session, TextOutput(b), validate, retrieval, o)
  {
  }

  /** With the schema's validator, a decision the router wrote out as JSON inside a
      "```json" fence is read back as exactly that decision. */
  lemma FencedDumpReadBack(validate: string -> Option<Decision>, json: string -> Option<Value>, body: string, d: Decision)
    requires SchemaValidator(validate, json)
    requires IsRouterAction(d.action)
    requires json(Strip(body)) == Some(DumpDecision(d))
    ensures validate(CleanRouterOutput("```json" + body + "```")) == Some(d)
  {
    FencedJsonUnwrapped(body);
    DecisionRoundTrip(d);
    assert validate(Strip(body)) == ReadDecision(json, Strip(body));
  }

  /** With the schema's validator, only router actions reach the dispatch branches:
      the "unknown instruction" apology is never sent for a validated decision. */
  lemma ValidatedActionKnown(validate: string -> Option<Decision>, json: string -> Option<Value>, text: string)
    requires SchemaValidator(validate, json)
    requires validate(text).Some?
    ensures BranchOf(validate(text).value.action) != UnknownBranch
  {
    assert validate(text) == ReadDecision(json, text);
    UnknownBranchExactly(validate(text).value.action);
  }

  /** A missing or failing retriever leaves the context None and the reply goes on:
      the answer agent still runs and exactly one reply is sent. */
  lemma RetrievalFailureContinues(session: Session, matchedRuleId: Option<string>, params: DecisionParams,
                                  retrieval: Retrieval, o: Outcomes)
    requires !retrieval.Retrieved?
    ensures var r := HandoffEffects(session, matchedRuleId, params, retrieval, o);
      && r[1] == Answer(HandoffOf(session, matchedRuleId, params, Retrieved(None)))
      && r[1].handoff.context.None?
      && |Sends(r)| == 1
  {
    HandoffRepliesOnce(HandoffOf(session, matchedRuleId, params, retrieval), session.hasMemory, o);
  }

  /** Whatever the collaborators report, a text message gets at most one reply, and a
      decision that is carried out gets exactly one unless it is a drop or a forward. */
  lemma AtMostOneReply(session: Session, lang: LanguageCheck, routerReady: bool, run: RouterRun,
                       validate: string -> Option<Decision>, retrieval: Retrieval, o: Outcomes)
    ensures |Sends(TextMessageEffects(session, lang, routerReady, run, validate, retrieval, o))| <= 1
  {
    var remember := RememberIf(session.hasMemory, "user", Verbatim(session.text));
    var rest := if Gate(lang, routerReady).Some? then [Send(Fixed(Gate(lang, routerReady).value))]
      else Routed(session, run, validate, retrieval, o);
    SendsAppend(remember, rest);
    if Gate(lang, routerReady).None? {
      RoutedRepliesAtMostOnce(session, run, validate, retrieval, o);
    }
  }

  lemma RoutedRepliesAtMostOnce(session: Session, run: RouterRun, validate: string -> Option<Decision>,
                                retrieval: Retrieval, o: Outcomes)
    ensures |Sends(Routed(session, run, validate, retrieval, o))| <= 1
  {
    if run.TextOutput? {
      var decision := validate(CleanRouterOutput(run.raw));
      if decision.Some? {
        DispatchRepliesAtMostOnce(decision.value, session, retrieval, o);
      }
    }
  }

  lemma DispatchRepliesAtMostOnce(d: Decision, session: Session, retrieval: Retrieval, o: Outcomes)
    ensures |Sends(DispatchDecision(d, session, retrieval, o))| <= 1
  {
    HandoffRepliesOnce(HandoffOf(session, d.matchedRuleId, d.params, retrieval), session.hasMemory, o);
    ActionOutcome(d.action, d.params, o.forwarded, HandoffEffects(session, d.matchedRuleId, d.params, retrieval, o));
  }

  /** The instruction text is empty exactly when there are no instructions; otherwise
      it splits into one "- " line per instruction, in order, when no instruction
      contains a line break. */
  lemma DashTextLines(instructions: seq<string>)
    ensures DashText(instructions) == "" <==> instructions == []
    ensures instructions != [] && (forall i :: 0 <= i < |instructions| ==> '\n' !in instructions[i]) ==>
      Split(DashText(instructions), '\n') == DashLines(instructions)
  {
    if instructions != [] {
      var lines := DashLines(instructions);
      JoinStartsWithFirst(lines, "\n");
      assert |lines[0]| >= 2;
      if forall i :: 0 <= i < |instructions| ==> '\n' !in instructions[i] {
        forall i | 0 <= i < |lines| ensures '\n' !in lines[i] {
          assert lines[i] == "- " + instructions[i];
        }
        SplitJoin(lines, '\n');
      }
    }
  }

  /** Each line of the instruction text is "- " followed by the instruction it renders. */
  lemma DashLineContents(instructions: seq<string>, i: nat)
    requires i < |instructions|
    ensures StartsWith(DashLines(instructions)[i], "- ")
    ensures RemovePrefix(DashLines(instructions)[i], "- ") == instructions[i]
  {
    PrefixStartsWith("- ", instructions[i]);
  }

  /** Outside the answer-agent handoff this handler does what `execute_router_decision`
      does for a decision that matched a rule; the handoffs differ only in the context
      and the rendering of the instructions. */
  lemma AgreesWithMessageHandler(d: Decision, replyOnNoMatch: bool, session: Session, retrieval: Retrieval, o: Outcomes)
    requires d.matchedRuleId.Some?
    ensures BranchOf(d.action) != ReplyBranch || Filled(d.params.responseText) || !Filled(d.params.systemPromptKey) ==>
      DispatchDecision(d, session, retrieval, o) == MessageHandler.DecisionEffects(d, replyOnNoMatch, session, o)
    ensures HandoffOf(session, d.matchedRuleId, d.params, retrieval) ==
      MessageHandler.HandoffOf(session, d.matchedRuleId, d.params).(
        context := RetrievedContext(retrieval),
        instruction := DashText(Instructions(MatchedRule(session.rules, d.matchedRuleId), d.params.behavioralPrompts)))
  {
  }

  // ---------------------------------------------------------------------------
  // The /reload_rules command

  const NotConfigured := "Команда не настроена: список администраторов не определен."
  const NotAuthorised := "У вас нет прав для выполнения этой команды."
  const ManagerUnavailable := "Ошибка: Сервис управления правилами недоступен. Невозможно перезагрузить правила."
  const ReloadFailed := "Ошибка при перезагрузке правил. Детали ошибки залогированы. Были восстановлены предыдущие правила."
  const ReloadedHead := "Правила успешно перезагружены. Теперь управляется "
  const ReloadedTail := " правилами."

  /** The refusal, if any, checked in order: no administrators configured, caller not
      an administrator, no rule manager. */
  function Refusal(adminIds: seq<int>, userId: int, hasManager: bool): Option<string> {
    if adminIds == [] then Some(NotConfigured)
    else if userId !in adminIds then Some(NotAuthorised)
    else if !hasManager then Some(ManagerUnavailable)
    else None
  }

  /** The reply after a reload: the new rule count, or the restore notice. */
  function ReloadReply(count: Option<nat>): string {
    if count.Some? then ReloadedHead + IntToString(count.value) + ReloadedTail else ReloadFailed
  }

  /** `reload_rules_command`: a refused command does not reload; otherwise the rules
      are reloaded and the reply reports the outcome. */
  method ReloadRulesCommand(adminRaw: Option<string>, userId: int, manager: RulesStore.RulesManager?, src: RulesStore.Source)
    returns (reply: string)
    requires manager != null ==> manager.Valid()
    modifies manager
    ensures var refusal := Refusal(BotConfig.ParseAdminIds(adminRaw), userId, manager != null);
      refusal.Some? ==> reply == refusal.value && (manager != null ==> manager.rules == old(manager.rules))
    ensures Refusal(BotConfig.ParseAdminIds(adminRaw), userId, manager != null).None? ==>
      var loaded := RulesStore.Load(manager.rulesFilePath, src);
      && manager.rules == (if loaded.Success? then loaded.value else old(manager.rules))
      && reply == ReloadReply(if loaded.Success? then Some(|loaded.value|) else None)
    ensures manager != null ==> manager.Valid()
  {
    var adminIds := BotConfig.ParseAdminIds(adminRaw);
    if adminIds == [] {
      return NotConfigured;
    }
    if userId !in adminIds {
      return NotAuthorised;
    }
    if manager == null {
      return ManagerUnavailable;
    }
    var ok := manager.ReloadRules(src);
    if ok {
      reply := ReloadReply(Some(|manager.GetRules()|));
    } else {
      reply := ReloadReply(None);
    }
  }

  /** Only a configured administrator with a rule manager gets past the refusals, and
      the first failing check decides the refusal. */
  lemma RefusalLadder(adminIds: seq<int>, userId: int, hasManager: bool)
    ensures Refusal(adminIds, userId, hasManager).None? <==> adminIds != [] && userId in adminIds && hasManager
    ensures adminIds != [] && userId !in adminIds ==> Refusal(adminIds, userId, hasManager) == Some(NotAuthorised)
    ensures adminIds == [] ==> Refusal(adminIds, userId, hasManager) == Some(NotConfigured)
  {
  }

  /** An administrator list with a segment that is not an integer is empty, so the
      command answers "not configured" to everyone. */
  lemma BadAdminListRefusesEveryone(raw: string, i: nat, userId: int, hasManager: bool)
    requires i < |Split(raw, ',')|
    requires Strip(Split(raw, ',')[i]) != "" && ParseInt(Strip(Split(raw, ',')[i])).None?
    ensures Refusal(BotConfig.ParseAdminIds(Some(raw)), userId, hasManager) == Some(NotConfigured)
  {
    BotConfig.BadSegmentEmptiesList(raw, i);
  }

  /** The success reply states the rule count: different counts give different replies. */
  lemma ReloadReplyReportsCount(a: nat, b: nat)
    requires ReloadReply(Some(a)) == ReloadReply(Some(b))
    ensures a == b
  {
    FramedEqual(ReloadedHead, IntToString(a), IntToString(b), ReloadedTail);
    ParseIntToString(a);
    ParseIntToString(b);
  }
}
