/** `src/bot/message_handler.py`: carrying out a router decision, with the policy for
    decisions that matched no terminal rule (`REPLY_ON_NO_MATCH`, a configuration
    flag the repository reads but never defines, is a parameter, so the intended
    policy is modelled rather than the failure of that read). The functions
    (`DecisionEffects`, `HandoffEffects`) are the reference; the methods follow the
    source's statements and early returns and are proved to match them. */
module MessageHandler {
  import opened Wrappers
  import opened Strings
  import opened RouterModels
  import opened Dispatch
  import RuleModels
  import RulesStore
  import AnswerPrompt
  import Prompts

  /** The instruction text of a handoff: the instructions joined by line breaks. */
  function InstructionText(session: Session, matchedRuleId: Option<string>, params: DecisionParams): string {
    Join(Instructions(MatchedRule(session.rules, matchedRuleId), params.behavioralPrompts), "\n")
  }

  /** The record handed to the answer agent; this dispatcher sets no retrieved context. */
  function HandoffOf(session: Session, matchedRuleId: Option<string>, params: DecisionParams): AnswerPrompt.HandoffData {
    AnswerPrompt.HandoffData(session.text, params.systemPromptKey, None, session.history,
                             InstructionText(session, matchedRuleId, params), params.behavioralPrompts)
  }

  /** `handle_answer_agent_handoff`: typing indicator, then generation. */
  function HandoffEffects(session: Session, matchedRuleId: Option<string>, params: DecisionParams, o: Outcomes): seq<Effect> {
    [Typing] + GenerationEffects(HandoffOf(session, matchedRuleId, params), session.hasMemory, o)
  }

  /** The decision actually carried out: none when nothing matched and the flag is off;
      when nothing matched and the flag is on, a `default_reply` whose prompt key is
      "default_prompt" unless one was already given. */
  function NoMatchPolicy(d: Decision, replyOnNoMatch: bool): Option<Decision> {
    if d.matchedRuleId.Some? then Some(d)
    else if !replyOnNoMatch then None
    else
      var key := if Filled(d.params.systemPromptKey) then d.params.systemPromptKey else Some(Prompts.DefaultKey);
      Some(d.(action := "default_reply", params := d.params.(systemPromptKey := key)))
  }

  /** All effects of `execute_router_decision`. */
  function DecisionEffects(d: Decision, replyOnNoMatch: bool, session: Session, o: Outcomes): seq<Effect> {
    match NoMatchPolicy(d, replyOnNoMatch)
    case None => []
    case Some(e) => ActionEffects(e.action, e.params, o.forwarded, HandoffEffects(session, e.matchedRuleId, e.params, o))
  }

  /** `handle_reply_action`. */
  method HandleReplyAction(session: Session, matchedRuleId: Option<string>, params: DecisionParams, o: Outcomes)
    returns (effects: seq<Effect>)
    ensures effects == ReplyEffects(params, HandoffEffects(session, matchedRuleId, params, o))
  {
    if Filled(params.responseText) {
      return [Send(Verbatim(params.responseText.value))];
    }
    if Filled(params.systemPromptKey) {
      var rule := MatchedRule(session.rules, matchedRuleId);
      var instructions: seq<string> := [];
      if rule.Some? && Filled(rule.value.instruction) {
        instructions := instructions + [rule.value.instruction.value];
      }
      if HasItems(params.behavioralPrompts) {
        instructions := instructions + params.behavioralPrompts.value;
      }
      var handoff := AnswerPrompt.HandoffData(session.text, params.systemPromptKey, None, session.history,
                                              Join(instructions, "\n"), params.behavioralPrompts);
      return [Typing] + GenerationEffects(handoff, session.hasMemory, o);
    }
    return [Send(Fixed(MissingReplyInfo))];
  }

  /** `execute_router_decision`: the action is reassigned and the prompt key filled in
      on a local copy of the parameters, then the branch is taken. */
  method ExecuteRouterDecision(d: Decision, replyOnNoMatch: bool, session: Session, o: Outcomes)
    returns (effects: seq<Effect>)
    ensures effects == DecisionEffects(d, replyOnNoMatch, session, o)
  {
    var action := d.action;
    var params := d.params;
    if d.matchedRuleId.None? {
      if !replyOnNoMatch {
        return [];
      }
      action := "default_reply";
      if !Filled(params.systemPromptKey) {
        params := params.(systemPromptKey := Some(Prompts.DefaultKey));
      }
    }
    if action == "drop" {
      effects := [];
    } else if action == "forward" {
      effects := ForwardEffects(params, o.forwarded);
    } else if action == "reply" || action == "default_reply" {
      effects := HandleReplyAction(session, d.matchedRuleId, params, o);
    } else {
      effects := [Send(Fixed(UnknownInstruction))];
    }
  }

  // ---------------------------------------------------------------------------
  // Properties

  /** With no terminal match and the flag off nothing happens, whatever the action. */
  lemma NoMatchSilentWithoutFlag(d: Decision, session: Session, o: Outcomes)
    requires d.matchedRuleId.None?
    ensures DecisionEffects(d, false, session, o) == []
  {
  }

  /** With no terminal match and the flag on the message is answered once, never with
      the "required information" apology: by the response text if one is given,
      otherwise by the answer agent under the given prompt key, or "default_prompt"
      when the key is empty. */
  lemma NoMatchDefaultReply(d: Decision, session: Session, o: Outcomes)
    requires d.matchedRuleId.None?
    ensures var r := DecisionEffects(d, true, session, o);
      && |Sends(r)| == 1
      && (Filled(d.params.responseText) ==> r == [Send(Verbatim(d.params.responseText.value))])
      && (!Filled(d.params.responseText) ==>
            |r| >= 2 && r[0] == Typing && r[1].Answer? &&
            r[1].handoff.systemPromptKey ==
              (if Filled(d.params.systemPromptKey) then d.params.systemPromptKey else Some(Prompts.DefaultKey)))
  {
    var e := NoMatchPolicy(d, true).value;
    assert BranchOf(e.action) == ReplyBranch;
    HandoffRepliesOnce(HandoffOf(session, None, e.params), session.hasMemory, o);
    ActionOutcome(e.action, e.params, o.forwarded, HandoffEffects(session, None, e.params, o));
  }

  /** With a terminal match the decision is carried out as given: drop is silent, an
      unknown action gets the one fixed apology, a reply replies exactly once and a
      forward at most once. */
  lemma MatchedDecisionOutcome(d: Decision, replyOnNoMatch: bool, session: Session, o: Outcomes)
    requires d.matchedRuleId.Some?
    ensures var r := DecisionEffects(d, replyOnNoMatch, session, o);
      && (d.action == "drop" ==> r == [])
      && (!IsRouterAction(d.action) ==> r == [Send(Fixed(UnknownInstruction))])
      && (d.action in {"reply", "default_reply"} ==> |Sends(r)| == 1)
      && (d.action in {"reply", "default_reply"} && Filled(d.params.responseText) ==> r == [Send(Verbatim(d.params.responseText.value))])
      && (d.action == "forward" ==> r == ForwardEffects(d.params, o.forwarded))
  {
    UnknownBranchExactly(d.action);
    HandoffRepliesOnce(HandoffOf(session, d.matchedRuleId, d.params), session.hasMemory, o);
    ActionOutcome(d.action, d.params, o.forwarded, HandoffEffects(session, d.matchedRuleId, d.params, o));
  }

  /** Whatever the decision, at most one reply is sent. */
  lemma AtMostOneReply(d: Decision, replyOnNoMatch: bool, session: Session, o: Outcomes)
    ensures |Sends(DecisionEffects(d, replyOnNoMatch, session, o))| <= 1
  {
    match NoMatchPolicy(d, replyOnNoMatch)
    case None =>
    case Some(e) =>
      HandoffRepliesOnce(HandoffOf(session, e.matchedRuleId, e.params), session.hasMemory, o);
      ActionOutcome(e.action, e.params, o.forwarded, HandoffEffects(session, e.matchedRuleId, e.params, o));
  }

  /** The instruction text splits back, line by line, into the rule's instruction and
      the behavioral prompts, when none of them contains a line break; with neither it
      is empty. */
  lemma InstructionLines(session: Session, matchedRuleId: Option<string>, params: DecisionParams)
    ensures var parts := Instructions(MatchedRule(session.rules, matchedRuleId), params.behavioralPrompts);
      && (parts == [] ==> InstructionText(session, matchedRuleId, params) == "")
      && (parts != [] && (forall i :: 0 <= i < |parts| ==> '\n' !in parts[i]) ==>
            Split(InstructionText(session, matchedRuleId, params), '\n') == parts)
  {
    var parts := Instructions(MatchedRule(session.rules, matchedRuleId), params.behavioralPrompts);
    if parts != [] && (forall i :: 0 <= i < |parts| ==> '\n' !in parts[i]) {
      SplitJoin(parts, '\n');
    }
  }

  /** A failed generation sends only the fixed apology and, with memory attached,
      records it as the assistant's last entry. */
  lemma GenerationFailureApology(d: Decision, replyOnNoMatch: bool, session: Session, o: Outcomes)
    requires NoMatchPolicy(d, replyOnNoMatch).Some?
    requires var e := NoMatchPolicy(d, replyOnNoMatch).value;
      BranchOf(e.action) == ReplyBranch && !Filled(e.params.responseText) && Filled(e.params.systemPromptKey)
    requires o.answer.None? || !o.logged
    ensures var r := DecisionEffects(d, replyOnNoMatch, session, o);
      && Sends(r) == [Fixed(GenerationFailed)]
      && (session.hasMemory ==> |r| >= 2 && r[|r| - 2] == Remember("assistant", Fixed(GenerationFailed)))
  {
    var e := NoMatchPolicy(d, replyOnNoMatch).value;
    var h := HandoffOf(session, e.matchedRuleId, e.params);
    var g := GenerationEffects(h, session.hasMemory, o);
    DecisionHandsOff(d, replyOnNoMatch, session, o);
    GenerationSends(h, session.hasMemory, o);
    SendsAppend([Typing], g);
    assert ([Typing] + g)[|g| - 1] == g[|g| - 2];
  }

  /** A reply decision without response text but with a prompt key is a handoff. */
  lemma DecisionHandsOff(d: Decision, replyOnNoMatch: bool, session: Session, o: Outcomes)
    requires NoMatchPolicy(d, replyOnNoMatch).Some?
    requires var e := NoMatchPolicy(d, replyOnNoMatch).value;
      BranchOf(e.action) == ReplyBranch && !Filled(e.params.responseText) && Filled(e.params.systemPromptKey)
    ensures var e := NoMatchPolicy(d, replyOnNoMatch).value;
      DecisionEffects(d, replyOnNoMatch, session, o) ==
        [Typing] + GenerationEffects(HandoffOf(session, e.matchedRuleId, e.params), session.hasMemory, o)
  {
  }
}
