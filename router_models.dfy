/** `src/bot_agents/models.py`: the decision the router returns. The parameter
    object (`RouterDecisionParams`) and the `behavioral_rule_ids` list are used by
    the dispatchers but not declared in that file; they are modelled with the fields
    the dispatchers read. */
module RouterModels {
  import opened Wrappers
  import opened RuleModels

  /** `RouterActionType`: the rule actions plus `default_reply`. */
  const RouterActions: set<string> := {"reply", "forward", "drop", "default_reply"}

  predicate IsRouterAction(action: string) {
    action in RouterActions
  }

  /** The parameters a decision carries to the dispatcher. */
  datatype DecisionParams = DecisionParams(
    responseText: Option<string>,
    systemPromptKey: Option<string>,
    behavioralPrompts: Option<seq<string>>,
    destinationChatId: Option<string>)

  const EmptyParams := DecisionParams(None, None, None, None)

  /** `RouterDecision`. The action is kept as text so that a dispatcher's branch for
      an unknown action can be stated. */
  datatype Decision = Decision(
    action: string,
    matchedRuleId: Option<string>,
    behavioralRuleIds: seq<string>,
    params: DecisionParams)

  datatype DecisionError = NotAnObject | InvalidAction | InvalidField(field: string)

  function OptionalText(d: map<string, Value>, key: string): Result<Option<string>, DecisionError> {
    match OptionalString(d, key)
    case Success(s) => Success(s)
    case Failure(_) => Failure(InvalidField(key))
  }

  /** `Optional[List[str]]`. */
  function OptionalTexts(d: map<string, Value>, key: string): Result<Option<seq<string>>, DecisionError> {
    match Get(d, key)
    case Null => Success(None)
    case List(items) =>
      (match Strings(items)
       case Some(ss) => Success(Some(ss))
       case None => Failure(InvalidField(key)))
    case _ => Failure(InvalidField(key))
  }

  /** The params object; absent (here `Null`, as `Get` reports a missing key) means
      empty, extra keys are ignored. An explicit `null` is refused by `ParseDecision`. */
  function ParseParams(v: Value): Result<DecisionParams, DecisionError> {
    match v
    case Null => Success(EmptyParams)
    case Dict(d) =>
      (match (OptionalText(d, "response_text"), OptionalText(d, "system_prompt_key"),
              OptionalTexts(d, "behavioral_prompts"), OptionalText(d, "destination_chat_id"))
       case (Success(t), Success(k), Success(p), Success(dest)) => Success(DecisionParams(t, k, p, dest))
       case _ => Failure(InvalidField("params")))
    case _ => Failure(InvalidField("params"))
  }

  /** `RouterDecision.model_validate` on the parsed JSON document. */
  function ParseDecision(v: Value): (r: Result<Decision, DecisionError>)
    ensures r.Success? ==> IsRouterAction(r.value.action)
    ensures r.Success? ==> v.Dict? && Get(v.fields, "action") == Str(r.value.action)
    ensures v.Dict? && !(Get(v.fields, "action").Str? && IsRouterAction(Get(v.fields, "action").s)) ==> r == Failure(InvalidAction)
  {
    match v
    case Dict(d) =>
      var action := Get(d, "action");
      if !(action.Str? && IsRouterAction(action.s)) then Failure(InvalidAction)
      else
        var ids: Result<seq<string>, DecisionError> :=
          match Get(d, "behavioral_rule_ids")
          case Null => if "behavioral_rule_ids" in d then Failure(InvalidField("behavioral_rule_ids")) else Success([])
          case List(items) =>
            (match Strings(items)
             case Some(ss) => Success(ss)
             case None => Failure(InvalidField("behavioral_rule_ids")))
          case _ => Failure(InvalidField("behavioral_rule_ids"));
        var params: Result<DecisionParams, DecisionError> :=
          if "params" in d && d["params"] == Null then Failure(InvalidField("params"))
          else ParseParams(Get(d, "params"));
        (match (OptionalText(d, "matched_rule_id"), ids, params)
         case (Success(matched), Success(ruleIds), Success(params)) =>
           Success(Decision(action.s, matched, ruleIds, params))
         case (Failure(e), _, _) => Failure(e)
         case (_, Failure(e), _) => Failure(e)
         case (_, _, Failure(e)) => Failure(e))
    case _ => Failure(NotAnObject)
  }

  function OptionalNode(s: Option<string>): Value {
    if s.Some? then Str(s.value) else Null
  }

  /** The parameters as JSON, absent fields omitted. */
  function DumpDecisionParams(p: DecisionParams): Value {
    var withText := if p.responseText.Some? then map["response_text" := Str(p.responseText.value)] else map[];
    var withKey := if p.systemPromptKey.Some? then withText["system_prompt_key" := Str(p.systemPromptKey.value)] else withText;
    var withPrompts := if p.behavioralPrompts.Some? then withKey["behavioral_prompts" := List(StringNodes(p.behavioralPrompts.value))] else withKey;
    Dict(if p.destinationChatId.Some? then withPrompts["destination_chat_id" := Str(p.destinationChatId.value)] else withPrompts)
  }

  /** The decision as JSON. */
  function DumpDecision(d: Decision): Value {
    Dict(map["action" := Str(d.action),
             "matched_rule_id" := OptionalNode(d.matchedRuleId),
             "behavioral_rule_ids" := List(StringNodes(d.behavioralRuleIds)),
             "params" := DumpDecisionParams(d.params)])
  }

  lemma DecisionParamsRoundTrip(p: DecisionParams)
    ensures ParseParams(DumpDecisionParams(p)) == Success(p)
  {
    var fields := DumpDecisionParams(p).fields;
    assert OptionalText(fields, "response_text") == Success(p.responseText);
    assert OptionalText(fields, "system_prompt_key") == Success(p.systemPromptKey);
    assert OptionalText(fields, "destination_chat_id") == Success(p.destinationChatId);
    if p.behavioralPrompts.Some? {
      StringsOfNodes(p.behavioralPrompts.value);
      assert Get(fields, "behavioral_prompts") == List(StringNodes(p.behavioralPrompts.value));
    } else {
      assert Get(fields, "behavioral_prompts") == Null;
    }
  }

  /** Every decision with a router action survives its JSON form unchanged. */
  lemma DecisionRoundTrip(d: Decision)
    requires IsRouterAction(d.action)
    ensures ParseDecision(DumpDecision(d)) == Success(d)
  {
    var fields := DumpDecision(d).fields;
    StringsOfNodes(d.behavioralRuleIds);
    DecisionParamsRoundTrip(d.params);
    assert Get(fields, "params") == DumpDecisionParams(d.params);
    assert Get(fields, "behavioral_rule_ids") == List(StringNodes(d.behavioralRuleIds));
    assert OptionalText(fields, "matched_rule_id") == Success(d.matchedRuleId);
  }

  /** Only `action` is required: the rule id defaults to null, the lists to empty
      and the parameters to an empty object. The two list-or-object fields have
      defaults but are not optional: an explicit `null` for either is refused. */
  lemma DecisionDefaults(action: string)
    requires IsRouterAction(action)
    ensures ParseDecision(Dict(map["action" := Str(action)])) == Success(Decision(action, None, [], EmptyParams))
    ensures ParseDecision(Dict(map["action" := Str(action), "params" := Null])) == Failure(InvalidField("params"))
    ensures ParseDecision(Dict(map["action" := Str(action), "behavioral_rule_ids" := Null]))
         == Failure(InvalidField("behavioral_rule_ids"))
  {
    var d := map["action" := Str(action)];
    assert Get(d, "params") == Null && Get(d, "matched_rule_id") == Null;
    assert Get(d, "behavioral_rule_ids") == Null && "behavioral_rule_ids" !in d;
    var withParams := map["action" := Str(action), "params" := Null];
    assert Get(withParams, "matched_rule_id") == Null && Get(withParams, "behavioral_rule_ids") == Null;
    assert "behavioral_rule_ids" !in withParams && "params" in withParams;
    var withIds := map["action" := Str(action), "behavioral_rule_ids" := Null];
    assert Get(withIds, "matched_rule_id") == Null && "behavioral_rule_ids" in withIds;
  }

  /** The router's actions are exactly the rule actions plus `default_reply`. */
  lemma RouterActionsExtendRuleActions()
    ensures RouterActions == (set a: Action :: ActionName(a)) + {"default_reply"}
    ensures forall a: Action :: ActionName(a) != "default_reply"
  {
    assert ActionName(Reply) == "reply";
    assert ActionName(Forward) == "forward";
    assert ActionName(Drop) == "drop";
    var names := set a: Action :: ActionName(a);
    assert names == {"reply", "forward", "drop"} by {
      forall x | x in names ensures x in {"reply", "forward", "drop"} {
        var a :| ActionName(a) == x;
        match a { case Reply => case Forward => case Drop => }
      }
    }
  }
}
