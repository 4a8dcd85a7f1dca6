/** The rule data model of `src/rules_manager/models.py` and its load-time
    validation. A rule arrives as an already-parsed YAML node (`Value`); `ParseRule`
    plays the part of `Rule(**data)` (the `_init_action_params` before-validator,
    then field validation with unknown fields forbidden), and `DumpRule` plays the
    part of `model_dump(exclude_none=True)`. */
module RuleModels {
  import opened Wrappers

  /** A parsed YAML node. */
  datatype Value =
    | Null
    | Bool(b: bool)
    | Int(i: int)
    | Str(s: string)
    | List(items: seq<Value>)
    | Dict(fields: map<string, Value>)

  /** `d.get(key)`: the node under `key`, Null when the key is absent. */
  function Get(d: map<string, Value>, key: string): Value {
    if key in d then d[key] else Null
  }

  /** Python truthiness of a parsed node. */
  predicate Truthy(v: Value) {
    match v
    case Null => false
    case Bool(b) => b
    case Int(i) => i != 0
    case Str(s) => s != ""
    case List(items) => items != []
    case Dict(fields) => fields != map[]
  }

  /** `KeywordMatchType = Literal["any", "all"]`. */
  datatype MatchType = AnyKeyword | AllKeywords

  /** `KeywordMatchCondition | RegexMatchCondition | DescriptionMatchCondition`. */
  datatype Condition =
    | KeywordMatch(keywords: seq<string>, matchType: MatchType, caseSensitive: bool)
    | RegexMatch(pattern: string)
    | DescriptionMatch(description: string)

  /** `ActionType = Literal["reply", "forward", "drop"]`. */
  datatype Action = Reply | Forward | Drop

  /** `ReplyActionParams | ForwardActionParams | DropActionParams`. */
  datatype ActionParams =
    | ReplyParams(responseText: Option<string>, systemPromptKey: Option<string>,
                  behavioralPrompts: Option<seq<string>>)
    | ForwardParams(destinationChatId: string)
    | DropParams

  datatype Rule = Rule(
    ruleId: string,
    priority: int,
    isBehavioral: bool,
    conditions: seq<Condition>,
    action: Action,
    actionParams: ActionParams,
    instruction: Option<string>)

  /** Why a rule document was rejected (the first problem found). */
  datatype RuleError =
    | RuleNotMapping
    | ParamsNotMapping(action: Value)
    | ReplyParamsEmpty
    | UnknownFields(fields: set<string>)
    | FieldMissing(field: string)
    | FieldType(field: string)
    | EmptyRuleId
    | NoConditions
    | BadCondition(index: nat)
    | UnknownAction

  function ActionName(a: Action): string {
    match a
    case Reply => "reply"
    case Forward => "forward"
    case Drop => "drop"
  }

  /** The `ActionType` literal a node denotes, if any. */
  function ActionOf(v: Value): (r: Option<Action>)
    ensures r.Some? ==> v == Str(ActionName(r.value))
    ensures forall a: Action :: v == Str(ActionName(a)) ==> r == Some(a)
  {
    if v == Str("reply") then Some(Reply)
    else if v == Str("forward") then Some(Forward)
    else if v == Str("drop") then Some(Drop)
    else None
  }

  const RuleFields: set<string> :=
    {"rule_id", "priority", "is_behavioral", "conditions", "action", "action_params", "instruction"}

  // ---------------------------------------------------------------------------
  // Validity: the invariants every loaded rule satisfies

  predicate ValidCondition(c: Condition) {
    match c
    case KeywordMatch(keywords, _, _) => |keywords| >= 1
    case RegexMatch(_) => true
    case DescriptionMatch(description) => |description| >= 1
  }

  /** `check_reply_params`: at least one of the three reply parameters is truthy. */
  predicate ReplyComplete(p: ActionParams) {
    p.ReplyParams? &&
    ((p.responseText.Some? && p.responseText.value != "") ||
     (p.systemPromptKey.Some? && p.systemPromptKey.value != "") ||
     (p.behavioralPrompts.Some? && p.behavioralPrompts.value != []))
  }

  /** The parameter variant is the one the action selects. */
  predicate ParamsFitAction(a: Action, p: ActionParams) {
    match a
    case Reply => p.ReplyParams?
    case Forward => p.ForwardParams?
    case Drop => p.DropParams?
  }

  predicate ValidRule(r: Rule) {
    && |r.ruleId| >= 1
    && |r.conditions| >= 1
    && (forall i :: 0 <= i < |r.conditions| ==> ValidCondition(r.conditions[i]))
    && ParamsFitAction(r.action, r.actionParams)
    && (r.action == Reply ==> ReplyComplete(r.actionParams))
  }

  // ---------------------------------------------------------------------------
  // Field decoders

  /** An `Optional[str]` field: absent or null is None. */
  function OptionalString(d: map<string, Value>, key: string): Result<Option<string>, RuleError> {
    match Get(d, key)
    case Null => Success(None)
    case Str(s) => Success(Some(s))
    case _ => Failure(FieldType(key))
  }

  /** A `List[str]` node. */
  function Strings(items: seq<Value>): (r: Option<seq<string>>)
    ensures r.Some? ==> |r.value| == |items|
    ensures r.Some? ==> forall i :: 0 <= i < |items| ==> items[i] == Str(r.value[i])
    decreases |items|
  {
    if items == [] then Some([])
    else if !items[0].Str? then None
    else match Strings(items[1..])
      case None => None
      case Some(rest) => Some([items[0].s] + rest)
  }

  function StringNodes(ss: seq<string>): (r: seq<Value>)
    ensures |r| == |ss| && forall i :: 0 <= i < |ss| ==> r[i] == Str(ss[i])
  {
    seq(|ss|, i requires 0 <= i < |ss| => Str(ss[i]))
  }

  lemma {:induction false} StringsOfNodes(ss: seq<string>)
    ensures Strings(StringNodes(ss)) == Some(ss)
    decreases |ss|
  {
    if ss != [] {
      assert StringNodes(ss)[1..] == StringNodes(ss[1..]);
      StringsOfNodes(ss[1..]);
      assert [ss[0]] + ss[1..] == ss;
    }
  }

  /** `ReplyActionParams(**params)`: extra keys are ignored, then `check_reply_params`. */
  function ParseReplyParams(d: map<string, Value>): (r: Result<ActionParams, RuleError>)
    ensures r.Success? ==> ReplyComplete(r.value)
  {
    match OptionalString(d, "response_text")
    case Failure(e) => Failure(e)
    case Success(text) =>
      match OptionalString(d, "system_prompt_key")
      case Failure(e) => Failure(e)
      case Success(key) =>
        var prompts: Result<Option<seq<string>>, RuleError> :=
          match Get(d, "behavioral_prompts")
          case Null => Success(None)
          case List(items) =>
            (match Strings(items)
             case Some(ps) => Success(Some(ps))
             case None => Failure(FieldType("behavioral_prompts")))
          case _ => Failure(FieldType("behavioral_prompts"));
        match prompts
        case Failure(e) => Failure(e)
        case Success(ps) =>
          var p := ReplyParams(text, key, ps);
          if ReplyComplete(p) then Success(p) else Failure(ReplyParamsEmpty)
  }

  /** `ForwardActionParams(**params)`: `destination_chat_id` is a required string,
      possibly empty. */
  function ParseForwardParams(d: map<string, Value>): (r: Result<ActionParams, RuleError>)
    ensures r.Success? ==> Get(d, "destination_chat_id").Str? && r.value == ForwardParams(Get(d, "destination_chat_id").s)
  {
    match Get(d, "destination_chat_id")
    case Str(dest) => Success(ForwardParams(dest))
    case Null => Failure(FieldMissing("destination_chat_id"))
    case _ => Failure(FieldType("destination_chat_id"))
  }

  /** What `_init_action_params` leaves under `action_params`: a typed parameter
      object, or the raw node when the action is absent or not a known literal. */
  datatype PreparedParams = Typed(params: ActionParams) | Untyped(raw: Value)

  /** The before-validator `Rule._init_action_params`. */
  function InitActionParams(d: map<string, Value>): (r: Result<PreparedParams, RuleError>)
    ensures r.Success? && r.value.Typed? ==>
      ActionOf(Get(d, "action")).Some? &&
      ParamsFitAction(ActionOf(Get(d, "action")).value, r.value.params)
  {
    var action := Get(d, "action");
    if action == Null then Success(Untyped(Get(d, "action_params")))
    else
      var params := if Get(d, "action_params") == Null then Dict(map[]) else d["action_params"];
      if !params.Dict? then Failure(ParamsNotMapping(action))
      else match ActionOf(action)
        case Some(Reply) =>
          (match ParseReplyParams(params.fields)
           case Success(p) => Success(Typed(p))
           case Failure(e) => Failure(e))
        case Some(Forward) =>
          (match ParseForwardParams(params.fields)
           case Success(p) => Success(Typed(p))
           case Failure(e) => Failure(e))
        case Some(Drop) => Success(Typed(DropParams))
        case None => Success(Untyped(params))
  }

  // ---------------------------------------------------------------------------
  // Conditions

  function ParseKeywordCondition(d: map<string, Value>): (r: Option<Condition>)
    ensures r.Some? ==> r.value.KeywordMatch? && ValidCondition(r.value)
  {
    match Get(d, "keywords")
    case List(items) =>
      (match Strings(items)
       case Some(keywords) =>
         if |keywords| < 1 then None
         else
           var matchType :=
             if Get(d, "match_type") == Null then Some(AnyKeyword)
             else if Get(d, "match_type") == Str("any") then Some(AnyKeyword)
             else if Get(d, "match_type") == Str("all") then Some(AllKeywords)
             else None;
           var caseSensitive :=
             match Get(d, "case_sensitive")
             case Null => Some(false)
             case Bool(b) => Some(b)
             case _ => None;
           if "match_type" in d && d["match_type"] == Null then None
           else if "case_sensitive" in d && d["case_sensitive"] == Null then None
           else if matchType.None? || caseSensitive.None? then None
           else Some(KeywordMatch(keywords, matchType.value, caseSensitive.value))
       case None => None)
    case _ => None
  }

  function ParseRegexCondition(d: map<string, Value>): (r: Option<Condition>)
    ensures r.Some? ==> r.value.RegexMatch?
  {
    match Get(d, "pattern")
    case Str(p) => Some(RegexMatch(p))
    case _ => None
  }

  function ParseDescriptionCondition(d: map<string, Value>): (r: Option<Condition>)
    ensures r.Some? ==> r.value.DescriptionMatch? && ValidCondition(r.value)
  {
    match Get(d, "description")
    case Str(s) => if |s| >= 1 then Some(DescriptionMatch(s)) else None
    case _ => None
  }

  /** One element of `conditions`: the variant named by `type`, or, when `type` is
      absent, the first variant in declaration order that accepts the node. */
  function ParseCondition(v: Value): (r: Option<Condition>)
    ensures r.Some? ==> ValidCondition(r.value)
  {
    if !v.Dict? then None
    else
      var d := v.fields;
      if "type" in d then
        if d["type"] == Str("keyword_match") then ParseKeywordCondition(d)
        else if d["type"] == Str("regex_match") then ParseRegexCondition(d)
        else if d["type"] == Str("description_match") then ParseDescriptionCondition(d)
        else None
      else if ParseKeywordCondition(d).Some? then ParseKeywordCondition(d)
      else if ParseRegexCondition(d).Some? then ParseRegexCondition(d)
      else ParseDescriptionCondition(d)
  }

  /** The condition list, or the index of the first element that is rejected. */
  function ParseConditions(items: seq<Value>): (r: Result<seq<Condition>, nat>)
    ensures r.Success? ==> |r.value| == |items|
    ensures r.Success? ==> forall i :: 0 <= i < |items| ==> ParseCondition(items[i]) == Some(r.value[i])
    ensures r.Failure? ==> r.error < |items| && ParseCondition(items[r.error]).None?
    ensures r.Failure? ==> forall i :: 0 <= i < r.error ==> ParseCondition(items[i]).Some?
    decreases |items|
  {
    if items == [] then Success([])
    else match ParseCondition(items[0])
      case None => Failure(0)
      case Some(c) =>
        match ParseConditions(items[1..])
        case Success(rest) => Success([c] + rest)
        case Failure(i) => Failure(i + 1)
  }

  // ---------------------------------------------------------------------------
  // Rules

  /** The document fields and the decoded rule say the same thing: each scalar field
      is the rule's, the conditions read as the rule's conditions, and the action
      parameters read as the rule's parameters. */
  predicate Agrees(d: map<string, Value>, r: Rule) {
    && Get(d, "rule_id") == Str(r.ruleId)
    && Get(d, "priority") == Int(r.priority)
    && (if Get(d, "is_behavioral") == Null then !r.isBehavioral else Get(d, "is_behavioral") == Bool(r.isBehavioral))
    && Get(d, "action") == Str(ActionName(r.action))
    && (if Get(d, "instruction") == Null then r.instruction.None? else r.instruction.Some? && Get(d, "instruction") == Str(r.instruction.value))
    && Get(d, "conditions").List?
    && ParseConditions(Get(d, "conditions").items) == Success(r.conditions)
    && InitActionParams(d) == Success(Typed(r.actionParams))
  }

  /** `Rule(**data)`. */
  function ParseRule(v: Value): (r: Result<Rule, RuleError>)
    ensures r.Success? ==> v.Dict? && v.fields.Keys <= RuleFields
    ensures r.Success? ==> ValidRule(r.value) && Agrees(v.fields, r.value)
  {
    if !v.Dict? then Failure(RuleNotMapping)
    else
      var d := v.fields;
      match InitActionParams(d)
      case Failure(e) => Failure(e)
      case Success(prepared) =>
        if !(d.Keys <= RuleFields) then
          Failure(UnknownFields(d.Keys - RuleFields))
        else if "rule_id" !in d then Failure(FieldMissing("rule_id"))
        else if !d["rule_id"].Str? then Failure(FieldType("rule_id"))
        else if d["rule_id"].s == "" then Failure(EmptyRuleId)
        else if "priority" !in d then Failure(FieldMissing("priority"))
        else if !d["priority"].Int? then Failure(FieldType("priority"))
        else if Get(d, "is_behavioral") != Null && !d["is_behavioral"].Bool? then Failure(FieldType("is_behavioral"))
        else if "is_behavioral" in d && d["is_behavioral"] == Null then Failure(FieldType("is_behavioral"))
        else if "conditions" !in d then Failure(FieldMissing("conditions"))
        else if !d["conditions"].List? then Failure(FieldType("conditions"))
        else if d["conditions"].items == [] then Failure(NoConditions)
        else match ParseConditions(d["conditions"].items)
          case Failure(i) => Failure(BadCondition(i))
          case Success(conditions) =>
            if Get(d, "action") == Null then Failure(FieldMissing("action"))
            else match ActionOf(d["action"])
              case None => Failure(UnknownAction)
              case Some(action) =>
                match OptionalString(d, "instruction")
                case Failure(e) => Failure(e)
                case Success(instruction) =>
                  match prepared
                  case Untyped(_) => Failure(UnknownAction)
                  case Typed(params) =>
                    Success(Rule(d["rule_id"].s, d["priority"].i,
                                 if "is_behavioral" in d then d["is_behavioral"].b else false,
                                 conditions, action, params, instruction))
  }

  // ---------------------------------------------------------------------------
  // Serialisation: `model_dump(exclude_none=True)`

  function DumpCondition(c: Condition): Value {
    match c
    case KeywordMatch(keywords, matchType, caseSensitive) =>
      Dict(map["type" := Str("keyword_match"),
               "keywords" := List(StringNodes(keywords)),
               "match_type" := Str(if matchType == AnyKeyword then "any" else "all"),
               "case_sensitive" := Bool(caseSensitive)])
    case RegexMatch(pattern) =>
      Dict(map["type" := Str("regex_match"), "pattern" := Str(pattern)])
    case DescriptionMatch(description) =>
      Dict(map["type" := Str("description_match"), "description" := Str(description)])
  }

  function DumpParams(p: ActionParams): Value {
    match p
    case ReplyParams(text, key, prompts) =>
      var withText := if text.Some? then map["response_text" := Str(text.value)] else map[];
      var withKey := if key.Some? then withText["system_prompt_key" := Str(key.value)] else withText;
      Dict(if prompts.Some? then withKey["behavioral_prompts" := List(StringNodes(prompts.value))] else withKey)
    case ForwardParams(dest) => Dict(map["destination_chat_id" := Str(dest)])
    case DropParams => Dict(map[])
  }

  /** `rule_to_dict_for_prompt`: the rule as the router prompt serialises it. */
  function DumpRule(r: Rule): Value {
    var fields := map["rule_id" := Str(r.ruleId),
                      "priority" := Int(r.priority),
                      "is_behavioral" := Bool(r.isBehavioral),
                      "conditions" := List(DumpConditions(r.conditions)),
                      "action" := Str(ActionName(r.action)),
                      "action_params" := DumpParams(r.actionParams)];
    Dict(if r.instruction.Some? then fields["instruction" := Str(r.instruction.value)] else fields)
  }

  function DumpConditions(cs: seq<Condition>): (r: seq<Value>)
    ensures |r| == |cs| && forall i :: 0 <= i < |cs| ==> r[i] == DumpCondition(cs[i])
  {
    seq(|cs|, i requires 0 <= i < |cs| => DumpCondition(cs[i]))
  }

  // ---------------------------------------------------------------------------
  // Properties of validation

  lemma ConditionRoundTrip(c: Condition)
    requires ValidCondition(c)
    ensures ParseCondition(DumpCondition(c)) == Some(c)
  {
    if c.KeywordMatch? {
      StringsOfNodes(c.keywords);
    }
  }

  lemma {:induction false} ConditionsRoundTrip(cs: seq<Condition>)
    requires forall i :: 0 <= i < |cs| ==> ValidCondition(cs[i])
    ensures ParseConditions(DumpConditions(cs)) == Success(cs)
    decreases |cs|
  {
    var items := DumpConditions(cs);
    if cs != [] {
      ConditionRoundTrip(cs[0]);
      assert items[1..] == DumpConditions(cs[1..]);
      ConditionsRoundTrip(cs[1..]);
      assert [cs[0]] + cs[1..] == cs;
    }
  }

  lemma ParamsRoundTrip(a: Action, p: ActionParams)
    requires ParamsFitAction(a, p)
    requires a == Reply ==> ReplyComplete(p)
    ensures DumpParams(p).Dict?
    ensures InitActionParams(map["action" := Str(ActionName(a)), "action_params" := DumpParams(p)])
            == Success(Typed(p))
  {
    if p.ReplyParams? && p.behavioralPrompts.Some? {
      StringsOfNodes(p.behavioralPrompts.value);
    }
  }

  /** `ParseRule` accepts a mapping whose fields each read as the corresponding
      field of `r`. */
  lemma ParseRuleAccepts(d: map<string, Value>, r: Rule)
    requires d.Keys <= RuleFields
    requires InitActionParams(d) == Success(Typed(r.actionParams))
    requires Get(d, "rule_id") == Str(r.ruleId) && r.ruleId != ""
    requires Get(d, "priority") == Int(r.priority)
    requires Get(d, "is_behavioral") == Bool(r.isBehavioral) || ("is_behavioral" !in d && !r.isBehavioral)
    requires Get(d, "conditions").List? && Get(d, "conditions").items != []
    requires ParseConditions(Get(d, "conditions").items) == Success(r.conditions)
    requires ActionOf(Get(d, "action")) == Some(r.action)
    requires OptionalString(d, "instruction") == Success(r.instruction)
    ensures ParseRule(Dict(d)) == Success(r)
  {
  }

  /** The action parameters are read from the `action` and `action_params` fields only. */
  lemma SameActionFields(d: map<string, Value>, e: map<string, Value>)
    requires Get(d, "action") == Get(e, "action") && Get(d, "action_params") == Get(e, "action_params")
    ensures InitActionParams(d) == InitActionParams(e)
  {
  }

  /** The fields of a dumped rule. */
  lemma DumpedFields(r: Rule)
    ensures var d := DumpRule(r).fields;
      && d.Keys <= RuleFields
      && Get(d, "rule_id") == Str(r.ruleId)
      && Get(d, "priority") == Int(r.priority)
      && Get(d, "is_behavioral") == Bool(r.isBehavioral)
      && Get(d, "conditions") == List(DumpConditions(r.conditions))
      && Get(d, "action") == Str(ActionName(r.action))
      && Get(d, "action_params") == DumpParams(r.actionParams)
      && OptionalString(d, "instruction") == Success(r.instruction)
  {
  }

  /** Validation accepts every valid rule as the router prompt serialises it, and
      gives back that very rule: `Rule(**rule.model_dump(exclude_none=True)) == rule`. */
  lemma RuleRoundTrip(r: Rule)
    requires ValidRule(r)
    ensures ParseRule(DumpRule(r)) == Success(r)
  {
    var d := DumpRule(r).fields;
    DumpedFields(r);
    DumpedParamsRead(r);
    ConditionsRoundTrip(r.conditions);
    ParseRuleAccepts(d, r);
  }

  /** The action parameters of a dumped valid rule read back as its own. */
  lemma DumpedParamsRead(r: Rule)
    requires ValidRule(r)
    ensures InitActionParams(DumpRule(r).fields) == Success(Typed(r.actionParams))
  {
    DumpedFields(r);
    ParamsRoundTrip(r.action, r.actionParams);
  }

  /** A drop rule needs no `action_params`: leaving the key out, or giving null,
      is read as an empty mapping. */
  lemma DropRuleNeedsNoParams(r: Rule)
    requires ValidRule(r) && r.action == Drop
    ensures ParseRule(Dict(DumpRule(r).fields - {"action_params"})) == Success(r)
    ensures ParseRule(Dict(DumpRule(r).fields["action_params" := Null])) == Success(r)
  {
    var d := DumpRule(r).fields;
    DumpedFields(r);
    ConditionsRoundTrip(r.conditions);
    var d1 := d - {"action_params"};
    assert Get(d1, "action") == Str("drop");
    assert InitActionParams(d1) == Success(Typed(DropParams));
    assert OptionalString(d1, "instruction") == OptionalString(d, "instruction");
    ParseRuleAccepts(d1, r);
    var d2 := d["action_params" := Null];
    assert Get(d2, "action") == Str("drop");
    assert InitActionParams(d2) == Success(Typed(DropParams));
    assert OptionalString(d2, "instruction") == OptionalString(d, "instruction");
    ParseRuleAccepts(d2, r);
  }

  /** A present, non-null `action_params` that is not a mapping is rejected, and the
      error names the rule's action. */
  lemma NonMappingParamsRejected(d: map<string, Value>)
    requires Get(d, "action") != Null
    requires Get(d, "action_params") != Null && !d["action_params"].Dict?
    ensures ParseRule(Dict(d)) == Failure(ParamsNotMapping(d["action"]))
  {
  }

  /** A reply rule whose parameters are all missing, null, empty strings or empty
      lists is rejected, whatever its other fields say. */
  lemma EmptyReplyRejected(d: map<string, Value>, p: map<string, Value>)
    requires Get(d, "action") == Str("reply")
    requires Get(d, "action_params") == Dict(p) || (Get(d, "action_params") == Null && p == map[])
    requires !Truthy(Get(p, "response_text")) && !Truthy(Get(p, "system_prompt_key"))
    requires !Truthy(Get(p, "behavioral_prompts"))
    ensures ParseRule(Dict(d)).Failure?
  {
  }

  /** A keyword condition defaults to match type "any" and to case-insensitive
      matching, with or without an explicit `type`. */
  lemma KeywordDefaults(keywords: seq<string>)
    requires |keywords| >= 1
    ensures ParseCondition(Dict(map["type" := Str("keyword_match"), "keywords" := List(StringNodes(keywords))]))
            == Some(KeywordMatch(keywords, AnyKeyword, false))
    ensures ParseCondition(Dict(map["keywords" := List(StringNodes(keywords))]))
            == Some(KeywordMatch(keywords, AnyKeyword, false))
  {
    StringsOfNodes(keywords);
  }

  /** A keyword condition with an empty keyword list is rejected. */
  lemma NoKeywordsRejected(d: map<string, Value>)
    requires Get(d, "type") == Str("keyword_match") && Get(d, "keywords") == List([])
    ensures ParseCondition(Dict(d)).None?
  {
  }

  /** `is_behavioral` defaults to false. */
  lemma BehavioralDefaultsFalse(r: Rule)
    requires ValidRule(r) && !r.isBehavioral
    ensures ParseRule(Dict(DumpRule(r).fields - {"is_behavioral"})) == Success(r)
  {
    var d := DumpRule(r).fields;
    var d1 := d - {"is_behavioral"};
    DumpedFields(r);
    DumpedParamsRead(r);
    assert Get(d1, "action") == Get(d, "action") && Get(d1, "action_params") == Get(d, "action_params");
    SameActionFields(d, d1);
    assert OptionalString(d1, "instruction") == OptionalString(d, "instruction");
    ConditionsRoundTrip(r.conditions);
    ParseRuleAccepts(d1, r);
  }
}
