/** `src/bot_agents/router_agent.py`: the resolution procedure the router prompt
    prescribes (a single pass over the priority-ordered rules), and the history and
    rule-list sections of that prompt. Whether a rule matches the user's message is
    decided by a language model; here it is the parameter `matches`. */
module Router {
  import opened Wrappers
  import opened RuleModels
  import opened RouterModels
  import StableSort
  import RulesStore

  const DefaultPromptKey := "default_prompt"

  /** The `behavioral_prompts` a rule carries (only reply parameters have them). */
  function RulePrompts(rule: Rule): seq<string> {
    match rule.actionParams
    case ReplyParams(_, _, prompts) => if prompts.Some? then prompts.value else []
    case _ => []
  }

  predicate TerminalMatch(rule: Rule, matches: Rule -> bool) {
    matches(rule) && !rule.isBehavioral
  }

  predicate BehavioralMatch(rule: Rule, matches: Rule -> bool) {
    matches(rule) && rule.isBehavioral
  }

  /** The position of the first matching terminal rule. */
  function FirstTerminal(rules: seq<Rule>, matches: Rule -> bool): (r: Option<nat>)
    ensures r.Some? ==> r.value < |rules| && TerminalMatch(rules[r.value], matches)
    ensures r.Some? ==> forall j :: 0 <= j < r.value ==> !TerminalMatch(rules[j], matches)
    ensures r.None? ==> forall j :: 0 <= j < |rules| ==> !TerminalMatch(rules[j], matches)
    decreases |rules|
  {
    if rules == [] then None
    else if TerminalMatch(rules[0], matches) then Some(0)
    else
      var r := FirstTerminal(rules[1..], matches);
      assert forall j :: 1 <= j < |rules| ==> rules[j] == rules[1..][j - 1];
      if r.Some? then Some(r.value + 1) else None
  }

  /** The ids of the matching behavioral rules, in order. */
  function CollectedIds(rules: seq<Rule>, matches: Rule -> bool): seq<string>
    decreases |rules|
  {
    if rules == [] then []
    else
      var last := rules[|rules| - 1];
      CollectedIds(rules[..|rules| - 1], matches) + if BehavioralMatch(last, matches) then [last.ruleId] else []
  }

  /** The prompts of the matching behavioral rules, concatenated in order. */
  function CollectedPrompts(rules: seq<Rule>, matches: Rule -> bool): seq<string>
    decreases |rules|
  {
    if rules == [] then []
    else
      var last := rules[|rules| - 1];
      CollectedPrompts(rules[..|rules| - 1], matches) + if BehavioralMatch(last, matches) then RulePrompts(last) else []
  }

  /** A terminal rule's parameters as a decision's, with `prompts` as its prompt list. */
  function TerminalParams(rule: Rule, prompts: seq<string>): DecisionParams {
    match rule.actionParams
    case ReplyParams(text, key, _) => DecisionParams(text, key, Some(prompts), None)
    case ForwardParams(dest) => DecisionParams(None, None, Some(prompts), Some(dest))
    case DropParams => DecisionParams(None, None, Some(prompts), None)
  }

  /** The decision the prescribed procedure arrives at: the first matching terminal
      rule decides, the matching behavioral rules before it contribute their ids and
      prompts, and with no terminal match the answer is `default_reply` with the
      default prompt key. */
  function Decide(rules: seq<Rule>, matches: Rule -> bool): Decision {
    match FirstTerminal(rules, matches)
    case None =>
      Decision("default_reply", None, CollectedIds(rules, matches),
               DecisionParams(None, Some(DefaultPromptKey), Some(CollectedPrompts(rules, matches)), None))
    case Some(k) =>
      var t := rules[k];
      Decision(ActionName(t.action), Some(t.ruleId), CollectedIds(rules[..k], matches),
               TerminalParams(t, CollectedPrompts(rules[..k], matches) + RulePrompts(t)))
  }

  /** The procedure as written in the prompt: one pass with two accumulators that
      stops at the first matching terminal rule. */
  method Resolve(rules: seq<Rule>, matches: Rule -> bool) returns (d: Decision)
    ensures d == Decide(rules, matches)
  {
    var finalRule: Option<Rule> := None;
    var prompts: seq<string> := [];
    var ids: seq<string> := [];
    var i := 0;
    while i < |rules|
      invariant 0 <= i <= |rules|
      invariant finalRule.None?
      invariant forall j :: 0 <= j < i ==> !TerminalMatch(rules[j], matches)
      invariant ids == CollectedIds(rules[..i], matches)
      invariant prompts == CollectedPrompts(rules[..i], matches)
    {
      var rule := rules[i];
      if matches(rule) {
        if rule.isBehavioral {
          ids := ids + [rule.ruleId];
          prompts := prompts + RulePrompts(rule);
        } else {
          finalRule := Some(rule);
          prompts := prompts + RulePrompts(rule);
          break;
        }
      }
      assert rules[..i + 1][..i] == rules[..i];
      i := i + 1;
    }
    if finalRule.Some? {
      var t := finalRule.value;
      assert FirstTerminal(rules, matches) == Some(i);
      d := Decision(ActionName(t.action), Some(t.ruleId), ids, TerminalParams(t, prompts));
    } else {
      assert rules[..i] == rules;
      d := Decision("default_reply", None, ids, DecisionParams(None, Some(DefaultPromptKey), Some(prompts), None));
    }
  }

  // ---------------------------------------------------------------------------
  // Properties of the resolver

  lemma {:induction false} CollectedIdsMembers(rules: seq<Rule>, matches: Rule -> bool, id: string)
    ensures id in CollectedIds(rules, matches) <==>
            exists j :: 0 <= j < |rules| && BehavioralMatch(rules[j], matches) && rules[j].ruleId == id
    decreases |rules|
  {
    if rules != [] {
      var init := rules[..|rules| - 1];
      CollectedIdsMembers(init, matches, id);
      assert forall j :: 0 <= j < |init| ==> init[j] == rules[j];
      if exists j :: 0 <= j < |rules| && BehavioralMatch(rules[j], matches) && rules[j].ruleId == id {
        var j :| 0 <= j < |rules| && BehavioralMatch(rules[j], matches) && rules[j].ruleId == id;
        if j < |init| {
          assert BehavioralMatch(init[j], matches) && init[j].ruleId == id;
        }
      }
    }
  }

  /** A rule id is listed exactly when it belongs to a matching behavioral rule that
      comes before the deciding terminal rule (or anywhere, when none decides). */
  lemma ListedIdsAreMatchedBehavioral(rules: seq<Rule>, matches: Rule -> bool, id: string)
    ensures var d := Decide(rules, matches);
      var scope := match FirstTerminal(rules, matches) case Some(k) => k case None => |rules|;
      id in d.behavioralRuleIds <==>
        exists j :: 0 <= j < scope && BehavioralMatch(rules[j], matches) && rules[j].ruleId == id
  {
    match FirstTerminal(rules, matches) {
      case None =>
        CollectedIdsMembers(rules, matches, id);
      case Some(k) =>
        CollectedIdsMembers(rules[..k], matches, id);
        assert forall j :: 0 <= j < k ==> rules[..k][j] == rules[j];
    }
  }

  lemma {:induction false} NothingCollected(rules: seq<Rule>, matches: Rule -> bool)
    requires forall j :: 0 <= j < |rules| ==> !matches(rules[j])
    ensures CollectedIds(rules, matches) == [] && CollectedPrompts(rules, matches) == []
    decreases |rules|
  {
    if rules != [] {
      NothingCollected(rules[..|rules| - 1], matches);
    }
  }

  /** A message that matches no rule gets `default_reply` with the default prompt key
      and both behavioural lists empty. */
  lemma NoMatchGivesDefault(rules: seq<Rule>, matches: Rule -> bool)
    requires forall j :: 0 <= j < |rules| ==> !matches(rules[j])
    ensures Decide(rules, matches) ==
            Decision("default_reply", None, [], DecisionParams(None, Some("default_prompt"), Some([]), None))
  {
    NothingCollected(rules, matches);
  }

  /** Once a terminal rule has matched, nothing after it can change the decision. */
  lemma LaterRulesIgnored(rules: seq<Rule>, rest: seq<Rule>, matches: Rule -> bool)
    requires FirstTerminal(rules, matches).Some?
    ensures Decide(rules + rest, matches) == Decide(rules, matches)
  {
    var k := FirstTerminal(rules, matches).value;
    var all := rules + rest;
    FirstTerminalExtends(rules, rest, matches);
    assert all[k] == rules[k];
    assert all[..k] == rules[..k];
  }

  lemma FirstTerminalExtends(rules: seq<Rule>, rest: seq<Rule>, matches: Rule -> bool)
    requires FirstTerminal(rules, matches).Some?
    ensures FirstTerminal(rules + rest, matches) == FirstTerminal(rules, matches)
  {
    var k := FirstTerminal(rules, matches).value;
    var all := rules + rest;
    assert all[k] == rules[k];
    assert forall j :: 0 <= j < k ==> all[j] == rules[j];
  }

  /** Every resolved decision carries a router action; its rule id is null exactly
      when no terminal rule matched, and then, and only then, the action is
      `default_reply`. */
  lemma DecisionShape(rules: seq<Rule>, matches: Rule -> bool)
    ensures IsRouterAction(Decide(rules, matches).action)
    ensures Decide(rules, matches).matchedRuleId.None? <==> FirstTerminal(rules, matches).None?
    ensures Decide(rules, matches).action == "default_reply" <==> FirstTerminal(rules, matches).None?
  {
    RouterActionsExtendRuleActions();
    if FirstTerminal(rules, matches).Some? {
      var t := rules[FirstTerminal(rules, matches).value];
      assert ActionName(t.action) in (set a: Action :: ActionName(a));
    }
  }

  /** The deciding rule is the matching terminal rule that comes first, and when the
      rules are in the rule store's order no matching terminal rule has a smaller
      priority value. */
  lemma DecidingRuleHasLowestPriority(rules: seq<Rule>, matches: Rule -> bool, j: nat)
    requires StableSort.SortedBy(rules, RulesStore.Priority)
    requires j < |rules| && TerminalMatch(rules[j], matches)
    ensures FirstTerminal(rules, matches).Some?
    ensures var k := FirstTerminal(rules, matches).value;
      Decide(rules, matches).matchedRuleId == Some(rules[k].ruleId) && rules[k].priority <= rules[j].priority
  {
    FirstTerminalLowestPriority(rules, matches, j);
  }

  lemma FirstTerminalLowestPriority(rules: seq<Rule>, matches: Rule -> bool, j: nat)
    requires StableSort.SortedBy(rules, RulesStore.Priority)
    requires j < |rules| && TerminalMatch(rules[j], matches)
    ensures FirstTerminal(rules, matches).Some?
    ensures rules[FirstTerminal(rules, matches).value].priority <= rules[j].priority
  {
    var k := FirstTerminal(rules, matches).value;
    assert k <= j;
    if k < j {
      assert RulesStore.Priority(rules[k]) <= RulesStore.Priority(rules[j]);
    }
  }

  /** A resolved decision survives the JSON form the router returns it in. */
  lemma ResolvedDecisionParses(rules: seq<Rule>, matches: Rule -> bool)
    ensures ParseDecision(DumpDecision(Decide(rules, matches))) == Success(Decide(rules, matches))
  {
    DecisionShape(rules, matches);
    DecisionRoundTrip(Decide(rules, matches));
  }

  // ---------------------------------------------------------------------------
  // The data sections of the router prompt

  /** The run context the router is invoked with: none, a dictionary of strings, or
      any other object. */
  datatype RouterContext = NoContext | DictContext(entries: map<string, string>) | OtherContext

  const NoHistory := "No history available."

  /** The `<history>` section. */
  function HistorySection(ctx: RouterContext): (r: string)
    ensures r != ""
  {
    var history :=
      if ctx.DictContext? && ctx.entries != map[] then
        (if "history" in ctx.entries then ctx.entries["history"] else NoHistory)
      else NoHistory;
    if history == "" then NoHistory else history
  }

  /** The history shown is the context's non-empty `history` entry, otherwise the default. */
  lemma HistoryDefaulting(ctx: RouterContext)
    ensures HistorySection(ctx) != NoHistory <==>
            ctx.DictContext? && "history" in ctx.entries && ctx.entries["history"] !in {"", NoHistory}
    ensures HistorySection(ctx) != NoHistory ==> HistorySection(ctx) == ctx.entries["history"]
  {
  }

  /** The rules section: the rules as serialised for the prompt, or a fixed notice. */
  datatype RulesText = NoRulesAvailable | RulesJson(doc: Value)

  function RulesSection(rules: seq<Rule>): RulesText {
    if rules == [] then NoRulesAvailable
    else RulesJson(List(seq(|rules|, i requires 0 <= i < |rules| => DumpRule(rules[i]))))
  }

  /** The prompt shows "No rules available." exactly when there are no rules, and
      otherwise one entry per rule, in order, from which that rule is recovered. */
  lemma RulesSectionFaithful(rules: seq<Rule>)
    requires forall i :: 0 <= i < |rules| ==> ValidRule(rules[i])
    ensures RulesSection(rules).NoRulesAvailable? <==> rules == []
    ensures RulesSection(rules).RulesJson? ==>
      RulesSection(rules).doc.List? && |RulesSection(rules).doc.items| == |rules| &&
      forall i :: 0 <= i < |rules| ==> ParseRule(RulesSection(rules).doc.items[i]) == Success(rules[i])
  {
    forall i | 0 <= i < |rules| ensures ParseRule(DumpRule(rules[i])) == Success(rules[i]) {
      RuleRoundTrip(rules[i]);
    }
  }
}
