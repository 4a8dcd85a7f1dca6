# SupportBot routing core, modelled in Dafny

SupportBot is a Telegram support bot driven by rules. A YAML rules file holds
prioritised rules. Each rule is behavioural (it adds prompts and goes on) or
terminal (it decides what happens: reply, forward or drop). For each text
message the bot:

1. checks that the message is in English;
2. asks a router agent to resolve the rules into a decision;
3. strips the markdown fence off the router's JSON answer and validates it;
4. carries the decision out.

A reply is a fixed text or a hand-off to an answer agent. The hand-off carries
a prompt key, instructions and, in `handlers.py`, a retrieved knowledge-base
context. Administrators can reload the rules file at run time with
`/reload_rules`.

This project models that core and proves what it promises.

- **Rules.** The rule data model and its load-time validation (`RuleModels`).
  Loading, ordering, lookup and reload with rollback (`RulesStore`, with the
  class `RulesManager`). The stable sort used by `sorted` (`StableSort`).
- **Router.** The decision type (`RouterModels`). The resolution procedure that
  the router prompt prescribes (`Router.Resolve` against `Router.Decide`). The
  defaulting of the prompt's history and rules sections.
- **Prompts.** The prompt table and its fallbacks (`Prompts`, with the
  singleton `PromptManager`). The answer agent's prompt (`AnswerPrompt`).
- **Memory and context.** Per-user conversation memory (`Memory`, the
  imperative class `MemoryManager`). The knowledge-base and dialog context of
  the response generator (`ResponseContext`).
- **Configuration.** The administrator id list and the token check
  (`BotConfig`).
- **The two dispatchers.**
  - `MessageHandler` models `src/bot/message_handler.py`, with the
    reply-on-no-match policy as a parameter.
  - `Handlers` models `src/bot/handlers.py`: the language gate, router output
    clean-up, dispatch branches, hand-off with retrieval, and the reload
    command ladder.
  - `Dispatch` holds what the two share: effects, fixed replies, the forward
    branch and the generation step.
- **Python string operations** used along the way (`Strings`): `strip`,
  `split`, `join`, `removeprefix`/`removesuffix`, `in`, `int()` and `str()`.

What the bot does to the outside world is a sequence of `Effect`s:

- a reply, either verbatim text or one of the fixed `Notice`s (`NoticeText`
  gives each notice's exact wording);
- a forward;
- the typing indicator;
- a memory append;
- a run of the answer agent with its hand-off record.

What the outside world answers is an input, an `Outcomes` value: whether the
forward succeeded, the agent's answer or its failure, and whether logging
succeeded. The language validator's verdict, the router run, the JSON
decision validator and the retriever are inputs too. The rule matcher is a
function parameter `matches`, because the router is a language model.

`RouterDecision` in `src/bot_agents/models.py` declares `params` as a plain
dictionary. It has no `behavioral_rule_ids` field, and `RouterDecisionParams`
and `ReplyHandoffData` are imported but never defined (see
`src/bot_agents/__init__.py:20`). Yet both dispatchers read the parameters as
attributes. The model follows the evident design: a typed parameter record
(`DecisionParams`) and a decision with `behavioralRuleIds`. As shipped, the
package would fail at import time.

## Model

| member | source | states |
|---|---|---|
| Strings.Strip | src/bot/config.py:34 | `str.strip`: the result is no longer than the input and neither starts nor ends with white space |
| Strings.StripSlice | src/bot/config.py:34 | `str.strip` keeps a slice of its input and cuts away only white space on either side of it |
| Strings.StripIdempotent | src/bot/message_handler.py:65 | stripping twice is stripping once |
| Strings.RemovePrefix | src/bot/message_handler.py:65 | `removeprefix`: when the prefix is present the input is prefix + result, otherwise the input is returned |
| Strings.RemoveSuffix | src/bot/message_handler.py:65 | `removesuffix`: when the suffix is present the input is result + suffix, otherwise the input is returned |
| Strings.IndexOf | src/utils/response_generator.py:93-94 | the position found is an occurrence at or after `from`, no earlier one exists, and None means none exists |
| Strings.FirstOccurrence | src/utils/response_generator.py:94 | for `a + p + b`, where `p` is not in `a` and its last character is unique in it, `split(p)` gives `a` first and the rest is `b` |
| Strings.BeforeFirstExcludes | src/utils/response_generator.py:94 | the text before the first separator never contains the separator |
| Strings.SplitJoin | src/bot/config.py:34 | splitting a join on a separator that occurs in no part gives the parts back |
| Strings.JoinSnoc | src/utils/memory_manager.py:42 | joining one more part appends the separator and that part |
| Strings.ParseIntToString | src/bot/config.py:34 | `int(str(n)) == n` for every integer |
| StableSort.SortSortedPermutation | src/rules_manager/manager.py:37 | `sorted(key=...)` yields a list ordered by the key that is a permutation of the input |
| StableSort.SortStable | src/rules_manager/manager.py:37 | the sort is stable: for each key, the elements with that key keep their input order |
| RuleModels.ActionOf | src/rules_manager/models.py:9 | a node denotes an action exactly when it is one of the strings "reply", "forward", "drop" |
| RuleModels.ParseReplyParams | src/rules_manager/models.py:38-50 | accepted reply parameters always have a non-empty response text, prompt key or prompt list |
| RuleModels.ParseForwardParams | src/rules_manager/models.py:52-53 | accepted forward parameters carry the document's `destination_chat_id` string |
| RuleModels.InitActionParams | src/rules_manager/models.py:77-117 | the before-validator replaces `action_params` with the variant that the action selects |
| RuleModels.ParseKeywordCondition | src/rules_manager/models.py:17-21 | an accepted keyword condition has at least one keyword |
| RuleModels.ParseRegexCondition | src/rules_manager/models.py:23-25 | an accepted regex condition is a regex condition |
| RuleModels.ParseDescriptionCondition | src/rules_manager/models.py:27-29 | an accepted description condition has a non-empty description |
| RuleModels.ParseCondition | src/rules_manager/models.py:31-32 | every accepted condition is valid |
| RuleModels.ParseConditions | src/rules_manager/models.py:67 | either every element is read, in order, or the first rejected element is reported and all before it were accepted |
| RuleModels.ParseRule | src/rules_manager/models.py:60-75 | an accepted rule has only known fields, is valid (non-empty id, at least one condition, parameters fitting the action, a complete reply) and agrees with its document field by field |
| RuleModels.ConditionRoundTrip | src/rules_manager/models.py:14-32 | every valid condition reads back from its dump |
| RuleModels.ConditionsRoundTrip | src/rules_manager/models.py:67 | every list of valid conditions reads back from its dump |
| RuleModels.ParamsRoundTrip | src/rules_manager/models.py:99-105 | parameters that fit their action read back from their dump under that action |
| RuleModels.ParseRuleAccepts | src/rules_manager/models.py:60-75 | a mapping whose fields each read as a rule's fields is accepted as that rule |
| RuleModels.SameActionFields | src/rules_manager/models.py:83-84 | the before-validator looks at `action` and `action_params` only |
| RuleModels.RuleRoundTrip | src/bot_agents/router_agent.py:24-29 | every valid rule reads back, unchanged, from its `model_dump(exclude_none=True)` form |
| RuleModels.DropRuleNeedsNoParams | src/rules_manager/models.py:89-91 | a drop rule with `action_params` left out or null is still accepted as the same rule |
| RuleModels.NonMappingParamsRejected | src/rules_manager/models.py:93-97 | non-null `action_params` that are not a mapping are rejected with an error naming the action |
| RuleModels.EmptyReplyRejected | src/rules_manager/models.py:43-49 | a reply rule whose three parameters are all missing, null or empty is rejected |
| RuleModels.KeywordDefaults | src/rules_manager/models.py:18-21 | a keyword condition defaults to match type "any" and to case-insensitive, with or without its `type` |
| RuleModels.NoKeywordsRejected | src/rules_manager/models.py:19 | a keyword condition with no keywords is rejected |
| RuleModels.BehavioralDefaultsFalse | src/rules_manager/models.py:66 | leaving `is_behavioral` out gives a terminal rule |
| RulesStore.ParseRules | src/rules_manager/models.py:120-121 | `RulesConfig`: every rule is validated in order, or the first rejected one is reported with its position |
| RulesStore.Load | src/rules_manager/manager.py:24-53 | a successful load is priority-ordered and holds only valid rules |
| RulesStore.FindRule | src/rules_manager/manager.py:58-65 | an empty id finds nothing; otherwise the result is the first rule with the id, and None means no rule has it |
| RulesStore.RulesManager.Init | src/rules_manager/manager.py:18-20 | a new manager keeps its path and starts with no rules |
| RulesStore.RulesManager.Create | src/rules_manager/manager.py:18-22 | construction succeeds exactly when the first load does and then holds the loaded rules; otherwise it raises the load's error |
| RulesStore.RulesManager.LoadRules | src/rules_manager/manager.py:24-53 | the result is the load's; the active list is replaced only on success and stays ordered and valid |
| RulesStore.RulesManager.GetRules | src/rules_manager/manager.py:55-56 | the active list is priority-ordered and every rule in it is valid |
| RulesStore.RulesManager.GetRuleById | src/rules_manager/manager.py:58-65 | the linear scan returns what `FindRule` specifies |
| RulesStore.RulesManager.ReloadRules | src/rules_manager/manager.py:67-81 | True with the new list active, or False with the previous list restored exactly |
| RulesStore.EmptyDocumentLoadsNoRules | src/rules_manager/manager.py:30-33 | an empty document, or one without a `rules` key, loads zero rules |
| RulesStore.LoadedRulesOrder | src/rules_manager/manager.py:35-37 | a loaded list is the file's rules, permuted into ascending priority with ties in file order |
| RulesStore.InvalidRuleFailsLoad | src/rules_manager/manager.py:35-50 | one invalid rule fails the whole load with a validation error naming the first invalid position |
| RulesStore.FailureKinds | src/rules_manager/manager.py:42-53 | a missing file, a YAML error and an invalid document each give their own kind of error, and those three name the path; a document on which `'rules' in` or `**` fails gives the unexpected error, which does not name the path |
| RulesStore.FailureMessages | src/rules_manager/manager.py:42-53 | each failure's message begins with the text for its kind; the missing-file, YAML and validation messages name the path, while the unexpected-error message holds only Python's own error text |
| RulesStore.MessagePrefixes | src/rules_manager/manager.py:44-53 | each kind of error message begins with its fixed text |
| RulesStore.HasRulesKey | src/rules_manager/manager.py:30 | Python's `in` on each kind of document: a key of a mapping, an element of a list, a substring of a string, and the "is not iterable" `TypeError` for an integer, a boolean and `None` |
| RulesStore.ErrorMessage | src/rules_manager/manager.py:42-53 | the `RulesFileError` text of each kind: the missing-file, YAML and validation texts include the path, and the unexpected-error text is the fixed prefix followed by Python's own message (CPython 3.9 and later, with `RulesConfig` qualified by its module `src.rules_manager.models`, as src/bot/handlers.py:26 imports it), without the path |
| RouterModels.ParseDecision | src/bot_agents/models.py:6-9 | an accepted decision carries a router action taken from the document; a document whose action is not a router action is rejected; a non-object is rejected |
| RouterModels.DecisionParamsRoundTrip | src/bot_agents/models.py:9 | decision parameters read back from their JSON form |
| RouterModels.DecisionRoundTrip | src/bot_agents/models.py:6-9 | every decision with a router action reads back from its JSON form |
| RouterModels.DecisionDefaults | src/bot_agents/models.py:8-9 | only `action` is required; the rule id defaults to null and the parameters to empty; an explicit null for the parameters or the behavioural rule ids is rejected |
| RouterModels.RouterActionsExtendRuleActions | src/bot_agents/models.py:4 | the router actions are exactly the rule actions plus "default_reply", which no rule action equals |
| Router.FirstTerminal | src/bot_agents/router_agent.py:91-94 | the deciding rule is a matching terminal rule with no matching terminal rule before it, and None means there is none |
| Router.Decide | src/bot_agents/router_agent.py:68-104 | the prescribed decision: the first matching terminal rule decides with its action, id and parameters; the matching behavioural rules before it give the listed ids, and their prompts followed by the deciding rule's own give the prompt list; with no terminal match the result is "default_reply" with a null rule id, the "default_prompt" key and every matching behavioural rule's id and prompts |
| Router.Resolve | src/bot_agents/router_agent.py:79-104 | the one-pass procedure with two accumulators and an early stop yields exactly `Decide` |
| Router.CollectedIdsMembers | src/bot_agents/router_agent.py:87-90 | an id is collected exactly when some matching behavioural rule has it |
| Router.ListedIdsAreMatchedBehavioral | src/bot_agents/router_agent.py:84-104 | a decision lists an id exactly when a matching behavioural rule before the deciding rule has it |
| Router.NothingCollected | src/bot_agents/router_agent.py:79-82 | with no match, nothing is collected |
| Router.NoMatchGivesDefault | src/bot_agents/router_agent.py:100-101 | a message that matches nothing gets "default_reply" with no rule id and the "default_prompt" key |
| Router.LaterRulesIgnored | src/bot_agents/router_agent.py:94 | once a terminal rule matches, appending rules cannot change the decision |
| Router.DecisionShape | src/bot_agents/router_agent.py:96-101 | every decision has a router action; the rule id is null, and the action is "default_reply", exactly when no terminal rule matched |
| Router.DecidingRuleHasLowestPriority | src/bot_agents/router_agent.py:84-92 | over priority-ordered rules, the deciding rule has the lowest priority among the matching terminal rules |
| Router.ResolvedDecisionParses | src/bot_agents/router_agent.py:51-54 | the decision, returned as JSON, validates back to itself |
| Router.HistorySection | src/bot_agents/router_agent.py:38-43 | the history section is never empty |
| Router.HistoryDefaulting | src/bot_agents/router_agent.py:38-43 | the history shown is the context's non-empty `history` entry exactly when there is one, and otherwise the default text |
| Router.RulesSectionFaithful | src/bot_agents/router_agent.py:45-48 | "No rules available." appears exactly when there are no rules; otherwise every listed rule reads back as the rule itself |
| Prompts.Lookup | src/prompts/manager.py:45-55 | a key with a template gets it; any other result is the built-in prompt or a table entry |
| Prompts.LookupFallbacks | src/prompts/manager.py:50-53 | lookup gives None exactly when the key has no template and "default_prompt" is stored as null; otherwise it falls back to "default_prompt", then to the built-in prompt |
| Prompts.DefaultLookup | src/prompts/manager.py:50-53 | looking up "default_prompt" gives its entry, or the built-in prompt when it is absent |
| Prompts.PromptManager.LoadPrompts | src/prompts/manager.py:21-43 | a mapping becomes the table; a missing file or a read error empties it; a non-mapping leaves it unchanged |
| Prompts.PromptRegistry.Instance | src/prompts/manager.py:15-19 | the first call creates and loads the manager; later calls return that same manager unchanged |
| AnswerPrompt.BuildAnswerPrompt | src/prompts/builders.py:10-42 | a context that is not a hand-off gets the default prompt exactly as looked up, None included; a hand-off always gets a prompt that opens with the key's system prompt, the history placeholder and the context section and closes with the question section, with nothing in between |
| AnswerPrompt.QuestionRecovered | src/prompts/builders.py:40-42 | the user's question is recovered verbatim from the prompt by removing the head in front and the final newline behind |
| AnswerPrompt.PromptIgnoresInstructions | src/prompts/builders.py:19-42 | the hand-off's history, instruction and behavioural prompts do not affect the prompt |
| AnswerPrompt.ContextDefault | src/prompts/builders.py:29 | an absent or empty context shows the fixed notice; any other context is shown as it is |
| Memory.Truncate | src/utils/memory_manager.py:24-25 | keeps the newest `min(n, length)` messages as a suffix when n >= 1; a bound of 0 keeps everything, as the Python slice `[-0:]` does |
| Memory.MemoryManager.constructor | src/utils/memory_manager.py:6-8 | a new manager has no history and the given bound |
| Memory.MemoryManager.GetHistory | src/utils/memory_manager.py:27-29 | a user's history, or empty for an unknown user |
| Memory.MemoryManager.AddMessage | src/utils/memory_manager.py:10-25 | appends to this user's history and bounds it, with the new message last; other users are unchanged |
| Memory.MemoryManager.GetHistoryAsText | src/utils/memory_manager.py:31-42 | the loop yields the role-prefixed lines of the history joined by line breaks |
| Memory.MemoryManager.ClearHistory | src/utils/memory_manager.py:44-47 | removes exactly this user's history |
| Memory.HistoryText | src/utils/memory_manager.py:31-42 | "" for an empty history; otherwise one "User: " or "Assistant: " line per message, in order, joined by line breaks |
| Memory.AddKeepsNewest | src/utils/memory_manager.py:21-25 | after an append, the history holds between 1 and n messages, is a suffix of the old history plus the new message, and ends with the new message |
| Memory.ZeroBoundKeepsAll | src/utils/memory_manager.py:24-25 | with a zero bound, nothing is dropped |
| Memory.HistoryTextLines | src/utils/memory_manager.py:33-42 | the text is empty exactly for an empty history, and otherwise splits back into one line per message |
| Memory.HistoryTextEndsWithLast | src/utils/memory_manager.py:37-42 | the text of a non-empty history ends with the line of its newest message |
| ResponseContext.ExtractText | src/utils/response_generator.py:93-96 | content without "Text:" is kept whole; otherwise the extract is stripped and no longer than the content |
| ResponseContext.ExtractTextMarked | src/utils/response_generator.py:93-94 | with "Text:" present, the extract is the stripped slice from just after its first occurrence up to the first later position where "Text:" or "Reply_To_Message_ID:" starts, or up to the end |
| ResponseContext.ExtractTextOfRecord | src/utils/response_generator.py:94 | a stored record `... Text: body Reply_To_Message_ID: ...` yields the stripped body |
| ResponseContext.ContextParts | src/utils/response_generator.py:89-97 | every produced part begins with "Document (relevance " |
| ResponseContext.ContextPartsFailurePersists | src/utils/response_generator.py:90-97 | a document without content aborts the whole preparation, whatever follows it |
| ResponseContext.HistoryPartsFailurePersists | src/utils/response_generator.py:105-117 | a malformed history entry aborts the whole preparation, whatever follows it |
| ResponseContext.ContextPartsCount | src/utils/response_generator.py:92-98 | with content everywhere, preparation succeeds, and no part is produced exactly when no content is text |
| ResponseContext.KnowledgeDefault | src/utils/response_generator.py:86-99 | the knowledge section is the fixed notice when no document has text content, and otherwise starts with a document line |
| ResponseContext.EntryLineOrder | src/utils/response_generator.py:106-117 | an entry gives its user line before its assistant line, and empty parts give no line |
| ResponseContext.RagSection | src/utils/response_generator.py:86-99 | the document lines joined by blank lines, the no-knowledge notice when no document has text content, or the failure for a document without content |
| ResponseContext.DialogSection | src/utils/response_generator.py:102-119 | the history lines joined by line breaks, the no-dialog notice when there are none, or the failure for a malformed entry |
| ResponseContext.Sections | src/utils/response_generator.py:84-121 | both sections, with a document failure reported before a history failure |
| ResponseContext.SortedDocuments | src/utils/response_generator.py:87-88 | an empty list stays as it is; any other list is sorted by descending score, with equal scores kept in order |
| ResponseContext.BuildRagContext | src/utils/response_generator.py:86-99 | the loop builds exactly `RagSection`, failure included |
| ResponseContext.BuildDialogHistory | src/utils/response_generator.py:102-119 | the loop builds exactly `DialogSection`, failure included |
| ResponseContext.PrepareFullContext | src/utils/response_generator.py:70-124 | sorts the caller's document list in place and returns the two sections for the sorted list |
| ResponseContext.DocumentsReordered | src/utils/response_generator.py:88 | the documents end up in descending score order, as a permutation, with equal scores in their original order |
| BotConfig.ParseSegments | src/bot/config.py:34-38 | the id list fails exactly when some non-blank segment is not an integer |
| BotConfig.ParseAdminIds | src/bot/config.py:30-40 | an unset or empty variable gives no administrators |
| BotConfig.ValidateToken | src/bot/config.py:42-48 | the token check fails exactly when the token is unset or empty, with the fixed message |
| BotConfig.ParseIdStrings | src/bot/config.py:34 | integer segments parse back to their ids |
| BotConfig.AdminIdsRoundTrip | src/bot/config.py:30-35 | a comma-joined list of ids parses back to the same ids |
| BotConfig.BadSegmentEmptiesList | src/bot/config.py:36-38 | one malformed segment empties the whole list |
| BotConfig.BlankSegmentsSkipped | src/bot/config.py:34 | blank segments are skipped |
| Dispatch.SessionFor | src/bot/handlers.py:240 | without a memory manager the history text is ""; with one it is the text of the stored history after the user's message was appended under the bound |
| Dispatch.SessionHistoryEndsWithMessage | src/bot/message_handler.py:22-23 | with a memory manager and a positive bound, the history text the dispatchers read is non-empty and ends with "User: " and the current message |
| Dispatch.ReceiveMessage | src/bot/handlers.py:94-96 | appends the user's message to the manager, if any, and reads the history text back (line 240), giving exactly `SessionFor` of the old stored history |
| Dispatch.CleanRouterOutput | src/bot/message_handler.py:65 | the output stripped, a leading "```json" and then a trailing "```" removed once each, and stripped again |
| Dispatch.CleanOutputStripped | src/bot/message_handler.py:65 | the cleaned router output is already stripped |
| Dispatch.FencedJsonUnwrapped | src/bot/message_handler.py:65 | output fenced as a json block becomes its stripped body |
| Dispatch.PlainOutputUnchanged | src/bot/message_handler.py:65 | stripped output without a fence is left as it is |
| Dispatch.Unwrapped | src/bot/handlers.py:135-140 | stripping, unwrapping any non-blank delimiters and stripping again gives the stripped body |
| Dispatch.ForwardEffects | src/bot/message_handler.py:123-141 | a missing destination gets the unclear-destination notice; otherwise the message is forwarded first, and nowhere else |
| Dispatch.ForwardSends | src/bot/message_handler.py:123-141 | the forward branch replies only when the destination is missing or the forward fails, with the matching notice |
| Dispatch.GenerationEffects | src/bot/message_handler.py:188-228 | generation runs the answer agent first and ends with a reply |
| Dispatch.GenerationSends | src/bot/message_handler.py:188-228 | the reply is the agent's answer when it and the logging succeed, and otherwise the apology, which is also remembered |
| Dispatch.ReplyEffects | src/bot/message_handler.py:146-165 | a non-empty response text is sent verbatim; otherwise a non-empty prompt key hands off to the answer agent; otherwise the missing-information notice is sent |
| Dispatch.ActionEffects | src/bot/message_handler.py:105-121 | drop does nothing, forward gives `ForwardEffects`, reply and default_reply give `ReplyEffects`, and any other action gets the unknown-instruction notice |
| Dispatch.UnknownBranchExactly | src/bot/message_handler.py:105-121 | the unknown-instruction branch is taken exactly for actions that are not router actions |
| Dispatch.ActionOutcome | src/bot/message_handler.py:105-121 | drop does nothing; forward replies at most once; reply sends the response text, or hands off, or sends the missing-information notice; an unknown action gets its notice; only the forward branch forwards |
| Dispatch.HandoffRepliesOnce | src/bot/message_handler.py:186-228 | a hand-off replies exactly once |
| Dispatch.HandoffNeverForwards | src/bot/message_handler.py:167-228 | a hand-off never forwards |
| Dispatch.InstructionFromMatchedRule | src/bot/message_handler.py:171-173 | without behavioural prompts, an instruction can only come from the first rule with the matched id |
| MessageHandler.HandoffOf | src/bot/message_handler.py:169-184 | the answer agent's record: the user's text, the decision's prompt key, no retrieved context, the session's history text, the instructions (the matched rule's own, then the behavioural prompts) joined by line breaks, and the prompts |
| MessageHandler.HandoffEffects | src/bot/message_handler.py:186-225 | the typing indicator, then the generation step for that record |
| MessageHandler.HandleReplyAction | src/bot/message_handler.py:143-165 | the reply branch's early returns produce exactly `ReplyEffects` with `HandoffEffects` as the hand-off |
| MessageHandler.NoMatchPolicy | src/bot/message_handler.py:95-103 | a decision with a rule id is kept as it is; without one it is dropped when the flag is off, and otherwise becomes "default_reply" with its own prompt key, or "default_prompt" when that key is empty |
| MessageHandler.DecisionEffects | src/bot/message_handler.py:89-121 | the decision left by `NoMatchPolicy` is carried out by its action: drop does nothing, forward takes the forward branch, reply and default_reply take the reply ladder with the hand-off, and any other action gets the unknown-instruction notice |
| MessageHandler.ExecuteRouterDecision | src/bot/message_handler.py:89-121 | carrying out a decision produces exactly `DecisionEffects` |
| MessageHandler.NoMatchSilentWithoutFlag | src/bot/message_handler.py:95-98 | with no rule matched and the flag off, nothing happens |
| MessageHandler.NoMatchDefaultReply | src/bot/message_handler.py:99-103 | with no rule matched and the flag on, exactly one reply follows: the response text, or a hand-off keyed by the given prompt key or "default_prompt" |
| MessageHandler.MatchedDecisionOutcome | src/bot/message_handler.py:105-121 | a matched decision is dropped, forwarded, replied to once or refused as unknown, as its action says |
| MessageHandler.AtMostOneReply | src/bot/message_handler.py:89-121 | carrying out any decision replies at most once |
| MessageHandler.InstructionLines | src/bot/message_handler.py:171-176 | the instruction text is empty for no instructions, and otherwise splits back into the rule instruction and behavioural prompts |
| MessageHandler.GenerationFailureApology | src/bot/message_handler.py:219-228 | when the answer agent or the logging fails, the only reply is the apology, and it is remembered first |
| Handlers.ReadDecision | src/bot/handlers.py:142 | a decision read from JSON always has a router action |
| Handlers.StripFences | src/bot/handlers.py:135-140 | the stepwise clean-up equals the one-line clean-up of the other dispatcher |
| Handlers.HandleAnswerAgentHandoff | src/bot/handlers.py:227-296 | the hand-off produces exactly `HandoffEffects` for the record `HandoffOf` |
| Handlers.HandoffOf | src/bot/handlers.py:239-264 | the answer agent's record: the user's text, the decision's prompt key, the retrieved context or None, the session's history text, one "- " line per instruction (the matched rule's own, then the behavioural prompts), and the prompts |
| Handlers.HandoffEffects | src/bot/handlers.py:266-296 | the typing indicator, then the generation step for that record |
| Handlers.Gate | src/bot/handlers.py:98-119 | a failed validator gives the language-trouble notice; non-English text gives the not-English notice naming the detected language, or "an unknown language"; English text with no router or manager gives the unavailable notice; otherwise nothing stops the message |
| Handlers.Routed | src/bot/handlers.py:121-225 | a failed router run gets the unexpected-error apology and non-text output the unexpected-response notice; otherwise the cleaned output is validated, and a decision is carried out while an unreadable one gets the unexpected-error apology |
| Handlers.DispatchDecision | src/bot/handlers.py:160-216 | drop does nothing; forward sends the missing-destination notice, or forwards and apologises only if that failed; reply and default_reply send the response text, else hand off to the answer agent, else send the missing-information notice; any other action gets the unknown-instruction notice |
| Handlers.TextMessageEffects | src/bot/handlers.py:86-225 | the user's message is remembered first when a memory manager is attached; then comes either the gate's one notice or the routed effects |
| Handlers.HandleTextMessage | src/bot/handlers.py:86-225 | handling a message produces exactly `TextMessageEffects` |
| Handlers.RouteOutput | src/bot/handlers.py:134-142 | the router's text output is cleaned, validated and carried out, or gets the apology |
| Handlers.CarryOut | src/bot/handlers.py:160-216 | the decision branches produce exactly `DispatchDecision` |
| Handlers.GateStopsRouting | src/bot/handlers.py:98-119 | a failed or negative language check, or a missing router, gives one notice and neither forwards nor runs the answer agent |
| Handlers.LanguageGate | src/bot/handlers.py:98-119 | the gate's notice for each case; it lets the message through exactly when it is English and the router is ready |
| Handlers.NoticeNamesLanguage | src/bot/handlers.py:102-103 | the language notice determines the detected language |
| Handlers.FencedDecisionDispatched | src/bot/handlers.py:134-216 | a fenced decision that validates is carried out |
| Handlers.RoutedText | src/bot/handlers.py:134-142 | text output is judged only through its cleaned form: outputs that clean alike lead to the same effects, and a "```json" fence leads where its bare body does |
| Handlers.FencedDumpReadBack | src/bot/handlers.py:135-142 | a decision sent back as a fenced JSON dump validates to itself |
| Handlers.ValidatedActionKnown | src/bot/handlers.py:142 | a validated decision never takes the unknown-instruction branch |
| Handlers.RetrievalFailureContinues | src/bot/handlers.py:231-237 | a missing or failing retriever still hands off, with no context, and replies once |
| Handlers.AtMostOneReply | src/bot/handlers.py:86-225 | a text message gets at most one reply |
| Handlers.RoutedRepliesAtMostOnce | src/bot/handlers.py:121-225 | the routing part replies at most once |
| Handlers.DispatchRepliesAtMostOnce | src/bot/handlers.py:160-216 | each decision branch replies at most once |
| Handlers.DashTextLines | src/bot/handlers.py:254 | the instruction text is empty exactly when there are no instructions; otherwise there is one line per instruction |
| Handlers.DashLineContents | src/bot/handlers.py:254 | each line is "- " followed by its instruction |
| Handlers.AgreesWithMessageHandler | src/bot/handlers.py:193-212 | for a matched decision, both dispatchers agree except in the hand-off record, which here adds the retrieved context and dash-formatted instructions |
| Handlers.ReloadRulesCommand | src/bot/handlers.py:298-337 | a refused command leaves the rules unchanged; otherwise the rules are reloaded with rollback and the reply reports the outcome |
| Handlers.Refusal | src/bot/handlers.py:303-322 | the message of the first failing check, in order: no administrators configured, caller not an administrator, no rule manager; none when all pass |
| Handlers.RefusalLadder | src/bot/handlers.py:303-322 | the command runs exactly when administrators are configured, the caller is one and the manager exists; each refusal has its own message |
| Handlers.BadAdminListRefusesEveryone | src/bot/handlers.py:303-308 | a malformed administrator list makes the command unconfigured for everyone |
| Handlers.ReloadReply | src/bot/handlers.py:327-337 | after a successful reload, the sentence holding the new rule count; after a failed one, the restore notice |
| Handlers.ReloadReplyReportsCount | src/bot/handlers.py:327-332 | the success reply determines the new rule count |

## Left out

- The dispatch functions and methods take any `Session`, so the history text is an input there. The sessions the source builds are exactly those of `Dispatch.SessionFor`. Their history is "" without a memory manager. With one, it is the stored history's text after the user's message was appended (src/bot/handlers.py:94-96 and 240, src/bot/message_handler.py:22-23 and 169). `Dispatch.ReceiveMessage` performs those two steps on a `MemoryManager`. Every property proved about the dispatchers holds for all sessions, these included.
- Telegram I/O, the language-model agents (router, answer, language validator, retriever), the logger agent and `asyncio`. Their results are inputs (`Outcomes`, `LanguageCheck`, `RouterRun`, `Retrieval`, `matches`). Replies are `Effect` values, with `NoticeText` giving the fixed wording.
- `REPLY_ON_NO_MATCH` is read at src/bot/message_handler.py:96 but defined nowhere: `Config` (src/bot/config.py:27-48) has no such attribute. As written, every decision without a matched rule raises `AttributeError` there, and the catch-all of `handle_text_message` (src/bot/message_handler.py:85-87) answers with the unexpected-error reply. `MessageHandler.NoMatchPolicy` and `MessageHandler.DecisionEffects` take the flag as the parameter `replyOnNoMatch` and model the evident intent; the as-written failure is not modelled.
- JSON reading and `RouterDecision.model_validate_json` are the input `validate`. `Handlers.SchemaValidator` ties it to `RouterModels.ParseDecision` over a JSON reader `json`, which is also an input.
- The `json.JSONDecodeError` branches (src/bot/handlers.py:218-221, src/bot/message_handler.py:82-84) are unreachable: pydantic reports malformed JSON as a `ValidationError`. Unreadable output therefore gets the generic unexpected-error reply.
- YAML and file reading are out of the model. A rules file is a `Source`, a prompts file a `PromptSource`, and a parsed document a `Value`.
- Pydantic's lax coercions (for example "1" for an int) are left out: only native YAML types are accepted. A condition without `type` is tried against the three variants from left to right.
- Pydantic's error texts are left out. An error records only its kind and the first failing position. Messages embed the position, not the full report.
- Exceptions other than the modelled ones are left out. That covers Python `TypeError`s on non-string values, Telegram send failures and exceptions raised inside a dispatch branch.
- `int()` also accepts non-ASCII decimal digits (for example Arabic-Indic digits) in an administrator id; `Strings.ParseInt` accepts ASCII digits only, so such an id counts as a malformed segment here.
- Regular-expression compilation, duplicate rule ids and a non-empty forward destination are not checked at load time, as in the source.
- `RouterDecisionParams`, `ReplyHandoffData`, `InteractionLog` and the decision's `behavioral_rule_ids` are not defined in the repository. They are modelled as the records their users need (`DecisionParams`, `AnswerPrompt.HandoffData`, `Decision.behavioralRuleIds`). `InteractionLog` is reduced to whether logging succeeded.
- The router prompt's prose is left out, as is the exact `json.dumps` rendering of the rules. The rules section is the list of dumped rules (`Router.RulesSection`).
- `handlers.py` runs the router without the history context. The model passes no history there; the router's history section is modelled for a given context.
- In `message_handler.py`, only the parts of `handle_text_message` that it shares with `handlers.py` are modelled: the fence clean-up at line 65 and the decision execution. The log record is left out.
- Floating-point scores and their `:.2f` formatting are left out. A document carries an integer sort key and a given label.
- Timestamps in memory entries and interaction logs are left out.
- `_init_action_params` rewriting the input dictionary and `execute_router_decision` assigning `params.system_prompt_key` are modelled functionally, as new values. In-place aliasing is therefore not captured.
- `/start`, `/help`, the bot wiring in `main.py` and `telegram_bot.py`, and the vector store are not part of this model.
- Memory.Truncate: the contract covers bounds of 0 and above only; for a negative bound the body follows Python's slice but nothing is proved about it. `NUM_STORED_MESSAGES` comes from `src/utils/config.py`, whose comment at `src/utils/memory_manager.py:8` says it is 10.
- Prompts.PromptManager.LoadPrompts: the source's "file exists" check and its read are one step here (`PromptSource`).
