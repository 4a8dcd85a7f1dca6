/** `src/rules_manager/manager.py`: loading the rules file, the active rule list
    kept by `RulesManager`, lookup by id and reload with rollback. Reading and
    parsing the YAML file is outside the model: each load is given the outcome of
    that step as a `Source`. */
module RulesStore {
  import opened Wrappers
  import opened Strings
  import opened RuleModels
  import StableSort

  /** What reading the rules file produced: no file, a YAML syntax error (with the
      parser's message), or a parsed document. */
  datatype Source = NotFound | ParseError(detail: string) | Parsed(doc: Value)

  /** Errors other than the expected three kinds: Python's TypeError for `'rules' in`
      a number or bool, and for `RulesConfig(**doc)` on a document that is not a mapping. */
  datatype Unexpected = NotIterable(typeName: string) | NotAMapping(typeName: string)

  /** What pydantic rejected: the `rules` value itself, or the first bad rule. */
  datatype ValidationProblem = RulesNotAList | BadRule(index: nat, reason: RuleError)

  /** The kinds of `RulesFileError`. */
  datatype LoadError =
    | FileNotFound(path: string)
    | YamlError(path: string, detail: string)
    | ValidationError(path: string, problem: ValidationProblem)
    | UnexpectedError(cause: Unexpected)

  /** The sort key of `load_rules`. */
  function Priority(r: Rule): int {
    r.priority
  }

  function TypeName(v: Value): string {
    match v
    case Null => "NoneType"
    case Bool(_) => "bool"
    case Int(_) => "int"
    case Str(_) => "str"
    case List(_) => "list"
    case Dict(_) => "dict"
  }

  /** Every item read by `parse`, or the position and error of the first one rejected. */
  function ParseEach<T, E>(items: seq<Value>, parse: Value -> Result<T, E>): (r: Result<seq<T>, (nat, E)>)
    ensures r.Success? ==> |r.value| == |items|
    ensures r.Success? ==> forall i :: 0 <= i < |items| ==> parse(items[i]) == Success(r.value[i])
    ensures r.Failure? ==> r.error.0 < |items| && parse(items[r.error.0]) == Failure(r.error.1)
    ensures r.Failure? ==> forall i :: 0 <= i < r.error.0 ==> parse(items[i]).Success?
    decreases |items|
  {
    if items == [] then Success([])
    else match parse(items[0])
      case Failure(e) => Failure((0, e))
      case Success(x) =>
        match ParseEach(items[1..], parse)
        case Success(rest) =>
          assert forall i :: 1 <= i < |items| ==> items[i] == items[1..][i - 1];
          Success([x] + rest)
        case Failure((i, e)) =>
          assert forall j :: 1 <= j < i + 1 ==> items[j] == items[1..][j - 1];
          Failure((i + 1, e))
  }

  /** `RulesConfig(rules=items)`: every rule validated, or the first one rejected. */
  function ParseRules(items: seq<Value>): (r: Result<seq<Rule>, (nat, RuleError)>)
    ensures r.Success? ==> |r.value| == |items|
    ensures r.Success? ==> forall i :: 0 <= i < |items| ==> ParseRule(items[i]) == Success(r.value[i])
    ensures r.Failure? ==> r.error.0 < |items| && ParseRule(items[r.error.0]) == Failure(r.error.1)
    ensures r.Failure? ==> forall i :: 0 <= i < r.error.0 ==> ParseRule(items[i]).Success?
  {
    ParseEach(items, ParseRule)
  }

  /** Python's `'rules' in raw_config` for a truthy document. */
  function HasRulesKey(doc: Value): Result<bool, Unexpected> {
    match doc
    case Dict(fields) => Success("rules" in fields)
    case List(items) => Success(Str("rules") in items)
    case Str(s) => Success(Contains(s, "rules"))
    case Int(_) => Failure(NotIterable("int"))
    case Bool(_) => Failure(NotIterable("bool"))
    case Null => Failure(NotIterable("NoneType"))
  }

  lemma SortedValid(rules: seq<Rule>)
    requires forall i :: 0 <= i < |rules| ==> ValidRule(rules[i])
    ensures var sorted := StableSort.Sort(rules, Priority);
      StableSort.SortedBy(sorted, Priority) && forall i :: 0 <= i < |sorted| ==> ValidRule(sorted[i])
  {
    var sorted := StableSort.Sort(rules, Priority);
    StableSort.SortSortedPermutation(rules, Priority);
    forall i | 0 <= i < |sorted| ensures ValidRule(sorted[i]) {
      assert sorted[i] in multiset(rules);
    }
  }

  /** `load_rules` as a value: the sorted rule list it stores, or the
      `RulesFileError` it raises. */
  function Load(path: string, src: Source): (r: Result<seq<Rule>, LoadError>)
    ensures r.Success? ==> StableSort.SortedBy(r.value, Priority)
    ensures r.Success? ==> forall i :: 0 <= i < |r.value| ==> ValidRule(r.value[i])
  {
    match src
    case NotFound => Failure(FileNotFound(path))
    case ParseError(detail) => Failure(YamlError(path, detail))
    case Parsed(doc) =>
      if !Truthy(doc) then Success([])
      else match HasRulesKey(doc)
        case Failure(cause) => Failure(UnexpectedError(cause))
        case Success(present) =>
          if !present then Success([])
          else if !doc.Dict? then Failure(UnexpectedError(NotAMapping(TypeName(doc))))
          else match doc.fields["rules"]
            case List(items) =>
              (match ParseRules(items)
               case Success(rules) =>
                 SortedValid(rules);
                 Success(StableSort.Sort(rules, Priority))
               case Failure((i, e)) => Failure(ValidationError(path, BadRule(i, e))))
            case _ => Failure(ValidationError(path, RulesNotAList))
  }

  /** The text of the `RulesFileError` raised for each kind of failure. */
  function ErrorMessage(e: LoadError): string {
    match e
    case FileNotFound(path) => "Rules file not found: " + path
    case YamlError(path, detail) => "Error parsing YAML from " + path + ": " + detail
    case ValidationError(path, problem) =>
      "Validation error for rules in " + path + ": " +
      (match problem
       case RulesNotAList => "rules"
       case BadRule(i, _) => "rules." + IntToString(i))
    case UnexpectedError(cause) =>
      "An unexpected error occurred: " +
      (match cause
       case NotIterable(t) => "argument of type '" + t + "' is not iterable"
       case NotAMapping(t) => "src.rules_manager.models.RulesConfig() argument after ** must be a mapping, not " + t)
  }

  /** `get_rule_by_id` as a value: None for an empty id, otherwise the first rule
      in `rules` with that id. */
  function FindRule(rules: seq<Rule>, ruleId: string): (r: Option<Rule>)
    ensures ruleId == "" ==> r.None?
    ensures r.Some? ==> exists k :: 0 <= k < |rules| && rules[k] == r.value &&
                          r.value.ruleId == ruleId &&
                          forall j :: 0 <= j < k ==> rules[j].ruleId != ruleId
    ensures r.None? && ruleId != "" ==> forall j :: 0 <= j < |rules| ==> rules[j].ruleId != ruleId
    decreases |rules|
  {
    if ruleId == "" || rules == [] then None
    else if rules[0].ruleId == ruleId then Some(rules[0])
    else
      var r := FindRule(rules[1..], ruleId);
      assert r.Some? ==> exists k :: 1 <= k < |rules| && rules[k] == r.value &&
                          forall j :: 0 <= j < k ==> rules[j].ruleId != ruleId by {
        if r.Some? {
          var k :| 0 <= k < |rules[1..]| && rules[1..][k] == r.value &&
                   forall j :: 0 <= j < k ==> rules[1..][j].ruleId != ruleId;
          assert rules[k + 1] == r.value;
          forall j | 0 <= j < k + 1 ensures rules[j].ruleId != ruleId {
            if j > 0 { assert rules[j] == rules[1..][j - 1]; }
          }
        }
      }
      r
  }

  /** `RulesManager`: the active, priority-ordered rule list. */
  class RulesManager {
    const rulesFilePath: string
    var rules: seq<Rule>

    /** Every rule in the active list is valid and the list is ordered by priority. */
    ghost predicate Valid()
      reads this
    {
      && StableSort.SortedBy(rules, Priority)
      && forall i :: 0 <= i < |rules| ==> ValidRule(rules[i])
    }

    /** The part of `__init__` before the first load: an empty rule list. */
    constructor Init(path: string)
      ensures rulesFilePath == path && rules == [] && Valid()
    {
      rulesFilePath := path;
      rules := [];
    }

    /** `RulesManager(path)`: construction loads the file and raises when the load fails. */
    static method Create(path: string, src: Source) returns (r: Result<RulesManager, LoadError>)
      ensures r.Success? <==> Load(path, src).Success?
      ensures r.Success? ==> fresh(r.value) && r.value.Valid()
      ensures r.Success? ==> r.value.rulesFilePath == path && r.value.rules == Load(path, src).value
      ensures r.Failure? ==> r.error == Load(path, src).error
    {
      var manager := new RulesManager.Init(path);
      var loaded := manager.LoadRules(src);
      if loaded.Failure? {
        return Failure(loaded.error);
      }
      return Success(manager);
    }

    /** `load_rules`: the active list is replaced only once the whole file has been
        validated and sorted; on any failure it is left as it was. */
    method LoadRules(src: Source) returns (r: Result<seq<Rule>, LoadError>)
      requires Valid()
      modifies this
      ensures r == Load(rulesFilePath, src)
      ensures rules == if r.Success? then r.value else old(rules)
      ensures Valid()
    {
      r := Load(rulesFilePath, src);
      if r.Success? {
        rules := r.value;
      }
    }

    /** `get_rules`. */
    function GetRules(): (r: seq<Rule>)
      reads this
      requires Valid()
      ensures StableSort.SortedBy(r, Priority)
      ensures forall i :: 0 <= i < |r| ==> ValidRule(r[i])
    {
      rules
    }

    /** `get_rule_by_id`: a linear scan that returns at the first rule with the id. */
    method GetRuleById(ruleId: string) returns (r: Option<Rule>)
      ensures r == FindRule(rules, ruleId)
    {
      if ruleId == "" {
        return None;
      }
      var i := 0;
      while i < |rules|
        invariant 0 <= i <= |rules|
        invariant FindRule(rules, ruleId) == FindRule(rules[i..], ruleId)
      {
        if rules[i].ruleId == ruleId {
          return Some(rules[i]);
        }
        assert rules[i..][1..] == rules[i + 1..];
        i := i + 1;
      }
      return None;
    }

    /** `reload_rules`: True and the new list active, or False and the list exactly as
        it was before the call. */
    method ReloadRules(src: Source) returns (ok: bool)
      requires Valid()
      modifies this
      ensures ok == Load(rulesFilePath, src).Success?
      ensures ok ==> rules == Load(rulesFilePath, src).value
      ensures !ok ==> rules == old(rules)
      ensures Valid()
    {
      var backup := rules;
      var loaded := LoadRules(src);
      if loaded.Success? {
        return true;
      }
      rules := backup;
      return false;
    }
  }

  // ---------------------------------------------------------------------------
  // Properties of loading

  /** An empty document, or one without a `rules` key, loads as zero rules. */
  lemma EmptyDocumentLoadsNoRules(path: string, doc: Value)
    requires !Truthy(doc) || (doc.Dict? && "rules" !in doc.fields)
    ensures Load(path, Parsed(doc)) == Success([])
  {
  }

  /** A loaded rule list is the file's rules in ascending priority, ties in file order. */
  lemma LoadedRulesOrder(path: string, fields: map<string, Value>, items: seq<Value>)
    requires "rules" in fields && fields["rules"] == List(items)
    requires ParseRules(items).Success?
    ensures var loaded := Load(path, Parsed(Dict(fields)));
      && loaded.Success?
      && StableSort.SortedBy(loaded.value, Priority)
      && multiset(loaded.value) == multiset(ParseRules(items).value)
      && forall p :: StableSort.WithKey(loaded.value, Priority, p) == StableSort.WithKey(ParseRules(items).value, Priority, p)
  {
    var parsed := ParseRules(items).value;
    assert Truthy(Dict(fields));
    StableSort.SortSortedPermutation(parsed, Priority);
    forall p ensures StableSort.WithKey(StableSort.Sort(parsed, Priority), Priority, p) == StableSort.WithKey(parsed, Priority, p) {
      StableSort.SortStable(parsed, Priority, p);
    }
  }

  /** One invalid rule fails the whole load, naming its position. */
  lemma InvalidRuleFailsLoad(path: string, fields: map<string, Value>, items: seq<Value>, k: nat)
    requires "rules" in fields && fields["rules"] == List(items)
    requires k < |items| && ParseRule(items[k]).Failure?
    ensures var loaded := Load(path, Parsed(Dict(fields)));
      && loaded.Failure?
      && loaded.error.ValidationError?
      && loaded.error.problem.BadRule?
      && loaded.error.problem.index <= k
      && ParseRule(items[loaded.error.problem.index]).Failure?
  {
    assert Truthy(Dict(fields));
  }

  /** Which message each kind of failure produces. */
  lemma FailureMessages(path: string, src: Source)
    requires Load(path, src).Failure?
    ensures var msg := ErrorMessage(Load(path, src).error);
      && (src.NotFound? ==> msg == "Rules file not found: " + path)
      && (src.ParseError? ==> StartsWith(msg, "Error parsing YAML from " + path))
      && (src.Parsed? ==> StartsWith(msg, "Validation error for rules in " + path)
                          || StartsWith(msg, "An unexpected error occurred: "))
  {
    FailureKinds(path, src);
    MessagePrefixes(Load(path, src).error);
  }

  /** The kind of failure each source gives, and the path it names. */
  lemma FailureKinds(path: string, src: Source)
    requires Load(path, src).Failure?
    ensures var e := Load(path, src).error;
      && (src.NotFound? ==> e == FileNotFound(path))
      && (src.ParseError? ==> e == YamlError(path, src.detail))
      && (src.Parsed? ==> (e.ValidationError? && e.path == path) || e.UnexpectedError?)
  {
  }

  /** Each failure's message begins with the text for its kind. */
  lemma MessagePrefixes(e: LoadError)
    ensures e.FileNotFound? ==> ErrorMessage(e) == "Rules file not found: " + e.path
    ensures e.YamlError? ==> StartsWith(ErrorMessage(e), "Error parsing YAML from " + e.path)
    ensures e.ValidationError? ==> StartsWith(ErrorMessage(e), "Validation error for rules in " + e.path)
    ensures e.UnexpectedError? ==> StartsWith(ErrorMessage(e), "An unexpected error occurred: ")
  {
    var msg := ErrorMessage(e);
    match e {
      case FileNotFound(_) =>
      case YamlError(path, d) =>
        PrefixStartsWith("Error parsing YAML from " + path, ": " + d);
        assert msg == ("Error parsing YAML from " + path) + (": " + d);
      case ValidationError(path, problem) =>
        var t := msg[|"Validation error for rules in " + path|..];
        assert msg == ("Validation error for rules in " + path) + t;
        PrefixStartsWith("Validation error for rules in " + path, t);
      case UnexpectedError(cause) =>
        var t := msg[|"An unexpected error occurred: "|..];
        assert msg == "An unexpected error occurred: " + t;
        PrefixStartsWith("An unexpected error occurred: ", t);
    }
  }
}
