/** `src/prompts/manager.py`: the prompt table loaded once from `prompts.yaml`, and
    lookup with fallbacks. A table entry is a template or YAML null. */
module Prompts {
  import opened Wrappers

  /** What reading the prompts file produced. */
  datatype PromptSource =
    | Missing
    | YamlError
    | ReadError
    | NotADict
    | Table(entries: map<string, Option<string>>)

  const DefaultKey := "default_prompt"
  const BuiltInPrompt := "You are a helpful assistant."

  /** `get_prompt`: the template stored under the key; for an unknown key, a null
      entry or no key at all, whatever is stored under "default_prompt" (which may
      itself be null); with no such entry, the built-in prompt. */
  function Lookup(table: map<string, Option<string>>, key: Option<string>): (r: Option<string>)
    ensures key.Some? && key.value in table && table[key.value].Some? ==> r == table[key.value]
    ensures r.Some? ==> r.value == BuiltInPrompt || exists k :: k in table && table[k] == r
  {
    if key.Some? && key.value in table && table[key.value].Some? then table[key.value]
    else if DefaultKey in table then table[DefaultKey]
    else Some(BuiltInPrompt)
  }

  class PromptManager {
    var prompts: map<string, Option<string>>

    constructor()
      ensures prompts == map[]
    {
      prompts := map[];
    }

    /** `_load_prompts`: a missing file, a YAML error or any other failure leaves an
        empty table; a document that is not a mapping leaves the table as it was. */
    method LoadPrompts(src: PromptSource)
      modifies this
      ensures src.Table? ==> prompts == src.entries
      ensures src.NotADict? ==> prompts == old(prompts)
      ensures src.Missing? || src.YamlError? || src.ReadError? ==> prompts == map[]
    {
      match src {
        case Missing => prompts := map[];
        case NotADict =>
        case Table(entries) => prompts := entries;
        case YamlError => prompts := map[];
        case ReadError => prompts := map[];
      }
    }

    function GetPrompt(key: Option<string>): Option<string>
      reads this
    {
      Lookup(prompts, key)
    }
  }

  /** The class-level singleton slot of `PromptManager`. */
  class PromptRegistry {
    var instance: PromptManager?

    constructor()
      ensures instance == null
    {
      instance := null;
    }

    /** `PromptManager()`: the first call creates the manager and loads the file; every
        later call returns that same manager without reading the file again. */
    method Instance(src: PromptSource) returns (m: PromptManager)
      modifies this
      ensures old(instance) == null ==> fresh(m) && m.prompts == (if src.Table? then src.entries else map[])
      ensures old(instance) != null ==> m == old(instance) && m.prompts == old(instance.prompts)
      ensures instance == m
    {
      if instance == null {
        var created := new PromptManager();
        created.LoadPrompts(src);
        instance := created;
      }
      m := instance;
    }
  }

  /** Lookup yields None exactly when "default_prompt" is stored as null and the key
      itself has no template; it yields the built-in prompt whenever neither the key
      nor "default_prompt" is present. */
  lemma LookupFallbacks(table: map<string, Option<string>>, key: Option<string>)
    ensures var found := key.Some? && key.value in table && table[key.value].Some?;
      && (Lookup(table, key).None? <==> !found && DefaultKey in table && table[DefaultKey].None?)
      && (!found && DefaultKey in table ==> Lookup(table, key) == table[DefaultKey])
      && (!found && DefaultKey !in table ==> Lookup(table, key) == Some(BuiltInPrompt))
  {
  }

  /** Looking up "default_prompt" itself never yields None unless that entry is null. */
  lemma DefaultLookup(table: map<string, Option<string>>)
    ensures Lookup(table, Some(DefaultKey)) ==
            (if DefaultKey in table then table[DefaultKey] else Some(BuiltInPrompt))
  {
  }
}
