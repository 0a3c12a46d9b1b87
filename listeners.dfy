/**
 * The listener base class and the configuration object it reconciles: a
 * listener with a name and declared configuration items makes sure its section
 * exists and invokes a key's setup function only when the key is missing.
 */
module Listeners {
  import opened Wrappers
  import opened Facts

  /** The contents of a configuration file: section name to (option name to value). */
  type Sections = map<string, map<string, string>>

  /**
   * One entry of a listener's declared configuration. `sensitive` is declared
   * data only; reconciliation does not look at it.
   */
  datatype ConfigItem = ConfigItem(key: string, sensitive: bool)

  /** The keys a listener declares. */
  function KeysOf(items: seq<ConfigItem>): set<string> {
    if |items| == 0 then {} else KeysOf(items[..|items| - 1]) + {items[|items| - 1].key}
  }

  lemma {:induction false} KeysOfMembers(items: seq<ConfigItem>)
    ensures forall i :: 0 <= i < |items| ==> items[i].key in KeysOf(items)
    ensures forall k :: k in KeysOf(items) ==> exists i :: 0 <= i < |items| && items[i].key == k
  {
    if |items| > 0 {
      var front := items[..|items| - 1];
      KeysOfMembers(front);
      assert forall i :: 0 <= i < |front| ==> front[i] == items[i];
    }
  }

  /** The section `name`, or an empty one when it does not exist yet. */
  function SectionOf(sections: Sections, name: string): map<string, string> {
    if name in sections then sections[name] else map[]
  }

  /** A configuration lookup that reports a missing section or option as `None`. */
  function GetOption(sections: Sections, name: string, key: string): (r: Option<string>)
    ensures r.Some? <==> name in sections && key in sections[name]
    ensures r.Some? ==> r.value == sections[name][key]
  {
    if name in sections && key in sections[name] then Some(sections[name][key]) else None
  }

  predicate Active(name: Option<string>, items: seq<ConfigItem>) {
    name.Some? && |items| > 0
  }

  /**
   * A section after its declared keys have been filled in: values already there
   * are kept, each missing declared key gets what its setup function returns.
   */
  function FilledSection(sec: map<string, string>, items: seq<ConfigItem>, setup: string -> string): map<string, string> {
    map k | k in sec.Keys + KeysOf(items) :: if k in sec then sec[k] else setup(k)
  }

  /** The configuration after a listener named `name` declaring `items` has been configured. */
  function Reconcile(sections: Sections, name: Option<string>, items: seq<ConfigItem>, setup: string -> string): (r: Sections)
    // a listener without a name or without items leaves the configuration alone
    ensures !Active(name, items) ==> r == sections
    // its section exists and holds every declared key
    ensures Active(name, items) ==> name.value in r && KeysOf(items) <= r[name.value].Keys
    // no other section changes, and no section disappears
    ensures forall s :: s in sections && (name.None? || s != name.value) ==> s in r && r[s] == sections[s]
    ensures r.Keys <= sections.Keys + (if Active(name, items) then {name.value} else {})
    // existing values are never overwritten, and keys not declared are not added
    ensures Active(name, items) ==> forall k :: k in SectionOf(sections, name.value) ==>
              k in r[name.value] && r[name.value][k] == SectionOf(sections, name.value)[k]
    ensures Active(name, items) ==> forall k :: k in r[name.value] ==>
              k in SectionOf(sections, name.value) || k in KeysOf(items)
    // a new value is what the key's setup function returned
    ensures Active(name, items) ==> forall k :: k in r[name.value] && k !in SectionOf(sections, name.value) ==>
              r[name.value][k] == setup(k)
  {
    if !Active(name, items) then sections
    else sections[name.value := FilledSection(SectionOf(sections, name.value), items, setup)]
  }

  /**
   * The keys whose setup function runs, in the order they are asked for: a key
   * is asked for when, at its turn, it is neither in the section nor was filled
   * in by an earlier item.
   */
  function Missing(sec: map<string, string>, items: seq<ConfigItem>): seq<string> {
    if |items| == 0 then []
    else
      var front := items[..|items| - 1];
      var k := items[|items| - 1].key;
      if k in sec || k in KeysOf(front) then Missing(sec, front) else Missing(sec, front) + [k]
  }

  /** The keys a listener's `configure` prompts for. */
  function Prompted(sections: Sections, name: Option<string>, items: seq<ConfigItem>): seq<string> {
    if !Active(name, items) then [] else Missing(SectionOf(sections, name.value), items)
  }

  /** Handling item `i` after items `..i`: set its key to the setup value unless it is present. */
  lemma FillStep(sec: map<string, string>, items: seq<ConfigItem>, i: nat, setup: string -> string)
    requires i < |items|
    ensures var cur := FilledSection(sec, items[..i], setup);
            var k := items[i].key;
            && FilledSection(sec, items[..i + 1], setup) == (if k in cur then cur else cur[k := setup(k)])
            && Missing(sec, items[..i + 1]) == (if k in cur then Missing(sec, items[..i]) else Missing(sec, items[..i]) + [k])
  {
    assert items[..i + 1][..i] == items[..i];
  }

  predicate NoDuplicates<T(==)>(s: seq<T>) {
    forall i, j :: 0 <= i < j < |s| ==> s[i] != s[j]
  }

  /** A key is asked for exactly when it is declared and missing, and at most once. */
  lemma {:induction false} MissingExactly(sec: map<string, string>, items: seq<ConfigItem>)
    ensures forall k :: k in Missing(sec, items) <==> k in KeysOf(items) && k !in sec
    ensures NoDuplicates(Missing(sec, items))
  {
    if |items| > 0 {
      var front := items[..|items| - 1];
      MissingExactly(sec, front);
    }
  }

  /** Setup runs only for declared keys the section lacks; each at most once. */
  lemma PromptedExactly(sections: Sections, name: Option<string>, items: seq<ConfigItem>)
    ensures forall k :: k in Prompted(sections, name, items) <==>
      Active(name, items) && k in KeysOf(items) && k !in SectionOf(sections, name.value)
    ensures NoDuplicates(Prompted(sections, name, items))
  {
    if Active(name, items) {
      MissingExactly(SectionOf(sections, name.value), items);
    }
  }

  lemma {:induction false} MissingNone(sec: map<string, string>, items: seq<ConfigItem>)
    requires KeysOf(items) <= sec.Keys
    ensures Missing(sec, items) == []
  {
    if |items| > 0 {
      MissingNone(sec, items[..|items| - 1]);
    }
  }

  /** Every declared key of the listener is present in its section. */
  predicate Configured(sections: Sections, name: Option<string>, items: seq<ConfigItem>) {
    Active(name, items) ==> name.value in sections && KeysOf(items) <= sections[name.value].Keys
  }

  /** An installation that is already configured is neither prompted nor changed. */
  lemma AlreadyConfigured(sections: Sections, name: Option<string>, items: seq<ConfigItem>, setup: string -> string)
    requires Configured(sections, name, items)
    ensures Prompted(sections, name, items) == []
    ensures Reconcile(sections, name, items, setup) == sections
  {
    if Active(name, items) {
      MissingNone(SectionOf(sections, name.value), items);
      var n := name.value;
      assert FilledSection(SectionOf(sections, n), items, setup) == sections[n];
    }
  }

  /** Configuring a second time prompts for nothing and changes nothing. */
  lemma ReconcileIdempotent(sections: Sections, name: Option<string>, items: seq<ConfigItem>, setup: string -> string)
    ensures Prompted(Reconcile(sections, name, items, setup), name, items) == []
    ensures Reconcile(Reconcile(sections, name, items, setup), name, items, setup) == Reconcile(sections, name, items, setup)
  {
    AlreadyConfigured(Reconcile(sections, name, items, setup), name, items, setup);
  }

  /** The configuration object shared by the listeners (the calls the core makes on a RawConfigParser). */
  class ConfigParser {
    var sections: Sections

    constructor (initial: Sections)
      ensures sections == initial
    {
      sections := initial;
    }

    predicate HasSection(name: string)
      reads this
    {
      name in sections
    }

    predicate HasOption(name: string, key: string)
      reads this
    {
      name in sections && key in sections[name]
    }

    /** Adds an empty section; the library raises on a section that already exists. */
    method AddSection(name: string)
      requires name !in sections
      modifies this
      ensures sections == old(sections)[name := map[]]
    {
      sections := sections[name := map[]];
    }

    /** Sets an option; the library raises when the section does not exist. */
    method Set(name: string, key: string, value: string)
      requires name in sections
      modifies this
      ensures sections == old(sections)[name := old(sections)[name][key := value]]
    {
      sections := sections[name := sections[name][key := value]];
    }
  }

  /** A listener: its declared name and configuration items, and the configuration it was handed. */
  class HamsterListener {
    const shortName: Option<string>
    const configValues: seq<ConfigItem>
    /** What each declared key's setup function returns when it is invoked. */
    const setup: string -> string
    var config: ConfigParser?

    constructor (shortName: Option<string>, configValues: seq<ConfigItem>, setup: string -> string)
      ensures this.shortName == shortName && this.configValues == configValues && this.setup == setup
      ensures config == null
    {
      this.shortName := shortName;
      this.configValues := configValues;
      this.setup := setup;
      config := null;
    }

    /**
     * Stores the configuration and reconciles it with the declared items;
     * `prompted` logs the keys whose setup function was invoked.
     */
    method Configure(config: ConfigParser) returns (ghost prompted: seq<string>)
      modifies this, config
      ensures this.config == config
      ensures config.sections == Reconcile(old(config.sections), shortName, configValues, setup)
      ensures prompted == Prompted(old(config.sections), shortName, configValues)
    {
      this.config := config;
      prompted := [];
      if shortName.Some? && |configValues| > 0 {
        var name := shortName.value;
        ghost var before := config.sections;
        if !config.HasSection(name) {
          config.AddSection(name);
        }
        assert config.sections[name] == SectionOf(before, name);
        prompted := FillSection(config, name);
        assert config.sections == before[name := FilledSection(SectionOf(before, name), configValues, setup)];
      }
    }

    /** Sets every declared key that section `name` lacks to its setup value, in declaration order. */
    method FillSection(config: ConfigParser, name: string) returns (ghost prompted: seq<string>)
      requires name in config.sections
      modifies config
      ensures config.sections == old(config.sections)[name := FilledSection(old(config.sections)[name], configValues, setup)]
      ensures prompted == Missing(old(config.sections)[name], configValues)
    {
      ghost var before := config.sections;
      ghost var sec0 := before[name];
      prompted := [];
      assert configValues[..0] == [];
      assert FilledSection(sec0, [], setup) == sec0;
      for i := 0 to |configValues|
        invariant config.sections == before[name := FilledSection(sec0, configValues[..i], setup)]
        invariant prompted == Missing(sec0, configValues[..i])
      {
        var key := configValues[i].key;
        FillStep(sec0, configValues, i, setup);
        if !config.HasOption(name, key) {
          config.Set(name, key, setup(key));
          prompted := prompted + [key];
        }
      }
      assert configValues[..|configValues|] == configValues;
    }

    /** The default preparation hook: it does nothing. */
    method Prepare()
      ensures unchanged(this)
    {
    }

    /** The default notification hooks: they do nothing. */
    method OnFactStarted(fact: Fact)
      ensures unchanged(this)
    {
    }

    method OnFactStopped(fact: Fact)
      ensures unchanged(this)
    {
    }
  }
}
