/** Plugins supply rules; loading a plugin registers its rules in the order
    it lists them, and loading several plugins loads them left to right.
    The core plugin supplies the five built-in rules. */
module Plugins {
  import opened Wrappers
  import opened Rules
  import opened Registry

  /** A plugin: its name, its version and the rules `getRules` returns. */
  datatype Plugin = Plugin(name: string, version: string, rules: seq<Rule>)

  /** The core plugin. */
  const Core := Plugin("core", "1.0.0", [Indentation, LineEnding, TrailingWhitespace, FinalNewline, MaxLineLength])

  /** The registry after registering `rs` one after another. */
  function InsertAll(st: RegistryState, rs: seq<Rule>): RegistryState
  {
    if rs == [] then st else Insert(InsertAll(st, rs[..|rs| - 1]), rs[|rs| - 1])
  }

  /** The rules of the plugins, plugin after plugin. */
  function RulesOf(plugins: seq<Plugin>): seq<Rule>
  {
    if plugins == [] then [] else RulesOf(plugins[..|plugins| - 1]) + plugins[|plugins| - 1].rules
  }

  /** The registry after loading `plugins` one after another. */
  function LoadAll(st: RegistryState, plugins: seq<Plugin>): RegistryState
  {
    if plugins == [] then st else InsertAll(LoadAll(st, plugins[..|plugins| - 1]), plugins[|plugins| - 1].rules)
  }

  function Names(rs: seq<Rule>): (ns: seq<string>)
    ensures |ns| == |rs| && forall i | 0 <= i < |rs| :: ns[i] == rs[i].Name()
  {
    seq(|rs|, i requires 0 <= i < |rs| => rs[i].Name())
  }

  /** The index of the last rule in `rs` named `name`, or -1. */
  function LastIndex(rs: seq<Rule>, name: string): (k: int)
    ensures -1 <= k < |rs|
    ensures k >= 0 ==> rs[k].Name() == name
    ensures forall i | k < i < |rs| :: rs[i].Name() != name
  {
    if rs == [] then -1
    else if rs[|rs| - 1].Name() == name then |rs| - 1
    else LastIndex(rs[..|rs| - 1], name)
  }

  /** The last rule in `rs` named `name`, if any. */
  function LastNamed(rs: seq<Rule>, name: string): Option<Rule>
  {
    var k := LastIndex(rs, name);
    if k == -1 then None else Some(rs[k])
  }

  /** Registering a list of rules keeps the registry well formed. */
  lemma {:induction false} InsertAllWellFormed(st: RegistryState, rs: seq<Rule>)
    requires WellFormed(st)
    ensures WellFormed(InsertAll(st, rs))
    decreases |rs|
  {
    if rs != [] {
      InsertAllWellFormed(st, rs[..|rs| - 1]);
    }
  }

  /** After registering a list, a name resolves to the last rule of the
      list carrying it, and to what it resolved to before when no rule of
      the list carries it. */
  lemma {:induction false} InsertAllGet(st: RegistryState, rs: seq<Rule>, name: string)
    ensures Get(InsertAll(st, rs), name) == if LastNamed(rs, name).Some? then LastNamed(rs, name) else Get(st, name)
    decreases |rs|
  {
    if rs != [] {
      InsertAllGet(st, rs[..|rs| - 1], name);
    }
  }

  lemma {:induction false} InsertAllAppend(st: RegistryState, a: seq<Rule>, b: seq<Rule>)
    ensures InsertAll(st, a + b) == InsertAll(InsertAll(st, a), b)
    decreases |b|
  {
    if b == [] {
      assert a + b == a;
    } else {
      assert (a + b)[..|a + b| - 1] == a + b[..|b| - 1];
      InsertAllAppend(st, a, b[..|b| - 1]);
    }
  }

  /** Loading plugins is registering all their rules in plugin order. */
  lemma {:induction false} LoadAllIsInsertAll(st: RegistryState, plugins: seq<Plugin>)
    ensures LoadAll(st, plugins) == InsertAll(st, RulesOf(plugins))
    decreases |plugins|
  {
    if plugins != [] {
      var init := plugins[..|plugins| - 1];
      LoadAllIsInsertAll(st, init);
      InsertAllAppend(st, RulesOf(init), plugins[|plugins| - 1].rules);
    }
  }

  /** After loading two plugins, a name both supply resolves to the second
      plugin's rule; a name only the first supplies keeps its rule. */
  lemma LaterPluginWins(st: RegistryState, first: Plugin, second: Plugin, name: string)
    ensures LastNamed(second.rules, name).Some? ==>
      Get(LoadAll(st, [first, second]), name) == LastNamed(second.rules, name)
    ensures LastNamed(second.rules, name).None? && LastNamed(first.rules, name).Some? ==>
      Get(LoadAll(st, [first, second]), name) == LastNamed(first.rules, name)
  {
    assert [first, second][..1] == [first];
    assert [first][..0] == [];
    assert LoadAll(st, [first]) == InsertAll(st, first.rules);
    assert LoadAll(st, [first, second]) == InsertAll(InsertAll(st, first.rules), second.rules);
    InsertAllGet(InsertAll(st, first.rules), second.rules, name);
    InsertAllGet(st, first.rules, name);
  }

  /** Starting from an empty registry, a name is registered after loading
      exactly when some loaded plugin supplies a rule with that name. */
  lemma Available(plugins: seq<Plugin>, name: string)
    ensures Get(LoadAll(Empty, plugins), name).Some? <==> name in Names(RulesOf(plugins))
  {
    LoadAllIsInsertAll(Empty, plugins);
    InsertAllGet(Empty, RulesOf(plugins), name);
    var rs := RulesOf(plugins);
    if name in Names(rs) {
      var i :| 0 <= i < |rs| && Names(rs)[i] == name;
      assert rs[i].Name() == name;
    }
  }

  /** The position of the first occurrence of `x` in `xs`. */
  function FirstPos(xs: seq<string>, x: string): (k: nat)
    requires x in xs
    ensures k < |xs| && xs[k] == x && x !in xs[..k]
  {
    if xs[0] == x then 0
    else
      var k := FirstPos(xs[1..], x);
      assert xs[1..][..k] == xs[1..k + 1];
      k + 1
  }

  /** Appending an element keeps the first occurrence of any element
      already present. */
  lemma {:induction false} FirstPosPrefix(xs: seq<string>, y: string, x: string)
    requires x in xs
    ensures x in xs + [y] && FirstPos(xs + [y], x) == FirstPos(xs, x)
    decreases |xs|
  {
    assert (xs + [y])[0] == xs[0];
    if xs[0] != x {
      assert x in xs[1..];
      assert (xs + [y])[1..] == xs[1..] + [y];
      FirstPosPrefix(xs[1..], y, x);
    }
  }

  lemma NamesSnoc(rs: seq<Rule>)
    requires rs != []
    ensures Names(rs) == Names(rs[..|rs| - 1]) + [rs[|rs| - 1].Name()]
  {
  }

  /** Registering into an empty registry lists exactly the registered
      names. */
  lemma {:induction false} OrderMembers(rs: seq<Rule>)
    ensures WellFormed(InsertAll(Empty, rs))
    ensures forall n :: n in InsertAll(Empty, rs).order <==> n in Names(rs)
    decreases |rs|
  {
    InsertAllWellFormed(Empty, rs);
    if rs != [] {
      OrderMembers(rs[..|rs| - 1]);
      NamesSnoc(rs);
    }
  }

  /** `order` lists names of `ns` in the order of their first occurrence
      in `ns`. */
  predicate FirstOccurrenceOrder(order: seq<string>, ns: seq<string>)
  {
    && (forall i | 0 <= i < |order| :: order[i] in ns)
    && (forall i, j | 0 <= i < j < |order| :: FirstPos(ns, order[i]) < FirstPos(ns, order[j]))
  }

  lemma KeepOrder(order: seq<string>, ns: seq<string>, y: string)
    requires FirstOccurrenceOrder(order, ns)
    ensures FirstOccurrenceOrder(order, ns + [y])
  {
    forall n | n in ns ensures n in ns + [y] && FirstPos(ns + [y], n) == FirstPos(ns, n) {
      FirstPosPrefix(ns, y, n);
    }
    forall i | 0 <= i < |order| ensures order[i] in ns + [y] && FirstPos(ns + [y], order[i]) == FirstPos(ns, order[i]) {
      FirstPosPrefix(ns, y, order[i]);
    }
  }

  lemma AppendNew(order: seq<string>, ns: seq<string>, y: string)
    requires FirstOccurrenceOrder(order, ns)
    requires y !in ns
    ensures FirstOccurrenceOrder(order + [y], ns + [y])
  {
    KeepOrder(order, ns, y);
    var ns', order' := ns + [y], order + [y];
    assert FirstPos(ns', y) == |ns| by {
      assert ns'[|ns|] == y;
      assert ns'[..|ns|] == ns;
    }
    forall i | 0 <= i < |order'| ensures order'[i] in ns' {
      if i < |order| { assert order'[i] == order[i]; }
    }
    forall i, j | 0 <= i < j < |order'| ensures FirstPos(ns', order'[i]) < FirstPos(ns', order'[j]) {
      assert order'[i] == order[i];
      if j < |order| {
        assert order'[j] == order[j];
      }
    }
  }

  /** Registering into an empty registry lists each distinct name once, in
      the order of its first registration. */
  lemma {:induction false} OrderOfFirstRegistration(rs: seq<Rule>)
    ensures FirstOccurrenceOrder(InsertAll(Empty, rs).order, Names(rs))
    decreases |rs|
  {
    if rs != [] {
      var init, last := rs[..|rs| - 1], rs[|rs| - 1];
      OrderOfFirstRegistration(init);
      OrderMembers(init);
      NamesSnoc(rs);
      if last.Name() in InsertAll(Empty, init).rules {
        KeepOrder(InsertAll(Empty, init).order, Names(init), last.Name());
      } else {
        AppendNew(InsertAll(Empty, init).order, Names(init), last.Name());
      }
    }
  }

  /** Rules with pairwise distinct names are listed in their own order. */
  lemma {:induction false} DistinctOrder(rs: seq<Rule>)
    requires forall i, j | 0 <= i < j < |rs| :: rs[i].Name() != rs[j].Name()
    ensures InsertAll(Empty, rs).order == Names(rs)
    decreases |rs|
  {
    if rs != [] {
      var init := rs[..|rs| - 1];
      DistinctOrder(init);
      OrderMembers(init);
      NamesSnoc(rs);
      assert rs[|rs| - 1].Name() !in Names(init);
    }
  }

  /** The core plugin's identity and its five rules, in order. */
  lemma CoreFacts()
    ensures Core.name == "core" && Core.version == "1.0.0"
    ensures |Core.rules| == 5
    ensures Names(Core.rules) == ["indentation", "line-ending", "trailing-whitespace", "final-newline", "max-line-length"]
    ensures forall i, j | 0 <= i < j < 5 :: Core.rules[i].Name() != Core.rules[j].Name()
  {
    BuiltinNamesDistinct();
  }

  /** With pairwise distinct names, a rule is the last one under its name. */
  lemma LastNamedDistinct(rs: seq<Rule>, i: nat)
    requires forall a, b | 0 <= a < b < |rs| :: rs[a].Name() != rs[b].Name()
    requires i < |rs|
    ensures LastNamed(rs, rs[i].Name()) == Some(rs[i])
  {
    var k := LastIndex(rs, rs[i].Name());
    assert i <= k;
  }

  /** Loading the core plugin into an empty registry gives five entries,
      listed in the plugin's order, each name resolving to its rule. */
  lemma CoreLoaded()
    ensures WellFormed(LoadAll(Empty, [Core]))
    ensures LoadAll(Empty, [Core]).order == Names(Core.rules)
    ensures forall i | 0 <= i < 5 :: Get(LoadAll(Empty, [Core]), Core.rules[i].Name()) == Some(Core.rules[i])
    ensures forall n | n !in Names(Core.rules) :: Get(LoadAll(Empty, [Core]), n) == None
  {
    CoreFacts();
    var rs := Core.rules;
    assert [Core][..0] == [];
    assert LoadAll(Empty, [Core]) == InsertAll(Empty, rs);
    InsertAllWellFormed(Empty, rs);
    DistinctOrder(rs);
    forall n ensures Get(InsertAll(Empty, rs), n) == LastNamed(rs, n) {
      InsertAllGet(Empty, rs, n);
    }
    forall i | 0 <= i < 5 ensures Get(InsertAll(Empty, rs), rs[i].Name()) == Some(rs[i]) {
      LastNamedDistinct(rs, i);
    }
  }

  /** The formatter's `PluginManager`, holding the registry it loads
      into. */
  class PluginManager {
    const registry: RuleRegistry

    constructor(registry: RuleRegistry)
      ensures this.registry == registry
    {
      this.registry := registry;
    }

    /** `loadPlugin`: registers the plugin's rules in order. */
    method LoadPlugin(plugin: Plugin)
      requires registry.Valid()
      modifies registry
      ensures registry.Valid()
      ensures registry.State() == InsertAll(old(registry.State()), plugin.rules)
    {
      var rules := plugin.rules;
      for i := 0 to |rules|
        invariant registry.Valid()
        invariant registry.State() == InsertAll(old(registry.State()), rules[..i])
      {
        assert rules[..i + 1][..i] == rules[..i];
        registry.Register(rules[i]);
      }
      assert rules[..|rules|] == rules;
    }

    /** `loadPlugins`: loads the plugins left to right. */
    method LoadPlugins(plugins: seq<Plugin>)
      requires registry.Valid()
      modifies registry
      ensures registry.Valid()
      ensures registry.State() == LoadAll(old(registry.State()), plugins)
    {
      for i := 0 to |plugins|
        invariant registry.Valid()
        invariant registry.State() == LoadAll(old(registry.State()), plugins[..i])
      {
        assert plugins[..i + 1][..i] == plugins[..i];
        LoadPlugin(plugins[i]);
      }
      assert plugins[..|plugins|] == plugins;
    }
  }
}
