/** The rule registry: a map from rule name to rule, keyed by the name the
    rule carries. A later registration under a taken name replaces the
    earlier rule and keeps that name's place in the listing order, which is
    the order in which names were first registered. */
module Registry {
  import opened Wrappers
  import opened Rules

  /** The registry's contents: the map and its keys in insertion order. */
  datatype RegistryState = RegistryState(rules: map<string, Rule>, order: seq<string>)

  /** The map's keys are exactly the listed names, each listed once, and
      every rule is filed under its own name. */
  predicate WellFormed(st: RegistryState)
  {
    && (forall k | k in st.rules :: k in st.order)
    && (forall i | 0 <= i < |st.order| :: st.order[i] in st.rules)
    && (forall i, j | 0 <= i < j < |st.order| :: st.order[i] != st.order[j])
    && (forall k | k in st.rules :: st.rules[k].Name() == k)
  }

  const Empty := RegistryState(map[], [])

  /** `rules.get(name)`. */
  function Get(st: RegistryState, name: string): Option<Rule>
  {
    if name in st.rules then Some(st.rules[name]) else None
  }

  /** `rules.set(rule.name, rule)`: the rule is found under its name, every
      other name resolves as before, and the listing order gains the name at
      its end only when the name is new. */
  function Insert(st: RegistryState, rule: Rule): (r: RegistryState)
    ensures Get(r, rule.Name()) == Some(rule)
    ensures forall n | n != rule.Name() :: Get(r, n) == Get(st, n)
    ensures rule.Name() in st.rules ==> r.order == st.order
    ensures rule.Name() !in st.rules ==> r.order == st.order + [rule.Name()]
    ensures WellFormed(st) ==> WellFormed(r)
  {
    var name := rule.Name();
    RegistryState(st.rules[name := rule], if name in st.rules then st.order else st.order + [name])
  }

  /** `Array.from(rules.values())`: the rules in listing order. */
  function All(st: RegistryState): (rs: seq<Rule>)
    requires WellFormed(st)
    ensures |rs| == |st.order|
    ensures forall i | 0 <= i < |rs| :: rs[i].Name() == st.order[i] && Get(st, st.order[i]) == Some(rs[i])
    ensures forall n :: Get(st, n).Some? <==> exists i | 0 <= i < |rs| :: rs[i].Name() == n
  {
    var rs := seq(|st.order|, i requires 0 <= i < |st.order| => st.rules[st.order[i]]);
    assert forall n | Get(st, n).Some? :: exists i | 0 <= i < |rs| :: rs[i].Name() == n by {
      forall n | Get(st, n).Some? ensures exists i | 0 <= i < |rs| :: rs[i].Name() == n {
        var i :| 0 <= i < |st.order| && st.order[i] == n;
        assert rs[i].Name() == n;
      }
    }
    rs
  }

  /** After registering a rule, looking up its name returns it. */
  lemma RegisterThenGet(st: RegistryState, rule: Rule)
    ensures Get(Insert(st, rule), rule.Name()) == Some(rule)
    ensures Get(Insert(st, rule), rule.Name()).value.Name() == rule.Name()
  {
  }

  /** A second rule under the same name replaces the first and adds no
      second listing. */
  lemma SecondRegistrationReplaces(st: RegistryState, first: Rule, second: Rule)
    requires WellFormed(st)
    requires first.Name() == second.Name()
    ensures Get(Insert(Insert(st, first), second), first.Name()) == Some(second)
    ensures |All(Insert(Insert(st, first), second))| == |All(Insert(st, first))|
  {
  }

  /** A fresh registry holds nothing. */
  lemma EmptyHoldsNothing(name: string)
    ensures WellFormed(Empty)
    ensures Get(Empty, name) == None
    ensures All(Empty) == []
  {
  }

  /** The formatter's `RuleRegistry`: the map it updates in place, with its
      keys in insertion order. */
  class RuleRegistry {
    var rules: map<string, Rule>
    var order: seq<string>

    function State(): RegistryState
      reads this
    {
      RegistryState(rules, order)
    }

    predicate Valid()
      reads this
    {
      WellFormed(State())
    }

    constructor()
      ensures Valid() && State() == Empty
    {
      rules := map[];
      order := [];
    }

    /** `register`: files the rule under its own name. */
    method Register(rule: Rule)
      requires Valid()
      modifies this
      ensures Valid()
      ensures State() == Insert(old(State()), rule)
    {
      var name := rule.Name();
      if name !in rules {
        order := order + [name];
      }
      rules := rules[name := rule];
    }

    /** `getRule`: the rule filed under `name`, if any. */
    method GetRule(name: string) returns (rule: Option<Rule>)
      ensures rule == Get(State(), name)
    {
      if name in rules {
        rule := Some(rules[name]);
      } else {
        rule := None;
      }
    }

    /** `getAllRules`: the rules in listing order. */
    method GetAllRules() returns (rs: seq<Rule>)
      requires Valid()
      ensures rs == All(State())
    {
      var names, byName := order, rules;
      rs := seq(|names|, i requires 0 <= i < |names| && names[i] in byName => byName[names[i]]);
      assert forall i | 0 <= i < |rs| :: rs[i] == All(State())[i];
    }
  }
}
