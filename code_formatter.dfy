/** The formatting pipeline: the enabled configuration entries are visited
    in order; each one whose name is registered has its rule applied to the
    current content with the whole configuration, and a rule that reports a
    change replaces the content and is recorded by name. */
module Formatter {
  import opened Wrappers
  import opened Types
  import opened Rules
  import opened Registry
  import IndentationRule

  /** `config || { rules: [] }`. */
  function Effective(config: Option<FormatterConfig>): FormatterConfig
  {
    if config.Some? then config.value else EmptyConfig
  }

  /** `rules.filter(r => r.enabled)`: the enabled entries, in their order. */
  function Enabled(entries: seq<RuleConfig>): (r: seq<RuleConfig>)
    ensures |r| <= |entries|
    ensures forall i | 0 <= i < |r| :: r[i].enabled && r[i] in entries
    ensures forall e | e in entries && e.enabled :: e in r
    ensures r == [] <==> forall i | 0 <= i < |entries| :: !entries[i].enabled
  {
    if entries == [] then []
    else
      var init, last := entries[..|entries| - 1], entries[|entries| - 1];
      assert forall e | e in init :: e in entries;
      assert entries == init + [last];
      Enabled(init) + if last.enabled then [last] else []
  }

  lemma EnabledSnoc(entries: seq<RuleConfig>, e: RuleConfig)
    ensures Enabled(entries + [e]) == Enabled(entries) + if e.enabled then [e] else []
  {
    assert (entries + [e])[..|entries|] == entries;
  }

  lemma DropLast(entries: seq<RuleConfig>)
    requires entries != []
    ensures entries[..|entries| - 1] + [entries[|entries| - 1]] == entries
  {
  }

  /** Filtering entries that are all enabled keeps every one of them. */
  lemma {:induction false} EnabledAll(entries: seq<RuleConfig>)
    requires forall i | 0 <= i < |entries| :: entries[i].enabled
    ensures Enabled(entries) == entries
    decreases |entries|
  {
    if entries != [] {
      EnabledAll(entries[..|entries| - 1]);
      DropLast(entries);
    }
  }

  /** One pass of the loop body for the entry `entry`. */
  function Step(st: RegistryState, acc: FormatResult, entry: RuleConfig, config: FormatterConfig): FormatResult
  {
    match Get(st, entry.name)
    case None => acc
    case Some(rule) =>
      var res := Applied(rule, FormatContext(acc.content, config));
      if res.changed then FormatResult(res.content, true, acc.appliedRules + [rule.Name()]) else acc
  }

  /** The loop over `entries` started from `content`. */
  function Run(st: RegistryState, entries: seq<RuleConfig>, config: FormatterConfig, content: string): FormatResult
  {
    if entries == [] then FormatResult(content, false, [])
    else Step(st, Run(st, entries[..|entries| - 1], config, content), entries[|entries| - 1], config)
  }

  /** What `format(content, config)` resolves to. */
  function Pipeline(st: RegistryState, content: string, config: Option<FormatterConfig>): FormatResult
  {
    var eff := Effective(config);
    Run(st, Enabled(eff.rules), eff, content)
  }

  /** A reference for the content alone: every registered rule named by an
      entry formats the previous rule's output, whether or not it changed
      anything. */
  function Compose(st: RegistryState, entries: seq<RuleConfig>, config: FormatterConfig, content: string): string
  {
    if entries == [] then content
    else
      var before := Compose(st, entries[..|entries| - 1], config, content);
      match Get(st, entries[|entries| - 1].name)
      case None => before
      case Some(rule) => FormatOf(rule, FormatContext(before, config))
  }

  lemma RunNext(st: RegistryState, entries: seq<RuleConfig>, i: nat, config: FormatterConfig, content: string)
    requires i < |entries|
    ensures Run(st, entries[..i + 1], config, content) == Step(st, Run(st, entries[..i], config, content), entries[i], config)
  {
    assert entries[..i + 1][..i] == entries[..i];
  }

  lemma ComposeNext(st: RegistryState, entries: seq<RuleConfig>, i: nat, config: FormatterConfig, content: string, rule: Rule)
    requires i < |entries| && Get(st, entries[i].name) == Some(rule)
    ensures Compose(st, entries[..i + 1], config, content) ==
      FormatOf(rule, FormatContext(Compose(st, entries[..i], config, content), config))
  {
    assert entries[..i + 1][..i] == entries[..i];
  }

  lemma RunNextFixed(st: RegistryState, entries: seq<RuleConfig>, i: nat, config: FormatterConfig, content: string, rule: Rule)
    requires i < |entries| && Get(st, entries[i].name) == Some(rule)
    requires Run(st, entries[..i], config, content) == FormatResult(content, false, [])
    requires FormatOf(rule, FormatContext(content, config)) == content
    ensures Run(st, entries[..i + 1], config, content) == FormatResult(content, false, [])
  {
    RunNext(st, entries, i, config, content);
  }

  /** The result reports a change exactly when it names a rule, and an
      unchanged result carries the input content. */
  lemma {:induction false} ChangedIffNamed(st: RegistryState, entries: seq<RuleConfig>, config: FormatterConfig, content: string)
    ensures Run(st, entries, config, content).changed <==> |Run(st, entries, config, content).appliedRules| > 0
    ensures !Run(st, entries, config, content).changed ==> Run(st, entries, config, content).content == content
    ensures |Run(st, entries, config, content).appliedRules| <= |entries|
    decreases |entries|
  {
    if entries != [] {
      ChangedIffNamed(st, entries[..|entries| - 1], config, content);
    }
  }

  /** The content the loop produces is the composition of the registered
      rules' outputs: skipping an unchanged result loses nothing. */
  lemma {:induction false} ContentIsComposition(st: RegistryState, entries: seq<RuleConfig>, config: FormatterConfig, content: string)
    ensures Run(st, entries, config, content).content == Compose(st, entries, config, content)
    decreases |entries|
  {
    if entries != [] {
      ContentIsComposition(st, entries[..|entries| - 1], config, content);
    }
  }

  /** Every recorded name is that of a registered rule named by an entry. */
  lemma {:induction false} NamedAreRegistered(st: RegistryState, entries: seq<RuleConfig>, config: FormatterConfig, content: string)
    requires WellFormed(st)
    ensures forall i | 0 <= i < |Run(st, entries, config, content).appliedRules| ::
      && Get(st, Run(st, entries, config, content).appliedRules[i]).Some?
      && exists e | e in entries :: e.name == Run(st, entries, config, content).appliedRules[i]
    decreases |entries|
  {
    if entries != [] {
      var init, last := entries[..|entries| - 1], entries[|entries| - 1];
      NamedAreRegistered(st, init, config, content);
      var before := Run(st, init, config, content);
      var after := Run(st, entries, config, content);
      assert forall e | e in init :: e in entries;
      if after.appliedRules != before.appliedRules {
        assert after.appliedRules == before.appliedRules + [last.name];
        forall i | 0 <= i < |after.appliedRules|
          ensures Get(st, after.appliedRules[i]).Some?
          ensures exists e | e in entries :: e.name == after.appliedRules[i]
        {
          if i < |before.appliedRules| {
            assert after.appliedRules[i] == before.appliedRules[i];
          } else {
            assert after.appliedRules[i] == last.name;
            assert last in entries;
          }
        }
      }
    }
  }

  /** `a` is `b` with some elements left out and the rest kept in order. */
  predicate IsSubsequence(a: seq<string>, b: seq<string>)
    decreases |b|
  {
    if a == [] then true
    else if b == [] then false
    else
      || (a[|a| - 1] == b[|b| - 1] && IsSubsequence(a[..|a| - 1], b[..|b| - 1]))
      || IsSubsequence(a, b[..|b| - 1])
  }

  /** The names the entries carry, in their order. */
  function EntryNames(entries: seq<RuleConfig>): (ns: seq<string>)
    ensures |ns| == |entries| && forall i | 0 <= i < |entries| :: ns[i] == entries[i].name
  {
    seq(|entries|, i requires 0 <= i < |entries| => entries[i].name)
  }

  /** The recorded names follow the entries' order: they are the entries'
      names with some left out, so an entry listed twice can be recorded
      twice. */
  lemma {:induction false} AppliedInOrder(st: RegistryState, entries: seq<RuleConfig>, config: FormatterConfig, content: string)
    requires WellFormed(st)
    ensures IsSubsequence(Run(st, entries, config, content).appliedRules, EntryNames(entries))
    decreases |entries|
  {
    if entries != [] {
      var init, last := entries[..|entries| - 1], entries[|entries| - 1];
      AppliedInOrder(st, init, config, content);
      var before := Run(st, init, config, content).appliedRules;
      var after := Run(st, entries, config, content).appliedRules;
      var ns := EntryNames(entries);
      assert ns[..|ns| - 1] == EntryNames(init);
      if after == before {
        assert IsSubsequence(after, ns);
      } else {
        assert after == before + [last.name];
        assert after[..|after| - 1] == before;
      }
    }
  }

  /** When every registered rule named by an entry leaves the content as it
      is, the loop reports no change and names nothing. */
  lemma {:induction false} FixedPointUnchanged(st: RegistryState, entries: seq<RuleConfig>, config: FormatterConfig, content: string)
    requires forall i | 0 <= i < |entries| ::
      entries[i].name in st.rules ==> FormatOf(st.rules[entries[i].name], FormatContext(content, config)) == content
    ensures Run(st, entries, config, content) == FormatResult(content, false, [])
    decreases |entries|
  {
    if entries != [] {
      FixedPointUnchanged(st, entries[..|entries| - 1], config, content);
    }
  }

  /** Entries whose names are not registered leave the content untouched
      and name nothing. */
  lemma UnregisteredSkipped(st: RegistryState, entries: seq<RuleConfig>, config: FormatterConfig, content: string)
    requires forall i | 0 <= i < |entries| :: entries[i].name !in st.rules
    ensures Run(st, entries, config, content) == FormatResult(content, false, [])
  {
    FixedPointUnchanged(st, entries, config, content);
  }

  /** Without a configuration, or with every entry disabled, nothing runs. */
  lemma NothingEnabled(st: RegistryState, content: string, config: Option<FormatterConfig>)
    requires config.Some? ==> forall i | 0 <= i < |config.value.rules| :: !config.value.rules[i].enabled
    ensures Pipeline(st, content, config) == FormatResult(content, false, [])
  {
  }

  /** A single enabled entry for a registered rule gives that rule's
      `apply` result, with the whole configuration as its context. */
  lemma SingleEntry(st: RegistryState, content: string, config: FormatterConfig, rule: Rule)
    requires |config.rules| == 1 && config.rules[0].enabled
    requires WellFormed(st)
    requires Get(st, config.rules[0].name) == Some(rule)
    ensures Pipeline(st, content, Some(config)) == Applied(rule, FormatContext(content, config))
  {
    FiledUnderName(st, config.rules[0].name, rule);
    SingleNamedEntry(st, content, config, rule);
  }

  /** In a well-formed registry a rule is filed under its own name. */
  lemma FiledUnderName(st: RegistryState, name: string, rule: Rule)
    requires WellFormed(st) && Get(st, name) == Some(rule)
    ensures rule.Name() == name
  {
  }

  lemma SingleNamedEntry(st: RegistryState, content: string, config: FormatterConfig, rule: Rule)
    requires |config.rules| == 1 && config.rules[0].enabled
    requires Get(st, config.rules[0].name) == Some(rule)
    requires rule.Name() == config.rules[0].name
    ensures Pipeline(st, content, Some(config)) == Applied(rule, FormatContext(content, config))
  {
    var e := config.rules[0];
    assert config.rules[..0] == [];
    assert Enabled(config.rules) == [e];
    assert [e][..0] == [];
    var res := Applied(rule, FormatContext(content, config));
    assert Run(st, [e], config, content) == Step(st, FormatResult(content, false, []), e, config);
    assert [] + [rule.Name()] == [rule.Name()];
  }

  /** Of two entries, only the second enabled: the second entry's rule
      runs, with the configuration holding both. */
  lemma SecondOfTwo(st: RegistryState, a: RuleConfig, b: RuleConfig, rule: Rule, content: string)
    requires !a.enabled && b.enabled && Get(st, b.name) == Some(rule)
    ensures var config := FormatterConfig([a, b], None);
      Pipeline(st, content, Some(config)).content == FormatOf(rule, FormatContext(content, config))
  {
    var config := FormatterConfig([a, b], None);
    EnabledSnoc([], a);
    assert [] + [a] == [a];
    EnabledSnoc([a], b);
    assert [a] + [b] == config.rules;
    assert Enabled(config.rules) == [b];
    assert [b][..0] == [];
    assert Run(st, [b], config, content) == Step(st, FormatResult(content, false, []), b, config);
    var res := Applied(rule, FormatContext(content, config));
    assert Step(st, FormatResult(content, false, []), b, config).content == res.content;
  }

  /** An entry that is disabled still supplies the options a rule reads
      when it is the first entry under that name: a disabled `tab` entry
      ahead of an enabled `space` entry makes the indentation rule indent
      with tabs. */
  lemma DisabledEntrySuppliesOptions(st: RegistryState, content: string)
    requires Get(st, "indentation") == Some(Indentation)
    ensures
      var tabs := RuleConfig("indentation", false, Options(Some("tab"), Some(4), None, None, None));
      var spaces := RuleConfig("indentation", true, Options(Some("space"), Some(2), None, None, None));
      var config := FormatterConfig([tabs, spaces], None);
      Pipeline(st, content, Some(config)).content == IndentationRule.Format(content, IndentationRule.IndentOptions(true, 4))
  {
    var tabs := RuleConfig("indentation", false, Options(Some("tab"), Some(4), None, None, None));
    var spaces := RuleConfig("indentation", true, Options(Some("space"), Some(2), None, None, None));
    var config := FormatterConfig([tabs, spaces], None);
    SecondOfTwo(st, tabs, spaces, Indentation, content);
    assert FirstIndex(config.rules, IndentationRule.Name) == 0;
  }

  /** The formatter's `CodeFormatter`, over a shared registry. */
  class CodeFormatter {
    const registry: RuleRegistry

    constructor(registry: RuleRegistry)
      ensures this.registry == registry
    {
      this.registry := registry;
    }

    /** `format`: runs the enabled entries' rules in order over the content. */
    method Format(content: string, config: Option<FormatterConfig>) returns (res: FormatResult)
      ensures res == Pipeline(registry.State(), content, config)
    {
      var effective := Effective(config);
      var applied: seq<string> := [];
      var current := content;
      var changed := false;
      var enabled := Enabled(effective.rules);
      for i := 0 to |enabled|
        invariant FormatResult(current, changed, applied) == Run(registry.State(), enabled[..i], effective, content)
      {
        RunNext(registry.State(), enabled, i, effective, content);
        var rule := registry.GetRule(enabled[i].name);
        if rule.Some? {
          var result := Apply(rule.value, FormatContext(current, effective));
          if result.changed {
            current := result.content;
            changed := true;
            applied := applied + [rule.value.Name()];
          }
        }
      }
      assert enabled[..|enabled|] == enabled;
      res := FormatResult(current, changed, applied);
    }
  }
}
