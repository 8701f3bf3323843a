/** The records that flow through the formatter: rule configuration
    entries, the formatter configuration, the context a rule receives and
    the result it returns. */
module Types {
  import opened Wrappers

  /** The options a configuration entry may carry. The source keeps an
      untyped key/value bag; here every key a built-in rule reads is a typed
      optional field, and a missing bag is the record with every key absent. */
  datatype Options = Options(
    style: Option<string>,
    size: Option<nat>,
    insert: Option<bool>,
    length: Option<nat>,
    action: Option<string>)

  const NoOptions := Options(None, None, None, None, None)

  datatype RuleConfig = RuleConfig(name: string, enabled: bool, options: Options)

  /** The ordered list of rule entries and the optional plugin list, which
      the pipeline never reads. */
  datatype FormatterConfig = FormatterConfig(rules: seq<RuleConfig>, plugins: Option<seq<string>>)

  const EmptyConfig := FormatterConfig([], None)

  /** The input of one rule application. */
  datatype FormatContext = FormatContext(content: string, config: FormatterConfig)

  datatype FormatResult = FormatResult(content: string, changed: bool, appliedRules: seq<string>)

  /** The index of the first entry named `name`, or -1: what
      `rules.find(r => r.name === name)` locates. */
  function FirstIndex(entries: seq<RuleConfig>, name: string): (k: int)
    ensures -1 <= k < |entries|
    ensures k == -1 <==> forall i | 0 <= i < |entries| :: entries[i].name != name
    ensures k >= 0 ==> entries[k].name == name
    ensures forall i | 0 <= i < k :: entries[i].name != name
  {
    if entries == [] then -1
    else if entries[0].name == name then 0
    else
      var k := FirstIndex(entries[1..], name);
      if k == -1 then -1 else k + 1
  }

  /** The options of the first entry named `name`, enabled or not; none
      when no entry has that name. */
  function OptionsFor(config: FormatterConfig, name: string): Options
  {
    var k := FirstIndex(config.rules, name);
    if k == -1 then NoOptions else config.rules[k].options
  }
}
