/** The package's entry points: the default configuration and a formatter
    whose registry holds the core plugin's rules, and what formatting with
    the two together guarantees. */
module Index {
  import opened Wrappers
  import opened Types
  import opened Text
  import opened Rules
  import opened Registry
  import opened Plugins
  import opened Formatter
  import IndentationRule
  import LineEndingRule
  import TrailingWhitespaceRule
  import FinalNewlineRule
  import MaxLineLengthRule

  /** `getDefaultConfig`: four enabled entries and a disabled
      `max-line-length` entry. */
  function DefaultConfig(): FormatterConfig
  {
    FormatterConfig([
      RuleConfig("indentation", true, Options(Some("space"), Some(2), None, None, None)),
      RuleConfig("line-ending", true, Options(Some("lf"), None, None, None, None)),
      RuleConfig("trailing-whitespace", true, NoOptions),
      RuleConfig("final-newline", true, Options(None, None, Some(true), None, None)),
      RuleConfig("max-line-length", false, Options(None, None, None, Some(80), Some("warn")))
    ], None)
  }

  /** The registry `createFormatter` builds. */
  function DefaultRegistry(): RegistryState
  {
    LoadAll(Empty, [Core])
  }

  /** The default entries name the core rules in the core plugin's order;
      all but the last are enabled. */
  lemma DefaultEntries()
    ensures |DefaultConfig().rules| == |Core.rules|
    ensures forall i | 0 <= i < |Core.rules| :: DefaultConfig().rules[i].name == Core.rules[i].Name()
    ensures forall i | 0 <= i < |Core.rules| :: DefaultConfig().rules[i].enabled <==> Core.rules[i] != MaxLineLength
  {
    CoreFacts();
  }

  /** The options each built-in rule reads from the default configuration:
      two-space indentation, line feeds, a final newline, and 80 columns
      with warnings only. */
  lemma DefaultOptions()
    ensures IndentationRule.OptionsOf(DefaultConfig()) == IndentationRule.IndentOptions(false, 2)
    ensures LineEndingRule.EndingOf(DefaultConfig()) == "\n"
    ensures FinalNewlineRule.InsertOf(DefaultConfig())
    ensures MaxLineLengthRule.OptionsOf(DefaultConfig()) == MaxLineLengthRule.WrapOptions(80, false)
  {
    DefaultIndentOptions();
    DefaultEnding();
    DefaultInsert();
    DefaultWrapOptions();
  }

  lemma DefaultIndentOptions()
    ensures IndentationRule.OptionsOf(DefaultConfig()) == IndentationRule.IndentOptions(false, 2)
  {
    assert FirstIndex(DefaultConfig().rules, "indentation") == 0;
  }

  lemma DefaultEnding()
    ensures LineEndingRule.EndingOf(DefaultConfig()) == "\n"
  {
    assert FirstIndex(DefaultConfig().rules, "line-ending") == 1;
  }

  lemma DefaultInsert()
    ensures FinalNewlineRule.InsertOf(DefaultConfig())
  {
    assert FirstIndex(DefaultConfig().rules, "final-newline") == 3;
  }

  lemma DefaultWrapOptions()
    ensures MaxLineLengthRule.OptionsOf(DefaultConfig()) == MaxLineLengthRule.WrapOptions(80, false)
  {
    assert FirstIndex(DefaultConfig().rules, "max-line-length") == 4;
  }

  lemma EnabledAllButLast(rs: seq<RuleConfig>)
    requires |rs| == 5 && !rs[4].enabled
    requires rs[0].enabled && rs[1].enabled && rs[2].enabled && rs[3].enabled
    ensures Enabled(rs) == rs[..4]
  {
    EnabledAll(rs[..4]);
    EnabledSnoc(rs[..4], rs[4]);
    DropLast(rs);
  }

  /** The default entries that run. */
  lemma DefaultEnabled()
    ensures Enabled(DefaultConfig().rules) == DefaultConfig().rules[..4]
  {
    EnabledAllButLast(DefaultConfig().rules);
  }

  /** The content of the default pipeline. */
  function DefaultContent(content: string): string
  {
    var indented := IndentationRule.Format(content, IndentationRule.IndentOptions(false, 2));
    var lf := LineEndingRule.Format(indented, "\n");
    var trimmed := TrailingWhitespaceRule.Format(lf);
    FinalNewlineRule.Format(trimmed, true)
  }

  /** Each built-in name resolves to its rule in the default registry. */
  lemma DefaultRegistryGets()
    ensures Get(DefaultRegistry(), "indentation") == Some(Indentation)
    ensures Get(DefaultRegistry(), "line-ending") == Some(LineEnding)
    ensures Get(DefaultRegistry(), "trailing-whitespace") == Some(TrailingWhitespace)
    ensures Get(DefaultRegistry(), "final-newline") == Some(FinalNewline)
    ensures Get(DefaultRegistry(), "max-line-length") == Some(MaxLineLength)
  {
    CoreLoaded();
    CoreFacts();
    assert Core.rules[0] == Indentation && Core.rules[1] == LineEnding && Core.rules[2] == TrailingWhitespace;
    assert Core.rules[3] == FinalNewline && Core.rules[4] == MaxLineLength;
  }

  /** Four entries naming registered rules compose the rules in order. */
  lemma ComposeFour(st: RegistryState, en: seq<RuleConfig>, config: FormatterConfig, content: string,
                    r0: Rule, r1: Rule, r2: Rule, r3: Rule)
    requires |en| == 4
    requires Get(st, en[0].name) == Some(r0) && Get(st, en[1].name) == Some(r1)
    requires Get(st, en[2].name) == Some(r2) && Get(st, en[3].name) == Some(r3)
    ensures Compose(st, en, config, content) ==
      var c1 := FormatOf(r0, FormatContext(content, config));
      var c2 := FormatOf(r1, FormatContext(c1, config));
      FormatOf(r3, FormatContext(FormatOf(r2, FormatContext(c2, config)), config))
  {
    Ends(en);
    ComposeTwo(st, en, 0, config, content, r0, r1);
    ComposeTwo(st, en, 2, config, content, r2, r3);
  }

  lemma ComposeTwo(st: RegistryState, en: seq<RuleConfig>, i: nat, config: FormatterConfig, content: string, ra: Rule, rb: Rule)
    requires i + 1 < |en|
    requires Get(st, en[i].name) == Some(ra) && Get(st, en[i + 1].name) == Some(rb)
    ensures Compose(st, en[..i + 2], config, content) ==
      FormatOf(rb, FormatContext(FormatOf(ra, FormatContext(Compose(st, en[..i], config, content), config)), config))
  {
    ComposeNext(st, en, i, config, content, ra);
    ComposeNext(st, en, i + 1, config, content, rb);
  }

  /** With the default registry and configuration the output is the
      indentation, line-ending, trailing-whitespace and final-newline rules
      applied in that order. */
  lemma DefaultPipeline(content: string)
    ensures Pipeline(DefaultRegistry(), content, Some(DefaultConfig())).content == DefaultContent(content)
  {
    var st, config := DefaultRegistry(), DefaultConfig();
    DefaultRegistryGets();
    DefaultOptions();
    DefaultEnabled();
    var en := config.rules[..4];
    ContentIsComposition(st, en, config, content);
    ComposeFour(st, en, config, content, Indentation, LineEnding, TrailingWhitespace, FinalNewline);
    var c1 := FormatOf(Indentation, FormatContext(content, config));
    var c2 := FormatOf(LineEnding, FormatContext(c1, config));
    var c3 := FormatOf(TrailingWhitespace, FormatContext(c2, config));
    FormatOfIndentation(FormatContext(content, config));
    FormatOfLineEnding(FormatContext(c1, config));
    FormatOfTrailingWhitespace(FormatContext(c2, config));
    FormatOfFinalNewline(FormatContext(c3, config));
  }

  /** Removing trailing whitespace leaves no carriage return that was not
      there. */
  lemma TrimmedKeepsOut(s: string, c: char)
    requires c !in s && c != '\n'
    ensures c !in TrailingWhitespaceRule.Format(s)
  {
    var ls := Split(s);
    SplitKeepsOut(s, c);
    var out := TrailingWhitespaceRule.TrimLines(ls);
    forall i | 0 <= i < |out| ensures c !in out[i] {
      assert out[i] <= ls[i];
    }
    JoinKeepsOut(out, c);
  }

  /** No line of `s` ends in whitespace. */
  predicate LinesTrimmed(s: string)
  {
    forall i | 0 <= i < |Split(s)| :: Split(s)[i] == [] || !IsWs(Split(s)[i][|Split(s)[i]| - 1])
  }

  /** Adding the final line feed keeps every line trimmed. */
  lemma FinalNewlineKeepsTrimmed(s: string)
    requires LinesTrimmed(s)
    ensures LinesTrimmed(FinalNewlineRule.Format(s, true))
  {
    var out := FinalNewlineRule.Format(s, true);
    if out != s {
      SplitAppendNewline(s);
      forall i | 0 <= i < |Split(out)| ensures Split(out)[i] == [] || !IsWs(Split(out)[i][|Split(out)[i]| - 1]) {
        if i < |Split(s)| {
          assert Split(out)[i] == Split(s)[i];
        }
      }
    }
  }

  /** Trimming keeps carriage returns out and trims every line. */
  lemma TrimmedShape(s: string)
    requires '\r' !in s
    ensures '\r' !in TrailingWhitespaceRule.Format(s)
    ensures LinesTrimmed(TrailingWhitespaceRule.Format(s))
  {
    TrimmedKeepsOut(s, '\r');
    TrailingWhitespaceRule.FormatLines(s);
  }

  /** Adding the final line feed keeps carriage returns out and every line
      trimmed, and ends a non-empty text with a line feed. */
  lemma FinalShape(s: string)
    requires '\r' !in s && LinesTrimmed(s)
    ensures var out := FinalNewlineRule.Format(s, true);
      && '\r' !in out
      && (out == [] || out[|out| - 1] == '\n')
      && LinesTrimmed(out)
  {
    FinalNewlineKeepsTrimmed(s);
  }

  /** The line-ending, trailing-whitespace and final-newline rules leave
      no carriage return, end a non-empty output with a line feed and leave
      no line ending in whitespace, whatever they are given. */
  lemma EndedShape(indented: string)
    ensures var out := FinalNewlineRule.Format(TrailingWhitespaceRule.Format(LineEndingRule.Format(indented, "\n")), true);
      && '\r' !in out
      && (out == [] || out[|out| - 1] == '\n')
      && LinesTrimmed(out)
  {
    var lf := LineEndingRule.Format(indented, "\n");
    LineEndingRule.FormatIsNormalize(indented, "\n");
    LineEndingRule.NormalizeNoCr(indented, "\n");
    TrimmedShape(lf);
    FinalShape(TrailingWhitespaceRule.Format(lf));
  }

  /** The default rules leave no carriage return, end a non-empty output
      with a line feed and leave no line ending in whitespace. */
  lemma ContentShape(content: string)
    ensures var out := DefaultContent(content);
      && '\r' !in out
      && (out == [] || out[|out| - 1] == '\n')
      && LinesTrimmed(out)
  {
    EndedShape(IndentationRule.Format(content, IndentationRule.IndentOptions(false, 2)));
  }

  /** What the default formatter promises about any input: no carriage
      return is left, a non-empty output ends with a line feed, and no line
      ends in whitespace. */
  lemma DefaultOutputShape(content: string)
    ensures var out := Pipeline(DefaultRegistry(), content, Some(DefaultConfig())).content;
      && '\r' !in out
      && (out == [] || out[|out| - 1] == '\n')
      && LinesTrimmed(out)
  {
    DefaultPipeline(content);
    ContentShape(content);
  }

  /** Each default rule leaves a single clean line ended by a line feed as
      it is. */
  lemma LineFixed(a: string)
    requires a != [] && !IsWs(a[0]) && !IsWs(a[|a| - 1])
    requires '\n' !in a && '\r' !in a
    ensures IndentationRule.Format(a + "\n", IndentationRule.IndentOptions(false, 2)) == a + "\n"
    ensures LineEndingRule.Format(a + "\n", "\n") == a + "\n"
    ensures TrailingWhitespaceRule.Format(a + "\n") == a + "\n"
    ensures FinalNewlineRule.Format(a + "\n", true) == a + "\n"
  {
    var s := a + "\n";
    SplitNewline(a, "");
    assert s == a + "\n" + "";
    assert Split(s) == [a, ""];
    IndentationRule.Unindented(s, IndentationRule.IndentOptions(false, 2));
    LineEndingRule.FormatIsNormalize(s, "\n");
    LineEndingRule.NormalizeLfFixed(s);
    TrailingWhitespaceRule.TwoLines(a, "", "", "");
    assert a + "" + "\n" + "" + "" == s;
  }

  /** A single line with no surrounding whitespace, ended by a line feed,
      is already formatted: the default formatter reports no change. */
  lemma FormattedLineUnchanged(a: string)
    requires a != [] && !IsWs(a[0]) && !IsWs(a[|a| - 1])
    requires '\n' !in a && '\r' !in a
    ensures Pipeline(DefaultRegistry(), a + "\n", Some(DefaultConfig())) == FormatResult(a + "\n", false, [])
  {
    var st, config, s := DefaultRegistry(), DefaultConfig(), a + "\n";
    DefaultRegistryGets();
    DefaultOptions();
    DefaultEnabled();
    LineFixed(a);
    var ctx := FormatContext(s, config);
    FormatOfIndentation(ctx);
    FormatOfLineEnding(ctx);
    FormatOfTrailingWhitespace(ctx);
    FormatOfFinalNewline(ctx);
    FixedFour(st, config.rules[..4], config, s, Indentation, LineEnding, TrailingWhitespace, FinalNewline);
  }

  /** Four entries naming registered rules, none of which changes the
      content, report no change. */
  lemma FixedFour(st: RegistryState, en: seq<RuleConfig>, config: FormatterConfig, s: string,
                  r0: Rule, r1: Rule, r2: Rule, r3: Rule)
    requires |en| == 4
    requires Get(st, en[0].name) == Some(r0) && Get(st, en[1].name) == Some(r1)
    requires Get(st, en[2].name) == Some(r2) && Get(st, en[3].name) == Some(r3)
    requires FormatOf(r0, FormatContext(s, config)) == s
    requires FormatOf(r1, FormatContext(s, config)) == s
    requires FormatOf(r2, FormatContext(s, config)) == s
    requires FormatOf(r3, FormatContext(s, config)) == s
    ensures Run(st, en, config, s) == FormatResult(s, false, [])
  {
    Ends(en);
    FixedTwo(st, en, 0, config, s, r0, r1);
    FixedTwo(st, en, 2, config, s, r2, r3);
  }

  lemma Ends(en: seq<RuleConfig>)
    ensures en[..0] == [] && en[..|en|] == en
  {
  }

  lemma FixedTwo(st: RegistryState, en: seq<RuleConfig>, i: nat, config: FormatterConfig, s: string, ra: Rule, rb: Rule)
    requires i + 1 < |en|
    requires Get(st, en[i].name) == Some(ra) && Get(st, en[i + 1].name) == Some(rb)
    requires Run(st, en[..i], config, s) == FormatResult(s, false, [])
    requires FormatOf(ra, FormatContext(s, config)) == s
    requires FormatOf(rb, FormatContext(s, config)) == s
    ensures Run(st, en[..i + 2], config, s) == FormatResult(s, false, [])
  {
    RunNextFixed(st, en, i, config, s, ra);
    RunNextFixed(st, en, i + 1, config, s, rb);
  }

  /** `hello world` followed by a line feed comes back unchanged. */
  lemma HelloWorldUnchanged(s: string)
    requires s == "hello world\n"
    ensures Pipeline(DefaultRegistry(), s, Some(DefaultConfig())) == FormatResult(s, false, [])
  {
    var a := "hello world";
    assert s == a + "\n";
    FormattedLineUnchanged(a);
  }

  /** `createFormatter`: a fresh registry loaded with the core plugin,
      wrapped in a formatter. */
  method CreateFormatter() returns (f: CodeFormatter)
    ensures fresh(f) && fresh(f.registry)
    ensures f.registry.Valid() && f.registry.State() == DefaultRegistry()
  {
    var registry := new RuleRegistry();
    var pluginManager := new PluginManager(registry);
    pluginManager.LoadPlugin(Core);
    assert [Core][..0] == [];
    assert LoadAll(Empty, [Core]) == InsertAll(Empty, Core.rules);
    f := new CodeFormatter(registry);
  }
}
