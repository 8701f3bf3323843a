# codewaveinnovation-formatter, modelled in Dafny

The formatter is a rule-based text formatter. A `CodeFormatter` holds a
`RuleRegistry`, which maps rule names to rules. `format(content, config)`
works through the configuration's rule entries in order:

- disabled entries are skipped;
- an entry whose name resolves to a registered rule has that rule applied
  to the current text;
- whenever a rule reports a change, its output becomes the current text
  and its name is recorded.

Every built-in rule follows the template method `BaseFormattingRule.apply`:
it formats the text, then reports `changed` and the applied rule names by
comparing the strings. There are five built-in rules:

- `indentation` rescales each line's leading whitespace;
- `line-ending` normalises CRLF, CR and LF to one configured ending;
- `trailing-whitespace` strips whitespace at the end of each line;
- `final-newline` appends a missing final line feed;
- `max-line-length` either only warns or wraps long lines, preferring a
  late space.

The `CorePlugin` supplies these five rules. `PluginManager` registers a
plugin's rules one after another. `createFormatter` wires a registry loaded
with the core plugin into a formatter, and `getDefaultConfig` is the fixed
default configuration.

The model has one module per source file:

- `Text`: splitting and joining on `\n`, JS `\s`, `trim`, `repeat`,
  global replace;
- `Types`: configuration entries, contexts and results;
- `IndentationRule`, `LineEndingRule`, `TrailingWhitespaceRule`,
  `FinalNewlineRule`, `MaxLineLengthRule`: one module per rule;
- `Rules`: the rule datatype and `apply`;
- `Registry`: the registry class and its pure state;
- `Plugins`: `CorePlugin` and `PluginManager`;
- `Formatter`: `CodeFormatter` and the pipeline;
- `Index`: `createFormatter`, `getDefaultConfig` and end-to-end facts.

Pure code is written as functions with lemmas. State that the formatter
mutates is written as classes with methods:

- the registry's map, plus the insertion order of its keys;
- the plugin manager's loading loops;
- the formatter's loop;
- the word-wrap loops of `max-line-length`.

Each method is proved equal to a specification function, and that
function's properties are proved as lemmas.

Strings are `seq<char>`. JS `\s`, and `trim()` which uses it, are the
exact set of code points the ECMAScript standard lists as white space
and line terminators (`Text.IsWs`). The `0.6` factor of `max-line-length`
is the integer comparison `5 * i > 3 * max`, which is exact. The untyped
`options` bag becomes a record of typed optional fields. Each rule
resolves its options from the FIRST entry carrying its name, whether that
entry is enabled or not, with the formatter's `||` defaults:

- `size` 0 or absent means 2;
- `length` 0 or absent means 80;
- an empty or absent `style` means `space` for `indentation` and `lf` for
  `line-ending`;
- an empty or absent `action` means `warn`;
- `insert` is off only when it is literally `false`.

## Model

| member | source | states |
|---|---|---|
| Text.IsWs | src/rules/TrailingWhitespaceRule.ts:13 | no contract of its own: the code points JS `\s` matches, namely tab, LF, VT, FF, CR, space, NBSP, U+1680, U+2000–U+200A, U+2028, U+2029, U+202F, U+205F, U+3000 and U+FEFF |
| Text.Split | src/rules/TrailingWhitespaceRule.ts:12 | `split('\n')` yields at least one piece, and no piece contains a line feed |
| Text.Join | src/rules/TrailingWhitespaceRule.ts:14 | no contract of its own: `join('\n')`; `Text.JoinSplit` and `Text.SplitJoin` make it the inverse of `Split` |
| Text.JoinSplit | src/rules/TrailingWhitespaceRule.ts:12-14 | joining the pieces of a split with `\n` gives back the original string |
| Text.SplitJoin | src/rules/IndentationRule.ts:21-38 | splitting a join of line-feed-free lines gives back those lines |
| Text.SplitCount | src/rules/TrailingWhitespaceRule.ts:12 | the number of pieces is the number of line feeds plus one |
| Text.NewlineCountJoin | src/rules/TrailingWhitespaceRule.ts:14 | joining n lines puts exactly n-1 line feeds in the result |
| Text.ReplaceAll | src/rules/LineEndingRule.ts:33-34 | a global replace with a replacement that lacks the character leaves no occurrence of it |
| Text.ReplaceAllAppend | src/rules/LineEndingRule.ts:33-34 | a global single-character replace distributes over concatenation |
| Text.Repeat | src/rules/IndentationRule.ts:17-18 | `unit.repeat(n)` has length n·\|unit\| and only characters of the unit |
| Text.LeadingWs | src/rules/IndentationRule.ts:24-27 | `/^[\s]*/` matches the longest all-whitespace prefix |
| Text.TrimEnd | src/rules/TrailingWhitespaceRule.ts:13 | `replace(/\s+$/, '')` keeps a prefix that does not end in whitespace and removes only whitespace |
| Text.TrimEndOf | src/rules/TrailingWhitespaceRule.ts:13 | a line not ending in whitespace, followed by a whitespace run, trims back to that line |
| Text.TrimStart | src/rules/MaxLineLengthRule.ts:41 | removing the leading whitespace run leaves a string that starts with a non-whitespace character or is empty |
| Text.Trim | src/rules/MaxLineLengthRule.ts:41 | `trim()` is no longer than its input, adds no line feed, and neither starts nor ends with whitespace; `Text.TrimSlice` places it in its input |
| Text.TrimSlice | src/rules/MaxLineLengthRule.ts:41 | `trim()` keeps the slice of its input that starts right after the leading whitespace run and is followed by whitespace only; with the contracts of `LeadingWs` and `Trim`, this determines the result |
| Text.TrimNoWs | src/rules/MaxLineLengthRule.ts:41 | `trim()` of a string with no whitespace at either end is that string |
| Text.SplitAppendNewline | src/rules/FinalNewlineRule.ts:16-17 | appending a line feed adds one empty last line and keeps the others |
| Types.FirstIndex | src/rules/IndentationRule.ts:12 | `rules.find` locates the first entry with the name, or reports that none has it |
| Types.OptionsFor | src/rules/IndentationRule.ts:12-13 | no contract of its own: the options of the entry `FirstIndex` finds, or no options; each rule's `OptionsOf` states what it resolves from them |
| IndentationRule.OptionsOf | src/rules/IndentationRule.ts:12-15 | tab style exactly when `style` is `tab`; size 2 when absent or 0; otherwise the given size |
| IndentationRule.OptionsExamples | src/rules/IndentationRule.ts:13-15 | space/2, tab and no entry resolve to space/2, tab/2 and space/2 |
| IndentationRule.FormatLines | src/rules/IndentationRule.ts:22-36 | the per-line map keeps the number of lines |
| IndentationRule.FormatLine | src/rules/IndentationRule.ts:22-36 | no contract of its own: the per-line map; `IndentationRule.LineShape`, `LineCases` and `LineIdempotent` state what it returns |
| IndentationRule.Format | src/rules/IndentationRule.ts:11-39 | no contract of its own: split, map, join; `IndentationRule.FormatSplits`, `Idempotent` and `Unindented` state what it returns |
| IndentationRule.UnitWidth | src/rules/IndentationRule.ts:17-32 | one indentation unit measures exactly one level: 2 columns for a tab, `size` for spaces |
| IndentationRule.LineShape | src/rules/IndentationRule.ts:24-35 | an output line is ⌊width/u⌋ units followed by the line after its leading run, where a tab counts 2 columns; a line feed is never introduced |
| IndentationRule.LineCases | src/rules/IndentationRule.ts:35 | a line without leading whitespace is unchanged; a run narrower than one level is removed |
| IndentationRule.FormatSplits | src/rules/IndentationRule.ts:21-38 | the output's lines are the formatted input lines, with the same line count and line-feed count |
| IndentationRule.LineIdempotent | src/rules/IndentationRule.ts:29-35 | reformatting a formatted line changes nothing |
| IndentationRule.Idempotent | src/rules/IndentationRule.ts:21-38 | the rule is idempotent in both styles and for every size |
| IndentationRule.Unindented | src/rules/IndentationRule.ts:35 | content whose lines have no leading whitespace is unchanged |
| IndentationRule.TwoIndentedLines | src/rules/IndentationRule.ts:21-38 | two lines are each re-indented to their level and joined |
| IndentationRule.SpacesKeptExample | src/rules/IndentationRule.test.ts:17-29 | `"    hello\n  world"` under space/2 is unchanged |
| IndentationRule.TabsToSpacesExample | src/rules/IndentationRule.test.ts:31-43 | `"\t\thello\n\tworld"` under space/2 becomes `"    hello\n  world"` |
| IndentationRule.SpacesToTabsExample | src/rules/IndentationRule.test.ts:45-57 | `"    hello\n  world"` under tab style becomes `"\t\thello\n\tworld"` |
| LineEndingRule.EndingFor | src/rules/LineEndingRule.ts:14-28 | `crlf` selects CRLF, `cr` selects CR, and anything else, or an absent style, selects LF |
| LineEndingRule.EndingOf | src/rules/LineEndingRule.ts:12-14 | no contract of its own: the ending `EndingFor` selects from the first `line-ending` entry's style |
| LineEndingRule.ReplaceCrLf | src/rules/LineEndingRule.ts:32 | no contract of its own: the left-to-right global CRLF replacement; `LineEndingRule.FormatIsNormalize` states the chain's result |
| LineEndingRule.Format | src/rules/LineEndingRule.ts:31-34 | no contract of its own: the three chained replacements; `LineEndingRule.FormatIsNormalize` equates them with the one-pass `Normalize` |
| LineEndingRule.FormatIsNormalize | src/rules/LineEndingRule.ts:31-34 | the three chained replacements turn each CRLF pair, lone CR and lone LF into one ending and keep every other character in order |
| LineEndingRule.NormalizeNoCr | src/rules/LineEndingRule.ts:31-34 | with an ending that contains no CR, the output contains no CR |
| LineEndingRule.NormalizeCrNoLf | src/rules/LineEndingRule.ts:31-34 | with the CR ending, the output contains no LF |
| LineEndingRule.NormalizeLfFixed | src/rules/LineEndingRule.ts:31-34 | content without CR is unchanged under LF |
| LineEndingRule.Idempotent | src/rules/LineEndingRule.ts:31-34 | normalising twice equals normalising once, for each of the three endings |
| LineEndingRule.ThreeRuns | src/rules/LineEndingRule.ts:31-34 | three runs separated by any two line breaks are rejoined with the target ending |
| LineEndingRule.LfExample | src/rules/LineEndingRule.test.ts:17-27 | `"hello\r\nworld\rtest"` under `lf` becomes `"hello\nworld\ntest"` |
| LineEndingRule.CrlfAndCrExample | src/rules/LineEndingRule.test.ts:29-51 | `"hello\nworld"` becomes `"hello\r\nworld"` under `crlf` and `"hello\rworld"` under `cr` |
| TrailingWhitespaceRule.Format | src/rules/TrailingWhitespaceRule.ts:11-15 | no contract of its own: split, trim each end, join; `TrailingWhitespaceRule.FormatLines`, `UnchangedIff` and `Idempotent` state what it returns |
| TrailingWhitespaceRule.TrimLines | src/rules/TrailingWhitespaceRule.ts:13 | the per-line map keeps the number of lines |
| TrailingWhitespaceRule.FormatLines | src/rules/TrailingWhitespaceRule.ts:12-14 | the line and line-feed counts are kept; each output line is a prefix of its input line that does not end in whitespace, and only whitespace is removed |
| TrailingWhitespaceRule.UnchangedIff | src/rules/TrailingWhitespaceRule.ts:12-14 | the content is unchanged exactly when no line ends in whitespace |
| TrailingWhitespaceRule.Idempotent | src/rules/TrailingWhitespaceRule.ts:12-14 | applying the rule twice equals applying it once |
| TrailingWhitespaceRule.TwoLines | src/rules/TrailingWhitespaceRule.ts:12-14 | two lines with trailing runs of any whitespace mix lose exactly those runs |
| TrailingWhitespaceRule.MixedRunExample | src/rules/TrailingWhitespaceRule.test.ts:37-45 | `"hello \t \nworld"` becomes `"hello\nworld"` |
| TrailingWhitespaceRule.LeadingKeptExample | src/rules/TrailingWhitespaceRule.test.ts:57-65 | leading whitespace is kept: `"  hello  \n    world  "` becomes `"  hello\n    world"` |
| FinalNewlineRule.InsertOf | src/rules/FinalNewlineRule.ts:12-14 | `insert` is off exactly when the first `final-newline` entry sets it to `false` |
| FinalNewlineRule.Format | src/rules/FinalNewlineRule.ts:16-20 | at most one line feed is added; empty content stays empty; with `insert` a non-empty result ends in a line feed; without `insert`, or when the content already ends in a line feed, it is unchanged |
| FinalNewlineRule.Idempotent | src/rules/FinalNewlineRule.ts:16-20 | applying the rule twice equals applying it once |
| FinalNewlineRule.Examples | src/rules/FinalNewlineRule.test.ts:17-63 | a line feed is added when missing; an existing one is kept, and a double one is not collapsed; `insert: false` and empty content give no change |
| MaxLineLengthRule.OptionsOf | src/rules/MaxLineLengthRule.ts:12-17 | length 80 when absent or 0, otherwise as given; wrapping exactly when the action is neither absent nor `warn` |
| MaxLineLengthRule.LastIndexOf | src/rules/MaxLineLengthRule.ts:35 | `lastIndexOf(' ', from)` is the last index at or before `from` that holds a space, or -1 |
| MaxLineLengthRule.BreakPoint | src/rules/MaxLineLengthRule.ts:33-38 | the cut lies in 1..max; it is the last space beyond 60% of the limit when one exists at or before `max`, and `max` otherwise |
| MaxLineLengthRule.After | src/rules/MaxLineLengthRule.ts:41 | the trimmed rest is shorter than the remainder by at least the cut, so the loop terminates |
| MaxLineLengthRule.WrapRun | src/rules/MaxLineLengthRule.ts:31-45 | no contract of its own: the segments of the inner loop; `MaxLineLengthRule.RunSegments`, `WrapStep` and `NoWsRun` state what they are |
| MaxLineLengthRule.WrapLine | src/rules/MaxLineLengthRule.ts:27-46 | no contract of its own: a fitting line as it is, a longer one as its segments; `MaxLineLengthRule.LineSegments` states its bound |
| MaxLineLengthRule.WrapAll | src/rules/MaxLineLengthRule.ts:26-47 | no contract of its own: the outer loop's output lines; `MaxLineLengthRule.FittingLines` and `Bounded` state what they are |
| MaxLineLengthRule.Formatted | src/rules/MaxLineLengthRule.ts:11-50 | no contract of its own: the content under `warn`, the joined wrapped lines otherwise; `MaxLineLengthRule.Bounded`, `UnchangedIff` and `Idempotent` state its properties |
| MaxLineLengthRule.Format | src/rules/MaxLineLengthRule.ts:11-50 | the method, with its `for` and `while` loops, returns what the specification function `Formatted` returns |
| MaxLineLengthRule.WrapStep | src/rules/MaxLineLengthRule.ts:32-42 | one iteration of the inner loop emits `remaining[0..bp]` and continues on the trimmed rest |
| MaxLineLengthRule.RunSegments | src/rules/MaxLineLengthRule.ts:32-45 | every emitted segment is non-empty and within the limit |
| MaxLineLengthRule.LineSegments | src/rules/MaxLineLengthRule.ts:27-45 | each input line yields at least one output line, each within the limit |
| MaxLineLengthRule.Bounded | src/rules/MaxLineLengthRule.ts:23-49 | under wrap, every output line is within the limit, and the output lines are the wrapped input lines in order |
| MaxLineLengthRule.FittingLines | src/rules/MaxLineLengthRule.ts:27-28 | lines already within the limit are emitted unchanged and in order |
| MaxLineLengthRule.UnchangedIff | src/rules/MaxLineLengthRule.ts:17-49 | the content is unchanged exactly when the action is `warn` or every line fits |
| MaxLineLengthRule.Idempotent | src/rules/MaxLineLengthRule.ts:26-49 | wrapping wrapped output changes nothing |
| MaxLineLengthRule.NoWsRun | src/rules/MaxLineLengthRule.ts:32-45 | a line without whitespace is cut into segments that concatenate back to it, all but the last of exactly `max` characters |
| MaxLineLengthRule.DoubleLengthLine | src/rules/MaxLineLengthRule.ts:32-45 | a whitespace-free line of twice the limit becomes its two halves |
| MaxLineLengthRule.LongLineSplits | src/rules/MaxLineLengthRule.ts:32-45 | an over-long line with a non-whitespace character past the limit becomes at least two lines |
| MaxLineLengthRule.DoubleLengthExample | src/rules/MaxLineLengthRule.test.ts:95-113 | 160 `x` characters with limit 80 become exactly two 80-character lines |
| MaxLineLengthRule.Defaults | src/rules/MaxLineLengthRule.ts:14-20 | without an entry, the limit is 80, the action is `warn` and the content is returned as it is |
| Rules.FormatOf | src/rules/BaseFormattingRule.ts:14 | no contract of its own: dispatches `format` to the rule's own definition with its options resolved from the whole configuration; the per-rule lemmas above state what each returns |
| Rules.Applied | src/rules/BaseFormattingRule.ts:12-21 | the result's content is the rule's output; `changed` holds exactly when the output differs from the input; the applied names are `[name]` when changed and `[]` otherwise |
| Rules.Apply | src/rules/BaseFormattingRule.ts:12-21 | the template method, which runs `max-line-length`'s loops, returns `Applied` |
| Rules.AppliedConsistent | src/rules/BaseFormattingRule.ts:18-19 | changed exactly when a name is reported; at most one name; an unchanged result carries the input |
| Rules.ApplyTwiceUnchanged | src/rules/BaseFormattingRule.ts:12-21 | applying any rule to its own output reports no change |
| Rules.BuiltinNamesDistinct | src/plugins/CorePlugin.ts:20-24 | the five built-in rules carry five distinct names |
| Registry.Get | src/formatters/RuleRegistry.ts:15-17 | no contract of its own: `rules.get(name)`; `Registry.Insert`, `RegisterThenGet` and `EmptyHoldsNothing` state what it returns |
| Registry.Insert | src/formatters/RuleRegistry.ts:11-13 | after `set`, the rule is found under its name and every other name resolves as before; the key order gains the name only when it is new; well-formedness is kept |
| Registry.All | src/formatters/RuleRegistry.ts:19-21 | one rule per registered name, in key order; a name is registered exactly when some listed rule carries it |
| Registry.RegisterThenGet | src/formatters/RuleRegistry.test.ts:13-19 | after registering a rule, looking up its name returns it |
| Registry.SecondRegistrationReplaces | src/formatters/RuleRegistry.test.ts:21-30 | a second rule with the same name replaces the first and adds no listing |
| Registry.EmptyHoldsNothing | src/formatters/RuleRegistry.ts:9 | a fresh registry finds nothing and lists nothing |
| Registry.RuleRegistry.constructor | src/formatters/RuleRegistry.ts:9 | a new registry is empty |
| Registry.RuleRegistry.Register | src/formatters/RuleRegistry.ts:11-13 | the new state is `Insert` of the old state and the rule, and well-formedness is kept |
| Registry.RuleRegistry.GetRule | src/formatters/RuleRegistry.ts:15-17 | returns the rule under the name, or nothing |
| Registry.RuleRegistry.GetAllRules | src/formatters/RuleRegistry.ts:19-21 | returns `All` of the state |
| Plugins.InsertAll | src/plugins/PluginManager.ts:13-16 | no contract of its own: the rules registered one after another; `Plugins.InsertAllGet`, `InsertAllWellFormed` and `OrderOfFirstRegistration` state its result |
| Plugins.LoadAll | src/plugins/PluginManager.ts:21-23 | no contract of its own: the plugins loaded left to right; `Plugins.LoadAllIsInsertAll`, `LaterPluginWins` and `Available` state its result |
| Plugins.InsertAllGet | src/plugins/PluginManager.ts:13-16 | after registering a list, a name resolves to the last rule in the list that carries it, or as before when none does |
| Plugins.InsertAllWellFormed | src/plugins/PluginManager.ts:13-16 | registering a list keeps the registry well formed |
| Plugins.LoadAllIsInsertAll | src/plugins/PluginManager.ts:21-23 | loading plugins left to right registers all their rules in order |
| Plugins.LaterPluginWins | src/plugins/PluginManager.ts:21-23 | when two plugins supply the same name, the later plugin's rule wins |
| Plugins.Available | src/plugins/PluginManager.test.ts:62-78 | after loading, a name resolves exactly when some loaded plugin supplies it; loading no plugins registers nothing |
| Plugins.OrderMembers | src/formatters/RuleRegistry.ts:11-21 | the listed names are exactly the registered rules' names |
| Plugins.OrderOfFirstRegistration | src/formatters/RuleRegistry.ts:11-21 | `getAllRules` lists names in order of first registration |
| Plugins.DistinctOrder | src/formatters/RuleRegistry.test.ts:54-65 | registering rules with distinct names lists them in registration order |
| Plugins.CoreFacts | src/plugins/CorePlugin.ts:15-26 | the constant `Plugins.Core` is `core` 1.0.0 and supplies five rules named indentation, line-ending, trailing-whitespace, final-newline and max-line-length, pairwise distinct |
| Plugins.CoreLoaded | src/plugins/PluginManager.test.ts:49-58 | loading the core plugin into an empty registry creates five entries in that order, each name resolving to its rule, and nothing else |
| Plugins.PluginManager.constructor | src/plugins/PluginManager.ts:8 | the manager holds the registry it is given |
| Plugins.PluginManager.LoadPlugin | src/plugins/PluginManager.ts:13-16 | the registry becomes the old registry with the plugin's rules registered in order |
| Plugins.PluginManager.LoadPlugins | src/plugins/PluginManager.ts:21-23 | the registry becomes the old registry with the plugins loaded left to right |
| Formatter.Effective | src/formatters/CodeFormatter.ts:13 | no contract of its own: a missing configuration is `{ rules: [] }`; `Formatter.NothingEnabled` states the consequence |
| Formatter.Enabled | src/formatters/CodeFormatter.ts:19 | the filter keeps exactly the enabled entries and is empty exactly when no entry is enabled |
| Formatter.EnabledSnoc | src/formatters/CodeFormatter.ts:19 | the filter keeps the order of the entries |
| Formatter.Step | src/formatters/CodeFormatter.ts:22-35 | no contract of its own: one loop pass, skipping an unregistered name and taking the result only when the rule reports a change |
| Formatter.Run | src/formatters/CodeFormatter.ts:21-36 | no contract of its own: the loop over the entries; `Formatter.ChangedIffNamed`, `ContentIsComposition`, `NamedAreRegistered` and `AppliedInOrder` state its result |
| Formatter.Pipeline | src/formatters/CodeFormatter.ts:12-43 | no contract of its own: `format` as a function, the loop over the enabled entries of the effective configuration |
| Formatter.Compose | src/formatters/CodeFormatter.ts:21-36 | no contract of its own: the independent reference, every registered rule applied in entry order whether or not it changes anything; `Formatter.ContentIsComposition` ties the loop to it |
| Formatter.ChangedIffNamed | src/formatters/CodeFormatter.ts:14-34 | `changed` holds exactly when a name is recorded; an unchanged result carries the input; at most one name per entry |
| Formatter.ContentIsComposition | src/formatters/CodeFormatter.ts:21-35 | the output is each registered rule applied to the previous rule's output, in entry order |
| Formatter.NamedAreRegistered | src/formatters/CodeFormatter.ts:22-33 | every recorded name is registered and is named by an entry |
| Formatter.AppliedInOrder | src/formatters/CodeFormatter.ts:19-34 | the recorded names are the entries' names with some left out, in entry order, so a repeated entry can be recorded twice |
| Formatter.FixedPointUnchanged | src/formatters/CodeFormatter.ts:21-36 | when every registered rule leaves the content alone, the result is unchanged and names nothing |
| Formatter.UnregisteredSkipped | src/formatters/CodeFormatter.test.ts:90-100 | entries naming unregistered rules have no effect |
| Formatter.NothingEnabled | src/formatters/CodeFormatter.ts:13-19 | with no config, no rules or only disabled entries, the content is returned unchanged with no names |
| Formatter.SingleEntry | src/formatters/CodeFormatter.ts:21-36 | with one enabled registered entry, the result is that rule's `apply` |
| Formatter.SecondOfTwo | src/formatters/CodeFormatter.test.ts:53-66 | a disabled entry is skipped and the enabled one after it is applied |
| Formatter.DisabledEntrySuppliesOptions | src/formatters/CodeFormatter.ts:25-28 | a rule takes its options from the first entry with its name, even a disabled one |
| Formatter.CodeFormatter.constructor | src/formatters/CodeFormatter.ts:10 | the formatter holds the registry it is given |
| Formatter.CodeFormatter.Format | src/formatters/CodeFormatter.ts:12-43 | the loop returns the pipeline result for the registry's current state |
| Index.DefaultConfig | src/index.ts:37-47 | no contract of its own: the five default entries; `Index.DefaultEntries`, `DefaultOptions` and `DefaultEnabled` state what they are |
| Index.DefaultRegistry | src/index.ts:25-29 | no contract of its own: the core plugin loaded into an empty registry; `Plugins.CoreLoaded` and `Index.DefaultRegistryGets` state what it holds |
| Index.DefaultEntries | src/index.ts:37-46 | the default entries name the five core rules in order, and all but `max-line-length` are enabled |
| Index.DefaultOptions | src/index.ts:40-44 | the default options resolve to indentation space/2, ending LF, `insert` on, and 80/warn |
| Index.DefaultEnabled | src/index.ts:40-44 | the enabled default entries are the first four |
| Index.DefaultRegistryGets | src/index.ts:24-31 | the default registry resolves each of the five names to its built-in rule |
| Index.DefaultPipeline | src/index.ts:24-46 | the default pipeline's content is indentation, then LF endings, then trailing-whitespace removal, then the final newline |
| Index.DefaultOutputShape | src/index.test.ts:51-67 | under the defaults the output has no CR, is empty or ends in a line feed, and no line ends in whitespace |
| Index.FormattedLineUnchanged | src/index.test.ts:81-90 | a trimmed single line ending in a line feed passes the defaults unchanged, with no names |
| Index.HelloWorldUnchanged | src/index.test.ts:81-90 | `"hello world\n"` is unchanged under the defaults, and no rule is named |
| Index.CreateFormatter | src/index.ts:24-32 | returns a new formatter over a new well-formed registry holding exactly the core plugin's rules |

## Left out

- `src/cli.ts` is not part of this model. It is command-line I/O: argument parsing, prompts, file reads and writes, globbing and exit codes.
- `async`/`Promise`: `format` never awaits, so it is modelled synchronously.
- Interfaces and `BasePlugin` become datatypes, with no behaviour to prove. `filePath` in the context is never read by any rule and is not modelled. Neither is a rule's `description`.
- The `plugins` field of the configuration is carried but never read, as in the formatter.
- Options are typed: sizes and lengths are `nat`. Negative values, where `repeat` throws and the wrap loop never ends, and values of other JS types are not modelled.
- Third-party rules are represented only by `Passthrough`, a rule that returns its input under a name of its own. Rules with arbitrary behaviour are not modelled.
- The whole default pipeline is not idempotent. For example, `"a\r b"` becomes `"a\n b\n"` and then loses the leading space on a second pass. Idempotence is proved per rule only.
- MaxLineLengthRule.Format: lengths, positions and cuts (`length`, `lastIndexOf`, `substring`) are counted in code points, where JS counts UTF-16 code units. A line holding characters outside the Basic Multilingual Plane is measured shorter than JS measures it, so it can wrap differently or not at all. A cut that splits a surrogate pair in half is not modelled, because a lone surrogate is not a Dafny `char`. The same holds for `MaxLineLengthRule.Formatted`, `LastIndexOf` and `BreakPoint`.
- `IsWs` is a fixed code-point set. No Unicode database or case folding is involved.
- `Formatter.DisabledEntrySuppliesOptions`: shown for the indentation rule with one pair of entries, not for every rule. The general fact is that every rule's options come from `Types.OptionsFor`, which uses `FirstIndex` over all entries.
