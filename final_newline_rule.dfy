/** The `final-newline` rule: non-empty content that does not end in a line
    feed gains one, unless the `insert` option is literally `false`. */
module FinalNewlineRule {
  import opened Wrappers
  import opened Types

  const Name := "final-newline"

  /** `insert` is off only when the first `final-newline` entry sets it to
      `false`; a missing entry, missing options or a missing key mean on. */
  function InsertOf(config: FormatterConfig): (insert: bool)
    ensures !insert <==>
      var k := FirstIndex(config.rules, Name);
      k >= 0 && config.rules[k].options.insert == Some(false)
  {
    OptionsFor(config, Name).insert != Some(false)
  }

  function Format(content: string, insert: bool): (r: string)
    ensures r == content || r == content + "\n"
    ensures |r| == 0 <==> |content| == 0
    ensures insert && r != [] ==> r[|r| - 1] == '\n'
    ensures !insert ==> r == content
    ensures content != [] && content[|content| - 1] == '\n' ==> r == content
  {
    if insert && |content| > 0 && content[|content| - 1] != '\n' then content + "\n"
    else content
  }

  /** Applying the rule twice is applying it once. */
  lemma Idempotent(content: string, insert: bool)
    ensures Format(Format(content, insert), insert) == Format(content, insert)
  {
  }

  /** The cases of the `FinalNewlineRule` tests: a missing, a present and a
      doubled final newline, `insert: false`, and empty content. */
  lemma Examples(s: string)
    requires s == "hello world"
    ensures Format(s, true) == "hello world\n"
    ensures Format(s + "\n", true) == "hello world\n"
    ensures Format(s, false) == s
    ensures Format("", true) == ""
    ensures Format(s + "\n\n", true) == s + "\n\n"
  {
    assert (s + "\n\n")[|s + "\n\n"| - 1] == '\n';
  }
}
