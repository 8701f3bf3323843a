/** The `trailing-whitespace` rule: every line loses the whitespace run at
    its end. It reads no options. */
module TrailingWhitespaceRule {
  import opened Text

  const Name := "trailing-whitespace"

  function TrimLines(ls: seq<string>): (r: seq<string>)
    ensures |r| == |ls|
  {
    seq(|ls|, i requires 0 <= i < |ls| => TrimEnd(ls[i]))
  }

  /** Split on line feeds, trim each line's end, join again. */
  function Format(content: string): string
  {
    Join(TrimLines(Split(content)))
  }

  /** The output has the input's line count, and each output line is its
      input line with the trailing whitespace run, and only that, removed. */
  lemma FormatLines(content: string)
    ensures |Split(Format(content))| == |Split(content)|
    ensures multiset(Format(content))['\n'] == multiset(content)['\n']
    ensures forall i | 0 <= i < |Split(content)| ::
      var line, out := Split(content)[i], Split(Format(content))[i];
      && out <= line
      && (out == [] || !IsWs(out[|out| - 1]))
      && (forall j | |out| <= j < |line| :: IsWs(line[j]))
  {
    var ls := Split(content);
    var out := TrimLines(ls);
    assert IsLines(out) by {
      forall i | 0 <= i < |out| ensures '\n' !in out[i] {
        assert out[i] <= ls[i];
        assert '\n' !in ls[i];
      }
    }
    SplitJoin(out);
    SplitCount(content);
    SplitCount(Format(content));
  }

  /** The content is unchanged exactly when no line ends in whitespace. */
  lemma UnchangedIff(content: string)
    ensures Format(content) == content <==>
      forall i | 0 <= i < |Split(content)| :: Split(content)[i] == [] || !IsWs(Split(content)[i][|Split(content)[i]| - 1])
  {
    var ls := Split(content);
    FormatLines(content);
    if forall i | 0 <= i < |ls| :: ls[i] == [] || !IsWs(ls[i][|ls[i]| - 1]) {
      assert TrimLines(ls) == ls by {
        forall i | 0 <= i < |ls| ensures TrimEnd(ls[i]) == ls[i] {
          TrimEndOf(ls[i], "");
          assert ls[i] + "" == ls[i];
        }
      }
      JoinSplit(content);
    }
  }

  /** Trimming twice is trimming once. */
  lemma Idempotent(content: string)
    ensures Format(Format(content)) == Format(content)
  {
    FormatLines(content);
    UnchangedIff(Format(content));
  }

  /** A two-line text whose lines end in the whitespace runs `wa` and `wb`
      loses exactly those runs. */
  lemma TwoLines(a: string, wa: string, b: string, wb: string)
    requires '\n' !in a + wa && '\n' !in b + wb
    requires a == [] || !IsWs(a[|a| - 1])
    requires b == [] || !IsWs(b[|b| - 1])
    requires forall i | 0 <= i < |wa| :: IsWs(wa[i])
    requires forall i | 0 <= i < |wb| :: IsWs(wb[i])
    ensures Format(a + wa + "\n" + b + wb) == a + "\n" + b
  {
    SplitNewline(a + wa, b + wb);
    SplitLine(b + wb);
    assert a + wa + "\n" + b + wb == (a + wa) + "\n" + (b + wb);
    var ls := Split(a + wa + "\n" + b + wb);
    assert ls == [a + wa, b + wb];
    TrimEndOf(a, wa);
    TrimEndOf(b, wb);
    assert TrimLines(ls) == [a, b];
    JoinCons(a, [b]);
  }

  /** Spaces, tabs and mixed runs all go; leading whitespace stays. */
  lemma MixedRunExample(s: string)
    requires s == "hello \t \nworld"
    ensures Format(s) == "hello\nworld"
  {
    TwoLines("hello", " \t ", "world", "");
    assert "hello" + " \t " + "\n" + "world" + "" == s;
  }

  lemma LeadingKeptParts(s: string)
    requires s == "  hello  \n    world  "
    ensures s == "  hello" + "  " + "\n" + "    world" + "  "
  {
  }

  /** Leading whitespace is kept; only the trailing runs go. */
  lemma LeadingKeptExample(s: string)
    requires s == "  hello  \n    world  "
    ensures Format(s) == "  hello\n    world"
  {
    LeadingKeptParts(s);
    TwoLines("  hello", "  ", "    world", "  ");
  }
}
