/** The `indentation` rule: the leading whitespace run of every line is
    measured (a tab counts two columns), turned into a whole number of
    indentation levels, and re-emitted as that many indentation units. */
module IndentationRule {
  import opened Wrappers
  import opened Types
  import opened Text

  const Name := "indentation"

  type Size = n: nat | n >= 1 witness 1

  /** The resolved options: tab style or space style, and the space count
      of one level. */
  datatype IndentOptions = IndentOptions(tab: bool, size: Size)

  /** `style || "space"` and `size || 2` on the first `indentation`
      entry; only the style `tab` selects tabs. */
  function OptionsOf(config: FormatterConfig): (o: IndentOptions)
    ensures o.tab <==> OptionsFor(config, Name).style == Some("tab")
    ensures o.size == 2 <==> OptionsFor(config, Name).size in {None, Some(0), Some(2)}
    ensures OptionsFor(config, Name).size.Some? && OptionsFor(config, Name).size.value > 0 ==>
      o.size == OptionsFor(config, Name).size.value
  {
    var opts := OptionsFor(config, Name);
    var style := if opts.style.None? || opts.style.value == "" then "space" else opts.style.value;
    var size := if opts.size.None? || opts.size.value == 0 then 2 else opts.size.value;
    IndentOptions(style == "tab", size)
  }

  /** One level of indentation: a tab, or `size` spaces. */
  function Unit(o: IndentOptions): string
  {
    if o.tab then "\t" else Repeat(" ", o.size)
  }

  /** The columns one level stands for: 2 in tab style, `size` otherwise. */
  function Divisor(o: IndentOptions): Size
  {
    if o.tab then 2 else o.size
  }

  /** The measured width of a leading run: its length once every tab is
      replaced by two spaces. */
  function Width(ws: string): nat
  {
    |ReplaceAll(ws, '\t', "  ")|
  }

  function Level(line: string, o: IndentOptions): nat
  {
    Width(LeadingWs(line)) / Divisor(o)
  }

  /** The line after its leading whitespace run. */
  function Rest(line: string): string
  {
    line[|LeadingWs(line)|..]
  }

  function FormatLine(line: string, o: IndentOptions): string
  {
    var level := Level(line, o);
    if level > 0 then Repeat(Unit(o), level) + Rest(line) else Rest(line)
  }

  function FormatLines(ls: seq<string>, o: IndentOptions): (r: seq<string>)
    ensures |r| == |ls|
  {
    seq(|ls|, i requires 0 <= i < |ls| => FormatLine(ls[i], o))
  }

  function Format(content: string, o: IndentOptions): string
  {
    Join(FormatLines(Split(content), o))
  }

  /** Every character of the unit is whitespace other than a line feed. */
  lemma UnitIsWs(o: IndentOptions)
    ensures forall i | 0 <= i < |Unit(o)| :: IsWs(Unit(o)[i]) && Unit(o)[i] != '\n'
  {
    forall i | 0 <= i < |Unit(o)| ensures IsWs(Unit(o)[i]) && Unit(o)[i] != '\n' {
      assert Unit(o)[i] in Unit(o);
    }
  }

  /** A repeated unit is whitespace and holds no line feed. */
  lemma IndentIsWs(o: IndentOptions, k: nat)
    ensures forall i | 0 <= i < |Repeat(Unit(o), k)| :: IsWs(Repeat(Unit(o), k)[i])
    ensures '\n' !in Repeat(Unit(o), k)
  {
    UnitIsWs(o);
    var r := Repeat(Unit(o), k);
    forall i | 0 <= i < |r| ensures IsWs(r[i]) && r[i] != '\n' {
      assert r[i] in r;
      assert r[i] in Unit(o);
    }
  }

  /** The width of one unit is exactly the divisor. */
  lemma UnitWidth(o: IndentOptions)
    ensures Width(Unit(o)) == Divisor(o)
  {
    if o.tab {
      assert ReplaceAll("\t", '\t', "  ") == "  " by {
        assert "\t"[1..] == "";
      }
    } else {
      assert '\t' !in Unit(o);
      ReplaceAllAbsent(Unit(o), '\t', "  ");
    }
  }

  /** `k` units measure `k` times a unit. */
  lemma {:induction false} RepeatWidth(u: string, k: nat)
    ensures Width(Repeat(u, k)) == k * Width(u)
    decreases k
  {
    if k > 0 {
      RepeatWidth(u, k - 1);
      ReplaceAllAppend(u, Repeat(u, k - 1), '\t', "  ");
    }
  }

  lemma {:induction false} MulAtLeast(m: nat, d: nat)
    requires m >= 1
    ensures m * d >= d
    decreases m
  {
    if m > 1 {
      MulAtLeast(m - 1, d);
      assert m * d == (m - 1) * d + d;
    }
  }

  /** Distinct multiples of `d` are at least `d` apart. */
  lemma MulGap(a: int, b: int, d: nat)
    ensures a < b ==> a * d + d <= b * d
  {
    if a < b {
      MulAtLeast(b - a, d);
      assert (b - a) * d == b * d - a * d;
    }
  }

  /** `k` whole levels measure back to exactly `k` levels. */
  lemma MulDiv(k: nat, d: Size)
    ensures (k * d) / d == k
  {
    var q, r := (k * d) / d, (k * d) % d;
    assert k * d == q * d + r;
    MulGap(q, k, d);
    MulGap(k, q, d);
  }

  /** What the rule does to one line: the leading run is replaced by
      `level` units, where `level` is the measured width divided by the
      divisor and rounded down; the rest of the line is kept verbatim. */
  lemma LineShape(line: string, o: IndentOptions)
    ensures FormatLine(line, o) == Repeat(Unit(o), Width(LeadingWs(line)) / Divisor(o)) + Rest(line)
    ensures line == LeadingWs(line) + Rest(line)
    ensures Rest(line) == [] || !IsWs(Rest(line)[0])
    ensures '\n' !in line ==> '\n' !in FormatLine(line, o)
  {
    var k := Level(line, o);
    if k == 0 {
      assert Repeat(Unit(o), k) + Rest(line) == Rest(line);
    }
    if '\n' !in line {
      IndentIsWs(o, k);
      assert '\n' !in Rest(line);
    }
  }

  /** A line already made of whole units followed by non-whitespace is a
      fixed point. */
  lemma CanonicalLine(o: IndentOptions, k: nat, rest: string)
    requires rest == [] || !IsWs(rest[0])
    ensures FormatLine(Repeat(Unit(o), k) + rest, o) == Repeat(Unit(o), k) + rest
  {
    var line := Repeat(Unit(o), k) + rest;
    IndentIsWs(o, k);
    LeadingWsOf(Repeat(Unit(o), k), rest);
    RepeatWidth(Unit(o), k);
    UnitWidth(o);
    MulDiv(k, Divisor(o));
    assert Rest(line) == rest;
    LineShape(line, o);
  }

  /** Re-indenting a line a second time changes nothing. */
  lemma LineIdempotent(line: string, o: IndentOptions)
    ensures FormatLine(FormatLine(line, o), o) == FormatLine(line, o)
  {
    LineShape(line, o);
    CanonicalLine(o, Level(line, o), Rest(line));
  }

  /** Lines keep their number and order; each output line is the
      re-indented input line. */
  lemma FormatSplits(content: string, o: IndentOptions)
    ensures Split(Format(content, o)) == FormatLines(Split(content), o)
    ensures |Split(Format(content, o))| == |Split(content)|
    ensures multiset(Format(content, o))['\n'] == multiset(content)['\n']
  {
    var ls := Split(content);
    forall i | 0 <= i < |ls| ensures '\n' !in FormatLine(ls[i], o) {
      LineShape(ls[i], o);
    }
    SplitJoin(FormatLines(ls, o));
    SplitCount(content);
    SplitCount(Format(content, o));
  }

  /** A line without leading whitespace is unchanged; a leading run
      narrower than one level is removed entirely. */
  lemma LineCases(line: string, o: IndentOptions)
    ensures LeadingWs(line) == [] ==> FormatLine(line, o) == line
    ensures Width(LeadingWs(line)) < Divisor(o) ==> FormatLine(line, o) == Rest(line)
  {
    if LeadingWs(line) == [] {
      assert ReplaceAll([], '\t', "  ") == [];
    }
  }

  /** Re-indenting the whole text a second time changes nothing, in both
      styles. */
  lemma Idempotent(content: string, o: IndentOptions)
    ensures Format(Format(content, o), o) == Format(content, o)
  {
    FormatSplits(content, o);
    var ls := Split(content);
    assert FormatLines(FormatLines(ls, o), o) == FormatLines(ls, o) by {
      forall i | 0 <= i < |ls| ensures FormatLine(FormatLine(ls[i], o), o) == FormatLine(ls[i], o) {
        LineIdempotent(ls[i], o);
      }
    }
  }

  /** Text whose lines have no leading whitespace is returned unchanged. */
  lemma Unindented(content: string, o: IndentOptions)
    requires forall i | 0 <= i < |Split(content)| :: LeadingWs(Split(content)[i]) == []
    ensures Format(content, o) == content
  {
    var ls := Split(content);
    assert FormatLines(ls, o) == ls by {
      forall i | 0 <= i < |ls| ensures FormatLine(ls[i], o) == ls[i] {
        LineCases(ls[i], o);
      }
    }
    JoinSplit(content);
  }

  /** A line made of a whitespace run `w` and a rest not starting with
      whitespace gets `Width(w) / Divisor(o)` units before that rest. */
  lemma LineOf(w: string, rest: string, o: IndentOptions)
    requires forall i | 0 <= i < |w| :: IsWs(w[i])
    requires rest == [] || !IsWs(rest[0])
    ensures FormatLine(w + rest, o) == Repeat(Unit(o), Width(w) / Divisor(o)) + rest
  {
    LeadingWsOf(w, rest);
    LineShape(w + rest, o);
  }

  /** A two-line text is re-indented line by line. */
  lemma TwoLines(l1: string, l2: string, o: IndentOptions)
    requires '\n' !in l1 && '\n' !in l2
    ensures Format(l1 + "\n" + l2, o) == FormatLine(l1, o) + "\n" + FormatLine(l2, o)
  {
    SplitNewline(l1, l2);
    SplitLine(l2);
    assert Split(l1 + "\n" + l2) == [l1, l2];
    assert FormatLines([l1, l2], o) == [FormatLine(l1, o), FormatLine(l2, o)];
    JoinCons(FormatLine(l1, o), [FormatLine(l2, o)]);
  }

  /** Two lines, each a whitespace run followed by text, re-indent
      independently. */
  lemma TwoIndentedLines(w1: string, a: string, w2: string, b: string, o: IndentOptions)
    requires forall i | 0 <= i < |w1| :: IsWs(w1[i]) && w1[i] != '\n'
    requires forall i | 0 <= i < |w2| :: IsWs(w2[i]) && w2[i] != '\n'
    requires a != [] && !IsWs(a[0]) && '\n' !in a
    requires b != [] && !IsWs(b[0]) && '\n' !in b
    ensures Format(w1 + a + "\n" + w2 + b, o) ==
      Repeat(Unit(o), Width(w1) / Divisor(o)) + a + "\n" + Repeat(Unit(o), Width(w2) / Divisor(o)) + b
  {
    LineOf(w1, a, o);
    LineOf(w2, b, o);
    assert '\n' !in w1 + a by {
      forall i | 0 <= i < |w1 + a| ensures (w1 + a)[i] != '\n' {
        if i >= |w1| { assert (w1 + a)[i] == a[i - |w1|]; }
      }
    }
    assert '\n' !in w2 + b by {
      forall i | 0 <= i < |w2 + b| ensures (w2 + b)[i] != '\n' {
        if i >= |w2| { assert (w2 + b)[i] == b[i - |w2|]; }
      }
    }
    TwoLines(w1 + a, w2 + b, o);
    assert w1 + a + "\n" + w2 + b == (w1 + a) + "\n" + (w2 + b);
  }

  /** Width of a run of spaces: one column each. */
  lemma SpacesWidth(n: nat)
    ensures Width(Repeat(" ", n)) == n
  {
    assert '\t' !in Repeat(" ", n);
    ReplaceAllAbsent(Repeat(" ", n), '\t', "  ");
  }

  /** Width of a run of tabs: two columns each. */
  lemma TabsWidth(n: nat)
    ensures Width(Repeat("\t", n)) == 2 * n
  {
    RepeatWidth("\t", n);
    assert ReplaceAll("\t", '\t', "  ") == "  " by { assert "\t"[1..] == ""; }
  }

  /** Text that can follow a leading run: non-empty, not starting with
      whitespace, without a line feed. */
  predicate LineText(a: string)
  {
    a != [] && !IsWs(a[0]) && '\n' !in a
  }

  /** Four spaces and two spaces under space/2 are two levels and one
      level, already canonical, so nothing changes. */
  lemma SpacesKept(a: string, b: string)
    requires LineText(a) && LineText(b)
    ensures var s := Repeat(" ", 4) + a + "\n" + Repeat(" ", 2) + b;
      Format(s, IndentOptions(false, 2)) == s
  {
    var o := IndentOptions(false, 2);
    SpacesWidth(4);
    SpacesWidth(2);
    assert Width(Repeat(" ", 4)) / Divisor(o) == 2;
    assert Width(Repeat(" ", 2)) / Divisor(o) == 1;
    assert Unit(o) == Repeat(" ", 2);
    TwoIndentedLines(Repeat(" ", 4), a, Repeat(" ", 2), b, o);
    assert Repeat(Unit(o), 2) == Repeat(" ", 4);
    assert Repeat(Unit(o), 1) == Repeat(" ", 2);
  }

  /** Under space/2, two tabs measure four columns and become two levels
      of two spaces; one tab becomes one level. */
  lemma TabsToSpaces(a: string, b: string)
    requires LineText(a) && LineText(b)
    ensures Format(Repeat("\t", 2) + a + "\n" + Repeat("\t", 1) + b, IndentOptions(false, 2))
      == Repeat(" ", 4) + a + "\n" + Repeat(" ", 2) + b
  {
    var o := IndentOptions(false, 2);
    TabsWidth(2);
    TabsWidth(1);
    assert Width(Repeat("\t", 2)) / Divisor(o) == 2;
    assert Width(Repeat("\t", 1)) / Divisor(o) == 1;
    assert Unit(o) == Repeat(" ", 2);
    assert forall i | 0 <= i < |Repeat("\t", 2)| :: Repeat("\t", 2)[i] == '\t';
    assert forall i | 0 <= i < |Repeat("\t", 1)| :: Repeat("\t", 1)[i] == '\t';
    TwoIndentedLines(Repeat("\t", 2), a, Repeat("\t", 1), b, o);
    assert Repeat(Unit(o), 2) == Repeat(" ", 4);
    assert Repeat(Unit(o), 1) == Repeat(" ", 2);
  }

  /** Under tab style, four spaces become two tabs and two spaces one tab. */
  lemma SpacesToTabs(a: string, b: string)
    requires LineText(a) && LineText(b)
    ensures Format(Repeat(" ", 4) + a + "\n" + Repeat(" ", 2) + b, IndentOptions(true, 2))
      == Repeat("\t", 2) + a + "\n" + Repeat("\t", 1) + b
  {
    var o := IndentOptions(true, 2);
    SpacesWidth(4);
    SpacesWidth(2);
    assert Width(Repeat(" ", 4)) / Divisor(o) == 2;
    assert Width(Repeat(" ", 2)) / Divisor(o) == 1;
    TwoIndentedLines(Repeat(" ", 4), a, Repeat(" ", 2), b, o);
  }

  /** The two texts of the `IndentationRule` tests, taken apart into their
      leading runs and the words after them. */
  lemma HelloWorldParts(s: string, t: string)
    requires s == "    hello\n  world" && t == "\t\thello\n\tworld"
    ensures s == Repeat(" ", 4) + "hello" + "\n" + Repeat(" ", 2) + "world"
    ensures t == Repeat("\t", 2) + "hello" + "\n" + Repeat("\t", 1) + "world"
    ensures LineText("hello") && LineText("world")
  {
    assert Repeat(" ", 4) == "    " && Repeat(" ", 2) == "  ";
    assert Repeat("\t", 2) == "\t\t" && Repeat("\t", 1) == "\t";
    assert "hello"[0] == 'h' && "world"[0] == 'w';
  }

  /** `"    hello\n  world"` is kept under space/2. */
  lemma SpacesKeptExample(s: string, t: string)
    requires s == "    hello\n  world" && t == "\t\thello\n\tworld"
    ensures Format(s, IndentOptions(false, 2)) == s
  {
    HelloWorldParts(s, t);
    SpacesKept("hello", "world");
  }

  /** `"\t\thello\n\tworld"` becomes `"    hello\n  world"` under space/2. */
  lemma TabsToSpacesExample(s: string, t: string)
    requires s == "    hello\n  world" && t == "\t\thello\n\tworld"
    ensures Format(t, IndentOptions(false, 2)) == s
  {
    HelloWorldParts(s, t);
    TabsToSpaces("hello", "world");
  }

  /** `"    hello\n  world"` becomes `"\t\thello\n\tworld"` under tab style. */
  lemma SpacesToTabsExample(s: string, t: string)
    requires s == "    hello\n  world" && t == "\t\thello\n\tworld"
    ensures Format(s, IndentOptions(true, 2)) == t
  {
    HelloWorldParts(s, t);
    SpacesToTabs("hello", "world");
  }

  /** The configurations the examples use resolve to these options. */
  lemma OptionsExamples(space: FormatterConfig, tab: FormatterConfig, none: FormatterConfig)
    requires space == FormatterConfig([RuleConfig(Name, true, Options(Some("space"), Some(2), None, None, None))], None)
    requires tab == FormatterConfig([RuleConfig(Name, true, Options(Some("tab"), None, None, None, None))], None)
    requires none == EmptyConfig
    ensures OptionsOf(space) == IndentOptions(false, 2)
    ensures OptionsOf(tab) == IndentOptions(true, 2)
    ensures OptionsOf(none) == IndentOptions(false, 2)
  {
  }
}
