/** The `max-line-length` rule: under the `warn` action the content is
    returned as it is; under any other action every line longer than the
    limit is cut into segments, preferring a space late in the line. */
module MaxLineLengthRule {
  import opened Wrappers
  import opened Types
  import opened Text

  const Name := "max-line-length"

  type Length = n: nat | n >= 1 witness 1

  /** The resolved options: the limit and whether to wrap (any action
      other than `warn`) or only warn. */
  datatype WrapOptions = WrapOptions(length: Length, wrap: bool)

  /** `length || 80` and `action || 'warn'` on the first
      `max-line-length` entry. */
  function OptionsOf(config: FormatterConfig): (o: WrapOptions)
    ensures o.length == 80 <==> OptionsFor(config, Name).length in {None, Some(0), Some(80)}
    ensures OptionsFor(config, Name).length.Some? && OptionsFor(config, Name).length.value > 0 ==>
      o.length == OptionsFor(config, Name).length.value
    ensures !o.wrap <==> OptionsFor(config, Name).action in {None, Some(""), Some("warn")}
  {
    var opts := OptionsFor(config, Name);
    var length := if opts.length.None? || opts.length.value == 0 then 80 else opts.length.value;
    var action := if opts.action.None? || opts.action.value == "" then "warn" else opts.action.value;
    WrapOptions(length, action != "warn")
  }

  /** `s.lastIndexOf(c, from)` for a start position inside `s`: the largest
      index at or before `from` that holds `c`, or -1 when there is none. */
  function LastIndexOf(s: string, c: char, from: nat): (k: int)
    requires from < |s|
    ensures -1 <= k <= from
    ensures k >= 0 ==> s[k] == c
    ensures forall i | k < i <= from :: s[i] != c
    decreases from
  {
    if s[from] == c then from
    else if from == 0 then -1
    else LastIndexOf(s, c, from - 1)
  }

  /** A space at index `i` is a break candidate when it lies beyond 60% of
      the limit; `5 * i > 3 * max` is `i > max * 0.6` on integers. */
  predicate Candidate(rem: string, i: int, max: Length)
    requires 0 <= i < |rem|
  {
    rem[i] == ' ' && 5 * i > 3 * max
  }

  /** Where an over-long remainder is cut: the last candidate space at or
      before index `max`, or `max` itself when there is none. */
  function BreakPoint(rem: string, max: Length): (bp: nat)
    requires |rem| > max
    ensures 1 <= bp <= max
    ensures bp < max ==> Candidate(rem, bp, max)
    ensures forall i | bp < i <= max :: !Candidate(rem, i, max)
    ensures !Candidate(rem, bp, max) ==> forall i | 0 <= i <= max :: !Candidate(rem, i, max)
  {
    var k := LastIndexOf(rem, ' ', max);
    if 5 * k > 3 * max then k else max
  }

  /** What remains after a cut at `bp`: the rest, trimmed at both ends. */
  function After(rem: string, bp: nat): (r: string)
    requires bp <= |rem|
    ensures |r| <= |rem| - bp
  {
    Trim(rem[bp..])
  }

  /** The segments the inner loop emits for a remainder: cuts while it is
      longer than the limit, then the last piece if it is non-empty. */
  function WrapRun(rem: string, max: Length): (segs: seq<string>)
    decreases |rem|
  {
    if |rem| > max then
      var bp := BreakPoint(rem, max);
      [rem[..bp]] + WrapRun(After(rem, bp), max)
    else if |rem| > 0 then [rem]
    else []
  }

  /** The lines one input line becomes: itself when it fits, its segments
      otherwise. */
  function WrapLine(line: string, max: Length): seq<string>
  {
    if |line| <= max then [line] else WrapRun(line, max)
  }

  /** The lines a sequence of input lines becomes, in order. */
  function WrapAll(lines: seq<string>, max: Length): seq<string>
  {
    if lines == [] then []
    else WrapAll(lines[..|lines| - 1], max) + WrapLine(lines[|lines| - 1], max)
  }

  /** The rule's result on given options. */
  function Formatted(content: string, o: WrapOptions): string
  {
    if !o.wrap then content else Join(WrapAll(Split(content), o.length))
  }

  /** The rule: the option lookup, the warn branch, and the wrap loops. */
  method Format(content: string, config: FormatterConfig) returns (r: string)
    ensures r == Formatted(content, OptionsOf(config))
  {
    var o := OptionsOf(config);
    if !o.wrap {
      return content;
    }
    var max := o.length;
    var lines := Split(content);
    var wrapped: seq<string> := [];
    for i := 0 to |lines|
      invariant wrapped == WrapAll(lines[..i], max)
    {
      var line := lines[i];
      ghost var prefix := wrapped;
      if |line| <= max {
        wrapped := wrapped + [line];
      } else {
        var remaining := line;
        while |remaining| > max
          invariant wrapped + WrapRun(remaining, max) == prefix + WrapRun(line, max)
          decreases |remaining|
        {
          var breakPoint := max;
          var spaceIndex := LastIndexOf(remaining, ' ', max);
          if 5 * spaceIndex > 3 * max {
            breakPoint := spaceIndex;
          }
          WrapStep(wrapped, remaining, max);
          wrapped := wrapped + [remaining[..breakPoint]];
          remaining := Trim(remaining[breakPoint..]);
        }
        LastPiece(wrapped, remaining, max);
        if |remaining| > 0 {
          wrapped := wrapped + [remaining];
        }
      }
      WrapAllNext(lines, i, max);
    }
    assert lines[..|lines|] == lines;
    r := Join(wrapped);
  }

  /** One turn of the inner loop: the segment up to the break point is
      emitted, and what is left to emit is the wrapping of the trimmed
      tail. */
  lemma WrapStep(done: seq<string>, rem: string, max: Length)
    requires |rem| > max
    ensures var bp := BreakPoint(rem, max);
      (done + [rem[..bp]]) + WrapRun(Trim(rem[bp..]), max) == done + WrapRun(rem, max)
  {
    var bp := BreakPoint(rem, max);
    assert WrapRun(rem, max) == [rem[..bp]] + WrapRun(Trim(rem[bp..]), max);
  }

  /** After the inner loop: a remainder within the limit is emitted when it
      is non-empty. */
  lemma LastPiece(done: seq<string>, rem: string, max: Length)
    requires |rem| <= max
    ensures done + WrapRun(rem, max) == if |rem| > 0 then done + [rem] else done
  {
  }

  /** Every segment of a remainder is non-empty, fits the limit and holds
      no line feed when the remainder holds none. */
  lemma {:induction false} RunSegments(rem: string, max: Length)
    ensures forall i | 0 <= i < |WrapRun(rem, max)| :: 1 <= |WrapRun(rem, max)[i]| <= max
    ensures '\n' !in rem ==> forall i | 0 <= i < |WrapRun(rem, max)| :: '\n' !in WrapRun(rem, max)[i]
    ensures |rem| > 0 ==> |WrapRun(rem, max)| >= 1
    decreases |rem|
  {
    if |rem| > max {
      var bp := BreakPoint(rem, max);
      var rest := After(rem, bp);
      RunSegments(rest, max);
      if '\n' !in rem {
        assert '\n' !in rem[..bp] by {
          forall j | 0 <= j < bp ensures rem[..bp][j] != '\n' {
            assert rem[..bp][j] == rem[j];
          }
        }
        assert '\n' !in rem[bp..] by {
          forall j | 0 <= j < |rem| - bp ensures rem[bp..][j] != '\n' {
            assert rem[bp..][j] == rem[bp + j];
          }
        }
      }
    }
  }

  /** Every line of a wrapped line fits the limit and holds no line feed,
      and there is at least one. */
  lemma LineSegments(line: string, max: Length)
    requires '\n' !in line
    ensures |WrapLine(line, max)| >= 1
    ensures forall i | 0 <= i < |WrapLine(line, max)| ::
      |WrapLine(line, max)[i]| <= max && '\n' !in WrapLine(line, max)[i]
  {
    RunSegments(line, max);
  }

  /** The outer loop's step: one more input line adds its wrapped lines. */
  lemma WrapAllNext(lines: seq<string>, i: nat, max: Length)
    requires i < |lines|
    ensures WrapAll(lines[..i + 1], max) == WrapAll(lines[..i], max) + WrapLine(lines[i], max)
  {
    assert lines[..i + 1][..i] == lines[..i];
  }

  /** Two lists of lines within the limit and without line feeds make
      one. */
  lemma FittingLinesAppend(a: seq<string>, b: seq<string>, max: nat)
    requires forall i | 0 <= i < |a| :: |a[i]| <= max && '\n' !in a[i]
    requires forall i | 0 <= i < |b| :: |b[i]| <= max && '\n' !in b[i]
    ensures forall i | 0 <= i < |a + b| :: |(a + b)[i]| <= max && '\n' !in (a + b)[i]
  {
    forall i | 0 <= i < |a + b| ensures |(a + b)[i]| <= max && '\n' !in (a + b)[i] {
      if i >= |a| {
        assert (a + b)[i] == b[i - |a|];
      }
    }
  }

  /** The wrapped lines of split text are lines: at least one, none
      holding a line feed, each within the limit. */
  lemma {:induction false} AllSegments(ls: seq<string>, max: Length)
    requires forall i | 0 <= i < |ls| :: '\n' !in ls[i]
    ensures |ls| >= 1 ==> |WrapAll(ls, max)| >= 1
    ensures forall i | 0 <= i < |WrapAll(ls, max)| ::
      |WrapAll(ls, max)[i]| <= max && '\n' !in WrapAll(ls, max)[i]
    decreases |ls|
  {
    if ls != [] {
      var init, last := ls[..|ls| - 1], ls[|ls| - 1];
      forall i | 0 <= i < |init| ensures '\n' !in init[i] {
        assert init[i] == ls[i];
      }
      AllSegments(init, max);
      LineSegments(last, max);
      var a, b := WrapAll(init, max), WrapLine(last, max);
      assert WrapAll(ls, max) == a + b;
      FittingLinesAppend(a, b, max);
    }
  }

  /** Under the wrap action every output line fits the limit. */
  lemma Bounded(content: string, o: WrapOptions)
    requires o.wrap
    ensures forall i | 0 <= i < |Split(Formatted(content, o))| :: |Split(Formatted(content, o))[i]| <= o.length
    ensures Split(Formatted(content, o)) == WrapAll(Split(content), o.length)
  {
    AllSegments(Split(content), o.length);
    SplitJoin(WrapAll(Split(content), o.length));
  }

  /** Lines that already fit come out unchanged and in order. */
  lemma {:induction false} FittingLines(ls: seq<string>, max: Length)
    requires forall i | 0 <= i < |ls| :: |ls[i]| <= max
    ensures WrapAll(ls, max) == ls
    decreases |ls|
  {
    if ls != [] {
      FittingLines(ls[..|ls| - 1], max);
      assert ls == ls[..|ls| - 1] + [ls[|ls| - 1]];
    }
  }

  /** The content is left as it is exactly when the action is `warn` or
      every line already fits the limit. */
  lemma UnchangedIff(content: string, o: WrapOptions)
    ensures Formatted(content, o) == content <==>
      !o.wrap || forall i | 0 <= i < |Split(content)| :: |Split(content)[i]| <= o.length
  {
    if o.wrap {
      var ls := Split(content);
      if forall i | 0 <= i < |ls| :: |ls[i]| <= o.length {
        FittingLines(ls, o.length);
        JoinSplit(content);
      } else {
        Bounded(content, o);
        var k :| 0 <= k < |ls| && |ls[k]| > o.length;
        var w := Split(Formatted(content, o));
        if |w| == |ls| {
          assert |w[k]| <= o.length;
          assert w[k] != ls[k];
        }
        assert w != ls;
      }
    }
  }

  /** Wrapping output that is already wrapped changes nothing. */
  lemma Idempotent(content: string, o: WrapOptions)
    ensures Formatted(Formatted(content, o), o) == Formatted(content, o)
  {
    if o.wrap {
      Bounded(content, o);
      UnchangedIff(Formatted(content, o), o);
    }
  }

  /** The segments of a remainder, put back together. */
  function Concat(segs: seq<string>): string
  {
    if segs == [] then "" else segs[0] + Concat(segs[1..])
  }

  predicate NoWs(s: string)
  {
    forall i | 0 <= i < |s| :: !IsWs(s[i])
  }

  /** Without whitespace, the text after a break point needs no trimming. */
  lemma AfterNoWs(rem: string, bp: nat)
    requires NoWs(rem) && bp <= |rem|
    ensures After(rem, bp) == rem[bp..]
    ensures NoWs(rem[bp..])
  {
    var tail := rem[bp..];
    assert NoWs(tail) by {
      forall j | 0 <= j < |tail| ensures !IsWs(tail[j]) {
        assert tail[j] == rem[bp + j];
      }
    }
    assert LeadingWs(tail) == [];
    TrimEndOf(tail, "");
    assert tail + "" == tail;
  }

  lemma CutAt(s: string, k: nat)
    requires k <= |s|
    ensures s[..k] + s[k..] == s
  {
  }

  lemma ConcatCons(x: string, ys: seq<string>)
    ensures Concat([x] + ys) == x + Concat(ys)
  {
    assert ([x] + ys)[1..] == ys;
  }

  /** A remainder without whitespace is cut into pieces of exactly the
      limit, except a last shorter one, that concatenate back to it. */
  lemma {:induction false} NoWsRun(rem: string, max: Length)
    requires NoWs(rem)
    ensures Concat(WrapRun(rem, max)) == rem
    ensures forall i | 0 <= i < |WrapRun(rem, max)| - 1 :: |WrapRun(rem, max)[i]| == max
    decreases |rem|
  {
    if |rem| > max {
      var bp := BreakPoint(rem, max);
      assert !Candidate(rem, bp, max) by { assert !IsWs(rem[bp]); }
      assert bp == max;
      AfterNoWs(rem, bp);
      var tail := rem[bp..];
      var rest := WrapRun(tail, max);
      NoWsRun(tail, max);
      assert WrapRun(rem, max) == [rem[..bp]] + rest;
      ConcatCons(rem[..bp], rest);
      CutAt(rem, bp);
      forall i | 0 <= i < |rest| ensures |([rem[..bp]] + rest)[i]| == max {
        if i > 0 {
          assert ([rem[..bp]] + rest)[i] == rest[i - 1];
        }
      }
    } else if |rem| > 0 {
      ConcatCons(rem, []);
    }
  }

  /** A line without whitespace of exactly twice the limit becomes two
      lines of the limit's length. */
  lemma DoubleLengthLine(line: string, max: Length)
    requires NoWs(line) && |line| == 2 * max
    ensures WrapLine(line, max) == [line[..max], line[max..]]
  {
    var bp := BreakPoint(line, max);
    assert !Candidate(line, bp, max) by { assert !IsWs(line[bp]); }
    var tail := line[max..];
    assert NoWs(tail) by {
      forall j | 0 <= j < |tail| ensures !IsWs(tail[j]) {
        assert tail[j] == line[max + j];
      }
    }
    assert LeadingWs(tail) == [];
    assert TrimEnd(tail) == tail by {
      TrimEndOf(tail, "");
      assert tail + "" == tail;
    }
    assert After(line, bp) == tail;
    assert WrapRun(tail, max) == [tail];
    assert line[..bp] == line[..max];
  }

  /** A line longer than the limit with a non-whitespace character at or
      beyond the limit is wrapped into at least two lines. */
  lemma LongLineSplits(line: string, max: Length, j: nat)
    requires |line| > max && max <= j < |line| && !IsWs(line[j])
    ensures |WrapLine(line, max)| >= 2
  {
    var bp := BreakPoint(line, max);
    var tail := line[bp..];
    assert tail[j - bp] == line[j];
    var lead := |LeadingWs(tail)|;
    assert lead <= j - bp;
    var t := TrimStart(tail);
    assert t[j - bp - lead] == tail[j - bp];
    assert !IsWs(t[j - bp - lead]);
    assert TrimEnd(t) != [];
    RunSegments(After(line, bp), max);
  }

  /** `x` repeated 160 times under a limit of 80 with the wrap action gives
      exactly two lines of 80 characters. */
  lemma DoubleLengthExample(x: string)
    requires |x| == 160 && forall i | 0 <= i < |x| :: x[i] == 'x'
    ensures Split(Formatted(x, WrapOptions(80, true))) == [x[..80], x[80..]]
    ensures |x[..80]| == 80 && |x[80..]| == 80
  {
    assert NoWs(x) by {
      forall i | 0 <= i < |x| ensures !IsWs(x[i]) { assert x[i] == 'x'; }
    }
    assert '\n' !in x by {
      forall i | 0 <= i < |x| ensures x[i] != '\n' { assert x[i] == 'x'; }
    }
    SplitLine(x);
    DoubleLengthLine(x, 80);
    assert WrapAll([x], 80) == WrapLine(x, 80);
    Bounded(x, WrapOptions(80, true));
  }

  /** The defaults: limit 80 and the warn action, under which nothing
      changes. */
  lemma Defaults(content: string)
    ensures OptionsOf(EmptyConfig) == WrapOptions(80, false)
    ensures Formatted(content, OptionsOf(EmptyConfig)) == content
  {
  }
}
