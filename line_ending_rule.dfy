/** The `line-ending` rule: every CRLF pair and lone CR becomes LF, then
    every LF becomes the configured ending. */
module LineEndingRule {
  import opened Wrappers
  import opened Types
  import Text

  const Name := "line-ending"

  /** The ending a `style` option selects: `crlf` and `cr` pick their
      ending, `lf`, an absent style or any other value picks LF. */
  function EndingFor(style: Option<string>): (e: string)
    ensures e == "\r\n" || e == "\r" || e == "\n"
    ensures e == "\r\n" <==> style == Some("crlf")
    ensures e == "\r" <==> style == Some("cr")
  {
    var s := if style.None? || style.value == "" then "lf" else style.value;
    if s == "crlf" then "\r\n"
    else if s == "cr" then "\r"
    else "\n"
  }

  /** The ending of the first entry named `line-ending`. */
  function EndingOf(config: FormatterConfig): string
  {
    EndingFor(OptionsFor(config, Name).style)
  }

  /** `s.replace(/\r\n/g, '\n')`, scanning left to right. */
  function ReplaceCrLf(s: string): string
  {
    if |s| >= 2 && s[0] == '\r' && s[1] == '\n' then "\n" + ReplaceCrLf(s[2..])
    else if s == [] then ""
    else [s[0]] + ReplaceCrLf(s[1..])
  }

  /** `LineEndingRule.format`: CRLF to LF, then CR to LF, then LF to the
      ending, as three chained global replacements. */
  function Format(content: string, ending: string): string
  {
    Text.ReplaceAll(Text.ReplaceAll(ReplaceCrLf(content), '\r', "\n"), '\n', ending)
  }

  /** The rule in one pass: each CRLF pair, each lone CR and each lone LF
      becomes one `ending`; every other character is kept in order. */
  function Normalize(s: string, ending: string): string
  {
    if s == [] then ""
    else if |s| >= 2 && s[0] == '\r' && s[1] == '\n' then ending + Normalize(s[2..], ending)
    else if s[0] == '\r' || s[0] == '\n' then ending + Normalize(s[1..], ending)
    else [s[0]] + Normalize(s[1..], ending)
  }

  lemma ReplaceAllCons(x: string, t: string, c: char, rep: string)
    requires |x| == 1
    ensures Text.ReplaceAll(x + t, c, rep) == (if x[0] == c then rep else x) + Text.ReplaceAll(t, c, rep)
  {
    Text.ReplaceAllAppend(x, t, c, rep);
    assert x[1..] == "";
  }

  /** The chained replacements compute the one-pass normalisation. */
  lemma {:induction false} FormatIsNormalize(s: string, ending: string)
    ensures Format(s, ending) == Normalize(s, ending)
    decreases |s|
  {
    if s == [] {
    } else if |s| >= 2 && s[0] == '\r' && s[1] == '\n' {
      FormatIsNormalize(s[2..], ending);
      var x := ReplaceCrLf(s[2..]);
      ReplaceAllCons("\n", x, '\r', "\n");
      ReplaceAllCons("\n", Text.ReplaceAll(x, '\r', "\n"), '\n', ending);
    } else {
      FormatIsNormalize(s[1..], ending);
      var x := ReplaceCrLf(s[1..]);
      assert ReplaceCrLf(s) == [s[0]] + x;
      ReplaceAllCons([s[0]], x, '\r', "\n");
      var y := Text.ReplaceAll(x, '\r', "\n");
      var first := if s[0] == '\r' then "\n" else [s[0]];
      assert Text.ReplaceAll(ReplaceCrLf(s), '\r', "\n") == first + y;
      ReplaceAllCons(first, y, '\n', ending);
    }
  }

  /** With a CR ending the result holds no LF. */
  lemma {:induction false} NormalizeCrNoLf(s: string)
    ensures '\n' !in Normalize(s, "\r")
    decreases |s|
  {
    if s != [] {
      if |s| >= 2 && s[0] == '\r' && s[1] == '\n' {
        NormalizeCrNoLf(s[2..]);
      } else {
        NormalizeCrNoLf(s[1..]);
      }
    }
  }

  /** An ending that holds no CR leaves no CR behind: with the LF target
      the output has no carriage return at all. */
  lemma {:induction false} NormalizeNoCr(s: string, ending: string)
    requires '\r' !in ending
    ensures '\r' !in Normalize(s, ending)
    decreases |s|
  {
    if s != [] {
      if |s| >= 2 && s[0] == '\r' && s[1] == '\n' {
        NormalizeNoCr(s[2..], ending);
      } else {
        NormalizeNoCr(s[1..], ending);
      }
    }
  }

  /** Text without a CR is already LF-normalised. */
  lemma {:induction false} NormalizeLfFixed(s: string)
    requires '\r' !in s
    ensures Normalize(s, "\n") == s
    decreases |s|
  {
    if s != [] {
      assert '\r' !in s[1..] by {
        forall i | 0 <= i < |s[1..]| ensures s[1..][i] != '\r' {
          assert s[1..][i] == s[i + 1];
        }
      }
      NormalizeLfFixed(s[1..]);
      assert s == [s[0]] + s[1..];
    }
  }

  /** An ending followed by normalised text passes through unchanged. */
  lemma NormalizeAfterEnding(ending: string, x: string)
    requires ending == "\r\n" || ending == "\r" || ending == "\n"
    requires ending == "\r" ==> x == [] || x[0] != '\n'
    ensures Normalize(ending + x, ending) == ending + Normalize(x, ending)
  {
    var s := ending + x;
    if ending == "\r\n" {
      assert s[2..] == x;
    } else {
      assert s[1..] == x;
    }
  }

  /** Normalising twice to the same ending is normalising once, for each
      of the three endings. */
  lemma {:induction false} Idempotent(s: string, ending: string)
    requires ending == "\r\n" || ending == "\r" || ending == "\n"
    ensures Normalize(Normalize(s, ending), ending) == Normalize(s, ending)
    decreases |s|
  {
    if s != [] {
      var t := if |s| >= 2 && s[0] == '\r' && s[1] == '\n' then s[2..] else s[1..];
      Idempotent(t, ending);
      var x := Normalize(t, ending);
      if (|s| >= 2 && s[0] == '\r' && s[1] == '\n') || s[0] == '\r' || s[0] == '\n' {
        assert Normalize(s, ending) == ending + x;
        if ending == "\r" {
          NormalizeCrNoLf(t);
          assert x == [] || x[0] != '\n' by {
            if x != [] { assert x[0] in x; }
          }
        }
        NormalizeAfterEnding(ending, Normalize(x, ending));
        NormalizeAfterEnding(ending, x);
      } else {
        assert Normalize(s, ending) == [s[0]] + x;
        assert ([s[0]] + x)[1..] == x;
      }
    }
  }

  /** A line break of any of the three kinds becomes one ending. */
  lemma Break(brk: string, t: string, ending: string)
    requires brk == "\r\n" || brk == "\r" || brk == "\n"
    requires brk == "\r" ==> t == [] || t[0] != '\n'
    ensures Normalize(brk + t, ending) == ending + Normalize(t, ending)
  {
    var s := brk + t;
    if brk == "\r\n" {
      assert s[2..] == t;
    } else {
      assert s[1..] == t;
    }
  }

  /** A plain run and a break become the run and one ending. */
  lemma RunThenBreak(a: string, brk: string, t: string, ending: string)
    requires '\r' !in a && '\n' !in a
    requires brk == "\r\n" || brk == "\r" || brk == "\n"
    requires brk == "\r" ==> t == [] || t[0] != '\n'
    ensures Normalize(a + brk + t, ending) == a + ending + Normalize(t, ending)
  {
    Break(brk, t, ending);
    Plain(a, brk + t, ending);
    assert a + brk + t == a + (brk + t);
  }

  /** Three plain runs separated by two breaks normalise to the runs
      separated by two endings. */
  lemma ThreeRuns(a: string, brk1: string, b: string, brk2: string, c: string, ending: string)
    requires '\r' !in a && '\n' !in a && '\r' !in b && '\n' !in b && '\r' !in c && '\n' !in c
    requires brk1 == "\r\n" || brk1 == "\r" || brk1 == "\n"
    requires brk2 == "\r\n" || brk2 == "\r" || brk2 == "\n"
    requires b != [] && c != []
    ensures Normalize(a + brk1 + b + brk2 + c, ending) == a + ending + b + ending + c
  {
    assert b[0] in b && c[0] in c;
    Plain(c, "", ending);
    assert c + "" == c;
    RunThenBreak(b, brk2, c, ending);
    var t := b + brk2 + c;
    assert t[0] == b[0];
    RunThenBreak(a, brk1, t, ending);
    Regroup(a, brk1, b, brk2, c);
    Regroup(a, ending, b, ending, c);
  }

  lemma Regroup(a: string, x: string, b: string, y: string, c: string)
    ensures a + x + b + y + c == a + x + (b + y + c)
  {
  }

  lemma LfParts(s: string)
    requires s == "hello\r\nworld\rtest"
    ensures s == "hello" + "\r\n" + "world" + "\r" + "test"
  {
  }

  /** CRLF and CR both become LF under the `lf` style. */
  lemma LfExample(s: string)
    requires s == "hello\r\nworld\rtest"
    ensures Format(s, EndingFor(Some("lf"))) == "hello\nworld\ntest"
  {
    LfParts(s);
    FormatIsNormalize(s, "\n");
    ThreeRuns("hello", "\r\n", "world", "\r", "test", "\n");
  }

  /** LF becomes CRLF under `crlf` and CR under `cr`. */
  lemma CrlfAndCrExample(s: string)
    requires s == "hello\nworld"
    ensures Format(s, EndingFor(Some("crlf"))) == "hello\r\nworld"
    ensures Format(s, EndingFor(Some("cr"))) == "hello\rworld"
  {
    var a, b := s[..5], s[6..];
    assert s == a + "\n" + b;
    FormatIsNormalize(s, "\r\n");
    FormatIsNormalize(s, "\r");
    TwoRuns(a, b, "\r\n");
    TwoRuns(a, b, "\r");
  }

  lemma TwoRuns(a: string, b: string, ending: string)
    requires '\r' !in a && '\n' !in a && '\r' !in b && '\n' !in b
    ensures Normalize(a + "\n" + b, ending) == a + ending + b
  {
    Plain(b, "", ending);
    assert b + "" == b;
    Break("\n", b, ending);
    Plain(a, "\n" + b, ending);
    assert a + "\n" + b == a + ("\n" + b);
  }

  /** A run of characters other than CR and LF is copied as it is. */
  lemma {:induction false} Plain(a: string, t: string, ending: string)
    requires '\r' !in a && '\n' !in a
    ensures Normalize(a + t, ending) == a + Normalize(t, ending)
    decreases |a|
  {
    if a == [] {
      assert a + t == t;
    } else {
      assert (a + t)[1..] == a[1..] + t;
      assert a[0] in a;
      assert '\r' !in a[1..] && '\n' !in a[1..] by {
        forall i | 0 <= i < |a[1..]| ensures a[1..][i] != '\r' && a[1..][i] != '\n' {
          assert a[1..][i] == a[i + 1];
        }
      }
      Plain(a[1..], t, ending);
      assert a == [a[0]] + a[1..];
    }
  }
}
