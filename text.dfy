/** String operations the rules share: JavaScript's `split('\n')` and
    `join('\n')`, the `\s` character class, `trim()`, a global single
    character `replace` and `repeat`. Strings are sequences of characters. */
module Text {

  /** JavaScript's `\s` class, which `trim()` strips as well: the
      ECMAScript WhiteSpace and LineTerminator code points. */
  predicate IsWs(c: char)
  {
    var n := c as int;
    n == 0x09 || n == 0x0A || n == 0x0B || n == 0x0C || n == 0x0D || n == 0x20
    || n == 0xA0 || n == 0x1680 || (0x2000 <= n <= 0x200A) || n == 0x2028
    || n == 0x2029 || n == 0x202F || n == 0x205F || n == 0x3000 || n == 0xFEFF
  }

  /** What `split('\n')` can return: at least one piece, none holding a
      line feed. */
  predicate IsLines(ls: seq<string>)
  {
    |ls| >= 1 && forall i | 0 <= i < |ls| :: '\n' !in ls[i]
  }

  /** `s.split('\n')`. */
  function Split(s: string): (ls: seq<string>)
    ensures IsLines(ls)
  {
    if s == [] then [""]
    else
      var rest := Split(s[1..]);
      if s[0] == '\n' then [""] + rest
      else [[s[0]] + rest[0]] + rest[1..]
  }

  /** `lines.join('\n')`. */
  function Join(ls: seq<string>): string
  {
    if |ls| == 0 then ""
    else if |ls| == 1 then ls[0]
    else ls[0] + "\n" + Join(ls[1..])
  }

  lemma JoinCons(l: string, rest: seq<string>)
    requires |rest| >= 1
    ensures Join([l] + rest) == l + "\n" + Join(rest)
  {
    assert ([l] + rest)[1..] == rest;
  }

  /** Joining one more piece adds a line feed and that piece. */
  lemma {:induction false} JoinSnoc(ls: seq<string>, l: string)
    requires |ls| >= 1
    ensures Join(ls + [l]) == Join(ls) + "\n" + l
    decreases |ls|
  {
    if |ls| > 1 {
      JoinSnoc(ls[1..], l);
      assert (ls + [l])[1..] == ls[1..] + [l];
    } else {
      assert ls + [l] == [ls[0], l];
      assert [ls[0], l][1..] == [l];
    }
  }

  /** Joining the pieces of a split gives the string back. */
  lemma {:induction false} JoinSplit(s: string)
    ensures Join(Split(s)) == s
    decreases |s|
  {
    if s != [] {
      JoinSplit(s[1..]);
      var rest := Split(s[1..]);
      if s[0] == '\n' {
        JoinCons("", rest);
      } else if |rest| == 1 {
        assert Split(s) == [[s[0]] + rest[0]];
      } else {
        assert rest == [rest[0]] + rest[1..];
        JoinCons(rest[0], rest[1..]);
        JoinCons([s[0]] + rest[0], rest[1..]);
        assert Split(s) == [[s[0]] + rest[0]] + rest[1..];
      }
    }
  }

  lemma {:induction false} SplitPrefix(a: string, t: string)
    requires '\n' !in a
    ensures Split(a + t) == [a + Split(t)[0]] + Split(t)[1..]
    decreases |a|
  {
    if a == [] {
      assert a + t == t;
      assert a + Split(t)[0] == Split(t)[0];
      assert Split(t) == [Split(t)[0]] + Split(t)[1..];
    } else {
      assert '\n' !in a[1..] by {
        forall i | 0 <= i < |a[1..]| ensures a[1..][i] != '\n' {
          assert a[1..][i] == a[i + 1];
        }
      }
      SplitPrefix(a[1..], t);
      assert (a + t)[1..] == a[1..] + t;
      assert [a[0]] + (a[1..] + Split(t)[0]) == a + Split(t)[0];
    }
  }

  /** A string without a line feed is a single line. */
  lemma SplitLine(a: string)
    requires '\n' !in a
    ensures Split(a) == [a]
  {
    SplitPrefix(a, "");
    assert a + "" == a;
  }

  /** Splitting `a + "\n" + b` peels off `a` as the first line. */
  lemma SplitNewline(a: string, b: string)
    requires '\n' !in a
    ensures Split(a + "\n" + b) == [a] + Split(b)
  {
    SplitPrefix(a, "\n" + b);
    assert ("\n" + b)[1..] == b;
    assert Split("\n" + b) == [""] + Split(b);
    assert a + "" == a;
    assert a + "\n" + b == a + ("\n" + b);
  }

  /** Splitting the join of lines gives the lines back. */
  lemma {:induction false} SplitJoin(ls: seq<string>)
    requires IsLines(ls)
    ensures Split(Join(ls)) == ls
    decreases |ls|
  {
    if |ls| == 1 {
      SplitLine(ls[0]);
    } else {
      SplitJoin(ls[1..]);
      SplitNewline(ls[0], Join(ls[1..]));
      assert ls == [ls[0]] + ls[1..];
    }
  }

  /** Joined lines hold one line feed fewer than there are lines. */
  lemma {:induction false} NewlineCountJoin(ls: seq<string>)
    requires IsLines(ls)
    ensures multiset(Join(ls))['\n'] == |ls| - 1
    decreases |ls|
  {
    if |ls| > 1 {
      NewlineCountJoin(ls[1..]);
      assert multiset(ls[0] + "\n" + Join(ls[1..]))
          == multiset(ls[0]) + multiset("\n") + multiset(Join(ls[1..]));
    }
  }

  /** A string splits into one more line than it has line feeds. */
  lemma SplitCount(s: string)
    ensures |Split(s)| == multiset(s)['\n'] + 1
  {
    JoinSplit(s);
    NewlineCountJoin(Split(s));
  }

  /** Every piece of a split is made of characters of the string. */
  lemma {:induction false} SplitKeepsOut(s: string, c: char)
    requires c !in s
    ensures forall i | 0 <= i < |Split(s)| :: c !in Split(s)[i]
    decreases |s|
  {
    if s != [] {
      assert c !in s[1..] by {
        forall i | 0 <= i < |s[1..]| ensures s[1..][i] != c {
          assert s[1..][i] == s[i + 1];
        }
      }
      SplitKeepsOut(s[1..], c);
    }
  }

  /** Joining lines adds no character other than the line feed. */
  lemma {:induction false} JoinKeepsOut(ls: seq<string>, c: char)
    requires c != '\n'
    requires forall i | 0 <= i < |ls| :: c !in ls[i]
    ensures c !in Join(ls)
    decreases |ls|
  {
    if |ls| > 1 {
      JoinKeepsOut(ls[1..], c);
    }
  }

  /** `unit.repeat(n)`. */
  function Repeat(unit: string, n: nat): (r: string)
    ensures |r| == n * |unit|
    ensures forall c | c in r :: c in unit
  {
    if n == 0 then "" else unit + Repeat(unit, n - 1)
  }

  /** `s.replace(/c/g, by)` for a single character `c`. */
  function ReplaceAll(s: string, c: char, rep: string): (r: string)
    ensures c !in rep ==> c !in r
  {
    if s == [] then ""
    else (if s[0] == c then rep else [s[0]]) + ReplaceAll(s[1..], c, rep)
  }

  lemma {:induction false} ReplaceAllAppend(a: string, b: string, c: char, rep: string)
    ensures ReplaceAll(a + b, c, rep) == ReplaceAll(a, c, rep) + ReplaceAll(b, c, rep)
    decreases |a|
  {
    if a == [] {
      assert a + b == b;
    } else {
      assert (a + b)[1..] == a[1..] + b;
      ReplaceAllAppend(a[1..], b, c, rep);
    }
  }

  /** Replacing a character that does not occur changes nothing. */
  lemma {:induction false} ReplaceAllAbsent(s: string, c: char, rep: string)
    requires c !in s
    ensures ReplaceAll(s, c, rep) == s
    decreases |s|
  {
    if s != [] {
      assert c !in s[1..] by {
        forall i | 0 <= i < |s[1..]| ensures s[1..][i] != c {
          assert s[1..][i] == s[i + 1];
        }
      }
      ReplaceAllAbsent(s[1..], c, rep);
    }
  }

  /** The leading whitespace run of `s`: the match of a regex anchored at the start for zero or more `\s`. */
  function LeadingWs(s: string): (r: string)
    ensures r <= s
    ensures forall i | 0 <= i < |r| :: IsWs(r[i])
    ensures |r| < |s| ==> !IsWs(s[|r|])
  {
    if s != [] && IsWs(s[0]) then [s[0]] + LeadingWs(s[1..]) else ""
  }

  /** A whitespace run followed by a non-whitespace character (or by
      nothing) is exactly the leading run. */
  lemma {:induction false} LeadingWsOf(w: string, rest: string)
    requires forall i | 0 <= i < |w| :: IsWs(w[i])
    requires rest == [] || !IsWs(rest[0])
    ensures LeadingWs(w + rest) == w
    decreases |w|
  {
    if w == [] {
      assert w + rest == rest;
    } else {
      assert (w + rest)[1..] == w[1..] + rest;
      LeadingWsOf(w[1..], rest);
      assert w == [w[0]] + w[1..];
    }
  }

  /** Removing the trailing `\s+` run of `s` (a regex anchored at the end):
      the longest prefix not ending in whitespace such that everything after
      it is whitespace. */
  function TrimEnd(s: string): (r: string)
    ensures r <= s
    ensures r == [] || !IsWs(r[|r| - 1])
    ensures forall i | |r| <= i < |s| :: IsWs(s[i])
    decreases |s|
  {
    if s != [] && IsWs(s[|s| - 1]) then TrimEnd(s[..|s| - 1]) else s
  }

  /** A string with a trailing whitespace run of `w` trims to its stem. */
  lemma {:induction false} TrimEndOf(a: string, w: string)
    requires a == [] || !IsWs(a[|a| - 1])
    requires forall i | 0 <= i < |w| :: IsWs(w[i])
    ensures TrimEnd(a + w) == a
    decreases |w|
  {
    if w == [] {
      assert a + w == a;
    } else {
      assert (a + w)[..|a + w| - 1] == a + w[..|w| - 1];
      TrimEndOf(a, w[..|w| - 1]);
    }
  }

  /** Removes the leading whitespace run: what is left follows that run
      and does not start with whitespace. */
  function TrimStart(s: string): (r: string)
    ensures LeadingWs(s) + r == s
    ensures r == [] || !IsWs(r[0])
  {
    s[|LeadingWs(s)|..]
  }

  /** `s.trim()`: removes the leading and the trailing whitespace run. */
  function Trim(s: string): (r: string)
    ensures |r| <= |s|
    ensures ('\n' !in s) ==> '\n' !in r
    ensures r == [] || (!IsWs(r[0]) && !IsWs(r[|r| - 1]))
  {
    var t := TrimStart(s);
    var r := TrimEnd(t);
    assert r == t[..|r|];
    r
  }

  /** What `trim()` keeps: the slice of `s` that starts right after its
      leading whitespace run and is followed by whitespace only. With the
      contracts of `LeadingWs` and `Trim` this determines `Trim(s)`. */
  lemma TrimSlice(s: string)
    ensures |LeadingWs(s)| + |Trim(s)| <= |s|
    ensures Trim(s) == s[|LeadingWs(s)|..|LeadingWs(s)| + |Trim(s)|]
    ensures forall k | |LeadingWs(s)| + |Trim(s)| <= k < |s| :: IsWs(s[k])
  {
    SliceOfSuffix(s, |LeadingWs(s)|, TrimEnd(TrimStart(s)));
  }

  /** A prefix of `s[i..]` followed there by whitespace only is a slice of
      `s` followed by whitespace only. */
  lemma SliceOfSuffix(s: string, i: nat, r: string)
    requires i <= |s| && r <= s[i..]
    requires forall k | |r| <= k < |s[i..]| :: IsWs(s[i..][k])
    ensures i + |r| <= |s| && r == s[i..i + |r|]
    ensures forall k | i + |r| <= k < |s| :: IsWs(s[k])
  {
    forall k | i + |r| <= k < |s| ensures IsWs(s[k]) {
      assert s[k] == s[i..][k - i];
    }
  }

  /** Trimming a string that neither starts nor ends with whitespace
      returns it unchanged. */
  lemma TrimNoWs(s: string)
    requires s == [] || (!IsWs(s[0]) && !IsWs(s[|s| - 1]))
    ensures Trim(s) == s
  {
  }

  /** A trailing line feed adds one empty line to a split. */
  lemma SplitAppendNewline(s: string)
    ensures Split(s + "\n") == Split(s) + [""]
  {
    JoinSplit(s);
    JoinSnoc(Split(s), "");
    assert Join(Split(s) + [""]) == s + "\n";
    SplitJoin(Split(s) + [""]);
  }
}
