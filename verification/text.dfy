/**
 * String primitives the plugin uses through Python's `str` methods and the
 * `re` module: strip, lower, replace, split, rpartition, joining and the
 * run-collapsing substitution `re.sub('c+', 'c', s)`.
 */
module Text {

  /** Characters removed by Python 2's unicode `strip()` and used by `split()`. */
  predicate IsSpace(c: char)
  {
    || c == ' ' || c == '\t' || c == '\n' || c == '\r' || c == '\U{000B}' || c == '\U{000C}'
    || ('\U{001C}' <= c <= '\U{001F}') || c == '\U{0085}' || c == '\U{00A0}' || c == '\U{1680}' || c == '\U{180E}'
    || ('\U{2000}' <= c <= '\U{200A}') || c == '\U{2028}' || c == '\U{2029}' || c == '\U{202F}'
    || c == '\U{205F}' || c == '\U{3000}'
  }

  /** Characters matched by `\s` in a Python 2 pattern compiled without `re.UNICODE`. */
  predicate IsRegexSpace(c: char)
  {
    c == ' ' || c == '\t' || c == '\n' || c == '\r' || c == '\U{000B}' || c == '\U{000C}'
  }

  function LowerChar(c: char): char
  {
    if 'A' <= c <= 'Z' then (c as int + 32) as char else c
  }

  /** `s.lower()`, restricted to the ASCII letters. */
  function Lower(s: string): (r: string)
    ensures |r| == |s|
    ensures forall i :: 0 <= i < |s| ==> r[i] == LowerChar(s[i])
  {
    seq(|s|, i requires 0 <= i < |s| => LowerChar(s[i]))
  }

  predicate StartsWith(s: string, prefix: string)
  {
    |prefix| <= |s| && s[..|prefix|] == prefix
  }

  predicate EndsWith(s: string, suffix: string)
  {
    |suffix| <= |s| && s[|s| - |suffix|..] == suffix
  }

  /** `sub` occurs in `s` starting at index `k`. */
  predicate OccursAt(s: string, sub: string, k: int)
  {
    0 <= k <= |s| - |sub| && s[k..k + |sub|] == sub
  }

  /** `sub in s` for strings. */
  predicate Contains(s: string, sub: string)
  {
    exists k | 0 <= k <= |s| - |sub| :: OccursAt(s, sub, k)
  }

  /** `a in b` and `b in c` give `a in c`. */
  lemma ContainsTransitive(a: string, b: string, c: string)
    requires Contains(b, a) && Contains(c, b)
    ensures Contains(c, a)
  {
    var k1 :| 0 <= k1 <= |b| - |a| && OccursAt(b, a, k1);
    var k2 :| 0 <= k2 <= |c| - |b| && OccursAt(c, b, k2);
    forall i | 0 <= i < |a|
      ensures c[k2 + k1 + i] == a[i]
    {
      assert a[i] == b[k1..k1 + |a|][i] == b[k1 + i];
      assert b[k1 + i] == c[k2..k2 + |b|][k1 + i];
    }
    assert c[k2 + k1..k2 + k1 + |a|] == a;
    assert OccursAt(c, a, k2 + k1);
  }

  function LeadingSpaces(s: string): (n: nat)
    ensures n <= |s|
    ensures forall i :: 0 <= i < n ==> IsSpace(s[i])
    ensures n < |s| ==> !IsSpace(s[n])
  {
    if |s| > 0 && IsSpace(s[0]) then 1 + LeadingSpaces(s[1..]) else 0
  }

  function TrailingSpaces(s: string): (n: nat)
    ensures n <= |s|
    ensures forall i :: |s| - n <= i < |s| ==> IsSpace(s[i])
    ensures n < |s| ==> !IsSpace(s[|s| - n - 1])
  {
    if |s| > 0 && IsSpace(s[|s| - 1]) then 1 + TrailingSpaces(s[..|s| - 1]) else 0
  }

  /** `s.strip()`: drops the leading and trailing whitespace and nothing else. */
  function Strip(s: string): (r: string)
    ensures |r| > 0 ==> !IsSpace(r[0]) && !IsSpace(r[|r| - 1])
    ensures Contains(s, r)
    ensures forall c :: c in r ==> c in s
    ensures |r| == 0 ==> forall i :: 0 <= i < |s| ==> IsSpace(s[i])
    ensures |s| == 0 || (!IsSpace(s[0]) && !IsSpace(s[|s| - 1])) ==> r == s
  {
    var a := LeadingSpaces(s);
    var t := s[a..];
    var r := t[..|t| - TrailingSpaces(t)];
    assert OccursAt(s, r, a);
    r
  }

  /** Stripping a stripped string changes nothing. */
  lemma StripIdempotent(s: string)
    ensures Strip(Strip(s)) == Strip(s)
  {
  }

  /**
   * `s.replace(pat, rep)`: every occurrence of `pat` found scanning from the
   * left, not overlapping the previous one, becomes `rep`.
   */
  function ReplaceAll(s: string, pat: string, rep: string): (r: string)
    requires |pat| > 0
    ensures forall c :: c in r ==> c in s || c in rep
    ensures |pat| == 1 && pat[0] !in rep ==> pat[0] !in r
    ensures |pat| == 1 && |rep| == 1 ==> |r| == |s|
    decreases |s|
  {
    if |s| < |pat| then s
    else if s[..|pat|] == pat then rep + ReplaceAll(s[|pat|..], pat, rep)
    else [s[0]] + ReplaceAll(s[1..], pat, rep)
  }

  /** A pattern holding a character the text lacks is never replaced. */
  lemma {:induction false} ReplaceAbsent(s: string, pat: string, rep: string, c: char)
    requires |pat| > 0 && c in pat && c !in s
    ensures ReplaceAll(s, pat, rep) == s
    decreases |s|
  {
    if |s| < |pat| {
    } else {
      ReplaceAbsent(s[1..], pat, rep, c);
      assert s == [s[0]] + s[1..];
    }
  }

  /** A text that does not start with the pattern keeps its first character. */
  lemma ReplaceSkip(c: char, t: string, pat: string, rep: string)
    requires |pat| > 0 && !StartsWith([c] + t, pat)
    ensures ReplaceAll([c] + t, pat, rep) == [c] + ReplaceAll(t, pat, rep)
  {
    var s := [c] + t;
    assert s[1..] == t;
    if |s| < |pat| {
      assert ReplaceAll(t, pat, rep) == t;
    }
  }

  /** A text that starts with the pattern has it replaced. */
  lemma ReplaceHit(t: string, pat: string, rep: string)
    requires |pat| > 0
    ensures ReplaceAll(pat + t, pat, rep) == rep + ReplaceAll(t, pat, rep)
  {
    var s := pat + t;
    assert s[..|pat|] == pat && s[|pat|..] == t;
  }

  /** Replacing one character by one character works position by position. */
  lemma {:induction false} ReplaceCharPointwise(s: string, c: char, d: char)
    ensures |ReplaceAll(s, [c], [d])| == |s|
    ensures forall i :: 0 <= i < |s| ==> ReplaceAll(s, [c], [d])[i] == if s[i] == c then d else s[i]
    decreases |s|
  {
    if |s| > 0 {
      ReplaceCharPointwise(s[1..], c, d);
      assert s[..1] == [s[0]];
    }
  }

  /** Replacing a single character handles the first character on its own. */
  lemma ReplaceCharCons(x: char, t: string, c: char, rep: string)
    ensures ReplaceAll([x] + t, [c], rep) == (if x == c then rep else [x]) + ReplaceAll(t, [c], rep)
  {
    var s := [x] + t;
    assert s[..1] == [x] && s[1..] == t;
  }

  /** Replacing a single character distributes over concatenation. */
  lemma {:induction false} ReplaceCharAppend(p: string, q: string, c: char, rep: string)
    ensures ReplaceAll(p + q, [c], rep) == ReplaceAll(p, [c], rep) + ReplaceAll(q, [c], rep)
    decreases |p|
  {
    if |p| == 0 {
      assert p + q == q;
    } else {
      assert p + q == [p[0]] + (p[1..] + q);
      assert p == [p[0]] + p[1..];
      ReplaceCharCons(p[0], p[1..] + q, c, rep);
      ReplaceCharCons(p[0], p[1..], c, rep);
      ReplaceCharAppend(p[1..], q, c, rep);
      var h := if p[0] == c then rep else [p[0]];
      var a, b := ReplaceAll(p[1..], [c], rep), ReplaceAll(q, [c], rep);
      assert h + (a + b) == (h + a) + b;
    }
  }

  /** `s.rpartition(c)[-1]`: the text after the last `c`, or all of `s` without one. */
  function AfterLast(s: string, c: char): (r: string)
    ensures |r| <= |s| && r == s[|s| - |r|..]
    ensures c !in r
    ensures |r| < |s| ==> s[|s| - |r| - 1] == c
  {
    if |s| == 0 then ""
    else if s[|s| - 1] == c then ""
    else AfterLast(s[..|s| - 1], c) + [s[|s| - 1]]
  }

  /** `s.split(c)[0]`: the text before the first `c`, or all of `s` without one. */
  function BeforeFirst(s: string, c: char): (r: string)
    ensures |r| <= |s| && r == s[..|r|]
    ensures c !in r
    ensures |r| < |s| ==> s[|r|] == c
  {
    if |s| == 0 then ""
    else if s[0] == c then ""
    else [s[0]] + BeforeFirst(s[1..], c)
  }

  lemma {:induction false} AfterLastOfJoin(a: string, c: char, b: string)
    requires c !in b
    ensures AfterLast(a + [c] + b, c) == b
    decreases |b|
  {
    var s := a + [c] + b;
    if |b| > 0 {
      var b' := b[..|b| - 1];
      assert s[..|s| - 1] == a + [c] + b';
      AfterLastOfJoin(a, c, b');
      assert b == b' + [b[|b| - 1]];
    }
  }

  lemma {:induction false} BeforeFirstOfJoin(a: string, c: char, b: string)
    requires c !in a
    ensures BeforeFirst(a + [c] + b, c) == a
    decreases |a|
  {
    var s := a + [c] + b;
    if |a| > 0 {
      assert s[1..] == a[1..] + [c] + b;
      BeforeFirstOfJoin(a[1..], c, b);
      assert a == [a[0]] + a[1..];
    }
  }

  /** Length of the run of non-whitespace characters that starts `s`. */
  function WordLen(s: string): (n: nat)
    ensures n <= |s|
    ensures forall i :: 0 <= i < n ==> !IsSpace(s[i])
    ensures n < |s| ==> IsSpace(s[n])
  {
    if |s| == 0 || IsSpace(s[0]) then 0 else 1 + WordLen(s[1..])
  }

  /** `s.split()`: the maximal runs of non-whitespace characters, in order. */
  function Words(s: string): (ws: seq<string>)
    ensures forall i :: 0 <= i < |ws| ==> |ws[i]| > 0
    ensures forall i, j :: 0 <= i < |ws| && 0 <= j < |ws[i]| ==> !IsSpace(ws[i][j])
    decreases |s|
  {
    if |s| == 0 then []
    else if IsSpace(s[0]) then Words(s[1..])
    else
      var n := WordLen(s);
      [s[..n]] + Words(s[n..])
  }

  /** `sep.join(parts)`. */
  function Join(parts: seq<string>, sep: string): string
  {
    if |parts| == 0 then ""
    else if |parts| == 1 then parts[0]
    else parts[0] + sep + Join(parts[1..], sep)
  }

  /** The characters of `s` other than `c`, in order. */
  function Without(s: string, c: char): (r: string)
    ensures c !in r
  {
    if |s| == 0 then ""
    else if s[0] == c then Without(s[1..], c)
    else [s[0]] + Without(s[1..], c)
  }

  /** No two neighbouring characters of `s` are both `d`. */
  predicate NoDouble(s: string, d: char)
  {
    forall i :: 0 <= i < |s| - 1 ==> !(s[i] == d && s[i + 1] == d)
  }

  /**
   * `re.sub(c + '+', c, s)`: every run of `c` shrinks to a single `c`.
   * The text other than `c` is untouched, the first character survives,
   * and no new pair of any other character is formed.
   */
  function CollapseRuns(s: string, c: char): (r: string)
    ensures |s| > 0 ==> |r| > 0 && r[0] == s[0]
    ensures NoDouble(r, c)
    ensures Without(r, c) == Without(s, c)
    ensures forall d :: d in r <==> d in s
    ensures forall d :: d != c && NoDouble(s, d) ==> NoDouble(r, d)
    decreases |s|
  {
    if |s| == 0 then ""
    else if |s| >= 2 && s[0] == c && s[1] == c then CollapseRuns(s[1..], c)
    else
      var t := CollapseRuns(s[1..], c);
      assert forall d :: NoDouble(s, d) ==> NoDouble(s[1..], d);
      [s[0]] + t
  }

  /** A text without doubled `c` is left as it is, so collapsing twice is collapsing once. */
  lemma {:induction false} CollapseRunsFixed(s: string, c: char)
    requires NoDouble(s, c)
    ensures CollapseRuns(s, c) == s
    decreases |s|
  {
    if |s| > 0 {
      assert NoDouble(s[1..], c);
      CollapseRunsFixed(s[1..], c);
      assert s == [s[0]] + s[1..];
    }
  }

  lemma CollapseRunsIdempotent(s: string, c: char)
    ensures CollapseRuns(CollapseRuns(s, c), c) == CollapseRuns(s, c)
  {
    CollapseRunsFixed(CollapseRuns(s, c), c);
  }

  /**
   * `s` with every `c` that directly follows a `c` removed, where `prev` is
   * the character just before `s`.
   */
  function DropFollowers(prev: char, s: string, c: char): string
    decreases |s|
  {
    if |s| == 0 then ""
    else (if prev == c && s[0] == c then "" else [s[0]]) + DropFollowers(s[0], s[1..], c)
  }

  /** `s` keeping only the first `c` of each run of `c`s: a reference definition of `CollapseRuns`. */
  function Squeeze(s: string, c: char): string
  {
    if |s| == 0 then "" else [s[0]] + DropFollowers(s[0], s[1..], c)
  }

  /** `CollapseRuns` keeps exactly the characters that do not directly follow a `c` that is also `c`. */
  lemma {:induction false} CollapseRunsIsSqueeze(s: string, c: char)
    ensures CollapseRuns(s, c) == Squeeze(s, c)
    decreases |s|
  {
    if |s| >= 2 {
      CollapseRunsIsSqueeze(s[1..], c);
      assert s[1..][1..] == s[2..];
      if s[0] == c && s[1] == c {
        assert DropFollowers(s[0], s[1..], c) == DropFollowers(s[1], s[2..], c);
      } else {
        assert DropFollowers(s[0], s[1..], c) == [s[1]] + DropFollowers(s[1], s[2..], c);
      }
    }
  }

  /** The non-empty strings of `xs`, in order (`[a for a in xs if a]`). */
  function NonEmpty(xs: seq<string>): (r: seq<string>)
    ensures |r| <= |xs|
    ensures forall i :: 0 <= i < |r| ==> r[i] != ""
    ensures forall x :: x in r <==> x in xs && x != ""
  {
    if |xs| == 0 then []
    else if xs[0] == "" then NonEmpty(xs[1..])
    else [xs[0]] + NonEmpty(xs[1..])
  }

  /** Filtering distributes over concatenation, so order and repetitions are kept. */
  lemma {:induction false} NonEmptyAppend(xs: seq<string>, ys: seq<string>)
    ensures NonEmpty(xs + ys) == NonEmpty(xs) + NonEmpty(ys)
    decreases |xs|
  {
    if |xs| == 0 {
      assert xs + ys == ys;
    } else {
      assert (xs + ys)[0] == xs[0] && (xs + ys)[1..] == xs[1..] + ys;
      NonEmptyAppend(xs[1..], ys);
    }
  }

  /** Every element stripped. */
  function StripAll(xs: seq<string>): (r: seq<string>)
    ensures |r| == |xs|
    ensures forall i :: 0 <= i < |xs| ==> r[i] == Strip(xs[i])
  {
    seq(|xs|, i requires 0 <= i < |xs| => Strip(xs[i]))
  }

  /** Stripping is element-wise, so it distributes over concatenation. */
  lemma StripAllAppend(xs: seq<string>, ys: seq<string>)
    ensures StripAll(xs + ys) == StripAll(xs) + StripAll(ys)
  {
    MapAppend(Strip, StripAll(xs + ys), StripAll(xs), StripAll(ys), xs, ys);
  }

  /** Any element-wise image of a concatenation is the concatenation of the images. */
  lemma MapAppend(f: string -> string, l: seq<string>, a: seq<string>, b: seq<string>, xs: seq<string>, ys: seq<string>)
    requires |l| == |xs| + |ys| && |a| == |xs| && |b| == |ys|
    requires forall i :: 0 <= i < |l| ==> l[i] == f((xs + ys)[i])
    requires forall i :: 0 <= i < |a| ==> a[i] == f(xs[i])
    requires forall i :: 0 <= i < |b| ==> b[i] == f(ys[i])
    ensures l == a + b
  {
    forall i | 0 <= i < |l|
      ensures l[i] == (a + b)[i]
    {
      if i < |xs| {
        assert (xs + ys)[i] == xs[i];
      } else {
        assert (xs + ys)[i] == ys[i - |xs|];
      }
    }
  }
}
