/**
 * The last step of `parse_series`: a found series name loses one trailing
 * `<whitespace>Series` and then one trailing `(… Series)`, each followed by
 * a strip; the index is passed through.
 */
module Series {
  import opened Wrappers
  import opened Text

  /**
   * What the series strategies found: nothing (the pair `(None, None)`), or a
   * name with its index. The index is kept as the digit text it was read from.
   */
  datatype SeriesInfo = NoSeries | Found(name: string, index: string)

  /** The first position in `lo..hi` where `matches` holds, as Python's `re.search` scans. */
  function FirstMatch(lo: nat, hi: nat, matches: nat -> bool): (r: Option<nat>)
    requires lo <= hi
    ensures r.Some? ==> lo <= r.value <= hi && matches(r.value)
    ensures r.Some? ==> (forall j :: lo <= j < r.value ==> !matches(j))
    ensures r.None? ==> (forall j :: lo <= j <= hi ==> !matches(j))
    decreases hi - lo
  {
    if matches(lo) then Some(lo)
    else if lo == hi then None
    else FirstMatch(lo + 1, hi, matches)
  }

  /** `s[p..]` matches `\s+Series$`: one or more whitespace characters, then "Series" at the very end. */
  predicate SeriesWordAt(s: string, p: nat)
  {
    && p + 7 <= |s|
    && EndsWith(s, "Series")
    && forall i | p <= i < |s| - 6 :: IsRegexSpace(s[i])
  }

  /**
   * `s[p..]` matches `\(.+?\s+Series\)$`: an opening parenthesis, at least one
   * character other than a newline, at least one whitespace character, then
   * "Series)" at the very end.
   */
  predicate ParenSeriesAt(s: string, p: nat)
  {
    && p < |s| && s[p] == '('
    && EndsWith(s, "Series)")
    && exists j | p + 2 <= j < |s| - 7 :: ParenSplit(s, p, j)
  }

  /** `.+?` takes `s[p+1..j]` (no newline) and `\s+` takes `s[j..|s|-7]`. */
  predicate ParenSplit(s: string, p: nat, j: nat)
  {
    && p + 2 <= j < |s| - 7
    && (forall i | p + 1 <= i < j :: s[i] != '\n')
    && (forall i | j <= i < |s| - 7 :: IsRegexSpace(s[i]))
  }

  /** `re.sub(r'\s+Series$', '', s)`: the leftmost match runs to the end, so it is the only one. */
  function DropSeriesWord(s: string): (r: string)
    ensures |r| <= |s| && r == s[..|r|]
    ensures |r| < |s| ==> SeriesWordAt(s, |r|)
    ensures forall j :: 0 <= j < |r| ==> !SeriesWordAt(s, j)
    ensures |r| == |s| ==> forall j :: 0 <= j <= |s| ==> !SeriesWordAt(s, j)
  {
    var m := (p: nat) => SeriesWordAt(s, p);
    match FirstMatch(0, |s|, m)
    case Some(p) =>
      assert forall j :: 0 <= j < p ==> !SeriesWordAt(s, j) by {
        forall j | 0 <= j < p ensures !SeriesWordAt(s, j) { assert !m(j); }
      }
      s[..p]
    case None =>
      assert forall j :: 0 <= j <= |s| ==> !SeriesWordAt(s, j) by {
        forall j | 0 <= j <= |s| ensures !SeriesWordAt(s, j) { assert !m(j); }
      }
      s
  }

  /** `re.sub(r'\(.+?\s+Series\)$', '', s)`, removing from the leftmost parenthesis that matches. */
  function DropParenSeries(s: string): (r: string)
    ensures |r| <= |s| && r == s[..|r|]
    ensures |r| < |s| ==> ParenSeriesAt(s, |r|)
    ensures forall j :: 0 <= j < |r| ==> !ParenSeriesAt(s, j)
    ensures |r| == |s| ==> forall j :: 0 <= j <= |s| ==> !ParenSeriesAt(s, j)
  {
    var m := (p: nat) => ParenSeriesAt(s, p);
    match FirstMatch(0, |s|, m)
    case Some(p) =>
      assert forall j :: 0 <= j < p ==> !ParenSeriesAt(s, j) by {
        forall j | 0 <= j < p ensures !ParenSeriesAt(s, j) { assert !m(j); }
      }
      s[..p]
    case None =>
      assert forall j :: 0 <= j <= |s| ==> !ParenSeriesAt(s, j) by {
        forall j | 0 <= j <= |s| ensures !ParenSeriesAt(s, j) { assert !m(j); }
      }
      s
  }

  /** The two substitutions of `parse_series`, each followed by `strip()`. */
  function CleanName(name: string): (r: string)
    ensures r == Strip(DropParenSeries(Strip(DropSeriesWord(name))))
    ensures Contains(name, r)
    ensures |r| > 0 ==> !IsSpace(r[0]) && !IsSpace(r[|r| - 1])
    ensures !EndsWith(name, "Series") && !EndsWith(Strip(name), "Series)") ==> r == Strip(name)
  {
    assert !EndsWith(name, "Series") ==> DropSeriesWord(name) == name;
    assert !EndsWith(Strip(name), "Series)") ==> DropParenSeries(Strip(name)) == Strip(name);
    var a := DropSeriesWord(name);
    assert Contains(name, a) by { assert OccursAt(name, a, 0); }
    var b := Strip(a);
    ContainsTransitive(b, a, name);
    var c := DropParenSeries(b);
    assert Contains(b, c) by { assert OccursAt(b, c, 0); }
    ContainsTransitive(c, b, name);
    var r := Strip(c);
    ContainsTransitive(r, c, name);
    StripIdempotent(name);
    r
  }

  /**
   * The suffix clean-up of `parse_series`: a found name is cleaned, its
   * index kept; no series stays no series.
   */
  function CleanSeries(si: SeriesInfo): (r: SeriesInfo)
    ensures si.NoSeries? <==> r.NoSeries?
    ensures si.Found? ==> r.index == si.index && Contains(si.name, r.name)
    ensures si.Found? && si.name != "" ==> r.name == CleanName(si.name)
  {
    match si
    case NoSeries => NoSeries
    case Found(name, index) =>
      if name == "" then
        assert OccursAt(name, name, 0);
        si
      else
        assert OccursAt(name, name, 0);
        Found(CleanName(name), index)
  }

  /** One trailing " Series" is removed from a name that does not end in whitespace before it. */
  lemma DropSeriesWordOf(base: string)
    requires |base| > 0 && !IsRegexSpace(base[|base| - 1])
    ensures DropSeriesWord(base + " Series") == base
  {
    var s := base + " Series";
    assert SeriesWordAt(s, |base|);
    assert s[|base| - 1] == base[|base| - 1];
    assert forall j :: 0 <= j < |base| ==> !SeriesWordAt(s, j);
    assert s[..|base|] == base;
  }

  /** A parenthesised "… Series" after the name is removed, leaving the separating space. */
  lemma DropParenSeriesOf(base: string, x: string)
    requires '(' !in base && |x| > 0 && '\n' !in x
    ensures DropParenSeries(base + " (" + x + " Series)") == base + " "
  {
    var s := base + " (" + x + " Series)";
    var p := |base| + 1;
    assert s[p] == '(';
    assert EndsWith(s, "Series)");
    var j := p + 1 + |x|;
    assert forall i | p + 1 <= i < j :: s[i] == x[i - p - 1];
    assert s[j] == ' ';
    assert ParenSplit(s, p, j);
    assert ParenSeriesAt(s, p);
    forall k | 0 <= k < p
      ensures !ParenSeriesAt(s, k)
    {
      if k < |base| { assert s[k] == base[k]; } else { assert s[k] == ' '; }
    }
    assert s[..p] == base + " ";
  }

  /** The clean-up is not repeated: a name ending in "Series Series" keeps one "Series". */
  lemma DoubleSeriesKeepsOne()
    ensures CleanName("X Series Series") == "X Series"
  {
    var a := "X Series";
    DropSeriesWordOf(a);
    assert a + " Series" == "X Series Series";
    assert !IsSpace(a[0]) && !IsSpace(a[|a| - 1]);
    assert a[|a| - 1] != ")"[0];
    NoParenSeries(a);
    CleanNameOf("X Series Series", a);
  }

  /** Without a trailing "Series)" there is nothing for the parenthesis pattern to remove. */
  lemma NoParenSeries(s: string)
    requires !EndsWith(s, "Series)")
    ensures DropParenSeries(s) == s
  {
  }

  /** `CleanName` stops at a text both substitutions and stripping leave alone. */
  lemma CleanNameOf(name: string, a: string)
    requires DropSeriesWord(name) == a && Strip(a) == a && DropParenSeries(a) == a
    ensures CleanName(name) == a
  {
  }

  /**
   * The lazy `.+?` does not make the match start late: an earlier
   * parenthesis swallows everything after it.
   */
  lemma EarlierParenthesisWins()
    ensures DropParenSeries("A (b) (C Series)") == "A "
  {
    var s := "A (b) (C Series)";
    assert s[2] == '(';
    assert EndsWith(s, "Series)");
    assert s[8] == ' ';
    assert forall i | 3 <= i < 8 :: s[i] != '\n';
    assert ParenSplit(s, 2, 8);
    assert ParenSeriesAt(s, 2);
    assert !ParenSeriesAt(s, 0) && !ParenSeriesAt(s, 1);
    assert s[..2] == "A ";
  }
}
