/**
 * The two decisions `_render_comments` takes on the product description:
 * which block of the description becomes the comment, and how its
 * whitespace is collapsed.
 */
module Comments {
  import opened Wrappers
  import opened Text

  /**
   * The block kept as the comment: the whole description, or the block at
   * `index` among those following a synopsis heading.
   */
  datatype Block = Whole | Match(index: nat)

  /** A block whose text is longer than 50 and shorter than 200 characters reads as a synopsis. */
  predicate SynopsisLength(n: nat)
  {
    50 < n < 200
  }

  /** The first block at or after `i` with a synopsis length, if any. */
  function FirstSynopsis(lens: seq<nat>, i: nat): (r: Option<nat>)
    requires i <= |lens|
    ensures r.Some? ==> i <= r.value < |lens| && SynopsisLength(lens[r.value])
    ensures r.Some? ==> forall j :: i <= j < r.value ==> !SynopsisLength(lens[j])
    ensures r.None? ==> forall j :: i <= j < |lens| ==> !SynopsisLength(lens[j])
    decreases |lens| - i
  {
    if i == |lens| then None
    else if SynopsisLength(lens[i]) then Some(i)
    else FirstSynopsis(lens, i + 1)
  }

  /**
   * The block choice, given the text length of every block found after a
   * synopsis heading. With none, or exactly one, the whole description is
   * kept; with several, the first of synopsis length, or else the last.
   */
  function ChooseBlock(lens: seq<nat>): (b: Block)
    ensures b == Whole <==> |lens| <= 1
    ensures b.Match? ==> b.index < |lens|
    ensures b.Match? && SynopsisLength(lens[b.index]) ==>
      forall j :: 0 <= j < b.index ==> !SynopsisLength(lens[j])
    ensures b.Match? && !SynopsisLength(lens[b.index]) ==>
      b.index == |lens| - 1 && forall j :: 0 <= j < |lens| ==> !SynopsisLength(lens[j])
    ensures |lens| > 1 && (exists j :: 0 <= j < |lens| && SynopsisLength(lens[j])) ==>
      b.Match? && SynopsisLength(lens[b.index])
  {
    if |lens| <= 1 then Whole
    else
      match FirstSynopsis(lens, 0)
      case Some(i) => Match(i)
      case None => Match(|lens| - 1)
  }

  /** A single block after the heading is ignored, however well its length fits. */
  lemma SingleMatchKeepsWhole(n: nat)
    ensures ChooseBlock([n]) == Whole
  {
  }

  /** Two blocks of synopsis length: the first one is taken. */
  lemma FirstSynopsisWins()
    ensures ChooseBlock([10, 100, 150]) == Match(1)
  {
    assert !SynopsisLength(10) && SynopsisLength(100);
  }

  /** Every block too short or too long: the last one is taken. */
  lemma NoSynopsisTakesLast()
    ensures ChooseBlock([10, 300, 20]) == Match(2)
  {
    assert !SynopsisLength([10, 300, 20][0]);
    assert !SynopsisLength([10, 300, 20][1]);
    assert !SynopsisLength([10, 300, 20][2]);
  }

  const ReplacementChar: char := '\U{FFFD}'

  /** The replacement character stands for an apostrophe in the source data. */
  function RepairQuotes(s: string): (r: string)
    ensures |r| == |s|
    ensures ReplacementChar !in r
    ensures forall i :: 0 <= i < |s| ==> r[i] == (if s[i] == ReplacementChar then '\'' else s[i])
  {
    ReplaceCharPointwise(s, ReplacementChar, '\'');
    ReplaceAll(s, [ReplacementChar], "'")
  }

  /**
   * `re.sub('\n+', '\n', …)` then `re.sub(' +', ' ', …)`: every newline
   * that follows a newline goes, then every space that follows a space, so
   * no blank line pair and no double space is left, and the text apart from
   * newlines and spaces is untouched.
   */
  function CollapseWhitespace(s: string): (r: string)
    ensures NoDouble(r, '\n') && NoDouble(r, ' ')
    ensures Without(Without(r, '\n'), ' ') == Without(Without(s, '\n'), ' ')
    ensures ('\n' in r <==> '\n' in s) && (' ' in r <==> ' ' in s)
    ensures r == Squeeze(Squeeze(s, '\n'), ' ')
  {
    var a := CollapseRuns(s, '\n');
    var r := CollapseRuns(a, ' ');
    CollapseRunsIsSqueeze(s, '\n');
    CollapseRunsIsSqueeze(a, ' ');
    WithoutCommutes(r, '\n', ' ');
    WithoutCommutes(a, '\n', ' ');
    r
  }

  /** Removing two characters gives the same text in either order. */
  lemma {:induction false} WithoutCommutes(s: string, c: char, d: char)
    ensures Without(Without(s, c), d) == Without(Without(s, d), c)
    decreases |s|
  {
    if |s| > 0 {
      WithoutCommutes(s[1..], c, d);
      if s[0] != c && s[0] != d {
        assert ([s[0]] + Without(s[1..], c))[1..] == Without(s[1..], c);
        assert ([s[0]] + Without(s[1..], d))[1..] == Without(s[1..], d);
      } else if s[0] != c {
        assert ([s[0]] + Without(s[1..], c))[1..] == Without(s[1..], c);
      } else if s[0] != d {
        assert ([s[0]] + Without(s[1..], d))[1..] == Without(s[1..], d);
      }
    }
  }

  /** A text with no doubled newline or space is left as it is. */
  lemma CollapseWhitespaceFixed(s: string)
    requires NoDouble(s, '\n') && NoDouble(s, ' ')
    ensures CollapseWhitespace(s) == s
  {
    CollapseRunsFixed(s, '\n');
    CollapseRunsFixed(s, ' ');
  }

  /** Collapsing whitespace twice is collapsing it once. */
  lemma CollapseWhitespaceIdempotent(s: string)
    ensures CollapseWhitespace(CollapseWhitespace(s)) == CollapseWhitespace(s)
  {
    CollapseWhitespaceFixed(CollapseWhitespace(s));
  }
}
