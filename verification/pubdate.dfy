/**
 * The string side of `parse_pubdate`: the Chinese date markers become
 * slashes, the "出版时间" label goes, a missing day becomes 1, and
 * `delocalize_datestr` then lower-cases and maps month tokens.
 */
module Pubdate {
  import opened Wrappers
  import opened Text

  /** The localized month tokens of `Worker.months`, month 1 first. */
  const MonthTokens: seq<string> :=
    ["1月", "2月", "3月", "4月", "5月", "6月", "7月", "8月", "9月", "10月", "11月", "12月"]

  /** `Worker.english_months` without its leading `None`. */
  const EnglishMonths: seq<string> :=
    ["Jan", "Feb", "Mar", "Apr", "May", "Jun", "Jul", "Aug", "Sep", "Oct", "Nov", "Dec"]

  /** The publication-date label printed before the date. */
  const Label: string := "出版时间"

  /**
   * The month replacements of `delocalize_datestr` from month `i` to 12,
   * in increasing order, each replacing every occurrence of its token.
   */
  function ReplaceMonths(s: string, i: nat): string
    requires 1 <= i <= 13
    decreases 13 - i
  {
    if i == 13 then s
    else ReplaceMonths(ReplaceAll(s, MonthTokens[i - 1], EnglishMonths[i - 1]), i + 1)
  }

  /**
   * `delocalize_datestr`: lower-case, map month tokens, then " de " to a
   * space. On a text without `月` only the lower-casing and the " de "
   * replacement remain.
   */
  function Delocalize(raw: string): (r: string)
    ensures '月' !in raw ==> r == ReplaceAll(Lower(raw), " de ", " ")
  {
    if '月' in raw then ReplaceAll(ReplaceMonths(Lower(raw), 1), " de ", " ")
    else
      LowerKeepsAbsent(raw, '月');
      ReplaceMonthsNoop(Lower(raw), 1);
      ReplaceAll(ReplaceMonths(Lower(raw), 1), " de ", " ")
  }

  /** Without a `月` no month token can match, so the month pass changes nothing. */
  lemma {:induction false} ReplaceMonthsNoop(s: string, i: nat)
    requires 1 <= i <= 13 && '月' !in s
    ensures ReplaceMonths(s, i) == s
    decreases 13 - i
  {
    if i < 13 {
      var tok := MonthTokens[i - 1];
      assert tok[|tok| - 1] == '月';
      ReplaceAbsent(s, tok, EnglishMonths[i - 1], '月');
      ReplaceMonthsNoop(s, i + 1);
    }
  }

  /** Lower-casing creates no character outside `a`..`z` that was not there before. */
  lemma LowerKeepsAbsent(s: string, c: char)
    requires c !in s && !('a' <= c <= 'z')
    ensures c !in Lower(s)
  {
  }

  /** Month 1 is replaced first, so "11月" reads as "1" followed by January. */
  lemma NovemberReadsAsJanuary()
    ensures Delocalize("11月") == "1Jan"
  {
    NovemberStage("11月");
    JanuaryFirst();
    JanuaryStays("1Jan");
  }

  /** No later month token and no " de " occurs in the result. */
  lemma JanuaryStays(t: string)
    requires t == "1Jan"
    ensures ReplaceAll(ReplaceMonths(t, 2), " de ", " ") == t
  {
    ReplaceMonthsNoop(t, 2);
    ReplaceAbsent(t, " de ", " ", ' ');
  }

  lemma NovemberStage(s: string)
    requires s == "11月"
    ensures Delocalize(s) == ReplaceAll(ReplaceMonths(ReplaceAll(s, "1月", "Jan"), 2), " de ", " ")
  {
    assert Lower(s) == s;
    assert MonthTokens[0] == "1月" && EnglishMonths[0] == "Jan";
  }

  lemma JanuaryFirst()
    ensures ReplaceAll("11月", "1月", "Jan") == "1Jan"
  {
    var l := "11月";
    assert l == ['1'] + "1月";
    assert l[..2][1] != "1月"[1];
    ReplaceSkip('1', "1月", "1月", "Jan");
    ReplaceHit("", "1月", "Jan");
    assert "1月" + "" == "1月";
  }

  /**
   * The rewrite of `parse_pubdate` before delocalizing: `年` and `月` become
   * `/`, `日` goes, `-` becomes `/`, the label and `:` go, the result is
   * stripped and a trailing `/` gets the day `1`.
   */
  function Rewrite(date: string): (r: string)
    ensures '年' !in r && '月' !in r && '日' !in r && '-' !in r && ':' !in r
    ensures !EndsWith(r, "/")
    ensures EndsWith(Strip(DropMarkers(date)), "/") ==> EndsWith(r, "/1")
    ensures |r| > 0 ==> !IsSpace(r[0])
    ensures forall c :: c in r ==> c in date || c == '/' || c == '1'
    ensures '出' !in date ==>
      var m := Strip(MarkerText(date));
      r == if EndsWith(m, "/") then m + "1" else m
  {
    var m := Strip(DropMarkers(date));
    var r := AddDay(m);
    assert EndsWith(m, "/") ==> r == r[..|m|] + r[|m|..] == m + "1";
    r
  }

  /** What the marker rewrite makes of one character. */
  function MarkerChar(c: char): string
  {
    if c == '年' || c == '月' || c == '-' then "/"
    else if c == '日' || c == ':' then ""
    else [c]
  }

  /** The marker rewrite character by character, as a reference definition. */
  function MarkerText(date: string): string
  {
    if |date| == 0 then "" else MarkerChar(date[0]) + MarkerText(date[1..])
  }

  /**
   * The six replacements, in source order. On a text without the label's
   * first character they rewrite each character on its own.
   */
  function DropMarkers(date: string): (f: string)
    ensures '年' !in f && '月' !in f && '日' !in f && '-' !in f && ':' !in f
    ensures forall c :: c in f ==> c in date || c == '/'
    ensures '出' !in date ==> f == MarkerText(date)
  {
    LabelFreeMarkers(date);
    ReplaceAll(ReplaceAll(ReplaceAll(ReplaceAll(ReplaceAll(ReplaceAll(
      date, "年", "/"), "月", "/"), "日", ""), "-", "/"), Label, ""), ":", "")
  }

  /** The five one-character replacements, without the label. */
  function CharMarkers(s: string): string
  {
    ReplaceAll(ReplaceAll(ReplaceAll(ReplaceAll(ReplaceAll(s, "年", "/"), "月", "/"), "日", ""), "-", "/"), ":", "")
  }

  /** Without `出` the label replacement is idle and the rest works per character. */
  lemma LabelFreeMarkers(date: string)
    ensures '出' !in date ==>
      ReplaceAll(ReplaceAll(ReplaceAll(ReplaceAll(ReplaceAll(ReplaceAll(
        date, "年", "/"), "月", "/"), "日", ""), "-", "/"), Label, ""), ":", "") == MarkerText(date)
  {
    if '出' !in date {
      var d := ReplaceAll(ReplaceAll(ReplaceAll(ReplaceAll(date, "年", "/"), "月", "/"), "日", ""), "-", "/");
      assert Label[0] == '出';
      ReplaceAbsent(d, Label, "", '出');
      CharMarkersPointwise(date);
    }
  }

  /**
   * A date behind the "出版时间" label, as the primary publication-date
   * element prints it: the label goes and the rest is rewritten character
   * by character.
   */
  lemma LabelledDate(d: string)
    requires '出' !in d
    ensures DropMarkers(Label + d) == MarkerText(d)
  {
    var d4 := ReplaceAll(ReplaceAll(ReplaceAll(ReplaceAll(d, "年", "/"), "月", "/"), "日", ""), "-", "/");
    LabelPassesMarkers(d);
    LabelStage(Label + d, Label + d4);
    ReplaceHit(d4, Label, "");
    assert Label[0] == '出';
    ReplaceAbsent(d4, Label, "", '出');
    assert "" + d4 == d4;
    CharMarkersPointwise(d);
  }

  /** The date-marker replacements leave a leading label alone. */
  lemma LabelPassesMarkers(d: string)
    ensures ReplaceAll(ReplaceAll(ReplaceAll(ReplaceAll(Label + d, "年", "/"), "月", "/"), "日", ""), "-", "/")
      == Label + ReplaceAll(ReplaceAll(ReplaceAll(ReplaceAll(d, "年", "/"), "月", "/"), "日", ""), "-", "/")
  {
    ReplaceAbsent(Label, "年", "/", '年');
    ReplaceCharAppend(Label, d, '年', "/");
    var d1 := ReplaceAll(d, "年", "/");
    ReplaceAbsent(Label, "月", "/", '月');
    ReplaceCharAppend(Label, d1, '月', "/");
    var d2 := ReplaceAll(d1, "月", "/");
    ReplaceAbsent(Label, "日", "", '日');
    ReplaceCharAppend(Label, d2, '日', "");
    var d3 := ReplaceAll(d2, "日", "");
    ReplaceAbsent(Label, "-", "/", '-');
    ReplaceCharAppend(Label, d3, '-', "/");
  }

  /** The whole rewrite of a labelled date. */
  lemma LabelledRewrite(d: string)
    requires '出' !in d
    ensures Rewrite(Label + d) == AddDay(Strip(MarkerText(d)))
  {
    LabelledDate(d);
  }

  /** A single character through one single-character replacement. */
  lemma ReplaceOne(y: char, c: char, rep: string)
    ensures ReplaceAll([y], [c], rep) == if y == c then rep else [y]
  {
    ReplaceCharCons(y, "", c, rep);
    assert [y] + "" == [y];
  }

  /** The five replacements handle the first character on its own. */
  lemma CharMarkersCons(x: char, t: string)
    ensures CharMarkers([x] + t) == MarkerChar(x) + CharMarkers(t)
  {
    var t1 := ReplaceAll(t, "年", "/");
    var t2 := ReplaceAll(t1, "月", "/");
    var t3 := ReplaceAll(t2, "日", "");
    var t4 := ReplaceAll(t3, "-", "/");
    var a1 := if x == '年' then "/" else [x];
    ReplaceCharCons(x, t, '年', "/");
    ReplaceCharAppend(a1, t1, '月', "/");
    var a2 := ReplaceAll(a1, "月", "/");
    ReplaceCharAppend(a2, t2, '日', "");
    var a3 := ReplaceAll(a2, "日", "");
    ReplaceCharAppend(a3, t3, '-', "/");
    var a4 := ReplaceAll(a3, "-", "/");
    ReplaceCharAppend(a4, t4, ':', "");
    var a5 := ReplaceAll(a4, ":", "");
    ReplaceOne(a1[0], '月', "/");
    assert a2 == (if x == '年' || x == '月' then "/" else [x]);
    ReplaceOne(a2[0], '日', "");
    assert a3 == (if x == '年' || x == '月' then "/" else if x == '日' then "" else [x]);
    if a3 != "" {
      ReplaceOne(a3[0], '-', "/");
    }
    assert a4 == (if x == '年' || x == '月' || x == '-' then "/" else if x == '日' then "" else [x]);
    if a4 != "" {
      ReplaceOne(a4[0], ':', "");
    }
    assert a5 == MarkerChar(x);
  }

  lemma {:induction false} CharMarkersPointwise(s: string)
    ensures CharMarkers(s) == MarkerText(s)
    decreases |s|
  {
    if |s| > 0 {
      assert s == [s[0]] + s[1..];
      CharMarkersCons(s[0], s[1..]);
      CharMarkersPointwise(s[1..]);
    }
  }

  /** A trailing slash means the day is missing: day 1 is appended. */
  function AddDay(mid: string): (r: string)
    ensures !EndsWith(r, "/")
    ensures EndsWith(mid, "/") ==> EndsWith(r, "/1") && |r| == |mid| + 1 && r[..|mid|] == mid
    ensures !EndsWith(mid, "/") ==> r == mid
    ensures forall c :: c in r ==> c in mid || c == '1'
    ensures |mid| > 0 ==> |r| > 0 && r[0] == mid[0]
  {
    if EndsWith(mid, "/") then mid + "1" else mid
  }

  /** A date with year and month only gets the first of the month. */
  lemma YearMonthGetsDayOne()
    ensures Rewrite("2020年1月") == "2020/1/1"
  {
    YearMonthStage("2020年1月");
    DayOneAdded();
  }

  lemma YearMonthStage(s: string)
    requires s == "2020年1月"
    ensures Rewrite(s) == AddDay(Strip("2020/1/"))
  {
    YearMonthMarkers();
    RewriteStage(s, "2020/1/");
  }

  lemma DayOneAdded()
    ensures AddDay(Strip("2020/1/")) == "2020/1/1"
  {
    var m := "2020/1/";
    assert m[0] == '2' && m[|m| - 1] == '/';
    StripKeeps(m);
    assert EndsWith(m, "/");
  }

  /** `Rewrite` once the marker replacements have produced `m`. */
  lemma RewriteStage(date: string, m: string)
    requires DropMarkers(date) == m
    ensures Rewrite(date) == AddDay(Strip(m))
  {
  }

  lemma YearMonthMarkers()
    ensures DropMarkers("2020年1月") == "2020/1/"
  {
    YearMonthText();
    assert '出' !in "2020年1月";
  }

  lemma YearMonthText()
    ensures MarkerText("2020年1月") == "2020/1/"
  {
    YearText();
    MonthText();
    assert "2020年1月" == "2020" + "年1月";
    MarkerTextAppend("2020", "年1月");
    assert "2020" + "/1/" == "2020/1/";
  }

  lemma YearText()
    ensures MarkerText("2020") == "2020"
  {
    MarkerTextPlain("2020");
  }

  lemma MonthText()
    ensures MarkerText("年1月") == "/1/"
  {
    var b, c, d := "年", "1", "月";
    assert "年1月" == b + (c + d);
    MarkerTextAppend(b, c + d);
    MarkerTextAppend(c, d);
    MarkerTextOne('年');
    MarkerTextOne('1');
    MarkerTextOne('月');
  }

  lemma MarkerTextOne(c: char)
    ensures MarkerText([c]) == MarkerChar(c)
  {
    assert [c][1..] == [];
  }

  /** A text without markers is its own rewrite. */
  lemma {:induction false} MarkerTextPlain(s: string)
    requires forall i :: 0 <= i < |s| ==> MarkerChar(s[i]) == [s[i]]
    ensures MarkerText(s) == s
    decreases |s|
  {
    if |s| > 0 {
      MarkerTextPlain(s[1..]);
      assert s == [s[0]] + s[1..];
    }
  }

  /** The marker rewrite works piece by piece. */
  lemma {:induction false} MarkerTextAppend(a: string, b: string)
    ensures MarkerText(a + b) == MarkerText(a) + MarkerText(b)
    decreases |a|
  {
    if |a| == 0 {
      assert a + b == b;
    } else {
      assert (a + b)[0] == a[0] && (a + b)[1..] == a[1..] + b;
      MarkerTextAppend(a[1..], b);
    }
  }

  lemma StripKeeps(s: string)
    requires |s| > 0 && !IsSpace(s[0]) && !IsSpace(s[|s| - 1])
    ensures Strip(s) == s
  {
  }

  /** The label is removed once, not until it is gone: one split by another copy survives. */
  lemma LabelCanSurvive()
    ensures Rewrite("出版出版时间时间") == Label
  {
    DoubledLabelStage("出版出版时间时间");
    LabelKept();
  }

  lemma DoubledLabelStage(s: string)
    requires s == "出版出版时间时间"
    ensures Rewrite(s) == AddDay(Strip(Label))
  {
    LabelMarkers();
    RewriteStage(s, Label);
  }

  /** The label has no surrounding space and no trailing `/`, so the last two steps keep it. */
  lemma LabelKept()
    ensures AddDay(Strip(Label)) == Label
  {
    assert Label[0] == '出' && Label[|Label| - 1] == '间';
    StripKeeps(Label);
    assert !EndsWith(Label, "/");
  }

  lemma LabelMarkers()
    ensures DropMarkers("出版出版时间时间") == Label
  {
    DatelessStage("出版出版时间时间");
    LabelOnceColonFree();
  }

  /** On the doubled label the date-marker replacements change nothing. */
  lemma DatelessStage(s: string)
    requires s == "出版出版时间时间"
    ensures DropMarkers(s) == ReplaceAll(ReplaceAll(s, Label, ""), ":", "")
  {
    DatelessIdle(s);
    LabelStage(s, s);
  }

  /** `DropMarkers` once the four date-marker replacements have produced `d`. */
  lemma LabelStage(date: string, d: string)
    requires d == ReplaceAll(ReplaceAll(ReplaceAll(ReplaceAll(date, "年", "/"), "月", "/"), "日", ""), "-", "/")
    ensures DropMarkers(date) == ReplaceAll(ReplaceAll(d, Label, ""), ":", "")
  {
  }

  lemma LabelOnceColonFree()
    ensures ReplaceAll(ReplaceAll("出版出版时间时间", Label, ""), ":", "") == Label
  {
    LabelOnce();
    ReplaceAbsent(Label, ":", "", ':');
  }

  /** The first four replacements leave a text without date markers alone. */
  lemma DatelessIdle(s: string)
    requires '年' !in s && '月' !in s && '日' !in s && '-' !in s
    ensures ReplaceAll(ReplaceAll(ReplaceAll(ReplaceAll(s, "年", "/"), "月", "/"), "日", ""), "-", "/") == s
  {
    ReplaceAbsent(s, "年", "/", '年');
    ReplaceAbsent(s, "月", "/", '月');
    ReplaceAbsent(s, "日", "", '日');
    ReplaceAbsent(s, "-", "/", '-');
  }

  lemma LabelOnce()
    ensures ReplaceAll("出版出版时间时间", Label, "") == Label
  {
    var s := "出版出版时间时间";
    assert s == ['出'] + (['版'] + (Label + "时间"));
    assert (['出'] + (['版'] + (Label + "时间")))[..4][2] != Label[2];
    ReplaceSkip('出', ['版'] + (Label + "时间"), Label, "");
    assert (['版'] + (Label + "时间"))[..4][0] != Label[0];
    ReplaceSkip('版', Label + "时间", Label, "");
    ReplaceHit("时间", Label, "");
    assert ReplaceAll("时间", Label, "") == "时间";
    assert ['出'] + (['版'] + ("" + "时间")) == Label;
  }

  /**
   * `parse_pubdate` up to the date parser: the text of the first publication
   * date element, or else of the second fallback cell, rewritten and
   * delocalized; `None` when there is no such text or it is empty.
   */
  function DateStringForParser(primary: seq<string>, fallback: seq<string>): (r: Option<string>)
    ensures r.Some? ==> '年' !in r.value && '月' !in r.value && '日' !in r.value && '-' !in r.value && ':' !in r.value
    ensures |primary| > 0 ==> (r.Some? <==> Strip(primary[0]) != "")
    ensures |primary| == 0 ==> (r.Some? <==> |fallback| > 1 && Strip(fallback[1]) != "")
    ensures |primary| > 0 && r.Some? ==> r.value == ReplaceAll(Lower(Rewrite(Strip(primary[0]))), " de ", " ")
    ensures |primary| == 0 && r.Some? ==> r.value == ReplaceAll(Lower(Rewrite(Strip(fallback[1]))), " de ", " ")
  {
    var date := if |primary| > 0 then Strip(primary[0]) else if |fallback| > 1 then Strip(fallback[1]) else "";
    if date == "" then None
    else
      var w := Rewrite(date);
      var l := Lower(w);
      LowerKeepsAbsent(w, '年');
      LowerKeepsAbsent(w, '月');
      LowerKeepsAbsent(w, '日');
      LowerKeepsAbsent(w, '-');
      LowerKeepsAbsent(w, ':');
      Some(Delocalize(w))
  }
}
