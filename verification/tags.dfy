/**
 * `parse_tags`: breadcrumb category links become tags. Each text is
 * stripped and has `,`, `/` and `>` replaced by `;`; navigation categories
 * are dropped; tags equal up to case are kept once, first casing first.
 */
module Tags {
  import opened Text

  /** Any of these words makes a category a navigation entry, not a subject. */
  const ExcludeTokens: set<string> := {"kindle", "a-z"}

  /** Whole categories that are navigation entries. */
  const Exclude: set<string> :=
    {"special features", "by authors", "authors & illustrators", "books", "new; used & rental textbooks"}

  /** One breadcrumb text, stripped, with each `,`, `/` and `>` turned into `;`. */
  function Normalize(text: string): (r: string)
    ensures ',' !in r && '/' !in r && '>' !in r
    ensures |r| == |Strip(text)|
    ensures forall i :: 0 <= i < |r| ==>
      r[i] == if Strip(text)[i] == ',' || Strip(text)[i] == '/' || Strip(text)[i] == '>' then ';' else Strip(text)[i]
  {
    var t := Strip(text);
    ReplaceCharPointwise(t, ',', ';');
    var a := ReplaceAll(t, ",", ";");
    ReplaceCharPointwise(a, '/', ';');
    var b := ReplaceAll(a, "/", ";");
    ReplaceCharPointwise(b, '>', ';');
    ReplaceAll(b, ">", ";")
  }

  function NormalizeAll(texts: seq<string>): (ns: seq<string>)
    ensures |ns| == |texts|
    ensures forall i :: 0 <= i < |texts| ==> ns[i] == Normalize(texts[i])
  {
    seq(|texts|, i requires 0 <= i < |texts| => Normalize(texts[i]))
  }

  /** A normalized tag that is not empty and not a navigation category. */
  predicate Genuine(raw: string)
  {
    var l := Lower(raw);
    raw != "" && l !in Exclude && "kindle" !in Words(l) && "a-z" !in Words(l)
  }

  /** The keys of a list of entries. */
  function KeysOf(xs: seq<string>, key: string -> string): set<string>
  {
    set x | x in xs :: key(x)
  }

  lemma KeysOfAppend(xs: seq<string>, x: string, key: string -> string)
    ensures KeysOf(xs + [x], key) == KeysOf(xs, key) + {key(x)}
  {
    assert forall y :: y in xs + [x] <==> y in xs || y == x;
  }

  /** Index of the first kept entry of `ns` whose key is `v`; `|ns|` when there is none. */
  function FirstKept(ns: seq<string>, v: string, keep: string -> bool, key: string -> string): (k: nat)
    ensures k <= |ns|
    ensures k < |ns| ==> keep(ns[k]) && key(ns[k]) == v
    ensures forall j :: 0 <= j < k ==> !(keep(ns[j]) && key(ns[j]) == v)
  {
    if |ns| == 0 then 0
    else if keep(ns[0]) && key(ns[0]) == v then 0
    else 1 + FirstKept(ns[1..], v, keep, key)
  }

  /**
   * De-duplication by key, scanning left to right with the set of keys
   * already taken: the kept entries whose key is new, each in the form it
   * had where its key first occurs. Tags are `Dedup` with `Genuine` and `Lower`.
   */
  function Dedup(ns: seq<string>, seen: set<string>, keep: string -> bool, key: string -> string): (r: seq<string>)
    ensures forall i :: 0 <= i < |r| ==> keep(r[i]) && key(r[i]) !in seen
    ensures forall i, j :: 0 <= i < j < |r| ==> key(r[i]) != key(r[j])
    ensures forall i :: 0 <= i < |r| ==>
      FirstKept(ns, key(r[i]), keep, key) < |ns| && r[i] == ns[FirstKept(ns, key(r[i]), keep, key)]
    ensures forall k :: 0 <= k < |ns| && keep(ns[k]) && key(ns[k]) !in seen ==> key(ns[k]) in KeysOf(r, key)
    decreases |ns|
  {
    if |ns| == 0 then []
    else if keep(ns[0]) && key(ns[0]) !in seen then
      var rest := Dedup(ns[1..], seen + {key(ns[0])}, keep, key);
      var r := [ns[0]] + rest;
      assert KeysOf(rest, key) <= KeysOf(r, key);
      assert forall k :: 1 <= k < |ns| ==> ns[k] == ns[1..][k - 1];
      r
    else
      var r := Dedup(ns[1..], seen, keep, key);
      assert forall k :: 1 <= k < |ns| ==> ns[k] == ns[1..][k - 1];
      r
  }

  /** The entries of `a + b` are those of `a`, then those of `b` whose key `a` did not take. */
  lemma {:induction false} DedupAppend(a: seq<string>, b: seq<string>, seen: set<string>,
                                       keep: string -> bool, key: string -> string)
    ensures Dedup(a + b, seen, keep, key) ==
      Dedup(a, seen, keep, key) + Dedup(b, seen + KeysOf(Dedup(a, seen, keep, key), key), keep, key)
    decreases |a|
  {
    if |a| == 0 {
      assert a + b == b;
      assert KeysOf([], key) == {};
      assert seen + {} == seen;
    } else {
      assert (a + b)[1..] == a[1..] + b;
      if keep(a[0]) && key(a[0]) !in seen {
        var seen' := seen + {key(a[0])};
        DedupAppend(a[1..], b, seen', keep, key);
        var front := Dedup(a[1..], seen', keep, key);
        assert KeysOf([a[0]] + front, key) == {key(a[0])} + KeysOf(front, key);
        assert seen' + KeysOf(front, key) == seen + KeysOf([a[0]] + front, key);
      } else {
        DedupAppend(a[1..], b, seen, keep, key);
      }
    }
  }

  lemma DedupSingle(x: string, seen: set<string>, keep: string -> bool, key: string -> string)
    ensures Dedup([x], seen, keep, key) == if keep(x) && key(x) !in seen then [x] else []
  {
    assert [x][1..] == [];
  }

  /** One more entry extends the list exactly when it is kept and its key is new. */
  lemma DedupExtend(ns: seq<string>, i: nat, keep: string -> bool, key: string -> string,
                    front: seq<string>, seen: set<string>)
    requires i < |ns|
    requires front == Dedup(ns[..i], {}, keep, key) && seen == KeysOf(front, key)
    ensures keep(ns[i]) && key(ns[i]) !in seen ==> Dedup(ns[..i + 1], {}, keep, key) == front + [ns[i]]
    ensures !(keep(ns[i]) && key(ns[i]) !in seen) ==> Dedup(ns[..i + 1], {}, keep, key) == front
  {
    var a, b := ns[..i], [ns[i]];
    assert ns[..i + 1] == a + b;
    DedupAppend(a, b, {}, keep, key);
    assert {} + KeysOf(front, key) == seen;
    DedupSingle(ns[i], seen, keep, key);
  }

  /** One iteration of the `parse_tags` loop keeps the list equal to the de-duplicated prefix. */
  lemma TagStep(ns: seq<string>, i: nat, ans: seq<string>, seen: set<string>)
    requires i < |ns|
    requires ans == Dedup(ns[..i], {}, Genuine, Lower) && seen == KeysOf(ans, Lower)
    ensures Genuine(ns[i]) && Lower(ns[i]) !in seen ==>
      ans + [ns[i]] == Dedup(ns[..i + 1], {}, Genuine, Lower) && seen + {Lower(ns[i])} == KeysOf(ans + [ns[i]], Lower)
    ensures !(Genuine(ns[i]) && Lower(ns[i]) !in seen) ==> ans == Dedup(ns[..i + 1], {}, Genuine, Lower)
  {
    DedupExtend(ns, i, Genuine, Lower, ans, seen);
    KeysOfAppend(ans, ns[i], Lower);
  }

  /** The `parse_tags` loop over the normalized texts, with its `seen` set of lower forms. */
  method DedupTags(ns: seq<string>) returns (ans: seq<string>)
    ensures ans == Dedup(ns, {}, Genuine, Lower)
  {
    ans := [];
    var seen: set<string> := {};
    var i := 0;
    while i < |ns|
      invariant 0 <= i <= |ns|
      invariant ans == Dedup(ns[..i], {}, Genuine, Lower)
      invariant seen == KeysOf(ans, Lower)
    {
      var raw := ns[i];
      var lraw := Lower(raw);
      TagStep(ns, i, ans, seen);
      if Genuine(raw) && lraw !in seen {
        ans := ans + [raw];
        seen := seen + {lraw};
      }
      i := i + 1;
    }
    assert ns[..|ns|] == ns;
  }

  /**
   * `parse_tags`, given the text of every breadcrumb link (`a.text or ''`)
   * in document order.
   */
  method ParseTags(texts: seq<string>) returns (ans: seq<string>)
    ensures ans == Dedup(NormalizeAll(texts), {}, Genuine, Lower)
    ensures forall i :: 0 <= i < |ans| ==> ans[i] != "" && ',' !in ans[i] && '/' !in ans[i] && '>' !in ans[i]
    ensures forall i :: 0 <= i < |ans| ==>
      Lower(ans[i]) !in Exclude && "kindle" !in Words(Lower(ans[i])) && "a-z" !in Words(Lower(ans[i]))
    ensures forall i, j :: 0 <= i < j < |ans| ==> Lower(ans[i]) != Lower(ans[j])
  {
    ans := DedupTags(NormalizeAll(texts));
    TagsClean(texts);
  }

  /** What every tag list promises: clean, genuine entries with pairwise different lower forms. */
  lemma TagsClean(texts: seq<string>)
    ensures var r := Dedup(NormalizeAll(texts), {}, Genuine, Lower);
      && (forall k :: 0 <= k < |r| ==> r[k] != "" && ',' !in r[k] && '/' !in r[k] && '>' !in r[k])
      && (forall k :: 0 <= k < |r| ==>
            Lower(r[k]) !in Exclude && "kindle" !in Words(Lower(r[k])) && "a-z" !in Words(Lower(r[k])))
  {
    ghost var ns := NormalizeAll(texts);
    var r := Dedup(ns, {}, Genuine, Lower);
    forall k | 0 <= k < |r|
      ensures r[k] != "" && ',' !in r[k] && '/' !in r[k] && '>' !in r[k]
      ensures Lower(r[k]) !in Exclude && "kindle" !in Words(Lower(r[k])) && "a-z" !in Words(Lower(r[k]))
    {
      assert r[k] == ns[FirstKept(ns, Lower(r[k]), Genuine, Lower)];
      assert Genuine(r[k]);
    }
  }
}
