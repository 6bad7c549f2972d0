/** What a successful merge keeps and adds. */
module MroMerge {
  import opened Prelude
  import opened MroCore

  /** Without the classes that have GInterface among their bases. */
  function Plain(gi: Class, s: seq<Class>): (r: seq<Class>)
    ensures forall x :: x in r <==> x in s && gi !in x.bases
  {
    if s == [] then []
    else if gi in s[0].bases then Plain(gi, s[1..])
    else [s[0]] + Plain(gi, s[1..])
  }

  /** Every merged list survives, in order, inside the result. */
  lemma {:induction false} MergeKeepsLists(gi: Class, lists: seq<seq<Class>>, s: seq<Class>)
    requires AllNonEmpty(lists)
    ensures Merge(gi, lists).Some? && s in lists ==> Subseq(s, Merge(gi, lists).value)
    decreases Total(lists)
  {
    if Merge(gi, lists).Some? && s in lists {
      var c := Candidate(gi, lists, 0).value;
      var rest := Strip(lists, c);
      var r := Merge(gi, lists).value;
      assert r[1..] == Merge(gi, rest).value;
      StripShrinks(lists, c);
      StripTarget(lists, c, s);
      if s[0] == c {
        if |s| > 1 {
          MergeKeepsLists(gi, rest, s[1..]);
        }
      } else {
        MergeKeepsLists(gi, rest, s);
      }
    }
  }

  /** Nothing else gets into the result. */
  lemma {:induction false} MergeAddsNothing(gi: Class, lists: seq<seq<Class>>, x: Class)
    requires AllNonEmpty(lists)
    ensures Merge(gi, lists).Some? && x in Merge(gi, lists).value ==> exists s :: s in lists && x in s
    decreases Total(lists)
  {
    if Merge(gi, lists).Some? && x in Merge(gi, lists).value {
      var c := Candidate(gi, lists, 0).value;
      var rest := Strip(lists, c);
      StripShrinks(lists, c);
      if x != c {
        assert x in Merge(gi, rest).value;
        MergeAddsNothing(gi, rest, x);
        var t :| t in rest && x in t;
        StripSource(lists, c, t);
        assert x in [c] + t;
      } else {
        var i :| 0 <= i < |lists| && lists[i][0] == c;
        assert lists[i] in lists && x in lists[i];
      }
    }
  }

  lemma StripRemoves(lists: seq<seq<Class>>, c: Class)
    requires AllNonEmpty(lists) && !InSomeTail(lists, c)
    ensures forall t :: t in Strip(lists, c) ==> c !in t
  {
    forall t | t in Strip(lists, c) ensures c !in t {
      StripSource(lists, c, t);
      var s := if t in lists && t[0] != c then t else [c] + t;
      var i :| 0 <= i < |lists| && lists[i] == s;
      assert c !in s[1..];
    }
  }

  /** Ordinary classes obey C3: each occurs once. Only interfaces may repeat. */
  lemma {:induction false} MergePlainOnce(gi: Class, lists: seq<seq<Class>>)
    requires AllNonEmpty(lists) && Merge(gi, lists).Some?
    ensures NoDup(Plain(gi, Merge(gi, lists).value))
    decreases Total(lists)
  {
    if lists != [] {
      var c := Candidate(gi, lists, 0).value;
      var rest := Strip(lists, c);
      var r := Merge(gi, lists).value;
      assert r[1..] == Merge(gi, rest).value;
      StripShrinks(lists, c);
      MergePlainOnce(gi, rest);
      if !IsInterface(gi, c) {
        StripRemoves(lists, c);
        if c in r[1..] {
          MergeAddsNothing(gi, rest, c);
        }
      }
    }
  }
}
