/** When the merge succeeds. */
module MroSuccess {
  import opened Prelude
  import opened MroCore
  import opened MroMerge

  /** `order` is a strict linear order along which every list, interfaces dropped, increases. */
  ghost predicate Linearises(gi: Class, order: seq<Class>, lists: seq<seq<Class>>) {
    NoDup(order) && forall s :: s in lists ==> Subseq(Plain(gi, s), order)
  }

  lemma {:induction false} PlainSubseq(gi: Class, a: seq<Class>, b: seq<Class>)
    requires Subseq(a, b)
    ensures Subseq(Plain(gi, a), Plain(gi, b))
    decreases |b|
  {
    if a != [] {
      if a[0] == b[0] {
        PlainSubseq(gi, a[1..], b[1..]);
        if !IsInterface(gi, a[0]) {
          assert Plain(gi, a)[1..] == Plain(gi, a[1..]);
          assert Plain(gi, b)[1..] == Plain(gi, b[1..]);
        }
      } else {
        PlainSubseq(gi, a, b[1..]);
        if !IsInterface(gi, b[0]) {
          SubseqCons(Plain(gi, a), b[0], Plain(gi, b[1..]));
        }
      }
    }
  }

  /** If some order linearises the lists, one of the heads can be taken. */
  lemma {:induction false} HeadAvailable(gi: Class, lists: seq<seq<Class>>, order: seq<Class>)
    requires AllNonEmpty(lists) && lists != [] && Linearises(gi, order, lists)
    ensures Candidate(gi, lists, 0).Some?
  {
    if forall i :: 0 <= i < |lists| ==> !IsInterface(gi, lists[i][0]) {
      forall i | 0 <= i < |lists| ensures lists[i][0] in order {
        assert lists[i] in lists;
        SubseqMember(Plain(gi, lists[i]), order, lists[i][0]);
      }
      var m := EarliestHead(lists, order);
      var h := lists[m][0];
      if InSomeTail(lists, h) {
        var i :| 0 <= i < |lists| && h in lists[i][1..];
        var p := Plain(gi, lists[i]);
        assert lists[i] in lists;
        assert p[1..] == Plain(gi, lists[i][1..]);
        SubseqOrders(p, order, h);
        assert false;
      }
      assert Acceptable(gi, lists, h);
    } else {
      var i :| 0 <= i < |lists| && IsInterface(gi, lists[i][0]);
      assert Acceptable(gi, lists, lists[i][0]);
    }
  }

  lemma {:induction false} EarliestHead(lists: seq<seq<Class>>, order: seq<Class>) returns (m: nat)
    requires AllNonEmpty(lists) && lists != []
    requires forall i :: 0 <= i < |lists| ==> lists[i][0] in order
    ensures m < |lists|
    ensures forall i :: 0 <= i < |lists| ==> IndexOf(order, lists[m][0]) <= IndexOf(order, lists[i][0])
  {
    m := 0;
    for k := 1 to |lists|
      invariant m < |lists|
      invariant forall i :: 0 <= i < k ==> IndexOf(order, lists[m][0]) <= IndexOf(order, lists[i][0])
    {
      if IndexOf(order, lists[k][0]) < IndexOf(order, lists[m][0]) {
        m := k;
      }
    }
  }

  lemma {:induction false} StripLinearises(gi: Class, lists: seq<seq<Class>>, order: seq<Class>, c: Class)
    requires AllNonEmpty(lists) && Linearises(gi, order, lists)
    ensures Linearises(gi, order, Strip(lists, c))
  {
    forall t | t in Strip(lists, c) ensures Subseq(Plain(gi, t), order) {
      StripSource(lists, c, t);
      if !(t in lists && t[0] != c) {
        var s := [c] + t;
        assert s[1..] == t;
        if !IsInterface(gi, c) {
          assert Plain(gi, s)[1..] == Plain(gi, t);
          SubseqTail(Plain(gi, s), order);
        }
      }
    }
  }

  lemma {:induction false} LinearisableMerges(gi: Class, lists: seq<seq<Class>>, order: seq<Class>)
    requires AllNonEmpty(lists) && Linearises(gi, order, lists)
    ensures Merge(gi, lists).Some?
    decreases Total(lists)
  {
    if lists != [] {
      HeadAvailable(gi, lists, order);
      var c := Candidate(gi, lists, 0).value;
      StripShrinks(lists, c);
      StripLinearises(gi, lists, order, c);
      LinearisableMerges(gi, Strip(lists, c), order);
    }
  }

  /** The exact success condition of the merge loop; otherwise the source raises TypeError. */
  lemma MergeSucceedsIff(gi: Class, lists: seq<seq<Class>>)
    requires AllNonEmpty(lists)
    ensures Merge(gi, lists).Some? <==> exists order :: Linearises(gi, order, lists)
  {
    if Merge(gi, lists).Some? {
      var r := Merge(gi, lists).value;
      MergePlainOnce(gi, lists);
      forall s | s in lists ensures Subseq(Plain(gi, s), Plain(gi, r)) {
        MergeKeepsLists(gi, lists, s);
        PlainSubseq(gi, s, r);
      }
      assert Linearises(gi, Plain(gi, r), lists);
    }
    if exists order :: Linearises(gi, order, lists) {
      var order :| Linearises(gi, order, lists);
      LinearisableMerges(gi, lists, order);
    }
  }
}
