/** The class precedence list over whole hierarchies. */
module MroHierarchy {
  import opened Prelude
  import opened MroCore
  import opened MroMerge
  import opened MroSuccess

  ghost predicate Ancestor(x: Class, c: Class)
    decreases c
  {
    x == c || exists b :: b in c.bases && Ancestor(x, b)
  }

  ghost function Size(c: Class): nat
    decreases c, 1
  { 1 + SizeAll(c.bases) }

  ghost function SizeAll(cs: seq<Class>): (n: nat)
    ensures forall c :: c in cs ==> Size(c) <= n
    decreases cs, 0
  {
    if cs == [] then 0
    else
      assert forall c :: c in cs ==> c == cs[0] || c in cs[1..];
      Size(cs[0]) + SizeAll(cs[1..])
  }

  lemma {:induction false} AncestorIsSmaller(x: Class, c: Class)
    requires Ancestor(x, c)
    ensures x == c || Size(x) < Size(c)
    decreases c
  {
    if x != c {
      var b :| b in c.bases && Ancestor(x, b);
      AncestorIsSmaller(x, b);
    }
  }

  ghost predicate BasesHaveMro(gi: Class, c: Class) {
    forall i :: 0 <= i < |c.bases| ==> Mro(gi, c.bases[i]).Some?
  }

  /** `c` and the lists its merge consumes. */
  lemma MroInputs(gi: Class, c: Class) returns (linear: seq<seq<Class>>, lists: seq<seq<Class>>)
    requires MroAll(gi, c.bases).Some?
    ensures linear == MroAll(gi, c.bases).value
    ensures |linear| == |c.bases| && forall i :: 0 <= i < |linear| ==> Mro(gi, c.bases[i]) == Some(linear[i])
    ensures lists == MergeInput(c, linear) && AllNonEmpty(lists)
    ensures Mro(gi, c) == Merge(gi, lists)
  {
    linear := MroAll(gi, c.bases).value;
    lists := MergeInput(c, linear);
    forall i | 0 <= i < |linear| ensures Mro(gi, c.bases[i]) == Some(linear[i]) {
      MroAllAt(gi, c.bases, i);
    }
  }

  /** An error in any base's mro propagates. */
  lemma MroPropagates(gi: Class, c: Class, i: nat)
    requires i < |c.bases| && Mro(gi, c.bases[i]).None?
    ensures Mro(gi, c).None?
  {
    if MroAll(gi, c.bases).Some? {
      MroAllAt(gi, c.bases, i);
    }
  }

  lemma MroReflexive(x: Class)
    ensures Ancestor(x, x)
  {
  }

  lemma {:induction false} MroOnlyAncestors(gi: Class, c: Class, x: Class)
    requires Mro(gi, c).Some? && x in Mro(gi, c).value
    ensures Ancestor(x, c)
    decreases c
  {
    var linear, lists := MroInputs(gi, c);
    MergeAddsNothing(gi, lists, x);
    var k :| 0 <= k < |lists| && x in lists[k];
    if 0 < k <= |linear| {
      MroOnlyAncestors(gi, c.bases[k - 1], x);
    } else if k > 0 {
      MroReflexive(x);
    }
  }

  lemma MroNeedsAll(gi: Class, c: Class)
    ensures Mro(gi, c).Some? ==> MroAll(gi, c.bases).Some?
  {
    hide MroAll, Merge;
  }

  lemma {:induction false} MroAllAncestors(gi: Class, c: Class, x: Class)
    requires Mro(gi, c).Some? && Ancestor(x, c)
    ensures x in Mro(gi, c).value
    decreases c
  {
    hide Mro, MroAll, Merge, Subseq;
    MroNeedsAll(gi, c);
    var linear, lists := MroInputs(gi, c);
    var r := Merge(gi, lists).value;
    var s: seq<Class>;
    if x == c {
      s := lists[0];
    } else {
      var b :| b in c.bases && Ancestor(x, b);
      var i :| 0 <= i < |c.bases| && c.bases[i] == b;
      MroAllAncestors(gi, b, x);
      s := lists[1 + i];
    }
    MergeKeepsLists(gi, lists, s);
    SubseqMember(s, r, x);
  }

  /** The elements of a computed mro are exactly the reflexive-transitive ancestors. */
  lemma MroElements(gi: Class, c: Class)
    requires Mro(gi, c).Some?
    ensures forall x :: x in Mro(gi, c).value <==> Ancestor(x, c)
  {
    forall x ensures x in Mro(gi, c).value <==> Ancestor(x, c) {
      if x in Mro(gi, c).value { MroOnlyAncestors(gi, c, x); }
      if Ancestor(x, c) { MroAllAncestors(gi, c, x); }
    }
  }

  lemma ClassInNoTail(gi: Class, c: Class, linear: seq<seq<Class>>)
    requires |linear| == |c.bases| && forall i :: 0 <= i < |linear| ==> Mro(gi, c.bases[i]) == Some(linear[i])
    ensures !InSomeTail(MergeInput(c, linear), c)
  {
    var lists := MergeInput(c, linear);
    forall i | 0 <= i < |lists| && lists[i] != [] ensures c !in lists[i][1..] {
      if 1 <= i <= |linear| {
        var b := c.bases[i - 1];
        MroElements(gi, b);
        if Ancestor(c, b) {
          AncestorIsSmaller(c, b);
        }
      }
    }
  }

  /** A computed mro starts with the class, keeps every base's mro and the local base order
      as subsequences, and lists every class that is not an interface once. */
  lemma MroShape(gi: Class, c: Class)
    requires Mro(gi, c).Some?
    ensures var r := Mro(gi, c).value;
            && r[0] == c
            && NoDup(Plain(gi, r))
            && Subseq(c.bases, r)
            && forall i :: 0 <= i < |c.bases| ==> Mro(gi, c.bases[i]).Some? && Subseq(Mro(gi, c.bases[i]).value, r)
  {
    var linear, lists := MroInputs(gi, c);
    var r := Merge(gi, lists).value;
    ClassInNoTail(gi, c, linear);
    assert lists[0] == [c] && Acceptable(gi, lists, lists[0][0]);
    MergePlainOnce(gi, lists);
    if c.bases != [] {
      assert lists[|lists| - 1] == c.bases;
      MergeKeepsLists(gi, lists, c.bases);
    }
    forall i | 0 <= i < |c.bases| ensures Mro(gi, c.bases[i]).Some? && Subseq(Mro(gi, c.bases[i]).value, r) {
      assert lists[1 + i] == linear[i];
      MergeKeepsLists(gi, lists, linear[i]);
    }
  }

  /** `mro(C)` returns exactly when it returns for every base and the lists admit a linear order. */
  lemma MroSucceedsIff(gi: Class, c: Class)
    ensures Mro(gi, c).Some? <==>
            && BasesHaveMro(gi, c)
            && MroAll(gi, c.bases).Some?
            && exists order :: Linearises(gi, order, MergeInput(c, MroAll(gi, c.bases).value))
  {
    if BasesHaveMro(gi, c) {
      MroAllSome(gi, c.bases);
    }
    if MroAll(gi, c.bases).Some? {
      var linear, lists := MroInputs(gi, c);
      MergeSucceedsIff(gi, lists);
    }
  }
}
