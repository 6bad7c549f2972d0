/** What the weakening for interfaces costs: exactly when an interface repeats. */
module MroInterfaces {
  import opened Prelude
  import opened MroCore
  import opened MroMerge
  import opened MroPlain
  import opened MroHierarchy

  /** No round of the merge takes a head that is in some tail, as only an interface may be. */
  ghost predicate NeverWeakens(gi: Class, lists: seq<seq<Class>>)
    requires AllNonEmpty(lists)
    decreases Total(lists)
  {
    lists == [] ||
    match Candidate(gi, lists, 0)
    case None => true
    case Some(c) => !InSomeTail(lists, c) && (StripShrinks(lists, c); NeverWeakens(gi, Strip(lists, c)))
  }

  /** The result is free of duplicates exactly when the weakening is never used. */
  lemma {:induction false} NoDuplicateIff(gi: Class, lists: seq<seq<Class>>)
    requires AllNonEmpty(lists) && Merge(gi, lists).Some?
    ensures NoDup(Merge(gi, lists).value) <==> NeverWeakens(gi, lists)
    decreases Total(lists)
  {
    if lists != [] {
      var c := Candidate(gi, lists, 0).value;
      var rest := Strip(lists, c);
      var r := Merge(gi, lists).value;
      assert r == [c] + Merge(gi, rest).value;
      StripShrinks(lists, c);
      NoDuplicateIff(gi, rest);
      RepeatsIff(gi, lists, c);
      hide Merge, NeverWeakens, InSomeTail, Strip;
      HeadThenRest(c, Merge(gi, rest).value);
      NeverWeakensStep(gi, lists, c);
    }
  }

  lemma HeadThenRest(c: Class, rest: seq<Class>)
    ensures NoDup([c] + rest) <==> c !in rest && NoDup(rest)
  {
    var all := [c] + rest;
    if NoDup(all) {
      forall i | 0 <= i < |rest| ensures c != rest[i] { assert all[i + 1] == rest[i] && all[0] == c; }
      forall i, j | 0 <= i < j < |rest| ensures rest[i] != rest[j]
      { assert all[i + 1] == rest[i] && all[j + 1] == rest[j]; }
    }
  }

  lemma NeverWeakensStep(gi: Class, lists: seq<seq<Class>>, c: Class)
    requires AllNonEmpty(lists) && lists != [] && Candidate(gi, lists, 0) == Some(c)
    ensures NeverWeakens(gi, lists) <==> !InSomeTail(lists, c) && NeverWeakens(gi, Strip(lists, c))
  {
    StripShrinks(lists, c);
    hide InSomeTail, Strip;
  }

  /** The class taken comes back exactly when it was in some tail. */
  lemma RepeatsIff(gi: Class, lists: seq<seq<Class>>, c: Class)
    requires AllNonEmpty(lists) && lists != [] && Merge(gi, lists).Some? && Candidate(gi, lists, 0) == Some(c)
    ensures Merge(gi, Strip(lists, c)).Some?
    ensures c in Merge(gi, Strip(lists, c)).value <==> InSomeTail(lists, c)
  {
    hide Strip;
    var rest := Strip(lists, c);
    var r := Merge(gi, rest).value;
    if InSomeTail(lists, c) {
      var i :| 0 <= i < |lists| && c in lists[i][1..];
      var s := lists[i];
      StripTarget(lists, c, s);
      var t := if s[0] == c then s[1..] else s;
      MergeKeepsLists(gi, rest, t);
      SubseqMember(t, r, c);
    } else {
      StripRemoves(lists, c);
      MergeAddsNothing(gi, rest, c);
    }
  }

  lemma {:induction false} HeadsAgree(gi: Class, lists: seq<seq<Class>>, from: nat)
    requires AllNonEmpty(lists) && from <= |lists|
    requires Candidate(gi, lists, from).Some? && !InSomeTail(lists, Candidate(gi, lists, from).value)
    ensures C3Head(lists, from) == Candidate(gi, lists, from)
    decreases |lists| - from
  {
    if !Acceptable(gi, lists, lists[from][0]) {
      HeadsAgree(gi, lists, from + 1);
    }
  }

  lemma C3HeadIsFree(lists: seq<seq<Class>>, from: nat)
    requires AllNonEmpty(lists) && from <= |lists| && C3Head(lists, from).Some?
    ensures !InSomeTail(lists, C3Head(lists, from).value)
    decreases |lists| - from
  {
  }

  /** And exactly then the merge is plain C3, although interfaces may be about. */
  lemma {:induction false} PlainC3Iff(gi: Class, lists: seq<seq<Class>>)
    requires AllNonEmpty(lists) && Merge(gi, lists).Some?
    ensures C3(lists) == Merge(gi, lists) <==> NeverWeakens(gi, lists)
    decreases Total(lists)
  {
    if lists != [] {
      var c := Candidate(gi, lists, 0).value;
      var rest := Strip(lists, c);
      StripShrinks(lists, c);
      MergeStep(gi, lists);
      hide Merge, Strip, InSomeTail, Candidate;
      NeverWeakensStep(gi, lists, c);
      C3Step(lists);
      hide NeverWeakens, C3, C3Head;
      PlainC3Iff(gi, rest);
      if !InSomeTail(lists, c) {
        HeadsAgree(gi, lists, 0);
        if C3(rest).Some? {
          SameRest(c, C3(rest).value, Merge(gi, rest).value);
        }
      } else if C3Head(lists, 0).Some? {
        C3HeadIsFree(lists, 0);
        SameHead(C3Head(lists, 0).value, c, C3(lists), Merge(gi, rest).value);
      }
    }
  }

  lemma C3Step(lists: seq<seq<Class>>)
    requires AllNonEmpty(lists) && lists != []
    ensures C3Head(lists, 0).None? ==> C3(lists).None?
    ensures C3Head(lists, 0).Some? ==>
              var c := C3Head(lists, 0).value;
              var rest := C3(Strip(lists, c));
              C3(lists) == if rest.None? then None else Some([c] + rest.value)
  {
    hide C3Head, Strip;
  }

  lemma SameRest(c: Class, s: seq<Class>, t: seq<Class>)
    ensures [c] + s == [c] + t <==> s == t
  {
    assert ([c] + s)[1..] == s && ([c] + t)[1..] == t;
  }

  lemma SameHead(x: Class, c: Class, r: Option<seq<Class>>, t: seq<Class>)
    requires r.Some? ==> r.value != [] && r.value[0] == x
    ensures r == Some([c] + t) ==> x == c
  {
  }

  /** On a hierarchy: the mro of `c` names no class twice exactly when its own merge never uses the weakening. */
  lemma MroNoDuplicateIff(gi: Class, c: Class)
    requires Mro(gi, c).Some?
    ensures MroAll(gi, c.bases).Some?
    ensures var lists := MergeInput(c, MroAll(gi, c.bases).value);
            && (NoDup(Mro(gi, c).value) <==> NeverWeakens(gi, lists))
            && (Some(Mro(gi, c).value) == C3(lists) <==> NeverWeakens(gi, lists))
  {
    hide Merge, NeverWeakens, C3, NoDup;
    MroNeedsAll(gi, c);
    var lists := MergeInput(c, MroAll(gi, c.bases).value);
    NoDuplicateIff(gi, lists);
    PlainC3Iff(gi, lists);
  }

  /** A head that is in no other list is taken first, and leaves the other lists as they are. */
  lemma {:induction false} FreshHead(gi: Class, c: Class, rest: seq<seq<Class>>)
    requires AllNonEmpty(rest) && forall s :: s in rest ==> c !in s
    ensures Merge(gi, [[c]] + rest) == match Merge(gi, rest) case None => None case Some(r) => Some([c] + r)
  {
    hide Merge;
    var lists := [[c]] + rest;
    assert lists[1..] == rest;
    assert !InSomeTail(lists, c) by {
      forall i | 0 <= i < |lists| && lists[i] != [] ensures c !in lists[i][1..] {
        assert i > 0 ==> lists[i] == rest[i - 1] && rest[i - 1] in rest;
      }
    }
    StripMisses(rest, c);
    assert Candidate(gi, lists, 0) == Some(c) && Strip(lists, c) == StripOne([c], c) + rest == rest;
    MergeStep(gi, lists);
  }

  lemma {:induction false} StripMisses(lists: seq<seq<Class>>, c: Class)
    requires AllNonEmpty(lists) && forall s :: s in lists ==> c !in s
    ensures Strip(lists, c) == lists
  {
    if lists != [] {
      assert lists[0] in lists && [lists[0]] + lists[1..] == lists;
      StripMisses(lists[1..], c);
    }
  }

  /** Such a hierarchy: below GInterface `g` an interface `i`, a class `a` derived from it, and a class with the bases
      `i` and `a`, in that order. The mro names the interface twice. */
  lemma InterfaceRepeats(g: Class, i: Class, a: Class, c: Class)
    requires g.bases == [] && i.bases == [g] && a.bases == [i] && c.bases == [i, a] && i != a
    ensures Mro(g, c) == Some([c, i, a, i, g])
  {
    hide *;
    BaseMros(g, i, a);
    MroAllTwo(g, i, a, [i, g], [a, i, g]);
    LastClass(g, i, a, c);
  }

  lemma LastClass(g: Class, i: Class, a: Class, c: Class)
    requires g.bases == [] && i.bases == [g] && a.bases == [i] && c.bases == [i, a] && i != a
    requires MroAll(g, c.bases) == Some([[i, g], [a, i, g]])
    ensures Mro(g, c) == Some([c, i, a, i, g])
  {
    hide Merge, MroAll, Strip;
    var rest := [[i, g], [a, i, g], [i, a]];
    assert MergeInput(c, [[i, g], [a, i, g]]) == [[c]] + rest;
    FreshHead(g, c, rest);
    DiamondMerge(g, i, a);
    assert [c] + [i, a, i, g] == [c, i, a, i, g];
  }

  /** The interface is taken although it is in the tail of `a`'s list; GInterface, no interface itself, has to wait. */
  lemma DiamondMerge(g: Class, i: Class, a: Class)
    requires g.bases == [] && i.bases == [g] && a.bases == [i] && i != a
    ensures Merge(g, [[i, g], [a, i, g], [i, a]]) == Some([i, a, i, g])
  {
    hide Merge, Strip, Candidate, InSomeTail;
    DiamondHeads(g, i, a);
    StripThree([i, g], [a, i, g], [i, a], i);
    Round(g, [[i, g], [a, i, g], [i, a]], i, [[g], [a, i, g], [a]]);
    StripThree([g], [a, i, g], [a], a);
    Round(g, [[g], [a, i, g], [a]], a, [[g], [i, g]]);
    StripTwo([g], [i, g], i);
    Round(g, [[g], [i, g]], i, [[g], [g]]);
    MergeTwins(g);
    assert [i] + ([a] + ([i] + [g])) == [i, a, i, g];
  }

  lemma DiamondHeads(g: Class, i: Class, a: Class)
    requires g.bases == [] && i.bases == [g] && a.bases == [i] && i != a
    ensures Candidate(g, [[i, g], [a, i, g], [i, a]], 0) == Some(i)
    ensures Candidate(g, [[g], [a, i, g], [a]], 0) == Some(a) && Candidate(g, [[g], [i, g]], 0) == Some(i)
  {
    assert InSomeTail([[g], [a, i, g], [a]], g) by { assert g in [[g], [a, i, g], [a]][1][1..]; }
    assert InSomeTail([[g], [i, g]], g) by { assert g in [[g], [i, g]][1][1..]; }
  }

  lemma MergeTwins(g: Class)
    ensures Merge(g, [[g], [g]]) == Some([g]) && Merge(g, [[g]]) == Some([g]) && Merge(g, []) == Some([])
  {
    hide Merge, Strip;
    MergeNil(g);
    StripTwo([g], [g], g);
    assert !InSomeTail([[g], [g]], g) && !InSomeTail([[g]], g);
    Round(g, [[g], [g]], g, []);
    StripCons([g], [], g);
    StripMisses([], g);
    assert [[g]] + [] == [[g]];
    Round(g, [[g]], g, []);
    assert [g] + [] == [g];
  }

  /** `[g]`, `[i, g]` and `[a, i, g]`. */
  lemma BaseMros(g: Class, i: Class, a: Class)
    requires g.bases == [] && i.bases == [g] && a.bases == [i] && i != a
    ensures Mro(g, i) == Some([i, g]) && Mro(g, a) == Some([a, i, g])
  {
    hide Merge, Strip, MroAll;
    MergeTwins(g);
    NoBases(g);
    assert MergeInput(g, []) == [[g]];
    OneBase(g, g, [g]);
    assert MergeInput(i, [[g]]) == [[i]] + [[g], [g]];
    FreshHead(g, i, [[g], [g]]);
    assert [i] + [g] == [i, g];
    OneBase(g, i, [i, g]);
    assert MergeInput(a, [[i, g]]) == [[a]] + [[i, g], [i]];
    FreshHead(g, a, [[i, g], [i]]);
    StripTwo([i, g], [i], i);
    Round(g, [[i, g], [i]], i, [[g]]);
    assert [a] + ([i] + [g]) == [a, i, g];
  }

  lemma NoBases(g: Class)
    ensures MroAll(g, []) == Some([])
  {
  }

  lemma OneBase(g: Class, b: Class, r: seq<Class>)
    requires Mro(g, b) == Some(r)
    ensures MroAll(g, [b]) == Some([r])
  {
    hide Mro;
    NoBases(g);
    assert [b][1..] == [] && [r] + [] == [r];
  }

  lemma MroAllTwo(g: Class, b: Class, d: Class, r: seq<Class>, s: seq<Class>)
    requires Mro(g, b) == Some(r) && Mro(g, d) == Some(s)
    ensures MroAll(g, [b, d]) == Some([r, s])
  {
    hide Mro;
    OneBase(g, d, s);
    assert [b, d][1..] == [d] && [r] + [s] == [r, s];
  }

  lemma Round(gi: Class, lists: seq<seq<Class>>, c: Class, left: seq<seq<Class>>)
    requires AllNonEmpty(lists) && AllNonEmpty(left) && Candidate(gi, lists, 0) == Some(c) && Strip(lists, c) == left
    ensures Merge(gi, lists) == match Merge(gi, left) case None => None case Some(rest) => Some([c] + rest)
  {
    MergeStep(gi, lists);
  }

  lemma StripCons(x: seq<Class>, rest: seq<seq<Class>>, c: Class)
    requires x != [] && AllNonEmpty(rest)
    ensures Strip([x] + rest, c) == StripOne(x, c) + Strip(rest, c)
  {
    assert ([x] + rest)[1..] == rest;
  }

  lemma StripTwo(x: seq<Class>, y: seq<Class>, c: Class)
    requires x != [] && y != []
    ensures Strip([x, y], c) == StripOne(x, c) + StripOne(y, c)
  {
    StripCons(y, [], c);
    StripCons(x, [y], c);
    assert [y] + [] == [y] && [x] + [y] == [x, y];
  }

  lemma StripThree(x: seq<Class>, y: seq<Class>, z: seq<Class>, c: Class)
    requires x != [] && y != [] && z != []
    ensures Strip([x, y, z], c) == StripOne(x, c) + StripOne(y, c) + StripOne(z, c)
  {
    StripTwo(y, z, c);
    StripCons(x, [y, z], c);
    assert [x] + [y, z] == [x, y, z];
  }
}
