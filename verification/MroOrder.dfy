/** In which order a class precedence list names the classes of its bases. */
module MroOrder {
  import opened Prelude
  import opened MroCore
  import opened MroMerge
  import opened MroHierarchy
  import opened MroInterfaces

  ghost function Concat(lists: seq<seq<Class>>): seq<Class> {
    if lists == [] then [] else lists[0] + Concat(lists[1..])
  }

  ghost predicate Apart(lists: seq<seq<Class>>) {
    forall i, j, x :: 0 <= i < j < |lists| && x in lists[i] ==> x !in lists[j]
  }

  /** Only interfaces repeat. */
  ghost predicate RepeatsInterfaces(gi: Class, s: seq<Class>) {
    forall x, i, j :: 0 <= i < j < |s| && s[i] == s[j] == x ==> gi in x.bases
  }

  /** Lists to be merged that have nothing in common but `root`, which is empty or an ordinary class that ends each. */
  ghost predicate Mergeable(gi: Class, lists: seq<seq<Class>>, root: seq<Class>) {
    && |root| <= 1 && AllNonEmpty(lists) && Apart(lists)
    && (forall o :: o in root ==> gi !in o.bases && forall i :: 0 <= i < |lists| ==> o !in lists[i])
    && (forall i :: 0 <= i < |lists| ==> RepeatsInterfaces(gi, lists[i]))
  }

  function Heads(lists: seq<seq<Class>>): (r: seq<Class>)
    requires AllNonEmpty(lists)
    ensures |r| == |lists| && forall i :: 0 <= i < |r| ==> r[i] == lists[i][0]
  {
    seq(|lists|, i requires 0 <= i < |lists| => lists[i][0])
  }

  /** `k` lists of which only the root is left. */
  function Roots(root: seq<Class>, k: nat): (r: seq<seq<Class>>)
    ensures root == [] ==> r == []
    ensures root != [] ==> |r| == k && forall i :: 0 <= i < k ==> r[i] == root
  {
    if root == [] then [] else seq(k, i => root)
  }

  function Rooted(lists: seq<seq<Class>>, root: seq<Class>): (r: seq<seq<Class>>)
    ensures |r| == |lists| && forall i :: 0 <= i < |r| ==> r[i] == lists[i] + root
  {
    seq(|lists|, i requires 0 <= i < |lists| => lists[i] + root)
  }

  function Local(bases: seq<Class>): seq<seq<Class>> { if bases == [] then [] else [bases] }

  /** The lists in the middle of such a merge: `k` used up, the others, and the local base order. */
  function Middle(root: seq<Class>, k: nat, lists: seq<seq<Class>>, bases: seq<Class>): seq<seq<Class>> {
    Roots(root, k) + Rooted(lists, root) + Local(bases)
  }

  ghost predicate InMiddle(gi: Class, root: seq<Class>, lists: seq<seq<Class>>, bases: seq<Class>) {
    && Mergeable(gi, lists, root)
    && (bases == Heads(lists) || (lists != [] && bases == Heads(lists)[1..]))
  }

  /** The middle after the head of the first list was taken. */
  function After(k: nat, lists: seq<seq<Class>>): (nat, seq<seq<Class>>)
    requires lists != [] && lists[0] != []
  {
    if |lists[0]| == 1 then (k + 1, lists[1..]) else (k, [lists[0][1..]] + lists[1..])
  }

  /** The merge works through the lists one after the other; the root comes last, once. */
  lemma {:induction false} MergeInOrder(gi: Class, root: seq<Class>, k: nat, lists: seq<seq<Class>>, bases: seq<Class>)
    requires InMiddle(gi, root, lists, bases)
    ensures AllNonEmpty(Middle(root, k, lists, bases))
    ensures Merge(gi, Middle(root, k, lists, bases)) ==
            Some(Concat(lists) + if k + |lists| > 0 then root else [])
    decreases |Concat(lists)|
  {
    hide Merge, Strip, Candidate, InMiddle, Middle, After, Concat, Heads;
    MiddleNonEmpty(gi, root, k, lists, bases);
    if lists == [] {
      MergeRoots(gi, root, k, bases);
    } else {
      FirstTaken(gi, root, k, lists, bases);
      FirstStripped(gi, root, k, lists, bases);
      AfterIs(gi, root, k, lists, bases);
      var (k', lists') := After(k, lists);
      var h, bases' := lists[0][0], Heads(lists)[1..];
      MergeInOrder(gi, root, k', lists', bases');
      MergeStep(gi, Middle(root, k, lists, bases));
      assert [h] + (Concat(lists') + root) == [h] + Concat(lists') + root;
    }
  }

  lemma MiddleNonEmpty(gi: Class, root: seq<Class>, k: nat, lists: seq<seq<Class>>, bases: seq<Class>)
    requires InMiddle(gi, root, lists, bases)
    ensures AllNonEmpty(Middle(root, k, lists, bases))
    ensures AllNonEmpty(lists) && Mergeable(gi, lists, root)
  {
    hide RepeatsInterfaces, Apart;
    var all := Middle(root, k, lists, bases);
    forall i | 0 <= i < |all| ensures all[i] != [] {
      var n := |Roots(root, k)|;
      assert n <= i < n + |lists| ==> all[i] == lists[i - n] + root;
    }
  }

  lemma AfterIs(gi: Class, root: seq<Class>, k: nat, lists: seq<seq<Class>>, bases: seq<Class>)
    requires InMiddle(gi, root, lists, bases) && Mergeable(gi, lists, root) && lists != [] && AllNonEmpty(lists)
    ensures var (k', lists') := After(k, lists);
            && InMiddle(gi, root, lists', Heads(lists)[1..]) && Concat(lists) == [lists[0][0]] + Concat(lists')
            && k + |lists| > 0 && k' + |lists'| > 0
  {
    hide InMiddle, Mergeable, Concat, Heads, After;
    AfterMergeable(gi, root, k, lists);
    AfterConcat(k, lists);
    AfterHeads(k, lists);
    MiddleIs(gi, root, After(k, lists).1, Heads(lists)[1..]);
  }

  lemma MiddleIs(gi: Class, root: seq<Class>, lists: seq<seq<Class>>, bases: seq<Class>)
    requires AllNonEmpty(lists)
    ensures InMiddle(gi, root, lists, bases) <==>
            && Mergeable(gi, lists, root)
            && (bases == Heads(lists) || (lists != [] && bases == Heads(lists)[1..]))
  {
    hide Mergeable, Heads;
  }

  lemma AfterMergeable(gi: Class, root: seq<Class>, k: nat, lists: seq<seq<Class>>)
    requires Mergeable(gi, lists, root) && lists != [] && AllNonEmpty(lists)
    ensures Mergeable(gi, After(k, lists).1, root)
  {
    var lists' := After(k, lists).1;
    var d := |lists| - |lists'|;
    hide RepeatsInterfaces, Apart;
    ApartAfter(lists, k);
    RepeatsLess(gi, lists[0]);
    assert forall i :: 0 < i < |lists'| ==> lists'[i] == lists[i + d];
    assert lists' != [] ==> lists'[0] == if d == 0 then lists[0][1..] else lists[1];
  }

  lemma AfterConcat(k: nat, lists: seq<seq<Class>>)
    requires lists != [] && AllNonEmpty(lists)
    ensures Concat(lists) == [lists[0][0]] + Concat(After(k, lists).1)
    ensures k + |lists| > 0 && After(k, lists).0 + |After(k, lists).1| > 0
  {
    var (k', lists') := After(k, lists);
    var h, s := lists[0][0], lists[0][1..];
    assert lists[0] == [h] + s;
    if s == [] {
      assert [h] + Concat(lists[1..]) == lists[0] + Concat(lists[1..]);
    } else {
      assert lists'[1..] == lists[1..] && lists'[0] == s;
      assert [h] + (s + Concat(lists[1..])) == lists[0] + Concat(lists[1..]);
    }
  }

  lemma AfterHeads(k: nat, lists: seq<seq<Class>>)
    requires lists != [] && AllNonEmpty(lists)
    ensures var lists' := After(k, lists).1;
            && AllNonEmpty(lists')
            && (Heads(lists)[1..] == Heads(lists') || (lists' != [] && Heads(lists)[1..] == Heads(lists')[1..]))
  {
    var lists' := After(k, lists).1;
    if |lists[0]| == 1 {
      assert Heads(lists)[1..] == Heads(lists');
    } else {
      assert lists'[1..] == lists[1..];
      assert Heads(lists)[1..] == Heads(lists')[1..];
    }
  }

  lemma RepeatsLess(gi: Class, s: seq<Class>)
    requires s != [] && RepeatsInterfaces(gi, s)
    ensures RepeatsInterfaces(gi, s[1..])
  {
    var t := s[1..];
    forall x, i, j | 0 <= i < j < |t| && t[i] == t[j] == x ensures gi in x.bases {
      assert s[i + 1] == s[j + 1] == x;
    }
  }

  lemma ApartAfter(lists: seq<seq<Class>>, k: nat)
    requires Apart(lists) && lists != [] && lists[0] != []
    ensures Apart(After(k, lists).1)
  {
    var lists' := After(k, lists).1;
    var d := |lists| - |lists'|;
    forall i, j, x | 0 <= i < j < |lists'| && x in lists'[i] ensures x !in lists'[j] {
      assert x in lists[i + d] && lists'[j] == lists[j + d];
    }
  }

  lemma MergeRoots(gi: Class, root: seq<Class>, k: nat, bases: seq<Class>)
    requires InMiddle(gi, root, [], bases) && AllNonEmpty(Middle(root, k, [], bases))
    ensures Merge(gi, Middle(root, k, [], bases)) == Some(Concat([]) + if k > 0 then root else [])
  {
    hide Merge, Strip, RepeatsInterfaces, Apart;
    assert bases == [] && Concat([]) == [];
    var all := Middle(root, k, [], bases);
    assert all == Roots(root, k);
    MergeNil(gi);
    assert [] + root == root;
    if root != [] && k > 0 {
      RootTaken(gi, root, k);
      MergeStep(gi, all);
      assert [root[0]] + [] == root;
    }
  }

  lemma RootTaken(gi: Class, root: seq<Class>, k: nat)
    requires |root| == 1 && k > 0
    ensures AllNonEmpty(Roots(root, k)) && Candidate(gi, Roots(root, k), 0) == Some(root[0])
    ensures Strip(Roots(root, k), root[0]) == []
  {
    var all := Roots(root, k);
    assert !InSomeTail(all, root[0]);
    TakesFirst(gi, all, 0);
    StripAll(all, root[0]);
  }

  lemma {:induction false} StripAll(lists: seq<seq<Class>>, c: Class)
    requires forall i :: 0 <= i < |lists| ==> lists[i] == [c]
    ensures AllNonEmpty(lists) && Strip(lists, c) == []
  {
    if lists != [] {
      StripAll(lists[1..], c);
    }
  }

  lemma TakesFirst(gi: Class, lists: seq<seq<Class>>, p: nat)
    requires AllNonEmpty(lists) && p < |lists| && Acceptable(gi, lists, lists[p][0])
    requires forall j :: 0 <= j < p ==> !Acceptable(gi, lists, lists[j][0])
    ensures Candidate(gi, lists, 0) == Some(lists[p][0])
  {
    hide Acceptable;
    var r := Candidate(gi, lists, 0);
    assert r.Some?;
    var i := CandidateIsFirst(gi, lists, 0);
    assert i == p;
  }

  lemma {:induction false} StripAppend(a: seq<seq<Class>>, b: seq<seq<Class>>, c: Class)
    requires AllNonEmpty(a) && AllNonEmpty(b)
    ensures AllNonEmpty(a + b) && Strip(a + b, c) == Strip(a, c) + Strip(b, c)
  {
    if a == [] {
      assert a + b == b;
    } else {
      assert (a + b)[0] == a[0] && (a + b)[1..] == a[1..] + b;
      StripAppend(a[1..], b, c);
    }
  }

  lemma {:induction false} StripOthers(lists: seq<seq<Class>>, c: Class)
    requires AllNonEmpty(lists) && forall s :: s in lists ==> s[0] != c
    ensures Strip(lists, c) == lists
  {
    if lists != [] {
      assert lists[0] in lists && [lists[0]] + lists[1..] == lists;
      StripOthers(lists[1..], c);
    }
  }

  /** What the first list has in common with the others: nothing. */
  lemma FirstApart(gi: Class, root: seq<Class>, lists: seq<seq<Class>>, j: nat)
    requires Mergeable(gi, lists, root) && 0 < j < |lists| && lists[0] != []
    ensures lists[0][0] !in lists[j]
  {
    hide RepeatsInterfaces;
    assert lists[0][0] in lists[0];
  }

  lemma FirstTaken(gi: Class, root: seq<Class>, k: nat, lists: seq<seq<Class>>, bases: seq<Class>)
    requires InMiddle(gi, root, lists, bases) && lists != [] && AllNonEmpty(lists)
    requires AllNonEmpty(Middle(root, k, lists, bases))
    ensures Candidate(gi, Middle(root, k, lists, bases), 0) == Some(lists[0][0])
  {
    var all, n, h := Middle(root, k, lists, bases), |Roots(root, k)|, lists[0][0];
    assert all[n] == lists[0] + root && all[n][0] == h;
    forall j | 0 <= j < n ensures !Acceptable(gi, all, all[j][0]) {
      assert all[j] == root && root == [root[0]] && all[n][|all[n]| - 1] == root[0] && root[0] in all[n][1..];
    }
    assert Acceptable(gi, all, h) by {
      HeadAcceptable(gi, root, k, lists, bases);
    }
    hide Acceptable, Mergeable;
    TakesFirst(gi, all, n);
  }

  lemma HeadAcceptable(gi: Class, root: seq<Class>, k: nat, lists: seq<seq<Class>>, bases: seq<Class>)
    requires InMiddle(gi, root, lists, bases) && lists != [] && AllNonEmpty(lists)
    requires AllNonEmpty(Middle(root, k, lists, bases))
    ensures Acceptable(gi, Middle(root, k, lists, bases), lists[0][0])
  {
    hide Mergeable, Middle, InMiddle;
    var all, h := Middle(root, k, lists, bases), lists[0][0];
    if InSomeTail(all, h) {
      var i :| 0 <= i < |all| && all[i] != [] && h in all[i][1..];
      MiddleAt(root, k, lists, bases, i);
      MiddleMergeable(gi, root, lists, bases);
      NotTheRoot(gi, root, lists, 0, h);
      var n := |Roots(root, k)|;
      if i < n {
        RootTail(root, h);
      } else if i < n + |lists| {
        assert all[i][1..] == lists[i - n][1..] + root;
        if i == n {
          Repeats(gi, root, lists);
        } else {
          FirstApart(gi, root, lists, i - n);
        }
      } else {
        NotABase(gi, root, lists, bases);
      }
    }
  }

  lemma MiddleAt(root: seq<Class>, k: nat, lists: seq<seq<Class>>, bases: seq<Class>, i: nat)
    requires i < |Middle(root, k, lists, bases)|
    ensures var n := |Roots(root, k)|;
            Middle(root, k, lists, bases)[i] ==
            if i < n then root else if i < n + |lists| then lists[i - n] + root else bases
    ensures i < |Roots(root, k)| ==> root != []
  {
  }

  lemma MiddleMergeable(gi: Class, root: seq<Class>, lists: seq<seq<Class>>, bases: seq<Class>)
    requires InMiddle(gi, root, lists, bases)
    ensures Mergeable(gi, lists, root)
  {
    hide Mergeable;
  }

  lemma RootTail(root: seq<Class>, x: Class)
    requires x !in root && root != []
    ensures x !in root[1..]
  {
  }

  lemma NotABase(gi: Class, root: seq<Class>, lists: seq<seq<Class>>, bases: seq<Class>)
    requires InMiddle(gi, root, lists, bases) && lists != [] && AllNonEmpty(lists)
    ensures bases != [] ==> lists[0][0] !in bases[1..]
  {
    hide Mergeable;
    var h := lists[0][0];
    if bases != [] && h in bases[1..] {
      var j :| 1 <= j < |bases| && bases[j] == h;
      var m := if bases == Heads(lists) then j else j + 1;
      assert Heads(lists)[m] == h == lists[m][0];
      FirstApart(gi, root, lists, m);
    }
  }

  lemma NotTheRoot(gi: Class, root: seq<Class>, lists: seq<seq<Class>>, i: nat, x: Class)
    requires Mergeable(gi, lists, root) && i < |lists| && x in lists[i]
    ensures x !in root
  {
  }

  lemma Repeats(gi: Class, root: seq<Class>, lists: seq<seq<Class>>)
    requires Mergeable(gi, lists, root) && lists != [] && lists[0] != [] && lists[0][0] in lists[0][1..]
    ensures gi in lists[0][0].bases
  {
    var s := lists[0];
    assert RepeatsInterfaces(gi, s);
    var j :| 0 <= j < |s[1..]| && s[1..][j] == s[0];
    assert s[j + 1] == s[0];
  }

  lemma FirstStripped(gi: Class, root: seq<Class>, k: nat, lists: seq<seq<Class>>, bases: seq<Class>)
    requires InMiddle(gi, root, lists, bases) && lists != [] && AllNonEmpty(lists)
    requires AllNonEmpty(Middle(root, k, lists, bases))
    ensures var (k', lists') := After(k, lists);
            Strip(Middle(root, k, lists, bases), lists[0][0]) == Middle(root, k', lists', Heads(lists)[1..])
  {
    hide Strip, Mergeable, Roots, Local, Heads, After;
    var h, rest := lists[0][0], Rooted(lists, root)[1..];
    var (k', lists') := After(k, lists);
    PartsNonEmpty(gi, root, k, lists, bases);
    StripAppend(Roots(root, k) + Rooted(lists, root), Local(bases), h);
    StripAppend(Roots(root, k), Rooted(lists, root), h);
    assert Rooted(lists, root) == [lists[0] + root] + rest;
    StripAppend([lists[0] + root], rest, h);
    RootsStay(gi, root, k, lists);
    OthersStay(gi, root, lists);
    LocalStripped(gi, root, lists, bases);
    OneStripped(root, k, lists);
    assert Roots(root, k) + (Strip([lists[0] + root], h) + rest)
        == Roots(root, k) + Strip([lists[0] + root], h) + rest;
  }

  lemma PartsNonEmpty(gi: Class, root: seq<Class>, k: nat, lists: seq<seq<Class>>, bases: seq<Class>)
    requires InMiddle(gi, root, lists, bases) && lists != [] && lists[0] != []
    ensures AllNonEmpty(Roots(root, k)) && AllNonEmpty(Rooted(lists, root)) && AllNonEmpty(Local(bases))
    ensures AllNonEmpty(Rooted(lists, root)[1..]) && AllNonEmpty([lists[0] + root]) && |root| <= 1
    ensures AllNonEmpty(lists)
  {
    hide Apart, RepeatsInterfaces;
  }

  lemma RootsStay(gi: Class, root: seq<Class>, k: nat, lists: seq<seq<Class>>)
    requires Mergeable(gi, lists, root) && lists != [] && lists[0] != [] && AllNonEmpty(Roots(root, k))
    ensures Strip(Roots(root, k), lists[0][0]) == Roots(root, k)
  {
    NotTheRoot(gi, root, lists, 0, lists[0][0]);
    hide Strip, Mergeable;
    StripOthers(Roots(root, k), lists[0][0]);
  }

  lemma OthersStay(gi: Class, root: seq<Class>, lists: seq<seq<Class>>)
    requires Mergeable(gi, lists, root) && lists != [] && lists[0] != [] && AllNonEmpty(Rooted(lists, root)[1..])
    requires AllNonEmpty(lists)
    ensures Strip(Rooted(lists, root)[1..], lists[0][0]) == Rooted(lists, root)[1..]
  {
    hide Strip, Mergeable;
    var rest := Rooted(lists, root)[1..];
    forall s | s in rest ensures s[0] != lists[0][0] {
      var j :| 0 <= j < |rest| && rest[j] == s;
      FirstApart(gi, root, lists, j + 1);
      assert s == lists[j + 1] + root && lists[j + 1][0] in lists[j + 1];
    }
    StripOthers(rest, lists[0][0]);
  }

  lemma LocalStripped(gi: Class, root: seq<Class>, lists: seq<seq<Class>>, bases: seq<Class>)
    requires InMiddle(gi, root, lists, bases) && lists != [] && lists[0] != [] && AllNonEmpty(Local(bases))
    requires AllNonEmpty(lists)
    ensures Strip(Local(bases), lists[0][0]) == Local(Heads(lists)[1..])
  {
    var h := lists[0][0];
    if bases != [] {
      assert Local(bases)[1..] == [];
      if bases != Heads(lists) {
        FirstApart(gi, root, lists, 1);
        assert bases[0] == lists[1][0] && lists[1][0] in lists[1];
      }
    }
    hide Mergeable;
  }

  lemma OneStripped(root: seq<Class>, k: nat, lists: seq<seq<Class>>)
    requires lists != [] && lists[0] != [] && AllNonEmpty([lists[0] + root]) && |root| <= 1
    ensures var (k', lists') := After(k, lists);
            Roots(root, k) + Strip([lists[0] + root], lists[0][0]) + Rooted(lists, root)[1..]
            == Roots(root, k') + Rooted(lists', root)
  {
    var s, h := lists[0] + root, lists[0][0];
    var (k', lists') := After(k, lists);
    assert [s][1..] == [] && Strip([s], h) == StripOne(s, h);
    if |lists[0]| == 1 {
      assert Rooted(lists', root) == Rooted(lists, root)[1..];
      assert lists[0] == [h];
      if root == [] {
        assert s == [h];
      } else {
        assert s[1..] == root && Roots(root, k) + [root] == Roots(root, k + 1);
      }
    } else {
      assert s[1..] == lists[0][1..] + root;
      assert Rooted(lists', root) == [s[1..]] + Rooted(lists, root)[1..];
    }
  }

  // ---------------------------------------------------------------- on a hierarchy

  /** When the mros of the bases have nothing in common but, perhaps, one ordinary class that ends each of them, the mro
      of the class is the class, then these mros one after the other in the order of the bases, and the shared class
      last. */
  lemma MroOneAfterTheOther(gi: Class, c: Class, parts: seq<seq<Class>>, root: seq<Class>)
    requires c.bases != [] && |parts| == |c.bases| && |root| <= 1 && AllNonEmpty(parts) && Apart(parts)
    requires forall i :: 0 <= i < |parts| ==> Mro(gi, c.bases[i]) == Some(parts[i] + root)
    requires forall o :: o in root ==> gi !in o.bases && forall i :: 0 <= i < |parts| ==> o !in parts[i]
    ensures Mro(gi, c) == Some([c] + Concat(parts) + root)
  {
    hide Mro, MroAll, Merge, Concat, RepeatsInterfaces, Apart, Middle, InMiddle, Mergeable, Heads, Rooted;
    var rest := Middle(root, 0, parts, c.bases);
    BasesAreHeads(gi, c, parts, root);
    StartsInMiddle(gi, c.bases, parts, root);
    InputIs(gi, c, parts, root);
    MergeInOrder(gi, root, 0, parts, c.bases);
    FreshHead(gi, c, rest);
    assert [c] + (Concat(parts) + root) == [c] + Concat(parts) + root;
  }

  lemma StartsInMiddle(gi: Class, bases: seq<Class>, parts: seq<seq<Class>>, root: seq<Class>)
    requires |root| <= 1 && AllNonEmpty(parts) && Apart(parts) && bases == Heads(parts)
    requires forall o :: o in root ==> gi !in o.bases && forall i :: 0 <= i < |parts| ==> o !in parts[i]
    requires forall i :: 0 <= i < |parts| ==> RepeatsInterfaces(gi, parts[i])
    ensures InMiddle(gi, root, parts, bases)
  {
    hide RepeatsInterfaces, Apart;
  }

  /** What the merge of the class starts with. */
  lemma InputIs(gi: Class, c: Class, parts: seq<seq<Class>>, root: seq<Class>)
    requires c.bases != [] && |parts| == |c.bases|
    requires forall i :: 0 <= i < |parts| ==> Mro(gi, c.bases[i]) == Some(parts[i] + root)
    ensures var rest := Middle(root, 0, parts, c.bases);
            && AllNonEmpty([[c]] + rest) && Mro(gi, c) == Merge(gi, [[c]] + rest) && forall s :: s in rest ==> c !in s
  {
    hide Mro, MroAll, Merge;
    MroAllSome(gi, c.bases);
    var linear, lists := MroInputs(gi, c);
    assert linear == Rooted(parts, root);
    assert Middle(root, 0, parts, c.bases) == linear + Local(c.bases);
    assert lists == [[c]] + (linear + Local(c.bases));
    NotItsOwnBase(gi, c, linear);
  }

  lemma BasesAreHeads(gi: Class, c: Class, parts: seq<seq<Class>>, root: seq<Class>)
    requires |parts| == |c.bases| && AllNonEmpty(parts)
    requires forall i :: 0 <= i < |parts| ==> Mro(gi, c.bases[i]) == Some(parts[i] + root)
    ensures c.bases == Heads(parts) && forall i :: 0 <= i < |parts| ==> RepeatsInterfaces(gi, parts[i])
  {
    hide Mro, RepeatsInterfaces, Plain;
    forall i | 0 <= i < |parts| ensures c.bases[i] == parts[i][0] && RepeatsInterfaces(gi, parts[i]) {
      MroShape(gi, c.bases[i]);
      OnlyInterfacesRepeat(gi, parts[i], root);
    }
  }

  lemma OnlyInterfacesRepeat(gi: Class, s: seq<Class>, t: seq<Class>)
    requires NoDup(Plain(gi, s + t))
    ensures RepeatsInterfaces(gi, s)
  {
    forall x, i, j | 0 <= i < j < |s| && s[i] == s[j] == x ensures gi in x.bases {
      if gi !in x.bases {
        PlainRepeats(gi, s + t, i, j);
      }
    }
  }

  lemma {:induction false} PlainRepeats(gi: Class, s: seq<Class>, i: nat, j: nat)
    requires i < j < |s| && s[i] == s[j] && gi !in s[i].bases
    ensures !NoDup(Plain(gi, s))
  {
    var rest := Plain(gi, s[1..]);
    PlainCons(gi, s);
    hide Plain, NoDup;
    if i > 0 {
      PlainRepeats(gi, s[1..], i - 1, j - 1);
      RepeatsBehind(if gi in s[0].bases then [] else [s[0]], rest);
    } else {
      assert s[j] == s[1..][j - 1] && s[j] in rest;
      RepeatsHead(s[0], rest);
    }
  }

  lemma PlainCons(gi: Class, s: seq<Class>)
    requires s != []
    ensures Plain(gi, s) == (if gi in s[0].bases then [] else [s[0]]) + Plain(gi, s[1..])
  {
  }

  lemma RepeatsBehind(a: seq<Class>, rest: seq<Class>)
    requires !NoDup(rest)
    ensures !NoDup(a + rest)
  {
    var i, j :| 0 <= i < j < |rest| && rest[i] == rest[j];
    assert (a + rest)[|a| + i] == (a + rest)[|a| + j];
  }

  lemma RepeatsHead(x: Class, rest: seq<Class>)
    requires x in rest
    ensures !NoDup([x] + rest)
  {
    var k :| 0 <= k < |rest| && rest[k] == x;
    assert ([x] + rest)[0] == ([x] + rest)[k + 1];
  }

  lemma NotItsOwnBase(gi: Class, c: Class, linear: seq<seq<Class>>)
    requires |linear| == |c.bases| && forall i :: 0 <= i < |linear| ==> Mro(gi, c.bases[i]) == Some(linear[i])
    ensures forall s :: s in linear + Local(c.bases) ==> c !in s
  {
    hide Mro, Ancestor;
    forall i | 0 <= i < |linear| ensures c !in linear[i] && c.bases[i] != c {
      MroElements(gi, c.bases[i]);
      MroReflexive(c.bases[i]);
      if Ancestor(c, c.bases[i]) {
        AncestorIsSmaller(c, c.bases[i]);
      }
    }
  }
}
