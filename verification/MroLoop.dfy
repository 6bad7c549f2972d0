/** The in-place loop of `mro` in `gi/types.py`, refining the functions of module MroCore. */
module MroLoop {
  import opened Prelude
  import opened MroCore
  import opened MroHierarchy

  /** A Python list object: shared by reference and consumed in place. */
  class PyList {
    var items: seq<Class>

    constructor (items: seq<Class>)
      ensures this.items == items
    {
      this.items := items;
    }
  }

  ghost function Contents(lists: seq<PyList>): (r: seq<seq<Class>>)
    reads lists
    ensures |r| == |lists| && forall i :: 0 <= i < |lists| ==> r[i] == lists[i].items
  {
    seq(|lists|, i requires 0 <= i < |lists| reads lists => lists[i].items)
  }

  /** Python's `list.remove(x)`: drops the first element equal (by contents) to `x`. */
  method RemoveFirst(lists: seq<PyList>, x: PyList) returns (r: seq<PyList>)
    requires x in lists
    ensures exists k :: 0 <= k < |lists| && lists[k].items == x.items
                        && (forall i :: 0 <= i < k ==> lists[i].items != x.items)
                        && r == lists[..k] + lists[k + 1..]
  {
    var k := 0;
    while lists[k].items != x.items
      invariant 0 <= k < |lists|
      invariant forall i :: 0 <= i < k ==> lists[i].items != x.items
      invariant exists j :: k <= j < |lists| && lists[j] == x
      decreases |lists| - k
    {
      k := k + 1;
    }
    r := lists[..k] + lists[k + 1..];
  }

  lemma {:induction false} StripAppend(a: seq<seq<Class>>, s: seq<Class>, c: Class)
    requires AllNonEmpty(a) && s != []
    ensures AllNonEmpty(a + [s])
    ensures Strip(a + [s], c) == Strip(a, c) + StripOne(s, c)
  {
    if a == [] {
      assert a + [s] == [s];
    } else {
      StripAppend(a[1..], s, c);
      assert (a + [s])[1..] == a[1..] + [s];
      var x, y, z := StripOne(a[0], c), Strip(a[1..], c), StripOne(s, c);
      assert x + (y + z) == (x + y) + z;
    }
  }

  /** `remove` compares by contents, yet drops the very list just emptied: no other is empty. */
  method DropEmptied(left: seq<PyList>, s: PyList, ghost kept: seq<PyList>, ghost rest: seq<PyList>)
    returns (r: seq<PyList>)
    requires left == kept + [s] + rest && s.items == []
    requires forall i :: 0 <= i < |kept| ==> kept[i].items != []
    ensures r == kept + rest
  {
    assert left[|kept|] == s;
    assert forall i :: 0 <= i < |kept| ==> left[i] == kept[i];
    r := RemoveFirst(left, s);
  }

  lemma StripNil(c: Class)
    ensures Strip([], c) == []
  {
  }

  lemma ContentsAppend(a: seq<PyList>, l: PyList)
    ensures Contents(a + [l]) == Contents(a) + [l.items]
  {
  }

  /** The inner loop's body, for one list of the snapshot. */
  method RemoveFromOne(left: seq<PyList>, s: PyList, c: Class, ghost kept: seq<PyList>, ghost rest: seq<PyList>)
    returns (r: seq<PyList>, ghost kept': seq<PyList>)
    requires left == kept + [s] + rest && s.items != [] && s !in kept
    requires forall i :: 0 <= i < |kept| ==> kept[i].items != []
    modifies s
    ensures r == kept' + rest && (kept' == kept || kept' == kept + [s])
    ensures Contents(kept') == old(Contents(kept)) + StripOne(old(s.items), c)
  {
    r, kept' := left, kept + [s];
    if s.items != [] && s.items[0] == c {
      s.items := s.items[1..];
      if s.items == [] {
        r := DropEmptied(left, s, kept, rest);
        kept' := kept;
      }
    }
    assert Contents(kept) == old(Contents(kept));
    ContentsAppend(kept, s);
  }

  ghost predicate AllIn(a: seq<PyList>, frame: set<PyList>) {
    forall i :: 0 <= i < |a| ==> a[i] in frame
  }

  /** Dropping one list object keeps the others distinct and inside the frame. */
  lemma DropOne(kept: seq<PyList>, s: PyList, rest: seq<PyList>, frame: set<PyList>)
    requires NoDup(kept + [s] + rest) && AllIn(kept + [s] + rest, frame)
    ensures s in frame && s !in kept && s !in rest && NoDup(kept + rest) && AllIn(kept + rest, frame)
  {
    var left, right := kept + [s] + rest, kept + rest;
    assert forall i :: 0 <= i < |right| ==> right[i] == left[if i < |kept| then i else i + 1];
    assert left[|kept|] == s;
    forall i | 0 <= i < |kept| ensures kept[i] != s {
      assert left[i] == kept[i];
    }
    forall i | 0 <= i < |rest| ensures rest[i] != s {
      assert left[|kept| + 1 + i] == rest[i];
    }
  }

  /** The inner loop: deletes `c` from the head of every list, walking a snapshot. */
  method RemoveCandidate(lists: seq<PyList>, c: Class, ghost frame: set<PyList>) returns (left: seq<PyList>)
    requires NoDup(lists) && AllIn(lists, frame) && AllNonEmpty(Contents(lists))
    modifies frame
    ensures NoDup(left) && AllIn(left, frame)
    ensures AllNonEmpty(Contents(left))
    ensures Contents(left) == Strip(old(Contents(lists)), c)
  {
    hide Strip, Contents, NoDup, AllIn;
    StripNil(c);
    var snapshot := lists;
    ghost var before := Contents(lists);
    left := lists;
    ghost var kept: seq<PyList> := [];
    for j := 0 to |snapshot|
      invariant left == kept + snapshot[j..]
      invariant NoDup(left) && AllIn(left, frame)
      invariant Contents(snapshot[j..]) == before[j..]
      invariant Contents(kept) == Strip(before[..j], c)
    {
      var s := snapshot[j];
      ghost var rest := snapshot[j + 1..];
      SplitAt(kept, snapshot, j);
      DropOne(kept, s, rest, frame);
      ContentsSplit(snapshot, before, j);
      StripAppend(before[..j], before[j], c);
      assert forall i :: 0 <= i < |kept| ==> Contents(kept)[i] != [];
      label Entry:
      left, kept := RemoveFromOne(left, s, c, kept, rest);
      assert Contents(rest) == old@Entry(Contents(rest));
    }
    assert before[..|snapshot|] == before;
    assert left == kept;
  }

  lemma SplitAt(kept: seq<PyList>, s: seq<PyList>, j: nat)
    requires j < |s|
    ensures kept + s[j..] == kept + [s[j]] + s[j + 1..]
  {
  }

  lemma ContentsSplit(s: seq<PyList>, before: seq<seq<Class>>, j: nat)
    requires j < |s| == |before| && Contents(s[j..]) == before[j..]
    ensures s[j].items == before[j] && Contents(s[j + 1..]) == before[j + 1..]
    ensures before[..j] + [before[j]] == before[..j + 1]
  {
    assert Contents(s[j..])[0] == before[j..][0];
    forall i | j < i < |s| ensures s[i].items == before[i] {
      assert Contents(s[j..])[i - j] == before[j..][i - j];
    }
  }

  /** The search for a head to take; without one there is no candidate. */
  method FindCandidate(gi: Class, lists: seq<PyList>) returns (candidate: Option<Class>)
    requires AllNonEmpty(Contents(lists))
    ensures candidate == Candidate(gi, Contents(lists), 0)
  {
    hide Contents;
    ContentsAre(lists);
    for k := 0 to |lists|
      invariant Candidate(gi, Contents(lists), 0) == Candidate(gi, Contents(lists), k)
    {
      var head := lists[k].items[0];
      var inTail := AnyTailHas(lists, head);
      if !inTail || IsInterface(gi, head) {
        return Some(head);
      }
    }
    candidate := None;
  }

  lemma ContentsAre(lists: seq<PyList>)
    ensures |Contents(lists)| == |lists| && forall i :: 0 <= i < |lists| ==> Contents(lists)[i] == lists[i].items
  {
  }

  /** The outer loop. No list is empty at its head, and the total length strictly decreases. */
  method MergeLoop(gi: Class, initial: seq<PyList>, ghost frame: set<PyList>) returns (r: Option<seq<Class>>)
    requires NoDup(initial) && AllIn(initial, frame) && AllNonEmpty(Contents(initial))
    modifies frame
    ensures r == Merge(gi, old(Contents(initial)))
  {
    hide Merge, Strip, Contents;
    var lists := initial;
    var bases: seq<Class> := [];
    ghost var goal := Merge(gi, Contents(initial));
    assert goal.Some? ==> [] + goal.value == goal.value;
    MergeNil(gi);
    while lists != []
      invariant NoDup(lists) && AllIn(lists, frame)
      invariant AllNonEmpty(Contents(lists))
      invariant match Merge(gi, Contents(lists))
                case None => goal == None
                case Some(rest) => goal == Some(bases + rest)
      decreases Total(Contents(lists))
    {
      var candidate := FindCandidate(gi, lists);
      MergeStep(gi, Contents(lists));
      if candidate == None {
        return None;
      }
      ghost var was := bases;
      bases := bases + [candidate.value];
      lists := RemoveCandidate(lists, candidate.value, frame);
      if Merge(gi, Contents(lists)).Some? {
        var rest := Merge(gi, Contents(lists)).value;
        assert was + ([candidate.value] + rest) == bases + rest;
      }
    }
    assert Contents(lists) == [] && bases + [] == bases;
    return Some(bases);
  }

  method AnyTailHas(lists: seq<PyList>, c: Class) returns (found: bool)
    requires AllNonEmpty(Contents(lists))
    ensures found == InSomeTail(Contents(lists), c)
  {
    for i := 0 to |lists|
      invariant forall j :: 0 <= j < i ==> c !in Contents(lists)[j][1..]
    {
      if c in lists[i].items[1..] {
        assert c in Contents(lists)[i][1..];
        return true;
      }
    }
    return false;
  }

  /** The lists of one merge: the class, each base's mro (a fresh list object each), the local base order. */
  method BaseLists(gi: Class, c: Class) returns (lists: seq<PyList>, failed: bool)
    ensures failed <==> !BasesHaveMro(gi, c)
    ensures !failed ==> fresh(lists) && NoDup(lists)
    ensures !failed ==> MroAll(gi, c.bases).Some? && Contents(lists) == MergeInput(c, MroAll(gi, c.bases).value)
    decreases c, 0
  {
    hide Mro, MroAll;
    var own := new PyList([c]);
    lists := [own];
    ghost var linear: seq<seq<Class>> := [];
    for i := 0 to |c.bases|
      invariant fresh(lists) && NoDup(lists) && |lists| == 1 + i && |linear| == i
      invariant Contents(lists) == [[c]] + linear
      invariant forall k :: 0 <= k < i ==> Mro(gi, c.bases[k]) == Some(linear[k])
    {
      var m := ComputeMro(gi, c.bases[i]);
      if m == None {
        return lists, true;
      }
      var l := new PyList(m.value);
      ContentsAppend(lists, l);
      lists := lists + [l];
      linear := linear + [m.value];
    }
    MroAllSome(gi, c.bases);
    forall i | 0 <= i < |c.bases| ensures MroAll(gi, c.bases).value[i] == linear[i] {
      MroAllAt(gi, c.bases, i);
    }
    assert linear == MroAll(gi, c.bases).value;
    if c.bases != [] {
      var local := new PyList(c.bases);
      ContentsAppend(lists, local);
      lists := lists + [local];
    }
    failed := false;
  }

  /** `mro(C)`; `None` stands for the TypeError the source raises. */
  method ComputeMro(gi: Class, c: Class) returns (r: Option<seq<Class>>)
    ensures r == Mro(gi, c)
    decreases c, 1
  {
    hide Mro, Merge, MroAll;
    var lists, failed := BaseLists(gi, c);
    if failed {
      ghost var i :| 0 <= i < |c.bases| && Mro(gi, c.bases[i]).None?;
      MroPropagates(gi, c, i);
      return None;
    }
    ghost var linear, input := MroInputs(gi, c);
    r := MergeLoop(gi, lists, set l | l in lists);
  }
}
