/** What callers may rely on about a generated cache. */
module CacheFacts {
  import opened Prelude
  import opened Signature
  import opened CacheTable
  import opened CacheProof
  import opened CallableCacheObject

  /** The table of a fully generated cache. */
  ghost predicate Generated(sig: Callable, t: Table) {
    sig.WellFormed() && Inv(sig, sig.Slots(), sig.Slots(), t)
  }

  /** Slot `i` takes a Python argument. */
  ghost predicate TakesPy(sig: Callable, i: int) {
    0 <= i < sig.Slots() && Visible(sig, sig.Slots(), i)
  }

  lemma SlotAt(sig: Callable, t: Table, i: nat) returns (c: ArgCache)
    requires Generated(sig, t) && i < sig.Slots()
    ensures t.slots[i] == Some(c) && SlotOk(sig, sig.Slots(), sig.Slots(), i, Some(c))
  {
    assert SlotOk(sig, sig.Slots(), sig.Slots(), i, t.slots[i]);
    c := t.slots[i].value;
  }

  lemma {:induction false} CountHits(p: int -> bool, m: nat, x: nat) returns (i: nat)
    requires x < Count(p, m)
    ensures i < m && p(i) && Count(p, i) == x
  {
    if p(m - 1) && Count(p, m - 1) == x {
      i := m - 1;
    } else {
      i := CountHits(p, m - 1, x);
    }
  }

  /** The meta types decide who takes a Python argument: parents and children with one. */
  lemma TakesPyByMeta(sig: Callable, t: Table, i: nat)
    requires Generated(sig, t) && i < sig.Slots()
    ensures t.slots[i].Some? && var c := t.slots[i].value;
            TakesPy(sig, i) <==> c.dir.Enters() && (c.meta == Parent || c.meta == ChildWithPyArg)
  {
    var c := SlotAt(sig, t, i);
    if sig.ChildOf(sig.Slots(), i) {
      ChildFacts(sig, sig.Slots(), i);
    }
  }

  /** Some slot has Python index `x`. */
  ghost predicate HasPyIndex(sig: Callable, t: Table, x: int) {
    exists i :: TakesPy(sig, i) && i < |t.slots| && t.slots[i].Some? && t.slots[i].value.pyIndex == x
  }

  /** `py_arg_index` is a strictly increasing bijection from the slots taking a Python argument onto 0..n_py_args-1. */
  lemma PyIndexBijection(sig: Callable, t: Table)
    requires Generated(sig, t)
    ensures forall i :: 0 <= i < sig.Slots() ==> t.slots[i].Some?
    ensures forall i :: TakesPy(sig, i) ==> 0 <= t.slots[i].value.pyIndex < t.nPy
    ensures forall i, j :: TakesPy(sig, i) && TakesPy(sig, j) && i < j ==>
              t.slots[i].value.pyIndex < t.slots[j].value.pyIndex
    ensures forall x :: 0 <= x < t.nPy ==> HasPyIndex(sig, t, x)
  {
    var n := sig.Slots();
    forall i | 0 <= i < n
      ensures t.slots[i].Some?
      ensures TakesPy(sig, i) ==> t.slots[i].value.pyIndex == Count(Vis(sig, n), i)
    {
      var c := SlotAt(sig, t, i);
    }
    forall i | TakesPy(sig, i) ensures 0 <= t.slots[i].value.pyIndex < t.nPy {
      CountMonotone(Vis(sig, n), i, n);
    }
    forall i, j | TakesPy(sig, i) && TakesPy(sig, j) && i < j
      ensures t.slots[i].value.pyIndex < t.slots[j].value.pyIndex {
      CountMonotone(Vis(sig, n), i, j);
    }
    forall x | 0 <= x < t.nPy ensures HasPyIndex(sig, t, x) {
      var i := CountHits(Vis(sig, n), n, x);
      assert TakesPy(sig, i);
    }
  }

  lemma NamedIffTakesPy(sig: Callable, t: Table, i: nat)
    requires Generated(sig, t) && i < sig.Slots()
    ensures t.slots[i].Some? && Named(t.slots[i].value) == TakesPy(sig, i)
    ensures t.slots[i].value.name == NameAt(sig, i)
  {
    var c := SlotAt(sig, t, i);
    TakesPyByMeta(sig, t, i);
  }

  /** Argument `g` has its name exactly when no array or callback before it filled its slot. */
  lemma ArgumentName(sig: Callable, g: nat)
    requires g < |sig.args|
    ensures var s := g + if sig.ftype in {Method, VFunc} then 1 else 0;
            NameAt(sig, s) ==
            if forall a :: -1 <= a < s ==> s != sig.LenAt(a) && s != sig.UserAt(a) && s != sig.DestroyAt(a)
              then Some(sig.args[g].name) else None
  {
    var s := g + if sig.ftype in {Method, VFunc} then 1 else 0;
    ArgumentSlots(sig, g);
    if sig.LenOf(s, s) { var _ := LenOwner(sig, s, s); }
    if sig.UserOf(s, s) { var _ := UserOwner(sig, s, s); }
    if sig.DestroyOf(s, s) { var _ := DestroyOwner(sig, s, s); }
    forall a | -1 <= a < s && (s == sig.LenAt(a) || s == sig.UserAt(a) || s == sig.DestroyAt(a))
      ensures sig.ChildOf(s, s)
    {
      hide Callable.LenAt, Callable.UserAt, Callable.DestroyAt;
      ReturnHasNoCallback(sig);
      assert s == sig.LenAt(a) ==> sig.LenOf(a + 1, s);
      assert a >= 0 && s == sig.UserAt(a) ==> sig.UserOf(a + 1, s);
      assert a >= 0 && s == sig.DestroyAt(a) ==> sig.DestroyOf(a + 1, s);
      OfMonotone(sig, a + 1, s, s);
    }
  }

  lemma ReturnHasNoCallback(sig: Callable)
    ensures sig.UserAt(-1) == sig.DestroyAt(-1) == -1
  {
  }

  /** The names below `m`: the slot with Python index `x` supplies entry `x`. */
  lemma {:induction false} NameListIs(sig: Callable, t: Table, m: nat, i: nat)
    requires Generated(sig, t) && m <= sig.Slots() && forall j :: 0 <= j < sig.Slots() ==> t.slots[j].Some?
    ensures |NameList(t.slots, m)| == Count(Vis(sig, sig.Slots()), m)
    ensures i < m && TakesPy(sig, i) ==>
              && Count(Vis(sig, sig.Slots()), i) < |NameList(t.slots, m)|
              && NameList(t.slots, m)[Count(Vis(sig, sig.Slots()), i)] == NameAt(sig, i)
  {
    hide Inv, Callable.WellFormed;
    if m > 0 {
      NameListIs(sig, t, m - 1, i);
      NamedIffTakesPy(sig, t, m - 1);
      if i < m {
        CountMonotone(Vis(sig, sig.Slots()), i, m - 1);
      }
    }
  }

  /** One keyword name per Python argument, and the name at a Python index belongs to the slot with that index. */
  lemma NamesFollowIndices(sig: Callable, t: Table)
    requires Generated(sig, t) && forall i :: 0 <= i < sig.Slots() ==> t.slots[i].Some?
    ensures var names := NameList(t.slots, |t.slots|);
            && |names| == t.nPy
            && (forall i: nat :: TakesPy(sig, i) ==>
                  && 0 <= t.slots[i].value.pyIndex < |names|
                  && names[t.slots[i].value.pyIndex] == NameAt(sig, i))
  {
    NameListIs(sig, t, sig.Slots(), 0);
    forall i: nat | TakesPy(sig, i)
      ensures 0 <= t.slots[i].value.pyIndex < |NameList(t.slots, |t.slots|)|
      ensures NameList(t.slots, |t.slots|)[t.slots[i].value.pyIndex] == NameAt(sig, i)
    {
      var c := SlotAt(sig, t, i);
      NameListIs(sig, t, sig.Slots(), i);
    }
  }

  lemma {:induction false} ShownAndHidden(sig: Callable, k: nat, m: nat)
    ensures |Filter(ShownOut(sig, k), m)| == Count(Leaving(sig), m) - Count(HiddenOut(sig, k), m)
  {
    if m > 0 {
      ShownAndHidden(sig, k, m - 1);
    }
  }

  lemma {:induction false} FilterAscends(p: int -> bool, m: nat)
    ensures forall i, j :: 0 <= i < j < |Filter(p, m)| ==> Filter(p, m)[i] < Filter(p, m)[j]
  {
    if m > 0 {
      FilterAscends(p, m - 1);
      var rest := Filter(p, m - 1);
      forall i | 0 <= i < |rest| ensures rest[i] < m - 1 {
        assert rest[i] in rest;
      }
    }
  }

  /** `to_py_args` is the list of out slots that are nobody's length, in declaration order,
      and its length is what the result builder computes from the counters. */
  lemma OutListMatchesCounters(sig: Callable, t: Table)
    requires Generated(sig, t)
    ensures |t.toPy| == t.nTo - t.nToChild
    ensures forall i, j :: 0 <= i < j < |t.toPy| ==> t.toPy[i] < t.toPy[j]
    ensures forall i :: i in t.toPy <==> 0 <= i < sig.Slots() && sig.Dir(i).Leaves() && !sig.LenOf(sig.Slots(), i)
  {
    ShownAndHidden(sig, sig.Slots(), sig.Slots());
    FilterAscends(ShownOut(sig, sig.Slots()), sig.Slots());
  }

  /** No out-only argument precedes slot `i`. */
  ghost predicate AllEnterBelow(sig: Callable, i: nat) {
    forall j :: 0 <= j < i ==> sig.Dir(j).Enters()
  }

  lemma {:induction false} CellIsPosition(sig: Callable, i: nat)
    ensures Count(Entering(sig), i) <= i
    ensures Count(Entering(sig), i) == i <==> AllEnterBelow(sig, i)
  {
    if i > 0 {
      CellIsPosition(sig, i - 1);
    }
  }

  /** The in-argument cell recorded for an entering child is the one its position implies exactly when
      the child follows its owner or no out-only argument precedes it. */
  lemma ChildCellAgrees(sig: Callable, t: Table, i: nat)
    requires Generated(sig, t) && i < sig.Slots() && sig.ChildOf(sig.Slots(), i) && sig.Dir(i).Enters()
    ensures t.slots[i].Some?
    ensures t.slots[i].value.cIndex == Count(Entering(sig), i) <==> sig.ChildOf(i, i) || AllEnterBelow(sig, i)
  {
    var c := SlotAt(sig, t, i);
    ChildFacts(sig, sig.Slots(), i);
    CellIsPosition(sig, i);
    hide Inv, Callable.WellFormed, Callable.ChildOf, AllEnterBelow, Count;
  }

  // ---------------------------------------------------------------- where the recorded cell is wrong

  /** An out-only argument, then a length, then its array. */
  function LateArray(): Callable {
    Callable(Function, Scalar, [ArgInfo("found", Out, Scalar, -1, -1), ArgInfo("n", In, Scalar, -1, -1),
                                ArgInfo("items", In, Array(1, Scalar), -1, -1)])
  }

  lemma LateArrayChildren()
    ensures var sig := LateArray();
            && sig.Slots() == 3 && sig.LenAt(-1) == sig.LenAt(0) == sig.LenAt(1) == -1 && sig.LenAt(2) == 1
            && (forall i :: 0 <= i < 3 ==> sig.UserAt(i) == sig.DestroyAt(i) == -1 && !sig.SelfClosure(i))
            && sig.Dir(0) == ToPython && sig.Dir(1) == FromPython && sig.Dir(2) == FromPython
            && sig.Type(0).Scalar? && sig.Type(1).Scalar? && sig.Type(2).Array? && sig.Offset() == 0
            && (forall i :: -1 <= i < 3 ==> sig.Type(i).Cached(sig.Dir(i)) && !sig.Type(i).HoldsCallbacks())
  {
  }

  lemma LateArrayIsWellFormed()
    ensures LateArray().WellFormed()
  {
    var sig := LateArray();
    LateArrayChildren();
    assert sig.MayBeChild(1);
    hide Callable.LenAt, Callable.UserAt, Callable.DestroyAt, Callable.Dir, Callable.Type, Callable.MayBeChild;
    hide LateArray, Callable.SelfClosure, ArgType.Cached, ArgType.HoldsCallbacks;
  }

  /** A well-formed signature for which the length's recorded cell is 1, although the invoker reaches it at cell 0. */
  lemma RecordedCellCanBeWrong()
    ensures LateArray().WellFormed() && Run(LateArray(), 3).Some? && Generated(LateArray(), Run(LateArray(), 3).value)
    ensures var o := Run(LateArray(), 3).value.slots[1];
            o.Some? && o.value.cIndex == 1 && Count(Entering(LateArray()), 1) == 0
  {
    var sig := LateArray();
    LateArrayIsWellFormed();
    LateArrayChildren();
    LateArrayRoles();
    RunInv(sig, 3);
    var c := SlotAt(sig, Run(sig, 3).value, 1);
  }

  lemma LateArrayRoles()
    ensures var sig := LateArray();
            && sig.ChildOf(3, 1) && !sig.ChildOf(1, 1) && sig.Dir(1).Enters() && !AllEnterBelow(sig, 1)
            && Count(Entering(sig), 1) == 0 && CIndexAt(sig, 1) == 1 && forall i :: -1 <= i < 3 ==> !Refused(sig, i)
  {
    assert !LateArray().Dir(0).Enters();
  }
}
