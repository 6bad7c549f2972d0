/** What the generated argument table is, in terms of the signature alone. */
module CacheProof {
  import opened Prelude
  import opened Signature
  import opened CacheTable

  /** Slot `i` takes a Python argument once the slots below `k` were processed. */
  ghost predicate Visible(sig: Callable, k: nat, i: int) {
    sig.Dir(i).Enters() && !sig.SelfClosure(i) && !sig.LenOf(k, i) && !sig.DestroyOf(k, i)
  }

  ghost function Vis(sig: Callable, k: nat): int -> bool { i => Visible(sig, k, i) }
  ghost function Entering(sig: Callable): int -> bool { i => sig.Dir(i).Enters() }
  ghost function Leaving(sig: Callable): int -> bool { i => sig.Dir(i).Leaves() }
  ghost function HiddenOut(sig: Callable, k: nat): int -> bool { i => sig.Dir(i).Leaves() && sig.LenOf(k, i) }
  ghost function ShownOut(sig: Callable, k: nat): int -> bool { i => sig.Dir(i).Leaves() && !sig.LenOf(k, i) }

  ghost function MetaAt(sig: Callable, k: nat, i: int): MetaType {
    if sig.SelfClosure(i) then Closure
    else if sig.LenOf(k, i) || sig.DestroyOf(k, i) || sig.Type(i).GError? then Child
    else if sig.UserOf(k, i) then ChildWithPyArg
    else Parent
  }

  /** A child reached after its owner records its in-argument slot; every other slot its own position. */
  ghost function CIndexAt(sig: Callable, i: nat): int {
    if sig.SelfClosure(i) then i - sig.Offset()
    else if !sig.ChildOf(i, i) then i
    else if sig.Dir(i).Enters() then Count(Entering(sig), i)
    else 0
  }

  ghost function NameAt(sig: Callable, i: nat): Option<string> {
    if i < sig.Offset() || i >= sig.Slots() || sig.ChildOf(i, i) then None else Some(sig.args[i - sig.Offset()].name)
  }

  /** Slot `i` when the slots below `k` are filled and the children of those below `r` are known. */
  ghost predicate SlotOk(sig: Callable, r: nat, k: nat, i: nat, o: Option<ArgCache>) {
    if i < k then
      o.Some? && var c := o.value;
      && c.meta == MetaAt(sig, r, i) && c.dir == sig.Dir(i)
      && c.cIndex == CIndexAt(sig, i) && c.name == NameAt(sig, i)
      && (Visible(sig, r, i) ==> c.pyIndex == Count(Vis(sig, r), i))
      && c.marshals == (sig.Dir(i).Enters() && MetaAt(sig, r, i) == Parent)
    else if sig.ChildOf(r, i) then
      o.Some? && o.value == BLANK.(meta := MetaAt(sig, r, i), dir := sig.Dir(i))
    else o.None?
  }

  ghost predicate SlotsOk(sig: Callable, r: nat, k: nat, slots: seq<Option<ArgCache>>) {
    |slots| == sig.Slots() && forall i :: 0 <= i < |slots| ==> SlotOk(sig, r, k, i, slots[i])
  }

  ghost predicate CountsOk(sig: Callable, r: nat, k: nat, t: Table) {
    && t.nPy == Count(Vis(sig, r), k)
    && t.nFrom == Count(Entering(sig), k)
    && t.nTo == Count(Leaving(sig), k)
    && t.nToChild == Count(HiddenOut(sig, r), k)
    && t.toPy == Filter(ShownOut(sig, r), k)
  }

  /** The table after the slots below `k` were filled and the children of those below `r` hidden. */
  ghost predicate Inv(sig: Callable, r: nat, k: nat, t: Table) {
    k <= r <= k + 1 && k <= sig.Slots() && SlotsOk(sig, r, k, t.slots) && CountsOk(sig, r, k, t)
  }

  // ---------------------------------------------------------------- owners of a child

  lemma {:induction false} LenOwner(sig: Callable, k: nat, i: int) returns (a: int)
    requires sig.LenOf(k, i)
    ensures -1 <= a < k && sig.LenAt(a) == i
  {
    if k == 0 { a := -1; }
    else if sig.LenAt(k - 1) == i { a := k - 1; }
    else { a := LenOwner(sig, k - 1, i); }
  }

  lemma {:induction false} UserOwner(sig: Callable, k: nat, i: int) returns (a: int)
    requires sig.UserOf(k, i)
    ensures 0 <= a < k && sig.UserAt(a) == i
  {
    if sig.UserAt(k - 1) == i { a := k - 1; }
    else { a := UserOwner(sig, k - 1, i); }
  }

  lemma {:induction false} DestroyOwner(sig: Callable, k: nat, i: int) returns (a: int)
    requires sig.DestroyOf(k, i)
    ensures 0 <= a < k && sig.DestroyAt(a) == i
  {
    if sig.DestroyAt(k - 1) == i { a := k - 1; }
    else { a := DestroyOwner(sig, k - 1, i); }
  }

  /** A child has exactly one role, no children, and the direction its owner gives it. */
  lemma ChildFacts(sig: Callable, k: nat, i: int)
    requires sig.WellFormed() && k <= sig.Slots() && sig.ChildOf(k, i)
    ensures sig.MayBeChild(i)
    ensures sig.LenOf(k, i) ==> !sig.UserOf(sig.Slots(), i) && !sig.DestroyOf(sig.Slots(), i) && sig.Type(i).Scalar?
    ensures sig.UserOf(k, i) ==>
              !sig.LenOf(sig.Slots(), i) && !sig.DestroyOf(sig.Slots(), i) && sig.Dir(i) == FromPython
    ensures sig.DestroyOf(k, i) ==>
              !sig.LenOf(sig.Slots(), i) && !sig.UserOf(sig.Slots(), i) && sig.Dir(i) == FromPython
  {
    var n := sig.Slots();
    if sig.LenOf(k, i) { var _ := LenOwner(sig, k, i); }
    if sig.UserOf(k, i) { var _ := UserOwner(sig, k, i); }
    if sig.DestroyOf(k, i) { var _ := DestroyOwner(sig, k, i); }
    if sig.LenOf(n, i) { var _ := LenOwner(sig, n, i); }
    if sig.UserOf(n, i) { var _ := UserOwner(sig, n, i); }
    if sig.DestroyOf(n, i) { var _ := DestroyOwner(sig, n, i); }
  }

  lemma {:induction false} OfMonotone(sig: Callable, k: nat, n: nat, i: int)
    requires k <= n
    ensures sig.LenOf(k, i) ==> sig.LenOf(n, i)
    ensures sig.UserOf(k, i) ==> sig.UserOf(n, i)
    ensures sig.DestroyOf(k, i) ==> sig.DestroyOf(n, i)
    decreases n
  {
    if k < n {
      OfMonotone(sig, k, n - 1, i);
    }
  }

  // ---------------------------------------------------------------- filling one slot

  lemma FillSlot(sig: Callable, k: nat, t: Table, c: ArgCache, t': Table)
    requires k < sig.Slots() && Inv(sig, k + 1, k, t)
    requires SlotOk(sig, k + 1, k + 1, k, Some(c)) && t'.slots == t.slots[k := Some(c)]
    requires t'.nPy == t.nPy + if Visible(sig, k + 1, k) then 1 else 0
    requires t'.nFrom == t.nFrom + if sig.Dir(k).Enters() then 1 else 0
    requires t'.nTo == t.nTo + if sig.Dir(k).Leaves() then 1 else 0
    requires t'.nToChild == t.nToChild + if HiddenOut(sig, k + 1)(k) then 1 else 0
    requires t'.toPy == t.toPy + if ShownOut(sig, k + 1)(k) then [k] else []
    ensures Inv(sig, k + 1, k + 1, t')
  {
    forall i | 0 <= i < |t'.slots| ensures SlotOk(sig, k + 1, k + 1, i, t'.slots[i]) {
      assert SlotOk(sig, k + 1, k, i, t.slots[i]);
    }
  }

  ghost predicate SameRole(sig: Callable, k: nat, i: int) {
    sig.LenOf(k + 1, i) == sig.LenOf(k, i) && sig.UserOf(k + 1, i) == sig.UserOf(k, i)
    && sig.DestroyOf(k + 1, i) == sig.DestroyOf(k, i)
  }

  /** A slot without children changes nobody's role. */
  lemma NoRoles(sig: Callable, k: nat, t: Table)
    requires sig.LenAt(k) == sig.UserAt(k) == sig.DestroyAt(k) == -1
    requires Inv(sig, k, k, t)
    ensures Inv(sig, k + 1, k, t)
  {
    assert forall i :: SameRole(sig, k, i);
    SameCounts(sig, k, k);
    forall i | 0 <= i < |t.slots| ensures SlotOk(sig, k + 1, k, i, t.slots[i]) {
      assert SlotOk(sig, k, k, i, t.slots[i]);
      SameCounts(sig, k, i);
    }
  }

  /** When no slot below `m` changes its role between `k` and `k + 1`, the counts below `m` agree. */
  lemma SameCounts(sig: Callable, k: nat, m: nat)
    requires forall i :: 0 <= i < m ==> SameRole(sig, k, i)
    ensures Count(Vis(sig, k + 1), m) == Count(Vis(sig, k), m)
    ensures Count(HiddenOut(sig, k + 1), m) == Count(HiddenOut(sig, k), m)
    ensures Filter(ShownOut(sig, k + 1), m) == Filter(ShownOut(sig, k), m)
  {
    forall i | 0 <= i < m
      ensures Vis(sig, k)(i) == Vis(sig, k + 1)(i) && HiddenOut(sig, k)(i) == HiddenOut(sig, k + 1)(i)
              && ShownOut(sig, k)(i) == ShownOut(sig, k + 1)(i)
    {
      assert SameRole(sig, k, i);
    }
    CountSame(Vis(sig, k), Vis(sig, k + 1), m);
    CountSame(HiddenOut(sig, k), HiddenOut(sig, k + 1), m);
    CountSame(ShownOut(sig, k), ShownOut(sig, k + 1), m);
  }

  lemma CallbackFacts(sig: Callable, k: nat)
    requires sig.WellFormed() && k < sig.Slots()
    ensures sig.UserAt(k) == -1 || k < sig.UserAt(k) < sig.Slots()
    ensures sig.DestroyAt(k) == -1 || k < sig.DestroyAt(k) < sig.Slots()
    ensures sig.UserAt(k) != -1 ==> sig.UserAt(k) != sig.DestroyAt(k)
  {
  }

  lemma CallbackChild(sig: Callable, k: nat, i: nat)
    requires sig.WellFormed() && k < sig.Slots() && (sig.UserAt(k) == i || sig.DestroyAt(k) == i)
    ensures k < i < sig.Slots() && sig.ChildOf(k + 1, i) && sig.Dir(i) == FromPython
    ensures MetaAt(sig, k + 1, i) == if sig.DestroyAt(k) == i then Child else ChildWithPyArg
  {
    assert sig.UserAt(k) == i ==> sig.UserOf(k + 1, i);
    assert sig.DestroyAt(k) == i ==> sig.DestroyOf(k + 1, i);
    ChildFacts(sig, k + 1, i);
    OfMonotone(sig, k + 1, sig.Slots(), i);
  }

  /** Only the Python index of a slot that keeps its role can become stale. */
  lemma SlotTransfer(sig: Callable, k: nat, i: nat, o: Option<ArgCache>, o': Option<ArgCache>)
    requires SlotOk(sig, k, k, i, o) && SameRole(sig, k, i)
    requires if i < k && o.Some? then o'.Some? && o'.value == o.value.(pyIndex := o'.value.pyIndex) else o' == o
    requires i < k && o'.Some? && Visible(sig, k, i) ==> o'.value.pyIndex == Count(Vis(sig, k + 1), i)
    ensures SlotOk(sig, k + 1, k, i, o')
  {
    assert MetaAt(sig, k + 1, i) == MetaAt(sig, k, i) && sig.ChildOf(k + 1, i) == sig.ChildOf(k, i);
    assert Visible(sig, k + 1, i) == Visible(sig, k, i);
    hide MetaAt, Visible, Callable.ChildOf, CIndexAt, NameAt, Count, Vis;
    assert SlotOk(sig, k + 1, k, i, o');
  }

  /** A slot whose role the owner at `k` does not touch. */
  lemma UntouchedSlot(sig: Callable, k: nat, i: nat, o: Option<ArgCache>)
    requires SlotOk(sig, k, k, i, o) && SameRole(sig, k, i)
    requires forall j :: 0 <= j < i && j < k ==> SameRole(sig, k, j)
    ensures SlotOk(sig, k + 1, k, i, o)
  {
    if i < k {
      SameCounts(sig, k, i);
    }
    SlotTransfer(sig, k, i, o, o);
  }

  lemma CallbackSlot(sig: Callable, k: nat, t: Table, i: nat)
    requires sig.WellFormed() && k < sig.Slots() == |t.slots| && i < sig.Slots()
    requires sig.Type(k).Callback? && SlotOk(sig, k, k, i, t.slots[i])
    ensures SlotOk(sig, k + 1, k, i, CallbackSetup(t, sig.UserAt(k), sig.DestroyAt(k)).slots[i])
  {
    CallbackFacts(sig, k);
    hide Callable.WellFormed;
    if i == sig.UserAt(k) || i == sig.DestroyAt(k) {
      hide SlotOk;
      CallbackChild(sig, k, i);
      CallbackResult(sig, k, i);
    } else {
      UntouchedSlot(sig, k, i, t.slots[i]);
    }
  }

  lemma CallbackResult(sig: Callable, k: nat, i: nat)
    requires k < i && sig.ChildOf(k + 1, i) && sig.Dir(i) == FromPython
    ensures SlotOk(sig, k + 1, k, i, Some(BLANK.(meta := MetaAt(sig, k + 1, i), dir := FromPython)))
  {
  }

  lemma CallbackRoles(sig: Callable, k: nat, t: Table)
    requires sig.WellFormed() && k < sig.Slots() && Inv(sig, k, k, t) && sig.Type(k).Callback?
    ensures Inv(sig, k + 1, k, CallbackSetup(t, sig.UserAt(k), sig.DestroyAt(k)))
  {
    CallbackFacts(sig, k);
    forall i: nat | i < sig.Slots()
      ensures SlotOk(sig, k + 1, k, i, CallbackSetup(t, sig.UserAt(k), sig.DestroyAt(k)).slots[i])
    {
      CallbackSlot(sig, k, t, i);
    }
    hide Callable.WellFormed;
    SameCounts(sig, k, k);
  }

  // ---------------------------------------------------------------- an array hides its length

  lemma {:induction false} RenumberAt(slots: seq<Option<ArgCache>>, from: nat, end: nat)
    requires from <= end <= |slots| && (end == |slots| || slots[end].None?)
    requires forall i :: from <= i < end ==> slots[i].Some?
    ensures var r := Renumber(slots, from);
            && (forall i :: 0 <= i < |slots| && !(from <= i < end) ==> r[i] == slots[i])
            && (forall i :: from <= i < end ==> r[i] == Some(slots[i].value.(pyIndex := slots[i].value.pyIndex - 1)))
    decreases end - from
  {
    if from < end {
      RenumberAt(slots[from := Some(slots[from].value.(pyIndex := slots[from].value.pyIndex - 1))], from + 1, end);
    }
  }

  lemma LengthFacts(sig: Callable, k: nat)
    requires sig.WellFormed() && k < sig.Slots() && sig.LenAt(k) != -1
    ensures var l := sig.LenAt(k);
            && 0 <= l < sig.Slots() && l != k && sig.Dir(l) == sig.Dir(k) && sig.Type(l).Scalar? && !sig.SelfClosure(l)
            && !sig.UserOf(sig.Slots(), l) && !sig.DestroyOf(sig.Slots(), l)
            && sig.UserAt(k) == sig.DestroyAt(k) == -1
            && (sig.Dir(k).Leaves() ==> !sig.LenOf(k, l))
  {
    hide Callable.WellFormed;
    var l := sig.LenAt(k);
    LengthClauses(sig, k);
    assert sig.LenOf(k + 1, l);
    OfMonotone(sig, k + 1, sig.Slots(), l);
    ChildFacts(sig, k + 1, l);
    if sig.LenOf(k, l) {
      var a := LenOwner(sig, k, l);
    }
  }

  lemma LengthClauses(sig: Callable, k: nat)
    requires sig.WellFormed() && k < sig.Slots() && sig.LenAt(k) != -1
    ensures sig.MayBeChild(sig.LenAt(k)) && sig.Dir(sig.LenAt(k)) == sig.Dir(k) && sig.Type(sig.LenAt(k)).Scalar?
    ensures forall a :: -1 <= a < k && sig.Dir(k).Leaves() ==> sig.LenAt(a) != sig.LenAt(k)
  {
    hide Callable.MayBeChild, Callable.Dir, Callable.Type;
  }

  /** The array at `k` is the first to claim its length: exactly one slot changes its role. */
  lemma FirstClaim(sig: Callable, k: nat, m: nat)
    requires sig.WellFormed() && k < sig.Slots() && sig.LenAt(k) != -1 && !sig.LenOf(k, sig.LenAt(k))
    ensures var l := sig.LenAt(k);
            && Count(Vis(sig, k + 1), m) == Count(Vis(sig, k), m) - (if sig.Dir(l).Enters() && l < m then 1 else 0)
            && Count(HiddenOut(sig, k + 1), m)
               == Count(HiddenOut(sig, k), m) + (if sig.Dir(l).Leaves() && l < m then 1 else 0)
            && Filter(ShownOut(sig, k + 1), m)
               == if sig.Dir(l).Leaves() then RemoveOne(Filter(ShownOut(sig, k), m), l) else Filter(ShownOut(sig, k), m)
  {
    LengthFacts(sig, k);
    hide Callable.WellFormed;
    var l := sig.LenAt(k);
    OfMonotone(sig, k, sig.Slots(), l);
    OfMonotone(sig, k + 1, sig.Slots(), l);
    assert forall i :: i != l ==> sig.LenOf(k + 1, i) == sig.LenOf(k, i);
    assert forall i :: sig.DestroyOf(k + 1, i) == sig.DestroyOf(k, i);
    if sig.Dir(l).Enters() {
      CountFlip(Vis(sig, k), Vis(sig, k + 1), m, l);
    } else {
      CountSame(Vis(sig, k), Vis(sig, k + 1), m);
    }
    if sig.Dir(l).Leaves() {
      CountFlip(HiddenOut(sig, k + 1), HiddenOut(sig, k), m, l);
      FilterFlip(ShownOut(sig, k), ShownOut(sig, k + 1), m, l);
    } else {
      CountSame(HiddenOut(sig, k), HiddenOut(sig, k + 1), m);
      CountSame(ShownOut(sig, k), ShownOut(sig, k + 1), m);
    }
  }

  /** An earlier array already claimed the length: nothing happens, and nothing needs to. */
  lemma SecondClaim(sig: Callable, k: nat, t: Table)
    requires sig.WellFormed() && k < sig.Slots() && Inv(sig, k, k, t)
    requires sig.LenAt(k) != -1 && sig.LenOf(k, sig.LenAt(k))
    ensures ArraySetup(t, sig.LenAt(k), k, sig.Dir(k)) == (t, 0)
    ensures Inv(sig, k + 1, k, t)
  {
    hide Callable.WellFormed;
    LengthFacts(sig, k);
    ClaimedTable(sig, k, t);
    hide ArraySetup;
    assert forall i :: SameRole(sig, k, i);
    SameCounts(sig, k, k);
    forall i | 0 <= i < |t.slots| ensures SlotOk(sig, k + 1, k, i, t.slots[i]) {
      assert SlotOk(sig, k, k, i, t.slots[i]);
      hide SlotOk;
      UntouchedSlot(sig, k, i, t.slots[i]);
    }
  }

  lemma ClaimedTable(sig: Callable, k: nat, t: Table)
    requires k < sig.Slots() && Inv(sig, k, k, t)
    requires var l := sig.LenAt(k);
             0 <= l < sig.Slots() && sig.LenOf(k, l) && !sig.Dir(k).Leaves() && !sig.SelfClosure(l)
    ensures ArraySetup(t, sig.LenAt(k), k, sig.Dir(k)) == (t, 0)
  {
    var l := sig.LenAt(k);
    assert SlotOk(sig, k, k, l, t.slots[l]);
  }

  /** What hiding the length does to slot `i`. */
  ghost function HiddenSlot(sig: Callable, k: nat, i: nat, o: Option<ArgCache>): Option<ArgCache> {
    var l := sig.LenAt(k);
    if i == l then
      Some((if o.Some? then o.value else BLANK).(meta := Child, dir := sig.Dir(k), marshals := false))
    else if l < i < k && sig.Dir(k).Enters() && o.Some? then Some(o.value.(pyIndex := o.value.pyIndex - 1))
    else o
  }

  lemma HiddenLengthOk(sig: Callable, k: nat, o: Option<ArgCache>)
    requires sig.WellFormed() && k < sig.Slots() && sig.LenAt(k) != -1 && !sig.LenOf(k, sig.LenAt(k))
    requires SlotOk(sig, k, k, sig.LenAt(k), o)
    ensures SlotOk(sig, k + 1, k, sig.LenAt(k), HiddenSlot(sig, k, sig.LenAt(k), o))
  {
    LengthFacts(sig, k);
    hide Callable.WellFormed;
    var l := sig.LenAt(k);
    OfMonotone(sig, k, sig.Slots(), l);
    OfMonotone(sig, k + 1, sig.Slots(), l);
    assert sig.LenOf(k + 1, l) && MetaAt(sig, k + 1, l) == Child && !Visible(sig, k + 1, l);
  }

  lemma OthersKeepRole(sig: Callable, k: nat, i: nat)
    requires sig.UserAt(k) == sig.DestroyAt(k) == -1 && sig.LenAt(k) != i
    ensures SameRole(sig, k, i)
  {
  }

  lemma HiddenBelowOk(sig: Callable, k: nat, i: nat, o: Option<ArgCache>)
    requires sig.WellFormed() && i < k < sig.Slots()
    requires sig.LenAt(k) != -1 && !sig.LenOf(k, sig.LenAt(k)) && SlotOk(sig, k, k, i, o) && i != sig.LenAt(k)
    ensures SlotOk(sig, k + 1, k, i, HiddenSlot(sig, k, i, o))
  {
    LengthFacts(sig, k);
    FirstClaim(sig, k, i);
    OthersKeepRole(sig, k, i);
    SlotPy(sig, k, i, o);
    hide Callable.WellFormed, SlotOk, SameRole, Visible, Callable.LenOf, Callable.UserOf, Callable.DestroyOf, Count;
    SlotTransfer(sig, k, i, o, HiddenSlot(sig, k, i, o));
  }

  lemma HiddenSlotOk(sig: Callable, k: nat, i: nat, o: Option<ArgCache>)
    requires sig.WellFormed() && k < sig.Slots() && i < sig.Slots()
    requires sig.LenAt(k) != -1 && !sig.LenOf(k, sig.LenAt(k)) && SlotOk(sig, k, k, i, o)
    ensures SlotOk(sig, k + 1, k, i, HiddenSlot(sig, k, i, o))
  {
    if i == sig.LenAt(k) {
      HiddenLengthOk(sig, k, o);
    } else if i < k {
      HiddenBelowOk(sig, k, i, o);
    } else {
      LengthFacts(sig, k);
      OthersKeepRole(sig, k, i);
      hide Callable.WellFormed, SlotOk, SameRole, Visible;
      SlotTransfer(sig, k, i, o, o);
    }
  }

  lemma SlotPy(sig: Callable, k: nat, i: nat, o: Option<ArgCache>)
    requires SlotOk(sig, k, k, i, o) && i < k
    ensures o.Some? && (Visible(sig, k, i) ==> o.value.pyIndex == Count(Vis(sig, k), i))
  {
  }

  /** The table around slot `k` and a length nobody claimed yet. */
  ghost predicate Unclaimed(t: Table, l: int, k: nat) {
    && 0 <= l < |t.slots| && k < |t.slots| && l != k && t.slots[k].None?
    && (forall i :: 0 <= i < k ==> t.slots[i].Some?)
    && !AlreadyHidden(t.slots[l]) && (l > k ==> t.slots[l].None? && l !in t.toPy)
  }

  lemma FromSetupHides(t: Table, l: int, k: nat, dir: Direction) returns (t': Table)
    requires Unclaimed(t, l, k) && dir.Enters()
    ensures t' == ArraySetup(t, l, k, dir).0 && ArraySetup(t, l, k, dir).1 == if l < k then -1 else 0
    ensures t'.nPy == t.nPy + (if l < k then -1 else 0) && t'.nFrom == t.nFrom && t'.nTo == t.nTo
    ensures t'.nToChild == t.nToChild + (if l < k && dir.Leaves() then 1 else 0)
    ensures t'.toPy == if dir.Leaves() then RemoveOne(t.toPy, l) else t.toPy
    ensures |t'.slots| == |t.slots| && t'.slots[l].Some?
    ensures t'.slots[l].value ==
            (if t.slots[l].Some? then t.slots[l].value else BLANK).(meta := Child, dir := dir, marshals := false)
    ensures forall i :: 0 <= i < |t.slots| && i != l && !(l < i < k) ==> t'.slots[i] == t.slots[i]
    ensures forall i :: l < i < k ==> t'.slots[i] == Some(t.slots[i].value.(pyIndex := t.slots[i].value.pyIndex - 1))
  {
    var t1 := FromArraySetup(t, l, k, dir);
    var t2 := if dir.Leaves() then ToArraySetup(t1, l, k, dir) else t1;
    assert t2.slots == t1.slots && t2.slots[l].Some?;
    if l < k {
      var shown := t2.slots[l := Some(t2.slots[l].value.(meta := Child))];
      RenumberAt(shown, l + 1, k);
    }
    t' := ArraySetup(t, l, k, dir).0;
  }

  lemma FirstClaimSlots(sig: Callable, k: nat, t: Table)
    requires sig.WellFormed() && k < sig.Slots() && Inv(sig, k, k, t)
    requires sig.LenAt(k) != -1 && !sig.LenOf(k, sig.LenAt(k)) && !sig.ChildOf(k, k)
    ensures var l := sig.LenAt(k);
            var (t', shift) := ArraySetup(t, l, k, sig.Dir(k));
            && shift == (if l < k && sig.Dir(k).Enters() then -1 else 0)
            && t'.nPy == t.nPy + shift && t'.nFrom == t.nFrom && t'.nTo == t.nTo
            && t'.nToChild == t.nToChild + (if l < k && sig.Dir(k).Leaves() then 1 else 0)
            && t'.toPy == (if sig.Dir(k).Leaves() then RemoveOne(t.toPy, l) else t.toPy)
            && |t'.slots| == |t.slots|
            && forall i: nat :: i < |t.slots| ==> t'.slots[i] == HiddenSlot(sig, k, i, t.slots[i])
  {
    hide Callable.WellFormed, Renumber, Unclaimed, Inv, HideLength, RemoveOne;
    var l := sig.LenAt(k);
    LengthFacts(sig, k);
    OfMonotone(sig, k, sig.Slots(), l);
    UnclaimedTable(sig, k, t);
    if sig.Dir(k).Enters() {
      var t' := FromSetupHides(t, l, k, sig.Dir(k));
      hide ArraySetup;
    } else {
      ToSetupHides(t, l, k);
      hide ArraySetup;
    }
  }

  lemma UnclaimedTable(sig: Callable, k: nat, t: Table)
    requires k < sig.Slots() && Inv(sig, k, k, t) && !sig.ChildOf(k, k)
    requires var l := sig.LenAt(k);
             && 0 <= l < sig.Slots() && l != k && sig.Type(l).Scalar? && !sig.SelfClosure(l)
             && !sig.LenOf(k, l) && !sig.UserOf(k, l) && !sig.DestroyOf(k, l)
    ensures Unclaimed(t, sig.LenAt(k), k)
  {
    var l := sig.LenAt(k);
    assert SlotOk(sig, k, k, l, t.slots[l]);
    assert SlotOk(sig, k, k, k, t.slots[k]);
    assert forall i :: 0 <= i < k ==> SlotOk(sig, k, k, i, t.slots[i]) && t.slots[i].Some?;
  }

  lemma ToSetupHides(t: Table, l: int, k: nat)
    requires Unclaimed(t, l, k)
    ensures var (t', shift) := ArraySetup(t, l, k, ToPython);
            && shift == 0 && t'.nPy == t.nPy && t'.nFrom == t.nFrom && t'.nTo == t.nTo
            && t'.nToChild == t.nToChild + (if l < k then 1 else 0) && t'.toPy == RemoveOne(t.toPy, l)
            && t'.slots == t.slots[l := Some((if t.slots[l].Some? then t.slots[l].value else BLANK)
                                             .(meta := Child, dir := ToPython, marshals := false))]
  {
  }

  lemma FirstClaimRoles(sig: Callable, k: nat, t: Table)
    requires sig.WellFormed() && k < sig.Slots() && Inv(sig, k, k, t)
    requires sig.LenAt(k) != -1 && !sig.LenOf(k, sig.LenAt(k)) && !sig.ChildOf(k, k)
    ensures var (t', shift) := ArraySetup(t, sig.LenAt(k), k, sig.Dir(k));
            Inv(sig, k + 1, k, t') && Count(Vis(sig, k + 1), k) == t.nPy + shift
  {
    LengthFacts(sig, k);
    FirstClaimSlots(sig, k, t);
    FirstClaim(sig, k, k);
    hide Callable.WellFormed, ArraySetup, HiddenSlot;
    var l := sig.LenAt(k);
    var t' := ArraySetup(t, l, k, sig.Dir(k)).0;
    forall i: nat | i < |t'.slots| ensures SlotOk(sig, k + 1, k, i, t'.slots[i]) {
      assert SlotOk(sig, k, k, i, t.slots[i]);
      HiddenSlotOk(sig, k, i, t.slots[i]);
      hide SlotOk;
    }
    assert l > k ==> l !in t.toPy;
    hide SlotOk, Count;
  }

  /** The array at `k` hides its length, wherever that is. */
  lemma ArrayRoles(sig: Callable, k: nat, t: Table)
    requires sig.WellFormed() && k < sig.Slots() && Inv(sig, k, k, t) && sig.Type(k).Array? && !sig.ChildOf(k, k)
    ensures var (t', shift) := ArraySetup(t, sig.LenAt(k), k, sig.Dir(k));
            Inv(sig, k + 1, k, t') && Count(Vis(sig, k + 1), k) == t.nPy + shift
  {
    hide Callable.WellFormed;
    if sig.LenAt(k) == -1 {
      NoRoles(sig, k, t);
      hide SlotsOk;
    } else {
      hide ArraySetup, Inv;
      if sig.LenOf(k, sig.LenAt(k)) {
        SecondClaim(sig, k, t);
        ClaimCount(sig, k, t);
      } else {
        FirstClaimRoles(sig, k, t);
      }
    }
  }

  lemma ClaimCount(sig: Callable, k: nat, t: Table)
    requires Inv(sig, k + 1, k, t)
    ensures Count(Vis(sig, k + 1), k) == t.nPy
  {
    hide SlotsOk;
  }

  // ---------------------------------------------------------------- the whole pass

  lemma ChildStep(sig: Callable, k: nat, t: Table)
    requires sig.WellFormed() && k < sig.Slots() && Inv(sig, k, k, t) && sig.ChildOf(k, k)
    ensures t.slots[k].Some? && Inv(sig, k + 1, k + 1, ReachChild(sig, k, t))
  {
    ChildFacts(sig, k, k);
    NoRoles(sig, k, t);
    OfMonotone(sig, k, sig.Slots(), k);
    OfMonotone(sig, k + 1, sig.Slots(), k);
    assert SlotOk(sig, k + 1, k, k, t.slots[k]);
    var t' := ReachChild(sig, k, t);
    FillSlot(sig, k, t, t'.slots[k].value, t');
  }

  lemma ClosureIsNoChild(sig: Callable, r: nat, k: nat)
    requires sig.WellFormed() && r <= sig.Slots() && sig.SelfClosure(k)
    ensures !sig.ChildOf(r, k)
  {
    if sig.ChildOf(r, k) {
      ChildFacts(sig, r, k);
    }
  }

  lemma ClosureStep(sig: Callable, k: nat, t: Table)
    requires sig.WellFormed() && k < sig.Slots() && Inv(sig, k, k, t) && sig.SelfClosure(k)
    ensures Inv(sig, k + 1, k + 1, Step(sig, k, t).value)
  {
    ClosureIsNoChild(sig, k, k);
    ClosureIsNoChild(sig, k + 1, k);
    NoRoles(sig, k, t);
    var t' := Step(sig, k, t).value;
    FillSlot(sig, k, t, t'.slots[k].value, t');
  }

  /** The counters bumped before an array is set up do not affect the set-up. */
  function Bump(t: Table, d: int): Table { t.(nFrom := t.nFrom + d, nPy := t.nPy + d) }

  lemma ArraySetupBump(t: Table, len: int, at: int, dir: Direction, d: int)
    requires len < |t.slots|
    ensures var (t', s) := ArraySetup(t, len, at, dir);
            ArraySetup(Bump(t, d), len, at, dir) == (Bump(t', d), s)
  {
    hide FromArraySetup, ToArraySetup, LengthCameFirst, NeedsUpdate;
    FromBump(t, len, at, dir, d);
    var t1 := if dir.Enters() then FromArraySetup(t, len, at, dir) else t;
    ToBump(t1, len, at, dir, d);
    var t2 := if dir.Leaves() then ToArraySetup(t1, len, at, dir) else t1;
    CameFirstBump(t2, len, d);
  }

  lemma CameFirstBump(t: Table, len: int, d: int)
    requires len < |t.slots|
    ensures NeedsUpdate(Bump(t, d), len) == NeedsUpdate(t, len)
    ensures NeedsUpdate(t, len) ==>
              0 <= len && t.slots[len].Some? && LengthCameFirst(Bump(t, d), len) == Bump(LengthCameFirst(t, len), d)
  {
    hide Renumber;
  }

  lemma FromBump(t: Table, len: int, at: int, dir: Direction, d: int)
    requires len < |t.slots|
    ensures |FromArraySetup(t, len, at, dir).slots| == |t.slots|
    ensures FromArraySetup(Bump(t, d), len, at, dir) == Bump(FromArraySetup(t, len, at, dir), d)
  {
  }

  lemma ToBump(t: Table, len: int, at: int, dir: Direction, d: int)
    requires len < |t.slots|
    ensures |ToArraySetup(t, len, at, dir).slots| == |t.slots|
    ensures ToArraySetup(Bump(t, d), len, at, dir) == Bump(ToArraySetup(t, len, at, dir), d)
  {
  }

  /** The record and the table `ReachParent` ends with, when setting up the type turned `t` into `t1`. */
  ghost function ParentRecord(sig: Callable, k: nat, t: Table, shift: int): ArgCache
    requires sig.Offset() <= k < sig.Slots()
  {
    var dir := sig.Dir(k);
    ArgCache(if sig.Type(k).GError? then Child else Parent, dir, Some(sig.args[k - sig.Offset()].name),
             k, (if dir.Enters() then t.nPy else -1) + shift, dir.Enters())
  }

  ghost function ParentTable(sig: Callable, k: nat, t: Table, t1: Table, shift: int): Table
    requires sig.Offset() <= k < sig.Slots() == |t1.slots|
  {
    var dir := sig.Dir(k);
    var d := if dir.Enters() then 1 else 0;
    Table(t1.slots[k := Some(ParentRecord(sig, k, t, shift))], t1.nPy + d, t1.nFrom + d,
          t1.nTo + (if dir.Leaves() then 1 else 0), t1.nToChild, t1.toPy + if dir.Leaves() then [k] else [])
  }

  lemma ParentFill(sig: Callable, k: nat, t: Table, t1: Table, shift: int)
    requires sig.WellFormed() && sig.Offset() <= k < sig.Slots() && !sig.SelfClosure(k) && !sig.ChildOf(k, k)
    requires Inv(sig, k + 1, k, t1) && (sig.Dir(k).Enters() ==> t1.nPy == t.nPy + shift)
    ensures Inv(sig, k + 1, k + 1, ParentTable(sig, k, t, t1, shift))
  {
    NotOwnChild(sig, k);
    FillSlot(sig, k, t1, ParentRecord(sig, k, t, shift), ParentTable(sig, k, t, t1, shift));
  }

  lemma ParentArray(sig: Callable, k: nat, t: Table)
    requires sig.WellFormed() && sig.Offset() <= k < sig.Slots() && Inv(sig, k, k, t)
    requires !sig.SelfClosure(k) && !sig.ChildOf(k, k) && sig.Type(k).Array? && sig.Type(k).Cached(sig.Dir(k))
    ensures ReachParent(sig, k, t).Some? && Inv(sig, k + 1, k + 1, ReachParent(sig, k, t).value)
  {
    var (t1, shift) := ArraySetup(t, sig.LenAt(k), k, sig.Dir(k));
    ArrayTable(sig, k, t);
    ArrayRoles(sig, k, t);
    hide ArraySetup, Inv, Callable.WellFormed, ReachParent, ParentTable;
    ParentFill(sig, k, t, t1, shift);
  }

  lemma ArrayTable(sig: Callable, k: nat, t: Table)
    requires sig.WellFormed() && sig.Offset() <= k < sig.Slots() == |t.slots| && sig.Type(k).Array?
    requires !sig.SelfClosure(k) && sig.Type(k).Cached(sig.Dir(k))
    ensures var (t1, shift) := ArraySetup(t, sig.LenAt(k), k, sig.Dir(k));
            |t1.slots| == |t.slots| && ReachParent(sig, k, t) == Some(ParentTable(sig, k, t, t1, shift))
  {
    LengthInside(sig, k);
    hide ArraySetup, Callable.WellFormed, NewArgCache, Callable.LenAt, ArgType.Cached, Callable.Dir;
    var dir := sig.Dir(k);
    var d := if dir.Enters() then 1 else 0;
    var t1 := ArraySetup(t, sig.LenAt(k), k, dir).0;
    ArraySetupSize(t, sig.LenAt(k), k, dir);
    ArraySetupBump(t, sig.LenAt(k), k, dir, d);
    NewArray(sig, k, Bump(t, d), if dir.Enters() then t.nPy else -1);
    assert t1.toPy + [] == t1.toPy;
    assert Bump(t, 0) == t && Bump(t1, 0) == t1;
  }

  lemma LengthInside(sig: Callable, k: nat)
    requires sig.WellFormed() && k < sig.Slots()
    ensures sig.LenAt(k) < sig.Slots()
  {
    assert sig.LenAt(k) != -1 ==> sig.MayBeChild(sig.LenAt(k));
  }

  lemma NewArray(sig: Callable, k: nat, t: Table, pyIndex: int)
    requires sig.WellFormed() && k < sig.Slots() == |t.slots| && sig.Type(k).Array? && sig.Type(k).Cached(sig.Dir(k))
    ensures var (t', shift) := ArraySetup(t, sig.LenAt(k), k, sig.Dir(k));
            NewArgCache(sig, k, t, pyIndex)
            == Some((t', ArgCache(Parent, sig.Dir(k), None, k, pyIndex + shift, sig.Dir(k).Enters())))
  {
    hide Callable.WellFormed, ArraySetup;
  }

  lemma ArraySetupSize(t: Table, len: int, at: int, dir: Direction)
    requires len < |t.slots|
    ensures |ArraySetup(t, len, at, dir).0.slots| == |t.slots|
  {
  }

  lemma ParentCallback(sig: Callable, k: nat, t: Table)
    requires sig.WellFormed() && sig.Offset() <= k < sig.Slots() && Inv(sig, k, k, t)
    requires !sig.SelfClosure(k) && !sig.ChildOf(k, k) && sig.Type(k).Callback? && !sig.Dir(k).Leaves()
    ensures ReachParent(sig, k, t).Some? && Inv(sig, k + 1, k + 1, ReachParent(sig, k, t).value)
  {
    var t1 := CallbackSetup(t, sig.UserAt(k), sig.DestroyAt(k));
    CallbackRoles(sig, k, t);
    ParentFill(sig, k, t, t1, 0);
    hide Inv, Callable.WellFormed;
    CallbackTable(sig, k, t);
  }

  lemma CallbackTable(sig: Callable, k: nat, t: Table)
    requires sig.WellFormed() && sig.Offset() <= k < sig.Slots() == |t.slots| && sig.Type(k).Callback?
    requires !sig.Dir(k).Leaves()
    ensures ReachParent(sig, k, t) == Some(ParentTable(sig, k, t, CallbackSetup(t, sig.UserAt(k), sig.DestroyAt(k)), 0))
  {
    CallbackFacts(sig, k);
    hide Callable.WellFormed;
    var t1 := CallbackSetup(t, sig.UserAt(k), sig.DestroyAt(k));
    assert t1.toPy + [] == t1.toPy;
  }

  lemma ParentPlain(sig: Callable, k: nat, t: Table)
    requires sig.WellFormed() && sig.Offset() <= k < sig.Slots() && Inv(sig, k, k, t)
    requires !sig.SelfClosure(k) && !sig.ChildOf(k, k) && !sig.Type(k).Callback? && !sig.Type(k).Array?
    requires sig.Type(k).Cached(sig.Dir(k))
    ensures ReachParent(sig, k, t).Some? && Inv(sig, k + 1, k + 1, ReachParent(sig, k, t).value)
  {
    NoRoles(sig, k, t);
    hide Inv, Callable.WellFormed, ReachParent, ParentTable;
    ParentFill(sig, k, t, t, 0);
    PlainTable(sig, k, t);
  }

  lemma PlainTable(sig: Callable, k: nat, t: Table)
    requires sig.WellFormed() && sig.Offset() <= k < sig.Slots() == |t.slots|
    requires !sig.SelfClosure(k) && !sig.Type(k).Callback? && !sig.Type(k).Array? && sig.Type(k).Cached(sig.Dir(k))
    ensures ReachParent(sig, k, t) == Some(ParentTable(sig, k, t, t, 0))
  {
    hide Callable.WellFormed, ArgType.Cached, Callable.Dir;
    assert t.toPy + [] == t.toPy;
  }

  lemma NotOwnChild(sig: Callable, k: nat)
    requires sig.WellFormed() && k < sig.Slots() && !sig.ChildOf(k, k)
    ensures !sig.ChildOf(k + 1, k)
  {
    CallbackFacts(sig, k);
    if sig.LenAt(k) == k {
      LengthFacts(sig, k);
    }
  }

  /** A slot that no owner fills has a type there is no cache for. */
  ghost predicate Refused(sig: Callable, i: int) {
    -1 <= i < sig.Slots() && !sig.ChildOf(sig.Slots(), i) && !Usable(sig.Type(i), sig.Dir(i))
  }

  lemma NotCached(sig: Callable, k: nat, t: Table)
    requires sig.WellFormed() && sig.Offset() <= k < sig.Slots() == |t.slots| && t.slots[k].None?
    requires !sig.SelfClosure(k) && !sig.ChildOf(k, k) && !sig.Type(k).Cached(sig.Dir(k))
    ensures Refused(sig, k) && Step(sig, k, t).None?
  {
    CachedIff(sig.Type(k), sig.Dir(k));
    if sig.ChildOf(sig.Slots(), k) {
      ChildFacts(sig, sig.Slots(), k);
      if sig.UserOf(sig.Slots(), k) {
        var a := UserOwner(sig, sig.Slots(), k);
        assert sig.UserOf(a + 1, k);
        OfMonotone(sig, a + 1, k, k);
      }
      if sig.DestroyOf(sig.Slots(), k) {
        var a := DestroyOwner(sig, sig.Slots(), k);
        assert sig.DestroyOf(a + 1, k);
        OfMonotone(sig, a + 1, k, k);
      }
    }
  }

  lemma StepKeepsInv(sig: Callable, k: nat, t: Table)
    requires sig.WellFormed() && sig.Offset() <= k < sig.Slots() && Inv(sig, k, k, t)
    ensures if Refused(sig, k) then Step(sig, k, t).None?
            else Step(sig, k, t).Some? && Inv(sig, k + 1, k + 1, Step(sig, k, t).value)
  {
    if sig.SelfClosure(k) {
      ClosureStep(sig, k, t);
    } else {
      assert SlotOk(sig, k, k, k, t.slots[k]);
      hide Callable.WellFormed, Inv;
      CachedIff(sig.Type(k), sig.Dir(k));
      hide Usable;
      if sig.ChildOf(k, k) {
        ChildFacts(sig, k, k);
        ChildStep(sig, k, t);
        OfMonotone(sig, k, sig.Slots(), k);
      } else if !sig.Type(k).Cached(sig.Dir(k)) {
        NotCached(sig, k, t);
      } else if sig.Type(k).Callback? {
        ParentCallback(sig, k, t);
      } else if sig.Type(k).Array? {
        ParentArray(sig, k, t);
      } else {
        ParentPlain(sig, k, t);
      }
    }
  }

  /** The return value's array hides its length before any argument is seen. */
  lemma ReturnKeepsInv(sig: Callable)
    requires sig.WellFormed() && !Refused(sig, -1)
    ensures var empty := Table(seq(sig.Slots(), i => None), 0, 0, 0, 0, []);
            var r := NewArgCache(sig, -1, empty, -1);
            r.Some? && Inv(sig, 0, 0, r.value.0)
  {
    CachedIff(sig.ret, sig.Dir(-1));
    NoOwner(sig, -1);
    var empty := Table(seq(sig.Slots(), i => None), 0, 0, 0, 0, []);
    var l := sig.LenAt(-1);
    var t := NewArgCache(sig, -1, empty, -1).value.0;
    assert t.slots == if l == -1 then empty.slots
                      else empty.slots[l := Some(BLANK.(meta := Child, dir := sig.Dir(l)))];
    forall i: nat | i < sig.Slots() ensures SlotOk(sig, 0, 0, i, t.slots[i]) {
      assert sig.LenOf(0, i) == (l == i);
    }
  }

  lemma NoOwner(sig: Callable, i: int)
    requires i < 0
    ensures !sig.ChildOf(sig.Slots(), i)
  {
  }

  lemma StartKeepsInv(sig: Callable)
    requires sig.WellFormed()
    ensures if Refused(sig, -1) then Start(sig).None?
            else Start(sig).Some? && Inv(sig, sig.Offset(), sig.Offset(), Start(sig).value)
  {
    CachedIff(sig.ret, sig.Dir(-1));
    NoOwner(sig, -1);
    if !Refused(sig, -1) {
      ReturnKeepsInv(sig);
      if sig.Offset() == 1 {
        var empty := Table(seq(sig.Slots(), i => None), 0, 0, 0, 0, []);
        var t := NewArgCache(sig, -1, empty, -1).value.0;
        if sig.ChildOf(0, 0) {
          ChildFacts(sig, 0, 0);
          assert false;
        }
        hide Callable.WellFormed, NewArgCache;
        NoRoles(sig, 0, t);
        FillSlot(sig, 0, t, BLANK.(dir := FromPython, marshals := true), Start(sig).value);
      }
    }
  }

  /** Generation fails exactly for refused types, and otherwise builds the table the signature determines. */
  lemma {:induction false} RunInv(sig: Callable, k: nat)
    requires sig.WellFormed() && sig.Offset() <= k <= sig.Slots()
    ensures if exists i :: -1 <= i < k && Refused(sig, i) then Run(sig, k).None?
            else Run(sig, k).Some? && Inv(sig, k, k, Run(sig, k).value)
  {
    hide Callable.WellFormed, Inv, Step, Start;
    if k == sig.Offset() {
      StartKeepsInv(sig);
      assert k == 1 ==> !Refused(sig, 0);
    } else {
      RunInv(sig, k - 1);
      if Run(sig, k - 1).Some? {
        StepKeepsInv(sig, k - 1, Run(sig, k - 1).value);
      }
    }
  }
}
