/** In-arrays of strings inside an invocation: what their cleanup finds in the length argument, and what comes of it. */
module ArrayRuns {
  import opened Prelude
  import opened Signature
  import opened CacheTable
  import opened CacheProof
  import opened CacheFacts
  import opened CInts
  import opened InvokeIn
  import opened Invoke
  import opened LengthCells
  import opened Argument
  import opened Ownership
  import opened OwnershipResults
  import Arrays = StringArrays
  import opened StringArrayResults

  /** The raw cell the cleanup of an array with length `l` reads. */
  function SeenRaw(f: Frame, l: nat): Option<int> {
    match SeenCell(f, l)
    case Some(Num(raw)) => Some(raw)
    case _ => None
  }

  /** An array of strings in slot `a`, described by `s`, was passed the sequence `o` with the items `items`. */
  ghost predicate Passed(sig: Callable, env: Env, py: seq<PyVal>, a: nat, s: Arrays.Sequence, o: Py, items: seq<Py>) {
    && Marshalled(sig, a) && sig.Dir(a) == FromPython && sig.LenAt(a) != -1
    && ReadsLength(s) && s.lenTag == Some(env.lenTag(sig.LenAt(a)))
    && Items(o, true) == Some(items) && items != [] && PyAt(sig, py, a) == PySeq(|items|)
  }

  /** The cleanup of an array whose length is read from the length argument, at any moment of the invocation: the
      cursors passed the slots below `p`, those below `m` were marshalled. With `count` the items of the last sequence
      passed to any array with that length, in a `guint`, it
      - follows NULL if and only if the cursor has not reached the length;
      - else runs past the end if and only if `count` is more than the array has;
      - else frees everything, once, but the strings at and behind `count`, and what was handed over.
      The recomputed length is the marshalled one if and only if the length was reached and `count` is as many. */
  lemma CleanedInCall(sig: Callable, t: Table, env: Env, py: seq<PyVal>, p: nat, m: nat, f: Frame, a: nat,
                      s: Arrays.Sequence, o: Py, items: seq<Py>, h: Heap, failed: bool)
    requires Generated(sig, t) && FrameOk(sig, env, py, p, m, f) && NoneRefused(sig, env, py, m)
    requires Passed(sig, env, py, a, s, o, items) && HeapOk(h) && Arrays.Marshal(o, s, h).0.Made?
    ensures 0 <= sig.LenAt(a) < sig.Slots()
    ensures var (made, h1) := Arrays.Marshal(o, s, h);
            var l := sig.LenAt(a);
            var count := LastCount(sig, py, m, l) % 0x1_0000_0000;
            var seen := SeenRaw(f, l);
            var c := Arrays.Cleanup(made, s, failed, seen, h1);
            && (c == Arrays.NullLength <==> p <= l)
            && (c == Arrays.PastEnd <==> l < p && |items| < count)
            && (Arrays.CleanedItems(made, s, seen) == Some(|items|) <==> l < p && count == |items|)
            && (c.Cleaned? ==>
                  && (Missed(made, s, seen) == multiset{} <==>
                        forall i :: count <= i < |items| ==> items[i] == Py.PyNone)
                  && Holds(h, c.heap, Missed(made, s, seen) + Kept(made, s, failed)))
  {
    hide *;
    PassedIs(sig, env, py, a, s, o, items);
    var l := sig.LenAt(a);
    GeneratedIsWellFormed(sig, t);
    MarshalledSlot(sig, a);
    LengthOwned(sig, a);
    LengthSeen(sig, t, env, py, p, m, f, l);
    SeenRawIs(f, l);
    WordOf(LastCount(sig, py, m, l));
    MarshalThenCleanup(o, s, h, failed, SeenRaw(f, l));
    CountedIs(items, s, o, h, failed, SeenRaw(f, l));
  }

  lemma SeenRawIs(f: Frame, l: nat)
    ensures SeenRaw(f, l) ==
            match SeenCell(f, l) case Some(v) => (if v.Num? then Some(v.raw) else None) case None => None
  {
    hide SeenCell;
  }

  lemma WordOf(n: nat)
    ensures Load(UInt32, n) == n % 0x1_0000_0000
  {
  }

  lemma PassedIs(sig: Callable, env: Env, py: seq<PyVal>, a: nat, s: Arrays.Sequence, o: Py, items: seq<Py>)
    requires Passed(sig, env, py, a, s, o, items)
    ensures Marshalled(sig, a) && sig.Dir(a) == FromPython && sig.LenAt(a) != -1
    ensures ReadsLength(s) && Items(o, true) == Some(items) && items != []
  {
    hide Marshalled, ReadsLength, Items, PyAt;
  }

  lemma CountedIs(items: seq<Py>, s: Arrays.Sequence, o: Py, h: Heap, failed: bool, seen: Option<int>)
    requires ReadsLength(s) && Items(o, true) == Some(items) && items != [] && Arrays.Marshal(o, s, h).0.Made?
    requires var (made, h1) := Arrays.Marshal(o, s, h);
             CleanedAt(items, made, s, h, failed, seen, Arrays.Cleanup(made, s, failed, seen, h1))
    ensures var (made, h1) := Arrays.Marshal(o, s, h);
            var c := Arrays.Cleanup(made, s, failed, seen, h1);
            && (c == Arrays.NullLength <==> seen.None?)
            && (c == Arrays.PastEnd <==> seen.Some? && Load(UInt32, seen.value) > |items|)
            && (Arrays.CleanedItems(made, s, seen) == Some(|items|) <==>
                  seen.Some? && Load(UInt32, seen.value) == |items|)
            && (c.Cleaned? ==>
                  && (Missed(made, s, seen) == multiset{} <==>
                        forall i :: Load(UInt32, seen.value) <= i < |items| ==> items[i] == Py.PyNone)
                  && Holds(h, c.heap, Missed(made, s, seen) + Kept(made, s, failed)))
  {
    hide Arrays.Marshal, Arrays.Cleanup, Missed, Kept, Holds, Items, Load;
  }

  /** The success driver comes after the last round: no length is NULL, and the cleanup of an array is complete if and
      only if no string lies behind the count of the last sequence passed with its length. */
  lemma CleanedAfterSuccess(sig: Callable, t: Table, env: Env, py: seq<PyVal>, f: Frame, a: nat, s: Arrays.Sequence,
                            o: Py, items: seq<Py>, h: Heap)
    requires Generated(sig, t) && FrameOk(sig, env, py, sig.Slots(), sig.Slots(), f)
    requires NoneRefused(sig, env, py, sig.Slots())
    requires Passed(sig, env, py, a, s, o, items) && HeapOk(h) && Arrays.Marshal(o, s, h).0.Made?
    ensures 0 <= sig.LenAt(a) < sig.Slots()
    ensures var (made, h1) := Arrays.Marshal(o, s, h);
            var count := LastCount(sig, py, sig.Slots(), sig.LenAt(a)) % 0x1_0000_0000;
            var c := Arrays.Cleanup(made, s, false, SeenRaw(f, sig.LenAt(a)), h1);
            && c != Arrays.NullLength && (c == Arrays.PastEnd <==> |items| < count)
            && (c.Cleaned? && Holds(h, c.heap, Kept(made, s, false))
                <==> count <= |items| && forall i :: count <= i < |items| ==> items[i] == Py.PyNone)
  {
    hide *;
    var l := sig.LenAt(a);
    CleanedInCall(sig, t, env, py, sig.Slots(), sig.Slots(), f, a, s, o, items, h, false);
    var (made, h1) := Arrays.Marshal(o, s, h);
    var c := Arrays.Cleanup(made, s, false, SeenRaw(f, l), h1);
    if c.Cleaned? {
      HoldsOne(h, c.heap, Missed(made, s, SeenRaw(f, l)), Kept(made, s, false));
    }
  }

  lemma HoldsOne(h: Heap, h': Heap, missed: multiset<nat>, kept: multiset<nat>)
    requires HeapOk(h) && Holds(h, h', missed + kept)
    ensures Holds(h, h', kept) <==> missed == multiset{}
  {
    if Holds(h, h', kept) {
      forall x ensures missed[x] == 0 {
        assert (missed + kept)[x] == missed[x] + kept[x] <= Fresh(h.next, h'.next)[x] <= 1;
        assert x in missed + kept ==> x in h'.live && x !in h.live;
      }
    } else {
      assert multiset{} + kept == kept;
    }
  }

  /** The failure driver comes when slot `r` failed: for an array it cleans as processed, the length is read through
      NULL if and only if it comes behind that slot. */
  lemma CleanedAfterFailure(sig: Callable, t: Table, env: Env, types: Types, py: seq<PyVal>, f: Frame, r: nat, a: nat,
                            data: CVal, s: Arrays.Sequence, o: Py, items: seq<Py>, h: Heap)
    requires Generated(sig, t) && FrameOk(sig, env, py, r + 1, r, f) && NoneRefused(sig, env, py, r)
    requires Invoke.Cleanup(a, data, true) in FailLog(sig, env, types, py, r, r)
    requires Passed(sig, env, py, a, s, o, items) && HeapOk(h) && Arrays.Marshal(o, s, h).0.Made?
    ensures 0 <= sig.LenAt(a) < sig.Slots() && a + 1 < r && data == Value(sig, env, py, a)
    ensures var (made, h1) := Arrays.Marshal(o, s, h);
            var count := LastCount(sig, py, r, sig.LenAt(a)) % 0x1_0000_0000;
            var c := Arrays.Cleanup(made, s, true, SeenRaw(f, sig.LenAt(a)), h1);
            && (c == Arrays.NullLength <==> r < sig.LenAt(a))
            && (c == Arrays.PastEnd <==> sig.LenAt(a) <= r && |items| < count)
            && (c.Cleaned? ==>
                  (Holds(h, c.heap, Kept(made, s, true)) <==>
                     forall i :: count <= i < |items| ==> items[i] == Py.PyNone))
  {
    hide *;
    var l := sig.LenAt(a);
    CleanedInCall(sig, t, env, py, r + 1, r, f, a, s, o, items, h, true);
    EntryOf(sig, env, types, py, r, Invoke.Cleanup(a, data, true));
    var (made, h1) := Arrays.Marshal(o, s, h);
    var c := Arrays.Cleanup(made, s, true, SeenRaw(f, l), h1);
    if c.Cleaned? {
      HoldsOne(h, c.heap, Missed(made, s, SeenRaw(f, l)), Kept(made, s, true));
    }
  }

  lemma EntryOf(sig: Callable, env: Env, types: Types, py: seq<PyVal>, r: nat, c: Invoke.Cleanup)
    requires c in FailLog(sig, env, types, py, r, r) && c.processed
    ensures c.slot < r - 1 && c.data == Value(sig, env, py, c.slot)
  {
    FailLogOwnOnce(sig, env, types, py, r, r);
    hide FailLog, HasData, Value;
  }

  // ---------------------------------------------------------------- a shared length

  /** Two arrays that go in with one length: f(a: array(length=n), b: array(length=n), n). */
  function SharedLength(): Callable {
    Callable(Function, Scalar, [ArgInfo("a", In, Array(2, Scalar), -1, -1), ArgInfo("b", In, Array(2, Scalar), -1, -1),
                                ArgInfo("n", In, Scalar, -1, -1)])
  }

  predicate PlainType(ty: ArgType, dir: Direction) {
    !ty.Callback? && !ty.GError? && ty.Cached(dir) && !ty.HoldsCallbacks()
  }

  lemma SharedFacts()
    ensures var sig := SharedLength();
            && sig.Slots() == 3 && sig.LenAt(-1) == sig.LenAt(2) == -1 && sig.LenAt(0) == sig.LenAt(1) == 2
            && (forall i :: 0 <= i < 3 ==> sig.UserAt(i) == sig.DestroyAt(i) == -1 && !sig.SelfClosure(i))
            && (forall i :: 0 <= i < 3 ==> sig.Dir(i) == FromPython)
            && (forall i :: -1 <= i < 3 ==> PlainType(sig.Type(i), sig.Dir(i)))
            && sig.Type(2).Scalar? && sig.Offset() == 0
  {
  }

  lemma SharedIsWellFormed()
    ensures SharedLength().WellFormed()
  {
    var sig := SharedLength();
    SharedFacts();
    assert sig.MayBeChild(2);
    hide SharedLength, Callable.LenAt, Callable.UserAt, Callable.DestroyAt, Callable.Dir, Callable.Type;
    hide Callable.MayBeChild, Callable.SelfClosure, ArgType.Cached, ArgType.HoldsCallbacks;
  }

  /** Nothing is wrong with such a signature. */
  lemma SharedIsGenerated()
    ensures var sig := SharedLength();
            sig.WellFormed() && CellsAgree(sig) && Run(sig, 3).Some? && Generated(sig, Run(sig, 3).value)
  {
    hide *;
    SharedFacts();
    SharedIsWellFormed();
    AllGoIn(SharedLength());
    NothingRefused(SharedLength());
  }

  lemma AllGoIn(sig: Callable)
    requires forall i :: 0 <= i < sig.Slots() ==> sig.Dir(i) == FromPython
    ensures CellsAgree(sig)
  {
    hide Callable.LenOf, Callable.ChildOf, Callable.Dir;
  }

  lemma NothingRefused(sig: Callable)
    requires sig.WellFormed() && sig.Offset() == 0
    requires forall i :: -1 <= i < sig.Slots() ==> PlainType(sig.Type(i), sig.Dir(i))
    ensures Run(sig, sig.Slots()).Some? && Generated(sig, Run(sig, sig.Slots()).value)
  {
    hide Callable.WellFormed, Run, Callable.Type, Callable.Dir, ArgType.Cached, Inv, Callable.ChildOf;
    forall i | -1 <= i < sig.Slots() ensures !CacheProof.Refused(sig, i) {
      CachedIff(sig.Type(i), sig.Dir(i));
    }
    RunInv(sig, sig.Slots());
  }

  lemma SharedCount(n: nat, k: nat)
    ensures var (sig, py) := (SharedLength(), [PySeq(n), PySeq(k)]);
            && Marshalled(sig, 0) && Marshalled(sig, 1) && !Marshalled(sig, 2)
            && PyAt(sig, py, 0) == PySeq(n) && PyAt(sig, py, 1) == PySeq(k) && LastCount(sig, py, 3, 2) == k
  {
    var sig, py := SharedLength(), [PySeq(n), PySeq(k)];
    SharedFacts();
    hide SharedLength, Callable.LenAt, Callable.UserAt, Callable.DestroyAt, Callable.Dir, Callable.Type;
    hide Callable.SelfClosure;
    SharedRoles(sig);
    assert Count(Vis(sig, 3), 0) == 0 && Count(Vis(sig, 3), 1) == 1;
    hide Count;
    assert LastCount(sig, py, 2, 2) == k;
  }

  lemma SharedRoles(sig: Callable)
    requires sig == SharedLength()
    ensures sig.LenOf(3, 2) && forall i :: 0 <= i < 2 ==> !sig.ChildOf(3, i)
  {
  }

  /** `a` was passed two strings and `b` was passed `k` items: when `a` is cleaned up after the call, as many strings
      are freed as `b` has items. */
  lemma SharedLengthMiscounts(t: Table, env: Env, f: Frame, k: nat, h: Heap)
    requires Generated(SharedLength(), t) && FrameOk(SharedLength(), env, [PySeq(2), PySeq(k)], 3, 3, f)
    requires NoneRefused(SharedLength(), env, [PySeq(2), PySeq(k)], 3) && k < 0x1_0000_0000 && HeapOk(h)
    ensures var s := Arrays.Sequence(Arrays.CArray, -1, false, Some(env.lenTag(2)), Nothing);
            var (m, h1) := Arrays.Marshal(PyList([PyStr("a"), PyStr("b")]), s, h);
            var c := Arrays.Cleanup(m, s, false, SeenRaw(f, 2), h1);
            && m.Made? && (k > 2 ==> c == Arrays.PastEnd)
            && (k < 2 ==> c.Cleaned? && c.heap.live != h.live) && (k == 2 ==> c.Cleaned? && c.heap.live == h.live)
  {
    hide *;
    var sig, py, items := SharedLength(), [PySeq(2), PySeq(k)], [PyStr("a"), PyStr("b")];
    var o, s := PyList(items), Arrays.Sequence(Arrays.CArray, -1, false, Some(env.lenTag(2)), Nothing);
    SharedFacts();
    SharedCount(2, k);
    LengthFitsToo(sig, env, py, 3, 0, 2);
    TwoStrings(s, env.lenTag(2), h);
    IsPassed(sig, env, py, 0, s, items);
    CleanedAfterSuccess(sig, t, env, py, f, 0, s, o, items, h);
    CleanedInCall(sig, t, env, py, 3, 3, f, 0, s, o, items, h, false);
    var (m, h1) := Arrays.Marshal(o, s, h);
    var c := Arrays.Cleanup(m, s, false, SeenRaw(f, 2), h1);
    NothingKept(m, s);
    if c.Cleaned? {
      HoldsLive(h, c.heap, Missed(m, s, SeenRaw(f, 2)) + Kept(m, s, false));
    }
    assert items[1] == PyStr("b");
  }

  lemma LengthFitsToo(sig: Callable, env: Env, py: seq<PyVal>, m: nat, a: nat, n: nat)
    requires NoneRefused(sig, env, py, m) && a < m && Marshalled(sig, a) && PyAt(sig, py, a) == PySeq(n)
    requires sig.LenAt(a) != -1 && sig.Dir(sig.LenAt(a)) == FromPython
    ensures Fits(env.lenTag(sig.LenAt(a)), n)
  {
    hide Marshalled, PyAt, Fits;
  }

  lemma TwoStrings(s: Arrays.Sequence, tag: IntTag, h: Heap)
    requires s == Arrays.Sequence(Arrays.CArray, -1, false, Some(tag), Nothing) && Fits(tag, 2)
    ensures Arrays.Marshal(PyList([PyStr("a"), PyStr("b")]), s, h).0.Made?
  {
    var items := [PyStr("a"), PyStr("b")];
    var h1 := Arrays.AllocArray(s, 2, h);
    ItemsUnfoldEmpty(items, TStr, h1);
    ItemsUnfold(items, TStr, 1, h1);
    ItemsUnfold(items, TStr, 2, h1);
    hide CText, ConvItems, Arrays.AllocArray, FreeAll, FreedItems, Store, Fits;
  }

  lemma IsPassed(sig: Callable, env: Env, py: seq<PyVal>, a: nat, s: Arrays.Sequence, items: seq<Py>)
    requires Marshalled(sig, a) && sig.Dir(a) == FromPython && sig.LenAt(a) != -1 && items != []
    requires s == Arrays.Sequence(Arrays.CArray, -1, false, Some(env.lenTag(sig.LenAt(a))), Nothing)
    requires PyAt(sig, py, a) == PySeq(|items|)
    ensures Passed(sig, env, py, a, s, PyList(items), items)
  {
    hide Marshalled, PyAt;
  }

  lemma NothingKept(m: Arrays.Marshalled, s: Arrays.Sequence)
    requires m.Made? && s.transfer == Nothing
    ensures Kept(m, s, false) == multiset{}
  {
  }

  // ---------------------------------------------------------------- a length behind the slot that fails

  /** f(names: array(length=n), a, b, n) */
  function LengthBehind(): Callable {
    Callable(Function, Scalar, [ArgInfo("names", In, Array(3, Scalar), -1, -1), ArgInfo("a", In, Scalar, -1, -1),
                                ArgInfo("b", In, Scalar, -1, -1), ArgInfo("n", In, Scalar, -1, -1)])
  }

  lemma BehindFacts()
    ensures var sig := LengthBehind();
            && sig.Slots() == 4 && sig.LenAt(0) == 3 && (forall i :: -1 <= i < 4 && i != 0 ==> sig.LenAt(i) == -1)
            && (forall i :: 0 <= i < 4 ==> sig.UserAt(i) == sig.DestroyAt(i) == -1 && !sig.SelfClosure(i))
            && (forall i :: 0 <= i < 4 ==> sig.Dir(i) == FromPython)
            && (forall i :: -1 <= i < 4 ==> PlainType(sig.Type(i), sig.Dir(i)))
            && sig.Type(3).Scalar? && sig.Offset() == 0
  {
  }

  lemma BehindIsWellFormed()
    ensures LengthBehind().WellFormed()
  {
    var sig := LengthBehind();
    BehindFacts();
    assert sig.MayBeChild(3);
    hide LengthBehind, Callable.LenAt, Callable.UserAt, Callable.DestroyAt, Callable.Dir, Callable.Type;
    hide Callable.MayBeChild, Callable.SelfClosure, ArgType.Cached, ArgType.HoldsCallbacks;
  }

  lemma BehindIsGenerated()
    ensures var sig := LengthBehind();
            sig.WellFormed() && CellsAgree(sig) && Run(sig, 4).Some? && Generated(sig, Run(sig, 4).value)
  {
    hide *;
    BehindFacts();
    BehindIsWellFormed();
    AllGoIn(LengthBehind());
    NothingRefused(LengthBehind());
  }

  /** When `b` is refused, `names` is cleaned up as processed while the pointer of `n` is still NULL. */
  lemma LengthBehindIsNull(t: Table, env: Env, types: Types, py: seq<PyVal>, f: Frame, s: Arrays.Sequence, o: Py,
                           items: seq<Py>, h: Heap)
    requires Generated(LengthBehind(), t) && FrameOk(LengthBehind(), env, py, 3, 2, f)
    requires NoneRefused(LengthBehind(), env, py, 2) && types.cleans(0) && Value(LengthBehind(), env, py, 0) != ZERO
    requires Passed(LengthBehind(), env, py, 0, s, o, items) && HeapOk(h) && Arrays.Marshal(o, s, h).0.Made?
    ensures Invoke.Cleanup(0, Value(LengthBehind(), env, py, 0), true) in FailLog(LengthBehind(), env, types, py, 2, 2)
    ensures var (m, h1) := Arrays.Marshal(o, s, h);
            Arrays.Cleanup(m, s, true, SeenRaw(f, 3), h1) == Arrays.NullLength
  {
    hide *;
    BehindFacts();
    PassedIs(LengthBehind(), env, py, 0, s, o, items);
    FirstEntry(LengthBehind(), env, types, py);
    CleanedAfterFailure(LengthBehind(), t, env, types, py, f, 2, 0, Value(LengthBehind(), env, py, 0), s, o, items, h);
  }

  lemma FirstEntry(sig: Callable, env: Env, types: Types, py: seq<PyVal>)
    requires sig.Dir(0) == FromPython && Marshalled(sig, 0) && types.cleans(0) && Value(sig, env, py, 0) != ZERO
    ensures Invoke.Cleanup(0, Value(sig, env, py, 0), true) in FailLog(sig, env, types, py, 2, 2)
  {
    hide Marshalled, Value;
    assert FailLog(sig, env, types, py, 2, 1) == [] + [Invoke.Cleanup(0, Value(sig, env, py, 0), true)];
  }
}
