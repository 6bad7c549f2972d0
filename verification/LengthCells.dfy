/** What `state->args` holds for a length argument, from the first round of the in stage to the last. */
module LengthCells {
  import opened Prelude
  import opened Signature
  import opened CacheTable
  import opened CacheProof
  import opened CacheFacts
  import opened CInts
  import opened InvokeIn

  /** What the pointer of slot `l` in `state->args` points at; `None` while it is NULL. */
  function SeenCell(f: Frame, l: nat): Option<CVal> {
    if l < |f.args| && f.args[l].Some? && InRange(f, f.args[l].value)
      then Some(match f.args[l].value case InCell(j) => f.inArgs[j] case OutCell(j) => f.outValues[j])
      else None
  }

  /** The items of the last sequence that was passed to an array of length `l` among the slots below `k`. */
  ghost function LastCount(sig: Callable, py: seq<PyVal>, k: nat, l: nat): nat {
    if k == 0 then 0
    else if Marshalled(sig, k - 1) && sig.LenAt(k - 1) == l && PyAt(sig, py, k - 1).PySeq?
      then PyAt(sig, py, k - 1).len
    else LastCount(sig, py, k - 1, l)
  }

  ghost predicate NoneRefused(sig: Callable, env: Env, py: seq<PyVal>, m: nat) {
    forall a :: a < m && Marshalled(sig, a) ==> !Refuses(sig, env, py, a)
  }

  lemma {:induction false} ChildIsLastCount(sig: Callable, env: Env, py: seq<PyVal>, k: nat, l: nat)
    requires sig.WellFormed() && k <= sig.Slots() && l < sig.Slots() && sig.LenOf(sig.Slots(), l)
    requires sig.Dir(l) == FromPython && NoneRefused(sig, env, py, k)
    ensures ChildCell(sig, env, py, k, l) == Num(LastCount(sig, py, k, l))
  {
    hide *;
    if k == 0 {
      NoChild(sig, env, py, l);
    } else {
      NoneRefusedBefore(sig, env, py, k);
      ChildIsLastCount(sig, env, py, k - 1, l);
      OnlyArraysWrite(sig, env, py, k - 1, l);
      LengthWrite(sig, env, py, k - 1, l);
      CountStep(sig, env, py, k, l);
    }
  }

  lemma NoChild(sig: Callable, env: Env, py: seq<PyVal>, l: nat)
    ensures ChildCell(sig, env, py, 0, l) == Num(0) && LastCount(sig, py, 0, l) == 0
  {
  }

  lemma NoneRefusedBefore(sig: Callable, env: Env, py: seq<PyVal>, k: nat)
    requires k > 0 && NoneRefused(sig, env, py, k)
    ensures NoneRefused(sig, env, py, k - 1)
    ensures Marshalled(sig, k - 1) ==> !Refuses(sig, env, py, k - 1)
  {
    hide Marshalled, Refuses;
  }

  lemma LengthWrite(sig: Callable, env: Env, py: seq<PyVal>, a: nat, l: nat)
    requires Marshalled(sig, a) ==> !Refuses(sig, env, py, a)
    requires sig.Dir(l) == FromPython
    ensures Marshalled(sig, a) && sig.LenAt(a) == l && PyAt(sig, py, a).PySeq? ==>
              Write(sig, env, py, a, l) == Some(Num(PyAt(sig, py, a).len))
  {
    if Marshalled(sig, a) && sig.LenAt(a) == l && PyAt(sig, py, a).PySeq? {
      hide Marshalled, PyAt, Store, Fits;
      StoreSmall(env.lenTag(l), PyAt(sig, py, a).len);
    }
  }

  lemma CountStep(sig: Callable, env: Env, py: seq<PyVal>, k: nat, l: nat)
    requires k > 0
    ensures ChildCell(sig, env, py, k, l) ==
            if Write(sig, env, py, k - 1, l).Some? then Write(sig, env, py, k - 1, l).value
            else ChildCell(sig, env, py, k - 1, l)
    ensures LastCount(sig, py, k, l) ==
            if Marshalled(sig, k - 1) && sig.LenAt(k - 1) == l && PyAt(sig, py, k - 1).PySeq?
              then PyAt(sig, py, k - 1).len else LastCount(sig, py, k - 1, l)
  {
    hide Marshalled, PyAt, Write;
  }

  /** When the cursors passed the slots below `p` and those below `m` were marshalled, the pointer of a length that goes
      in is set exactly if the cursor passed it, and then points at the count of the last sequence with that length,
      whichever array that was passed to. */
  lemma LengthSeen(sig: Callable, t: Table, env: Env, py: seq<PyVal>, p: nat, m: nat, f: Frame, l: nat)
    requires Generated(sig, t) && FrameOk(sig, env, py, p, m, f) && NoneRefused(sig, env, py, m)
    requires l < sig.Slots() && sig.LenOf(sig.Slots(), l) && sig.Dir(l) == FromPython
    ensures SeenCell(f, l) == if l < p then Some(Num(LastCount(sig, py, m, l))) else None
  {
    hide *;
    GeneratedIsWellFormed(sig, t);
    ChildIsPassive(sig, l);
    FrameCell(sig, env, py, p, m, f, l);
    ChildIsLastCount(sig, env, py, m, l);
  }

  lemma FrameCell(sig: Callable, env: Env, py: seq<PyVal>, p: nat, m: nat, f: Frame, l: nat)
    requires FrameOk(sig, env, py, p, m, f) && l < sig.Slots() && sig.Dir(l) == FromPython
    requires !Marshalled(sig, l) && !sig.SelfClosure(l)
    ensures m <= sig.Slots() && SeenCell(f, l) == if l < p then Some(ChildCell(sig, env, py, m, l)) else None
  {
    assert CellOk(sig, env, py, p, m, f, l);
    hide Marshalled, Callable.SelfClosure, ChildCell;
  }

  // ---------------------------------------------------------------- when the recorded cell is wrong

  /** The frame of a call of `LateArray` before its array is marshalled: the rounds of the out-only argument, of the
      length, which is no parent, and the cursor of the array. */
  function LateFrame(t: Table): Frame
    requires |t.slots| == 3 && t.slots[0].Some? && t.slots[1].Some? && t.slots[2].Some?
    requires t.slots[0].value.dir == ToPython && t.slots[1].value.dir == t.slots[2].value.dir == FromPython
    requires t.nFrom == 2 && t.nTo == 1
  {
    var f := StartFrame(LateArray(), t);
    Advance(t.slots[2].value, 2, Advance(t.slots[1].value, 1, Advance(t.slots[0].value, 0, f)))
  }

  lemma LateCounts()
    ensures var sig := LateArray();
            && sig.Slots() == 3 && InIndex(sig, 1) == 0 && InIndex(sig, 2) == 1 && InIndex(sig, 3) == 2
            && OutIndex(sig, 3) == 1 && sig.LenAt(2) == 1 && sig.UserAt(2) == sig.DestroyAt(2) == -1
            && sig.Dir(0) == ToPython && sig.Dir(1) == sig.Dir(2) == FromPython
  {
    var sig := LateArray();
    LateArrayChildren();
    hide LateArray, Callable.Dir, Callable.LenAt, Callable.UserAt, Callable.DestroyAt, Callable.SelfClosure;
    assert Count(Entering(sig), 1) == 0 && Count(Entering(sig), 2) == 1 && Count(Entering(sig), 3) == 2;
    assert Count(Leaving(sig), 1) == 1 && Count(Leaving(sig), 2) == 1 && Count(Leaving(sig), 3) == 1;
  }

  lemma LateTable(t: Table, env: Env)
    requires Generated(LateArray(), t)
    ensures |t.slots| == 3 && t.slots[0].Some? && t.slots[1].Some? && t.slots[2].Some?
    ensures t.slots[0].value.dir == ToPython && t.slots[1].value.dir == t.slots[2].value.dir == FromPython
    ensures t.slots[1].value.cIndex == 1 && t.nFrom == 2 && t.nTo == 1
  {
    hide *;
    LateArrayRoles();
    LateCounts();
    StartOk(LateArray(), t, env, []);
    RecordAt(LateArray(), t, 0);
    RecordAt(LateArray(), t, 1);
    RecordAt(LateArray(), t, 2);
  }

  lemma RecordAt(sig: Callable, t: Table, i: nat)
    requires Generated(sig, t) && i < sig.Slots()
    ensures |t.slots| == sig.Slots() && t.slots[i].Some?
    ensures t.slots[i].value.dir == sig.Dir(i) && t.slots[i].value.cIndex == CIndexAt(sig, i)
  {
    var c := SlotAt(sig, t, i);
  }

  lemma LateStart(t: Table, env: Env)
    requires Generated(LateArray(), t)
    ensures 0 <= t.nFrom && 0 <= t.nTo
    ensures StartFrame(LateArray(), t) == Frame([None, None, None], [ZERO, ZERO], [ZERO], 0, 0)
  {
    hide Generated;
    LateTable(t, env);
    LateCounts();
  }

  /** The array hands its length over to its own cell, which it then overwrites: C receives no length at all. */
  lemma LateLengthIsLost(t: Table, env: Env, v: PyVal)
    requires Generated(LateArray(), t) && v.PySeq? && env.conv(2, v).Some? && Fits(env.lenTag(1), v.len)
    ensures |t.slots| == 3 && t.slots[0].Some? && t.slots[1].Some? && t.slots[2].Some?
    ensures t.slots[0].value.dir == ToPython && t.slots[1].value.dir == t.slots[2].value.dir == FromPython
    ensures t.nFrom == 2 && t.nTo == 1
    ensures ChildrenInRange(LateArray(), t, 2, LateFrame(t)) && InRange(LateFrame(t), InCell(1))
    ensures var r := Marshal(LateArray(), t, env, 2, v, InCell(1), LateFrame(t));
            && r.Ok? && |r.frame.inArgs| == 2 && InIndex(LateArray(), 1) == 0 && InIndex(LateArray(), 2) == 1
            && LateArray().Dir(1) == LateArray().Dir(2) == FromPython
            && Received(LateArray(), r.frame, 1) == ZERO && Received(LateArray(), r.frame, 2) == env.conv(2, v).value
  {
    hide LateArray, Fits, Store, Callable.Dir, Callable.LenAt, Callable.UserAt, Callable.DestroyAt, InIndex;
    hide Callable.Slots, Generated, StartFrame, Callable.Type, LateFrame;
    LateTable(t, env);
    LateCounts();
    LateStart(t, env);
    LateFrameIs(t);
  }

  lemma LateFrameIs(t: Table)
    requires |t.slots| == 3 && t.slots[0].Some? && t.slots[1].Some? && t.slots[2].Some?
    requires t.slots[0].value.dir == ToPython && t.slots[1].value.dir == t.slots[2].value.dir == FromPython
    requires t.nFrom == 2 && t.nTo == 1
    requires StartFrame(LateArray(), t) == Frame([None, None, None], [ZERO, ZERO], [ZERO], 0, 0)
    ensures LateFrame(t) == Frame([Some(OutCell(0)), Some(InCell(0)), Some(InCell(1))], [ZERO, ZERO], [ZERO], 2, 1)
  {
    hide StartFrame, LateArray;
  }
}
