/** The in stage of an invocation, `_invoke_marshal_in_args` in `gi/pygi-invoke.c`, on values. */
module InvokeIn {
  import opened Prelude
  import opened Signature
  import opened CacheTable
  import opened CacheProof
  import opened CacheFacts
  import opened CInts

  /** A Python value, as far as the in stage looks at it. */
  datatype PyVal = PyNone | PySeq(len: nat) | PyObj(id: nat)

  /** One GIArgument cell. A pointer to out value `cell` is what C follows for inout arguments. */
  datatype CVal = Num(raw: int) | OutRef(cell: nat) | Opaque(id: int) | ClosureOf(slot: nat) | NotifyOf(slot: nat)

  const ZERO := Num(0)

  /** Where `state->args[i]` points. */
  datatype Loc = InCell(at: nat) | OutCell(at: nat)

  /** The parts of the run that are not the invoker's: what the type's marshaller makes of a value
      (`None` when it refuses), the integer type of each length argument, and the callback's user data. */
  datatype Env = Env(conv: (int, PyVal) -> Option<CVal>, lenTag: int -> IntTag, userData: CVal)

  datatype Frame = Frame(args: seq<Option<Loc>>, inArgs: seq<CVal>, outValues: seq<CVal>, inCount: nat, outCount: nat)

  datatype Outcome = Ok(frame: Frame) | Refused | TooFew

  predicate InRange(f: Frame, loc: Loc) {
    match loc case InCell(j) => j < |f.inArgs| case OutCell(j) => j < |f.outValues|
  }

  function Poke(f: Frame, loc: Loc, v: CVal): Frame
    requires InRange(f, loc)
  {
    match loc
    case InCell(j) => f.(inArgs := f.inArgs[j := v])
    case OutCell(j) => f.(outValues := f.outValues[j := v])
  }

  /** The length hand-off of `_pygi_marshal_from_py_array` to the child with record `c`. */
  function HandLength(c: ArgCache, tag: IntTag, len: nat, f: Frame): (r: Outcome)
    requires 0 <= c.cIndex < |f.inArgs|
    ensures r.Ok? ==> |r.frame.inArgs| == |f.inArgs| && |r.frame.outValues| == |f.outValues|
  {
    var cell := f.inArgs[c.cIndex];
    if c.dir == Bidirectional && cell.OutRef? && cell.cell < |f.outValues| then
      Ok(Poke(f, OutCell(cell.cell), Num(Store(Int32, len, 0))))
    else if Fits(tag, len) then Ok(Poke(f, InCell(c.cIndex), Num(Store(tag, len, 0))))
    else Refused
  }

  predicate ChildInRange(t: Table, l: int, f: Frame) {
    l == -1 || (0 <= l < |t.slots| && t.slots[l].Some? && 0 <= t.slots[l].value.cIndex < |f.inArgs|)
  }

  /** Writes into the cell recorded for the child at slot `l`, if there is one. */
  function PokeChild(t: Table, l: int, v: CVal, f: Frame): Frame
    requires ChildInRange(t, l, f)
  {
    if l == -1 then f else Poke(f, InCell(t.slots[l].value.cIndex), v)
  }

  predicate ChildrenInRange(sig: Callable, t: Table, i: nat, f: Frame) {
    ChildInRange(t, sig.LenAt(i), f) && ChildInRange(t, sig.UserAt(i), f) && ChildInRange(t, sig.DestroyAt(i), f)
  }

  /** What an accepted value makes the marshaller of slot `i` leave in other slots: the length of a sequence,
      or the closure of a callback in its user data and a notifier in its destroy argument. */
  function HandOff(sig: Callable, t: Table, env: Env, i: nat, v: PyVal, f: Frame): (r: Outcome)
    requires ChildrenInRange(sig, t, i, f)
    ensures r.Ok? ==> |r.frame.inArgs| == |f.inArgs| && |r.frame.outValues| == |f.outValues|
  {
    if sig.LenAt(i) != -1 && v.PySeq? then
      HandLength(t.slots[sig.LenAt(i)].value, env.lenTag(sig.LenAt(i)), v.len, f)
    else if v != PyNone then
      Ok(PokeChild(t, sig.DestroyAt(i), NotifyOf(i), PokeChild(t, sig.UserAt(i), ClosureOf(i), f)))
    else Ok(f)
  }

  /** The from-Python marshaller of slot `i` on `v`, storing into `loc`. */
  function Marshal(sig: Callable, t: Table, env: Env, i: nat, v: PyVal, loc: Loc, f: Frame): Outcome
    requires ChildrenInRange(sig, t, i, f) && InRange(f, loc)
  {
    match env.conv(i, v)
    case None => Refused
    case Some(x) =>
      if sig.Type(i).Array? && v.PyObj? then Refused
      else
        var handed := HandOff(sig, t, env, i, v, f);
        if handed.Ok? then Ok(Poke(handed.frame, loc, x)) else handed
  }

  /** The cursor part of one round: which cell slot `i` owns. */
  function Advance(c: ArgCache, i: nat, f: Frame): Frame
    requires i < |f.args|
    requires c.dir.Enters() ==> f.inCount < |f.inArgs|
    requires c.dir.Leaves() ==> f.outCount < |f.outValues|
  {
    match c.dir
    case FromPython => f.(args := f.args[i := Some(InCell(f.inCount))], inCount := f.inCount + 1)
    case Bidirectional =>
      var preset := f.inArgs[f.inCount];
      f.(args := f.args[i := Some(OutCell(f.outCount))],
         outValues := if preset != ZERO then f.outValues[f.outCount := preset] else f.outValues,
         inArgs := f.inArgs[f.inCount := OutRef(f.outCount)],
         inCount := f.inCount + 1, outCount := f.outCount + 1)
    case ToPython => f.(args := f.args[i := Some(OutCell(f.outCount))], outCount := f.outCount + 1)
  }

  // ---------------------------------------------------------------- the frame in closed form

  ghost function InIndex(sig: Callable, s: nat): nat { Count(Entering(sig), s) }
  ghost function OutIndex(sig: Callable, s: nat): nat { Count(Leaving(sig), s) }

  /** Slot `s` is marshalled from a Python argument of its own. */
  ghost predicate Marshalled(sig: Callable, s: int) {
    0 <= s < sig.Slots() && sig.Dir(s).Enters() && MetaAt(sig, sig.Slots(), s) == Parent
  }

  /** The Python argument of slot `s`. */
  ghost function PyAt(sig: Callable, py: seq<PyVal>, s: nat): PyVal {
    var x := Count(Vis(sig, sig.Slots()), s);
    if x < |py| then py[x] else PyNone
  }

  ghost function Value(sig: Callable, env: Env, py: seq<PyVal>, s: nat): CVal {
    match env.conv(s, PyAt(sig, py, s)) case Some(x) => x case None => ZERO
  }

  /** A length that comes back from C and precedes its array is written through a pointer. */
  ghost predicate ThroughPointer(sig: Callable, a: int, s: int) { s < a && sig.Dir(s) == Bidirectional }

  /** What marshalling slot `a` leaves in its child `s`. */
  ghost function Write(sig: Callable, env: Env, py: seq<PyVal>, a: nat, s: int): Option<CVal> {
    if !Marshalled(sig, a) || s < 0 then None
    else
      var v := PyAt(sig, py, a);
      if sig.LenAt(a) == s && v.PySeq? then
        Some(Num(Store(if ThroughPointer(sig, a, s) then Int32 else env.lenTag(s), v.len, 0)))
      else if sig.DestroyAt(a) == s && v != PyNone then Some(NotifyOf(a))
      else if sig.UserAt(a) == s && v != PyNone then Some(ClosureOf(a))
      else None
  }

  /** What the owners below `k` left for child `s`; the last one wins. */
  ghost function ChildCell(sig: Callable, env: Env, py: seq<PyVal>, k: nat, s: int): CVal {
    if k == 0 then ZERO
    else match Write(sig, env, py, k - 1, s)
      case Some(v) => v
      case None => ChildCell(sig, env, py, k - 1, s)
  }

  /** The in cell of `s` when the cursors passed the slots below `p` and those below `m` were marshalled. */
  ghost function ExpIn(sig: Callable, env: Env, py: seq<PyVal>, p: nat, m: nat, s: nat): CVal {
    if s < p && sig.Dir(s) == Bidirectional then OutRef(OutIndex(sig, s))
    else if s < m && sig.SelfClosure(s) then env.userData
    else if s < m && Marshalled(sig, s) then Value(sig, env, py, s)
    else ChildCell(sig, env, py, m, s)
  }

  ghost function ExpOut(sig: Callable, env: Env, py: seq<PyVal>, p: nat, m: nat, s: nat): CVal {
    if s >= p || sig.Dir(s) != Bidirectional then ZERO
    else if s < m && Marshalled(sig, s) then Value(sig, env, py, s)
    else ChildCell(sig, env, py, m, s)
  }

  ghost function LocOf(sig: Callable, s: nat): Loc {
    if sig.Dir(s) == FromPython then InCell(InIndex(sig, s)) else OutCell(OutIndex(sig, s))
  }

  ghost predicate InOk(sig: Callable, env: Env, py: seq<PyVal>, p: nat, m: nat, f: Frame, s: nat) {
    sig.Dir(s).Enters() ==> InIndex(sig, s) < |f.inArgs| && f.inArgs[InIndex(sig, s)] == ExpIn(sig, env, py, p, m, s)
  }

  ghost predicate OutOk(sig: Callable, env: Env, py: seq<PyVal>, p: nat, m: nat, f: Frame, s: nat) {
    sig.Dir(s).Leaves() ==>
      OutIndex(sig, s) < |f.outValues| && f.outValues[OutIndex(sig, s)] == ExpOut(sig, env, py, p, m, s)
  }

  /** Both cells of slot `s`, as far as it has them. */
  ghost predicate CellOk(sig: Callable, env: Env, py: seq<PyVal>, p: nat, m: nat, f: Frame, s: nat) {
    InOk(sig, env, py, p, m, f, s) && OutOk(sig, env, py, p, m, f, s)
  }

  ghost predicate CellsOk(sig: Callable, env: Env, py: seq<PyVal>, p: nat, m: nat, f: Frame) {
    && |f.inArgs| == InIndex(sig, sig.Slots()) && |f.outValues| == OutIndex(sig, sig.Slots())
    && (forall s: nat :: s < sig.Slots() ==> CellOk(sig, env, py, p, m, f, s))
  }

  ghost predicate FrameOk(sig: Callable, env: Env, py: seq<PyVal>, p: nat, m: nat, f: Frame) {
    && m <= p <= m + 1 && p <= sig.Slots() == |f.args|
    && f.inCount == InIndex(sig, p) && f.outCount == OutIndex(sig, p)
    && (forall s: nat :: s < sig.Slots() ==> f.args[s] == if s < p then Some(LocOf(sig, s)) else None)
    && CellsOk(sig, env, py, p, m, f)
  }

  lemma CellsDistinct(sig: Callable, p: int -> bool, s: nat, r: nat)
    requires p(s) && p(r) && s != r
    ensures Count(p, s) != Count(p, r)
  {
    if s < r { CountMonotone(p, s, r); } else { CountMonotone(p, r, s); }
  }

  /** Nobody writes into a slot that is no child. */
  lemma {:induction false} NoWrites(sig: Callable, env: Env, py: seq<PyVal>, k: nat, s: nat)
    requires k <= sig.Slots() && !sig.ChildOf(sig.Slots(), s)
    ensures ChildCell(sig, env, py, k, s) == ZERO
  {
    if k > 0 {
      NoWrites(sig, env, py, k - 1, s);
      assert sig.LenAt(k - 1) == s ==> sig.LenOf(k, s);
      assert sig.UserAt(k - 1) == s ==> sig.UserOf(k, s);
      assert sig.DestroyAt(k - 1) == s ==> sig.DestroyOf(k, s);
      OfMonotone(sig, k, sig.Slots(), s);
    }
  }

  /** A length shared with nobody stays zero until its own array is marshalled. */
  lemma {:induction false} FirstWrite(sig: Callable, env: Env, py: seq<PyVal>, k: nat, a: nat)
    requires sig.WellFormed() && k <= a < sig.Slots() && sig.LenAt(a) != -1 && sig.Dir(a) == Bidirectional
    ensures ChildCell(sig, env, py, k, sig.LenAt(a)) == ZERO
  {
    if k > 0 {
      FirstWrite(sig, env, py, k - 1, a);
      LengthFacts(sig, a);
      assert sig.LenAt(k - 1) != sig.LenAt(a);
    }
  }

  /** The facts about slot `i` and its record that a round needs. */
  ghost predicate Record(sig: Callable, i: nat, c: ArgCache) {
    i < sig.Slots() && c.dir == sig.Dir(i)
  }

  ghost predicate CursorsInRange(c: ArgCache, f: Frame) {
    (c.dir.Enters() ==> f.inCount < |f.inArgs|) && (c.dir.Leaves() ==> f.outCount < |f.outValues|)
  }

  lemma AdvanceIn(sig: Callable, env: Env, py: seq<PyVal>, c: ArgCache, i: nat, f: Frame, s: nat)
    requires Record(sig, i, c) && CursorsInRange(c, f) && i < |f.args| && f.inCount == InIndex(sig, i)
    requires f.outCount == OutIndex(sig, i)
    requires InOk(sig, env, py, i, i, f, s)
    ensures InOk(sig, env, py, i + 1, i, Advance(c, i, f), s)
  {
    if s != i && sig.Dir(i).Enters() && sig.Dir(s).Enters() {
      CellsDistinct(sig, Entering(sig), s, i);
    }
    hide Count;
  }

  lemma AdvanceOut(sig: Callable, env: Env, py: seq<PyVal>, c: ArgCache, i: nat, f: Frame, s: nat)
    requires Record(sig, i, c) && CursorsInRange(c, f) && i < |f.args| && f.inCount == InIndex(sig, i)
    requires f.outCount == OutIndex(sig, i)
    requires OutOk(sig, env, py, i, i, f, s) && InOk(sig, env, py, i, i, f, i)
    ensures OutOk(sig, env, py, i + 1, i, Advance(c, i, f), s)
  {
    if s != i && sig.Dir(i).Leaves() && sig.Dir(s).Leaves() {
      CellsDistinct(sig, Leaving(sig), s, i);
    }
    hide Count;
  }

  /** The cursor of one round moves to the cell the closed form names. */
  lemma AdvanceOk(sig: Callable, env: Env, py: seq<PyVal>, c: ArgCache, i: nat, f: Frame)
    requires Record(sig, i, c) && FrameOk(sig, env, py, i, i, f)
    ensures CursorsInRange(c, f) && FrameOk(sig, env, py, i + 1, i, Advance(c, i, f))
  {
    CountMonotone(Entering(sig), i, sig.Slots());
    CountMonotone(Leaving(sig), i, sig.Slots());
    var g := Advance(c, i, f);
    assert CellOk(sig, env, py, i, i, f, i);
    var j := i + 1;
    forall s: nat | s < sig.Slots() ensures CellOk(sig, env, py, j, i, g, s)
    {
      assert CellOk(sig, env, py, i, i, f, s);
      AdvanceIn(sig, env, py, c, i, f, s);
      AdvanceOut(sig, env, py, c, i, f, s);
    }
    hide InOk, OutOk, CellOk;
  }

  // ---------------------------------------------------------------- marshalling one slot

  /** The one condition under which the recorded child cells are the ones the cursors reach:
      no out-only argument precedes a length that itself precedes its array. */
  ghost predicate CellsAgree(sig: Callable) {
    forall l: nat :: l < sig.Slots() && sig.LenOf(sig.Slots(), l) && sig.Dir(l).Enters() && !sig.ChildOf(l, l)
                     ==> AllEnterBelow(sig, l)
  }

  /** The record of child `l` names the cell of its position. */
  ghost predicate ChildOk(sig: Callable, t: Table, l: int, dir: Direction) {
    l == -1 ||
    (&& 0 <= l < sig.Slots() == |t.slots| && t.slots[l].Some?
     && t.slots[l].value.cIndex == InIndex(sig, l) && t.slots[l].value.dir == sig.Dir(l) == dir
     && InIndex(sig, l) < InIndex(sig, sig.Slots()) && !Marshalled(sig, l) && !sig.SelfClosure(l))
  }

  lemma ChildIsOk(sig: Callable, t: Table, l: nat)
    requires Generated(sig, t) && CellsAgree(sig) && l < sig.Slots() && sig.Dir(l).Enters()
    requires sig.ChildOf(sig.Slots(), l) && (sig.LenOf(sig.Slots(), l) || sig.ChildOf(l, l))
    ensures ChildOk(sig, t, l, sig.Dir(l))
  {
    var c := SlotAt(sig, t, l);
    ChildCellAgrees(sig, t, l);
    ChildFacts(sig, sig.Slots(), l);
    CountMonotone(Entering(sig), l, sig.Slots());
    assert MetaAt(sig, sig.Slots(), l) != Parent;
  }

  ghost predicate ChildrenOk(sig: Callable, t: Table, i: nat) {
    && ChildOk(sig, t, sig.LenAt(i), sig.Dir(i)) && ChildOk(sig, t, sig.UserAt(i), FromPython)
    && ChildOk(sig, t, sig.DestroyAt(i), FromPython)
    && (sig.LenAt(i) != -1 ==> sig.UserAt(i) == sig.DestroyAt(i) == -1)
    && (sig.UserAt(i) != -1 ==> sig.UserAt(i) != sig.DestroyAt(i))
    && sig.LenAt(i) != i && sig.UserAt(i) != i && sig.DestroyAt(i) != i
  }

  lemma ChildrenAreOk(sig: Callable, t: Table, i: nat)
    requires Generated(sig, t) && CellsAgree(sig) && Marshalled(sig, i)
    ensures ChildrenOk(sig, t, i)
  {
    hide CellsAgree, ChildOk;
    CallbackFacts(sig, i);
    LengthChildOk(sig, t, i);
    ClosureChildOk(sig, t, i, sig.UserAt(i));
    ClosureChildOk(sig, t, i, sig.DestroyAt(i));
    if sig.LenAt(i) != -1 {
      LengthFacts(sig, i);
    }
  }

  lemma LengthChildOk(sig: Callable, t: Table, i: nat)
    requires Generated(sig, t) && CellsAgree(sig) && Marshalled(sig, i)
    ensures ChildOk(sig, t, sig.LenAt(i), sig.Dir(i))
  {
    hide CellsAgree;
    var l := sig.LenAt(i);
    if l != -1 {
      hide ChildOk;
      LengthFacts(sig, i);
      assert sig.LenOf(i + 1, l);
      OfMonotone(sig, i + 1, sig.Slots(), l);
      ChildIsOk(sig, t, l);
    }
  }

  lemma ClosureChildOk(sig: Callable, t: Table, i: nat, d: int)
    requires Generated(sig, t) && CellsAgree(sig) && Marshalled(sig, i) && (d == sig.UserAt(i) || d == sig.DestroyAt(i))
    ensures ChildOk(sig, t, d, FromPython)
  {
    hide CellsAgree;
    CallbackFacts(sig, i);
    if d != -1 {
      hide ChildOk;
      CallbackChild(sig, i, d);
      OfMonotone(sig, i + 1, d, d);
      OfMonotone(sig, i + 1, sig.Slots(), d);
      ChildIsOk(sig, t, d);
    }
  }

  /** Slot `i` refuses its value: its marshaller does, or the length does not fit the length argument. */
  ghost predicate Refuses(sig: Callable, env: Env, py: seq<PyVal>, i: nat) {
    var v := PyAt(sig, py, i);
    || env.conv(i, v).None? || (sig.Type(i).Array? && v.PyObj?)
    || (sig.LenAt(i) != -1 && v.PySeq? && !ThroughPointer(sig, i, sig.LenAt(i))
        && !Fits(env.lenTag(sig.LenAt(i)), v.len))
  }

  /** An inout length is written through its pointer exactly when the cursor already passed it. */
  lemma LengthCell(sig: Callable, t: Table, env: Env, py: seq<PyVal>, i: nat, f: Frame)
    requires sig.WellFormed() && Marshalled(sig, i) && sig.LenAt(i) != -1 && ChildrenOk(sig, t, i)
    requires FrameOk(sig, env, py, i + 1, i, f)
    ensures LengthReady(sig, i, f)
  {
    var l := sig.LenAt(i);
    assert CellOk(sig, env, py, i + 1, i, f, l);
    if sig.Dir(l) == Bidirectional {
      CountMonotone(Leaving(sig), l, sig.Slots());
      FirstWrite(sig, env, py, i, i);
    }
  }

  ghost predicate LengthReady(sig: Callable, i: nat, f: Frame) {
    var l := sig.LenAt(i);
    l > -1 && sig.Dir(l) == Bidirectional ==>
      && InIndex(sig, l) < |f.inArgs|
      && if l < i then f.inArgs[InIndex(sig, l)] == OutRef(OutIndex(sig, l)) && OutIndex(sig, l) < |f.outValues|
         else f.inArgs[InIndex(sig, l)] == ZERO
  }

  /** The frame before slot `i` is marshalled, as far as one hand-off needs it. */
  ghost predicate Ready(sig: Callable, t: Table, i: nat, f: Frame) {
    Marshalled(sig, i) && ChildrenOk(sig, t, i) && ChildrenInRange(sig, t, i, f) && LengthReady(sig, i, f)
  }

  lemma HandLengthIn(sig: Callable, t: Table, env: Env, py: seq<PyVal>, i: nat, f: Frame, s: nat)
    requires Ready(sig, t, i, f) && sig.LenAt(i) != -1 && PyAt(sig, py, i).PySeq?
    requires HandOff(sig, t, env, i, PyAt(sig, py, i), f).Ok? && s != i
    requires InOk(sig, env, py, i + 1, i, f, s)
    ensures InOk(sig, env, py, i + 1, i + 1, HandOff(sig, t, env, i, PyAt(sig, py, i), f).frame, s)
  {
    var l := sig.LenAt(i);
    if l != s && sig.Dir(s).Enters() { CellsDistinct(sig, Entering(sig), s, l); }
    hide Count, Store, Fits;
    assert s != l ==> Write(sig, env, py, i, s).None?;
  }

  lemma HandClosureIn(sig: Callable, t: Table, env: Env, py: seq<PyVal>, i: nat, f: Frame, s: nat)
    requires Ready(sig, t, i, f) && !(sig.LenAt(i) != -1 && PyAt(sig, py, i).PySeq?)
    requires s != i && InOk(sig, env, py, i + 1, i, f, s)
    ensures InOk(sig, env, py, i + 1, i + 1, HandOff(sig, t, env, i, PyAt(sig, py, i), f).frame, s)
  {
    var u, d := sig.UserAt(i), sig.DestroyAt(i);
    if u != -1 && u != s && sig.Dir(s).Enters() { CellsDistinct(sig, Entering(sig), s, u); }
    if d != -1 && d != s && sig.Dir(s).Enters() { CellsDistinct(sig, Entering(sig), s, d); }
    hide Count;
    assert s != u && s != d ==> Write(sig, env, py, i, s).None?;
  }

  lemma HandOffOut(sig: Callable, t: Table, env: Env, py: seq<PyVal>, i: nat, f: Frame, s: nat)
    requires Ready(sig, t, i, f) && HandOff(sig, t, env, i, PyAt(sig, py, i), f).Ok? && s != i
    requires OutOk(sig, env, py, i + 1, i, f, s)
    ensures OutOk(sig, env, py, i + 1, i + 1, HandOff(sig, t, env, i, PyAt(sig, py, i), f).frame, s)
  {
    var l := sig.LenAt(i);
    if l != -1 && l != s && sig.Dir(l).Leaves() && sig.Dir(s).Leaves() { CellsDistinct(sig, Leaving(sig), s, l); }
    hide Count, Store, Fits;
    if sig.Dir(s) == Bidirectional && s != l {
      assert Write(sig, env, py, i, s).None?;
    }
  }

  /** The hand-off leaves the slot's own cell alone. */
  lemma OwnCell(sig: Callable, t: Table, env: Env, py: seq<PyVal>, i: nat, f: Frame)
    requires Ready(sig, t, i, f) && HandOff(sig, t, env, i, PyAt(sig, py, i), f).Ok? && InIndex(sig, i) < |f.inArgs|
    ensures HandOff(sig, t, env, i, PyAt(sig, py, i), f).frame.inArgs[InIndex(sig, i)] == f.inArgs[InIndex(sig, i)]
  {
    var l, u, d := sig.LenAt(i), sig.UserAt(i), sig.DestroyAt(i);
    if l != -1 { CellsDistinct(sig, Entering(sig), i, l); }
    if u != -1 { CellsDistinct(sig, Entering(sig), i, u); }
    if d != -1 { CellsDistinct(sig, Entering(sig), i, d); }
    hide Count, Store, Fits;
  }

  lemma MarshalIn(sig: Callable, t: Table, env: Env, py: seq<PyVal>, i: nat, f: Frame, s: nat)
    requires Ready(sig, t, i, f) && InRange(f, LocOf(sig, i))
    requires Marshal(sig, t, env, i, PyAt(sig, py, i), LocOf(sig, i), f).Ok?
    requires InOk(sig, env, py, i + 1, i, f, s)
    ensures InOk(sig, env, py, i + 1, i + 1, Marshal(sig, t, env, i, PyAt(sig, py, i), LocOf(sig, i), f).frame, s)
  {
    if s != i {
      if sig.LenAt(i) != -1 && PyAt(sig, py, i).PySeq? {
        HandLengthIn(sig, t, env, py, i, f, s);
      } else {
        HandClosureIn(sig, t, env, py, i, f, s);
      }
      if sig.Dir(s).Enters() { CellsDistinct(sig, Entering(sig), s, i); }
      hide HandOff, ExpIn, Count, Ready;
    } else {
      OwnCell(sig, t, env, py, i, f);
      hide HandOff, Count, Ready;
    }
  }

  lemma MarshalOut(sig: Callable, t: Table, env: Env, py: seq<PyVal>, i: nat, f: Frame, s: nat)
    requires Ready(sig, t, i, f) && InRange(f, LocOf(sig, i))
    requires Marshal(sig, t, env, i, PyAt(sig, py, i), LocOf(sig, i), f).Ok?
    requires OutOk(sig, env, py, i + 1, i, f, s)
    ensures OutOk(sig, env, py, i + 1, i + 1, Marshal(sig, t, env, i, PyAt(sig, py, i), LocOf(sig, i), f).frame, s)
  {
    if s != i {
      HandOffOut(sig, t, env, py, i, f, s);
      if sig.Dir(i).Leaves() && sig.Dir(s).Leaves() { CellsDistinct(sig, Leaving(sig), s, i); }
      hide HandOff, ExpOut, Count, Ready;
    } else {
      hide HandOff, Count, Ready;
    }
  }

  lemma IsReady(sig: Callable, t: Table, env: Env, py: seq<PyVal>, i: nat, f: Frame)
    requires Generated(sig, t) && CellsAgree(sig) && Marshalled(sig, i) && FrameOk(sig, env, py, i + 1, i, f)
    ensures Ready(sig, t, i, f) && InRange(f, LocOf(sig, i))
  {
    ChildrenAreOk(sig, t, i);
    CountMonotone(Entering(sig), i, sig.Slots());
    CountMonotone(Leaving(sig), i, sig.Slots());
    if sig.LenAt(i) != -1 { LengthCell(sig, t, env, py, i, f); }
  }

  lemma MarshalOutcome(sig: Callable, t: Table, env: Env, py: seq<PyVal>, i: nat, f: Frame)
    requires Ready(sig, t, i, f) && InRange(f, LocOf(sig, i))
    ensures var r := Marshal(sig, t, env, i, PyAt(sig, py, i), LocOf(sig, i), f);
            if Refuses(sig, env, py, i) then r == Refused
            else r.Ok? && var h := r.frame;
                 h.args == f.args && h.inCount == f.inCount && h.outCount == f.outCount
                 && |h.inArgs| == |f.inArgs| && |h.outValues| == |f.outValues|
  {
    hide Count, Store, Fits;
  }

  lemma MarshalOk(sig: Callable, t: Table, env: Env, py: seq<PyVal>, i: nat, f: Frame)
    requires FrameOk(sig, env, py, i + 1, i, f) && Ready(sig, t, i, f) && InRange(f, LocOf(sig, i))
    ensures var r := Marshal(sig, t, env, i, PyAt(sig, py, i), LocOf(sig, i), f);
            if Refuses(sig, env, py, i) then r == Refused
            else r.Ok? && FrameOk(sig, env, py, i + 1, i + 1, r.frame)
  {
    MarshalOutcome(sig, t, env, py, i, f);
    if !Refuses(sig, env, py, i) {
      var h := Marshal(sig, t, env, i, PyAt(sig, py, i), LocOf(sig, i), f).frame;
      var j := i + 1;
      forall s: nat | s < sig.Slots() ensures CellOk(sig, env, py, j, j, h, s)
      {
        assert CellOk(sig, env, py, i + 1, i, f, s);
        hide InOk, OutOk, Marshal;
        MarshalIn(sig, t, env, py, i, f, s);
        MarshalOut(sig, t, env, py, i, f, s);
      }
      hide InOk, OutOk, CellOk, Marshal, Ready, Refuses;
    }
  }

  /** A slot that is not marshalled writes nothing but, for a self-closure, the callback's user data. */
  lemma SkipOk(sig: Callable, env: Env, py: seq<PyVal>, i: nat, f: Frame)
    requires i < sig.Slots() && !Marshalled(sig, i) && FrameOk(sig, env, py, i + 1, i, f)
    requires InRange(f, LocOf(sig, i))
    ensures FrameOk(sig, env, py, i + 1, i + 1,
                    if sig.SelfClosure(i) then Poke(f, LocOf(sig, i), env.userData) else f)
  {
    var h := if sig.SelfClosure(i) then Poke(f, LocOf(sig, i), env.userData) else f;
    var j := i + 1;
    forall s: nat | s < sig.Slots() ensures CellOk(sig, env, py, j, j, h, s)
    {
      assert CellOk(sig, env, py, i + 1, i, f, s);
      if s != i && sig.SelfClosure(i) && sig.Dir(s).Enters() { CellsDistinct(sig, Entering(sig), s, i); }
      hide Count, FrameOk;
    }
    hide InOk, OutOk, CellOk;
  }

  // ---------------------------------------------------------------- the whole in stage

  function StartFrame(sig: Callable, t: Table): Frame
    requires 0 <= t.nFrom && 0 <= t.nTo
  {
    Frame(seq(sig.Slots(), i => None), seq(t.nFrom, i => ZERO), seq(t.nTo, i => ZERO), 0, 0)
  }

  lemma StartOk(sig: Callable, t: Table, env: Env, py: seq<PyVal>)
    requires Generated(sig, t)
    ensures t.nFrom == InIndex(sig, sig.Slots()) && t.nTo == OutIndex(sig, sig.Slots())
    ensures FrameOk(sig, env, py, 0, 0, StartFrame(sig, t))
  {
    var f := StartFrame(sig, t);
    forall s: nat | s < sig.Slots() ensures CellOk(sig, env, py, 0, 0, f, s) {
      CountMonotone(Entering(sig), s, sig.Slots());
      CountMonotone(Leaving(sig), s, sig.Slots());
    }
  }

  /** The argument C finds for slot `s`: its cell, or what the cell points at. */
  ghost function Received(sig: Callable, f: Frame, s: nat): CVal
    requires sig.Dir(s).Enters()
    requires InIndex(sig, s) < |f.inArgs| && (sig.Dir(s) == Bidirectional ==> OutIndex(sig, s) < |f.outValues|)
  {
    if sig.Dir(s) == Bidirectional then f.outValues[OutIndex(sig, s)] else f.inArgs[InIndex(sig, s)]
  }

  /** After a complete in stage both cursors are at their ends, every argument C receives is its own Python
      argument's value, every child what its last owner left, and inout cells point at their own out value. */
  lemma InStageResult(sig: Callable, t: Table, env: Env, py: seq<PyVal>, f: Frame)
    requires Generated(sig, t) && FrameOk(sig, env, py, sig.Slots(), sig.Slots(), f)
    ensures f.inCount == t.nFrom == |f.inArgs| && f.outCount == t.nTo == |f.outValues|
    ensures forall s: nat :: s < sig.Slots() && sig.Dir(s).Enters() ==>
              && InIndex(sig, s) < |f.inArgs| && (sig.Dir(s) == Bidirectional ==> OutIndex(sig, s) < |f.outValues|)
              && (sig.Dir(s) == Bidirectional ==> f.inArgs[InIndex(sig, s)] == OutRef(OutIndex(sig, s)))
              && Received(sig, f, s) == if sig.SelfClosure(s) then env.userData
                                        else if Marshalled(sig, s) then Value(sig, env, py, s)
                                        else ChildCell(sig, env, py, sig.Slots(), s)
  {
    forall s: nat | s < sig.Slots() && sig.Dir(s).Enters()
      ensures InIndex(sig, s) < |f.inArgs| && (sig.Dir(s) == Bidirectional ==> OutIndex(sig, s) < |f.outValues|)
      ensures sig.Dir(s) == Bidirectional ==> f.inArgs[InIndex(sig, s)] == OutRef(OutIndex(sig, s))
      ensures Received(sig, f, s) == if sig.SelfClosure(s) then env.userData
                                     else if Marshalled(sig, s) then Value(sig, env, py, s)
                                     else ChildCell(sig, env, py, sig.Slots(), s)
    {
      assert CellOk(sig, env, py, sig.Slots(), sig.Slots(), f, s);
      if sig.SelfClosure(s) {
        assert !Marshalled(sig, s);
      }
    }
  }

  /** Where the pointers in `state->args` lead after the in stage: to the cell C receives, for an argument that only
      goes in; to the out value C finds through the in cell, for one that goes both ways; no two to the same cell. */
  lemma PointersApart(sig: Callable, t: Table, env: Env, py: seq<PyVal>, f: Frame, r: nat, s: nat)
    requires Generated(sig, t) && FrameOk(sig, env, py, sig.Slots(), sig.Slots(), f)
    requires r < sig.Slots() && s < sig.Slots()
    ensures |f.args| == sig.Slots() && f.args[s].Some? && InRange(f, f.args[s].value)
    ensures sig.Dir(s) == FromPython ==>
              f.args[s].value.InCell? && f.inArgs[f.args[s].value.at] == Received(sig, f, s)
    ensures sig.Dir(s) == ToPython ==> f.args[s].value.OutCell? && f.outValues[f.args[s].value.at] == ZERO
    ensures sig.Dir(s) == Bidirectional ==>
              && f.args[s].value.OutCell? && InIndex(sig, s) < |f.inArgs|
              && f.inArgs[InIndex(sig, s)] == OutRef(f.args[s].value.at)
    ensures r != s ==> f.args[r] != f.args[s]
  {
    assert CellOk(sig, env, py, sig.Slots(), sig.Slots(), f, s);
    if r != s && sig.Dir(r).Leaves() && sig.Dir(s).Leaves() { CellsDistinct(sig, Leaving(sig), s, r); }
    if r != s && sig.Dir(r).Enters() && sig.Dir(s).Enters() { CellsDistinct(sig, Entering(sig), s, r); }
    hide Count;
  }

  lemma {:induction false} LastWrite(sig: Callable, env: Env, py: seq<PyVal>, k: nat, a: nat, s: int)
    requires a < k && Write(sig, env, py, a, s).Some?
    requires forall b :: a < b < k ==> Write(sig, env, py, b, s).None?
    ensures ChildCell(sig, env, py, k, s) == Write(sig, env, py, a, s).value
  {
    if a < k - 1 {
      assert Write(sig, env, py, k - 1, s).None?;
      LastWrite(sig, env, py, k - 1, a, s);
    }
  }

  /** The length C reads for the sequence passed in slot `a`, when no later array overwrites it.
      A length after its array, or one that only goes in, is checked against its type; an inout length
      before its array is not: it arrives exactly when it fits its type and 32 bits. */
  lemma LengthReceived(sig: Callable, t: Table, env: Env, py: seq<PyVal>, f: Frame, a: nat)
    requires Generated(sig, t) && FrameOk(sig, env, py, sig.Slots(), sig.Slots(), f)
    requires Marshalled(sig, a) && sig.LenAt(a) != -1 && PyAt(sig, py, a).PySeq? && !Refuses(sig, env, py, a)
    requires forall b :: a < b < sig.Slots() && sig.LenAt(b) == sig.LenAt(a) ==> !PyAt(sig, py, b).PySeq?
    ensures var l, n := sig.LenAt(a), PyAt(sig, py, a).len;
            && 0 <= l < sig.Slots() && sig.Dir(l).Enters()
            && InIndex(sig, l) < |f.inArgs| && (sig.Dir(l) == Bidirectional ==> OutIndex(sig, l) < |f.outValues|)
            && Received(sig, f, l).Num?
            && (!ThroughPointer(sig, a, l) ==> Load(env.lenTag(l), Received(sig, f, l).raw) == n)
            && (ThroughPointer(sig, a, l) ==>
                  (Load(env.lenTag(l), Received(sig, f, l).raw) == n <==> Fits(env.lenTag(l), n) && n < 0x1_0000_0000))
  {
    var l, n := sig.LenAt(a), PyAt(sig, py, a).len;
    hide *;
    GeneratedIsWellFormed(sig, t);
    MarshalledSlot(sig, a);
    LengthOwned(sig, a);
    LengthWritten(sig, env, py, a);
    forall b: nat | a < b < sig.Slots() ensures Write(sig, env, py, b, l).None? {
      OnlyArraysWrite(sig, env, py, b, l);
    }
    InStageResult(sig, t, env, py, f);
    LastWrite(sig, env, py, sig.Slots(), a, l);
    StoreLoad(env.lenTag(l), n, 0);
    StoreThroughGint(env.lenTag(l), n);
  }

  lemma MarshalledSlot(sig: Callable, a: int)
    requires Marshalled(sig, a)
    ensures 0 <= a < sig.Slots() && sig.Dir(a).Enters()
  {
  }

  lemma LengthOwned(sig: Callable, a: nat)
    requires sig.WellFormed() && a < sig.Slots() && sig.LenAt(a) != -1
    ensures var l := sig.LenAt(a);
            && 0 <= l < sig.Slots() && sig.Dir(l) == sig.Dir(a) && sig.LenOf(sig.Slots(), l)
            && !Marshalled(sig, l) && !sig.SelfClosure(l)
  {
    LengthFacts(sig, a);
    hide Callable.WellFormed;
    assert sig.LenOf(a + 1, sig.LenAt(a));
    OfMonotone(sig, a + 1, sig.Slots(), sig.LenAt(a));
  }

  lemma LengthWritten(sig: Callable, env: Env, py: seq<PyVal>, a: nat)
    requires Marshalled(sig, a) && sig.LenAt(a) >= 0 && PyAt(sig, py, a).PySeq? && !Refuses(sig, env, py, a)
    ensures var l, n := sig.LenAt(a), PyAt(sig, py, a).len;
            var through := ThroughPointer(sig, a, l);
            && Write(sig, env, py, a, l) == Some(Num(Store(if through then Int32 else env.lenTag(l), n, 0)))
            && (!through ==> Fits(env.lenTag(l), n))
  {
    hide Marshalled, PyAt, Store, Fits;
  }

  lemma {:induction false} NeverWritten(sig: Callable, env: Env, py: seq<PyVal>, k: nat, l: int)
    requires forall b :: 0 <= b < k ==> Write(sig, env, py, b, l).None?
    ensures ChildCell(sig, env, py, k, l) == ZERO
  {
    if k > 0 {
      assert Write(sig, env, py, k - 1, l).None?;
      NeverWritten(sig, env, py, k - 1, l);
    }
  }

  /** The length C receives is zero when every array it serves was passed None. */
  lemma LengthOfNone(sig: Callable, t: Table, env: Env, py: seq<PyVal>, f: Frame, l: nat)
    requires Generated(sig, t) && FrameOk(sig, env, py, sig.Slots(), sig.Slots(), f)
    requires l < sig.Slots() && sig.LenOf(sig.Slots(), l) && sig.Dir(l).Enters()
    requires forall a :: Marshalled(sig, a) && sig.LenAt(a) == l ==> PyAt(sig, py, a) == PyNone
    ensures InIndex(sig, l) < |f.inArgs| && (sig.Dir(l) == Bidirectional ==> OutIndex(sig, l) < |f.outValues|)
    ensures Received(sig, f, l) == ZERO && Load(env.lenTag(l), Received(sig, f, l).raw) == 0
  {
    hide *;
    GeneratedIsWellFormed(sig, t);
    ChildIsPassive(sig, l);
    forall b: nat | b < sig.Slots() ensures Write(sig, env, py, b, l).None? {
      OnlyArraysWrite(sig, env, py, b, l);
    }
    InStageResult(sig, t, env, py, f);
    NeverWritten(sig, env, py, sig.Slots(), l);
    LoadZero(env.lenTag(l));
  }

  lemma GeneratedIsWellFormed(sig: Callable, t: Table)
    requires Generated(sig, t)
    ensures sig.WellFormed()
  {
    hide Callable.WellFormed;
  }

  /** A child is neither marshalled from an argument of its own nor a self-closure. */
  lemma ChildIsPassive(sig: Callable, l: nat)
    requires sig.WellFormed() && l < sig.Slots() && sig.LenOf(sig.Slots(), l)
    ensures !Marshalled(sig, l) && !sig.SelfClosure(l)
  {
    ChildFacts(sig, sig.Slots(), l);
  }

  lemma LoadZero(tag: IntTag)
    ensures ZERO.Num? && Load(tag, ZERO.raw) == 0
  {
  }

  /** Only the sequences it serves write into a length. */
  lemma OnlyArraysWrite(sig: Callable, env: Env, py: seq<PyVal>, b: nat, l: nat)
    requires sig.WellFormed() && b < sig.Slots() && l < sig.Slots() && sig.LenOf(sig.Slots(), l)
    ensures Write(sig, env, py, b, l).Some? ==> Marshalled(sig, b) && sig.LenAt(b) == l && PyAt(sig, py, b).PySeq?
  {
    ChildFacts(sig, sig.Slots(), l);
    if sig.UserAt(b) == l || sig.DestroyAt(b) == l {
      CallbackChild(sig, b, l);
      CallbackIsChild(sig, b, l);
    }
  }

  lemma CallbackIsChild(sig: Callable, b: nat, l: nat)
    requires sig.WellFormed() && b < sig.Slots() && (sig.UserAt(b) == l || sig.DestroyAt(b) == l)
    ensures sig.UserOf(sig.Slots(), l) || sig.DestroyOf(sig.Slots(), l)
  {
    assert sig.UserAt(b) == l ==> sig.UserOf(b + 1, l);
    assert sig.DestroyAt(b) == l ==> sig.DestroyOf(b + 1, l);
    OfMonotone(sig, b + 1, sig.Slots(), l);
  }
}
