/** The argument table built by `_args_cache_generate` in `gi/pygi-cache.c`, step by step on values. */
module CacheTable {
  import opened Prelude
  import opened Signature

  datatype MetaType = Parent | Child | ChildNeedsUpdate | ChildWithPyArg | Closure

  /** `marshals` says that a from-Python marshaller is set. */
  datatype ArgCache = ArgCache(meta: MetaType, dir: Direction, name: Option<string>,
                               cIndex: int, pyIndex: int, marshals: bool)

  /** A zeroed record. */
  const BLANK := ArgCache(Parent, ToPython, None, 0, 0, false)

  /** `toPy` holds the slot of each entry of `to_py_args`. */
  datatype Table = Table(slots: seq<Option<ArgCache>>, nPy: int, nFrom: int, nTo: int, nToChild: int, toPy: seq<int>)

  function HideLength(t: Table, len: nat, meta: MetaType, dir: Direction): Table
    requires len < |t.slots|
  {
    var child := match t.slots[len] case None => BLANK case Some(c) => c;
    t.(slots := t.slots[len := Some(child.(meta := meta, dir := dir, marshals := false))])
  }

  predicate AlreadyHidden(o: Option<ArgCache>) {
    o.Some? && (o.value.meta == Child || o.value.meta == ChildNeedsUpdate)
  }

  /** `_arg_cache_from_py_array_setup` */
  function FromArraySetup(t: Table, len: int, at: int, dir: Direction): Table
    requires len < |t.slots|
  {
    if len < 0 || AlreadyHidden(t.slots[len]) then t
    else HideLength(t, len, if len < at then ChildNeedsUpdate else Child, dir)
  }

  /** `_arg_cache_to_py_array_setup` */
  function ToArraySetup(t: Table, len: int, at: int, dir: Direction): Table
    requires len < |t.slots|
  {
    if len < 0 then t
    else
      var t1 := if len < at then t.(nToChild := t.nToChild + 1) else t;
      var t2 := if t.slots[len].Some? then t1.(toPy := RemoveOne(t.toPy, len)) else t1;
      if AlreadyHidden(t.slots[len]) then t2 else HideLength(t2, len, Child, dir)
  }

  /** Decrements the Python index of the slots from `i` up to the first empty one. */
  function Renumber(slots: seq<Option<ArgCache>>, i: nat): (r: seq<Option<ArgCache>>)
    ensures |r| == |slots|
    decreases |slots| - i
  {
    if i >= |slots| || slots[i].None? then slots
    else Renumber(slots[i := Some(slots[i].value.(pyIndex := slots[i].value.pyIndex - 1))], i + 1)
  }

  predicate NeedsUpdate(t: Table, len: int)
    requires len < |t.slots|
  {
    len > -1 && t.slots[len].Some? && t.slots[len].value.meta == ChildNeedsUpdate
  }

  /** The length came first: it gives its Python position up. */
  function LengthCameFirst(t: Table, len: nat): Table
    requires len < |t.slots| && t.slots[len].Some?
  {
    var shown := t.slots[len := Some(t.slots[len].value.(meta := Child))];
    t.(slots := Renumber(shown, len + 1), nPy := t.nPy - 1)
  }

  function ArraySetup(t: Table, len: int, at: int, dir: Direction): (r: (Table, int))
    requires len < |t.slots|
  {
    var t1 := if dir.Enters() then FromArraySetup(t, len, at, dir) else t;
    var t2 := if dir.Leaves() then ToArraySetup(t1, len, at, dir) else t1;
    if NeedsUpdate(t2, len) then (LengthCameFirst(t2, len), -1) else (t2, 0)
  }

  /** `_arg_cache_from_py_interface_callback_setup` */
  function CallbackSetup(t: Table, user: int, destroy: int): Table
    requires user < |t.slots| && destroy < |t.slots|
  {
    var t1 := if user < 0 then t
              else t.(slots := t.slots[user := Some(BLANK.(meta := ChildWithPyArg, dir := FromPython))]);
    if destroy < 0 then t1
    else t1.(slots := t1.slots[destroy := Some(BLANK.(meta := Child, dir := FromPython))])
  }

  /** `_arg_cache_new` for slot `k` (-1 for the return value); `None` when the type is refused. */
  function NewArgCache(sig: Callable, k: int, t: Table, pyIndex: int): (r: Option<(Table, ArgCache)>)
    requires -1 <= k < sig.Slots() == |t.slots| && sig.WellFormed()
    ensures r.Some? ==> |r.value.0.slots| == |t.slots|
  {
    var dir := sig.Dir(k);
    var cache := BLANK.(dir := dir, cIndex := k, pyIndex := pyIndex, marshals := dir.Enters());
    if !sig.Type(k).Cached(dir) then None
    else match sig.Type(k)
      case GError => Some((t, cache.(meta := Child)))
      case Array(_, _) =>
        var (t', shift) := ArraySetup(t, sig.LenAt(k), k, dir);
        Some((t', cache.(pyIndex := pyIndex + shift)))
      case Callback => Some((CallbackSetup(t, sig.UserAt(k), sig.DestroyAt(k)), cache))
      case _ => Some((t, cache))
  }

  /** The start: the zeroed table after the return value and the instance were cached. */
  function Start(sig: Callable): Option<Table>
    requires sig.WellFormed()
  {
    var empty := Table(seq(sig.Slots(), i => None), 0, 0, 0, 0, []);
    match NewArgCache(sig, -1, empty, -1)
    case None => None
    case Some((t, _)) =>
      if sig.Offset() == 0 then Some(t)
      else Some(t.(slots := t.slots[0 := Some(BLANK.(dir := FromPython, marshals := true))],
                   nPy := t.nPy + 1, nFrom := t.nFrom + 1))
  }

  /** A slot filled ahead of time by its owner. */
  function ReachChild(sig: Callable, k: nat, t: Table): Table
    requires k < sig.Slots() == |t.slots| && t.slots[k].Some?
  {
    var c, dir := t.slots[k].value, sig.Dir(k);
    var c1 := if c.meta == ChildWithPyArg then c.(pyIndex := t.nPy) else c;
    var c2 := if dir.Enters() then c1.(cIndex := t.nFrom) else c1;
    Table(t.slots[k := Some(c2)],
          t.nPy + (if c.meta == ChildWithPyArg then 1 else 0),
          t.nFrom + (if dir.Enters() then 1 else 0),
          t.nTo + (if dir.Leaves() then 1 else 0),
          t.nToChild + (if dir.Leaves() then 1 else 0),
          t.toPy)
  }

  function ReachParent(sig: Callable, k: nat, t: Table): Option<Table>
    requires sig.Offset() <= k < sig.Slots() == |t.slots| && sig.WellFormed()
  {
    var dir := sig.Dir(k);
    var t0 := if dir.Enters() then t.(nFrom := t.nFrom + 1, nPy := t.nPy + 1) else t;
    match NewArgCache(sig, k, t0, if dir.Enters() then t.nPy else -1)
    case None => None
    case Some((t1, c)) =>
      var t2 := if dir.Leaves() then t1.(nTo := t1.nTo + 1, toPy := t1.toPy + [k]) else t1;
      Some(t2.(slots := t2.slots[k := Some(c.(name := Some(sig.args[k - sig.Offset()].name)))]))
  }

  /** One round of the loop over the arguments. */
  function Step(sig: Callable, k: nat, t: Table): (r: Option<Table>)
    requires sig.Offset() <= k < sig.Slots() == |t.slots| && sig.WellFormed()
    ensures r.Some? ==> |r.value.slots| == |t.slots|
  {
    if sig.SelfClosure(k) then
      Some(t.(slots := t.slots[k := Some(BLANK.(meta := Closure, dir := FromPython,
                                        name := Some(sig.args[k - sig.Offset()].name),
                                                cIndex := k - sig.Offset()))],
              nFrom := t.nFrom + 1))
    else if t.slots[k].Some? then Some(ReachChild(sig, k, t))
    else ReachParent(sig, k, t)
  }

  /** The table after the slots below `k`; `None` when generation fails. */
  function Run(sig: Callable, k: nat): (r: Option<Table>)
    requires sig.Offset() <= k <= sig.Slots() && sig.WellFormed()
    ensures r.Some? ==> |r.value.slots| == sig.Slots()
  {
    if k == sig.Offset() then Start(sig)
    else match Run(sig, k - 1)
      case None => None
      case Some(t) => Step(sig, k - 1, t)
  }
}
