/** The callable cache of `gi/pygi-cache.c` as the object its functions fill in. Every method is proved
    against the step of module CacheTable with the same name; `Generate` against module CacheProof. */
module CallableCacheObject {
  import opened Prelude
  import opened Signature
  import opened CacheTable
  import CacheProof

  /** Whether a slot contributes to the keyword names. */
  predicate Named(c: ArgCache) {
    c.meta != Child && c.meta != Closure && c.dir.Enters()
  }

  /** `arg_name_list` for the slots below `m`. */
  function NameList(slots: seq<Option<ArgCache>>, m: nat): seq<Option<string>>
    requires m <= |slots| && forall i :: 0 <= i < m ==> slots[i].Some?
  {
    if m == 0 then []
    else NameList(slots, m - 1) + if Named(slots[m - 1].value) then [slots[m - 1].value.name] else []
  }

  class CallableCache {
    var slots: seq<Option<ArgCache>>
    var nPy: int
    var nFrom: int
    var nTo: int
    var nToChild: int
    var toPy: seq<int>
    var names: seq<Option<string>>

    ghost function T(): Table
      reads this
    {
      Table(slots, nPy, nFrom, nTo, nToChild, toPy)
    }

    constructor (n: nat)
      ensures T() == Table(seq(n, i => None), 0, 0, 0, 0, [])
    {
      slots := seq(n, i => None);
      nPy, nFrom, nTo, nToChild, toPy, names := 0, 0, 0, 0, [], [];
    }

    method FromArraySetup(len: int, at: int, dir: Direction)
      requires len < |slots|
      modifies this
      ensures T() == CacheTable.FromArraySetup(old(T()), len, at, dir)
    {
      if len >= 0 {
        var child := BLANK;
        if slots[len].Some? {
          child := slots[len].value;
          if child.meta == Child || child.meta == ChildNeedsUpdate {
            return;
          }
        }
        child := child.(meta := if len < at then ChildNeedsUpdate else Child);
        child := child.(dir := dir, marshals := false);
        slots := slots[len := Some(child)];
      }
    }

    method ToArraySetup(len: int, at: int, dir: Direction)
      requires len < |slots|
      modifies this
      ensures T() == CacheTable.ToArraySetup(old(T()), len, at, dir)
    {
      if len >= 0 {
        if len < at {
          nToChild := nToChild + 1;
        }
        var child := BLANK;
        if slots[len].Some? {
          toPy := RemoveOne(toPy, len);
          child := slots[len].value;
          if child.meta == Child || child.meta == ChildNeedsUpdate {
            return;
          }
        }
        child := child.(meta := Child, dir := dir, marshals := false);
        slots := slots[len := Some(child)];
      }
    }

    method ArraySetup(len: int, at: int, dir: Direction) returns (shift: int)
      requires len < |slots|
      modifies this
      ensures (T(), shift) == CacheTable.ArraySetup(old(T()), len, at, dir)
    {
      if dir.Enters() {
        FromArraySetup(len, at, dir);
      }
      if dir.Leaves() {
        ToArraySetup(len, at, dir);
      }
      shift := 0;
      if len > -1 && slots[len].Some? && slots[len].value.meta == ChildNeedsUpdate {
        slots := slots[len := Some(slots[len].value.(meta := Child))];
        shift := -1;
        nPy := nPy - 1;
        ghost var goal := Renumber(slots, len + 1);
        var i := len + 1;
        while i < |slots|
          invariant 0 <= i <= |slots|
          invariant Renumber(slots, i) == goal
          invariant T() == CacheTable.ArraySetup(old(T()), len, at, dir).0.(slots := slots)
        {
          if slots[i].None? {
            break;
          }
          slots := slots[i := Some(slots[i].value.(pyIndex := slots[i].value.pyIndex - 1))];
          i := i + 1;
        }
        assert slots == goal;
      }
    }

    method CallbackSetup(user: int, destroy: int)
      requires user < |slots| && destroy < |slots|
      modifies this
      ensures T() == CacheTable.CallbackSetup(old(T()), user, destroy)
    {
      if user >= 0 {
        slots := slots[user := Some(BLANK.(meta := ChildWithPyArg, dir := FromPython))];
      }
      if destroy >= 0 {
        slots := slots[destroy := Some(BLANK.(meta := Child, dir := FromPython))];
      }
    }

    /** `None` when the type is refused. */
    method NewArgCache(sig: Callable, k: int, pyIndex: int) returns (r: Option<ArgCache>)
      requires -1 <= k < sig.Slots() == |slots| && sig.WellFormed()
      modifies this
      ensures match CacheTable.NewArgCache(sig, k, old(T()), pyIndex)
              case None => r == None
              case Some((t, c)) => r == Some(c) && T() == t
    {
      var dir := sig.Dir(k);
      var cache := BLANK;
      var index := pyIndex;
      match sig.Type(k) {
        case GError => cache := cache.(meta := Child);
        case Array(_, item) =>
          if !item.Cached(dir) {
            return None;
          }
          var shift := ArraySetup(sig.LenAt(k), k, dir);
          index := index + shift;
        case Callback =>
          if dir.Leaves() {
            return None;
          }
          CallbackSetup(sig.UserAt(k), sig.DestroyAt(k));
        case type_ =>
          if !type_.Cached(dir) {
            return None;
          }
      }
      return Some(cache.(dir := dir, cIndex := k, pyIndex := index, marshals := dir.Enters()));
    }

    method ReachChild(sig: Callable, k: nat)
      requires k < sig.Slots() == |slots| && slots[k].Some?
      modifies this
      ensures T() == CacheTable.ReachChild(sig, k, old(T()))
    {
      var dir := sig.Dir(k);
      var child := slots[k].value;
      if child.meta == ChildWithPyArg {
        child := child.(pyIndex := nPy);
        nPy := nPy + 1;
      }
      if dir.Enters() {
        child := child.(cIndex := nFrom);
        nFrom := nFrom + 1;
      }
      if dir.Leaves() {
        nTo := nTo + 1;
        nToChild := nToChild + 1;
      }
      slots := slots[k := Some(child)];
    }

    method ReachParent(sig: Callable, k: nat) returns (ok: bool)
      requires sig.Offset() <= k < sig.Slots() == |slots| && sig.WellFormed()
      modifies this
      ensures match CacheTable.ReachParent(sig, k, old(T()))
              case None => !ok
              case Some(t) => ok && T() == t
    {
      hide CacheTable.NewArgCache, Callable.WellFormed;
      var dir := sig.Dir(k);
      var pyIndex := -1;
      if dir.Enters() {
        pyIndex := nPy;
        nFrom := nFrom + 1;
        nPy := nPy + 1;
      }
      var made := NewArgCache(sig, k, pyIndex);
      if made.None? {
        return false;
      }
      if dir.Leaves() {
        nTo := nTo + 1;
        toPy := toPy + [k];
      }
      slots := slots[k := Some(made.value.(name := Some(sig.args[k - sig.Offset()].name)))];
      return true;
    }

    /** The body of the loop over the arguments. */
    method CacheArgument(sig: Callable, k: nat) returns (ok: bool)
      requires sig.Offset() <= k < sig.Slots() == |slots| && sig.WellFormed()
      modifies this
      ensures match CacheTable.Step(sig, k, old(T()))
              case None => !ok
              case Some(t) => ok && T() == t
    {
      hide CacheTable.ReachParent, Callable.WellFormed;
      var i := k - sig.Offset();
      if sig.args[i].closure == i {
        slots := slots[k := Some(BLANK.(meta := Closure, dir := FromPython,
                                          name := Some(sig.args[i].name), cIndex := i))];
        nFrom := nFrom + 1;
        return true;
      }
      if slots[k].Some? {
        ReachChild(sig, k);
        return true;
      }
      ok := ReachParent(sig, k);
    }

    method GenerateNames()
      requires forall i :: 0 <= i < |slots| ==> slots[i].Some?
      modifies this
      ensures T() == old(T()) && names == NameList(slots, |slots|)
    {
      names := [];
      for i := 0 to |slots|
        invariant T() == old(T()) && names == NameList(slots, i)
      {
        var c := slots[i].value;
        if c.meta != Child && c.meta != Closure && c.dir.Enters() {
          names := names + [c.name];
        }
      }
    }

    /** `_args_cache_generate` on a zeroed cache. */
    method Generate(sig: Callable) returns (ok: bool)
      requires sig.WellFormed() && T() == Table(seq(sig.Slots(), i => None), 0, 0, 0, 0, [])
      modifies this
      ensures ok <==> !exists i :: -1 <= i < sig.Slots() && CacheProof.Refused(sig, i)
      ensures ok ==> CacheProof.Inv(sig, sig.Slots(), sig.Slots(), T())
      ensures ok ==> (forall i :: 0 <= i < |slots| ==> slots[i].Some?) && names == NameList(slots, |slots|)
    {
      hide CacheTable.NewArgCache, CacheTable.Step, CacheProof.Inv, Callable.WellFormed;
      var n := sig.Slots();
      CacheProof.RunInv(sig, n);
      var ret := NewArgCache(sig, -1, -1);
      if ret.None? {
        RunFails(sig, sig.Offset(), n);
        return false;
      }
      if sig.Offset() == 1 {
        slots := slots[0 := Some(BLANK.(dir := FromPython, marshals := true))];
        nFrom := nFrom + 1;
        nPy := nPy + 1;
      }
      for k := sig.Offset() to n
        invariant |slots| == n && Run(sig, k) == Some(T())
      {
        var done := CacheArgument(sig, k);
        if !done {
          RunFails(sig, k + 1, n);
          return false;
        }
      }
      AllFilled(sig, T());
      GenerateNames();
      ok := true;
    }
  }

  lemma {:induction false} RunFails(sig: Callable, k: nat, n: nat)
    requires sig.WellFormed() && sig.Offset() <= k <= n <= sig.Slots() && Run(sig, k).None?
    ensures Run(sig, n).None?
    decreases n
  {
    if k < n {
      RunFails(sig, k, n - 1);
    }
  }

  lemma AllFilled(sig: Callable, t: Table)
    requires CacheProof.Inv(sig, sig.Slots(), sig.Slots(), t)
    ensures forall i :: 0 <= i < |t.slots| ==> t.slots[i].Some?
  {
    forall i: nat | i < |t.slots| ensures t.slots[i].Some? {
      assert CacheProof.SlotOk(sig, sig.Slots(), sig.Slots(), i, t.slots[i]);
    }
  }
}
