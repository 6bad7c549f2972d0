/** The two ends of an invocation: keyword arguments on the way in, the result tuple on the way out. */
module InvokeOut {
  import opened Prelude
  import opened Signature
  import opened CacheTable
  import opened CacheProof
  import opened CacheFacts
  import opened CallableCacheObject
  import opened InvokeIn
  import opened Kwargs
  import Argument
  import CInts

  /** Merging against the generated names gives exactly as many arguments as the cache counts, so the later
      too-many and too-few checks cannot fire, and every slot gets the value passed under its own name. */
  lemma NamedValuesReachSlots(sig: Callable, t: Table, args: seq<PyVal>, kwargs: map<string, PyVal>)
    requires Generated(sig, t) && forall i :: 0 <= i < |t.slots| ==> t.slots[i].Some?
    requires Accepts(NameList(t.slots, |t.slots|), args, kwargs)
    ensures var py := Combined(NameList(t.slots, |t.slots|), args, kwargs);
            && |py| == t.nPy
            && (forall s: nat :: TakesPy(sig, s) ==>
                  var x := t.slots[s].value.pyIndex;
                  && 0 <= x < |py|
                  && (x < |args| ==> PyAt(sig, py, s) == args[x])
                  && (x >= |args| ==> && NameAt(sig, s).Some? && NameAt(sig, s).value in kwargs
                                      && PyAt(sig, py, s) == kwargs[NameAt(sig, s).value]))
  {
    NamesFollowIndices(sig, t);
    var py := Combined(NameList(t.slots, |t.slots|), args, kwargs);
    forall s: nat | TakesPy(sig, s)
      ensures var x := t.slots[s].value.pyIndex;
              && 0 <= x < |py|
              && (x < |args| ==> PyAt(sig, py, s) == args[x])
              && (x >= |args| ==> && NameAt(sig, s).Some? && NameAt(sig, s).value in kwargs
                                  && PyAt(sig, py, s) == kwargs[NameAt(sig, s).value])
    {
      var c := SlotAt(sig, t, s);
    }
  }

  /** The whole way in: after a complete in stage on merged arguments, C receives for a named parent slot the
      marshalled value that was passed under that name. */
  lemma NamedValueReachesC(sig: Callable, t: Table, env: Env, args: seq<PyVal>, kwargs: map<string, PyVal>, f: Frame,
                           s: nat)
    requires Generated(sig, t) && forall i :: 0 <= i < |t.slots| ==> t.slots[i].Some?
    requires Accepts(NameList(t.slots, |t.slots|), args, kwargs)
    requires FrameOk(sig, env, Combined(NameList(t.slots, |t.slots|), args, kwargs), sig.Slots(), sig.Slots(), f)
    requires Marshalled(sig, s) && t.slots[s].value.pyIndex >= |args|
    ensures InIndex(sig, s) < |f.inArgs| && (sig.Dir(s) == Bidirectional ==> OutIndex(sig, s) < |f.outValues|)
    ensures NameAt(sig, s).Some? && NameAt(sig, s).value in kwargs
    ensures var x := env.conv(s, kwargs[NameAt(sig, s).value]);
            x.Some? ==> Received(sig, f, s) == x.value
  {
    var c := SlotAt(sig, t, s);
    NamedValuesReachSlots(sig, t, args, kwargs);
    InStageResult(sig, t, env, Combined(NameList(t.slots, |t.slots|), args, kwargs), f);
    assert TakesPy(sig, s) && !sig.SelfClosure(s);
  }

  /** The user data `_pygi_marshal_from_py_interface_callback` gives the closure it makes for slot `a`: the Python
      argument of the user-data slot, when the method has one and it was passed. */
  function ClosureData(sig: Callable, t: Table, py: seq<PyVal>, a: nat): Option<PyVal>
    requires sig.UserAt(a) < |t.slots| && forall i :: 0 <= i < |t.slots| ==> t.slots[i].Some?
  {
    var u := sig.UserAt(a);
    if u > 0 && 0 <= t.slots[u].value.pyIndex < |py| then Some(py[t.slots[u].value.pyIndex]) else None
  }

  /** The user data given with a callback reaches C as the callback's closure, unless a later callback shares the slot,
      and that closure holds the Python value passed in the user data's position or under its name. */
  lemma UserDataReachesClosure(sig: Callable, t: Table, env: Env, args: seq<PyVal>, kwargs: map<string, PyVal>,
                               f: Frame, a: nat)
    requires Generated(sig, t) && forall i :: 0 <= i < |t.slots| ==> t.slots[i].Some?
    requires Accepts(NameList(t.slots, |t.slots|), args, kwargs)
    requires var py := Combined(NameList(t.slots, |t.slots|), args, kwargs);
             && FrameOk(sig, env, py, sig.Slots(), sig.Slots(), f) && Marshalled(sig, a) && PyAt(sig, py, a) != PyNone
             && forall b :: a < b < sig.Slots() && sig.UserAt(b) == sig.UserAt(a) ==> PyAt(sig, py, b) == PyNone
    requires sig.UserAt(a) != -1
    ensures var u := sig.UserAt(a);
            && a < u < sig.Slots() && sig.Dir(u).Enters() && InIndex(sig, u) < |f.inArgs| && sig.Dir(u) != Bidirectional
            && Received(sig, f, u) == ClosureOf(a)
            && var x := t.slots[u].value.pyIndex;
               var data := ClosureData(sig, t, Combined(NameList(t.slots, |t.slots|), args, kwargs), a);
               && 0 <= x && (x < |args| ==> data == Some(args[x]))
               && (x >= |args| ==> && NameAt(sig, u).Some? && NameAt(sig, u).value in kwargs
                                   && data == Some(kwargs[NameAt(sig, u).value]))
  {
    hide *;
    var py := Combined(NameList(t.slots, |t.slots|), args, kwargs);
    GeneratedIsWellFormed(sig, t);
    UserWritten(sig, env, py, a);
    UserIsPassive(sig, a);
    SlotCount(sig, t);
    forall b: nat | a < b < sig.Slots() ensures Write(sig, env, py, b, sig.UserAt(a)).None? {
      OnlyCallbacksWrite(sig, env, py, b, sig.UserAt(a));
    }
    LastWrite(sig, env, py, sig.Slots(), a, sig.UserAt(a));
    InStageResult(sig, t, env, py, f);
    NamedValuesReachSlots(sig, t, args, kwargs);
    DataIs(sig, t, env, py, f, args, kwargs, a);
  }

  /** A user-data slot goes in, takes a Python argument, and is left to its callback. */
  lemma UserIsPassive(sig: Callable, a: nat)
    requires sig.WellFormed() && a < sig.Slots() && sig.UserAt(a) != -1
    ensures var u := sig.UserAt(a);
            && a < u < sig.Slots() && sig.UserOf(sig.Slots(), u) && TakesPy(sig, u)
            && sig.Dir(u) == FromPython && sig.Dir(u).Enters() && !Marshalled(sig, u) && !sig.SelfClosure(u)
  {
    var u := sig.UserAt(a);
    CallbackChild(sig, a, u);
    assert sig.UserOf(a + 1, u);
    OfMonotone(sig, a + 1, sig.Slots(), u);
    ChildFacts(sig, sig.Slots(), u);
  }

  lemma SlotCount(sig: Callable, t: Table)
    requires Generated(sig, t)
    ensures |t.slots| == sig.Slots()
  {
  }

  lemma UserWritten(sig: Callable, env: Env, py: seq<PyVal>, a: nat)
    requires sig.WellFormed() && Marshalled(sig, a) && sig.UserAt(a) != -1 && PyAt(sig, py, a) != PyNone
    ensures a < sig.Slots() && Write(sig, env, py, a, sig.UserAt(a)) == Some(ClosureOf(a))
  {
    CallbackFacts(sig, a);
  }

  lemma DataIs(sig: Callable, t: Table, env: Env, py: seq<PyVal>, f: Frame, args: seq<PyVal>, kwargs: map<string,
               PyVal>, a: nat)
    requires Generated(sig, t) && forall i :: 0 <= i < |t.slots| ==> t.slots[i].Some?
    requires a < sig.UserAt(a) < |t.slots| && TakesPy(sig, sig.UserAt(a))
    requires var u := sig.UserAt(a);
             var x := t.slots[u].value.pyIndex;
             && 0 <= x < |py| && (x < |args| ==> PyAt(sig, py, u) == args[x])
             && (x >= |args| ==>
                   && NameAt(sig, u).Some? && NameAt(sig, u).value in kwargs
                    && PyAt(sig, py, u) == kwargs[NameAt(sig, u).value])
    ensures ClosureData(sig, t, py, a) == Some(PyAt(sig, py, sig.UserAt(a)))
  {
    var c := SlotAt(sig, t, sig.UserAt(a));
  }

  /** Only the callbacks it serves write into a user-data slot. */
  lemma OnlyCallbacksWrite(sig: Callable, env: Env, py: seq<PyVal>, b: nat, u: nat)
    requires sig.WellFormed() && b < sig.Slots() && u < sig.Slots() && sig.UserOf(sig.Slots(), u)
    ensures Write(sig, env, py, b, u).Some? ==> Marshalled(sig, b) && sig.UserAt(b) == u && PyAt(sig, py, b) != PyNone
  {
    ChildFacts(sig, sig.Slots(), u);
    if sig.LenAt(b) == u {
      assert sig.LenOf(b + 1, u);
      OfMonotone(sig, b + 1, sig.Slots(), u);
    }
    if sig.DestroyAt(b) == u {
      assert sig.DestroyOf(b + 1, u);
      OfMonotone(sig, b + 1, sig.Slots(), u);
    }
  }

  /** The destroy-notify given with a callback reaches C as that callback's, unless a later callback shares the slot. */
  lemma DestroyReachesC(sig: Callable, t: Table, env: Env, py: seq<PyVal>, f: Frame, a: nat)
    requires Generated(sig, t) && FrameOk(sig, env, py, sig.Slots(), sig.Slots(), f)
    requires Marshalled(sig, a) && PyAt(sig, py, a) != PyNone && sig.DestroyAt(a) != -1
    requires forall b :: a < b < sig.Slots() && sig.DestroyAt(b) == sig.DestroyAt(a) ==> PyAt(sig, py, b) == PyNone
    ensures var d := sig.DestroyAt(a);
            && a < d < sig.Slots() && sig.Dir(d) == FromPython && sig.Dir(d).Enters() && InIndex(sig, d) < |f.inArgs|
            && Received(sig, f, d) == NotifyOf(a)
  {
    hide *;
    var d := sig.DestroyAt(a);
    GeneratedIsWellFormed(sig, t);
    MarshalledSlot(sig, a);
    DestroyIsPassive(sig, a);
    DestroyWritten(sig, env, py, a);
    forall b: nat | a < b < sig.Slots() ensures Write(sig, env, py, b, d).None? {
      OnlyCallbacksNotify(sig, env, py, b, d);
    }
    LastWrite(sig, env, py, sig.Slots(), a, d);
    InStageResult(sig, t, env, py, f);
  }

  lemma DestroyIsPassive(sig: Callable, a: nat)
    requires sig.WellFormed() && a < sig.Slots() && sig.DestroyAt(a) != -1
    ensures var d := sig.DestroyAt(a);
            && a < d < sig.Slots() && sig.DestroyOf(sig.Slots(), d)
            && sig.Dir(d) == FromPython && sig.Dir(d).Enters() && !Marshalled(sig, d) && !sig.SelfClosure(d)
  {
    var d := sig.DestroyAt(a);
    CallbackChild(sig, a, d);
    assert sig.DestroyOf(a + 1, d);
    OfMonotone(sig, a + 1, sig.Slots(), d);
    ChildFacts(sig, sig.Slots(), d);
  }

  lemma DestroyWritten(sig: Callable, env: Env, py: seq<PyVal>, a: nat)
    requires sig.WellFormed() && Marshalled(sig, a) && sig.DestroyAt(a) != -1 && PyAt(sig, py, a) != PyNone
    ensures a < sig.Slots() && Write(sig, env, py, a, sig.DestroyAt(a)) == Some(NotifyOf(a))
  {
    CallbackFacts(sig, a);
  }

  lemma OnlyCallbacksNotify(sig: Callable, env: Env, py: seq<PyVal>, b: nat, d: nat)
    requires sig.WellFormed() && b < sig.Slots() && d < sig.Slots() && sig.DestroyOf(sig.Slots(), d)
    ensures Write(sig, env, py, b, d).Some? ==>
              Marshalled(sig, b) && sig.DestroyAt(b) == d && PyAt(sig, py, b) != PyNone
  {
    ChildFacts(sig, sig.Slots(), d);
    if sig.LenAt(b) == d {
      assert sig.LenOf(b + 1, d);
      OfMonotone(sig, b + 1, sig.Slots(), d);
    }
    if sig.UserAt(b) == d {
      assert sig.UserOf(b + 1, d);
      OfMonotone(sig, b + 1, sig.Slots(), d);
    }
  }

  /** A callback that was passed as None leaves its user data and its destroy-notify NULL. */
  lemma NoClosureForNone(sig: Callable, t: Table, env: Env, py: seq<PyVal>, f: Frame, s: nat)
    requires Generated(sig, t) && FrameOk(sig, env, py, sig.Slots(), sig.Slots(), f)
    requires s < sig.Slots() && (sig.UserOf(sig.Slots(), s) || sig.DestroyOf(sig.Slots(), s))
    requires forall a :: Marshalled(sig, a) && (sig.UserAt(a) == s || sig.DestroyAt(a) == s) ==>
               PyAt(sig, py, a) == PyNone
    ensures sig.Dir(s) == FromPython && sig.Dir(s).Enters() && InIndex(sig, s) < |f.inArgs|
    ensures Received(sig, f, s) == ZERO
  {
    hide *;
    GeneratedIsWellFormed(sig, t);
    ClosureSlot(sig, s);
    forall b: nat | b < sig.Slots() ensures Write(sig, env, py, b, s).None? {
      if sig.UserOf(sig.Slots(), s) {
        OnlyCallbacksWrite(sig, env, py, b, s);
      } else {
        OnlyCallbacksNotify(sig, env, py, b, s);
      }
    }
    NeverWritten(sig, env, py, sig.Slots(), s);
    InStageResult(sig, t, env, py, f);
  }

  lemma ClosureSlot(sig: Callable, s: nat)
    requires sig.WellFormed() && s < sig.Slots() && (sig.UserOf(sig.Slots(), s) || sig.DestroyOf(sig.Slots(), s))
    ensures sig.Dir(s) == FromPython && sig.Dir(s).Enters() && !Marshalled(sig, s) && !sig.SelfClosure(s)
  {
    ChildFacts(sig, sig.Slots(), s);
  }

  /** What went through: an array argument of a complete in stage was passed None or a sequence, and the length of a
      sequence that is not written through a pointer fits its type. */
  lemma ArraysGotSequences(sig: Callable, env: Env, py: seq<PyVal>, a: nat)
    requires Marshalled(sig, a) && !Refuses(sig, env, py, a)
    ensures env.conv(a, PyAt(sig, py, a)).Some?
    ensures sig.Type(a).Array? ==> PyAt(sig, py, a) == PyNone || PyAt(sig, py, a).PySeq?
    ensures var l := sig.LenAt(a);
            l != -1 && PyAt(sig, py, a).PySeq? && !(l < a && sig.Dir(l) == Bidirectional) ==>
              CInts.Fits(env.lenTag(l), PyAt(sig, py, a).len)
  {
    hide PyAt, Marshalled, CInts.Fits;
  }

  /** The instance of a method or a vfunc is the first argument Python passes and the first that C receives. */
  lemma InstanceComesFirst(sig: Callable, t: Table, env: Env, py: seq<PyVal>, f: Frame)
    requires Generated(sig, t) && FrameOk(sig, env, py, sig.Slots(), sig.Slots(), f)
    requires sig.ftype in {Method, VFunc} && py != [] && !Refuses(sig, env, py, 0)
    ensures |f.inArgs| > 0 && Some(f.inArgs[0]) == env.conv(0, py[0])
  {
    InStageResult(sig, t, env, py, f);
    InstanceIsMarshalled(sig);
    hide Generated, FrameOk, Marshalled, Refuses;
    assert Count(Vis(sig, sig.Slots()), 0) == 0 && InIndex(sig, 0) == 0;
  }

  lemma InstanceIsMarshalled(sig: Callable)
    requires sig.WellFormed() && sig.ftype in {Method, VFunc}
    ensures Marshalled(sig, 0) && sig.Dir(0) == FromPython && !sig.SelfClosure(0)
  {
    if sig.ChildOf(sig.Slots(), 0) {
      ChildFacts(sig, sig.Slots(), 0);
    }
  }

  // ---------------------------------------------------------------- the result builder

  /** What the call returns to Python. */
  datatype Built<P> = NoneObject | Single(value: P) | Tuple(items: seq<P>)

  /** The return value as the cache describes it: `value` is what its marshaller makes of it; `lost` says that the
      function is a constructor that returned NULL, and `hasCleanup` that the type has a to-Python cleanup. */
  datatype Return<P> = Return(isSkipped: bool, isVoid: bool, lost: bool, transfer: Argument.Transfer, hasCleanup: bool,
                              value: Option<P>)

  /** The visible outs, converted, in declaration order. */
  ghost function Outs<P>(toPy: seq<int>, conv: int -> Option<P>): Option<seq<P>> {
    if toPy == [] then Some([])
    else match (Outs(toPy[..|toPy| - 1], conv), conv(toPy[|toPy| - 1]))
      case (Some(rest), Some(last)) => Some(rest + [last])
      case _ => None
  }

  /** The non-skipped, non-void return value, then the visible outs; unwrapped when there is only one. */
  ghost function Result<P>(ret: Return<P>, toPy: seq<int>, conv: int -> Option<P>): Option<Built<P>> {
    if !ret.isSkipped && (ret.lost || ret.value.None?) then None
    else if toPy == [] then Some(if ret.isSkipped then NoneObject else Single(ret.value.value))
    else match Outs(toPy, conv)
      case None => None
      case Some(outs) =>
        var items := (if ret.isSkipped || ret.isVoid then [] else [ret.value.value]) + outs;
        Some(if |items| == 1 then Single(items[0]) else Tuple(items))
  }

  /** What Python gets: nothing if the return value or one of the outs cannot be converted; else the return value,
      unless it is skipped or void, and behind it the outs in their order. A single object is not wrapped in a tuple. */
  ghost predicate Delivers<P>(ret: Return<P>, toPy: seq<int>, conv: int -> Option<P>, r: Option<Built<P>>) {
    var first := if ret.isSkipped || ret.isVoid then 0 else 1;
    && (r.None? <==>
          || (!ret.isSkipped && (ret.lost || ret.value.None?))
          || exists j :: 0 <= j < |toPy| && conv(toPy[j]).None?)
    && (r.Some? ==>
          if toPy == [] then r.value == if ret.isSkipped then NoneObject else Single(ret.value.value)
          else if first + |toPy| == 1 then r.value.Single? && conv(toPy[0]) == Some(r.value.value)
          else
            && r.value.Tuple? && |r.value.items| == first + |toPy|
            && (first == 1 ==> ret.value == Some(r.value.items[0]))
            && forall j :: 0 <= j < |toPy| ==> conv(toPy[j]) == Some(r.value.items[first + j]))
  }

  lemma ResultDelivers<P>(ret: Return<P>, toPy: seq<int>, conv: int -> Option<P>)
    ensures Delivers(ret, toPy, conv, Result(ret, toPy, conv))
  {
    if Outs(toPy, conv).Some? {
      forall j | 0 <= j < |toPy|
        ensures |Outs(toPy, conv).value| == |toPy| && conv(toPy[j]) == Some(Outs(toPy, conv).value[j])
      {
        OutsLength(toPy, conv);
        OutsAt(toPy, conv, j);
      }
    } else {
      var j := OutsRefused(toPy, conv);
    }
    forall j | 0 <= j < |toPy| && conv(toPy[j]).None? ensures Outs(toPy, conv).None? {
      OutsFails(toPy, conv, j);
    }
    hide Outs;
    OutsNone(conv);
  }

  lemma OutsNone<P>(conv: int -> Option<P>)
    ensures Outs([], conv) == Some([])
  {
  }

  lemma {:induction false} OutsRefused<P>(toPy: seq<int>, conv: int -> Option<P>) returns (j: nat)
    requires Outs(toPy, conv).None?
    ensures j < |toPy| && conv(toPy[j]).None?
  {
    var n := |toPy| - 1;
    if conv(toPy[n]).None? {
      j := n;
    } else {
      j := OutsRefused(toPy[..n], conv);
    }
  }

  lemma {:induction false} OutsLength<P>(toPy: seq<int>, conv: int -> Option<P>)
    ensures Outs(toPy, conv).Some? ==> |Outs(toPy, conv).value| == |toPy|
  {
    if toPy != [] {
      OutsLength(toPy[..|toPy| - 1], conv);
    }
  }

  lemma {:induction false} OutsFails<P>(toPy: seq<int>, conv: int -> Option<P>, k: nat)
    requires k < |toPy| && conv(toPy[k]).None?
    ensures Outs(toPy, conv).None?
  {
    if k < |toPy| - 1 {
      OutsFails(toPy[..|toPy| - 1], conv, k);
    }
  }

  lemma OutRecord(sig: Callable, t: Table, s: int)
    requires Generated(sig, t) && s in t.toPy
    ensures 0 <= s < |t.slots| && t.slots[s].Some? && t.slots[s].value.cIndex == s
  {
    OutListMatchesCounters(sig, t);
    var c := SlotAt(sig, t, s);
    OfMonotone(sig, s, sig.Slots(), s);
    if sig.ChildOf(sig.Slots(), s) {
      ChildFacts(sig, sig.Slots(), s);
    }
  }

  lemma OneOut<P>(toPy: seq<int>, conv: int -> Option<P>)
    requires |toPy| == 1
    ensures Outs(toPy, conv) == if conv(toPy[0]).Some? then Some([conv(toPy[0]).value]) else None
  {
    assert Outs(toPy[..0], conv) == Some([]);
    if conv(toPy[0]).Some? {
      assert [] + [conv(toPy[0]).value] == [conv(toPy[0]).value];
    }
  }

  lemma NextOut<P>(toPy: seq<int>, conv: int -> Option<P>, k: nat)
    requires k < |toPy| && Outs(toPy[..k], conv).Some? && conv(toPy[k]).Some?
    ensures Outs(toPy[..k + 1], conv) == Some(Outs(toPy[..k], conv).value + [conv(toPy[k]).value])
  {
    assert toPy[..k + 1][..k] == toPy[..k];
  }

  /** `_invoke_marshal_out_args`, with its counters and its walk along `to_py_args`; `conv(i)` converts
      `state->args[i]`. A skipped return value that was transferred is cleaned, unprocessed, before anything is
      converted. */
  method BuildResult<P>(sig: Callable, t: Table, ret: Return<P>, conv: int -> Option<P>)
    returns (r: Option<Built<P>>, returnCleaned: bool)
    requires Generated(sig, t)
    ensures Delivers(ret, t.toPy, conv, r)
    ensures returnCleaned <==> ret.isSkipped && ret.transfer.Everything? && ret.hasCleanup
  {
    OutListMatchesCounters(sig, t);
    hide Generated, Delivers;
    ResultDelivers(ret, t.toPy, conv);
    var total := t.nTo;
    var hasReturn := false;
    returnCleaned := false;
    if !ret.isSkipped {
      if ret.lost {
        return None, false;
      }
      if ret.value.None? {
        return None, false;
      }
      if !ret.isVoid {
        total := total + 1;
        hasReturn := true;
      }
    } else if ret.transfer == Argument.Everything {
      if ret.hasCleanup {
        returnCleaned := true;
      }
    }
    total := total - t.nToChild;
    OutsLength(t.toPy, conv);
    if t.nTo - t.nToChild == 0 {
      return Some(if ret.isSkipped then NoneObject else Single(ret.value.value)), returnCleaned;
    } else if total == 1 {
      OutRecord(sig, t, t.toPy[0]);
      var out := conv(t.slots[t.toPy[0]].value.cIndex);
      OneOut(t.toPy, conv);
      return if out.None? then None else Some(Single(out.value)), returnCleaned;
    }
    var items := BuildTuple(sig, t, if hasReturn then [ret.value.value] else [], total, conv);
    return if items.None? then None else Some(Tuple(items.value)), returnCleaned;
  }

  /** The tuple loop: `total` counts the items, `head` holds the return value if there is one. */
  method BuildTuple<P>(sig: Callable, t: Table, head: seq<P>, total: int, conv: int -> Option<P>)
    returns (r: Option<seq<P>>)
    requires Generated(sig, t) && total == |head| + |t.toPy|
    ensures r == match Outs(t.toPy, conv) case None => None case Some(outs) => Some(head + outs)
  {
    hide Generated, Inv;
    var items := head;
    var next := 0;
    while |items| < total
      invariant 0 <= next <= |t.toPy| && |items| == |head| + next
      invariant Outs(t.toPy[..next], conv).Some? && items == head + Outs(t.toPy[..next], conv).value
      decreases total - |items|
    {
      OutRecord(sig, t, t.toPy[next]);
      var out := conv(t.slots[t.toPy[next]].value.cIndex);
      if out.None? {
        OutsFails(t.toPy, conv, next);
        return None;
      }
      NextOut(t.toPy, conv, next);
      assert head + (Outs(t.toPy[..next], conv).value + [out.value]) == items + [out.value];
      items := items + [out.value];
      next := next + 1;
    }
    assert t.toPy[..next] == t.toPy;
    return Some(items);
  }

  /** Each visible out contributes the conversion of its own argument, in declaration order. */
  lemma {:induction false} OutsAt<P>(toPy: seq<int>, conv: int -> Option<P>, k: nat)
    requires Outs(toPy, conv).Some? && k < |toPy|
    ensures |Outs(toPy, conv).value| == |toPy| && conv(toPy[k]) == Some(Outs(toPy, conv).value[k])
  {
    OutsLength(toPy, conv);
    if k < |toPy| - 1 {
      OutsAt(toPy[..|toPy| - 1], conv, k);
    }
    OutsLength(toPy[..|toPy| - 1], conv);
  }
}
