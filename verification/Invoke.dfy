/** One invocation as `pygi_callable_info_invoke` runs it: the in stage, the call, the cleanup drivers of
    `gi/pygi-marshal-cleanup.c`, and the result builder. */
module Invoke {
  import opened Prelude
  import opened Signature
  import opened CacheTable
  import opened CacheProof
  import opened CacheFacts
  import opened InvokeIn

  /** A from-Python cleanup function was called for `slot` on `data`. */
  datatype Cleanup = Cleanup(slot: nat, data: CVal, processed: bool)

  /** `cleans` says which types have a from-Python cleanup, `keeps` which record their pointer in `args_data`. */
  datatype Types = Types(cleans: int -> bool, keeps: int -> bool)

  datatype InResult = Done | TooManyArgs | TooFewArgs(at: nat) | RefusedAt(at: nat)

  // ---------------------------------------------------------------- what the drivers must do

  /** The pointer slot `j` keeps for its cleanup. */
  ghost predicate HasData(sig: Callable, env: Env, types: Types, py: seq<PyVal>, j: nat) {
    && Marshalled(sig, j) && types.cleans(j) && Value(sig, env, py, j) != ZERO
    && (sig.Dir(j) == Bidirectional ==> types.keeps(j) && PyAt(sig, py, j) != PyNone)
  }

  /** The in stage failed at slot `failed`: the going-in slots before it, all but the last as processed. */
  ghost function FailLog(sig: Callable, env: Env, types: Types, py: seq<PyVal>, failed: nat, m: nat): seq<Cleanup> {
    if m == 0 then []
    else FailLog(sig, env, types, py, failed, m - 1)
         + if sig.Dir(m - 1) == FromPython && HasData(sig, env, types, py, m - 1)
           then [Cleanup(m - 1, Value(sig, env, py, m - 1), m - 1 < failed - 1)] else []
  }

  /** The in stage succeeded: every slot with data, as processed. */
  ghost function SuccessLog(sig: Callable, env: Env, types: Types, py: seq<PyVal>, m: nat): seq<Cleanup> {
    if m == 0 then []
    else SuccessLog(sig, env, types, py, m - 1)
         + if HasData(sig, env, types, py, m - 1) then [Cleanup(m - 1, Value(sig, env, py, m - 1), true)] else []
  }

  /** Strictly ascending slots below `m`, each with the value of its own marshalling. */
  ghost predicate OwnOnce(sig: Callable, env: Env, types: Types, py: seq<PyVal>, log: seq<Cleanup>, m: nat) {
    && (forall i, j :: 0 <= i < j < |log| ==> log[i].slot < log[j].slot)
    && (forall i :: 0 <= i < |log| ==> log[i].slot < m && HasData(sig, env, types, py, log[i].slot)
                                       && log[i].data == Value(sig, env, py, log[i].slot))
  }

  lemma OwnAppend(sig: Callable, env: Env, types: Types, py: seq<PyVal>, log: seq<Cleanup>, m: nat, processed: bool)
    requires OwnOnce(sig, env, types, py, log, m)
    ensures OwnOnce(sig, env, types, py, log, m + 1)
    ensures HasData(sig, env, types, py, m) ==>
              OwnOnce(sig, env, types, py, log + [Cleanup(m, Value(sig, env, py, m), processed)], m + 1)
  {
    hide HasData, Value;
  }

  /** After a failure at slot `failed` the driver touches exactly the going-in slots with data before it, once each. */
  lemma {:induction false} FailLogOwnOnce(sig: Callable, env: Env, types: Types, py: seq<PyVal>, failed: nat, m: nat)
    ensures OwnOnce(sig, env, types, py, FailLog(sig, env, types, py, failed, m), m)
    ensures forall c :: c in FailLog(sig, env, types, py, failed, m) ==>
                          sig.Dir(c.slot) == FromPython && (c.processed <==> c.slot < failed - 1)
    ensures forall j: nat :: j < m && sig.Dir(j) == FromPython && HasData(sig, env, types, py, j) ==>
              Cleanup(j, Value(sig, env, py, j), j < failed - 1) in FailLog(sig, env, types, py, failed, m)
  {
    hide *;
    if m == 0 {
      FailLogStart(sig, env, types, py, failed);
    } else {
      var before := FailLog(sig, env, types, py, failed, m - 1);
      FailLogOwnOnce(sig, env, types, py, failed, m - 1);
      OwnAppend(sig, env, types, py, before, m - 1, m - 1 < failed - 1);
      FailLogStep(sig, env, types, py, failed, m);
      assert before + [] == before;
    }
  }

  lemma FailLogStart(sig: Callable, env: Env, types: Types, py: seq<PyVal>, failed: nat)
    ensures FailLog(sig, env, types, py, failed, 0) == [] && OwnOnce(sig, env, types, py, [], 0)
  {
  }

  lemma FailLogStep(sig: Callable, env: Env, types: Types, py: seq<PyVal>, failed: nat, m: nat)
    requires m > 0
    ensures FailLog(sig, env, types, py, failed, m) ==
            FailLog(sig, env, types, py, failed, m - 1)
            + if sig.Dir(m - 1) == FromPython && HasData(sig, env, types, py, m - 1)
              then [Cleanup(m - 1, Value(sig, env, py, m - 1), m - 1 < failed - 1)] else []
  {
    hide HasData, Value;
  }

  /** After a complete in stage the driver touches every slot with data exactly once. */
  lemma {:induction false} SuccessLogOwnOnce(sig: Callable, env: Env, types: Types, py: seq<PyVal>, m: nat)
    ensures OwnOnce(sig, env, types, py, SuccessLog(sig, env, types, py, m), m)
    ensures forall j: nat :: j < m && HasData(sig, env, types, py, j)
                             ==> Cleanup(j, Value(sig, env, py, j), true) in SuccessLog(sig, env, types, py, m)
  {
    if m > 0 {
      SuccessLogOwnOnce(sig, env, types, py, m - 1);
      OwnAppend(sig, env, types, py, SuccessLog(sig, env, types, py, m - 1), m - 1, true);
      hide OwnOnce, HasData, Value;
      assert SuccessLog(sig, env, types, py, m - 1) + [] == SuccessLog(sig, env, types, py, m - 1);
    }
  }

  /** What a driver reads for a slot the in stage completed. */
  lemma SlotData(sig: Callable, t: Table, env: Env, py: seq<PyVal>, p: nat, m: nat, f: Frame, i: nat)
    requires Generated(sig, t) && FrameOk(sig, env, py, p, m, f) && i < m
    ensures i < |t.slots| && t.slots[i].Some? && t.slots[i].value.dir == sig.Dir(i)
    ensures sig.Dir(i).Enters() ==> (t.slots[i].value.meta == Parent <==> Marshalled(sig, i))
    ensures i < |f.args| && f.args[i] == Some(LocOf(sig, i)) && InRange(f, LocOf(sig, i))
    ensures sig.Dir(i) == FromPython && Marshalled(sig, i) ==> f.inArgs[InIndex(sig, i)] == Value(sig, env, py, i)
  {
    var c := SlotAt(sig, t, i);
    assert CellOk(sig, env, py, p, m, f, i);
    hide Generated;
    if Marshalled(sig, i) {
      assert !sig.SelfClosure(i);
    }
  }

  /** A marshalled slot records its own position, its own Python index, and a marshaller. */
  lemma ParentRecordIs(sig: Callable, t: Table, i: nat)
    requires Generated(sig, t) && Marshalled(sig, i)
    ensures i < |t.slots| && t.slots[i].Some?
    ensures var c := t.slots[i].value;
            c.cIndex == i && c.marshals && TakesPy(sig, i) && c.pyIndex == Count(Vis(sig, sig.Slots()), i) < t.nPy
  {
    var c := SlotAt(sig, t, i);
    OfMonotone(sig, i, sig.Slots(), i);
    CountMonotone(Vis(sig, sig.Slots()), i, sig.Slots());
  }

  /** `args_data` after the slots below `m` were marshalled. */
  ghost predicate DataOk(sig: Callable, env: Env, types: Types, py: seq<PyVal>, m: nat, data: seq<CVal>) {
    |data| == sig.Slots() && forall j: nat :: j < |data| ==> data[j] == DataAt(sig, env, types, py, m, j)
  }

  ghost function DataAt(sig: Callable, env: Env, types: Types, py: seq<PyVal>, m: nat, j: nat): CVal {
    if j < m && Marshalled(sig, j) && types.keeps(j) && PyAt(sig, py, j) != PyNone then Value(sig, env, py, j) else ZERO
  }

  lemma DataStep(sig: Callable, env: Env, types: Types, py: seq<PyVal>, i: nat, data: seq<CVal>)
    requires DataOk(sig, env, types, py, i, data) && i < |data|
    ensures DataOk(sig, env, types, py, i + 1, data[i := DataAt(sig, env, types, py, i + 1, i)])
  {
    hide Value, PyAt, Marshalled;
  }

  lemma DataZero(sig: Callable, env: Env, types: Types, py: seq<PyVal>, i: nat, data: seq<CVal>)
    requires DataOk(sig, env, types, py, i, data) && i < |data|
    ensures data[i := ZERO] == data
  {
    hide Value, PyAt, Marshalled;
  }

  lemma DataSkip(sig: Callable, env: Env, types: Types, py: seq<PyVal>, i: nat, data: seq<CVal>)
    requires DataOk(sig, env, types, py, i, data) && !Marshalled(sig, i)
    ensures DataOk(sig, env, types, py, i + 1, data)
  {
    hide Value, PyAt, Marshalled;
  }

  /** The marshaller of slot `i`, without the cursors it does not touch. */
  lemma SlotMarshals(sig: Callable, t: Table, env: Env, types: Types, py: seq<PyVal>, i: nat, f: Frame)
    requires Generated(sig, t) && CellsAgree(sig) && Marshalled(sig, i) && FrameOk(sig, env, py, i + 1, i, f)
    ensures i < |t.slots| && t.slots[i].Some? && t.slots[i].value.cIndex == i < |f.args|
    ensures f.args[i] == Some(LocOf(sig, i))
    ensures var f0 := f.(inCount := 0, outCount := 0);
            && ChildrenInRange(sig, t, i, f0) && InRange(f0, LocOf(sig, i))
            && (var r := Marshal(sig, t, env, i, PyAt(sig, py, i), LocOf(sig, i), f0);
                if Refuses(sig, env, py, i) then !r.Ok?
                else r.Ok? && env.conv(i, PyAt(sig, py, i)).Some?
                     && var h := Frame(f.args, r.frame.inArgs, r.frame.outValues, f.inCount, f.outCount);
                        FrameOk(sig, env, py, i + 1, i + 1, h))
  {
    IsReady(sig, t, env, py, i, f);
    MarshalOk(sig, t, env, py, i, f);
    MarshalOutcome(sig, t, env, py, i, f);
    ParentRecordIs(sig, t, i);
    MarshalCursors(sig, t, env, i, PyAt(sig, py, i), LocOf(sig, i), f, f.inCount, f.outCount);
    hide Marshal, CellsAgree, Generated, Marshalled, PyAt;
  }

  /** What `args_data` becomes when slot `i` has been marshalled. */
  lemma SlotKeeps(sig: Callable, env: Env, types: Types, py: seq<PyVal>, i: nat, data: seq<CVal>)
    requires DataOk(sig, env, types, py, i, data) && Marshalled(sig, i)
    ensures i < |data|
    ensures var v := PyAt(sig, py, i);
            !Refuses(sig, env, py, i) ==>
              && env.conv(i, v).Some?
              && DataOk(sig, env, types, py, i + 1,
                        if types.keeps(i) && v != PyNone then data[i := env.conv(i, v).value] else data)
  {
    DataStep(sig, env, types, py, i, data);
    DataZero(sig, env, types, py, i, data);
  }

  /** Going-in slots are cleaned through their cell, inout slots through `args_data`. */
  lemma SuccessEntry(sig: Callable, t: Table, env: Env, types: Types, py: seq<PyVal>, f: Frame, data: seq<CVal>, i: nat)
    requires Generated(sig, t) && FrameOk(sig, env, py, sig.Slots(), sig.Slots(), f) && i < sig.Slots()
    requires DataOk(sig, env, types, py, sig.Slots(), data)
    ensures i < |t.slots| && t.slots[i].Some? && i < |data|
    ensures t.slots[i].value.meta == Parent && types.cleans(i) && sig.Dir(i) == FromPython ==>
              InIndex(sig, i) < |f.inArgs| && f.inArgs[InIndex(sig, i)] == Value(sig, env, py, i)
              && (HasData(sig, env, types, py, i) <==> f.inArgs[InIndex(sig, i)] != ZERO)
    ensures t.slots[i].value.meta == Parent && types.cleans(i) && sig.Dir(i) == Bidirectional ==>
              (HasData(sig, env, types, py, i) <==> data[i] != ZERO)
              && (data[i] != ZERO ==> data[i] == Value(sig, env, py, i))
    ensures !(t.slots[i].value.meta == Parent && types.cleans(i) && sig.Dir(i) != ToPython) ==>
              !HasData(sig, env, types, py, i)
  {
    SlotData(sig, t, env, py, sig.Slots(), sig.Slots(), f, i);
    hide Generated, FrameOk;
  }

  // ---------------------------------------------------------------- the state object

  class InvokeState {
    var py: seq<PyVal>
    var args: seq<Option<Loc>>
    var inArgs: seq<CVal>
    var outValues: seq<CVal>
    var argsData: seq<CVal>
    var failed: bool
    /** Every from-Python cleanup call made, in order. */
    var log: seq<Cleanup>

    ghost function F(inCount: nat, outCount: nat): Frame
      reads this
    {
      Frame(args, inArgs, outValues, inCount, outCount)
    }

    /** `_invoke_state_init_from_callable_cache`, once the Python arguments are combined. */
    constructor (sig: Callable, t: Table, py: seq<PyVal>)
      requires Generated(sig, t) && 0 <= t.nFrom && 0 <= t.nTo
      ensures F(0, 0) == StartFrame(sig, t) && this.py == py && log == [] && !failed
      ensures argsData == seq(sig.Slots(), i => ZERO)
    {
      this.py := py;
      args := seq(sig.Slots(), i => None);
      argsData := seq(sig.Slots(), i => ZERO);
      inArgs := seq(t.nFrom, i => ZERO);
      outValues := seq(t.nTo, i => ZERO);
      failed := false;
      log := [];
    }

    function At(loc: Loc): CVal
      requires match loc case InCell(j) => j < |inArgs| case OutCell(j) => j < |outValues|
      reads this
    {
      match loc case InCell(j) => inArgs[j] case OutCell(j) => outValues[j]
    }

    /** `pygi_marshal_cleanup_args_from_py_parameter_fail` (state, cache, failedIndex) */
    method CleanupParameterFail(sig: Callable, t: Table, env: Env, types: Types, failedIndex: int,
                                ghost inCount: nat, ghost outCount: nat)
      requires Generated(sig, t) && -1 <= failedIndex < sig.Slots()
      requires FrameOk(sig, env, py, failedIndex + 2, failedIndex + 1, F(inCount, outCount))
      modifies this`failed, this`log
      ensures failed && log == old(log) + FailLog(sig, env, types, py, failedIndex + 1, failedIndex + 1)
    {
      hide Generated, FrameOk, Marshalled, Value;
      failed := true;
      var i := 0;
      while i < sig.Slots() && i <= failedIndex
        invariant 0 <= i <= failedIndex + 1
        invariant failed && log == old(log) + FailLog(sig, env, types, py, failedIndex + 1, i)
      {
        SlotData(sig, t, env, py, failedIndex + 2, failedIndex + 1, F(inCount, outCount), i);
        var cache := t.slots[i].value;
        var data := At(args[i].value);
        if cache.meta == Parent && types.cleans(i) && cache.dir == FromPython && data != ZERO {
          log := log + [Cleanup(i, data, i < failedIndex)];
        }
        i := i + 1;
      }
    }

    /** `pygi_marshal_cleanup_args_from_py_marshal_success` */
    method CleanupMarshalSuccess(sig: Callable, t: Table, env: Env, types: Types, ghost called: Frame)
      requires Generated(sig, t) && DataOk(sig, env, types, py, sig.Slots(), argsData)
      requires FrameOk(sig, env, py, sig.Slots(), sig.Slots(), called)
      requires inArgs == called.inArgs && args == called.args
      modifies this`log
      ensures log == old(log) + SuccessLog(sig, env, types, py, sig.Slots())
    {
      hide Generated, FrameOk, DataOk, HasData, Value;
      for i := 0 to sig.Slots()
        invariant log == old(log) + SuccessLog(sig, env, types, py, i)
      {
        SlotData(sig, t, env, py, sig.Slots(), sig.Slots(), called, i);
        SuccessEntry(sig, t, env, types, py, called, argsData, i);
        var cache := t.slots[i].value;
        if cache.meta == Parent && types.cleans(i) && cache.dir == FromPython && At(args[i].value) != ZERO {
          log := log + [Cleanup(i, At(args[i].value), true)];
        }
        if cache.meta == Parent && types.cleans(i) && cache.dir == Bidirectional && argsData[i] != ZERO {
          log := log + [Cleanup(i, argsData[i], true)];
        }
      }
    }

    /** The from-Python marshaller call of one round, with what it records in `args_data`. */
    method MarshalSlot(sig: Callable, t: Table, env: Env, types: Types, i: nat, v: PyVal,
                       ghost inCount: nat, ghost outCount: nat) returns (ok: bool)
      requires Generated(sig, t) && CellsAgree(sig) && Marshalled(sig, i) && v == PyAt(sig, py, i)
      requires FrameOk(sig, env, py, i + 1, i, F(inCount, outCount)) && DataOk(sig, env, types, py, i, argsData)
      modifies this`inArgs, this`outValues, this`argsData
      ensures ok <==> !Refuses(sig, env, py, i)
      ensures ok ==> FrameOk(sig, env, py, i + 1, i + 1, F(inCount, outCount))
      ensures ok ==> DataOk(sig, env, types, py, i + 1, argsData)
      ensures !ok ==> FrameOk(sig, env, py, i + 1, i, F(inCount, outCount))
    {
      hide Generated, FrameOk, Ready, Refuses, Marshal, DataOk, Marshalled, CellsAgree, Value, PyAt, ChildrenInRange;
      hide LocOf;
      ghost var f := F(inCount, outCount);
      SlotMarshals(sig, t, env, types, py, i, f);
      SlotKeeps(sig, env, types, py, i, argsData);
      var r := Marshal(sig, t, env, i, v, args[i].value, Frame(args, inArgs, outValues, 0, 0));
      if !r.Ok? {
        return false;
      }
      inArgs, outValues := r.frame.inArgs, r.frame.outValues;
      if types.keeps(i) && v != PyNone {
        argsData := argsData[t.slots[i].value.cIndex := env.conv(i, v).value];
      }
      return true;
    }

    /** The cursor part of one round. */
    method AdvanceSlot(c: ArgCache, i: nat, nIn: nat, nOut: nat) returns (nIn': nat, nOut': nat)
      requires i < |args| && CursorsInRange(c, F(nIn, nOut))
      modifies this`args, this`inArgs, this`outValues
      ensures F(nIn', nOut') == Advance(c, i, old(F(nIn, nOut)))
    {
      nIn', nOut' := nIn, nOut;
      match c.dir {
        case FromPython =>
          args := args[i := Some(InCell(nIn))];
          nIn' := nIn + 1;
        case Bidirectional =>
          if inArgs[nIn] != ZERO {
            outValues := outValues[nOut := inArgs[nIn]];
          }
          inArgs := inArgs[nIn := OutRef(nOut)];
          args := args[i := Some(OutCell(nOut))];
          nIn', nOut' := nIn + 1, nOut + 1;
        case ToPython =>
          args := args[i := Some(OutCell(nOut))];
          nOut' := nOut + 1;
      }
    }

    /** One round of the in stage; `Done` means that the next one may follow. */
    method MarshalRound(sig: Callable, t: Table, env: Env, types: Types, i: nat, nIn: nat, nOut: nat)
      returns (r: InResult, nIn': nat, nOut': nat)
      requires Generated(sig, t) && CellsAgree(sig) && i < sig.Slots() && |py| <= t.nPy
      requires FrameOk(sig, env, py, i, i, F(nIn, nOut)) && DataOk(sig, env, types, py, i, argsData) && log == []
      modifies this`args, this`inArgs, this`outValues, this`argsData, this`failed, this`log
      ensures r.Done? ==> log == [] && DataOk(sig, env, types, py, i + 1, argsData)
                          && FrameOk(sig, env, py, i + 1, i + 1, F(nIn', nOut'))
                          && (Marshalled(sig, i) ==> !Refuses(sig, env, py, i))
      ensures !r.TooManyArgs?
      ensures r.TooFewArgs? ==> r.at == i && Marshalled(sig, i) && |py| < t.nPy
      ensures r.RefusedAt? ==> r.at == i && Marshalled(sig, i) && Refuses(sig, env, py, i)
      ensures !r.Done? ==> failed && log == FailLog(sig, env, types, py, i, i)
                           && FrameOk(sig, env, py, i + 1, i, F(nIn', nOut'))
    {
      hide Generated, FrameOk, Refuses, Marshal, DataOk, Advance, Marshalled, CellsAgree, FailLog;
      RoundFacts(sig, t, env, py, i, F(nIn, nOut));
      var c := t.slots[i].value;
      nIn', nOut' := AdvanceSlot(c, i, nIn, nOut);
      ghost var f := F(nIn', nOut');
      InRoundLoc(sig, env, py, i, f);
      if c.meta == Closure {
        SkipOk(sig, env, py, i, f);
        DataSkip(sig, env, types, py, i, argsData);
        inArgs := inArgs[nIn' - 1 := env.userData];
        return Done, nIn', nOut';
      }
      if !(c.dir.Enters() && c.meta == Parent) {
        SkipOk(sig, env, py, i, f);
        DataSkip(sig, env, types, py, i, argsData);
        return Done, nIn', nOut';
      }
      ParentRecordIs(sig, t, i);
      if c.pyIndex >= |py| {
        CleanupParameterFail(sig, t, env, types, i - 1, nIn', nOut');
        return TooFewArgs(i), nIn', nOut';
      }
      var ok := MarshalSlot(sig, t, env, types, i, py[c.pyIndex], nIn', nOut');
      if !ok {
        CleanupParameterFail(sig, t, env, types, i - 1, nIn', nOut');
        return RefusedAt(i), nIn', nOut';
      }
      return Done, nIn', nOut';
    }

    /** `_invoke_marshal_in_args` */
    method MarshalInArgs(sig: Callable, t: Table, env: Env, types: Types) returns (r: InResult, nIn: nat, nOut: nat)
      requires Generated(sig, t) && CellsAgree(sig)
      requires F(0, 0) == StartFrame(sig, t) && DataOk(sig, env, types, py, 0, argsData) && log == []
      modifies this`args, this`inArgs, this`outValues, this`argsData, this`failed, this`log
      ensures r.Done? ==> log == [] && DataOk(sig, env, types, py, sig.Slots(), argsData)
                          && FrameOk(sig, env, py, sig.Slots(), sig.Slots(), F(nIn, nOut))
                          && forall i :: Marshalled(sig, i) ==> !Refuses(sig, env, py, i)
      ensures r.TooManyArgs? <==> |py| > t.nPy
      ensures r.TooManyArgs? ==> log == []
      ensures r.TooFewArgs? ==> r.at < sig.Slots() && Marshalled(sig, r.at) && |py| < t.nPy
      ensures r.RefusedAt? ==> r.at < sig.Slots() && Marshalled(sig, r.at) && Refuses(sig, env, py, r.at)
      ensures r.TooFewArgs? || r.RefusedAt? ==>
                && failed && log == FailLog(sig, env, types, py, r.at, r.at)
                && FrameOk(sig, env, py, r.at + 1, r.at, F(nIn, nOut))
                && forall i :: i < r.at && Marshalled(sig, i) ==> !Refuses(sig, env, py, i)
    {
      hide Generated, FrameOk, Refuses, DataOk, CellsAgree, FailLog, StartFrame;
      nIn, nOut := 0, 0;
      if |py| > t.nPy {
        return TooManyArgs, 0, 0;
      }
      StartOk(sig, t, env, py);
      for i := 0 to sig.Slots()
        invariant FrameOk(sig, env, py, i, i, F(nIn, nOut)) && DataOk(sig, env, types, py, i, argsData) && log == []
        invariant forall j :: 0 <= j < i && Marshalled(sig, j) ==> !Refuses(sig, env, py, j)
      {
        r, nIn, nOut := MarshalRound(sig, t, env, types, i, nIn, nOut);
        if !r.Done? {
          return;
        }
      }
      r := Done;
    }

    /** `_invoke_callable`: the call, and its two error exits, each with a driver of its own. `cOut` is what C leaves in
        the out values, `called` what the call returns, and `errorSet` whether it set the GError passed to it. */
    method InvokeCallable(sig: Callable, t: Table, env: Env, types: Types, cOut: seq<CVal>, called: bool,
                          errorSet: bool, ghost before: Frame) returns (ok: bool)
      requires Generated(sig, t) && DataOk(sig, env, types, py, sig.Slots(), argsData)
      requires FrameOk(sig, env, py, sig.Slots(), sig.Slots(), before)
      requires inArgs == before.inArgs && args == before.args
      modifies this`outValues, this`log
      ensures outValues == cOut && (ok <==> called && !errorSet)
      ensures log == if ok then old(log) else old(log) + SuccessLog(sig, env, types, py, sig.Slots())
    {
      hide Generated, FrameOk, DataOk, SuccessLog;
      outValues := cOut;
      if !called {
        CleanupMarshalSuccess(sig, t, env, types, before);
        return false;
      }
      if errorSet {
        CleanupMarshalSuccess(sig, t, env, types, before);
        return false;
      }
      return true;
    }

    /** The invocation up to the out stage; every exit after the in stage has run exactly one driver. */
    method InvokeC(sig: Callable, t: Table, env: Env, types: Types, cOut: seq<CVal>, called: bool, errorSet: bool)
      returns (r: InResult, ok: bool)
      requires Generated(sig, t) && CellsAgree(sig)
      requires F(0, 0) == StartFrame(sig, t) && DataOk(sig, env, types, py, 0, argsData) && log == []
      modifies this`args, this`inArgs, this`outValues, this`argsData, this`failed, this`log
      ensures ok <==> r.Done? && called && !errorSet
      ensures r.Done? ==> log == SuccessLog(sig, env, types, py, sig.Slots()) && outValues == cOut
      ensures r.TooManyArgs? <==> |py| > t.nPy
      ensures r.TooManyArgs? ==> log == []
      ensures r.TooFewArgs? ==> r.at < sig.Slots() && |py| < t.nPy
      ensures r.RefusedAt? ==> r.at < sig.Slots() && Marshalled(sig, r.at) && Refuses(sig, env, py, r.at)
      ensures r.TooFewArgs? || r.RefusedAt? ==> log == FailLog(sig, env, types, py, r.at, r.at)
    {
      var nIn, nOut;
      r, nIn, nOut := MarshalInArgs(sig, t, env, types);
      hide Generated, FrameOk, DataOk, CellsAgree, FailLog, SuccessLog, Refuses;
      if !r.Done? {
        return r, false;
      }
      ghost var before := F(nIn, nOut);
      ghost var cleanups := SuccessLog(sig, env, types, py, sig.Slots());
      assert [] + cleanups == cleanups;
      ok := InvokeCallable(sig, t, env, types, cOut, called, errorSet, before);
      if !ok {
        return r, false;
      }
      CleanupMarshalSuccess(sig, t, env, types, before);
    }
  }

  /** What one round needs to know about its slot. */
  lemma RoundFacts(sig: Callable, t: Table, env: Env, py: seq<PyVal>, i: nat, f: Frame)
    requires Generated(sig, t) && i < sig.Slots() && FrameOk(sig, env, py, i, i, f)
    ensures i < |t.slots| && t.slots[i].Some? && |f.args| == sig.Slots()
    ensures var c := t.slots[i].value;
            && c.dir == sig.Dir(i) && (c.meta == Closure <==> sig.SelfClosure(i))
            && (c.meta == Closure ==> c.dir == FromPython)
            && (Marshalled(sig, i) <==> c.dir.Enters() && c.meta == Parent)
            && CursorsInRange(c, f) && FrameOk(sig, env, py, i + 1, i, Advance(c, i, f))
  {
    var c := SlotAt(sig, t, i);
    AdvanceOk(sig, env, py, c, i, f);
  }

  lemma InRoundLoc(sig: Callable, env: Env, py: seq<PyVal>, i: nat, f: Frame)
    requires FrameOk(sig, env, py, i + 1, i, f)
    ensures f.args[i] == Some(LocOf(sig, i)) && InRange(f, LocOf(sig, i))
    ensures sig.Dir(i) == FromPython ==> f.inCount == InIndex(sig, i) + 1
  {
    CountMonotone(Entering(sig), i, sig.Slots());
    CountMonotone(Leaving(sig), i, sig.Slots());
  }

  /** The marshaller does not look at the cursors. */
  lemma MarshalCursors(sig: Callable, t: Table, env: Env, i: nat, v: PyVal, loc: Loc, f: Frame, inCount: nat,
                       outCount: nat)
    requires ChildrenInRange(sig, t, i, f) && InRange(f, loc) && f.inCount == inCount && f.outCount == outCount
    ensures var r, r0 := Marshal(sig, t, env, i, v, loc, f),
                           Marshal(sig, t, env, i, v, loc, f.(inCount := 0, outCount := 0));
            if r.Ok? then r0.Ok? && r.frame == r0.frame.(inCount := inCount, outCount := outCount) else r0 == r
  {
  }
}