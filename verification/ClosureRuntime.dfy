/** The functions of `gi/pygi-closure.c` over the global list of finished async closures. */
module ClosureRuntime {
  import opened Prelude
  import opened ClosureLife
  import opened ClosureProof

  class Runtime {
    var live: map<nat, Closure>
    var scopes: seq<Scope>
    var asyncFreeList: seq<nat>
    ghost var freed: multiset<nat>
    ghost var functionDrops: multiset<nat>
    ghost var dataDrops: multiset<nat>

    ghost function Mem(): Memory reads this { Memory(live, freed, functionDrops, dataDrops) }

    /** `rest` with the fields kept here. */
    ghost function View(rest: State): State reads this
        { rest.(mem := Mem(), scopes := scopes, freeList := asyncFreeList) }

    constructor ()
      ensures View(START) == START
    {
      live, scopes, asyncFreeList := map[], [], [];
      freed, functionDrops, dataDrops := multiset{}, multiset{}, multiset{};
    }

    /** `_pygi_invoke_closure_clear_py_data`. */
    method ClearPyData(c: nat)
      requires c in live
      modifies this`live, this`functionDrops, this`dataDrops
      ensures Mem() == Clear(old(Mem()), c)
    {
      var x := live[c];
      if x.func.Some? {
        functionDrops := functionDrops + multiset{c};
        x := x.(func := None);
      }
      if x.userData.Some? {
        dataDrops := dataDrops + multiset{c};
        x := x.(userData := None);
      }
      live := live[c := x];
      assert functionDrops == old(functionDrops) + Once(old(live)[c].func.Some?, c);
      assert dataDrops == old(dataDrops) + Once(old(live)[c].userData.Some?, c);
    }

    /** `_pygi_invoke_closure_free`. */
    method FreeClosure(c: nat)
      requires c in live
      modifies this`live, this`freed, this`functionDrops, this`dataDrops
      ensures Mem() == Free(old(Mem()), c)
    {
      ClearPyData(c);
      live := live - {c};
      freed := freed + multiset{c};
    }

    /** Front to back, as `g_slist_free_full` and the invocation's cleanup do. */
    method FreeClosures(cs: seq<nat>)
      requires NoDup(cs) && forall c :: c in cs ==> c in live
      modifies this`live, this`freed, this`functionDrops, this`dataDrops
      ensures Mem() == FreeEach(old(Mem()), cs)
    {
      hide Free, FreeEach;
      ghost var m := Mem();
      FreeEachEmpty(m);
      for i := 0 to |cs|
        invariant Mem() == FreeEach(m, cs[..i])
        invariant forall c :: c in cs[i..] ==> c in live
      {
        FreeEachLast(m, cs[..i + 1]);
        assert cs[..i + 1][..i] == cs[..i];
        OneFrees(Mem(), cs[i]);
        FreeClosure(cs[i]);
        assert forall c :: c in cs[i + 1..] ==> c in cs[i..] && c != cs[i];
      }
      assert cs[..|cs|] == cs;
    }

    /** `_pygi_make_native_closure`: first the closures on the list are freed and the list emptied. */
    method MakeNativeClosure(scope: Scope, func: nat, userData: nat, ghost rest: State) returns (c: nat)
      requires Inv(View(rest))
      modifies this
      ensures View(rest) == Make(old(View(rest)), scope, func, userData) && c == old(|scopes|)
    {
      hide Inv, FreeEach;
      ListIsLive(View(rest));
      FreeClosures(asyncFreeList);
      asyncFreeList := [];
      c := |scopes|;
      live := live[c := Closure(Some(func), Some(userData))];
      scopes := scopes + [scope];
    }

    /** The end of `_pygi_closure_handle`: an async closure drops its Python data, then joins the list. */
    method FinishCallback(c: nat, ghost rest: State)
      requires c in live && c < |scopes| && HasTop(rest) && Top(rest) == Callback(c, false)
      modifies this
      ensures var s := old(View(rest));
              View(rest.(stack := Under(rest)))
              == if old(scopes)[c] == Async then Step(Step(s, DropData), LeaveCallback) else Step(s, LeaveCallback)
    {
      hide Clear;
      match scopes[c]
      case Call =>
      case Notified =>
      case Async =>
        ClearPyData(c);
        asyncFreeList := [c] + asyncFreeList;
    }

    /** The cleanup of an invocation frees the first `cleaned` of its call-scoped closures. */
    method CleanupCallbacks(own: seq<nat>, cleaned: nat, ghost rest: State)
      requires HasTop(rest) && Top(rest) == Invocation(own) && cleaned <= |own| && Inv(View(rest))
      modifies this
      ensures View(rest.(stack := Under(rest))) == Step(old(View(rest)), EndInvoke(cleaned))
    {
      hide FreeEach;
      OwnPrefix(View(rest), cleaned);
      hide Inv;
      FreeClosures(own[..cleaned]);
    }
  }

  lemma FreeEachEmpty(m: Memory)
    ensures FreeEach(m, []) == m
  {
  }

  lemma ListIsLive(s: State)
    requires Inv(s)
    ensures NoDup(s.freeList) && forall c :: c in s.freeList ==> c in s.mem.live
  {
  }
}
