/** Which function a closure calls, and what becomes of the call-scoped closures. */
module ClosureResults {
  import opened Prelude
  import opened ClosureLife
  import opened ClosureProof
  import opened ClosureRuns

  /** What a closure was made with. */
  datatype Origin = Origin(scope: Scope, func: nat, userData: nat)

  /** The creations of a run, in order. */
  ghost function Origins(actions: seq<Action>): seq<Origin> {
    if actions == [] then []
    else
      Origins(actions[..|actions| - 1]) +
      match actions[|actions| - 1]
      case MakeClosure(scope, f, d) => [Origin(scope, f, d)]
      case AbandonClosure(scope, f, d) => [Origin(scope, f, d)]
      case _ => []
  }

  /** No closure holds anything but what it held in `m`. */
  ghost predicate Keeps(m: Memory, n: Memory) {
    forall c :: c in n.live ==>
      && c in m.live && (n.live[c].func.Some? ==> n.live[c].func == m.live[c].func)
      && (n.live[c].userData.Some? ==> n.live[c].userData == m.live[c].userData)
  }

  lemma KeepsClear(m: Memory, c: nat)
    ensures Keeps(m, Clear(m, c)) && Keeps(m, Free(m, c))
  {
  }

  lemma {:induction false} KeepsEach(m: Memory, cs: seq<nat>)
    ensures Keeps(m, FreeEach(m, cs))
    decreases |cs|
  {
    if cs != [] {
      KeepsEach(m, cs[..|cs| - 1]);
      KeepsClear(FreeEach(m, cs[..|cs| - 1]), cs[|cs| - 1]);
      hide Free;
    }
  }

  ghost predicate HoldsOrigins(s: State, origins: seq<Origin>) {
    && |origins| == |s.scopes| && (forall c :: 0 <= c < |origins| ==> s.scopes[c] == origins[c].scope)
    && forall c :: c in s.mem.live ==>
         && c < |origins| && (s.mem.live[c].func.Some? ==> s.mem.live[c].func.value == origins[c].func)
         && (s.mem.live[c].userData.Some? ==> s.mem.live[c].userData.value == origins[c].userData)
  }

  lemma OriginsKept(s: State, t: State, origins: seq<Origin>)
    requires HoldsOrigins(s, origins) && t.scopes == s.scopes && Keeps(s.mem, t.mem)
    ensures HoldsOrigins(t, origins)
  {
  }

  lemma OriginAdded(s: State, scope: Scope, f: nat, d: nat, origins: seq<Origin>)
    requires HoldsOrigins(s, origins)
    ensures HoldsOrigins(Make(s, scope, f, d), origins + [Origin(scope, f, d)])
  {
    KeepsEach(s.mem, s.freeList);
    hide FreeEach;
  }

  lemma StepOrigins(s: State, a: Action, origins: seq<Origin>)
    requires CanHappen(s, a) && HoldsOrigins(s, origins)
    ensures HoldsOrigins(Step(s, a), origins + match a
                                               case MakeClosure(scope, f, d) => [Origin(scope, f, d)]
                                               case AbandonClosure(scope, f, d) => [Origin(scope, f, d)]
                                               case _ => [])
  {
    hide HoldsOrigins, FreeEach, Clear, Free, Make, Keeps;
    assert origins + [] == origins;
    KeepsSame(s.mem);
    match a
    case MakeClosure(scope, f, d) =>
      OriginAdded(s, scope, f, d, origins);
      KeepsSame(Make(s, scope, f, d).mem);
      OriginsKept(Make(s, scope, f, d), Step(s, a), origins + [Origin(scope, f, d)]);
    case AbandonClosure(scope, f, d) =>
      OriginAdded(s, scope, f, d, origins);
      KeepsClear(Make(s, scope, f, d).mem, |s.scopes|);
      OriginsKept(Make(s, scope, f, d), Step(s, a), origins + [Origin(scope, f, d)]);
    case DropData =>
      KeepsClear(s.mem, Top(s).closure);
      OriginsKept(s, Step(s, a), origins);
    case EndInvoke(k) =>
      KeepsEach(s.mem, Top(s).own[..k]);
      OriginsKept(s, Step(s, a), origins);
    case DestroyNotify(c) =>
      KeepsClear(s.mem, c);
      OriginsKept(s, Step(s, a), origins);
    case _ => OriginsKept(s, Step(s, a), origins);
  }

  lemma KeepsSame(m: Memory)
    ensures Keeps(m, m)
  {
  }

  lemma {:induction false} RunOrigins(actions: seq<Action>)
    requires Legal(actions)
    ensures HoldsOrigins(Run(actions), Origins(actions))
    decreases |actions|
  {
    hide Step, HoldsOrigins;
    if actions == [] {
      NoOrigins();
    } else {
      RunOrigins(actions[..|actions| - 1]);
      StepOrigins(Run(actions[..|actions| - 1]), actions[|actions| - 1], Origins(actions[..|actions| - 1]));
    }
  }

  lemma NoOrigins()
    ensures HoldsOrigins(START, [])
  {
  }

  /** On every run, C calls the Python function the closure was made for, with the user data it was made with. */
  lemma CalledHoldsItsOrigin(actions: seq<Action>, c: nat)
    requires Legal(actions) && Allowed(Run(actions), EnterCallback(c))
    ensures c in Run(actions).mem.live && c < |Origins(actions)|
    ensures var o := Origins(actions)[c];
            Run(actions).mem.live[c] == Closure(Some(o.func), Some(o.userData))
  {
    RunInv(actions);
    RunOrigins(actions);
    hide Run, Inv, Origins, Legal;
    CalledIsLive(Run(actions), c);
  }

  /** The first `k` of the closures were freed, once each, and the others are allocated. */
  ghost predicate FreedUpTo(cs: seq<nat>, k: nat, m: Memory) {
    && (forall i :: 0 <= i < k <= |cs| ==> m.freed[cs[i]] == 1 && cs[i] !in m.live)
    && (forall i :: k <= i < |cs| ==> m.freed[cs[i]] == 0 && cs[i] in m.live)
  }

  /** When an invocation ends, the call-scoped closures its cleanup reaches have been freed; the others it leaves. */
  lemma EndedInvocationFrees(actions: seq<Action>, k: nat)
    requires Legal(actions) && Allowed(Run(actions), EndInvoke(k))
    ensures FreedUpTo(Top(Run(actions)).own, k, Step(Run(actions), EndInvoke(k)).mem)
  {
    hide Run, Legal, Inv, Step, Running, Owned, Frees, FreedUpTo, FreeEach;
    var s := Run(actions);
    RunInv(actions);
    EndedFrees(s, k);
    OwnIsLive(s, k);
    FirstAreFreed(Top(s).own, k, s.mem, Step(s, EndInvoke(k)).mem);
  }

  lemma EndedFrees(s: State, k: nat)
    requires Inv(s) && Allowed(s, EndInvoke(k))
    ensures Frees(s.mem, Step(s, EndInvoke(k)).mem, Top(s).own[..k])
  {
    OwnPrefix(s, k);
    hide Inv, Frees, Owned, Running;
    FreeEachFrees(s.mem, Top(s).own[..k]);
  }

  lemma FirstAreFreed(own: seq<nat>, k: nat, m: Memory, n: Memory)
    requires k <= |own| && NoDup(own) && Frees(m, n, own[..k])
    requires forall c :: c in own ==> c in m.live && m.freed[c] == 0
    ensures FreedUpTo(own, k, n)
  {
    forall i | 0 <= i < |own| ensures own[i] in own[..k] <==> i < k {
      assert i < k ==> own[..k][i] == own[i];
    }
    hide NoDup;
  }

  lemma OwnIsLive(s: State, k: nat)
    requires Inv(s) && Allowed(s, EndInvoke(k))
    ensures HasTop(s) && Top(s).Invocation? && k <= |Top(s).own| && NoDup(Top(s).own)
    ensures forall c :: c in Top(s).own ==> c in s.mem.live && s.mem.freed[c] == 0
  {
    assert FrameAt(s, |s.stack| - 1);
    forall c | c in Top(s).own ensures s.mem.freed[c] == 0 {
      assert CountsAt(s.mem, |s.scopes|, c);
    }
  }

  /** A call-scoped closure may be called at once, and is freed when the invocation that made it ends well. */
  lemma CallScopedIsFreed(actions: seq<Action>, func: nat, userData: nat)
    requires Legal(actions) && Allowed(Run(actions), MakeClosure(Call, func, userData))
    ensures var c := |Run(actions).scopes|;
            var made := Step(Run(actions), MakeClosure(Call, func, userData));
            && Allowed(made, EnterCallback(c)) && HasTop(made) && Top(made).Invocation?
            && Allowed(made, EndInvoke(|Top(made).own|))
            && Step(made, EndInvoke(|Top(made).own|)).mem.freed[c] == 1
  {
    hide Run, Legal, Inv, Step, Owned, Running, Origins;
    var a := MakeClosure(Call, func, userData);
    RunInv(actions);
    NewIsUnknown(Run(actions));
    MadeIsOwned(Run(actions), func, userData);
    RunNext(actions, a);
    var own := Top(Run(actions + [a])).own;
    EndedInvocationFrees(actions + [a], |own|);
    var last := |own| - 1;
    assert 0 <= last < |own| && own[last] == |Run(actions).scopes|;
    assert Step(Run(actions + [a]), EndInvoke(|own|)).mem.freed[own[last]] == 1;
  }

  lemma RunNext(actions: seq<Action>, a: Action)
    requires Legal(actions) && Allowed(Run(actions), a)
    ensures Legal(actions + [a]) && Run(actions + [a]) == Step(Run(actions), a)
  {
    hide Allowed, Step;
    assert (actions + [a])[..|actions|] == actions;
  }

  lemma MadeIsOwned(s: State, func: nat, userData: nat)
    requires Allowed(s, MakeClosure(Call, func, userData)) && |s.scopes| !in s.withheld
    ensures var c, made := |s.scopes|, Step(s, MakeClosure(Call, func, userData));
            && HasTop(made) && Top(made).Invocation? && Top(made).own != [] && Top(made).own[|Top(made).own| - 1] == c
            && Allowed(made, EnterCallback(c)) && Allowed(made, EndInvoke(|Top(made).own|))
  {
    hide FreeEach;
    var made := Step(s, MakeClosure(Call, func, userData));
    assert OwnsAt(made.stack, |made.stack| - 1, |s.scopes|);
  }

  /** A notified closure may be called, and its destroy-notify frees it. */
  lemma NotifiedIsFreed(actions: seq<Action>, func: nat, userData: nat)
    requires Legal(actions)
    ensures var c := |Run(actions).scopes|;
            var made := Step(Run(actions), MakeClosure(Notified, func, userData));
            && Allowed(made, EnterCallback(c)) && Allowed(made, DestroyNotify(c))
            && Step(made, DestroyNotify(c)).mem.freed[c] == 1 && c !in Step(made, DestroyNotify(c)).mem.live
  {
    hide Run, Legal, Inv, Step, Owned, Running, Origins, Safe;
    var a, c := MakeClosure(Notified, func, userData), |Run(actions).scopes|;
    RunInv(actions);
    NewIsUnknown(Run(actions));
    MadeIsNotified(Run(actions), func, userData);
    RunNext(actions, a);
    RunNext(actions + [a], DestroyNotify(c));
    RunInv(actions + [a] + [DestroyNotify(c)]);
    InvSafe(Run(actions + [a] + [DestroyNotify(c)]));
    SafeMeans(Run(actions + [a] + [DestroyNotify(c)]), c);
    NotifyFrees(Run(actions + [a]), c);
  }

  lemma SafeMeans(s: State, c: nat)
    requires Safe(s)
    ensures CountedOnce(s, c)
  {
  }

  lemma MadeIsNotified(s: State, func: nat, userData: nat)
    requires var c := |s.scopes|; c !in s.withheld && c !in s.notified && !Running(s.stack, c)
    ensures var c, made := |s.scopes|, Step(s, MakeClosure(Notified, func, userData));
            c < |made.scopes| && Allowed(made, EnterCallback(c)) && Allowed(made, DestroyNotify(c))
  {
    hide FreeEach, Running;
  }

  lemma NotifyFrees(s: State, c: nat)
    requires c < |s.scopes|
    ensures var t := Step(s, DestroyNotify(c)); c !in t.mem.live && t.scopes == s.scopes
  {
  }
}
