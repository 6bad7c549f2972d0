/** What holds on every run of the closure state machine. */
module ClosureRuns {
  import opened Prelude
  import opened ClosureLife
  import opened ClosureProof

  lemma StepInv(s: State, a: Action)
    requires Inv(s) && Allowed(s, a)
    ensures Inv(Step(s, a))
  {
    hide Inv;
    match a
    case BeginInvoke => BeginInv(s);
    case MakeClosure(scope, f, d) => MakeInv(s, scope, f, d);
    case AbandonClosure(scope, f, d) => AbandonInv(s, scope, f, d);
    case EnterCallback(c) => EnterInv(s, c);
    case DropData => DropInv(s);
    case LeaveCallback => LeaveInv(s);
    case EndInvoke(k) => EndInv(s, k);
    case DestroyNotify(c) => NotifyInv(s, c);
  }

  lemma MakeInv(s: State, scope: Scope, func: nat, userData: nat)
    requires Inv(s) && Allowed(s, MakeClosure(scope, func, userData))
    ensures Inv(Step(s, MakeClosure(scope, func, userData)))
  {
    var p := s.(mem := FreeEach(s.mem, s.freeList), freeList := []);
    DrainInv(s);
    NewIsUnknown(p);
    AddInv(p, scope, func, userData);
    hide Inv, FreeEach;
    if scope == Call {
      OwnInv(Make(s, scope, func, userData), |s.scopes|);
    }
  }

  lemma AbandonInv(s: State, scope: Scope, func: nat, userData: nat)
    requires Inv(s)
    ensures Inv(Step(s, AbandonClosure(scope, func, userData)))
  {
    var p := s.(mem := FreeEach(s.mem, s.freeList), freeList := []);
    DrainInv(s);
    NewIsUnknown(p);
    AddInv(p, scope, func, userData);
    hide Inv, FreeEach, Free;
    WithholdInv(Make(s, scope, func, userData), |s.scopes|);
  }

  lemma {:induction false} RunInv(actions: seq<Action>)
    requires Legal(actions)
    ensures Inv(Run(actions))
    decreases |actions|
  {
    hide Inv, Allowed, Step;
    if actions == [] {
      StartInv();
    } else {
      RunInv(actions[..|actions| - 1]);
      StepInv(Run(actions[..|actions| - 1]), actions[|actions| - 1]);
    }
  }

  /** No closure is freed twice, or freed and still running; the free list has no duplicates, and holds only allocated,
      idle closures that hold no data; a freed closure dropped each of its references exactly once. */
  ghost predicate Safe(s: State) {
    && (forall c: nat :: CountedOnce(s, c))
    && (forall c: nat :: Running(s.stack, c) ==> s.mem.freed[c] == 0 && c in s.mem.live)
    && NoDup(s.freeList)
    && (forall c :: c in s.freeList ==>
          s.mem.freed[c] == 0 && !Running(s.stack, c) && c in s.mem.live && s.mem.live[c] == Closure(None, None))
  }

  ghost predicate CountedOnce(s: State, c: nat) {
    && s.mem.freed[c] <= 1 && (s.mem.freed[c] == 1 <==> c < |s.scopes| && c !in s.mem.live)
    && s.mem.functionDrops[c] <= 1 && s.mem.dataDrops[c] <= 1
    && (s.mem.freed[c] == 1 ==> s.mem.functionDrops[c] == 1 && s.mem.dataDrops[c] == 1)
  }

  /** Every run is safe; and the next call into C is to a closure that is allocated and holds its function. */
  lemma RunSafe(actions: seq<Action>, c: nat)
    requires Legal(actions)
    ensures Safe(Run(actions))
    ensures Allowed(Run(actions), EnterCallback(c)) ==>
              c in Run(actions).mem.live && Run(actions).mem.live[c].func.Some?
  {
    RunInv(actions);
    InvSafe(Run(actions));
    hide Inv, Allowed, Run;
    if Allowed(Run(actions), EnterCallback(c)) {
      CalledIsLive(Run(actions), c);
    }
  }

  lemma InvSafe(s: State)
    requires Inv(s)
    ensures Safe(s)
  {
    hide Kept, AllApart, Running;
    forall c: nat ensures CountedOnce(s, c) {
      assert CountsAt(s.mem, |s.scopes|, c);
    }
    forall c: nat | Running(s.stack, c) ensures s.mem.freed[c] == 0 && c in s.mem.live {
      RunningIsKnown(s, c);
      assert CountedOnce(s, c);
    }
    forall c | c in s.freeList ensures s.mem.freed[c] == 0 {
      assert CountedOnce(s, c);
    }
  }

  /** Nothing is kept too long: once another closure is made, every async closure that has returned is freed. */
  lemma ReturnedAsyncIsFreed(actions: seq<Action>, scope: Scope, func: nat, userData: nat, c: nat)
    requires Legal(actions) && Allowed(Run(actions), MakeClosure(scope, func, userData))
    requires var s := Run(actions);
             c < |s.scopes| && s.scopes[c] == Async && c in s.called && !Running(s.stack, c)
    ensures Step(Run(actions), MakeClosure(scope, func, userData)).mem.freed[c] == 1
  {
    RunInv(actions);
    hide Run, Inv, Allowed, Running, FreeEach;
    DrainedIsFreed(Run(actions), c);
  }

  lemma DrainedIsFreed(s: State, c: nat)
    requires Inv(s) && c < |s.scopes| && s.scopes[c] == Async && c in s.called && !Running(s.stack, c)
    ensures FreeEach(s.mem, s.freeList).freed[c] == 1
  {
    hide Counts, Frames, AllApart, Running, FreeEach, CountedOnce;
    var p := s.(mem := FreeEach(s.mem, s.freeList), freeList := []);
    DrainInv(s);
    InvSafe(p);
    assert KeptAt(p, c);
    assert CountedOnce(p, c);
    hide Inv, Safe;
    FreedIffGone(p, c);
  }

  lemma FreedIffGone(s: State, c: nat)
    requires CountedOnce(s, c) && c < |s.scopes| && c !in s.mem.live
    ensures s.mem.freed[c] == 1
  {
  }

  lemma {:induction false} FreeEachCounts(m: Memory, cs: seq<nat>)
    ensures FreeEach(m, cs).freed == m.freed + multiset(cs)
    decreases |cs|
  {
    if cs != [] {
      FreeEachCounts(m, cs[..|cs| - 1]);
      assert cs == cs[..|cs| - 1] + [cs[|cs| - 1]];
    }
  }

  /** Closure `c` is called, drops its data and returns, and then another closure is made. */
  function SecondCall(s: State, c: nat, func: nat, userData: nat): State
    requires c < |s.scopes| && s.scopes[c] == Async
  {
    var dropped := Step(Step(s, EnterCallback(c)), DropData);
    Step(Step(dropped, LeaveCallback), MakeClosure(Notified, func, userData))
  }

  /** The once-only rule is needed: after any legal run, one more call of an async closure that has returned frees it
      twice in all, whether it was still on the list or another closure was made in between. */
  lemma SecondCallFreesTwice(actions: seq<Action>, c: nat, func: nat, userData: nat)
    requires Legal(actions)
    requires var s := Run(actions);
             c < |s.scopes| && s.scopes[c] == Async && c in s.called && !Running(s.stack, c)
    ensures !Allowed(Run(actions), EnterCallback(c))
    ensures SecondCall(Run(actions), c, func, userData).mem.freed[c] == 2
  {
    RunInv(actions);
    hide Run, Legal, Running, Inv;
    ReturnedOnce(Run(actions), c);
    SecondCallCounts(Run(actions), c, func, userData);
  }

  /** An async closure that has returned was freed or is on the list. */
  lemma ReturnedOnce(s: State, c: nat)
    requires Inv(s) && c < |s.scopes| && s.scopes[c] == Async && c in s.called && !Running(s.stack, c)
    ensures s.mem.freed[c] + multiset(s.freeList)[c] == 1 && (c in s.mem.live ==> s.mem.live[c] == Closure(None, None))
  {
    hide Counts, Frames, AllApart, Running;
    assert KeptAt(s, c);
    assert CountsAt(s.mem, |s.scopes|, c) by { CountsHere(s, c); }
    OnListOnce(s.freeList, c);
  }

  lemma CountsHere(s: State, c: nat)
    requires Counts(s)
    ensures CountsAt(s.mem, |s.scopes|, c)
  {
    hide CountsAt;
  }

  lemma {:induction false} OnListOnce(cs: seq<nat>, c: nat)
    requires NoDup(cs)
    ensures multiset(cs)[c] == if c in cs then 1 else 0
  {
    if cs != [] {
      var rest := cs[..|cs| - 1];
      assert cs == rest + [cs[|cs| - 1]];
      OnListOnce(rest, c);
    }
  }

  lemma SecondCallCounts(s: State, c: nat, func: nat, userData: nat)
    requires c < |s.scopes| && s.scopes[c] == Async
    ensures SecondCall(s, c, func, userData).mem.freed[c] == s.mem.freed[c] + multiset(s.freeList)[c] + 1
  {
    var entered := Step(s, EnterCallback(c));
    var dropped := Step(entered, DropData);
    var left := Step(dropped, LeaveCallback);
    assert Top(dropped) == Callback(c, true) && left.freeList == [c] + s.freeList && left.mem.freed == s.mem.freed;
    FreeEachCounts(left.mem, left.freeList);
    assert multiset(left.freeList) == multiset{c} + multiset(s.freeList);
  }

  lemma RunAppend(run: seq<Action>, a: Action)
    requires Legal(run) && Allowed(Run(run), a)
    ensures Legal(run + [a]) && Run(run + [a]) == Step(Run(run), a)
  {
    assert (run + [a])[..|run|] == run;
  }

  function AsyncReturns(func: nat, userData: nat): seq<Action> {
    [MakeClosure(Async, func, userData)] + [EnterCallback(0)] + [DropData] + [LeaveCallback]
  }

  /** Both kinds of run exist: from the start, one async closure is called once and waits on the list, or is freed. */
  lemma ReturnedRuns(func: nat, userData: nat)
    ensures var run := AsyncReturns(func, userData);
            && Legal(run) && Run(run).scopes == [Async] && 0 in Run(run).called && Run(run).stack == []
            && Run(run).freeList == [0]
    ensures var run := AsyncReturns(func, userData) + [MakeClosure(Notified, func, userData)];
            && Legal(run) && Run(run).scopes == [Async, Notified] && 0 in Run(run).called && Run(run).stack == []
            && Run(run).freeList == []
  {
    hide *;
    var r1 := [MakeClosure(Async, func, userData)];
    var r2 := r1 + [EnterCallback(0)];
    var r3 := r2 + [DropData];
    assert [] + r1 == r1;
    EmptyRun();
    FirstCall(func, userData);
    RunAppend([], MakeClosure(Async, func, userData));
    RunAppend(r1, EnterCallback(0));
    RunAppend(r2, DropData);
    RunAppend(r3, LeaveCallback);
    RunIs(func, userData);
    LaterMake(Run(r3 + [LeaveCallback]), func, userData);
    RunAppend(r3 + [LeaveCallback], MakeClosure(Notified, func, userData));
  }

  lemma EmptyRun()
    ensures Legal([]) && Run([]) == START
  {
  }

  lemma RunIs(func: nat, userData: nat)
    ensures AsyncReturns(func, userData) ==
            [MakeClosure(Async, func, userData)] + [EnterCallback(0)] + [DropData] + [LeaveCallback]
  {
  }

  lemma FirstCall(func: nat, userData: nat)
    ensures Allowed(START, MakeClosure(Async, func, userData))
    ensures var s1 := Step(START, MakeClosure(Async, func, userData));
            && Allowed(s1, EnterCallback(0))
            && var s2 := Step(s1, EnterCallback(0));
               && Allowed(s2, DropData)
               && var s3 := Step(s2, DropData);
                  && Allowed(s3, LeaveCallback)
                  && var s4 := Step(s3, LeaveCallback);
                     s4.scopes == [Async] && 0 in s4.called && s4.stack == [] && s4.freeList == [0]
  {
    hide Clear, FreeEach;
  }

  lemma LaterMake(s: State, func: nat, userData: nat)
    ensures Allowed(s, MakeClosure(Notified, func, userData))
    ensures var t := Step(s, MakeClosure(Notified, func, userData));
            t.scopes == s.scopes + [Notified] && t.called == s.called && t.stack == s.stack && t.freeList == []
  {
    hide FreeEach;
  }
}
