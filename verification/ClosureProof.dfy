/** Every action of a closure's life keeps one invariant. */
module ClosureProof {
  import opened Prelude
  import opened ClosureLife

  function Count(b: bool): nat { if b then 1 else 0 }

  /** Closure `c` is allocated or was freed, once; and each of its references is held or was dropped, once. */
  ghost predicate CountsAt(m: Memory, made: nat, c: nat) {
    && m.freed[c] + Count(c in m.live) == Count(c < made)
    && m.functionDrops[c] + Count(c in m.live && m.live[c].func.Some?) == Count(c < made)
    && m.dataDrops[c] + Count(c in m.live && m.live[c].userData.Some?) == Count(c < made)
  }

  /** What keeps closure `c` allocated, and its data. */
  ghost predicate KeptAt(s: State, c: nat)
    requires c < |s.scopes|
  {
    && (c in s.withheld ==> c !in s.mem.live)
    && (s.scopes[c] == Notified ==> (c in s.mem.live <==> c !in s.notified && c !in s.withheld))
    && (s.scopes[c] == Async ==>
          (c in s.mem.live <==> c !in s.withheld && (c in s.called ==> Running(s.stack, c) || c in s.freeList)))
    && (c in s.mem.live && (s.scopes[c] != Async || c !in s.called) ==>
          s.mem.live[c].func.Some? && s.mem.live[c].userData.Some?)
  }

  ghost predicate HistoryOk(s: State) {
    && (forall c :: c in s.called ==> c < |s.scopes|) && (forall c :: c in s.withheld ==> c < |s.scopes|)
    && (forall c :: c in s.notified ==> c < |s.scopes| && s.scopes[c] == Notified)
  }

  ghost predicate ListOk(s: State) {
    && NoDup(s.freeList)
    && forall c :: c in s.freeList ==>
         c < |s.scopes| && s.scopes[c] == Async && c in s.called && !Running(s.stack, c)
         && c in s.mem.live && s.mem.live[c] == Closure(None, None)
  }

  ghost predicate FrameAt(s: State, i: nat)
    requires i < |s.stack|
  {
    match s.stack[i]
    case Invocation(own) =>
      NoDup(own) && forall c :: c in own ==> c < |s.scopes| && s.scopes[c] == Call && c in s.mem.live
    case Callback(c, cleared) =>
      && c < |s.scopes| && c in s.called && c in s.mem.live
      && (s.scopes[c] == Call ==> Owned(s.stack[..i], c))
      && (s.scopes[c] == Async ==> s.mem.live[c].func.Some? == s.mem.live[c].userData.Some? == !cleared)
  }

  /** No call-scoped closure has two owners, and no async one runs twice. */
  ghost predicate Apart(scopes: seq<Scope>, a: Frame, b: Frame) {
    match (a, b)
    case (Invocation(x), Invocation(y)) => forall c :: c in x ==> c !in y
    case (Callback(x, _), Callback(y, _)) => x == y && x < |scopes| ==> scopes[x] != Async
    case _ => true
  }

  ghost predicate Counts(s: State) { forall c: nat :: CountsAt(s.mem, |s.scopes|, c) }
  ghost predicate Kept(s: State) { forall c: nat :: c < |s.scopes| ==> KeptAt(s, c) }
  ghost predicate Frames(s: State) { forall i: nat :: i < |s.stack| ==> FrameAt(s, i) }
  ghost predicate AllApart(scopes: seq<Scope>, stack: seq<Frame>) {
    forall i: nat, j: nat :: i < j < |stack| ==> Apart(scopes, stack[i], stack[j])
  }

  ghost predicate Inv(s: State) {
    Counts(s) && Kept(s) && HistoryOk(s) && ListOk(s) && Frames(s) && AllApart(s.scopes, s.stack)
  }

  // ---------------------------------------------------------------- freeing

  /** From `m` to `n` exactly the closures of `cs` were freed. */
  ghost predicate Frees(m: Memory, n: Memory, cs: seq<nat>) {
    forall c: nat ::
      && (c in n.live <==> c in m.live && c !in cs) && (c in n.live ==> n.live[c] == m.live[c])
      && n.freed[c] == m.freed[c] + Count(c in cs)
      && n.functionDrops[c] == m.functionDrops[c] + Count(c in cs && c in m.live && m.live[c].func.Some?)
      && n.dataDrops[c] == m.dataDrops[c] + Count(c in cs && c in m.live && m.live[c].userData.Some?)
  }

  lemma {:induction false} FreeEachFrees(m: Memory, cs: seq<nat>)
    requires NoDup(cs) && forall c :: c in cs ==> c in m.live
    ensures Frees(m, FreeEach(m, cs), cs)
    decreases |cs|
  {
    hide *;
    if cs == [] {
      NothingFrees(m);
    } else {
      var rest, last := cs[..|cs| - 1], cs[|cs| - 1];
      LastIsNew(cs);
      FreeEachFrees(m, rest);
      StillLive(m, FreeEach(m, rest), rest, last);
      OneFrees(FreeEach(m, rest), last);
      FreesTwice(m, FreeEach(m, rest), Free(FreeEach(m, rest), last), rest, last);
      assert cs == rest + [last];
      FreeEachLast(m, cs);
    }
  }

  lemma NothingFrees(m: Memory)
    ensures Frees(m, FreeEach(m, []), [])
  {
  }

  lemma LastIsNew(cs: seq<nat>)
    requires NoDup(cs) && cs != []
    ensures NoDup(cs[..|cs| - 1]) && cs[|cs| - 1] !in cs[..|cs| - 1]
  {
  }

  lemma StillLive(m: Memory, n: Memory, cs: seq<nat>, c: nat)
    requires Frees(m, n, cs) && c in m.live && c !in cs
    ensures c in n.live
  {
  }

  lemma FreeEachLast(m: Memory, cs: seq<nat>)
    requires cs != []
    ensures FreeEach(m, cs) == Free(FreeEach(m, cs[..|cs| - 1]), cs[|cs| - 1])
  {
    hide Free;
  }

  lemma FreesTwice(m: Memory, n: Memory, o: Memory, cs: seq<nat>, c: nat)
    requires Frees(m, n, cs) && Frees(n, o, [c]) && c !in cs
    ensures Frees(m, o, cs + [c])
  {
  }

  lemma CountsAfterFree(m: Memory, n: Memory, cs: seq<nat>, made: nat)
    requires Frees(m, n, cs) && (forall c :: c in cs ==> c in m.live) && forall c: nat :: CountsAt(m, made, c)
    ensures forall c: nat :: CountsAt(n, made, c)
  {
    forall c: nat ensures CountsAt(n, made, c) {
      assert CountsAt(m, made, c);
    }
  }

  // ---------------------------------------------------------------- one action at a time

  lemma StartInv()
    ensures Inv(START)
  {
  }

  /** Closures that nothing runs or owns are freed, and forgotten by the list. */
  lemma FreeInv(s: State, t: State, cs: seq<nat>)
    requires Inv(s) && Frees(s.mem, t.mem, cs) && t.scopes == s.scopes && t.stack == s.stack && t.called == s.called
    requires forall c :: c in cs ==> c in s.mem.live && !Running(s.stack, c) && !Owned(s.stack, c)
    requires s.notified <= t.notified <= s.notified + (set c | c in cs)
    requires s.withheld <= t.withheld <= s.withheld + (set c | c in cs)
    requires HistoryOk(t) && ListOk(t) && Kept(t)
    ensures Inv(t)
  {
    hide Kept, HistoryOk, ListOk, AllApart, CountsAt;
    CountsAfterFree(s.mem, t.mem, cs, |s.scopes|);
    forall i: nat | i < |s.stack| ensures FrameAt(t, i) {
      assert FrameAt(s, i);
      FrameKept(s, t, cs, i);
    }
  }

  lemma FrameKept(s: State, t: State, cs: seq<nat>, i: nat)
    requires i < |s.stack| && FrameAt(s, i) && Frees(s.mem, t.mem, cs) && t.scopes == s.scopes && t.stack == s.stack
    requires t.called == s.called
    requires forall c :: c in cs ==> !Running(s.stack, c) && !Owned(s.stack, c)
    ensures FrameAt(t, i)
  {
    match s.stack[i]
    case Invocation(own) =>
      forall c | c in own ensures c in t.mem.live {
        assert OwnsAt(s.stack, i, c);
      }
    case Callback(c, _) => assert RunsAt(s.stack, i, c);
  }

  lemma DrainInv(s: State)
    requires Inv(s)
    ensures Inv(s.(mem := FreeEach(s.mem, s.freeList), freeList := []))
  {
    hide Counts, CountsAt, Kept, KeptAt, HistoryOk, Frames, AllApart, FreeEach, Frees, Running, Owned;
    var t := s.(mem := FreeEach(s.mem, s.freeList), freeList := []);
    FreeEachFrees(s.mem, s.freeList);
    forall c | c in s.freeList ensures !Owned(s.stack, c) {
      OwnedIsCall(s, c);
    }
    KeptAll(s);
    forall c: nat | c < |s.scopes| ensures KeptAt(t, c) {
      DrainKeptAt(s, t, c);
    }
    AllKept(t);
    SameHistory(s, t);
    FreeInv(s, t, s.freeList);
  }

  lemma KeptAll(s: State)
    requires Kept(s)
    ensures forall c: nat :: c < |s.scopes| ==> KeptAt(s, c)
  {
    hide KeptAt;
  }

  lemma AllKept(s: State)
    requires forall c: nat :: c < |s.scopes| ==> KeptAt(s, c)
    ensures Kept(s)
  {
    hide KeptAt;
  }

  lemma SameHistory(s: State, t: State)
    requires HistoryOk(s) && t.scopes == s.scopes && t.called == s.called && t.notified == s.notified
    requires t.withheld == s.withheld
    ensures HistoryOk(t)
  {
  }

  lemma DrainKeptAt(s: State, t: State, c: nat)
    requires c < |s.scopes| && KeptAt(s, c) && ListOk(s) && Frees(s.mem, t.mem, s.freeList)
    requires t == s.(mem := t.mem, freeList := [])
    ensures KeptAt(t, c)
  {
    hide Running, NoDup;
  }

  lemma OwnedIsCall(s: State, c: nat)
    requires Frames(s)
    ensures Owned(s.stack, c) ==> c < |s.scopes| && s.scopes[c] == Call && c in s.mem.live
  {
    if Owned(s.stack, c) {
      var i: nat :| i < |s.stack| && OwnsAt(s.stack, i, c);
      assert FrameAt(s, i);
    }
  }

  lemma RunningIsKnown(s: State, c: nat)
    requires Frames(s) && Running(s.stack, c)
    ensures c < |s.scopes| && c in s.called && c in s.mem.live
  {
    var i: nat :| i < |s.stack| && RunsAt(s.stack, i, c);
    assert FrameAt(s, i);
  }

  /** The next id is new to everything. */
  lemma NewIsUnknown(s: State)
    requires Inv(s)
    ensures var c := |s.scopes|;
            && c !in s.mem.live && c !in s.freeList && c !in s.called && c !in s.notified && c !in s.withheld
            && !Running(s.stack, c) && !Owned(s.stack, c)
  {
    var c := |s.scopes|;
    assert CountsAt(s.mem, |s.scopes|, c);
    hide Counts, Kept, AllApart, Frames, Running, Owned;
    if Running(s.stack, c) { RunningIsKnown(s, c); }
    if Owned(s.stack, c) { OwnedIsCall(s, c); }
  }

  lemma AddInv(s: State, scope: Scope, func: nat, userData: nat)
    requires Inv(s)
    ensures Inv(Add(s, scope, func, userData))
  {
    hide Counts, CountsAt, Kept, KeptAt, Frames, FrameAt, AllApart, Running, Owned;
    var t := Add(s, scope, func, userData);
    NewIsUnknown(s);
    AddCounts(s, t, scope, func, userData);
    KeptAll(s);
    forall c: nat | c < |t.scopes| ensures KeptAt(t, c) {
      AddKeptAt(s, t, scope, func, userData, c);
    }
    AllKept(t);
    AddFrames(s, t, scope, func, userData);
  }

  lemma AddCounts(s: State, t: State, scope: Scope, func: nat, userData: nat)
    requires Counts(s) && |s.scopes| !in s.mem.live && t == Add(s, scope, func, userData)
    ensures Counts(t)
  {
    forall c: nat ensures CountsAt(t.mem, |t.scopes|, c) {
      assert CountsAt(s.mem, |s.scopes|, c);
    }
  }

  lemma AddKeptAt(s: State, t: State, scope: Scope, func: nat, userData: nat, c: nat)
    requires c < |t.scopes| && t == Add(s, scope, func, userData) && (c < |s.scopes| ==> KeptAt(s, c))
    requires var n := |s.scopes|; n !in s.called && n !in s.notified && n !in s.withheld
    ensures KeptAt(t, c)
  {
    hide Running;
  }

  lemma AddFrames(s: State, t: State, scope: Scope, func: nat, userData: nat)
    requires Frames(s) && AllApart(s.scopes, s.stack) && |s.scopes| !in s.mem.live && t == Add(s, scope, func, userData)
    ensures Frames(t) && AllApart(t.scopes, t.stack)
  {
    hide Owned, NoDup;
    forall i: nat | i < |t.stack| ensures FrameAt(t, i) {
      assert FrameAt(s, i);
    }
    forall i: nat, j: nat | i < j < |t.stack| ensures Apart(t.scopes, t.stack[i], t.stack[j]) {
      assert Apart(s.scopes, s.stack[i], s.stack[j]) && FrameAt(s, i);
    }
  }

  /** The top invocation takes over a call-scoped closure of its own. */
  lemma OwnInv(s: State, c: nat)
    requires Inv(s) && HasTop(s) && Top(s).Invocation? && c < |s.scopes| && s.scopes[c] == Call && c in s.mem.live
    requires !Owned(s.stack, c)
    ensures Inv(s.(stack := Under(s) + [Invocation(Top(s).own + [c])]))
  {
    hide Counts, Kept, KeptAt, ListOk, HistoryOk, Frames, AllApart, Owned, Running, CountsAt;
    var t := s.(stack := Under(s) + [Invocation(Top(s).own + [c])]);
    forall x: nat ensures Running(t.stack, x) <==> Running(s.stack, x) {
      SameRuns(s.stack, t.stack, x);
    }
    TopReplaced(s, t);
    OwnFrames(s, t, c);
    SameCounts(s, t);
  }

  lemma SameRuns(a: seq<Frame>, b: seq<Frame>, c: nat)
    requires |a| == |b| && forall i: nat :: i < |a| ==> (RunsAt(a, i, c) <==> RunsAt(b, i, c))
    ensures Running(a, c) <==> Running(b, c)
  {
    hide RunsAt;
  }

  lemma SameCounts(s: State, t: State)
    requires Counts(s) && t.mem == s.mem && t.scopes == s.scopes
    ensures Counts(t)
  {
    hide CountsAt;
    forall c: nat ensures CountsAt(t.mem, |t.scopes|, c) {
      assert CountsAt(s.mem, |s.scopes|, c);
    }
  }

  /** Another stack on which the same closures run. */
  lemma TopReplaced(s: State, t: State)
    requires Kept(s) && ListOk(s) && HistoryOk(s) && t == s.(stack := t.stack)
    requires forall x: nat :: Running(t.stack, x) <==> Running(s.stack, x)
    ensures Kept(t) && ListOk(t) && HistoryOk(t)
  {
    hide Running;
    forall x: nat | x < |t.scopes| ensures KeptAt(t, x) {
      assert KeptAt(s, x);
    }
  }

  lemma OwnFrames(s: State, t: State, c: nat)
    requires Frames(s) && AllApart(s.scopes, s.stack) && HasTop(s) && Top(s).Invocation?
    requires c < |s.scopes| && s.scopes[c] == Call && c in s.mem.live && !Owned(s.stack, c)
    requires t == s.(stack := Under(s) + [Invocation(Top(s).own + [c])])
    ensures Frames(t) && AllApart(t.scopes, t.stack)
  {
    var last := |s.stack| - 1;
    assert !OwnsAt(s.stack, last, c) && FrameAt(s, last);
    forall i: nat | i < |t.stack| ensures FrameAt(t, i) {
      assert FrameAt(s, i);
      assert i < last ==> t.stack[i] == s.stack[i] && t.stack[..i] == s.stack[..i];
    }
    forall i: nat, j: nat | i < j < |t.stack| ensures Apart(t.scopes, t.stack[i], t.stack[j]) {
      assert Apart(s.scopes, s.stack[i], s.stack[j]) && !OwnsAt(s.stack, i, c);
    }
  }

  /** A closure C never saw is freed. */
  lemma WithholdInv(s: State, c: nat)
    requires Inv(s) && c in s.mem.live && c < |s.scopes| && !Running(s.stack, c) && !Owned(s.stack, c) && c !in s.called
    requires c !in s.freeList && c !in s.notified
    ensures Inv(s.(mem := Free(s.mem, c), withheld := s.withheld + {c}))
  {
    hide Counts, CountsAt, KeptAt, Kept, Frames, AllApart, Free, Frees, Running, Owned, ListOk, HistoryOk;
    var t := s.(mem := Free(s.mem, c), withheld := s.withheld + {c});
    OneFrees(s.mem, c);
    FreeListOk(s, t, c);
    KeptAll(s);
    forall x: nat | x < |s.scopes| ensures KeptAt(t, x) {
      FreeKeptAt(s, t, c, x);
    }
    AllKept(t);
    FreeInv(s, t, [c]);
  }

  lemma FreeListOk(s: State, t: State, c: nat)
    requires ListOk(s) && HistoryOk(s) && Frees(s.mem, t.mem, [c]) && c < |s.scopes| && c !in s.freeList
    requires t == s.(mem := t.mem, withheld := s.withheld + {c})
             || (t == s.(mem := t.mem, notified := s.notified + {c}) && s.scopes[c] == Notified)
    ensures ListOk(t) && HistoryOk(t)
  {
    hide Running, NoDup;
  }

  lemma NotifiedIsLive(s: State, c: nat)
    requires c < |s.scopes| && KeptAt(s, c) && ListOk(s) && s.scopes[c] == Notified && c !in s.notified
    requires c !in s.withheld
    ensures c in s.mem.live && c !in s.freeList
  {
    hide Running, NoDup;
  }

  lemma OneFrees(m: Memory, c: nat)
    requires c in m.live
    ensures Frees(m, Free(m, c), [c])
  {
  }

  lemma FreeKeptAt(s: State, t: State, c: nat, x: nat)
    requires x < |s.scopes| && c < |s.scopes| && KeptAt(s, x) && Frees(s.mem, t.mem, [c]) && t.scopes == s.scopes
    requires t.stack == s.stack
    requires t.called == s.called && t.freeList == s.freeList
    requires (t.notified == s.notified && t.withheld == s.withheld + {c})
             || (t.notified == s.notified + {c} && t.withheld == s.withheld && s.scopes[c] == Notified)
    ensures KeptAt(t, x)
  {
    hide Running;
  }

  lemma NotifyInv(s: State, c: nat)
    requires Inv(s) && Allowed(s, DestroyNotify(c))
    ensures Inv(Step(s, DestroyNotify(c)))
  {
    hide Counts, CountsAt, KeptAt, Kept, Frames, AllApart, Free, Frees, Running, Owned, ListOk, HistoryOk;
    var t := Step(s, DestroyNotify(c));
    KeptAll(s);
    NotifiedIsLive(s, c);
    OneFrees(s.mem, c);
    FreeListOk(s, t, c);
    OwnedIsCall(s, c);
    forall x: nat | x < |s.scopes| ensures KeptAt(t, x) {
      FreeKeptAt(s, t, c, x);
    }
    AllKept(t);
    FreeInv(s, t, [c]);
  }

  /** C only ever calls a closure that is allocated and still holds its function. */
  lemma CalledIsLive(s: State, c: nat)
    requires Inv(s) && Allowed(s, EnterCallback(c))
    ensures c in s.mem.live && s.mem.live[c].func.Some? && s.mem.live[c].userData.Some?
  {
    assert KeptAt(s, c);
    hide Counts, Kept, Running, AllApart, Owned;
    OwnedIsCall(s, c);
  }

  lemma EnterInv(s: State, c: nat)
    requires Inv(s) && Allowed(s, EnterCallback(c))
    ensures Inv(Step(s, EnterCallback(c)))
  {
    var t := Step(s, EnterCallback(c));
    CalledIsLive(s, c);
    hide Counts, CountsAt, KeptAt, Kept, Frames, AllApart, Running, Owned, NoDup;
    forall x: nat ensures Running(t.stack, x) <==> Running(s.stack, x) || x == c {
      Pushed(s.stack, Callback(c, false), x);
    }
    KeptAll(s);
    forall x: nat | x < |s.scopes| ensures KeptAt(t, x) {
      EnterKeptAt(s, t, c, x);
    }
    AllKept(t);
    SameCounts(s, t);
    EnterFrames(s, t, c);
  }

  lemma Pushed(stack: seq<Frame>, f: Frame, x: nat)
    ensures Running(stack + [f], x) <==> Running(stack, x) || (f.Callback? && f.closure == x)
  {
    var all := stack + [f];
    if Running(stack, x) {
      var i: nat :| i < |stack| && RunsAt(stack, i, x);
      assert RunsAt(all, i, x);
    }
    if f.Callback? && f.closure == x {
      assert RunsAt(all, |stack|, x);
    }
    if Running(all, x) {
      var i: nat :| i < |all| && RunsAt(all, i, x);
      assert i < |stack| ==> RunsAt(stack, i, x);
    }
  }

  lemma EnterKeptAt(s: State, t: State, c: nat, x: nat)
    requires x < |s.scopes| && c < |s.scopes| && KeptAt(s, x) && t.mem == s.mem && t.scopes == s.scopes
    requires t.freeList == s.freeList
    requires t.called == s.called + {c} && t.notified == s.notified && t.withheld == s.withheld
    requires (Running(t.stack, x) <==> Running(s.stack, x) || x == c) && c in s.mem.live
    ensures KeptAt(t, x)
  {
    hide Running;
  }

  lemma EnterFrames(s: State, t: State, c: nat)
    requires Frames(s) && AllApart(s.scopes, s.stack) && c in s.mem.live && s.mem.live[c].func.Some?
    requires s.mem.live[c].userData.Some?
    requires Allowed(s, EnterCallback(c)) && t == Step(s, EnterCallback(c))
    ensures Frames(t) && AllApart(t.scopes, t.stack)
  {
    var n := |s.stack|;
    assert t.stack[..n] == s.stack;
    hide Owned;
    forall i: nat | i < |t.stack| ensures FrameAt(t, i) {
      if i < n {
        assert FrameAt(s, i) && t.stack[..i] == s.stack[..i];
      }
    }
    forall i: nat, j: nat | i < j < |t.stack| ensures Apart(t.scopes, t.stack[i], t.stack[j]) {
      assert FrameAt(s, i);
      assert j < n ==> Apart(s.scopes, s.stack[i], s.stack[j]);
    }
  }

  lemma BeginInv(s: State)
    requires Inv(s)
    ensures Inv(Step(s, BeginInvoke))
  {
    hide Counts, CountsAt, KeptAt, Kept, ListOk, HistoryOk, Running, Owned;
    var t := Step(s, BeginInvoke);
    forall x: nat ensures Running(t.stack, x) <==> Running(s.stack, x) {
      Pushed(s.stack, Invocation([]), x);
    }
    TopReplaced(s, t);
    SameCounts(s, t);
    forall i: nat | i < |t.stack| ensures FrameAt(t, i) {
      if i < |s.stack| {
        assert FrameAt(s, i) && t.stack[..i] == s.stack[..i];
      }
    }
    forall i: nat, j: nat | i < j < |t.stack| ensures Apart(t.scopes, t.stack[i], t.stack[j]) {
      assert j < |s.stack| ==> Apart(s.scopes, s.stack[i], s.stack[j]);
    }
  }

  lemma DropInv(s: State)
    requires Inv(s) && Allowed(s, DropData)
    ensures Inv(Step(s, DropData))
  {
    var t := Step(s, DropData);
    var c, last := Top(s).closure, |s.stack| - 1;
    hide Counts, CountsAt, KeptAt, Kept, Frames, AllApart, Running, Owned, NoDup, Clear;
    assert FrameAt(s, last) by { FrameHere(s, last); }
    forall x: nat ensures Running(t.stack, x) <==> Running(s.stack, x) {
      SameRuns(s.stack, t.stack, x);
    }
    assert Running(s.stack, c) by { RunsHere(s.stack, last, c); }
    ClearChanges(s.mem, c);
    KeptAll(s);
    forall x: nat | x < |s.scopes| ensures KeptAt(t, x) {
      DropKeptAt(s, t, c, x);
    }
    AllKept(t);
    DropCounts(s, t, c);
    DropFrames(s, t, c);
  }

  lemma FrameHere(s: State, i: nat)
    requires Frames(s) && i < |s.stack|
    ensures FrameAt(s, i)
  {
    hide FrameAt;
  }

  lemma RunsHere(stack: seq<Frame>, i: nat, c: nat)
    requires RunsAt(stack, i, c)
    ensures Running(stack, c)
  {
  }

  lemma ClearChanges(m: Memory, c: nat)
    requires c in m.live
    ensures Clear(m, c).live == m.live[c := Closure(None, None)] && Clear(m, c).freed == m.freed
  {
  }

  lemma DropKeptAt(s: State, t: State, c: nat, x: nat)
    requires x < |s.scopes| && c < |s.scopes| && KeptAt(s, x) && c in s.mem.live && s.scopes[c] == Async
    requires c in s.called
    requires t.mem.live == s.mem.live[c := Closure(None, None)] && t == s.(mem := t.mem, stack := t.stack)
    requires Running(t.stack, x) <==> Running(s.stack, x)
    ensures KeptAt(t, x)
  {
    hide Running;
  }

  lemma DropCounts(s: State, t: State, c: nat)
    requires Counts(s) && c in s.mem.live && t.scopes == s.scopes && t.mem == Clear(s.mem, c)
    ensures Counts(t)
  {
    forall x: nat ensures CountsAt(t.mem, |t.scopes|, x) {
      assert CountsAt(s.mem, |s.scopes|, x);
    }
  }

  lemma DropFrames(s: State, t: State, c: nat)
    requires Frames(s) && AllApart(s.scopes, s.stack) && HasTop(s) && Top(s) == Callback(c, false)
    requires c < |s.scopes| && s.scopes[c] == Async && c in s.mem.live
    requires t.mem.live == s.mem.live[c := Closure(None, None)]
    requires t == s.(mem := t.mem, stack := Under(s) + [Callback(c, true)])
    ensures Frames(t) && AllApart(t.scopes, t.stack)
  {
    hide Owned, NoDup;
    var last := |s.stack| - 1;
    forall i: nat | i < |t.stack| ensures FrameAt(t, i) {
      assert FrameAt(s, i) && t.stack[..i] == s.stack[..i];
      if i < last {
        assert Apart(s.scopes, s.stack[i], s.stack[last]) && t.stack[i] == s.stack[i];
      }
    }
    forall i: nat, j: nat | i < j < |t.stack| ensures Apart(t.scopes, t.stack[i], t.stack[j]) {
      assert Apart(s.scopes, s.stack[i], s.stack[j]);
    }
  }

  lemma Popped(stack: seq<Frame>, x: nat)
    requires stack != []
    ensures var last := stack[|stack| - 1];
            Running(stack, x) <==> Running(stack[..|stack| - 1], x) || (last.Callback? && last.closure == x)
  {
    Pushed(stack[..|stack| - 1], stack[|stack| - 1], x);
    assert stack[..|stack| - 1] + [stack[|stack| - 1]] == stack;
  }

  lemma PopFrames(s: State, t: State)
    requires Frames(s) && AllApart(s.scopes, s.stack) && HasTop(s)
    requires t == s.(stack := Under(s), freeList := t.freeList)
    ensures Frames(t) && AllApart(t.scopes, t.stack)
  {
    hide Owned, NoDup;
    forall i: nat | i < |t.stack| ensures FrameAt(t, i) {
      assert FrameAt(s, i) && t.stack[..i] == s.stack[..i];
    }
    forall i: nat, j: nat | i < j < |t.stack| ensures Apart(t.scopes, t.stack[i], t.stack[j]) {
      assert Apart(s.scopes, s.stack[i], s.stack[j]);
    }
  }

  lemma LeaveInv(s: State)
    requires Inv(s) && Allowed(s, LeaveCallback)
    ensures Inv(Step(s, LeaveCallback))
  {
    var t := Step(s, LeaveCallback);
    var c, last := Top(s).closure, |s.stack| - 1;
    hide Counts, CountsAt, KeptAt, Kept, Frames, AllApart, Running, Owned, NoDup;
    FrameHere(s, last);
    forall x: nat ensures Running(s.stack, x) <==> Running(t.stack, x) || x == c {
      Popped(s.stack, x);
    }
    if s.scopes[c] == Async {
      AsyncRunsOnce(s, c);
    }
    KeptAll(s);
    forall x: nat | x < |s.scopes| ensures KeptAt(t, x) {
      LeaveKeptAt(s, t, c, x);
    }
    AllKept(t);
    SameCounts(s, t);
    PopFrames(s, t);
    LeaveList(s, t, c);
  }

  lemma AsyncRunsOnce(s: State, c: nat)
    requires AllApart(s.scopes, s.stack) && HasTop(s) && Top(s).Callback? && Top(s).closure == c && c < |s.scopes|
    requires s.scopes[c] == Async
    ensures !Running(Under(s), c)
  {
    forall i: nat | i < |Under(s)| ensures !RunsAt(Under(s), i, c) {
      assert Apart(s.scopes, s.stack[i], s.stack[|s.stack| - 1]);
    }
  }

  lemma LeaveKeptAt(s: State, t: State, c: nat, x: nat)
    requires x < |s.scopes| && c < |s.scopes| && KeptAt(s, x) && c in s.called
    requires t == s.(stack := t.stack, freeList := if s.scopes[c] == Async then [c] + s.freeList else s.freeList)
    requires Running(s.stack, x) <==> Running(t.stack, x) || x == c
    ensures KeptAt(t, x)
  {
    hide Running;
  }

  lemma LeaveList(s: State, t: State, c: nat)
    requires ListOk(s) && c < |s.scopes| && c in s.called && c in s.mem.live && Running(s.stack, c)
    requires t == s.(stack := t.stack, freeList := if s.scopes[c] == Async then [c] + s.freeList else s.freeList)
    requires forall x: nat :: Running(s.stack, x) <==> Running(t.stack, x) || x == c
    requires s.scopes[c] == Async ==> !Running(t.stack, c) && s.mem.live[c] == Closure(None, None)
    ensures ListOk(t)
  {
    hide Running;
  }

  lemma EndInv(s: State, k: nat)
    requires Inv(s) && Allowed(s, EndInvoke(k))
    ensures Inv(Step(s, EndInvoke(k)))
  {
    var own := Top(s).own[..k];
    var p := s.(stack := Under(s));
    var t := Step(s, EndInvoke(k));
    hide Counts, CountsAt, KeptAt, Kept, ListOk, HistoryOk, Frames, FrameAt, AllApart, Running, Owned, NoDup, FreeEach;
    hide Frees;
    forall x: nat ensures Running(p.stack, x) <==> Running(s.stack, x) {
      Popped(s.stack, x);
    }
    TopReplaced(s, p);
    SameCounts(s, p);
    PopFrames(s, p);
    OwnPrefix(s, k);
    FreeEachFrees(p.mem, own);
    KeptAll(p);
    forall x: nat | x < |p.scopes| ensures KeptAt(t, x) {
      EndKeptAt(p, t, own, x);
    }
    AllKept(t);
    SameHistory(p, t);
    EndList(p, t, own);
    FreeInv(p, t, own);
  }

  /** The closures an ending invocation frees are allocated, distinct, idle and nobody else's. */
  lemma OwnPrefix(s: State, k: nat)
    requires Frames(s) && AllApart(s.scopes, s.stack) && Allowed(s, EndInvoke(k))
    ensures var own := Top(s).own[..k];
            NoDup(own) && forall c :: c in own ==>
              c in s.mem.live && c < |s.scopes| && s.scopes[c] == Call && !Owned(Under(s), c) && !Running(Under(s), c)
  {
    var own, last := Top(s).own[..k], |s.stack| - 1;
    FrameHere(s, last);
    forall c | c in own
      ensures c in s.mem.live && c < |s.scopes| && s.scopes[c] == Call && !Owned(Under(s), c) && !Running(Under(s), c) {
      assert c in Top(s).own;
      NoOtherOwner(s, c);
      OnlyOwnersRun(s, c);
    }
  }

  lemma NoOtherOwner(s: State, c: nat)
    requires AllApart(s.scopes, s.stack) && HasTop(s) && Top(s).Invocation? && c in Top(s).own
    ensures !Owned(Under(s), c)
  {
    forall i: nat | i < |Under(s)| ensures !OwnsAt(Under(s), i, c) {
      assert Apart(s.scopes, s.stack[i], s.stack[|s.stack| - 1]);
    }
  }

  /** A call-scoped closure runs only above its owner. */
  lemma OnlyOwnersRun(s: State, c: nat)
    requires Frames(s) && HasTop(s) && c < |s.scopes| && s.scopes[c] == Call && !Owned(Under(s), c)
    ensures !Running(Under(s), c)
  {
    forall i: nat | i < |Under(s)| ensures !RunsAt(Under(s), i, c) {
      FrameHere(s, i);
      NotOwnedBelow(Under(s), i, c);
      assert s.stack[..i] == Under(s)[..i];
    }
  }

  lemma NotOwnedBelow(stack: seq<Frame>, i: nat, c: nat)
    requires i <= |stack| && !Owned(stack, c)
    ensures !Owned(stack[..i], c)
  {
    forall j: nat | j < i ensures !OwnsAt(stack[..i], j, c) {
      assert !OwnsAt(stack, j, c);
    }
  }

  lemma EndKeptAt(p: State, t: State, own: seq<nat>, x: nat)
    requires x < |p.scopes| && KeptAt(p, x) && Frees(p.mem, t.mem, own) && t == p.(mem := t.mem)
    requires forall c :: c in own ==> c < |p.scopes| && p.scopes[c] == Call
    ensures KeptAt(t, x)
  {
    hide Running;
  }

  lemma EndList(p: State, t: State, own: seq<nat>)
    requires ListOk(p) && Frees(p.mem, t.mem, own) && t == p.(mem := t.mem)
    requires forall c :: c in own ==> c < |p.scopes| && p.scopes[c] == Call
    ensures ListOk(t)
  {
    hide Running, NoDup;
  }
}
