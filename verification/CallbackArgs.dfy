/** The two argument passes of a callback into Python: `_pygi_closure_convert_arguments` and
    `_pygi_closure_set_out_arguments` in `gi/pygi-closure.c`. */
module CallbackArgs {
  import opened Prelude

  datatype Direction = In | Out | InOut

  /** `Callback` names the argument indices of its user data and destroy-notify, or -1. */
  datatype Kind = Plain | VoidPointer | GError | Callback(userData: int, destroy: int)

  datatype Arg = Arg(dir: Direction, kind: Kind)

  type Signature = seq<Arg>

  predicate Enters(a: Arg) { a.dir != Out }
  predicate Leaves(a: Arg) { a.dir != In }

  /** What Python is passed for an argument: the closure's user data, a wrapped native callback that will pass on the
      pointer of argument `data` (none for -1), or the value of the argument with that index. */
  datatype PyArg = UserData | Native(arg: nat, data: int) | Value(arg: nat)

  function PyArgOf(sig: Signature, i: nat): PyArg
    requires i < |sig|
  {
    if sig[i].dir == In && sig[i].kind.VoidPointer? then UserData
    else if sig[i].dir == In && sig[i].kind.Callback? then
      // the pointer of the destroy-notify replaces that of the user data
      Native(i, if sig[i].kind.destroy != -1 then sig[i].kind.destroy else sig[i].kind.userData)
    else Value(i)
  }

  // ---------------------------------------------------------------- the in pass

  /** The two indices the in pass skips once it has read the arguments below `i`: those of the last callback. */
  function Skips(sig: Signature, i: nat): (int, int)
    requires i <= |sig|
  {
    if i == 0 then (-1, -1)
    else
      var p := Skips(sig, i - 1);
      if i - 1 == p.0 || i - 1 == p.1 then p
      else if sig[i - 1].dir == In && sig[i - 1].kind.Callback? then (sig[i - 1].kind.userData, sig[i - 1].kind.destroy)
      else p
  }

  predicate Skipped(sig: Signature, i: nat)
    requires i < |sig|
  {
    i == Skips(sig, i).0 || i == Skips(sig, i).1
  }

  /** The argument is a callback that the in pass reads. */
  predicate ReadsCallback(sig: Signature, i: nat)
    requires i < |sig|
  {
    sig[i].dir == In && sig[i].kind.Callback? && !Skipped(sig, i)
  }

  /** An argument is skipped exactly when the last callback read before it names it. */
  lemma {:induction false} SkippedIff(sig: Signature, i: nat)
    requires i < |sig|
    ensures Skipped(sig, i) <==>
            exists c :: 0 <= c < i && ReadsCallback(sig, c) && (forall d :: c < d < i ==> !ReadsCallback(sig, d))
                        && (sig[c].kind.userData == i || sig[c].kind.destroy == i)
  {
    var c := LastRead(sig, i);
  }

  lemma {:induction false} LastRead(sig: Signature, i: nat) returns (c: int)
    requires i <= |sig|
    ensures -1 <= c < i && (forall d :: 0 <= d && c < d < i ==> !ReadsCallback(sig, d))
    ensures if c == -1 then Skips(sig, i) == (-1, -1)
            else ReadsCallback(sig, c) && Skips(sig, i) == (sig[c].kind.userData, sig[c].kind.destroy)
  {
    if i == 0 {
      c := -1;
    } else {
      c := LastRead(sig, i - 1);
      if ReadsCallback(sig, i - 1) {
        c := i - 1;
      }
    }
  }

  /** The entering arguments that are not skipped, in order. */
  function Taken(sig: Signature, n: nat): (r: seq<nat>)
    requires n <= |sig|
    ensures |r| <= n && forall i :: 0 <= i < |r| ==> r[i] < n
  {
    if n == 0 then []
    else Taken(sig, n - 1) + if Enters(sig[n - 1]) && !Skipped(sig, n - 1) then [n - 1] else []
  }

  /** `r` lists the numbers below `n` with property `p`, each once and in order. */
  ghost predicate Lists(r: seq<nat>, n: nat, p: nat -> bool) {
    (forall j, k :: 0 <= j < k < |r| ==> r[j] < r[k]) && (forall i :: i in r <==> 0 <= i < n && p(i))
  }

  lemma NoneListed(p: nat -> bool)
    ensures Lists([], 0, p)
  {
  }

  lemma ListsNext(r: seq<nat>, n: nat, p: nat -> bool)
    requires Lists(r, n, p)
    ensures Lists(r + if p(n) then [n] else [], n + 1, p)
  {
    var s := r + if p(n) then [n] else [];
    forall j, k | 0 <= j < k < |s| ensures s[j] < s[k] {
      assert s[j] in r;
    }
  }

  function IsTaken(sig: Signature): nat -> bool { (i: nat) => i < |sig| && sig[i].dir != Out && !Skipped(sig, i) }
  function IsRecorded(sig: Signature): nat -> bool { (i: nat) => i < |sig| && sig[i].dir != In && !Skipped(sig, i) }
  function IsLeaving(sig: Signature): nat -> bool { (i: nat) => i < |sig| && sig[i].dir != In }
  function IsVisible(sig: Signature): nat -> bool { (i: nat) => i < |sig| && sig[i].dir != In && !sig[i].kind.GError? }

  /** Which arguments each of the lists names. */
  lemma {:induction false} ListsAre(sig: Signature, n: nat)
    requires n <= |sig|
    ensures Lists(Taken(sig, n), n, IsTaken(sig))
    ensures Lists(Recorded(sig, n), n, IsRecorded(sig))
    ensures Lists(Leaving(sig, n), n, IsLeaving(sig))
    ensures Lists(Visible(sig, n), n, IsVisible(sig))
  {
    hide Skipped, Lists;
    if n == 0 {
      NoneListed(IsTaken(sig));
      NoneListed(IsRecorded(sig));
      NoneListed(IsLeaving(sig));
      NoneListed(IsVisible(sig));
    } else {
      ListsAre(sig, n - 1);
      ListsNext(Taken(sig, n - 1), n - 1, IsTaken(sig));
      ListsNext(Recorded(sig, n - 1), n - 1, IsRecorded(sig));
      ListsNext(Leaving(sig, n - 1), n - 1, IsLeaving(sig));
      ListsNext(Visible(sig, n - 1), n - 1, IsVisible(sig));
    }
  }

  /** Python is passed one value for each of them, in order: the closure's user data for a `void *` that goes in, a
      native callback for a callback that goes in, and else the argument's own value. */
  ghost predicate InTurn(sig: Signature, pyArgs: seq<PyArg>) {
    var taken := Taken(sig, |sig|);
    && Lists(taken, |sig|, IsTaken(sig))
    && |pyArgs| == |taken| && forall j :: 0 <= j < |taken| ==>
      && (pyArgs[j] == UserData <==> sig[taken[j]].dir == In && sig[taken[j]].kind.VoidPointer?)
      && (pyArgs[j].Native? <==> sig[taken[j]].dir == In && sig[taken[j]].kind.Callback?)
      && (!pyArgs[j].UserData? ==> pyArgs[j].arg == taken[j])
      && (pyArgs[j].Native? ==>
            if sig[taken[j]].kind.destroy == -1 then pyArgs[j].data == sig[taken[j]].kind.userData
            else pyArgs[j].data == sig[taken[j]].kind.destroy)
  }

  lemma {:induction false} PyArgsAt(sig: Signature, n: nat)
    requires n <= |sig|
    ensures |PyArgs(sig, n)| == |Taken(sig, n)|
    ensures forall j :: 0 <= j < |Taken(sig, n)| ==> PyArgs(sig, n)[j] == PyArgOf(sig, Taken(sig, n)[j])
  {
    hide Skipped, PyArgOf;
    if n > 0 {
      PyArgsAt(sig, n - 1);
    }
  }

  lemma PyArgsInTurn(sig: Signature)
    ensures InTurn(sig, PyArgs(sig, |sig|))
  {
    hide Skipped, Taken, PyArgs;
    ListsAre(sig, |sig|);
    PyArgsAt(sig, |sig|);
  }

  /** The first `n` arguments' Python values, in order. */
  function PyArgs(sig: Signature, n: nat): seq<PyArg>
    requires n <= |sig|
  {
    if n == 0 then []
    else PyArgs(sig, n - 1) + if Enters(sig[n - 1]) && !Skipped(sig, n - 1) then [PyArgOf(sig, n - 1)] else []
  }

  /** The arguments whose location the in pass records. */
  function Recorded(sig: Signature, n: nat): (r: seq<nat>)
    requires n <= |sig|
    ensures |r| <= n && forall i :: 0 <= i < |r| ==> r[i] < n
  {
    if n == 0 then []
    else Recorded(sig, n - 1) + if Leaves(sig[n - 1]) && !Skipped(sig, n - 1) then [n - 1] else []
  }

  /** The out and inout arguments, in order. */
  function Leaving(sig: Signature, n: nat): (r: seq<nat>)
    requires n <= |sig|
    ensures |r| <= n && forall i :: 0 <= i < |r| ==> r[i] < n
  {
    if n == 0 then [] else Leaving(sig, n - 1) + if Leaves(sig[n - 1]) then [n - 1] else []
  }

  /** Those of them that take a Python item. */
  function Visible(sig: Signature, n: nat): (r: seq<nat>)
    requires n <= |sig|
    ensures |r| <= n && forall i :: 0 <= i < |r| ==> r[i] < n
  {
    if n == 0 then [] else Visible(sig, n - 1) + if Leaves(sig[n - 1]) && !sig[n - 1].kind.GError? then [n - 1] else []
  }

  /** Reads the arguments, whose storage is at `at`; `outs` is zero-filled. */
  method ConvertArguments(sig: Signature, at: seq<nat>) returns (pyArgs: seq<PyArg>, outs: array<Option<nat>>)
    requires |at| == |sig|
    ensures fresh(outs) && outs.Length == |sig| && pyArgs == PyArgs(sig, |sig|) && InTurn(sig, pyArgs)
    ensures forall j :: 0 <= j < |sig| ==> outs[j] == RecordedAt(sig, at, j)
  {
    PyArgsInTurn(sig);
    hide InTurn;
    outs := new Option<nat>[|sig|](_ => None);
    pyArgs := [];
    var userDataArg, destroyArg, nOut := -1, -1, 0;
    for i := 0 to |sig|
      invariant Skips(sig, i) == (userDataArg, destroyArg)
      invariant pyArgs == PyArgs(sig, i) && nOut == |Recorded(sig, i)|
      invariant forall j :: 0 <= j < nOut ==> outs[j] == Some(at[Recorded(sig, i)[j]])
      invariant forall j :: nOut <= j < |sig| ==> outs[j] == None
    {
      if i == userDataArg || i == destroyArg {
        continue;
      }
      if Enters(sig[i]) {
        if sig[i].dir == In && sig[i].kind.Callback? {
          userDataArg, destroyArg := sig[i].kind.userData, sig[i].kind.destroy;
        }
        pyArgs := pyArgs + [PyArgOf(sig, i)];
      }
      if Leaves(sig[i]) {
        outs[nOut] := Some(at[i]);
        nOut := nOut + 1;
      }
    }
  }

  function RecordedAt(sig: Signature, at: seq<nat>, j: nat): Option<nat>
    requires |at| == |sig|
  {
    var r := Recorded(sig, |sig|);
    if j < |r| then Some(at[r[j]]) else None
  }

  // ---------------------------------------------------------------- the out pass

  datatype PyRet<T> = Tuple(items: seq<T>) | Single(item: T)

  /** `Past`: an item beyond the end of the tuple is read. `Aborts`: one object is returned where several are due. */
  datatype Item<T> = Got(item: T) | Past | Aborts

  function ItemAt<T>(ret: PyRet<T>, k: nat): Item<T> {
    match ret
    case Tuple(items) => if k < |items| then Got(items[k]) else Past
    case Single(x) => if k == 0 then Got(x) else Aborts
  }

  /** A return value stored, or an item stored where `at` points. */
  datatype Write<T> = ToReturn(item: T) | ToLocation(at: Option<nat>, item: T)

  datatype Outcome<T> = Done(writes: seq<Write<T>>) | ReadPast | Aborted

  function Then<T>(o: Outcome<T>, item: Item<T>, w: T -> Write<T>): Outcome<T> {
    if !o.Done? then o
    else match item
      case Got(x) => Done(o.writes + [w(x)])
      case Past => ReadPast
      case Aborts => Aborted
  }

  /** The writes once the first `n` arguments are handled: each out or inout argument uses up a location, and each but
      the GErrors an item; the return value takes the first item. */
  function Written<T>(sig: Signature, outs: seq<Option<nat>>, returns_: bool, ret: PyRet<T>, n: nat): Outcome<T>
    requires n <= |sig| == |outs|
  {
    if n == 0 then if returns_ then Then(Done([]), ItemAt(ret, 0), x => ToReturn(x)) else Done([])
    else
      var before := Written(sig, outs, returns_, ret, n - 1);
      if Leaves(sig[n - 1]) && !sig[n - 1].kind.GError? then
        var loc := outs[|Leaving(sig, n - 1)|];
        Then(before, ItemAt(ret, First(returns_) + |Visible(sig, n - 1)|), x => ToLocation(loc, x))
      else before
  }

  function First(returns_: bool): nat { if returns_ then 1 else 0 }

  /** The j-th location is that of a GError. */
  predicate IsError(sig: Signature, j: nat) { j < |Leaving(sig, |sig|)| && sig[Leaving(sig, |sig|)[j]].kind.GError? }

  /** Stores what the callback returned; the location of a GError is dropped from `outs`, nothing is written there. */
  method SetOutArguments<T>(sig: Signature, outs: array<Option<nat>>, returns_: bool, ret: PyRet<T>)
    returns (o: Outcome<T>)
    requires outs.Length == |sig|
    modifies outs
    ensures o == Written(sig, old(outs[..]), returns_, ret, |sig|)
    ensures forall j :: 0 <= j < |sig| ==>
              outs[j] == if IsError(sig, j) then None else old(outs[j])
  {
    hide Written, Then, ItemAt, Leaving, Visible;
    ghost var before := outs[..];
    NoneHandled(sig, before, returns_, ret);
    o := Done([]);
    var iPy, iOut := 0, 0;
    if returns_ {
      o := Then(o, ItemAt(ret, 0), x => ToReturn(x));
      iPy := 1;
    }
    for i := 0 to |sig|
      invariant o == Written(sig, before, returns_, ret, i)
      invariant iOut == |Leaving(sig, i)| && iPy == First(returns_) + |Visible(sig, i)|
      invariant forall j :: iOut <= j < |sig| ==> outs[j] == before[j]
      invariant forall j :: 0 <= j < iOut ==>
                  outs[j] == if sig[Leaving(sig, i)[j]].kind.GError? then None else before[j]
    {
      OneHandled(sig, before, returns_, ret, i);
      if Leaves(sig[i]) {
        if sig[i].kind.GError? {
          outs[iOut] := None;
        } else {
          var loc := outs[iOut];
          o := Then(o, ItemAt(ret, iPy), x => ToLocation(loc, x));
          iPy := iPy + 1;
        }
        iOut := iOut + 1;
      }
    }
  }

  lemma NoneHandled<T>(sig: Signature, outs: seq<Option<nat>>, returns_: bool, ret: PyRet<T>)
    requires |sig| == |outs|
    ensures Written(sig, outs, returns_, ret, 0) ==
            if returns_ then Then(Done([]), ItemAt(ret, 0), x => ToReturn(x)) else Done([])
    ensures Leaving(sig, 0) == [] && Visible(sig, 0) == []
  {
    hide Then, ItemAt;
  }

  lemma OneHandled<T>(sig: Signature, outs: seq<Option<nat>>, returns_: bool, ret: PyRet<T>, i: nat)
    requires i < |sig| == |outs|
    ensures |Leaving(sig, i)| <= i
    ensures Leaving(sig, i + 1) == Leaving(sig, i) + if Leaves(sig[i]) then [i] else []
    ensures Visible(sig, i + 1) == Visible(sig, i) + if Leaves(sig[i]) && !sig[i].kind.GError? then [i] else []
    ensures Written(sig, outs, returns_, ret, i + 1) ==
            if Leaves(sig[i]) && !sig[i].kind.GError? then
              var loc := outs[|Leaving(sig, i)|];
              Then(Written(sig, outs, returns_, ret, i), ItemAt(ret, First(returns_) + |Visible(sig, i)|),
                   x => ToLocation(loc, x))
            else Written(sig, outs, returns_, ret, i)
  {
    hide Then, ItemAt;
  }

  // ---------------------------------------------------------------- how the passes agree

  /** The out pass finds every location where the in pass put it. */
  ghost predicate LocationsAgree(sig: Signature, at: seq<nat>)
    requires |at| == |sig|
  {
    forall j :: 0 <= j < |Leaving(sig, |sig|)| ==> RecordedAt(sig, at, j) == Some(at[Leaving(sig, |sig|)[j]])
  }

  /** The skipped user-data and destroy-notify arguments are in-arguments. */
  ghost predicate SkipsOnlyIns(sig: Signature, n: nat)
    requires n <= |sig|
  {
    forall i :: 0 <= i < n && Skipped(sig, i) ==> !Leaves(sig[i])
  }

  lemma {:induction false} RecordedIsLeaving(sig: Signature, n: nat)
    requires n <= |sig|
    ensures |Recorded(sig, n)| <= |Leaving(sig, n)|
    ensures SkipsOnlyIns(sig, n) ==> Recorded(sig, n) == Leaving(sig, n)
    ensures !SkipsOnlyIns(sig, n) ==> |Recorded(sig, n)| < |Leaving(sig, n)|
  {
    if n > 0 {
      RecordedIsLeaving(sig, n - 1);
      hide Skipped;
      assert SkipsOnlyIns(sig, n) <==> SkipsOnlyIns(sig, n - 1) && (Skipped(sig, n - 1) ==> !Leaves(sig[n - 1]));
    }
  }

  /** The j-th recorded location is that of the j-th out or inout argument, for all j, exactly when no skipped argument
      goes out. */
  lemma AgreeIffSkipsOnlyIns(sig: Signature, at: seq<nat>)
    requires |at| == |sig|
    ensures LocationsAgree(sig, at) <==> SkipsOnlyIns(sig, |sig|)
  {
    RecordedIsLeaving(sig, |sig|);
    hide Skipped, Recorded, Leaving, SkipsOnlyIns;
    if |Recorded(sig, |sig|)| < |Leaving(sig, |sig|)| {
      var j := |Recorded(sig, |sig|)|;
      assert RecordedAt(sig, at, j) == None;
    }
  }

  /** A callback whose user data comes out: the in pass skips it, and the out pass finds no location where it looks. */
  lemma SkippedOutIsLost(at: seq<nat>)
    requires |at| == 2
    ensures var sig := [Arg(In, Callback(1, -1)), Arg(Out, Plain)];
            Skipped(sig, 1) && !LocationsAgree(sig, at) && Leaving(sig, 2) == [1] && RecordedAt(sig, at, 0) == None
  {
    var sig := [Arg(In, Callback(1, -1)), Arg(Out, Plain)];
    assert Skips(sig, 0) == (-1, -1) && Skips(sig, 1) == (1, -1) && Skipped(sig, 1);
    assert Leaving(sig, 0) == [] && Leaving(sig, 1) == [] && Leaving(sig, 2) == [1];
    assert Recorded(sig, 0) == [] && Recorded(sig, 1) == [] && Recorded(sig, 2) == [];
    AgreeIffSkipsOnlyIns(sig, at);
    hide Recorded, Leaving, Skipped, LocationsAgree;
    assert !SkipsOnlyIns(sig, 2);
  }

  /** Enough items are returned for `k` writes. */
  predicate Enough<T>(ret: PyRet<T>, k: nat) {
    match ret case Tuple(items) => k <= |items| case Single(_) => k <= 1
  }

  function ItemOf<T>(ret: PyRet<T>, k: nat): T
    requires Enough(ret, k + 1)
  {
    match ret case Tuple(items) => items[k] case Single(x) => x
  }

  /** The return value takes item 0, and the j-th visible out or inout argument the next items in order, each written
      to its own location. */
  ghost predicate InOrder<T>(sig: Signature, at: seq<nat>, returns_: bool, ret: PyRet<T>, n: nat, w: seq<Write<T>>)
    requires n <= |sig| == |at| && Enough(ret, First(returns_) + |Visible(sig, n)|)
  {
    var first, v := First(returns_), Visible(sig, n);
    && |w| == first + |v| && (returns_ ==> w[0] == ToReturn(ItemOf(ret, 0)))
    && forall j :: 0 <= j < |v| ==> w[first + j] == ToLocation(Some(at[v[j]]), ItemOf(ret, first + j))
  }

  ghost predicate WrittenAt<T>(sig: Signature, at: seq<nat>, outs: seq<Option<nat>>, returns_: bool, ret: PyRet<T>,
                               n: nat)
    requires n <= |sig| == |at| == |outs|
  {
    var o := Written(sig, outs, returns_, ret, n);
    && (o.Done? <==> Enough(ret, First(returns_) + |Visible(sig, n)|))
    && (o.Done? ==> InOrder(sig, at, returns_, ret, n, o.writes))
    && (!o.Done? ==> (o.ReadPast? <==> ret.Tuple?))
  }

  lemma {:induction false} WrittenInOrder<T>(sig: Signature, at: seq<nat>, outs: seq<Option<nat>>, returns_: bool,
                                             ret: PyRet<T>, n: nat)
    requires n <= |sig| == |at| == |outs| && SkipsOnlyIns(sig, |sig|)
    requires forall j :: 0 <= j < |sig| ==> outs[j] == RecordedAt(sig, at, j)
    ensures WrittenAt(sig, at, outs, returns_, ret, n)
  {
    hide *;
    if n == 0 {
      NoneWritten(sig, at, outs, returns_, ret);
    } else {
      var i := n - 1;
      WrittenInOrder(sig, at, outs, returns_, ret, i);
      if Leaves(sig[i]) && !sig[i].kind.GError? {
        OwnLocation(sig, at, i);
        OneWritten(sig, at, outs, returns_, ret, n);
      } else {
        NoMoreWritten(sig, at, outs, returns_, ret, n);
      }
    }
  }

  lemma NoneWritten<T>(sig: Signature, at: seq<nat>, outs: seq<Option<nat>>, returns_: bool, ret: PyRet<T>)
    requires |sig| == |at| == |outs|
    ensures WrittenAt(sig, at, outs, returns_, ret, 0)
  {
  }

  lemma NoMoreWritten<T>(sig: Signature, at: seq<nat>, outs: seq<Option<nat>>, returns_: bool, ret: PyRet<T>, n: nat)
    requires 0 < n <= |sig| == |at| == |outs| && (!Leaves(sig[n - 1]) || sig[n - 1].kind.GError?)
    requires WrittenAt(sig, at, outs, returns_, ret, n - 1)
    ensures WrittenAt(sig, at, outs, returns_, ret, n)
  {
    hide Enough, ItemOf, ItemAt, Then, Leaves;
  }

  lemma OneWritten<T>(sig: Signature, at: seq<nat>, outs: seq<Option<nat>>, returns_: bool, ret: PyRet<T>, n: nat)
    requires 0 < n <= |sig| == |at| == |outs| && Leaves(sig[n - 1]) && !sig[n - 1].kind.GError?
    requires WrittenAt(sig, at, outs, returns_, ret, n - 1)
    requires |Leaving(sig, n - 1)| < |sig| && outs[|Leaving(sig, n - 1)|] == Some(at[n - 1])
    ensures WrittenAt(sig, at, outs, returns_, ret, n)
  {
    hide *;
    VisibleNext(sig, n);
    WrittenIs(sig, at, outs, returns_, ret, n - 1);
    WrittenNext(sig, at, outs, returns_, ret, n);
    var o := Written(sig, outs, returns_, ret, n - 1);
    if o.Done? && Enough(ret, First(returns_) + |Visible(sig, n)|) {
      InOrderNext(sig, at, returns_, ret, n, o.writes);
    }
    WrittenIs(sig, at, outs, returns_, ret, n);
    EnoughForLess(ret, First(returns_) + |Visible(sig, n - 1)|);
  }

  lemma WrittenIs<T>(sig: Signature, at: seq<nat>, outs: seq<Option<nat>>, returns_: bool, ret: PyRet<T>, n: nat)
    requires n <= |sig| == |at| == |outs|
    ensures var o := Written(sig, outs, returns_, ret, n);
            WrittenAt(sig, at, outs, returns_, ret, n) <==>
            && (o.Done? <==> Enough(ret, First(returns_) + |Visible(sig, n)|))
            && (o.Done? ==> InOrder(sig, at, returns_, ret, n, o.writes))
            && (!o.Done? ==> (o.ReadPast? <==> ret.Tuple?))
  {
    hide Written, InOrder, Enough, Visible;
  }

  lemma EnoughForLess<T>(ret: PyRet<T>, k: nat)
    ensures Enough(ret, k + 1) ==> Enough(ret, k)
  {
  }

  lemma VisibleNext(sig: Signature, n: nat)
    requires 0 < n <= |sig| && Leaves(sig[n - 1]) && !sig[n - 1].kind.GError?
    ensures Visible(sig, n) == Visible(sig, n - 1) + [n - 1]
  {
  }

  lemma WrittenNext<T>(sig: Signature, at: seq<nat>, outs: seq<Option<nat>>, returns_: bool, ret: PyRet<T>, n: nat)
    requires 0 < n <= |sig| == |at| == |outs| && Leaves(sig[n - 1]) && !sig[n - 1].kind.GError?
    requires |Leaving(sig, n - 1)| < |sig| && outs[|Leaving(sig, n - 1)|] == Some(at[n - 1])
    requires var (o, k) := (Written(sig, outs, returns_, ret, n - 1), First(returns_) + |Visible(sig, n - 1)|);
             o.Done? ==> Enough(ret, k)
    ensures var (o, k) := (Written(sig, outs, returns_, ret, n - 1), First(returns_) + |Visible(sig, n - 1)|);
            var o' := Written(sig, outs, returns_, ret, n);
            && (o'.Done? <==> o.Done? && Enough(ret, k + 1))
            && (!o.Done? ==> o' == o) && (o.Done? && !o'.Done? ==> (o'.ReadPast? <==> ret.Tuple?))
            && (o'.Done? ==> o'.writes == o.writes + [ToLocation(Some(at[n - 1]), ItemOf(ret, k))])
  {
    hide Leaving, Visible;
  }

  lemma InOrderNext<T>(sig: Signature, at: seq<nat>, returns_: bool, ret: PyRet<T>, n: nat, w: seq<Write<T>>)
    requires 0 < n <= |sig| == |at| && Visible(sig, n) == Visible(sig, n - 1) + [n - 1]
    requires Enough(ret, First(returns_) + |Visible(sig, n)|) && Enough(ret, First(returns_) + |Visible(sig, n - 1)|)
    requires InOrder(sig, at, returns_, ret, n - 1, w)
    ensures var k := First(returns_) + |Visible(sig, n - 1)|;
            InOrder(sig, at, returns_, ret, n, w + [ToLocation(Some(at[n - 1]), ItemOf(ret, k))])
  {
    hide Visible;
  }

  /** The location found for argument `i` is its own. */
  lemma OwnLocation(sig: Signature, at: seq<nat>, i: nat)
    requires i < |sig| == |at| && SkipsOnlyIns(sig, |sig|) && Leaves(sig[i])
    ensures |Leaving(sig, i)| < |sig| && RecordedAt(sig, at, |Leaving(sig, i)|) == Some(at[i])
  {
    RecordedIsLeaving(sig, |sig|);
    LeavingPrefix(sig, i + 1, |sig|);
  }

  lemma {:induction false} LeavingPrefix(sig: Signature, m: nat, n: nat)
    requires m <= n <= |sig|
    ensures Leaving(sig, m) <= Leaving(sig, n)
  {
    if m < n {
      LeavingPrefix(sig, m, n - 1);
    }
  }

  /** A whole callback: the two passes one after the other. */
  method RunCallback<T>(sig: Signature, at: seq<nat>, returns_: bool, ret: PyRet<T>)
    returns (pyArgs: seq<PyArg>, o: Outcome<T>)
    requires |at| == |sig|
    ensures InTurn(sig, pyArgs)
    ensures SkipsOnlyIns(sig, |sig|) ==> (o.Done? <==> Enough(ret, First(returns_) + |Visible(sig, |sig|)|))
    ensures SkipsOnlyIns(sig, |sig|) && o.Done? ==> InOrder(sig, at, returns_, ret, |sig|, o.writes)
    ensures SkipsOnlyIns(sig, |sig|) && !o.Done? ==> (o.ReadPast? <==> ret.Tuple?)
  {
    hide SkipsOnlyIns, InOrder, RecordedAt, InTurn;
    var outs;
    pyArgs, outs := ConvertArguments(sig, at);
    if SkipsOnlyIns(sig, |sig|) {
      WrittenInOrder(sig, at, outs[..], returns_, ret, |sig|);
    }
    o := SetOutArguments(sig, outs, returns_, ret);
  }
}
