/** The part of an introspected callable that `gi/pygi-cache.c` reads, seen slot by slot. */
module Signature {

  datatype Direction = ToPython | FromPython | Bidirectional {
    predicate Enters() { this != ToPython }
    predicate Leaves() { this != FromPython }
  }

  datatype GIDirection = In | Out | InOut

  /** `length` is the GI index of an array's length argument, or -1; `known` says that the Python class of an interface
      can be imported. */
  datatype ArgType = Scalar | Interface(known: bool) | Array(length: int, item: ArgType) | List(item: ArgType)
                   | Hash(key: ArgType, value: ArgType) | Callback | GError {

    /** `_arg_cache_new` makes a cache for the type: not for a callback that comes out of C, nor for a container of what
        it makes none for. */
    predicate Cached(dir: Direction) {
      match this
      case Interface(known) => known
      case Callback => !dir.Leaves()
      case Array(_, item) => item.Cached(dir)
      case List(item) => item.Cached(dir)
      case Hash(key, value) => key.Cached(dir) && value.Cached(dir)
      case _ => true
    }

    /** There are callbacks inside the container. */
    predicate HoldsCallbacks() {
      match this
      case Array(_, item) => item.Callback? || item.HoldsCallbacks()
      case List(item) => item.Callback? || item.HoldsCallbacks()
      case Hash(key, value) => key.Callback? || key.HoldsCallbacks() || value.Callback? || value.HoldsCallbacks()
      case _ => false
    }
  }

  datatype FunctionType = Function | Method | Constructor | VFunc | CallbackType | CCallback

  /** `closure` and `destroy` are GI argument indices, or -1. */
  datatype ArgInfo = ArgInfo(name: string, direction: GIDirection, ty: ArgType, closure: int, destroy: int)

  datatype Callable = Callable(ftype: FunctionType, ret: ArgType, args: seq<ArgInfo>) {

    /** Methods and vfuncs have the instance in slot 0, which shifts every GI index. */
    function Offset(): nat { if ftype.Method? || ftype.VFunc? then 1 else 0 }

    function Slots(): nat { |args| + Offset() }

    predicate SelfClosure(i: int) {
      Offset() <= i < Slots() && args[i - Offset()].closure == i - Offset()
    }

    /** The marshalling direction of slot `i`; -1 is the return value. Callbacks are reversed. */
    function Dir(i: int): Direction {
      if i == -1 then (if ftype.CallbackType? then FromPython else ToPython)
      else if !(Offset() <= i < Slots()) || SelfClosure(i) then FromPython
      else match args[i - Offset()].direction
        case InOut => Bidirectional
        case In => if ftype.CallbackType? then ToPython else FromPython
        case Out => if ftype.CallbackType? then FromPython else ToPython
    }

    /** The type that is processed at slot `i`; instances and self-closures have no special type. */
    function Type(i: int): ArgType {
      if i == -1 then ret
      else if !(Offset() <= i < Slots()) || SelfClosure(i) then Scalar
      else args[i - Offset()].ty
    }

    function Shift(index: int): int { if index < 0 then -1 else index + Offset() }

    /** Slot of the length of the array at slot `i`, or -1. */
    function LenAt(i: int): int { if Type(i).Array? then Shift(Type(i).length) else -1 }

    /** Slots of the user data and destroy notify of the callback at slot `i`, or -1. */
    function UserAt(i: int): int {
      if Offset() <= i < Slots() && Type(i).Callback? then Shift(args[i - Offset()].closure) else -1
    }

    function DestroyAt(i: int): int {
      if Offset() <= i < Slots() && Type(i).Callback? then Shift(args[i - Offset()].destroy) else -1
    }

    /** Slot `i` is the length of an array among the return value and slots below `k`. */
    predicate LenOf(k: nat, i: int) {
      i >= 0 && if k == 0 then LenAt(-1) == i else LenAt(k - 1) == i || LenOf(k - 1, i)
    }

    predicate UserOf(k: nat, i: int) {
      i >= 0 && k > 0 && (UserAt(k - 1) == i || UserOf(k - 1, i))
    }

    predicate DestroyOf(k: nat, i: int) {
      i >= 0 && k > 0 && (DestroyAt(k - 1) == i || DestroyOf(k - 1, i))
    }

    predicate ChildOf(k: nat, i: int) { LenOf(k, i) || UserOf(k, i) || DestroyOf(k, i) }

    /** A child slot has no children of its own and is no instance, self-closure or error. */
    predicate MayBeChild(i: int) {
      && Offset() <= i < Slots() && !SelfClosure(i) && !Type(i).GError?
      && LenAt(i) == UserAt(i) == DestroyAt(i) == -1
    }

    /** What the code relies on without checking. */
    predicate WellFormed() {
      // lengths run in the direction of their array
      && (forall a :: -1 <= a < Slots() && LenAt(a) != -1 ==>
            MayBeChild(LenAt(a)) && Dir(LenAt(a)) == Dir(a) && Type(LenAt(a)).Scalar?)
      // a length that comes back from C serves a single array
      && (forall a, b :: -1 <= a < b < Slots() && LenAt(a) != -1 && Dir(LenAt(a)).Leaves() ==> LenAt(a) != LenAt(b))
      // user data and destroy notify follow their callback and go into C
      && (forall a :: 0 <= a < Slots() && UserAt(a) != -1 ==>
            a < UserAt(a) && MayBeChild(UserAt(a)) && Dir(UserAt(a)) == FromPython)
      && (forall a :: 0 <= a < Slots() && DestroyAt(a) != -1 ==>
            a < DestroyAt(a) && MayBeChild(DestroyAt(a)) && Dir(DestroyAt(a)) == FromPython)
      // the three kinds of child are disjoint
      && (forall a, b :: -1 <= a < Slots() && 0 <= b < Slots() && LenAt(a) != -1 ==>
            LenAt(a) != UserAt(b) && LenAt(a) != DestroyAt(b))
      && (forall a, b :: 0 <= a < Slots() && 0 <= b < Slots() && UserAt(a) != -1 ==> UserAt(a) != DestroyAt(b))
      // errors only come out of C; a callback cannot be the return value of a callback
      && (forall i :: 0 <= i < Slots() && Type(i).GError? ==> Dir(i) == ToPython)
      && !(ftype.CallbackType? && ret.Callback?)
      // containers of callbacks do not go into C
      && (forall i :: -1 <= i < Slots() && Type(i).HoldsCallbacks() ==> Dir(i).Leaves())
    }
  }

  // ---------------------------------------------------------------- what the slots stand for

  /** Argument `g` of the introspected callable has slot `g`, behind the instance of a method or a vfunc, and so have
      its children. In a callback the directions are those of the Python implementation. */
  lemma ArgumentSlots(sig: Callable, g: nat)
    requires g < |sig.args|
    ensures var first := if sig.ftype in {Method, VFunc} then 1 else 0;
            var (a, s, callback) := (sig.args[g], g + first, sig.ftype == CallbackType);
            && sig.Slots() == first + |sig.args| && (sig.SelfClosure(s) <==> a.closure == g)
            && (a.closure == g ==> sig.Dir(s) == FromPython && sig.Type(s) == Scalar)
            && (a.closure != g ==>
                  && (sig.Dir(s).Enters() <==> a.direction == InOut || a.direction == if callback then Out else In)
                  && (sig.Dir(s).Leaves() <==> a.direction == InOut || a.direction == if callback then In else Out)
                  && sig.Type(s) == a.ty)
            && (sig.Type(s).Array? ==> sig.LenAt(s) == if a.ty.length < 0 then -1 else first + a.ty.length)
            && (sig.Type(s).Callback? ==>
                  && sig.UserAt(s) == (if a.closure < 0 then -1 else first + a.closure)
                  && sig.DestroyAt(s) == (if a.destroy < 0 then -1 else first + a.destroy))
    ensures sig.ftype in {Method, VFunc} ==> sig.Dir(0) == FromPython && sig.Type(0) == Scalar
    ensures sig.Dir(-1) == (if sig.ftype == CallbackType then FromPython else ToPython) && sig.Type(-1) == sig.ret
  {
  }

  /** `p` is the type `ty`, or is inside it. */
  ghost predicate PartOf(p: ArgType, ty: ArgType) {
    p == ty ||
    match ty
    case Array(_, item) => PartOf(p, item)
    case List(item) => PartOf(p, item)
    case Hash(key, value) => PartOf(p, key) || PartOf(p, value)
    case _ => false
  }

  /** Nothing in the type is an interface without a class, or a callback that comes out. */
  ghost predicate Usable(ty: ArgType, dir: Direction) {
    forall p :: PartOf(p, ty) ==> p != Interface(false) && !(p == Callback && dir.Leaves())
  }

  lemma {:induction false} CachedIff(ty: ArgType, dir: Direction)
    ensures ty.Cached(dir) <==> Usable(ty, dir)
  {
    match ty
    case Array(_, item) =>
      CachedIff(item, dir);
      PartsInside(ty, {item}, dir);
    case List(item) =>
      CachedIff(item, dir);
      PartsInside(ty, {item}, dir);
    case Hash(key, value) =>
      CachedIff(key, dir);
      CachedIff(value, dir);
      PartsInside(ty, {key, value}, dir);
    case _ => assert PartOf(ty, ty);
  }

  lemma PartsInside(ty: ArgType, inside: set<ArgType>, dir: Direction)
    requires !ty.Interface? && !ty.Callback?
    requires forall p :: PartOf(p, ty) <==> p == ty || exists t :: t in inside && PartOf(p, t)
    ensures Usable(ty, dir) <==> forall t :: t in inside ==> Usable(t, dir)
  {
    hide PartOf;
    if Usable(ty, dir) {
      forall t, p | t in inside && PartOf(p, t) ensures p != Interface(false) && !(p == Callback && dir.Leaves()) {
        assert PartOf(p, ty);
      }
    }
  }

  // ---------------------------------------------------------------- counting slots

  ghost function Count(p: int -> bool, m: nat): nat {
    if m == 0 then 0 else Count(p, m - 1) + if p(m - 1) then 1 else 0
  }

  /** The slots below `m` satisfying `p`, in order. */
  ghost function Filter(p: int -> bool, m: nat): (r: seq<int>)
    ensures |r| == Count(p, m)
    ensures forall x :: x in r <==> 0 <= x < m && p(x)
  {
    if m == 0 then [] else Filter(p, m - 1) + if p(m - 1) then [m - 1] else []
  }

  lemma {:induction false} CountSame(p: int -> bool, q: int -> bool, m: nat)
    requires forall i :: 0 <= i < m ==> p(i) == q(i)
    ensures Count(p, m) == Count(q, m) && Filter(p, m) == Filter(q, m)
  {
    if m > 0 {
      CountSame(p, q, m - 1);
    }
  }

  /** Hiding one slot lowers the counts above it by one. */
  lemma {:induction false} CountFlip(p: int -> bool, q: int -> bool, m: nat, l: int)
    requires 0 <= l && p(l) && !q(l)
    requires forall i :: 0 <= i < m && i != l ==> p(i) == q(i)
    ensures Count(q, m) == Count(p, m) - if l < m then 1 else 0
  {
    if m > 0 {
      CountFlip(p, q, m - 1, l);
    }
  }

  lemma {:induction false} CountMonotone(p: int -> bool, m: nat, n: nat)
    requires m <= n
    ensures Count(p, m) <= Count(p, n)
    ensures m < n && p(m) ==> Count(p, m) < Count(p, n)
    decreases n
  {
    if m < n {
      CountMonotone(p, m, n - 1);
    }
  }

  function RemoveOne(s: seq<int>, x: int): (r: seq<int>)
    ensures x !in s ==> r == s
  {
    if s == [] then [] else if s[0] == x then s[1..] else [s[0]] + RemoveOne(s[1..], x)
  }

  lemma {:induction false} RemoveOneAppend(s: seq<int>, t: seq<int>, x: int)
    ensures x in s ==> RemoveOne(s + t, x) == RemoveOne(s, x) + t
    ensures x !in s ==> RemoveOne(s + t, x) == s + RemoveOne(t, x)
  {
    hide RemoveOne;
    if s == [] {
      assert s + t == t && s + RemoveOne(t, x) == RemoveOne(t, x);
    } else {
      assert s == [s[0]] + s[1..] && s + t == [s[0]] + (s[1..] + t);
      RemoveOneCons(s[0], s[1..], x);
      RemoveOneCons(s[0], s[1..] + t, x);
      if s[0] != x {
        RemoveOneAppend(s[1..], t, x);
        assert [s[0]] + (RemoveOne(s[1..], x) + t) == [s[0]] + RemoveOne(s[1..], x) + t;
        assert [s[0]] + (s[1..] + RemoveOne(t, x)) == s + RemoveOne(t, x);
      }
    }
  }

  lemma RemoveOneCons(y: int, s: seq<int>, x: int)
    ensures RemoveOne([y] + s, x) == if y == x then s else [y] + RemoveOne(s, x)
  {
    assert ([y] + s)[1..] == s;
  }

  lemma {:induction false} FilterFlip(p: int -> bool, q: int -> bool, m: nat, l: int)
    requires 0 <= l && p(l) && !q(l)
    requires forall i :: 0 <= i < m && i != l ==> p(i) == q(i)
    ensures Filter(q, m) == RemoveOne(Filter(p, m), l)
  {
    if m > 0 {
      FilterFlip(p, q, m - 1, l);
      var last := if p(m - 1) then [m - 1] else [];
      hide RemoveOne;
      RemoveOneAppend(Filter(p, m - 1), last, l);
      RemoveFromOne(m - 1, l);
      assert Filter(p, m - 1) + [] == Filter(p, m - 1);
    }
  }

  lemma RemoveFromOne(x: int, l: int)
    ensures RemoveOne([x], l) == if x == l then [] else [x]
    ensures RemoveOne([], l) == []
  {
  }
}
