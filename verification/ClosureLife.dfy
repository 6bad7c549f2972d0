/** The lifetime of native closures: `gi/pygi-closure.c`, with the cleanups that free them in
    `gi/pygi-marshal-cleanup.c` and the destroy-notify of `gi/pygi-marshal-from-py.c`. */
module ClosureLife {
  import opened Prelude

  datatype Scope = Call | Async | Notified

  /** The Python objects a PyGICClosure holds a reference to. */
  datatype Closure = Closure(func: Option<nat>, userData: Option<nat>)

  /** The allocated closures, and how often each was freed and dropped its references. */
  datatype Memory = Memory(live: map<nat, Closure>, freed: multiset<nat>, functionDrops: multiset<nat>,
                           dataDrops: multiset<nat>)

  /** What is running: an invocation with its call-scoped closures, or a closure called back from C, which on its way
      out drops its Python data first when it is async. */
  datatype Frame = Invocation(own: seq<nat>) | Callback(closure: nat, cleared: bool)

  /** Closure `c` was made with `scopes[c]`. The stack grows at its end. C was handed every closure but the `withheld`,
      and has `called` and `notified` these. */
  datatype State = State(mem: Memory, scopes: seq<Scope>, freeList: seq<nat>, stack: seq<Frame>,
                         called: set<nat>, notified: set<nat>, withheld: set<nat>)

  const START := State(Memory(map[], multiset{}, multiset{}, multiset{}), [], [], [], {}, {}, {})

  function Once(b: bool, c: nat): multiset<nat> { if b then multiset{c} else multiset{} }

  /** `_pygi_invoke_closure_clear_py_data`. */
  function Clear(m: Memory, c: nat): Memory {
    if c !in m.live then m
    else m.(live := m.live[c := Closure(None, None)],
            functionDrops := m.functionDrops + Once(m.live[c].func.Some?, c),
            dataDrops := m.dataDrops + Once(m.live[c].userData.Some?, c))
  }

  /** `_pygi_invoke_closure_free`; freeing a closure that is not allocated counts all the same. */
  function Free(m: Memory, c: nat): Memory {
    var cleared := Clear(m, c);
    cleared.(live := cleared.live - {c}, freed := cleared.freed + multiset{c})
  }

  function FreeEach(m: Memory, cs: seq<nat>): Memory
    decreases |cs|
  {
    if cs == [] then m else Free(FreeEach(m, cs[..|cs| - 1]), cs[|cs| - 1])
  }

  /** `_pygi_make_native_closure`: frees what is on the list, then makes the next closure. */
  function Make(s: State, scope: Scope, func: nat, userData: nat): State {
    Add(s.(mem := FreeEach(s.mem, s.freeList), freeList := []), scope, func, userData)
  }

  function Add(s: State, scope: Scope, func: nat, userData: nat): State {
    s.(mem := s.mem.(live := s.mem.live[|s.scopes| := Closure(Some(func), Some(userData))]),
       scopes := s.scopes + [scope])
  }

  datatype Action =
    | BeginInvoke
    | MakeClosure(scope: Scope, func: nat, userData: nat)
    | AbandonClosure(scope: Scope, func: nat, userData: nat)
    | EnterCallback(closure: nat)
    | DropData
    | LeaveCallback
    | EndInvoke(cleaned: nat)
    | DestroyNotify(closure: nat)

  predicate HasTop(s: State) { s.stack != [] }

  function Top(s: State): Frame
    requires HasTop(s)
  { s.stack[|s.stack| - 1] }

  function Under(s: State): seq<Frame>
    requires HasTop(s)
  { s.stack[..|s.stack| - 1] }

  predicate RunsAt(stack: seq<Frame>, i: nat, c: nat) { i < |stack| && stack[i].Callback? && stack[i].closure == c }

  predicate OwnsAt(stack: seq<Frame>, i: nat, c: nat) { i < |stack| && stack[i].Invocation? && c in stack[i].own }

  predicate Running(stack: seq<Frame>, c: nat) { exists i: nat :: i < |stack| && RunsAt(stack, i, c) }

  predicate Owned(stack: seq<Frame>, c: nat) { exists i: nat :: i < |stack| && OwnsAt(stack, i, c) }

  /** What can happen next at all: where in `pygi_callable_info_invoke` and `_pygi_closure_handle` one is. */
  predicate CanHappen(s: State, a: Action) {
    match a
    case BeginInvoke => true
    case MakeClosure(scope, _, _) => scope == Call ==> HasTop(s) && Top(s).Invocation?
    case AbandonClosure(_, _, _) => true
    case EnterCallback(c) => c < |s.scopes|
    case DropData =>
      HasTop(s) && Top(s).Callback? && !Top(s).cleared
      && Top(s).closure < |s.scopes| && s.scopes[Top(s).closure] == Async
    case LeaveCallback =>
      HasTop(s) && Top(s).Callback? && Top(s).closure < |s.scopes|
      && (s.scopes[Top(s).closure] == Async ==> Top(s).cleared)
    case EndInvoke(k) => HasTop(s) && Top(s).Invocation? && k <= |Top(s).own|
    case DestroyNotify(c) => c < |s.scopes|
  }

  /** What C may do next. It calls a call-scoped closure only during the invocation that made it, an async one at most
      once and a notified one only before its destroy-notify; it fires a destroy-notify at most once, for a notified
      closure that is not running. Nothing here looks at the memory. */
  predicate Allowed(s: State, a: Action) {
    CanHappen(s, a) &&
    match a
    case EnterCallback(c) =>
      c !in s.withheld
      && (match s.scopes[c]
          case Call => Owned(s.stack, c)
          case Async => c !in s.called
          case Notified => c !in s.notified)
    case DestroyNotify(c) => c !in s.withheld && s.scopes[c] == Notified && c !in s.notified && !Running(s.stack, c)
    case _ => true
  }

  /** One step. The in stage may abandon the closure it just made, before C sees it; and when it fails, the cleanup of
      the invocation reaches only the first `cleaned` of its call-scoped closures. Dropping references can run Python
      code, so between `DropData` and `LeaveCallback` anything may happen above. */
  function Step(s: State, a: Action): State
    requires CanHappen(s, a)
  {
    match a
    case BeginInvoke => s.(stack := s.stack + [Invocation([])])
    case MakeClosure(scope, f, d) =>
      var t := Make(s, scope, f, d);
      if scope == Call then t.(stack := Under(s) + [Invocation(Top(s).own + [|s.scopes|])]) else t
    case AbandonClosure(scope, f, d) =>
      var t := Make(s, scope, f, d);
      t.(mem := Free(t.mem, |s.scopes|), withheld := t.withheld + {|s.scopes|})
    case EnterCallback(c) => s.(stack := s.stack + [Callback(c, false)], called := s.called + {c})
    case DropData => s.(mem := Clear(s.mem, Top(s).closure), stack := Under(s) + [Callback(Top(s).closure, true)])
    case LeaveCallback =>
      s.(stack := Under(s),
         freeList := if s.scopes[Top(s).closure] == Async then [Top(s).closure] + s.freeList else s.freeList)
    case EndInvoke(k) => s.(mem := FreeEach(s.mem, Top(s).own[..k]), stack := Under(s))
    case DestroyNotify(c) => s.(mem := Free(s.mem, c), notified := s.notified + {c})
  }

  /** A run: every action is allowed where it happens. */
  ghost predicate Legal(actions: seq<Action>)
    decreases |actions|, 0
  {
    actions == [] || (Legal(actions[..|actions| - 1]) && Allowed(Run(actions[..|actions| - 1]), actions[|actions| - 1]))
  }

  ghost function Run(actions: seq<Action>): State
    requires Legal(actions)
    decreases |actions|, 1
  {
    if actions == [] then START else Step(Run(actions[..|actions| - 1]), actions[|actions| - 1])
  }
}
