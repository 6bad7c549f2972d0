/** The depth-first walk of a tree model: `iter_depth_first` in `pygtkcompat/generictreemodel.py`. */
module TreeWalk {
  import opened Prelude

  datatype Tree = Node(data: int, children: seq<Tree>)

  /** An iterator: the indices from the root down; `[]` stands for None, the invisible root. */
  type Path = seq<nat>

  predicate Valid(kids: seq<Tree>, p: Path)
    decreases |p|
  {
    p == [] || (p[0] < |kids| && Valid(kids[p[0]].children, p[1..]))
  }

  /** What `iter_n_children` and `iter_nth_child` see below `p`. */
  function Below(kids: seq<Tree>, p: Path): seq<Tree>
    requires Valid(kids, p)
    decreases |p|
  {
    if p == [] then kids else Below(kids[p[0]].children, p[1..])
  }

  /** `get_user_data`. */
  function Data(kids: seq<Tree>, p: Path): int
    requires p != [] && Valid(kids, p)
    decreases |p|
  {
    if |p| == 1 then kids[p[0]].data else Data(kids[p[0]].children, p[1..])
  }

  /** Recursive pre-order of the trees `kids[from..]`, which are at `at`. */
  function PreOrder(kids: seq<Tree>, at: Path, from: nat): seq<Path>
    requires from <= |kids|
    decreases kids, |kids| - from
  {
    if from == |kids| then []
    else [at + [from]] + PreOrder(kids[from].children, at + [from], 0) + PreOrder(kids, at, from + 1)
  }

  // ---------------------------------------------------------------- the walk

  /** What is still to come from iterator `p`. */
  function Visit(kids: seq<Tree>, p: Path): seq<Path>
    requires Valid(kids, p)
  {
    (if p == [] then [] else [p]) + PreOrder(Below(kids, p), p, 0)
  }

  function VisitAll(kids: seq<Tree>, stack: seq<Path>): seq<Path>
    requires forall p :: p in stack ==> Valid(kids, p)
    decreases |stack|
  {
    if stack == [] then [] else Visit(kids, stack[0]) + VisitAll(kids, stack[1..])
  }

  /** The iterators of the children of `p`, from the `from`-th on. */
  function Children(kids: seq<Tree>, p: Path, from: nat): (r: seq<Path>)
    requires Valid(kids, p) && from <= |Below(kids, p)|
    ensures |r| == |Below(kids, p)| - from && forall i :: 0 <= i < |r| ==> r[i] == p + [from + i]
    decreases |Below(kids, p)| - from
  {
    if from == |Below(kids, p)| then [] else [p + [from]] + Children(kids, p, from + 1)
  }

  lemma {:induction false} ChildBelow(kids: seq<Tree>, p: Path, i: nat)
    requires Valid(kids, p) && i < |Below(kids, p)|
    ensures Valid(kids, p + [i]) && Below(kids, p + [i]) == Below(kids, p)[i].children
    decreases |p|
  {
    if p != [] {
      ChildBelow(kids[p[0]].children, p[1..], i);
      assert (p + [i])[1..] == p[1..] + [i];
    }
  }

  /** The data of a node is that of its own place among the children of its parent. */
  lemma {:induction false} DataOfChild(kids: seq<Tree>, q: Path)
    requires q != [] && Valid(kids, q)
    ensures var (parent, i) := (q[..|q| - 1], q[|q| - 1]);
            Valid(kids, parent) && i < |Below(kids, parent)| && Data(kids, q) == Below(kids, parent)[i].data
    decreases |q|
  {
    var parent := q[..|q| - 1];
    if |q| > 1 {
      DataOfChild(kids[q[0]].children, q[1..]);
      assert parent[1..] == q[1..][..|q| - 2] && parent[0] == q[0];
    }
  }

  lemma {:induction false} ChildrenVisited(kids: seq<Tree>, p: Path, from: nat)
    requires Valid(kids, p) && from <= |Below(kids, p)|
    ensures forall q :: q in Children(kids, p, from) ==> Valid(kids, q)
    ensures VisitAll(kids, Children(kids, p, from)) == PreOrder(Below(kids, p), p, from)
    decreases |Below(kids, p)| - from
  {
    if from < |Below(kids, p)| {
      ChildBelow(kids, p, from);
      ChildrenVisited(kids, p, from + 1);
      assert Children(kids, p, from)[1..] == Children(kids, p, from + 1);
    }
  }

  lemma {:induction false} VisitAppend(kids: seq<Tree>, a: seq<Path>, b: seq<Path>)
    requires forall p :: p in a + b ==> Valid(kids, p)
    ensures (forall p :: p in a ==> Valid(kids, p)) && (forall p :: p in b ==> Valid(kids, p))
    ensures VisitAll(kids, a + b) == VisitAll(kids, a) + VisitAll(kids, b)
    decreases |a|
  {
    assert forall p :: p in a || p in b ==> p in a + b;
    if a == [] {
      assert a + b == b;
    } else {
      assert (a + b)[1..] == a[1..] + b;
      VisitAppend(kids, a[1..], b);
    }
  }

  /** How many iterators the subtrees of `kids[from..]` hold. */
  function Size(kids: seq<Tree>, from: nat): nat
    requires from <= |kids|
    decreases kids, |kids| - from
  {
    if from == |kids| then 0 else 1 + Size(kids[from].children, 0) + Size(kids, from + 1)
  }

  function Weight(kids: seq<Tree>, stack: seq<Path>): nat
    requires forall p :: p in stack ==> Valid(kids, p)
    decreases |stack|
  {
    if stack == [] then 0 else 1 + Size(Below(kids, stack[0]), 0) + Weight(kids, stack[1..])
  }

  lemma {:induction false} ChildrenWeigh(kids: seq<Tree>, p: Path, from: nat, rest: seq<Path>)
    requires Valid(kids, p) && from <= |Below(kids, p)| && forall q :: q in rest ==> Valid(kids, q)
    ensures forall q :: q in Children(kids, p, from) + rest ==> Valid(kids, q)
    ensures Weight(kids, Children(kids, p, from) + rest) == Size(Below(kids, p), from) + Weight(kids, rest)
    decreases |Below(kids, p)| - from
  {
    if from == |Below(kids, p)| {
      assert Children(kids, p, from) + rest == rest;
    } else {
      ChildBelow(kids, p, from);
      ChildrenWeigh(kids, p, from + 1, rest);
      assert (Children(kids, p, from) + rest)[1..] == Children(kids, p, from + 1) + rest;
    }
  }

  class Deque {
    var items: seq<Path>

    constructor (first: Path)
      ensures items == [first]
    { items := [first]; }

    method PopLeft() returns (p: Path)
      requires items != []
      modifies this
      ensures p == old(items)[0] && items == old(items)[1..]
    {
      p := items[0];
      items := items[1..];
    }

    /** `extendleft(reversed(xs))`: prepends the items one at a time, last first. */
    method ExtendLeftReversed(xs: seq<Path>)
      modifies this
      ensures items == xs + old(items)
    {
      for i := |xs| downto 0
        invariant items == xs[i..] + old(items)
      {
        items := [xs[i]] + items;
      }
    }
  }

  /** The list comprehension over `iter_nth_child`. */
  method ChildIters(kids: seq<Tree>, p: Path) returns (children: seq<Path>)
    requires Valid(kids, p)
    ensures children == Children(kids, p, 0)
  {
    children := [];
    for i := 0 to |Below(kids, p)|
      invariant children == Children(kids, p, 0)[..i]
    {
      children := children + [p + [i]];
    }
  }

  method IterDepthFirst(kids: seq<Tree>) returns (nodes: seq<Path>, yielded: seq<int>)
    ensures nodes == PreOrder(kids, [], 0)
    ensures |yielded| == |nodes|
            && forall i :: 0 <= i < |nodes| ==>
                 && nodes[i] != [] && Valid(kids, nodes[i])
                 && var (parent, k) := (nodes[i][..|nodes[i]| - 1], nodes[i][|nodes[i]| - 1]);
                    Valid(kids, parent) && k < |Below(kids, parent)| && yielded[i] == Below(kids, parent)[k].data
  {
    hide Valid, Below, Data, PreOrder, VisitAll, Weight, Children;
    RootVisit(kids);
    var stack := new Deque([]);
    nodes, yielded := [], [];
    while stack.items != []
      invariant fresh(stack)
      invariant forall p :: p in stack.items ==> Valid(kids, p)
      invariant nodes + VisitAll(kids, stack.items) == PreOrder(kids, [], 0)
      invariant |yielded| == |nodes|
      invariant forall i :: 0 <= i < |nodes| ==>
                  nodes[i] != [] && Valid(kids, nodes[i]) && yielded[i] == Data(kids, nodes[i])
      decreases Weight(kids, stack.items)
    {
      WalkStep(kids, stack.items);
      var it := stack.PopLeft();
      if it != [] {
        nodes, yielded := nodes + [it], yielded + [Data(kids, it)];
      }
      var children := ChildIters(kids, it);
      stack.ExtendLeftReversed(children);
    }
    NothingLeft(kids);
    forall i | 0 <= i < |nodes|
      ensures var (parent, k) := (nodes[i][..|nodes[i]| - 1], nodes[i][|nodes[i]| - 1]);
              Valid(kids, parent) && k < |Below(kids, parent)| && yielded[i] == Below(kids, parent)[k].data
    {
      DataOfChild(kids, nodes[i]);
    }
  }

  lemma NothingLeft(kids: seq<Tree>)
    ensures VisitAll(kids, []) == []
  {
  }

  /** One round of the loop yields the head of what was to come, and its children take its place. */
  lemma WalkStep(kids: seq<Tree>, stack: seq<Path>)
    requires stack != [] && forall p :: p in stack ==> Valid(kids, p)
    ensures var (it, after) := (stack[0], Children(kids, stack[0], 0) + stack[1..]);
            && (forall p :: p in after ==> Valid(kids, p))
            && VisitAll(kids, stack) == (if it == [] then [] else [it]) + VisitAll(kids, after)
            && Weight(kids, after) < Weight(kids, stack)
  {
    hide Valid, Below, PreOrder, Children, Size, VisitAll, Weight;
    var it, rest := stack[0], stack[1..];
    StackHead(kids, stack);
    ChildrenVisited(kids, it, 0);
    ChildrenWeigh(kids, it, 0, rest);
    VisitAppend(kids, Children(kids, it, 0), rest);
    assert (if it == [] then [] else [it]) + PreOrder(Below(kids, it), it, 0) + VisitAll(kids, rest)
        == (if it == [] then [] else [it]) + (PreOrder(Below(kids, it), it, 0) + VisitAll(kids, rest));
  }

  lemma StackHead(kids: seq<Tree>, stack: seq<Path>)
    requires stack != [] && forall p :: p in stack ==> Valid(kids, p)
    ensures VisitAll(kids, stack) == Visit(kids, stack[0]) + VisitAll(kids, stack[1..])
    ensures Weight(kids, stack) == 1 + Size(Below(kids, stack[0]), 0) + Weight(kids, stack[1..])
  {
    hide Valid, Below, Visit, Size;
  }

  lemma RootVisit(kids: seq<Tree>)
    ensures Valid(kids, []) && VisitAll(kids, [[]]) == PreOrder(kids, [], 0)
  {
  }

  // ---------------------------------------------------------------- what pre-order is

  /** Lexicographic order of paths, a parent before its children. */
  predicate Before(a: Path, b: Path)
    decreases |b|
  {
    b != [] && (a == [] || a[0] < b[0] || (a[0] == b[0] && Before(a[1..], b[1..])))
  }

  lemma {:induction false} BeforeAt(a: Path, b: Path, k: nat)
    requires k <= |a| && k < |b| && a[..k] == b[..k] && (k == |a| || a[k] < b[k])
    ensures Before(a, b)
    decreases k
  {
    if k > 0 {
      assert a[0] == a[..k][0] == b[..k][0] == b[0];
      assert a[1..][..k - 1] == a[..k][1..] && b[1..][..k - 1] == b[..k][1..];
      BeforeAt(a[1..], b[1..], k - 1);
    }
  }

  lemma {:induction false} BeforeIrreflexive(a: Path)
    ensures !Before(a, a)
    decreases |a|
  {
    if a != [] {
      BeforeIrreflexive(a[1..]);
    }
  }

  /** `q` is the node of `kids`, which are at `at`, with its first index `from` or more. */
  predicate Within(kids: seq<Tree>, at: Path, from: nat, q: Path) {
    |at| < |q| && q[..|at|] == at && from <= q[|at|] && Valid(kids, q[|at|..])
  }

  /** Pre-order lists exactly the nodes from `from` on. */
  lemma {:induction false} PreOrderNodes(kids: seq<Tree>, at: Path, from: nat, q: Path)
    requires from <= |kids|
    ensures q in PreOrder(kids, at, from) <==> Within(kids, at, from, q)
    decreases kids, |kids| - from
  {
    if from < |kids| {
      hide PreOrder, Within;
      PreOrderNodes(kids[from].children, at + [from], 0, q);
      PreOrderNodes(kids, at, from + 1, q);
      PreOrderStep(kids, at, from);
      WithinStep(kids, at, from, q);
    }
  }

  lemma WithinStep(kids: seq<Tree>, at: Path, from: nat, q: Path)
    requires from < |kids|
    ensures Within(kids, at, from, q) <==>
            q == at + [from] || Within(kids[from].children, at + [from], 0, q) || Within(kids, at, from + 1, q)
  {
    var here := at + [from];
    if |at| < |q| && q[..|at|] == at && q[|at|] == from {
      assert q[..|here|] == here;
      assert q[|at|..][1..] == q[|here|..] && q[|at|..][0] == from;
      assert Valid(kids, q[|at|..]) <==> Valid(kids[from].children, q[|here|..]);
      assert |q| == |here| <==> q == here;
    } else {
      NotUnder(at, from, q);
    }
  }

  lemma NotUnder(at: Path, from: nat, q: Path)
    requires |at| < |q| && q[..|at|] == at ==> q[|at|] != from
    ensures |at| < |q| ==> q[..|at| + 1] != at + [from]
  {
    if |at| < |q| {
      assert q[..|at| + 1][..|at|] == q[..|at|] && q[..|at| + 1][|at|] == q[|at|];
    }
  }

  lemma PreOrderStep(kids: seq<Tree>, at: Path, from: nat)
    requires from < |kids|
    ensures PreOrder(kids, at, from) ==
            [at + [from]] + PreOrder(kids[from].children, at + [from], 0) + PreOrder(kids, at, from + 1)
  {
  }

  ghost predicate Ascending(paths: seq<Path>) {
    forall i, j :: 0 <= i < j < |paths| ==> Before(paths[i], paths[j])
  }

  lemma AscendingJoin(a: seq<Path>, b: seq<Path>)
    requires Ascending(a) && Ascending(b) && forall x, y :: x in a && y in b ==> Before(x, y)
    ensures Ascending(a + b)
  {
    var all := a + b;
    forall i, j | 0 <= i < j < |all| ensures Before(all[i], all[j]) {
      assert i < |a| ==> all[i] == a[i] && all[i] in a;
      assert i >= |a| ==> all[i] == b[i - |a|];
      assert j < |a| ==> all[j] == a[j];
      assert j >= |a| ==> all[j] == b[j - |a|] && all[j] in b;
    }
  }

  lemma {:induction false} PreOrderAscends(kids: seq<Tree>, at: Path, from: nat)
    requires from <= |kids|
    ensures Ascending(PreOrder(kids, at, from))
    decreases kids, |kids| - from
  {
    if from < |kids| {
      var here := at + [from];
      var sub, rest := PreOrder(kids[from].children, here, 0), PreOrder(kids, at, from + 1);
      PreOrderAscends(kids[from].children, here, 0);
      PreOrderAscends(kids, at, from + 1);
      PreOrderStep(kids, at, from);
      hide PreOrder, Before;
      forall y | y in sub ensures Before(here, y) && Within(kids, at, from, y) && y[|at|] == from {
        PreOrderNodes(kids[from].children, here, 0, y);
        BeforeAt(here, y, |here|);
        WithinStep(kids, at, from, y);
        assert y[..|here|][|at|] == from;
      }
      AscendingJoin([here], sub);
      forall x, y | x in [here] + sub && y in rest ensures Before(x, y) {
        PreOrderNodes(kids, at, from + 1, y);
        assert x == here ==> x[..|at|] == at && x[|at|] == from;
        BeforeAt(x, y, |at|);
      }
      AscendingJoin([here] + sub, rest);
    }
  }

  /** The walk lists every node of the forest exactly once, each parent before its children and siblings in order. */
  lemma WalkListsEveryNodeOnce(kids: seq<Tree>)
    ensures Ascending(PreOrder(kids, [], 0)) && NoDup(PreOrder(kids, [], 0))
    ensures forall q: Path :: q in PreOrder(kids, [], 0) <==> q != [] && Valid(kids, q)
  {
    var all := PreOrder(kids, [], 0);
    PreOrderAscends(kids, [], 0);
    forall i, j | 0 <= i < j < |all| ensures all[i] != all[j] {
      assert Before(all[i], all[j]);
      BeforeIrreflexive(all[i]);
    }
    forall q: Path ensures q in all <==> q != [] && Valid(kids, q) {
      PreOrderNodes(kids, [], 0, q);
      assert q[..0] == [] && q[0..] == q;
    }
  }
}
