/** Who owns the blocks a conversion allocates, and what a release frees. */
module Ownership {
  import opened Prelude
  import opened CInts
  import opened Argument

  // ---------------------------------------------------------------- blocks of an argument

  function Blocks(arg: CArg): multiset<nat>
    decreases arg, 0
  {
    match arg
    case Str(b, _) => multiset{b}
    case Arr(b, items) => multiset{b} + ItemBlocks(items, |items|)
    case Lst(cells) => CellBlocks(cells, |cells|) + CellItemBlocks(cells, |cells|)
    case Hsh(b, entries) => multiset{b} + EntryBlocks(entries, |entries|)
    case _ => multiset{}
  }

  function ItemBlocks(items: seq<CArg>, n: nat): multiset<nat>
    requires n <= |items|
    decreases items, n
  {
    if n == 0 then multiset{} else ItemBlocks(items, n - 1) + Blocks(items[n - 1])
  }

  function CellItemBlocks(cells: seq<Cell>, n: nat): multiset<nat>
    requires n <= |cells|
    decreases cells, n
  {
    if n == 0 then multiset{} else CellItemBlocks(cells, n - 1) + CellItem(cells[n - 1])
  }

  function CellItem(c: Cell): multiset<nat>
    decreases c, 1
  { Blocks(c.item) }

  function EntryBlocks(entries: seq<Entry>, n: nat): multiset<nat>
    requires n <= |entries|
    decreases entries, n
  {
    if n == 0 then multiset{} else EntryBlocks(entries, n - 1) + EntryItems(entries[n - 1])
  }

  function EntryItems(e: Entry): multiset<nat>
    decreases e, 1
  { Blocks(e.key) + Blocks(e.value) }

  /** The blocks of the outermost container alone. */
  function OuterBlocks(arg: CArg): multiset<nat> {
    match arg
    case Str(b, _) => multiset{b}
    case Arr(b, _) => multiset{b}
    case Lst(cells) => CellBlocks(cells, |cells|)
    case Hsh(b, _) => multiset{b}
    case _ => multiset{}
  }

  ghost predicate Typed(arg: CArg, ty: Ty)
    decreases ty
  {
    match ty
    case TBool => arg.Raw?
    case TInt(_) => arg.Raw?
    case TStr => arg.Null? || arg.Str?
    case TArray(item) => arg.Null? || (arg.Arr? && forall x :: x in arg.items ==> Typed(x, item))
    case TList(item) => arg.Null? || (arg.Lst? && forall c :: c in arg.cells ==> Typed(c.item, item))
    case THash(key, value) =>
      arg.Null? || (arg.Hsh? && forall e :: e in arg.entries ==> Typed(e.key, key) && Typed(e.value, value))
  }

  // ---------------------------------------------------------------- what a release frees

  /** Transfer nothing frees every block, container all but the outermost container's, everything none. */
  lemma {:induction false} ReleasePartition(arg: CArg, ty: Ty)
    requires Typed(arg, ty)
    ensures Freed(arg, ty, Nothing) == Blocks(arg)
    ensures Freed(arg, ty, Container) == Blocks(arg) - OuterBlocks(arg)
    ensures Freed(arg, ty, Everything) == multiset{}
    decreases ty, 1, 0
  {
    hide *;
    TypedInside(arg, ty);
    match (ty, arg)
    case (TArray(item), Arr(b, items)) =>
      ReleaseItems(items, item, |items|);
      ArrayRelease(b, items, item);
    case (TList(item), Lst(cells)) =>
      ReleaseCells(cells, item, |cells|);
      ListRelease(cells, item);
    case (THash(key, value), Hsh(b, entries)) =>
      ReleaseEntries(entries, key, value, |entries|);
      TableRelease(b, entries, key, value);
    case _ => LeafRelease(arg, ty);
  }

  lemma Parts(outer: multiset<nat>, inner: multiset<nat>)
    ensures inner + outer == outer + inner && inner + multiset{} == outer + inner - outer
  {
  }

  lemma ArrayRelease(b: nat, items: seq<CArg>, item: Ty)
    requires FreedItems(items, item, |items|) == ItemBlocks(items, |items|)
    ensures var (arg, ty) := (Arr(b, items), TArray(item));
            && Freed(arg, ty, Nothing) == Blocks(arg) && Freed(arg, ty, Container) == Blocks(arg) - OuterBlocks(arg)
            && Freed(arg, ty, Everything) == multiset{}
  {
    hide FreedItems, ItemBlocks;
    Parts(multiset{b}, ItemBlocks(items, |items|));
  }

  lemma ListRelease(cells: seq<Cell>, item: Ty)
    requires FreedCellItems(cells, item, |cells|) == CellItemBlocks(cells, |cells|)
    ensures var (arg, ty) := (Lst(cells), TList(item));
            && Freed(arg, ty, Nothing) == Blocks(arg) && Freed(arg, ty, Container) == Blocks(arg) - OuterBlocks(arg)
            && Freed(arg, ty, Everything) == multiset{}
  {
    hide FreedCellItems, CellItemBlocks, CellBlocks;
    Parts(CellBlocks(cells, |cells|), CellItemBlocks(cells, |cells|));
  }

  lemma TableRelease(b: nat, entries: seq<Entry>, key: Ty, value: Ty)
    requires FreedEntries(entries, key, value, |entries|) == EntryBlocks(entries, |entries|)
    ensures var (arg, ty) := (Hsh(b, entries), THash(key, value));
            && Freed(arg, ty, Nothing) == Blocks(arg) && Freed(arg, ty, Container) == Blocks(arg) - OuterBlocks(arg)
            && Freed(arg, ty, Everything) == multiset{}
  {
    hide FreedEntries, EntryBlocks;
    Parts(multiset{b}, EntryBlocks(entries, |entries|));
  }

  lemma LeafRelease(arg: CArg, ty: Ty)
    requires arg.Null? || (ty.TStr? && arg.Str?) || ((ty.TBool? || ty.TInt?) && arg.Raw?)
    ensures Freed(arg, ty, Nothing) == Blocks(arg) && Freed(arg, ty, Container) == Blocks(arg) - OuterBlocks(arg)
    ensures Freed(arg, ty, Everything) == multiset{}
  {
  }

  lemma TypedInside(arg: CArg, ty: Ty)
    requires Typed(arg, ty)
    ensures match ty
            case TArray(item) => arg.Null? || (arg.Arr? && forall x :: x in arg.items ==> Typed(x, item))
            case TList(item) => arg.Null? || (arg.Lst? && forall c :: c in arg.cells ==> Typed(c.item, item))
            case THash(key, value) =>
              arg.Null? || (arg.Hsh? && forall e :: e in arg.entries ==> Typed(e.key, key) && Typed(e.value, value))
            case TStr => arg.Null? || arg.Str?
            case _ => arg.Raw?
  {
  }

  lemma {:induction false} ReleaseItems(items: seq<CArg>, ty: Ty, n: nat)
    requires n <= |items| && forall x :: x in items ==> Typed(x, ty)
    ensures FreedItems(items, ty, n) == ItemBlocks(items, n)
    decreases ty, 2, n
  {
    if n > 0 {
      ReleaseItems(items, ty, n - 1);
      ReleasePartition(items[n - 1], ty);
    }
  }

  lemma {:induction false} ReleaseCells(cells: seq<Cell>, ty: Ty, n: nat)
    requires n <= |cells| && forall c :: c in cells ==> Typed(c.item, ty)
    ensures FreedCellItems(cells, ty, n) == CellItemBlocks(cells, n)
    decreases ty, 2, n
  {
    if n > 0 {
      ReleaseCells(cells, ty, n - 1);
      ReleasePartition(cells[n - 1].item, ty);
    }
  }

  lemma {:induction false} ReleaseEntries(entries: seq<Entry>, key: Ty, value: Ty, n: nat)
    requires n <= |entries| && forall e :: e in entries ==> Typed(e.key, key) && Typed(e.value, value)
    ensures FreedEntries(entries, key, value, n) == EntryBlocks(entries, n)
    decreases THash(key, value), 0, n
  {
    hide Typed, Freed, Blocks;
    if n > 0 {
      ReleaseEntries(entries, key, value, n - 1);
      ReleasePartition(entries[n - 1].key, key);
      ReleasePartition(entries[n - 1].value, value);
      Swap(EntryBlocks(entries, n - 1), Blocks(entries[n - 1].key), Blocks(entries[n - 1].value));
    }
  }

  // ---------------------------------------------------------------- fresh ids

  ghost function Ids(a: nat, b: nat): (r: set<nat>)
    ensures forall x :: x in r <==> a <= x < b
  {
    if a >= b then {} else Ids(a, b - 1) + {b - 1}
  }

  /** The ids from `a` up to `b`, each once. */
  ghost function Fresh(a: nat, b: nat): multiset<nat> { multiset(Ids(a, b)) }

  lemma FreshSplit(a: nat, b: nat, c: nat)
    requires a <= b <= c
    ensures Fresh(a, b) + Fresh(b, c) == Fresh(a, c)
  {
    assert Ids(a, b) + Ids(b, c) == Ids(a, c) && Ids(a, b) !! Ids(b, c);
  }

  lemma FreshOne(a: nat)
    ensures Fresh(a, a + 1) == multiset{a}
    ensures Fresh(a, a) == multiset{}
  {
    assert Ids(a, a + 1) == {a} && Ids(a, a) == {};
  }

  ghost predicate HeapOk(h: Heap) { forall x :: x in h.live ==> x < h.next }

  /** `h'` is `h` with the ids up to `h'.next` allocated and nothing freed. */
  ghost predicate Grown(h: Heap, h': Heap) {
    && h.next <= h'.next && h'.freed == h.freed
    && h'.live == h.live + Ids(h.next, h'.next)
  }

  lemma GrownTrans(h: Heap, h1: Heap, h2: Heap)
    requires Grown(h, h1) && Grown(h1, h2)
    ensures Grown(h, h2) && Fresh(h.next, h1.next) + Fresh(h1.next, h2.next) == Fresh(h.next, h2.next)
  {
    FreshSplit(h.next, h1.next, h2.next);
  }

  lemma GrownAlloc(h: Heap)
    ensures Grown(h, Alloc(h)) && Fresh(h.next, h.next + 1) == multiset{h.next}
  {
    FreshOne(h.next);
  }

  // ---------------------------------------------------------------- which tables lose blocks

  /** Conversion of `o` allocates something. */
  predicate HasBlock(o: Py, ty: Ty) {
    match ty
    case TStr => o.PyStr?
    case TArray(_) => o != PyNone
    case TList(_) => o != PyNone && Items(o, true).Some? && Items(o, true).value != []
    case THash(_, _) => o != PyNone
    case _ => false
  }

  /** What the table will compare for key `o`; `None` for a pointer to a block of its own. */
  function KeyOf(o: Py, ty: Ty): Option<KeyImage> {
    match ty
    case TBool => Some(CellValue(if Truth(o) then 1 else 0))
    case TInt(tag) => Some(CellValue(if AsLong(o).Some? then Store(tag, AsLong(o).value, 0) else 0))
    case TStr => Some(if o.PyStr? then Text(CText(o.s)) else NullPointer)
    case _ => if HasBlock(o, ty) then None else Some(NullPointer)
  }

  /** Two keys the table cannot tell apart: equal C strings, equal cells, or null pointers. */
  predicate Clash(ty: Ty, a: Py, b: Py) { KeyOf(a, ty).Some? && KeyOf(a, ty) == KeyOf(b, ty) }

  /** No entry of any table inside `o` displaces a key or a value that owns a block. */
  ghost predicate Clean(o: Py, ty: Ty)
    decreases ty
  {
    match ty
    case TArray(item) => Items(o, false).Some? ==> forall x :: x in Items(o, false).value ==> Clean(x, item)
    case TList(item) => Items(o, true).Some? ==> forall x :: x in Items(o, true).value ==> Clean(x, item)
    case THash(key, value) =>
      o.PyDict? && |o.keys| == |o.values| ==>
        && (forall x :: x in o.keys ==> Clean(x, key)) && (forall x :: x in o.values ==> Clean(x, value))
        && NothingDisplaced(o.keys, o.values, key, value, |o.keys|)
    case _ => true
  }

  ghost predicate NothingDisplaced(keys: seq<Py>, values: seq<Py>, key: Ty, value: Ty, n: nat)
    requires n <= |keys| == |values|
  {
    forall i, j :: 0 <= i < j < n && Clash(key, keys[i], keys[j]) ==>
      !HasBlock(keys[j], key) && !HasBlock(values[i], value)
  }

  // ---------------------------------------------------------------- what a conversion allocates

  /** `blocks` are among the ids allocated from `h` to `h'`, each at most once; all of them exactly when `whole`. */
  ghost predicate Owns(h: Heap, h': Heap, blocks: multiset<nat>, whole: bool) {
    Grown(h, h') && blocks <= Fresh(h.next, h'.next) && (blocks == Fresh(h.next, h'.next) <==> whole)
  }

  lemma OwnsJoin(h: Heap, h1: Heap, h2: Heap, b1: multiset<nat>, w1: bool, b2: multiset<nat>, w2: bool)
    requires Owns(h, h1, b1, w1) && Owns(h1, h2, b2, w2)
    ensures Owns(h, h2, b1 + b2, w1 && w2)
  {
    GrownTrans(h, h1, h2);
    var f1, f2 := Fresh(h.next, h1.next), Fresh(h1.next, h2.next);
    if b1 + b2 == f1 + f2 {
      forall x ensures b1[x] == f1[x] && b2[x] == f2[x] {
        assert (b1 + b2)[x] == (f1 + f2)[x];
      }
    }
  }

  lemma OwnsGrown(h: Heap, h': Heap, b: multiset<nat>, w: bool)
    requires Owns(h, h', b, w)
    ensures h.next <= h'.next
  {
  }

  lemma OwnsAlloc(h: Heap)
    ensures Owns(h, Alloc(h), multiset{h.next}, true)
  {
    GrownAlloc(h);
  }

  lemma OwnsNothing(h: Heap)
    ensures Owns(h, h, multiset{}, true)
  {
    FreshOne(h.next);
  }

  lemma {:induction false} ItemBlocksAppend(items: seq<CArg>, v: CArg, n: nat)
    requires n <= |items|
    ensures ItemBlocks(items + [v], n) == ItemBlocks(items, n)
  {
    if n > 0 {
      ItemBlocksAppend(items, v, n - 1);
    }
  }

  lemma ItemBlocksPlus(items: seq<CArg>, v: CArg)
    ensures ItemBlocks(items + [v], |items| + 1) == ItemBlocks(items, |items|) + Blocks(v)
  {
    ItemBlocksAppend(items, v, |items|);
  }

  lemma Swap(a: multiset<nat>, b: multiset<nat>, c: multiset<nat>)
    ensures a + b + c == a + c + b
    ensures a + b + c == a + (b + c)
  {
  }

  lemma {:induction false} CellsPrepend(c: Cell, cells: seq<Cell>, n: nat)
    requires n <= |cells|
    ensures CellBlocks([c] + cells, n + 1) == multiset{c.block} + CellBlocks(cells, n)
  {
    if n > 0 {
      CellsPrepend(c, cells, n - 1);
      Swap(multiset{c.block}, CellBlocks(cells, n - 1), multiset{cells[n - 1].block});
    } else {
      assert CellBlocks([c] + cells, 1) == CellBlocks([c] + cells, 0) + multiset{c.block};
    }
  }

  lemma {:induction false} CellItemsPrepend(c: Cell, cells: seq<Cell>, n: nat)
    requires n <= |cells|
    ensures CellItemBlocks([c] + cells, n + 1) == Blocks(c.item) + CellItemBlocks(cells, n)
  {
    hide Blocks;
    var all := [c] + cells;
    if n > 0 {
      CellItemsPrepend(c, cells, n - 1);
      Swap(Blocks(c.item), CellItemBlocks(cells, n - 1), CellItem(cells[n - 1]));
      assert CellItemBlocks(all, n + 1) == CellItemBlocks(all, n) + CellItem(all[n]);
    } else {
      assert CellItemBlocks(all, 1) == CellItemBlocks(all, 0) + CellItem(all[0]);
    }
  }

  lemma {:induction false} EntriesAppend(entries: seq<Entry>, e: Entry, n: nat)
    requires n <= |entries|
    ensures EntryBlocks(entries + [e], n) == EntryBlocks(entries, n)
  {
    if n > 0 {
      EntriesAppend(entries, e, n - 1);
    }
  }

  lemma {:induction false} EntriesUpdate(entries: seq<Entry>, i: nat, e: Entry, n: nat)
    requires i < |entries| && n <= |entries|
    ensures i < n ==>
              EntryBlocks(entries[i := e], n) + EntryItems(entries[i]) == EntryBlocks(entries, n) + EntryItems(e)
    ensures n <= i ==> EntryBlocks(entries[i := e], n) == EntryBlocks(entries, n)
  {
    hide EntryItems;
    if n > 0 {
      EntriesUpdate(entries, i, e, n - 1);
      var all := entries[i := e];
      assert EntryBlocks(all, n) == EntryBlocks(all, n - 1) + EntryItems(all[n - 1]);
      assert EntryBlocks(entries, n) == EntryBlocks(entries, n - 1) + EntryItems(entries[n - 1]);
      if i < n {
        if i == n - 1 {
          Swap(EntryBlocks(entries, n - 1), EntryItems(e), EntryItems(entries[i]));
        } else {
          Swap(EntryBlocks(all, n - 1), EntryItems(all[n - 1]), EntryItems(entries[i]));
          Swap(EntryBlocks(entries, n - 1), EntryItems(all[n - 1]), EntryItems(e));
        }
      }
    }
  }

  lemma PackKeepsBlocks(ty: Ty, v: CArg)
    ensures Blocks(Pack(ty, v)) == Blocks(v)
    ensures Typed(v, ty) ==> Typed(Pack(ty, v), ty)
  {
  }

  /** What a successful conversion owns, and whether it allocated at all. */
  ghost predicate ConvOwnsAt(o: Py, ty: Ty, h: Heap, arg: CArg, h': Heap) {
    && Typed(arg, ty) && Owns(h, h', Blocks(arg), Clean(o, ty))
    && (HasBlock(o, ty) <==> Blocks(arg) != multiset{}) && (HasBlock(o, ty) <==> h.next < h'.next)
    && (match KeyOf(o, ty)
        case Some(image) => ImageOf(arg) == image || (ty.TStr? && arg.Null?)
        case None => ImageOf(arg).Pointer? && h.next <= ImageOf(arg).block < h'.next)
  }

  /** The exact ownership of a successful conversion: every block it reaches was freshly allocated, none twice;
      it reaches every allocated block exactly when no table displaced a key or value that owns one. */
  lemma {:induction false} ConvOwns(o: Py, ty: Ty, h: Heap)
    ensures Conv(o, ty, h).0.Good? ==> ConvOwnsAt(o, ty, h, Conv(o, ty, h).0.value, Conv(o, ty, h).1)
    decreases ty, 1, 0
  {
    hide *;
    match ty
    case TArray(item) =>
      if o != PyNone && Items(o, false).Some? {
        ItemsOwn(Items(o, false).value, item, |Items(o, false).value|, Alloc(h));
      }
      ArrayOwns(o, item, h);
    case TList(item) =>
      if o != PyNone && Items(o, true).Some? {
        CellsOwn(Items(o, true).value, item, 0, h);
      }
      ListOwns(o, item, h);
    case THash(key, value) =>
      if o.PyDict? && |o.keys| == |o.values| {
        EntriesOwn(o.keys, o.values, key, value, |o.keys|, Alloc(h));
        TableOwnsEntries(o.keys, o.values, key, value, |o.keys|, Alloc(h),
                         ConvEntries(o.keys, o.values, key, value, |o.keys|, Alloc(h)));
      }
      HashOwns(o, key, value, h);
    case _ => LeafOwns(o, ty, h);
  }

  lemma LeafOwns(o: Py, ty: Ty, h: Heap)
    requires !ty.TArray? && !ty.TList? && !ty.THash?
    ensures Conv(o, ty, h).0.Good? ==> ConvOwnsAt(o, ty, h, Conv(o, ty, h).0.value, Conv(o, ty, h).1)
  {
    hide Owns;
    OwnsNothing(h);
    OwnsAlloc(h);
  }

  lemma TableOwnsEntries(keys: seq<Py>, values: seq<Py>, key: Ty, value: Ty, n: nat, h: Heap, r: EntriesRun)
    requires n <= |keys| == |values| && (r.outcome.Good? ==> TableAt(keys, values, key, value, n, h, r))
    ensures r.outcome.Good? ==> EntriesOwnAt(keys, values, key, value, n, h, r)
  {
    hide EntriesOwnAt, Linked;
  }

  /** What the items of an array own. */
  ghost predicate ItemsOwnAt(items: seq<Py>, ty: Ty, n: nat, h: Heap, r: ItemsRun)
    requires n <= |items|
  {
    |r.done| == n && (forall x :: x in r.done ==> Typed(x, ty))
    && Owns(h, r.heap, ItemBlocks(r.done, n), ItemsClean(items, ty, n))
  }

  lemma ArrayOwns(o: Py, item: Ty, h: Heap)
    requires o != PyNone && Items(o, false).Some? ==>
               var items := Items(o, false).value;
               var r := ConvItems(items, item, |items|, Alloc(h));
               r.outcome.Good? ==> ItemsOwnAt(items, item, |items|, Alloc(h), r)
    ensures var ty := TArray(item);
            Conv(o, ty, h).0.Good? ==> ConvOwnsAt(o, ty, h, Conv(o, ty, h).0.value, Conv(o, ty, h).1)
  {
    OwnsNothing(h);
    hide Owns, ConvItems, Clean, Blocks, Typed;
    if o != PyNone && Conv(o, TArray(item), h).0.Good? {
      var items := Items(o, false).value;
      var r := ConvItems(items, item, |items|, Alloc(h));
      OwnsAlloc(h);
      OwnsGrown(Alloc(h), r.heap, ItemBlocks(r.done, |r.done|), ItemsClean(items, item, |items|));
      ItemsCleanIs(o, item);
      OwnsJoin(h, Alloc(h), r.heap, multiset{h.next}, true, ItemBlocks(r.done, |r.done|),
               ItemsClean(items, item, |items|));
      ArrTyped(h.next, r.done, item);
    } else {
      NullTyped(o, TArray(item));
    }
  }

  lemma ItemsCleanIs(o: Py, item: Ty)
    requires Items(o, false).Some?
    ensures Clean(o, TArray(item)) <==> ItemsClean(Items(o, false).value, item, |Items(o, false).value|)
  {
  }

  lemma ArrTyped(b: nat, items: seq<CArg>, item: Ty)
    requires forall x :: x in items ==> Typed(x, item)
    ensures Typed(Arr(b, items), TArray(item)) && Blocks(Arr(b, items)) == multiset{b} + ItemBlocks(items, |items|)
  {
  }

  lemma NullTyped(o: Py, ty: Ty)
    ensures (ty.TArray? || ty.TList? || ty.THash? || ty.TStr?) ==> Typed(Null, ty)
    ensures Blocks(Null) == multiset{}
    ensures o == PyNone ==> Clean(o, ty)
  {
  }

  lemma ListOwns(o: Py, item: Ty, h: Heap)
    requires o != PyNone && Items(o, true).Some? ==>
               var items := Items(o, true).value;
               var r := ConvCells(items, item, 0, h);
               r.outcome.Good? ==> CellsOwnAt(items, item, 0, h, r)
    ensures var ty := TList(item);
            Conv(o, ty, h).0.Good? ==> ConvOwnsAt(o, ty, h, Conv(o, ty, h).0.value, Conv(o, ty, h).1)
  {
    if o == PyNone || Items(o, true).None? || Items(o, true).value == [] {
      OwnsNothing(h);
      NullTyped(o, TList(item));
      EmptyCells(item, h);
      if Items(o, true).Some? { CellsCleanIs(o, item); }
      hide Owns, ConvCells, Clean, Blocks, Typed;
    } else if ConvCells(Items(o, true).value, item, 0, h).outcome.Good? {
      ListOwnsSome(o, item, h);
    }
  }

  lemma ListOwnsSome(o: Py, item: Ty, h: Heap)
    requires o != PyNone && Items(o, true).Some? && Items(o, true).value != []
    requires var items := Items(o, true).value;
             var r := ConvCells(items, item, 0, h);
             r.outcome.Good? && CellsOwnAt(items, item, 0, h, r)
    ensures Conv(o, TList(item), h).0.Good?
    ensures ConvOwnsAt(o, TList(item), h, Conv(o, TList(item), h).0.value, Conv(o, TList(item), h).1)
  {
    var items := Items(o, true).value;
    var r := ConvCells(items, item, 0, h);
    ListResult(o, item, h);
    CellsCleanIs(o, item);
    hide *;
    CellsOwnParts(items, item, h, r);
    LstTyped(r.cells, item);
    ListAssemble(o, item, h, r.cells, r.heap);
  }

  lemma CellsOwnParts(items: seq<Py>, item: Ty, h: Heap, r: CellsRun)
    requires items != [] && CellsOwnAt(items, item, 0, h, r)
    ensures r.cells != [] && (forall c :: c in r.cells ==> Typed(c.item, item))
    ensures h.next <= r.cells[0].block < r.heap.next
    ensures Owns(h, r.heap, CellBlocks(r.cells, |r.cells|) + CellItemBlocks(r.cells, |r.cells|),
                 CellsClean(items, item, 0))
  {
    hide Owns, Typed, CellBlocks, CellItemBlocks, CellsClean;
  }

  lemma ListAssemble(o: Py, item: Ty, h: Heap, cells: seq<Cell>, h': Heap)
    requires o != PyNone && Items(o, true).Some? && Items(o, true).value != []
    requires cells != [] && Typed(Lst(cells), TList(item)) && h.next <= cells[0].block < h'.next
    requires Owns(h, h', Blocks(Lst(cells)), Clean(o, TList(item)))
    ensures ConvOwnsAt(o, TList(item), h, Lst(cells), h')
  {
    hide Owns, Typed, Clean, CellItemBlocks;
    CellBlockIn(cells, |cells|);
    assert cells[0].block in Blocks(Lst(cells));
    hide Items, Blocks;
  }

  lemma ListResult(o: Py, item: Ty, h: Heap)
    requires o != PyNone && Items(o, true).Some? && Items(o, true).value != []
    ensures var r := ConvCells(Items(o, true).value, item, 0, h);
            r.outcome.Good? && r.cells != [] ==> Conv(o, TList(item), h) == (Good(Lst(r.cells)), r.heap)
  {
    hide ConvCells, Items;
  }

  lemma EmptyCells(item: Ty, h: Heap)
    ensures ConvCells([], item, 0, h) == CellsRun(Good(()), [], h)
  {
  }

  lemma CellsCleanIs(o: Py, item: Ty)
    requires Items(o, true).Some?
    ensures Clean(o, TList(item)) <==> CellsClean(Items(o, true).value, item, 0)
  {
  }

  lemma LstTyped(cells: seq<Cell>, item: Ty)
    requires forall c :: c in cells ==> Typed(c.item, item)
    ensures Typed(Lst(cells), TList(item))
    ensures Blocks(Lst(cells)) == CellBlocks(cells, |cells|) + CellItemBlocks(cells, |cells|)
  {
  }

  lemma {:induction false} CellBlockIn(cells: seq<Cell>, n: nat)
    requires 0 < n <= |cells|
    ensures cells[0].block in CellBlocks(cells, n)
  {
    if n > 1 {
      CellBlockIn(cells, n - 1);
    }
  }

  lemma HashOwns(o: Py, key: Ty, value: Ty, h: Heap)
    requires o.PyDict? && |o.keys| == |o.values| ==>
               var r := ConvEntries(o.keys, o.values, key, value, |o.keys|, Alloc(h));
               r.outcome.Good? ==> EntriesOwnAt(o.keys, o.values, key, value, |o.keys|, Alloc(h), r)
    ensures var ty := THash(key, value);
            Conv(o, ty, h).0.Good? ==> ConvOwnsAt(o, ty, h, Conv(o, ty, h).0.value, Conv(o, ty, h).1)
  {
    OwnsNothing(h);
    NullTyped(o, THash(key, value));
    hide Owns, ConvEntries, Clean, Blocks, Typed;
    if o != PyNone && Conv(o, THash(key, value), h).0.Good? {
      var r := ConvEntries(o.keys, o.values, key, value, |o.keys|, Alloc(h));
      OwnsAlloc(h);
      OwnsGrown(Alloc(h), r.heap, EntryBlocks(r.entries, |r.entries|),
                EntriesClean(o.keys, o.values, key, value, |o.keys|));
      EntriesCleanIs(o, key, value);
      OwnsJoin(h, Alloc(h), r.heap, multiset{h.next}, true, EntryBlocks(r.entries, |r.entries|),
               EntriesClean(o.keys, o.values, key, value, |o.keys|));
      HshTyped(h.next, r.entries, key, value);
    }
  }

  lemma EntriesCleanIs(o: Py, key: Ty, value: Ty)
    requires o.PyDict? && |o.keys| == |o.values|
    ensures Clean(o, THash(key, value)) <==> EntriesClean(o.keys, o.values, key, value, |o.keys|)
  {
  }

  lemma HshTyped(b: nat, entries: seq<Entry>, key: Ty, value: Ty)
    requires forall e :: e in entries ==> Typed(e.key, key) && Typed(e.value, value)
    ensures Typed(Hsh(b, entries), THash(key, value))
    ensures Blocks(Hsh(b, entries)) == multiset{b} + EntryBlocks(entries, |entries|)
  {
  }

  ghost predicate ItemsClean(items: seq<Py>, ty: Ty, n: nat)
    requires n <= |items|
  {
    forall i :: 0 <= i < n ==> Clean(items[i], ty)
  }

  lemma {:induction false} ItemsOwn(items: seq<Py>, ty: Ty, n: nat, h: Heap)
    requires n <= |items|
    ensures ConvItems(items, ty, n, h).outcome.Good? ==> ItemsOwnAt(items, ty, n, h, ConvItems(items, ty, n, h))
    decreases ty, 2, n
  {
    hide *;
    if n == 0 {
      ItemsStart(items, ty, h);
    } else if ConvItems(items, ty, n, h).outcome.Good? {
      ItemsResult(items, ty, n, h);
      var p := ConvItems(items, ty, n - 1, h);
      var (g, h1) := Conv(items[n - 1], ty, p.heap);
      ItemsOwn(items, ty, n - 1, h);
      ConvOwns(items[n - 1], ty, p.heap);
      ItemOwned(items[n - 1], ty, p.heap, g.value, h1);
      ItemsOwnStep(items, ty, n, h, p, g.value, ConvItems(items, ty, n, h));
    }
  }

  lemma ItemsStart(items: seq<Py>, ty: Ty, h: Heap)
    ensures ItemsOwnAt(items, ty, 0, h, ConvItems(items, ty, 0, h))
  {
    hide Owns, Clean, Typed, Blocks;
    OwnsNothing(h);
  }

  lemma ItemsResult(items: seq<Py>, ty: Ty, n: nat, h: Heap)
    requires 0 < n <= |items| && ConvItems(items, ty, n, h).outcome.Good?
    ensures var p := ConvItems(items, ty, n - 1, h);
            var (g, h1) := Conv(items[n - 1], ty, p.heap);
            var r := ConvItems(items, ty, n, h);
            p.outcome.Good? && g.Good? && r.done == p.done + [g.value] && r.heap == h1
  {
    hide Conv;
  }

  lemma ItemsOwnStep(items: seq<Py>, ty: Ty, n: nat, h: Heap, p: ItemsRun, v: CArg, r: ItemsRun)
    requires 0 < n <= |items| && ItemsOwnAt(items, ty, n - 1, h, p) && r.done == p.done + [v]
    requires Typed(v, ty) && Owns(p.heap, r.heap, Blocks(v), Clean(items[n - 1], ty))
    ensures ItemsOwnAt(items, ty, n, h, r)
  {
    hide Owns, Clean, Blocks, Typed, ItemBlocks, ItemsClean;
    OwnsJoin(h, p.heap, r.heap, ItemBlocks(p.done, n - 1), ItemsClean(items, ty, n - 1), Blocks(v),
             Clean(items[n - 1], ty));
    ItemBlocksPlus(p.done, v);
    ItemsCleanStep(items, ty, n);
  }

  ghost predicate CellsClean(items: seq<Py>, ty: Ty, from: nat) {
    forall i :: from <= i < |items| ==> Clean(items[i], ty)
  }

  ghost predicate CellsOwnAt(items: seq<Py>, ty: Ty, from: nat, h: Heap, r: CellsRun) {
    && from <= |items| && |r.cells| == |items| - from && (forall c :: c in r.cells ==> Typed(c.item, ty))
    && Owns(h, r.heap, CellBlocks(r.cells, |r.cells|) + CellItemBlocks(r.cells, |r.cells|), CellsClean(items, ty, from))
    && (from < |items| ==> h.next <= r.cells[0].block < r.heap.next)
  }

  lemma {:induction false} CellsOwn(items: seq<Py>, ty: Ty, from: nat, h: Heap)
    requires from <= |items|
    ensures ConvCells(items, ty, from, h).outcome.Good? ==>
              CellsOwnAt(items, ty, from, h, ConvCells(items, ty, from, h))
    decreases ty, 2, |items| - from
  {
    hide *;
    if from == |items| {
      CellsStart(items, ty, h);
    } else if ConvCells(items, ty, from, h).outcome.Good? {
      CellsResult(items, ty, from, h);
      var p := ConvCells(items, ty, from + 1, h);
      var (g, h1) := Conv(items[from], ty, p.heap);
      CellsOwn(items, ty, from + 1, h);
      ConvOwns(items[from], ty, p.heap);
      ItemOwned(items[from], ty, p.heap, g.value, h1);
      CellsOwnStep(items, ty, from, h, p, g.value, h1, ConvCells(items, ty, from, h));
    }
  }

  lemma CellsStart(items: seq<Py>, ty: Ty, h: Heap)
    ensures CellsOwnAt(items, ty, |items|, h, ConvCells(items, ty, |items|, h))
  {
    hide Owns, Clean, Typed, Blocks;
    OwnsNothing(h);
    assert CellBlocks([], 0) + CellItemBlocks([], 0) == multiset{};
  }

  lemma CellsResult(items: seq<Py>, ty: Ty, from: nat, h: Heap)
    requires from < |items| && ConvCells(items, ty, from, h).outcome.Good?
    ensures var p := ConvCells(items, ty, from + 1, h);
            var (g, h1) := Conv(items[from], ty, p.heap);
            var r := ConvCells(items, ty, from, h);
            p.outcome.Good? && g.Good? && r.cells == [Cell(h1.next, g.value)] + p.cells && r.heap == Alloc(h1)
  {
    hide Conv;
  }

  lemma ItemOwned(o: Py, ty: Ty, h: Heap, v: CArg, h': Heap)
    requires ConvOwnsAt(o, ty, h, v, h')
    ensures Typed(v, ty) && Owns(h, h', Blocks(v), Clean(o, ty))
  {
    hide Owns, Typed, Blocks, Clean, HasBlock, KeyOf;
  }

  lemma CellsOwnStep(items: seq<Py>, ty: Ty, from: nat, h: Heap, p: CellsRun, v: CArg, h1: Heap, r: CellsRun)
    requires from < |items| && CellsOwnAt(items, ty, from + 1, h, p)
    requires r.cells == [Cell(h1.next, v)] + p.cells && r.heap == Alloc(h1)
    requires Typed(v, ty) && Owns(p.heap, h1, Blocks(v), Clean(items[from], ty))
    ensures CellsOwnAt(items, ty, from, h, r)
  {
    hide Owns, Clean, Blocks, Typed, CellsClean, CellBlocks, CellItemBlocks;
    OwnsGrown(p.heap, h1, Blocks(v), Clean(items[from], ty));
    OwnsGrown(h, p.heap, CellBlocks(p.cells, |p.cells|) + CellItemBlocks(p.cells, |p.cells|),
              CellsClean(items, ty, from + 1));
    CellsOwnBlocks(items, ty, from, h, p, v, h1, r);
    forall x | x in r.cells ensures Typed(x.item, ty) {
      assert x == Cell(h1.next, v) || x in p.cells;
    }
  }

  lemma CellsOwnBlocks(items: seq<Py>, ty: Ty, from: nat, h: Heap, p: CellsRun, v: CArg, h1: Heap, r: CellsRun)
    requires from < |items| && CellsOwnAt(items, ty, from + 1, h, p)
    requires r.cells == [Cell(h1.next, v)] + p.cells && r.heap == Alloc(h1)
    requires Owns(p.heap, h1, Blocks(v), Clean(items[from], ty))
    ensures Owns(h, r.heap, CellBlocks(r.cells, |r.cells|) + CellItemBlocks(r.cells, |r.cells|),
                 CellsClean(items, ty, from))
  {
    hide Owns, Clean, Blocks, Typed;
    var n, c := |p.cells|, Cell(h1.next, v);
    var cb, ib := CellBlocks(p.cells, n), CellItemBlocks(p.cells, n);
    OwnsAlloc(h1);
    CellsPrepend(c, p.cells, n);
    CellItemsPrepend(c, p.cells, n);
    CellsCleanStep(items, ty, from);
    hide Alloc, CellsClean, CellBlocks, CellItemBlocks;
    OwnsJoin(h, p.heap, h1, cb + ib, CellsClean(items, ty, from + 1), Blocks(v), Clean(items[from], ty));
    OwnsJoin(h, h1, r.heap, cb + ib + Blocks(v), CellsClean(items, ty, from + 1) && Clean(items[from], ty),
             multiset{h1.next}, true);
    assert (multiset{h1.next} + cb) + (Blocks(v) + ib) == cb + ib + Blocks(v) + multiset{h1.next};
  }

  lemma CellsCleanStep(items: seq<Py>, ty: Ty, from: nat)
    requires from < |items|
    ensures CellsClean(items, ty, from) <==> CellsClean(items, ty, from + 1) && Clean(items[from], ty)
  {
    hide Clean;
  }

  ghost predicate EntriesClean(keys: seq<Py>, values: seq<Py>, key: Ty, value: Ty, n: nat)
    requires n <= |keys| == |values|
  {
    ItemsClean(keys, key, n) && ItemsClean(values, value, n) && NothingDisplaced(keys, values, key, value, n)
  }

  ghost predicate EntriesOwnAt(keys: seq<Py>, values: seq<Py>, key: Ty, value: Ty, n: nat, h: Heap, r: EntriesRun)
    requires n <= |keys| == |values|
  {
    && (forall e :: e in r.entries ==> Typed(e.key, key) && Typed(e.value, value))
    && Owns(h, r.heap, EntryBlocks(r.entries, |r.entries|), EntriesClean(keys, values, key, value, n))
  }

  /** The last key below `n` with image `m`. */
  ghost function LastOf(keys: seq<Py>, key: Ty, n: nat, m: KeyImage): (r: Option<nat>)
    requires n <= |keys|
    ensures r.Some? ==> r.value < n && KeyOf(keys[r.value], key) == Some(m)
                        && forall i :: r.value < i < n ==> KeyOf(keys[i], key) != Some(m)
    ensures r.None? ==> forall i :: 0 <= i < n ==> KeyOf(keys[i], key) != Some(m)
  {
    if n == 0 then None
    else if KeyOf(keys[n - 1], key) == Some(m) then Some(n - 1)
    else LastOf(keys, key, n - 1, m)
  }

  /** For image `m`, the table holds an entry exactly when some key has it, with the last such key's value. */
  ghost predicate LinkedAt(keys: seq<Py>, values: seq<Py>, key: Ty, value: Ty, n: nat, entries: seq<Entry>, m: KeyImage)
    requires n <= |keys| == |values|
  {
    var f, l := Find(entries, m), LastOf(keys, key, n, m);
    && (f.Some? <==> l.Some?)
    && (f.Some? ==> (HasBlock(values[l.value], value) <==> Blocks(entries[f.value].value) != multiset{}))
  }

  ghost predicate Linked(keys: seq<Py>, values: seq<Py>, key: Ty, value: Ty, n: nat, entries: seq<Entry>, next: nat)
    requires n <= |keys| == |values|
  {
    && (forall m: KeyImage :: !m.Pointer? ==> LinkedAt(keys, values, key, value, n, entries, m))
    && (forall i :: 0 <= i < |entries| && ImageOf(entries[i].key).Pointer? ==> ImageOf(entries[i].key).block < next)
  }

  lemma FindIs(entries: seq<Entry>, m: KeyImage, r: Option<nat>)
    requires match r
             case None => forall i :: 0 <= i < |entries| ==> ImageOf(entries[i].key) != m
             case Some(x) => x < |entries| && ImageOf(entries[x].key) == m
                             && forall i :: 0 <= i < x ==> ImageOf(entries[i].key) != m
    ensures Find(entries, m) == r
  {
    hide ImageOf;
  }

  lemma FindAppend(entries: seq<Entry>, e: Entry, m: KeyImage)
    requires Find(entries, ImageOf(e.key)).None?
    ensures Find(entries + [e], m) == if ImageOf(e.key) == m then Some(|entries|) else Find(entries, m)
  {
    hide ImageOf;
    var all := entries + [e];
    assert forall i :: 0 <= i < |entries| ==> all[i] == entries[i];
    FindIs(all, m, if ImageOf(e.key) == m then Some(|entries|) else Find(entries, m));
  }

  lemma FindUpdate(entries: seq<Entry>, i: nat, v: CArg, m: KeyImage)
    requires i < |entries|
    ensures Find(entries[i := Entry(entries[i].key, v)], m) == Find(entries, m)
  {
    hide ImageOf;
    FindIs(entries[i := Entry(entries[i].key, v)], m, Find(entries, m));
  }

  lemma LinkedStepAt(keys: seq<Py>, values: seq<Py>, key: Ty, value: Ty, n: nat, entries: seq<Entry>, k: CArg, v: CArg,
                     m: KeyImage)
    requires 0 < n <= |keys| == |values| && LinkedAt(keys, values, key, value, n - 1, entries, m)
    requires HasBlock(values[n - 1], value) <==> Blocks(v) != multiset{}
    requires KeyOf(keys[n - 1], key) == Some(m) <==> ImageOf(k) == m
    ensures LinkedAt(keys, values, key, value, n, Insert(entries, k, v), m)
  {
    hide Blocks, HasBlock, KeyOf, ImageOf;
    match Find(entries, ImageOf(k))
    case None => FindAppend(entries, Entry(k, v), m);
    case Some(i) => FindUpdate(entries, i, v, m);
  }

  /** Inserting the pair at `n - 1` keeps the table linked to the keys. */
  lemma LinkedStep(keys: seq<Py>, values: seq<Py>, key: Ty, value: Ty, n: nat, entries: seq<Entry>, k: CArg, v: CArg,
                   next: nat, next': nat)
    requires 0 < n <= |keys| == |values| && next <= next'
    requires Linked(keys, values, key, value, n - 1, entries, next)
    requires HasBlock(values[n - 1], value) <==> Blocks(v) != multiset{}
    requires KeyImageAt(keys[n - 1], key, k, next, next')
    ensures Linked(keys, values, key, value, n, Insert(entries, k, v), next')
  {
    hide Blocks, HasBlock, KeyOf, ImageOf;
    var all := Insert(entries, k, v);
    forall m: KeyImage | !m.Pointer? ensures LinkedAt(keys, values, key, value, n, all, m) {
      assert LinkedAt(keys, values, key, value, n - 1, entries, m);
      LinkedStepAt(keys, values, key, value, n, entries, k, v, m);
    }
    assert forall i :: 0 <= i < |entries| ==> all[i].key == entries[i].key;
  }

  ghost predicate KeyImageAt(o: Py, key: Ty, k: CArg, next: nat, next': nat) {
    match KeyOf(o, key)
    case Some(image) => ImageOf(k) == image && !image.Pointer?
    case None => ImageOf(k).Pointer? && next <= ImageOf(k).block < next'
  }

  lemma OwnsDisplace(h: Heap, p: Heap, h1: Heap, h2: Heap, b: multiset<nat>, w: bool, bk: multiset<nat>, wk: bool,
                     bv: multiset<nat>, wv: bool, lost: multiset<nat>)
    requires Owns(h, p, b, w) && Owns(p, h1, bk, wk) && Owns(h1, h2, bv, wv) && lost <= b
    ensures Owns(h, h2, b - lost + bv, w && wv && p.next == h1.next && lost == multiset{})
  {
    GrownTrans(h, p, h1);
    GrownTrans(h, h1, h2);
    var f0, fk, fv := Fresh(h.next, p.next), Fresh(p.next, h1.next), Fresh(h1.next, h2.next);
    FreshOne(p.next);
    assert p.next < h1.next ==> p.next in fk;
    if b - lost + bv == f0 + fk + fv {
      forall x ensures b[x] == f0[x] && fk[x] == 0 && bv[x] == fv[x] && lost[x] == 0 {
        assert (b - lost + bv)[x] == (f0 + fk + fv)[x];
      }
    }
  }

  lemma {:induction false} EntryIn(entries: seq<Entry>, i: nat, n: nat)
    requires i < n <= |entries|
    ensures EntryItems(entries[i]) <= EntryBlocks(entries, n)
  {
    if i < n - 1 {
      EntryIn(entries, i, n - 1);
    }
  }

  /** The blocks of the table after the pair (k, v) went in. */
  lemma InsertBlocks(entries: seq<Entry>, k: CArg, v: CArg)
    ensures var all := Insert(entries, k, v);
            match Find(entries, ImageOf(k))
            case None => EntryBlocks(all, |all|) == EntryBlocks(entries, |entries|) + Blocks(k) + Blocks(v)
            case Some(i) =>
              var lost := Blocks(entries[i].value);
              lost <= EntryBlocks(entries, |entries|)
              && EntryBlocks(all, |all|) == EntryBlocks(entries, |entries|) - lost + Blocks(v)
  {
    hide Blocks;
    var all := Insert(entries, k, v);
    match Find(entries, ImageOf(k))
    case None =>
      EntriesAppend(entries, Entry(k, v), |entries|);
      Swap(EntryBlocks(entries, |entries|), Blocks(k), Blocks(v));
    case Some(i) =>
      var lost := Blocks(entries[i].value);
      EntriesUpdate(entries, i, Entry(entries[i].key, v), |entries|);
      EntryIn(entries, i, |entries|);
      var a, b, c := EntryBlocks(all, |all|), EntryBlocks(entries, |entries|), Blocks(entries[i].key);
      assert a + (c + lost) == b + (c + Blocks(v));
      forall x ensures a[x] == (b - lost + Blocks(v))[x] {
        assert (a + (c + lost))[x] == (b + (c + Blocks(v)))[x];
      }
  }

  lemma NoBlockClean(o: Py, ty: Ty)
    ensures !HasBlock(o, ty) ==> Clean(o, ty)
  {
  }

  /** Whether the pair at `n - 1` displaces something depends only on the last key it clashes with. */
  lemma EntriesCleanStep(keys: seq<Py>, values: seq<Py>, key: Ty, value: Ty, n: nat)
    requires 0 < n <= |keys| == |values|
    ensures var image := KeyOf(keys[n - 1], key);
            var l := if image.Some? then LastOf(keys, key, n - 1, image.value) else None;
            EntriesClean(keys, values, key, value, n) <==>
              && EntriesClean(keys, values, key, value, n - 1) && Clean(keys[n - 1], key) && Clean(values[n - 1], value)
              && (l.Some? ==> !HasBlock(keys[n - 1], key) && !HasBlock(values[l.value], value))
  {
    hide Clean, HasBlock, KeyOf, NothingDisplaced;
    DisplacedStep(keys, values, key, value, n);
    ItemsCleanStep(keys, key, n);
    ItemsCleanStep(values, value, n);
    hide ItemsClean;
  }

  lemma ItemsCleanStep(items: seq<Py>, ty: Ty, n: nat)
    requires 0 < n <= |items|
    ensures ItemsClean(items, ty, n) <==> ItemsClean(items, ty, n - 1) && Clean(items[n - 1], ty)
  {
    hide Clean;
  }

  lemma DisplacedStep(keys: seq<Py>, values: seq<Py>, key: Ty, value: Ty, n: nat)
    requires 0 < n <= |keys| == |values|
    ensures var image := KeyOf(keys[n - 1], key);
            var l := if image.Some? then LastOf(keys, key, n - 1, image.value) else None;
            NothingDisplaced(keys, values, key, value, n) <==>
              && NothingDisplaced(keys, values, key, value, n - 1)
              && (l.Some? ==> !HasBlock(keys[n - 1], key) && !HasBlock(values[l.value], value))
  {
    hide HasBlock, KeyOf, NothingDisplaced;
    var image := KeyOf(keys[n - 1], key);
    var l := if image.Some? then LastOf(keys, key, n - 1, image.value) else None;
    if NothingDisplaced(keys, values, key, value, n) {
      DisplacedBefore(keys, values, key, value, n);
      if l.Some? {
        DisplacedAt(keys, values, key, value, n, l.value, n - 1);
      }
    } else if NothingDisplaced(keys, values, key, value, n - 1)
              && (l.Some? ==> !HasBlock(keys[n - 1], key) && !HasBlock(values[l.value], value)) {
      forall i | 0 <= i < n - 1 && Clash(key, keys[i], keys[n - 1])
        ensures !HasBlock(keys[n - 1], key) && !HasBlock(values[i], value)
      {
        if i < l.value {
          DisplacedAt(keys, values, key, value, n - 1, i, l.value);
        }
      }
      DisplacedLast(keys, values, key, value, n);
    }
  }

  lemma DisplacedBefore(keys: seq<Py>, values: seq<Py>, key: Ty, value: Ty, n: nat)
    requires 0 < n <= |keys| == |values| && NothingDisplaced(keys, values, key, value, n)
    ensures NothingDisplaced(keys, values, key, value, n - 1)
  {
    hide HasBlock, Clash;
  }

  lemma DisplacedAt(keys: seq<Py>, values: seq<Py>, key: Ty, value: Ty, n: nat, i: nat, j: nat)
    requires i < j < n <= |keys| == |values| && NothingDisplaced(keys, values, key, value, n)
    requires KeyOf(keys[i], key).Some? && KeyOf(keys[i], key) == KeyOf(keys[j], key)
    ensures !HasBlock(keys[j], key) && !HasBlock(values[i], value)
  {
    hide HasBlock, KeyOf;
    assert Clash(key, keys[i], keys[j]);
  }

  lemma DisplacedLast(keys: seq<Py>, values: seq<Py>, key: Ty, value: Ty, n: nat)
    requires 0 < n <= |keys| == |values| && NothingDisplaced(keys, values, key, value, n - 1)
    requires forall i :: 0 <= i < n - 1 && Clash(key, keys[i], keys[n - 1]) ==>
               !HasBlock(keys[n - 1], key) && !HasBlock(values[i], value)
    ensures NothingDisplaced(keys, values, key, value, n)
  {
    hide HasBlock, Clash;
  }

  /** The state of a table under construction: what it owns, and how its entries relate to the keys so far. */
  ghost predicate TableAt(keys: seq<Py>, values: seq<Py>, key: Ty, value: Ty, n: nat, h: Heap, r: EntriesRun)
    requires n <= |keys| == |values|
  {
    EntriesOwnAt(keys, values, key, value, n, h, r) && Linked(keys, values, key, value, n, r.entries, r.heap.next)
  }

  lemma {:induction false} EntriesOwn(keys: seq<Py>, values: seq<Py>, key: Ty, value: Ty, n: nat, h: Heap)
    requires n <= |keys| == |values|
    ensures var r := ConvEntries(keys, values, key, value, n, h);
            r.outcome.Good? ==> TableAt(keys, values, key, value, n, h, r)
    decreases THash(key, value), 0, n
  {
    hide *;
    if n == 0 {
      EntriesBase(keys, values, key, value, h);
    } else if ConvEntries(keys, values, key, value, n, h).outcome.Good? {
      EntriesResult(keys, values, key, value, n, h);
      var p := ConvEntries(keys, values, key, value, n - 1, h);
      var (k, h1) := Conv(keys[n - 1], key, p.heap);
      var (v, h2) := Conv(values[n - 1], value, h1);
      EntriesOwn(keys, values, key, value, n - 1, h);
      ConvOwns(keys[n - 1], key, p.heap);
      ConvOwns(values[n - 1], value, h1);
      ValueOwned(values[n - 1], value, h1, v.value, h2);
      TableStep(keys, values, key, value, n, h, p, k.value, h1, Pack(value, v.value),
                ConvEntries(keys, values, key, value, n, h));
    }
  }

  lemma EntriesBase(keys: seq<Py>, values: seq<Py>, key: Ty, value: Ty, h: Heap)
    requires |keys| == |values|
    ensures TableAt(keys, values, key, value, 0, h, ConvEntries(keys, values, key, value, 0, h))
  {
    hide *;
    OwnsNothing(h);
    EntriesStart(keys, values, key, value, h);
    LinkedStart(keys, values, key, value, h.next);
    TableStart(keys, values, key, value, h);
  }

  lemma EntriesStart(keys: seq<Py>, values: seq<Py>, key: Ty, value: Ty, h: Heap)
    requires |keys| == |values|
    ensures ConvEntries(keys, values, key, value, 0, h) == EntriesRun(Good(()), [], h)
    ensures EntriesClean(keys, values, key, value, 0) && EntryBlocks([], 0) == multiset{}
  {
    hide Clean, Clash, HasBlock;
  }

  lemma LinkedStart(keys: seq<Py>, values: seq<Py>, key: Ty, value: Ty, next: nat)
    requires |keys| == |values|
    ensures Linked(keys, values, key, value, 0, [], next)
  {
    hide Blocks, HasBlock, KeyOf, ImageOf;
    forall m: KeyImage ensures LinkedAt(keys, values, key, value, 0, [], m) {}
  }

  lemma TableStart(keys: seq<Py>, values: seq<Py>, key: Ty, value: Ty, h: Heap)
    requires |keys| == |values| && EntriesClean(keys, values, key, value, 0)
    requires Linked(keys, values, key, value, 0, [], h.next)
    requires Owns(h, h, EntryBlocks([], 0), true)
    ensures TableAt(keys, values, key, value, 0, h, EntriesRun(Good(()), [], h))
  {
    hide EntriesClean, Linked, Owns, Typed, EntryBlocks;
  }

  lemma ValueOwned(o: Py, value: Ty, h1: Heap, v: CArg, h2: Heap)
    requires ConvOwnsAt(o, value, h1, v, h2)
    ensures var w := Pack(value, v);
            Typed(w, value) && Owns(h1, h2, Blocks(w), Clean(o, value))
            && (HasBlock(o, value) <==> Blocks(w) != multiset{})
  {
    PackKeepsBlocks(value, v);
    hide Pack, Owns, Typed, Blocks, Clean, HasBlock, KeyOf;
  }

  lemma EntriesResult(keys: seq<Py>, values: seq<Py>, key: Ty, value: Ty, n: nat, h: Heap)
    requires 0 < n <= |keys| == |values| && ConvEntries(keys, values, key, value, n, h).outcome.Good?
    ensures var p := ConvEntries(keys, values, key, value, n - 1, h);
            var (k, h1) := Conv(keys[n - 1], key, p.heap);
            var (v, h2) := Conv(values[n - 1], value, h1);
            && p.outcome.Good? && k.Good? && v.Good? && !(key.TStr? && k.value == Null)
            && ConvEntries(keys, values, key, value, n, h)
               == EntriesRun(Good(()), Insert(p.entries, k.value, Pack(value, v.value)), h2)
  {
    hide Conv, Pack, Insert;
  }

  lemma TableStep(keys: seq<Py>, values: seq<Py>, key: Ty, value: Ty, n: nat, h: Heap, p: EntriesRun,
                  k: CArg, h1: Heap, v: CArg, r: EntriesRun)
    requires 0 < n <= |keys| == |values| && TableAt(keys, values, key, value, n - 1, h, p)
    requires ConvOwnsAt(keys[n - 1], key, p.heap, k, h1) && !(key.TStr? && k == Null)
    requires Typed(v, value) && Owns(h1, r.heap, Blocks(v), Clean(values[n - 1], value))
    requires HasBlock(values[n - 1], value) <==> Blocks(v) != multiset{}
    requires r.entries == Insert(p.entries, k, v)
    ensures TableAt(keys, values, key, value, n, h, r)
  {
    hide Owns, Blocks, Typed, Clean, HasBlock, KeyOf, ImageOf, Insert, Linked, KeyImageAt, EntryBlocks, EntriesClean;
    KeyImageHolds(keys[n - 1], key, p.heap, k, h1);
    OwnsGrown(p.heap, h1, Blocks(k), Clean(keys[n - 1], key));
    OwnsGrown(h1, r.heap, Blocks(v), Clean(values[n - 1], value));
    LinkedStep(keys, values, key, value, n, p.entries, k, v, p.heap.next, h1.next);
    LinkedWeaken(keys, values, key, value, n, r.entries, h1.next, r.heap.next);
    TableOwns(keys, values, key, value, n, h, p, k, h1, v, r);
    InsertTyped(p.entries, k, v, key, value);
  }

  lemma LinkedWeaken(keys: seq<Py>, values: seq<Py>, key: Ty, value: Ty, n: nat, entries: seq<Entry>, next: nat,
                     next': nat)
    requires n <= |keys| == |values| && next <= next' && Linked(keys, values, key, value, n, entries, next)
    ensures Linked(keys, values, key, value, n, entries, next')
  {
    hide LinkedAt, ImageOf;
  }

  lemma KeyImageHolds(o: Py, key: Ty, p: Heap, k: CArg, h1: Heap)
    requires ConvOwnsAt(o, key, p, k, h1) && !(key.TStr? && k == Null)
    ensures KeyImageAt(o, key, k, p.next, h1.next)
  {
    hide Owns, Blocks, Typed, Clean, ImageOf;
  }

  lemma InsertTyped(entries: seq<Entry>, k: CArg, v: CArg, key: Ty, value: Ty)
    requires forall e :: e in entries ==> Typed(e.key, key) && Typed(e.value, value)
    requires Typed(k, key) && Typed(v, value)
    ensures forall e :: e in Insert(entries, k, v) ==> Typed(e.key, key) && Typed(e.value, value)
  {
    hide Typed, ImageOf;
    var all := Insert(entries, k, v);
    forall e | e in all ensures Typed(e.key, key) && Typed(e.value, value) {
      var i :| 0 <= i < |all| && all[i] == e;
      assert i < |entries| ==> entries[i] in entries;
    }
  }

  lemma TableOwns(keys: seq<Py>, values: seq<Py>, key: Ty, value: Ty, n: nat, h: Heap, p: EntriesRun,
                  k: CArg, h1: Heap, v: CArg, r: EntriesRun)
    requires 0 < n <= |keys| == |values| && TableAt(keys, values, key, value, n - 1, h, p)
    requires ConvOwnsAt(keys[n - 1], key, p.heap, k, h1) && !(key.TStr? && k == Null)
    requires Owns(h1, r.heap, Blocks(v), Clean(values[n - 1], value))
    requires r.entries == Insert(p.entries, k, v)
    ensures Owns(h, r.heap, EntryBlocks(r.entries, |r.entries|), EntriesClean(keys, values, key, value, n))
  {
    hide Owns, Blocks, Typed, Clean, KeyOf, ImageOf, Insert, Linked, EntriesClean, EntryBlocks, KeyImageAt;
    KeyImageHolds(keys[n - 1], key, p.heap, k, h1);
    var ck, cv := Clean(keys[n - 1], key), Clean(values[n - 1], value);
    var b, w := EntryBlocks(p.entries, |p.entries|), EntriesClean(keys, values, key, value, n - 1);
    InsertBlocks(p.entries, k, v);
    EntriesCleanStep(keys, values, key, value, n);
    NoBlockClean(keys[n - 1], key);
    match Find(p.entries, ImageOf(k))
    case None =>
      NoClash(keys, values, key, value, n, p, k, h1.next);
      hide HasBlock;
      OwnsJoin(h, p.heap, h1, b, w, Blocks(k), ck);
      OwnsJoin(h, h1, r.heap, b + Blocks(k), w && ck, Blocks(v), cv);
    case Some(i) =>
      var lost := Blocks(p.entries[i].value);
      OldClash(keys, values, key, value, n, p, k, h1.next, i);
      OwnsGrown(p.heap, h1, Blocks(k), ck);
      hide HasBlock;
      OwnsDisplace(h, p.heap, h1, r.heap, b, w, Blocks(k), ck, Blocks(v), cv, lost);
  }

  lemma NoClash(keys: seq<Py>, values: seq<Py>, key: Ty, value: Ty, n: nat, p: EntriesRun, k: CArg, next': nat)
    requires 0 < n <= |keys| == |values| && Linked(keys, values, key, value, n - 1, p.entries, p.heap.next)
    requires KeyImageAt(keys[n - 1], key, k, p.heap.next, next') && Find(p.entries, ImageOf(k)).None?
    ensures KeyOf(keys[n - 1], key).Some? ==> LastOf(keys, key, n - 1, KeyOf(keys[n - 1], key).value).None?
  {
    if KeyOf(keys[n - 1], key).Some? {
      assert LinkedAt(keys, values, key, value, n - 1, p.entries, ImageOf(k));
    }
  }

  lemma OldClash(keys: seq<Py>, values: seq<Py>, key: Ty, value: Ty, n: nat, p: EntriesRun, k: CArg, next': nat, i: nat)
    requires 0 < n <= |keys| == |values| && Linked(keys, values, key, value, n - 1, p.entries, p.heap.next)
    requires KeyImageAt(keys[n - 1], key, k, p.heap.next, next') && Find(p.entries, ImageOf(k)) == Some(i)
    ensures KeyOf(keys[n - 1], key).Some?
    ensures var l := LastOf(keys, key, n - 1, KeyOf(keys[n - 1], key).value);
            l.Some? && (HasBlock(values[l.value], value) <==> Blocks(p.entries[i].value) != multiset{})
  {
    hide Blocks, HasBlock;
    if KeyOf(keys[n - 1], key).Some? {
      assert LinkedAt(keys, values, key, value, n - 1, p.entries, ImageOf(k));
    }
  }
}
