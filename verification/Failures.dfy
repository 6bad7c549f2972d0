/** Conversions that do not succeed: for which objects, and what they leave on the heap. */
module Failures {
  import opened Prelude
  import opened CInts
  import opened Argument
  import opened Ownership
  import opened OwnershipResults

  // ---------------------------------------------------------------- which objects fail, and how

  /** A long holds the number, or an unsigned long long if the type is unsigned, whatever its own width. */
  predicate InLong(tag: IntTag, n: int) {
    if tag in {Int8, Int16, Int32, Int64} then -0x8000_0000_0000_0000 <= n < 0x8000_0000_0000_0000
    else 0 <= n < 0x1_0000_0000_0000_0000
  }

  /** The conversion of `o` succeeds. */
  ghost predicate Accepts(o: Py, ty: Ty)
    decreases ty
  {
    match ty
    case TBool => true
    case TInt(tag) => o.PyBool? || (o.PyInt? && InLong(tag, o.n))
    case TStr => o == PyNone || o.PyStr?
    case TArray(item) =>
      || o == PyNone
      || ((o.PyList? || o.PyBytes?) && forall x :: x in Items(o, false).value ==> Accepts(x, item))
    case TList(item) =>
      || o == PyNone
      || ((o.PyList? || o.PyBytes? || o.PyStr?) && forall x :: x in Items(o, true).value ==> Accepts(x, item))
    case THash(key, value) =>
      || o == PyNone
      || (&& o.PyDict? && |o.keys| == |o.values| && (forall x :: x in o.keys ==> Accepts(x, key))
          && (forall x :: x in o.values ==> Accepts(x, value)) && (key.TStr? ==> PyNone !in o.keys))
  }

  ghost predicate AcceptsPair(k: Py, v: Py, key: Ty, value: Ty) {
    Accepts(k, key) && Accepts(v, value) && !(key.TStr? && k == PyNone)
  }

  /** Arrays and tables are converted from the front, lists from the back: this is where they stop. */
  ghost predicate FirstRefused(items: seq<Py>, ty: Ty, k: nat) {
    k < |items| && !Accepts(items[k], ty) && forall i :: 0 <= i < k ==> Accepts(items[i], ty)
  }

  ghost predicate LastRefused(items: seq<Py>, ty: Ty, k: nat) {
    k < |items| && !Accepts(items[k], ty) && forall i :: k < i < |items| ==> Accepts(items[i], ty)
  }

  ghost predicate FirstRefusedPair(keys: seq<Py>, values: seq<Py>, key: Ty, value: Ty, k: nat) {
    && k < |keys| == |values| && !AcceptsPair(keys[k], values[k], key, value)
    && forall i :: 0 <= i < k ==> AcceptsPair(keys[i], values[i], key, value)
  }

  /** The key converts to a pointer that is not null. */
  predicate PointerKey(o: Py, ty: Ty) {
    match KeyOf(o, ty)
    case Some(NullPointer) => false
    case Some(CellValue(cell)) => cell != 0
    case _ => true
  }

  /** The conversion of `o` follows a pointer of the wrong type or a null string: at the place where a table inside `o`
      stops, the value is refused after a key that is a pointer, or the key is a null string. */
  ghost predicate Wild(o: Py, ty: Ty)
    decreases ty
  {
    match ty
    case TArray(item) =>
      Items(o, false).Some? && var items := Items(o, false).value;
      exists k: nat :: FirstRefused(items, item, k) && Wild(items[k], item)
    case TList(item) =>
      Items(o, true).Some? && var items := Items(o, true).value;
      exists k: nat :: LastRefused(items, item, k) && Wild(items[k], item)
    case THash(key, value) =>
      o.PyDict? && exists k: nat ::
        && FirstRefusedPair(o.keys, o.values, key, value, k)
        && (Wild(o.keys[k], key)
            || (Accepts(o.keys[k], key)
                && (Wild(o.values[k], value) || Accepts(o.values[k], value) || PointerKey(o.keys[k], key))))
    case _ => false
  }

  ghost predicate WildPair(k: Py, v: Py, key: Ty, value: Ty) {
    || Wild(k, key)
    || (Accepts(k, key) && !AcceptsPair(k, v, key, value)
        && (Wild(v, value) || Accepts(v, value) || PointerKey(k, key)))
  }

  /** No table displaced a key or a value owning a block before the conversion failed. */
  ghost predicate LosesNothing(o: Py, ty: Ty)
    decreases ty
  {
    match ty
    case TArray(item) =>
      Items(o, false).Some? ==> var items := Items(o, false).value;
      forall k: nat :: FirstRefused(items, item, k) ==> ItemsClean(items, item, k) && LosesNothing(items[k], item)
    case TList(item) =>
      Items(o, true).Some? ==> var items := Items(o, true).value;
      forall k: nat :: LastRefused(items, item, k) ==> CellsClean(items, item, k + 1) && LosesNothing(items[k], item)
    case THash(key, value) =>
      o.PyDict? ==> forall k: nat ::
        FirstRefusedPair(o.keys, o.values, key, value, k) ==>
          && EntriesClean(o.keys, o.values, key, value, k)
          && (if Accepts(o.keys[k], key) then LosesNothing(o.values[k], value) else LosesNothing(o.keys[k], key))
    case _ => true
  }

  ghost predicate PairLosesNothing(k: Py, v: Py, key: Ty, value: Ty) {
    if Accepts(k, key) then LosesNothing(v, value) else LosesNothing(k, key)
  }

  /** What becomes of a conversion depends on the object and its type alone. */
  lemma {:induction false} OutcomeIff(o: Py, ty: Ty, h: Heap)
    ensures Conv(o, ty, h).0.Good? <==> Accepts(o, ty)
    ensures Conv(o, ty, h).0.Undefined? <==> Wild(o, ty)
    decreases ty, 1
  {
    hide *;
    match ty
    case TArray(item) =>
      if Items(o, false).Some? {
        var k := ItemsEnd(Items(o, false).value, item, Alloc(h));
        ArrayOutcome(o, item, h, k);
      } else {
        NoItems(o, ty, h);
      }
    case TList(item) =>
      if Items(o, true).Some? {
        var k := CellsEnd(Items(o, true).value, item, h);
        ListOutcome(o, item, h, k);
      } else {
        NoItems(o, ty, h);
      }
    case THash(key, value) =>
      if o.PyDict? && |o.keys| == |o.values| {
        var k := EntriesEnd(o.keys, o.values, key, value, Alloc(h));
        TableOutcome(o, key, value, h, k);
      } else {
        NoItems(o, ty, h);
      }
    case _ => NoItems(o, ty, h);
  }

  /** What is not made of items fails, if at all, before anything is allocated. */
  lemma NoItems(o: Py, ty: Ty, h: Heap)
    requires ty.TArray? ==> Items(o, false).None?
    requires ty.TList? ==> Items(o, true).None?
    requires ty.THash? ==> !(o.PyDict? && |o.keys| == |o.values|)
    ensures (Conv(o, ty, h).0.Good? <==> Accepts(o, ty)) && !Conv(o, ty, h).0.Undefined? && !Wild(o, ty)
    ensures !Accepts(o, ty) ==> Conv(o, ty, h).1 == h && LosesNothing(o, ty)
  {
  }

  // ---------------------------------------------------------------- where an array stops

  ghost predicate AllAccepted(items: seq<Py>, ty: Ty) { forall x :: x in items ==> Accepts(x, ty) }

  /** The items before `k` convert; the one at `k`, if there is one, does not, and ends the run. */
  ghost predicate ItemsEndAt(items: seq<Py>, ty: Ty, h: Heap, k: nat) {
    && k <= |items| && ConvItems(items, ty, k, h).outcome.Good?
    && (k == |items| ==> AllAccepted(items, ty))
    && (k < |items| ==>
          var p := ConvItems(items, ty, k, h);
          var (g, h1) := Conv(items[k], ty, p.heap);
          FirstRefused(items, ty, k) && !g.Good? && (g.Undefined? <==> Wild(items[k], ty))
          && ConvItems(items, ty, |items|, h) == ItemsNext(p, g, h1))
  }

  lemma {:induction false} ItemsEnd(items: seq<Py>, ty: Ty, h: Heap) returns (k: nat)
    ensures ItemsEndAt(items, ty, h, k)
    decreases ty, 2
  {
    hide *;
    k := 0;
    ItemsUnfoldEmpty(items, ty, h);
    while k < |items|
      invariant k <= |items| && ConvItems(items, ty, k, h).outcome.Good?
      invariant forall i :: 0 <= i < k ==> Accepts(items[i], ty)
    {
      var p := ConvItems(items, ty, k, h);
      OutcomeIff(items[k], ty, p.heap);
      ItemsUnfold(items, ty, k + 1, h);
      ItemsNextIs(p, Conv(items[k], ty, p.heap).0, Conv(items[k], ty, p.heap).1);
      if !Accepts(items[k], ty) {
        ItemsStop(items, ty, k + 1, |items|, h);
        break;
      }
      k := k + 1;
    }
    ItemsEndIs(items, ty, h, k);
  }

  lemma ItemsNextIs(p: ItemsRun, g: Outcome<CArg>, h1: Heap)
    ensures ItemsNext(p, g, h1).outcome.Good? <==> g.Good?
    ensures ItemsNext(p, g, h1).outcome.Undefined? <==> g.Undefined?
    ensures !g.Good? ==> ItemsNext(p, g, h1).done == p.done && ItemsNext(p, g, h1).heap == h1
  {
  }

  lemma ItemsEndIs(items: seq<Py>, ty: Ty, h: Heap, k: nat)
    requires k <= |items| && ConvItems(items, ty, k, h).outcome.Good?
    requires forall i :: 0 <= i < k ==> Accepts(items[i], ty)
    requires k < |items| ==>
               var p := ConvItems(items, ty, k, h);
               var (g, h1) := Conv(items[k], ty, p.heap);
               !Accepts(items[k], ty) && !g.Good? && (g.Undefined? <==> Wild(items[k], ty))
               && ConvItems(items, ty, |items|, h) == ItemsNext(p, g, h1)
    ensures ItemsEndAt(items, ty, h, k)
  {
    hide Conv, ConvItems, ItemsNext, Wild, Accepts;
  }

  lemma NoneHasNoItems(o: Py, strings: bool)
    ensures Items(o, strings).Some? ==> o != PyNone
  {
  }

  lemma ArrayIs(o: Py, items: seq<Py>, item: Ty, h: Heap)
    requires o != PyNone && Items(o, false) == Some(items)
    ensures var r := ConvItems(items, item, |items|, Alloc(h));
            var (g, h1) := Conv(o, TArray(item), h);
            && (g.Good? <==> r.outcome.Good?) && (g.Undefined? <==> r.outcome.Undefined?)
            && (g.Bad? ==> h1 == FreeAll(r.heap, FreedItems(r.done, item, |r.done|) + multiset{h.next}))
  {
    hide ConvItems, FreeAll, FreedItems, Items;
  }

  lemma ArrayMeans(o: Py, items: seq<Py>, item: Ty)
    requires Items(o, false) == Some(items)
    ensures Accepts(o, TArray(item)) <==> AllAccepted(items, item)
    ensures Wild(o, TArray(item)) <==> exists k: nat :: FirstRefused(items, item, k) && Wild(items[k], item)
    ensures LosesNothing(o, TArray(item)) <==>
              forall k: nat :: FirstRefused(items, item, k) ==>
                                 ItemsClean(items, item, k) && LosesNothing(items[k], item)
  {
    hide FirstRefused, ItemsClean;
  }

  lemma ArrayOutcome(o: Py, item: Ty, h: Heap, k: nat)
    requires Items(o, false).Some? && ItemsEndAt(Items(o, false).value, item, Alloc(h), k)
    ensures Conv(o, TArray(item), h).0.Good? <==> Accepts(o, TArray(item))
    ensures Conv(o, TArray(item), h).0.Undefined? <==> Wild(o, TArray(item))
    ensures k <= |Items(o, false).value| && ConvItems(Items(o, false).value, item, k, Alloc(h)).outcome.Good?
    ensures var items := Items(o, false).value;
            var p := ConvItems(items, item, k, Alloc(h));
            !Accepts(o, TArray(item)) ==>
              && k < |items| && !Accepts(items[k], item) && (Wild(o, TArray(item)) <==> Wild(items[k], item))
              && (LosesNothing(o, TArray(item)) <==> ItemsClean(items, item, k) && LosesNothing(items[k], item))
              && (Conv(o, TArray(item), h).0.Bad? ==>
                    Conv(o, TArray(item), h).1 == FreeAll(Conv(items[k], item, p.heap).1,
                                                          FreedItems(p.done, item, |p.done|) + multiset{h.next}))
  {
    hide Conv, ConvItems, FreeAll, FreedItems, Wild, Accepts, Items, LosesNothing, ItemsClean, Alloc;
    var items := Items(o, false).value;
    NoneHasNoItems(o, false);
    ArrayIs(o, items, item, h);
    ArrayMeans(o, items, item);
    if k < |items| {
      assert items[k] in items && FirstRefused(items, item, k);
      forall i: nat | FirstRefused(items, item, i) ensures i == k {}
      var p := ConvItems(items, item, k, Alloc(h));
      ItemsNextIs(p, Conv(items[k], item, p.heap).0, Conv(items[k], item, p.heap).1);
    } else {
      forall i: nat ensures !FirstRefused(items, item, i) {}
    }
  }

  // ---------------------------------------------------------------- where a list stops

  /** The items from `k` on convert; the one before, if there is one, does not, and ends the run. */
  ghost predicate CellsEndAt(items: seq<Py>, ty: Ty, h: Heap, k: nat) {
    && k <= |items| && ConvCells(items, ty, k, h).outcome.Good?
    && (k == 0 ==> AllAccepted(items, ty))
    && (k > 0 ==>
          var p := ConvCells(items, ty, k, h);
          var (g, h1) := Conv(items[k - 1], ty, p.heap);
          LastRefused(items, ty, k - 1) && !g.Good? && (g.Undefined? <==> Wild(items[k - 1], ty))
          && ConvCells(items, ty, 0, h) == CellsNext(p, g, h1))
  }

  lemma {:induction false} CellsEnd(items: seq<Py>, ty: Ty, h: Heap) returns (k: nat)
    ensures CellsEndAt(items, ty, h, k)
    decreases ty, 2
  {
    hide *;
    k := |items|;
    CellsUnfoldEmpty(items, ty, h);
    while k > 0
      invariant k <= |items| && ConvCells(items, ty, k, h).outcome.Good?
      invariant forall i :: k <= i < |items| ==> Accepts(items[i], ty)
    {
      var p := ConvCells(items, ty, k, h);
      OutcomeIff(items[k - 1], ty, p.heap);
      CellsUnfold(items, ty, k - 1, h);
      CellsNextIs(p, Conv(items[k - 1], ty, p.heap).0, Conv(items[k - 1], ty, p.heap).1);
      if !Accepts(items[k - 1], ty) {
        CellsStop(items, ty, 0, k - 1, h);
        break;
      }
      k := k - 1;
    }
    CellsEndIs(items, ty, h, k);
  }

  lemma CellsNextIs(p: CellsRun, g: Outcome<CArg>, h1: Heap)
    ensures CellsNext(p, g, h1).outcome.Good? <==> g.Good?
    ensures CellsNext(p, g, h1).outcome.Undefined? <==> g.Undefined?
    ensures !g.Good? ==> CellsNext(p, g, h1).cells == p.cells && CellsNext(p, g, h1).heap == h1
  {
  }

  lemma CellsEndIs(items: seq<Py>, ty: Ty, h: Heap, k: nat)
    requires k <= |items| && ConvCells(items, ty, k, h).outcome.Good?
    requires forall i :: k <= i < |items| ==> Accepts(items[i], ty)
    requires k > 0 ==>
               var p := ConvCells(items, ty, k, h);
               var (g, h1) := Conv(items[k - 1], ty, p.heap);
               !Accepts(items[k - 1], ty) && !g.Good? && (g.Undefined? <==> Wild(items[k - 1], ty))
               && ConvCells(items, ty, 0, h) == CellsNext(p, g, h1)
    ensures CellsEndAt(items, ty, h, k)
  {
    hide Conv, ConvCells, CellsNext, Wild, Accepts;
  }

  lemma ListIs(o: Py, items: seq<Py>, item: Ty, h: Heap)
    requires o != PyNone && Items(o, true) == Some(items)
    ensures var r := ConvCells(items, item, 0, h);
            var (g, h1) := Conv(o, TList(item), h);
            && (g.Good? <==> r.outcome.Good?) && (g.Undefined? <==> r.outcome.Undefined?)
            && (g.Bad? ==>
                  h1 == FreeAll(r.heap, FreedCellItems(r.cells, item, |r.cells|) + CellBlocks(r.cells, |r.cells|)))
  {
    hide ConvCells, FreeAll, FreedCellItems, CellBlocks, Items;
  }

  lemma ListMeans(o: Py, items: seq<Py>, item: Ty)
    requires Items(o, true) == Some(items)
    ensures Accepts(o, TList(item)) <==> AllAccepted(items, item)
    ensures Wild(o, TList(item)) <==> exists k: nat :: LastRefused(items, item, k) && Wild(items[k], item)
    ensures LosesNothing(o, TList(item)) <==>
              forall k: nat :: LastRefused(items, item, k) ==>
                                 CellsClean(items, item, k + 1) && LosesNothing(items[k], item)
  {
    hide LastRefused, CellsClean;
  }

  lemma ListOutcome(o: Py, item: Ty, h: Heap, k: nat)
    requires Items(o, true).Some? && CellsEndAt(Items(o, true).value, item, h, k)
    ensures Conv(o, TList(item), h).0.Good? <==> Accepts(o, TList(item))
    ensures Conv(o, TList(item), h).0.Undefined? <==> Wild(o, TList(item))
    ensures k <= |Items(o, true).value| && ConvCells(Items(o, true).value, item, k, h).outcome.Good?
    ensures var items := Items(o, true).value;
            var p := ConvCells(items, item, k, h);
            !Accepts(o, TList(item)) ==>
              && k > 0 && !Accepts(items[k - 1], item) && (Wild(o, TList(item)) <==> Wild(items[k - 1], item))
              && (LosesNothing(o, TList(item)) <==> CellsClean(items, item, k) && LosesNothing(items[k - 1], item))
              && (Conv(o, TList(item), h).0.Bad? ==>
                    Conv(o, TList(item), h).1
                    == FreeAll(Conv(items[k - 1], item, p.heap).1,
                               FreedCellItems(p.cells, item, |p.cells|) + CellBlocks(p.cells, |p.cells|)))
  {
    hide Conv, ConvCells, FreeAll, FreedCellItems, CellBlocks, Wild, Accepts, Items, LosesNothing, CellsClean;
    var items := Items(o, true).value;
    NoneHasNoItems(o, true);
    ListIs(o, items, item, h);
    ListMeans(o, items, item);
    hide Alloc;
    if k > 0 {
      assert items[k - 1] in items && LastRefused(items, item, k - 1);
      forall i: nat | LastRefused(items, item, i) ensures i == k - 1 {}
      var p := ConvCells(items, item, k, h);
      CellsNextIs(p, Conv(items[k - 1], item, p.heap).0, Conv(items[k - 1], item, p.heap).1);
    } else {
      forall i: nat ensures !LastRefused(items, item, i) {}
    }
  }

  // ---------------------------------------------------------------- where a table stops

  ghost predicate AllPairsAccepted(keys: seq<Py>, values: seq<Py>, key: Ty, value: Ty)
    requires |keys| == |values|
  {
    forall i :: 0 <= i < |keys| ==> AcceptsPair(keys[i], values[i], key, value)
  }

  ghost predicate EntriesEndAt(keys: seq<Py>, values: seq<Py>, key: Ty, value: Ty, h: Heap, k: nat)
    requires |keys| == |values|
  {
    && k <= |keys| && ConvEntries(keys, values, key, value, k, h).outcome.Good?
    && (k == |keys| ==> AllPairsAccepted(keys, values, key, value))
    && (k < |keys| ==>
          var p := ConvEntries(keys, values, key, value, k, h);
          var (g, h1) := ConvPair(keys[k], values[k], key, value, p.heap);
          FirstRefusedPair(keys, values, key, value, k) && !g.Good?
          && (g.Undefined? <==> WildPair(keys[k], values[k], key, value))
          && ConvEntries(keys, values, key, value, |keys|, h) == EntriesNext(p, g, value, h1))
  }

  lemma {:induction false} EntriesEnd(keys: seq<Py>, values: seq<Py>, key: Ty, value: Ty, h: Heap) returns (k: nat)
    requires |keys| == |values|
    ensures EntriesEndAt(keys, values, key, value, h, k)
    decreases THash(key, value), 0
  {
    hide *;
    k := 0;
    EntriesUnfoldEmpty(keys, values, key, value, h);
    while k < |keys|
      invariant k <= |keys| && ConvEntries(keys, values, key, value, k, h).outcome.Good?
      invariant forall i :: 0 <= i < k ==> AcceptsPair(keys[i], values[i], key, value)
    {
      var p := ConvEntries(keys, values, key, value, k, h);
      var pair := ConvPair(keys[k], values[k], key, value, p.heap);
      OutcomeIff(keys[k], key, p.heap);
      OutcomeIff(values[k], value, Conv(keys[k], key, p.heap).1);
      PairOutcome(keys[k], values[k], key, value, p.heap);
      EntriesUnfold(keys, values, key, value, k + 1, h);
      EntriesNextIs(p, pair.0, value, pair.1);
      if !AcceptsPair(keys[k], values[k], key, value) {
        EntriesStop(keys, values, key, value, k + 1, |keys|, h);
        break;
      }
      k := k + 1;
    }
    EntriesEndIs(keys, values, key, value, h, k);
  }

  lemma PairOutcome(k: Py, v: Py, key: Ty, value: Ty, h: Heap)
    requires var g := Conv(k, key, h).0; (g.Good? <==> Accepts(k, key)) && (g.Undefined? <==> Wild(k, key))
    requires var g := Conv(v, value, Conv(k, key, h).1).0;
             (g.Good? <==> Accepts(v, value)) && (g.Undefined? <==> Wild(v, value))
    ensures var g := ConvPair(k, v, key, value, h).0;
            (g.Good? <==> AcceptsPair(k, v, key, value)) && (g.Undefined? <==> WildPair(k, v, key, value))
  {
    hide *;
    PairIs(k, v, key, value, h);
    if Conv(k, key, h).0.Good? {
      KeyPointer(k, key, h);
    }
    PairVerdict(k, v, key, value);
  }

  lemma PairVerdict(k: Py, v: Py, key: Ty, value: Ty)
    ensures AcceptsPair(k, v, key, value) <==> Accepts(k, key) && Accepts(v, value) && !(key.TStr? && k == PyNone)
    ensures WildPair(k, v, key, value) <==>
            || Wild(k, key)
            || (Accepts(k, key) && !AcceptsPair(k, v, key, value)
                && (Wild(v, value) || Accepts(v, value) || PointerKey(k, key)))
  {
    hide Accepts, Wild, PointerKey;
  }

  lemma KeyPointer(k: Py, key: Ty, h: Heap)
    requires Conv(k, key, h).0.Good?
    ensures IsPointer(Conv(k, key, h).0.value) <==> PointerKey(k, key)
    ensures key.TStr? ==> (Conv(k, key, h).0.value == Null <==> k == PyNone)
  {
    hide ConvItems, ConvEntries, FreeAll, Store, Converts, CText, Truth;
    if key.TList? && Items(k, true).Some? {
      CellsCount(Items(k, true).value, key.item, 0, h);
    }
    hide ConvCells;
  }

  lemma {:induction false} CellsCount(items: seq<Py>, ty: Ty, from: nat, h: Heap)
    requires from <= |items| && ConvCells(items, ty, from, h).outcome.Good?
    ensures |ConvCells(items, ty, from, h).cells| == |items| - from
    decreases |items| - from
  {
    hide Conv;
    if from < |items| {
      CellsCount(items, ty, from + 1, h);
    }
  }

  lemma EntriesNextIs(p: EntriesRun, g: Outcome<Entry>, value: Ty, h1: Heap)
    ensures EntriesNext(p, g, value, h1).outcome.Good? <==> g.Good?
    ensures EntriesNext(p, g, value, h1).outcome.Undefined? <==> g.Undefined?
    ensures !g.Good? ==> EntriesNext(p, g, value, h1).entries == p.entries && EntriesNext(p, g, value, h1).heap == h1
  {
    hide Insert, Pack;
  }

  lemma EntriesEndIs(keys: seq<Py>, values: seq<Py>, key: Ty, value: Ty, h: Heap, k: nat)
    requires k <= |keys| == |values| && ConvEntries(keys, values, key, value, k, h).outcome.Good?
    requires forall i :: 0 <= i < k ==> AcceptsPair(keys[i], values[i], key, value)
    requires k < |keys| ==>
               var p := ConvEntries(keys, values, key, value, k, h);
               var (g, h1) := ConvPair(keys[k], values[k], key, value, p.heap);
               !AcceptsPair(keys[k], values[k], key, value) && !g.Good?
               && (g.Undefined? <==> WildPair(keys[k], values[k], key, value))
               && ConvEntries(keys, values, key, value, |keys|, h) == EntriesNext(p, g, value, h1)
    ensures EntriesEndAt(keys, values, key, value, h, k)
  {
    hide ConvPair, ConvEntries, EntriesNext, WildPair, AcceptsPair;
  }

  lemma TableIs(o: Py, key: Ty, value: Ty, h: Heap)
    requires o.PyDict? && |o.keys| == |o.values|
    ensures var r := ConvEntries(o.keys, o.values, key, value, |o.keys|, Alloc(h));
            var (g, h1) := Conv(o, THash(key, value), h);
            && (g.Good? <==> r.outcome.Good?) && (g.Undefined? <==> r.outcome.Undefined?)
            && (g.Bad? ==> h1 == FreeAll(r.heap, FreedEntries(r.entries, key, value, |r.entries|) + multiset{h.next}))
  {
    hide ConvEntries, FreeAll, FreedEntries;
  }

  lemma TableMeans(o: Py, key: Ty, value: Ty)
    requires o.PyDict? && |o.keys| == |o.values|
    ensures Wild(o, THash(key, value)) <==>
              exists k: nat :: FirstRefusedPair(o.keys, o.values, key, value, k)
                               && WildPair(o.keys[k], o.values[k], key, value)
    ensures LosesNothing(o, THash(key, value)) <==>
              forall k: nat :: FirstRefusedPair(o.keys, o.values, key, value, k) ==>
                EntriesClean(o.keys, o.values, key, value, k)
                && PairLosesNothing(o.keys[k], o.values[k], key, value)
  {
    hide EntriesClean;
  }

  lemma TableAccepts(o: Py, key: Ty, value: Ty)
    requires o.PyDict? && |o.keys| == |o.values|
    ensures Accepts(o, THash(key, value)) <==> AllPairsAccepted(o.keys, o.values, key, value)
  {
    if AllPairsAccepted(o.keys, o.values, key, value) {
      forall x | x in o.keys ensures Accepts(x, key) && !(key.TStr? && x == PyNone) {
        var i :| 0 <= i < |o.keys| && o.keys[i] == x;
        assert AcceptsPair(o.keys[i], o.values[i], key, value);
      }
      forall x | x in o.values ensures Accepts(x, value) {
        var i :| 0 <= i < |o.values| && o.values[i] == x;
        assert AcceptsPair(o.keys[i], o.values[i], key, value);
      }
    }
  }

  lemma TableOutcome(o: Py, key: Ty, value: Ty, h: Heap, k: nat)
    requires o.PyDict? && |o.keys| == |o.values| && EntriesEndAt(o.keys, o.values, key, value, Alloc(h), k)
    ensures Conv(o, THash(key, value), h).0.Good? <==> Accepts(o, THash(key, value))
    ensures Conv(o, THash(key, value), h).0.Undefined? <==> Wild(o, THash(key, value))
    ensures k <= |o.keys| && ConvEntries(o.keys, o.values, key, value, k, Alloc(h)).outcome.Good?
    ensures var (ty, p) := (THash(key, value), ConvEntries(o.keys, o.values, key, value, k, Alloc(h)));
            !Accepts(o, ty) ==>
              && k < |o.keys| && !AcceptsPair(o.keys[k], o.values[k], key, value)
              && (Wild(o, ty) <==> WildPair(o.keys[k], o.values[k], key, value))
              && (LosesNothing(o, ty) <==> EntriesClean(o.keys, o.values, key, value, k)
                                           && PairLosesNothing(o.keys[k], o.values[k], key, value))
              && (Conv(o, ty, h).0.Bad? ==>
                    Conv(o, ty, h).1
                    == FreeAll(ConvPair(o.keys[k], o.values[k], key, value, p.heap).1,
                               FreedEntries(p.entries, key, value, |p.entries|) + multiset{h.next}))
  {
    hide Conv, ConvEntries, ConvPair, FreeAll, FreedEntries, Wild, Accepts, LosesNothing, EntriesClean, WildPair;
    hide AcceptsPair, PairLosesNothing, Insert, Pack, Alloc;
    TableIs(o, key, value, h);
    TableMeans(o, key, value);
    TableAccepts(o, key, value);
    if k < |o.keys| {
      assert FirstRefusedPair(o.keys, o.values, key, value, k);
      forall i: nat | FirstRefusedPair(o.keys, o.values, key, value, i) ensures i == k {}
      var p := ConvEntries(o.keys, o.values, key, value, k, Alloc(h));
      var pair := ConvPair(o.keys[k], o.values[k], key, value, p.heap);
      EntriesNextIs(p, pair.0, value, pair.1);
    } else {
      forall i: nat ensures !FirstRefusedPair(o.keys, o.values, key, value, i) {}
    }
  }

  // ---------------------------------------------------------------- what a failure leaves behind

  /** Everything allocated from `h` to `h'` was freed once, but for some blocks that stay; there are none exactly when
      `nothing`. */
  ghost predicate Lost(h: Heap, h': Heap, nothing: bool) {
    exists lost :: Holds(h, h', lost) && (nothing <==> lost == multiset{})
  }

  /** The conversion fails. Whatever the type and the depth, it frees no block twice, and the heap is as it was if and
      only if no table displaced a block before the failure. */
  lemma {:induction false} FailureRestoresHeap(o: Py, ty: Ty, h: Heap)
    requires HeapOk(h) && !Accepts(o, ty) && !Wild(o, ty)
    ensures Conv(o, ty, h).0.Bad? && Lost(h, Conv(o, ty, h).1, LosesNothing(o, ty))
    ensures Conv(o, ty, h).1.live == h.live <==> LosesNothing(o, ty)
    decreases ty, 1
  {
    hide *;
    OutcomeIff(o, ty, h);
    HeapOkAlloc(h);
    if ty.TArray? && Items(o, false).Some? {
      ArrayLoses(o, ty.item, h);
    } else if ty.TList? && Items(o, true).Some? {
      ListLoses(o, ty.item, h);
    } else if ty.THash? && o.PyDict? && |o.keys| == |o.values| {
      TableLoses(o, ty.key, ty.value, h);
    } else {
      NoItems(o, ty, h);
      LostNothing(h);
    }
    LostLive(h, Conv(o, ty, h).1, LosesNothing(o, ty));
  }

  lemma LostNothing(h: Heap)
    ensures Lost(h, h, true)
  {
    HoldsNothing(h);
    hide Holds;
  }

  lemma LostLive(h: Heap, h': Heap, nothing: bool)
    requires HeapOk(h) && Lost(h, h', nothing)
    ensures h'.live == h.live <==> nothing
  {
    var lost :| Holds(h, h', lost) && (nothing <==> lost == multiset{});
    HoldsLive(h, h', lost);
  }

  lemma HeapOkAlloc(h: Heap)
    requires HeapOk(h)
    ensures HeapOk(Alloc(h))
  {
  }

  lemma HeapOkOwns(h: Heap, h1: Heap, b: multiset<nat>, w: bool)
    requires HeapOk(h) && Owns(h, h1, b, w)
    ensures HeapOk(h1)
  {
  }

  /** A container that owns `b` is given up after the failure of an item. */
  lemma GiveUp(h: Heap, h1: Heap, h2: Heap, b: multiset<nat>, w: bool, nothing: bool)
    requires HeapOk(h) && Owns(h, h1, b, w) && Lost(h1, h2, nothing)
    ensures Lost(h, FreeAll(h2, b), w && nothing)
  {
    var lost :| Holds(h1, h2, lost) && (nothing <==> lost == multiset{});
    var f := Fresh(h.next, h1.next);
    OwnedHolds(h, h1, b, w);
    HoldsJoin(h, h1, h2, f, lost);
    HoldsFreeSome(h, h2, f + lost, b);
    MinusParts(f, lost, b);
    hide Holds, Owns, FreeAll;
    assert Holds(h, FreeAll(h2, b), f + lost - b);
  }

  lemma OwnedHolds(h: Heap, h1: Heap, b: multiset<nat>, w: bool)
    requires Owns(h, h1, b, w)
    ensures Holds(h, h1, Fresh(h.next, h1.next)) && b <= Fresh(h.next, h1.next)
    ensures b == Fresh(h.next, h1.next) <==> w
  {
    assert Elements(Fresh(h.next, h1.next)) == Ids(h.next, h1.next);
  }

  lemma MinusParts(f: multiset<nat>, lost: multiset<nat>, b: multiset<nat>)
    requires b <= f
    ensures b <= f + lost && (f + lost - b == multiset{} <==> b == f && lost == multiset{})
  {
    if f + lost - b == multiset{} {
      forall x ensures b[x] == f[x] && lost[x] == 0 {
        assert (f + lost - b)[x] == f[x] + lost[x] - b[x];
      }
    }
  }

  lemma ArrayLoses(o: Py, item: Ty, h: Heap)
    requires HeapOk(h) && HeapOk(Alloc(h)) && Items(o, false).Some?
    requires !Accepts(o, TArray(item)) && !Wild(o, TArray(item))
    ensures Lost(h, Conv(o, TArray(item), h).1, LosesNothing(o, TArray(item)))
    decreases item, 2
  {
    hide *;
    var items, h0 := Items(o, false).value, Alloc(h);
    var k := ItemsEnd(items, item, h0);
    ArrayOutcome(o, item, h, k);
    var p := ConvItems(items, item, k, h0);
    var b := FreedItems(p.done, item, |p.done|) + multiset{h.next};
    ItemsOwn(items, item, k, h0);
    ItemsOwned(items, item, k, h, p);
    HeapOkOwns(h, p.heap, b, ItemsClean(items, item, k));
    FailureRestoresHeap(items[k], item, p.heap);
    GiveUp(h, p.heap, Conv(items[k], item, p.heap).1, b, ItemsClean(items, item, k), LosesNothing(items[k], item));
  }

  lemma ItemsOwned(items: seq<Py>, item: Ty, k: nat, h: Heap, p: ItemsRun)
    requires k <= |items| && ItemsOwnAt(items, item, k, Alloc(h), p)
    ensures Owns(h, p.heap, FreedItems(p.done, item, |p.done|) + multiset{h.next}, ItemsClean(items, item, k))
  {
    hide Owns, Typed, ItemsClean, FreedItems, ItemBlocks, Alloc;
    var b := ItemBlocks(p.done, k);
    OwnsAlloc(h);
    OwnsJoin(h, Alloc(h), p.heap, multiset{h.next}, true, b, ItemsClean(items, item, k));
    ReleaseItems(p.done, item, |p.done|);
    assert multiset{h.next} + b == b + multiset{h.next};
  }

  lemma ListLoses(o: Py, item: Ty, h: Heap)
    requires HeapOk(h) && Items(o, true).Some? && !Accepts(o, TList(item)) && !Wild(o, TList(item))
    ensures Lost(h, Conv(o, TList(item), h).1, LosesNothing(o, TList(item)))
    decreases item, 2
  {
    hide *;
    var items := Items(o, true).value;
    var k := CellsEnd(items, item, h);
    ListOutcome(o, item, h, k);
    var p := ConvCells(items, item, k, h);
    var b := FreedCellItems(p.cells, item, |p.cells|) + CellBlocks(p.cells, |p.cells|);
    CellsOwn(items, item, k, h);
    CellsOwned(items, item, k, h, p);
    HeapOkOwns(h, p.heap, b, CellsClean(items, item, k));
    FailureRestoresHeap(items[k - 1], item, p.heap);
    GiveUp(h, p.heap, Conv(items[k - 1], item, p.heap).1, b, CellsClean(items, item, k),
           LosesNothing(items[k - 1], item));
  }

  lemma CellsOwned(items: seq<Py>, item: Ty, k: nat, h: Heap, p: CellsRun)
    requires CellsOwnAt(items, item, k, h, p)
    ensures Owns(h, p.heap, FreedCellItems(p.cells, item, |p.cells|) + CellBlocks(p.cells, |p.cells|),
                 CellsClean(items, item, k))
  {
    hide Owns, Typed, CellsClean, FreedCellItems, CellItemBlocks, CellBlocks;
    ReleaseCells(p.cells, item, |p.cells|);
    var a, b := CellItemBlocks(p.cells, |p.cells|), CellBlocks(p.cells, |p.cells|);
    assert a + b == b + a;
  }

  lemma TableLoses(o: Py, key: Ty, value: Ty, h: Heap)
    requires HeapOk(h) && HeapOk(Alloc(h)) && o.PyDict? && |o.keys| == |o.values|
    requires !Accepts(o, THash(key, value)) && !Wild(o, THash(key, value))
    ensures Lost(h, Conv(o, THash(key, value), h).1, LosesNothing(o, THash(key, value)))
    decreases THash(key, value), 0
  {
    hide *;
    var h0 := Alloc(h);
    OutcomeIff(o, THash(key, value), h);
    var k := EntriesEnd(o.keys, o.values, key, value, h0);
    TableOutcome(o, key, value, h, k);
    var p := ConvEntries(o.keys, o.values, key, value, k, h0);
    var b := FreedEntries(p.entries, key, value, |p.entries|) + multiset{h.next};
    EntriesOwn(o.keys, o.values, key, value, k, h0);
    EntriesOwned(o.keys, o.values, key, value, k, h, p);
    var w := EntriesClean(o.keys, o.values, key, value, k);
    HeapOkOwns(h, p.heap, b, w);
    var kk, v := o.keys[k], o.values[k];
    PairParts(kk, v, key, value, p.heap);
    if !Accepts(kk, key) {
      FailureRestoresHeap(kk, key, p.heap);
    } else {
      FailureRestoresHeap(v, value, p.heap);
    }
    GiveUp(h, p.heap, ConvPair(kk, v, key, value, p.heap).1, b, w, PairLosesNothing(kk, v, key, value));
  }

  lemma EntriesOwned(keys: seq<Py>, values: seq<Py>, key: Ty, value: Ty, k: nat, h: Heap, p: EntriesRun)
    requires k <= |keys| == |values| && TableAt(keys, values, key, value, k, Alloc(h), p)
    ensures Owns(h, p.heap, FreedEntries(p.entries, key, value, |p.entries|) + multiset{h.next},
                 EntriesClean(keys, values, key, value, k))
  {
    hide Owns, Typed, EntriesClean, FreedEntries, EntryBlocks, Alloc, Linked;
    var b := EntryBlocks(p.entries, |p.entries|);
    OwnsAlloc(h);
    OwnsJoin(h, Alloc(h), p.heap, multiset{h.next}, true, b, EntriesClean(keys, values, key, value, k));
    ReleaseEntries(p.entries, key, value, |p.entries|);
    assert multiset{h.next} + b == b + multiset{h.next};
  }

  /** A pair fails with its key, or with its value after a key that is no pointer and so allocated nothing. */
  lemma PairParts(k: Py, v: Py, key: Ty, value: Ty, h: Heap)
    requires !AcceptsPair(k, v, key, value) && !WildPair(k, v, key, value)
    ensures !Accepts(k, key) ==> !Wild(k, key) && ConvPair(k, v, key, value, h).1 == Conv(k, key, h).1
    ensures Accepts(k, key) ==>
              !Accepts(v, value) && !Wild(v, value) && ConvPair(k, v, key, value, h).1 == Conv(v, value, h).1
    ensures PairLosesNothing(k, v, key, value) ==
            if Accepts(k, key) then LosesNothing(v, value) else LosesNothing(k, key)
  {
    hide *;
    OutcomeIff(k, key, h);
    PairIs(k, v, key, value, h);
    PairPartsIs(k, v, key, value);
    if Accepts(k, key) {
      NoPointerNoBlock(k, key, h);
      OutcomeIff(v, value, h);
    }
  }

  lemma PairPartsIs(k: Py, v: Py, key: Ty, value: Ty)
    requires !AcceptsPair(k, v, key, value) && !WildPair(k, v, key, value)
    ensures !Wild(k, key) && (Accepts(k, key) ==> !Accepts(v, value) && !Wild(v, value) && !PointerKey(k, key))
    ensures PairLosesNothing(k, v, key, value) ==
            if Accepts(k, key) then LosesNothing(v, value) else LosesNothing(k, key)
  {
    hide Accepts, Wild, LosesNothing, PointerKey;
  }

  lemma NoPointerNoBlock(k: Py, key: Ty, h: Heap)
    requires Conv(k, key, h).0.Good? && !PointerKey(k, key)
    ensures Conv(k, key, h).1 == h
  {
    ConvOwns(k, key, h);
    hide Conv, Clean, Typed, Blocks, Truth, Store;
  }

  // ---------------------------------------------------------------- who is safe

  predicate HasTable(ty: Ty) {
    match ty
    case TArray(item) => HasTable(item)
    case TList(item) => HasTable(item)
    case THash(_, _) => true
    case _ => false
  }

  lemma {:induction false} OnlyTables(o: Py, ty: Ty)
    requires !HasTable(ty)
    ensures Clean(o, ty) && !Wild(o, ty)
    decreases ty
  {
    match ty
    case TArray(item) =>
      forall x: Py ensures Clean(x, item) && !Wild(x, item) { OnlyTables(x, item); }
    case TList(item) =>
      forall x: Py ensures Clean(x, item) && !Wild(x, item) { OnlyTables(x, item); }
    case _ =>
  }

  /** An object none of whose tables displaces a block loses none by failing. */
  lemma {:induction false} CleanLosesNothing(o: Py, ty: Ty)
    requires Clean(o, ty)
    ensures LosesNothing(o, ty)
    decreases ty
  {
    match ty
    case TArray(item) =>
      if Items(o, false).Some? {
        forall x | x in Items(o, false).value ensures LosesNothing(x, item) { CleanLosesNothing(x, item); }
      }
    case TList(item) =>
      if Items(o, true).Some? {
        forall x | x in Items(o, true).value ensures LosesNothing(x, item) { CleanLosesNothing(x, item); }
      }
    case THash(key, value) =>
      if o.PyDict? && |o.keys| == |o.values| {
        forall x | x in o.keys ensures LosesNothing(x, key) { CleanLosesNothing(x, key); }
        forall x | x in o.values ensures LosesNothing(x, value) { CleanLosesNothing(x, value); }
        EntriesCleanIs(o, key, value);
        hide Clean, LosesNothing, Accepts, HasBlock, Clash;
        TableLosesNothing(o, key, value);
      }
    case _ =>
  }

  lemma TableLosesNothing(o: Py, key: Ty, value: Ty)
    requires o.PyDict? && |o.keys| == |o.values| && EntriesClean(o.keys, o.values, key, value, |o.keys|)
    requires forall x :: x in o.keys ==> LosesNothing(x, key)
    requires forall x :: x in o.values ==> LosesNothing(x, value)
    ensures LosesNothing(o, THash(key, value))
  {
    hide Clean, Accepts, HasBlock, Clash;
  }

  /** Without tables every failure is clean: nothing stays allocated, and every block was freed once. */
  lemma FailureWithoutTables(o: Py, ty: Ty, h: Heap)
    requires HeapOk(h) && !HasTable(ty) && !Accepts(o, ty)
    ensures var (r, h') := Conv(o, ty, h);
            r.Bad? && h'.live == h.live && h'.freed == h.freed + Fresh(h.next, h'.next)
  {
    hide *;
    OnlyTables(o, ty);
    CleanLosesNothing(o, ty);
    FailureRestoresHeap(o, ty, h);
    LostNone(h, Conv(o, ty, h).1);
  }

  lemma LostNone(h: Heap, h': Heap)
    requires Lost(h, h', true)
    ensures h'.freed == h.freed + Fresh(h.next, h'.next)
  {
    var lost :| Holds(h, h', lost) && (true <==> lost == multiset{});
    assert Fresh(h.next, h'.next) - lost == Fresh(h.next, h'.next);
  }

  function MappingOf120(): Py { PyDict([PyInt(1), PyInt(2), PyInt(0)], [PyStr("a"), PyStr("b"), PyInt(5)]) }

  /** As booleans 1 and 2 are one key, so `"a"` is displaced before the value 5 is refused, and stays allocated. */
  lemma RefusedAfterDisplacing(h: Heap)
    requires HeapOk(h)
    ensures var (r, h') := Conv(MappingOf120(), THash(TBool, TStr), h);
            r.Bad? && h'.live != h.live
  {
    hide *;
    ThirdRefused();
    LosesFirst();
    FailureRestoresHeap(MappingOf120(), THash(TBool, TStr), h);
  }

  lemma ThirdRefused()
    ensures var o := MappingOf120();
            && FirstRefusedPair(o.keys, o.values, TBool, TStr, 2) && !Accepts(o, THash(TBool, TStr))
            && !Wild(o, THash(TBool, TStr))
  {
    var o := MappingOf120();
    assert o.values[2] in o.values && !Accepts(o.values[2], TStr);
  }

  lemma LosesFirst()
    requires FirstRefusedPair(MappingOf120().keys, MappingOf120().values, TBool, TStr, 2)
    ensures !LosesNothing(MappingOf120(), THash(TBool, TStr))
  {
    var o := MappingOf120();
    assert Clash(TBool, o.keys[0], o.keys[1]) && HasBlock(o.values[0], TStr);
    hide Clash, HasBlock, FirstRefusedPair;
    assert !NothingDisplaced(o.keys, o.values, TBool, TStr, 2) && !EntriesClean(o.keys, o.values, TBool, TStr, 2);
  }

  /** A value refused after a key that is a pointer, or that the C code takes for one: 5 is no string. */
  lemma RefusedAfterPointer(h: Heap)
    ensures Conv(PyDict([PyInt(1)], [PyInt(5)]), THash(TBool, TStr), h).0.Undefined?
  {
    var o := PyDict([PyInt(1)], [PyInt(5)]);
    assert FirstRefusedPair(o.keys, o.values, TBool, TStr, 0);
    assert Wild(o, THash(TBool, TStr));
    hide *;
    OutcomeIff(o, THash(TBool, TStr), h);
  }
}
