/** Which Python objects come back unchanged from `_pygi_argument_from_object` then `_pygi_argument_to_object`. */
module RoundTrip {
  import opened Prelude
  import opened CInts
  import opened Argument
  import opened Ownership

  /** What Python guarantees of its own objects: bytes are bytes, and the keys of a mapping are distinct and
      hashable, which lists and mappings are not. */
  ghost predicate PythonOk(o: Py) {
    match o
    case PyBytes(b) => forall x :: x in b ==> 0 <= x < 256
    case PyList(items) => forall x :: x in items ==> PythonOk(x)
    case PyDict(keys, values) =>
      |keys| == |values| && NoDup(keys) && (forall x :: x in keys ==> !x.PyList? && !x.PyDict?)
      && (forall x :: x in keys ==> PythonOk(x)) && (forall x :: x in values ==> PythonOk(x))
    case _ => true
  }

  /** `o` is the kind of object `to_object` makes for `ty`: exact booleans, integers and lists, bytes for arrays of
      `guint8`, strings without NUL, and None only where a null pointer is read back as None. */
  ghost predicate Plain(ty: Ty, o: Py)
    decreases ty
  {
    match ty
    case TBool => o.PyBool?
    case TInt(_) => o.PyInt?
    case TStr => o == PyNone || (o.PyStr? && '\0' !in o.s)
    case TArray(item) =>
      if item == TInt(UInt8) then o.PyBytes? else o.PyList? && forall x :: x in o.items ==> Plain(item, x)
    case TList(item) => o.PyList? && forall x :: x in o.items ==> Plain(item, x)
    case THash(key, value) =>
      o == PyNone || (o.PyDict? && (forall x :: x in o.keys ==> Plain(key, x))
                            && (forall x :: x in o.values ==> Plain(value, x))
                      && (key.TStr? ==> PyNone !in o.keys))
  }

  ghost predicate Survives(ty: Ty, o: Py) { Plain(ty, o) && Checks(ty, o, true) }

  ghost predicate Returns(o: Py, ty: Ty, h: Heap) {
    Conv(o, ty, h).0.Good? && ToObject(Conv(o, ty, h).0.value, ty) == o
  }

  /** The round trip, exactly: an object comes back unchanged if and only if it is plain for its type and the bounds
      checker accepts it. */
  lemma {:induction false} RoundTripIff(o: Py, ty: Ty, h: Heap)
    requires PythonOk(o)
    ensures Returns(o, ty, h) <==> Survives(ty, o)
    decreases ty, 1, 0
  {
    hide *;
    match ty
    case TArray(item) =>
      if Items(o, false).Some? {
        ItemsOk(o, false);
        ItemsReturn(Items(o, false).value, item, |Items(o, false).value|, Alloc(h));
      }
      ArrayReturns(o, item, h);
    case TList(item) =>
      if Items(o, true).Some? {
        ItemsOk(o, true);
        CellsReturn(Items(o, true).value, item, 0, h);
      }
      ListReturns(o, item, h);
    case THash(key, value) =>
      if o.PyDict? {
        DictOk(o);
        EntriesReturn(o.keys, o.values, key, value, |o.keys|, Alloc(h));
      }
      TableReturns(o, key, value, h);
    case _ => LeafReturns(o, ty, h);
  }

  /** In particular no integer the checker accepts is ever truncated. */
  lemma LeafReturns(o: Py, ty: Ty, h: Heap)
    requires ty.TBool? || ty.TInt? || ty.TStr?
    ensures Returns(o, ty, h) <==> Survives(ty, o)
  {
    if ty.TInt? && o.PyInt? {
      StoreLoad(ty.tag, o.n, 0);
      FitsConverts(ty.tag, o.n);
    }
    hide Store, Load, Fits, Converts, Lowest, Highest, Signed, Modulus;
    if ty.TBool? {
      BoolLoads();
    }
  }

  lemma FitsConverts(tag: IntTag, n: int)
    ensures Fits(tag, n) ==> Converts(tag, n)
  {
  }

  lemma BoolLoads()
    ensures Load(Int32, 0) == 0 && Load(Int32, 1) == 1
  {
  }

  lemma ItemsOk(o: Py, strings: bool)
    requires PythonOk(o) && Items(o, strings).Some?
    ensures forall x :: x in Items(o, strings).value ==> PythonOk(x)
  {
  }

  lemma DictOk(o: Py)
    requires PythonOk(o) && o.PyDict?
    ensures |o.keys| == |o.values| && NoDup(o.keys)
    ensures (forall x :: x in o.keys ==> PythonOk(x)) && (forall x :: x in o.values ==> PythonOk(x))
  {
  }

  // ---------------------------------------------------------------- arrays

  ghost predicate ItemsReturnAt(items: seq<Py>, ty: Ty, n: nat, r: ItemsRun)
    requires n <= |items|
  {
    && (r.outcome.Good? ==> |r.done| == n)
    && (r.outcome.Good? && (forall i :: 0 <= i < n ==> ToObject(r.done[i], ty) == items[i])
        <==> forall i :: 0 <= i < n ==> Survives(ty, items[i]))
  }

  lemma {:induction false} ItemsReturn(items: seq<Py>, ty: Ty, n: nat, h: Heap)
    requires n <= |items| && forall x :: x in items ==> PythonOk(x)
    ensures ItemsReturnAt(items, ty, n, ConvItems(items, ty, n, h))
    decreases ty, 2, n
  {
    hide *;
    if n == 0 {
      ItemsReturnBase(items, ty, h);
    } else {
      ItemsReturn(items, ty, n - 1, h);
      var p := ConvItems(items, ty, n - 1, h);
      RoundTripIff(items[n - 1], ty, p.heap);
      ItemsUnfold(items, ty, n, h);
      ItemsReturnStep(items, ty, n, p, ConvItems(items, ty, n, h));
    }
  }

  lemma ItemsReturnBase(items: seq<Py>, ty: Ty, h: Heap)
    ensures ItemsReturnAt(items, ty, 0, ConvItems(items, ty, 0, h))
  {
  }

  lemma ItemsReturnStep(items: seq<Py>, ty: Ty, n: nat, p: ItemsRun, r: ItemsRun)
    requires 0 < n <= |items| && ItemsReturnAt(items, ty, n - 1, p)
    requires Returns(items[n - 1], ty, p.heap) <==> Survives(ty, items[n - 1])
    requires var g := Conv(items[n - 1], ty, p.heap);
             r == if p.outcome.Good? then ItemsNext(p, g.0, g.1) else p
    ensures ItemsReturnAt(items, ty, n, r)
  {
    hide Conv, ToObject, Survives;
    var o := items[n - 1];
    if r.outcome.Good? {
      assert forall i :: 0 <= i < n - 1 ==> r.done[i] == p.done[i];
      assert Returns(o, ty, p.heap) <==> ToObject(r.done[n - 1], ty) == o;
    }
  }

  lemma ToObjectsAre(args: seq<CArg>, ty: Ty, items: seq<Py>)
    ensures ToObjects(args, ty) == items
            <==> |args| == |items| && forall i :: 0 <= i < |items| ==> ToObject(args[i], ty) == items[i]
  {
    hide ToObject, ToObjects;
    forall i | 0 <= i < |args| ensures ToObjects(args, ty)[i] == ToObject(args[i], ty) {
      ToObjectsAt(args, ty, i);
    }
  }

  lemma ArrayReturns(o: Py, item: Ty, h: Heap)
    requires PythonOk(o)
    requires Items(o, false).Some? ==>
               var items := Items(o, false).value;
               ItemsReturnAt(items, item, |items|, ConvItems(items, item, |items|, Alloc(h)))
    ensures Returns(o, TArray(item), h) <==> Survives(TArray(item), o)
  {
    if o.PyList? {
      ListArrayReturns(o.items, item, h);
    } else if o.PyBytes? {
      BytesReturn(o.bytes, item, h);
    }
  }

  lemma ArrayResult(o: Py, items: seq<Py>, item: Ty, h: Heap)
    requires o != PyNone && Items(o, false) == Some(items)
    ensures var run := ConvItems(items, item, |items|, Alloc(h));
            var g := Conv(o, TArray(item), h).0;
            (g.Good? <==> run.outcome.Good?) && (g.Good? ==> g.value == Arr(h.next, run.done))
  {
    hide ConvItems, FreeAll, FreedItems, Items;
  }

  lemma ArrObject(b: nat, done: seq<CArg>, item: Ty)
    ensures item != TInt(UInt8) ==> ToObject(Arr(b, done), TArray(item)) == PyList(ToObjects(done, item))
    ensures item == TInt(UInt8) ==> ToObject(Arr(b, done), TArray(item)).PyBytes?
  {
    hide ToObjects;
  }

  lemma ListArrayReturns(items: seq<Py>, item: Ty, h: Heap)
    requires ItemsReturnAt(items, item, |items|, ConvItems(items, item, |items|, Alloc(h)))
    ensures Returns(PyList(items), TArray(item), h) <==> Survives(TArray(item), PyList(items))
  {
    var run := ConvItems(items, item, |items|, Alloc(h));
    ArrayResult(PyList(items), items, item, h);
    ArrObject(h.next, run.done, item);
    if item != TInt(UInt8) {
      ToObjectsAre(run.done, item, items);
      SurvivesAll(item, items);
      hide Conv, ConvItems, ToObject, ToObjects, Survives, Alloc;
    } else {
      hide Conv, ConvItems, ToObject, ToObjects, Checks, Alloc;
    }
  }

  lemma SurvivesAll(item: Ty, items: seq<Py>)
    ensures item != TInt(UInt8) ==>
              (Survives(TArray(item), PyList(items)) <==> forall i :: 0 <= i < |items| ==> Survives(item, items[i]))
    ensures Survives(TList(item), PyList(items)) <==> forall i :: 0 <= i < |items| ==> Survives(item, items[i])
  {
    assert forall x :: x in items <==> exists i :: 0 <= i < |items| && items[i] == x;
  }

  lemma BytesReturn(bytes: seq<int>, item: Ty, h: Heap)
    requires PythonOk(PyBytes(bytes))
    requires ItemsReturnAt(Ints(bytes), item, |bytes|, ConvItems(Ints(bytes), item, |bytes|, Alloc(h)))
    ensures Returns(PyBytes(bytes), TArray(item), h) <==> Survives(TArray(item), PyBytes(bytes))
  {
    var run := ConvItems(Ints(bytes), item, |bytes|, Alloc(h));
    ArrayResult(PyBytes(bytes), Ints(bytes), item, h);
    ArrObject(h.next, run.done, item);
    if item == TInt(UInt8) {
      BytesSurvive(bytes);
      RawItems(Ints(bytes), UInt8, |bytes|, Alloc(h));
      BytesBack(h.next, run.done, bytes);
      hide Conv, ConvItems, Alloc, ToObject, Checks, Survives;
    } else {
      hide Conv, ConvItems, Alloc, ToObject, Checks;
    }
  }

  lemma BytesBack(b: nat, done: seq<CArg>, bytes: seq<int>)
    requires |done| == |bytes| && forall x :: x in done ==> x.Raw?
    requires forall i :: 0 <= i < |bytes| ==> ToObject(done[i], TInt(UInt8)) == Ints(bytes)[i]
    ensures ToObject(Arr(b, done), TArray(TInt(UInt8))) == PyBytes(bytes)
  {
    hide Load;
    forall i | 0 <= i < |bytes| ensures done[i].Raw? && Load(UInt8, done[i].cell) == bytes[i] {
      assert done[i] in done;
      assert ToObject(done[i], TInt(UInt8)) == Ints(bytes)[i];
    }
    assert ToObject(Arr(b, done), TArray(TInt(UInt8))).bytes == bytes;
  }

  lemma BytesSurvive(bytes: seq<int>)
    requires forall x :: x in bytes ==> 0 <= x < 256
    ensures Survives(TArray(TInt(UInt8)), PyBytes(bytes))
    ensures forall i :: 0 <= i < |bytes| ==> Survives(TInt(UInt8), Ints(bytes)[i])
  {
    forall i | 0 <= i < |bytes| ensures Survives(TInt(UInt8), Ints(bytes)[i]) {
      assert bytes[i] in bytes;
    }
    forall x | x in Ints(bytes) ensures Checks(TInt(UInt8), x, true) {
      var i :| 0 <= i < |bytes| && Ints(bytes)[i] == x;
      assert bytes[i] in bytes;
    }
  }

  lemma {:induction false} RawItems(items: seq<Py>, tag: IntTag, n: nat, h: Heap)
    requires n <= |items|
    ensures forall x :: x in ConvItems(items, TInt(tag), n, h).done ==> x.Raw?
  {
    if n > 0 {
      RawItems(items, tag, n - 1, h);
    }
  }

  // ---------------------------------------------------------------- lists

  ghost predicate CellsReturnAt(items: seq<Py>, ty: Ty, from: nat, r: CellsRun)
    requires from <= |items|
  {
    && (r.outcome.Good? ==> |r.cells| == |items| - from)
    && (r.outcome.Good? && (forall i :: from <= i < |items| ==> ToObject(r.cells[i - from].item, ty) == items[i])
        <==> forall i :: from <= i < |items| ==> Survives(ty, items[i]))
  }

  lemma {:induction false} CellsReturn(items: seq<Py>, ty: Ty, from: nat, h: Heap)
    requires from <= |items| && forall x :: x in items ==> PythonOk(x)
    ensures CellsReturnAt(items, ty, from, ConvCells(items, ty, from, h))
    decreases ty, 2, |items| - from
  {
    hide *;
    if from == |items| {
      CellsReturnBase(items, ty, h);
    } else {
      CellsReturn(items, ty, from + 1, h);
      var p := ConvCells(items, ty, from + 1, h);
      RoundTripIff(items[from], ty, p.heap);
      CellsUnfold(items, ty, from, h);
      CellsReturnStep(items, ty, from, p, ConvCells(items, ty, from, h));
    }
  }

  lemma CellsReturnBase(items: seq<Py>, ty: Ty, h: Heap)
    ensures CellsReturnAt(items, ty, |items|, ConvCells(items, ty, |items|, h))
  {
  }

  lemma CellsReturnStep(items: seq<Py>, ty: Ty, from: nat, p: CellsRun, r: CellsRun)
    requires from < |items| && CellsReturnAt(items, ty, from + 1, p)
    requires Returns(items[from], ty, p.heap) <==> Survives(ty, items[from])
    requires var g := Conv(items[from], ty, p.heap);
             r == if p.outcome.Good? then CellsNext(p, g.0, g.1) else p
    ensures CellsReturnAt(items, ty, from, r)
  {
    hide Conv, ToObject, Survives;
    var o, next := items[from], from + 1;
    if r.outcome.Good? {
      forall i {:trigger items[i]} | next <= i < |items| ensures r.cells[i - from].item == p.cells[i - next].item {}
      assert Returns(o, ty, p.heap) <==> ToObject(r.cells[0].item, ty) == o;
    }
  }

  lemma ListResult(o: Py, items: seq<Py>, item: Ty, h: Heap)
    requires o != PyNone && Items(o, true) == Some(items)
    ensures var run := ConvCells(items, item, 0, h);
            var g := Conv(o, TList(item), h).0;
            (g.Good? <==> run.outcome.Good?)
            && (g.Good? ==> g.value == if run.cells == [] then Null else Lst(run.cells))
  {
    hide ConvCells, FreeAll, FreedCellItems, CellBlocks, Items;
  }

  lemma LstObject(cells: seq<Cell>, item: Ty)
    ensures ToObject(if cells == [] then Null else Lst(cells), TList(item)) == PyList(CellsBack(cells, item))
  {
  }

  lemma ListReturns(o: Py, item: Ty, h: Heap)
    requires Items(o, true).Some? ==>
               CellsReturnAt(Items(o, true).value, item, 0, ConvCells(Items(o, true).value, item, 0, h))
    ensures Returns(o, TList(item), h) <==> Survives(TList(item), o)
  {
    hide *;
    if Items(o, true).Some? {
      var items := Items(o, true).value;
      var run := ConvCells(items, item, 0, h);
      NoneHasNoItems(o);
      ListResult(o, items, item, h);
      LstObject(run.cells, item);
      CellObjects(run.cells, item, items);
      SurvivesAll(item, items);
      OnlyLists(item, o);
      ListReturnsIff(o, items, item, h, run);
    } else {
      NoList(o, item, h);
    }
  }

  function CellsBack(cells: seq<Cell>, item: Ty): seq<Py> {
    ToObjects(seq(|cells|, i requires 0 <= i < |cells| => cells[i].item), item)
  }

  lemma CellObjects(cells: seq<Cell>, item: Ty, items: seq<Py>)
    ensures CellsBack(cells, item) == items
            <==> |cells| == |items| && forall i :: 0 <= i < |items| ==> ToObject(cells[i].item, item) == items[i]
  {
    ToObjectsAre(seq(|cells|, i requires 0 <= i < |cells| => cells[i].item), item, items);
  }

  lemma NoneHasNoItems(o: Py)
    ensures Items(o, true).Some? ==> o != PyNone && (o.PyList? ==> o.items == Items(o, true).value)
  {
  }

  lemma OnlyLists(item: Ty, o: Py)
    ensures Survives(TList(item), o) ==> o.PyList?
  {
    hide Checks;
  }

  lemma ListReturnsIff(o: Py, items: seq<Py>, item: Ty, h: Heap, run: CellsRun)
    requires Survives(TList(item), o) ==> o.PyList?
    requires o.PyList? ==> o.items == items
    requires o.PyList? ==>
               (Survives(TList(item), PyList(items)) <==> forall i :: 0 <= i < |items| ==> Survives(item, items[i]))
    requires CellsReturnAt(items, item, 0, run)
    requires var g := Conv(o, TList(item), h).0;
             && (g.Good? <==> run.outcome.Good?)
             && (g.Good? ==> g.value == if run.cells == [] then Null else Lst(run.cells))
             && (g.Good? ==> ToObject(g.value, TList(item)) == PyList(CellsBack(run.cells, item)))
    requires CellsBack(run.cells, item) == items
             <==> |run.cells| == |items| &&
                  forall i :: 0 <= i < |items| ==> ToObject(run.cells[i].item, item) == items[i]
    ensures Returns(o, TList(item), h) <==> Survives(TList(item), o)
  {
    hide Conv, ToObject, Survives, CellsBack;
  }

  lemma NoList(o: Py, item: Ty, h: Heap)
    requires Items(o, true).None?
    ensures !Returns(o, TList(item), h) && !Survives(TList(item), o)
  {
  }

  // ---------------------------------------------------------------- tables

  ghost predicate PairSurvives(k: Py, v: Py, key: Ty, value: Ty) {
    Survives(key, k) && Survives(value, v) && !(key.TStr? && k == PyNone)
  }

  ghost predicate EntryReturns(e: Entry, k: Py, v: Py, key: Ty, value: Ty) {
    ToObject(e.key, key) == k && ToObject(Unpack(value, e.value), value) == v
  }

  ghost predicate EntriesReturnAt(keys: seq<Py>, values: seq<Py>, key: Ty, value: Ty, n: nat, r: EntriesRun)
    requires n <= |keys| == |values|
  {
    && (r.outcome.Good? ==> |r.entries| <= n)
    && (r.outcome.Good? && |r.entries| == n &&
        (forall i :: 0 <= i < n ==> EntryReturns(r.entries[i], keys[i], values[i], key, value))
        <==> forall i :: 0 <= i < n ==> PairSurvives(keys[i], values[i], key, value))
  }

  lemma {:induction false} EntriesReturn(keys: seq<Py>, values: seq<Py>, key: Ty, value: Ty, n: nat, h: Heap)
    requires n <= |keys| == |values| && NoDup(keys)
    requires (forall x :: x in keys ==> PythonOk(x)) && (forall x :: x in values ==> PythonOk(x))
    ensures EntriesReturnAt(keys, values, key, value, n, ConvEntries(keys, values, key, value, n, h))
    decreases THash(key, value), 0, n
  {
    hide *;
    if n == 0 {
      EntriesReturnBase(keys, values, key, value, h);
    } else {
      EntriesReturn(keys, values, key, value, n - 1, h);
      var p := ConvEntries(keys, values, key, value, n - 1, h);
      var k, v := keys[n - 1], values[n - 1];
      RoundTripIff(k, key, p.heap);
      RoundTripIff(v, value, Conv(k, key, p.heap).1);
      EntriesUnfold(keys, values, key, value, n, h);
      PairReturns(k, v, key, value, p.heap);
      if p.outcome.Good? && ConvPair(k, v, key, value, p.heap).0.Good? && Conv(k, key, p.heap).0.Good? {
        EntriesOwn(keys, values, key, value, n - 1, h);
        ConvOwns(k, key, p.heap);
        NewKey(keys, values, key, value, n, h, p, Conv(k, key, p.heap).0.value, Conv(k, key, p.heap).1);
      }
      EntriesReturnStep(keys, values, key, value, n, p, ConvEntries(keys, values, key, value, n, h));
    }
  }

  lemma EntriesReturnBase(keys: seq<Py>, values: seq<Py>, key: Ty, value: Ty, h: Heap)
    requires |keys| == |values|
    ensures EntriesReturnAt(keys, values, key, value, 0, ConvEntries(keys, values, key, value, 0, h))
  {
  }

  /** A pair returns, value packed into a pointer and back, exactly when it survives. */
  lemma PairReturns(k: Py, v: Py, key: Ty, value: Ty, h: Heap)
    requires Returns(k, key, h) <==> Survives(key, k)
    requires Returns(v, value, Conv(k, key, h).1) <==> Survives(value, v)
    ensures var pair := ConvPair(k, v, key, value, h).0;
            pair.Good? && EntryReturns(Entry(pair.value.key, Pack(value, pair.value.value)), k, v, key, value)
            <==> PairSurvives(k, v, key, value)
    ensures var pair := ConvPair(k, v, key, value, h).0;
            pair.Good? ==> Conv(k, key, h).0 == Good(pair.value.key) && !(key.TStr? && pair.value.key == Null)
  {
    hide Conv, Pack, Unpack, Survives, ToObject;
    var pair := ConvPair(k, v, key, value, h).0;
    if pair.Good? {
      PackSurvives(value, pair.value.value);
    }
    NullIsNone(k, key, h);
  }

  lemma NullIsNone(o: Py, key: Ty, h: Heap)
    ensures var g := Conv(o, key, h).0;
            key.TStr? && g.Good? ==> (g.value == Null <==> ToObject(g.value, key) == PyNone)
  {
  }

  lemma PackSurvives(ty: Ty, v: CArg)
    ensures ToObject(Unpack(ty, Pack(ty, v)), ty) == ToObject(v, ty)
  {
    if ty.TInt? && v.Raw? && Modulus(ty.tag) <= 0x1_0000_0000 {
      var n := Load(ty.tag, v.cell);
      var packed := Store(Int64, n, 0);
      PointerSurvives(ty.tag, n);
      StoreLoad(ty.tag, n, packed);
      hide Store, Load, Fits;
      assert Pack(ty, v) == Raw(packed);
    }
  }

  /** A surviving key is new to a table of surviving, different keys. */
  lemma NewKey(keys: seq<Py>, values: seq<Py>, key: Ty, value: Ty, n: nat, h: Heap, p: EntriesRun, k: CArg, h1: Heap)
    requires 0 < n <= |keys| == |values| && NoDup(keys) && TableAt(keys, values, key, value, n - 1, h, p)
    requires ConvOwnsAt(keys[n - 1], key, p.heap, k, h1) && !(key.TStr? && k == Null)
    ensures (forall i :: 0 <= i < n ==> Survives(key, keys[i])) ==> Find(p.entries, ImageOf(k)).None?
  {
    KeyImageHolds(keys[n - 1], key, p.heap, k, h1);
    hide Survives, KeyOf, ImageOf, ConvOwnsAt, EntriesOwnAt, Clash;
    if (forall i :: 0 <= i < n ==> Survives(key, keys[i])) && Find(p.entries, ImageOf(k)).Some? {
      var j := Find(p.entries, ImageOf(k)).value;
      OldClash(keys, values, key, value, n, p, k, h1.next, j);
      var l := LastOf(keys, key, n - 1, KeyOf(keys[n - 1], key).value).value;
      SurvivorsDiffer(key, keys[l], keys[n - 1]);
    }
  }

  lemma SurvivorsDiffer(key: Ty, a: Py, b: Py)
    requires Survives(key, a) && Survives(key, b) && a != b && KeyOf(a, key).Some?
    ensures KeyOf(a, key) != KeyOf(b, key)
  {
    match key
    case TInt(tag) =>
      StoreLoad(tag, a.n, 0);
      StoreLoad(tag, b.n, 0);
      hide Store, Load;
    case _ =>
  }

  lemma EntriesReturnStep(keys: seq<Py>, values: seq<Py>, key: Ty, value: Ty, n: nat, p: EntriesRun, r: EntriesRun)
    requires 0 < n <= |keys| == |values| && EntriesReturnAt(keys, values, key, value, n - 1, p)
    requires var g := ConvPair(keys[n - 1], values[n - 1], key, value, p.heap);
             && r == (if p.outcome.Good? then EntriesNext(p, g.0, value, g.1) else p)
             && (g.0.Good? && EntryReturns(Entry(g.0.value.key, Pack(value, g.0.value.value)),
                                           keys[n - 1], values[n - 1], key, value)
                 <==> PairSurvives(keys[n - 1], values[n - 1], key, value))
             && (p.outcome.Good? && g.0.Good? && (forall i :: 0 <= i < n ==> Survives(key, keys[i]))
                 ==> Find(p.entries, ImageOf(g.0.value.key)).None?)
    ensures EntriesReturnAt(keys, values, key, value, n, r)
  {
    hide *;
    var k, v := keys[n - 1], values[n - 1];
    var g := ConvPair(k, v, key, value, p.heap);
    if !p.outcome.Good? || !g.0.Good? {
      StepStops(keys, values, key, value, n, p, g.0, g.1, r);
    } else {
      var e := Entry(g.0.value.key, Pack(value, g.0.value.value));
      InsertGrows(p.entries, e.key, e.value);
      StepRuns(p, g.0, value, g.1);
      if Find(p.entries, ImageOf(e.key)).None? {
        StepAppends(keys, values, key, value, n, p, e, r);
      } else {
        StepReplaces(keys, values, key, value, n, p, r);
      }
    }
  }

  lemma StepRuns(p: EntriesRun, pair: Outcome<Entry>, value: Ty, h: Heap)
    requires pair.Good?
    ensures EntriesNext(p, pair, value, h) ==
        EntriesRun(Good(()), Insert(p.entries, pair.value.key, Pack(value, pair.value.value)), h)
  {
    hide Insert, Pack;
  }

  lemma StepStops(keys: seq<Py>, values: seq<Py>, key: Ty, value: Ty, n: nat, p: EntriesRun, pair: Outcome<Entry>,
                  h: Heap, r: EntriesRun)
    requires 0 < n <= |keys| == |values| && EntriesReturnAt(keys, values, key, value, n - 1, p)
    requires r == if p.outcome.Good? then EntriesNext(p, pair, value, h) else p
    requires !p.outcome.Good? || (!pair.Good? && !PairSurvives(keys[n - 1], values[n - 1], key, value))
    ensures EntriesReturnAt(keys, values, key, value, n, r)
  {
    hide EntryReturns, PairSurvives, Insert, Pack;
  }

  lemma StepAppends(keys: seq<Py>, values: seq<Py>, key: Ty, value: Ty, n: nat, p: EntriesRun, e: Entry, r: EntriesRun)
    requires 0 < n <= |keys| == |values| && EntriesReturnAt(keys, values, key, value, n - 1, p)
    requires p.outcome.Good? && r.outcome.Good? && r.entries == p.entries + [e]
    requires EntryReturns(e, keys[n - 1], values[n - 1], key, value)
             <==> PairSurvives(keys[n - 1], values[n - 1], key, value)
    ensures EntriesReturnAt(keys, values, key, value, n, r)
  {
    hide EntryReturns, PairSurvives;
    if |r.entries| == n {
      AllButLast(keys, values, key, value, n, p.entries, r.entries);
    }
  }

  lemma StepReplaces(keys: seq<Py>, values: seq<Py>, key: Ty, value: Ty, n: nat, p: EntriesRun, r: EntriesRun)
    requires 0 < n <= |keys| == |values| && EntriesReturnAt(keys, values, key, value, n - 1, p)
    requires p.outcome.Good? && r.outcome.Good? && |r.entries| == |p.entries|
    requires !forall i :: 0 <= i < n ==> Survives(key, keys[i])
    ensures EntriesReturnAt(keys, values, key, value, n, r)
  {
    hide EntryReturns, PairSurvives, Survives;
    if forall i :: 0 <= i < n ==> PairSurvives(keys[i], values[i], key, value) {
      forall i | 0 <= i < n ensures Survives(key, keys[i]) {
        KeySurvives(keys[i], values[i], key, value);
      }
    }
  }

  lemma AllButLast(keys: seq<Py>, values: seq<Py>, key: Ty, value: Ty, n: nat, before: seq<Entry>, after: seq<Entry>)
    requires 0 < n <= |keys| == |values| && |before| == n - 1 && |after| == n && after[..n - 1] == before
    ensures (forall i :: 0 <= i < n ==> EntryReturns(after[i], keys[i], values[i], key, value)) <==>
            && (forall i :: 0 <= i < n - 1 ==> EntryReturns(before[i], keys[i], values[i], key, value))
            && EntryReturns(after[n - 1], keys[n - 1], values[n - 1], key, value)
    ensures (forall i :: 0 <= i < n ==> PairSurvives(keys[i], values[i], key, value)) <==>
            && (forall i :: 0 <= i < n - 1 ==> PairSurvives(keys[i], values[i], key, value))
            && PairSurvives(keys[n - 1], values[n - 1], key, value)
  {
    hide EntryReturns, PairSurvives;
    forall i | 0 <= i < n - 1 ensures after[i] == before[i] {}
  }

  lemma KeySurvives(k: Py, v: Py, key: Ty, value: Ty)
    requires PairSurvives(k, v, key, value)
    ensures Survives(key, k)
  {
    hide Survives;
  }

  lemma InsertGrows(entries: seq<Entry>, k: CArg, v: CArg)
    ensures var all := Insert(entries, k, v);
            if Find(entries, ImageOf(k)).None? then all == entries + [Entry(k, v)] else |all| == |entries|
  {
    hide ImageOf;
  }

  lemma TableReturns(o: Py, key: Ty, value: Ty, h: Heap)
    requires o.PyDict? ==> |o.keys| == |o.values|
    requires o.PyDict? ==>
               EntriesReturnAt(o.keys, o.values, key, value, |o.keys|,
                               ConvEntries(o.keys, o.values, key, value, |o.keys|, Alloc(h)))
    ensures Returns(o, THash(key, value), h) <==> Survives(THash(key, value), o)
  {
    if o.PyDict? {
      DictReturns(o.keys, o.values, key, value, h);
    }
  }

  lemma DictReturns(keys: seq<Py>, values: seq<Py>, key: Ty, value: Ty, h: Heap)
    requires |keys| == |values|
    requires EntriesReturnAt(keys, values, key, value, |keys|, ConvEntries(keys, values, key, value, |keys|, Alloc(h)))
    ensures Returns(PyDict(keys, values), THash(key, value), h) <==> Survives(THash(key, value), PyDict(keys, values))
  {
    var run := ConvEntries(keys, values, key, value, |keys|, Alloc(h));
    DictResult(keys, values, key, value, h);
    HshObject(h.next, run.entries, key, value);
    PairsSurvive(keys, values, key, value);
    hide *;
    DictAgrees(run.entries, keys, values, key, value);
    DictReturnsIff(keys, values, key, value, h, run);
  }

  lemma DictReturnsIff(keys: seq<Py>, values: seq<Py>, key: Ty, value: Ty, h: Heap, run: EntriesRun)
    requires |keys| == |values| && EntriesReturnAt(keys, values, key, value, |keys|, run)
    requires var g := Conv(PyDict(keys, values), THash(key, value), h).0;
             && (g.Good? <==> run.outcome.Good?) && (g.Good? ==> g.value == Hsh(h.next, run.entries))
    requires ToObject(Hsh(h.next, run.entries), THash(key, value))
             == PyDict(KeysBack(run.entries, key), ValuesBack(run.entries, value))
    requires (KeysBack(run.entries, key) == keys && ValuesBack(run.entries, value) == values)
             <==> |run.entries| == |keys| &&
                  forall i :: 0 <= i < |keys| ==> EntryReturns(run.entries[i], keys[i], values[i], key, value)
    requires Survives(THash(key, value), PyDict(keys, values)) <==>
             forall i :: 0 <= i < |keys| ==> PairSurvives(keys[i], values[i], key, value)
    ensures Returns(PyDict(keys, values), THash(key, value), h) <==> Survives(THash(key, value), PyDict(keys, values))
  {
    hide Conv, ToObject, EntryReturns, PairSurvives, Survives, KeysBack, ValuesBack;
  }

  function KeysBack(entries: seq<Entry>, key: Ty): seq<Py> {
    ToObjects(seq(|entries|, i requires 0 <= i < |entries| => entries[i].key), key)
  }

  function ValuesBack(entries: seq<Entry>, value: Ty): seq<Py> {
    ToObjects(seq(|entries|, i requires 0 <= i < |entries| => Unpack(value, entries[i].value)), value)
  }

  lemma DictResult(keys: seq<Py>, values: seq<Py>, key: Ty, value: Ty, h: Heap)
    requires |keys| == |values|
    ensures var run := ConvEntries(keys, values, key, value, |keys|, Alloc(h));
            var g := Conv(PyDict(keys, values), THash(key, value), h).0;
            (g.Good? <==> run.outcome.Good?) && (g.Good? ==> g.value == Hsh(h.next, run.entries))
  {
    hide ConvEntries, FreeAll, FreedEntries;
  }

  lemma HshObject(b: nat, entries: seq<Entry>, key: Ty, value: Ty)
    ensures ToObject(Hsh(b, entries), THash(key, value)) == PyDict(KeysBack(entries, key), ValuesBack(entries, value))
  {
    hide Unpack, ToObjects;
  }

  lemma DictAgrees(entries: seq<Entry>, keys: seq<Py>, values: seq<Py>, key: Ty, value: Ty)
    requires |keys| == |values|
    ensures (KeysBack(entries, key) == keys && ValuesBack(entries, value) == values)
            <==> |entries| == |keys| &&
                 forall i :: 0 <= i < |keys| ==> EntryReturns(entries[i], keys[i], values[i], key, value)
  {
    hide *;
    KeysAgree(entries, keys, key);
    ValuesAgree(entries, values, value);
    if |entries| == |keys| {
      EntriesReturnIs(entries, keys, values, key, value);
    }
  }

  lemma KeysAgree(entries: seq<Entry>, keys: seq<Py>, key: Ty)
    ensures KeysBack(entries, key) == keys <==>
            |entries| == |keys| && forall i :: 0 <= i < |keys| ==> ToObject(entries[i].key, key) == keys[i]
  {
    hide ToObject, ToObjects;
    ToObjectsAre(seq(|entries|, i requires 0 <= i < |entries| => entries[i].key), key, keys);
  }

  lemma ValuesAgree(entries: seq<Entry>, values: seq<Py>, value: Ty)
    ensures ValuesBack(entries, value) == values <==>
            |entries| == |values| &&
            forall i :: 0 <= i < |values| ==> ToObject(Unpack(value, entries[i].value), value) == values[i]
  {
    hide ToObject, ToObjects, Unpack;
    ToObjectsAre(seq(|entries|, i requires 0 <= i < |entries| => Unpack(value, entries[i].value)), value, values);
  }

  lemma EntriesReturnIs(entries: seq<Entry>, keys: seq<Py>, values: seq<Py>, key: Ty, value: Ty)
    requires |keys| == |values| == |entries|
    ensures (forall i :: 0 <= i < |keys| ==> EntryReturns(entries[i], keys[i], values[i], key, value)) <==>
            && (forall i :: 0 <= i < |keys| ==> ToObject(entries[i].key, key) == keys[i])
            && (forall i :: 0 <= i < |keys| ==> ToObject(Unpack(value, entries[i].value), value) == values[i])
  {
    hide ToObject, Unpack;
    if forall i :: 0 <= i < |keys| ==> EntryReturns(entries[i], keys[i], values[i], key, value) {
      forall i | 0 <= i < |keys|
        ensures ToObject(entries[i].key, key) == keys[i]
        ensures ToObject(Unpack(value, entries[i].value), value) == values[i]
      {
        assert EntryReturns(entries[i], keys[i], values[i], key, value);
      }
    }
  }

  lemma PairsSurvive(keys: seq<Py>, values: seq<Py>, key: Ty, value: Ty)
    requires |keys| == |values|
    ensures Survives(THash(key, value), PyDict(keys, values)) <==>
            forall i :: 0 <= i < |keys| ==> PairSurvives(keys[i], values[i], key, value)
  {
    if Survives(THash(key, value), PyDict(keys, values)) {
      forall i | 0 <= i < |keys| ensures PairSurvives(keys[i], values[i], key, value) {
        assert keys[i] in keys && values[i] in values;
      }
    }
    if forall i :: 0 <= i < |keys| ==> PairSurvives(keys[i], values[i], key, value) {
      forall x | x in keys ensures Survives(key, x) && !(key.TStr? && x == PyNone) {
        var i :| 0 <= i < |keys| && keys[i] == x;
        assert PairSurvives(keys[i], values[i], key, value);
      }
      forall x | x in values ensures Survives(value, x) {
        var i :| 0 <= i < |values| && values[i] == x;
        assert PairSurvives(keys[i], values[i], key, value);
      }
    }
  }
}
