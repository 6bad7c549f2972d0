/** Type-directed conversion between Python objects and C arguments: `gi/pygi-argument.c`. */
module Argument {
  import opened Prelude
  import opened CInts

  datatype Transfer = Nothing | Container | Everything

  datatype Ty = TBool | TInt(tag: IntTag) | TStr | TArray(item: Ty) | TList(item: Ty) | THash(key: Ty, value: Ty)

  /** `PyDict` lists the items in the order `PyMapping_Keys` reports. */
  datatype Py = PyNone | PyBool(b: bool) | PyInt(n: int) | PyStr(s: string) | PyBytes(bytes: seq<int>)
              | PyList(items: seq<Py>) | PyDict(keys: seq<Py>, values: seq<Py>)

  /** A GIArgument: a raw cell, or a pointer to blocks named by their ids. A list owns one block per cell;
      the empty list is the null pointer. */
  datatype CArg = Raw(cell: int) | Null | Str(block: nat, text: string) | Arr(block: nat, items: seq<CArg>)
                | Lst(cells: seq<Cell>) | Hsh(block: nat, entries: seq<Entry>)
  datatype Cell = Cell(block: nat, item: CArg)
  datatype Entry = Entry(key: CArg, value: CArg)

  /** Ids from `next` on are unused; `live` are allocated and not freed; `freed` counts every free. */
  datatype Heap = Heap(next: nat, live: set<nat>, freed: multiset<nat>)

  function Alloc(h: Heap): Heap { Heap(h.next + 1, h.live + {h.next}, h.freed) }

  function FreeAll(h: Heap, blocks: multiset<nat>): Heap {
    Heap(h.next, (set x | x in h.live && x !in blocks), h.freed + blocks)
  }

  /** `Undefined`: the source follows a pointer of the wrong type or a null string. */
  datatype Outcome<T> = Good(value: T) | Bad | Undefined

  // ---------------------------------------------------------------- release, direction IN

  function Freed(arg: CArg, ty: Ty, transfer: Transfer): multiset<nat>
    decreases ty, 1, 0
  {
    match (ty, arg)
    case (TStr, Str(b, _)) => if transfer == Nothing then multiset{b} else multiset{}
    case (TArray(item), Arr(b, items)) =>
      (if transfer != Everything then FreedItems(items, item, |items|) else multiset{})
      + if transfer == Nothing then multiset{b} else multiset{}
    case (TList(item), Lst(cells)) =>
      (if transfer != Everything then FreedCellItems(cells, item, |cells|) else multiset{})
      + if transfer == Nothing then CellBlocks(cells, |cells|) else multiset{}
    case (THash(key, value), Hsh(b, entries)) =>
      (if transfer != Everything then FreedEntries(entries, key, value, |entries|) else multiset{})
      + if transfer == Nothing then multiset{b} else multiset{}
    case _ => multiset{}
  }

  function FreedItems(items: seq<CArg>, ty: Ty, n: nat): multiset<nat>
    requires n <= |items|
    decreases ty, 2, n
  {
    if n == 0 then multiset{} else FreedItems(items, ty, n - 1) + Freed(items[n - 1], ty, Nothing)
  }

  function FreedCellItems(cells: seq<Cell>, ty: Ty, n: nat): multiset<nat>
    requires n <= |cells|
    decreases ty, 2, n
  {
    if n == 0 then multiset{} else FreedCellItems(cells, ty, n - 1) + Freed(cells[n - 1].item, ty, Nothing)
  }

  function CellBlocks(cells: seq<Cell>, n: nat): multiset<nat>
    requires n <= |cells|
  {
    if n == 0 then multiset{} else CellBlocks(cells, n - 1) + multiset{cells[n - 1].block}
  }

  function FreedEntries(entries: seq<Entry>, key: Ty, value: Ty, n: nat): multiset<nat>
    requires n <= |entries|
    decreases THash(key, value), 0, n
  {
    if n == 0 then multiset{}
    else FreedEntries(entries, key, value, n - 1)
         + Freed(entries[n - 1].key, key, Nothing) + Freed(entries[n - 1].value, value, Nothing)
  }

  // ---------------------------------------------------------------- from Python

  function Truth(o: Py): bool {
    match o
    case PyNone => false
    case PyBool(b) => b
    case PyInt(n) => n != 0
    case PyStr(s) => s != ""
    case PyBytes(b) => b != []
    case PyList(items) => items != []
    case PyDict(keys, _) => keys != []
  }

  /** `PyNumber_Long` on the objects modelled here. */
  function AsLong(o: Py): Option<int> {
    match o
    case PyInt(n) => Some(n)
    case PyBool(b) => Some(if b then 1 else 0)
    case _ => None
  }

  /** What a C long, or an unsigned long long, can hold before the member of type `tag` is assigned. */
  predicate Converts(tag: IntTag, n: int) {
    if Signed(tag) then Fits(Int64, n) else Fits(UInt64, n)
  }

  /** The C string ends at the first NUL. */
  function CText(s: string): (r: string)
    ensures r <= s && '\0' !in r && (r == s || s[|r|] == '\0')
  {
    if s == "" || s[0] == '\0' then "" else [s[0]] + CText(s[1..])
  }

  function Chars(s: string): seq<Py> { seq(|s|, i requires 0 <= i < |s| => PyStr([s[i]])) }

  function Ints(b: seq<int>): seq<Py> { seq(|b|, i requires 0 <= i < |b| => PyInt(b[i])) }

  /** The items of a sequence; strings are refused where the source refuses them. */
  function Items(o: Py, stringsToo: bool): Option<seq<Py>> {
    match o
    case PyList(items) => Some(items)
    case PyBytes(b) => Some(Ints(b))
    case PyStr(s) => if stringsToo then Some(Chars(s)) else None
    case _ => None
  }

  /** The pointer stored in a table for a value: integers up to 32 bits are packed into it. */
  function Pack(ty: Ty, v: CArg): CArg {
    match (ty, v)
    case (TInt(tag), Raw(cell)) =>
      if Modulus(tag) <= 0x1_0000_0000 then Raw(Store(Int64, Load(tag, cell), 0)) else v
    case _ => v
  }

  /** `_pygi_hash_pointer_to_arg`: the low bytes are assigned from the pointer taken as a 32-bit integer. */
  function Unpack(ty: Ty, v: CArg): CArg {
    match (ty, v)
    case (TInt(tag), Raw(cell)) =>
      if Modulus(tag) <= 0x1_0000_0000
        then Raw(Store(tag, Load(if Signed(tag) then Int32 else UInt32, cell), cell)) else v
    case _ => v
  }

  /** What a table compares: strings by text, everything else by pointer value. */
  datatype KeyImage = Text(s: string) | CellValue(cell: int) | NullPointer | Pointer(block: nat)

  function ImageOf(key: CArg): KeyImage {
    match key
    case Str(_, s) => Text(s)
    case Raw(cell) => CellValue(cell)
    case Arr(b, _) => Pointer(b)
    case Hsh(b, _) => Pointer(b)
    case Lst(cells) => if cells == [] then NullPointer else Pointer(cells[0].block)
    case Null => NullPointer
  }

  function Find(entries: seq<Entry>, image: KeyImage): (r: Option<nat>)
    ensures r.Some? ==> r.value < |entries| && ImageOf(entries[r.value].key) == image
                        && forall i :: 0 <= i < r.value ==> ImageOf(entries[i].key) != image
    ensures r.None? ==> forall i :: 0 <= i < |entries| ==> ImageOf(entries[i].key) != image
  {
    if entries == [] then None
    else if ImageOf(entries[0].key) == image then Some(0)
    else match Find(entries[1..], image)
      case None => assert forall i :: 1 <= i < |entries| ==> entries[i] == entries[1..][i - 1]; None
      case Some(i) => Some(i + 1)
  }

  /** `g_hash_table_insert` without destroy functions: an equal key keeps its old pointer, its value is replaced. */
  function Insert(entries: seq<Entry>, key: CArg, value: CArg): seq<Entry> {
    match Find(entries, ImageOf(key))
    case None => entries + [Entry(key, value)]
    case Some(i) => entries[i := Entry(entries[i].key, value)]
  }

  function Conv(o: Py, ty: Ty, h: Heap): (Outcome<CArg>, Heap)
    decreases ty, 1, 0
  {
    match ty
    case TBool => (Good(Raw(if Truth(o) then 1 else 0)), h)
    case TInt(tag) =>
      (match AsLong(o)
       case None => (Bad, h)
       case Some(n) => if Converts(tag, n) then (Good(Raw(Store(tag, n, 0))), h) else (Bad, h))
    case TStr =>
      (match o
       case PyNone => (Good(Null), h)
       case PyStr(s) => (Good(Str(h.next, CText(s))), Alloc(h))
       case _ => (Bad, h))
    case TArray(item) =>
      if o == PyNone then (Good(Null), h)
      else (match Items(o, false)
            case None => (Bad, h)
            case Some(items) =>
              var r := ConvItems(items, item, |items|, Alloc(h));
              match r.outcome
              case Good(_) => (Good(Arr(h.next, r.done)), r.heap)
              case Undefined => (Undefined, r.heap)
              case Bad => (Bad, FreeAll(r.heap, FreedItems(r.done, item, |r.done|) + multiset{h.next})))
    case TList(item) =>
      if o == PyNone then (Good(Null), h)
      else (match Items(o, true)
            case None => (Bad, h)
            case Some(items) =>
              var r := ConvCells(items, item, 0, h);
              match r.outcome
              case Good(_) => (Good(if r.cells == [] then Null else Lst(r.cells)), r.heap)
              case Undefined => (Undefined, r.heap)
              case Bad => (Bad, FreeAll(r.heap, FreedCellItems(r.cells, item, |r.cells|)
                                            + CellBlocks(r.cells, |r.cells|))))
    case THash(key, value) =>
      (match o
       case PyNone => (Good(Null), h)
       case PyDict(keys, values) =>
         if |keys| != |values| then (Bad, h)
         else
           var r := ConvEntries(keys, values, key, value, |keys|, Alloc(h));
           (match r.outcome
            case Good(_) => (Good(Hsh(h.next, r.entries)), r.heap)
            case Undefined => (Undefined, r.heap)
            case Bad => (Bad, FreeAll(r.heap, FreedEntries(r.entries, key, value, |r.entries|) + multiset{h.next})))
       case _ => (Bad, h))
  }

  /** The items converted before the first failure, if any. */
  datatype ItemsRun = ItemsRun(outcome: Outcome<()>, done: seq<CArg>, heap: Heap)

  function ConvItems(items: seq<Py>, ty: Ty, n: nat, h: Heap): ItemsRun
    requires n <= |items|
    decreases ty, 2, n
  {
    if n == 0 then ItemsRun(Good(()), [], h)
    else
      var r := ConvItems(items, ty, n - 1, h);
      if !r.outcome.Good? then r
      else match Conv(items[n - 1], ty, r.heap)
        case (Good(v), h') => ItemsRun(Good(()), r.done + [v], h')
        case (Bad, h') => ItemsRun(Bad, r.done, h')
        case (Undefined, h') => ItemsRun(Undefined, r.done, h')
  }

  datatype CellsRun = CellsRun(outcome: Outcome<()>, cells: seq<Cell>, heap: Heap)

  /** Lists are built back to front: `items[from..]` were prepended. */
  function ConvCells(items: seq<Py>, ty: Ty, from: nat, h: Heap): CellsRun
    requires from <= |items|
    decreases ty, 2, |items| - from
  {
    if from == |items| then CellsRun(Good(()), [], h)
    else
      var r := ConvCells(items, ty, from + 1, h);
      if !r.outcome.Good? then r
      else match Conv(items[from], ty, r.heap)
        case (Good(v), h') => CellsRun(Good(()), [Cell(h'.next, v)] + r.cells, Alloc(h'))
        case (Bad, h') => CellsRun(Bad, r.cells, h')
        case (Undefined, h') => CellsRun(Undefined, r.cells, h')
  }

  datatype EntriesRun = EntriesRun(outcome: Outcome<()>, entries: seq<Entry>, heap: Heap)

  predicate IsPointer(key: CArg) { key != Null && key != Raw(0) }

  /** When a value fails, its key is released as if it were a table, which is sound only for a null pointer;
      a null string cannot be hashed. */
  function ConvEntries(keys: seq<Py>, values: seq<Py>, kty: Ty, vty: Ty, n: nat, h: Heap): EntriesRun
    requires n <= |keys| == |values|
    decreases THash(kty, vty), 0, n
  {
    if n == 0 then EntriesRun(Good(()), [], h)
    else
      var r := ConvEntries(keys, values, kty, vty, n - 1, h);
      if !r.outcome.Good? then r
      else match Conv(keys[n - 1], kty, r.heap)
        case (Bad, h1) => EntriesRun(Bad, r.entries, h1)
        case (Undefined, h1) => EntriesRun(Undefined, r.entries, h1)
        case (Good(k), h1) =>
          match Conv(values[n - 1], vty, h1)
          case (Bad, h2) => EntriesRun(if IsPointer(k) then Undefined else Bad, r.entries, h2)
          case (Undefined, h2) => EntriesRun(Undefined, r.entries, h2)
          case (Good(v), h2) =>
            if kty.TStr? && k == Null then EntriesRun(Undefined, r.entries, h2)
            else EntriesRun(Good(()), Insert(r.entries, k, Pack(vty, v)), h2)
  }

  // ---------------------------------------------------------------- one item more

  function ItemsNext(p: ItemsRun, g: Outcome<CArg>, h1: Heap): ItemsRun {
    match g
    case Good(v) => ItemsRun(Good(()), p.done + [v], h1)
    case Bad => ItemsRun(Bad, p.done, h1)
    case Undefined => ItemsRun(Undefined, p.done, h1)
  }

  lemma ItemsUnfold(items: seq<Py>, ty: Ty, n: nat, h: Heap)
    requires 0 < n <= |items|
    ensures var p := ConvItems(items, ty, n - 1, h);
            ConvItems(items, ty, n, h) ==
            if p.outcome.Good?
              then ItemsNext(p, Conv(items[n - 1], ty, p.heap).0, Conv(items[n - 1], ty, p.heap).1) else p
  {
    hide Conv;
  }

  function CellsNext(p: CellsRun, g: Outcome<CArg>, h1: Heap): CellsRun {
    match g
    case Good(v) => CellsRun(Good(()), [Cell(h1.next, v)] + p.cells, Alloc(h1))
    case Bad => CellsRun(Bad, p.cells, h1)
    case Undefined => CellsRun(Undefined, p.cells, h1)
  }

  lemma CellsUnfold(items: seq<Py>, ty: Ty, from: nat, h: Heap)
    requires from < |items|
    ensures var p := ConvCells(items, ty, from + 1, h);
            ConvCells(items, ty, from, h) ==
            if p.outcome.Good?
              then CellsNext(p, Conv(items[from], ty, p.heap).0, Conv(items[from], ty, p.heap).1) else p
  {
    hide Conv;
  }

  function EntriesNext(p: EntriesRun, pair: Outcome<Entry>, vty: Ty, h: Heap): EntriesRun {
    match pair
    case Good(e) => EntriesRun(Good(()), Insert(p.entries, e.key, Pack(vty, e.value)), h)
    case Bad => EntriesRun(Bad, p.entries, h)
    case Undefined => EntriesRun(Undefined, p.entries, h)
  }

  function ConvPair(k: Py, v: Py, kty: Ty, vty: Ty, h: Heap): (Outcome<Entry>, Heap) {
    match Conv(k, kty, h)
    case (Bad, h1) => (Bad, h1)
    case (Undefined, h1) => (Undefined, h1)
    case (Good(kv), h1) =>
      match Conv(v, vty, h1)
      case (Bad, h2) => (if IsPointer(kv) then Undefined else Bad, h2)
      case (Undefined, h2) => (Undefined, h2)
      case (Good(vv), h2) => (if kty.TStr? && kv == Null then Undefined else Good(Entry(kv, vv)), h2)
  }

  lemma PairIs(k: Py, v: Py, key: Ty, value: Ty, h: Heap)
    ensures var (kr, h1) := Conv(k, key, h);
            var (vr, h2) := Conv(v, value, h1);
            ConvPair(k, v, key, value, h) ==
            if !kr.Good? then (if kr.Bad? then Bad else Undefined, h1)
            else if !vr.Good? then (if vr.Bad? && !IsPointer(kr.value) then Bad else Undefined, h2)
            else (if key.TStr? && kr.value == Null then Undefined else Good(Entry(kr.value, vr.value)), h2)
  {
    hide Conv, IsPointer;
  }

  lemma EntriesUnfold(keys: seq<Py>, values: seq<Py>, kty: Ty, vty: Ty, n: nat, h: Heap)
    requires 0 < n <= |keys| == |values|
    ensures var p := ConvEntries(keys, values, kty, vty, n - 1, h);
            var pair := ConvPair(keys[n - 1], values[n - 1], kty, vty, p.heap);
            ConvEntries(keys, values, kty, vty, n, h) ==
            if p.outcome.Good? then EntriesNext(p, pair.0, vty, pair.1) else p
  {
    hide Conv, Insert, Pack;
  }

  lemma ItemsUnfoldEmpty(items: seq<Py>, ty: Ty, h: Heap)
    ensures ConvItems(items, ty, 0, h) == ItemsRun(Good(()), [], h)
  {
  }

  lemma CellsUnfoldEmpty(items: seq<Py>, ty: Ty, h: Heap)
    ensures ConvCells(items, ty, |items|, h) == CellsRun(Good(()), [], h)
  {
  }

  lemma EntriesUnfoldEmpty(keys: seq<Py>, values: seq<Py>, kty: Ty, vty: Ty, h: Heap)
    requires |keys| == |values|
    ensures ConvEntries(keys, values, kty, vty, 0, h) == EntriesRun(Good(()), [], h)
  {
  }

  // ---------------------------------------------------------------- nothing after a failure

  lemma {:induction false} ItemsStop(items: seq<Py>, ty: Ty, i: nat, n: nat, h: Heap)
    requires i <= n <= |items| && !ConvItems(items, ty, i, h).outcome.Good?
    ensures ConvItems(items, ty, n, h) == ConvItems(items, ty, i, h)
  {
    if i < n {
      ItemsStop(items, ty, i, n - 1, h);
    }
  }

  lemma {:induction false} CellsStop(items: seq<Py>, ty: Ty, from: nat, i: nat, h: Heap)
    requires from <= i <= |items| && !ConvCells(items, ty, i, h).outcome.Good?
    ensures ConvCells(items, ty, from, h) == ConvCells(items, ty, i, h)
    decreases i - from
  {
    if from < i {
      CellsStop(items, ty, from + 1, i, h);
    }
  }

  lemma {:induction false} EntriesStop(keys: seq<Py>, values: seq<Py>, key: Ty, value: Ty, i: nat, n: nat, h: Heap)
    requires i <= n <= |keys| == |values| && !ConvEntries(keys, values, key, value, i, h).outcome.Good?
    ensures ConvEntries(keys, values, key, value, n, h) == ConvEntries(keys, values, key, value, i, h)
  {
    if i < n {
      EntriesStop(keys, values, key, value, i, n - 1, h);
    }
  }

  // ---------------------------------------------------------------- to Python

  function ToObject(arg: CArg, ty: Ty): Py
    decreases ty, 1, 0
  {
    match (ty, arg)
    case (TBool, Raw(cell)) => PyBool(Load(Int32, cell) != 0)
    case (TInt(tag), Raw(cell)) => PyInt(Load(tag, cell))
    case (TStr, Str(_, s)) => PyStr(s)
    case (TArray(item), Arr(_, items)) =>
      if item == TInt(UInt8) then PyBytes(seq(|items|, i requires 0 <= i < |items| =>
                                if items[i].Raw? then Load(UInt8, items[i].cell) else 0))
      else PyList(ToObjects(items, item))
    case (TArray(_), _) => PyList([])
    case (TList(item), Lst(cells)) =>
      PyList(ToObjects(seq(|cells|, i requires 0 <= i < |cells| => cells[i].item), item))
    case (TList(_), _) => PyList([])
    case (THash(key, value), Hsh(_, entries)) =>
      PyDict(ToObjects(seq(|entries|, i requires 0 <= i < |entries| => entries[i].key), key),
             ToObjects(seq(|entries|, i requires 0 <= i < |entries| => Unpack(value, entries[i].value)), value))
    case _ => PyNone
  }

  function ToObjects(args: seq<CArg>, ty: Ty): (r: seq<Py>)
    ensures |r| == |args|
    decreases ty, 2, |args|
  {
    if args == [] then [] else [ToObject(args[0], ty)] + ToObjects(args[1..], ty)
  }

  lemma {:induction false} ToObjectsAt(args: seq<CArg>, ty: Ty, i: nat)
    requires i < |args|
    ensures ToObjects(args, ty)[i] == ToObject(args[i], ty)
  {
    if i > 0 {
      ToObjectsAt(args[1..], ty, i - 1);
    }
  }

  // ---------------------------------------------------------------- the checker

  /** `_pygi_g_type_info_check_object`: 1 is acceptance. Items and entries may always be None. */
  predicate Checks(ty: Ty, o: Py, allowNone: bool)
    decreases ty
  {
    (allowNone && o == PyNone) ||
    match ty
    case TBool => true
    case TInt(tag) =>
      || ((tag == Int8 || tag == UInt8) && o.PyBytes? && |o.bytes| == 1)
      || (AsLong(o).Some? && Fits(tag, AsLong(o).value))
    case TStr => o.PyStr?
    case TArray(item) => Items(o, true).Some? && forall x :: x in Items(o, true).value ==> Checks(item, x, true)
    case TList(item) => Items(o, true).Some? && forall x :: x in Items(o, true).value ==> Checks(item, x, true)
    case THash(key, value) =>
      o.PyDict? && |o.keys| == |o.values|
      && (forall x :: x in o.keys ==> Checks(key, x, true)) && (forall x :: x in o.values ==> Checks(value, x, true))
  }
}
