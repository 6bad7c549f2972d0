/** What an object becomes on its way through C and back. */
module Normal {
  import opened Prelude
  import opened CInts
  import opened Argument
  import opened RoundTrip
  import opened Failures

  /** The smallest value of an integer type and how many there are. */
  function Range(tag: IntTag): (int, nat) {
    match tag
    case Int8 => (-0x80, 0x100)
    case UInt8 => (0, 0x100)
    case Int16 => (-0x8000, 0x1_0000)
    case UInt16 => (0, 0x1_0000)
    case Int32 => (-0x8000_0000, 0x1_0000_0000)
    case UInt32 => (0, 0x1_0000_0000)
    case Int64 => (-0x8000_0000_0000_0000, 0x1_0000_0000_0000_0000)
    case UInt64 => (0, 0x1_0000_0000_0000_0000)
  }

  lemma FitsRange(tag: IntTag, n: int)
    ensures var (low, count) := Range(tag);
            Fits(tag, n) <==> low <= n < low + count
  {
  }

  /** The value of the type that agrees with `n` modulo its width. */
  function Wrapped(tag: IntTag, n: int): int {
    var (low, count) := Range(tag);
    low + (n - low) % count
  }

  /** A number that does not fit wraps around. */
  lemma StoreWraps(tag: IntTag, n: int)
    ensures Load(tag, Store(tag, n, 0)) == Wrapped(tag, n)
  {
    var (low, count) := Range(tag);
    RangeIs(tag);
    StoreZero(tag, n);
    Halves(n, count);
    hide Modulus, Range, Signed;
  }

  lemma RangeIs(tag: IntTag)
    ensures Range(tag).1 == Modulus(tag) > 0 && Modulus(tag) % 2 == 0
    ensures Range(tag).0 == if Signed(tag) then -(Modulus(tag) / 2) else 0
  {
  }

  lemma StoreZero(tag: IntTag, n: int)
    ensures Modulus(tag) > 0 && Store(tag, n, 0) % Modulus(tag) == n % Modulus(tag)
  {
    ModAdd(0, Modulus(tag), n % Modulus(tag));
    ModAdd(0, Modulus(tag), 0);
    hide Modulus;
  }

  lemma Halves(n: int, m: nat)
    requires m > 0 && m % 2 == 0
    ensures (n + m / 2) % m == if n % m < m / 2 then n % m + m / 2 else n % m - m / 2
  {
    var q, r := n / m, n % m;
    assert n == q * m + r;
    if r < m / 2 {
      ModAdd(q, m, r + m / 2);
    } else {
      assert (q + 1) * m == q * m + m;
      ModAdd(q + 1, m, r - m / 2);
    }
  }

  /** The items as objects: those of a list, the numbers of a bytes object, the characters of a string. */
  ghost predicate HasItems(o: Py, items: seq<Py>) {
    match o
    case PyList(xs) => items == xs
    case PyBytes(b) => |items| == |b| && forall i :: 0 <= i < |b| ==> items[i] == PyInt(b[i])
    case PyStr(s) => |items| == |s| && forall i :: 0 <= i < |s| ==> items[i] == PyStr([s[i]])
    case _ => false
  }

  /** `back` is what `o` comes back as, for types without tables: any object as its truth, numbers modulo the width of
      their type, strings up to the first NUL, containers item by item, and None as None, false, or an empty list. */
  ghost predicate ComesBackAs(o: Py, ty: Ty, back: Py)
    decreases ty
  {
    match ty
    case TBool =>
      back == PyBool(!(o in {PyNone, PyBool(false), PyInt(0), PyStr(""), PyBytes([]), PyList([])}
                       || (o.PyDict? && o.keys == [])))
    case TInt(tag) => back == PyInt(Wrapped(tag, if o.PyInt? then o.n else if o == PyBool(true) then 1 else 0))
    case TStr =>
      if o == PyNone then back == PyNone
      else o.PyStr? && back.PyStr? && back.s <= o.s && '\0' !in back.s && (back.s == o.s || o.s[|back.s|] == '\0')
    case TArray(item) =>
      if o == PyNone then back == PyList([])
      else
        exists items :: HasItems(o, items) &&
          if item == TInt(UInt8) then
            back.PyBytes? && |back.bytes| == |items|
            && forall i :: 0 <= i < |items| ==> ComesBackAs(items[i], item, PyInt(back.bytes[i]))
          else
            back.PyList? && |back.items| == |items|
            && forall i :: 0 <= i < |items| ==> ComesBackAs(items[i], item, back.items[i])
    case TList(item) =>
      if o == PyNone then back == PyList([])
      else
        exists items :: HasItems(o, items) && back.PyList? && |back.items| == |items|
          && forall i :: 0 <= i < |items| ==> ComesBackAs(items[i], item, back.items[i])
    case _ => false
  }

  lemma {:induction false} ComesBack(o: Py, ty: Ty, h: Heap)
    requires Accepts(o, ty) && !HasTable(ty)
    ensures Conv(o, ty, h).0.Good? && ComesBackAs(o, ty, ToObject(Conv(o, ty, h).0.value, ty))
    decreases ty, 1
  {
    hide *;
    OutcomeIff(o, ty, h);
    match ty
    case TArray(item) =>
      InsideArray(o, item);
      if o != PyNone {
        var items := Items(o, false).value;
        ItemsBack(items, item, Alloc(h));
        ArrayResult(o, items, item, h);
        var done := ConvItems(items, item, |items|, Alloc(h)).done;
        ArrayBack(o, items, item, h.next, done);
      } else {
        NullBack(ty, h);
      }
    case TList(item) =>
      InsideList(o, item);
      if o != PyNone {
        var items := Items(o, true).value;
        CellsBackAs(items, item, h);
        ListResult(o, items, item, h);
        var cells := ConvCells(items, item, 0, h).cells;
        ListBack(o, items, item, cells);
      } else {
        NullBack(ty, h);
      }
    case _ => LeafBack(o, ty, h);
  }

  lemma NullBack(ty: Ty, h: Heap)
    requires ty.TArray? || ty.TList?
    ensures Conv(PyNone, ty, h).0 == Good(Null) && ComesBackAs(PyNone, ty, ToObject(Null, ty))
  {
  }

  lemma LeafBack(o: Py, ty: Ty, h: Heap)
    requires Accepts(o, ty) && !HasTable(ty) && !ty.TArray? && !ty.TList?
    ensures Conv(o, ty, h).0.Good? ==> ComesBackAs(o, ty, ToObject(Conv(o, ty, h).0.value, ty))
  {
    if ty.TInt? {
      var n := AsLong(o).value;
      StoreWraps(ty.tag, n);
      hide Store, Load, Wrapped, Converts;
    } else {
      BoolLoads();
      hide Load, Truth;
      TruthIs(o);
    }
  }

  lemma TruthIs(o: Py)
    ensures !Truth(o) <==> o in {PyNone, PyBool(false), PyInt(0), PyStr(""), PyBytes([]), PyList([])}
                           || (o.PyDict? && o.keys == [])
  {
  }

  lemma InsideArray(o: Py, item: Ty)
    requires Accepts(o, TArray(item)) && !HasTable(TArray(item))
    ensures !HasTable(item)
    ensures o != PyNone ==> Items(o, false).Some? && HasItems(o, Items(o, false).value)
                            && forall x :: x in Items(o, false).value ==> Accepts(x, item)
  {
  }

  lemma InsideList(o: Py, item: Ty)
    requires Accepts(o, TList(item)) && !HasTable(TList(item))
    ensures !HasTable(item)
    ensures o != PyNone ==> Items(o, true).Some? && HasItems(o, Items(o, true).value)
                            && forall x :: x in Items(o, true).value ==> Accepts(x, item)
  {
  }

  lemma {:induction false} ItemsBack(items: seq<Py>, ty: Ty, h: Heap)
    requires !HasTable(ty) && forall x :: x in items ==> Accepts(x, ty)
    ensures var r := ConvItems(items, ty, |items|, h);
            && r.outcome.Good? && |r.done| == |items|
            && forall i :: 0 <= i < |items| ==> ComesBackAs(items[i], ty, ToObject(r.done[i], ty))
    decreases ty, 2
  {
    hide *;
    ItemsUnfoldEmpty(items, ty, h);
    for n := 0 to |items|
      invariant var r := ConvItems(items, ty, n, h);
                && r.outcome.Good? && |r.done| == n
                && forall i :: 0 <= i < n ==> ComesBackAs(items[i], ty, ToObject(r.done[i], ty))
    {
      var p := ConvItems(items, ty, n, h);
      ComesBack(items[n], ty, p.heap);
      ItemsUnfold(items, ty, n + 1, h);
      GoodItem(p, Conv(items[n], ty, p.heap).0, Conv(items[n], ty, p.heap).1);
    }
  }

  lemma GoodItem(p: ItemsRun, g: Outcome<CArg>, h1: Heap)
    requires g.Good?
    ensures ItemsNext(p, g, h1) == ItemsRun(Good(()), p.done + [g.value], h1)
  {
  }

  lemma ArrayBack(o: Py, items: seq<Py>, item: Ty, b: nat, done: seq<CArg>)
    requires o != PyNone && HasItems(o, items) && |done| == |items|
    requires forall i :: 0 <= i < |items| ==> ComesBackAs(items[i], item, ToObject(done[i], item))
    ensures ComesBackAs(o, TArray(item), ToObject(Arr(b, done), TArray(item)))
  {
    hide HasItems;
    if item == TInt(UInt8) {
      hide Wrapped, Load;
      forall i | 0 <= i < |done| ensures done[i].Raw? && ToObject(done[i], item) == PyInt(Load(UInt8, done[i].cell)) {
        assert ComesBackAs(items[i], item, ToObject(done[i], item));
      }
    } else {
      ArrObject(b, done, item);
      var back := ToObject(Arr(b, done), TArray(item));
      forall i | 0 <= i < |items| ensures back.items[i] == ToObject(done[i], item) {
        ToObjectsAt(done, item, i);
      }
      hide ToObject, ToObjects;
    }
  }

  lemma {:induction false} CellsBackAs(items: seq<Py>, ty: Ty, h: Heap)
    requires !HasTable(ty) && forall x :: x in items ==> Accepts(x, ty)
    ensures var r := ConvCells(items, ty, 0, h);
            && r.outcome.Good? && |r.cells| == |items|
            && forall i :: 0 <= i < |items| ==> ComesBackAs(items[i], ty, ToObject(r.cells[i].item, ty))
    decreases ty, 2
  {
    hide *;
    CellsUnfoldEmpty(items, ty, h);
    for n := |items| downto 0
      invariant var r := ConvCells(items, ty, n, h);
                && r.outcome.Good? && |r.cells| == |items| - n
                && forall i {:trigger items[i]} :: n <= i < |items| ==>
                     ComesBackAs(items[i], ty, ToObject(r.cells[i - n].item, ty))
    {
      var p := ConvCells(items, ty, n + 1, h);
      ComesBack(items[n], ty, p.heap);
      CellsUnfold(items, ty, n, h);
      GoodCell(p, Conv(items[n], ty, p.heap).0, Conv(items[n], ty, p.heap).1);
    }
  }

  lemma GoodCell(p: CellsRun, g: Outcome<CArg>, h1: Heap)
    requires g.Good?
    ensures CellsNext(p, g, h1) == CellsRun(Good(()), [Cell(h1.next, g.value)] + p.cells, Alloc(h1))
  {
  }

  lemma ListBack(o: Py, items: seq<Py>, item: Ty, cells: seq<Cell>)
    requires o != PyNone && HasItems(o, items) && |cells| == |items|
    requires forall i :: 0 <= i < |items| ==> ComesBackAs(items[i], item, ToObject(cells[i].item, item))
    ensures ComesBackAs(o, TList(item), ToObject(if cells == [] then Null else Lst(cells), TList(item)))
  {
    LstObject(cells, item);
    var args := seq(|cells|, i requires 0 <= i < |cells| => cells[i].item);
    forall i | 0 <= i < |items| ensures ToObjects(args, item)[i] == ToObject(cells[i].item, item) {
      ToObjectsAt(args, item, i);
    }
    hide HasItems, ToObject, ToObjects;
  }

  // ---------------------------------------------------------------- the checker

  /** Which objects the checker accepts where None is not allowed; inside containers it always is. */
  lemma CheckedIff(ty: Ty, o: Py)
    ensures Checks(ty, o, true) <==> o == PyNone || Checks(ty, o, false)
    ensures Checks(ty, o, false) <==>
            match ty
            case TBool => true
            case TInt(tag) =>
              || o.PyBool? || (o.PyInt? && Range(tag).0 <= o.n < Range(tag).0 + Range(tag).1)
              || (tag in {Int8, UInt8} && o.PyBytes? && |o.bytes| == 1)
            case TStr => o.PyStr?
            case TArray(item) =>
              exists items :: HasItems(o, items) && forall i :: 0 <= i < |items| ==> Checks(item, items[i], true)
            case TList(item) =>
              exists items :: HasItems(o, items) && forall i :: 0 <= i < |items| ==> Checks(item, items[i], true)
            case THash(key, value) =>
              && o.PyDict? && |o.keys| == |o.values|
              && forall i :: 0 <= i < |o.keys| ==> Checks(key, o.keys[i], true) && Checks(value, o.values[i], true)
  {
    if ty.TInt? {
      NumberChecked(ty.tag, o);
      hide Fits, Range;
    } else if (ty.TArray? || ty.TList?) {
      OwnItems(o);
    }
  }

  lemma NumberChecked(tag: IntTag, o: Py)
    ensures AsLong(o).Some? && Fits(tag, AsLong(o).value) <==>
            o.PyBool? || (o.PyInt? && Range(tag).0 <= o.n < Range(tag).0 + Range(tag).1)
  {
    if o.PyInt? {
      FitsRange(tag, o.n);
    }
  }

  lemma OwnItems(o: Py)
    ensures forall items :: HasItems(o, items) <==> Items(o, true) == Some(items)
  {
    forall items ensures HasItems(o, items) <==> Items(o, true) == Some(items) {
      if HasItems(o, items) && !o.PyList? {
        assert items == Items(o, true).value;
      }
    }
  }
}
