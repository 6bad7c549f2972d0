/** The conversions of `gi/pygi-argument.c` as they run: containers built and torn down by loops over one allocator. */
module ArgumentObject {
  import opened CInts
  import opened Argument

  lemma FreeAllTwice(h: Heap, a: multiset<nat>, b: multiset<nat>)
    ensures FreeAll(FreeAll(h, a), b) == FreeAll(h, a + b)
    ensures FreeAll(h, multiset{}) == h
  {
    assert h.freed + a + b == h.freed + (a + b);
    assert FreeAll(FreeAll(h, a), b).live == FreeAll(h, a + b).live;
  }

  /** A run that stopped stays stopped. */
  class Allocator {
    var next: nat
    var live: set<nat>
    var freed: multiset<nat>

    function State(): Heap reads this { Heap(next, live, freed) }

    method Allocate() returns (block: nat)
      modifies this
      ensures State() == Alloc(old(State())) && block == old(next)
    {
      block := next;
      live := live + {next};
      next := next + 1;
    }

    method Free(block: nat)
      modifies this
      ensures State() == FreeAll(old(State()), multiset{block})
    {
      live := live - {block};
      freed := freed + multiset{block};
      assert live == set x | x in old(live) && x !in multiset{block};
    }

    /** `_pygi_argument_release`, direction IN. */
    method Release(arg: CArg, ty: Ty, transfer: Transfer)
      modifies this
      ensures State() == FreeAll(old(State()), Freed(arg, ty, transfer))
      decreases ty, 5
    {
      hide FreeAll, FreedItems, FreedCellItems, CellBlocks, FreedEntries;
      FreeAllTwice(State(), multiset{}, multiset{});
      if transfer != Everything || ty.TStr? {
        match (ty, arg)
        case (TStr, Str(b, _)) =>
          if transfer == Nothing {
            Free(b);
          }
        case (TArray(item), Arr(b, items)) => ReleaseArray(b, items, item, transfer);
        case (TList(item), Lst(cells)) => ReleaseList(cells, item, transfer);
        case (THash(key, value), Hsh(b, entries)) => ReleaseTable(b, entries, key, value, transfer);
        case _ =>
      }
    }

    method ReleaseArray(block: nat, items: seq<CArg>, item: Ty, transfer: Transfer)
      requires transfer != Everything
      modifies this
      ensures State() == FreeAll(old(State()), Freed(Arr(block, items), TArray(item), transfer))
      decreases TArray(item), 4
    {
      hide FreeAll, FreedItems;
      ghost var h := State();
      ReleaseItems(items, item);
      if transfer == Nothing {
        Free(block);
        FreeAllTwice(h, FreedItems(items, item, |items|), multiset{block});
      } else {
        assert FreedItems(items, item, |items|) + multiset{} == FreedItems(items, item, |items|);
      }
    }

    method ReleaseList(cells: seq<Cell>, item: Ty, transfer: Transfer)
      requires transfer != Everything
      modifies this
      ensures State() == FreeAll(old(State()), Freed(Lst(cells), TList(item), transfer))
      decreases TList(item), 4
    {
      hide FreeAll, FreedCellItems, CellBlocks;
      ghost var h := State();
      ReleaseCells(cells, item);
      if transfer == Nothing {
        FreeCells(cells);
        FreeAllTwice(h, FreedCellItems(cells, item, |cells|), CellBlocks(cells, |cells|));
      } else {
        assert FreedCellItems(cells, item, |cells|) + multiset{} == FreedCellItems(cells, item, |cells|);
      }
    }

    method ReleaseTable(block: nat, entries: seq<Entry>, key: Ty, value: Ty, transfer: Transfer)
      requires transfer != Everything
      modifies this
      ensures State() == FreeAll(old(State()), Freed(Hsh(block, entries), THash(key, value), transfer))
      decreases THash(key, value), 4
    {
      hide FreeAll, FreedEntries;
      ghost var h := State();
      ReleaseEntries(entries, key, value);
      if transfer == Nothing {
        Free(block);
        FreeAllTwice(h, FreedEntries(entries, key, value, |entries|), multiset{block});
      } else {
        assert FreedEntries(entries, key, value, |entries|) + multiset{}
            == FreedEntries(entries, key, value, |entries|);
      }
    }

    method ReleaseItems(items: seq<CArg>, item: Ty)
      modifies this
      ensures State() == FreeAll(old(State()), FreedItems(items, item, |items|))
      decreases item, 6
    {
      ghost var h := State();
      FreeAllTwice(h, multiset{}, multiset{});
      for i := 0 to |items|
        invariant State() == FreeAll(h, FreedItems(items, item, i))
      {
        Release(items[i], item, Nothing);
        FreeAllTwice(h, FreedItems(items, item, i), Freed(items[i], item, Nothing));
      }
    }

    method ReleaseCells(cells: seq<Cell>, item: Ty)
      modifies this
      ensures State() == FreeAll(old(State()), FreedCellItems(cells, item, |cells|))
      decreases item, 6
    {
      ghost var h := State();
      FreeAllTwice(h, multiset{}, multiset{});
      for i := 0 to |cells|
        invariant State() == FreeAll(h, FreedCellItems(cells, item, i))
      {
        Release(cells[i].item, item, Nothing);
        FreeAllTwice(h, FreedCellItems(cells, item, i), Freed(cells[i].item, item, Nothing));
      }
    }

    /** `g_list_free` and `g_slist_free`. */
    method FreeCells(cells: seq<Cell>)
      modifies this
      ensures State() == FreeAll(old(State()), CellBlocks(cells, |cells|))
    {
      ghost var h := State();
      FreeAllTwice(h, multiset{}, multiset{});
      for i := 0 to |cells|
        invariant State() == FreeAll(h, CellBlocks(cells, i))
      {
        Free(cells[i].block);
        FreeAllTwice(h, CellBlocks(cells, i), multiset{cells[i].block});
      }
    }

    method ReleaseEntries(entries: seq<Entry>, key: Ty, value: Ty)
      modifies this
      ensures State() == FreeAll(old(State()), FreedEntries(entries, key, value, |entries|))
      decreases THash(key, value), 2
    {
      hide FreeAll, Freed;
      ghost var h := State();
      FreeAllTwice(h, multiset{}, multiset{});
      for i := 0 to |entries|
        invariant State() == FreeAll(h, FreedEntries(entries, key, value, i))
      {
        Release(entries[i].key, key, Nothing);
        FreeAllTwice(h, FreedEntries(entries, key, value, i), Freed(entries[i].key, key, Nothing));
        Release(entries[i].value, value, Nothing);
        FreeAllTwice(h, FreedEntries(entries, key, value, i) + Freed(entries[i].key, key, Nothing),
                     Freed(entries[i].value, value, Nothing));
      }
    }

    /** `_pygi_argument_from_object`. */
    method FromObject(o: Py, ty: Ty) returns (r: Outcome<CArg>)
      modifies this
      ensures (r, State()) == Conv(o, ty, old(State()))
      decreases ty, 3
    {
      match ty
      case TBool => r := Good(Raw(if Truth(o) then 1 else 0));
      case TInt(tag) =>
        match AsLong(o) {
          case None => r := Bad;
          case Some(n) => r := if Converts(tag, n) then Good(Raw(Store(tag, n, 0))) else Bad;
        }
      case TStr =>
        match o {
          case PyNone => r := Good(Null);
          case PyStr(s) =>
            var b := Allocate();
            r := Good(Str(b, CText(s)));
          case _ => r := Bad;
        }
      case TArray(item) =>
        if o == PyNone {
          r := Good(Null);
        } else {
          match Items(o, false) {
            case None => r := Bad;
            case Some(items) => r := ArrayFromItems(items, item);
          }
        }
      case TList(item) =>
        if o == PyNone {
          r := Good(Null);
        } else {
          match Items(o, true) {
            case None => r := Bad;
            case Some(items) => r := ListFromItems(items, item);
          }
        }
      case THash(key, value) =>
        match o {
          case PyNone => r := Good(Null);
          case PyDict(keys, values) =>
            if |keys| != |values| {
              r := Bad;
            } else {
              r := TableFromItems(keys, values, key, value);
            }
          case _ => r := Bad;
        }
    }

    /** Items are inserted front to back; a failure releases the array with what it holds. */
    method ArrayFromItems(items: seq<Py>, item: Ty) returns (r: Outcome<CArg>)
      modifies this
      ensures var h := Alloc(old(State()));
              var run := ConvItems(items, item, |items|, h);
              match run.outcome
              case Good(_) => r == Good(Arr(old(next), run.done)) && State() == run.heap
              case Undefined => r == Undefined && State() == run.heap
              case Bad => r == Bad
                          && State() == FreeAll(run.heap, FreedItems(run.done, item, |run.done|) + multiset{old(next)})
      decreases item, 6
    {
      hide Conv, ConvItems, FreeAll, FreedItems;
      var block := Allocate();
      ghost var h := State();
      ItemsUnfoldEmpty(items, item, h);
      var made: seq<CArg> := [];
      for i := 0 to |items|
        invariant ConvItems(items, item, i, h) == ItemsRun(Good(()), made, State())
      {
        ItemsUnfold(items, item, i + 1, h);
        var v := FromObject(items[i], item);
        if !v.Good? {
          ItemsStop(items, item, i + 1, |items|, h);
          if v.Bad? {
            Release(Arr(block, made), TArray(item), Nothing);
            return Bad;
          }
          return Undefined;
        }
        made := made + [v.value];
      }
      r := Good(Arr(block, made));
    }

    /** Items are prepended back to front; a failure releases the list built so far. */
    method ListFromItems(items: seq<Py>, item: Ty) returns (r: Outcome<CArg>)
      modifies this
      ensures var h := old(State());
              var run := ConvCells(items, item, 0, h);
              match run.outcome
              case Good(_) => r == Good(if run.cells == [] then Null else Lst(run.cells)) && State() == run.heap
              case Undefined => r == Undefined && State() == run.heap
              case Bad => r == Bad
                          && State() == FreeAll(run.heap, FreedCellItems(run.cells, item, |run.cells|)
                                                           + CellBlocks(run.cells, |run.cells|))
      decreases item, 6
    {
      hide Conv, ConvCells, FreeAll, FreedCellItems, CellBlocks;
      ghost var h := State();
      CellsUnfoldEmpty(items, item, h);
      var cells: seq<Cell> := [];
      for i := |items| downto 0
        invariant ConvCells(items, item, i, h) == CellsRun(Good(()), cells, State())
      {
        CellsUnfold(items, item, i, h);
        var v := FromObject(items[i], item);
        if !v.Good? {
          CellsStop(items, item, 0, i, h);
          if v.Bad? {
            Release(Lst(cells), TList(item), Nothing);
            return Bad;
          }
          return Undefined;
        }
        var block := Allocate();
        cells := [Cell(block, v.value)] + cells;
      }
      r := Good(if cells == [] then Null else Lst(cells));
    }

    /** A key, then its value. */
    method PairFromObjects(k: Py, v: Py, key: Ty, value: Ty) returns (r: Outcome<Entry>)
      modifies this
      ensures (r, State()) == ConvPair(k, v, key, value, old(State()))
      decreases THash(key, value), 1
    {
      hide Conv, ConvPair, IsPointer;
      ghost var h := State();
      var kr := FromObject(k, key);
      PairIs(k, v, key, value, h);
      if !kr.Good? {
        return if kr.Bad? then Bad else Undefined;
      }
      var vr := FromObject(v, value);
      if !vr.Good? {
        return if vr.Bad? && !IsPointer(kr.value) then Bad else Undefined;
      }
      r := if key.TStr? && kr.value == Null then Undefined else Good(Entry(kr.value, vr.value));
    }

    /** Pairs are inserted in the order of the keys; a failure releases the table built so far. */
    method TableFromItems(keys: seq<Py>, values: seq<Py>, key: Ty, value: Ty) returns (r: Outcome<CArg>)
      requires |keys| == |values|
      modifies this
      ensures var h := Alloc(old(State()));
              var run := ConvEntries(keys, values, key, value, |keys|, h);
              match run.outcome
              case Good(_) => r == Good(Hsh(old(next), run.entries)) && State() == run.heap
              case Undefined => r == Undefined && State() == run.heap
              case Bad => r == Bad
                          && State() == FreeAll(run.heap, FreedEntries(run.entries, key, value, |run.entries|)
                                                           + multiset{old(next)})
      decreases THash(key, value), 2
    {
      hide Conv, ConvEntries, ConvPair, FreeAll, FreedEntries, Insert;
      var block := Allocate();
      ghost var h := State();
      EntriesUnfoldEmpty(keys, values, key, value, h);
      var entries: seq<Entry> := [];
      for i := 0 to |keys|
        invariant ConvEntries(keys, values, key, value, i, h) == EntriesRun(Good(()), entries, State())
      {
        EntriesUnfold(keys, values, key, value, i + 1, h);
        var pair := PairFromObjects(keys[i], values[i], key, value);
        if !pair.Good? {
          EntriesStop(keys, values, key, value, i + 1, |keys|, h);
          if pair.Bad? {
            Release(Hsh(block, entries), THash(key, value), Nothing);
            return Bad;
          }
          return Undefined;
        }
        entries := Insert(entries, pair.value.key, Pack(value, pair.value.value));
      }
      r := Good(Hsh(block, entries));
    }
  }

  /** `_pygi_argument_to_object`. */
  method Wrap(arg: CArg, ty: Ty) returns (o: Py)
    ensures o == ToObject(arg, ty)
    decreases ty, 1
  {
    match (ty, arg)
    case (TBool, Raw(cell)) => o := PyBool(Load(Int32, cell) != 0);
    case (TInt(tag), Raw(cell)) => o := PyInt(Load(tag, cell));
    case (TStr, Str(_, s)) => o := PyStr(s);
    case (TArray(item), Arr(_, items)) =>
      if item == TInt(UInt8) {
        o := PyBytes(seq(|items|, i requires 0 <= i < |items| =>
                    if items[i].Raw? then Load(UInt8, items[i].cell) else 0));
      } else {
        var list := WrapAll(items, item);
        o := PyList(list);
      }
    case (TArray(_), _) => o := PyList([]);
    case (TList(item), Lst(cells)) =>
      var list := WrapAll(seq(|cells|, i requires 0 <= i < |cells| => cells[i].item), item);
      o := PyList(list);
    case (TList(_), _) => o := PyList([]);
    case (THash(key, value), Hsh(_, entries)) =>
      var keys := WrapAll(seq(|entries|, i requires 0 <= i < |entries| => entries[i].key), key);
      var values := WrapAll(seq(|entries|, i requires 0 <= i < |entries| => Unpack(value, entries[i].value)), value);
      o := PyDict(keys, values);
    case _ => o := PyNone;
  }

  /** Fills a new list slot by slot. */
  method WrapAll(args: seq<CArg>, ty: Ty) returns (r: seq<Py>)
    ensures r == ToObjects(args, ty)
    decreases ty, 2
  {
    var list := new Py[|args|];
    for i := 0 to |args|
      invariant forall j :: 0 <= j < i ==> list[j] == ToObjects(args, ty)[j]
    {
      var o := Wrap(args[i], ty);
      ToObjectsAt(args, ty, i);
      list[i] := o;
    }
    r := list[..];
  }
}
