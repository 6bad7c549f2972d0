/** In-arrays of strings: `_pygi_marshal_from_py_array` in `gi/pygi-marshal-from-py.c` and
    `_pygi_marshal_cleanup_from_py_array` in `gi/pygi-marshal-cleanup.c`, with `utf8` items. */
module StringArrays {
  import opened Prelude
  import opened CInts
  import opened Argument
  import opened ArgumentObject

  datatype ArrayType = CArray | GArray | PtrArray

  /** The sequence cache of the argument; `fixedSize` is negative when the size is not fixed, `lenTag` the integer type
      of the length argument, if there is one. */
  datatype Sequence = Sequence(arrayType: ArrayType, fixedSize: int, zeroTerminated: bool, lenTag: Option<IntTag>,
                               transfer: Transfer)

  /** `Made`: the blocks of the GArray header and of its buffer, the strings in it, and the raw cell of the
      length argument, as the marshaller leaves it. A C array keeps only the buffer, which an empty one may not have. */
  datatype Marshalled = Refused | NoArray | Made(header: Option<nat>, data: Option<nat>, items: seq<CArg>, lenCell: int)

  predicate HasBuffer(s: Sequence, n: nat) { n > 0 || (s.zeroTerminated && !s.arrayType.PtrArray?) }

  function AllocArray(s: Sequence, n: nat, h: Heap): Heap { if HasBuffer(s, n) then Alloc(Alloc(h)) else Alloc(h) }

  function Block(b: Option<nat>): multiset<nat> { if b.Some? then multiset{b.value} else multiset{} }

  function LengthFits(s: Sequence, n: nat): bool { s.lenTag.Some? ==> Fits(s.lenTag.value, n) }

  function Marshal(o: Py, s: Sequence, h: Heap): (Marshalled, Heap) {
    if o == PyNone then (NoArray, h)
    else match Items(o, true)
      case None => (Refused, h)
      case Some(items) => if s.fixedSize >= 0 && s.fixedSize != |items| then (Refused, h) else MarshalItems(items, s, h)
  }

  function MarshalItems(items: seq<Py>, s: Sequence, h: Heap): (Marshalled, Heap) {
    Finish(s, |items|, h, ConvItems(items, TStr, |items|, AllocArray(s, |items|, h)))
  }

  /** After the item loop: the error path, or the length hand-off and the pointer. */
  function Finish(s: Sequence, n: nat, h: Heap, run: ItemsRun): (Marshalled, Heap) {
    var data := if HasBuffer(s, n) then Some(h.next + 1) else None;
    if !run.outcome.Good? || !LengthFits(s, n) then
      (Refused, FreeAll(run.heap, FreedItems(run.done, TStr, |run.done|) + multiset{h.next} + Block(data)))
    else
      var cell := if s.lenTag.Some? then Store(s.lenTag.value, n, 0) else 0;
      if s.arrayType.CArray? then (Made(None, data, run.done, cell), FreeAll(run.heap, multiset{h.next}))
      else (Made(Some(h.next), data, run.done, cell), run.heap)
  }

  /** `g_strv_length`: the strings before the first null pointer. */
  function StrvLength(items: seq<CArg>): (n: nat)
    ensures n <= |items| && (n < |items| ==> items[n] == Null) && forall i :: 0 <= i < n ==> items[i] != Null
  {
    if items == [] || items[0] == Null then 0 else 1 + StrvLength(items[1..])
  }

  /** `_wrap_c_array`: how many items the cleanup takes the array to have. `seen` is the cell `state->args` names for
      the length argument when the cleanup runs, `None` while that pointer is NULL; the count ends up in a `guint`. */
  function WrapLength(s: Sequence, items: seq<CArg>, seen: Option<int>): Option<nat> {
    if s.fixedSize >= 0 then Some(s.fixedSize)
    else if s.zeroTerminated then Some(StrvLength(items))
    else if s.lenTag.None? then Some(0)
    else match seen
      case None => None
      case Some(cell) => Some(Load(UInt32, cell))
  }

  function CleanedItems(m: Marshalled, s: Sequence, seen: Option<int>): Option<nat>
    requires m.Made?
  {
    if s.arrayType.CArray? then WrapLength(s, m.items, seen) else Some(|m.items|)
  }

  /** `NullLength`: the length is read through NULL. `PastEnd`: more items are freed than the array has. */
  datatype Cleaned = Cleaned(heap: Heap) | NullLength | PastEnd

  /** The cleanup as the drivers call it: only when the argument's pointer is not null. */
  function Cleanup(m: Marshalled, s: Sequence, failed: bool, seen: Option<int>, h: Heap): Cleaned {
    match m
    case Made(header, data, items, _) =>
      if s.arrayType.CArray? && data.None? then Cleaned(h)
      else (match CleanedItems(m, s, seen)
            case None => NullLength
            case Some(n) =>
              if n > |items| then PastEnd
              else
                var strings := FreedItems(items, TStr, n);
                if s.arrayType.CArray? then
                  var buffer := if s.transfer.Nothing? then Block(data) else multiset{};
                  Cleaned(FreeAll(Alloc(h), strings + buffer + multiset{h.next}))
                else
                  var own := if failed || s.transfer.Nothing? then Block(header) + Block(data) else multiset{};
                  Cleaned(FreeAll(h, strings + own)))
    case _ => Cleaned(h)
  }

  // ---------------------------------------------------------------- as the source runs it

  /** Frees the first `n` strings, or stops where there are no more items. */
  method FreeStrings(a: Allocator, items: seq<CArg>, n: nat) returns (inside: bool)
    modifies a
    ensures inside <==> n <= |items|
    ensures inside ==> a.State() == FreeAll(old(a.State()), FreedItems(items, TStr, n))
  {
    hide FreeAll;
    ghost var h := a.State();
    FreeAllTwice(h, multiset{}, multiset{});
    for j := 0 to n
      invariant j <= |items| && a.State() == FreeAll(h, FreedItems(items, TStr, j))
    {
      if j == |items| {
        return false;
      }
      FreeAllTwice(h, FreedItems(items, TStr, j), Freed(items[j], TStr, Nothing));
      FreeAllTwice(a.State(), multiset{}, multiset{});
      if items[j].Str? {
        a.Free(items[j].block);
      }
    }
    inside := true;
  }

  method FreeBlock(a: Allocator, b: Option<nat>)
    modifies a
    ensures a.State() == FreeAll(old(a.State()), Block(b))
  {
    FreeAllTwice(a.State(), multiset{}, multiset{});
    if b.Some? {
      a.Free(b.value);
    }
  }

  method NewArray(a: Allocator, s: Sequence, n: nat) returns (header: nat, data: Option<nat>)
    modifies a
    ensures a.State() == AllocArray(s, n, old(a.State())) && header == old(a.next)
    ensures data == if HasBuffer(s, n) then Some(old(a.next) + 1) else None
  {
    header := a.Allocate();
    data := None;
    if HasBuffer(s, n) {
      var b := a.Allocate();
      data := Some(b);
    }
  }

  /** The item loop: stops at the first item that is neither a string nor None. */
  method Strings(a: Allocator, items: seq<Py>) returns (made: seq<CArg>, ok: bool)
    modifies a
    ensures ConvItems(items, TStr, |items|, old(a.State())) == ItemsRun(if ok then Good(()) else Bad, made, a.State())
  {
    hide ConvItems, Conv;
    ghost var h := a.State();
    made, ok := [], true;
    ItemsUnfoldEmpty(items, TStr, h);
    for i := 0 to |items|
      invariant ConvItems(items, TStr, i, h) == ItemsRun(Good(()), made, a.State())
    {
      ItemsUnfold(items, TStr, i + 1, h);
      StringsDefined(items[i], ConvItems(items, TStr, i, h).heap);
      var item := a.FromObject(items[i], TStr);
      if !item.Good? {
        ItemsStop(items, TStr, i + 1, |items|, h);
        return made, false;
      }
      made := made + [item.value];
    }
    ok := true;
  }

  /** The error path: the items converted so far, then the array. */
  method Discard(a: Allocator, made: seq<CArg>, header: nat, data: Option<nat>)
    modifies a
    ensures a.State() == FreeAll(old(a.State()), FreedItems(made, TStr, |made|) + multiset{header} + Block(data))
  {
    hide FreedItems, FreeAll;
    ghost var h := a.State();
    ghost var strings := FreedItems(made, TStr, |made|);
    var _ := FreeStrings(a, made, |made|);
    a.Free(header);
    FreeBlock(a, data);
    FreeAllTwice(h, strings, multiset{header});
    FreeAllTwice(h, strings + multiset{header}, Block(data));
  }

  method FromPyArray(a: Allocator, o: Py, s: Sequence) returns (m: Marshalled)
    modifies a
    ensures (m, a.State()) == Marshal(o, s, old(a.State()))
  {
    hide MarshalItems, Items;
    if o == PyNone {
      return NoArray;
    }
    var sequence := Items(o, true);
    if sequence.None? || (s.fixedSize >= 0 && s.fixedSize != |sequence.value|) {
      return Refused;
    }
    m := FromItems(a, sequence.value, s);
  }

  method FromItems(a: Allocator, items: seq<Py>, s: Sequence) returns (m: Marshalled)
    modifies a
    ensures (m, a.State()) == MarshalItems(items, s, old(a.State()))
  {
    hide ConvItems, FreedItems, FreeAll, AllocArray, Block, LengthFits, Store;
    var header, data := NewArray(a, s, |items|);
    var made, ok := Strings(a, items);
    if !ok || !LengthFits(s, |items|) {
      Discard(a, made, header, data);
      return Refused;
    }
    var cell := if s.lenTag.Some? then Store(s.lenTag.value, |items|, 0) else 0;
    if s.arrayType.CArray? {
      a.Free(header);
      return Made(None, data, made, cell);
    }
    return Made(Some(header), data, made, cell);
  }

  lemma StringsDefined(o: Py, h: Heap)
    ensures !Conv(o, TStr, h).0.Undefined?
  {
  }

  /** `_pygi_marshal_cleanup_from_py_array` for an argument that was processed. */
  method CleanupFromPyArray(a: Allocator, m: Marshalled, s: Sequence, failed: bool, seen: Option<int>)
    returns (r: Cleaned)
    modifies a
    ensures r == Cleanup(m, s, failed, seen, old(a.State()))
    ensures r.Cleaned? ==> a.State() == r.heap
  {
    hide FreedItems, FreeAll;
    if !m.Made? || (s.arrayType.CArray? && m.data.None?) {
      return Cleaned(a.State());
    }
    ghost var strings := multiset{};
    var inside;
    if s.arrayType.CArray? {
      var n := WrapLength(s, m.items, seen);
      if n.None? {
        return NullLength;
      }
      var wrapper := a.Allocate();
      ghost var h := a.State();
      inside := FreeStrings(a, m.items, n.value);
      if !inside {
        return PastEnd;
      }
      strings := FreedItems(m.items, TStr, n.value);
      FreeBlock(a, if s.transfer.Nothing? then m.data else None);
      a.Free(wrapper);
      ghost var buffer := if s.transfer.Nothing? then Block(m.data) else multiset{};
      FreeAllTwice(h, strings, buffer);
      FreeAllTwice(h, strings + buffer, multiset{wrapper});
    } else {
      ghost var h := a.State();
      inside := FreeStrings(a, m.items, |m.items|);
      strings := FreedItems(m.items, TStr, |m.items|);
      FreeAllTwice(h, strings, Block(m.header));
      FreeAllTwice(h, strings + Block(m.header), Block(m.data));
      assert strings + multiset{} == strings;
      assert strings + Block(m.header) + Block(m.data) == strings + (Block(m.header) + Block(m.data));
      if failed || s.transfer == Nothing {
        FreeBlock(a, m.header);
        FreeBlock(a, m.data);
      }
    }
    r := Cleaned(a.State());
  }
}
