/** What marshalling an in-array of strings and cleaning it up frees. */
module StringArrayResults {
  import opened Prelude
  import opened CInts
  import opened Argument
  import opened Ownership
  import opened OwnershipResults
  import opened StringArrays

  /** The cleanup reads the length argument. */
  predicate ReadsLength(s: Sequence) {
    s.arrayType.CArray? && s.fixedSize < 0 && !s.zeroTerminated && s.lenTag.Some?
  }

  /** The cleanup finds every string. The length comes from the fixed size, else from the first null pointer when the
      array is zero-terminated, else from the cell of the length argument, else it is taken to be 0. */
  ghost predicate FindsAll(s: Sequence, items: seq<Py>, seen: Option<int>) {
    || !s.arrayType.CArray? || s.fixedSize >= 0
    || (if s.zeroTerminated then forall i, j :: 0 <= i < j < |items| && items[i] == PyNone ==> items[j] == PyNone
        else var count := if s.lenTag.Some? && seen.Some? then Load(UInt32, seen.value) else 0;
             forall i :: count <= i < |items| ==> items[i] == PyNone)
  }

  /** The strings past the length the cleanup works with. */
  function Missed(m: Marshalled, s: Sequence, seen: Option<int>): multiset<nat>
    requires m.Made?
  {
    match CleanedItems(m, s, seen)
    case None => multiset{}
    case Some(n) => ItemBlocks(m.items, |m.items|) - ItemBlocks(m.items, if n <= |m.items| then n else 0)
  }

  /** What is handed over with the array. */
  function Kept(m: Marshalled, s: Sequence, failed: bool): multiset<nat>
    requires m.Made?
  {
    if s.transfer.Nothing? || (failed && !s.arrayType.CArray?) then multiset{} else Block(m.header) + Block(m.data)
  }

  /** The outcome `c` of cleaning up `m`, marshalled from `items` on heap `h`. */
  ghost predicate CleanedAt(items: seq<Py>, m: Marshalled, s: Sequence, h: Heap, failed: bool, seen: Option<int>,
                            c: Cleaned)
    requires m.Made?
  {
    var lookup := ReadsLength(s) && items != [];
    && (c == NullLength <==> lookup && seen.None?)
    && (c == PastEnd <==> lookup && seen.Some? && Load(UInt32, seen.value) > |items|)
    && (c.Cleaned? ==>
          && (Missed(m, s, seen) == multiset{} <==> FindsAll(s, items, seen))
          && Holds(h, c.heap, Missed(m, s, seen) + Kept(m, s, failed)))
  }

  /** Marshalling then cleaning up. A refusal has freed, once each, everything it allocated. Otherwise the cleanup goes
      wrong exactly when it reads the length of an array with items, and the length's location is not set or holds more
      than there are; else it frees, once each, every block except the strings it misses and what was handed over with
      the array; it misses none exactly when `FindsAll` holds. */
  lemma MarshalThenCleanup(o: Py, s: Sequence, h: Heap, failed: bool, seen: Option<int>)
    requires HeapOk(h)
    ensures var (m, h1) := Marshal(o, s, h);
            var c := Cleanup(m, s, failed, seen, h1);
            match m
            case Refused => Holds(h, h1, multiset{})
            case NoArray => h1 == h && c == Cleaned(h)
            case Made(_, _, _, _) =>
              CleanedAt(Items(o, true).value, m, s, h, failed, seen, c)
  {
    hide *;
    MarshalIs(o, s, h);
    if o != PyNone && Items(o, true).Some? && !(s.fixedSize >= 0 && s.fixedSize != |Items(o, true).value|) {
      var items := Items(o, true).value;
      MarshalHolds(items, s, h);
      LengthRecomputed(items, s, h, seen);
      var (m, h1) := MarshalItems(items, s, h);
      if m.Made? {
        MadeCleanup(items, s, h, failed, seen);
      } else {
        RefusedHolds(s, h, m, h1);
      }
    } else {
      HoldsNothing(h);
      CleanupNothing(s, failed, seen, h);
    }
  }

  lemma CleanupNothing(s: Sequence, failed: bool, seen: Option<int>, h: Heap)
    ensures Cleanup(NoArray, s, failed, seen, h) == Cleaned(h)
  {
  }

  lemma RefusedHolds(s: Sequence, h: Heap, m: Marshalled, h1: Heap)
    requires MarshalHoldsAt(s, h, m, h1) && !m.Made?
    ensures m.Refused? && Holds(h, h1, multiset{})
  {
    hide Holds;
  }

  lemma MadeCleanup(items: seq<Py>, s: Sequence, h: Heap, failed: bool, seen: Option<int>)
    requires HeapOk(h)
    requires var (m, h1) := MarshalItems(items, s, h);
             && m.Made? && MarshalHoldsAt(s, h, m, h1) && LengthAt(items, m, s, seen)
    ensures var (m, h1) := MarshalItems(items, s, h);
            CleanedAt(items, m, s, h, failed, seen, Cleanup(m, s, failed, seen, h1))
  {
    hide *;
    var (m, h1) := MarshalItems(items, s, h);
    CleanupOutcome(items, m, s, failed, seen, h1);
    HeldParts(s, h, m, h1);
    if s.arrayType.CArray? && m.data.None? {
      EmptyCleanup(items, m, s, failed, seen, h, h1);
    } else if Cleanup(m, s, failed, seen, h1).Cleaned? {
      var n := CleanedItems(m, s, seen).value;
      CleanupHolds(h, h1, m, s, failed, seen, n);
      MissedNone(items, m, s, seen, n);
    }
    AllAt(items, m, s, h, failed, seen, Cleanup(m, s, failed, seen, h1));
  }

  lemma AllAt(items: seq<Py>, m: Marshalled, s: Sequence, h: Heap, failed: bool, seen: Option<int>, c: Cleaned)
    requires m.Made?
    requires var lookup := ReadsLength(s) && items != [];
             && (c == NullLength <==> lookup && seen.None?)
             && (c == PastEnd <==> lookup && seen.Some? && Load(UInt32, seen.value) > |items|)
    requires c.Cleaned? ==> (Missed(m, s, seen) == multiset{} <==> FindsAll(s, items, seen))
    requires c.Cleaned? ==> Holds(h, c.heap, Missed(m, s, seen) + Kept(m, s, failed))
    ensures CleanedAt(items, m, s, h, failed, seen, c)
  {
    hide Holds, Missed, Kept, FindsAll, ReadsLength, Load;
  }

  lemma CleanupOutcome(items: seq<Py>, m: Marshalled, s: Sequence, failed: bool, seen: Option<int>, h1: Heap)
    requires m.Made? && LengthAt(items, m, s, seen)
    ensures var c := Cleanup(m, s, failed, seen, h1);
            var lookup := ReadsLength(s) && items != [];
            && (c == NullLength <==> lookup && seen.None?)
            && (c == PastEnd <==> lookup && seen.Some? && Load(UInt32, seen.value) > |items|)
            && (c.Cleaned? && !(s.arrayType.CArray? && m.data.None?) ==>
                  CleanedItems(m, s, seen).Some? && CleanedItems(m, s, seen).value <= |m.items|)
  {
    hide FreeAll, FreedItems, Load, StrvLength;
  }

  lemma HeldParts(s: Sequence, h: Heap, m: Marshalled, h1: Heap)
    requires MarshalHoldsAt(s, h, m, h1) && m.Made?
    ensures (s.arrayType.CArray? ==> m.header.None?) && (m.data.None? ==> m.items == [])
    ensures Holds(h, h1, ItemBlocks(m.items, |m.items|) + (Block(m.header) + Block(m.data)))
    ensures forall x :: x in m.items ==> Typed(x, TStr)
  {
    hide Holds, ItemBlocks, Block, Typed;
  }

  /** An array without a buffer holds nothing, whatever its length is taken to be. */
  lemma EmptyCleanup(items: seq<Py>, m: Marshalled, s: Sequence, failed: bool, seen: Option<int>, h: Heap, h1: Heap)
    requires m.Made? && s.arrayType.CArray? && m.header.None? && m.data.None? && m.items == []
    requires LengthAt(items, m, s, seen)
    requires Holds(h, h1, ItemBlocks(m.items, |m.items|) + (Block(m.header) + Block(m.data)))
    ensures Cleanup(m, s, failed, seen, h1) == Cleaned(h1)
    ensures Missed(m, s, seen) == multiset{} && FindsAll(s, items, seen)
    ensures Holds(h, h1, Missed(m, s, seen) + Kept(m, s, failed))
  {
    hide Holds, Load;
    assert ItemBlocks(m.items, |m.items|) + (Block(m.header) + Block(m.data)) == multiset{};
    assert Missed(m, s, seen) + Kept(m, s, failed) == multiset{};
  }

  /** What `Marshal` refuses, and what it makes of the rest: the strings up to their first NUL and null pointers for
      None, a buffer for all but an empty array without terminator, and the count for the length argument. */
  lemma MarshalResult(o: Py, s: Sequence, h: Heap)
    ensures var (m, items) := (Marshal(o, s, h).0, Items(o, true));
            && (m.NoArray? <==> o == PyNone)
            && (m.Refused? <==>
                  && o != PyNone
                  && (items.None? || (s.fixedSize >= 0 && s.fixedSize != |items.value|)
                      || (exists i :: 0 <= i < |items.value| && items.value[i] != PyNone && !items.value[i].PyStr?)
                      || (s.lenTag.Some? && !Fits(s.lenTag.value, |items.value|))))
            && (m.Made? ==>
                  && items.Some? && MadeOf(items.value, s, m)
                  && (m.header.Some? <==> !s.arrayType.CArray?))
  {
    hide MarshalItems, Items, Fits, MadeOf;
    if o != PyNone && Items(o, true).Some? {
      ItemsResult(Items(o, true).value, s, h);
    }
  }

  ghost predicate MadeOf(items: seq<Py>, s: Sequence, m: Marshalled)
    requires m.Made?
  {
    && |m.items| == |items|
    && (m.data.Some? <==> items != [] || (s.zeroTerminated && s.arrayType != PtrArray))
    && m.lenCell == (if s.lenTag.Some? then |items| else 0)
    && forall i :: 0 <= i < |items| ==>
         if items[i].PyStr? then m.items[i].Str? && m.items[i].text == CText(items[i].s) else m.items[i] == Null
  }

  lemma ItemsResult(items: seq<Py>, s: Sequence, h: Heap)
    ensures var m := MarshalItems(items, s, h).0;
            && !m.NoArray?
            && (m.Refused? <==>
                  || (exists i :: 0 <= i < |items| && items[i] != PyNone && !items[i].PyStr?)
                  || (s.lenTag.Some? && !Fits(s.lenTag.value, |items|)))
            && (m.Made? ==> MadeOf(items, s, m) && (m.header.Some? <==> !s.arrayType.CArray?))
  {
    hide AllocArray, ConvItems, FreeAll, FreedItems, Fits, Store, Block;
    TextsAre(items, |items|, AllocArray(s, |items|, h));
    if s.lenTag.Some? && Fits(s.lenTag.value, |items|) {
      StoreSmall(s.lenTag.value, |items|);
    }
  }

  lemma {:induction false} TextsAre(items: seq<Py>, n: nat, h: Heap)
    requires n <= |items|
    ensures var r := ConvItems(items, TStr, n, h);
            && (r.outcome.Good? <==> forall i :: 0 <= i < n ==> items[i] == PyNone || items[i].PyStr?)
            && (r.outcome.Good? ==> |r.done| == n)
            && (r.outcome.Good? ==> forall i :: 0 <= i < n ==>
                  if items[i].PyStr? then r.done[i].Str? && r.done[i].text == CText(items[i].s) else r.done[i] == Null)
  {
    hide CText;
    if n > 0 {
      TextsAre(items, n - 1, h);
    }
  }

  lemma MarshalIs(o: Py, s: Sequence, h: Heap)
    ensures Marshal(o, s, h) ==
            if o == PyNone then (NoArray, h)
            else if Items(o, true).None? then (Refused, h)
            else if s.fixedSize >= 0 && s.fixedSize != |Items(o, true).value| then (Refused, h)
            else MarshalItems(Items(o, true).value, s, h)
  {
    hide MarshalItems, Items;
  }

  lemma HoldsAlloc(h: Heap, h': Heap, b: multiset<nat>)
    requires Holds(h, h', b)
    ensures Holds(h, Alloc(h'), b + multiset{h'.next})
  {
    hide Holds, Alloc, Owns;
    OwnsAlloc(h');
    HoldsOwned(h', Alloc(h'), multiset{h'.next});
    HoldsJoin(h, h', Alloc(h'), b, multiset{h'.next});
  }

  lemma ArrayHolds(s: Sequence, n: nat, h: Heap)
    ensures Holds(h, AllocArray(s, n, h), multiset{h.next} + Block(if HasBuffer(s, n) then Some(h.next + 1) else None))
  {
    hide Holds;
    HoldsNothing(h);
    HoldsAlloc(h, h, multiset{});
    assert multiset{} + multiset{h.next} == multiset{h.next};
    HoldsAlloc(h, Alloc(h), multiset{h.next});
    assert multiset{h.next} + multiset{} == multiset{h.next};
  }

  ghost predicate MarshalHoldsAt(s: Sequence, h: Heap, m: Marshalled, h1: Heap) {
    match m
    case Refused => Holds(h, h1, multiset{})
    case NoArray => false
    case Made(header, data, made, _) =>
      && (s.arrayType.CArray? ==> header.None?) && (data.None? ==> made == [])
      && Holds(h, h1, ItemBlocks(made, |made|) + (Block(header) + Block(data)))
      && forall x :: x in made ==> Typed(x, TStr)
  }

  lemma MarshalHolds(items: seq<Py>, s: Sequence, h: Heap)
    requires HeapOk(h)
    ensures MarshalHoldsAt(s, h, MarshalItems(items, s, h).0, MarshalItems(items, s, h).1)
  {
    hide *;
    var run := ConvItems(items, TStr, |items|, AllocArray(s, |items|, h));
    var data := if HasBuffer(s, |items|) then Some(h.next + 1) else None;
    RunHolds(items, s, h);
    BufferForAll(items, s, h);
    Unwind(h, run.heap, ItemBlocks(run.done, |run.done|), h.next, Block(data));
    MarshalItemsIs(items, s, h);
    FinishHolds(s, |items|, h, run);
  }

  lemma MarshalItemsIs(items: seq<Py>, s: Sequence, h: Heap)
    ensures MarshalItems(items, s, h) ==
            Finish(s, |items|, h, ConvItems(items, TStr, |items|, AllocArray(s, |items|, h)))
  {
  }

  lemma FinishHolds(s: Sequence, n: nat, h: Heap, run: ItemsRun)
    requires FreedItems(run.done, TStr, |run.done|) == ItemBlocks(run.done, |run.done|)
    requires (forall x :: x in run.done ==> Typed(x, TStr)) && (!HasBuffer(s, n) ==> run.done == [])
    requires var data := if HasBuffer(s, n) then Some(h.next + 1) else None;
             var strings := ItemBlocks(run.done, |run.done|);
             && Holds(h, FreeAll(run.heap, strings + multiset{h.next} + Block(data)), multiset{})
             && Holds(h, FreeAll(run.heap, multiset{h.next}), strings + (Block(None) + Block(data)))
             && Holds(h, run.heap, strings + (Block(Some(h.next)) + Block(data)))
    ensures MarshalHoldsAt(s, h, Finish(s, n, h, run).0, Finish(s, n, h, run).1)
  {
    hide Holds, FreeAll, FreedItems, ItemBlocks, Typed, Block, HasBuffer, LengthFits, Store;
  }

  /** Whether or not every item converted, the header, the buffer and the strings so far are held. */
  lemma RunHolds(items: seq<Py>, s: Sequence, h: Heap)
    requires HeapOk(h)
    ensures var run := ConvItems(items, TStr, |items|, AllocArray(s, |items|, h));
            var data := if HasBuffer(s, |items|) then Some(h.next + 1) else None;
            && Holds(h, run.heap, ItemBlocks(run.done, |run.done|) + multiset{h.next} + Block(data))
            && FreedItems(run.done, TStr, |run.done|) == ItemBlocks(run.done, |run.done|)
            && forall x :: x in run.done ==> Typed(x, TStr)
  {
    hide Holds, HeapOk, AllocArray, ConvItems, FreedItems, FreeAll, HasBuffer, ItemBlocks, Typed, Block;
    var h1 := AllocArray(s, |items|, h);
    var run := ConvItems(items, TStr, |items|, h1);
    var data := Block(if HasBuffer(s, |items|) then Some(h.next + 1) else None);
    var strings := ItemBlocks(run.done, |run.done|);
    ArrayHolds(s, |items|, h);
    StringsHold(items, |items|, h1);
    ReleaseItems(run.done, TStr, |run.done|);
    HoldsJoin(h, h1, run.heap, multiset{h.next} + data, strings);
    assert multiset{h.next} + data + strings == strings + multiset{h.next} + data;
  }

  /** A refused item allocates nothing, so the strings before it are all there is. */
  lemma {:induction false} StringsHold(items: seq<Py>, n: nat, h: Heap)
    requires n <= |items|
    ensures var r := ConvItems(items, TStr, n, h);
            Holds(h, r.heap, ItemBlocks(r.done, |r.done|)) && forall x :: x in r.done ==> Typed(x, TStr)
  {
    hide *;
    if n == 0 {
      ItemsUnfoldEmpty(items, TStr, h);
      HoldsNothing(h);
      NoStrings();
    } else {
      var p := ConvItems(items, TStr, n - 1, h);
      StringsHold(items, n - 1, h);
      ItemsUnfold(items, TStr, n, h);
      if p.outcome.Good? {
        StringHolds(items[n - 1], h, p);
      }
    }
  }

  lemma NoStrings()
    ensures ItemBlocks([], 0) == multiset{}
  {
  }

  lemma StringHolds(o: Py, h: Heap, p: ItemsRun)
    requires Holds(h, p.heap, ItemBlocks(p.done, |p.done|)) && forall x :: x in p.done ==> Typed(x, TStr)
    ensures var (g, h1) := Conv(o, TStr, p.heap);
            var r := ItemsNext(p, g, h1);
            Holds(h, r.heap, ItemBlocks(r.done, |r.done|)) && forall x :: x in r.done ==> Typed(x, TStr)
  {
    hide Holds, ItemBlocks, CText, Owns, Alloc;
    match o
    case PyNone =>
      ItemBlocksPlus(p.done, Null);
      assert ItemBlocks(p.done, |p.done|) + multiset{} == ItemBlocks(p.done, |p.done|);
    case PyStr(s) =>
      ItemBlocksPlus(p.done, Str(p.heap.next, CText(s)));
      HoldsAlloc(h, p.heap, ItemBlocks(p.done, |p.done|));
    case _ =>
  }

  lemma BufferForAll(items: seq<Py>, s: Sequence, h: Heap)
    ensures !HasBuffer(s, |items|) ==> ConvItems(items, TStr, |items|, AllocArray(s, |items|, h)).done == []
  {
  }

  /** Freeing everything, freeing the header only, freeing nothing. */
  lemma Unwind(h: Heap, h': Heap, strings: multiset<nat>, header: nat, data: multiset<nat>)
    requires HeapOk(h) && Holds(h, h', strings + multiset{header} + data)
    ensures Holds(h, FreeAll(h', strings + multiset{header} + data), multiset{})
    ensures Holds(h, FreeAll(h', multiset{header}), strings + (Block(None) + data))
    ensures Holds(h, h', strings + (Block(Some(header)) + data))
  {
    hide Holds, HeapOk, FreeAll;
    var all := strings + multiset{header} + data;
    HoldsFree(h, h', all);
    HoldsFreeSome(h, h', all, multiset{header});
    assert all - multiset{header} == strings + (multiset{} + data);
    assert all == strings + (multiset{header} + data);
  }

  ghost predicate LengthAt(items: seq<Py>, m: Marshalled, s: Sequence, seen: Option<int>) {
    m.Made? ==>
      var count := CleanedItems(m, s, seen);
      && |m.items| == |items| && (m.data.Some? <==> HasBuffer(s, |items|))
      && (forall i :: 0 <= i < |items| ==> (m.items[i] == Null <==> items[i] == PyNone))
      && (ReadsLength(s) ==>
            && (seen.None? ==> count == None) && (seen.Some? ==> count == Some(Load(UInt32, seen.value)))
            && (count == Some(|items|) <==> seen.Some? && Load(UInt32, seen.value) == |items|))
      && (!ReadsLength(s) ==> count.Some? && count.value <= |items|)
      && (s.fixedSize >= 0 || !s.arrayType.CArray? ==> count == Some(|items|))
  }

  /** The length the cleanup recomputes: never out of bounds, and for a fixed size the marshalled one, unless it is read
      from the length argument. Then it is the marshalled one exactly when that holds it by now. */
  lemma LengthRecomputed(items: seq<Py>, s: Sequence, h: Heap, seen: Option<int>)
    requires s.fixedSize >= 0 ==> s.fixedSize == |items|
    ensures LengthAt(items, MarshalItems(items, s, h).0, s, seen)
  {
    hide AllocArray, ConvItems, FreeAll, FreedItems, Load, Store, Fits, HasBuffer, Block;
    var m := MarshalItems(items, s, h).0;
    if m.Made? {
      NullsAreNones(items, |items|, AllocArray(s, |items|, h));
    }
  }

  lemma {:induction false} NullsAreNones(items: seq<Py>, n: nat, h: Heap)
    requires n <= |items| && ConvItems(items, TStr, n, h).outcome.Good?
    ensures var made := ConvItems(items, TStr, n, h).done;
            |made| == n && forall i :: 0 <= i < n ==> (made[i] == Null <==> items[i] == PyNone)
  {
    if n > 0 {
      NullsAreNones(items, n - 1, h);
    }
  }

  lemma MissedNone(items: seq<Py>, m: Marshalled, s: Sequence, seen: Option<int>, n: nat)
    requires m.Made? && LengthAt(items, m, s, seen) && forall x :: x in m.items ==> Typed(x, TStr)
    requires CleanedItems(m, s, seen) == Some(n) && n <= |m.items|
    ensures Missed(m, s, seen) == multiset{} <==> FindsAll(s, items, seen)
  {
    hide *;
    MissedTail(items, m, s, seen, n);
    TailIsNone(items, m, s, seen, n);
  }

  lemma MissedTail(items: seq<Py>, m: Marshalled, s: Sequence, seen: Option<int>, n: nat)
    requires m.Made? && LengthAt(items, m, s, seen) && forall x :: x in m.items ==> Typed(x, TStr)
    requires CleanedItems(m, s, seen) == Some(n) && n <= |m.items|
    ensures |m.items| == |items|
    ensures Missed(m, s, seen) == multiset{} <==> forall i :: n <= i < |items| ==> items[i] == PyNone
  {
    hide ItemBlocks, Typed, CleanedItems, Load;
    TailBlocks(m.items, n, |items|);
    MinusNothing(ItemBlocks(m.items, n), ItemBlocks(m.items, |items|));
  }

  lemma MinusNothing(a: multiset<nat>, b: multiset<nat>)
    requires a <= b
    ensures b - a == multiset{} <==> a == b
  {
    if b - a == multiset{} {
      forall x ensures a[x] == b[x] { assert (b - a)[x] == 0; }
    }
  }

  lemma TailIsNone(items: seq<Py>, m: Marshalled, s: Sequence, seen: Option<int>, n: nat)
    requires m.Made? && LengthAt(items, m, s, seen) && CleanedItems(m, s, seen) == Some(n) && n <= |m.items|
    ensures (forall i :: n <= i < |items| ==> items[i] == PyNone) <==> FindsAll(s, items, seen)
  {
    hide Load;
    if s.arrayType.CArray? && s.fixedSize < 0 && s.zeroTerminated {
      if FindsAll(s, items, seen) {
        forall i | n <= i < |items| ensures items[i] == PyNone {
          assert m.items[n] == Null;
        }
      }
      assert forall i :: 0 <= i < n ==> items[i] != PyNone;
    }
  }

  lemma {:induction false} TailBlocks(items: seq<CArg>, a: nat, b: nat)
    requires a <= b <= |items| && forall x :: x in items ==> Typed(x, TStr)
    ensures ItemBlocks(items, a) <= ItemBlocks(items, b)
    ensures ItemBlocks(items, a) == ItemBlocks(items, b) <==> forall i :: a <= i < b ==> items[i] == Null
  {
    hide Blocks, Typed;
    if a < b {
      TailBlocks(items, a, b - 1);
      StringBlock(items[b - 1]);
      MoreOrSame(ItemBlocks(items, a), ItemBlocks(items, b - 1), Blocks(items[b - 1]));
      assert ItemBlocks(items, b) == ItemBlocks(items, b - 1) + Blocks(items[b - 1]);
    }
  }

  lemma StringBlock(x: CArg)
    requires Typed(x, TStr)
    ensures Blocks(x) == multiset{} <==> x == Null
  {
    assert x.Str? ==> x.block in Blocks(x);
  }

  lemma MoreOrSame(p: multiset<nat>, q: multiset<nat>, b: multiset<nat>)
    requires p <= q
    ensures p <= q + b && (p == q + b <==> p == q && b == multiset{})
  {
    if p == q + b {
      forall x ensures q[x] == p[x] && b[x] == 0 {
        assert (q + b)[x] == q[x] + b[x] && p[x] <= q[x];
      }
    }
  }

  lemma CleanupHolds(h: Heap, h1: Heap, m: Marshalled, s: Sequence, failed: bool, seen: Option<int>, n: nat)
    requires m.Made? && HeapOk(h) && CleanedItems(m, s, seen) == Some(n) && n <= |m.items|
    requires (s.arrayType.CArray? ==> m.header.None? && m.data.Some?) && forall x :: x in m.items ==> Typed(x, TStr)
    requires Holds(h, h1, ItemBlocks(m.items, |m.items|) + (Block(m.header) + Block(m.data)))
    ensures Cleanup(m, s, failed, seen, h1).Cleaned?
    ensures Holds(h, Cleanup(m, s, failed, seen, h1).heap, Missed(m, s, seen) + Kept(m, s, failed))
  {
    hide *;
    TailOf(m, s, seen, n);
    CleanupIs(m, s, failed, seen, n, h1);
    KeptIs(m, s, failed);
    var all, found := ItemBlocks(m.items, |m.items|), ItemBlocks(m.items, n);
    NoBlock();
    if !s.arrayType.CArray? {
      OwnHolds(h, h1, all, found, Block(m.header) + Block(m.data));
    } else {
      WrappedHolds(h, h1, all, found, Block(m.data));
      assert multiset{} + Block(m.data) == Block(m.data);
    }
    assert Missed(m, s, seen) + multiset{} == Missed(m, s, seen);
  }

  lemma KeptIs(m: Marshalled, s: Sequence, failed: bool)
    requires m.Made?
    ensures Kept(m, s, failed) ==
            if s.transfer.Nothing? || (failed && !s.arrayType.CArray?) then multiset{}
            else Block(m.header) + Block(m.data)
  {
  }

  lemma TailOf(m: Marshalled, s: Sequence, seen: Option<int>, n: nat)
    requires m.Made? && CleanedItems(m, s, seen) == Some(n) && n <= |m.items|
    requires forall x :: x in m.items ==> Typed(x, TStr)
    ensures ItemBlocks(m.items, n) <= ItemBlocks(m.items, |m.items|)
    ensures Missed(m, s, seen) == ItemBlocks(m.items, |m.items|) - ItemBlocks(m.items, n)
    ensures FreedItems(m.items, TStr, n) == ItemBlocks(m.items, n)
  {
    hide CleanedItems, ItemBlocks, Typed, FreedItems;
    TailBlocks(m.items, n, |m.items|);
    ReleaseItems(m.items, TStr, n);
  }

  lemma CleanupIs(m: Marshalled, s: Sequence, failed: bool, seen: Option<int>, n: nat, h1: Heap)
    requires m.Made? && CleanedItems(m, s, seen) == Some(n) && n <= |m.items| && (s.arrayType.CArray? ==> m.data.Some?)
    ensures Cleanup(m, s, failed, seen, h1) == Cleaned(
              if s.arrayType.CArray? then
                FreeAll(Alloc(h1), FreedItems(m.items, TStr, n)
                                   + (if s.transfer.Nothing? then Block(m.data) else multiset{}) + multiset{h1.next})
              else
                FreeAll(h1, FreedItems(m.items, TStr, n)
                            + if failed || s.transfer.Nothing? then Block(m.header) + Block(m.data) else multiset{}))
  {
    hide FreeAll, FreedItems, CleanedItems, Block;
  }

  lemma NoBlock()
    ensures Block(None) == multiset{}
  {
  }

  /** A C array is wrapped in a header of its own for the cleanup. */
  lemma WrappedHolds(h: Heap, h1: Heap, strings: multiset<nat>, found: multiset<nat>, data: multiset<nat>)
    requires HeapOk(h) && found <= strings && Holds(h, h1, strings + (Block(None) + data))
    ensures Holds(h, FreeAll(Alloc(h1), found + data + multiset{h1.next}), strings - found)
    ensures Holds(h, FreeAll(Alloc(h1), found + multiset{} + multiset{h1.next}), strings - found + data)
  {
    hide Holds, HeapOk, FreeAll, Alloc;
    var all := strings + (Block(None) + data);
    HoldsAlloc(h, h1, all);
    HoldsFreeSome(h, Alloc(h1), all + multiset{h1.next}, found + data + multiset{h1.next});
    HoldsFreeSome(h, Alloc(h1), all + multiset{h1.next}, found + multiset{} + multiset{h1.next});
    assert all + multiset{h1.next} - (found + data + multiset{h1.next}) == strings - found;
    assert all + multiset{h1.next} - (found + multiset{} + multiset{h1.next}) == strings - found + data;
  }

  lemma OwnHolds(h: Heap, h1: Heap, strings: multiset<nat>, found: multiset<nat>, kept: multiset<nat>)
    requires HeapOk(h) && found <= strings && Holds(h, h1, strings + kept)
    ensures Holds(h, FreeAll(h1, found + kept), strings - found)
    ensures Holds(h, FreeAll(h1, found + multiset{}), strings - found + kept)
  {
    hide Holds, HeapOk, FreeAll;
    HoldsFreeSome(h, h1, strings + kept, found + kept);
    HoldsFreeSome(h, h1, strings + kept, found + multiset{});
    assert strings + kept - (found + kept) == strings - found;
    assert strings + kept - (found + multiset{}) == strings - found + kept;
  }

  // ---------------------------------------------------------------- where a string is missed

  /** A zero-terminated C array of None and a string: the cleanup counts no items, and the string stays allocated. */
  lemma StringBehindNoneLeaks(text: string, h: Heap, failed: bool, seen: Option<int>)
    requires HeapOk(h)
    ensures var s := Sequence(CArray, -1, true, None, Nothing);
            var (m, h1) := Marshal(PyList([PyNone, PyStr(text)]), s, h);
            var c := Cleanup(m, s, failed, seen, h1);
            m.Made? && c.Cleaned? && c.heap.live != h.live
  {
    var s := Sequence(CArray, -1, true, None, Nothing);
    var items := [PyNone, PyStr(text)];
    BothConvert(text, s, h);
    assert items[0] == PyNone && items[1] != PyNone;
    assert !FindsAll(s, items, seen) && !ReadsLength(s);
    hide *;
    MarshalThenCleanup(PyList(items), s, h, failed, seen);
    ListItems(items);
    var (m, h1) := Marshal(PyList(items), s, h);
    HoldsLive(h, Cleanup(m, s, failed, seen, h1).heap, Missed(m, s, seen) + Kept(m, s, failed));
  }

  lemma ListItems(items: seq<Py>)
    ensures Items(PyList(items), true) == Some(items)
  {
  }

  lemma BothConvert(text: string, s: Sequence, h: Heap)
    requires s == Sequence(CArray, -1, true, None, Nothing)
    ensures Marshal(PyList([PyNone, PyStr(text)]), s, h).0.Made?
  {
    var items := [PyNone, PyStr(text)];
    var h1 := AllocArray(s, 2, h);
    ItemsUnfoldEmpty(items, TStr, h1);
    ItemsUnfold(items, TStr, 1, h1);
    ItemsUnfold(items, TStr, 2, h1);
    hide CText, ConvItems, AllocArray, FreeAll, FreedItems;
  }
}
