/** Convert-then-release, and conversions that fail halfway. */
module OwnershipResults {
  import opened Argument
  import opened Ownership

  ghost function Elements(b: multiset<nat>): set<nat> { set x | x in b }

  /** The ownership partition. Whatever the type, a release frees only blocks the conversion allocated, each at most
      once. Transfer nothing restores the heap, and container leaves just the outermost container, exactly when no table
      displaced a key or value owning a block; everything leaves every block. */
  lemma ConvertThenRelease(o: Py, ty: Ty, h: Heap)
    requires HeapOk(h) && Conv(o, ty, h).0.Good?
    ensures var (r, h') := Conv(o, ty, h);
            var arg := r.value;
            && (forall transfer :: Freed(arg, ty, transfer) <= Fresh(h.next, h'.next))
            && (FreeAll(h', Freed(arg, ty, Nothing)).live == h.live <==> Clean(o, ty))
            && (FreeAll(h', Freed(arg, ty, Container)).live == h.live + Elements(OuterBlocks(arg)) <==> Clean(o, ty))
            && FreeAll(h', Freed(arg, ty, Everything)).live == h.live + Ids(h.next, h'.next)
  {
    var (r, h') := Conv(o, ty, h);
    var arg := r.value;
    ConvOwns(o, ty, h);
    ReleasePartition(arg, ty);
    OuterIsPart(arg);
    hide Conv, Freed, Typed, Clean, HasBlock, KeyOf, ImageOf;
    forall transfer ensures Freed(arg, ty, transfer) <= Fresh(h.next, h'.next) {
      match transfer case Nothing => case Container => case Everything =>
    }
    hide Blocks, OuterBlocks;
    RestoredIff(h, h', Blocks(arg), Clean(o, ty));
    OuterLeftIff(h, h', Blocks(arg), Clean(o, ty), OuterBlocks(arg));
  }

  lemma OuterIsPart(arg: CArg)
    ensures OuterBlocks(arg) <= Blocks(arg)
  {
  }

  lemma RestoredIff(h: Heap, h': Heap, b: multiset<nat>, whole: bool)
    requires HeapOk(h) && Owns(h, h', b, whole)
    ensures FreeAll(h', b).live == h.live <==> whole
    ensures FreeAll(h', multiset{}).live == h'.live
  {
    var left := FreeAll(h', b).live;
    if whole {
      assert forall x :: x in b <==> x in Ids(h.next, h'.next);
      assert left == h.live;
    } else {
      forall x | x in b ensures x in h'.live && x !in h.live {}
      if left == h.live {
        forall x ensures b[x] == Fresh(h.next, h'.next)[x] {
          if x in Ids(h.next, h'.next) {
            assert x in h'.live && x !in h.live;
          }
        }
      }
    }
  }

  lemma OuterLeftIff(h: Heap, h': Heap, b: multiset<nat>, whole: bool, outer: multiset<nat>)
    requires HeapOk(h) && Owns(h, h', b, whole) && outer <= b
    ensures FreeAll(h', b - outer).live == h.live + Elements(outer) <==> whole
  {
    var left := FreeAll(h', b - outer).live;
    var f := Fresh(h.next, h'.next);
    forall x ensures outer[x] <= b[x] <= f[x] == if x in Ids(h.next, h'.next) then 1 else 0 {}
    forall x | x in Ids(h.next, h'.next) ensures x in left <==> outer[x] > 0 || b[x] == 0 {
      assert (b - outer)[x] == b[x] - outer[x];
    }
    if left == h.live + Elements(outer) {
      forall x ensures b[x] == f[x] {
        if x in Ids(h.next, h'.next) {
          assert x !in h.live && (x in left <==> x in Elements(outer));
        }
      }
    }
    if whole {
      forall x ensures x in left <==> x in h.live || x in outer {
        assert b[x] == f[x];
      }
    }
  }

  /** A table that cannot tell two keys apart: as booleans 1 and 2 share a cell, so the first value is displaced. The
      checker accepts the mapping, and releasing the table leaves the value allocated. */
  lemma DisplacedValueLeaks(h: Heap)
    requires HeapOk(h)
    ensures var (o, ty) := (PyDict([PyInt(1), PyInt(2)], [PyStr("a"), PyStr("b")]), THash(TBool, TStr));
            var (r, h') := Conv(o, ty, h);
            Checks(ty, o, false) && r.Good? && FreeAll(h', Freed(r.value, ty, Nothing)).live != h.live
  {
    hide *;
    DisplacedIsUnclean();
    DisplacedConverts(h);
    ConvertThenRelease(PyDict([PyInt(1), PyInt(2)], [PyStr("a"), PyStr("b")]), THash(TBool, TStr), h);
  }

  lemma DisplacedIsUnclean()
    ensures Checks(THash(TBool, TStr), PyDict([PyInt(1), PyInt(2)], [PyStr("a"), PyStr("b")]), false)
    ensures !Clean(PyDict([PyInt(1), PyInt(2)], [PyStr("a"), PyStr("b")]), THash(TBool, TStr))
  {
    var keys, values := [PyInt(1), PyInt(2)], [PyStr("a"), PyStr("b")];
    assert Clash(TBool, keys[0], keys[1]) && HasBlock(values[0], TStr);
    assert !NothingDisplaced(keys, values, TBool, TStr, 2);
  }

  lemma DisplacedConverts(h: Heap)
    ensures Conv(PyDict([PyInt(1), PyInt(2)], [PyStr("a"), PyStr("b")]), THash(TBool, TStr), h).0.Good?
  {
    var keys, values := [PyInt(1), PyInt(2)], [PyStr("a"), PyStr("b")];
    hide Insert, Pack, CText, FreeAll, FreedEntries, ConvPair, ConvEntries;
    var h0 := Alloc(h);
    EntriesUnfoldEmpty(keys, values, TBool, TStr, h0);
    var p := ConvEntries(keys, values, TBool, TStr, 1, h0);
    BoolPairConverts(1, "a", h0);
    EntriesUnfold(keys, values, TBool, TStr, 1, h0);
    BoolPairConverts(2, "b", p.heap);
    EntriesUnfold(keys, values, TBool, TStr, 2, h0);
  }

  lemma BoolPairConverts(n: nat, s: string, h: Heap)
    ensures ConvPair(PyInt(n), PyStr(s), TBool, TStr, h).0.Good?
  {
    hide CText;
  }

  // ---------------------------------------------------------------- failures halfway

  /** From `h` to `h'` exactly the blocks `b` stay allocated; every other block allocated on the way was freed, once. */
  ghost predicate Holds(h: Heap, h': Heap, b: multiset<nat>) {
    && h.next <= h'.next && b <= Fresh(h.next, h'.next) && h'.live == h.live + Elements(b)
    && h'.freed == h.freed + (Fresh(h.next, h'.next) - b)
  }

  lemma HoldsOwned(h: Heap, h': Heap, b: multiset<nat>)
    requires Owns(h, h', b, true)
    ensures Holds(h, h', b)
  {
    assert Elements(b) == Ids(h.next, h'.next);
  }

  lemma HoldsJoin(h: Heap, h1: Heap, h2: Heap, b1: multiset<nat>, b2: multiset<nat>)
    requires Holds(h, h1, b1) && Holds(h1, h2, b2)
    ensures Holds(h, h2, b1 + b2)
  {
    FreshSplit(h.next, h1.next, h2.next);
    var f1, f2 := Fresh(h.next, h1.next), Fresh(h1.next, h2.next);
    assert f1 + f2 - (b1 + b2) == (f1 - b1) + (f2 - b2);
    assert Elements(b1 + b2) == Elements(b1) + Elements(b2);
  }

  lemma HoldsLive(h: Heap, h': Heap, b: multiset<nat>)
    requires HeapOk(h) && Holds(h, h', b)
    ensures h'.live == h.live <==> b == multiset{}
  {
    if b != multiset{} {
      var x :| x in b;
      assert x in Fresh(h.next, h'.next) && x in Elements(b);
    }
  }

  lemma HoldsFree(h: Heap, h': Heap, b: multiset<nat>)
    requires HeapOk(h) && Holds(h, h', b)
    ensures Holds(h, FreeAll(h', b), multiset{})
  {
    var f := Fresh(h.next, h'.next);
    assert f - b + b == f && f - multiset{} == f;
    assert FreeAll(h', b).live == h.live;
  }

  lemma HoldsHeapOk(h: Heap, h': Heap, b: multiset<nat>)
    requires HeapOk(h) && Holds(h, h', b)
    ensures HeapOk(h')
  {
  }

  lemma HoldsNothing(h: Heap)
    ensures Holds(h, h, multiset{})
  {
    FreshOne(h.next);
  }

  lemma HoldsFreeSome(h: Heap, h': Heap, b: multiset<nat>, part: multiset<nat>)
    requires HeapOk(h) && Holds(h, h', b) && part <= b
    ensures Holds(h, FreeAll(h', part), b - part)
  {
    var f := Fresh(h.next, h'.next);
    assert f - (b - part) == f - b + part;
    forall x ensures x in FreeAll(h', part).live <==> x in h.live || x in b - part {
      assert b[x] <= f[x] <= 1;
    }
  }
}
