/** Lists and tables of scalars packed into pointers: the `glist`, `gslist` and `ghash` marshallers of
    `gi/pygi-marshal-from-py.c` and `gi/pygi-marshal-to-py.c`. */
module Packing {
  import opened Prelude
  import opened CInts
  import opened Argument
  import opened RoundTrip
  import Normal

  /** What the item marshallers find around them: the bytes an uninitialised GIArgument holds when the i-th item is
      stored, and the block that the i-th copied string gets. */
  datatype Around = Around(garbage: int -> int, block: int -> nat)

  predicate Packable(ty: Ty) { ty.TInt? || ty.TStr? }

  /** The number a marshaller sees; a single byte is a number for the 8-bit types. */
  function Number(tag: IntTag, o: Py): Option<int> {
    match o
    case PyBytes(b) =>
      if (tag.Int8? || tag.UInt8?) && |b| == 1 then Some(if tag.Int8? then Load(Int8, b[0]) else b[0]) else None
    case _ => AsLong(o)
  }

  /** The item marshallers for integers and strings. */
  function Item(o: Py, ty: Ty, around: Around, i: nat): Option<CArg> {
    match ty
    case TInt(tag) =>
      var n := Number(tag, o);
      if n.Some? && Fits(tag, n.value) then Some(Raw(Store(tag, n.value, around.garbage(i)))) else None
    case TStr =>
      (match o
       case PyNone => Some(Null)
       case PyStr(s) => Some(Str(around.block(i), CText(s)))
       case _ => None)
    case _ => None
  }

  /** What a container holds for item `o`, and what it reads back. */
  function Packed(o: Py, ty: Ty, around: Around, i: nat): Option<CArg> {
    match Item(o, ty, around, i) case Some(v) => Some(Pack(ty, v)) case None => None
  }

  function Read(p: CArg, ty: Ty): Py { ToObject(Unpack(ty, p), ty) }

  /** Whatever the unused bytes held, packing and unpacking gives back exactly the plain, accepted objects;
      and whatever it gives back is one of them. */
  lemma ScalarReturns(o: Py, ty: Ty, around: Around, i: nat)
    requires Packable(ty)
    ensures (Packed(o, ty, around, i).Some? && Read(Packed(o, ty, around, i).value, ty) == o) <==> Survives(ty, o)
    ensures Packed(o, ty, around, i).Some? ==> Survives(ty, Read(Packed(o, ty, around, i).value, ty))
  {
    var item := Item(o, ty, around, i);
    if item.Some? {
      PackSurvives(ty, item.value);
      match ty
      case TInt(tag) =>
        StoreLoad(tag, Number(tag, o).value, around.garbage(i));
        hide Store, Load, Fits, Pack, Unpack;
        assert Read(Packed(o, ty, around, i).value, ty) == PyInt(Number(tag, o).value);
      case TStr =>
      case _ =>
    }
  }

  /** Which scalars are packed, and what each comes back as: booleans as 0 and 1, a single byte as a number of its sign,
      strings up to their first NUL. */
  lemma ScalarReads(o: Py, ty: Ty, around: Around, i: nat)
    requires Packable(ty) && PythonOk(o)
    ensures var p := Packed(o, ty, around, i);
            match ty
            case TInt(tag) =>
              var (low, count) := Normal.Range(tag);
              && (p.Some? <==> || o.PyBool? || (o.PyInt? && low <= o.n < low + count)
                               || (tag in {Int8, UInt8} && o.PyBytes? && |o.bytes| == 1))
              && (p.Some? ==> Read(p.value, ty) == PyInt(
                    if o.PyInt? then o.n else if o.PyBool? then (if o.b then 1 else 0)
                    else if o.PyBytes? && |o.bytes| == 1 && tag == Int8 && o.bytes[0] >= 0x80 then o.bytes[0] - 0x100
                    else if o.PyBytes? && |o.bytes| == 1 then o.bytes[0] else 0))
            case TStr =>
              && (p.Some? <==> o == PyNone || o.PyStr?)
              && (p.Some? ==> Read(p.value, ty) == if o.PyStr? then PyStr(CText(o.s)) else PyNone)
            case _ => true
  {
    var item := Item(o, ty, around, i);
    if ty.TInt? {
      var n := Number(ty.tag, o);
      if n.Some? {
        NumberFits(ty.tag, o);
        StoreLoad(ty.tag, n.value, around.garbage(i));
      }
    }
    if item.Some? {
      PackSurvives(ty, item.value);
    }
    hide Store, Load, Fits, Pack, Unpack, Normal.Range;
    if ty.TInt? {
      NumberIs(ty.tag, o);
    }
  }

  lemma NumberFits(tag: IntTag, o: Py)
    requires Number(tag, o).Some? && PythonOk(o)
    ensures var (low, count) := Normal.Range(tag);
            Fits(tag, Number(tag, o).value) <==> o.PyBool? || o.PyBytes? || (o.PyInt? && low <= o.n < low + count)
  {
    Normal.FitsRange(tag, Number(tag, o).value);
    if o.PyBytes? {
      assert o.bytes[0] in o.bytes;
    }
  }

  lemma NumberIs(tag: IntTag, o: Py)
    requires PythonOk(o)
    ensures Number(tag, o).Some? <==>
            o.PyInt? || o.PyBool? || (tag in {Int8, UInt8} && o.PyBytes? && |o.bytes| == 1)
    ensures Number(tag, o).Some? ==>
              (Number(tag, o).value ==
               if o.PyInt? then o.n else if o.PyBool? then (if o.b then 1 else 0)
               else if o.PyBytes? && |o.bytes| == 1 && tag == Int8 && o.bytes[0] >= 0x80 then o.bytes[0] - 0x100
               else if o.PyBytes? && |o.bytes| == 1 then o.bytes[0] else 0)
  {
    if o.PyBytes? && |o.bytes| == 1 {
      assert o.bytes[0] in o.bytes;
    }
  }

  // ---------------------------------------------------------------- lists

  function Reversed<T>(s: seq<T>): (r: seq<T>)
    ensures |r| == |s|
  {
    if s == [] then [] else Reversed(s[1..]) + [s[0]]
  }

  lemma {:induction false} ReversedAt<T>(s: seq<T>, k: nat)
    requires k < |s|
    ensures Reversed(s)[k] == s[|s| - 1 - k]
  {
    if k < |s| - 1 {
      ReversedAt(s[1..], k);
    }
  }

  /** What each cell of the list holds, front to back. */
  ghost predicate ListOf(items: seq<Py>, ty: Ty, around: Around, list: seq<CArg>) {
    |list| == |items| && forall i :: 0 <= i < |items| ==> Packed(items[i], ty, around, i) == Some(list[i])
  }

  /** Prepends every item, then reverses the list once. */
  method FromPyList(items: seq<Py>, ty: Ty, around: Around) returns (list: Option<seq<CArg>>)
    ensures list.Some? <==> forall i :: 0 <= i < |items| ==> Packed(items[i], ty, around, i).Some?
    ensures list.Some? ==> ListOf(items, ty, around, list.value)
  {
    hide Packed;
    var backwards: seq<CArg> := [];
    for i := 0 to |items|
      invariant |backwards| == i
      invariant forall j :: 0 <= j < i ==> Packed(items[j], ty, around, j) == Some(backwards[i - 1 - j])
    {
      var p := Packed(items[i], ty, around, i);
      if p.None? {
        return None;
      }
      backwards := [p.value] + backwards;
    }
    forall k | 0 <= k < |items| ensures Reversed(backwards)[k] == backwards[|items| - 1 - k] {
      ReversedAt(backwards, k);
    }
    list := Some(Reversed(backwards));
  }

  /** Walks the list, filling a Python list slot by slot. */
  method ToPyList(list: seq<CArg>, ty: Ty) returns (r: seq<Py>)
    ensures |r| == |list| && forall i :: 0 <= i < |list| ==> r[i] == Read(list[i], ty)
  {
    var slots := new Py[|list|];
    var rest, i := list, 0;
    while rest != []
      invariant 0 <= i <= |list| && rest == list[i..]
      invariant forall j :: 0 <= j < i ==> slots[j] == Read(list[j], ty)
      decreases |rest|
    {
      slots[i] := Read(rest[0], ty);
      rest, i := rest[1..], i + 1;
    }
    r := slots[..];
  }

  /** A list comes back as the same items in the same order exactly when every item is plain and accepted. */
  lemma ListRoundTrip(items: seq<Py>, ty: Ty, around: Around, list: seq<CArg>, back: seq<Py>)
    requires Packable(ty)
    requires ListOf(items, ty, around, list)
    requires |back| == |list| && forall i :: 0 <= i < |list| ==> back[i] == Read(list[i], ty)
    ensures back == items <==> forall i :: 0 <= i < |items| ==> Survives(ty, items[i])
  {
    hide Packed, Read, Survives;
    forall i | 0 <= i < |items| ensures back[i] == items[i] <==> Survives(ty, items[i]) {
      ScalarReturns(items[i], ty, around, i);
    }
  }

  /** Plain, accepted items are never refused. */
  lemma ListAccepted(items: seq<Py>, ty: Ty, around: Around, i: nat)
    requires Packable(ty) && i < |items| && Survives(ty, items[i])
    ensures Packed(items[i], ty, around, i).Some?
  {
    hide Packed, Read, Survives;
    ScalarReturns(items[i], ty, around, i);
  }

  // ---------------------------------------------------------------- tables

  type Table = map<KeyImage, Entry>

  function Put(t: Table, k: CArg, v: CArg): Table {
    var image := ImageOf(k);
    t[image := Entry(if image in t then t[image].key else k, v)]
  }

  /** The table after the first `n` pairs; a null string key cannot be hashed. */
  function Filled(keys: seq<Py>, values: seq<Py>, kty: Ty, vty: Ty, ka: Around, va: Around, n: nat): Outcome<Table>
    requires n <= |keys| == |values|
  {
    if n == 0 then Good(map[])
    else
      var p := Filled(keys, values, kty, vty, ka, va, n - 1);
      if !p.Good? then p
      else
        var k, v := Packed(keys[n - 1], kty, ka, n - 1), Packed(values[n - 1], vty, va, n - 1);
        if k.None? || v.None? then Bad
        else if kty.TStr? && k.value == Null then Undefined
        else Good(Put(p.value, k.value, v.value))
  }

  lemma {:induction false} FilledStop(keys: seq<Py>, values: seq<Py>, kty: Ty, vty: Ty, ka: Around, va: Around, i: nat,
                                      n: nat)
    requires i <= n <= |keys| == |values| && !Filled(keys, values, kty, vty, ka, va, i).Good?
    ensures Filled(keys, values, kty, vty, ka, va, n) == Filled(keys, values, kty, vty, ka, va, i)
  {
    if i < n {
      FilledStop(keys, values, kty, vty, ka, va, i, n - 1);
    }
  }

  method FromPyHash(keys: seq<Py>, values: seq<Py>, kty: Ty, vty: Ty, ka: Around, va: Around)
    returns (r: Outcome<Table>)
    requires |keys| == |values|
    ensures r == Filled(keys, values, kty, vty, ka, va, |keys|)
  {
    hide Packed, Put;
    var table: Table := map[];
    for i := 0 to |keys|
      invariant Filled(keys, values, kty, vty, ka, va, i) == Good(table)
    {
      var k, v := Packed(keys[i], kty, ka, i), Packed(values[i], vty, va, i);
      if k.None? || v.None? || (kty.TStr? && k.value == Null) {
        FilledStop(keys, values, kty, vty, ka, va, i + 1, |keys|);
        return if k.None? || v.None? then Bad else Undefined;
      }
      table := Put(table, k.value, v.value);
    }
    r := Good(table);
  }

  /** What the items become when all of them can be packed. */
  ghost predicate AllPacked(items: seq<Py>, ty: Ty, around: Around, n: nat, packed: seq<CArg>)
    requires n <= |items|
  {
    |packed| == n && forall i :: 0 <= i < n ==> Packed(items[i], ty, around, i) == Some(packed[i])
  }

  ghost predicate HasImage(ks: seq<CArg>, i: int, image: KeyImage) { 0 <= i < |ks| && ImageOf(ks[i]) == image }

  /** For each image of a key one entry, and nothing else: it holds the first key with this image, and the value that
      came with the last. */
  ghost predicate FirstKeysLastValues(ks: seq<CArg>, vs: seq<CArg>, t: Table)
    requires |ks| == |vs|
  {
    && (forall image :: image in t <==> exists i :: HasImage(ks, i, image))
    && (forall image :: image in t ==> EntryOf(ks, vs, t[image], image))
  }

  ghost predicate EntryOf(ks: seq<CArg>, vs: seq<CArg>, e: Entry, image: KeyImage)
    requires |ks| == |vs|
  {
    && (exists f :: HasImage(ks, f, image) && e.key == ks[f] && forall j :: 0 <= j < f ==> !HasImage(ks, j, image))
    && (exists l :: HasImage(ks, l, image) && e.value == vs[l] && forall j :: l < j < |ks| ==> !HasImage(ks, j, image))
  }

  lemma PutNext(ks: seq<CArg>, vs: seq<CArg>, t: Table, k: CArg, v: CArg)
    requires |ks| == |vs| && FirstKeysLastValues(ks, vs, t)
    ensures FirstKeysLastValues(ks + [k], vs + [v], Put(t, k, v))
  {
    hide ImageOf;
    var ks', vs', t' := ks + [k], vs + [v], Put(t, k, v);
    forall i, image ensures HasImage(ks', i, image) <==> HasImage(ks, i, image) || (i == |ks| && ImageOf(k) == image) {}
    assert HasImage(ks', |ks|, ImageOf(k));
    forall image | image in t' ensures EntryOf(ks', vs', t'[image], image) {
      if image in t {
        var f :| HasImage(ks, f, image) && t[image].key == ks[f] && forall j :: 0 <= j < f ==> !HasImage(ks, j, image);
        assert HasImage(ks', f, image) && t'[image].key == ks'[f];
        if image != ImageOf(k) {
          var l :| HasImage(ks, l, image) && t[image].value == vs[l]
                   && forall j :: l < j < |ks| ==> !HasImage(ks, j, image);
          assert HasImage(ks', l, image) && t'[image].value == vs'[l];
        }
      }
    }
  }

  /** What the table becomes, clashing keys included. */
  lemma {:induction false} FilledEntries(keys: seq<Py>, values: seq<Py>, kty: Ty, vty: Ty, ka: Around, va: Around,
                                         n: nat) returns (ks: seq<CArg>, vs: seq<CArg>)
    requires n <= |keys| == |values|
    ensures var r := Filled(keys, values, kty, vty, ka, va, n);
            if forall i :: 0 <= i < n ==>
                 Packed(keys[i], kty, ka, i).Some? && Packed(values[i], vty, va, i).Some?
                 && !(kty.TStr? && keys[i] == PyNone)
            then r.Good? && AllPacked(keys, kty, ka, n, ks) && AllPacked(values, vty, va, n, vs)
                 && FirstKeysLastValues(ks, vs, r.value)
            else !r.Good?
  {
    hide Packed, Put, FirstKeysLastValues;
    if n == 0 {
      ks, vs := [], [];
      NoEntries();
    } else {
      ks, vs := FilledEntries(keys, values, kty, vty, ka, va, n - 1);
      var p := Filled(keys, values, kty, vty, ka, va, n - 1);
      var k, v := Packed(keys[n - 1], kty, ka, n - 1), Packed(values[n - 1], vty, va, n - 1);
      NullIsNone(keys[n - 1], kty, ka, n - 1);
      if p.Good? && k.Some? && v.Some? && !(kty.TStr? && keys[n - 1] == PyNone) {
        PutNext(ks, vs, p.value, k.value, v.value);
        ks, vs := ks + [k.value], vs + [v.value];
      }
    }
  }

  lemma NoEntries()
    ensures FirstKeysLastValues([], [], map[])
  {
  }

  lemma NullIsNone(o: Py, kty: Ty, around: Around, i: nat)
    ensures kty.TStr? && Packed(o, kty, around, i).Some? ==>
              (Packed(o, kty, around, i).value == Null <==> o == PyNone)
  {
  }

  /** `d` is what some order of iteration over the table puts into a dictionary. */
  ghost predicate ReadsAs(t: Table, kty: Ty, vty: Ty, d: map<Py, Py>) {
    && (forall image :: image in t ==> Read(t[image].key, kty) in d)
    && (forall k :: k in d ==>
          exists image :: image in t && Read(t[image].key, kty) == k && Read(t[image].value, vty) == d[k])
  }

  /** Iterates in an order of the table's own. */
  method ToPyHash(t: Table, kty: Ty, vty: Ty) returns (d: map<Py, Py>)
    ensures ReadsAs(t, kty, vty, d)
  {
    hide Read;
    d := map[];
    var todo := t.Keys;
    while todo != {}
      invariant todo <= t.Keys
      invariant forall image :: image in t && image !in todo ==> Read(t[image].key, kty) in d
      invariant forall k :: k in d ==>
                  exists image :: image in t && Read(t[image].key, kty) == k && Read(t[image].value, vty) == d[k]
      decreases |todo|
    {
      var image :| image in todo;
      d := d[Read(t[image].key, kty) := Read(t[image].value, vty)];
      todo := todo - {image};
    }
  }

  /** `d` is the mapping with these keys and values. */
  ghost predicate Is(d: map<Py, Py>, keys: seq<Py>, values: seq<Py>)
    requires |keys| == |values|
  {
    (forall k :: k in d <==> k in keys) && forall i :: 0 <= i < |keys| ==> keys[i] in d && d[keys[i]] == values[i]
  }

  /** The first `n` pairs survive, and no null string is a key. */
  ghost predicate AllSurvive(keys: seq<Py>, values: seq<Py>, kty: Ty, vty: Ty, n: nat)
    requires n <= |keys| == |values|
  {
    forall i :: 0 <= i < n ==> Survives(kty, keys[i]) && Survives(vty, values[i]) && !(kty.TStr? && keys[i] == PyNone)
  }

  predicate Kind(k: CArg, kty: Ty) { (kty.TStr? ==> k.Str?) && (kty.TInt? ==> k.Raw?) }

  /** Every entry of the table is one of the first `n` pairs, and every such pair has an entry. */
  ghost predicate Holds(keys: seq<Py>, values: seq<Py>, kty: Ty, vty: Ty, n: nat, t: Table)
    requires n <= |keys| == |values|
  {
    && (forall image :: image in t ==> FromPair(keys, values, kty, vty, n, t, image))
    && (forall i :: 0 <= i < n ==> HasPair(keys, values, kty, vty, i, t))
  }

  ghost predicate FromPair(keys: seq<Py>, values: seq<Py>, kty: Ty, vty: Ty, n: nat, t: Table, image: KeyImage)
    requires n <= |keys| == |values| && image in t
  {
    ImageOf(t[image].key) == image && Kind(t[image].key, kty)
    && exists i :: 0 <= i < n && PairOf(keys, values, kty, vty, i, t[image])
  }

  ghost predicate HasPair(keys: seq<Py>, values: seq<Py>, kty: Ty, vty: Ty, i: nat, t: Table)
    requires i < |keys| == |values|
  {
    exists image :: image in t && PairOf(keys, values, kty, vty, i, t[image])
  }

  ghost predicate PairOf(keys: seq<Py>, values: seq<Py>, kty: Ty, vty: Ty, i: nat, e: Entry)
    requires i < |keys| == |values|
  {
    Read(e.key, kty) == keys[i] && Read(e.value, vty) == values[i]
  }

  lemma {:induction false} FilledHolds(keys: seq<Py>, values: seq<Py>, kty: Ty, vty: Ty, ka: Around, va: Around, n: nat)
    requires n <= |keys| == |values| && NoDup(keys) && Packable(kty) && Packable(vty)
    requires AllSurvive(keys, values, kty, vty, n)
    ensures var r := Filled(keys, values, kty, vty, ka, va, n);
            r.Good? && Holds(keys, values, kty, vty, n, r.value)
  {
    hide *;
    if n == 0 {
      FilledEmpty(keys, values, kty, vty, ka, va);
      HoldsEmpty(keys, values, kty, vty);
    } else {
      var i := n - 1;
      LastSurvives(keys, values, kty, vty, n);
      FilledHolds(keys, values, kty, vty, ka, va, i);
      var t := Filled(keys, values, kty, vty, ka, va, i).value;
      ScalarReturns(keys[i], kty, ka, i);
      ScalarReturns(values[i], vty, va, i);
      KindOf(keys[i], kty, ka, i);
      FilledOne(keys, values, kty, vty, ka, va, n);
      PutHolds(keys, values, kty, vty, n, t, Packed(keys[i], kty, ka, i).value, Packed(values[i], vty, va, i).value);
    }
  }

  lemma LastSurvives(keys: seq<Py>, values: seq<Py>, kty: Ty, vty: Ty, n: nat)
    requires 0 < n <= |keys| == |values| && AllSurvive(keys, values, kty, vty, n)
    ensures AllSurvive(keys, values, kty, vty, n - 1)
    ensures Survives(kty, keys[n - 1]) && Survives(vty, values[n - 1]) && !(kty.TStr? && keys[n - 1] == PyNone)
  {
    hide Survives;
  }

  lemma HoldsEmpty(keys: seq<Py>, values: seq<Py>, kty: Ty, vty: Ty)
    requires |keys| == |values|
    ensures Holds(keys, values, kty, vty, 0, map[])
  {
  }

  lemma FilledOne(keys: seq<Py>, values: seq<Py>, kty: Ty, vty: Ty, ka: Around, va: Around, n: nat)
    requires 0 < n <= |keys| == |values|
    ensures var p := Filled(keys, values, kty, vty, ka, va, n - 1);
            var k, v := Packed(keys[n - 1], kty, ka, n - 1), Packed(values[n - 1], vty, va, n - 1);
            p.Good? && k.Some? && v.Some? && !(kty.TStr? && k.value == Null) ==>
              Filled(keys, values, kty, vty, ka, va, n) == Good(Put(p.value, k.value, v.value))
  {
    hide Packed, Put;
  }

  lemma KindOf(o: Py, kty: Ty, around: Around, i: nat)
    ensures Packed(o, kty, around, i).Some? && !(kty.TStr? && o == PyNone) ==>
              Kind(Packed(o, kty, around, i).value, kty) && !(kty.TStr? && Packed(o, kty, around, i).value == Null)
    ensures kty.TStr? && Packed(o, kty, around, i) == Some(Null) ==> o == PyNone
  {
  }

  /** Keys with the same image read back as the same object. */
  lemma SameImage(a: CArg, b: CArg, kty: Ty)
    requires Packable(kty) && ImageOf(a) == ImageOf(b) && Kind(a, kty) && Kind(b, kty)
    ensures Read(a, kty) == Read(b, kty)
  {
  }

  lemma PutHolds(keys: seq<Py>, values: seq<Py>, kty: Ty, vty: Ty, n: nat, t: Table, k: CArg, v: CArg)
    requires 0 < n <= |keys| == |values| && NoDup(keys) && Packable(kty)
    requires Holds(keys, values, kty, vty, n - 1, t) && Kind(k, kty)
    requires Read(k, kty) == keys[n - 1] && Read(v, vty) == values[n - 1]
    ensures Holds(keys, values, kty, vty, n, Put(t, k, v))
  {
    hide *;
    NewImage(keys, values, kty, vty, n, t, k);
    PutFrom(keys, values, kty, vty, n, t, k, v);
    PutHas(keys, values, kty, vty, n, t, k, v);
    HoldsIs(keys, values, kty, vty, n, Put(t, k, v));
  }

  lemma HoldsIs(keys: seq<Py>, values: seq<Py>, kty: Ty, vty: Ty, n: nat, t: Table)
    requires n <= |keys| == |values|
    requires forall image :: image in t ==> FromPair(keys, values, kty, vty, n, t, image)
    requires forall i :: 0 <= i < n ==> HasPair(keys, values, kty, vty, i, t)
    ensures Holds(keys, values, kty, vty, n, t)
  {
    hide FromPair, HasPair;
  }

  lemma NewImage(keys: seq<Py>, values: seq<Py>, kty: Ty, vty: Ty, n: nat, t: Table, k: CArg)
    requires 0 < n <= |keys| == |values| && NoDup(keys) && Packable(kty)
    requires Holds(keys, values, kty, vty, n - 1, t) && Kind(k, kty) && Read(k, kty) == keys[n - 1]
    ensures ImageOf(k) !in t
  {
    hide Read, ImageOf, Kind, HasPair, PairOf;
    var image := ImageOf(k);
    if image in t {
      assert FromPair(keys, values, kty, vty, n - 1, t, image);
      SameImage(t[image].key, k, kty);
      NotBefore(keys, values, kty, vty, n, t[image]);
    }
  }

  lemma NotBefore(keys: seq<Py>, values: seq<Py>, kty: Ty, vty: Ty, n: nat, e: Entry)
    requires 0 < n <= |keys| == |values| && NoDup(keys) && Read(e.key, kty) == keys[n - 1]
    ensures forall i :: 0 <= i < n - 1 ==> !PairOf(keys, values, kty, vty, i, e)
  {
    hide Read;
  }

  lemma PutFrom(keys: seq<Py>, values: seq<Py>, kty: Ty, vty: Ty, n: nat, t: Table, k: CArg, v: CArg)
    requires 0 < n <= |keys| == |values| && Holds(keys, values, kty, vty, n - 1, t) && Kind(k, kty) && ImageOf(k) !in t
    requires Read(k, kty) == keys[n - 1] && Read(v, vty) == values[n - 1]
    ensures forall image :: image in Put(t, k, v) ==> FromPair(keys, values, kty, vty, n, Put(t, k, v), image)
  {
    hide Read, ImageOf, Kind, HasPair;
    var after := Put(t, k, v);
    forall m | m in after ensures FromPair(keys, values, kty, vty, n, after, m) {
      if m == ImageOf(k) {
        var last := n - 1;
        assert PairOf(keys, values, kty, vty, last, after[m]);
      } else {
        assert FromPair(keys, values, kty, vty, n - 1, t, m) && after[m] == t[m];
      }
    }
  }

  lemma PutHas(keys: seq<Py>, values: seq<Py>, kty: Ty, vty: Ty, n: nat, t: Table, k: CArg, v: CArg)
    requires 0 < n <= |keys| == |values| && Holds(keys, values, kty, vty, n - 1, t) && ImageOf(k) !in t
    requires Read(k, kty) == keys[n - 1] && Read(v, vty) == values[n - 1]
    ensures forall i :: 0 <= i < n ==> HasPair(keys, values, kty, vty, i, Put(t, k, v))
  {
    hide Read, ImageOf, Kind, FromPair;
    var after := Put(t, k, v);
    forall i | 0 <= i < n ensures HasPair(keys, values, kty, vty, i, after) {
      if i < n - 1 {
        assert HasPair(keys, values, kty, vty, i, t);
        var m :| m in t && PairOf(keys, values, kty, vty, i, t[m]);
        assert m in after && after[m] == t[m];
      } else {
        assert PairOf(keys, values, kty, vty, i, after[ImageOf(k)]);
      }
    }
  }

  /** Whatever went in, what a table reads back survives. */
  lemma {:induction false} FilledReads(keys: seq<Py>, values: seq<Py>, kty: Ty, vty: Ty, ka: Around, va: Around, n: nat)
    requires n <= |keys| == |values| && Packable(kty) && Packable(vty)
    requires Filled(keys, values, kty, vty, ka, va, n).Good?
    ensures var t := Filled(keys, values, kty, vty, ka, va, n).value;
            forall image :: image in t ==> ReadsSurvive(t[image], kty, vty)
  {
    hide *;
    if n > 0 {
      var i := n - 1;
      FilledUnfold(keys, values, kty, vty, ka, va, n);
      FilledReads(keys, values, kty, vty, ka, va, i);
      ScalarReturns(keys[i], kty, ka, i);
      ScalarReturns(values[i], vty, va, i);
      NotNone(keys[i], kty, ka, i);
      ReadsSurviveIs(Packed(keys[i], kty, ka, i), Packed(values[i], vty, va, i), kty, vty);
      PutSurvives(Filled(keys, values, kty, vty, ka, va, i).value, Packed(keys[i], kty, ka, i).value,
                  Packed(values[i], vty, va, i).value, kty, vty);
    } else {
      FilledEmpty(keys, values, kty, vty, ka, va);
    }
  }

  lemma FilledEmpty(keys: seq<Py>, values: seq<Py>, kty: Ty, vty: Ty, ka: Around, va: Around)
    requires |keys| == |values|
    ensures Filled(keys, values, kty, vty, ka, va, 0) == Good(map[])
  {
  }

  lemma FilledUnfold(keys: seq<Py>, values: seq<Py>, kty: Ty, vty: Ty, ka: Around, va: Around, n: nat)
    requires 0 < n <= |keys| == |values| && Filled(keys, values, kty, vty, ka, va, n).Good?
    ensures var p := Filled(keys, values, kty, vty, ka, va, n - 1);
            var k, v := Packed(keys[n - 1], kty, ka, n - 1), Packed(values[n - 1], vty, va, n - 1);
            && p.Good? && k.Some? && v.Some? && !(kty.TStr? && k.value == Null)
            && Filled(keys, values, kty, vty, ka, va, n).value == Put(p.value, k.value, v.value)
  {
    hide Packed, Put;
  }

  ghost predicate ReadsSurvive(e: Entry, kty: Ty, vty: Ty) {
    Survives(kty, Read(e.key, kty)) && Survives(vty, Read(e.value, vty)) && !(kty.TStr? && Read(e.key, kty) == PyNone)
  }

  lemma ReadsSurviveIs(k: Option<CArg>, v: Option<CArg>, kty: Ty, vty: Ty)
    requires k.Some? && v.Some?
    requires Survives(kty, Read(k.value, kty)) && Survives(vty, Read(v.value, vty))
    requires !(kty.TStr? && Read(k.value, kty) == PyNone)
    ensures ReadsSurvive(Entry(k.value, v.value), kty, vty)
  {
    hide Survives, Read;
  }

  lemma PutSurvives(t: Table, k: CArg, v: CArg, kty: Ty, vty: Ty)
    requires (forall image :: image in t ==> ReadsSurvive(t[image], kty, vty)) && ReadsSurvive(Entry(k, v), kty, vty)
    ensures var after := Put(t, k, v);
            forall image :: image in after ==> ReadsSurvive(after[image], kty, vty)
  {
    hide Survives, Read, ImageOf;
    if ImageOf(k) in t {
      assert ReadsSurvive(t[ImageOf(k)], kty, vty);
    }
  }

  lemma NotNone(o: Py, kty: Ty, around: Around, i: nat)
    ensures kty.TStr? && Packed(o, kty, around, i).Some? && Packed(o, kty, around, i).value != Null ==>
              Read(Packed(o, kty, around, i).value, kty) != PyNone
  {
  }

  /** A mapping comes back the same, whatever the order of iteration, exactly when its keys and values are plain and
      accepted and no key is None; and then it is never refused. */
  lemma HashRoundTrip(keys: seq<Py>, values: seq<Py>, kty: Ty, vty: Ty, ka: Around, va: Around)
    requires |keys| == |values| && NoDup(keys) && Packable(kty) && Packable(vty)
    ensures var r := Filled(keys, values, kty, vty, ka, va, |keys|);
            && (AllSurvive(keys, values, kty, vty, |keys|) ==> r.Good?)
            && (r.Good? ==> forall d :: ReadsAs(r.value, kty, vty, d) ==>
                  (Is(d, keys, values) <==> AllSurvive(keys, values, kty, vty, |keys|)))
  {
    hide *;
    var r := Filled(keys, values, kty, vty, ka, va, |keys|);
    if AllSurvive(keys, values, kty, vty, |keys|) {
      FilledHolds(keys, values, kty, vty, ka, va, |keys|);
      forall d | ReadsAs(r.value, kty, vty, d) ensures Is(d, keys, values) {
        HeldReads(keys, values, kty, vty, r.value, d);
      }
    }
    if r.Good? {
      FilledReads(keys, values, kty, vty, ka, va, |keys|);
      forall d | ReadsAs(r.value, kty, vty, d) && Is(d, keys, values)
        ensures AllSurvive(keys, values, kty, vty, |keys|) {
        ReadSurvives(keys, values, kty, vty, r.value, d);
      }
    }
  }

  lemma HeldReads(keys: seq<Py>, values: seq<Py>, kty: Ty, vty: Ty, t: Table, d: map<Py, Py>)
    requires |keys| == |values| && NoDup(keys) && Holds(keys, values, kty, vty, |keys|, t) && ReadsAs(t, kty, vty, d)
    ensures Is(d, keys, values)
  {
    hide *;
    forall k | k in d ensures k in keys {
      ReadKey(keys, values, kty, vty, t, d, k);
    }
    forall i | 0 <= i < |keys| ensures keys[i] in d && d[keys[i]] == values[i] {
      KeyRead(keys, values, kty, vty, t, d, i);
      ReadKey(keys, values, kty, vty, t, d, keys[i]);
    }
    IsMapping(d, keys, values);
  }

  lemma IsMapping(d: map<Py, Py>, keys: seq<Py>, values: seq<Py>)
    requires |keys| == |values| && (forall k :: k in d ==> k in keys)
    requires forall i :: 0 <= i < |keys| ==> keys[i] in d && d[keys[i]] == values[i]
    ensures Is(d, keys, values)
  {
  }

  lemma KeyRead(keys: seq<Py>, values: seq<Py>, kty: Ty, vty: Ty, t: Table, d: map<Py, Py>, i: nat)
    requires i < |keys| == |values| && Holds(keys, values, kty, vty, |keys|, t) && ReadsAs(t, kty, vty, d)
    ensures keys[i] in d
  {
    hide Read, ImageOf, Kind;
    assert HasPair(keys, values, kty, vty, i, t);
  }

  lemma ReadKey(keys: seq<Py>, values: seq<Py>, kty: Ty, vty: Ty, t: Table, d: map<Py, Py>, k: Py)
    requires |keys| == |values| && NoDup(keys) && Holds(keys, values, kty, vty, |keys|, t) && ReadsAs(t, kty, vty, d)
    requires k in d
    ensures k in keys && forall i :: 0 <= i < |keys| && keys[i] == k ==> d[k] == values[i]
  {
    hide Read, ImageOf, Kind, HasPair;
    var image :| image in t && Read(t[image].key, kty) == k && Read(t[image].value, vty) == d[k];
    assert FromPair(keys, values, kty, vty, |keys|, t, image);
    var j :| 0 <= j < |keys| && PairOf(keys, values, kty, vty, j, t[image]);
  }

  lemma ReadSurvives(keys: seq<Py>, values: seq<Py>, kty: Ty, vty: Ty, t: Table, d: map<Py, Py>)
    requires |keys| == |values| && ReadsAs(t, kty, vty, d) && Is(d, keys, values)
    requires forall image :: image in t ==> ReadsSurvive(t[image], kty, vty)
    ensures AllSurvive(keys, values, kty, vty, |keys|)
  {
    hide Read, Survives;
    forall i | 0 <= i < |keys|
      ensures Survives(kty, keys[i]) && Survives(vty, values[i]) && !(kty.TStr? && keys[i] == PyNone) {
      var k := keys[i];
      var image :| image in t && Read(t[image].key, kty) == k && Read(t[image].value, vty) == d[k];
    }
  }
}
