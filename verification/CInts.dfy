/** C integers of fixed width inside a zero-based 64-bit argument cell (little-endian union members). */
module CInts {

  datatype IntTag = Int8 | UInt8 | Int16 | UInt16 | Int32 | UInt32 | Int64 | UInt64

  function Modulus(tag: IntTag): int {
    match tag
    case Int8 | UInt8 => 0x100
    case Int16 | UInt16 => 0x1_0000
    case Int32 | UInt32 => 0x1_0000_0000
    case Int64 | UInt64 => 0x1_0000_0000_0000_0000
  }

  predicate Signed(tag: IntTag) { tag.Int8? || tag.Int16? || tag.Int32? || tag.Int64? }

  function Lowest(tag: IntTag): int { if Signed(tag) then -(Modulus(tag) / 2) else 0 }

  function Highest(tag: IntTag): int { if Signed(tag) then Modulus(tag) / 2 - 1 else Modulus(tag) - 1 }

  predicate Fits(tag: IntTag, n: int) { Lowest(tag) <= n <= Highest(tag) }

  /** The raw cell after the member of type `tag` is assigned `n`; the bytes above it keep what they held. */
  function Store(tag: IntTag, n: int, raw: int): int {
    raw - raw % Modulus(tag) + n % Modulus(tag)
  }

  /** Reading the member of type `tag`. */
  function Load(tag: IntTag, raw: int): (n: int)
    ensures Fits(tag, n)
  {
    var low := raw % Modulus(tag);
    if Signed(tag) && low >= Modulus(tag) / 2 then low - Modulus(tag) else low
  }

  /** A value survives the cell exactly when its type holds it, whatever the cell held before. */
  lemma StoreLoad(tag: IntTag, n: int, raw: int)
    ensures Load(tag, Store(tag, n, raw)) == n <==> Fits(tag, n)
  {
    var m := Modulus(tag);
    var high := raw / m;
    assert raw - raw % m == high * m;
    assert Store(tag, n, raw) % m == n % m by {
      ModAdd(high, m, n % m);
    }
  }

  /** A fitting natural number fills a zeroed cell as it is. */
  lemma StoreSmall(tag: IntTag, n: nat)
    requires Fits(tag, n)
    ensures Store(tag, n, 0) == n
  {
    var m := Modulus(tag);
    assert n < m;
    ModAdd(0, m, n);
    ModAdd(0, m, 0);
    hide Modulus, Fits;
  }

  lemma ModAdd(k: int, m: int, r: int)
    requires m > 0 && 0 <= r < m
    ensures (k * m + r) % m == r
  {
    var q := (k * m + r) / m;
    MulLe(k + 1, q, m);
    MulLe(q + 1, k, m);
  }

  lemma MulLe(a: int, b: int, m: int)
    requires m > 0
    ensures a <= b ==> a * m <= b * m
  {
  }

  lemma NestedMod(n: int, k: int, m: int)
    requires m > 0 && k > 0
    ensures k * m > 0 && (n % (k * m)) % m == n % m
  {
    MulLe(1, k, m);
    var q, r := n / (k * m), n % (k * m);
    var q2, r2 := r / m, r % m;
    assert n == (q * k + q2) * m + r2;
    ModAdd(q * k + q2, m, r2);
  }

  /** Reading back `n` from low bytes that agree with it. */
  lemma LoadAgrees(tag: IntTag, n: nat, raw: int)
    requires raw % Modulus(tag) == n % Modulus(tag)
    ensures Load(tag, raw) == n <==> Fits(tag, n)
  {
  }

  lemma NarrowRaw(tag: IntTag, n: nat)
    requires Modulus(tag) <= 0x1_0000_0000
    ensures (n % 0x1_0000_0000) % Modulus(tag) == n % Modulus(tag)
  {
    match tag
    case Int8 | UInt8 => NestedMod(n, 0x100_0000, 0x100);
    case Int16 | UInt16 => NestedMod(n, 0x1_0000, 0x1_0000);
    case _ => NestedMod(n, 1, 0x1_0000_0000);
  }

  /** An integer of at most 32 bits survives a pointer: widened to a long, then read back as an int of its
      signedness. */
  lemma PointerSurvives(tag: IntTag, n: int)
    requires Fits(tag, n) && Modulus(tag) <= 0x1_0000_0000
    ensures Load(if Signed(tag) then Int32 else UInt32, Store(Int64, n, 0)) == n
  {
    hide Load, Store, Fits;
    NestedMod(n, 0x1_0000_0000, 0x1_0000_0000);
    WideStore(n);
    FitsWord(tag, n);
    WordLoads(if Signed(tag) then Int32 else UInt32, n, Store(Int64, n, 0));
  }

  lemma WideStore(n: int)
    ensures Store(Int64, n, 0) == n % 0x1_0000_0000_0000_0000
  {
  }

  lemma FitsWord(tag: IntTag, n: int)
    requires Fits(tag, n) && Modulus(tag) <= 0x1_0000_0000
    ensures Fits(if Signed(tag) then Int32 else UInt32, n)
  {
  }

  lemma WordLoads(tag: IntTag, n: int, raw: int)
    requires Fits(tag, n) && (tag == Int32 || tag == UInt32) && raw % 0x1_0000_0000 == n % 0x1_0000_0000
    ensures Load(tag, raw) == n
  {
  }

  lemma LoadWide(tag: IntTag, raw: nat)
    requires Modulus(tag) > 0x1_0000_0000 > raw
    ensures Load(tag, raw) == raw && Fits(tag, raw)
  {
  }

  lemma Mod32(n: nat)
    ensures 0 <= n % 0x1_0000_0000 < 0x1_0000_0000 && (n < 0x1_0000_0000 <==> n % 0x1_0000_0000 == n)
    ensures Store(Int32, n, 0) == n % 0x1_0000_0000
  {
  }

  /** A length written through a `gint *` into a zeroed cell is read back exactly when it fits its own type
      and 32 bits. */
  lemma StoreThroughGint(tag: IntTag, n: nat)
    ensures Load(tag, Store(Int32, n, 0)) == n <==> Fits(tag, n) && n < 0x1_0000_0000
  {
    Mod32(n);
    if Modulus(tag) <= 0x1_0000_0000 {
      NarrowRaw(tag, n);
      LoadAgrees(tag, n, Store(Int32, n, 0));
      assert Fits(tag, n) ==> n < 0x1_0000_0000;
    } else {
      LoadWide(tag, n % 0x1_0000_0000);
    }
    hide Load, Store;
  }
}
