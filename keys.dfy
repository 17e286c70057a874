/** Fixed-width unsigned integers and the composite key of the document tables.

    `composite_key_128` packs an item (or account) id, a faction id and a language id
    into one 128-bit value with two shifts and two bitwise ORs.  The shifts and the OR
    are written out here on `nat`, with the uint128 wrap-around made explicit, and the
    lemmas show that the packing is the sum item * 2^64 + faction * 2^32 + language,
    that it decodes, is injective and orders keys lexicographically.  The actions pass
    this 128-bit key to a lookup that takes a 64-bit primary key; `LookupKey` is that
    narrowed value. */
module Keys {

  const TWO_32: nat := 0x1_0000_0000
  const TWO_64: nat := 0x1_0000_0000_0000_0000
  const TWO_128: nat := 0x1_0000_0000_0000_0000_0000_0000_0000_0000

  type U32 = x: int | 0 <= x < 0x1_0000_0000
  type U64 = x: int | 0 <= x < 0x1_0000_0000_0000_0000
  type U128 = x: int | 0 <= x < 0x1_0000_0000_0000_0000_0000_0000_0000_0000

  /** 2^k. */
  function Pow2(k: nat): (r: nat)
    ensures r >= 1
  {
    if k == 0 then 1 else 2 * Pow2(k - 1)
  }

  lemma {:induction false} Pow2Add(j: nat, k: nat)
    ensures Pow2(j + k) == Pow2(j) * Pow2(k)
  {
    if k > 0 {
      Pow2Add(j, k - 1);
      assert Pow2(j + k) == 2 * Pow2(j + k - 1);
    }
  }

  lemma Pow2Widths()
    ensures Pow2(32) == TWO_32 && Pow2(64) == TWO_64
  {
    assert Pow2(1) == 2;
    assert Pow2(2) == 4;
    Pow2Add(2, 2);
    assert Pow2(4) == 16;
    Pow2Add(4, 4);
    assert Pow2(8) == 0x100;
    Pow2Add(8, 8);
    assert Pow2(16) == 0x1_0000;
    Pow2Add(16, 16);
    assert Pow2(32) == TWO_32;
    Pow2Add(32, 32);
  }

  lemma Pow2Of128()
    ensures Pow2(128) == TWO_128
  {
    Pow2Widths();
    Pow2Add(64, 64);
  }

  lemma {:induction false} MulAtLeast(n: nat, d: nat)
    requires n >= 1
    ensures n * d >= d
  {
    if n > 1 {
      MulAtLeast(n - 1, d);
      assert n * d == (n - 1) * d + d;
    }
  }

  /** Quotient and remainder of q * d + r by d, for r < d. */
  lemma DivModOf(q: nat, r: nat, d: nat)
    requires r < d
    ensures (q * d + r) / d == q && (q * d + r) % d == r
  {
    var x := q * d + r;
    var quotient := x / d;
    assert x == quotient * d + x % d;
    if quotient > q {
      assert (quotient - q) * d == quotient * d - q * d;
      MulAtLeast(quotient - q, d);
    } else if quotient < q {
      assert (q - quotient) * d == q * d - quotient * d;
      MulAtLeast(q - quotient, d);
    }
  }

  /** Bitwise OR of two naturals, bit by bit from the least significant one: the lowest
      bit is set when either lowest bit is, and the result covers both operands without
      exceeding their sum. */
  function BitOr(a: nat, b: nat): (r: nat)
    ensures r % 2 == (if a % 2 == 1 || b % 2 == 1 then 1 else 0)
    ensures a <= r && b <= r && r <= a + b
    decreases a + b
  {
    if a == 0 then b
    else if b == 0 then a
    else 2 * BitOr(a / 2, b / 2) + (if a % 2 == 1 || b % 2 == 1 then 1 else 0)
  }

  /** A multiple of p stays one after reduction modulo a multiple p * q of p. */
  lemma ModKeepsMultiple(a: nat, p: nat, q: nat)
    requires p * q > 0
    ensures ((a * p) % (p * q)) % p == 0
  {
    var m := (a * p) % (p * q);
    var d := (a * p) / (p * q);
    assert a * p == d * (p * q) + m;
    assert m == (a - d * q) * p;
    assert p > 0;
    assert a - d * q >= 0;
    DivModOf(a - d * q, 0, p);
  }

  /** `x << k` on uint128: the shifted value, wrapped to 128 bits.  It is the plain
      product when that fits, and for shifts up to the width its low k bits are clear. */
  function ShiftLeft128(x: U128, k: nat): (r: U128)
    ensures x * Pow2(k) < TWO_128 ==> r == x * Pow2(k)
    ensures k <= 128 ==> r % Pow2(k) == 0
  {
    if k <= 128 then
      Pow2Of128();
      Pow2Add(k, 128 - k);
      ModKeepsMultiple(x, Pow2(k), Pow2(128 - k));
      (x * Pow2(k)) % TWO_128
    else
      (x * Pow2(k)) % TWO_128
  }

  /** When the low k bits of a*2^k are clear and b fits in them, OR is addition. */
  lemma {:induction false} BitOrDisjoint(a: nat, b: nat, k: nat)
    requires b < Pow2(k)
    ensures BitOr(a * Pow2(k), b) == a * Pow2(k) + b
  {
    if k == 0 {
      assert b == 0;
    } else if a == 0 || b == 0 {
    } else {
      var half := a * Pow2(k - 1);
      assert a * Pow2(k) == 2 * half;
      assert (2 * half) / 2 == half && (2 * half) % 2 == 0;
      assert b / 2 < Pow2(k - 1);
      BitOrDisjoint(a, b / 2, k - 1);
      assert BitOr(2 * half, b) == 2 * (half + b / 2) + b % 2;
    }
  }

  /** The composite key as a number: item (or account) id in the high 64 bits, faction
      id in the next 32, language id in the low 32. */
  function PackedKey(itemId: U64, factionId: U32, languageId: U32): U128
  {
    itemId * TWO_64 + factionId * TWO_32 + languageId
  }

  /** Neither shift in the key wraps: both shifted fields fit in 128 bits. */
  lemma ShiftsFit(itemId: U64, factionId: U32)
    ensures ShiftLeft128(itemId, 64) == itemId * TWO_64
    ensures ShiftLeft128(factionId, 32) == factionId * TWO_32
  {
    Pow2Widths();
    assert itemId * TWO_64 < TWO_128;
    assert factionId * TWO_32 < TWO_128;
  }

  /** ORing the three shifted fields is adding them. */
  lemma OrIsSum(itemId: U64, factionId: U32, languageId: U32)
    ensures BitOr(BitOr(itemId * TWO_64, factionId * TWO_32), languageId) == PackedKey(itemId, factionId, languageId)
  {
    Pow2Widths();
    BitOrDisjoint(itemId, factionId * TWO_32, 64);
    var upper := itemId * TWO_32 + factionId;
    assert itemId * TWO_64 + factionId * TWO_32 == upper * Pow2(32);
    BitOrDisjoint(upper, languageId, 32);
  }

  /** The key as the header computes it:
      `(uint128_t{item_id} << 64) | (uint128_t{faction_id} << 32) | language_id`.
      The three fields occupy disjoint bit ranges, so the OR is their weighted sum. */
  function CompositeKey128(itemId: U64, factionId: U32, languageId: U32): (key: U128)
    ensures key == PackedKey(itemId, factionId, languageId)
  {
    ShiftsFit(itemId, factionId);
    OrIsSum(itemId, factionId, languageId);
    BitOr(BitOr(ShiftLeft128(itemId, 64), ShiftLeft128(factionId, 32)), languageId)
  }

  /** The three fields read back out of a key. */
  function KeyItem(key: U128): U64 { key / TWO_64 }
  function KeyFaction(key: U128): U32 { (key / TWO_32) % TWO_32 }
  function KeyLanguage(key: U128): U32 { key % TWO_32 }

  lemma CompositeKeyDecodes(itemId: U64, factionId: U32, languageId: U32)
    ensures var key := CompositeKey128(itemId, factionId, languageId);
            KeyItem(key) == itemId && KeyFaction(key) == factionId && KeyLanguage(key) == languageId
  {
    var key := CompositeKey128(itemId, factionId, languageId);
    var low := factionId * TWO_32 + languageId;
    DivModOf(itemId, low, TWO_64);
    var upper := itemId * TWO_32 + factionId;
    assert key == upper * TWO_32 + languageId;
    DivModOf(upper, languageId, TWO_32);
    DivModOf(itemId, factionId, TWO_32);
  }

  /** Distinct triples give distinct keys. */
  lemma CompositeKeyInjective(i1: U64, f1: U32, l1: U32, i2: U64, f2: U32, l2: U32)
    requires i1 != i2 || f1 != f2 || l1 != l2
    ensures CompositeKey128(i1, f1, l1) != CompositeKey128(i2, f2, l2)
  {
    CompositeKeyDecodes(i1, f1, l1);
    CompositeKeyDecodes(i2, f2, l2);
  }

  /** The lexicographic order on triples: item, then faction, then language. */
  predicate LexLess(i1: U64, f1: U32, l1: U32, i2: U64, f2: U32, l2: U32)
  {
    i1 < i2 || (i1 == i2 && (f1 < f2 || (f1 == f2 && l1 < l2)))
  }

  /** Keys compare exactly as their triples do. */
  lemma CompositeKeyOrder(i1: U64, f1: U32, l1: U32, i2: U64, f2: U32, l2: U32)
    ensures CompositeKey128(i1, f1, l1) < CompositeKey128(i2, f2, l2) <==> LexLess(i1, f1, l1, i2, f2, l2)
  {
    var low1 := f1 * TWO_32 + l1;
    var low2 := f2 * TWO_32 + l2;
    assert low1 < TWO_64 && low2 < TWO_64;
    if i1 < i2 {
      assert i1 * TWO_64 + TWO_64 <= i2 * TWO_64;
    } else if i2 < i1 {
      assert i2 * TWO_64 + TWO_64 <= i1 * TWO_64;
    } else if f1 < f2 {
      assert f1 * TWO_32 + TWO_32 <= f2 * TWO_32;
    } else if f2 < f1 {
      assert f2 * TWO_32 + TWO_32 <= f1 * TWO_32;
    }
  }

  /** Implicit C++ conversion of a uint128 to uint64: the low 64 bits. */
  /** It keeps the low 64 bits: x is the result plus a multiple of 2^64, and a value
      that already fits is unchanged. */
  function Narrow64(x: U128): (r: U64)
    ensures x == (x / TWO_64) * TWO_64 + r
    ensures x < TWO_64 ==> r == x
  {
    x % TWO_64
  }

  /** The 64-bit primary key actually looked up when an action passes
      `composite_key_128(a, f, l)` to a primary-key `get`: the composite key (which
      `CompositeKey128` shows equals `PackedKey`) narrowed to its low 64 bits.  Only the
      faction and the language survive; the item or account part is discarded. */
  function LookupKey(a: U64, factionId: U32, languageId: U32): (key: U64)
    ensures key == factionId * TWO_32 + languageId
  {
    DivModOf(a, factionId * TWO_32 + languageId, TWO_64);
    Narrow64(PackedKey(a, factionId, languageId))
  }

  /** `LookupKey` is the header's own key, shifts and ORs included, narrowed to 64 bits. */
  lemma LookupKeyNarrowsCompositeKey(a: U64, factionId: U32, languageId: U32)
    ensures LookupKey(a, factionId, languageId) == Narrow64(CompositeKey128(a, factionId, languageId))
  {
  }

  /** Two lookups hit the same row exactly when faction and language agree,
      whatever item or account they were made for. */
  lemma LookupKeyIgnoresItem(a1: U64, f1: U32, l1: U32, a2: U64, f2: U32, l2: U32)
    ensures LookupKey(a1, f1, l1) == LookupKey(a2, f2, l2) <==> (f1 == f2 && l1 == l2)
  {
    var k1 := LookupKey(a1, f1, l1);
    var k2 := LookupKey(a2, f2, l2);
    if k1 == k2 {
      DivModOf(f1, l1, TWO_32);
      DivModOf(f2, l2, TWO_32);
    }
  }

  /** The lookup key is the low half of the composite key: its faction and language
      fields read back, with the `a << 64` part lost entirely. */
  lemma LookupKeyIsLowHalf(a: U64, factionId: U32, languageId: U32)
    ensures LookupKey(a, factionId, languageId) == KeyFaction(CompositeKey128(a, factionId, languageId)) * TWO_32
                                                   + KeyLanguage(CompositeKey128(a, factionId, languageId))
  {
    CompositeKeyDecodes(a, factionId, languageId);
  }
}
