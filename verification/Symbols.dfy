/** Where a symbol's book lives: its 64-bit hash and the shard taken from the hash's upper bits. */
module Symbols {
  import opened Config
  import opened Orders

  const TWO_64: int := 0x1_0000_0000_0000_0000
  const MULTIPLIER: int := 0x9E37_79B9_7F4A_7C15
  const INVERSE: int := 0xF1DE_83E1_9937_733D   // of the multiplier, modulo 2^64

  // The four bytes as a 32-bit number, in little-endian order
  function Word32(s: Symbol): (w: nat)
    ensures w < 0x1_0000_0000
  {
    var b0: int, b1: int, b2: int, b3: int := s[0], s[1], s[2], s[3];
    b0 + 0x100 * (b1 + 0x100 * (b2 + 0x100 * b3))
  }

  function Mixed(s: Symbol): (m: nat)
    ensures m < TWO_64
  {
    Word32(s) * MULTIPLIER % TWO_64
  }

  // The product read as a signed 64-bit number
  function SymbolHash(s: Symbol): int {
    if Mixed(s) < TWO_64 / 2 then Mixed(s) else Mixed(s) - TWO_64
  }

  function ShardIndex(s: Symbol): (i: nat)
    ensures i < NUM_SHARDS
  {
    Mixed(s) / 0x1_0000_0000_0000 % NUM_SHARDS
  }

  lemma Word32Injective(s: Symbol, t: Symbol)
    requires Word32(s) == Word32(t)
    ensures s == t
  {
    var s1: int, s2: int, s3: int := s[1], s[2], s[3];
    var t1: int, t2: int, t3: int := t[1], t[2], t[3];
    FirstByte(s[0], s1 + 0x100 * (s2 + 0x100 * s3), t[0], t1 + 0x100 * (t2 + 0x100 * t3));
    FirstByte(s[1], s2 + 0x100 * s3, t[1], t2 + 0x100 * t3);
    FirstByte(s[2], s3, t[2], t3);
  }

  lemma FirstByte(a: Byte, x: int, b: Byte, y: int)
    requires a + 0x100 * x == b + 0x100 * y
    ensures a == b && x == y
  {}

  lemma Reduce(w: nat, t: int, x: int)
    requires w < TWO_64 && x == w + t * TWO_64
    ensures x % TWO_64 == w
  {}

  lemma InverseTimes(w: int, m: int, q: int)
    requires w * MULTIPLIER == m + q * TWO_64
    ensures m * INVERSE == w + (0x957B_BF35_006E_D677 * w - INVERSE * q) * TWO_64
  {}

  // Multiplying by the inverse undoes the multiplication modulo 2^64
  lemma Unmix(w: nat)
    requires w < 0x1_0000_0000
    ensures (w * MULTIPLIER % TWO_64) * INVERSE % TWO_64 == w
  {
    var m, q := w * MULTIPLIER % TWO_64, w * MULTIPLIER / TWO_64;
    InverseTimes(w, m, q);
    Reduce(w, 0x957B_BF35_006E_D677 * w - INVERSE * q, m * INVERSE);
  }

  /** Distinct symbols have distinct hashes, so no two of them share a book. */
  lemma HashInjective(s: Symbol, t: Symbol)
    requires SymbolHash(s) == SymbolHash(t)
    ensures s == t
  {
    Unmix(Word32(s));
    Unmix(Word32(t));
    Word32Injective(s, t);
  }

  // The shard of a symbol that is one byte and zeros
  function ShardOfByte(b: Byte): nat {
    b * MULTIPLIER % TWO_64 / 0x1_0000_0000_0000 % NUM_SHARDS
  }

  lemma FirstByteOnly(b: Byte)
    ensures ShardIndex([b, 0, 0, 0]) == ShardOfByte(b)
  {
    assert Word32([b, 0, 0, 0]) == b;
  }

  // The product by its quotient, its upper 16 bits and the rest
  lemma ByteShard(b: Byte, quotient: int, upper: int, lower: int)
    requires b * MULTIPLIER == quotient * TWO_64 + upper * 0x1_0000_0000_0000 + lower
    requires 0 <= upper < 0x1_0000 && 0 <= lower < 0x1_0000_0000_0000
    ensures ShardOfByte(b) == upper % NUM_SHARDS
  {
    Reduce(upper * 0x1_0000_0000_0000 + lower, quotient, b * MULTIPLIER);
  }

  lemma FirstBytes(shard: nat) returns (b: Byte)
    requires shard < NUM_SHARDS
    ensures ShardOfByte(b) == shard
  {
    ByteShard(0, 0, 0x0, 0x0);
    ByteShard(13, 8, 0x8D1, 0x2E6B76C84D11);
    ByteShard(11, 6, 0xCC62, 0x3AF8783354E7);
    ByteShard(9, 5, 0x8FF3, 0x4785799E5CBD);
    ByteShard(7, 4, 0x5384, 0x54127B096493);
    ByteShard(5, 3, 0x1715, 0x609F7C746C69);
    ByteShard(3, 1, 0xDAA6, 0x6D2C7DDF743F);
    ByteShard(1, 0, 0x9E37, 0x79B97F4A7C15);
    ByteShard(14, 8, 0xA708, 0xA824F612C926);
    ByteShard(12, 7, 0x6A99, 0xB4B1F77DD0FC);
    ByteShard(10, 6, 0x2E2A, 0xC13EF8E8D8D2);
    ByteShard(8, 4, 0xF1BB, 0xCDCBFA53E0A8);
    ByteShard(6, 3, 0xB54C, 0xDA58FBBEE87E);
    ByteShard(4, 2, 0x78DD, 0xE6E5FD29F054);
    ByteShard(2, 1, 0x3C6E, 0xF372FE94F82A);
    ByteShard(17, 10, 0x81AF, 0x155173F23D65);
    var firstBytes: seq<Byte> := [0, 13, 11, 9, 7, 5, 3, 1, 14, 12, 10, 8, 6, 4, 2, 17];
    b := firstBytes[shard];
  }

  /** Every shard is the shard of some symbol. */
  lemma EveryShardUsed(shard: nat) returns (s: Symbol)
    requires shard < NUM_SHARDS
    ensures ShardIndex(s) == shard
  {
    var b := FirstBytes(shard);
    FirstByteOnly(b);
    s := [b, 0, 0, 0];
  }
}
