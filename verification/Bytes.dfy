/** Numbers as big-endian bytes, and the three loops that write and read them. */
module Bytes {
  import opened Orders
  import opened Words

  function Pow256(k: nat): (p: nat)
    ensures p > 0
  {
    if k == 0 then 1 else 256 * Pow256(k - 1)
  }

  /** The k low bytes of a number, most significant first. */
  function BigEndian(n: nat, k: nat): (b: seq<Byte>)
    ensures |b| == k
  {
    if k == 0 then [] else BigEndian(n / 256, k - 1) + [n % 256]
  }

  /** The number that some bytes stand for. */
  function Value(b: seq<Byte>): nat {
    if b == [] then 0 else 256 * Value(b[..|b| - 1]) + b[|b| - 1]
  }

  /** Bytes and the numbers below 256^k correspond one to one. */
  lemma {:induction false} ValueOfBigEndian(n: nat, k: nat)
    requires n < Pow256(k)
    ensures Value(BigEndian(n, k)) == n
  {
    if k > 0 {
      ValueOfBigEndian(n / 256, k - 1);
      assert BigEndian(n, k)[..k - 1] == BigEndian(n / 256, k - 1);
    }
  }

  lemma {:induction false} BigEndianOfValue(b: seq<Byte>)
    ensures Value(b) < Pow256(|b|) && BigEndian(Value(b), |b|) == b
  {
    if b != [] {
      BigEndianOfValue(b[..|b| - 1]);
    }
  }

  lemma {:induction false} ValueFront(x: Byte, b: seq<Byte>)
    ensures Value([x] + b) == x * Pow256(|b|) + Value(b)
  {
    if b == [] {
      assert [x] + b == [x] && [x][..0] == [];
    } else {
      var last := |b| - 1;
      ValueFront(x, b[..last]);
      assert ([x] + b)[..last + 1] == [x] + b[..last];
      assert 256 * (x * Pow256(last)) == x * (256 * Pow256(last));
    }
  }

  // ---------- writing ----------

  /** How many bytes a number needs. */
  function Digits(n: nat): nat {
    if n == 0 then 0 else 1 + Digits(n / 256)
  }

  lemma {:induction false} DigitsFit(n: nat, k: nat)
    ensures Digits(n) <= k <==> n < Pow256(k)
  {
    if k > 0 && n > 0 {
      DigitsFit(n / 256, k - 1);
    }
  }

  function Width(n: nat, numBytes: nat): nat {
    if Digits(n) < numBytes then numBytes else Digits(n)
  }

  /** What is written for a number: at least so many bytes, more if it does not fit, and zeros
      for a negative one. */
  function Written(number: int, numBytes: nat): seq<Byte> {
    var n := if number > 0 then number else 0;
    BigEndian(n, Width(n, numBytes))
  }

  function Reversed(s: seq<Byte>): (r: seq<Byte>)
    ensures |r| == |s|
  {
    if s == [] then [] else Reversed(s[1..]) + [s[0]]
  }

  lemma {:induction false} ReversedAppend(s: seq<Byte>, x: Byte)
    ensures Reversed(s + [x]) == [x] + Reversed(s)
  {
    if s == [] {
      assert [] + [x] == [x] && Reversed([x]) == Reversed([x][1..]) + [x];
    } else {
      assert (s + [x])[1..] == s[1..] + [x];
      ReversedAppend(s[1..], x);
      assert ([x] + Reversed(s[1..])) + [s[0]] == [x] + (Reversed(s[1..]) + [s[0]]);
    }
  }

  lemma {:induction false} LeadingZero(n: nat, k: nat)
    requires n < Pow256(k)
    ensures BigEndian(n, k + 1) == [0] + BigEndian(n, k)
  {
    if k == 0 {
      assert BigEndian(0, 1) == BigEndian(0, 0) + [0];
    } else {
      LeadingZero(n / 256, k - 1);
      assert ([0] + BigEndian(n / 256, k - 1)) + [n % 256] == [0] + (BigEndian(n / 256, k - 1) + [n % 256]);
    }
  }

  // All digits of a number and no more
  function Needed(n: nat): seq<Byte> {
    BigEndian(n, Digits(n))
  }

  lemma NextDigit(n: nat, msg: seq<Byte>)
    requires n > 0
    ensures Needed(n) + Reversed(msg) == Needed(n / 256) + Reversed(msg + [n % 256])
  {
    ReversedAppend(msg, n % 256);
    assert Needed(n) == Needed(n / 256) + [n % 256];
    assert (Needed(n / 256) + [n % 256]) + Reversed(msg) == Needed(n / 256) + ([n % 256] + Reversed(msg));
  }

  lemma FillZero(n: nat, msg: seq<Byte>)
    requires Digits(n) <= |msg| && Reversed(msg) == BigEndian(n, |msg|)
    ensures Reversed(msg + [0]) == BigEndian(n, |msg| + 1)
  {
    DigitsFit(n, |msg|);
    LeadingZero(n, |msg|);
    ReversedAppend(msg, 0);
  }

  /** Collects the bytes of a number from the low end, fills up with zeros, and turns them round. */
  method NumberToBytes(number: int, numBytes: nat) returns (msg: seq<Byte>)
    ensures msg == Written(number, numBytes)
  {
    msg := [];
    var n := number;
    ghost var all: nat := if number > 0 then number else 0;
    while n > 0
      invariant Needed(all) == Needed(if n > 0 then n else 0) + Reversed(msg)
    {
      NextDigit(n, msg);
      msg := msg + [n % 256];
      n := n / 256;
    }
    assert Reversed(msg) == Needed(all);
    while |msg| < numBytes
      invariant Digits(all) <= |msg| && (|msg| <= numBytes || |msg| == Digits(all))
      invariant Reversed(msg) == BigEndian(all, |msg|)
    {
      FillZero(all, msg);
      msg := msg + [0];
    }
    msg := Reversed(msg);
  }

  // ---------- reading ----------

  // The two's-complement readings of 32 and 64 bits
  function Signed32(v: nat): (r: int)
    ensures v < 0x1_0000_0000 ==> -0x8000_0000 <= r < 0x8000_0000
  {
    if v < 0x8000_0000 then v else v - 0x1_0000_0000
  }

  function Signed64(v: nat): int {
    if v < WORD_LIMIT / 2 then v else v - WORD_LIMIT
  }

  // The 64-bit pattern of a 32-bit int
  function AsWord(x: int): Word
    requires -0x8000_0000 <= x < 0x8000_0000
  {
    if x >= 0 then x else x + WORD_LIMIT
  }

  /** A byte shifted left as a 32-bit int. */
  function ShiftedInt(b: Byte, cnt: nat): (v: int)
    ensures -0x8000_0000 <= v < 0x8000_0000
  {
    Signed32(b * Pow2(8 * cnt) % 0x1_0000_0000)
  }

  lemma DoubleProduct(m: nat, k: nat)
    requires k > 0
    ensures m * Pow2(k) == 2 * (m * Pow2(k - 1)) && (m > 0 ==> m * Pow2(k - 1) > 0)
  {}

  lemma OrDoubled(a: nat, x: nat)
    requires a > 0
    ensures OrBits(a, 2 * x) == 2 * OrBits(a / 2, x) + a % 2
  {
    assert 2 * x / 2 == x && 2 * x % 2 == 0;
  }

  lemma OrDouble(x: nat, a: nat)
    requires x > 0
    ensures OrBits(2 * x, a) == 2 * OrBits(x, a / 2) + a % 2
  {
    assert 2 * x / 2 == x && 2 * x % 2 == 0;
  }

  // Or-ing a number below 2^k with a multiple of 2^k adds them
  lemma {:induction false} OrDisjoint(a: nat, m: nat, k: nat, high: nat)
    requires a < Pow2(k) && high == m * Pow2(k)
    ensures OrBits(a, high) == a + high
  {
    if k > 0 && a > 0 {
      var half := m * Pow2(k - 1);
      DoubleProduct(m, k);
      OrDisjoint(a / 2, m, k - 1, half);
      OrDoubled(a, half);
    }
  }

  lemma {:induction false} OrDisjointHigh(m: nat, k: nat, a: nat, high: nat)
    requires a < Pow2(k) && high == m * Pow2(k)
    ensures OrBits(high, a) == high + a
  {
    if m == 0 {
    } else if k == 0 {
      OrZero(m);
    } else {
      var half := m * Pow2(k - 1);
      DoubleProduct(m, k);
      OrDisjointHigh(m, k - 1, a / 2, half);
      OrDouble(half, a);
    }
  }

  lemma {:induction false} OrZero(v: nat)
    ensures OrBits(v, 0) == v
  {
    if v != 0 {
      OrZero(v / 2);
    }
  }

  lemma Powers()
    ensures Pow2(0) == Pow256(0) == 1 && Pow2(8) == Pow256(1) == 0x100
    ensures Pow2(16) == Pow256(2) == 0x1_0000 && Pow2(24) == Pow256(3) == 0x100_0000 && Pow256(4) == 0x1_0000_0000
  {
    assert Pow2(6) == 64;
    assert Pow2(12) == 4096;
    assert Pow2(18) == 262144;
  }

  // No bit is shifted out of the 32
  lemma ShiftedAt(b: Byte, cnt: nat, p: nat, whole: nat)
    requires p == Pow2(8 * cnt) && whole == b * p < 0x1_0000_0000
    ensures ShiftedInt(b, cnt) == Signed32(whole)
  {
    SmallRemainder(whole, 0x1_0000_0000);
  }

  lemma ShiftedTop(b: Byte)
    ensures ShiftedInt(b, 3) == 0x100_0000 * b - if b < 128 then 0 else 0x1_0000_0000
  {
    Powers();
    ShiftedAt(b, 3, 0x100_0000, 0x100_0000 * b);
  }

  // Or-ing in one byte, first of those below the sign bit
  lemma OrLowByte(b: Byte, v: nat, cnt: nat, p: nat, whole: nat)
    requires cnt < 3 && p == Pow256(cnt) && v < p && whole == b * p + v
    ensures OrBits(v, AsWord(ShiftedInt(b, cnt))) == whole < 0x100_0000
  {
    Powers();
    assert p == Pow2(8 * cnt) && (p == 1 || p == 0x100 || p == 0x1_0000);
    assert b * p <= 255 * p;
    ShiftedAt(b, cnt, p, b * p);
    OrDisjoint(v, b, 8 * cnt, b * p);
  }

  lemma OrTopByte(b: Byte, v: nat, whole: nat)
    requires v < 0x100_0000 && whole == 0x100_0000 * b + v
    ensures whole < 0x1_0000_0000 && OrBits(v, AsWord(ShiftedInt(b, 3))) == AsWord(Signed32(whole))
  {
    Powers();
    ShiftedTop(b);
    if b < 128 {
      OrDisjoint(v, b, 24, 0x100_0000 * b);
    } else {
      var m := b + 0xFF_FFFF_FF00;
      assert AsWord(ShiftedInt(b, 3)) == m * 0x100_0000;
      OrDisjoint(v, m, 24, 0x100_0000 * m);
    }
  }

  // One more byte in front of the cnt bytes read so far
  lemma OrByte(b: Byte, v: nat, cnt: nat, whole: nat)
    requires cnt < 4 && v < Pow256(cnt) && whole == b * Pow256(cnt) + v
    ensures v < 0x100_0000 && whole < 0x1_0000_0000
    ensures OrBits(AsWord(Signed32(v)), AsWord(ShiftedInt(b, cnt))) == AsWord(Signed32(whole))
  {
    Powers();
    if cnt == 3 {
      OrTopByte(b, v, whole);
    } else {
      OrLowByte(b, v, cnt, Pow256(cnt), whole);
    }
  }

  lemma OneMoreByte(b: Byte, read: seq<Byte>)
    requires |read| < 4
    ensures Value(read) < 0x100_0000 && Value([b] + read) < 0x1_0000_0000
    ensures OrBits(AsWord(Signed32(Value(read))), AsWord(ShiftedInt(b, |read|))) == AsWord(Signed32(Value([b] + read)))
  {
    BigEndianOfValue(read);
    ValueFront(b, read);
    OrByte(b, Value(read), |read|, Value([b] + read));
  }

  lemma SignExtends(read: seq<Byte>)
    requires |read| <= 4
    ensures Value(read) < 0x1_0000_0000 && Signed64(AsWord(Signed32(Value(read)))) == Signed32(Value(read))
  {
    BigEndianOfValue(read);
    Powers();
  }

  /** The server's and the client's reading loop: from the last byte to the first, each shifted as a
      32-bit int before it is or-ed in, so that a fourth byte of 128 or more makes it negative. */
  method ByteConversion(message: seq<Byte>, begin: nat, end: nat) returns (ans: int)
    requires begin <= end < |message| && end - begin < 4
    ensures ans == Signed32(Value(message[begin..end + 1]))
  {
    var word: Word, cnt := 0, 0;
    var i: int := end;
    while i >= begin
      invariant begin - 1 <= i <= end && cnt == end - i
      invariant Value(message[i + 1..end + 1]) < 0x1_0000_0000
      invariant word == AsWord(Signed32(Value(message[i + 1..end + 1])))
    {
      OneMoreByte(message[i], message[i + 1..end + 1]);
      assert message[i..end + 1] == [message[i]] + message[i + 1..end + 1];
      word := OrBits(word, AsWord(ShiftedInt(message[i], cnt)));
      cnt := cnt + 1;
      i := i - 1;
    }
    SignExtends(message[begin..end + 1]);
    ans := Signed64(word);
  }

  /** The subscriber's reading loop: from the first byte to the last, unsigned. */
  method ReadBigEndian(message: seq<Byte>, begin: nat, end: nat) returns (ans: int)
    requires begin <= end <= |message| && end - begin <= 8
    ensures ans == Signed64(Value(message[begin..end]))
  {
    var word: Word := 0;
    var i := begin;
    while i < end
      invariant begin <= i <= end && word == Value(message[begin..i])
    {
      NextByte(message[begin..i], message[i]);
      assert message[begin..i + 1] == message[begin..i] + [message[i]];
      word := OrBits(word * 256 % WORD_LIMIT, message[i]);
      i := i + 1;
    }
    ans := Signed64(word);
  }

  lemma NextByte(read: seq<Byte>, b: Byte)
    requires |read| < 8
    ensures OrBits(Value(read) * 256 % WORD_LIMIT, b) == Value(read + [b]) < WORD_LIMIT
  {
    var v := Value(read);
    BigEndianOfValue(read);
    Below64(|read|);
    assert v * 256 + 255 < WORD_LIMIT;
    SmallRemainder(v * 256, WORD_LIMIT);
    Powers();
    OrDisjointHigh(v, 8, b, v * 256);
    assert (read + [b])[..|read|] == read;
  }

  lemma SmallRemainder(x: nat, m: nat)
    requires x < m
    ensures x % m == x
  {}

  lemma Below64(k: nat)
    requires k < 8
    ensures 256 * Pow256(k) <= WORD_LIMIT
  {
    assert Pow256(7) == 256 * Pow256(6) && Pow256(6) == 256 * Pow256(5) && Pow256(5) == 256 * Pow256(4);
    assert Pow256(4) == 256 * Pow256(3) && Pow256(3) == 256 * Pow256(2) && Pow256(2) == 256 * Pow256(1);
  }
}
