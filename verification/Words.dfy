/** 64-bit words as used by the price bitmap. A word is its numeric value; `|`, `& ~`, `1 << b`
    and the two bit scans are defined on its binary expansion and related to the set of
    positions at which the word has a one. */
module Words {
  const WORD_BITS: nat := 64
  const WORD_LIMIT: nat := 0x1_0000_0000_0000_0000

  type Word = w: nat | w < WORD_LIMIT

  function Pow2(b: nat): (p: nat)
    ensures p > 0
  {
    if b == 0 then 1 else 2 * Pow2(b - 1)
  }

  // Bit b of w, that is (w >> b) & 1
  predicate Bit(w: nat, b: nat) {
    if b == 0 then w % 2 == 1 else Bit(w / 2, b - 1)
  }

  ghost function Ones(w: Word): set<nat> {
    set b: nat | b < WORD_BITS && Bit(w, b)
  }

  // v | w
  function OrBits(v: nat, w: nat): nat {
    if v == 0 then w else 2 * OrBits(v / 2, w / 2) + (if v % 2 == 1 || w % 2 == 1 then 1 else 0)
  }

  // v & ~w
  function AndNotBits(v: nat, w: nat): nat {
    if v == 0 then 0 else 2 * AndNotBits(v / 2, w / 2) + (if v % 2 == 1 && w % 2 == 0 then 1 else 0)
  }

  // v & w
  function AndBits(v: nat, w: nat): (r: nat)
    ensures r <= w
  {
    if v == 0 then 0 else 2 * AndBits(v / 2, w / 2) + (if v % 2 == 1 && w % 2 == 1 then 1 else 0)
  }

  /** For a power-of-two size, `& (size - 1)` leaves an index alone and wraps the size to 0. */
  lemma {:induction false} MaskedIndex(i: nat, k: nat)
    requires i <= Pow2(k)
    ensures AndBits(i, Pow2(k) - 1) == if i == Pow2(k) then 0 else i
  {
    if i > 0 && k > 0 {
      MaskedIndex(i / 2, k - 1);
    } else if k == 0 {
      assert AndBits(1, 0) == 2 * AndBits(0, 0);
    }
  }

  lemma {:induction false} BitOfPow2(b: nat, c: nat)
    ensures Bit(Pow2(b), c) <==> b == c
  {
    if b == 0 {
      if c > 0 {
        ZeroHasNoBits(c - 1);
      }
    } else if c > 0 {
      BitOfPow2(b - 1, c - 1);
    }
  }

  lemma {:induction false} ZeroHasNoBits(b: nat)
    ensures !Bit(0, b)
  {
    if b > 0 {
      ZeroHasNoBits(b - 1);
    }
  }

  lemma {:induction false} BitOfOr(v: nat, w: nat, c: nat)
    ensures Bit(OrBits(v, w), c) <==> Bit(v, c) || Bit(w, c)
  {
    if v == 0 {
      ZeroHasNoBits(c);
    } else if c > 0 {
      BitOfOr(v / 2, w / 2, c - 1);
    }
  }

  lemma {:induction false} BitOfAndNot(v: nat, w: nat, c: nat)
    ensures Bit(AndNotBits(v, w), c) <==> Bit(v, c) && !Bit(w, c)
  {
    if v == 0 {
      ZeroHasNoBits(c);
    } else if c > 0 {
      BitOfAndNot(v / 2, w / 2, c - 1);
    }
  }

  lemma {:induction false} OrFits(v: nat, w: nat, n: nat)
    requires v < Pow2(n) && w < Pow2(n)
    ensures OrBits(v, w) < Pow2(n)
  {
    if v != 0 {
      OrFits(v / 2, w / 2, n - 1);
    }
  }

  lemma {:induction false} AndNotShrinks(v: nat, w: nat)
    ensures AndNotBits(v, w) <= v
  {
    if v != 0 {
      AndNotShrinks(v / 2, w / 2);
    }
  }

  lemma {:induction false} Pow2Grows(b: nat, n: nat)
    requires b < n
    ensures Pow2(b) < Pow2(n)
  {
    if b + 1 < n {
      Pow2Grows(b, n - 1);
    }
  }

  lemma WordLimit()
    ensures Pow2(WORD_BITS) == WORD_LIMIT
  {
    assert Pow2(8) == 0x100;
    assert Pow2(16) == 0x1_0000;
    assert Pow2(24) == 0x100_0000;
    assert Pow2(32) == 0x1_0000_0000;
    assert Pow2(40) == 0x100_0000_0000;
    assert Pow2(48) == 0x1_0000_0000_0000;
    assert Pow2(56) == 0x100_0000_0000_0000;
  }

  // w | (1 << b)
  function SetBit(w: Word, b: nat): (r: Word)
    requires b < WORD_BITS
    ensures Ones(r) == Ones(w) + {b}
  {
    WordLimit();
    Pow2Grows(b, WORD_BITS);
    OrFits(w, Pow2(b), WORD_BITS);
    assert forall c: nat {:trigger Bit(w, c)} :: Bit(OrBits(w, Pow2(b)), c) <==> Bit(w, c) || c == b by {
      forall c: nat ensures Bit(OrBits(w, Pow2(b)), c) <==> Bit(w, c) || c == b {
        BitOfOr(w, Pow2(b), c);
        BitOfPow2(b, c);
      }
    }
    OrBits(w, Pow2(b))
  }

  // w & ~(1 << b)
  function ClearBit(w: Word, b: nat): (r: Word)
    requires b < WORD_BITS
    ensures Ones(r) == Ones(w) - {b}
    ensures r <= w
  {
    AndNotShrinks(w, Pow2(b));
    assert forall c: nat {:trigger Bit(w, c)} :: Bit(AndNotBits(w, Pow2(b)), c) <==> Bit(w, c) && c != b by {
      forall c: nat ensures Bit(AndNotBits(w, Pow2(b)), c) <==> Bit(w, c) && c != b {
        BitOfAndNot(w, Pow2(b), c);
        BitOfPow2(b, c);
      }
    }
    AndNotBits(w, Pow2(b))
  }

  // ---------- a word is zero exactly when it has no ones ----------

  lemma {:induction false} SomeBit(w: nat, n: nat) returns (b: nat)
    requires 0 < w < Pow2(n)
    ensures b < n && Bit(w, b)
  {
    if w % 2 == 1 {
      b := 0;
    } else {
      var c := SomeBit(w / 2, n - 1);
      b := c + 1;
    }
  }

  lemma NoOnes(w: Word)
    ensures Ones(w) == {} <==> w == 0
  {
    if w == 0 {
      forall c: nat ensures !Bit(w, c) {
        ZeroHasNoBits(c);
      }
    } else {
      WordLimit();
      var b := SomeBit(w, WORD_BITS);
      assert b in Ones(w);
    }
  }

  // ---------- bit scans ----------

  // Counting zeros down from bit b
  function HighFrom(w: nat, b: nat): nat {
    if Bit(w, b) || b == 0 then b else HighFrom(w, b - 1)
  }

  // Counting zeros up from bit b
  function LowFrom(w: nat, b: nat): nat
    decreases WORD_BITS - b
  {
    if Bit(w, b) || b >= WORD_BITS - 1 then b else LowFrom(w, b + 1)
  }

  lemma {:induction false} HighFromCorrect(w: Word, b: nat, c: nat)
    requires b < WORD_BITS && c <= b && c in Ones(w)
    ensures c <= HighFrom(w, b) <= b && HighFrom(w, b) in Ones(w)
  {
    if !Bit(w, b) {
      HighFromCorrect(w, b - 1, c);
    }
  }

  lemma {:induction false} LowFromCorrect(w: Word, b: nat, c: nat)
    requires b <= c < WORD_BITS && c in Ones(w)
    ensures b <= LowFrom(w, b) <= c && LowFrom(w, b) in Ones(w)
    decreases WORD_BITS - b
  {
    if !Bit(w, b) {
      LowFromCorrect(w, b + 1, c);
    }
  }

  /** Index of the most significant one: 63 minus the number of leading zeros. */
  function HighBit(w: Word): (b: nat)
    requires w != 0
    ensures b < WORD_BITS && b in Ones(w)
    ensures forall c | c in Ones(w) :: c <= b
  {
    NoOnes(w);
    assert forall c | c in Ones(w) :: c <= HighFrom(w, WORD_BITS - 1) && HighFrom(w, WORD_BITS - 1) in Ones(w) by {
      forall c | c in Ones(w) ensures c <= HighFrom(w, WORD_BITS - 1) && HighFrom(w, WORD_BITS - 1) in Ones(w) {
        HighFromCorrect(w, WORD_BITS - 1, c);
      }
    }
    HighFrom(w, WORD_BITS - 1)
  }

  /** Index of the least significant one: the number of trailing zeros. */
  function LowBit(w: Word): (b: nat)
    requires w != 0
    ensures b < WORD_BITS && b in Ones(w)
    ensures forall c | c in Ones(w) :: b <= c
  {
    NoOnes(w);
    assert forall c | c in Ones(w) :: LowFrom(w, 0) <= c && LowFrom(w, 0) in Ones(w) by {
      forall c | c in Ones(w) ensures LowFrom(w, 0) <= c && LowFrom(w, 0) in Ones(w) {
        LowFromCorrect(w, 0, c);
      }
    }
    LowFrom(w, 0)
  }
}
