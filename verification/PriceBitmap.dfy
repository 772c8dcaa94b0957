/** The two-level price bitmap: 1024 words say which price slots are occupied, 16 summary
    words say which of those words are non-zero. Abstractly, a set of slot indices. */
module PriceBitmaps {
  import opened Config
  import opened Words

  const L0_WORDS: nat := PRICE_WINDOW / 64
  const L1_WORDS: nat := (L0_WORDS + 63) / 64

  // A summary bit is set exactly when the word it stands for is non-zero
  ghost predicate Summarises(l1: seq<Word>, l0: seq<Word>) {
    && |l0| == L0_WORDS && |l1| == L1_WORDS
    && forall w: nat | w < L0_WORDS :: w % 64 in Ones(l1[w / 64]) <==> l0[w] != 0
  }

  ghost function OccupiedBy(l0: seq<Word>): set<nat>
    requires |l0| == L0_WORDS
  {
    set i: nat | i < PRICE_WINDOW && i % 64 in Ones(l0[i / 64])
  }

  lemma SameWord(v: nat, w: nat)
    requires v / 64 == w / 64 && v % 64 == w % 64
    ensures v == w
  {}

  lemma UpdateWord(l0: seq<Word>, idx: nat, word: Word, there: bool)
    requires |l0| == L0_WORDS && idx < PRICE_WINDOW
    requires Ones(word) == if there then Ones(l0[idx / 64]) + {idx % 64} else Ones(l0[idx / 64]) - {idx % 64}
    ensures OccupiedBy(l0[idx / 64 := word]) == if there then OccupiedBy(l0) + {idx} else OccupiedBy(l0) - {idx}
  {
    forall i: nat | i < PRICE_WINDOW && i / 64 == idx / 64 && i != idx ensures i % 64 != idx % 64 {
      if i % 64 == idx % 64 {
        SameWord(i, idx);
      }
    }
  }

  // A word that keeps some bit had its summary bit set
  lemma StillMarked(l1: seq<Word>, l0: seq<Word>, w: nat, word: Word)
    requires Summarises(l1, l0) && w < L0_WORDS && word != 0 && Ones(word) <= Ones(l0[w])
    ensures Ones(l1[w / 64]) == Ones(l1[w / 64]) + {w % 64}
  {
    NoOnes(l0[w]);
    NoOnes(word);
  }

  lemma UpdateSummary(l1: seq<Word>, l0: seq<Word>, w: nat, word: Word, summary: Word)
    requires Summarises(l1, l0) && w < L0_WORDS
    requires Ones(summary) == if word != 0 then Ones(l1[w / 64]) + {w % 64} else Ones(l1[w / 64]) - {w % 64}
    ensures Summarises(l1[w / 64 := summary], l0[w := word])
  {
    forall v: nat | v < L0_WORDS
      ensures v % 64 in Ones(l1[w / 64 := summary][v / 64]) <==> l0[w := word][v] != 0
    {
      if v / 64 == w / 64 && v % 64 == w % 64 {
        SameWord(v, w);
      }
    }
  }

  class PriceBitmap {
    const l0: array<Word>
    const l1: array<Word>

    ghost predicate Valid()
      reads l0, l1
    {
      l0 != l1 && Summarises(l1[..], l0[..])
    }

    /** The occupied slots. */
    ghost function Members(): set<nat>
      requires Valid()
      reads l0, l1
    {
      OccupiedBy(l0[..])
    }

    constructor ()
      ensures Valid() && Members() == {} && fresh(l0) && fresh(l1)
    {
      l0 := new Word[L0_WORDS](_ => 0);
      l1 := new Word[L1_WORDS](_ => 0);
      new;
      NoOnes(0);
    }

    method Set(idx: nat)
      requires Valid() && idx < PRICE_WINDOW
      modifies l0, l1
      ensures Valid() && Members() == old(Members()) + {idx}
    {
      ghost var before0, before1 := l0[..], l1[..];
      var w := idx / 64;
      assert idx / 4096 == w / 64;
      l0[w] := SetBit(l0[w], idx % 64);
      l1[idx / 4096] := SetBit(l1[idx / 4096], w % 64);
      NoOnes(l0[w]);
      UpdateWord(before0, idx, l0[w], true);
      UpdateSummary(before1, before0, w, l0[w], l1[w / 64]);
      assert l0[..] == before0[w := l0[w]];
      assert l1[..] == before1[w / 64 := l1[w / 64]];
    }

    method Clear(idx: nat)
      requires Valid() && idx < PRICE_WINDOW
      modifies l0, l1
      ensures Valid() && Members() == old(Members()) - {idx}
    {
      ghost var before0, before1 := l0[..], l1[..];
      var w := idx / 64;
      assert idx / 4096 == w / 64;
      l0[w] := ClearBit(l0[w], idx % 64);
      if l0[w] == 0 {
        l1[idx / 4096] := ClearBit(l1[idx / 4096], w % 64);
      } else {
        StillMarked(before1, before0, w, l0[w]);
      }
      UpdateWord(before0, idx, l0[w], false);
      UpdateSummary(before1, before0, w, l0[w], l1[w / 64]);
      assert l0[..] == before0[w := l0[w]];
      assert l1[..] == before1[w / 64 := l1[w / 64]];
    }

    method FindHighest() returns (found: bool, out: nat)
      requires Valid()
      ensures found <==> Members() != {}
      ensures found ==> out in Members() && forall i | i in Members() :: i <= out
    {
      var w1 := L1_WORDS;
      while w1 > 0
        invariant 0 <= w1 <= L1_WORDS
        invariant forall w: nat | w1 <= w < L1_WORDS :: l1[w] == 0
      {
        w1 := w1 - 1;
        if l1[w1] != 0 {
          HighestIs(l1[..], l0[..], w1);
          var b1 := HighBit(l1[w1]);
          var word_idx := w1 * 64 + b1;
          var b0 := HighBit(l0[word_idx]);
          return true, word_idx * 64 + b0;
        }
      }
      NothingOccupied(l1[..], l0[..]);
      return false, 0;
    }

    method FindLowest() returns (found: bool, out: nat)
      requires Valid()
      ensures found <==> Members() != {}
      ensures found ==> out in Members() && forall i | i in Members() :: out <= i
    {
      var w1 := 0;
      while w1 < L1_WORDS
        invariant 0 <= w1 <= L1_WORDS
        invariant forall w: nat | w < w1 :: l1[w] == 0
      {
        if l1[w1] != 0 {
          LowestIs(l1[..], l0[..], w1);
          var b1 := LowBit(l1[w1]);
          var word_idx := w1 * 64 + b1;
          var b0 := LowBit(l0[word_idx]);
          return true, word_idx * 64 + b0;
        }
        w1 := w1 + 1;
      }
      NothingOccupied(l1[..], l0[..]);
      return false, 0;
    }

    /** Every occupied slot, from the highest down: what a descending visitor passes on. */
    method Descending() returns (r: seq<nat>)
      requires Valid()
      ensures Visited(r, Members(), 0, true)
    {
      r := [];
      var w1 := L1_WORDS;
      while w1 > 0
        invariant 0 <= w1 <= L1_WORDS && Visited(r, Members(), 4096 * w1, true)
      {
        w1 := w1 - 1;
        var bits1, g := l1[w1], 64 * (w1 + 1);
        while bits1 != 0
          invariant 64 * w1 <= g <= 64 * (w1 + 1) && Below(bits1, l1[w1], g - 64 * w1)
          invariant Visited(r, Members(), 64 * g, true)
          decreases bits1
        {
          var b1 := HighBit(bits1);
          var word_idx := w1 * 64 + b1;
          SkipDown(l1[..], l0[..], bits1, w1, g, r);
          r := WordDescending(word_idx, r);
          bits1 := ClearBit(bits1, b1);
          g := word_idx;
        }
        RestIsEmpty(l1[..], l0[..], w1, g, r);
      }
    }

    // The occupied slots of one word, from the highest down
    method WordDescending(word_idx: nat, before: seq<nat>) returns (r: seq<nat>)
      requires Valid() && word_idx < L0_WORDS && Visited(before, Members(), 64 * (word_idx + 1), true)
      ensures Visited(r, Members(), 64 * word_idx, true)
    {
      r := before;
      var bits0 := l0[word_idx];
      ghost var f := 64;
      while bits0 != 0
        invariant f <= 64 && Below(bits0, l0[word_idx], f) && Visited(r, Members(), 64 * word_idx + f, true)
        decreases bits0
      {
        var b0 := HighBit(bits0);
        NextDown(l0[..], bits0, word_idx, f, r);
        r := r + [word_idx * 64 + b0];
        bits0 := ClearBit(bits0, b0);
        f := b0;
      }
      WordDone(l0[..], word_idx, f, r);
    }

    /** Every occupied slot, from the lowest up: what an ascending visitor passes on. */
    method Ascending() returns (r: seq<nat>)
      requires Valid()
      ensures Visited(r, Members(), PRICE_WINDOW, false)
    {
      r := [];
      var w1 := 0;
      while w1 < L1_WORDS
        invariant 0 <= w1 <= L1_WORDS && Visited(r, Members(), 4096 * w1, false)
      {
        var bits1, g := l1[w1], 64 * w1;
        while bits1 != 0
          invariant 64 * w1 <= g <= 64 * (w1 + 1) && From(bits1, l1[w1], g - 64 * w1)
          invariant Visited(r, Members(), 64 * g, false)
          decreases bits1
        {
          var b1 := LowBit(bits1);
          var word_idx := w1 * 64 + b1;
          SkipUp(l1[..], l0[..], bits1, w1, g, r);
          r := WordAscending(word_idx, r);
          bits1 := ClearBit(bits1, b1);
          g := word_idx + 1;
        }
        RestIsEmptyUp(l1[..], l0[..], w1, g, r);
        w1 := w1 + 1;
      }
    }

    // The occupied slots of one word, from the lowest up
    method WordAscending(word_idx: nat, before: seq<nat>) returns (r: seq<nat>)
      requires Valid() && word_idx < L0_WORDS && Visited(before, Members(), 64 * word_idx, false)
      ensures Visited(r, Members(), 64 * (word_idx + 1), false)
    {
      r := before;
      var bits0 := l0[word_idx];
      ghost var f := 0;
      while bits0 != 0
        invariant f <= 64 && From(bits0, l0[word_idx], f) && Visited(r, Members(), 64 * word_idx + f, false)
        decreases bits0
      {
        var b0 := LowBit(bits0);
        NextUp(l0[..], bits0, word_idx, f, r);
        r := r + [word_idx * 64 + b0];
        bits0 := ClearBit(bits0, b0);
        f := b0 + 1;
      }
      WordDoneUp(l0[..], word_idx, f, r);
    }
  }

  // The visited slots: the members from `bound` up in descending order, or below it in ascending order
  ghost predicate Visited(r: seq<nat>, members: set<nat>, bound: nat, down: bool) {
    && (forall i, j | 0 <= i < j < |r| :: if down then r[i] > r[j] else r[i] < r[j])
    && (forall i | i in r :: i in members && (if down then i >= bound else i < bound))
    && (forall i | i in members && (if down then i >= bound else i < bound) :: i in r)
  }

  // The ones of `bits` are those of `word` below f
  ghost predicate Below(bits: Word, word: Word, f: nat) {
    Ones(bits) == set b | b in Ones(word) && b < f
  }

  lemma NoneBelow(word: Word, f: nat)
    requires Below(0, word, f)
    ensures forall b | b in Ones(word) :: b >= f
  {
    NoOnes(0);
    var below := set b | b in Ones(word) && b < f;
    assert below == {};
    assert forall b | b in Ones(word) :: b < f ==> b in below;
  }

  lemma NextDown(l0: seq<Word>, bits: Word, word_idx: nat, f: nat, r: seq<nat>)
    requires |l0| == L0_WORDS && word_idx < L0_WORDS && bits != 0 && f <= 64 && Below(bits, l0[word_idx], f)
    requires Visited(r, OccupiedBy(l0), 64 * word_idx + f, true)
    ensures Visited(r + [word_idx * 64 + HighBit(bits)], OccupiedBy(l0), 64 * word_idx + HighBit(bits), true)
  {
    var b := HighBit(bits);
    SlotParts(word_idx, b);
    assert b in Ones(l0[word_idx]) && b < f;
    assert word_idx * 64 + b in OccupiedBy(l0);
    forall i | i in OccupiedBy(l0) && 64 * word_idx + b <= i < 64 * word_idx + f ensures i == word_idx * 64 + b {
      Parts(i);
      assert i / 64 == word_idx && i % 64 in Ones(bits);
    }
    var r' := r + [word_idx * 64 + b];
    assert forall i :: i in r' <==> i in r || i == word_idx * 64 + b;
    forall i | 0 <= i < |r| ensures r[i] > word_idx * 64 + b {
      assert r[i] in r;
    }
  }

  lemma WordDone(l0: seq<Word>, word_idx: nat, f: nat, r: seq<nat>)
    requires |l0| == L0_WORDS && word_idx < L0_WORDS && f <= 64 && Below(0, l0[word_idx], f)
    requires Visited(r, OccupiedBy(l0), 64 * word_idx + f, true)
    ensures Visited(r, OccupiedBy(l0), 64 * word_idx, true)
  {
    NoneBelow(l0[word_idx], f);
    forall i | i in OccupiedBy(l0) && i >= 64 * word_idx ensures i >= 64 * word_idx + f {
      Parts(i);
    }
  }

  // Words between two summary bits are zero, so nothing between them is occupied
  lemma SkipDown(l1: seq<Word>, l0: seq<Word>, bits: Word, w1: nat, g: nat, r: seq<nat>)
    requires Summarises(l1, l0) && w1 < L1_WORDS && bits != 0 && 64 * w1 <= g <= 64 * (w1 + 1)
    requires Below(bits, l1[w1], g - 64 * w1) && Visited(r, OccupiedBy(l0), 64 * g, true)
    ensures w1 * 64 + HighBit(bits) < g && Visited(r, OccupiedBy(l0), 64 * (w1 * 64 + HighBit(bits) + 1), true)
  {
    var b := HighBit(bits);
    assert b in Ones(l1[w1]) && b < g - 64 * w1;
    forall i | i in OccupiedBy(l0) && i >= 64 * (w1 * 64 + b + 1) ensures i >= 64 * g {
      Shows(l1, l0, i);
      Parts(i);
      assert i / 4096 == w1 ==> i / 64 % 64 in Ones(l1[w1]) && i / 64 % 64 !in Ones(bits);
    }
  }

  lemma RestIsEmpty(l1: seq<Word>, l0: seq<Word>, w1: nat, g: nat, r: seq<nat>)
    requires Summarises(l1, l0) && w1 < L1_WORDS && 64 * w1 <= g <= 64 * (w1 + 1)
    requires Below(0, l1[w1], g - 64 * w1) && Visited(r, OccupiedBy(l0), 64 * g, true)
    ensures Visited(r, OccupiedBy(l0), 4096 * w1, true)
  {
    NoneBelow(l1[w1], g - 64 * w1);
    forall i | i in OccupiedBy(l0) && i >= 4096 * w1 ensures i >= 64 * g {
      Shows(l1, l0, i);
      Parts(i);
    }
  }

  // The ones of `bits` are those of `word` from f up
  ghost predicate From(bits: Word, word: Word, f: nat) {
    Ones(bits) == set b | b in Ones(word) && b >= f
  }

  lemma NoneFrom(word: Word, f: nat)
    requires From(0, word, f)
    ensures forall b | b in Ones(word) :: b < f
  {
    NoOnes(0);
    var rest := set b | b in Ones(word) && b >= f;
    assert rest == {};
    assert forall b | b in Ones(word) :: b >= f ==> b in rest;
  }

  lemma NextUp(l0: seq<Word>, bits: Word, word_idx: nat, f: nat, r: seq<nat>)
    requires |l0| == L0_WORDS && word_idx < L0_WORDS && bits != 0 && f <= 64 && From(bits, l0[word_idx], f)
    requires Visited(r, OccupiedBy(l0), 64 * word_idx + f, false)
    ensures Visited(r + [word_idx * 64 + LowBit(bits)], OccupiedBy(l0), 64 * word_idx + LowBit(bits) + 1, false)
  {
    var b := LowBit(bits);
    SlotParts(word_idx, b);
    assert b in Ones(l0[word_idx]) && b >= f;
    assert word_idx * 64 + b in OccupiedBy(l0);
    forall i | i in OccupiedBy(l0) && 64 * word_idx + f <= i <= 64 * word_idx + b ensures i == word_idx * 64 + b {
      Parts(i);
      assert i / 64 == word_idx && i % 64 in Ones(bits);
    }
    var r' := r + [word_idx * 64 + b];
    assert forall i :: i in r' <==> i in r || i == word_idx * 64 + b;
    forall i | 0 <= i < |r| ensures r[i] < word_idx * 64 + b {
      assert r[i] in r;
    }
  }

  lemma WordDoneUp(l0: seq<Word>, word_idx: nat, f: nat, r: seq<nat>)
    requires |l0| == L0_WORDS && word_idx < L0_WORDS && f <= 64 && From(0, l0[word_idx], f)
    requires Visited(r, OccupiedBy(l0), 64 * word_idx + f, false)
    ensures Visited(r, OccupiedBy(l0), 64 * (word_idx + 1), false)
  {
    NoneFrom(l0[word_idx], f);
    forall i | i in OccupiedBy(l0) && i < 64 * (word_idx + 1) ensures i < 64 * word_idx + f {
      Parts(i);
    }
  }

  lemma SkipUp(l1: seq<Word>, l0: seq<Word>, bits: Word, w1: nat, g: nat, r: seq<nat>)
    requires Summarises(l1, l0) && w1 < L1_WORDS && bits != 0 && 64 * w1 <= g <= 64 * (w1 + 1)
    requires From(bits, l1[w1], g - 64 * w1) && Visited(r, OccupiedBy(l0), 64 * g, false)
    ensures w1 * 64 + LowBit(bits) >= g && Visited(r, OccupiedBy(l0), 64 * (w1 * 64 + LowBit(bits)), false)
  {
    var b := LowBit(bits);
    assert b in Ones(l1[w1]) && b >= g - 64 * w1;
    forall i | i in OccupiedBy(l0) && i < 64 * (w1 * 64 + b) ensures i < 64 * g {
      Shows(l1, l0, i);
      Parts(i);
      assert i / 4096 == w1 ==> i / 64 % 64 in Ones(l1[w1]) && i / 64 % 64 !in Ones(bits);
    }
  }

  lemma RestIsEmptyUp(l1: seq<Word>, l0: seq<Word>, w1: nat, g: nat, r: seq<nat>)
    requires Summarises(l1, l0) && w1 < L1_WORDS && 64 * w1 <= g <= 64 * (w1 + 1)
    requires From(0, l1[w1], g - 64 * w1) && Visited(r, OccupiedBy(l0), 64 * g, false)
    ensures Visited(r, OccupiedBy(l0), 4096 * (w1 + 1), false)
  {
    NoneFrom(l1[w1], g - 64 * w1);
    forall i | i in OccupiedBy(l0) && i < 4096 * (w1 + 1) ensures i < 64 * g {
      Shows(l1, l0, i);
      Parts(i);
    }
  }

  // An occupied slot shows in its word and in that word's summary bit
  lemma Shows(l1: seq<Word>, l0: seq<Word>, i: nat)
    requires Summarises(l1, l0) && i in OccupiedBy(l0)
    ensures i / 64 % 64 in Ones(l1[i / 4096]) && l1[i / 4096] != 0 && i % 64 in Ones(l0[i / 64])
  {
    NoOnes(l0[i / 64]);
    NoOnes(l1[i / 4096]);
    assert i / 64 / 64 == i / 4096;
  }

  lemma NothingOccupied(l1: seq<Word>, l0: seq<Word>)
    requires Summarises(l1, l0) && forall w: nat | w < L1_WORDS :: l1[w] == 0
    ensures OccupiedBy(l0) == {}
  {
    forall i | i in OccupiedBy(l0) ensures false {
      Shows(l1, l0, i);
    }
  }

  lemma SlotParts(word: nat, b: nat)
    requires b < 64
    ensures (word * 64 + b) / 64 == word && (word * 64 + b) % 64 == b
  {}

  lemma Parts(i: nat)
    ensures i == i / 64 * 64 + i % 64 && i / 64 == i / 4096 * 64 + i / 64 % 64
  {}

  lemma HighestIs(l1: seq<Word>, l0: seq<Word>, w1: nat)
    requires Summarises(l1, l0) && w1 < L1_WORDS && l1[w1] != 0
    requires forall w: nat | w1 < w < L1_WORDS :: l1[w] == 0
    ensures var w0 := w1 * 64 + HighBit(l1[w1]);
            && w0 < L0_WORDS && l0[w0] != 0
            && w0 * 64 + HighBit(l0[w0]) in OccupiedBy(l0)
            && forall i | i in OccupiedBy(l0) :: i <= w0 * 64 + HighBit(l0[w0])
  {
    var w0 := w1 * 64 + HighBit(l1[w1]);
    SlotParts(w1, HighBit(l1[w1]));
    SlotParts(w0, HighBit(l0[w0]));
    forall i | i in OccupiedBy(l0) ensures i <= w0 * 64 + HighBit(l0[w0]) {
      Shows(l1, l0, i);
      assert i / 4096 <= w1;
      Parts(i);
      if i / 64 == w0 {
        assert i % 64 <= HighBit(l0[w0]);
      } else if i / 4096 == w1 {
        assert i / 64 % 64 <= HighBit(l1[w1]);
      }
    }
  }

  lemma LowestIs(l1: seq<Word>, l0: seq<Word>, w1: nat)
    requires Summarises(l1, l0) && w1 < L1_WORDS && l1[w1] != 0
    requires forall w: nat | w < w1 :: l1[w] == 0
    ensures var w0 := w1 * 64 + LowBit(l1[w1]);
            && w0 < L0_WORDS && l0[w0] != 0
            && w0 * 64 + LowBit(l0[w0]) in OccupiedBy(l0)
            && forall i | i in OccupiedBy(l0) :: w0 * 64 + LowBit(l0[w0]) <= i
  {
    var w0 := w1 * 64 + LowBit(l1[w1]);
    SlotParts(w1, LowBit(l1[w1]));
    SlotParts(w0, LowBit(l0[w0]));
    forall i | i in OccupiedBy(l0) ensures w0 * 64 + LowBit(l0[w0]) <= i {
      Shows(l1, l0, i);
      assert w1 <= i / 4096;
      Parts(i);
      if i / 64 == w0 {
        assert LowBit(l0[w0]) <= i % 64;
      } else if i / 4096 == w1 {
        assert LowBit(l1[w1]) <= i / 64 % 64;
      }
    }
  }
}
