/** The cancel-flag table: open addressing with linear probing, tombstones and rehashing into
    twice the space. Abstractly, a finite map from order ids to flags. */
module KillFlags {
  import opened Words
  import opened Wrappers

  const EMPTY_KEY: int := -1
  const TOMBSTONE_KEY: int := -2
  const INITIAL_CAPACITY: nat := 4096

  datatype Slot = Slot(key: int, value: bool)
  datatype Kind = Empty | Tombstone | Live

  predicate Reserved(key: int) {
    key == EMPTY_KEY || key == TOMBSTONE_KEY
  }

  function KindOf(s: Slot): Kind {
    if s.key == EMPTY_KEY then Empty else if s.key == TOMBSTONE_KEY then Tombstone else Live
  }

  // Fibonacci hashing of the key's 64-bit pattern: the upper half of the product
  function HashKey(key: int): nat {
    key % WORD_LIMIT * 0x9E37_79B9_7F4A_7C15 % WORD_LIMIT / 0x1_0000_0000
  }

  // ---------- cyclic probe paths ----------

  function Home(key: int, cap: nat): (h: nat)
    requires cap > 0
    ensures h < cap
  {
    AndBits(HashKey(key), cap - 1)
  }

  // The slot d steps after h
  ghost function Along(h: nat, d: nat, cap: nat): nat {
    if h + d < cap then h + d else h + d - cap
  }

  // The number of steps from h to i
  ghost function Steps(h: nat, i: nat, cap: nat): nat
    requires h < cap
  {
    if h <= i then i - h else i + cap - h
  }

  ghost predicate NoEmptyBefore(slots: seq<Slot>, key: int, d: nat)
    requires d <= |slots| && |slots| > 0
  {
    forall e: nat | e < d :: slots[Along(Home(key, |slots|), e, |slots|)].key != EMPTY_KEY
  }

  ghost predicate OnPath(slots: seq<Slot>, key: int, i: nat)
    requires i < |slots|
  {
    NoEmptyBefore(slots, key, Steps(Home(key, |slots|), i, |slots|))
  }

  // The slot d steps along the key's probe path
  ghost function PathKey(slots: seq<Slot>, key: int, d: nat): int
    requires d < |slots|
  {
    slots[Along(Home(key, |slots|), d, |slots|)].key
  }

  /** The probe for the key meets it before an EMPTY slot. For EMPTY_KEY itself that is the first
      EMPTY slot, for TOMBSTONE_KEY the first tombstone. */
  ghost predicate Met(slots: seq<Slot>, key: int) {
    exists d: nat :: d < |slots| && PathKey(slots, key, d) == key && NoEmptyBefore(slots, key, d)
  }

  ghost predicate LiveBefore(slots: seq<Slot>, key: int, d: nat)
    requires d <= |slots|
  {
    forall e: nat | e < d :: !Reserved(PathKey(slots, key, e))
  }

  /** The first slot of the key's probe path that is a tombstone or EMPTY. */
  ghost predicate FirstFree(slots: seq<Slot>, key: int, i: nat)
    requires i < |slots|
  {
    Reserved(slots[i].key) && LiveBefore(slots, key, Steps(Home(key, |slots|), i, |slots|))
  }

  /** `at` locates exactly the live keys: no key twice, none reserved, and no EMPTY slot on the
      probe path that leads to it. */
  ghost predicate Indexed(slots: seq<Slot>, at: map<int, nat>) {
    && |slots| > 0
    && (forall k | k in at :: !Reserved(k) && at[k] < |slots| && slots[at[k]].key == k && OnPath(slots, k, at[k]))
    && (forall i: nat | i < |slots| && !Reserved(slots[i].key) :: slots[i].key in at && at[slots[i].key] == i)
  }

  ghost function ContentsOf(slots: seq<Slot>, at: map<int, nat>): map<int, bool>
    requires Indexed(slots, at)
  {
    map k | k in at :: slots[at[k]].value
  }

  // ---------- counting slots ----------

  ghost function Count(slots: seq<Slot>, kind: Kind): nat {
    if slots == [] then 0 else Count(slots[..|slots| - 1], kind) + (if KindOf(slots[|slots| - 1]) == kind then 1 else 0)
  }

  lemma {:induction false} CountTotal(slots: seq<Slot>)
    ensures Count(slots, Empty) + Count(slots, Tombstone) + Count(slots, Live) == |slots|
  {
    if slots != [] {
      CountTotal(slots[..|slots| - 1]);
    }
  }

  lemma {:induction false} CountUpdate(slots: seq<Slot>, i: nat, s: Slot, kind: Kind)
    requires i < |slots|
    ensures Count(slots[i := s], kind)
         == Count(slots, kind) - (if KindOf(slots[i]) == kind then 1 else 0) + (if KindOf(s) == kind then 1 else 0)
  {
    var last := |slots| - 1;
    if i < last {
      CountUpdate(slots[..last], i, s, kind);
      assert slots[i := s][..last] == slots[..last][i := s];
    } else {
      assert slots[i := s][..last] == slots[..last];
    }
  }

  lemma {:induction false} CountNone(slots: seq<Slot>, kind: Kind)
    requires forall i: nat | i < |slots| :: KindOf(slots[i]) != kind
    ensures Count(slots, kind) == 0
  {
    if slots != [] {
      CountNone(slots[..|slots| - 1], kind);
    }
  }

  lemma {:induction false} NoneOfKind(slots: seq<Slot>, kind: Kind, i: nat)
    requires Count(slots, kind) == 0 && i < |slots|
    ensures KindOf(slots[i]) != kind
  {
    if i < |slots| - 1 {
      NoneOfKind(slots[..|slots| - 1], kind, i);
    }
  }

  lemma {:induction false} CountAll(slots: seq<Slot>, kind: Kind)
    requires forall i: nat | i < |slots| :: KindOf(slots[i]) == kind
    ensures Count(slots, kind) == |slots|
  {
    if slots != [] {
      CountAll(slots[..|slots| - 1], kind);
    }
  }

  lemma {:induction false} CountPrefix(slots: seq<Slot>, n: nat, kind: Kind)
    requires n <= |slots|
    ensures Count(slots[..n], kind) <= Count(slots, kind)
  {
    if n < |slots| {
      CountPrefix(slots[..|slots| - 1], n, kind);
      assert slots[..|slots| - 1][..n] == slots[..n];
    } else {
      assert slots[..n] == slots;
    }
  }

  // ---------- what one probe or one write does ----------

  // A probe that has gone all the way round without meeting EMPTY contradicts a free slot
  lemma FullCircle(slots: seq<Slot>, key: int)
    requires |slots| > 0 && NoEmptyBefore(slots, key, |slots|)
    ensures Count(slots, Empty) == 0
  {
    var h := Home(key, |slots|);
    forall i: nat | i < |slots| ensures KindOf(slots[i]) != Empty {
      assert Along(h, Steps(h, i, |slots|), |slots|) == i;
    }
    CountNone(slots, Empty);
  }

  // The search has met EMPTY before meeting the key, so the key is not there
  lemma Missed(slots: seq<Slot>, at: map<int, nat>, key: int, d: nat)
    requires Indexed(slots, at) && d < |slots|
    requires Probed(slots, key, d) && slots[Along(Home(key, |slots|), d, |slots|)].key == EMPTY_KEY != key
    ensures key !in at
  {
    var h := Home(key, |slots|);
    assert forall i: nat | i < |slots| :: Along(h, Steps(h, i, |slots|), |slots|) == i;
  }

  // Nor does any step of the probe meet it
  lemma NotMet(slots: seq<Slot>, key: int, d: nat)
    requires d < |slots| && Probed(slots, key, d) && PathKey(slots, key, d) == EMPTY_KEY != key
    ensures !Met(slots, key)
  {
    forall e: nat | e < |slots| && NoEmptyBefore(slots, key, e) ensures PathKey(slots, key, e) != key {
      assert e <= d;
    }
  }

  // The first d slots of the key's probe path hold other keys or tombstones
  ghost predicate Probed(slots: seq<Slot>, key: int, d: nat)
    requires d <= |slots| && |slots| > 0
  {
    forall e: nat | e < d :: slots[Along(Home(key, |slots|), e, |slots|)].key !in {key, EMPTY_KEY}
  }

  // One more step of a probe
  lemma Advance(slots: seq<Slot>, log2: nat, key: int, d: nat)
    requires |slots| == Pow2(log2) && Count(slots, Empty) > 0 && d < |slots| && Probed(slots, key, d)
    ensures var i := Along(Home(key, |slots|), d, |slots|);
            && i < |slots| && OnPath(slots, key, i)
            && (slots[i].key !in {key, EMPTY_KEY} ==>
                  && d + 1 < |slots| && Probed(slots, key, d + 1)
                  && AndBits(i + 1, |slots| - 1) == Along(Home(key, |slots|), d + 1, |slots|))
  {
    var i := Along(Home(key, |slots|), d, |slots|);
    MaskedIndex(i + 1, log2);
    assert Steps(Home(key, |slots|), i, |slots|) == d;
    if slots[i].key !in {key, EMPTY_KEY} && d + 1 == |slots| {
      assert Probed(slots, key, d + 1);
      FullCircle(slots, key);
    }
  }

  lemma Occupy(slots: seq<Slot>, at: map<int, nat>, i: nat, key: int, value: bool)
    requires Indexed(slots, at) && i < |slots| && !Reserved(key)
    requires if key in at then i == at[key] else Reserved(slots[i].key) && OnPath(slots, key, i)
    ensures Indexed(slots[i := Slot(key, value)], at[key := i])
    ensures ContentsOf(slots[i := Slot(key, value)], at[key := i]) == ContentsOf(slots, at)[key := value]
  {
    var slots', at' := slots[i := Slot(key, value)], at[key := i];
    forall k | k in at' ensures OnPath(slots', k, at'[k]) {
      assert OnPath(slots, k, at'[k]);
    }
    assert Indexed(slots', at');
  }

  lemma Vacate(slots: seq<Slot>, at: map<int, nat>, i: nat, value: bool)
    requires Indexed(slots, at) && i < |slots| && !Reserved(slots[i].key)
    ensures Indexed(slots[i := Slot(TOMBSTONE_KEY, value)], at - {slots[i].key})
    ensures ContentsOf(slots[i := Slot(TOMBSTONE_KEY, value)], at - {slots[i].key})
         == ContentsOf(slots, at) - {slots[i].key}
  {
    var slots', at' := slots[i := Slot(TOMBSTONE_KEY, value)], at - {slots[i].key};
    forall k | k in at' ensures OnPath(slots', k, at'[k]) {
      assert OnPath(slots, k, at[k]);
    }
    assert Indexed(slots', at');
  }

  lemma AssignValue(slots: seq<Slot>, at: map<int, nat>, i: nat, value: bool)
    requires Indexed(slots, at) && i < |slots|
    ensures var slots' := slots[i := Slot(slots[i].key, value)];
            && Indexed(slots', at)
            && ContentsOf(slots', at) ==
               (if Reserved(slots[i].key) then ContentsOf(slots, at) else ContentsOf(slots, at)[slots[i].key := value])
            && Count(slots', Live) == Count(slots, Live) && Count(slots', Tombstone) == Count(slots, Tombstone)
  {
    var slots' := slots[i := Slot(slots[i].key, value)];
    CountUpdate(slots, i, slots'[i], Live);
    CountUpdate(slots, i, slots'[i], Tombstone);
    forall k | k in at ensures OnPath(slots', k, at[k]) {
      assert OnPath(slots, k, at[k]);
    }
    assert Indexed(slots', at);
  }

  lemma EraseSlot(slots: seq<Slot>, at: map<int, nat>, i: nat)
    requires Indexed(slots, at) && i < |slots| && !Reserved(slots[i].key)
    ensures var slots' := slots[i := Slot(TOMBSTONE_KEY, slots[i].value)];
            && Indexed(slots', at - {slots[i].key})
            && ContentsOf(slots', at - {slots[i].key}) == ContentsOf(slots, at) - {slots[i].key}
            && Count(slots', Live) == Count(slots, Live) - 1
            && Count(slots', Tombstone) == Count(slots, Tombstone) + 1
  {
    Vacate(slots, at, i, slots[i].value);
    CountUpdate(slots, i, Slot(TOMBSTONE_KEY, slots[i].value), Live);
    CountUpdate(slots, i, Slot(TOMBSTONE_KEY, slots[i].value), Tombstone);
  }

  class KillFlagTable {
    var slots: array<Slot>
    var mask: nat
    var live_count: nat
    var tombstone_count: nat
    ghost var log2: nat           // the capacity is 2^log2
    ghost var at: map<int, nat>   // where each live key sits
    ghost var contents: map<int, bool>
    ghost var sets: nat           // how many times Set has been called

    // Everything but the load bound, which a rehash restores
    ghost predicate Consistent()
      reads this, slots
    {
      && slots.Length == Pow2(log2) == mask + 1
      && Indexed(slots[..], at) && contents == ContentsOf(slots[..], at)
      && live_count == Count(slots[..], Live)
      && tombstone_count == Count(slots[..], Tombstone)
    }

    // The load leaves an EMPTY slot on every probe cycle, and the capacity is the initial one or
    // bounded by the number of insertions
    ghost predicate Loaded()
      reads this, slots
    {
      && INITIAL_CAPACITY <= slots.Length
      && 10 * (live_count + tombstone_count) < 6 * slots.Length
      && live_count + tombstone_count <= sets
      && (slots.Length == INITIAL_CAPACITY || 3 * slots.Length <= 10 * sets)
    }

    /** What every operation keeps; sealed, since to a caller it is one fact. */
    ghost predicate Valid()
      reads this, slots
    {
      forall key: bool {:trigger Unseal(key)} :: Unseal(key) ==> Consistent() && Loaded()
    }

    ghost predicate HasEmpty()
      reads this, slots
    {
      Count(slots[..], Empty) > 0
    }

    lemma LoadLeavesEmpty()
      requires Consistent() && 10 * (live_count + tombstone_count) < 6 * slots.Length
      ensures HasEmpty()
    {
      CountTotal(slots[..]);
    }

    method LocateForFind(key: int) returns (r: Option<nat>)
      requires Consistent() && HasEmpty()
      ensures r.Some? ==> r.value < slots.Length && slots[r.value].key == key
      ensures !Reserved(key) ==> (r.Some? <==> key in at)
      ensures r.Some? <==> Met(slots[..], key)
      ensures key == EMPTY_KEY ==> r.Some?
    {
      var idx := Home(key, mask + 1);
      ghost var s, d := slots[..], 0;
      while true
        invariant d < |s| && idx == Along(Home(key, |s|), d, |s|) && Probed(s, key, d)
        decreases |s| - d
      {
        Advance(s, log2, key, d);
        if slots[idx].key == key {
          assert PathKey(s, key, d) == key && NoEmptyBefore(s, key, d);
          return Some(idx);
        }
        if slots[idx].key == EMPTY_KEY {
          Missed(s, at, key, d);
          NotMet(s, key, d);
          return None;
        }
        idx := AndBits(idx + 1, mask);
        d := d + 1;
      }
    }

    method LocateForInsert(key: int) returns (idx: nat)
      requires Consistent() && HasEmpty() && !Reserved(key)
      ensures idx < slots.Length
      ensures if key in at then idx == at[key] else FirstFree(slots[..], key, idx) && OnPath(slots[..], key, idx)
    {
      idx := Home(key, mask + 1);
      var firstTombstone: Option<nat> := None;
      ghost var s, d := slots[..], 0;
      while true
        invariant d < |s| && idx == Along(Home(key, |s|), d, |s|) && Probed(s, key, d)
        invariant firstTombstone.Some? ==>
            && firstTombstone.value < |s| && s[firstTombstone.value].key == TOMBSTONE_KEY
            && FirstFree(s, key, firstTombstone.value) && OnPath(s, key, firstTombstone.value)
        invariant firstTombstone.None? ==> LiveBefore(s, key, d)
        decreases |s| - d
      {
        Advance(s, log2, key, d);
        if slots[idx].key == key {
          return;
        }
        if slots[idx].key == EMPTY_KEY {
          Missed(s, at, key, d);
          idx := firstTombstone.GetOr(idx);
          return;
        }
        if slots[idx].key == TOMBSTONE_KEY && firstTombstone.None? {
          firstTombstone := Some(idx);
        }
        idx := AndBits(idx + 1, mask);
        d := d + 1;
      }
    }

    // Writes a key and its flag into the slot the insertion probe chose; the caller adjusts the counters
    method Store(idx: nat, key: int, value: bool)
      requires Indexed(slots[..], at) && contents == ContentsOf(slots[..], at) && idx < slots.Length && !Reserved(key)
      requires if key in at then idx == at[key] else Reserved(slots[idx].key) && OnPath(slots[..], key, idx)
      modifies this`at, this`contents, slots
      ensures Indexed(slots[..], at) && at.Keys == old(at.Keys) + {key}
      ensures contents == ContentsOf(slots[..], at) == old(ContentsOf(slots[..], at))[key := value]
      ensures Count(slots[..], Live) == old(Count(slots[..], Live)) + if key in old(at) then 0 else 1
      ensures Count(slots[..], Tombstone)
           == old(Count(slots[..], Tombstone)) - if old(slots[idx].key) == TOMBSTONE_KEY then 1 else 0
    {
      ghost var before := slots[..];
      Occupy(before, at, idx, key, value);
      CountUpdate(before, idx, Slot(key, value), Live);
      CountUpdate(before, idx, Slot(key, value), Tombstone);
      slots[idx] := Slot(key, value);
      at := at[key := idx];
      contents := contents[key := value];
      assert slots[..] == before[idx := Slot(key, value)];
    }

    // Insertion into a table that has room
    method Put(key: int, value: bool)
      requires Consistent() && HasEmpty() && !Reserved(key)
      modifies this`at, this`contents, this`live_count, this`tombstone_count, slots
      ensures Consistent() && contents == old(contents)[key := value]
      ensures live_count + tombstone_count <= old(live_count + tombstone_count) + 1
    {
      var idx := LocateForInsert(key);
      var prevKey := slots[idx].key;
      Store(idx, key, value);
      if prevKey != key {
        if prevKey == TOMBSTONE_KEY {
          tombstone_count := tombstone_count - 1;
        }
        live_count := live_count + 1;
      }
    }

    constructor ()
      ensures Valid() && contents == map[] && fresh(slots)
    {
      assert Pow2(6) == 64;
      assert Pow2(12) == INITIAL_CAPACITY;
      slots := new Slot[INITIAL_CAPACITY](_ => Slot(EMPTY_KEY, false));
      mask, log2, at, contents, sets := INITIAL_CAPACITY - 1, 12, map[], map[], 0;
      live_count, tombstone_count := 0, 0;
      new;
      CountAll(slots[..], Empty);
      CountTotal(slots[..]);
    }

    /** Insert or assign. */
    method Set(key: int, value: bool)
      requires Valid() && !Reserved(key)
      modifies this, slots
      ensures Valid() && contents == old(contents)[key := value]
      ensures slots == old(slots) || fresh(slots)
      ensures sets == old(sets) + 1
    {
      assert Unseal(true);
      MaybeGrow();
      LoadLeavesEmpty();
      Put(key, value);
      sets := sets + 1;
    }

    /** The slot holding the key's flag. For the reserved keys the answer is about the slots
        themselves: EMPTY_KEY is always met, TOMBSTONE_KEY if one lies before an empty slot. */
    method Find(key: int) returns (r: Option<nat>)
      requires Valid()
      ensures r.Some? ==> r.value < slots.Length && slots[r.value].key == key
      ensures !Reserved(key) ==> (r.Some? <==> key in contents)
      ensures !Reserved(key) && r.Some? ==> slots[r.value].value == contents[key]
      ensures r.Some? <==> Met(slots[..], key)
      ensures key == EMPTY_KEY ==> r.Some?
    {
      assert Unseal(true);
      LoadLeavesEmpty();
      r := LocateForFind(key);
    }

    /** Writing through the pointer that Find returned. */
    method Assign(idx: nat, value: bool)
      requires Valid() && idx < slots.Length
      modifies this`contents, slots
      ensures Valid()
      ensures contents == if Reserved(slots[idx].key) then old(contents) else old(contents)[slots[idx].key := value]
      ensures slots[idx].key == old(slots[idx].key)
    {
      assert Unseal(true);
      ghost var before := slots[..];
      slots[idx] := Slot(slots[idx].key, value);
      AssignValue(before, at, idx, value);
      contents := if Reserved(before[idx].key) then contents else contents[before[idx].key := value];
      assert slots[..] == before[idx := Slot(before[idx].key, value)];
    }

    method Erase(key: int)
      requires Valid() && !Reserved(key)
      modifies this, slots
      ensures Valid() && slots == old(slots) && sets == old(sets)
      ensures contents == old(contents) - {key}
    {
      assert Unseal(true);
      LoadLeavesEmpty();
      var idx := LocateForFind(key);
      if idx.None? {
        return;
      }
      EraseSlot(slots[..], at, idx.value);
      ghost var after := slots[..][idx.value := Slot(TOMBSTONE_KEY, slots[idx.value].value)];
      slots[idx.value] := Slot(TOMBSTONE_KEY, slots[idx.value].value);
      assert slots[..] == after;
      at := at - {key};
      contents := contents - {key};
      live_count := live_count - 1;
      tombstone_count := tombstone_count + 1;
    }

    method MaybeGrow()
      requires Valid()
      modifies this
      ensures Consistent() && live_count + tombstone_count <= sets && INITIAL_CAPACITY <= slots.Length
      ensures slots.Length == INITIAL_CAPACITY || 3 * slots.Length <= 10 * (sets + 1)
      ensures 10 * (live_count + tombstone_count + 1) < 6 * slots.Length
      ensures contents == old(contents) && sets == old(sets)
      ensures slots == old(slots) || fresh(slots)
    {
      assert Unseal(true);
      if (live_count + tombstone_count + 1) * 10 >= slots.Length * 6 {
        Rehash(slots.Length * 2, log2 + 1);
      }
    }

    method Reset(capacity: nat, ghost newLog2: nat)
      requires capacity == Pow2(newLog2)
      modifies this
      ensures Consistent() && slots.Length == capacity && log2 == newLog2 && fresh(slots) && at == map[]
      ensures live_count == tombstone_count == 0 && sets == old(sets)
    {
      slots := new Slot[capacity](_ => Slot(EMPTY_KEY, false));
      mask, log2, at, contents := capacity - 1, newLog2, map[], map[];
      live_count, tombstone_count := 0, 0;
      CountAll(slots[..], Empty);
      CountTotal(slots[..]);
    }

    // One round of the rehashing loop
    method Reinsert(s: Slot)
      requires Consistent() && HasEmpty() && tombstone_count == 0 && s.key !in at
      modifies this`at, this`contents, this`live_count, slots
      ensures Consistent()
      ensures live_count == old(live_count) + if Reserved(s.key) then 0 else 1
      ensures contents == if Reserved(s.key) then old(contents) else old(contents)[s.key := s.value]
    {
      if s.key != EMPTY_KEY && s.key != TOMBSTONE_KEY {
        var idx := LocateForInsert(s.key);
        assert slots[idx].key != TOMBSTONE_KEY by {
          NoneOfKind(slots[..], Tombstone, idx);
        }
        Store(idx, s.key, s.value);
        live_count := live_count + 1;
      }
    }

    method Rehash(newCapacity: nat, ghost newLog2: nat)
      requires Consistent() && newCapacity == Pow2(newLog2) && live_count < newCapacity
      modifies this
      ensures Consistent() && log2 == newLog2 && contents == old(contents) && fresh(slots)
      ensures live_count == old(live_count) && tombstone_count == 0 && sets == old(sets)
    {
      var was := slots;
      ghost var w, wasAt := slots[..], at;
      Reset(newCapacity, newLog2);
      for i := 0 to was.Length
        invariant was[..] == w && fresh(slots) && slots.Length == newCapacity && log2 == newLog2
        invariant Consistent() && sets == old(sets) && tombstone_count == 0
        invariant live_count == Count(w[..i], Live)
        invariant contents == FirstContents(w, wasAt, i)
      {
        FirstContentsStep(w, wasAt, i);
        FirstCountStep(w, i);
        CountTotal(slots[..]);
        Reinsert(was[i]);
      }
      FirstContentsAll(w, wasAt);
    }
  }

  // The part of the contents kept in the first n slots
  ghost function FirstContents(slots: seq<Slot>, at: map<int, nat>, n: nat): map<int, bool>
    requires Indexed(slots, at)
  {
    map k | k in at && at[k] < n :: slots[at[k]].value
  }

  lemma FirstContentsAll(slots: seq<Slot>, at: map<int, nat>)
    requires Indexed(slots, at)
    ensures FirstContents(slots, at, |slots|) == ContentsOf(slots, at) && slots[..|slots|] == slots
  {
    assert forall k :: k in FirstContents(slots, at, |slots|) <==> k in at;
  }

  lemma FirstContentsStep(slots: seq<Slot>, at: map<int, nat>, n: nat)
    requires Indexed(slots, at) && n < |slots|
    ensures var s, first := slots[n], FirstContents(slots, at, n);
            && s.key !in first
            && FirstContents(slots, at, n + 1) == (if Reserved(s.key) then first else first[s.key := s.value])
  {
    var s, first, next := slots[n], FirstContents(slots, at, n), FirstContents(slots, at, n + 1);
    forall k | k in at ensures at[k] == n <==> k == s.key && !Reserved(s.key) {}
    assert forall k :: k in next <==> k in first || (k == s.key && !Reserved(s.key));
  }

  lemma FirstCountStep(slots: seq<Slot>, n: nat)
    requires n < |slots|
    ensures Count(slots[..n + 1], Live) == Count(slots[..n], Live) + if Reserved(slots[n].key) then 0 else 1
    ensures Count(slots[..n], Live) <= Count(slots, Live)
  {
    CountPrefix(slots, n, Live);
    assert slots[..n + 1][..n] == slots[..n];
  }

  /** The number of live slots is the size of the map. */
  lemma {:induction false} LiveCountIsSize(slots: seq<Slot>, at: map<int, nat>, n: nat)
    requires Indexed(slots, at) && n <= |slots|
    ensures |FirstContents(slots, at, n)| == Count(slots[..n], Live)
    ensures n == |slots| ==> |ContentsOf(slots, at)| == Count(slots, Live)
  {
    if n > 0 {
      LiveCountIsSize(slots, at, n - 1);
      FirstContentsStep(slots, at, n - 1);
      FirstCountStep(slots, n - 1);
    } else {
      assert FirstContents(slots, at, 0) == map[];
    }
    FirstContentsAll(slots, at);
  }
}
