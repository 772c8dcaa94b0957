/** Rows of fixed-width number fields, as every message of the protocol carries them. */
module Fields {
  import opened Orders
  import opened Bytes

  // Quantities, prices and ids all take four bytes
  const FIELD_BYTES: nat := 4

  /** The two ways a field is read: as a signed int (client and server) or unsigned (subscriber). */
  datatype Reader = AsInt | AsUnsigned

  /** The numbers below which a field survives. */
  function Limit(r: Reader): nat {
    if r.AsInt? then 0x8000_0000 else 0x1_0000_0000
  }

  function Field(r: Reader, b: seq<Byte>): int {
    if r.AsInt? then Signed32(Value(b)) else Value(b)
  }

  function WriteAll(ns: seq<int>): seq<Byte> {
    if ns == [] then [] else Written(ns[0], FIELD_BYTES) + WriteAll(ns[1..])
  }

  lemma {:induction false} WriteAppend(ns: seq<int>, n: int)
    ensures WriteAll(ns + [n]) == WriteAll(ns) + Written(n, FIELD_BYTES)
  {
    if ns == [] {
      assert [] + [n] == [n] && [n][1..] == [];
    } else {
      assert (ns + [n])[1..] == ns[1..] + [n];
      WriteAppend(ns[1..], n);
    }
  }

  // Rows of one, two, three and four numbers
  lemma WriteRow(a: int, b: int, c: int, d: int)
    ensures var w := (n: int) => Written(n, FIELD_BYTES);
            && WriteAll([a]) == w(a) && WriteAll([a, b]) == w(a) + w(b)
            && WriteAll([a, b, c]) == w(a) + w(b) + w(c) && WriteAll([a, b, c, d]) == w(a) + w(b) + w(c) + w(d)
  {
    WriteAppend([], a);
    WriteAppend([a], b);
    WriteAppend([a, b], c);
    WriteAppend([a, b, c], d);
    assert [] + [a] == [a] && [a] + [b] == [a, b] && [a, b] + [c] == [a, b, c] && [a, b, c] + [d] == [a, b, c, d];
  }

  function ReadAll(r: Reader, b: seq<Byte>, k: nat): (ns: seq<int>)
    requires |b| >= FIELD_BYTES * k
    ensures |ns| == k
    decreases k
  {
    if k == 0 then [] else [Field(r, b[..FIELD_BYTES])] + ReadAll(r, b[FIELD_BYTES..], k - 1)
  }

  predicate AllBelow(ns: seq<int>, limit: nat) {
    forall n | n in ns :: 0 <= n < limit
  }

  lemma WrittenFits(n: int)
    ensures |Written(n, FIELD_BYTES)| >= FIELD_BYTES
    ensures 0 <= n < 0x1_0000_0000 ==> Written(n, FIELD_BYTES) == BigEndian(n, FIELD_BYTES)
    ensures 0 <= n < 0x1_0000_0000 ==> Value(BigEndian(n, FIELD_BYTES)) == n
    ensures n < 0 ==> Written(n, FIELD_BYTES) == BigEndian(0, FIELD_BYTES) && Value(BigEndian(0, FIELD_BYTES)) == 0
  {
    Powers();
    var m: nat := if n > 0 then n else 0;
    DigitsFit(m, FIELD_BYTES);
    if m < 0x1_0000_0000 {
      ValueOfBigEndian(m, FIELD_BYTES);
    }
  }

  /** A field is read back exactly when it is non-negative and below the reader's limit. */
  lemma FieldExact(r: Reader, n: int, rest: seq<Byte>)
    ensures |Written(n, FIELD_BYTES)| >= FIELD_BYTES
    ensures Field(r, (Written(n, FIELD_BYTES) + rest)[..FIELD_BYTES]) == n <==> 0 <= n < Limit(r)
    ensures 0 <= n < Limit(r) ==> |Written(n, FIELD_BYTES)| == FIELD_BYTES
  {
    WrittenFits(n);
    var b := (Written(n, FIELD_BYTES) + rest)[..FIELD_BYTES];
    BigEndianOfValue(b);
    Powers();
    if n < 0x1_0000_0000 {
      assert b == Written(n, FIELD_BYTES);
    }
  }

  // Reading a row one field at a time
  lemma ReadNext(r: Reader, b: seq<Byte>, ns: seq<int>)
    requires ns != [] && |b| >= FIELD_BYTES * |ns|
    ensures ReadAll(r, b, |ns|) == ns <==>
            Field(r, b[..FIELD_BYTES]) == ns[0] && ReadAll(r, b[FIELD_BYTES..], |ns| - 1) == ns[1..]
  {
    var read := ReadAll(r, b, |ns|);
    assert read == [read[0]] + read[1..] && ns == [ns[0]] + ns[1..];
    assert read[1..] == ReadAll(r, b[FIELD_BYTES..], |ns| - 1);
  }

  lemma {:induction false} ReadPrefix(r: Reader, a: seq<Byte>, b: seq<Byte>, k: nat)
    requires FIELD_BYTES * k <= |a| && a <= b
    ensures ReadAll(r, a, k) == ReadAll(r, b, k)
    decreases k
  {
    if k > 0 {
      assert a[..FIELD_BYTES] == b[..FIELD_BYTES];
      ReadPrefix(r, a[FIELD_BYTES..], b[FIELD_BYTES..], k - 1);
    }
  }

  lemma AllBelowNext(ns: seq<int>, limit: nat)
    requires ns != []
    ensures AllBelow(ns, limit) <==> 0 <= ns[0] < limit && AllBelow(ns[1..], limit)
  {
    assert ns[0] in ns && (forall n | n in ns[1..] :: n in ns);
    assert forall n | n in ns :: n == ns[0] || n in ns[1..];
  }

  /** A row of fields is read back exactly when every one of them is; its length then is fixed. */
  lemma {:induction false} FieldsExact(r: Reader, ns: seq<int>, rest: seq<Byte>)
    ensures |WriteAll(ns)| >= FIELD_BYTES * |ns|
    ensures ReadAll(r, WriteAll(ns) + rest, |ns|) == ns <==> AllBelow(ns, Limit(r))
    ensures AllBelow(ns, Limit(r)) ==> |WriteAll(ns)| == FIELD_BYTES * |ns|
  {
    if ns != [] {
      var n, more := ns[0], WriteAll(ns[1..]);
      var whole := WriteAll(ns) + rest;
      Regroup(Written(n, FIELD_BYTES), more, rest);
      assert whole == Written(n, FIELD_BYTES) + (more + rest);
      FieldExact(r, n, more + rest);
      FieldsExact(r, ns[1..], rest);
      ReadNext(r, whole, ns);
      AllBelowNext(ns, Limit(r));
      if 0 <= n < Limit(r) {
        assert whole[FIELD_BYTES..] == more + rest;
      }
    }
  }

  lemma Regroup(a: seq<Byte>, b: seq<Byte>, c: seq<Byte>)
    ensures (a + b) + c == a + (b + c)
  {}
}
