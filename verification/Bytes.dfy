/** Byte strings: the key order of `bytes.Compare` and fixed-width little-endian integers. */
module Bytes {
  type byte = b: int | 0 <= b < 256
  type Bytes = seq<byte>
  type Key = seq<byte>

  datatype Option<+T> = None | Some(value: T)
  datatype Result<+T> = Ok(value: T) | Err(error: string)

  const UINT32: nat := 0x1_0000_0000
  const UINT64: nat := 0x1_0000_0000_0000_0000

  /** `bytes.Compare(a, b) < 0`: lexicographic, a proper prefix first. */
  predicate Less(a: Key, b: Key) {
    if b == [] then false
    else if a == [] then true
    else a[0] < b[0] || (a[0] == b[0] && Less(a[1..], b[1..]))
  }

  /** Where `a` and `b` part: they agree below position `i`, and there `a` ends or has the smaller byte. */
  predicate PartAt(a: Key, b: Key, i: nat) {
    i <= |a| && i < |b| && a[..i] == b[..i] && (i == |a| || a[i] < b[i])
  }

  /** The order of byte strings by their first difference, bytes compared as the numbers 0 to 255. */
  predicate Precedes(a: Key, b: Key) {
    exists i :: 0 <= i <= |a| && PartAt(a, b, i)
  }

  lemma {:induction false} PartsSomewhere(a: Key, b: Key)
    requires Less(a, b)
    ensures Precedes(a, b)
  {
    if a == [] {
      assert PartAt(a, b, 0);
    } else if a[0] < b[0] {
      assert PartAt(a, b, 0);
    } else {
      PartsSomewhere(a[1..], b[1..]);
      var i :| 0 <= i <= |a[1..]| && PartAt(a[1..], b[1..], i);
      assert a[..i + 1] == [a[0]] + a[1..][..i] && b[..i + 1] == [b[0]] + b[1..][..i];
      assert PartAt(a, b, i + 1);
    }
  }

  lemma {:induction false} PartingIsLess(a: Key, b: Key, i: nat)
    requires PartAt(a, b, i)
    ensures Less(a, b)
  {
    if i > 0 {
      assert a[..i][0] == b[..i][0];
      assert a[1..][..i - 1] == a[..i][1..] && b[1..][..i - 1] == b[..i][1..];
      PartingIsLess(a[1..], b[1..], i - 1);
    }
  }

  /** The recursive comparison is the one by first difference. */
  lemma LessExact(a: Key, b: Key)
    ensures Less(a, b) <==> Precedes(a, b)
  {
    if Less(a, b) {
      PartsSomewhere(a, b);
    }
    if Precedes(a, b) {
      var i :| 0 <= i <= |a| && PartAt(a, b, i);
      PartingIsLess(a, b, i);
    }
  }

  predicate LessEq(a: Key, b: Key) {
    a == b || Less(a, b)
  }

  lemma {:induction false} LessIrreflexive(a: Key)
    ensures !Less(a, a)
  {
    if a != [] {
      LessIrreflexive(a[1..]);
    }
  }

  lemma {:induction false} LessTotal(a: Key, b: Key)
    ensures Less(a, b) || a == b || Less(b, a)
  {
    if a != [] && b != [] && a[0] == b[0] {
      LessTotal(a[1..], b[1..]);
      if a[1..] == b[1..] {
        assert a == [a[0]] + a[1..] && b == [b[0]] + b[1..];
      }
    }
  }

  lemma {:induction false} LessTransitive(a: Key, b: Key, c: Key)
    requires Less(a, b) && Less(b, c)
    ensures Less(a, c)
  {
    if a != [] && a[0] == b[0] && b[0] == c[0] {
      LessTransitive(a[1..], b[1..], c[1..]);
    }
  }

  /** A scan's key range; `None` is Go's nil bound. */
  predicate InRange(k: Key, start: Option<Key>, end: Option<Key>) {
    && (start.Some? ==> !Less(k, start.value))
    && (end.Some? ==> Less(k, end.value))
  }

  /** [start, end) by first difference: from `start` itself up to but without `end`. */
  predicate Within(k: Key, start: Option<Key>, end: Option<Key>) {
    (start.Some? ==> k == start.value || Precedes(start.value, k)) && (end.Some? ==> Precedes(k, end.value))
  }

  /** The range holds its start and not its end, and otherwise what lies between them by first difference. */
  lemma InRangeExact(k: Key, start: Option<Key>, end: Option<Key>)
    ensures InRange(k, start, end) <==> Within(k, start, end)
  {
    if start.Some? {
      LessExact(start.value, k);
      LessTotal(k, start.value);
      LessIrreflexive(k);
      if Less(k, start.value) && Less(start.value, k) {
        LessTransitive(k, start.value, k);
      }
    }
    if end.Some? {
      LessExact(k, end.value);
    }
  }

  /** `width` little-endian bytes of `n`; higher bytes are cut off, as `binary.LittleEndian.PutUintN` does. */
  function PutUint(n: nat, width: nat): (r: Bytes)
    ensures |r| == width
  {
    if width == 0 then [] else [n % 256] + PutUint(n / 256, width - 1)
  }

  function GetUint(b: Bytes): nat {
    if b == [] then 0 else b[0] + 256 * GetUint(b[1..])
  }

  function Pow256(n: nat): (r: nat)
    ensures r >= 1
  {
    if n == 0 then 1 else 256 * Pow256(n - 1)
  }

  lemma Pow256Values()
    ensures Pow256(4) == UINT32 && Pow256(8) == UINT64
  {
    assert Pow256(2) == 0x1_0000;
    assert Pow256(4) == 0x1_0000 * Pow256(2);
    assert Pow256(6) == 0x1_0000 * Pow256(4);
    assert Pow256(8) == 0x1_0000 * Pow256(6);
  }

  lemma {:induction false} GetPutUint(n: nat, width: nat)
    requires n < Pow256(width)
    ensures GetUint(PutUint(n, width)) == n
  {
    if width > 0 {
      GetPutUint(n / 256, width - 1);
      var b := PutUint(n, width);
      assert b[1..] == PutUint(n / 256, width - 1);
    }
  }

  lemma {:induction false} GetUintBound(b: Bytes)
    ensures GetUint(b) < Pow256(|b|)
  {
    if b != [] {
      GetUintBound(b[1..]);
    }
  }

  lemma PutFront(d: byte, q: nat, width: nat)
    ensures PutUint(d + 256 * q, width + 1) == [d] + PutUint(q, width)
  {
    assert (d + 256 * q) % 256 == d && (d + 256 * q) / 256 == q;
  }

  lemma {:induction false} PutGetUint(b: Bytes)
    ensures GetUint(b) < Pow256(|b|)
    ensures PutUint(GetUint(b), |b|) == b
  {
    hide PutUint;
    GetUintBound(b);
    if b == [] {
      assert |PutUint(0, 0)| == 0;
    } else {
      PutGetUint(b[1..]);
      PutFront(b[0], GetUint(b[1..]), |b| - 1);
      assert b == [b[0]] + b[1..];
    }
  }

  /** Integers that fit their field survive the trip through it. */
  lemma GetPutUint32(n: nat)
    requires n < UINT32
    ensures GetUint(PutUint(n, 4)) == n
  {
    Pow256Values();
    GetPutUint(n, 4);
  }

  lemma GetPutUint64(n: nat)
    requires n < UINT64
    ensures GetUint(PutUint(n, 8)) == n
  {
    Pow256Values();
    GetPutUint(n, 8);
  }

  /** Byte `i` of an encoded integer is its i-th digit to base 256, least first. */
  lemma {:induction false} PutUintByte(n: nat, width: nat, i: nat)
    requires i < width
    ensures PutUint(n, width)[i] == n / Pow256(i) % 256
  {
    if i > 0 {
      PutUintByte(n / 256, width - 1, i - 1);
      DivideTwice(n, Pow256(i - 1));
    }
  }

  lemma DivideTwice(n: nat, p: nat)
    requires p >= 1
    ensures n / 256 / p == n / (256 * p)
  {
    var q, r := n / (256 * p), n % (256 * p);
    assert n == 256 * (p * q) + r;
    assert n / 256 == p * q + r / 256;
    assert r / 256 < p;
    QuotientIs(n / 256, p, q, r / 256);
  }

  lemma QuotientIs(n: nat, p: nat, q: nat, r: nat)
    requires p >= 1 && n == p * q + r && r < p
    ensures n / p == q
  {
    var d := n / p - q;
    assert p * d == r - n % p;
    MultipleBound(p, d);
  }

  lemma MultipleBound(p: nat, d: int)
    ensures d >= 1 ==> p * d >= p
    ensures d <= -1 ==> p * d + p <= 0
  {
  }
}
