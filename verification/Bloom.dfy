/** The Bloom filter: no false negatives, before and after a trip through its encoding. */
module Bloom {
  import opened Bytes

  /** The two underlying 32-bit hashes, arbitrary deterministic functions of the key. */
  datatype Hash = Hash(sum1: Key -> nat, sum2: Key -> nat)

  /** Index of the i-th derived hash: uint32 arithmetic wraps before the reduction to a bit number. */
  function Index(h: Hash, key: Key, i: nat, numBits: nat): (idx: nat)
    requires numBits > 0
    ensures idx < numBits
  {
    (h.sum1(key) + i * h.sum2(key)) % UINT32 % numBits
  }

  function Mask(j: nat): bv8
    requires j < 8
  {
    (1 as bv8) << j
  }

  predicate Bit(b: bv8, j: nat)
    requires j < 8
  {
    b & Mask(j) != 0
  }

  predicate BitSet(bits: seq<bv8>, idx: nat)
    requires idx / 8 < |bits|
  {
    Bit(bits[idx / 8], idx % 8)
  }

  lemma OrSetsOneBit(x: bv8, a: nat, b: nat)
    requires a < 8 && b < 8
    ensures Bit(x | Mask(a), b) <==> a == b || Bit(x, b)
  {
    MaskValue(a);
    MaskValue(b);
  }

  lemma MaskValue(j: nat)
    requires j < 8
    ensures Mask(j) == (if j == 0 then 1 else if j == 1 then 2 else if j == 2 then 4 else if j == 3 then 8
                        else if j == 4 then 16 else if j == 5 then 32 else if j == 6 then 64 else 128)
  {
  }

  lemma ByteRoundTrip(x: bv8)
    ensures 0 <= x as int < 256 && (x as int) as bv8 == x
  {
  }

  // ---------- Filters as values ----------

  datatype Contents = Contents(bits: seq<bv8>, numBits: nat, numHash: nat)

  /** `NewForEntries` sizes: at least one bit, room for every bit, no wrap-around in the byte count. */
  predicate Sized(f: Contents) {
    0 < f.numBits <= UINT32 - 8 && |f.bits| == (f.numBits + 7) / 8 && 1 <= f.numHash < UINT32
  }

  /** Bit `idx` is one of the key's. */
  ghost predicate Hits(h: Hash, f: Contents, key: Key, idx: nat, n: nat)
    requires f.numBits > 0
  {
    exists i :: 0 <= i < n && Index(h, key, i, f.numBits) == idx
  }

  ghost predicate MayHold(h: Hash, f: Contents, key: Key)
    requires Sized(f)
  {
    forall i :: 0 <= i < f.numHash ==> BitSet(f.bits, Index(h, key, i, f.numBits))
  }

  /** `g` is `f` with exactly the key's bits added. */
  ghost predicate Adds(h: Hash, f: Contents, g: Contents, key: Key)
    requires Sized(f)
  {
    && g.numBits == f.numBits && g.numHash == f.numHash && |g.bits| == |f.bits|
    && forall idx :: 0 <= idx < f.numBits ==> (BitSet(g.bits, idx) <==> BitSet(f.bits, idx) || Hits(h, f, key, idx, f.numHash))
  }

  /** After Add the key may be held, and nothing held before is lost. */
  lemma AddKeeps(h: Hash, f: Contents, g: Contents, key: Key)
    requires Sized(f) && Adds(h, f, g, key)
    ensures Sized(g) && MayHold(h, g, key)
    ensures forall k :: MayHold(h, f, k) ==> MayHold(h, g, k)
  {
    hide BitSet, Index;
    forall i | 0 <= i < g.numHash ensures BitSet(g.bits, Index(h, key, i, g.numBits)) {
      assert Hits(h, f, key, Index(h, key, i, f.numBits), f.numHash);
    }
  }

  /** A filter made from an empty one by adding keys one after another. */
  ghost predicate AddRun(h: Hash, fs: seq<Contents>, keys: seq<Key>) {
    && |fs| == |keys| + 1 && Sized(fs[0])
    && forall i :: 0 <= i < |keys| ==> Sized(fs[i]) && Adds(h, fs[i], fs[i + 1], keys[i])
  }

  /** No false negatives: whatever was added at any time may still be held at the end. */
  lemma {:induction false} NoFalseNegatives(h: Hash, fs: seq<Contents>, keys: seq<Key>, j: nat)
    requires AddRun(h, fs, keys) && j < |keys|
    ensures Sized(fs[|keys|]) && MayHold(h, fs[|keys|], keys[j])
  {
    hide MayHold, Adds;
    var n := |keys| - 1;
    AddKeeps(h, fs[n], fs[n + 1], keys[n]);
    if j < n {
      NoFalseNegatives(h, fs[..n + 1], keys[..n], j);
    }
  }

  ghost predicate IsEmpty(f: Contents)
    requires Sized(f)
  {
    forall idx :: 0 <= idx < f.numBits ==> !BitSet(f.bits, idx)
  }

  /** From an empty filter, exactly the bits of the added keys are set. */
  lemma {:induction false} BitsOfRun(h: Hash, fs: seq<Contents>, keys: seq<Key>, idx: nat)
    requires AddRun(h, fs, keys) && IsEmpty(fs[0]) && idx < fs[0].numBits
    ensures var g := fs[|keys|];
            Sized(g) && g.numBits == fs[0].numBits && g.numHash == fs[0].numHash
            && (BitSet(g.bits, idx) <==> exists j :: 0 <= j < |keys| && Hits(h, fs[0], keys[j], idx, fs[0].numHash))
  {
    hide BitSet, Index, Hits;
    if keys != [] {
      var n := |keys| - 1;
      BitsOfRun(h, fs[..n + 1], keys[..n], idx);
      AddKeeps(h, fs[n], fs[n + 1], keys[n]);
      SameHits(h, fs[n], fs[0], keys[n], idx);
      assert forall j :: 0 <= j < n ==> keys[..n][j] == keys[j];
    }
  }

  lemma SameHits(h: Hash, f: Contents, g: Contents, key: Key, idx: nat)
    requires f.numBits == g.numBits > 0 && f.numHash == g.numHash
    ensures Hits(h, f, key, idx, f.numHash) <==> Hits(h, g, key, idx, g.numHash)
  {
  }

  /**
   What a filter answers: maybe, exactly if every bit the key probes is probed
   by some added key too.
   */
  lemma MayHoldExact(h: Hash, fs: seq<Contents>, keys: seq<Key>, key: Key)
    requires AddRun(h, fs, keys) && IsEmpty(fs[0])
    ensures Sized(fs[|keys|])
    ensures MayHold(h, fs[|keys|], key) <==>
            forall i :: 0 <= i < fs[0].numHash ==>
              exists j :: 0 <= j < |keys| && Hits(h, fs[0], keys[j], Index(h, key, i, fs[0].numBits), fs[0].numHash)
  {
    hide BitSet, Index, Hits, AddRun;
    assert Sized(fs[0]) && |fs| == |keys| + 1 by { RunShape(h, fs, keys); }
    BitsOfRun(h, fs, keys, 0);
    forall i | 0 <= i < fs[0].numHash
      ensures BitSet(fs[|keys|].bits, Index(h, key, i, fs[0].numBits)) <==>
              exists j :: 0 <= j < |keys| && Hits(h, fs[0], keys[j], Index(h, key, i, fs[0].numBits), fs[0].numHash)
    {
      BitsOfRun(h, fs, keys, Index(h, key, i, fs[0].numBits));
    }
  }

  lemma RunShape(h: Hash, fs: seq<Contents>, keys: seq<Key>)
    requires AddRun(h, fs, keys)
    ensures Sized(fs[0]) && |fs| == |keys| + 1
  {
  }

  lemma SetsOneBit(before: seq<bv8>, after: seq<bv8>, idx: nat, numBits: nat)
    requires idx < numBits && (numBits + 7) / 8 == |before|
    requires after == before[idx / 8 := before[idx / 8] | Mask(idx % 8)]
    ensures forall x :: 0 <= x < numBits ==> (BitSet(after, x) <==> BitSet(before, x) || x == idx)
  {
    hide Mask, BitSet;
    forall x | 0 <= x < numBits ensures BitSet(after, x) <==> BitSet(before, x) || x == idx {
      SetsOneBitAt(before, after, idx, x);
    }
  }

  lemma SetsOneBitAt(before: seq<bv8>, after: seq<bv8>, idx: nat, x: nat)
    requires idx / 8 < |before| && x / 8 < |before|
    requires after == before[idx / 8 := before[idx / 8] | Mask(idx % 8)]
    ensures BitSet(after, x) <==> BitSet(before, x) || x == idx
  {
    hide Mask, Bit;
    var q, b := x / 8, before[x / 8];
    if q == idx / 8 {
      SameByte(x, idx);
      OrSetsOneBit(b, idx % 8, x % 8);
      assert after[q] == b | Mask(idx % 8);
    } else {
      assert after[q] == b;
    }
  }

  lemma SameByte(x: nat, idx: nat)
    requires x / 8 == idx / 8
    ensures x == idx <==> x % 8 == idx % 8
  {
  }

  lemma NoHits(h: Hash, f: Contents, key: Key)
    requires f.numBits > 0
    ensures forall x :: 0 <= x < f.numBits ==> !Hits(h, f, key, x, 0)
  {
  }

  lemma OneMoreHit(h: Hash, f: Contents, key: Key, i: nat)
    requires f.numBits > 0
    ensures forall x :: 0 <= x < f.numBits ==> (Hits(h, f, key, x, i + 1) <==> Hits(h, f, key, x, i) || x == Index(h, key, i, f.numBits))
  {
    hide Index;
  }

  lemma ZeroIsEmpty(f: Contents)
    requires Sized(f) && forall i :: 0 <= i < |f.bits| ==> f.bits[i] == 0
    ensures IsEmpty(f)
  {
  }

  // ---------- The filter object ----------

  class Filter {
    const hash: Hash
    const bits: array<bv8>
    const numBits: nat
    const numHash: nat

    ghost predicate Valid()
      reads bits
    {
      Sized(Value())
    }

    function Value(): Contents
      reads bits
    {
      Contents(bits[..], numBits, numHash)
    }

    constructor (hash: Hash, numBits: nat, numHash: nat)
      requires 0 < numBits <= UINT32 - 8 && 1 <= numHash < UINT32
      ensures Valid() && fresh(bits) && this.hash == hash && this.numBits == numBits && this.numHash == numHash
      ensures IsEmpty(Value())
    {
      this.hash := hash;
      this.bits := new bv8[(numBits + 7) / 8](_ => 0);
      this.numBits := numBits;
      this.numHash := numHash;
      new;
      assert forall i :: 0 <= i < |bits[..]| ==> bits[..][i] == 0;
      ZeroIsEmpty(Value());
    }

    /** `Add`: set the key's bits and no others. */
    method Add(key: Key)
      requires Valid()
      modifies bits
      ensures Valid() && Adds(hash, old(Value()), Value(), key)
    {
      hide Index, Mask, BitSet, Hits;
      ghost var f := Value();
      assert forall idx :: 0 <= idx < numBits ==> !Hits(hash, f, key, idx, 0) by { NoHits(hash, f, key); }
      for i := 0 to numHash
        invariant forall idx :: 0 <= idx < numBits ==> (BitSet(bits[..], idx) <==> BitSet(f.bits, idx) || Hits(hash, f, key, idx, i))
      {
        var idx := Index(hash, key, i, numBits);
        ghost var before := bits[..];
        bits[idx / 8] := bits[idx / 8] | Mask(idx % 8);
        SetsOneBit(before, bits[..], idx, numBits);
        OneMoreHit(hash, f, key, i);
      }
    }

    /** `Encode`: a buffer filled with both sizes and the bit array. */
    method Encode() returns (buf: Bytes)
      ensures buf == Encoded(Value())
    {
      buf := PutUint(numBits, 4) + PutUint(numHash, 4);
      for i := 0 to bits.Length
        invariant buf == PutUint(numBits, 4) + PutUint(numHash, 4) + AsBytes(bits[..i])
      {
        assert bits[..i + 1] == bits[..i] + [bits[i]];
        buf := buf + [bits[i] as int];
      }
      assert bits[..bits.Length] == bits[..];
    }
  }

  /** `MayContain`: false is definite. */
  method MayContain(h: Hash, f: Contents, key: Key) returns (r: bool)
    requires Sized(f)
    ensures r <==> MayHold(h, f, key)
  {
    hide Index, Mask, Bit;
    for i := 0 to f.numHash
      invariant forall j :: 0 <= j < i ==> BitSet(f.bits, Index(h, key, j, f.numBits))
    {
      var idx := Index(h, key, i, f.numBits);
      if !Bit(f.bits[idx / 8], idx % 8) {
        return false;
      }
    }
    return true;
  }

  // ---------- The encoding ----------

  function AsBytes(bits: seq<bv8>): (r: Bytes)
    ensures |r| == |bits|
    ensures forall i :: 0 <= i < |bits| ==> r[i] == bits[i] as int
  {
    seq(|bits|, i requires 0 <= i < |bits| => bits[i] as int)
  }

  function AsBits(b: Bytes): (r: seq<bv8>)
    ensures |r| == |b|
    ensures forall i :: 0 <= i < |b| ==> r[i] == b[i] as bv8
  {
    seq(|b|, i requires 0 <= i < |b| => b[i] as bv8)
  }

  function Encoded(f: Contents): Bytes {
    PutUint(f.numBits, 4) + PutUint(f.numHash, 4) + AsBytes(f.bits)
  }

  /** `Decode`, with the byte count computed in wrapping uint32 arithmetic. */
  function Decode(buf: Bytes): Result<Contents> {
    if |buf| < 8 then Err("bloom: buffer too short")
    else
      var numBits, numHash := GetUint(buf[0..4]), GetUint(buf[4..8]);
      if |buf| - 8 != (numBits + 7) % UINT32 / 8 then Err("bloom: corrupt filter")
      else Ok(Contents(AsBits(buf[8..]), numBits, numHash))
  }

  /** Decoding an encoded filter gives it back, so it still holds every key it held. */
  lemma DecodeEncoded(f: Contents)
    requires Sized(f)
    ensures Decode(Encoded(f)) == Ok(f)
  {
    hide GetUint, PutUint;
    var buf := Encoded(f);
    assert buf[0..4] == PutUint(f.numBits, 4);
    assert buf[4..8] == PutUint(f.numHash, 4);
    assert buf[8..] == AsBytes(f.bits);
    GetPutUint32(f.numBits);
    GetPutUint32(f.numHash);
    forall i | 0 <= i < |f.bits| ensures AsBits(AsBytes(f.bits))[i] == f.bits[i] {
      ByteRoundTrip(f.bits[i]);
    }
    assert AsBits(AsBytes(f.bits)) == f.bits;
  }

  /** `f` is what the bytes hold: bit count, hash count, bits. */
  predicate Stands(f: Contents, buf: Bytes) {
    |buf| >= 8 && buf[0..4] == PutUint(f.numBits, 4) && buf[4..8] == PutUint(f.numHash, 4) && f.bits == AsBits(buf[8..])
  }

  /** A decoded filter stands in the bytes it was decoded from. */
  lemma DecodedStands(buf: Bytes)
    ensures Decode(buf).Ok? ==> Stands(Decode(buf).value, buf)
  {
    hide GetUint, PutUint;
    if Decode(buf).Ok? {
      PutGetUint(buf[0..4]);
      PutGetUint(buf[4..8]);
    }
  }

  // ---------- Which bits ----------

  /** Double hashing in 32-bit words: start at the first hash, add the second, wrap at 2^32. */
  function Word(h: Hash, key: Key, i: nat): nat {
    if i == 0 then h.sum1(key) % 0x1_0000_0000
    else
      var w := Word(h, key, i - 1) + h.sum2(key) % 0x1_0000_0000;
      if w >= 0x1_0000_0000 then w - 0x1_0000_0000 else w
  }

  lemma {:induction false} WordIsSum(h: Hash, key: Key, i: nat)
    ensures Word(h, key, i) == (h.sum1(key) + i * h.sum2(key)) % UINT32
  {
    var t := h.sum2(key);
    if i > 0 {
      WordIsSum(h, key, i - 1);
      OneMoreTime(h.sum1(key), i, t);
      AddWrapped(h.sum1(key) + (i - 1) * t, t);
    }
  }

  /** The i-th bit probed is the i-th word of double hashing, reduced to the number of bits. */
  lemma ProbesAreDoubleHashing(h: Hash, key: Key, i: nat, numBits: nat)
    requires numBits > 0
    ensures Index(h, key, i, numBits) == Word(h, key, i) % numBits
  {
    hide Word;
    WordIsSum(h, key, i);
  }

  lemma OneMoreTime(a: nat, i: nat, t: nat)
    requires i > 0
    ensures a + (i - 1) * t + t == a + i * t
  {
  }

  lemma AddWrapped(s: nat, t: nat)
    ensures (s + t) % UINT32 == (var w := s % UINT32 + t % UINT32; if w >= UINT32 then w - UINT32 else w)
  {
  }

  function BitValue(j: nat): bv8 {
    if j == 0 then 1 else if j == 1 then 2 else if j == 2 then 4 else if j == 3 then 8
    else if j == 4 then 16 else if j == 5 then 32 else if j == 6 then 64 else 128
  }

  /** Eight header bytes, then the bits: bit `idx` is bit `idx % 8`, least first, of byte `idx / 8`. */
  lemma FilterLayout(f: Contents, idx: nat)
    requires Sized(f) && idx < f.numBits
    ensures var buf := Encoded(f);
            && |buf| == 8 + (f.numBits + 7) / 8 && buf[0..4] == PutUint(f.numBits, 4) && buf[4..8] == PutUint(f.numHash, 4)
            && buf[8..] == AsBytes(f.bits)
    ensures BitSet(f.bits, idx) <==> f.bits[idx / 8] & BitValue(idx % 8) != 0
  {
    hide PutUint;
    MaskValue(idx % 8);
  }

  /** `Decode` accepts exactly the bytes of a filter whose bit array has the length its wrapped bit count asks for. */
  lemma DecodeExact(buf: Bytes)
    ensures Decode(buf).Ok? <==>
            exists f :: Stands(f, buf) && f.numBits < UINT32 && f.numHash < UINT32 && |f.bits| == (f.numBits + 7) % UINT32 / 8
  {
    hide GetUint, PutUint;
    DecodedStands(buf);
    if |buf| >= 8 {
      PutGetUint(buf[0..4]);
      PutGetUint(buf[4..8]);
      Pow256Values();
    }
    if f :| Stands(f, buf) && f.numBits < UINT32 && f.numHash < UINT32 && |f.bits| == (f.numBits + 7) % UINT32 / 8 {
      GetPutUint32(f.numBits);
    }
  }

  /** A bit count of 2^32 - 1 wraps to no bytes at all: a filter without bits is accepted. */
  lemma WrappedCountIsAccepted()
    ensures Decode([255, 255, 255, 255, 1, 0, 0, 0]) == Ok(Contents([], 0xFFFF_FFFF, 1))
  {
    var buf: Bytes := [255, 255, 255, 255, 1, 0, 0, 0];
    assert buf[0..4] == [255, 255, 255, 255] && buf[4..8] == [1, 0, 0, 0] && buf[8..] == [];
    assert GetUint([255]) == 255 && GetUint([255, 255]) == 0xFFFF && GetUint([255, 255, 255]) == 0xFF_FFFF by {
      assert [255][1..] == [] && [255, 255][1..] == [255] && [255, 255, 255][1..] == [255, 255];
    }
    assert [255, 255, 255, 255][1..] == [255, 255, 255];
    assert GetUint([255, 255, 255, 255]) == 0xFFFF_FFFF;
    assert GetUint([1, 0, 0, 0]) == 1 by {
      assert [0][1..] == [] && [0, 0][1..] == [0] && [0, 0, 0][1..] == [0, 0] && [1, 0, 0, 0][1..] == [0, 0, 0];
      assert GetUint([0]) == 0 && GetUint([0, 0]) == 0 && GetUint([0, 0, 0]) == 0;
    }
  }
}
