/** The history of writes: what it says of each key, and what replaying a part of it into a memtable gives. */
module History {
  import opened Bytes
  import opened Versions

  type MemTable = map<Key, Record>

  ghost predicate Increasing(h: seq<Record>) {
    forall i, j :: 0 <= i < j < |h| ==> h[i].seqNo < h[j].seqNo
  }

  function LastWrite(h: seq<Record>, k: Key): Option<Record> {
    if h == [] then None
    else if h[|h| - 1].key == k then Some(h[|h| - 1])
    else LastWrite(h[..|h| - 1], k)
  }

  /** A memtable keeps one version per key: every write overwrites, whatever its Seq. */
  function Replay(m: MemTable, h: seq<Record>): MemTable {
    if h == [] then m
    else var r := h[|h| - 1]; Replay(m, h[..|h| - 1])[r.key := r]
  }

  lemma {:induction false} ReplayAppend(m: MemTable, a: seq<Record>, b: seq<Record>)
    ensures Replay(m, a + b) == Replay(Replay(m, a), b)
  {
    if b == [] {
      assert a + b == a;
    } else {
      assert (a + b)[..|a + b| - 1] == a + b[..|b| - 1];
      ReplayAppend(m, a, b[..|b| - 1]);
    }
  }

  lemma {:induction false} ReplayIsLastWrite(h: seq<Record>, k: Key)
    ensures k in Replay(map[], h) <==> LastWrite(h, k).Some?
    ensures k in Replay(map[], h) ==> LastWrite(h, k) == Some(Replay(map[], h)[k])
  {
    if h != [] {
      ReplayIsLastWrite(h[..|h| - 1], k);
    }
  }

  /** The last write is the one with the greatest Seq. */
  lemma {:induction false} LastWriteIsTop(h: seq<Record>, k: Key)
    requires Increasing(h)
    ensures forall r :: r in h && r.key == k ==> LastWrite(h, k).Some? && r.seqNo <= LastWrite(h, k).value.seqNo
    ensures LastWrite(h, k).Some? ==> LastWrite(h, k).value in h && LastWrite(h, k).value.key == k
  {
    if h != [] {
      var n := |h| - 1;
      LastWriteIsTop(h[..n], k);
      assert h == h[..n] + [h[n]];
    }
  }

  lemma {:induction false} LastWriteOfSuffix(a: seq<Record>, b: seq<Record>, k: Key)
    ensures LastWrite(b, k).Some? ==> LastWrite(a + b, k) == LastWrite(b, k)
    ensures LastWrite(b, k).None? ==> LastWrite(a + b, k) == LastWrite(a, k)
  {
    if b == [] {
      assert a + b == a;
    } else {
      assert (a + b)[..|a + b| - 1] == a + b[..|b| - 1];
      LastWriteOfSuffix(a, b[..|b| - 1], k);
    }
  }

  lemma ReplayedRecords(h: seq<Record>)
    ensures forall k :: k in Replay(map[], h) ==> Replay(map[], h)[k] in h && Replay(map[], h)[k].key == k
    ensures forall r :: r in Replay(map[], h).Values ==> r in h && r.key in Replay(map[], h) && Replay(map[], h)[r.key] == r
  {
    forall k | k in Replay(map[], h) ensures Replay(map[], h)[k] in h && Replay(map[], h)[k].key == k {
      ReplayedRecord(h, k);
    }
  }

  lemma {:induction false} ReplayedRecord(h: seq<Record>, k: Key)
    requires k in Replay(map[], h)
    ensures Replay(map[], h)[k] in h && Replay(map[], h)[k].key == k
  {
    if k != h[|h| - 1].key {
      ReplayedRecord(h[..|h| - 1], k);
    }
  }

  lemma HistoryOneVersion(h: seq<Record>, S: set<Record>)
    requires Increasing(h) && S <= ToSet(h)
    ensures OneVersion(S)
  {
    forall a, b | a in S && b in S && a.key == b.key && a.seqNo == b.seqNo ensures a == b {
      var i :| 0 <= i < |h| && h[i] == a;
      var j :| 0 <= j < |h| && h[j] == b;
      assert !(i < j) && !(j < i);
    }
  }
}
