/**
 The heap of sorted streams that both compaction and scans drain. A stream
 is its front record and the records its iterator has yet to return; the
 heap is the sequence of live streams, with extract-min by `Before`.
 */
module Streams {
  import opened Bytes
  import opened Versions

  datatype Stream = Stream(rec: Record, rest: seq<Record>)

  function Records(st: Stream): seq<Record> {
    [st.rec] + st.rest
  }

  /** Every record still in the heap. */
  function Remaining(h: seq<Stream>): multiset<Record> {
    if h == [] then multiset{} else multiset(Records(h[0])) + Remaining(h[1..])
  }

  ghost predicate SortedStreams(h: seq<Stream>) {
    forall i :: 0 <= i < |h| ==> Ordered(Records(h[i]))
  }

  lemma {:induction false} RemainingMember(h: seq<Stream>, r: Record)
    ensures r in Remaining(h) <==> exists i :: 0 <= i < |h| && r in Records(h[i])
  {
    if h != [] {
      RemainingMember(h[1..], r);
      if i :| 0 <= i < |h[1..]| && r in Records(h[1..][i]) {
        assert r in Records(h[i + 1]);
      }
      if i :| 0 <= i < |h| && r in Records(h[i]) {
        if i > 0 {
          assert r in Records(h[1..][i - 1]);
        }
      }
    }
  }

  lemma {:induction false} RemainingAppend(h: seq<Stream>, t: seq<Stream>)
    ensures Remaining(h + t) == Remaining(h) + Remaining(t)
  {
    if h == [] {
      assert h + t == t;
    } else {
      assert (h + t)[1..] == h[1..] + t;
      RemainingAppend(h[1..], t);
    }
  }

  lemma RemainingOne(st: Stream)
    ensures Remaining([st]) == multiset(Records(st))
  {
    assert [st][1..] == [];
  }

  /** `heap.Push` of a refilled source: nothing if it is exhausted. */
  function Push(h: seq<Stream>, source: seq<Record>): (h': seq<Stream>) {
    if source == [] then h else h + [Stream(source[0], source[1..])]
  }

  lemma PushRemaining(h: seq<Stream>, source: seq<Record>)
    ensures Remaining(Push(h, source)) == Remaining(h) + multiset(source)
    ensures SortedStreams(h) && Ordered(source) ==> SortedStreams(Push(h, source))
  {
    if source != [] {
      var st := Stream(source[0], source[1..]);
      assert Records(st) == source;
      RemainingAppend(h, [st]);
      RemainingOne(st);
    }
  }

  /** Position of a stream whose front no other front precedes. */
  method MinIndex(h: seq<Stream>) returns (m: nat)
    requires h != []
    ensures m < |h|
    ensures forall i :: 0 <= i < |h| ==> !Before(h[i].rec, h[m].rec)
  {
    m := 0;
    LessIrreflexive(h[0].rec.key);
    for n := 1 to |h|
      invariant m < n
      invariant forall i :: 0 <= i < n ==> !Before(h[i].rec, h[m].rec)
    {
      if Before(h[n].rec, h[m].rec) {
        forall i | 0 <= i < n ensures !Before(h[i].rec, h[n].rec) {
          BeforeTransitive(h[i].rec, h[n].rec, h[m].rec);
        }
        LessIrreflexive(h[n].rec.key);
        m := n;
      }
    }
  }

  /** `heap.Pop` and refill: take the front of stream `m`, advance its source. */
  function Advance(h: seq<Stream>, m: nat): (h': seq<Stream>)
    requires m < |h|
  {
    Push(h[..m] + h[m + 1..], h[m].rest)
  }

  lemma AdvanceRemaining(h: seq<Stream>, m: nat)
    requires m < |h|
    ensures Remaining(h) == Remaining(Advance(h, m)) + multiset{h[m].rec}
  {
    hide Remaining, SortedStreams, Ordered;
    var a, b := h[..m], h[m + 1..];
    assert h == a + ([h[m]] + b);
    RemainingAppend(a, [h[m]] + b);
    RemainingAppend([h[m]], b);
    RemainingAppend(a, b);
    RemainingOne(h[m]);
    PushRemaining(a + b, h[m].rest);
    assert multiset(Records(h[m])) == multiset{h[m].rec} + multiset(h[m].rest);
  }

  lemma AdvanceSorted(h: seq<Stream>, m: nat)
    requires m < |h| && SortedStreams(h)
    ensures SortedStreams(Advance(h, m))
  {
    hide Remaining, Push, Before;
    var a, b := h[..m], h[m + 1..];
    assert Ordered(h[m].rest) by {
      assert Ordered(Records(h[m]));
      assert forall i :: 0 <= i < |h[m].rest| ==> h[m].rest[i] == Records(h[m])[i + 1];
    }
    forall i | 0 <= i < |a + b| ensures Ordered(Records((a + b)[i])) {
      assert (a + b)[i] == if i < m then h[i] else h[i + 1];
    }
    PushRemaining(a + b, h[m].rest);
  }

  /** The front of the least stream has the least key of the whole heap. */
  lemma MinIsLeast(h: seq<Stream>, m: nat)
    requires m < |h| && SortedStreams(h)
    requires forall i :: 0 <= i < |h| ==> !Before(h[i].rec, h[m].rec)
    ensures forall r :: r in Remaining(h) ==> !Less(r.key, h[m].rec.key)
  {
    hide Less, Remaining;
    forall r | r in Remaining(h) ensures !Less(r.key, h[m].rec.key) {
      RemainingMember(h, r);
      var i :| 0 <= i < |h| && r in Records(h[i]);
      var s := Records(h[i]);
      var j :| 0 <= j < |s| && s[j] == r;
      assert Ordered(s) && s[0] == h[i].rec;
      assert j > 0 ==> !Before(s[j], s[0]);
      LessTotal(r.key, h[i].rec.key);
      if Less(r.key, h[m].rec.key) {
        if Less(h[i].rec.key, r.key) {
          LessTransitive(h[i].rec.key, r.key, h[m].rec.key);
        }
      }
    }
  }
}
