/** The multi-level linked skip list, proved to refine a sorted list of entries. */
module SkipLists {
  import opened Bytes
  import opened SortedMaps

  const MAX_LEVEL := 16

  // ---------- Chains, by node heights alone ----------

  /** The next position after `p` whose node reaches above level `i`, or the end. */
  ghost function NextTall(hs: seq<nat>, p: nat, i: nat): (r: nat)
    requires p < |hs|
    ensures p < r <= |hs|
    ensures r < |hs| ==> hs[r] > i
    ensures forall q :: p < q < r ==> hs[q] <= i
    decreases |hs| - p
  {
    if p + 1 == |hs| then |hs|
    else if hs[p + 1] > i then p + 1
    else NextTall(hs, p + 1, i)
  }

  function Inserted<T>(s: seq<T>, p: nat, x: T): seq<T>
    requires p < |s|
  {
    s[..p + 1] + [x] + s[p + 1..]
  }

  /** How inserting a node of height `h` after position `p` moves the successors of nodes up to `p`. */
  lemma NextTallBefore(hs: seq<nat>, p: nat, h: nat, q: nat, i: nat)
    requires q <= p < |hs|
    ensures var t := NextTall(hs, q, i);
            NextTall(Inserted(hs, p, h), q, i) == if t <= p then t else if h > i then p + 1 else t + 1
  {
    hide NextTall;
    var hs', t := Inserted(hs, p, h), NextTall(hs, q, i);
    var r := NextTall(hs', q, i);
    assert forall x :: 0 <= x <= p ==> hs'[x] == hs[x];
    assert hs'[p + 1] == h;
    assert forall x :: p + 1 < x < |hs'| ==> hs'[x] == hs[x - 1];
    if t > p && h <= i {
      assert t < |hs| ==> hs'[t + 1] == hs[t];
      assert r > p + 1;
      assert r < |hs'| ==> hs[r - 1] > i;
    }
  }

  lemma NextTallAfter(hs: seq<nat>, p: nat, h: nat, q: nat, i: nat)
    requires p < q < |hs|
    ensures NextTall(Inserted(hs, p, h), q + 1, i) == NextTall(hs, q, i) + 1
  {
    hide NextTall;
    var hs', t := Inserted(hs, p, h), NextTall(hs, q, i);
    var r := NextTall(hs', q + 1, i);
    assert forall x :: p + 1 < x < |hs'| ==> hs'[x] == hs[x - 1];
    assert t < |hs| ==> hs'[t + 1] == hs[t];
    assert r < |hs'| ==> hs[r - 1] > i;
  }

  /** The successors of the new node are those its predecessors had. */
  lemma NextTallOfNew(hs: seq<nat>, p: nat, h: nat, u: nat, i: nat)
    requires u <= p < |hs| && NextTall(hs, u, i) > p
    ensures NextTall(Inserted(hs, p, h), p + 1, i) == NextTall(hs, u, i) + 1
  {
    hide NextTall;
    var hs', t := Inserted(hs, p, h), NextTall(hs, u, i);
    assert forall x :: p < x < |hs| ==> hs'[x + 1] == hs[x];
    var r := NextTall(hs', p + 1, i);
    assert r < |hs'| ==> hs'[r] == hs[r - 1];
    assert t < |hs| ==> hs'[t + 1] == hs[t];
  }

  /** Only one node at a level can have its successor beyond `p`. */
  lemma OnePredecessor(hs: seq<nat>, p: nat, i: nat, u: nat, q: nat)
    requires u <= p < |hs| && q <= p && hs[u] > i && hs[q] > i
    requires NextTall(hs, u, i) > p && NextTall(hs, q, i) > p
    ensures u == q
  {
    hide NextTall;
  }

  // ---------- Nodes ----------

  class Node<V(0)> {
    const key: Key
    var value: V
    var next: seq<Node?<V>>

    constructor (key: Key, value: V, height: nat)
      ensures this.key == key && this.value == value
      ensures next == seq(height, _ => null)
    {
      this.key := key;
      this.value := value;
      this.next := seq(height, _ => null);
    }
  }

  /** The node a link at level `i` of position `p` must point to. */
  ghost function LinkAt<V(0)>(nodes: seq<Node<V>>, hs: seq<nat>, p: nat, i: nat): Node?<V>
    requires |nodes| == |hs| && p < |hs|
  {
    if NextTall(hs, p, i) < |nodes| then nodes[NextTall(hs, p, i)] else null
  }

  /** Distinct nodes by ascending key after the head, none taller than the list's level. */
  ghost predicate SortedNodes<V(0)>(nodes: seq<Node<V>>, heights: seq<nat>, level: nat) {
    && 1 <= |nodes| == |heights|
    && (forall p :: 0 < p < |nodes| ==> 1 <= heights[p] <= level)
    && (forall p, q :: 0 <= p < q < |nodes| ==> nodes[p] != nodes[q])
    && (forall p, q :: 0 < p < q < |nodes| ==> Less(nodes[p].key, nodes[q].key))
  }

  lemma SortedNodesInserted<V(0)>(ns: seq<Node<V>>, hs: seq<nat>, lvl: nat, p: nat, n: Node<V>, height: nat)
    requires SortedNodes(ns, hs, lvl) && p < |ns| && n !in ns && 1 <= height
    requires p > 0 ==> Less(ns[p].key, n.key)
    requires p + 1 < |ns| ==> Less(n.key, ns[p + 1].key)
    ensures SortedNodes(Inserted(ns, p, n), Inserted(hs, p, height), if height > lvl then height else lvl)
  {
    hide Less;
    var nodes := Inserted(ns, p, n);
    forall a, b | 0 <= a < b < |nodes| ensures nodes[a] != nodes[b] && (a > 0 ==> Less(nodes[a].key, nodes[b].key)) {
      InsertedAt(ns, p, n, a);
      InsertedAt(ns, p, n, b);
      if b == p + 1 && 0 < a < p {
        LessTransitive(ns[a].key, ns[p].key, n.key);
      }
      if a == p + 1 && b > p + 2 {
        LessTransitive(n.key, ns[p + 1].key, ns[b - 1].key);
      }
    }
  }

  lemma InsertedLength<T>(s: seq<T>, p: nat, x: T)
    requires p < |s|
    ensures |Inserted(s, p, x)| == |s| + 1
  {
  }

  lemma InsertedAt<T>(s: seq<T>, p: nat, x: T, i: nat)
    requires p < |s| && i <= |s|
    ensures Inserted(s, p, x)[i] == if i <= p then s[i] else if i == p + 1 then x else s[i - 1]
  {
  }

  /** `up[j]` is the last position up to `p` that reaches above level `j`. */
  ghost predicate Preds<V(0)>(ns: seq<Node<V>>, hs: seq<nat>, p: nat, height: nat, up: seq<nat>) {
    && p < |ns| == |hs| && height <= |up|
    && forall j :: 0 <= j < height ==> up[j] <= p && j < hs[up[j]] && NextTall(hs, up[j], j) > p
  }

  lemma LinkOfOld<V(0)>(ns: seq<Node<V>>, hs: seq<nat>, p: nat, n: Node<V>, height: nat, up: seq<nat>, q: nat, j: nat)
    requires Preds(ns, hs, p, height, up) && q < |ns| && j < hs[q]
    ensures var ns', hs' := Inserted(ns, p, n), Inserted(hs, p, height);
            LinkAt(ns', hs', if q <= p then q else q + 1, j) == if j < height && q == up[j] then n else LinkAt(ns, hs, q, j)
  {
    hide NextTall;
    var ns', hs' := Inserted(ns, p, n), Inserted(hs, p, height);
    var t := NextTall(hs, q, j);
    if q <= p {
      NextTallBefore(hs, p, height, q, j);
      if t > p && j < height {
        OnePredecessor(hs, p, j, up[j], q);
      }
    } else {
      NextTallAfter(hs, p, height, q, j);
      assert j < height ==> q != up[j];
    }
  }

  lemma LinkOfNew<V(0)>(ns: seq<Node<V>>, hs: seq<nat>, p: nat, n: Node<V>, height: nat, up: seq<nat>, j: nat)
    requires Preds(ns, hs, p, height, up) && j < height
    ensures LinkAt(Inserted(ns, p, n), Inserted(hs, p, height), p + 1, j) == LinkAt(ns, hs, up[j], j)
  {
    hide NextTall;
    NextTallOfNew(hs, p, height, up[j], j);
  }

  lemma InsertedMembers<T>(s: seq<T>, p: nat, x: T)
    requires p < |s|
    ensures forall y :: y in Inserted(s, p, x) ==> y == x || y in s
  {
  }

  /** The linking loop: at each level, splice the new node in after its predecessor. */
  method LinkIn<V(0)>(n: Node<V>, update: seq<Node<V>>, ghost ns: seq<Node<V>>, ghost hs: seq<nat>, ghost p: nat, ghost up: seq<nat>)
    requires n !in ns && Preds(ns, hs, p, |n.next|, up) && |n.next| <= |update|
    requires forall a, b :: 0 <= a < b < |ns| ==> ns[a] != ns[b]
    requires forall j :: 0 <= j < |n.next| ==> update[j] == ns[up[j]]
    requires forall q :: 0 <= q < |ns| ==> |ns[q].next| == hs[q]
    requires forall q, j :: 0 <= q < |ns| && 0 <= j < hs[q] ==> ns[q].next[j] == LinkAt(ns, hs, q, j)
    modifies n, ns
    ensures |n.next| == old(|n.next|) && n.value == old(n.value)
    ensures forall j :: 0 <= j < |n.next| ==> n.next[j] == LinkAt(ns, hs, up[j], j)
    ensures forall q :: 0 <= q < |ns| ==> |ns[q].next| == hs[q] && ns[q].value == old(ns[q].value)
    ensures forall q, j :: 0 <= q < |ns| && 0 <= j < hs[q] ==>
              ns[q].next[j] == if j < |n.next| && q == up[j] then n else LinkAt(ns, hs, q, j)
  {
    hide NextTall, LinkAt;
    var height := |n.next|;
    for i := 0 to height
      invariant |n.next| == height && n.value == old(n.value)
      invariant forall j :: 0 <= j < i ==> n.next[j] == LinkAt(ns, hs, up[j], j)
      invariant forall q :: 0 <= q < |ns| ==> |ns[q].next| == hs[q] && ns[q].value == old(ns[q].value)
      invariant forall q, j :: 0 <= q < |ns| && 0 <= j < hs[q] ==>
                  ns[q].next[j] == if j < i && q == up[j] then n else LinkAt(ns, hs, q, j)
    {
      var u := update[i];
      n.next := n.next[i := u.next[i]];
      u.next := u.next[i := n];
    }
  }

  class SkipList<V(0)> {
    const head: Node<V>
    var level: nat
    var length: nat
    ghost var nodes: seq<Node<V>>  // head, then every node in level-0 order
    ghost var heights: seq<nat>

    ghost predicate Shape()
      reads this, nodes
    {
      && SortedNodes(nodes, heights, level)
      && |nodes| == length + 1 && nodes[0] == head
      && 1 <= level <= MAX_LEVEL && heights[0] == MAX_LEVEL
      && (forall p :: 0 <= p < |nodes| ==> |nodes[p].next| == heights[p])
    }

    /** Every link at every level goes to the next node tall enough. */
    ghost predicate Linked()
      requires |nodes| == |heights|
      reads this, nodes
    {
      forall p, i :: 0 <= p < |nodes| && 0 <= i < |nodes[p].next| ==> nodes[p].next[i] == LinkAt(nodes, heights, p, i)
    }

    ghost predicate Valid()
      reads this, nodes
    {
      Shape() && Linked()
    }

    /** The sorted entries the list stands for. */
    ghost function Entries(): (es: seq<Entry<V>>)
      requires |nodes| >= 1
      reads this, nodes
      ensures |es| == |nodes| - 1
      ensures forall p :: 0 < p < |nodes| ==> es[p - 1] == Entry(nodes[p].key, nodes[p].value)
    {
      seq(|nodes| - 1, p requires 0 <= p < |nodes| - 1 reads this, nodes => Entry(nodes[p + 1].key, nodes[p + 1].value))
    }

    lemma EntriesSorted()
      requires Valid()
      ensures Sorted(Entries())
    {
      hide Linked;
      forall i, j | 0 <= i < j < |Entries()| ensures Less(Entries()[i].key, Entries()[j].key) {
        assert Entries()[i] == Entry(nodes[i + 1].key, nodes[i + 1].value);
        assert Entries()[j] == Entry(nodes[j + 1].key, nodes[j + 1].value);
      }
    }

    constructor ()
      ensures Valid() && Entries() == [] && fresh(nodes)
    {
      var zero: V := *;
      var h := new Node<V>([], zero, MAX_LEVEL);
      head := h;
      level, length := 1, 0;
      nodes, heights := [h], [MAX_LEVEL];
    }

    /** One level of the search: go right while the next key is smaller. */
    method Advance(i: nat, from: Node<V>, key: Key, ghost p: nat) returns (cur: Node<V>, ghost q: nat)
      requires Valid() && p < |nodes| && from == nodes[p] && i < heights[p]
      requires p > 0 ==> Less(from.key, key)
      ensures p <= q < |nodes| && cur == nodes[q] && i < heights[q]
      ensures q > 0 ==> Less(cur.key, key)
      ensures var t := NextTall(heights, q, i); t < |nodes| ==> !Less(nodes[t].key, key)
    {
      hide NextTall, Less;
      cur, q := from, p;
      while cur.next[i] != null && Less(cur.next[i].key, key)
        invariant p <= q < |nodes| && cur == nodes[q] && i < heights[q]
        invariant q > 0 ==> Less(cur.key, key)
        decreases |nodes| - q
      {
        assert cur.next[i] == LinkAt(nodes, heights, q, i);
        cur, q := cur.next[i], NextTall(heights, q, i);
      }
      assert cur.next[i] == LinkAt(nodes, heights, q, i);
    }

    /** The whole search, recording at each level the node to link after. */
    method Search(key: Key) returns (cur: Node<V>, update: seq<Node<V>>, ghost p: nat, ghost up: seq<nat>)
      requires Valid()
      ensures p < |nodes| && cur == nodes[p]
      ensures Between(key, p)
      ensures |update| == |up| == MAX_LEVEL
      ensures forall j :: 0 <= j < level ==> Predecessor(update, up, j, p)
    {
      hide NextTall, Less, Linked;
      cur, p := head, 0;
      update, up := seq(MAX_LEVEL, _ => head), seq(MAX_LEVEL, _ => 0);
      var i := level;
      while i > 0
        invariant 0 <= i <= level && p < |nodes| && cur == nodes[p] && i <= heights[p]
        invariant p > 0 ==> Less(cur.key, key)
        invariant |update| == |up| == MAX_LEVEL
        invariant forall j :: i <= j < level ==>
                    up[j] <= p && update[j] == nodes[up[j]] && j < heights[up[j]] && Stops(key, up[j], j)
        invariant i == 0 ==> Stops(key, p, 0)
      {
        i := i - 1;
        cur, p := Advance(i, cur, key, p);
        update, up := update[i := cur], up[i := p];
      }
      StopsIsBetween(key, p);
      forall j | 0 <= j < level ensures Predecessor(update, up, j, p) {
        StopsBeyond(key, up[j], j, p);
      }
    }

    /** The level-`i` successor of position `q` is not smaller than `key`. */
    ghost predicate Stops(key: Key, q: nat, i: nat)
      requires |nodes| == |heights| && q < |nodes|
      reads this, nodes
    {
      var t := NextTall(heights, q, i);
      t < |nodes| ==> !Less(nodes[t].key, key)
    }

    /** `key` belongs right after position `p`. */
    ghost predicate Between(key: Key, p: nat)
      requires p < |nodes|
      reads this, nodes
    {
      && (p > 0 ==> Less(nodes[p].key, key))
      && (p + 1 < |nodes| ==> !Less(nodes[p + 1].key, key))
    }

    ghost predicate Predecessor(update: seq<Node<V>>, up: seq<nat>, j: nat, p: nat)
      requires |nodes| == |heights| && j < |update| == |up|
      reads this
    {
      && up[j] <= p < |nodes| && update[j] == nodes[up[j]] && j < heights[up[j]]
      && NextTall(heights, up[j], j) > p
    }

    lemma StopsIsBetween(key: Key, p: nat)
      requires Shape() && p < |nodes| && Stops(key, p, 0) && (p > 0 ==> Less(nodes[p].key, key))
      ensures Between(key, p)
    {
    }

    lemma StopsBeyond(key: Key, u: nat, j: nat, p: nat)
      requires Shape() && u <= p < |nodes| && Stops(key, u, j) && (p > 0 ==> Less(nodes[p].key, key))
      ensures NextTall(heights, u, j) > p
    {
      hide NextTall;
      var t := NextTall(heights, u, j);
      if t < p {
        LessTransitive(nodes[t].key, nodes[p].key, key);
      }
    }

    /** The entries before and after the landing position compare with `key` as the sorted list demands. */
    lemma LandingPosition(key: Key, p: nat)
      requires Valid() && p < |nodes| && Between(key, p)
      ensures Sorted(Entries())
      ensures forall i :: 0 <= i < p ==> Less(Entries()[i].key, key)
      ensures p < |Entries()| ==> !Less(Entries()[p].key, key)
    {
      hide Linked;
      EntriesSorted();
      forall i | 0 <= i < p ensures Less(Entries()[i].key, key) {
        assert Entries()[i] == Entry(nodes[i + 1].key, nodes[i + 1].value);
        if i + 1 < p {
          LessTransitive(nodes[i + 1].key, nodes[p].key, key);
        }
      }
    }

    /** `Get`: map lookup. */
    method Get(key: Key) returns (r: Option<V>)
      requires Valid()
      ensures r == Lookup(Entries(), key)
    {
      hide Less, Shape, Linked, Lookup;
      var cur, _, p, _ := Search(key);
      assert cur.next[0] == (if p + 1 < |nodes| then nodes[p + 1] else null) && |Entries()| == |nodes| - 1
      by { LevelZero(p); }
      LandingPosition(key, p);
      LookupLands(Entries(), key, p);
      var next := cur.next[0];
      if next != null && next.key == key {
        r := Some(next.value);
      } else {
        r := None;
      }
    }

    /** Level 0 links every node to the next one. */
    lemma LevelZero(p: nat)
      requires Valid() && p < |nodes|
      ensures |nodes[p].next| > 0
      ensures nodes[p].next[0] == if p + 1 < |nodes| then nodes[p + 1] else null
    {
      assert nodes[p].next[0] == LinkAt(nodes, heights, p, 0);
    }

    lemma EntryAt(p: nat)
      requires Valid() && p + 1 < |nodes|
      ensures Entries()[p] == Entry(nodes[p + 1].key, nodes[p + 1].value)
    {
    }

    /** The list after a node's value was replaced and nothing else. */
    lemma Overwritten(es: seq<Entry<V>>, p: nat, value: V)
      requires SortedNodes(nodes, heights, level) && |nodes| == length + 1 && nodes[0] == head
      requires 1 <= level <= MAX_LEVEL && heights[0] == MAX_LEVEL
      requires forall q :: 0 <= q < |nodes| ==> |nodes[q].next| == heights[q]
      requires forall q, j :: 0 <= q < |nodes| && 0 <= j < heights[q] ==> nodes[q].next[j] == LinkAt(nodes, heights, q, j)
      requires |es| + 1 == |nodes| && p < |es| && nodes[p + 1].value == value
      requires forall q :: 0 <= q < |es| && q != p ==> es[q] == Entry(nodes[q + 1].key, nodes[q + 1].value)
      ensures Valid() && Entries() == es[p := Entry(nodes[p + 1].key, value)]
    {
      forall q | 0 <= q < |es| ensures Entries()[q] == es[p := Entry(nodes[p + 1].key, value)][q] {
        assert Entries()[q] == Entry(nodes[q + 1].key, nodes[q + 1].value);
      }
    }

    lemma HeadPrecedes(i: nat, p: nat)
      requires Valid() && level <= i < MAX_LEVEL && p < |nodes|
      ensures NextTall(heights, 0, i) > p && i < heights[0]
    {
      hide NextTall;
    }

    lemma Sizes()
      requires Valid()
      ensures SortedNodes(nodes, heights, level)
      ensures |nodes| == |heights| == length + 1 && nodes[0] == head && 1 <= level <= MAX_LEVEL && heights[0] == MAX_LEVEL
      ensures forall p :: 0 <= p < |nodes| ==> |nodes[p].next| == heights[p]
      ensures forall p, q :: 0 <= p < q < |nodes| ==> nodes[p] != nodes[q]
      ensures |Entries()| == |nodes| - 1
    {
    }

    lemma Lengths()
      requires Valid()
      ensures |nodes| == |heights| == length + 1 && nodes[0] == head && |Entries()| == |nodes| - 1
    {
    }

    lemma InitialLinks()
      requires Valid()
      ensures forall q, j :: 0 <= q < |nodes| && 0 <= j < heights[q] ==> nodes[q].next[j] == LinkAt(nodes, heights, q, j)
    {
    }

    lemma PredecessorsGiven(update: seq<Node<V>>, p: nat, height: nat, up: seq<nat>)
      requires Valid() && p < |nodes| && height <= |update| == |up|
      requires forall j :: 0 <= j < height ==> Predecessor(update, up, j, p)
      ensures Preds(nodes, heights, p, height, up)
      ensures forall j :: 0 <= j < height ==> update[j] == nodes[up[j]]
    {
      hide Shape, Linked, NextTall;
      Sizes();
      forall j | 0 <= j < height
        ensures up[j] <= p && j < heights[up[j]] && NextTall(heights, up[j], j) > p && update[j] == nodes[up[j]]
      {
        assert Predecessor(update, up, j, p);
      }
    }

    lemma InsertedLinks(ns: seq<Node<V>>, hs: seq<nat>, p: nat, n: Node<V>, height: nat, up: seq<nat>)
      requires |ns| == |hs| && p < |ns| && Preds(ns, hs, p, height, up)
      requires nodes == Inserted(ns, p, n) && heights == Inserted(hs, p, height) && |n.next| == height
      requires forall q :: 0 <= q < |ns| ==> |ns[q].next| == hs[q]
      requires forall j :: 0 <= j < height ==> n.next[j] == LinkAt(ns, hs, up[j], j)
      requires forall q, j :: 0 <= q < |ns| && 0 <= j < hs[q] ==>
                 ns[q].next[j] == if j < height && q == up[j] then n else LinkAt(ns, hs, q, j)
      ensures |nodes| == |heights| && Linked()
    {
      hide NextTall, LinkAt, Preds;
      forall q, j | 0 <= q < |nodes| && 0 <= j < |nodes[q].next| ensures nodes[q].next[j] == LinkAt(nodes, heights, q, j) {
        if q == p + 1 {
          LinkOfNew(ns, hs, p, n, height, up, j);
        } else {
          var q0 := if q <= p then q else q - 1;
          assert nodes[q] == ns[q0];
          LinkOfOld(ns, hs, p, n, height, up, q0, j);
        }
      }
    }

    lemma InsertedShape(ns: seq<Node<V>>, hs: seq<nat>, lvl: nat, p: nat, n: Node<V>, height: nat, key: Key)
      requires SortedNodes(ns, hs, lvl) && |ns| == |hs| == length && length > 0 && ns[0] == head && 1 <= lvl <= MAX_LEVEL && hs[0] == MAX_LEVEL
      requires p < |ns| && n.key == key && n !in ns && 1 <= height <= MAX_LEVEL
      requires p > 0 ==> Less(ns[p].key, key)
      requires p + 1 < |ns| ==> Less(key, ns[p + 1].key)
      requires nodes == Inserted(ns, p, n) && heights == Inserted(hs, p, height) && |n.next| == height
      requires level == (if height > lvl then height else lvl)
      requires forall q :: 0 <= q < |ns| ==> |ns[q].next| == hs[q]
      ensures Shape()
    {
      hide Less, SortedNodes, Inserted;
      SortedNodesInserted(ns, hs, lvl, p, n, height);
      InsertedLength(ns, p, n);
      InsertedLength(hs, p, height);
      InsertedAt(ns, p, n, 0);
      InsertedAt(hs, p, height, 0);
      forall q | 0 <= q < |nodes| ensures |nodes[q].next| == heights[q] {
        InsertedAt(ns, p, n, q);
        InsertedAt(hs, p, height, q);
      }
    }

    lemma InsertedEntries(es: seq<Entry<V>>, ns: seq<Node<V>>, p: nat, n: Node<V>)
      requires |es| + 1 == |ns| && p < |ns| && nodes == Inserted(ns, p, n)
      requires forall q :: 0 <= q < |es| ==> es[q] == Entry(ns[q + 1].key, ns[q + 1].value)
      ensures Entries() == es[..p] + [Entry(n.key, n.value)] + es[p..]
    {
      forall i | 0 <= i < |Entries()| ensures Entries()[i] == (es[..p] + [Entry(n.key, n.value)] + es[p..])[i] {
        assert Entries()[i] == Entry(nodes[i + 1].key, nodes[i + 1].value);
        assert nodes[i + 1] == if i + 1 <= p then ns[i + 1] else if i == p then n else ns[i];
      }
    }

    lemma EntriesAt()
      requires Valid()
      ensures |Entries()| + 1 == |nodes|
      ensures forall q :: 0 <= q < |Entries()| ==> Entries()[q] == Entry(nodes[q + 1].key, nodes[q + 1].value)
    {
      forall q | 0 <= q < |Entries()| ensures Entries()[q] == Entry(nodes[q + 1].key, nodes[q + 1].value) {
        EntryAt(q);
      }
    }

    /** Levels the list did not have yet are linked after the head. */
    method PadWithHead(update0: seq<Node<V>>, height: nat, ghost p: nat, ghost up0: seq<nat>)
        returns (update: seq<Node<V>>, ghost up: seq<nat>)
      requires Valid() && 1 <= height <= MAX_LEVEL && p < |nodes|
      requires |update0| == |up0| == MAX_LEVEL && forall j :: 0 <= j < level ==> Predecessor(update0, up0, j, p)
      ensures |update| == |up| == MAX_LEVEL && forall j :: 0 <= j < height ==> Predecessor(update, up, j, p)
    {
      hide NextTall, Linked;
      update, up := update0, up0;
      var i := level;
      while i < height
        invariant level <= i && |update| == |up| == MAX_LEVEL
        invariant forall j :: 0 <= j < i && j < MAX_LEVEL ==> Predecessor(update, up, j, p)
      {
        HeadPrecedes(i, p);
        ghost var before, upBefore := update, up;
        update, up := update[i := head], up[i := 0];
        assert Predecessor(update, up, i, p);
        forall j | 0 <= j < i ensures Predecessor(update, up, j, p) {
          assert Predecessor(before, upBefore, j, p);
        }
        i := i + 1;
      }
    }

    /** Link a new node of the given height after position `p`, at every level it reaches. */
    method Insert(key: Key, value: V, height: nat, update: seq<Node<V>>, ghost p: nat, ghost up: seq<nat>)
      requires Valid() && 1 <= height <= MAX_LEVEL && p < |nodes| && Between(key, p)
      requires p + 1 < |nodes| ==> Less(key, nodes[p + 1].key)
      requires |update| == |up| == MAX_LEVEL && forall j :: 0 <= j < height ==> Predecessor(update, up, j, p)
      modifies this, nodes
      ensures Valid() && forall n :: n in nodes ==> n in old(nodes) || fresh(n)
      ensures Entries() == old(Entries())[..p] + [Entry(key, value)] + old(Entries())[p..]
    {
      hide NextTall, Less, Shape, Linked, Entries, LinkAt, Inserted, Preds, Between, Predecessor, SortedNodes;
      ghost var ns, hs, es, lvl := nodes, heights, Entries(), level;
      assert p > 0 ==> Less(ns[p].key, key) by { BetweenParts(key, p); }
      Sizes();
      PredecessorsGiven(update, p, height, up);
      InitialLinks();
      EntriesAt();
      var n := new Node<V>(key, value, height);
      LinkIn(n, update, ns, hs, p, up);
      nodes, heights := Inserted(ns, p, n), Inserted(hs, p, height);
      length := length + 1;
      if height > level {
        level := height;
      }
      InsertedShape(ns, hs, lvl, p, n, height, key);
      InsertedLinks(ns, hs, p, n, height, up);
      InsertedEntries(es, ns, p, n);
      InsertedMembers(ns, p, n);
    }

    lemma BetweenParts(key: Key, p: nat)
      requires p < |nodes| && Between(key, p)
      ensures p > 0 ==> Less(nodes[p].key, key)
    {
    }

    /** `Put`: insert or overwrite; `height` is the randomly chosen level. */
    method Put(key: Key, value: V, height: nat)
      requires Valid() && 1 <= height <= MAX_LEVEL
      modifies this, nodes
      ensures Valid() && forall n :: n in nodes ==> n in old(nodes) || fresh(n)
      ensures Entries() == PutEntry(old(Entries()), key, value)
    {
      hide Less, Shape, Linked, PutEntry, Entries, Predecessor, SortedNodes, LinkAt, NextTall;
      Sizes();
      ghost var es := Entries();
      var cur: Node<V>, update: seq<Node<V>>, p, up := Search(key);
      assert cur.next[0] == (if p + 1 < |nodes| then nodes[p + 1] else null) by { LevelZero(p); }
      LandingPosition(key, p);
      PutLands(es, key, value, p);
      var next := cur.next[0];
      if next != null && next.key == key {
        EntriesAt();
        InitialLinks();
        next.value := value;
        Overwritten(es, p, value);
      } else {
        assert p < |es| ==> es[p].key != key && Less(key, nodes[p + 1].key) by {
          if p < |es| {
            EntryAt(p);
            LessTotal(key, nodes[p + 1].key);
          }
        }
        update, up := PadWithHead(update, height, p, up);
        Insert(key, value, height, update, p, up);
      }
    }

    /** A level's chain visits exactly the nodes taller than the level, by ascending key, and lies inside the chain below. */
    lemma LevelChainNodes(i: nat)
      requires Valid() && i < MAX_LEVEL
      ensures forall t :: 0 < t < |nodes| && heights[t] > i ==> t in ChainFrom(heights, 0, i)
      ensures var c := ChainFrom(heights, 0, i);
              && (forall x, y :: 0 <= x < y < |c| ==> Less(nodes[c[x]].key, nodes[c[y]].key))
              && (i > 0 ==> forall x :: 0 <= x < |c| ==> c[x] in ChainFrom(heights, 0, i - 1))
    {
      hide NextTall, ChainFrom, Linked, Less;
      var c := ChainFrom(heights, 0, i);
      forall t | 0 < t < |nodes| && heights[t] > i ensures t in c {
        ChainIsComplete(heights, 0, i, t);
      }
      if i > 0 {
        forall x | 0 <= x < |c| ensures c[x] in ChainFrom(heights, 0, i - 1) {
          ChainIsComplete(heights, 0, i - 1, c[x]);
        }
      }
    }

    /** Following level-`i` links from the head spells out the level's chain. */
    lemma LevelChainLinks(i: nat, x: nat)
      requires Valid() && i < MAX_LEVEL
      ensures var c := ChainFrom(heights, 0, i);
              && head.next[i] == (if c == [] then null else nodes[c[0]])
              && (x < |c| ==> nodes[c[x]].next[i] == if x + 1 < |c| then nodes[c[x + 1]] else null)
    {
      hide NextTall, Less;
      var c := ChainFrom(heights, 0, i);
      assert nodes[0].next[i] == LinkAt(nodes, heights, 0, i);
      if x < |c| {
        ChainLinks(heights, 0, i, x);
        var n := nodes[c[x]];
        assert n.next[i] == LinkAt(nodes, heights, c[x], i);
      }
    }

    /** `All`: every entry in ascending key order. */
    method All() returns (out: seq<Entry<V>>)
      requires Valid()
      ensures out == Entries() && |out| == length
    {
      hide Shape, Linked, Entries;
      Sizes();
      out := [];
      ghost var p := 0;
      LevelZero(0);
      var n := head.next[0];
      while n != null
        invariant p < |nodes| && n == (if p + 1 < |nodes| then nodes[p + 1] else null)
        invariant out == Entries()[..p]
        decreases |nodes| - p
      {
        LevelZero(p + 1);
        EntryAt(p);
        out := out + [Entry(n.key, n.value)];
        n, p := n.next[0], p + 1;
      }
    }

    /** The node before the first one in range. */
    method Seek(start: Option<Key>) returns (cur: Node<V>, ghost p: nat)
      requires Valid()
      ensures p < |nodes| && cur == nodes[p] && RangeStarts(Entries(), start, p)
    {
      hide Shape, Linked, Entries, Less, Between, SortedNodes, RangeStarts, InRange, Sorted;
      Lengths();
      cur, p := head, 0;
      if start.Some? {
        var c, _, q, _ := Search(start.value);
        cur, p := c, q;
        LandingPosition(start.value, p);
      }
      EntriesSorted();
      StartPosition(Entries(), start, p);
    }

    /** `Range`: the entries of [start, end). */
    method Range(start: Option<Key>, end: Option<Key>) returns (out: seq<Entry<V>>)
      requires Valid()
      ensures out == InRangeOnly(Entries(), start, end)
    {
      hide Shape, Linked, Entries, Less, InRangeOnly, Between, SortedNodes, RangeStarts, InRange, Sorted;
      Lengths();
      var cur;
      ghost var p;
      cur, p := Seek(start);
      ghost var es, p0 := Entries(), p;
      out := [];
      LevelZero(p);
      var n := cur.next[0];
      while n != null
        invariant p0 <= p < |nodes| && n == (if p + 1 < |nodes| then nodes[p + 1] else null)
        invariant out == es[p0..p] && forall i :: p0 <= i < p ==> InRange(es[i].key, start, end)
        decreases |nodes| - p
      {
        EntryAt(p);
        if end.Some? && !Less(n.key, end.value) {
          break;
        }
        LevelZero(p + 1);
        assert InRange(es[p].key, start, end) by { StartedInRange(es, start, end, p0, p); }
        assert es[p0..p + 1] == es[p0..p] + [es[p]];
        out := out + [Entry(n.key, n.value)];
        n, p := n.next[0], p + 1;
      }
      EntriesSorted();
      RangeIsSlice(es, start, end, p0, p);
    }
  }

  /** Entries before `p` are below the range; the rest are not. */
  ghost predicate RangeStarts<V>(es: seq<Entry<V>>, start: Option<Key>, p: nat) {
    && p <= |es|
    && (start.None? ==> p == 0)
    && (start.Some? ==> forall i :: 0 <= i < p ==> Less(es[i].key, start.value))
    && (start.Some? ==> forall i :: p <= i < |es| ==> !Less(es[i].key, start.value))
  }

  lemma StartedInRange<V>(es: seq<Entry<V>>, start: Option<Key>, end: Option<Key>, p: nat, i: nat)
    requires RangeStarts(es, start, p) && p <= i < |es| && (end.Some? ==> Less(es[i].key, end.value))
    ensures InRange(es[i].key, start, end)
  {
  }

  lemma StartPosition<V>(es: seq<Entry<V>>, start: Option<Key>, p: nat)
    requires Sorted(es) && p <= |es| && (start.None? ==> p == 0)
    requires start.Some? ==> forall i :: 0 <= i < p ==> Less(es[i].key, start.value)
    requires start.Some? && p < |es| ==> !Less(es[p].key, start.value)
    ensures RangeStarts(es, start, p)
  {
    hide Less;
    if start.Some? {
      forall i | p <= i < |es| ensures !Less(es[i].key, start.value) {
        if Less(es[i].key, start.value) && i > p {
          LessTransitive(es[p].key, es[i].key, start.value);
        }
      }
    }
  }

  lemma OutsideSlice<V>(es: seq<Entry<V>>, start: Option<Key>, end: Option<Key>, a: nat, b: nat, i: nat)
    requires Sorted(es) && RangeStarts(es, start, a) && a <= b <= |es| && i < |es| && (i < a || b <= i)
    requires b < |es| ==> end.Some? && !Less(es[b].key, end.value)
    ensures !InRange(es[i].key, start, end)
  {
    hide Less;
    if b < i && Less(es[i].key, end.value) {
      LessTransitive(es[b].key, es[i].key, end.value);
    }
  }

  lemma RangeIsSlice<V>(es: seq<Entry<V>>, start: Option<Key>, end: Option<Key>, a: nat, b: nat)
    requires Sorted(es) && RangeStarts(es, start, a) && a <= b <= |es|
    requires forall i :: a <= i < b ==> InRange(es[i].key, start, end)
    requires b < |es| ==> end.Some? && !Less(es[b].key, end.value)
    ensures InRangeOnly(es, start, end) == es[a..b]
  {
    hide InRangeOnly, Less, InRange, RangeStarts, Sorted;
    forall i | 0 <= i < |es| && (i < a || b <= i) ensures !InRange(es[i].key, start, end) {
      OutsideSlice(es, start, end, a, b, i);
    }
    var before, inside, after := es[..a], es[a..b], es[b..];
    assert a <= |es| by { StartsWithin(es, start, a); }
    assert es == before + inside + after;
    RangeOfConcat(before + inside, after, start, end);
    RangeOfConcat(before, inside, start, end);
    RangeAll(before, start, end, false);
    RangeAll(inside, start, end, true);
    RangeAll(after, start, end, false);
  }

  lemma StartsWithin<V>(es: seq<Entry<V>>, start: Option<Key>, p: nat)
    requires RangeStarts(es, start, p)
    ensures p <= |es|
  {
  }

  /** The positions met by following level-`i` links from position `p`. */
  ghost function ChainFrom(hs: seq<nat>, p: nat, i: nat): (c: seq<nat>)
    requires p < |hs|
    ensures forall x :: 0 <= x < |c| ==> p < c[x] < |hs| && hs[c[x]] > i
    ensures forall x, y :: 0 <= x < y < |c| ==> c[x] < c[y]
    decreases |hs| - p
  {
    var t := NextTall(hs, p, i);
    if t == |hs| then [] else [t] + ChainFrom(hs, t, i)
  }

  lemma {:induction false} ChainIsComplete(hs: seq<nat>, p: nat, i: nat, t: nat)
    requires p < t < |hs| && hs[t] > i
    ensures t in ChainFrom(hs, p, i)
    decreases |hs| - p
  {
    hide NextTall;
    var n := NextTall(hs, p, i);
    if n != t {
      ChainIsComplete(hs, n, i, t);
    }
  }

  lemma {:induction false} ChainLinks(hs: seq<nat>, p: nat, i: nat, x: nat)
    requires p < |hs| && x < |ChainFrom(hs, p, i)|
    ensures var c := ChainFrom(hs, p, i);
            NextTall(hs, c[x], i) == if x + 1 < |c| then c[x + 1] else |hs|
    decreases |hs| - p
  {
    hide NextTall;
    var t := NextTall(hs, p, i);
    var c, d := ChainFrom(hs, p, i), ChainFrom(hs, t, i);
    assert c == [t] + d;
    if x == 0 {
      assert d == [] || d[0] == NextTall(hs, t, i);
    } else {
      ChainLinks(hs, t, i, x - 1);
    }
  }
}
