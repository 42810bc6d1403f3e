/** hashtable.c: a hashtable whose pairs form one circular doubly linked list, each
    bucket being a contiguous segment of it. */
module Hashtable {
  import opened Bits

  /** A reference to a value; reference counts are not part of this model. */
  type Value = int

  const PRIMES: seq<nat> := [
    5, 13, 23, 53, 97, 193, 389, 769, 1543, 3079, 6151, 12289, 24593,
    49157, 98317, 196613, 393241, 786433, 1572869, 3145739, 6291469,
    12582917, 25165843, 50331653, 100663319, 201326611, 402653189,
    805306457, 1610612741]

  const WORD: nat := 0x1_0000_0000_0000_0000

  /** One character of a key as the source widens it, characters being signed. */
  function Widen(c: byte): nat { if c < 0x80 then c else WORD - 0x100 + c }

  /** The hash of a key whose characters before those of s gave h. */
  function HashFrom(h: nat, s: seq<byte>): nat
    decreases |s|
  {
    if |s| == 0 then h else HashFrom((h * 33 + Widen(s[0])) % WORD, s[1..])
  }

  function Hash(key: seq<byte>): nat { HashFrom(5381, key) }

  /** hash_str. */
  method HashStr(key: seq<byte>) returns (hash: nat)
    ensures hash == Hash(key)
  {
    hash := 5381;
    assert key[0..] == key;
    for i := 0 to |key|
      invariant HashFrom(hash, key[i..]) == Hash(key)
    {
      assert key[i..][1..] == key[i + 1..];
      hash := (hash * 33 + Widen(key[i])) % WORD;
    }
    assert key[|key|..] == [];
  }

  /** A list link with the pair it is part of. */
  class Node {
    var next: Node
    var prev: Node
    const hash: nat
    const serial: nat
    const key: seq<byte>
    var value: Value

    constructor (hash: nat, serial: nat, key: seq<byte>, value: Value)
      ensures this.hash == hash && this.serial == serial && this.key == key && this.value == value
      ensures next == this && prev == this
    {
      this.hash, this.serial, this.key, this.value := hash, serial, key, value;
      next, prev := this, this;
    }
  }

  ghost predicate Distinct(nodes: seq<Node>, list: Node)
  {
    list !in nodes && forall i, j :: 0 <= i < j < |nodes| ==> nodes[i] != nodes[j]
  }

  /** The circle opened up: list, the nodes, and list again. */
  ghost function C(list: Node, nodes: seq<Node>, k: int): Node { if 1 <= k <= |nodes| then nodes[k - 1] else list }

  /** The links run through list and the nodes in order, forwards and backwards. */
  ghost predicate Forwards(list: Node, nodes: seq<Node>)
    reads list`next, nodes`next
  {
    forall k {:trigger C(list, nodes, k).next} :: 0 <= k <= |nodes| ==> C(list, nodes, k).next == C(list, nodes, k + 1)
  }

  ghost predicate Backwards(list: Node, nodes: seq<Node>)
    reads list`prev, nodes`prev
  {
    forall k {:trigger C(list, nodes, k).prev} :: 1 <= k <= |nodes| + 1 ==> C(list, nodes, k).prev == C(list, nodes, k - 1)
  }

  ghost predicate Circle(list: Node, nodes: seq<Node>)
    reads list`next, nodes`next, list`prev, nodes`prev
  {
    Forwards(list, nodes) && Backwards(list, nodes)
  }

  function InsertAt(nodes: seq<Node>, p: nat, node: Node): (r: seq<Node>)
    requires p <= |nodes|
    ensures |r| == |nodes| + 1
  {
    nodes[..p] + [node] + nodes[p..]
  }

  function RemoveAt(nodes: seq<Node>, p: nat): (r: seq<Node>)
    requires p < |nodes|
    ensures |r| == |nodes| - 1
  {
    nodes[..p] + nodes[p + 1..]
  }

  lemma {:induction false} InsertedAt(list: Node, nodes: seq<Node>, p: nat, node: Node, k: int)
    requires p <= |nodes|
    ensures C(list, InsertAt(nodes, p, node), k) == if k <= p then C(list, nodes, k) else if k == p + 1 then node else C(list, nodes, k - 1)
  {
  }

  lemma {:induction false} RemovedAt(list: Node, nodes: seq<Node>, p: nat, k: int)
    requires p < |nodes|
    ensures C(list, RemoveAt(nodes, p), k) == if k <= p then C(list, nodes, k) else C(list, nodes, k + 1)
  {
  }

  /** Different positions are different nodes. */
  lemma {:induction false} Apart(list: Node, nodes: seq<Node>, j: int, k: int)
    requires Distinct(nodes, list) && 0 <= j <= |nodes| && 0 <= k <= |nodes| && j != k
    ensures C(list, nodes, j) != C(list, nodes, k)
  {
  }

  lemma {:induction false} Member(list: Node, nodes: seq<Node>, k: int)
    ensures C(list, nodes, k) == list || C(list, nodes, k) in nodes
    ensures C(list, nodes, |nodes| + 1) == C(list, nodes, 0) == list
  {
  }

  lemma {:induction false} InsertDistinct(nodes: seq<Node>, p: nat, node: Node, list: Node)
    requires Distinct(nodes, list) && p <= |nodes| && node != list && node !in nodes
    ensures Distinct(InsertAt(nodes, p, node), list)
  {
  }

  lemma {:induction false} RemoveDistinct(nodes: seq<Node>, p: nat, list: Node)
    requires Distinct(nodes, list) && p < |nodes|
    ensures Distinct(RemoveAt(nodes, p), list) && nodes[p] !in RemoveAt(nodes, p)
  {
  }

  lemma {:induction false} PrevApart(list: Node, nodes: seq<Node>, j: int, k: int)
    requires Distinct(nodes, list) && 1 <= k <= |nodes| + 1
    ensures 1 <= j <= |nodes| + 1 && j != k ==> C(list, nodes, j) != C(list, nodes, k)
  {
  }

  lemma {:induction false} Neighbours(list: Node, nodes: seq<Node>, k: nat)
    requires Circle(list, nodes) && k <= |nodes|
    ensures C(list, nodes, k).next == C(list, nodes, k + 1) && C(list, nodes, k + 1).prev == C(list, nodes, k)
  {
  }

  /** All forward links but the one at p are those of the circle. */
  ghost predicate ForwardsBut(list: Node, nodes: seq<Node>, p: int)
    reads list`next, nodes`next
  {
    forall k {:trigger C(list, nodes, k).next} :: 0 <= k <= |nodes| && k != p ==> C(list, nodes, k).next == C(list, nodes, k + 1)
  }

  ghost predicate BackwardsBut(list: Node, nodes: seq<Node>, p: int)
    reads list`prev, nodes`prev
  {
    forall k {:trigger C(list, nodes, k).prev} :: 1 <= k <= |nodes| + 1 && k != p ==> C(list, nodes, k).prev == C(list, nodes, k - 1)
  }

  lemma {:induction false} InsertForwards(list: Node, nodes: seq<Node>, p: nat, node: Node)
    requires p <= |nodes| && ForwardsBut(list, nodes, p)
    requires C(list, nodes, p).next == node && node.next == C(list, nodes, p + 1)
    ensures Forwards(list, InsertAt(nodes, p, node))
  {
    hide InsertAt, C;
    var nodes' := InsertAt(nodes, p, node);
    forall k | 0 <= k <= |nodes'| ensures C(list, nodes', k).next == C(list, nodes', k + 1) {
      InsertedAt(list, nodes, p, node, k);
      InsertedAt(list, nodes, p, node, k + 1);
      var j := if k <= p then k else k - 1;
      if j != p { assert C(list, nodes, j).next == C(list, nodes, j + 1); }
    }
  }

  lemma {:induction false} InsertBackwards(list: Node, nodes: seq<Node>, p: nat, node: Node)
    requires p <= |nodes| && BackwardsBut(list, nodes, p + 1)
    requires C(list, nodes, p + 1).prev == node && node.prev == C(list, nodes, p)
    ensures Backwards(list, InsertAt(nodes, p, node))
  {
    hide InsertAt, C;
    var nodes' := InsertAt(nodes, p, node);
    forall k | 1 <= k <= |nodes'| + 1 ensures C(list, nodes', k).prev == C(list, nodes', k - 1) {
      InsertedAt(list, nodes, p, node, k);
      InsertedAt(list, nodes, p, node, k - 1);
      var j := if k <= p then k else k - 1;
      if j != p + 1 && j >= 1 { assert C(list, nodes, j).prev == C(list, nodes, j - 1); }
    }
  }

  lemma {:induction false} RemoveForwards(list: Node, nodes: seq<Node>, p: nat)
    requires p < |nodes| && ForwardsBut(list, nodes, p) && C(list, nodes, p).next == C(list, nodes, p + 2)
    ensures Forwards(list, RemoveAt(nodes, p))
  {
    hide RemoveAt, C;
    var nodes' := RemoveAt(nodes, p);
    forall k | 0 <= k <= |nodes'| ensures C(list, nodes', k).next == C(list, nodes', k + 1) {
      RemovedAt(list, nodes, p, k);
      RemovedAt(list, nodes, p, k + 1);
      var j := if k <= p then k else k + 1;
      if j != p { assert C(list, nodes, j).next == C(list, nodes, j + 1); }
    }
  }

  lemma {:induction false} RemoveBackwards(list: Node, nodes: seq<Node>, p: nat)
    requires p < |nodes| && BackwardsBut(list, nodes, p + 2) && C(list, nodes, p + 2).prev == C(list, nodes, p)
    ensures Backwards(list, RemoveAt(nodes, p))
  {
    hide RemoveAt, C;
    var nodes' := RemoveAt(nodes, p);
    forall k | 1 <= k <= |nodes'| + 1 ensures C(list, nodes', k).prev == C(list, nodes', k - 1) {
      RemovedAt(list, nodes, p, k);
      RemovedAt(list, nodes, p, k - 1);
      var j := if k <= p then k else k + 1;
      if j != p + 2 { assert C(list, nodes, j).prev == C(list, nodes, j - 1); }
    }
  }

  /** list_insert: before position p of the circle. */
  method ListInsert(right: Node, node: Node, ghost list: Node, ghost nodes: seq<Node>, ghost p: nat)
    requires Distinct(nodes, list) && Circle(list, nodes) && p <= |nodes| && right == C(list, nodes, p + 1)
    requires node != list && node !in nodes
    modifies right`prev, right.prev`next, node`next, node`prev
    ensures Circle(list, InsertAt(nodes, p, node))
  {
    hide InsertAt, C, Distinct;
    ghost var left := C(list, nodes, p);
    Neighbours(list, nodes, p);
    Member(list, nodes, p);
    Member(list, nodes, p + 1);
    node.next := right;
    node.prev := right.prev;
    right.prev.next := node;
    right.prev := node;
    forall k | 0 <= k <= |nodes| && k != p ensures C(list, nodes, k).next == C(list, nodes, k + 1) {
      Member(list, nodes, k);
      Apart(list, nodes, k, p);
    }
    forall k | 1 <= k <= |nodes| + 1 && k != p + 1 ensures C(list, nodes, k).prev == C(list, nodes, k - 1) {
      Member(list, nodes, k);
      PrevApart(list, nodes, k, p + 1);
    }
    InsertForwards(list, nodes, p, node);
    InsertBackwards(list, nodes, p, node);
  }

  /** list_remove of the node at position p. */
  method ListRemove(node: Node, ghost list: Node, ghost nodes: seq<Node>, ghost p: nat)
    requires Distinct(nodes, list) && Circle(list, nodes) && p < |nodes| && node == C(list, nodes, p + 1)
    modifies node.prev`next, node.next`prev
    ensures Circle(list, RemoveAt(nodes, p))
  {
    hide RemoveAt, C, Distinct;
    Neighbours(list, nodes, p);
    Neighbours(list, nodes, p + 1);
    node.prev.next := node.next;
    node.next.prev := node.prev;
    forall k | 0 <= k <= |nodes| && k != p ensures C(list, nodes, k).next == C(list, nodes, k + 1) {
      Apart(list, nodes, k, p);
    }
    forall k | 1 <= k <= |nodes| + 1 && k != p + 2 ensures C(list, nodes, k).prev == C(list, nodes, k - 1) {
      PrevApart(list, nodes, k, p + 2);
    }
    RemoveForwards(list, nodes, p);
    RemoveBackwards(list, nodes, p);
  }

  // ---- buckets ---------------------------------------------------------------------------

  /** The bucket numbers of the nodes, with B buckets. */
  ghost function Numbers(nodes: seq<Node>, B: nat): (r: seq<nat>)
    requires B > 0
    ensures |r| == |nodes| && forall i :: 0 <= i < |r| ==> r[i] == nodes[i].hash % B
  {
    seq(|nodes|, i requires 0 <= i < |nodes| => nodes[i].hash % B)
  }

  /** Bucket b is the segment of count[b] nodes from start[b] on. */
  ghost predicate Segments(bs: seq<nat>, start: seq<nat>, count: seq<nat>)
  {
    && |start| == |count|
    && (forall b :: 0 <= b < |start| ==> start[b] + count[b] <= |bs|)
    && forall b, i :: 0 <= b < |start| && 0 <= i < |bs| ==> (bs[i] == b <==> start[b] <= i < start[b] + count[b])
  }

  /** Where a node for bucket b is inserted. */
  ghost function Place(start: seq<nat>, count: seq<nat>, b: nat, n: nat): nat
    requires b < |start| == |count|
  {
    if count[b] == 0 then n else start[b]
  }

  ghost function ShiftUp(start: seq<nat>, b: nat, p: nat): (r: seq<nat>)
    ensures |r| == |start| && forall k :: 0 <= k < |r| ==> r[k] == if k == b then p else if start[k] >= p then start[k] + 1 else start[k]
  {
    seq(|start|, k requires 0 <= k < |start| => if k == b then p else if start[k] >= p then start[k] + 1 else start[k])
  }

  ghost function ShiftDown(start: seq<nat>, p: nat): (r: seq<nat>)
    ensures |r| == |start| && forall k :: 0 <= k < |r| ==> r[k] == if start[k] > p then start[k] - 1 else start[k]
  {
    seq(|start|, k requires 0 <= k < |start| => if start[k] > p then start[k] - 1 else start[k])
  }

  function Inserted(bs: seq<nat>, p: nat, b: nat): seq<nat>
    requires p <= |bs|
  {
    bs[..p] + [b] + bs[p..]
  }

  lemma {:induction false} SegmentsInsert(bs: seq<nat>, start: seq<nat>, count: seq<nat>, b: nat)
    requires Segments(bs, start, count) && b < |start|
    ensures var p := Place(start, count, b, |bs|);
      p <= |bs| && Segments(Inserted(bs, p, b), ShiftUp(start, b, p), count[b := count[b] + 1])
  {
    var p := Place(start, count, b, |bs|);
    var bs', start', count' := Inserted(bs, p, b), ShiftUp(start, b, p), count[b := count[b] + 1];
    if p < |bs| { assert bs[p] == b; }
    forall c, i | 0 <= c < |start| && 0 <= i < |bs'|
      ensures bs'[i] == c <==> start'[c] <= i < start'[c] + count'[c]
    {
      if i < p { assert bs[i] == c <==> start[c] <= i < start[c] + count[c]; }
      else if i > p { assert bs[i - 1] == c <==> start[c] <= i - 1 < start[c] + count[c]; }
      if p < |bs| { assert bs[p] == c <==> start[c] <= p < start[c] + count[c]; }
    }
  }

  lemma {:induction false} SegmentsRemove(bs: seq<nat>, start: seq<nat>, count: seq<nat>, p: nat)
    requires Segments(bs, start, count) && p < |bs| && bs[p] < |start|
    ensures count[bs[p]] > 0
    ensures Segments(bs[..p] + bs[p + 1..], ShiftDown(start, p), count[bs[p] := count[bs[p]] - 1])
  {
    var b := bs[p];
    var bs', start', count' := bs[..p] + bs[p + 1..], ShiftDown(start, p), count[b := count[b] - 1];
    forall c, i | 0 <= c < |start| && 0 <= i < |bs'|
      ensures bs'[i] == c <==> start'[c] <= i < start'[c] + count'[c]
    {
      if i < p { assert bs[i] == c <==> start[c] <= i < start[c] + count[c]; }
      else { assert bs[i + 1] == c <==> start[c] <= i + 1 < start[c] + count[c]; }
      assert bs[p] == c <==> start[c] <= p < start[c] + count[c];
    }
    forall c | 0 <= c < |start| ensures start'[c] + count'[c] <= |bs'| {
      assert bs[p] == c <==> start[c] <= p < start[c] + count[c];
    }
  }

  /** The first and last node of each bucket, or list for an empty one. */
  ghost predicate Heads(list: Node, nodes: seq<Node>, first: seq<Node>, last: seq<Node>, start: seq<nat>, count: seq<nat>)
  {
    && |first| == |last| == |start| == |count|
    && forall b :: 0 <= b < |first| ==>
      if count[b] == 0 then first[b] == list && last[b] == list
      else start[b] + count[b] <= |nodes| && first[b] == nodes[start[b]] && last[b] == nodes[start[b] + count[b] - 1]
  }

  lemma {:induction false} HeadsInsert(list: Node, nodes: seq<Node>, first: seq<Node>, last: seq<Node>, start: seq<nat>, count: seq<nat>, b: nat, node: Node, bs: seq<nat>)
    requires Heads(list, nodes, first, last, start, count) && b < |first|
    requires Segments(bs, start, count) && |bs| == |nodes|
    ensures var p := Place(start, count, b, |nodes|);
      p <= |nodes| && Heads(list, InsertAt(nodes, p, node), first[b := node], if count[b] == 0 then last[b := node] else last,
            ShiftUp(start, b, p), count[b := count[b] + 1])
  {
    var p := Place(start, count, b, |nodes|);
    if p < |nodes| { assert bs[p] == b; }
    forall c | 0 <= c < |first| && c != b && count[c] > 0
      ensures start[c] + count[c] <= p || start[c] > p
    {
      if p < |nodes| { assert bs[p] == c <==> start[c] <= p < start[c] + count[c]; }
    }
  }

  lemma {:induction false} HeadsRemove(list: Node, nodes: seq<Node>, first: seq<Node>, last: seq<Node>, first': seq<Node>, last': seq<Node>, start: seq<nat>, count: seq<nat>, p: nat, bs: seq<nat>)
    requires Heads(list, nodes, first, last, start, count) && Segments(bs, start, count) && |bs| == |nodes|
    requires p < |nodes| && bs[p] < |first| == |first'| == |last'|
    requires forall c :: 0 <= c < |first| && c != bs[p] ==> first'[c] == first[c] && last'[c] == last[c]
    requires var b := bs[p];
      if count[b] == 1 then first'[b] == list && last'[b] == list
      else if p == start[b] then p + 1 < |nodes| && first'[b] == nodes[p + 1] && last'[b] == last[b]
      else if p == start[b] + count[b] - 1 then p > 0 && first'[b] == first[b] && last'[b] == nodes[p - 1]
      else first'[b] == first[b] && last'[b] == last[b]
    ensures count[bs[p]] > 0
    ensures Heads(list, RemoveAt(nodes, p), first', last', ShiftDown(start, p), count[bs[p] := count[bs[p]] - 1])
  {
    forall c | 0 <= c < |first| && c != bs[p] && count[c] > 0
      ensures start[c] + count[c] <= p || start[c] > p
    {
      assert bs[p] == c <==> start[c] <= p < start[c] + count[c];
    }
    assert start[bs[p]] <= p < start[bs[p]] + count[bs[p]];
  }

  lemma {:induction false} NumbersInsert(nodes: seq<Node>, p: nat, node: Node, B: nat)
    requires p <= |nodes| && B > 0
    ensures Numbers(InsertAt(nodes, p, node), B) == Inserted(Numbers(nodes, B), p, node.hash % B)
  {
  }

  lemma {:induction false} NumbersRemove(nodes: seq<Node>, p: nat, B: nat)
    requires p < |nodes| && B > 0
    ensures Numbers(RemoveAt(nodes, p), B) == Numbers(nodes, B)[..p] + Numbers(nodes, B)[p + 1..]
  {
  }

  // ---- what the table contains -----------------------------------------------------------------

  ghost predicate DistinctKeys(nodes: seq<Node>)
  {
    forall i, j :: 0 <= i < j < |nodes| ==> nodes[i].key != nodes[j].key
  }

  /** The pairs of the nodes are those of the map, each key once. */
  ghost predicate Holds(nodes: seq<Node>, contents: map<seq<byte>, Value>)
    reads nodes`value
  {
    && DistinctKeys(nodes)
    && (forall i :: 0 <= i < |nodes| ==> nodes[i].hash == Hash(nodes[i].key))
    && (forall i :: 0 <= i < |nodes| ==> nodes[i].key in contents && contents[nodes[i].key] == nodes[i].value)
    && (forall k :: k in contents ==> exists i :: 0 <= i < |nodes| && nodes[i].key == k)
  }

  lemma {:induction false} HoldsInsert(nodes: seq<Node>, contents: map<seq<byte>, Value>, p: nat, node: Node)
    requires Holds(nodes, contents) && p <= |nodes| && node.key !in contents && node.hash == Hash(node.key)
    ensures Holds(InsertAt(nodes, p, node), contents[node.key := node.value])
  {
    hide Hash;
    var nodes', contents' := InsertAt(nodes, p, node), contents[node.key := node.value];
    forall k | k in contents' ensures exists i :: 0 <= i < |nodes'| && nodes'[i].key == k {
      if k == node.key {
        assert nodes'[p].key == k;
      } else {
        var i :| 0 <= i < |nodes| && nodes[i].key == k;
        assert nodes'[if i < p then i else i + 1].key == k;
      }
    }
  }

  lemma {:induction false} HoldsRemove(nodes: seq<Node>, contents: map<seq<byte>, Value>, p: nat)
    requires Holds(nodes, contents) && p < |nodes|
    ensures Holds(RemoveAt(nodes, p), contents - {nodes[p].key})
  {
    hide Hash;
    var nodes' := RemoveAt(nodes, p);
    forall k | k in contents - {nodes[p].key} ensures exists i :: 0 <= i < |nodes'| && nodes'[i].key == k {
      var i :| 0 <= i < |nodes| && nodes[i].key == k;
      assert nodes'[if i < p then i else i - 1].key == k;
    }
  }

  /** The same nodes in another order hold the same. */
  lemma {:induction false} HoldsReordered(nodes: seq<Node>, nodes': seq<Node>, contents: map<seq<byte>, Value>, list: Node)
    requires Holds(nodes, contents) && Distinct(nodes', list) && |nodes'| == |nodes|
    requires forall m :: m in nodes' <==> m in nodes
    ensures Holds(nodes', contents)
  {
    hide Hash;
    forall i, j | 0 <= i < j < |nodes'| ensures nodes'[i].key != nodes'[j].key {
      assert nodes'[i] in nodes && nodes'[j] in nodes;
    }
    forall i | 0 <= i < |nodes'|
      ensures nodes'[i].hash == Hash(nodes'[i].key) && nodes'[i].key in contents && contents[nodes'[i].key] == nodes'[i].value
    {
      assert nodes'[i] in nodes;
    }
    forall k | k in contents ensures exists i :: 0 <= i < |nodes'| && nodes'[i].key == k {
      var i :| 0 <= i < |nodes| && nodes[i].key == k;
      assert nodes[i] in nodes';
    }
  }

  class Table {
    const list: Node
    var size: nat
    var order: nat
    var first: array<Node>
    var last: array<Node>
    ghost var nodes: seq<Node>
    ghost var start: seq<nat>
    ghost var count: seq<nat>
    ghost var contents: map<seq<byte>, Value>

    ghost function Members(): set<Node> reads this`nodes { set m | m in nodes }

    /** The buckets, as segments of the circle. */
    ghost predicate BucketsOf(ns: seq<Node>)
      reads this`order, this`first, this`last, this`start, this`count, first, last
    {
      && order < |PRIMES| && first.Length == last.Length == PRIMES[order] && first != last
      && Segments(Numbers(ns, PRIMES[order]), start, count)
      && Heads(list, ns, first[..], last[..], start, count)
    }

    ghost predicate Buckets()
      reads this`order, this`first, this`last, this`nodes, this`start, this`count, first, last
    {
      BucketsOf(nodes)
    }

    ghost predicate Linked()
      reads this`nodes, list`next, list`prev, nodes`next, nodes`prev
    {
      Distinct(nodes, list) && Circle(list, nodes)
    }

    ghost predicate Valid()
      reads this, list, nodes, first, last
    {
      Buckets() && Linked() && Holds(nodes, contents) && size == |nodes|
    }

    /** hashtable_init. */
    constructor ()
      ensures Valid() && contents == map[] && fresh(list) && fresh(first) && fresh(last)
    {
      var sentinel := new Node(0, 0, [], 0);
      list := sentinel;
      size, order := 0, 0;
      first, last := new Node[PRIMES[0]](_ => sentinel), new Node[PRIMES[0]](_ => sentinel);
      nodes, contents := [], map[];
      start, count := seq(PRIMES[0], _ => 0), seq(PRIMES[0], _ => 0);
    }

    /** hashtable_find_pair: the pair with the key, in the bucket of its hash. */
    method FindPair(b: nat, key: seq<byte>, hash: nat) returns (pair: Node?, ghost at: int)
      requires Valid() && hash == Hash(key) && b == hash % PRIMES[order]
      ensures pair == null <==> key !in contents
      ensures pair != null ==> 0 <= at < |nodes| && pair == nodes[at] && pair.key == key && pair.hash == hash
    {
      hide Hash, Valid;
      BucketFacts(b);
      if first[b] == list && first[b] == last[b] {
        NotInBucket(b, key, 0);
        return null, -1;
      }
      var node := first[b];
      ghost var i := start[b];
      while true
        invariant start[b] <= i < start[b] + count[b] && node == nodes[i]
        invariant forall j :: start[b] <= j < i ==> nodes[j].key != key
        decreases start[b] + count[b] - i
      {
        NodeFacts(i);
        if node.hash == hash && node.key == key {
          return node, i;
        }
        if node == last[b] {
          SameNode(i, start[b] + count[b] - 1);
          NotInBucket(b, key, count[b]);
          break;
        }
        NextNode(i);
        node := node.next;
        i := i + 1;
      }
      return null, -1;
    }

    lemma BucketFacts(b: nat)
      requires Valid() && exists hash: nat :: b == hash % PRIMES[order]
      ensures b < first.Length == last.Length && b < |start| && |start| == |count| && start[b] + count[b] <= |nodes|
      ensures if count[b] == 0 then first[b] == list && last[b] == list
        else first[b] == nodes[start[b]] && last[b] == nodes[start[b] + count[b] - 1] && first[b] != list
    {
    }

    /** A key that is not among the nodes of its bucket is not in the table. */
    lemma NotInBucket(b: nat, key: seq<byte>, n: nat)
      requires Valid() && b == Hash(key) % PRIMES[order] && b < |start| && n == count[b]
      requires forall j :: start[b] <= j < start[b] + n ==> nodes[j].key != key
      ensures key !in contents
    {
      hide Hash;
      var bs := Numbers(nodes, PRIMES[order]);
      forall i | 0 <= i < |nodes| ensures nodes[i].key != key {
        assert bs[i] == b <==> start[b] <= i < start[b] + count[b];
      }
    }

    lemma NodeFacts(i: nat)
      requires Valid() && i < |nodes|
      ensures nodes[i].hash == Hash(nodes[i].key) && nodes[i].key in contents && contents[nodes[i].key] == nodes[i].value
    {
    }

    lemma SameNode(i: nat, j: nat)
      requires Valid() && i < |nodes| && j < |nodes|
      ensures nodes[i] == nodes[j] ==> i == j
    {
    }

    lemma NextNode(i: nat)
      requires Valid() && i < |nodes|
      ensures nodes[i].next == if i + 1 < |nodes| then nodes[i + 1] else list
    {
      assert C(list, nodes, i + 1).next == C(list, nodes, i + 2);
    }

    /** insert_to_bucket: at the front of the bucket's segment, or at the end of the
        list for an empty bucket. */
    method InsertToBucket(b: nat, node: Node)
      requires Buckets() && Linked() && b == node.hash % PRIMES[order] && node != list && node !in nodes
      modifies first, last, `nodes, `start, `count, list`next, list`prev, Members()`next, Members()`prev, node`next, node`prev
      ensures Buckets() && Linked()
      ensures exists p :: 0 <= p <= old(|nodes|) && nodes == InsertAt(old(nodes), p, node)
    {
      hide Segments, Heads, Circle, Distinct, InsertAt;
      ghost var B, bs := PRIMES[order], Numbers(nodes, PRIMES[order]);
      PlaceFacts(b);
      ghost var p := Place(start, count, b, |nodes|);
      SegmentsInsert(bs, start, count, b);
      HeadsInsert(list, nodes, first[..], last[..], start, count, b, node, bs);
      NumbersInsert(nodes, p, node, B);
      InsertDistinct(nodes, p, node, list);
      InsertKeeps(list, nodes, p);
      ghost var first0, last0 := first[..], last[..];
      if first[b] == list && first[b] == last[b] {
        ListInsert(list, node, list, nodes, p);
        first[b], last[b] := node, node;
        assert first[..] == first0[b := node] && last[..] == last0[b := node];
      } else {
        ListInsert(first[b], node, list, nodes, p);
        first[b] := node;
        assert first[..] == first0[b := node] && last[..] == last0;
      }
      nodes, start, count := InsertAt(nodes, p, node), ShiftUp(start, b, p), count[b := count[b] + 1];
    }

    lemma PlaceFacts(b: nat)
      requires Buckets() && Linked() && b < PRIMES[order]
      ensures b < first.Length && b < |start| == |count| && (count[b] == 0 <==> first[b] == list && first[b] == last[b])
      ensures Place(start, count, b, |nodes|) <= |nodes|
      ensures count[b] == 0 ==> list == C(list, nodes, Place(start, count, b, |nodes|) + 1)
      ensures count[b] != 0 ==> first[b] == C(list, nodes, Place(start, count, b, |nodes|) + 1)
    {
      assert count[b] > 0 ==> nodes[start[b]] in nodes;
    }

    /** hashtable_get. */
    method Get(key: seq<byte>) returns (found: bool, value: Value)
      requires Valid()
      ensures found <==> key in contents
      ensures found ==> value == contents[key]
    {
      hide Valid, Hash;
      OrderFacts();
      var hash := HashStr(key);
      var pair, at := FindPair(hash % PRIMES[order], key, hash);
      found, value := pair != null, 0;
      if pair != null {
        NodeFacts(at);
        value := pair.value;
      }
    }

    lemma OrderFacts()
      requires Valid()
      ensures order < |PRIMES| && PRIMES[order] > 0 && first.Length == last.Length == PRIMES[order] && size == |nodes|
    {
    }

    /** Setting the value of an existing pair. */
    method SetValue(pair: Node, value: Value, ghost at: nat)
      requires Valid() && at < |nodes| && pair == nodes[at]
      modifies pair`value, `contents
      ensures Valid() && contents == old(contents)[pair.key := value]
    {
      hide Buckets, Linked, Holds, HoldsBut;
      HoldsAll(nodes, contents, at);
      forall i | 0 <= i < |nodes| && i != at ensures nodes[i] != pair { SameNode(i, at); }
      assert pair !in Without(nodes, at);
      pair.value := value;
      assert HoldsBut(nodes, contents, at);
      ValueSet(nodes, contents, at);
      contents := contents[pair.key := value];
    }

    /** hashtable_set.  Beyond the last of the primes the table cannot grow. */
    method Set(key: seq<byte>, serial: nat, value: Value)
      requires Valid() && (size >= PRIMES[order] ==> order + 1 < |PRIMES|)
      modifies this, list`next, list`prev, Members()`next, Members()`prev, Members()`value, first, last
      ensures Valid() && contents == old(contents)[key := value]
      ensures fresh(set m | m in nodes && m !in old(nodes))
      ensures (first == old(first) && last == old(last)) || (fresh(first) && fresh(last))
    {
      hide Valid, Hash;
      OrderFacts();
      if size >= PRIMES[order] { Rehash(); }
      assert forall m :: m in nodes ==> m in old(nodes);
      assert (first == old(first) && last == old(last)) || (fresh(first) && fresh(last));
      OrderFacts();
      var hash := HashStr(key);
      var b := hash % PRIMES[order];
      var pair, at := FindPair(b, key, hash);
      if pair != null {
        assert nodes[at] in nodes;
        SetValue(pair, value, at);
      } else {
        AddPair(b, key, hash, serial, value);
      }
    }

    /** Adding a pair for a new key. */
    method AddPair(b: nat, key: seq<byte>, hash: nat, serial: nat, value: Value)
      requires Valid() && key !in contents && hash == Hash(key) && b == hash % PRIMES[order]
      modifies first, last, `nodes, `start, `count, `contents, `size, list`next, list`prev, Members()`next, Members()`prev
      ensures Valid() && contents == old(contents)[key := value]
      ensures forall m :: m in nodes && m !in old(nodes) ==> fresh(m)
    {
      hide Segments, Heads, Circle, Distinct, Hash, Holds, InsertAt;
      var pair := new Node(hash, serial, key, value);
      ghost var nodes0 := nodes;
      InsertToBucket(b, pair);
      ghost var p :| 0 <= p <= |nodes0| && nodes == InsertAt(nodes0, p, pair);
      HoldsInsert(nodes0, contents, p, pair);
      Added(nodes0, p, pair);
      contents := contents[key := value];
      size := size + 1;
    }

    /** What is left of the old list: its links forward still lead to the end. */
    ghost predicate Remaining(rest: seq<Node>, k: nat)
      reads this`nodes, rest`next
    {
      && k <= |rest| && Distinct(rest, list)
      && |nodes| == k && (forall m :: m in nodes ==> m in rest[..k]) && (forall m :: m in rest[..k] ==> m in nodes)
      && forall j :: k <= j < |rest| ==> rest[j].next == C(list, rest, j + 2)
    }

    /** Moving the next node of the old list into its new bucket. */
    method MoveNode(node: Node, ghost rest: seq<Node>, ghost k: nat) returns (next: Node)
      requires Buckets() && Linked() && k < |rest| && node == rest[k] && Remaining(rest, k)
      modifies first, last, `nodes, `start, `count, list`next, list`prev, Members()`next, Members()`prev, node`next, node`prev
      ensures Buckets() && Linked() && Remaining(rest, k + 1)
      ensures next == if k + 1 < |rest| then rest[k + 1] else list
      ensures k + 1 < |rest| ==> next != list
    {
      hide Buckets, Linked, Distinct, InsertAt;
      RestApart(rest, k, list);
      next := node.next;
      ghost var nodes0 := nodes;
      SomeBucket(node);
      InsertToBucket(node.hash % PRIMES[order], node);
      ghost var p :| 0 <= p <= |nodes0| && nodes == InsertAt(nodes0, p, node);
      Added(nodes0, p, node);
      assert rest[..k + 1] == rest[..k] + [rest[k]];
    }

    lemma SomeBucket(node: Node)
      requires Buckets()
      ensures order < |PRIMES| && PRIMES[order] > 0
    {
    }

    /** hashtable_do_rehash: a larger table, its list built anew from the old one. */
    method Rehash()
      requires Valid() && order + 1 < |PRIMES|
      modifies `order, `first, `last, `nodes, `start, `count, list`next, list`prev, Members()`next, Members()`prev
      ensures Valid() && order == old(order) + 1 && contents == old(contents)
      ensures fresh(first) && fresh(last)
      ensures forall m :: m in nodes <==> m in old(nodes)
    {
      hide Hash, Holds, BucketsOf, Circle, Linked, Distinct, C;
      ghost var rest := nodes;
      LinkedNow();
      var node := list.next;
      NextNodes(list, nodes);
      StartAnew();
      ghost var k := 0;
      while node != list
        invariant 0 <= k <= |rest| && node == (if k < |rest| then rest[k] else list)
        invariant Buckets() && Linked() && order == old(order) + 1 && fresh(first) && fresh(last)
        invariant Remaining(rest, k)
        decreases |rest| - k
      {
        assert forall m :: m in nodes ==> m in rest;
        node := MoveNode(node, rest, k);
        k := k + 1;
      }
      assert rest[..k] == rest;
      LinkedNow();
      HoldsReordered(rest, nodes, contents, list);
    }

    /** Empty buckets in a larger table, and an empty list. */
    method StartAnew()
      requires Linked() && order + 1 < |PRIMES|
      modifies `order, `first, `last, `nodes, `start, `count, list`next, list`prev
      ensures Buckets() && Linked() && order == old(order) + 1 && fresh(first) && fresh(last) && nodes == []
    {
      order := order + 1;
      var newSize, sentinel := PRIMES[order], list;
      first, last := new Node[newSize](_ => sentinel), new Node[newSize](_ => sentinel);
      list.next, list.prev := list, list;
      nodes, start, count := [], seq(newSize, _ => 0), seq(newSize, _ => 0);
    }

    /** hashtable_del: -1 if the key is not there. */
    method Del(key: seq<byte>) returns (r: int)
      requires Valid()
      modifies `size, `nodes, `start, `count, `contents, list`next, list`prev, Members()`next, Members()`prev, first, last
      ensures Valid() && contents == old(contents) - {key}
      ensures r == if key in old(contents) then 0 else -1
      ensures Members() <= old(Members())
    {
      hide Valid, Hash;
      OrderFacts();
      var hash := HashStr(key);
      var b := hash % PRIMES[order];
      var pair, at := FindPair(b, key, hash);
      if pair == null {
        assert contents - {key} == contents;
        return -1;
      }
      RemovePair(b, pair, at);
      r := 0;
    }

    /** Taking a pair out of its bucket and the list. */
    method RemovePair(b: nat, pair: Node, ghost at: nat)
      requires Valid() && at < |nodes| && pair == nodes[at] && b == pair.hash % PRIMES[order]
      modifies `size, `nodes, `start, `count, `contents, list`next, list`prev, Members()`next, Members()`prev, first, last
      ensures Valid() && contents == old(contents) - {pair.key} && Members() <= old(Members())
    {
      hide Circle, Distinct, Hash, Holds, RemoveAt, BucketsOf;
      ghost var nodes0 := nodes;
      RemoveFacts(b, at);
      RemoveDistinct(nodes, at, list);
      Fewer(nodes0, at);
      UpdateHeads(b, pair, at);
      ListRemove(pair, list, nodes, at);
      HoldsRemove(nodes, contents, at);
      nodes := RemoveAt(nodes, at);
      contents := contents - {pair.key};
      size := size - 1;
    }

    /** The ends of the bucket, once the pair is taken out. */
    method UpdateHeads(b: nat, pair: Node, ghost at: nat)
      requires Valid() && at < |nodes| && pair == nodes[at] && b == pair.hash % PRIMES[order]
      modifies first, last, `start, `count
      ensures BucketsOf(RemoveAt(nodes, at))
    {
      hide Circle, Distinct, Hash, Holds, RemoveAt, Segments, Heads;
      ghost var bs, first0, last0 := Numbers(nodes, PRIMES[order]), first[..], last[..];
      RemoveFacts(b, at);
      BucketFacts(b);
      SegmentsRemove(bs, start, count, at);
      NumbersRemove(nodes, at, PRIMES[order]);
      if pair == first[b] && pair == last[b] {
        first[b], last[b] := list, list;
      } else if pair == first[b] {
        first[b] := pair.next;
      } else if pair == last[b] {
        last[b] := pair.prev;
      }
      HeadsRemove(list, nodes, first0, last0, first[..], last[..], start, count, at, bs);
      start, count := ShiftDown(start, at), count[b := count[b] - 1];
    }

    /** The place of a pair in its bucket, and its neighbours. */
    lemma RemoveFacts(b: nat, at: nat)
      requires Valid() && at < |nodes| && b == nodes[at].hash % PRIMES[order]
      ensures b < first.Length == last.Length && b < |start| == |count| && Numbers(nodes, PRIMES[order])[at] == b
      ensures count[b] > 0 && start[b] <= at < start[b] + count[b] <= |nodes|
      ensures nodes[at] == first[b] <==> at == start[b]
      ensures nodes[at] == last[b] <==> at == start[b] + count[b] - 1
      ensures nodes[at] == C(list, nodes, at + 1) && nodes[at].next == C(list, nodes, at + 2) && nodes[at].prev == C(list, nodes, at)
      ensures at + 1 < |nodes| ==> nodes[at].next == nodes[at + 1]
      ensures at > 0 ==> nodes[at].prev == nodes[at - 1]
      ensures nodes[at].next == list || nodes[at].next in nodes
      ensures nodes[at].prev == list || nodes[at].prev in nodes
    {
      hide Hash, Valid, Circle, Distinct;
      BucketPlace(b, at);
      LinkedParts();
      SameNode(at, start[b]);
      SameNode(at, start[b] + count[b] - 1);
      Neighbours(list, nodes, at);
      Neighbours(list, nodes, at + 1);
      Member(list, nodes, at);
      Member(list, nodes, at + 2);
    }

    lemma LinkedNow()
      requires Linked()
      ensures Circle(list, nodes) && Distinct(nodes, list)
    {
    }

    lemma LinkedParts()
      requires Valid()
      ensures Circle(list, nodes) && Distinct(nodes, list)
    {
    }

    lemma BucketPlace(b: nat, at: nat)
      requires Valid() && at < |nodes| && b == nodes[at].hash % PRIMES[order]
      ensures b < first.Length == last.Length && b < |start| == |count| && Numbers(nodes, PRIMES[order])[at] == b
      ensures count[b] > 0 && start[b] <= at < start[b] + count[b] <= |nodes|
      ensures first[b] == nodes[start[b]] && last[b] == nodes[start[b] + count[b] - 1]
    {
      hide Hash, Circle, Distinct, Holds;
      var bs := Numbers(nodes, PRIMES[order]);
      assert bs[at] == b <==> start[b] <= at < start[b] + count[b];
    }

    /** hashtable_clear. */
    method Clear()
      requires Valid()
      modifies `size, `nodes, `start, `count, `contents, list`next, list`prev, first, last
      ensures Valid() && contents == map[]
    {
      hide Hash, Linked, Holds, BucketsOf;
      ClearBuckets();
      list.next, list.prev := list, list;
      size := 0;
      nodes, contents := [], map[];
      EmptyCircle();
    }

    method ClearBuckets()
      requires Buckets()
      modifies first, last, `start, `count
      ensures BucketsOf([])
    {
      hide Segments, Heads;
      EmptyBuckets();
      EmptyFacts(list, first[..], last[..]);
      start, count := seq(PRIMES[order], _ => 0), seq(PRIMES[order], _ => 0);
    }

    /** Making every bucket empty. */
    method EmptyBuckets()
      requires order < |PRIMES| && first.Length == last.Length == PRIMES[order] && first != last
      modifies first, last
      ensures forall b :: 0 <= b < first.Length ==> first[b] == list && last[b] == list
    {
      var i := 0;
      while i < PRIMES[order]
        invariant 0 <= i <= PRIMES[order]
        invariant forall b :: 0 <= b < i ==> first[b] == list && last[b] == list
      {
        first[i], last[i] := list, list;
        i := i + 1;
      }
    }

    lemma EmptyCircle()
      requires nodes == [] && list.next == list && list.prev == list && contents == map[]
      ensures Linked() && Holds(nodes, contents)
    {
    }

    // ---- iteration -------------------------------------------------------------------------

    /** hashtable_iter_next, with list for the start of the iteration. */
    method IterNext(iter: Node, ghost k: nat) returns (next: Node?)
      requires Valid() && k <= |nodes| && iter == C(list, nodes, k)
      ensures next == if k < |nodes| then nodes[k] else null
    {
      hide Buckets, Holds, Hash;
      Neighbours(list, nodes, k);
      ListIsNoNode();
      if iter.next == list { return null; }
      next := iter.next;
    }

    lemma ListIsNoNode()
      requires Linked()
      ensures forall i :: 0 <= i < |nodes| ==> nodes[i] != list
    {
    }

    /** Iterating from hashtable_iter to the end visits every key exactly once. */
    method Keys() returns (keys: seq<seq<byte>>)
      requires Valid()
      ensures forall i, j :: 0 <= i < j < |keys| ==> keys[i] != keys[j]
      ensures forall k :: k in keys <==> k in contents
    {
      hide Valid, Hash;
      OrderFacts();
      keys := [];
      ghost var k := 0;
      var iter := IterNext(list, 0);
      while iter != null
        invariant 0 <= k <= |nodes| && |keys| == k && iter == (if k < |nodes| then nodes[k] else null)
        invariant forall i :: 0 <= i < k ==> keys[i] == nodes[i].key
        decreases |nodes| - k
      {
        keys := keys + [iter.key];
        k := k + 1;
        iter := IterNext(iter, k);
      }
      KeysAreAll(keys);
    }

    lemma KeysAreAll(keys: seq<seq<byte>>)
      requires Valid() && |keys| == |nodes| && forall i :: 0 <= i < |keys| ==> keys[i] == nodes[i].key
      ensures forall i, j :: 0 <= i < j < |keys| ==> keys[i] != keys[j]
      ensures forall k :: k in keys <==> k in contents
    {
      hide Hash;
      forall k | k in contents ensures k in keys {
        var i :| 0 <= i < |nodes| && nodes[i].key == k;
        assert keys[i] == k;
      }
    }
  }

  ghost function Without(nodes: seq<Node>, at: nat): set<Node>
  {
    set i | 0 <= i < |nodes| && i != at :: nodes[i]
  }

  /** Holds, but for the value of one node. */
  ghost predicate HoldsBut(nodes: seq<Node>, contents: map<seq<byte>, Value>, at: nat)
    reads Without(nodes, at)`value
  {
    && DistinctKeys(nodes)
    && (forall i :: 0 <= i < |nodes| ==> nodes[i].hash == Hash(nodes[i].key))
    && (forall i :: 0 <= i < |nodes| ==> nodes[i].key in contents)
    && (forall i :: 0 <= i < |nodes| && i != at ==> nodes[i] in Without(nodes, at) && contents[nodes[i].key] == nodes[i].value)
    && (forall k :: k in contents ==> exists i :: 0 <= i < |nodes| && nodes[i].key == k)
  }

  lemma {:induction false} HoldsAll(nodes: seq<Node>, contents: map<seq<byte>, Value>, at: nat)
    requires Holds(nodes, contents)
    ensures HoldsBut(nodes, contents, at)
  {
    hide Hash, DistinctKeys;
  }

  lemma {:induction false} ValueSet(nodes: seq<Node>, contents: map<seq<byte>, Value>, at: nat)
    requires at < |nodes| && HoldsBut(nodes, contents, at)
    ensures Holds(nodes, contents[nodes[at].key := nodes[at].value])
  {
    hide Hash;
  }

  /** The nodes after an insertion are the old ones and the new one. */
  lemma {:induction false} Added(nodes: seq<Node>, p: nat, node: Node)
    requires p <= |nodes|
    ensures |InsertAt(nodes, p, node)| == |nodes| + 1
    ensures forall m :: m in InsertAt(nodes, p, node) <==> m == node || m in nodes
  {
  }

  lemma {:induction false} NextNodes(list: Node, nodes: seq<Node>)
    requires Circle(list, nodes)
    ensures list.next == C(list, nodes, 1) == if |nodes| > 0 then nodes[0] else list
    ensures forall j :: 0 <= j < |nodes| ==> nodes[j].next == C(list, nodes, j + 2)
  {
    assert C(list, nodes, 0).next == C(list, nodes, 1);
    forall j | 0 <= j < |nodes| ensures nodes[j].next == C(list, nodes, j + 2) {
      assert C(list, nodes, j + 1).next == C(list, nodes, j + 2);
    }
  }

  lemma {:induction false} RestApart(rest: seq<Node>, k: nat, list: Node)
    requires Distinct(rest, list) && k <= |rest|
    ensures forall j :: k <= j < |rest| ==> rest[j] !in rest[..k] && rest[j] != list
    ensures k < |rest| ==> forall j :: k < j < |rest| ==> rest[j] != rest[k]
  {
  }

  lemma {:induction false} Fewer(nodes: seq<Node>, p: nat)
    requires p < |nodes|
    ensures forall m :: m in RemoveAt(nodes, p) ==> m in nodes
    ensures |RemoveAt(nodes, p)| == |nodes| - 1
  {
  }

  lemma {:induction false} EmptyFacts(list: Node, first: seq<Node>, last: seq<Node>)
    requires |first| == |last| > 0 && forall b :: 0 <= b < |first| ==> first[b] == list && last[b] == list
    ensures var zeros := seq(|first|, _ => 0);
      Segments([], zeros, zeros) && Heads(list, [], first, last, zeros, zeros)
    ensures Numbers([], |first|) == []
  {
  }

  lemma {:induction false} InsertKeeps(list: Node, nodes: seq<Node>, p: nat)
    requires Circle(list, nodes) && p <= |nodes|
    ensures C(list, nodes, p + 1) == list || C(list, nodes, p + 1) in nodes
    ensures C(list, nodes, p + 1).prev == list || C(list, nodes, p + 1).prev in nodes
  {
    Member(list, nodes, p + 1);
    Member(list, nodes, p);
  }
}
