/** do_dump on values that are linked as they are in memory: shared sub-values and
    cycles are possible, and `visited` flags mark the containers being dumped. */
module JsonDump {
  import opened Bits
  import opened Utf8
  import opened JsonString
  import opened JsonText
  import opened JsonRoundTrip

  datatype Kind = Leaf(v: Json) | ArrayKind | ObjectKind

  /** json_t: a leaf, an array with its elements, or an object with its pairs in
      iteration order, the keys and the values side by side. */
  class Node {
    const kind: Kind
    var children: seq<Node>
    var keys: seq<Field>
    var visited: bool

    constructor (kind: Kind)
      ensures this.kind == kind && children == [] && keys == [] && !visited
    {
      this.kind := kind;
      children, keys, visited := [], [], false;
    }
  }

  predicate IsLeafValue(v: Json) { !v.Array? && !v.Object? }

  /** G holds everything that can be reached, and all of it can be printed. */
  ghost predicate Graph(G: set<Node>)
    reads G`children, G`keys
  {
    forall n :: n in G ==>
      && (forall c :: c in n.children ==> c in G)
      && (n.kind.Leaf? ==> n.children == [] && IsLeafValue(n.kind.v) && Printable(n.kind.v))
      && (n.kind.ObjectKind? ==> |n.keys| == |n.children| && DistinctKeys(n.keys) && CleanKeys(n.keys))
  }

  predicate CleanKeys(keys: seq<Field>)
  {
    forall i :: 0 <= i < |keys| ==> Valid(keys[i].key) && 0 !in keys[i].key && keys[i].value == Null
  }

  /** The tree t is what node n looks like, sub-values shared or not. */
  ghost predicate Unfolds(n: Node, t: Json, G: set<Node>)
    reads G`children, G`keys
    decreases t
  {
    n in G &&
    match n.kind
    case Leaf(v) => t == v
    case ArrayKind =>
      t.Array? && |t.items| == |n.children|
      && forall i :: 0 <= i < |t.items| ==> Unfolds(n.children[i], t.items[i], G)
    case ObjectKind =>
      t.Object? && |t.fields| == |n.children| && SameKeys(t.fields, n.keys)
      && forall i :: 0 <= i < |t.fields| ==> Unfolds(n.children[i], t.fields[i].value, G)
  }

  predicate SameKeys(a: seq<Field>, b: seq<Field>)
  {
    |a| == |b| && forall i :: 0 <= i < |a| ==> a[i].key == b[i].key && a[i].serial == b[i].serial
  }

  /** Going down from n by the indices in ix. */
  ghost predicate Walk(n: Node, ix: seq<nat>, G: set<Node>)
    reads G`children
    decreases |ix|
  {
    n in G && (ix == [] || (ix[0] < |n.children| && Walk(n.children[ix[0]], ix[1..], G)))
  }

  /** Where the walk ends. */
  ghost function End(n: Node, ix: seq<nat>, G: set<Node>): Node
    requires Walk(n, ix, G)
    reads G`children
    decreases |ix|
  {
    if ix == [] then n else End(n.children[ix[0]], ix[1..], G)
  }

  /** The walk comes back to a node it has passed. */
  ghost predicate Returns(n: Node, ix: seq<nat>, i: nat, G: set<Node>)
    reads G`children
  {
    i < |ix| && Walk(n, ix, G) && Walk(n, ix[..i], G) && End(n, ix[..i], G) == End(n, ix, G)
  }

  /** From n a cycle can be reached. */
  ghost predicate Cyclic(n: Node, G: set<Node>)
    reads G`children
  {
    exists ix: seq<nat>, i: nat :: Returns(n, ix, i, G)
  }

  /** A walk is a walk to any node on it and one from there. */
  lemma {:induction false} WalkSplit(n: Node, ix: seq<nat>, i: nat, G: set<Node>)
    requires Walk(n, ix, G) && i <= |ix|
    ensures Walk(n, ix[..i], G) && Walk(End(n, ix[..i], G), ix[i..], G)
    ensures End(End(n, ix[..i], G), ix[i..], G) == End(n, ix, G)
    decreases |ix|
  {
    if i == 0 {
      assert ix[..0] == [] && ix[0..] == ix;
    } else {
      assert ix[..i][1..] == ix[1..][..i - 1] && ix[1..][i - 1..] == ix[i..];
      WalkSplit(n.children[ix[0]], ix[1..], i - 1, G);
    }
  }

  /** One step further. */
  lemma {:induction false} WalkOn(n: Node, ix: seq<nat>, k: nat, G: set<Node>)
    requires Walk(n, ix, G) && k < |End(n, ix, G).children| && End(n, ix, G).children[k] in G
    ensures Walk(n, ix + [k], G) && End(n, ix + [k], G) == End(n, ix, G).children[k]
    decreases |ix|
  {
    if ix != [] {
      assert (ix + [k])[1..] == ix[1..] + [k];
      WalkOn(n.children[ix[0]], ix[1..], k, G);
    } else {
      assert ([k])[1..] == [] && ix + [k] == [k];
    }
  }

  // ---- trees and cycles exclude each other --------------------------------------------------

  /** How many nodes a tree has. */
  function Size(t: Json): nat
    decreases t
  {
    match t
    case Array(items) => 1 + ItemsSize(items)
    case Object(fields) => 1 + FieldsSize(fields)
    case _ => 1
  }

  function ItemsSize(items: seq<Json>): nat
    decreases items
  {
    if |items| == 0 then 0 else Size(items[0]) + ItemsSize(items[1..])
  }

  function FieldsSize(fields: seq<Field>): nat
    decreases fields
  {
    if |fields| == 0 then 0 else Size(fields[0].value) + FieldsSize(fields[1..])
  }

  lemma {:induction false} ItemSmaller(items: seq<Json>, i: nat)
    requires i < |items|
    ensures Size(items[i]) <= ItemsSize(items)
    decreases |items|
  {
    if i > 0 { ItemSmaller(items[1..], i - 1); }
  }

  lemma {:induction false} FieldSmaller(fields: seq<Field>, i: nat)
    requires i < |fields|
    ensures Size(fields[i].value) <= FieldsSize(fields)
    decreases |fields|
  {
    if i > 0 { FieldSmaller(fields[1..], i - 1); }
  }

  /** A node looks like one tree only. */
  lemma {:induction false} OneTree(n: Node, t: Json, u: Json, G: set<Node>)
    requires Unfolds(n, t, G) && Unfolds(n, u, G)
    ensures t == u
    decreases t
  {
    match n.kind
    case Leaf(v) =>
    case ArrayKind =>
      forall i | 0 <= i < |t.items| ensures t.items[i] == u.items[i] {
        OneTree(n.children[i], t.items[i], u.items[i], G);
      }
      assert t.items == u.items;
    case ObjectKind =>
      forall i | 0 <= i < |t.fields| ensures t.fields[i] == u.fields[i] {
        OneTree(n.children[i], t.fields[i].value, u.fields[i].value, G);
        assert t.fields[i].key == u.fields[i].key && t.fields[i].serial == u.fields[i].serial;
      }
      assert t.fields == u.fields;
  }

  /** A child looks like a smaller tree. */
  lemma {:induction false} ChildTree(n: Node, c: Node, t: Json, G: set<Node>) returns (u: Json)
    requires Graph(G) && Unfolds(n, t, G) && c in n.children
    ensures Unfolds(c, u, G) && Size(u) < Size(t)
  {
    var i :| 0 <= i < |n.children| && n.children[i] == c;
    match n.kind
    case Leaf(v) => assert false;
    case ArrayKind =>
      u := t.items[i];
      ItemSmaller(t.items, i);
    case ObjectKind =>
      u := t.fields[i].value;
      FieldSmaller(t.fields, i);
  }

  /** So does everything further down. */
  lemma {:induction false} WalkTree(n: Node, ix: seq<nat>, t: Json, G: set<Node>) returns (u: Json)
    requires Graph(G) && Walk(n, ix, G) && Unfolds(n, t, G)
    ensures Unfolds(End(n, ix, G), u, G) && (if |ix| == 0 then u == t else Size(u) < Size(t))
    decreases |ix|
  {
    hide Graph, Unfolds;
    if |ix| == 0 {
      u := t;
    } else {
      var v := ChildTree(n, n.children[ix[0]], t, G);
      u := WalkTree(n.children[ix[0]], ix[1..], v, G);
    }
  }

  /** A node that looks like a tree reaches no cycle. */
  lemma {:induction false} TreeIsAcyclic(n: Node, t: Json, G: set<Node>)
    requires Graph(G) && Unfolds(n, t, G)
    ensures !Cyclic(n, G)
  {
    hide Graph, Unfolds;
    forall ix: seq<nat>, i: nat ensures !Returns(n, ix, i, G) {
      if Returns(n, ix, i, G) {
        WalkSplit(n, ix, i, G);
        var u := WalkTree(n, ix[..i], t, G);
        var w := WalkTree(End(n, ix[..i], G), ix[i..], u, G);
        OneTree(End(n, ix, G), u, w, G);
      }
    }
  }

  // ---- the text printed so far -------------------------------------------------------------------

  /** The text of the first k of n items. */
  function ItemsDone(items: seq<Json>, k: nat, n: nat, f: Flags, depth: nat): seq<byte>
    requires k <= |items| && k <= n && forall i :: 0 <= i < |items| ==> Printable(items[i])
    decreases k
  {
    if k == 0 then []
    else ItemsDone(items, k - 1, n, f, depth) + Text(items[k - 1], f, depth + 1) + Comma(f, depth, n - k)
  }

  lemma {:induction false} ItemsDoneStep(items: seq<Json>, k: nat, f: Flags, depth: nat)
    requires k < |items| && forall i :: 0 <= i < |items| ==> Printable(items[i])
    ensures ItemsDone(items, k, |items|, f, depth) + ItemsText(items[k..], f, depth)
         == ItemsDone(items, k + 1, |items|, f, depth) + ItemsText(items[k + 1..], f, depth)
  {
    hide Text, Comma, Printable;
    assert items[k..][1..] == items[k + 1..];
    var a, b, c, d := ItemsDone(items, k, |items|, f, depth), Text(items[k], f, depth + 1), Comma(f, depth, |items| - k - 1), ItemsText(items[k + 1..], f, depth);
    assert a + (b + c + d) == a + b + c + d;
  }

  lemma {:induction false} ItemsDoneAll(items: seq<Json>, k: nat, f: Flags, depth: nat)
    requires k <= |items| && forall i :: 0 <= i < |items| ==> Printable(items[i])
    ensures ItemsDone(items, k, |items|, f, depth) + ItemsText(items[k..], f, depth) == ItemsText(items, f, depth)
    decreases k
  {
    hide Text, Comma, Printable;
    if k == 0 {
      assert items[0..] == items;
      assert [] + ItemsText(items, f, depth) == ItemsText(items, f, depth);
    } else {
      ItemsDoneStep(items, k - 1, f, depth);
      ItemsDoneAll(items, k - 1, f, depth);
    }
  }

  /** Items beyond the first k do not matter. */
  lemma {:induction false} ItemsDoneSnoc(items: seq<Json>, t: Json, k: nat, n: nat, f: Flags, depth: nat)
    requires k <= |items| && k <= n && Printable(t) && forall i :: 0 <= i < |items| ==> Printable(items[i])
    ensures forall i :: 0 <= i < |items + [t]| ==> Printable((items + [t])[i])
    ensures ItemsDone(items + [t], k, n, f, depth) == ItemsDone(items, k, n, f, depth)
    decreases k
  {
    hide Text, Comma, Printable;
    if k > 0 { ItemsDoneSnoc(items, t, k - 1, n, f, depth); }
  }

  ghost predicate Values(fields: seq<Field>)
  {
    forall i :: 0 <= i < |fields| ==> Valid(fields[i].key) && Printable(fields[i].value)
  }

  /** The text of the first k fields in the order. */
  function FieldsDone(fields: seq<Field>, order: seq<nat>, k: nat, f: Flags, depth: nat): seq<byte>
    requires k <= |order| && (forall i :: 0 <= i < |order| ==> order[i] < |fields|) && Values(fields)
    decreases k
  {
    if k == 0 then []
    else
      var x := fields[order[k - 1]];
      FieldsDone(fields, order, k - 1, f, depth)
      + (StringText(x.key, f) + Separator(f) + Text(x.value, f, depth + 1) + Comma(f, depth, |order| - k))
  }

  lemma {:induction false} FieldsDoneAll(fields: seq<Field>, order: seq<nat>, k: nat, f: Flags, depth: nat)
    requires k <= |order| && (forall i :: 0 <= i < |order| ==> order[i] < |fields|) && Values(fields)
    ensures FieldsDone(fields, order, k, f, depth) + FieldsText(fields, order[k..], f, depth) == FieldsText(fields, order, f, depth)
    decreases k
  {
    hide Text, Comma, Printable, StringText, Separator, Valid;
    if k == 0 {
      assert order[0..] == order;
      assert [] + FieldsText(fields, order, f, depth) == FieldsText(fields, order, f, depth);
    } else {
      FieldsDoneAll(fields, order, k - 1, f, depth);
      assert order[k - 1..][1..] == order[k..];
      var x := fields[order[k - 1]];
      var a := FieldsDone(fields, order, k - 1, f, depth);
      var b := StringText(x.key, f) + Separator(f) + Text(x.value, f, depth + 1) + Comma(f, depth, |order| - k);
      assert a + (b + FieldsText(fields, order[k..], f, depth)) == a + b + FieldsText(fields, order[k..], f, depth);
    }
  }

  /** A field not among the first k may change. */
  lemma {:induction false} FieldsDoneOther(fields: seq<Field>, order: seq<nat>, k: nat, m: nat, x: Field, f: Flags, depth: nat)
    requires k <= |order| && (forall i :: 0 <= i < |order| ==> order[i] < |fields|) && Values(fields)
    requires m < |fields| && Valid(x.key) && Printable(x.value) && forall i :: 0 <= i < k ==> order[i] != m
    ensures Values(fields[m := x]) && FieldsDone(fields[m := x], order, k, f, depth) == FieldsDone(fields, order, k, f, depth)
    decreases k
  {
    hide Text, Comma, Printable, StringText, Separator, Valid;
    if k > 0 { FieldsDoneOther(fields, order, k - 1, m, x, f, depth); }
  }

  /** The order does not depend on the values. */
  lemma {:induction false} InsertSame(a: seq<Field>, b: seq<Field>, k: nat, order: seq<nat>, f: Flags)
    requires SameKeys(a, b) && k < |a| && forall i :: 0 <= i < |order| ==> order[i] < |a|
    ensures Insert(a, k, order, f) == Insert(b, k, order, f)
    decreases |order|
  {
    hide KeyLeq;
    if |order| > 0 { InsertSame(a, b, k, order[1..], f); }
  }

  lemma {:induction false} SortedSame(a: seq<Field>, b: seq<Field>, n: nat, f: Flags)
    requires SameKeys(a, b) && n <= |a|
    ensures Sorted(a, n, f) == Sorted(b, n, f)
    decreases n
  {
    hide Insert, Sorted;
    if n > 0 {
      SortedSame(a, b, n - 1, f);
      InsertSame(a, b, n - 1, Sorted(a, n - 1, f), f);
      SortedStep(a, n, f);
      SortedStep(b, n, f);
    } else {
      SortedNone(a, f);
      SortedNone(b, f);
    }
  }

  lemma {:induction false} SortedStep(a: seq<Field>, n: nat, f: Flags)
    requires 0 < n <= |a|
    ensures Sorted(a, n, f) == Insert(a, n - 1, Sorted(a, n - 1, f), f)
  {
  }

  lemma {:induction false} SortedNone(a: seq<Field>, f: Flags)
    ensures Sorted(a, 0, f) == []
  {
  }

  lemma {:induction false} OrderSame(a: seq<Field>, b: seq<Field>, f: Flags)
    requires SameKeys(a, b)
    ensures KeyOrder(a, f) == KeyOrder(b, f)
  {
    SortedSame(a, b, |a|, f);
  }

  /** Every index is somewhere in the order. */
  lemma {:induction false} InOrderSomewhere(fields: seq<Field>, f: Flags, i: nat)
    requires i < |fields|
    ensures exists p :: 0 <= p < |fields| && KeyOrder(fields, f)[p] == i
  {
    hide KeyOrder;
    OrderIsPermutation(fields, f);
    assert Identity(|fields|)[i] == i;
    assert i in multiset(Identity(|fields|));
    assert i in KeyOrder(fields, f);
  }

  lemma {:induction false} SpacesAdd(m: nat, n: nat)
    ensures Spaces(m) + Spaces(n) == Spaces(m + n)
    decreases n
  {
    if n == 0 {
      assert Spaces(m) + [] == Spaces(m);
    } else {
      SpacesAdd(m, n - 1);
      assert Spaces(m) + (Spaces(n - 1) + [0x20]) == Spaces(m) + Spaces(n - 1) + [0x20];
    }
  }

  /** dump_indent. */
  method DumpIndent(f: Flags, depth: nat, space: bool, sink: Sink)
    modifies sink
    ensures sink.text == old(sink.text) + Indent(f, depth, space)
  {
    hide Spaces;
    if f.indent > 0 {
      sink.Dump([0x0A]);
      SpacesAdd(0, 0);
      ghost var base := sink.text;
      NoSpaces(base);
      for i := 0 to depth
        invariant sink.text == base + Spaces(i * f.indent)
      {
        sink.Dump(Spaces(f.indent));
        SpacesAdd(i * f.indent, f.indent);
        assert i * f.indent + f.indent == (i + 1) * f.indent;
        Associative(base, Spaces(i * f.indent), Spaces(f.indent));
      }
      Associative(old(sink.text), [0x0A], Spaces(depth * f.indent));
    } else if space && !f.compact {
      sink.Dump([0x20]);
    } else {
      assert sink.text + [] == sink.text;
    }
  }

  lemma {:induction false} NoSpaces(t: seq<byte>)
    ensures t + Spaces(0) == t
  {
  }

  /** What follows an item before which `remaining` others are left. */
  method DumpComma(f: Flags, depth: nat, remaining: nat, sink: Sink)
    modifies sink
    ensures sink.text == old(sink.text) + Comma(f, depth, remaining)
  {
    hide Indent;
    if remaining > 0 {
      sink.Dump([0x2C]);
      DumpIndent(f, depth + 1, true, sink);
      Associative(old(sink.text), [0x2C], Indent(f, depth + 1, true));
    } else {
      DumpIndent(f, depth, false, sink);
    }
  }

  // ---- the visited flags ----------------------------------------------------------------------------

  /** m was passed on the walk, before its end. */
  ghost predicate OnWalk(m: Node, root: Node, ix: seq<nat>, G: set<Node>)
    reads G`children
  {
    exists j: nat :: j < |ix| && Walk(root, ix[..j], G) && End(root, ix[..j], G) == m
  }

  /** The flags are set on the containers being dumped: those above the current node. */
  ghost predicate Marked(root: Node, ix: seq<nat>, G: set<Node>)
    reads G`children, G`visited
  {
    forall m :: m in G ==> (m.visited <==> OnWalk(m, root, ix, G))
  }

  lemma {:induction false} OnLongerWalk(m: Node, root: Node, ix: seq<nat>, k: nat, G: set<Node>)
    requires Walk(root, ix, G)
    ensures OnWalk(m, root, ix + [k], G) <==> OnWalk(m, root, ix, G) || m == End(root, ix, G)
  {
    var jx := ix + [k];
    assert jx[..|ix|] == ix;
    if OnWalk(m, root, ix, G) {
      var j: nat :| j < |ix| && Walk(root, ix[..j], G) && End(root, ix[..j], G) == m;
      assert jx[..j] == ix[..j];
    }
    if OnWalk(m, root, jx, G) {
      var j: nat :| j < |jx| && Walk(root, jx[..j], G) && End(root, jx[..j], G) == m;
      if j < |ix| { assert jx[..j] == ix[..j]; }
    }
  }

  lemma {:induction false} MarkedBelow(root: Node, ix: seq<nat>, k: nat, G: set<Node>)
    requires Walk(root, ix, G)
    requires forall m :: m in G ==> (m.visited <==> OnWalk(m, root, ix, G) || m == End(root, ix, G))
    ensures Marked(root, ix + [k], G)
  {
    hide OnWalk;
    forall m | m in G ensures m.visited <==> OnWalk(m, root, ix + [k], G) { OnLongerWalk(m, root, ix, k, G); }
  }

  /** A node met again closes a cycle. */
  lemma {:induction false} MetAgain(root: Node, ix: seq<nat>, G: set<Node>)
    requires Walk(root, ix, G) && OnWalk(End(root, ix, G), root, ix, G)
    ensures Cyclic(root, G)
  {
    var j: nat :| j < |ix| && Walk(root, ix[..j], G) && End(root, ix[..j], G) == End(root, ix, G);
    assert Returns(root, ix, j, G);
  }

  ghost function Unmarked(G: set<Node>): set<Node>
    reads G`visited
  {
    set m | m in G && !m.visited
  }

  /** do_dump.  It fails only when a cycle can be reached from the value that the
      whole dump began with; otherwise it prints the text of the tree that the value
      looks like, and the flags are as they were. */
  method DoDump(n: Node, f: Flags, depth: nat, sink: Sink, ghost G: set<Node>, ghost root: Node, ghost ix: seq<nat>)
    returns (ok: bool, ghost t: Json)
    requires Graph(G) && Walk(root, ix, G) && End(root, ix, G) == n && Marked(root, ix, G)
    modifies G`visited, sink
    ensures ok ==> Unfolds(n, t, G) && Printable(t) && sink.text == old(sink.text) + Text(t, f, depth)
    ensures ok ==> forall m :: m in G ==> m.visited == old(m.visited)
    ensures !ok ==> Cyclic(root, G) && forall m :: m in G && m.visited ==> old(m.visited)
    decreases Unmarked(G), 1
  {
    hide Text, Printable, OnWalk, Valid, Unfolds;
    WalkEndsInside(root, ix, G);
    if n.kind.Leaf? {
      t := n.kind.v;
      LeafUnfolds(n, G);
      ok := DumpLeaf(n.kind.v, f, depth, sink);
    } else if n.visited {
      MetAgain(root, ix, G);
      n.visited := false;
      ok, t := false, Null;
    } else {
      ok, t := DumpContainer(n, f, depth, sink, G, root, ix);
    }
  }

  lemma {:induction false} LeafUnfolds(n: Node, G: set<Node>)
    requires Graph(G) && n in G && n.kind.Leaf?
    ensures Unfolds(n, n.kind.v, G) && Printable(n.kind.v) && IsLeafValue(n.kind.v)
  {
  }

  /** A container that is not being dumped already, between setting and clearing its flag. */
  method DumpContainer(n: Node, f: Flags, depth: nat, sink: Sink, ghost G: set<Node>, ghost root: Node, ghost ix: seq<nat>)
    returns (ok: bool, ghost t: Json)
    requires Graph(G) && Walk(root, ix, G) && End(root, ix, G) == n && n in G && Marked(root, ix, G)
    requires !n.kind.Leaf? && !n.visited
    modifies G`visited, sink
    ensures ok ==> Unfolds(n, t, G) && Printable(t) && sink.text == old(sink.text) + Text(t, f, depth)
    ensures ok ==> forall m :: m in G ==> m.visited == old(m.visited)
    ensures !ok ==> Cyclic(root, G) && forall m :: m in G && m.visited ==> old(m.visited)
    decreases Unmarked(G), 0
  {
    hide Text, Printable, OnWalk, Valid, Unfolds;
    ghost var before := Unmarked(G);
    assert n in before;
    n.visited := true;
    assert n !in Unmarked(G) && Unmarked(G) <= before;
    if n.kind.ArrayKind? {
      ok, t := DumpArray(n, f, depth, sink, G, root, ix);
    } else {
      ok, t := DumpObject(n, f, depth, sink, G, root, ix);
    }
    n.visited := false;
  }

  lemma {:induction false} WalkEndsInside(root: Node, ix: seq<nat>, G: set<Node>)
    requires Walk(root, ix, G)
    ensures End(root, ix, G) in G
    decreases |ix|
  {
    if ix != [] { WalkEndsInside(root.children[ix[0]], ix[1..], G); }
  }

  method DumpLeaf(v: Json, f: Flags, depth: nat, sink: Sink) returns (ok: bool)
    requires Printable(v) && IsLeafValue(v)
    modifies sink
    ensures ok && sink.text == old(sink.text) + Text(v, f, depth)
  {
    hide Valid, StringText, Decimal;
    ok := true;
    match v {
      case Null => sink.Dump([0x6E, 0x75, 0x6C, 0x6C]);
      case True => sink.Dump([0x74, 0x72, 0x75, 0x65]);
      case False => sink.Dump([0x66, 0x61, 0x6C, 0x73, 0x65]);
      case Integer(i) => sink.Dump(Decimal(i));
      case String(s) => ok := DumpString(s, f, sink);
      case _ =>
    }
  }

  /** The array branch of do_dump, between setting and clearing the flag. */
  method DumpArray(n: Node, f: Flags, depth: nat, sink: Sink, ghost G: set<Node>, ghost root: Node, ghost ix: seq<nat>)
    returns (ok: bool, ghost t: Json)
    requires Graph(G) && Walk(root, ix, G) && End(root, ix, G) == n && n in G && n.kind.ArrayKind?
    requires forall m :: m in G ==> (m.visited <==> OnWalk(m, root, ix, G) || m == n)
    modifies G`visited, sink
    ensures ok ==> Unfolds(n, t, G) && Printable(t) && sink.text == old(sink.text) + Text(t, f, depth)
    ensures ok ==> forall m :: m in G ==> m.visited == old(m.visited)
    ensures !ok ==> Cyclic(root, G) && forall m :: m in G && m.visited ==> old(m.visited)
    decreases Unmarked(G), 3
  {
    hide Text, Printable, OnWalk, ItemsDone, Indent, Unfolds, Graph, Walk, Cyclic, Comma, Unmarked, End;
    ghost var text0 := sink.text;
    ghost var items: seq<Json> := [];
    ok, t := true, Array([]);
    sink.Dump([0x5B]);
    if |n.children| == 0 {
      sink.Dump([0x5D]);
      ArrayDone(n, items, text0, sink.text, f, depth, G);
      return;
    }
    DumpIndent(f, depth + 1, false, sink);
    ghost var base := sink.text;
    NothingDone(base, |n.children|, f, depth);
    var i := 0;
    while i < |n.children|
      invariant 0 <= i == |items| <= |n.children| && ItemsSoFar(n, items, G)
      invariant sink.text == base + ItemsDone(items, i, |n.children|, f, depth)
      invariant forall m :: m in G ==> m.visited == old(m.visited)
    {
      ghost var u;
      ok, u := DumpItem(n, i, f, depth, |n.children| - 1 - i, sink, G, root, ix);
      if !ok { return; }
      ItemDone(n, items, u, base, f, depth, G);
      items := items + [u];
      i := i + 1;
    }
    t := Array(items);
    sink.Dump([0x5D]);
    ArrayDone(n, items, text0, sink.text, f, depth, G);
  }

  /** One element and what follows. */
  method DumpItem(n: Node, i: nat, f: Flags, depth: nat, remaining: nat, sink: Sink,
                  ghost G: set<Node>, ghost root: Node, ghost ix: seq<nat>)
    returns (ok: bool, ghost u: Json)
    requires Graph(G) && Walk(root, ix, G) && End(root, ix, G) == n && n in G && i < |n.children|
    requires forall m :: m in G ==> (m.visited <==> OnWalk(m, root, ix, G) || m == n)
    modifies G`visited, sink
    ensures ok ==> Unfolds(n.children[i], u, G) && Printable(u)
    ensures ok ==> sink.text == old(sink.text) + Text(u, f, depth + 1) + Comma(f, depth, remaining)
    ensures ok ==> forall m :: m in G ==> m.visited == old(m.visited)
    ensures !ok ==> Cyclic(root, G) && forall m :: m in G && m.visited ==> old(m.visited)
    decreases Unmarked(G), 2
  {
    hide Text, Printable, OnWalk, Unfolds, Comma;
    assert n.children[i] in G;
    WalkOn(root, ix, i, G);
    MarkedBelow(root, ix, i, G);
    ok, u := DoDump(n.children[i], f, depth + 1, sink, G, root, ix + [i]);
    if ok { DumpComma(f, depth, remaining, sink); }
  }

  ghost predicate ItemsSoFar(n: Node, items: seq<Json>, G: set<Node>)
    reads G`children, G`keys, n`children
  {
    |items| <= |n.children|
    && forall i :: 0 <= i < |items| ==> Unfolds(n.children[i], items[i], G) && Printable(items[i])
  }

  lemma {:induction false} NothingDone(base: seq<byte>, n: nat, f: Flags, depth: nat)
    ensures base + ItemsDone([], 0, n, f, depth) == base
  {
  }

  /** One more item printed. */
  lemma {:induction false} ItemDone(n: Node, items: seq<Json>, u: Json, base: seq<byte>, f: Flags, depth: nat, G: set<Node>)
    requires ItemsSoFar(n, items, G) && |items| < |n.children| && Unfolds(n.children[|items|], u, G) && Printable(u)
    ensures ItemsSoFar(n, items + [u], G)
    ensures var k, c := |items|, |n.children|;
      base + ItemsDone(items, k, c, f, depth) + Text(u, f, depth + 1) + Comma(f, depth, c - 1 - k)
      == base + ItemsDone(items + [u], k + 1, c, f, depth)
  {
    hide Text, Printable, Comma, Unfolds;
    var k, c := |items|, |n.children|;
    ItemsDoneSnoc(items, u, k, c, f, depth);
    assert (items + [u])[k] == u;
    var a, b, d := ItemsDone(items, k, c, f, depth), Text(u, f, depth + 1), Comma(f, depth, c - 1 - k);
    assert base + a + b + d == base + (a + b + d);
  }

  /** All of an array printed. */
  lemma {:induction false} ArrayDone(n: Node, items: seq<Json>, text0: seq<byte>, text1: seq<byte>, f: Flags, depth: nat, G: set<Node>)
    requires ItemsSoFar(n, items, G) && |items| == |n.children| && n in G && n.kind.ArrayKind?
    requires text1 == if |items| == 0 then text0 + [0x5B] + [0x5D]
      else text0 + [0x5B] + Indent(f, depth + 1, false) + ItemsDone(items, |items|, |items|, f, depth) + [0x5D]
    ensures Unfolds(n, Array(items), G) && Printable(Array(items)) && text1 == text0 + Text(Array(items), f, depth)
  {
    hide ItemsDone, ItemsText, Indent;
    ItemsDoneAll(items, |items|, f, depth);
    NoItems(items, f, depth);
    var a, b := Indent(f, depth + 1, false), ItemsText(items, f, depth);
    if |items| == 0 {
      assert text0 + [0x5B] + [0x5D] == text0 + ([0x5B] + [] + [0x5D]);
    } else {
      assert text0 + [0x5B] + a + b + [0x5D] == text0 + ([0x5B] + (a + b) + [0x5D]);
    }
  }

  lemma {:induction false} NoItems(items: seq<Json>, f: Flags, depth: nat)
    requires forall i :: 0 <= i < |items| ==> Printable(items[i])
    ensures ItemsDone(items, |items|, |items|, f, depth) + ItemsText(items[|items|..], f, depth) == ItemsDone(items, |items|, |items|, f, depth)
  {
    hide ItemsDone;
    assert items[|items|..] == [];
  }

  /** The pairs of an object as far as they are printed: the first i in the order have
      their values. */
  ghost predicate FieldsSoFar(n: Node, fields: seq<Field>, order: seq<nat>, i: nat, G: set<Node>)
    reads G`children, G`keys, n`children, n`keys
  {
    && |n.keys| == |n.children| && SameKeys(fields, n.keys) && Values(fields) && i <= |order|
    && (forall j :: 0 <= j < |order| ==> order[j] < |fields|)
    && forall j :: 0 <= j < i ==> Unfolds(n.children[order[j]], fields[order[j]].value, G)
  }

  /** The object branch of do_dump, between setting and clearing the flag.  Without a
      sorting flag the pairs come in iteration order. */
  method DumpObject(n: Node, f: Flags, depth: nat, sink: Sink, ghost G: set<Node>, ghost root: Node, ghost ix: seq<nat>)
    returns (ok: bool, ghost t: Json)
    requires Graph(G) && Walk(root, ix, G) && End(root, ix, G) == n && n in G && n.kind.ObjectKind?
    requires forall m :: m in G ==> (m.visited <==> OnWalk(m, root, ix, G) || m == n)
    modifies G`visited, sink
    ensures ok ==> Unfolds(n, t, G) && Printable(t) && sink.text == old(sink.text) + Text(t, f, depth)
    ensures ok ==> forall m :: m in G ==> m.visited == old(m.visited)
    ensures !ok ==> Cyclic(root, G) && forall m :: m in G && m.visited ==> old(m.visited)
    decreases Unmarked(G), 3
  {
    hide Text, Printable, OnWalk, FieldsDone, Indent, Unfolds, KeyOrder, FieldsSoFar, Valid, Values, Graph, Walk, End, Cyclic, StringText, Separator, Comma;
    ghost var text0, fields := sink.text, n.keys;
    var order := KeyOrder(n.keys, f);
    NoFieldsYet(n, order, f, depth, G);
    ok, t := true, Object([]);
    sink.Dump([0x7B]);
    if |n.children| == 0 {
      sink.Dump([0x7D]);
      ObjectDone(n, fields, order, text0, sink.text, f, depth, G);
      return;
    }
    DumpIndent(f, depth + 1, false, sink);
    ghost var base := sink.text;
    assert base + [] == base;
    var i := 0;
    while i < |n.children|
      invariant 0 <= i <= |n.children| == |order| && FieldsSoFar(n, fields, order, i, G)
      invariant Values(fields) && |fields| == |n.keys| && (forall j :: 0 <= j < |order| ==> order[j] < |fields|)
      invariant sink.text == base + FieldsDone(fields, order, i, f, depth)
      invariant forall m :: m in G ==> m.visited == old(m.visited)
    {
      ghost var u;
      ok, u := DumpField(n, n.keys[order[i]].key, order[i], f, depth, |n.children| - 1 - i, sink, G, root, ix);
      if !ok { return; }
      FieldDone(n, fields, order, i, u, base, f, depth, G);
      fields := fields[order[i] := Field(n.keys[order[i]].key, n.keys[order[i]].serial, u)];
      i := i + 1;
    }
    t := Object(fields);
    sink.Dump([0x7D]);
    ObjectDone(n, fields, order, text0, sink.text, f, depth, G);
  }

  /** One pair: the key, the value found under it, and what follows. */
  method DumpField(n: Node, key: seq<byte>, ghost k: nat, f: Flags, depth: nat, remaining: nat, sink: Sink,
                   ghost G: set<Node>, ghost root: Node, ghost ix: seq<nat>)
    returns (ok: bool, ghost u: Json)
    requires Graph(G) && Walk(root, ix, G) && End(root, ix, G) == n && n in G && n.kind.ObjectKind?
    requires k < |n.keys| && n.keys[k].key == key
    requires forall m :: m in G ==> (m.visited <==> OnWalk(m, root, ix, G) || m == n)
    modifies G`visited, sink
    ensures ok ==> Unfolds(n.children[k], u, G) && Printable(u) && Valid(key)
    ensures ok ==> sink.text == old(sink.text) + (StringText(key, f) + Separator(f) + Text(u, f, depth + 1) + Comma(f, depth, remaining))
    ensures ok ==> forall m :: m in G ==> m.visited == old(m.visited)
    ensures !ok ==> Cyclic(root, G) && forall m :: m in G && m.visited ==> old(m.visited)
    decreases Unmarked(G), 2
  {
    hide Text, Printable, OnWalk, Unfolds, Valid, StringText, Separator, Comma;
    KeyIsClean(n, k, G);
    ghost var text0 := sink.text;
    // the result of dump_string is ignored here
    var _ := DumpString(key, f, sink);
    sink.Dump(Separator(f));
    var at := Find(n.keys, key);
    assert at == k;
    assert n.children[at] in G;
    WalkOn(root, ix, at, G);
    MarkedBelow(root, ix, at, G);
    ok, u := DoDump(n.children[at], f, depth + 1, sink, G, root, ix + [at]);
    if !ok { return; }
    DumpComma(f, depth, remaining, sink);
    Pieces(text0, StringText(key, f), Separator(f), Text(u, f, depth + 1), Comma(f, depth, remaining));
  }

  lemma {:induction false} Pieces(a: seq<byte>, b: seq<byte>, c: seq<byte>, d: seq<byte>, e: seq<byte>)
    ensures a + b + c + d + e == a + (b + c + d + e)
  {
  }

  lemma {:induction false} KeyIsClean(n: Node, k: nat, G: set<Node>)
    requires Graph(G) && n in G && n.kind.ObjectKind? && k < |n.keys|
    ensures Valid(n.keys[k].key) && 0 !in n.keys[k].key && Find(n.keys, n.keys[k].key) == k && |n.keys| == |n.children|
  {
    hide Valid, Find;
    FindDistinct(n.keys, k);
  }

  lemma {:induction false} FindDistinct(fields: seq<Field>, k: nat)
    requires DistinctKeys(fields) && k < |fields|
    ensures Find(fields, fields[k].key) == k
  {
    hide Find;
    var j := Find(fields, fields[k].key);
    assert j >= 0 && fields[j].key == fields[k].key;
  }

  lemma {:induction false} NoFieldsYet(n: Node, order: seq<nat>, f: Flags, depth: nat, G: set<Node>)
    requires Graph(G) && n in G && n.kind.ObjectKind? && order == KeyOrder(n.keys, f)
    ensures Values(n.keys) && |order| == |n.keys| == |n.children| && FieldsSoFar(n, n.keys, order, 0, G)
    ensures FieldsDone(n.keys, order, 0, f, depth) == []
  {
    hide KeyOrder, Valid;
  }

  /** One more pair printed. */
  lemma {:induction false} FieldDone(n: Node, fields: seq<Field>, order: seq<nat>, i: nat, u: Json, base: seq<byte>, f: Flags, depth: nat, G: set<Node>)
    requires Graph(G) && n in G && n.kind.ObjectKind? && order == KeyOrder(n.keys, f)
    requires FieldsSoFar(n, fields, order, i, G) && i < |order|
    requires Unfolds(n.children[order[i]], u, G) && Printable(u) && Valid(n.keys[order[i]].key)
    ensures var fields' := fields[order[i] := Field(n.keys[order[i]].key, n.keys[order[i]].serial, u)];
      FieldsSoFar(n, fields', order, i + 1, G) && Values(fields')
      && base + FieldsDone(fields, order, i, f, depth)
         + (StringText(n.keys[order[i]].key, f) + Separator(f) + Text(u, f, depth + 1) + Comma(f, depth, |order| - 1 - i))
         == base + FieldsDone(fields', order, i + 1, f, depth)
  {
    hide Text, Printable, Comma, Unfolds, KeyOrder, Valid, StringText, Separator;
    OrderIsDistinct(n.keys, f);
    var x := Field(n.keys[order[i]].key, n.keys[order[i]].serial, u);
    FieldsDoneOther(fields, order, i, order[i], x, f, depth);
    var fields' := fields[order[i] := x];
    forall j | 0 <= j < i + 1 ensures Unfolds(n.children[order[j]], fields'[order[j]].value, G) {
      if j < i { assert order[j] != order[i]; }
    }
    var a := FieldsDone(fields, order, i, f, depth);
    var b := StringText(x.key, f) + Separator(f) + Text(u, f, depth + 1) + Comma(f, depth, |order| - 1 - i);
    Associative(base, a, b);
  }

  /** All of an object printed. */
  lemma {:induction false} ObjectDone(n: Node, fields: seq<Field>, order: seq<nat>, text0: seq<byte>, text1: seq<byte>, f: Flags, depth: nat, G: set<Node>)
    requires Graph(G) && n in G && n.kind.ObjectKind? && order == KeyOrder(n.keys, f) && |order| == |n.keys|
    requires FieldsSoFar(n, fields, order, |order|, G)
    requires text1 == if |fields| == 0 then text0 + [0x7B] + [0x7D]
      else text0 + [0x7B] + Indent(f, depth + 1, false) + FieldsDone(fields, order, |order|, f, depth) + [0x7D]
    ensures Unfolds(n, Object(fields), G) && Printable(Object(fields)) && text1 == text0 + Text(Object(fields), f, depth)
  {
    hide FieldsDone, FieldsText, Indent, KeyOrder, Valid;
    forall i | 0 <= i < |fields| ensures Unfolds(n.children[i], fields[i].value, G) {
      InOrderSomewhere(n.keys, f, i);
    }
    assert DistinctKeys(fields);
    OrderSame(fields, n.keys, f);
    FieldsDoneAll(fields, order, |order|, f, depth);
    NoneLeft(fields, order, f, depth);
    var a, b := Indent(f, depth + 1, false), FieldsText(fields, order, f, depth);
    if |fields| == 0 {
      assert text0 + [0x7B] + [0x7D] == text0 + ([0x7B] + [] + [0x7D]);
    } else {
      assert text0 + [0x7B] + a + b + [0x7D] == text0 + ([0x7B] + (a + b) + [0x7D]);
    }
  }

  lemma {:induction false} NoneLeft(fields: seq<Field>, order: seq<nat>, f: Flags, depth: nat)
    requires (forall i :: 0 <= i < |order| ==> order[i] < |fields|) && Values(fields)
    ensures FieldsDone(fields, order, |order|, f, depth) + FieldsText(fields, order[|order|..], f, depth) == FieldsDone(fields, order, |order|, f, depth)
  {
    hide FieldsDone;
    assert order[|order|..] == [];
  }

  // ---- whole dumps ---------------------------------------------------------------------------------------

  /** The call from json_dumps: it fails exactly when a cycle can be reached, and in
      either case every visited flag is clear again. */
  method DumpRoot(root: Node, f: Flags, sink: Sink, ghost G: set<Node>) returns (ok: bool, ghost t: Json)
    requires Graph(G) && root in G && forall m :: m in G ==> !m.visited
    modifies G`visited, sink
    ensures ok <==> !Cyclic(root, G)
    ensures ok ==> Unfolds(root, t, G) && Printable(t) && sink.text == old(sink.text) + Text(t, f, 0)
    ensures forall m :: m in G ==> !m.visited
  {
    hide Text, Printable, Unfolds, Graph;
    ok, t := DoDump(root, f, 0, sink, G, root, []);
    if ok { TreeIsAcyclic(root, t, G); }
  }

  /** json_dump_callback: a root that is neither array nor object needs JSON_ENCODE_ANY. */
  method DumpCallback(root: Node, f: Flags, encodeAny: bool, sink: Sink, ghost G: set<Node>) returns (ok: bool, ghost t: Json)
    requires Graph(G) && root in G && forall m :: m in G ==> !m.visited
    modifies G`visited, sink
    ensures ok <==> (encodeAny || !root.kind.Leaf?) && !Cyclic(root, G)
    ensures ok ==> Unfolds(root, t, G) && Printable(t) && sink.text == old(sink.text) + Text(t, f, 0)
    ensures forall m :: m in G ==> !m.visited
  {
    hide *;
    if !encodeAny && root.kind.Leaf? { return false, Null; }
    ok, t := DumpRoot(root, f, sink, G);
  }
}
