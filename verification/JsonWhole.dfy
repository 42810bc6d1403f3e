/** json_dumps followed by json_loads. */
module JsonWhole {
  import opened Bits
  import opened JsonString
  import opened JsonText
  import opened JsonParse
  import opened JsonRoundTrip
  import opened JsonDump
  import JsonLoad

  /** Dumping a linked value and loading the text: the dump fails exactly when there is a
      cycle or a leaf is not let through, and otherwise loading fails exactly when it does
      not let the leaf through, and else gives a value equal to the one dumped. */
  method DumpAndLoad(root: Node, f: Flags, encodeAny: bool, lf: LoadFlags, ghost G: set<Node>)
    returns (dumped: bool, ghost t: Json, loaded: bool, v: Json)
    requires Graph(G) && root in G && forall m :: m in G ==> !m.visited
    modifies G`visited
    ensures dumped <==> (encodeAny || !root.kind.Leaf?) && !Cyclic(root, G)
    ensures loaded <==> dumped && (lf.decodeAny || !root.kind.Leaf?)
    ensures dumped ==> Unfolds(root, t, G)
    ensures loaded ==> Equal(t, v)
    ensures forall m :: m in G ==> !m.visited
  {
    hide *;
    var sink := new Sink();
    loaded, v := false, Null;
    dumped, t := DumpCallback(root, f, encodeAny, sink, G);
    if dumped {
      ContainerTree(root, t, G);
      if lf.decodeAny || !root.kind.Leaf? { TextLoads(t, f, lf); } else { TextRefused(t, f, lf); }
      loaded, v := LoadText(sink.text, lf);
    }
  }

  /** json_loads. */
  method LoadText(input: seq<byte>, lf: LoadFlags) returns (ok: bool, v: Json)
    requires 0 !in input
    ensures ok <==> Load(input, lf).Parsed?
    ensures ok ==> v == Load(input, lf).v
  {
    hide *;
    var lexer := new JsonLoad.Lexer(input);
    ok, v := lexer.ReadJson(lf);
  }

  lemma {:induction false} ContainerTree(n: Node, t: Json, G: set<Node>)
    requires Graph(G) && Unfolds(n, t, G)
    ensures n.kind.Leaf? <==> !(t.Array? || t.Object?)
  {
  }

  lemma {:induction false} TextLoads(t: Json, f: Flags, lf: LoadFlags)
    requires Printable(t) && (lf.decodeAny || t.Array? || t.Object?)
    ensures 0 !in Text(t, f, 0) && [] + Text(t, f, 0) == Text(t, f, 0)
    ensures Load(Text(t, f, 0), lf).Parsed? && Equal(t, Load(Text(t, f, 0), lf).v)
  {
    hide *;
    RoundTrip(t, f, lf);
    CleanText(t, f, 0);
    NoZero(Text(t, f, 0));
    assert [] + Text(t, f, 0) == Text(t, f, 0);
  }

  lemma {:induction false} TextRefused(t: Json, f: Flags, lf: LoadFlags)
    requires Printable(t) && !lf.decodeAny && !t.Array? && !t.Object?
    ensures 0 !in Text(t, f, 0) && [] + Text(t, f, 0) == Text(t, f, 0)
    ensures !Load(Text(t, f, 0), lf).Parsed?
  {
    hide *;
    LeafRefused(t, f, lf);
    CleanText(t, f, 0);
    NoZero(Text(t, f, 0));
    assert [] + Text(t, f, 0) == Text(t, f, 0);
  }

  lemma {:induction false} NoZero(s: seq<byte>)
    requires Clean(s)
    ensures 0 !in s
  {
  }
}
