/**
 * The flattened format as sections 5.2 to 5.5 of the Devicetree Specification lay it out, byte for byte: a
 * node is printed by itself, with the names of its properties found in the finished string block.
 */
module DevicetreeFormat {
  import opened Bytes
  import opened Devicetree
  import P = DevicetreeParser

  type Table = map<Name, nat>

  /** Zeros up to the next multiple of four. */
  function Filled(b: seq<byte>): seq<byte> {
    if |b| % 4 == 0 then b else b + Zeros(4 - |b| % 4)
  }

  function Where(at: Table, name: Name): nat { if name in at then at[name] else 0 }

  /** FDT_PROP, the length, the offset of the name, the value. */
  function PlainProps(ps: seq<Property>, at: Table): seq<byte> {
    if ps == [] then []
    else [0, 0, 0, 3] + Be32(|ps[0].data|) + Be32(Where(at, ps[0].name)) + Filled(ps[0].data) + PlainProps(ps[1..], at)
  }

  /** FDT_BEGIN_NODE, the name with its NUL, the properties, the children, FDT_END_NODE. */
  function PlainNode(n: Node, at: Table): seq<byte>
    decreases n, 1
  {
    [0, 0, 0, 1] + Filled(n.name + [0]) + PlainProps(n.props, at) + PlainNodes(n.children, at) + [0, 0, 0, 2]
  }

  function PlainNodes(ns: seq<Node>, at: Table): seq<byte>
    decreases ns, 0
  {
    if ns == [] then [] else PlainNode(ns[0], at) + PlainNodes(ns[1..], at)
  }

  lemma SmallBe32()
    ensures Be32(1) == [0, 0, 0, 1] && Be32(2) == [0, 0, 0, 2] && Be32(3) == [0, 0, 0, 3] && Be32(9) == [0, 0, 0, 9]
  {
    assert Be(0, 1) == [0] && Be(0, 2) == [0, 0] && Be(0, 3) == [0, 0, 0];
  }

  lemma FilledIsPadded(b: seq<byte>)
    ensures Filled(b) == b + Pad(|b|)
  {
    if |b| % 4 == 0 {
      assert Align4(|b|) == |b| && b + Zeros(0) == b;
    } else {
      assert Align4(|b|) == |b| + 4 - |b| % 4;
    }
  }

  /** `at` has every name of `st`, at the same offset. */
  predicate Extends(at: Table, st: Strings) { forall s :: s in st.offsets ==> s in at && at[s] == st.offsets[s] }

  lemma {:induction false} OffsetsStay(ts: seq<Token>, st: Strings)
    ensures Extends(StringsAfterAll(ts, st).offsets, st)
    decreases |ts|
  {
    if ts == [] {
    } else {
      OffsetsStay(ts[1..], StringsAfter(ts[0], st));
    }
  }

  lemma ExtendsMore(at: Table, st: Strings, ts: seq<Token>)
    requires Extends(at, StringsAfterAll(ts, st))
    ensures Extends(at, st)
  {
    OffsetsStay(ts, st);
  }

  lemma {:induction false} PropsArePlain(ps: seq<Property>, st: Strings, at: Table)
    requires Extends(at, StringsAfterAll(PropTokens(ps), st))
    ensures EmitTokens(PropTokens(ps), st) == PlainProps(ps, at)
    decreases |ps|
  {
    hide Be32, Filled, Pad;
    if ps == [] {
    } else {
      var t, rest := Prop(ps[0]), PropTokens(ps[1..]);
      assert PropTokens(ps) == [t] + rest && PropTokens(ps)[1..] == rest;
      var st' := StringsAfter(t, st);
      ExtendsMore(at, st', rest);
      PropsArePlain(ps[1..], st', at);
      FilledIsPadded(ps[0].data);
      SmallBe32();
      assert OffsetOf(st, ps[0].name) == Where(at, ps[0].name);
      Assoc(Be32(3) + Be32(|ps[0].data|) + Be32(Where(at, ps[0].name)), ps[0].data, Pad(|ps[0].data|));
    }
  }

  lemma {:induction false} NodeIsPlain(n: Node, st: Strings, at: Table)
    requires Extends(at, StringsAfterAll(Flatten(n), st))
    ensures EmitTokens(Flatten(n), st) == PlainNode(n, at)
    decreases n, 1
  {
    hide Be32, Filled, Pad, Extends, EmitTokens, StringsAfterAll, PlainProps;
    var props, kids := PropTokens(n.props), FlattenAll(n.children);
    var st' := StringsAfterAll(props, st);
    EmitNode(n, st);
    ExtendsMore(at, st', kids);
    PropsArePlain(n.props, st, at);
    NodesArePlain(n.children, st', at);
    FilledIsPadded(n.name + [0]);
    SmallBe32();
    Assoc([0, 0, 0, 1], n.name + [0], Pad(|n.name| + 1));
  }

  lemma {:induction false} NodesArePlain(ns: seq<Node>, st: Strings, at: Table)
    requires Extends(at, StringsAfterAll(FlattenAll(ns), st))
    ensures EmitTokens(FlattenAll(ns), st) == PlainNodes(ns, at)
    decreases ns, 0
  {
    if ns == [] {
    } else {
      hide Extends, EmitTokens, StringsAfterAll;
      var first, rest := Flatten(ns[0]), FlattenAll(ns[1..]);
      EmitConcat(first, rest, st);
      ExtendsMore(at, StringsAfterAll(first, st), rest);
      NodeIsPlain(ns[0], st, at);
      NodesArePlain(ns[1..], StringsAfterAll(first, st), at);
    }
  }

  // ── The blob ──────────────────────────────────────────────────────────────

  /** Every property name below a node has an offset. */
  predicate Named(n: Node, at: Table)
    decreases n
  {
    && (forall i :: 0 <= i < |n.props| ==> n.props[i].name in at)
    && (forall i :: 0 <= i < |n.children| ==> Named(n.children[i], at))
  }

  lemma {:induction false} TokensNamed(ts: seq<Token>, st: Strings, k: nat)
    requires k < |ts| && ts[k].Prop?
    ensures ts[k].prop.name in StringsAfterAll(ts, st).offsets
    decreases k
  {
    if k == 0 {
      OffsetsStay(ts[1..], StringsAfter(ts[0], st));
    } else {
      TokensNamed(ts[1..], StringsAfter(ts[0], st), k - 1);
    }
  }

  predicate TokensIn(ts: seq<Token>, at: Table) { forall t :: t in ts && t.Prop? ==> t.prop.name in at }

  lemma {:induction false} TreeNamed(n: Node, at: Table)
    requires TokensIn(Flatten(n), at)
    ensures Named(n, at)
    decreases n, 1
  {
    forall i | 0 <= i < |n.props|
      ensures n.props[i].name in at
    {
      assert Flatten(n)[1 + i] == Prop(n.props[i]);
    }
    NodesNamed(n.children, at);
  }

  lemma {:induction false} NodesNamed(ns: seq<Node>, at: Table)
    requires TokensIn(FlattenAll(ns), at)
    ensures forall i :: 0 <= i < |ns| ==> Named(ns[i], at)
    decreases ns, 0
  {
    if ns == [] {
    } else {
      TreeNamed(ns[0], at);
      NodesNamed(ns[1..], at);
      forall i | 0 <= i < |ns|
        ensures Named(ns[i], at)
      {
        if i > 0 {
          assert ns[i] == ns[1..][i - 1];
        }
      }
    }
  }

  /** Where the blocks of a blob are, by its header. */
  lemma HeaderIsPlain(structB: seq<byte>, strings: seq<byte>)
    requires Blob(structB, strings).Some?
    ensures var b := Blob(structB, strings).value;
      && |b| >= 56 && b[..4] == [0xD0, 0x0D, 0xFE, 0xED] && ReadBe32(b, 4) == |b| && ReadBe32(b, 8) == 56
      && ReadBe32(b, 16) == 40 && ReadBe32(b, 20) == 17 && ReadBe32(b, 24) == 16 && ReadBe32(b, 28) == 0
      && ReadBe32(b, 32) == |strings| && ReadBe32(b, 36) == |structB|
      && ReadBe32(b, 12) == 56 + |Filled(structB)| && |b| == 56 + |Filled(structB)| + |Filled(strings)|
      && At(b, 40, Zeros(16)) && At(b, 56, Filled(structB)) && At(b, 56 + |Filled(structB)|, Filled(strings))
  {
    hide Be, ReadBe32;
    FilledIsPadded(structB);
    FilledIsPadded(strings);
    var off := 56 + |Filled(structB)|;
    var total := off + |Filled(strings)|;
    var h := Header(total, off, |strings|, |structB|);
    var b := Blob(structB, strings).value;
    assert b == h + Zeros(16) + Filled(structB) + Filled(strings);
    AtSplit(b, 0, h + Zeros(16) + Filled(structB), Filled(strings));
    AtSplit(b, 0, h + Zeros(16), Filled(structB));
    AtSplit(b, 0, h, Zeros(16));
    var vs: seq<nat> := [MAGIC, total, 56, off, 40, 17, 16, 0, |strings|, |structB|];
    P.FieldReads(b, 0, vs, 0);
    P.FieldReads(b, 0, vs, 1);
    P.FieldReads(b, 0, vs, 2);
    P.FieldReads(b, 0, vs, 3);
    P.FieldReads(b, 0, vs, 4);
    P.FieldReads(b, 0, vs, 5);
    P.FieldReads(b, 0, vs, 6);
    P.FieldReads(b, 0, vs, 7);
    P.FieldReads(b, 0, vs, 8);
    P.FieldReads(b, 0, vs, 9);
    MagicBytes(b);
  }

  lemma MagicBytes(b: seq<byte>)
    requires |b| >= 4 && ReadBe32(b, 0) == MAGIC
    ensures b[..4] == [0xD0, 0x0D, 0xFE, 0xED]
  {}

  /** A printed tree is such a blob: its structure block is the tree, node by node, and FDT_END; every property
      name stands, NUL-terminated, at its offset of the string block. */
  lemma PrintedIsPlain(root: Node)
    ensures var at := StringsAfterAll(Flatten(root), NO_STRINGS).offsets;
      && StructBlock(root) == PlainNode(root, at) + [0, 0, 0, 9] && Named(root, at)
      && forall name :: name in at ==> At(StringsBlock(root), at[name], name + [0])
  {
    hide PlainNode, EmitTokens;
    var ts := Flatten(root);
    var st := StringsAfterAll(ts, NO_STRINGS);
    NodeIsPlain(root, NO_STRINGS, st.offsets);
    SmallBe32();
    StringsAfterAllOk(ts, NO_STRINGS);
    forall t | t in ts && t.Prop?
      ensures t.prop.name in st.offsets
    {
      var k :| 0 <= k < |ts| && ts[k] == t;
      TokensNamed(ts, NO_STRINGS, k);
    }
    TreeNamed(root, st.offsets);
  }
}
