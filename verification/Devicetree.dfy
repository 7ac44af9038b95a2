/** Flattened devicetrees: the tree, its token stream, and the printer that turns
    the tokens into a blob. Names are byte strings of NUL-free ASCII. */
module Devicetree {
  import opened Bytes

  type Name = seq<byte>

  datatype Property = Property(name: Name, data: seq<byte>)
  datatype Node = Node(name: Name, props: seq<Property>, children: seq<Node>)

  const MAGIC: u32 := 0xd00d_feed
  const HEADER_SIZE: nat := 40
  const STRUCT_OFFSET: nat := 56
  const STRUCT_WORD: nat := 14

  predicate IsName(s: Name) { forall i :: 0 <= i < |s| ==> 0 < s[i] < 128 }

  ghost predicate WellNamed(n: Node)
    decreases n
  {
    && IsName(n.name)
    && (forall i :: 0 <= i < |n.props| ==> IsName(n.props[i].name))
    && (forall i :: 0 <= i < |n.children| ==> WellNamed(n.children[i]))
  }

  /** How many 32-bit words `n` bytes take up. */
  function Words(n: nat): (w: nat)
    ensures n <= 4 * w < n + 4
  {
    (n + 3) / 4
  }

  function Align4(n: nat): nat { 4 * Words(n) }

  // ── Tokens ────────────────────────────────────────────────────────────────

  datatype Token = Begin(name: Name) | Prop(prop: Property) | End

  function PropTokens(props: seq<Property>): (t: seq<Token>)
    ensures |t| == |props|
  {
    seq(|props|, i requires 0 <= i < |props| => Prop(props[i]))
  }

  /** The tree in document order: a node's properties come before its children. */
  function Flatten(n: Node): seq<Token>
    decreases n, 1
  {
    [Begin(n.name)] + PropTokens(n.props) + FlattenAll(n.children) + [End]
  }

  function FlattenAll(ns: seq<Node>): seq<Token>
    decreases ns, 0
  {
    if ns == [] then [] else Flatten(ns[0]) + FlattenAll(ns[1..])
  }

  predicate TokenOk(t: Token) {
    match t
    case Begin(name) => IsName(name)
    case Prop(p) => IsName(p.name)
    case End => true
  }

  ghost predicate TokensOk(ts: seq<Token>) {
    forall i :: 0 <= i < |ts| ==> TokenOk(ts[i])
  }

  lemma {:induction false} FlattenOk(n: Node)
    requires WellNamed(n)
    ensures TokensOk(Flatten(n))
    decreases n, 1
  {
    FlattenAllOk(n.children);
  }

  lemma {:induction false} FlattenAllOk(ns: seq<Node>)
    requires forall i :: 0 <= i < |ns| ==> WellNamed(ns[i])
    ensures TokensOk(FlattenAll(ns))
    decreases ns, 0
  {
    if ns == [] {
    } else {
      FlattenOk(ns[0]);
      FlattenAllOk(ns[1..]);
    }
  }

  // ── The string table ──────────────────────────────────────────────────────

  /** Property names already emitted, each once, at the recorded offset. */
  datatype Strings = Strings(offsets: map<Name, nat>, data: seq<byte>)

  const NO_STRINGS := Strings(map[], [])

  /** The NUL-terminated string `s` stands in `data` at `off`. */
  predicate StringAt(data: seq<byte>, off: nat, s: Name) {
    At(data, off, s + [0])
  }

  ghost predicate StringsOk(st: Strings) {
    forall s :: s in st.offsets ==> StringAt(st.data, st.offsets[s], s)
  }

  function Intern(st: Strings, s: Name): Strings {
    if s in st.offsets then st
    else Strings(st.offsets[s := |st.data|], st.data + s + [0])
  }

  /** Interning keeps every offset handed out before, even though the table grows. */
  lemma InternKeepsOffsets(st: Strings, s: Name)
    requires StringsOk(st)
    ensures
      var st' := Intern(st, s);
      && StringsOk(st') && s in st'.offsets && st.data <= st'.data
      && forall t :: t in st.offsets ==> t in st'.offsets && st'.offsets[t] == st.offsets[t]
  {
    var st' := Intern(st, s);
    if s !in st.offsets {
      assert st'.data == st.data + (s + [0]);
      assert StringAt(st'.data, |st.data|, s);
      forall t | t in st.offsets ensures StringAt(st'.data, st.offsets[t], t) {
        var off := st.offsets[t];
        assert st'.data[off..off + |t| + 1] == st.data[off..off + |t| + 1];
      }
    }
  }

  // ── Printing tokens ───────────────────────────────────────────────────────

  function StringsAfter(t: Token, st: Strings): Strings {
    if t.Prop? then Intern(st, t.prop.name) else st
  }

  function Pad(n: nat): seq<byte> { Zeros(Align4(n) - n) }

  function OffsetOf(st: Strings, s: Name): nat {
    var st' := Intern(st, s);
    if s in st'.offsets then st'.offsets[s] else 0
  }

  function EmitToken(t: Token, st: Strings): seq<byte> {
    match t
    case Begin(name) => Be32(1) + (name + [0]) + Pad(|name| + 1)
    case Prop(p) => Be32(3) + Be32(|p.data|) + Be32(OffsetOf(st, p.name)) + p.data + Pad(|p.data|)
    case End => Be32(2)
  }

  function TokenWords(t: Token): nat {
    match t
    case Begin(name) => 1 + Words(|name| + 1)
    case Prop(p) => 3 + Words(|p.data|)
    case End => 1
  }

  function EmitTokens(ts: seq<Token>, st: Strings): seq<byte> {
    if ts == [] then []
    else EmitToken(ts[0], st) + EmitTokens(ts[1..], StringsAfter(ts[0], st))
  }

  function StringsAfterAll(ts: seq<Token>, st: Strings): Strings {
    if ts == [] then st else StringsAfterAll(ts[1..], StringsAfter(ts[0], st))
  }

  function TokensWords(ts: seq<Token>): nat {
    if ts == [] then 0 else TokenWords(ts[0]) + TokensWords(ts[1..])
  }

  lemma {:induction false} EmitConcat(a: seq<Token>, b: seq<Token>, st: Strings)
    ensures EmitTokens(a + b, st) == EmitTokens(a, st) + EmitTokens(b, StringsAfterAll(a, st))
    ensures StringsAfterAll(a + b, st) == StringsAfterAll(b, StringsAfterAll(a, st))
  {
    if a == [] {
      assert a + b == b;
    } else {
      assert (a + b)[1..] == a[1..] + b;
      EmitConcat(a[1..], b, StringsAfter(a[0], st));
    }
  }

  lemma EmitSize(t: Token, st: Strings)
    ensures |EmitToken(t, st)| == 4 * TokenWords(t) && TokenWords(t) > 0
  {}

  lemma {:induction false} EmitTokensSize(ts: seq<Token>, st: Strings)
    ensures |EmitTokens(ts, st)| == 4 * TokensWords(ts)
  {
    if ts == [] {
    } else {
      EmitSize(ts[0], st);
      EmitTokensSize(ts[1..], StringsAfter(ts[0], st));
    }
  }

  lemma {:induction false} StringsAfterAllOk(ts: seq<Token>, st: Strings)
    requires StringsOk(st)
    ensures
      var st' := StringsAfterAll(ts, st);
      && StringsOk(st') && st.data <= st'.data
      && forall t :: t in st.offsets ==> t in st'.offsets && st'.offsets[t] == st.offsets[t]
  {
    if ts == [] {
    } else {
      if ts[0].Prop? {
        InternKeepsOffsets(st, ts[0].prop.name);
      }
      StringsAfterAllOk(ts[1..], StringsAfter(ts[0], st));
    }
  }

  // ── The blob ──────────────────────────────────────────────────────────────

  function StructBlock(root: Node): seq<byte> {
    EmitTokens(Flatten(root), NO_STRINGS) + Be32(9)
  }

  function StringsBlock(root: Node): seq<byte> {
    StringsAfterAll(Flatten(root), NO_STRINGS).data
  }

  /** `struct.pack` of big-endian 32-bit fields. */
  function Fields(vs: seq<nat>): (b: seq<byte>)
    ensures |b| == 4 * |vs|
  {
    if vs == [] then [] else Be32(vs[0]) + Fields(vs[1..])
  }

  function Header(totalSize: nat, stringsOffset: nat, stringsSize: nat, structSize: nat): (h: seq<byte>)
    ensures |h| == 40
  {
    Fields([MAGIC, totalSize, STRUCT_OFFSET, stringsOffset, HEADER_SIZE, 17, 16, 0, stringsSize, structSize])
  }

  function StringsOffset(root: Node): nat {
    STRUCT_OFFSET + Align4(|StructBlock(root)|)
  }

  function TotalSize(root: Node): nat {
    StringsOffset(root) + Align4(|StringsBlock(root)|)
  }

  /** The blob around two finished blocks; nothing if some length does not fit the
      format's 32-bit fields, which all lie below the total size. */
  function Blob(structB: seq<byte>, strings: seq<byte>): Option<seq<byte>> {
    var structPadded, stringsPadded := Align4(|structB|), Align4(|strings|);
    var stringsOffset := STRUCT_OFFSET + structPadded;
    var totalSize := stringsOffset + stringsPadded;
    if totalSize >= 0x1_0000_0000 then None
    else Some(Header(totalSize, stringsOffset, |strings|, |structB|) + Zeros(16)
              + (structB + Pad(|structB|)) + (strings + Pad(|strings|)))
  }

  function Serialize(root: Node): Option<seq<byte>> {
    Blob(StructBlock(root), StringsBlock(root))
  }

  /** The printer as it runs: one growing structure block, one growing string
      block, and a table of the offsets handed out so far. */
  class Emitter {
    var strtab: map<Name, nat>
    var strdata: seq<byte>
    var structB: seq<byte>

    constructor ()
      ensures Table() == NO_STRINGS && structB == []
    {
      strtab := map[];
      strdata := [];
      structB := [];
    }

    ghost function Table(): Strings
      reads this
    {
      Strings(strtab, strdata)
    }

    method StrOff(s: Name) returns (off: nat)
      modifies this`strtab, this`strdata
      ensures Table() == Intern(old(Table()), s)
      ensures off == OffsetOf(old(Table()), s)
    {
      if s in strtab {
        return strtab[s];
      }
      off := |strdata|;
      strtab := strtab[s := off];
      strdata := strdata + s + [0];
    }

    method BeginNode(name: Name)
      modifies this`structB
      ensures structB == old(structB) + EmitToken(Begin(name), Table())
    {
      var e := Be32(1) + (name + [0]);
      e := e + Zeros(Align4(|name| + 1) - (|name| + 1));
      structB := structB + e;
    }

    method AddProp(p: Property)
      modifies this
      ensures structB == old(structB) + EmitToken(Prop(p), old(Table()))
      ensures Table() == StringsAfter(Prop(p), old(Table()))
    {
      var nameoff := StrOff(p.name);
      var e := Be32(3) + Be32(|p.data|) + Be32(nameoff) + p.data;
      e := e + Zeros(Align4(|p.data|) - |p.data|);
      structB := structB + e;
    }

    /** Exactly the tokens `done` have been printed since the block was `base` and the table `st`. */
    ghost predicate Printed(base: seq<byte>, st: Strings, done: seq<Token>)
      reads this
    {
      structB == base + EmitTokens(done, st) && Table() == StringsAfterAll(done, st)
    }

    method EmitProps(props: seq<Property>)
      modifies this
      ensures Printed(old(structB), old(Table()), PropTokens(props))
    {
      ghost var base, st := structB, Table();
      for i := 0 to |props|
        invariant Printed(base, st, PropTokens(props)[..i])
      {
        ghost var done := PropTokens(props)[..i];
        PrintMore(base, st, done, [Prop(props[i])]);
        EmitOne(Prop(props[i]), Table());
        assert PropTokens(props)[..i + 1] == done + [Prop(props[i])];
        AddProp(props[i]);
      }
      assert PropTokens(props)[..|props|] == PropTokens(props);
    }

    method EmitChildren(children: seq<Node>)
      modifies this
      ensures Printed(old(structB), old(Table()), FlattenAll(children))
      decreases children, 0
    {
      ghost var base, st := structB, Table();
      for i := 0 to |children|
        invariant Printed(base, st, FlattenAll(children[..i]))
      {
        PrintChild(base, st, children, i);
        Emit(children[i]);
      }
      assert children[..|children|] == children;
    }

    method Emit(node: Node)
      modifies this
      ensures Printed(old(structB), old(Table()), Flatten(node))
      decreases node, 1
    {
      ghost var base, st := structB, Table();
      EmitNode(node, st);
      BeginNode(node.name);
      ghost var b := EmitToken(Begin(node.name), st);
      EmitProps(node.props);
      ghost var p := EmitTokens(PropTokens(node.props), st);
      Assoc(base, b, p);
      ghost var kids := EmitTokens(FlattenAll(node.children), Table());
      EmitChildren(node.children);
      Assoc(base, b + p, kids);
      Assoc(base, b + p + kids, Be32(2));
      structB := structB + Be32(2);
    }
  }

  /** The four parts of a printed node, each with the table the parts before it left. */
  lemma EmitNode(n: Node, st: Strings)
    ensures
      var props, kids := PropTokens(n.props), FlattenAll(n.children);
      var st' := StringsAfterAll(props, st);
      && EmitTokens(Flatten(n), st) ==
           EmitToken(Begin(n.name), st) + EmitTokens(props, st) + EmitTokens(kids, st') + Be32(2)
      && StringsAfterAll(Flatten(n), st) == StringsAfterAll(kids, st')
  {
    var props, kids := PropTokens(n.props), FlattenAll(n.children);
    var b := [Begin(n.name)];
    EmitOneMore([], Begin(n.name), st);
    assert [] + b == b;
    EmitConcat(b, props, st);
    EmitConcat(b + props, kids, st);
    EmitOneMore(b + props + kids, End, st);
  }

  /** Printing `more` after `done` is printing both. */
  lemma PrintMore(base: seq<byte>, st: Strings, done: seq<Token>, more: seq<Token>)
    ensures
      var st' := StringsAfterAll(done, st);
      && (base + EmitTokens(done, st)) + EmitTokens(more, st') == base + EmitTokens(done + more, st)
      && StringsAfterAll(more, st') == StringsAfterAll(done + more, st)
  {
    EmitConcat(done, more, st);
    Assoc(base, EmitTokens(done, st), EmitTokens(more, StringsAfterAll(done, st)));
  }

  lemma PrintChild(base: seq<byte>, st: Strings, ns: seq<Node>, i: nat)
    requires i < |ns|
    ensures
      var done, next := FlattenAll(ns[..i]), FlattenAll(ns[..i + 1]);
      var st' := StringsAfterAll(done, st);
      && (base + EmitTokens(done, st)) + EmitTokens(Flatten(ns[i]), st') == base + EmitTokens(next, st)
      && StringsAfterAll(Flatten(ns[i]), st') == StringsAfterAll(next, st)
  {
    PrintMore(base, st, FlattenAll(ns[..i]), Flatten(ns[i]));
    FlattenAllSnoc(ns[..i], ns[i]);
    assert ns[..i + 1] == ns[..i] + [ns[i]];
  }

  lemma EmitOne(t: Token, st: Strings)
    ensures EmitTokens([t], st) == EmitToken(t, st) && StringsAfterAll([t], st) == StringsAfter(t, st)
  {
    assert EmitTokens([t], st) == EmitToken(t, st) + [];
  }

  lemma EmitOneMore(done: seq<Token>, t: Token, st: Strings)
    ensures EmitTokens(done + [t], st) == EmitTokens(done, st) + EmitToken(t, StringsAfterAll(done, st))
    ensures StringsAfterAll(done + [t], st) == StringsAfter(t, StringsAfterAll(done, st))
  {
    EmitConcat(done, [t], st);
    EmitOne(t, StringsAfterAll(done, st));
  }

  lemma {:induction false} FlattenAllSnoc(ns: seq<Node>, n: Node)
    ensures FlattenAll(ns + [n]) == FlattenAll(ns) + Flatten(n)
  {
    if ns == [] {
      assert FlattenAll([n]) == Flatten(n) + [];
    } else {
      assert (ns + [n])[1..] == ns[1..] + [n];
      FlattenAllSnoc(ns[1..], n);
    }
  }

  /** The printer computes `Serialize`. */
  method SerializeTree(root: Node) returns (out: Option<seq<byte>>)
    ensures out == Serialize(root)
  {
    var e := new Emitter();
    e.Emit(root);
    assert e.structB == EmitTokens(Flatten(root), NO_STRINGS);
    out := Blob(e.structB + Be32(9), e.strdata);
  }
}
