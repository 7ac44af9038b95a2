/** The stack parser for flattened devicetrees, and the proof that it inverts the printer. */
module DevicetreeParser {
  import opened Bytes
  import opened Devicetree

  /** First NUL at or after `i`, or the length if there is none. */
  function NulFrom(b: seq<byte>, i: nat): (r: nat)
    requires i <= |b|
    ensures i <= r <= |b| && (r < |b| ==> b[r] == 0)
    ensures forall k :: i <= k < r ==> b[k] != 0
    decreases |b| - i
  {
    if i == |b| || b[i] == 0 then i else NulFrom(b, i + 1)
  }

  method FindNul(b: seq<byte>, i: nat) returns (r: nat)
    requires i <= |b|
    ensures r == NulFrom(b, i)
  {
    r := i;
    while r < |b| && b[r] != 0
      invariant i <= r <= |b| && NulFrom(b, i) == NulFrom(b, r)
    {
      r := r + 1;
    }
  }

  lemma {:induction false} NulEndsString(b: seq<byte>, off: nat, s: Name)
    requires StringAt(b, off, s) && IsName(s)
    ensures NulFrom(b, off) == off + |s| && b[off..off + |s|] == s
  {
    assert forall i :: 0 <= i < |s| ==> b[off + i] == s[i] by {
      forall i | 0 <= i < |s| ensures b[off + i] == s[i] { AtIndex(b, off, s + [0], i); }
    }
    AtIndex(b, off, s + [0], |s|);
    assert NulFrom(b, off) >= off + |s|;
  }

  /** What stands at a position of the structure block; `Raise` is an exception. */
  datatype Item = Open(name: Name, next: nat) | Close(next: nat) | Field(prop: Property, next: nat)
                | Stop | Skip(next: nat) | Raise

  function ReadItem(data: seq<byte>, strings: seq<byte>, pos: nat): (item: Item)
    ensures (item.Open? || item.Close? || item.Field? || item.Skip?) ==> pos + 4 <= |data| && item.next >= pos + 4
  {
    if pos + 4 > |data| then Raise
    else match ReadBe32(data, pos)
      case 1 =>
        var nul := NulFrom(data, pos + 4);
        if nul == |data| then Raise else Open(data[pos + 4..nul], Align4(nul + 1))
      case 2 => Close(pos + 4)
      case 3 =>
        if pos + 12 > |data| then Raise
        else
          var end := pos + 12 + ReadBe32(data, pos + 4);
          var nameoff := ReadBe32(data, pos + 8);
          if nameoff > |strings| then Raise
          else
            var nul := NulFrom(strings, nameoff);
            if nul == |strings| then Raise
            else Field(Property(strings[nameoff..nul], Slice(data, pos + 12, end - (pos + 12))), Align4(end))
      case 9 => Stop
      case _ => Skip(pos + 4)
  }

  /** Nodes still open, outermost first, and the root once it is closed. */
  datatype Build = Build(root: Option<Node>, stack: seq<Node>)

  function Opened(b: Build, name: Name): Option<Build> {
    if b.stack == [] && b.root.Some? then None
    else Some(b.(stack := b.stack + [Node(name, [], [])]))
  }

  function Closed(b: Build): Option<Build> {
    var n := |b.stack|;
    if n == 0 then None
    else if n == 1 then Some(Build(Some(b.stack[0]), []))
    else
      var parent := b.stack[n - 2];
      Some(b.(stack := b.stack[..n - 2] + [parent.(children := parent.children + [b.stack[n - 1]])]))
  }

  function Extended(b: Build, p: Property): Option<Build> {
    var n := |b.stack|;
    if n == 0 then None
    else
      var top := b.stack[n - 1];
      Some(b.(stack := b.stack[..n - 1] + [top.(props := top.props + [p])]))
  }

  /** The root as it stands when the parser stops, open nodes included. */
  function Result(b: Build): Option<Node>
    decreases |b.stack|
  {
    if b.stack == [] then b.root else Result(Closed(b).value)
  }

  datatype Parsed = Raised | Root(node: Option<Node>)

  /** Reading at a position either ends the parse or moves forward inside the data. */
  ghost predicate Advances(read: nat -> Item, limit: nat) {
    forall pos: nat :: var item := read(pos);
      (item.Open? || item.Close? || item.Field? || item.Skip?) ==> pos + 4 <= limit && item.next >= pos + 4
  }

  ghost function ParseFrom(read: nat -> Item, limit: nat, pos: nat, b: Build): Parsed
    requires Advances(read, limit)
    decreases limit - pos
  {
    match read(pos)
    case Raise => Raised
    case Stop => Root(Result(b))
    case Skip(next) => ParseFrom(read, limit, next, b)
    case Open(name, next) =>
      var b' := Opened(b, name);
      if b'.None? then Raised else ParseFrom(read, limit, next, b'.value)
    case Close(next) => var b' := Closed(b); if b'.None? then Raised else ParseFrom(read, limit, next, b'.value)
    case Field(p, next) => var b' := Extended(b, p); if b'.None? then Raised else ParseFrom(read, limit, next, b'.value)
  }

  const START := Build(None, [])

  function Reader(data: seq<byte>, strings: seq<byte>): (read: nat -> Item)
    ensures Advances(read, |data|)
  {
    (pos: nat) => ReadItem(data, strings, pos)
  }

  ghost function Parse(data: seq<byte>): Parsed {
    if |data| < 40 || ReadBe32(data, 0) != MAGIC then Raised
    else
      var offStrings: nat, sizeStrings: nat := ReadBe32(data, 12), ReadBe32(data, 32);
      var strings := Slice(data, offStrings, sizeStrings);
      ParseFrom(Reader(data, strings), |data|, ReadBe32(data, 8), START)
  }

  /** Decodes the token at `pos` and everything that belongs to it. */
  method TakeItem(data: seq<byte>, strings: seq<byte>, pos: nat) returns (item: Item)
    ensures item == Reader(data, strings)(pos)
  {
    if pos + 4 > |data| {
      return Raise;
    }
    var tok := ReadBe32(data, pos);
    if tok == 1 {
      var end := FindNul(data, pos + 4);
      return if end == |data| then Raise else Open(data[pos + 4..end], Align4(end + 1));
    } else if tok == 2 {
      return Close(pos + 4);
    } else if tok == 3 {
      if pos + 12 > |data| {
        return Raise;
      }
      var plen: nat, nameoff: nat := ReadBe32(data, pos + 4), ReadBe32(data, pos + 8);
      var pdata := Slice(data, pos + 12, plen);
      if nameoff > |strings| {
        return Raise;
      }
      var end := FindNul(strings, nameoff);
      return if end == |strings| then Raise else Field(Property(strings[nameoff..end], pdata), Align4(pos + 12 + plen));
    } else if tok == 9 {
      return Stop;
    } else {
      return Skip(pos + 4);
    }
  }

  /** `stack.pop()`: the closed node is, by now, complete in its parent. */
  method PopNode(root: Option<Node>, stack: seq<Node>) returns (root': Option<Node>, stack': seq<Node>)
    requires stack != []
    ensures Closed(Build(root, stack)) == Some(Build(root', stack'))
  {
    var node := stack[|stack| - 1];
    root', stack' := root, stack[..|stack| - 1];
    if stack' == [] {
      root' := Some(node);
    } else {
      var parent := stack'[|stack'| - 1];
      assert stack'[..|stack'| - 1] == stack[..|stack| - 2];
      stack' := stack'[..|stack'| - 1] + [parent.(children := parent.children + [node])];
    }
  }

  /** The parser as it runs: a position, the root, and a stack of open nodes. */
  method ParseBlob(data: seq<byte>) returns (r: Parsed)
    ensures r == Parse(data)
  {
    if |data| < 40 || ReadBe32(data, 0) != MAGIC {
      return Raised;
    }
    var offStrings: nat, sizeStrings: nat := ReadBe32(data, 12), ReadBe32(data, 32);
    var strings := Slice(data, offStrings, sizeStrings);
    r := ParseLoop(data, strings, ReadBe32(data, 8));
  }

  method ParseLoop(data: seq<byte>, strings: seq<byte>, start: nat) returns (r: Parsed)
    ensures r == ParseFrom(Reader(data, strings), |data|, start, START)
  {
    ghost var read, limit := Reader(data, strings), |data|;
    var pos := start;
    var root: Option<Node> := None;
    var stack: seq<Node> := [];
    while true
      invariant ParseFrom(read, limit, start, START) == ParseFrom(read, limit, pos, Build(root, stack))
      decreases limit - pos
    {
      var item := TakeItem(data, strings, pos);
      if item.Raise? {
        return Raised;
      } else if item.Stop? {
        return Root(Result(Build(root, stack)));
      } else if item.Open? {
        if stack == [] && root.Some? {
          return Raised;
        }
        stack := stack + [Node(item.name, [], [])];
      } else if item.Close? {
        if stack == [] {
          return Raised;
        }
        root, stack := PopNode(root, stack);
      } else if item.Field? {
        if stack == [] {
          return Raised;
        }
        var top := stack[|stack| - 1];
        stack := stack[..|stack| - 1] + [top.(props := top.props + [item.prop])];
      }
      pos := item.next;
    }
  }

  // ── Reading back what was printed ─────────────────────────────────────────

  /** Everything a printed structure block promises about one of its tokens; `w` counts words. */
  ghost predicate PrintedAt(data: seq<byte>, strings: seq<byte>, w: nat, t: Token, st: Strings) {
    && At(data, 4 * w, EmitToken(t, st)) && |data| < 0x1_0000_0000
    && TokenOk(t) && StringsOk(st) && StringsAfter(t, st).data <= strings && |strings| <= |data|
  }

  lemma NameIsInterned(strings: seq<byte>, s: Name, st: Strings)
    requires StringsOk(st) && Intern(st, s).data <= strings && IsName(s)
    ensures StringAt(strings, OffsetOf(st, s), s)
  {
    InternKeepsOffsets(st, s);
    var st', off := Intern(st, s), OffsetOf(st, s);
    PrefixAt(st'.data, strings, off, s + [0]);
  }

  lemma PropParts(data: seq<byte>, pos: nat, p: Property, off: nat)
    requires At(data, pos, Be32(3) + Be32(|p.data|) + Be32(off) + p.data + Pad(|p.data|))
    ensures At(data, pos, Be32(3)) && At(data, pos + 4, Be32(|p.data|)) && At(data, pos + 8, Be32(off))
    ensures At(data, pos + 12, p.data)
  {
    var a, b, c := Be32(3), Be32(|p.data|), Be32(off);
    AtSplit(data, pos, a + b + c + p.data, Pad(|p.data|));
    AtSplit(data, pos, a + b + c, p.data);
    AtSplit(data, pos, a + b, c);
    AtSplit(data, pos, a, b);
  }

  lemma BeginParts(data: seq<byte>, pos: nat, name: Name)
    requires At(data, pos, Be32(1) + (name + [0]) + Pad(|name| + 1))
    ensures At(data, pos, Be32(1)) && StringAt(data, pos + 4, name)
  {
    AtSplit(data, pos, Be32(1) + (name + [0]), Pad(|name| + 1));
    AtSplit(data, pos, Be32(1), name + [0]);
  }

  lemma BeginReadsBack(data: seq<byte>, strings: seq<byte>, w: nat, name: Name)
    requires 4 * w + 4 <= |data| && ReadBe32(data, 4 * w) == 1 && StringAt(data, 4 * w + 4, name) && IsName(name)
    ensures ReadItem(data, strings, 4 * w) == Open(name, 4 * (w + 1 + Words(|name| + 1)))
  {
    NulEndsString(data, 4 * w + 4, name);
    WordsFrom(w + 1, |name| + 1);
  }

  /** The four parts of a printed property, as they are read back. */
  ghost predicate FieldAt(data: seq<byte>, pos: nat, p: Property, off: nat) {
    && pos + 12 + |p.data| <= |data|
    && ReadBe32(data, pos) == 3 && ReadBe32(data, pos + 4) == |p.data| && ReadBe32(data, pos + 8) == off
    && Slice(data, pos + 12, |p.data|) == p.data
  }

  lemma PropIsFieldAt(data: seq<byte>, pos: nat, p: Property, off: u32)
    requires At(data, pos, Be32(3) + Be32(|p.data|) + Be32(off) + p.data + Pad(|p.data|)) && |p.data| < 0x1_0000_0000
    ensures FieldAt(data, pos, p, off)
  {
    PropParts(data, pos, p, off);
    Be32RoundTrip(data, pos, 3);
    Be32RoundTrip(data, pos + 4, |p.data|);
    Be32RoundTrip(data, pos + 8, off);
    assert Slice(data, pos + 12, |p.data|) == data[pos + 12..pos + 12 + |p.data|];
  }

  lemma PropReadsBack(data: seq<byte>, strings: seq<byte>, w: nat, p: Property, off: nat)
    requires FieldAt(data, 4 * w, p, off) && IsName(p.name) && StringAt(strings, off, p.name)
    ensures ReadItem(data, strings, 4 * w) == Field(p, 4 * (w + 3 + Words(|p.data|)))
  {
    NulEndsString(strings, off, p.name);
    WordsFrom(w + 3, |p.data|);
  }

  lemma WordsFrom(w: nat, n: nat)
    ensures Align4(4 * w + n) == 4 * (w + Words(n))
  {}

  function ItemOf(t: Token, next: nat): Item {
    match t
    case Begin(name) => Open(name, next)
    case Prop(p) => Field(p, next)
    case End => Close(next)
  }

  /** A printed token reads back as itself, and the position moves past it. */
  lemma ReadsBack(data: seq<byte>, strings: seq<byte>, w: nat, t: Token, st: Strings)
    requires PrintedAt(data, strings, w, t, st)
    ensures ReadItem(data, strings, 4 * w) == ItemOf(t, 4 * (w + TokenWords(t)))
  {
    match t
    case Begin(name) =>
      BeginParts(data, 4 * w, name);
      Be32RoundTrip(data, 4 * w, 1);
      BeginReadsBack(data, strings, w, name);
    case Prop(p) =>
      NameIsInterned(strings, p.name, st);
      PropIsFieldAt(data, 4 * w, p, OffsetOf(st, p.name));
      PropReadsBack(data, strings, w, p, OffsetOf(st, p.name));
    case End =>
      Be32RoundTrip(data, 4 * w, 2);
  }

  function Apply(b: Build, t: Token): Option<Build> {
    match t
    case Begin(name) => Opened(b, name)
    case Prop(p) => Extended(b, p)
    case End => Closed(b)
  }

  function ApplyAll(b: Build, ts: seq<Token>): Option<Build>
    decreases |ts|
  {
    if ts == [] then Some(b)
    else
      var b' := Apply(b, ts[0]);
      if b'.None? then None else ApplyAll(b'.value, ts[1..])
  }

  ghost predicate AllPrintedAt(data: seq<byte>, strings: seq<byte>, w: nat, ts: seq<Token>, st: Strings) {
    && At(data, 4 * w, EmitTokens(ts, st)) && |data| < 0x1_0000_0000
    && TokensOk(ts) && StringsOk(st) && StringsAfterAll(ts, st).data <= strings && |strings| <= |data|
  }

  lemma FirstPrinted(data: seq<byte>, strings: seq<byte>, w: nat, ts: seq<Token>, st: Strings)
    requires ts != [] && AllPrintedAt(data, strings, w, ts, st)
    ensures PrintedAt(data, strings, w, ts[0], st)
    ensures AllPrintedAt(data, strings, w + TokenWords(ts[0]), ts[1..], StringsAfter(ts[0], st))
  {
    FirstPrintedBytes(data, w, ts, st);
    FirstPrintedStrings(ts, st);
    assert TokensOk(ts[1..]);
  }

  lemma FirstPrintedBytes(data: seq<byte>, w: nat, ts: seq<Token>, st: Strings)
    requires ts != [] && At(data, 4 * w, EmitTokens(ts, st))
    ensures At(data, 4 * w, EmitToken(ts[0], st))
    ensures At(data, 4 * (w + TokenWords(ts[0])), EmitTokens(ts[1..], StringsAfter(ts[0], st)))
  {
    var first, rest := EmitToken(ts[0], st), EmitTokens(ts[1..], StringsAfter(ts[0], st));
    assert EmitTokens(ts, st) == first + rest;
    hide EmitToken, EmitTokens, StringsAfter, TokenWords, At;
    EmitSize(ts[0], st);
    AtSplit(data, 4 * w, first, rest);
  }

  lemma FirstPrintedStrings(ts: seq<Token>, st: Strings)
    requires ts != [] && StringsOk(st)
    ensures StringsOk(StringsAfter(ts[0], st))
    ensures StringsAfter(ts[0], st).data <= StringsAfterAll(ts, st).data
    ensures StringsAfterAll(ts, st) == StringsAfterAll(ts[1..], StringsAfter(ts[0], st))
  {
    if ts[0].Prop? {
      InternKeepsOffsets(st, ts[0].prop.name);
    }
    StringsAfterAllOk(ts[1..], StringsAfter(ts[0], st));
  }

  /** From word `w` on, the structure block reads as exactly these tokens. */
  ghost predicate Reads(read: nat -> Item, w: nat, ts: seq<Token>)
    decreases |ts|
  {
    ts != [] ==>
      && read(4 * w) == ItemOf(ts[0], 4 * (w + TokenWords(ts[0])))
      && Reads(read, w + TokenWords(ts[0]), ts[1..])
  }

  lemma ReadsOneMore(read: nat -> Item, w: nat, ts: seq<Token>)
    requires ts != [] && read(4 * w) == ItemOf(ts[0], 4 * (w + TokenWords(ts[0])))
    requires Reads(read, w + TokenWords(ts[0]), ts[1..])
    ensures Reads(read, w, ts)
  {}

  /** Printed tokens read back. */
  lemma {:induction false} PrintedReads(data: seq<byte>, strings: seq<byte>, w: nat, ts: seq<Token>, st: Strings)
    requires AllPrintedAt(data, strings, w, ts, st)
    ensures Reads(Reader(data, strings), w, ts)
    decreases |ts|
  {
    if ts == [] {
    } else {
      FirstPrinted(data, strings, w, ts, st);
      ReadsBack(data, strings, w, ts[0], st);
      PrintedReads(data, strings, w + TokenWords(ts[0]), ts[1..], StringsAfter(ts[0], st));
      ReadsOneMore(Reader(data, strings), w, ts);
    }
  }

  lemma {:induction false} ParsesTokens(read: nat -> Item, limit: nat, w: nat, ts: seq<Token>, b: Build)
    requires Advances(read, limit) && Reads(read, w, ts) && ApplyAll(b, ts).Some?
    ensures ParseFrom(read, limit, 4 * w, b) == ParseFrom(read, limit, 4 * (w + TokensWords(ts)), ApplyAll(b, ts).value)
    decreases |ts|
  {
    if ts == [] {
    } else {
      ParsesTokens(read, limit, w + TokenWords(ts[0]), ts[1..], Apply(b, ts[0]).value);
    }
  }

  // ── The stack rebuilds the tree ───────────────────────────────────────────

  lemma {:induction false} ApplyConcat(b: Build, ts: seq<Token>, us: seq<Token>)
    requires ApplyAll(b, ts).Some?
    ensures ApplyAll(b, ts + us) == ApplyAll(ApplyAll(b, ts).value, us)
    decreases |ts|
  {
    if ts == [] {
      assert ts + us == us;
    } else {
      assert (ts + us)[1..] == ts[1..] + us;
      ApplyConcat(Apply(b, ts[0]).value, ts[1..], us);
    }
  }

  function WithTop(b: Build, top: Node): Build
    requires b.stack != []
  {
    b.(stack := b.stack[..|b.stack| - 1] + [top])
  }

  function Top(b: Build): Node
    requires b.stack != []
  {
    b.stack[|b.stack| - 1]
  }

  lemma {:induction false} ApplyProps(b: Build, props: seq<Property>)
    requires b.stack != []
    ensures ApplyAll(b, PropTokens(props)) == Some(WithTop(b, Top(b).(props := Top(b).props + props)))
    decreases |props|
  {
    if props == [] {
      assert Top(b).props + props == Top(b).props;
      assert WithTop(b, Top(b)) == b;
    } else {
      assert PropTokens(props)[1..] == PropTokens(props[1..]);
      var b' := Extended(b, props[0]).value;
      ApplyProps(b', props[1..]);
      assert Top(b).props + [props[0]] + props[1..] == Top(b).props + props;
      assert b'.stack[..|b.stack| - 1] == b.stack[..|b.stack| - 1];
    }
  }

  /** Inside an open node, a subtree's tokens add exactly that subtree as its last child. */
  lemma {:induction false} ApplyChild(b: Build, n: Node)
    requires b.stack != []
    ensures ApplyAll(b, Flatten(n)) == Some(WithTop(b, Top(b).(children := Top(b).children + [n])))
    decreases n, 1
  {
    ApplyBody(b, n);
    ApplyConcat(b, [Begin(n.name)] + PropTokens(n.props) + FlattenAll(n.children), [End]);
    var b' := Build(b.root, b.stack + [n]);
    assert ApplyAll(b', [End]) == Closed(b') by {
      assert [End][1..] == [];
    }
    assert b'.stack[..|b'.stack| - 2] == b.stack[..|b.stack| - 1];
  }

  /** Opening a node and applying its content leaves the whole node open on top. */
  lemma {:induction false} ApplyBody(b: Build, n: Node)
    requires b.stack != [] || b.root.None?
    ensures ApplyAll(b, [Begin(n.name)] + PropTokens(n.props) + FlattenAll(n.children))
            == Some(Build(b.root, b.stack + [n]))
    decreases n, 0
  {
    var t1 := [Begin(n.name)];
    var b1 := Build(b.root, b.stack + [Node(n.name, [], [])]);
    assert ApplyAll(b, t1) == Some(b1) by {
      assert t1[1..] == [];
    }
    ApplyConcat(b, t1, PropTokens(n.props));
    ApplyProps(b1, n.props);
    var b2 := Build(b.root, b.stack + [Node(n.name, n.props, [])]);
    assert WithTop(b1, Node(n.name, n.props, [])) == b2 && [] + n.props == n.props;
    ApplyConcat(b, t1 + PropTokens(n.props), FlattenAll(n.children));
    ApplyChildren(b2, n.children);
    assert [] + n.children == n.children;
    assert WithTop(b2, n) == Build(b.root, b.stack + [n]);
  }

  lemma {:induction false} ApplyChildren(b: Build, ns: seq<Node>)
    requires b.stack != []
    ensures ApplyAll(b, FlattenAll(ns)) == Some(WithTop(b, Top(b).(children := Top(b).children + ns)))
    decreases ns, 2
  {
    if ns == [] {
      assert Top(b).children + ns == Top(b).children;
      assert WithTop(b, Top(b)) == b;
    } else {
      ApplyChild(b, ns[0]);
      ApplyConcat(b, Flatten(ns[0]), FlattenAll(ns[1..]));
      var b' := WithTop(b, Top(b).(children := Top(b).children + [ns[0]]));
      ApplyChildren(b', ns[1..]);
      assert Top(b).children + [ns[0]] + ns[1..] == Top(b).children + ns;
      assert b'.stack[..|b.stack| - 1] == b.stack[..|b.stack| - 1];
    }
  }

  lemma {:induction false} ApplyRoot(n: Node)
    ensures ApplyAll(START, Flatten(n)) == Some(Build(Some(n), []))
  {
    ApplyBody(START, n);
    ApplyConcat(START, [Begin(n.name)] + PropTokens(n.props) + FlattenAll(n.children), [End]);
    var b := Build(None, [n]);
    assert [] + [n] == [n];
    assert ApplyAll(b, [End]) == Closed(b) by {
      assert [End][1..] == [];
    }
  }

  // ── Round trip ────────────────────────────────────────────────────────────

  lemma {:induction false} FieldReads(data: seq<byte>, pos: nat, vs: seq<nat>, i: nat)
    requires At(data, pos, Fields(vs)) && i < |vs| && vs[i] < 0x1_0000_0000
    ensures ReadBe32(data, pos + 4 * i) == vs[i]
    decreases i
  {
    AtSplit(data, pos, Be32(vs[0]), Fields(vs[1..]));
    if i == 0 {
      Be32RoundTrip(data, pos, vs[0]);
    } else {
      FieldReads(data, pos + 4, vs[1..], i - 1);
    }
  }

  lemma HeaderFields(data: seq<byte>, a: nat, b: nat, c: nat, d: nat)
    requires At(data, 0, Header(a, b, c, d)) && b < 0x1_0000_0000 && c < 0x1_0000_0000
    ensures ReadBe32(data, 0) == MAGIC && ReadBe32(data, 8) == STRUCT_OFFSET
    ensures ReadBe32(data, 12) == b && ReadBe32(data, 32) == c
  {
    var vs: seq<nat> := [MAGIC, a, STRUCT_OFFSET, b, HEADER_SIZE, 17, 16, 0, c, d];
    FieldReads(data, 0, vs, 0);
    FieldReads(data, 0, vs, 2);
    FieldReads(data, 0, vs, 3);
    FieldReads(data, 0, vs, 8);
  }

  /** Where the blocks stand in a blob, and what its header says about them. */
  lemma BlobParts(structB: seq<byte>, strings: seq<byte>, data: seq<byte>)
    requires Blob(structB, strings) == Some(data)
    ensures
      var off := STRUCT_OFFSET + Align4(|structB|);
      && |data| == off + Align4(|strings|) < 0x1_0000_0000
      && ReadBe32(data, 0) == MAGIC && ReadBe32(data, 8) == STRUCT_OFFSET
      && ReadBe32(data, 12) == off && ReadBe32(data, 32) == |strings|
      && At(data, STRUCT_OFFSET, structB) && At(data, off, strings)
  {
    var off := STRUCT_OFFSET + Align4(|structB|);
    var h := Header(off + Align4(|strings|), off, |strings|, |structB|);
    Blocks(data, h, Zeros(16), structB, Pad(|structB|), strings, Pad(|strings|));
    HeaderFields(data, off + Align4(|strings|), off, |strings|, |structB|);
  }

  lemma Blocks(data: seq<byte>, h: seq<byte>, gap: seq<byte>, a: seq<byte>, padA: seq<byte>, b: seq<byte>,
               padB: seq<byte>)
    requires data == h + gap + (a + padA) + (b + padB)
    ensures At(data, 0, h) && At(data, |h| + |gap|, a) && At(data, |h| + |gap| + |a| + |padA|, b)
  {
    assert At(data, 0, data);
    AtSplit(data, 0, h + gap + (a + padA), b + padB);
    AtSplit(data, 0, h + gap, a + padA);
    AtSplit(data, 0, h, gap);
    AtSplit(data, |h + gap|, a, padA);
    AtSplit(data, |h + gap + (a + padA)|, b, padB);
  }

  lemma {:induction false} BlobLayout(root: Node, data: seq<byte>)
    requires Serialize(root) == Some(data)
    ensures |data| == TotalSize(root) < 0x1_0000_0000
    ensures ReadBe32(data, 0) == MAGIC && ReadBe32(data, 8) == STRUCT_OFFSET
    ensures ReadBe32(data, 12) == StringsOffset(root) && ReadBe32(data, 32) == |StringsBlock(root)|
    ensures At(data, STRUCT_OFFSET, EmitTokens(Flatten(root), NO_STRINGS))
    ensures At(data, 4 * (STRUCT_WORD + TokensWords(Flatten(root))), Be32(9))
    ensures At(data, StringsOffset(root), StringsBlock(root))
  {
    BlobParts(StructBlock(root), StringsBlock(root), data);
    AtSplit(data, STRUCT_OFFSET, EmitTokens(Flatten(root), NO_STRINGS), Be32(9));
    EmitTokensSize(Flatten(root), NO_STRINGS);
  }

  lemma ParsesStructBlock(read: nat -> Item, limit: nat, w: nat, ts: seq<Token>, root: Node)
    requires Advances(read, limit) && Reads(read, w, ts) && read(4 * (w + TokensWords(ts))) == Stop
    requires ApplyAll(START, ts) == Some(Build(Some(root), []))
    ensures ParseFrom(read, limit, 4 * w, START) == Root(Some(root))
  {
    ParsesTokens(read, limit, w, ts, START);
  }

  lemma ParseStartsAtStruct(data: seq<byte>, strings: seq<byte>, off: nat)
    requires |data| >= 40 && ReadBe32(data, 0) == MAGIC && ReadBe32(data, 8) == STRUCT_OFFSET
    requires ReadBe32(data, 12) == off && ReadBe32(data, 32) == |strings| && At(data, off, strings)
    ensures Parse(data) == ParseFrom(Reader(data, strings), |data|, STRUCT_OFFSET, START)
  {
    assert Slice(data, off, |strings|) == strings;
  }

  lemma StopReads(data: seq<byte>, strings: seq<byte>, pos: nat)
    requires At(data, pos, Be32(9))
    ensures Reader(data, strings)(pos) == Stop
  {
    Be32RoundTrip(data, pos, 9);
  }

  /** The structure block of a printed blob reads as the tree's tokens and the end mark. */
  lemma {:induction false} BlobReads(root: Node, data: seq<byte>)
    requires WellNamed(root) && Serialize(root) == Some(data)
    ensures Reads(Reader(data, StringsBlock(root)), STRUCT_WORD, Flatten(root))
    ensures Reader(data, StringsBlock(root))(4 * (STRUCT_WORD + TokensWords(Flatten(root)))) == Stop
  {
    BlobIsPrinted(root, data);
    StructReads(data, StringsBlock(root), Flatten(root));
  }

  lemma {:induction false} BlobIsPrinted(root: Node, data: seq<byte>)
    requires WellNamed(root) && Serialize(root) == Some(data)
    ensures AllPrintedAt(data, StringsBlock(root), STRUCT_WORD, Flatten(root), NO_STRINGS)
    ensures At(data, 4 * (STRUCT_WORD + TokensWords(Flatten(root))), Be32(9))
  {
    BlobLayout(root, data);
    FlattenOk(root);
  }

  lemma StructReads(data: seq<byte>, strings: seq<byte>, ts: seq<Token>)
    requires AllPrintedAt(data, strings, STRUCT_WORD, ts, NO_STRINGS)
    requires At(data, 4 * (STRUCT_WORD + TokensWords(ts)), Be32(9))
    ensures Reads(Reader(data, strings), STRUCT_WORD, ts)
    ensures Reader(data, strings)(4 * (STRUCT_WORD + TokensWords(ts))) == Stop
  {
    PrintedReads(data, strings, STRUCT_WORD, ts, NO_STRINGS);
    StopReads(data, strings, 4 * (STRUCT_WORD + TokensWords(ts)));
  }

  /** All that the parser can see of a printed blob. */
  ghost predicate Printout(data: seq<byte>, strings: seq<byte>, off: nat, ts: seq<Token>) {
    && |data| >= 40 && ReadBe32(data, 0) == MAGIC && ReadBe32(data, 8) == STRUCT_OFFSET
    && ReadBe32(data, 12) == off && ReadBe32(data, 32) == |strings| && At(data, off, strings)
    && Reads(Reader(data, strings), STRUCT_WORD, ts)
    && Reader(data, strings)(4 * (STRUCT_WORD + TokensWords(ts))) == Stop
  }

  lemma {:induction false} SerializeIsPrintout(root: Node)
    requires WellNamed(root) && Serialize(root).Some?
    ensures Printout(Serialize(root).value, StringsBlock(root), StringsOffset(root), Flatten(root))
  {
    BlobLayout(root, Serialize(root).value);
    BlobReads(root, Serialize(root).value);
  }

  lemma PrintoutParses(data: seq<byte>, strings: seq<byte>, off: nat, ts: seq<Token>, root: Node)
    requires Printout(data, strings, off, ts) && ApplyAll(START, ts) == Some(Build(Some(root), []))
    ensures Parse(data) == Root(Some(root))
  {
    ParsesStructBlock(Reader(data, strings), |data|, STRUCT_WORD, ts, root);
    ParseStartsAtStruct(data, strings, off);
  }

  /** Parsing what was printed gives the tree back, for every tree with NUL-free
      ASCII names and any property bytes. */
  lemma {:induction false} ParseInvertsSerialize(root: Node)
    requires WellNamed(root) && Serialize(root).Some?
    ensures Parse(Serialize(root).value) == Root(Some(root))
  {
    SerializeIsPrintout(root);
    ApplyRoot(root);
    PrintoutParses(Serialize(root).value, StringsBlock(root), StringsOffset(root), Flatten(root), root);
  }

  /** Printing is injective: two well-named trees never share a blob. */
  lemma {:induction false} SerializeIsInjective(s: Node, t: Node)
    requires WellNamed(s) && WellNamed(t) && Serialize(s).Some? && Serialize(s) == Serialize(t)
    ensures s == t
  {
    ParseInvertsSerialize(s);
    ParseInvertsSerialize(t);
  }
}
