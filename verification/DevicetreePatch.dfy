/** The in-place patchers for flattened devicetrees, and the proof that patching a
    printed blob is printing the patched tree. */
module DevicetreePatch {
  import opened Bytes
  import opened Devicetree
  import opened DevicetreeParser

  const MEMORY: Name := [0x6d, 0x65, 0x6d, 0x6f, 0x72, 0x79]
  const MEMORY_AT: Name := MEMORY + [0x40]
  const REG: Name := [0x72, 0x65, 0x67]
  const INITRD: Name := [0x6c, 0x69, 0x6e, 0x75, 0x78, 0x2c, 0x69, 0x6e, 0x69, 0x74, 0x72, 0x64, 0x2d]
  const INITRD_START: Name := INITRD + [0x73, 0x74, 0x61, 0x72, 0x74]
  const INITRD_END: Name := INITRD + [0x65, 0x6e, 0x64]

  predicate IsMemoryNode(name: Name) { name == MEMORY || MEMORY_AT <= name }

  /** The nodes and properties meant are these. */
  lemma MemoryIsSpelled(name: Name)
    ensures IsMemoryNode(name) <==> name == Ascii("memory") || Ascii("memory@") <= name
    ensures REG == Ascii("reg")
  {
    assert MEMORY == Ascii("memory") && MEMORY_AT == Ascii("memory@");
  }

  lemma StartIsSpelled()
    ensures INITRD_START == Ascii("linux,initrd-start")
  {}

  lemma EndIsSpelled()
    ensures INITRD_END == Ascii("linux,initrd-end")
  {}

  // ── Scanning ──────────────────────────────────────────────────────────────

  /** What the patchers see at a position. `Past` ends the loop, `Unknown` makes
      them refuse the blob, and `Crash` is a slice index out of bounds. */
  datatype Seen = Enter(name: Name, next: nat) | Leave(next: nat) | Nop(next: nat)
                | Value(name: Name, at: nat, len: nat, next: nat) | Past | Unknown | Crash

  /** The name at an offset of the string block, which here runs to the blob's end. */
  function NameAt(b: seq<byte>, offStrings: nat, off: nat): Name {
    var s := offStrings + off;
    if s >= |b| then [] else b[s..NulFrom(b, s)]
  }

  function See(b: seq<byte>, offStrings: nat, pos: nat): (s: Seen)
    ensures (s.Enter? || s.Leave? || s.Nop? || s.Value?) ==> pos + 4 <= |b| && s.next >= pos + 4
  {
    if pos + 4 > |b| then Past
    else match ReadBe32(b, pos)
      case 1 => var e := NulFrom(b, pos + 4); Enter(b[pos + 4..e], Align4(e + 1))
      case 2 => Leave(pos + 4)
      case 4 => Nop(pos + 4)
      case 3 =>
        if pos + 12 > |b| then Crash
        else
          var len: nat := ReadBe32(b, pos + 4);
          Value(NameAt(b, offStrings, ReadBe32(b, pos + 8)), pos + 12, len, Align4(pos + 12 + len))
      case 9 => Past
      case _ => Unknown
  }

  ghost predicate Progresses(see: nat -> Seen, limit: nat) {
    forall pos: nat :: var s := see(pos);
      (s.Enter? || s.Leave? || s.Nop? || s.Value?) ==> pos + 4 <= limit && s.next >= pos + 4
  }

  function Eyes(b: seq<byte>, offStrings: nat): (see: nat -> Seen)
    ensures Progresses(see, |b|)
  {
    (pos: nat) => See(b, offStrings, pos)
  }

  /** Where a scan is: nesting depth, and the memory node it is inside of. */
  datatype Place = Place(depth: int, inMemory: bool, memoryDepth: int)

  /** What it has found: the last memory `reg`, and the initrd properties. */
  datatype Finds = Finds(reg: nat, start: nat, end: nat, patched: nat)

  datatype Scan = Scan(place: Place, finds: Finds)

  const BEGIN_SCAN := Scan(Place(0, false, -1), Finds(0, 0, 0, 0))

  predicate IsMemoryReg(inMemory: bool, name: Name, len: nat) { inMemory && len == 16 && name == REG }
  predicate IsInitrdStart(inMemory: bool, name: Name, len: nat) { len == 8 && name == INITRD_START }
  predicate IsInitrdEnd(inMemory: bool, name: Name, len: nat) { len == 8 && name == INITRD_END }

  function Entered(p: Place, name: Name): Place {
    if !p.inMemory && IsMemoryNode(name) then Place(p.depth + 1, true, p.depth + 1) else p.(depth := p.depth + 1)
  }

  function Left(p: Place): Place {
    Place(p.depth - 1, p.inMemory && p.depth != p.memoryDepth, p.memoryDepth)
  }

  function Found(f: Finds, inMemory: bool, name: Name, at: nat, len: nat): Finds {
    var isStart, isEnd := IsInitrdStart(inMemory, name, len), IsInitrdEnd(inMemory, name, len);
    Finds(if IsMemoryReg(inMemory, name, len) then at else f.reg,
          if isStart then at else f.start,
          if isEnd then at else f.end,
          f.patched + if isStart || isEnd then 1 else 0)
  }

  datatype Scanned = Finished(scan: Scan) | Refused | Crashed

  ghost function ScanFrom(see: nat -> Seen, limit: nat, pos: nat, s: Scan): Scanned
    requires Progresses(see, limit)
    decreases limit - pos
  {
    match see(pos)
    case Past => Finished(s)
    case Unknown => Refused
    case Crash => Crashed
    case Nop(next) => ScanFrom(see, limit, next, s)
    case Enter(name, next) => ScanFrom(see, limit, next, s.(place := Entered(s.place, name)))
    case Leave(next) => ScanFrom(see, limit, next, s.(place := Left(s.place)))
    case Value(name, at, len, next) =>
      ScanFrom(see, limit, next, s.(finds := Found(s.finds, s.place.inMemory, name, at, len)))
  }

  predicate IsTree(b: seq<byte>) {
    && |b| >= 40 && ReadBe32(b, 0) == MAGIC && ReadBe32(b, 8) < |b|
    && (ReadBe32(b, 12) as int) + ReadBe32(b, 32) as int <= |b|
  }

  ghost function ScanBlob(b: seq<byte>): Scanned {
    if !IsTree(b) then Refused
    else ScanFrom(Eyes(b, ReadBe32(b, 12)), |b|, ReadBe32(b, 8), BEGIN_SCAN)
  }

  // ── The patchers ──────────────────────────────────────────────────────────

  datatype Patch = Done(ok: bool, blob: seq<byte>) | Panic

  /** `patch_memory`: the last 16-byte `reg` inside a memory node becomes `<base size>`. */
  ghost function PatchMemory(b: seq<byte>, base: u64, size: u64): Patch {
    match ScanBlob(b)
    case Refused => Done(false, b)
    case Crashed => Panic
    case Finished(s) =>
      var reg := s.finds.reg;
      if reg == 0 then Done(false, b)
      else if reg + 16 > |b| then Panic
      else Done(true, Splice(b, reg, Be64(base) + Be64(size)))
  }

  /** `patch_initrd`: the last 8-byte start and end properties are overwritten, each if
      there is one; the answer says whether exactly two candidates were seen. */
  ghost function PatchInitrd(b: seq<byte>, start: u64, end: u64): Patch {
    match ScanBlob(b)
    case Refused => Done(false, b)
    case Crashed => Panic
    case Finished(s) =>
      var f := s.finds;
      if f.start != 0 && f.start + 8 > |b| then Panic
      else
        var b' := if f.start == 0 then b else Splice(b, f.start, Be64(start));
        if f.end != 0 && f.end + 8 > |b| then Panic
        else Done(f.patched == 2, if f.end == 0 then b' else Splice(b', f.end, Be64(end)))
  }

  /** Decodes the token at `pos` the way both patchers do. */
  method Look(b: seq<byte>, offStrings: nat, pos: nat) returns (s: Seen)
    ensures s == Eyes(b, offStrings)(pos)
  {
    if pos + 4 > |b| {
      return Past;
    }
    var tok := ReadBe32(b, pos);
    if tok == 1 {
      var e := FindNul(b, pos + 4);
      return Enter(b[pos + 4..e], Align4(e + 1));
    } else if tok == 2 {
      return Leave(pos + 4);
    } else if tok == 4 {
      return Nop(pos + 4);
    } else if tok == 3 {
      if pos + 12 > |b| {
        return Crash;
      }
      var len: nat, nameoff: nat := ReadBe32(b, pos + 4), ReadBe32(b, pos + 8);
      var at := offStrings + nameoff;
      var name: Name := [];
      if at < |b| {
        var e := FindNul(b, at);
        name := b[at..e];
      }
      return Value(name, pos + 12, len, Align4(pos + 12 + len));
    } else if tok == 9 {
      return Past;
    } else {
      return Unknown;
    }
  }

  /** The token loop of both patchers, with the state that either keeps. */
  method ScanLoop(b: seq<byte>, offStrings: nat, off: nat) returns (r: Scanned)
    ensures r == ScanFrom(Eyes(b, offStrings), |b|, off, BEGIN_SCAN)
  {
    hide See, Eyes, IsMemoryNode;
    ghost var see, limit := Eyes(b, offStrings), |b|;
    var depth, inMemory, memoryDepth := 0, false, -1;
    var reg, start, end, patched := 0, 0, 0, 0;
    var pos := off;
    while true
      invariant ScanFrom(see, limit, off, BEGIN_SCAN) ==
        ScanFrom(see, limit, pos, Scan(Place(depth, inMemory, memoryDepth), Finds(reg, start, end, patched)))
      decreases limit - pos
    {
      var s := Look(b, offStrings, pos);
      if s.Past? {
        return Finished(Scan(Place(depth, inMemory, memoryDepth), Finds(reg, start, end, patched)));
      } else if s.Unknown? {
        return Refused;
      } else if s.Crash? {
        return Crashed;
      } else if s.Enter? {
        depth := depth + 1;
        if !inMemory && IsMemoryNode(s.name) {
          inMemory, memoryDepth := true, depth;
        }
      } else if s.Leave? {
        if inMemory && depth == memoryDepth {
          inMemory := false;
        }
        depth := depth - 1;
      } else if s.Value? {
        if inMemory && s.len == 16 && s.name == REG {
          reg := s.at;
        }
        if s.len == 8 {
          if s.name == INITRD_START {
            start, patched := s.at, patched + 1;
          } else if s.name == INITRD_END {
            end, patched := s.at, patched + 1;
          }
        }
      }
      pos := s.next;
    }
  }

  method Store(dtb: array<byte>, at: nat, v: seq<byte>)
    requires at + |v| <= dtb.Length
    modifies dtb
    ensures dtb[..] == Splice(old(dtb[..]), at, v)
  {
    forall i | 0 <= i < |v| {
      dtb[at + i] := v[i];
    }
    assert dtb[..at] == old(dtb[..at]) && dtb[at..at + |v|] == v && dtb[at + |v|..] == old(dtb[at + |v|..]);
  }

  method PatchMemoryInPlace(dtb: array<byte>, base: u64, size: u64) returns (ok: Option<bool>)
    modifies dtb
    ensures
      match PatchMemory(old(dtb[..]), base, size)
      case Done(r, blob) => ok == Some(r) && dtb[..] == blob
      case Panic => ok == None
    ensures ok == Some(false) ==> dtb[..] == old(dtb[..])
  {
    var b := dtb[..];
    if !IsTree(b) {
      return Some(false);
    }
    var scanned := ScanLoop(b, ReadBe32(b, 12), ReadBe32(b, 8));
    if scanned.Refused? {
      return Some(false);
    } else if scanned.Crashed? {
      return None;
    }
    var at := scanned.scan.finds.reg;
    if at == 0 {
      return Some(false);
    }
    if at + 16 > dtb.Length {
      return None;
    }
    Store(dtb, at, Be64(base));
    Store(dtb, at + 8, Be64(size));
    OverwriteTwice(b, at, Be64(base), Be64(size));
    return Some(true);
  }

  method PatchInitrdInPlace(dtb: array<byte>, start: u64, end: u64) returns (ok: Option<bool>)
    modifies dtb
    ensures
      match PatchInitrd(old(dtb[..]), start, end)
      case Done(r, blob) => ok == Some(r) && dtb[..] == blob
      case Panic => ok == None
  {
    var b := dtb[..];
    if !IsTree(b) {
      return Some(false);
    }
    var scanned := ScanLoop(b, ReadBe32(b, 12), ReadBe32(b, 8));
    if scanned.Refused? {
      return Some(false);
    } else if scanned.Crashed? {
      return None;
    }
    var s := scanned.scan.finds;
    if s.start != 0 {
      if s.start + 8 > dtb.Length {
        return None;
      }
      Store(dtb, s.start, Be64(start));
    }
    if s.end != 0 {
      if s.end + 8 > dtb.Length {
        return None;
      }
      Store(dtb, s.end, Be64(end));
    }
    return Some(s.patched == 2);
  }

  lemma OverwriteTwice(b: seq<byte>, at: nat, u: seq<byte>, v: seq<byte>)
    requires at + |u| + |v| <= |b|
    ensures Splice(Splice(b, at, u), at + |u|, v) == Splice(b, at, u + v)
  {}

  // ── What the patchers see of a printed blob ───────────────────────────────

  function SeenOf(t: Token, pos: nat, next: nat): Seen {
    match t
    case Begin(name) => Enter(name, next)
    case Prop(p) => Value(p.name, pos + 12, |p.data|, next)
    case End => Leave(next)
  }

  lemma ShiftAt(data: seq<byte>, base: nat, block: seq<byte>, off: nat, e: seq<byte>)
    requires At(data, base, block) && At(block, off, e)
    ensures At(data, base + off, e)
  {
    forall i | 0 <= i < |e| ensures data[base + off + i] == e[i] {
      AtIndex(data, base, block, off + i);
      AtIndex(block, off, e, i);
    }
  }

  lemma BeginSeen(b: seq<byte>, offStrings: nat, w: nat, name: Name)
    requires 4 * w + 4 <= |b| && ReadBe32(b, 4 * w) == 1 && StringAt(b, 4 * w + 4, name) && IsName(name)
    ensures See(b, offStrings, 4 * w) == Enter(name, 4 * (w + 1 + Words(|name| + 1)))
  {
    NulEndsString(b, 4 * w + 4, name);
    WordsFrom(w + 1, |name| + 1);
  }

  lemma PropSeen(b: seq<byte>, offStrings: nat, w: nat, p: Property, off: nat)
    requires FieldAt(b, 4 * w, p, off) && IsName(p.name) && StringAt(b, offStrings + off, p.name)
    ensures See(b, offStrings, 4 * w) == Value(p.name, 4 * w + 12, |p.data|, 4 * (w + 3 + Words(|p.data|)))
  {
    hide NameAt, NulFrom, ReadBe32, Align4, Words, IsName, StringAt, Slice;
    NameAtString(b, offStrings, off, p.name);
    WordsFrom(w + 3, |p.data|);
  }

  lemma NameAtString(b: seq<byte>, offStrings: nat, off: nat, s: Name)
    requires IsName(s) && StringAt(b, offStrings + off, s)
    ensures NameAt(b, offStrings, off) == s
  {
    NulEndsString(b, offStrings + off, s);
  }

  lemma PropSeenBack(b: seq<byte>, strings: seq<byte>, offStrings: nat, w: nat, p: Property, st: Strings)
    requires PrintedAt(b, strings, w, Prop(p), st) && At(b, offStrings, strings)
    ensures See(b, offStrings, 4 * w) == Value(p.name, 4 * w + 12, |p.data|, 4 * (w + 3 + Words(|p.data|)))
  {
    EmitSize(Prop(p), st);
    assert |p.data| < 0x1_0000_0000;
    hide See, At, IsName, Intern, OffsetOf, StringsOk, FieldAt, Words, Pad, Be32;
    var off := OffsetOf(st, p.name);
    NameIsInterned(strings, p.name, st);
    ShiftAt(b, offStrings, strings, off, p.name + [0]);
    PropIsFieldAt(b, 4 * w, p, off);
    PropSeen(b, offStrings, w, p, off);
  }

  lemma SeesBack(b: seq<byte>, strings: seq<byte>, offStrings: nat, w: nat, t: Token, st: Strings)
    requires PrintedAt(b, strings, w, t, st) && At(b, offStrings, strings)
    ensures See(b, offStrings, 4 * w) == SeenOf(t, 4 * w, 4 * (w + TokenWords(t)))
  {
    hide See, At, IsName, Intern, OffsetOf, StringsOk, Words, Pad, Be32;
    match t
    case Begin(name) =>
      BeginParts(b, 4 * w, name);
      Be32RoundTrip(b, 4 * w, 1);
      BeginSeen(b, offStrings, w, name);
    case Prop(p) =>
      PropSeenBack(b, strings, offStrings, w, p, st);
    case End =>
      EndSeen(b, offStrings, 4 * w);
  }

  lemma EndSeen(b: seq<byte>, offStrings: nat, pos: nat)
    requires At(b, pos, Be32(2))
    ensures See(b, offStrings, pos) == Leave(pos + 4)
  {
    Be32RoundTrip(b, pos, 2);
  }

  ghost predicate Sees(see: nat -> Seen, w: nat, ts: seq<Token>)
    decreases |ts|
  {
    ts != [] ==>
      && see(4 * w) == SeenOf(ts[0], 4 * w, 4 * (w + TokenWords(ts[0])))
      && Sees(see, w + TokenWords(ts[0]), ts[1..])
  }

  lemma SeesOneMore(see: nat -> Seen, w: nat, ts: seq<Token>)
    requires ts != [] && see(4 * w) == SeenOf(ts[0], 4 * w, 4 * (w + TokenWords(ts[0])))
    requires Sees(see, w + TokenWords(ts[0]), ts[1..])
    ensures Sees(see, w, ts)
  {}

  lemma {:induction false} PrintedSees(b: seq<byte>, strings: seq<byte>, offStrings: nat, w: nat, ts: seq<Token>,
                                       st: Strings)
    requires AllPrintedAt(b, strings, w, ts, st) && At(b, offStrings, strings)
    ensures Sees(Eyes(b, offStrings), w, ts)
    decreases |ts|
  {
    if ts == [] {
    } else {
      FirstPrinted(b, strings, w, ts, st);
      SeesBack(b, strings, offStrings, w, ts[0], st);
      PrintedSees(b, strings, offStrings, w + TokenWords(ts[0]), ts[1..], StringsAfter(ts[0], st));
      SeesOneMore(Eyes(b, offStrings), w, ts);
    }
  }

  function Step(s: Scan, w: nat, t: Token): Scan {
    match t
    case Begin(name) => s.(place := Entered(s.place, name))
    case Prop(p) => s.(finds := Found(s.finds, s.place.inMemory, p.name, 4 * w + 12, |p.data|))
    case End => s.(place := Left(s.place))
  }

  function StepAll(s: Scan, w: nat, ts: seq<Token>): Scan
    decreases |ts|
  {
    if ts == [] then s else StepAll(Step(s, w, ts[0]), w + TokenWords(ts[0]), ts[1..])
  }

  lemma {:induction false} ScansTokens(see: nat -> Seen, limit: nat, w: nat, ts: seq<Token>, s: Scan)
    requires Progresses(see, limit) && Sees(see, w, ts)
    ensures ScanFrom(see, limit, 4 * w, s) == ScanFrom(see, limit, 4 * (w + TokensWords(ts)), StepAll(s, w, ts))
    decreases |ts|
  {
    if ts == [] {
    } else {
      ScansTokens(see, limit, w + TokenWords(ts[0]), ts[1..], Step(s, w, ts[0]));
    }
  }

  // ── Which properties the patchers are after, said on the tree ─────────────

  datatype Mark = Mark(reg: bool, start: bool, end: bool)

  const NO_MARK := Mark(false, false, false)

  function MarkOf(inMemory: bool, p: Property): Mark {
    Mark(IsMemoryReg(inMemory, p.name, |p.data|), IsInitrdStart(inMemory, p.name, |p.data|),
      IsInitrdEnd(inMemory, p.name, |p.data|))
  }

  function PropMarks(props: seq<Property>, inMemory: bool): (m: seq<Mark>)
    ensures |m| == |props|
  {
    seq(|props|, i requires 0 <= i < |props| => MarkOf(inMemory, props[i]))
  }

  /** One mark for each token of the node; `inMemory` says whether an ancestor is a memory node. */
  function Marks(n: Node, inMemory: bool): (m: seq<Mark>)
    ensures |m| == |Flatten(n)|
    decreases n, 1
  {
    var inside := inMemory || IsMemoryNode(n.name);
    [NO_MARK] + PropMarks(n.props, inside) + MarksAll(n.children, inside) + [NO_MARK]
  }

  function MarksAll(ns: seq<Node>, inMemory: bool): (m: seq<Mark>)
    ensures |m| == |FlattenAll(ns)|
    decreases ns, 0
  {
    if ns == [] then [] else Marks(ns[0], inMemory) + MarksAll(ns[1..], inMemory)
  }

  /** What is marked: 16-byte `reg` properties inside memory nodes, and 8-byte initrd bounds anywhere. */
  lemma MarksAreSpelled(inMemory: bool, p: Property)
    ensures MarkOf(inMemory, p)
         == Mark(inMemory && p.name == Ascii("reg") && |p.data| == 16,
                 p.name == Ascii("linux,initrd-start") && |p.data| == 8,
                 p.name == Ascii("linux,initrd-end") && |p.data| == 8)
  {
    MemoryIsSpelled(p.name);
    StartIsSpelled();
    EndIsSpelled();
  }

  /** The scan's findings from the marks alone. */
  function GatherOne(f: Finds, w: nat, m: Mark): Finds {
    Finds(if m.reg then 4 * w + 12 else f.reg,
          if m.start then 4 * w + 12 else f.start,
          if m.end then 4 * w + 12 else f.end,
          f.patched + if m.start || m.end then 1 else 0)
  }

  function Gather(f: Finds, w: nat, ts: seq<Token>, ms: seq<Mark>): Finds
    requires |ts| == |ms|
    decreases |ts|
  {
    if ts == [] then f else Gather(GatherOne(f, w, ms[0]), w + TokenWords(ts[0]), ts[1..], ms[1..])
  }

  lemma {:induction false} GatherConcat(f: Finds, w: nat, ts: seq<Token>, ms: seq<Mark>, ts': seq<Token>,
                                        ms': seq<Mark>)
    requires |ts| == |ms| && |ts'| == |ms'|
    ensures Gather(f, w, ts + ts', ms + ms') == Gather(Gather(f, w, ts, ms), w + TokensWords(ts), ts', ms')
    decreases |ts|
  {
    if ts == [] {
      assert ts + ts' == ts' && ms + ms' == ms';
    } else {
      assert (ts + ts')[1..] == ts[1..] + ts' && (ms + ms')[1..] == ms[1..] + ms';
      GatherConcat(GatherOne(f, w, ms[0]), w + TokenWords(ts[0]), ts[1..], ms[1..], ts', ms');
    }
  }

  lemma {:induction false} StepConcat(s: Scan, w: nat, ts: seq<Token>, ts': seq<Token>)
    ensures StepAll(s, w, ts + ts') == StepAll(StepAll(s, w, ts), w + TokensWords(ts), ts')
    decreases |ts|
  {
    if ts == [] {
      assert ts + ts' == ts';
    } else {
      assert (ts + ts')[1..] == ts[1..] + ts';
      StepConcat(Step(s, w, ts[0]), w + TokenWords(ts[0]), ts[1..], ts');
    }
  }

  lemma {:induction false} WordsConcat(ts: seq<Token>, ts': seq<Token>)
    ensures TokensWords(ts + ts') == TokensWords(ts) + TokensWords(ts')
  {
    if ts == [] {
      assert ts + ts' == ts';
    } else {
      assert (ts + ts')[1..] == ts[1..] + ts';
      WordsConcat(ts[1..], ts');
    }
  }

  /** The memory node the scan is in was entered, and not yet left. */
  predicate Sound(p: Place) { p.inMemory ==> p.memoryDepth <= p.depth }

  /** Back at the same place; only the depth of a memory node already left may differ. */
  predicate SamePlace(p: Place, p': Place) {
    p'.depth == p.depth && p'.inMemory == p.inMemory && (p.inMemory ==> p'.memoryDepth == p.memoryDepth)
  }

  lemma {:induction false} StepProps(s: Scan, w: nat, props: seq<Property>)
    ensures StepAll(s, w, PropTokens(props))
            == s.(finds := Gather(s.finds, w, PropTokens(props), PropMarks(props, s.place.inMemory)))
    decreases |props|
  {
    if props == [] {
    } else {
      assert PropTokens(props)[1..] == PropTokens(props[1..]);
      assert PropMarks(props, s.place.inMemory)[1..] == PropMarks(props[1..], s.place.inMemory);
      StepProps(Step(s, w, Prop(props[0])), w + TokenWords(Prop(props[0])), props[1..]);
    }
  }

  /** Scanning a subtree finds exactly its marked properties, in order, and comes
      back to where it was. */
  lemma {:induction false} StepTree(s: Scan, w: nat, n: Node)
    requires Sound(s.place)
    ensures
      var s' := StepAll(s, w, Flatten(n));
      && SamePlace(s.place, s'.place)
      && s'.finds == Gather(s.finds, w, Flatten(n), Marks(n, s.place.inMemory))
    decreases n, 1
  {
    var inside := s.place.inMemory || IsMemoryNode(n.name);
    var w1 := w + TokensWords([Begin(n.name)]);
    var s1 := s.(place := Entered(s.place, n.name));
    StepNode(s, w, n);
    StepProps(s1, w1, n.props);
    StepTrees(StepAll(s1, w1, PropTokens(n.props)), w1 + TokensWords(PropTokens(n.props)), n.children);
    GatherNode(s.finds, w, n, inside);
  }

  lemma StepNode(s: Scan, w: nat, n: Node)
    ensures
      var open, props, kids := [Begin(n.name)], PropTokens(n.props), FlattenAll(n.children);
      var w1 := w + TokensWords(open);
      var s1 := s.(place := Entered(s.place, n.name));
      var s3 := StepAll(StepAll(s1, w1, props), w1 + TokensWords(props), kids);
      StepAll(s, w, Flatten(n)) == s3.(place := Left(s3.place))
  {
    var open, props, kids := [Begin(n.name)], PropTokens(n.props), FlattenAll(n.children);
    assert StepAll(s, w, open) == s.(place := Entered(s.place, n.name)) by { assert open[1..] == []; }
    StepConcat(s, w, open, props);
    StepConcat(s, w, open + props, kids);
    WordsConcat(open, props);
    StepConcat(s, w, open + props + kids, [End]);
    var s3, w3 := StepAll(s, w, open + props + kids), w + TokensWords(open + props + kids);
    assert StepAll(s3, w3, [End]) == Step(s3, w3, End) by { assert [End][1..] == []; }
  }

  lemma GatherNode(f: Finds, w: nat, n: Node, inside: bool)
    ensures
      var open, props, kids := [Begin(n.name)], PropTokens(n.props), FlattenAll(n.children);
      var mp, mk := PropMarks(n.props, inside), MarksAll(n.children, inside);
      var w1 := w + TokensWords(open);
      Gather(f, w, Flatten(n), [NO_MARK] + mp + mk + [NO_MARK])
      == Gather(Gather(f, w1, props, mp), w1 + TokensWords(props), kids, mk)
  {
    var open, props, kids := [Begin(n.name)], PropTokens(n.props), FlattenAll(n.children);
    var mp, mk := PropMarks(n.props, inside), MarksAll(n.children, inside);
    GatherConcat(f, w, open, [NO_MARK], props, mp);
    WordsConcat(open, props);
    GatherConcat(f, w, open + props, [NO_MARK] + mp, kids, mk);
    GatherConcat(f, w, open + props + kids, [NO_MARK] + mp + mk, [End], [NO_MARK]);
    assert Gather(f, w, open, [NO_MARK]) == f by { assert open[1..] == []; }
    var f3, w3 := Gather(f, w, open + props + kids, [NO_MARK] + mp + mk), w + TokensWords(open + props + kids);
    assert Gather(f3, w3, [End], [NO_MARK]) == f3 by { assert [End][1..] == []; }
  }

  lemma {:induction false} StepTrees(s: Scan, w: nat, ns: seq<Node>)
    requires Sound(s.place)
    ensures
      var s' := StepAll(s, w, FlattenAll(ns));
      && SamePlace(s.place, s'.place)
      && s'.finds == Gather(s.finds, w, FlattenAll(ns), MarksAll(ns, s.place.inMemory))
    decreases ns, 0
  {
    if ns == [] {
    } else {
      var t, m := Flatten(ns[0]), Marks(ns[0], s.place.inMemory);
      StepTree(s, w, ns[0]);
      var s' := StepAll(s, w, t);
      StepTrees(s', w + TokensWords(t), ns[1..]);
      StepConcat(s, w, t, FlattenAll(ns[1..]));
      GatherConcat(s.finds, w, t, m, FlattenAll(ns[1..]), MarksAll(ns[1..], s.place.inMemory));
    }
  }

  // ── Replacing one property value ──────────────────────────────────────────

  /** The tree with the property that is its `k`-th token replaced. */
  function SetToken(n: Node, k: nat, p: Property): Node
    decreases n, 1
  {
    if k == 0 then n
    else if k <= |n.props| then n.(props := n.props[k - 1 := p])
    else n.(children := SetAmong(n.children, k - 1 - |n.props|, p))
  }

  function SetAmong(ns: seq<Node>, k: nat, p: Property): seq<Node>
    decreases ns, 0
  {
    if ns == [] then []
    else
      var len := |Flatten(ns[0])|;
      if k < len then [SetToken(ns[0], k, p)] + ns[1..] else [ns[0]] + SetAmong(ns[1..], k - len, p)
  }

  lemma {:induction false} FlattenSetToken(n: Node, k: nat, p: Property)
    requires k < |Flatten(n)| && Flatten(n)[k].Prop?
    ensures Flatten(SetToken(n, k, p)) == Flatten(n)[k := Prop(p)]
    decreases n, 1
  {
    var open, props, kids := [Begin(n.name)], PropTokens(n.props), FlattenAll(n.children);
    assert Flatten(n) == open + props + kids + [End];
    if k <= |n.props| {
      assert PropTokens(n.props[k - 1 := p]) == props[k - 1 := Prop(p)];
    } else {
      assert kids[k - 1 - |n.props|] == Flatten(n)[k];
      FlattenSetAmong(n.children, k - 1 - |n.props|, p);
    }
  }

  lemma {:induction false} FlattenSetAmong(ns: seq<Node>, k: nat, p: Property)
    requires k < |FlattenAll(ns)| && FlattenAll(ns)[k].Prop?
    ensures FlattenAll(SetAmong(ns, k, p)) == FlattenAll(ns)[k := Prop(p)]
    decreases ns, 0
  {
    var len := |Flatten(ns[0])|;
    if k < len {
      FlattenSetToken(ns[0], k, p);
      assert ([SetToken(ns[0], k, p)] + ns[1..])[1..] == ns[1..];
    } else {
      FlattenSetAmong(ns[1..], k - len, p);
      var rest := SetAmong(ns[1..], k - len, p);
      assert ([ns[0]] + rest)[1..] == rest;
    }
  }

  /** The byte at which the data of the `k`-th token stands in the structure block. */
  function DataAt(ts: seq<Token>, k: nat): nat
    requires k < |ts|
  {
    4 * TokensWords(ts[..k]) + 12
  }

  /** Same name and length: the new property fits where the old one stands. */
  predicate Fits(ts: seq<Token>, k: nat, p: Property) {
    k < |ts| && ts[k].Prop? && ts[k].prop.name == p.name && |ts[k].prop.data| == |p.data|
  }

  lemma OverwriteWithin(a: seq<byte>, b: seq<byte>, at: nat, v: seq<byte>)
    ensures at + |v| <= |a| ==> Splice(a + b, at, v) == Splice(a, at, v) + b
    ensures at >= |a| && at - |a| + |v| <= |b| ==> Splice(a + b, at, v) == a + Splice(b, at - |a|, v)
  {}

  lemma EmitReplaced(p: Property, p': Property, st: Strings)
    requires p.name == p'.name && |p.data| == |p'.data|
    ensures 12 + |p'.data| <= |EmitToken(Prop(p), st)|
    ensures EmitToken(Prop(p'), st) == Splice(EmitToken(Prop(p), st), 12, p'.data)
  {
    var h := Be32(3) + Be32(|p.data|) + Be32(OffsetOf(st, p.name));
    assert EmitToken(Prop(p), st) == h + p.data + Pad(|p.data|);
    assert EmitToken(Prop(p'), st) == h + p'.data + Pad(|p.data|);
  }

  /** Replacing a value by one of the same length rewrites only that value's bytes. */
  lemma {:induction false} EmitEdited(ts: seq<Token>, k: nat, p: Property, st: Strings)
    requires Fits(ts, k, p)
    ensures DataAt(ts, k) + |p.data| <= |EmitTokens(ts, st)|
    ensures EmitTokens(ts[k := Prop(p)], st) == Splice(EmitTokens(ts, st), DataAt(ts, k), p.data)
    ensures StringsAfterAll(ts[k := Prop(p)], st) == StringsAfterAll(ts, st)
    decreases k
  {
    if k == 0 {
      EmitEditedFirst(ts, p, st);
    } else {
      EmitEdited(ts[1..], k - 1, p, StringsAfter(ts[0], st));
      EmitEditedLater(ts, k, p, st);
    }
  }

  lemma EmitEditedLater(ts: seq<Token>, k: nat, p: Property, st: Strings)
    requires Fits(ts, k, p) && k > 0
    requires
      var st' := StringsAfter(ts[0], st);
      && DataAt(ts[1..], k - 1) + |p.data| <= |EmitTokens(ts[1..], st')|
      && EmitTokens(ts[1..][k - 1 := Prop(p)], st') == Splice(EmitTokens(ts[1..], st'), DataAt(ts[1..], k - 1), p.data)
    ensures DataAt(ts, k) + |p.data| <= |EmitTokens(ts, st)|
    ensures EmitTokens(ts[k := Prop(p)], st) == Splice(EmitTokens(ts, st), DataAt(ts, k), p.data)
    ensures StringsAfterAll(ts[k := Prop(p)], st) == StringsAfterAll(ts[1..][k - 1 := Prop(p)], StringsAfter(ts[0], st))
  {
    hide EmitToken, TokenWords, StringsAfter, Splice, DataAt, TokensWords;
    var e, rest := EmitToken(ts[0], st), EmitTokens(ts[1..], StringsAfter(ts[0], st));
    var us := ts[k := Prop(p)];
    assert us[1..] == ts[1..][k - 1 := Prop(p)];
    DataAtTail(ts, k);
    EmitSize(ts[0], st);
    assert EmitTokens(ts, st) == e + rest;
    assert EmitTokens(us, st) == e + Splice(rest, DataAt(ts[1..], k - 1), p.data);
    OverwriteWithin(e, rest, |e| + DataAt(ts[1..], k - 1), p.data);
  }

  lemma DataAtTail(ts: seq<Token>, k: nat)
    requires 0 < k < |ts|
    ensures DataAt(ts, k) == 4 * TokenWords(ts[0]) + DataAt(ts[1..], k - 1)
  {
    assert ts[..k][1..] == ts[1..][..k - 1];
  }

  lemma EmitEditedFirst(ts: seq<Token>, p: Property, st: Strings)
    requires Fits(ts, 0, p)
    ensures DataAt(ts, 0) + |p.data| <= |EmitTokens(ts, st)|
    ensures EmitTokens(ts[0 := Prop(p)], st) == Splice(EmitTokens(ts, st), DataAt(ts, 0), p.data)
    ensures StringsAfterAll(ts[0 := Prop(p)], st) == StringsAfterAll(ts, st)
  {
    EmitReplaced(ts[0].prop, p, st);
    assert ts[0 := Prop(p)][1..] == ts[1..] && ts[..0] == [];
    OverwriteWithin(EmitToken(ts[0], st), EmitTokens(ts[1..], StringsAfter(ts[0], st)), 12, p.data);
  }

  lemma BlobEdited(structB: seq<byte>, strings: seq<byte>, at: nat, v: seq<byte>)
    requires at + |v| <= |structB| && Blob(structB, strings).Some?
    ensures STRUCT_OFFSET + at + |v| <= |Blob(structB, strings).value|
    ensures Blob(Splice(structB, at, v), strings) == Some(Splice(Blob(structB, strings).value, STRUCT_OFFSET + at, v))
  {
    var off := STRUCT_OFFSET + Align4(|structB|);
    var front := Header(off + Align4(|strings|), off, |strings|, |structB|) + Zeros(16);
    var pad, back := Pad(|structB|), strings + Pad(|strings|);
    OverwriteInBlocks(front, structB, pad, back, at, v);
  }

  lemma OverwriteInBlocks(front: seq<byte>, a: seq<byte>, pad: seq<byte>, back: seq<byte>, at: nat, v: seq<byte>)
    requires at + |v| <= |a|
    ensures Splice(front + (a + pad) + back, |front| + at, v) == front + (Splice(a, at, v) + pad) + back
  {
    OverwriteWithin(front + (a + pad), back, |front| + at, v);
    OverwriteWithin(front, a + pad, |front| + at, v);
    OverwriteWithin(a, pad, at, v);
  }

  /** The blob that a list of tokens prints to. */
  ghost function PrintTokens(ts: seq<Token>): Option<seq<byte>> {
    Blob(EmitTokens(ts, NO_STRINGS) + Be32(9), StringsAfterAll(ts, NO_STRINGS).data)
  }

  /** Printing an edited tree is overwriting those bytes of the printed tree. */
  lemma PrintEdited(ts: seq<Token>, k: nat, p: Property)
    requires PrintTokens(ts).Some? && Fits(ts, k, p)
    ensures
      var at := STRUCT_OFFSET + DataAt(ts, k);
      && at + |p.data| <= |PrintTokens(ts).value|
      && PrintTokens(ts[k := Prop(p)]) == Some(Splice(PrintTokens(ts).value, at, p.data))
  {
    hide EmitTokens, StringsAfterAll, Splice, Blob;
    EmitEdited(ts, k, p, NO_STRINGS);
    var e, strings := EmitTokens(ts, NO_STRINGS), StringsAfterAll(ts, NO_STRINGS).data;
    OverwriteWithin(e, Be32(9), DataAt(ts, k), p.data);
    BlobEdited(e + Be32(9), strings, DataAt(ts, k), p.data);
  }

  lemma {:induction false} SerializeAs(root: Node, ts: seq<Token>)
    requires Flatten(root) == ts
    ensures Serialize(root) == PrintTokens(ts)
  {}

  /** Two edits at different tokens: the second lands where it would have landed anyway. */
  lemma PrintEditedTwice(ts: seq<Token>, i: nat, p: Property, j: nat, q: Property)
    requires PrintTokens(ts).Some? && Fits(ts, i, p) && Fits(ts, j, q) && i != j
    ensures
      var x, y := STRUCT_OFFSET + DataAt(ts, i), STRUCT_OFFSET + DataAt(ts, j);
      var b := PrintTokens(ts).value;
      && x + |p.data| <= |b| && y + |q.data| <= |b|
      && PrintTokens(ts[i := Prop(p)][j := Prop(q)]) == Some(Splice(Splice(b, x, p.data), y, q.data))
  {
    hide PrintTokens, Splice;
    PrintEdited(ts, i, p);
    WordsAfterEdit(ts, i, p, j);
    PrintEdited(ts[i := Prop(p)], j, q);
  }

  lemma {:induction false} WordsAfterEdit(ts: seq<Token>, i: nat, p: Property, j: nat)
    requires Fits(ts, i, p) && j <= |ts|
    ensures TokensWords(ts[i := Prop(p)][..j]) == TokensWords(ts[..j])
    decreases |ts|
  {
    var us := ts[i := Prop(p)];
    if j > 0 {
      assert us[..j][1..] == us[1..][..j - 1] && ts[..j][1..] == ts[1..][..j - 1];
      if i == 0 {
        assert us[1..] == ts[1..];
      } else {
        assert us[1..] == ts[1..][i - 1 := Prop(p)];
        WordsAfterEdit(ts[1..], i - 1, p, j - 1);
      }
    } else {
      assert us[..j] == [] && ts[..j] == [];
    }
  }

  // ── The last marked property ──────────────────────────────────────────────

  datatype Target = MemoryReg | InitrdStart | InitrdEnd

  predicate Has(m: Mark, t: Target) {
    match t
    case MemoryReg => m.reg
    case InitrdStart => m.start
    case InitrdEnd => m.end
  }

  function FoundAs(f: Finds, t: Target): nat {
    match t
    case MemoryReg => f.reg
    case InitrdStart => f.start
    case InitrdEnd => f.end
  }

  /** `k` is the last token marked as `t`. */
  ghost predicate IsLast(ms: seq<Mark>, t: Target, k: nat) {
    k < |ms| && Has(ms[k], t) && forall j :: k < j < |ms| ==> !Has(ms[j], t)
  }

  ghost predicate Never(ms: seq<Mark>, t: Target) {
    forall j :: 0 <= j < |ms| ==> !Has(ms[j], t)
  }

  lemma {:induction false} GatherFinds(f: Finds, w: nat, ts: seq<Token>, ms: seq<Mark>, t: Target)
    requires |ts| == |ms|
    ensures Never(ms, t) ==> FoundAs(Gather(f, w, ts, ms), t) == FoundAs(f, t)
    ensures forall k :: IsLast(ms, t, k) ==> FoundAs(Gather(f, w, ts, ms), t) == 4 * w + DataAt(ts, k)
    decreases |ts|
  {
    if ts == [] {
    } else {
      GatherFinds(GatherOne(f, w, ms[0]), w + TokenWords(ts[0]), ts[1..], ms[1..], t);
      LastInTail(ts, ms, t);
    }
  }

  lemma LastInTail(ts: seq<Token>, ms: seq<Mark>, t: Target)
    requires ts != [] && |ts| == |ms|
    ensures IsLast(ms, t, 0) ==> Never(ms[1..], t) && DataAt(ts, 0) == 12
    ensures forall k :: 0 < k && IsLast(ms, t, k) ==>
      IsLast(ms[1..], t, k - 1) && DataAt(ts, k) == 4 * TokenWords(ts[0]) + DataAt(ts[1..], k - 1)
    ensures Never(ms, t) ==> Never(ms[1..], t) && !Has(ms[0], t)
  {
    assert ts[..0] == [];
    forall k | 0 < k && IsLast(ms, t, k)
      ensures IsLast(ms[1..], t, k - 1) && DataAt(ts, k) == 4 * TokenWords(ts[0]) + DataAt(ts[1..], k - 1)
    {
      DataAtTail(ts, k);
    }
  }

  /** How many initrd candidates there are. */
  function Candidates(ms: seq<Mark>): nat {
    if ms == [] then 0 else (if ms[0].start || ms[0].end then 1 else 0) + Candidates(ms[1..])
  }

  lemma {:induction false} NoCandidates(ms: seq<Mark>)
    requires Never(ms, InitrdStart) && Never(ms, InitrdEnd)
    ensures Candidates(ms) == 0
    decreases |ms|
  {
    if ms == [] {
    } else {
      assert !Has(ms[0], InitrdStart) && !Has(ms[0], InitrdEnd);
      NoCandidates(ms[1..]);
    }
  }

  lemma {:induction false} GatherCounts(f: Finds, w: nat, ts: seq<Token>, ms: seq<Mark>)
    requires |ts| == |ms|
    ensures Gather(f, w, ts, ms).patched == f.patched + Candidates(ms)
    decreases |ts|
  {
    if ts == [] {
    } else {
      GatherCounts(GatherOne(f, w, ms[0]), w + TokenWords(ts[0]), ts[1..], ms[1..]);
    }
  }

  // ── Patching commutes with printing ───────────────────────────────────────

  /** Scanning a printed tree finds what the marks say. */
  lemma {:induction false} ScanOfPrinted(root: Node, data: seq<byte>)
    requires WellNamed(root) && Serialize(root) == Some(data)
    ensures ScanBlob(data).Finished?
    ensures ScanBlob(data).scan.finds == Gather(BEGIN_SCAN.finds, STRUCT_WORD, Flatten(root), Marks(root, false))
  {
    hide Serialize, Flatten, EmitTokens, StructBlock, StringsBlock, ScanBlob, Marks, Gather, StepAll, TokensWords;
    BlobLayout(root, data);
    BlobIsPrinted(root, data);
    PrintedSees(data, StringsBlock(root), StringsOffset(root), STRUCT_WORD, Flatten(root), NO_STRINGS);
    ScanOfTokens(data, StringsOffset(root), Flatten(root));
    StepTree(BEGIN_SCAN, STRUCT_WORD, root);
  }

  lemma ScanOfTokens(data: seq<byte>, off: nat, ts: seq<Token>)
    requires IsTree(data) && ReadBe32(data, 8) == STRUCT_OFFSET && ReadBe32(data, 12) == off
    requires Sees(Eyes(data, off), STRUCT_WORD, ts) && At(data, 4 * (STRUCT_WORD + TokensWords(ts)), Be32(9))
    ensures ScanBlob(data) == Finished(StepAll(BEGIN_SCAN, STRUCT_WORD, ts))
  {
    hide Sees, StepAll, TokensWords;
    ScansTokens(Eyes(data, off), |data|, STRUCT_WORD, ts, BEGIN_SCAN);
    Be32RoundTrip(data, 4 * (STRUCT_WORD + TokensWords(ts)), 9);
  }

  /** The property a target's mark stands for. */
  function Shape(t: Target): (Name, nat) {
    match t
    case MemoryReg => (REG, 16)
    case InitrdStart => (INITRD_START, 8)
    case InitrdEnd => (INITRD_END, 8)
  }

  /** A marked token is a property with the target's name and length. */
  lemma {:induction false} MarkedToken(n: Node, inMemory: bool, t: Target, k: nat)
    requires k < |Flatten(n)| && Has(Marks(n, inMemory)[k], t)
    ensures Flatten(n)[k].Prop? && (Flatten(n)[k].prop.name, |Flatten(n)[k].prop.data|) == Shape(t)
    decreases n, 1
  {
    var inside := inMemory || IsMemoryNode(n.name);
    var ts, ms := Flatten(n), Marks(n, inMemory);
    var first := 1 + |n.props|;
    if 1 <= k < first {
      assert ts[k] == Prop(n.props[k - 1]) && ms[k] == MarkOf(inside, n.props[k - 1]);
    } else {
      assert 1 <= k < |ts| - 1;
      assert ts[k] == FlattenAll(n.children)[k - first] && ms[k] == MarksAll(n.children, inside)[k - first];
      MarkedTokenAmong(n.children, inside, t, k - first);
    }
  }

  lemma {:induction false} MarkedTokenAmong(ns: seq<Node>, inMemory: bool, t: Target, k: nat)
    requires k < |FlattenAll(ns)| && Has(MarksAll(ns, inMemory)[k], t)
    ensures FlattenAll(ns)[k].Prop? && (FlattenAll(ns)[k].prop.name, |FlattenAll(ns)[k].prop.data|) == Shape(t)
    decreases ns, 0
  {
    var len := |Flatten(ns[0])|;
    if k < len {
      MarkedToken(ns[0], inMemory, t, k);
    } else {
      MarkedTokenAmong(ns[1..], inMemory, t, k - len);
    }
  }

  function Retargeted(root: Node, t: Target, k: nat, v: seq<byte>): Node {
    SetToken(root, k, Property(Shape(t).0, v))
  }

  /** The scan reports a target's last property, and a new value fits in its place. */
  lemma {:induction false} TargetFound(root: Node, data: seq<byte>, t: Target, k: nat, v: seq<byte>)
    requires WellNamed(root) && Serialize(root) == Some(data)
    requires IsLast(Marks(root, false), t, k) && |v| == Shape(t).1
    ensures Fits(Flatten(root), k, Property(Shape(t).0, v))
    ensures ScanBlob(data).Finished?
    ensures FoundAs(ScanBlob(data).scan.finds, t) == STRUCT_OFFSET + DataAt(Flatten(root), k)
  {
    ScanOfPrinted(root, data);
    GatherFinds(BEGIN_SCAN.finds, STRUCT_WORD, Flatten(root), Marks(root, false), t);
    MarkedToken(root, false, t, k);
  }

  /** Overwriting at the place a scan reports for a target is printing the tree with
      the target's last property replaced. */
  lemma {:induction false} OverwriteTarget(root: Node, data: seq<byte>, t: Target, k: nat, v: seq<byte>)
    requires WellNamed(root) && Serialize(root) == Some(data)
    requires IsLast(Marks(root, false), t, k) && |v| == Shape(t).1
    ensures ScanBlob(data).Finished?
    ensures
      var at := FoundAs(ScanBlob(data).scan.finds, t);
      0 < at && at + |v| <= |data| && Serialize(Retargeted(root, t, k, v)) == Some(Splice(data, at, v))
  {
    hide Serialize, PrintTokens, Flatten, Marks, ScanBlob, SetToken, DataAt, Splice, WellNamed;
    var p, ts := Property(Shape(t).0, v), Flatten(root);
    TargetFound(root, data, t, k, v);
    SerializeAs(root, ts);
    PrintEdited(ts, k, p);
    FlattenSetToken(root, k, p);
    SerializeAs(SetToken(root, k, p), ts[k := Prop(p)]);
  }

  lemma {:induction false} NoTarget(root: Node, data: seq<byte>, t: Target)
    requires WellNamed(root) && Serialize(root) == Some(data) && Never(Marks(root, false), t)
    ensures ScanBlob(data).Finished? && FoundAs(ScanBlob(data).scan.finds, t) == 0
  {
    ScanOfPrinted(root, data);
    GatherFinds(BEGIN_SCAN.finds, STRUCT_WORD, Flatten(root), Marks(root, false), t);
  }

  lemma {:induction false} CandidatesCounted(root: Node, data: seq<byte>)
    requires WellNamed(root) && Serialize(root) == Some(data)
    ensures ScanBlob(data).Finished? && ScanBlob(data).scan.finds.patched == Candidates(Marks(root, false))
  {
    ScanOfPrinted(root, data);
    GatherCounts(BEGIN_SCAN.finds, STRUCT_WORD, Flatten(root), Marks(root, false));
  }

  /** Patching the printed tree is printing the tree whose last 16-byte `reg` inside a
      memory node has been replaced; no other byte changes. */
  lemma {:induction false} PatchMemoryCommutes(root: Node, data: seq<byte>, base: u64, size: u64, k: nat)
    requires WellNamed(root) && Serialize(root) == Some(data)
    requires IsLast(Marks(root, false), MemoryReg, k)
    ensures
      var root' := Retargeted(root, MemoryReg, k, Be64(base) + Be64(size));
      Serialize(root').Some? && PatchMemory(data, base, size) == Done(true, Serialize(root').value)
  {
    OverwriteTarget(root, data, MemoryReg, k, Be64(base) + Be64(size));
  }

  /** Without such a property the patcher refuses, and the blob stays as it is. */
  lemma {:induction false} PatchMemoryRefuses(root: Node, data: seq<byte>, base: u64, size: u64)
    requires WellNamed(root) && Serialize(root) == Some(data) && Never(Marks(root, false), MemoryReg)
    ensures PatchMemory(data, base, size) == Done(false, data)
  {
    NoTarget(root, data, MemoryReg);
  }

  /** Writing both initrd values where the scan found them. */
  lemma WriteBoth(data: seq<byte>, s: Scan, start: u64, end: u64)
    requires ScanBlob(data) == Finished(s) && s.finds.start > 0 && s.finds.end > 0
    requires s.finds.start + 8 <= |data| && s.finds.end + 8 <= |data|
    ensures PatchInitrd(data, start, end)
      == Done(s.finds.patched == 2, Splice(Splice(data, s.finds.start, Be64(start)), s.finds.end, Be64(end)))
  {}

  lemma WriteStart(data: seq<byte>, s: Scan, start: u64, end: u64)
    requires ScanBlob(data) == Finished(s) && s.finds.start > 0 && s.finds.end == 0
    requires s.finds.start + 8 <= |data|
    ensures PatchInitrd(data, start, end) == Done(s.finds.patched == 2, Splice(data, s.finds.start, Be64(start)))
  {}

  /** Patching the initrd of a printed tree is printing the tree with its last start and
      its last end replaced; it answers true exactly if there are two candidates in all. */
  lemma {:induction false} PatchInitrdCommutes(root: Node, data: seq<byte>, start: u64, end: u64, i: nat, j: nat)
    requires WellNamed(root) && Serialize(root) == Some(data)
    requires IsLast(Marks(root, false), InitrdStart, i) && IsLast(Marks(root, false), InitrdEnd, j)
    ensures
      var root' := SetToken(Retargeted(root, InitrdStart, i, Be64(start)), j, Property(INITRD_END, Be64(end)));
      && Serialize(root').Some?
      && PatchInitrd(data, start, end) == Done(Candidates(Marks(root, false)) == 2, Serialize(root').value)
  {
    hide Serialize, PrintTokens, Flatten, Marks, ScanBlob, SetToken, DataAt, Splice, WellNamed, Candidates, PatchInitrd;
    var p, q := Property(INITRD_START, Be64(start)), Property(INITRD_END, Be64(end));
    TargetFound(root, data, InitrdStart, i, Be64(start));
    TargetFound(root, data, InitrdEnd, j, Be64(end));
    assert i != j;
    var ts := Flatten(root);
    SerializeAs(root, ts);
    PrintEditedTwice(ts, i, p, j, q);
    FlattenSetToken(root, i, p);
    FlattenSetToken(SetToken(root, i, p), j, q);
    SerializeAs(SetToken(SetToken(root, i, p), j, q), ts[i := Prop(p)][j := Prop(q)]);
    CandidatesCounted(root, data);
    WriteBoth(data, ScanBlob(data).scan, start, end);
  }

  /** With a start but no end the start is rewritten all the same, although the answer
      is then false unless there were two starts. */
  lemma {:induction false} HalfInitrdIsStillPatched(root: Node, data: seq<byte>, start: u64, end: u64, i: nat)
    requires WellNamed(root) && Serialize(root) == Some(data)
    requires IsLast(Marks(root, false), InitrdStart, i) && Never(Marks(root, false), InitrdEnd)
    ensures
      var root' := Retargeted(root, InitrdStart, i, Be64(start));
      && Serialize(root').Some?
      && PatchInitrd(data, start, end) == Done(Candidates(Marks(root, false)) == 2, Serialize(root').value)
  {
    OverwriteTarget(root, data, InitrdStart, i, Be64(start));
    NoTarget(root, data, InitrdEnd);
    CandidatesCounted(root, data);
    WriteStart(data, ScanBlob(data).scan, start, end);
  }

  lemma WriteEnd(data: seq<byte>, s: Scan, start: u64, end: u64)
    requires ScanBlob(data) == Finished(s) && s.finds.start == 0 && s.finds.end > 0
    requires s.finds.end + 8 <= |data|
    ensures PatchInitrd(data, start, end) == Done(s.finds.patched == 2, Splice(data, s.finds.end, Be64(end)))
  {}

  /** The same with an end but no start. */
  lemma {:induction false} LoneEndIsStillPatched(root: Node, data: seq<byte>, start: u64, end: u64, j: nat)
    requires WellNamed(root) && Serialize(root) == Some(data)
    requires Never(Marks(root, false), InitrdStart) && IsLast(Marks(root, false), InitrdEnd, j)
    ensures
      var root' := Retargeted(root, InitrdEnd, j, Be64(end));
      && Serialize(root').Some?
      && PatchInitrd(data, start, end) == Done(Candidates(Marks(root, false)) == 2, Serialize(root').value)
  {
    OverwriteTarget(root, data, InitrdEnd, j, Be64(end));
    NoTarget(root, data, InitrdStart);
    CandidatesCounted(root, data);
    WriteEnd(data, ScanBlob(data).scan, start, end);
  }

  /** With neither the patcher refuses, and the blob stays as it is. */
  lemma {:induction false} PatchInitrdRefuses(root: Node, data: seq<byte>, start: u64, end: u64)
    requires WellNamed(root) && Serialize(root) == Some(data)
    requires Never(Marks(root, false), InitrdStart) && Never(Marks(root, false), InitrdEnd)
    ensures PatchInitrd(data, start, end) == Done(false, data)
  {
    NoTarget(root, data, InitrdStart);
    NoTarget(root, data, InitrdEnd);
    CandidatesCounted(root, data);
    NoCandidates(Marks(root, false));
  }

  // ── When an answer of false is not the whole truth ────────────────────────

  /** `patch_initrd` answers false and has changed the blob. */
  ghost predicate FalseButWritten(b: seq<byte>, start: u64, end: u64) {
    PatchInitrd(b, start, end).Done? && !PatchInitrd(b, start, end).ok && PatchInitrd(b, start, end).blob != b
  }

  lemma {:induction false} LastOne(ms: seq<Mark>, t: Target) returns (k: nat)
    requires !Never(ms, t)
    ensures IsLast(ms, t, k)
    decreases |ms|
  {
    var n := |ms| - 1;
    if Has(ms[n], t) {
      k := n;
    } else {
      k := LastOne(ms[..n], t);
    }
  }

  lemma {:induction false} TargetInBlob(root: Node, data: seq<byte>, t: Target)
    requires WellNamed(root) && Serialize(root) == Some(data)
    ensures ScanBlob(data).Finished?
    ensures var at := FoundAs(ScanBlob(data).scan.finds, t);
      (at == 0 <==> Never(Marks(root, false), t)) && at + (if at == 0 then 0 else Shape(t).1) <= |data|
  {
    hide Serialize, Flatten, Marks, ScanBlob, SetToken, Splice, WellNamed, IsLast, Never;
    if Never(Marks(root, false), t) {
      NoTarget(root, data, t);
    } else {
      var k := LastOne(Marks(root, false), t);
      OverwriteTarget(root, data, t, k, Zeros(Shape(t).1));
    }
  }

  /** Of two different values one is new wherever it is written. */
  lemma OneIsNew(data: seq<byte>, s: Scan)
    requires ScanBlob(data) == Finished(s) && (s.finds.start != 0 || s.finds.end != 0)
    requires s.finds.start != 0 ==> s.finds.start + 8 <= |data|
    requires s.finds.end != 0 ==> s.finds.end + 8 <= |data|
    ensures PatchInitrd(data, 0, 0).Done? && PatchInitrd(data, 1, 1).Done?
    ensures PatchInitrd(data, 0, 0).blob != data || PatchInitrd(data, 1, 1).blob != data
  {
    hide ScanBlob, Be64;
    var at := if s.finds.end != 0 then s.finds.end else s.finds.start;
    var b0, b1 := PatchInitrd(data, 0, 0).blob, PatchInitrd(data, 1, 1).blob;
    assert b0[at..at + 8] == Be64(0) && b1[at..at + 8] == Be64(1);
    Different();
  }

  lemma Different()
    ensures Be64(0) != Be64(1)
  {
    assert Be(1, 8)[7] == 1 && Be(0, 8)[7] == 0;
  }

  /** On printed trees `patch_initrd` can answer false with the blob changed exactly when there are
      candidates but not two of them. */
  lemma {:induction false} FalseButWrittenExactly(root: Node, data: seq<byte>)
    requires WellNamed(root) && Serialize(root) == Some(data)
    ensures (exists start, end :: FalseButWritten(data, start, end))
       <==> Candidates(Marks(root, false)) != 0 && Candidates(Marks(root, false)) != 2
  {
    hide Serialize, Marks, ScanBlob, WellNamed, Never, Candidates;
    CandidatesCounted(root, data);
    TargetInBlob(root, data, InitrdStart);
    TargetInBlob(root, data, InitrdEnd);
    var s := ScanBlob(data).scan;
    if s.finds.start == 0 && s.finds.end == 0 {
      NoCandidates(Marks(root, false));
    } else {
      SomeCandidate(Marks(root, false));
      OneIsNew(data, s);
      hide Splice, Be64;
      if s.finds.patched != 2 {
        assert FalseButWritten(data, 0, 0) || FalseButWritten(data, 1, 1);
      }
    }
  }

  lemma {:induction false} SomeCandidate(ms: seq<Mark>)
    requires !Never(ms, InitrdStart) || !Never(ms, InitrdEnd)
    ensures Candidates(ms) > 0
    decreases |ms|
  {
    if ms[0].start || ms[0].end {
    } else {
      SomeCandidate(ms[1..]);
    }
  }
}
