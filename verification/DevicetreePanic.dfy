/**
 * When the patchers panic: exactly on blobs whose token walk gets to a property that does not fit, told
 * from the last token the walk reaches.
 */
module DevicetreePanic {
  import opened Bytes
  import opened Devicetree
  import opened DevicetreeParser
  import opened DevicetreePatch

  /** Where the token after the one at `pos` stands; nowhere after an end mark, an unknown token or a
      property whose header is cut off. */
  function NextToken(b: seq<byte>, pos: nat): (next: Option<nat>)
    requires pos + 4 <= |b|
    ensures next.Some? ==> next.value >= pos + 4
  {
    match ReadBe32(b, pos)
    case 1 => Some(Align4(NulFrom(b, pos + 4) + 1))
    case 2 => Some(pos + 4)
    case 4 => Some(pos + 4)
    case 3 => if pos + 12 > |b| then None else Some(Align4(pos + 12 + ReadBe32(b, pos + 4)))
    case _ => None
  }

  /** The positions of the tokens a walk from `pos` reaches, in order. */
  function Reached(b: seq<byte>, pos: nat): seq<nat>
    decreases |b| - pos
  {
    if pos + 4 > |b| then []
    else
      match NextToken(b, pos)
      case None => [pos]
      case Some(next) => [pos] + Reached(b, next)
  }

  function Moved(b: seq<byte>, pos: nat, p: Place): Place {
    if pos + 4 > |b| then p
    else
      match ReadBe32(b, pos)
      case 1 => Entered(p, b[pos + 4..NulFrom(b, pos + 4)])
      case 2 => Left(p)
      case _ => p
  }

  /** Where a walk is when it gets to the last of the positions. */
  function PlaceAtLast(b: seq<byte>, ps: seq<nat>, p: Place): Place {
    if |ps| <= 1 then p else PlaceAtLast(b, ps[1..], Moved(b, ps[0], p))
  }

  /** A property whose header does not fit into the blob. */
  predicate CutOff(b: seq<byte>, pos: nat) { pos + 4 <= |b| < pos + 12 && ReadBe32(b, pos) == 3 }

  /** A property of that name and length whose value does not fit into the blob. */
  predicate Overruns(b: seq<byte>, offStrings: nat, pos: nat, name: Name, len: nat) {
    && pos + 12 <= |b| < pos + 12 + len && ReadBe32(b, pos) == 3 && ReadBe32(b, pos + 4) == len
    && NameAt(b, offStrings, ReadBe32(b, pos + 8)) == name
  }

  /** A place found in the blob holds a value of `n` bytes there. */
  predicate Holds(b: seq<byte>, at: nat, n: nat) { at == 0 || at + n <= |b| }

  predicate AllHold(b: seq<byte>, f: Finds) { Holds(b, f.reg, 16) && Holds(b, f.start, 8) && Holds(b, f.end, 8) }

  /** How a scan from `pos` ends, told from the last token it reaches. */
  ghost predicate EndsAt(b: seq<byte>, offStrings: nat, r: Scanned, ps: seq<nat>, p: Place) {
    if ps == [] then r.Finished? && AllHold(b, r.scan.finds)
    else
      var last := ps[|ps| - 1];
      && (r.Crashed? <==> CutOff(b, last))
      && (r.Refused? ==> last + 4 <= |b| && ReadBe32(b, last) != 3)
      && (r.Finished? ==>
            && (Holds(b, r.scan.finds.reg, 16)
                <==> !(PlaceAtLast(b, ps, p).inMemory && Overruns(b, offStrings, last, REG, 16)))
            && (Holds(b, r.scan.finds.start, 8) <==> !Overruns(b, offStrings, last, INITRD_START, 8))
            && (Holds(b, r.scan.finds.end, 8) <==> !Overruns(b, offStrings, last, INITRD_END, 8)))
  }

  /** What a property leaves found holds if and only if its value is all there. */
  lemma FoundHolds(b: seq<byte>, offStrings: nat, pos: nat, f: Finds, inMemory: bool)
    requires AllHold(b, f) && pos + 12 <= |b| && ReadBe32(b, pos) == 3
    ensures var name, len: nat := NameAt(b, offStrings, ReadBe32(b, pos + 8)), ReadBe32(b, pos + 4);
      var f' := Found(f, inMemory, name, pos + 12, len);
      && (Holds(b, f'.reg, 16) <==> !(inMemory && Overruns(b, offStrings, pos, REG, 16)))
      && (Holds(b, f'.start, 8) <==> !Overruns(b, offStrings, pos, INITRD_START, 8))
      && (Holds(b, f'.end, 8) <==> !Overruns(b, offStrings, pos, INITRD_END, 8))
      && (pos + 12 + len <= |b| ==> AllHold(b, f'))
  {
    hide ReadBe32, NameAt;
  }

  /** One token and then the rest. */
  lemma EndsLater(b: seq<byte>, offStrings: nat, r: Scanned, pos: nat, ps: seq<nat>, p: Place)
    requires ps != [] && EndsAt(b, offStrings, r, ps, Moved(b, pos, p))
    ensures EndsAt(b, offStrings, r, [pos] + ps, p)
  {
    hide ReadBe32, CutOff, Overruns, Holds, Moved;
    var all := [pos] + ps;
    assert all[1..] == ps && all[|all| - 1] == ps[|ps| - 1];
  }

  /** What the patchers see at a position is the token there. */
  lemma SeenToken(b: seq<byte>, offStrings: nat, pos: nat)
    requires pos + 4 <= |b|
    ensures var seen := Eyes(b, offStrings)(pos);
      match ReadBe32(b, pos)
      case 1 => seen == Enter(b[pos + 4..NulFrom(b, pos + 4)], Align4(NulFrom(b, pos + 4) + 1))
      case 2 => seen == Leave(pos + 4)
      case 4 => seen == Nop(pos + 4)
      case 3 =>
        if pos + 12 > |b| then seen == Crash
        else
          var len: nat := ReadBe32(b, pos + 4);
          seen == Value(NameAt(b, offStrings, ReadBe32(b, pos + 8)), pos + 12, len, Align4(pos + 12 + len))
      case 9 => seen == Past
      case _ => seen == Unknown
  {
    hide ReadBe32, NameAt, NulFrom, Align4;
  }

  /** A token after which nothing is reached. */
  lemma StopsHere(b: seq<byte>, offStrings: nat, r: Scanned, pos: nat, p: Place)
    requires pos + 4 <= |b| && (r.Crashed? <==> CutOff(b, pos)) && (r.Refused? ==> ReadBe32(b, pos) != 3)
    requires r.Finished? ==> ReadBe32(b, pos) != 3 && AllHold(b, r.scan.finds)
    ensures EndsAt(b, offStrings, r, [pos], p)
  {
    hide ReadBe32, NameAt;
  }

  /** A token from which the scan goes on, with what it has found so far. */
  lemma GoesOn(b: seq<byte>, offStrings: nat, pos: nat, next: nat, s: Scan, s': Scan)
    requires pos + 4 <= |b| && NextToken(b, pos) == Some(next) && ReadBe32(b, pos) != 3
    requires AllHold(b, s'.finds) && s'.place == Moved(b, pos, s.place)
    requires EndsAt(b, offStrings, ScanFrom(Eyes(b, offStrings), |b|, next, s'), Reached(b, next), s'.place)
    ensures EndsAt(b, offStrings, ScanFrom(Eyes(b, offStrings), |b|, next, s'), Reached(b, pos), s.place)
  {
    hide ReadBe32, NextToken, Moved, Eyes, ScanFrom, EndsAt, AllHold, CutOff;
    var r, ps := ScanFrom(Eyes(b, offStrings), |b|, next, s'), Reached(b, next);
    assert Reached(b, pos) == [pos] + ps;
    if ps == [] {
      assert [pos] + ps == [pos];
      FinishedThere(b, offStrings, r, s'.place);
      assert !CutOff(b, pos) by { NotCutOff(b, pos); }
      StopsHere(b, offStrings, r, pos, s.place);
    } else {
      EndsLater(b, offStrings, r, pos, ps, s.place);
    }
  }

  lemma FinishedThere(b: seq<byte>, offStrings: nat, r: Scanned, p: Place)
    requires EndsAt(b, offStrings, r, [], p)
    ensures r.Finished? && AllHold(b, r.scan.finds)
  {}

  lemma NotCutOff(b: seq<byte>, pos: nat)
    requires pos + 4 <= |b| && ReadBe32(b, pos) != 3
    ensures !CutOff(b, pos)
  {}

  /** A property that is all header: its value may still not fit, and then it is the last token. */
  lemma PropertyGoesOn(b: seq<byte>, offStrings: nat, pos: nat, s: Scan)
    requires AllHold(b, s.finds) && pos + 12 <= |b| && ReadBe32(b, pos) == 3
    requires var name, len: nat := NameAt(b, offStrings, ReadBe32(b, pos + 8)), ReadBe32(b, pos + 4);
      var (s', next) := (s.(finds := Found(s.finds, s.place.inMemory, name, pos + 12, len)), Align4(pos + 12 + len));
      AllHold(b, s'.finds) ==>
        EndsAt(b, offStrings, ScanFrom(Eyes(b, offStrings), |b|, next, s'), Reached(b, next), s'.place)
    ensures EndsAt(b, offStrings, ScanFrom(Eyes(b, offStrings), |b|, pos, s), Reached(b, pos), s.place)
  {
    hide ReadBe32, NameAt, NulFrom, See, Eyes, Found, Overruns, AllHold, EndsAt;
    var name, len: nat := NameAt(b, offStrings, ReadBe32(b, pos + 8)), ReadBe32(b, pos + 4);
    var s' := s.(finds := Found(s.finds, s.place.inMemory, name, pos + 12, len));
    var next := Align4(pos + 12 + len);
    SeenToken(b, offStrings, pos);
    FoundHolds(b, offStrings, pos, s.finds, s.place.inMemory);
    var r := ScanFrom(Eyes(b, offStrings), |b|, next, s');
    if next + 4 > |b| {
      PastTheEnd(b, offStrings, next, s');
      assert Reached(b, next) == [] && Reached(b, pos) == [pos];
      LastProperty(b, offStrings, pos, s', s.place);
    } else {
      EndsLater(b, offStrings, r, pos, Reached(b, next), s.place);
    }
  }

  lemma PastTheEnd(b: seq<byte>, offStrings: nat, pos: nat, s: Scan)
    requires pos + 4 > |b|
    ensures ScanFrom(Eyes(b, offStrings), |b|, pos, s) == Finished(s)
  {}

  lemma LastProperty(b: seq<byte>, offStrings: nat, pos: nat, s: Scan, p: Place)
    requires pos + 12 <= |b| && ReadBe32(b, pos) == 3
    requires
      && (Holds(b, s.finds.reg, 16) <==> !(p.inMemory && Overruns(b, offStrings, pos, REG, 16)))
      && (Holds(b, s.finds.start, 8) <==> !Overruns(b, offStrings, pos, INITRD_START, 8))
      && (Holds(b, s.finds.end, 8) <==> !Overruns(b, offStrings, pos, INITRD_END, 8))
    ensures EndsAt(b, offStrings, Finished(s), [pos], p)
  {
    hide ReadBe32, NameAt, Overruns, Holds;
  }

  /** How every scan ends. */
  lemma {:induction false} ScanEnds(b: seq<byte>, offStrings: nat, pos: nat, s: Scan)
    requires AllHold(b, s.finds)
    ensures EndsAt(b, offStrings, ScanFrom(Eyes(b, offStrings), |b|, pos, s), Reached(b, pos), s.place)
    decreases |b| - pos
  {
    if pos + 4 > |b| {
      PastTheEnd(b, offStrings, pos, s);
    } else {
      hide ReadBe32, NameAt, NulFrom, See, Eyes, Found, Entered, Left, EndsAt, AllHold, Align4;
      SeenToken(b, offStrings, pos);
      NotCutOffUnless(b, pos);
      match Eyes(b, offStrings)(pos)
      case Past => StopsHere(b, offStrings, Finished(s), pos, s.place);
      case Unknown => StopsHere(b, offStrings, Refused, pos, s.place);
      case Crash => StopsHere(b, offStrings, Crashed, pos, s.place);
      case Nop(next) =>
        ScanEnds(b, offStrings, next, s);
        GoesOn(b, offStrings, pos, next, s, s);
      case Enter(name, next) =>
        var s' := s.(place := Entered(s.place, name));
        ScanEnds(b, offStrings, next, s');
        GoesOn(b, offStrings, pos, next, s, s');
      case Leave(next) =>
        var s' := s.(place := Left(s.place));
        ScanEnds(b, offStrings, next, s');
        GoesOn(b, offStrings, pos, next, s, s');
      case Value(name, at, len, next) =>
        var s' := s.(finds := Found(s.finds, s.place.inMemory, name, at, len));
        if AllHold(b, s'.finds) {
          ScanEnds(b, offStrings, next, s');
        }
        PropertyGoesOn(b, offStrings, pos, s);
    }
  }

  lemma NotCutOffUnless(b: seq<byte>, pos: nat)
    requires pos + 4 <= |b|
    ensures CutOff(b, pos) <==> ReadBe32(b, pos) == 3 && |b| < pos + 12
  {}

  // ── The exact conditions ──────────────────────────────────────────────────

  /** The tokens a patcher reaches in a blob that passes the checks at the top. */
  function TokensOf(b: seq<byte>): seq<nat>
    requires IsTree(b)
  {
    Reached(b, ReadBe32(b, 8))
  }

  /** The last token is a property with half a header, or a 16-byte memory `reg` with half a value. */
  ghost predicate MemoryPanics(b: seq<byte>) {
    && IsTree(b) && TokensOf(b) != []
    && var (ps, offStrings: nat) := (TokensOf(b), ReadBe32(b, 12));
      var last := ps[|ps| - 1];
      || CutOff(b, last)
      || (PlaceAtLast(b, ps, BEGIN_SCAN.place).inMemory && Overruns(b, offStrings, last, REG, 16))
  }

  /** The last token is a property with half a header, or an 8-byte initrd start or end with half a value. */
  ghost predicate InitrdPanics(b: seq<byte>) {
    && IsTree(b) && TokensOf(b) != []
    && var (ps, offStrings: nat) := (TokensOf(b), ReadBe32(b, 12));
      var last := ps[|ps| - 1];
      || CutOff(b, last)
      || Overruns(b, offStrings, last, INITRD_START, 8) || Overruns(b, offStrings, last, INITRD_END, 8)
  }

  lemma BlobEnds(b: seq<byte>)
    requires IsTree(b)
    ensures EndsAt(b, ReadBe32(b, 12), ScanBlob(b), TokensOf(b), BEGIN_SCAN.place)
  {
    hide ReadBe32, Reached, ScanFrom, EndsAt;
    ScanEnds(b, ReadBe32(b, 12), ReadBe32(b, 8), BEGIN_SCAN);
  }

  /** For every blob: when `patch_memory` panics. In all other cases it answers, and false changes nothing. */
  lemma MemoryPanicsExactly(b: seq<byte>, base: u64, size: u64)
    ensures PatchMemory(b, base, size).Panic? <==> MemoryPanics(b)
    ensures !PatchMemory(b, base, size).Panic? && !PatchMemory(b, base, size).ok
      ==> PatchMemory(b, base, size).blob == b
  {
    hide ReadBe32, Reached, CutOff, PlaceAtLast, ScanFrom, Be64, NameAt;
    if IsTree(b) {
      BlobEnds(b);
    }
  }

  /** For every blob: when `patch_initrd` panics. */
  lemma InitrdPanicsExactly(b: seq<byte>, start: u64, end: u64)
    ensures PatchInitrd(b, start, end).Panic? <==> InitrdPanics(b)
  {
    hide ReadBe32, Reached, CutOff, PlaceAtLast, ScanFrom, Be64, NameAt;
    if IsTree(b) {
      BlobEnds(b);
    }
  }

  /** A header that does not fit is always the last token reached, wherever it stands. */
  lemma {:induction false} CutOffIsLast(b: seq<byte>, pos: nat, k: nat)
    requires k < |Reached(b, pos)| && CutOff(b, Reached(b, pos)[k])
    ensures k == |Reached(b, pos)| - 1
    decreases |b| - pos
  {
    hide ReadBe32;
    if k == 0 {
    } else {
      var next := NextToken(b, pos).value;
      assert Reached(b, pos)[k] == Reached(b, next)[k - 1];
      CutOffIsLast(b, next, k - 1);
    }
  }

  /** Such blobs exist: cut off inside the header of the first property, a blob passes the checks at the
      top, and both patchers panic instead of answering. */
  lemma CutOffPropertyPanics(b: seq<byte>, x: u64, y: u64)
    requires IsTree(b)
    requires var off: nat := ReadBe32(b, 8);
      off + 4 <= |b| < off + 12 && ReadBe32(b, off) == 3
    ensures PatchMemory(b, x, y) == Panic && PatchInitrd(b, x, y) == Panic
  {
    MemoryPanicsExactly(b, x, y);
    InitrdPanicsExactly(b, x, y);
    hide ReadBe32, PatchMemory, PatchInitrd;
    assert TokensOf(b) == [ReadBe32(b, 8)];
  }
}
