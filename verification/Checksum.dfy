/**
 * The Internet checksum, computed and updated: the one's-complement sum folds to the sum modulo
 * 65535, replies built from scratch verify, and an echo request turned round in place verifies.
 */
module Checksum {
  import opened Bytes

  // ── The sum ───────────────────────────────────────────────────────────────

  /** The sum of the big-endian 16-bit words, an odd last byte counting as a high byte. */
  function Sum(data: seq<byte>): nat {
    if |data| == 0 then 0
    else if |data| == 1 then data[0] * 256
    else data[0] * 256 + data[1] + Sum(data[2..])
  }

  /** Add the carries back until the sum fits 16 bits. */
  function Fold(s: nat): (r: nat)
    ensures r < 0x1_0000
    decreases s
  {
    if s < 0x1_0000 then s else Fold(s % 0x1_0000 + s / 0x1_0000)
  }

  /** Folding is the remainder modulo 65535, with 65535 standing for zero unless the sum is zero. */
  lemma {:induction false} FoldIsRemainder(s: nat)
    ensures Fold(s) == if s == 0 then 0 else (s - 1) % 65535 + 1
    decreases s
  {
    if s < 0x1_0000 {
    } else {
      var t := s % 0x1_0000 + s / 0x1_0000;
      FoldIsRemainder(t);
      assert s - 1 == (t - 1) + 65535 * (s / 0x1_0000);
      SameRemainder(t - 1, s / 0x1_0000);
    }
  }

  lemma SameRemainder(x: nat, k: nat)
    ensures (x + 65535 * k) % 65535 == x % 65535
  {}

  /** The checksum over a 32-bit accumulator that wraps. */
  function ChecksumOf(data: seq<byte>): (ck: u16) { 0xFFFF - Fold(Sum(data) % 0x1_0000_0000) }

  /** What a receiver checks (RFC 1071): the words add up to all ones. */
  predicate Verifies(data: seq<byte>) { Sum(data) > 0 && Sum(data) % 65535 == 0 }

  /** How often the accumulator wraps over some data. */
  function Wraps(data: seq<byte>): nat { Sum(data) / 0x1_0000_0000 }

  /** 2^32 is 1 modulo 65535: the accumulator is short of the sum by one for each wrap. */
  lemma WrapIsOne(s: nat)
    ensures s % 65535 == (s % 0x1_0000_0000 + s / 0x1_0000_0000) % 65535
  {
    var q := s / 0x1_0000_0000;
    assert s == (s % 0x1_0000_0000 + q) + 65535 * (65537 * q);
    SameRemainder(s % 0x1_0000_0000 + q, 65537 * q);
  }

  /** The receiver's computation gives zero exactly when the sum leaves the number of wraps, and the
      accumulator something: exactly when the data verifies, as long as the accumulator does not wrap. */
  lemma ZeroMeansVerified(data: seq<byte>)
    ensures ChecksumOf(data) == 0 <==> Sum(data) % 0x1_0000_0000 > 0 && Sum(data) % 65535 == Wraps(data) % 65535
    ensures Wraps(data) == 0 ==> (ChecksumOf(data) == 0 <==> Verifies(data))
  {
    hide Sum, Fold;
    var w, q := Sum(data) % 0x1_0000_0000, Wraps(data);
    FoldIsRemainder(w);
    WrapIsOne(Sum(data));
    Offset(w, q);
    if w > 0 {
      AllOnes(w);
    }
  }

  lemma Offset(w: nat, q: nat)
    ensures w % 65535 == 0 <==> (w + q) % 65535 == q % 65535
  {
    var r, k := w % 65535, w / 65535;
    assert w + q == (r + q) + 65535 * k;
    SameRemainder(r + q, k);
    var c, j := q % 65535, q / 65535;
    assert r + q == (r + c) + 65535 * j;
    SameRemainder(r + c, j);
  }

  lemma AllOnes(s: nat)
    requires s > 0
    ensures (s - 1) % 65535 == 65534 <==> s % 65535 == 0
  {
    var q := (s - 1) / 65535;
    if (s - 1) % 65535 == 65534 {
      SameRemainder(0, q + 1);
      assert s == 0 + 65535 * (q + 1);
    } else {
      SameRemainder((s - 1) % 65535 + 1, q);
      assert s == ((s - 1) % 65535 + 1) + 65535 * q;
    }
  }

  lemma {:induction false} SumBound(data: seq<byte>)
    ensures 2 * Sum(data) <= (|data| + |data| % 2) * 65535
    decreases |data|
  {
    if |data| < 2 {
    } else {
      SumBound(data[2..]);
    }
  }

  lemma {:induction false} SumConcat(a: seq<byte>, b: seq<byte>)
    requires |a| % 2 == 0
    ensures Sum(a + b) == Sum(a) + Sum(b)
    decreases |a|
  {
    if a == [] {
      assert a + b == b;
    } else {
      SumConcat(a[2..], b);
      assert (a + b)[2..] == a[2..] + b;
    }
  }

  lemma SumOfWord(hi: byte, lo: byte)
    ensures Sum([hi, lo]) == hi * 256 + lo
  {
    assert [hi, lo][2..] == [];
  }

  /** Writing a word over zeros adds it to the sum. */
  lemma PutWord(before: seq<byte>, v: u16, after: seq<byte>)
    requires |before| % 2 == 0
    ensures Sum(before + [v / 256, v % 256] + after) == Sum(before + [0, 0] + after) + v
  {
    hide Sum;
    SumOfWord(v / 256, v % 256);
    SumOfWord(0, 0);
    SumConcat(before, [v / 256, v % 256]);
    SumConcat(before, [0, 0]);
    SumConcat(before + [v / 256, v % 256], after);
    SumConcat(before + [0, 0], after);
  }

  /** A checksum computed over a zero field and written there always satisfies the same computation. The
      data verifies exactly when the accumulator wrapped a multiple of 65535 times, in particular never. */
  lemma ChecksumVerifies(before: seq<byte>, after: seq<byte>)
    requires |before| % 2 == 0
    ensures var zero := before + [0, 0] + after;
      var data := before + [ChecksumOf(zero) / 256, ChecksumOf(zero) % 256] + after;
      ChecksumOf(data) == 0 && (Verifies(data) <==> Wraps(zero) % 65535 == 0)
  {
    hide Sum, Fold;
    var zero := before + [0, 0] + after;
    var w, q := Sum(zero) % 0x1_0000_0000, Wraps(zero);
    FoldIsRemainder(w);
    var ck := ChecksumOf(zero);
    PutWord(before, ck, after);
    var data := before + [ck / 256, ck % 256] + after;
    RoundsUp(w, ck);
    assert Sum(data) == 0x1_0000_0000 * q + (w + ck);
    SplitWord(q, w + ck, Sum(data));
    ZeroMeansVerified(data);
    WrapIsOne(Sum(data));
    Offset(w + ck, q);
    OffsetBack(w + ck, q);
  }

  lemma SplitWord(q: nat, w: nat, s: nat)
    requires w < 0x1_0000_0000 && s == 0x1_0000_0000 * q + w
    ensures s % 0x1_0000_0000 == w && s / 0x1_0000_0000 == q
  {}

  lemma OffsetBack(w: nat, q: nat)
    requires w % 65535 == 0
    ensures (w + q) % 65535 == q % 65535
  {
    Offset(w, q);
  }

  lemma RoundsUp(s: nat, ck: nat)
    requires ck == 0xFFFF - (if s == 0 then 0 else (s - 1) % 65535 + 1)
    ensures s + ck > 0 && (s + ck) % 65535 == 0
    ensures s < 0x1_0000_0000 ==> s + ck < 0x1_0000_0000
  {
    if s > 0 {
      var q := (s - 1) / 65535;
      assert s + ck == 65535 * q + 65535;
      SameRemainder(0, q + 1);
    }
  }

  /** Up to 131074 bytes the accumulator does not wrap. */
  lemma ShortDoesNotWrap(data: seq<byte>)
    requires |data| <= 131074
    ensures Wraps(data) == 0
  {
    hide Sum;
    SumBound(data);
  }

  lemma {:induction false} SumOfOnes(data: seq<byte>, n: nat)
    requires |data| == 2 * n && forall k :: 0 <= k < |data| ==> data[k] == 0xFF
    ensures Sum(data) == 65535 * n
    decreases n
  {
    if n == 0 {
    } else {
      SumOfOnes(data[2..], n - 1);
    }
  }

  /** From two bytes more on there is data whose checksum does not make it verify. */
  lemma LongOnesDoNotVerify()
    ensures var ones := seq(131076, _ => 0xFF as byte);
      var ck := ChecksumOf([] + [0, 0] + ones);
      !Verifies([] + [ck / 256, ck % 256] + ones)
  {
    hide Sum, Fold, ChecksumOf, Verifies;
    var ones := seq(131076, _ => 0xFF as byte);
    SumOfOnes(ones, 65538);
    SumOfWord(0, 0);
    SumConcat([0, 0], ones);
    assert [] + [0, 0] + ones == [0, 0] + ones;
    ChecksumVerifies([], ones);
  }

  method Compute(data: seq<byte>) returns (ck: u16)
    ensures ck == ChecksumOf(data)
  {
    hide Fold;
    var sum, i := 0, 0;
    while i + 1 < |data|
      invariant i % 2 == 0 && i <= |data| && 0 <= sum < 0x1_0000_0000
      invariant (sum + Sum(data[i..])) % 0x1_0000_0000 == Sum(data) % 0x1_0000_0000
    {
      var w: nat := data[i] as int * 256 + data[i + 1] as int;
      assert data[i..][2..] == data[i + 2..];
      WrappedSum(sum, w, Sum(data[i + 2..]));
      sum := (sum + w) % 0x1_0000_0000;
      i := i + 2;
    }
    if i < |data| {
      assert data[i..] == [data[i]];
      sum := (sum + data[i] as int * 256) % 0x1_0000_0000;
    } else {
      assert data[i..] == [];
    }
    assert sum == Sum(data) % 0x1_0000_0000;
    var folded := FoldLoop(sum);
    ck := 0xFFFF - folded;
  }

  lemma WrappedSum(sum: nat, w: nat, rest: nat)
    ensures ((sum + w) % 0x1_0000_0000 + rest) % 0x1_0000_0000 == (sum + (w + rest)) % 0x1_0000_0000
  {}

  method FoldLoop(s: nat) returns (r: nat)
    ensures r == Fold(s)
  {
    r := s;
    while r / 0x1_0000 != 0
      invariant r >= 0 && Fold(r) == Fold(s)
      decreases r
    {
      r := r % 0x1_0000 + r / 0x1_0000;
    }
  }

  // ── Replies built from scratch ────────────────────────────────────────────

  const GATEWAY_IP: seq<byte> := [10, 0, 2, 2]
  const GATEWAY_MAC: seq<byte> := [0x52, 0x54, 0x00, 0x12, 0x34, 0x01]

  /** The header length an IPv4 header states. */
  function HeaderLength(ip: seq<byte>): nat
    requires |ip| > 0
  {
    ip[0] as int % 16 * 4
  }

  /** An ICMP echo request to the gateway, as the responder recognises it. */
  predicate IsEchoRequest(frame: seq<byte>) {
    && |frame| >= 34
    && var ip := frame[14..];
      && ip[0] / 16 == 4 && ip[9] == 1 && |ip| >= HeaderLength(ip) + 8
      && ip[16..20] == GATEWAY_IP && ip[HeaderLength(ip)] == 8
  }

  /** The ICMP message of a request. */
  function IcmpOf(frame: seq<byte>): (icmp: seq<byte>)
    requires IsEchoRequest(frame)
    ensures |icmp| >= 8
  {
    frame[14..][HeaderLength(frame[14..])..]
  }

  /** An echo request as a guest prints it: Ethernet, an IPv4 header of five words for 10.0.2.2, and a message of
      type 8. It is recognised, and the message is what is answered. */
  lemma PrintedRequestIsRecognised(ether: seq<byte>, ip: seq<byte>, icmp: seq<byte>)
    requires |ether| == 14 && |ip| == 20 && |icmp| >= 8
    ensures IsEchoRequest(ether + ip + icmp)
         <==> ip[0] / 16 == 4 && ip[9] == 1 && ip[16..20] == [10, 0, 2, 2] && |ip + icmp| >= ip[0] as int % 16 * 4 + 8
              && (ip + icmp)[ip[0] as int % 16 * 4] == 8
    ensures ip[0] == 0x45 && ip[9] == 1 && ip[16..20] == [10, 0, 2, 2] && icmp[0] == 8 ==>
      IsEchoRequest(ether + ip + icmp) && IcmpOf(ether + ip + icmp) == icmp
  {
    var frame := ether + ip + icmp;
    assert frame[14..] == ip + icmp && (ip + icmp)[16..20] == ip[16..20] && (ip + icmp)[20..] == icmp;
  }

  /** The ICMP part of an answer: type zero, the checksum, the rest returned. */
  method ReplyBody(icmp: seq<byte>) returns (body: seq<byte>)
    requires |icmp| >= 8
    ensures |body| == |icmp| && body[0] == 0 && body[1] == 0 && body[4..] == icmp[4..]
    ensures ChecksumOf(body) == 0 && (Verifies(body) <==> Wraps(icmp[4..]) % 65535 == 0)
  {
    hide Sum, ChecksumOf, Verifies, Wraps;
    body := [0, 0, 0, 0];
    body := body + icmp[4..8];
    body := body + icmp[8..];
    var echo := icmp[4..];
    assert body == [0, 0] + [0, 0] + echo;
    var ck := Compute(body);
    body := body[2 := ck / 256][3 := ck % 256];
    assert body == [0, 0] + [ck / 256, ck % 256] + echo;
    ChecksumVerifies([0, 0], echo);
    ZerosInFront(echo);
  }

  lemma ZerosInFront(data: seq<byte>)
    ensures Wraps([0, 0] + [0, 0] + data) == Wraps(data)
  {
    hide Sum;
    SumOfWord(0, 0);
    SumConcat([0, 0], [0, 0]);
    SumConcat([0, 0] + [0, 0], data);
  }

  /** The IPv4 header of an answer to `source`. */
  method ReplyHeader(length: nat, source: seq<byte>) returns (header: seq<byte>)
    requires |source| == 4
    ensures |header| == 20 && header[12..16] == GATEWAY_IP && header[16..20] == source
    ensures var total := length % 0x1_0000;
      header[..10] == [0x45, 0x00, total / 256, total % 256, 0, 0, 0x40, 0x00, 64, 1]
    ensures Verifies(header) && ChecksumOf(header) == 0
  {
    hide Sum, ChecksumOf, Verifies, Wraps;
    var total: u16 := length % 0x1_0000;
    var first: seq<byte> := [0x45, 0x00, total / 256, total % 256, 0, 0, 0x40, 0x00, 64, 1];
    header := first + [0, 0] + (GATEWAY_IP + source);
    ShortDoesNotWrap(header);
    var ck := Compute(header);
    header := header[10 := ck / 256][11 := ck % 256];
    assert header == first + [ck / 256, ck % 256] + (GATEWAY_IP + source);
    ChecksumVerifies(first, GATEWAY_IP + source);
  }

  /** Answer an echo request to the gateway: addresses exchanged, identifier, sequence number and payload
      returned, both checksums valid: the message's in the receiver's computation always, and as a sum
      unless the accumulator wrapped over what is returned. Anything else gets no answer. */
  method IcmpReply(frame: seq<byte>, mac: seq<byte>) returns (r: Option<seq<byte>>)
    requires |mac| == 6
    ensures r.Some? <==> IsEchoRequest(frame)
    ensures r.Some? ==>
      var (out, icmp) := (r.value, IcmpOf(frame));
      var total := (20 + |icmp|) % 0x1_0000;
      && |out| == 34 + |icmp| && out[..14] == mac + [0x52, 0x54, 0x00, 0x12, 0x34, 0x01, 8, 0]
      && out[14..24] == [0x45, 0x00, total / 256, total % 256, 0, 0, 0x40, 0x00, 64, 1]
      && out[26..30] == [10, 0, 2, 2] && out[30..34] == frame[26..30]
      && Verifies(out[14..34]) && ChecksumOf(out[14..34]) == 0
      && out[34] == 0 && out[35] == 0 && out[38..] == icmp[4..]
      && ChecksumOf(out[34..]) == 0 && (Verifies(out[34..]) <==> Wraps(icmp[4..]) % 65535 == 0)
  {
    hide Sum, ChecksumOf, Verifies, Wraps;
    if |frame| < 34 {
      return None;
    }
    var ip := frame[14..];
    var ihl := HeaderLength(ip);
    if ip[0] / 16 != 4 || ip[9] != 1 || |ip| < ihl + 8 || ip[16..20] != GATEWAY_IP {
      return None;
    }
    var icmp := ip[ihl..];
    if icmp[0] != 8 {
      return None;
    }
    var body := ReplyBody(icmp);
    var header := ReplyHeader(20 + |body|, ip[12..16]);
    var ether: seq<byte> := mac + GATEWAY_MAC + [8, 0];
    var out := ether + header + body;
    FrameParts(ether, header, body);
    assert frame[26..30] == ip[12..16];
    r := Some(out);
  }

  lemma FrameParts(ether: seq<byte>, header: seq<byte>, body: seq<byte>)
    requires |ether| == 14 && |header| == 20 && |body| >= 8
    ensures var out := ether + header + body;
      && out[..14] == ether && out[14..34] == header && out[34..] == body && out[34] == body[0] && out[35] == body[1]
      && out[14..24] == header[..10]
      && out[38..] == body[4..]
      && out[26..30] == header[12..16] && out[30..34] == header[16..20]
  {}

  // ── A request turned round in place ───────────────────────────────────────

  /** A frame holding an echo request with an IPv4 header of at least five words. */
  predicate IsEcho(f: seq<byte>) {
    |f| >= 34 && HeaderLength(f[14..]) >= 20 && |f| >= 14 + HeaderLength(f[14..]) + 8
      && f[14 + HeaderLength(f[14..])] == 8
  }

  /** Raise a checksum by 0x0800 with an end-around carry. */
  function Raised(ck: u16): (r: u16) {
    if ck + 0x800 > 0xFFFF then (ck + 0x800) % 0x1_0000 + 1 else ck + 0x800
  }

  /** `n` bytes at `a` exchanged with `n` bytes at `b`. */
  function Swapped(f: seq<byte>, a: nat, b: nat, n: nat): (r: seq<byte>)
    requires a + n <= b && b + n <= |f|
    ensures |r| == |f|
  {
    seq(|f|, k requires 0 <= k < |f| => f[Origin(a, b, n, k)])
  }

  /** Where byte `k` comes from when two fields are exchanged. */
  function Origin(a: nat, b: nat, n: nat, k: nat): nat
    requires a + n <= b
  {
    if a <= k < a + n then b + (k - a) else if b <= k < b + n then a + (k - b) else k
  }

  /** Both kinds of addresses exchanged. */
  function Turned(f: seq<byte>): (r: seq<byte>)
    requires |f| >= 34
    ensures |r| == |f|
  {
    Swapped(Swapped(f, 0, 6, 6), 26, 30, 4)
  }

  /** An echo message as a reply: its type cleared and its checksum raised to match. */
  function AsReply(icmp: seq<byte>): (r: seq<byte>)
    requires |icmp| >= 8
    ensures |r| == |icmp|
  {
    var ck := Raised(icmp[2] as int * 256 + icmp[3] as int);
    [0, icmp[1], ck / 256, ck % 256] + icmp[4..]
  }

  function EchoReply(f: seq<byte>): (r: seq<byte>)
    requires IsEcho(f)
    ensures |r| == |f|
  {
    var o := 14 + HeaderLength(f[14..]);
    Turned(f)[..o] + AsReply(f[o..])
  }

  /** Exchanging two address fields does not change a header's sum. */
  lemma SwapKeepsSum(h: seq<byte>)
    requires |h| >= 20
    ensures Sum(h[..12] + h[16..20] + h[12..16] + h[20..]) == Sum(h)
  {
    hide Sum;
    var a, b, c, d := h[..12], h[12..16], h[16..20], h[20..];
    SumConcat(a, c);
    SumConcat(a + c, b);
    SumConcat(a + c + b, d);
    SumConcat(a, b);
    SumConcat(a + b, c);
    SumConcat(a + b + c, d);
    assert h == a + b + c + d;
  }

  /** Lowering the type by eight and raising the checksum by as much leaves the sum congruent. */
  lemma ReplyKeepsSum(icmp: seq<byte>)
    requires |icmp| >= 8 && icmp[0] == 8
    ensures var ck := icmp[2] as int * 256 + icmp[3] as int;
      Sum(AsReply(icmp)) == if ck + 0x800 > 0xFFFF then Sum(icmp) - 65535 else Sum(icmp)
    ensures Sum(icmp) >= 0x800 + (icmp[2] as int * 256 + icmp[3] as int)
  {
    hide Sum, Raised;
    var ck: u16 := icmp[2] as int * 256 + icmp[3] as int;
    var up := Raised(ck);
    RaisedValue(ck);
    assert icmp == [8, icmp[1], icmp[2], icmp[3]] + icmp[4..];
    SumOfTwoWords(8, icmp[1], icmp[2], icmp[3], icmp[4..]);
    SumOfTwoWords(0, icmp[1], up / 256, up % 256, icmp[4..]);
  }

  lemma RaisedValue(ck: u16)
    ensures Raised(ck) as int == if ck + 0x800 > 0xFFFF then ck + 0x800 - 65535 else ck + 0x800
    ensures Raised(ck) / 256 * 256 + Raised(ck) % 256 == Raised(ck)
  {}

  lemma SumOfTwoWords(a: byte, b: byte, c: byte, d: byte, rest: seq<byte>)
    ensures Sum([a, b, c, d] + rest) == a * 256 + b + (c * 256 + d) + Sum(rest)
  {
    var all := [a, b, c, d] + rest;
    assert all[2..] == [c, d] + rest && all[2..][2..] == rest;
  }

  /** A request becomes a reply whose two checksums verify exactly if the request's do: also across the
      end-around carry, and whatever the payload. */
  lemma EchoReplyVerifies(f: seq<byte>)
    requires IsEcho(f)
    ensures var (r, o) := (EchoReply(f), 14 + HeaderLength(f[14..]));
      && HeaderLength(r[14..]) == HeaderLength(f[14..])
      && (Verifies(r[14..o]) <==> Verifies(f[14..o])) && (Verifies(r[o..]) <==> Verifies(f[o..]))
      && r[o] == 0 && r[o + 4..] == f[o + 4..]
      && r[0..6] == f[6..12] && r[6..12] == f[0..6] && r[26..30] == f[30..34] && r[30..34] == f[26..30]
  {
    var r, o := EchoReply(f), 14 + HeaderLength(f[14..]);
    var h := f[14..o];
    TurnedParts(f, o);
    hide Sum, Turned, AsReply;
    assert r[..o] == Turned(f)[..o] && r[o..] == AsReply(f[o..]);
    assert r[14..o] == Turned(f)[14..o];
    SwapKeepsSum(h);
    ReplyKeepsSum(f[o..]);
    ReplyParts(f[o..]);
    assert r[o + 4..] == r[o..][4..] && f[o + 4..] == f[o..][4..];
    assert r[14..][0] == r[14] == Turned(f)[14];
    assert r[0..6] == Turned(f)[0..6] && r[6..12] == Turned(f)[6..12];
    assert r[26..30] == Turned(f)[26..30] && r[30..34] == Turned(f)[30..34];
    StillAllOnes(Sum(f[o..]), Sum(r[o..]));
  }

  lemma StillAllOnes(s: nat, t: nat)
    requires s > 0 && (t == s || (s > 65535 && t == s - 65535))
    ensures t > 0 && (t % 65535 == 0 <==> s % 65535 == 0)
  {
    if t != s {
      SameRemainder(t, 1);
    }
  }

  lemma ReplyParts(icmp: seq<byte>)
    requires |icmp| >= 8
    ensures AsReply(icmp)[0] == 0 && AsReply(icmp)[4..] == icmp[4..]
  {}

  lemma TurnedAt(f: seq<byte>, k: nat)
    requires 34 <= |f| && k < |f|
    ensures Turned(f)[k] == f[if k < 6 then k + 6 else if k < 12 then k - 6
                              else if 26 <= k < 30 then k + 4 else if 30 <= k < 34 then k - 4 else k]
  {}

  lemma TurnedSlice(f: seq<byte>, lo: nat, hi: nat, shift: int)
    requires 34 <= |f| && lo <= hi <= |f| && 0 <= lo + shift && hi + shift <= |f|
    requires forall k :: lo <= k < hi ==> Turned(f)[k] == f[k + shift]
    ensures Turned(f)[lo..hi] == f[lo + shift..hi + shift]
  {
    hide Turned;
    forall i | 0 <= i < hi - lo
      ensures Turned(f)[lo..hi][i] == f[lo + shift..hi + shift][i]
    {
      assert Turned(f)[lo + i] == f[lo + i + shift];
    }
  }

  lemma TurnedParts(f: seq<byte>, o: nat)
    requires 34 <= o <= |f|
    ensures var (r, h) := (Turned(f), f[14..o]);
      && r[0..6] == f[6..12] && r[6..12] == f[0..6] && r[14] == f[14]
      && r[26..30] == f[30..34] && r[30..34] == f[26..30]
      && r[14..o] == h[..12] + h[16..20] + h[12..16] + h[20..] && r[o..] == f[o..]
  {
    var r, h := Turned(f), f[14..o];
    forall k: nat | k < |f| { TurnedAt(f, k); }
    hide Turned;
    TurnedSlice(f, 0, 6, 6);
    TurnedSlice(f, 6, 12, -6);
    TurnedSlice(f, 14, 26, 0);
    TurnedSlice(f, 26, 30, 4);
    TurnedSlice(f, 30, 34, -4);
    TurnedSlice(f, 34, o, 0);
    TurnedSlice(f, o, |f|, 0);
    SliceOfSlice(f, 14, o, 0, 12);
    SliceOfSlice(f, 14, o, 12, 16);
    SliceOfSlice(f, 14, o, 16, 20);
    SliceOfSlice(f, 14, o, 20, o - 14);
    assert r[14..o] == r[14..26] + r[26..30] + r[30..34] + r[34..o];
  }

  /** Exchange `n` bytes at `a` with `n` bytes at `b`. */
  method Exchange(f: array<byte>, a: nat, b: nat, n: nat)
    requires a + n <= b && b + n <= f.Length
    modifies f
    ensures f[..] == Swapped(old(f[..]), a, b, n)
  {
    for i := 0 to n
      invariant forall k: nat :: k < f.Length ==> f[k] == old(f[..])[Origin(a, b, i, k)]
    {
      f[a + i], f[b + i] := f[b + i], f[a + i];
    }
  }

  /** Make the echo message at `o` a reply. */
  method PatchIcmp(f: array<byte>, o: nat)
    requires o + 8 <= f.Length
    modifies f
    ensures f[..] == old(f[..o] + AsReply(f[o..]))
  {
    f[o] := 0;
    var ck := Raised(f[o + 2] as int * 256 + f[o + 3] as int);
    f[o + 2] := ck / 256;
    f[o + 3] := ck % 256;
  }

  /** Turn a request into its reply: a copy, changed byte by byte. */
  method DeliverEchoReply(request: seq<byte>) returns (f: array<byte>)
    requires IsEcho(request)
    ensures fresh(f) && f[..] == EchoReply(request)
  {
    hide Swapped, AsReply;
    f := new byte[|request|](i requires 0 <= i < |request| => request[i]);
    assert f[..] == request;
    Exchange(f, 0, 6, 6);
    Exchange(f, 26, 30, 4);
    assert f[..] == Turned(request);
    var o := 14 + f[14] as int % 16 * 4;
    assert request[14..][0] == request[14];
    TurnedAt(request, 14);
    TurnedParts(request, 14 + HeaderLength(request[14..]));
    PatchIcmp(f, o);
  }
}
