/** The 24-byte KCP segment header and the datagrams built from it. */
module Wire {
  import opened Serial
  import opened Sequences

  type byte = x: int | 0 <= x < 0x100
  type u16 = x: int | 0 <= x < 0x1_0000
  type Bytes = seq<byte>

  const OVERHEAD: int := 24
  const CMD_PUSH: byte := 81
  const CMD_ACK: byte := 82
  const CMD_WASK: byte := 83
  const CMD_WINS: byte := 84

  predicate KnownCmd(c: byte) {
    c == CMD_PUSH || c == CMD_ACK || c == CMD_WASK || c == CMD_WINS
  }

  /** One segment as it travels. The length field is the length of `data`. */
  datatype Packet = Packet(conv: u32, cmd: byte, frg: byte, wnd: u16, ts: u32, sn: u32, una: u32, data: Bytes)

  ghost predicate ValidPacket(p: Packet) {
    KnownCmd(p.cmd) && |p.data| < H32
  }

  function Encode16(w: u16): Bytes {
    [w % 0x100, w / 0x100]
  }

  function Decode16(b: Bytes, at: nat): u16
    requires at + 2 <= |b|
  {
    (b[at] as int) + 0x100 * (b[at + 1] as int)
  }

  function Encode32(l: u32): Bytes {
    [l % 0x100, l / 0x100 % 0x100, l / 0x1_0000 % 0x100, l / 0x100_0000]
  }

  function Decode32(b: Bytes, at: nat): u32
    requires at + 4 <= |b|
  {
    (b[at] as int) + 0x100 * (b[at + 1] as int) + 0x1_0000 * (b[at + 2] as int)
    + 0x100_0000 * (b[at + 3] as int)
  }

  /** Header fields in wire order; `len` is the payload length. */
  function EncodeHeader(p: Packet): (h: Bytes)
    ensures |h| == OVERHEAD
  {
    Encode32(p.conv) + [p.cmd, p.frg] + Encode16(p.wnd) + Encode32(p.ts) + Encode32(p.sn) + Encode32(p.una)
    + Encode32(U32(|p.data|))
  }

  function Encode(p: Packet): (e: Bytes)
    ensures |e| == OVERHEAD + |p.data|
  {
    EncodeHeader(p) + p.data
  }

  /** What ikcp_input reads from a datagram: the segments it accepts, and its return code. */
  datatype Parsed = Parsed(packets: seq<Packet>, code: int)

  function PacketAt(d: Bytes, len: nat): Packet
    requires OVERHEAD + len <= |d|
  {
    Packet(Decode32(d, 0), d[4], d[5], Decode16(d, 6), Decode32(d, 8), Decode32(d, 12), Decode32(d, 16),
           d[OVERHEAD..OVERHEAD + len])
  }

  /** The error that stops the parse at the front of `d`, if any: 0 when the segment is accepted. */
  function HeaderError(conv: u32, d: Bytes): int
    requires |d| >= OVERHEAD
  {
    var len := Decode32(d, 20);
    if Decode32(d, 0) != conv then -1
    else if |d| - OVERHEAD < len || len >= H32 then -2
    else if !KnownCmd(d[4]) then -3
    else 0
  }

  function ParseSegments(conv: u32, d: Bytes): Parsed
    decreases |d|
  {
    if |d| < OVERHEAD then Parsed([], 0)
    else if HeaderError(conv, d) != 0 then Parsed([], HeaderError(conv, d))
    else
      var len := Decode32(d, 20);
      var rest := ParseSegments(conv, d[OVERHEAD + len..]);
      Parsed([PacketAt(d, len)] + rest.packets, rest.code)
  }

  /** A whole datagram: one shorter than a header is refused outright. */
  function ParseDatagram(conv: u32, d: Bytes): Parsed {
    if |d| < OVERHEAD then Parsed([], -1) else ParseSegments(conv, d)
  }

  /** The bytes of a list of messages, one after the other. */
  function Flat(ms: seq<Bytes>): Bytes {
    if ms == [] then [] else Flat(ms[..|ms| - 1]) + ms[|ms| - 1]
  }

  lemma FlatAppend(ms: seq<Bytes>, m: Bytes)
    ensures Flat(ms + [m]) == Flat(ms) + m
  {
    assert (ms + [m])[..|ms|] == ms;
  }

  lemma {:induction false} FlatConcat(x: seq<Bytes>, y: seq<Bytes>)
    ensures Flat(x + y) == Flat(x) + Flat(y)
  {
    if y == [] {
      assert x + y == x;
    } else {
      FlatConcat(x, y[..|y| - 1]);
      var last := y[|y| - 1];
      assert x + y == x + y[..|y| - 1] + [last];
      FlatAppend(x + y[..|y| - 1], last);
      Associate(Flat(x), Flat(y[..|y| - 1]), last);
    }
  }

  lemma FlatCons(m: Bytes, ms: seq<Bytes>)
    ensures Flat([m] + ms) == m + Flat(ms)
  {
    var none: seq<Bytes> := [];
    FlatConcat([m], ms);
    FlatAppend(none, m);
    assert none + [m] == [m] && [] + m == m;
  }

  function EncodeAll(ps: seq<Packet>): Bytes
  {
    if ps == [] then [] else Encode(ps[0]) + EncodeAll(ps[1..])
  }

  lemma WordAt(d: Bytes, at: nat, l: u32)
    requires at + 4 <= |d| && d[at..at + 4] == Encode32(l)
    ensures Decode32(d, at) == l
  {
    var w := d[at..at + 4];
    assert d[at] == w[0] && d[at + 1] == w[1] && d[at + 2] == w[2] && d[at + 3] == w[3];
    var l1 := l / 0x100;
    var l2 := l1 / 0x100;
    assert l / 0x1_0000 == l2;
    assert l / 0x100_0000 == l2 / 0x100;
  }

  lemma HalfAt(d: Bytes, at: nat, w: u16)
    requires at + 2 <= |d| && d[at..at + 2] == Encode16(w)
    ensures Decode16(d, at) == w
  {
    var h := d[at..at + 2];
    assert d[at] == h[0] && d[at + 1] == h[1];
  }

  lemma HeaderRoundTrip(p: Packet, rest: Bytes)
    requires |p.data| < M32
    ensures var d := Encode(p) + rest;
            && Decode32(d, 0) == p.conv && d[4] == p.cmd && d[5] == p.frg && Decode16(d, 6) == p.wnd
            && Decode32(d, 8) == p.ts && Decode32(d, 12) == p.sn && Decode32(d, 16) == p.una
            && Decode32(d, 20) == |p.data|
  {
    var d := Encode(p) + rest;
    var h := EncodeHeader(p);
    HeaderLayout(p);
    hide EncodeHeader, Encode32, Encode16;
    assert forall i, j :: 0 <= i <= j <= OVERHEAD ==> d[i..j] == h[i..j];
    WordAt(d, 0, p.conv);
    HalfAt(d, 6, p.wnd);
    WordAt(d, 8, p.ts);
    WordAt(d, 12, p.sn);
    WordAt(d, 16, p.una);
    WordAt(d, 20, |p.data|);
    assert d[4] == h[4] && d[5] == h[5];
  }

  /** Field offsets in the header. */
  lemma HeaderLayout(p: Packet)
    ensures var h := EncodeHeader(p);
            && h[0..4] == Encode32(p.conv) && h[4] == p.cmd && h[5] == p.frg && h[6..8] == Encode16(p.wnd)
            && h[8..12] == Encode32(p.ts) && h[12..16] == Encode32(p.sn) && h[16..20] == Encode32(p.una)
            && h[20..24] == Encode32(U32(|p.data|))
  {
  }

  /** One encoded segment in front of any tail is read back as itself. */
  lemma ParseStep(conv: u32, p: Packet, rest: Bytes)
    requires ValidPacket(p) && p.conv == conv
    ensures var r := ParseSegments(conv, rest);
            ParseSegments(conv, Encode(p) + rest) == Parsed([p] + r.packets, r.code)
  {
    var d := Encode(p) + rest;
    HeaderRoundTrip(p, rest);
    assert d[OVERHEAD..OVERHEAD + |p.data|] == p.data;
    assert d[OVERHEAD + |p.data|..] == rest;
    assert PacketAt(d, |p.data|) == p;
  }

  /** Decoding the encoding of any packet list gives back the list. */
  lemma {:induction false} ParseEncodeAll(conv: u32, ps: seq<Packet>)
    requires forall p <- ps :: ValidPacket(p) && p.conv == conv
    ensures ParseSegments(conv, EncodeAll(ps)) == Parsed(ps, 0)
  {
    if ps != [] {
      ParseEncodeAll(conv, ps[1..]);
      ParseStep(conv, ps[0], EncodeAll(ps[1..]));
    }
  }

  lemma {:induction false} EncodeAllAppend(ps: seq<Packet>, p: Packet)
    ensures EncodeAll(ps + [p]) == EncodeAll(ps) + Encode(p)
  {
    if ps == [] {
      assert EncodeAll([p]) == Encode(p) + EncodeAll([]);
    } else {
      assert (ps + [p])[1..] == ps[1..] + [p];
      EncodeAllAppend(ps[1..], p);
    }
  }
}
