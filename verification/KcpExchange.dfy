/** A round without loss: short messages, probes and acknowledgements of one side travel in one datagram and
    are all received by the other, and what both endpoints hold afterwards is known exactly. With it, runs
    that the end-to-end theorems speak of can be exhibited. */
module KcpExchange {
  import opened Serial
  import opened Sequences
  import opened Wire
  import opened KcpModel
  import opened KcpInvariant
  import opened KcpCodec
  import opened KcpMessages
  import L = KcpLink
  import R = KcpRuns

  const SHORT: nat := 300

  /** An endpoint of the program in quiet times: numbers sent and of those unacknowledged, messages queued,
      the next number expected, messages to read, acknowledgements to send. All are short and few. */
  datatype Shape = Shape(sent: nat, flying: nat, queued: seq<Bytes>, next: nat, ready: seq<Bytes>, acks: nat, clock: Clock)

  ghost predicate Few(h: Shape) {
    && h.flying <= h.sent < 100 && h.next < 100 && |h.queued| <= 2 && |h.ready| <= 2 && h.acks <= 2
    && (forall m <- h.queued :: |m| <= SHORT)
  }

  function Fresh(m: Bytes): Seg {
    NewSeg(0, m)
  }

  ghost predicate TxIs(x: Tx, h: Shape) {
    && h.flying <= h.sent
    && x.nxt == h.sent && x.una == h.sent - h.flying && |x.buf| == h.flying
    && (forall i :: 0 <= i < |x.buf| ==> x.buf[i].sn == h.sent - h.flying + i)
    && x.queue == seq(|h.queued|, i requires 0 <= i < |h.queued| => Fresh(h.queued[i]))
  }

  ghost predicate RxIs(r: Rx, h: Shape) {
    && r.nxt == h.next && r.buf == [] && |r.queue| == |h.ready|
    && forall i :: 0 <= i < |r.queue| ==> r.queue[i].frg == 0 && r.queue[i].data == h.ready[i]
  }

  ghost predicate AcksAre(acks: seq<Ack>, h: Shape) {
    |acks| == h.acks && forall i :: 0 <= i < |acks| ==> acks[i].sn < h.next
  }

  ghost predicate Is(s: Cb, conv: u32, h: Shape) {
    && s.cfg == ClientCfg(conv) && Inv(s) && Few(h) && TxIs(s.tx, h) && RxIs(s.rx, h) && AcksAre(s.acklist, h)
    && !s.probe.askSend && !s.probe.askTell && s.rmtWnd >= 100 && s.clock == h.clock
  }

  // ---- one datagram ----------------------------------------------------------------

  lemma {:induction false} SizeBound(ps: seq<Packet>)
    requires forall i :: 0 <= i < |ps| ==> |ps[i].data| <= SHORT
    ensures |EncodeAll(ps)| <= |ps| * (OVERHEAD + SHORT)
  {
    if ps != [] {
      SizeBound(ps[1..]);
    }
  }

  lemma {:induction false} EmitAllSmall(mtu: u32, ps: seq<Packet>)
    requires |EncodeAll(ps)| <= mtu
    ensures EmitAll(mtu, Out([], []), ps) == Out([], EncodeAll(ps))
  {
    if ps != [] {
      var n := |ps| - 1;
      EncodeAllAppend(ps[..n], ps[n]);
      assert ps[..n] + [ps[n]] == ps;
      EmitAllSmall(mtu, ps[..n]);
    }
  }

  /** Few short segments travel in one datagram. */
  lemma BatchSmall(conv: u32, mtu: u32, ps: seq<Packet>)
    requires ps != [] && |EncodeAll(ps)| <= mtu && AllSendable(conv, mtu, ps)
    ensures Batch(mtu, ps) == [EncodeAll(ps)] && ParseDatagram(conv, EncodeAll(ps)) == Parsed(ps, 0)
  {
    EmitAllSmall(mtu, ps);
    OpenReadsBack(conv, mtu, ps);
  }

  // ---- flushing --------------------------------------------------------------------

  function NumberedAll(c: Pass, nxt: u32, q: seq<Seg>): seq<Seg>
    requires nxt + |q| < 1000
  {
    seq(|q|, i requires 0 <= i < |q| => Numbered(c, nxt + i, q[i]))
  }

  /** With an open window everything queued is numbered. */
  lemma {:induction false} AdmitAll(c: Pass, x: Tx, limit: u32)
    requires x.una <= x.nxt && x.nxt + |x.queue| < 1000 && x.nxt + |x.queue| - x.una <= limit <= 0xffff
    ensures var t := Admit(c, x, limit);
            && t.queue == [] && t.una == x.una && t.nxt == x.nxt + |x.queue|
            && t.buf == x.buf + NumberedAll(c, x.nxt, x.queue)
    decreases |x.queue|
  {
    hide Numbered;
    if x.queue == [] {
      assert x.buf + NumberedAll(c, x.nxt, x.queue) == x.buf;
    } else {
      var t := AdmitOne(c, x);
      AdmitAll(c, t, limit);
      var first := [Numbered(c, x.nxt, x.queue[0])];
      Associate(x.buf, first, NumberedAll(c, t.nxt, t.queue));
      assert NumberedAll(c, x.nxt, x.queue) == first + NumberedAll(c, t.nxt, t.queue);
    }
  }

  /** What a new segment travels as. */
  function Pushed(c: Pass, sn: u32, g: Seg): Packet {
    PacketOf(Touch(c, Numbered(c, sn, g)))
  }

  /** New segments all travel, in order. */
  lemma {:induction false} NewAreDue(c: Pass, nxt: u32, q: seq<Seg>)
    requires nxt + |q| < 1000
    ensures var b := NumberedAll(c, nxt, q);
            && |DuePackets(c, b)| == |q| && forall i :: 0 <= i < |q| ==> DuePackets(c, b)[i] == Pushed(c, nxt + i, q[i])
  {
    hide Touch, PacketOf;
    if q != [] {
      var n := |q| - 1;
      NewAreDue(c, nxt, q[..n]);
      assert NumberedAll(c, nxt, q)[..n] == NumberedAll(c, nxt, q[..n]);
      assert NumberedAll(c, nxt, q)[n] == Numbered(c, nxt + n, q[n]);
    }
  }

  /** The segments that a flush of this shape sends. */
  ghost predicate Carried(ps: seq<Packet>, h: Shape) {
    && |ps| == h.acks + |h.queued|
    && (forall i :: 0 <= i < |ps| ==> ps[i].una == h.next && ps[i].wnd >= 100)
    && (forall i :: 0 <= i < h.acks ==> ps[i].cmd == CMD_ACK && ps[i].sn < h.next && ps[i].data == [])
    && (forall i :: h.acks <= i < |ps| ==>
          ps[i].cmd == CMD_PUSH && ps[i].sn == h.sent + (i - h.acks) && ps[i].frg == 0 && ps[i].data == h.queued[i - h.acks])
  }

  /** The shape after it. */
  function Flushed(h: Shape): Shape {
    h.(sent := h.sent + |h.queued|, flying := |h.queued|, queued := [], acks := 0)
  }

  /** The shape after an ikcp_update that flushes. */
  function Gone(h: Shape, now: u32): Shape {
    Flushed(h.(clock := Tick(h.clock, 10, now).clock))
  }

  ghost predicate IsAck(p: Packet, next: nat) {
    p.una == next && p.wnd >= 100 && p.cmd == CMD_ACK && p.sn < next && p.data == []
  }

  ghost predicate IsPush(p: Packet, next: nat, sn: nat, m: Bytes) {
    p.una == next && p.wnd >= 100 && p.cmd == CMD_PUSH && p.sn == sn && p.frg == 0 && p.data == m
  }

  lemma CarriedParts(x: seq<Packet>, y: seq<Packet>, h: Shape)
    requires |x| == h.acks && |y| == |h.queued|
    requires forall i :: 0 <= i < |x| ==> IsAck(x[i], h.next)
    requires forall i :: 0 <= i < |y| ==> IsPush(y[i], h.next, h.sent + i, h.queued[i])
    ensures Carried(x + y, h)
  {
  }

  lemma AcksCarried(k: Cfg, h: Header, acks: seq<Ack>, next: nat)
    requires CfgOk(k) && h.conv == k.conv && 100 <= h.wnd <= 0xffff && h.una == next
    requires forall i :: 0 <= i < |acks| ==> acks[i].sn < next
    ensures var ps := AckPackets(h, acks); |ps| == |acks| && forall i :: 0 <= i < |acks| ==> IsAck(ps[i], next)
  {
    AckPacketsSendable(k, h, acks);
    hide AckPackets;
  }

  lemma PushedIs(c: Pass, sn: u32, m: Bytes)
    requires 100 <= c.wnd <= 0xffff
    ensures IsPush(Pushed(c, sn, Fresh(m)), c.una, sn, m)
  {
  }

  /** The data a flush sends. */
  lemma DueCarried(c: Pass, x: Tx, h: Shape, limit: u32)
    requires TxIs(x, h) && Few(h) && h.flying == 0 && 100 <= limit <= 0xffff && 100 <= c.wnd <= 0xffff
    ensures var b := Admit(c, x, limit).buf;
            && b == NumberedAll(c, h.sent, x.queue) && |DuePackets(c, b)| == |h.queued|
            && forall i :: 0 <= i < |h.queued| ==> IsPush(DuePackets(c, b)[i], c.una, h.sent + i, h.queued[i])
  {
    AdmitAll(c, x, limit);
    var b := NumberedAll(c, h.sent, x.queue);
    assert [] + b == b;
    NewAreDue(c, h.sent, x.queue);
    hide DuePackets, NumberedAll, Admit, Pushed, IsPush;
    forall i | 0 <= i < |h.queued|
      ensures IsPush(DuePackets(c, b)[i], c.una, h.sent + i, h.queued[i])
    {
      PushedIs(c, h.sent + i, h.queued[i]);
    }
  }

  lemma WindowsAreOpen(s: Cb, conv: u32, h: Shape)
    requires Is(s, conv, h)
    ensures 100 <= SendLimit(s) <= 0xffff && 100 <= WndUnused(s) <= 0xffff && ProbePackets(HeaderOf(s), FlushProbe(s), LastAck(s.acklist)) == []
  {
  }

  /** The parts of a quiet state that a flush depends on. */
  lemma FlushDepends(s: Cb, conv: u32, h: Shape)
    requires Is(s, conv, h)
    ensures var (c, hd) := (PassOf(s), HeaderOf(s));
            && CfgOk(s.cfg) && hd.conv == s.cfg.conv && 100 <= hd.wnd <= 0xffff && hd.una == c.una == h.next
            && 100 <= c.wnd <= 0xffff && 100 <= SendLimit(s) <= 0xffff
            && TxIs(s.tx, h) && Few(h) && |s.acklist| == h.acks && (forall i :: 0 <= i < |s.acklist| ==> s.acklist[i].sn < h.next)
    ensures FlushPackets(s) == AckPackets(HeaderOf(s), s.acklist) + DuePackets(PassOf(s), Admit(PassOf(s), s.tx, SendLimit(s)).buf)
  {
    WindowsAreOpen(s, conv, h);
    hide AckPackets, DuePackets, Admit, ProbePackets;
    var x, y := AckPackets(HeaderOf(s), s.acklist), DuePackets(PassOf(s), Admitted(s).buf);
    assert x + [] + y == x + y;
  }

  /** What a flush in quiet times puts on the wire. */
  lemma FlushCarries(s: Cb, conv: u32, h: Shape)
    requires Is(s, conv, h) && h.flying == 0
    ensures Carried(FlushPackets(s), h)
  {
    hide *;
    FlushDepends(s, conv, h);
    AcksCarried(s.cfg, HeaderOf(s), s.acklist, h.next);
    DueCarried(PassOf(s), s.tx, h, SendLimit(s));
    CarriedParts(AckPackets(HeaderOf(s), s.acklist), DuePackets(PassOf(s), Admit(PassOf(s), s.tx, SendLimit(s)).buf), h);
  }

  lemma NumbersAre(c: Pass, nxt: u32, q: seq<Seg>)
    requires nxt + |q| < 1000
    ensures var b := TouchAll(c, NumberedAll(c, nxt, q));
            |b| == |q| && forall i :: 0 <= i < |q| ==> b[i].sn == nxt + i
  {
    TouchAllAt(c, NumberedAll(c, nxt, q));
    hide TouchAll;
  }

  lemma TxFlushed(c: Pass, x: Tx, h: Shape, limit: u32)
    requires TxIs(x, h) && Few(h) && h.flying == 0 && 100 <= limit <= 0xffff
    ensures var t := Admit(c, x, limit); TxIs(t.(buf := TouchAll(c, t.buf)), Flushed(h))
  {
    AdmitAll(c, x, limit);
    var b := NumberedAll(c, h.sent, x.queue);
    assert [] + b == b;
    NumbersAre(c, h.sent, x.queue);
    hide Admit, TouchAll, NumberedAll, Fresh;
  }

  lemma FlushFrame(s: Cb)
    requires s.clock.updated
    ensures var (t, x) := (Flush(s).cb, Admitted(s));
            && t.cfg == s.cfg && t.rx == s.rx && t.acklist == [] && t.rmtWnd == s.rmtWnd && t.clock == s.clock
            && !t.probe.askSend && !t.probe.askTell && t.tx == x.(buf := TouchAll(PassOf(s), x.buf))
  {
    hide Admit, TouchAll, Congest, Dead, XmitAfter, CountOf;
  }

  /** After a flush in quiet times. */
  lemma FlushIs(s: Cb, conv: u32, h: Shape)
    requires Is(s, conv, h) && h.flying == 0 && s.clock.updated && h.sent + |h.queued| < 100
    ensures Is(Flush(s).cb, conv, Flushed(h))
  {
    WindowsAreOpen(s, conv, h);
    FlushKeepsInv(s);
    FlushFrame(s);
    hide Admit, Inv, TouchAll, Flush, TxIs, RxIs, SendLimit, PassOf;
    TxFlushed(PassOf(s), s.tx, h, SendLimit(s));
    SameRx(s.rx, h);
  }

  lemma SameRx(r: Rx, h: Shape)
    requires RxIs(r, h)
    ensures RxIs(r, Flushed(h))
  {
  }

  /** It travels in one datagram. */
  lemma FlushTravels(s: Cb, conv: u32, h: Shape)
    requires Is(s, conv, h) && h.flying == 0 && s.clock.updated && h.acks + |h.queued| > 0
    ensures var ps := FlushPackets(s);
            Flush(s).datagrams == [EncodeAll(ps)] && ParseDatagram(conv, EncodeAll(ps)) == Parsed(ps, 0)
  {
    var ps := FlushPackets(s);
    FlushCarries(s, conv, h);
    FlushPacketsSendable(s);
    hide FlushPackets, FlushState, AllSendable;
    SizeBound(ps);
    BatchSmall(conv, s.cfg.mtu, ps);
  }

  /** An ikcp_update that is due, in quiet times. */
  lemma UpdateIs(s: Cb, conv: u32, h: Shape, now: u32) returns (ps: seq<Packet>)
    requires Is(s, conv, h) && h.flying == 0 && h.acks + |h.queued| > 0 && h.sent + |h.queued| < 100
    requires Tick(h.clock, 10, now).due
    ensures Carried(ps, h) && forall i :: 0 <= i < |ps| ==> ValidPacket(ps[i])
    ensures var t := Update(s, now);
            && t.datagrams == [EncodeAll(ps)] && ParseDatagram(conv, EncodeAll(ps)) == Parsed(ps, 0)
            && Is(t.cb, conv, Gone(h, now))
  {
    var k := Tick(h.clock, 10, now).clock;
    var s1 := s.(clock := k);
    SetClock(s, conv, h, k);
    assert s.cfg.interval == 10;
    hide Is, FlushPackets, Flush, FlushState, AllSendable, Carried;
    FlushTravels(s1, conv, h.(clock := k));
    FlushIs(s1, conv, h.(clock := k));
    ps := FlushPackets(s1);
    FlushedAreValid(s1, conv, h, k);
  }

  lemma SetClock(s: Cb, conv: u32, h: Shape, k: Clock)
    requires Is(s, conv, h)
    ensures Is(s.(clock := k), conv, h.(clock := k))
  {
    hide CfgOk, TxOk, RxOk;
  }

  lemma FlushedAreValid(s: Cb, conv: u32, h: Shape, k: Clock)
    requires Is(s, conv, h.(clock := k)) && h.flying == 0
    ensures Carried(FlushPackets(s), h) && forall i :: 0 <= i < |FlushPackets(s)| ==> ValidPacket(FlushPackets(s)[i])
  {
    IsInv(s, conv, h.(clock := k));
    hide *;
    FlushCarries(s, conv, h.(clock := k));
    FlushPacketsSendable(s);
    SendableAreValid(s.cfg.conv, s.cfg.mtu, FlushPackets(s));
    SameCarried(FlushPackets(s), h, k);
  }

  lemma IsInv(s: Cb, conv: u32, h: Shape)
    requires Is(s, conv, h)
    ensures Inv(s)
  {
  }

  lemma SendableAreValid(conv: u32, mtu: u32, ps: seq<Packet>)
    requires AllSendable(conv, mtu, ps)
    ensures forall i :: 0 <= i < |ps| ==> ValidPacket(ps[i])
  {
  }

  lemma SameCarried(ps: seq<Packet>, h: Shape, k: Clock)
    requires Carried(ps, h.(clock := k))
    ensures Carried(ps, h)
  {
  }

  // ---- input -----------------------------------------------------------------------

  lemma {:induction false} DropAll(q: seq<Seg>, una: u32)
    requires una < 1000 && forall i :: 0 <= i < |q| ==> q[i].sn < una
    ensures DropBelow(q, una) == []
  {
    if q != [] { DropAll(q[1..], una); }
  }

  /** A cumulative acknowledgement of everything empties snd_buf. */
  lemma UnaDropsAll(x: Tx, h: Shape)
    requires TxIs(x, h) && Few(h)
    ensures var t := Shrink(ParseUna(x, h.sent));
            TxIs(t, h.(flying := 0)) && (h.flying == 0 ==> t.buf == x.buf && t.una == x.una)
  {
    DropAll(x.buf, h.sent);
  }

  /** A repeated acknowledgement changes nothing. */
  lemma AckedAlready(x: Tx, h: Shape, sn: u32)
    requires TxIs(x, h) && Few(h) && h.flying == 0 && sn < h.sent
    ensures Shrink(ParseAck(x, sn)) == x
  {
  }

  /** The next segment in order goes straight to the receive queue. */
  lemma NextIsReady(r: Rx, h: Shape, g: Seg)
    requires RxIs(r, h) && Few(h) && g.sn == h.next && g.frg == 0 && r.nque == |r.queue| && r.nbuf == 0
    ensures RxIs(ParseData(128, r, g), h.(next := h.next + 1, ready := h.ready + [g.data]))
  {
    var r1 := r.(buf := [g], nbuf := 1);
    assert InsertBack([], g) == [g];
    var t := MoveOne(r1);
    assert MoveReady(128, r1) == t by { assert MoveReady(128, t) == t; }
  }

  function Acknowledged(h: Shape): Shape {
    h.(flying := 0)
  }

  function Received(h: Shape, m: Bytes): Shape {
    h.(flying := 0, next := h.next + 1, ready := h.ready + [m], acks := h.acks + 1)
  }

  lemma InputAckIs(t: Progress, p: Packet, conv: u32, h: Shape)
    requires Is(t.cb, conv, h) && ValidPacket(p) && IsAck(p, h.sent)
    ensures Is(InputPacket(t, p).cb, conv, Acknowledged(h))
  {
    InputPacketKeepsInv(t, p);
    UnaDropsAll(t.cb.tx, h);
    AckedAlready(Shrink(ParseUna(t.cb.tx, p.una)), Acknowledged(h), p.sn);
    hide Inv, TxIs, RxIs, ParseAck, ParseUna, Shrink, UpdateAck;
    SameReceived(t.cb, h);
  }

  lemma SameReceived(s: Cb, h: Shape)
    requires RxIs(s.rx, h) && AcksAre(s.acklist, h)
    ensures RxIs(s.rx, Acknowledged(h)) && AcksAre(s.acklist, Acknowledged(h))
  {
  }

  lemma InputPushIs(t: Progress, p: Packet, conv: u32, h: Shape, m: Bytes)
    requires Is(t.cb, conv, h) && ValidPacket(p) && IsPush(p, h.sent, h.next, m)
    requires h.next + 1 < 100 && |h.ready| < 2 && h.acks < 2
    ensures Is(InputPacket(t, p).cb, conv, Received(h, m))
  {
    InputPacketKeepsInv(t, p);
    UnaDropsAll(t.cb.tx, h);
    NextIsReady(t.cb.rx, h, SegOf(p));
    hide Inv, RxIs, ParseUna, Shrink, ParseData;
  }

  /** The receiver's shape after the first k segments of what a sender of shape g sent. */
  function Taken(h: Shape, g: Shape, k: nat): Shape {
    if k == 0 then h
    else if k <= g.acks then h.(flying := 0)
    else
      var n := Min(k - g.acks, |g.queued|);
      h.(flying := 0, next := h.next + n, ready := h.ready + g.queued[..n], acks := h.acks + n)
  }

  /** All of it is received in order, and all that was outstanding is acknowledged. */
  ghost predicate Continues(h: Shape, g: Shape) {
    && g.next == h.sent && g.sent == h.next && h.next + |g.queued| < 100
    && |h.ready| + |g.queued| <= 2 && h.acks + |g.queued| <= 2
  }

  lemma TakenStep(h: Shape, g: Shape, k: nat)
    requires Continues(h, g) && k < g.acks + |g.queued|
    ensures var t := Taken(h, g, k);
            Taken(h, g, k + 1) == if k < g.acks then Acknowledged(t) else Received(t, g.queued[k - g.acks])
  {
    if k >= g.acks {
      var n := k - g.acks;
      assert g.queued[..n + 1] == g.queued[..n] + [g.queued[n]];
      assert h.ready + g.queued[..0] == h.ready;
      Associate(h.ready, g.queued[..n], [g.queued[n]]);
    }
  }

  lemma CarriedAt(ps: seq<Packet>, h: Shape, g: Shape, k: nat)
    requires Carried(ps, g) && Continues(h, g) && k < |ps|
    ensures var t := Taken(h, g, k);
            if k < g.acks then IsAck(ps[k], t.sent)
            else IsPush(ps[k], t.sent, t.next, g.queued[k - g.acks]) && t.next + 1 < 100 && |t.ready| < 2 && t.acks < 2
  {
  }

  lemma {:induction false} InputPacketsIs(s: Cb, conv: u32, h: Shape, g: Shape, ps: seq<Packet>, k: nat)
    requires Is(s, conv, h) && Carried(ps, g) && Continues(h, g) && k <= |ps|
    requires forall i :: 0 <= i < |ps| ==> ValidPacket(ps[i])
    ensures Is(InputPackets(Progress(s, false, 0, 0), ps[..k]).cb, conv, Taken(h, g, k))
    decreases k
  {
    if k > 0 {
      InputPacketsIs(s, conv, h, g, ps, k - 1);
      var t := InputPackets(Progress(s, false, 0, 0), ps[..k - 1]);
      var p, m := ps[k - 1], Taken(h, g, k - 1);
      assert ps[..k][..k - 1] == ps[..k - 1] && ps[..k][k - 1] == p;
      TakenStep(h, g, k - 1);
      CarriedAt(ps, h, g, k - 1);
      hide Is, InputPacket, Carried, Continues, Taken, ValidPacket, IsAck, IsPush;
      if k - 1 < g.acks {
        InputAckIs(t, p, conv, m);
      } else {
        InputPushIs(t, p, conv, m, g.queued[k - 1 - g.acks]);
      }
    }
  }

  /** The end of ikcp_input changes nothing of the shape. */
  lemma FinishIs(t: Progress, conv: u32, h: Shape, prevUna: u32)
    requires Is(t.cb, conv, h) && h.flying == 0
    ensures var s := FinishInput(t, prevUna);
            s.cfg == t.cb.cfg && s.tx == t.cb.tx && s.rx == t.cb.rx && s.acklist == t.cb.acklist
            && s.probe == t.cb.probe && s.clock == t.cb.clock && s.rmtWnd == t.cb.rmtWnd
  {
    hide Grow, Inv, RxIs, AcksAre;
  }

  /** A datagram that continues: everything in it is received. */
  lemma InputIs(s: Cb, conv: u32, h: Shape, g: Shape, ps: seq<Packet>, d: Bytes)
    requires Is(s, conv, h) && Carried(ps, g) && Continues(h, g) && ps != []
    requires ParseDatagram(conv, d) == Parsed(ps, 0) && forall i :: 0 <= i < |ps| ==> ValidPacket(ps[i])
    ensures Is(Input(s, d).cb, conv, Taken(h, g, |ps|))
  {
    InputPacketsIs(s, conv, h, g, ps, |ps|);
    assert ps[..|ps|] == ps;
    InputKeepsInv(s, d);
    hide Inv, Carried, InputPackets, ParseDatagram, TxIs, RxIs, AcksAre, FinishInput;
    FinishIs(InputPackets(Progress(s, false, 0, 0), ps), conv, Taken(h, g, |ps|), s.tx.una);
  }

  // ---- the calls on an endpoint and its history ------------------------------------

  ghost predicate PeerIs(p: L.Peer, conv: u32, h: Shape) {
    Is(p.cb, conv, h) && |p.log| == h.sent
  }

  lemma FreshPeerIs(conv: u32)
    ensures var p := L.Peer(Create(ClientCfg(conv)), [], [], [], {});
            L.FreshPeer(p) && PeerIs(p, conv, Shape(0, 0, [], 0, [], 0, Clock(0, INTERVAL, false)))
  {
    SettersKeepCfg(conv, DefaultCfg(conv), 1400, 2, 10, 2, 1, 128, 128);
    CreateInv(ClientCfg(conv));
    hide Inv, CfgOk;
  }

  function Sent(h: Shape, m: Bytes): Shape {
    h.(queued := h.queued + [m])
  }

  /** ikcp_send of a short message. */
  lemma SendIs(p: L.Peer, conv: u32, h: Shape, m: Bytes)
    requires PeerIs(p, conv, h) && |m| <= SHORT && |h.queued| < 2
    ensures var t := L.Act(p, SendOp(m));
            PeerIs(t, conv, Sent(h, m)) && t.delivered == p.delivered && t.wire == p.wire
  {
    SendKeepsInv(p.cb, m, |m|);
    SendOne(p.cb, m);
    QueueMore(p.cb.tx, h, m);
    hide Inv, RxIs, TxIs, Send, Fresh;
    SameSide(p.cb, h, m);
  }

  lemma QueueMore(x: Tx, h: Shape, m: Bytes)
    requires TxIs(x, h)
    ensures TxIs(x.(queue := x.queue + [Fresh(m)], nque := x.nque + 1), Sent(h, m))
  {
  }

  lemma SameSide(s: Cb, h: Shape, m: Bytes)
    requires RxIs(s.rx, h) && AcksAre(s.acklist, h)
    ensures RxIs(s.rx, Sent(h, m)) && AcksAre(s.acklist, Sent(h, m))
  {
  }

  lemma SendOne(s: Cb, m: Bytes)
    requires !s.cfg.stream && |m| <= s.cfg.mss
    ensures Send(s, m, |m|) == KcpModel.Sent(s.(tx := s.tx.(queue := s.tx.queue + [Fresh(m)], nque := s.tx.nque + 1)), |m|)
  {
    ChopOne(m, s.cfg.mss);
    hide Chop;
    assert m[0..|m|] == m;
  }

  lemma ChopOne(m: Bytes, mss: u32)
    requires |m| <= mss
    ensures Chop(m, mss, false, 1) == [Fresh(m)]
  {
    assert m[..|m|] == m;
    assert Chop(m[|m|..], mss, false, 0) == [];
  }

  /** ikcp_recv of the message at the head. */
  lemma RecvIs(p: L.Peer, conv: u32, h: Shape, len: nat)
    requires PeerIs(p, conv, h) && h.ready != [] && |h.ready[0]| <= len
    ensures var r := Recv(p.cb, len); r.ret == |h.ready[0]| && r.data == h.ready[0]
    ensures var t := L.Act(p, RecvOp(len));
            PeerIs(t, conv, h.(ready := h.ready[1..])) && t.wire == p.wire && t.accepted == p.accepted
  {
    RecvKeepsInv(p.cb, len);
    HeadIs(p.cb, conv, h);
    RecvOne(p.cb, len);
    hide Inv, TxIs, RxIs, AcksAre, Recv, PeekSize, HeadCount, Payload;
    OneLess(p.cb, h);
  }

  lemma OneLess(s: Cb, h: Shape)
    requires TxIs(s.tx, h) && RxIs(s.rx, h) && AcksAre(s.acklist, h) && h.ready != []
    ensures var g := h.(ready := h.ready[1..]);
            && TxIs(s.tx, g) && AcksAre(s.acklist, g)
            && RxIs(s.rx.(queue := s.rx.queue[1..], nque := s.rx.nque - 1), g) && (Few(h) ==> Few(g))
  {
  }

  lemma RecvOne(s: Cb, len: nat)
    requires s.rx.queue != [] && HeadCount(s.rx.queue) == 1 && 0 <= PeekSize(s.rx) <= len && s.rx.buf == [] && s.rx.nque < s.cfg.rcvWnd
    ensures Recv(s, len) == KcpModel.Received(s.(rx := s.rx.(queue := s.rx.queue[1..], nque := s.rx.nque - 1)),
                                              |Payload(s.rx.queue[..1])|, Payload(s.rx.queue[..1]))
  {
    hide Payload, PeekSize, HeadCount;
  }

  lemma HeadIs(s: Cb, conv: u32, h: Shape)
    requires Is(s, conv, h) && h.ready != []
    ensures HeadCount(s.rx.queue) == 1 && PeekSize(s.rx) == |h.ready[0]| && Payload(s.rx.queue[..1]) == h.ready[0]
    ensures s.rx.nque < s.cfg.rcvWnd
  {
    assert s.rx.queue[..1][..0] == [];
    assert [] + s.rx.queue[0].data == s.rx.queue[0].data;
  }

  /** ikcp_update when due. */
  lemma ActUpdateIs(p: L.Peer, conv: u32, h: Shape, now: u32) returns (d: Bytes, ps: seq<Packet>)
    requires PeerIs(p, conv, h) && h.flying == 0 && h.acks + |h.queued| > 0 && h.sent + |h.queued| < 100
    requires Tick(h.clock, 10, now).due
    ensures Carried(ps, h) && (forall i :: 0 <= i < |ps| ==> ValidPacket(ps[i])) && ParseDatagram(conv, d) == Parsed(ps, 0)
    ensures var t := L.Act(p, UpdateOp(now));
            && PeerIs(t, conv, Gone(h, now)) && d in t.wire
            && t.delivered == p.delivered && t.accepted == p.accepted
  {
    hide *;
    var g := Gone(h, now);
    GoneParts(h, now);
    PeerParts(p, conv, h);
    ps := UpdateIs(p.cb, conv, h, now);
    d := EncodeAll(ps);
    UpdateHistory(p, now);
    QueueLength(p.cb, conv, h);
    QueueLength(Update(p.cb, now).cb, conv, g);
    PeerIsParts(L.Act(p, UpdateOp(now)), conv, g);
  }

  lemma GoneParts(h: Shape, now: u32)
    ensures Gone(h, now).sent == h.sent + |h.queued| && Gone(h, now).queued == []
  {
  }

  lemma PeerParts(p: L.Peer, conv: u32, h: Shape)
    requires PeerIs(p, conv, h)
    ensures Is(p.cb, conv, h) && |p.log| == h.sent
  {
  }

  lemma PeerIsParts(p: L.Peer, conv: u32, h: Shape)
    requires Is(p.cb, conv, h) && |p.log| == h.sent
    ensures PeerIs(p, conv, h)
  {
  }

  lemma UpdateHistory(p: L.Peer, now: u32)
    ensures var (t, f) := (L.Act(p, UpdateOp(now)), Update(p.cb, now));
            && t.cb == f.cb && t.delivered == p.delivered && t.accepted == p.accepted && (forall d <- f.datagrams :: d in t.wire)
            && (|f.cb.tx.queue| <= |p.cb.tx.queue| ==> |t.log| == |p.log| + |p.cb.tx.queue| - |f.cb.tx.queue|)
  {
    hide Update;
  }

  lemma QueueLength(s: Cb, conv: u32, h: Shape)
    requires Is(s, conv, h)
    ensures |s.tx.queue| == |h.queued|
  {
  }

  /** ikcp_input of a datagram that continues. */
  lemma ActInputIs(p: L.Peer, conv: u32, h: Shape, g: Shape, ps: seq<Packet>, d: Bytes)
    requires PeerIs(p, conv, h) && Carried(ps, g) && Continues(h, g) && ps != []
    requires ParseDatagram(conv, d) == Parsed(ps, 0) && forall i :: 0 <= i < |ps| ==> ValidPacket(ps[i])
    ensures var t := L.Act(p, InputOp(d));
            && PeerIs(t, conv, Taken(h, g, |ps|)) && t.wire == p.wire && t.delivered == p.delivered && t.accepted == p.accepted
  {
    InputIs(p.cb, conv, h, g, ps, d);
    hide Is, Input, Carried;
  }
}
