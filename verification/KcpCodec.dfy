/** Datagram batching: what ikcp_flush puts on the wire is read back segment by segment. */
module KcpCodec {
  import opened Serial
  import opened Wire
  import opened KcpModel
  import opened KcpInvariant

  /** A segment ikcp_flush may send: read back as itself, and small enough for one datagram. */
  ghost predicate Sendable(conv: u32, mtu: u32, p: Packet) {
    ValidPacket(p) && p.conv == conv && OVERHEAD + |p.data| <= mtu
  }

  ghost predicate AllSendable(conv: u32, mtu: u32, ps: seq<Packet>) {
    forall i :: 0 <= i < |ps| ==> Sendable(conv, mtu, ps[i])
  }

  /** The segments read from a list of datagrams, one after the other. */
  function ReadAll(conv: u32, ds: seq<Bytes>): seq<Packet> {
    if ds == [] then [] else ReadAll(conv, ds[..|ds| - 1]) + ParseDatagram(conv, ds[|ds| - 1]).packets
  }

  /** Every datagram is accepted without error, holds at least one segment, and fits the mtu. */
  ghost predicate WellFormed(conv: u32, mtu: u32, ds: seq<Bytes>) {
    forall i :: 0 <= i < |ds| ==> OVERHEAD <= |ds[i]| <= mtu && ParseDatagram(conv, ds[i]).code == 0
  }

  /** The output so far reads back as `ps`: the finished datagrams, then `open` from the buffer. */
  ghost predicate Gathered(conv: u32, mtu: u32, o: Out, open: seq<Packet>, ps: seq<Packet>) {
    && WellFormed(conv, mtu, o.done) && |o.buf| <= mtu
    && o.buf == EncodeAll(open) && AllSendable(conv, mtu, open) && ReadAll(conv, o.done) + open == ps
  }

  lemma OpenReadsBack(conv: u32, mtu: u32, open: seq<Packet>)
    requires AllSendable(conv, mtu, open)
    ensures ParseSegments(conv, EncodeAll(open)) == Parsed(open, 0)
    ensures open == [] <==> EncodeAll(open) == []
    ensures open != [] ==> |EncodeAll(open)| >= OVERHEAD
  {
    ParseEncodeAll(conv, open);
    if open != [] {
      assert EncodeAll(open) == Encode(open[0]) + EncodeAll(open[1..]);
    }
  }

  /** Handing the buffer over turns the open segments into one more datagram. */
  lemma HandReadsBack(conv: u32, mtu: u32, o: Out, open: seq<Packet>, ps: seq<Packet>)
    requires Gathered(conv, mtu, o, open, ps)
    ensures WellFormed(conv, mtu, Hand(o)) && ReadAll(conv, Hand(o)) == ps
  {
    OpenReadsBack(conv, mtu, open);
    if o.buf != [] {
      assert (o.done + [o.buf])[..|o.done|] == o.done;
    }
  }

  lemma NothingGathered(conv: u32, mtu: u32)
    ensures Gathered(conv, mtu, Out([], []), [], [])
  {
  }

  lemma {:induction false} EmitAllReadsBack(conv: u32, mtu: u32, ps: seq<Packet>) returns (open: seq<Packet>)
    requires AllSendable(conv, mtu, ps)
    ensures Gathered(conv, mtu, EmitAll(mtu, Out([], []), ps), open, ps)
  {
    hide Gathered, Emit, Sendable;
    if ps == [] {
      open := [];
      NothingGathered(conv, mtu);
    } else {
      var front, p := ps[..|ps| - 1], ps[|ps| - 1];
      open := EmitAllReadsBack(conv, mtu, front);
      open := EmitReadsBack(conv, mtu, EmitAll(mtu, Out([], []), front), open, front, p);
      assert front + [p] == ps;
    }
  }

  lemma EmitReadsBack(conv: u32, mtu: u32, o: Out, open: seq<Packet>, ps: seq<Packet>, p: Packet)
    returns (r: seq<Packet>)
    requires Gathered(conv, mtu, o, open, ps) && Sendable(conv, mtu, p)
    ensures Gathered(conv, mtu, Emit(mtu, o, p), r, ps + [p])
  {
    if |o.buf| + OVERHEAD + |p.data| > mtu {
      HandReadsBack(conv, mtu, o, open, ps);
      assert EncodeAll([p]) == Encode(p) + EncodeAll([]);
      r := [p];
    } else {
      EncodeAllAppend(open, p);
      r := open + [p];
      assert ReadAll(conv, o.done) + r == ReadAll(conv, o.done) + open + [p];
    }
  }

  /** Batching then decoding is the identity, and no datagram exceeds the mtu. */
  lemma BatchRoundTrip(conv: u32, mtu: u32, ps: seq<Packet>)
    requires AllSendable(conv, mtu, ps)
    ensures WellFormed(conv, mtu, Batch(mtu, ps))
    ensures ReadAll(conv, Batch(mtu, ps)) == ps
  {
    var open := EmitAllReadsBack(conv, mtu, ps);
    HandReadsBack(conv, mtu, EmitAll(mtu, Out([], []), ps), open, ps);
  }

  // ---- what ikcp_flush sends -------------------------------------------------------

  lemma {:induction false} AckPacketsSendable(k: Cfg, h: Header, acks: seq<Ack>)
    requires CfgOk(k) && h.conv == k.conv
    ensures AllSendable(k.conv, k.mtu, AckPackets(h, acks))
    ensures |AckPackets(h, acks)| == |acks|
    ensures forall i :: 0 <= i < |acks| ==> AckPackets(h, acks)[i] == Control(h, CMD_ACK, acks[i])
  {
    if acks != [] {
      AckPacketsSendable(k, h, acks[..|acks| - 1]);
    }
  }

  lemma AllSendableConcat(conv: u32, mtu: u32, x: seq<Packet>, y: seq<Packet>)
    requires AllSendable(conv, mtu, x) && AllSendable(conv, mtu, y)
    ensures AllSendable(conv, mtu, x + y)
  {
  }

  lemma {:induction false} DuePacketsSendable(k: Cfg, c: Pass, q: seq<Seg>)
    requires CfgOk(k) && SendBufOk(k, q)
    ensures AllSendable(k.conv, k.mtu, DuePackets(c, q))
  {
    if q != [] {
      DuePacketsSendable(k, c, q[..|q| - 1]);
    }
  }

  /** A due segment travels with its own number, countdown and bytes, stamped by this flush. */
  ghost predicate Carries(c: Pass, p: Packet, g: Seg) {
    p.cmd == CMD_PUSH && p.sn == g.sn && p.frg == g.frg && p.data == g.data && p.ts == c.current && p.una == c.una
    && p.wnd == c.wnd % 0x1_0000
  }

  lemma {:induction false} DuePacketsCarry(k: Cfg, c: Pass, q: seq<Seg>)
    requires SendBufOk(k, q)
    ensures forall p :: p in DuePackets(c, q) ==> exists i :: 0 <= i < |q| && Carries(c, p, q[i])
  {
    if q != [] {
      var front, g := q[..|q| - 1], q[|q| - 1];
      DuePacketsCarry(k, c, front);
      forall p | p in DuePackets(c, q)
        ensures exists i :: 0 <= i < |q| && Carries(c, p, q[i])
      {
        if p in DuePackets(c, front) {
          var i :| 0 <= i < |front| && Carries(c, p, front[i]);
          assert Carries(c, p, q[i]);
        } else {
          assert Carries(c, p, q[|q| - 1]);
        }
      }
    }
  }

  lemma FlushPacketsSendable(s: Cb)
    requires Inv(s)
    ensures AllSendable(s.cfg.conv, s.cfg.mtu, FlushPackets(s))
  {
    var h := HeaderOf(s);
    var acks, probes := AckPackets(h, s.acklist), ProbePackets(h, FlushProbe(s), LastAck(s.acklist));
    AckPacketsSendable(s.cfg, h, s.acklist);
    AllSendableConcat(s.cfg.conv, s.cfg.mtu, acks, probes);
    AdmitKeeps(s.cfg, PassOf(s), s.tx, SendLimit(s));
    DuePacketsSendable(s.cfg, PassOf(s), Admitted(s).buf);
    AllSendableConcat(s.cfg.conv, s.cfg.mtu, acks + probes, DuePackets(PassOf(s), Admitted(s).buf));
  }

  /** The datagrams of one ikcp_flush decode, in order, to the pending acknowledgements, then the
      probes, then the due data segments, with every field and byte unchanged and no error. */
  lemma FlushRoundTrip(s: Cb)
    requires Inv(s) && s.clock.updated
    ensures WellFormed(s.cfg.conv, s.cfg.mtu, Flush(s).datagrams)
    ensures ReadAll(s.cfg.conv, Flush(s).datagrams)
         == AckPackets(HeaderOf(s), s.acklist) + ProbePackets(HeaderOf(s), FlushProbe(s), LastAck(s.acklist))
          + DuePackets(PassOf(s), Admitted(s).buf)
  {
    FlushPacketsSendable(s);
    BatchRoundTrip(s.cfg.conv, s.cfg.mtu, FlushPackets(s));
  }

  /** A segment announces this window and this next number. */
  ghost predicate Announces(p: Packet, wnd: int, una: u32) {
    p.wnd == wnd % 0x1_0000 && p.una == una
  }

  lemma AcksAnnounce(k: Cfg, h: Header, acks: seq<Ack>)
    requires CfgOk(k) && h.conv == k.conv
    ensures forall p <- AckPackets(h, acks) :: Announces(p, h.wnd, h.una)
  {
    AckPacketsSendable(k, h, acks);
    hide AckPackets;
  }

  lemma ProbesAnnounce(h: Header, b: Probe, last: Ack)
    ensures forall p <- ProbePackets(h, b, last) :: Announces(p, h.wnd, h.una)
  {
  }

  lemma DueAnnounce(k: Cfg, c: Pass, q: seq<Seg>)
    requires SendBufOk(k, q)
    ensures forall p <- DuePackets(c, q) :: Announces(p, c.wnd, c.una)
  {
    DuePacketsCarry(k, c, q);
    hide DuePackets, SendBufOk;
    forall p | p in DuePackets(c, q)
      ensures Announces(p, c.wnd, c.una)
    {
      var i :| 0 <= i < |q| && Carries(c, p, q[i]);
    }
  }

  /** Every segment of a flush announces the room the receive queue has, and the next number expected. */
  lemma FlushAnnounces(s: Cb)
    requires Inv(s) && s.cfg.rcvWnd <= 0xffff
    ensures forall p <- FlushPackets(s) :: p.wnd == s.cfg.rcvWnd - |s.rx.queue| && p.una == s.rx.nxt
  {
    AdmitKeeps(s.cfg, PassOf(s), s.tx, SendLimit(s));
    AcksAnnounce(s.cfg, HeaderOf(s), s.acklist);
    DueAnnounce(s.cfg, PassOf(s), Admitted(s).buf);
    ProbesAnnounce(HeaderOf(s), FlushProbe(s), LastAck(s.acklist));
    assert WndUnused(s) == s.cfg.rcvWnd - |s.rx.queue|;
    hide Admitted, DuePackets, AckPackets, Inv, SendBufOk, WndUnused, ProbeTimer, LastAck, ProbePackets;
    AllThree(AckPackets(HeaderOf(s), s.acklist), ProbePackets(HeaderOf(s), FlushProbe(s), LastAck(s.acklist)),
             DuePackets(PassOf(s), Admitted(s).buf), WndUnused(s), s.rx.nxt);
  }

  lemma AllThree(x: seq<Packet>, y: seq<Packet>, z: seq<Packet>, wnd: u32, una: u32)
    requires wnd <= 0xffff
    requires forall p <- x :: Announces(p, wnd, una)
    requires forall p <- y :: Announces(p, wnd, una)
    requires forall p <- z :: Announces(p, wnd, una)
    ensures forall p <- x + y + z :: p.wnd == wnd && p.una == una
  {
  }

  lemma {:induction false} ReadAllMember(conv: u32, ds: seq<Bytes>, d: Bytes)
    requires d in ds
    ensures forall p <- ParseDatagram(conv, d).packets :: p in ReadAll(conv, ds)
  {
    if d != ds[|ds| - 1] {
      ReadAllMember(conv, ds[..|ds| - 1], d);
    }
  }

  /** No datagram of a flush contains a segment that the flush did not mean to send. */
  lemma FlushedPacket(s: Cb, d: Bytes)
    requires Inv(s) && d in Flush(s).datagrams
    ensures forall p <- ParseDatagram(s.cfg.conv, d).packets :: p in FlushPackets(s)
  {
    FlushRoundTrip(s);
    ReadAllMember(s.cfg.conv, Flush(s).datagrams, d);
  }
}
