/** ikcp.c as it runs: one mutable control block, its queues, the growing acknowledgement array and
    the datagram buffer. Every method is proved to compute the function of KcpModel it implements. */
module Kcp {
  import opened Serial
  import opened Sequences
  import opened Wire
  import M = KcpModel
  import opened KcpInvariant
  import KcpMessages

  /** The first n pairs of the acknowledgement array. */
  function AckPairs(a: seq<u32>, n: nat): (r: seq<M.Ack>)
    requires 2 * n <= |a|
    ensures |r| == n && forall i :: 0 <= i < n ==> r[i] == M.Ack(a[2 * i], a[2 * i + 1])
  {
    seq(n, i requires 0 <= i < n => M.Ack(a[2 * i], a[2 * i + 1]))
  }

  lemma SamePairs(a: seq<u32>, b: seq<u32>, n: nat)
    requires 2 * n <= |a| && 2 * n <= |b| && a[..2 * n] == b[..2 * n]
    ensures AckPairs(a, n) == AckPairs(b, n)
  {
    assert forall i :: 0 <= i < 2 * n ==> a[i] == a[..2 * n][i] == b[i];
  }

  lemma OnePairMore(a: seq<u32>, b: seq<u32>, n: nat, p: M.Ack)
    requires 2 * n + 2 <= |a| == |b| && b == a[2 * n := p.sn][2 * n + 1 := p.ts]
    ensures AckPairs(b, n + 1) == AckPairs(a, n) + [p]
  {
  }

  // ---- writing into the datagram buffer --------------------------------------------

  method Put32(b: array<byte>, at: nat, l: u32)
    requires at + 4 <= b.Length
    modifies b
    ensures b[..at + 4] == old(b[..at]) + Encode32(l)
  {
    b[at] := l % 0x100;
    b[at + 1] := l / 0x100 % 0x100;
    b[at + 2] := l / 0x1_0000 % 0x100;
    b[at + 3] := l / 0x100_0000;
  }

  method Put16(b: array<byte>, at: nat, w: u16)
    requires at + 2 <= b.Length
    modifies b
    ensures b[..at + 2] == old(b[..at]) + Encode16(w)
  {
    b[at] := w % 0x100;
    b[at + 1] := w / 0x100;
  }

  method PutBytes(b: array<byte>, at: nat, data: Bytes)
    requires at + |data| <= b.Length
    modifies b
    ensures b[..at + |data|] == old(b[..at]) + data
  {
    for i := 0 to |data|
      invariant b[..at + i] == old(b[..at]) + data[..i]
    {
      b[at + i] := data[i];
    }
    assert data[..|data|] == data;
  }

  /** conv, cmd, frg and wnd: the first 8 bytes of the header. */
  method PutKind(b: array<byte>, at: nat, p: Packet)
    requires at + 8 <= b.Length
    modifies b
    ensures b[..at + 8] == old(b[..at]) + (Encode32(p.conv) + [p.cmd, p.frg] + Encode16(p.wnd))
  {
    Put32(b, at, p.conv);
    b[at + 4], b[at + 5] := p.cmd, p.frg;
    Put16(b, at + 6, p.wnd);
  }

  /** ts, sn, una and len: the last 16 bytes of the header. */
  method PutNumbers(b: array<byte>, at: nat, p: Packet)
    requires at + 16 <= b.Length && |p.data| < M32
    modifies b
    ensures b[..at + 16] == old(b[..at]) + (Encode32(p.ts) + Encode32(p.sn) + Encode32(p.una) + Encode32(|p.data|))
  {
    Put32(b, at, p.ts);
    Put32(b, at + 4, p.sn);
    Put32(b, at + 8, p.una);
    Put32(b, at + 12, |p.data|);
  }

  lemma HeaderParts(start: Bytes, p: Packet)
    requires |p.data| < M32
    ensures start + (Encode32(p.conv) + [p.cmd, p.frg] + Encode16(p.wnd))
            + (Encode32(p.ts) + Encode32(p.sn) + Encode32(p.una) + Encode32(|p.data|)) == start + EncodeHeader(p)
  {
    hide Encode32, Encode16;
    var kind := Encode32(p.conv) + [p.cmd, p.frg] + Encode16(p.wnd);
    Flatten(start, kind, Encode32(p.ts), Encode32(p.sn), Encode32(p.una), Encode32(|p.data|));
  }

  lemma Flatten(x: Bytes, y: Bytes, a: Bytes, b: Bytes, c: Bytes, d: Bytes)
    ensures x + y + (a + b + c + d) == x + (y + a + b + c + d)
  {
  }

  /** ikcp_encode_seg, followed by the payload. */
  method PutPacket(b: array<byte>, at: nat, p: Packet)
    requires at + OVERHEAD + |p.data| <= b.Length && |p.data| < M32
    modifies b
    ensures b[..at + OVERHEAD + |p.data|] == old(b[..at]) + Encode(p)
  {
    ghost var start := b[..at];
    PutKind(b, at, p);
    PutNumbers(b, at + 8, p);
    HeaderParts(start, p);
    assert b[..at + OVERHEAD] == start + EncodeHeader(p);
    ghost var h := EncodeHeader(p);
    PutBytes(b, at + OVERHEAD, p.data);
    assert start + h + p.data == start + (h + p.data);
  }

  ghost function AfterSegments(done: seq<Packet>, rest: Parsed): Parsed {
    Parsed(done + rest.packets, rest.code)
  }

  lemma NextSegment(t: M.Progress, done: seq<Packet>, p: Packet, tail: Parsed)
    ensures AfterSegments(done, Parsed([p] + tail.packets, tail.code)) == AfterSegments(done + [p], tail)
    ensures M.InputPackets(t, done + [p]) == M.InputPacket(M.InputPackets(t, done), p)
  {
    assert (done + [p])[..|done|] == done;
    assert done + ([p] + tail.packets) == done + [p] + tail.packets;
  }

  lemma ParseUnfolds(conv: u32, d: Bytes)
    ensures |d| < OVERHEAD ==> ParseSegments(conv, d) == Parsed([], 0)
    ensures |d| >= OVERHEAD ==>
              var e := HeaderError(conv, d);
              if e != 0 then ParseSegments(conv, d) == Parsed([], e)
              else
                var len := Decode32(d, 20);
                && OVERHEAD + len <= |d|
                && var tail := ParseSegments(conv, d[OVERHEAD + len..]);
                   ParseSegments(conv, d) == Parsed([PacketAt(d, len)] + tail.packets, tail.code)
  {
  }

  lemma NoSegment(t: M.Progress, parsed: Parsed)
    ensures AfterSegments([], parsed) == parsed && M.InputPackets(t, []) == t
  {
  }

  lemma LastSegment(done: seq<Packet>, code: int)
    ensures AfterSegments(done, Parsed([], code)) == Parsed(done, code)
  {
  }

  lemma ScanEnds(front: seq<M.Seg>, g: M.Seg)
    ensures front == [] ==> M.InsertBack(front, g) == front + [g]
    ensures front != [] && front[|front| - 1].sn == g.sn ==> M.InsertBack(front, g) == front
    ensures front != [] && front[|front| - 1].sn != g.sn && Diff(g.sn, front[|front| - 1].sn) > 0 ==>
              M.InsertBack(front, g) == front + [g]
  {
  }

  lemma ScanBack(shorter: seq<M.Seg>, last: M.Seg, back: seq<M.Seg>, g: M.Seg)
    requires last.sn != g.sn && Diff(g.sn, last.sn) <= 0
    ensures shorter + [last] + back == shorter + ([last] + back)
    ensures M.InsertBack(shorter + [last], g) + back == M.InsertBack(shorter, g) + ([last] + back)
  {
    Associate(shorter, [last], back);
    assert (shorter + [last])[..|shorter|] == shorter;
    Associate(M.InsertBack(shorter, g), [last], back);
  }

  lemma MarkStep<T>(done: seq<T>, rest: seq<T>, marked: T, tail: seq<T>)
    requires rest != []
    ensures (done + rest)[|done|] == rest[0]
    ensures (done + rest)[..|done|] == done && (done + rest)[|done| + 1..] == rest[1..]
    ensures (done + rest)[|done| := marked] == done + [marked] + rest[1..]
    ensures done + ([marked] + tail) == done + [marked] + tail
  {
  }

  /** Each of these segments fits one datagram. */
  ghost predicate FitMtu(mtu: u32, q: seq<M.Seg>) {
    forall i :: 0 <= i < |q| ==> OVERHEAD + |q[i].data| <= mtu
  }

  lemma AdmittedFit(s: M.Cb)
    requires Inv(s)
    ensures FitMtu(s.cfg.mtu, M.Admitted(s).buf)
  {
    AdmitKeeps(s.cfg, M.PassOf(s), s.tx, M.SendLimit(s));
  }

  class Endpoint {
    var cfg: M.Cfg
    /** snd_una, snd_nxt, snd_queue, snd_buf and their counters. */
    var tx: M.Tx
    /** rcv_nxt, rcv_queue, rcv_buf and their counters. */
    var rx: M.Rx
    var rtt: M.Rtt
    var cong: M.Cong
    var probe: M.Probe
    var clock: M.Clock
    var rmtWnd: u32
    var xmit: u32
    var state: u32
    var acklist: array<u32>
    var ackcount: nat
    var ackblock: nat
    var buffer: array<byte>
    /** Datagrams handed to the output callback so far. */
    var output: seq<Bytes>
    /** The acknowledgements recorded in acklist. */
    ghost var acks: seq<M.Ack>

    ghost function View(): M.Cb
      reads this
    {
      M.Cb(cfg, tx, rx, acks, rtt, cong, probe, clock, rmtWnd, xmit, state)
    }

    ghost predicate Arrays()
      reads this, acklist, buffer
    {
      && buffer.Length == (cfg.mtu + OVERHEAD) * 3
      && acklist.Length == 2 * ackblock && ackcount <= ackblock && acks == AckPairs(acklist[..], ackcount)
    }

    ghost predicate Valid()
      reads this, acklist, buffer
    {
      Arrays() && Inv(View())
    }

    constructor (conv: u32)
      ensures Valid() && fresh(acklist) && fresh(buffer)
      ensures View() == M.Create(M.DefaultCfg(conv)) && output == []
    {
      cfg := M.DefaultCfg(conv);
      tx, rx := M.Tx(0, 0, [], [], 0, 0), M.Rx(0, [], [], 0, 0);
      rtt, cong := M.Rtt(0, 0, M.RTO_DEF), M.Cong(0, M.THRESH_INIT, 0);
      probe, clock := M.Probe(false, false, 0, 0), M.Clock(0, M.INTERVAL, false);
      rmtWnd, xmit, state := M.WND_RCV, 0, 0;
      acklist, ackcount, ackblock := new u32[0], 0, 0;
      buffer := new byte[(M.MTU_DEF + OVERHEAD) * 3];
      output, acks := [], [];
    }

    // ---- settings ------------------------------------------------------------------

    /** ikcp_setmtu: a new buffer for the new size. */
    method SetMtu(mtu: i32) returns (ret: int)
      requires Valid()
      modifies this`cfg, this`buffer
      ensures Arrays() && (buffer == old(buffer) || fresh(buffer))
      ensures View() == old(View()).(cfg := M.SetMtu(old(cfg), mtu)) && ret == if mtu < 50 then -1 else 0
    {
      if mtu < 50 { return -1; }
      cfg := cfg.(mtu := mtu, mss := mtu - OVERHEAD);
      buffer := new byte[(mtu + OVERHEAD) * 3];
      return 0;
    }

    /** ikcp_wndsize. */
    method WndSize(sndwnd: i32, rcvwnd: i32)
      requires Arrays()
      modifies this`cfg
      ensures Arrays() && View() == old(View()).(cfg := M.SetWindow(old(cfg), sndwnd, rcvwnd))
    {
      if sndwnd > 0 { cfg := cfg.(sndWnd := sndwnd); }
      if rcvwnd > 0 { cfg := cfg.(rcvWnd := Max(rcvwnd, M.WND_RCV)); }
    }

    /** ikcp_nodelay. */
    method NoDelay(nodelay: i32, interval: i32, resend: i32, nc: i32)
      requires Arrays()
      modifies this`cfg
      ensures Arrays() && View() == old(View()).(cfg := M.SetNodelay(old(cfg), nodelay, interval, resend, nc))
    {
      var c := cfg;
      if nodelay >= 0 {
        c := c.(nodelay := nodelay, rxMinrto := if nodelay != 0 then M.RTO_NDL else M.RTO_MIN);
      }
      if interval >= 0 {
        c := c.(interval := if interval > 5000 then 5000 else if interval < 10 then 10 else interval);
      }
      if resend >= 0 { c := c.(fastresend := resend); }
      if nc >= 0 { c := c.(nocwnd := nc != 0); }
      assert c == M.SetNodelay(cfg, nodelay, interval, resend, nc);
      hide M.SetNodelay;
      cfg := c;
    }

    // ---- receiving -----------------------------------------------------------------

    /** ikcp_peeksize. */
    method PeekSize() returns (n: int)
      ensures n == M.PeekSize(rx)
    {
      if |rx.queue| == 0 { return -1; }
      if rx.queue[0].frg == 0 { return |rx.queue[0].data|; }
      if rx.nque < rx.queue[0].frg + 1 { return -1; }
      n := 0;
      var i := 0;
      while i < |rx.queue|
        invariant 0 <= i <= |rx.queue|
        invariant M.HeadCount(rx.queue) == i + M.HeadCount(rx.queue[i..])
        invariant n == |M.Payload(rx.queue[..i])|
      {
        n := n + |rx.queue[i].data|;
        assert rx.queue[..i + 1][..i] == rx.queue[..i];
        assert rx.queue[i..][1..] == rx.queue[i + 1..];
        i := i + 1;
        if rx.queue[i - 1].frg == 0 { break; }
      }
    }

    /** The loop that moves available data from rcv_buf to rcv_queue. */
    method MoveReady()
      modifies this`rx
      ensures rx == M.MoveReady(cfg.rcvWnd, old(rx))
    {
      while |rx.buf| > 0 && rx.buf[0].sn == rx.nxt && rx.nque < cfg.rcvWnd
        invariant M.MoveReady(cfg.rcvWnd, rx) == M.MoveReady(cfg.rcvWnd, old(rx))
        decreases |rx.buf|
      {
        rx := M.Rx(Add(rx.nxt, 1), rx.queue + [rx.buf[0]], rx.buf[1..], rx.nque + 1, rx.nbuf - 1);
      }
    }

    /** The merge loop of ikcp_recv: segments up to and including the first with frg 0. */
    method MergeHead() returns (p: nat, data: Bytes)
      ensures p == M.HeadCount(rx.queue) && data == M.Payload(rx.queue[..p])
    {
      data, p := [], 0;
      var whole := false;
      while p < |rx.queue| && !whole
        invariant 0 <= p <= |rx.queue|
        invariant data == M.Payload(rx.queue[..p])
        invariant M.HeadCount(rx.queue) == if whole then p else p + M.HeadCount(rx.queue[p..])
      {
        data := data + rx.queue[p].data;
        whole := rx.queue[p].frg == 0;
        assert rx.queue[..p + 1][..p] == rx.queue[..p];
        assert rx.queue[p..][1..] == rx.queue[p + 1..];
        p := p + 1;
      }
    }

    /** ikcp_recv; the bytes written to the caller's buffer are returned. */
    method Recv(length: int) returns (ret: int, data: Bytes)
      requires Valid()
      modifies this
      ensures Valid() && acklist == old(acklist) && buffer == old(buffer) && output == old(output)
      ensures M.Received(View(), ret, data) == M.Recv(old(View()), length)
    {
      RecvKeepsInv(View(), length);
      ret, data := ReadMessage(length);
    }

    method ReadMessage(length: int) returns (ret: int, data: Bytes)
      modifies this`rx, this`probe
      ensures M.Received(View(), ret, data) == M.Recv(old(View()), length)
    {
      ret, data := -1, [];
      if |rx.queue| > 0 {
        var size := PeekSize();
        ret := if size < 0 then -2 else if size > (if length < 0 then -length else length) then -3 else size;
        if ret >= 0 {
          data := Deliver(length, size);
          ret := |data|;
        }
      }
    }

    method Deliver(length: int, size: int) returns (data: Bytes)
      requires size == M.PeekSize(rx) >= 0
      modifies this`rx, this`probe
      ensures M.Received(View(), |data|, data) == M.ReadHead(old(View()), length)
    {
      data := ReadHead(length, size);
    }

    /** The message at the head leaves the queue, unless it is only peeked at, and others move up. */
    method ReadHead(length: int, size: int) returns (data: Bytes)
      requires size == M.PeekSize(rx) >= 0
      modifies this`rx, this`probe
      ensures var n := M.HeadCount(old(rx.queue));
              && data == M.Payload(old(rx.queue)[..n])
              && rx == M.MoveReady(cfg.rcvWnd, M.Take(old(rx), length, n))
      ensures probe == if rx.nque < cfg.rcvWnd && old(rx.nque) >= cfg.rcvWnd then old(probe).(askTell := true) else old(probe)
    {
      var wasFull := rx.nque >= cfg.rcvWnd;
      var n;
      KcpMessages.PeekSizeIsExact(rx);
      n, data := MergeHead();
      Leave(length, n);
      assert |data| == size;
      MoveReady();
      if rx.nque < cfg.rcvWnd && wasFull {
        probe := probe.(askTell := true);
      }
    }

    method Leave(length: int, n: nat)
      requires n <= |rx.queue|
      modifies this`rx
      ensures rx == M.Take(old(rx), length, n)
    {
      if length >= 0 {
        rx := rx.(queue := rx.queue[n..], nque := rx.nque - n);
      }
    }

    // ---- sending -------------------------------------------------------------------

    /** ikcp_send of the first `length` bytes of buf. */
    method Send(buf: Bytes, length: int) returns (ret: int)
      requires Valid() && length <= |buf|
      modifies this
      ensures Valid() && acklist == old(acklist) && buffer == old(buffer) && output == old(output)
      ensures M.Sent(View(), ret) == M.Send(old(View()), buf, length)
    {
      SendKeepsInv(View(), buf, length);
      ret := QueueMessage(buf, length);
    }

    method QueueMessage(buf: Bytes, length: int) returns (ret: int)
      requires length <= |buf| && cfg.mss > 0
      modifies this`tx
      ensures M.Sent(View(), ret) == M.Send(old(View()), buf, length)
    {
      hide M.Chop, M.NewSeg;
      if length < 0 { return -1; }
      var sent := 0;
      if cfg.stream {
        sent := AppendToLast(buf[..length]);
        assert buf[..length][..sent] == buf[..sent];
        if length - sent <= 0 { return sent; }
      }
      assert sent == M.Extend(cfg, old(tx.queue), length);
      assert tx == old(tx).(queue := M.AppendTail(cfg, old(tx.queue), buf[..sent]));
      var rest := length - sent;
      var count := M.SegCount(rest, cfg.mss);
      if count >= M.WND_RCV {
        return if cfg.stream && sent > 0 then sent else -2;
      }
      Fragment(buf[sent..length], count);
      return length;
    }

    /** Streaming mode: the last queued segment is replaced by one with up to mss bytes. */
    method AppendToLast(data: Bytes) returns (extend: nat)
      requires cfg.stream
      modifies this`tx
      ensures extend == M.Extend(cfg, old(tx.queue), |data|) <= |data|
      ensures tx == old(tx).(queue := M.AppendTail(cfg, old(tx.queue), data[..extend]))
    {
      extend := 0;
      if |tx.queue| > 0 {
        var last := tx.queue[|tx.queue| - 1];
        if |last.data| < cfg.mss {
          var capacity := cfg.mss - |last.data|;
          extend := if |data| < capacity then |data| else capacity;
          tx := tx.(queue := tx.queue[..|tx.queue| - 1] + [M.NewSeg(0, last.data + data[..extend])]);
        }
      }
    }

    method Fragment(data: Bytes, count: nat)
      requires cfg.mss > 0 && count == M.SegCount(|data|, cfg.mss) < M.WND_RCV
      modifies this`tx
      ensures tx == old(tx).(queue := old(tx.queue) + M.Chop(data, cfg.mss, cfg.stream, count), nque := old(tx.nque) + count)
    {
      var rest := data;
      assert tx.queue + M.Chop(rest, cfg.mss, cfg.stream, count) == old(tx.queue) + M.Chop(data, cfg.mss, cfg.stream, count);
      for i := 0 to count
        invariant tx == old(tx).(queue := tx.queue, nque := old(tx.nque) + i)
        invariant tx.queue + M.Chop(rest, cfg.mss, cfg.stream, count - i)
               == old(tx.queue) + M.Chop(data, cfg.mss, cfg.stream, count)
      {
        var size := if |rest| > cfg.mss then cfg.mss else |rest|;
        var seg := M.NewSeg(if cfg.stream then 0 else count - i - 1, rest[..size]);
        ghost var tail := M.Chop(rest[size..], cfg.mss, cfg.stream, count - i - 1);
        assert tx.queue + ([seg] + tail) == tx.queue + [seg] + tail;
        tx := tx.(queue := tx.queue + [seg], nque := tx.nque + 1);
        rest := rest[size..];
      }
    }

    // ---- input ---------------------------------------------------------------------

    /** ikcp_update_ack. */
    method UpdateAck(sample: i32)
      modifies this`rtt
      ensures rtt == M.UpdateAck(cfg, old(rtt), sample)
    {
      var srtt: int, rttval: int := rtt.srtt, rtt.rttval;
      if srtt == 0 {
        srtt, rttval := sample, I32(CDiv(sample, 2));
      } else {
        var delta := if sample - srtt < 0 then srtt - sample else sample - srtt;
        rttval := I32(CDiv(I32(3 * rttval) + delta, 4));
        srtt := I32(CDiv(I32(I32(7 * srtt) + sample), 8));
        if srtt < 1 { srtt := 1; }
      }
      var rto := U32(srtt + Max(cfg.interval, U32(4 * rttval)));
      rtt := M.Rtt(srtt, rttval, M.Bound(U32(cfg.rxMinrto), rto, M.RTO_MAX));
    }

    /** ikcp_shrink_buf. */
    method Shrink()
      modifies this`tx
      ensures tx == M.Shrink(old(tx))
    {
      tx := tx.(una := if |tx.buf| > 0 then tx.buf[0].sn else tx.nxt);
    }

    /** ikcp_parse_una. */
    method ParseUna(una: u32)
      modifies this`tx
      ensures tx == M.ParseUna(old(tx), una)
    {
      while |tx.buf| > 0 && Diff(una, tx.buf[0].sn) > 0
        invariant M.DropBelow(tx.buf, una) == M.DropBelow(old(tx.buf), una)
        invariant tx == old(tx).(buf := tx.buf, nbuf := old(tx.nbuf) - (|old(tx.buf)| - |tx.buf|))
        decreases |tx.buf|
      {
        tx := tx.(buf := tx.buf[1..], nbuf := tx.nbuf - 1);
      }
    }

    /** ikcp_parse_ack. */
    method ParseAck(sn: u32)
      modifies this`tx
      ensures tx == M.ParseAck(old(tx), sn)
    {
      if Diff(sn, tx.una) < 0 || Diff(sn, tx.nxt) >= 0 { return; }
      var q := tx.buf;
      ghost var before, rest := [], q;
      var i := 0;
      while i < |q|
        invariant 0 <= i == |before| <= |q| && q == before + rest
        invariant M.DropAcked(q, sn) == before + M.DropAcked(rest, sn) && tx == old(tx)
      {
        var seg := q[i];
        MarkStep(before, rest, seg, M.DropAcked(rest[1..], sn));
        if sn == seg.sn {
          tx := tx.(buf := q[..i] + q[i + 1..], nbuf := tx.nbuf - 1);
          return;
        }
        if Diff(sn, seg.sn) < 0 { return; }
        before, rest := before + [seg], rest[1..];
        i := i + 1;
      }
    }

    /** ikcp_parse_fastack. */
    method ParseFastack(sn: u32, ts: u32)
      modifies this`tx
      ensures tx == M.ParseFastack(old(tx), sn, ts)
    {
      if Diff(sn, tx.una) < 0 || Diff(sn, tx.nxt) >= 0 { return; }
      MarkSkipped(sn, ts);
    }

    method MarkSkipped(sn: u32, ts: u32)
      modifies this`tx
      ensures tx == old(tx).(buf := M.MarkSkipped(old(tx.buf), sn, ts))
    {
      var q := tx.buf;
      ghost var done := [];
      ghost var rest := q;
      var i := 0;
      while i < |q| && Diff(sn, q[i].sn) >= 0
        invariant 0 <= i == |done| <= |q| && q == done + rest
        invariant M.MarkSkipped(tx.buf, sn, ts) == done + M.MarkSkipped(rest, sn, ts)
        modifies {}
      {
        var seg := q[i];
        var marked := if sn != seg.sn && Diff(ts, seg.ts) >= 0 then seg.(fastack := Add(seg.fastack, 1)) else seg;
        MarkStep(done, rest, marked, M.MarkSkipped(rest[1..], sn, ts));
        q := q[i := marked];
        done, rest := done + [marked], rest[1..];
        i := i + 1;
      }
      tx := tx.(buf := q);
    }

    /** The array doubles until there is room for one more pair. */
    method GrowAcks()
      requires Arrays()
      modifies this`acklist, this`ackblock
      ensures Arrays() && ackcount < ackblock && (acklist == old(acklist) || fresh(acklist))
    {
      if ackcount + 1 <= ackblock { return; }
      var newblock := 8;
      while newblock < ackcount + 1
        invariant newblock >= 8
        decreases ackcount + 1 - newblock
      {
        newblock := newblock * 2;
      }
      var grown := new u32[2 * newblock];
      for x := 0 to ackcount
        modifies grown
        invariant grown[..2 * x] == acklist[..2 * x]
      {
        grown[2 * x], grown[2 * x + 1] := acklist[2 * x], acklist[2 * x + 1];
      }
      SamePairs(grown[..], acklist[..], ackcount);
      acklist, ackblock := grown, newblock;
    }

    /** ikcp_ack_push. */
    method AckPush(sn: u32, ts: u32)
      requires Arrays()
      modifies this`acklist, this`ackcount, this`ackblock, this`acks, acklist
      ensures Arrays() && acks == old(acks) + [M.Ack(sn, ts)]
      ensures acklist == old(acklist) || fresh(acklist)
    {
      GrowAcks();
      ghost var before := acklist[..];
      acklist[2 * ackcount], acklist[2 * ackcount + 1] := sn, ts;
      OnePairMore(before, acklist[..], ackcount, M.Ack(sn, ts));
      ackcount := ackcount + 1;
      acks := acks + [M.Ack(sn, ts)];
    }

    /** ikcp_parse_data. */
    method ParseData(newseg: M.Seg)
      modifies this`rx
      ensures rx == M.ParseData(cfg.rcvWnd, old(rx), newseg)
    {
      var sn := newseg.sn;
      if Diff(sn, Add(rx.nxt, cfg.rcvWnd)) >= 0 || Diff(sn, rx.nxt) < 0 { return; }
      var repeated, p := FindPlace(newseg);
      if !repeated {
        rx := rx.(buf := rx.buf[..p] + [newseg] + rx.buf[p..], nbuf := rx.nbuf + 1);
      }
      MoveReady();
    }

    /** Scanning rcv_buf from its end for the place of a segment. */
    method FindPlace(newseg: M.Seg) returns (repeated: bool, p: nat)
      ensures p <= |rx.buf|
      ensures M.InsertBack(rx.buf, newseg) == if repeated then rx.buf else rx.buf[..p] + [newseg] + rx.buf[p..]
    {
      hide M.InsertBack;
      var q := rx.buf;
      ghost var front, back := q, [];
      p, repeated := |q|, false;
      while p > 0
        invariant p == |front| <= |q| && q == front + back
        invariant M.InsertBack(q, newseg) == M.InsertBack(front, newseg) + back
      {
        var seg := q[p - 1];
        assert front[p - 1] == seg && front == front[..p - 1] + [seg];
        ScanEnds(front, newseg);
        if seg.sn == newseg.sn { return true, p; }
        if Diff(newseg.sn, seg.sn) > 0 { break; }
        ScanBack(front[..p - 1], seg, back, newseg);
        front, back := front[..p - 1], [seg] + back;
        p := p - 1;
      }
      ScanEnds(front, newseg);
      assert q[..p] == front && q[p..] == back;
    }

    method ParseUnaAndShrink(una: u32)
      modifies this`tx
      ensures tx == M.Shrink(M.ParseUna(old(tx), una))
    {
      ParseUna(una);
      Shrink();
    }

    method ParseAckAndShrink(sn: u32)
      modifies this`tx
      ensures tx == M.Shrink(M.ParseAck(old(tx), sn))
    {
      ParseAck(sn);
      Shrink();
    }

    /** An acknowledgement: a round-trip sample, then the segment leaves snd_buf. */
    method InputAck(p: Packet)
      modifies this`rtt, this`tx
      ensures View() == old(View()).(rtt := M.Sampled(old(View()), p.ts), tx := M.Shrink(M.ParseAck(old(tx), p.sn)))
    {
      if Diff(clock.current, p.ts) >= 0 {
        UpdateAck(Diff(clock.current, p.ts));
      }
      ParseAckAndShrink(p.sn);
    }

    /** A data segment: acknowledged when it is short of the window's end, stored when it is new. */
    method InputPush(p: Packet)
      requires Arrays()
      modifies this`acklist, this`ackcount, this`ackblock, this`acks, acklist
      modifies this`rx
      ensures Arrays() && (acklist == old(acklist) || fresh(acklist))
      ensures View() == M.InputPush(old(View()), p)
    {
      if Diff(p.sn, Add(rx.nxt, cfg.rcvWnd)) < 0 {
        AckPush(p.sn, p.ts);
        if Diff(p.sn, rx.nxt) >= 0 {
          ParseData(M.SegOf(p));
        }
      }
    }

    /** The body of the ikcp_input loop for one accepted segment, with its three loop variables. */
    method InputSegment(p: Packet, flag: bool, maxack: u32, latestTs: u32)
      returns (flag': bool, maxack': u32, latestTs': u32)
      requires Arrays() && KnownCmd(p.cmd)
      modifies this`tx, this`rx, this`rtt, this`probe, this`rmtWnd, this`acklist, this`ackcount, this`ackblock, this`acks, acklist
      ensures Arrays() && (acklist == old(acklist) || fresh(acklist))
      ensures M.Progress(View(), flag', maxack', latestTs')
           == M.InputPacket(M.Progress(old(View()), flag, maxack, latestTs), p)
    {
      flag', maxack', latestTs' := flag, maxack, latestTs;
      rmtWnd := p.wnd;
      ParseUnaAndShrink(p.una);
      assert View() == M.InputHeader(old(View()), p);
      if p.cmd == CMD_ACK {
        InputAck(p);
        if !flag {
          flag', maxack', latestTs' := true, p.sn, p.ts;
        } else if Diff(p.sn, maxack) > 0 {
          if Diff(p.ts, latestTs) > 0 {
            maxack', latestTs' := p.sn, p.ts;
          }
        }
      } else if p.cmd == CMD_PUSH {
        InputPush(p);
      } else if p.cmd == CMD_WASK {
        probe := probe.(askTell := true);
      }
    }

    /** The checks on a segment header, in order. */
    method CheckHeader(d: Bytes) returns (code: int, len: nat)
      requires |d| >= OVERHEAD
      ensures code == HeaderError(cfg.conv, d) && len == Decode32(d, 20)
      ensures code == 0 ==> OVERHEAD + len <= |d| && KnownCmd(d[4])
    {
      code, len := 0, Decode32(d, 20);
      if Decode32(d, 0) != cfg.conv { return -1, len; }
      if |d| - OVERHEAD < len || len >= H32 { return -2, len; }
      if d[4] != CMD_PUSH && d[4] != CMD_ACK && d[4] != CMD_WASK && d[4] != CMD_WINS { return -3, len; }
    }

    /** The loop of ikcp_input over the segments of a datagram. */
    method InputSegments(data: Bytes) returns (code: int, flag: bool, maxack: u32, latestTs: u32)
      requires Arrays()
      modifies this`tx, this`rx, this`rtt, this`probe, this`rmtWnd, this`acklist, this`ackcount, this`ackblock, this`acks, acklist
      ensures Arrays() && (acklist == old(acklist) || fresh(acklist))
      ensures var parsed := ParseSegments(cfg.conv, data);
              && code == parsed.code
              && M.Progress(View(), flag, maxack, latestTs)
              == M.InputPackets(M.Progress(old(View()), false, 0, 0), parsed.packets)
    {
      hide M.InputPacket, M.InputPackets, AfterSegments, ParseSegments, HeaderError, Decode32, Decode16, AckPairs;
      ghost var t0 := M.Progress(View(), false, 0, 0);
      ghost var done: seq<Packet> := [];
      var rest := data;
      flag, maxack, latestTs := false, 0, 0;
      NoSegment(t0, ParseSegments(cfg.conv, data));
      while |rest| >= OVERHEAD
        invariant Arrays() && (acklist == old(acklist) || fresh(acklist))
        invariant ParseSegments(cfg.conv, data) == AfterSegments(done, ParseSegments(cfg.conv, rest))
        invariant M.Progress(View(), flag, maxack, latestTs) == M.InputPackets(t0, done)
        decreases |rest|
      {
        var len;
        ParseUnfolds(cfg.conv, rest);
        code, len := CheckHeader(rest);
        LastSegment(done, code);
        if code != 0 { return; }
        var p := PacketAt(rest, len);
        NextSegment(t0, done, p, ParseSegments(cfg.conv, rest[OVERHEAD + len..]));
        flag, maxack, latestTs := InputSegment(p, flag, maxack, latestTs);
        done, rest := done + [p], rest[OVERHEAD + len..];
      }
      code := 0;
      ParseUnfolds(cfg.conv, rest);
      LastSegment(done, 0);
    }

    /** ikcp_input on any bytes. */
    method Input(data: Bytes) returns (ret: int)
      requires Valid()
      modifies this, acklist
      ensures Valid() && (acklist == old(acklist) || fresh(acklist)) && buffer == old(buffer) && output == old(output)
      ensures M.Sent(View(), ret) == M.Input(old(View()), data)
    {
      InputKeepsInv(View(), data);
      hide Inv, M.Input;
      ret := InputDatagram(data);
    }

    method InputDatagram(data: Bytes) returns (ret: int)
      requires Arrays()
      modifies this`tx, this`rx, this`rtt, this`cong, this`probe, this`rmtWnd, this`acklist, this`ackcount, this`ackblock, this`acks, acklist
      ensures Arrays() && (acklist == old(acklist) || fresh(acklist))
      ensures M.Sent(View(), ret) == M.Input(old(View()), data)
    {
      hide M.FinishInput, M.InputPackets, ParseSegments, AckPairs;
      NoSegment(M.Progress(View(), false, 0, 0), Parsed([], -1));
      if |data| < OVERHEAD { return -1; }
      var prevUna := tx.una;
      var flag, maxack, latestTs;
      ret, flag, maxack, latestTs := InputSegments(data);
      if ret == 0 {
        FinishInput(flag, maxack, latestTs, prevUna);
      }
    }

    method FinishInput(flag: bool, maxack: u32, latestTs: u32, prevUna: u32)
      modifies this`tx, this`cong
      ensures View() == M.FinishInput(M.Progress(old(View()), flag, maxack, latestTs), prevUna)
    {
      if flag {
        ParseFastack(maxack, latestTs);
      }
      if Diff(tx.una, prevUna) > 0 {
        GrowWindow();
      }
    }

    /** Slow start, congestion avoidance, and the cap at the remote window. */
    method GrowWindow()
      modifies this`cong
      ensures cong == M.Grow(old(cong), cfg.mss, rmtWnd)
    {
      var mss := cfg.mss;
      if cong.cwnd < rmtWnd {
        if cong.cwnd < cong.ssthresh {
          cong := cong.(cwnd := Add(cong.cwnd, 1), incr := Add(cong.incr, mss));
        } else {
          var incr := if cong.incr < mss then mss else cong.incr;
          incr := Add(incr, Add(Div(Mul(mss, mss), incr), mss / 16));
          cong := cong.(incr := incr);
          if Mul(Add(cong.cwnd, 1), mss) <= incr {
            cong := cong.(cwnd := Div(Sub(Add(incr, mss), 1), mss));
          }
        }
        if cong.cwnd > rmtWnd {
          cong := cong.(cwnd := rmtWnd, incr := Mul(rmtWnd, mss));
        }
      }
    }

    // ---- flushing ------------------------------------------------------------------

    /** What has been sent and gathered: the output so far, and the first ptr bytes of the buffer. */
    ghost function Gathered(ptr: nat): M.Out
      requires ptr <= buffer.Length
      reads this`output, this`buffer, buffer
    {
      M.Out(output, buffer[..ptr])
    }

    ghost predicate Room(ptr: nat)
      reads this`cfg, this`buffer, buffer
    {
      buffer.Length == (cfg.mtu + OVERHEAD) * 3 && ptr <= cfg.mtu && 50 <= cfg.mtu < H32
    }

    /** ikcp_output: an empty buffer is not sent. */
    method Output(size: nat)
      requires size <= buffer.Length
      modifies this`output
      ensures output == M.Hand(old(Gathered(size)))
    {
      if size > 0 {
        output := output + [buffer[..size]];
      }
    }

    /** One segment into the buffer, sending what is there first when the mtu would be exceeded. */
    method Emit(ptr: nat, p: Packet) returns (end: nat)
      requires Room(ptr) && OVERHEAD + |p.data| <= cfg.mtu
      modifies this`output, buffer
      ensures Room(end) && Gathered(end) == M.Emit(cfg.mtu, old(Gathered(ptr)), p)
    {
      var at := ptr;
      if ptr + OVERHEAD + |p.data| > cfg.mtu {
        Output(ptr);
        at := 0;
      }
      PutPacket(buffer, at, p);
      end := at + OVERHEAD + |p.data|;
    }

    /** Pending acknowledgements; the last one's number and timestamp stay in the header. */
    method FlushAcks(h: M.Header) returns (ptr: nat, last: M.Ack)
      requires Arrays() && Room(0)
      modifies this`output, buffer
      ensures Room(ptr) && last == M.LastAck(acks)
      ensures Gathered(ptr) == M.EmitAll(cfg.mtu, M.Out(old(output), []), M.AckPackets(h, acks))
    {
      hide M.Emit;
      ptr, last := 0, M.Ack(0, 0);
      assert buffer[..0] == [] && acks[..0] == [];
      var i := 0;
      while i < ackcount
        invariant 0 <= i <= ackcount == |acks| && Room(ptr) && Arrays()
        invariant last == M.LastAck(acks[..i])
        invariant Gathered(ptr) == M.EmitAll(cfg.mtu, M.Out(old(output), []), M.AckPackets(h, acks[..i]))
      {
        last := M.Ack(acklist[2 * i], acklist[2 * i + 1]);
        ptr := Emit(ptr, M.Control(h, CMD_ACK, last));
        assert acks[i] == last && acks[..i + 1][..i] == acks[..i];
        assert M.AckPackets(h, acks[..i + 1]) == M.AckPackets(h, acks[..i]) + [M.Control(h, CMD_ACK, last)];
        EmitAllAppend(cfg.mtu, M.Out(old(output), []), M.AckPackets(h, acks[..i]), M.Control(h, CMD_ACK, last));
        i := i + 1;
      }
      assert acks[..ackcount] == acks;
    }

    method ForgetAcks()
      requires Arrays()
      modifies this`acks, this`ackcount
      ensures Arrays() && acks == []
    {
      ackcount, acks := 0, [];
    }

    /** The probe timer. */
    method ProbeWindow()
      modifies this`probe
      ensures probe == M.ProbeTimer(old(probe), clock.current, rmtWnd)
    {
      if rmtWnd == 0 {
        if probe.wait == 0 {
          probe := probe.(wait := M.PROBE_INIT, ts := Add(clock.current, M.PROBE_INIT));
        } else if Diff(clock.current, probe.ts) >= 0 {
          var wait := if probe.wait < M.PROBE_INIT then M.PROBE_INIT else probe.wait;
          wait := Add(wait, wait / 2);
          if wait > M.PROBE_LIMIT { wait := M.PROBE_LIMIT; }
          probe := probe.(wait := wait, ts := Add(clock.current, wait), askSend := true);
        }
      } else {
        probe := probe.(ts := 0, wait := 0);
      }
    }

    /** The window probes that are due. */
    method FlushProbes(h: M.Header, ptr: nat, last: M.Ack) returns (end: nat)
      requires Room(ptr)
      modifies this`output, buffer
      ensures Room(end)
      ensures Gathered(end) == M.EmitAll(cfg.mtu, old(Gathered(ptr)), M.ProbePackets(h, probe, last))
    {
      end := ptr;
      var ask, tell := M.Control(h, CMD_WASK, last), M.Control(h, CMD_WINS, last);
      ProbeStep(cfg.mtu, Gathered(ptr), ask, tell, probe);
      if probe.askSend {
        end := Emit(end, ask);
      }
      if probe.askTell {
        end := Emit(end, tell);
      }
    }

    /** The loop that moves data from snd_queue to snd_buf while the window allows. */
    method Admit(limit: u32, c: M.Pass)
      modifies this`tx
      ensures tx == M.Admit(c, old(tx), limit)
    {
      while Diff(tx.nxt, Add(tx.una, limit)) < 0
        invariant M.Admit(c, tx, limit) == M.Admit(c, old(tx), limit)
        decreases |tx.queue|
      {
        if |tx.queue| == 0 { break; }
        var newseg := M.Seg(c.conv, CMD_PUSH, tx.queue[0].frg, c.wnd, c.current, tx.nxt, c.una, c.current, c.rto, 0, 0,
                            tx.queue[0].data);
        tx := M.Tx(tx.una, Add(tx.nxt, 1), tx.queue[1..], tx.buf + [newseg], tx.nque - 1, tx.nbuf + 1);
      }
    }

    /** One segment of snd_buf in the transmission pass: new, overdue, skipped often enough, or left alone. */
    method Visit(i: nat, c: M.Pass, ptr: nat) returns (end: nat, lost: bool, change: bool)
      requires i < |tx.buf| && Room(ptr) && OVERHEAD + |tx.buf[i].data| <= cfg.mtu
      modifies this`tx, this`xmit, this`state, this`output, buffer
      ensures var (g, v) := (old(tx.buf[i]), M.Judge(c, old(tx.buf[i])));
              && tx == old(tx).(buf := old(tx.buf)[i := M.Touch(c, g)])
              && lost == (v == M.Timeout) && change == (v == M.Fast)
              && xmit == (if lost then Add(old(xmit), 1) else old(xmit))
              && state == (if v != M.Hold && M.Touch(c, g).xmit >= c.deadLink then M.STATE_DEAD else old(state))
              && Room(end)
              && Gathered(end) == (if v == M.Hold then old(Gathered(ptr))
                                   else M.Emit(cfg.mtu, old(Gathered(ptr)), M.PacketOf(M.Touch(c, g))))
    {
      end, lost, change := ptr, false, false;
      var segment := tx.buf[i];
      var needsend := false;
      if segment.xmit == 0 {
        needsend := true;
        segment := segment.(xmit := Add(segment.xmit, 1), rto := c.rto, resendts := Add(Add(c.current, c.rto), c.rtomin));
      } else if Diff(c.current, segment.resendts) >= 0 {
        needsend, lost := true, true;
        xmit := Add(xmit, 1);
        var rto := M.BackedOff(c, segment.rto);
        segment := segment.(xmit := Add(segment.xmit, 1), rto := rto, resendts := Add(c.current, rto));
      } else if segment.fastack >= c.resent {
        if I32(segment.xmit) <= c.fastlimit || c.fastlimit <= 0 {
          needsend, change := true, true;
          segment := segment.(xmit := Add(segment.xmit, 1), fastack := 0, resendts := Add(c.current, segment.rto));
        }
      }
      if needsend {
        segment := segment.(ts := c.current, wnd := c.wnd, una := c.una);
        end := Emit(ptr, M.PacketOf(segment));
        if segment.xmit >= c.deadLink { state := M.STATE_DEAD; }
      }
      tx := tx.(buf := tx.buf[i := segment]);
    }
  
    /** The transmission pass over snd_buf. */
    method FlushData(c: M.Pass, ptr: nat) returns (end: nat, lost: bool, change: bool)
      requires Room(ptr) && FitMtu(cfg.mtu, tx.buf)
      modifies this`tx, this`xmit, this`state, this`output, buffer
      ensures var q := old(tx.buf);
              && tx == old(tx).(buf := M.TouchAll(c, q))
              && lost == (M.CountOf(c, q, M.Timeout) > 0) && change == (M.CountOf(c, q, M.Fast) > 0)
              && xmit == M.XmitAfter(c, q, old(xmit))
              && state == (if M.Dead(c, q) then M.STATE_DEAD else old(state))
              && Room(end) && Gathered(end) == M.EmitAll(cfg.mtu, old(Gathered(ptr)), M.DuePackets(c, q))
    {
      hide M.Touch, M.Judge, M.Emit, M.PacketOf;
      ghost var q, mtu := tx.buf, cfg.mtu;
      ghost var start := Scan([], xmit, state, false, false, Gathered(ptr));
      ghost var done, rest := start, q;
      end, lost, change := ptr, false, false;
      assert q[..0] == [];
      for i := 0 to |tx.buf|
        invariant done == ScanAll(mtu, c, start, q[..i]) && rest == q[i..] && |done.touched| == i
        invariant tx == old(tx).(buf := done.touched + rest)
        invariant Room(end) && Scan(done.touched, xmit, state, lost, change, Gathered(end)) == done
      {
        ScanStep(mtu, c, start, q, i, done, rest);
        done, rest := ScanOne(mtu, c, done, rest[0]), rest[1..];
        var l, f;
        end, l, f := Visit(i, c, end);
        lost, change := lost || l, change || f;
      }
      assert q[..|q|] == q && done.touched + [] == done.touched;
      ScanAllFolds(mtu, c, start, q);
    }

    /** ikcp_update. */
    method Update(now: u32)
      requires Valid()
      modifies this`clock, this`acks, this`ackcount, this`probe, this`tx, this`xmit, this`state, this`cong, this`output, buffer
      ensures Valid()
      ensures View() == M.Update(old(View()), now).cb
      ensures output == old(output) + M.Update(old(View()), now).datagrams
    {
      hide M.Flush, M.Tick;
      UpdateKeepsInv(View(), now);
      var due := AdvanceClock(now);
      if due {
        Flush();
      } else {
        assert output == output + [];
      }
    }

    /** The clock part of ikcp_update. */
    method AdvanceClock(now: u32) returns (due: bool)
      modifies this`clock
      ensures M.Ticked(clock, due) == M.Tick(old(clock), cfg.interval, now)
    {
      var tsFlush := if clock.updated then clock.tsFlush else now;
      var slap := Diff(now, tsFlush);
      if slap >= 10000 || slap < -10000 {
        tsFlush := now;
        slap := 0;
      }
      due := slap >= 0;
      if due {
        tsFlush := Add(tsFlush, cfg.interval);
        if Diff(now, tsFlush) >= 0 {
          tsFlush := Add(now, cfg.interval);
        }
      }
      clock := M.Clock(now, tsFlush, true);
    }

    /** ikcp_check. */
    method Check(now: u32) returns (next: u32)
      ensures next == M.Check(View(), now)
    {
      var tsFlush := clock.tsFlush;
      if !clock.updated { return now; }
      if Diff(now, tsFlush) >= 10000 || Diff(now, tsFlush) < -10000 { tsFlush := now; }
      if Diff(now, tsFlush) >= 0 { return now; }
      var packet: i32 := 0x7fff_ffff;
      assert tx.buf[..0] == [];
      for i := 0 to |tx.buf|
        invariant packet == M.PacketWait(tx.buf[..i], now) > 0
      {
        var diff := Diff(tx.buf[i].resendts, now);
        assert tx.buf[..i + 1][..i] == tx.buf[..i];
        if diff <= 0 {
          OverdueStays(tx.buf, i + 1, now);
          return now;
        }
        if diff < packet { packet := diff; }
      }
      assert tx.buf[..|tx.buf|] == tx.buf;
      var flush := Diff(tsFlush, now);
      var minimal := if packet < flush then packet else flush;
      if minimal >= cfg.interval { minimal := cfg.interval; }
      return Add(now, minimal);
    }

    /** ikcp_flush. */
    method Flush()
      requires Valid()
      modifies this`acks, this`ackcount, this`probe, this`tx, this`xmit, this`state, this`cong, this`output, buffer
      ensures Valid()
      ensures View() == M.Flush(old(View())).cb
      ensures output == old(output) + M.Flush(old(View())).datagrams
    {
      hide M.FlushState, FlushOut, M.FlushPackets, M.Batch, M.Hand, M.Admitted;
      FlushKeepsInv(View());
      AdmittedFit(View());
      if clock.updated {
        FlushOrder(View(), output);
        FlushAll();
      } else {
        assert output == output + [];
      }
    }

    method FlushAll()
      requires Arrays() && Room(0) && FitMtu(cfg.mtu, M.Admitted(View()).buf)
      modifies this`acks, this`ackcount, this`probe, this`tx, this`xmit, this`state, this`cong, this`output, buffer
      ensures Arrays() && View() == M.FlushState(old(View()))
      ensures output == M.Hand(FlushOut(old(View()), old(output)))
    {
      hide M.Hand, M.Admit, M.TouchAll, M.Congest, M.DuePackets, M.SendPass, M.EmitAll, M.ProbePackets, M.AckPackets, FitMtu;
      ghost var s := View();
      var c, limit := StartPass();
      var ptr := FlushControl(M.Header(c.conv, c.wnd, c.una));
      assert Gathered(ptr) == AfterControl(s.cfg.mtu, old(output), M.HeaderOf(s), s.acklist, M.FlushProbe(s));
      FlushSegments(c, limit, ptr);
      assert View() == M.FlushState(s);
    }

    /** What this flush stamps on segments, and how many may be in flight. */
    method StartPass() returns (c: M.Pass, limit: u32)
      ensures c == M.PassOf(View()) && limit == M.SendLimit(View())
    {
      var wnd := if 0 <= rx.nque < cfg.rcvWnd then cfg.rcvWnd - rx.nque else 0;
      var resent := if cfg.fastresend > 0 then cfg.fastresend else 0xffff_ffff;
      var rtomin := if cfg.nodelay == 0 then rtt.rto / 8 else 0;
      c := M.Pass(cfg.conv, clock.current, rtt.rto, rtomin, resent, cfg.nodelay, cfg.fastlimit, wnd, rx.nxt, cfg.deadLink);
      limit := Min(cfg.sndWnd, rmtWnd);
      if !cfg.nocwnd { limit := Min(cong.cwnd, limit); }
    }

    /** Acknowledgements and probes. */
    method FlushControl(h: M.Header) returns (ptr: nat)
      requires Arrays() && Room(0)
      modifies this`acks, this`ackcount, this`probe, this`output, buffer
      ensures Arrays() && Room(ptr) && acks == []
      ensures var b := M.ProbeTimer(old(probe), clock.current, rmtWnd);
              && probe == b.(askSend := false, askTell := false)
              && Gathered(ptr) == AfterControl(cfg.mtu, old(output), h, old(acks), b)
    {
      var last;
      ptr, last := FlushAcks(h);
      ghost var afterAcks := Gathered(ptr);
      ForgetAcks();
      ProbeWindow();
      assert Gathered(ptr) == afterAcks;
      ptr := FlushProbes(h, ptr, last);
      ghost var afterProbes := Gathered(ptr);
      probe := probe.(askSend := false, askTell := false);
      assert Gathered(ptr) == afterProbes;
    }

    /** New and due segments, the rest of the output, and the congestion window. */
    method FlushSegments(c: M.Pass, limit: u32, ptr: nat)
      requires Room(ptr) && FitMtu(cfg.mtu, M.Admit(c, tx, limit).buf)
      modifies this`tx, this`xmit, this`state, this`cong, this`output, buffer
      ensures M.Sending(tx, xmit, state, cong)
           == M.SendPass(c, limit, cfg.mss, old(M.Sending(tx, xmit, state, cong)))
      ensures output == M.Hand(M.EmitAll(cfg.mtu, old(Gathered(ptr)), M.DuePackets(c, M.Admit(c, old(tx), limit).buf)))
    {
      hide M.EmitAll, M.Hand, M.Congest, M.Admit, M.TouchAll, M.Dead, M.XmitAfter, M.CountOf, M.DuePackets;
      Admit(limit, c);
      var end, lost, change := FlushData(c, ptr);
      Output(end);
      UpdateWindow(change, lost, limit, c.resent);
    }

    /** The congestion update that closes a flush. */
    method UpdateWindow(change: bool, lost: bool, limit: u32, resent: u32)
      modifies this`cong
      ensures cong == M.Congest(old(cong), Sub(tx.nxt, tx.una), cfg.mss, change, lost, limit, resent)
    {
      if change {
        var inflight := Sub(tx.nxt, tx.una);
        var thresh := if inflight / 2 < M.THRESH_MIN then M.THRESH_MIN else inflight / 2;
        cong := M.Cong(Add(thresh, resent), thresh, Mul(Add(thresh, resent), cfg.mss));
      }
      if lost {
        var thresh := if limit / 2 < M.THRESH_MIN then M.THRESH_MIN else limit / 2;
        cong := M.Cong(1, thresh, cfg.mss);
      }
      if cong.cwnd < 1 {
        cong := cong.(cwnd := 1, incr := cfg.mss);
      }
    }
  }

  /** What the transmission pass has done so far. */
  datatype Scan = Scan(touched: seq<M.Seg>, xmit: u32, state: u32, lost: bool, change: bool, out: M.Out)

  ghost function ScanOne(mtu: u32, c: M.Pass, b: Scan, g: M.Seg): Scan {
    var v, t := M.Judge(c, g), M.Touch(c, g);
    Scan(b.touched + [t], if v == M.Timeout then Add(b.xmit, 1) else b.xmit,
         if v != M.Hold && t.xmit >= c.deadLink then M.STATE_DEAD else b.state,
         b.lost || v == M.Timeout, b.change || v == M.Fast,
         if v == M.Hold then b.out else M.Emit(mtu, b.out, M.PacketOf(t)))
  }

  ghost function ScanAll(mtu: u32, c: M.Pass, b: Scan, q: seq<M.Seg>): Scan {
    if q == [] then b else ScanOne(mtu, c, ScanAll(mtu, c, b, q[..|q| - 1]), q[|q| - 1])
  }

  lemma ScanStep(mtu: u32, c: M.Pass, start: Scan, q: seq<M.Seg>, i: nat, done: Scan, rest: seq<M.Seg>)
    requires i < |q| && rest == q[i..] && |done.touched| == i && done == ScanAll(mtu, c, start, q[..i])
    ensures var (t, all) := (ScanOne(mtu, c, done, rest[0]), done.touched + rest);
            && t == ScanAll(mtu, c, start, q[..i + 1]) && |t.touched| == i + 1
            && rest[1..] == q[i + 1..] && all[i] == rest[0] && all[i := M.Touch(c, rest[0])] == t.touched + rest[1..]
  {
    hide M.Touch, M.Judge, M.Emit, M.PacketOf;
    MarkStep(done.touched, rest, M.Touch(c, rest[0]), []);
    assert q[..i + 1][..i] == q[..i];
  }

  /** The single pass computes each of the folds of the model. */
  lemma {:induction false} ScanAllFolds(mtu: u32, c: M.Pass, b: Scan, q: seq<M.Seg>)
    requires b.touched == [] && !b.lost && !b.change
    ensures ScanAll(mtu, c, b, q)
         == Scan(M.TouchAll(c, q), M.XmitAfter(c, q, b.xmit), if M.Dead(c, q) then M.STATE_DEAD else b.state,
                 M.CountOf(c, q, M.Timeout) > 0, M.CountOf(c, q, M.Fast) > 0,
                 M.EmitAll(mtu, b.out, M.DuePackets(c, q)))
  {
    if q != [] {
      var front, g := q[..|q| - 1], q[|q| - 1];
      ScanAllFolds(mtu, c, b, front);
      if M.Judge(c, g) == M.Hold {
        assert M.DuePackets(c, front) + [] == M.DuePackets(c, front);
      } else {
        EmitAllAppend(mtu, b.out, M.DuePackets(c, front), M.PacketOf(M.Touch(c, g)));
      }
    }
  }

  /** The output once the control segments of a flush have been gathered. */
  ghost function AfterControl(mtu: u32, output: seq<Bytes>, h: M.Header, acks: seq<M.Ack>, b: M.Probe): M.Out {
    M.EmitAll(mtu, M.EmitAll(mtu, M.Out(output, []), M.AckPackets(h, acks)), M.ProbePackets(h, b, M.LastAck(acks)))
  }

  lemma {:induction false} EmitAllConcat(mtu: u32, o: M.Out, x: seq<Packet>, y: seq<Packet>)
    ensures M.EmitAll(mtu, o, x + y) == M.EmitAll(mtu, M.EmitAll(mtu, o, x), y)
  {
    if y == [] {
      assert x + y == x;
    } else {
      assert (x + y)[..|x + y| - 1] == x + y[..|y| - 1];
      EmitAllConcat(mtu, o, x, y[..|y| - 1]);
    }
  }

  lemma {:induction false} EmitAllAfter(mtu: u32, done: seq<Bytes>, ps: seq<Packet>)
    ensures var o := M.EmitAll(mtu, M.Out([], []), ps);
            M.EmitAll(mtu, M.Out(done, []), ps) == M.Out(done + o.done, o.buf)
  {
    if ps == [] {
      assert done + [] == done;
    } else {
      EmitAllAfter(mtu, done, ps[..|ps| - 1]);
      var o := M.EmitAll(mtu, M.Out([], []), ps[..|ps| - 1]);
      assert done + o.done + [o.buf] == done + (o.done + [o.buf]);
    }
  }

  /** The output of a whole flush, part by part. */
  ghost function FlushOut(s: M.Cb, output: seq<Bytes>): M.Out {
    M.EmitAll(s.cfg.mtu, AfterControl(s.cfg.mtu, output, M.HeaderOf(s), s.acklist, M.FlushProbe(s)),
              M.DuePackets(M.PassOf(s), M.Admitted(s).buf))
  }

  /** Gathering the parts of a flush one after the other is batching them all. */
  lemma FlushOrder(s: M.Cb, output: seq<Bytes>)
    ensures M.Hand(FlushOut(s, output)) == output + M.Batch(s.cfg.mtu, M.FlushPackets(s))
  {
    var mtu, o := s.cfg.mtu, M.Out(output, []);
    var h := M.HeaderOf(s);
    var acks, probes := M.AckPackets(h, s.acklist), M.ProbePackets(h, M.FlushProbe(s), M.LastAck(s.acklist));
    EmitAllConcat(mtu, o, acks, probes);
    EmitAllConcat(mtu, o, acks + probes, M.DuePackets(M.PassOf(s), M.Admitted(s).buf));
    EmitAllAfter(mtu, output, M.FlushPackets(s));
    var e := M.EmitAll(mtu, M.Out([], []), M.FlushPackets(s));
    assert output + e.done + [e.buf] == output + (e.done + [e.buf]);
  }

  /** The probes, one after the other. */
  lemma ProbeStep(mtu: u32, o: M.Out, ask: Packet, tell: Packet, b: M.Probe)
    ensures var o1 := if b.askSend then M.Emit(mtu, o, ask) else o;
            M.EmitAll(mtu, o, (if b.askSend then [ask] else []) + (if b.askTell then [tell] else []))
            == if b.askTell then M.Emit(mtu, o1, tell) else o1
  {
    EmitAllAppend(mtu, o, [], ask);
    EmitAllAppend(mtu, o, if b.askSend then [ask] else [], tell);
    assert (if b.askSend then [ask] else []) + [] == if b.askSend then [ask] else [];
  }

  /** Once a segment is overdue, the rest of the queue does not matter. */
  lemma {:induction false} OverdueStays(q: seq<M.Seg>, i: nat, now: u32)
    requires i <= |q| && M.PacketWait(q[..i], now) <= 0
    ensures M.PacketWait(q, now) == 0 || (i == |q| && M.PacketWait(q, now) <= 0)
    decreases |q| - i
  {
    if i < |q| {
      assert q[..i + 1][..i] == q[..i];
      OverdueStays(q, i + 1, now);
    } else {
      assert q[..i] == q;
    }
  }

  lemma EmitAllAppend(mtu: u32, o: M.Out, ps: seq<Packet>, p: Packet)
    ensures M.EmitAll(mtu, o, ps + [p]) == M.Emit(mtu, M.EmitAll(mtu, o, ps), p)
    ensures M.EmitAll(mtu, o, []) == o && [] + [p] == [p]
  {
    assert (ps + [p])[..|ps|] == ps;
  }
}
