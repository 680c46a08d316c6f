/** The invariant of one KCP endpoint, exact modulo 2^32, and its preservation by every
    operation: in particular by ikcp_input on an arbitrary byte string. */
module KcpInvariant {
  import opened Serial
  import opened Wire
  import opened KcpModel

  /** Sequence numbers strictly ascending, counted from `base`, all less than `limit` ahead of it. */
  ghost predicate Ascending(base: u32, limit: int, q: seq<Seg>) {
    && (forall i :: 0 <= i < |q| ==> Sub(q[i].sn, base) < limit)
    && (forall i, j :: 0 <= i < j < |q| ==> Sub(q[i].sn, base) < Sub(q[j].sn, base))
  }

  ghost predicate CfgOk(c: Cfg) {
    50 <= c.mtu < H32 && c.mss == c.mtu - OVERHEAD && 128 <= c.rcvWnd < H32 && 10 <= c.interval <= 5000
  }

  /** A queued segment has at most mss bytes and fewer than 128 fragments follow it. */
  ghost predicate SendQueueOk(mss: u32, q: seq<Seg>) {
    forall i :: 0 <= i < |q| ==> |q[i].data| <= mss && q[i].frg < 128
  }

  ghost predicate SendBufOk(c: Cfg, q: seq<Seg>) {
    forall i :: 0 <= i < |q| ==> |q[i].data| <= c.mss && q[i].frg < 128 && q[i].conv == c.conv && q[i].cmd == CMD_PUSH
  }

  /** snd_buf lies within [snd_una, snd_nxt), which never spans more than 65535 numbers. */
  ghost predicate TxWindow(c: Cfg, x: Tx) {
    && Sub(x.nxt, x.una) <= 0xffff && Ascending(x.una, Sub(x.nxt, x.una), x.buf)
    && x.nque == |x.queue| && x.nbuf == |x.buf|
    && SendQueueOk(c.mss, x.queue) && SendBufOk(c, x.buf)
  }

  /** snd_una is the number at the head of snd_buf, or snd_nxt when nothing is outstanding. */
  ghost predicate TxOk(c: Cfg, x: Tx) {
    TxWindow(c, x) && x.una == (if x.buf == [] then x.nxt else x.buf[0].sn)
  }

  /** The receive queue holds the numbers just below rcv_nxt, in order. */
  ghost predicate Consecutive(nxt: u32, q: seq<Seg>) {
    forall i :: 0 <= i < |q| ==> q[i].sn == U32(nxt - |q| + i)
  }

  ghost predicate RecvSegsOk(q: seq<Seg>) {
    forall i :: 0 <= i < |q| ==> |q[i].data| < H32 && q[i].frg < 0x100
  }

  ghost predicate RxWindow(wnd: u32, r: Rx) {
    && |r.queue| <= wnd < H32 && Consecutive(r.nxt, r.queue) && Ascending(r.nxt, wnd, r.buf)
    && r.nque == |r.queue| && r.nbuf == |r.buf|
    && RecvSegsOk(r.queue) && RecvSegsOk(r.buf)
  }

  /** A segment ready to move waits in rcv_buf only when the receive queue is full. */
  ghost predicate RxOk(wnd: u32, r: Rx) {
    RxWindow(wnd, r) && (r.buf != [] && r.buf[0].sn == r.nxt ==> |r.queue| == wnd)
  }

  /** The endpoint invariant. */
  ghost predicate Inv(s: Cb) {
    CfgOk(s.cfg) && s.rmtWnd <= 0xffff && TxOk(s.cfg, s.tx) && RxOk(s.cfg.rcvWnd, s.rx)
  }

  // ---- creation --------------------------------------------------------------------

  /** Configurations the setters can produce are exactly the ones the invariant asks for. */
  lemma SettersKeepCfg(conv: u32, c: Cfg, mtu: i32, nodelay: i32, interval: i32, resend: i32, nc: i32, snd: i32, rcv: i32)
    requires CfgOk(c)
    ensures CfgOk(DefaultCfg(conv)) && CfgOk(ClientCfg(conv))
    ensures CfgOk(SetMtu(c, mtu)) && CfgOk(SetWindow(c, snd, rcv))
    ensures CfgOk(SetNodelay(c, nodelay, interval, resend, nc))
  {
  }

  lemma CreateInv(c: Cfg)
    requires CfgOk(c)
    ensures Inv(Create(c))
  {
  }

  // ---- receiving -------------------------------------------------------------------

  lemma ShiftModulus(a: int, d: int)
    ensures U32(U32(a) + d) == U32(a + d)
  {
    var q := a / M32;
    assert a + d == U32(a) + d + q * M32;
    ModPlusMultiple(U32(a) + d, q);
  }

  lemma ModPlusMultiple(x: int, q: int)
    ensures (x + q * M32) % M32 == x % M32
  {
    assert x + q * M32 == (x / M32 + q) * M32 + x % M32;
  }

  lemma MoveOneKeeps(wnd: u32, r: Rx)
    requires RxWindow(wnd, r) && CanMove(wnd, r)
    ensures RxWindow(wnd, MoveOne(r))
  {
    var y := MoveOne(r);
    AddSubAreModular(r.nxt, 1);
    forall i | 0 <= i < |y.queue|
      ensures y.queue[i].sn == U32(y.nxt - |y.queue| + i)
    {
      ShiftModulus(r.nxt + 1, i - |y.queue|);
    }
    forall i | 0 <= i < |y.buf|
      ensures Sub(y.buf[i].sn, y.nxt) == Sub(r.buf[i + 1].sn, r.nxt) - 1
    {
      assert Sub(r.buf[0].sn, r.nxt) < Sub(r.buf[i + 1].sn, r.nxt);
    }
  }

  lemma {:induction false} MoveReadyKeeps(wnd: u32, r: Rx)
    requires RxWindow(wnd, r)
    ensures RxOk(wnd, MoveReady(wnd, r))
    decreases |r.buf|
  {
    if CanMove(wnd, r) {
      MoveOneKeeps(wnd, r);
      MoveReadyKeeps(wnd, MoveOne(r));
    }
  }

  lemma TakeKeeps(wnd: u32, r: Rx, len: int, n: nat)
    requires RxWindow(wnd, r) && n <= |r.queue|
    ensures RxWindow(wnd, Take(r, len, n))
  {
    var t := Take(r, len, n);
    if len >= 0 {
      assert forall i :: 0 <= i < |t.queue| ==> t.queue[i] == r.queue[n + i];
    }
  }

  lemma RecvKeepsInv(s: Cb, len: int)
    requires Inv(s)
    ensures Inv(Recv(s, len).cb)
  {
    var n := HeadCount(s.rx.queue);
    TakeKeeps(s.cfg.rcvWnd, s.rx, len, n);
    MoveReadyKeeps(s.cfg.rcvWnd, Take(s.rx, len, n));
  }

  // ---- sending ---------------------------------------------------------------------

  lemma {:induction false} ChopShape(data: Bytes, mss: u32, stream: bool, count: u32)
    requires count <= 128
    ensures |Chop(data, mss, stream, count)| == count && SendQueueOk(mss, Chop(data, mss, stream, count))
    decreases count
  {
    if count > 0 {
      ChopShape(data[Min(|data|, mss)..], mss, stream, count - 1);
    }
  }

  lemma AppendTailKeeps(c: Cfg, q: seq<Seg>, data: Bytes)
    requires SendQueueOk(c.mss, q) && |data| <= Extend(c, q, |data|)
    ensures SendQueueOk(c.mss, AppendTail(c, q, data)) && |AppendTail(c, q, data)| == |q|
  {
  }

  lemma FragmentsKeep(mss: u32, q: seq<Seg>, data: Bytes, stream: bool, count: u32)
    requires SendQueueOk(mss, q) && count <= 128
    ensures var r := q + Chop(data, mss, stream, count); SendQueueOk(mss, r) && |r| == |q| + count
  {
    ChopShape(data, mss, stream, count);
  }

  lemma SendKeepsInv(s: Cb, buffer: Bytes, len: int)
    requires Inv(s) && len <= |buffer|
    ensures Inv(Send(s, buffer, len).cb)
  {
    if len >= 0 {
      var c := s.cfg;
      var ext := Extend(c, s.tx.queue, len);
      var count := SegCount(len - ext, c.mss);
      AppendTailKeeps(c, s.tx.queue, buffer[..ext]);
      if count < WND_RCV {
        FragmentsKeep(c.mss, AppendTail(c, s.tx.queue, buffer[..ext]), buffer[ext..len], c.stream, count);
      }
    }
  }

  // ---- input -----------------------------------------------------------------------

  lemma AscendingWithout(base: u32, limit: int, q: seq<Seg>, i: nat)
    requires Ascending(base, limit, q) && i < |q|
    ensures Ascending(base, limit, q[..i] + q[i + 1..])
  {
    var r := q[..i] + q[i + 1..];
    forall k | 0 <= k < |r|
      ensures r[k] == if k < i then q[k] else q[k + 1]
    {
    }
  }

  lemma {:induction false} DropBelowSuffix(q: seq<Seg>, una: u32)
    ensures |DropBelow(q, una)| <= |q| && DropBelow(q, una) == q[|q| - |DropBelow(q, una)|..]
    ensures forall i :: 0 <= i < |q| - |DropBelow(q, una)| ==> Diff(una, q[i].sn) > 0
  {
    if q != [] && Diff(una, q[0].sn) > 0 {
      DropBelowSuffix(q[1..], una);
      var k := |q[1..]| - |DropBelow(q[1..], una)|;
      forall i | 0 <= i < k + 1
        ensures Diff(una, q[i].sn) > 0
      {
        assert i > 0 ==> q[i] == q[1..][i - 1];
      }
    }
  }

  /** For a cumulative acknowledgement inside the window, exactly the segments below it are dropped. */
  lemma {:induction false} DropBelowExact(base: u32, q: seq<Seg>, una: u32)
    requires Ascending(base, 0x10000, q) && Sub(una, base) <= 0x10000
    ensures forall g :: g in DropBelow(q, una) <==> g in q && Sub(g.sn, base) >= Sub(una, base)
  {
    if q != [] {
      assert forall g :: g in q <==> g == q[0] || g in q[1..];
      if Diff(una, q[0].sn) > 0 {
        DropBelowExact(base, q[1..], una);
      } else {
        forall g | g in q
          ensures Sub(g.sn, base) >= Sub(una, base)
        {
          var j :| 0 <= j < |q| && q[j] == g;
          assert j > 0 ==> Sub(q[0].sn, base) < Sub(q[j].sn, base);
        }
      }
    }
  }

  /** The scan of ikcp_parse_ack removes at most one segment, at index i, and that one is numbered sn. */
  lemma {:induction false} DropAckedCut(q: seq<Seg>, sn: u32) returns (i: nat)
    ensures i <= |q|
    ensures i == |q| ==> DropAcked(q, sn) == q
    ensures i < |q| ==> q[i].sn == sn && DropAcked(q, sn) == q[..i] + q[i + 1..]
  {
    if q == [] {
      i := 0;
    } else if sn == q[0].sn {
      i := 0;
    } else if Diff(sn, q[0].sn) < 0 {
      i := |q|;
    } else {
      var k := DropAckedCut(q[1..], sn);
      i := k + 1;
      if k < |q[1..]| {
        CutAfterFirst(q, k);
      } else {
        assert [q[0]] + q[1..] == q;
      }
    }
  }

  lemma CutAfterFirst(q: seq<Seg>, k: nat)
    requires k + 1 < |q|
    ensures [q[0]] + (q[1..][..k] + q[1..][k + 1..]) == q[..k + 1] + q[k + 2..]
  {
  }

  /** In an ordered window the early exit of the scan misses nothing: exactly sn is removed. */
  lemma {:induction false} DropAckedExact(base: u32, q: seq<Seg>, sn: u32)
    requires Ascending(base, 0x10000, q) && Sub(sn, base) < 0x10000
    ensures forall g :: g in DropAcked(q, sn) <==> g in q && g.sn != sn
  {
    if q != [] {
      assert forall g :: g in q <==> g == q[0] || g in q[1..];
      if sn == q[0].sn || Diff(sn, q[0].sn) < 0 {
        forall g | g in q[1..]
          ensures g.sn != sn
        {
          var j :| 0 <= j < |q[1..]| && q[1..][j] == g;
          assert Sub(q[0].sn, base) < Sub(q[j + 1].sn, base);
        }
      } else {
        DropAckedExact(base, q[1..], sn);
      }
    }
  }

  lemma ShrinkRestores(c: Cfg, x: Tx)
    requires TxWindow(c, x)
    ensures TxOk(c, Shrink(x))
  {
    var t := Shrink(x);
    if x.buf != [] {
      var d := Sub(t.una, x.una);
      assert forall i :: 0 < i < |x.buf| ==> d < Sub(x.buf[i].sn, x.una);
      assert forall i :: 0 <= i < |x.buf| ==> Sub(x.buf[i].sn, t.una) == Sub(x.buf[i].sn, x.una) - d;
    }
  }

  lemma ParseUnaKeeps(c: Cfg, x: Tx, una: u32)
    requires TxOk(c, x)
    ensures TxOk(c, Shrink(ParseUna(x, una)))
  {
    DropBelowSuffix(x.buf, una);
    ShrinkRestores(c, ParseUna(x, una));
  }

  lemma ParseAckKeeps(c: Cfg, x: Tx, sn: u32)
    requires TxOk(c, x)
    ensures TxOk(c, Shrink(ParseAck(x, sn)))
  {
    var i := DropAckedCut(x.buf, sn);
    if i < |x.buf| {
      AscendingWithout(x.una, Sub(x.nxt, x.una), x.buf, i);
    }
    ShrinkRestores(c, ParseAck(x, sn));
  }

  lemma {:induction false} MarkSkippedKeeps(q: seq<Seg>, sn: u32, ts: u32)
    ensures var r := MarkSkipped(q, sn, ts);
            forall i :: 0 <= i < |q| ==> r[i] == q[i].(fastack := r[i].fastack)
  {
    if q != [] && Diff(sn, q[0].sn) >= 0 {
      MarkSkippedKeeps(q[1..], sn, ts);
      assert forall i :: 0 < i < |q| ==> q[i] == q[1..][i - 1];
    }
  }

  lemma ParseFastackKeeps(c: Cfg, x: Tx, sn: u32, ts: u32)
    requires TxOk(c, x)
    ensures TxOk(c, ParseFastack(x, sn, ts))
  {
    MarkSkippedKeeps(x.buf, sn, ts);
  }

  lemma {:induction false} InsertBackMembers(q: seq<Seg>, g: Seg)
    ensures forall h :: h in InsertBack(q, g) ==> h in q || h == g
    ensures forall h :: h in q ==> h in InsertBack(q, g)
    ensures exists h :: h in InsertBack(q, g) && h.sn == g.sn
  {
    if q != [] {
      var last := |q| - 1;
      assert q == q[..last] + [q[last]];
      if q[last].sn == g.sn {
        assert q[last] in InsertBack(q, g);
      } else if Diff(g.sn, q[last].sn) > 0 {
        assert g in InsertBack(q, g);
      } else {
        InsertBackMembers(q[..last], g);
        var h :| h in InsertBack(q[..last], g) && h.sn == g.sn;
        assert h in InsertBack(q, g);
      }
    } else {
      assert g in InsertBack(q, g);
    }
  }

  /** Within half the number space, the serial comparison is the comparison of offsets. */
  lemma DiffByOffset(base: u32, x: u32, y: u32)
    requires Sub(x, base) < H32 && Sub(y, base) < H32
    ensures Diff(x, y) == Sub(x, base) - Sub(y, base)
  {
  }

  lemma AscendingAppend(base: u32, limit: int, q: seq<Seg>, g: Seg)
    requires Ascending(base, limit, q) && Sub(g.sn, base) < limit
    requires forall h :: h in q ==> Sub(h.sn, base) < Sub(g.sn, base)
    ensures Ascending(base, limit, q + [g])
  {
    assert forall i :: 0 <= i < |q| ==> q[i] in q;
  }

  lemma AscendingMembers(base: u32, limit: int, q: seq<Seg>)
    requires Ascending(base, limit, q) && q != []
    ensures forall h :: h in q[..|q| - 1] ==> Sub(h.sn, base) < Sub(q[|q| - 1].sn, base)
    ensures Ascending(base, limit, q[..|q| - 1])
  {
  }

  /** Insertion from the back keeps rcv_buf ordered. */
  lemma {:induction false} InsertBackKeeps(base: u32, limit: int, q: seq<Seg>, g: Seg)
    requires Ascending(base, limit, q) && Sub(g.sn, base) < limit <= H32
    ensures Ascending(base, limit, InsertBack(q, g))
  {
    if q != [] {
      var front, last := q[..|q| - 1], q[|q| - 1];
      assert q == front + [last];
      AscendingMembers(base, limit, q);
      DiffByOffset(base, g.sn, last.sn);
      if last.sn != g.sn && Diff(g.sn, last.sn) > 0 {
        AscendingAppend(base, limit, q, g);
      } else if last.sn != g.sn {
        InsertBackKeeps(base, limit, front, g);
        InsertBackMembers(front, g);
        AscendingAppend(base, limit, InsertBack(front, g), last);
      }
    }
  }

  lemma ParseDataKeeps(wnd: u32, r: Rx, g: Seg)
    requires RxOk(wnd, r) && |g.data| < H32 && g.frg < 0x100
    ensures RxOk(wnd, ParseData(wnd, r, g))
  {
    if InWindow(wnd, r, g.sn) {
      InsertBackKeeps(r.nxt, wnd, r.buf, g);
      InsertBackMembers(r.buf, g);
      var q := InsertBack(r.buf, g);
      forall i | 0 <= i < |q|
        ensures |q[i].data| < H32 && q[i].frg < 0x100
      {
        assert q[i] in q;
      }
      MoveReadyKeeps(wnd, r.(buf := q, nbuf := r.nbuf + (|q| - |r.buf|)));
    }
  }

  lemma InputPacketKeepsInv(t: Progress, p: Packet)
    requires Inv(t.cb) && ValidPacket(p)
    ensures Inv(InputPacket(t, p).cb) && InputPacket(t, p).cb.cfg == t.cb.cfg
  {
    var s := InputHeader(t.cb, p);
    ParseUnaKeeps(s.cfg, t.cb.tx, p.una);
    if p.cmd == CMD_ACK {
      ParseAckKeeps(s.cfg, s.tx, p.sn);
    } else if p.cmd == CMD_PUSH {
      ParseDataKeeps(s.cfg.rcvWnd, s.rx, SegOf(p));
    }
  }

  lemma {:induction false} InputPacketsKeepInv(t: Progress, ps: seq<Packet>)
    requires Inv(t.cb) && forall p <- ps :: ValidPacket(p)
    ensures Inv(InputPackets(t, ps).cb) && InputPackets(t, ps).cb.cfg == t.cb.cfg
  {
    if ps != [] {
      InputPacketsKeepInv(t, ps[..|ps| - 1]);
      InputPacketKeepsInv(InputPackets(t, ps[..|ps| - 1]), ps[|ps| - 1]);
    }
  }

  /** Whatever the bytes, the segments read from them have a known command and a payload below 2^31. */
  lemma {:induction false} ParsedAreValid(conv: u32, d: Bytes)
    ensures forall p <- ParseSegments(conv, d).packets :: ValidPacket(p) && p.conv == conv
    decreases |d|
  {
    if |d| >= OVERHEAD && HeaderError(conv, d) == 0 {
      ParsedAreValid(conv, d[OVERHEAD + Decode32(d, 20)..]);
    }
  }

  lemma FinishInputKeeps(t: Progress, prevUna: u32)
    requires Inv(t.cb)
    ensures Inv(FinishInput(t, prevUna))
  {
    ParseFastackKeeps(t.cb.cfg, t.cb.tx, t.maxack, t.latestTs);
  }

  /** ikcp_input on ANY byte string keeps the endpoint invariant. */
  lemma InputKeepsInv(s: Cb, d: Bytes)
    requires Inv(s)
    ensures Inv(Input(s, d).cb) && Input(s, d).cb.cfg == s.cfg
  {
    ParsedAreValid(s.cfg.conv, d);
    var ps := ParseDatagram(s.cfg.conv, d).packets;
    InputPacketsKeepInv(Progress(s, false, 0, 0), ps);
    FinishInputKeeps(InputPackets(Progress(s, false, 0, 0), ps), s.tx.una);
  }

  // ---- flushing --------------------------------------------------------------------

  lemma AdmitOneKeeps(k: Cfg, c: Pass, x: Tx, limit: u32)
    requires TxOk(k, x) && limit <= 0xffff && CanAdmit(x, limit) && c.conv == k.conv
    ensures TxOk(k, AdmitOne(c, x))
  {
    var t := AdmitOne(c, x);
    assert Sub(t.nxt, t.una) == Sub(x.nxt, x.una) + 1;
  }

  lemma {:induction false} AdmitKeeps(k: Cfg, c: Pass, x: Tx, limit: u32)
    requires TxOk(k, x) && limit <= 0xffff && c.conv == k.conv
    ensures TxOk(k, Admit(c, x, limit))
    decreases |x.queue|
  {
    if CanAdmit(x, limit) {
      AdmitOneKeeps(k, c, x, limit);
      AdmitKeeps(k, c, AdmitOne(c, x), limit);
    }
  }

  lemma {:induction false} TouchAllAt(c: Pass, q: seq<Seg>)
    ensures forall i :: 0 <= i < |q| ==> TouchAll(c, q)[i] == Touch(c, q[i])
  {
    if q != [] {
      TouchAllAt(c, q[..|q| - 1]);
    }
  }

  lemma TouchKeeps(k: Cfg, c: Pass, x: Tx)
    requires TxOk(k, x)
    ensures TxOk(k, x.(buf := TouchAll(c, x.buf)))
  {
    TouchAllAt(c, x.buf);
    hide TouchAll, Judge, BackedOff;
    assert forall i :: 0 <= i < |x.buf| ==> TouchAll(c, x.buf)[i].sn == x.buf[i].sn;
  }

  lemma FlushKeepsInv(s: Cb)
    requires Inv(s)
    ensures Inv(Flush(s).cb)
  {
    AdmitKeeps(s.cfg, PassOf(s), s.tx, SendLimit(s));
    TouchKeeps(s.cfg, PassOf(s), Admitted(s));
  }

  lemma UpdateKeepsInv(s: Cb, current: u32)
    requires Inv(s)
    ensures Inv(Update(s, current).cb)
  {
    FlushKeepsInv(s.(clock := Tick(s.clock, s.cfg.interval, current).clock));
  }
}
