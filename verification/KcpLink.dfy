/** Two KCP endpoints over a lossy network: what arrives is a prefix of what was accepted. */
module KcpLink {
  import opened Serial
  import opened Wire
  import opened KcpModel
  import opened KcpInvariant
  import opened KcpMessages
  import opened KcpCodec

  /** An endpoint and its history: messages accepted by ikcp_send, messages returned by ikcp_recv,
      the segments numbered so far (log[n] has number n), and every datagram it ever output. */
  datatype Peer = Peer(cb: Cb, accepted: seq<Bytes>, delivered: seq<Bytes>, log: seq<Chunk>, wire: set<Bytes>)

  datatype World = World(a: Peer, b: Peer)

  const NOTHING: Asm := Asm([], [])

  /** The segments a flush took from snd_queue are the ones it numbered. */
  function AfterFlush(p: Peer, before: seq<Seg>, f: Flushed): Peer {
    var k := |before| - |f.cb.tx.queue|;
    p.(cb := f.cb, log := if 0 <= k <= |before| then p.log + Chunks(before[..k]) else p.log,
       wire := p.wire + set d | d in f.datagrams)
  }

  function Act(p: Peer, op: Op): Peer {
    match op
    case SendOp(message) =>
      var t := Send(p.cb, message, |message|);
      p.(cb := t.cb, accepted := if 0 <= t.ret <= |message| then p.accepted + [message[..t.ret]] else p.accepted)
    case RecvOp(len) =>
      var t := Recv(p.cb, len);
      p.(cb := t.cb, delivered := if len >= 0 && t.ret >= 0 then p.delivered + [t.data] else p.delivered)
    case InputOp(d) => p.(cb := Input(p.cb, d).cb)
    case FlushOp => AfterFlush(p, p.cb.tx.queue, Flush(p.cb))
    case UpdateOp(now) => AfterFlush(p, p.cb.tx.queue, Update(p.cb, now))
  }

  /** Any datagram the other side ever output may arrive: again (duplicated), late (reordered), or never (lost). */
  ghost predicate Enabled(op: Op, other: Peer) {
    op.InputOp? ==> op.d in other.wire
  }

  ghost predicate Step(w: World, v: World) {
    || (exists op :: Enabled(op, w.b) && v == World(Act(w.a, op), w.b))
    || (exists op :: Enabled(op, w.a) && v == World(w.a, Act(w.b, op)))
  }

  ghost predicate FreshPeer(p: Peer) {
    exists cfg :: CfgOk(cfg) && p == Peer(Create(cfg), [], [], [], {})
  }

  ghost predicate Init(w: World) {
    FreshPeer(w.a) && FreshPeer(w.b) && w.a.cb.cfg.conv == w.b.cb.cfg.conv
  }

  /** Fewer than 2^31 segments numbered in either direction. */
  ghost predicate Small(w: World) {
    |w.a.log| < H32 && |w.b.log| < H32
  }

  ghost predicate Run(ws: seq<World>) {
    && ws != [] && Init(ws[0])
    && (forall i :: 0 <= i < |ws| - 1 ==> Step(ws[i], ws[i + 1]))
    && (forall i :: 0 <= i < |ws| ==> Small(ws[i]))
  }

  // ---- the invariant, for data flowing from x to y ---------------------------------

  ghost predicate HasSn(q: seq<Seg>, n: int) {
    exists i :: 0 <= i < |q| && q[i].sn == n
  }

  /** The receiver has segment n: delivered, queued, or waiting in rcv_buf. */
  ghost predicate Held(r: Rx, n: int) {
    n < r.nxt || HasSn(r.buf, n)
  }

  ghost predicate Matches(log: seq<Chunk>, q: seq<Seg>) {
    forall i :: 0 <= i < |q| ==> q[i].sn < |log| && log[q[i].sn] == ChunkOf(q[i])
  }

  /** No message has 128 fragments or more. */
  ghost predicate Short(cs: seq<Chunk>) {
    forall i :: 0 <= i < |cs| ==> cs[i].frg < WND_RCV
  }

  ghost predicate SenderOk(log: seq<Chunk>, x: Tx) {
    |log| == x.nxt < H32 && Matches(log, x.buf) && Chain(log + Chunks(x.queue)) && Short(log + Chunks(x.queue))
  }

  /** Numbered and queued segments together are exactly what was accepted. */
  ghost predicate Accounted(stream: bool, log: seq<Chunk>, q: seq<Seg>, accepted: seq<Bytes>) {
    && ChunkBytes(log + Chunks(q)) == Flat(accepted)
    && (!stream ==> Feed(NOTHING, log + Chunks(q)) == Asm(accepted, []))
  }

  /** Everything the receiver holds is what the sender numbered so; what it delivered is the log's front. */
  ghost predicate ReceiverOk(log: seq<Chunk>, r: Rx, delivered: seq<Bytes>) {
    && |r.queue| <= r.nxt <= |log| && Matches(log, r.queue) && Matches(log, r.buf)
    && Feed(NOTHING, log[..r.nxt - |r.queue|]) == Asm(delivered, [])
  }

  ghost predicate AcksHeld(r: Rx, acks: seq<Ack>) {
    forall i :: 0 <= i < |acks| ==> Held(r, acks[i].sn)
  }

  ghost predicate DataOk(log: seq<Chunk>, p: Packet) {
    p.cmd == CMD_PUSH ==> p.sn < |log| && log[p.sn] == Chunk(p.frg, p.data)
  }

  ghost predicate AckOk(r: Rx, p: Packet) {
    p.una <= r.nxt && (p.cmd == CMD_ACK ==> Held(r, p.sn))
  }

  ghost predicate DataDatagram(conv: u32, log: seq<Chunk>, d: Bytes) {
    forall p <- ParseDatagram(conv, d).packets :: DataOk(log, p)
  }

  ghost predicate AckDatagram(conv: u32, r: Rx, d: Bytes) {
    forall p <- ParseDatagram(conv, d).packets :: AckOk(r, p)
  }

  ghost predicate DataWire(conv: u32, log: seq<Chunk>, wire: set<Bytes>) {
    forall d <- wire :: DataDatagram(conv, log, d)
  }

  ghost predicate AckWire(conv: u32, r: Rx, wire: set<Bytes>) {
    forall d <- wire :: AckDatagram(conv, r, d)
  }

  /** Every numbered segment is still outstanding at the sender or held by the receiver. */
  ghost predicate NoneLost(x: Tx, r: Rx) {
    forall n {:trigger Held(r, n)} :: 0 <= n < x.nxt ==> HasSn(x.buf, n) || Held(r, n)
  }

  /** The sending side of one direction, against what the receiver holds. */
  ghost predicate Sends(c: Cfg, log: seq<Chunk>, x: Tx, accepted: seq<Bytes>, wire: set<Bytes>, r: Rx) {
    && SenderOk(log, x) && Accounted(c.stream, log, x.queue, accepted)
    && NoneLost(x, r) && DataWire(c.conv, log, wire)
  }

  /** The receiving side of one direction, against the sender's log. */
  ghost predicate Receives(c: Cfg, log: seq<Chunk>, r: Rx, acks: seq<Ack>, delivered: seq<Bytes>, wire: set<Bytes>) {
    ReceiverOk(log, r, delivered) && AcksHeld(r, acks) && AckWire(c.conv, r, wire)
  }

  ghost predicate Half(x: Peer, y: Peer) {
    && Sends(x.cb.cfg, x.log, x.cb.tx, x.accepted, x.wire, y.cb.rx)
    && Receives(y.cb.cfg, x.log, y.cb.rx, y.cb.acklist, y.delivered, y.wire)
  }

  ghost predicate LinkInv(w: World) {
    && Inv(w.a.cb) && Inv(w.b.cb) && w.a.cb.cfg.conv == w.b.cb.cfg.conv
    && Half(w.a, w.b) && Half(w.b, w.a)
  }

  // ---- progress of the receiving half ----------------------------------------------

  ghost predicate Advances(r: Rx, t: Rx) {
    r.nxt <= t.nxt && forall n :: Held(r, n) ==> Held(t, n)
  }

  lemma AdvanceKeepsSends(c: Cfg, log: seq<Chunk>, x: Tx, accepted: seq<Bytes>, wire: set<Bytes>, r: Rx, t: Rx)
    requires Sends(c, log, x, accepted, wire, r) && Advances(r, t)
    ensures Sends(c, log, x, accepted, wire, t)
  {
    forall n | 0 <= n < x.nxt
      ensures HasSn(x.buf, n) || Held(t, n)
    {
      assert HasSn(x.buf, n) || Held(r, n);
    }
  }

  lemma AdvanceKeepsAcks(conv: u32, r: Rx, t: Rx, acks: seq<Ack>, wire: set<Bytes>)
    requires Advances(r, t)
    ensures AcksHeld(r, acks) ==> AcksHeld(t, acks)
    ensures AckWire(conv, r, wire) ==> AckWire(conv, t, wire)
  {
    if AckWire(conv, r, wire) {
      forall d | d in wire
        ensures AckDatagram(conv, t, d)
      {
        assert AckDatagram(conv, r, d);
      }
    }
  }

  lemma MoveOneSafe(log: seq<Chunk>, wnd: u32, r: Rx, delivered: seq<Bytes>)
    requires |log| < H32 && ReceiverOk(log, r, delivered) && CanMove(wnd, r)
    ensures ReceiverOk(log, MoveOne(r), delivered) && Advances(r, MoveOne(r))
  {
    var t := MoveOne(r);
    assert t.nxt == r.nxt + 1 && r.buf[0].sn < |log|;
    forall n | Held(r, n)
      ensures Held(t, n)
    {
      if n >= t.nxt {
        var i :| 0 <= i < |r.buf| && r.buf[i].sn == n;
        assert t.buf[i - 1].sn == n;
      }
    }
  }

  lemma {:induction false} MoveReadySafe(log: seq<Chunk>, wnd: u32, r: Rx, delivered: seq<Bytes>)
    requires |log| < H32 && ReceiverOk(log, r, delivered)
    ensures ReceiverOk(log, MoveReady(wnd, r), delivered) && Advances(r, MoveReady(wnd, r))
    decreases |r.buf|
  {
    if CanMove(wnd, r) {
      MoveOneSafe(log, wnd, r, delivered);
      MoveReadySafe(log, wnd, MoveOne(r), delivered);
      assert forall n :: Held(r, n) ==> Held(MoveOne(r), n);
    }
  }

  /** Inserting an honest segment: it, and everything held before, is held afterwards. */
  lemma InsertSafe(log: seq<Chunk>, r: Rx, g: Seg)
    requires Matches(log, r.buf) && g.sn < |log| && log[g.sn] == ChunkOf(g)
    ensures var q := InsertBack(r.buf, g);
            Matches(log, q) && HasSn(q, g.sn) && forall n :: HasSn(r.buf, n) ==> HasSn(q, n)
  {
    var q := InsertBack(r.buf, g);
    InsertBackMembers(r.buf, g);
    hide InsertBack;
    forall i | 0 <= i < |q|
      ensures q[i].sn < |log| && log[q[i].sn] == ChunkOf(q[i])
    {
      assert q[i] in q;
    }
    forall n | HasSn(r.buf, n)
      ensures HasSn(q, n)
    {
      var i :| 0 <= i < |r.buf| && r.buf[i].sn == n;
      assert r.buf[i] in q;
    }
  }

  /** The same for ikcp_parse_data, which then moves up what is ready. */
  lemma ParseDataSafe(log: seq<Chunk>, wnd: u32, r: Rx, delivered: seq<Bytes>, g: Seg)
    requires |log| < H32 && ReceiverOk(log, r, delivered)
    requires g.sn < |log| && log[g.sn] == ChunkOf(g) && InWindow(wnd, r, g.sn)
    ensures var t := ParseData(wnd, r, g); ReceiverOk(log, t, delivered) && Advances(r, t) && Held(t, g.sn)
  {
    var q := InsertBack(r.buf, g);
    InsertSafe(log, r, g);
    hide InsertBack, HasSn, Matches, MoveReady, Feed;
    var r1 := r.(buf := q, nbuf := r.nbuf + (|q| - |r.buf|));
    assert Held(r1, g.sn);
    MoveReadySafe(log, wnd, r1, delivered);
    assert forall n :: Held(r, n) ==> Held(r1, n);
  }

  lemma PushSafe(log: seq<Chunk>, s: Cb, delivered: seq<Bytes>, p: Packet)
    requires Inv(s) && |log| < H32 && ReceiverOk(log, s.rx, delivered) && AcksHeld(s.rx, s.acklist)
    requires p.cmd == CMD_PUSH && DataOk(log, p)
    ensures var t := InputPush(s, p);
            ReceiverOk(log, t.rx, delivered) && AcksHeld(t.rx, t.acklist) && Advances(s.rx, t.rx)
  {
    var t := InputPush(s, p);
    if Diff(p.sn, Add(s.rx.nxt, s.cfg.rcvWnd)) < 0 {
      if Diff(p.sn, s.rx.nxt) >= 0 {
        ParseDataSafe(log, s.cfg.rcvWnd, s.rx, delivered, SegOf(p));
      } else {
        assert p.sn < s.rx.nxt;
      }
      assert Held(t.rx, p.sn);
      assert forall i :: 0 <= i < |s.acklist| ==> Held(t.rx, s.acklist[i].sn);
    }
  }

  // ---- the sending half under acknowledgements -------------------------------------

  /** Taking a segment off snd_buf is safe once the receiver holds it. */
  lemma SenderKeeps(log: seq<Chunk>, x: Tx, t: Tx, r: Rx)
    requires SenderOk(log, x) && NoneLost(x, r) && t.nxt == x.nxt && t.queue == x.queue && Matches(log, t.buf)
    requires forall i :: 0 <= i < |x.buf| ==> HasSn(t.buf, x.buf[i].sn) || Held(r, x.buf[i].sn)
    ensures SenderOk(log, t) && NoneLost(t, r)
  {
    forall n | 0 <= n < t.nxt
      ensures HasSn(t.buf, n) || Held(r, n)
    {
      assert HasSn(x.buf, n) || Held(r, n);
    }
  }

  lemma UnaSafe(log: seq<Chunk>, x: Tx, r: Rx, una: u32)
    requires SenderOk(log, x) && NoneLost(x, r) && una <= r.nxt <= |log|
    ensures var t := Shrink(ParseUna(x, una)); SenderOk(log, t) && NoneLost(t, r) && t.queue == x.queue
  {
    DropBelowSuffix(x.buf, una);
    var t := Shrink(ParseUna(x, una));
    var k := |x.buf| - |t.buf|;
    forall i | 0 <= i < |x.buf|
      ensures HasSn(t.buf, x.buf[i].sn) || Held(r, x.buf[i].sn)
    {
      assert i >= k ==> t.buf[i - k] == x.buf[i];
    }
    SenderKeeps(log, x, t, r);
  }

  lemma AckedSafe(log: seq<Chunk>, q: seq<Seg>, sn: u32)
    requires Matches(log, q)
    ensures var t := DropAcked(q, sn);
            Matches(log, t) && forall i :: 0 <= i < |q| ==> HasSn(t, q[i].sn) || q[i].sn == sn
  {
    var c := DropAckedCut(q, sn);
    var t := DropAcked(q, sn);
    forall i | 0 <= i < |q| && i != c
      ensures HasSn(t, q[i].sn)
    {
      assert t[if i < c then i else i - 1] == q[i];
    }
  }

  lemma AckSafe(log: seq<Chunk>, x: Tx, r: Rx, sn: u32)
    requires SenderOk(log, x) && NoneLost(x, r) && Held(r, sn)
    ensures var t := Shrink(ParseAck(x, sn)); SenderOk(log, t) && NoneLost(t, r) && t.queue == x.queue
  {
    AckedSafe(log, x.buf, sn);
    assert forall i :: 0 <= i < |x.buf| ==> HasSn(x.buf, x.buf[i].sn);
    SenderKeeps(log, x, Shrink(ParseAck(x, sn)), r);
  }

  lemma FastackSafe(log: seq<Chunk>, x: Tx, r: Rx, sn: u32, ts: u32)
    requires SenderOk(log, x) && NoneLost(x, r)
    ensures var t := ParseFastack(x, sn, ts); SenderOk(log, t) && NoneLost(t, r) && t.queue == x.queue
  {
    MarkSkippedKeeps(x.buf, sn, ts);
    var t := ParseFastack(x, sn, ts);
    assert forall i :: 0 <= i < |x.buf| ==> t.buf[i].sn == x.buf[i].sn && ChunkOf(t.buf[i]) == ChunkOf(x.buf[i]);
    assert forall i :: 0 <= i < |x.buf| ==> HasSn(t.buf, x.buf[i].sn);
    SenderKeeps(log, x, t, r);
  }

  // ---- ikcp_input on an honest datagram --------------------------------------------

  /** What holds between the segments of a datagram that peer y sent to peer x. */
  ghost predicate MidInput(x: Peer, y: Peer, s: Cb) {
    && Inv(s) && s.cfg == x.cb.cfg
    && SenderOk(x.log, s.tx) && NoneLost(s.tx, y.cb.rx) && s.tx.queue == x.cb.tx.queue
    && ReceiverOk(y.log, s.rx, x.delivered) && AcksHeld(s.rx, s.acklist) && Advances(x.cb.rx, s.rx)
  }

  lemma InputPacketSafe(x: Peer, y: Peer, t: Progress, p: Packet)
    requires MidInput(x, y, t.cb) && ValidPacket(p) && |y.log| < H32 && y.cb.rx.nxt <= |x.log|
    requires DataOk(y.log, p) && AckOk(y.cb.rx, p)
    ensures MidInput(x, y, InputPacket(t, p).cb)
  {
    InputPacketKeepsInv(t, p);
    UnaSafe(x.log, t.cb.tx, y.cb.rx, p.una);
    var s := InputHeader(t.cb, p);
    if p.cmd == CMD_ACK {
      AckSafe(x.log, s.tx, y.cb.rx, p.sn);
    } else if p.cmd == CMD_PUSH {
      ParseUnaKeeps(s.cfg, t.cb.tx, p.una);
      PushSafe(y.log, s, x.delivered, p);
      assert forall n :: Held(x.cb.rx, n) ==> Held(s.rx, n);
    }
  }

  lemma {:induction false} InputPacketsSafe(x: Peer, y: Peer, t: Progress, ps: seq<Packet>)
    requires MidInput(x, y, t.cb) && |y.log| < H32 && y.cb.rx.nxt <= |x.log|
    requires forall p <- ps :: ValidPacket(p) && DataOk(y.log, p) && AckOk(y.cb.rx, p)
    ensures MidInput(x, y, InputPackets(t, ps).cb)
  {
    if ps != [] {
      InputPacketsSafe(x, y, t, ps[..|ps| - 1]);
      InputPacketSafe(x, y, InputPackets(t, ps[..|ps| - 1]), ps[|ps| - 1]);
    }
  }

  lemma InputSafe(x: Peer, y: Peer, d: Bytes)
    requires LinkInv(World(x, y)) && d in y.wire
    ensures MidInput(x, y, Input(x.cb, d).cb)
  {
    var conv := x.cb.cfg.conv;
    var ps := ParseDatagram(conv, d).packets;
    ParsedAreValid(conv, d);
    assert DataDatagram(conv, y.log, d) && AckDatagram(conv, y.cb.rx, d);
    var t0 := Progress(x.cb, false, 0, 0);
    InputPacketsSafe(x, y, t0, ps);
    var t := InputPackets(t0, ps);
    InputKeepsInv(x.cb, d);
    FastackSafe(x.log, t.cb.tx, y.cb.rx, t.maxack, t.latestTs);
  }

  lemma InputKeepsLink(x: Peer, y: Peer, d: Bytes)
    requires LinkInv(World(x, y)) && d in y.wire
    ensures LinkInv(World(Act(x, InputOp(d)), y))
  {
    hide Inv, SenderOk, Accounted, NoneLost, DataWire, ReceiverOk, AcksHeld, AckWire, Advances, Input;
    InputSafe(x, y, d);
    var t := Input(x.cb, d).cb;
    AdvanceKeepsSends(y.cb.cfg, y.log, y.cb.tx, y.accepted, y.wire, x.cb.rx, t.rx);
    AdvanceKeepsAcks(x.cb.cfg.conv, x.cb.rx, t.rx, [], x.wire);
  }

  // ---- ikcp_send -------------------------------------------------------------------

  lemma SendKeepsLink(x: Peer, y: Peer, message: Bytes)
    requires LinkInv(World(x, y))
    ensures LinkInv(World(Act(x, SendOp(message)), y))
  {
    var t := Send(x.cb, message, |message|).cb;
    SendKeepsInv(x.cb, message, |message|);
    SendKeepsChain(x.log, x.cb, message, |message|);
    ShortAppend(x.log, Chunks(x.cb.tx.queue), x.cb.cfg.mss, t.tx.queue);
    SendAccounted(x, message);
    SendFrame(x.cb, message);
    hide Send, Inv, Accounted, NoneLost, DataWire, ReceiverOk, AcksHeld, AckWire, Chain, Short, Matches;
    assert SenderOk(x.log, t.tx) && NoneLost(t.tx, y.cb.rx) by {
      SameBuf(x.log, x.cb.tx, t.tx, y.cb.rx);
    }
  }

  lemma SendFrame(s: Cb, message: Bytes)
    ensures var t := Send(s, message, |message|).cb;
            && t.cfg == s.cfg && t.rx == s.rx && t.acklist == s.acklist && t.tx.buf == s.tx.buf && t.tx.nxt == s.tx.nxt
  {
  }

  /** Only the queue differs. */
  lemma SameBuf(log: seq<Chunk>, x: Tx, t: Tx, r: Rx)
    requires SenderOk(log, x) && NoneLost(x, r) && t.buf == x.buf && t.nxt == x.nxt
    requires Chain(log + Chunks(t.queue)) && Short(log + Chunks(t.queue))
    ensures SenderOk(log, t) && NoneLost(t, r)
  {
  }

  lemma ShortAppend(log: seq<Chunk>, before: seq<Chunk>, mss: u32, q: seq<Seg>)
    requires Short(log + before) && SendQueueOk(mss, q)
    ensures Short(log + Chunks(q))
  {
    assert forall i :: 0 <= i < |log| ==> (log + before)[i] == log[i];
  }

  lemma AccountBytes(log: seq<Chunk>, q: seq<Seg>, r: seq<Seg>, accepted: seq<Bytes>, m: Bytes)
    requires ChunkBytes(log + Chunks(q)) == Flat(accepted)
    requires ChunkBytes(Chunks(r)) == ChunkBytes(Chunks(q)) + m
    ensures ChunkBytes(log + Chunks(r)) == Flat(accepted + [m])
  {
    var a, b := ChunkBytes(log), ChunkBytes(Chunks(q));
    ChunkBytesConcat(log, Chunks(q));
    ChunkBytesConcat(log, Chunks(r));
    FlatAppend(accepted, m);
    assert a + (b + m) == a + b + m;
  }

  lemma AccountMessage(log: seq<Chunk>, q: seq<Seg>, add: seq<Seg>, accepted: seq<Bytes>, m: Bytes)
    requires Feed(NOTHING, log + Chunks(q)) == Asm(accepted, [])
    requires Feed(Asm(accepted, []), Chunks(add)) == Asm(accepted + [m], [])
    ensures Feed(NOTHING, log + Chunks(q + add)) == Asm(accepted + [m], [])
  {
    ChunksConcat(q, add);
    assert log + Chunks(q + add) == (log + Chunks(q)) + Chunks(add);
    FeedConcat(NOTHING, log + Chunks(q), Chunks(add));
  }

  lemma SendAccounted(x: Peer, message: Bytes)
    requires Inv(x.cb) && Accounted(x.cb.cfg.stream, x.log, x.cb.tx.queue, x.accepted)
    ensures var x' := Act(x, SendOp(message)); Accounted(x.cb.cfg.stream, x.log, x'.cb.tx.queue, x'.accepted)
  {
    var t := Send(x.cb, message, |message|);
    var q, r := x.cb.tx.queue, t.cb.tx.queue;
    SendQueuesBytes(x.cb, message, |message|);
    if t.ret >= 0 {
      AccountBytes(x.log, q, r, x.accepted, message[..t.ret]);
      if !x.cb.cfg.stream {
        SendQueuesMessage(x.cb, message, |message|, Asm(x.accepted, []));
        assert r == q + r[|q|..];
        AccountMessage(x.log, q, r[|q|..], x.accepted, message[..t.ret]);
      }
    }
  }

  // ---- ikcp_recv -------------------------------------------------------------------

  /** The receive queue is a stretch of the log ending at rcv_nxt. */
  lemma QueueIsLogStretch(log: seq<Chunk>, wnd: u32, r: Rx, delivered: seq<Bytes>)
    requires ReceiverOk(log, r, delivered) && RxWindow(wnd, r)
    ensures Chunks(r.queue) == log[r.nxt - |r.queue|..r.nxt]
  {
    hide Feed;
    forall i | 0 <= i < |r.queue|
      ensures ChunkOf(r.queue[i]) == log[r.nxt - |r.queue| + i]
    {
      assert r.queue[i].sn == U32(r.nxt - |r.queue| + i);
    }
  }

  lemma TakeSafe(log: seq<Chunk>, wnd: u32, r: Rx, delivered: seq<Bytes>, n: nat, msg: Bytes)
    requires ReceiverOk(log, r, delivered) && RxWindow(wnd, r) && n <= |r.queue|
    requires Feed(Asm(delivered, []), Chunks(r.queue[..n])) == Asm(delivered + [msg], [])
    ensures ReceiverOk(log, Take(r, 0, n), delivered + [msg])
  {
    hide Feed, Matches, Chunks, RxWindow;
    var c := r.nxt - |r.queue|;
    assert Feed(NOTHING, log[..c + n]) == Asm(delivered + [msg], []) by {
      QueueIsLogStretch(log, wnd, r, delivered);
      FeedStretch(log, c, n, r.queue, delivered, msg);
    }
    MatchesSuffix(log, r.queue, n);
    assert r.nxt - |r.queue[n..]| == c + n;
  }

  lemma MatchesSuffix(log: seq<Chunk>, q: seq<Seg>, n: nat)
    requires Matches(log, q) && n <= |q|
    ensures Matches(log, q[n..])
  {
  }

  lemma FeedStretch(log: seq<Chunk>, c: nat, n: nat, q: seq<Seg>, delivered: seq<Bytes>, msg: Bytes)
    requires n <= |q| && c + |q| <= |log| && Chunks(q) == log[c..c + |q|]
    requires Feed(NOTHING, log[..c]) == Asm(delivered, [])
    requires Feed(Asm(delivered, []), Chunks(q[..n])) == Asm(delivered + [msg], [])
    ensures Feed(NOTHING, log[..c + n]) == Asm(delivered + [msg], [])
  {
    assert Chunks(q[..n]) == Chunks(q)[..n];
    assert log[..c + n] == log[..c] + Chunks(q[..n]);
    FeedConcat(NOTHING, log[..c], Chunks(q[..n]));
  }

  /** Under a chain, what ikcp_recv returns is the next message of the log. */
  lemma RecvSafe(log: seq<Chunk>, full: seq<Chunk>, s: Cb, len: int, delivered: seq<Bytes>)
    requires Inv(s) && |log| < H32 && ReceiverOk(log, s.rx, delivered) && log <= full && Chain(full)
    ensures var t := Recv(s, len);
            && ReceiverOk(log, t.cb.rx, if len >= 0 && t.ret >= 0 then delivered + [t.data] else delivered)
            && Advances(s.rx, t.cb.rx)
  {
    if Recv(s, len).ret >= 0 {
      HeadSafe(log, full, s, delivered);
      var n := HeadCount(s.rx.queue);
      var rest := Take(s.rx, len, n);
      hide Chain, Feed, Inv, Matches, PeekSize, MoveReady;
      assert len >= 0 ==> rest == Take(s.rx, 0, n);
      assert Advances(s.rx, rest);
      MoveReadySafe(log, s.cfg.rcvWnd, rest, if len >= 0 then delivered + [Payload(s.rx.queue[..n])] else delivered);
    }
  }

  /** Taking the message at the head of the queue. */
  lemma HeadSafe(log: seq<Chunk>, full: seq<Chunk>, s: Cb, delivered: seq<Bytes>)
    requires Inv(s) && |log| < H32 && ReceiverOk(log, s.rx, delivered) && log <= full && Chain(full)
    requires PeekSize(s.rx) >= 0
    ensures var n := HeadCount(s.rx.queue);
            ReceiverOk(log, Take(s.rx, 0, n), delivered + [Payload(s.rx.queue[..n])])
  {
    var r, wnd := s.rx, s.cfg.rcvWnd;
    var c := r.nxt - |r.queue|;
    QueueIsLogStretch(log, wnd, r, delivered);
    assert full[c..c + |r.queue|] == log[c..r.nxt];
    PeekFindsWholeMessage(full, c, r);
    HeadIsNextMessage(delivered, r.queue);
    hide Feed, Chain, Chunks, ReceiverOk, PeekSize;
    TakeSafe(log, wnd, r, delivered, HeadCount(r.queue), Payload(r.queue[..HeadCount(r.queue)]));
  }

  lemma RecvFrame(s: Cb, len: int)
    ensures var t := Recv(s, len).cb; t.cfg == s.cfg && t.tx == s.tx && t.acklist == s.acklist
  {
  }

  /** Nothing but the receiving half differs. */
  ghost predicate OnlyReceived(x: Peer, x': Peer) {
    && x'.cb.cfg == x.cb.cfg && x'.cb.tx == x.cb.tx && x'.cb.acklist == x.cb.acklist
    && x'.accepted == x.accepted && x'.log == x.log && x'.wire == x.wire
  }

  /** When only the receiving half of an endpoint advances, the whole link still holds. */
  lemma AdvanceKeepsLink(x: Peer, x': Peer, y: Peer)
    requires LinkInv(World(x, y)) && Inv(x'.cb) && Advances(x.cb.rx, x'.cb.rx)
    requires OnlyReceived(x, x') && ReceiverOk(y.log, x'.cb.rx, x'.delivered)
    ensures LinkInv(World(x', y))
  {
    AdvanceKeepsSends(y.cb.cfg, y.log, y.cb.tx, y.accepted, y.wire, x.cb.rx, x'.cb.rx);
    AdvanceKeepsAcks(x.cb.cfg.conv, x.cb.rx, x'.cb.rx, x.cb.acklist, x.wire);
  }

  lemma RecvKeepsLink(x: Peer, y: Peer, len: int)
    requires LinkInv(World(x, y))
    ensures LinkInv(World(Act(x, RecvOp(len)), y))
  {
    RecvKeepsInv(x.cb, len);
    RecvFrame(x.cb, len);
    RecvSafe(y.log, y.log + Chunks(y.cb.tx.queue), x.cb, len, x.delivered);
    hide Recv, Advances, ReceiverOk, Chain, Inv, SenderOk;
    AdvanceKeepsLink(x, Act(x, RecvOp(len)), y);
  }

  // ---- ikcp_flush ------------------------------------------------------------------

  /** Numbering queued segments appends them to the log and loses nothing. */
  lemma {:induction false} AdmitSafe(log: seq<Chunk>, c: Pass, x: Tx, limit: u32, r: Rx) returns (k: nat)
    requires SenderOk(log, x) && NoneLost(x, r)
    requires |log| + |x.queue| - |Admit(c, x, limit).queue| < H32
    ensures var t := Admit(c, x, limit);
            && k <= |x.queue| && t.queue == x.queue[k..]
            && SenderOk(log + Chunks(x.queue[..k]), t) && NoneLost(t, r)
    decreases |x.queue|
  {
    if CanAdmit(x, limit) {
      var t := AdmitOne(c, x);
      AdmitShrinks(c, t, limit);
      AdmitOneSafe(log, c, x, r);
      var j := AdmitSafe(log + [ChunkOf(x.queue[0])], c, t, limit, r);
      k := j + 1;
      assert x.queue[1..][..j] == x.queue[1..k];
      assert Chunks(x.queue[..k]) == [ChunkOf(x.queue[0])] + Chunks(x.queue[1..][..j]);
      assert log + Chunks(x.queue[..k]) == log + [ChunkOf(x.queue[0])] + Chunks(x.queue[1..][..j]);
      assert x.queue[1..][j..] == x.queue[k..];
    } else {
      k := 0;
      assert log + Chunks(x.queue[..0]) == log;
    }
  }

  lemma {:induction false} AdmitShrinks(c: Pass, x: Tx, limit: u32)
    ensures |Admit(c, x, limit).queue| <= |x.queue|
    decreases |x.queue|
  {
    if CanAdmit(x, limit) {
      AdmitShrinks(c, AdmitOne(c, x), limit);
    }
  }

  lemma AdmitOneSafe(log: seq<Chunk>, c: Pass, x: Tx, r: Rx)
    requires SenderOk(log, x) && NoneLost(x, r) && x.queue != [] && |log| + 1 < H32
    ensures SenderOk(log + [ChunkOf(x.queue[0])], AdmitOne(c, x)) && NoneLost(AdmitOne(c, x), r)
  {
    var t := AdmitOne(c, x);
    var log1 := log + [ChunkOf(x.queue[0])];
    assert log1 + Chunks(t.queue) == log + Chunks(x.queue);
    forall n | 0 <= n < t.nxt
      ensures HasSn(t.buf, n) || Held(r, n)
    {
      if n == x.nxt {
        assert t.buf[|x.buf|].sn == n;
      } else if !Held(r, n) {
        assert HasSn(x.buf, n);
        var i :| 0 <= i < |x.buf| && x.buf[i].sn == n;
        assert t.buf[i].sn == n;
      }
    }
  }

  lemma TouchSafe(log: seq<Chunk>, c: Pass, x: Tx, r: Rx)
    requires SenderOk(log, x) && NoneLost(x, r)
    ensures var t := x.(buf := TouchAll(c, x.buf)); SenderOk(log, t) && NoneLost(t, r)
  {
    TouchAllAt(c, x.buf);
    var t := x.(buf := TouchAll(c, x.buf));
    assert forall i :: 0 <= i < |x.buf| ==> t.buf[i].sn == x.buf[i].sn && ChunkOf(t.buf[i]) == ChunkOf(x.buf[i]);
    forall n | 0 <= n < t.nxt
      ensures HasSn(t.buf, n) || Held(r, n)
    {
      if !Held(r, n) {
        assert HasSn(x.buf, n);
        var i :| 0 <= i < |x.buf| && x.buf[i].sn == n;
        assert t.buf[i].sn == n;
      }
    }
  }

  /** Every segment a flush sends is honest: numbered data, held acknowledgements, its own rcv_nxt. */
  lemma FlushPacketsHonest(s: Cb, log: seq<Chunk>, p: Packet)
    requires Inv(s) && AcksHeld(s.rx, s.acklist) && p in FlushPackets(s)
    requires Matches(log, Admitted(s).buf)
    ensures DataOk(log, p) && AckOk(s.rx, p)
  {
    AckPacketsSendable(s.cfg, HeaderOf(s), s.acklist);
    AdmitKeeps(s.cfg, PassOf(s), s.tx, SendLimit(s));
    DuePacketsCarry(s.cfg, PassOf(s), Admitted(s).buf);
    if p in AckPackets(HeaderOf(s), s.acklist) {
      var i :| 0 <= i < |s.acklist| && AckPackets(HeaderOf(s), s.acklist)[i] == p;
      assert Held(s.rx, s.acklist[i].sn);
    } else if p in DuePackets(PassOf(s), Admitted(s).buf) {
      var i :| 0 <= i < |Admitted(s).buf| && Carries(PassOf(s), p, Admitted(s).buf[i]);
    }
  }

  lemma FlushedDatagramHonest(s: Cb, log: seq<Chunk>, d: Bytes)
    requires Inv(s) && AcksHeld(s.rx, s.acklist) && Matches(log, Admitted(s).buf) && d in Flush(s).datagrams
    ensures DataDatagram(s.cfg.conv, log, d) && AckDatagram(s.cfg.conv, s.rx, d)
  {
    FlushedPacket(s, d);
    forall p | p in ParseDatagram(s.cfg.conv, d).packets
      ensures DataOk(log, p) && AckOk(s.rx, p)
    {
      FlushPacketsHonest(s, log, p);
    }
  }

  lemma LogGrows(conv: u32, log: seq<Chunk>, more: seq<Chunk>, d: Bytes, r: Rx, delivered: seq<Bytes>)
    ensures DataDatagram(conv, log, d) ==> DataDatagram(conv, log + more, d)
    ensures ReceiverOk(log, r, delivered) ==> ReceiverOk(log + more, r, delivered)
  {
    if ReceiverOk(log, r, delivered) {
      assert (log + more)[..r.nxt - |r.queue|] == log[..r.nxt - |r.queue|];
    }
  }

  lemma FlushWireHonest(s: Cb, log: seq<Chunk>, more: seq<Chunk>, wire: set<Bytes>)
    requires Inv(s) && AcksHeld(s.rx, s.acklist) && Matches(log + more, Admitted(s).buf)
    requires DataWire(s.cfg.conv, log, wire) && AckWire(s.cfg.conv, s.rx, wire)
    ensures var w := wire + set d | d in Flush(s).datagrams;
            DataWire(s.cfg.conv, log + more, w) && AckWire(s.cfg.conv, s.rx, w)
  {
    forall d | d in wire || d in Flush(s).datagrams
      ensures DataDatagram(s.cfg.conv, log + more, d) && AckDatagram(s.cfg.conv, s.rx, d)
    {
      if d in Flush(s).datagrams {
        FlushedDatagramHonest(s, log + more, d);
      } else {
        LogGrows(s.cfg.conv, log, more, d, s.rx, []);
      }
    }
  }

  /** The sending half after a flush: k queued segments have moved to the log. */
  lemma FlushSender(log: seq<Chunk>, c: Pass, x: Tx, limit: u32, r: Rx) returns (k: nat)
    requires SenderOk(log, x) && NoneLost(x, r)
    requires |log| + |x.queue| - |Admit(c, x, limit).queue| < H32
    ensures k <= |x.queue| && Admit(c, x, limit).queue == x.queue[k..]
    ensures var t := Admit(c, x, limit);
            var sent := t.(buf := TouchAll(c, t.buf));
            var log' := log + Chunks(x.queue[..k]);
            && Matches(log', t.buf) && SenderOk(log', sent) && NoneLost(sent, r)
  {
    k := AdmitSafe(log, c, x, limit, r);
    TouchSafe(log + Chunks(x.queue[..k]), c, Admit(c, x, limit), r);
  }

  /** Numbered and queued segments together do not change. */
  lemma LogAndQueue(log: seq<Chunk>, q: seq<Seg>, k: nat)
    requires k <= |q|
    ensures log + Chunks(q[..k]) + Chunks(q[k..]) == log + Chunks(q)
  {
  }

  /** Flushing at this clock numbers segments below 2^31 only. */
  ghost predicate StaysSmall(x: Peer, clock: Clock) {
    |AfterFlush(x, x.cb.tx.queue, Flush(x.cb.(clock := clock))).log| < H32
  }

  /** A flush of x, whatever its clock reads. */
  lemma FlushKeepsLink(x: Peer, y: Peer, clock: Clock)
    requires LinkInv(World(x, y)) && clock.updated
    requires StaysSmall(x, clock)
    ensures LinkInv(World(AfterFlush(x, x.cb.tx.queue, Flush(x.cb.(clock := clock))), y))
  {
    hide NoneLost, Accounted, DataWire, ReceiverOk, AcksHeld, AckWire, Admit, Chain, Short, Matches;
    var s := x.cb.(clock := clock);
    var x' := AfterFlush(x, x.cb.tx.queue, Flush(s));
    FlushKeepsInv(s);
    AdmitShrinks(PassOf(s), s.tx, SendLimit(s));
    var k := FlushSender(x.log, PassOf(s), s.tx, SendLimit(s), y.cb.rx);
    var more := Chunks(s.tx.queue[..k]);
    assert x'.log == x.log + more;
    FlushKeepsHalves(x, y, s, k);
    assert x'.cb.tx == FlushState(s).tx && x'.cb.rx == x.cb.rx && x'.cb.acklist == [];
  }

  lemma FlushKeepsHalves(x: Peer, y: Peer, s: Cb, k: nat)
    requires LinkInv(World(x, y)) && s.cfg == x.cb.cfg && s.tx == x.cb.tx && s.rx == x.cb.rx
    requires s.acklist == x.cb.acklist && Inv(s)
    requires k <= |s.tx.queue| && FlushState(s).tx.queue == s.tx.queue[k..]
    requires var log := x.log + Chunks(s.tx.queue[..k]);
             && Matches(log, Admitted(s).buf)
             && SenderOk(log, FlushState(s).tx) && NoneLost(FlushState(s).tx, y.cb.rx)
    ensures var (log, t, wire) := (x.log + Chunks(s.tx.queue[..k]), FlushState(s).tx, x.wire + set d | d in Flush(s).datagrams);
            && Sends(s.cfg, log, t, x.accepted, wire, y.cb.rx)
            && Receives(y.cb.cfg, log, y.cb.rx, y.cb.acklist, y.delivered, y.wire)
            && Receives(s.cfg, y.log, s.rx, [], x.delivered, wire)
  {
    var more := Chunks(s.tx.queue[..k]);
    LogAndQueue(x.log, s.tx.queue, k);
    FlushWireHonest(s, x.log, more, x.wire);
    LogGrows(0, x.log, more, [], y.cb.rx, y.delivered);
  }

  /** ikcp_update without a flush, and ikcp_flush before the first ikcp_update, only touch the clock. */
  lemma IdleKeepsLink(x: Peer, y: Peer, clock: Clock)
    requires LinkInv(World(x, y))
    ensures LinkInv(World(AfterFlush(x, x.cb.tx.queue, Flushed(x.cb.(clock := clock), [])), y))
  {
    var x' := AfterFlush(x, x.cb.tx.queue, Flushed(x.cb.(clock := clock), []));
    assert x'.log == x.log;
    assert x'.wire == x.wire;
  }

  // ---- runs ------------------------------------------------------------------------

  lemma ActKeepsLink(x: Peer, y: Peer, op: Op)
    requires LinkInv(World(x, y)) && Enabled(op, y) && |Act(x, op).log| < H32
    ensures LinkInv(World(Act(x, op), y))
  {
    hide LinkInv, Send, Recv, Input;
    match op
    case SendOp(message) => SendKeepsLink(x, y, message);
    case RecvOp(len) => RecvKeepsLink(x, y, len);
    case InputOp(d) => InputKeepsLink(x, y, d);
    case FlushOp =>
      assert x.cb.(clock := x.cb.clock) == x.cb;
      if x.cb.clock.updated {
        FlushKeepsLink(x, y, x.cb.clock);
      } else {
        IdleKeepsLink(x, y, x.cb.clock);
      }
    case UpdateOp(now) =>
      var k := Tick(x.cb.clock, x.cb.cfg.interval, now);
      if k.due {
        FlushKeepsLink(x, y, k.clock);
      } else {
        IdleKeepsLink(x, y, k.clock);
      }
  }

  lemma FreshHalf(x: Peer, y: Peer)
    requires FreshPeer(x) && FreshPeer(y)
    ensures Half(x, y) && Inv(x.cb)
  {
    hide CfgOk;
    var c :| CfgOk(c) && x == Peer(Create(c), [], [], [], {});
    CreateInv(c);
    assert Feed(NOTHING, []) == NOTHING && Chunks([]) == [];
    var none: seq<Chunk> := [];
    assert none[..0] == none && none + none == none;
  }

  lemma InitLink(w: World)
    requires Init(w)
    ensures LinkInv(w)
  {
    hide Half, Inv, FreshPeer;
    FreshHalf(w.a, w.b);
    FreshHalf(w.b, w.a);
  }

  lemma LinkIsSymmetric(x: Peer, y: Peer)
    requires LinkInv(World(x, y))
    ensures LinkInv(World(y, x))
  {
    hide Half, Inv;
  }

  /** Every state of every run satisfies the invariant. */
  lemma {:induction false} RunKeepsLink(ws: seq<World>)
    requires Run(ws)
    ensures LinkInv(ws[|ws| - 1])
  {
    hide LinkInv, Act;
    var last := |ws| - 1;
    if last == 0 {
      InitLink(ws[0]);
    } else {
      var front := ws[..last];
      assert forall i :: 0 <= i < last ==> front[i] == ws[i];
      RunKeepsLink(front);
      var w, v := ws[last - 1], ws[last];
      assert Step(w, v);
      if op :| Enabled(op, w.b) && v == World(Act(w.a, op), w.b) {
        ActKeepsLink(w.a, w.b, op);
      } else {
        var op :| Enabled(op, w.a) && v == World(w.a, Act(w.b, op));
        LinkIsSymmetric(w.a, w.b);
        ActKeepsLink(w.b, w.a, op);
        LinkIsSymmetric(v.b, v.a);
      }
    }
  }

  // ---- what follows for the user ---------------------------------------------------

  lemma HalfDelivers(x: Peer, y: Peer)
    requires Half(x, y)
    ensures Flat(y.delivered) <= Flat(x.accepted)
    ensures !x.cb.cfg.stream ==> y.delivered <= x.accepted
  {
    var r := y.cb.rx;
    var c := r.nxt - |r.queue|;
    var all := x.log + Chunks(x.cb.tx.queue);
    assert all == x.log[..c] + all[c..];
    FeedConcat(NOTHING, x.log[..c], all[c..]);
    FeedExtends(Asm(y.delivered, []), all[c..]);
    FeedBytesWhole(x.log[..c], y.delivered);
    ChunkBytesConcat(x.log[..c], all[c..]);
  }

  /** End-to-end safety, in both directions and at every moment: the bytes received are a prefix of
      the bytes accepted and, without streaming, the messages received are a prefix of the messages
      accepted, with the same boundaries. */
  lemma DeliveredIsPrefix(ws: seq<World>)
    requires Run(ws)
    ensures var w := ws[|ws| - 1];
            && Flat(w.b.delivered) <= Flat(w.a.accepted) && Flat(w.a.delivered) <= Flat(w.b.accepted)
            && (!w.a.cb.cfg.stream ==> w.b.delivered <= w.a.accepted)
            && (!w.b.cb.cfg.stream ==> w.a.delivered <= w.b.accepted)
  {
    RunKeepsLink(ws);
    HalfDelivers(ws[|ws| - 1].a, ws[|ws| - 1].b);
    HalfDelivers(ws[|ws| - 1].b, ws[|ws| - 1].a);
  }

  /** No segment is forgotten before it arrived: in both directions, each number below snd_nxt is in the
      sender's snd_buf or at the receiver. */
  lemma NoAckedSegmentIsLost(ws: seq<World>, n: nat)
    requires Run(ws)
    ensures var w := ws[|ws| - 1];
            && (n < w.a.cb.tx.nxt ==> HasSn(w.a.cb.tx.buf, n) || n < w.b.cb.rx.nxt || HasSn(w.b.cb.rx.buf, n))
            && (n < w.b.cb.tx.nxt ==> HasSn(w.b.cb.tx.buf, n) || n < w.a.cb.rx.nxt || HasSn(w.a.cb.rx.buf, n))
  {
    RunKeepsLink(ws);
    HalfLosesNothing(ws[|ws| - 1].a, ws[|ws| - 1].b, n);
    HalfLosesNothing(ws[|ws| - 1].b, ws[|ws| - 1].a, n);
  }

  lemma HalfLosesNothing(x: Peer, y: Peer, n: nat)
    requires Half(x, y)
    ensures n < x.cb.tx.nxt ==> HasSn(x.cb.tx.buf, n) || n < y.cb.rx.nxt || HasSn(y.cb.rx.buf, n)
  {
    assert n < x.cb.tx.nxt ==> HasSn(x.cb.tx.buf, n) || Held(y.cb.rx, n);
  }

  lemma FullQueueHead(log: seq<Chunk>, full: seq<Chunk>, wnd: u32, r: Rx, delivered: seq<Bytes>)
    requires ReceiverOk(log, r, delivered) && RxWindow(wnd, r) && |r.queue| >= WND_RCV
    requires log <= full && Chain(full) && Short(full)
    ensures PeekSize(r) >= 0
  {
    var c := r.nxt - |r.queue|;
    QueueIsLogStretch(log, wnd, r, delivered);
    assert full[c..c + |r.queue|] == log[c..r.nxt];
    PeekFindsWholeMessage(full, c, r);
    assert full[c] == log[c..r.nxt][0] == ChunkOf(r.queue[0]);
  }

  /** A full queue can be read: the announced message comes out whole. */
  ghost predicate ReadableWhenFull(s: Cb, len: int) {
    |s.rx.queue| >= s.cfg.rcvWnd && len >= PeekSize(s.rx) ==>
      PeekSize(s.rx) >= 0 && Recv(s, len).ret == PeekSize(s.rx) == |Recv(s, len).data|
  }

  /** A full receive queue always holds a complete message at its head, so ikcp_recv can make room. */
  lemma FullQueueIsReadable(ws: seq<World>, len: int)
    requires Run(ws)
    ensures ReadableWhenFull(ws[|ws| - 1].a.cb, len) && ReadableWhenFull(ws[|ws| - 1].b.cb, len)
  {
    RunKeepsLink(ws);
    HalfIsReadable(ws[|ws| - 1].a, ws[|ws| - 1].b, len);
    HalfIsReadable(ws[|ws| - 1].b, ws[|ws| - 1].a, len);
  }

  lemma HalfIsReadable(x: Peer, y: Peer, len: int)
    requires Half(x, y) && Inv(y.cb)
    ensures ReadableWhenFull(y.cb, len)
  {
    if |y.cb.rx.queue| >= y.cb.cfg.rcvWnd && len >= PeekSize(y.cb.rx) {
      FullQueueHead(x.log, x.log + Chunks(x.cb.tx.queue), y.cb.cfg.rcvWnd, y.cb.rx, y.delivered);
      PeekSizeIsExact(y.cb.rx);
    }
  }

  lemma QuietReceiverIsCurrent(x: Tx, r: Rx, wnd: u32)
    requires NoneLost(x, r) && x.buf == [] && RxOk(wnd, r) && wnd > 0 && r.queue == [] && x.nxt < H32
    ensures x.nxt <= r.nxt
  {
    assert r.nxt < x.nxt ==> HasSn(x.buf, r.nxt) || Held(r, r.nxt);
    assert forall i :: 0 < i < |r.buf| ==> Sub(r.buf[0].sn, r.nxt) < Sub(r.buf[i].sn, r.nxt);
  }

  lemma QuietHalf(x: Peer, y: Peer)
    requires Half(x, y) && RxOk(y.cb.cfg.rcvWnd, y.cb.rx) && y.cb.cfg.rcvWnd > 0
    requires x.cb.tx.buf == [] && x.cb.tx.queue == [] && y.cb.rx.queue == []
    ensures Flat(y.delivered) == Flat(x.accepted) && (!x.cb.cfg.stream ==> y.delivered == x.accepted)
  {
    hide RxOk, NoneLost, DataWire, AckWire, AcksHeld, Matches, Chain, Short;
    QuietReceiverIsCurrent(x.cb.tx, y.cb.rx, y.cb.cfg.rcvWnd);
    assert x.log[..|x.log|] == x.log && x.log + Chunks(x.cb.tx.queue) == x.log;
    FeedBytesWhole(x.log, y.delivered);
  }

  /** Nothing waits at the sender and the receiver has read its queue. */
  ghost predicate Quiet(x: Peer, y: Peer) {
    x.cb.tx.nbuf + x.cb.tx.nque == 0 && y.cb.rx.queue == []
  }

  /** Then everything was delivered, in either direction. */
  lemma QuietMeansDelivered(ws: seq<World>)
    requires Run(ws)
    ensures var w := ws[|ws| - 1];
            && (Quiet(w.a, w.b) ==>
                 Flat(w.b.delivered) == Flat(w.a.accepted) && (!w.a.cb.cfg.stream ==> w.b.delivered == w.a.accepted))
            && (Quiet(w.b, w.a) ==>
                 Flat(w.a.delivered) == Flat(w.b.accepted) && (!w.b.cb.cfg.stream ==> w.a.delivered == w.b.accepted))
  {
    RunKeepsLink(ws);
    var w := ws[|ws| - 1];
    if Quiet(w.a, w.b) { QuietLink(w.a, w.b); }
    if Quiet(w.b, w.a) { QuietLink(w.b, w.a); }
  }

  lemma QuietLink(x: Peer, y: Peer)
    requires Half(x, y) && Inv(x.cb) && Inv(y.cb) && Quiet(x, y)
    ensures Flat(y.delivered) == Flat(x.accepted) && (!x.cb.cfg.stream ==> y.delivered == x.accepted)
  {
    hide Half;
    QuietHalf(x, y);
  }
}
