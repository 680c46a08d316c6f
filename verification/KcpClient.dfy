/** KcpClient.cpp: a KCP endpoint whose received messages are the pieces of the framing. */
module KcpClient {
  import opened Serial
  import opened Wire
  import opened StickyPacket
  import B = Buffer
  import M = KcpModel
  import K = Kcp
  import KcpMessages
  import opened KcpInvariant

  const TCP_BUFFER_SIZE: nat := 0x2_0000

  /** The endpoint and the framing behind it. */
  datatype Client = Client(cb: M.Cb, framer: Framer)

  function Room(f: Framer): int {
    f.capacity - |f.held|
  }

  /** The next message is complete and fits the room. */
  predicate Readable(c: Client) {
    c.framer.status == Running && Room(c.framer) >= 0 && M.Recv(c.cb, Room(c.framer)).ret >= 0
  }

  /** ikcp_send of each message, whatever it answers. */
  function SendAll(s: M.Cb, ms: seq<Bytes>): M.Cb {
    if ms == [] then s
    else
      var t := SendAll(s, ms[..|ms| - 1]);
      M.Send(t, ms[|ms| - 1], |ms[|ms| - 1]|).cb
  }

  /** One turn of the drain loop: the next message becomes a piece, and the user callback, run on what that
      completes, sends messages on the same endpoint. */
  function DrainOne(c: Client, sends: seq<Bytes>): Client {
    var r := M.Recv(c.cb, Room(c.framer));
    Client(SendAll(r.cb, sends), Receive(c.framer, r.data))
  }

  /** The drain loop of RcvDataToKcp; `sends(i)` is what the callback sends in turn i. */
  function Drain(c: Client, sends: nat -> seq<Bytes>, turn: nat): Client
    decreases |c.cb.rx.queue| + |c.cb.rx.buf|
  {
    if !Readable(c) then c
    else
      TurnShrinks(c, sends(turn));
      Drain(DrainOne(c, sends(turn)), sends, turn + 1)
  }

  /** Sending leaves the receiving half alone. */
  lemma {:induction false} SendAllFrame(s: M.Cb, ms: seq<Bytes>)
    ensures var t := SendAll(s, ms); t.rx == s.rx && t.cfg == s.cfg && t.acklist == s.acklist
  {
    if ms != [] { SendAllFrame(s, ms[..|ms| - 1]); }
  }

  lemma TurnShrinks(c: Client, sends: seq<Bytes>)
    requires Readable(c)
    ensures var t := DrainOne(c, sends).cb; |t.rx.queue| + |t.rx.buf| < |c.cb.rx.queue| + |c.cb.rx.buf|
  {
    RecvShrinks(c.cb, Room(c.framer));
    SendAllFrame(M.Recv(c.cb, Room(c.framer)).cb, sends);
  }

  lemma {:induction false} MoveReadyKeepsCount(wnd: u32, r: M.Rx)
    ensures var t := M.MoveReady(wnd, r); |t.queue| + |t.buf| == |r.queue| + |r.buf|
    decreases |r.buf|
  {
    if M.CanMove(wnd, r) { MoveReadyKeepsCount(wnd, M.MoveOne(r)); }
  }

  /** A message read removes at least one segment. */
  lemma RecvShrinks(s: M.Cb, len: nat)
    requires M.Recv(s, len).ret >= 0
    ensures var t := M.Recv(s, len).cb; |t.rx.queue| + |t.rx.buf| < |s.rx.queue| + |s.rx.buf|
  {
    var n := M.HeadCount(s.rx.queue);
    MoveReadyKeepsCount(s.cfg.rcvWnd, M.Take(s.rx, len, n));
  }

  /** What ikcp_recv writes is as long as it says, and not longer than the room it was given. */
  lemma RecvFits(s: M.Cb, len: nat)
    ensures var r := M.Recv(s, len); if r.ret >= 0 then |r.data| == r.ret <= len else r.cb == s
  {
    if M.PeekSize(s.rx) >= 0 { KcpMessages.PeekSizeIsExact(s.rx); }
  }

  /** The loop ends only when no message is complete, or the next one exceeds the room, or the program ends. */
  lemma {:induction false} DrainIsComplete(c: Client, sends: nat -> seq<Bytes>, turn: nat)
    ensures var d := Drain(c, sends, turn);
            d.framer.status == Running ==> M.PeekSize(d.cb.rx) < 0 || M.PeekSize(d.cb.rx) > Room(d.framer)
    decreases |c.cb.rx.queue| + |c.cb.rx.buf|
  {
    if Readable(c) {
      TurnShrinks(c, sends(turn));
      hide M.Recv, DrainOne;
      DrainIsComplete(DrainOne(c, sends(turn)), sends, turn + 1);
    }
  }

  lemma SettersKeepInv(conv: u32)
    ensures Inv(M.Create(M.ClientCfg(conv)))
    ensures M.Create(M.ClientCfg(conv)) == M.Create(M.DefaultCfg(conv)).(cfg := M.ClientCfg(conv))
    ensures M.ClientCfg(conv).mtu == M.DefaultCfg(conv).mtu
  {
    SettersKeepCfg(conv, M.DefaultCfg(conv), 1400, 2, 10, 2, 1, 128, 128);
    CreateInv(M.ClientCfg(conv));
  }

  /** CreateKcp: the endpoint with the settings of the program. */
  method CreateKcp(conv: u32) returns (k: K.Endpoint)
    ensures fresh(k) && fresh(k.acklist) && fresh(k.buffer) && k.Valid()
    ensures k.View() == M.Create(M.ClientCfg(conv)) && k.output == []
  {
    SettersKeepInv(conv);
    k := new K.Endpoint(conv);
    k.WndSize(128, 128);
    k.NoDelay(2, 10, 2, 1);
    k.cfg := k.cfg.(rxMinrto := 10, fastresend := 1);
  }

  const START: Framer := Framer([], TCP_BUFFER_SIZE, [], Running)

  class KcpClient {
    const kcp: K.Endpoint
    const rcvBuf: B.Buffer
    var status: Status
    /** Messages handed to the callback. */
    var dispatched: seq<Bytes>
    /** What ikcp_recv returned, message by message. */
    ghost var pieces: seq<Bytes>

    ghost predicate Objects()
      reads this, kcp, kcp.acklist, kcp.buffer, rcvBuf, rcvBuf.data
    {
      kcp.Valid() && rcvBuf.Valid() && rcvBuf.data != kcp.buffer && (rcvBuf.data as object) != kcp.acklist
    }

    /** All that was received is framed, and every piece fitted the room left for it. */
    ghost predicate Valid()
      reads this, kcp, kcp.acklist, kcp.buffer, rcvBuf, rcvBuf.data
    {
      && Objects() && Fitting(START, pieces)
      && var f := ReceiveAll(START, pieces);
         status == f.status && dispatched == f.dispatched && (status != Hung ==> Framing() == f)
    }

    ghost function Framing(): Framer
      requires rcvBuf.Valid()
      reads this, rcvBuf, rcvBuf.data
    {
      Framer(rcvBuf.Contents(), rcvBuf.data.Length, dispatched, status)
    }

    ghost function View(): Client
      requires rcvBuf.Valid()
      reads this, kcp, rcvBuf, rcvBuf.data
    {
      Client(kcp.View(), Framing())
    }

    constructor (conv: u32)
      ensures Valid() && View() == Client(M.Create(M.ClientCfg(conv)), START) && pieces == []
    {
      hide M.Create, M.ClientCfg, Inv, Cut;
      var k := CreateKcp(conv);
      var b := new B.Buffer();
      b.SetCapacity(TCP_BUFFER_SIZE);
      kcp, rcvBuf, status, dispatched, pieces := k, b, Running, [], [];
    }

    /** KcpSendData, as the callback calls it. */
    method KcpSendAll(ms: seq<Bytes>)
      requires Valid()
      modifies kcp
      ensures Valid() && kcp.acklist == old(kcp.acklist) && kcp.buffer == old(kcp.buffer)
      ensures kcp.output == old(kcp.output) && kcp.View() == SendAll(old(kcp.View()), ms)
    {
      hide M.Send, Fitting, ReceiveAll;
      for i := 0 to |ms|
        invariant Valid() && kcp.acklist == old(kcp.acklist) && kcp.buffer == old(kcp.buffer)
        invariant kcp.output == old(kcp.output) && kcp.View() == SendAll(old(kcp.View()), ms[..i])
      {
        var ret := kcp.Send(ms[i], |ms[i]|);
        assert ms[..i + 1][..i] == ms[..i];
      }
      assert ms[..|ms|] == ms;
    }

    /** A message in the buffer goes to the framing. */
    method FramePiece(message: Bytes)
      requires Valid() && status == Running && |message| <= Room(Framing())
      modifies this, rcvBuf, rcvBuf.data
      ensures Valid() && (rcvBuf.data == old(rcvBuf.data) || fresh(rcvBuf.data))
      ensures status == Receive(old(Framing()), message).status
      ensures status != Hung ==> Framing() == Receive(old(Framing()), message)
    {
      hide Fitting, ReceiveAll, Cut;
      rcvBuf.Append(message);
      var cut;
      status, cut := StickyPacket.StickyPacket(rcvBuf, dispatched);
      dispatched := dispatched + cut;
      FittingSnoc(START, pieces, message);
      pieces := pieces + [message];
    }

    /** One message goes through ikcp_recv into the buffer and to the framing, and the callback answers. */
    method ReceiveOne(sends: seq<Bytes>) returns (nrecv: int)
      requires Valid() && status == Running
      modifies this, kcp, rcvBuf, rcvBuf.data
      ensures Valid() && kcp.acklist == old(kcp.acklist) && kcp.buffer == old(kcp.buffer)
      ensures rcvBuf.data == old(rcvBuf.data) || fresh(rcvBuf.data)
      ensures kcp.output == old(kcp.output)
      ensures nrecv >= 0 <==> Readable(old(View()))
      ensures if nrecv < 0 then View() == old(View()) && pieces == old(pieces)
              else kcp.View() == DrainOne(old(View()), sends).cb && status == DrainOne(old(View()), sends).framer.status
                   && (status != Hung ==> View() == DrainOne(old(View()), sends))
    {
      hide M.Recv, Fitting, ReceiveAll, Receive, SendAll, Inv;
      var idle := rcvBuf.Idle();
      var message;
      nrecv, message := kcp.Recv(idle);
      RecvFits(old(kcp.View()), idle);
      if nrecv < 0 { return; }
      FramePiece(message);
      KcpSendAll(sends);
    }

    /** The drain loop. */
    method DrainQueue(sends: nat -> seq<Bytes>)
      requires Valid() && status == Running
      modifies this, kcp, rcvBuf, rcvBuf.data
      ensures Valid() && kcp.acklist == old(kcp.acklist) && kcp.buffer == old(kcp.buffer)
      ensures rcvBuf.data == old(rcvBuf.data) || fresh(rcvBuf.data)
      ensures kcp.output == old(kcp.output) && status == Drain(old(View()), sends, 0).framer.status
      ensures status == Running ==> View() == Drain(old(View()), sends, 0)
    {
      hide M.Recv, Fitting, ReceiveAll, Receive, DrainOne;
      var nrecv, turn := 0, 0;
      while nrecv >= 0 && status == Running
        invariant Valid() && kcp.output == old(kcp.output) && turn >= 0
        invariant kcp.buffer == old(kcp.buffer) && kcp.acklist == old(kcp.acklist)
        invariant rcvBuf.data == old(rcvBuf.data) || fresh(rcvBuf.data)
        invariant status == Drain(old(View()), sends, 0).framer.status || status == Running
        invariant status == Running ==> Drain(old(View()), sends, 0) == Drain(View(), sends, turn)
        invariant nrecv < 0 ==> !Readable(View())
        decreases nrecv >= 0, |kcp.rx.queue| + |kcp.rx.buf|
      {
        ShrinksIfRead(View(), sends(turn));
        nrecv := ReceiveOne(sends(turn));
        if nrecv >= 0 { turn := turn + 1; }
      }
    }

    /** RcvDataToKcp: a datagram arrives, everything that became readable is drained, the clock ticks. */
    method RcvDataToKcp(datagram: Bytes, sends: nat -> seq<Bytes>, now: u32) returns (ok: bool)
      requires Valid() && status == Running
      modifies this, kcp, kcp.acklist, kcp.buffer, rcvBuf, rcvBuf.data
      ensures Valid()
      ensures var t := M.Input(old(kcp.View()), datagram);
              var c := Drain(Client(t.cb, old(Framing())), sends, 0);
              && ok == (t.ret >= 0 && c.framer.status == Running)
              && (t.ret < 0 ==> View() == Client(t.cb, old(Framing())))
              && (ok ==> View() == Client(M.Update(c.cb, now).cb, c.framer)
                         && kcp.output == old(kcp.output) + M.Update(c.cb, now).datagrams)
    {
      hide M.Input, M.Update, Fitting, ReceiveAll, Drain, Inv;
      var ret := kcp.Input(datagram);
      if ret < 0 { return false; }
      DrainQueue(sends);
      if status != Running { return false; }
      kcp.Update(now);
      return true;
    }
  }

  lemma ShrinksIfRead(c: Client, sends: seq<Bytes>)
    ensures Readable(c) ==>
              |DrainOne(c, sends).cb.rx.queue| + |DrainOne(c, sends).cb.rx.buf| < |c.cb.rx.queue| + |c.cb.rx.buf|
  {
    if Readable(c) { TurnShrinks(c, sends); }
  }
}
