/** What every state of every run of FileKcp satisfies: each program is where the messages it has heard put
    it, each endpoint has accepted what ikcp_send keeps of the calls so far, both framings lie between two
    messages, and the endpoints are linked. */
module FileKcpInvariant {
  import opened Serial
  import opened Sequences
  import opened Wire
  import opened StickyPacket
  import opened FileTransfer
  import opened FileKcp
  import M = KcpModel
  import L = KcpLink
  import I = KcpInvariant
  import R = KcpRuns
  import C = KcpClient

  // ---- the invariant ---------------------------------------------------------------

  /** A whole message for the framing, if it is not too long. */
  ghost predicate Announced(m: Bytes) {
    HEAD <= |m| == TotalLen(m)
  }

  ghost predicate Signals(ms: seq<Bytes>) {
    forall m <- ms :: Announced(m) && |m| == 12
  }

  /** Some signal carries an error code. */
  ghost predicate Complaint(ms: seq<Bytes>) {
    exists i :: 0 <= i < |ms| && Field(ms[i], HEAD) != SUCCESS
  }

  const READY: Bytes := Signal(FILE_TRAN_RSP, SUCCESS)

  /** The sender has heard these messages. */
  ghost predicate SenderOk(j: Job, s: Sender, heard: seq<Bytes>)
    requires JobOk(j)
  {
    && (s.status.Init? ==> s.calls == [])
    && (s.status.Connected? ==> s.calls == [Request(j.path, |j.file|)] && READY !in heard)
    && (!s.status.Init? && !s.status.Connected? ==> s.status.SendOver? && s.calls == Script(j))
    && (s.exited ==> Complaint(heard))
  }

  ghost predicate SendSide(j: Job, a: L.Peer, send: Sender, offered: nat, atA: Framer)
    requires JobOk(j)
  {
    && SenderOk(j, send, a.delivered) && offered <= |send.calls|
    && a.cb.cfg.mss == j.mss && a.accepted == Kept(j.mss, send.calls[..offered])
    && atA == Framer([], CAP, a.delivered, Running)
  }

  ghost predicate RecvSide(b: L.Peer, recv: Receiver, disk: seq<System>, atB: Framer) {
    && |disk| == |b.delivered| && recv == OnMessages(FRESH, b.delivered, disk)
    && b.accepted == recv.sent && Signals(recv.sent)
    && atB == Framer([], CAP, b.delivered, Running) && (forall m <- b.delivered :: |m| <= CAP)
  }

  ghost predicate Linked(a: L.Peer, b: L.Peer) {
    L.LinkInv(L.World(a, b)) && !a.cb.cfg.stream && !b.cb.cfg.stream && a.cb.cfg.mss >= 26 && b.cb.cfg.mss >= 26
  }

  ghost predicate Ok(j: Job, s: State)
    requires JobOk(j)
  {
    Linked(s.a, s.b) && SendSide(j, s.a, s.send, s.offered, s.atA) && RecvSide(s.b, s.recv, s.disk, s.atB)
  }

  // ---- messages through the framing ------------------------------------------------

  lemma OneMessage(ds: seq<Bytes>, m: Bytes)
    requires Announced(m) && |m| <= CAP
    ensures Receive(Framer([], CAP, ds, Running), m) == Framer([], CAP, ds + [m], Running)
  {
    WholeIsCut(m, []);
    assert m + [] == m && [] + m == m;
    assert Messages([]) == [] && [m] + [] == [m];
  }

  /** What one turn of the drain loop does at x: the next message accepted at y arrives whole. */
  lemma TurnDelivers(x: L.Peer, y: L.Peer)
    requires L.LinkInv(L.World(x, y)) && !y.cb.cfg.stream
    requires var f := Framer([], CAP, x.delivered, Running); CanRead(x, f)
    requires forall m <- y.accepted :: Announced(m)
    ensures var f := Framer([], CAP, x.delivered, Running);
            var m := M.Recv(x.cb, CAP).data;
            var x' := L.Act(x, M.RecvOp(CAP));
            && |m| <= CAP && x'.delivered == x.delivered + [m] <= y.accepted
            && Fed(x, f) == Framer([], CAP, x.delivered + [m], Running) && New(x.delivered, x.delivered + [m]) == [m]
            && L.LinkInv(L.World(x', y)) && x'.cb.cfg == x.cb.cfg && x'.accepted == x.accepted && x'.log == x.log
  {
    var m := M.Recv(x.cb, CAP).data;
    var x' := L.Act(x, M.RecvOp(CAP));
    ReadsOne(x, y);
    hide M.Recv, Receive, Announced, L.LinkInv, L.Act, C.Readable, New;
    DeliveredMember(x', y, m);
    OneMessage(x.delivered, m);
    NewOne(x.delivered, m);
  }

  lemma NewOne<T>(s: seq<T>, m: T)
    ensures New(s, s + [m]) == [m]
  {
  }

  lemma ReadsOne(x: L.Peer, y: L.Peer)
    requires L.LinkInv(L.World(x, y)) && M.Recv(x.cb, CAP).ret >= 0
    ensures var m := M.Recv(x.cb, CAP).data;
            var x' := L.Act(x, M.RecvOp(CAP));
            && |m| <= CAP && x'.delivered == x.delivered + [m]
            && L.LinkInv(L.World(x', y)) && x'.cb.cfg == x.cb.cfg && x'.accepted == x.accepted && x'.log == x.log
  {
    hide M.Recv, L.LinkInv;
    L.RecvKeepsLink(x, y, CAP);
    C.RecvFits(x.cb, CAP);
    L.RecvFrame(x.cb, CAP);
  }

  lemma DeliveredMember(x: L.Peer, y: L.Peer, m: Bytes)
    requires L.LinkInv(L.World(x, y)) && !y.cb.cfg.stream && m in x.delivered
    ensures x.delivered <= y.accepted && m in y.accepted
  {
    hide L.Half;
    L.HalfDelivers(y, x);
  }

  /** Sending short messages: all are accepted, and nothing is received meanwhile. */
  lemma {:induction false} OfferKeeps(x: L.Peer, y: L.Peer, ms: seq<Bytes>)
    requires L.LinkInv(L.World(x, y)) && !x.cb.cfg.stream && x.cb.cfg.mss > 0
    requires forall m <- ms :: |m| <= 127 * x.cb.cfg.mss
    ensures var t := Offer(x, ms);
            && L.LinkInv(L.World(t, y)) && t.cb.cfg == x.cb.cfg && t.delivered == x.delivered && t.log == x.log
            && t.accepted == x.accepted + ms
  {
    hide L.LinkInv, L.Act;
    if ms == [] {
      assert x.accepted + ms == x.accepted;
    } else {
      var n := |ms| - 1;
      OfferKeeps(x, y, ms[..n]);
      OneCall(Offer(x, ms[..n]), y, ms[n]);
      assert ms == ms[..n] + [ms[n]];
      Associate(x.accepted, ms[..n], [ms[n]]);
    }
  }

  /** One call of ikcp_send. */
  lemma OneCall(x: L.Peer, y: L.Peer, m: Bytes)
    requires L.LinkInv(L.World(x, y)) && !x.cb.cfg.stream && x.cb.cfg.mss > 0
    ensures var t := L.Act(x, M.SendOp(m));
            && L.LinkInv(L.World(t, y)) && t.cb.cfg == x.cb.cfg && t.delivered == x.delivered && t.log == x.log
            && t.accepted == x.accepted + if |m| <= 127 * x.cb.cfg.mss then [m] else []
  {
    hide L.LinkInv, L.Act;
    L.SendKeepsLink(x, y, m);
    SendAct(x, m);
  }

  lemma SendAct(x: L.Peer, m: Bytes)
    requires !x.cb.cfg.stream && x.cb.cfg.mss > 0
    ensures var t := L.Act(x, M.SendOp(m));
            && t.cb.cfg == x.cb.cfg && t.delivered == x.delivered && t.log == x.log
            && t.accepted == x.accepted + if |m| <= 127 * x.cb.cfg.mss then [m] else []
  {
    KcpAcceptsWhatFits(x.cb, m);
    SendFrame(x.cb, m);
    hide M.Send;
    assert m[..|m|] == m;
  }

  lemma SendFrame(s: M.Cb, m: Bytes)
    ensures M.Send(s, m, |m|).cb.cfg == s.cfg
  {
  }

  // ---- each move keeps the invariant -----------------------------------------------

  lemma CallsFront(j: Job, s: Sender, heard: seq<Bytes>)
    requires JobOk(j) && SenderOk(j, s, heard)
    ensures s.calls <= Script(j)
  {
    TransferParts(j.path, |j.file|, Parts(j), SUCCESS);
  }

  /** What the sender has put in: a front of what arrives. */
  lemma AcceptedFront(j: Job, a: L.Peer, send: Sender, offered: nat, atA: Framer)
    requires JobOk(j) && SendSide(j, a, send, offered, atA)
    ensures a.accepted <= Arriving(j)
    ensures forall m <- a.accepted :: Announced(m)
  {
    CallsFront(j, send, a.delivered);
    ArrivingIsKept(j);
    ArrivingIsAnnounced(j);
    hide SenderOk, Script, Arriving, Announced;
    KeptFront(j.mss, send.calls[..offered], Script(j));
    assert forall m <- a.accepted :: m in Arriving(j);
  }

  lemma ArrivingIsAnnounced(j: Job)
    requires JobOk(j)
    ensures forall m <- Arriving(j) :: Announced(m)
  {
    var q := KeptPieces(j.mss, Parts(j));
    KeptOfJob(j);
    TransferParts(j.path, |j.file|, q, SUCCESS);
    RequestParts(j.path, |j.file|);
    SignalParts(FILE_TRAN_END, SUCCESS);
    var s := Arriving(j);
    hide Survivors, Data, Request, Signal, Parts, KeptPieces, Arriving;
    forall m | m in s
      ensures Announced(m)
    {
      var i :| 0 <= i < |s| && s[i] == m;
      if 0 < i < |s| - 1 {
        assert s[(i - 1) + 1] == Data(q[i - 1]);
        MessageParts(FILE_TRAN_DATA, q[i - 1]);
        DataIsMessage(q[i - 1]);
      }
    }
  }

  lemma DataIsMessage(x: Bytes)
    ensures Data(x) == Message(FILE_TRAN_DATA, x)
  {
  }

  /** What was received was sent. */
  lemma LinkedDelivers(a: L.Peer, b: L.Peer)
    requires Linked(a, b)
    ensures b.delivered <= a.accepted && a.delivered <= b.accepted
  {
    hide L.Half;
    L.HalfDelivers(a, b);
    L.HalfDelivers(b, a);
  }

  /** Before StartTransf nothing is on its way. */
  lemma NothingYet(j: Job, s: State)
    requires JobOk(j) && Ok(j, s) && s.send.status.Init?
    ensures s.a.delivered == [] && s.b.accepted == []
  {
    hide Linked;
    LinkedDelivers(s.a, s.b);
  }

  lemma StartSide(j: Job, a: L.Peer, send: Sender, offered: nat, atA: Framer)
    requires JobOk(j) && SendSide(j, a, send, offered, atA) && send.status.Init? && a.delivered == []
    ensures SendSide(j, a, OnStart(send, j.path, j.file, Answer(j.mss, Request(j.path, |j.file|))), offered, atA)
  {
    RequestParts(j.path, |j.file|);
    hide Request, Kept, Complaint, Script;
    assert U32(|j.file|) == |j.file|;
    var t := OnStart(send, j.path, j.file, Answer(j.mss, Request(j.path, |j.file|)));
    assert t == Sender(FileTransfer.Status.Connected, [Request(j.path, |j.file|)], send.exited);
    assert t.calls[..offered] == send.calls[..offered];
  }

  lemma CallSide(j: Job, a: L.Peer, send: Sender, offered: nat, atA: Framer, b: L.Peer)
    requires JobOk(j) && SendSide(j, a, send, offered, atA) && offered < |send.calls| && Linked(a, b)
    ensures var t := L.Act(a, M.SendOp(send.calls[offered])); SendSide(j, t, send, offered + 1, atA) && Linked(t, b)
  {
    hide SenderOk, L.LinkInv, L.Act, Kept;
    OneCall(a, b, send.calls[offered]);
    KeptSnoc(j.mss, send.calls[..offered], send.calls[offered]);
    assert send.calls[..offered + 1] == send.calls[..offered] + [send.calls[offered]];
  }

  lemma NetFrame(p: L.Peer, op: M.Op)
    requires I.Inv(p.cb) && !op.SendOp? && !op.RecvOp?
    ensures var t := L.Act(p, op); t.accepted == p.accepted && t.delivered == p.delivered && t.cb.cfg == p.cb.cfg
  {
    R.DoKeepsInv(p.cb, op);
    hide M.Input, M.Flush, M.Update;
  }

  lemma NetLinked(x: L.Peer, y: L.Peer, op: M.Op)
    requires Linked(x, y) && Network(op, y) && |L.Act(x, op).log| < H32
    ensures var t := L.Act(x, op);
            Linked(t, y) && t.accepted == x.accepted && t.delivered == x.delivered && t.cb.cfg == x.cb.cfg
  {
    hide L.Act, L.Half, I.Inv;
    NetFrame(x, op);
    hide L.LinkInv;
    L.ActKeepsLink(x, y, op);
  }

  lemma LinkedIsSymmetric(x: L.Peer, y: L.Peer)
    requires Linked(x, y)
    ensures Linked(y, x)
  {
    hide L.LinkInv;
    L.LinkIsSymmetric(x, y);
  }

  /** What FileSend makes of one message. */
  lemma ReplyOk(j: Job, s: Sender, heard: seq<Bytes>, m: Bytes)
    requires JobOk(j) && SenderOk(j, s, heard) && !s.status.Init? && !s.exited
    ensures var t := OnReply(s, m, j.file, j.mtu, DataAnswers(j));
            SenderOk(j, t, heard + [m]) && s.calls <= t.calls
  {
    SignalParts(FILE_TRAN_RSP, SUCCESS);
    DataPhaseIsWhole(j);
    hide Script, DataPhase, Request, Signal, Counted, DataAnswers;
    assert (heard + [m])[|heard|] == m;
  }

  lemma TurnASide(j: Job, a: L.Peer, send: Sender, offered: nat, atA: Framer, b: L.Peer)
    requires JobOk(j) && SendSide(j, a, send, offered, atA) && Linked(a, b) && CanRead(a, atA)
    requires !send.status.Init? && !send.exited && forall m <- b.accepted :: Announced(m)
    ensures var (f, t) := (Fed(a, atA), L.Act(a, M.RecvOp(C.Room(atA))));
            SendSide(j, t, OnReplies(send, New(atA.dispatched, f.dispatched), j), offered, f) && Linked(t, b)
  {
    hide L.LinkInv, L.Act, Fed, CanRead, OnReply, SenderOk, Kept;
    var m := M.Recv(a.cb, CAP).data;
    TurnDelivers(a, b);
    ReplyOk(j, send, a.delivered, m);
    OneReply(j, send, m);
    assert OnReply(send, m, j.file, j.mtu, DataAnswers(j)).calls[..offered] == send.calls[..offered];
  }

  lemma OneReply(j: Job, s: Sender, m: Bytes)
    requires JobOk(j)
    ensures OnReplies(s, [m], j) == OnReply(s, m, j.file, j.mtu, DataAnswers(j))
  {
    var none: seq<Bytes> := [];
    assert [m][..0] == none;
  }

  lemma OneDelivery(r: Receiver, m: Bytes, sys: System, ms: seq<Bytes>, disk: seq<System>)
    requires |ms| == |disk| && r == OnMessages(FRESH, ms, disk)
    ensures OnMessages(r, [m], [sys]) == OnMessage(r, m, sys) == OnMessages(FRESH, ms + [m], disk + [sys])
  {
    var none: seq<Bytes> := [];
    assert [m][..0] == none && (ms + [m])[..|ms|] == ms;
    hide OnMessage;
    SameDisk(FRESH, ms, disk, disk + [sys]);
  }

  /** Only as many answers of the operating system matter as there are messages. */
  lemma {:induction false} SameDisk(r: Receiver, ms: seq<Bytes>, x: seq<System>, y: seq<System>)
    requires |ms| <= |x| && x <= y
    ensures OnMessages(r, ms, x) == OnMessages(r, ms, y)
  {
    if ms != [] {
      SameDisk(r, ms[..|ms| - 1], x, y);
    }
  }

  lemma SignalsOnly(r: Receiver, m: Bytes, sys: System)
    requires Signals(r.sent)
    ensures var t := OnMessage(r, m, sys); r.sent <= t.sent && Signals(t.sent) && Signals(New(r.sent, t.sent))
  {
    SignalParts(FILE_TRAN_RSP, SUCCESS);
    SignalParts(FILE_TRAN_RSP, INVALID_SIZE);
    SignalParts(FILE_TRAN_RSP, sys.openCode);
    SignalParts(FILE_TRAN_END, SUCCESS);
    SignalParts(FILE_TRAN_END, PEER_UNKNOWN);
    hide Signal;
    var t := OnMessage(r, m, sys);
    assert forall i :: 0 <= i < |t.sent| ==> Announced(t.sent[i]) && |t.sent[i]| == 12;
  }

  lemma TurnBSide(b: L.Peer, recv: Receiver, disk: seq<System>, atB: Framer, a: L.Peer, sys: System)
    requires RecvSide(b, recv, disk, atB) && Linked(b, a) && CanRead(b, atB) && forall m <- a.accepted :: Announced(m)
    ensures var (f, t) := (Fed(b, atB), L.Act(b, M.RecvOp(C.Room(atB))));
            var ms := New(atB.dispatched, f.dispatched);
            && |ms| == 1 && t.log == b.log
            && var r := OnMessages(recv, ms, [sys]);
               var u := Offer(t, New(recv.sent, r.sent));
               RecvSide(u, r, disk + [sys], f) && Linked(u, a)
  {
    hide L.LinkInv, L.Act, Fed, CanRead, OnMessage, OnMessages, Announced, Offer;
    var m := M.Recv(b.cb, CAP).data;
    TurnDelivers(b, a);
    var t := L.Act(b, M.RecvOp(CAP));
    OneDelivery(recv, m, sys, b.delivered, disk);
    SignalsOnly(recv, m, sys);
    AnswersAreSent(t, a, recv.sent, OnMessage(recv, m, sys).sent);
  }

  /** The new signals go out through ikcp_send. */
  lemma AnswersAreSent(t: L.Peer, a: L.Peer, before: seq<Bytes>, after: seq<Bytes>)
    requires Linked(t, a) && t.accepted == before <= after && Signals(New(before, after))
    ensures var u := Offer(t, New(before, after));
            Linked(u, a) && u.accepted == after && u.delivered == t.delivered && u.cb.cfg == t.cb.cfg
  {
    hide L.LinkInv, Announced, Offer;
    assert forall m <- New(before, after) :: |m| <= 127 * t.cb.cfg.mss;
    OfferKeeps(t, a, New(before, after));
    hide Signals;
    assert before + New(before, after) == after;
  }

  lemma SignalsAnnounced(b: L.Peer, recv: Receiver, disk: seq<System>, atB: Framer)
    requires RecvSide(b, recv, disk, atB)
    ensures forall m <- b.accepted :: Announced(m)
  {
  }

  /** Every move keeps the invariant. */
  lemma StepOk(j: Job, s: State, v: Move)
    requires JobOk(j) && Ok(j, s) && Allowed(s, v)
    requires L.Small(L.World(Next(j, s, v).a, Next(j, s, v).b))
    ensures Ok(j, Next(j, s, v))
  {
    hide Linked, SendSide, RecvSide, JobOk, L.Act, Offer, OnReplies, OnMessages, Fed, CanRead, Network, Announced;
    LinkedIsSymmetric(s.a, s.b);
    SignalsAnnounced(s.b, s.recv, s.disk, s.atB);
    AcceptedFront(j, s.a, s.send, s.offered, s.atA);
    match v
    case Start =>
      NothingYet(j, s);
      StartSide(j, s.a, s.send, s.offered, s.atA);
    case Call => CallSide(j, s.a, s.send, s.offered, s.atA, s.b);
    case NetA(op) => NetAOk(j, s, op);
    case NetB(op) => NetBOk(j, s, op);
    case TurnA => TurnAOk(j, s);
    case TurnB(sys) => TurnBOk(j, s, sys);
  }

  lemma NetAOk(j: Job, s: State, op: M.Op)
    requires JobOk(j) && Ok(j, s) && Network(op, s.b) && |L.Act(s.a, op).log| < H32
    ensures Ok(j, Next(j, s, NetA(op)))
  {
    hide Linked, SenderOk, RecvSide, L.Act, Network;
    NetLinked(s.a, s.b, op);
  }

  lemma NetBOk(j: Job, s: State, op: M.Op)
    requires JobOk(j) && Ok(j, s) && Network(op, s.a) && |L.Act(s.b, op).log| < H32
    ensures Ok(j, Next(j, s, NetB(op)))
  {
    hide Linked, SendSide, L.Act, Network, OnMessages, Signals;
    LinkedIsSymmetric(s.a, s.b);
    NetLinked(s.b, s.a, op);
    LinkedIsSymmetric(L.Act(s.b, op), s.a);
  }

  lemma TurnAOk(j: Job, s: State)
    requires JobOk(j) && Ok(j, s) && Allowed(s, TurnA)
    ensures Ok(j, Next(j, s, TurnA))
  {
    hide Linked, SendSide, RecvSide, L.Act, OnReplies, Fed, CanRead, Announced;
    SignalsAnnounced(s.b, s.recv, s.disk, s.atB);
    if s.send.status.Init? {
      NothingYet(j, s);
      ReadsSomething(j, s);
      assert false;
    } else {
      TurnASide(j, s.a, s.send, s.offered, s.atA, s.b);
    }
  }

  /** A turn of the sender's drain loop reads something the receiver sent. */
  lemma ReadsSomething(j: Job, s: State)
    requires JobOk(j) && Ok(j, s) && CanRead(s.a, s.atA)
    ensures s.b.accepted != []
  {
    hide L.LinkInv, L.Act, Fed, CanRead, OnMessages;
    TurnDelivers(s.a, s.b);
  }

  lemma TurnBOk(j: Job, s: State, sys: seq<System>)
    requires JobOk(j) && Ok(j, s) && Allowed(s, TurnB(sys))
    ensures Ok(j, Next(j, s, TurnB(sys)))
  {
    hide Linked, SendSide, RecvSide, L.Act, OnMessages, Fed, CanRead, Announced, Offer;
    AcceptedFront(j, s.a, s.send, s.offered, s.atA);
    LinkedIsSymmetric(s.a, s.b);
    TurnBSide(s.b, s.recv, s.disk, s.atB, s.a, if |sys| > 0 then sys[0] else System(0, 0));
    assert sys == [sys[0]];
    LinkedIsSymmetric(Next(j, s, TurnB(sys)).b, s.a);
  }

  lemma FreshIsEmpty(p: L.Peer)
    requires L.FreshPeer(p)
    ensures p.accepted == [] && p.delivered == [] && p.cb.cfg.mss >= 26
  {
  }

  lemma IdleSide(j: Job, a: L.Peer)
    requires JobOk(j) && a.accepted == [] && a.delivered == [] && a.cb.cfg.mss == j.mss
    ensures SendSide(j, a, IDLE, 0, C.START)
  {
    hide Script, Request, Complaint, JobOk;
    assert IDLE.calls[..0] == [];
  }

  lemma FreshSide(b: L.Peer)
    requires b.accepted == [] && b.delivered == []
    ensures RecvSide(b, FRESH, [], C.START)
  {
  }

  lemma FreshOk(j: Job, s: State)
    requires JobOk(j) && Fresh(j, s)
    ensures Ok(j, s)
  {
    hide L.LinkInv, L.FreshPeer, SendSide, RecvSide, JobOk;
    L.InitLink(L.World(s.a, s.b));
    FreshIsEmpty(s.a);
    FreshIsEmpty(s.b);
    IdleSide(j, s.a);
    FreshSide(s.b);
  }

  /** Every state of every run satisfies the invariant. */
  lemma {:induction false} RunOk(j: Job, ss: seq<State>)
    requires Run(j, ss)
    ensures Ok(j, ss[|ss| - 1])
  {
    var last := |ss| - 1;
    hide Ok, Next, Allowed, Fresh, JobOk;
    if last == 0 {
      FreshOk(j, ss[0]);
    } else {
      var front := ss[..last];
      assert forall i :: 0 <= i < last ==> front[i] == ss[i];
      RunOk(j, front);
      assert Step(j, ss[last - 1], ss[last]);
      var v :| Allowed(ss[last - 1], v) && ss[last] == Next(j, ss[last - 1], v);
      StepOk(j, ss[last - 1], v);
    }
  }
}
