/** Runs of a whole transfer over KCP, from two fresh endpoints until everything has settled, so that what
    FileKcp says of settled runs is not said of nothing: scene by scene the endpoints exchange datagrams,
    the programs read and answer, and nothing stays behind. */
module FileRun {
  import opened Serial
  import opened Sequences
  import opened Wire
  import opened StickyPacket
  import opened FileTransfer
  import opened FileKcp
  import opened FileKcpInvariant
  import opened FileOverKcp
  import opened KcpExchange
  import M = KcpModel
  import L = KcpLink
  import C = KcpClient

  // ---- one move more ---------------------------------------------------------------

  /** Both endpoints are quiet, and neither program has ended. */
  ghost predicate Stage(s: State, conv: u32, ha: Shape, hb: Shape) {
    PeerIs(s.a, conv, ha) && PeerIs(s.b, conv, hb) && !s.send.exited && !s.recv.exited
  }

  function Last(ss: seq<State>): State
    requires ss != []
  {
    ss[|ss| - 1]
  }

  lemma Extend(j: Job, ss: seq<State>, v: Move, t: State) returns (tt: seq<State>)
    requires Run(j, ss) && Allowed(Last(ss), v) && t == Next(j, Last(ss), v) && |t.a.log| < H32 && |t.b.log| < H32
    ensures Run(j, tt) && tt != [] && Last(tt) == t
  {
    tt := ss + [t];
    hide Next, Allowed, JobOk, FileKcp.Fresh;
    forall i | 0 <= i < |tt| - 1
      ensures Step(j, tt[i], tt[i + 1])
    {
      if i < |ss| - 1 { assert Step(j, ss[i], ss[i + 1]); }
    }
  }

  /** The calls that network moves make change nothing of the programs. */
  ghost predicate SamePrograms(s: State, t: State) {
    && t.send == s.send && t.offered == s.offered && t.atA == s.atA && t.recv == s.recv && t.disk == s.disk && t.atB == s.atB
    && t.a.delivered == s.a.delivered && t.b.delivered == s.b.delivered
  }

  lemma MoveA(j: Job, ss: seq<State>, op: M.Op) returns (tt: seq<State>)
    requires Run(j, ss) && !Last(ss).send.exited && Network(op, Last(ss).b)
    requires |L.Act(Last(ss).a, op).log| < H32 && |Last(ss).b.log| < H32
    ensures Run(j, tt) && Last(tt) == Last(ss).(a := L.Act(Last(ss).a, op))
  {
    hide Run, L.Act;
    JobOfRun(j, ss);
    tt := Extend(j, ss, NetA(op), Last(ss).(a := L.Act(Last(ss).a, op)));
  }

  lemma MoveB(j: Job, ss: seq<State>, op: M.Op) returns (tt: seq<State>)
    requires Run(j, ss) && !Last(ss).recv.exited && Network(op, Last(ss).a)
    requires |L.Act(Last(ss).b, op).log| < H32 && |Last(ss).a.log| < H32
    ensures Run(j, tt) && Last(tt) == Last(ss).(b := L.Act(Last(ss).b, op))
  {
    hide Run, L.Act;
    JobOfRun(j, ss);
    tt := Extend(j, ss, NetB(op), Last(ss).(b := L.Act(Last(ss).b, op)));
  }

  lemma JobOfRun(j: Job, ss: seq<State>)
    requires Run(j, ss)
    ensures JobOk(j) && ss != []
  {
  }

  lemma LogIsSmall(p: L.Peer, conv: u32, h: Shape)
    requires PeerIs(p, conv, h)
    ensures |p.log| < H32
  {
  }

  /** The sender's endpoint flushes, and the datagram arrives. */
  lemma FromAToB(j: Job, ss: seq<State>, conv: u32, ha: Shape, hb: Shape, now: u32) returns (tt: seq<State>)
    requires Run(j, ss) && Stage(Last(ss), conv, ha, hb) && Continues(hb, ha)
    requires ha.flying == 0 && ha.acks + |ha.queued| > 0 && ha.sent + |ha.queued| < 100 && M.Tick(ha.clock, 10, now).due
    ensures Run(j, tt) && SamePrograms(Last(ss), Last(tt))
    ensures Stage(Last(tt), conv, Gone(ha, now), Taken(hb, ha, ha.acks + |ha.queued|))
  {
    hide Run, PeerIs, L.Act, M.Tick, Continues;
    JobOfRun(j, ss);
    var s := Last(ss);
    var d, ps := ActUpdateIs(s.a, conv, ha, now);
    ActInputIs(s.b, conv, hb, ha, ps, d);
    LogIsSmall(s.b, conv, hb);
    LogIsSmall(L.Act(s.a, M.UpdateOp(now)), conv, Gone(ha, now));
    LogIsSmall(L.Act(s.b, M.InputOp(d)), conv, Taken(hb, ha, |ps|));
    var mid := MoveA(j, ss, M.UpdateOp(now));
    tt := MoveB(j, mid, M.InputOp(d));
  }

  /** The receiver's endpoint flushes, and the datagram arrives. */
  lemma FromBToA(j: Job, ss: seq<State>, conv: u32, ha: Shape, hb: Shape, now: u32) returns (tt: seq<State>)
    requires Run(j, ss) && Stage(Last(ss), conv, ha, hb) && Continues(ha, hb)
    requires hb.flying == 0 && hb.acks + |hb.queued| > 0 && hb.sent + |hb.queued| < 100 && M.Tick(hb.clock, 10, now).due
    ensures Run(j, tt) && SamePrograms(Last(ss), Last(tt))
    ensures Stage(Last(tt), conv, Taken(ha, hb, hb.acks + |hb.queued|), Gone(hb, now))
  {
    hide Run, PeerIs, L.Act, M.Tick, Continues;
    JobOfRun(j, ss);
    var s := Last(ss);
    var d, ps := ActUpdateIs(s.b, conv, hb, now);
    ActInputIs(s.a, conv, ha, hb, ps, d);
    LogIsSmall(s.a, conv, ha);
    LogIsSmall(L.Act(s.b, M.UpdateOp(now)), conv, Gone(hb, now));
    LogIsSmall(L.Act(s.a, M.InputOp(d)), conv, Taken(ha, hb, |ps|));
    var mid := MoveB(j, ss, M.UpdateOp(now));
    tt := MoveA(j, mid, M.InputOp(d));
  }

  // ---- the programs ----------------------------------------------------------------

  lemma ProgramRoom(j: Job, ss: seq<State>)
    requires Run(j, ss)
    ensures var s := Last(ss);
            && JobOk(j) && Ok(j, s)
            && s.atA == Framer([], CAP, s.a.delivered, Running) && s.atB == Framer([], CAP, s.b.delivered, Running)
  {
    RunOk(j, ss);
    hide Run, Linked, SenderOk;
  }

  function AfterSend(h: Shape, m: Bytes): Shape {
    if |m| <= SHORT then Sent(h, m) else h
  }

  lemma SendOrRefuse(p: L.Peer, conv: u32, h: Shape, m: Bytes)
    requires PeerIs(p, conv, h) && (|m| > 127 * 1376 || (|m| <= SHORT && |h.queued| < 2))
    ensures var t := L.Act(p, M.SendOp(m)); PeerIs(t, conv, AfterSend(h, m)) && t.delivered == p.delivered
  {
    hide PeerIs, L.Act;
    if |m| <= SHORT {
      SendIs(p, conv, h, m);
    } else {
      RefusedIs(p, conv, h, m);
    }
  }

  lemma MayCall(j: Job, s: State)
    requires JobOk(j) && !s.send.exited && s.offered < |s.send.calls|
    ensures Allowed(s, Call)
    ensures Next(j, s, Call) == s.(a := L.Act(s.a, M.SendOp(s.send.calls[s.offered])), offered := s.offered + 1)
  {
    hide L.Act, JobOk;
  }

  lemma StageParts(s: State, conv: u32, ha: Shape, hb: Shape)
    requires Stage(s, conv, ha, hb)
    ensures PeerIs(s.a, conv, ha) && PeerIs(s.b, conv, hb) && !s.send.exited && !s.recv.exited
  {
  }

  lemma StageIs(s: State, conv: u32, ha: Shape, hb: Shape)
    requires PeerIs(s.a, conv, ha) && PeerIs(s.b, conv, hb) && !s.send.exited && !s.recv.exited
    ensures Stage(s, conv, ha, hb)
  {
  }

  /** One call of _send_data: a short message is queued, one that is too long is refused. */
  lemma OneSend(j: Job, ss: seq<State>, conv: u32, ha: Shape, hb: Shape, m: Bytes) returns (tt: seq<State>)
    requires Run(j, ss) && ss != [] && Stage(Last(ss), conv, ha, hb) && Last(ss).offered < |Last(ss).send.calls|
    requires m == Last(ss).send.calls[Last(ss).offered] && (|m| > 127 * 1376 || (|m| <= SHORT && |ha.queued| < 2))
    ensures Run(j, tt) && tt != [] && Stage(Last(tt), conv, AfterSend(ha, m), hb)
    ensures var (s, t) := (Last(ss), Last(tt)); t == s.(a := t.a, offered := s.offered + 1) && t.a.delivered == s.a.delivered
  {
    hide *;
    var s := Last(ss);
    var t := s.(a := L.Act(s.a, M.SendOp(m)), offered := s.offered + 1);
    JobOfRun(j, ss);
    StageParts(s, conv, ha, hb);
    SendOrRefuse(s.a, conv, ha, m);
    MayCall(j, s);
    LogIsSmall(s.b, conv, hb);
    LogIsSmall(t.a, conv, AfterSend(ha, m));
    tt := Extend(j, ss, Call, t);
    StageIs(t, conv, AfterSend(ha, m), hb);
  }

  lemma RefusedIs(p: L.Peer, conv: u32, h: Shape, m: Bytes)
    requires PeerIs(p, conv, h) && |m| > 127 * 1376
    ensures var t := L.Act(p, M.SendOp(m)); PeerIs(t, conv, h) && t.delivered == p.delivered && t.wire == p.wire
  {
    KcpAcceptsWhatFits(p.cb, m);
    FewSegments(|m|, 1376);
    assert M.Send(p.cb, m, |m|).cb == p.cb;
  }

  /** The disk does its part. */
  const FINE: System := System(0, M32)

  /** What a turn of the drain loop reads. */
  lemma ReadsNext(x: L.Peer, y: L.Peer, conv: u32, h: Shape)
    requires PeerIs(x, conv, h) && h.ready != [] && |h.ready[0]| <= SHORT
    requires L.LinkInv(L.World(x, y)) && !y.cb.cfg.stream && forall m <- y.accepted :: Announced(m)
    ensures var (f, m) := (Framer([], CAP, x.delivered, Running), h.ready[0]);
            && CanRead(x, f) && Fed(x, f) == Framer([], CAP, x.delivered + [m], Running)
            && New(x.delivered, x.delivered + [m]) == [m]
            && var t := L.Act(x, M.RecvOp(CAP)); t.delivered == x.delivered + [m] && PeerIs(t, conv, h.(ready := h.ready[1..]))
  {
    hide PeerIs, L.Act, M.Recv, L.LinkInv, Announced;
    RecvIs(x, conv, h, CAP);
    TurnDelivers(x, y);
  }

  lemma NextB(j: Job, s: State, m: Bytes, r: Receiver)
    requires JobOk(j) && s.atB == Framer([], CAP, s.b.delivered, Running) && !s.recv.exited && CanRead(s.b, s.atB)
    requires Fed(s.b, s.atB) == Framer([], CAP, s.b.delivered + [m], Running)
    requires New(s.b.delivered, s.b.delivered + [m]) == [m] && OnMessages(s.recv, [m], [FINE]) == r
    ensures Allowed(s, TurnB([FINE]))
    ensures Next(j, s, TurnB([FINE]))
         == s.(b := Offer(L.Act(s.b, M.RecvOp(CAP)), New(s.recv.sent, r.sent)), recv := r, disk := s.disk + [FINE],
               atB := Framer([], CAP, s.b.delivered + [m], Running))
  {
    hide CanRead, Fed, OnMessages, Offer, L.Act, New, JobOk;
  }

  /** What a turn of the receiver's drain loop needs to know of the state. */
  lemma BeforeTurnB(j: Job, s: State, conv: u32, hb: Shape, r: Receiver)
    requires JobOk(j) && Ok(j, s) && PeerIs(s.b, conv, hb) && hb.ready != [] && |hb.ready[0]| <= SHORT
    requires r == OnMessage(s.recv, hb.ready[0], FINE)
    ensures var m := hb.ready[0];
            && s.atB == Framer([], CAP, s.b.delivered, Running) && CanRead(s.b, s.atB)
            && Fed(s.b, s.atB) == Framer([], CAP, s.b.delivered + [m], Running)
            && New(s.b.delivered, s.b.delivered + [m]) == [m] && OnMessages(s.recv, [m], [FINE]) == r
            && Signals(New(s.recv.sent, r.sent))
    ensures var t := L.Act(s.b, M.RecvOp(CAP));
            t.delivered == s.b.delivered + [hb.ready[0]] && PeerIs(t, conv, hb.(ready := hb.ready[1..]))
  {
    AcceptedFront(j, s.a, s.send, s.offered, s.atA);
    LinkedIsSymmetric(s.a, s.b);
    hide PeerIs, L.Act, M.Recv, L.LinkInv, Announced, SenderOk, SendSide, Fed, CanRead, OnMessage, OnMessages, New;
    ReadsNext(s.b, s.a, conv, hb);
    OneDelivery(s.recv, hb.ready[0], FINE, s.b.delivered, s.disk);
    SignalsOnly(s.recv, hb.ready[0], FINE);
  }

  /** A turn of the receiver's drain loop. */
  lemma OneTurnB(j: Job, ss: seq<State>, conv: u32, ha: Shape, hb: Shape, r: Receiver) returns (tt: seq<State>)
    requires Run(j, ss) && Stage(Last(ss), conv, ha, hb) && hb.ready != [] && |hb.ready[0]| <= SHORT
    requires r == OnMessage(Last(ss).recv, hb.ready[0], FINE) && !r.exited
    requires |New(Last(ss).recv.sent, r.sent)| <= 1 && |hb.queued| + |New(Last(ss).recv.sent, r.sent)| <= 2
    ensures Run(j, tt)
    ensures var (s, t) := (Last(ss), Last(tt));
            && Stage(t, conv, ha, hb.(ready := hb.ready[1..], queued := hb.queued + New(s.recv.sent, r.sent)))
            && t == s.(b := t.b, recv := r, disk := s.disk + [FINE], atB := t.atB)
            && t.b.delivered == s.b.delivered + [hb.ready[0]]
  {
    ProgramRoom(j, ss);
    hide Run, PeerIs, L.Act, Fed, CanRead, OnMessage, OnMessages, Ok, JobOk, New, Offer;
    var s := Last(ss);
    BeforeTurnB(j, s, conv, hb, r);
    NextB(j, s, hb.ready[0], r);
    var t, answers := L.Act(s.b, M.RecvOp(CAP)), New(s.recv.sent, r.sent);
    AreShort(answers);
    OfferIs(t, conv, hb.(ready := hb.ready[1..]), answers);
    LogIsSmall(s.a, conv, ha);
    LogIsSmall(Offer(t, answers), conv, hb.(ready := hb.ready[1..], queued := hb.queued + answers));
    hide Signals, Allowed, Next;
    tt := Extend(j, ss, TurnB([FINE]),
                 s.(b := Offer(t, answers), recv := r, disk := s.disk + [FINE],
                    atB := Framer([], CAP, s.b.delivered + [hb.ready[0]], Running)));
  }

  lemma AreShort(ms: seq<Bytes>)
    requires Signals(ms)
    ensures forall m <- ms :: |m| <= SHORT
  {
  }

  lemma OfferIs(p: L.Peer, conv: u32, h: Shape, ms: seq<Bytes>)
    requires PeerIs(p, conv, h) && |ms| <= 1 && |h.queued| + |ms| <= 2 && forall m <- ms :: |m| <= SHORT
    ensures PeerIs(Offer(p, ms), conv, h.(queued := h.queued + ms)) && Offer(p, ms).delivered == p.delivered
  {
    if ms == [] {
      assert h.(queued := h.queued + ms) == h;
    } else {
      assert ms[..0] == [] && h.queued + ms == h.queued + [ms[0]];
      SendIs(p, conv, h, ms[0]);
    }
  }

  /** FileSend handles one message of the receiver. */
  function Answered(j: Job, s: Sender, m: Bytes): Sender
    requires JobOk(j)
  {
    OnReply(s, m, j.file, j.mtu, DataAnswers(j))
  }

  lemma NextA(j: Job, s: State, m: Bytes, r: Sender)
    requires JobOk(j) && s.atA == Framer([], CAP, s.a.delivered, Running) && !s.send.exited && CanRead(s.a, s.atA)
    requires Fed(s.a, s.atA) == Framer([], CAP, s.a.delivered + [m], Running)
    requires New(s.a.delivered, s.a.delivered + [m]) == [m] && OnReplies(s.send, [m], j) == r
    ensures Allowed(s, TurnA)
    ensures Next(j, s, TurnA)
         == s.(a := L.Act(s.a, M.RecvOp(CAP)), send := r, atA := Framer([], CAP, s.a.delivered + [m], Running))
  {
    hide CanRead, Fed, OnReplies, L.Act, New, JobOk;
  }

  lemma BeforeTurnA(j: Job, s: State, conv: u32, ha: Shape)
    requires JobOk(j) && Ok(j, s) && PeerIs(s.a, conv, ha) && ha.ready != [] && |ha.ready[0]| <= SHORT
    ensures var m := ha.ready[0];
            && s.atA == Framer([], CAP, s.a.delivered, Running) && CanRead(s.a, s.atA)
            && Fed(s.a, s.atA) == Framer([], CAP, s.a.delivered + [m], Running)
            && New(s.a.delivered, s.a.delivered + [m]) == [m] && OnReplies(s.send, [m], j) == Answered(j, s.send, m)
    ensures var t := L.Act(s.a, M.RecvOp(CAP));
            t.delivered == s.a.delivered + [ha.ready[0]] && PeerIs(t, conv, ha.(ready := ha.ready[1..]))
  {
    SignalsAnnounced(s.b, s.recv, s.disk, s.atB);
    OneReply(j, s.send, ha.ready[0]);
    hide PeerIs, L.Act, M.Recv, L.LinkInv, Announced, SenderOk, RecvSide, Fed, CanRead, OnReply, OnReplies, New, Kept;
    ReadsNext(s.a, s.b, conv, ha);
  }

  /** A turn of the sender's drain loop. */
  lemma OneTurnA(j: Job, ss: seq<State>, conv: u32, ha: Shape, hb: Shape) returns (tt: seq<State>)
    requires JobOk(j) && Run(j, ss) && Stage(Last(ss), conv, ha, hb) && ha.ready != [] && |ha.ready[0]| <= SHORT
    requires !Answered(j, Last(ss).send, ha.ready[0]).exited
    ensures Run(j, tt)
    ensures var (s, t) := (Last(ss), Last(tt));
            && Stage(t, conv, ha.(ready := ha.ready[1..]), hb)
            && t == s.(a := t.a, send := Answered(j, s.send, ha.ready[0]), atA := t.atA)
            && t.a.delivered == s.a.delivered + [ha.ready[0]]
  {
    ProgramRoom(j, ss);
    hide Run, PeerIs, L.Act, Fed, CanRead, OnReply, OnReplies, Ok, New, Answered;
    var s := Last(ss);
    BeforeTurnA(j, s, conv, ha);
    NextA(j, s, ha.ready[0], Answered(j, s.send, ha.ready[0]));
    LogIsSmall(s.b, conv, hb);
    LogIsSmall(L.Act(s.a, M.RecvOp(CAP)), conv, ha.(ready := ha.ready[1..]));
    hide Allowed, Next, JobOk;
    tt := Extend(j, ss, TurnA,
                 s.(a := L.Act(s.a, M.RecvOp(CAP)), send := Answered(j, s.send, ha.ready[0]),
                    atA := Framer([], CAP, s.a.delivered + [ha.ready[0]], Running)));
  }

  // ---- all the calls ---------------------------------------------------------------

  /** Every message is short, or refused. */
  ghost predicate ShortOrRefused(j: Job, ms: seq<Bytes>) {
    forall i :: 0 <= i < |ms| ==> |ms[i]| > 127 * j.mss || |ms[i]| <= SHORT
  }

  lemma FewerShort(j: Job, ms: seq<Bytes>)
    requires ShortOrRefused(j, ms) && ms != []
    ensures ShortOrRefused(j, ms[1..])
  {
  }

  lemma KeptHead(mss: u32, ms: seq<Bytes>, k: nat)
    requires k < |ms|
    ensures Kept(mss, ms[k..]) == (if |ms[k]| <= 127 * mss then [ms[k]] else []) + Kept(mss, ms[k + 1..])
  {
    KeptConcat(mss, [ms[k]], ms[k + 1..]);
    assert ms[k..] == [ms[k]] + ms[k + 1..];
    var none: seq<Bytes> := [];
    KeptSnoc(mss, none, ms[k]);
    assert none + [ms[k]] == [ms[k]];
  }

  /** The remaining calls can all be made. */
  ghost predicate CanSendAll(j: Job, h: Shape, calls: seq<Bytes>, k: nat) {
    && j.mss == 1376 && k <= |calls| && ShortOrRefused(j, calls[k..])
    && |h.queued| + |Kept(j.mss, calls[k..])| <= 2
  }

  function AfterAll(j: Job, h: Shape, calls: seq<Bytes>, k: nat): Shape
    requires k <= |calls|
  {
    h.(queued := h.queued + Kept(j.mss, calls[k..]))
  }

  /** The data phase: every remaining call is made. */
  lemma {:induction false} AllSends(j: Job, ss: seq<State>, conv: u32, ha: Shape, hb: Shape, calls: seq<Bytes>, k: nat)
    returns (tt: seq<State>)
    requires Run(j, ss) && ss != [] && Stage(Last(ss), conv, ha, hb)
    requires Last(ss).send.calls == calls && Last(ss).offered == k && CanSendAll(j, ha, calls, k)
    ensures Run(j, tt) && tt != [] && k <= |calls| && Stage(Last(tt), conv, AfterAll(j, ha, calls, k), hb)
    ensures var (s, t) := (Last(ss), Last(tt)); t == s.(a := t.a, offered := |calls|) && t.a.delivered == s.a.delivered
    decreases |calls| - k
  {
    hide *;
    CanSendParts(j, ha, calls, k);
    if k == |calls| {
      NoneOffered(j, calls, ha);
      tt := ss;
    } else {
      OneOffered(j, calls, ha, k);
      var mid := OneSend(j, ss, conv, ha, hb, calls[k]);
      tt := AllSends(j, mid, conv, AfterSend(ha, calls[k]), hb, calls, k + 1);
    }
  }

  lemma CanSendParts(j: Job, h: Shape, calls: seq<Bytes>, k: nat)
    requires CanSendAll(j, h, calls, k)
    ensures k <= |calls|
  {
  }

  lemma NoneOffered(j: Job, calls: seq<Bytes>, h: Shape)
    ensures AfterAll(j, h, calls, |calls|) == h
  {
    assert calls[|calls|..] == [] && h.queued + [] == h.queued;
  }

  lemma OneOffered(j: Job, calls: seq<Bytes>, h: Shape, k: nat)
    requires k < |calls| && CanSendAll(j, h, calls, k)
    ensures var (m, g) := (calls[k], AfterSend(h, calls[k]));
            && (|m| > 127 * 1376 || (|m| <= SHORT && |h.queued| < 2))
            && CanSendAll(j, g, calls, k + 1) && AfterAll(j, h, calls, k) == AfterAll(j, g, calls, k + 1)
  {
    KeptHead(j.mss, calls, k);
    assert calls[k..][0] == calls[k] && calls[k..][1..] == calls[k + 1..];
    FewerShort(j, calls[k..]);
    hide Kept;
    Associate(h.queued, if |calls[k]| <= 127 * j.mss then [calls[k]] else [], Kept(j.mss, calls[k + 1..]));
    assert h.queued + [] == h.queued;
  }

  // ---- what the receiver makes of it -----------------------------------------------

  function Fine(k: nat): seq<System> {
    seq(k, i requires 0 <= i < k => FINE)
  }

  /** The job is small: one piece is accepted, and it is short. */
  ghost predicate Small(j: Job, x: Bytes) {
    JobOk(j) && j.mss == 1376 && KeptPieces(j.mss, Parts(j)) == [x] && HEAD + |x| <= SHORT
  }

  function Script3(j: Job, x: Bytes): seq<Bytes> {
    [Request(j.path, U32(|j.file|)), Data(x), Signal(FILE_TRAN_END, SUCCESS)]
  }

  lemma SmallArrives(j: Job, x: Bytes)
    requires Small(j, x)
    ensures Arriving(j) == Script3(j, x) && Survivors([x], |j.file|)
    ensures forall m <- Script3(j, x) :: |m| <= SHORT
  {
    KeptOfJob(j);
    assert U32(|j.file|) == |j.file|;
    ThreeMessages(Request(j.path, |j.file|), x, Signal(FILE_TRAN_END, SUCCESS));
    hide Parts, KeptPieces, Request, Data, Signal, Survivors, DataMessages;
    ThreeAreShort(j, x);
  }

  lemma ThreeAreShort(j: Job, x: Bytes)
    requires |j.path| == PATH_SIZE && HEAD + |x| <= SHORT
    ensures forall m <- Script3(j, x) :: |m| <= SHORT
  {
    RequestParts(j.path, U32(|j.file|));
    SignalParts(FILE_TRAN_END, SUCCESS);
    DataLength(x);
    hide Request, Data, Signal;
  }

  lemma ThreeMessages(first: Bytes, x: Bytes, last: Bytes)
    ensures [first] + (DataMessages([x]) + [last]) == [first, Data(x), last]
  {
    hide Data;
    assert DataMessages([x]) == [Data(x)];
  }

  /** The calls after the request. */
  lemma SmallCalls(j: Job, x: Bytes)
    requires Small(j, x)
    ensures Script(j) != [] && Script(j)[0] == Request(j.path, U32(|j.file|)) && |Script(j)[0]| == 268
    ensures Kept(j.mss, Script(j)[1..]) == Script3(j, x)[1..] && ShortOrRefused(j, Script(j)[1..])
  {
    SmallArrives(j, x);
    ScriptHead(j);
    ArrivingIsKept(j);
    AllShortOrRefused(j, x);
    hide Request, Data, Signal, Script, Kept, KeptPieces, Arriving, ShortOrRefused;
    KeptHead(j.mss, Script(j), 0);
    WithoutHead(Script(j), Kept(j.mss, Script(j)[1..]), Kept(j.mss, Script(j)));
  }

  lemma ScriptHead(j: Job)
    requires JobOk(j)
    ensures Script(j) != [] && Script(j)[0] == Request(j.path, U32(|j.file|)) && |Script(j)[0]| == 268
  {
    RequestParts(j.path, |j.file|);
    TransferParts(j.path, |j.file|, Parts(j), SUCCESS);
    hide Request, Transfer, Parts;
    assert U32(|j.file|) == |j.file|;
  }

  lemma WithoutHead(all: seq<Bytes>, rest: seq<Bytes>, kept: seq<Bytes>)
    requires all != [] && kept == [all[0]] + rest
    ensures kept[1..] == rest && all[0..] == all
  {
  }

  lemma {:induction false} KeptHas(mss: u32, ms: seq<Bytes>, i: nat)
    requires i < |ms| && |ms[i]| <= 127 * mss
    ensures ms[i] in Kept(mss, ms)
  {
    if i < |ms| - 1 { KeptHas(mss, ms[..|ms| - 1], i); }
  }

  lemma AllShortOrRefused(j: Job, x: Bytes)
    requires JobOk(j) && Kept(j.mss, Script(j)) == Script3(j, x) && forall m <- Script3(j, x) :: |m| <= SHORT
    ensures ShortOrRefused(j, Script(j)[1..])
  {
    var all: seq<Bytes> := Script(j);
    hide Script, Kept, Script3;
    forall i | 0 <= i < |all|
      ensures |all[i]| > 127 * j.mss || |all[i]| <= SHORT
    {
      if |all[i]| <= 127 * j.mss { KeptHas(j.mss, all, i); }
    }
    if all != [] { FewerShort(j, all); }
  }

  /** Each message is handled without ending the program, and with at most one answer. */
  lemma Handles(j: Job, x: Bytes, k: nat)
    requires Small(j, x) && k < 3
    ensures var r := OnMessages(FRESH, Script3(j, x)[..k], Fine(k));
            var t := OnMessage(r, Script3(j, x)[k], FINE);
            && t == OnMessages(FRESH, Script3(j, x)[..k + 1], Fine(k + 1)) && !t.exited && |New(r.sent, t.sent)| <= 1
            && (k == 0 ==> t.sent == [READY]) && (k == 2 ==> t.sent == r.sent)
  {
    SmallArrives(j, x);
    HandledNext(j, x, k);
    var s := Script3(j, x);
    if k == 0 { FirstIsReady(j, x); }
    if k == 2 { EndIsSilent(OnMessages(FRESH, s[..2], Fine(2))); }
    hide Signal, Request, Data, OnMessages, OnMessage, Arriving, Survivors;
    AtMostOne(OnMessages(FRESH, s[..k], Fine(k)), s[k], FINE);
  }

  lemma HandledNext(j: Job, x: Bytes, k: nat)
    requires Small(j, x) && k < 3 && Arriving(j) == Script3(j, x) && Survivors([x], |j.file|)
    ensures var r := OnMessages(FRESH, Script3(j, x)[..k], Fine(k));
            var t := OnMessage(r, Script3(j, x)[k], FINE);
            t == OnMessages(FRESH, Script3(j, x)[..k + 1], Fine(k + 1)) && !t.exited
  {
    var s := Script3(j, x);
    TransferArrives(j.path, |j.file|, [x], SUCCESS, k + 1, Fine(k + 1));
    assert Transfer(j.path, |j.file|, [x], SUCCESS) == s;
    hide Signal, Request, Data, Script3, OnMessages, OnMessage, Arriving, Survivors, Told, Arrived, Transfer;
    assert s[..k + 1] == s[..k] + [s[k]] && Fine(k + 1) == Fine(k) + [FINE];
    OneDelivery(OnMessages(FRESH, s[..k], Fine(k)), s[k], FINE, s[..k], Fine(k));
  }

  lemma FirstIsReady(j: Job, x: Bytes)
    requires Small(j, x)
    ensures OnMessage(OnMessages(FRESH, Script3(j, x)[..0], Fine(0)), Script3(j, x)[0], FINE).sent == [READY]
  {
    assert U32(|j.file|) == |j.file| && Script3(j, x)[..0] == [];
    ReadySent(j.path, |j.file|, FINE);
    hide Request, Signal, OnMessage;
  }

  lemma EndIsSilent(r: Receiver)
    ensures OnMessage(r, Signal(FILE_TRAN_END, SUCCESS), FINE).sent == r.sent
  {
    SignalParts(FILE_TRAN_END, SUCCESS);
    hide Signal;
  }

  lemma AtMostOne(r: Receiver, m: Bytes, sys: System)
    ensures |New(r.sent, OnMessage(r, m, sys).sent)| <= 1
  {
    hide Signal;
  }

  // ---- scenes ----------------------------------------------------------------------

  const T0: M.Clock := M.Clock(0, M.INTERVAL, false)
  const T1: M.Clock := M.Clock(0, 10, true)
  const T2: M.Clock := M.Clock(10, 20, true)
  const T3: M.Clock := M.Clock(20, 30, true)

  lemma Ticks()
    ensures M.Tick(T0, 10, 0) == M.Ticked(T1, true)
    ensures M.Tick(T1, 10, 10) == M.Ticked(T2, true)
    ensures M.Tick(T2, 10, 20) == M.Ticked(T3, true)
  {
  }

  /** Both endpoints and both programs: what each has received, and how often the disk was asked. */
  datatype Scene = Scene(a: Shape, b: Shape, send: Sender, offered: nat, recv: Receiver, heard: seq<Bytes>, got: seq<Bytes>, fine: nat)

  ghost predicate Shows(s: State, conv: u32, c: Scene) {
    && Stage(s, conv, c.a, c.b) && s.send == c.send && s.offered == c.offered && s.recv == c.recv
    && s.a.delivered == c.heard && s.b.delivered == c.got && s.disk == Fine(c.fine)
  }

  ghost predicate Reached(j: Job, conv: u32, ss: seq<State>, c: Scene) {
    Run(j, ss) && Shows(Last(ss), conv, c)
  }

  lemma ReachedParts(j: Job, conv: u32, ss: seq<State>, c: Scene)
    requires Reached(j, conv, ss, c)
    ensures Run(j, ss) && ss != [] && Shows(Last(ss), conv, c)
  {
  }

  lemma ShowsParts(s: State, conv: u32, c: Scene)
    requires Shows(s, conv, c)
    ensures Stage(s, conv, c.a, c.b) && s.send == c.send && s.offered == c.offered && s.recv == c.recv
  {
  }

  lemma ReachedIs(j: Job, conv: u32, ss: seq<State>, c: Scene)
    requires Run(j, ss) && ss != [] && Shows(Last(ss), conv, c)
    ensures Reached(j, conv, ss, c)
  {
  }

  /** What the sender's endpoint sends is received in order, and acknowledges all that was outstanding. */
  ghost predicate Sendable(g: Shape, h: Shape, now: u32) {
    && Continues(h, g) && g.flying == 0 && g.acks + |g.queued| > 0 && g.sent + |g.queued| < 100
    && M.Tick(g.clock, 10, now).due
  }

  function Come(h: Shape, g: Shape): Shape {
    h.(flying := 0, next := h.next + |g.queued|, ready := h.ready + g.queued, acks := h.acks + |g.queued|)
  }

  lemma Takes(h: Shape, g: Shape)
    requires g.acks + |g.queued| > 0
    ensures Taken(h, g, g.acks + |g.queued|) == Come(h, g)
  {
    assert g.queued[..|g.queued|] == g.queued;
    assert |g.queued| == 0 ==> h.ready + g.queued == h.ready;
  }

  lemma SameShown(s: State, t: State, conv: u32, c: Scene, a: Shape, b: Shape)
    requires Shows(s, conv, c) && SamePrograms(s, t) && Stage(t, conv, a, b)
    ensures Shows(t, conv, c.(a := a, b := b))
  {
  }

  lemma AToB(j: Job, conv: u32, ss: seq<State>, c: Scene, now: u32) returns (tt: seq<State>)
    requires Reached(j, conv, ss, c) && Sendable(c.a, c.b, now)
    ensures Reached(j, conv, tt, c.(a := Gone(c.a, now), b := Come(c.b, c.a)))
  {
    Takes(c.b, c.a);
    hide Run, Stage, Reached, Shows, Taken, Come;
    ReachedParts(j, conv, ss, c);
    ShowsParts(Last(ss), conv, c);
    tt := FromAToB(j, ss, conv, c.a, c.b, now);
    JobOfRun(j, tt);
    SameShown(Last(ss), Last(tt), conv, c, Gone(c.a, now), Come(c.b, c.a));
    ReachedIs(j, conv, tt, c.(a := Gone(c.a, now), b := Come(c.b, c.a)));
  }

  lemma BToA(j: Job, conv: u32, ss: seq<State>, c: Scene, now: u32) returns (tt: seq<State>)
    requires Reached(j, conv, ss, c) && Sendable(c.b, c.a, now)
    ensures Reached(j, conv, tt, c.(b := Gone(c.b, now), a := Come(c.a, c.b)))
  {
    Takes(c.a, c.b);
    hide Run, Stage, Reached, Shows, Taken, Come;
    ReachedParts(j, conv, ss, c);
    ShowsParts(Last(ss), conv, c);
    tt := FromBToA(j, ss, conv, c.a, c.b, now);
    JobOfRun(j, tt);
    SameShown(Last(ss), Last(tt), conv, c, Come(c.a, c.b), Gone(c.b, now));
    ReachedIs(j, conv, tt, c.(b := Gone(c.b, now), a := Come(c.a, c.b)));
  }

  /** The receiver handles the next message. */
  ghost predicate Handled(c: Scene, r: Receiver) {
    && c.b.ready != [] && |c.b.ready[0]| <= SHORT && r == OnMessage(c.recv, c.b.ready[0], FINE) && !r.exited
    && |New(c.recv.sent, r.sent)| <= 1 && |c.b.queued| + |New(c.recv.sent, r.sent)| <= 2
  }

  function AfterB(c: Scene, r: Receiver): Scene
    requires c.b.ready != []
  {
    c.(b := c.b.(ready := c.b.ready[1..], queued := c.b.queued + New(c.recv.sent, r.sent)),
       recv := r, got := c.got + [c.b.ready[0]], fine := c.fine + 1)
  }

  lemma ShownAfterB(s: State, t: State, conv: u32, c: Scene, r: Receiver)
    requires Shows(s, conv, c) && c.b.ready != []
    requires t == s.(b := t.b, recv := r, disk := s.disk + [FINE], atB := t.atB) && t.b.delivered == s.b.delivered + [c.b.ready[0]]
    requires Stage(t, conv, c.a, AfterB(c, r).b)
    ensures Shows(t, conv, AfterB(c, r))
  {
    hide PeerIs, New;
    assert Fine(c.fine + 1) == Fine(c.fine) + [FINE];
  }

  lemma TurnOfB(j: Job, conv: u32, ss: seq<State>, c: Scene, r: Receiver) returns (tt: seq<State>)
    requires Reached(j, conv, ss, c) && Handled(c, r)
    ensures c.b.ready != [] && Reached(j, conv, tt, AfterB(c, r))
  {
    hide Run, Stage, Reached, Shows, OnMessage, New;
    ReachedParts(j, conv, ss, c);
    ShowsParts(Last(ss), conv, c);
    tt := OneTurnB(j, ss, conv, c.a, c.b, r);
    JobOfRun(j, tt);
    ShownAfterB(Last(ss), Last(tt), conv, c, r);
    ReachedIs(j, conv, tt, AfterB(c, r));
  }

  /** The sender handles the next message. */
  ghost predicate Heard(j: Job, c: Scene, r: Sender) {
    JobOk(j) && c.a.ready != [] && |c.a.ready[0]| <= SHORT && r == Answered(j, c.send, c.a.ready[0]) && !r.exited
  }

  function AfterA(c: Scene, r: Sender): Scene
    requires c.a.ready != []
  {
    c.(a := c.a.(ready := c.a.ready[1..]), send := r, heard := c.heard + [c.a.ready[0]])
  }

  lemma ShownAfterA(s: State, t: State, conv: u32, c: Scene, r: Sender)
    requires Shows(s, conv, c) && c.a.ready != []
    requires t == s.(a := t.a, send := r, atA := t.atA) && t.a.delivered == s.a.delivered + [c.a.ready[0]]
    requires Stage(t, conv, AfterA(c, r).a, c.b)
    ensures Shows(t, conv, AfterA(c, r))
  {
  }

  lemma TurnOfA(j: Job, conv: u32, ss: seq<State>, c: Scene, r: Sender) returns (tt: seq<State>)
    requires Reached(j, conv, ss, c) && Heard(j, c, r)
    ensures c.a.ready != [] && Reached(j, conv, tt, AfterA(c, r))
  {
    hide Run, Stage, Reached, Shows, Answered, JobOk;
    ReachedParts(j, conv, ss, c);
    ShowsParts(Last(ss), conv, c);
    tt := OneTurnA(j, ss, conv, c.a, c.b);
    JobOfRun(j, tt);
    ShownAfterA(Last(ss), Last(tt), conv, c, r);
    ReachedIs(j, conv, tt, AfterA(c, r));
  }

  ghost predicate Callable(j: Job, c: Scene) {
    CanSendAll(j, c.a, c.send.calls, c.offered)
  }

  function Called(j: Job, c: Scene): Scene
    requires c.offered <= |c.send.calls|
  {
    c.(a := AfterAll(j, c.a, c.send.calls, c.offered), offered := |c.send.calls|)
  }

  lemma ShownCalled(j: Job, s: State, t: State, conv: u32, c: Scene)
    requires Shows(s, conv, c) && c.offered <= |c.send.calls|
    requires t == s.(a := t.a, offered := |c.send.calls|) && t.a.delivered == s.a.delivered && Stage(t, conv, Called(j, c).a, c.b)
    ensures Shows(t, conv, Called(j, c))
  {
  }

  lemma Calls(j: Job, conv: u32, ss: seq<State>, c: Scene) returns (tt: seq<State>)
    requires Reached(j, conv, ss, c) && Callable(j, c)
    ensures c.offered <= |c.send.calls| && Reached(j, conv, tt, Called(j, c))
  {
    hide Run, Stage, Reached, Shows, AfterAll;
    ReachedParts(j, conv, ss, c);
    ShowsParts(Last(ss), conv, c);
    CanSendParts(j, c.a, c.send.calls, c.offered);
    hide CanSendAll;
    tt := AllSends(j, ss, conv, c.a, c.b, c.send.calls, c.offered);
    ShownCalled(j, Last(ss), Last(tt), conv, c);
    ReachedIs(j, conv, tt, Called(j, c));
  }

  // ---- the run, scene by scene -----------------------------------------------------

  function Req(j: Job): Bytes {
    Request(j.path, U32(|j.file|))
  }

  function Asking(j: Job): Sender {
    Sender(FileTransfer.Status.Connected, [Req(j)], false)
  }

  function Over(j: Job): Sender
    requires JobOk(j)
  {
    Sender(SendOver, Script(j), false)
  }

  /** The state of the receiver after k of the three messages. */
  function After(j: Job, x: Bytes, k: nat): Receiver
    requires k <= 3
  {
    OnMessages(FRESH, Script3(j, x)[..k], Fine(k))
  }

  /** What it answers to the data: nothing, or that it is done. */
  function Reply3(j: Job, x: Bytes): seq<Bytes> {
    New(After(j, x, 1).sent, After(j, x, 2).sent)
  }

  function Got(j: Job, x: Bytes, k: nat): seq<Bytes>
    requires k <= 3
  {
    Script3(j, x)[..k]
  }

  function Scene0(j: Job): Scene {
    Scene(Shape(0, 0, [], 0, [], 0, T0), Shape(0, 0, [], 0, [], 0, T0), Asking(j), 0, FRESH, [], [], 0)
  }

  /** The request was handed over; it arrives; it was answered; the answer arrives; it was heard. */
  function Scene1(j: Job): Scene {
    Scene0(j).(a := Shape(0, 0, [Req(j)], 0, [], 0, T0), offered := 1)
  }

  function Scene2(j: Job): Scene {
    Scene1(j).(a := Shape(1, 1, [], 0, [], 0, T1), b := Shape(0, 0, [], 1, [Req(j)], 1, T0))
  }

  function Scene3(j: Job, x: Bytes): Scene {
    Scene2(j).(b := Shape(0, 0, [READY], 1, [], 1, T0), recv := After(j, x, 1), got := Got(j, x, 1), fine := 1)
  }

  function Scene4(j: Job, x: Bytes): Scene {
    Scene3(j, x).(a := Shape(1, 0, [], 1, [READY], 1, T1), b := Shape(1, 1, [], 1, [], 0, T1))
  }

  function Scene5(j: Job, x: Bytes): Scene
    requires JobOk(j)
  {
    Scene4(j, x).(a := Shape(1, 0, [], 1, [], 1, T1), send := Over(j), heard := [READY])
  }

  /** All calls were made; data and end arrive; the data was written; the end was handled. */
  function Scene6(j: Job, x: Bytes): Scene
    requires JobOk(j)
  {
    Scene5(j, x).(a := Shape(1, 0, Script3(j, x)[1..], 1, [], 1, T1), offered := |Script(j)|)
  }

  function Scene7(j: Job, x: Bytes): Scene
    requires JobOk(j)
  {
    Scene6(j, x).(a := Shape(3, 2, [], 1, [], 0, T2), b := Shape(1, 0, [], 3, Script3(j, x)[1..], 2, T1))
  }

  function Scene8(j: Job, x: Bytes): Scene
    requires JobOk(j)
  {
    Scene7(j, x).(b := Shape(1, 0, Reply3(j, x), 3, [Script3(j, x)[2]], 2, T1), recv := After(j, x, 2), got := Got(j, x, 2), fine := 2)
  }

  function Scene9(j: Job, x: Bytes): Scene
    requires JobOk(j)
  {
    Scene8(j, x).(b := Shape(1, 0, Reply3(j, x), 3, [], 2, T1), recv := After(j, x, 3), got := Got(j, x, 3), fine := 3)
  }

  /** The acknowledgements arrive, with the answer, if any; it was heard, and is acknowledged. */
  function Scene10(j: Job, x: Bytes): Scene
    requires JobOk(j)
  {
    var q := Reply3(j, x);
    Scene9(j, x).(a := Shape(3, 0, [], 1 + |q|, q, |q|, T2), b := Shape(1 + |q|, |q|, [], 3, [], 0, T2))
  }

  function Scene11(j: Job, x: Bytes): Scene
    requires JobOk(j)
  {
    Scene10(j, x).(a := Shape(3, 0, [], 2, [], 1, T2), heard := [READY, DONE])
  }

  function Scene12(j: Job, x: Bytes): Scene
    requires JobOk(j)
  {
    Scene11(j, x).(a := Shape(3, 0, [], 2, [], 0, T3), b := Shape(2, 0, [], 3, [], 0, T2))
  }

  function Beginning(conv: u32): State {
    var p := L.Peer(M.Create(M.ClientCfg(conv)), [], [], [], {});
    State(p, IDLE, 0, C.START, p, FRESH, [], C.START)
  }

  lemma BeginningIsFresh(j: Job, conv: u32)
    requires JobOk(j) && j.mss == 1376
    ensures var s := Beginning(conv); Run(j, [s]) && Stage(s, conv, Scene0(j).a, Scene0(j).b)
  {
    FreshPeerIs(conv);
    hide PeerIs, L.FreshPeer, JobOk;
    assert FileKcp.Fresh(j, Beginning(conv));
  }

  /** Both programs start. */
  lemma Begins(j: Job, conv: u32) returns (ss: seq<State>)
    requires JobOk(j) && j.mss == 1376
    ensures Reached(j, conv, ss, Scene0(j))
  {
    hide *;
    var s := Beginning(conv);
    var t := s.(send := Asking(j));
    BeginningIsFresh(j, conv);
    MayStart(j, conv);
    assert [s][|[s]| - 1] == s;
    StartShows(j, conv);
    ss := Extend(j, [s], Start, t);
    ReachedIs(j, conv, ss, Scene0(j));
  }

  lemma MayStart(j: Job, conv: u32)
    requires JobOk(j) && j.mss == 1376
    ensures var s := Beginning(conv);
            Last([s]) == s && Allowed(s, Start) && Next(j, s, Start) == s.(send := Asking(j)) && |s.a.log| < H32 && |s.b.log| < H32
  {
    RequestParts(j.path, |j.file|);
    assert U32(|j.file|) == |j.file|;
    hide Request;
  }

  lemma StartShows(j: Job, conv: u32)
    requires JobOk(j) && j.mss == 1376
    ensures Shows(Beginning(conv).(send := Asking(j)), conv, Scene0(j))
  {
    BeginningIsFresh(j, conv);
    assert Fine(0) == [];
    hide PeerIs, Run, Request, M.Create;
  }

  lemma To1(j: Job)
    requires JobOk(j) && j.mss == 1376
    ensures Callable(j, Scene0(j)) && Called(j, Scene0(j)) == Scene1(j)
  {
    RequestParts(j.path, |j.file|);
    hide Request;
    assert U32(|j.file|) == |j.file| && Scene0(j).send.calls[0..] == [Req(j)];
    KeptOne(j.mss, Req(j));
    assert [] + [Req(j)] == [Req(j)];
  }

  lemma To2(j: Job)
    ensures var c := Scene1(j);
            Sendable(c.a, c.b, 0) && c.(a := Gone(c.a, 0), b := Come(c.b, c.a)) == Scene2(j)
  {
    Ticks();
    hide Request, M.Tick;
    assert [] + [Req(j)] == [Req(j)];
  }

  lemma To3(j: Job, x: Bytes)
    requires Small(j, x)
    ensures Handled(Scene2(j), After(j, x, 1)) && AfterB(Scene2(j), After(j, x, 1)) == Scene3(j, x)
  {
    Handles(j, x, 0);
    FirstOfThree(j, x);
    NoneLeft(Req(j));
    hide Request, OnMessage, OnMessages, Signal, Script3;
    assert New(FRESH.sent, [READY]) == [READY] && [] + [READY] == [READY] && [] + [Req(j)] == [Req(j)];
  }

  lemma FirstOfThree(j: Job, x: Bytes)
    requires Small(j, x)
    ensures var s := Script3(j, x);
            && s[0] == Req(j) && |s[0]| == 268 && s[..1] == [s[0]] && s[..0] == [] && OnMessages(FRESH, s[..0], Fine(0)) == FRESH
  {
    RequestParts(j.path, |j.file|);
  }

  lemma NoneLeft(e: Bytes)
    ensures var one: seq<Bytes> := [e]; one[1..] == []
  {
  }

  lemma To4(j: Job, x: Bytes)
    ensures var c := Scene3(j, x);
            Sendable(c.b, c.a, 0) && c.(b := Gone(c.b, 0), a := Come(c.a, c.b)) == Scene4(j, x)
  {
    Ticks();
    hide Request, M.Tick, OnMessages, Signal;
    assert [] + [READY] == [READY];
  }

  /** The first success starts the data phase; no call is answered with 0. */
  lemma StartsSending(j: Job)
    requires JobOk(j)
    ensures Answered(j, Asking(j), READY) == Over(j)
  {
    SignalParts(FILE_TRAN_RSP, SUCCESS);
    DataPhaseIsWhole(j);
    hide Script, DataPhase, Request, Signal, Counted, DataAnswers, Parts;
    assert U32(|j.file|) == |j.file|;
  }

  lemma To5(j: Job, x: Bytes)
    requires Small(j, x)
    ensures JobOk(j) && Heard(j, Scene4(j, x), Over(j)) && AfterA(Scene4(j, x), Over(j)) == Scene5(j, x)
  {
    StartsSending(j);
    SignalParts(FILE_TRAN_RSP, SUCCESS);
    NoneLeft(READY);
    hide Answered, Script, Signal, Request, OnMessages, Small;
    assert [] + [READY] == [READY];
  }

  lemma To6(j: Job, x: Bytes)
    requires Small(j, x)
    ensures JobOk(j) && Callable(j, Scene5(j, x)) && Called(j, Scene5(j, x)) == Scene6(j, x)
  {
    SmallCalls(j, x);
    TwoLeft(j, x);
    hide Script, Script3, Kept, ShortOrRefused, OnMessages, Signal, Request;
    assert [] + Script3(j, x)[1..] == Script3(j, x)[1..];
  }

  lemma TwoLeft(j: Job, x: Bytes)
    ensures var s := Script3(j, x);
            && |s| == 3 && |s[1..]| == 2 && s[1..][0] == s[1] && s[1..][1..] == [s[2]]
            && s[..1] + [s[1]] == s[..2] && s[..2] + [s[2]] == s[..3]
  {
  }

  lemma To7(j: Job, x: Bytes)
    requires JobOk(j)
    ensures var c := Scene6(j, x);
            Sendable(c.a, c.b, 10) && c.(a := Gone(c.a, 10), b := Come(c.b, c.a)) == Scene7(j, x)
  {
    Ticks();
    TwoLeft(j, x);
    hide Script, Script3, M.Tick, OnMessages, Signal, Request;
    assert [] + Script3(j, x)[1..] == Script3(j, x)[1..];
  }

  lemma HandlesData(j: Job, x: Bytes)
    requires Small(j, x)
    ensures var d := Script3(j, x)[1];
            && After(j, x, 2) == OnMessage(After(j, x, 1), d, FINE) && !After(j, x, 2).exited && |d| <= SHORT
            && (Reply3(j, x) == [] || Reply3(j, x) == [DONE])
  {
    Handles(j, x, 1);
    SmallArrives(j, x);
    hide Signal, OnMessages;
    PayloadAnswers(After(j, x, 1), x);
  }

  lemma PayloadAnswers(r: Receiver, x: Bytes)
    requires |x| < M32 - HEAD && !OnMessage(r, Data(x), FINE).exited
    ensures var q := New(r.sent, OnMessage(r, Data(x), FINE).sent); q == [] || q == [DONE]
  {
    MessageParts(FILE_TRAN_DATA, x);
    DataIsMessage(x);
    hide Signal, Message, Data;
  }

  lemma HandlesEnd(j: Job, x: Bytes)
    requires Small(j, x)
    ensures var e := Script3(j, x)[2];
            && After(j, x, 3) == OnMessage(After(j, x, 2), e, FINE) && !After(j, x, 3).exited && |e| <= SHORT
            && New(After(j, x, 2).sent, After(j, x, 3).sent) == []
  {
    Handles(j, x, 2);
    SmallArrives(j, x);
    hide OnMessages, OnMessage, Signal, Data, Request;
  }

  lemma To8(j: Job, x: Bytes)
    requires Small(j, x)
    ensures JobOk(j) && Handled(Scene7(j, x), After(j, x, 2)) && AfterB(Scene7(j, x), After(j, x, 2)) == Scene8(j, x)
  {
    HandlesData(j, x);
    TwoLeft(j, x);
    hide Script, Script3, After, OnMessage, OnMessages, Signal, Request, New;
    assert [] + Reply3(j, x) == Reply3(j, x);
  }

  lemma To9(j: Job, x: Bytes)
    requires Small(j, x)
    ensures JobOk(j) && Handled(Scene8(j, x), After(j, x, 3)) && AfterB(Scene8(j, x), After(j, x, 3)) == Scene9(j, x)
  {
    HandlesData(j, x);
    HandlesEnd(j, x);
    TwoLeft(j, x);
    NoneLeft(Script3(j, x)[2]);
    hide Script, Script3, After, OnMessage, OnMessages, Signal, Request, New, Reply3;
    assert Reply3(j, x) + [] == Reply3(j, x);
  }

  lemma To10(j: Job, x: Bytes)
    requires Small(j, x)
    ensures JobOk(j)
    ensures var c := Scene9(j, x);
            Sendable(c.b, c.a, 10) && c.(b := Gone(c.b, 10), a := Come(c.a, c.b)) == Scene10(j, x)
  {
    Ticks();
    HandlesData(j, x);
    hide Script, Script3, After, OnMessages, Signal, Request, Reply3, M.Tick;
    assert [] + Reply3(j, x) == Reply3(j, x);
  }

  lemma DoneIsIgnored(j: Job, s: Sender)
    requires JobOk(j) && !s.exited
    ensures Answered(j, s, DONE) == s
  {
    SignalParts(FILE_TRAN_END, SUCCESS);
    hide DataAnswers, Signal;
  }

  lemma To11(j: Job, x: Bytes)
    requires Small(j, x) && Reply3(j, x) == [DONE]
    ensures JobOk(j) && Heard(j, Scene10(j, x), Over(j)) && AfterA(Scene10(j, x), Over(j)) == Scene11(j, x)
  {
    DoneIsIgnored(j, Over(j));
    SignalParts(FILE_TRAN_END, SUCCESS);
    NoneLeft(DONE);
    hide Script, Script3, After, OnMessages, Signal, Request, Reply3, Answered, Small;
    assert [READY] + [DONE] == [READY, DONE];
  }

  lemma To12(j: Job, x: Bytes)
    requires JobOk(j) && Reply3(j, x) == [DONE]
    ensures var c := Scene11(j, x);
            Sendable(c.a, c.b, 20) && c.(a := Gone(c.a, 20), b := Come(c.b, c.a)) == Scene12(j, x)
  {
    Ticks();
    hide Script, Script3, After, OnMessages, Signal, Request, Reply3, M.Tick;
  }

  lemma SmallIsOk(j: Job, x: Bytes)
    requires Small(j, x)
    ensures JobOk(j) && j.mss == 1376
  {
  }

  /** Up to the answer that the receiver is ready. */
  lemma FirstHalf(j: Job, conv: u32, x: Bytes) returns (ss: seq<State>)
    requires Small(j, x)
    ensures JobOk(j) && Reached(j, conv, ss, Scene5(j, x))
  {
    hide *;
    SmallIsOk(j, x);
    var s0 := Begins(j, conv);
    To1(j);
    var s1 := Calls(j, conv, s0, Scene0(j));
    To2(j);
    var s2 := AToB(j, conv, s1, Scene1(j), 0);
    To3(j, x);
    var s3 := TurnOfB(j, conv, s2, Scene2(j), After(j, x, 1));
    To4(j, x);
    var s4 := BToA(j, conv, s3, Scene3(j, x), 0);
    To5(j, x);
    ss := TurnOfA(j, conv, s4, Scene4(j, x), Over(j));
  }

  /** Up to the acknowledgement of everything. */
  lemma SecondHalf(j: Job, conv: u32, x: Bytes) returns (ss: seq<State>)
    requires Small(j, x)
    ensures JobOk(j) && Reached(j, conv, ss, Scene10(j, x))
  {
    hide *;
    SmallIsOk(j, x);
    var s5 := FirstHalf(j, conv, x);
    To6(j, x);
    var s6 := Calls(j, conv, s5, Scene5(j, x));
    To7(j, x);
    var s7 := AToB(j, conv, s6, Scene6(j, x), 10);
    To8(j, x);
    var s8 := TurnOfB(j, conv, s7, Scene7(j, x), After(j, x, 2));
    To9(j, x);
    var s9 := TurnOfB(j, conv, s8, Scene8(j, x), After(j, x, 3));
    To10(j, x);
    ss := BToA(j, conv, s9, Scene9(j, x), 10);
  }

  /** And of the report of completion, if there is one. */
  lemma LastPart(j: Job, conv: u32, x: Bytes) returns (ss: seq<State>)
    requires Small(j, x) && Reply3(j, x) == [DONE]
    ensures JobOk(j) && Reached(j, conv, ss, Scene12(j, x))
  {
    hide *;
    SmallIsOk(j, x);
    var s10 := SecondHalf(j, conv, x);
    To11(j, x);
    var s11 := TurnOfA(j, conv, s10, Scene10(j, x), Over(j));
    To12(j, x);
    ss := AToB(j, conv, s11, Scene11(j, x), 20);
  }

  lemma QuietIs(p: L.Peer, q: L.Peer, conv: u32, h: Shape, g: Shape)
    requires PeerIs(p, conv, h) && PeerIs(q, conv, g) && h.flying == 0 && h.queued == [] && g.ready == []
    ensures L.Quiet(p, q)
  {
  }

  lemma FineIsHealthy(k: nat)
    ensures Healthy(Fine(k))
  {
  }

  /** In a scene where all is sent, acknowledged and read, everything has settled. */
  lemma SceneSettles(s: State, conv: u32, c: Scene)
    requires Shows(s, conv, c) && !c.send.status.Init? && c.offered == |c.send.calls|
    requires c.a.flying == 0 && c.b.flying == 0 && c.a.queued == [] && c.b.queued == [] && c.a.ready == [] && c.b.ready == []
    ensures Settled(s) && Healthy(s.disk) && !s.send.exited
  {
    hide PeerIs, Fine, Healthy;
    QuietIs(s.a, s.b, conv, c.a, c.b);
    QuietIs(s.b, s.a, conv, c.b, c.a);
    FineIsHealthy(c.fine);
  }

  lemma LastScenes(j: Job, x: Bytes, c: Scene)
    requires JobOk(j) && (c == Scene12(j, x) || (c == Scene10(j, x) && Reply3(j, x) == []))
    ensures !c.send.status.Init? && c.offered == |c.send.calls|
    ensures c.a.flying == 0 && c.b.flying == 0 && c.a.queued == [] && c.b.queued == [] && c.a.ready == [] && c.b.ready == []
  {
    hide Script, Script3, After, OnMessages, Signal, Request, Reply3;
  }

  /** For any small job there is a run that settles, with a disk that did its part. */
  lemma SomeRunSettles(j: Job, conv: u32, x: Bytes) returns (ss: seq<State>)
    requires JobOk(j) && j.mss == 1376 && KeptPieces(j.mss, Parts(j)) == [x] && HEAD + |x| <= SHORT
    ensures Run(j, ss) && Settled(Last(ss)) && Healthy(Last(ss).disk) && !Last(ss).send.exited
  {
    ss := SmallRunSettles(j, conv, x);
  }

  lemma SmallRunSettles(j: Job, conv: u32, x: Bytes) returns (ss: seq<State>)
    requires Small(j, x)
    ensures Run(j, ss) && Settled(Last(ss)) && Healthy(Last(ss).disk) && !Last(ss).send.exited
  {
    hide *;
    SmallIsOk(j, x);
    HandlesData(j, x);
    var c;
    if Reply3(j, x) == [DONE] {
      c := Scene12(j, x);
      ss := LastPart(j, conv, x);
    } else {
      c := Scene10(j, x);
      ss := SecondHalf(j, conv, x);
    }
    LastScenes(j, x, c);
    ReachedParts(j, conv, ss, c);
    SceneSettles(Last(ss), conv, c);
  }

  /** The failing input is reached: a run in which both programs end up satisfied, with one byte of 199993
      on disk, and nobody told. */
  lemma RefusalHappens(j: Job, conv: u32) returns (ss: seq<State>)
    requires JobOk(j) && j.mtu == 200_000 && j.mss == 1376 && |j.file| == 199_993
    ensures Run(j, ss) && Settled(Last(ss))
    ensures var s := Last(ss);
            && s.send.status.SendOver? && !s.send.exited && !s.recv.exited
            && s.recv.written == [j.file[199_992]] && DONE !in s.recv.sent
            && (j.file[0] != j.file[199_992] ==> !Faithful(s.recv, j.file))
  {
    OddFile(j);
    hide Run, Settled, Healthy, Parts, KeptPieces, JobOk, Faithful, Complaint;
    ss := SomeRunSettles(j, conv, [j.file[199_992]]);
    RefusalGoesUnnoticed(j, ss);
    SettledTransfer(j, ss);
  }

  /** And with the program's own settings there is a run that completes any file of up to 292 bytes. */
  lemma SmallFileCompletes(j: Job, conv: u32) returns (ss: seq<State>)
    requires JobOk(j) && j.mtu == FILE_SEND_MTU && j.mss == 1376 && |j.file| <= SHORT - HEAD
    ensures Run(j, ss) && Settled(Last(ss)) && Last(ss).recv.written == j.file && DONE in Last(ss).recv.sent
  {
    OnePieceIsKept(j);
    assert Completable(j);
    hide Run, Settled, Healthy, Parts, KeptPieces, JobOk, Completable;
    ss := SomeRunSettles(j, conv, j.file);
    SettledTransfer(j, ss);
  }

  lemma OnePieceIsKept(j: Job)
    requires JobOk(j) && |j.file| + HEAD <= j.mtu && |j.file| + HEAD <= 127 * j.mss
    ensures KeptPieces(j.mss, Parts(j)) == [j.file]
  {
    PieceIsFile(j.file, j.mtu - HEAD);
    hide Pieces;
    var one := [j.file];
    assert Parts(j) == one;
    KeptAll(j.mss, one);
  }

  lemma PieceIsFile(file: Bytes, room: nat)
    requires 0 < |file| <= room
    ensures Pieces(file, room) == [file]
  {
    var rest := file[|file|..];
    assert file[..|file|] == file && rest == [];
    assert Pieces(rest, room) == [];
  }
}
