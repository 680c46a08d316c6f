/** File transfer over KCP (RawFileClient.cpp): FileSend and FileRecv, each on its own KcpClient, both on one
    network that loses, duplicates and reorders datagrams; what each call of ikcp_send answers, and what a
    program makes of it. */
module FileKcp {
  import opened Serial
  import opened Sequences
  import opened Wire
  import opened StickyPacket
  import opened FileTransfer
  import M = KcpModel
  import L = KcpLink
  import C = KcpClient
  import KcpMessages

  const CAP: nat := C.TCP_BUFFER_SIZE

  // ---- what ikcp_send answers ------------------------------------------------------

  /** The result of ikcp_send behind the unsigned return type of _send_data. */
  function Answer(mss: u32, m: Bytes): u32 {
    if |m| <= 127 * mss then U32(|m|) else U32(-2)
  }

  lemma KcpAcceptsWhatFits(s: M.Cb, m: Bytes)
    requires s.cfg.mss > 0 && !s.cfg.stream
    ensures M.Send(s, m, |m|).ret == if |m| <= 127 * s.cfg.mss then |m| else -2
    ensures U32(M.Send(s, m, |m|).ret) == Answer(s.cfg.mss, m)
  {
    FewSegments(|m|, s.cfg.mss);
  }

  lemma FewSegments(len: nat, mss: u32)
    requires mss > 0
    ensures M.SegCount(len, mss) < M.WND_RCV <==> len <= 127 * mss
  {
    if len > mss {
      QuotientBounds(len + mss - 1, mss);
      var q: int := (len + mss - 1) / mss;
      if q >= 128 {
        Distribute(128, q - 128, mss);
        MulAtLeast(q - 128, mss);
      } else {
        Distribute(q + 1, 127 - q, mss);
        MulAtLeast(127 - q, mss);
      }
    }
  }

  /** The messages among these that ikcp_send accepts. */
  function Kept(mss: u32, ms: seq<Bytes>): seq<Bytes> {
    if ms == [] then []
    else Kept(mss, ms[..|ms| - 1]) + if |ms[|ms| - 1]| <= 127 * mss then [ms[|ms| - 1]] else []
  }

  /** The pieces whose messages ikcp_send accepts. */
  function KeptPieces(mss: u32, p: seq<Bytes>): seq<Bytes> {
    if p == [] then []
    else KeptPieces(mss, p[..|p| - 1]) + if HEAD + |p[|p| - 1]| <= 127 * mss then [p[|p| - 1]] else []
  }

  lemma KeptSnoc(mss: u32, ms: seq<Bytes>, m: Bytes)
    ensures Kept(mss, ms + [m]) == Kept(mss, ms) + if |m| <= 127 * mss then [m] else []
  {
    assert (ms + [m])[..|ms|] == ms;
  }

  lemma {:induction false} KeptConcat(mss: u32, x: seq<Bytes>, y: seq<Bytes>)
    ensures Kept(mss, x + y) == Kept(mss, x) + Kept(mss, y)
  {
    if y == [] {
      assert x + y == x;
    } else {
      var n := |y| - 1;
      KeptConcat(mss, x, y[..n]);
      assert x + y == x + y[..n] + [y[n]];
      KeptSnoc(mss, x + y[..n], y[n]);
      Associate(Kept(mss, x), Kept(mss, y[..n]), if |y[n]| <= 127 * mss then [y[n]] else []);
    }
  }

  lemma KeptFront(mss: u32, x: seq<Bytes>, s: seq<Bytes>)
    requires x <= s
    ensures Kept(mss, x) <= Kept(mss, s)
  {
    KeptConcat(mss, x, s[|x|..]);
    assert x + s[|x|..] == s;
  }

  /** Refusing messages is dropping pieces. */
  lemma {:induction false} KeptData(mss: u32, p: seq<Bytes>)
    ensures Kept(mss, DataMessages(p)) == DataMessages(KeptPieces(mss, p))
  {
    if p != [] {
      var n := |p| - 1;
      KeptData(mss, p[..n]);
      hide Data;
      assert DataMessages(p) == DataMessages(p[..n]) + [Data(p[n])];
      KeptSnoc(mss, DataMessages(p[..n]), Data(p[n]));
      DataLength(p[n]);
    }
  }

  lemma DataLength(x: Bytes)
    ensures |Data(x)| == HEAD + |x|
  {
  }

  lemma KeptTransfer(mss: u32, path: Bytes, size: u32, p: seq<Bytes>)
    requires |path| == PATH_SIZE && mss >= 26
    ensures Kept(mss, Transfer(path, size, p, SUCCESS)) == Transfer(path, size, KeptPieces(mss, p), SUCCESS)
  {
    var first, last := Request(path, size), Signal(FILE_TRAN_END, SUCCESS);
    RequestParts(path, size);
    SignalParts(FILE_TRAN_END, SUCCESS);
    hide Request, Signal, Data, DataMessages;
    KeptData(mss, p);
    KeptSnoc(mss, DataMessages(p), last);
    KeptOne(mss, first);
    KeptConcat(mss, [first], DataMessages(p) + [last]);
  }

  lemma KeptOne(mss: u32, m: Bytes)
    requires |m| <= 127 * mss
    ensures Kept(mss, [m]) == [m]
  {
    var none: seq<Bytes> := [];
    KeptSnoc(mss, none, m);
    assert none + [m] == [m];
  }

  lemma KeptPiecesSnoc(mss: u32, p: seq<Bytes>, x: Bytes)
    ensures KeptPieces(mss, p + [x]) == KeptPieces(mss, p) + if HEAD + |x| <= 127 * mss then [x] else []
  {
    assert (p + [x])[..|p|] == p;
  }

  /** What is kept of the pieces: some of them, each short enough. */
  lemma {:induction false} KeptMembers(mss: u32, p: seq<Bytes>)
    ensures forall x <- KeptPieces(mss, p) :: x in p && HEAD + |x| <= 127 * mss
  {
    if p != [] {
      var n := |p| - 1;
      KeptMembers(mss, p[..n]);
      assert forall x <- p[..n] :: x in p;
    }
  }

  lemma {:induction false} KeptAll(mss: u32, p: seq<Bytes>)
    requires forall x <- p :: HEAD + |x| <= 127 * mss
    ensures KeptPieces(mss, p) == p
  {
    if p != [] {
      var n := |p| - 1;
      assert forall x <- p[..n] :: x in p;
      KeptAll(mss, p[..n]);
      assert p[..n] + [p[n]] == p;
    }
  }

  /** They have fewer bytes if the first is dropped. */
  lemma {:induction false} KeptBytes(mss: u32, p: seq<Bytes>)
    ensures |Flat(KeptPieces(mss, p))| + (if p != [] && HEAD + |p[0]| > 127 * mss then |p[0]| else 0) <= |Flat(p)|
  {
    if p != [] {
      var n := |p| - 1;
      KeptBytes(mss, p[..n]);
      KeptPiecesSnoc(mss, p[..n], p[n]);
      assert p[..n] + [p[n]] == p;
      FlatAppend(p[..n], p[n]);
      FlatAppend(KeptPieces(mss, p[..n]), p[n]);
      hide KeptPieces, Flat;
      assert KeptPieces(mss, p[..n]) + [] == KeptPieces(mss, p[..n]);
      if n == 0 {
        EmptyKept(mss, p[..n]);
      } else {
        assert p[..n][0] == p[0];
      }
    }
  }

  lemma EmptyKept(mss: u32, p: seq<Bytes>)
    requires p == []
    ensures Flat(KeptPieces(mss, p)) == [] == Flat(p)
  {
  }

  // ---- the job ---------------------------------------------------------------------

  /** What is sent, the sender's buffer size, and the segment size of its endpoint. */
  datatype Job = Job(path: Bytes, file: Bytes, mtu: u32, mss: u32)

  ghost predicate JobOk(j: Job) {
    |j.path| == PATH_SIZE && HEAD < j.mtu < H32 && 0 < |j.file| < M32 && j.mss >= 26
  }

  function Parts(j: Job): seq<Bytes>
    requires JobOk(j)
  {
    Pieces(j.file, j.mtu - HEAD)
  }

  /** What the calls of the data phase are answered. */
  function DataAnswers(j: Job): seq<u32>
    requires JobOk(j)
  {
    seq(|Parts(j)|, i requires 0 <= i < |Parts(j)| => Answer(j.mss, Data(Parts(j)[i])))
  }

  /** The messages of the whole transfer, all of which FileSend hands over. */
  function Script(j: Job): seq<Bytes>
    requires JobOk(j)
  {
    Transfer(j.path, |j.file|, Parts(j), SUCCESS)
  }

  /** What ikcp_send accepts of them. */
  function Arriving(j: Job): seq<Bytes>
    requires JobOk(j)
  {
    Transfer(j.path, |j.file|, KeptPieces(j.mss, Parts(j)), SUCCESS)
  }

  /** The largest data message. */
  function Largest(j: Job): int {
    Min(|j.file| + HEAD, j.mtu)
  }

  /** The condition: the largest data message is accepted by ikcp_send, and fits the receiver's buffer. */
  predicate Completable(j: Job) {
    Largest(j) <= 127 * j.mss && Largest(j) <= CAP
  }

  /** No call is answered with 0, so FileSend counts every piece as sent. */
  lemma DataPhaseIsWhole(j: Job)
    requires JobOk(j)
    ensures DataPhase(Parts(j), DataAnswers(j)) == DataMessages(Parts(j)) + [Signal(FILE_TRAN_END, SUCCESS)]
    ensures Counted(|Parts(j)|, DataAnswers(j)) == |Parts(j)|
    ensures [Request(j.path, |j.file|)] + DataPhase(Parts(j), DataAnswers(j)) == Script(j)
  {
    var p := Parts(j);
    AnsweredAll(j);
    CountedIs(|p|, DataAnswers(j), |p|);
    hide Data, DataMessages, Request, Signal, Parts, Counted, DataAnswers;
    assert p[..|p|] == p;
  }

  lemma AnswerIsPositive(mss: u32, m: Bytes, mtu: u32)
    requires 0 < |m| <= mtu
    ensures Answer(mss, m) != 0
  {
  }

  lemma AnsweredAll(j: Job)
    requires JobOk(j)
    ensures forall i :: 0 <= i < |Parts(j)| ==> DataAnswers(j)[i] != 0
  {
    PiecesOfJob(j);
    var p := Parts(j);
    hide Data, Parts, Flat, Largest;
    forall i | 0 <= i < |p|
      ensures Answer(j.mss, Data(p[i])) != 0
    {
      DataLength(p[i]);
      AnswerIsPositive(j.mss, Data(p[i]), j.mtu);
    }
  }

  lemma ArrivingIsKept(j: Job)
    requires JobOk(j)
    ensures Kept(j.mss, Script(j)) == Arriving(j)
  {
    KeptTransfer(j.mss, j.path, |j.file|, Parts(j));
  }

  lemma {:induction false} PieceAtMost(p: seq<Bytes>, i: nat)
    requires i < |p|
    ensures |p[i]| <= |Flat(p)|
  {
    if i < |p| - 1 { PieceAtMost(p[..|p| - 1], i); }
  }

  /** The pieces kept are of the file; they make it up exactly if the largest message is accepted. */
  lemma KeptOfJob(j: Job)
    requires JobOk(j)
    ensures var q := KeptPieces(j.mss, Parts(j));
            && Survivors(q, |j.file|) && (Flat(q) == j.file <==> Largest(j) <= 127 * j.mss)
            && (|Flat(q)| == |j.file| <==> Largest(j) <= 127 * j.mss)
            && (forall x <- q :: HEAD + |x| <= 127 * j.mss && HEAD + |x| <= Largest(j))
  {
    var p, q := Parts(j), KeptPieces(j.mss, Parts(j));
    PiecesOfJob(j);
    KeptMembers(j.mss, p);
    KeptBytes(j.mss, p);
    hide Parts, KeptPieces, Flat, Survivors;
    if Largest(j) <= 127 * j.mss { KeptAll(j.mss, p); }
    assert forall x <- q :: 0 < |x| && HEAD + |x| <= Largest(j);
    FewSurvive(q, |j.file|, j.mtu);
  }

  lemma FewSurvive(q: seq<Bytes>, size: int, mtu: u32)
    requires |Flat(q)| <= size && 0 < size < M32 && mtu < H32 && forall x <- q :: 0 < |x| && HEAD + |x| <= mtu
    ensures Survivors(q, size)
  {
  }

  /** The first piece is a largest one. */
  lemma PiecesOfJob(j: Job)
    requires JobOk(j)
    ensures var p := Parts(j);
            && p != [] && HEAD + |p[0]| == Largest(j) && Flat(p) == j.file
            && forall x <- p :: 0 < |x| && HEAD + |x| <= Largest(j)
  {
    var p := Parts(j);
    PiecesShape(j.file, j.mtu - HEAD);
    assert p[0] == j.file[..Min(|j.file|, j.mtu - HEAD)];
    hide Pieces;
    forall x | x in p
      ensures 0 < |x| && HEAD + |x| <= Largest(j)
    {
      var i :| 0 <= i < |p| && p[i] == x;
      PieceAtMost(p, i);
    }
  }

  // ---- the system ------------------------------------------------------------------

  /** Both programs. Endpoint a carries the sender, which has made `offered` of its calls; b carries the
      receiver, for which the operating system has answered `disk`. */
  datatype State = State(a: L.Peer, send: Sender, offered: nat, atA: Framer,
                         b: L.Peer, recv: Receiver, disk: seq<System>, atB: Framer)

  /** StartTransf; one call of _send_data (they may come from the send thread, between any two other
      moves); a datagram, the timer or a flush at either endpoint; one turn of either drain loop. */
  datatype Move = Start | Call | NetA(op: M.Op) | NetB(op: M.Op) | TurnA | TurnB(sys: seq<System>)

  function New<T>(before: seq<T>, after: seq<T>): seq<T> {
    if |before| <= |after| then after[|before|..] else []
  }

  /** ikcp_send of each message. */
  function Offer(p: L.Peer, ms: seq<Bytes>): L.Peer {
    if ms == [] then p else L.Act(Offer(p, ms[..|ms| - 1]), M.SendOp(ms[|ms| - 1]))
  }

  function OnReplies(s: Sender, ms: seq<Bytes>, j: Job): Sender
    requires JobOk(j)
  {
    if ms == [] then s else OnReply(OnReplies(s, ms[..|ms| - 1], j), ms[|ms| - 1], j.file, j.mtu, DataAnswers(j))
  }

  /** A message is complete and fits the room. */
  predicate CanRead(p: L.Peer, f: Framer) {
    C.Readable(C.Client(p.cb, f))
  }

  /** The framing after one turn of the drain loop. */
  function Fed(p: L.Peer, f: Framer): Framer {
    Receive(f, M.Recv(p.cb, C.Room(f)).data)
  }

  ghost predicate Network(op: M.Op, other: L.Peer) {
    !op.SendOp? && !op.RecvOp? && L.Enabled(op, other)
  }

  ghost predicate Allowed(s: State, v: Move) {
    match v
    case Start => s.send.status.Init?
    case Call => !s.send.exited && s.offered < |s.send.calls|
    case NetA(op) => !s.send.exited && Network(op, s.b)
    case NetB(op) => !s.recv.exited && Network(op, s.a)
    case TurnA => !s.send.exited && CanRead(s.a, s.atA)
    case TurnB(sys) => !s.recv.exited && CanRead(s.b, s.atB) && |New(s.atB.dispatched, Fed(s.b, s.atB).dispatched)| == |sys|
  }

  function Next(j: Job, s: State, v: Move): State
    requires JobOk(j)
  {
    match v
    case Start => s.(send := OnStart(s.send, j.path, j.file, Answer(j.mss, Request(j.path, |j.file|))))
    case Call =>
      if s.offered < |s.send.calls| then s.(a := L.Act(s.a, M.SendOp(s.send.calls[s.offered])), offered := s.offered + 1)
      else s
    case NetA(op) => s.(a := L.Act(s.a, op))
    case NetB(op) => s.(b := L.Act(s.b, op))
    case TurnA =>
      var f := Fed(s.a, s.atA);
      s.(a := L.Act(s.a, M.RecvOp(C.Room(s.atA))), atA := f,
         send := OnReplies(s.send, New(s.atA.dispatched, f.dispatched), j))
    case TurnB(sys) =>
      var f := Fed(s.b, s.atB);
      var ms := New(s.atB.dispatched, f.dispatched);
      var r := if |ms| <= |sys| then OnMessages(s.recv, ms, sys) else s.recv;
      s.(b := Offer(L.Act(s.b, M.RecvOp(C.Room(s.atB))), New(s.recv.sent, r.sent)), atB := f, recv := r, disk := s.disk + sys)
  }

  ghost predicate Fresh(j: Job, s: State) {
    && L.Init(L.World(s.a, s.b)) && !s.a.cb.cfg.stream && !s.b.cb.cfg.stream && s.a.cb.cfg.mss == j.mss
    && s.send == IDLE && s.offered == 0 && s.atA == C.START && s.recv == FRESH && s.disk == [] && s.atB == C.START
  }

  ghost predicate Step(j: Job, s: State, t: State)
    requires JobOk(j)
  {
    exists v :: Allowed(s, v) && t == Next(j, s, v)
  }

  /** A run of both programs, with fewer than 2^31 segments numbered in either direction. */
  ghost predicate Run(j: Job, ss: seq<State>) {
    && JobOk(j) && ss != [] && Fresh(j, ss[0])
    && (forall i :: 0 <= i < |ss| - 1 ==> Step(j, ss[i], ss[i + 1]))
    && (forall i :: 0 <= i < |ss| ==> L.Small(L.World(ss[i].a, ss[i].b)))
  }
}
