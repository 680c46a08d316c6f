/** What runs of FileKcp amount to: when the file arrives, and when it does not. */
module FileOverKcp {
  import opened Serial
  import opened Wire
  import opened StickyPacket
  import opened FileTransfer
  import opened FileKcp
  import opened FileKcpInvariant
  import M = KcpModel
  import L = KcpLink
  import I = KcpInvariant
  import KcpMessages

  // ---- the transfer ----------------------------------------------------------------

  /** What has reached the receiver is a front of what arrives. */
  lemma DeliveredFront(j: Job, s: State)
    requires JobOk(j) && Ok(j, s)
    ensures s.b.delivered <= s.a.accepted <= Arriving(j)
  {
    hide Linked, Arriving, RecvSide;
    AcceptedFront(j, s.a, s.send, s.offered, s.atA);
    hide SendSide;
    LinkedDelivers(s.a, s.b);
  }

  /** A first data message that exceeds the buffer is not read, nor anything behind it. */
  lemma TooLongNeverArrives(j: Job, s: State)
    requires JobOk(j) && Ok(j, s) && CAP < Largest(j) <= 127 * j.mss
    ensures s.recv.written == []
  {
    hide Linked, SendSide, OnMessage, Arriving, Signals;
    DeliveredFront(j, s);
    OnlyRequest(j, s.b.delivered);
    if s.b.delivered != [] {
      var m := Request(j.path, |j.file|);
      var none: seq<Bytes> := [];
      assert s.b.delivered == none + [m] && s.disk == [] + [s.disk[0]];
      OneDelivery(FRESH, m, s.disk[0], none, []);
      RequestWritesNothing(j.path, |j.file|, s.disk[0]);
    }
  }

  lemma OnlyRequest(j: Job, ds: seq<Bytes>)
    requires JobOk(j) && CAP < Largest(j) <= 127 * j.mss && ds <= Arriving(j) && forall m <- ds :: |m| <= CAP
    ensures ds == [] || ds == [Request(j.path, |j.file|)]
  {
    var q := KeptPieces(j.mss, Parts(j));
    FirstIsKept(j);
    TransferParts(j.path, |j.file|, q, SUCCESS);
    DataLength(q[0]);
    hide Data, Request, Signal, KeptPieces, Parts, Transfer;
    assert Arriving(j)[0 + 1] == Data(q[0]);
    FrontAvoids(ds, Arriving(j), 1);
  }

  lemma FrontAvoids<T>(x: seq<T>, s: seq<T>, i: nat)
    requires x <= s && i < |s| && s[i] !in x
    ensures |x| <= i
  {
    assert forall k :: 0 <= k < |x| ==> s[k] in x;
  }

  lemma FirstIsKept(j: Job)
    requires JobOk(j) && Largest(j) <= 127 * j.mss
    ensures var q := KeptPieces(j.mss, Parts(j)); q != [] && HEAD + |q[0]| == Largest(j)
  {
    hide Parts;
    PiecesOfJob(j);
    KeptAll(j.mss, Parts(j));
  }

  lemma RequestWritesNothing(path: Bytes, size: u32, sys: System)
    requires |path| == PATH_SIZE
    ensures OnMessage(FRESH, Request(path, size), sys).written == []
  {
    RequestParts(path, size);
  }

  /** What is on disk, at any moment. */
  lemma WrittenIsFront(j: Job, s: State)
    requires JobOk(j) && Ok(j, s)
    ensures Told(s.recv, KeptPieces(j.mss, Parts(j)), |j.file|)
  {
    DeliveredFront(j, s);
    KeptOfJob(j);
    hide Linked, SendSide, Survivors, KeptPieces, Parts, Transfer, Told;
    TransferIsTold(j.path, |j.file|, KeptPieces(j.mss, Parts(j)), SUCCESS, s.b.delivered, s.disk);
  }

  /** The transfer over KCP, for every file, path, buffer size and segment size, at every moment of every
      run: if the largest message is accepted and fits the buffer, the receiver is faithful to the file;
      otherwise the file never becomes complete, and completion is never reported. */
  lemma TransferOverKcp(j: Job, ss: seq<State>)
    requires Run(j, ss)
    ensures var r := ss[|ss| - 1].recv;
            if Completable(j) then Faithful(r, j.file) else r.written != j.file && DONE !in r.sent
  {
    var s := ss[|ss| - 1];
    RunOk(j, ss);
    WrittenIsFront(j, s);
    KeptOfJob(j);
    if CAP < Largest(j) <= 127 * j.mss { TooLongNeverArrives(j, s); }
    hide Ok, KeptPieces, Parts, Run;
  }

  // ---- when everything has arrived -------------------------------------------------

  /** The transfer was started, every call was made, nothing waits at either endpoint, and both have read
      their queues. */
  ghost predicate Settled(s: State) {
    !s.send.status.Init? && s.offered == |s.send.calls| && L.Quiet(s.a, s.b) && L.Quiet(s.b, s.a)
  }

  /** With a healthy disk the receiver answers that it is ready, and never complains. */
  lemma {:induction false} HealthySignals(path: Bytes, size: u32, q: seq<Bytes>, k: nat, sys: seq<System>)
    requires |path| == PATH_SIZE && Survivors(q, size) && Healthy(sys) && 0 < k <= |q| + 2 && k <= |sys|
    ensures k <= |Transfer(path, size, q, SUCCESS)|
    ensures var r := OnMessages(FRESH, Transfer(path, size, q, SUCCESS)[..k], sys); READY in r.sent && !Complaint(r.sent)
    decreases k
  {
    var s := Transfer(path, size, q, SUCCESS);
    TransferParts(path, size, q, SUCCESS);
    TransferArrives(path, size, q, SUCCESS, k, sys);
    MessagesFold(s, k, sys);
    hide Transfer, Told, Signal, Arrived, Data, Request, OnMessages, OnMessage, Survivors;
    if k == 1 {
      ReadySent(path, size, sys[0]);
    } else {
      HealthySignals(path, size, q, k - 1, sys);
      assert 0 < k - 1 <= |q| ==> s[(k - 2) + 1] == Data(q[k - 2]);
      NoComplaint(OnMessages(FRESH, s[..k - 1], sys), s[k - 1], sys[k - 1], if k - 1 <= |q| then q[k - 2] else []);
    }
  }

  lemma MessagesFold(s: seq<Bytes>, k: nat, sys: seq<System>)
    requires 0 < k <= |s| && k <= |sys|
    ensures OnMessages(FRESH, s[..k], sys) == OnMessage(OnMessages(FRESH, s[..k - 1], sys), s[k - 1], sys[k - 1])
    ensures OnMessages(FRESH, s[..0], sys) == FRESH
  {
    assert s[..k][..k - 1] == s[..k - 1];
  }

  lemma ReadySent(path: Bytes, size: u32, sys: System)
    requires |path| == PATH_SIZE && size > 0 && sys.openCode == 0
    ensures var r := OnMessage(FRESH, Request(path, size), sys); r.sent == [READY] && !Complaint(r.sent)
  {
    RequestParts(path, size);
    SignalParts(FILE_TRAN_RSP, SUCCESS);
    hide Request, Signal;
  }

  /** Neither data nor a closing message makes a receiver complain that does not exit. */
  lemma NoComplaint(r: Receiver, m: Bytes, sys: System, payload: Bytes)
    requires |payload| < M32 - HEAD && (m == Signal(FILE_TRAN_END, SUCCESS) || m == Data(payload))
    requires READY in r.sent && !Complaint(r.sent) && !OnMessage(r, m, sys).exited
    ensures READY in OnMessage(r, m, sys).sent && !Complaint(OnMessage(r, m, sys).sent)
  {
    var t := OnMessage(r, m, sys);
    SignalParts(FILE_TRAN_END, SUCCESS);
    MessageParts(FILE_TRAN_DATA, payload);
    DataIsMessage(payload);
    assert t.sent == r.sent || t.sent == r.sent + [DONE];
    hide OnMessage, Signal, Message, Data;
    assert forall i :: 0 <= i < |t.sent| ==> if i < |r.sent| then t.sent[i] == r.sent[i] else t.sent[i] == DONE;
  }

  lemma SettledDelivers(j: Job, s: State)
    requires JobOk(j) && Ok(j, s) && Settled(s)
    ensures s.b.delivered == Kept(j.mss, s.send.calls) && s.a.delivered == s.recv.sent
  {
    hide L.Half, I.Inv;
    assert s.send.calls[..|s.send.calls|] == s.send.calls;
    hide SenderOk, Kept, OnMessages;
    L.QuietLink(s.a, s.b);
    L.QuietLink(s.b, s.a);
  }

  /** The sender has heard that the receiver is ready, and has made all its calls. */
  lemma SettledIsOver(j: Job, s: State)
    requires JobOk(j) && Ok(j, s) && Settled(s) && Healthy(s.disk)
    ensures s.send.status.SendOver? && s.b.delivered == Arriving(j)
  {
    hide Linked, Script, Transfer, L.Quiet;
    SettledDelivers(j, s);
    ArrivingIsKept(j);
    if s.send.status.Connected? {
      ReadyHeard(j, s);
      assert false;
    }
  }

  lemma ReadyHeard(j: Job, s: State)
    requires JobOk(j) && s.send.calls == [Request(j.path, |j.file|)] && s.b.delivered == Kept(j.mss, s.send.calls)
    requires RecvSide(s.b, s.recv, s.disk, s.atB) && Healthy(s.disk)
    ensures READY in s.recv.sent
  {
    var q := KeptPieces(j.mss, Parts(j));
    RequestParts(j.path, |j.file|);
    KeptOne(j.mss, Request(j.path, |j.file|));
    KeptOfJob(j);
    TransferParts(j.path, |j.file|, q, SUCCESS);
    hide KeptPieces, Parts, Transfer, Request, Survivors, Kept, Signals;
    assert Transfer(j.path, |j.file|, q, SUCCESS)[..1] == [Request(j.path, |j.file|)];
    HealthySignals(j.path, |j.file|, q, 1, s.disk);
  }

  /** Once everything has settled, and if the disk did its part: the sender reports success in any case;
      on disk are exactly the pieces ikcp_send accepted; the file is complete, and reported so, exactly
      under the condition. */
  lemma SettledTransfer(j: Job, ss: seq<State>)
    requires Run(j, ss) && Settled(ss[|ss| - 1]) && Healthy(ss[|ss| - 1].disk)
    ensures var s := ss[|ss| - 1];
            && s.send.status.SendOver? && !s.recv.exited && s.recv.written == Flat(KeptPieces(j.mss, Parts(j)))
            && (s.recv.written == j.file <==> Completable(j)) && (DONE in s.recv.sent <==> Completable(j))
  {
    var s := ss[|ss| - 1];
    TransferOverKcp(j, ss);
    RunOk(j, ss);
    hide Run;
    SettledIsOver(j, s);
    KeptOfJob(j);
    hide Linked, SendSide, Settled, KeptPieces, Parts, Survivors, Transfer, Signals;
    WholeTransferEnds(j.path, |j.file|, KeptPieces(j.mss, Parts(j)), s.disk);
  }

  /** The program's own settings (1460 bytes a message, 1376 a segment) meet the condition for every file. */
  lemma OwnSettingsComplete(path: Bytes, file: Bytes, conv: u32)
    requires |path| == PATH_SIZE && 0 < |file| < M32
    ensures M.ClientCfg(conv).mss == 1376 && !M.ClientCfg(conv).stream
    ensures Completable(Job(path, file, FILE_SEND_MTU, M.ClientCfg(conv).mss))
  {
  }

  const FILE_SEND_MTU: u32 := 1460

  // ---- a failing input -------------------------------------------------------------

  lemma OddFile(j: Job)
    requires JobOk(j) && j.mtu == 200_000 && j.mss == 1376 && |j.file| == 199_993
    ensures KeptPieces(j.mss, Parts(j)) == [[j.file[199_992]]] && !Completable(j)
  {
    var p := Parts(j);
    var x, y := j.file[..199_992], j.file[199_992..];
    assert y[..1] == y == [j.file[199_992]] && Pieces(y[1..], 199_992) == [];
    assert Pieces(y, 199_992) == [y];
    assert p == [x] + [y];
    hide Pieces;
    var none: seq<Bytes> := [];
    assert p[..1] == [x] && p[..1][..0] == none;
    assert KeptPieces(j.mss, p[..1]) == none;
  }

  /** With a send size of 200000 and a file of 199993 bytes, ikcp_send refuses the first piece with -2; the
      sender takes that for a count, goes on and reports success, and the file on disk is its last byte. */
  lemma RefusalGoesUnnoticed(j: Job, ss: seq<State>)
    requires j.mtu == 200_000 && j.mss == 1376 && |j.file| == 199_993
    requires Run(j, ss) && Settled(ss[|ss| - 1]) && Healthy(ss[|ss| - 1].disk)
    ensures var s := ss[|ss| - 1];
            && s.send.status.SendOver? && s.recv.written == [j.file[199_992]] && DONE !in s.recv.sent
            && (j.file[0] != j.file[199_992] ==> !Faithful(s.recv, j.file))
  {
    SettledTransfer(j, ss);
    OddFile(j);
    var last := j.file[199_992];
    FlatCons([last], []);
    assert [[last]] + [] == [[last]] && [last] + [] == [last];
    hide Run, Settled, KeptPieces, Parts, Completable;
    assert j.file[0] != last ==> [last][0] != j.file[0];
  }

  // ---- the drain loop --------------------------------------------------------------

  /** In every reachable state: a complete message at the head of the receiver's queue is the next one the
      sender put in, and the drain loop reads it exactly if it is at most the buffer's capacity. */
  lemma ReadsWhatFits(j: Job, ss: seq<State>)
    requires Run(j, ss) && M.PeekSize(ss[|ss| - 1].b.cb.rx) >= 0
    ensures var s := ss[|ss| - 1];
            && |s.b.delivered| < |s.a.accepted| && |s.a.accepted[|s.b.delivered|]| == M.PeekSize(s.b.cb.rx)
            && (CanRead(s.b, s.atB) <==> |s.a.accepted[|s.b.delivered|]| <= CAP)
  {
    var s := ss[|ss| - 1];
    RunOk(j, ss);
    hide Run, SendSide, OnMessages, Signals;
    HeadIsNext(s.b, s.a);
    hide Linked, M.Recv;
    RecvAnswers(s.b.cb, CAP);
  }

  lemma RecvAnswers(s: M.Cb, len: nat)
    requires M.PeekSize(s.rx) >= 0
    ensures M.Recv(s, len).ret >= 0 <==> M.PeekSize(s.rx) <= len
  {
    KcpMessages.PeekSizeIsExact(s.rx);
  }

  lemma HeadIsNext(x: L.Peer, y: L.Peer)
    requires Linked(y, x) && M.PeekSize(x.cb.rx) >= 0
    ensures |x.delivered| < |y.accepted| && |y.accepted[|x.delivered|]| == M.PeekSize(x.cb.rx)
  {
    var size := M.PeekSize(x.cb.rx);
    LinkedIsSymmetric(y, x);
    PeekedIsRead(x, size);
    hide L.LinkInv, L.Act, M.PeekSize;
    L.RecvKeepsLink(x, y, size);
    LinkedDelivers(L.Act(x, M.RecvOp(size)), y);
  }

  lemma PeekedIsRead(x: L.Peer, size: nat)
    requires M.PeekSize(x.cb.rx) == size
    ensures var t := L.Act(x, M.RecvOp(size));
            && t.cb.cfg == x.cb.cfg && |t.delivered| == |x.delivered| + 1 && |t.delivered[|x.delivered|]| == size
  {
    KcpMessages.PeekSizeIsExact(x.cb.rx);
    L.RecvFrame(x.cb, size);
  }

  /** A message longer than the buffer is never read, nor anything behind it: the loop stalls for good. */
  lemma TooLongStalls(j: Job, ss: seq<State>, k: nat)
    requires Run(j, ss) && k < |ss[|ss| - 1].a.accepted| && |ss[|ss| - 1].a.accepted[k]| > CAP
    ensures |ss[|ss| - 1].b.delivered| <= k
  {
    var s := ss[|ss| - 1];
    RunOk(j, ss);
    hide Run, Linked, SendSide;
    LinkedDelivers(s.a, s.b);
    FrontAvoids(s.b.delivered, s.a.accepted, k);
  }
}
