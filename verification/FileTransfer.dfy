/** FileSend.cpp and FileRecv.cpp: a file cut into messages, and put together again by the receiver. */
module FileTransfer {
  import opened Serial
  import opened Sequences
  import opened Wire
  import opened StickyPacket

  // Message types and error codes.
  const FILE_TRAN_REQ: u32 := 100
  const FILE_TRAN_RSP: u32 := 101
  const FILE_TRAN_DATA: u32 := 102
  const FILE_TRAN_END: u32 := 103
  const SUCCESS: u32 := 0
  const SEND_FAIL: u32 := 1002
  const INVALID_SIZE: u32 := 1003
  const PEER_UNKNOWN: u32 := 1008
  const PATH_SIZE: int := 256

  datatype Status = Init | Connected | Sending | SendOver | SendFail

  function Message(kind: u32, body: Bytes): Bytes {
    Encode32(kind) + Encode32(U32(HEAD + |body|)) + body
  }

  /** FileTranSig. */
  function Signal(kind: u32, code: u32): Bytes {
    Message(kind, Encode32(code))
  }

  /** FileTranReq. */
  function Request(path: Bytes, filesize: u32): Bytes {
    Message(FILE_TRAN_REQ, path + Encode32(filesize))
  }

  function Data(payload: Bytes): Bytes {
    Message(FILE_TRAN_DATA, payload)
  }

  /** A 32-bit field of a message; bytes beyond its end count as absent. */
  function Field(m: Bytes, at: nat): u32 {
    if at + 4 <= |m| then Decode32(m, at) else 0
  }

  // ---- sending ---------------------------------------------------------------------

  /** The file in pieces of at most `room` bytes, as fread returns them. */
  function Pieces(file: Bytes, room: nat): seq<Bytes>
    requires room > 0
    decreases |file|
  {
    if file == [] then [] else [file[..Min(|file|, room)]] + Pieces(file[Min(|file|, room)..], room)
  }

  function DataMessages(pieces: seq<Bytes>): seq<Bytes> {
    seq(|pieces|, i requires 0 <= i < |pieces| => Data(pieces[i]))
  }

  /** How many of n calls of _send_data were answered before the first 0. Any other answer, also a short
      count or a negative one read as unsigned, counts the piece as sent. */
  function Counted(n: nat, answers: seq<u32>): (k: nat)
    requires n <= |answers|
    ensures k <= n && (forall i :: 0 <= i < k ==> answers[i] != 0) && (k < n ==> answers[k] == 0)
  {
    if n == 0 || answers[0] == 0 then 0 else 1 + Counted(n - 1, answers[1..])
  }

  /** How many of n messages are handed over: those counted, and the one answered with 0. */
  function Tried(n: nat, answers: seq<u32>): nat
    requires n <= |answers|
  {
    Min(Counted(n, answers) + 1, n)
  }

  function EndCode(complete: bool): u32 {
    if complete then SUCCESS else SEND_FAIL
  }

  /** The calls of the data phase: data until an answer is 0, then the result. */
  function DataPhase(pieces: seq<Bytes>, answers: seq<u32>): seq<Bytes>
    requires |pieces| <= |answers|
  {
    DataMessages(pieces[..Tried(|pieces|, answers)])
    + [Signal(FILE_TRAN_END, EndCode(Counted(|pieces|, answers) == |pieces|))]
  }

  /** FileSend; `calls` are the messages handed to _send_data, whatever became of them. */
  datatype Sender = Sender(status: Status, calls: seq<Bytes>, exited: bool)

  const IDLE: Sender := Sender(Init, [], false)

  /** An empty file, or a request that is refused, ends the program. */
  function OnStart(s: Sender, path: Bytes, file: Bytes, answer: u32): Sender {
    if U32(|file|) == 0 then s.(status := Connected, exited := true)
    else s.(status := Connected, calls := s.calls + [Request(path, U32(|file|))], exited := s.exited || answer == 0)
  }

  /** A response: an error ends the program; the first success starts the data phase. */
  function OnResponse(s: Sender, m: Bytes, file: Bytes, mtu: u32, answers: seq<u32>): Sender
    requires mtu > HEAD && |Pieces(file, mtu - HEAD)| <= |answers|
  {
    var p := Pieces(file, mtu - HEAD);
    if Field(m, HEAD) != SUCCESS then s.(exited := true)
    else if s.status != Connected then s
    else if file == [] then s.(status := Sending, exited := true)
    else
      s.(status := if Counted(|p|, answers) == |p| then SendOver else SendFail, calls := s.calls + DataPhase(p, answers))
  }

  /** FileSend::DispatchMsg. */
  function OnReply(s: Sender, m: Bytes, file: Bytes, mtu: u32, answers: seq<u32>): Sender
    requires mtu > HEAD && |Pieces(file, mtu - HEAD)| <= |answers|
  {
    if s.exited then s
    else if Field(m, 0) == FILE_TRAN_RSP then OnResponse(s, m, file, mtu, answers)
    else if Field(m, 0) == FILE_TRAN_END && Field(m, HEAD) != SUCCESS then s.(exited := true)
    else s
  }

  class FileSend {
    var status: Status
    var mtu: u32
    var calls: seq<Bytes>
    var exited: bool

    function View(): Sender
      reads this
    {
      Sender(status, calls, exited)
    }

    constructor (mtu: u32)
      ensures View() == IDLE && this.mtu == mtu
    {
      status, this.mtu, calls, exited := Init, mtu, [], false;
    }

    method StartTransf(path: Bytes, file: Bytes, answer: u32)
      modifies this`status, this`calls, this`exited
      ensures View() == OnStart(old(View()), path, file, answer)
    {
      status := Connected;
      var filesize := U32(|file|);
      if filesize == 0 {
        exited := true;
        return;
      }
      calls := calls + [Request(path, filesize)];
      if answer == 0 { exited := true; }
    }

    method DispatchMsg(buf: Bytes, file: Bytes, answers: seq<u32>)
      requires mtu > HEAD && |file| < M32 && |Pieces(file, mtu - HEAD)| <= |answers|
      modifies this`status, this`calls, this`exited
      ensures View() == OnReply(old(View()), buf, file, mtu, answers)
    {
      if exited { return; }
      if Field(buf, 0) == FILE_TRAN_RSP {
        ProcTranRsp(buf, file, answers);
      } else if Field(buf, 0) == FILE_TRAN_END && Field(buf, HEAD) != SUCCESS {
        exited := true;
      }
    }

    method ProcTranRsp(buf: Bytes, file: Bytes, answers: seq<u32>)
      requires mtu > HEAD && |file| < M32 && |Pieces(file, mtu - HEAD)| <= |answers|
      modifies this`status, this`calls, this`exited
      ensures View() == OnResponse(old(View()), buf, file, mtu, answers)
    {
      hide Signal, DataMessages;
      if Field(buf, HEAD) != SUCCESS {
        exited := true;
        return;
      }
      if status != Connected { return; }
      status := Sending;
      if file == [] {
        exited := true;
        return;
      }
      ghost var before := calls;
      var all := SendPieces(file, answers);
      status := if all == |file| then SendOver else SendFail;
      var end := [Signal(FILE_TRAN_END, EndCode(status == SendOver))];
      Associate(before, DataMessages(Pieces(file, mtu - HEAD)[..Tried(|Pieces(file, mtu - HEAD)|, answers)]), end);
      calls := calls + end;
    }

    /** The read and send loop; the result is allSendLen. */
    method SendPieces(file: Bytes, answers: seq<u32>) returns (all: nat)
      requires mtu > HEAD && 0 < |file| < M32 && |Pieces(file, mtu - HEAD)| <= |answers|
      modifies this`calls
      ensures var p := Pieces(file, mtu - HEAD);
              && calls == old(calls) + DataMessages(p[..Tried(|p|, answers)])
              && (all == |file| <==> Counted(|p|, answers) == |p|)
    {
      hide Data, DataMessages, Counted, Pieces;
      ghost var p := Pieces(file, mtu - HEAD);
      ghost var batch := DataMessages(p[..0]);
      ghost var before := calls;
      var k := 0;
      all := 0;
      FirstPiece(file, 0, mtu - HEAD, p, 0);
      assert file[0..] == file && before + batch == before;
      while all < |file|
        invariant 0 <= k <= |p| && all <= |file|
        invariant Pieces(file[all..], mtu - HEAD) == p[k..] && forall i :: 0 <= i < k ==> answers[i] != 0
        invariant batch == DataMessages(p[..k]) && calls == before + batch
        decreases |file| - all
      {
        var size := Min(|file| - all, mtu - HEAD);
        var piece := file[all..all + size];
        FirstPiece(file, all, mtu - HEAD, p, k);
        Associate(before, batch, [Data(piece)]);
        calls, batch := calls + [Data(piece)], batch + [Data(piece)];
        if answers[k] == 0 {
          CountedIs(|p|, answers, k);
          return;
        }
        all, k := all + size, k + 1;
      }
      FirstPiece(file, all, mtu - HEAD, p, k);
      CountedIs(|p|, answers, k);
    }
  }

  lemma {:induction false} CountedIs(n: nat, answers: seq<u32>, k: nat)
    requires k <= n <= |answers| && (forall i :: 0 <= i < k ==> answers[i] != 0) && (k < n ==> answers[k] == 0)
    ensures Counted(n, answers) == k
  {
    if k > 0 { CountedIs(n - 1, answers[1..], k - 1); }
  }

  /** The piece at the read position, and what follows it. */
  lemma FirstPiece(file: Bytes, all: nat, room: nat, p: seq<Bytes>, k: nat)
    requires room > 0 && all <= |file| && k <= |p| && Pieces(file[all..], room) == p[k..]
    ensures DataMessages(p[..0]) == []
    ensures all == |file| ==> k == |p|
    ensures all < |file| ==>
              var size := Min(|file| - all, room);
              && k < |p| && p[k] == file[all..all + size] && Pieces(file[all + size..], room) == p[k + 1..]
              && DataMessages(p[..k + 1]) == DataMessages(p[..k]) + [Data(p[k])]
  {
    if all < |file| {
      var rest, size := file[all..], Min(|file| - all, room);
      assert rest[..size] == file[all..all + size] && rest[size..] == file[all + size..];
      OneMore(p, k, rest[..size], Pieces(rest[size..], room));
    }
  }

  lemma OneMore(p: seq<Bytes>, k: nat, piece: Bytes, rest: seq<Bytes>)
    requires k <= |p| && p[k..] == [piece] + rest
    ensures k < |p| && p[k] == piece && p[k + 1..] == rest
    ensures DataMessages(p[..k + 1]) == DataMessages(p[..k]) + [Data(piece)]
  {
    assert p[k] == p[k..][0];
  }

  // ---- receiving -------------------------------------------------------------------

  /** What the operating system answers while one message is handled: an error code for the directory
      checks and fopen (0 if they succeed), and how many bytes fwrite manages to write. */
  datatype System = System(openCode: u32, writes: nat)

  /** FileRecv; `written` is what the file on disk holds, `exited` that the program has ended. */
  datatype Receiver = Receiver(status: Status, filesize: u32, writeSize: u32, isOpen: bool, written: Bytes,
                               sent: seq<Bytes>, exited: bool)

  const FRESH: Receiver := Receiver(Init, 0, 0, false, [], [], false)

  function OnRequest(r: Receiver, m: Bytes, sys: System): Receiver {
    var filesize := Field(m, HEAD + PATH_SIZE);
    if r.status != Init then r
    else if filesize == 0 then
      r.(status := Connected, filesize := 0, sent := r.sent + [Signal(FILE_TRAN_RSP, INVALID_SIZE)], exited := true)
    else if sys.openCode != 0 then
      r.(status := Connected, filesize := filesize, sent := r.sent + [Signal(FILE_TRAN_RSP, sys.openCode)], exited := true)
    else
      r.(status := Sending, filesize := filesize, isOpen := true, written := [],
         sent := r.sent + [Signal(FILE_TRAN_RSP, SUCCESS)])
  }

  function OnEnd(r: Receiver, m: Bytes): Receiver {
    if Field(m, HEAD) != SUCCESS then r.(isOpen := false, exited := true) else r
  }

  /** fwrite manages `writes` bytes of the payload, and the sizes are compared. */
  function OnPayload(r: Receiver, payload: Bytes, writes: nat): Receiver {
    var n := Min(writes, |payload|);
    var size := Add(r.writeSize, U32(|payload|));
    var r1 := r.(written := r.written + payload[..n]);
    if n < |payload| then
      r1.(isOpen := false, sent := r.sent + [Signal(FILE_TRAN_END, PEER_UNKNOWN)], exited := true)
    else if size == r.filesize then
      Receiver(Init, 0, 0, false, r1.written, r.sent + [Signal(FILE_TRAN_END, SUCCESS)], r.exited)
    else if size > r.filesize then
      r1.(writeSize := size, isOpen := false, sent := r.sent + [Signal(FILE_TRAN_END, PEER_UNKNOWN)], exited := true)
    else r1.(writeSize := size)
  }

  function OnData(r: Receiver, m: Bytes, sys: System): Receiver {
    if !r.isOpen then r.(exited := true)
    else if |m| <= HEAD then r
    else OnPayload(r, m[HEAD..], sys.writes)
  }

  /** DispatchMsg; after the program has ended nothing happens any more. */
  function OnMessage(r: Receiver, m: Bytes, sys: System): Receiver {
    if r.exited then r
    else
      var kind := Field(m, 0);
      if kind == FILE_TRAN_REQ then OnRequest(r, m, sys)
      else if kind == FILE_TRAN_END then OnEnd(r, m)
      else if kind == FILE_TRAN_DATA then OnData(r, m, sys)
      else r
  }

  function OnMessages(r: Receiver, ms: seq<Bytes>, sys: seq<System>): Receiver
    requires |ms| <= |sys|
  {
    if ms == [] then r else OnMessage(OnMessages(r, ms[..|ms| - 1], sys), ms[|ms| - 1], sys[|ms| - 1])
  }

  class FileRecv {
    var status: Status
    var filesize: u32
    var writeSize: u32
    var isOpen: bool
    var written: Bytes
    var sent: seq<Bytes>
    var exited: bool

    function View(): Receiver
      reads this
    {
      Receiver(status, filesize, writeSize, isOpen, written, sent, exited)
    }

    constructor ()
      ensures View() == FRESH
    {
      status, filesize, writeSize, isOpen, written, sent, exited := Init, 0, 0, false, [], [], false;
    }

    method SendSignal(kind: u32, code: u32)
      modifies this`sent
      ensures sent == old(sent) + [Signal(kind, code)]
    {
      sent := sent + [Signal(kind, code)];
    }

    method DispatchMsg(buf: Bytes, sys: System)
      modifies this
      ensures View() == OnMessage(old(View()), buf, sys)
    {
      if exited { return; }
      if Field(buf, 0) == FILE_TRAN_REQ {
        ProcTranReq(buf, sys);
      } else if Field(buf, 0) == FILE_TRAN_END {
        ProcTranEnd(buf);
      } else if Field(buf, 0) == FILE_TRAN_DATA {
        ProcFileData(buf, sys);
      }
    }

    method ProcTranReq(buf: Bytes, sys: System)
      modifies this
      ensures View() == OnRequest(old(View()), buf, sys)
    {
      if status != Init { return; }
      status := Connected;
      filesize := Field(buf, HEAD + PATH_SIZE);
      if filesize == 0 {
        SendSignal(FILE_TRAN_RSP, INVALID_SIZE);
        exited := true;
        return;
      }
      if sys.openCode != 0 {
        SendSignal(FILE_TRAN_RSP, sys.openCode);
        exited := true;
        return;
      }
      isOpen, written := true, [];
      SendSignal(FILE_TRAN_RSP, SUCCESS);
      status := Sending;
    }

    method ProcTranEnd(buf: Bytes)
      modifies this`isOpen, this`exited
      ensures View() == OnEnd(old(View()), buf)
    {
      if Field(buf, HEAD) != SUCCESS {
        isOpen, exited := false, true;
      }
    }

    method ProcFileData(buf: Bytes, sys: System)
      modifies this
      ensures View() == OnData(old(View()), buf, sys)
    {
      if !isOpen {
        exited := true;
        return;
      }
      if |buf| <= HEAD { return; }
      var payload := buf[HEAD..];
      var n := Min(sys.writes, |payload|);
      written := written + payload[..n];
      if n != |payload| {
        isOpen := false;
        SendSignal(FILE_TRAN_END, PEER_UNKNOWN);
        exited := true;
        return;
      }
      writeSize := Add(writeSize, U32(n));
      if writeSize == filesize {
        isOpen := false;
        SendSignal(FILE_TRAN_END, SUCCESS);
        status, writeSize, filesize := Init, 0, 0;
      } else if writeSize > filesize {
        isOpen := false;
        SendSignal(FILE_TRAN_END, PEER_UNKNOWN);
        exited := true;
      }
    }
  }

  // ---- one transfer ----------------------------------------------------------------

  lemma MessageParts(kind: u32, body: Bytes)
    requires HEAD + |body| < M32
    ensures var m := Message(kind, body);
            |m| == HEAD + |body| && Field(m, 0) == kind && TotalLen(m) == |m| && m[HEAD..] == body
  {
    var m := Message(kind, body);
    MessageLayout(Encode32(kind), Encode32(HEAD + |body|), body);
    hide Encode32;
    WordAt(m, 0, kind);
    WordAt(m, 4, HEAD + |body|);
  }

  lemma MessageLayout(x: Bytes, y: Bytes, body: Bytes)
    requires |x| == |y| == 4
    ensures var m := x + y + body; |m| == HEAD + |body| && m[0..4] == x && m[4..8] == y && m[HEAD..] == body
  {
  }

  lemma SignalParts(kind: u32, code: u32)
    ensures var m := Signal(kind, code); |m| == 12 && Field(m, 0) == kind && TotalLen(m) == 12 && Field(m, HEAD) == code
  {
    var m := Signal(kind, code);
    MessageParts(kind, Encode32(code));
    assert m[8..12] == m[HEAD..];
    WordAt(m, 8, code);
  }

  lemma RequestParts(path: Bytes, filesize: u32)
    requires |path| == PATH_SIZE
    ensures var m := Request(path, filesize);
            |m| == 268 && Field(m, 0) == FILE_TRAN_REQ && TotalLen(m) == 268 && Field(m, HEAD + PATH_SIZE) == filesize
  {
    var m := Request(path, filesize);
    MessageParts(FILE_TRAN_REQ, path + Encode32(filesize));
    assert m[264..268] == m[HEAD..][256..260] == Encode32(filesize);
    WordAt(m, 264, filesize);
  }

  /** The pieces are not empty, fit the room, and make up the file. */
  lemma {:induction false} PiecesShape(file: Bytes, room: nat)
    requires room > 0
    ensures var p := Pieces(file, room);
            Flat(p) == file && forall i :: 0 <= i < |p| ==> 0 < |p[i]| <= room
    decreases |file|
  {
    if file != [] {
      var n := Min(|file|, room);
      PiecesShape(file[n..], room);
      FlatCons(file[..n], Pieces(file[n..], room));
      assert file[..n] + file[n..] == file;
    }
  }

  lemma {:induction false} FlatFront(p: seq<Bytes>, k: nat)
    requires k <= |p|
    ensures Flat(p[..k]) <= Flat(p)
  {
    FlatConcat(p[..k], p[k..]);
    assert p[..k] + p[k..] == p;
  }

  /** A proper front of a list of non-empty pieces is shorter than the whole. */
  lemma {:induction false} FlatGrows(p: seq<Bytes>, k: nat)
    requires k <= |p| && forall i :: 0 <= i < |p| ==> |p[i]| > 0
    ensures k < |p| ==> |Flat(p[..k])| < |Flat(p)|
  {
    if k < |p| {
      assert p[..k + 1][..k] == p[..k];
      FlatFront(p, k + 1);
    }
  }

  lemma SignalsDiffer(kind: u32, code: u32, kind': u32, code': u32)
    ensures Signal(kind, code) == Signal(kind', code') ==> kind == kind' && code == code'
  {
    SignalParts(kind, code);
    SignalParts(kind', code');
  }

  const DONE: Bytes := Signal(FILE_TRAN_END, SUCCESS)

  /** What is on disk is a front of the pieces, and completion was reported exactly if it is `size` bytes. */
  ghost predicate Told(r: Receiver, q: seq<Bytes>, size: int) {
    r.written <= Flat(q) && (DONE in r.sent <==> |r.written| == size)
  }

  /** The file on disk is a front of the source file, and completion was reported exactly if it is all of it. */
  ghost predicate Faithful(r: Receiver, file: Bytes) {
    r.written <= file && (DONE in r.sent <==> r.written == file)
  }

  /** Pieces that arrive of a file of `size` bytes; some may be missing. */
  ghost predicate Survivors(q: seq<Bytes>, size: int) {
    |Flat(q)| <= size && 0 < size < M32 && forall i :: 0 <= i < |q| ==> 0 < |q[i]| < M32 - HEAD
  }

  /** k pieces have arrived and been written. */
  ghost predicate Arrived(r: Receiver, q: seq<Bytes>, k: nat, size: int) {
    && k <= |q| && !r.exited && r.written == Flat(q[..k])
    && (if |r.written| < size then
          r.status == Sending && r.isOpen && r.filesize == size && r.writeSize == |r.written| && DONE !in r.sent
        else r.status == Init && !r.isOpen && DONE in r.sent)
  }

  lemma ArrivedIsTold(r: Receiver, q: seq<Bytes>, k: nat, size: int)
    requires Arrived(r, q, k, size) && Survivors(q, size)
    ensures Told(r, q, size)
  {
    FlatFront(q, k);
  }

  lemma ToldIsFaithful(r: Receiver, p: seq<Bytes>, k: nat, file: Bytes)
    requires k <= |p| && Flat(p) == file && Told(r, p[..k], |file|)
    ensures Faithful(r, file)
  {
    FlatFront(p, k);
  }

  lemma RequestArrives(path: Bytes, q: seq<Bytes>, size: u32, sys: System)
    requires |path| == PATH_SIZE && Survivors(q, size)
    ensures var r := OnMessage(FRESH, Request(path, size), sys);
            if r.exited then sys.openCode != 0 && Told(r, q, size) else Arrived(r, q, 0, size)
  {
    RequestParts(path, size);
    SignalsDiffer(FILE_TRAN_RSP, sys.openCode, FILE_TRAN_END, SUCCESS);
    SignalsDiffer(FILE_TRAN_RSP, SUCCESS, FILE_TRAN_END, SUCCESS);
    assert q[..0] == [];
  }

  lemma DataIsWritten(r: Receiver, payload: Bytes, sys: System)
    requires !r.exited && r.isOpen && 0 < |payload| < M32 - HEAD
    ensures OnMessage(r, Data(payload), sys) == OnPayload(r, payload, sys.writes)
  {
    MessageParts(FILE_TRAN_DATA, payload);
  }

  lemma PieceArrives(r: Receiver, q: seq<Bytes>, k: nat, size: int, sys: System)
    requires Arrived(r, q, k, size) && k < |q| && Survivors(q, size)
    ensures var t := OnMessage(r, Data(q[k]), sys);
            if t.exited then sys.writes < |q[k]| && Told(t, q, size) else Arrived(t, q, k + 1, size)
  {
    FlatFront(q, k + 1);
    assert q[..k + 1][..k] == q[..k];
    assert Flat(q[..k + 1]) == r.written + q[k];
    DataIsWritten(r, q[k], sys);
    PayloadArrives(r, q[k], sys.writes, size);
    var n := Min(sys.writes, |q[k]|);
    assert r.written + q[k][..n] <= r.written + q[k] && q[k][..|q[k]|] == q[k];
  }

  /** One piece is written, in full or in part, and completion is reported if the size is reached. */
  lemma PayloadArrives(r: Receiver, x: Bytes, writes: nat, size: int)
    requires !r.exited && r.status == Sending && r.isOpen && r.filesize == size && r.writeSize == |r.written|
    requires DONE !in r.sent && 0 < |x| && |r.written| + |x| <= size < M32
    ensures var t := OnPayload(r, x, writes);
            && t.written == r.written + x[..Min(writes, |x|)] && t.exited == (writes < |x|)
            && (DONE in t.sent <==> |t.written| == size)
            && (!t.exited && |t.written| == size ==> t.status == Init && !t.isOpen)
            && (!t.exited && |t.written| < size ==>
                 t.status == Sending && t.isOpen && t.filesize == size && t.writeSize == |t.written|)
  {
    SignalsDiffer(FILE_TRAN_END, PEER_UNKNOWN, FILE_TRAN_END, SUCCESS);
    hide Signal;
  }

  lemma EndArrives(r: Receiver, q: seq<Bytes>, k: nat, size: int, code: u32, sys: System)
    requires Arrived(r, q, k, size) && Survivors(q, size)
    ensures var t := OnMessage(r, Signal(FILE_TRAN_END, code), sys);
            if t.exited then code != SUCCESS && Told(t, q, size) else Arrived(t, q, k, size)
  {
    SignalParts(FILE_TRAN_END, code);
    ArrivedIsTold(r, q, k, size);
  }

  /** What arrives of a transfer: the request, these pieces, and the result. */
  function Transfer(path: Bytes, size: u32, q: seq<Bytes>, code: u32): seq<Bytes> {
    [Request(path, size)] + (DataMessages(q) + [Signal(FILE_TRAN_END, code)])
  }

  lemma Assembled<T>(first: T, middle: seq<T>, last: T)
    ensures var s := [first] + (middle + [last]);
            && |s| == |middle| + 2 && s[0] == first && s[|middle| + 1] == last
            && forall i :: 0 <= i < |middle| ==> s[i + 1] == middle[i]
  {
  }

  lemma TransferParts(path: Bytes, size: u32, q: seq<Bytes>, code: u32)
    ensures var s := Transfer(path, size, q, code);
            && |s| == |q| + 2 && s[0] == Request(path, size) && s[|q| + 1] == Signal(FILE_TRAN_END, code)
            && forall i :: 0 <= i < |q| ==> s[i + 1] == Data(q[i])
  {
    hide Data, Request, Signal;
    Assembled(Request(path, size), DataMessages(q), Signal(FILE_TRAN_END, code));
  }

  /** Opening and writing the file always succeed. */
  ghost predicate Healthy(sys: seq<System>) {
    forall i :: 0 <= i < |sys| ==> sys[i].openCode == 0 && sys[i].writes >= M32
  }

  /** The receiver after any front of a transfer. */
  lemma {:induction false} TransferArrives(path: Bytes, size: u32, q: seq<Bytes>, code: u32, j: nat, sys: seq<System>)
    requires |path| == PATH_SIZE && Survivors(q, size) && 0 < j <= |q| + 2 && j <= |sys|
    ensures j <= |Transfer(path, size, q, code)|
    ensures var r := OnMessages(FRESH, Transfer(path, size, q, code)[..j], sys);
            if r.exited then Told(r, q, size) && !(Healthy(sys) && code == SUCCESS)
            else Arrived(r, q, Min(j - 1, |q|), size)
    decreases j
  {
    var s := Transfer(path, size, q, code);
    TransferParts(path, size, q, code);
    hide Request, Data, Signal, Transfer, Told, Arrived, Survivors;
    assert s[..j][..j - 1] == s[..j - 1] && s[..j][j - 1] == s[j - 1];
    var r := OnMessages(FRESH, s[..j - 1], sys);
    if j == 1 {
      assert s[..0] == [];
      RequestArrives(path, q, size, sys[0]);
    } else {
      TransferArrives(path, size, q, code, j - 1, sys);
      if r.exited {
      } else if j - 2 < |q| {
        assert s[(j - 2) + 1] == Data(q[j - 2]);
        PiecesAreBelow(q, size, j - 2);
        PieceArrives(r, q, j - 2, size, sys[j - 1]);
      } else {
        EndArrives(r, q, |q|, size, code, sys[j - 1]);
      }
    }
  }

  lemma PiecesAreBelow(q: seq<Bytes>, size: int, k: nat)
    requires Survivors(q, size) && k < |q|
    ensures |q[k]| < M32
  {
  }

  /** Whatever front of a transfer arrives, what is on disk is a front of the pieces, and completion is
      reported exactly when it has the announced size. */
  lemma TransferIsTold(path: Bytes, size: u32, q: seq<Bytes>, code: u32, got: seq<Bytes>, sys: seq<System>)
    requires |path| == PATH_SIZE && Survivors(q, size) && |got| <= |sys|
    requires got <= Transfer(path, size, q, code)
    ensures Told(OnMessages(FRESH, got, sys), q, size)
  {
    TransferParts(path, size, q, code);
    if got != [] {
      assert got == Transfer(path, size, q, code)[..|got|];
      TransferArrives(path, size, q, code, |got|, sys);
      if !OnMessages(FRESH, got, sys).exited {
        ArrivedIsTold(OnMessages(FRESH, got, sys), q, Min(|got| - 1, |q|), size);
      }
    }
  }

  /** If the disk does its part and the result says success, all pieces that arrive are written, and
      completion is reported exactly if none is missing. */
  lemma WholeTransferEnds(path: Bytes, size: u32, q: seq<Bytes>, sys: seq<System>)
    requires |path| == PATH_SIZE && Survivors(q, size) && Healthy(sys) && |q| + 2 <= |sys|
    ensures |Transfer(path, size, q, SUCCESS)| == |q| + 2
    ensures var r := OnMessages(FRESH, Transfer(path, size, q, SUCCESS), sys);
            !r.exited && r.written == Flat(q) && (DONE in r.sent <==> |Flat(q)| == size)
  {
    var s := Transfer(path, size, q, SUCCESS);
    TransferParts(path, size, q, SUCCESS);
    TransferArrives(path, size, q, SUCCESS, |q| + 2, sys);
    assert s[..|q| + 2] == s && q[..|q|] == q;
  }

  /** No data message finds the file closed. */
  lemma DataFindsFileOpen(path: Bytes, size: u32, q: seq<Bytes>, code: u32, j: nat, sys: seq<System>)
    requires |path| == PATH_SIZE && Survivors(q, size) && 0 < j <= |q| && j <= |sys|
    ensures j < |Transfer(path, size, q, code)| && Field(Transfer(path, size, q, code)[j], 0) == FILE_TRAN_DATA
    ensures var r := OnMessages(FRESH, Transfer(path, size, q, code)[..j], sys); r.exited || r.isOpen
  {
    TransferParts(path, size, q, code);
    assert Transfer(path, size, q, code)[(j - 1) + 1] == Data(q[j - 1]);
    MessageParts(FILE_TRAN_DATA, q[j - 1]);
    TransferArrives(path, size, q, code, j, sys);
    FlatGrows(q, j - 1);
  }

  /** The pieces of a file, or the first of them. */
  lemma PiecesSurvive(file: Bytes, mtu: u32, k: nat)
    requires mtu > HEAD && 0 < |file| < M32 && k <= |Pieces(file, mtu - HEAD)|
    ensures var p := Pieces(file, mtu - HEAD);
            Survivors(p[..k], |file|) && Flat(p) == file && (Flat(p[..k]) == file <==> k == |p|)
  {
    var p := Pieces(file, mtu - HEAD);
    PiecesShape(file, mtu - HEAD);
    FlatFront(p, k);
    FlatGrows(p, k);
    assert p[..|p|] == p;
  }

  // ---- framing ---------------------------------------------------------------------

  ghost predicate Framed(m: Bytes) {
    HEAD <= |m| == TotalLen(m) <= MAX_PKT_SIZE
  }

  /** Messages that state their own length are what the framing reads back from their bytes. */
  lemma {:induction false} FramedStream(ms: seq<Bytes>)
    requires forall i :: 0 <= i < |ms| ==> Framed(ms[i])
    ensures Messages(Flat(ms)) == ms && WellFramed(Flat(ms))
  {
    if ms != [] {
      FramedStream(ms[1..]);
      FlatCons(ms[0], ms[1..]);
      assert [ms[0]] + ms[1..] == ms;
      FrontMessage(ms[0], Flat(ms[1..]));
      assert ms[0][|ms[0]|..] + Flat(ms[1..]) == Flat(ms[1..]);
    }
  }

  lemma TransferIsFramed(path: Bytes, size: u32, q: seq<Bytes>, code: u32)
    requires |path| == PATH_SIZE && forall i :: 0 <= i < |q| ==> HEAD + |q[i]| <= MAX_PKT_SIZE
    ensures var s := Transfer(path, size, q, code); forall i :: 0 <= i < |s| ==> Framed(s[i])
  {
    var s := Transfer(path, size, q, code);
    TransferParts(path, size, q, code);
    RequestParts(path, size);
    SignalParts(FILE_TRAN_END, code);
    hide Transfer, Request, Signal, Data;
    forall i | 0 <= i < |s|
      ensures Framed(s[i])
    {
      if 0 < i < |s| - 1 {
        assert s[(i - 1) + 1] == Data(q[i - 1]);
        DataIsFramed(q[i - 1]);
      }
    }
  }

  lemma DataIsFramed(x: Bytes)
    requires HEAD + |x| <= MAX_PKT_SIZE
    ensures Framed(Data(x))
  {
    MessageParts(FILE_TRAN_DATA, x);
  }
}
