/** File transfer over TCP: what SockUtil::send_tcp_data makes of each message, and what that means for the file. */
module FileStream {
  import opened Serial
  import opened Sequences
  import opened Wire
  import opened StickyPacket
  import opened FileTransfer

  // ---- one call of _send_data ------------------------------------------------------

  /** What one send system call answers: bytes taken, a full kernel buffer, an error, or 0. */
  datatype Reply = Took(n: nat) | Again | Error | Zero

  /** The answer FileSend sees, and the bytes of the message that reached the stream. */
  datatype Outcome = Outcome(answer: u32, reached: Bytes)

  const RETRIES: nat := 10000

  /** The front of the message reached the stream, and the answer is its length; only a send that
      returns 0 makes the answer 0 whatever was sent before. */
  ghost predicate Possible(m: Bytes, o: Outcome) {
    o.reached <= m && (o.answer == |o.reached| || o.answer == 0)
  }

  /** Nothing was refused and nothing is missing, or nothing was sent and the caller knows. */
  predicate Whole(m: Bytes, o: Outcome) {
    o.reached == if o.answer == 0 then [] else m
  }

  /** SockUtil::send_tcp_data; `reply(i)` is what the i-th send answers. */
  method SendTcpData(buff: Bytes, reply: nat -> Reply) returns (o: Outcome)
    requires |buff| < M32
    ensures Possible(buff, o)
    ensures (forall i :: reply(i).Took? && reply(i).n > 0) ==> o == Outcome(|buff|, buff)
    ensures reply(0) == Error ==> o == Outcome(0, [])
  {
    var total, i, retries := 0, 0, 0;
    while total < |buff|
      invariant total <= |buff| && retries <= RETRIES && (i == 0 ==> total == 0)
      invariant reply(0) == Error ==> i == 0
      decreases |buff| - total, RETRIES - retries
    {
      match reply(i) {
        case Took(n) =>
          if n == 0 { return Outcome(0, buff[..total]); }
          total := total + Min(n, |buff| - total);
        case Again =>
          if retries == RETRIES { return Outcome(total, buff[..total]); }
          retries := retries + 1;
        case Error => return Outcome(total, buff[..total]);
        case Zero => return Outcome(0, buff[..total]);
      }
      i := i + 1;
    }
    assert buff[..|buff|] == buff;
    return Outcome(|buff|, buff);
  }

  // ---- the stream of one transfer --------------------------------------------------

  function Answers(outs: seq<Outcome>): seq<u32> {
    seq(|outs|, i requires 0 <= i < |outs| => outs[i].answer)
  }

  function Reached(outs: seq<Outcome>): seq<Bytes> {
    seq(|outs|, i requires 0 <= i < |outs| => outs[i].reached)
  }

  /** Each message met one of the outcomes it can meet. */
  ghost predicate AllPossible(ms: seq<Bytes>, outs: seq<Outcome>) {
    |ms| == |outs| && forall i :: 0 <= i < |ms| ==> Possible(ms[i], outs[i])
  }

  /** What the data messages put on the stream. */
  function DataStream(outs: seq<Outcome>): Bytes {
    Flat(Reached(outs[..Tried(|outs|, Answers(outs))]))
  }

  /** Everything one transfer puts on the stream: the data phase begins only after the whole request
      arrived, since it waits for the response; of the closing message some front `end` gets through. */
  function Stream(path: Bytes, file: Bytes, outs: seq<Outcome>, end: Bytes): Bytes {
    Request(path, U32(|file|)) + DataStream(outs) + end
  }

  /** Every message that was handed over went out whole, or not at all with the answer 0. */
  ghost predicate AllWhole(ms: seq<Bytes>, outs: seq<Outcome>)
    requires |ms| == |outs|
  {
    forall i :: 0 <= i < Tried(|outs|, Answers(outs)) ==> Whole(ms[i], outs[i])
  }

  /** Fronts fill the wholes exactly if none is cut short. */
  lemma {:induction false} FrontsFill(x: seq<Bytes>, y: seq<Bytes>)
    requires |x| == |y| && forall i :: 0 <= i < |x| ==> x[i] <= y[i]
    ensures |Flat(x)| <= |Flat(y)|
    ensures |Flat(x)| == |Flat(y)| <==> forall i :: 0 <= i < |x| ==> |x[i]| == |y[i]|
  {
    if x != [] {
      var n := |x| - 1;
      FrontsFill(x[..n], y[..n]);
      assert (forall i :: 0 <= i < n ==> |x[..n][i]| == |y[..n][i]|) <==> forall i :: 0 <= i < n ==> |x[i]| == |y[i]|;
    }
  }

  /** What FileSend counts as sent is what reached the stream, exactly if every answer that was not 0 was
      the full length. */
  lemma CountIsTrueExactly(ms: seq<Bytes>, outs: seq<Outcome>)
    requires AllPossible(ms, outs)
    ensures var c := Counted(|outs|, Answers(outs));
            Flat(Reached(outs[..c])) == Flat(ms[..c]) <==> forall i :: 0 <= i < c ==> outs[i].answer == |ms[i]|
  {
    var c := Counted(|outs|, Answers(outs));
    var x, y := Reached(outs[..c]), ms[..c];
    assert forall i :: 0 <= i < c ==> Answers(outs)[i] != 0;
    assert forall i :: 0 <= i < c ==> x[i] == outs[i].reached <= ms[i] == y[i] && outs[i].answer == |x[i]|;
    hide Counted, Answers, Reached, Possible;
    FrontsFill(x, y);
    if forall i :: 0 <= i < c ==> outs[i].answer == |ms[i]| {
      SameLengths(x, y);
    }
  }

  lemma SameLengths(x: seq<Bytes>, y: seq<Bytes>)
    requires |x| == |y| && forall i :: 0 <= i < |x| ==> x[i] <= y[i] && |x[i]| == |y[i]|
    ensures x == y
  {
    forall i | 0 <= i < |x|
      ensures x[i] == y[i]
    {
      assert x[i] == y[i][..|x[i]|] == y[i];
    }
  }

  /** With whole messages only, the data on the stream is that of the counted messages. */
  lemma WholeStream(ms: seq<Bytes>, outs: seq<Outcome>)
    requires |ms| == |outs| && AllWhole(ms, outs)
    ensures DataStream(outs) == Flat(ms[..Counted(|outs|, Answers(outs))])
  {
    var c := Counted(|outs|, Answers(outs));
    assert forall i :: 0 <= i < c ==> Answers(outs)[i] != 0 && Whole(ms[i], outs[i]);
    assert c < |outs| ==> Answers(outs)[c] == 0 && Whole(ms[c], outs[c]);
    EmptyEnd(Reached(outs[..Tried(|outs|, Answers(outs))]), ms[..c]);
  }

  lemma EmptyEnd(x: seq<Bytes>, y: seq<Bytes>)
    requires |y| <= |x| <= |y| + 1 && x[..|y|] == y && (|y| < |x| ==> x[|y|] == [])
    ensures Flat(x) == Flat(y)
  {
    assert |y| < |x| ==> x[..|x| - 1] == y && Flat(y) + [] == Flat(y);
  }

  /** The data messages of a file. */
  function FileMessages(file: Bytes, mtu: u32): seq<Bytes>
    requires mtu > HEAD
  {
    DataMessages(Pieces(file, mtu - HEAD))
  }

  /** The pieces that FileSend counts as sent, and the result it reports. */
  function CountedPieces(file: Bytes, mtu: u32, outs: seq<Outcome>): seq<Bytes>
    requires mtu > HEAD && |outs| == |FileMessages(file, mtu)|
  {
    Pieces(file, mtu - HEAD)[..Counted(|outs|, Answers(outs))]
  }

  function Result(outs: seq<Outcome>): u32 {
    EndCode(Counted(|outs|, Answers(outs)) == |outs|)
  }

  /** The stream is the front of a transfer of the counted pieces. */
  lemma StreamIsFront(path: Bytes, file: Bytes, mtu: u32, outs: seq<Outcome>, end: Bytes)
    requires mtu > HEAD && |file| < M32 && |outs| == |FileMessages(file, mtu)|
    requires AllWhole(FileMessages(file, mtu), outs) && end <= Signal(FILE_TRAN_END, Result(outs))
    ensures Stream(path, file, outs, end) <= Flat(Transfer(path, |file|, CountedPieces(file, mtu, outs), Result(outs)))
  {
    hide Request, Signal, Result, AllWhole, DataStream, CountedPieces, DataMessages, FileMessages, Flat;
    assert U32(|file|) == |file|;
    CountedStream(file, mtu, outs);
    TransferFront(Request(path, |file|), DataMessages(CountedPieces(file, mtu, outs)), Signal(FILE_TRAN_END, Result(outs)), end);
  }

  lemma TransferFront(first: Bytes, middle: seq<Bytes>, last: Bytes, end: Bytes)
    requires end <= last
    ensures first + Flat(middle) + end <= Flat([first] + (middle + [last]))
  {
    TransferBytes(first, middle, last);
    FrontOf(first + Flat(middle), end, last);
  }

  lemma CountedStream(file: Bytes, mtu: u32, outs: seq<Outcome>)
    requires mtu > HEAD && |outs| == |FileMessages(file, mtu)| && AllWhole(FileMessages(file, mtu), outs)
    ensures DataStream(outs) == Flat(DataMessages(CountedPieces(file, mtu, outs)))
  {
    hide DataStream, Pieces, AllWhole, Counted;
    WholeStream(FileMessages(file, mtu), outs);
    MessagesFront(Pieces(file, mtu - HEAD), Counted(|outs|, Answers(outs)));
  }

  lemma MessagesFront(p: seq<Bytes>, c: nat)
    requires c <= |p|
    ensures DataMessages(p[..c]) == DataMessages(p)[..c]
  {
    hide Data;
  }

  lemma FrontOf(x: Bytes, end: Bytes, last: Bytes)
    requires end <= last
    ensures x + end <= x + last
  {
  }

  lemma TransferBytes(first: Bytes, middle: seq<Bytes>, last: Bytes)
    ensures Flat([first] + (middle + [last])) == first + Flat(middle) + last
  {
    FlatCons(first, middle + [last]);
    FlatAppend(middle, last);
    Associate(first, Flat(middle), last);
  }

  /** The condition for TCP: if every message went out whole or was refused with the answer 0, then any
      part of the stream, arriving in any pieces, leaves the receiver running, with a front of the
      messages, and faithful to the file. */
  lemma FileOverStream(path: Bytes, file: Bytes, mtu: u32, outs: seq<Outcome>, end: Bytes, capacity: nat,
                       arrivals: seq<Bytes>, sys: seq<System>)
    requires |path| == PATH_SIZE && HEAD < mtu <= MAX_PKT_SIZE && 0 < |file| < M32
    requires |outs| == |FileMessages(file, mtu)| && |outs| + 2 <= |sys|
    requires AllWhole(FileMessages(file, mtu), outs) && end <= Signal(FILE_TRAN_END, Result(outs))
    requires capacity >= HEAD && Fitting(Framer([], capacity, [], Running), arrivals)
    requires Flat(arrivals) <= Stream(path, file, outs, end)
    ensures var f := ReceiveAll(Framer([], capacity, [], Running), arrivals);
            f.status == Running && |f.dispatched| <= |sys| && Faithful(OnMessages(FRESH, f.dispatched, sys), file)
  {
    var q := CountedPieces(file, mtu, outs);
    hide Fitting, ReceiveAll, OnMessages, Told, Faithful, Survivors, Stream, AllWhole, Signal, Request, Framed, Transfer,
         CountedPieces, Pieces, FileMessages, Result;
    StreamIsFront(path, file, mtu, outs, end);
    CountedFacts(path, file, mtu, outs, Result(outs));
    StreamIsRead(Transfer(path, |file|, q, Result(outs)), capacity, arrivals);
    var got := ReceiveAll(Framer([], capacity, [], Running), arrivals).dispatched;
    CountedIsFaithful(path, file, mtu, outs, Result(outs), got, sys);
  }

  /** The transfer of the counted pieces is framed, and at most two messages longer than they are. */
  lemma CountedFacts(path: Bytes, file: Bytes, mtu: u32, outs: seq<Outcome>, code: u32)
    requires |path| == PATH_SIZE && HEAD < mtu <= MAX_PKT_SIZE && 0 < |file| < M32
    requires |outs| == |FileMessages(file, mtu)|
    ensures var s := Transfer(path, |file|, CountedPieces(file, mtu, outs), code);
            |s| <= |outs| + 2 && forall i :: 0 <= i < |s| ==> Framed(s[i])
  {
    var q := CountedPieces(file, mtu, outs);
    PiecesShape(file, mtu - HEAD);
    hide Framed, Transfer, Pieces, Counted;
    TransferIsFramed(path, |file|, q, code);
    TransferParts(path, |file|, q, code);
  }

  /** Any front of the transfer of the counted pieces leaves the receiver faithful to the file. */
  lemma CountedIsFaithful(path: Bytes, file: Bytes, mtu: u32, outs: seq<Outcome>, code: u32, got: seq<Bytes>, sys: seq<System>)
    requires |path| == PATH_SIZE && mtu > HEAD && 0 < |file| < M32
    requires |outs| == |FileMessages(file, mtu)| && |got| <= |sys|
    requires got <= Transfer(path, |file|, CountedPieces(file, mtu, outs), code)
    ensures Faithful(OnMessages(FRESH, got, sys), file)
  {
    var k := Counted(|outs|, Answers(outs));
    hide Counted, Pieces, Transfer, Told, Faithful, Survivors, OnMessages;
    PiecesSurvive(file, mtu, k);
    TransferIsTold(path, |file|, CountedPieces(file, mtu, outs), code, got, sys);
    ToldIsFaithful(OnMessages(FRESH, got, sys), Pieces(file, mtu - HEAD), k, file);
  }

  /** Any part of a stream of framed messages, in any pieces: a front of the messages is dispatched. */
  lemma StreamIsRead(s: seq<Bytes>, capacity: nat, arrivals: seq<Bytes>)
    requires forall i :: 0 <= i < |s| ==> Framed(s[i])
    requires capacity >= HEAD && Fitting(Framer([], capacity, [], Running), arrivals) && Flat(arrivals) <= Flat(s)
    ensures var f := ReceiveAll(Framer([], capacity, [], Running), arrivals);
            f.status == Running && f.dispatched <= s && (Flat(arrivals) == Flat(s) ==> f.dispatched == s)
  {
    FramedStream(s);
    PrefixIsWellFramed(Flat(arrivals), Flat(s));
    WellFramedStreamsAreCut(capacity, arrivals);
    PrefixIsCut(Flat(arrivals), Flat(s));
  }

  /** And it is enough for success: every answer the full length, the whole stream arrives, the disk does
      its part. */
  lemma FileCompletesOverStream(path: Bytes, file: Bytes, mtu: u32, outs: seq<Outcome>, capacity: nat,
                                arrivals: seq<Bytes>, sys: seq<System>)
    requires |path| == PATH_SIZE && HEAD < mtu <= MAX_PKT_SIZE && 0 < |file| < M32
    requires AllPossible(FileMessages(file, mtu), outs) && |outs| + 2 <= |sys| && Healthy(sys)
    requires forall i :: 0 <= i < |outs| ==> outs[i].answer == |FileMessages(file, mtu)[i]|
    requires capacity >= HEAD && Fitting(Framer([], capacity, [], Running), arrivals)
    requires Flat(arrivals) == Stream(path, file, outs, Signal(FILE_TRAN_END, SUCCESS))
    ensures var f := ReceiveAll(Framer([], capacity, [], Running), arrivals);
            && f.status == Running && |f.dispatched| <= |sys|
            && var r := OnMessages(FRESH, f.dispatched, sys); !r.exited && r.written == file && DONE in r.sent
  {
    var p := Pieces(file, mtu - HEAD);
    hide Request, Signal, Data, Framed, Survivors, Possible, Answers, Reached, Healthy, Fitting, ReceiveAll, OnMessages, Stream;
    CompleteStream(path, file, mtu, outs);
    WholePieces(file, mtu);
    TransferIsFramed(path, |file|, p, SUCCESS);
    TransferParts(path, |file|, p, SUCCESS);
    hide Transfer, Pieces, FileMessages, AllPossible;
    StreamIsRead(Transfer(path, |file|, p, SUCCESS), capacity, arrivals);
    WholeTransferEnds(path, |file|, p, sys);
  }

  lemma WholePieces(file: Bytes, mtu: u32)
    requires HEAD < mtu <= MAX_PKT_SIZE && 0 < |file| < M32
    ensures var p := Pieces(file, mtu - HEAD);
            && Survivors(p, |file|) && Flat(p) == file && |FileMessages(file, mtu)| == |p|
            && forall i :: 0 <= i < |p| ==> HEAD + |p[i]| <= MAX_PKT_SIZE
  {
    PiecesShape(file, mtu - HEAD);
  }

  lemma CompleteStream(path: Bytes, file: Bytes, mtu: u32, outs: seq<Outcome>)
    requires mtu > HEAD && |file| < M32 && AllPossible(FileMessages(file, mtu), outs)
    requires forall i :: 0 <= i < |outs| ==> outs[i].answer == |FileMessages(file, mtu)[i]|
    ensures Stream(path, file, outs, Signal(FILE_TRAN_END, SUCCESS))
         == Flat(Transfer(path, |file|, Pieces(file, mtu - HEAD), SUCCESS))
  {
    var p := Pieces(file, mtu - HEAD);
    assert U32(|file|) == |file|;
    MessagesAreLong(p);
    hide Request, Signal, Data, DataMessages, AllPossible, DataStream, Pieces;
    AllAnswered(FileMessages(file, mtu), outs);
    TransferBytes(Request(path, |file|), DataMessages(p), Signal(FILE_TRAN_END, SUCCESS));
  }

  lemma MessagesAreLong(p: seq<Bytes>)
    ensures forall i :: 0 <= i < |p| ==> |DataMessages(p)[i]| > 0
  {
  }

  lemma AllAnswered(ms: seq<Bytes>, outs: seq<Outcome>)
    requires AllPossible(ms, outs)
    requires forall i :: 0 <= i < |outs| ==> outs[i].answer == |ms[i]| > 0
    ensures Counted(|outs|, Answers(outs)) == |outs| && DataStream(outs) == Flat(ms)
  {
    CountedIs(|outs|, Answers(outs), |outs|);
    WholeStream(ms, outs);
    assert ms[..|outs|] == ms;
  }

  // ---- a message cut short ---------------------------------------------------------

  /** Nine of the ten bytes of the message that carries a two-byte file. */
  function Nine(a: byte): Bytes {
    [102, 0, 0, 0, 10, 0, 0, 0, a]
  }

  lemma NineOfTen(a: byte, b: byte)
    ensures Nine(a) + [b] == Data([a, b]) && |Data([a, b])| == 10
  {
  }

  lemma TinyFile(a: byte, b: byte, mtu: u32)
    requires mtu >= 10
    ensures FileMessages([a, b], mtu) == [Data([a, b])]
  {
    var file: Bytes := [a, b];
    assert file[..2] == file && file[2..] == [];
    assert Pieces(file[2..], mtu - HEAD) == [];
  }

  /** The first byte of the closing message completes the short one; what follows is no message. */
  lemma EndIsSwallowed(path: Bytes, a: byte, code: u32)
    requires |path| == PATH_SIZE && (code == SUCCESS || code == SEND_FAIL)
    ensures var s := Request(path, 2) + Nine(a) + Signal(FILE_TRAN_END, code);
            && Messages(s) == [Request(path, 2), Data([a, 103])] && |s| == 289 && TotalLen(s) == 268
            && (code == SUCCESS ==> Stuck(s))
  {
    var first, d, end := Request(path, 2), Data([a, 103]), Signal(FILE_TRAN_END, code);
    RequestParts(path, 2);
    NineOfTen(a, 103);
    MessageParts(FILE_TRAN_DATA, [a, 103]);
    EndBytes(code);
    hide Request, Signal, Data, Nine, Messages, Remainder;
    ByteMoves(first, Nine(a), end);
    WholeIsCut(first, d + end[1..]);
    WholeIsCut(d, end[1..]);
  }

  lemma ByteMoves(x: Bytes, y: Bytes, z: Bytes)
    requires z != []
    ensures x + y + z == x + ((y + [z[0]]) + z[1..])
  {
  }

  lemma EndBytes(code: u32)
    requires code == SUCCESS || code == SEND_FAIL
    ensures var end := Signal(FILE_TRAN_END, code);
            && |end| == 12 && end[0] == 103 && Messages(end[1..]) == [] && Remainder(end[1..]) == end[1..]
            && (code == SUCCESS ==> TotalLen(end[1..]) == 0)
  {
    var rest := Signal(FILE_TRAN_END, code)[1..];
    assert rest[4] == rest[5] == rest[6] == 0 && rest[7] == code % 0x100;
  }

  /** A failing input: one byte of a message is missing, because send_tcp_data gave up (the answer is
      short) or a send returned 0 (the answer is 0). A byte of the closing message is written into the
      file and completion is reported; with the short answer the sender reports success too, and the
      receiver hangs. */
  lemma ShortWriteCorrupts(path: Bytes, a: byte, b: byte, mtu: u32, answer: u32, capacity: nat, sys: seq<System>)
    requires |path| == PATH_SIZE && mtu >= 10 && (answer == 0 || answer == 9) && capacity >= 289
    requires |sys| >= 2 && Healthy(sys)
    ensures var outs := [Outcome(answer, Nine(a))];
            var arrivals := [Stream(path, [a, b], outs, Signal(FILE_TRAN_END, Result(outs)))];
            var f := ReceiveAll(Framer([], capacity, [], Running), arrivals);
            && AllPossible(FileMessages([a, b], mtu), outs) && Result(outs) == (if answer == 9 then SUCCESS else SEND_FAIL)
            && Fitting(Framer([], capacity, [], Running), arrivals)
            && |f.dispatched| == 2 && (answer == 9 ==> f.status == Hung)
            && var r := OnMessages(FRESH, f.dispatched, sys);
               r.written == [a, 103] && DONE in r.sent && (b != 103 ==> !Faithful(r, [a, b]))
  {
    var outs := [Outcome(answer, Nine(a))];
    hide Request, Signal, Data, Nine, Messages, Remainder, Stream, FileMessages, Answers, Result, AllPossible, Stuck,
         ReceiveAll, OnMessages, Fitting;
    ShortOutcome(a, b, mtu, answer);
    ShortStream(path, a, b, outs);
    EndIsSwallowed(path, a, Result(outs));
    OneArrival(capacity, Request(path, 2) + Nine(a) + Signal(FILE_TRAN_END, Result(outs)));
    SwallowedIsWritten(path, a, sys);
    assert b != 103 ==> [a, 103][1] != [a, b][1];
  }

  lemma ShortOutcome(a: byte, b: byte, mtu: u32, answer: u32)
    requires mtu >= 10 && (answer == 0 || answer == 9)
    ensures var outs := [Outcome(answer, Nine(a))];
            AllPossible(FileMessages([a, b], mtu), outs) && Result(outs) == if answer == 9 then SUCCESS else SEND_FAIL
  {
    TinyFile(a, b, mtu);
    NineOfTen(a, b);
    assert Nine(a) <= Nine(a) + [b];
    CountedIs(1, Answers([Outcome(answer, Nine(a))]), if answer == 9 then 1 else 0);
  }

  lemma ShortStream(path: Bytes, a: byte, b: byte, outs: seq<Outcome>)
    requires |outs| == 1 && outs[0].reached == Nine(a)
    ensures Stream(path, [a, b], outs, Signal(FILE_TRAN_END, Result(outs)))
         == Request(path, 2) + Nine(a) + Signal(FILE_TRAN_END, Result(outs))
  {
    var none: seq<Bytes> := [];
    assert Reached(outs[..1]) == none + [Nine(a)];
    FlatAppend(none, Nine(a));
    assert [] + Nine(a) == Nine(a);
  }

  /** A whole stream that arrives in one piece. */
  lemma OneArrival(capacity: nat, s: Bytes)
    requires HEAD <= |s| <= capacity && TotalLen(s) <= |s|
    ensures Fitting(Framer([], capacity, [], Running), [s])
    ensures var f := ReceiveAll(Framer([], capacity, [], Running), [s]);
            f.dispatched == Messages(s) && (f.status == Hung <==> Stuck(s))
  {
    var f := Framer([], capacity, [], Running);
    var none: seq<Bytes> := [];
    assert [s][..0] == none && [] + s == s;
    assert ReceiveAll(f, none) == f;
    assert none + Messages(s) == Messages(s);
  }

  lemma SwallowedIsWritten(path: Bytes, a: byte, sys: seq<System>)
    requires |path| == PATH_SIZE && |sys| >= 2 && Healthy(sys)
    ensures var r := OnMessages(FRESH, [Request(path, 2), Data([a, 103])], sys); r.written == [a, 103] && DONE in r.sent
  {
    var q: seq<Bytes> := [[a, 103]];
    FlatCons(q[0], []);
    assert q == [q[0]] + [] && Flat(q) == q[0];
    TransferParts(path, 2, q, SUCCESS);
    var s := Transfer(path, 2, q, SUCCESS);
    assert s[1] == Data(q[0]);
    assert s[..2] == [Request(path, 2), Data([a, 103])];
    TransferArrives(path, 2, q, SUCCESS, 2, sys);
    assert q[..1] == q;
  }
}
