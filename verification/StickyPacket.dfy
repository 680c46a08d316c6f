/** StickyPacket.cpp: cutting a byte stream, received in arbitrary pieces, back into messages. */
module StickyPacket {
  import opened Serial
  import opened Sequences
  import opened Wire
  import B = Buffer

  /** sizeof(MsgHdr): a 32-bit type and a 32-bit total length. */
  const HEAD: int := 8
  const MAX_PKT_SIZE: int := 0x1000_0000

  function TotalLen(s: Bytes): u32
    requires |s| >= HEAD
  {
    Decode32(s, 4)
  }

  /** A whole message is at the front. A length of 0 never advances, so it counts as none. */
  predicate HasMessage(s: Bytes) {
    |s| >= HEAD && 0 < TotalLen(s) <= |s|
  }

  /** The messages a stream consists of, independent of how it arrives. */
  function Messages(s: Bytes): seq<Bytes>
    decreases |s|
  {
    if HasMessage(s) then [s[..TotalLen(s)]] + Messages(s[TotalLen(s)..]) else []
  }

  /** What is left behind the last whole message. */
  function Remainder(s: Bytes): (r: Bytes)
    ensures |r| <= |s|
    decreases |s|
  {
    if HasMessage(s) then Remainder(s[TotalLen(s)..]) else s
  }

  /** The dispatch loop stops advancing: a header announcing length 0. */
  predicate Stuck(s: Bytes) {
    var r := Remainder(s);
    |r| >= HEAD && TotalLen(r) == 0
  }

  predicate TooBig(s: Bytes) {
    |s| >= HEAD && TotalLen(s) > MAX_PKT_SIZE
  }

  datatype Status = Running | Failed | Hung

  /** The receive buffer, everything dispatched so far, and whether the receiver still runs. */
  datatype Framer = Framer(held: Bytes, capacity: nat, dispatched: seq<Bytes>, status: Status)

  /** One call of StickyPacket on the buffer. */
  function Cut(f: Framer): Framer {
    var s := f.held;
    if |s| < HEAD then f
    else if |s| < TotalLen(s) then
      if TotalLen(s) <= f.capacity then f
      else if TotalLen(s) > MAX_PKT_SIZE then f.(status := Failed)
      else f.(capacity := TotalLen(s))
    else if Stuck(s) then f.(dispatched := f.dispatched + Messages(s), status := Hung)
    else f.(held := Remainder(s), dispatched := f.dispatched + Messages(s))
  }

  /** A piece arrives and StickyPacket runs; after a failure or a hang nothing is read any more. */
  function Receive(f: Framer, piece: Bytes): Framer {
    if f.status == Running then Cut(f.(held := f.held + piece)) else f
  }

  function ReceiveAll(f: Framer, pieces: seq<Bytes>): Framer {
    if pieces == [] then f else Receive(ReceiveAll(f, pieces[..|pieces| - 1]), pieces[|pieces| - 1])
  }

  /** Every piece fits the room the buffer has when it arrives, as the socket read guarantees. */
  ghost predicate Fitting(f: Framer, pieces: seq<Bytes>) {
    forall i :: 0 <= i < |pieces| ==>
      var g := ReceiveAll(f, pieces[..i]);
      g.status == Running ==> |g.held| + |pieces[i]| <= g.capacity
  }

  // ---- the method ------------------------------------------------------------------

  lemma {:induction false} RemainderIsSuffix(s: Bytes)
    ensures Remainder(s) == s[|s| - |Remainder(s)|..] && !HasMessage(Remainder(s))
    decreases |s|
  {
    if HasMessage(s) {
      RemainderIsSuffix(s[TotalLen(s)..]);
    }
  }

  /** The dispatch loop; a length of 0, on which the source's loop repeats for ever, is reported as a hang. */
  method Dispatch(held: Bytes) returns (hung: bool, offset: nat, messages: seq<Bytes>)
    requires |held| >= HEAD && TotalLen(held) <= |held|
    ensures hung == Stuck(held) && messages == Messages(held)
    ensures !hung ==> 0 < offset <= |held| && held[offset..] == Remainder(held)
  {
    messages, offset, hung := [], 0, false;
    ghost var rest := held;
    while |held| - offset >= HEAD && |held| - offset >= TotalLen(held[offset..])
      invariant 0 <= offset <= |held| && rest == held[offset..]
      invariant Messages(held) == messages + Messages(rest) && Remainder(held) == Remainder(rest)
    {
      var len := TotalLen(held[offset..]);
      if len == 0 {
        assert messages + [] == messages;
        return true, offset, messages;
      }
      assert rest[..len] == held[offset..offset + len] && rest[len..] == held[offset + len..];
      Associate(messages, [rest[..len]], Messages(rest[len..]));
      messages := messages + [held[offset..offset + len]];
      rest, offset := rest[len..], offset + len;
    }
    assert messages + [] == messages;
  }

  /** StickyPacket: every whole message goes to the callback, the rest moves to the front. */
  method StickyPacket(buf: B.Buffer, ghost before: seq<Bytes>) returns (status: Status, messages: seq<Bytes>)
    requires buf.Valid()
    modifies buf, buf.data
    ensures buf.Valid() && (buf.data == old(buf.data) || fresh(buf.data))
    ensures var f := Cut(Framer(old(buf.Contents()), old(buf.data.Length), before, Running));
            && status == f.status && before + messages == f.dispatched && buf.data.Length == f.capacity
            && (status != Hung ==> buf.Contents() == f.held)
  {
    messages, status := [], Running;
    assert before + [] == before;
    if buf.size < HEAD { return; }
    var held := buf.data[..buf.size];
    var total := TotalLen(held);
    if buf.size < total {
      if total > buf.data.Length {
        if total > MAX_PKT_SIZE { return Failed, []; }
        buf.SetCapacity(total);
      }
      return;
    }
    var hung, offset;
    hung, offset, messages := Dispatch(held);
    if hung { return Hung, messages; }
    if offset < buf.size {
      assert buf.data[offset..buf.size] == held[offset..];
      var ok := buf.Align(offset, buf.size);
    } else {
      buf.Reset();
      assert buf.Contents() == [] == held[offset..];
    }
  }

  // ---- independence of the pieces --------------------------------------------------

  lemma FrontMessage(a: Bytes, b: Bytes)
    requires HasMessage(a)
    ensures var n := TotalLen(a);
            HasMessage(a + b) && TotalLen(a + b) == n && (a + b)[..n] == a[..n] && (a + b)[n..] == a[n..] + b
  {
  }

  lemma CutStep(a: Bytes, b: Bytes)
    requires HasMessage(a)
    ensures var n := TotalLen(a);
            && Messages(a) == [a[..n]] + Messages(a[n..]) && Remainder(a) == Remainder(a[n..])
            && Messages(a + b) == [a[..n]] + Messages(a[n..] + b) && Remainder(a + b) == Remainder(a[n..] + b)
  {
    FrontMessage(a, b);
  }

  /** A whole message in front of any rest is cut off. */
  lemma WholeIsCut(m: Bytes, rest: Bytes)
    requires |m| >= HEAD && TotalLen(m) == |m|
    ensures Messages(m + rest) == [m] + Messages(rest) && Remainder(m + rest) == Remainder(rest)
    ensures TotalLen(m + rest) == |m|
  {
    CutStep(m, rest);
    assert m[..|m|] == m && m[|m|..] + rest == rest;
  }

  /** Cutting a longer stream: first the messages of its front, then those of the rest. */
  lemma {:induction false} CutConcat(a: Bytes, b: Bytes)
    ensures Messages(a + b) == Messages(a) + Messages(Remainder(a) + b)
    ensures Remainder(a + b) == Remainder(Remainder(a) + b)
    decreases |a|
  {
    if HasMessage(a) {
      var n := TotalLen(a);
      CutStep(a, b);
      CutConcat(a[n..], b);
      Associate([a[..n]], Messages(a[n..]), Messages(Remainder(a[n..]) + b));
    } else {
      assert [] + Messages(a + b) == Messages(a + b);
    }
  }

  lemma PrefixIsCut(a: Bytes, s: Bytes)
    requires a <= s
    ensures Messages(a) <= Messages(s)
  {
    assert s == a + s[|a|..];
    CutConcat(a, s[|a|..]);
  }

  /** After some piece, the stream so far ended in a header of length 0. */
  ghost predicate EverStuck(pieces: seq<Bytes>) {
    pieces != [] && (EverStuck(pieces[..|pieces| - 1]) || Stuck(Flat(pieces)))
  }

  /** After some piece, the stream so far ended in a header above the limit. */
  ghost predicate EverTooBig(pieces: seq<Bytes>) {
    pieces != [] && (EverTooBig(pieces[..|pieces| - 1]) || TooBig(Remainder(Flat(pieces))))
  }

  /** While the receiver runs it has dispatched exactly the messages of what arrived, whatever the
      pieces, no zero-length header was reached, and there is room to read; it hangs only after such
      a header, and fails only after one above the limit. */
  lemma {:induction false} FramingIgnoresPieces(capacity: nat, pieces: seq<Bytes>)
    requires capacity >= HEAD && Fitting(Framer([], capacity, [], Running), pieces)
    ensures var f := ReceiveAll(Framer([], capacity, [], Running), pieces);
            && (f.status == Running ==>
                 && f.dispatched == Messages(Flat(pieces)) && f.held == Remainder(Flat(pieces))
                 && !EverStuck(pieces) && |f.held| < f.capacity && f.capacity >= capacity)
            && (f.status == Hung ==> EverStuck(pieces))
            && (f.status == Failed ==> EverTooBig(pieces))
  {
    if pieces != [] {
      var front, last := pieces[..|pieces| - 1], pieces[|pieces| - 1];
      FittingFront(Framer([], capacity, [], Running), pieces);
      FramingIgnoresPieces(capacity, front);
      var g := ReceiveAll(Framer([], capacity, [], Running), front);
      if g.status == Running {
        OnePiece(g, Flat(front), last);
      }
    }
  }

  /** Receiving some pieces and then others is receiving them all. */
  lemma {:induction false} ReceiveAllConcat(f: Framer, xs: seq<Bytes>, ys: seq<Bytes>)
    ensures ReceiveAll(f, xs + ys) == ReceiveAll(ReceiveAll(f, xs), ys)
  {
    if ys == [] {
      assert xs + ys == xs;
    } else {
      assert (xs + ys)[..|xs + ys| - 1] == xs + ys[..|ys| - 1];
      ReceiveAllConcat(f, xs, ys[..|ys| - 1]);
    }
  }

  /** A piece that fits the room left can follow. */
  lemma FittingSnoc(f: Framer, xs: seq<Bytes>, piece: Bytes)
    requires Fitting(f, xs)
    requires var g := ReceiveAll(f, xs); g.status == Running ==> |g.held| + |piece| <= g.capacity
    ensures Fitting(f, xs + [piece]) && ReceiveAll(f, xs + [piece]) == Receive(ReceiveAll(f, xs), piece)
  {
    var all := xs + [piece];
    assert all[..|xs|] == xs;
    assert forall i :: 0 <= i < |xs| ==> all[i] == xs[i] && all[..i] == xs[..i];
  }

  lemma FittingFront(f: Framer, pieces: seq<Bytes>)
    requires Fitting(f, pieces) && pieces != []
    ensures var (n, g) := (|pieces| - 1, ReceiveAll(f, pieces[..|pieces| - 1]));
            Fitting(f, pieces[..n]) && (g.status == Running ==> |g.held| + |pieces[n]| <= g.capacity)
  {
    var front := pieces[..|pieces| - 1];
    assert forall i :: 0 <= i < |front| ==> front[i] == pieces[i] && front[..i] == pieces[..i];
  }

  lemma OnePiece(g: Framer, seen: Bytes, piece: Bytes)
    requires g.status == Running && g.dispatched == Messages(seen) && g.held == Remainder(seen)
    requires |g.held| + |piece| <= g.capacity && g.capacity >= HEAD
    ensures var f := Receive(g, piece);
            && (f.status == Running ==>
                 && f.dispatched == Messages(seen + piece) && f.held == Remainder(seen + piece)
                 && !Stuck(seen + piece) && |f.held| < f.capacity && f.capacity >= g.capacity)
            && (f.status == Hung ==> Stuck(seen + piece))
            && (f.status == Failed ==> TooBig(Remainder(seen + piece)))
  {
    CutConcat(seen, piece);
    var s := g.held + piece;
    RemainderIsSuffix(s);
    hide Messages, Remainder;
    NotYet(s);
  }

  /** Nothing is cut from a stream whose first message is not whole. */
  lemma NotYet(s: Bytes)
    ensures !HasMessage(s) ==> Messages(s) == [] && Remainder(s) == s
    ensures Messages(s) + [] == Messages(s)
  {
  }

  /** Every header on the way announces a length the receiver accepts. */
  ghost predicate WellFramed(s: Bytes)
    decreases |s|
  {
    |s| >= HEAD ==> 0 < TotalLen(s) <= MAX_PKT_SIZE && (TotalLen(s) <= |s| ==> WellFramed(s[TotalLen(s)..]))
  }

  lemma {:induction false} WellFramedPrefix(a: Bytes, b: Bytes)
    requires WellFramed(a + b)
    ensures WellFramed(a) && !Stuck(a) && !TooBig(Remainder(a))
    decreases |a|
  {
    if |a| >= HEAD {
      assert TotalLen(a + b) == TotalLen(a);
      if HasMessage(a) {
        assert (a + b)[TotalLen(a)..] == a[TotalLen(a)..] + b;
        WellFramedPrefix(a[TotalLen(a)..], b);
      }
    }
  }

  lemma {:induction false} WellFramedNever(pieces: seq<Bytes>)
    requires WellFramed(Flat(pieces))
    ensures !EverStuck(pieces) && !EverTooBig(pieces)
  {
    if pieces != [] {
      var front := pieces[..|pieces| - 1];
      PrefixIsWellFramed(Flat(front), Flat(pieces));
      PrefixIsWellFramed(Flat(pieces), Flat(pieces));
      WellFramedNever(front);
    }
  }

  /** Without headers above the limit, the receiver hangs exactly when some header announced length 0. */
  lemma HangsExactlyWhenStuck(capacity: nat, pieces: seq<Bytes>)
    requires capacity >= HEAD && Fitting(Framer([], capacity, [], Running), pieces) && !EverTooBig(pieces)
    ensures ReceiveAll(Framer([], capacity, [], Running), pieces).status == Hung <==> EverStuck(pieces)
  {
    FramingIgnoresPieces(capacity, pieces);
  }

  /** For a well-framed stream, any way of cutting it into pieces gives the same messages. */
  lemma WellFramedStreamsAreCut(capacity: nat, pieces: seq<Bytes>)
    requires capacity >= HEAD && Fitting(Framer([], capacity, [], Running), pieces)
    requires WellFramed(Flat(pieces))
    ensures var f := ReceiveAll(Framer([], capacity, [], Running), pieces);
            && f.status == Running && f.dispatched == Messages(Flat(pieces)) && f.held == Remainder(Flat(pieces))
            && |f.held| < f.capacity
  {
    FramingIgnoresPieces(capacity, pieces);
    WellFramedNever(pieces);
  }

  lemma PrefixIsWellFramed(a: Bytes, s: Bytes)
    requires a <= s && WellFramed(s)
    ensures WellFramed(a) && !Stuck(a) && !TooBig(Remainder(a))
  {
    assert s == a + s[|a|..];
    WellFramedPrefix(a, s[|a|..]);
  }

  /** A header of length 0 is fatal: the smallest such stream hangs the receiver. */
  lemma ZeroLengthHangs(capacity: nat)
    requires capacity >= HEAD
    ensures Receive(Framer([], capacity, [], Running), [0, 0, 0, 0, 0, 0, 0, 0]).status == Hung
  {
    var s: Bytes := [0, 0, 0, 0, 0, 0, 0, 0];
    assert [] + s == s;
    assert !HasMessage(s) && Remainder(s) == s;
  }
}
