/** Fragmentation by ikcp_send and reassembly by ikcp_recv, on any queue content. */
module KcpMessages {
  import opened Serial
  import opened Sequences
  import opened Wire
  import opened KcpModel
  import opened KcpInvariant

  /** What the receiver needs of a segment: its countdown and its bytes. */
  datatype Chunk = Chunk(frg: u32, data: Bytes)

  function ChunkOf(g: Seg): Chunk {
    Chunk(g.frg, g.data)
  }

  function Chunks(q: seq<Seg>): seq<Chunk> {
    seq(|q|, i requires 0 <= i < |q| => ChunkOf(q[i]))
  }

  /** Reassembly as a fold: finished messages and the bytes of the one being gathered. */
  datatype Asm = Asm(messages: seq<Bytes>, partial: Bytes)

  function Gather(a: Asm, c: Chunk): Asm {
    if c.frg == 0 then Asm(a.messages + [a.partial + c.data], []) else Asm(a.messages, a.partial + c.data)
  }

  function Feed(a: Asm, cs: seq<Chunk>): Asm {
    if cs == [] then a else Gather(Feed(a, cs[..|cs| - 1]), cs[|cs| - 1])
  }

  function ChunkBytes(cs: seq<Chunk>): Bytes {
    if cs == [] then [] else ChunkBytes(cs[..|cs| - 1]) + cs[|cs| - 1].data
  }

  /** Countdowns run f, f-1, ..., 0 without a gap. */
  ghost predicate Chain(cs: seq<Chunk>) {
    forall i :: 0 <= i < |cs| && cs[i].frg > 0 ==> i + 1 < |cs| && cs[i + 1].frg == cs[i].frg - 1
  }

  // ---- the folds -------------------------------------------------------------------

  lemma {:induction false} FeedConcat(a: Asm, x: seq<Chunk>, y: seq<Chunk>)
    ensures Feed(a, x + y) == Feed(Feed(a, x), y)
  {
    if y == [] {
      assert x + y == x;
    } else {
      assert (x + y)[..|x + y| - 1] == x + y[..|y| - 1];
      FeedConcat(a, x, y[..|y| - 1]);
    }
  }

  lemma {:induction false} FeedExtends(a: Asm, cs: seq<Chunk>)
    ensures a.messages <= Feed(a, cs).messages
  {
    if cs != [] {
      FeedExtends(a, cs[..|cs| - 1]);
    }
  }

  /** Reassembly loses and invents no byte. */
  lemma {:induction false} FeedBytes(a: Asm, cs: seq<Chunk>)
    ensures Flat(Feed(a, cs).messages) + Feed(a, cs).partial == Flat(a.messages) + a.partial + ChunkBytes(cs)
  {
    if cs == [] {
      assert Flat(a.messages) + a.partial + [] == Flat(a.messages) + a.partial;
    } else {
      var c := cs[|cs| - 1];
      FeedBytes(a, cs[..|cs| - 1]);
      GatherBytes(Feed(a, cs[..|cs| - 1]), c);
      Associate(Flat(a.messages) + a.partial, ChunkBytes(cs[..|cs| - 1]), c.data);
    }
  }

  lemma GatherBytes(b: Asm, c: Chunk)
    ensures Flat(Gather(b, c).messages) + Gather(b, c).partial == Flat(b.messages) + b.partial + c.data
  {
    Associate(Flat(b.messages), b.partial, c.data);
    FlatAppend(b.messages, b.partial + c.data);
    hide Flat;
    assert Flat(b.messages + [b.partial + c.data]) + [] == Flat(b.messages + [b.partial + c.data]);
  }

  lemma FeedBytesWhole(cs: seq<Chunk>, ms: seq<Bytes>)
    requires Feed(Asm([], []), cs) == Asm(ms, [])
    ensures Flat(ms) == ChunkBytes(cs)
  {
    FeedBytes(Asm([], []), cs);
    assert Flat(ms) + [] == Flat(ms);
    assert Flat([]) + [] + ChunkBytes(cs) == ChunkBytes(cs);
  }

  lemma {:induction false} ChunkBytesConcat(x: seq<Chunk>, y: seq<Chunk>)
    ensures ChunkBytes(x + y) == ChunkBytes(x) + ChunkBytes(y)
  {
    if y == [] {
      assert x + y == x;
    } else {
      assert (x + y)[..|x + y| - 1] == x + y[..|y| - 1];
      ChunkBytesConcat(x, y[..|y| - 1]);
    }
  }

  lemma ChunksConcat(x: seq<Seg>, y: seq<Seg>)
    ensures Chunks(x + y) == Chunks(x) + Chunks(y)
  {
  }

  // ---- receiving -------------------------------------------------------------------

  /** assert(len == peeksize) in ikcp_recv never fires, whatever the queue holds. */
  lemma PeekSizeIsExact(r: Rx)
    requires PeekSize(r) >= 0
    ensures r.queue != [] && |Payload(r.queue[..HeadCount(r.queue)])| == PeekSize(r)
  {
    if r.queue[0].frg == 0 {
      assert HeadCount(r.queue) == 1;
      assert r.queue[..1][..0] == [];
    }
  }

  /** Where the merge loop stops: before it no countdown is 0, and it stops at a 0 or at the queue's end. */
  lemma {:induction false} HeadCountStops(q: seq<Seg>)
    ensures var n := HeadCount(q);
            && (forall i :: 0 <= i < n - 1 ==> q[i].frg != 0)
            && (q != [] ==> n > 0 && (q[n - 1].frg == 0 || n == |q|))
  {
    if q != [] && q[0].frg != 0 {
      HeadCountStops(q[1..]);
      assert forall i :: 0 < i < |q| ==> q[i] == q[1..][i - 1];
    }
  }

  /** Segments whose countdown is not 0 only add to the message being gathered. */
  lemma {:induction false} FeedOpen(ms: seq<Bytes>, q: seq<Seg>)
    requires forall i :: 0 <= i < |q| ==> q[i].frg != 0
    ensures Feed(Asm(ms, []), Chunks(q)) == Asm(ms, Payload(q))
  {
    if q != [] {
      assert Chunks(q)[..|q| - 1] == Chunks(q[..|q| - 1]);
      FeedOpen(ms, q[..|q| - 1]);
    }
  }

  /** Merging the head of the queue yields exactly the next message of the fold. */
  lemma HeadIsNextMessage(ms: seq<Bytes>, q: seq<Seg>)
    requires var n := HeadCount(q); n > 0 && q[n - 1].frg == 0
    ensures Feed(Asm(ms, []), Chunks(q[..HeadCount(q)])) == Asm(ms + [Payload(q[..HeadCount(q)])], [])
  {
    var n := HeadCount(q);
    HeadCountStops(q);
    var h := q[..n];
    assert h[..n - 1] == q[..n - 1];
    assert Chunks(h)[..n - 1] == Chunks(q[..n - 1]);
    FeedOpen(ms, q[..n - 1]);
  }

  /** Along a chain, the countdown reaches 0 exactly frg places further. */
  lemma {:induction false} ChainCountdown(cs: seq<Chunk>, at: nat, k: nat)
    requires Chain(cs) && at < |cs| && k <= cs[at].frg
    ensures at + k < |cs| && cs[at + k].frg == cs[at].frg - k
    decreases k
  {
    if k > 0 {
      ChainCountdown(cs, at, k - 1);
    }
  }

  /** If the queue is a stretch of a chain and ikcp_peeksize accepts it, the merge loop stops at a 0. */
  lemma PeekFindsWholeMessage(cs: seq<Chunk>, at: nat, r: Rx)
    requires Chain(cs) && at + |r.queue| <= |cs| && Chunks(r.queue) == cs[at..at + |r.queue|]
    requires r.nque == |r.queue| && r.queue != []
    ensures PeekSize(r) >= 0 <==> r.nque >= r.queue[0].frg + 1
    ensures PeekSize(r) >= 0 ==> r.queue[HeadCount(r.queue) - 1].frg == 0
  {
    HeadCountStops(r.queue);
    var f: int := r.queue[0].frg;
    assert cs[at] == ChunkOf(r.queue[0]);
    if r.nque >= f + 1 {
      ChainCountdown(cs, at, f);
      assert cs[at..at + |r.queue|][f] == ChunkOf(r.queue[f]);
      var m := HeadCount(r.queue) - 1;
      if m < f {
        ChainCountdown(cs, at, m);
        assert cs[at..at + |r.queue|][m] == ChunkOf(r.queue[m]);
      }
    }
  }

  // ---- sending ---------------------------------------------------------------------

  lemma SegCountCovers(len: nat, mss: u32)
    requires mss > 0
    ensures 1 <= SegCount(len, mss) && Fits(len, mss, SegCount(len, mss))
  {
    if len > mss {
      QuotientBounds(len + mss - 1, mss);
      Distribute((len + mss - 1) / mss, 1, mss);
    }
    CoveredFits(len, mss, SegCount(len, mss));
  }

  /** `count` segments of at most mss bytes have room for `len` bytes. */
  predicate Fits(len: nat, mss: u32, count: nat) {
    if count == 0 then len == 0 else Fits(len - Min(len, mss), mss, count - 1)
  }

  lemma {:induction false} CoveredFits(len: nat, mss: u32, count: nat)
    requires len <= count * mss
    ensures Fits(len, mss, count)
    decreases count
  {
    if count > 0 {
      Distribute(count - 1, 1, mss);
      if len <= mss {
        assert 0 <= (count - 1) * mss;
      }
      CoveredFits(len - Min(len, mss), mss, count - 1);
    }
  }

  lemma FeedFront(a: Asm, c: Chunk, cs: seq<Chunk>)
    ensures Feed(a, [c] + cs) == Feed(Gather(a, c), cs)
  {
    FeedConcat(a, [c], cs);
    assert [c][..0] == [];
  }

  lemma ChunkBytesFront(c: Chunk, cs: seq<Chunk>)
    ensures ChunkBytes([c] + cs) == c.data + ChunkBytes(cs)
  {
    ChunkBytesConcat([c], cs);
    assert [c][..0] == [];
  }

  lemma ChopStep(data: Bytes, mss: u32, stream: bool, count: u32)
    requires 1 <= count
    ensures var size := Min(|data|, mss);
            Chunks(Chop(data, mss, stream, count))
            == [Chunk(if stream then 0 else count - 1, data[..size])] + Chunks(Chop(data[size..], mss, stream, count - 1))
  {
  }

  lemma FeedChopFront(a: Asm, data: Bytes, mss: u32, count: u32)
    requires 1 <= count
    ensures var size := Min(|data|, mss);
            Feed(a, Chunks(Chop(data, mss, false, count)))
            == Feed(Gather(a, Chunk(count - 1, data[..size])), Chunks(Chop(data[size..], mss, false, count - 1)))
  {
    var size := Min(|data|, mss);
    ChopStep(data, mss, false, count);
    FeedFront(a, Chunk(count - 1, data[..size]), Chunks(Chop(data[size..], mss, false, count - 1)));
  }

  /** The segments of one message, fed to the reassembly, complete exactly that message. */
  lemma {:induction false} ChopFeeds(ms: seq<Bytes>, p: Bytes, data: Bytes, mss: u32, count: u32)
    requires 1 <= count && Fits(|data|, mss, count)
    ensures Feed(Asm(ms, p), Chunks(Chop(data, mss, false, count))) == Asm(ms + [p + data], [])
    decreases count
  {
    var size := Min(|data|, mss);
    var head, tail := data[..size], data[size..];
    FeedChopFront(Asm(ms, p), data, mss, count);
    if count == 1 {
      assert data == head;
      assert Chunks(Chop(tail, mss, false, 0)) == [];
    } else {
      ChopFeeds(ms, p + head, tail, mss, count - 1);
      assert p + head + tail == p + data;
    }
  }

  lemma {:induction false} ChopBytes(data: Bytes, mss: u32, stream: bool, count: u32)
    requires Fits(|data|, mss, count)
    ensures ChunkBytes(Chunks(Chop(data, mss, stream, count))) == data
    decreases count
  {
    if count > 0 {
      var size := Min(|data|, mss);
      var head, tail := data[..size], data[size..];
      ChopStep(data, mss, stream, count);
      ChunkBytesFront(Chunk(if stream then 0 else count - 1, head), Chunks(Chop(tail, mss, stream, count - 1)));
      ChopBytes(tail, mss, stream, count - 1);
      assert head + tail == data;
    } else {
      assert Chunks(Chop(data, mss, stream, 0)) == [];
    }
  }

  lemma {:induction false} ChopCountsDown(data: Bytes, mss: u32, stream: bool, count: u32)
    requires count <= 128
    ensures var q := Chop(data, mss, stream, count);
            |q| == count && forall i :: 0 <= i < count ==> q[i].frg == if stream then 0 else count - 1 - i
    decreases count
  {
    if count > 0 {
      ChopCountsDown(data[Min(|data|, mss)..], mss, stream, count - 1);
    }
  }

  lemma AppendTailBytes(c: Cfg, q: seq<Seg>, data: Bytes)
    requires CanAppend(c, q) || data == []
    ensures ChunkBytes(Chunks(AppendTail(c, q, data))) == ChunkBytes(Chunks(q)) + data
  {
    if CanAppend(c, q) {
      var last := |q| - 1;
      var r := AppendTail(c, q, data);
      assert Chunks(q)[..last] == Chunks(q[..last]) == Chunks(r)[..last];
    }
  }

  /** The bytes ikcp_send reports as sent are exactly the bytes it queued; on an error it queues none. */
  lemma SendQueuesBytes(s: Cb, buffer: Bytes, len: int)
    requires s.cfg.mss > 0 && len <= |buffer|
    ensures var t := Send(s, buffer, len);
            if t.ret < 0 then t.cb.tx.queue == s.tx.queue
            else t.ret <= len && ChunkBytes(Chunks(t.cb.tx.queue)) == ChunkBytes(Chunks(s.tx.queue)) + buffer[..t.ret]
  {
    hide SegCount, Fits, Chunks, ChunkBytes, Chop;
    if len >= 0 {
      var c, q := s.cfg, s.tx.queue;
      var ext := Extend(c, q, len);
      var rest := len - ext;
      var count := SegCount(rest, c.mss);
      AppendTailBytes(c, q, buffer[..ext]);
      if !(c.stream && rest <= 0) && count < WND_RCV {
        SegCountCovers(rest, c.mss);
        TailAndChopBytes(c, q, buffer[..ext], buffer[ext..len], count);
        assert buffer[..ext] + buffer[ext..len] == buffer[..len];
      }
    }
  }

  lemma TailAndChopBytes(c: Cfg, q: seq<Seg>, x: Bytes, y: Bytes, count: u32)
    requires 1 <= count && Fits(|y|, c.mss, count)
    requires CanAppend(c, q) || x == []
    ensures ChunkBytes(Chunks(AppendTail(c, q, x) + Chop(y, c.mss, c.stream, count))) == ChunkBytes(Chunks(q)) + (x + y)
  {
    AppendTailBytes(c, q, x);
    AppendChopBytes(c, AppendTail(c, q, x), y, count);
    assert ChunkBytes(Chunks(q)) + x + y == ChunkBytes(Chunks(q)) + (x + y);
  }

  lemma AppendChopBytes(c: Cfg, q: seq<Seg>, data: Bytes, count: u32)
    requires 1 <= count && Fits(|data|, c.mss, count)
    ensures ChunkBytes(Chunks(q + Chop(data, c.mss, c.stream, count))) == ChunkBytes(Chunks(q)) + data
  {
    ChopBytes(data, c.mss, c.stream, count);
    ChunksConcat(q, Chop(data, c.mss, c.stream, count));
    ChunkBytesConcat(Chunks(q), Chunks(Chop(data, c.mss, c.stream, count)));
  }

  /** Without streaming, one accepted ikcp_send adds segments that reassemble to exactly its message. */
  lemma SendQueuesMessage(s: Cb, buffer: Bytes, len: int, a: Asm)
    requires s.cfg.mss > 0 && len <= |buffer| && !s.cfg.stream && a.partial == []
    ensures var t := Send(s, buffer, len);
            && (t.ret >= 0 ==> |s.tx.queue| <= |t.cb.tx.queue| && t.cb.tx.queue[..|s.tx.queue|] == s.tx.queue)
            && (t.ret >= 0 ==> Feed(a, Chunks(t.cb.tx.queue[|s.tx.queue|..])) == Asm(a.messages + [buffer[..len]], []))
            && (t.ret >= 0 ==> t.ret == len)
  {
    if Send(s, buffer, len).ret >= 0 {
      var count := SegCount(len, s.cfg.mss);
      assert buffer[0..len] == buffer[..len];
      SegCountCovers(len, s.cfg.mss);
      ChopFeeds(a.messages, [], buffer[..len], s.cfg.mss, count);
      assert [] + buffer[..len] == buffer[..len];
      assert Send(s, buffer, len).cb.tx.queue[|s.tx.queue|..] == Chop(buffer[..len], s.cfg.mss, false, count);
    }
  }

  /** Sending keeps the countdown chain behind any log of segments already numbered. */
  lemma SendKeepsChain(log: seq<Chunk>, s: Cb, buffer: Bytes, len: int)
    requires s.cfg.mss > 0 && len <= |buffer|
    requires Chain(log + Chunks(s.tx.queue))
    ensures Chain(log + Chunks(Send(s, buffer, len).cb.tx.queue))
  {
    if len >= 0 {
      var c := s.cfg;
      var ext := Extend(c, s.tx.queue, len);
      AppendTailKeepsChain(log, c, s.tx.queue, buffer[..ext]);
      var count := SegCount(len - ext, c.mss);
      if !(c.stream && len - ext <= 0) && count < WND_RCV {
        AppendChopKeepsChain(log, c, AppendTail(c, s.tx.queue, buffer[..ext]), buffer[ext..len], count);
      }
    }
  }

  lemma AppendTailKeepsChain(log: seq<Chunk>, c: Cfg, q: seq<Seg>, data: Bytes)
    requires Chain(log + Chunks(q))
    ensures Chain(log + Chunks(AppendTail(c, q, data)))
  {
    var before, after := log + Chunks(q), log + Chunks(AppendTail(c, q, data));
    assert before != [] ==> before[|before| - 1].frg == 0;
    assert forall i :: 0 <= i < |after| ==> after[i].frg == before[i].frg;
  }

  lemma AppendChopKeepsChain(log: seq<Chunk>, c: Cfg, q: seq<Seg>, data: Bytes, count: u32)
    requires count <= 128 && Chain(log + Chunks(q))
    ensures Chain(log + Chunks(q + Chop(data, c.mss, c.stream, count)))
  {
    var add := Chop(data, c.mss, c.stream, count);
    ChopCountsDown(data, c.mss, c.stream, count);
    ChunksConcat(q, add);
    assert log + Chunks(q + add) == log + Chunks(q) + Chunks(add);
    ChainConcat(log + Chunks(q), Chunks(add));
  }

  lemma ChainConcat(x: seq<Chunk>, y: seq<Chunk>)
    requires Chain(x) && Chain(y)
    ensures Chain(x + y)
  {
  }

  /** Reading back: if the queue holds whole messages, ikcp_recv returns the first and leaves the others. */
  lemma RecvReadsFirstMessage(s: Cb, len: nat, m: Bytes, ms: seq<Bytes>)
    requires Inv(s) && s.rx.queue != [] && Chain(Chunks(s.rx.queue))
    requires Feed(Asm([], []), Chunks(s.rx.queue)) == Asm([m] + ms, [])
    ensures Recv(s, len).ret == (if |m| <= len then |m| else -3)
    ensures |m| <= len ==> Recv(s, len).data == m
    ensures Feed(Asm([m], []), Chunks(s.rx.queue[HeadCount(s.rx.queue)..])) == Asm([m] + ms, [])
  {
    WholeQueueReadable(s.rx);
    PeekSizeIsExact(s.rx);
    SplitFirstMessage(s.rx.queue, m, ms);
  }

  lemma WholeQueueReadable(r: Rx)
    requires r.queue != [] && r.nque == |r.queue| && Chain(Chunks(r.queue))
    ensures PeekSize(r) >= 0 && r.queue[HeadCount(r.queue) - 1].frg == 0
  {
    ChainCountdown(Chunks(r.queue), 0, r.queue[0].frg);
    assert Chunks(r.queue) == Chunks(r.queue)[0..0 + |r.queue|];
    PeekFindsWholeMessage(Chunks(r.queue), 0, r);
  }

  lemma SplitFirstMessage(q: seq<Seg>, m: Bytes, ms: seq<Bytes>)
    requires var n := HeadCount(q); n > 0 && q[n - 1].frg == 0
    requires Feed(Asm([], []), Chunks(q)) == Asm([m] + ms, [])
    ensures Payload(q[..HeadCount(q)]) == m
    ensures Feed(Asm([m], []), Chunks(q[HeadCount(q)..])) == Asm([m] + ms, [])
  {
    var n := HeadCount(q);
    var first := Payload(q[..n]);
    HeadIsNextMessage([], q);
    ChunksConcat(q[..n], q[n..]);
    assert q == q[..n] + q[n..];
    FeedConcat(Asm([], []), Chunks(q[..n]), Chunks(q[n..]));
    assert [] + [first] == [first];
    FeedExtends(Asm([first], []), Chunks(q[n..]));
    assert ([m] + ms)[0] == m;
  }
}
