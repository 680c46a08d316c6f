/** One endpoint under every sequence of calls, with any bytes whatever as input. */
module KcpRuns {
  import opened Serial
  import opened Wire
  import opened KcpModel
  import opened KcpInvariant
  import opened KcpTiming

  // ---- the invariant ---------------------------------------------------------------

  lemma DoKeepsInv(s: Cb, op: Op)
    requires Inv(s)
    ensures Inv(Do(s, op)) && Do(s, op).cfg == s.cfg
  {
    match op
    case SendOp(message) => SendKeepsInv(s, message, |message|);
    case RecvOp(len) => RecvKeepsInv(s, len);
    case InputOp(d) => InputKeepsInv(s, d);
    case FlushOp => FlushKeepsInv(s);
    case UpdateOp(now) => UpdateKeepsInv(s, now);
  }

  /** Every reachable state satisfies the endpoint invariant, and the settings stay as they were made. */
  lemma {:induction false} RunKeepsInv(c: Cfg, ops: seq<Op>)
    requires CfgOk(c)
    ensures Inv(DoAll(Create(c), ops)) && DoAll(Create(c), ops).cfg == c
  {
    if ops == [] {
      CreateInv(c);
    } else {
      RunKeepsInv(c, ops[..|ops| - 1]);
      DoKeepsInv(DoAll(Create(c), ops[..|ops| - 1]), ops[|ops| - 1]);
    }
  }

  // ---- congestion ------------------------------------------------------------------

  /** A flush at any moment, as ikcp_update runs it. */
  lemma DoKeepsCong(s: Cb, op: Op)
    requires Inv(s) && ResendFits(s.cfg) && CongOk(s.cong, s.cfg.mss)
    ensures CongOk(Do(s, op).cong, s.cfg.mss)
  {
    match op
    case SendOp(_) =>
    case RecvOp(_) =>
    case InputOp(d) => InputKeepsCong(s, d);
    case FlushOp => FlushKeepsCong(s);
    case UpdateOp(now) => FlushKeepsCong(s.(clock := Tick(s.clock, s.cfg.interval, now).clock));
  }

  /** In every reachable state incr tracks cwnd to within a segment and ssthresh is at least 2. */
  lemma {:induction false} RunKeepsCong(c: Cfg, ops: seq<Op>)
    requires CfgOk(c) && ResendFits(c)
    ensures CongOk(DoAll(Create(c), ops).cong, c.mss)
  {
    if ops == [] {
      CreateCong(c);
    } else {
      RunKeepsCong(c, ops[..|ops| - 1]);
      RunKeepsInv(c, ops[..|ops| - 1]);
      DoKeepsCong(DoAll(Create(c), ops[..|ops| - 1]), ops[|ops| - 1]);
    }
  }

  // ---- window probing --------------------------------------------------------------

  lemma {:induction false} InputKeepsProbe(t: Progress, ps: seq<Packet>)
    requires ProbeOk(t.cb.probe)
    ensures ProbeOk(InputPackets(t, ps).cb.probe)
  {
    if ps != [] { InputKeepsProbe(t, ps[..|ps| - 1]); }
  }

  lemma DoKeepsProbe(s: Cb, op: Op)
    requires ProbeOk(s.probe)
    ensures ProbeOk(Do(s, op).probe)
  {
    match op
    case SendOp(_) =>
    case RecvOp(_) =>
    case InputOp(d) => InputKeepsProbe(Progress(s, false, 0, 0), ParseDatagram(s.cfg.conv, d).packets);
    case FlushOp => if s.clock.updated { ProbesClosedWindows(s); }
    case UpdateOp(now) => ProbesClosedWindows(s.(clock := Tick(s.clock, s.cfg.interval, now).clock));
  }

  /** In every reachable state the probe timer is off or within its limits. */
  lemma {:induction false} RunKeepsProbe(c: Cfg, ops: seq<Op>)
    ensures ProbeOk(DoAll(Create(c), ops).probe)
  {
    if ops != [] {
      RunKeepsProbe(c, ops[..|ops| - 1]);
      DoKeepsProbe(DoAll(Create(c), ops[..|ops| - 1]), ops[|ops| - 1]);
    }
  }

  // ---- what became of each segment -------------------------------------------------

  /** A segment in snd_buf with its history: overdue resends, fast resends, and its first timeout. */
  datatype Life = Life(seg: Seg, timeouts: nat, fasts: nat, rto0: u32)

  /** A flush passes over the segment. */
  function Next(l: Life, c: Pass): Life {
    var v := Judge(c, l.seg);
    Life(Touch(c, l.seg), l.timeouts + (if v == Timeout then 1 else 0), l.fasts + (if v == Fast then 1 else 0),
         if v == First then c.rto else l.rto0)
  }

  function Pow2(n: nat): nat {
    if n == 0 then 1 else 2 * Pow2(n - 1)
  }

  /** An endpoint, and the history of every segment in its snd_buf. */
  datatype Tracked = Tracked(cb: Cb, lives: seq<Life>)

  /** ikcp_input leaves a segment, known by its number, with its history. */
  function Survivor(ls: seq<Life>, g: Seg): Life {
    if ls == [] then Life(g, 0, 0, 0) else if ls[0].seg.sn == g.sn then ls[0].(seg := g) else Survivor(ls[1..], g)
  }

  function AfterInput(ls: seq<Life>, q: seq<Seg>): seq<Life> {
    seq(|q|, i requires 0 <= i < |q| => Survivor(ls, q[i]))
  }

  /** A flush passes over the segments in flight and over those it admits, which have no history yet. */
  function AfterFlush(ls: seq<Life>, s: Cb): seq<Life> {
    var q := Admitted(s).buf;
    if !s.clock.updated then ls
    else seq(|q|, i requires 0 <= i < |q| => Next(if i < |ls| then ls[i] else Life(q[i], 0, 0, 0), PassOf(s)))
  }

  function Track(t: Tracked, op: Op): Tracked {
    var s := Do(t.cb, op);
    match op
    case SendOp(_) => Tracked(s, t.lives)
    case RecvOp(_) => Tracked(s, t.lives)
    case InputOp(d) => Tracked(s, AfterInput(t.lives, s.tx.buf))
    case FlushOp => Tracked(s, AfterFlush(t.lives, t.cb))
    case UpdateOp(now) =>
      var k := Tick(t.cb.clock, t.cb.cfg.interval, now);
      Tracked(s, if k.due then AfterFlush(t.lives, t.cb.(clock := k.clock)) else t.lives)
  }

  function TrackAll(c: Cfg, ops: seq<Op>): Tracked {
    if ops == [] then Tracked(Create(c), []) else Track(TrackAll(c, ops[..|ops| - 1]), ops[|ops| - 1])
  }

  /** Every send is a first one, an overdue resend or a fast resend; there are at most fastlimit of the
      last kind when that is positive. n bounds the calls so far. */
  ghost predicate SendsOk(l: Life, limit: i32, n: nat) {
    && (if l.seg.xmit == 0 then l.timeouts == l.fasts == 0 else l.seg.xmit == 1 + l.timeouts + l.fasts)
    && l.seg.xmit <= n && (limit > 0 ==> l.fasts <= limit)
  }

  /** With nodelay off, k overdue resends made the timeout at least 2^k times the first one (and at most
      2^k minutes: beyond 16 resends 32 bits may not hold it). */
  ghost predicate BackoffOk(l: Life) {
    l.seg.xmit > 0 && l.timeouts <= 16 ==> Pow2(l.timeouts) * l.rto0 <= l.seg.rto <= Pow2(l.timeouts) * RTO_MAX
  }

  ghost predicate LifeOk(l: Life, c: Cfg, n: nat) {
    SendsOk(l, c.fastlimit, n) && (c.nodelay == 0 ==> BackoffOk(l))
  }

  ghost predicate Followed(t: Tracked, n: nat) {
    && |t.lives| == |t.cb.tx.buf| && t.cb.rtt.rto <= RTO_MAX
    && forall i :: 0 <= i < |t.lives| ==> t.lives[i].seg == t.cb.tx.buf[i] && LifeOk(t.lives[i], t.cb.cfg, n)
  }

  lemma {:induction false} Pow2Bounds(n: nat)
    ensures Pow2(n) >= 1 && (n <= 15 ==> Pow2(n) <= 0x8000)
  {
    if n > 0 {
      Pow2Bounds(n - 1);
      if n <= 15 { Pow2Grows(n, 15); }
    }
    assert Pow2(5) == 32;
    assert Pow2(10) == 1024;
    assert Pow2(15) == 0x8000;
  }

  lemma {:induction false} Pow2Grows(m: nat, n: nat)
    requires m <= n
    ensures Pow2(m) <= Pow2(n)
    decreases n
  {
    if m < n { Pow2Grows(m, n - 1); }
  }

  /** Adding at least itself, and at most itself or a minute, doubles both bounds. */
  lemma Doubles(rto: nat, p: nat, low: nat, more: nat)
    requires p >= 1 && p * low <= rto <= p * RTO_MAX && rto <= more <= Max(rto, RTO_MAX)
    ensures 2 * p * low <= rto + more <= 2 * p * RTO_MAX
  {
    Distribute(p, p, low);
  }

  lemma PassKeepsBackoff(l: Life, c: Pass)
    requires BackoffOk(l) && c.nodelay == 0 && c.rto <= RTO_MAX && (l.seg.xmit == 0 ==> l.timeouts == 0)
    ensures BackoffOk(Next(l, c))
  {
    Pow2Bounds(l.timeouts);
    var p := Pow2(l.timeouts);
    if Judge(c, l.seg) == Timeout && l.timeouts <= 15 {
      var more := Max(l.seg.rto, c.rto);
      Doubles(l.seg.rto, p, l.rto0, more);
      Fits32(l.seg.rto + more);
    }
  }

  lemma PassKeepsLife(l: Life, k: Cfg, c: Pass, n: nat)
    requires LifeOk(l, k, n) && n + 1 < H32 && c.fastlimit == k.fastlimit && c.nodelay == k.nodelay && c.rto <= RTO_MAX
    ensures LifeOk(Next(l, c), k, n + 1)
  {
    if k.nodelay == 0 { PassKeepsBackoff(l, c); }
  }

  lemma UnaDrops(x: Tx, una: u32)
    ensures forall g <- Shrink(ParseUna(x, una)).buf :: g in x.buf
  {
    DropBelowSuffix(x.buf, una);
  }

  lemma AckDrops(x: Tx, sn: u32)
    ensures forall g <- Shrink(ParseAck(x, sn)).buf :: g in x.buf
  {
    var i := DropAckedCut(x.buf, sn);
  }

  lemma {:induction false} AcksDropOnly(t: Progress, ps: seq<Packet>)
    requires t.cb.rtt.rto <= RTO_MAX
    ensures forall g <- InputPackets(t, ps).cb.tx.buf :: g in t.cb.tx.buf
    ensures InputPackets(t, ps).cb.rtt.rto <= RTO_MAX
  {
    if ps != [] {
      hide Shrink, ParseUna, ParseAck, RtoOf;
      var p := ps[|ps| - 1];
      AcksDropOnly(t, ps[..|ps| - 1]);
      var x := InputPackets(t, ps[..|ps| - 1]).cb.tx;
      UnaDrops(x, p.una);
      AckDrops(Shrink(ParseUna(x, p.una)), p.sn);
      assert forall c: Cfg, srtt: i32, rttval: i32 :: RtoOf(c, srtt, rttval) <= RTO_MAX by {
        forall c: Cfg, srtt: i32, rttval: i32
          ensures RtoOf(c, srtt, rttval) <= RTO_MAX
        {
          RtoIsBounded(c, srtt, rttval);
        }
      }
    }
  }

  lemma RtoIsBounded(c: Cfg, srtt: i32, rttval: i32)
    ensures RtoOf(c, srtt, rttval) <= RTO_MAX
  {
  }

  /** What ikcp_input leaves in snd_buf was there before, up to the skip count. */
  lemma InputLeaves(s: Cb, d: Bytes, i: nat) returns (j: nat)
    requires i < |Input(s, d).cb.tx.buf| && s.rtt.rto <= RTO_MAX
    ensures j < |s.tx.buf| && Input(s, d).cb.tx.buf[i] == s.tx.buf[j].(fastack := Input(s, d).cb.tx.buf[i].fastack)
  {
    var ps := ParseDatagram(s.cfg.conv, d).packets;
    var t := InputPackets(Progress(s, false, 0, 0), ps);
    AcksDropOnly(Progress(s, false, 0, 0), ps);
    MarkSkippedKeeps(t.cb.tx.buf, t.maxack, t.latestTs);
    var g := t.cb.tx.buf[i];
    assert g in s.tx.buf;
    j :| 0 <= j < |s.tx.buf| && s.tx.buf[j] == g;
  }

  lemma {:induction false} SurvivorIsFound(ls: seq<Life>, g: Seg, j: nat)
    requires j < |ls| && ls[j].seg.sn == g.sn && forall i :: 0 <= i < j ==> ls[i].seg.sn != g.sn
    ensures Survivor(ls, g) == ls[j].(seg := g)
  {
    if j > 0 { SurvivorIsFound(ls[1..], g, j - 1); }
  }

  lemma InputFollows(t: Tracked, d: Bytes, n: nat)
    requires Inv(t.cb) && Followed(t, n)
    ensures Followed(Track(t, InputOp(d)), n + 1)
  {
    var q := Input(t.cb, d).cb.tx.buf;
    InputKeepsInv(t.cb, d);
    AcksDropOnly(Progress(t.cb, false, 0, 0), ParseDatagram(t.cb.cfg.conv, d).packets);
    forall i | 0 <= i < |q|
      ensures Survivor(t.lives, q[i]).seg == q[i] && LifeOk(Survivor(t.lives, q[i]), t.cb.cfg, n + 1)
    {
      var j := InputLeaves(t.cb, d, i);
      SurvivorIsFound(t.lives, q[i], j);
    }
  }

  lemma {:induction false} AdmitAppends(c: Pass, x: Tx, window: u32)
    ensures var q := Admit(c, x, window).buf;
            x.buf <= q && forall i :: |x.buf| <= i < |q| ==> q[i].xmit == 0
    decreases |x.queue|
  {
    if CanAdmit(x, window) { AdmitAppends(c, AdmitOne(c, x), window); }
  }

  lemma FlushFollows(t: Tracked, s: Cb, n: nat)
    requires Followed(t, n) && n + 1 < H32 && s == t.cb.(clock := s.clock)
    ensures Followed(Tracked(Flush(s).cb, AfterFlush(t.lives, s)), n + 1)
  {
    var c, q := PassOf(s), Admitted(s).buf;
    AdmitAppends(c, s.tx, SendLimit(s));
    TouchAllAt(c, q);
    if s.clock.updated {
      forall i | 0 <= i < |q|
        ensures var l := AfterFlush(t.lives, s)[i]; l.seg == Touch(c, q[i]) && LifeOk(l, s.cfg, n + 1)
      {
        var l := if i < |t.lives| then t.lives[i] else Life(q[i], 0, 0, 0);
        PassKeepsLife(l, s.cfg, c, n);
      }
    }
  }

  /** Segments that no call touches stay accounted for. */
  lemma LivesOn(t: Tracked, s: Cb, n: nat)
    requires Followed(t, n) && s.tx.buf == t.cb.tx.buf && s.cfg == t.cb.cfg && s.rtt == t.cb.rtt
    ensures Followed(Tracked(s, t.lives), n + 1)
  {
  }

  lemma SendOnlyQueues(s: Cb, message: Bytes)
    ensures var t := Send(s, message, |message|).cb; t.tx.buf == s.tx.buf && t.cfg == s.cfg && t.rtt == s.rtt
  {
  }

  lemma RecvOnlyReads(s: Cb, len: int)
    ensures var t := Recv(s, len).cb; t.tx == s.tx && t.cfg == s.cfg && t.rtt == s.rtt
  {
  }

  lemma UpdateFollows(t: Tracked, now: u32, n: nat)
    requires Followed(t, n) && n + 1 < H32
    ensures Followed(Track(t, UpdateOp(now)), n + 1)
  {
    hide LifeOk, Flush, AfterFlush, Followed;
    var k := Tick(t.cb.clock, t.cb.cfg.interval, now);
    if k.due {
      FlushFollows(t, t.cb.(clock := k.clock), n);
    } else {
      LivesOn(t, t.cb.(clock := k.clock), n);
    }
  }

  lemma TrackFollows(t: Tracked, op: Op, n: nat)
    requires Inv(t.cb) && Followed(t, n) && n + 1 < H32
    ensures Followed(Track(t, op), n + 1)
  {
    hide Inv, LifeOk, Send, Recv, Input, Flush, Update, AfterInput, AfterFlush;
    match op
    case SendOp(message) =>
      SendOnlyQueues(t.cb, message);
      LivesOn(t, Do(t.cb, op), n);
    case RecvOp(len) =>
      RecvOnlyReads(t.cb, len);
      LivesOn(t, Do(t.cb, op), n);
    case InputOp(d) => InputFollows(t, d, n);
    case FlushOp => FlushFollows(t, t.cb, n);
    case UpdateOp(now) => UpdateFollows(t, now, n);
  }

  /** In every reachable state the send counter of each segment in flight is accounted for, its fast
      resends number at most fastlimit when that is positive, and its timeout has been doubled. */
  lemma {:induction false} SendsAreAccounted(c: Cfg, ops: seq<Op>)
    requires CfgOk(c) && |ops| < H32
    ensures TrackAll(c, ops).cb == DoAll(Create(c), ops) && Followed(TrackAll(c, ops), |ops|)
  {
    if ops != [] {
      var front := ops[..|ops| - 1];
      SendsAreAccounted(c, front);
      RunKeepsInv(c, front);
      TrackFollows(TrackAll(c, front), ops[|ops| - 1], |front|);
    }
  }

  // ---- the end of a link -----------------------------------------------------------

  /** In the state after the first k calls some segment has been sent dead_link times. */
  ghost predicate Exhausted(c: Cfg, ops: seq<Op>, k: nat) {
    k <= |ops|
    && exists i :: 0 <= i < |DoAll(Create(c), ops[..k]).tx.buf| && DoAll(Create(c), ops[..k]).tx.buf[i].xmit >= c.deadLink
  }

  lemma DoDies(s: Cb, op: Op)
    requires s.state == 0 && Do(s, op).state != 0
    ensures Do(s, op).state == STATE_DEAD
    ensures exists i :: 0 <= i < |Do(s, op).tx.buf| && Do(s, op).tx.buf[i].xmit >= s.cfg.deadLink
  {
    match op
    case SendOp(_) =>
    case RecvOp(_) =>
    case InputOp(d) => InputKeepsState(Progress(s, false, 0, 0), ParseDatagram(s.cfg.conv, d).packets);
    case FlushOp => StateDiesOnlyAtDeadLink(s);
    case UpdateOp(now) => StateDiesOnlyAtDeadLink(s.(clock := Tick(s.clock, s.cfg.interval, now).clock));
  }

  lemma {:induction false} InputKeepsState(t: Progress, ps: seq<Packet>)
    ensures InputPackets(t, ps).cb.state == t.cb.state
  {
    if ps != [] { InputKeepsState(t, ps[..|ps| - 1]); }
  }

  /** state is -1 only after some segment reached dead_link sends. */
  lemma {:induction false} RunDiesOnlyAtDeadLink(c: Cfg, ops: seq<Op>) returns (k: nat)
    requires CfgOk(c) && DoAll(Create(c), ops).state != 0
    ensures DoAll(Create(c), ops).state == STATE_DEAD && Exhausted(c, ops, k)
  {
    hide Do;
    var front := ops[..|ops| - 1];
    var s := DoAll(Create(c), front);
    if s.state != 0 {
      k := RunDiesOnlyAtDeadLink(c, front);
      assert front[..k] == ops[..k];
      DeadStaysDead(s, ops[|ops| - 1]);
    } else {
      RunKeepsInv(c, front);
      DoDies(s, ops[|ops| - 1]);
      k := |ops|;
      assert ops[..k] == ops;
    }
  }

  lemma DeadStaysDead(s: Cb, op: Op)
    requires s.state == STATE_DEAD
    ensures Do(s, op).state == STATE_DEAD
  {
    if op.InputOp? { InputKeepsState(Progress(s, false, 0, 0), ParseDatagram(s.cfg.conv, op.d).packets); }
  }
}
