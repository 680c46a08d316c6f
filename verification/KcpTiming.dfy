/** Round-trip estimation, congestion window, retransmission history and flush scheduling. */
module KcpTiming {
  import opened Serial
  import opened Wire
  import opened KcpModel
  import opened KcpInvariant

  // ---- round-trip estimator --------------------------------------------------------

  /** The estimator before any sample, or bounded by samples in [a, b]. */
  ghost predicate RttOk(r: Rtt, a: int, b: int) {
    0 <= r.rttval <= b && (r.srtt == 0 || a <= r.srtt <= b)
  }

  /** The timeout from exact estimates. */
  function ExactRto(c: Cfg, srtt: nat, rttval: nat): int {
    Min(Max(U32(c.rxMinrto), srtt + Max(c.interval, 4 * rttval)), RTO_MAX)
  }

  lemma RtoIsExact(c: Cfg, srtt: i32, rttval: i32)
    requires 0 <= srtt < 0x1000_0000 && 0 <= rttval < 0x1000_0000 && c.interval <= 5000
    ensures RtoOf(c, srtt, rttval) == ExactRto(c, srtt, rttval)
  {
    Fits32(4 * rttval);
    Fits32(srtt + Max(c.interval, 4 * rttval));
  }

  lemma SrttIsExact(srtt: i32, rtt: i32)
    requires 0 <= rtt < 0x1000_0000 && 0 <= srtt < 0x1000_0000
    ensures NextSrtt(srtt, rtt) == if srtt == 0 then rtt else Max((7 * srtt + rtt) / 8, 1)
  {
  }

  lemma RttvalIsExact(r: Rtt, rtt: i32)
    requires 0 <= rtt < 0x1000_0000 && 0 <= r.srtt < 0x1000_0000 && 0 <= r.rttval < 0x1000_0000
    ensures NextRttval(r, rtt) == if r.srtt == 0 then rtt / 2
                                  else (3 * r.rttval + (if rtt < r.srtt then r.srtt - rtt else rtt - r.srtt)) / 4
  {
  }

  /** One sample in [a, b]: no 32-bit intermediate overflows, the estimates stay in range, and the
      timeout is the smoothed time plus four deviations (or the interval), clamped. */
  lemma SampleStaysInBounds(c: Cfg, r: Rtt, rtt: i32, a: int, b: int)
    requires 0 <= a <= rtt <= b && 1 <= b < 0x1000_0000 && RttOk(r, a, b) && c.interval <= 5000
    ensures 3 * r.rttval + b < H32 && 7 * r.srtt + rtt < H32
    ensures var t := UpdateAck(c, r, rtt);
            RttOk(t, a, b) && a <= t.srtt <= b && 4 * t.rttval < H32 && t.rto == ExactRto(c, t.srtt, t.rttval)
  {
    SrttIsExact(r.srtt, rtt);
    RttvalIsExact(r, rtt);
    RtoIsExact(c, NextSrtt(r.srtt, rtt), NextRttval(r, rtt));
  }

  /** Truncation does nothing to a value in range. */
  lemma Fits32(x: int)
    requires 0 <= x < M32
    ensures U32(x) == x
    ensures x < H32 ==> I32(x) == x
  {
  }

  function Samples(c: Cfg, r: Rtt, rtts: seq<i32>): Rtt {
    if rtts == [] then r else UpdateAck(c, Samples(c, r, rtts[..|rtts| - 1]), rtts[|rtts| - 1])
  }

  /** Over any number of samples in [a, b] the estimates stay within the samples' range. */
  lemma {:induction false} RttBounds(c: Cfg, rto: u32, rtts: seq<i32>, a: int, b: int)
    requires 0 <= a && 1 <= b < 0x1000_0000 && c.interval <= 5000 && rtts != []
    requires forall i :: 0 <= i < |rtts| ==> a <= rtts[i] <= b
    ensures var t := Samples(c, Rtt(0, 0, rto), rtts);
            && a <= t.srtt <= b && 0 <= t.rttval <= b
            && Min(U32(c.rxMinrto), RTO_MAX) <= t.rto <= RTO_MAX
  {
    var front := rtts[..|rtts| - 1];
    if front != [] {
      RttBounds(c, rto, front, a, b);
    }
    SampleStaysInBounds(c, Samples(c, Rtt(0, 0, rto), front), rtts[|rtts| - 1], a, b);
  }

  // ---- congestion window -----------------------------------------------------------

  /** incr tracks cwnd segments to within one segment either way. */
  ghost predicate CongOk(g: Cong, mss: u32) {
    g.ssthresh >= 2 && (g.cwnd - 1) * mss < g.incr < (g.cwnd + 1) * mss
  }

  /** One avoidance step adds less than a segment plus a sixteenth, without wrapping. */
  lemma AvoidStep(w: u32, incr: u32, mss: u32) returns (q: u32)
    requires 1 <= mss <= 0xffff && 2 <= w < 0xffff && (w - 1) * mss < incr < (w + 1) * mss
    ensures q == Div(Mul(mss, mss), incr) && incr + q + mss / 16 + mss < M32 && mss <= incr
  {
    Square(mss);
    MulMonotone(1, w - 1, mss);
    q := Div(Mul(mss, mss), incr);
    MulMonotone(w + 1, 0x10000, mss);
    if q >= 2 && w >= 0xfffb {
      MulMonotone(2, q, incr);
      MulMonotone(0xfffa, w - 1, mss);
      MulMonotone(mss, 0xffff, mss);
    }
    if w < 0xfffb {
      MulMonotone(w + 1, 0xfffb, mss);
      if q > mss {
        MulMonotone(mss + 1, q, incr);
        Distribute(mss, 1, incr);
        MulMonotone(mss, incr, mss);
      }
    } else {
      MulMonotone(w + 1, 0xffff, mss);
    }
  }

  lemma MulMonotone(x: nat, y: nat, b: nat)
    requires x <= y
    ensures x * b <= y * b
  {
    Distribute(x, y - x, b);
    NonNegativeProduct(y - x, b);
  }

  lemma NonNegativeProduct(x: nat, b: nat)
    ensures x * b >= 0
  {
  }

  lemma Square(mss: u32)
    requires mss <= 0xffff
    ensures Mul(mss, mss) == mss * mss
  {
    MulMonotone(mss, 0xffff, mss);
  }

  /** Rounding incr up to whole segments gives a window that contains it. */
  lemma RoundedUp(incr: nat, mss: u32, w0: nat, thresh: u32)
    requires 1 <= mss && (w0 + 1) * mss <= incr && incr + mss - 1 < M32 && thresh >= 2
    ensures var w := Div(incr + mss - 1, mss); CongOk(Cong(w, thresh, incr), mss) && w0 < w
  {
    QuotientBounds(incr + mss - 1, mss);
    var w: int := (incr + mss - 1) / mss;
    Distribute(w, 1, mss);
    Distribute(w, -1, mss);
    if w <= w0 {
      MulMonotone(w, w0, mss);
      Distribute(w0, 1, mss);
    }
  }

  lemma AvoidKeeps(g: Cong, mss: u32)
    requires CongOk(g, mss) && 1 <= mss <= 0xffff && g.ssthresh <= g.cwnd < 0xffff
    ensures CongOk(Avoid(g, mss), mss) && g.cwnd <= Avoid(g, mss).cwnd
  {
    var q := AvoidStep(g.cwnd, g.incr, mss);
    var incr := g.incr + q + mss / 16;
    assert Avoid(g, mss).incr == incr;
    MulMonotone(g.cwnd + 1, 0xffff, mss);
    Fits32((g.cwnd + 1) * mss);
    if (g.cwnd + 1) * mss <= incr {
      RoundedUp(incr, mss, g.cwnd, g.ssthresh);
    }
  }

  lemma ExactWindow(w: nat, mss: u32, thresh: u32)
    requires 1 <= mss && w < M32 && w * mss < M32 && thresh >= 2
    ensures CongOk(Cong(w, thresh, w * mss), mss)
  {
    Distribute(w, 1, mss);
    Distribute(w, -1, mss);
  }

  lemma SlowStartKeeps(g: Cong, mss: u32)
    requires CongOk(g, mss) && 1 <= mss <= 0xffff && g.cwnd < 0xffff
    ensures CongOk(g.(cwnd := Add(g.cwnd, 1), incr := Add(g.incr, mss)), mss)
  {
    MulMonotone(g.cwnd + 1, 0xffff, mss);
    Distribute(g.cwnd, -1, mss);
    Distribute(g.cwnd, 1, mss);
    Distribute(g.cwnd + 1, 1, mss);
  }

  lemma GrowStepKeeps(g: Cong, mss: u32)
    requires CongOk(g, mss) && 1 <= mss <= 0xffff && g.cwnd < 0xffff
    ensures CongOk(GrowStep(g, mss), mss) && g.cwnd <= GrowStep(g, mss).cwnd && GrowStep(g, mss).ssthresh == g.ssthresh
  {
    if g.cwnd < g.ssthresh {
      SlowStartKeeps(g, mss);
    } else {
      AvoidKeeps(g, mss);
    }
  }

  lemma CappedKeeps(g: Cong, mss: u32, rmtWnd: u32)
    requires CongOk(g, mss) && 1 <= mss <= 0xffff && rmtWnd <= 0xffff
    ensures CongOk(Capped(g, mss, rmtWnd), mss)
  {
    MulMonotone(rmtWnd, 0xffff, mss);
    MulMonotone(mss, 0xffff, 0xffff);
    Fits32(rmtWnd * mss);
    ExactWindow(rmtWnd, mss, g.ssthresh);
  }

  /** Growing keeps the invariant, never shrinks the window, and never lifts it above the remote one. */
  lemma GrowKeeps(g: Cong, mss: u32, rmtWnd: u32)
    requires CongOk(g, mss) && 1 <= mss <= 0xffff && rmtWnd <= 0xffff
    ensures CongOk(Grow(g, mss, rmtWnd), mss) && Grow(g, mss, rmtWnd).ssthresh == g.ssthresh
    ensures g.cwnd <= Grow(g, mss, rmtWnd).cwnd <= Max(g.cwnd, rmtWnd)
  {
    if g.cwnd < rmtWnd {
      GrowStepKeeps(g, mss);
      CappedKeeps(GrowStep(g, mss), mss, rmtWnd);
    }
  }

  lemma OneSegment(mss: u32, thresh: u32)
    requires 1 <= mss && thresh >= 2
    ensures CongOk(Cong(1, thresh, mss), mss)
  {
  }

  lemma AfterResendKeeps(inflight: u32, mss: u32, resent: u32)
    requires 1 <= mss && inflight <= 0xffff && Add(Max(inflight / 2, THRESH_MIN), resent) * mss < M32
    ensures CongOk(AfterResend(inflight, mss, resent), mss)
  {
    var thresh := Max(inflight / 2, THRESH_MIN);
    Fits32(Add(thresh, resent) * mss);
    ExactWindow(Add(thresh, resent), mss, thresh);
  }

  /** Fast resend and loss keep the invariant while the resend threshold does not overflow the product. */
  lemma CongestKeeps(g: Cong, inflight: u32, mss: u32, change: bool, lost: bool, limit: u32, resent: u32)
    requires CongOk(g, mss) && 1 <= mss && inflight <= 0xffff
    requires change ==> Add(Max(inflight / 2, THRESH_MIN), resent) * mss < M32
    ensures CongOk(Congest(g, inflight, mss, change, lost, limit, resent), mss)
    ensures Congest(g, inflight, mss, change, lost, limit, resent).cwnd >= 1
  {
    if change {
      AfterResendKeeps(inflight, mss, resent);
    }
    var g1 := if change then AfterResend(inflight, mss, resent) else g;
    assert CongOk(g1, mss);
    OneSegment(mss, Max(limit / 2, THRESH_MIN));
    OneSegment(mss, g1.ssthresh);
  }

  /** The fast-resend threshold, as configured, cannot make cwnd * mss wrap. */
  ghost predicate ResendFits(c: Cfg) {
    c.mss <= 0xffff && (c.fastresend > 0 ==> (0x7fff + c.fastresend) * c.mss < M32)
  }

  lemma ThresholdFits(c: Cfg, inflight: u32)
    requires ResendFits(c) && inflight <= 0xffff
    ensures Add(Max(inflight / 2, THRESH_MIN), if c.fastresend > 0 then c.fastresend else 0xffff_ffff) * c.mss < M32
  {
    var thresh := Max(inflight / 2, THRESH_MIN);
    if c.fastresend > 0 {
      MulMonotone(thresh + c.fastresend, 0x7fff + c.fastresend, c.mss);
    } else {
      MulMonotone(thresh - 1, 0x7fff, c.mss);
    }
  }

  lemma {:induction false} InputPacketsKeepCong(t: Progress, ps: seq<Packet>)
    ensures InputPackets(t, ps).cb.cong == t.cb.cong
  {
    if ps != [] {
      InputPacketsKeepCong(t, ps[..|ps| - 1]);
    }
  }

  /** The congestion invariant holds after ikcp_create ... */
  lemma CreateCong(c: Cfg)
    requires CfgOk(c)
    ensures CongOk(Create(c).cong, c.mss)
  {
  }

  /** ... after ikcp_input on any bytes, which never lifts cwnd above the remote window ... */
  lemma InputKeepsCong(s: Cb, d: Bytes)
    requires Inv(s) && s.cfg.mss <= 0xffff && CongOk(s.cong, s.cfg.mss)
    ensures var t := Input(s, d).cb;
            CongOk(t.cong, s.cfg.mss) && s.cong.cwnd <= t.cong.cwnd <= Max(s.cong.cwnd, t.rmtWnd)
  {
    var ps := ParseDatagram(s.cfg.conv, d).packets;
    ParsedAreValid(s.cfg.conv, d);
    InputPacketsKeepInv(Progress(s, false, 0, 0), ps);
    InputPacketsKeepCong(Progress(s, false, 0, 0), ps);
    GrowKeeps(s.cong, s.cfg.mss, InputPackets(Progress(s, false, 0, 0), ps).cb.rmtWnd);
  }

  /** ... and after ikcp_flush. */
  lemma FlushKeepsCong(s: Cb)
    requires Inv(s) && ResendFits(s.cfg) && CongOk(s.cong, s.cfg.mss)
    ensures CongOk(Flush(s).cb.cong, s.cfg.mss)
  {
    AdmitKeeps(s.cfg, PassOf(s), s.tx, SendLimit(s));
    var x := Admitted(s);
    ThresholdFits(s.cfg, Sub(x.nxt, x.una));
    CongestKeeps(s.cong, Sub(x.nxt, x.una), s.cfg.mss, CountOf(PassOf(s), x.buf, Fast) > 0,
                 CountOf(PassOf(s), x.buf, Timeout) > 0, SendLimit(s), PassOf(s).resent);
  }

  // ---- flow control and window probing ---------------------------------------------

  /** The number of segments in flight. */
  function InFlightCount(x: Tx): u32 {
    Sub(x.nxt, x.una)
  }

  /** Segments are numbered while the window allows and the queue has some, and no longer. */
  lemma {:induction false} AdmitFillsWindow(k: Cfg, c: Pass, x: Tx, limit: u32)
    requires TxOk(k, x) && limit <= 0xffff && c.conv == k.conv
    ensures var t := Admit(c, x, limit);
            && InFlightCount(x) <= InFlightCount(t) <= Max(InFlightCount(x), limit)
            && (t.queue == [] || InFlightCount(t) >= limit)
    decreases |x.queue|
  {
    if CanAdmit(x, limit) {
      AdmitOneKeeps(k, c, x, limit);
      AdmitFillsWindow(k, c, AdmitOne(c, x), limit);
    }
  }

  /** A flush puts no more in flight than the smallest of the configured, the remote and (unless switched
      off) the congestion window, and leaves nothing queued while there is room. */
  lemma FlushFillsWindow(s: Cb)
    requires Inv(s) && s.clock.updated
    ensures var (x, t) := (s.tx, Flush(s).cb.tx);
            && InFlightCount(t) <= Max(InFlightCount(x), Min(s.cfg.sndWnd, s.rmtWnd))
            && (!s.cfg.nocwnd ==> InFlightCount(t) <= Max(InFlightCount(x), s.cong.cwnd))
            && (t.queue == [] || InFlightCount(t) >= Min(s.cfg.sndWnd, s.rmtWnd)
                || (!s.cfg.nocwnd && InFlightCount(t) >= s.cong.cwnd))
  {
    AdmitFillsWindow(s.cfg, PassOf(s), s.tx, SendLimit(s));
  }

  /** Between calls no question is pending, and the probe timer is off or waits 7 to 120 seconds. */
  ghost predicate ProbeOk(b: Probe) {
    !b.askSend && (b.wait == 0 || PROBE_INIT <= b.wait <= PROBE_LIMIT)
  }

  /** A flush asks for the remote window exactly when that is closed and the timer has run out; a closed
      window leaves the timer armed, and each unanswered question makes the wait half as long again, up
      to the limit. */
  lemma ProbesClosedWindows(s: Cb)
    requires ProbeOk(s.probe) && s.clock.updated
    ensures var (b, t) := (FlushProbe(s), Flush(s).cb.probe);
            && ProbeOk(t) && (t.wait > 0 <==> s.rmtWnd == 0)
            && (b.askSend <==> s.rmtWnd == 0 && s.probe.wait > 0 && Diff(s.clock.current, s.probe.ts) >= 0)
            && (b.askSend ==> t.wait == Min(s.probe.wait + s.probe.wait / 2, PROBE_LIMIT)
                              && t.ts == Add(s.clock.current, t.wait))
            && (s.rmtWnd == 0 && s.probe.wait == 0 ==> t.wait == PROBE_INIT && t.ts == Add(s.clock.current, PROBE_INIT))
  {
  }

  // ---- retransmission history ------------------------------------------------------

  /** After an effective flush every segment in snd_buf has been sent (the counter not having wrapped). */
  lemma FlushSendsEach(s: Cb)
    requires s.clock.updated && forall i :: 0 <= i < |Admitted(s).buf| ==> Admitted(s).buf[i].xmit < 0xffff_ffff
    ensures forall i :: 0 <= i < |Flush(s).cb.tx.buf| ==> Flush(s).cb.tx.buf[i].xmit >= 1
  {
    TouchAllAt(PassOf(s), Admitted(s).buf);
  }

  /** A segment travels only when new, overdue, or skipped often enough; exactly those travel. */
  lemma {:induction false} SentOnlyWhenDue(c: Pass, q: seq<Seg>)
    ensures forall p :: p in DuePackets(c, q) <==> exists i :: 0 <= i < |q| && !Judge(c, q[i]).Hold? && p == PacketOf(Touch(c, q[i]))
  {
    if q != [] {
      var front, n := q[..|q| - 1], |q| - 1;
      SentOnlyWhenDue(c, front);
      forall p
        ensures p in DuePackets(c, q) <==> exists i :: 0 <= i < |q| && !Judge(c, q[i]).Hold? && p == PacketOf(Touch(c, q[i]))
      {
        if p in DuePackets(c, front) {
          var i :| 0 <= i < |front| && !Judge(c, front[i]).Hold? && p == PacketOf(Touch(c, front[i]));
          assert q[i] == front[i];
        }
        if i :| 0 <= i < |q| && !Judge(c, q[i]).Hold? && p == PacketOf(Touch(c, q[i])) {
          assert i < n ==> front[i] == q[i];
        }
      }
    }
  }

  /** The link is declared dead exactly when a segment sent in this flush reached dead_link sends. */
  lemma {:induction false} DeadIff(c: Pass, q: seq<Seg>)
    ensures Dead(c, q) <==> exists i :: 0 <= i < |q| && !Judge(c, q[i]).Hold? && Touch(c, q[i]).xmit >= c.deadLink
  {
    if q != [] {
      var front, n := q[..|q| - 1], |q| - 1;
      DeadIff(c, front);
      if i :| 0 <= i < |q| && !Judge(c, q[i]).Hold? && Touch(c, q[i]).xmit >= c.deadLink {
        assert i < n ==> front[i] == q[i];
      }
      if Dead(c, front) {
        var i :| 0 <= i < |front| && !Judge(c, front[i]).Hold? && Touch(c, front[i]).xmit >= c.deadLink;
        assert q[i] == front[i];
      }
    }
  }

  /** state changes only to dead, and only then. */
  lemma StateDiesOnlyAtDeadLink(s: Cb)
    requires Flush(s).cb.state != s.state
    ensures Flush(s).cb.state == STATE_DEAD
    ensures exists i :: 0 <= i < |Flush(s).cb.tx.buf| && Flush(s).cb.tx.buf[i].xmit >= s.cfg.deadLink
  {
    var c, q := PassOf(s), Admitted(s).buf;
    DeadIff(c, q);
    TouchAllAt(c, q);
    var i :| 0 <= i < |q| && !Judge(c, q[i]).Hold? && Touch(c, q[i]).xmit >= c.deadLink;
    assert Flush(s).cb.tx.buf[i].xmit >= s.cfg.deadLink;
  }

  // ---- scheduling ------------------------------------------------------------------

  lemma {:induction false} PacketWaitNonNegative(q: seq<Seg>, current: u32)
    ensures PacketWait(q, current) >= 0
  {
    if q != [] {
      PacketWaitNonNegative(q[..|q| - 1], current);
    }
  }

  /** Modulo 2^32: until the moment ikcp_check names, ikcp_update would not flush; that moment is at
      most one interval away and never later than the next scheduled flush. */
  lemma CheckAgreesWithUpdate(s: Cb, current: u32, d: u32)
    requires 10 <= s.cfg.interval <= 5000 && d < Sub(Check(s, current), current)
    ensures !Tick(s.clock, s.cfg.interval, Add(current, d)).due
    ensures Sub(Check(s, current), current) <= Min(s.cfg.interval, Diff(s.clock.tsFlush, current))
  {
    PacketWaitNonNegative(s.tx.buf, current);
  }

  /** Clock updates at unbounded times, with the number of flushes they caused. */
  datatype Ticks = Ticks(clock: Clock, flushes: nat)

  function TickAll(k: Clock, interval: u32, times: seq<nat>): Ticks {
    if times == [] then Ticks(k, 0)
    else
      var t := TickAll(k, interval, times[..|times| - 1]);
      var r := Tick(t.clock, interval, U32(times[|times| - 1]));
      Ticks(r.clock, t.flushes + (if r.due then 1 else 0))
  }

  /** A clock that never runs backwards and is read at least once every 2^31 units. */
  ghost predicate Monotone(times: seq<nat>) {
    forall i :: 0 < i < |times| ==> times[i - 1] <= times[i] < times[i - 1] + H32
  }

  /** One reading of the clock, in unbounded time: a flush moves the schedule on by at least one interval. */
  lemma TickAdvances(k: Clock, interval: u32, prev: nat, now: nat) returns (next: nat)
    requires k.updated && k.tsFlush == U32(prev) && 10 <= interval <= 5000
    requires prev <= now + interval && now < prev + H32
    ensures var r := Tick(k, interval, U32(now));
            && r.clock.updated && r.clock.tsFlush == U32(next) && now < next <= now + interval
            && (if r.due then next >= prev + interval else next == prev)
  {
    SerialGap(now, prev);
    SerialGap(now, prev + interval);
    SerialGap(now, now + interval);
    AddModulus(prev, interval);
    AddModulus(now, interval);
    if now < prev {
      next := prev;
    } else if now >= prev + 10000 || now >= prev + interval {
      next := now + interval;
    } else {
      next := prev + interval;
    }
  }

  lemma AddModulus(x: nat, interval: u32)
    ensures Add(U32(x), interval) == U32(x + interval)
  {
    AddSubAreModular(U32(x), interval);
    ShiftModulus(x, interval);
  }

  /** The next flush time as an unbounded number: within one interval after the last clock reading. */
  lemma {:induction false} FlushTimeAdvances(k: Clock, interval: u32, times: seq<nat>) returns (next: nat)
    requires !k.updated && 10 <= interval <= 5000 && times != [] && Monotone(times)
    ensures var t := TickAll(k, interval, times);
            && t.clock.updated && t.clock.tsFlush == U32(next)
            && times[|times| - 1] < next <= times[|times| - 1] + interval
            && t.flushes * interval <= next - times[0]
  {
    var last := |times| - 1;
    var front, now := times[..last], times[last];
    var t := TickAll(k, interval, front);
    if last == 0 {
      assert front == [];
      next := TickAdvances(Clock(0, U32(now), true), interval, now, now);
    } else {
      assert forall i :: 0 <= i < last ==> front[i] == times[i];
      var prev := FlushTimeAdvances(k, interval, front);
      assert times[last - 1] <= now < times[last - 1] + H32;
      next := TickAdvances(t.clock, interval, prev, now);
      Distribute(t.flushes, 1, interval);
    }
  }

  lemma SerialGap(x: nat, y: nat)
    requires -H32 <= x - y < H32
    ensures Diff(U32(x), U32(y)) == x - y
  {
    AddSubAreModular(U32(x), U32(y));
    ModDifference(x, y);
  }

  lemma ModDifference(x: nat, y: nat)
    ensures U32(U32(x) - U32(y)) == U32(x - y)
  {
    ModPlusMultiple(U32(x) - U32(y), x / M32 - y / M32);
    assert x - y == U32(x) - U32(y) + (x / M32 - y / M32) * M32;
  }

  /** The number of flushes is bounded by the time that passed: one per interval, plus the first. */
  lemma FlushesAreBounded(k: Clock, interval: u32, times: seq<nat>)
    requires !k.updated && 10 <= interval <= 5000 && times != [] && Monotone(times)
    ensures TickAll(k, interval, times).flushes * interval <= times[|times| - 1] - times[0] + interval
  {
    var next := FlushTimeAdvances(k, interval, times);
  }
}
