/** The KCP control block as a value, and every ikcp.c operation as a function on it.
    The class in Kcp.dfy runs these operations in place and is proved equal to them. */
module KcpModel {
  import opened Serial
  import opened Wire

  const RTO_DEF: u32 := 200
  const RTO_MIN: i32 := 100
  const RTO_NDL: i32 := 30
  const RTO_MAX: u32 := 60000
  const WND_SND: u32 := 32
  const WND_RCV: u32 := 128
  const MTU_DEF: u32 := 1400
  const INTERVAL: u32 := 100
  const DEADLINK: u32 := 20
  const THRESH_INIT: u32 := 2
  const THRESH_MIN: u32 := 2
  const PROBE_INIT: u32 := 7000
  const PROBE_LIMIT: u32 := 120000
  const FASTACK_LIMIT: i32 := 5
  const STATE_DEAD: u32 := 0xffff_ffff

  /** IKCPSEG without its list links; `len` is |data|. */
  datatype Seg = Seg(conv: u32, cmd: u32, frg: u32, wnd: u32, ts: u32, sn: u32, una: u32,
                     resendts: u32, rto: u32, fastack: u32, xmit: u32, data: Bytes)

  datatype Ack = Ack(sn: u32, ts: u32)

  // IKCPCB in parts. List-length counters are integers; the two bits of `probe` are booleans.

  /** What is fixed before traffic starts. */
  datatype Cfg = Cfg(conv: u32, mtu: u32, mss: u32, sndWnd: u32, rcvWnd: u32, interval: u32, nodelay: u32,
                     rxMinrto: i32, fastresend: i32, fastlimit: i32, nocwnd: bool, stream: bool, deadLink: u32)

  /** Sending half: snd_una, snd_nxt, snd_queue, snd_buf, nsnd_que, nsnd_buf. */
  datatype Tx = Tx(una: u32, nxt: u32, queue: seq<Seg>, buf: seq<Seg>, nque: int, nbuf: int)

  /** Receiving half: rcv_nxt, rcv_queue, rcv_buf, nrcv_que, nrcv_buf. */
  datatype Rx = Rx(nxt: u32, queue: seq<Seg>, buf: seq<Seg>, nque: int, nbuf: int)

  /** rx_srtt, rx_rttval, rx_rto. */
  datatype Rtt = Rtt(srtt: i32, rttval: i32, rto: u32)

  /** cwnd, ssthresh, incr. */
  datatype Cong = Cong(cwnd: u32, ssthresh: u32, incr: u32)

  /** The bits IKCP_ASK_SEND and IKCP_ASK_TELL, ts_probe, probe_wait. */
  datatype Probe = Probe(askSend: bool, askTell: bool, ts: u32, wait: u32)

  datatype Clock = Clock(current: u32, tsFlush: u32, updated: bool)

  datatype Cb = Cb(cfg: Cfg, tx: Tx, rx: Rx, acklist: seq<Ack>, rtt: Rtt, cong: Cong, probe: Probe, clock: Clock,
                   rmtWnd: u32, xmit: u32, state: u32)

  function DefaultCfg(conv: u32): Cfg {
    Cfg(conv, MTU_DEF, MTU_DEF - OVERHEAD, WND_SND, WND_RCV, INTERVAL, 0,
        RTO_MIN, 0, FASTACK_LIMIT, false, false, DEADLINK)
  }

  /** ikcp_create followed by the setters, which only change the configuration. */
  function Create(cfg: Cfg): Cb {
    Cb(cfg, Tx(0, 0, [], [], 0, 0), Rx(0, [], [], 0, 0), [], Rtt(0, 0, RTO_DEF), Cong(0, THRESH_INIT, 0),
       Probe(false, false, 0, 0), Clock(0, INTERVAL, false), WND_RCV, 0, 0)
  }

  /** ikcp_setmtu. */
  function SetMtu(c: Cfg, mtu: i32): Cfg {
    if mtu < 50 then c else c.(mtu := mtu, mss := mtu - OVERHEAD)
  }

  /** The clamp applied to every interval. */
  function ClampInterval(interval: i32): u32 {
    if interval > 5000 then 5000 else if interval < 10 then 10 else interval
  }

  /** ikcp_nodelay. */
  function SetNodelay(c: Cfg, nodelay: i32, interval: i32, resend: i32, nc: i32): Cfg {
    var c1 := if nodelay >= 0 then c.(nodelay := nodelay, rxMinrto := if nodelay != 0 then RTO_NDL else RTO_MIN) else c;
    var c2 := if interval >= 0 then c1.(interval := ClampInterval(interval)) else c1;
    var c3 := if resend >= 0 then c2.(fastresend := resend) else c2;
    if nc >= 0 then c3.(nocwnd := nc != 0) else c3
  }

  /** ikcp_wndsize. */
  function SetWindow(c: Cfg, sndwnd: i32, rcvwnd: i32): Cfg {
    var c1 := if sndwnd > 0 then c.(sndWnd := sndwnd) else c;
    if rcvwnd > 0 then c1.(rcvWnd := Max(rcvwnd, WND_RCV)) else c1
  }

  /** KcpClient::CreateKcp: windows of 128, nodelay 2, interval 10, fast resend, no congestion window. */
  function ClientCfg(conv: u32): Cfg {
    SetNodelay(SetWindow(DefaultCfg(conv), 128, 128), 2, 10, 2, 1).(rxMinrto := 10, fastresend := 1)
  }

  // ---- receiving -------------------------------------------------------------------

  /** Number of segments up to and including the first one with frg 0 (all of them if none). */
  function HeadCount(q: seq<Seg>): (n: nat)
    ensures n <= |q|
  {
    if q == [] then 0 else if q[0].frg == 0 then 1 else 1 + HeadCount(q[1..])
  }

  function Payload(q: seq<Seg>): Bytes {
    if q == [] then [] else Payload(q[..|q| - 1]) + q[|q| - 1].data
  }

  /** ikcp_peeksize. */
  function PeekSize(r: Rx): int {
    if r.queue == [] then -1
    else if r.queue[0].frg == 0 then |r.queue[0].data|
    else if r.nque < r.queue[0].frg + 1 then -1
    else |Payload(r.queue[..HeadCount(r.queue)])|
  }

  predicate CanMove(wnd: u32, r: Rx) {
    r.buf != [] && r.buf[0].sn == r.nxt && r.nque < wnd
  }

  function MoveOne(r: Rx): Rx
    requires r.buf != []
  {
    Rx(Add(r.nxt, 1), r.queue + [r.buf[0]], r.buf[1..], r.nque + 1, r.nbuf - 1)
  }

  /** The loop that moves available data from rcv_buf to rcv_queue. */
  function MoveReady(wnd: u32, r: Rx): Rx
    decreases |r.buf|
  {
    if CanMove(wnd, r) then MoveReady(wnd, MoveOne(r)) else r
  }

  /** What is left of the receive queue once a message of n segments was read, or peeked at when len < 0. */
  function Take(r: Rx, len: int, n: nat): Rx
    requires n <= |r.queue|
  {
    if len < 0 then r else r.(queue := r.queue[n..], nque := r.nque - n)
  }

  datatype Received = Received(cb: Cb, ret: int, data: Bytes)

  /** Merging the message at the head of the queue, then making use of the room. */
  function ReadHead(s: Cb, len: int): Received {
    var n := HeadCount(s.rx.queue);
    var msg := Payload(s.rx.queue[..n]);
    var rx := MoveReady(s.cfg.rcvWnd, Take(s.rx, len, n));
    var recovered := rx.nque < s.cfg.rcvWnd && s.rx.nque >= s.cfg.rcvWnd;
    Received(s.(rx := rx, probe := if recovered then s.probe.(askTell := true) else s.probe), |msg|, msg)
  }

  /** ikcp_recv; a negative `len` peeks. */
  function Recv(s: Cb, len: int): Received {
    var size := PeekSize(s.rx);
    if s.rx.queue == [] then Received(s, -1, [])
    else if size < 0 then Received(s, -2, [])
    else if size > (if len < 0 then -len else len) then Received(s, -3, [])
    else ReadHead(s, len)
  }

  // ---- sending ---------------------------------------------------------------------

  /** A segment as ikcp_send leaves it: only data and frg are set, ikcp_flush fills in the rest. */
  function NewSeg(frg: u32, data: Bytes): Seg {
    Seg(0, 0, frg, 0, 0, 0, 0, 0, 0, 0, 0, data)
  }

  /** Cuts `data` into `count` segments of at most mss bytes, numbered down to 0 unless streaming. */
  function Chop(data: Bytes, mss: u32, stream: bool, count: u32): seq<Seg>
    decreases count
  {
    if count == 0 then []
    else
      var size := Min(|data|, mss);
      [NewSeg(if stream then 0 else count - 1, data[..size])] + Chop(data[size..], mss, stream, count - 1)
  }

  /** Number of segments for `len` bytes (ikcp_send asserts that mss is not 0). */
  function SegCount(len: nat, mss: u32): nat {
    if len <= mss || mss == 0 then 1 else (len + mss - 1) / mss
  }

  datatype Sent = Sent(cb: Cb, ret: int)

  /** Streaming mode may append to the last queued segment when that one is short of mss. */
  predicate CanAppend(c: Cfg, q: seq<Seg>) {
    c.stream && q != [] && |q[|q| - 1].data| < c.mss
  }

  /** Number of bytes so appended, out of `len`. */
  function Extend(c: Cfg, q: seq<Seg>, len: nat): nat {
    if CanAppend(c, q) then Min(len, c.mss - |q[|q| - 1].data|) else 0
  }

  function AppendTail(c: Cfg, q: seq<Seg>, data: Bytes): seq<Seg> {
    if CanAppend(c, q) then q[..|q| - 1] + [NewSeg(0, q[|q| - 1].data + data)] else q
  }

  /** ikcp_send of the first `len` bytes of the caller's buffer. */
  function Send(s: Cb, buffer: Bytes, len: int): Sent
    requires len <= |buffer|
  {
    if len < 0 then Sent(s, -1)
    else
      var ext := Extend(s.cfg, s.tx.queue, len);
      var q := AppendTail(s.cfg, s.tx.queue, buffer[..ext]);
      var rest := len - ext;
      var count := SegCount(rest, s.cfg.mss);
      if s.cfg.stream && rest <= 0 then Sent(s.(tx := s.tx.(queue := q)), ext)
      else if count >= WND_RCV then Sent(s.(tx := s.tx.(queue := q)), if s.cfg.stream && ext > 0 then ext else -2)
      else
        Sent(s.(tx := s.tx.(queue := q + Chop(buffer[ext..len], s.cfg.mss, s.cfg.stream, count),
                            nque := s.tx.nque + count)), len)
  }

  // ---- input -----------------------------------------------------------------------

  /** _ibound_ on unsigned values. */
  function Bound(lower: u32, middle: u32, upper: u32): u32 {
    Min(Max(lower, middle), upper)
  }

  function NextSrtt(srtt: i32, rtt: i32): i32 {
    if srtt == 0 then rtt else Max(I32(CDiv(I32(I32(7 * srtt) + rtt), 8)), 1)
  }

  function NextRttval(r: Rtt, rtt: i32): i32 {
    if r.srtt == 0 then I32(CDiv(rtt, 2))
    else I32(CDiv(I32(3 * r.rttval) + (if rtt < r.srtt then r.srtt - rtt else rtt - r.srtt), 4))
  }

  function RtoOf(c: Cfg, srtt: i32, rttval: i32): u32 {
    Bound(U32(c.rxMinrto), U32(srtt + Max(c.interval, U32(4 * rttval))), RTO_MAX)
  }

  /** ikcp_update_ack. Signed products wrap; SampleStaysInBounds shows they never do for sane samples. */
  function UpdateAck(c: Cfg, r: Rtt, rtt: i32): Rtt {
    var srtt, rttval := NextSrtt(r.srtt, rtt), NextRttval(r, rtt);
    Rtt(srtt, rttval, RtoOf(c, srtt, rttval))
  }

  /** ikcp_shrink_buf. */
  function Shrink(x: Tx): Tx {
    x.(una := if x.buf == [] then x.nxt else x.buf[0].sn)
  }

  /** The scan of ikcp_parse_una: drops the leading segments below `una`. */
  function DropBelow(q: seq<Seg>, una: u32): seq<Seg> {
    if q != [] && Diff(una, q[0].sn) > 0 then DropBelow(q[1..], una) else q
  }

  /** ikcp_parse_una. */
  function ParseUna(x: Tx, una: u32): Tx {
    var q := DropBelow(x.buf, una);
    x.(buf := q, nbuf := x.nbuf - (|x.buf| - |q|))
  }

  /** The scan of ikcp_parse_ack: removes the segment numbered sn, giving up at a larger number. */
  function DropAcked(q: seq<Seg>, sn: u32): seq<Seg> {
    if q == [] then []
    else if sn == q[0].sn then q[1..]
    else if Diff(sn, q[0].sn) < 0 then q
    else [q[0]] + DropAcked(q[1..], sn)
  }

  predicate InFlight(x: Tx, sn: u32) {
    !(Diff(sn, x.una) < 0 || Diff(sn, x.nxt) >= 0)
  }

  /** ikcp_parse_ack. */
  function ParseAck(x: Tx, sn: u32): Tx {
    if !InFlight(x, sn) then x
    else
      var q := DropAcked(x.buf, sn);
      x.(buf := q, nbuf := x.nbuf - (|x.buf| - |q|))
  }

  /** The scan of ikcp_parse_fastack: every segment below sn, sent no later than ts, was skipped once more. */
  function MarkSkipped(q: seq<Seg>, sn: u32, ts: u32): (r: seq<Seg>)
    ensures |r| == |q|
  {
    if q == [] || Diff(sn, q[0].sn) < 0 then q
    else
      var g := q[0];
      [if sn != g.sn && Diff(ts, g.ts) >= 0 then g.(fastack := Add(g.fastack, 1)) else g] + MarkSkipped(q[1..], sn, ts)
  }

  /** ikcp_parse_fastack. */
  function ParseFastack(x: Tx, sn: u32, ts: u32): Tx {
    if !InFlight(x, sn) then x else x.(buf := MarkSkipped(x.buf, sn, ts))
  }

  /** Insertion into rcv_buf, scanning from the back; a repeated number is dropped. */
  function InsertBack(q: seq<Seg>, g: Seg): seq<Seg> {
    if q == [] then [g]
    else
      var last := |q| - 1;
      if q[last].sn == g.sn then q
      else if Diff(g.sn, q[last].sn) > 0 then q + [g]
      else InsertBack(q[..last], g) + [q[last]]
  }

  predicate InWindow(wnd: u32, r: Rx, sn: u32) {
    !(Diff(sn, Add(r.nxt, wnd)) >= 0 || Diff(sn, r.nxt) < 0)
  }

  /** ikcp_parse_data. */
  function ParseData(wnd: u32, r: Rx, g: Seg): Rx {
    if !InWindow(wnd, r, g.sn) then r
    else
      var q := InsertBack(r.buf, g);
      MoveReady(wnd, r.(buf := q, nbuf := r.nbuf + (|q| - |r.buf|)))
  }

  /** Control block and loop variables of ikcp_input between two segments. */
  datatype Progress = Progress(cb: Cb, flag: bool, maxack: u32, latestTs: u32)

  function Sampled(s: Cb, ts: u32): Rtt {
    var rtt := Diff(s.clock.current, ts);
    if rtt >= 0 then UpdateAck(s.cfg, s.rtt, rtt) else s.rtt
  }

  function InputAck(t: Progress, p: Packet): Progress {
    var s := t.cb.(rtt := Sampled(t.cb, p.ts), tx := Shrink(ParseAck(t.cb.tx, p.sn)));
    if !t.flag || (Diff(p.sn, t.maxack) > 0 && Diff(p.ts, t.latestTs) > 0) then Progress(s, true, p.sn, p.ts)
    else t.(cb := s)
  }

  function SegOf(p: Packet): Seg {
    Seg(p.conv, p.cmd, p.frg, p.wnd, p.ts, p.sn, p.una, 0, 0, 0, 0, p.data)
  }

  /** A segment short of the window's end is acknowledged, even a repeated one, and stored when new. */
  function InputPush(s: Cb, p: Packet): Cb {
    if Diff(p.sn, Add(s.rx.nxt, s.cfg.rcvWnd)) >= 0 then s
    else
      s.(acklist := s.acklist + [Ack(p.sn, p.ts)],
         rx := if Diff(p.sn, s.rx.nxt) >= 0 then ParseData(s.cfg.rcvWnd, s.rx, SegOf(p)) else s.rx)
  }

  /** Every segment carries the peer's window and cumulative acknowledgement. */
  function InputHeader(s: Cb, p: Packet): Cb {
    s.(rmtWnd := p.wnd, tx := Shrink(ParseUna(s.tx, p.una)))
  }

  /** The body of the ikcp_input loop for one accepted segment. */
  function InputPacket(t: Progress, p: Packet): Progress {
    var t1 := t.(cb := InputHeader(t.cb, p));
    if p.cmd == CMD_ACK then InputAck(t1, p)
    else if p.cmd == CMD_PUSH then t1.(cb := InputPush(t1.cb, p))
    else if p.cmd == CMD_WASK then t1.(cb := t1.cb.(probe := t1.cb.probe.(askTell := true)))
    else t1
  }

  function InputPackets(t: Progress, ps: seq<Packet>): Progress {
    if ps == [] then t else InputPacket(InputPackets(t, ps[..|ps| - 1]), ps[|ps| - 1])
  }

  /** Congestion avoidance above ssthresh. */
  function Avoid(g: Cong, mss: u32): Cong {
    var base := Max(g.incr, mss);
    var incr := Add(base, Add(Div(Mul(mss, mss), base), mss / 16));
    g.(incr := incr, cwnd := if Mul(Add(g.cwnd, 1), mss) <= incr then Div(Sub(Add(incr, mss), 1), mss) else g.cwnd)
  }

  /** Slow start below ssthresh, avoidance above. */
  function GrowStep(g: Cong, mss: u32): Cong {
    if g.cwnd < g.ssthresh then g.(cwnd := Add(g.cwnd, 1), incr := Add(g.incr, mss)) else Avoid(g, mss)
  }

  function Capped(g: Cong, mss: u32, rmtWnd: u32): Cong {
    if g.cwnd > rmtWnd then g.(cwnd := rmtWnd, incr := Mul(rmtWnd, mss)) else g
  }

  /** Window growth at the end of ikcp_input. */
  function Grow(g: Cong, mss: u32, rmtWnd: u32): Cong {
    if g.cwnd >= rmtWnd then g else Capped(GrowStep(g, mss), mss, rmtWnd)
  }

  function FinishInput(t: Progress, prevUna: u32): Cb {
    var s := t.cb;
    s.(tx := if t.flag then ParseFastack(s.tx, t.maxack, t.latestTs) else s.tx,
       cong := if Diff(s.tx.una, prevUna) > 0 then Grow(s.cong, s.cfg.mss, s.rmtWnd) else s.cong)
  }

  /** ikcp_input on an arbitrary byte string. */
  function Input(s: Cb, d: Bytes): Sent {
    var parsed := ParseDatagram(s.cfg.conv, d);
    var t := InputPackets(Progress(s, false, 0, 0), parsed.packets);
    if parsed.code != 0 then Sent(t.cb, parsed.code) else Sent(FinishInput(t, s.tx.una), 0)
  }

  // ---- flushing --------------------------------------------------------------------

  /** Datagrams already handed to the output callback, and the bytes gathered for the next one. */
  datatype Out = Out(done: seq<Bytes>, buf: Bytes)

  /** ikcp_output ignores an empty buffer. */
  function Hand(o: Out): seq<Bytes> {
    if o.buf == [] then o.done else o.done + [o.buf]
  }

  function Emit(mtu: u32, o: Out, p: Packet): Out {
    if |o.buf| + OVERHEAD + |p.data| > mtu then Out(Hand(o), Encode(p)) else Out(o.done, o.buf + Encode(p))
  }

  function EmitAll(mtu: u32, o: Out, ps: seq<Packet>): Out {
    if ps == [] then o else Emit(mtu, EmitAll(mtu, o, ps[..|ps| - 1]), ps[|ps| - 1])
  }

  function Batch(mtu: u32, ps: seq<Packet>): seq<Bytes> {
    Hand(EmitAll(mtu, Out([], []), ps))
  }

  /** ikcp_encode_seg truncates cmd and frg to 8 bits and wnd to 16. */
  function PacketOf(g: Seg): Packet {
    Packet(g.conv, g.cmd % 0x100, g.frg % 0x100, g.wnd % 0x1_0000, g.ts, g.sn, g.una, g.data)
  }

  /** ikcp_wnd_unused. */
  function Unused(rcvWnd: u32, nque: int): u32 {
    if 0 <= nque < rcvWnd then rcvWnd - nque else 0
  }

  function WndUnused(s: Cb): u32 {
    Unused(s.cfg.rcvWnd, s.rx.nque)
  }

  /** What all control segments of one flush have in common. */
  datatype Header = Header(conv: u32, wnd: u32, una: u32)

  function HeaderOf(s: Cb): Header {
    Header(s.cfg.conv, WndUnused(s), s.rx.nxt)
  }

  function Control(h: Header, cmd: byte, a: Ack): Packet {
    Packet(h.conv, cmd, 0, h.wnd % 0x1_0000, a.ts, a.sn, h.una, [])
  }

  function AckPackets(h: Header, acks: seq<Ack>): seq<Packet> {
    if acks == [] then [] else AckPackets(h, acks[..|acks| - 1]) + [Control(h, CMD_ACK, acks[|acks| - 1])]
  }

  /** Probe segments reuse the number and timestamp of the last acknowledgement. */
  function LastAck(acks: seq<Ack>): Ack {
    if acks == [] then Ack(0, 0) else acks[|acks| - 1]
  }

  /** The probe timer: armed while the remote window is zero, backing off by half up to its limit. */
  function ProbeTimer(b: Probe, current: u32, rmtWnd: u32): Probe {
    if rmtWnd != 0 then b.(ts := 0, wait := 0)
    else if b.wait == 0 then b.(wait := PROBE_INIT, ts := Add(current, PROBE_INIT))
    else if Diff(current, b.ts) >= 0 then
      var w := Max(b.wait, PROBE_INIT);
      var wait := Min(Add(w, w / 2), PROBE_LIMIT);
      b.(wait := wait, ts := Add(current, wait), askSend := true)
    else b
  }

  function ProbePackets(h: Header, b: Probe, last: Ack): seq<Packet> {
    (if b.askSend then [Control(h, CMD_WASK, last)] else []) + (if b.askTell then [Control(h, CMD_WINS, last)] else [])
  }

  /** The number of segments allowed in flight by the configured, remote and congestion windows. */
  function SendLimit(s: Cb): u32 {
    var w := Min(s.cfg.sndWnd, s.rmtWnd);
    if s.cfg.nocwnd then w else Min(s.cong.cwnd, w)
  }

  /** What a flush stamps on the segments it sends. */
  datatype Pass = Pass(conv: u32, current: u32, rto: u32, rtomin: u32, resent: u32, nodelay: u32, fastlimit: i32,
                       wnd: u32, una: u32, deadLink: u32)

  function PassOf(s: Cb): Pass {
    Pass(s.cfg.conv, s.clock.current, s.rtt.rto, if s.cfg.nodelay == 0 then s.rtt.rto / 8 else 0,
         if s.cfg.fastresend > 0 then s.cfg.fastresend else 0xffff_ffff, s.cfg.nodelay, s.cfg.fastlimit,
         WndUnused(s), s.rx.nxt, s.cfg.deadLink)
  }

  /** A queued segment numbered and stamped for its first transmission. */
  function Numbered(c: Pass, sn: u32, g: Seg): Seg {
    Seg(c.conv, CMD_PUSH, g.frg, c.wnd, c.current, sn, c.una, c.current, c.rto, 0, 0, g.data)
  }

  predicate CanAdmit(x: Tx, limit: u32) {
    Diff(x.nxt, Add(x.una, limit)) < 0 && x.queue != []
  }

  function AdmitOne(c: Pass, x: Tx): Tx
    requires x.queue != []
  {
    Tx(x.una, Add(x.nxt, 1), x.queue[1..], x.buf + [Numbered(c, x.nxt, x.queue[0])], x.nque - 1, x.nbuf + 1)
  }

  /** The loop that moves data from snd_queue to snd_buf while the window allows. */
  function Admit(c: Pass, x: Tx, limit: u32): Tx
    decreases |x.queue|
  {
    if CanAdmit(x, limit) then Admit(c, AdmitOne(c, x), limit) else x
  }

  datatype Verdict = Hold | First | Timeout | Fast

  function Judge(c: Pass, g: Seg): Verdict {
    if g.xmit == 0 then First
    else if Diff(c.current, g.resendts) >= 0 then Timeout
    else if g.fastack >= c.resent && (I32(g.xmit) <= c.fastlimit || c.fastlimit <= 0) then Fast
    else Hold
  }

  function BackedOff(c: Pass, rto: u32): u32 {
    if c.nodelay == 0 then Add(rto, Max(rto, c.rto))
    else U32(rto + CDiv(if c.nodelay < 2 then I32(rto) else I32(c.rto), 2))
  }

  /** A segment after the pass. */
  function Touch(c: Pass, g: Seg): Seg {
    var sent := g.(xmit := Add(g.xmit, 1), ts := c.current, wnd := c.wnd, una := c.una);
    match Judge(c, g)
    case Hold => g
    case First => sent.(rto := c.rto, resendts := Add(Add(c.current, c.rto), c.rtomin))
    case Timeout => sent.(rto := BackedOff(c, g.rto), resendts := Add(c.current, BackedOff(c, g.rto)))
    case Fast => sent.(fastack := 0, resendts := Add(c.current, g.rto))
  }

  function TouchAll(c: Pass, q: seq<Seg>): (r: seq<Seg>)
    ensures |r| == |q|
  {
    if q == [] then [] else TouchAll(c, q[..|q| - 1]) + [Touch(c, q[|q| - 1])]
  }

  function DuePackets(c: Pass, q: seq<Seg>): seq<Packet> {
    if q == [] then []
    else
      var g := q[|q| - 1];
      DuePackets(c, q[..|q| - 1]) + (if Judge(c, g).Hold? then [] else [PacketOf(Touch(c, g))])
  }

  function CountOf(c: Pass, q: seq<Seg>, v: Verdict): nat {
    if q == [] then 0 else CountOf(c, q[..|q| - 1], v) + (if Judge(c, q[|q| - 1]) == v then 1 else 0)
  }

  /** The transmission counter: one more for every overdue segment. */
  function XmitAfter(c: Pass, q: seq<Seg>, xmit: u32): u32 {
    if q == [] then xmit
    else
      var before := XmitAfter(c, q[..|q| - 1], xmit);
      if Judge(c, q[|q| - 1]) == Timeout then Add(before, 1) else before
  }

  /** Some segment sent in this pass reached dead_link transmissions. */
  predicate Dead(c: Pass, q: seq<Seg>) {
    q != [] && (Dead(c, q[..|q| - 1]) || (!Judge(c, q[|q| - 1]).Hold? && Touch(c, q[|q| - 1]).xmit >= c.deadLink))
  }

  /** After fast resends: the window opens to half of what is in flight, plus the resend threshold. */
  function AfterResend(inflight: u32, mss: u32, resent: u32): Cong {
    var thresh := Max(inflight / 2, THRESH_MIN);
    Cong(Add(thresh, resent), thresh, Mul(Add(thresh, resent), mss))
  }

  /** The congestion update at the end of ikcp_flush. */
  function Congest(g: Cong, inflight: u32, mss: u32, change: bool, lost: bool, limit: u32, resent: u32): Cong {
    var g1 := if change then AfterResend(inflight, mss, resent) else g;
    var g2 := if lost then Cong(1, Max(limit / 2, THRESH_MIN), mss) else g1;
    if g2.cwnd < 1 then g2.(cwnd := 1, incr := mss) else g2
  }

  /** The sending half after ikcp_flush has admitted new segments, before it transmits. */
  function Admitted(s: Cb): Tx {
    Admit(PassOf(s), s.tx, SendLimit(s))
  }

  function FlushProbe(s: Cb): Probe {
    ProbeTimer(s.probe, s.clock.current, s.rmtWnd)
  }

  /** Everything ikcp_flush puts on the wire, in order: acknowledgements, probes, due data. */
  function FlushPackets(s: Cb): seq<Packet> {
    AckPackets(HeaderOf(s), s.acklist) + ProbePackets(HeaderOf(s), FlushProbe(s), LastAck(s.acklist))
    + DuePackets(PassOf(s), Admitted(s).buf)
  }

  datatype Flushed = Flushed(cb: Cb, datagrams: seq<Bytes>)

  /** What the data half of a flush changes. */
  datatype Sending = Sending(tx: Tx, xmit: u32, state: u32, cong: Cong)

  /** Admission, one pass over snd_buf, and the congestion update. */
  function SendPass(c: Pass, limit: u32, mss: u32, b: Sending): Sending {
    var x := Admit(c, b.tx, limit);
    Sending(x.(buf := TouchAll(c, x.buf)), XmitAfter(c, x.buf, b.xmit), if Dead(c, x.buf) then STATE_DEAD else b.state,
            Congest(b.cong, Sub(x.nxt, x.una), mss, CountOf(c, x.buf, Fast) > 0, CountOf(c, x.buf, Timeout) > 0,
                    limit, c.resent))
  }

  function FlushState(s: Cb): Cb {
    var r := SendPass(PassOf(s), SendLimit(s), s.cfg.mss, Sending(s.tx, s.xmit, s.state, s.cong));
    s.(tx := r.tx, acklist := [], probe := FlushProbe(s).(askSend := false, askTell := false),
       xmit := r.xmit, state := r.state, cong := r.cong)
  }

  /** ikcp_flush. */
  function Flush(s: Cb): Flushed {
    if !s.clock.updated then Flushed(s, []) else Flushed(FlushState(s), Batch(s.cfg.mtu, FlushPackets(s)))
  }

  // ---- clock -----------------------------------------------------------------------

  /** The clock part of ikcp_update, and whether ikcp_flush follows. */
  datatype Ticked = Ticked(clock: Clock, due: bool)

  function Tick(k: Clock, interval: u32, current: u32): Ticked {
    var base := if k.updated then k.tsFlush else current;
    var slap := Diff(current, base);
    var far := slap >= 10000 || slap < -10000;
    var start := if far then current else base;
    var next := Add(start, interval);
    if far || slap >= 0 then
      Ticked(Clock(current, if Diff(current, next) >= 0 then Add(current, interval) else next, true), true)
    else Ticked(Clock(current, start, true), false)
  }

  /** ikcp_update. */
  function Update(s: Cb, current: u32): Flushed {
    var k := Tick(s.clock, s.cfg.interval, current);
    var s1 := s.(clock := k.clock);
    if k.due then Flush(s1) else Flushed(s1, [])
  }

  /** Smallest wait until a segment is due for retransmission; 0 if one already is. */
  function PacketWait(q: seq<Seg>, current: u32): i32 {
    if q == [] then 0x7fff_ffff
    else
      var w := PacketWait(q[..|q| - 1], current);
      var d := Diff(q[|q| - 1].resendts, current);
      if w <= 0 || d <= 0 then 0 else Min(d, w)
  }

  /** ikcp_check. */
  function Check(s: Cb, current: u32): u32 {
    var d := Diff(current, s.clock.tsFlush);
    if !s.clock.updated || d >= 0 || d < -10000 then current
    else
      var w := PacketWait(s.tx.buf, current);
      if w <= 0 then current else Add(current, Min(Min(w, Diff(s.clock.tsFlush, current)), s.cfg.interval))
  }

  // ---- calls -----------------------------------------------------------------------

  /** A call of the API on one endpoint. */
  datatype Op = SendOp(message: Bytes) | RecvOp(len: int) | InputOp(d: Bytes) | FlushOp | UpdateOp(now: u32)

  function Do(s: Cb, op: Op): Cb {
    match op
    case SendOp(message) => Send(s, message, |message|).cb
    case RecvOp(len) => Recv(s, len).cb
    case InputOp(d) => Input(s, d).cb
    case FlushOp => Flush(s).cb
    case UpdateOp(now) => Update(s, now).cb
  }

  function DoAll(s: Cb, ops: seq<Op>): Cb {
    if ops == [] then s else Do(DoAll(s, ops[..|ops| - 1]), ops[|ops| - 1])
  }
}
