/** Socket.cpp: the buffered sender send_b, timer_b and flush_b. */
module SendBuffer {
  import opened Wire
  import opened Serial
  import opened Sequences
  import B = Buffer

  const TCP_BUFFER_SIZE: nat := 0x2_0000

  /** The send buffer (capacity 0 while there is none), what the kernel took, what send_b accepted,
      whether the socket was shut down, and when the ticker was last reset. */
  datatype State = State(held: Bytes, capacity: nat, kernel: Bytes, accepted: Bytes, closed: bool, ticker: nat)

  const FRESH: State := State([], 0, [], [], false, 0)

  /** _max_bufsize_b and _flush_b_times. */
  datatype Limits = Limits(maxSize: u32, flushTimes: u32)

  const DEFAULTS: Limits := Limits(0x800_0000, 1000)

  /** What the kernel answers to one send: it takes up to n of the bytes, or none for now, or fails. */
  datatype Reply = Took(n: nat) | Again | Failed

  /** The length is passed as 32 bits, so that is all the kernel can take. */
  function Taken(s: State, n: nat): nat {
    Min(n, U32(|s.held|))
  }

  /** The buffer after the kernel took `taken` bytes; both sides are compared as signed 32 bits. */
  function Release(s: State, taken: nat, now: nat): State
    requires taken <= |s.held|
  {
    if I32(taken) <= 0 then s.(closed := true)
    else if I32(taken) == I32(|s.held|) then s.(held := [], ticker := now)
    else if I32(taken) < I32(|s.held|) then s.(held := s.held[I32(taken)..], ticker := now)
    else s.(closed := true)
  }

  function FlushB(s: State, reply: Reply, now: nat): State {
    if s.held == [] then s.(ticker := now)
    else
      match reply
      case Again => s
      case Failed => s.(closed := true)
      case Took(n) =>
        var taken := Taken(s, n);
        Release(s, taken, now).(kernel := s.kernel + s.held[..taken])
  }

  /** The first call creates the buffer. */
  function Created(s: State): State {
    if s.capacity == 0 then s.(capacity := 2 * TCP_BUFFER_SIZE) else s
  }

  predicate Refuses(s: State, data: Bytes, limits: Limits) {
    |s.held| + |data| > s.capacity > limits.maxSize
  }

  function Stored(s: State, data: Bytes): State {
    s.(held := s.held + data, accepted := s.accepted + data,
       capacity := if |s.held| + |data| <= s.capacity then s.capacity else 2 * (s.capacity + |data|))
  }

  function SendB(s: State, data: Bytes, limits: Limits, sendable: bool, reply: Reply, now: nat): State {
    var s0 := Created(s);
    if Refuses(s0, data, limits) then s0.(closed := true)
    else
      var s1 := Stored(s0, data);
      if |s1.held| > TCP_BUFFER_SIZE / 2 && sendable then FlushB(s1, reply, now) else s1
  }

  /** The clock is read twice. */
  function TimerB(s: State, limits: Limits, reply: Reply, now: nat, later: nat): State {
    var s1 := if now - s.ticker > limits.flushTimes then FlushB(s, reply, now) else s;
    if later - s1.ticker > U32(10 * limits.flushTimes) then s1.(closed := true) else s1
  }

  datatype Event =
    | Send(data: Bytes, sendable: bool, reply: Reply, now: nat)
    | Timer(reply: Reply, now: nat, later: nat)
    | FlushNow(reply: Reply, now: nat)

  /** After a shutdown nothing is sent any more. */
  function Step(s: State, limits: Limits, e: Event): State {
    if s.closed then s
    else
      match e
      case Send(data, sendable, reply, now) => SendB(s, data, limits, sendable, reply, now)
      case Timer(reply, now, later) => TimerB(s, limits, reply, now, later)
      case FlushNow(reply, now) => FlushB(s, reply, now)
  }

  function Steps(s: State, limits: Limits, es: seq<Event>): State {
    if es == [] then s else Step(Steps(s, limits, es[..|es| - 1]), limits, es[|es| - 1])
  }

  // ---- conservation ----------------------------------------------------------------

  /** Kernel and buffer together hold exactly what was accepted, in order. */
  ghost predicate Conserved(s: State) {
    |s.held| <= s.capacity && s.kernel + s.held == s.accepted
  }

  /** A flush keeps that, exactly unless 2^31 bytes or more are held and the kernel takes at least as
      many as the signed 32-bit reading of their number. */
  lemma FlushConservesExactly(s: State, n: nat, now: nat)
    requires Conserved(s) && s.held != [] && Taken(s, n) > 0
    ensures Conserved(FlushB(s, Took(n), now)) <==> |s.held| < H32 || Taken(s, n) < I32(|s.held|)
  {
    var taken := Taken(s, n);
    Associate(s.kernel, s.held[..taken], s.held[taken..]);
    assert s.held[..taken] + s.held[taken..] == s.held;
    assert taken == |s.held| ==> s.held[..taken] == s.held && s.kernel + s.held + [] == s.kernel + s.held;
  }

  lemma FlushConserves(s: State, reply: Reply, now: nat)
    requires Conserved(s) && s.capacity < H32
    ensures Conserved(FlushB(s, reply, now))
    ensures FlushB(s, reply, now).accepted == s.accepted && FlushB(s, reply, now).capacity == s.capacity
  {
    if s.held != [] && reply.Took? {
      if Taken(s, reply.n) > 0 {
        FlushConservesExactly(s, reply.n, now);
      } else {
        assert s.kernel + s.held[..0] == s.kernel;
      }
    }
  }

  lemma FlushShrinks(s: State, reply: Reply, now: nat)
    ensures var t := FlushB(s, reply, now); |t.held| <= |s.held| && t.capacity == s.capacity
  {
  }

  lemma StoreConserves(s: State, data: Bytes)
    requires Conserved(s)
    ensures Conserved(Stored(s, data))
  {
    Associate(s.kernel, s.held, data);
  }

  lemma StepConserves(s: State, limits: Limits, e: Event)
    requires Conserved(s) && Step(s, limits, e).capacity < H32
    ensures Conserved(Step(s, limits, e)) && s.capacity <= Step(s, limits, e).capacity
    ensures Step(s, limits, e).accepted == s.accepted + Accepts(s, limits, e)
  {
    assert s.accepted + [] == s.accepted;
    hide FlushB;
    match e
    case Send(data, sendable, reply, now) =>
      StoreConserves(Created(s), data);
      FlushShrinks(Stored(Created(s), data), reply, now);
      if Stored(Created(s), data).capacity < H32 { FlushConserves(Stored(Created(s), data), reply, now); }
    case Timer(reply, now, later) =>
      FlushShrinks(s, reply, now);
      if s.capacity < H32 { FlushConserves(s, reply, now); }
    case FlushNow(reply, now) =>
      FlushShrinks(s, reply, now);
      if s.capacity < H32 { FlushConserves(s, reply, now); }
  }

  /** What send_b accepts: the data of a call that is not refused. */
  function Accepts(s: State, limits: Limits, e: Event): Bytes {
    if e.Send? && !s.closed && !Refuses(Created(s), e.data, limits) then e.data else []
  }

  function AllAccepted(limits: Limits, es: seq<Event>): Bytes {
    if es == [] then []
    else
      var front := es[..|es| - 1];
      AllAccepted(limits, front) + Accepts(Steps(FRESH, limits, front), limits, es[|es| - 1])
  }

  lemma CapacityGrows(s: State, limits: Limits, e: Event)
    ensures s.capacity <= Step(s, limits, e).capacity
  {
  }

  /** Any interleaving of the three calls, whatever the kernel answers, with a buffer below 2 GiB: what
      the kernel took, followed by what is still buffered, is the concatenation of everything accepted. */
  lemma {:induction false} RunsConserve(limits: Limits, es: seq<Event>)
    requires Steps(FRESH, limits, es).capacity < H32
    ensures Conserved(Steps(FRESH, limits, es)) && Steps(FRESH, limits, es).accepted == AllAccepted(limits, es)
  {
    if es != [] {
      var s := Steps(FRESH, limits, es[..|es| - 1]);
      CapacityGrows(s, limits, es[|es| - 1]);
      RunsConserve(limits, es[..|es| - 1]);
      StepConserves(s, limits, es[|es| - 1]);
    }
  }

  lemma StepIsBounded(s: State, limits: Limits, e: Event, longest: nat)
    requires |s.held| <= s.capacity <= Max(2 * TCP_BUFFER_SIZE, 2 * (limits.maxSize + longest))
    requires e.Send? ==> |e.data| <= longest
    ensures var t := Step(s, limits, e);
            |t.held| <= t.capacity <= Max(2 * TCP_BUFFER_SIZE, 2 * (limits.maxSize + longest))
  {
    hide FlushB;
    match e
    case Send(data, sendable, reply, now) => FlushShrinks(Stored(Created(s), data), reply, now);
    case Timer(reply, now, later) => FlushShrinks(s, reply, now);
    case FlushNow(reply, now) => FlushShrinks(s, reply, now);
  }

  /** The buffer never outgrows twice the limit and one piece of data. */
  lemma {:induction false} CapacityIsBounded(limits: Limits, es: seq<Event>, longest: nat)
    requires forall e <- es :: e.Send? ==> |e.data| <= longest
    ensures var t := Steps(FRESH, limits, es);
            |t.held| <= t.capacity <= Max(2 * TCP_BUFFER_SIZE, 2 * (limits.maxSize + longest))
  {
    if es != [] {
      var front, last := es[..|es| - 1], es[|es| - 1];
      CapacityIsBounded(limits, front, longest);
      assert last in es;
      StepIsBounded(Steps(FRESH, limits, front), limits, last, longest);
    }
  }

  /** The loss is real: with the default limit, two sends on a socket that is not writable buffer
      2^32 + 100 bytes; of those the kernel is offered, and takes, 100, and the rest is gone. */
  lemma HugeFlush(s: State, now: nat)
    requires |s.held| == 0x1_0000_0064 && s.kernel == []
    ensures FlushB(s, Took(100), now) == s.(held := [], kernel := s.held[..100], ticker := now)
  {
    assert [] + s.held[..100] == s.held[..100];
  }

  lemma HugeBufferIsLost(x: Bytes, y: Bytes, now: nat)
    requires |x| == 0xffff_ffff && |y| == 0x65
    ensures var sends := [Send(x, false, Again, 0), Send(y, false, Again, 0)];
            var (s, t) := (Steps(FRESH, DEFAULTS, sends), Steps(FRESH, DEFAULTS, sends + [FlushNow(Took(100), now)]));
            && s.held == s.accepted == x + y && !s.closed
            && t.held == [] && t.accepted == x + y && t.kernel == (x + y)[..100] && !t.closed && !Conserved(t)
  {
    var one, two, flush := Send(x, false, Again, 0), Send(y, false, Again, 0), FlushNow(Took(100), now);
    var none: seq<Event> := [];
    StepsSnoc(DEFAULTS, none, one);
    StepsSnoc(DEFAULTS, [one], two);
    StepsSnoc(DEFAULTS, [one, two], flush);
    assert none + [one] == [one] && [one] + [two] == [one, two];
    hide Steps;
    assert [] + x == x;
    var s1 := Steps(FRESH, DEFAULTS, [one]);
    assert s1.held == x && s1.accepted == x && s1.kernel == [] && s1.capacity == 2 * (2 * TCP_BUFFER_SIZE + 0xffff_ffff);
    HugeFlush(Steps(FRESH, DEFAULTS, [one, two]), now);
  }

  lemma StepsSnoc(limits: Limits, es: seq<Event>, e: Event)
    ensures Steps(FRESH, limits, es + [e]) == Step(Steps(FRESH, limits, es), limits, e)
  {
    assert (es + [e])[..|es|] == es;
  }

  /** The caller's condition: limit and pieces together below 1 GiB. */
  lemma ModestRunsConserve(limits: Limits, es: seq<Event>, longest: nat)
    requires (forall e <- es :: e.Send? ==> |e.data| <= longest) && 2 * (limits.maxSize + longest) < H32
    ensures Conserved(Steps(FRESH, limits, es)) && Steps(FRESH, limits, es).accepted == AllAccepted(limits, es)
  {
    CapacityIsBounded(limits, es, longest);
    RunsConserve(limits, es);
  }

  // ---- the class -------------------------------------------------------------------

  class Sender {
    const buf: B.Buffer
    const limits: Limits
    var sendable: bool
    var closed: bool
    var ticker: nat
    /** What the kernel took, and what send_b accepted. */
    ghost var kernel: Bytes
    ghost var accepted: Bytes

    ghost predicate Valid()
      reads this, buf, buf.data
    {
      buf.Valid()
    }

    ghost function View(): State
      requires Valid()
      reads this, buf, buf.data
    {
      State(buf.Contents(), buf.data.Length, kernel, accepted, closed, ticker)
    }

    constructor (limits: Limits)
      ensures Valid() && View() == FRESH && this.limits == limits && fresh(buf) && fresh(buf.data)
    {
      this.limits, sendable, closed, ticker, kernel, accepted := limits, true, false, 0, [], [];
      buf := new B.Buffer();
    }

    /** `reply` is what the send system call answers. */
    method Flush(reply: Reply, now: nat)
      requires Valid()
      modifies this`kernel, this`closed, this`ticker, buf, buf.data
      ensures Valid() && buf.data == old(buf.data) && View() == FlushB(old(View()), reply, now)
    {
      if buf.size == 0 {
        ticker := now;
        return;
      }
      ghost var s := View();
      var sent := Transmit(reply);
      if sent > 0 {
        if sent == I32(buf.size) {
          ticker := now;
          buf.Reset();
        } else if sent < I32(buf.size) {
          ticker := now;
          assert buf.data[sent..buf.size] == s.held[sent..];
          var ok := buf.Align(sent, buf.size);
        } else {
          closed := true;
        }
      } else if sent < 0 {
        closed := true;
      }
    }

    /** send_once_tcp: the number of bytes taken, 0 for a full kernel buffer, -1 for an error. */
    method Transmit(reply: Reply) returns (sent: i32)
      requires Valid() && buf.size > 0
      modifies this`kernel
      ensures var s := old(View());
              match reply
              case Again => sent == 0 && kernel == s.kernel
              case Failed => sent == -1 && kernel == s.kernel
              case Took(n) =>
                && kernel == s.kernel + s.held[..Taken(s, n)]
                && (sent == if Taken(s, n) == 0 then -1 else I32(Taken(s, n)))
    {
      match reply
      case Again => sent := 0;
      case Failed => sent := -1;
      case Took(n) =>
        var taken := Min(n, U32(buf.size));
        kernel := kernel + buf.Contents()[..taken];
        sent := if taken == 0 then -1 else I32(taken);
    }

    /** The buffer is created, grown if there is not enough room, and filled; above the limit it is refused. */
    method Store(data: Bytes) returns (ok: bool)
      requires Valid()
      modifies this`closed, this`accepted, buf, buf.data
      ensures Valid() && (buf.data == old(buf.data) || fresh(buf.data))
      ensures ok == !Refuses(Created(old(View())), data, limits)
      ensures View() == if ok then Stored(Created(old(View())), data) else Created(old(View())).(closed := true)
    {
      ghost var s := View();
      if buf.data.Length == 0 { buf.SetCapacity(2 * TCP_BUFFER_SIZE); }
      assert View() == Created(s);
      var idle := buf.Idle();
      if |data| > idle {
        if buf.data.Length > limits.maxSize {
          closed := true;
          return false;
        }
        buf.SetCapacity((buf.data.Length + |data|) * 2);
      }
      buf.Append(data);
      accepted := accepted + data;
      return true;
    }

    method Send(data: Bytes, reply: Reply, now: nat) returns (ok: bool)
      requires Valid()
      modifies this, buf, buf.data
      ensures Valid() && (buf.data == old(buf.data) || fresh(buf.data)) && sendable == old(sendable)
      ensures View() == SendB(old(View()), data, limits, sendable, reply, now)
      ensures ok == !Refuses(Created(old(View())), data, limits)
    {
      hide FlushB, Created, Stored, Refuses;
      ok := Store(data);
      if ok && buf.size > TCP_BUFFER_SIZE / 2 && sendable { Flush(reply, now); }
    }

    method Tick(reply: Reply, now: nat, later: nat)
      requires Valid()
      modifies this`kernel, this`closed, this`ticker, buf, buf.data
      ensures Valid() && View() == TimerB(old(View()), limits, reply, now, later)
    {
      if now - ticker > limits.flushTimes { Flush(reply, now); }
      if later - ticker > U32(10 * limits.flushTimes) { closed := true; }
    }
  }
}
