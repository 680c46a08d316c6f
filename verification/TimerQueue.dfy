/** EventLoop.cpp: the delayed tasks of an event loop, ordered by deadline. */
module TimerQueue {
  type u64 = x: int | 0 <= x < 0x1_0000_0000_0000_0000

  function U64(x: int): u64 {
    x % 0x1_0000_0000_0000_0000
  }

  /** An element of the multimap: a deadline in milliseconds and the task behind it. */
  datatype Entry = Entry(deadline: u64, task: nat)

  /** A call of doDelayTask: what the clock read, the delay, the task. */
  datatype Call = Call(clock: u64, delay: u64, task: nat)

  /** What running a task did: the delay after which it wants to run again (0 if it is done, was
      cancelled, or threw), and its calls of doDelayTask. */
  datatype Outcome = Outcome(next: u64, calls: seq<Call>)

  function EntryOf(c: Call): Entry {
    Entry(U64(c.clock + c.delay), c.task)
  }

  predicate Sorted(m: seq<Entry>) {
    forall i, j :: 0 <= i < j < |m| ==> m[i].deadline <= m[j].deadline
  }

  /** multimap::emplace: behind all entries with the same deadline. */
  function Insert(m: seq<Entry>, e: Entry): seq<Entry> {
    if m == [] || e.deadline < m[0].deadline then [e] + m else [m[0]] + Insert(m[1..], e)
  }

  function InsertAll(m: seq<Entry>, es: seq<Entry>): seq<Entry> {
    if es == [] then m else Insert(InsertAll(m, es[..|es| - 1]), es[|es| - 1])
  }

  /** How many entries, from the first on, are due. */
  function DueCount(m: seq<Entry>, now: u64): (n: nat)
    ensures n <= |m|
  {
    if m == [] || m[0].deadline > now then 0 else 1 + DueCount(m[1..], now)
  }

  /** What running one task adds to the multimap. */
  function Added(now: u64, e: Entry, o: Outcome): seq<Entry> {
    seq(|o.calls|, i requires 0 <= i < |o.calls| => EntryOf(o.calls[i]))
    + if o.next == 0 then [] else [Entry(U64(o.next + now), e.task)]
  }

  function Scheduled(now: u64, ran: seq<Entry>, outs: seq<Outcome>): seq<Entry>
    requires |ran| == |outs|
  {
    if ran == [] then []
    else Scheduled(now, ran[..|ran| - 1], outs[..|ran| - 1]) + Added(now, ran[|ran| - 1], outs[|ran| - 1])
  }

  /** The wait until the first deadline; 0 says that no timer is left. */
  function Wait(m: seq<Entry>, now: u64): u64 {
    if m == [] then 0 else U64(m[0].deadline - now)
  }

  datatype Flushed = Flushed(ran: seq<Entry>, pending: seq<Entry>, wait: u64)

  /** flushDelayTask; outs says what the i-th task that runs does. */
  function Flush(m: seq<Entry>, now: u64, outs: seq<Outcome>): Flushed
    requires DueCount(m, now) <= |outs|
  {
    var n := DueCount(m, now);
    var pending := InsertAll(m[n..], InsertAll([], Scheduled(now, m[..n], outs[..n])));
    Flushed(m[..n], pending, Wait(pending, now))
  }

  // ---- the multimap ----------------------------------------------------------------

  lemma {:induction false} InsertAdds(m: seq<Entry>, e: Entry)
    ensures multiset(Insert(m, e)) == multiset(m) + multiset{e}
  {
    if m != [] && e.deadline >= m[0].deadline {
      InsertAdds(m[1..], e);
      assert m == [m[0]] + m[1..];
    }
  }

  lemma {:induction false} InsertSorts(m: seq<Entry>, e: Entry)
    requires Sorted(m)
    ensures Sorted(Insert(m, e))
  {
    if m != [] && e.deadline >= m[0].deadline {
      assert Sorted(m[1..]) && forall x <- m[1..] :: m[0].deadline <= x.deadline;
      hide Sorted;
      InsertSorts(m[1..], e);
      InsertAdds(m[1..], e);
      FromEither(Insert(m[1..], e), m[1..], [e]);
      SortedCons(m[0], Insert(m[1..], e));
    }
  }

  /** Where an entry goes: behind all with an earlier or the same deadline, before all later ones. */
  ghost predicate Placed(m: seq<Entry>, e: Entry, k: nat, r: seq<Entry>) {
    && k <= |m| && r == m[..k] + [e] + m[k..]
    && (forall i :: 0 <= i < k ==> m[i].deadline <= e.deadline)
    && (forall i :: k <= i < |m| ==> m[i].deadline > e.deadline)
  }

  lemma {:induction false} InsertPlaces(m: seq<Entry>, e: Entry) returns (k: nat)
    requires Sorted(m)
    ensures Placed(m, e, k, Insert(m, e))
  {
    if m == [] || e.deadline < m[0].deadline {
      k := 0;
    } else {
      var j := InsertPlaces(m[1..], e);
      k := j + 1;
      assert m == [m[0]] + m[1..];
      PlacedCons(m[0], m[1..], e, j, Insert(m[1..], e));
    }
  }

  lemma PlacedCons(x: Entry, m: seq<Entry>, e: Entry, k: nat, r: seq<Entry>)
    requires Placed(m, e, k, r) && x.deadline <= e.deadline
    ensures Placed([x] + m, e, k + 1, [x] + r)
  {
    assert ([x] + m)[..k + 1] == [x] + m[..k] && ([x] + m)[k + 1..] == m[k..];
  }

  lemma SortedCons(e: Entry, m: seq<Entry>)
    requires Sorted(m) && forall x <- m :: e.deadline <= x.deadline
    ensures Sorted([e] + m)
  {
  }

  /** Every member of a merger comes from one of its parts. */
  lemma FromEither(m: seq<Entry>, x: seq<Entry>, y: seq<Entry>)
    requires multiset(m) == multiset(x) + multiset(y)
    ensures forall e <- m :: e in x || e in y
  {
    forall e | e in m
      ensures e in x || e in y
    {
      assert e in multiset(m);
    }
  }

  lemma SnocMultiset<T>(s: seq<T>)
    requires s != []
    ensures multiset(s) == multiset(s[..|s| - 1]) + multiset{s[|s| - 1]}
  {
    assert s == s[..|s| - 1] + [s[|s| - 1]];
  }

  lemma AssociateMultisets<T>(x: multiset<T>, y: multiset<T>, z: multiset<T>)
    ensures (x + y) + z == x + (y + z)
  {
  }

  lemma {:induction false} InsertAllAdds(m: seq<Entry>, es: seq<Entry>)
    ensures multiset(InsertAll(m, es)) == multiset(m) + multiset(es)
  {
    if es != [] {
      var front, last := es[..|es| - 1], es[|es| - 1];
      assert InsertAll(m, es) == Insert(InsertAll(m, front), last);
      hide Insert, InsertAll;
      InsertAllAdds(m, front);
      InsertAdds(InsertAll(m, front), last);
      SnocMultiset(es);
      AssociateMultisets(multiset(m), multiset(front), multiset{last});
    }
  }

  lemma {:induction false} InsertAllSorts(m: seq<Entry>, es: seq<Entry>)
    requires Sorted(m)
    ensures Sorted(InsertAll(m, es))
  {
    if es != [] {
      InsertAllSorts(m, es[..|es| - 1]);
      InsertSorts(InsertAll(m, es[..|es| - 1]), es[|es| - 1]);
    }
  }

  lemma {:induction false} InsertAllConcat(m: seq<Entry>, xs: seq<Entry>, ys: seq<Entry>)
    ensures InsertAll(m, xs + ys) == InsertAll(InsertAll(m, xs), ys)
  {
    if ys == [] {
      assert xs + ys == xs;
    } else {
      assert (xs + ys)[..|xs + ys| - 1] == xs + ys[..|ys| - 1];
      InsertAllConcat(m, xs, ys[..|ys| - 1]);
    }
  }

  /** The entries counted as due are due, and no other. */
  lemma {:induction false} DueIsPrefix(m: seq<Entry>, now: u64)
    requires Sorted(m)
    ensures var n := DueCount(m, now);
            && (forall i :: 0 <= i < n ==> m[i].deadline <= now)
            && (forall i :: n <= i < |m| ==> m[i].deadline > now)
  {
    if m != [] && m[0].deadline <= now {
      DueIsPrefix(m[1..], now);
      assert forall i :: 0 < i < |m| ==> m[i] == m[1..][i - 1];
    }
  }

  // ---- one flush -------------------------------------------------------------------

  /** Every due task runs exactly once, by deadline, and no other; what is pending afterwards is what
      was not due, and what the tasks that ran asked for. */
  lemma FlushIsExact(m: seq<Entry>, now: u64, outs: seq<Outcome>)
    requires Sorted(m) && DueCount(m, now) <= |outs|
    ensures var f := Flush(m, now, outs);
            && f.ran <= m && |f.ran| <= |outs| && Sorted(f.ran) && Sorted(f.pending)
            && (forall i :: 0 <= i < |m| ==> (m[i].deadline <= now <==> i < |f.ran|))
            && multiset(f.pending) == multiset(m[|f.ran|..]) + multiset(Scheduled(now, f.ran, outs[..|f.ran|]))
  {
    var n := DueCount(m, now);
    var new' := Scheduled(now, m[..n], outs[..n]);
    DueIsPrefix(m, now);
    InsertAllAdds([], new');
    InsertAllAdds(m[n..], InsertAll([], new'));
    InsertAllSorts(m[n..], InsertAll([], new'));
  }

  /** now + wait is the first deadline exactly if that deadline is not already over. */
  lemma WaitIsExact(m: seq<Entry>, now: u64)
    requires Sorted(m) && m != []
    ensures now + Wait(m, now) == m[0].deadline <==> m[0].deadline >= now
    ensures Wait(m, now) == 0 <==> m[0].deadline == now
  {
  }

  /** The clock does not run backwards, delays are at least 1 ms, and no deadline wraps around. */
  ghost predicate Orderly(now: u64, outs: seq<Outcome>) {
    forall o <- outs ::
      && now + o.next < 0x1_0000_0000_0000_0000
      && forall c <- o.calls :: c.clock >= now && c.delay >= 1 && c.clock + c.delay < 0x1_0000_0000_0000_0000
  }

  lemma {:induction false} ScheduledIsLater(now: u64, ran: seq<Entry>, outs: seq<Outcome>)
    requires |ran| == |outs| && Orderly(now, outs)
    ensures forall e <- Scheduled(now, ran, outs) :: e.deadline > now
  {
    if ran != [] {
      var k := |ran| - 1;
      ScheduledIsLater(now, ran[..k], outs[..k]);
      assert outs[k] in outs;
    }
  }

  /** The result means what it says: 0 for no timer left, and otherwise the time to the earliest deadline. */
  ghost predicate Unambiguous(f: Flushed, now: u64) {
    (f.wait == 0 <==> f.pending == []) && (f.pending != [] ==> f.pending[0].deadline == now + f.wait)
  }

  ghost predicate AllLater(m: seq<Entry>, now: u64) {
    forall e <- m :: e.deadline > now
  }

  lemma UnambiguousIffLater(f: Flushed, now: u64)
    requires Sorted(f.pending) && f.wait == Wait(f.pending, now)
    ensures Unambiguous(f, now) <==> AllLater(f.pending, now)
  {
    if f.pending != [] {
      WaitIsExact(f.pending, now);
      assert f.pending[0] in f.pending;
    }
  }

  lemma MergedLater(m: seq<Entry>, x: seq<Entry>, y: seq<Entry>, now: u64)
    requires multiset(m) == multiset(x) + multiset(y) && AllLater(x, now)
    ensures AllLater(m, now) <==> AllLater(y, now)
  {
    FromEither(m, x, y);
    forall e | e in y
      ensures e in m
    {
      assert e in multiset(m);
    }
  }

  /** The result of a flush means what it says exactly if everything the tasks that ran asked for lies
      in the future. */
  lemma FlushIsUnambiguous(m: seq<Entry>, now: u64, outs: seq<Outcome>)
    requires Sorted(m) && DueCount(m, now) <= |outs|
    ensures var f := Flush(m, now, outs);
            Unambiguous(f, now) <==> AllLater(Scheduled(now, f.ran, outs[..|f.ran|]), now)
  {
    var f := Flush(m, now, outs);
    var n := |f.ran|;
    FlushIsExact(m, now, outs);
    assert AllLater(m[n..], now);
    hide Scheduled, InsertAll, AllLater, Unambiguous;
    MergedLater(f.pending, m[n..], Scheduled(now, f.ran, outs[..n]), now);
    UnambiguousIffLater(f, now);
  }

  /** With a monotone clock and delays of at least 1 ms it always does, and no timer is due at once. */
  lemma FlushWaitsForTheNext(m: seq<Entry>, now: u64, outs: seq<Outcome>)
    requires Sorted(m) && DueCount(m, now) <= |outs| && Orderly(now, outs)
    ensures var f := Flush(m, now, outs); Unambiguous(f, now) && AllLater(f.pending, now)
  {
    var f := Flush(m, now, outs);
    FlushIsExact(m, now, outs);
    ScheduledIsLater(now, f.ran, outs[..|f.ran|]);
    FlushIsUnambiguous(m, now, outs);
    UnambiguousIffLater(f, now);
  }

  /** A task that asks to run again without a delay of at least 1 ms makes the answer ambiguous. */
  lemma ZeroDelayIsAmbiguous(now: u64)
    ensures var outs := [Outcome(0, [Call(now, 0, 7)])];
            var f := Flush([Entry(now, 1)], now, outs);
            f.wait == 0 && f.pending == [Entry(now, 7)]
  {
    var m, outs, again := [Entry(now, 1)], [Outcome(0, [Call(now, 0, 7)])], [Entry(now, 7)];
    var none: seq<Entry> := [];
    assert m[1..] == none && m[..1] == m && outs[..1] == outs && m[..0] == none;
    assert Added(now, m[0], outs[0]) == again;
    assert Scheduled(now, m[..0], outs[..0]) == none;
    assert Scheduled(now, m, outs) == none + again == again;
    assert again[..0] == none;
    assert InsertAll(none, again) == Insert(none, Entry(now, 7)) == again;
  }

  // ---- runs ------------------------------------------------------------------------

  datatype Event = DoDelayTask(call: Call) | FlushAt(now: u64, outs: seq<Outcome>)

  /** A task that ran, and what the clock read then. */
  datatype Run = Run(entry: Entry, at: u64)

  datatype History = History(pending: seq<Entry>, scheduled: seq<Entry>, ran: seq<Run>)

  function RunsAt(es: seq<Entry>, now: u64): seq<Run> {
    seq(|es|, i requires 0 <= i < |es| => Run(es[i], now))
  }

  ghost predicate Possible(h: History, e: Event) {
    e.FlushAt? ==> DueCount(h.pending, e.now) <= |e.outs|
  }

  function Step(h: History, e: Event): History
    requires Possible(h, e)
  {
    match e
    case DoDelayTask(c) => History(Insert(h.pending, EntryOf(c)), h.scheduled + [EntryOf(c)], h.ran)
    case FlushAt(now, outs) =>
      var f := Flush(h.pending, now, outs);
      History(f.pending, h.scheduled + Scheduled(now, f.ran, outs[..|f.ran|]), h.ran + RunsAt(f.ran, now))
  }

  function Ran(rs: seq<Run>): multiset<Entry> {
    if rs == [] then multiset{} else Ran(rs[..|rs| - 1]) + multiset{rs[|rs| - 1].entry}
  }

  ghost predicate Reaches(h: History, es: seq<Event>, t: History)
    decreases |es|
  {
    if es == [] then h == t else Possible(h, es[0]) && Reaches(Step(h, es[0]), es[1..], t)
  }

  /** Whatever was scheduled is pending or has run, as often as it was scheduled; nothing ran early. */
  ghost predicate Conserved(h: History) {
    && Sorted(h.pending)
    && multiset(h.scheduled) == multiset(h.pending) + Ran(h.ran)
    && forall r <- h.ran :: r.entry.deadline <= r.at
  }

  lemma {:induction false} RanConcat(x: seq<Run>, y: seq<Run>)
    ensures Ran(x + y) == Ran(x) + Ran(y)
  {
    if y == [] {
      assert x + y == x;
    } else {
      assert (x + y)[..|x + y| - 1] == x + y[..|y| - 1];
      RanConcat(x, y[..|y| - 1]);
    }
  }

  lemma {:induction false} RanOfRuns(es: seq<Entry>, now: u64)
    ensures Ran(RunsAt(es, now)) == multiset(es)
  {
    if es != [] {
      var k := |es| - 1;
      RanOfRuns(es[..k], now);
      assert RunsAt(es, now)[..k] == RunsAt(es[..k], now);
      assert es == es[..k] + [es[k]];
    }
  }

  lemma Balance<T>(scheduled: seq<T>, pending: seq<T>, before: multiset<T>, ran: seq<T>, later: seq<T>, new': seq<T>, pending': seq<T>)
    requires multiset(scheduled) == multiset(pending) + before && pending == ran + later
    requires multiset(pending') == multiset(later) + multiset(new')
    ensures multiset(scheduled + new') == multiset(pending') + (before + multiset(ran))
  {
    assert multiset(pending) == multiset(ran) + multiset(later);
  }

  lemma FlushConserves(h: History, now: u64, outs: seq<Outcome>)
    requires Conserved(h) && DueCount(h.pending, now) <= |outs|
    ensures Conserved(Step(h, FlushAt(now, outs)))
  {
    var f := Flush(h.pending, now, outs);
    FlushIsExact(h.pending, now, outs);
    assert forall e <- f.ran :: e.deadline <= now;
    hide Flush, Scheduled, Sorted, Ran, RunsAt;
    FlushedConserves(h, f, Scheduled(now, f.ran, outs[..|f.ran|]), now);
  }

  lemma FlushedConserves(h: History, f: Flushed, new': seq<Entry>, now: u64)
    requires Conserved(h) && f.ran <= h.pending && Sorted(f.pending) && forall e <- f.ran :: e.deadline <= now
    requires multiset(f.pending) == multiset(h.pending[|f.ran|..]) + multiset(new')
    ensures Conserved(History(f.pending, h.scheduled + new', h.ran + RunsAt(f.ran, now)))
  {
    hide Sorted, Ran, RunsAt;
    var later := h.pending[|f.ran|..];
    assert h.pending == f.ran + later;
    RanConcat(h.ran, RunsAt(f.ran, now));
    RanOfRuns(f.ran, now);
    RunsAreDue(f.ran, now);
    Balance(h.scheduled, h.pending, Ran(h.ran), f.ran, later, new', f.pending);
  }

  lemma RunsAreDue(es: seq<Entry>, now: u64)
    requires forall e <- es :: e.deadline <= now
    ensures forall r <- RunsAt(es, now) :: r.entry.deadline <= r.at
  {
  }

  lemma StepConserves(h: History, e: Event)
    requires Conserved(h) && Possible(h, e)
    ensures Conserved(Step(h, e))
  {
    match e
    case DoDelayTask(c) =>
      hide Insert, Sorted;
      InsertAdds(h.pending, EntryOf(c));
      InsertSorts(h.pending, EntryOf(c));
    case FlushAt(now, outs) => FlushConserves(h, now, outs);
  }

  /** Over any run of the loop. */
  lemma {:induction false} RunsConserve(h: History, es: seq<Event>, t: History)
    requires Conserved(h) && Reaches(h, es, t)
    ensures Conserved(t)
    decreases |es|
  {
    if es != [] {
      StepConserves(h, es[0]);
      RunsConserve(Step(h, es[0]), es[1..], t);
    }
  }

  // ---- the class -------------------------------------------------------------------

  class EventLoop {
    var delayTasks: seq<Entry>
    /** Every task that ran, in order. */
    var ran: seq<Entry>

    constructor ()
      ensures delayTasks == [] && ran == []
    {
      delayTasks, ran := [], [];
    }

    /** doDelayTask on the loop's own thread. */
    method DoDelayTask(c: Call)
      modifies this`delayTasks
      ensures delayTasks == Insert(old(delayTasks), EntryOf(c))
      ensures multiset(delayTasks) == multiset(old(delayTasks)) + multiset{EntryOf(c)}
      ensures old(Sorted(delayTasks)) ==>
                Sorted(delayTasks) && exists k :: Placed(old(delayTasks), EntryOf(c), k, delayTasks)
    {
      InsertAdds(delayTasks, EntryOf(c));
      if Sorted(delayTasks) {
        InsertSorts(delayTasks, EntryOf(c));
        ghost var k := InsertPlaces(delayTasks, EntryOf(c));
      }
      delayTasks := Insert(delayTasks, EntryOf(c));
    }

    /** Runs one task; what it wants to do again is put into the fresh multimap. */
    method RunTask(e: Entry, now: u64, o: Outcome)
      modifies this
      ensures ran == old(ran) + [e] && delayTasks == InsertAll(old(delayTasks), Added(now, e, o))
    {
      hide Insert, Sorted, Placed;
      ran := ran + [e];
      ghost var m, calls := delayTasks, seq(|o.calls|, i requires 0 <= i < |o.calls| => EntryOf(o.calls[i]));
      for i := 0 to |o.calls|
        invariant delayTasks == InsertAll(m, calls[..i]) && ran == old(ran) + [e]
      {
        assert calls[..i + 1][..i] == calls[..i];
        DoDelayTask(o.calls[i]);
      }
      assert calls[..|calls|] == calls;
      if o.next != 0 {
        ghost var again := [Entry(U64(o.next + now), e.task)];
        assert (calls + again)[..|calls|] == calls;
        delayTasks := Insert(delayTasks, Entry(U64(o.next + now), e.task));
      } else {
        assert calls + [] == calls;
      }
    }

    /** Runs the due tasks of the old multimap one after the other; the rest of it is returned. */
    method RunDue(m: seq<Entry>, now: u64, outs: seq<Outcome>) returns (taskCopy: seq<Entry>)
      requires DueCount(m, now) <= |outs| && delayTasks == []
      modifies this
      ensures var n := DueCount(m, now);
              && taskCopy == m[n..] && ran == old(ran) + m[..n]
              && delayTasks == InsertAll([], Scheduled(now, m[..n], outs[..n]))
    {
      hide Insert, Added;
      ghost var before := ran;
      taskCopy := m;
      var k := 0;
      while taskCopy != [] && taskCopy[0].deadline <= now
        invariant k <= |m| && taskCopy == m[k..] && DueCount(m, now) == k + DueCount(taskCopy, now)
        invariant ran == before + m[..k]
        invariant delayTasks == InsertAll([], Scheduled(now, m[..k], outs[..k]))
        decreases |taskCopy|
      {
        RunTask(taskCopy[0], now, outs[k]);
        InsertAllConcat([], Scheduled(now, m[..k], outs[..k]), Added(now, m[k], outs[k]));
        assert m[..k + 1][..k] == m[..k] && outs[..k + 1][..k] == outs[..k];
        assert before + m[..k] + [m[k]] == before + m[..k + 1];
        taskCopy, k := taskCopy[1..], k + 1;
      }
    }

    method FlushDelayTask(now: u64, outs: seq<Outcome>) returns (wait: u64)
      requires DueCount(delayTasks, now) <= |outs|
      modifies this
      ensures old(ran) <= ran
      ensures Flushed(ran[|old(ran)|..], delayTasks, wait) == Flush(old(delayTasks), now, outs)
    {
      hide Insert, Scheduled;
      var m := delayTasks;
      delayTasks := [];
      var taskCopy := RunDue(m, now, outs);
      var added := delayTasks;
      ghost var later := taskCopy;
      for i := 0 to |added|
        invariant taskCopy == InsertAll(later, added[..i])
        modifies {}
      {
        assert added[..i + 1][..i] == added[..i];
        taskCopy := Insert(taskCopy, added[i]);
      }
      assert added[..|added|] == added;
      delayTasks := taskCopy;
      if delayTasks == [] { return 0; }
      return U64(delayTasks[0].deadline - now);
    }

    method GetMinDelay(now: u64, outs: seq<Outcome>) returns (wait: u64)
      requires Sorted(delayTasks) && DueCount(delayTasks, now) <= |outs|
      modifies this
      ensures old(ran) <= ran
      ensures Flushed(ran[|old(ran)|..], delayTasks, wait) == Flush(old(delayTasks), now, outs)
    {
      if delayTasks == [] || delayTasks[0].deadline > now {
        assert delayTasks[..0] == [] && outs[..0] == [] && delayTasks[0..] == delayTasks;
        if delayTasks == [] { return 0; }
        return delayTasks[0].deadline - now;
      }
      wait := FlushDelayTask(now, outs);
    }
  }
}
