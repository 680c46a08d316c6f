/** The segment lists of ikcp.c on real nodes: snd_buf, rcv_buf and rcv_queue as circles of links, and the
    loops that search, delete, insert and move their entries, each equal to the sequence function of KcpModel. */
module SegmentLists {
  import opened Serial
  import opened Sequences
  import opened IQueue
  import M = KcpModel

  type Node = Link<M.Seg>

  /** The entries of a circle, head excluded, in order. */
  ghost function Entries(ring: seq<Node>): (s: seq<M.Seg>)
    requires ring != []
    reads ring
    ensures |s| == |ring| - 1 && forall i :: 0 <= i < |s| ==> s[i] == ring[i + 1].entry
  {
    seq(|ring| - 1, i requires 0 <= i < |ring| - 1 reads ring => ring[i + 1].entry)
  }

  // ---- the scans, one entry at a time ----------------------------------------------

  lemma BelowStep(q: seq<M.Seg>, una: u32)
    ensures if q != [] && Diff(una, q[0].sn) > 0 then M.DropBelow(q, una) == M.DropBelow(q[1..], una)
            else M.DropBelow(q, una) == q
  {
  }

  lemma MoveStep(wnd: u32, r: M.Rx)
    ensures M.MoveReady(wnd, r) == if M.CanMove(wnd, r) then M.MoveReady(wnd, M.MoveOne(r)) else r
  {
  }

  lemma AdmitStep(c: M.Pass, x: M.Tx, limit: u32)
    ensures M.Admit(c, x, limit) == if M.CanAdmit(x, limit) then M.Admit(c, M.AdmitOne(c, x), limit) else x
  {
  }

  /** What ikcp_parse_ack makes of the list once it has passed k entries. */
  function AckedFrom(q: seq<M.Seg>, k: nat, sn: u32): seq<M.Seg>
    requires k <= |q|
  {
    q[..k] + M.DropAcked(q[k..], sn)
  }

  lemma AckedStarts(q: seq<M.Seg>, sn: u32)
    ensures AckedFrom(q, 0, sn) == M.DropAcked(q, sn) && AckedFrom(q, |q|, sn) == q
  {
    assert q[0..] == q;
  }

  lemma AckedStep(q: seq<M.Seg>, k: nat, sn: u32)
    requires k < |q|
    ensures if sn == q[k].sn then AckedFrom(q, k, sn) == q[..k] + q[k + 1..]
            else if Diff(sn, q[k].sn) < 0 then AckedFrom(q, k, sn) == q
            else AckedFrom(q, k, sn) == AckedFrom(q, k + 1, sn)
  {
    assert q[k..][1..] == q[k + 1..] && q[..k + 1] == q[..k] + [q[k]];
    Associate(q[..k], [q[k]], M.DropAcked(q[k + 1..], sn));
    assert q[..k] + q[k..] == q;
  }

  function Marked(g: M.Seg, sn: u32, ts: u32): M.Seg {
    if sn != g.sn && Diff(ts, g.ts) >= 0 then g.(fastack := Serial.Add(g.fastack, 1)) else g
  }

  /** ikcp_parse_fastack has passed k entries of q and left `cur`. */
  ghost predicate MarkedTo(cur: seq<M.Seg>, q: seq<M.Seg>, k: nat, sn: u32, ts: u32) {
    && k <= |q| == |cur| && cur[k..] == q[k..]
    && M.MarkSkipped(q, sn, ts) == cur[..k] + M.MarkSkipped(cur[k..], sn, ts)
  }

  lemma MarkedStarts(q: seq<M.Seg>, sn: u32, ts: u32)
    ensures MarkedTo(q, q, 0, sn, ts)
  {
    assert q[0..] == q;
  }

  lemma MarkedEnds(cur: seq<M.Seg>, q: seq<M.Seg>, k: nat, sn: u32, ts: u32)
    requires MarkedTo(cur, q, k, sn, ts) && (k == |q| || Diff(sn, cur[k].sn) < 0)
    ensures cur == M.MarkSkipped(q, sn, ts)
  {
    assert cur[..k] + cur[k..] == cur;
  }

  lemma MarkedStep(cur: seq<M.Seg>, q: seq<M.Seg>, k: nat, sn: u32, ts: u32)
    requires MarkedTo(cur, q, k, sn, ts) && k < |q| && Diff(sn, cur[k].sn) >= 0
    ensures MarkedTo(cur[k := Marked(cur[k], sn, ts)], q, k + 1, sn, ts)
  {
    var next := cur[k := Marked(cur[k], sn, ts)];
    assert cur[k..][1..] == cur[k + 1..] == next[k + 1..] && q[k..][1..] == q[k + 1..];
    assert next[..k + 1] == cur[..k] + [next[k]];
    Associate(cur[..k], [next[k]], M.MarkSkipped(cur[k + 1..], sn, ts));
  }

  /** What ikcp_parse_data makes of the list once it has come back to k entries. */
  function PlacedFrom(q: seq<M.Seg>, k: nat, g: M.Seg): seq<M.Seg>
    requires k <= |q|
  {
    M.InsertBack(q[..k], g) + q[k..]
  }

  lemma PlacedStarts(q: seq<M.Seg>, g: M.Seg)
    ensures PlacedFrom(q, |q|, g) == M.InsertBack(q, g) && PlacedFrom(q, 0, g) == q[..0] + [g] + q[0..]
  {
    assert q[..|q|] == q && q[..0] == [] && q[0..] == q;
  }

  lemma PlacedStep(q: seq<M.Seg>, k: nat, g: M.Seg)
    requires 0 < k <= |q|
    ensures if q[k - 1].sn == g.sn then PlacedFrom(q, k, g) == q
            else if Diff(g.sn, q[k - 1].sn) > 0 then PlacedFrom(q, k, g) == q[..k] + [g] + q[k..]
            else PlacedFrom(q, k, g) == PlacedFrom(q, k - 1, g)
  {
    assert q[..k] + q[k..] == q;
    assert q[..k][..k - 1] == q[..k - 1] && q[k - 1..] == [q[k - 1]] + q[k..];
    Associate(M.InsertBack(q[..k - 1], g), [q[k - 1]], q[k..]);
  }

  /** One list: its head, and the circle it stands for. */
  class SegQueue {
    const head: Node
    ghost var ring: seq<Node>

    ghost predicate Valid()
      reads this, ring
    {
      ring != [] && ring[0] == head && Ring(ring)
    }

    ghost function Contents(): (s: seq<M.Seg>)
      requires Valid()
      reads this, ring
    {
      Entries(ring)
    }

    constructor ()
      ensures Valid() && fresh(ring) && Contents() == []
    {
      head := new Link(M.NewSeg(0, []));
      new;
      Init(head);
      ring := [head];
    }

    /** p is the entry at k, or the head if k is past the end. */
    ghost predicate At(p: Node, k: nat)
      requires Valid()
      reads this, ring
    {
      && k <= |ring| && (p == head <==> k == 0 || k == |ring|)
      && (0 < k < |ring| ==> p == ring[k] && p.entry == Contents()[k - 1])
    }

    method First() returns (n: Node)
      requires Valid()
      ensures At(n, 1)
    {
      assert Joined(ring, 0);
      n := head.next;
      assert |ring| > 1 ==> ring[0] != ring[1];
    }

    method Last() returns (n: Node)
      requires Valid()
      ensures At(n, |ring| - 1)
    {
      assert Joined(ring, 0);
      n := head.prev;
      assert |ring| > 1 ==> ring[0] != ring[|ring| - 1];
    }

    method After(p: Node, ghost k: nat) returns (n: Node)
      requires Valid() && At(p, k) && 0 < k < |ring|
      ensures At(n, k + 1)
    {
      assert Joined(ring, k);
      n := p.next;
      assert k + 1 < |ring| ==> ring[0] != ring[k + 1];
    }

    method Before(p: Node, ghost k: nat) returns (n: Node)
      requires Valid() && At(p, k) && 0 < k < |ring|
      ensures At(n, k - 1)
    {
      assert Joined(ring, k);
      n := p.prev;
      assert k > 1 ==> ring[0] != ring[k - 1];
    }

    /** iqueue_del of the entry at k. */
    method Remove(p: Node, ghost k: nat)
      requires Valid() && 0 < k < |ring| && ring[k] == p
      modifies this, ring
      ensures Valid() && ring == old(ring[..k] + ring[k + 1..]) && p !in ring && p.entry == old(p.entry)
      ensures Contents() == old(Contents()[..k - 1] + Contents()[k..])
    {
      ghost var (q, all) := (Contents(), ring);
      Delete(p, ring, k);
      ring := ring[..k] + ring[k + 1..];
      assert ring[0] == all[0];
      hide Ring;
      forall i | 1 <= i < |ring|
        ensures ring[i].entry == (q[..k - 1] + q[k..])[i - 1]
      {
        assert all[if i < k then i else i + 1] in all;
      }
    }

    /** iqueue_add of a node behind the one at k. */
    method PutBehind(node: Node, at: Node, ghost k: nat)
      requires Valid() && k < |ring| && ring[k] == at && node !in ring
      modifies this, ring, node
      ensures Valid() && ring == old(ring[..k + 1] + [node] + ring[k + 1..])
      ensures Contents() == old(Contents()[..k] + [node.entry] + Contents()[k..])
    {
      ghost var (q, all) := (Contents(), ring);
      IQueue.Add(node, at, ring, k);
      ring := ring[..k + 1] + [node] + ring[k + 1..];
      assert ring[0] == all[0];
      hide Ring;
      forall i | 1 <= i < |ring|
        ensures ring[i].entry == (q[..k] + [node.entry] + q[k..])[i - 1]
      {
        assert i != k + 1 ==> all[if i <= k then i else i - 1] in all;
      }
    }

    /** iqueue_add_tail. */
    method PutLast(node: Node)
      requires Valid() && node !in ring
      modifies this, ring, node
      ensures Valid() && ring == old(ring + [node]) && Contents() == old(Contents() + [node.entry])
    {
      ghost var (q, all) := (Contents(), ring);
      AddTail(node, head, ring);
      ring := ring + [node];
      assert ring[0] == all[0];
      hide Ring;
      forall i | 1 <= i < |ring|
        ensures ring[i].entry == (q + [node.entry])[i - 1]
      {
        assert i < |all| ==> all[i] in all;
      }
    }

    method SetEntry(p: Node, g: M.Seg, ghost k: nat)
      requires Valid() && 0 < k < |ring| && ring[k] == p
      modifies p`entry
      ensures Valid() && Contents() == old(Contents())[k - 1 := g]
    {
      ghost var q := Contents();
      p.entry := g;
      forall i | 0 <= i < |ring|
        ensures Joined(ring, i)
      {
        assert old(Joined(ring, i));
      }
      assert forall i :: 0 <= i < |ring| && i != k ==> ring[i] != p;
    }

    /** next = p->next, then iqueue_del. */
    method RemoveFirst(p: Node) returns (next: Node)
      requires Valid() && At(p, 1) && p != head
      modifies this, ring
      ensures Valid() && p !in ring && p in old(ring) && p.entry == old(p.entry) == old(Contents())[0]
      ensures |ring| == |old(ring)| - 1 && forall i :: 0 <= i < |ring| ==> ring[i] in old(ring)
      ensures Contents() == old(Contents())[1..] && At(next, 1)
    {
      hide Ring;
      ghost var q := Contents();
      next := After(p, 1);
      Remove(p, 1);
      assert q[..0] + q[1..] == q[1..];
    }

    /** The scan of ikcp_parse_una: deletes from the front while `una` is beyond the entry. */
    method DropBelow(una: u32) returns (dropped: nat)
      requires Valid()
      modifies this, ring
      ensures Valid() && (forall i :: 0 <= i < |ring| ==> ring[i] in old(ring))
      ensures Contents() == M.DropBelow(old(Contents()), una) && dropped == |old(Contents())| - |Contents()|
    {
      hide Ring, M.DropBelow;
      dropped := 0;
      var p := First();
      while p != head
        invariant Valid() && At(p, 1) && (forall i :: 0 <= i < |ring| ==> ring[i] in old(ring))
        invariant M.DropBelow(Contents(), una) == M.DropBelow(old(Contents()), una)
        invariant dropped == |old(Contents())| - |Contents()|
        decreases |ring|
      {
        BelowStep(Contents(), una);
        if Diff(una, p.entry.sn) <= 0 { return; }
        p := RemoveFirst(p);
        dropped := dropped + 1;
      }
      BelowStep(Contents(), una);
    }

    /** The search of ikcp_parse_ack: the entry numbered sn, or the head. */
    method FindAcked(sn: u32) returns (p: Node, ghost k: nat)
      requires Valid()
      ensures p == head ==> M.DropAcked(Contents(), sn) == Contents()
      ensures p != head ==> 0 < k < |ring| && p == ring[k]
                            && M.DropAcked(Contents(), sn) == Contents()[..k - 1] + Contents()[k..]
    {
      hide M.DropAcked, AckedFrom, Ring;
      ghost var q := Contents();
      k := 1;
      p := First();
      AckedStarts(q, sn);
      while p != head
        invariant k > 0 && At(p, k) && M.DropAcked(q, sn) == AckedFrom(q, k - 1, sn)
        decreases |ring| - k
      {
        AckedStep(q, k - 1, sn);
        if sn == p.entry.sn { return; }
        if Diff(sn, p.entry.sn) < 0 { return head, k; }
        p := After(p, k);
        k := k + 1;
      }
    }

    /** ikcp_parse_ack on the list: deletes the entry numbered sn, if it is found. */
    method DropAcked(sn: u32) returns (dropped: nat)
      requires Valid()
      modifies this, ring
      ensures Valid() && (forall i :: 0 <= i < |ring| ==> ring[i] in old(ring))
      ensures Contents() == M.DropAcked(old(Contents()), sn) && dropped == |old(Contents())| - |Contents()|
    {
      hide M.DropAcked, Ring;
      var p, k := FindAcked(sn);
      if p == head { return 0; }
      Remove(p, k);
      return 1;
    }

    /** The scan of ikcp_parse_fastack: counts a skip in every entry below sn, in place. */
    method MarkSkipped(sn: u32, ts: u32)
      requires Valid()
      modifies ring
      ensures Valid() && Contents() == M.MarkSkipped(old(Contents()), sn, ts)
    {
      hide M.MarkSkipped, MarkedTo, Ring;
      ghost var q := Contents();
      var p := First();
      ghost var k := 1;
      MarkedStarts(q, sn, ts);
      while p != head
        invariant Valid() && k > 0 && At(p, k) && |Contents()| == |q| && MarkedTo(Contents(), q, k - 1, sn, ts)
        decreases |ring| - k
      {
        if Diff(sn, p.entry.sn) < 0 {
          MarkedEnds(Contents(), q, k - 1, sn, ts);
          return;
        }
        MarkedStep(Contents(), q, k - 1, sn, ts);
        SetEntry(p, Marked(p.entry, sn, ts), k);
        p := After(p, k);
        k := k + 1;
      }
      MarkedEnds(Contents(), q, k - 1, sn, ts);
    }

    /** The search of ikcp_parse_data, from the back: the entry behind which the segment belongs. */
    method FindPlace(g: M.Seg) returns (repeated: bool, p: Node, ghost k: nat)
      requires Valid()
      ensures k < |ring| && p == ring[k]
      ensures M.InsertBack(Contents(), g) == if repeated then Contents() else Contents()[..k] + [g] + Contents()[k..]
    {
      hide M.InsertBack, PlacedFrom, Ring;
      ghost var q := Contents();
      repeated, k := false, |ring| - 1;
      p := Last();
      PlacedStarts(q, g);
      while p != head
        invariant k < |ring| && At(p, k) && M.InsertBack(q, g) == PlacedFrom(q, k, g)
        decreases k
      {
        PlacedStep(q, k, g);
        if p.entry.sn == g.sn { return true, p, k; }
        if Diff(g.sn, p.entry.sn) > 0 { return; }
        p := Before(p, k);
        k := k - 1;
      }
    }

    /** A new node goes in at its place unless its number is there already. */
    method InsertBack(g: M.Seg) returns (repeated: bool)
      requires Valid()
      modifies this, ring
      ensures Valid() && (forall i :: 0 <= i < |ring| ==> ring[i] in old(ring) || fresh(ring[i]))
      ensures Contents() == M.InsertBack(old(Contents()), g)
      ensures |Contents()| == |old(Contents())| + (if repeated then 0 else 1)
    {
      hide M.InsertBack, Ring;
      var p;
      ghost var k;
      repeated, p, k := FindPlace(g);
      if repeated { return; }
      var node := new Link(g);
      PutBehind(node, p, k);
    }

    /** iqueue_del of the first entry, and iqueue_add_tail to another list. */
    method MoveFirst(to: SegQueue)
      requires Valid() && to.Valid() && Contents() != [] && Apart(this, to)
      modifies this, ring, to, to.ring
      ensures Valid() && to.Valid() && Apart(this, to)
      ensures (forall i :: 0 <= i < |ring| ==> ring[i] in old(ring))
      ensures (forall i :: 0 <= i < |to.ring| ==> to.ring[i] in old(to.ring) || to.ring[i] in old(ring))
      ensures Contents() == old(Contents())[1..] && to.Contents() == old(to.Contents()) + [old(Contents())[0]]
    {
      hide Ring;
      var p := First();
      var next := RemoveFirst(p);
      to.PutLast(p);
    }
  }

  /** Two lists that share no node. */
  ghost predicate Apart(x: SegQueue, y: SegQueue)
    reads x, y
  {
    x != y && forall i, j :: 0 <= i < |x.ring| && 0 <= j < |y.ring| ==> x.ring[i] != y.ring[j]
  }

  // ---- the lists of one endpoint ---------------------------------------------------

  /** rcv_buf and rcv_queue, with their counters and rcv_nxt. */
  class RxLists {
    const buf: SegQueue
    const queue: SegQueue
    var nxt: u32
    var nque: int
    var nbuf: int

    ghost predicate Valid()
      reads this, buf, buf.ring, queue, queue.ring
    {
      buf.Valid() && queue.Valid() && Apart(buf, queue)
    }

    ghost function View(): M.Rx
      requires Valid()
      reads this, buf, buf.ring, queue, queue.ring
    {
      M.Rx(nxt, queue.Contents(), buf.Contents(), nque, nbuf)
    }

    constructor ()
      ensures Valid() && View() == M.Rx(0, [], [], 0, 0)
    {
      var b := new SegQueue();
      var q := new SegQueue();
      buf, queue, nxt, nque, nbuf := b, q, 0, 0, 0;
    }

    /** The loop that moves available data from rcv_buf to rcv_queue, node by node. */
    method MoveReady(wnd: u32)
      requires Valid()
      modifies this, buf, buf.ring, queue, queue.ring
      ensures Valid() && View() == M.MoveReady(wnd, old(View()))
    {
      hide Ring, Apart, M.MoveReady, M.MoveOne, M.CanMove;
      var ready := CanMove(wnd);
      while ready
        invariant Valid() && ready == M.CanMove(wnd, View()) && (ready ==> buf.Contents() != [])
        invariant forall i :: 0 <= i < |buf.ring| ==> buf.ring[i] in old(buf.ring)
        invariant forall i :: 0 <= i < |queue.ring| ==> queue.ring[i] in old(queue.ring) || queue.ring[i] in old(buf.ring)
        invariant M.MoveReady(wnd, View()) == M.MoveReady(wnd, old(View()))
        decreases |buf.ring|
      {
        MoveStep(wnd, View());
        MoveOne();
        ready := CanMove(wnd);
      }
      MoveStep(wnd, View());
    }

    /** One segment goes from rcv_buf to the end of rcv_queue. */
    method MoveOne()
      requires Valid() && buf.Contents() != []
      modifies this, buf, buf.ring, queue, queue.ring
      ensures Valid() && View() == M.MoveOne(old(View())) && |buf.ring| < |old(buf.ring)|
      ensures forall i :: 0 <= i < |buf.ring| ==> buf.ring[i] in old(buf.ring)
      ensures forall i :: 0 <= i < |queue.ring| ==> queue.ring[i] in old(queue.ring) || queue.ring[i] in old(buf.ring)
    {
      hide Ring;
      buf.MoveFirst(queue);
      nxt, nque, nbuf := Serial.Add(nxt, 1), nque + 1, nbuf - 1;
    }

    method CanMove(wnd: u32) returns (ready: bool)
      requires Valid()
      ensures ready == M.CanMove(wnd, View()) && (ready ==> buf.Contents() != [])
    {
      var p := buf.First();
      ready := p != buf.head && p.entry.sn == nxt && nque < wnd;
    }

    /** ikcp_parse_data. */
    method ParseData(wnd: u32, newseg: M.Seg)
      requires Valid()
      modifies this, buf, buf.ring, queue, queue.ring
      ensures Valid() && View() == M.ParseData(wnd, old(View()), newseg)
    {
      hide Ring, M.InsertBack, M.MoveReady;
      var sn := newseg.sn;
      if Diff(sn, Serial.Add(nxt, wnd)) >= 0 || Diff(sn, nxt) < 0 { return; }
      var repeated := buf.InsertBack(newseg);
      if !repeated { nbuf := nbuf + 1; }
      MoveReady(wnd);
    }
  }

  /** snd_buf and snd_queue, with their counters, snd_una and snd_nxt. */
  class TxLists {
    const buf: SegQueue
    const queue: SegQueue
    var una: u32
    var nxt: u32
    var nque: int
    var nbuf: int

    ghost predicate Valid()
      reads this, buf, buf.ring, queue, queue.ring
    {
      buf.Valid() && queue.Valid() && Apart(buf, queue)
    }

    ghost function View(): M.Tx
      requires Valid()
      reads this, buf, buf.ring, queue, queue.ring
    {
      M.Tx(una, nxt, queue.Contents(), buf.Contents(), nque, nbuf)
    }

    constructor ()
      ensures Valid() && View() == M.Tx(0, 0, [], [], 0, 0)
    {
      var b := new SegQueue();
      var q := new SegQueue();
      buf, queue, una, nxt, nque, nbuf := b, q, 0, 0, 0, 0;
    }

    /** ikcp_shrink_buf. */
    method Shrink()
      requires Valid()
      modifies this`una
      ensures Valid() && View() == M.Shrink(old(View()))
    {
      var p := buf.First();
      una := if p != buf.head then p.entry.sn else nxt;
    }

    /** ikcp_parse_una. */
    method ParseUna(una: u32)
      requires Valid()
      modifies this`nbuf, buf, buf.ring
      ensures Valid() && View() == M.ParseUna(old(View()), una)
    {
      var dropped := buf.DropBelow(una);
      nbuf := nbuf - dropped;
    }

    /** ikcp_parse_ack. */
    method ParseAck(sn: u32)
      requires Valid()
      modifies this`nbuf, buf, buf.ring
      ensures Valid() && View() == M.ParseAck(old(View()), sn)
    {
      if Diff(sn, una) < 0 || Diff(sn, nxt) >= 0 { return; }
      var dropped := buf.DropAcked(sn);
      nbuf := nbuf - dropped;
    }

    /** ikcp_parse_fastack. */
    method ParseFastack(sn: u32, ts: u32)
      requires Valid()
      modifies buf.ring
      ensures Valid() && View() == M.ParseFastack(old(View()), sn, ts)
    {
      if Diff(sn, una) < 0 || Diff(sn, nxt) >= 0 { return; }
      buf.MarkSkipped(sn, ts);
    }

    /** The loop of ikcp_flush that moves data from snd_queue to snd_buf, and stamps it there. */
    method Admit(limit: u32, c: M.Pass)
      requires Valid()
      modifies this, buf, buf.ring, queue, queue.ring
      ensures Valid() && View() == M.Admit(c, old(View()), limit)
    {
      hide Ring, Apart, M.Admit, M.AdmitOne, M.CanAdmit;
      var more := CanAdmit(limit);
      while more
        invariant Valid() && more == M.CanAdmit(View(), limit) && (more ==> queue.Contents() != [])
        invariant forall i :: 0 <= i < |queue.ring| ==> queue.ring[i] in old(queue.ring)
        invariant forall i :: 0 <= i < |buf.ring| ==> buf.ring[i] in old(buf.ring) || buf.ring[i] in old(queue.ring)
        invariant M.Admit(c, View(), limit) == M.Admit(c, old(View()), limit)
        decreases |queue.ring|
      {
        AdmitStep(c, View(), limit);
        AdmitOne(c);
        more := CanAdmit(limit);
      }
      AdmitStep(c, View(), limit);
    }

    method CanAdmit(limit: u32) returns (more: bool)
      requires Valid()
      ensures more == M.CanAdmit(View(), limit) && (more ==> queue.Contents() != [])
    {
      more := false;
      if Diff(nxt, Serial.Add(una, limit)) < 0 {
        var p := queue.First();
        more := p != queue.head;
      }
    }

    method MoveNext()
      requires Valid() && queue.Contents() != []
      modifies buf, buf.ring, queue, queue.ring
      ensures Valid() && |queue.ring| < |old(queue.ring)|
      ensures queue.Contents() == old(queue.Contents())[1..]
      ensures buf.Contents() == old(buf.Contents()) + [old(queue.Contents())[0]]
      ensures forall i :: 0 <= i < |queue.ring| ==> queue.ring[i] in old(queue.ring)
      ensures forall i :: 0 <= i < |buf.ring| ==> buf.ring[i] in old(buf.ring) || buf.ring[i] in old(queue.ring)
    {
      hide Ring;
      queue.MoveFirst(buf);
    }

    /** The segment just moved gets its number and its stamps, in place. */
    method StampLast(c: M.Pass)
      requires Valid() && buf.Contents() != []
      modifies buf.ring
      ensures Valid() && queue.Contents() == old(queue.Contents())
      ensures var q := old(buf.Contents()); buf.Contents() == q[..|q| - 1] + [M.Numbered(c, nxt, q[|q| - 1])]
    {
      hide Ring, M.Numbered;
      ghost var q := buf.Contents();
      var p := buf.Last();
      buf.SetEntry(p, M.Numbered(c, nxt, p.entry), |buf.ring| - 1);
      assert q[|q| - 1 := M.Numbered(c, nxt, q[|q| - 1])] == q[..|q| - 1] + [M.Numbered(c, nxt, q[|q| - 1])];
    }

    /** One segment goes from snd_queue to the end of snd_buf. */
    method AdmitOne(c: M.Pass)
      requires Valid() && queue.Contents() != []
      modifies this, buf, buf.ring, queue, queue.ring
      ensures Valid() && View() == M.AdmitOne(c, old(View())) && |queue.ring| < |old(queue.ring)|
      ensures forall i :: 0 <= i < |queue.ring| ==> queue.ring[i] in old(queue.ring)
      ensures forall i :: 0 <= i < |buf.ring| ==> buf.ring[i] in old(buf.ring) || buf.ring[i] in old(queue.ring)
    {
      hide Ring, Apart, M.Numbered;
      ghost var (r, q) := (buf.Contents(), queue.Contents());
      MoveNext();
      StampLast(c);
      assert (r + [q[0]])[..|r|] == r;
      nxt, nque, nbuf := Serial.Add(nxt, 1), nque - 1, nbuf + 1;
    }
  }
}
