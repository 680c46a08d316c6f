/** The intrusive circular lists of ikcp.h: the pointer macros refine insertion into, and deletion
    from, a sequence. */
module IQueue {

  /** struct IQUEUEHEAD, used as list head or embedded in an entry, which iqueue_entry finds again. */
  class Link<T> {
    var next: Link?<T>
    var prev: Link?<T>
    var entry: T

    constructor (entry: T)
      ensures next == null && prev == null && this.entry == entry
    {
      next, prev, this.entry := null, null, entry;
    }
  }

  ghost function Succ<T>(ring: seq<Link<T>>, i: nat): Link<T>
    requires i < |ring|
  {
    if i + 1 < |ring| then ring[i + 1] else ring[0]
  }

  ghost function Pred<T>(ring: seq<Link<T>>, i: nat): Link<T>
    requires i < |ring|
  {
    if i > 0 then ring[i - 1] else ring[|ring| - 1]
  }

  ghost predicate Distinct<T>(ring: seq<Link<T>>) {
    forall i, j :: 0 <= i < j < |ring| ==> ring[i] != ring[j]
  }

  ghost predicate Joined<T>(ring: seq<Link<T>>, i: nat)
    requires i < |ring|
    reads ring
  {
    ring[i].next == Succ(ring, i) && ring[i].prev == Pred(ring, i)
  }

  /** `ring` lists a whole circle, head first: each node points at its two neighbours. */
  ghost predicate Ring<T>(ring: seq<Link<T>>)
    reads ring
  {
    ring != [] && Distinct(ring) && forall i :: 0 <= i < |ring| ==> Joined(ring, i)
  }

  /** IQUEUE_INIT. */
  method Init<T>(head: Link<T>)
    modifies head
    ensures Ring([head]) && head.entry == old(head.entry)
  {
    head.next := head;
    head.prev := head;
  }

  /** IQUEUE_ADD: node goes right behind `at`, which may be the head or any member. */
  method Add<T>(node: Link<T>, at: Link<T>, ghost ring: seq<Link<T>>, ghost k: nat)
    requires Ring(ring) && k < |ring| && ring[k] == at && node !in ring
    modifies node, ring
    ensures Ring(ring[..k + 1] + [node] + ring[k + 1..])
    ensures node.entry == old(node.entry) && forall x <- ring :: x.entry == old(x.entry)
  {
    assert Joined(ring, k) && Succ(ring, k) in ring;
    assert forall i :: 0 <= i < |ring| ==> old(Joined(ring, i));
    node.prev := at;
    node.next := at.next;
    at.next.prev := node;
    at.next := node;
    ghost var r := ring[..k + 1] + [node] + ring[k + 1..];
    forall i | 0 <= i < |r|
      ensures Joined(r, i)
    {
      var j := if i <= k then i else i - 1;
      assert old(Joined(ring, j));
    }
    assert Distinct(r);
  }

  /** IQUEUE_ADD_TAIL: node goes right before the head, that is, to the end of the list. */
  method AddTail<T>(node: Link<T>, head: Link<T>, ghost ring: seq<Link<T>>)
    requires Ring(ring) && ring[0] == head && node !in ring
    modifies node, ring
    ensures Ring(ring + [node])
    ensures node.entry == old(node.entry) && forall x <- ring :: x.entry == old(x.entry)
  {
    assert Joined(ring, 0) && Pred(ring, 0) in ring;
    assert forall i :: 0 <= i < |ring| ==> old(Joined(ring, i));
    node.prev := head.prev;
    node.next := head;
    head.prev.next := node;
    head.prev := node;
    ghost var r := ring + [node];
    forall i | 0 <= i < |r|
      ensures Joined(r, i)
    {
      assert i < |ring| ==> old(Joined(ring, i));
    }
  }

  /** IQUEUE_DEL: the member at k leaves the list and is unlinked. */
  method Delete<T>(entry: Link<T>, ghost ring: seq<Link<T>>, ghost k: nat)
    requires Ring(ring) && 0 < k < |ring| && ring[k] == entry
    modifies ring
    ensures Ring(ring[..k] + ring[k + 1..])
    ensures forall x <- ring :: x.entry == old(x.entry)
    ensures entry.next == null && entry.prev == null && entry !in ring[..k] + ring[k + 1..]
  {
    assert Joined(ring, k) && Succ(ring, k) in ring && Pred(ring, k) in ring;
    assert forall i :: 0 <= i < |ring| ==> old(Joined(ring, i));
    entry.next.prev := entry.prev;
    entry.prev.next := entry.next;
    entry.next := null;
    entry.prev := null;
    ghost var r := ring[..k] + ring[k + 1..];
    forall i | 0 <= i < |r|
      ensures Joined(r, i)
    {
      var j := if i < k then i else i + 1;
      assert old(Joined(ring, j));
    }
  }

  /** IQUEUE_IS_EMPTY: the head points at itself exactly when nothing else is in the list. */
  method IsEmpty<T>(head: Link<T>, ghost ring: seq<Link<T>>) returns (empty: bool)
    requires Ring(ring) && ring[0] == head
    ensures empty <==> ring[1..] == []
  {
    assert Joined(ring, 0);
    empty := head == head.next;
    assert |ring| > 1 ==> ring[0] != ring[1];
  }

  /** Following next from the head visits the list in order and comes back after |ring| steps. */
  method Length<T>(head: Link<T>, ghost ring: seq<Link<T>>) returns (n: nat)
    requires Ring(ring) && ring[0] == head
    ensures n == |ring| - 1
  {
    n := 0;
    assert Joined(ring, 0);
    var p := head.next;
    while p != head
      invariant n < |ring| && p == (if n + 1 < |ring| then ring[n + 1] else head)
      decreases |ring| - n
    {
      assert Joined(ring, n + 1);
      p := p.next;
      n := n + 1;
    }
  }
}
