/**
 * The kernel's thread queues: circular doubly linked lists through the threads
 * themselves, with the queue as the header of the ring.
 */
module ThreadQueues {

  function Inserted<T>(s: seq<T>, j: nat, x: T): (r: seq<T>)
    requires j <= |s|
    ensures |r| == |s| + 1
  {
    s[..j] + [x] + s[j..]
  }

  function Removed<T>(s: seq<T>, j: nat): (r: seq<T>)
    requires j < |s|
    ensures |r| == |s| - 1
  {
    s[..j] + s[j + 1..]
  }

  lemma InsertedAt<T>(s: seq<T>, j: nat, x: T, i: nat)
    requires j <= |s| && i <= |s|
    ensures Inserted(s, j, x)[i] == if i < j then s[i] else if i == j then x else s[i - 1]
  {
  }

  lemma RemovedAt<T>(s: seq<T>, j: nat, i: nat)
    requires j < |s| && i < |s| - 1
    ensures Removed(s, j)[i] == s[if i < j then i else i + 1]
  {
  }

  /** Behind all entries of the same or a higher priority that lead the queue. */
  function Position(prios: seq<nat>, p: nat): (k: nat)
    ensures k <= |prios|
    ensures forall i | 0 <= i < k :: prios[i] >= p
    ensures k < |prios| ==> prios[k] < p
  {
    if prios == [] || prios[0] < p then 0 else Position(prios[1..], p) + 1
  }

  lemma PositionIs(prios: seq<nat>, p: nat, k: nat)
    requires k <= |prios| && (forall i | 0 <= i < k :: prios[i] >= p) && (k < |prios| ==> prios[k] < p)
    ensures Position(prios, p) == k
  {
  }

  /** A thread, or the header of a queue. */
  class Node {
    var next: Node
    var prev: Node
    var prio: nat

    constructor (p: nat)
      ensures prio == p && next == prev == this
    {
      next, prev, prio := this, this, p;
    }
  }

  /** The ring cut open at the header: it comes first and last. */
  ghost function Path(head: Node, items: seq<Node>): seq<Node> {
    [head] + items + [head]
  }

  ghost predicate Distinct(head: Node, items: seq<Node>) {
    forall i, j | 0 <= i < j <= |items| :: ([head] + items)[i] != ([head] + items)[j]
  }

  /** A node of the path points to the next one, and that one back. */
  ghost predicate Pair(path: seq<Node>, i: nat)
    requires i + 1 < |path|
    reads path
  {
    path[i].next == path[i + 1] && path[i + 1].prev == path[i]
  }

  ghost predicate Linked(path: seq<Node>)
    reads path
  {
    forall i | 0 <= i < |path| - 1 :: Pair(path, i)
  }

  lemma DistinctInserted(head: Node, items: seq<Node>, j: nat, x: Node)
    requires Distinct(head, items) && x != head && x !in items && j <= |items|
    ensures Distinct(head, Inserted(items, j, x))
  {
    var r, r' := [head] + items, [head] + Inserted(items, j, x);
    assert r' == r[..j + 1] + [x] + r[j + 1..];
    assert x !in r;
    forall a, b | 0 <= a < b <= |items| + 1
      ensures r'[a] != r'[b]
    {
      var a', b' := if a <= j then a else a - 1, if b <= j then b else b - 1;
      if a == j + 1 || b == j + 1 {
        assert r'[if a == j + 1 then b else a] in r;
      } else {
        assert r[a'] != r[b'];
      }
    }
  }

  lemma DistinctRemoved(head: Node, items: seq<Node>, j: nat)
    requires Distinct(head, items) && j < |items|
    ensures Distinct(head, Removed(items, j))
  {
    var r, r' := [head] + items, [head] + Removed(items, j);
    forall a, b | 0 <= a < b <= |items| - 1
      ensures r'[a] != r'[b]
    {
      assert r[if a <= j then a else a + 1] != r[if b <= j then b else b + 1];
    }
  }

  ghost function Prios(items: seq<Node>): (ps: seq<nat>)
    reads (set n | n in items)`prio
    ensures |ps| == |items| && forall i | 0 <= i < |items| :: ps[i] == items[i].prio
  {
    if items == [] then [] else Prios(items[..|items| - 1]) + [items[|items| - 1].prio]
  }

  lemma PriosInserted(items: seq<Node>, j: nat, x: Node)
    requires j <= |items|
    ensures Prios(Inserted(items, j, x)) == Inserted(Prios(items), j, x.prio)
  {
    hide Prios, Inserted;
    var s := Inserted(items, j, x);
    var a, c := Prios(s), Inserted(Prios(items), j, x.prio);
    forall i | 0 <= i < |a|
      ensures a[i] == c[i]
    {
      InsertedAt(items, j, x, i);
      InsertedAt(Prios(items), j, x.prio, i);
      assert a[i] == s[i].prio;
    }
  }

  class ThreadQueue {
    const head: Node

    /** The threads in the queue, first to last. */
    ghost var items: seq<Node>

    ghost predicate Valid()
      reads this, head, items
    {
      Distinct(head, items) && Linked(Path(head, items))
    }

    constructor ()
      ensures Valid() && items == [] && fresh(head)
    {
      head := new Node(0);
      items := [];
    }

    method IsEmpty() returns (b: bool)
      requires Valid()
      ensures b <==> items == []
    {
      Places();
      b := head.next == head;
    }

    /** Where the nodes are on the path, and what the header and the nodes beside each place point to. */
    lemma Places()
      requires Valid()
      ensures head.next == (if items == [] then head else items[0])
      ensures head.prev == (if items == [] then head else items[|items| - 1])
      ensures head !in items
    {
      var path := Path(head, items);
      assert Pair(path, 0) && Pair(path, |items|);
      assert forall i | 0 <= i < |items| :: ([head] + items)[i + 1] == items[i];
    }

    /** Nodes at different places of the path differ, the header at its ends apart. */
    lemma Apart(i: nat, j: nat)
      requires Valid() && i < j <= |items| + 1 && (i > 0 || j <= |items|)
      ensures Path(head, items)[i] != Path(head, items)[j]
    {
      var ring := [head] + items;
      if j == |items| + 1 { assert ring[0] != ring[i]; } else { assert ring[i] != ring[j]; }
    }

    /** A thread is linked in before the node at place j of the queue, the header being the last place. */
    method LinkBefore(tp: Node, cp: Node, ghost j: nat)
      requires Valid() && tp != head && tp !in items && j <= |items|
      requires cp == Path(head, items)[j + 1]
      modifies this`items, tp`next, tp`prev, head`next, head`prev, (set n | n in items)`next, (set n | n in items)`prev
      ensures Valid() && items == Inserted(old(items), j, tp)
    {
      ghost var path, n := Path(head, items), |items|;
      Places();
      assert Pair(path, j);
      forall a, b | 0 <= a < b <= n + 1 && (a > 0 || b <= n)
        ensures path[a] != path[b]
      {
        Apart(a, b);
      }
      tp.next := cp;
      tp.prev := cp.prev;
      tp.prev.next := tp;
      cp.prev := tp;
      ghost var path' := path[..j + 1] + [tp] + path[j + 1..];
      forall i | 0 <= i <= n + 1
        ensures Pair(path', i)
      {
        if i < j { assert old(Pair(path, i)); }
        if i > j + 1 { assert old(Pair(path, i - 1)); }
      }
      DistinctInserted(head, items, j, tp);
      items := Inserted(items, j, tp);
      assert Path(head, items) == path';
    }

    /** The thread goes behind all others of its priority or a higher one. */
    method PrioInsert(tp: Node)
      requires Valid() && tp != head && tp !in items
      modifies this`items, tp`next, tp`prev, head`next, head`prev, (set n | n in items)`next, (set n | n in items)`prev
      ensures Valid() && items == old(Inserted(items, Position(Prios(items), tp.prio), tp))
      ensures old(Sorted(Prios(items))) ==> Sorted(Prios(items))
    {
      hide Prios, Position, Sorted;
      Places();
      ghost var i, path, ps := 0, Path(head, items), Prios(items);
      assert Pair(path, 0);
      var cp := head.next;
      while cp != head && cp.prio >= tp.prio
        invariant i <= |items| && cp == path[i + 1] && forall k | 0 <= k < i :: ps[k] >= tp.prio
        decreases |items| - i
      {
        assert Pair(path, i + 1) && cp == items[i];
        cp := cp.next;
        i := i + 1;
      }
      assert i < |items| ==> cp == items[i] && cp != head;
      PositionIs(ps, tp.prio, i);
      InsertKeepsSorted(ps, tp.prio);
      PriosInserted(items, i, tp);
      LinkBefore(tp, cp, i);
    }

    /** The thread goes last, whatever its priority. */
    method Insert(tp: Node)
      requires Valid() && tp != head && tp !in items
      modifies this`items, tp`next, tp`prev, head`next, head`prev, (set n | n in items)`next, (set n | n in items)`prev
      ensures Valid() && items == old(items) + [tp]
    {
      LinkBefore(tp, head, |items|);
    }

    /** The nodes on both sides of the thread at place j are joined. */
    method Join(before: Node, after: Node, ghost j: nat)
      requires Valid() && j < |items|
      requires before == Path(head, items)[j] && after == Path(head, items)[j + 2]
      modifies this`items, head`next, head`prev, (set n | n in items)`next, (set n | n in items)`prev
      ensures Valid() && items == Removed(old(items), j)
    {
      ghost var path, n := Path(head, items), |items|;
      forall a, b | 0 <= a < b <= n + 1 && (a > 0 || b <= n)
        ensures path[a] != path[b]
      {
        Apart(a, b);
      }
      before.next := after;
      after.prev := before;
      ghost var path' := path[..j + 1] + path[j + 2..];
      forall i | 0 <= i < n
        ensures Pair(path', i)
      {
        if i < j { assert old(Pair(path, i)); }
        if i > j { assert old(Pair(path, i + 1)); }
      }
      DistinctRemoved(head, items, j);
      items := Removed(items, j);
      assert Path(head, items) == path';
    }

    method FifoRemove() returns (tp: Node)
      requires Valid() && items != []
      modifies this`items, head`next, head`prev, (set n | n in items)`next, (set n | n in items)`prev
      ensures Valid() && [tp] + items == old(items)
    {
      Places();
      assert Pair(Path(head, items), 1);
      tp := head.next;
      Join(head, tp.next, 0);
    }

    method LifoRemove() returns (tp: Node)
      requires Valid() && items != []
      modifies this`items, head`next, head`prev, (set n | n in items)`next, (set n | n in items)`prev
      ensures Valid() && items + [tp] == old(items)
    {
      Places();
      assert Pair(Path(head, items), |items| - 1);
      tp := head.prev;
      Join(tp.prev, head, |items| - 1);
    }

    /** A thread is taken out from wherever in the queue it is. */
    method Dequeue(tp: Node, ghost j: nat)
      requires Valid() && j < |items| && items[j] == tp
      modifies this`items, head`next, head`prev, (set n | n in items)`next, (set n | n in items)`prev
      ensures Valid() && items == Removed(old(items), j)
    {
      ghost var path := Path(head, items);
      assert Pair(path, j) && Pair(path, j + 1);
      Join(tp.prev, tp.next, j);
    }
  }

  // ---------------------------------------------------------------- priority order

  ghost predicate Sorted(ps: seq<nat>) {
    forall i, j | 0 <= i < j < |ps| :: ps[i] >= ps[j]
  }

  lemma InsertKeepsSorted(ps: seq<nat>, p: nat)
    ensures Sorted(ps) ==> Sorted(Inserted(ps, Position(ps, p), p))
  {
    var k := Position(ps, p);
    assert Sorted(ps) && k < |ps| ==> forall j | k <= j < |ps| :: ps[j] <= ps[k];
  }

  /** A thread's entry: its priority and when it came. */
  datatype Entry = Entry(prio: nat, stamp: nat)

  function PriosOf(q: seq<Entry>): (ps: seq<nat>)
    ensures |ps| == |q| && forall i | 0 <= i < |q| :: ps[i] == q[i].prio
  {
    seq(|q|, i requires 0 <= i < |q| => q[i].prio)
  }

  /** Higher priorities first, and first come, first served among equals. */
  predicate Goes(a: Entry, b: Entry) {
    a.prio > b.prio || (a.prio == b.prio && a.stamp < b.stamp)
  }

  ghost predicate Ordered(q: seq<Entry>) {
    forall i, j | 0 <= i < j < |q| :: Goes(q[i], q[j])
  }

  datatype Operation = Arrive(prio: nat) | TakeFirst | TakeLast | Take(place: nat)

  /** The queue as a sequence, under any mix of priority insertions and removals; now stamps the arrivals. */
  function Served(q: seq<Entry>, now: nat, op: Operation): seq<Entry> {
    match op
    case Arrive(p) => Inserted(q, Position(PriosOf(q), p), Entry(p, now))
    case TakeFirst => if q == [] then q else q[1..]
    case TakeLast => if q == [] then q else q[..|q| - 1]
    case Take(i) => if i < |q| then Removed(q, i) else q
  }

  function AllServed(ops: seq<Operation>): seq<Entry> {
    if ops == [] then [] else Served(AllServed(ops[..|ops| - 1]), |ops| - 1, ops[|ops| - 1])
  }

  lemma ServedKeepsOrder(q: seq<Entry>, now: nat, op: Operation)
    requires Ordered(q) && forall i | 0 <= i < |q| :: q[i].stamp < now
    ensures var r := Served(q, now, op); Ordered(r) && forall i | 0 <= i < |r| :: r[i].stamp <= now
  {
    hide Inserted, Removed, Position, PriosOf;
    match op
    case Arrive(p) =>
      ArrivalKeepsOrder(q, now, p);
      var k, e := Position(PriosOf(q), p), Entry(p, now);
      forall i | 0 <= i <= |q|
        ensures Inserted(q, k, e)[i].stamp <= now
      {
        InsertedAt(q, k, e, i);
      }
    case Take(k) =>
      if k < |q| {
        forall i | 0 <= i < |q| - 1
          ensures Removed(q, k)[i] == q[if i < k then i else i + 1]
        {
          RemovedAt(q, k, i);
        }
      }
    case _ =>
  }

  lemma ArrivalKeepsOrder(q: seq<Entry>, now: nat, p: nat)
    requires Ordered(q) && forall i | 0 <= i < |q| :: q[i].stamp < now
    ensures Ordered(Inserted(q, Position(PriosOf(q), p), Entry(p, now)))
  {
    hide Inserted, PriosOf;
    var k, e := Position(PriosOf(q), p), Entry(p, now);
    var r := Inserted(q, k, e);
    forall a, b | 0 <= a < b < |r|
      ensures Goes(r[a], r[b])
    {
      InsertedAt(q, k, e, a);
      InsertedAt(q, k, e, b);
      if a == k {
        assert PriosOf(q)[k] < p;
        if b - 1 > k { assert Goes(q[k], q[b - 1]); }
      } else if b == k {
        assert PriosOf(q)[a] >= p;
      } else {
        assert Goes(q[if a < k then a else a - 1], q[if b < k then b else b - 1]);
      }
    }
  }

  /**
   * After any operations the queue is in order: the thread served next has the highest
   * priority and has waited longest among its equals.
   */
  lemma {:induction false} AlwaysInOrder(ops: seq<Operation>)
    ensures var q := AllServed(ops); Ordered(q) && forall i | 0 <= i < |q| :: q[i].stamp < |ops|
  {
    if ops == [] {
    } else {
      AlwaysInOrder(ops[..|ops| - 1]);
      ServedKeepsOrder(AllServed(ops[..|ops| - 1]), |ops| - 1, ops[|ops| - 1]);
    }
  }
}
