/** The holder of a ring of wait operations. */
module Holders {
  import opened Ledgers
  import opened Rings

  /** How a blocking call leaves its critical section: with what it asked for, with an error, or as an
      operation on the ring that has to be waited for. */
  datatype Outcome = Acquired | Busy | Blocked(op: Node)

  /** One more operation, numbered `id`, waits behind those who did. */
  ghost predicate Joined(v: seq<Node>, w: seq<Node>, id: nat) {
    |w| == |v| + 1 && w[..|v|] == v && w[|v|].id == id
  }

  ghost predicate Numbered(s: seq<Node>) {
    forall i, j {:trigger s[i].id, s[j].id} :: 0 <= i < j < |s| ==> s[i].id != s[j].id
  }

  ghost predicate AllBelow(s: seq<Node>, n: nat) {
    forall i {:trigger s[i].id} :: 0 <= i < |s| ==> s[i].id < n
  }

  ghost predicate AllEnded(s: seq<Node>, ec: Ec)
    reads s
  {
    forall i {:trigger s[i].wait} :: 0 <= i < |s| ==> s[i].wait == Ended(ec)
  }

  lemma LeavesNumbers(s: seq<Node>, k: nat)
    requires k < |s|
    ensures Numbered(s) ==> Numbered(Without(s, k))
    ensures forall n: nat :: AllBelow(s, n) ==> AllBelow(Without(s, k), n)
  {
    var t := Without(s, k);
    assert forall i {:trigger t[i].id} :: 0 <= i < |t| ==> t[i] == s[if i < k then i else i + 1];
  }

  lemma LeavesSerials(s: seq<Node>, k: nat)
    requires k < |s|
    ensures Serials(Without(s, k)) == Without(Serials(s), k)
  {
  }

  /** What is left of a queue when the operation at `k` leaves it. */
  lemma Leaves(s: seq<Node>, k: nat)
    requires k < |s| && Numbered(s)
    ensures var t := Without(s, k);
            && Numbered(t) && Serials(t) == Without(Serials(s), k)
            && (k == 0 ==> t == s[1..] && Serials(t) == Serials(s)[1..]) && (k == |s| - 1 ==> t == s[..k])
    ensures s[k].id in Serials(s) && IndexOf(Serials(s), s[k].id) == k
    ensures forall n: nat :: AllBelow(s, n) ==> AllBelow(Without(s, k), n)
  {
    LeavesNumbers(s, k);
    LeavesSerials(s, k);
    assert Serials(s)[k] == s[k].id;
    var j := IndexOf(Serials(s), s[k].id);
    assert s[j].id == s[k].id;
  }

  lemma PostedFront(before: seq<Entry>, q: seq<nat>, ec: Ec)
    ensures q != [] ==> before + [Entry(q[0], ec)] + Posted(q[1..], ec) == before + Posted(q, ec)
  {
  }

  lemma FrontOf(root: Node, s: seq<Node>)
    requires IsRing(root, s)
    ensures root.next_ == Succ(root, s, -1) && (root.next_ == root <==> s == [])
    ensures s != [] ==> s[0].prev_ == root && s[0].next_ == Succ(root, s, 0)
    ensures forall i {:trigger s[i]} :: 0 <= i < |s| ==> s[i] != root
  {
  }

  /** Whose wait has ended is not on the ring any more. */
  lemma EndedElsewhere(waiting: seq<Node>, s: seq<Node>)
    requires AllWaiting(waiting)
    ensures forall i, j {:trigger s[i], waiting[j]} ::
              0 <= i < |s| && s[i].wait.Ended? && 0 <= j < |waiting| ==> s[i] != waiting[j]
  {
  }

  lemma EndedPrefix(s: seq<Node>, op: Node, ec: Ec)
    requires AllEnded(s + [op], ec)
    ensures AllEnded(s, ec)
  {
    assert forall i {:trigger s[i].wait} :: 0 <= i < |s| ==> (s + [op])[i] == s[i];
  }

  /** The waits of the first `k` have ended with `ec`. */
  ghost predicate EndedUpto(s: seq<Node>, k: nat, ec: Ec)
    reads s
  {
    forall i {:trigger s[i].wait} :: 0 <= i < |s| && i < k ==> s[i].wait == Ended(ec)
  }

  /** The first `k` have been completed from the front, and keep the pointers that left them. */
  ghost predicate StaleUpto(root: Node, s: seq<Node>, k: nat)
    reads s
  {
    && (forall i {:trigger s[i].prev_} :: 0 <= i < |s| && i < k ==> s[i].prev_ == root)
    && (forall i {:trigger s[i].next_} :: 0 <= i < |s| && i < k ==> s[i].next_ == Succ(root, s, i))
  }

  lemma StartOf(root: Node, s: seq<Node>, ec: Ec)
    requires IsRing(root, s)
    ensures EndedUpto(s, 0, ec) && StaleUpto(root, s, 0) && (root.next_ == root <==> s == [])
    ensures forall i {:trigger s[i]} :: 0 <= i < |s| ==> s[i] != root
  {
  }

  lemma EndOf(root: Node, s: seq<Node>, ec: Ec)
    requires EndedUpto(s, |s|, ec) && StaleUpto(root, s, |s|)
    ensures AllEnded(s, ec)
    ensures forall i {:trigger s[i].prev_} :: 0 <= i < |s| ==> s[i].prev_ == root
    ensures forall i {:trigger s[i].next_} :: 0 <= i < |s| ==> s[i].next_ == Succ(root, s, i)
  {
  }

  lemma EndedNone(s: seq<Node>, ec: Ec)
    ensures EndedUpto(s, 0, ec)
  {
  }

  lemma EndedThrough(s: seq<Node>, ec: Ec)
    requires EndedUpto(s, |s|, ec)
    ensures AllEnded(s, ec)
  {
  }

  class Holder {
    const root: Node
    ghost var waiting: seq<Node>

    ghost predicate Valid()
      reads this, root, waiting
    {
      IsRing(root, waiting) && AllWaiting(waiting) && Numbered(waiting)
    }

    ghost function Repr(): set<object>
      reads this
    {
      {this, root} + set n | n in waiting
    }

    /** Nobody who waits is numbered `n` or higher. */
    ghost predicate Below(n: nat)
      reads this
    {
      AllBelow(waiting, n)
    }

    /** The serial numbers of those who wait, in order. */
    ghost function Queue(): seq<nat>
      reads this
    {
      Serials(waiting)
    }

    constructor ()
      ensures Valid() && fresh(Repr()) && fresh(root) && waiting == [] && Queue() == []
      ensures forall n: nat :: Below(n)
    {
      root := new Node(0);
      waiting := [];
    }

    /** The whole ring changes over to the new holder. */
    constructor Move(lhs: Holder)
      requires lhs.Valid()
      modifies lhs, lhs.root, lhs.waiting
      ensures Valid() && waiting == old(lhs.waiting) && Queue() == old(lhs.Queue())
      ensures lhs.Valid() && lhs.waiting == [] && lhs.Queue() == [] && Apart(this, lhs)
      ensures forall n: nat :: lhs.Below(n) && (old(lhs.Below(n)) ==> Below(n))
      ensures fresh(this) && fresh(root)
    {
      root := new Node.Move(lhs.root, lhs.waiting);
      waiting := lhs.waiting;
      new;
      lhs.waiting := [];
    }

    method IsEmpty() returns (empty: bool)
      requires Valid()
      ensures (empty <==> waiting == []) && (empty <==> Queue() == [])
    {
      empty := root.next_ == root;
    }

    method Size() returns (sz: nat)
      requires Valid()
      ensures sz == |Queue()|
    {
      sz := root.Size(waiting);
    }

    /** `add_waiter` of every primitive. */
    method AddWaiter(op: Node)
      requires Valid() && op !in Repr() && op.wait == Waiting
      requires Below(op.id)
      modifies this, root, waiting, op
      ensures Valid() && waiting == old(waiting) + [op]
      ensures Queue() == old(Queue()) + [op.id]
      ensures forall n: nat :: op.id < n ==> Below(n)
    {
      op.Append(root, waiting);
      waiting := waiting + [op];
    }

    /** An operation that has just been added unlinks itself again: everything is as it was. */
    method TakeBack(op: Node)
      requires Valid() && waiting != [] && waiting[|waiting| - 1] == op
      modifies this, root, waiting
      ensures Valid() && waiting == old(waiting)[..|old(waiting)| - 1]
      ensures Queue() == old(Queue())[..|old(waiting)| - 1]
      ensures forall n: nat :: old(Below(n)) ==> Below(n)
    {
      ghost var s := waiting;
      assert op.next_ == root && op.prev_ == Pred(root, s, |s| - 1);
      Leaves(s, |s| - 1);
      hide IsRing, AllBelow, Numbered, Without, Serials;
      waiting := s[..|s| - 1];
      op.UnlinkFrom(root, s, |s| - 1);
    }

    method CompleteFront(ec: Ec) returns (e: Entry)
      requires Valid() && waiting != []
      modifies this, root, waiting
      ensures Valid() && waiting == old(waiting)[1..]
      ensures Queue() == old(Queue())[1..] == Without(old(Queue()), 0)
      ensures e == Entry(old(Queue())[0], ec) == Entry(old(waiting)[0].id, ec)
      ensures forall n: nat :: old(Below(n)) ==> Below(n)
      ensures old(waiting)[0].wait == Ended(ec)
      ensures old(waiting)[0].prev_ == root && old(waiting)[0].next_ == Succ(root, old(waiting), 0)
    {
      hide IsRing, AllWaiting, AllBelow, Numbered, Without, Serials;
      ghost var s := waiting;
      FrontOf(root, s);
      Leaves(s, 0);
      waiting := s[1..];
      e := root.next_.Complete(ec, root, s, 0);
    }

    /** Completes an operation wherever it stands; the operation after it stays the next one. */
    method CompleteAt(op: Node, ec: Ec, ghost k: nat) returns (e: Entry)
      requires Valid() && k < |waiting| && waiting[k] == op
      modifies this, root, waiting
      ensures Valid() && waiting == Without(old(waiting), k)
      ensures e == Entry(op.id, ec) && op.wait == Ended(ec)
      ensures op.id in old(Queue()) && IndexOf(old(Queue()), op.id) == k
      ensures Queue() == Without(old(Queue()), k)
      ensures forall n: nat :: old(Below(n)) ==> Below(n)
    {
      ghost var s := waiting;
      assert op.next_ == Succ(root, s, k) && op.prev_ == Pred(root, s, k);
      hide IsRing, AllWaiting, AllBelow, Numbered, Without, Serials, IndexOf;
      Leaves(s, k);
      waiting := Without(s, k);
      e := op.Complete(ec, root, s, k);
    }

    /** A cancelled operation leaves from wherever it stands. */
    method Abort(op: Node) returns (e: Entry)
      requires Valid() && op in waiting
      modifies this, root, waiting
      ensures Valid() && Repr() <= old(Repr()) && e == Entry(op.id, Aborted) && op.wait == Ended(Aborted)
      ensures op.id in old(Queue())
      ensures var k := IndexOf(old(Queue()), op.id);
              waiting == Without(old(waiting), k) && Queue() == Without(old(Queue()), k)
      ensures var w, v := waiting, old(waiting); forall i {:trigger w[i]} :: 0 <= i < |w| ==> w[i] in v
      ensures forall n: nat :: old(Below(n)) ==> Below(n)
    {
      hide IsRing, AllWaiting, AllBelow, Numbered, Without, Serials, IndexOf;
      ghost var k :| 0 <= k < |waiting| && waiting[k] == op;
      WithoutMembers(waiting, k);
      e := CompleteAt(op, Aborted, k);
    }

    /** Drops the operation at the front; the pointer of the root is then set to where it already points. */
    method DropFront() returns (e: Entry)
      requires Valid() && waiting != []
      modifies this, root, waiting
      ensures Valid() && waiting == old(waiting)[1..]
      ensures Queue() == old(Queue())[1..] && e == Entry(old(Queue())[0], ShutDown)
      ensures old(waiting)[0].wait == Ended(ShutDown)
    {
      hide IsRing, AllWaiting, AllBelow, Numbered, Without, Serials;
      ghost var s := waiting;
      FrontOf(root, s);
      Leaves(s, 0);
      waiting := s[1..];
      var nx2 := root.next_.next_;
      e := root.next_.Drop(root, s, 0);
      FrontOf(root, s[1..]);
      root.next_ := nx2;
    }

    /** Completes the `k`-th of those who waited when the loop began. */
    method CompleteNext(ec: Ec, before: seq<Entry>, ghost s: seq<Node>, ghost k: nat) returns (posted: seq<Entry>)
      requires Valid() && k < |s| && waiting == s[k..] && EndedUpto(s, k, ec) && StaleUpto(root, s, k)
      requires forall i {:trigger s[i]} :: 0 <= i < |s| ==> s[i] != root
      modifies this, root, waiting
      ensures Valid() && waiting == s[k + 1..] && EndedUpto(s, k + 1, ec) && StaleUpto(root, s, k + 1)
      ensures posted + Posted(Queue(), ec) == before + Posted(old(Queue()), ec)
    {
      assert |Queue()| == |waiting|;
      hide IsRing, AllWaiting, AllBelow, Numbered, Without, Serials;
      EndedElsewhere(waiting, s);
      PostedFront(before, Queue(), ec);
      assert Succ(root, s[k..], 0) == Succ(root, s, k);
      hide Posted;
      var e := CompleteFront(ec);
      posted := before + [e];
    }

    /** Completes everybody, front to back.  The own pointers of each are left as its completion found
        them: the predecessor already was the root, the successor the operation after it, so that those
        of the last one both point at the root. */
    method CompleteAll(ec: Ec) returns (posted: seq<Entry>)
      requires Valid()
      modifies this, root, waiting
      ensures Valid() && waiting == [] && Queue() == []
      ensures posted == Posted(old(Queue()), ec)
      ensures AllEnded(old(waiting), ec)
      ensures var s := old(waiting); forall i {:trigger s[i].prev_} :: 0 <= i < |s| ==> s[i].prev_ == root
      ensures var s := old(waiting); forall i {:trigger s[i].next_} :: 0 <= i < |s| ==> s[i].next_ == Succ(root, s, i)
      ensures forall n: nat :: Below(n)
    {
      posted := [];
      ghost var k, s := 0, waiting;
      StartOf(root, s, ec);
      EmptyQueue();
      hide IsRing, AllWaiting, AllEnded, AllBelow, Numbered, EndedUpto, StaleUpto, Serials, Posted;
      while root.next_ != root
        invariant Valid() && (root.next_ == root <==> waiting == [])
        invariant k <= |s| && waiting == s[k..] && EndedUpto(s, k, ec) && StaleUpto(root, s, k)
        invariant posted + Posted(Queue(), ec) == Posted(old(Queue()), ec)
        decreases |s| - k
      {
        posted := CompleteNext(ec, posted, s, k);
        k := k + 1;
        FrontOf(root, waiting);
      }
      EmptyQueue();
      EndOf(root, s, ec);
    }

    lemma EmptyQueue()
      ensures waiting == [] ==> Queue() == [] && forall n: nat :: Below(n)
      ensures forall ec :: Posted([], ec) == []
    {
    }

    /** Unlinks an operation that has left already.  Where the ring is empty and the stale pointers of the
        operation both point at the root, that writes what is there. */
    method UnlinkAgain(op: Node)
      requires Valid() && waiting == [] && op.next_ == root && op.prev_ == root
      modifies root
      ensures Valid() && root.next_ == old(root.next_) && root.prev_ == old(root.prev_)
    {
      op.Unlink();
    }

    /** Destroying the holder aborts whoever still waits. */
    method Destroy() returns (posted: seq<Entry>)
      requires Valid()
      modifies this, root, waiting
      ensures Valid() && waiting == [] && Queue() == []
      ensures posted == Posted(old(Queue()), Aborted)
      ensures AllEnded(old(waiting), Aborted)
      ensures forall n: nat :: Below(n)
    {
      posted := CompleteAll(Aborted);
    }

    /** Drops the `k`-th of those who waited when the loop began. */
    method DropNext(before: seq<Entry>, ghost s: seq<Node>, ghost k: nat) returns (dropped: seq<Entry>)
      requires Valid() && k < |s| && waiting == s[k..] && EndedUpto(s, k, ShutDown)
      requires forall i {:trigger s[i]} :: 0 <= i < |s| ==> s[i] != root
      modifies this, root, waiting
      ensures Valid() && waiting == s[k + 1..] && EndedUpto(s, k + 1, ShutDown)
      ensures dropped + Posted(Queue(), ShutDown) == before + Posted(old(Queue()), ShutDown)
    {
      assert |Queue()| == |waiting|;
      hide IsRing, AllWaiting, AllBelow, Numbered, Without, Serials;
      EndedElsewhere(waiting, s);
      PostedFront(before, Queue(), ShutDown);
      hide Posted;
      var e := DropFront();
      dropped := before + [e];
    }

    method DropAll() returns (dropped: seq<Entry>)
      requires Valid()
      modifies this, root, waiting
      ensures Valid() && waiting == []
      ensures dropped == Posted(old(Queue()), ShutDown)
      ensures AllEnded(old(waiting), ShutDown)
      ensures forall n: nat :: Below(n)
    {
      dropped := [];
      ghost var k, s := 0, waiting;
      StartOf(root, s, ShutDown);
      EmptyQueue();
      hide IsRing, AllWaiting, AllEnded, AllBelow, Numbered, EndedUpto, StaleUpto, Serials, Posted;
      while root.next_ != root
        invariant Valid() && (root.next_ == root <==> waiting == [])
        invariant k <= |s| && waiting == s[k..] && EndedUpto(s, k, ShutDown)
        invariant dropped + Posted(Queue(), ShutDown) == Posted(old(Queue()), ShutDown)
        decreases |s| - k
      {
        dropped := DropNext(dropped, s, k);
        k := k + 1;
        FrontOf(root, waiting);
      }
      EmptyQueue();
      EndedThrough(s, ShutDown);
    }

    /** Drops everybody, front to back, out of a ring moved to a local root. */
    method Shutdown() returns (dropped: seq<Entry>)
      requires Valid()
      modifies this, root, waiting
      ensures Valid() && waiting == [] && Queue() == []
      ensures dropped == Posted(old(Queue()), ShutDown)
      ensures AllEnded(old(waiting), ShutDown)
      ensures forall n: nat :: Below(n)
    {
      var bn := new Holder.Move(this);
      dropped := bn.DropAll();
    }
  }

  /** Two holders that share nothing. */
  ghost predicate Apart(a: Holder, b: Holder)
    reads a, b
  {
    && a != b && a.root != b.root && a.root !in b.waiting && b.root !in a.waiting
    && forall i, j {:trigger a.waiting[i], b.waiting[j]} ::
         0 <= i < |a.waiting| && 0 <= j < |b.waiting| ==> a.waiting[i] != b.waiting[j]
  }
}
