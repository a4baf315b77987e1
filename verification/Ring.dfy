/** The intrusive circular list everything is queued on, and the operations that hang on it.

    The class hierarchy of the nodes is flattened: a `Node` is the list hook of a root, of a registered
    member, or of a wait operation, and carries what a wait operation needs: the serial number that stands
    for its handler, and how the wait ended. */
module Rings {
  import opened Ledgers

  // ----- What a ring is -----

  function Succ(root: Node, s: seq<Node>, i: int): Node
    requires -1 <= i < |s|
  {
    if i + 1 < |s| then s[i + 1] else root
  }

  function Pred(root: Node, s: seq<Node>, i: int): Node
    requires 0 <= i <= |s|
  {
    if i > 0 then s[i - 1] else root
  }

  /** Following `next_` from the root visits `s` and comes back, following `prev_` visits it backwards. */
  ghost predicate IsRing(root: Node, s: seq<Node>)
    reads root, s
  {
    && root !in s && Distinct(s)
    && root.next_ == Succ(root, s, -1) && root.prev_ == Pred(root, s, |s|)
    && (forall i {:trigger s[i].next_} :: 0 <= i < |s| ==> s[i].next_ == Succ(root, s, i))
    && (forall i {:trigger s[i].prev_} :: 0 <= i < |s| ==> s[i].prev_ == Pred(root, s, i))
  }

  function Serials(s: seq<Node>): seq<nat> {
    seq(|s|, i requires 0 <= i < |s| => s[i].id)
  }

  /** The pointers determine the sequence. */
  lemma RingUnique(root: Node, s: seq<Node>, t: seq<Node>)
    requires IsRing(root, s) && IsRing(root, t)
    ensures s == t
  {
    RingPrefix(root, s, t, |s|);
    RingPrefix(root, t, s, |t|);
  }

  lemma {:induction false} RingPrefix(root: Node, s: seq<Node>, t: seq<Node>, n: nat)
    requires IsRing(root, s) && IsRing(root, t) && n <= |s|
    ensures n <= |t| && s[..n] == t[..n]
  {
    if n > 0 {
      RingPrefix(root, s, t, n - 1);
      if n > 1 {
        var x := s[n - 2];
        assert x == s[..n - 1][n - 2] == t[..n - 1][n - 2] == t[n - 2];
        assert x.next_ == s[n - 1] && x.next_ == Succ(root, t, n - 2);
      }
      assert s[..n] == s[..n - 1] + [s[n - 1]];
    }
  }

  ghost predicate AllWaiting(s: seq<Node>)
    reads s
  {
    forall i {:trigger s[i].wait} :: 0 <= i < |s| ==> s[i].wait == Waiting
  }

  /** The `done` flag and the error code of a wait operation. */
  datatype Wait = Waiting | Ended(ec: Ec)

  class Node {
    var next_: Node
    var prev_: Node
    const id: nat
    var wait: Wait

    constructor (id: nat)
      ensures next_ == this && prev_ == this
      ensures this.id == id && wait == Waiting
    {
      next_ := this;
      prev_ := this;
      this.id := id;
      wait := Waiting;
    }

    /** Takes this node out from between its neighbours; its own pointers are left as they were. */
    method Unlink()
      modifies prev_`next_, next_`prev_
      ensures old(next_).prev_ == old(prev_)
      ensures old(prev_).next_ == old(next_)
    {
      var p := prev_;
      var n := next_;
      n.prev_ := p;
      p.next_ := n;
    }

    method LinkBefore(next: Node)
      requires this != next && this != next.prev_
      modifies this`next_, this`prev_, next.prev_`next_, next`prev_
      ensures next_ == next && prev_ == old(next.prev_)
      ensures old(next.prev_).next_ == this && next.prev_ == this
    {
      next_ := next;
      prev_ := next.prev_;
      prev_.next_ := this;
      next.prev_ := this;
    }

    /** Linking before the root puts this node at the back of the ring. */
    method Append(root: Node, ghost s: seq<Node>)
      requires IsRing(root, s) && this != root && this !in s
      modifies this`next_, this`prev_, root.prev_`next_, root`prev_
      ensures IsRing(root, s + [this])
    {
      LinkBefore(root);
    }

    /** Unlinking a node of a ring takes it, and only it, out of the sequence. */
    method UnlinkFrom(ghost root: Node, ghost s: seq<Node>, ghost k: nat)
      requires IsRing(root, s) && k < |s| && s[k] == this
      modifies prev_`next_, next_`prev_
      ensures IsRing(root, Without(s, k))
    {
      assert prev_ == Pred(root, s, k) && next_ == Succ(root, s, k);
      ghost var t := Without(s, k);
      assert forall i {:trigger t[i]} :: 0 <= i < k ==> t[i] == s[i];
      assert forall i {:trigger t[i]} :: k <= i < |t| ==> t[i] == s[i + 1];
      Unlink();
    }

    method Size(ghost s: seq<Node>) returns (sz: nat)
      requires IsRing(this, s)
      ensures sz == |s|
    {
      sz := 0;
      var p := next_;
      while p != this
        invariant sz <= |s| && p == Succ(this, s, sz - 1)
        decreases |s| - sz
      {
        sz := sz + 1;
        p := p.next_;
      }
    }

    /** Move construction of a root: the whole ring changes over to the new root. */
    constructor Move(lhs: Node, ghost s: seq<Node>)
      requires IsRing(lhs, s)
      modifies lhs`next_, lhs`prev_, lhs.next_`prev_, lhs.prev_`next_
      ensures IsRing(this, s) && IsRing(lhs, [])
      ensures fresh(this)
    {
      next_ := lhs.next_;
      prev_ := lhs.prev_;
      id := 0;
      wait := Waiting;
      new;
      lhs.next_ := lhs;
      lhs.prev_ := lhs;
      if next_ == lhs {
        next_ := this;
      } else {
        next_.prev_ := this;
      }
      if prev_ == lhs {
        prev_ := this;
      } else {
        prev_.next_ := this;
      }
    }

    // ----- Wait operations -----

    /** Ends the wait with `ec`: a blocked caller wakes up, or the handler is posted and the node destroyed. */
    method Complete(ec: Ec, ghost root: Node, ghost s: seq<Node>, ghost k: nat) returns (e: Entry)
      requires IsRing(root, s) && AllWaiting(s) && k < |s| && s[k] == this
      modifies this`wait, prev_`next_, next_`prev_
      ensures IsRing(root, Without(s, k)) && AllWaiting(Without(s, k))
      ensures wait == Ended(ec) && e == Entry(id, ec)
    {
      wait := Ended(ec);
      UnlinkFrom(root, s, k);
      e := Entry(id, ec);
    }

    /** Ends the wait because the service shuts down: a blocked caller wakes up with an error, a handler is
        destroyed without being invoked. */
    method Drop(ghost root: Node, ghost s: seq<Node>, ghost k: nat) returns (e: Entry)
      requires IsRing(root, s) && AllWaiting(s) && k < |s| && s[k] == this
      modifies this`wait, prev_`next_, next_`prev_
      ensures IsRing(root, Without(s, k)) && AllWaiting(Without(s, k))
      ensures wait == Ended(ShutDown) && e == Entry(id, ShutDown)
    {
      wait := Ended(ShutDown);
      UnlinkFrom(root, s, k);
      e := Entry(id, ShutDown);
    }
  }
}
