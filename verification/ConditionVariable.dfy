/** The condition variable on its ring. */
module ConditionVariables {
  import opened Ledgers
  import opened Rings
  import opened Holders
  import Spec = ConditionVariableSpec

  /** How far a walk over the waiters `q` has come: whom it asked and woke, whom it left, who is to come. */
  ghost predicate Walked(q: seq<nat>, ready: set<nat>, asked: seq<nat>, woken: seq<Entry>, left: seq<nat>,
                         rest: seq<nat>)
  {
    && asked + rest == q
    && woken + Posted(Spec.Select(rest, ready), Success) == Posted(Spec.Select(q, ready), Success)
    && left + Spec.Reject(rest, ready) == Spec.Reject(q, ready)
  }

  lemma WalkedNone(s: seq<Node>, ready: set<nat>)
    ensures Serials([]) == [] && Walked(Serials(s), ready, [], [], Serials([]), Serials(s))
  {
  }

  lemma WalkedOn(q: seq<nat>, ready: set<nat>, asked: seq<nat>, woken: seq<Entry>, left: seq<nat>, rest: seq<nat>)
    requires Walked(q, ready, asked, woken, left, rest) && rest != []
    ensures var id := rest[0];
            if id in ready then Walked(q, ready, asked + [id], woken + [Entry(id, Success)], left, rest[1..])
            else Walked(q, ready, asked + [id], woken, left + [id], rest[1..])
  {
  }

  lemma WalkedThrough(q: seq<nat>, ready: set<nat>, asked: seq<nat>, woken: seq<Entry>, left: seq<nat>)
    requires Walked(q, ready, asked, woken, left, [])
    ensures asked == q && woken == Posted(Spec.Select(q, ready), Success) && left == Spec.Reject(q, ready)
  {
  }

  lemma SerialsFront(s: seq<Node>)
    requires s != []
    ensures Serials(s) != [] && Serials(s)[0] == s[0].id && Serials(s)[1..] == Serials(s[1..])
  {
  }

  lemma SerialsBack(s: seq<Node>, n: Node)
    ensures Serials(s + [n]) == Serials(s) + [n.id]
  {
  }

  lemma WalkedOne(s: seq<Node>, ready: set<nat>, asked: seq<nat>, woken: seq<Entry>, kept: seq<Node>, rest: seq<Node>)
    requires Walked(Serials(s), ready, asked, woken, Serials(kept), Serials(rest)) && rest != []
    ensures var op := rest[0];
            Walked(Serials(s), ready, asked + [op.id],
                   woken + (if op.id in ready then [Entry(op.id, Success)] else []),
                   Serials(if op.id in ready then kept else kept + [op]), Serials(rest[1..]))
  {
    SerialsFront(rest);
    SerialsBack(kept, rest[0]);
    WalkedOn(Serials(s), ready, asked, woken, Serials(kept), Serials(rest));
    assert woken + [] == woken;
  }

  /** Of the first `k` operations those whose predicate was true have succeeded. */
  ghost predicate WokenUpto(s: seq<Node>, k: nat, ready: set<nat>)
    reads s
  {
    forall i {:trigger s[i].wait} :: 0 <= i < |s| && i < k && s[i].id in ready ==> s[i].wait == Ended(Success)
  }

  ghost predicate Tail(s: seq<Node>, k: nat, rest: seq<Node>) {
    k <= |s| && rest == s[k..]
  }

  lemma NoneWoken(s: seq<Node>, ready: set<nat>)
    ensures WokenUpto(s, 0, ready) && Tail(s, 0, s)
  {
  }

  lemma AllWoken(s: seq<Node>, ready: set<nat>)
    requires WokenUpto(s, |s|, ready)
    ensures forall i {:trigger s[i].wait} :: 0 <= i < |s| && s[i].id in ready ==> s[i].wait == Ended(Success)
  {
  }

  lemma TailOn(s: seq<Node>, k: nat, rest: seq<Node>)
    requires Tail(s, k, rest)
    ensures if rest == [] then k == |s| else k < |s| && s[k] == rest[0] && Tail(s, k + 1, rest[1..])
  {
  }

  /** Where a walk over the waiters `s` stands before the first of `rest`. */
  ghost predicate Halfway(s: seq<Node>, ready: set<nat>, asked: seq<nat>, woken: seq<Entry>, kept: seq<Node>,
                          rest: seq<Node>)
    reads s
  {
    && |rest| <= |s| && Tail(s, |s| - |rest|, rest)
    && Walked(Serials(s), ready, asked, woken, Serials(kept), Serials(rest))
    && WokenUpto(s, |s| - |rest|, ready)
  }

  lemma HalfwayStart(s: seq<Node>, ready: set<nat>)
    ensures Halfway(s, ready, [], [], [], s)
  {
    NoneWoken(s, ready);
    WalkedNone(s, ready);
  }

  lemma HalfwayEnd(s: seq<Node>, ready: set<nat>, asked: seq<nat>, woken: seq<Entry>, kept: seq<Node>)
    requires Halfway(s, ready, asked, woken, kept, [])
    ensures asked == Serials(s) && woken == Posted(Spec.Select(Serials(s), ready), Success)
    ensures Serials(kept) == Spec.Reject(Serials(s), ready)
    ensures forall i {:trigger s[i].wait} :: 0 <= i < |s| && s[i].id in ready ==> s[i].wait == Ended(Success)
  {
    AllWoken(s, ready);
    assert Serials([]) == [];
    WalkedThrough(Serials(s), ready, asked, woken, Serials(kept));
  }

  class ConditionVariable {
    const base: Node
    var service: bool
    const waiters_: Holder

    // Serial number of the next waiter, and what was delivered so far.
    var issued: nat
    var log: seq<Entry>

    ghost predicate Valid()
      reads this, waiters_, waiters_.root, waiters_.waiting
    {
      waiters_.Valid() && waiters_.Below(issued)
    }

    ghost function State(): Ledger
      reads this, waiters_
    {
      Ledger(issued, waiters_.Queue(), log)
    }

    ghost function Repr(): set<object>
      reads this, waiters_
    {
      {this} + {waiters_} + waiters_.Repr()
    }

    constructor ()
      ensures Valid() && fresh(Repr()) && fresh(base) && base !in Repr() && State() == EMPTY && service
      ensures fresh(waiters_) && fresh(waiters_.root) && waiters_.waiting == []
    {
      base := new Node(0);
      service := true;
      waiters_ := new Holder();
      issued, log := 0, [];
    }

    constructor Move(lhs: ConditionVariable)
      requires lhs.Valid()
      modifies lhs`issued, lhs`log, lhs.waiters_, lhs.waiters_.root, lhs.waiters_.waiting
      ensures Valid() && State() == old(lhs.State()) && waiters_.waiting == old(lhs.waiters_.waiting)
      ensures lhs.Valid() && lhs.State() == EMPTY
      ensures fresh(this) && fresh(waiters_) && fresh(base) && service == lhs.service
      ensures fresh(waiters_.root) && Apart(waiters_, lhs.waiters_) && lhs.waiters_.waiting == [] && base !in Repr()
    {
      hide IsRing, AllWaiting, AllEnded, Numbered, AllBelow, Serials;
      base := new Node(0);
      service := lhs.service;
      waiters_ := new Holder.Move(lhs.waiters_);
      issued, log := lhs.issued, lhs.log;
      new;
      lhs.issued, lhs.log := 0, [];
    }

    /** `async_wait` and `async_predicate_wait`: even with its predicate true the operation waits for a
        notification. */
    method AsyncWait()
      requires Valid()
      modifies this`issued, waiters_, waiters_.root, waiters_.waiting
      ensures Valid() && State() == Spec.Apply(old(State()), Spec.WaitStep)
      ensures fresh(Repr() - old(Repr()))
      ensures var w, v := waiters_.waiting, old(waiters_.waiting);
              forall i {:trigger w[i]} :: 0 <= i < |w| ==> fresh(w[i]) || (i < |v| && w[i] == v[i])
      ensures var v, w := old(waiters_.waiting), waiters_.waiting; Joined(v, w, old(issued)) && fresh(w[|v|])
      ensures issued == old(issued) + 1 && log == old(log)
    {
      hide IsRing, AllWaiting, AllEnded, Numbered, AllBelow, Serials;
      var op := new Node(issued);
      waiters_.AddWaiter(op);
      issued := issued + 1;
    }

    method NotifyOne(ready: set<nat>)
      requires Valid()
      modifies this`log, waiters_, waiters_.root, waiters_.waiting
      ensures Valid() && State() == Spec.NotifyOne(old(State()), ready)
      ensures var w := old(waiters_.waiting);
              if w != [] && w[0].id in ready then w[0].wait == Ended(Success) && waiters_.waiting == w[1..]
              else waiters_.waiting == w
      ensures var w := old(waiters_.waiting);
              log == old(log) + if w != [] && w[0].id in ready then [Entry(w[0].id, Success)] else []
    {
      var empty := waiters_.IsEmpty();
      if empty {
        return;
      }
      var op := waiters_.root.next_;
      assert op == waiters_.waiting[0] && waiters_.Queue()[0] == op.id;
      hide IsRing, AllWaiting, AllEnded, Numbered, AllBelow, Serials;
      if op.id in ready {
        var e := waiters_.CompleteFront(Success);
        log := log + [e];
      }
    }

    /** Asks the operation under the cursor and completes it if its predicate says so.  The cursor moves on
        first, for the operation may be taken out of the ring. */
    method Ask(op: Node, ready: set<nat>, ghost kept: seq<Node>, ghost rest: seq<Node>,
               ghost s: seq<Node>, ghost k: nat)
      returns (c: Node, woken: seq<Entry>, ghost left: seq<Node>)
      requires Valid() && rest != [] && op == rest[0] && waiters_.waiting == kept + rest
      requires k < |s| && s[k] == op && WokenUpto(s, k, ready)
      requires forall i {:trigger s[i]} :: 0 <= i < |s| ==> s[i] != waiters_.root
      modifies waiters_, waiters_.root, waiters_.waiting
      ensures Valid() && waiters_.waiting == left + rest[1..]
      ensures left == if op.id in ready then kept else kept + [op]
      ensures WokenUpto(s, k + 1, ready)
      ensures woken == if op.id in ready then [Entry(op.id, Success)] else []
      ensures c == Succ(waiters_.root, rest, 0) && (c == waiters_.root <==> |rest| == 1)
      ensures var s := old(waiters_.waiting);
              forall i {:trigger waiters_.waiting[i]} :: 0 <= i < |waiters_.waiting| ==> waiters_.waiting[i] in s
    {
      c := op.next_;
      assert waiters_.waiting[|kept|] == op && op.next_ == Succ(waiters_.root, waiters_.waiting, |kept|);
      assert |rest| > 1 ==> rest[1] == waiters_.waiting[|kept| + 1] && rest[1] in waiters_.waiting;
      assert c == waiters_.root <==> |rest| == 1;
      EndedElsewhere(waiters_.waiting, s);
      hide IsRing, AllWaiting, AllEnded, Numbered, AllBelow;

      left := kept;
      woken := [];
      if op.id in ready {
        assert Without(waiters_.waiting, |kept|) == kept + rest[1..];
        var e := waiters_.CompleteAt(op, Success, |kept|);
        woken := [e];
      } else {
        left := kept + [op];
      }
    }

    /** One turn of the loop, with what it keeps. */
    method Turn(op: Node, ready: set<nat>, asked: seq<nat>, woken: seq<Entry>, ghost s: seq<Node>,
                ghost kept: seq<Node>, ghost rest: seq<Node>)
      returns (c: Node, asked': seq<nat>, woken': seq<Entry>, ghost left: seq<Node>)
      requires Valid() && rest != [] && op == rest[0] && waiters_.waiting == kept + rest
      requires Halfway(s, ready, asked, woken, kept, rest)
      requires forall i {:trigger s[i]} :: 0 <= i < |s| ==> s[i] != waiters_.root
      modifies waiters_, waiters_.root, waiters_.waiting
      ensures Valid() && waiters_.waiting == left + rest[1..]
      ensures Halfway(s, ready, asked', woken', left, rest[1..])
      ensures c == Succ(waiters_.root, rest, 0) && (c == waiters_.root <==> |rest| == 1)
      ensures var v := old(waiters_.waiting);
              forall i {:trigger waiters_.waiting[i]} :: 0 <= i < |waiters_.waiting| ==> waiters_.waiting[i] in v
    {
      hide IsRing, AllWaiting, AllEnded, Numbered, AllBelow, Walked, WokenUpto, Tail, Serials, Posted,
        Spec.Select, Spec.Reject;
      ghost var k: nat := |s| - |rest|;
      WalkedOne(s, ready, asked, woken, kept, rest);
      asked' := asked + [op.id];
      TailOn(s, k, rest);
      var w;
      c, w, left := Ask(op, ready, kept, rest, s, k);
      woken' := woken + w;
    }

    /** Walks the ring once, from the front.  `asked` are the operations whose predicate was evaluated. */
    method Walk(ready: set<nat>) returns (asked: seq<nat>, woken: seq<Entry>)
      requires Valid()
      modifies waiters_, waiters_.root, waiters_.waiting
      ensures Valid() && asked == old(waiters_.Queue())
      ensures woken == Posted(Spec.Select(old(waiters_.Queue()), ready), Success)
      ensures waiters_.Queue() == Spec.Reject(old(waiters_.Queue()), ready)
      ensures var s := old(waiters_.waiting); forall i {:trigger s[i].wait} :: 0 <= i < |s| && s[i].id in ready ==>
                s[i].wait == Ended(Success)
      ensures var w, v := waiters_.waiting, old(waiters_.waiting);
              forall i {:trigger w[i]} :: 0 <= i < |w| ==> w[i] in v
    {
      hide IsRing, AllWaiting, AllEnded, Numbered, AllBelow, Halfway, Serials, Posted, Spec.Select, Spec.Reject;
      asked, woken := [], [];
      ghost var s, kept, rest: seq<Node> := waiters_.waiting, [], waiters_.waiting;
      HalfwayStart(s, ready);
      FrontOf(waiters_.root, s);
      var c := waiters_.root.next_;
      while c != waiters_.root
        invariant Valid() && waiters_.waiting == kept + rest
        invariant forall i {:trigger waiters_.waiting[i]} :: 0 <= i < |waiters_.waiting| ==> waiters_.waiting[i] in s
        invariant c == Succ(waiters_.root, rest, -1) && (c == waiters_.root <==> rest == [])
        invariant Halfway(s, ready, asked, woken, kept, rest)
        decreases |rest|
      {
        c, asked, woken, kept := Turn(c, ready, asked, woken, s, kept, rest);
        rest := rest[1..];
      }
      assert kept + rest == kept;
      HalfwayEnd(s, ready, asked, woken, kept);
    }

    method NotifyAll(ready: set<nat>) returns (asked: seq<nat>)
      requires Valid()
      modifies this`log, waiters_, waiters_.root, waiters_.waiting
      ensures Valid() && State() == Spec.NotifyAll(old(State()), ready)
      ensures asked == old(waiters_.Queue())
      ensures var s := old(waiters_.waiting); forall i {:trigger s[i].wait} :: 0 <= i < |s| && s[i].id in ready ==>
                s[i].wait == Ended(Success)
      ensures Repr() <= old(Repr())
      ensures var w, v := waiters_.waiting, old(waiters_.waiting);
              forall i {:trigger w[i]} :: 0 <= i < |w| ==> w[i] in v
    {
      hide IsRing, AllWaiting, AllEnded, Numbered, AllBelow, Serials;
      var woken;
      asked, woken := Walk(ready);
      log := log + woken;
    }

    method Cancel(op: Node)
      requires Valid() && op in waiters_.waiting
      modifies this`log, waiters_, waiters_.root, waiters_.waiting
      ensures Valid() && State() == Spec.Apply(old(State()), Spec.CancelStep(op.id)) && Repr() <= old(Repr())
      ensures var w, v := waiters_.waiting, old(waiters_.waiting);
              forall i {:trigger w[i]} :: 0 <= i < |w| ==> w[i] in v
      ensures op.wait == Ended(Aborted)
      ensures log == old(log) + [Entry(op.id, Aborted)]
    {
      hide IsRing, AllWaiting, AllEnded, Numbered, AllBelow, Serials;
      var e := waiters_.Abort(op);
      log := log + [e];
    }

    method Shutdown() returns (dropped: seq<Entry>)
      requires Valid()
      modifies this`log, waiters_, waiters_.root, waiters_.waiting
      ensures Valid() && State() == Spec.Apply(old(State()), Spec.ShutdownStep)
      ensures waiters_.waiting == [] && dropped == Posted(old(waiters_.Queue()), ShutDown)
      ensures AllEnded(old(waiters_.waiting), ShutDown)
      ensures log == old(log) + dropped
    {
      hide IsRing, AllWaiting, AllEnded, Numbered, AllBelow, Serials;
      var w := new Holder.Move(waiters_);
      dropped := w.Shutdown();
      log := log + dropped;
    }

    method Destroy()
      requires Valid()
      modifies this`log, waiters_, waiters_.root, waiters_.waiting
      ensures Valid() && State() == Spec.Apply(old(State()), Spec.DestroyStep)
      ensures AllEnded(old(waiters_.waiting), Aborted) && waiters_.waiting == []
      ensures log == old(log) + Posted(old(waiters_.Queue()), Aborted)
    {
      hide IsRing, AllWaiting, AllEnded, Numbered, AllBelow, Serials;
      var posted := waiters_.Destroy();
      log := log + posted;
    }
  }
}
