/** The barrier on its ring. */
module Barriers {
  import opened Ledgers
  import opened Rings
  import opened Holders
  import Spec = BarrierSpec

  class Barrier {
    const enabled: bool
    const base: Node
    var service: bool
    const init_: int
    var counter_: int
    const waiters_: Holder

    // Serial number of the next operation, and what was delivered so far.
    var issued: nat
    var log: seq<Entry>

    // Callers of `async_arrive` between its two critical sections.
    var between: nat

    ghost var counted: seq<nat>
    ghost var generations: nat
    ghost var lost: nat

    ghost predicate Valid()
      reads this, waiters_, waiters_.root, waiters_.waiting
    {
      waiters_.Valid() && waiters_.Below(issued)
    }

    ghost function State(): Spec.State
      reads this, waiters_
    {
      Spec.State(init_, counter_, Ledger(issued, waiters_.Queue(), log), between, counted, generations, lost)
    }

    ghost function Repr(): set<object>
      reads this, waiters_
    {
      {this} + {waiters_} + waiters_.Repr()
    }

    constructor (enabled: bool, init: int)
      ensures Valid() && fresh(Repr()) && fresh(base) && base !in Repr() && State() == Spec.Initial(init)
      ensures this.enabled == enabled && service
      ensures fresh(waiters_) && fresh(waiters_.root) && waiters_.waiting == []
    {
      this.enabled := enabled;
      base := new Node(0);
      service := true;
      init_, counter_ := init, init;
      waiters_ := new Holder();
      issued, log, between := 0, [], 0;
      counted, generations, lost := [], 0, 0;
    }

    /** Move construction takes over counter and waiters.  The source keeps its counter too, but the waiters
        that used it up have left; and callers between two critical sections come back to the source. */
    constructor Move(rhs: Barrier)
      requires rhs.Valid()
      modifies rhs`issued, rhs`log, rhs`counted, rhs`generations, rhs`lost
      modifies rhs.waiters_, rhs.waiters_.root, rhs.waiters_.waiting
      ensures Valid() && State() == old(rhs.State()).(between := 0)
      ensures waiters_.waiting == old(rhs.waiters_.waiting)
      ensures rhs.Valid()
      ensures var s := old(rhs.State());
              rhs.State() == s.(line := EMPTY, counted := [], generations := 0, lost := s.lost + |s.line.queue|)
      ensures fresh(this) && fresh(waiters_) && fresh(base) && enabled == rhs.enabled && service == rhs.service
      ensures fresh(waiters_.root) && Apart(waiters_, rhs.waiters_) && rhs.waiters_.waiting == [] && base !in Repr()
    {
      hide IsRing, AllWaiting, AllEnded, Numbered, AllBelow, Serials;
      enabled := rhs.enabled;
      var hook := new Node(0);
      assert hook !in rhs.waiters_.waiting;
      base := hook;
      service := rhs.service;
      init_, counter_ := rhs.init_, rhs.counter_;
      ghost var more := |rhs.waiters_.Queue()|;
      waiters_ := new Holder.Move(rhs.waiters_);
      issued, log, between := rhs.issued, rhs.log, 0;
      counted, generations, lost := rhs.counted, rhs.generations, rhs.lost;
      rhs.Abandon(more);
    }

    /** What moving from a barrier leaves behind, once its waiters have gone. */
    method Abandon(ghost gone: nat)
      requires Valid() && waiters_.waiting == [] && waiters_.Below(0)
      modifies this`issued, this`log, this`counted, this`generations, this`lost
      ensures Valid()
      ensures State() == old(State()).(line := EMPTY, counted := [], generations := 0, lost := old(lost) + gone)
    {
      hide IsRing, AllWaiting, AllEnded, Numbered;
      issued, log := 0, [];
      counted, generations, lost := [], 0, lost + gone;
    }

    /** Lets the generation through that is complete with this arrival. */
    method Open()
      requires Valid()
      modifies this`counter_, this`log, this`generations, this`lost, waiters_, waiters_.root, waiters_.waiting
      ensures Valid() && State() == Spec.Open(old(State())) && waiters_.waiting == []
      ensures AllEnded(old(waiters_.waiting), Success)
      ensures var w := old(waiters_.waiting);
              w != [] ==> w[|w| - 1].next_ == waiters_.root && w[|w| - 1].prev_ == waiters_.root
    {
      hide IsRing, AllWaiting, AllEnded, Numbered, AllBelow, Serials;
      ghost var w := waiters_.waiting;
      var posted := waiters_.CompleteAll(Success);
      assert w != [] ==> w[|w| - 1].next_ == waiters_.root && w[|w| - 1].prev_ == waiters_.root;
      counter_, log := init_, log + posted;
      generations, lost := generations + 1, 0;
    }

    method TryArrive() returns (ok: bool)
      requires Valid()
      modifies this`counter_, this`log, this`issued, this`counted, this`generations, this`lost
      modifies waiters_, waiters_.root, waiters_.waiting
      ensures Valid() && State() == Spec.TryArrive(old(State())) && ok == (old(counter_) == 1)
      ensures if ok then AllEnded(old(waiters_.waiting), Success) && waiters_.waiting == []
              else waiters_.waiting == old(waiters_.waiting)
      ensures fresh(Repr() - old(Repr()))
      ensures if ok then
                && counter_ == init_ && generations == old(generations) + 1
                && log == old(log) + Posted(old(waiters_.Queue()), Success) + [Entry(old(issued), Success)]
              else State() == old(State())
    {
      hide IsRing, AllWaiting, AllEnded, Numbered, Serials;
      counter_ := counter_ - 1;
      if counter_ == 0 {
        Open();
        counted := counted + [issued];
        log, issued := log + [Entry(issued, Success)], issued + 1;
        return true;
      }
      counter_ := counter_ + 1;
      return false;
    }

    /** A new operation takes a place of the counter and goes on the ring. */
    method Join() returns (op: Node)
      requires Valid()
      modifies this`counter_, this`issued, this`counted, waiters_, waiters_.root, waiters_.waiting
      ensures Valid() && State() == Spec.Join(old(State()))
      ensures fresh(op) && op.id == old(issued) && waiters_.waiting == old(waiters_.waiting) + [op]
    {
      hide IsRing, AllWaiting, AllEnded, Numbered, AllBelow, Serials;
      op := new Node(issued);
      waiters_.AddWaiter(op);
      counter_ := counter_ - 1;
      counted, issued := counted + [issued], issued + 1;
    }

    /** With threads, the call links itself, counts itself, and when it is the last one completes everybody,
        itself included.  It then unlinks itself a second time, which changes nothing. */
    method Arrive() returns (r: Outcome)
      requires Valid()
      modifies this`counter_, this`log, this`issued, this`counted, this`generations, this`lost
      modifies waiters_, waiters_.root, waiters_.waiting
      ensures Valid() && State() == Spec.Arrive(old(State()), enabled)
      ensures r.Acquired? <==> old(counter_) == 1
      ensures r.Acquired? ==> waiters_.waiting == [] && AllEnded(old(waiters_.waiting), Success)
      ensures r.Blocked? ==> fresh(r.op) && waiters_.waiting == old(waiters_.waiting) + [r.op]
      ensures r.Busy? ==> waiters_.waiting == old(waiters_.waiting)
      ensures fresh(Repr() - old(Repr()))
      ensures match r
              case Acquired => counter_ == init_ && generations == old(generations) + 1
              case Busy => !enabled && counter_ == old(counter_) && log == old(log) + [Entry(old(issued), InProgress)]
              case Blocked(op) => enabled && counter_ == old(counter_) - 1 && log == old(log) && op.id == old(issued)
    {
      hide IsRing, AllWaiting, AllEnded, Numbered, Serials;
      if !enabled {
        var ok := TryArrive();
        if ok {
          return Acquired;
        }
        log, issued := log + [Entry(issued, InProgress)], issued + 1;
        return Busy;
      }
      FrontOf(waiters_.root, waiters_.waiting);
      var op := Join();
      if counter_ == 0 {
        Open();
        EndedPrefix(old(waiters_.waiting), op, Success);
        waiters_.UnlinkAgain(op);
        return Acquired;
      }
      return Blocked(op);
    }

    /** First critical section of `async_arrive`: the whole of it when this is the last arrival. */
    method Approach() returns (ok: bool)
      requires Valid()
      modifies this`counter_, this`log, this`issued, this`counted, this`generations, this`lost, this`between
      modifies waiters_, waiters_.root, waiters_.waiting
      ensures Valid() && State() == Spec.Approach(old(State())) && ok == (old(counter_) == 1)
      ensures fresh(Repr() - old(Repr()))
      ensures var w, v := waiters_.waiting, old(waiters_.waiting);
              forall i {:trigger w[i]} :: 0 <= i < |w| ==> fresh(w[i]) || (i < |v| && w[i] == v[i])
      ensures if ok then counter_ == init_ && generations == old(generations) + 1
              else State() == old(State()).(between := old(between) + 1)
      ensures waiters_.waiting == if ok then [] else old(waiters_.waiting)
    {
      hide IsRing, AllWaiting, AllEnded, Numbered, AllBelow, Serials;
      ok := TryArrive();
      if !ok { between := between + 1; }
    }

    /** Second critical section of `async_arrive`. */
    method Commit()
      requires Valid() && between > 0
      modifies this`counter_, this`issued, this`counted, this`between, waiters_, waiters_.root, waiters_.waiting
      ensures Valid() && State() == Spec.Commit(old(State()))
      ensures fresh(Repr() - old(Repr()))
      ensures var w, v := waiters_.waiting, old(waiters_.waiting);
              forall i {:trigger w[i]} :: 0 <= i < |w| ==> fresh(w[i]) || (i < |v| && w[i] == v[i])
      ensures var v, w := old(waiters_.waiting), waiters_.waiting; Joined(v, w, old(issued)) && fresh(w[|v|])
      ensures counter_ == old(counter_) - 1 && between == old(between) - 1 && log == old(log)
    {
      hide IsRing, AllWaiting, AllEnded, Numbered, AllBelow, Serials;
      between := between - 1;
      var op := Join();
    }

    /** `async_arrive` when nobody gets between its critical sections. */
    method AsyncArrive()
      requires Valid()
      modifies this`counter_, this`log, this`issued, this`counted, this`generations, this`lost, this`between
      modifies waiters_, waiters_.root, waiters_.waiting
      ensures Valid() && State() == Spec.AsyncArrive(old(State()))
      ensures fresh(Repr() - old(Repr()))
      ensures var w, v := waiters_.waiting, old(waiters_.waiting);
              forall i {:trigger w[i]} :: 0 <= i < |w| ==> fresh(w[i]) || (i < |v| && w[i] == v[i])
      ensures var v, w := old(waiters_.waiting), waiters_.waiting;
              if old(counter_) == 1 then counter_ == init_ && w == []
              else counter_ == old(counter_) - 1 && log == old(log) && Joined(v, w, old(issued)) && fresh(w[|v|])
    {
      hide IsRing, AllWaiting, AllEnded, Numbered, AllBelow, Serials;
      var ok := Approach();
      if !ok { Commit(); }
    }

    /** The cancellation slot of a waiting operation fires: its place in the count is not given back. */
    method Cancel(op: Node)
      requires Valid() && op in waiters_.waiting
      modifies this`log, this`lost, waiters_, waiters_.root, waiters_.waiting
      ensures Valid() && State() == Spec.Apply(old(State()), Spec.CancelStep(op.id)) && Repr() <= old(Repr())
      ensures var w, v := waiters_.waiting, old(waiters_.waiting);
              forall i {:trigger w[i]} :: 0 <= i < |w| ==> w[i] in v
      ensures op.wait == Ended(Aborted)
      ensures log == old(log) + [Entry(op.id, Aborted)] && counter_ == old(counter_)
    {
      hide IsRing, AllWaiting, AllEnded, Numbered, AllBelow, Serials;
      var e := waiters_.Abort(op);
      log, lost := log + [e], lost + 1;
    }

    method Shutdown() returns (dropped: seq<Entry>)
      requires Valid()
      modifies this`log, this`lost, waiters_, waiters_.root, waiters_.waiting
      ensures Valid() && State() == Spec.Apply(old(State()), Spec.ShutdownStep)
      ensures waiters_.waiting == [] && dropped == Posted(old(waiters_.Queue()), ShutDown)
      ensures AllEnded(old(waiters_.waiting), ShutDown)
      ensures log == old(log) + dropped
    {
      hide IsRing, AllWaiting, AllEnded, Numbered, AllBelow, Serials;
      lost := lost + |waiters_.Queue()|;
      var w := new Holder.Move(waiters_);
      dropped := w.Shutdown();
      log := log + dropped;
    }

    method Destroy()
      requires Valid()
      modifies this`log, this`lost, waiters_, waiters_.root, waiters_.waiting
      ensures Valid() && State() == Spec.Apply(old(State()), Spec.DestroyStep)
      ensures AllEnded(old(waiters_.waiting), Aborted) && waiters_.waiting == []
      ensures log == old(log) + Posted(old(waiters_.Queue()), Aborted)
    {
      hide IsRing, AllWaiting, AllEnded, Numbered, AllBelow, Serials;
      lost := lost + |waiters_.Queue()|;
      var posted := waiters_.Destroy();
      log := log + posted;
    }
  }
}
