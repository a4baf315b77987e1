/** The counting semaphore on its ring. */
module Semaphores {
  import opened Ledgers
  import opened Rings
  import opened Holders
  import Spec = SemaphoreSpec

  class Semaphore {
    const enabled: bool
    const base: Node
    var service: bool
    var count_: int
    const waiters_: Holder

    // Serial number of the next request, and what was delivered so far.
    var issued: nat
    var log: seq<Entry>

    ghost var released: nat

    ghost predicate Valid()
      reads this, waiters_, waiters_.root, waiters_.waiting
    {
      count_ >= 0 && waiters_.Valid() && waiters_.Below(issued)
    }

    ghost function State(): Spec.State
      reads this, waiters_
    {
      Spec.State(count_, Ledger(issued, waiters_.Queue(), log), released)
    }

    ghost function Repr(): set<object>
      reads this, waiters_
    {
      {this} + {waiters_} + waiters_.Repr()
    }

    constructor (enabled: bool, initialCount: int)
      requires initialCount >= 0
      ensures Valid() && fresh(Repr()) && fresh(base) && base !in Repr() && State() == Spec.Initial(initialCount)
      ensures this.enabled == enabled && service
      ensures fresh(waiters_) && fresh(waiters_.root) && waiters_.waiting == []
    {
      hide IsRing, AllWaiting, AllEnded, Numbered, AllBelow, Serials;
      this.enabled := enabled;
      base := new Node(0);
      service := true;
      count_ := initialCount;
      waiters_ := new Holder();
      issued, log, released := 0, [], 0;
    }

    /** Move construction takes over count and waiters; the source keeps its count and loses its waiters. */
    constructor Move(mi: Semaphore)
      requires mi.Valid()
      modifies mi`issued, mi`log, mi`released, mi.waiters_, mi.waiters_.root, mi.waiters_.waiting
      ensures Valid() && State() == old(mi.State()) && waiters_.waiting == old(mi.waiters_.waiting)
      ensures mi.Valid() && mi.State() == Spec.Initial(count_)
      ensures fresh(this) && fresh(waiters_) && fresh(base) && enabled == mi.enabled && service == mi.service
      ensures fresh(waiters_.root) && Apart(waiters_, mi.waiters_) && mi.waiters_.waiting == [] && base !in Repr()
    {
      hide IsRing, AllWaiting, AllEnded, Numbered, AllBelow, Serials;
      enabled := mi.enabled;
      base := new Node(0);
      service := mi.service;
      count_ := mi.count_;
      waiters_ := new Holder.Move(mi.waiters_);
      issued, log, released := mi.issued, mi.log, mi.released;
      new;
      mi.issued, mi.log, mi.released := 0, [], 0;
    }

    /** The request gets its answer at once. */
    method Reply(ec: Ec)
      requires Valid()
      modifies this`issued, this`log
      ensures Valid() && State() == old(State()).(line := Answer(old(State()).line, ec))
    {
      hide IsRing, AllWaiting, AllEnded, Numbered, Serials;
      log, issued := log + [Entry(issued, ec)], issued + 1;
    }

    /** The source asserts that there is something to take. */
    method Decrement() returns (left: int)
      requires count_ > 0
      modifies this`count_
      ensures left == count_ == old(count_) - 1
    {
      count_ := count_ - 1;
      left := count_;
    }

    method TryAcquire() returns (ok: bool)
      requires Valid()
      modifies this`count_, this`issued, this`log
      ensures Valid() && State() == Spec.TryAcquire(old(State())) && ok == (old(count_) > 0)
      ensures if ok then count_ == old(count_) - 1 && log == old(log) + [Entry(old(issued), Success)]
              else State() == old(State())
    {
      hide IsRing, AllWaiting, AllEnded, Numbered, AllBelow, Serials;
      if count_ > 0 {
        count_ := count_ - 1;
        Reply(Success);
        ok := true;
      } else {
        ok := false;
      }
    }

    method AsyncAcquire()
      requires Valid()
      modifies this`count_, this`issued, this`log, waiters_, waiters_.root, waiters_.waiting
      ensures Valid() && State() == Spec.AsyncAcquire(old(State()))
      ensures fresh(Repr() - old(Repr()))
      ensures var w, v := waiters_.waiting, old(waiters_.waiting);
              forall i {:trigger w[i]} :: 0 <= i < |w| ==> fresh(w[i]) || (i < |v| && w[i] == v[i])
      ensures var v, w := old(waiters_.waiting), waiters_.waiting;
              if old(count_) == 0 then log == old(log) && Joined(v, w, old(issued)) && fresh(w[|v|])
              else log == old(log) + [Entry(old(issued), Success)] && w == v
      ensures count_ == if old(count_) > 0 then old(count_) - 1 else 0
    {
      hide IsRing, AllWaiting, AllEnded, Numbered, AllBelow, Serials;
      if count_ > 0 {
        var left := Decrement();
        Reply(Success);
        return;
      }
      var op := new Node(issued);
      waiters_.AddWaiter(op);
      issued := issued + 1;
    }

    /** With threads, the call links itself first and tests then; having found a unit it unlinks itself,
        and the ring is the one it found. */
    method Acquire() returns (r: Outcome)
      requires Valid()
      modifies this`count_, this`issued, this`log, waiters_, waiters_.root, waiters_.waiting
      ensures Valid() && State() == Spec.Acquire(old(State()), enabled)
      ensures fresh(Repr() - old(Repr()))
      ensures r.Acquired? <==> old(count_) > 0
      ensures if r.Blocked? then fresh(r.op) && waiters_.waiting == old(waiters_.waiting) + [r.op]
              else waiters_.waiting == old(waiters_.waiting)
      ensures match r
              case Acquired => log == old(log) + [Entry(old(issued), Success)]
              case Busy => log == old(log) + [Entry(old(issued), InProgress)]
              case Blocked(op) => log == old(log) && op.id == old(issued)
      ensures count_ == if r.Acquired? then old(count_) - 1 else old(count_)
      ensures r.Blocked? ==> enabled
      ensures r.Busy? ==> !enabled
    {
      hide IsRing, AllWaiting, AllEnded, Numbered, AllBelow, Serials;
      if !enabled {
        var ok := TryAcquire();
        if ok {
          return Acquired;
        }
        Reply(InProgress);
        return Busy;
      }
      var op := new Node(issued);
      waiters_.AddWaiter(op);
      if count_ > 0 {
        var left := Decrement();
        waiters_.TakeBack(op);
        Reply(Success);
        return Acquired;
      }
      issued := issued + 1;
      return Blocked(op);
    }

    method Release()
      requires Valid()
      modifies this`count_, this`log, this`released, waiters_, waiters_.root, waiters_.waiting
      ensures Valid() && State() == Spec.Release(old(State()))
      ensures var w := old(waiters_.waiting);
              if w == [] then waiters_.waiting == [] else w[0].wait == Ended(Success) && waiters_.waiting == w[1..]
      ensures var w := old(waiters_.waiting);
              && count_ == old(count_) + (if w == [] then 1 else 0)
              && log == old(log) + if w == [] then [] else [Entry(w[0].id, Success)]
    {
      hide IsRing, AllWaiting, AllEnded, Numbered, AllBelow, Serials;
      released := released + 1;
      count_ := count_ + 1;
      var empty := waiters_.IsEmpty();
      if empty {
        return;
      }
      var left := Decrement();
      var e := waiters_.CompleteFront(Success);
      log := log + [e];
    }

    /** The count less the length of the ring, which is walked to find it. */
    method Value() returns (v: int)
      requires Valid()
      ensures v == Spec.Value(State())
    {
      hide IsRing, AllWaiting, AllEnded, Numbered, AllBelow, Serials;
      var empty := waiters_.IsEmpty();
      if empty {
        return count_;
      }
      var sz := waiters_.Size();
      return count_ - sz;
    }

    /** The cancellation slot of a waiting operation fires. */
    method Cancel(op: Node)
      requires Valid() && op in waiters_.waiting
      modifies this`log, waiters_, waiters_.root, waiters_.waiting
      ensures Valid() && State() == Spec.Apply(old(State()), Spec.CancelStep(op.id)) && Repr() <= old(Repr())
      ensures var w, v := waiters_.waiting, old(waiters_.waiting);
              forall i {:trigger w[i]} :: 0 <= i < |w| ==> w[i] in v
      ensures op.wait == Ended(Aborted)
      ensures log == old(log) + [Entry(op.id, Aborted)] && count_ == old(count_)
    {
      hide IsRing, AllWaiting, AllEnded, Numbered, AllBelow, Serials;
      var e := waiters_.Abort(op);
      log := log + [e];
    }

    /** Called by the service when it shuts down: the ring is moved to a local holder and dropped there. */
    method Shutdown() returns (dropped: seq<Entry>)
      requires Valid()
      modifies this`log, waiters_, waiters_.root, waiters_.waiting
      ensures Valid() && State() == Spec.Apply(old(State()), Spec.ShutdownStep)
      ensures waiters_.waiting == [] && dropped == Posted(old(waiters_.Queue()), ShutDown)
      ensures AllEnded(old(waiters_.waiting), ShutDown)
      ensures log == old(log) + dropped
    {
      hide IsRing, AllWaiting, AllEnded, Numbered, AllBelow, Serials;
      var w := new Holder.Move(waiters_);
      dropped := w.Shutdown();
      log := log + dropped;
    }

    method Destroy()
      requires Valid()
      modifies this`log, waiters_, waiters_.root, waiters_.waiting
      ensures Valid() && State() == Spec.Apply(old(State()), Spec.DestroyStep)
      ensures AllEnded(old(waiters_.waiting), Aborted) && waiters_.waiting == []
      ensures log == old(log) + Posted(old(waiters_.Queue()), Aborted)
    {
      hide IsRing, AllWaiting, AllEnded, Numbered, AllBelow, Serials;
      var posted := waiters_.Destroy();
      log := log + posted;
    }
  }
}
