/** The mutex on its ring. */
module Mutexes {
  import opened Ledgers
  import opened Rings
  import opened Holders
  import Spec = MutexSpec

  class Mutex {
    const enabled: bool
    const base: Node
    var service: bool
    var locked_: bool
    const waiters_: Holder

    // Serial number of the next request, and what was delivered so far.
    var issued: nat
    var log: seq<Entry>

    ghost var released: nat

    ghost predicate Valid()
      reads this, waiters_, waiters_.root, waiters_.waiting
    {
      waiters_.Valid() && waiters_.Below(issued)
    }

    ghost function State(): Spec.State
      reads this, waiters_
    {
      Spec.State(locked_, Ledger(issued, waiters_.Queue(), log), released)
    }

    ghost function Repr(): set<object>
      reads this, waiters_
    {
      {this} + {waiters_} + waiters_.Repr()
    }

    constructor (enabled: bool)
      ensures Valid() && fresh(Repr()) && fresh(base) && base !in Repr() && State() == Spec.INITIAL
      ensures this.enabled == enabled && service
      ensures fresh(waiters_) && fresh(waiters_.root) && waiters_.waiting == []
    {
      hide IsRing, AllWaiting, AllEnded, Numbered, AllBelow, Serials;
      this.enabled := enabled;
      base := new Node(0);
      service := true;
      locked_ := false;
      waiters_ := new Holder();
      issued, log, released := 0, [], 0;
    }

    /** Move construction takes over the waiters; the source is left a free mutex with an empty ring. */
    constructor Move(mi: Mutex)
      requires mi.Valid()
      modifies mi`locked_, mi`issued, mi`log, mi`released, mi.waiters_, mi.waiters_.root, mi.waiters_.waiting
      ensures Valid() && State() == old(mi.State()) && waiters_.waiting == old(mi.waiters_.waiting)
      ensures mi.Valid() && mi.State() == Spec.INITIAL
      ensures fresh(this) && fresh(waiters_) && fresh(base) && enabled == mi.enabled && service == mi.service
      ensures fresh(waiters_.root) && Apart(waiters_, mi.waiters_) && mi.waiters_.waiting == [] && base !in Repr()
    {
      hide IsRing, AllWaiting, AllEnded, Numbered, AllBelow, Serials;
      enabled := mi.enabled;
      base := new Node(0);
      service := mi.service;
      locked_ := mi.locked_;
      waiters_ := new Holder.Move(mi.waiters_);
      issued, log, released := mi.issued, mi.log, mi.released;
      new;
      mi.locked_ := false;
      mi.issued, mi.log, mi.released := 0, [], 0;
    }

    /** The request gets its answer at once. */
    method Reply(ec: Ec)
      requires Valid()
      modifies this`issued, this`log
      ensures Valid() && State() == old(State()).(line := Answer(old(State()).line, ec))
    {
      hide IsRing, AllWaiting, AllEnded, Numbered, Serials;
      log, issued := log + [Entry(issued, ec)], issued + 1;
    }

    method TryLock() returns (ok: bool)
      requires Valid()
      modifies this`locked_, this`issued, this`log
      ensures Valid() && State() == Spec.TryLock(old(State())) && ok == !old(locked_)
      ensures if ok then locked_ && log == old(log) + [Entry(old(issued), Success)] else State() == old(State())
    {
      hide IsRing, AllWaiting, AllEnded, Numbered, AllBelow, Serials;
      if locked_ {
        ok := false;
      } else {
        locked_ := true;
        Reply(Success);
        ok := true;
      }
    }

    method AsyncLock()
      requires Valid()
      modifies this`locked_, this`issued, this`log, waiters_, waiters_.root, waiters_.waiting
      ensures Valid() && State() == Spec.AsyncLock(old(State()))
      ensures fresh(Repr() - old(Repr()))
      ensures var w, v := waiters_.waiting, old(waiters_.waiting);
              forall i {:trigger w[i]} :: 0 <= i < |w| ==> fresh(w[i]) || (i < |v| && w[i] == v[i])
      ensures var v, w := old(waiters_.waiting), waiters_.waiting;
              if old(locked_) then log == old(log) && Joined(v, w, old(issued)) && fresh(w[|v|])
              else log == old(log) + [Entry(old(issued), Success)] && w == v
      ensures locked_
    {
      hide IsRing, AllWaiting, AllEnded, Numbered, AllBelow, Serials;
      if !locked_ {
        locked_ := true;
        Reply(Success);
        return;
      }
      var op := new Node(issued);
      waiters_.AddWaiter(op);
      issued := issued + 1;
    }

    /** With threads, the call links itself first and tests then; having found the lock free it unlinks
        itself, and the ring is the one it found. */
    method Lock() returns (r: Outcome)
      requires Valid()
      modifies this`locked_, this`issued, this`log, waiters_, waiters_.root, waiters_.waiting
      ensures Valid() && State() == Spec.Lock(old(State()), enabled)
      ensures fresh(Repr() - old(Repr()))
      ensures r.Acquired? <==> !old(locked_)
      ensures if r.Blocked? then fresh(r.op) && waiters_.waiting == old(waiters_.waiting) + [r.op]
              else waiters_.waiting == old(waiters_.waiting)
      ensures match r
              case Acquired => log == old(log) + [Entry(old(issued), Success)]
              case Busy => log == old(log) + [Entry(old(issued), InProgress)]
              case Blocked(op) => log == old(log) && op.id == old(issued)
      ensures r.Blocked? ==> enabled
      ensures r.Busy? ==> !enabled
      ensures locked_
    {
      hide IsRing, AllWaiting, AllEnded, Numbered, AllBelow, Serials;
      if !enabled {
        var ok := TryLock();
        if ok {
          return Acquired;
        }
        Reply(InProgress);
        return Busy;
      }
      var op := new Node(issued);
      waiters_.AddWaiter(op);
      if !locked_ {
        locked_ := true;
        waiters_.TakeBack(op);
        Reply(Success);
        return Acquired;
      }
      issued := issued + 1;
      return Blocked(op);
    }

    method Unlock()
      requires Valid()
      modifies this`locked_, this`log, this`released, waiters_, waiters_.root, waiters_.waiting
      ensures Valid() && State() == Spec.Unlock(old(State()))
      ensures var w := old(waiters_.waiting);
              if w == [] then waiters_.waiting == [] else w[0].wait == Ended(Success) && waiters_.waiting == w[1..]
      ensures var w := old(waiters_.waiting); log == old(log) + if w == [] then [] else [Entry(w[0].id, Success)]
    {
      hide IsRing, AllWaiting, AllEnded, Numbered, AllBelow, Serials;
      released := released + 1;
      var empty := waiters_.IsEmpty();
      if empty {
        locked_ := false;
        return;
      }
      var e := waiters_.CompleteFront(Success);
      log := log + [e];
    }

    /** The cancellation slot of a waiting operation fires. */
    method Cancel(op: Node)
      requires Valid() && op in waiters_.waiting
      modifies this`log, waiters_, waiters_.root, waiters_.waiting
      ensures Valid() && State() == Spec.Apply(old(State()), Spec.CancelStep(op.id)) && Repr() <= old(Repr())
      ensures var w, v := waiters_.waiting, old(waiters_.waiting);
              forall i {:trigger w[i]} :: 0 <= i < |w| ==> w[i] in v
      ensures op.wait == Ended(Aborted)
      ensures log == old(log) + [Entry(op.id, Aborted)]
    {
      hide IsRing, AllWaiting, AllEnded, Numbered, AllBelow, Serials;
      var e := waiters_.Abort(op);
      log := log + [e];
    }

    /** Called by the service when it shuts down: the ring is moved to a local holder and dropped there. */
    method Shutdown() returns (dropped: seq<Entry>)
      requires Valid()
      modifies this`log, waiters_, waiters_.root, waiters_.waiting
      ensures Valid() && State() == Spec.Apply(old(State()), Spec.ShutdownStep)
      ensures waiters_.waiting == [] && dropped == Posted(old(waiters_.Queue()), ShutDown)
      ensures AllEnded(old(waiters_.waiting), ShutDown)
      ensures log == old(log) + dropped
    {
      hide IsRing, AllWaiting, AllEnded, Numbered, AllBelow, Serials;
      var w := new Holder.Move(waiters_);
      dropped := w.Shutdown();
      log := log + dropped;
    }

    method Destroy()
      requires Valid()
      modifies this`log, waiters_, waiters_.root, waiters_.waiting
      ensures Valid() && State() == Spec.Apply(old(State()), Spec.DestroyStep)
      ensures AllEnded(old(waiters_.waiting), Aborted) && waiters_.waiting == []
      ensures log == old(log) + Posted(old(waiters_.Queue()), Aborted)
    {
      hide IsRing, AllWaiting, AllEnded, Numbered, AllBelow, Serials;
      var posted := waiters_.Destroy();
      log := log + posted;
    }
  }

  /** One unlock, the `k`-th since `s` waited. */
  method GrantNext(m: Mutex, ghost s: seq<Node>, ghost k: nat)
    requires m.Valid() && k < |s| && m.waiters_.waiting == s[k..] && EndedUpto(s, k, Success)
    requires forall i {:trigger s[i]} :: 0 <= i < |s| ==> s[i] != m.waiters_.root
    modifies m`locked_, m`log, m`released, m.waiters_, m.waiters_.root, m.waiters_.waiting
    ensures m.Valid() && m.waiters_.waiting == s[k + 1..] && EndedUpto(s, k + 1, Success)
    ensures m.released == old(m.released) + 1 && m.locked_ == old(m.locked_) && m.issued == old(m.issued)
    ensures m.log + Posted(m.waiters_.Queue(), Success) == old(m.log) + Posted(old(m.waiters_.Queue()), Success)
  {
    hide IsRing, AllWaiting, Numbered, AllBelow;
    EndedElsewhere(m.waiters_.waiting, s);
    PostedFront(m.log, m.waiters_.Queue(), Success);
    hide Posted;
    m.Unlock();
  }

  /** Unlocking as often as somebody waits grants the waiters one after the other, in order. */
  method Drain(m: Mutex)
    requires m.Valid()
    modifies m`locked_, m`log, m`released, m.waiters_, m.waiters_.root, m.waiters_.waiting
    ensures m.Valid() && m.waiters_.waiting == []
    ensures m.State().line == SettleAll(old(m.State()).line, Success)
    ensures AllEnded(old(m.waiters_.waiting), Success)
    ensures m.released == old(m.released) + |old(m.waiters_.waiting)| && m.locked_ == old(m.locked_)
  {
    hide IsRing, AllWaiting, AllEnded, Numbered, AllBelow, EndedUpto;
    ghost var s, w, k := m.State().line, m.waiters_.waiting, 0;
    FrontOf(m.waiters_.root, w);
    EndedNone(w, Success);
    var empty := m.waiters_.IsEmpty();
    while !empty
      invariant m.Valid() && empty == (m.waiters_.waiting == [])
      invariant k <= |w| && m.waiters_.waiting == w[k..] && EndedUpto(w, k, Success)
      invariant m.released == old(m.released) + k && m.locked_ == old(m.locked_) && m.issued == s.issued
      invariant m.log + Posted(m.waiters_.Queue(), Success) == s.log + Posted(s.queue, Success)
      decreases |w| - k
    {
      GrantNext(m, w, k);
      k := k + 1;
      empty := m.waiters_.IsEmpty();
    }
    EndedThrough(w, Success);
  }

  /** After a move the unlocks of the new mutex grant the waiters of the old one, in the order they came. */
  method MoveAndDrain(mi: Mutex) returns (m: Mutex)
    requires mi.Valid()
    modifies mi`locked_, mi`issued, mi`log, mi`released, mi.waiters_, mi.waiters_.root, mi.waiters_.waiting
    ensures m.Valid() && fresh(m) && m.State().line == SettleAll(old(mi.State()).line, Success)
    ensures AllEnded(old(mi.waiters_.waiting), Success)
    ensures mi.Valid() && mi.State() == Spec.INITIAL
  {
    hide IsRing, AllWaiting, AllEnded, Numbered, AllBelow;
    m := new Mutex.Move(mi);
    Drain(m);
  }
}
