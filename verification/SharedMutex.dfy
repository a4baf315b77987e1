/** The shared mutex on its two rings. */
module SharedMutexes {
  import opened Ledgers
  import opened Rings
  import opened Holders
  import Spec = SharedMutexSpec

  /** Outside the lock two local rings are dropped, one after the other. */
  method DropRings(w: Holder, s: Holder) returns (dropped: seq<Entry>, droppedShared: seq<Entry>)
    requires w.Valid() && s.Valid() && Apart(w, s)
    modifies w, w.root, w.waiting, s, s.root, s.waiting
    ensures dropped == Posted(old(w.Queue()), ShutDown) && droppedShared == Posted(old(s.Queue()), ShutDown)
    ensures AllEnded(old(w.waiting), ShutDown) && AllEnded(old(s.waiting), ShutDown)
  {
    hide IsRing, AllWaiting, AllEnded, Numbered, AllBelow, Serials, Posted;
    dropped := w.Shutdown();
    droppedShared := s.Shutdown();
  }

  class SharedMutex {
    const enabled: bool
    const base: Node
    var service: bool
    var locked_: bool
    var locked_shared_: nat
    const waiters_: Holder
    const shared_waiters_: Holder

    // Serial numbers of the next requests, exclusive and shared, and what was delivered so far.
    var issued: nat
    var log: seq<Entry>
    var issuedShared: nat
    var logShared: seq<Entry>

    ghost var released: nat
    ghost var releasedShared: nat

    ghost predicate Valid()
      reads this, waiters_, waiters_.root, waiters_.waiting
      reads shared_waiters_, shared_waiters_.root, shared_waiters_.waiting
    {
      && waiters_.Valid() && waiters_.Below(issued)
      && shared_waiters_.Valid() && shared_waiters_.Below(issuedShared)
      && Apart(waiters_, shared_waiters_)
    }

    ghost function State(): Spec.State
      reads this, waiters_, shared_waiters_
    {
      Spec.State(locked_, locked_shared_, Ledger(issued, waiters_.Queue(), log),
                 Ledger(issuedShared, shared_waiters_.Queue(), logShared), released, releasedShared)
    }

    ghost function Repr(): set<object>
      reads this, waiters_, shared_waiters_
    {
      {this} + {waiters_} + waiters_.Repr() + {shared_waiters_} + shared_waiters_.Repr()
    }

    constructor (enabled: bool)
      ensures Valid() && fresh(Repr()) && fresh(base) && base !in Repr() && State() == Spec.INITIAL
      ensures this.enabled == enabled && service
      ensures fresh(waiters_) && fresh(waiters_.root) && waiters_.waiting == []
      ensures fresh(shared_waiters_) && fresh(shared_waiters_.root) && shared_waiters_.waiting == []
    {
      hide IsRing, AllWaiting, AllEnded, Numbered, AllBelow, Serials, Repr;
      this.enabled := enabled;
      base := new Node(0);
      service := true;
      locked_, locked_shared_ := false, 0;
      waiters_ := new Holder();
      shared_waiters_ := new Holder();
      issued, log, issuedShared, logShared := 0, [], 0, [];
      released, releasedShared := 0, 0;
      new;
      ReprWhenEmpty();
    }

    /** Move construction takes over both rings.  The source is left unlocked, but it keeps its count of
        readers. */
    constructor Move(mi: SharedMutex)
      requires mi.Valid()
      modifies mi`locked_, mi`issued, mi`log, mi`released, mi.waiters_, mi.waiters_.root, mi.waiters_.waiting
      modifies mi`issuedShared, mi`logShared, mi`releasedShared
      modifies mi.shared_waiters_, mi.shared_waiters_.root, mi.shared_waiters_.waiting
      ensures Valid() && State() == old(mi.State())
      ensures mi.Valid() && mi.State() == Spec.INITIAL.(shared := old(mi.State()).shared)
      ensures waiters_.waiting == old(mi.waiters_.waiting)
      ensures shared_waiters_.waiting == old(mi.shared_waiters_.waiting)
      ensures fresh(this) && fresh(base) && enabled == mi.enabled && service == mi.service
      ensures fresh(waiters_) && fresh(waiters_.root) && fresh(shared_waiters_) && fresh(shared_waiters_.root)
      ensures mi.waiters_.waiting == [] && mi.shared_waiters_.waiting == [] && base !in Repr()
      ensures Apart(waiters_, mi.waiters_) && Apart(waiters_, mi.shared_waiters_)
      ensures Apart(shared_waiters_, mi.waiters_) && Apart(shared_waiters_, mi.shared_waiters_)
    {
      hide IsRing, AllWaiting, AllEnded, Numbered, AllBelow, Serials, Apart, Repr;
      enabled := mi.enabled;
      var hook := new Node(0);
      ghost var s0, s1 := mi.waiters_.waiting, mi.shared_waiters_.waiting;
      assert forall i {:trigger s0[i]} :: 0 <= i < |s0| ==> s0[i] != hook;
      assert forall i {:trigger s1[i]} :: 0 <= i < |s1| ==> s1[i] != hook;
      base := hook;
      service := mi.service;
      locked_, locked_shared_ := mi.locked_, mi.locked_shared_;
      issued, log, issuedShared, logShared := mi.issued, mi.log, mi.issuedShared, mi.logShared;
      released, releasedShared := mi.released, mi.releasedShared;
      var w, s := mi.Surrender();
      waiters_, shared_waiters_ := w, s;
      new;
      ReprMisses(hook);
    }

    /** Gives both rings away; the flag is cleared, the count of readers is not. */
    method Surrender() returns (w: Holder, s: Holder)
      requires Valid()
      modifies this`locked_, this`issued, this`log, this`released, waiters_, waiters_.root, waiters_.waiting
      modifies this`issuedShared, this`logShared, this`releasedShared
      modifies shared_waiters_, shared_waiters_.root, shared_waiters_.waiting
      ensures Valid() && State() == Spec.INITIAL.(shared := locked_shared_)
      ensures waiters_.waiting == [] && shared_waiters_.waiting == []
      ensures w.Valid() && w.waiting == old(waiters_.waiting) && w.Queue() == old(waiters_.Queue())
      ensures s.Valid() && s.waiting == old(shared_waiters_.waiting) && s.Queue() == old(shared_waiters_.Queue())
      ensures w.Below(old(issued)) && s.Below(old(issuedShared))
      ensures fresh(w) && fresh(w.root) && fresh(s) && fresh(s.root) && Apart(w, s)
      ensures Apart(w, waiters_) && Apart(w, shared_waiters_) && Apart(s, waiters_) && Apart(s, shared_waiters_)
    {
      hide IsRing, AllWaiting, AllEnded, Numbered, AllBelow, Serials, Apart;
      w, s := TakeRings();
      Abandon();
    }

    lemma ReprWhenEmpty()
      requires waiters_.waiting == [] && shared_waiters_.waiting == []
      ensures Repr() == {this, waiters_, waiters_.root, shared_waiters_, shared_waiters_.root}
    {
    }

    lemma ReprMisses(n: Node)
      requires n != waiters_.root && n != shared_waiters_.root
      requires var s := waiters_.waiting; forall i {:trigger s[i]} :: 0 <= i < |s| ==> s[i] != n
      requires var s := shared_waiters_.waiting; forall i {:trigger s[i]} :: 0 <= i < |s| ==> s[i] != n
      ensures n !in Repr()
    {
    }

    /** What moving from a mutex without waiters leaves behind. */
    method Abandon()
      requires Valid() && waiters_.waiting == [] && shared_waiters_.waiting == []
      modifies this`locked_, this`issued, this`log, this`released
      modifies this`issuedShared, this`logShared, this`releasedShared
      ensures Valid() && State() == Spec.INITIAL.(shared := locked_shared_)
    {
      hide IsRing, AllWaiting, AllEnded, Numbered;
      locked_ := false;
      issued, log, issuedShared, logShared := 0, [], 0, [];
      released, releasedShared := 0, 0;
    }

    method Reply(ec: Ec)
      requires Valid()
      modifies this`issued, this`log
      ensures Valid() && State() == old(State()).(writers := Answer(old(State()).writers, ec))
    {
      hide IsRing, AllWaiting, AllEnded, Numbered, Serials;
      log, issued := log + [Entry(issued, ec)], issued + 1;
    }

    method ReplyShared(ec: Ec)
      requires Valid()
      modifies this`issuedShared, this`logShared
      ensures Valid() && State() == old(State()).(readers := Answer(old(State()).readers, ec))
    {
      hide IsRing, AllWaiting, AllEnded, Numbered, Serials;
      logShared, issuedShared := logShared + [Entry(issuedShared, ec)], issuedShared + 1;
    }

    // ----- What happens to the rings -----

    /** A new operation at the back of the ring of the writers. */
    method JoinWriters() returns (op: Node)
      requires Valid()
      modifies this`issued, waiters_, waiters_.root, waiters_.waiting
      ensures Valid() && State() == old(State()).(writers := Enqueue(old(State()).writers))
      ensures fresh(op) && op.id == old(issued) && waiters_.waiting == old(waiters_.waiting) + [op]
      ensures AllBelow(old(waiters_.waiting), old(issued))
    {
      hide IsRing, AllWaiting, AllEnded, Numbered, AllBelow, Serials;
      op := new Node(issued);
      waiters_.AddWaiter(op);
      issued := issued + 1;
    }

    /** A new operation at the back of the ring of the readers. */
    method JoinReaders() returns (op: Node)
      requires Valid()
      modifies this`issuedShared, shared_waiters_, shared_waiters_.root, shared_waiters_.waiting
      ensures Valid() && State() == old(State()).(readers := Enqueue(old(State()).readers))
      ensures fresh(op) && op.id == old(issuedShared) && shared_waiters_.waiting == old(shared_waiters_.waiting) + [op]
    {
      hide IsRing, AllWaiting, AllEnded, Numbered, AllBelow, Serials;
      op := new Node(issuedShared);
      shared_waiters_.AddWaiter(op);
      issuedShared := issuedShared + 1;
    }

    /** The operation that has just joined unlinks itself again, and gives its number back. */
    method LeaveAgain(op: Node)
      requires Valid() && issued > 0 && waiters_.waiting != []
      requires var w, n := waiters_.waiting, |waiters_.waiting| - 1; w[n] == op && AllBelow(w[..n], issued - 1)
      modifies this`issued, waiters_, waiters_.root, waiters_.waiting
      ensures Valid() && waiters_.waiting == old(waiters_.waiting)[..|old(waiters_.waiting)| - 1]
      ensures var c := old(State()).writers;
              State() == old(State()).(writers := c.(issued := c.issued - 1, queue := c.queue[..|c.queue| - 1]))
    {
      hide IsRing, AllWaiting, AllEnded, Numbered;
      waiters_.TakeBack(op);
      issued := issued - 1;
    }

    /** The first of the writers' ring is completed. */
    method GrantFront()
      requires Valid() && waiters_.waiting != []
      modifies this`log, waiters_, waiters_.root, waiters_.waiting
      ensures Valid() && State().writers == SettleAt(old(State()).writers, 0, Success)
      ensures State() == old(State()).(writers := State().writers)
      ensures old(waiters_.waiting)[0].wait == Ended(Success) && waiters_.waiting == old(waiters_.waiting)[1..]
    {
      hide IsRing, AllWaiting, AllEnded, Numbered, AllBelow, Serials;
      var e := waiters_.CompleteFront(Success);
      log := log + [e];
    }

    // ----- The exclusive side -----

    method TryLock() returns (ok: bool)
      requires Valid()
      modifies this`locked_, this`issued, this`log
      ensures Valid() && State() == Spec.TryLock(old(State())) && ok == Spec.Free(old(State()))
      ensures if ok then locked_ && log == old(log) + [Entry(old(issued), Success)] else State() == old(State())
    {
      hide IsRing, AllWaiting, AllEnded, Numbered, AllBelow, Apart, Serials;
      if locked_ || locked_shared_ > 0 {
        ok := false;
      } else {
        locked_ := true;
        Reply(Success);
        ok := true;
      }
    }

    method AsyncLock()
      requires Valid()
      modifies this`locked_, this`issued, this`log, waiters_, waiters_.root, waiters_.waiting
      ensures Valid() && State() == Spec.AsyncLock(old(State()))
      ensures fresh(Repr() - old(Repr()))
      ensures var w, v := waiters_.waiting, old(waiters_.waiting);
              forall i {:trigger w[i]} :: 0 <= i < |w| ==> fresh(w[i]) || (i < |v| && w[i] == v[i])
      ensures var v, w := old(waiters_.waiting), waiters_.waiting;
              if !Spec.Free(old(State())) then log == old(log) && Joined(v, w, old(issued)) && fresh(w[|v|])
              else log == old(log) + [Entry(old(issued), Success)] && w == v
    {
      hide IsRing, AllWaiting, AllEnded, Numbered, AllBelow, Apart, Serials;
      if !locked_ && locked_shared_ == 0 {
        locked_ := true;
        Reply(Success);
        return;
      }
      var op := JoinWriters();
    }

    method Lock() returns (r: Outcome)
      requires Valid()
      modifies this`locked_, this`issued, this`log, waiters_, waiters_.root, waiters_.waiting
      ensures Valid() && State() == Spec.Lock(old(State()), enabled)
      ensures fresh(Repr() - old(Repr()))
      ensures r.Acquired? <==> Spec.Free(old(State()))
      ensures if r.Blocked? then fresh(r.op) && waiters_.waiting == old(waiters_.waiting) + [r.op]
              else waiters_.waiting == old(waiters_.waiting)
      ensures match r
              case Acquired => log == old(log) + [Entry(old(issued), Success)]
              case Busy => log == old(log) + [Entry(old(issued), InProgress)]
              case Blocked(op) => log == old(log) && op.id == old(issued)
      ensures r.Blocked? ==> enabled
      ensures r.Busy? ==> !enabled
    {
      hide IsRing, AllWaiting, AllEnded, Numbered, AllBelow, Apart, Serials;
      if !enabled {
        var ok := TryLock();
        if ok {
          return Acquired;
        }
        Reply(InProgress);
        return Busy;
      }
      var op := JoinWriters();
      if !locked_ && locked_shared_ == 0 {
        locked_ := true;
        LeaveAgain(op);
        Reply(Success);
        return Acquired;
      }
      return Blocked(op);
    }

    /** Lets the reader at the front in, the `k`-th of those who waited. */
    method AdmitReader(ghost s: seq<Node>, ghost k: nat)
      requires Valid() && k < |s| && shared_waiters_.waiting == s[k..] && EndedUpto(s, k, Success)
      requires forall i {:trigger s[i]} :: 0 <= i < |s| ==> s[i] != shared_waiters_.root
      modifies this`locked_shared_, this`logShared, shared_waiters_, shared_waiters_.root, shared_waiters_.waiting
      ensures Valid() && locked_shared_ == old(locked_shared_) + 1
      ensures shared_waiters_.waiting == s[k + 1..] && EndedUpto(s, k + 1, Success)
      ensures waiters_.waiting == old(waiters_.waiting)
      ensures logShared + Posted(shared_waiters_.Queue(), Success)
              == old(logShared) + Posted(old(shared_waiters_.Queue()), Success)
    {
      hide IsRing, AllWaiting, AllEnded, Numbered, AllBelow;
      EndedElsewhere(shared_waiters_.waiting, s);
      PostedFront(logShared, shared_waiters_.Queue(), Success);
      hide Posted;
      locked_shared_ := locked_shared_ + 1;
      var e := shared_waiters_.CompleteFront(Success);
      logShared := logShared + [e];
    }

    /** Lets all waiting readers in, one after the other. */
    method AdmitReaders()
      requires Valid()
      modifies this`locked_shared_, this`logShared, shared_waiters_, shared_waiters_.root, shared_waiters_.waiting
      ensures Valid()
      ensures var s := old(State());
              State() == s.(shared := s.shared + |s.readers.queue|, readers := SettleAll(s.readers, Success))
      ensures AllEnded(old(shared_waiters_.waiting), Success) && shared_waiters_.waiting == []
      ensures waiters_.waiting == old(waiters_.waiting)
    {
      hide IsRing, AllWaiting, AllEnded, Numbered, AllBelow, EndedUpto, Apart;
      ghost var s, w, k := State(), shared_waiters_.waiting, 0;
      FrontOf(shared_waiters_.root, w);
      EndedNone(w, Success);
      var empty := shared_waiters_.IsEmpty();
      while !empty
        invariant Valid() && empty == (shared_waiters_.waiting == []) && waiters_.waiting == old(waiters_.waiting)
        invariant locked_shared_ == s.shared + k
        invariant logShared + Posted(shared_waiters_.Queue(), Success)
                  == s.readers.log + Posted(s.readers.queue, Success)
        invariant k <= |w| && shared_waiters_.waiting == w[k..] && EndedUpto(w, k, Success)
        decreases |w| - k
      {
        AdmitReader(w, k);
        k := k + 1;
        empty := shared_waiters_.IsEmpty();
      }
      EndedThrough(w, Success);
    }

    /** Waiting readers go first; only without any is the lock handed to a writer, or set free. */
    method Unlock()
      requires Valid()
      modifies this`locked_, this`locked_shared_, this`log, this`logShared, this`released
      modifies waiters_, waiters_.root, waiters_.waiting
      modifies shared_waiters_, shared_waiters_.root, shared_waiters_.waiting
      ensures Valid() && State() == Spec.Unlock(old(State()))
      ensures var w, r := old(waiters_.waiting), old(shared_waiters_.waiting);
              && shared_waiters_.waiting == []
              && if r != [] then AllEnded(r, Success) && waiters_.waiting == w
                 else if w != [] then w[0].wait == Ended(Success) && waiters_.waiting == w[1..]
                 else waiters_.waiting == []
    {
      hide IsRing, AllWaiting, AllEnded, Numbered, AllBelow, Apart, Serials;
      released := released + 1;
      var noReaders := shared_waiters_.IsEmpty();
      if !noReaders {
        locked_ := false;
        AdmitReaders();
        return;
      }
      var noWriters := waiters_.IsEmpty();
      if noWriters {
        locked_ := false;
        return;
      }
      GrantFront();
    }

    // ----- The shared side -----

    method TryLockShared() returns (ok: bool)
      requires Valid()
      modifies this`locked_shared_, this`issuedShared, this`logShared
      ensures Valid() && State() == Spec.TryLockShared(old(State())) && ok == !locked_
      ensures if ok then
                && locked_shared_ == old(locked_shared_) + 1
                && logShared == old(logShared) + [Entry(old(issuedShared), Success)]
              else State() == old(State())
    {
      hide IsRing, AllWaiting, AllEnded, Numbered, AllBelow, Apart, Serials;
      if locked_ {
        ok := false;
      } else {
        locked_shared_ := locked_shared_ + 1;
        ReplyShared(Success);
        ok := true;
      }
    }

    method AsyncLockShared()
      requires Valid()
      modifies this`locked_shared_, this`issuedShared, this`logShared
      modifies shared_waiters_, shared_waiters_.root, shared_waiters_.waiting
      ensures Valid() && State() == Spec.AsyncLockShared(old(State()))
      ensures fresh(Repr() - old(Repr()))
      ensures var w, v := shared_waiters_.waiting, old(shared_waiters_.waiting);
              forall i {:trigger w[i]} :: 0 <= i < |w| ==> fresh(w[i]) || (i < |v| && w[i] == v[i])
      ensures var v, w := old(shared_waiters_.waiting), shared_waiters_.waiting;
              if locked_ then logShared == old(logShared) && Joined(v, w, old(issuedShared)) && fresh(w[|v|])
              else logShared == old(logShared) + [Entry(old(issuedShared), Success)] && w == v
      ensures locked_shared_ == old(locked_shared_) + (if locked_ then 0 else 1)
    {
      hide IsRing, AllWaiting, AllEnded, Numbered, AllBelow, Serials, Apart;
      if !locked_ {
        locked_shared_ := locked_shared_ + 1;
        ReplyShared(Success);
        return;
      }
      var op := JoinReaders();
    }

    /** With threads, the call links itself into the ring of the writers, and stays there when it blocks. */
    method LockShared() returns (r: Outcome)
      requires Valid()
      modifies this`locked_shared_, this`issued, this`issuedShared, this`logShared
      modifies waiters_, waiters_.root, waiters_.waiting
      ensures Valid() && State() == Spec.LockShared(old(State()), enabled)
      ensures fresh(Repr() - old(Repr()))
      ensures r.Acquired? <==> !locked_
      ensures if r.Blocked? then fresh(r.op) && waiters_.waiting == old(waiters_.waiting) + [r.op]
              else waiters_.waiting == old(waiters_.waiting)
      ensures match r
              case Acquired => locked_shared_ == old(locked_shared_) + 1
                               && logShared == old(logShared) + [Entry(old(issuedShared), Success)]
              case Busy => !enabled && logShared == old(logShared) + [Entry(old(issuedShared), InProgress)]
              case Blocked(op) => enabled && logShared == old(logShared) && op.id == old(issued)
    {
      hide IsRing, AllWaiting, AllEnded, Numbered, AllBelow, Apart, Serials;
      if !enabled {
        var ok := TryLockShared();
        if ok {
          return Acquired;
        }
        ReplyShared(InProgress);
        return Busy;
      }
      var op := JoinWriters();
      if !locked_ {
        locked_shared_ := locked_shared_ + 1;
        LeaveAgain(op);
        ReplyShared(Success);
        return Acquired;
      }
      return Blocked(op);
    }

    method UnlockShared()
      requires Valid()
      modifies this`locked_, this`locked_shared_, this`log, this`releasedShared
      modifies waiters_, waiters_.root, waiters_.waiting
      ensures Valid() && State() == Spec.UnlockShared(old(State()))
      ensures var w := old(waiters_.waiting);
              if w != [] && locked_shared_ == 0 then w[0].wait == Ended(Success) && waiters_.waiting == w[1..]
              else waiters_.waiting == w
    {
      hide IsRing, AllWaiting, AllEnded, Numbered, AllBelow, Apart, Serials;
      releasedShared := releasedShared + 1;
      if locked_shared_ > 0 {
        locked_shared_ := locked_shared_ - 1;
      }
      if locked_shared_ == 0 {
        var noWriters := waiters_.IsEmpty();
        if !noWriters {
          locked_ := true;
          GrantFront();
        }
      }
    }

    // ----- Cancellation and the end -----

    method Cancel(op: Node)
      requires Valid() && op in waiters_.waiting
      modifies this`log, waiters_, waiters_.root, waiters_.waiting
      ensures Valid() && State() == Spec.Apply(old(State()), Spec.CancelStep(op.id)) && Repr() <= old(Repr())
      ensures var w, v := waiters_.waiting, old(waiters_.waiting);
              forall i {:trigger w[i]} :: 0 <= i < |w| ==> w[i] in v
      ensures op.wait == Ended(Aborted)
      ensures log == old(log) + [Entry(op.id, Aborted)]
    {
      hide IsRing, AllWaiting, AllEnded, Numbered, AllBelow, Serials;
      var e := waiters_.Abort(op);
      log := log + [e];
    }

    method CancelShared(op: Node)
      requires Valid() && op in shared_waiters_.waiting
      modifies this`logShared, shared_waiters_, shared_waiters_.root, shared_waiters_.waiting
      ensures Valid() && State() == Spec.Apply(old(State()), Spec.CancelSharedStep(op.id)) && Repr() <= old(Repr())
      ensures var w, v := shared_waiters_.waiting, old(shared_waiters_.waiting);
              forall i {:trigger w[i]} :: 0 <= i < |w| ==> w[i] in v
      ensures op.wait == Ended(Aborted)
      ensures logShared == old(logShared) + [Entry(op.id, Aborted)]
    {
      hide IsRing, AllWaiting, AllEnded, Numbered, AllBelow, Serials;
      var e := shared_waiters_.Abort(op);
      logShared := logShared + [e];
    }

    /** What shutdown does under the lock: both rings are moved to local holders. */
    method TakeRings() returns (w: Holder, s: Holder)
      requires Valid()
      modifies waiters_, waiters_.root, waiters_.waiting
      modifies shared_waiters_, shared_waiters_.root, shared_waiters_.waiting
      ensures Valid() && State().writers.queue == [] && State().readers.queue == []
      ensures w.Valid() && w.waiting == old(waiters_.waiting) && w.Queue() == old(waiters_.Queue())
      ensures s.Valid() && s.waiting == old(shared_waiters_.waiting) && s.Queue() == old(shared_waiters_.Queue())
      ensures waiters_.waiting == [] && shared_waiters_.waiting == []
      ensures waiters_.Below(0) && shared_waiters_.Below(0)
      ensures w.Below(issued) && s.Below(issuedShared)
      ensures fresh(w) && fresh(w.root) && fresh(s) && fresh(s.root) && Apart(w, s)
      ensures Apart(w, waiters_) && Apart(w, shared_waiters_) && Apart(s, waiters_) && Apart(s, shared_waiters_)
    {
      hide IsRing, AllWaiting, AllEnded, Numbered, AllBelow, Serials;
      w := new Holder.Move(waiters_);
      s := new Holder.Move(shared_waiters_);
    }

    /** Outside the lock the two local rings are dropped, writers before readers. */
    method Shutdown() returns (dropped: seq<Entry>, droppedShared: seq<Entry>)
      requires Valid()
      modifies this`log, waiters_, waiters_.root, waiters_.waiting
      modifies this`logShared, shared_waiters_, shared_waiters_.root, shared_waiters_.waiting
      ensures Valid() && State() == Spec.Apply(old(State()), Spec.ShutdownStep)
      ensures waiters_.waiting == [] && dropped == Posted(old(waiters_.Queue()), ShutDown)
      ensures shared_waiters_.waiting == [] && droppedShared == Posted(old(shared_waiters_.Queue()), ShutDown)
      ensures AllEnded(old(waiters_.waiting), ShutDown) && AllEnded(old(shared_waiters_.waiting), ShutDown)
      ensures log == old(log) + dropped && logShared == old(logShared) + droppedShared
    {
      hide IsRing, AllWaiting, AllEnded, Numbered, AllBelow, Serials, Posted;
      var w, s := TakeRings();
      dropped, droppedShared := DropRings(w, s);
      log, logShared := log + dropped, logShared + droppedShared;
    }

    /** The members are destroyed in reverse order of their declaration, readers before writers. */
    method Destroy()
      requires Valid()
      modifies this`log, waiters_, waiters_.root, waiters_.waiting
      modifies this`logShared, shared_waiters_, shared_waiters_.root, shared_waiters_.waiting
      ensures Valid() && State() == Spec.Apply(old(State()), Spec.DestroyStep)
      ensures AllEnded(old(waiters_.waiting), Aborted) && AllEnded(old(shared_waiters_.waiting), Aborted)
      ensures waiters_.waiting == [] && shared_waiters_.waiting == []
      ensures log == old(log) + Posted(old(waiters_.Queue()), Aborted)
      ensures logShared == old(logShared) + Posted(old(shared_waiters_.Queue()), Aborted)
    {
      hide IsRing, AllWaiting, AllEnded, Numbered, AllBelow, Serials;
      var postedShared := shared_waiters_.Destroy();
      var posted := waiters_.Destroy();
      log, logShared := log + posted, logShared + postedShared;
    }
  }

  /** Whatever the state: once a reader has been told it is in, no writer gets in by trying. */
  method ReaderThenWriter(m: SharedMutex) returns (reader: bool, writer: bool)
    requires m.Valid()
    modifies m`locked_, m`locked_shared_, m`issued, m`log, m`issuedShared, m`logShared
    ensures m.Valid() && !(reader && writer) && reader == !old(m.locked_)
    ensures m.State() == Spec.TryLock(Spec.TryLockShared(old(m.State())))
    ensures reader ==> m.locked_shared_ == old(m.locked_shared_) + 1 && !m.locked_
  {
    hide IsRing, AllWaiting, AllEnded, Numbered, AllBelow, Serials, Apart;
    reader := m.TryLockShared();
    writer := m.TryLock();
  }

  /** A writer who tries is kept out while the reader is inside, and let in when it has left. */
  method WriterAfterReader() returns (reader: bool, during: bool, after: bool)
    ensures reader && !during && after
  {
    hide IsRing, AllWaiting, AllEnded, Numbered, AllBelow, Apart;
    var m := new SharedMutex(true);
    assert Spec.TryLock(Spec.TryLockShared(Spec.INITIAL)) == Spec.GrantReader(Spec.INITIAL);
    reader, during := ReaderThenWriter(m);
    m.UnlockShared();
    after := m.TryLock();
  }
}
