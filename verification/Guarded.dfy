/** What `guarded` uses of the object that guards: a semaphore or a mutex. */
module Guards {
  import opened Ledgers
  import opened Rings
  import opened Holders
  import opened Mutexes
  import opened Semaphores
  import Spec = GuardedSpec

  datatype Sync = BySemaphore(sm: Semaphore) | ByMutex(mt: Mutex)

  ghost function Handles(sync: Sync): set<object> {
    match sync
    case BySemaphore(sm) => {sm, sm.waiters_}
    case ByMutex(mt) => {mt, mt.waiters_}
  }

  ghost function Repr(sync: Sync): (r: set<object>)
    reads Handles(sync)
    ensures Handles(sync) <= r
  {
    match sync
    case BySemaphore(sm) => sm.Repr()
    case ByMutex(mt) => mt.Repr()
  }

  ghost predicate Valid(sync: Sync)
    reads Handles(sync), Repr(sync)
  {
    match sync
    case BySemaphore(sm) => sm.Valid()
    case ByMutex(mt) => mt.Valid()
  }

  ghost function Guard(sync: Sync): Spec.Guard
    reads Handles(sync)
  {
    match sync
    case BySemaphore(sm) => Spec.BySemaphore(sm.State())
    case ByMutex(mt) => Spec.ByMutex(mt.State())
  }

  ghost function Queued(sync: Sync): seq<Node>
    reads Handles(sync)
  {
    match sync
    case BySemaphore(sm) => sm.waiters_.waiting
    case ByMutex(mt) => mt.waiters_.waiting
  }

  /** `try_acquire` or `try_lock`. */
  method TryTake(sync: Sync) returns (ok: bool)
    requires Valid(sync)
    modifies Repr(sync)
    ensures Valid(sync) && Repr(sync) == old(Repr(sync))
    ensures Guard(sync) == Spec.TryTake(old(Guard(sync))) && ok == (Spec.Free(old(Guard(sync))) > 0)
  {
    hide IsRing, AllWaiting, Numbered, AllBelow;
    match sync
    case BySemaphore(sm) => ok := sm.TryAcquire();
    case ByMutex(mt) => ok := mt.TryLock();
  }

  /** `async_acquire` or `async_lock`. */
  method AsyncTake(sync: Sync)
    requires Valid(sync)
    modifies Repr(sync)
    ensures Valid(sync) && fresh(Repr(sync) - old(Repr(sync)))
    ensures Guard(sync) == Spec.AsyncTake(old(Guard(sync)))
  {
    hide IsRing, AllWaiting, Numbered, AllBelow;
    match sync
    case BySemaphore(sm) => sm.AsyncAcquire();
    case ByMutex(mt) => mt.AsyncLock();
  }

  /** `release` or `unlock`. */
  method GiveBack(sync: Sync)
    requires Valid(sync)
    modifies Repr(sync)
    ensures Valid(sync) && Repr(sync) <= old(Repr(sync))
    ensures Guard(sync) == Spec.GiveBack(old(Guard(sync)))
  {
    hide IsRing, AllWaiting, Numbered, AllBelow;
    match sync
    case BySemaphore(sm) => sm.Release();
    case ByMutex(mt) => mt.Unlock();
  }

  method CancelWait(sync: Sync, op: Node)
    requires Valid(sync) && op in Queued(sync)
    modifies Repr(sync)
    ensures Valid(sync) && Repr(sync) <= old(Repr(sync))
    ensures Guard(sync) == Spec.CancelWait(old(Guard(sync)), op.id) && op.wait == Ended(Aborted)
  {
    hide IsRing, AllWaiting, Numbered, AllBelow;
    match sync
    case BySemaphore(sm) => sm.Cancel(op);
    case ByMutex(mt) => mt.Cancel(op);
  }

  lemma QueuedIds(sync: Sync, op: Node)
    requires op in Queued(sync)
    ensures op.id in Spec.Line(Guard(sync)).queue
  {
    var s := Queued(sync);
    var i :| 0 <= i < |s| && s[i] == op;
    assert Serials(s)[i] == op.id;
  }
}

/** The operations composed by `guarded`, on the object that guards them. */
module GuardedOps {
  import opened Ledgers
  import opened Rings
  import opened Guards
  import opened Semaphores
  import Spec = GuardedSpec

  /** All the operations guarded by one object. */
  class Guarded {
    const sync: Sync
    var outcomes: seq<Spec.Outcome>

    // Where the operations are that have not completed.
    ghost var begun: nat
    ghost var trying: nat
    ghost var started: set<nat>
    ghost var ran: set<nat>
    ghost var turned: set<nat>

    ghost predicate Valid()
      reads this, Handles(sync), Repr(sync)
    {
      Guards.Valid(sync) && this !in Repr(sync)
    }

    ghost function State(): Spec.State
      reads this, Handles(sync)
    {
      Spec.State(Guard(sync), begun, trying, started, ran, turned, outcomes)
    }

    constructor (sync: Sync)
      requires Guards.Valid(sync)
      ensures Valid() && this.sync == sync && State() == Spec.Initial(Guard(sync))
    {
      this.sync := sync;
      outcomes := [];
      begun, trying, started, ran, turned := 0, 0, {}, {}, {};
    }

    /** The initiation, up to its first critical section: an operation that is cancelled already is refused,
        one that gets a unit starts its inner operation, any other has to ask for a unit. */
    method Begin(cancelled: bool) returns (run: bool, ask: bool)
      requires Valid()
      modifies this, Repr(sync)
      ensures Valid() && State() == Spec.Apply(old(State()), Spec.BeginStep(cancelled))
      ensures run == (!cancelled && Spec.Free(old(Guard(sync))) > 0)
      ensures ask == (!cancelled && Spec.Free(old(Guard(sync))) <= 0)
      ensures Repr(sync) == old(Repr(sync))
    {
      hide Guards.Valid, Handles, Repr, Guard;
      begun := begun + 1;
      run, ask := false, false;
      if cancelled {
        outcomes := outcomes + [Spec.Refused];
        return;
      }
      ghost var id := Spec.Line(Guard(sync)).issued;
      run := TryTake(sync);
      ask := !run;
      if run {
        started := started + {id};
      } else {
        trying := trying + 1;
      }
    }

    /** The rest of the initiation: an asynchronous request, whose handler is the operation itself. */
    method Ask()
      requires Valid() && trying > 0
      modifies this, Repr(sync)
      ensures Valid() && State() == Spec.Apply(old(State()), Spec.AskStep)
      ensures fresh(Repr(sync) - old(Repr(sync)))
    {
      hide Guards.Valid, Handles, Repr, Guard, Spec.AsyncTake;
      AsyncTake(sync);
      assert Handles(sync) <= Repr(sync);
      trying := trying - 1;
    }

    /** The whole initiation, when nobody comes between its critical sections. */
    method Init(cancelled: bool) returns (run: bool)
      requires Valid()
      modifies this, Repr(sync)
      ensures Valid() && fresh(Repr(sync) - old(Repr(sync)))
      ensures var s := Spec.Apply(old(State()), Spec.BeginStep(cancelled));
              State() == if cancelled || run then s else Spec.Apply(s, Spec.AskStep)
      ensures run == (!cancelled && Spec.Free(old(Guard(sync))) > 0)
    {
      var ask;
      run, ask := Begin(cancelled);
      if ask { Ask(); }
    }

    /** The handler of the request: an error ends the operation, success starts its inner operation. */
    method Resume(id: nat, ec: Ec) returns (run: bool)
      requires Valid() && Spec.Enabled(State(), Spec.ResumeStep(id, ec))
      modifies this
      ensures Valid() && State() == Spec.Apply(old(State()), Spec.ResumeStep(id, ec)) && run == ec.Success?
    {
      hide Guards.Valid, Handles, Repr, Guard;
      if !ec.Success? {
        outcomes := outcomes + [Spec.Turned(id, ec)];
        turned := turned + {id};
        run := false;
      } else {
        started := started + {id};
        run := true;
      }
    }

    /** The handler of the inner operation: the unit goes back first, then the operation completes. */
    method Finish(id: nat, result: int)
      requires Valid() && Spec.Enabled(State(), Spec.FinishStep(id, result))
      modifies this, Repr(sync)
      ensures Valid() && State() == Spec.Apply(old(State()), Spec.FinishStep(id, result))
      ensures Repr(sync) <= old(Repr(sync))
    {
      hide Guards.Valid, Handles, Repr, Guard, Spec.GiveBack;
      GiveBack(sync);
      outcomes := outcomes + [Spec.Ran(id, result)];
      ran := ran + {id};
    }

    /** The cancellation slot of a waiting operation fires. */
    method Cancel(op: Node)
      requires Valid() && op in Queued(sync)
      modifies this, Repr(sync)
      ensures Valid() && State() == Spec.Apply(old(State()), Spec.CancelStep(op.id)) && op.wait == Ended(Aborted)
      ensures Repr(sync) <= old(Repr(sync))
    {
      hide Guards.Valid, Handles, Repr, Guard, Spec.CancelWait, Queued;
      QueuedIds(sync, op);
      CancelWait(sync, op);
    }
  }

  const ALONE := Spec.Initial(Spec.BySemaphore(Spec.S.Initial(1)))

  /** Two operations guarded by a semaphore of one: one runs, the other waits. */
  const OCCUPIED := Spec.State(Spec.BySemaphore(Spec.S.State(0, Ledger(2, [1], [Entry(0, Success)]), 0)),
                               2, 0, {0}, {}, {}, [])

  lemma OneRunsOneWaits()
    ensures Spec.Free(ALONE.guard) > 0
    ensures var s := Spec.Apply(ALONE, Spec.BeginStep(false));
            Spec.Free(s.guard) <= 0 && Spec.Apply(Spec.Apply(s, Spec.BeginStep(false)), Spec.AskStep) == OCCUPIED
  {
    var s := Spec.Apply(ALONE, Spec.BeginStep(false));
    assert Spec.Line(s.guard) == Ledger(1, [], [Entry(0, Success)]) && s.started == {0};
    var t := Spec.Apply(s, Spec.BeginStep(false));
    assert t == s.(begun := 2, trying := 1);
    assert Spec.AsyncTake(t.guard) == OCCUPIED.guard;
    assert Spec.Apply(t, Spec.AskStep) == OCCUPIED;
  }

  lemma ThenTheOther(x: int, y: int)
    ensures Spec.Enabled(OCCUPIED, Spec.FinishStep(0, x))
    ensures var s := Spec.Apply(OCCUPIED, Spec.FinishStep(0, x));
            var t := Spec.Apply(s, Spec.ResumeStep(1, Success));
            var u := Spec.Apply(t, Spec.FinishStep(1, y));
            && Spec.Enabled(s, Spec.ResumeStep(1, Success)) && Spec.Enabled(t, Spec.FinishStep(1, y))
            && u.outcomes == [Spec.Ran(0, x), Spec.Ran(1, y)]
            && Spec.Free(u.guard) == 1 && Spec.Line(u.guard).queue == []
  {
    var s := Spec.Apply(OCCUPIED, Spec.FinishStep(0, x));
    assert Spec.Line(s.guard) == Ledger(2, [], [Entry(0, Success), Entry(1, Success)]);
    assert Entry(1, Success) in Spec.Line(s.guard).log;
  }

  /** Two operations guarded by one semaphore of one: the second waits, runs after the first, and each
      completes once, with its own result. */
  method OneAfterTheOther(x: int, y: int) returns (g: Guarded)
    ensures g.Valid() && g.outcomes == [Spec.Ran(0, x), Spec.Ran(1, y)]
    ensures Spec.Free(g.State().guard) == 1 && Spec.Line(g.State().guard).queue == []
  {
    hide Spec.Apply, Spec.Enabled, Spec.Free, Spec.Line, Spec.Initial, Spec.S.Initial;
    OneRunsOneWaits();
    ThenTheOther(x, y);
    var sm := new Semaphore(true, 1);
    g := new Guarded(BySemaphore(sm));
    var first := g.Init(false);
    var second := g.Init(false);
    g.Finish(0, x);
    second := g.Resume(1, Success);
    g.Finish(1, y);
  }
}
