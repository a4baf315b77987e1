/** The shared mutex together with callers who each use the unlock that belongs to the call they made.

    A `lock_shared` that had to block was granted on the exclusive side, but its caller does not know that
    and calls `unlock_shared`.  This module says, over all runs, what the mutex is worth to such callers. */
module SharedMutexCallers {
  import opened Ledgers
  import X = SharedMutexSpec

  /** `borrowed` are the requests in the line of the writers that come from a `lock_shared`. */
  datatype World = World(m: X.State, borrowed: set<nat>)

  const INITIAL := World(X.INITIAL, {})

  function Borrows(w: World, step: X.Step): bool {
    step == X.LockSharedStep(true) && w.m.locked
  }

  function Do(w: World, step: X.Step): World {
    World(X.Apply(w.m, step), if Borrows(w, step) then w.borrowed + {w.m.writers.issued} else w.borrowed)
  }

  function Run(w: World, steps: seq<X.Step>): World {
    if steps == [] then w else Do(Run(w, steps[..|steps| - 1]), steps[|steps| - 1])
  }

  function Count(q: seq<nat>, b: set<nat>): nat {
    if q == [] then 0 else Count(q[..|q| - 1], b) + if q[|q| - 1] in b then 1 else 0
  }

  function Grants(w: World): seq<nat> {
    Granted(w.m.writers.log)
  }

  /** The calls of `unlock`, and of `unlock_shared`, that the callers still owe. */
  function Due(w: World): int {
    |Grants(w)| - Count(Grants(w), w.borrowed) - w.m.released
  }

  function DueShared(w: World): int {
    |Granted(w.m.readers.log)| + Count(Grants(w), w.borrowed) - w.m.releasedShared
  }

  /** Nobody unlocks in a way that nobody owes. */
  predicate Honest(w: World, step: X.Step) {
    && (step.UnlockStep? ==> Due(w) >= 1)
    && (step.UnlockSharedStep? ==> DueShared(w) >= 1)
  }

  ghost predicate HonestRun(w: World, steps: seq<X.Step>) {
    forall i :: 0 <= i < |steps| ==> Honest(Run(w, steps[..i]), steps[i])
  }

  predicate EndsBorrowed(q: seq<nat>, b: set<nat>) {
    q != [] && q[|q| - 1] in b
  }

  // ----- What holds in every run -----

  /** As long as the last exclusive grant did not go to a blocked `lock_shared`, flags and dues agree.  When
      it did, the flag is set, and the only thing owed may be that caller's `unlock_shared`. */
  ghost predicate Inv(w: World) {
    && Sound(w.m.writers) && Sound(w.m.readers)
    && !(w.m.locked && w.m.shared > 0)
    && (forall id <- w.borrowed :: id < w.m.writers.issued)
    && if EndsBorrowed(Grants(w), w.borrowed) then
         w.m.locked && Due(w) == 0 && 0 <= DueShared(w) <= 1
       else
         && Due(w) == (if w.m.locked then 1 else 0)
         && DueShared(w) == w.m.shared
         && (w.m.readers.queue != [] ==> w.m.locked)
         && (w.m.writers.queue != [] ==> w.m.locked || w.m.shared > 0)
  }

  lemma CountOne(q: seq<nat>, x: nat, b: set<nat>)
    ensures Count(q + [x], b) == Count(q, b) + if x in b then 1 else 0
  {
    assert (q + [x])[..|q|] == q;
  }

  lemma {:induction false} CountFresh(q: seq<nat>, b: set<nat>, x: nat)
    requires x !in q
    ensures Count(q, b + {x}) == Count(q, b)
  {
    if q != [] { CountFresh(q[..|q| - 1], b, x); }
  }

  /** A number not yet given out is not among those granted or queued. */
  lemma NotYet(c: Ledger)
    requires Sound(c)
    ensures c.issued !in Granted(c.log) && c.issued !in c.queue
  {
    var g, q := Granted(c.log), c.queue;
    var t := g + q + [c.issued];
    assert forall i :: 0 <= i < |g| ==> t[i] == g[i];
    assert forall i :: 0 <= i < |q| ==> t[|g| + i] == q[i];
    assert t[|g| + |q|] == c.issued;
  }

  lemma WriterGranted(w: World)
    requires Inv(w) && X.Free(w.m)
    ensures Inv(World(X.GrantWriter(w.m), w.borrowed))
  {
    hide Sound, Granted, Count;
    var c := w.m.writers;
    AnswerSound(c, Success);
    GrantedOne(c.log, Entry(c.issued, Success));
    CountOne(Grants(w), c.issued, w.borrowed);
  }

  lemma ReaderGranted(w: World)
    requires Inv(w) && !w.m.locked
    ensures Inv(World(X.GrantReader(w.m), w.borrowed))
  {
    hide Sound, Granted, Count;
    AnswerSound(w.m.readers, Success);
    GrantedOne(w.m.readers.log, Entry(w.m.readers.issued, Success));
  }

  /** Queueing on the exclusive side, as a writer or as a blocked reader. */
  lemma WriterWaits(w: World, borrows: bool)
    requires Inv(w) && !X.Free(w.m)
    ensures Inv(World(w.m.(writers := Enqueue(w.m.writers)),
                      if borrows then w.borrowed + {w.m.writers.issued} else w.borrowed))
  {
    hide Sound, Granted, Count;
    var c := w.m.writers;
    EnqueueSound(c);
    NotYet(c);
    CountFresh(Grants(w), w.borrowed, c.issued);
  }

  lemma WriterRefused(w: World)
    requires Inv(w)
    ensures Inv(World(w.m.(writers := Answer(w.m.writers, InProgress)), w.borrowed))
  {
    hide Sound, Granted, Count;
    var c := w.m.writers;
    AnswerSound(c, InProgress);
    GrantedOne(c.log, Entry(c.issued, InProgress));
    assert Granted(Answer(c, InProgress).log) == Granted(c.log);
  }

  lemma ReaderRefused(w: World)
    requires Inv(w)
    ensures Inv(World(w.m.(readers := Answer(w.m.readers, InProgress)), w.borrowed))
  {
    hide Sound, Granted, Count;
    var r := w.m.readers;
    AnswerSound(r, InProgress);
    GrantedOne(r.log, Entry(r.issued, InProgress));
  }

  lemma ReaderWaits(w: World)
    requires Inv(w) && w.m.locked
    ensures Inv(World(w.m.(readers := Enqueue(w.m.readers)), w.borrowed))
  {
    hide Sound, Granted, Count;
    EnqueueSound(w.m.readers);
  }

  lemma Withdrawn(w: World, c: Ledger, r: Ledger)
    requires Inv(w) && Sound(c) && Sound(r) && c.issued == w.m.writers.issued
    requires Granted(c.log) == Grants(w) && Granted(r.log) == Granted(w.m.readers.log)
    requires (c.queue != [] ==> w.m.writers.queue != []) && (r.queue != [] ==> w.m.readers.queue != [])
    ensures Inv(World(w.m.(writers := c, readers := r), w.borrowed))
  {
    hide Sound, Granted, Count;
  }

  lemma WithdrawInv(w: World, step: X.Step)
    requires Inv(w)
    requires step.CancelStep? || step.CancelSharedStep? || step.ShutdownStep? || step.DestroyStep?
    ensures Inv(Do(w, step))
  {
    hide Sound, Granted, Count;
    var c, r := w.m.writers, w.m.readers;
    match step
    case CancelStep(id) => CancelSound(c, id); Withdrawn(w, Cancel(c, id), r);
    case CancelSharedStep(id) => CancelSound(r, id); Withdrawn(w, c, Cancel(r, id));
    case ShutdownStep =>
      X.SettleAllWithdraws(c, ShutDown);
      X.SettleAllWithdraws(r, ShutDown);
      Withdrawn(w, SettleAll(c, ShutDown), SettleAll(r, ShutDown));
    case DestroyStep =>
      X.SettleAllWithdraws(c, Aborted);
      X.SettleAllWithdraws(r, Aborted);
      Withdrawn(w, SettleAll(c, Aborted), SettleAll(r, Aborted));
  }

  /** The first of the exclusive line is granted: the last grant is now this one. */
  lemma FrontGranted(w: World)
    requires Sound(w.m.writers) && w.m.writers.queue != []
    ensures var c, q := w.m.writers, w.m.writers.queue;
            && Sound(SettleAt(c, 0, Success))
            && Granted(SettleAt(c, 0, Success).log) == Grants(w) + [q[0]]
            && Count(Grants(w) + [q[0]], w.borrowed)
               == Count(Grants(w), w.borrowed) + if q[0] in w.borrowed then 1 else 0
  {
    var c := w.m.writers;
    SettleAtSound(c, 0, Success);
    GrantedOne(c.log, Entry(c.queue[0], Success));
    CountOne(Grants(w), c.queue[0], w.borrowed);
  }

  lemma UnlockInv(w: World)
    requires Inv(w) && Due(w) >= 1
    ensures Inv(World(X.Unlock(w.m), w.borrowed))
  {
    hide Sound, Granted, Count;
    var r := w.m.readers;
    SettleAllSound(r, Success);
    GrantedSettled(r.log, r.queue, Success);
    if w.m.writers.queue != [] { FrontGranted(w); }
  }

  lemma UnlockSharedInv(w: World)
    requires Inv(w) && DueShared(w) >= 1
    ensures Inv(World(X.UnlockShared(w.m), w.borrowed))
  {
    hide Sound, Granted, Count;
    if w.m.writers.queue != [] { FrontGranted(w); }
  }

  lemma StepInv(w: World, step: X.Step)
    requires Inv(w) && Honest(w, step)
    ensures Inv(Do(w, step))
  {
    hide Inv;
    WriterRefused(w);
    ReaderRefused(w);
    if X.Free(w.m) { WriterGranted(w); } else { WriterWaits(w, Borrows(w, step)); }
    if w.m.locked { ReaderWaits(w); } else { ReaderGranted(w); }
    match step
    case UnlockStep => UnlockInv(w);
    case UnlockSharedStep => UnlockSharedInv(w);
    case CancelStep(_) => WithdrawInv(w, step);
    case CancelSharedStep(_) => WithdrawInv(w, step);
    case ShutdownStep => WithdrawInv(w, step);
    case DestroyStep => WithdrawInv(w, step);
    case _ =>
  }

  lemma HonestLast(w: World, steps: seq<X.Step>)
    requires HonestRun(w, steps) && steps != []
    ensures var n := |steps| - 1; HonestRun(w, steps[..n]) && Honest(Run(w, steps[..n]), steps[n])
  {
    hide Run, Honest;
    var n := |steps| - 1;
    assert forall i :: 0 <= i < n ==> steps[..n][..i] == steps[..i];
  }

  lemma {:induction false} RunInv(w: World, steps: seq<X.Step>)
    requires Inv(w) && HonestRun(w, steps)
    ensures Inv(Run(w, steps))
  {
    if steps != [] {
      hide Inv, HonestRun, Honest, Do;
      HonestLast(w, steps);
      RunInv(w, steps[..|steps| - 1]);
      StepInv(Run(w, steps[..|steps| - 1]), steps[|steps| - 1]);
    }
  }

  /** Exclusion holds over all runs of such callers, blocked `lock_shared`s and all: with the flag set at
      most one of them is inside, without it nobody who owes an `unlock`, and as many others as counted. */
  lemma HonestExclusion(steps: seq<X.Step>)
    requires HonestRun(INITIAL, steps)
    ensures var w := Run(INITIAL, steps);
            && Sound(w.m.writers) && Sound(w.m.readers)
            && Due(w) >= 0 && DueShared(w) >= 0
            && (w.m.locked ==> w.m.shared == 0 && Due(w) + DueShared(w) <= 1)
            && (!w.m.locked ==> Due(w) == 0 && DueShared(w) == w.m.shared)
  {
    RunInv(INITIAL, steps);
  }

  // ----- When the mutex is lost -----

  /** The flag is set and nobody is left who would clear it. */
  predicate Stranded(w: World) {
    w.m.locked && Due(w) == 0 && DueShared(w) == 0
  }

  /** A stranded mutex stays stranded: whatever honest callers do, nobody is ever granted again. */
  lemma {:induction false} StrandedForEver(w: World, steps: seq<X.Step>)
    requires Inv(w) && Stranded(w) && HonestRun(w, steps)
    ensures var t := Run(w, steps);
            Stranded(t) && Grants(t) == Grants(w) && Granted(t.m.readers.log) == Granted(w.m.readers.log)
  {
    if steps != [] {
      hide Inv, HonestRun;
      var n := |steps| - 1;
      HonestLast(w, steps);
      StrandedForEver(w, steps[..n]);
      RunInv(w, steps[..n]);
      StrandedStep(Run(w, steps[..n]), steps[n]);
    }
  }

  /** The exclusive line moves on without a grant, and perhaps a blocked `lock_shared` joins it. */
  lemma NobodyGranted(w: World, c: Ledger, r: Ledger, borrowed: set<nat>)
    requires Granted(c.log) == Grants(w) && Granted(r.log) == Granted(w.m.readers.log)
    requires Count(Grants(w), borrowed) == Count(Grants(w), w.borrowed)
    requires Stranded(w)
    ensures var t := World(w.m.(writers := c, readers := r), borrowed);
            Stranded(t) && Grants(t) == Grants(w) && Granted(t.m.readers.log) == Granted(w.m.readers.log)
  {
    hide Granted, Count;
  }

  lemma StrandedStep(w: World, step: X.Step)
    requires Inv(w) && Stranded(w) && Honest(w, step)
    ensures var t := Do(w, step);
            Stranded(t) && Grants(t) == Grants(w) && Granted(t.m.readers.log) == Granted(w.m.readers.log)
  {
    hide Count, Granted, Sound, Once, Fifo;
    var c, r := w.m.writers, w.m.readers;
    NotYet(c);
    CountFresh(Grants(w), w.borrowed, c.issued);
    GrantedOne(c.log, Entry(c.issued, InProgress));
    GrantedOne(r.log, Entry(r.issued, InProgress));
    var t := Do(w, step);
    match step {
      case CancelStep(id) => Ungranted(c, id, Aborted);
      case CancelSharedStep(id) => Ungranted(r, id, Aborted);
      case ShutdownStep => Ungranted(c, 0, ShutDown); Ungranted(r, 0, ShutDown);
      case DestroyStep => Ungranted(c, 0, Aborted); Ungranted(r, 0, Aborted);
      case _ =>
    }
    NobodyGranted(w, t.m.writers, t.m.readers, t.borrowed);
  }

  lemma Ungranted(c: Ledger, id: nat, ec: Ec)
    requires !ec.Success?
    ensures Granted(Cancel(c, id).log) == Granted(c.log) && Granted(SettleAll(c, ec).log) == Granted(c.log)
  {
    if id in c.queue { GrantedOne(c.log, Entry(c.queue[IndexOf(c.queue, id)], Aborted)); }
    GrantedSettled(c.log, c.queue, ec);
  }

  // ----- Exactly when it drains -----

  /** What is owed now or will be once granted. */
  function Owed(w: World): int {
    Due(w) + DueShared(w) + |w.m.readers.queue| + |w.m.writers.queue|
  }

  lemma UnlockDrains(w: World)
    requires Inv(w) && Due(w) >= 1
    ensures var t := World(X.Unlock(w.m), w.borrowed);
            && Owed(t) == Owed(w) - 1
            && X.Line(t.m.writers) == X.Line(w.m.writers) && X.Line(t.m.readers) == X.Line(w.m.readers)
            && (Stranded(t) ==> t.m.writers.queue == [])
  {
    var c, r := w.m.writers, w.m.readers;
    if r.queue != [] {
      X.BatchKeepsLine(r);
      GrantedSettled(r.log, r.queue, Success);
    } else if c.queue != [] {
      X.FrontKeepsLine(c);
      FrontGranted(w);
    }
    hide X.Line, Granted, Count, Sound;
  }

  lemma UnlockSharedDrains(w: World)
    requires Inv(w) && DueShared(w) >= 1
    ensures var t := World(X.UnlockShared(w.m), w.borrowed);
            && Owed(t) == Owed(w) - 1
            && X.Line(t.m.writers) == X.Line(w.m.writers) && X.Line(t.m.readers) == X.Line(w.m.readers)
            && (Stranded(t) ==> t.m.writers.queue == [])
  {
    if w.m.writers.queue != [] {
      X.FrontKeepsLine(w.m.writers);
      FrontGranted(w);
    }
    hide X.Line, Granted, Count, Sound;
  }

  lemma ReleaseDrains(w: World, step: X.Step)
    requires Inv(w) && Honest(w, step) && X.IsRelease(step)
    ensures var t := Do(w, step);
            && t.borrowed == w.borrowed && Owed(t) == Owed(w) - 1
            && X.Line(t.m.writers) == X.Line(w.m.writers) && X.Line(t.m.readers) == X.Line(w.m.readers)
            && (Stranded(t) ==> t.m.writers.queue == [])
  {
    hide Inv, Owed, X.Line, Stranded;
    if step.UnlockStep? { UnlockDrains(w); } else { UnlockSharedDrains(w); }
  }

  lemma {:induction false} ReleasesDrain(w: World, steps: seq<X.Step>)
    requires Inv(w) && HonestRun(w, steps) && X.AllReleases(steps)
    ensures var t := Run(w, steps);
            && Inv(t) && t.borrowed == w.borrowed && Owed(t) == Owed(w) - |steps|
            && X.Line(t.m.writers) == X.Line(w.m.writers) && X.Line(t.m.readers) == X.Line(w.m.readers)
            && (Stranded(t) ==> t.m.writers.queue == [] || steps == [])
  {
    if steps != [] {
      hide Inv, HonestRun, Owed, X.Line, Stranded, Honest, Do, X.IsRelease;
      var n := |steps| - 1;
      HonestLast(w, steps);
      assert X.AllReleases(steps[..n]) && X.IsRelease(steps[n]);
      ReleasesDrain(w, steps[..n]);
      ReleaseDrains(Run(w, steps[..n]), steps[n]);
      StepInv(Run(w, steps[..n]), steps[n]);
    }
  }

  predicate Done(w: World) {
    Due(w) == 0 && DueShared(w) == 0
  }

  /** Free, and nobody left behind. */
  predicate Drained(w: World) {
    X.Free(w.m) && w.m.writers.queue == [] && w.m.readers.queue == []
  }

  lemma DoneIs(w: World)
    requires Inv(w) && Done(w)
    ensures if EndsBorrowed(Grants(w), w.borrowed) then Stranded(w) && !Drained(w) else Drained(w) && !Stranded(w)
  {
    hide Sound, Granted, Count;
  }

  lemma LineIsGranted(w: World)
    requires w.m.writers.queue == []
    ensures X.Line(w.m.writers) == Grants(w)
  {
  }

  /** When the callers inside and all who get in after them have left, in whatever order, the mutex is free
      and nobody waits if and only if it had not been lost before and the last of those on the exclusive
      side is not a blocked `lock_shared`. */
  lemma DrainsIff(w: World, steps: seq<X.Step>)
    requires Inv(w) && HonestRun(w, steps) && X.AllReleases(steps) && Done(Run(w, steps))
    ensures var t := Run(w, steps);
            && (Drained(t) <==> !Stranded(w) && !EndsBorrowed(X.Line(w.m.writers), w.borrowed))
            && (!Drained(t) ==> Stranded(t))
  {
    hide Inv, HonestRun, Done, Stranded, EndsBorrowed, X.Line, Owed;
    var t := Run(w, steps);
    ReleasesDrain(w, steps);
    DoneIs(t);
    StrandedStays(w, steps);
    if Drained(t) || steps != [] { LineIsGranted(t); }
  }

  lemma StrandedStays(w: World, steps: seq<X.Step>)
    requires Inv(w) && HonestRun(w, steps)
    ensures Stranded(w) ==> Stranded(Run(w, steps))
  {
    if Stranded(w) { StrandedForEver(w, steps); }
  }

  /** Those inside can always leave, one after the other, until nobody owes anything. */
  lemma DoneExists(w: World) returns (steps: seq<X.Step>)
    requires Inv(w)
    ensures HonestRun(w, steps) && X.AllReleases(steps) && Done(Run(w, steps))
  {
    steps := [];
    ReleasesDrain(w, steps);
    OwedNeverNegative(w);
    while !Done(Run(w, steps))
      invariant HonestRun(w, steps) && X.AllReleases(steps)
      invariant Inv(Run(w, steps)) && 0 <= Owed(Run(w, steps)) == Owed(w) - |steps|
      decreases Owed(w) - |steps|
    {
      hide Inv, Owed, HonestRun, X.AllReleases;
      var t := Run(w, steps);
      DuesNeverNegative(t);
      var step := if Due(t) >= 1 then X.UnlockStep else X.UnlockSharedStep;
      HonestOneMore(w, steps, step);
      AllOneMore(steps, step);
      steps := steps + [step];
      ReleasesDrain(w, steps);
      OwedNeverNegative(Run(w, steps));
    }
  }

  lemma AllOneMore(steps: seq<X.Step>, step: X.Step)
    requires X.AllReleases(steps) && X.IsRelease(step)
    ensures X.AllReleases(steps + [step])
  {
  }

  lemma DuesNeverNegative(w: World)
    requires Inv(w)
    ensures Due(w) >= 0 && DueShared(w) >= 0
  {
  }

  lemma OwedNeverNegative(w: World)
    requires Inv(w)
    ensures Owed(w) >= 0
  {
  }

  lemma HonestOneMore(w: World, steps: seq<X.Step>, step: X.Step)
    requires HonestRun(w, steps) && Honest(Run(w, steps), step)
    ensures HonestRun(w, steps + [step]) && Run(w, steps + [step]) == Do(Run(w, steps), step)
  {
    hide Honest, Do;
    var more := steps + [step];
    assert more[..|steps|] == steps;
    forall i | 0 <= i < |more|
      ensures Honest(Run(w, more[..i]), more[i])
    {
      assert more[..i] == steps[..i];
      if i == |steps| { assert steps[..i] == steps; }
    }
  }

  // A run in which a blocked `lock_shared` is granted and the mutex drains all the same.

  const BEHIND := World(X.State(true, 0, Ledger(3, [1, 2], [Entry(0, Success)]), EMPTY, 0, 0), {1})
  const LENT := World(X.State(true, 0, Ledger(3, [2], [Entry(0, Success), Entry(1, Success)]), EMPTY, 1, 0), {1})
  const HANDED_ON :=
    World(X.State(true, 0, Ledger(3, [], [Entry(0, Success), Entry(1, Success), Entry(2, Success)]), EMPTY, 1, 1), {1})
  const RECOVERED := World(HANDED_ON.m.(locked := false, released := 2), {1})

  lemma TwoQueueBehindOne()
    ensures Do(Do(Do(INITIAL, X.TryLockStep), X.LockSharedStep(true)), X.AsyncLockStep) == BEHIND
  {
    assert Do(INITIAL, X.TryLockStep).m == X.State(true, 0, Ledger(1, [], [Entry(0, Success)]), EMPTY, 0, 0);
  }

  lemma TheyLeaveInTurn()
    ensures Do(BEHIND, X.UnlockStep) == LENT && Do(LENT, X.UnlockSharedStep) == HANDED_ON
    ensures Do(HANDED_ON, X.UnlockStep) == RECOVERED
  {
    assert [Entry(0, Success)] + [Entry(1, Success)] == [Entry(0, Success), Entry(1, Success)];
  }

  lemma WhatTheyOwe()
    ensures Due(BEHIND) == 1 && DueShared(LENT) == 1 && Due(HANDED_ON) == 1
    ensures Done(RECOVERED) && 1 in Grants(RECOVERED)
  {
    var e0, e1, e2 := Entry(0, Success), Entry(1, Success), Entry(2, Success);
    GrantedOne([], e0);
    GrantedOne([e0], e1);
    GrantedOne([e0, e1], e2);
    CountOne([], 0, {1});
    CountOne([0], 1, {1});
    CountOne([0, 1], 2, {1});
    assert [] + [e0] == [e0] && [e0] + [e1] == [e0, e1] && [e0, e1] + [e2] == [e0, e1, e2];
    assert [] + [0] == [0] && [0] + [1 as nat] == [0, 1] && [0, 1] + [2 as nat] == [0, 1, 2];
  }

  /** A blocked `lock_shared` that was granted does no harm when somebody queued behind it on the exclusive
      side: its `unlock_shared` hands the lock on, and the `unlock` of the next one clears the flag. */
  lemma BlockedReaderMayBeHarmless() returns (steps: seq<X.Step>)
    ensures steps == [X.TryLockStep, X.LockSharedStep(true), X.AsyncLockStep]
                     + [X.UnlockStep, X.UnlockSharedStep, X.UnlockStep]
    ensures HonestRun(INITIAL, steps)
    ensures var w := Run(INITIAL, steps); Done(w) && Drained(w) && 1 in w.borrowed && 1 in Grants(w)
  {
    TwoQueueBehindOne();
    TheyLeaveInTurn();
    WhatTheyOwe();
    hide Run, HonestRun, Do, Due, DueShared, Grants;
    steps := [];
    Start();
    HonestOneMore(INITIAL, steps, X.TryLockStep);
    steps := steps + [X.TryLockStep];
    HonestOneMore(INITIAL, steps, X.LockSharedStep(true));
    steps := steps + [X.LockSharedStep(true)];
    HonestOneMore(INITIAL, steps, X.AsyncLockStep);
    steps := steps + [X.AsyncLockStep];
    HonestOneMore(INITIAL, steps, X.UnlockStep);
    steps := steps + [X.UnlockStep];
    HonestOneMore(INITIAL, steps, X.UnlockSharedStep);
    steps := steps + [X.UnlockSharedStep];
    HonestOneMore(INITIAL, steps, X.UnlockStep);
    steps := steps + [X.UnlockStep];
  }

  lemma Start()
    ensures HonestRun(INITIAL, []) && Run(INITIAL, []) == INITIAL
  {
  }
}
