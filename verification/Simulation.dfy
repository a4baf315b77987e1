/** One primitive seen as another. */
module Simulation {
  import opened Ledgers
  import M = MutexSpec
  import S = SemaphoreSpec
  import X = SharedMutexSpec

  // ----- A mutex is a semaphore of one -----

  ghost predicate SameAsSemaphore(m: M.State, s: S.State) {
    && m.line == s.line
    && m.released == s.released
    && s.count == if m.locked then 0 else 1
  }

  function AsSemaphoreStep(step: M.Step): S.Step {
    match step
    case TryLockStep => S.TryAcquireStep
    case AsyncLockStep => S.AsyncAcquireStep
    case LockStep(enabled) => S.AcquireStep(enabled)
    case UnlockStep => S.ReleaseStep
    case CancelStep(id) => S.CancelStep(id)
    case ShutdownStep => S.ShutdownStep
    case DestroyStep => S.DestroyStep
  }

  function AsSemaphoreSteps(steps: seq<M.Step>): seq<S.Step> {
    seq(|steps|, i requires 0 <= i < |steps| => AsSemaphoreStep(steps[i]))
  }

  /** The two part ways exactly at an unlock of a free mutex: it does nothing, a release adds a unit. */
  lemma StepSimulates(m: M.State, s: S.State, step: M.Step)
    requires M.Fair(m) && SameAsSemaphore(m, s)
    ensures SameAsSemaphore(M.Apply(m, step), S.Apply(s, AsSemaphoreStep(step)))
       <==> (step.UnlockStep? ==> m.locked)
  {
  }

  /** While only holders unlock, a mutex and a semaphore with initial count 1 grant the same requests in
      the same order and keep the same queue. */
  lemma {:induction false} MutexIsSemaphoreOfOne(steps: seq<M.Step>)
    requires M.Disciplined(M.INITIAL, steps)
    ensures SameAsSemaphore(M.Run(M.INITIAL, steps), S.Run(S.Initial(1), AsSemaphoreSteps(steps)))
  {
    if steps != [] {
      var n := |steps| - 1;
      M.DisciplinedPrefix(M.INITIAL, steps, n);
      MutexIsSemaphoreOfOne(steps[..n]);
      M.RunFair(steps[..n]);
      M.Exclusion(steps[..n]);
      assert AsSemaphoreSteps(steps)[..n] == AsSemaphoreSteps(steps[..n]);
      StepSimulates(M.Run(M.INITIAL, steps[..n]), S.Run(S.Initial(1), AsSemaphoreSteps(steps[..n])), steps[n]);
    }
  }

  // ----- A shared mutex used exclusively is a mutex -----

  function AsShared(m: M.State): X.State {
    X.State(m.locked, 0, m.line, EMPTY, m.released, 0)
  }

  function AsSharedStep(step: M.Step): X.Step {
    match step
    case TryLockStep => X.TryLockStep
    case AsyncLockStep => X.AsyncLockStep
    case LockStep(enabled) => X.LockStep(enabled)
    case UnlockStep => X.UnlockStep
    case CancelStep(id) => X.CancelStep(id)
    case ShutdownStep => X.ShutdownStep
    case DestroyStep => X.DestroyStep
  }

  function AsSharedSteps(steps: seq<M.Step>): seq<X.Step> {
    seq(|steps|, i requires 0 <= i < |steps| => AsSharedStep(steps[i]))
  }

  lemma StepIsShared(m: M.State, step: M.Step)
    ensures X.Apply(AsShared(m), AsSharedStep(step)) == AsShared(M.Apply(m, step))
  {
    hide Enqueue, Answer, SettleAt, Cancel;
    assert SettleAll(EMPTY, ShutDown) == EMPTY && SettleAll(EMPTY, Aborted) == EMPTY;
  }

  /** Step for step, and with no discipline asked of the callers, the overrides of the shared mutex do to
      the exclusive side what the mutex they override does. */
  lemma {:induction false} SharedMutexIsMutex(steps: seq<M.Step>)
    ensures X.Run(X.INITIAL, AsSharedSteps(steps)) == AsShared(M.Run(M.INITIAL, steps))
  {
    if steps != [] {
      hide X.Apply, M.Apply, AsSharedStep;
      var n := |steps| - 1;
      SharedMutexIsMutex(steps[..n]);
      assert AsSharedSteps(steps)[..n] == AsSharedSteps(steps[..n]);
      StepIsShared(M.Run(M.INITIAL, steps[..n]), steps[n]);
    }
  }
}
