/** The mutex as a state machine: one step per critical section. */
module MutexSpec {
  import opened Ledgers

  /** `released` counts the calls of `unlock`. */
  datatype State = State(locked: bool, line: Ledger, released: nat)

  const INITIAL := State(false, EMPTY, 0)

  function Grant(s: State): State {
    s.(locked := true, line := Answer(s.line, Success))
  }

  function TryLock(s: State): State {
    if s.locked then s else Grant(s)
  }

  function AsyncLock(s: State): State {
    if s.locked then s.(line := Enqueue(s.line)) else Grant(s)
  }

  /** `enabled` is the threading mode: without threads a lock that would block fails instead. */
  function Lock(s: State, enabled: bool): State {
    if !s.locked then Grant(s)
    else if enabled then s.(line := Enqueue(s.line))
    else s.(line := Answer(s.line, InProgress))
  }

  /** The lock is handed to the head of the queue without ever being free in between. */
  function Unlock(s: State): State {
    var t := s.(released := s.released + 1);
    if s.line.queue == [] then t.(locked := false)
    else t.(line := SettleAt(s.line, 0, Success))
  }

  datatype Step =
    | TryLockStep
    | AsyncLockStep
    | LockStep(enabled: bool)
    | UnlockStep
    | CancelStep(id: nat)
    | ShutdownStep
    | DestroyStep

  function Apply(s: State, step: Step): State {
    match step
    case TryLockStep => TryLock(s)
    case AsyncLockStep => AsyncLock(s)
    case LockStep(enabled) => Lock(s, enabled)
    case UnlockStep => Unlock(s)
    case CancelStep(id) => s.(line := Cancel(s.line, id))
    case ShutdownStep => s.(line := SettleAll(s.line, ShutDown))
    case DestroyStep => s.(line := SettleAll(s.line, Aborted))
  }

  function Run(s: State, steps: seq<Step>): State {
    if steps == [] then s else Apply(Run(s, steps[..|steps| - 1]), steps[|steps| - 1])
  }

  /** Grants not yet given back. */
  function Holders(s: State): int {
    |Granted(s.line.log)| - s.released
  }

  /** The callers' side of the contract: `unlock` is called only while somebody holds the lock. */
  ghost predicate Disciplined(s: State, steps: seq<Step>) {
    forall i :: 0 <= i < |steps| && steps[i].UnlockStep? ==> Holders(Run(s, steps[..i])) >= 1
  }

  lemma DisciplinedPrefix(s: State, steps: seq<Step>, n: nat)
    requires Disciplined(s, steps) && n <= |steps|
    ensures Disciplined(s, steps[..n])
  {
    forall i | 0 <= i < n && steps[..n][i].UnlockStep?
      ensures Holders(Run(s, steps[..n][..i])) >= 1
    {
      assert steps[..n][..i] == steps[..i] && steps[i].UnlockStep?;
    }
  }

  ghost predicate Fair(s: State) {
    Sound(s.line) && (s.line.queue != [] ==> s.locked)
  }

  lemma StepFair(s: State, step: Step)
    requires Fair(s)
    ensures Fair(Apply(s, step)) && s.line.log <= Apply(s, step).line.log
  {
    match step
    case TryLockStep => if !s.locked { AnswerSound(s.line, Success); }
    case AsyncLockStep => if s.locked { EnqueueSound(s.line); } else { AnswerSound(s.line, Success); }
    case LockStep(enabled) =>
      if !s.locked { AnswerSound(s.line, Success); }
      else if enabled { EnqueueSound(s.line); }
      else { AnswerSound(s.line, InProgress); }
    case UnlockStep => if s.line.queue != [] { SettleAtSound(s.line, 0, Success); }
    case CancelStep(id) => CancelSound(s.line, id);
    case ShutdownStep => SettleAllSound(s.line, ShutDown);
    case DestroyStep => SettleAllSound(s.line, Aborted);
  }

  /** Over every run, whoever calls what: strict order of requests, exactly one disposition for each
      request, and no waiter behind a free lock. */
  lemma {:induction false} RunFair(steps: seq<Step>)
    ensures Fair(Run(INITIAL, steps))
  {
    if steps != [] {
      RunFair(steps[..|steps| - 1]);
      StepFair(Run(INITIAL, steps[..|steps| - 1]), steps[|steps| - 1]);
    }
  }

  /** What has been settled stays settled: the log of a shorter run is a prefix of the log of a longer one. */
  lemma {:induction false} LogGrows(steps: seq<Step>, n: nat)
    requires n <= |steps|
    ensures Run(INITIAL, steps[..n]).line.log <= Run(INITIAL, steps).line.log
  {
    if n == |steps| {
      assert steps[..n] == steps;
    } else {
      var pre := steps[..|steps| - 1];
      LogGrows(pre, n);
      assert pre[..n] == steps[..n];
      RunFair(pre);
      StepFair(Run(INITIAL, pre), steps[|steps| - 1]);
    }
  }

  lemma StepExcludes(s: State, step: Step)
    requires Fair(s) && Holders(s) == if s.locked then 1 else 0
    requires step.UnlockStep? ==> Holders(s) >= 1
    ensures var t := Apply(s, step); Holders(t) == if t.locked then 1 else 0
  {
    var line := s.line;
    GrantedOne(line.log, Entry(line.issued, Success));
    GrantedOne(line.log, Entry(line.issued, InProgress));
    if line.queue != [] { GrantedOne(line.log, Entry(line.queue[0], Success)); }
    if step.CancelStep? { CancelSound(line, step.id); }
    GrantedSettled(line.log, line.queue, ShutDown);
    GrantedSettled(line.log, line.queue, Aborted);
  }

  /** Mutual exclusion: as long as only holders unlock, there is at most one holder, there is one exactly
      while the flag is set, and nobody waits without a holder to wake them. */
  lemma {:induction false} Exclusion(steps: seq<Step>)
    requires Disciplined(INITIAL, steps)
    ensures var s := Run(INITIAL, steps);
            && Holders(s) == (if s.locked then 1 else 0)
            && (s.line.queue != [] ==> Holders(s) == 1)
  {
    RunFair(steps);
    if steps != [] {
      var n := |steps| - 1;
      DisciplinedPrefix(INITIAL, steps, n);
      Exclusion(steps[..n]);
      RunFair(steps[..n]);
      StepExcludes(Run(INITIAL, steps[..n]), steps[n]);
    }
  }
}
