/** The counting semaphore as a state machine: one step per critical section. */
module SemaphoreSpec {
  import opened Ledgers

  datatype State = State(count: int, line: Ledger, released: nat)

  function Initial(n: int): State {
    State(n, EMPTY, 0)
  }

  function Take(s: State): State {
    s.(count := s.count - 1, line := Answer(s.line, Success))
  }

  function TryAcquire(s: State): State {
    if s.count > 0 then Take(s) else s
  }

  function AsyncAcquire(s: State): State {
    if s.count > 0 then Take(s) else s.(line := Enqueue(s.line))
  }

  function Acquire(s: State, enabled: bool): State {
    if s.count > 0 then Take(s)
    else if enabled then s.(line := Enqueue(s.line))
    else s.(line := Answer(s.line, InProgress))
  }

  /** A unit given back goes straight to the head of the queue when somebody waits. */
  function Release(s: State): State {
    var t := s.(released := s.released + 1);
    if s.line.queue == [] then t.(count := s.count + 1)
    else t.(line := SettleAt(s.line, 0, Success))
  }

  function Value(s: State): int {
    s.count - |s.line.queue|
  }

  datatype Step =
    | TryAcquireStep
    | AsyncAcquireStep
    | AcquireStep(enabled: bool)
    | ReleaseStep
    | CancelStep(id: nat)
    | ShutdownStep
    | DestroyStep

  function Apply(s: State, step: Step): State {
    match step
    case TryAcquireStep => TryAcquire(s)
    case AsyncAcquireStep => AsyncAcquire(s)
    case AcquireStep(enabled) => Acquire(s, enabled)
    case ReleaseStep => Release(s)
    case CancelStep(id) => s.(line := Cancel(s.line, id))
    case ShutdownStep => s.(line := SettleAll(s.line, ShutDown))
    case DestroyStep => s.(line := SettleAll(s.line, Aborted))
  }

  function Run(s: State, steps: seq<Step>): State {
    if steps == [] then s else Apply(Run(s, steps[..|steps| - 1]), steps[|steps| - 1])
  }

  /** Free units never coexist with waiters, and no unit is created or lost. */
  ghost predicate Balanced(s: State, n: int) {
    && Sound(s.line)
    && s.count >= 0
    && (s.line.queue != [] ==> s.count == 0)
    && s.count + |Granted(s.line.log)| == n + s.released
  }

  lemma TakeBalanced(s: State, n: int)
    requires Balanced(s, n) && s.count > 0
    ensures Balanced(Take(s), n)
  {
    AnswerSound(s.line, Success);
    GrantedOne(s.line.log, Entry(s.line.issued, Success));
    hide Sound, Granted;
  }

  lemma WaitBalanced(s: State, n: int)
    requires Balanced(s, n) && s.count <= 0
    ensures Balanced(s.(line := Enqueue(s.line)), n)
    ensures Balanced(s.(line := Answer(s.line, InProgress)), n)
  {
    EnqueueSound(s.line);
    AnswerSound(s.line, InProgress);
    GrantedOne(s.line.log, Entry(s.line.issued, InProgress));
    hide Sound, Granted;
  }

  lemma ReleaseBalanced(s: State, n: int)
    requires Balanced(s, n)
    ensures Balanced(Release(s), n)
  {
    var line := s.line;
    if line.queue != [] {
      SettleAtSound(line, 0, Success);
      GrantedOne(line.log, Entry(line.queue[0], Success));
    }
    hide Sound, Granted;
  }

  lemma CancelBalanced(s: State, n: int, id: nat)
    requires Balanced(s, n)
    ensures Balanced(s.(line := Cancel(s.line, id)), n)
  {
    CancelSound(s.line, id);
    hide Sound, Granted;
  }

  lemma WithdrawBalanced(s: State, n: int, ec: Ec)
    requires Balanced(s, n) && !ec.Success?
    ensures Balanced(s.(line := SettleAll(s.line, ec)), n)
  {
    SettleAllSound(s.line, ec);
    GrantedSettled(s.line.log, s.line.queue, ec);
    hide Sound, Granted;
  }

  lemma StepBalanced(s: State, step: Step, n: int)
    requires Balanced(s, n)
    ensures Balanced(Apply(s, step), n)
  {
    hide Balanced;
    if s.count > 0 { TakeBalanced(s, n); } else { WaitBalanced(s, n); }
    match step
    case TryAcquireStep =>
    case AsyncAcquireStep =>
    case AcquireStep(enabled) =>
    case ReleaseStep => ReleaseBalanced(s, n);
    case CancelStep(id) => CancelBalanced(s, n, id);
    case ShutdownStep => WithdrawBalanced(s, n, ShutDown);
    case DestroyStep => WithdrawBalanced(s, n, Aborted);
  }

  lemma StepGrows(s: State, step: Step)
    ensures s.line.log <= Apply(s, step).line.log
  {
  }

  /** Over every run from a nonnegative count: strict order, one disposition per request, a count that
      is never negative (so the assertion in `decrement` cannot fail) and no lost unit. */
  lemma {:induction false} RunBalanced(n: int, steps: seq<Step>)
    requires n >= 0
    ensures Balanced(Run(Initial(n), steps), n)
  {
    if steps != [] {
      RunBalanced(n, steps[..|steps| - 1]);
      StepBalanced(Run(Initial(n), steps[..|steps| - 1]), steps[|steps| - 1], n);
    }
  }

  lemma {:induction false} LogGrows(s: State, steps: seq<Step>, m: nat)
    requires m <= |steps|
    ensures Run(s, steps[..m]).line.log <= Run(s, steps).line.log
  {
    if m == |steps| {
      assert steps[..m] == steps;
    } else {
      var pre := steps[..|steps| - 1];
      LogGrows(s, pre, m);
      assert pre[..m] == steps[..m];
      StepGrows(Run(s, pre), steps[|steps| - 1]);
    }
  }

  /** `value()` is the initial count, plus the releases, less every request that was granted or still
      waits: the requests made except those turned away or cancelled.  It is negative exactly when
      somebody waits, and then counts the waiters. */
  lemma ValueAccounts(n: int, steps: seq<Step>)
    requires n >= 0
    ensures var s := Run(Initial(n), steps);
            && Value(s) == n + s.released - (s.line.issued - |Denied(s.line.log)|)
            && (Value(s) < 0 <==> s.line.queue != [])
            && (Value(s) < 0 ==> Value(s) == -|s.line.queue|)
            && s.count <= n + s.released
  {
    RunBalanced(n, steps);
    Conservation(Run(Initial(n), steps).line);
  }
}
