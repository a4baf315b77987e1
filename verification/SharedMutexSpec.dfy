/** The shared mutex as a state machine: one step per critical section.

    Exclusive and shared requests are numbered separately: `writers` is the ledger of the ring
    inherited from the mutex, `readers` the ledger of the second ring. */
module SharedMutexSpec {
  import opened Ledgers

  datatype State = State(locked: bool, shared: nat, writers: Ledger, readers: Ledger,
                         released: nat, releasedShared: nat)

  const INITIAL := State(false, 0, EMPTY, EMPTY, 0, 0)

  function GrantWriter(s: State): State {
    s.(locked := true, writers := Answer(s.writers, Success))
  }

  function GrantReader(s: State): State {
    s.(shared := s.shared + 1, readers := Answer(s.readers, Success))
  }

  predicate Free(s: State) {
    !s.locked && s.shared == 0
  }

  function TryLock(s: State): State {
    if Free(s) then GrantWriter(s) else s
  }

  function AsyncLock(s: State): State {
    if Free(s) then GrantWriter(s) else s.(writers := Enqueue(s.writers))
  }

  function Lock(s: State, enabled: bool): State {
    if Free(s) then GrantWriter(s)
    else if enabled then s.(writers := Enqueue(s.writers))
    else s.(writers := Answer(s.writers, InProgress))
  }

  /** Waiting readers go first, all of them; only without any is the lock handed to a writer. */
  function Unlock(s: State): State {
    var t := s.(released := s.released + 1);
    if s.readers.queue != [] then
      t.(locked := false, shared := s.shared + |s.readers.queue|, readers := SettleAll(s.readers, Success))
    else if s.writers.queue == [] then t.(locked := false)
    else t.(writers := SettleAt(s.writers, 0, Success))
  }

  function TryLockShared(s: State): State {
    if s.locked then s else GrantReader(s)
  }

  function AsyncLockShared(s: State): State {
    if s.locked then s.(readers := Enqueue(s.readers)) else GrantReader(s)
  }

  /** A `lock_shared` that has to block waits on the ring of the writers. */
  function LockShared(s: State, enabled: bool): State {
    if !s.locked then GrantReader(s)
    else if enabled then s.(writers := Enqueue(s.writers))
    else s.(readers := Answer(s.readers, InProgress))
  }

  function UnlockShared(s: State): State {
    var left := if s.shared > 0 then s.shared - 1 else 0;
    var t := s.(shared := left, releasedShared := s.releasedShared + 1);
    if left == 0 && s.writers.queue != [] then
      t.(locked := true, writers := SettleAt(s.writers, 0, Success))
    else t
  }

  datatype Step =
    | TryLockStep
    | AsyncLockStep
    | LockStep(enabled: bool)
    | UnlockStep
    | TryLockSharedStep
    | AsyncLockSharedStep
    | LockSharedStep(enabled: bool)
    | UnlockSharedStep
    | CancelStep(id: nat)
    | CancelSharedStep(id: nat)
    | ShutdownStep
    | DestroyStep

  function Apply(s: State, step: Step): State {
    match step
    case TryLockStep => TryLock(s)
    case AsyncLockStep => AsyncLock(s)
    case LockStep(enabled) => Lock(s, enabled)
    case UnlockStep => Unlock(s)
    case TryLockSharedStep => TryLockShared(s)
    case AsyncLockSharedStep => AsyncLockShared(s)
    case LockSharedStep(enabled) => LockShared(s, enabled)
    case UnlockSharedStep => UnlockShared(s)
    case CancelStep(id) => s.(writers := Cancel(s.writers, id))
    case CancelSharedStep(id) => s.(readers := Cancel(s.readers, id))
    case ShutdownStep => s.(writers := SettleAll(s.writers, ShutDown), readers := SettleAll(s.readers, ShutDown))
    case DestroyStep => s.(writers := SettleAll(s.writers, Aborted), readers := SettleAll(s.readers, Aborted))
  }

  function Run(s: State, steps: seq<Step>): State {
    if steps == [] then s else Apply(Run(s, steps[..|steps| - 1]), steps[|steps| - 1])
  }

  // ----- Safety -----

  /** Exclusive and shared grants not yet given back. */
  function Writing(s: State): int {
    |Granted(s.writers.log)| - s.released
  }

  function Reading(s: State): int {
    |Granted(s.readers.log)| - s.releasedShared
  }

  /** Each kind of unlock is called only while somebody holds the lock in that way. */
  predicate Allowed(s: State, step: Step) {
    && (step.UnlockStep? ==> Writing(s) >= 1)
    && (step.UnlockSharedStep? ==> Reading(s) >= 1)
  }

  ghost predicate Disciplined(s: State, steps: seq<Step>) {
    forall i :: 0 <= i < |steps| ==> Allowed(Run(s, steps[..i]), steps[i])
  }

  lemma DisciplinedPrefix(s: State, steps: seq<Step>, n: nat)
    requires Disciplined(s, steps) && n <= |steps|
    ensures Disciplined(s, steps[..n])
  {
    forall i | 0 <= i < n
      ensures Allowed(Run(s, steps[..n][..i]), steps[..n][i])
    {
      assert steps[..n][..i] == steps[..i];
    }
  }

  ghost predicate Safe(s: State) {
    && Sound(s.writers) && Sound(s.readers)
    && !(s.locked && s.shared > 0)
    && Writing(s) == (if s.locked then 1 else 0)
    && Reading(s) == s.shared
    && (s.readers.queue != [] ==> s.locked)
    && (s.writers.queue != [] ==> s.locked || s.shared > 0)
  }

  lemma GrantWriterSafe(s: State)
    requires Safe(s) && Free(s)
    ensures Safe(GrantWriter(s))
  {
    AnswerSound(s.writers, Success);
    GrantedOne(s.writers.log, Entry(s.writers.issued, Success));
    hide Sound, Granted;
  }

  lemma GrantReaderSafe(s: State)
    requires Safe(s) && !s.locked
    ensures Safe(GrantReader(s))
  {
    AnswerSound(s.readers, Success);
    GrantedOne(s.readers.log, Entry(s.readers.issued, Success));
    hide Sound, Granted;
  }

  lemma WriterWaitsSafe(s: State)
    requires Safe(s) && !Free(s)
    ensures Safe(s.(writers := Enqueue(s.writers)))
    ensures Safe(s.(writers := Answer(s.writers, InProgress)))
  {
    EnqueueSound(s.writers);
    AnswerSound(s.writers, InProgress);
    GrantedOne(s.writers.log, Entry(s.writers.issued, InProgress));
    hide Sound, Granted;
  }

  lemma ReaderWaitsSafe(s: State)
    requires Safe(s) && s.locked
    ensures Safe(s.(readers := Enqueue(s.readers)))
    ensures Safe(s.(readers := Answer(s.readers, InProgress)))
  {
    EnqueueSound(s.readers);
    AnswerSound(s.readers, InProgress);
    GrantedOne(s.readers.log, Entry(s.readers.issued, InProgress));
    hide Sound, Granted;
  }

  lemma RequestSafe(s: State, step: Step)
    requires Safe(s)
    requires step.TryLockStep? || step.AsyncLockStep? || step.LockStep?
          || step.TryLockSharedStep? || step.AsyncLockSharedStep? || step.LockSharedStep?
    ensures Safe(Apply(s, step))
  {
    hide Safe;
    if Free(s) { GrantWriterSafe(s); } else { WriterWaitsSafe(s); }
    if s.locked { ReaderWaitsSafe(s); } else { GrantReaderSafe(s); }
  }

  lemma UnlockSafe(s: State)
    requires Safe(s) && Writing(s) >= 1
    ensures Safe(Unlock(s))
  {
    var w, r := s.writers, s.readers;
    if r.queue != [] {
      SettleAllSound(r, Success);
      GrantedSettled(r.log, r.queue, Success);
    } else if w.queue != [] {
      SettleAtSound(w, 0, Success);
      GrantedOne(w.log, Entry(w.queue[0], Success));
    }
    hide Sound, Granted;
  }

  lemma UnlockSharedSafe(s: State)
    requires Safe(s) && Reading(s) >= 1
    ensures Safe(UnlockShared(s))
  {
    var w := s.writers;
    if w.queue != [] {
      SettleAtSound(w, 0, Success);
      GrantedOne(w.log, Entry(w.queue[0], Success));
    }
    hide Sound, Granted;
  }

  /** Writers and readers may leave their queues without a grant at any time. */
  lemma WithdrawSafe(s: State, w: Ledger, r: Ledger)
    requires Safe(s) && Sound(w) && Sound(r)
    requires Granted(w.log) == Granted(s.writers.log) && Granted(r.log) == Granted(s.readers.log)
    requires (w.queue != [] ==> s.writers.queue != []) && (r.queue != [] ==> s.readers.queue != [])
    ensures Safe(s.(writers := w, readers := r))
  {
    hide Sound, Granted;
  }

  lemma SettleAllWithdraws(c: Ledger, ec: Ec)
    requires Sound(c) && !ec.Success?
    ensures Sound(SettleAll(c, ec)) && Granted(SettleAll(c, ec).log) == Granted(c.log)
  {
    SettleAllSound(c, ec);
    GrantedSettled(c.log, c.queue, ec);
  }

  lemma ShutSafe(s: State, ec: Ec)
    requires Safe(s) && !ec.Success?
    ensures Safe(s.(writers := SettleAll(s.writers, ec), readers := SettleAll(s.readers, ec)))
  {
    hide Sound, Granted;
    SettleAllWithdraws(s.writers, ec);
    SettleAllWithdraws(s.readers, ec);
    WithdrawSafe(s, SettleAll(s.writers, ec), SettleAll(s.readers, ec));
  }

  lemma CancelSafe(s: State, id: nat)
    requires Safe(s)
    ensures Safe(s.(writers := Cancel(s.writers, id))) && Safe(s.(readers := Cancel(s.readers, id)))
  {
    hide Sound, Granted;
    CancelSound(s.writers, id);
    CancelSound(s.readers, id);
    WithdrawSafe(s, Cancel(s.writers, id), s.readers);
    WithdrawSafe(s, s.writers, Cancel(s.readers, id));
  }

  lemma StepSafe(s: State, step: Step)
    requires Safe(s) && Allowed(s, step)
    ensures Safe(Apply(s, step))
  {
    hide Safe;
    match step
    case UnlockStep => UnlockSafe(s);
    case UnlockSharedStep => UnlockSharedSafe(s);
    case CancelStep(id) => CancelSafe(s, id);
    case CancelSharedStep(id) => CancelSafe(s, id);
    case ShutdownStep => ShutSafe(s, ShutDown);
    case DestroyStep => ShutSafe(s, Aborted);
    case _ => RequestSafe(s, step);
  }

  /** In every reachable state, for any interleaving in which each unlock is somebody's due: one writer
      or any number of readers, flags that tell the grants outstanding, strict order within writers and
      within readers, readers waiting only for a writer and writers only for somebody. */
  lemma {:induction false} RunSafe(s: State, steps: seq<Step>)
    requires Safe(s) && Disciplined(s, steps)
    ensures Safe(Run(s, steps))
  {
    if steps != [] {
      var n := |steps| - 1;
      DisciplinedPrefix(s, steps, n);
      RunSafe(s, steps[..n]);
      StepSafe(Run(s, steps[..n]), steps[n]);
    }
  }

  lemma InitialSafe()
    ensures Safe(INITIAL)
  {
  }

  lemma StepLogGrows(s: State, step: Step)
    ensures var t := Apply(s, step); s.writers.log <= t.writers.log && s.readers.log <= t.readers.log
  {
  }

  /** Nothing settled is ever unsettled. */
  lemma {:induction false} LogGrows(s: State, steps: seq<Step>, n: nat)
    requires n <= |steps|
    ensures Run(s, steps[..n]).writers.log <= Run(s, steps).writers.log
    ensures Run(s, steps[..n]).readers.log <= Run(s, steps).readers.log
  {
    if n == |steps| {
      assert steps[..n] == steps;
    } else {
      var pre := steps[..|steps| - 1];
      LogGrows(s, pre, n);
      assert pre[..n] == steps[..n];
      StepLogGrows(Run(s, pre), steps[|steps| - 1]);
    }
  }

  lemma StepOnce(s: State, step: Step)
    requires Once(s.writers) && Once(s.readers)
    ensures var t := Apply(s, step); Once(t.writers) && Once(t.readers)
  {
    hide Once, Answer, Enqueue, SettleAt, SettleAll, Cancel;
    var w, r := s.writers, s.readers;
    if w.queue != [] { SettleAtOnce(w, 0, Success); }
    match step
    case TryLockStep => AnswerOnce(w, Success);
    case AsyncLockStep => AnswerOnce(w, Success); EnqueueOnce(w);
    case LockStep(_) => AnswerOnce(w, Success); EnqueueOnce(w); AnswerOnce(w, InProgress);
    case UnlockStep => SettleAllOnce(r, Success);
    case TryLockSharedStep => AnswerOnce(r, Success);
    case AsyncLockSharedStep => AnswerOnce(r, Success); EnqueueOnce(r);
    case LockSharedStep(_) => AnswerOnce(r, Success); EnqueueOnce(w); AnswerOnce(r, InProgress);
    case UnlockSharedStep =>
    case CancelStep(id) => CancelOnce(w, id);
    case CancelSharedStep(id) => CancelOnce(r, id);
    case ShutdownStep => SettleAllOnce(w, ShutDown); SettleAllOnce(r, ShutDown);
    case DestroyStep => SettleAllOnce(w, Aborted); SettleAllOnce(r, Aborted);
  }

  /** Whoever calls what, and also with undue unlocks: every request of either kind has exactly one
      disposition. */
  lemma {:induction false} RunOnce(steps: seq<Step>)
    ensures var s := Run(INITIAL, steps); Once(s.writers) && Once(s.readers)
  {
    if steps != [] {
      RunOnce(steps[..|steps| - 1]);
      StepOnce(Run(INITIAL, steps[..|steps| - 1]), steps[|steps| - 1]);
    }
  }

  // ----- Conservation and drain -----

  /** Everybody inside or waiting to get in. */
  function Load(s: State): nat {
    (if s.locked then 1 else 0) + s.shared + |s.readers.queue| + |s.writers.queue|
  }

  lemma LoadIsConserved(s: State)
    requires Safe(s)
    ensures Load(s) == s.writers.issued + s.readers.issued
                       - |Denied(s.writers.log)| - |Denied(s.readers.log)|
                       - s.released - s.releasedShared
  {
    Conservation(s.writers);
    Conservation(s.readers);
  }

  predicate IsRelease(step: Step) {
    step.UnlockStep? || step.UnlockSharedStep?
  }

  predicate AllReleases(steps: seq<Step>) {
    forall i :: 0 <= i < |steps| ==> IsRelease(steps[i])
  }

  /** The line of a ledger: those granted so far, then those next. */
  function Line(c: Ledger): seq<nat> {
    Granted(c.log) + c.queue
  }

  lemma FrontKeepsLine(c: Ledger)
    requires c.queue != []
    ensures Line(SettleAt(c, 0, Success)) == Line(c) && |SettleAt(c, 0, Success).queue| == |c.queue| - 1
  {
    var q, g := c.queue, Granted(c.log);
    GrantedOne(c.log, Entry(q[0], Success));
    hide Granted;
    assert g + [q[0]] + Without(q, 0) == g + q;
  }

  lemma BatchKeepsLine(c: Ledger)
    ensures Line(SettleAll(c, Success)) == Line(c)
  {
    GrantedSettled(c.log, c.queue, Success);
  }

  lemma ReleaseLowersLoad(s: State, step: Step)
    requires Safe(s) && Allowed(s, step) && IsRelease(step)
    ensures var t := Apply(s, step);
            Load(t) == Load(s) - 1 && Line(t.writers) == Line(s.writers) && Line(t.readers) == Line(s.readers)
  {
    if s.writers.queue != [] { FrontKeepsLine(s.writers); }
    BatchKeepsLine(s.readers);
    hide Sound, Line, SettleAt;
  }

  /** Whatever the order of the releases, each lowers the load by one, even the one that turns a writer
      into a batch of readers, and nobody changes places. */
  lemma {:induction false} ReleasesDrain(s: State, steps: seq<Step>)
    requires Safe(s) && AllReleases(steps) && Disciplined(s, steps)
    ensures var t := Run(s, steps);
            && Load(t) == Load(s) - |steps|
            && Line(t.writers) == Line(s.writers) && Line(t.readers) == Line(s.readers)
  {
    if steps != [] {
      var n := |steps| - 1;
      DisciplinedPrefix(s, steps, n);
      RunSafe(s, steps[..n]);
      ReleasesDrain(s, steps[..n]);
      ReleaseLowersLoad(Run(s, steps[..n]), steps[n]);
    }
  }

  /** After as many releases as there is load, in any order, the mutex is free and every waiter has been
      granted, in its turn. */
  lemma Drained(s: State, steps: seq<Step>)
    requires Safe(s) && AllReleases(steps) && Disciplined(s, steps) && |steps| == Load(s)
    ensures var t := Run(s, steps);
            && Free(t) && t.writers.queue == [] && t.readers.queue == []
            && Granted(t.writers.log) == Granted(s.writers.log) + s.writers.queue
            && Granted(t.readers.log) == Granted(s.readers.log) + s.readers.queue
  {
    ReleasesDrain(s, steps);
  }

  /** Nobody waits on a mutex nobody holds: while there is load, there is a holder who can release. */
  lemma SomebodyCanRelease(s: State) returns (step: Step)
    requires Safe(s) && Load(s) > 0
    ensures IsRelease(step) && Allowed(s, step)
  {
    step := if s.locked then UnlockStep else UnlockSharedStep;
  }

  /** So from every safe state the releases of the holders alone get everybody through. */
  lemma DrainExists(s: State) returns (steps: seq<Step>)
    requires Safe(s)
    ensures AllReleases(steps) && Disciplined(s, steps) && |steps| == Load(s)
  {
    steps := [];
    while |steps| < Load(s)
      invariant |steps| <= Load(s) && AllReleases(steps) && Disciplined(s, steps)
    {
      ReleasesDrain(s, steps);
      RunSafe(s, steps);
      var step := SomebodyCanRelease(Run(s, steps));
      var more := steps + [step];
      forall i | 0 <= i < |more|
        ensures Allowed(Run(s, more[..i]), more[i])
      {
        assert more[..i] == steps[..i];
        if i == |steps| { assert steps[..i] == steps; }
      }
      steps := more;
    }
  }

  // ----- The blocking `lock_shared` -----

  /** A `lock_shared` that has to block is not a shared request at all: it becomes, in every respect, a
      blocking `lock`.  It agrees with the asynchronous form exactly when it does not block. */
  lemma BlockedReaderIsAWriter(s: State)
    ensures LockShared(s, true) == AsyncLockShared(s) <==> !s.locked
    ensures s.locked ==> LockShared(s, true) == Lock(s, true)
  {
    assert AsyncLockShared(s).writers.issued != Enqueue(s.writers).issued || !s.locked;
  }

  /** Its `unlock_shared` then gives nothing back: with every caller gone the mutex stays locked. */
  lemma BlockedReaderStrandsTheMutex()
    ensures var steps := [TryLockStep, LockSharedStep(true), UnlockStep, UnlockSharedStep];
            var s := Run(INITIAL, steps);
            && Granted(s.writers.log) == [0, 1] && s.writers.queue == [] && s.readers == EMPTY
            && s.locked && s.shared == 0
  {
    var steps := [TryLockStep, LockSharedStep(true), UnlockStep, UnlockSharedStep];
    assert steps[..3] == [TryLockStep, LockSharedStep(true), UnlockStep];
    assert steps[..3][..2] == [TryLockStep, LockSharedStep(true)];
    assert steps[..3][..2][..1] == [TryLockStep];
    assert steps[..3][..2][..1][..0] == [];
    var s1 := Run(INITIAL, [TryLockStep]);
    assert s1 == GrantWriter(INITIAL);
    var s2 := Run(INITIAL, [TryLockStep, LockSharedStep(true)]);
    assert s2 == s1.(writers := Enqueue(s1.writers));
    var s3 := Run(INITIAL, steps[..3]);
    assert s3 == Unlock(s2);
    assert s3.writers.log == [Entry(0, Success), Entry(1, Success)];
    GrantedOne([Entry(0, Success)], Entry(1, Success));
    GrantedOne([], Entry(0, Success));
    assert [] + [Entry(0, Success)] == [Entry(0, Success)];
  }
}
