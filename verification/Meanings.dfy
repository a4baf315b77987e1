/** What each call means to the caller of each request: a table, told in places and not in ledgers, of the
    answers a primitive gives; and the proof that the state machines answer so, in every state. */
module Answers {
  import opened Places
  import opened Ledgers

  /** The answer to a new request: at once, after those already in line, or a refusal. */
  function Reply(free: bool, waits: bool, behind: nat): Place {
    if free then Settled(Success) else if waits then InLine(behind) else Settled(InProgress)
  }
}

module MutexMeaning {
  import opened Ledgers
  import opened Places
  import opened Answers
  import opened MutexSpec

  function Meaning(s: State, step: Step, x: nat): Place {
    var p := PlaceOf(s.line, x);
    var mine, behind := x == s.line.issued, |s.line.queue|;
    match step
    case TryLockStep => if mine && !s.locked then Settled(Success) else p
    case AsyncLockStep => if mine then Reply(!s.locked, true, behind) else p
    case LockStep(enabled) => if mine then Reply(!s.locked, enabled, behind) else p
    case UnlockStep => Leave(p, 0, Success)
    case CancelStep(id) => GiveUp(p, PlaceOf(s.line, id))
    case ShutdownStep => LeaveAll(p, ShutDown)
    case DestroyStep => LeaveAll(p, Aborted)
  }

  lemma NobodyToServe(c: Ledger, x: nat)
    requires c.queue == []
    ensures Leave(PlaceOf(c, x), 0, Success) == PlaceOf(c, x)
  {
  }

  /** Every step does to every request what the table says. */
  lemma StepMeans(s: State, step: Step, x: nat)
    requires Once(s.line)
    ensures PlaceOf(Apply(s, step).line, x) == Meaning(s, step, x)
  {
    hide PlaceOf, Once;
    match step
    case TryLockStep => AnswerMeans(s.line, Success, x);
    case AsyncLockStep => AnswerMeans(s.line, Success, x); EnqueueMeans(s.line, x);
    case LockStep(_) =>
      AnswerMeans(s.line, Success, x);
      EnqueueMeans(s.line, x);
      AnswerMeans(s.line, InProgress, x);
    case UnlockStep =>
      if s.line.queue == [] { NobodyToServe(s.line, x); } else { SettleAtMeans(s.line, 0, Success, x); }
    case CancelStep(id) => CancelMeans(s.line, id, x);
    case ShutdownStep => SettleAllMeans(s.line, ShutDown, x);
    case DestroyStep => SettleAllMeans(s.line, Aborted, x);
  }

  /** After a request the mutex is locked, by its caller or by somebody before; only an unlock with nobody in
      line sets it free.  Every request but a failed try takes one number. */
  lemma StepFlags(s: State, step: Step)
    ensures var t := Apply(s, step);
            && t.locked == (if step.UnlockStep? then s.locked && s.line.queue != []
                            else s.locked || step.TryLockStep? || step.AsyncLockStep? || step.LockStep?)
            && t.released == s.released + (if step.UnlockStep? then 1 else 0)
            && t.line.issued == s.line.issued
                 + (if step.AsyncLockStep? || step.LockStep? || (step.TryLockStep? && !s.locked) then 1 else 0)
            && s.line.log <= t.line.log
            && (step.TryLockStep? && s.locked ==> t == s)
  {
  }

  ghost predicate RefusedAt(steps: seq<Step>, i: nat, x: nat)
    requires i < |steps|
  {
    var s := Run(INITIAL, steps[..i]);
    steps[i] == LockStep(false) && s.locked && s.line.issued == x
  }

  ghost predicate Refused(steps: seq<Step>, x: nat) {
    exists i :: 0 <= i < |steps| && RefusedAt(steps, i, x)
  }

  lemma RefusedLast(steps: seq<Step>, x: nat)
    requires steps != []
    ensures var n := |steps| - 1; Refused(steps, x) <==> Refused(steps[..n], x) || RefusedAt(steps, n, x)
  {
    var n := |steps| - 1;
    forall i | 0 <= i < n
      ensures RefusedAt(steps[..n], i, x) == RefusedAt(steps, i, x)
    {
      assert steps[..n][..i] == steps[..i];
    }
  }

  /** Over every run, the only ones refused are blocking calls without threads that found the lock taken. */
  lemma {:induction false} RefusedIff(steps: seq<Step>, x: nat)
    ensures PlaceOf(Run(INITIAL, steps).line, x) == Settled(InProgress) <==> Refused(steps, x)
  {
    if steps != [] {
      var n := |steps| - 1;
      var s := Run(INITIAL, steps[..n]);
      RefusedIff(steps[..n], x);
      RunFair(steps[..n]);
      StepMeans(s, steps[n], x);
      UnbornIff(s.line, x);
      RefusedLast(steps, x);
    }
  }
}

module SemaphoreMeaning {
  import opened Ledgers
  import opened Places
  import opened Answers
  import opened SemaphoreSpec

  function Meaning(s: State, step: Step, x: nat): Place {
    var p := PlaceOf(s.line, x);
    var mine, behind := x == s.line.issued, |s.line.queue|;
    match step
    case TryAcquireStep => if mine && s.count > 0 then Settled(Success) else p
    case AsyncAcquireStep => if mine then Reply(s.count > 0, true, behind) else p
    case AcquireStep(enabled) => if mine then Reply(s.count > 0, enabled, behind) else p
    case ReleaseStep => Leave(p, 0, Success)
    case CancelStep(id) => GiveUp(p, PlaceOf(s.line, id))
    case ShutdownStep => LeaveAll(p, ShutDown)
    case DestroyStep => LeaveAll(p, Aborted)
  }

  lemma NobodyToServe(c: Ledger, x: nat)
    requires c.queue == []
    ensures Leave(PlaceOf(c, x), 0, Success) == PlaceOf(c, x)
  {
  }

  /** Every step does to every request what the table says, with any count. */
  lemma StepMeans(s: State, step: Step, x: nat)
    requires Once(s.line)
    ensures PlaceOf(Apply(s, step).line, x) == Meaning(s, step, x)
  {
    hide PlaceOf, Once;
    match step
    case TryAcquireStep => AnswerMeans(s.line, Success, x);
    case AsyncAcquireStep => AnswerMeans(s.line, Success, x); EnqueueMeans(s.line, x);
    case AcquireStep(_) =>
      AnswerMeans(s.line, Success, x);
      EnqueueMeans(s.line, x);
      AnswerMeans(s.line, InProgress, x);
    case ReleaseStep =>
      if s.line.queue == [] { NobodyToServe(s.line, x); } else { SettleAtMeans(s.line, 0, Success, x); }
    case CancelStep(id) => CancelMeans(s.line, id, x);
    case ShutdownStep => SettleAllMeans(s.line, ShutDown, x);
    case DestroyStep => SettleAllMeans(s.line, Aborted, x);
  }

  predicate Asks(step: Step) {
    step.TryAcquireStep? || step.AsyncAcquireStep? || step.AcquireStep?
  }

  /** Whoever asks while there is a unit takes exactly one; a release adds one exactly when nobody waits. */
  lemma StepCounts(s: State, step: Step)
    ensures var t := Apply(s, step);
            && t.count == s.count - (if Asks(step) && s.count > 0 then 1 else 0)
                          + (if step.ReleaseStep? && s.line.queue == [] then 1 else 0)
            && t.released == s.released + (if step.ReleaseStep? then 1 else 0)
            && t.line.issued == s.line.issued
                 + (if Asks(step) && (s.count > 0 || !step.TryAcquireStep?) then 1 else 0)
            && s.line.log <= t.line.log
            && (step.TryAcquireStep? && s.count <= 0 ==> t == s)
  {
  }

  ghost predicate RefusedAt(n: int, steps: seq<Step>, i: nat, x: nat)
    requires i < |steps|
  {
    var s := Run(Initial(n), steps[..i]);
    steps[i] == AcquireStep(false) && s.count == 0 && s.line.issued == x
  }

  ghost predicate Refused(n: int, steps: seq<Step>, x: nat) {
    exists i :: 0 <= i < |steps| && RefusedAt(n, steps, i, x)
  }

  lemma RefusedLast(n: int, steps: seq<Step>, x: nat)
    requires steps != []
    ensures var k := |steps| - 1; Refused(n, steps, x) <==> Refused(n, steps[..k], x) || RefusedAt(n, steps, k, x)
  {
    var k := |steps| - 1;
    forall i | 0 <= i < k
      ensures RefusedAt(n, steps[..k], i, x) == RefusedAt(n, steps, i, x)
    {
      assert steps[..k][..i] == steps[..i];
    }
  }

  /** Over every run, the only ones refused are blocking calls without threads that found no unit. */
  lemma {:induction false} RefusedIff(n: int, steps: seq<Step>, x: nat)
    requires n >= 0
    ensures PlaceOf(Run(Initial(n), steps).line, x) == Settled(InProgress) <==> Refused(n, steps, x)
  {
    if steps != [] {
      var k := |steps| - 1;
      var s := Run(Initial(n), steps[..k]);
      RefusedIff(n, steps[..k], x);
      RunBalanced(n, steps[..k]);
      StepMeans(s, steps[k], x);
      UnbornIff(s.line, x);
      RefusedLast(n, steps, x);
    }
  }
}

module SharedMutexMeaning {
  import opened Ledgers
  import opened Places
  import opened Answers
  import opened SharedMutexSpec

  /** What a step means to request `x` of the exclusive line. */
  function ToWriter(s: State, step: Step, x: nat): Place {
    var p := PlaceOf(s.writers, x);
    var mine, behind := x == s.writers.issued, |s.writers.queue|;
    var free := !s.locked && s.shared == 0;
    match step
    case TryLockStep => if mine && free then Settled(Success) else p
    case AsyncLockStep => if mine then Reply(free, true, behind) else p
    case LockStep(enabled) => if mine then Reply(free, enabled, behind) else p
    case LockSharedStep(enabled) => if mine && s.locked && enabled then InLine(behind) else p
    case UnlockStep => if s.readers.queue == [] then Leave(p, 0, Success) else p
    case UnlockSharedStep => if s.shared <= 1 then Leave(p, 0, Success) else p
    case CancelStep(id) => GiveUp(p, PlaceOf(s.writers, id))
    case ShutdownStep => LeaveAll(p, ShutDown)
    case DestroyStep => LeaveAll(p, Aborted)
    case _ => p
  }

  /** What a step means to request `x` of the shared line. */
  function ToReader(s: State, step: Step, x: nat): Place {
    var p := PlaceOf(s.readers, x);
    var mine, behind := x == s.readers.issued, |s.readers.queue|;
    match step
    case TryLockSharedStep => if mine && !s.locked then Settled(Success) else p
    case AsyncLockSharedStep => if mine then Reply(!s.locked, true, behind) else p
    case LockSharedStep(enabled) => if mine && !(s.locked && enabled) then Reply(!s.locked, false, behind) else p
    case UnlockStep => LeaveAll(p, Success)
    case CancelSharedStep(id) => GiveUp(p, PlaceOf(s.readers, id))
    case ShutdownStep => LeaveAll(p, ShutDown)
    case DestroyStep => LeaveAll(p, Aborted)
    case _ => p
  }

  lemma NobodyToServe(c: Ledger, x: nat)
    requires c.queue == []
    ensures Leave(PlaceOf(c, x), 0, Success) == PlaceOf(c, x) == LeaveAll(PlaceOf(c, x), Success)
  {
  }

  /** Every step does to every exclusive request what the table says, whoever holds the mutex. */
  lemma StepMeansToWriter(s: State, step: Step, x: nat)
    requires Once(s.writers)
    ensures PlaceOf(Apply(s, step).writers, x) == ToWriter(s, step, x)
  {
    hide PlaceOf, Once;
    var c := s.writers;
    if c.queue == [] { NobodyToServe(c, x); } else { SettleAtMeans(c, 0, Success, x); }
    match step
    case TryLockStep => AnswerMeans(c, Success, x);
    case AsyncLockStep => AnswerMeans(c, Success, x); EnqueueMeans(c, x);
    case LockStep(_) => AnswerMeans(c, Success, x); EnqueueMeans(c, x); AnswerMeans(c, InProgress, x);
    case LockSharedStep(_) => EnqueueMeans(c, x);
    case CancelStep(id) => CancelMeans(c, id, x);
    case ShutdownStep => SettleAllMeans(c, ShutDown, x);
    case DestroyStep => SettleAllMeans(c, Aborted, x);
    case _ =>
  }

  /** Every step does to every shared request what the table says, whoever holds the mutex. */
  lemma StepMeansToReader(s: State, step: Step, x: nat)
    requires Once(s.readers)
    ensures PlaceOf(Apply(s, step).readers, x) == ToReader(s, step, x)
  {
    hide PlaceOf, Once;
    var c := s.readers;
    if c.queue == [] { NobodyToServe(c, x); }
    match step
    case TryLockSharedStep => AnswerMeans(c, Success, x);
    case AsyncLockSharedStep => AnswerMeans(c, Success, x); EnqueueMeans(c, x);
    case LockSharedStep(_) => AnswerMeans(c, Success, x); AnswerMeans(c, InProgress, x);
    case UnlockStep => SettleAllMeans(c, Success, x);
    case CancelSharedStep(id) => CancelMeans(c, id, x);
    case ShutdownStep => SettleAllMeans(c, ShutDown, x);
    case DestroyStep => SettleAllMeans(c, Aborted, x);
    case _ =>
  }

  predicate AsksExclusive(step: Step) {
    step.TryLockStep? || step.AsyncLockStep? || step.LockStep?
  }

  predicate AsksShared(step: Step) {
    step.TryLockSharedStep? || step.AsyncLockSharedStep? || step.LockSharedStep?
  }

  /** The flag and the count after each step: a shared request that finds no writer counts one reader, an
      unlock counts every reader who waited, a shared unlock one less. */
  lemma StepFlags(s: State, step: Step)
    ensures var t := Apply(s, step);
            && t.locked == (if step.UnlockStep? then s.locked && s.readers.queue == [] && s.writers.queue != []
                            else s.locked || (AsksExclusive(step) && s.shared == 0)
                                 || (step.UnlockSharedStep? && s.shared <= 1 && s.writers.queue != []))
            && t.shared == (if step.UnlockSharedStep? then (if s.shared > 0 then s.shared - 1 else 0)
                            else s.shared + (if AsksShared(step) && !s.locked then 1 else 0)
                                 + (if step.UnlockStep? then |s.readers.queue| else 0))
            && t.released == s.released + (if step.UnlockStep? then 1 else 0)
            && t.releasedShared == s.releasedShared + (if step.UnlockSharedStep? then 1 else 0)
  {
  }

  /** Who takes a number of which line, and that a failed try changes nothing. */
  lemma StepNumbers(s: State, step: Step)
    ensures var t := Apply(s, step);
            && t.writers.issued == s.writers.issued
                 + (if (AsksExclusive(step) && (Free(s) || !step.TryLockStep?))
                       || (step == LockSharedStep(true) && s.locked) then 1 else 0)
            && t.readers.issued == s.readers.issued
                 + (if AsksShared(step) && (!s.locked || step.AsyncLockSharedStep? || step == LockSharedStep(false))
                    then 1 else 0)
            && s.writers.log <= t.writers.log && s.readers.log <= t.readers.log
            && (step.TryLockStep? && !Free(s) ==> t == s)
            && (step.TryLockSharedStep? && s.locked ==> t == s)
  {
  }

  /** A shared request is granted at once exactly when no writer holds the mutex; an asynchronous one is never
      turned away, but waits behind the others. */
  lemma SharedRequests(s: State)
    requires Once(s.writers) && Once(s.readers)
    ensures var me := s.readers.issued;
            && (me in Granted(Apply(s, TryLockSharedStep).readers.log) <==> !s.locked)
            && (me in Granted(Apply(s, AsyncLockSharedStep).readers.log) <==> !s.locked)
            && me !in Denied(Apply(s, AsyncLockSharedStep).readers.log)
            && (s.locked ==> Apply(s, AsyncLockSharedStep).readers.queue == s.readers.queue + [me])
  {
    var me, t, u := s.readers.issued, Apply(s, TryLockSharedStep), Apply(s, AsyncLockSharedStep);
    StepMeansToReader(s, TryLockSharedStep, me);
    StepMeansToReader(s, AsyncLockSharedStep, me);
    UnbornIff(s.readers, me);
    StepOnce(s, TryLockSharedStep);
    StepOnce(s, AsyncLockSharedStep);
    GrantedIff(t.readers, me);
    GrantedIff(u.readers, me);
    NotDenied(u.readers, me);
  }

  lemma NotDenied(c: Ledger, x: nat)
    requires Once(c) && (x in Granted(c.log) || x in c.queue)
    ensures x !in Denied(c.log)
  {
    Whereabouts(c, x);
    assert x in Denied(c.log) <==> multiset(Denied(c.log))[x] > 0;
    assert x in Granted(c.log) <==> multiset(Granted(c.log))[x] > 0;
    assert x in c.queue <==> multiset(c.queue)[x] > 0;
  }

  ghost predicate RefusedAt(steps: seq<Step>, i: nat, x: nat)
    requires i < |steps|
  {
    var s := Run(INITIAL, steps[..i]);
    steps[i] == LockStep(false) && !Free(s) && s.writers.issued == x
  }

  ghost predicate Refused(steps: seq<Step>, x: nat) {
    exists i :: 0 <= i < |steps| && RefusedAt(steps, i, x)
  }

  lemma RefusedLast(steps: seq<Step>, x: nat)
    requires steps != []
    ensures var n := |steps| - 1; Refused(steps, x) <==> Refused(steps[..n], x) || RefusedAt(steps, n, x)
  {
    var n := |steps| - 1;
    forall i | 0 <= i < n
      ensures RefusedAt(steps[..n], i, x) == RefusedAt(steps, i, x)
    {
      assert steps[..n][..i] == steps[..i];
    }
  }

  /** Over every run, the only exclusive requests refused are blocking calls without threads. */
  lemma {:induction false} RefusedIff(steps: seq<Step>, x: nat)
    ensures PlaceOf(Run(INITIAL, steps).writers, x) == Settled(InProgress) <==> Refused(steps, x)
  {
    if steps != [] {
      var n := |steps| - 1;
      var s := Run(INITIAL, steps[..n]);
      RefusedIff(steps[..n], x);
      RunOnce(steps[..n]);
      StepMeansToWriter(s, steps[n], x);
      UnbornIff(s.writers, x);
      RefusedLast(steps, x);
    }
  }

  ghost predicate RefusedSharedAt(steps: seq<Step>, i: nat, x: nat)
    requires i < |steps|
  {
    var s := Run(INITIAL, steps[..i]);
    steps[i] == LockSharedStep(false) && s.locked && s.readers.issued == x
  }

  ghost predicate RefusedShared(steps: seq<Step>, x: nat) {
    exists i :: 0 <= i < |steps| && RefusedSharedAt(steps, i, x)
  }

  lemma RefusedSharedLast(steps: seq<Step>, x: nat)
    requires steps != []
    ensures var n := |steps| - 1;
            RefusedShared(steps, x) <==> RefusedShared(steps[..n], x) || RefusedSharedAt(steps, n, x)
  {
    var n := |steps| - 1;
    forall i | 0 <= i < n
      ensures RefusedSharedAt(steps[..n], i, x) == RefusedSharedAt(steps, i, x)
    {
      assert steps[..n][..i] == steps[..i];
    }
  }

  /** Over every run, the only shared requests refused are blocking calls without threads. */
  lemma {:induction false} RefusedSharedIff(steps: seq<Step>, x: nat)
    ensures PlaceOf(Run(INITIAL, steps).readers, x) == Settled(InProgress) <==> RefusedShared(steps, x)
  {
    if steps != [] {
      var n := |steps| - 1;
      var s := Run(INITIAL, steps[..n]);
      RefusedSharedIff(steps[..n], x);
      RunOnce(steps[..n]);
      StepMeansToReader(s, steps[n], x);
      UnbornIff(s.readers, x);
      RefusedSharedLast(steps, x);
    }
  }
}

module BarrierMeaning {
  import opened Ledgers
  import opened Places
  import opened Answers
  import opened BarrierSpec

  /** The next arrival would be the last of its generation. */
  predicate LastPlace(s: State) {
    s.counter == 1
  }

  /** Does the step arrive?  A try and the first half of a split arrival do only at the last place, a blocking
      call without threads too; the others always do. */
  predicate Arrives(s: State, step: Step) {
    match step
    case TryArriveStep => LastPlace(s)
    case ArriveStep(enabled) => enabled || LastPlace(s)
    case AsyncArriveStep => true
    case ApproachStep => LastPlace(s)
    case CommitStep => s.between > 0
    case _ => false
  }

  /** The arrival that takes the last place lets its generation through, unless it is a second half. */
  predicate Opens(s: State, step: Step) {
    LastPlace(s) && Arrives(s, step) && !step.CommitStep?
  }

  function Meaning(s: State, step: Step, x: nat): Place {
    var p := PlaceOf(s.line, x);
    var mine, behind := x == s.line.issued, |s.line.queue|;
    if Opens(s, step) then (if mine then Settled(Success) else LeaveAll(p, Success))
    else
      match step
      case ArriveStep(enabled) => if mine then Reply(false, enabled, behind) else p
      case AsyncArriveStep => if mine then InLine(behind) else p
      case CommitStep => if mine && s.between > 0 then InLine(behind) else p
      case CancelStep(id) => GiveUp(p, PlaceOf(s.line, id))
      case ShutdownStep => LeaveAll(p, ShutDown)
      case DestroyStep => LeaveAll(p, Aborted)
      case _ => p
  }

  lemma OpenMeans(s: State, x: nat)
    requires Once(s.line) && s.counter == 1
    ensures PlaceOf(TryArrive(s).line, x)
            == if x == s.line.issued then Settled(Success) else LeaveAll(PlaceOf(s.line, x), Success)
  {
    var c := s.line;
    SettleAllOnce(c, Success);
    SettleAllMeans(c, Success, x);
    AnswerMeans(SettleAll(c, Success), Success, x);
  }

  /** Every step does to every operation what the table says, with any counter. */
  lemma StepMeans(s: State, step: Step, x: nat)
    requires Once(s.line)
    ensures PlaceOf(Apply(s, step).line, x) == Meaning(s, step, x)
  {
    hide PlaceOf, Once;
    var c := s.line;
    EnqueueMeans(c, x);
    if s.counter == 1 { OpenMeans(s, x); LastArrival(s); }
    match step
    case TryArriveStep =>
    case ArriveStep(_) => AnswerMeans(c, InProgress, x);
    case AsyncArriveStep => if s.counter != 1 { assert AsyncArrive(s) == Join(s); }
    case ApproachStep =>
    case CommitStep =>
    case CancelStep(id) => CancelMeans(c, id, x);
    case ShutdownStep => SettleAllMeans(c, ShutDown, x);
    case DestroyStep => SettleAllMeans(c, Aborted, x);
  }

  /** What each step does to the counter, to those between the two halves, and to the record of arrivals.  A
      failed try puts the counter back and changes nothing at all. */
  lemma StepCounts(s: State, step: Step)
    ensures var t := Apply(s, step);
            && t.init == s.init
            && t.counter == (if Opens(s, step) then s.init else if Arrives(s, step) then s.counter - 1 else s.counter)
            && t.generations == s.generations + (if Opens(s, step) then 1 else 0)
            && t.counted == s.counted + (if Arrives(s, step) then [s.line.issued] else [])
            && t.line.issued == s.line.issued + (if Arrives(s, step) || step.ArriveStep? then 1 else 0)
            && t.between == s.between + (if step.ApproachStep? && !LastPlace(s) then 1 else 0)
                                      - (if step.CommitStep? && s.between > 0 then 1 else 0)
            && (step.TryArriveStep? && !LastPlace(s) ==> t == s)
  {
    if s.counter == 1 { LastArrival(s); }
    if step.AsyncArriveStep? && s.counter != 1 { assert AsyncArrive(s) == Join(s); }
  }

  /** The steps of a run that arrived. */
  function Arrivals(init: int, steps: seq<Step>): nat {
    if steps == [] then 0
    else
      var n := |steps| - 1;
      Arrivals(init, steps[..n]) + if Arrives(Run(Initial(init), steps[..n]), steps[n]) then 1 else 0
  }

  /** Over every run the arrivals on record are those really made. */
  lemma {:induction false} CountedArrivals(init: int, steps: seq<Step>)
    ensures |Run(Initial(init), steps).counted| == Arrivals(init, steps)
  {
    if steps != [] {
      var n := |steps| - 1;
      CountedArrivals(init, steps[..n]);
      StepCounts(Run(Initial(init), steps[..n]), steps[n]);
    }
  }

  /** So the counter of a barrier whose split arrivals had room counts down from `init` with the arrivals made. */
  lemma CounterCountsArrivals(init: int, steps: seq<Step>)
    requires init >= 1
    ensures var s, a := Run(Initial(init), steps), Arrivals(init, steps);
            Roomy(Initial(init), steps) <==> s.generations == a / init && s.counter == init - a % init
  {
    CountedArrivals(init, steps);
    GenerationsIffRoomy(init, steps);
  }

  /** Trying alone never gets anybody through, unless one arrival is enough. */
  lemma {:induction false} TriesAloneFail(init: int, steps: seq<Step>)
    requires init != 1 && forall i :: 0 <= i < |steps| ==> steps[i].TryArriveStep?
    ensures Run(Initial(init), steps) == Initial(init)
  {
    if steps != [] {
      TriesAloneFail(init, steps[..|steps| - 1]);
      StepCounts(Initial(init), TryArriveStep);
    }
  }
}

module ConditionVariableMeaning {
  import opened Ledgers
  import opened Places
  import opened ConditionVariableSpec

  /** How many of the first `j` in line have a predicate that is false. */
  function Staying(q: seq<nat>, j: nat, ready: set<nat>): nat
    requires j <= |q|
  {
    |set i | 0 <= i < j && q[i] !in ready|
  }

  function Meaning(c: Ledger, step: Step, x: nat): Place {
    var p := PlaceOf(c, x);
    match step
    case WaitStep => if x == c.issued then InLine(|c.queue|) else p
    case NotifyOneStep(ready) => if c.queue != [] && c.queue[0] in ready then Leave(p, 0, Success) else p
    case NotifyAllStep(ready) =>
      if !p.InLine? then p
      else if x in ready then Settled(Success)
      else if p.ahead <= |c.queue| then InLine(Staying(c.queue, p.ahead, ready))
      else p
    case CancelStep(id) => GiveUp(p, PlaceOf(c, id))
    case ShutdownStep => LeaveAll(p, ShutDown)
    case DestroyStep => LeaveAll(p, Aborted)
  }

  lemma StayingOne(q: seq<nat>, j: nat, ready: set<nat>)
    requires j < |q|
    ensures Staying(q, j + 1, ready) == Staying(q, j, ready) + if q[j] in ready then 0 else 1
  {
    var a, b := set i | 0 <= i < j && q[i] !in ready, set i | 0 <= i < j + 1 && q[i] !in ready;
    if q[j] in ready { assert a == b; } else { assert b == a + {j}; }
  }

  lemma {:induction false} RejectAppend(q: seq<nat>, r: seq<nat>, ready: set<nat>)
    ensures Reject(q + r, ready) == Reject(q, ready) + Reject(r, ready)
  {
    if q == [] {
      assert q + r == r;
    } else {
      assert (q + r)[1..] == q[1..] + r;
      RejectAppend(q[1..], r, ready);
    }
  }

  /** Who stays is preceded by those ahead who stay. */
  lemma {:induction false} RejectAt(q: seq<nat>, j: nat, ready: set<nat>)
    requires j <= |q|
    ensures |Reject(q[..j], ready)| == Staying(q, j, ready)
    ensures j < |q| && q[j] !in ready ==>
              Staying(q, j, ready) < |Reject(q, ready)| && Reject(q, ready)[Staying(q, j, ready)] == q[j]
  {
    if j > 0 {
      RejectAt(q, j - 1, ready);
      StayingOne(q, j - 1, ready);
      assert q[..j] == q[..j - 1] + [q[j - 1]];
      RejectAppend(q[..j - 1], [q[j - 1]], ready);
    }
    if j < |q| {
      assert q == q[..j] + q[j..];
      RejectAppend(q[..j], q[j..], ready);
    }
  }

  lemma NotifyAllMeans(c: Ledger, ready: set<nat>, x: nat)
    requires Once(c)
    ensures PlaceOf(NotifyAll(c, ready), x) == Meaning(c, NotifyAllStep(ready), x)
  {
    var q := c.queue;
    NotifyAllOnce(c, ready);
    OnceDistinct(c);
    OnceDistinct(NotifyAll(c, ready));
    FilterMembers(q, ready, x);
    SettlementPosted(c.log, Select(q, ready), Success, x);
    if x in q && x !in ready {
      var j := IndexOf(q, x);
      RejectAt(q, j, ready);
      IndexIs(Reject(q, ready), Staying(q, j, ready));
    }
  }

  /** Every step does to every waiter what the table says. */
  lemma StepMeans(c: Ledger, step: Step, x: nat)
    requires Once(c)
    ensures PlaceOf(Apply(c, step), x) == Meaning(c, step, x)
  {
    hide PlaceOf, Once;
    match step
    case WaitStep => EnqueueMeans(c, x);
    case NotifyOneStep(ready) => if c.queue != [] { SettleAtMeans(c, 0, Success, x); }
    case NotifyAllStep(ready) => NotifyAllMeans(c, ready, x);
    case CancelStep(id) => CancelMeans(c, id, x);
    case ShutdownStep => SettleAllMeans(c, ShutDown, x);
    case DestroyStep => SettleAllMeans(c, Aborted, x);
  }

  function Waits(steps: seq<Step>): nat {
    if steps == [] then 0
    else Waits(steps[..|steps| - 1]) + if steps[|steps| - 1].WaitStep? then 1 else 0
  }

  /** Over every run there are as many waiters as calls to wait. */
  lemma {:induction false} EverybodyWaits(steps: seq<Step>)
    ensures Run(EMPTY, steps).issued == Waits(steps)
  {
    if steps != [] { EverybodyWaits(steps[..|steps| - 1]); }
  }

  /** The step wakes, cancels, shuts down or destroys the waiter, who has arrived before. */
  predicate Removes(c: Ledger, step: Step, x: nat) {
    match step
    case WaitStep => false
    case NotifyOneStep(ready) => c.queue != [] && c.queue[0] == x && x in ready
    case NotifyAllStep(ready) => x in ready
    case CancelStep(id) => id == x
    case ShutdownStep => true
    case DestroyStep => true
  }

  ghost predicate RemovedAt(steps: seq<Step>, i: nat, x: nat)
    requires i < |steps|
  {
    x < Waits(steps[..i]) && Removes(Run(EMPTY, steps[..i]), steps[i], x)
  }

  ghost predicate Removed(steps: seq<Step>, x: nat) {
    exists i :: 0 <= i < |steps| && RemovedAt(steps, i, x)
  }

  lemma RemovedLast(steps: seq<Step>, x: nat)
    requires steps != []
    ensures var n := |steps| - 1; Removed(steps, x) <==> Removed(steps[..n], x) || RemovedAt(steps, n, x)
  {
    var n := |steps| - 1;
    forall i | 0 <= i < n
      ensures RemovedAt(steps[..n], i, x) == RemovedAt(steps, i, x)
    {
      assert steps[..n][..i] == steps[..i];
    }
  }

  lemma StepStays(c: Ledger, step: Step, x: nat)
    requires Once(c)
    ensures x in Apply(c, step).queue
       <==> (x in c.queue && !Removes(c, step, x)) || (step.WaitStep? && x == c.issued)
  {
    match step
    case WaitStep =>
    case NotifyOneStep(ready) => if c.queue != [] { FrontLeaves(c, x); }
    case NotifyAllStep(ready) => FilterMembers(c.queue, ready, x);
    case CancelStep(id) => if id in c.queue { OneLeaves(c, IndexOf(c.queue, id), x); }
    case ShutdownStep =>
    case DestroyStep =>
  }

  lemma OneLeaves(c: Ledger, k: nat, x: nat)
    requires Once(c) && k < |c.queue|
    ensures x in Without(c.queue, k) <==> x in c.queue && x != c.queue[k]
  {
    OnceDistinct(c);
    WithoutMembers(c.queue, k);
    if x in c.queue && x != c.queue[k] { IndexWithout(c.queue, k, x); }
  }

  lemma FrontLeaves(c: Ledger, x: nat)
    requires Once(c) && c.queue != []
    ensures x in Without(c.queue, 0) <==> x in c.queue && x != c.queue[0]
  {
    OneLeaves(c, 0, x);
  }

  /** Over every run a waiter is in the queue if and only if it has arrived and nothing has removed it since. */
  lemma {:induction false} WaitsIff(steps: seq<Step>, x: nat)
    ensures x in Run(EMPTY, steps).queue <==> x < Waits(steps) && !Removed(steps, x)
  {
    if steps != [] {
      var n := |steps| - 1;
      var c := Run(EMPTY, steps[..n]);
      WaitsIff(steps[..n], x);
      RunOrderly(steps[..n]);
      StepStays(c, steps[n], x);
      RemovedLast(steps, x);
      EverybodyWaits(steps[..n]);
      UnbornIff(c, x);
      if x >= c.issued { NotYetRemoved(steps[..n], x); }
    }
  }

  lemma {:induction false} WaitsGrow(steps: seq<Step>, i: nat)
    requires i <= |steps|
    ensures Waits(steps[..i]) <= Waits(steps)
  {
    if i == |steps| {
      assert steps[..i] == steps;
    } else {
      WaitsGrow(steps[..|steps| - 1], i);
      assert steps[..|steps| - 1][..i] == steps[..i];
    }
  }

  lemma NotYetRemoved(steps: seq<Step>, x: nat)
    requires x >= Waits(steps)
    ensures !Removed(steps, x)
  {
    forall i | 0 <= i < |steps|
      ensures !RemovedAt(steps, i, x)
    {
      WaitsGrow(steps, i);
    }
  }
}

module GuardedMeaning {
  import opened Ledgers
  import opened Places
  import opened Answers
  import opened GuardedSpec
  import MM = MutexMeaning
  import SM = SemaphoreMeaning

  /** What a step of the protocol means to request `x` at the guard. */
  function Meaning(s: State, step: Step, x: nat): Place {
    var p := PlaceOf(Line(s.guard), x);
    var mine, behind := x == Line(s.guard).issued, |Line(s.guard).queue|;
    match step
    case BeginStep(cancelled) => if mine && !cancelled && Free(s.guard) > 0 then Settled(Success) else p
    case AskStep => if mine && s.trying > 0 then Reply(Free(s.guard) > 0, true, behind) else p
    case ResumeStep(_, _) => p
    case FinishStep(id, _) => if id in s.started - s.ran then Leave(p, 0, Success) else p
    case CancelStep(id) => GiveUp(p, PlaceOf(Line(s.guard), id))
  }

  /** When a step can happen: a handler runs when its operation was settled and it has not run before, an
      inner operation ends once, and whoever waits can be cancelled. */
  lemma EnabledIff(s: State, step: Step)
    requires Once(Line(s.guard))
    ensures Enabled(s, step) <==>
              match step
              case BeginStep(_) => true
              case AskStep => s.trying > 0
              case ResumeStep(id, ec) =>
                PlaceOf(Line(s.guard), id) == Settled(ec) && id !in s.started + s.turned
              case FinishStep(id, _) => id in s.started - s.ran
              case CancelStep(id) => PlaceOf(Line(s.guard), id).InLine?
  {
    match step
    case ResumeStep(id, ec) => SettledIff(Line(s.guard), id, ec);
    case CancelStep(id) => UnbornIff(Line(s.guard), id);
    case _ =>
  }

  lemma GuardMeans(g: Guard, x: nat)
    requires Once(Line(g))
    ensures var p, mine, behind := PlaceOf(Line(g), x), x == Line(g).issued, |Line(g).queue|;
            && PlaceOf(Line(TryTake(g)), x) == (if mine && Free(g) > 0 then Settled(Success) else p)
            && PlaceOf(Line(AsyncTake(g)), x) == (if mine then Reply(Free(g) > 0, true, behind) else p)
            && PlaceOf(Line(GiveBack(g)), x) == Leave(p, 0, Success)
            && forall id :: PlaceOf(Line(CancelWait(g, id)), x) == GiveUp(p, PlaceOf(Line(g), id))
  {
    hide PlaceOf, Once;
    match g
    case BySemaphore(s) =>
      SM.StepMeans(s, SM.SemaphoreSpec.TryAcquireStep, x);
      SM.StepMeans(s, SM.SemaphoreSpec.AsyncAcquireStep, x);
      SM.StepMeans(s, SM.SemaphoreSpec.ReleaseStep, x);
      forall id { SM.StepMeans(s, SM.SemaphoreSpec.CancelStep(id), x); }
    case ByMutex(m) =>
      MM.StepMeans(m, MM.MutexSpec.TryLockStep, x);
      MM.StepMeans(m, MM.MutexSpec.AsyncLockStep, x);
      MM.StepMeans(m, MM.MutexSpec.UnlockStep, x);
      forall id { MM.StepMeans(m, MM.MutexSpec.CancelStep(id), x); }
  }

  /** Every step does to every request at the guard what the table says. */
  lemma StepMeans(s: State, step: Step, x: nat)
    requires Once(Line(s.guard))
    ensures PlaceOf(Line(Apply(s, step).guard), x) == Meaning(s, step, x)
  {
    GuardMeans(s.guard, x);
    EnabledIff(s, step);
    hide PlaceOf, Once, TryTake, AsyncTake, GiveBack, CancelWait;
  }

  /** Whose inner operation the step starts: a beginner's who finds a unit, or one's who is told of a grant. */
  function Starts(s: State, step: Step): set<nat> {
    match step
    case BeginStep(false) => if Free(s.guard) > 0 then {Line(s.guard).issued} else {}
    case ResumeStep(id, Success) => {id}
    case _ => {}
  }

  /** What the step tells its caller. */
  function Tells(s: State, step: Step): seq<Outcome> {
    match step
    case BeginStep(cancelled) => if cancelled then [Refused] else []
    case ResumeStep(id, ec) => if ec.Success? then [] else [Turned(id, ec)]
    case FinishStep(id, result) => [Ran(id, result)]
    case _ => []
  }

  /** And what it does to the operations: who runs, who is told what, who still has to ask. */
  lemma StepDoes(s: State, step: Step)
    requires Enabled(s, step)
    ensures var t := Apply(s, step);
            && t.started == s.started + Starts(s, step)
            && t.outcomes == s.outcomes + Tells(s, step)
            && t.begun == s.begun + (if step.BeginStep? then 1 else 0)
            && t.trying == s.trying + (if step == BeginStep(false) && Free(s.guard) <= 0 then 1 else 0)
                                    - (if step.AskStep? then 1 else 0)
            && (step.FinishStep? ==> t.ran == s.ran + {step.id}) && (!step.FinishStep? ==> t.ran == s.ran)
  {
  }

  /** The units: one is taken by whoever starts at once or asks while there is one; one comes back with each
      inner operation that ends, to the first in line or to the guard. */
  lemma StepUnits(s: State, n: nat, step: Step)
    requires Inv(s, n) && Enabled(s, step)
    ensures var g, h := s.guard, Apply(s, step).guard;
            && Free(h) == Free(g)
                 - (if (step == BeginStep(false) || step.AskStep?) && Free(g) > 0 then 1 else 0)
                 + (if step.FinishStep? && Line(g).queue == [] then 1 else 0)
            && Released(h) == Released(g) + (if step.FinishStep? then 1 else 0)
  {
    hide Inv, Sized, TryTake, AsyncTake, GiveBack, CancelWait, Released, Free, Line;
    InvSized(s, n);
    SizedFree(s.guard, n);
    GuardCounts(s.guard);
    if step.FinishStep? { HolderFinishes(s, n, step.id); }
  }

  lemma GuardCounts(g: Guard)
    ensures Free(TryTake(g)) == Free(AsyncTake(g)) == Free(g) - (if Free(g) > 0 then 1 else 0)
    ensures (g.ByMutex? ==> Free(g) == 0) ==> Free(GiveBack(g)) == Free(g) + if Line(g).queue == [] then 1 else 0
    ensures Released(TryTake(g)) == Released(AsyncTake(g)) == Released(g) && Released(GiveBack(g)) == Released(g) + 1
    ensures forall id :: Free(CancelWait(g, id)) == Free(g) && Released(CancelWait(g, id)) == Released(g)
  {
  }

  /** While an inner operation runs under a mutex, the mutex is not free. */
  lemma HolderFinishes(s: State, n: nat, id: nat)
    requires Inv(s, n) && id in s.started && id !in s.ran
    ensures s.guard.ByMutex? ==> Free(s.guard) == 0
  {
    UnitsAreConserved(s, n);
    assert id in Running(s);
  }

  function Begins(steps: seq<Step>): nat {
    if steps == [] then 0
    else Begins(steps[..|steps| - 1]) + if steps[|steps| - 1].BeginStep? then 1 else 0
  }

  /** Over every schedule as many operations have begun as were initiated. */
  lemma {:induction false} BegunCounts(g: Guard, steps: seq<Step>)
    ensures Run(Initial(g), steps).begun == Begins(steps)
  {
    if steps != [] { BegunCounts(g, steps[..|steps| - 1]); }
  }

  ghost predicate TurnedAt(s: State, steps: seq<Step>, i: nat, id: nat, ec: Ec)
    requires i < |steps|
  {
    steps[i] == ResumeStep(id, ec) && !ec.Success? && Enabled(Run(s, steps[..i]), steps[i])
  }

  ghost predicate TurnedAway(s: State, steps: seq<Step>, id: nat, ec: Ec) {
    exists i :: 0 <= i < |steps| && TurnedAt(s, steps, i, id, ec)
  }

  lemma TurnedLast(s: State, steps: seq<Step>, id: nat, ec: Ec)
    requires steps != []
    ensures var n := |steps| - 1;
            && (TurnedAway(s, steps, id, ec)
                <==> TurnedAway(s, steps[..n], id, ec) || TurnedAt(s, steps, n, id, ec))
  {
    var n := |steps| - 1;
    forall i | 0 <= i < n
      ensures TurnedAt(s, steps[..n], i, id, ec) == TurnedAt(s, steps, i, id, ec)
    {
      assert steps[..n][..i] == steps[..i];
    }
  }

  /** Over every schedule an operation completes without having run exactly when its handler was told of an
      error, and with that error. */
  lemma {:induction false} TurnedIff(g: Guard, steps: seq<Step>, id: nat, ec: Ec)
    ensures Turned(id, ec) in Run(Initial(g), steps).outcomes <==> TurnedAway(Initial(g), steps, id, ec)
  {
    if steps != [] {
      var n := |steps| - 1;
      var s := Run(Initial(g), steps[..n]);
      TurnedIff(g, steps[..n], id, ec);
      if Enabled(s, steps[n]) { StepDoes(s, steps[n]); }
      TurnedLast(Initial(g), steps, id, ec);
    }
  }
}
