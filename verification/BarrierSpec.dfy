/** The barrier as a state machine: one step per critical section.

    `async_arrive` is two critical sections, a `try_arrive` and, after that failed, a decrement and an
    enqueue; the operation comes into being, and gets its number, in the second.  `between` counts the
    callers that are past the first and not yet in the second.
    The history is kept in `counted`, the arrivals that took a place of the counter, in order, in
    `generations`, the times the barrier opened, and in `lost`, the arrivals of the current generation
    that left the queue without being granted. */
module BarrierSpec {
  import opened Ledgers

  datatype State = State(init: int, counter: int, line: Ledger, between: nat,
                         counted: seq<nat>, generations: nat, lost: nat)

  function Initial(init: int): State {
    State(init, init, EMPTY, 0, [], 0, 0)
  }

  /** The last arrival of a generation: all who wait are completed, and the count starts afresh. */
  function Open(s: State): State {
    s.(counter := s.init, line := SettleAll(s.line, Success), generations := s.generations + 1, lost := 0)
  }

  /** A new arrival takes a place of the counter and waits. */
  function Join(s: State): State {
    s.(counter := s.counter - 1, counted := s.counted + [s.line.issued], line := Enqueue(s.line))
  }

  /** Succeeds only for the last arrival; otherwise the counter is put back. */
  function TryArrive(s: State): State {
    if s.counter - 1 == 0 then
      var t := Open(s);
      t.(line := Answer(t.line, Success), counted := s.counted + [s.line.issued])
    else s
  }

  /** The blocking call enqueues itself first and may then open the barrier for itself too. */
  function Arrive(s: State, enabled: bool): State {
    if enabled then
      var t := Join(s);
      if t.counter == 0 then Open(t) else t
    else if s.counter - 1 == 0 then TryArrive(s)
    else s.(line := Answer(s.line, InProgress))
  }

  /** First critical section of `async_arrive`. */
  function Approach(s: State): State {
    if s.counter - 1 == 0 then TryArrive(s) else s.(between := s.between + 1)
  }

  /** Second critical section of `async_arrive`, for one of those between. */
  function Commit(s: State): State {
    if s.between > 0 then Join(s.(between := s.between - 1)) else s
  }

  /** Both critical sections with nothing in between. */
  function AsyncArrive(s: State): State {
    if s.counter - 1 == 0 then TryArrive(s) else Commit(Approach(s))
  }

  /** A cancelled arrival leaves the queue but keeps its place in the count. */
  function CancelArrival(s: State, id: nat): State {
    s.(line := Cancel(s.line, id), lost := s.lost + if id in s.line.queue then 1 else 0)
  }

  function Withdraw(s: State, ec: Ec): State {
    s.(line := SettleAll(s.line, ec), lost := s.lost + |s.line.queue|)
  }

  datatype Step =
    | TryArriveStep
    | ArriveStep(enabled: bool)
    | AsyncArriveStep
    | ApproachStep
    | CommitStep
    | CancelStep(id: nat)
    | ShutdownStep
    | DestroyStep

  function Apply(s: State, step: Step): State {
    match step
    case TryArriveStep => TryArrive(s)
    case ArriveStep(enabled) => Arrive(s, enabled)
    case AsyncArriveStep => AsyncArrive(s)
    case ApproachStep => Approach(s)
    case CommitStep => Commit(s)
    case CancelStep(id) => CancelArrival(s, id)
    case ShutdownStep => Withdraw(s, ShutDown)
    case DestroyStep => Withdraw(s, Aborted)
  }

  function Run(s: State, steps: seq<Step>): State {
    if steps == [] then s else Apply(Run(s, steps[..|steps| - 1]), steps[|steps| - 1])
  }

  // ----- Conservation, for every interleaving -----

  ghost predicate Conserved(s: State) {
    Sound(s.line) && s.counter + |s.line.queue| + s.lost == s.init
  }

  /** The last arrival by `try_arrive` does what joining the queue and opening the barrier would do. */
  lemma LastArrival(s: State)
    requires s.counter == 1
    ensures TryArrive(s) == Open(Join(s))
  {
    var q, id := s.line.queue, s.line.issued;
    assert Posted(q + [id], Success) == Posted(q, Success) + [Entry(id, Success)];
  }

  lemma JoinConserves(s: State)
    requires Conserved(s)
    ensures Conserved(Join(s)) && Conserved(Open(Join(s)))
  {
    EnqueueSound(s.line);
    SettleAllSound(Enqueue(s.line), Success);
  }

  lemma WithdrawConserves(s: State, ec: Ec)
    requires Conserved(s)
    ensures Conserved(Withdraw(s, ec))
  {
    SettleAllSound(s.line, ec);
  }

  lemma RefuseConserves(s: State)
    requires Conserved(s)
    ensures Conserved(s.(line := Answer(s.line, InProgress)))
  {
    AnswerSound(s.line, InProgress);
  }

  lemma CancelConserves(s: State, id: nat)
    requires Conserved(s)
    ensures Conserved(CancelArrival(s, id))
  {
    CancelSound(s.line, id);
    hide Sound;
  }

  lemma BetweenConserves(s: State, between: nat)
    requires Conserved(s)
    ensures Conserved(s.(between := between))
  {
  }

  lemma StepConserves(s: State, step: Step)
    requires Conserved(s)
    ensures Conserved(Apply(s, step))
  {
    hide Conserved;
    JoinConserves(s);
    if s.counter == 1 { LastArrival(s); }
    match step
    case TryArriveStep =>
    case ArriveStep(_) => RefuseConserves(s);
    case AsyncArriveStep => if s.counter != 1 { assert AsyncArrive(s) == Join(s); }
    case ApproachStep => BetweenConserves(s, s.between + 1);
    case CommitStep =>
      if s.between > 0 {
        BetweenConserves(s, s.between - 1);
        JoinConserves(s.(between := s.between - 1));
      }
    case CancelStep(id) => CancelConserves(s, id);
    case ShutdownStep => WithdrawConserves(s, ShutDown);
    case DestroyStep => WithdrawConserves(s, Aborted);
  }

  lemma StepGrows(s: State, step: Step)
    ensures s.line.log <= Apply(s, step).line.log && Apply(s, step).init == s.init
  {
  }

  /** For every initial count and every interleaving, also one that splits asynchronous arrivals: each
      operation has one disposition, nobody overtakes anybody, and counter, waiters and lost arrivals add
      up to the initial count. */
  lemma {:induction false} RunConserves(init: int, steps: seq<Step>)
    ensures Conserved(Run(Initial(init), steps)) && Run(Initial(init), steps).init == init
  {
    if steps != [] {
      var s := Run(Initial(init), steps[..|steps| - 1]);
      RunConserves(init, steps[..|steps| - 1]);
      StepConserves(s, steps[|steps| - 1]);
      StepGrows(s, steps[|steps| - 1]);
    }
  }

  lemma {:induction false} LogGrows(s: State, steps: seq<Step>, n: nat)
    requires n <= |steps|
    ensures Run(s, steps[..n]).line.log <= Run(s, steps).line.log
  {
    if n == |steps| {
      assert steps[..n] == steps;
    } else {
      var pre := steps[..|steps| - 1];
      LogGrows(s, pre, n);
      assert pre[..n] == steps[..n];
      StepGrows(Run(s, pre), steps[|steps| - 1]);
    }
  }

  // ----- What splitting an asynchronous arrival does -----

  ghost predicate RoomAt(s: State, steps: seq<Step>, i: nat)
    requires i < |steps|
  {
    steps[i].CommitStep? ==> HasRoom(Run(s, steps[..i]))
  }

  /** Every second half of a split arrival finds at least two places left. */
  ghost predicate Roomy(s: State, steps: seq<Step>) {
    forall i :: 0 <= i < |steps| ==> RoomAt(s, steps, i)
  }

  lemma RoomyLast(s: State, steps: seq<Step>)
    requires steps != []
    ensures var n := |steps| - 1; Roomy(s, steps) <==> Roomy(s, steps[..n]) && RoomAt(s, steps, n)
  {
    var n := |steps| - 1;
    forall i | 0 <= i < n
      ensures RoomAt(s, steps[..n], i) == RoomAt(s, steps, i)
    {
      assert steps[..n][..i] == steps[..i];
    }
  }

  predicate HasRoom(s: State) {
    s.between > 0 ==> s.counter >= 2
  }

  lemma StepRoomy(s: State, step: Step)
    requires s.counter >= 1 && s.init >= 1
    ensures Apply(s, step).counter >= 1 <==> (step.CommitStep? ==> HasRoom(s))
  {
  }

  lemma StepStuck(s: State, step: Step)
    requires s.counter <= 0
    ensures var t := Apply(s, step);
            t.counter <= 0 && t.generations == s.generations && Granted(t.line.log) == Granted(s.line.log)
  {
    var c := s.line;
    match step
    case ArriveStep(_) => GrantedOne(c.log, Entry(c.issued, InProgress));
    case CancelStep(id) => if id in c.queue { GrantedOne(c.log, Entry(id, Aborted)); }
    case ShutdownStep => GrantedSettled(c.log, c.queue, ShutDown);
    case DestroyStep => GrantedSettled(c.log, c.queue, Aborted);
    case _ =>
  }

  /** Once the counter is used up without the barrier opening, the barrier never opens again: no arrival
      of any later run succeeds. */
  lemma {:induction false} Stuck(s: State, steps: seq<Step>)
    requires s.counter <= 0
    ensures var t := Run(s, steps);
            t.counter <= 0 && t.generations == s.generations && Granted(t.line.log) == Granted(s.line.log)
  {
    if steps != [] {
      var n := |steps| - 1;
      Stuck(s, steps[..n]);
      StepStuck(Run(s, steps[..n]), steps[n]);
    }
  }

  /** Over all interleavings, the counter is positive exactly when no second half ever took the last
      place. */
  lemma {:induction false} PositiveIffRoomy(init: int, steps: seq<Step>)
    requires init >= 1
    ensures Run(Initial(init), steps).counter >= 1 <==> Roomy(Initial(init), steps)
  {
    if steps != [] {
      var n := |steps| - 1;
      var s, pre := Initial(init), steps[..n];
      PositiveIffRoomy(init, pre);
      RunConserves(init, pre);
      RoomyLast(s, steps);
      if Roomy(s, pre) { StepRoomy(Run(s, pre), steps[n]); } else { StepStuck(Run(s, pre), steps[n]); }
    }
  }

  // ----- Generations, for every interleaving -----

  /** The first `cut` arrivals belong to generations that are over: only they have been granted, and only
      the later ones wait.  Who was refused was never counted. */
  ghost predicate InStep(s: State, cut: nat) {
    && cut <= |s.counted| && s.counter <= s.init
    && cut == s.generations * s.init && |s.counted| == cut + (s.init - s.counter)
    && Distinct(s.counted) && (forall id <- s.counted :: id < s.line.issued)
    && (forall id <- s.line.queue :: id in s.counted[cut..])
    && (forall id <- Granted(s.line.log) :: id in s.counted[..cut])
    && Refusals(s)
  }

  ghost predicate Refusals(s: State) {
    forall e <- s.line.log :: e.id < s.line.issued && (e.ec.InProgress? ==> e.id !in s.counted)
  }

  /** Whoever leaves the queue was counted and is not refused. */
  lemma SettledRefusals(s: State, cut: nat, ids: seq<nat>, ec: Ec)
    requires InStep(s, cut) && !ec.InProgress? && forall id <- ids :: id in s.line.queue
    ensures Refusals(s.(line := s.line.(log := s.line.log + Posted(ids, ec))))
  {
    forall e | e in Posted(ids, ec)
      ensures e.id < s.line.issued && e.ec == ec
    {
      assert e.id in ids && e.id in s.line.queue && e.id in s.counted[cut..] && e.id in s.counted;
    }
  }

  lemma OpenInStep(s: State, cut: nat)
    requires InStep(s, cut) && s.counter == 0 && s.init >= 1
    ensures InStep(Open(s), cut + s.init)
  {
    SettledRefusals(s, cut, s.line.queue, Success);
    GrantedSettled(s.line.log, s.line.queue, Success);
    assert s.counted == s.counted[..cut] + s.counted[cut..];
    assert s.counted[..cut + s.init] == s.counted;
    assert (s.generations + 1) * s.init == cut + s.init;
  }

  lemma JoinInStep(s: State, cut: nat)
    requires InStep(s, cut)
    ensures InStep(Join(s), cut)
    ensures s.counter == 1 && s.init >= 1 ==> InStep(Open(Join(s)), cut + s.init)
  {
    var more := s.counted + [s.line.issued];
    assert more[..cut] == s.counted[..cut] && more[cut..] == s.counted[cut..] + [s.line.issued];
    assert forall i :: 0 <= i < |s.counted| ==> s.counted[i] in s.counted;
    if s.counter == 1 && s.init >= 1 { OpenInStep(Join(s), cut); }
  }

  lemma RefuseInStep(s: State, cut: nat)
    requires InStep(s, cut)
    ensures InStep(s.(line := Answer(s.line, InProgress)), cut)
  {
    GrantedOne(s.line.log, Entry(s.line.issued, InProgress));
  }

  lemma CancelInStep(s: State, id: nat, cut: nat)
    requires InStep(s, cut)
    ensures InStep(CancelArrival(s, id), cut)
  {
    if id in s.line.queue {
      var k := IndexOf(s.line.queue, id);
      GrantedOne(s.line.log, Entry(id, Aborted));
      WithoutMembers(s.line.queue, k);
      SettledRefusals(s, cut, [id], Aborted);
      assert Posted([id], Aborted) == [Entry(id, Aborted)];
    }
  }

  lemma WithdrawInStep(s: State, ec: Ec, cut: nat)
    requires InStep(s, cut) && (ec.ShutDown? || ec.Aborted?)
    ensures InStep(Withdraw(s, ec), cut)
  {
    SettledRefusals(s, cut, s.line.queue, ec);
    GrantedSettled(s.line.log, s.line.queue, ec);
  }

  lemma StepInStep(s: State, step: Step, cut: nat)
    requires InStep(s, cut) && s.init >= 1
    ensures InStep(Apply(s, step), cut) || InStep(Apply(s, step), cut + s.init)
  {
    hide InStep;
    JoinInStep(s, cut);
    if s.counter == 1 { LastArrival(s); }
    match step
    case TryArriveStep =>
    case ArriveStep(enabled) => RefuseInStep(s, cut);
    case AsyncArriveStep => if s.counter != 1 { assert AsyncArrive(s) == Join(s); }
    case ApproachStep => BetweenInStep(s, s.between + 1, cut);
    case CommitStep =>
      if s.between > 0 {
        BetweenInStep(s, s.between - 1, cut);
        JoinInStep(s.(between := s.between - 1), cut);
      }
    case CancelStep(id) => CancelInStep(s, id, cut);
    case ShutdownStep => WithdrawInStep(s, ShutDown, cut);
    case DestroyStep => WithdrawInStep(s, Aborted, cut);
  }

  lemma BetweenInStep(s: State, between: nat, cut: nat)
    requires InStep(s, cut)
    ensures InStep(s.(between := between), cut)
  {
  }

  lemma {:induction false} RunInStep(init: int, steps: seq<Step>)
    requires init >= 1
    ensures var s := Run(Initial(init), steps);
            s.init == init && s.generations * init >= 0 && InStep(s, s.generations * init)
  {
    if steps != [] {
      var n := |steps| - 1;
      var s := Run(Initial(init), steps[..n]);
      RunInStep(init, steps[..n]);
      StepInStep(s, steps[n], s.generations * init);
      StepGrows(s, steps[n]);
    }
  }

  /** Over every run, split arrivals or not: with g generations opened, the first g * init arrivals are
      theirs, the counter is what the later ones have left of `init`, only arrivals of an opened generation
      have been granted, and only later ones wait. */
  lemma Generations(init: int, steps: seq<Step>)
    requires init >= 1
    ensures var s := Run(Initial(init), steps); var cut := s.generations * init;
            && 0 <= cut <= |s.counted| && |s.counted| - cut == init - s.counter >= 0
            && Distinct(s.counted)
            && (forall id <- Granted(s.line.log) :: id in s.counted[..cut])
            && (forall id <- s.line.queue :: id in s.counted[cut..])
  {
    RunInStep(init, steps);
  }

  lemma MultipleIsLarge(n: nat, x: int)
    ensures x >= 1 ==> n * x >= n
    ensures x <= -1 ==> n * x <= -(n as int)
  {
    if x >= 1 { assert n * (x - 1) >= 0; }
    if x <= -1 { assert n * (-x - 1) >= 0; }
  }

  lemma DivMod(a: nat, g: nat, r: nat, n: nat)
    requires r < n && a == g * n + r
    ensures a / n == g && a % n == r
  {
    var q, m := a / n, a % n;
    assert a == n * q + m && 0 <= m < n;
    assert n * (q - g) == n * q - n * g;
    assert g * n == n * g;
    MultipleIsLarge(n, q - g);
  }

  /** The arrivals, out of `a`, that belong to full generations of `n`. */
  function Full(a: nat, n: int): (r: nat)
    requires n >= 1
    ensures r <= a
  {
    a - a % n
  }

  /** Every full generation has been opened, and the counter counts down within the current one, exactly
      when no second half of a split arrival ever took the last place. */
  lemma GenerationsIffRoomy(init: int, steps: seq<Step>)
    requires init >= 1
    ensures var s := Run(Initial(init), steps); var a := |s.counted|;
            && (Roomy(Initial(init), steps) <==> s.generations == a / init && s.counter == init - a % init)
            && (Roomy(Initial(init), steps) <==> s.generations * init == Full(a, init))
            && (Roomy(Initial(init), steps) <==> 1 <= s.counter <= init)
  {
    RunInStep(init, steps);
    PositiveIffRoomy(init, steps);
    var s := Run(Initial(init), steps);
    if s.counter >= 1 {
      DivMod(|s.counted|, s.generations, init - s.counter, init);
    }
  }

  lemma DistinctTail(s: seq<nat>, k: nat, cut: nat)
    requires Distinct(s) && k < cut <= |s|
    ensures s[k] !in s[cut..]
  {
    forall j | 0 <= j < |s[cut..]|
      ensures s[cut..][j] != s[k]
    {
      assert s[cut..][j] == s[cut + j];
    }
  }

  lemma Through(s: State, cut: nat, k: nat)
    requires InStep(s, cut) && Once(s.line) && k < cut
    ensures var log, id := s.line.log, s.counted[k];
            id in Granted(log) || Entry(id, Aborted) in log || Entry(id, ShutDown) in log
  {
    var id := s.counted[k];
    assert id in s.counted;
    DistinctTail(s.counted, k, cut);
    Disposition(s.line, id);
    EntryOf(s.line.log, id);
    GrantedMembers(s.line.log, id);
  }

  /** Over every run, an arrival of an opened generation has been granted, unless it was cancelled or
      withdrawn before.  By `GenerationsIffRoomy`, the opened generations are all the full ones exactly
      when every split arrival had room. */
  lemma FullGenerationIsThrough(init: int, steps: seq<Step>, k: nat)
    requires init >= 1
    requires k < Run(Initial(init), steps).generations * init
    ensures var s := Run(Initial(init), steps);
            && k < |s.counted|
            && var id := s.counted[k];
               (id in Granted(s.line.log) || Entry(id, Aborted) in s.line.log || Entry(id, ShutDown) in s.line.log)
  {
    var s := Run(Initial(init), steps);
    RunInStep(init, steps);
    RunConserves(init, steps);
    Through(s, s.generations * init, k);
  }

  /** Two parties that split their arrivals at a barrier for two both wait, for ever. */
  lemma TwoSplitArrivalsWaitForEver(more: seq<Step>)
    ensures var s := Run(Initial(2), [ApproachStep, ApproachStep, CommitStep, CommitStep]);
            && s.line.queue == [0, 1] && s.counter == 0
            && Granted(Run(s, more).line.log) == []
  {
    var steps := [ApproachStep, ApproachStep, CommitStep, CommitStep];
    assert steps[..3] == [ApproachStep, ApproachStep, CommitStep];
    assert steps[..3][..2] == [ApproachStep, ApproachStep];
    assert steps[..3][..2][..1] == [ApproachStep];
    var s1 := Run(Initial(2), [ApproachStep]);
    assert s1 == Approach(Initial(2));
    var s2 := Run(Initial(2), [ApproachStep, ApproachStep]);
    assert s2 == Approach(s1) && s2.between == 2;
    var s3 := Run(Initial(2), steps[..3]);
    assert s3 == Commit(s2) && s3.between == 1 && s3.line.queue == [0];
    var s4 := Run(Initial(2), steps);
    assert s4 == Commit(s3);
    Stuck(s4, more);
  }
}
