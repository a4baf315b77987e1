/** The condition variable as a state machine over its ledger: one step per critical section.

    The waiters' predicates read state the library cannot see, so a notification carries the set `ready`
    of the ids whose predicate returns true when it asks. */
module ConditionVariableSpec {
  import opened Ledgers

  /** The ids of `q` that are in `chosen`, in the order of `q`. */
  function Select(q: seq<nat>, chosen: set<nat>): seq<nat> {
    if q == [] then [] else (if q[0] in chosen then [q[0]] else []) + Select(q[1..], chosen)
  }

  function Reject(q: seq<nat>, chosen: set<nat>): seq<nat> {
    if q == [] then [] else (if q[0] in chosen then [] else [q[0]]) + Reject(q[1..], chosen)
  }

  function NotifyOne(c: Ledger, ready: set<nat>): Ledger {
    if c.queue != [] && c.queue[0] in ready then SettleAt(c, 0, Success) else c
  }

  function NotifyAll(c: Ledger, ready: set<nat>): Ledger {
    c.(queue := Reject(c.queue, ready), log := c.log + Posted(Select(c.queue, ready), Success))
  }

  datatype Step =
    | WaitStep
    | NotifyOneStep(ready: set<nat>)
    | NotifyAllStep(ready: set<nat>)
    | CancelStep(id: nat)
    | ShutdownStep
    | DestroyStep

  function Apply(c: Ledger, step: Step): Ledger {
    match step
    case WaitStep => Enqueue(c)
    case NotifyOneStep(ready) => NotifyOne(c, ready)
    case NotifyAllStep(ready) => NotifyAll(c, ready)
    case CancelStep(id) => Cancel(c, id)
    case ShutdownStep => SettleAll(c, ShutDown)
    case DestroyStep => SettleAll(c, Aborted)
  }

  function Run(c: Ledger, steps: seq<Step>): Ledger {
    if steps == [] then c else Apply(Run(c, steps[..|steps| - 1]), steps[|steps| - 1])
  }

  // ----- What a filtered queue is -----

  lemma {:induction false} FilterMembers(q: seq<nat>, chosen: set<nat>, id: nat)
    ensures id in Select(q, chosen) <==> id in q && id in chosen
    ensures id in Reject(q, chosen) <==> id in q && id !in chosen
  {
    if q != [] {
      FilterMembers(q[1..], chosen, id);
      assert q == [q[0]] + q[1..];
    }
  }

  lemma {:induction false} FilterSplits(q: seq<nat>, chosen: set<nat>)
    ensures multiset(q) == multiset(Select(q, chosen)) + multiset(Reject(q, chosen))
  {
    if q != [] {
      FilterSplits(q[1..], chosen);
      assert q == [q[0]] + q[1..];
    }
  }

  lemma TailIncreasing(q: seq<nat>)
    requires Increasing(q) && q != []
    ensures Increasing(q[1..]) && forall y <- q[1..] :: q[0] < y
  {
    assert forall i :: 0 <= i < |q| - 1 ==> q[1..][i] == q[i + 1];
  }

  lemma FilterBelow(q: seq<nat>, chosen: set<nat>, x: nat)
    requires forall y <- q :: x < y
    ensures (forall y <- Select(q, chosen) :: x < y) && (forall y <- Reject(q, chosen) :: x < y)
  {
    forall y
      ensures (y in Select(q, chosen) ==> y in q) && (y in Reject(q, chosen) ==> y in q)
    {
      FilterMembers(q, chosen, y);
    }
  }

  /** Filtering keeps the order: what comes from an increasing queue is increasing. */
  lemma {:induction false} FilterIncreasing(q: seq<nat>, chosen: set<nat>)
    requires Increasing(q)
    ensures Increasing(Select(q, chosen)) && Increasing(Reject(q, chosen))
  {
    if q != [] {
      TailIncreasing(q);
      FilterIncreasing(q[1..], chosen);
      FilterBelow(q[1..], chosen, q[0]);
      ConsIncreasing(q[0], Select(q[1..], chosen));
      ConsIncreasing(q[0], Reject(q[1..], chosen));
      hide Increasing;
      assert [] + Select(q[1..], chosen) == Select(q[1..], chosen);
      assert [] + Reject(q[1..], chosen) == Reject(q[1..], chosen);
    }
  }

  lemma ConsIncreasing(x: nat, s: seq<nat>)
    requires Increasing(s) && forall y <- s :: x < y
    ensures Increasing([x] + s)
  {
    var t := [x] + s;
    forall i, j | 0 <= i < j < |t|
      ensures t[i] < t[j]
    {
      assert t[j] == s[j - 1] && s[j - 1] in s;
      if i > 0 { assert t[i] == s[i - 1]; }
    }
  }

  lemma SnocIncreasing(s: seq<nat>, x: nat)
    requires Increasing(s) && forall y <- s :: y < x
    ensures Increasing(s + [x])
  {
    var t := s + [x];
    forall i, j | 0 <= i < j < |t|
      ensures t[i] < t[j]
    {
      assert t[i] == s[i] && s[i] in s;
      if j < |s| { assert t[j] == s[j]; }
    }
  }

  lemma BelowLast(s: seq<nat>, x: nat)
    requires Increasing(s + [x])
    ensures Increasing(s) && (forall y <- s :: y < x) && (forall y <- s :: s[0] <= y)
  {
    var t := s + [x];
    assert forall i :: 0 <= i < |s| ==> s[i] == t[i] && t[i] < t[|s|];
  }

  // ----- Runs -----

  /** Exactly one disposition each, and those who wait stand in the order they came. */
  ghost predicate Orderly(c: Ledger) {
    Once(c) && Increasing(c.queue + [c.issued])
  }

  lemma NotifyAllOnce(c: Ledger, ready: set<nat>)
    requires Once(c)
    ensures Once(NotifyAll(c, ready))
  {
    var woken, rest := Select(c.queue, ready), Reject(c.queue, ready);
    FilterSplits(c.queue, ready);
    IdsSettled(c.log, woken, Success);
    assert multiset(Ids(c.log) + woken) + multiset(rest) == multiset(Ids(c.log)) + multiset(c.queue);
  }

  lemma NotifyAllOrderly(c: Ledger, ready: set<nat>)
    requires Orderly(c)
    ensures Orderly(NotifyAll(c, ready))
  {
    NotifyAllOnce(c, ready);
    BelowLast(c.queue, c.issued);
    FilterIncreasing(c.queue, ready);
    forall id | id in Reject(c.queue, ready)
      ensures id < c.issued
    {
      FilterMembers(c.queue, ready, id);
    }
    SnocIncreasing(Reject(c.queue, ready), c.issued);
  }

  lemma SettleAllOrderly(c: Ledger, ec: Ec)
    requires Orderly(c)
    ensures Orderly(SettleAll(c, ec))
  {
    assert Ids(SettleAll(c, ec).log) == Ids(c.log) + c.queue;
  }

  lemma WaitOrderly(c: Ledger)
    requires Orderly(c)
    ensures Orderly(Enqueue(c))
  {
    assert Upto(c.issued + 1) == Upto(c.issued) + [c.issued];
    IncreasingGrow(c.queue, c.issued);
  }

  lemma SettleAtOrderly(c: Ledger, k: nat, ec: Ec)
    requires Orderly(c) && k < |c.queue|
    ensures Orderly(SettleAt(c, k, ec))
  {
    SettleAtOnce(c, k, ec);
    var q := c.queue;
    assert q[..k] + [q[k]] + (q[k + 1..] + [c.issued]) == q + [c.issued];
    IncreasingDrop(q[..k], q[k], q[k + 1..] + [c.issued]);
    assert q[..k] + q[k + 1..] + [c.issued] == q[..k] + (q[k + 1..] + [c.issued]);
  }

  lemma StepOrderly(c: Ledger, step: Step)
    requires Orderly(c)
    ensures Orderly(Apply(c, step)) && c.log <= Apply(c, step).log
  {
    match step
    case WaitStep => WaitOrderly(c);
    case NotifyOneStep(ready) => if c.queue != [] { SettleAtOrderly(c, 0, Success); }
    case NotifyAllStep(ready) => NotifyAllOrderly(c, ready);
    case CancelStep(id) => if id in c.queue { SettleAtOrderly(c, IndexOf(c.queue, id), Aborted); }
    case ShutdownStep => SettleAllOrderly(c, ShutDown);
    case DestroyStep => SettleAllOrderly(c, Aborted);
  }

  lemma {:induction false} RunOrderly(steps: seq<Step>)
    ensures Orderly(Run(EMPTY, steps))
  {
    if steps != [] {
      RunOrderly(steps[..|steps| - 1]);
      StepOrderly(Run(EMPTY, steps[..|steps| - 1]), steps[|steps| - 1]);
    }
  }

  /** Step `step`, taken in `c`, notifies `id` with its predicate true: through `notify_all` from anywhere
      in the queue, through `notify_one` only from its front. */
  predicate Wakes(c: Ledger, step: Step, id: nat) {
    match step
    case NotifyOneStep(ready) => c.queue != [] && c.queue[0] == id && id in ready
    case NotifyAllStep(ready) => id in c.queue && id in ready
    case _ => false
  }

  /** A step grants exactly those it wakes. */
  lemma StepWakes(c: Ledger, step: Step, id: nat)
    ensures id in Granted(Apply(c, step).log) <==> id in Granted(c.log) || Wakes(c, step, id)
  {
    match step
    case WaitStep =>
    case NotifyOneStep(ready) => if c.queue != [] { GrantedOne(c.log, Entry(c.queue[0], Success)); }
    case NotifyAllStep(ready) =>
      GrantedSettled(c.log, Select(c.queue, ready), Success);
      FilterMembers(c.queue, ready, id);
    case CancelStep(x) => if x in c.queue { GrantedOne(c.log, Entry(x, Aborted)); }
    case ShutdownStep => GrantedSettled(c.log, c.queue, ShutDown);
    case DestroyStep => GrantedSettled(c.log, c.queue, Aborted);
  }

  ghost predicate WakesAt(steps: seq<Step>, i: nat, id: nat)
    requires i < |steps|
  {
    Wakes(Run(EMPTY, steps[..i]), steps[i], id)
  }

  ghost predicate Woken(steps: seq<Step>, id: nat) {
    exists i :: 0 <= i < |steps| && WakesAt(steps, i, id)
  }

  lemma WokenLast(steps: seq<Step>, id: nat)
    requires steps != []
    ensures var n := |steps| - 1; Woken(steps, id) <==> Woken(steps[..n], id) || WakesAt(steps, n, id)
  {
    var n := |steps| - 1;
    forall i | 0 <= i < n
      ensures WakesAt(steps[..n], i, id) == WakesAt(steps, i, id)
    {
      assert steps[..n][..i] == steps[..i];
    }
  }

  /** Over every run a waiter has succeeded if and only if some notification found it waiting with its
      predicate true, at the front of the queue if it was a `notify_one`. */
  lemma {:induction false} SuccessIffWoken(steps: seq<Step>, id: nat)
    ensures id in Granted(Run(EMPTY, steps).log) <==> Woken(steps, id)
  {
    if steps != [] {
      var n := |steps| - 1;
      SuccessIffWoken(steps[..n], id);
      StepWakes(Run(EMPTY, steps[..n]), steps[n], id);
      WokenLast(steps, id);
    }
  }

  /** When `notify_one` wakes a waiter, everybody who came earlier has already left the queue. */
  lemma NotifyOneSkipsNobody(steps: seq<Step>, ready: set<nat>, id: nat, earlier: nat)
    requires var c := Run(EMPTY, steps); Wakes(c, NotifyOneStep(ready), id) && earlier < id
    ensures HasEntry(Run(EMPTY, steps).log, earlier)
  {
    var c := Run(EMPTY, steps);
    RunOrderly(steps);
    BelowLast(c.queue, c.issued);
    assert c.queue[0] in c.queue;
    Disposition(c, earlier);
  }
}
