/** All the operations composed by `guarded` over one semaphore or one mutex, as one state machine.

    A guarded operation tries to take a unit, asks for one asynchronously when that fails, runs its inner
    operation once it has a unit, gives the unit back when that is done, and completes.  From its first
    request on it is named by the serial number of that request in the ledger of the guard. */
module GuardedSpec {
  import opened Ledgers
  import M = MutexSpec
  import S = SemaphoreSpec

  // ----- The guard: a semaphore, or a mutex as a semaphore of one -----

  datatype Guard = BySemaphore(s: S.State) | ByMutex(m: M.State)

  function Free(g: Guard): int {
    match g
    case BySemaphore(s) => s.count
    case ByMutex(m) => if m.locked then 0 else 1
  }

  function Line(g: Guard): Ledger {
    match g
    case BySemaphore(s) => s.line
    case ByMutex(m) => m.line
  }

  function Released(g: Guard): nat {
    match g
    case BySemaphore(s) => s.released
    case ByMutex(m) => m.released
  }

  function TryTake(g: Guard): Guard {
    match g
    case BySemaphore(s) => BySemaphore(S.TryAcquire(s))
    case ByMutex(m) => ByMutex(M.TryLock(m))
  }

  function AsyncTake(g: Guard): Guard {
    match g
    case BySemaphore(s) => BySemaphore(S.AsyncAcquire(s))
    case ByMutex(m) => ByMutex(M.AsyncLock(m))
  }

  function GiveBack(g: Guard): Guard {
    match g
    case BySemaphore(s) => BySemaphore(S.Release(s))
    case ByMutex(m) => ByMutex(M.Unlock(m))
  }

  function CancelWait(g: Guard, id: nat): Guard {
    match g
    case BySemaphore(s) => BySemaphore(S.Apply(s, S.CancelStep(id)))
    case ByMutex(m) => ByMutex(M.Apply(m, M.CancelStep(id)))
  }

  function AsSemaphore(g: Guard): S.State {
    S.State(Free(g), Line(g), Released(g))
  }

  /** A guard of `n` units, seen as a semaphore, is in balance. */
  ghost predicate Sized(g: Guard, n: nat) {
    S.Balanced(AsSemaphore(g), n) && (g.ByMutex? ==> n == 1)
  }

  // ----- The machine -----

  /** How a guarded operation ends: refused because it was cancelled before it began, turned away by the
      guard without having run, or run, with the result of its inner operation. */
  datatype Outcome = Refused | Turned(id: nat, ec: Ec) | Ran(id: nat, result: int)

  /** `trying` operations failed to take a unit and have not asked for one yet.  `started` ran or are
      running; `ran` and `turned` have completed. */
  datatype State = State(guard: Guard, begun: nat, trying: nat, started: set<nat>, ran: set<nat>,
                         turned: set<nat>, outcomes: seq<Outcome>)

  function Initial(g: Guard): State {
    State(g, 0, 0, {}, {}, {}, [])
  }

  datatype Step =
    | BeginStep(cancelled: bool)
    | AskStep
    | ResumeStep(id: nat, ec: Ec)
    | FinishStep(id: nat, result: int)
    | CancelStep(id: nat)

  /** A handler runs once, after it was posted; an inner operation finishes once, after it was started;
      a cancellation slot is connected while its operation waits. */
  predicate Enabled(s: State, step: Step) {
    match step
    case BeginStep(_) => true
    case AskStep => s.trying > 0
    case ResumeStep(id, ec) => Entry(id, ec) in Line(s.guard).log && id !in s.started && id !in s.turned
    case FinishStep(id, _) => id in s.started && id !in s.ran
    case CancelStep(id) => id in Line(s.guard).queue
  }

  function BeginOp(s: State, cancelled: bool): State {
    var t := s.(begun := s.begun + 1);
    if cancelled then t.(outcomes := s.outcomes + [Refused])
    else if Free(s.guard) > 0 then
      t.(guard := TryTake(s.guard), started := s.started + {Line(s.guard).issued})
    else t.(trying := s.trying + 1)
  }

  function ResumeOp(s: State, id: nat, ec: Ec): State {
    if ec.Success? then s.(started := s.started + {id})
    else s.(turned := s.turned + {id}, outcomes := s.outcomes + [Turned(id, ec)])
  }

  function FinishOp(s: State, id: nat, result: int): State {
    s.(guard := GiveBack(s.guard), ran := s.ran + {id}, outcomes := s.outcomes + [Ran(id, result)])
  }

  function Do(s: State, step: Step): State
    requires Enabled(s, step)
  {
    match step
    case BeginStep(cancelled) => BeginOp(s, cancelled)
    case AskStep => s.(trying := s.trying - 1, guard := AsyncTake(s.guard))
    case ResumeStep(id, ec) => ResumeOp(s, id, ec)
    case FinishStep(id, result) => FinishOp(s, id, result)
    case CancelStep(id) => s.(guard := CancelWait(s.guard, id))
  }

  function Apply(s: State, step: Step): State {
    if Enabled(s, step) then Do(s, step) else s
  }

  function Run(s: State, steps: seq<Step>): State {
    if steps == [] then s else Apply(Run(s, steps[..|steps| - 1]), steps[|steps| - 1])
  }

  // ----- Elements of the log as sets -----

  function Elems(s: seq<nat>): set<nat> {
    set x | x in s
  }

  lemma {:induction false} ElemsCount(s: seq<nat>)
    requires forall x <- s :: multiset(s)[x] <= 1
    ensures |Elems(s)| == |s|
  {
    if s != [] {
      var pre, last := s[..|s| - 1], s[|s| - 1];
      assert s == pre + [last];
      assert forall x <- pre :: x in s && multiset(s)[x] == multiset(pre)[x] + multiset([last])[x];
      ElemsCount(pre);
      assert multiset(s)[last] == multiset(pre)[last] + 1;
      assert Elems(s) == Elems(pre) + {last};
    }
  }

  /** In a sound ledger nobody is granted twice, denied twice, or both. */
  lemma GrantedAndDenied(c: Ledger)
    requires Once(c)
    ensures |Elems(Granted(c.log))| == |Granted(c.log)|
    ensures |Elems(Denied(c.log))| == |Denied(c.log)|
    ensures Elems(Granted(c.log)) !! Elems(Denied(c.log))
  {
    forall x
      ensures multiset(Granted(c.log))[x] + multiset(Denied(c.log))[x] <= 1
    {
      Whereabouts(c, x);
    }
    ElemsCount(Granted(c.log));
    ElemsCount(Denied(c.log));
    forall x | x in Elems(Granted(c.log))
      ensures x !in Elems(Denied(c.log))
    {
      assert x in multiset(Granted(c.log));
      assert x !in multiset(Denied(c.log));
    }
  }

  // ----- Invariant -----

  function GrantedSet(s: State): set<nat> {
    Elems(Granted(Line(s.guard).log))
  }

  function DeniedSet(s: State): set<nat> {
    Elems(Denied(Line(s.guard).log))
  }

  /** Has a unit, has not begun to run. */
  function Waking(s: State): set<nat> {
    GrantedSet(s) - s.started
  }

  function Running(s: State): set<nat> {
    s.started - s.ran
  }

  /** Has been turned away and not been told yet. */
  function Leaving(s: State): set<nat> {
    DeniedSet(s) - s.turned
  }

  ghost predicate Placed(s: State, n: nat) {
    && Sized(s.guard, n)
    && s.started <= GrantedSet(s)
    && s.ran <= s.started
    && s.turned <= DeniedSet(s)
    && |s.ran| == Released(s.guard)
  }

  ghost predicate NobodyTwice(outcomes: seq<Outcome>) {
    forall i, j :: 0 <= i < j < |outcomes| && !outcomes[i].Refused? && !outcomes[j].Refused? ==>
      outcomes[i].id != outcomes[j].id
  }

  lemma TellOne(outcomes: seq<Outcome>, o: Outcome)
    requires NobodyTwice(outcomes)
    requires !o.Refused? ==> forall p <- outcomes :: !p.Refused? ==> p.id != o.id
    ensures NobodyTwice(outcomes + [o])
  {
    assert forall i :: 0 <= i < |outcomes| ==> outcomes[i] in outcomes;
  }

  ghost predicate Told(s: State) {
    && (forall o <- s.outcomes :: (o.Ran? ==> o.id in s.ran) && (o.Turned? ==> o.id in s.turned))
    && NobodyTwice(s.outcomes)
    && s.begun == s.trying + Line(s.guard).issued + |s.outcomes| - |s.ran| - |s.turned|
  }

  ghost predicate Inv(s: State, n: nat) {
    Placed(s, n) && Told(s)
  }

  // ----- What each step does to the guard -----

  lemma TakeGuard(g: Guard, n: nat)
    requires Sized(g, n)
    ensures Sized(TryTake(g), n) && Sized(AsyncTake(g), n)
    ensures Free(g) > 0 ==> AsyncTake(g) == TryTake(g) && Line(TryTake(g)) == Answer(Line(g), Success)
    ensures Free(g) <= 0 ==> Line(AsyncTake(g)) == Enqueue(Line(g))
    ensures Released(TryTake(g)) == Released(AsyncTake(g)) == Released(g)
  {
    hide S.Balanced;
    S.StepBalanced(AsSemaphore(g), S.TryAcquireStep, n);
    S.StepBalanced(AsSemaphore(g), S.AsyncAcquireStep, n);
  }

  lemma GiveGuard(g: Guard, n: nat)
    requires Sized(g, n) && (g.ByMutex? ==> Free(g) == 0)
    ensures Sized(GiveBack(g), n) && Released(GiveBack(g)) == Released(g) + 1
    ensures Line(GiveBack(g)) == if Line(g).queue == [] then Line(g) else SettleAt(Line(g), 0, Success)
  {
    hide S.Balanced;
    S.StepBalanced(AsSemaphore(g), S.ReleaseStep, n);
  }

  lemma CancelGuard(g: Guard, n: nat, id: nat)
    requires Sized(g, n)
    ensures Sized(CancelWait(g, id), n) && Released(CancelWait(g, id)) == Released(g)
    ensures Line(CancelWait(g, id)) == Cancel(Line(g), id)
  {
    hide S.Balanced;
    S.StepBalanced(AsSemaphore(g), S.CancelStep(id), n);
  }

  lemma DeniedOne(log: seq<Entry>, e: Entry)
    ensures Denied(log + [e]) == if e.ec.Success? then Denied(log) else Denied(log) + [e.id]
  {
    assert (log + [e])[..|log|] == log;
  }

  lemma {:induction false} DeniedMembers(log: seq<Entry>, id: nat)
    ensures id in Denied(log) <==> exists e :: e in log && e.id == id && !e.ec.Success?
  {
    if log != [] {
      var pre, last := log[..|log| - 1], log[|log| - 1];
      assert log == pre + [last];
      DeniedMembers(pre, id);
    }
  }

  /** A longer log grants and denies at least the same. */
  lemma ElemsGrow(a: seq<Entry>, b: seq<Entry>)
    requires a <= b
    ensures Elems(Granted(a)) <= Elems(Granted(b)) && Elems(Denied(a)) <= Elems(Denied(b))
  {
    assert forall e <- a :: e in b;
    forall id
      ensures id in Granted(a) ==> id in Granted(b)
      ensures id in Denied(a) ==> id in Denied(b)
    {
      GrantedMembers(a, id);
      GrantedMembers(b, id);
      DeniedMembers(a, id);
      DeniedMembers(b, id);
    }
  }

  lemma Parts(whole: set<nat>, part: set<nat>)
    requires part <= whole
    ensures |whole - part| == |whole| - |part|
  {
    assert whole == (whole - part) + part;
  }

  /** Each unit is free, on its way to somebody, or with somebody who runs. */
  lemma UnitsAreConserved(s: State, n: nat)
    requires Placed(s, n)
    ensures Free(s.guard) + |Waking(s)| + |Running(s)| == n
    ensures |Leaving(s)| == |Denied(Line(s.guard).log)| - |s.turned|
    ensures |Waking(s)| == |Granted(Line(s.guard).log)| - |s.started|
    ensures |Running(s)| == |s.started| - |s.ran|
  {
    GrantedAndDenied(Line(s.guard));
    Parts(GrantedSet(s), s.started);
    Parts(s.started, s.ran);
    Parts(DeniedSet(s), s.turned);
    hide Sound, Elems, Granted, Denied;
  }

  // ----- The steps keep the invariant -----

  lemma BeginInv(s: State, n: nat, cancelled: bool)
    requires Inv(s, n)
    ensures Inv(BeginOp(s, cancelled), n)
  {
    if cancelled {
      TellOne(s.outcomes, Refused);
      hide Sized, NobodyTwice;
    } else if Free(s.guard) > 0 {
      TakeInv(s, n);
    }
  }

  /** What became of those in flight stays true when the guard moves on. */
  lemma GuardMoves(s: State, n: nat, g: Guard, trying: nat)
    requires Inv(s, n) && Sized(g, n) && Released(g) == Released(s.guard) && Line(s.guard).log <= Line(g).log
    requires trying + Line(g).issued == s.trying + Line(s.guard).issued
    ensures Inv(s.(guard := g, trying := trying), n)
  {
    ElemsGrow(Line(s.guard).log, Line(g).log);
    hide Sized, NobodyTwice, Elems, Granted, Denied;
  }

  lemma TakeInv(s: State, n: nat)
    requires Inv(s, n) && Free(s.guard) > 0
    ensures Inv(BeginOp(s, false), n)
  {
    hide Sized, NobodyTwice, Elems, Granted, Denied;
    var c := Line(s.guard);
    TakeGuard(s.guard, n);
    hide TryTake, AsyncTake;
    var g := TryTake(s.guard);
    ElemsGrow(c.log, Line(g).log);
    EntryElems(Line(g).log, |c.log|);
  }

  lemma AskInv(s: State, n: nat)
    requires Inv(s, n) && s.trying > 0
    ensures Inv(Do(s, AskStep), n)
  {
    hide Inv, Sized;
    InvSized(s, n);
    TakeGuard(s.guard, n);
    GuardMoves(s, n, AsyncTake(s.guard), s.trying - 1);
  }

  lemma InvSized(s: State, n: nat)
    requires Inv(s, n)
    ensures Sized(s.guard, n)
  {
  }

  /** What an entry of the log makes of its request. */
  lemma EntryElems(log: seq<Entry>, i: nat)
    requires i < |log|
    ensures var e := log[i]; if e.ec.Success? then e.id in Elems(Granted(log)) else e.id in Elems(Denied(log))
  {
    var e := log[i];
    assert e in log && e == Entry(e.id, e.ec);
    GrantedMembers(log, e.id);
    DeniedMembers(log, e.id);
  }

  /** Nobody who has a unit or was turned away has been told anything else. */
  lemma NotTold(s: State, n: nat, id: nat)
    requires Inv(s, n) && id !in s.ran && id !in s.turned
    ensures forall p <- s.outcomes :: !p.Refused? ==> p.id != id
  {
  }

  lemma ResumeInv(s: State, n: nat, id: nat, ec: Ec)
    requires Inv(s, n) && Enabled(s, ResumeStep(id, ec))
    ensures Inv(ResumeOp(s, id, ec), n)
  {
    hide Sized, NobodyTwice, Elems, Granted, Denied;
    var log := Line(s.guard).log;
    var i :| 0 <= i < |log| && log[i] == Entry(id, ec);
    EntryElems(log, i);
    if !ec.Success? { TurnedTold(s, n, id, ec); }
  }

  lemma TurnedTold(s: State, n: nat, id: nat, ec: Ec)
    requires Inv(s, n) && id !in s.started && id !in s.turned && !ec.Success?
    ensures Told(ResumeOp(s, id, ec))
  {
    NotTold(s, n, id);
    TellOne(s.outcomes, Turned(id, ec));
    hide Sized, NobodyTwice, Elems, Granted, Denied;
    assert |s.turned + {id}| == |s.turned| + 1;
  }

  /** One more operation has run, and its unit is back. */
  lemma PlacedAfter(s: State, n: nat, g: Guard, id: nat, outcomes: seq<Outcome>)
    requires Placed(s, n) && id in s.started && id !in s.ran
    requires Sized(g, n) && Released(g) == Released(s.guard) + 1 && Line(s.guard).log <= Line(g).log
    ensures Placed(s.(guard := g, ran := s.ran + {id}, outcomes := outcomes), n)
  {
    hide Sized, Elems, Granted, Denied;
    ElemsGrow(Line(s.guard).log, Line(g).log);
    hide Line, Released;
    assert |s.ran + {id}| == |s.ran| + 1;
  }

  lemma FinishPlaced(s: State, n: nat, id: nat, result: int)
    requires Inv(s, n) && Enabled(s, FinishStep(id, result))
    ensures Placed(FinishOp(s, id, result), n) && Line(GiveBack(s.guard)).issued == Line(s.guard).issued
  {
    hide Sized, NobodyTwice, Elems, Granted, Denied;
    UnitsAreConserved(s, n);
    assert id in Running(s);
    SizedFree(s.guard, n);
    GiveGuard(s.guard, n);
    hide Placed, Told, GiveBack, Waking, Running, Leaving;
    PlacedAfter(s, n, GiveBack(s.guard), id, FinishOp(s, id, result).outcomes);
  }

  lemma SizedFree(g: Guard, n: nat)
    requires Sized(g, n)
    ensures Free(g) >= 0 && (g.ByMutex? ==> n == 1)
    ensures Line(g).queue != [] ==> Free(g) == 0
  {
  }

  lemma FinishInv(s: State, n: nat, id: nat, result: int)
    requires Inv(s, n) && Enabled(s, FinishStep(id, result))
    ensures Inv(FinishOp(s, id, result), n)
  {
    FinishPlaced(s, n, id, result);
    GrantedAndDenied(Line(s.guard));
    NotTold(s, n, id);
    TellOne(s.outcomes, Ran(id, result));
    hide GiveBack, Sized, NobodyTwice;
  }

  lemma CancelInv(s: State, n: nat, id: nat)
    requires Inv(s, n) && Enabled(s, CancelStep(id))
    ensures Inv(Do(s, CancelStep(id)), n)
  {
    hide Inv, Sized;
    InvSized(s, n);
    CancelGuard(s.guard, n, id);
    GuardMoves(s, n, CancelWait(s.guard, id), s.trying);
  }

  lemma StepInv(s: State, n: nat, step: Step)
    requires Inv(s, n)
    ensures Inv(Apply(s, step), n)
  {
    hide Inv;
    if Enabled(s, step) {
      match step
      case BeginStep(cancelled) => BeginInv(s, n, cancelled);
      case AskStep => AskInv(s, n);
      case ResumeStep(id, ec) => ResumeInv(s, n, id, ec);
      case FinishStep(id, result) => FinishInv(s, n, id, result);
      case CancelStep(id) => CancelInv(s, n, id);
    }
  }

  /** A fresh guard with `n` units. */
  predicate Fresh(g: Guard, n: nat) {
    g == BySemaphore(S.Initial(n)) || (g == ByMutex(M.INITIAL) && n == 1)
  }

  lemma {:induction false} RunInv(g: Guard, n: nat, steps: seq<Step>)
    requires Fresh(g, n)
    ensures Inv(Run(Initial(g), steps), n)
  {
    if steps != [] {
      RunInv(g, n, steps[..|steps| - 1]);
      StepInv(Run(Initial(g), steps[..|steps| - 1]), n, steps[|steps| - 1]);
    }
  }

  // ----- Main results -----

  /** At no time do more inner operations run than the guard has units; every unit is accounted for; and
      whoever waits, waits for somebody who has a unit. */
  lemma Bounded(g: Guard, n: nat, steps: seq<Step>)
    requires Fresh(g, n)
    ensures var s := Run(Initial(g), steps);
            && Free(s.guard) + |Waking(s)| + |Running(s)| == n
            && |Running(s)| <= n
            && (n >= 1 && Line(s.guard).queue != [] ==> Waking(s) + Running(s) != {})
  {
    var s := Run(Initial(g), steps);
    RunInv(g, n, steps);
    UnitsAreConserved(s, n);
    if n >= 1 && Line(s.guard).queue != [] {
      assert Waking(s) != {} || Running(s) != {};
    }
  }

  /** Nobody is told twice; who is turned away never ran; who ran gave exactly one unit back. */
  lemma AtMostOnce(g: Guard, n: nat, steps: seq<Step>)
    requires Fresh(g, n)
    ensures var s := Run(Initial(g), steps);
            && NobodyTwice(s.outcomes)
            && (forall o <- s.outcomes :: (o.Turned? ==> o.id !in s.started) && (o.Ran? ==> o.id in s.started))
            && Released(s.guard) == |s.ran|
  {
    var s := Run(Initial(g), steps);
    RunInv(g, n, steps);
    GrantedAndDenied(Line(s.guard));
  }

  ghost predicate FinishesAt(s: State, steps: seq<Step>, i: nat, id: nat, result: int)
    requires i < |steps|
  {
    steps[i] == FinishStep(id, result) && Enabled(Run(s, steps[..i]), steps[i])
  }

  ghost predicate Finishes(s: State, steps: seq<Step>, id: nat, result: int) {
    exists i :: 0 <= i < |steps| && FinishesAt(s, steps, i, id, result)
  }

  lemma FinishesLast(s: State, steps: seq<Step>, id: nat, result: int)
    requires steps != []
    ensures var n := |steps| - 1;
            && (Finishes(s, steps, id, result)
                <==> Finishes(s, steps[..n], id, result) || FinishesAt(s, steps, n, id, result))
  {
    var n := |steps| - 1;
    forall i | 0 <= i < n
      ensures FinishesAt(s, steps[..n], i, id, result) == FinishesAt(s, steps, i, id, result)
    {
      assert steps[..n][..i] == steps[..i];
    }
  }

  lemma StepResult(s: State, step: Step, id: nat, result: int)
    ensures Ran(id, result) in Apply(s, step).outcomes
       <==> Ran(id, result) in s.outcomes || (step == FinishStep(id, result) && Enabled(s, step))
  {
  }

  /** An operation completes as having run exactly when its inner operation finished, and with the result
      that one produced. */
  lemma {:induction false} OwnResult(g: Guard, steps: seq<Step>, id: nat, result: int)
    ensures Ran(id, result) in Run(Initial(g), steps).outcomes <==> Finishes(Initial(g), steps, id, result)
  {
    if steps != [] {
      var n := |steps| - 1;
      OwnResult(g, steps[..n], id, result);
      StepResult(Run(Initial(g), steps[..n]), steps[n], id, result);
      FinishesLast(Initial(g), steps, id, result);
    }
  }

  // ----- Progress -----

  /** What is left to do: 4 for an operation that has not asked yet, 3 for one that waits, 2 for one that
      wakes, 1 for one that runs or leaves. */
  function Work(s: State): int {
    var c := Line(s.guard);
    4 * s.trying + 3 * |c.queue| + 2 * (|Granted(c.log)| - |s.started|) + (|s.started| - |s.ran|)
      + (|Denied(c.log)| - |s.turned|)
  }

  lemma AskWorks(s: State, n: nat)
    requires Inv(s, n) && s.trying > 0
    ensures Work(Do(s, AskStep)) < Work(s)
  {
    var c := Line(s.guard);
    TakeGuard(s.guard, n);
    GrantedOne(c.log, Entry(c.issued, Success));
    DeniedOne(c.log, Entry(c.issued, Success));
  }

  lemma ResumeWorks(s: State, n: nat, id: nat, ec: Ec)
    requires Inv(s, n) && Enabled(s, ResumeStep(id, ec))
    ensures Work(ResumeOp(s, id, ec)) < Work(s)
  {
  }

  lemma FinishWorks(s: State, n: nat, id: nat, result: int)
    requires Inv(s, n) && Enabled(s, FinishStep(id, result))
    ensures Work(FinishOp(s, id, result)) < Work(s)
  {
    UnitsAreConserved(s, n);
    assert id in Running(s);
    GiveGuard(s.guard, n);
    var c := Line(s.guard);
    if c.queue != [] {
      GrantedOne(c.log, Entry(c.queue[0], Success));
      DeniedOne(c.log, Entry(c.queue[0], Success));
    }
  }

  lemma CancelWorks(s: State, n: nat, id: nat)
    requires Inv(s, n) && Enabled(s, CancelStep(id))
    ensures Work(Do(s, CancelStep(id))) < Work(s)
  {
    CancelGuard(s.guard, n, id);
    GrantedOne(Line(s.guard).log, Entry(id, Aborted));
    DeniedOne(Line(s.guard).log, Entry(id, Aborted));
  }

  lemma StepWorks(s: State, n: nat, step: Step)
    requires Inv(s, n) && Enabled(s, step) && !step.BeginStep?
    ensures Work(Apply(s, step)) < Work(s)
  {
    match step
    case AskStep => AskWorks(s, n);
    case ResumeStep(id, ec) => ResumeWorks(s, n, id, ec);
    case FinishStep(id, result) => FinishWorks(s, n, id, result);
    case CancelStep(id) => CancelWorks(s, n, id);
  }

  /** While there is work, something can happen that is not a new arrival: a request, a handler posted
      earlier, or the end of an inner operation.  So `guarded` never gets stuck. */
  lemma SomethingCanHappen(s: State, n: nat) returns (step: Step)
    requires Inv(s, n) && n >= 1 && Work(s) != 0
    ensures Enabled(s, step) && !step.BeginStep? && !step.CancelStep?
  {
    UnitsAreConserved(s, n);
    GrantedAndDenied(Line(s.guard));
    if s.trying > 0 {
      step := AskStep;
    } else if Waking(s) != {} {
      var id :| id in Waking(s);
      GrantedMembers(Line(s.guard).log, id);
      step := ResumeStep(id, Success);
    } else if Running(s) != {} {
      var id :| id in Running(s);
      step := FinishStep(id, 0);
    } else {
      assert |Leaving(s)| > 0;
      var id :| id in Leaving(s);
      DeniedMembers(Line(s.guard).log, id);
      var e :| e in Line(s.guard).log && e.id == id && !e.ec.Success?;
      assert e == Entry(id, e.ec);
      step := ResumeStep(id, e.ec);
    }
  }

  predicate Moves(s: State, step: Step) {
    !step.BeginStep? && Enabled(s, step)
  }

  ghost predicate Effective(s: State, steps: seq<Step>) {
    forall i :: 0 <= i < |steps| ==> Moves(Run(s, steps[..i]), steps[i])
  }

  lemma EffectiveLast(s: State, steps: seq<Step>)
    requires Effective(s, steps) && steps != []
    ensures var k := |steps| - 1; Effective(s, steps[..k]) && Moves(Run(s, steps[..k]), steps[k])
  {
    hide Moves, Run;
    var k := |steps| - 1;
    assert forall i :: 0 <= i < k ==> steps[..k][..i] == steps[..i];
  }

  /** Without new arrivals everything comes to an end: each step uses up work, in whatever order. */
  lemma {:induction false} WorkEnds(s: State, n: nat, steps: seq<Step>)
    requires Inv(s, n) && Effective(s, steps)
    ensures Inv(Run(s, steps), n) && Work(Run(s, steps)) <= Work(s) - |steps|
    ensures Work(Run(s, steps)) >= 0
  {
    if steps == [] {
      UnitsAreConserved(s, n);
    } else {
      hide Inv, Work, Effective, Enabled, Do;
      var k := |steps| - 1;
      EffectiveLast(s, steps);
      WorkEnds(s, n, steps[..k]);
      StepInv(Run(s, steps[..k]), n, steps[k]);
      StepWorks(Run(s, steps[..k]), n, steps[k]);
      WorkNeverNegative(Run(s, steps), n);
    }
  }

  lemma WorkNeverNegative(s: State, n: nat)
    requires Inv(s, n)
    ensures Work(s) >= 0
  {
    UnitsAreConserved(s, n);
  }

  /** And when no work is left, every operation that began has completed once, and the guard is as free
      as it was in the beginning. */
  lemma AllDone(s: State, n: nat)
    requires Inv(s, n) && Work(s) == 0
    ensures |s.outcomes| == s.begun && s.trying == 0
    ensures Line(s.guard).queue == [] && Free(s.guard) == n
    ensures forall id: nat :: id < Line(s.guard).issued <==> id in s.ran || id in s.turned
  {
    var c := Line(s.guard);
    UnitsAreConserved(s, n);
    Conservation(c);
    assert Waking(s) == {} && Running(s) == {} && Leaving(s) == {};
    forall id: nat
      ensures id < c.issued <==> id in s.ran || id in s.turned
    {
      Whereabouts(c, id);
      assert id in multiset(Granted(c.log)) <==> id in GrantedSet(s);
      assert id in multiset(Denied(c.log)) <==> id in DeniedSet(s);
    }
  }

  /** Something can happen that is not a new arrival. */
  ghost predicate CanMove(s: State) {
    exists step :: Moves(s, step)
  }

  lemma NothingLeft(s: State, n: nat)
    requires Inv(s, n) && |s.outcomes| == s.begun
    ensures Work(s) == 0
  {
    UnitsAreConserved(s, n);
    Conservation(Line(s.guard));
  }

  lemma Outcomes(s: State, n: nat)
    requires Inv(s, n)
    ensures |s.outcomes| <= s.begun
  {
    UnitsAreConserved(s, n);
    Conservation(Line(s.guard));
  }

  /** A schedule of operations that have begun can be carried on exactly as long as one of them has not
      completed: no schedule gets stuck, and none goes on after everybody is done. */
  lemma MovesWhileSomebodyIsLeft(s: State, n: nat, steps: seq<Step>)
    requires Inv(s, n) && n >= 1 && Effective(s, steps)
    ensures var t := Run(s, steps);
            && |steps| <= Work(s) && |t.outcomes| <= t.begun == s.begun
            && (CanMove(t) <==> |t.outcomes| < t.begun)
  {
    WorkEnds(s, n, steps);
    BegunStays(s, steps);
    var t := Run(s, steps);
    Outcomes(t, n);
    if |t.outcomes| == t.begun {
      NothingLeft(t, n);
      forall step | Moves(t, step)
        ensures false
      {
        StepWorks(t, n, step);
        StepInv(t, n, step);
        WorkNeverNegative(Apply(t, step), n);
      }
    } else {
      if Work(t) == 0 { AllDone(t, n); }
      var step := SomethingCanHappen(t, n);
      assert Moves(t, step);
    }
  }

  lemma {:induction false} BegunStays(s: State, steps: seq<Step>)
    requires Effective(s, steps)
    ensures Run(s, steps).begun == s.begun
  {
    if steps != [] {
      EffectiveLast(s, steps);
      BegunStays(s, steps[..|steps| - 1]);
    }
  }

  lemma EffectiveOneMore(s: State, steps: seq<Step>, step: Step)
    requires Effective(s, steps) && Moves(Run(s, steps), step)
    ensures Effective(s, steps + [step])
  {
    var more := steps + [step];
    forall i | 0 <= i < |more|
      ensures Moves(Run(s, more[..i]), more[i])
    {
      assert more[..i] == steps[..i];
      if i == |steps| { assert steps[..i] == steps; }
    }
  }

  /** And there is a schedule that gets everybody through: every operation that began has completed exactly
      once, the queue is empty and all units are free. */
  lemma EverybodyGetsThrough(s: State, n: nat) returns (steps: seq<Step>)
    requires Inv(s, n) && n >= 1
    ensures Effective(s, steps)
    ensures var t := Run(s, steps);
            && |t.outcomes| == t.begun == s.begun && NobodyTwice(t.outcomes)
            && Line(t.guard).queue == [] && Free(t.guard) == n && !CanMove(t)
  {
    steps := [];
    WorkEnds(s, n, steps);
    while Work(Run(s, steps)) > 0
      invariant Effective(s, steps) && Inv(Run(s, steps), n) && Work(Run(s, steps)) >= 0
      decreases Work(Run(s, steps))
    {
      hide Inv, Work, Effective;
      var t := Run(s, steps);
      var step := SomethingCanHappen(t, n);
      EffectiveOneMore(s, steps, step);
      StepWorks(t, n, step);
      var more := steps + [step];
      assert more[..|more| - 1] == steps;
      steps := more;
      WorkEnds(s, n, steps);
    }
    AllDone(Run(s, steps), n);
    MovesWhileSomebodyIsLeft(s, n, steps);
  }
}
