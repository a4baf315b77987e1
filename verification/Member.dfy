/** What the service knows about the primitives registered with it: the base class they share. */
module Members {
  import opened Ledgers
  import opened Rings
  import opened Holders
  import opened Mutexes
  import opened Semaphores
  import opened SharedMutexes
  import opened Barriers
  import opened ConditionVariables

  datatype Member =
    | AMutex(m: Mutex)
    | ASemaphore(s: Semaphore)
    | ASharedMutex(x: SharedMutex)
    | ABarrier(b: Barrier)
    | AConditionVariable(c: ConditionVariable)

  /** The list hook by which a member hangs on the ring of the service. */
  function Base(member: Member): Node {
    match member
    case AMutex(m) => m.base
    case ASemaphore(s) => s.base
    case ASharedMutex(x) => x.base
    case ABarrier(b) => b.base
    case AConditionVariable(c) => c.base
  }

  ghost function Handles(member: Member): set<object> {
    match member
    case AMutex(m) => {m, m.waiters_}
    case ASemaphore(s) => {s, s.waiters_}
    case ASharedMutex(x) => {x, x.waiters_, x.shared_waiters_}
    case ABarrier(b) => {b, b.waiters_}
    case AConditionVariable(c) => {c, c.waiters_}
  }

  /** Everything a member owns. */
  ghost function Repr(member: Member): (r: set<object>)
    reads Handles(member)
    ensures Handles(member) <= r
  {
    match member
    case AMutex(m) => m.Repr()
    case ASemaphore(s) => s.Repr()
    case ASharedMutex(x) => x.Repr()
    case ABarrier(b) => b.Repr()
    case AConditionVariable(c) => c.Repr()
  }

  ghost predicate Valid(member: Member)
    reads Handles(member), Repr(member)
  {
    match member
    case AMutex(m) => m.Valid()
    case ASemaphore(s) => s.Valid()
    case ASharedMutex(x) => x.Valid()
    case ABarrier(b) => b.Valid()
    case AConditionVariable(c) => c.Valid()
  }

  /** Does the member still point at the service? */
  predicate InService(member: Member)
    reads Handles(member)
  {
    match member
    case AMutex(m) => m.service
    case ASemaphore(s) => s.service
    case ASharedMutex(x) => x.service
    case ABarrier(b) => b.service
    case AConditionVariable(c) => c.service
  }

  /** The ledgers of the member, one for each ring. */
  ghost function Lines(member: Member): seq<Ledger>
    reads Handles(member)
  {
    match member
    case AMutex(m) => [m.State().line]
    case ASemaphore(s) => [s.State().line]
    case ASharedMutex(x) => [x.State().writers, x.State().readers]
    case ABarrier(b) => [b.State().line]
    case AConditionVariable(c) => [c.State()]
  }

  /** The operations waiting with the member. */
  ghost function Ops(member: Member): (ops: seq<Node>)
    reads Handles(member)
    ensures forall i :: 0 <= i < |ops| ==> ops[i] in Repr(member)
  {
    match member
    case AMutex(m) => m.waiters_.waiting
    case ASemaphore(s) => s.waiters_.waiting
    case ASharedMutex(x) => x.waiters_.waiting + x.shared_waiters_.waiting
    case ABarrier(b) => b.waiters_.waiting
    case AConditionVariable(c) => c.waiters_.waiting
  }

  function ShutOut(lines: seq<Ledger>): seq<Ledger> {
    seq(|lines|, i requires 0 <= i < |lines| => SettleAll(lines[i], ShutDown))
  }

  lemma AllEndedAppend(s: seq<Node>, t: seq<Node>, ec: Ec)
    requires AllEnded(s, ec) && AllEnded(t, ec)
    ensures AllEnded(s + t, ec)
  {
    var u := s + t;
    assert forall i {:trigger u[i].wait} :: 0 <= i < |u| ==> u[i] == if i < |s| then s[i] else t[i - |s|];
  }

  method RetireMutex(m: Mutex)
    requires Valid(AMutex(m))
    modifies Repr(AMutex(m))
    ensures Valid(AMutex(m)) && !InService(AMutex(m))
    ensures Repr(AMutex(m)) <= old(Repr(AMutex(m)))
    ensures Ops(AMutex(m)) == []
    ensures Lines(AMutex(m)) == ShutOut(old(Lines(AMutex(m))))
    ensures AllEnded(old(Ops(AMutex(m))), ShutDown)
  {
    hide IsRing, AllWaiting, AllEnded, Numbered, AllBelow, Serials, Posted;
    m.service := false;
    var dropped := m.Shutdown();
  }

  method RetireSemaphore(s: Semaphore)
    requires Valid(ASemaphore(s))
    modifies Repr(ASemaphore(s))
    ensures Valid(ASemaphore(s)) && !InService(ASemaphore(s))
    ensures Repr(ASemaphore(s)) <= old(Repr(ASemaphore(s)))
    ensures Ops(ASemaphore(s)) == []
    ensures Lines(ASemaphore(s)) == ShutOut(old(Lines(ASemaphore(s))))
    ensures AllEnded(old(Ops(ASemaphore(s))), ShutDown)
  {
    hide IsRing, AllWaiting, AllEnded, Numbered, AllBelow, Serials, Posted;
    s.service := false;
    var dropped := s.Shutdown();
  }

  method RetireSharedMutex(x: SharedMutex)
    requires Valid(ASharedMutex(x))
    modifies Repr(ASharedMutex(x))
    ensures Valid(ASharedMutex(x)) && !InService(ASharedMutex(x))
    ensures Repr(ASharedMutex(x)) <= old(Repr(ASharedMutex(x)))
    ensures Ops(ASharedMutex(x)) == []
    ensures Lines(ASharedMutex(x)) == ShutOut(old(Lines(ASharedMutex(x))))
    ensures AllEnded(old(Ops(ASharedMutex(x))), ShutDown)
  {
    hide IsRing, AllWaiting, AllEnded, Numbered, AllBelow, Serials, Posted;
    x.service := false;
    ghost var w, r := x.waiters_.waiting, x.shared_waiters_.waiting;
    var dropped, droppedShared := x.Shutdown();
    AllEndedAppend(w, r, ShutDown);
  }

  method RetireBarrier(b: Barrier)
    requires Valid(ABarrier(b))
    modifies Repr(ABarrier(b))
    ensures Valid(ABarrier(b)) && !InService(ABarrier(b))
    ensures Repr(ABarrier(b)) <= old(Repr(ABarrier(b)))
    ensures Ops(ABarrier(b)) == []
    ensures Lines(ABarrier(b)) == ShutOut(old(Lines(ABarrier(b))))
    ensures AllEnded(old(Ops(ABarrier(b))), ShutDown)
  {
    hide IsRing, AllWaiting, AllEnded, Numbered, AllBelow, Serials, Posted;
    b.service := false;
    var dropped := b.Shutdown();
  }

  method RetireConditionVariable(c: ConditionVariable)
    requires Valid(AConditionVariable(c))
    modifies Repr(AConditionVariable(c))
    ensures Valid(AConditionVariable(c)) && !InService(AConditionVariable(c))
    ensures Repr(AConditionVariable(c)) <= old(Repr(AConditionVariable(c)))
    ensures Ops(AConditionVariable(c)) == []
    ensures Lines(AConditionVariable(c)) == ShutOut(old(Lines(AConditionVariable(c))))
    ensures AllEnded(old(Ops(AConditionVariable(c))), ShutDown)
  {
    hide IsRing, AllWaiting, AllEnded, Numbered, AllBelow, Serials, Posted;
    c.service := false;
    var dropped := c.Shutdown();
  }

  /** The pointer to the service is cleared, then the virtual `shutdown` of the member is called. */
  method Retire(member: Member)
    requires Valid(member)
    modifies Repr(member)
    ensures Valid(member) && !InService(member)
    ensures Repr(member) <= old(Repr(member))
    ensures Ops(member) == [] && Lines(member) == ShutOut(old(Lines(member)))
    ensures AllEnded(old(Ops(member)), ShutDown)
  {
    hide Valid, InService, Repr, Lines, Ops, ShutOut, AllEnded;
    match member
    case AMutex(m) => RetireMutex(m);
    case ASemaphore(s) => RetireSemaphore(s);
    case ASharedMutex(x) => RetireSharedMutex(x);
    case ABarrier(b) => RetireBarrier(b);
    case AConditionVariable(c) => RetireConditionVariable(c);
  }
}
