/** The service that keeps the registered primitives and shuts them down with the execution context. */
module Services {
  import opened Ledgers
  import opened Rings
  import opened Holders
  import opened Members
  import opened Mutexes
  import M = MutexSpec

  ghost function Bases(ms: seq<Member>): (s: seq<Node>)
    ensures |s| == |ms|
  {
    seq(|ms|, i requires 0 <= i < |ms| => Base(ms[i]))
  }

  ghost function AllHandles(ms: seq<Member>): set<object> {
    set i, o | 0 <= i < |ms| && o in Handles(ms[i]) :: o
  }

  ghost function AllReprs(ms: seq<Member>): set<object>
    reads AllHandles(ms)
  {
    set i, o | 0 <= i < |ms| && o in Repr(ms[i]) :: o
  }

  /** The members are well and registered, they share nothing, and what they own, in all `owned`, is none
      of the roots or of the hooks. */
  ghost predicate Kept(ms: seq<Member>, owner: map<Node, Member>, roots: set<object>, owned: set<object>)
    reads owned
  {
    && owned !! roots
    && (forall i :: 0 <= i < |ms| ==> Handles(ms[i]) <= owned && Repr(ms[i]) <= owned)
    && (forall i :: 0 <= i < |ms| ==> Valid(ms[i]) && InService(ms[i]))
    && (forall i, j :: 0 <= i < j < |ms| ==> Repr(ms[i]) !! Repr(ms[j]))
    && (forall i :: 0 <= i < |ms| ==> Base(ms[i]) !in owned)
    && (forall i :: 0 <= i < |ms| ==> Base(ms[i]) in owner && owner[Base(ms[i])] == ms[i])
  }

  lemma Exact(ms: seq<Member>, owner: map<Node, Member>, roots: set<object>, owned: set<object>)
    requires Kept(ms, owner, roots, owned)
    ensures AllReprs(ms) <= owned && Kept(ms, owner, roots, AllReprs(ms))
  {
    hide Base, Handles, Valid, InService;
    forall i | 0 <= i < |ms|
      ensures Repr(ms[i]) <= AllReprs(ms) && Handles(ms[i]) <= Repr(ms[i])
    {
    }
  }

  /** The members but the one at `k`, who own `rest`. */
  ghost predicate Others(ms: seq<Member>, k: nat, owner: map<Node, Member>, roots: set<object>, rest: set<object>)
    requires k < |ms|
    reads rest
  {
    && rest !! roots
    && (forall i :: 0 <= i < |ms| && i != k ==> Handles(ms[i]) <= rest && Repr(ms[i]) <= rest)
    && (forall i :: 0 <= i < |ms| && i != k ==> Valid(ms[i]) && InService(ms[i]))
    && (forall i, j :: 0 <= i < j < |ms| && i != k && j != k ==> Repr(ms[i]) !! Repr(ms[j]))
    && (forall i :: 0 <= i < |ms| ==> Base(ms[i]) !in rest)
    && (forall i :: 0 <= i < |ms| ==> Base(ms[i]) in owner && owner[Base(ms[i])] == ms[i])
  }

  /** The member at `k` shares nothing with the others, with the roots or with the hooks. */
  ghost predicate Aside(ms: seq<Member>, k: nat, roots: set<object>, rest: set<object>)
    requires k < |ms|
    reads Handles(ms[k])
  {
    Repr(ms[k]) !! rest + roots && forall i {:trigger ms[i]} :: 0 <= i < |ms| ==> Base(ms[i]) !in Repr(ms[k])
  }

  lemma AllTogether(ms: seq<Member>, k: nat, owner: map<Node, Member>, roots: set<object>, rest: set<object>)
    requires k < |ms| && Others(ms, k, owner, roots, rest) && Aside(ms, k, roots, rest)
    requires Valid(ms[k]) && InService(ms[k])
    ensures Kept(ms, owner, roots, rest + Repr(ms[k]))
  {
    hide Base, Valid, InService, Handles;
    assert Handles(ms[k]) <= Repr(ms[k]);
  }

  /** The member shares nothing with the others, of whom `owned` is all. */
  ghost predicate Foreign(m: Member, ms: seq<Member>, roots: set<object>, owned: set<object>)
    reads Handles(m)
  {
    && Repr(m) !! owned + roots
    && Base(m) !in roots && Base(m) !in Bases(ms) && Base(m) !in owned + Repr(m)
    && (forall i :: 0 <= i < |ms| ==> Base(ms[i]) !in Repr(m))
  }

  lemma Grow(ms: seq<Member>, m: Member, owner: map<Node, Member>, roots: set<object>, owned: set<object>)
    requires Kept(ms, owner, roots, owned) && Foreign(m, ms, roots, owned) && Valid(m) && InService(m)
    ensures Kept(ms + [m], owner[Base(m) := m], roots, owned + Repr(m))
    ensures Bases(ms + [m]) == Bases(ms) + [Base(m)]
  {
    hide Base, Repr, Handles, Valid, InService;
    var t := ms + [m];
    assert forall i :: 0 <= i < |ms| ==> t[i] == ms[i] && Bases(ms)[i] == Base(ms[i]);
  }

  lemma Shrink(ms: seq<Member>, k: nat, owner: map<Node, Member>, roots: set<object>, owned: set<object>)
    requires k < |ms| && Kept(ms, owner, roots, owned)
    ensures Kept(Without(ms, k), owner, roots, owned)
    ensures Bases(Without(ms, k)) == Without(Bases(ms), k)
  {
    hide Base, Repr, Handles, Valid, InService;
    var t := Without(ms, k);
    assert forall i :: 0 <= i < |t| ==> t[i] == ms[if i < k then i else i + 1];
  }

  /** What a member owned, and who stood in its ledgers and on its rings, before the shutdown. */
  datatype Before = Before(repr: set<object>, lines: seq<Ledger>, ops: seq<Node>)

  ghost function Snapshot(m: Member): Before
    reads Handles(m)
  {
    Before(Repr(m), Lines(m), Ops(m))
  }

  ghost function Snapshots(ms: seq<Member>): seq<Before>
    reads AllHandles(ms)
  {
    seq(|ms|, i requires 0 <= i < |ms| reads AllHandles(ms) => Snapshot(ms[i]))
  }

  /** The shutdown has not come to the member yet. */
  ghost predicate Pending(m: Member, b: Before)
    reads b.repr
  {
    Handles(m) <= b.repr && Repr(m) <= b.repr && Valid(m) && b == Snapshot(m)
  }

  /** The member has been shut down: off the service, its rings empty, everybody who waited dropped once. */
  ghost predicate Retired(m: Member, b: Before)
    reads b.repr
  {
    && Handles(m) <= b.repr && Repr(m) <= b.repr && Valid(m) && !InService(m)
    && Ops(m) == [] && Lines(m) == ShutOut(b.lines)
    && (forall i :: 0 <= i < |b.ops| ==> b.ops[i] in b.repr) && AllEnded(b.ops, ShutDown)
  }

  method RetireOne(m: Member, ghost b: Before)
    requires Pending(m, b)
    modifies b.repr
    ensures Retired(m, b)
  {
    Retire(m);
  }

  /** The shutdown has dealt with the first `k` members and not touched the others. */
  ghost predicate ShutUpto(ms: seq<Member>, bs: seq<Before>, owned: set<object>, k: nat)
    requires |bs| == |ms|
    reads owned
  {
    && (forall i {:trigger bs[i]} :: 0 <= i < |bs| ==> bs[i].repr <= owned)
    && (forall i, j {:trigger bs[i], bs[j]} :: 0 <= i < j < |bs| ==> bs[i].repr !! bs[j].repr)
    && (forall i {:trigger bs[i]} :: 0 <= i < k && i < |ms| ==> Retired(ms[i], bs[i]))
    && (forall i {:trigger bs[i]} :: k <= i < |ms| ==> Pending(ms[i], bs[i]))
  }

  method RetireNext(m: Member, ghost ms: seq<Member>, ghost bs: seq<Before>, ghost owned: set<object>, ghost k: nat)
    requires |bs| == |ms| && ShutUpto(ms, bs, owned, k) && k < |ms| && ms[k] == m
    modifies owned
    ensures ShutUpto(ms, bs, owned, k + 1)
  {
    hide Pending, Retired;
    RetireOne(m, bs[k]);
  }

  lemma AllRetired(ms: seq<Member>, bs: seq<Before>, owned: set<object>)
    requires |bs| == |ms| && ShutUpto(ms, bs, owned, |ms|)
    ensures forall i {:trigger bs[i]} :: 0 <= i < |ms| ==> Retired(ms[i], bs[i])
  {
  }

  /** The loop over the ring `s` that was moved to the local root `e`. */
  method Drain(e: Node, owner: map<Node, Member>, ghost s: seq<Node>, ghost ms: seq<Member>, ghost bs: seq<Before>,
               ghost owned: set<object>)
    returns (visited: seq<Member>)
    requires IsRing(e, s) && |s| == |bs| == |ms|
    requires forall i {:trigger s[i]} :: 0 <= i < |s| ==> s[i] !in owned && s[i] in owner && owner[s[i]] == ms[i]
    requires e !in owned && ShutUpto(ms, bs, owned, 0)
    modifies e`next_, owned
    ensures visited == ms && e.next_ == e && ShutUpto(ms, bs, owned, |ms|)
  {
    var nx := e.next_;
    assert nx == Succ(e, s, -1);
    assert forall i {:trigger s[i].next_} :: 0 <= i < |s| ==> s[i].next_ == Succ(e, s, i);
    assert forall i {:trigger s[i]} :: 0 <= i < |s| ==> s[i] != e;
    visited := [];
    ghost var k := 0;
    hide IsRing, ShutUpto;
    while nx != e
      invariant k <= |ms| && nx == e.next_ == Succ(e, s, k - 1)
      invariant visited == ms[..k]
      invariant forall i {:trigger s[i].next_} :: k <= i < |s| ==> s[i].next_ == Succ(e, s, i)
      invariant ShutUpto(ms, bs, owned, k)
      decreases |ms| - k
    {
      assert nx == s[k];
      var nnx := nx.next_;
      var member := owner[nx];
      RetireNext(member, ms, bs, owned, k);
      visited := visited + [member];
      nx := nnx;
      e.next_ := nx;
      k := k + 1;
    }
  }

  method ShutdownRing(entries: Node, owner: map<Node, Member>, ghost s: seq<Node>, ghost ms: seq<Member>,
                      ghost bs: seq<Before>, ghost owned: set<object>)
    returns (visited: seq<Member>)
    requires IsRing(entries, s) && |s| == |bs| == |ms|
    requires forall i {:trigger s[i]} :: 0 <= i < |s| ==> s[i] !in owned && s[i] in owner && owner[s[i]] == ms[i]
    requires entries !in owned && ShutUpto(ms, bs, owned, 0)
    modifies entries, s, owned
    ensures IsRing(entries, []) && visited == ms && ShutUpto(ms, bs, owned, |ms|)
  {
    assert entries.next_ == Succ(entries, s, -1) && entries.prev_ == Pred(entries, s, |s|);
    hide IsRing, ShutUpto;
    var e := new Node.Move(entries, s);
    visited := Drain(e, owner, s, ms, bs, owned);
  }

  /** No change to these nodes is a change to what the members own. */
  ghost predicate Elsewhere(s: seq<Node>, owned: set<object>) {
    forall i {:trigger s[i]} :: 0 <= i < |s| ==> s[i] !in owned
  }

  lemma HooksElsewhere(ms: seq<Member>, owner: map<Node, Member>, roots: set<object>, owned: set<object>)
    requires Kept(ms, owner, roots, owned)
    ensures Elsewhere(Bases(ms), owned) && owned !! roots
  {
    hide Base, Repr, Handles, Valid, InService;
    assert forall i :: 0 <= i < |ms| ==> Bases(ms)[i] == Base(ms[i]);
  }

  method Hang(hook: Node, entries: Node, ghost s: seq<Node>, ghost owned: set<object>,
              ghost ms: seq<Member>, ghost owner: map<Node, Member>, ghost roots: set<object>)
    requires IsRing(entries, s) && hook != entries && hook !in s && Elsewhere(s, owned)
    requires entries !in owned && hook !in owned
    requires Kept(ms, owner, roots, owned)
    modifies hook, entries, s
    ensures IsRing(entries, s + [hook]) && Kept(ms, owner, roots, owned)
  {
    assert entries.prev_ == Pred(entries, s, |s|);
    hide IsRing, Kept;
    hook.Append(entries, s);
  }

  method TakeDown(hook: Node, entries: Node, ghost s: seq<Node>, ghost k: nat, ghost owned: set<object>,
                  ghost ms: seq<Member>, ghost owner: map<Node, Member>, ghost roots: set<object>)
    requires IsRing(entries, s) && k < |s| && s[k] == hook && Elsewhere(s, owned)
    requires entries !in owned
    requires Kept(ms, owner, roots, owned)
    modifies entries, s
    ensures IsRing(entries, Without(s, k)) && Kept(ms, owner, roots, owned)
  {
    assert hook.prev_ == Pred(entries, s, k) && hook.next_ == Succ(entries, s, k);
    hide IsRing, Kept, Without;
    hook.UnlinkFrom(entries, s, k);
  }

  class Service {
    const entries: Node
    // Which object a hook is the base of.
    var owner: map<Node, Member>
    ghost var members: seq<Member>

    ghost predicate Valid()
      reads this, entries, Bases(members), AllHandles(members), AllReprs(members)
    {
      && IsRing(entries, Bases(members))
      && Kept(members, owner, {this, entries}, AllReprs(members))
    }

    constructor ()
      ensures Valid() && members == [] && fresh(entries)
    {
      entries := new Node(0);
      owner := map[];
      members := [];
    }

    lemma StillValid(owned: set<object>)
      requires IsRing(entries, Bases(members)) && Kept(members, owner, {this, entries}, owned)
      ensures Valid()
    {
      Exact(members, owner, {this, entries}, owned);
    }

    lemma CanRegister(m: Member)
      requires Valid() && Members.Valid(m) && InService(m)
      requires Foreign(m, members, {this, entries}, AllReprs(members))
      ensures var hook, s, owned := Base(m), Bases(members), AllReprs(members) + Repr(m);
              && IsRing(entries, s) && hook != entries && hook !in s && Elsewhere(s, owned)
              && this !in owned && entries !in owned && hook !in owned
              && Kept(members + [m], owner[hook := m], {this, entries}, owned)
              && Bases(members + [m]) == s + [hook]
    {
      var s, owned := Bases(members), AllReprs(members) + Repr(m);
      Grow(members, m, owner, {this, entries}, AllReprs(members));
      HooksElsewhere(members + [m], owner[Base(m) := m], {this, entries}, owned);
      assert forall i {:trigger s[i]} :: 0 <= i < |s| ==> s[i] == (s + [Base(m)])[i];
      hide IsRing, Kept, Base, Repr, Handles, Bases, AllReprs, Members.Valid, InService;
    }

    /** Construction of a member links it at the back. */
    method Register(m: Member)
      requires Valid() && Members.Valid(m) && InService(m)
      requires Foreign(m, members, {this, entries}, AllReprs(members))
      modifies this, entries, Bases(members), Base(m)
      ensures Valid() && members == old(members) + [m]
    {
      hide Valid, IsRing, Kept, Foreign, Elsewhere, Bases, AllReprs, AllHandles, Base, Repr, Handles, Members.Valid,
        InService;
      CanRegister(m);
      ghost var ms, s, owned := members + [m], Bases(members), AllReprs(members) + Repr(m);
      var hook := Base(m);
      Hang(hook, entries, s, owned, ms, owner[hook := m], {this, entries});
      owner := owner[hook := m];
      members := ms;
      StillValid(owned);
    }

    lemma CanUnregister(m: Member, k: nat)
      requires Valid() && k < |members| && members[k] == m
      ensures var s, owned := Bases(members), AllReprs(members);
              && IsRing(entries, s) && s[k] == Base(m) && Elsewhere(s, owned)
              && this !in owned && entries !in owned
              && Kept(Without(members, k), owner, {this, entries}, owned)
              && Bases(Without(members, k)) == Without(s, k)
    {
      Shrink(members, k, owner, {this, entries}, AllReprs(members));
      HooksElsewhere(members, owner, {this, entries}, AllReprs(members));
      assert Bases(members)[k] == Base(m);
      hide IsRing, Kept, Base, Repr, Handles, Bases, AllReprs, Members.Valid, InService, Elsewhere, Without;
    }

    /** Destruction of a member takes it out, unless a shutdown has cleared its pointer to the service. */
    method Unregister(m: Member, ghost k: nat)
      requires Valid() && (InService(m) ==> k < |members| && members[k] == m)
      modifies this, entries, Bases(members)
      ensures Valid() && members == if old(InService(m)) then Without(old(members), k) else old(members)
    {
      hide Valid, IsRing, Kept, Elsewhere, Bases, AllReprs, AllHandles, Base, Repr, Handles, Members.Valid, Without,
        InService;
      if !InService(m) {
        return;
      }
      CanUnregister(m, k);
      ghost var ms, s, owned := Without(members, k), Bases(members), AllReprs(members);
      var hook := Base(m);
      TakeDown(hook, entries, s, k, owned, ms, owner, {this, entries});
      members := ms;
      StillValid(owned);
    }

    /** Before an operation on member `k`: what the others own, `rest`, is apart from it. */
    lemma SetAside(k: nat)
      requires Valid() && k < |members|
      ensures var rest := AllReprs(members) - Repr(members[k]);
              && Others(members, k, owner, {this, entries}, rest)
              && IsRing(entries, Bases(members)) && Aside(members, k, {this, entries}, rest)
              && Members.Valid(members[k]) && InService(members[k])
    {
      hide IsRing, Base, Handles, Members.Valid, InService;
      forall i | 0 <= i < |members| && i != k
        ensures Repr(members[i]) !! Repr(members[k])
      {
      }
    }

    /** After it: if the member is well and has taken nothing from the others, the service is in order. */
    lemma OperationKeeps(k: nat, rest: set<object>)
      requires IsRing(entries, Bases(members)) && k < |members|
      requires Others(members, k, owner, {this, entries}, rest) && Aside(members, k, {this, entries}, rest)
      requires Members.Valid(members[k]) && InService(members[k])
      ensures Valid()
    {
      AllTogether(members, k, owner, {this, entries}, rest);
      StillValid(rest + Repr(members[k]));
    }

    lemma NobodyShutYet()
      requires Valid()
      ensures var ms, s := members, Bases(members);
              && |s| == |Snapshots(ms)| == |ms| && ShutUpto(ms, Snapshots(ms), AllReprs(ms), 0)
              && this !in AllReprs(ms) && entries !in AllReprs(ms)
              && forall i {:trigger s[i]} :: 0 <= i < |s| ==>
                   s[i] !in AllReprs(ms) && s[i] in owner && owner[s[i]] == ms[i]
    {
      hide IsRing, Handles, Repr, Base, Members.Valid, Lines, Ops, InService;
    }

    lemma NobodyHere()
      requires members == [] && IsRing(entries, [])
      ensures Valid()
    {
    }

    /** Every member is visited once, in the order of registration. */
    method Shutdown() returns (visited: seq<Member>)
      requires Valid()
      modifies this, entries, Bases(members), AllReprs(members)
      ensures visited == old(members) && members == [] && Valid()
      ensures var before := old(Snapshots(visited));
              forall i {:trigger before[i]} :: 0 <= i < |visited| ==> Retired(visited[i], before[i])
    {
      ghost var ms, s, bs, owned := members, Bases(members), Snapshots(members), AllReprs(members);
      NobodyShutYet();
      assert IsRing(entries, s);
      hide IsRing, ShutUpto, Valid, AllReprs, Snapshots, Bases, Pending, Retired;
      visited := ShutdownRing(entries, owner, s, ms, bs, owned);
      members := [];
      AllRetired(ms, bs, owned);
      NobodyHere();
    }
  }

  // ----- A service with members in use -----

  /** A mutex constructed for the service is registered with it. */
  method OpenMutex(svc: Service, enabled: bool) returns (m: Mutex)
    requires svc.Valid()
    modifies svc, svc.entries, Bases(svc.members)
    ensures svc.Valid() && svc.members == old(svc.members) + [AMutex(m)]
    ensures fresh(m.Repr()) && fresh(m.base) && m.Valid() && m.State() == M.INITIAL && m.enabled == enabled
  {
    m := Enrol(svc, enabled, AllReprs(svc.members), Bases(svc.members));
  }

  lemma HandlesOwned(ms: seq<Member>)
    ensures AllHandles(ms) <= AllReprs(ms)
  {
    hide Handles;
    forall o | o in AllHandles(ms)
      ensures o in AllReprs(ms)
    {
      var i :| 0 <= i < |ms| && o in Handles(ms[i]);
      assert o in Repr(ms[i]);
    }
  }

  lemma AsideIs(ms: seq<Member>, k: nat, roots: set<object>, rest: set<object>)
    requires k < |ms|
    ensures Aside(ms, k, roots, rest) <==>
              && Repr(ms[k]) !! rest + roots
              && forall i {:trigger Bases(ms)[i]} :: 0 <= i < |ms| ==> Bases(ms)[i] !in Repr(ms[k])
  {
    hide Base, Repr, Handles;
    assert forall i {:trigger ms[i]} {:trigger Bases(ms)[i]} :: 0 <= i < |ms| ==> Bases(ms)[i] == Base(ms[i]);
  }

  lemma NewcomerIsForeign(m: Member, ms: seq<Member>, roots: set<object>, owned: set<object>)
    requires Repr(m) !! owned + roots && Base(m) !in owned + roots && Base(m) !in Repr(m)
    requires forall i {:trigger Bases(ms)[i]} :: 0 <= i < |ms| ==> Bases(ms)[i] !in Repr(m) && Bases(ms)[i] != Base(m)
    ensures Foreign(m, ms, roots, owned)
  {
    hide Repr, Base, Handles;
    assert forall i {:trigger ms[i]} :: 0 <= i < |ms| ==> Bases(ms)[i] == Base(ms[i]);
  }

  lemma AsMember(m: Mutex)
    ensures Repr(AMutex(m)) == m.Repr() && Base(AMutex(m)) == m.base
    ensures Valid(AMutex(m)) == m.Valid() && InService(AMutex(m)) == m.service
  {
  }

  method Enrol(svc: Service, enabled: bool, ghost owned: set<object>, ghost hooks: seq<Node>) returns (m: Mutex)
    requires svc.Valid() && owned == AllReprs(svc.members) && hooks == Bases(svc.members)
    modifies svc, svc.entries, hooks
    ensures svc.Valid() && svc.members == old(svc.members) + [AMutex(m)]
    ensures fresh(m.Repr()) && fresh(m.base) && m.Valid() && m.State() == M.INITIAL && m.enabled == enabled
  {
    hide IsRing, Kept, Foreign, Bases, AllReprs, AllHandles, Base, Members.Repr, Handles, Members.Valid, InService,
      Service.Valid, Mutex.Valid, Mutex.State;
    HandlesOwned(svc.members);
    m := new Mutex(enabled);
    AsMember(m);
    assert m.Repr() !! owned + {svc, svc.entries} && forall i {:trigger hooks[i]} :: 0 <= i < |hooks| ==>
      hooks[i] !in m.Repr() && hooks[i] != m.base;
    NewcomerIsForeign(AMutex(m), svc.members, {svc, svc.entries}, owned);
    svc.Register(AMutex(m));
  }

  /** An asynchronous lock of a registered mutex, which may take a new node on, leaves the service in order. */
  method AsyncLockThrough(svc: Service, m: Mutex, ghost k: nat, ghost owned: set<object>, ghost hooks: seq<Node>)
    requires svc.Valid() && k < |svc.members| && svc.members[k] == AMutex(m)
    requires owned == AllReprs(svc.members) && hooks == Bases(svc.members)
    modifies m.Repr()
    ensures svc.Valid() && svc.members == old(svc.members)
    ensures m.Valid() && m.State() == M.AsyncLock(old(m.State())) && fresh(m.Repr() - old(m.Repr()))
  {
    hide IsRing, Kept, Bases, AllReprs, AllHandles, Base, Members.Repr, Handles, Members.Valid, InService, Others,
      Aside, Service.Valid, Mutex.Valid, Mutex.State;
    svc.SetAside(k);
    AsMember(m);
    ghost var ms, rest := svc.members, owned - m.Repr();
    AsideIs(ms, k, {svc, svc.entries}, rest);
    m.AsyncLock();
    AsMember(m);
    assert m.Repr() !! rest + {svc, svc.entries} && forall i {:trigger hooks[i]} :: 0 <= i < |hooks| ==>
      hooks[i] !in m.Repr();
    AsideIs(ms, k, {svc, svc.entries}, rest);
    svc.OperationKeeps(k, rest);
  }

  lemma OneMutex(m: Mutex)
    ensures Bases([AMutex(m)]) == [m.base] && AllReprs([AMutex(m)]) == m.Repr()
    ensures |Snapshots([AMutex(m)])| == 1 && Snapshots([AMutex(m)])[0].lines == [m.State().line]
  {
    hide Mutex.Repr, Mutex.State, Mutex.Valid;
    var ms := [AMutex(m)];
    assert ms[0] == AMutex(m);
    var whole := AllReprs(ms);
    assert Repr(ms[0]) == m.Repr();
    assert forall o <- whole :: o in m.Repr();
    assert forall o <- m.Repr() :: o in Repr(ms[0]) && o in whole;
    assert whole == m.Repr();
  }

  lemma RetiredMutex(m: Mutex, b: Before)
    requires Retired(AMutex(m), b) && |b.lines| == 1
    ensures m.Valid() && !m.service && m.State().line == SettleAll(b.lines[0], ShutDown)
  {
    assert Lines(AMutex(m))[0] == m.State().line;
  }

  lemma HolderAndWaiter()
    ensures var c := M.AsyncLock(M.AsyncLock(M.INITIAL)).line;
            SettleAll(c, ShutDown) == Ledger(2, [], [Entry(0, Success), Entry(1, ShutDown)])
  {
    assert M.AsyncLock(M.INITIAL).line == Ledger(1, [], [Entry(0, Success)]);
    assert M.AsyncLock(M.AsyncLock(M.INITIAL)).line == Ledger(2, [1], [Entry(0, Success)]);
  }

  /** A service, a mutex registered with it, a holder, a waiter, and the shutdown: the mutex is visited, it
      is off the service, and the waiter has been dropped once. */
  method OpenUseShutDown() returns (svc: Service, m: Mutex)
    ensures svc.Valid() && svc.members == [] && m.Valid() && !m.service
    ensures m.State().line == Ledger(2, [], [Entry(0, Success), Entry(1, ShutDown)])
  {
    hide IsRing, Kept, Bases, AllReprs, AllHandles, Base, Members.Repr, Handles, Members.Valid, InService, Retired,
      Service.Valid, Mutex.Valid, Mutex.State, Mutex.Repr, Snapshots, SettleAll,
      M.AsyncLock;
    HolderAndWaiter();
    svc := new Service();
    m := OpenMutex(svc, true);
    assert svc.members == [AMutex(m)];
    OneMutex(m);
    AsyncLockThrough(svc, m, 0, AllReprs(svc.members), Bases(svc.members));
    OneMutex(m);
    AsyncLockThrough(svc, m, 0, AllReprs(svc.members), Bases(svc.members));
    OneMutex(m);
    ghost var before := Snapshots(svc.members);
    var visited := svc.Shutdown();
    RetiredMutex(m, before[0]);
  }
}
