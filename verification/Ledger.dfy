/** What a queueing primitive owes its callers, as a value.

    Every request gets the next serial number.  A request waits in `queue` or has left it, and a
    request that has left it has one entry in `log`: the moment its handler is dispatched or posted,
    its blocking call returns, or it is dropped by a shutdown.  A failed `try_` call leaves no trace. */
module Ledgers {

  datatype Ec = Success | Aborted | InProgress | ShutDown

  datatype Entry = Entry(id: nat, ec: Ec)

  datatype Ledger = Ledger(issued: nat, queue: seq<nat>, log: seq<Entry>)

  const EMPTY := Ledger(0, [], [])

  function Without<T>(s: seq<T>, k: nat): seq<T>
    requires k < |s|
  {
    s[..k] + s[k + 1..]
  }

  lemma WithoutMembers<T>(s: seq<T>, k: nat)
    requires k < |s|
    ensures forall x <- Without(s, k) :: x in s
  {
  }

  lemma WithoutCounts<T>(s: seq<T>, k: nat)
    requires k < |s|
    ensures multiset(s) == multiset(Without(s, k)) + multiset{s[k]}
  {
    assert s == s[..k] + [s[k]] + s[k + 1..];
  }

  /** One entry for each id, in order, all with the same error code. */
  function Posted(ids: seq<nat>, ec: Ec): seq<Entry> {
    seq(|ids|, i requires 0 <= i < |ids| => Entry(ids[i], ec))
  }

  // ----- The five things a primitive does to its ledger -----

  /** A new request goes to the back of the queue. */
  function Enqueue(c: Ledger): Ledger {
    c.(issued := c.issued + 1, queue := c.queue + [c.issued])
  }

  /** A new request is answered on the spot. */
  function Answer(c: Ledger, ec: Ec): Ledger {
    c.(issued := c.issued + 1, log := c.log + [Entry(c.issued, ec)])
  }

  /** The queued request at position `k` leaves the queue with `ec`. */
  function SettleAt(c: Ledger, k: nat, ec: Ec): Ledger
    requires k < |c.queue|
  {
    c.(queue := Without(c.queue, k), log := c.log + [Entry(c.queue[k], ec)])
  }

  /** Every queued request leaves the queue with `ec`, front to back. */
  function SettleAll(c: Ledger, ec: Ec): Ledger {
    c.(queue := [], log := c.log + Posted(c.queue, ec))
  }

  function IndexOf(q: seq<nat>, id: nat): (k: nat)
    requires id in q
    ensures k < |q| && q[k] == id && id !in q[..k]
  {
    if q[0] == id then 0 else IndexOf(q[1..], id) + 1
  }

  /** The cancellation slot of request `id` fires: nothing happens once the request has left the queue,
      because completing it cleared the slot. */
  function Cancel(c: Ledger, id: nat): Ledger {
    if id in c.queue then SettleAt(c, IndexOf(c.queue, id), Aborted) else c
  }

  // ----- What is promised -----

  /** The ids that were granted, in the order of the grants. */
  function Granted(log: seq<Entry>): seq<nat> {
    if log == [] then []
    else
      var rest := Granted(log[..|log| - 1]);
      var last := log[|log| - 1];
      if last.ec.Success? then rest + [last.id] else rest
  }

  function Ids(log: seq<Entry>): seq<nat> {
    seq(|log|, i requires 0 <= i < |log| => log[i].id)
  }

  function Upto(n: nat): seq<nat> {
    seq(n, i => i)
  }

  ghost predicate Increasing(s: seq<nat>) {
    forall i, j :: 0 <= i < j < |s| ==> s[i] < s[j]
  }

  ghost predicate Distinct<T>(s: seq<T>) {
    forall i, j :: 0 <= i < j < |s| ==> s[i] != s[j]
  }

  /** Every request ever made is either queued or settled, and that exactly once. */
  ghost predicate Once(c: Ledger) {
    multiset(Ids(c.log)) + multiset(c.queue) == multiset(Upto(c.issued))
  }

  /** Grants follow the order of the requests and nobody granted has overtaken anybody queued. */
  ghost predicate Fifo(c: Ledger) {
    Increasing(Granted(c.log) + c.queue + [c.issued])
  }

  ghost predicate Sound(c: Ledger) {
    Once(c) && Fifo(c)
  }

  // ----- Granted and Posted over concatenations -----

  lemma {:induction false} GrantedAppend(a: seq<Entry>, b: seq<Entry>)
    ensures Granted(a + b) == Granted(a) + Granted(b)
  {
    if b == [] {
      assert a + b == a;
    } else {
      var b' := b[..|b| - 1];
      assert (a + b)[..|a + b| - 1] == a + b';
      GrantedAppend(a, b');
    }
  }

  lemma {:induction false} GrantedPosted(ids: seq<nat>, ec: Ec)
    ensures Granted(Posted(ids, ec)) == if ec.Success? then ids else []
  {
    if ids != [] {
      var ids' := ids[..|ids| - 1];
      assert Posted(ids, ec)[..|ids| - 1] == Posted(ids', ec);
      GrantedPosted(ids', ec);
    }
  }

  lemma GrantedSettled(log: seq<Entry>, ids: seq<nat>, ec: Ec)
    ensures Granted(log + Posted(ids, ec)) == Granted(log) + (if ec.Success? then ids else [])
  {
    GrantedAppend(log, Posted(ids, ec));
    GrantedPosted(ids, ec);
  }

  lemma IdsSettled(log: seq<Entry>, ids: seq<nat>, ec: Ec)
    ensures Ids(log + Posted(ids, ec)) == Ids(log) + ids
  {
  }

  lemma GrantedOne(log: seq<Entry>, e: Entry)
    ensures Granted(log + [e]) == Granted(log) + (if e.ec.Success? then [e.id] else [])
  {
    assert (log + [e])[..|log|] == log;
  }

  // ----- The five operations keep a ledger sound -----

  lemma IncreasingGrow(s: seq<nat>, n: nat)
    requires Increasing(s + [n])
    ensures Increasing(s + [n + 1]) && Increasing(s + [n] + [n + 1])
  {
    var t, u, v := s + [n], s + [n + 1], s + [n] + [n + 1];
    assert forall i :: 0 <= i < |s| ==> t[i] == u[i] == v[i];
    assert t[|s|] == n == v[|s|] && u[|s|] == n + 1 == v[|s| + 1];
    assert forall i :: 0 <= i < |s| ==> t[i] < t[|s|];
  }

  lemma IncreasingDrop(a: seq<nat>, x: nat, b: seq<nat>)
    requires Increasing(a + [x] + b)
    ensures Increasing(a + b)
  {
    var s, t := a + b, a + [x] + b;
    forall i, j | 0 <= i < j < |s|
      ensures s[i] < s[j]
    {
      assert s[i] == t[if i < |a| then i else i + 1];
      assert s[j] == t[if j < |a| then j else j + 1];
    }
  }

  lemma OutOfOrder(s: seq<nat>, i: nat, j: nat)
    requires i < j < |s| && s[i] >= s[j]
    ensures !Increasing(s)
  {
  }

  lemma AnswerOnce(c: Ledger, ec: Ec)
    requires Once(c)
    ensures Once(Answer(c, ec))
  {
    assert Ids(Answer(c, ec).log) == Ids(c.log) + [c.issued];
    assert Upto(c.issued + 1) == Upto(c.issued) + [c.issued];
  }

  lemma EnqueueOnce(c: Ledger)
    requires Once(c)
    ensures Once(Enqueue(c))
  {
    assert Upto(c.issued + 1) == Upto(c.issued) + [c.issued];
  }

  lemma EnqueueSound(c: Ledger)
    requires Sound(c)
    ensures Sound(Enqueue(c))
  {
    EnqueueOnce(c);
    var g, q, n := Granted(c.log), c.queue, c.issued;
    IncreasingGrow(g + q, n);
    hide Granted, Increasing, Once;
    assert g + Enqueue(c).queue + [n + 1] == g + q + [n] + [n + 1];
  }

  lemma SettleAllOnce(c: Ledger, ec: Ec)
    requires Once(c)
    ensures Once(SettleAll(c, ec))
  {
    IdsSettled(c.log, c.queue, ec);
  }

  lemma QueuedBelow(g: seq<nat>, q: seq<nat>, n: nat)
    requires Increasing(g + q + [n]) && q != []
    ensures q[0] < n
  {
    var t := g + q + [n];
    assert t[|g|] == q[0] && t[|g| + |q|] == n;
  }

  /** An immediate grant is fair exactly when nobody waits. */
  lemma AnswerFifo(c: Ledger, ec: Ec)
    requires Fifo(c)
    ensures Fifo(Answer(c, ec)) <==> (ec.Success? ==> c.queue == [])
  {
    var g, q, n, d := Granted(c.log), c.queue, c.issued, Answer(c, ec);
    GrantedOne(c.log, Entry(n, ec));
    IncreasingGrow(g + q, n);
    hide Granted, Increasing;
    if !ec.Success? {
      assert Granted(d.log) + d.queue + [d.issued] == g + q + [n + 1];
    } else if q == [] {
      assert Granted(d.log) + d.queue + [d.issued] == g + q + [n] + [n + 1];
    } else {
      QueuedBelow(g, q, n);
      var s := Granted(d.log) + d.queue + [d.issued];
      assert s[|g|] == n && s[|g| + 1] == q[0];
      OutOfOrder(s, |g|, |g| + 1);
    }
  }

  lemma SettleAtOnce(c: Ledger, k: nat, ec: Ec)
    requires Once(c) && k < |c.queue|
    ensures Once(SettleAt(c, k, ec))
  {
    assert Ids(SettleAt(c, k, ec).log) == Ids(c.log) + [c.queue[k]];
    WithoutCounts(c.queue, k);
  }

  lemma QueuedInOrder(g: seq<nat>, q: seq<nat>, n: nat, k: nat)
    requires Increasing(g + q + [n]) && 0 < k < |q|
    ensures q[0] < q[k]
  {
    var t := g + q + [n];
    assert t[|g|] == q[0] && t[|g| + k] == q[k];
  }

  lemma StillIncreasing(g: seq<nat>, q: seq<nat>, n: nat, k: nat)
    requires Increasing(g + q + [n]) && k < |q|
    ensures Increasing(g + Without(q, k) + [n])
  {
    hide Increasing;
    var a, b := g + q[..k], q[k + 1..] + [n];
    assert a + [q[k]] + b == g + q + [n];
    IncreasingDrop(a, q[k], b);
    assert a + b == g + Without(q, k) + [n];
  }

  lemma FrontMoves(g: seq<nat>, q: seq<nat>)
    requires q != []
    ensures g + [q[0]] + Without(q, 0) == g + q
  {
  }

  /** Out-of-turn removals are fine for aborts; a grant is fair exactly when it goes to the front. */
  lemma SettleAtFifo(c: Ledger, k: nat, ec: Ec)
    requires Fifo(c) && k < |c.queue|
    ensures Fifo(SettleAt(c, k, ec)) <==> (ec.Success? ==> k == 0)
  {
    var g, q, n, d := Granted(c.log), c.queue, c.issued, SettleAt(c, k, ec);
    GrantedOne(c.log, Entry(q[k], ec));
    hide Granted, Increasing, Without;
    if !ec.Success? {
      StillIncreasing(g, q, n, k);
      assert Granted(d.log) == g;
    } else if k == 0 {
      FrontMoves(g, q);
      assert Granted(d.log) == g + [q[0]];
    } else {
      QueuedInOrder(g, q, n, k);
      var s := Granted(d.log) + d.queue + [d.issued];
      assert s[|g|] == q[k] && s[|g| + 1] == q[0];
      OutOfOrder(s, |g|, |g| + 1);
    }
  }

  lemma AnswerSound(c: Ledger, ec: Ec)
    requires Sound(c) && (ec.Success? ==> c.queue == [])
    ensures Sound(Answer(c, ec))
  {
    AnswerOnce(c, ec);
    AnswerFifo(c, ec);
  }

  lemma SettleAtSound(c: Ledger, k: nat, ec: Ec)
    requires Sound(c) && k < |c.queue| && (ec.Success? ==> k == 0)
    ensures Sound(SettleAt(c, k, ec))
  {
    SettleAtOnce(c, k, ec);
    SettleAtFifo(c, k, ec);
  }

  lemma SettleAllFifo(c: Ledger, ec: Ec)
    requires Fifo(c)
    ensures Fifo(SettleAll(c, ec))
  {
    var g, q, n, d := Granted(c.log), c.queue, c.issued, SettleAll(c, ec);
    GrantedSettled(c.log, q, ec);
    if ec.Success? {
      hide Granted, Increasing;
      assert Granted(d.log) + d.queue + [d.issued] == g + q + [n];
    } else {
      hide Granted;
      var t := g + q + [n];
      assert Granted(d.log) + d.queue + [d.issued] == t[..|g|] + [t[|t| - 1]];
    }
  }

  lemma SettleAllSound(c: Ledger, ec: Ec)
    requires Sound(c)
    ensures Sound(SettleAll(c, ec))
  {
    SettleAllOnce(c, ec);
    SettleAllFifo(c, ec);
  }

  lemma CancelOnce(c: Ledger, id: nat)
    requires Once(c)
    ensures Once(Cancel(c, id))
  {
    if id in c.queue { SettleAtOnce(c, IndexOf(c.queue, id), Aborted); }
  }

  lemma CancelSound(c: Ledger, id: nat)
    requires Sound(c)
    ensures Sound(Cancel(c, id)) && Granted(Cancel(c, id).log) == Granted(c.log)
  {
    if id in c.queue {
      var k := IndexOf(c.queue, id);
      SettleAtSound(c, k, Aborted);
      GrantedOne(c.log, Entry(c.queue[k], Aborted));
    }
  }

  // ----- What soundness says about a single request -----

  lemma {:induction false} UptoCount(n: nat, x: nat)
    ensures multiset(Upto(n))[x] == if x < n then 1 else 0
  {
    if n > 0 {
      UptoCount(n - 1, x);
      assert Upto(n) == Upto(n - 1) + [n - 1];
    }
  }

  lemma TwiceCounts(s: seq<nat>, i: nat, j: nat)
    requires i < j < |s| && s[i] == s[j]
    ensures multiset(s)[s[i]] >= 2
  {
    assert s == s[..j] + s[j..];
    assert s[i] in s[..j] && s[j] in s[j..];
  }

  ghost predicate HasEntry(log: seq<Entry>, id: nat) {
    exists i :: 0 <= i < |log| && log[i].id == id
  }

  lemma EntryOf(log: seq<Entry>, id: nat)
    requires HasEntry(log, id)
    ensures Entry(id, Success) in log || Entry(id, Aborted) in log
         || Entry(id, InProgress) in log || Entry(id, ShutDown) in log
  {
    var i :| 0 <= i < |log| && log[i].id == id;
    assert log[i] in log && log[i] == Entry(id, log[i].ec);
    match log[i].ec
    case Success =>
    case Aborted =>
    case InProgress =>
    case ShutDown =>
  }

  /** Every request has exactly one disposition: still queued, or one entry of the log. */
  lemma Disposition(c: Ledger, id: nat)
    requires Once(c)
    ensures id in c.queue ==> !HasEntry(c.log, id)
    ensures id < c.issued <==> id in c.queue || HasEntry(c.log, id)
    ensures forall i, j :: 0 <= i < j < |c.log| && c.log[i].id == id ==> c.log[j].id != id
    ensures forall i, j :: 0 <= i < j < |c.queue| && c.queue[i] == id ==> c.queue[j] != id
  {
    var ids := Ids(c.log);
    UptoCount(c.issued, id);
    assert multiset(ids)[id] + multiset(c.queue)[id] == multiset(Upto(c.issued))[id];
    assert HasEntry(c.log, id) <==> id in ids by {
      if HasEntry(c.log, id) {
        var i :| 0 <= i < |c.log| && c.log[i].id == id;
        assert ids[i] == id;
      }
    }
    forall i, j | 0 <= i < j < |c.log| && c.log[i].id == id
      ensures c.log[j].id != id
    {
      if c.log[j].id == id { TwiceCounts(ids, i, j); }
    }
    forall i, j | 0 <= i < j < |c.queue| && c.queue[i] == id
      ensures c.queue[j] != id
    {
      if c.queue[j] == id { TwiceCounts(c.queue, i, j); }
    }
  }

  /** Whoever was granted never waits behind: a granted request precedes every queued one, and grants
      come in request order. */
  lemma NoBarging(c: Ledger, i: nat, j: nat)
    requires Fifo(c) && i < |Granted(c.log)|
    ensures j < |c.queue| ==> Granted(c.log)[i] < c.queue[j]
    ensures i < j < |Granted(c.log)| ==> Granted(c.log)[i] < Granted(c.log)[j]
  {
    var t := Granted(c.log) + c.queue + [c.issued];
    assert t[i] == Granted(c.log)[i];
    if j < |c.queue| { assert t[|Granted(c.log)| + j] == c.queue[j]; }
    if j < |Granted(c.log)| { assert t[j] == Granted(c.log)[j]; }
  }

  lemma {:induction false} GrantedMembers(log: seq<Entry>, id: nat)
    ensures id in Granted(log) <==> Entry(id, Success) in log
  {
    if log != [] {
      var pre, last := log[..|log| - 1], log[|log| - 1];
      GrantedMembers(pre, id);
      assert log == pre + [last];
    }
  }

  /** The ids that left the queue, or never got in, without a grant. */
  function Denied(log: seq<Entry>): seq<nat> {
    if log == [] then []
    else
      var rest := Denied(log[..|log| - 1]);
      var last := log[|log| - 1];
      if last.ec.Success? then rest else rest + [last.id]
  }

  lemma {:induction false} LogSplits(log: seq<Entry>)
    ensures multiset(Ids(log)) == multiset(Granted(log)) + multiset(Denied(log))
    ensures |log| == |Granted(log)| + |Denied(log)|
  {
    if log != [] {
      var pre, last := log[..|log| - 1], log[|log| - 1];
      LogSplits(pre);
      assert Ids(log) == Ids(pre) + [last.id];
    }
  }

  /** Each request is in one of three places, and there once. */
  lemma Whereabouts(c: Ledger, id: nat)
    requires Once(c)
    ensures multiset(Granted(c.log))[id] + multiset(Denied(c.log))[id] + multiset(c.queue)[id]
            == if id < c.issued then 1 else 0
  {
    LogSplits(c.log);
    UptoCount(c.issued, id);
    assert multiset(Ids(c.log))[id] + multiset(c.queue)[id] == multiset(Upto(c.issued))[id];
  }

  /** Granted plus queued requests are the ones made less the ones turned away. */
  lemma Conservation(c: Ledger)
    requires Once(c)
    ensures |Granted(c.log)| + |c.queue| == c.issued - |Denied(c.log)|
  {
    LogSplits(c.log);
    assert |multiset(Ids(c.log)) + multiset(c.queue)| == |c.log| + |c.queue|;
    assert |multiset(Upto(c.issued))| == c.issued;
  }
}
