/** Where a request stands, as its caller sees it. */
module Places {
  import opened Ledgers

  /** Not made yet, in line with so many ahead, or settled with an error code. */
  datatype Place = Unborn | InLine(ahead: nat) | Settled(ec: Ec)

  function Settlement(log: seq<Entry>, x: nat): (p: Place)
    ensures !p.InLine?
  {
    if log == [] then Unborn
    else
      var last := log[|log| - 1];
      if last.id == x then Settled(last.ec) else Settlement(log[..|log| - 1], x)
  }

  function PlaceOf(c: Ledger, x: nat): Place {
    if x in c.queue then InLine(IndexOf(c.queue, x)) else Settlement(c.log, x)
  }

  // ----- What may happen to somebody in line -----

  /** The one with `k` ahead leaves with `ec`, and those behind move up. */
  function Leave(p: Place, k: nat, ec: Ec): Place {
    match p
    case InLine(j) => if j == k then Settled(ec) else if j > k then InLine(j - 1) else p
    case _ => p
  }

  /** Everybody leaves with `ec`. */
  function LeaveAll(p: Place, ec: Ec): Place {
    if p.InLine? then Settled(ec) else p
  }

  /** Somebody else, who stands at `q`, gives up. */
  function GiveUp(p: Place, q: Place): Place {
    if q.InLine? then Leave(p, q.ahead, Aborted) else p
  }

  // ----- Settlements -----

  lemma SettlementOne(log: seq<Entry>, e: Entry, x: nat)
    ensures Settlement(log + [e], x) == if e.id == x then Settled(e.ec) else Settlement(log, x)
  {
    assert (log + [e])[..|log|] == log;
  }

  lemma {:induction false} SettlementPosted(log: seq<Entry>, ids: seq<nat>, ec: Ec, x: nat)
    ensures Settlement(log + Posted(ids, ec), x) == if x in ids then Settled(ec) else Settlement(log, x)
  {
    if ids == [] {
      assert log + Posted(ids, ec) == log;
    } else {
      var pre, last := ids[..|ids| - 1], ids[|ids| - 1];
      assert ids == pre + [last];
      assert log + Posted(ids, ec) == log + Posted(pre, ec) + [Entry(last, ec)];
      SettlementPosted(log, pre, ec, x);
      SettlementOne(log + Posted(pre, ec), Entry(last, ec), x);
    }
  }

  lemma {:induction false} SettlementEntry(log: seq<Entry>, x: nat)
    ensures Settlement(log, x) != Unborn <==> HasEntry(log, x)
    ensures Settlement(log, x) != Unborn ==>
              Settlement(log, x).Settled? && Entry(x, Settlement(log, x).ec) in log
  {
    if log != [] {
      var pre, last := log[..|log| - 1], log[|log| - 1];
      SettlementEntry(pre, x);
      assert log == pre + [last];
      if HasEntry(log, x) && last.id != x {
        var i :| 0 <= i < |log| && log[i].id == x;
        assert pre[i].id == x;
      }
      if HasEntry(pre, x) {
        var i :| 0 <= i < |pre| && pre[i].id == x;
        assert log[i].id == x;
      }
    }
  }

  /** With one disposition each, a place says what the log says. */
  lemma SettledIff(c: Ledger, x: nat, ec: Ec)
    requires Once(c)
    ensures PlaceOf(c, x) == Settled(ec) <==> Entry(x, ec) in c.log
  {
    Disposition(c, x);
    SettlementEntry(c.log, x);
    if Entry(x, ec) in c.log {
      var i :| 0 <= i < |c.log| && c.log[i] == Entry(x, ec);
      assert HasEntry(c.log, x);
      var j :| 0 <= j < |c.log| && c.log[j] == Entry(x, Settlement(c.log, x).ec);
      assert i == j;
    }
  }

  lemma GrantedIff(c: Ledger, x: nat)
    requires Once(c)
    ensures PlaceOf(c, x) == Settled(Success) <==> x in Granted(c.log)
  {
    SettledIff(c, x, Success);
    GrantedMembers(c.log, x);
  }

  lemma UnbornIff(c: Ledger, x: nat)
    requires Once(c)
    ensures PlaceOf(c, x) == Unborn <==> x >= c.issued
    ensures PlaceOf(c, x).InLine? <==> x in c.queue
  {
    Disposition(c, x);
    SettlementEntry(c.log, x);
  }

  // ----- Positions -----

  lemma OnceDistinct(c: Ledger)
    requires Once(c)
    ensures Distinct(c.queue)
  {
    forall i, j | 0 <= i < j < |c.queue|
      ensures c.queue[i] != c.queue[j]
    {
      Disposition(c, c.queue[i]);
    }
  }

  lemma IndexIs(q: seq<nat>, k: nat)
    requires Distinct(q) && k < |q|
    ensures q[k] in q && IndexOf(q, q[k]) == k
  {
  }

  lemma IndexWithout(q: seq<nat>, k: nat, x: nat)
    requires Distinct(q) && k < |q| && x in q && x != q[k]
    ensures x in Without(q, k) && var j := IndexOf(q, x); IndexOf(Without(q, k), x) == if j < k then j else j - 1
  {
    var j, t := IndexOf(q, x), Without(q, k);
    assert forall i {:trigger t[i]} :: 0 <= i < |t| ==> t[i] == q[if i < k then i else i + 1];
    assert t[if j < k then j else j - 1] == x;
    assert Distinct(t);
    IndexIs(t, if j < k then j else j - 1);
  }

  // ----- What the changes of a ledger mean to each request -----

  lemma EnqueueMeans(c: Ledger, x: nat)
    requires Once(c)
    ensures PlaceOf(Enqueue(c), x) == if x == c.issued then InLine(|c.queue|) else PlaceOf(c, x)
  {
    var q := c.queue + [c.issued];
    EnqueueOnce(c);
    OnceDistinct(Enqueue(c));
    if x == c.issued {
      IndexIs(q, |c.queue|);
    } else if x in c.queue {
      var j := IndexOf(c.queue, x);
      assert q[j] == x;
      IndexIs(q, j);
    }
  }

  lemma AnswerMeans(c: Ledger, ec: Ec, x: nat)
    requires Once(c)
    ensures PlaceOf(Answer(c, ec), x) == if x == c.issued then Settled(ec) else PlaceOf(c, x)
  {
    SettlementOne(c.log, Entry(c.issued, ec), x);
    UnbornIff(c, c.issued);
  }

  lemma SettleAtMeans(c: Ledger, k: nat, ec: Ec, x: nat)
    requires Once(c) && k < |c.queue|
    ensures PlaceOf(SettleAt(c, k, ec), x) == Leave(PlaceOf(c, x), k, ec)
  {
    var q := c.queue;
    OnceDistinct(c);
    SettlementOne(c.log, Entry(q[k], ec), x);
    WithoutMembers(q, k);
    if x == q[k] {
      IndexIs(q, k);
      assert x !in Without(q, k);
    } else if x in q {
      IndexWithout(q, k, x);
      IndexIs(q, IndexOf(q, x));
    }
  }

  lemma SettleAllMeans(c: Ledger, ec: Ec, x: nat)
    ensures PlaceOf(SettleAll(c, ec), x) == LeaveAll(PlaceOf(c, x), ec)
  {
    SettlementPosted(c.log, c.queue, ec, x);
  }

  lemma CancelMeans(c: Ledger, id: nat, x: nat)
    requires Once(c)
    ensures PlaceOf(Cancel(c, id), x) == GiveUp(PlaceOf(c, x), PlaceOf(c, id))
  {
    if id in c.queue { SettleAtMeans(c, IndexOf(c.queue, id), Aborted, x); }
    UnbornIff(c, id);
  }

  /** The places tell the queue, and who was settled with what. */
  lemma PlacesTell(c: Ledger, d: Ledger)
    requires Once(c) && Once(d) && forall x :: PlaceOf(c, x) == PlaceOf(d, x)
    ensures c.issued == d.issued && c.queue == d.queue && forall e :: e in c.log <==> e in d.log
  {
    UnbornIff(c, c.issued);
    UnbornIff(d, c.issued);
    UnbornIff(c, d.issued);
    UnbornIff(d, d.issued);
    QueueTold(c, d);
    QueueTold(d, c);
    forall e
      ensures e in c.log <==> e in d.log
    {
      assert e == Entry(e.id, e.ec);
      SettledIff(c, e.id, e.ec);
      SettledIff(d, e.id, e.ec);
    }
  }

  lemma QueueTold(c: Ledger, d: Ledger)
    requires Once(c) && Once(d) && forall x :: PlaceOf(c, x) == PlaceOf(d, x)
    ensures c.queue <= d.queue
  {
    OnceDistinct(c);
    forall k {:trigger c.queue[k]} | 0 <= k < |c.queue|
      ensures k < |d.queue| && c.queue[k] == d.queue[k]
    {
      var x := c.queue[k];
      IndexIs(c.queue, k);
      assert PlaceOf(c, x) == InLine(k) == PlaceOf(d, x);
      UnbornIff(d, x);
    }
    if c.queue != [] { assert c.queue[|c.queue| - 1] in c.queue; }
  }
}
