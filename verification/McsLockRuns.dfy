/** What holds in every run of the MCS queue lock: mutual exclusion, order of service, and progress. */
module McsLockRuns {
  import opened McsLock

  // ------------------------------------------------------------------ whole runs

  lemma {:induction false} RunKeeps(ss: seq<System>, ts: seq<Tid>, k: nat)
    requires Run(ss, ts) && k < |ss|
    ensures Inv(ss[k])
    decreases k
  {
    if k > 0 {
      RunKeeps(ss, ts, k - 1);
      hide Inv, Next;
      StepKeeps(ss[k - 1], ts[k - 1]);
    }
  }

  // At most one thread is between the return of acquire and the end of release.
  lemma MutualExclusion(ss: seq<System>, ts: seq<Tid>, k: nat, t: Tid, u: Tid)
    requires Run(ss, ts) && k < |ss| && t in ss[k].pc && u in ss[k].pc
    requires Holding(ss[k].pc[t]) && Holding(ss[k].pc[u])
    ensures t == u
  {
    RunKeeps(ss, ts, k);
    hide Chain, Others, Distinct;
    var s := ss[k];
    var i := Place(s.recs, s.pc, Queue(s), t);
    var j := Place(s.recs, s.pc, Queue(s), u);
  }

  // First come, first served: the lock is granted in the order of the exchanges, and the only thread that may have
  // been granted it without having given it up is the holder.
  lemma Fifo(ss: seq<System>, ts: seq<Tid>, k: nat)
    requires Run(ss, ts) && k < |ss|
    ensures ss[k].grants <= ss[k].exchanges && ss[k].released <= |ss[k].grants| <= ss[k].released + 1
    ensures forall t :: t in ss[k].pc && Holding(ss[k].pc[t]) ==>
              |ss[k].grants| == ss[k].released + 1 && ss[k].grants[ss[k].released] == t
  {
    RunKeeps(ss, ts, k);
    hide Chain, Others, Distinct;
    var s := ss[k];
    QueueAfter(s, 0);
    forall t | t in s.pc && Holding(s.pc[t])
      ensures |s.grants| == s.released + 1 && s.grants[s.released] == t
    {
      var i := Place(s.recs, s.pc, Queue(s), t);
    }
  }

  // The assertion on entry to acquire never fails, and release never follows a null pointer.
  lemma NoAbort(ss: seq<System>, ts: seq<Tid>, k: nat)
    requires Run(ss, ts) && k < |ss|
    ensures !ss[k].aborted
    ensures forall t :: t in ss[k].pc && ss[k].pc[t] == Entry ==> t in ss[k].recs && !ss[k].recs[t].locked
    ensures forall t :: Enabled(ss[k], t) ==> !Next(ss[k], t).aborted
  {
    RunKeeps(ss, ts, k);
    forall t | Enabled(ss[k], t)
      ensures !Next(ss[k], t).aborted
    {
      hide Next;
      StepKeeps(ss[k], t);
    }
    forall t | t in ss[k].pc && ss[k].pc[t] == Entry
      ensures t in ss[k].recs && !ss[k].recs[t].locked
    {
      NotQueued(ss[k].recs, ss[k].pc, Queue(ss[k]), t);
    }
  }

  // The thread at position i > 0 of the queue hangs on the one before, or is about to link itself in behind it.
  predicate Behind(s: System, i: nat)
    requires 0 < i < |Queue(s)|
  {
    var t, before := Queue(s)[i], Queue(s)[i - 1];
    && t in s.pc && before in s.recs
    && if s.pc[t] == Spin then s.recs[before].next == To(t)
       else (s.pc[t] == SetLocked(before) || s.pc[t] == SetNext(before)) && s.recs[before].next == Null
  }

  // The queue consists of exactly the threads between exchange and release; it is one chain of records, and `head` is
  // the last of them, whose pointer is null.
  lemma OneChain(ss: seq<System>, ts: seq<Tid>, k: nat)
    requires Run(ss, ts) && k < |ss|
    ensures forall t :: t in Queue(ss[k]) <==> t in ss[k].pc && !Outside(ss[k].pc[t])
    ensures forall i: nat {:trigger Behind(ss[k], i)} :: 0 < i < |Queue(ss[k])| ==> Behind(ss[k], i)
    ensures ss[k].head == if Queue(ss[k]) == [] then Null else To(Queue(ss[k])[|Queue(ss[k])| - 1])
    ensures ss[k].head != Null ==> ss[k].head.tid in ss[k].recs && ss[k].recs[ss[k].head.tid].next == Null
  {
    RunKeeps(ss, ts, k);
    hide Run, Inv, Behind, Queue;
    AllBehind(ss[k]);
    Ends(ss[k]);
  }

  lemma AllBehind(s: System)
    requires Inv(s)
    ensures forall i: nat {:trigger Behind(s, i)} :: 0 < i < |Queue(s)| ==> Behind(s, i)
  {
    forall i: nat {:trigger Behind(s, i)} | 0 < i < |Queue(s)|
      ensures Behind(s, i)
    {
      hide Inv, Queue, Behind;
      BehindAt(s, i);
    }
  }

  lemma Ends(s: System)
    requires Inv(s)
    ensures forall t :: t in Queue(s) <==> t in s.pc && !Outside(s.pc[t])
    ensures s.head == if Queue(s) == [] then Null else To(Queue(s)[|Queue(s)| - 1])
    ensures s.head != Null ==> s.head.tid in s.recs && s.recs[s.head.tid].next == Null
  {
    hide Chain, Others, Distinct, InOrder, Held;
    Members(s.recs, s.pc, Queue(s));
    if Queue(s) != [] { Slot(s.recs, s.pc, Queue(s), |Queue(s)| - 1); }
  }

  lemma BehindAt(s: System, i: nat)
    requires Inv(s) && 0 < i < |Queue(s)|
    ensures Behind(s, i)
  {
    hide Others, Distinct;
    Slot(s.recs, s.pc, Queue(s), i);
    Slot(s.recs, s.pc, Queue(s), i - 1);
  }

  lemma Members(recs: map<Tid, Rec>, pc: map<Tid, Pc>, q: seq<Tid>)
    requires Core(recs, pc, q)
    ensures forall t :: t in q <==> t in pc && !Outside(pc[t])
  {
    forall t | t in q
      ensures t in pc && !Outside(pc[t])
    {
      var i :| 0 <= i < |q| && q[i] == t;
      Slot(recs, pc, q, i);
    }
  }

  // ------------------------------------------------------------------ progress

  // How much of acquire and release lies ahead of a queued thread.
  function Ahead(pc: Pc): nat {
    match pc
    case SetLocked(_) => 9
    case SetNext(_) => 8
    case Spin => 7
    case Hold => 6
    case ReadNext => 5
    case Swap => 4
    case AwaitNext => 3
    case Pass => 2
    case Clear(_) => 1
    case _ => 0
  }

  function Total(pc: map<Tid, Pc>, q: seq<Tid>): nat {
    if q == [] then 0 else (if q[0] in pc then Ahead(pc[q[0]]) else 0) + Total(pc, q[1..])
  }

  lemma {:induction false} TotalSame(pc: map<Tid, Pc>, q: seq<Tid>, u: Tid, to: Pc)
    requires u !in q
    ensures Total(pc[u := to], q) == Total(pc, q)
  {
    if q != [] { TotalSame(pc, q[1..], u, to); }
  }

  lemma {:induction false} TotalLess(pc: map<Tid, Pc>, q: seq<Tid>, u: Tid, to: Pc)
    requires Distinct(q) && u in q && u in pc && Ahead(to) < Ahead(pc[u])
    ensures Total(pc[u := to], q) < Total(pc, q)
  {
    if q[0] == u {
      TotalSame(pc, q[1..], u, to);
    } else {
      TotalLess(pc, q[1..], u, to);
    }
  }

  // The first in the queue can move on, unless it waits for the second to link itself in.
  lemma FirstMoves(s: System, u: Tid)
    requires Inv(s) && Queue(s) != [] && u == Queue(s)[0]
    requires u in s.pc && u in s.recs && !(s.pc[u] == AwaitNext && s.recs[u].next == Null)
    ensures Enabled(s, u) && u in Next(s, u).pc && Next(s, u).pc == s.pc[u := Next(s, u).pc[u]]
    ensures Ahead(Next(s, u).pc[u]) < Ahead(s.pc[u])
  {
    hide Others, Distinct;
    Slot(s.recs, s.pc, Queue(s), 0);
    if s.pc[u].Clear? { SuccessorExists(s, u); }
  }

  lemma SuccessorExists(s: System, u: Tid)
    requires Inv(s) && Queue(s) != [] && u == Queue(s)[0] && u in s.pc && s.pc[u].Clear?
    ensures s.pc[u].succ in s.recs
  {
    hide Chain, Others, Distinct;
    HandOver(s.recs, s.pc, Queue(s));
  }

  lemma SecondMoves(s: System, u: Tid)
    requires Inv(s) && |Queue(s)| > 1 && u == Queue(s)[1]
    requires Queue(s)[0] in s.recs && s.recs[Queue(s)[0]].next == Null
    ensures u in s.pc && Enabled(s, u) && u in Next(s, u).pc && Next(s, u).pc == s.pc[u := Next(s, u).pc[u]]
    ensures Ahead(Next(s, u).pc[u]) < Ahead(s.pc[u])
  {
    hide Others, Distinct;
    Slot(s.recs, s.pc, Queue(s), 0);
    Slot(s.recs, s.pc, Queue(s), 1);
  }

  // In a state with anybody in the queue, the first in it or the one behind can move on.
  lemma Mover(s: System) returns (u: Tid)
    requires Inv(s) && Queue(s) != []
    ensures u in Queue(s) && u in s.pc && Enabled(s, u)
    ensures u in Next(s, u).pc && Next(s, u).pc == s.pc[u := Next(s, u).pc[u]]
    ensures Ahead(Next(s, u).pc[u]) < Ahead(s.pc[u])
  {
    var q := Queue(s);
    Slot(s.recs, s.pc, q, 0);
    u := q[0];
    hide Chain, Others, Distinct, Next;
    if s.pc[u] == AwaitNext && s.recs[u].next == Null {
      u := q[1];
      SecondMoves(s, u);
    } else {
      FirstMoves(s, u);
    }
  }

  lemma QueueNext(s: System, u: Tid)
    requires Inv(s) && Enabled(s, u) && u in Queue(s)
    ensures Queue(Next(s, u)) == Queue(s)
            || (Holding(s.pc[u]) && Queue(s)[0] == u && Queue(Next(s, u)) == Queue(s)[1..])
  {
    hide Chain, Others, Distinct, InOrder, Held, Core;
    var i := Queued(s, u);
    if s.released < |s.exchanges| { Popped(s.exchanges, s.released); }
  }

  lemma Queued(s: System, u: Tid) returns (i: nat)
    requires Inv(s) && u in Queue(s)
    ensures i < |Queue(s)| && Queue(s)[i] == u && u in s.pc && !Outside(s.pc[u])
    ensures Holding(s.pc[u]) ==> i == 0
    ensures |Queue(s)| == |s.exchanges| - s.released
  {
    hide Chain, Others, Distinct, InOrder, Held;
    Members(s.recs, s.pc, Queue(s));
    i := Place(s.recs, s.pc, Queue(s), u);
  }

  lemma Popped(exchanges: seq<Tid>, released: nat)
    requires released < |exchanges|
    ensures exchanges[released + 1..] == exchanges[released..][1..]
  {
  }

  lemma StaysQueued(s: System, u: Tid, t: Tid)
    requires Inv(s) && Enabled(s, u) && u in Queue(s) && t in Queue(s) && t in s.pc && !Holding(s.pc[t])
    ensures t in Queue(Next(s, u))
  {
    hide Core, InOrder, Held, Next, Queue;
    QueueNext(s, u);
  }

  lemma MoverTotal(s: System, u: Tid)
    requires Inv(s) && Enabled(s, u) && u in Queue(s)
    requires u in Next(s, u).pc && Next(s, u).pc == s.pc[u := Next(s, u).pc[u]]
    requires Ahead(Next(s, u).pc[u]) < Ahead(s.pc[u])
    ensures Total(Next(s, u).pc, Queue(Next(s, u))) < Total(s.pc, Queue(s))
  {
    var q := Queue(s);
    var to := Next(s, u).pc[u];
    assert Distinct(q);
    hide Chain, Others, Distinct, Next;
    QueueNext(s, u);
    TotalLess(s.pc, q, u, to);
  }

  // Step number k of a path: a queued thread moves, and not by a turn of a spin loop.
  predicate Advances(path: seq<System>, movers: seq<Tid>, k: nat)
    requires k < |movers| < |path|
  {
    && movers[k] in Queue(path[k]) && Enabled(path[k], movers[k])
    && path[k + 1] == Next(path[k], movers[k]) && path[k + 1] != path[k]
  }

  ghost predicate Path(path: seq<System>, movers: seq<Tid>) {
    && |path| == |movers| + 1
    && forall k: nat {:trigger Advances(path, movers, k)} :: k < |movers| ==> Advances(path, movers, k)
  }

  lemma PathOn(s: System, u: Tid, path: seq<System>, movers: seq<Tid>)
    requires Path(path, movers) && Enabled(s, u) && u in Queue(s) && path[0] == Next(s, u) && Next(s, u) != s
    ensures Path([s] + path, [u] + movers) && ([s] + path)[|movers| + 1] == path[|movers|]
  {
    hide Next, Queue, Enabled;
    var path', movers' := [s] + path, [u] + movers;
    forall k: nat {:trigger Advances(path', movers', k)} | k < |movers'|
      ensures Advances(path', movers', k)
    {
      if k > 0 { assert Advances(path, movers, k - 1); }
    }
  }

  // From any state with a waiting thread, steps of queued threads alone lead to a state in which that thread holds the
  // lock.
  lemma {:induction false} Granting(s: System, t: Tid) returns (path: seq<System>, movers: seq<Tid>)
    requires Inv(s) && t in Queue(s)
    ensures Path(path, movers) && path[0] == s
    ensures t in path[|movers|].pc && Holding(path[|movers|].pc[t])
    decreases Total(s.pc, Queue(s))
  {
    Members(s.recs, s.pc, Queue(s));
    if Holding(s.pc[t]) {
      path, movers := [s], [];
    } else {
      hide *;
      var u := MoverOn(s, t);
      var rest, later := Granting(Next(s, u), t);
      path, movers := Extend(s, u, t, rest, later);
    }
  }

  lemma MoverOn(s: System, t: Tid) returns (u: Tid)
    requires Inv(s) && t in Queue(s) && t in s.pc && !Holding(s.pc[t])
    ensures u in Queue(s) && Enabled(s, u) && Inv(Next(s, u)) && t in Queue(Next(s, u)) && Next(s, u) != s
    ensures Total(Next(s, u).pc, Queue(Next(s, u))) < Total(s.pc, Queue(s))
  {
    hide Inv, Next, Queue, Total;
    u := Mover(s);
    StepKeeps(s, u);
    StaysQueued(s, u, t);
    MoverTotal(s, u);
  }

  lemma Extend(s: System, u: Tid, t: Tid, rest: seq<System>, later: seq<Tid>)
    returns (path: seq<System>, movers: seq<Tid>)
    requires Path(rest, later) && Enabled(s, u) && u in Queue(s) && rest[0] == Next(s, u) && Next(s, u) != s
    requires t in rest[|later|].pc && Holding(rest[|later|].pc[t])
    ensures Path(path, movers) && path[0] == s
    ensures t in path[|movers|].pc && Holding(path[|movers|].pc[t])
  {
    PathOn(s, u, rest, later);
    path, movers := [s] + rest, [u] + later;
  }

  // No reachable state with a waiter is stuck.
  lemma NeverStuck(ss: seq<System>, ts: seq<Tid>, k: nat, t: Tid) returns (path: seq<System>, movers: seq<Tid>)
    requires Run(ss, ts) && k < |ss| && t in ss[k].pc && Waiting(ss[k].pc[t])
    ensures Path(path, movers) && path[0] == ss[k]
    ensures t in path[|movers|].pc && Holding(path[|movers|].pc[t])
  {
    RunKeeps(ss, ts, k);
    Members(ss[k].recs, ss[k].pc, Queue(ss[k]));
    hide Run, Inv, Queue, Path;
    path, movers := Granting(ss[k], t);
  }
}
