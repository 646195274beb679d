/** The MCS queue lock (mcs.c:77-128, and class lock of synch.h:94-130 under MR_LOCK_MCS). Every thread has one record
    with a `next` pointer and a `locked` flag; the lock itself is the pointer `head` to the record that joined last.
    A step is one access to shared memory by one thread, and any thread may move next. */
module McsLock {
  type Tid = nat

  datatype Pointer = Null | To(tid: Tid)

  datatype Rec = Rec(next: Pointer, locked: bool)

  // Where a thread stands in acquire and release.
  datatype Pc =
    | Idle
    | Entry | ClearNext | Exchange | SetLocked(prev: Tid) | SetNext(prev: Tid) | Spin
    | Hold
    | ReadNext | Swap | AwaitNext | Pass | Clear(succ: Tid)

  // `exchanges` lists the threads in the order of their exchanges with `head`, `grants` in the order in which they
  // came to hold the lock; the first `released` of them have given it up. These three only record what happened.
  datatype System = System(
    head: Pointer, recs: map<Tid, Rec>, pc: map<Tid, Pc>, aborted: bool,
    exchanges: seq<Tid>, grants: seq<Tid>, released: nat)

  ghost predicate Init(s: System) {
    && s.head == Null && !s.aborted && s.recs.Keys == s.pc.Keys
    && (forall t :: t in s.pc ==> s.pc[t] == Idle && s.recs[t] == Rec(Null, false))
    && s.exchanges == [] && s.grants == [] && s.released == 0
  }

  function Goto(s: System, t: Tid, pc: Pc): System {
    s.(pc := s.pc[t := pc])
  }

  predicate Enabled(s: System, t: Tid) {
    && t in s.pc && t in s.recs
    && (s.pc[t].SetNext? ==> s.pc[t].prev in s.recs)
    && (s.pc[t].Clear? ==> s.pc[t].succ in s.recs)
  }

  function Granted(s: System, t: Tid): System {
    Goto(s, t, Hold).(grants := s.grants + [t])
  }

  // The next step of thread t. Leaving Idle and leaving Hold are calls of acquire and release; a step that leaves the
  // state as it is is one turn of a spin loop.
  function Next(s: System, t: Tid): System
    requires Enabled(s, t)
  {
    var rec := s.recs[t];
    match s.pc[t]
    case Idle => Goto(s, t, Entry)
    case Entry => if rec.locked then s.(aborted := true) else Goto(s, t, ClearNext)
    case ClearNext => Goto(s.(recs := s.recs[t := rec.(next := Null)]), t, Exchange)
    case Exchange =>
      var joined := s.(head := To(t), exchanges := s.exchanges + [t]);
      if s.head == Null then Granted(joined, t) else Goto(joined, t, SetLocked(s.head.tid))
    case SetLocked(prev) => Goto(s.(recs := s.recs[t := rec.(locked := true)]), t, SetNext(prev))
    case SetNext(prev) => Goto(s.(recs := s.recs[prev := s.recs[prev].(next := To(t))]), t, Spin)
    case Spin => if rec.locked then s else Granted(s, t)
    case Hold => Goto(s, t, ReadNext)
    case ReadNext => Goto(s, t, if rec.next == Null then Swap else Pass)
    case Swap =>
      if s.head == To(t) then Goto(s.(head := Null, released := s.released + 1), t, Idle) else Goto(s, t, AwaitNext)
    case AwaitNext => if rec.next == Null then s else Goto(s, t, Pass)
    case Pass => if rec.next == Null then s.(aborted := true) else Goto(s, t, Clear(rec.next.tid))
    case Clear(n) =>
      Goto(s.(recs := s.recs[n := s.recs[n].(locked := false)], released := s.released + 1), t, Idle)
  }

  ghost predicate Run(ss: seq<System>, ts: seq<Tid>) {
    && |ss| == |ts| + 1 && Init(ss[0])
    && forall k :: 0 <= k < |ts| ==> !ss[k].aborted && Enabled(ss[k], ts[k]) && ss[k + 1] == Next(ss[k], ts[k])
  }

  // ------------------------------------------------------------------ the invariant

  // The threads that have exchanged and not yet given up the lock, the holder (or the next to hold it) first.
  function Queue(s: System): seq<Tid> {
    if s.released <= |s.exchanges| then s.exchanges[s.released..] else []
  }

  predicate Outside(pc: Pc) {
    pc == Idle || pc == Entry || pc == ClearNext || pc == Exchange
  }

  // Between the return of acquire and the step that gives the lock up.
  predicate Holding(pc: Pc) {
    pc == Hold || pc == ReadNext || pc == Swap || pc == AwaitNext || pc == Pass || pc.Clear?
  }

  predicate Waiting(pc: Pc) {
    pc.SetLocked? || pc.SetNext? || pc == Spin
  }

  // A record outside the queue: its flag is down.
  predicate Free(pc: Pc, rec: Rec) {
    Outside(pc) && !rec.locked && (pc == Exchange ==> rec.next == Null)
  }

  // The first in the queue holds the lock or has just been handed it.
  predicate First(pc: Pc, rec: Rec, alone: bool) {
    && (Holding(pc) || pc == Spin) && !rec.locked
    && (pc == AwaitNext ==> !alone) && (pc == Pass ==> rec.next != Null) && (pc.Clear? ==> rec.next == To(pc.succ))
  }

  // Everybody else waits for the one before.
  predicate Later(pc: Pc, rec: Rec, before: Tid) {
    && Waiting(pc) && (rec.locked <==> !pc.SetLocked?)
    && (pc.SetLocked? ==> pc.prev == before) && (pc.SetNext? ==> pc.prev == before)
  }

  // `next` points to the one behind as soon as that one has linked itself in.
  function Link(pc: map<Tid, Pc>, q: seq<Tid>, i: nat): Pointer {
    if i + 1 < |q| && q[i + 1] in pc && pc[q[i + 1]] == Spin then To(q[i + 1]) else Null
  }

  predicate SlotOk(recs: map<Tid, Rec>, pc: map<Tid, Pc>, q: seq<Tid>, i: nat)
    requires i < |q|
  {
    var t := q[i];
    && t in pc && t in recs
    && (if i == 0 then First(pc[t], recs[t], |q| == 1) else Later(pc[t], recs[t], q[i - 1]))
    && recs[t].next == Link(pc, q, i)
  }

  ghost predicate Chain(recs: map<Tid, Rec>, pc: map<Tid, Pc>, q: seq<Tid>) {
    forall i: nat {:trigger SlotOk(recs, pc, q, i)} :: i < |q| ==> SlotOk(recs, pc, q, i)
  }

  ghost predicate Others(recs: map<Tid, Rec>, pc: map<Tid, Pc>, q: seq<Tid>)
    requires recs.Keys == pc.Keys
  {
    forall t :: t in pc && t !in q ==> Free(pc[t], recs[t])
  }

  ghost predicate Distinct(q: seq<Tid>) {
    forall i, j :: 0 <= i < j < |q| ==> q[i] != q[j]
  }

  // The lock has been granted to the threads in the order of their exchanges: to all that have released it, and to the
  // first in the queue if that one has noticed.
  predicate InOrder(exchanges: seq<Tid>, released: nat, grants: seq<Tid>, held: bool) {
    && released <= |exchanges| && (held ==> released < |exchanges|)
    && grants == exchanges[..released] + if held then [exchanges[released]] else []
  }

  predicate Held(pc: map<Tid, Pc>, q: seq<Tid>) {
    q != [] && q[0] in pc && Holding(pc[q[0]])
  }

  ghost predicate Core(recs: map<Tid, Rec>, pc: map<Tid, Pc>, q: seq<Tid>) {
    recs.Keys == pc.Keys && Distinct(q) && Chain(recs, pc, q) && Others(recs, pc, q)
  }

  ghost predicate Inv(s: System) {
    && !s.aborted && s.released <= |s.exchanges| && Core(s.recs, s.pc, Queue(s))
    && s.head == (if Queue(s) == [] then Null else To(Queue(s)[|Queue(s)| - 1]))
    && InOrder(s.exchanges, s.released, s.grants, Held(s.pc, Queue(s)))
  }

  // ------------------------------------------------------------------ the records

  // Where in the queue a thread stands that is not outside.
  lemma Place(recs: map<Tid, Rec>, pc: map<Tid, Pc>, q: seq<Tid>, t: Tid) returns (i: nat)
    requires Core(recs, pc, q) && t in pc && !Outside(pc[t])
    ensures i < |q| && q[i] == t && SlotOk(recs, pc, q, i)
    ensures i == 0 <==> Holding(pc[t]) || (pc[t] == Spin && !recs[t].locked)
  {
    i :| 0 <= i < |q| && q[i] == t;
  }

  lemma Slot(recs: map<Tid, Rec>, pc: map<Tid, Pc>, q: seq<Tid>, i: nat)
    requires Core(recs, pc, q) && i < |q|
    ensures SlotOk(recs, pc, q, i)
  {
  }

  lemma NotQueued(recs: map<Tid, Rec>, pc: map<Tid, Pc>, q: seq<Tid>, t: Tid)
    requires Core(recs, pc, q) && t in pc && Outside(pc[t])
    ensures t !in q && Free(pc[t], recs[t])
  {
    if t in q {
      var i :| 0 <= i < |q| && q[i] == t;
      Slot(recs, pc, q, i);
    }
  }

  lemma OutsideMove(recs: map<Tid, Rec>, pc: map<Tid, Pc>, q: seq<Tid>, t: Tid, rec: Rec, to: Pc)
    requires Core(recs, pc, q) && t in pc && Outside(pc[t]) && Free(to, rec)
    ensures Core(recs[t := rec], pc[t := to], q)
  {
    NotQueued(recs, pc, q, t);
    forall i: nat {:trigger SlotOk(recs[t := rec], pc[t := to], q, i)} | i < |q|
      ensures SlotOk(recs[t := rec], pc[t := to], q, i)
    {
      assert SlotOk(recs, pc, q, i);
    }
  }

  // A thread at the end of its exchange joins the queue.
  lemma Join(recs: map<Tid, Rec>, pc: map<Tid, Pc>, q: seq<Tid>, t: Tid)
    requires Core(recs, pc, q) && t in pc && pc[t] == Exchange
    ensures Core(recs, pc[t := if q == [] then Hold else SetLocked(q[|q| - 1])], q + [t])
  {
    NotQueued(recs, pc, q, t);
    var to := if q == [] then Hold else SetLocked(q[|q| - 1]);
    var q' := q + [t];
    forall i: nat {:trigger SlotOk(recs, pc[t := to], q', i)} | i < |q'|
      ensures SlotOk(recs, pc[t := to], q', i)
    {
      if i < |q| { assert SlotOk(recs, pc, q, i); }
    }
  }

  // A move of the thread at position i that nobody else can see.
  lemma OwnMove(recs: map<Tid, Rec>, pc: map<Tid, Pc>, q: seq<Tid>, i: nat, rec: Rec, to: Pc)
    requires Core(recs, pc, q) && i < |q| && q[i] in recs
    requires i == 0 ==> First(to, rec, |q| == 1)
    requires i > 0 ==> Later(to, rec, q[i - 1]) && (to == Spin <==> pc[q[i]] == Spin)
    requires rec.next == recs[q[i]].next
    ensures Core(recs[q[i] := rec], pc[q[i] := to], q)
  {
    var t := q[i];
    forall j: nat {:trigger SlotOk(recs[t := rec], pc[t := to], q, j)} | j < |q|
      ensures SlotOk(recs[t := rec], pc[t := to], q, j)
    {
      assert SlotOk(recs, pc, q, j);
    }
  }

  // The thread at position i > 0 links itself behind the one before.
  lemma LinkIn(recs: map<Tid, Rec>, pc: map<Tid, Pc>, q: seq<Tid>, i: nat)
    requires Core(recs, pc, q) && 0 < i < |q| && q[i] in pc && pc[q[i]] == SetNext(q[i - 1]) && q[i - 1] in recs
    ensures Core(recs[q[i - 1] := recs[q[i - 1]].(next := To(q[i]))], pc[q[i] := Spin], q)
  {
    var t, before := q[i], q[i - 1];
    var recs' := recs[before := recs[before].(next := To(t))];
    assert SlotOk(recs, pc, q, i) && SlotOk(recs, pc, q, i - 1);
    forall j: nat {:trigger SlotOk(recs', pc[t := Spin], q, j)} | j < |q|
      ensures SlotOk(recs', pc[t := Spin], q, j)
    {
      assert SlotOk(recs, pc, q, j);
    }
  }

  // The first in the queue hands the lock to the second.
  lemma HandOver(recs: map<Tid, Rec>, pc: map<Tid, Pc>, q: seq<Tid>)
    requires Core(recs, pc, q) && q != [] && q[0] in pc && pc[q[0]].Clear?
    ensures |q| > 1 && pc[q[0]].succ == q[1] && q[1] in recs && pc[q[1]] == Spin
    ensures Core(recs[q[1] := recs[q[1]].(locked := false)], pc[q[0] := Idle], q[1..])
  {
    assert SlotOk(recs, pc, q, 0);
    assert SlotOk(recs, pc, q, 1);
    var t, n, rest := q[0], q[1], q[1..];
    var recs' := recs[n := recs[n].(locked := false)];
    forall j: nat {:trigger SlotOk(recs', pc[t := Idle], rest, j)} | j < |rest|
      ensures SlotOk(recs', pc[t := Idle], rest, j)
    {
      assert SlotOk(recs, pc, q, j + 1);
    }
    forall x | x in pc && x !in rest
      ensures Free(pc[t := Idle][x], recs'[x])
    {
      if x != t { assert x !in q; }
    }
  }

  // The only one in the queue leaves it.
  lemma LeaveEmpty(recs: map<Tid, Rec>, pc: map<Tid, Pc>, t: Tid)
    requires Core(recs, pc, [t]) && t in pc
    ensures Core(recs, pc[t := Idle], [])
  {
    assert SlotOk(recs, pc, [t], 0);
    forall x | x in pc && x !in []
      ensures Free(pc[t := Idle][x], recs[x])
    {
      if x != t { assert x !in [t]; }
    }
  }

  // ------------------------------------------------------------------ one step keeps the invariant

  lemma QueueAfter(s: System, t: Tid)
    requires s.released <= |s.exchanges|
    ensures var q := Queue(s);
            && s.exchanges == s.exchanges[..s.released] + q
            && (s.exchanges + [t])[s.released..] == q + [t]
            && (s.exchanges + [t])[..s.released] == s.exchanges[..s.released]
            && (q != [] ==> s.exchanges[s.released + 1..] == q[1..]
                            && s.exchanges[..s.released + 1] == s.exchanges[..s.released] + [q[0]])
  {
  }

  lemma OutsideKeeps(s: System, t: Tid)
    requires Inv(s) && Enabled(s, t) && (s.pc[t] == Idle || s.pc[t] == Entry || s.pc[t] == ClearNext)
    ensures Inv(Next(s, t))
  {
    hide Chain, Others, Distinct;
    NotQueued(s.recs, s.pc, Queue(s), t);
    var rec := if s.pc[t] == ClearNext then s.recs[t].(next := Null) else s.recs[t];
    var to := if s.pc[t] == Idle then Entry else if s.pc[t] == Entry then ClearNext else Exchange;
    OutsideMove(s.recs, s.pc, Queue(s), t, rec, to);
    assert s.recs[t := s.recs[t]] == s.recs;
  }

  lemma ExchangeKeeps(s: System, t: Tid)
    requires Inv(s) && Enabled(s, t) && s.pc[t] == Exchange
    ensures Inv(Next(s, t))
  {
    hide Chain, Others, Distinct;
    NotQueued(s.recs, s.pc, Queue(s), t);
    Join(s.recs, s.pc, Queue(s), t);
    QueueAfter(s, t);
  }

  lemma SetLockedKeeps(s: System, t: Tid)
    requires Inv(s) && Enabled(s, t) && s.pc[t].SetLocked?
    ensures Inv(Next(s, t))
  {
    hide Chain, Others, Distinct;
    var q := Queue(s);
    var i := Place(s.recs, s.pc, q, t);
    OwnMove(s.recs, s.pc, q, i, s.recs[t].(locked := true), SetNext(s.pc[t].prev));
    FirstUnmoved(s.recs, s.pc, q, i, t);
  }

  lemma SetNextKeeps(s: System, t: Tid)
    requires Inv(s) && Enabled(s, t) && s.pc[t].SetNext?
    ensures Inv(Next(s, t))
  {
    hide Chain, Others, Distinct;
    var q := Queue(s);
    var i := Place(s.recs, s.pc, q, t);
    LinkIn(s.recs, s.pc, q, i);
    FirstUnmoved(s.recs, s.pc, q, i, t);
  }

  // The first in the queue is not the thread at a later place.
  lemma FirstUnmoved(recs: map<Tid, Rec>, pc: map<Tid, Pc>, q: seq<Tid>, i: nat, t: Tid)
    requires Core(recs, pc, q) && 0 < i < |q| && q[i] == t
    ensures q[0] != t
  {
  }

  lemma SpinKeeps(s: System, t: Tid)
    requires Inv(s) && Enabled(s, t) && s.pc[t] == Spin
    ensures Inv(Next(s, t))
  {
    hide Chain, Others, Distinct;
    var q := Queue(s);
    var i := Place(s.recs, s.pc, q, t);
    if !s.recs[t].locked {
      OwnMove(s.recs, s.pc, q, 0, s.recs[t], Hold);
      assert s.recs[t := s.recs[t]] == s.recs;
    }
  }

  lemma HolderKeeps(s: System, t: Tid)
    requires Inv(s) && Enabled(s, t)
    requires s.pc[t] == Hold || s.pc[t] == ReadNext || s.pc[t] == AwaitNext || s.pc[t] == Pass
             || (s.pc[t] == Swap && s.head != To(t))
    ensures Inv(Next(s, t))
  {
    hide Chain, Others, Distinct;
    var q := Queue(s);
    var i := Place(s.recs, s.pc, q, t);
    var rec := s.recs[t];
    var to :=
      if s.pc[t] == Hold then ReadNext
      else if rec.next == Null then (if s.pc[t] == ReadNext then Swap else AwaitNext)
      else if s.pc[t] == Pass then Clear(rec.next.tid)
      else if s.pc[t] == Swap then AwaitNext
      else Pass;
    OwnMove(s.recs, s.pc, q, 0, rec, to);
    assert s.recs[t := rec] == s.recs;
    assert s.pc[t] == to ==> s.pc[t := to] == s.pc;
  }

  // Who is both first and last in the queue is alone in it.
  lemma Alone(recs: map<Tid, Rec>, pc: map<Tid, Pc>, q: seq<Tid>)
    requires Core(recs, pc, q) && q != [] && q[0] == q[|q| - 1]
    ensures q == [q[0]]
  {
  }

  lemma PassKeeps(s: System, t: Tid)
    requires Inv(s) && Enabled(s, t) && s.pc[t].Clear?
    ensures Inv(Next(s, t))
  {
    hide Chain, Others, Distinct;
    var q := Queue(s);
    var i := Place(s.recs, s.pc, q, t);
    QueueAfter(s, t);
    HandOver(s.recs, s.pc, q);
  }

  lemma LeaveKeeps(s: System, t: Tid)
    requires Inv(s) && Enabled(s, t) && s.pc[t] == Swap && s.head == To(t)
    ensures Inv(Next(s, t))
  {
    hide Chain, Others, Distinct;
    var q := Queue(s);
    var i := Place(s.recs, s.pc, q, t);
    Alone(s.recs, s.pc, q);
    QueueAfter(s, t);
    LeaveEmpty(s.recs, s.pc, t);
  }

  lemma StepKeeps(s: System, t: Tid)
    requires Inv(s) && Enabled(s, t)
    ensures Inv(Next(s, t))
  {
    hide Inv, Next;
    match s.pc[t]
    case Idle => OutsideKeeps(s, t);
    case Entry => OutsideKeeps(s, t);
    case ClearNext => OutsideKeeps(s, t);
    case Exchange => ExchangeKeeps(s, t);
    case SetLocked(_) => SetLockedKeeps(s, t);
    case SetNext(_) => SetNextKeeps(s, t);
    case Spin => SpinKeeps(s, t);
    case Clear(_) => PassKeeps(s, t);
    case Swap => if s.head == To(t) { LeaveKeeps(s, t); } else { HolderKeeps(s, t); }
    case _ => HolderKeeps(s, t);
  }
}
