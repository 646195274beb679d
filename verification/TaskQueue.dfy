/** The stealing task queues (task_queue.cpp:72-116, taskQ.c:359-443). A dequeue goes round all queues, each under its
    own lock; a step is one visit of one queue by one thread, or one enqueue, and any thread may move next. */
module TaskQueue {
  type Tid = nat
  type Task = nat

  // `fifo` says that tasks are always taken from the front (taskQ.c); otherwise a queue that is not the thread's own
  // loses its last task (task_queue.cpp).
  datatype Setting = Setting(queues: nat, fifo: bool)

  // `quiet` records that nothing has been enqueued since the dequeue began.
  datatype Pc = Idle | Look(index: nat, visited: nat, quiet: bool) | Got(task: Task) | Failed(quiet: bool)

  // `out` lists the tasks handed out (they are in the free queues of taskQ.c), `enqueued` all that were ever enqueued.
  datatype System = System(queues: seq<seq<Task>>, out: seq<Task>, enqueued: seq<Task>, pc: map<Tid, Pc>)

  datatype Step = Begin(t: Tid, index: nat) | Visit(t: Tid) | Finish(t: Tid) | Enqueue(q: nat, task: Task)

  ghost predicate Init(c: Setting, s: System) {
    && |s.queues| == c.queues > 0 && s.out == [] && s.enqueued == []
    && (forall q :: 0 <= q < |s.queues| ==> s.queues[q] == []) && forall t :: t in s.pc ==> s.pc[t] == Idle
  }

  predicate Enabled(c: Setting, s: System, step: Step) {
    && |s.queues| == c.queues > 0
    && match step
       case Begin(t, _) => t in s.pc && s.pc[t] == Idle
       case Visit(t) => t in s.pc && s.pc[t].Look?
       case Finish(t) => t in s.pc && (s.pc[t].Got? || s.pc[t].Failed?)
       case Enqueue(q, _) => q < c.queues
  }

  function Noisy(pc: Pc): Pc {
    if pc.Look? then pc.(quiet := false) else if pc.Failed? then Failed(false) else pc
  }

  // The queue that a dequeue which began at `index` visits after `visited` others.
  function Round(c: Setting, index: nat, visited: nat): (q: nat)
    requires c.queues > 0
    ensures q < c.queues
  {
    (index + visited) % c.queues
  }

  function Take(c: Setting, s: System, t: Tid, q: nat, front: bool): System
    requires q < |s.queues| && s.queues[q] != []
  {
    var queue := s.queues[q];
    var task := if front then queue[0] else queue[|queue| - 1];
    s.(queues := s.queues[q := if front then queue[1..] else queue[..|queue| - 1]], out := s.out + [task],
       pc := s.pc[t := Got(task)])
  }

  function Next(c: Setting, s: System, step: Step): System
    requires Enabled(c, s, step)
  {
    match step
    case Begin(t, index) => s.(pc := s.pc[t := Look(index, 0, true)])
    case Visit(t) =>
      var at := s.pc[t];
      var q := Round(c, at.index, at.visited);
      if s.queues[q] != [] then Take(c, s, t, q, c.fifo || q == at.index)
      else if at.visited + 1 < c.queues then s.(pc := s.pc[t := at.(visited := at.visited + 1)])
      else s.(pc := s.pc[t := Failed(at.quiet)])
    case Finish(t) => s.(pc := s.pc[t := Idle])
    case Enqueue(q, task) =>
      s.(queues := s.queues[q := s.queues[q] + [task]], enqueued := s.enqueued + [task],
         pc := map t | t in s.pc :: Noisy(s.pc[t]))
  }

  ghost predicate Run(c: Setting, ss: seq<System>, steps: seq<Step>) {
    && |ss| == |steps| + 1 && Init(c, ss[0])
    && forall k :: 0 <= k < |steps| ==> Enabled(c, ss[k], steps[k]) && ss[k + 1] == Next(c, ss[k], steps[k])
  }

  // ------------------------------------------------------------------ conservation

  function All(queues: seq<seq<Task>>): multiset<Task> {
    if queues == [] then multiset{} else All(queues[..|queues| - 1]) + multiset(queues[|queues| - 1])
  }

  lemma {:induction false} AllUpdate(queues: seq<seq<Task>>, q: nat, queue: seq<Task>)
    requires q < |queues|
    ensures All(queues[q := queue]) + multiset(queues[q]) == All(queues) + multiset(queue)
  {
    var n := |queues| - 1;
    if q == n {
      assert queues[q := queue][..n] == queues[..n];
    } else {
      AllUpdate(queues[..n], q, queue);
      assert queues[q := queue][..n] == queues[..n][q := queue];
      AddLast(All(queues[..n][q := queue]), multiset(queues[q]), All(queues[..n]), multiset(queue),
              multiset(queues[n]));
    }
  }

  lemma AddLast(a: multiset<Task>, x: multiset<Task>, b: multiset<Task>, y: multiset<Task>, last: multiset<Task>)
    requires a + x == b + y
    ensures a + last + x == b + last + y
  {
    assert a + last + x == a + x + last;
    assert b + last + y == b + y + last;
  }

  lemma {:induction false} AllEmpty(queues: seq<seq<Task>>)
    requires forall q :: 0 <= q < |queues| ==> queues[q] == []
    ensures All(queues) == multiset{}
  {
    if queues != [] { AllEmpty(queues[..|queues| - 1]); }
  }

  ghost predicate Conserved(s: System) {
    All(s.queues) + multiset(s.out) == multiset(s.enqueued)
  }

  lemma TakeConserves(c: Setting, s: System, t: Tid, q: nat, front: bool)
    requires q < |s.queues| && s.queues[q] != [] && Conserved(s)
    ensures Conserved(Take(c, s, t, q, front))
  {
    var queue := s.queues[q];
    var n := |queue| - 1;
    var rest := if front then queue[1..] else queue[..n];
    var task := if front then queue[0] else queue[n];
    assert queue == if front then [task] + rest else rest + [task];
    assert multiset(queue) == multiset(rest) + multiset{task};
    AllUpdate(s.queues, q, rest);
    AddOne(All(s.queues[q := rest]), All(s.queues), multiset(rest), task);
    hide All;
  }

  lemma AddOne(a: multiset<Task>, b: multiset<Task>, rest: multiset<Task>, task: Task)
    requires a + (rest + multiset{task}) == b + rest
    ensures a + multiset{task} == b
  {
    assert a + multiset{task} == a + (rest + multiset{task}) - rest;
    assert b == b + rest - rest;
  }

  // ------------------------------------------------------------------ what a dequeue has seen

  ghost predicate Seen(c: Setting, queues: seq<seq<Task>>, pc: Pc)
    requires |queues| == c.queues > 0
  {
    && (pc.Look? ==> pc.visited < c.queues)
    && (pc.Look? && pc.quiet ==> forall v: nat :: v < pc.visited ==> queues[Round(c, pc.index, v)] == [])
    && (pc.Failed? && pc.quiet ==> forall q :: 0 <= q < |queues| ==> queues[q] == [])
  }

  ghost predicate Inv(c: Setting, s: System) {
    |s.queues| == c.queues > 0 && Conserved(s) && forall t :: t in s.pc ==> Seen(c, s.queues, s.pc[t])
  }

  // Going round visits every queue.
  lemma RoundReaches(c: Setting, index: nat, q: nat) returns (v: nat)
    requires q < c.queues
    ensures v < c.queues && Round(c, index, v) == q
  {
    var start := index % c.queues;
    v := if q >= start then q - start else q + c.queues - start;
    RoundIs(c, index, v);
  }

  lemma RoundIs(c: Setting, index: nat, v: nat)
    requires v < c.queues
    ensures var start := index % c.queues;
            Round(c, index, v) == if start + v < c.queues then start + v else start + v - c.queues
  {
    var n := c.queues;
    var start := index % n;
    assert index == n * (index / n) + start;
    if start + v < n {
      ModIs(index + v, n, index / n, start + v);
    } else {
      assert n * (index / n + 1) == n * (index / n) + n;
      ModIs(index + v, n, index / n + 1, start + v - n);
    }
  }

  lemma ModIs(x: nat, n: nat, q: nat, r: nat)
    requires n > 0 && r < n && x == n * q + r
    ensures x % n == r
  {
    var p := x / n;
    if p < q { MulLe(n, p + 1, q); }
    if q < p { MulLe(n, q + 1, p); }
    assert p == q;
  }

  lemma MulLe(n: nat, a: nat, b: nat)
    requires a <= b
    ensures n * a <= n * b
  {
  }

  // Queues only become empty as long as nothing is enqueued.
  lemma SeenStays(c: Setting, queues: seq<seq<Task>>, queues': seq<seq<Task>>, pc: Pc)
    requires |queues| == c.queues > 0 && |queues'| == |queues| && Seen(c, queues, pc)
    requires forall q :: 0 <= q < |queues| && queues[q] == [] ==> queues'[q] == []
    ensures Seen(c, queues', pc)
  {
    hide Round;
  }

  lemma SeenMore(c: Setting, queues: seq<seq<Task>>, at: Pc)
    requires |queues| == c.queues > 0 && at.Look? && Seen(c, queues, at) && queues[Round(c, at.index, at.visited)] == []
    ensures at.visited + 1 < c.queues ==> Seen(c, queues, at.(visited := at.visited + 1))
    ensures at.visited + 1 == c.queues ==> Seen(c, queues, Failed(at.quiet))
  {
    if at.quiet && at.visited + 1 == c.queues {
      forall q | 0 <= q < |queues|
        ensures queues[q] == []
      {
        var v := RoundReaches(c, at.index, q);
      }
    }
    hide Round;
  }

  lemma VisitKeeps(c: Setting, s: System, t: Tid)
    requires Inv(c, s) && Enabled(c, s, Visit(t))
    ensures Inv(c, Next(c, s, Visit(t)))
  {
    var at := s.pc[t];
    var q := Round(c, at.index, at.visited);
    var s' := Next(c, s, Visit(t));
    assert Seen(c, s.queues, at);
    hide Round, Seen, All, Conserved;
    if s.queues[q] != [] {
      TakeConserves(c, s, t, q, c.fifo || q == at.index);
      forall u | u in s'.pc
        ensures Seen(c, s'.queues, s'.pc[u])
      {
        if u != t { SeenStays(c, s.queues, s'.queues, s.pc[u]); }
      }
    } else {
      SeenMore(c, s.queues, at);
    }
  }

  lemma OtherKeeps(c: Setting, s: System, step: Step)
    requires Inv(c, s) && Enabled(c, s, step) && (step.Begin? || step.Finish?)
    ensures Inv(c, Next(c, s, step))
  {
    var s' := Next(c, s, step);
    assert step.Begin? ==> Seen(c, s.queues, Look(step.index, 0, true));
    hide Seen, Conserved;
  }

  lemma EnqueueKeeps(c: Setting, s: System, q: nat, task: Task)
    requires Inv(c, s) && Enabled(c, s, Enqueue(q, task))
    ensures Inv(c, Next(c, s, Enqueue(q, task)))
  {
    var s' := Next(c, s, Enqueue(q, task));
    AllUpdate(s.queues, q, s.queues[q] + [task]);
    AddOneMore(All(s'.queues), All(s.queues), multiset(s.queues[q]), task);
    hide Seen, All;
    forall u | u in s'.pc
      ensures Seen(c, s'.queues, s'.pc[u])
    {
    }
  }

  lemma AddOneMore(a: multiset<Task>, b: multiset<Task>, queue: multiset<Task>, task: Task)
    requires a + queue == b + (queue + multiset{task})
    ensures a == b + multiset{task}
  {
    assert a == a + queue - queue;
    assert b + multiset{task} == b + (queue + multiset{task}) - queue;
  }

  lemma {:induction false} RunKeeps(c: Setting, ss: seq<System>, steps: seq<Step>, k: nat)
    requires Run(c, ss, steps) && k < |ss|
    ensures Inv(c, ss[k])
    decreases k
  {
    if k == 0 {
      AllEmpty(ss[0].queues);
    } else {
      RunKeeps(c, ss, steps, k - 1);
      hide Inv, Next, Init;
      match steps[k - 1]
      case Visit(t) => VisitKeeps(c, ss[k - 1], t);
      case Enqueue(q, task) => EnqueueKeeps(c, ss[k - 1], q, task);
      case _ => OtherKeeps(c, ss[k - 1], steps[k - 1]);
    }
  }

  // Whatever the interleaving: queued and handed-out tasks are together exactly the enqueued ones, so that none is
  // handed out more often than it was enqueued; and a dequeue during which nothing is enqueued fails only if, when it
  // ends, every queue is empty. A thread that has been served can begin again.
  lemma NothingLost(c: Setting, ss: seq<System>, steps: seq<Step>, k: nat)
    requires Run(c, ss, steps) && k < |ss|
    ensures All(ss[k].queues) + multiset(ss[k].out) == multiset(ss[k].enqueued)
    ensures forall task :: multiset(ss[k].out)[task] <= multiset(ss[k].enqueued)[task]
    ensures forall t :: t in ss[k].pc && ss[k].pc[t] == Failed(true) ==>
              forall q :: 0 <= q < |ss[k].queues| ==> ss[k].queues[q] == []
    ensures k > 0 && steps[k - 1].Finish? ==> Enabled(c, ss[k], Begin(steps[k - 1].t, 0))
  {
    RunKeeps(c, ss, steps, k);
    if k > 0 { assert Enabled(c, ss[k - 1], steps[k - 1]) && ss[k] == Next(c, ss[k - 1], steps[k - 1]); }
    hide All, Run, Round;
  }

  // How many of the steps from number j on and before number k are visits of thread t.
  function Visits(steps: seq<Step>, j: nat, k: nat, t: Tid): nat
    requires j <= k <= |steps|
  {
    if j == k then 0 else Visits(steps, j, k - 1, t) + if steps[k - 1] == Visit(t) then 1 else 0
  }

  // Where thread t stands in a dequeue that began at queue `from`, after n visits.
  predicate Stands(c: Setting, s: System, t: Tid, from: nat, n: nat) {
    && t in s.pc && !s.pc[t].Idle? && |s.queues| == c.queues > 0
    && match s.pc[t]
       case Look(index, visited, _) => index == from && visited == n < c.queues
       case Got(_) => 0 < n <= c.queues
       case Failed(_) => n == c.queues
       case Idle => true
  }

  lemma StandsOn(c: Setting, s: System, step: Step, t: Tid, from: nat, n: nat)
    requires Enabled(c, s, step) && Stands(c, s, t, from, n) && step != Finish(t)
    ensures Stands(c, Next(c, s, step), t, from, n + if step == Visit(t) then 1 else 0)
  {
    hide Round;
  }

  // A dequeue goes on to another queue with each visit, can always make the next one, and ends after as many visits as
  // there are queues at the latest; it fails after exactly so many.
  lemma {:induction false} DequeueEnds(c: Setting, ss: seq<System>, steps: seq<Step>, j: nat, k: nat, t: Tid, from: nat)
    requires Run(c, ss, steps) && j < k < |ss| && steps[j] == Begin(t, from)
    requires forall i :: j < i < k ==> steps[i] != Finish(t)
    ensures Stands(c, ss[k], t, from, Visits(steps, j + 1, k, t))
    ensures t in ss[k].pc && !ss[k].pc[t].Idle?
    ensures var n := Visits(steps, j + 1, k, t);
            match ss[k].pc[t]
            case Look(index, visited, _) => index == from && visited == n < c.queues && Enabled(c, ss[k], Visit(t))
            case Got(_) => 0 < n <= c.queues
            case Failed(_) => n == c.queues
            case Idle => true
    decreases k
  {
    hide Round;
    assert Enabled(c, ss[k - 1], steps[k - 1]) && ss[k] == Next(c, ss[k - 1], steps[k - 1]);
    if j < k - 1 {
      DequeueEnds(c, ss, steps, j, k - 1, t, from);
      hide Next, Enabled, Init;
      StandsOn(c, ss[k - 1], steps[k - 1], t, from, Visits(steps, j + 1, k - 1, t));
    }
  }

  lemma {:induction false} QuietSoFar(c: Setting, ss: seq<System>, steps: seq<Step>, j: nat, k: nat, t: Tid)
    requires Run(c, ss, steps) && j < k < |ss| && steps[j].Begin? && steps[j].t == t
    requires forall i :: j < i < k ==> !steps[i].Enqueue? && steps[i] != Finish(t)
    ensures t in ss[k].pc
    ensures (ss[k].pc[t].Got? || ss[k].pc[t] == Failed(true) || (ss[k].pc[t].Look? && ss[k].pc[t].quiet))
    decreases k
  {
    hide Round;
    assert Enabled(c, ss[k - 1], steps[k - 1]) && ss[k] == Next(c, ss[k - 1], steps[k - 1]);
    if j < k - 1 { QuietSoFar(c, ss, steps, j, k - 1, t); }
  }

  // A dequeue that fails, with nothing enqueued since it began, leaves every queue empty: a task that is there is
  // found.
  lemma FailsOnlyWhenEmpty(c: Setting, ss: seq<System>, steps: seq<Step>, j: nat, k: nat, t: Tid)
    requires Run(c, ss, steps) && j < k < |ss| && steps[j].Begin? && steps[j].t == t
    requires forall i :: j < i < k ==> !steps[i].Enqueue? && steps[i] != Finish(t)
    requires t in ss[k].pc && ss[k].pc[t].Failed?
    ensures forall q :: 0 <= q < |ss[k].queues| ==> ss[k].queues[q] == []
  {
    QuietSoFar(c, ss, steps, j, k, t);
    NothingLost(c, ss, steps, k);
  }
}
