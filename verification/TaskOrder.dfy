/** Which task a dequeue hands out: the tasks of a queue told apart by the step that enqueued them. */
module TaskOrder {
  import opened TaskQueue

  // The queue that the step visits, if it takes a task from it.
  predicate TakesFrom(c: Setting, s: System, step: Step, q: nat) {
    && step.Visit? && step.t in s.pc && s.pc[step.t].Look? && c.queues > 0
    && q == (s.pc[step.t].index + s.pc[step.t].visited) % c.queues && q < |s.queues| && s.queues[q] != []
  }

  // For queue q, the numbers of the steps that enqueued what is in it after k steps, when tasks are taken by age: the
  // oldest one in the fifo setting or from the thread's own queue, and the newest one from another queue.
  function Ages(c: Setting, ss: seq<System>, steps: seq<Step>, k: nat, q: nat): seq<nat>
    requires k <= |steps| && |ss| > |steps|
    decreases k
  {
    if k == 0 then []
    else
      var ages := Ages(c, ss, steps, k - 1, q);
      var step := steps[k - 1];
      if step.Enqueue? && step.q == q then ages + [k - 1]
      else if TakesFrom(c, ss[k - 1], step, q) && ages != [] then
        if c.fifo || ss[k - 1].pc[step.t].index == q then ages[1..] else ages[..|ages| - 1]
      else ages
  }

  // The queue holds exactly the tasks that those steps enqueued, in the order of the steps.
  ghost predicate Aged(steps: seq<Step>, k: nat, q: nat, queue: seq<Task>, ages: seq<nat>) {
    && |ages| == |queue|
    && (forall i, j :: 0 <= i < j < |ages| ==> ages[i] < ages[j])
    && forall i {:trigger ages[i]} {:trigger queue[i]} :: 0 <= i < |ages| ==>
         ages[i] < k && ages[i] < |steps| && steps[ages[i]] == Enqueue(q, queue[i])
  }

  lemma StepAged(c: Setting, s: System, step: Step, steps: seq<Step>, k: nat, q: nat, ages: seq<nat>)
    requires Enabled(c, s, step) && q < c.queues && k < |steps| && steps[k] == step
    requires Aged(steps, k, q, s.queues[q], ages)
    ensures |Next(c, s, step).queues| == c.queues
    ensures Aged(steps, k + 1, q, Next(c, s, step).queues[q],
                 if step.Enqueue? && step.q == q then ages + [k]
                 else if TakesFrom(c, s, step, q) && ages != [] then
                   if c.fifo || s.pc[step.t].index == q then ages[1..] else ages[..|ages| - 1]
                 else ages)
  {
    if step.Visit? {
      assert Round(c, s.pc[step.t].index, s.pc[step.t].visited) ==
             (s.pc[step.t].index + s.pc[step.t].visited) % c.queues;
      hide Round;
    }
  }

  // After any number of steps of any run every queue holds the tasks of its ages, oldest first.
  lemma {:induction false} AgesHold(c: Setting, ss: seq<System>, steps: seq<Step>, k: nat, q: nat)
    requires Run(c, ss, steps) && k < |ss| && q < c.queues
    ensures |ss[k].queues| == c.queues && Aged(steps, k, q, ss[k].queues[q], Ages(c, ss, steps, k, q))
    decreases k
  {
    if k > 0 {
      AgesHold(c, ss, steps, k - 1, q);
      hide Aged, Next, Init;
      assert Enabled(c, ss[k - 1], steps[k - 1]);
      StepAged(c, ss[k - 1], steps[k - 1], steps, k - 1, q, Ages(c, ss, steps, k - 1, q));
    }
  }

  // Whatever the interleaving: a dequeue that finds a task in a queue gets the one that was enqueued there first among
  // those still present, if the tasks are always taken from the front or the queue is the thread's own; from another
  // queue it gets the one that was enqueued last.
  lemma TakenByAge(c: Setting, ss: seq<System>, steps: seq<Step>, k: nat, t: Tid, q: nat)
    requires Run(c, ss, steps) && k < |steps| && steps[k] == Visit(t) && TakesFrom(c, ss[k], steps[k], q)
    ensures t in ss[k].pc && ss[k].pc[t].Look? && t in ss[k + 1].pc && ss[k + 1].pc[t].Got?
    ensures ss[k + 1].out == ss[k].out + [ss[k + 1].pc[t].task]
    ensures var ages := Ages(c, ss, steps, k, q);
            && ages != []
            && (forall i :: 0 <= i < |ages| ==> ages[0] <= ages[i] <= ages[|ages| - 1] < k)
            && var taken := if c.fifo || ss[k].pc[t].index == q then ages[0] else ages[|ages| - 1];
               steps[taken] == Enqueue(q, ss[k + 1].pc[t].task)
  {
    assert Enabled(c, ss[k], steps[k]) && ss[k + 1] == Next(c, ss[k], steps[k]);
    AgesHold(c, ss, steps, k, q);
    Gets(c, ss[k], t, q);
    hide Run, Ages, Next, Enabled;
  }

  lemma Gets(c: Setting, s: System, t: Tid, q: nat)
    requires Enabled(c, s, Visit(t)) && TakesFrom(c, s, Visit(t), q)
    ensures var s' := Next(c, s, Visit(t));
            && t in s'.pc && s'.pc[t].Got? && s'.out == s.out + [s'.pc[t].task]
            && s'.pc[t].task == if c.fifo || s.pc[t].index == q then s.queues[q][0] else s.queues[q][|s.queues[q]| - 1]
  {
    assert Round(c, s.pc[t].index, s.pc[t].visited) == q;
    hide Round;
  }

  // The tasks that have been enqueued in queue q in the first k steps, and those that have been handed out from it.
  function Entered(steps: seq<Step>, k: nat, q: nat): seq<Task>
    requires k <= |steps|
  {
    if k == 0 then []
    else
      Entered(steps, k - 1, q) +
      if steps[k - 1].Enqueue? && steps[k - 1].q == q then [steps[k - 1].task] else []
  }

  function HandedOut(c: Setting, ss: seq<System>, steps: seq<Step>, k: nat, q: nat): seq<Task>
    requires k <= |steps| && |ss| > |steps|
  {
    if k == 0 then []
    else
      HandedOut(c, ss, steps, k - 1, q) +
      if TakesFrom(c, ss[k - 1], steps[k - 1], q) && steps[k - 1].t in ss[k].pc && ss[k].pc[steps[k - 1].t].Got?
      then [ss[k].pc[steps[k - 1].t].task] else []
  }

  lemma FifoStep(c: Setting, s: System, step: Step, q: nat)
    requires Enabled(c, s, step) && q < c.queues && c.fifo
    ensures |Next(c, s, step).queues| == c.queues
    ensures var s' := Next(c, s, step);
            if step.Enqueue? && step.q == q then s'.queues[q] == s.queues[q] + [step.task]
            else if TakesFrom(c, s, step, q) then
              step.t in s'.pc && s'.pc[step.t].Got? && s.queues[q] == [s'.pc[step.t].task] + s'.queues[q]
            else s'.queues[q] == s.queues[q]
  {
    if step.Visit? {
      assert Round(c, s.pc[step.t].index, s.pc[step.t].visited) ==
             (s.pc[step.t].index + s.pc[step.t].visited) % c.queues;
      hide Round;
    }
  }

  // In the fifo setting the tasks of a queue leave it in the order in which they were enqueued there.
  lemma {:induction false} FirstInFirstOut(c: Setting, ss: seq<System>, steps: seq<Step>, k: nat, q: nat)
    requires Run(c, ss, steps) && k < |ss| && q < c.queues && c.fifo
    ensures |ss[k].queues| == c.queues
    ensures Entered(steps, k, q) == HandedOut(c, ss, steps, k, q) + ss[k].queues[q]
    decreases k
  {
    if k > 0 {
      FirstInFirstOut(c, ss, steps, k - 1, q);
      assert Enabled(c, ss[k - 1], steps[k - 1]);
      hide Next, Init, TakesFrom;
      FifoStep(c, ss[k - 1], steps[k - 1], q);
    }
  }
}
