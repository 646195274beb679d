/** What happens to the pools' barrier when rounds shrink: the comparison of a slow worker comes true for a later,
    narrower round, and the controller goes on before the work of that round has been done. */
module ThreadPoolRace {
  import opened Collections
  import opened ThreadPool
  import opened ThreadPoolRuns

  ghost predicate Reach(c: Setting, s: System) {
    exists ss, steps :: Run(c, ss, steps) && ss[|steps|] == s
  }

  lemma Start(c: Setting) returns (s: System)
    ensures Init(c, s) && Reach(c, s)
  {
    var ids := Below(c.threads);
    s := System(0, Set, 0, map[], c.threads, 0, 0, map w | w in ids :: 0, map w | w in ids :: Asleep, [], {});
    assert Run(c, [s], []);
  }

  lemma Go(c: Setting, s: System, step: Step)
    requires Reach(c, s) && Enabled(c, s, step)
    ensures Reach(c, Next(c, s, step))
  {
    var ss, steps :| Run(c, ss, steps) && ss[|steps|] == s;
    hide Init, Next, Enabled;
    var ss', steps' := ss + [Next(c, s, step)], steps + [step];
    forall k | 0 <= k < |steps'|
      ensures Enabled(c, ss'[k], steps'[k]) && ss'[k + 1] == Next(c, ss'[k], steps'[k])
    {
      if k < |steps| { assert ss'[k] == ss[k] && ss'[k + 1] == ss[k + 1] && steps'[k] == steps[k]; }
    }
    assert Run(c, ss', steps');
  }

  // Whether worker w has been posted and has not yet taken the semaphore, when the first i are through.
  predicate Up(c: Setting, width: nat, posted: nat, i: nat, w: nat)
    requires posted <= width && i <= width
  {
    w in Chosen(c, width, posted) && w !in Chosen(c, width, i)
  }

  ghost predicate RunsAre(c: Setting, run: map<nat, nat>, width: nat, posted: nat, i: nat)
    requires posted <= width && i <= width
  {
    forall w :: w in run ==> run[w] == if Up(c, width, posted, i, w) then 1 else 0
  }

  lemma OneMoreUp(c: Setting, run: map<nat, nat>, width: nat, p: nat)
    requires p < width <= c.threads && RunsAre(c, run, width, p, 0) && Slot(c, p, width) in run
    ensures RunsAre(c, run[Slot(c, p, width) := run[Slot(c, p, width)] + 1], width, p + 1, 0)
  {
    ChosenIs(c, width, p);
  }

  // set, begin and the posts of a round with work, while nobody else moves.
  lemma PostAll(c: Setting, s: System, k: nat) returns (s': System)
    requires Fits(c) && Reach(c, s) && s.round == k < |c.plan| && s.control == Set && Width(c, k) > 0 && Domains(c, s)
    requires forall w :: w in s.run ==> s.run[w] == 0
    ensures Reach(c, s') && s'.round == k && s'.control == Wait && Domains(c, s')
    ensures s'.workers == Width(c, k) && s'.done == 0 && s'.all == s.all && s'.pc == s.pc && s'.log == s.log
    ensures RunsAre(c, s'.run, Width(c, k), Width(c, k), 0) && Loaded(c, s')
  {
    var width := Width(c, k);
    assert width <= c.threads;
    SetLoads(c, s);
    Go(c, s, Controller);
    var s1 := Next(c, s, Controller);
    Go(c, s1, Controller);
    s' := Next(c, s1, Controller);
    LoadedSame(c, s1, s');
    hide Loaded, Slot, Assign, Domains, RunsAre, Reach, Fits;
    DomainsSame(c, s, s');
    var p := 0;
    while p < width
      invariant p <= width && Reach(c, s') && s'.round == k
      invariant s'.control == if p < width then Post(p) else Wait
      invariant s'.workers == width && s'.done == 0 && s'.all == s.all && s'.pc == s.pc && s'.log == s.log
      invariant RunsAre(c, s'.run, width, p, 0) && Loaded(c, s') && Domains(c, s')
    {
      SlotRuns(c, s', p, width);
      Go(c, s', Controller);
      OneMoreUp(c, s'.run, width, p);
      var t := Next(c, s', Controller);
      LoadedSame(c, s', t);
      DomainsSame(c, s', t);
      s' := t;
      p := p + 1;
    }
  }

  lemma SlotRuns(c: Setting, s: System, p: nat, width: nat)
    requires p < width <= c.threads && Domains(c, s)
    ensures Slot(c, p, width) in s.run && Slot(c, p, width) in s.pc
  {
    SlotExists(c, p, width);
  }

  // One worker's turn, up to its increment or all the way.
  lemma Turn(c: Setting, s: System, w: nat, leave: bool) returns (s': System)
    requires Reach(c, s) && w in s.pc && w in s.run && w in s.args && s.pc[w] == Asleep && s.run[w] == 1
    ensures Reach(c, s')
    ensures s'.round == s.round && s'.control == s.control && s'.workers == s.workers && s'.func == s.func
    ensures s'.args == s.args && s'.run == s.run[w := 0] && s'.done == s.done + 1
    ensures s'.pc == s.pc[w := if leave then Compare(s.done + 1) else Asleep]
    ensures s'.all == if !leave && s.done + 1 == s.workers then s.all + 1 else s.all
    ensures forall call :: call in s'.log ==> call in s.log || call.round == s.round
  {
    hide Reach;
    Go(c, s, Work(w));
    var s1 := Next(c, s, Work(w));
    Go(c, s1, Work(w));
    var s2 := Next(c, s1, Work(w));
    Go(c, s2, Work(w));
    s' := Next(c, s2, Work(w));
    if !leave {
      Go(c, s', Work(w));
      s' := Next(c, s', Work(w));
    }
    assert s'.run == s.run[w := 0];
    assert s'.pc == s.pc[w := if leave then Compare(s.done + 1) else Asleep];
  }

  // Everybody asleep, but for the worker that got number `count`, once i have had their turn.
  ghost predicate PcsAre(pc: map<nat, Worker>, stalled: nat, count: nat, i: nat) {
    forall w :: w in pc ==> pc[w] == if 0 < count <= i && w == stalled then Compare(count) else Asleep
  }

  ghost predicate LogBelow(log: seq<Call>, k: nat) {
    forall call :: call in log ==> call.round < k
  }

  lemma OneLessUp(c: Setting, run: map<nat, nat>, width: nat, i: nat)
    requires i < width <= c.threads && RunsAre(c, run, width, width, i) && Slot(c, i, width) in run
    ensures run[Slot(c, i, width)] == 1
    ensures RunsAre(c, run[Slot(c, i, width) := 0], width, width, i + 1)
  {
    ChosenIs(c, width, i);
    ChosenGrows(c, width, width, i);
  }

  lemma NotStalled(c: Setting, pc: map<nat, Worker>, width: nat, count: nat, i: nat)
    requires i < width <= c.threads && count < width && Slot(c, i, width) in pc
    requires PcsAre(pc, Slot(c, if count > 0 then count - 1 else 0, width), count, i)
    ensures pc[Slot(c, i, width)] == Asleep
    ensures PcsAre(pc[Slot(c, i, width) := if count == i + 1 then Compare(i + 1) else Asleep],
                   Slot(c, if count > 0 then count - 1 else 0, width), count, i + 1)
  {
    if 0 < count <= i { SlotsDiffer(c, count - 1, i, width); }
  }

  // All chosen workers have their turn, the one with number `count` only up to its increment.
  lemma WorkThrough(c: Setting, s: System, k: nat, count: nat) returns (s': System)
    requires Fits(c) && Reach(c, s) && s.round == k < |c.plan| && s.control == Wait && Domains(c, s) && Loaded(c, s)
    requires s.done == 0 && s.all == 0 && count < Width(c, k) && LogBelow(s.log, k + 1)
    requires RunsAre(c, s.run, Width(c, k), Width(c, k), 0) && forall w :: w in s.pc ==> s.pc[w] == Asleep
    ensures Reach(c, s') && s'.round == k && s'.control == Wait && Domains(c, s') && s'.all == 1
    ensures RunsAre(c, s'.run, Width(c, k), Width(c, k), Width(c, k)) && LogBelow(s'.log, k + 1)
    ensures PcsAre(s'.pc, Slot(c, if count > 0 then count - 1 else 0, Width(c, k)), count, Width(c, k))
  {
    var width := Width(c, k);
    var stalled := Slot(c, if count > 0 then count - 1 else 0, width);
    assert width <= c.threads;
    s' := s;
    assert PcsAre(s'.pc, stalled, count, 0);
    hide Slot, Reach, RunsAre, PcsAre, Domains, Loaded, LogBelow, Fits;
    var i := 0;
    while i < width
      invariant i <= width && Reach(c, s') && s'.round == k && s'.control == Wait && Domains(c, s') && Loaded(c, s')
      invariant s'.done == i && s'.workers == width && s'.all == (if i == width then 1 else 0)
      invariant LogBelow(s'.log, k + 1)
      invariant RunsAre(c, s'.run, width, width, i) && PcsAre(s'.pc, stalled, count, i)
    {
      s' := OneTurn(c, s', k, count, i);
      i := i + 1;
    }
  }

  lemma LoadedSlot(c: Setting, s: System, i: nat)
    requires s.round < |c.plan| && Loaded(c, s) && i < Width(c, s.round)
    ensures Slot(c, i, Width(c, s.round)) in s.args && s.workers == Width(c, s.round)
  {
    assert HasArg(c, s.round, s.args, i);
  }

  lemma OneTurn(c: Setting, s: System, k: nat, count: nat, i: nat) returns (s': System)
    requires s.round == k < |c.plan| && i < Width(c, k) <= c.threads && count < Width(c, k)
    requires Reach(c, s) && s.control == Wait && Domains(c, s) && Loaded(c, s)
    requires s.done == i && s.all == 0 && LogBelow(s.log, k + 1) && RunsAre(c, s.run, Width(c, k), Width(c, k), i)
    requires PcsAre(s.pc, Slot(c, if count > 0 then count - 1 else 0, Width(c, k)), count, i)
    ensures Reach(c, s') && s'.round == k && s'.control == Wait && Domains(c, s') && Loaded(c, s')
    ensures s'.done == i + 1 && s'.all == (if i + 1 == Width(c, k) then 1 else 0) && LogBelow(s'.log, k + 1)
    ensures RunsAre(c, s'.run, Width(c, k), Width(c, k), i + 1)
    ensures PcsAre(s'.pc, Slot(c, if count > 0 then count - 1 else 0, Width(c, k)), count, i + 1)
  {
    var width := Width(c, k);
    var w := Slot(c, i, width);
    SlotRuns(c, s, i, width);
    OneLessUp(c, s.run, width, i);
    NotStalled(c, s.pc, width, count, i);
    LoadedSlot(c, s, i);
    hide Slot, Reach, RunsAre, PcsAre, Domains, Loaded;
    s' := Turn(c, s, w, count == i + 1);
    LoadedSame(c, s, s');
    DomainsSame(c, s, s');
  }

  // ------------------------------------------------------------------ the schedule

  // Between rounds, with all workers asleep but possibly one, which is about to compare `count` (if that is not 0).
  ghost predicate Calm(c: Setting, s: System, k: nat, stalled: nat, count: nat) {
    && s.round == k <= |c.plan| && s.control == Set && s.all == 0 && Domains(c, s)
    && (forall w :: w in s.run ==> s.run[w] == 0)
    && PcsAre(s.pc, stalled, count, count) && LogBelow(s.log, k)
  }

  // A round in which the worker with number `count`, if that is not 0, is left before its comparison.
  lemma PlayRound(c: Setting, s: System, k: nat, count: nat) returns (s': System)
    requires Fits(c) && Reach(c, s) && k < |c.plan| && Calm(c, s, k, 0, 0) && 0 < Width(c, k) && count < Width(c, k)
    ensures Reach(c, s') && Calm(c, s', k + 1, Slot(c, if count > 0 then count - 1 else 0, Width(c, k)), count)
  {
    var width := Width(c, k);
    var s1 := PostAll(c, s, k);
    assert LogBelow(s1.log, k + 1);
    assert forall w :: w in s1.pc ==> s1.pc[w] == Asleep;
    hide Slot, Reach, Domains, Loaded, LogBelow, RunsAre, PcsAre;
    var s2 := WorkThrough(c, s1, k, count);
    Go(c, s2, Controller);
    s' := Next(c, s2, Controller);
    DomainsSame(c, s2, s');
  }

  // A round without work passes at once.
  lemma PlayEmpty(c: Setting, s: System, k: nat, stalled: nat, count: nat) returns (s': System)
    requires Reach(c, s) && k < |c.plan| && Calm(c, s, k, stalled, count) && Width(c, k) == 0
    ensures Reach(c, s') && Calm(c, s', k + 1, stalled, count)
  {
    Go(c, s, Controller);
    s' := Next(c, s, Controller);
    hide Reach;
    DomainsSame(c, s, s');
  }

  // The controller can get as far as any round, everybody asleep.
  lemma PlayUpTo(c: Setting, k: nat) returns (s: System)
    requires Fits(c) && k <= |c.plan|
    ensures Reach(c, s) && Calm(c, s, k, 0, 0)
  {
    s := Start(c);
    InitHolds(c, s);
    assert Calm(c, s, 0, 0, 0);
    hide Reach, Calm, Fits, Init;
    var i := 0;
    while i < k
      invariant i <= k && Reach(c, s) && Calm(c, s, i, 0, 0)
    {
      if Width(c, i) == 0 {
        s := PlayEmpty(c, s, i, 0, 0);
      } else {
        s := PlayRound(c, s, i, 0);
      }
      i := i + 1;
    }
  }

  // The last round with work before k, and none between.
  lemma {:induction false} LastWork(c: Setting, k: nat) returns (r: nat)
    requires k <= |c.plan| && Before(c, k) > 0
    ensures r < k && Width(c, r) == Before(c, k)
    ensures forall i :: r < i < k ==> Width(c, i) == 0
    decreases k
  {
    if Width(c, k - 1) == 0 { r := LastWork(c, k - 1); } else { r := k - 1; }
  }

  // The worker that is left behind in the wider round lets the controller pass the narrower one too early.
  lemma PassEarly(c: Setting, s: System, k: nat, stalled: nat) returns (s': System)
    requires Fits(c) && Reach(c, s) && k < |c.plan| && 0 < Width(c, k) && Calm(c, s, k, stalled, Width(c, k))
    requires stalled < c.threads
    ensures Reach(c, s') && s'.control == Set && s'.round == k + 1 && LogBelow(s'.log, k)
  {
    var s1 := PostAll(c, s, k);
    assert stalled in s1.pc && s1.pc[stalled] == Compare(Width(c, k));
    assert stalled in s1.run;
    hide Reach, Domains, Loaded, LogBelow, RunsAre, PcsAre;
    Go(c, s1, Work(stalled));
    var s2 := Next(c, s1, Work(stalled));
    Go(c, s2, Controller);
    s' := Next(c, s2, Controller);
  }

  lemma RoundMissed(c: Setting, s: System, k: nat)
    requires Fits(c) && k < |c.plan| && 0 < Width(c, k) && s.round == k + 1 && LogBelow(s.log, k)
    ensures !RoundsDone(c, s)
  {
    var call := Call(k, Slot(c, 0, Width(c, k)), c.plan[k].func, c.plan[k].args[0]);
    assert Planned(c, call) && call !in s.log;
  }

  // If round k has work, but less than the last round with work before, a run leaves it undone.
  lemma Shrinks(c: Setting, k: nat) returns (s: System)
    requires Fits(c) && k < |c.plan| && 0 < Width(c, k) < Before(c, k)
    ensures Reach(c, s) && s.control == Set && !RoundsDone(c, s)
  {
    var r := LastWork(c, k);
    var count := Width(c, k);
    var stalled := Slot(c, count - 1, Width(c, r));
    SlotExists(c, count - 1, Width(c, r));
    s := PlayUpTo(c, r);
    hide Reach, Calm, RoundsDone, LogBelow;
    s := PlayRound(c, s, r, count);
    var i := r + 1;
    while i < k
      invariant r < i <= k && Reach(c, s) && Calm(c, s, i, stalled, count)
    {
      s := PlayEmpty(c, s, i, stalled, count);
      i := i + 1;
    }
    s := PassEarly(c, s, k, stalled);
    RoundMissed(c, s, k);
  }

  // Whatever the interleaving, the controller is between two rounds only when the earlier ones are done.
  ghost predicate IsBarrier(c: Setting) {
    forall s :: Reach(c, s) && s.control == Set ==> RoundsDone(c, s)
  }

  // The pool is a barrier exactly for plans in which no round with work is narrower than the one before.
  lemma BarrierExactly(c: Setting)
    requires Fits(c)
    ensures IsBarrier(c) <==> Growing(c, |c.plan|)
  {
    hide RoundsDone, Init;
    if Growing(c, |c.plan|) {
      forall s | Reach(c, s) && s.control == Set
        ensures RoundsDone(c, s)
      {
        var ss, steps :| Run(c, ss, steps) && ss[|steps|] == s;
        Barrier(c, ss, steps, |steps|);
      }
    } else {
      var k :| 0 <= k < |c.plan| && Width(c, k) != 0 && Before(c, k) > Width(c, k);
      var s := Shrinks(c, k);
    }
  }
}
