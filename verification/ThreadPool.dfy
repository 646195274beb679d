/** The barrier of the thread pools (thread_pool.cpp:83-165, tpool.c:136-191 and 241-281): the controller hands a round
    of work to some of the workers and sleeps until the last of them posts `sem_all_workers_done`. A worker that has
    incremented `num_workers_done` compares the number it got with `num_workers` in a later step, which may come when
    the controller is already rounds ahead. */
module ThreadPool {
  // One round: set(func, args, |args|), begin(), wait().
  datatype Round = Round(func: nat, args: seq<nat>)

  // `spread` distinguishes thread_pool.cpp, which spreads the work over the workers, from tpool.c.
  datatype Setting = Setting(threads: nat, spread: bool, plan: seq<Round>)

  function Width(c: Setting, k: nat): nat
    requires k < |c.plan|
  {
    |c.plan[k].args|
  }

  // The worker that gets argument i of a round of `width` arguments.
  function Slot(c: Setting, i: nat, width: nat): nat
    requires width > 0
  {
    if c.spread then i * c.threads / width else i
  }

  ghost predicate Fits(c: Setting) {
    forall k :: 0 <= k < |c.plan| ==> |c.plan[k].args| <= c.threads
  }

  datatype Control = Set | Clear | Post(i: nat) | Wait

  datatype Worker = Asleep | Taken | Called | Compare(count: nat)

  // `func`, `args`, `workers` and `done` are fields of the pool; `run` and `all` count the semaphores. The log records
  // the calls that workers have made, and `finished` the workers that have incremented `done` in this round.
  datatype Call = Call(round: nat, worker: nat, func: nat, arg: nat)
  datatype System = System(
    round: nat, control: Control, func: nat, args: map<nat, nat>, workers: nat, done: nat, all: nat,
    run: map<nat, nat>, pc: map<nat, Worker>, log: seq<Call>, finished: set<nat>)

  predicate Index(c: Setting, w: nat) {
    w < c.threads
  }

  ghost predicate Init(c: Setting, s: System) {
    && s.round == 0 && s.control == Set && s.workers == c.threads && s.all == 0 && s.log == [] && s.finished == {}
    && (forall w: nat {:trigger Index(c, w)} :: Index(c, w) <==> w in s.pc)
    && (forall w: nat {:trigger Index(c, w)} :: Index(c, w) <==> w in s.run)
    && (forall w :: w in s.pc ==> s.pc[w] == Asleep) && (forall w :: w in s.run ==> s.run[w] == 0)
  }

  datatype Step = Controller | Work(w: nat)

  // The arguments after set: args[j] = args[i] for every i.
  function Assign(c: Setting, args: map<nat, nat>, new': seq<nat>, i: nat): map<nat, nat>
    requires i <= |new'|
  {
    if i == 0 then args else Assign(c, args, new', i - 1)[Slot(c, i - 1, |new'|) := new'[i - 1]]
  }

  predicate Enabled(c: Setting, s: System, step: Step) {
    match step
    case Controller =>
      s.round < |c.plan| && (s.control == Wait ==> s.all > 0)
      && (s.control.Post? ==> s.control.i < Width(c, s.round) && Slot(c, s.control.i, Width(c, s.round)) in s.run)
    case Work(w) =>
      w in s.pc && w in s.run && (s.pc[w] == Asleep ==> s.run[w] > 0) && (s.pc[w] == Taken ==> w in s.args)
  }

  function ControllerStep(c: Setting, s: System): System
    requires Enabled(c, s, Controller)
  {
    var r := c.plan[s.round];
    match s.control
    case Set =>
      var s' := s.(func := r.func, workers := |r.args|, args := Assign(c, s.args, r.args, |r.args|));
      if |r.args| == 0 then s'.(round := s.round + 1) else s'.(control := Clear)
    case Clear => s.(done := 0, control := Post(0), finished := {})
    case Post(i) =>
      var j := Slot(c, i, |r.args|);
      s.(run := s.run[j := s.run[j] + 1], control := if i + 1 < |r.args| then Post(i + 1) else Wait)
    case Wait => s.(all := s.all - 1, round := s.round + 1, control := Set)
  }

  function WorkerStep(c: Setting, s: System, w: nat): System
    requires Enabled(c, s, Work(w))
  {
    match s.pc[w]
    case Asleep => s.(run := s.run[w := s.run[w] - 1], pc := s.pc[w := Taken])
    case Taken => s.(log := s.log + [Call(s.round, w, s.func, s.args[w])], pc := s.pc[w := Called])
    case Called => s.(done := s.done + 1, pc := s.pc[w := Compare(s.done + 1)], finished := s.finished + {w})
    case Compare(n) => s.(all := if n == s.workers then s.all + 1 else s.all, pc := s.pc[w := Asleep])
  }

  function Next(c: Setting, s: System, step: Step): System
    requires Enabled(c, s, step)
  {
    match step
    case Controller => ControllerStep(c, s)
    case Work(w) => WorkerStep(c, s, w)
  }

  ghost predicate Run(c: Setting, ss: seq<System>, steps: seq<Step>) {
    && |ss| == |steps| + 1 && Init(c, ss[0])
    && forall k :: 0 <= k < |steps| ==> Enabled(c, ss[k], steps[k]) && ss[k + 1] == Next(c, ss[k], steps[k])
  }

  // ------------------------------------------------------------------ the choice of workers

  lemma MulDivLess(i: nat, t: nat, w: nat)
    requires i < w && t > 0
    ensures i * t / w < t
  {
    assert i * t < w * t;
  }

  lemma MulMonotone(w: nat, a: nat, b: nat)
    requires a <= b
    ensures w * a <= w * b
  {
  }

  lemma ProductGap(i: nat, j: nat, t: nat)
    requires i < j
    ensures i * t + t <= j * t
  {
    assert (i + 1) * t == i * t + t;
    MulMonotone(t, i + 1, j);
  }

  lemma QuotientGap(x: nat, y: nat, w: nat)
    requires w > 0 && x + w <= y
    ensures x / w < y / w
  {
    var a, q := x / w, y / w;
    assert x == w * a + x % w && y == w * q + y % w;
    if q <= a { MulMonotone(w, q, a); }
  }

  // i * threads / width picks different workers, all of them existing.
  lemma SlotsDiffer(c: Setting, i: nat, j: nat, width: nat)
    requires i < j < width <= c.threads
    ensures Slot(c, i, width) < Slot(c, j, width)
  {
    if c.spread {
      ProductGap(i, j, c.threads);
      QuotientGap(i * c.threads, j * c.threads, width);
    }
  }

  // What the formula spreads: argument i of thread_pool.cpp goes to the worker that is as far along all workers,
  // rounded down, as i is along the arguments; so the distances differ by one at most. In tpool.c it goes to worker i.
  lemma SlotsSpread(c: Setting, i: nat, width: nat)
    requires i < width
    ensures !c.spread ==> Slot(c, i, width) == i
    ensures c.spread ==> width * Slot(c, i, width) <= i * c.threads < width * Slot(c, i, width) + width
    ensures c.spread ==> Slot(c, 0, width) == 0 && (width == c.threads ==> Slot(c, i, width) == i)
    ensures c.spread ==> var gap := Slot(c, i + 1, width) - Slot(c, i, width);
                         c.threads / width <= gap <= c.threads / width + 1
  {
    if c.spread {
      assert (i + 1) * c.threads == i * c.threads + c.threads;
      DivSum(i * c.threads, c.threads, width);
      if width == c.threads { DivExact(i * width, i, width); }
    }
  }

  lemma DivExact(x: nat, i: nat, w: nat)
    requires w > 0 && x == i * w
    ensures x / w == i
  {
    var q := x / w;
    assert x == w * q + x % w;
    if q < i { MulMonotone(w, q + 1, i); }
    if i < q { MulMonotone(w, i + 1, q); }
  }

  lemma DivIs(x: nat, w: nat)
    requires w > 0
    ensures w * (x / w) <= x < w * (x / w) + w
  {
  }

  lemma Distribute(w: nat, a: nat, b: nat)
    ensures w * (a + b) == w * a + w * b && w * (a + b + 1) == w * a + w * b + w
  {
  }

  lemma DivBetween(x: nat, w: nat, low: nat, most: nat)
    requires w > 0 && w * low <= x < w * most + w
    ensures low <= x / w <= most
  {
    DivIs(x, w);
    var q := x / w;
    if q < low { MulMonotone(w, q + 1, low); Distribute(w, q, 0); }
    if q > most { MulMonotone(w, most + 1, q); Distribute(w, most, 0); }
  }

  lemma DivSum(x: nat, t: nat, w: nat)
    requires w > 0
    ensures w * (x / w) <= x < w * (x / w) + w
    ensures x / w + t / w <= (x + t) / w <= x / w + t / w + 1
  {
    DivIs(x, w);
    DivIs(t, w);
    Distribute(w, x / w, t / w);
    DivBetween(x + t, w, x / w + t / w, x / w + t / w + 1);
  }

  lemma SlotExists(c: Setting, i: nat, width: nat)
    requires i < width <= c.threads
    ensures Slot(c, i, width) < c.threads
  {
    if c.spread { MulDivLess(i, c.threads, width); }
  }

  // The workers of the first p arguments.
  function Chosen(c: Setting, width: nat, p: nat): set<nat>
    requires p <= width
  {
    if p == 0 then {} else Chosen(c, width, p - 1) + {Slot(c, p - 1, width)}
  }

  lemma {:induction false} ChosenIs(c: Setting, width: nat, p: nat)
    requires p <= width <= c.threads
    ensures |Chosen(c, width, p)| == p
    ensures forall w :: w in Chosen(c, width, p) ==> w < c.threads
    ensures forall i :: p <= i < width ==> Slot(c, i, width) !in Chosen(c, width, p)
  {
    if p > 0 {
      ChosenIs(c, width, p - 1);
      SlotExists(c, p - 1, width);
      forall i | p <= i < width
        ensures Slot(c, i, width) != Slot(c, p - 1, width)
      {
        SlotsDiffer(c, p - 1, i, width);
      }
    }
  }

  lemma {:induction false} ChosenGrows(c: Setting, width: nat, p: nat, i: nat)
    requires i < p <= width
    ensures Slot(c, i, width) in Chosen(c, width, p)
  {
    if i < p - 1 { ChosenGrows(c, width, p - 1, i); }
  }

  lemma {:induction false} ChosenFrom(c: Setting, width: nat, p: nat, w: nat) returns (i: nat)
    requires p <= width && w in Chosen(c, width, p)
    ensures i < p && Slot(c, i, width) == w
  {
    if w in Chosen(c, width, p - 1) { i := ChosenFrom(c, width, p - 1, w); } else { i := p - 1; }
  }

  // ------------------------------------------------------------------ rounds that do not shrink

  // The width of the last round before k that had any work.
  function Before(c: Setting, k: nat): nat
    requires k <= |c.plan|
  {
    if k == 0 then 0 else if Width(c, k - 1) == 0 then Before(c, k - 1) else Width(c, k - 1)
  }

  // Among the first n rounds, one with work is never narrower than the one with work before.
  predicate Growing(c: Setting, n: nat)
    requires n <= |c.plan|
  {
    forall k :: 0 <= k < n ==> Width(c, k) == 0 || Before(c, k) <= Width(c, k)
  }

  // Not in this round: asleep, or about to compare a number below the bound.
  predicate Idle(pc: Worker, bound: nat) {
    pc == Asleep || (pc.Compare? && 0 < pc.count < bound)
  }

  predicate WorkerOk(run: nat, pc: Worker, posted: bool, finished: bool, width: nat) {
    if finished then posted && run == 0 && (Idle(pc, width) || pc == Compare(width))
    else if posted then (run == 1 && Idle(pc, width)) || (run == 0 && (pc == Taken || pc == Called))
    else run == 0 && Idle(pc, width)
  }

  ghost predicate Domains(c: Setting, s: System) {
    && (forall w: nat {:trigger w in s.pc} :: w < c.threads <==> w in s.pc)
    && (forall w: nat {:trigger w in s.run} :: w < c.threads <==> w in s.run)
  }

  // Between rounds: every worker is idle, no semaphore is up.
  ghost predicate Between(c: Setting, s: System, bound: nat) {
    && s.all == 0
    && forall w :: w in s.pc && w in s.run ==> s.run[w] == 0 && Idle(s.pc[w], bound)
  }

  // The last worker of the round is about to post, or has posted.
  ghost predicate LastOk(s: System, width: nat) {
    && s.all <= 1 && |s.finished| <= width
    && (s.all == 1 ==> |s.finished| == width)
    && (forall w :: w in s.pc && s.pc[w] == Compare(width) ==> |s.finished| == width && s.all == 0)
    && (forall w, v :: w in s.pc && v in s.pc && s.pc[w] == Compare(width) && s.pc[v] == Compare(width) ==> w == v)
  }

  ghost predicate During(c: Setting, s: System, width: nat, p: nat)
    requires p <= width
  {
    && s.workers == width && s.done == |s.finished| && LastOk(s, width)
    && s.finished <= Chosen(c, width, p)
    && (forall w :: w in s.pc && w in s.run ==>
          WorkerOk(s.run[w], s.pc[w], w in Chosen(c, width, p), w in s.finished, width))
  }

  predicate HasArg(c: Setting, k: nat, args: map<nat, nat>, i: nat)
    requires k < |c.plan| && i < Width(c, k)
  {
    Slot(c, i, Width(c, k)) in args && args[Slot(c, i, Width(c, k))] == c.plan[k].args[i]
  }

  // The pool's fields hold the work of the round.
  ghost predicate Loaded(c: Setting, s: System)
    requires s.round < |c.plan|
  {
    && s.func == c.plan[s.round].func && s.workers == Width(c, s.round) > 0
    && (forall i: nat {:trigger HasArg(c, s.round, s.args, i)} ::
          i < Width(c, s.round) ==> HasArg(c, s.round, s.args, i))
  }

  ghost predicate Shape(c: Setting, s: System) {
    && s.round <= |c.plan| && Domains(c, s)
    && (s.round == |c.plan| ==> s.control == Set)
    && match s.control
       case Set => Between(c, s, Before(c, s.round)) && (s.workers == 0 || s.workers >= Before(c, s.round))
       case Clear => Loaded(c, s) && Between(c, s, Width(c, s.round))
       case Post(i) => Loaded(c, s) && i < Width(c, s.round) && During(c, s, Width(c, s.round), i)
       case Wait => Loaded(c, s) && During(c, s, Width(c, s.round), Width(c, s.round))
  }

  // A call that the plan asks for.
  ghost predicate Planned(c: Setting, call: Call) {
    && call.round < |c.plan| && call.func == c.plan[call.round].func
    && exists i {:trigger c.plan[call.round].args[i]} ::
         0 <= i < Width(c, call.round) && call.worker == Slot(c, i, Width(c, call.round))
         && call.arg == c.plan[call.round].args[i]
  }

  // A call that has been made: all of the past rounds, and those of workers that got so far in this one.
  predicate Made(s: System, call: Call) {
    call.round < s.round
    || (call.round == s.round && (s.control.Post? || s.control.Wait?)
        && (call.worker in s.finished || (call.worker in s.pc && s.pc[call.worker] == Called)))
  }

  ghost predicate LogOk(c: Setting, s: System) {
    && (forall i, j :: 0 <= i < j < |s.log| ==> s.log[i] != s.log[j])
    && (forall call :: call in s.log <==> Planned(c, call) && Made(s, call))
  }

  ghost predicate Inv(c: Setting, s: System) {
    Shape(c, s) && LogOk(c, s)
  }

  // ------------------------------------------------------------------ one step keeps the invariant

  function Goto(s: System, w: nat, pc: Worker): System {
    s.(pc := s.pc[w := pc])
  }

  lemma BetweenCompare(c: Setting, s: System, bound: nat, w: nat)
    requires Between(c, s, bound) && w in s.pc && w in s.run && s.pc[w].Compare?
    requires (s.workers == 0 || s.workers >= bound)
    ensures s.pc[w].count != s.workers && Between(c, Goto(s, w, Asleep), bound)
  {
    assert s.run[w] == 0;
  }

  lemma OtherCompare(c: Setting, s: System, width: nat, w: nat)
    requires LastOk(s, width) && w in s.pc && s.pc[w] != Compare(width)
    ensures LastOk(Goto(s, w, Asleep), width)
  {
  }

  lemma DuringCompare(c: Setting, s: System, width: nat, p: nat, w: nat)
    requires p <= width && Domains(c, s) && During(c, s, width, p) && w in s.pc && s.pc[w].Compare?
    ensures var s' := Goto(s, w, Asleep).(all := if s.pc[w].count == s.workers then s.all + 1 else s.all);
            During(c, s', width, p)
  {
    assert w in s.run;
    hide LastOk, Chosen;
    if s.pc[w].count != width { OtherCompare(c, s, width, w); }
  }

  lemma DuringTake(c: Setting, s: System, width: nat, p: nat, w: nat)
    requires p <= width && During(c, s, width, p) && w in s.pc && w in s.run && s.pc[w] == Asleep && s.run[w] > 0
    ensures During(c, Goto(s, w, Taken).(run := s.run[w := s.run[w] - 1]), width, p)
    ensures w in Chosen(c, width, p) && w !in s.finished
  {
  }

  lemma DuringCall(c: Setting, s: System, width: nat, p: nat, w: nat, log: seq<Call>)
    requires p <= width && During(c, s, width, p) && w in s.pc && w in s.run && s.pc[w] == Taken
    ensures During(c, Goto(s, w, Called).(log := log), width, p) && w in Chosen(c, width, p) && w !in s.finished
  {
  }

  lemma Smaller(a: set<nat>, b: set<nat>, w: nat)
    requires a <= b && w in b && w !in a
    ensures |a| < |b|
  {
    var rest := b - a;
    assert w in rest && b == a + rest && |b| == |a| + |rest|;
  }

  lemma DuringFinish(c: Setting, s: System, width: nat, p: nat, w: nat)
    requires p <= width <= c.threads && During(c, s, width, p) && w in s.pc && w in s.run && s.pc[w] == Called
    ensures w in Chosen(c, width, p) && w !in s.finished && |s.finished| < p
    ensures During(c, Goto(s, w, Compare(s.done + 1)).(done := s.done + 1, finished := s.finished + {w}), width, p)
  {
    ChosenIs(c, width, p);
    Smaller(s.finished, Chosen(c, width, p), w);
    LastFinish(s, width, w);
    hide Chosen, LastOk;
  }

  lemma LastFinish(s: System, width: nat, w: nat)
    requires LastOk(s, width) && w in s.pc && s.pc[w] == Called && w !in s.finished
    requires s.done == |s.finished| < width
    ensures LastOk(Goto(s, w, Compare(s.done + 1)).(done := s.done + 1, finished := s.finished + {w}), width)
  {
  }

  lemma DuringPost(c: Setting, s: System, width: nat, p: nat)
    requires p < width <= c.threads && Domains(c, s) && During(c, s, width, p)
    ensures var j := Slot(c, p, width);
            j in s.run && During(c, s.(run := s.run[j := s.run[j] + 1]), width, p + 1)
  {
    SlotExists(c, p, width);
    ChosenIs(c, width, p);
    var j := Slot(c, p, width);
    assert j in s.run && j in s.pc && j !in Chosen(c, width, p);
    ChosenOneMore(c, width, p);
    hide Slot, Chosen, LastOk;
  }

  lemma ChosenOneMore(c: Setting, width: nat, p: nat)
    requires p < width
    ensures Chosen(c, width, p + 1) == Chosen(c, width, p) + {Slot(c, p, width)}
  {
  }

  // The controller wakes up only when every chosen worker has finished.
  lemma DuringEnd(c: Setting, s: System, width: nat)
    requires width <= c.threads && Domains(c, s) && During(c, s, width, width) && s.all > 0
    ensures s.finished == Chosen(c, width, width) && Between(c, s.(all := s.all - 1), width)
  {
    ChosenIs(c, width, width);
    SameSet(s.finished, Chosen(c, width, width));
    forall w | w in s.pc && w in s.run
      ensures s.run[w] == 0 && Idle(s.pc[w], width)
    {
    }
  }

  lemma SameSet(a: set<nat>, b: set<nat>)
    requires a <= b && |a| == |b|
    ensures a == b
  {
    if w :| w in b && w !in a { Smaller(a, b, w); }
  }

  lemma {:induction false} AssignAt(c: Setting, args: map<nat, nat>, new': seq<nat>, n: nat, i: nat)
    requires i < n <= |new'| <= c.threads
    ensures var j := Slot(c, i, |new'|); j in Assign(c, args, new', n) && Assign(c, args, new', n)[j] == new'[i]
  {
    if i < n - 1 {
      AssignAt(c, args, new', n - 1, i);
      SlotsDiffer(c, i, n - 1, |new'|);
    }
  }

  lemma LogSame(c: Setting, s: System, s': System)
    requires LogOk(c, s) && s'.log == s.log
    requires forall call :: Planned(c, call) ==> (Made(s, call) <==> Made(s', call))
    ensures LogOk(c, s')
  {
    hide Planned, Made;
  }

  // A worker's next call is the one planned for it, and it has not been made before.
  lemma LogCall(c: Setting, s: System, w: nat)
    requires LogOk(c, s) && s.round < |c.plan| && Loaded(c, s) && (s.control.Post? || s.control.Wait?)
    requires w in s.pc && s.pc[w] == Taken && w !in s.finished && Width(c, s.round) <= c.threads
    requires w in Chosen(c, Width(c, s.round), Width(c, s.round))
    ensures w in s.args
    ensures LogOk(c, Goto(s, w, Called).(log := s.log + [Call(s.round, w, s.func, s.args[w])]))
  {
    var width := Width(c, s.round);
    var i := ChosenFrom(c, width, width, w);
    assert HasArg(c, s.round, s.args, i);
    var new' := Call(s.round, w, s.func, s.args[w]);
    var s' := Goto(s, w, Called).(log := s.log + [new']);
    assert Planned(c, new') && !Made(s, new');
    forall call
      ensures call in s'.log <==> Planned(c, call) && Made(s', call)
    {
      if call.round == s.round && call.worker == w && Planned(c, call) { OnlyOne(c, call, new'); }
    }
    hide Planned, Made;
  }

  lemma OnlyOne(c: Setting, a: Call, b: Call)
    requires Planned(c, a) && Planned(c, b) && a.round == b.round && a.worker == b.worker
    requires Width(c, a.round) <= c.threads
    ensures a == b
  {
    var width := Width(c, a.round);
    var i :| 0 <= i < width && a.worker == Slot(c, i, width) && a.arg == c.plan[a.round].args[i];
    var j :| 0 <= j < width && b.worker == Slot(c, j, width) && b.arg == c.plan[b.round].args[j];
    if i < j { SlotsDiffer(c, i, j, width); }
    if j < i { SlotsDiffer(c, j, i, width); }
  }

  // When a round ends, the calls planned for it have been made.
  lemma LogEnd(c: Setting, s: System)
    requires LogOk(c, s) && s.control == Wait && s.round < |c.plan|
    requires s.finished == Chosen(c, Width(c, s.round), Width(c, s.round))
    ensures LogOk(c, s.(round := s.round + 1, control := Set, all := if s.all > 0 then s.all - 1 else 0))
  {
    var s' := s.(round := s.round + 1, control := Set, all := if s.all > 0 then s.all - 1 else 0);
    forall call | Planned(c, call)
      ensures Made(s, call) <==> Made(s', call)
    {
      if call.round == s.round {
        var width := Width(c, s.round);
        var i :| 0 <= i < width && call.worker == Slot(c, i, width) && call.arg == c.plan[s.round].args[i];
        ChosenGrows(c, width, width, i);
      }
    }
    LogSame(c, s, s');
  }

  lemma CompareKeeps(c: Setting, s: System, w: nat)
    requires Inv(c, s) && Fits(c) && Enabled(c, s, Work(w)) && s.pc[w].Compare?
    ensures Inv(c, Next(c, s, Work(w)))
  {
    assert s.control == Clear ==> s.workers == Width(c, s.round);
    hide Between, During, Loaded, LogOk, Domains;
    var s' := Next(c, s, Work(w));
    match s.control {
      case Set => BetweenCompare(c, s, Before(c, s.round), w);
      case Clear => LoadedSame(c, s, s'); BetweenCompare(c, s, Width(c, s.round), w);
      case Post(i) => LoadedSame(c, s, s'); DuringCompare(c, s, Width(c, s.round), i, w);
      case Wait => LoadedSame(c, s, s'); DuringCompare(c, s, Width(c, s.round), Width(c, s.round), w);
    }
    DomainsSame(c, s, s');
    LogSame(c, s, s');
  }

  lemma LoadedSame(c: Setting, s: System, s': System)
    requires s.round < |c.plan| && Loaded(c, s)
    requires s'.round == s.round && s'.func == s.func && s'.args == s.args && s'.workers == s.workers
    ensures Loaded(c, s')
  {
  }

  lemma DomainsSame(c: Setting, s: System, s': System)
    requires Domains(c, s) && s'.pc.Keys == s.pc.Keys && s'.run.Keys == s.run.Keys
    ensures Domains(c, s')
  {
    assert forall w :: w in s'.pc <==> w in s'.pc.Keys;
    assert forall w :: w in s'.run <==> w in s'.run.Keys;
    assert forall w :: w in s.pc <==> w in s.pc.Keys;
    assert forall w :: w in s.run <==> w in s.run.Keys;
  }

  // A worker that is awake or has been posted: the round is under way.
  lemma UnderWay(c: Setting, s: System, w: nat) returns (p: nat)
    requires Inv(c, s) && Fits(c) && w in s.pc && w in s.run
    requires s.pc[w] == Taken || s.pc[w] == Called || (s.pc[w] == Asleep && s.run[w] > 0)
    ensures s.round < |c.plan| && p <= Width(c, s.round) <= c.threads
    ensures s.control == (if p < Width(c, s.round) then Post(p) else Wait)
    ensures Loaded(c, s) && During(c, s, Width(c, s.round), p) && Domains(c, s) && LogOk(c, s)
  {
    hide During, Loaded, LogOk, Domains;
    p := if s.control.Post? then s.control.i else Width(c, s.round);
  }

  lemma ChosenMore(c: Setting, width: nat, p: nat, w: nat)
    requires p <= width && w in Chosen(c, width, p)
    ensures w in Chosen(c, width, width)
  {
    var i := ChosenFrom(c, width, p, w);
    ChosenGrows(c, width, width, i);
  }

  lemma ShapeIs(c: Setting, s: System, p: nat)
    requires s.round < |c.plan| && p <= Width(c, s.round)
    requires s.control == if p < Width(c, s.round) then Post(p) else Wait
    requires Loaded(c, s) && During(c, s, Width(c, s.round), p) && Domains(c, s)
    ensures Shape(c, s)
  {
    hide Loaded, During, Domains;
  }

  // The three steps of a worker up to its increment.
  lemma TakeKeeps(c: Setting, s: System, w: nat)
    requires Inv(c, s) && Fits(c) && Enabled(c, s, Work(w)) && s.pc[w] == Asleep
    ensures Inv(c, Next(c, s, Work(w)))
  {
    hide Between, During, Loaded, LogOk, Domains, Chosen, Shape, Planned;
    var p := UnderWay(c, s, w);
    var s' := Next(c, s, Work(w));
    DuringTake(c, s, Width(c, s.round), p, w);
    LoadedSame(c, s, s');
    DomainsSame(c, s, s');
    ShapeIs(c, s', p);
    LogSame(c, s, s');
  }

  lemma CallKeeps(c: Setting, s: System, w: nat)
    requires Inv(c, s) && Fits(c) && Enabled(c, s, Work(w)) && s.pc[w] == Taken
    ensures Inv(c, Next(c, s, Work(w)))
  {
    var p := UnderWay(c, s, w);
    hide Between, During, Loaded, LogOk, Domains, Chosen, Shape, Planned, Made;
    var s' := Next(c, s, Work(w));
    DuringCall(c, s, Width(c, s.round), p, w, s'.log);
    ChosenMore(c, Width(c, s.round), p, w);
    LogCall(c, s, w);
    LoadedSame(c, s, s');
    DomainsSame(c, s, s');
    ShapeIs(c, s', p);
  }

  lemma FinishKeeps(c: Setting, s: System, w: nat)
    requires Inv(c, s) && Fits(c) && Enabled(c, s, Work(w)) && s.pc[w] == Called
    ensures Inv(c, Next(c, s, Work(w)))
  {
    hide Between, During, Loaded, LogOk, Domains, Chosen, Shape, Planned;
    var p := UnderWay(c, s, w);
    var s' := Next(c, s, Work(w));
    DuringFinish(c, s, Width(c, s.round), p, w);
    LoadedSame(c, s, s');
    DomainsSame(c, s, s');
    ShapeIs(c, s', p);
    LogSame(c, s, s');
  }

  lemma WorkKeeps(c: Setting, s: System, w: nat)
    requires Inv(c, s) && Fits(c) && Enabled(c, s, Work(w))
    ensures Inv(c, Next(c, s, Work(w)))
  {
    hide Inv, Next, Fits;
    match s.pc[w]
    case Asleep => TakeKeeps(c, s, w);
    case Taken => CallKeeps(c, s, w);
    case Called => FinishKeeps(c, s, w);
    case Compare(_) => CompareKeeps(c, s, w);
  }

  lemma SetKeeps(c: Setting, s: System)
    requires Inv(c, s) && Fits(c) && Enabled(c, s, Controller) && s.control == Set && Growing(c, |c.plan|)
    ensures Inv(c, Next(c, s, Controller))
  {
    var s' := Next(c, s, Controller);
    var width := Width(c, s.round);
    assert width <= c.threads && (width > 0 ==> Before(c, s.round) <= width);
    NoWork(c, s.round);
    if width > 0 { SetLoads(c, s); }
    hide During, LogOk, Domains, Slot, Planned, Between, Loaded;
    DomainsSame(c, s, s');
    LogSame(c, s, s');
  }

  lemma SetLoads(c: Setting, s: System)
    requires Fits(c) && Enabled(c, s, Controller) && s.control == Set && Width(c, s.round) > 0
    ensures Loaded(c, Next(c, s, Controller))
  {
    var s' := Next(c, s, Controller);
    forall i: nat {:trigger HasArg(c, s.round, s'.args, i)} | i < Width(c, s.round)
      ensures HasArg(c, s.round, s'.args, i)
    {
      AssignAt(c, s.args, c.plan[s.round].args, Width(c, s.round), i);
    }
  }

  lemma BetweenMore(c: Setting, s: System, s': System, bound: nat, bound': nat)
    requires Between(c, s, bound) && bound <= bound' && s'.run == s.run && s'.pc == s.pc && s'.all == s.all
    ensures Between(c, s', bound')
  {
  }

  lemma NoWork(c: Setting, k: nat)
    requires k < |c.plan|
    ensures Width(c, k) == 0 ==> forall call :: Planned(c, call) ==> call.round != k
  {
  }

  lemma ClearKeeps(c: Setting, s: System)
    requires Inv(c, s) && Fits(c) && Enabled(c, s, Controller) && s.control == Clear
    ensures Inv(c, Next(c, s, Controller))
  {
    var s' := Next(c, s, Controller);
    forall w | w in s.pc
      ensures s.pc[w] != Called
    {
      assert w in s.run;
    }
    hide Between, During, Loaded, LogOk, Planned;
    LoadedSame(c, s, s');
    LogSame(c, s, s');
  }

  lemma PostKeeps(c: Setting, s: System)
    requires Inv(c, s) && Fits(c) && Enabled(c, s, Controller) && s.control.Post?
    ensures Inv(c, Next(c, s, Controller))
  {
    hide Between, During, Loaded, LogOk, Planned, Slot, Domains;
    var s' := Next(c, s, Controller);
    DuringPost(c, s, Width(c, s.round), s.control.i);
    LoadedSame(c, s, s');
    DomainsSame(c, s, s');
    DuringSame(c, s.(run := s'.run), s', Width(c, s.round), s.control.i + 1);
    LogSame(c, s, s');
  }

  lemma DuringSame(c: Setting, s: System, s': System, width: nat, p: nat)
    requires p <= width && During(c, s, width, p)
    requires s'.workers == s.workers && s'.done == s.done && s'.all == s.all && s'.run == s.run && s'.pc == s.pc
             && s'.finished == s.finished
    ensures During(c, s', width, p)
  {
    hide WorkerOk;
  }

  // What holds when the controller waits.
  lemma AtWait(c: Setting, s: System)
    requires Inv(c, s) && Fits(c) && s.control == Wait
    ensures s.round < |c.plan| && s.workers == Width(c, s.round) == Before(c, s.round + 1) <= c.threads
    ensures Domains(c, s) && LogOk(c, s) && During(c, s, Width(c, s.round), Width(c, s.round))
  {
    hide During, LogOk, Domains;
  }

  lemma WaitKeeps(c: Setting, s: System)
    requires Inv(c, s) && Fits(c) && Enabled(c, s, Controller) && s.control == Wait
    ensures Inv(c, Next(c, s, Controller))
    ensures s.finished == Chosen(c, Width(c, s.round), Width(c, s.round))
  {
    AtWait(c, s);
    hide Before, During, Loaded, LogOk, Domains, Between;
    var s' := Next(c, s, Controller);
    DuringEnd(c, s, Width(c, s.round));
    BetweenMore(c, s.(all := s.all - 1), s', Width(c, s.round), Width(c, s.round));
    DomainsSame(c, s, s');
    LogEnd(c, s);
  }

  lemma StepKeeps(c: Setting, s: System, step: Step)
    requires Inv(c, s) && Fits(c) && Growing(c, |c.plan|) && Enabled(c, s, step)
    ensures Inv(c, Next(c, s, step))
  {
    hide Inv, Fits, Growing, ControllerStep, WorkerStep;
    match step
    case Work(w) => WorkKeeps(c, s, w);
    case Controller =>
      match s.control
      case Set => SetKeeps(c, s);
      case Clear => ClearKeeps(c, s);
      case Post(_) => PostKeeps(c, s);
      case Wait => WaitKeeps(c, s);
  }

  lemma InitHolds(c: Setting, s: System)
    requires Init(c, s)
    ensures Inv(c, s)
  {
    assert forall w: nat :: Index(c, w) <==> w < c.threads;
    assert forall w: nat :: w in s.pc <==> Index(c, w);
    assert forall w: nat :: w in s.run <==> Index(c, w);
    hide Planned;
  }
}
