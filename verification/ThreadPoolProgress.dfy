/** That the thread pools' rounds end: every run is finite, with a bound that the plan alone gives, and no run stops
    before the last round, whether or not rounds shrink. What a shrinking round costs is the barrier, never the
    progress. */
module ThreadPoolProgress {
  import opened Collections
  import opened ThreadPool
  import opened ThreadPoolRuns

  // ------------------------------------------------------------------ how many steps are left

  // The controller sets, clears, posts each argument and waits, and each post is good for four steps of a worker; a
  // round without work is only set.
  function StepsOf(width: nat): nat {
    if width == 0 then 1 else 3 + 5 * width
  }

  function StepsFrom(c: Setting, k: nat): nat
    requires k <= |c.plan|
    decreases |c.plan| - k
  {
    if k == |c.plan| then 0 else StepsOf(Width(c, k)) + StepsFrom(c, k + 1)
  }

  function OfController(c: Setting, s: System): int
    requires s.round <= |c.plan|
  {
    if s.round == |c.plan| then 0
    else
      var width := Width(c, s.round);
      match s.control
      case Set => StepsFrom(c, s.round)
      case Clear => StepsFrom(c, s.round + 1) + 2 + 5 * width
      case Post(i) => StepsFrom(c, s.round + 1) + 1 + 5 * (width - i)
      case Wait => StepsFrom(c, s.round + 1) + 1
  }

  function OfWorker(s: System): nat -> nat {
    (w: nat) =>
      if w in s.run && w in s.pc then
        4 * s.run[w] + match s.pc[w] case Asleep => 0 case Taken => 3 case Called => 2 case Compare(_) => 1
      else 0
  }

  function Left(c: Setting, s: System): int
    requires s.round <= |c.plan|
  {
    OfController(c, s) + Sum(OfWorker(s), c.threads)
  }

  // What worker w will still add to the counter.
  function Owed(s: System): nat -> nat {
    (w: nat) =>
      if w in s.run && w in s.pc then s.run[w] + if s.pc[w] == Taken || s.pc[w] == Called then 1 else 0 else 0
  }

  // ------------------------------------------------------------------ what holds for every plan

  function Posted(c: Setting, s: System): nat
    requires s.control == Wait ==> s.round < |c.plan|
  {
    match s.control
    case Post(i) => i
    case Wait => Width(c, s.round)
    case _ => 0
  }

  predicate HasWork(s: System, w: nat) {
    w in s.run && w in s.pc && (s.run[w] > 0 || s.pc[w] == Taken) ==> w in s.args
  }

  ghost predicate Sound(c: Setting, s: System) {
    && s.round <= |c.plan| && Domains(c, s) && (s.round == |c.plan| ==> s.control == Set)
    && (s.control != Set ==> s.workers == Width(c, s.round) > 0)
    && (s.control.Post? ==> s.control.i < Width(c, s.round))
  }

  // Each worker finds its argument, and the ones chosen next will.
  ghost predicate Armed(c: Setting, s: System)
    requires s.round <= |c.plan|
  {
    && (forall w {:trigger HasWork(s, w)} :: HasWork(s, w))
    && (s.control != Set && s.round < |c.plan| ==>
          forall i {:trigger Slot(c, i, Width(c, s.round))} ::
            0 <= i < Width(c, s.round) ==> Slot(c, i, Width(c, s.round)) in s.args)
  }

  // No increment of the counter is lost to this round, and the one that completes it has posted or is about to.
  ghost predicate Counted(c: Setting, s: System)
    requires s.control == Wait ==> s.round < |c.plan|
  {
    (s.control.Post? || s.control == Wait) ==>
      && s.done + Sum(Owed(s), c.threads) >= Posted(c, s)
      && (s.done >= s.workers ==> s.all > 0 || exists w :: w in s.pc && s.pc[w] == Compare(s.workers))
  }

  // Only worker w's semaphore and its place have changed.
  lemma OneWorker(c: Setting, s: System, s': System, w: nat)
    requires w < c.threads && w in s.run && w in s'.run && w in s.pc && w in s'.pc
    requires s'.run == s.run[w := s'.run[w]] && s'.pc == s.pc[w := s'.pc[w]]
    ensures Sum(OfWorker(s'), c.threads) - Sum(OfWorker(s), c.threads) == OfWorker(s')(w) - OfWorker(s)(w)
    ensures Sum(Owed(s'), c.threads) - Sum(Owed(s), c.threads) == Owed(s')(w) - Owed(s)(w)
  {
    OneTerm(OfWorker(s), OfWorker(s'), c.threads, w);
    OneTerm(Owed(s), Owed(s'), c.threads, w);
    hide Sum;
  }

  lemma WorkSound(c: Setting, s: System, w: nat)
    requires Sound(c, s) && Enabled(c, s, Work(w))
    ensures Sound(c, Next(c, s, Work(w))) && w < c.threads
  {
    DomainsSame(c, s, Next(c, s, Work(w)));
    assert w < c.threads;
    hide Domains;
  }

  lemma WorkSums(c: Setting, s: System, w: nat)
    requires Sound(c, s) && Enabled(c, s, Work(w))
    ensures Sound(c, Next(c, s, Work(w))) && Left(c, Next(c, s, Work(w))) == Left(c, s) - 1
    ensures Sum(Owed(Next(c, s, Work(w))), c.threads) == Sum(Owed(s), c.threads) - if s.pc[w] == Called then 1 else 0
  {
    WorkSound(c, s, w);
    var s' := Next(c, s, Work(w));
    OwnTerm(c, s, w);
    SameController(c, s, s');
    hide StepsFrom, Sum, Domains, Sound, OfController, WorkerStep, OfWorker, Owed, Enabled;
    OneWorker(c, s, s', w);
  }

  lemma OwnTerm(c: Setting, s: System, w: nat)
    requires Sound(c, s) && Enabled(c, s, Work(w))
    ensures var s' := Next(c, s, Work(w));
            && w in s'.run && w in s'.pc && s'.run == s.run[w := s'.run[w]] && s'.pc == s.pc[w := s'.pc[w]]
            && OfWorker(s')(w) == OfWorker(s)(w) - 1
            && Owed(s')(w) == Owed(s)(w) - (if s.pc[w] == Called then 1 else 0)
            && s'.round == s.round && s'.control == s.control
  {
    hide Domains;
  }

  lemma SameController(c: Setting, s: System, s': System)
    requires s.round <= |c.plan| && s'.round == s.round && s'.control == s.control
    ensures OfController(c, s') == OfController(c, s)
  {
  }

  lemma ControllerSound(c: Setting, s: System)
    requires Sound(c, s) && Enabled(c, s, Controller)
    ensures Sound(c, Next(c, s, Controller))
    ensures s.control.Post? ==> Slot(c, s.control.i, Width(c, s.round)) < c.threads
    ensures s.control.Post? ==> Slot(c, s.control.i, Width(c, s.round)) in s.pc
  {
    DomainsSame(c, s, Next(c, s, Controller));
    if s.control.Post? { assert Slot(c, s.control.i, Width(c, s.round)) < c.threads; }
    hide Slot, Assign;
  }

  lemma ControllerLeft(c: Setting, s: System)
    requires Sound(c, s) && Enabled(c, s, Controller)
    ensures Next(c, s, Controller).round <= |c.plan|
    ensures OfController(c, Next(c, s, Controller)) == OfController(c, s) - if s.control.Post? then 5 else 1
  {
    hide Slot, Assign, Domains;
  }

  lemma ControllerSums(c: Setting, s: System)
    requires Sound(c, s) && Enabled(c, s, Controller)
    ensures Sound(c, Next(c, s, Controller)) && Left(c, Next(c, s, Controller)) == Left(c, s) - 1
    ensures Sum(Owed(Next(c, s, Controller)), c.threads) ==
            Sum(Owed(s), c.threads) + if s.control.Post? then 1 else 0
  {
    ControllerSound(c, s);
    ControllerLeft(c, s);
    var s' := Next(c, s, Controller);
    hide Sum, Slot, Assign, Domains, Sound, OfController;
    if s.control.Post? {
      var w := Slot(c, s.control.i, Width(c, s.round));
      assert s'.run == s.run[w := s'.run[w]] && s'.pc == s.pc[w := s'.pc[w]];
      OneWorker(c, s, s', w);
    } else {
      assert OfWorker(s') == OfWorker(s) && Owed(s') == Owed(s);
    }
  }

  lemma {:induction false} AssignKeeps(c: Setting, args: map<nat, nat>, new': seq<nat>, n: nat)
    requires n <= |new'|
    ensures forall w :: w in args ==> w in Assign(c, args, new', n)
    ensures forall i :: 0 <= i < n ==> Slot(c, i, |new'|) in Assign(c, args, new', n)
  {
    hide Slot;
    if n > 0 { AssignKeeps(c, args, new', n - 1); }
  }

  lemma StaysArmed(c: Setting, s: System, step: Step)
    requires Sound(c, s) && Enabled(c, s, step) && Armed(c, s) && Sound(c, Next(c, s, step))
    ensures Armed(c, Next(c, s, step))
  {
    var s' := Next(c, s, step);
    if step == Controller { AssignKeeps(c, s.args, c.plan[s.round].args, Width(c, s.round)); }
    forall w {:trigger HasWork(s', w)}
      ensures HasWork(s', w)
    {
      assert HasWork(s, w);
    }
    hide Slot, Assign, Domains;
  }

  lemma ControllerCounted(c: Setting, s: System)
    requires Sound(c, s) && Enabled(c, s, Controller) && Counted(c, s)
    ensures Sound(c, Next(c, s, Controller)) && Counted(c, Next(c, s, Controller))
  {
    ControllerSums(c, s);
    hide Sum, Left, Slot, Assign, Domains, Owed;
  }

  lemma WorkCounted(c: Setting, s: System, w: nat)
    requires Sound(c, s) && Enabled(c, s, Work(w)) && Counted(c, s)
    ensures Sound(c, Next(c, s, Work(w))) && Counted(c, Next(c, s, Work(w)))
  {
    WorkSums(c, s, w);
    if s.control.Post? || s.control == Wait { StillPosts(c, s, w); }
    hide Sum, Left, Slot, Domains, Owed;
  }

  lemma StillPosts(c: Setting, s: System, w: nat)
    requires Enabled(c, s, Work(w))
    requires s.done >= s.workers ==> s.all > 0 || exists w :: w in s.pc && s.pc[w] == Compare(s.workers)
    ensures var s' := Next(c, s, Work(w));
            s'.done >= s'.workers ==> s'.all > 0 || exists w :: w in s'.pc && s'.pc[w] == Compare(s'.workers)
  {
    var s' := Next(c, s, Work(w));
    if s.pc[w] == Called && s'.done == s.workers {
      assert w in s'.pc && s'.pc[w] == Compare(s'.workers);
    } else if s.done >= s.workers && s.all == 0 && s'.all == 0 {
      var v :| v in s.pc && s.pc[v] == Compare(s.workers);
      assert v in s'.pc && s'.pc[v] == Compare(s'.workers);
    }
  }

  lemma Beginning(c: Setting, s: System)
    requires Init(c, s)
    ensures Sound(c, s) && Armed(c, s) && Counted(c, s) && Left(c, s) == StepsFrom(c, 0)
  {
    InitHolds(c, s);
    SumZero(OfWorker(s), c.threads);
    hide Sum, StepsFrom, Slot;
  }

  // Every step of every run uses up one of the steps that the plan gives.
  lemma {:induction false} Spent(c: Setting, ss: seq<System>, steps: seq<Step>, k: nat)
    requires Run(c, ss, steps) && k < |ss|
    ensures Sound(c, ss[k]) && Armed(c, ss[k]) && Counted(c, ss[k]) && k + Left(c, ss[k]) == StepsFrom(c, 0)
    decreases k
  {
    if k == 0 {
      Beginning(c, ss[0]);
    } else {
      Spent(c, ss, steps, k - 1);
      var s, step := ss[k - 1], steps[k - 1];
      assert Enabled(c, s, step) && ss[k] == Next(c, s, step);
      hide Left, Next, Enabled, Init, Run, Armed, Counted, Domains;
      match step {
        case Work(w) => WorkSums(c, s, w); WorkCounted(c, s, w);
        case Controller => ControllerSums(c, s); ControllerCounted(c, s);
      }
      StaysArmed(c, s, step);
    }
  }

  // ------------------------------------------------------------------ no run stops early

  lemma MovesAtWait(c: Setting, s: System) returns (step: Step)
    requires Sound(c, s) && Armed(c, s) && Counted(c, s) && s.control == Wait
    ensures Enabled(c, s, step)
  {
    if s.all > 0 {
      step := Controller;
    } else if s.done >= s.workers {
      var w :| w in s.pc && s.pc[w] == Compare(s.workers);
      assert w in s.run;
      step := Work(w);
    } else {
      var w := SomeTerm(Owed(s), c.threads);
      assert w in s.pc && w in s.run && HasWork(s, w);
      step := Work(w);
    }
    hide Slot, Sum;
  }

  // As long as a round is left, somebody can move.
  lemma NeverStuck(c: Setting, ss: seq<System>, steps: seq<Step>, k: nat) returns (step: Step)
    requires Run(c, ss, steps) && k < |ss| && Fits(c) && ss[k].round < |c.plan|
    ensures Enabled(c, ss[k], step)
  {
    var s := ss[k];
    Spent(c, ss, steps, k);
    if s.control == Wait {
      step := MovesAtWait(c, s);
    } else {
      if s.control.Post? { SlotExists(c, s.control.i, Width(c, s.round)); }
      step := Controller;
    }
    hide Run, Armed, Counted, Left, Slot;
  }

  // Whatever the interleaving and the plan, no run of the pool is longer than the plan allows, and one that cannot go
  // on has been through all rounds; if rounds do not shrink, with every call of the plan made, each once.
  lemma RoundsEnd(c: Setting, ss: seq<System>, steps: seq<Step>)
    requires Run(c, ss, steps) && Fits(c)
    ensures |steps| <= StepsFrom(c, 0)
    ensures (forall step :: !Enabled(c, ss[|steps|], step)) ==>
              ss[|steps|].round == |c.plan| && (Growing(c, |c.plan|) ==> RoundsDone(c, ss[|steps|]))
  {
    var n := |steps|;
    Spent(c, ss, steps, n);
    NotNegative(c, ss[n]);
    if forall step :: !Enabled(c, ss[n], step) {
      if ss[n].round < |c.plan| {
        var step := NeverStuck(c, ss, steps, n);
        assert false;
      }
      if Growing(c, |c.plan|) { Barrier(c, ss, steps, n); }
    }
    hide Run, RoundsDone, StepsFrom, Left, Growing, Armed, Counted;
  }

  lemma NotNegative(c: Setting, s: System)
    requires Sound(c, s)
    ensures Left(c, s) >= 0
  {
  }
}
