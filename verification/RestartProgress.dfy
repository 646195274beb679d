/** That an MTCP restart ends: however the threads interleave, only so many steps of a restart change anything, and from
    every state there is a way to the end, where all threads have left the barrier. */
module RestartProgress {
  import opened Collections
  import opened RestartBarrier
  import opened RestartRuns
  import opened ThreadTree

  // ------------------------------------------------------------------ what is left to do

  // How much a thread with n children has still to do, itself and for itself by its parent.
  function RestOf(pc: Pc, n: nat): nat {
    match pc
    case Missing => 2 * n + 9
    case Announced => 2 * n + 8
    case Loop(i) => 7 + if i <= n then 2 * (n - i) else 0
    case SwapUp(i, _) => 7 + if i <= n then 2 * (n - i) else 0
    case Clone(i) => 6 + if i <= n then 2 * (n - i) else 0
    case Jumped => 6
    case ReadDown => 5
    case SwapDown(_) => 5
    case Spin => 4
    case Wait => 4
    case SwapZero => 3
    case Drain => 3
    case Done => 0
  }

  // How far a thread is from its next swap of the counter; a swap that will fail is farther away than none.
  function AwayOf(pc: Pc, count: int): nat {
    match pc
    case Loop(_) => 2
    case SwapUp(_, rip) => if count == rip then 1 else 3
    case ReadDown => 2
    case SwapDown(rip) => if count == rip then 1 else 3
    case _ => 0
  }

  function Rest(c: Setting, s: System): nat -> nat {
    (t: nat) => if t in s.pc && t in c.tree.children then RestOf(s.pc[t], |c.tree.children[t]|) else 0
  }

  function Away(s: System): nat -> nat {
    (t: nat) => if t in s.pc then AwayOf(s.pc[t], s.count) else 0
  }

  // All threads have numbers below n.
  predicate Numbered(c: Setting, n: nat) {
    forall t :: t in c.tree.children ==> t < n
  }

  function ToDo(c: Setting, s: System, n: nat): nat {
    Sum(Rest(c, s), n) * (3 * n + 1) + Sum(Away(s), n)
  }

  // ------------------------------------------------------------------ every change brings the end nearer

  // A step that leaves the counter alone and brings t one step nearer to its swap.
  lemma Nearer(c: Setting, s: System, t: Tid, pc: Pc, n: nat)
    requires Numbered(c, n) && t in s.pc && t in c.tree.children
    requires RestOf(pc, |c.tree.children[t]|) == RestOf(s.pc[t], |c.tree.children[t]|)
    requires AwayOf(pc, s.count) < AwayOf(s.pc[t], s.count)
    ensures ToDo(c, Goto(s, t, pc), n) < ToDo(c, s, n)
  {
    var s' := Goto(s, t, pc);
    hide RestOf, AwayOf, Sum;
    OneTerm(Rest(c, s), Rest(c, s'), n, t);
    OneTerm(Away(s), Away(s'), n, t);
    assert Rest(c, s')(t) == Rest(c, s)(t);
    assert Away(s')(t) < Away(s)(t);
  }

  // A step that gets something done, whatever it does to the others' swaps.
  lemma LessLeft(c: Setting, s: System, s': System, n: nat)
    requires Sum(Rest(c, s'), n) < Sum(Rest(c, s), n)
    ensures ToDo(c, s', n) < ToDo(c, s, n)
  {
    SumAtMost(Away(s'), n, 3);
    hide Sum;
    Scaled(Sum(Rest(c, s'), n), Sum(Rest(c, s), n), 3 * n + 1);
    hide *;
  }

  lemma Scaled(a: nat, b: nat, k: nat)
    requires a < b
    ensures a * k + k <= b * k
  {
    assert b * k == a * k + k + (b - a - 1) * k;
  }

  lemma OneLess(c: Setting, s: System, s': System, t: Tid, pc: Pc, n: nat)
    requires Numbered(c, n) && t in s.pc && t in c.tree.children && s'.pc == s.pc[t := pc]
    requires RestOf(pc, |c.tree.children[t]|) < RestOf(s.pc[t], |c.tree.children[t]|)
    ensures ToDo(c, s', n) < ToDo(c, s, n)
  {
    hide RestOf, Sum;
    OneTerm(Rest(c, s), Rest(c, s'), n, t);
    assert Rest(c, s')(t) < Rest(c, s)(t);
    LessLeft(c, s, s', n);
  }

  lemma TwoLess(c: Setting, s: System, s': System, t: Tid, pc: Pc, x: Tid, child: Pc, n: nat)
    requires Numbered(c, n) && t in s.pc && t in c.tree.children && x in s.pc && x in c.tree.children && x != t
    requires s'.pc == s.pc[x := child][t := pc]
    requires RestOf(pc, |c.tree.children[t]|) < RestOf(s.pc[t], |c.tree.children[t]|)
    requires RestOf(child, |c.tree.children[x]|) < RestOf(s.pc[x], |c.tree.children[x]|)
    ensures ToDo(c, s', n) < ToDo(c, s, n)
  {
    hide RestOf, Sum;
    var s1 := Goto(s, x, child);
    OneTerm(Rest(c, s), Rest(c, s1), n, x);
    OneTerm(Rest(c, s1), Rest(c, s'), n, t);
    assert Rest(c, s1)(x) < Rest(c, s)(x);
    assert Rest(c, s')(t) < Rest(c, s1)(t);
    LessLeft(c, s, s', n);
  }

  // A step that creates nobody.
  lemma MoveEnds(c: Setting, s: System, t: Tid, n: nat)
    requires Enabled(c, s, t) && Numbered(c, n) && Next(c, s, t) != s && !Next(c, s, t).aborted
    requires PcOk(c, s, t) && !s.pc[t].Clone? && (s.pc[t].SwapUp? ==> s.count != s.pc[t].rip)
    ensures ToDo(c, Next(c, s, t), n) < ToDo(c, s, n)
  {
    var s' := Next(c, s, t);
    hide ToDo, Numbered;
    var count := |c.tree.children[t]|;
    if RestOf(s'.pc[t], count) < RestOf(s.pc[t], count) {
      OneLess(c, s, s', t, s'.pc[t], n);
    } else {
      assert s' == Goto(s, t, s'.pc[t]);
      Nearer(c, s, t, s'.pc[t], n);
    }
  }

  // A step that announces or clones a child.
  lemma PairEnds(c: Setting, s: System, t: Tid, n: nat)
    requires Inv(c, s) && Enabled(c, s, t) && Numbered(c, n)
    requires s.pc[t].Clone? || (s.pc[t].SwapUp? && s.count == s.pc[t].rip)
    ensures ToDo(c, Next(c, s, t), n) < ToDo(c, s, n)
  {
    hide ToDo, Inv, Numbered;
    ChildAt(c, s, t);
    ChildListed(c, s, t);
    var s' := Next(c, s, t);
    var i := s.pc[t].i;
    var x := c.tree.children[t][i];
    var pc, child := if s.pc[t].Clone? then Loop(i + 1) else Clone(i), if s.pc[t].Clone? then Loop(0) else Announced;
    assert s'.pc == s.pc[x := child][t := pc];
    hide Next, Enabled;
    TwoLess(c, s, s', t, pc, x, child, n);
  }

  // However the threads interleave, a step either leaves the state as it is, or brings the end nearer.
  lemma StepEnds(c: Setting, s: System, t: Tid, n: nat)
    requires Inv(c, s) && Enabled(c, s, t) && Numbered(c, n) && Next(c, s, t) != s
    ensures Inv(c, Next(c, s, t)) && ToDo(c, Next(c, s, t), n) < ToDo(c, s, n)
  {
    StepKeeps(c, s, t);
    assert PcOk(c, s, t) && !Next(c, s, t).aborted;
    hide ToDo, Inv, Numbered, Next, PcOk, Enabled;
    if s.pc[t].Clone? || (s.pc[t].SwapUp? && s.count == s.pc[t].rip) {
      PairEnds(c, s, t, n);
    } else {
      MoveEnds(c, s, t, n);
    }
  }

  lemma ChildListed(c: Setting, s: System, t: Tid)
    requires Inv(c, s) && t in c.tree.children
    ensures forall i :: 0 <= i < |c.tree.children[t]| ==> c.tree.children[t][i] in c.tree.children
  {
    hide Links, Pending, PcOk;
  }

  // ------------------------------------------------------------------ what the threads are left with

  // Past the swap of their state words the threads are running with checkpointing enabled.
  predicate Past(pc: Pc) {
    pc == ReadDown || pc.SwapDown? || Arrived(pc)
  }

  ghost predicate Awake(c: Setting, s: System) {
    forall t :: t in s.pc && t in s.state && t != c.ckpt && Past(s.pc[t]) ==> s.state[t] == Checkpoint.RunEnabled
  }

  lemma AwakeStays(c: Setting, s: System, t: Tid)
    requires Awake(c, s) && Enabled(c, s, t)
    ensures Awake(c, Next(c, s, t))
  {
  }

  lemma {:induction false} AwakeInRun(c: Setting, ss: seq<System>, ts: seq<Tid>, k: nat)
    requires Run(c, ss, ts) && k < |ss|
    ensures Awake(c, ss[k])
    decreases k
  {
    if k > 0 {
      AwakeInRun(c, ss, ts, k - 1);
      StepOf(c, ss, ts, k - 1);
      hide Run, Awake, Next, Enabled;
      AwakeStays(c, ss[k - 1], ts[k - 1]);
    }
  }

  // ------------------------------------------------------------------ runs

  // How many of the first k steps change anything.
  function Changes(ss: seq<System>, k: nat): nat
    requires k < |ss|
  {
    if k == 0 then 0 else Changes(ss, k - 1) + if ss[k] != ss[k - 1] then 1 else 0
  }

  lemma StepOf(c: Setting, ss: seq<System>, ts: seq<Tid>, k: nat)
    requires Run(c, ss, ts) && k + 1 < |ss|
    ensures k < |ts| && Enabled(c, ss[k], ts[k]) && ss[k + 1] == Next(c, ss[k], ts[k])
  {
  }

  // No livelock: in a run of any length, with any interleaving, only so many steps change the state, however often
  // swaps of the counter fail.
  lemma {:induction false} ChangesEnd(c: Setting, ss: seq<System>, ts: seq<Tid>, k: nat, n: nat)
    requires Run(c, ss, ts) && k < |ss| && Numbered(c, n)
    ensures Changes(ss, k) + ToDo(c, ss[k], n) <= ToDo(c, ss[0], n)
    decreases k
  {
    hide ToDo, Inv, Next, Enabled, Run, Numbered;
    if k > 0 {
      ChangesEnd(c, ss, ts, k - 1, n);
      RunKeeps(c, ss, ts, k - 1);
      StepOf(c, ss, ts, k - 1);
      if ss[k] != ss[k - 1] { StepEnds(c, ss[k - 1], ts[k - 1], n); }
    }
  }

  ghost predicate Path(c: Setting, ss: seq<System>, ts: seq<Tid>) {
    && |ss| == |ts| + 1
    && forall k :: 0 <= k < |ts| ==> !ss[k].aborted && Enabled(c, ss[k], ts[k]) && ss[k + 1] == Next(c, ss[k], ts[k])
  }

  ghost predicate AllLeft(s: System) {
    forall t :: t in s.pc ==> s.pc[t] == Done
  }

  lemma {:induction false} Finish(c: Setting, s: System, n: nat) returns (ss: seq<System>, ts: seq<Tid>)
    requires Inv(c, s) && Numbered(c, n)
    ensures Path(c, ss, ts) && ss[0] == s && AllLeft(ss[|ts|])
    decreases ToDo(c, s, n)
  {
    hide Inv, Next, Enabled, Numbered, ToDo;
    if AllLeft(s) {
      ss, ts := [s], [];
    } else {
      var t :| t in s.pc && s.pc[t] != Done;
      var mover := SomebodyMoves(c, s, t);
      StepEnds(c, s, mover, n);
      NotAborted(c, s);
      var ss', ts' := Finish(c, Next(c, s, mover), n);
      ss, ts := [s] + ss', [mover] + ts';
      forall k | 0 <= k < |ts|
        ensures !ss[k].aborted && Enabled(c, ss[k], ts[k]) && ss[k + 1] == Next(c, ss[k], ts[k])
      {
        if k > 0 { assert ss[k] == ss'[k - 1] && ts[k] == ts'[k - 1] && ss[k + 1] == ss'[k]; }
      }
    }
  }

  lemma NotAborted(c: Setting, s: System)
    requires Inv(c, s)
    ensures !s.aborted
  {
  }

  lemma {:induction false} Bound(ts: set<Tid>) returns (n: nat)
    ensures forall t :: t in ts ==> t < n
    decreases ts
  {
    n := 0;
    if t :| t in ts {
      var m := Bound(ts - {t});
      n := if t < m then m else t + 1;
      forall x | x in ts
        ensures x < n
      {
        if x != t { assert x in ts - {t}; }
      }
    }
  }

  // From every state of every run there are steps after which every thread of the tree exists and has left the barrier,
  // with the counter at 0; and all but the checkpoint thread run with checkpointing enabled.
  lemma AllLeave(c: Setting, ss: seq<System>, ts: seq<Tid>, k: nat) returns (ss': seq<System>, ts': seq<Tid>)
    requires Run(c, ss, ts) && k < |ss|
    ensures Path(c, ss', ts') && ss'[0] == ss[k]
    ensures var last := ss'[|ts'|];
            && last.pc.Keys == last.state.Keys == Threads(c.tree) && last.count == 0
            && forall t :: t in Threads(c.tree) ==>
                 last.pc[t] == Done && (t != c.ckpt ==> last.state[t] == Checkpoint.RunEnabled)
  {
    RunKeeps(c, ss, ts, k);
    AwakeInRun(c, ss, ts, k);
    var n := Bound(c.tree.children.Keys);
    hide Inv, Run, Next, Enabled, Awake;
    ss', ts' := Finish(c, ss[k], n);
    Keeps(c, ss', ts', |ts'|);
    Empty(c, ss'[|ts'|]);
  }

  lemma {:induction false} Keeps(c: Setting, ss: seq<System>, ts: seq<Tid>, k: nat)
    requires Path(c, ss, ts) && k < |ss| && Inv(c, ss[0]) && Awake(c, ss[0])
    ensures Inv(c, ss[k]) && Awake(c, ss[k])
    decreases k
  {
    hide Inv, Next, Enabled, Awake;
    if k > 0 {
      Keeps(c, ss, ts, k - 1);
      AwakeStays(c, ss[k - 1], ts[k - 1]);
      StepKeeps(c, ss[k - 1], ts[k - 1]);
    }
  }

  lemma Empty(c: Setting, s: System)
    requires Inv(c, s) && AllLeft(s) && Awake(c, s)
    ensures s.pc.Keys == s.state.Keys == Threads(c.tree) && s.count == 0
    ensures forall t :: t in Threads(c.tree) ==>
              s.pc[t] == Done && (t != c.ckpt ==> s.state[t] == Checkpoint.RunEnabled)
  {
    assert Pending(s.pc) == {};
    hide Links;
  }
}
