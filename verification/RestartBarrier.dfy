/** The barrier that ends an MTCP restart: `restarthread` re-creates the threads of the saved tree one by one, counting
    them in `restoreinprog`, and every thread passes `wait_for_all_restored` (mtcp.c:2326-2409, 2740, 2949-3001). A step
    is one access to the counter, one clone or one compare-and-swap of a state word; any thread may move next. */
module RestartBarrier {
  import opened ThreadTree
  import Checkpoint

  type Tid = Checkpoint.Tid
  type State = Checkpoint.State

  // Where a thread stands. An announced thread has been counted by its parent, which is about to clone it.
  datatype Pc =
    | Missing | Announced
    | Loop(i: nat) | SwapUp(i: nat, rip: int) | Clone(i: nat)    // restarthread, at child number i
    | Jumped                                                     // back in stopthisthread or checkpointhread
    | ReadDown | SwapDown(rip: int)                              // wait_for_all_restored, the decrement
    | Spin | SwapZero                                            // its rest, in the checkpoint thread
    | Wait | Drain                                               // its rest, in the other threads
    | Done

  datatype System = System(pc: map<Tid, Pc>, count: int, state: map<Tid, State>, aborted: bool)

  // What does not change during a restart.
  datatype Setting = Setting(tree: Tree<Tid>, ckpt: Tid)

  ghost predicate Fits(c: Setting, s: System) {
    WellFormed(c.tree) && c.ckpt in c.tree.children && s.pc.Keys == Threads(c.tree) && s.state.Keys == Threads(c.tree)
  }

  // The image holds every thread but the checkpoint thread as suspended; the thread that reads it runs restarthread
  // on the root.
  ghost predicate Init(c: Setting, s: System) {
    && Fits(c, s) && s.count == 2 && !s.aborted
    && (forall t :: t in s.pc ==> s.pc[t] == if t == c.tree.root then Loop(0) else Missing)
    && (forall t :: t in s.state && t != c.ckpt ==> s.state[t] == Checkpoint.Suspended)
  }

  function Goto(s: System, t: Tid, pc: Pc): System {
    s.(pc := s.pc[t := pc])
  }

  predicate Enabled(c: Setting, s: System, t: Tid) {
    && t in s.pc && t in s.state && t in c.tree.children
    && s.pc[t] != Missing && s.pc[t] != Announced && s.pc[t] != Done
    && (s.pc[t].SwapUp? || s.pc[t].Clone? ==> s.pc[t].i < |c.tree.children[t]|)
  }

  // The next step of thread t; a step that leaves the state as it is is one turn of a waiting loop. A thread that is
  // back in stopthisthread and finds the counter at 0 takes itself for one of the process that is being checkpointed,
  // and aborts, because its state is not ST_SUSPINPROG.
  function Next(c: Setting, s: System, t: Tid): System
    requires Enabled(c, s, t)
  {
    match s.pc[t]
    case Loop(i) => if i < |c.tree.children[t]| then Goto(s, t, SwapUp(i, s.count)) else Goto(s, t, Jumped)
    case SwapUp(i, rip) =>
      if s.count == rip then Goto(Goto(s.(count := rip + 1), c.tree.children[t][i], Announced), t, Clone(i))
      else Goto(s, t, Loop(i))
    case Clone(i) => Goto(Goto(s, c.tree.children[t][i], Loop(0)), t, Loop(i + 1))
    case Jumped =>
      if t == c.ckpt then Goto(s, t, ReadDown)
      else if s.count != 0 && s.state[t] == Checkpoint.Suspended then
        Goto(s.(state := s.state[t := Checkpoint.RunEnabled]), t, ReadDown)
      else s.(aborted := true)
    case ReadDown => Goto(s, t, SwapDown(s.count))
    case SwapDown(rip) =>
      if s.count != rip then Goto(s, t, ReadDown)
      else Goto(s.(count := rip - 1), t, if t == c.ckpt then Spin else Wait)
    case Spin => if s.count == 1 then Goto(s, t, SwapZero) else s
    case SwapZero => if s.count == 1 then Goto(s.(count := 0), t, Done) else s.(aborted := true)
    case Wait => if s.count > 0 then s else Goto(s, t, Drain)
    case Drain => if s.count != 0 then s else Goto(s, t, Done)
    case _ => s
  }

  ghost predicate Run(c: Setting, ss: seq<System>, ts: seq<Tid>) {
    && |ss| == |ts| + 1 && Init(c, ss[0])
    && forall k :: 0 <= k < |ts| ==>
         !ss[k].aborted && Enabled(c, ss[k], ts[k]) && ss[k + 1] == Next(c, ss[k], ts[k])
  }

  // ------------------------------------------------------------------ the invariant

  // Created, or about to be, and not yet past its decrement.
  predicate Unarrived(pc: Pc) {
    pc.Announced? || pc.Loop? || pc.SwapUp? || pc.Clone? || pc.Jumped? || pc.ReadDown? || pc.SwapDown?
  }

  function Pending(pc: map<Tid, Pc>): set<Tid> {
    set t | t in pc && Unarrived(pc[t])
  }

  // How many children a thread at this point has cloned.
  predicate Cloned(pc: Pc, i: nat) {
    match pc
    case Missing => false
    case Announced => false
    case Loop(n) => i < n
    case SwapUp(n, _) => i < n
    case Clone(n) => i < n
    case _ => true
  }

  // A thread and its i-th child: the child exists exactly if it has been cloned, and is announced in between.
  predicate Link(p: Pc, i: nat, child: Pc) {
    if Cloned(p, i) then child != Missing && child != Announced
    else if p == Clone(i) then child == Announced
    else child == Missing
  }

  ghost predicate Links(c: Setting, s: System)
    requires Fits(c, s)
  {
    forall p, i {:trigger c.tree.children[p][i]} :: p in c.tree.children && 0 <= i < |c.tree.children[p]| ==>
      Link(s.pc[p], i, s.pc[c.tree.children[p][i]])
  }

  predicate PcOk(c: Setting, s: System, t: Tid)
    requires t in s.pc && t in s.state && t in c.tree.children
  {
    && (s.pc[t].Loop? ==> s.pc[t].i <= |c.tree.children[t]|)
    && (s.pc[t].SwapUp? || s.pc[t].Clone? ==> s.pc[t].i < |c.tree.children[t]|)
    && (s.pc[t].Spin? || s.pc[t].SwapZero? ==> t == c.ckpt)
    && (s.pc[t].Wait? || s.pc[t].Drain? ==> t != c.ckpt)
    && (t != c.ckpt && (Unarrived(s.pc[t]) || s.pc[t].Missing?) && !s.pc[t].ReadDown? && !s.pc[t].SwapDown? ==>
          s.state[t] == Checkpoint.Suspended)
  }

  predicate Released(c: Setting, s: System) {
    c.ckpt in s.pc && s.pc[c.ckpt] == Done
  }

  ghost predicate Inv(c: Setting, s: System) {
    && Fits(c, s) && !s.aborted && s.pc[c.tree.root] != Missing && s.pc[c.tree.root] != Announced
    && Links(c, s)
    && (forall t :: t in s.pc ==> PcOk(c, s, t))
    && s.count == (if Released(c, s) then 0 else 1) + |Pending(s.pc)|
    && (forall t :: t in s.pc && (s.pc[t] == Drain || s.pc[t] == Done) ==> Released(c, s))
    && (s.pc[c.ckpt] == SwapZero || s.pc[c.ckpt] == Done ==> Pending(s.pc) == {})
  }

  // ------------------------------------------------------------------ the links between parents and children

  predicate Created(pc: Pc) {
    pc != Missing && pc != Announced
  }

  predicate NoneCloned(pc: Pc) {
    pc == Missing || pc == Announced || pc == Loop(0)
  }

  // A move of t that clones nobody.
  lemma LinksMove(c: Setting, s: System, t: Tid, pc: Pc)
    requires Fits(c, s) && Links(c, s) && t in s.pc && Created(s.pc[t]) && Created(pc)
    requires forall i: nat :: i < |c.tree.children[t]| ==>
               Cloned(pc, i) == Cloned(s.pc[t], i) && (pc == Clone(i) <==> s.pc[t] == Clone(i))
    ensures Fits(c, Goto(s, t, pc)) && Links(c, Goto(s, t, pc))
  {
    hide Cloned, WellFormed;
  }

  // The child of t at position i, and nobody else, changes together with t.
  lemma LinksPair(c: Setting, s: System, t: Tid, i: nat, pc: Pc, child: Pc)
    requires Fits(c, s) && Links(c, s) && t in s.pc && i < |c.tree.children[t]|
    requires Created(s.pc[t]) && Created(pc) && Link(pc, i, child)
    requires forall j: nat :: j < |c.tree.children[t]| && j != i ==>
               Cloned(pc, j) == Cloned(s.pc[t], j) && pc != Clone(j) && s.pc[t] != Clone(j)
    requires var x := c.tree.children[t][i];
             x in s.pc && x != t && NoneCloned(s.pc[x]) && NoneCloned(child)
    ensures var s' := Goto(Goto(s, c.tree.children[t][i], child), t, pc); Fits(c, s') && Links(c, s')
  {
    var x := c.tree.children[t][i];
    var s' := Goto(Goto(s, x, child), t, pc);
    forall p, j {:trigger c.tree.children[p][j]} | p in c.tree.children && 0 <= j < |c.tree.children[p]|
      ensures Link(s'.pc[p], j, s'.pc[c.tree.children[p][j]])
    {
      assert Link(s.pc[p], j, s.pc[c.tree.children[p][j]]);
      if c.tree.children[p][j] == x { assert p == t && j == i; }
    }
  }

  // ------------------------------------------------------------------ the count

  lemma PendingSame(pc: map<Tid, Pc>, t: Tid, to: Pc)
    requires t in pc && Unarrived(pc[t]) == Unarrived(to)
    ensures Pending(pc[t := to]) == Pending(pc)
  {
  }

  lemma PendingMore(pc: map<Tid, Pc>, t: Tid, to: Pc)
    requires t in pc && !Unarrived(pc[t]) && Unarrived(to)
    ensures |Pending(pc[t := to])| == |Pending(pc)| + 1
  {
    assert Pending(pc[t := to]) == Pending(pc) + {t};
  }

  lemma PendingLess(pc: map<Tid, Pc>, t: Tid, to: Pc)
    requires t in pc && Unarrived(pc[t]) && !Unarrived(to)
    ensures |Pending(pc[t := to])| == |Pending(pc)| - 1
  {
    assert Pending(pc[t := to]) == Pending(pc) - {t};
  }

  // ------------------------------------------------------------------ one step keeps the invariant

  // A step of a thread that stays unarrived, or stays arrived, and creates nobody.
  lemma MoveKeeps(c: Setting, s: System, t: Tid, pc: Pc)
    requires Inv(c, s) && t in s.pc && Created(s.pc[t]) && Created(pc) && Unarrived(pc) == Unarrived(s.pc[t])
    requires forall i: nat :: i < |c.tree.children[t]| ==>
               Cloned(pc, i) == Cloned(s.pc[t], i) && (pc == Clone(i) <==> s.pc[t] == Clone(i))
    requires PcOk(c, Goto(s, t, pc), t)
    requires pc == SwapZero ==> Pending(s.pc) == {}
    requires pc == Drain || pc == Done ==> Released(c, s) && t != c.ckpt
    requires s.pc[t] != Done
    ensures Inv(c, Goto(s, t, pc))
  {
    hide WellFormed, Links, Cloned, Unarrived, Pending;
    LinksMove(c, s, t, pc);
    PendingSame(s.pc, t, pc);
  }

  // The child that t is about to announce or clone.
  lemma ChildAt(c: Setting, s: System, t: Tid)
    requires Inv(c, s) && t in s.pc && (s.pc[t].SwapUp? || s.pc[t].Clone?)
    ensures s.pc[t].i < |c.tree.children[t]|
    ensures var x := c.tree.children[t][s.pc[t].i];
            x in s.pc && x != t && x != c.tree.root && s.pc[x] == if s.pc[t].SwapUp? then Missing else Announced
  {
    assert PcOk(c, s, t);
    var x := c.tree.children[t][s.pc[t].i];
    assert Link(s.pc[t], s.pc[t].i, s.pc[x]);
  }

  lemma PairFacts(pc: Pc)
    requires pc.SwapUp? || pc.Clone?
    ensures forall j: nat :: j != pc.i ==> pc != Clone(j) && Loop(pc.i + 1) != Clone(j)
                                           && Cloned(Clone(pc.i), j) == Cloned(pc, j) == Cloned(Loop(pc.i + 1), j)
    ensures Link(Clone(pc.i), pc.i, Announced) && Link(Loop(pc.i + 1), pc.i, Loop(0))
  {
  }

  lemma PcOks(c: Setting, s: System, t: Tid, i: nat, child: Pc, pc: Pc)
    requires Fits(c, s) && t in s.pc && i < |c.tree.children[t]|
    requires forall x :: x in s.pc ==> PcOk(c, s, x)
    requires s.pc[c.tree.children[t][i]] == Missing || s.pc[c.tree.children[t][i]] == Announced
    requires child == Announced || child == Loop(0)
    requires (s.pc[t].SwapUp? || s.pc[t].Clone?) && (pc == Clone(i) || pc == Loop(i + 1))
    ensures c.tree.children[t][i] in s.pc
    ensures forall x :: x in s.pc ==> PcOk(c, Goto(Goto(s, c.tree.children[t][i], child), t, pc), x)
  {
  }

  // The step of t that takes its child at position i from one pc to the next.
  lemma PairKeeps(c: Setting, s: System, t: Tid, child: Pc, pc: Pc)
    requires Inv(c, s) && t in s.pc
    requires (s.pc[t].SwapUp? && child == Announced && pc == Clone(s.pc[t].i))
             || (s.pc[t].Clone? && child == Loop(0) && pc == Loop(s.pc[t].i + 1))
    ensures s.pc[t].i < |c.tree.children[t]|
    ensures var s' := Goto(Goto(s, c.tree.children[t][s.pc[t].i], child), t, pc);
            Inv(c, s'.(count := if s.pc[t].SwapUp? then s.count + 1 else s.count))
  {
    hide WellFormed, Links, Cloned, Unarrived, Pending, Link, PcOk;
    ChildAt(c, s, t);
    PairFacts(s.pc[t]);
    var i := s.pc[t].i;
    var x := c.tree.children[t][i];
    LinksPair(c, s, t, i, pc, child);
    PcOks(c, s, t, i, child, pc);
    PairCount(s.pc, t, x, child, pc);
    var s' := Goto(Goto(s, x, child), t, pc);
    Recount(c, s', if s.pc[t].SwapUp? then s.count + 1 else s.count);
  }

  lemma Recount(c: Setting, s: System, count: int)
    requires Fits(c, s) && Links(c, s) && forall x :: x in s.pc ==> PcOk(c, s, x)
    ensures Fits(c, s.(count := count)) && Links(c, s.(count := count))
    ensures forall x :: x in s.pc ==> PcOk(c, s.(count := count), x)
  {
    hide Link;
  }

  lemma PairCount(pc: map<Tid, Pc>, t: Tid, x: Tid, child: Pc, to: Pc)
    requires t in pc && x in pc && x != t
    requires (pc[t].SwapUp? && pc[x] == Missing && child == Announced && to.Clone?)
             || (pc[t].Clone? && pc[x] == Announced && child == Loop(0) && to.Loop?)
    ensures |Pending(pc[x := child][t := to])| == |Pending(pc)| + if pc[t].SwapUp? then 1 else 0
    ensures t in Pending(pc) && t in Pending(pc[x := child][t := to])
  {
    if pc[t].SwapUp? { PendingMore(pc, x, child); } else { PendingSame(pc, x, child); }
    PendingSame(pc[x := child], t, to);
  }

  lemma WakeKeeps(c: Setting, s: System, t: Tid)
    requires Inv(c, s) && t in s.pc && s.pc[t] == Jumped && Enabled(c, s, t)
    ensures Inv(c, Next(c, s, t))
  {
    assert PcOk(c, s, t);
    assert t in Pending(s.pc);
    hide WellFormed, Links, Unarrived, Pending, Cloned;
    if t == c.ckpt {
      MoveFacts(c, s, t, ReadDown);
      MoveKeeps(c, s, t, ReadDown);
    } else {
      MoveFacts(c, s, t, ReadDown);
      MoveKeeps(c, s, t, ReadDown);
      StateKeeps(c, Goto(s, t, ReadDown), t);
    }
  }

  // The parts of MoveKeeps' conditions that only depend on the two positions.
  lemma MoveFacts(c: Setting, s: System, t: Tid, pc: Pc)
    requires t in s.pc && t in c.tree.children
    requires s.pc[t] == Jumped || s.pc[t] == ReadDown || s.pc[t].SwapDown? || s.pc[t] == Spin || s.pc[t] == Wait
             || s.pc[t] == Drain || s.pc[t] == SwapZero
    requires pc == ReadDown || pc.SwapDown? || pc == Spin || pc == Wait || pc == SwapZero || pc == Drain || pc == Done
    ensures Created(s.pc[t]) && Created(pc)
    ensures forall i: nat :: Cloned(pc, i) && Cloned(s.pc[t], i) && pc != Clone(i) && s.pc[t] != Clone(i)
    ensures Unarrived(pc) <==> pc == ReadDown || pc.SwapDown?
    ensures Unarrived(s.pc[t]) <==> s.pc[t] == Jumped || s.pc[t] == ReadDown || s.pc[t].SwapDown?
  {
  }

  lemma StateKeeps(c: Setting, s: System, t: Tid)
    requires Inv(c, s) && t in s.pc && s.pc[t] == ReadDown
    ensures Inv(c, s.(state := s.state[t := Checkpoint.RunEnabled]))
  {
    var s' := s.(state := s.state[t := Checkpoint.RunEnabled]);
    assert Links(c, s') by { hide Link; }
    hide WellFormed, Links, Unarrived, Pending, Cloned;
  }

  lemma LoopKeeps(c: Setting, s: System, t: Tid)
    requires Inv(c, s) && t in s.pc && Enabled(c, s, t)
    requires s.pc[t].Loop? || (s.pc[t].SwapUp? && s.count != s.pc[t].rip)
    ensures Inv(c, Next(c, s, t))
  {
    assert PcOk(c, s, t);
    hide WellFormed, Links, Pending;
    var i := s.pc[t].i;
    if s.pc[t].SwapUp? { MoveKeeps(c, s, t, Loop(i)); }
    else if i < |c.tree.children[t]| { MoveKeeps(c, s, t, SwapUp(i, s.count)); }
    else { MoveKeeps(c, s, t, Jumped); }
  }

  lemma ArriveKeeps(c: Setting, s: System, t: Tid)
    requires Inv(c, s) && t in s.pc && Enabled(c, s, t) && s.pc[t].SwapDown? && s.count == s.pc[t].rip
    ensures Inv(c, Next(c, s, t))
  {
    var pc := if t == c.ckpt then Spin else Wait;
    assert t in Pending(s.pc);
    hide WellFormed, Links, Cloned, Unarrived, Pending;
    MoveFacts(c, s, t, pc);
    LinksMove(c, s, t, pc);
    PendingLess(s.pc, t, pc);
    Recount(c, Goto(s, t, pc), s.count - 1);
  }

  lemma ReleaseKeeps(c: Setting, s: System, t: Tid)
    requires Inv(c, s) && t in s.pc && Enabled(c, s, t) && s.pc[t] == SwapZero
    ensures Inv(c, Next(c, s, t))
  {
    assert PcOk(c, s, t);
    hide WellFormed, Links, Cloned, Unarrived, Pending;
    MoveFacts(c, s, t, Done);
    LinksMove(c, s, t, Done);
    PendingSame(s.pc, t, Done);
    Recount(c, Goto(s, t, Done), 0);
  }

  lemma RestKeeps(c: Setting, s: System, t: Tid)
    requires Inv(c, s) && t in s.pc && Enabled(c, s, t)
    requires s.pc[t] == ReadDown || (s.pc[t].SwapDown? && s.count != s.pc[t].rip)
             || s.pc[t] == Spin || s.pc[t] == Wait || s.pc[t] == Drain
    ensures Inv(c, Next(c, s, t))
  {
    hide Inv;
    match s.pc[t]
    case ReadDown => RestMove(c, s, t, SwapDown(s.count));
    case SwapDown(_) => RestMove(c, s, t, ReadDown);
    case Spin => if s.count == 1 { RestMove(c, s, t, SwapZero); }
    case Wait => if s.count <= 0 { RestMove(c, s, t, Drain); }
    case Drain => if s.count == 0 { RestMove(c, s, t, Done); }
  }

  lemma RestMove(c: Setting, s: System, t: Tid, pc: Pc)
    requires Inv(c, s) && t in s.pc
    requires (s.pc[t] == ReadDown && pc == SwapDown(s.count)) || (s.pc[t].SwapDown? && pc == ReadDown)
             || (s.pc[t] == Spin && s.count == 1 && pc == SwapZero)
             || (s.pc[t] == Wait && s.count <= 0 && pc == Drain) || (s.pc[t] == Drain && s.count == 0 && pc == Done)
    ensures Inv(c, Goto(s, t, pc))
  {
    assert PcOk(c, s, t);
    assert t in c.tree.children;
    hide WellFormed, Links, Cloned, Unarrived, Pending;
    MoveFacts(c, s, t, pc);
    MoveKeeps(c, s, t, pc);
  }

  lemma StepKeeps(c: Setting, s: System, t: Tid)
    requires Inv(c, s) && Enabled(c, s, t)
    ensures Inv(c, Next(c, s, t))
  {
    hide Inv;
    match s.pc[t]
    case Loop(_) => LoopKeeps(c, s, t);
    case SwapUp(_, rip) =>
      if s.count == rip { PairKeeps(c, s, t, Announced, Clone(s.pc[t].i)); } else { LoopKeeps(c, s, t); }
    case Clone(_) => PairKeeps(c, s, t, Loop(0), Loop(s.pc[t].i + 1));
    case Jumped => WakeKeeps(c, s, t);
    case SwapDown(rip) => if s.count == rip { ArriveKeeps(c, s, t); } else { RestKeeps(c, s, t); }
    case SwapZero => ReleaseKeeps(c, s, t);
    case _ => RestKeeps(c, s, t);
  }
}
