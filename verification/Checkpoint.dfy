/** MTCP's checkpoint protocol (mtcp.c): the per-thread state word, changed by compare-and-swap from the
    checkpoint thread (`checkpointhread`) and from the thread itself (`mtcp_ok`, `mtcp_no`, and the stop-signal
    handler `stopthisthread`, which may be entered at any instruction and nests). A step of the model is one
    shared access of one thread; runs interleave the steps of any number of threads in any order. */
module Checkpoint {
  type Tid = nat

  // mtcp.c:305-313. Thread exit is modelled by `alive` and by leaving the list, not by ST_ZOMBIE.
  datatype State = RunDisabled | RunEnabled | SigDisabled | SigEnabled | SuspInProg | Suspended | CkpntThread

  // Where an activation of stopthisthread stands.
  datatype Frame =
    | Enter   // about to look up its thread, which takes the threads lock
    | Raise   // about to swap RunEnabled for SigEnabled
    | Locks   // that swap succeeded: asking whether the thread holds any locks
    | Commit  // about to swap SigEnabled for SuspInProg
    | Saving  // saving the context, then about to swap SuspInProg for Suspended
    | Waiting // waiting for the state to leave Suspended
    | Resumed // about to return

  // The activations of stopthisthread of one thread, the innermost on top.
  datatype Stack = Empty | Push(top: Frame, under: Stack)

  // What the thread does underneath its handlers. `off` says that its last call was mtcp_no.
  datatype Base =
    | User(off: bool)
    | OkEnter | OkRead | OkSwap(seen: State) | OkStop
    | NoEnter | NoRead | NoSwap | NoStop

  datatype Thread = Thread(state: State, base: Base, frames: Stack, alive: bool)

  datatype Outcome = Go(thread: Thread) | Abort

  function Swap(th: Thread, new': State, old': State): Thread {
    if th.state == old' then th.(state := new') else th
  }

  // Returning from stopthisthread: a direct call goes on in mtcp_ok or mtcp_no.
  function Return(th: Thread): Thread
    requires th.frames.Push?
  {
    var rest := th.(frames := th.frames.under);
    if rest.frames.Push? then rest
    else if rest.base == OkStop then rest.(base := User(false))
    else if rest.base == NoStop then rest.(base := NoRead)
    else rest
  }

  function At(th: Thread, f: Frame): Thread
    requires th.frames.Push?
  {
    th.(frames := Push(f, th.frames.under))
  }

  // The next instruction of the innermost activation of stopthisthread; `holdsLocks` is the callback's answer.
  function HandlerStep(th: Thread, holdsLocks: bool): Outcome
    requires th.frames.Push?
  {
    match th.frames.top
    case Enter => Go(At(th, Raise))
    case Raise =>
      if th.state == RunEnabled then Go(At(Swap(th, SigEnabled, RunEnabled), Locks)) else Go(At(th, Commit))
    case Locks => if holdsLocks then Go(Return(th)) else Go(At(th, Commit))
    case Commit =>
      if th.state == SigEnabled then Go(At(Swap(th, SuspInProg, SigEnabled), Saving)) else Go(Return(th))
    case Saving =>
      if th.state == SuspInProg then Go(At(Swap(th, Suspended, SuspInProg), Waiting)) else Abort
    case Waiting => if th.state == Suspended then Go(th) else Go(At(th, Resumed))
    case Resumed => Go(Return(th))
  }

  // The next instruction inside mtcp_ok or mtcp_no.
  function CallStep(th: Thread): Outcome
    requires th.frames.Empty? && !th.base.User?
  {
    match th.base
    case OkEnter => Go(th.(base := OkRead))
    case OkRead =>
      (match th.state
       case RunDisabled => Go(th.(base := OkSwap(RunDisabled)))
       case SigDisabled => Go(th.(base := OkSwap(SigDisabled)))
       case RunEnabled => Go(th.(base := User(false)))
       case SigEnabled => Go(th.(base := User(false)))
       case CkpntThread => Go(th.(base := User(false)))
       case _ => Abort)
    case OkSwap(seen) =>
      if th.state != seen then Go(th.(base := OkRead))
      else if seen == RunDisabled then Go(Swap(th, RunEnabled, RunDisabled).(base := User(false)))
      else Go(Swap(th, SigEnabled, SigDisabled).(base := OkStop, frames := Push(Enter, Empty)))
    case NoEnter => Go(th.(base := NoRead))
    case NoRead =>
      (match th.state
       case RunDisabled => Go(th.(base := User(true)))
       case SigDisabled => Go(th.(base := User(true)))
       case RunEnabled => Go(th.(base := NoSwap))
       case SigEnabled => Go(th.(base := NoStop, frames := Push(Enter, Empty)))
       case _ => Abort)
    case NoSwap =>
      if th.state == RunEnabled then Go(Swap(th, RunDisabled, RunEnabled).(base := User(true)))
      else Go(th.(base := NoRead))
    case OkStop => Go(th)
    case NoStop => Go(th)
  }

  // getcurrenthread takes the threads lock.
  predicate NeedsLock(th: Thread) {
    if th.frames.Push? then th.frames.top == Enter else th.base == OkEnter || th.base == NoEnter
  }

  predicate InUserCode(th: Thread) {
    th.alive && th.frames.Empty? && th.base.User?
  }

  // ------------------------------------------------------------------ the checkpoint thread and the whole system

  datatype Pc =
    | Sleep
    | Rescan              // needrescan = 0, about to take the lock
    | Probe(i: nat)       // asks whether the thread at position i still exists
    | Look(i: nat)        // switches on its state
    | SwapDisabled(i: nat)
    | SwapEnabled(i: nat)
    | Signal(i: nat)      // SigEnabled set, sending the stop signal
    | Quiet               // left the rescan loop: callbacks, writing the image
    | Resume(i: nat)      // swapping the thread at position i back to RunEnabled

  // `mem` is the memory of the program; `frozen` is what it was when the rescan loop was last left, `image` what has
  // been written since, `saved` the state words in it.
  datatype Store = Store(mem: map<nat, int>, frozen: map<nat, int>, image: map<nat, int>, saved: map<Tid, State>)

  // `threads` holds the records, `list` the listed ones in order.
  datatype System = System(
    threads: map<Tid, Thread>, list: seq<Tid>, ckpt: Tid, pc: Pc, needRescan: bool, aborted: bool, store: Store)

  predicate Locked(pc: Pc) {
    pc.Probe? || pc.Look? || pc.SwapDisabled? || pc.SwapEnabled? || pc.Signal? || pc.Resume?
  }

  datatype Step =
    | Interrupt(t: Tid)                 // the stop signal, from the checkpoint thread or stray
    | InHandler(t: Tid, holdsLocks: bool)
    | InCall(t: Tid)
    | CallOk(t: Tid)
    | CallNo(t: Tid)
    | Write(t: Tid, a: nat, v: int)     // any user code
    | Create(t: Tid, child: Tid)        // clone and setupthread
    | Finish(t: Tid)                    // mtcp_thread_return, after its mtcp_no
    | Vanish(t: Tid)                    // a raw exit that leaves the descriptor listed
    | Ckpt
    | Save(a: nat)                      // one word of the image
    | SaveState(t: Tid)

  predicate Listed(s: System, t: Tid) {
    t in s.list && t != s.ckpt && t in s.threads && s.threads[t].alive
  }

  function Update(s: System, t: Tid, o: Outcome): System {
    if o.Abort? then s.(aborted := true) else s.(threads := s.threads[t := o.thread])
  }

  function Remove(list: seq<Tid>, t: Tid): (r: seq<Tid>)
    ensures forall x :: x in r ==> x in list
    ensures forall x :: x in list && x != t ==> x in r
  {
    if list == [] then [] else if list[0] == t then list[1..] else [list[0]] + Remove(list[1..], t)
  }

  function Begin(m: Store): Store {
    Store(m.mem, m.mem, map[], map[])
  }

  function ProbeNext(s: System, i: nat): System {
    if i == |s.list| then (if s.needRescan then s.(pc := Rescan) else s.(pc := Quiet, store := Begin(s.store)))
    else s.(pc := Probe(i))
  }

  // Is the thread at position i still there? If not, it is unlisted and the scan starts over.
  function ProbeStep(s: System, i: nat): System
    requires i < |s.list| && s.list[i] in s.threads
  {
    if !s.threads[s.list[i]].alive then s.(list := Remove(s.list, s.list[i]), pc := Rescan) else s.(pc := Look(i))
  }

  // What the scan does about a state it has read.
  function LookStep(s: System, i: nat, state: State): System {
    match state
    case RunDisabled => s.(pc := SwapDisabled(i))
    case RunEnabled => s.(pc := SwapEnabled(i))
    case SigDisabled => s.(pc := Rescan)
    case SigEnabled => s.(pc := Rescan)
    case SuspInProg => s.(pc := Probe(i))
    case Suspended => ProbeNext(s, i + 1)
    case CkpntThread => ProbeNext(s, i + 1)
  }

  function SwapDisabledStep(s: System, i: nat, t: Tid): System
    requires t in s.threads
  {
    if s.threads[t].state != RunDisabled then s.(pc := Probe(i))
    else
      ProbeNext(s.(threads := s.threads[t := Swap(s.threads[t], SigDisabled, RunDisabled)], needRescan := true), i + 1)
  }

  function SwapEnabledStep(s: System, i: nat, t: Tid): System
    requires t in s.threads
  {
    if s.threads[t].state != RunEnabled then s.(pc := Probe(i))
    else s.(threads := s.threads[t := Swap(s.threads[t], SigEnabled, RunEnabled)], pc := Signal(i))
  }

  function SignalStep(s: System, i: nat): System
    requires i < |s.list| && s.list[i] in s.threads
  {
    if !s.threads[s.list[i]].alive then s.(list := Remove(s.list, s.list[i]), pc := Rescan)
    else ProbeNext(s.(needRescan := true), i + 1)
  }

  function ResumeStep(s: System, i: nat, t: Tid): System
    requires t in s.threads
  {
    if s.threads[t].state == CkpntThread then ResumeNext(s, i + 1)
    else if s.threads[t].state != Suspended then s.(aborted := true)
    else ResumeNext(s.(threads := s.threads[t := Swap(s.threads[t], RunEnabled, Suspended)]), i + 1)
  }

  // One step of checkpointhread (mtcp.c:1768-1891, 2015-2028).
  function CkptStep(s: System): System
    requires Locked(s.pc) ==> s.pc.i < |s.list|
    requires forall t :: t in s.list ==> t in s.threads
  {
    match s.pc
    case Sleep => s.(pc := Rescan)
    case Rescan => ProbeNext(s.(needRescan := false), 0)
    case Probe(i) => ProbeStep(s, i)
    case Look(i) => LookStep(s, i, s.threads[s.list[i]].state)
    case SwapDisabled(i) => SwapDisabledStep(s, i, s.list[i])
    case SwapEnabled(i) => SwapEnabledStep(s, i, s.list[i])
    case Signal(i) => SignalStep(s, i)
    case Quiet => ResumeNext(s, 0)
    case Resume(i) => ResumeStep(s, i, s.list[i])
  }

  function ResumeNext(s: System, i: nat): System {
    if i == |s.list| then s.(pc := Sleep) else s.(pc := Resume(i))
  }

  predicate Enabled(s: System, step: Step) {
    match step
    case Interrupt(t) => Listed(s, t)
    case InHandler(t, _) => Listed(s, t) && s.threads[t].frames.Push? && (NeedsLock(s.threads[t]) ==> !Locked(s.pc))
    case InCall(t) =>
      && Listed(s, t) && s.threads[t].frames.Empty? && !s.threads[t].base.User?
      && (NeedsLock(s.threads[t]) ==> !Locked(s.pc))
    case CallOk(t) => Listed(s, t) && InUserCode(s.threads[t])
    case CallNo(t) => Listed(s, t) && InUserCode(s.threads[t])
    case Write(t, _, _) => Listed(s, t) && InUserCode(s.threads[t])
    case Create(t, child) => Listed(s, t) && InUserCode(s.threads[t]) && child !in s.threads && !Locked(s.pc)
    case Finish(t) => Listed(s, t) && InUserCode(s.threads[t]) && s.threads[t].base.off && !Locked(s.pc)
    case Vanish(t) => Listed(s, t) && InUserCode(s.threads[t])
    case Ckpt => (Locked(s.pc) ==> s.pc.i < |s.list|) && forall t :: t in s.list ==> t in s.threads
    case Save(a) => s.pc == Quiet && a in s.store.mem
    case SaveState(t) => s.pc == Quiet && t in s.list && t in s.threads && t != s.ckpt
  }

  const FRESH := Thread(RunDisabled, User(true), Empty, true)

  function Apply(s: System, step: Step): System
    requires !s.aborted && Enabled(s, step)
  {
    match step
    case Interrupt(t) => s.(threads := s.threads[t := s.threads[t].(frames := Push(Enter, s.threads[t].frames))])
    case InHandler(t, holdsLocks) => Update(s, t, HandlerStep(s.threads[t], holdsLocks))
    case InCall(t) => Update(s, t, CallStep(s.threads[t]))
    case CallOk(t) => s.(threads := s.threads[t := s.threads[t].(base := OkEnter)])
    case CallNo(t) => s.(threads := s.threads[t := s.threads[t].(base := NoEnter)])
    case Write(t, a, v) => s.(store := s.store.(mem := s.store.mem[a := v]))
    case Create(t, child) => s.(threads := s.threads[child := FRESH], list := [child] + s.list)
    case Finish(t) => s.(threads := s.threads[t := s.threads[t].(alive := false)], list := Remove(s.list, t))
    case Vanish(t) => s.(threads := s.threads[t := s.threads[t].(alive := false)])
    case Ckpt => CkptStep(s)
    case Save(a) => s.(store := s.store.(image := s.store.image[a := s.store.mem[a]]))
    case SaveState(t) => s.(store := s.store.(saved := s.store.saved[t := s.threads[t].state]))
  }

  ghost predicate Init(s: System) {
    && s.pc == Sleep && !s.aborted && Distinct(s.list) && s.ckpt in s.list
    && (forall t :: t in s.list ==> t in s.threads)
    && s.threads[s.ckpt].state == CkpntThread && s.threads[s.ckpt].alive
    && (forall t :: t in s.list && t != s.ckpt ==> s.threads[t] == FRESH)
  }

  predicate Distinct(list: seq<Tid>) {
    forall i, j :: 0 <= i < j < |list| ==> list[i] != list[j]
  }

  // A run: every state follows from the one before by an enabled step, and a run that has aborted takes none.
  ghost predicate Run(ss: seq<System>, steps: seq<Step>) {
    && |ss| == |steps| + 1 && Init(ss[0])
    && forall i :: 0 <= i < |steps| ==>
         !ss[i].aborted && Enabled(ss[i], steps[i]) && ss[i + 1] == Apply(ss[i], steps[i])
  }

  // ------------------------------------------------------------------ what one thread keeps

  datatype Hold = Free | InSave | InWait

  // The innermost activation that is saving or waiting, if there is one.
  function Held(fs: Stack): Hold {
    if fs.Empty? then Free
    else if fs.top == Saving then InSave
    else if fs.top == Waiting then InWait
    else Held(fs.under)
  }

  // Nothing saves or waits on top of an activation that is saving.
  predicate Nested(fs: Stack) {
    fs.Push? ==> Nested(fs.under) && (fs.top == Saving || fs.top == Waiting ==> Held(fs.under) != InSave)
  }

  // Activations that have changed nothing and can only return.
  predicate Idle(fs: Stack) {
    fs.Push? ==> Idle(fs.under) && (fs.top == Enter || fs.top == Raise || fs.top == Commit)
  }

  predicate Good(th: Thread) {
    && th.state != CkpntThread
    && Nested(th.frames)
    && (th.state == SuspInProg <==> Held(th.frames) == InSave)
    && (th.state == Suspended ==> Held(th.frames) == InWait)
    && (th.base == User(true) ==> (th.state == RunDisabled || th.state == SigDisabled) && Idle(th.frames))
    && (th.base == User(false) || th.base == OkStop || th.base == NoStop || th.base == NoSwap ==>
          th.state != RunDisabled && th.state != SigDisabled)
    && (th.frames.Empty? ==> th.base != OkStop && th.base != NoStop)
    && (th.base.OkSwap? ==> th.base.seen == RunDisabled || th.base.seen == SigDisabled)
  }

  lemma HandlerKeeps(th: Thread, holdsLocks: bool)
    requires Good(th) && th.frames.Push?
    ensures var o := HandlerStep(th, holdsLocks);
            o.Go? && Good(o.thread) && o.thread.alive == th.alive
            && (th.state == Suspended ==> o.thread.state == Suspended)
  {
  }

  lemma CallKeeps(th: Thread)
    requires Good(th) && th.frames.Empty? && !th.base.User?
    ensures var o := CallStep(th);
            o.Go? && Good(o.thread) && o.thread.alive == th.alive && th.state != Suspended
  {
  }

  lemma SwapsKeep(th: Thread)
    requires Good(th)
    ensures th.state == RunDisabled ==> Good(Swap(th, SigDisabled, RunDisabled))
    ensures th.state == RunEnabled ==> Good(Swap(th, SigEnabled, RunEnabled))
    ensures th.state == Suspended ==> Good(Swap(th, RunEnabled, Suspended))
  {
  }

  // ------------------------------------------------------------------ what the system keeps

  // The list names the checkpoint thread and existing threads, each once; every other thread is in good order.
  ghost predicate Members(threads: map<Tid, Thread>, list: seq<Tid>, ckpt: Tid) {
    && Distinct(list) && ckpt in list && (forall t :: t in list ==> t in threads)
    && threads[ckpt].state == CkpntThread && threads[ckpt].alive
    && forall t :: t in list && t != ckpt ==> Good(threads[t])
  }

  predicate Stopped(threads: map<Tid, Thread>, ckpt: Tid, t: Tid) {
    t in threads && (t == ckpt || threads[t].state == Suspended)
  }

  // All threads from position lo up to position hi are stopped.
  ghost predicate AllStopped(threads: map<Tid, Thread>, list: seq<Tid>, ckpt: Tid, lo: int, hi: int) {
    forall j {:trigger list[j]} :: lo <= j < hi && 0 <= j < |list| ==> Stopped(threads, ckpt, list[j])
  }

  ghost predicate ImageFits(s: System) {
    && s.store.mem == s.store.frozen
    && (forall a :: a in s.store.image ==> a in s.store.frozen && s.store.image[a] == s.store.frozen[a])
    && (forall t :: t in s.store.saved ==> s.store.saved[t] == Suspended)
  }

  ghost predicate Phase(s: System) {
    match s.pc
    case Sleep => true
    case Rescan => true
    case Probe(i) => !s.needRescan ==> AllStopped(s.threads, s.list, s.ckpt, 0, i)
    case Look(i) => !s.needRescan ==> AllStopped(s.threads, s.list, s.ckpt, 0, i)
    case SwapDisabled(i) => !s.needRescan ==> AllStopped(s.threads, s.list, s.ckpt, 0, i)
    case SwapEnabled(i) => !s.needRescan ==> AllStopped(s.threads, s.list, s.ckpt, 0, i)
    case Signal(i) => !s.needRescan ==> AllStopped(s.threads, s.list, s.ckpt, 0, i)
    case Quiet => AllStopped(s.threads, s.list, s.ckpt, 0, |s.list|) && ImageFits(s)
    case Resume(i) => AllStopped(s.threads, s.list, s.ckpt, i, |s.list|)
  }

  ghost predicate Inv(s: System) {
    !s.aborted && Members(s.threads, s.list, s.ckpt) && (Locked(s.pc) ==> s.pc.i < |s.list|) && Phase(s)
  }

  lemma {:induction false} RemoveDistinct(list: seq<Tid>, t: Tid)
    requires Distinct(list)
    ensures Distinct(Remove(list, t)) && t !in Remove(list, t)
  {
    if list != [] {
      RemoveDistinct(list[1..], t);
      if list[0] != t {
        assert list[0] !in list[1..];
      }
    }
  }

  // A change of one record leaves the membership intact, and the stopped ranges that do not depend on it.
  lemma RecordChanges(threads: map<Tid, Thread>, list: seq<Tid>, ckpt: Tid, t: Tid, th: Thread)
    requires Members(threads, list, ckpt) && t in list && t != ckpt && Good(th)
    ensures Members(threads[t := th], list, ckpt)
  {
    hide Good, Distinct;
  }

  lemma StoppedStays(threads: map<Tid, Thread>, list: seq<Tid>, ckpt: Tid, t: Tid, th: Thread, lo: int, hi: int)
    requires AllStopped(threads, list, ckpt, lo, hi)
    requires t in threads && (threads[t].state == Suspended ==> th.state == Suspended)
    ensures AllStopped(threads[t := th], list, ckpt, lo, hi)
  {
  }

  lemma PhaseStays(s: System, t: Tid, th: Thread)
    requires Phase(s) && t in s.threads && (s.threads[t].state == Suspended ==> th.state == Suspended)
    ensures Phase(s.(threads := s.threads[t := th]))
  {
    hide AllStopped;
    match s.pc
    case Quiet => StoppedStays(s.threads, s.list, s.ckpt, t, th, 0, |s.list|);
    case Resume(i) => StoppedStays(s.threads, s.list, s.ckpt, t, th, i, |s.list|);
    case Sleep =>
    case Rescan =>
    case _ => if !s.needRescan { StoppedStays(s.threads, s.list, s.ckpt, t, th, 0, s.pc.i); }
  }

  // A step of one thread that changes only its own record.
  lemma ThreadMoves(s: System, t: Tid, th: Thread)
    requires Inv(s) && t in s.list && t != s.ckpt && Good(th)
    requires t in s.threads && (s.threads[t].state == Suspended ==> th.state == Suspended)
    ensures Inv(s.(threads := s.threads[t := th]))
  {
    hide Good, Phase, Members;
    RecordChanges(s.threads, s.list, s.ckpt, t, th);
    PhaseStays(s, t, th);
  }

  // While everything is suspended, no user code runs.
  lemma QuietUsers(s: System, t: Tid)
    requires Inv(s) && s.pc == Quiet && Listed(s, t)
    ensures s.threads[t].state == Suspended && s.threads[t].frames.Push?
  {
    var j :| 0 <= j < |s.list| && s.list[j] == t;
    assert Stopped(s.threads, s.ckpt, s.list[j]);
  }

  lemma WriteKeeps(s: System, t: Tid, a: nat, v: int)
    requires Inv(s) && Enabled(s, Write(t, a, v))
    ensures Inv(Apply(s, Write(t, a, v)))
  {
    hide Good, Members, AllStopped;
    if s.pc == Quiet { QuietUsers(s, t); }
  }

  lemma CreateMembers(threads: map<Tid, Thread>, list: seq<Tid>, ckpt: Tid, child: Tid)
    requires Members(threads, list, ckpt) && child !in threads
    ensures Members(threads[child := FRESH], [child] + list, ckpt)
  {
  }

  lemma CreateKeeps(s: System, t: Tid, child: Tid)
    requires Inv(s) && Enabled(s, Create(t, child))
    ensures Inv(Apply(s, Create(t, child)))
  {
    hide Good, Members, AllStopped;
    if s.pc == Quiet { QuietUsers(s, t); }
    CreateMembers(s.threads, s.list, s.ckpt, child);
  }

  lemma RemoveMembers(threads: map<Tid, Thread>, list: seq<Tid>, ckpt: Tid, t: Tid, th: Thread)
    requires Members(threads, list, ckpt) && t in list && t != ckpt
    ensures Members(threads[t := th], Remove(list, t), ckpt)
  {
    hide Good;
    RemoveDistinct(list, t);
  }

  lemma FinishKeeps(s: System, t: Tid)
    requires Inv(s) && Enabled(s, Finish(t))
    ensures Inv(Apply(s, Finish(t)))
  {
    hide Good, Members, AllStopped;
    if s.pc == Quiet { QuietUsers(s, t); }
    RemoveMembers(s.threads, s.list, s.ckpt, t, s.threads[t].(alive := false));
  }

  // ------------------------------------------------------------------ the steps of the checkpoint thread

  lemma ScanOn(s: System, i: nat)
    requires !s.aborted && Members(s.threads, s.list, s.ckpt) && i <= |s.list|
    requires !s.needRescan ==> AllStopped(s.threads, s.list, s.ckpt, 0, i)
    ensures Inv(ProbeNext(s, i))
  {
    hide Members, AllStopped;
  }

  lemma OneMore(s: System, i: nat)
    requires i < |s.list| && AllStopped(s.threads, s.list, s.ckpt, 0, i) && Stopped(s.threads, s.ckpt, s.list[i])
    ensures AllStopped(s.threads, s.list, s.ckpt, 0, i + 1)
  {
  }

  // The record at position i, in the middle of a scan.
  lemma Entry(s: System, i: nat)
    requires Members(s.threads, s.list, s.ckpt) && i < |s.list|
    ensures forall t :: t in s.list ==> t in s.threads
    ensures s.threads[s.list[i]].state == CkpntThread <==> s.list[i] == s.ckpt
    ensures s.list[i] == s.ckpt ==> s.threads[s.list[i]].alive
    ensures s.list[i] != s.ckpt ==> Good(s.threads[s.list[i]])
  {
  }

  lemma DropKeeps(s: System, t: Tid)
    requires !s.aborted && Members(s.threads, s.list, s.ckpt) && t in s.list && t != s.ckpt
    ensures Inv(s.(list := Remove(s.list, t), pc := Rescan))
  {
    RemoveMembers(s.threads, s.list, s.ckpt, t, s.threads[t]);
    assert s.threads == s.threads[t := s.threads[t]];
    hide Members;
  }

  lemma LookKeeps(s: System)
    requires Inv(s) && s.pc.Look?
    ensures Enabled(s, Ckpt) && Inv(CkptStep(s))
  {
    hide Good, Members, AllStopped;
    var i := s.pc.i;
    Entry(s, i);
    if Stopped(s.threads, s.ckpt, s.list[i]) {
      if !s.needRescan { OneMore(s, i); }
      ScanOn(s, i + 1);
    }
  }

  lemma ProbeKeeps(s: System)
    requires Inv(s) && s.pc.Probe?
    ensures Enabled(s, Ckpt) && Inv(CkptStep(s))
  {
    hide Good, Members, AllStopped;
    Entry(s, s.pc.i);
    if !s.threads[s.list[s.pc.i]].alive { DropKeeps(s, s.list[s.pc.i]); }
  }

  lemma SwapDisabledKeeps(s: System)
    requires Inv(s) && s.pc.SwapDisabled?
    ensures Enabled(s, Ckpt) && Inv(CkptStep(s))
  {
    hide Good, Members, AllStopped;
    var i := s.pc.i;
    var t := s.list[i];
    Entry(s, i);
    if s.threads[t].state == RunDisabled {
      SwapsKeep(s.threads[t]);
      RecordChanges(s.threads, s.list, s.ckpt, t, Swap(s.threads[t], SigDisabled, RunDisabled));
      ScanOn(s.(threads := s.threads[t := Swap(s.threads[t], SigDisabled, RunDisabled)], needRescan := true), i + 1);
    }
  }

  lemma SwapEnabledKeeps(s: System)
    requires Inv(s) && s.pc.SwapEnabled?
    ensures Enabled(s, Ckpt) && Inv(CkptStep(s))
  {
    hide Good, Members, AllStopped;
    var i := s.pc.i;
    var t := s.list[i];
    Entry(s, i);
    if s.threads[t].state == RunEnabled {
      SwapsKeep(s.threads[t]);
      RecordChanges(s.threads, s.list, s.ckpt, t, Swap(s.threads[t], SigEnabled, RunEnabled));
      if !s.needRescan {
        StoppedStays(s.threads, s.list, s.ckpt, t, Swap(s.threads[t], SigEnabled, RunEnabled), 0, i);
      }
    }
  }

  lemma SignalKeeps(s: System)
    requires Inv(s) && s.pc.Signal?
    ensures Enabled(s, Ckpt) && Inv(CkptStep(s))
  {
    hide Good, Members, AllStopped;
    Entry(s, s.pc.i);
    if !s.threads[s.list[s.pc.i]].alive { DropKeeps(s, s.list[s.pc.i]); }
    else { ScanOn(s.(needRescan := true), s.pc.i + 1); }
  }

  lemma ResumeOn(s: System, i: nat)
    requires !s.aborted && Members(s.threads, s.list, s.ckpt) && i <= |s.list|
    requires AllStopped(s.threads, s.list, s.ckpt, i, |s.list|)
    ensures Inv(ResumeNext(s, i))
  {
    hide Members, AllStopped;
  }

  lemma ResumeKeeps(s: System)
    requires Inv(s) && s.pc.Resume?
    ensures Enabled(s, Ckpt) && Inv(CkptStep(s))
  {
    var i := s.pc.i;
    var t := s.list[i];
    assert Distinct(s.list);
    hide Good, Members, AllStopped, Distinct;
    Entry(s, i);
    var th := Swap(s.threads[t], RunEnabled, Suspended);
    if t == s.ckpt {
      ResumeOn(s, i + 1);
    } else {
      SwapsKeep(s.threads[t]);
      RecordChanges(s.threads, s.list, s.ckpt, t, th);
      ResumeOn(s.(threads := s.threads[t := th]), i + 1);
    }
  }

  lemma OutsideKeeps(s: System)
    requires Inv(s) && (s.pc == Sleep || s.pc == Rescan || s.pc == Quiet)
    ensures Enabled(s, Ckpt) && Inv(CkptStep(s))
  {
    assert Enabled(s, Ckpt);
    assert |s.list| > 0;
    hide Good, Members, AllStopped;
    if s.pc == Rescan {
      ScanOn(s.(needRescan := false), 0);
    }
    if s.pc == Quiet { ResumeOn(s, 0); }
  }

  // ------------------------------------------------------------------ whole runs

  lemma CkptKeeps(s: System)
    requires Inv(s)
    ensures Enabled(s, Ckpt) && Inv(CkptStep(s))
  {
    hide *;
    match s.pc
    case Sleep => OutsideKeeps(s);
    case Rescan => OutsideKeeps(s);
    case Quiet => OutsideKeeps(s);
    case Probe(_) => ProbeKeeps(s);
    case Look(_) => LookKeeps(s);
    case SwapDisabled(_) => SwapDisabledKeeps(s);
    case SwapEnabled(_) => SwapEnabledKeeps(s);
    case Signal(_) => SignalKeeps(s);
    case Resume(_) => ResumeKeeps(s);
  }

  // Everything a thread does inside the stop handler, mtcp_ok and mtcp_no.
  lemma OwnStepKeeps(s: System, t: Tid, step: Step)
    requires Inv(s) && Enabled(s, step)
    requires step == Interrupt(t) || step == InCall(t) || step == CallOk(t) || step == CallNo(t) || step == Vanish(t)
             || (step.InHandler? && step.t == t)
    ensures Inv(Apply(s, step))
  {
    var i :| 0 <= i < |s.list| && s.list[i] == t;
    Entry(s, i);
    hide Phase, Members;
    var th := s.threads[t];
    match step
    case Interrupt(_) => ThreadMoves(s, t, th.(frames := Push(Enter, th.frames)));
    case InHandler(_, b) => HandlerKeeps(th, b); ThreadMoves(s, t, HandlerStep(th, b).thread);
    case InCall(_) => CallKeeps(th); ThreadMoves(s, t, CallStep(th).thread);
    case CallOk(_) => ThreadMoves(s, t, th.(base := OkEnter));
    case CallNo(_) => ThreadMoves(s, t, th.(base := NoEnter));
    case Vanish(_) => ThreadMoves(s, t, th.(alive := false));
  }

  lemma SaveKeeps(s: System, step: Step)
    requires Inv(s) && Enabled(s, step) && (step.Save? || step.SaveState?)
    ensures Inv(Apply(s, step))
  {
    if step.SaveState? {
      var j :| 0 <= j < |s.list| && s.list[j] == step.t;
      assert Stopped(s.threads, s.ckpt, s.list[j]);
    }
    hide Good, Members;
  }

  lemma StepKeeps(s: System, step: Step)
    requires Inv(s) && Enabled(s, step)
    ensures Inv(Apply(s, step))
  {
    hide Good, Members, AllStopped, Phase, Inv, HandlerStep, CallStep, CkptStep;
    match step
    case Write(t, a, v) => WriteKeeps(s, t, a, v);
    case Create(t, child) => CreateKeeps(s, t, child);
    case Finish(t) => FinishKeeps(s, t);
    case Ckpt => CkptKeeps(s);
    case Save(_) => SaveKeeps(s, step);
    case SaveState(_) => SaveKeeps(s, step);
    case _ => OwnStepKeeps(s, step.t, step);
  }
}
