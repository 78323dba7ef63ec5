/** What the steps of the thread system do to the lists, the CPUs and the threads, and what that makes of whole runs:
    wait channels are queues, a sleeper leaves by a wake and reaches a run queue, a thread comes back from
    thread_switch at the interrupt level it left with. */
module ThreadRuns {
  import opened Options
  import opened ThreadSystem

  // ---------- what each step does to the lists ----------

  ghost predicate ListsSameBut(s: Sys, s2: Sys, changed: set<ListId>) {
    forall l :: l !in changed ==> ListOf(s2, l) == ListOf(s, l)
  }

  /** The first thread of `from` becomes the last of `to`. */
  ghost predicate FirstToLast(s: Sys, s2: Sys, from: ListId, to: ListId) {
    var q := ListOf(s, from);
    && q != [] && ListsSameBut(s, s2, {from, to})
    && (from != to ==> ListOf(s2, from) == q[1..] && ListOf(s2, to) == ListOf(s, to) + [q[0]])
    && (from == to ==> ListOf(s2, to) == q[1..] + [q[0]])
  }

  /** The last thread of `from` becomes the first of another list `to`. */
  ghost predicate LastToFirst(s: Sys, s2: Sys, from: ListId, to: ListId) {
    var q := ListOf(s, from);
    && q != [] && ListsSameBut(s, s2, {from, to})
    && ListOf(s2, from) == q[..|q| - 1] && ListOf(s2, to) == [q[|q| - 1]] + ListOf(s, to)
  }

  ghost predicate Appended(s: Sys, s2: Sys, t: Tid, to: ListId) {
    ListOf(s2, to) == ListOf(s, to) + [t] && ListsSameBut(s, s2, {to})
  }

  /** The list a thread in thread_switch is about to be put on, if any. */
  function Destination(s: Sys, c: nat): Option<ListId>
    requires c < |s.cpus| && s.cpus[c].pc.Locked?
  {
    match s.cpus[c].pc.kind
    case ToReady => if ListOf(s, RunQ(c)) == [] then None else Some(RunQ(c))
    case ToSleep(w) => Some(Chan(w))
    case ToZombie => Some(Zombies(c))
  }

  ghost predicate MovesOf(s: Sys, step: Step, s2: Sys) {
    HasCpu(s, step.c) &&
    match step
    case Fork(c, t) => Appended(s, s2, t, RunQ(c))
    case WakeTake(c, w) => FirstToLast(s, s2, Chan(w), Waking(c))
    case WakePut(c) =>
      var q := ListOf(s, Waking(c));
      q != [] && q[0] in s.threads && FirstToLast(s, s2, Waking(c), RunQ(s.threads[q[0]].cpu))
    case SwitchPlace(c) =>
      s.cpus[c].pc.Locked? &&
      var to := Destination(s, c);
      if to.Some? then Appended(s, s2, s.cpus[c].cur, to.value) else ListsSameBut(s, s2, {})
    case SwitchPick(c) =>
      var q := ListOf(s, RunQ(c));
      ListsSameBut(s, s2, {RunQ(c)}) && ListOf(s2, RunQ(c)) == if q == [] then [] else q[1..]
    case SwitchFinish(c) => ListsSameBut(s, s2, {Zombies(c)}) && ListOf(s2, Zombies(c)) == []
    case MigrateTake(c) => LastToFirst(s, s2, RunQ(c), Victims(c))
    case MigrateSend(c, d) => FirstToLast(s, s2, Victims(c), RunQ(d))
    case MigrateSkip(c) => FirstToLast(s, s2, Victims(c), Victims(c))
    case MigrateBack(c) => FirstToLast(s, s2, Victims(c), RunQ(c))
    case _ => ListsSameBut(s, s2, {})
  }

  lemma SplxLists(s: Sys, c: nat, spl: nat)
    requires HasCpu(s, c)
    ensures Splx(s, c, spl).lists == s.lists && HasCpu(Splx(s, c, spl), c)
  {
  }

  lemma AcquireLists(s: Sys, c: nat, l: Lock)
    requires HasCpu(s, c)
    ensures Acquire(s, c, l).lists == s.lists
  {
  }

  lemma ReleaseLists(s: Sys, c: nat, l: Lock)
    requires HasCpu(s, c)
    ensures var s2 := Release(s, c, l);
            s2.lists == s.lists && HasCpu(s2, c) && s2.cpus[c].cur == s.cpus[c].cur
  {
  }

  lemma MoveLists(s: Sys, from: ListId, to: ListId)
    requires Takeable(s, from, true)
    ensures FirstToLast(s, Move(s, from, true, to, false), from, to)
  {
  }

  lemma MoveBackLists(s: Sys, from: ListId, to: ListId)
    requires Takeable(s, from, false) && from != to
    ensures LastToFirst(s, Move(s, from, false, to, true), from, to)
  {
  }

  lemma EnqueueLists(s: Sys, t: Tid, c: nat, d: nat)
    requires t in s.threads && d < |s.cpus|
    ensures Appended(s, Enqueue(s, t, c, d), t, RunQ(d))
  {
  }

  lemma TakeLists(s: Sys, from: ListId, s1: Sys, s2: Sys, d: nat)
    requires Takeable(s, from, true) && from != RunQ(d) && s1.lists == Unlink(s, from, true).lists
    requires Appended(s1, s2, First(s, from, true), RunQ(d))
    ensures FirstToLast(s, s2, from, RunQ(d))
  {
  }

  lemma PlaceLists(s: Sys, c: nat, kind: Kind)
    requires HasCpu(s, c) && s.cpus[c].pc == Locked(kind) && Destination(s, c).Some?
    ensures Appended(s, PlaceCurrent(s, c, kind), s.cpus[c].cur, Destination(s, c).value)
  {
    hide Release, Enqueue;
    var t := s.cpus[c].cur;
    match kind
    case ToReady => EnqueueLists(s, t, c, c);
    case ToSleep(w) => ReleaseLists(Link(s, t, Chan(w), false), c, ChanLock(w));
    case ToZombie =>
  }

  lemma FinishLists(s: Sys, c: nat)
    requires HasCpu(s, c) && s.cpus[c].cur !in ListOf(s, Zombies(c))
    ensures FinishSwitch(s, c).lists == s.lists[Zombies(c) := []]
  {
    hide Release, Splx;
    var s0 := SetCur(s, c, Cur(s, c).(state := Run));
    ReleaseLists(s0, c, RunqLock(c));
    var s2 := Exorcise(Release(s0, c, RunqLock(c)), c);
    assert s2.lists == s.lists[Zombies(c) := []];
    SplxLists(s2, c, if Cur(s2, c).isNew then 0 else Cur(s2, c).spl);
  }

  lemma LockLists(s: Sys, c: nat, kind: Kind)
    requires HasCpu(s, c)
    ensures LockForSwitch(s, c, kind).lists == s.lists
  {
    hide Splx, Acquire;
    var s1 := SetCur(s, c, Cur(s, c).(spl := Cur(s, c).curspl));
    SplxLists(s1, c, 1);
    AcquireLists(Splx(s1, c, 1), c, RunqLock(c));
  }

  lemma NothingToDoLists(s: Sys, c: nat)
    requires HasCpu(s, c)
    ensures NothingToDo(s, c).lists == s.lists
  {
    hide Splx, Release;
    ReleaseLists(s, c, RunqLock(c));
    var s1 := Release(s, c, RunqLock(c));
    SplxLists(s1, c, Cur(s1, c).spl);
  }

  lemma PutWokenLists(s: Sys, c: nat)
    requires Enabled(s, WakePut(c))
    ensures FirstToLast(s, PutWoken(s, c), Waking(c), RunQ(s.threads[ListOf(s, Waking(c))[0]].cpu))
  {
    hide Enqueue, Appended, FirstToLast;
    var t, s1 := First(s, Waking(c), true), Unlink(s, Waking(c), true);
    EnqueueLists(s1, t, c, s.threads[t].cpu);
    TakeLists(s, Waking(c), s1, PutWoken(s, c), s.threads[t].cpu);
  }

  lemma SendVictimLists(s: Sys, c: nat, d: nat)
    requires Enabled(s, MigrateSend(c, d))
    ensures FirstToLast(s, SendVictim(s, c, d), Victims(c), RunQ(d))
  {
    hide Enqueue, Appended, FirstToLast;
    var t, s1 := First(s, Victims(c), true), Unlink(s, Victims(c), true);
    var s2 := s1.(threads := s1.threads[t := s1.threads[t].(cpu := d)]);
    EnqueueLists(s2, t, c, d);
    TakeLists(s, Victims(c), s2, SendVictim(s, c, d), d);
  }

  lemma ForkLists(s: Sys, c: nat, t: Tid)
    requires HasCpu(s, c)
    ensures Appended(s, ForkThread(s, c, t), t, RunQ(c))
  {
    var child := Thread(Ready, Cur(s, c).cpu, 1, 2, true, true, false, 0, None);
    EnqueueLists(s.(threads := s.threads[t := child]), t, c, c);
  }

  lemma PickLists(s: Sys, c: nat)
    requires Enabled(s, SwitchPick(c))
    ensures MovesOf(s, SwitchPick(c), Next(s, SwitchPick(c)))
  {
    hide Release;
    if ListOf(s, RunQ(c)) == [] { ReleaseLists(s, c, RunqLock(c)); }
  }

  lemma StepMoves(s: Sys, step: Step)
    requires Enabled(s, step)
    ensures MovesOf(s, step, Next(s, step))
  {
    hide Splx, Acquire, Release, ForkThread, Move, PutWoken, LockForSwitch, NothingToDo, PlaceCurrent, PickNext,
         FinishSwitch, SendVictim, FirstToLast, LastToFirst, Appended;
    match step
    case DoSplx(c, spl) => SplxLists(s, c, spl);
    case DoAcquire(c, l) => AcquireLists(s, c, l);
    case DoRelease(c, l) => ReleaseLists(s, c, l);
    case Fork(c, t) => ForkLists(s, c, t);
    case WakeTake(c, w) => MoveLists(s, Chan(w), Waking(c));
    case WakePut(c) => PutWokenLists(s, c);
    case SwitchLock(c, kind) => LockLists(s, c, kind);
    case SwitchPlace(c) =>
      if Destination(s, c).None? { NothingToDoLists(s, c); } else { PlaceLists(s, c, s.cpus[c].pc.kind); }
    case SwitchPick(c) => PickLists(s, c);
    case SwitchFinish(c) => FinishLists(s, c);
    case IdleRelock(c) => AcquireLists(s, c, RunqLock(c));
    case MigrateTake(c) => MoveBackLists(s, RunQ(c), Victims(c));
    case MigrateSend(c, d) => SendVictimLists(s, c, d);
    case MigrateSkip(c) => MoveLists(s, Victims(c), Victims(c));
    case MigrateBack(c) => MoveLists(s, Victims(c), RunQ(c));
    case _ =>
  }

  // ---------- what each step does to the CPUs and the threads ----------

  ghost predicate CpusSameBut(s: Sys, s2: Sys, c: nat) {
    |s2.cpus| == |s.cpus| && forall d :: 0 <= d < |s.cpus| && d != c ==> s2.cpus[d] == s.cpus[d]
  }

  ghost predicate ThreadsSameBut(s: Sys, s2: Sys, changed: set<Tid>) {
    forall t :: t !in changed ==>
      (t in s2.threads <==> t in s.threads) && (t in s.threads ==> s2.threads[t] == s.threads[t])
  }

  /** CPU c is at `pc` with the locks `held`, the same thread current as before, which is now `x` but for its count of
      reasons to keep interrupts off; no other CPU and no other thread has changed. */
  ghost predicate Turns(s: Sys, s2: Sys, c: nat, pc: Pc, held: set<Lock>, x: Thread)
    requires HasCpu(s, c)
  {
    var cur := s.cpus[c].cur;
    && CpusSameBut(s, s2, c) && ThreadsSameBut(s, s2, {cur}) && cur in s2.threads
    && s2.threads[cur] == x.(iplhighCount := s2.threads[cur].iplhighCount)
    && var k, k2 := s.cpus[c], s2.cpus[c];
       k2.cur == cur && k2.pc == pc && k2.held == held && k2.ipiPending == k.ipiPending && k2.ipiLine == k.ipiLine
  }

  /** CPU d, if idle and not the one acting, has been sent the unidle interrupt; no other CPU has changed. */
  ghost predicate Interrupted(s: Sys, s2: Sys, c: nat, d: nat) {
    && d < |s.cpus| && CpusSameBut(s, s2, d)
    && s2.cpus[d] == if s.cpus[d].isidle && d != c then s.cpus[d].(ipiPending := true, ipiLine := true) else s.cpus[d]
  }

  /** Thread t is now `x`, and no other thread has changed. */
  ghost predicate Becomes(s: Sys, s2: Sys, t: Tid, x: Thread) {
    t in s2.threads && s2.threads[t] == x && ThreadsSameBut(s, s2, {t})
  }

  function StateFor(kind: Kind): State {
    match kind
    case ToReady => Ready
    case ToSleep(_) => Sleep
    case ToZombie => Zombie
  }

  /** CPU c turns from its current thread to the first of its run queue, which is then on no list. */
  ghost predicate Chooses(s: Sys, s2: Sys, c: nat)
    requires HasCpu(s, c)
  {
    var k, q := s.cpus[c], ListOf(s, RunQ(c));
    && q != [] && q[0] in s.threads && Becomes(s, s2, q[0], s.threads[q[0]].(where := None))
    && s2.cpus == s.cpus[c := k.(isidle := false, cur := q[0], pc := Switching(k.cur))]
  }

  /** The current thread of CPU c runs outside thread_switch, at the level it left with, or at 0 if it is new; the
      zombies of c, and no other thread, have been destroyed. */
  ghost predicate ComesBack(s: Sys, s2: Sys, c: nat)
    requires HasCpu(s, c)
  {
    var k, t := s.cpus[c], Cur(s, c);
    && CpusSameBut(s, s2, c)
    && s2.cpus[c] == k.(pc := Running, held := {}, spinlocks := s2.cpus[c].spinlocks, irqOn := s2.cpus[c].irqOn)
    && (forall x :: x in s2.threads <==> x in s.threads && x !in ListOf(s, Zombies(c)))
    && (forall x :: x in s2.threads && x != k.cur ==> s2.threads[x] == s.threads[x])
    && k.cur in s2.threads
    && s2.threads[k.cur] == t.(state := Run, isNew := false, curspl := if t.isNew then 0 else t.spl,
                               iplhighCount := s2.threads[k.cur].iplhighCount)
  }

  ghost predicate ControlOf(s: Sys, step: Step, s2: Sys) {
    HasCpu(s, step.c) &&
    var k, t := s.cpus[step.c], Cur(s, step.c);
    match step
    case DoSplx(c, spl) => Turns(s, s2, c, k.pc, k.held, t.(curspl := spl))
    case DoAcquire(c, l) => Turns(s, s2, c, k.pc, k.held + {l}, t)
    case DoRelease(c, l) => Turns(s, s2, c, k.pc, k.held - {l}, t)
    case InterruptEnter(c) => Turns(s, s2, c, k.pc, k.held, t.(inInterrupt := true, curspl := 1))
    case InterruptExit(c) => Turns(s, s2, c, k.pc, k.held, t.(inInterrupt := false, curspl := 0))
    case IpiAck(c) => s2.cpus == s.cpus[c := k.(ipiPending := false)] && s2.threads == s.threads
    case IpiClear(c) => s2.cpus == s.cpus[c := k.(ipiLine := false)] && s2.threads == s.threads
    case Fork(c, x) =>
      s2.cpus == s.cpus && Becomes(s, s2, x, Thread(Ready, c, 1, 2, true, true, false, 0, Some(RunQ(c))))
    case WakeTake(c, w) =>
      var q := ListOf(s, Chan(w));
      q != [] && q[0] in s.threads && s2.cpus == s.cpus &&
      Becomes(s, s2, q[0], s.threads[q[0]].(where := Some(Waking(c))))
    case WakePut(c) =>
      var q := ListOf(s, Waking(c));
      q != [] && q[0] in s.threads &&
      var x := s.threads[q[0]];
      Interrupted(s, s2, c, x.cpu) && Becomes(s, s2, q[0], x.(where := Some(RunQ(x.cpu)), state := Ready))
    case SwitchLock(c, kind) =>
      Turns(s, s2, c, Locked(kind), k.held + {RunqLock(c)}, t.(spl := t.curspl, curspl := 1))
    case SwitchPlace(c) =>
      k.pc.Locked? &&
      if Destination(s, c).None? then Turns(s, s2, c, Running, k.held - {RunqLock(c)}, t.(curspl := t.spl))
      else Turns(s, s2, c, Picking, {RunqLock(c)}, t.(where := Destination(s, c), state := StateFor(k.pc.kind)))
    case SwitchPick(c) =>
      if ListOf(s, RunQ(c)) == [] then Turns(s, s2, c, Idle, k.held - {RunqLock(c)}, t) else Chooses(s, s2, c)
    case SwitchFrame(c) => k.pc.Switching? && k.pc.prev in s.threads && Exchanged(s, s2, c, k.pc.prev)
    case SwitchFinish(c) => ComesBack(s, s2, c)
    case IdleReturn(c) => Turns(s, s2, c, IdleWoken, k.held, t)
    case IdleInterrupt(c) => Turns(s, s2, c, IdleHandler, k.held, t.(inInterrupt := true))
    case IdleInterruptExit(c) => Turns(s, s2, c, IdleWoken, k.held, t.(inInterrupt := false))
    case IdleRelock(c) => Turns(s, s2, c, Picking, k.held + {RunqLock(c)}, t)
    case MigrateTake(c) =>
      var q := ListOf(s, RunQ(c));
      q != [] && q[|q| - 1] in s.threads && s2.cpus == s.cpus &&
      Becomes(s, s2, q[|q| - 1], s.threads[q[|q| - 1]].(where := Some(Victims(c))))
    case MigrateSend(c, d) =>
      var q := ListOf(s, Victims(c));
      q != [] && q[0] in s.threads && Interrupted(s, s2, c, d) &&
      Becomes(s, s2, q[0], s.threads[q[0]].(where := Some(RunQ(d)), state := Ready, cpu := d))
    case MigrateSkip(c) =>
      var q := ListOf(s, Victims(c));
      q != [] && q[0] in s.threads && s2.cpus == s.cpus && Becomes(s, s2, q[0], s.threads[q[0]])
    case MigrateBack(c) =>
      var q := ListOf(s, Victims(c));
      q != [] && q[0] in s.threads && s2.cpus == s.cpus &&
      Becomes(s, s2, q[0], s.threads[q[0]].(where := Some(RunQ(c))))
  }

  lemma EffectTurns(s: Sys, s2: Sys, c: nat, k: Cpu, x: Thread)
    requires HasCpu(s, c) && Effect(s, s2, c, k, x)
    requires k.ipiPending == s.cpus[c].ipiPending && k.ipiLine == s.cpus[c].ipiLine
    ensures Turns(s, s2, c, k.pc, k.held, x)
  {
  }

  lemma SplxControl(s: Sys, c: nat, spl: nat)
    requires Inv(s) && HasCpu(s, c) && spl <= 1
    ensures Turns(s, Splx(s, c, spl), c, s.cpus[c].pc, s.cpus[c].held, Cur(s, c).(curspl := spl))
  {
    hide Inv, Effect, Splx, Turns;
    InvCurspl(s, c);
    SplxEffect(s, c, spl);
    EffectTurns(s, Splx(s, c, spl), c, SplxCpu(s.cpus[c], Cur(s, c), spl), SplxThread(Cur(s, c), spl));
    TurnsCount(s, Splx(s, c, spl), c, s.cpus[c].pc, s.cpus[c].held, SplxThread(Cur(s, c), spl),
        Cur(s, c).(curspl := spl));
  }

  lemma TurnsCount(s: Sys, s2: Sys, c: nat, pc: Pc, held: set<Lock>, x: Thread, y: Thread)
    requires HasCpu(s, c) && Turns(s, s2, c, pc, held, x) && y == x.(iplhighCount := y.iplhighCount)
    ensures Turns(s, s2, c, pc, held, y)
  {
  }

  lemma LockControl(s: Sys, c: nat, kind: Kind)
    requires Inv(s) && HasCpu(s, c)
    ensures Turns(s, LockForSwitch(s, c, kind), c, Locked(kind), s.cpus[c].held + {RunqLock(c)},
                  Cur(s, c).(spl := Cur(s, c).curspl, curspl := 1))
  {
    hide Inv, Effect, LockForSwitch, Turns;
    var k, t, s2 := s.cpus[c], Cur(s, c), LockForSwitch(s, c, kind);
    InvCurspl(s, c);
    InvIrq(s, c);
    LockForSwitchEffect(s, c, kind);
    EffectTurns(s, s2, c, LockedCpu(k, t, c, kind), LockedThread(t));
    TurnsCount(s, s2, c, Locked(kind), k.held + {RunqLock(c)}, LockedThread(t), t.(spl := t.curspl, curspl := 1));
  }

  lemma NothingToDoControl(s: Sys, c: nat)
    requires Inv(s) && HasCpu(s, c) && s.cpus[c].pc == Locked(ToReady)
    ensures Turns(s, NothingToDo(s, c), c, Running, s.cpus[c].held - {RunqLock(c)}, Cur(s, c).(curspl := Cur(s, c).spl))
  {
    hide Inv, Effect, NothingToDo, Turns;
    var k, t, s2 := s.cpus[c], Cur(s, c), NothingToDo(s, c);
    InvCurspl(s, c);
    InvLocked(s, c);
    NothingToDoEffect(s, c);
    EffectTurns(s, s2, c, UnlockedCpu(k, t, c, t.spl), UnlockedThread(t, t.spl));
    TurnsCount(s, s2, c, Running, k.held - {RunqLock(c)}, UnlockedThread(t, t.spl), t.(curspl := t.spl));
  }

  lemma PlacedTurns(s: Sys, s2: Sys, c: nat, kind: Kind, l: ListId)
    requires HasCpu(s, c) && Placed(s, s2, c, PlacedCpu(s.cpus[c], c, kind), PlacedThread(Cur(s, c), c, kind), l)
    requires s.cpus[c].held == {RunqLock(c)} + (if kind.ToSleep? then {ChanLock(kind.chan)} else {})
    requires l == if kind.ToReady? then RunQ(c) else if kind.ToSleep? then Chan(kind.chan) else Zombies(c)
    ensures Turns(s, s2, c, Picking, {RunqLock(c)}, Cur(s, c).(where := Some(l), state := StateFor(kind)))
  {
    assert s2.cpus[c].held == {RunqLock(c)};
  }

  lemma LockedHeld(s: Sys, c: nat)
    requires Inv(s) && HasCpu(s, c) && s.cpus[c].pc.Locked?
    ensures var kind := s.cpus[c].pc.kind;
            s.cpus[c].held == {RunqLock(c)} + (if kind.ToSleep? then {ChanLock(kind.chan)} else {})
  {
    hide ThreadOk, ListOk, LocksOk;
    assert CpuOk(s, c);
  }

  lemma PlaceControl(s: Sys, c: nat, kind: Kind)
    requires Inv(s) && HasCpu(s, c) && s.cpus[c].pc == Locked(kind) && Destination(s, c).Some?
    ensures Turns(s, PlaceCurrent(s, c, kind), c, Picking, {RunqLock(c)},
                  Cur(s, c).(where := Destination(s, c), state := StateFor(kind)))
  {
    hide Inv, CpuOk, ThreadOk, ListsOk, PlaceCurrent, Placed, PlacedCpu, PlacedThread, Turns;
    InvHands(s);
    InvAt(s, c);
    InvUnplaced(s, c);
    LockedHeld(s, c);
    match kind
    case ToReady => PlaceReady(s, c); PlacedTurns(s, PlaceCurrent(s, c, kind), c, kind, RunQ(c));
    case ToSleep(w) => PlaceSleep(s, c, w); PlacedTurns(s, PlaceCurrent(s, c, kind), c, kind, Chan(w));
    case ToZombie => PlaceZombie(s, c); PlacedTurns(s, PlaceCurrent(s, c, kind), c, kind, Zombies(c));
  }

  lemma GoIdleControl(s: Sys, c: nat)
    requires HasCpu(s, c)
    ensures Turns(s, SetPc(Release(s, c, RunqLock(c)), c, Idle), c, Idle, s.cpus[c].held - {RunqLock(c)}, Cur(s, c))
  {
  }

  lemma RelockControl(s: Sys, c: nat)
    requires HasCpu(s, c)
    ensures Turns(s, SetPc(Acquire(s, c, RunqLock(c)), c, Picking), c, Picking, s.cpus[c].held + {RunqLock(c)},
                  Cur(s, c))
  {
  }

  lemma ChooseControl(s: Sys, c: nat)
    requires HasCpu(s, c) && Takeable(s, RunQ(c), true)
    ensures Chooses(s, PickNext(s, c), c)
  {
  }

  lemma ResumedHeld(s: Sys, c: nat)
    requires Inv(s) && HasCpu(s, c) && s.cpus[c].pc == Resumed
    ensures s.cpus[c].held == {RunqLock(c)} && Cur(s, c).iplhighCount == 2
  {
    hide ThreadOk, ListOk, LocksOk;
    assert CpuOk(s, c);
  }

  lemma FinishedComesBack(s: Sys, s2: Sys, c: nat)
    requires HasCpu(s, c) && s.cpus[c].held == {RunqLock(c)} && Finished(s, s2, c)
    ensures ComesBack(s, s2, c)
  {
  }

  lemma FinishControl(s: Sys, c: nat)
    requires Inv(s) && Enabled(s, SwitchFinish(c))
    ensures ComesBack(s, FinishSwitch(s, c), c)
  {
    hide Inv, FinishSwitch, Finished, ComesBack;
    InvCurspl(s, c);
    InvLocked(s, c);
    ResumedHeld(s, c);
    FinishIs(s, c);
    FinishedComesBack(s, FinishSwitch(s, c), c);
  }

  lemma MoveControl(s: Sys, from: ListId, fromHead: bool, to: ListId, toHead: bool)
    requires Takeable(s, from, fromHead)
    ensures var x, s2 := First(s, from, fromHead), Move(s, from, fromHead, to, toHead);
            s2.cpus == s.cpus && Becomes(s, s2, x, s.threads[x].(where := Some(to)))
  {
  }

  lemma EnqueueControl(s: Sys, t: Tid, c: nat, d: nat)
    requires t in s.threads && d < |s.cpus|
    ensures var s2 := Enqueue(s, t, c, d);
            && Interrupted(s, s2, c, d)
            && s2.threads == s.threads[t := s.threads[t].(where := Some(RunQ(d)), state := Ready)]
  {
  }

  lemma PutWokenControl(s: Sys, c: nat)
    requires Enabled(s, WakePut(c))
    ensures ControlOf(s, WakePut(c), PutWoken(s, c))
  {
    hide Enqueue;
    var t := First(s, Waking(c), true);
    EnqueueControl(Unlink(s, Waking(c), true), t, c, s.threads[t].cpu);
  }

  lemma SendVictimControl(s: Sys, c: nat, d: nat)
    requires Enabled(s, MigrateSend(c, d))
    ensures ControlOf(s, MigrateSend(c, d), SendVictim(s, c, d))
  {
    hide Enqueue;
    var t, s1 := First(s, Victims(c), true), Unlink(s, Victims(c), true);
    EnqueueControl(s1.(threads := s1.threads[t := s1.threads[t].(cpu := d)]), t, c, d);
  }

  lemma ForkControl(s: Sys, c: nat, t: Tid)
    requires Inv(s) && Enabled(s, Fork(c, t))
    ensures ControlOf(s, Fork(c, t), ForkThread(s, c, t))
  {
    hide Inv, Enqueue;
    InvOwnCpu(s, c);
    EnqueueControl(s.(threads := s.threads[t := Thread(Ready, c, 1, 2, true, true, false, 0, None)]), t, c, c);
  }

  lemma ListedAt(s: Sys, l: ListId, t: Tid)
    requires Inv(s) && t in ListOf(s, l)
    ensures t in s.threads && s.threads[t].where == Some(l)
  {
    hide CpuOk, ThreadOk, LocksOk;
    assert ListOk(s, l);
  }

  lemma LockingControl(s: Sys, c: nat, l: Lock)
    requires HasCpu(s, c)
    ensures Turns(s, Acquire(s, c, l), c, s.cpus[c].pc, s.cpus[c].held + {l}, Cur(s, c))
    ensures Turns(s, Release(s, c, l), c, s.cpus[c].pc, s.cpus[c].held - {l}, Cur(s, c))
  {
  }

  /** The steps that take a running CPU into and out of a handler. */
  lemma HandlerControl(s: Sys, step: Step)
    requires Enabled(s, step) && (step.InterruptEnter? || step.InterruptExit? || step.IpiAck? || step.IpiClear?)
    ensures ControlOf(s, step, Next(s, step))
  {
  }

  lemma IdleControl(s: Sys, step: Step)
    requires Enabled(s, step) && (step.IdleReturn? || step.IdleInterrupt? || step.IdleInterruptExit?)
    ensures ControlOf(s, step, Next(s, step))
  {
  }

  lemma StepControl(s: Sys, step: Step)
    requires Inv(s) && Enabled(s, step)
    ensures ControlOf(s, step, Next(s, step))
  {
    hide Inv, Splx, Acquire, Release, ForkThread, Move, PutWoken, LockForSwitch, NothingToDo, PlaceCurrent, PickNext,
         FinishSwitch, SendVictim, ExchangeFrames, EnterInterrupt, ExitInterrupt, Turns, Becomes, Interrupted,
         Exchanged, Chooses, ComesBack;
    match step
    case DoSplx(c, spl) => SplxControl(s, c, spl);
    case DoAcquire(c, l) => LockingControl(s, c, l);
    case DoRelease(c, l) => LockingControl(s, c, l);
    case Fork(c, t) => ForkControl(s, c, t);
    case WakeTake(c, w) => MoveControl(s, Chan(w), true, Waking(c), false);
    case WakePut(c) => PutWokenControl(s, c);
    case SwitchLock(c, kind) => LockControl(s, c, kind);
    case SwitchPlace(c) =>
      if Destination(s, c).None? { NothingToDoControl(s, c); } else { PlaceControl(s, c, s.cpus[c].pc.kind); }
    case SwitchPick(c) => if ListOf(s, RunQ(c)) == [] { GoIdleControl(s, c); } else { ChooseControl(s, c); }
    case SwitchFrame(c) => ExchangeIs(s, c, s.cpus[c].pc.prev);
    case SwitchFinish(c) => FinishControl(s, c);
    case IdleRelock(c) => RelockControl(s, c);
    case MigrateTake(c) => MoveControl(s, RunQ(c), false, Victims(c), true);
    case MigrateSend(c, d) => SendVictimControl(s, c, d);
    case MigrateSkip(c) =>
      ListedAt(s, Victims(c), First(s, Victims(c), true));
      MoveControl(s, Victims(c), true, Victims(c), false);
    case MigrateBack(c) => MoveControl(s, Victims(c), true, RunQ(c), false);
    case IdleReturn(_) => IdleControl(s, step);
    case IdleInterrupt(_) => IdleControl(s, step);
    case IdleInterruptExit(_) => IdleControl(s, step);
    case _ => HandlerControl(s, step);
  }

  /** In every run each step moves exactly the thread it names from list to list, and changes exactly what is said of
      its CPU, of that thread and of no other. */
  lemma StepEffects(states: seq<Sys>, steps: seq<Step>, i: nat)
    requires IsRun(states, steps) && i < |steps|
    ensures |states| == |steps| + 1 && Inv(states[i]) && Inv(states[i + 1]) && Enabled(states[i], steps[i])
    ensures MovesOf(states[i], steps[i], states[i + 1]) && ControlOf(states[i], steps[i], states[i + 1])
  {
    hide Inv, Enabled, Next, MovesOf, ControlOf, Init;
    RunInv(states, steps, i);
    RunInv(states, steps, i + 1);
    StepMoves(states[i], steps[i]);
    StepControl(states[i], steps[i]);
  }

  // ---------- sleeping and waking ----------

  /** threadlist_remhead in wchan_wakeone: the first sleeper, and nobody else, is taken off the channel. */
  lemma WakeTakesFirst(states: seq<Sys>, steps: seq<Step>, i: nat, c: nat, w: nat)
    requires IsRun(states, steps) && i < |steps| && steps[i] == WakeTake(c, w)
    ensures FirstToLast(states[i], states[i + 1], Chan(w), Waking(c))
  {
    hide IsRun, Inv, Enabled, ControlOf, FirstToLast;
    StepEffects(states, steps, i);
  }

  /** thread_make_runnable: the first thread in hand becomes Ready, the last of its own CPU's run queue, and that CPU
      is interrupted if it idles. */
  lemma WakePutsOnOwnQueue(states: seq<Sys>, steps: seq<Step>, i: nat, c: nat)
    requires IsRun(states, steps) && i < |steps| && steps[i] == WakePut(c)
    ensures var s, s2, q := states[i], states[i + 1], ListOf(states[i], Waking(c));
            && q != [] && q[0] in s.threads && q[0] in s2.threads
            && var d := s.threads[q[0]].cpu;
               && FirstToLast(s, s2, Waking(c), RunQ(d))
               && s2.threads[q[0]].state == Ready && s2.threads[q[0]].cpu == d
               && d < |s.cpus| && |s2.cpus| == |s.cpus|
               && (s.cpus[d].isidle && d != c ==> s2.cpus[d].ipiPending && s2.cpus[d].ipiLine)
  {
    hide IsRun, Inv, Enabled, FirstToLast, ThreadsSameBut;
    StepEffects(states, steps, i);
  }

  /** The thread a step puts to sleep on channel w, and the one it takes off it, if any. */
  function PutToSleep(s: Sys, step: Step, w: nat): seq<Tid> {
    if step.SwitchPlace? && HasCpu(s, step.c) && s.cpus[step.c].pc == Locked(ToSleep(w)) then [s.cpus[step.c].cur]
    else []
  }

  function TakenOff(s: Sys, step: Step, w: nat): seq<Tid> {
    if step.WakeTake? && step.chan == w && ListOf(s, Chan(w)) != [] then [ListOf(s, Chan(w))[0]] else []
  }

  lemma ChannelStep(s: Sys, step: Step, s2: Sys, w: nat)
    requires MovesOf(s, step, s2)
    ensures ListOf(s, Chan(w)) + PutToSleep(s, step, w) == TakenOff(s, step, w) + ListOf(s2, Chan(w))
  {
    if !step.WakeTake? && !step.SwitchPlace? { ChannelSame(s, step, s2, w); }
  }

  lemma ChannelSame(s: Sys, step: Step, s2: Sys, w: nat)
    requires MovesOf(s, step, s2) && !step.WakeTake? && !step.SwitchPlace?
    ensures ListOf(s2, Chan(w)) == ListOf(s, Chan(w))
  {
  }

  /** The threads put to sleep on w, and those woken from it, in steps i to j, in order. */
  ghost function Slept(states: seq<Sys>, steps: seq<Step>, w: nat, i: nat, j: nat): seq<Tid>
    requires i <= j <= |steps| < |states|
  {
    if i == j then [] else Slept(states, steps, w, i, j - 1) + PutToSleep(states[j - 1], steps[j - 1], w)
  }

  ghost function Woken(states: seq<Sys>, steps: seq<Step>, w: nat, i: nat, j: nat): seq<Tid>
    requires i <= j <= |steps| < |states|
  {
    if i == j then [] else Woken(states, steps, w, i, j - 1) + TakenOff(states[j - 1], steps[j - 1], w)
  }

  lemma QueueStep(q: seq<Tid>, inn: seq<Tid>, out: seq<Tid>, q1: seq<Tid>, x: seq<Tid>, y: seq<Tid>, q2: seq<Tid>)
    requires q + inn == out + q1 && q1 + x == y + q2
    ensures q + (inn + x) == (out + y) + q2
  {
    assert q + (inn + x) == (q + inn) + x == (out + q1) + x == out + (q1 + x) == out + (y + q2) == (out + y) + q2;
  }

  /** A wait channel is a queue: over any stretch of any run, those asleep before and those who then went to sleep,
      in that order, are those woken and then those still asleep, in that order. */
  lemma {:induction false} ChannelIsQueue(states: seq<Sys>, steps: seq<Step>, w: nat, i: nat, j: nat)
    requires IsRun(states, steps) && i <= j <= |steps| < |states|
    ensures ListOf(states[i], Chan(w)) + Slept(states, steps, w, i, j) ==
            Woken(states, steps, w, i, j) + ListOf(states[j], Chan(w))
  {
    hide IsRun, Inv, Enabled, MovesOf, ControlOf, PutToSleep, TakenOff, ListOf;
    if i < j {
      var s, step, s2 := states[j - 1], steps[j - 1], states[j];
      ChannelIsQueue(states, steps, w, i, j - 1);
      StepEffects(states, steps, j - 1);
      ChannelStep(s, step, s2, w);
      QueueStep(ListOf(states[i], Chan(w)), Slept(states, steps, w, i, j - 1), Woken(states, steps, w, i, j - 1),
          ListOf(s, Chan(w)), PutToSleep(s, step, w), TakenOff(s, step, w), ListOf(s2, Chan(w)));
    }
  }

  /** The thread CPU c takes off some channel, and the one it makes runnable, if any. */
  function TakenBy(s: Sys, step: Step, c: nat): seq<Tid> {
    if step.WakeTake? && step.c == c && ListOf(s, Chan(step.chan)) != [] then [ListOf(s, Chan(step.chan))[0]] else []
  }

  function PutBy(s: Sys, step: Step, c: nat): seq<Tid> {
    if step == WakePut(c) && ListOf(s, Waking(c)) != [] then [ListOf(s, Waking(c))[0]] else []
  }

  lemma WakingStep(s: Sys, step: Step, s2: Sys, c: nat)
    requires MovesOf(s, step, s2)
    ensures ListOf(s, Waking(c)) + TakenBy(s, step, c) == PutBy(s, step, c) + ListOf(s2, Waking(c))
  {
    if step.WakeTake? {
    } else if step.WakePut? {
    } else {
      WakingSame(s, step, s2, c);
    }
  }

  lemma WakingSame(s: Sys, step: Step, s2: Sys, c: nat)
    requires MovesOf(s, step, s2) && !step.WakeTake? && !step.WakePut?
    ensures ListOf(s2, Waking(c)) == ListOf(s, Waking(c))
  {
  }

  /** The threads CPU c has taken off channels, and those it has made runnable, in steps i to j, in order. */
  ghost function Took(states: seq<Sys>, steps: seq<Step>, c: nat, i: nat, j: nat): seq<Tid>
    requires i <= j <= |steps| < |states|
  {
    if i == j then [] else Took(states, steps, c, i, j - 1) + TakenBy(states[j - 1], steps[j - 1], c)
  }

  ghost function MadeRunnable(states: seq<Sys>, steps: seq<Step>, c: nat, i: nat, j: nat): seq<Tid>
    requires i <= j <= |steps| < |states|
  {
    if i == j then [] else MadeRunnable(states, steps, c, i, j - 1) + PutBy(states[j - 1], steps[j - 1], c)
  }

  lemma {:induction false} WakingIsQueue(states: seq<Sys>, steps: seq<Step>, c: nat, i: nat, j: nat)
    requires IsRun(states, steps) && i <= j <= |steps| < |states|
    ensures ListOf(states[i], Waking(c)) + Took(states, steps, c, i, j) ==
            MadeRunnable(states, steps, c, i, j) + ListOf(states[j], Waking(c))
  {
    hide IsRun, Inv, Enabled, MovesOf, ControlOf, TakenBy, PutBy, ListOf;
    if i < j {
      var s, step, s2 := states[j - 1], steps[j - 1], states[j];
      WakingIsQueue(states, steps, c, i, j - 1);
      StepEffects(states, steps, j - 1);
      WakingStep(s, step, s2, c);
      QueueStep(ListOf(states[i], Waking(c)), Took(states, steps, c, i, j - 1),
          MadeRunnable(states, steps, c, i, j - 1), ListOf(s, Waking(c)), TakenBy(s, step, c), PutBy(s, step, c),
          ListOf(s2, Waking(c)));
    }
  }

  lemma NoneInHand(states: seq<Sys>, steps: seq<Step>, c: nat)
    requires IsRun(states, steps)
    ensures |states| > 0 && ListOf(states[0], Waking(c)) == []
  {
  }

  lemma HandsEmpty(s: Sys, step: Step)
    requires Enabled(s, step) && (step.SwitchLock? || step.InterruptExit? || step.IdleInterruptExit?)
    ensures ListOf(s, Waking(step.c)) == []
  {
  }

  /** By the time a CPU next switches threads, or leaves a handler, every thread it has woken it has made runnable. */
  lemma WokenAreRunnable(states: seq<Sys>, steps: seq<Step>, j: nat)
    requires IsRun(states, steps) && j < |steps| < |states|
    requires steps[j].SwitchLock? || steps[j].InterruptExit? || steps[j].IdleInterruptExit?
    ensures Took(states, steps, steps[j].c, 0, j) == MadeRunnable(states, steps, steps[j].c, 0, j)
  {
    var c := steps[j].c;
    hide IsRun, Inv, Enabled, MovesOf, ControlOf, ListOf, Took, MadeRunnable;
    NoneInHand(states, steps, c);
    StepEffects(states, steps, j);
    HandsEmpty(states[j], steps[j]);
    WakingIsQueue(states, steps, c, 0, j);
    SameQueues(Took(states, steps, c, 0, j), MadeRunnable(states, steps, c, 0, j));
  }

  lemma SameQueues(x: seq<Tid>, y: seq<Tid>)
    ensures [] + x == y + [] ==> x == y
  {
    assert [] + x == x && y + [] == y;
  }

  /** A thread asleep on w that no longer is has been woken from w, as the first of those asleep there. */
  lemma {:induction false} LeavesByWake(states: seq<Sys>, steps: seq<Step>, w: nat, t: Tid, i: nat, j: nat)
    returns (k: nat)
    requires IsRun(states, steps) && i <= j <= |steps| < |states|
    requires t in ListOf(states[i], Chan(w)) && t !in ListOf(states[j], Chan(w))
    ensures i <= k < j && steps[k].WakeTake? && steps[k].chan == w
    ensures ListOf(states[k], Chan(w)) != [] && ListOf(states[k], Chan(w))[0] == t
    ensures t in ListOf(states[k + 1], Waking(steps[k].c))
    decreases j - i
  {
    hide IsRun, Inv, Enabled, MovesOf, ControlOf, ListOf;
    StepEffects(states, steps, i);
    if t in ListOf(states[i + 1], Chan(w)) {
      k := LeavesByWake(states, steps, w, t, i + 1, j);
    } else {
      LeavesChannel(states[i], steps[i], states[i + 1], w, t);
      k := i;
    }
  }

  lemma LeavesChannel(s: Sys, step: Step, s2: Sys, w: nat, t: Tid)
    requires MovesOf(s, step, s2) && t in ListOf(s, Chan(w)) && t !in ListOf(s2, Chan(w))
    ensures step.WakeTake? && step.chan == w && ListOf(s, Chan(w))[0] == t && t in ListOf(s2, Waking(step.c))
  {
  }

  /** A thread CPU c has taken off a channel and no longer has in hand is then Ready, last on its own CPU's queue. */
  lemma {:induction false} ReachesRunQueue(states: seq<Sys>, steps: seq<Step>, c: nat, t: Tid, i: nat, j: nat)
    returns (k: nat)
    requires IsRun(states, steps) && i <= j <= |steps| < |states|
    requires t in ListOf(states[i], Waking(c)) && t !in ListOf(states[j], Waking(c))
    ensures i <= k < j && steps[k] == WakePut(c)
    ensures t in states[k + 1].threads && states[k + 1].threads[t].state == Ready
    ensures var q := ListOf(states[k + 1], RunQ(states[k + 1].threads[t].cpu)); q != [] && q[|q| - 1] == t
    decreases j - i
  {
    hide IsRun, Inv, Enabled, MovesOf, ControlOf, ListOf;
    StepEffects(states, steps, i);
    if t in ListOf(states[i + 1], Waking(c)) {
      k := ReachesRunQueue(states, steps, c, t, i + 1, j);
    } else {
      LeavesHand(states[i], steps[i], states[i + 1], c, t);
      k := i;
    }
  }

  lemma LeavesHand(s: Sys, step: Step, s2: Sys, c: nat, t: Tid)
    requires MovesOf(s, step, s2) && ControlOf(s, step, s2)
    requires t in ListOf(s, Waking(c)) && t !in ListOf(s2, Waking(c))
    ensures step == WakePut(c) && t in s2.threads && s2.threads[t].state == Ready
    ensures var q := ListOf(s2, RunQ(s2.threads[t].cpu)); q != [] && q[|q| - 1] == t
  {
    hide Turns, Exchanged, Chooses, ComesBack;
    if !step.WakeTake? && !step.WakePut? { WakingSame(s, step, s2, c); }
  }

  /** While a thread is on its way to sleep on w, nobody can wake w: no wake-up is lost between the sleeper's decision
      and its being on the channel. */
  lemma NoWakeWhileFallingAsleep(states: seq<Sys>, steps: seq<Step>, i: nat, c: nat, w: nat)
    requires IsRun(states, steps) && i < |steps| < |states|
    requires HasCpu(states[i], c) && states[i].cpus[c].pc == Locked(ToSleep(w))
    ensures !(steps[i].WakeTake? && steps[i].chan == w)
  {
    hide IsRun, MovesOf, ControlOf;
    StepEffects(states, steps, i);
    if steps[i].WakeTake? && steps[i].chan == w {
      FallingHolds(states[i], c, w);
      OneHolder(states[i], c, steps[i].c, ChanLock(w));
    }
  }

  lemma FallingHolds(s: Sys, c: nat, w: nat)
    requires Inv(s) && HasCpu(s, c) && s.cpus[c].pc == Locked(ToSleep(w))
    ensures ChanLock(w) in s.cpus[c].held
  {
    LockedHeld(s, c);
  }

  lemma OneHolder(s: Sys, c: nat, d: nat, l: Lock)
    requires Inv(s) && c < |s.cpus| && d < |s.cpus| && l in s.cpus[c].held && l in s.cpus[d].held
    ensures c == d
  {
    hide CpuOk, ThreadOk, ListOk;
  }

  // ---------- sleeping, exiting and yielding ----------

  /** thread_switch with S_SLEEP: the running thread becomes the last of those asleep on the channel it named, whose
      lock is let go with that step. */
  lemma SleepJoinsChannel(states: seq<Sys>, steps: seq<Step>, i: nat, c: nat, w: nat)
    requires IsRun(states, steps) && i < |steps| < |states| && steps[i] == SwitchPlace(c)
    requires HasCpu(states[i], c) && states[i].cpus[c].pc == Locked(ToSleep(w))
    ensures var t := states[i].cpus[c].cur;
            && Appended(states[i], states[i + 1], t, Chan(w))
            && t in states[i + 1].threads && states[i + 1].threads[t].state == Sleep
            && |states[i + 1].cpus| == |states[i].cpus| && ChanLock(w) in states[i].cpus[c].held
            && ChanLock(w) !in states[i + 1].cpus[c].held
  {
    hide IsRun, Inv, Enabled, Appended;
    StepEffects(states, steps, i);
    FallingHolds(states[i], c, w);
  }

  /** thread_switch with S_ZOMBIE: the running thread becomes the last zombie of its CPU, until a thread next comes
      back on that CPU, which destroys all of them and nobody else. */
  lemma ExitJoinsZombies(states: seq<Sys>, steps: seq<Step>, i: nat, c: nat)
    requires IsRun(states, steps) && i < |steps| < |states| && steps[i] == SwitchPlace(c)
    requires HasCpu(states[i], c) && states[i].cpus[c].pc == Locked(ToZombie)
    ensures var t := states[i].cpus[c].cur;
            && Appended(states[i], states[i + 1], t, Zombies(c))
            && t in states[i + 1].threads && states[i + 1].threads[t].state == Zombie
  {
    hide IsRun, Inv, Enabled, Appended;
    StepEffects(states, steps, i);
  }

  lemma ThreadsStay(s: Sys, step: Step, s2: Sys, t: Tid)
    requires ControlOf(s, step, s2) && !step.SwitchFinish? && t in s.threads
    ensures t in s2.threads
  {
    hide ComesBack, CpusSameBut, Interrupted;
  }

  /** A thread is destroyed exactly when, as a zombie of a CPU, a thread comes back on that CPU. */
  lemma DestroyedAreZombies(states: seq<Sys>, steps: seq<Step>, i: nat, t: Tid)
    requires IsRun(states, steps) && i < |steps| < |states| && t in states[i].threads
    ensures t !in states[i + 1].threads <==> steps[i].SwitchFinish? && t in ListOf(states[i], Zombies(steps[i].c))
    ensures steps[i].SwitchFinish? ==> ListOf(states[i + 1], Zombies(steps[i].c)) == []
  {
    hide IsRun, Inv, Enabled;
    StepEffects(states, steps, i);
    if !steps[i].SwitchFinish? { ThreadsStay(states[i], steps[i], states[i + 1], t); }
  }

  /** thread_yield with nothing else to run: the thread keeps the CPU, and no list changes. */
  lemma YieldAloneStays(states: seq<Sys>, steps: seq<Step>, i: nat, c: nat)
    requires IsRun(states, steps) && i < |steps| < |states| && steps[i] == SwitchPlace(c)
    requires HasCpu(states[i], c) && states[i].cpus[c].pc == Locked(ToReady) && ListOf(states[i], RunQ(c)) == []
    ensures forall l :: ListOf(states[i + 1], l) == ListOf(states[i], l)
    ensures |states[i + 1].cpus| == |states[i].cpus| && states[i + 1].cpus[c].pc == Running
    ensures states[i + 1].cpus[c].cur == states[i].cpus[c].cur
  {
    hide IsRun, Inv, Enabled, ThreadsSameBut;
    StepEffects(states, steps, i);
  }

  /** Steps of other CPUs leave a CPU whose run queue is locked as it is, and its run queue too. */
  lemma LockedQueueStays(s: Sys, step: Step, s2: Sys, c: nat)
    requires Inv(s) && Enabled(s, step) && MovesOf(s, step, s2) && ControlOf(s, step, s2)
    requires c < |s.cpus| && step.c != c && RunqLock(c) in s.cpus[c].held && s.cpus[c].pc == Picking
    ensures ListOf(s2, RunQ(c)) == ListOf(s, RunQ(c))
    ensures |s2.cpus| == |s.cpus| && s2.cpus[c].held == s.cpus[c].held && s2.cpus[c].pc == s.cpus[c].pc
    ensures s2.cpus[c].cur == s.cpus[c].cur
  {
    hide Inv;
    QueueUntouched(s, step, s2, c);
    CpuUntouched(s, step, s2, c);
  }

  lemma QueueUntouched(s: Sys, step: Step, s2: Sys, c: nat)
    requires Enabled(s, step) && MovesOf(s, step, s2)
    requires c < |s.cpus| && step.c != c && RunqLock(c) in s.cpus[c].held
    ensures ListOf(s2, RunQ(c)) == ListOf(s, RunQ(c))
  {
    assert !LockFree(s, RunqLock(c));
    hide LockFree;
  }

  lemma CpuUntouched(s: Sys, step: Step, s2: Sys, c: nat)
    requires ControlOf(s, step, s2) && c < |s.cpus| && step.c != c
    ensures |s2.cpus| == |s.cpus| && SameButIpi(s.cpus[c], s2.cpus[c])
  {
    hide Becomes, ThreadsSameBut;
    if MovesOther(step) { OtherCpuMoved(s, step, s2, c); }
  }

  lemma OtherCpuMoved(s: Sys, step: Step, s2: Sys, c: nat)
    requires ControlOf(s, step, s2) && c < |s.cpus| && step.c != c && MovesOther(step)
    ensures |s2.cpus| == |s.cpus| && SameButIpi(s.cpus[c], s2.cpus[c])
  {
    hide Becomes, Turns, Exchanged, Chooses, ComesBack;
  }

  lemma PickingPicks(s: Sys, step: Step)
    requires Enabled(s, step) && s.cpus[step.c].pc == Picking
    ensures step.SwitchPick?
  {
  }

  lemma PickingHolds(s: Sys, c: nat)
    requires Inv(s) && c < |s.cpus| && s.cpus[c].pc == Picking
    ensures RunqLock(c) in s.cpus[c].held
  {
    hide ThreadOk, ListOk, LocksOk;
    assert CpuOk(s, c);
  }

  lemma {:induction false} QueueHeldUntilPick(states: seq<Sys>, steps: seq<Step>, i: nat, j: nat, c: nat)
    requires IsRun(states, steps) && i <= j <= |steps| < |states|
    requires c < |states[i].cpus| && states[i].cpus[c].pc == Picking
    requires forall k :: i <= k < j ==> steps[k].c != c
    ensures ListOf(states[j], RunQ(c)) == ListOf(states[i], RunQ(c))
    ensures c < |states[j].cpus| && states[j].cpus[c].pc == Picking && states[j].cpus[c].cur == states[i].cpus[c].cur
  {
    hide IsRun, Inv, Enabled, MovesOf, ControlOf, ListOf;
    if i < j {
      QueueHeldUntilPick(states, steps, i, j - 1, c);
      StepEffects(states, steps, j - 1);
      PickingHolds(states[j - 1], c);
      LockedQueueStays(states[j - 1], steps[j - 1], states[j], c);
    }
  }

  /** thread_yield with threads waiting: whatever the other CPUs do meanwhile, the CPU's next step gives it to the
      first of them, and the yielding thread is then the last of those who wait. */
  lemma YieldGivesWay(states: seq<Sys>, steps: seq<Step>, i: nat, j: nat, c: nat)
    requires IsRun(states, steps) && i < j < |steps| < |states| && steps[i] == SwitchPlace(c) && steps[j].c == c
    requires forall k :: i < k < j ==> steps[k].c != c
    requires HasCpu(states[i], c) && states[i].cpus[c].pc == Locked(ToReady) && ListOf(states[i], RunQ(c)) != []
    ensures var q := ListOf(states[i], RunQ(c));
            && c < |states[j + 1].cpus| && states[j + 1].cpus[c].cur == q[0]
            && states[j + 1].cpus[c].pc == Switching(states[i].cpus[c].cur)
            && ListOf(states[j + 1], RunQ(c)) == q[1..] + [states[i].cpus[c].cur]
  {
    hide IsRun, Inv, Enabled, MovesOf, ControlOf;
    var t, q := states[i].cpus[c].cur, ListOf(states[i], RunQ(c));
    StepEffects(states, steps, i);
    YieldPlaced(states[i], states[i + 1], c);
    QueueHeldUntilPick(states, steps, i + 1, j, c);
    StepEffects(states, steps, j);
    PickingPicks(states[j], steps[j]);
    PickTakes(states[j], states[j + 1], c);
    assert (q + [t])[1..] == q[1..] + [t];
  }

  lemma YieldPlaced(s: Sys, s2: Sys, c: nat)
    requires MovesOf(s, SwitchPlace(c), s2) && ControlOf(s, SwitchPlace(c), s2)
    requires HasCpu(s, c) && s.cpus[c].pc == Locked(ToReady) && ListOf(s, RunQ(c)) != []
    ensures ListOf(s2, RunQ(c)) == ListOf(s, RunQ(c)) + [s.cpus[c].cur]
    ensures c < |s2.cpus| && s2.cpus[c].pc == Picking && s2.cpus[c].cur == s.cpus[c].cur
  {
  }

  lemma PickTakes(s: Sys, s2: Sys, c: nat)
    requires MovesOf(s, SwitchPick(c), s2) && ControlOf(s, SwitchPick(c), s2) && ListOf(s, RunQ(c)) != []
    ensures ListOf(s2, RunQ(c)) == ListOf(s, RunQ(c))[1..]
    ensures c < |s2.cpus| && s2.cpus[c].cur == ListOf(s, RunQ(c))[0] && s2.cpus[c].pc == Switching(s.cpus[c].cur)
  {
  }

  // ---------- interrupt levels across thread_switch ----------

  /** The step by which the current thread of CPU d is outside thread_switch again. */
  predicate Back(s: Sys, step: Step, s2: Sys, d: nat) {
    && step.c == d && (step.SwitchFinish? || step.SwitchPlace?)
    && d < |s.cpus| && d < |s2.cpus| && s2.cpus[d].pc == Running
  }

  predicate Enters(s: Sys, step: Step, t: Tid) {
    step.SwitchLock? && step.c < |s.cpus| && s.cpus[step.c].cur == t
  }

  /** The steps that move another thread than the CPU's own between lists. */
  predicate MovesOther(step: Step) {
    || step.Fork? || step.WakeTake? || step.WakePut?
    || step.MigrateTake? || step.MigrateSend? || step.MigrateSkip? || step.MigrateBack?
  }

  lemma LevelKeptMoved(s: Sys, step: Step, s2: Sys, t: Tid)
    requires Enabled(s, step) && ControlOf(s, step, s2) && t in s.threads && MovesOther(step)
    ensures t in s2.threads && s2.threads[t].spl == s.threads[t].spl && s2.threads[t].isNew == s.threads[t].isNew
  {
    hide CpusSameBut, Turns, Exchanged, Chooses, ComesBack;
  }

  lemma LevelKept(s: Sys, step: Step, s2: Sys, t: Tid)
    requires Enabled(s, step) && ControlOf(s, step, s2) && t in s.threads && t in s2.threads && !Enters(s, step, t)
    ensures s2.threads[t].spl == s.threads[t].spl
    ensures s2.threads[t].isNew == (s.threads[t].isNew && !Started(s, step, t))
  {
    hide CpusSameBut, Interrupted;
    if MovesOther(step) { LevelKeptMoved(s, step, s2, t); }
  }

  lemma BackAtLevel(s: Sys, step: Step, s2: Sys, d: nat, t: Tid)
    requires ControlOf(s, step, s2) && Back(s, step, s2, d) && s.cpus[d].cur == t && t in s.threads
    requires Inv(s)
    ensures t in s2.threads && s2.threads[t].curspl == if s.threads[t].isNew then 0 else s.threads[t].spl
  {
    hide Inv;
    if step.SwitchPlace? { NotNewInSwitch(s, d); }
  }

  lemma NotNewInSwitch(s: Sys, c: nat)
    requires Inv(s) && HasCpu(s, c) && (s.cpus[c].pc.Locked? || s.cpus[c].pc == Running)
    ensures !Cur(s, c).isNew
  {
    hide ThreadOk, ListOk, LocksOk;
    assert CpuOk(s, c);
  }

  lemma {:induction false} LevelSaved(states: seq<Sys>, steps: seq<Step>, i: nat, j: nat, t: Tid)
    requires IsRun(states, steps) && i <= j <= |steps| < |states|
    requires forall k :: i <= k <= j ==> t in states[k].threads
    requires forall k :: i <= k < j ==> !Enters(states[k], steps[k], t)
    ensures states[j].threads[t].spl == states[i].threads[t].spl
    ensures states[j].threads[t].isNew ==> states[i].threads[t].isNew
  {
    hide IsRun, Inv, Enabled, MovesOf, ControlOf, Enters;
    if i < j {
      LevelSaved(states, steps, i, j - 1, t);
      StepEffects(states, steps, j - 1);
      LevelKept(states[j - 1], steps[j - 1], states[j], t);
    }
  }

  /** A thread that enters thread_switch comes back from it at the interrupt level it had, on whatever CPU and however
      much later that is. */
  lemma ReturnsAtItsLevel(states: seq<Sys>, steps: seq<Step>, i: nat, j: nat, d: nat, t: Tid)
    requires IsRun(states, steps) && i < j < |steps| < |states|
    requires forall k :: i <= k <= j ==> t in states[k].threads
    requires Enters(states[i], steps[i], t) && forall k :: i < k < j ==> !Enters(states[k], steps[k], t)
    requires Back(states[j], steps[j], states[j + 1], d) && states[j].cpus[d].cur == t
    ensures t in states[j + 1].threads && states[j + 1].threads[t].curspl == states[i].threads[t].curspl
  {
    hide IsRun, Inv, Enabled, MovesOf, ControlOf, Enters, Back;
    StepEffects(states, steps, i);
    EntersSaves(states[i], steps[i], states[i + 1], t);
    LevelSaved(states, steps, i + 1, j, t);
    StepEffects(states, steps, j);
    BackAtLevel(states[j], steps[j], states[j + 1], d, t);
  }

  lemma EntersSaves(s: Sys, step: Step, s2: Sys, t: Tid)
    requires Inv(s) && Enabled(s, step) && ControlOf(s, step, s2) && Enters(s, step, t) && t in s.threads
    ensures t in s2.threads && s2.threads[t].spl == s.threads[t].curspl && !s2.threads[t].isNew
  {
    hide Inv;
    NotNewInSwitch(s, step.c);
  }

  lemma {:induction false} StaysNew(states: seq<Sys>, steps: seq<Step>, i: nat, j: nat, t: Tid)
    requires IsRun(states, steps) && i <= j <= |steps| < |states|
    requires forall k :: i <= k <= j ==> t in states[k].threads
    requires states[i].threads[t].isNew && forall k :: i <= k < j ==> !Started(states[k], steps[k], t)
    ensures states[j].threads[t].isNew
  {
    hide IsRun, Inv, Enabled, MovesOf, ControlOf, Enters;
    if i < j {
      StaysNew(states, steps, i, j - 1, t);
      StepEffects(states, steps, j - 1);
      if Enters(states[j - 1], steps[j - 1], t) {
        NewNotEntering(states[j - 1], steps[j - 1], t);
      } else {
        LevelKept(states[j - 1], steps[j - 1], states[j], t);
      }
    }
  }

  lemma NewNotEntering(s: Sys, step: Step, t: Tid)
    requires Inv(s) && Enabled(s, step) && Enters(s, step, t) && t in s.threads
    ensures !s.threads[t].isNew
  {
    hide Inv;
    NotNewInSwitch(s, step.c);
  }

  predicate Started(s: Sys, step: Step, t: Tid) {
    step.SwitchFinish? && step.c < |s.cpus| && s.cpus[step.c].cur == t
  }

  /** A new thread first runs with interrupts enabled: level 0, and no other reason to keep them off. */
  lemma NewStartsAtZero(states: seq<Sys>, steps: seq<Step>, i: nat, j: nat, c: nat, t: Tid)
    requires IsRun(states, steps) && i < j < |steps| < |states| && steps[i] == Fork(c, t)
    requires forall k :: i < k <= j ==> t in states[k].threads
    requires Started(states[j], steps[j], t) && forall k :: i < k < j ==> !Started(states[k], steps[k], t)
    ensures t in states[j + 1].threads && states[j + 1].threads[t].curspl == 0
    ensures states[j + 1].threads[t].iplhighCount == 0
  {
    hide IsRun, Inv, Enabled, MovesOf, ControlOf;
    StepEffects(states, steps, i);
    ForkedIsNew(states[i], states[i + 1], c, t);
    StaysNew(states, steps, i + 1, j, t);
    StepEffects(states, steps, j);
    StartsAtZero(states[j], steps[j], states[j + 1], t);
  }

  lemma ForkedIsNew(s: Sys, s2: Sys, c: nat, t: Tid)
    requires ControlOf(s, Fork(c, t), s2)
    ensures t in s2.threads && s2.threads[t].isNew
  {
  }

  lemma StartsAtZero(s: Sys, step: Step, s2: Sys, t: Tid)
    requires ControlOf(s, step, s2) && Started(s, step, t) && t in s.threads && s.threads[t].isNew && Inv(s2)
    ensures t in s2.threads && s2.threads[t].curspl == 0 && s2.threads[t].iplhighCount == 0
  {
    hide Inv;
    InvIrq(s2, step.c);
  }

  // ---------- spinlocks ----------

  /** The steps by which CPU c lets go of a lock that is no run queue's: releasing it, or falling asleep on the
      channel it guards. */
  predicate LetsGo(s: Sys, step: Step, c: nat, l: Lock) {
    || step == DoRelease(c, l)
    || (step == SwitchPlace(c) && l.ChanLock? && c < |s.cpus| && s.cpus[c].pc == Locked(ToSleep(l.chan)))
  }

  lemma LockStep(s: Sys, step: Step, s2: Sys, c: nat, l: Lock)
    requires Inv(s) && Enabled(s, step) && ControlOf(s, step, s2) && c < |s.cpus| && !l.RunqLock?
    ensures |s2.cpus| == |s.cpus|
    ensures l in s2.cpus[c].held <==> (l in s.cpus[c].held && !LetsGo(s, step, c, l)) || step == DoAcquire(c, l)
  {
    hide Inv, ControlOf;
    if step.c != c {
      CpuUntouched(s, step, s2, c);
    } else {
      OwnLockStep(s, step, s2, l);
    }
  }

  lemma OwnLockStep(s: Sys, step: Step, s2: Sys, l: Lock)
    requires Inv(s) && Enabled(s, step) && ControlOf(s, step, s2) && !l.RunqLock?
    ensures |s2.cpus| == |s.cpus|
    ensures l in s2.cpus[step.c].held <==>
            (l in s.cpus[step.c].held && !LetsGo(s, step, step.c, l)) || step == DoAcquire(step.c, l)
  {
    hide Inv, Becomes, ThreadsSameBut;
    if MovesOther(step) {
      OwnLocksMoved(s, step, s2);
    } else if step.SwitchPlace? {
      LockedHeld(s, step.c);
    } else if step.SwitchFinish? {
      ResumedHeld(s, step.c);
    }
  }

  lemma OwnLocksMoved(s: Sys, step: Step, s2: Sys)
    requires ControlOf(s, step, s2) && MovesOther(step)
    ensures |s2.cpus| == |s.cpus| && s2.cpus[step.c].held == s.cpus[step.c].held
  {
    hide Becomes, Turns, Exchanged, Chooses, ComesBack;
  }

  /** From the step that acquires a spinlock to the step that lets go of it, that CPU holds it and no CPU acquires it
      again; afterwards nobody holds it. */
  lemma {:induction false} LockExcludes(states: seq<Sys>, steps: seq<Step>, i: nat, j: nat, c: nat, l: Lock)
    requires IsRun(states, steps) && i < j < |steps| < |states| && steps[i] == DoAcquire(c, l)
    requires forall k :: i < k < j ==> !LetsGo(states[k], steps[k], c, l)
    ensures c < |states[j].cpus| && l in states[j].cpus[c].held
    ensures !(steps[j].DoAcquire? && steps[j].lock == l)
    ensures LetsGo(states[j], steps[j], c, l) ==> LockFree(states[j + 1], l)
  {
    hide IsRun, Inv, Enabled, MovesOf, ControlOf, LetsGo;
    StepEffects(states, steps, i);
    SpinAcquired(states[i], c, l);
    if i < j - 1 { LockExcludes(states, steps, i, j - 1, c, l); }
    StepEffects(states, steps, j - 1);
    LockStep(states[j - 1], steps[j - 1], states[j], c, l);
    StepEffects(states, steps, j);
    HeldNotAcquired(states[j], steps[j], c, l);
    if LetsGo(states[j], steps[j], c, l) { LetGoFrees(states[j], steps[j], states[j + 1], c, l); }
  }

  lemma SpinAcquired(s: Sys, c: nat, l: Lock)
    requires Enabled(s, DoAcquire(c, l))
    ensures c < |s.cpus| && !l.RunqLock?
  {
  }

  lemma HeldNotAcquired(s: Sys, step: Step, c: nat, l: Lock)
    requires Enabled(s, step) && c < |s.cpus| && l in s.cpus[c].held
    ensures !(step.DoAcquire? && step.lock == l)
  {
  }

  lemma LetGoFrees(s: Sys, step: Step, s2: Sys, c: nat, l: Lock)
    requires Inv(s) && Enabled(s, step) && ControlOf(s, step, s2) && LetsGo(s, step, c, l)
    requires c < |s.cpus| && l in s.cpus[c].held && !l.RunqLock?
    ensures LockFree(s2, l)
  {
    hide Inv, Enabled, ControlOf;
    LockStep(s, step, s2, c, l);
    forall d | 0 <= d < |s2.cpus| ensures l !in s2.cpus[d].held {
      LockStep(s, step, s2, d, l);
      if d != c && l in s.cpus[d].held { OneHolder(s, c, d, l); }
    }
  }

  // ---------- what can always go on ----------

  lemma RunqFree(s: Sys, c: nat)
    requires Inv(s) && c < |s.cpus| && !HoldsRunq(s.cpus[c].pc)
    ensures LockFree(s, RunqLock(c))
  {
    hide ThreadOk, ListOk, LocksOk;
    forall d | 0 <= d < |s.cpus| ensures RunqLock(c) !in s.cpus[d].held { assert CpuOk(s, d); }
  }

  ghost predicate CanGoOn(s: Sys, c: nat)
    requires c < |s.cpus|
  {
    var pc := s.cpus[c].pc;
    && (pc.Locked? ==> Enabled(s, SwitchPlace(c)))
    && (pc == Picking ==> Enabled(s, SwitchPick(c)))
    && (pc.Switching? ==> Enabled(s, SwitchFrame(c)))
    && (pc == Resumed ==> Enabled(s, SwitchFinish(c)))
    && (pc == Idle ==> Enabled(s, IdleReturn(c)) && Enabled(s, IdleInterrupt(c)))
    && (pc == IdleWoken ==> Enabled(s, IdleRelock(c)))
  }

  ghost predicate CanEnter(s: Sys, c: nat)
    requires HasCpu(s, c)
  {
    var k := s.cpus[c];
    k.pc == Running && ListOf(s, Waking(c)) == ListOf(s, Victims(c)) == [] ==>
      && (k.held == {} ==> Enabled(s, SwitchLock(c, ToReady)))
      && (k.held == {} && !Cur(s, c).inInterrupt ==> Enabled(s, SwitchLock(c, ToZombie)))
      && (forall w :: k.held == {ChanLock(w)} && !Cur(s, c).inInterrupt ==> Enabled(s, SwitchLock(c, ToSleep(w))))
  }

  lemma GoesOn(s: Sys, c: nat)
    requires HasCpu(s, c) && (s.cpus[c].pc == Picking ==> Enabled(s, SwitchPick(c)))
    requires s.cpus[c].pc.Switching? ==> Enabled(s, SwitchFrame(c))
    requires s.cpus[c].pc == Resumed ==> s.cpus[c].cur !in ListOf(s, Zombies(c))
    requires !HoldsRunq(s.cpus[c].pc) ==> LockFree(s, RunqLock(c))
    ensures CanGoOn(s, c) && CanEnter(s, c)
  {
    hide LockFree;
  }

  /** Whatever the other CPUs do, a CPU inside thread_switch, or idling, can take its next step, and one outside it
      that holds nothing, or just the lock of the channel to sleep on, can enter it. */
  lemma SwitchGoesOn(states: seq<Sys>, steps: seq<Step>, i: nat, c: nat)
    requires IsRun(states, steps) && i < |states| && c < |states[i].cpus|
    ensures HasCpu(states[i], c) && CanGoOn(states[i], c) && CanEnter(states[i], c)
  {
    hide IsRun, Inv, LockFree, CanGoOn, CanEnter, Enabled, CpuOk, ThreadOk, ListOk;
    RunInv(states, steps, i);
    InvOwnCpu(states[i], c);
    InvLocalParts(states[i], c);
    LocalEnabled(states[i], c);
    if states[i].cpus[c].pc == Resumed { InvDeadZombies(states[i], c); }
    if !HoldsRunq(states[i].cpus[c].pc) { RunqFree(states[i], c); }
    GoesOn(states[i], c);
  }

  /** A CPU that runs kernel code with the channel's lock can wake the channel exactly when somebody sleeps there, and
      can make runnable the threads it has in hand when nobody has their CPU's run queue locked. */
  lemma CanWake(states: seq<Sys>, steps: seq<Step>, i: nat, c: nat, w: nat)
    requires IsRun(states, steps) && i < |states| && c < |states[i].cpus|
    requires states[i].cpus[c].pc in {Running, IdleHandler}
    ensures var s := states[i];
            && (Enabled(s, WakeTake(c, w)) <==> ChanLock(w) in s.cpus[c].held && ListOf(s, Chan(w)) != [])
            && (Enabled(s, WakePut(c)) <==>
                  && ListOf(s, Waking(c)) != []
                  && var t := ListOf(s, Waking(c))[0];
                     t in s.threads && s.threads[t].cpu < |s.cpus| && LockFree(s, RunqLock(s.threads[t].cpu)))
  {
    hide IsRun, Inv, LockFree;
    RunInv(states, steps, i);
    InvOwnCpu(states[i], c);
    if ListOf(states[i], Chan(w)) != [] { ListedAt(states[i], Chan(w), ListOf(states[i], Chan(w))[0]); }
  }
}
