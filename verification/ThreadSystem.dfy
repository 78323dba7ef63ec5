/** The thread system as a step machine: any number of CPUs and threads, one step per lock-held
    segment or machine primitive. */
module ThreadSystem {
  import opened Options

  type Tid = nat

  /** Every list a thread can be linked on through its one list node. */
  datatype ListId =
    | RunQ(cpu: nat)      // c_runqueue
    | Chan(chan: nat)     // wc_threads of a wait channel
    | Zombies(cpu: nat)   // c_zombies
    | Waking(cpu: nat)    // taken off a channel, not yet made runnable
    | Victims(cpu: nat)   // taken by thread_consider_migration

  datatype Lock = RunqLock(cpu: nat) | ChanLock(chan: nat) | Other(id: nat)

  datatype State = Run | Ready | Sleep | Zombie

  /** Where the switched-out thread is to go. */
  datatype Kind = ToReady | ToSleep(chan: nat) | ToZombie

  /** Control point of a CPU with respect to thread_switch. */
  datatype Pc =
    | Running               // outside thread_switch
    | Locked(kind: Kind)    // run queue locked, current thread not yet placed
    | Picking               // head of the idle loop, run queue locked
    | Switching(prev: Tid)  // next chosen, contexts not yet exchanged
    | Resumed               // just after switchframe_switch, run queue still locked
    | Idle                  // in cpu_idle, run queue unlocked
    | IdleHandler           // interrupt taken out of cpu_idle
    | IdleWoken             // cpu_idle has returned, run queue not yet relocked

  /** `saved`: the register context is in memory and no CPU executes on the thread's stack.
      `where` is the list the thread's node is on. `spl` is the local of thread_switch. */
  datatype Thread = Thread(state: State, cpu: nat, curspl: nat, iplhighCount: int, saved: bool, isNew: bool,
                           inInterrupt: bool, spl: nat, where: Option<ListId>)

  datatype Cpu = Cpu(cur: Tid, pc: Pc, isidle: bool, held: set<Lock>, spinlocks: int, irqOn: bool,
                     ipiPending: bool, ipiLine: bool)

  datatype Sys = Sys(cpus: seq<Cpu>, threads: map<Tid, Thread>, lists: map<ListId, seq<Tid>>)

  // ---------- reading and updating the state ----------

  function ListOf(s: Sys, l: ListId): seq<Tid> { if l in s.lists then s.lists[l] else [] }

  predicate HasCpu(s: Sys, c: nat) { c < |s.cpus| && s.cpus[c].cur in s.threads }

  function Cur(s: Sys, c: nat): Thread
    requires HasCpu(s, c)
  {
    s.threads[s.cpus[c].cur]
  }

  function SetCpu(s: Sys, c: nat, x: Cpu): Sys
    requires c < |s.cpus|
  {
    s.(cpus := s.cpus[c := x])
  }

  function SetCur(s: Sys, c: nat, t: Thread): Sys
    requires HasCpu(s, c)
  {
    s.(threads := s.threads[s.cpus[c].cur := t])
  }

  predicate LockFree(s: Sys, l: Lock) { forall c :: 0 <= c < |s.cpus| ==> l !in s.cpus[c].held }

  /** splraise on the current thread of CPU c. */
  function SplRaise(s: Sys, c: nat): Sys
    requires HasCpu(s, c)
  {
    var t := Cur(s, c);
    var s1 := SetCpu(s, c, s.cpus[c].(irqOn := if t.iplhighCount == 0 then false else s.cpus[c].irqOn));
    SetCur(s1, c, t.(iplhighCount := t.iplhighCount + 1))
  }

  /** spllower on the current thread of CPU c. */
  function SplLower(s: Sys, c: nat): Sys
    requires HasCpu(s, c)
  {
    var t := Cur(s, c);
    var s1 := SetCpu(s, c, s.cpus[c].(irqOn := if t.iplhighCount - 1 == 0 then true else s.cpus[c].irqOn));
    SetCur(s1, c, t.(iplhighCount := t.iplhighCount - 1))
  }

  function Splx(s: Sys, c: nat, spl: nat): Sys
    requires HasCpu(s, c)
  {
    var t := Cur(s, c);
    if t.curspl < spl then
      var s1 := SplRaise(s, c);
      SetCur(s1, c, Cur(s1, c).(curspl := spl))
    else if t.curspl > spl then
      SplLower(SetCur(s, c, t.(curspl := spl)), c)
    else
      s
  }

  function Acquire(s: Sys, c: nat, l: Lock): Sys
    requires HasCpu(s, c)
  {
    var s1 := SplRaise(s, c);
    SetCpu(s1, c, s1.cpus[c].(spinlocks := s1.cpus[c].spinlocks + 1, held := s1.cpus[c].held + {l}))
  }

  function Release(s: Sys, c: nat, l: Lock): Sys
    requires HasCpu(s, c)
  {
    SplLower(SetCpu(s, c, s.cpus[c].(spinlocks := s.cpus[c].spinlocks - 1, held := s.cpus[c].held - {l})), c)
  }

  function SetPc(s: Sys, c: nat, pc: Pc): Sys
    requires c < |s.cpus|
  {
    SetCpu(s, c, s.cpus[c].(pc := pc))
  }

  /** threadlist_addtail / threadlist_addhead / threadlist_remhead / threadlist_remtail. */
  function Link(s: Sys, t: Tid, l: ListId, atHead: bool): Sys
    requires t in s.threads
  {
    var q := if atHead then [t] + ListOf(s, l) else ListOf(s, l) + [t];
    s.(lists := s.lists[l := q], threads := s.threads[t := s.threads[t].(where := Some(l))])
  }

  function Unlink(s: Sys, l: ListId, atHead: bool): Sys
    requires ListOf(s, l) != [] && First(s, l, atHead) in s.threads
  {
    var q, t := ListOf(s, l), First(s, l, atHead);
    s.(lists := s.lists[l := if atHead then q[1..] else q[..|q| - 1]],
        threads := s.threads[t := s.threads[t].(where := None)])
  }

  function First(s: Sys, l: ListId, atHead: bool): Tid
    requires ListOf(s, l) != []
  {
    var q := ListOf(s, l);
    if atHead then q[0] else q[|q| - 1]
  }

  /** ipi_send(c, IPI_UNIDLE): the pending bit and the interrupt line. */
  function SendUnidle(s: Sys, c: nat): Sys
    requires c < |s.cpus|
  {
    SetCpu(s, c, s.cpus[c].(ipiPending := true, ipiLine := true))
  }

  /** Appends thread t, which is on no list, to the run queue of CPU d, on behalf of CPU c;
      an idle CPU other than c is interrupted. */
  function Enqueue(s: Sys, t: Tid, c: nat, d: nat): Sys
    requires t in s.threads && d < |s.cpus|
  {
    var s1 := s.(threads := s.threads[t := s.threads[t].(state := Ready)]);
    var s2 := Link(s1, t, RunQ(d), false);
    if s.cpus[d].isidle && d != c then SendUnidle(s2, d) else s2
  }

  // ---------- steps ----------

  datatype Step =
    | DoSplx(c: nat, spl: nat)
    | DoAcquire(c: nat, lock: Lock)
    | DoRelease(c: nat, lock: Lock)
    | InterruptEnter(c: nat)
    | InterruptExit(c: nat)
    | IpiAck(c: nat)                 // interprocessor_interrupt clears c_ipi_pending
    | IpiClear(c: nat)               // lamebus_clear_ipi drops the line
    | Fork(c: nat, child: Tid)
    | WakeTake(c: nat, chan: nat)    // threadlist_remhead in wchan_wakeone / wchan_wakeall
    | WakePut(c: nat)                // thread_make_runnable of a thread taken
    | SwitchLock(c: nat, kind: Kind) // splhigh and locking the run queue
    | SwitchPlace(c: nat)            // the switch on newstate
    | SwitchPick(c: nat)             // threadlist_remhead in the idle loop
    | SwitchFrame(c: nat)            // switchframe_switch
    | SwitchFinish(c: nat)           // tail of thread_switch, or head of thread_startup
    | IdleReturn(c: nat)             // cpu_idle returns
    | IdleInterrupt(c: nat)          // cpu_idle takes an interrupt first
    | IdleInterruptExit(c: nat)
    | IdleRelock(c: nat)
    | MigrateTake(c: nat)            // remtail of the own run queue, addhead of victims
    | MigrateSend(c: nat, to: nat)   // remhead of victims, addtail of another run queue
    | MigrateSkip(c: nat)            // the head victim is curthread: to the tail of victims
    | MigrateBack(c: nat)            // leftover victim back to the own run queue

  /** Kernel code runs on CPU c, in a thread or in an interrupt handler. */
  predicate Executing(s: Sys, c: nat) { HasCpu(s, c) && s.cpus[c].pc in {Running, IdleHandler} }

  predicate InHandler(s: Sys, c: nat) {
    HasCpu(s, c) && (s.cpus[c].pc == IdleHandler || (s.cpus[c].pc == Running && Cur(s, c).inInterrupt))
  }

  /** What thread_switch's callers guarantee: no other spinlocks, and no sleeping or exiting in a handler. */
  predicate MaySwitch(s: Sys, c: nat, kind: Kind)
    requires HasCpu(s, c)
  {
    match kind
    case ToReady => s.cpus[c].held == {}
    case ToSleep(w) => s.cpus[c].held == {ChanLock(w)} && !Cur(s, c).inInterrupt
    case ToZombie => s.cpus[c].held == {} && !Cur(s, c).inInterrupt
  }

  predicate Enabled(s: Sys, step: Step) {
    HasCpu(s, step.c) &&
    var k := s.cpus[step.c];
    match step
    case DoSplx(c, spl) => k.pc == Running && !Cur(s, c).inInterrupt && spl <= 1
    case DoAcquire(c, l) => Executing(s, c) && !l.RunqLock? && LockFree(s, l)
    case DoRelease(c, l) => Executing(s, c) && !l.RunqLock? && l in k.held
    case InterruptEnter(c) => k.pc == Running && k.irqOn
    case InterruptExit(c) => k.pc == Running && Cur(s, c).inInterrupt && k.held == {} && NothingInHand(s, c)
    case IpiAck(c) => InHandler(s, c)
    case IpiClear(c) => InHandler(s, c)
    case Fork(c, t) => k.pc == Running && t !in s.threads && LockFree(s, RunqLock(c))
    case WakeTake(c, w) => Executing(s, c) && ChanLock(w) in k.held && Takeable(s, Chan(w), true)
    case WakePut(c) =>
      Executing(s, c) && Takeable(s, Waking(c), true) &&
      var t := First(s, Waking(c), true);
      s.threads[t].cpu < |s.cpus| && LockFree(s, RunqLock(s.threads[t].cpu))
    case SwitchLock(c, kind) => k.pc == Running && MaySwitch(s, c, kind) && NothingInHand(s, c)
        && LockFree(s, RunqLock(c))
    case SwitchPlace(c) => k.pc.Locked?
    case SwitchPick(c) => k.pc == Picking && (ListOf(s, RunQ(c)) == [] || Takeable(s, RunQ(c), true))
    case SwitchFrame(c) => k.pc.Switching? && k.pc.prev in s.threads
    case SwitchFinish(c) => k.pc == Resumed && k.cur !in ListOf(s, Zombies(c))
    case IdleReturn(c) => k.pc == Idle
    case IdleInterrupt(c) => k.pc == Idle
    case IdleInterruptExit(c) => k.pc == IdleHandler && k.held == {} && NothingInHand(s, c)
    case IdleRelock(c) => k.pc == IdleWoken && LockFree(s, RunqLock(c))
    case MigrateTake(c) => InHandler(s, c) && Takeable(s, RunQ(c), false) && LockFree(s, RunqLock(c))
    case MigrateSend(c, d) =>
      InHandler(s, c) && HasCpu(s, d) && d != c && Takeable(s, Victims(c), true) &&
      First(s, Victims(c), true) != k.cur && LockFree(s, RunqLock(d))
    case MigrateSkip(c) => InHandler(s, c) && Takeable(s, Victims(c), true) && First(s, Victims(c), true) == k.cur
    case MigrateBack(c) => InHandler(s, c) && Takeable(s, Victims(c), true) && LockFree(s, RunqLock(c))
  }

  predicate Takeable(s: Sys, l: ListId, atHead: bool) { ListOf(s, l) != [] && First(s, l, atHead) in s.threads }

  predicate NothingInHand(s: Sys, c: nat) { ListOf(s, Waking(c)) == [] && ListOf(s, Victims(c)) == [] }

  /** Removes the head (or tail) of one list and adds it to another. */
  function Move(s: Sys, from: ListId, fromHead: bool, to: ListId, toHead: bool): Sys
    requires Takeable(s, from, fromHead)
  {
    Link(Unlink(s, from, fromHead), First(s, from, fromHead), to, toHead)
  }

  function Place(s: Sys, c: nat, kind: Kind): Sys
    requires HasCpu(s, c)
  {
    var t := s.cpus[c].cur;
    match kind
    case ToReady => Enqueue(s, t, c, c)
    case ToSleep(w) =>
      var s1 := Release(Link(s, t, Chan(w), false), c, ChanLock(w));
      SetCur(s1, c, Cur(s1, c).(state := Sleep))
    case ToZombie =>
      var s1 := Link(s, t, Zombies(c), false);
      SetCur(s1, c, Cur(s1, c).(state := Zombie))
  }

  /** exorcise: every thread on c's zombie list is destroyed. */
  function Exorcise(s: Sys, c: nat): Sys {
    s.(threads := s.threads - (set t | t in ListOf(s, Zombies(c))), lists := s.lists[Zombies(c) := []])
  }

  /** Hardware disables interrupts; mips_trap records that as splhigh. */
  function EnterInterrupt(s: Sys, c: nat): Sys
    requires HasCpu(s, c)
  {
    var t := Cur(s, c);
    SetCpu(SetCur(s, c, t.(inInterrupt := true, curspl := 1, iplhighCount := t.iplhighCount + 1)), c,
        s.cpus[c].(irqOn := false))
  }

  function ExitInterrupt(s: Sys, c: nat): Sys
    requires HasCpu(s, c)
  {
    var t := Cur(s, c);
    SetCpu(SetCur(s, c, t.(inInterrupt := false, curspl := 0, iplhighCount := t.iplhighCount - 1)), c,
        s.cpus[c].(irqOn := true))
  }

  /** thread_fork: curspl high, count 2 (one for the run queue lock released in thread_startup). */
  function ForkThread(s: Sys, c: nat, t: Tid): Sys
    requires HasCpu(s, c)
  {
    var child := Thread(Ready, Cur(s, c).cpu, 1, 2, true, true, false, 0, None);
    Enqueue(s.(threads := s.threads[t := child]), t, c, c)
  }

  function PutWoken(s: Sys, c: nat): Sys
    requires Takeable(s, Waking(c), true) && s.threads[First(s, Waking(c), true)].cpu < |s.cpus|
  {
    var t := First(s, Waking(c), true);
    Enqueue(Unlink(s, Waking(c), true), t, c, s.threads[t].cpu)
  }

  function LockForSwitch(s: Sys, c: nat, kind: Kind): Sys
    requires HasCpu(s, c)
  {
    var s1 := SetCur(s, c, Cur(s, c).(spl := Cur(s, c).curspl));
    SetPc(Acquire(Splx(s1, c, 1), c, RunqLock(c)), c, Locked(kind))
  }

  function PlaceCurrent(s: Sys, c: nat, kind: Kind): Sys
    requires HasCpu(s, c)
  {
    var s1 := Place(s, c, kind);
    SetCpu(s1, c, s1.cpus[c].(pc := Picking, isidle := true))
  }

  /** thread_yield with nothing else to run. */
  function NothingToDo(s: Sys, c: nat): Sys
    requires HasCpu(s, c)
  {
    var s1 := Release(s, c, RunqLock(c));
    SetPc(Splx(s1, c, Cur(s1, c).spl), c, Running)
  }

  function PickNext(s: Sys, c: nat): Sys
    requires c < |s.cpus| && Takeable(s, RunQ(c), true)
  {
    var k := s.cpus[c];
    SetCpu(Unlink(s, RunQ(c), true), c, k.(isidle := false, cur := First(s, RunQ(c), true), pc := Switching(k.cur)))
  }

  /** switchframe_switch: save the previous context, then load the next one. */
  function ExchangeFrames(s: Sys, c: nat, prev: Tid): Sys
    requires HasCpu(s, c) && prev in s.threads
  {
    var s1 := s.(threads := s.threads[prev := s.threads[prev].(saved := true)]);
    SetPc(SetCur(s1, c, Cur(s1, c).(saved := false)), c, Resumed)
  }

  /** Tail of thread_switch, or thread_startup for a new thread. */
  function FinishSwitch(s: Sys, c: nat): Sys
    requires HasCpu(s, c) && s.cpus[c].cur !in ListOf(s, Zombies(c))
  {
    var s1 := Release(SetCur(s, c, Cur(s, c).(state := Run)), c, RunqLock(c));
    var s2 := Exorcise(s1, c);
    var s3 := Splx(s2, c, if Cur(s2, c).isNew then 0 else Cur(s2, c).spl);
    SetPc(SetCur(s3, c, Cur(s3, c).(isNew := false)), c, Running)
  }

  function SendVictim(s: Sys, c: nat, d: nat): Sys
    requires d < |s.cpus| && Takeable(s, Victims(c), true)
  {
    var t := First(s, Victims(c), true);
    var s1 := Unlink(s, Victims(c), true);
    Enqueue(s1.(threads := s1.threads[t := s1.threads[t].(cpu := d)]), t, c, d)
  }

  function Next(s: Sys, step: Step): Sys
    requires Enabled(s, step)
  {
    match step
    case DoSplx(c, spl) => Splx(s, c, spl)
    case DoAcquire(c, l) => Acquire(s, c, l)
    case DoRelease(c, l) => Release(s, c, l)
    case InterruptEnter(c) => EnterInterrupt(s, c)
    case InterruptExit(c) => ExitInterrupt(s, c)
    case IpiAck(c) => SetCpu(s, c, s.cpus[c].(ipiPending := false))
    case IpiClear(c) => SetCpu(s, c, s.cpus[c].(ipiLine := false))
    case Fork(c, t) => ForkThread(s, c, t)
    case WakeTake(c, w) => Move(s, Chan(w), true, Waking(c), false)
    case WakePut(c) => PutWoken(s, c)
    case SwitchLock(c, kind) => LockForSwitch(s, c, kind)
    case SwitchPlace(c) =>
      if s.cpus[c].pc.kind == ToReady && ListOf(s, RunQ(c)) == [] then NothingToDo(s, c)
      else PlaceCurrent(s, c, s.cpus[c].pc.kind)
    case SwitchPick(c) =>
      if ListOf(s, RunQ(c)) == [] then SetPc(Release(s, c, RunqLock(c)), c, Idle)
      else PickNext(s, c)
    case SwitchFrame(c) => ExchangeFrames(s, c, s.cpus[c].pc.prev)
    case SwitchFinish(c) => FinishSwitch(s, c)
    case IdleReturn(c) => SetPc(s, c, IdleWoken)
    case IdleInterrupt(c) => SetPc(SetCur(s, c, Cur(s, c).(inInterrupt := true)), c, IdleHandler)
    case IdleInterruptExit(c) => SetPc(SetCur(s, c, Cur(s, c).(inInterrupt := false)), c, IdleWoken)
    case IdleRelock(c) => SetPc(Acquire(s, c, RunqLock(c)), c, Picking)
    case MigrateTake(c) => Move(s, RunQ(c), false, Victims(c), true)
    case MigrateSend(c, d) => SendVictim(s, c, d)
    case MigrateSkip(c) => Move(s, Victims(c), true, Victims(c), false)
    case MigrateBack(c) => Move(s, Victims(c), true, RunQ(c), false)
  }

  // ---------- the invariant ----------

  predicate NoDup(q: seq<Tid>) { forall i, j :: 0 <= i < j < |q| ==> q[i] != q[j] }

  /** A list holds exactly the threads whose node says so, each once. */
  ghost predicate ListOk(s: Sys, l: ListId) {
    && NoDup(ListOf(s, l))
    && (forall t :: t in ListOf(s, l) ==> t in s.threads && s.threads[t].where == Some(l))
    && (forall t :: t in s.threads && s.threads[t].where == Some(l) ==> t in ListOf(s, l))
  }

  predicate OffList(pc: Pc) { pc == Running || pc.Locked? || pc.Switching? || pc == Resumed }

  predicate IdlePc(pc: Pc) { pc in {Picking, Idle, IdleHandler, IdleWoken} }

  ghost predicate ThreadOk(s: Sys, t: Tid)
    requires t in s.threads
  {
    var x := s.threads[t];
    && x.cpu < |s.cpus| && x.curspl <= 1 && x.spl <= 1
    && (x.saved ==> x.iplhighCount == 2 && x.curspl == 1)
    && (!x.saved ==> s.cpus[x.cpu].cur == t || s.cpus[x.cpu].pc == Switching(t))
    && (x.where == None ==> s.cpus[x.cpu].cur == t && OffList(s.cpus[x.cpu].pc))
    && (x.where.Some? ==> ListPlace(x, x.where.value))
    && (x.inInterrupt ==>
          && x.curspl == 1 && !x.isNew
          && (x.spl == 1 || (!x.saved && s.cpus[x.cpu].cur == t && s.cpus[x.cpu].pc in {Running, IdleHandler})))
  }

  /** What being on a list says about the thread. */
  predicate ListPlace(x: Thread, l: ListId) {
    match l
    case RunQ(c) => x.cpu == c && x.state == Ready
    case Chan(w) => x.state == Sleep
    case Zombies(c) => x.cpu == c && x.state == Zombie
    case Waking(c) => x.state == Sleep
    case Victims(c) => x.cpu == c && x.state == Ready
  }

  ghost predicate CpuOk(s: Sys, c: nat)
    requires c < |s.cpus|
  {
    var k := s.cpus[c];
    && k.cur in s.threads
    && var t := s.threads[k.cur];
       && t.cpu == c
       && k.spinlocks == |k.held|
       && t.iplhighCount == t.curspl + k.spinlocks
       && (k.irqOn <==> t.iplhighCount == 0)
       && (k.isidle <==> IdlePc(k.pc))
       && (OffList(k.pc) ==> t.where == None)
       && (IdlePc(k.pc) ==> t.where.Some?)
       && (!k.pc.Switching? ==> !t.saved)
       && (k.pc != Running ==> t.curspl == 1)
       && (k.pc != Resumed && !k.pc.Switching? ==> !t.isNew)
       && (forall d :: RunqLock(d) in k.held ==> d == c && HoldsRunq(k.pc))
       && HeldOk(k, c)
       && (!Executes(k.pc) ==> NothingInHand(s, c))
       && (k.pc.Switching? ==> SwitchOk(s, c, k.pc.prev))
       && (k.pc == Idle && ListOf(s, RunQ(c)) != [] ==> k.ipiPending && k.ipiLine)
  }

  predicate Executes(pc: Pc) { pc in {Running, IdleHandler} }

  predicate HoldsRunq(pc: Pc) { pc.Locked? || pc == Picking || pc.Switching? || pc == Resumed }

  predicate HeldOk(k: Cpu, c: nat) {
    match k.pc
    case Running => true
    case IdleHandler => true
    case Locked(kind) => k.held == {RunqLock(c)} + (if kind.ToSleep? then {ChanLock(kind.chan)} else {})
    case Picking => k.held == {RunqLock(c)}
    case Switching(_) => k.held == {RunqLock(c)}
    case Resumed => k.held == {RunqLock(c)}
    case Idle => k.held == {}
    case IdleWoken => k.held == {}
  }

  /** Between choosing the next thread and exchanging contexts. */
  ghost predicate SwitchOk(s: Sys, c: nat, prev: Tid)
    requires c < |s.cpus|
  {
    && prev in s.threads && s.cpus[c].cur in s.threads
    && var p := s.threads[prev];
       && !p.saved && p.cpu == c && p.iplhighCount == 2 && p.curspl == 1
       && (prev != s.cpus[c].cur ==> p.where.Some? && s.threads[s.cpus[c].cur].saved)
  }

  ghost predicate LocksOk(s: Sys) {
    forall c, d :: 0 <= c < d < |s.cpus| ==> s.cpus[c].held !! s.cpus[d].held
  }

  ghost predicate Inv(s: Sys) {
    && (forall c :: 0 <= c < |s.cpus| ==> CpuOk(s, c))
    && (forall t :: t in s.threads ==> ThreadOk(s, t))
    && (forall l :: ListOk(s, l))
    && LocksOk(s)
  }

  // ---------- preservation: lists ----------

  ghost predicate ListsOk(s: Sys) { forall l :: ListOk(s, l) }

  lemma ListsSame(s: Sys, s2: Sys)
    requires ListsOk(s) && s2.lists == s.lists && s2.threads.Keys == s.threads.Keys
    requires forall t :: t in s.threads ==> s2.threads[t].where == s.threads[t].where
    ensures ListsOk(s2)
  {
    forall l ensures ListOk(s2, l) { assert ListOk(s, l); }
  }

  lemma LinkOk(s: Sys, t: Tid, l: ListId, atHead: bool)
    requires ListsOk(s) && t in s.threads && s.threads[t].where == None
    ensures ListsOk(Link(s, t, l, atHead))
  {
    var s2 := Link(s, t, l, atHead);
    forall m ensures ListOk(s2, m) {
      assert ListOk(s, m);
      if m == l { assert ListOf(s2, l) == if atHead then [t] + ListOf(s, l) else ListOf(s, l) + [t]; }
    }
  }

  lemma UnlinkOk(s: Sys, l: ListId, atHead: bool)
    requires ListsOk(s) && Takeable(s, l, atHead)
    ensures ListsOk(Unlink(s, l, atHead))
    ensures s.threads[First(s, l, atHead)].where == Some(l)
  {
    var s2, t, q := Unlink(s, l, atHead), First(s, l, atHead), ListOf(s, l);
    assert ListOk(s, l);
    var q2 := ListOf(s2, l);
    assert q == if atHead then [t] + q2 else q2 + [t];
    forall m ensures ListOk(s2, m) { assert ListOk(s, m); }
  }

  // ---------- preservation: frames ----------

  lemma CpuFrame(s: Sys, s2: Sys, d: nat)
    requires d < |s.cpus| == |s2.cpus| && CpuOk(s, d) && s2.cpus[d] == s.cpus[d]
    requires s.cpus[d].cur in s2.threads && s2.threads[s.cpus[d].cur] == s.threads[s.cpus[d].cur]
    requires s.cpus[d].pc.Switching? ==>
             s.cpus[d].pc.prev in s2.threads && s2.threads[s.cpus[d].pc.prev] == s.threads[s.cpus[d].pc.prev]
    requires ListOf(s2, Waking(d)) == ListOf(s, Waking(d)) && ListOf(s2, Victims(d)) == ListOf(s, Victims(d))
    requires s.cpus[d].pc == Idle ==> ListOf(s2, RunQ(d)) == ListOf(s, RunQ(d))
    ensures CpuOk(s2, d)
  {
  }

  lemma OtherCurrent(s: Sys, c: nat, d: nat)
    requires c < |s.cpus| && d < |s.cpus| && c != d && CpuOk(s, c) && CpuOk(s, d)
    ensures s.cpus[c].cur in s.threads && s.cpus[d].cur in s.threads && s.cpus[c].cur != s.cpus[d].cur
    ensures s.cpus[d].pc.Switching? ==> s.cpus[d].pc.prev in s.threads && s.cpus[d].pc.prev != s.cpus[c].cur
  {
  }

  lemma InvParts(s: Sys)
    ensures Inv(s) <==>
            && (forall c :: 0 <= c < |s.cpus| ==> CpuOk(s, c))
            && (forall t :: t in s.threads ==> ThreadOk(s, t))
            && ListsOk(s) && LocksOk(s)
  {
  }

  lemma InvFrom(s: Sys)
    requires forall c :: 0 <= c < |s.cpus| ==> CpuOk(s, c)
    requires forall t :: t in s.threads ==> ThreadOk(s, t)
    requires ListsOk(s) && LocksOk(s)
    ensures Inv(s)
  {
    hide CpuOk, ThreadOk, ListOk, LocksOk;
  }

  lemma InvAt(s: Sys, c: nat)
    requires Inv(s) && c < |s.cpus|
    ensures CpuOk(s, c) && s.cpus[c].cur in s.threads && ThreadOk(s, s.cpus[c].cur)
    ensures HeldApart(s, c, s.cpus[c].held)
  {
  }

  /** The locks `held` are held by no CPU other than c. */
  ghost predicate HeldApart(s: Sys, c: nat, held: set<Lock>) {
    forall d :: 0 <= d < |s.cpus| && d != c ==> held !! s.cpus[d].held
  }

  // ---------- preservation: steps local to one CPU and its current thread ----------

  ghost predicate LocalTo(s: Sys, s2: Sys, c: nat)
    requires HasCpu(s, c)
  {
    var t := s.cpus[c].cur;
    && s2.lists == s.lists && |s2.cpus| == |s.cpus| && s2.threads.Keys == s.threads.Keys
    && (forall d :: 0 <= d < |s.cpus| && d != c ==> s2.cpus[d] == s.cpus[d])
    && (forall x :: x in s.threads && x != t ==> s2.threads[x] == s.threads[x])
    && s2.cpus[c].cur == t
    && s2.threads[t].where == s.threads[t].where && s2.threads[t].cpu == s.threads[t].cpu
  }

  /** Only CPU c, its current thread, and lists of no other CPU may differ. */
  ghost predicate NearTo(s: Sys, s2: Sys, c: nat)
    requires HasCpu(s, c)
  {
    var t := s.cpus[c].cur;
    && |s2.cpus| == |s.cpus| && s2.threads.Keys == s.threads.Keys
    && (forall d :: 0 <= d < |s.cpus| && d != c ==> s2.cpus[d] == s.cpus[d] && SameLists(s, s2, d))
    && (forall x :: x in s.threads && x != t ==> s2.threads[x] == s.threads[x])
    && s2.cpus[c].cur == t && s2.threads[t].cpu == s.threads[t].cpu
  }

  predicate SameLists(s: Sys, s2: Sys, d: nat) {
    && ListOf(s2, Waking(d)) == ListOf(s, Waking(d)) && ListOf(s2, Victims(d)) == ListOf(s, Victims(d))
    && ListOf(s2, RunQ(d)) == ListOf(s, RunQ(d))
  }

  lemma LocalCpus(s: Sys, s2: Sys, c: nat)
    requires Inv(s) && HasCpu(s, c) && NearTo(s, s2, c) && CpuOk(s2, c)
    ensures forall d :: 0 <= d < |s2.cpus| ==> CpuOk(s2, d)
  {
    InvParts(s);
    hide Inv, CpuOk, ThreadOk, ListOk, LocksOk;
    forall d | 0 <= d < |s2.cpus| ensures CpuOk(s2, d) {
      if d != c {
        OtherCurrent(s, c, d);
        CpuFrame(s, s2, d);
      }
    }
  }

  lemma LocalThreads(s: Sys, s2: Sys, c: nat)
    requires Inv(s) && HasCpu(s, c) && NearTo(s, s2, c) && !s.cpus[c].pc.Switching? && ThreadOk(s2, s.cpus[c].cur)
    ensures forall t :: t in s2.threads ==> ThreadOk(s2, t)
  {
    InvParts(s);
    hide Inv, CpuOk, ListOk, LocksOk;
    forall t | t in s2.threads ensures ThreadOk(s2, t) {
      if t != s.cpus[c].cur { assert ThreadOk(s, t); }
    }
  }

  lemma LocalLocks(s: Sys, s2: Sys, c: nat)
    requires Inv(s) && HasCpu(s, c) && NearTo(s, s2, c) && HeldApart(s, c, s2.cpus[c].held)
    ensures LocksOk(s2)
  {
    InvParts(s);
    hide Inv, CpuOk, ThreadOk, ListOk;
    forall a, b | 0 <= a < b < |s2.cpus| ensures s2.cpus[a].held !! s2.cpus[b].held {
      assert s.cpus[a].held !! s.cpus[b].held;
    }
  }

  lemma NearStep(s: Sys, s2: Sys, c: nat)
    requires Inv(s) && HasCpu(s, c) && NearTo(s, s2, c) && !s.cpus[c].pc.Switching?
    requires HeldApart(s, c, s2.cpus[c].held)
    requires CpuOk(s2, c) && ThreadOk(s2, s.cpus[c].cur) && ListsOk(s2)
    ensures Inv(s2)
  {
    InvParts(s);
    hide Inv, CpuOk, ThreadOk, ListsOk, LocksOk;
    LocalCpus(s, s2, c);
    LocalThreads(s, s2, c);
    LocalLocks(s, s2, c);
    InvFrom(s2);
  }

  /** A local step keeps the invariant if it keeps it for its own CPU, thread and locks. */
  lemma LocalStep(s: Sys, s2: Sys, c: nat)
    requires Inv(s) && HasCpu(s, c) && LocalTo(s, s2, c) && !s.cpus[c].pc.Switching?
    requires HeldApart(s, c, s2.cpus[c].held)
    requires CpuOk(s2, c) && ThreadOk(s2, s.cpus[c].cur)
    ensures Inv(s2)
  {
    InvParts(s);
    hide Inv, CpuOk, ThreadOk, ListsOk, LocksOk;
    ListsSame(s, s2);
    NearStep(s, s2, c);
  }

  /** The step from s to s2 is local to CPU c and leaves its CPU and thread in order. */
  ghost predicate GoodLocal(s: Sys, s2: Sys, c: nat)
    requires HasCpu(s, c)
  {
    LocalTo(s, s2, c) && CpuOk(s2, c) && ThreadOk(s2, s.cpus[c].cur)
  }

  lemma GoodLocalStep(s: Sys, s2: Sys, c: nat)
    requires Inv(s) && HasCpu(s, c) && GoodLocal(s, s2, c) && !s.cpus[c].pc.Switching?
    requires HeldApart(s, c, s2.cpus[c].held)
    ensures Inv(s2)
  {
    LocalStep(s, s2, c);
  }

  // What each primitive does to its CPU and thread.

  function IrqAfter(on: bool, before: int, after: int): bool {
    if before == 0 && after == 1 then false else if before == 1 && after == 0 then true else on
  }

  ghost predicate Effect(s: Sys, s2: Sys, c: nat, k: Cpu, t: Thread)
    requires HasCpu(s, c)
  {
    LocalTo(s, s2, c) && s2.cpus[c] == k && s2.threads[s.cpus[c].cur] == t
  }

  lemma EffectCpu(s: Sys, s2: Sys, c: nat, k: Cpu, t: Thread)
    requires HasCpu(s, c) && Effect(s, s2, c, k, t)
    ensures HasCpu(s2, c) && s2.cpus[c] == k && Cur(s2, c) == t && k.cur == s.cpus[c].cur
    ensures t.where == Cur(s, c).where && t.cpu == Cur(s, c).cpu
  {
  }

  lemma SplxUp(s: Sys, c: nat, spl: nat)
    requires HasCpu(s, c) && Cur(s, c).curspl < spl
    ensures var k, t := s.cpus[c], Cur(s, c);
            Effect(s, Splx(s, c, spl), c, k.(irqOn := IrqAfter(k.irqOn, t.iplhighCount, t.iplhighCount + 1)),
                   t.(curspl := spl, iplhighCount := t.iplhighCount + 1))
  {
  }

  lemma SplxDown(s: Sys, c: nat, spl: nat)
    requires HasCpu(s, c) && Cur(s, c).curspl > spl
    ensures var k, t := s.cpus[c], Cur(s, c);
            Effect(s, Splx(s, c, spl), c, k.(irqOn := IrqAfter(k.irqOn, t.iplhighCount, t.iplhighCount - 1)),
                   t.(curspl := spl, iplhighCount := t.iplhighCount - 1))
  {
  }

  lemma SplxSame(s: Sys, c: nat, spl: nat)
    requires HasCpu(s, c) && Cur(s, c).curspl == spl
    ensures Splx(s, c, spl) == s && Effect(s, s, c, s.cpus[c], Cur(s, c))
  {
  }

  function SplxCpu(k: Cpu, t: Thread, spl: nat): Cpu {
    k.(irqOn := IrqAfter(k.irqOn, t.iplhighCount, t.iplhighCount + spl - t.curspl))
  }

  function SplxThread(t: Thread, spl: nat): Thread {
    t.(curspl := spl, iplhighCount := t.iplhighCount + spl - t.curspl)
  }

  lemma SplxEffect(s: Sys, c: nat, spl: nat)
    requires HasCpu(s, c) && spl <= 1 && Cur(s, c).curspl <= 1
    ensures Effect(s, Splx(s, c, spl), c, SplxCpu(s.cpus[c], Cur(s, c), spl), SplxThread(Cur(s, c), spl))
  {
    hide Effect, Splx;
    if Cur(s, c).curspl < spl {
      SplxUp(s, c, spl);
    } else if Cur(s, c).curspl > spl {
      SplxDown(s, c, spl);
    } else {
      SplxSame(s, c, spl);
      assert SplxThread(Cur(s, c), spl) == Cur(s, c);
      assert SplxCpu(s.cpus[c], Cur(s, c), spl) == s.cpus[c];
    }
  }

  lemma AcquireEffect(s: Sys, c: nat, l: Lock)
    requires HasCpu(s, c)
    ensures var k, t := s.cpus[c], Cur(s, c);
            Effect(s, Acquire(s, c, l), c,
                   k.(irqOn := IrqAfter(k.irqOn, t.iplhighCount, t.iplhighCount + 1), spinlocks := k.spinlocks + 1,
                       held := k.held + {l}),
                   t.(iplhighCount := t.iplhighCount + 1))
  {
  }

  lemma ReleaseEffect(s: Sys, c: nat, l: Lock)
    requires HasCpu(s, c)
    ensures var k, t := s.cpus[c], Cur(s, c);
            Effect(s, Release(s, c, l), c,
                   k.(irqOn := IrqAfter(k.irqOn, t.iplhighCount, t.iplhighCount - 1), spinlocks := k.spinlocks - 1,
                       held := k.held - {l}),
                   t.(iplhighCount := t.iplhighCount - 1))
  {
  }

  lemma SetPcEffect(s: Sys, c: nat, pc: Pc)
    requires HasCpu(s, c)
    ensures Effect(s, SetPc(s, c, pc), c, s.cpus[c].(pc := pc), Cur(s, c))
  {
  }

  lemma SetCurEffect(s: Sys, c: nat, t: Thread)
    requires HasCpu(s, c) && t.where == Cur(s, c).where && t.cpu == Cur(s, c).cpu
    ensures Effect(s, SetCur(s, c, t), c, s.cpus[c], t)
  {
  }

  lemma EffectThen(s: Sys, s1: Sys, s2: Sys, c: nat, k1: Cpu, t1: Thread, k2: Cpu, t2: Thread)
    requires HasCpu(s, c) && Effect(s, s1, c, k1, t1) && HasCpu(s1, c) && Effect(s1, s2, c, k2, t2)
    ensures Effect(s, s2, c, k2, t2)
  {
  }

  /** In order for a CPU in a given condition, apart from the rest of the state. */
  ghost predicate CpuFits(c: nat, k: Cpu, t: Thread, inHand: bool, queued: bool) {
    && t.cpu == c && t.curspl <= 1 && t.spl <= 1 && !t.saved && !k.pc.Switching?
    && k.spinlocks == |k.held| && t.iplhighCount == t.curspl + k.spinlocks
    && (k.irqOn <==> t.iplhighCount == 0)
    && (k.isidle <==> IdlePc(k.pc))
    && (OffList(k.pc) ==> t.where == None)
    && (IdlePc(k.pc) ==> t.where.Some? && ListPlace(t, t.where.value))
    && (k.pc != Running ==> t.curspl == 1)
    && (k.pc != Resumed ==> !t.isNew)
    && (forall d :: RunqLock(d) in k.held ==> d == c && HoldsRunq(k.pc))
    && HeldOk(k, c)
    && (Executes(k.pc) || !inHand)
    && (k.pc == Idle && queued ==> k.ipiPending && k.ipiLine)
    && (t.inInterrupt ==> t.curspl == 1 && !t.isNew && (t.spl == 1 || k.pc in {Running, IdleHandler}))
  }

  lemma FitsFrom(s: Sys, c: nat)
    requires c < |s.cpus| && CpuOk(s, c) && ThreadOk(s, s.cpus[c].cur) && !s.cpus[c].pc.Switching?
    ensures CpuFits(c, s.cpus[c], Cur(s, c), !NothingInHand(s, c), ListOf(s, RunQ(c)) != [])
  {
  }

  lemma FitsTo(s: Sys, s2: Sys, c: nat, k: Cpu, t: Thread)
    requires HasCpu(s, c) && Effect(s, s2, c, k, t)
    requires CpuFits(c, k, t, !NothingInHand(s, c), ListOf(s, RunQ(c)) != [])
    ensures GoodLocal(s, s2, c)
  {
  }

  /** Every step local to CPU c: from what it does to the CPU and thread to the whole invariant. */
  lemma LocalKeeps(s: Sys, s2: Sys, c: nat, k: Cpu, t: Thread)
    requires Inv(s) && HasCpu(s, c) && !s.cpus[c].pc.Switching? && Effect(s, s2, c, k, t)
    requires HeldApart(s, c, k.held)
    requires CpuFits(c, k, t, !NothingInHand(s, c), ListOf(s, RunQ(c)) != [])
    ensures Inv(s2)
  {
    FitsTo(s, s2, c, k, t);
    GoodLocalStep(s, s2, c);
  }

  ghost predicate Fits(s: Sys, c: nat, k: Cpu, t: Thread) {
    CpuFits(c, k, t, !NothingInHand(s, c), ListOf(s, RunQ(c)) != [])
  }

  /** A step of CPU c is sound if its effect fits and its locks were free. */
  lemma StepBy(s: Sys, s2: Sys, c: nat, k: Cpu, t: Thread)
    requires Inv(s) && HasCpu(s, c) && !s.cpus[c].pc.Switching? && Effect(s, s2, c, k, t)
    requires Fits(s, c, s.cpus[c], Cur(s, c)) ==> Fits(s, c, k, t)
    requires HeldApart(s, c, s.cpus[c].held) ==> HeldApart(s, c, k.held)
    ensures Inv(s2)
  {
    hide Inv, CpuOk, ThreadOk, Effect, HeldApart;
    InvAt(s, c);
    FitsFrom(s, c);
    LocalKeeps(s, s2, c, k, t);
  }

  lemma SplxKeeps(s: Sys, c: nat, spl: nat)
    requires Inv(s) && Enabled(s, DoSplx(c, spl))
    ensures Inv(Splx(s, c, spl))
  {
    hide Inv, Effect, Splx;
    InvCurspl(s, c);
    SplxEffect(s, c, spl);
    StepBy(s, Splx(s, c, spl), c, SplxCpu(s.cpus[c], Cur(s, c), spl), SplxThread(Cur(s, c), spl));
  }

  lemma InvCurspl(s: Sys, c: nat)
    requires Inv(s) && HasCpu(s, c)
    ensures Cur(s, c).curspl <= 1 && Cur(s, c).spl <= 1
  {
    hide CpuOk, ListOk, LocksOk;
    assert ThreadOk(s, s.cpus[c].cur);
  }

  lemma AcquireKeeps(s: Sys, c: nat, l: Lock)
    requires Inv(s) && Enabled(s, DoAcquire(c, l))
    ensures Inv(Acquire(s, c, l))
  {
    hide Inv, Effect, Acquire;
    AcquireEffect(s, c, l);
    var k, t := s.cpus[c], Cur(s, c);
    var n := t.iplhighCount;
    StepBy(s, Acquire(s, c, l), c,
           k.(irqOn := IrqAfter(k.irqOn, n, n + 1), spinlocks := k.spinlocks + 1, held := k.held + {l}),
               t.(iplhighCount := n + 1));
  }

  lemma ReleaseKeeps(s: Sys, c: nat, l: Lock)
    requires Inv(s) && Enabled(s, DoRelease(c, l))
    ensures Inv(Release(s, c, l))
  {
    hide Inv, Effect, Release;
    ReleaseEffect(s, c, l);
    var k, t := s.cpus[c], Cur(s, c);
    var n := t.iplhighCount;
    StepBy(s, Release(s, c, l), c,
           k.(irqOn := IrqAfter(k.irqOn, n, n - 1), spinlocks := k.spinlocks - 1, held := k.held - {l}),
               t.(iplhighCount := n - 1));
  }

  lemma InterruptEnterKeeps(s: Sys, c: nat)
    requires Inv(s) && Enabled(s, InterruptEnter(c))
    ensures Inv(EnterInterrupt(s, c))
  {
    hide Inv;
    var k, t := s.cpus[c], Cur(s, c);
    StepBy(s, EnterInterrupt(s, c), c, k.(irqOn := false),
        t.(inInterrupt := true, curspl := 1, iplhighCount := t.iplhighCount + 1));
  }

  lemma InterruptExitKeeps(s: Sys, c: nat)
    requires Inv(s) && Enabled(s, InterruptExit(c))
    ensures Inv(ExitInterrupt(s, c))
  {
    hide Inv;
    var k, t := s.cpus[c], Cur(s, c);
    StepBy(s, ExitInterrupt(s, c), c, k.(irqOn := true),
        t.(inInterrupt := false, curspl := 0, iplhighCount := t.iplhighCount - 1));
  }

  lemma IpiKeeps(s: Sys, c: nat, pending: bool, line: bool)
    requires Inv(s) && InHandler(s, c)
    ensures Inv(SetCpu(s, c, s.cpus[c].(ipiPending := pending, ipiLine := line)))
  {
    hide Inv;
    var k := s.cpus[c].(ipiPending := pending, ipiLine := line);
    StepBy(s, SetCpu(s, c, k), c, k, Cur(s, c));
  }

  /** Steps that only move the control point (and the interrupt flag) of an idling CPU. */
  lemma IdleKeeps(s: Sys, c: nat, pc: Pc, inInterrupt: bool)
    requires Inv(s) && HasCpu(s, c)
    requires (s.cpus[c].pc == Idle && pc == IdleWoken && inInterrupt == Cur(s, c).inInterrupt)
          || (s.cpus[c].pc == Idle && pc == IdleHandler && inInterrupt)
          || (Enabled(s, IdleInterruptExit(c)) && pc == IdleWoken && !inInterrupt)
    ensures Inv(SetPc(SetCur(s, c, Cur(s, c).(inInterrupt := inInterrupt)), c, pc))
  {
    hide Inv, Effect;
    var t := Cur(s, c).(inInterrupt := inInterrupt);
    SetCurEffect(s, c, t);
    SetPcEffect(SetCur(s, c, t), c, pc);
    EffectThen(s, SetCur(s, c, t), SetPc(SetCur(s, c, t), c, pc), c, s.cpus[c], t, s.cpus[c].(pc := pc), t);
    StepBy(s, SetPc(SetCur(s, c, t), c, pc), c, s.cpus[c].(pc := pc), t);
  }

  lemma IdleRelockKeeps(s: Sys, c: nat)
    requires Inv(s) && Enabled(s, IdleRelock(c))
    ensures Inv(SetPc(Acquire(s, c, RunqLock(c)), c, Picking))
  {
    hide Inv, Effect;
    var k, t, s1 := s.cpus[c], Cur(s, c), Acquire(s, c, RunqLock(c));
    var n := t.iplhighCount;
    var k1, t1 := k.(irqOn := IrqAfter(k.irqOn, n, n + 1), spinlocks := k.spinlocks + 1,
        held := k.held + {RunqLock(c)}),
                  t.(iplhighCount := n + 1);
    AcquireEffect(s, c, RunqLock(c));
    hide Acquire;
    EffectCpu(s, s1, c, k1, t1);
    SetPcEffect(s1, c, Picking);
    EffectThen(s, s1, SetPc(s1, c, Picking), c, k1, t1, k1.(pc := Picking), t1);
    StepBy(s, SetPc(s1, c, Picking), c, k1.(pc := Picking), t1);
  }

  lemma GoIdleKeeps(s: Sys, c: nat)
    requires Inv(s) && Enabled(s, SwitchPick(c)) && ListOf(s, RunQ(c)) == []
    ensures Inv(SetPc(Release(s, c, RunqLock(c)), c, Idle))
  {
    hide Inv;
    var k, t := s.cpus[c], Cur(s, c);
    var n := t.iplhighCount;
    StepBy(s, SetPc(Release(s, c, RunqLock(c)), c, Idle), c,
           k.(irqOn := IrqAfter(k.irqOn, n, n - 1), spinlocks := k.spinlocks - 1, held := k.held - {RunqLock(c)},
               pc := Idle),
           t.(iplhighCount := n - 1));
  }

  // splhigh, then the run queue lock, keeping the old level in the local `spl`.

  function LockedCpu(k: Cpu, t: Thread, c: nat, kind: Kind): Cpu {
    k.(irqOn := false, spinlocks := k.spinlocks + 1, held := k.held + {RunqLock(c)}, pc := Locked(kind))
  }

  function LockedThread(t: Thread): Thread {
    t.(spl := t.curspl, curspl := 1, iplhighCount := t.iplhighCount + 2 - t.curspl)
  }

  lemma LockForSwitchEffect(s: Sys, c: nat, kind: Kind)
    requires HasCpu(s, c) && Cur(s, c).curspl <= 1 && (s.cpus[c].irqOn <==> Cur(s, c).iplhighCount == 0)
    requires Cur(s, c).iplhighCount >= Cur(s, c).curspl
    ensures Effect(s, LockForSwitch(s, c, kind), c, LockedCpu(s.cpus[c], Cur(s, c), c, kind), LockedThread(Cur(s, c)))
  {
    hide Effect, Splx, Acquire, SetCur, SetPc;
    var t1 := Cur(s, c).(spl := Cur(s, c).curspl);
    var s1 := SetCur(s, c, t1);
    SetCurEffect(s, c, t1);
    EffectCpu(s, s1, c, s.cpus[c], t1);
    var s2 := Splx(s1, c, 1);
    var k2, t2 := SplxCpu(s.cpus[c], t1, 1), SplxThread(t1, 1);
    SplxEffect(s1, c, 1);
    EffectCpu(s1, s2, c, k2, t2);
    EffectThen(s, s1, s2, c, s.cpus[c], t1, k2, t2);
    var s3 := Acquire(s2, c, RunqLock(c));
    var k3, t3 := k2.(irqOn := false, spinlocks := k2.spinlocks + 1, held := k2.held + {RunqLock(c)}),
        t2.(iplhighCount := t2.iplhighCount + 1);
    AcquireEffect(s2, c, RunqLock(c));
    EffectCpu(s2, s3, c, k3, t3);
    EffectThen(s, s2, s3, c, k2, t2, k3, t3);
    SetPcEffect(s3, c, Locked(kind));
    EffectThen(s, s3, SetPc(s3, c, Locked(kind)), c, k3, t3, k3.(pc := Locked(kind)), t3);
  }

  lemma InvIrq(s: Sys, c: nat)
    requires Inv(s) && HasCpu(s, c)
    ensures (s.cpus[c].irqOn <==> Cur(s, c).iplhighCount == 0)
    ensures Cur(s, c).iplhighCount == Cur(s, c).curspl + |s.cpus[c].held|
  {
    hide ThreadOk, ListOk, LocksOk;
    assert CpuOk(s, c);
  }

  lemma LockedFits(s: Sys, c: nat, kind: Kind)
    requires Enabled(s, SwitchLock(c, kind))
    ensures var k, t := LockedCpu(s.cpus[c], Cur(s, c), c, kind), LockedThread(Cur(s, c));
            && (Fits(s, c, s.cpus[c], Cur(s, c)) ==> Fits(s, c, k, t))
            && (HeldApart(s, c, s.cpus[c].held) ==> HeldApart(s, c, k.held))
  {
  }

  lemma LockForSwitchKeeps(s: Sys, c: nat, kind: Kind)
    requires Inv(s) && Enabled(s, SwitchLock(c, kind))
    ensures Inv(LockForSwitch(s, c, kind))
  {
    hide Inv, Effect, LockForSwitch, Fits, HeldApart, LockedCpu, LockedThread;
    InvCurspl(s, c);
    InvIrq(s, c);
    LockForSwitchEffect(s, c, kind);
    LockedFits(s, c, kind);
    StepBy(s, LockForSwitch(s, c, kind), c, LockedCpu(s.cpus[c], Cur(s, c), c, kind), LockedThread(Cur(s, c)));
  }

  // releasing the run queue and going back to the old level

  function UnlockedCpu(k: Cpu, t: Thread, c: nat, spl: nat): Cpu {
    k.(irqOn := t.iplhighCount - 1 + spl - t.curspl == 0, spinlocks := k.spinlocks - 1, held := k.held - {RunqLock(c)},
        pc := Running)
  }

  function UnlockedThread(t: Thread, spl: nat): Thread {
    t.(curspl := spl, iplhighCount := t.iplhighCount - 1 + spl - t.curspl)
  }

  lemma NothingToDoEffect(s: Sys, c: nat)
    requires HasCpu(s, c) && Cur(s, c).curspl == 1 && Cur(s, c).spl <= 1 && !s.cpus[c].irqOn
    requires Cur(s, c).iplhighCount == 2
    ensures Effect(s, NothingToDo(s, c), c, UnlockedCpu(s.cpus[c], Cur(s, c), c, Cur(s, c).spl),
            UnlockedThread(Cur(s, c), Cur(s, c).spl))
  {
    var s1 := Release(s, c, RunqLock(c));
    var k, t := s.cpus[c], Cur(s, c);
    var k1, t1 := k.(spinlocks := k.spinlocks - 1, held := k.held - {RunqLock(c)}), t.(iplhighCount := 1);
    ReleaseEffect(s, c, RunqLock(c));
    EffectCpu(s, s1, c, k1, t1);
    hide Release;
    SplxEffect(s1, c, t.spl);
    var s2 := Splx(s1, c, t.spl);
    var k2, t2 := SplxCpu(k1, t1, t.spl), SplxThread(t1, t.spl);
    hide Effect, Splx;
    EffectCpu(s1, s2, c, k2, t2);
    EffectThen(s, s1, s2, c, k1, t1, k2, t2);
    SetPcEffect(s2, c, Running);
    EffectThen(s, s2, SetPc(s2, c, Running), c, k2, t2, k2.(pc := Running), t2);
  }

  lemma NothingToDoKeeps(s: Sys, c: nat)
    requires Inv(s) && HasCpu(s, c) && s.cpus[c].pc == Locked(ToReady)
    ensures Inv(NothingToDo(s, c))
  {
    hide Inv, Effect, NothingToDo;
    InvCurspl(s, c);
    InvLocked(s, c);
    NothingToDoEffect(s, c);
    StepBy(s, NothingToDo(s, c), c, UnlockedCpu(s.cpus[c], Cur(s, c), c, Cur(s, c).spl),
        UnlockedThread(Cur(s, c), Cur(s, c).spl));
  }

  lemma InvLocked(s: Sys, c: nat)
    requires Inv(s) && HasCpu(s, c) && HoldsRunq(s.cpus[c].pc)
    ensures Cur(s, c).curspl == 1 && !s.cpus[c].irqOn && RunqLock(c) in s.cpus[c].held
    ensures s.cpus[c].held == {RunqLock(c)} ==> Cur(s, c).iplhighCount == 2
    ensures !(s.cpus[c].pc.Locked? && s.cpus[c].pc.kind.ToSleep?) ==> s.cpus[c].held == {RunqLock(c)}
  {
    hide ThreadOk, ListOk, LocksOk;
    assert CpuOk(s, c);
  }

  // ---------- preservation: steps that move one thread between lists ----------

  predicate SameButIpi(k: Cpu, k2: Cpu) {
    k2 == k || k2 == k.(ipiPending := true, ipiLine := true)
  }

  /** Thread x, on a list or newly created, is put on a list; nothing else about threads changes. */
  ghost predicate MovesOnly(s: Sys, s2: Sys, x: Tid) {
    && |s2.cpus| == |s.cpus| && s2.threads.Keys == s.threads.Keys + {x}
    && (forall d :: 0 <= d < |s.cpus| ==> SameButIpi(s.cpus[d], s2.cpus[d]))
    && (forall t :: t in s.threads && t != x ==> s2.threads[t] == s.threads[t])
    && var y := s2.threads[x];
       && y.where.Some? && ListPlace(y, y.where.value) && y.cpu < |s.cpus|
       && (if x in s.threads then
             && s.threads[x].where.Some? && y == s.threads[x].(where := y.where, state := y.state, cpu := y.cpu)
             && (y.cpu == s.threads[x].cpu || y.saved)
           else y.saved && y.isNew && !y.inInterrupt && y.iplhighCount == 2 && y.curspl == 1 && y.spl <= 1)
  }

  /** Private lists belong to executing CPUs, and an idle CPU with work has been interrupted. */
  ghost predicate HandsOk(s: Sys) {
    forall d :: 0 <= d < |s.cpus| ==>
      && (!Executes(s.cpus[d].pc) ==> NothingInHand(s, d))
      && (s.cpus[d].pc == Idle && ListOf(s, RunQ(d)) != [] ==> s.cpus[d].ipiPending && s.cpus[d].ipiLine)
  }

  lemma MovedCpu(s: Sys, s2: Sys, x: Tid, d: nat)
    requires d < |s.cpus| && CpuOk(s, d) && MovesOnly(s, s2, x) && HandsOk(s2)
    ensures CpuOk(s2, d)
  {
  }

  lemma MovedThread(s: Sys, s2: Sys, x: Tid, t: Tid)
    requires t in s2.threads && MovesOnly(s, s2, x) && (t in s.threads ==> ThreadOk(s, t))
    ensures ThreadOk(s2, t)
  {
  }

  lemma MoveKeeps(s: Sys, s2: Sys, x: Tid)
    requires Inv(s) && MovesOnly(s, s2, x) && HandsOk(s2) && ListsOk(s2)
    ensures Inv(s2)
  {
    InvParts(s);
    hide Inv, CpuOk, ThreadOk, ListsOk;
    assert LocksOk(s2) by {
      forall a, b | 0 <= a < b < |s2.cpus| ensures s2.cpus[a].held !! s2.cpus[b].held {
        assert s.cpus[a].held !! s.cpus[b].held;
        assert SameButIpi(s.cpus[a], s2.cpus[a]) && SameButIpi(s.cpus[b], s2.cpus[b]);
      }
    }
    forall d | 0 <= d < |s2.cpus| ensures CpuOk(s2, d) { MovedCpu(s, s2, x, d); }
    forall t | t in s2.threads ensures ThreadOk(s2, t) { MovedThread(s, s2, x, t); }
    InvFrom(s2);
  }

  lemma InvHands(s: Sys)
    requires Inv(s)
    ensures HandsOk(s) && ListsOk(s)
  {
    hide ThreadOk, ListOk, LocksOk;
    forall d | 0 <= d < |s.cpus|
      ensures !Executes(s.cpus[d].pc) ==> NothingInHand(s, d)
      ensures s.cpus[d].pc == Idle && ListOf(s, RunQ(d)) != [] ==> s.cpus[d].ipiPending && s.cpus[d].ipiLine
    {
      assert CpuOk(s, d);
    }
  }

  lemma InvTaken(s: Sys, l: ListId, atHead: bool)
    requires Inv(s) && Takeable(s, l, atHead)
    ensures var x := First(s, l, atHead);
            s.threads[x].where == Some(l) && ListPlace(s.threads[x], l) && s.threads[x].cpu < |s.cpus|
            && (!s.threads[x].saved ==>
                 s.cpus[s.threads[x].cpu].cur == x || s.cpus[s.threads[x].cpu].pc == Switching(x))
  {
    var x := First(s, l, atHead);
    hide CpuOk, LocksOk;
    assert ListOk(s, l) && ThreadOk(s, x);
  }

  /** Taking x from one list and putting it on another, with its state and CPU set. */
  ghost predicate Moved(s: Sys, s2: Sys, from: ListId, fromHead: bool, to: ListId, state: State, cpu: nat)
    requires Takeable(s, from, fromHead)
  {
    var x := First(s, from, fromHead);
    && s2.threads == s.threads[x := s.threads[x].(where := Some(to), state := state, cpu := cpu)]
    && |s2.cpus| == |s.cpus|
    && (forall l :: l != from && l != to ==> ListOf(s2, l) == ListOf(s, l))
    && (from != to ==> |ListOf(s2, from)| < |ListOf(s, from)|)
  }

  lemma MoveIsMoved(s: Sys, from: ListId, fromHead: bool, to: ListId, toHead: bool)
    requires ListsOk(s) && Takeable(s, from, fromHead)
    ensures var x, s2 := First(s, from, fromHead), Move(s, from, fromHead, to, toHead);
            && Moved(s, s2, from, fromHead, to, s.threads[x].state, s.threads[x].cpu) && s2.cpus == s.cpus
            && ListsOk(s2)
  {
    hide ListsOk;
    UnlinkOk(s, from, fromHead);
    LinkOk(Unlink(s, from, fromHead), First(s, from, fromHead), to, toHead);
  }

  lemma MovedIsMovesOnly(s: Sys, s2: Sys, from: ListId, fromHead: bool, to: ListId, state: State, cpu: nat)
    requires Inv(s) && Takeable(s, from, fromHead) && Moved(s, s2, from, fromHead, to, state, cpu)
    requires forall d :: 0 <= d < |s.cpus| ==> SameButIpi(s.cpus[d], s2.cpus[d])
    requires var x := First(s, from, fromHead);
             ListPlace(s.threads[x].(where := Some(to), state := state, cpu := cpu), to) && cpu < |s.cpus|
             && (cpu == s.threads[x].cpu || s.threads[x].saved)
    ensures MovesOnly(s, s2, First(s, from, fromHead))
  {
    hide Inv;
    InvTaken(s, from, fromHead);
  }

  /** Where a moved thread may arrive. */
  ghost predicate GoodTarget(s2: Sys, to: ListId) {
    match to
    case RunQ(d) => d < |s2.cpus| && (s2.cpus[d].pc == Idle ==> s2.cpus[d].ipiPending && s2.cpus[d].ipiLine)
    case Waking(c) => c < |s2.cpus| && Executes(s2.cpus[c].pc)
    case Victims(c) => c < |s2.cpus| && Executes(s2.cpus[c].pc)
    case _ => true
  }

  lemma MovedHands(s: Sys, s2: Sys, from: ListId, fromHead: bool, to: ListId, state: State, cpu: nat)
    requires HandsOk(s) && Takeable(s, from, fromHead) && Moved(s, s2, from, fromHead, to, state, cpu)
    requires forall d :: 0 <= d < |s.cpus| ==> SameButIpi(s.cpus[d], s2.cpus[d])
    requires GoodTarget(s2, to)
    ensures HandsOk(s2)
  {
    forall d | 0 <= d < |s2.cpus|
      ensures !Executes(s2.cpus[d].pc) ==> NothingInHand(s2, d)
      ensures s2.cpus[d].pc == Idle && ListOf(s2, RunQ(d)) != [] ==> s2.cpus[d].ipiPending && s2.cpus[d].ipiLine
    {
      assert SameButIpi(s.cpus[d], s2.cpus[d]);
    }
  }

  lemma ListMoveKeeps(s: Sys, s2: Sys, from: ListId, fromHead: bool, to: ListId, state: State, cpu: nat)
    requires Inv(s) && Takeable(s, from, fromHead) && Moved(s, s2, from, fromHead, to, state, cpu) && ListsOk(s2)
    requires forall d :: 0 <= d < |s.cpus| ==> SameButIpi(s.cpus[d], s2.cpus[d])
    requires var x := First(s, from, fromHead);
             ListPlace(s.threads[x].(where := Some(to), state := state, cpu := cpu), to) && cpu < |s.cpus|
             && (cpu == s.threads[x].cpu || s.threads[x].saved)
    requires GoodTarget(s2, to)
    ensures Inv(s2)
  {
    hide Inv, ListsOk, Moved, HandsOk, GoodTarget;
    InvHands(s);
    MovedHands(s, s2, from, fromHead, to, state, cpu);
    MovedIsMovesOnly(s, s2, from, fromHead, to, state, cpu);
    MoveKeeps(s, s2, First(s, from, fromHead));
  }

  lemma WakeTakeKeeps(s: Sys, c: nat, w: nat)
    requires Inv(s) && Enabled(s, WakeTake(c, w))
    ensures Inv(Move(s, Chan(w), true, Waking(c), false))
  {
    hide Inv, ListsOk, Move, Moved, HandsOk;
    var s2, x := Move(s, Chan(w), true, Waking(c), false), First(s, Chan(w), true);
    InvHands(s);
    InvTaken(s, Chan(w), true);
    MoveIsMoved(s, Chan(w), true, Waking(c), false);
    ListMoveKeeps(s, s2, Chan(w), true, Waking(c), s.threads[x].state, s.threads[x].cpu);
  }

  lemma MigrateTakeKeeps(s: Sys, c: nat)
    requires Inv(s) && Enabled(s, MigrateTake(c))
    ensures Inv(Move(s, RunQ(c), false, Victims(c), true))
  {
    hide Inv, ListsOk, Move, Moved, HandsOk;
    var s2, x := Move(s, RunQ(c), false, Victims(c), true), First(s, RunQ(c), false);
    InvHands(s);
    InvTaken(s, RunQ(c), false);
    MoveIsMoved(s, RunQ(c), false, Victims(c), true);
    ListMoveKeeps(s, s2, RunQ(c), false, Victims(c), s.threads[x].state, s.threads[x].cpu);
  }

  /** A victim that stays with its CPU: skipped, or put back on the own run queue. */
  lemma VictimStaysKeeps(s: Sys, c: nat, to: ListId)
    requires Inv(s) && InHandler(s, c) && Takeable(s, Victims(c), true) && to in {Victims(c), RunQ(c)}
    ensures Inv(Move(s, Victims(c), true, to, false))
  {
    hide Inv, ListsOk, Move, Moved, HandsOk;
    var s2, x := Move(s, Victims(c), true, to, false), First(s, Victims(c), true);
    InvHands(s);
    InvTaken(s, Victims(c), true);
    MoveIsMoved(s, Victims(c), true, to, false);
    ListMoveKeeps(s, s2, Victims(c), true, to, s.threads[x].state, s.threads[x].cpu);
  }

  // thread_make_runnable on CPU d on behalf of CPU c

  lemma EnqueueEffect(s: Sys, t: Tid, c: nat, d: nat)
    requires ListsOk(s) && t in s.threads && s.threads[t].where == None && d < |s.cpus|
    ensures var s2 := Enqueue(s, t, c, d);
            && ListsOk(s2) && |s2.cpus| == |s.cpus|
            && s2.threads == s.threads[t := s.threads[t].(where := Some(RunQ(d)), state := Ready)]
            && (forall l :: l != RunQ(d) ==> ListOf(s2, l) == ListOf(s, l))
            && (forall e :: 0 <= e < |s.cpus| ==> SameButIpi(s.cpus[e], s2.cpus[e]))
            && (s.cpus[d].isidle && d != c ==> s2.cpus[d].ipiPending && s2.cpus[d].ipiLine)
  {
    var s1 := s.(threads := s.threads[t := s.threads[t].(state := Ready)]);
    hide ListsOk;
    ListsSame(s, s1);
    LinkOk(s1, t, RunQ(d), false);
    ListsSame(Link(s1, t, RunQ(d), false), Enqueue(s, t, c, d));
  }

  /** Removing x from a private list, then making it runnable on CPU d. */
  lemma TakeThenEnqueue(s: Sys, from: ListId, c: nat, d: nat)
    requires ListsOk(s) && Takeable(s, from, true) && d < |s.cpus| && !from.RunQ?
    ensures var x := First(s, from, true);
            var s1 := Unlink(s, from, true);
            var s1' := s1.(threads := s1.threads[x := s1.threads[x].(cpu := d)]);
            var s2 := Enqueue(s1', x, c, d);
            && Moved(s, s2, from, true, RunQ(d), Ready, d) && ListsOk(s2) && |s2.cpus| == |s.cpus|
            && (forall e :: 0 <= e < |s.cpus| ==> SameButIpi(s.cpus[e], s2.cpus[e]))
            && (s.cpus[d].isidle && d != c ==> s2.cpus[d].ipiPending && s2.cpus[d].ipiLine)
  {
    hide ListsOk, Enqueue, Unlink;
    var x, s1 := First(s, from, true), Unlink(s, from, true);
    UnlinkOk(s, from, true);
    UnlinkEffect(s, from, true);
    var s1' := s1.(threads := s1.threads[x := s1.threads[x].(cpu := d)]);
    ListsSame(s1, s1');
    EnqueueEffect(s1', x, c, d);
  }

  lemma PutWokenKeeps(s: Sys, c: nat)
    requires Inv(s) && Enabled(s, WakePut(c))
    ensures Inv(PutWoken(s, c))
  {
    hide Inv, ListsOk, Enqueue, Unlink, Moved, HandsOk;
    var x := First(s, Waking(c), true);
    var d := s.threads[x].cpu;
    InvHands(s);
    InvTaken(s, Waking(c), true);
    TakeThenEnqueue(s, Waking(c), c, d);
    InvIdleFlag(s, d);
    UnlinkEffect(s, Waking(c), true);
    var s1 := Unlink(s, Waking(c), true);
    assert s1.(threads := s1.threads[x := s1.threads[x].(cpu := d)]) == s1;
    assert SameButIpi(s.cpus[d], PutWoken(s, c).cpus[d]);
    ListMoveKeeps(s, PutWoken(s, c), Waking(c), true, RunQ(d), Ready, d);
  }

  lemma InvIdleFlag(s: Sys, d: nat)
    requires Inv(s) && d < |s.cpus|
    ensures s.cpus[d].isidle <==> IdlePc(s.cpus[d].pc)
  {
    hide ThreadOk, ListOk, LocksOk;
    assert CpuOk(s, d);
  }

  lemma UnlinkEffect(s: Sys, l: ListId, atHead: bool)
    requires Takeable(s, l, atHead)
    ensures var s2, x := Unlink(s, l, atHead), First(s, l, atHead);
            && s2.cpus == s.cpus && s2.threads == s.threads[x := s.threads[x].(where := None)]
            && (forall m :: m != l ==> ListOf(s2, m) == ListOf(s, m)) && |ListOf(s2, l)| < |ListOf(s, l)|
  {
  }

  lemma SendVictimKeeps(s: Sys, c: nat, d: nat)
    requires Inv(s) && Enabled(s, MigrateSend(c, d))
    ensures Inv(SendVictim(s, c, d))
  {
    hide Inv, ListsOk, Enqueue, Unlink, Moved, HandsOk;
    InvHands(s);
    InvTaken(s, Victims(c), true);
    TakeThenEnqueue(s, Victims(c), c, d);
    InvIdleFlag(s, d);
    assert SameButIpi(s.cpus[d], SendVictim(s, c, d).cpus[d]);
    ListMoveKeeps(s, SendVictim(s, c, d), Victims(c), true, RunQ(d), Ready, d);
  }

  lemma ForkKeeps(s: Sys, c: nat, t: Tid)
    requires Inv(s) && Enabled(s, Fork(c, t))
    ensures Inv(ForkThread(s, c, t))
  {
    hide Inv, ListsOk, Enqueue;
    InvHands(s);
    InvOwnCpu(s, c);
    var child := Thread(Ready, c, 1, 2, true, true, false, 0, None);
    var s1 := s.(threads := s.threads[t := child]);
    NewThreadLists(s, t, child);
    EnqueueEffect(s1, t, c, c);
    var s2 := Enqueue(s1, t, c, c);
    assert MovesOnly(s, s2, t);
    MoveKeeps(s, s2, t);
  }

  lemma NewThreadLists(s: Sys, t: Tid, child: Thread)
    requires ListsOk(s) && t !in s.threads && child.where == None
    ensures ListsOk(s.(threads := s.threads[t := child]))
  {
    var s2 := s.(threads := s.threads[t := child]);
    forall l ensures ListOk(s2, l) { assert ListOk(s, l); }
  }

  lemma InvOwnCpu(s: Sys, c: nat)
    requires Inv(s) && c < |s.cpus|
    ensures HasCpu(s, c) && Cur(s, c).cpu == c
  {
    hide ThreadOk, ListOk, LocksOk;
    assert CpuOk(s, c);
  }

  // ---------- preservation: placing the current thread ----------

  function PlacedThread(t: Thread, c: nat, kind: Kind): Thread {
    match kind
    case ToReady => t.(where := Some(RunQ(c)), state := Ready)
    case ToSleep(w) => t.(where := Some(Chan(w)), state := Sleep, iplhighCount := t.iplhighCount - 1)
    case ToZombie => t.(where := Some(Zombies(c)), state := Zombie)
  }

  function PlacedCpu(k: Cpu, c: nat, kind: Kind): Cpu {
    if kind.ToSleep? then k.(pc := Picking, isidle := true, spinlocks := k.spinlocks - 1,
        held := k.held - {ChanLock(kind.chan)})
    else k.(pc := Picking, isidle := true)
  }

  /** The current thread put on list `l`, with CPU c and the thread as given. */
  ghost predicate Placed(s: Sys, s2: Sys, c: nat, k: Cpu, t: Thread, l: ListId)
    requires HasCpu(s, c)
  {
    NearTo(s, s2, c) && s2.cpus[c] == k && s2.threads[s.cpus[c].cur] == t
        && (forall m :: m != l ==> ListOf(s2, m) == ListOf(s, m))
  }

  lemma PlaceReady(s: Sys, c: nat)
    requires HasCpu(s, c) && ListsOk(s) && Cur(s, c).where == None
    ensures var s2 := PlaceCurrent(s, c, ToReady);
            Placed(s, s2, c, PlacedCpu(s.cpus[c], c, ToReady), PlacedThread(Cur(s, c), c, ToReady), RunQ(c))
                && ListsOk(s2)
  {
    hide ListsOk;
    var s1 := Enqueue(s, s.cpus[c].cur, c, c);
    EnqueueEffect(s, s.cpus[c].cur, c, c);
    assert s1.cpus == s.cpus;
    hide Enqueue;
    ListsSame(s1, PlaceCurrent(s, c, ToReady));
  }

  lemma PlaceSleep(s: Sys, c: nat, w: nat)
    requires HasCpu(s, c) && ListsOk(s) && Cur(s, c).where == None && Cur(s, c).iplhighCount == 3
    ensures var s2 := PlaceCurrent(s, c, ToSleep(w));
            Placed(s, s2, c, PlacedCpu(s.cpus[c], c, ToSleep(w)), PlacedThread(Cur(s, c), c, ToSleep(w)), Chan(w))
                && ListsOk(s2)
  {
    hide ListsOk, Release;
    var t := s.cpus[c].cur;
    LinkOk(s, t, Chan(w), false);
    var s1 := Link(s, t, Chan(w), false);
    ReleaseEffect(s1, c, ChanLock(w));
    ListsSame(s1, PlaceCurrent(s, c, ToSleep(w)));
  }

  lemma PlaceZombie(s: Sys, c: nat)
    requires HasCpu(s, c) && ListsOk(s) && Cur(s, c).where == None
    ensures var s2 := PlaceCurrent(s, c, ToZombie);
            Placed(s, s2, c, PlacedCpu(s.cpus[c], c, ToZombie), PlacedThread(Cur(s, c), c, ToZombie), Zombies(c))
                && ListsOk(s2)
  {
    hide ListsOk;
    var t := s.cpus[c].cur;
    LinkOk(s, t, Zombies(c), false);
    var s1 := Link(s, t, Zombies(c), false);
    ListsSame(s1, PlaceCurrent(s, c, ToZombie));
  }

  lemma PlacedOk(s: Sys, s2: Sys, c: nat, kind: Kind, l: ListId)
    requires HasCpu(s, c) && CpuOk(s, c) && ThreadOk(s, s.cpus[c].cur) && s.cpus[c].pc == Locked(kind)
    requires Placed(s, s2, c, PlacedCpu(s.cpus[c], c, kind), PlacedThread(Cur(s, c), c, kind), l)
    requires !l.Waking? && !l.Victims?
    ensures CpuOk(s2, c) && ThreadOk(s2, s.cpus[c].cur)
    ensures s2.cpus[c].held == {RunqLock(c)}
  {
    assert s2.cpus[c].held == {RunqLock(c)};
  }

  lemma PlaceKeeps(s: Sys, c: nat, kind: Kind)
    requires Inv(s) && HasCpu(s, c) && s.cpus[c].pc == Locked(kind)
    ensures Inv(PlaceCurrent(s, c, kind))
  {
    hide Inv, CpuOk, ThreadOk, ListsOk, PlaceCurrent, Placed;
    InvHands(s);
    InvAt(s, c);
    InvUnplaced(s, c);
    match kind
    case ToReady => PlaceReady(s, c); PlacedStep(s, PlaceCurrent(s, c, kind), c, kind, RunQ(c));
    case ToSleep(w) => PlaceSleep(s, c, w); PlacedStep(s, PlaceCurrent(s, c, kind), c, kind, Chan(w));
    case ToZombie => PlaceZombie(s, c); PlacedStep(s, PlaceCurrent(s, c, kind), c, kind, Zombies(c));
  }

  lemma InvUnplaced(s: Sys, c: nat)
    requires c < |s.cpus| && CpuOk(s, c) && s.cpus[c].pc.Locked?
    ensures Cur(s, c).where == None && (s.cpus[c].pc.kind.ToSleep? ==> Cur(s, c).iplhighCount == 3)
  {
  }

  lemma PlacedStep(s: Sys, s2: Sys, c: nat, kind: Kind, l: ListId)
    requires Inv(s) && HasCpu(s, c) && s.cpus[c].pc == Locked(kind) && ListsOk(s2)
    requires Placed(s, s2, c, PlacedCpu(s.cpus[c], c, kind), PlacedThread(Cur(s, c), c, kind), l)
    requires !l.Waking? && !l.Victims?
    ensures Inv(s2)
  {
    hide Inv, CpuOk, ThreadOk, ListsOk;
    InvAt(s, c);
    PlacedOk(s, s2, c, kind, l);
    InvLocked(s, c);
    assert HeldApart(s, c, {RunqLock(c)});
    NearStep(s, s2, c);
  }

  // ---------- preservation: choosing the next thread and exchanging contexts ----------

  /** CPU c now names `next`, just taken off its run queue, as current. */
  ghost predicate Picked(s: Sys, s2: Sys, c: nat, next: Tid)
    requires HasCpu(s, c) && next in s.threads
  {
    var k := s.cpus[c];
    && s2.cpus == s.cpus[c := k.(isidle := false, cur := next, pc := Switching(k.cur))]
    && s2.threads == s.threads[next := s.threads[next].(where := None)]
    && (forall l :: l != RunQ(c) ==> ListOf(s2, l) == ListOf(s, l))
  }

  /** What the chosen thread looks like: on this CPU, and resumable. */
  ghost predicate Choosable(s: Sys, c: nat, next: Tid)
    requires HasCpu(s, c)
  {
    && next in s.threads && ThreadOk(s, next)
    && s.threads[next].where == Some(RunQ(c)) && s.threads[next].cpu == c
    && (s.threads[next].saved || next == s.cpus[c].cur)
  }

  lemma PickedOwn(s: Sys, s2: Sys, c: nat, next: Tid)
    requires HasCpu(s, c) && CpuOk(s, c) && s.cpus[c].pc == Picking && Choosable(s, c, next) && Picked(s, s2, c, next)
    ensures CpuOk(s2, c)
  {
  }

  lemma PickedOther(s: Sys, s2: Sys, c: nat, next: Tid, d: nat)
    requires HasCpu(s, c) && Choosable(s, c, next) && Picked(s, s2, c, next)
    requires d < |s.cpus| && d != c && CpuOk(s, d)
    ensures CpuOk(s2, d)
  {
  }

  lemma PickedThread(s: Sys, s2: Sys, c: nat, next: Tid, t: Tid)
    requires HasCpu(s, c) && CpuOk(s, c) && s.cpus[c].pc == Picking && Choosable(s, c, next) && Picked(s, s2, c, next)
    requires t in s.threads && ThreadOk(s, t)
    ensures ThreadOk(s2, t)
  {
  }

  lemma InvChoosable(s: Sys, c: nat)
    requires Inv(s) && HasCpu(s, c) && s.cpus[c].pc == Picking && Takeable(s, RunQ(c), true)
    ensures Choosable(s, c, First(s, RunQ(c), true))
  {
    var x := First(s, RunQ(c), true);
    InvTaken(s, RunQ(c), true);
    hide CpuOk, LocksOk, ListOk;
    assert ThreadOk(s, x);
  }

  lemma PickKeeps(s: Sys, c: nat)
    requires Inv(s) && HasCpu(s, c) && s.cpus[c].pc == Picking && Takeable(s, RunQ(c), true)
    ensures Inv(PickNext(s, c))
  {
    var s2, x := PickNext(s, c), First(s, RunQ(c), true);
    InvParts(s);
    InvChoosable(s, c);
    hide Inv, CpuOk, ThreadOk, ListsOk, Choosable, Unlink;
    UnlinkOk(s, RunQ(c), true);
    UnlinkEffect(s, RunQ(c), true);
    ListsSame(Unlink(s, RunQ(c), true), s2);
    assert Picked(s, s2, c, x);
    PickedAll(s, s2, c, x);
    assert LocksOk(s2) by { SameHeld(s, s2); }
    InvFrom(s2);
  }

  lemma PickedAll(s: Sys, s2: Sys, c: nat, next: Tid)
    requires Inv(s) && HasCpu(s, c) && s.cpus[c].pc == Picking && Choosable(s, c, next) && next in s.threads
    requires Picked(s, s2, c, next)
    ensures forall d :: 0 <= d < |s2.cpus| ==> CpuOk(s2, d)
    ensures forall t :: t in s2.threads ==> ThreadOk(s2, t)
  {
    InvParts(s);
    hide Inv, CpuOk, ThreadOk, ListsOk, Choosable;
    forall d | 0 <= d < |s2.cpus| ensures CpuOk(s2, d) {
      if d == c { PickedOwn(s, s2, c, next); } else { PickedOther(s, s2, c, next, d); }
    }
    forall t | t in s2.threads ensures ThreadOk(s2, t) { PickedThread(s, s2, c, next, t); }
  }

  lemma SameHeld(s: Sys, s2: Sys)
    requires LocksOk(s) && |s.cpus| == |s2.cpus|
    requires forall d :: 0 <= d < |s.cpus| ==> s2.cpus[d].held == s.cpus[d].held
    ensures LocksOk(s2)
  {
    forall a, b | 0 <= a < b < |s2.cpus| ensures s2.cpus[a].held !! s2.cpus[b].held {
      assert s.cpus[a].held !! s.cpus[b].held;
    }
  }

  /** Contexts exchanged on CPU c between `prev` and its current thread. */
  ghost predicate Exchanged(s: Sys, s2: Sys, c: nat, prev: Tid)
    requires HasCpu(s, c) && prev in s.threads
  {
    var cur := s.cpus[c].cur;
    && s2.cpus == s.cpus[c := s.cpus[c].(pc := Resumed)] && s2.lists == s.lists
    && s2.threads.Keys == s.threads.Keys
    && (forall t :: t in s.threads && t != prev && t != cur ==> s2.threads[t] == s.threads[t])
    && (prev != cur ==> s2.threads[prev] == s.threads[prev].(saved := true))
    && s2.threads[cur] == s.threads[cur].(saved := false)
  }

  lemma ExchangedCpu(s: Sys, s2: Sys, c: nat, prev: Tid, d: nat)
    requires HasCpu(s, c) && CpuOk(s, c) && s.cpus[c].pc == Switching(prev) && prev in s.threads
    requires Exchanged(s, s2, c, prev)
    requires d < |s.cpus| && CpuOk(s, d)
    ensures CpuOk(s2, d)
  {
  }

  lemma ExchangedThread(s: Sys, s2: Sys, c: nat, prev: Tid, t: Tid)
    requires HasCpu(s, c) && CpuOk(s, c) && s.cpus[c].pc == Switching(prev) && prev in s.threads
    requires Exchanged(s, s2, c, prev)
    requires t in s.threads && ThreadOk(s, t)
    ensures ThreadOk(s2, t)
  {
  }

  lemma ExchangeIs(s: Sys, c: nat, prev: Tid)
    requires HasCpu(s, c) && prev in s.threads
    ensures Exchanged(s, ExchangeFrames(s, c, prev), c, prev)
  {
  }

  lemma ExchangedLists(s: Sys, s2: Sys, c: nat, prev: Tid)
    requires HasCpu(s, c) && prev in s.threads && Exchanged(s, s2, c, prev) && ListsOk(s)
    ensures ListsOk(s2)
  {
    ListsSame(s, s2);
  }

  lemma ExchangeKeeps(s: Sys, c: nat)
    requires Inv(s) && Enabled(s, SwitchFrame(c))
    ensures Inv(ExchangeFrames(s, c, s.cpus[c].pc.prev))
  {
    var prev := s.cpus[c].pc.prev;
    var s2 := ExchangeFrames(s, c, prev);
    InvParts(s);
    hide Inv, CpuOk, ThreadOk, ListsOk;
    ExchangeIs(s, c, prev);
    hide ExchangeFrames;
    ExchangedLists(s, s2, c, prev);
    forall d | 0 <= d < |s2.cpus| ensures CpuOk(s2, d) { ExchangedCpu(s, s2, c, prev, d); }
    forall t | t in s2.threads ensures ThreadOk(s2, t) { ExchangedThread(s, s2, c, prev, t); }
    assert LocksOk(s2) by { SameHeld(s, s2); }
    InvFrom(s2);
  }

  // ---------- preservation: the tail of thread_switch ----------

  function FinishedThread(t: Thread): Thread {
    UnlockedThread(t, if t.isNew then 0 else t.spl).(state := Run, isNew := false)
  }

  function FinishedCpu(k: Cpu, t: Thread, c: nat): Cpu {
    UnlockedCpu(k, t, c, if t.isNew then 0 else t.spl)
  }

  /** The zombies of CPU c are gone, and its current thread is running with the run queue unlocked. */
  ghost predicate Finished(s: Sys, s2: Sys, c: nat)
    requires HasCpu(s, c)
  {
    var cur := s.cpus[c].cur;
    && s2.cpus == s.cpus[c := FinishedCpu(s.cpus[c], Cur(s, c), c)]
    && s2.lists == s.lists[Zombies(c) := []]
    && (forall t :: t in s2.threads <==> t in s.threads && t !in ListOf(s, Zombies(c)))
    && cur in s2.threads && s2.threads[cur] == FinishedThread(Cur(s, c))
    && (forall t :: t in s2.threads && t != cur ==> s2.threads[t] == s.threads[t])
  }

  lemma FinishRelease(s: Sys, c: nat)
    requires HasCpu(s, c) && Cur(s, c).curspl == 1 && !s.cpus[c].irqOn && Cur(s, c).iplhighCount == 2
    ensures var k, t := s.cpus[c], Cur(s, c);
            Effect(s, Release(SetCur(s, c, t.(state := Run)), c, RunqLock(c)), c,
                   k.(spinlocks := k.spinlocks - 1, held := k.held - {RunqLock(c)}),
                       t.(state := Run, iplhighCount := 1))
  {
    var k, t := s.cpus[c], Cur(s, c);
    var t1 := t.(state := Run);
    SetCurEffect(s, c, t1);
    ReleaseEffect(SetCur(s, c, t1), c, RunqLock(c));
    hide Effect, Release;
    EffectThen(s, SetCur(s, c, t1), Release(SetCur(s, c, t1), c, RunqLock(c)), c, k, t1,
               k.(spinlocks := k.spinlocks - 1, held := k.held - {RunqLock(c)}), t1.(iplhighCount := 1));
  }

  lemma FinishSplx(s: Sys, c: nat, spl: nat)
    requires HasCpu(s, c) && Cur(s, c).curspl == 1 && spl <= 1
    ensures var s3 := Splx(s, c, spl);
            HasCpu(s3, c) &&
            Effect(s, SetPc(SetCur(s3, c, Cur(s3, c).(isNew := false)), c, Running), c,
                   SplxCpu(s.cpus[c], Cur(s, c), spl).(pc := Running), SplxThread(Cur(s, c), spl).(isNew := false))
  {
    SplxEffect(s, c, spl);
    var s3, k3, t3 := Splx(s, c, spl), SplxCpu(s.cpus[c], Cur(s, c), spl), SplxThread(Cur(s, c), spl);
    hide Effect, Splx;
    EffectCpu(s, s3, c, k3, t3);
    var t4 := t3.(isNew := false);
    SetCurEffect(s3, c, t4);
    EffectThen(s, s3, SetCur(s3, c, t4), c, k3, t3, k3, t4);
    SetPcEffect(SetCur(s3, c, t4), c, Running);
    EffectThen(s, SetCur(s3, c, t4), SetPc(SetCur(s3, c, t4), c, Running), c, k3, t4, k3.(pc := Running), t4);
  }

  lemma FinishIs(s: Sys, c: nat)
    requires HasCpu(s, c) && s.cpus[c].cur !in ListOf(s, Zombies(c))
    requires Cur(s, c).curspl == 1 && Cur(s, c).spl <= 1 && !s.cpus[c].irqOn && Cur(s, c).iplhighCount == 2
    ensures Finished(s, FinishSwitch(s, c), c)
  {
    var k, t := s.cpus[c], Cur(s, c);
    var s1 := Release(SetCur(s, c, t.(state := Run)), c, RunqLock(c));
    var k1, t1 := k.(spinlocks := k.spinlocks - 1, held := k.held - {RunqLock(c)}), t.(state := Run, iplhighCount := 1);
    hide Effect, Release, Splx, Finished, Exorcise, SetCur;
    FinishRelease(s, c);
    ExorciseKeepsCur(s, s1, c, k1, t1);
    var spl := if t.isNew then 0 else t.spl;
    FinishSplx(Exorcise(s1, c), c, spl);
    FinishCompose(s, s1, FinishSwitch(s, c), c, k1, t1, SplxCpu(k1, t1, spl).(pc := Running),
        SplxThread(t1, spl).(isNew := false));
  }

  lemma ExorciseKeepsCur(s: Sys, s1: Sys, c: nat, k1: Cpu, t1: Thread)
    requires HasCpu(s, c) && s.cpus[c].cur !in ListOf(s, Zombies(c)) && Effect(s, s1, c, k1, t1)
    ensures HasCpu(Exorcise(s1, c), c) && Exorcise(s1, c).cpus[c] == k1 && Cur(Exorcise(s1, c), c) == t1
  {
  }

  lemma FinishCompose(s: Sys, s1: Sys, s4: Sys, c: nat, k1: Cpu, t1: Thread, k4: Cpu, t4: Thread)
    requires HasCpu(s, c) && s.cpus[c].cur !in ListOf(s, Zombies(c)) && Effect(s, s1, c, k1, t1)
    requires HasCpu(Exorcise(s1, c), c) && Effect(Exorcise(s1, c), s4, c, k4, t4)
    requires k4 == FinishedCpu(s.cpus[c], Cur(s, c), c) && t4 == FinishedThread(Cur(s, c))
    ensures Finished(s, s4, c)
  {
    hide FinishedCpu, FinishedThread;
    assert s1.lists == s.lists;
    assert s4.cpus == s.cpus[c := k4];
  }

  lemma FinishedCpuOk(s: Sys, s2: Sys, c: nat, d: nat)
    requires HasCpu(s, c) && CpuOk(s, c) && ThreadOk(s, s.cpus[c].cur) && s.cpus[c].pc == Resumed && Finished(s, s2, c)
    requires ListOk(s, Zombies(c)) && d < |s.cpus| && CpuOk(s, d)
    requires forall t :: t in s.threads && s.threads[t].where == Some(Zombies(c)) ==> s.threads[t].cpu == c
    ensures CpuOk(s2, d)
  {
  }

  lemma FinishedThreadOk(s: Sys, s2: Sys, c: nat, t: Tid)
    requires HasCpu(s, c) && CpuOk(s, c) && s.cpus[c].pc == Resumed && Finished(s, s2, c)
    requires t in s2.threads && ThreadOk(s, t)
    ensures ThreadOk(s2, t)
  {
  }

  lemma FinishedLists(s: Sys, s2: Sys, c: nat)
    requires HasCpu(s, c) && ListsOk(s) && Finished(s, s2, c)
    ensures ListsOk(s2)
  {
    forall l ensures ListOk(s2, l) {
      assert ListOk(s, l) && ListOk(s, Zombies(c));
    }
  }

  lemma InvLocks(s: Sys)
    requires Inv(s)
    ensures LocksOk(s)
  {
  }

  lemma InvZombies(s: Sys, c: nat)
    requires Inv(s)
    ensures ListOk(s, Zombies(c))
    ensures forall t :: t in s.threads && s.threads[t].where == Some(Zombies(c)) ==>
            s.threads[t].cpu == c && s.threads[t].state == Zombie
  {
    hide CpuOk, LocksOk;
    forall t | t in s.threads && s.threads[t].where == Some(Zombies(c))
      ensures s.threads[t].cpu == c && s.threads[t].state == Zombie
    {
      assert ThreadOk(s, t);
    }
  }

  lemma FinishKeeps(s: Sys, c: nat)
    requires Inv(s) && Enabled(s, SwitchFinish(c))
    ensures Inv(FinishSwitch(s, c))
  {
    hide Inv, CpuOk, ThreadOk, ListsOk, ListOk, LocksOk, HandsOk, FinishSwitch, Finished;
    var s2 := FinishSwitch(s, c);
    InvHands(s);
    InvLocks(s);
    InvCurspl(s, c);
    InvLocked(s, c);
    FinishIs(s, c);
    FinishedLists(s, s2, c);
    FinishedFrame(s, s2, c);
    FinishedCpus(s, s2, c);
    FinishedThreads(s, s2, c);
    InvFrom(s2);
  }

  lemma FinishedCpus(s: Sys, s2: Sys, c: nat)
    requires Inv(s) && HasCpu(s, c) && s.cpus[c].pc == Resumed && Finished(s, s2, c)
    ensures forall d :: 0 <= d < |s2.cpus| ==> CpuOk(s2, d)
  {
    InvParts(s);
    InvZombies(s, c);
    hide Inv, CpuOk, ThreadOk, ListsOk, ListOk;
    forall d | 0 <= d < |s2.cpus| ensures CpuOk(s2, d) { FinishedCpuOk(s, s2, c, d); }
  }

  lemma FinishedThreads(s: Sys, s2: Sys, c: nat)
    requires Inv(s) && HasCpu(s, c) && s.cpus[c].pc == Resumed && Finished(s, s2, c)
    ensures forall t :: t in s2.threads ==> ThreadOk(s2, t)
  {
    InvParts(s);
    hide Inv, CpuOk, ThreadOk, ListsOk, ListOk;
    forall t | t in s2.threads ensures ThreadOk(s2, t) { FinishedThreadOk(s, s2, c, t); }
  }

  lemma FinishedFrame(s: Sys, s2: Sys, c: nat)
    requires HasCpu(s, c) && Finished(s, s2, c) && LocksOk(s)
    ensures |s2.cpus| == |s.cpus| && LocksOk(s2) && forall t :: t in s2.threads ==> t in s.threads
  {
    forall a, b | 0 <= a < b < |s2.cpus| ensures s2.cpus[a].held !! s2.cpus[b].held {
      assert s.cpus[a].held !! s.cpus[b].held;
    }
  }

  // ---------- every run ----------

  /** Boot: one running thread per CPU, at splhigh, holding nothing. */
  ghost predicate Init(s: Sys) {
    && |s.cpus| >= 1
    && (forall c :: 0 <= c < |s.cpus| ==>
          s.cpus[c] == Cpu(c, Running, false, {}, 0, false, false, false))
    && (forall t :: t in s.threads <==> 0 <= t < |s.cpus|)
    && (forall t :: t in s.threads ==> s.threads[t] == Thread(Ready, t, 1, 1, false, false, false, 0, None))
    && s.lists == map[]
  }

  lemma InitInv(s: Sys)
    requires Init(s)
    ensures Inv(s)
  {
  }

  /** A run: every state follows from the one before by an enabled step. */
  ghost predicate IsRun(states: seq<Sys>, steps: seq<Step>) {
    && |states| == |steps| + 1 && Init(states[0])
    && forall i :: 0 <= i < |steps| ==> Enabled(states[i], steps[i]) && states[i + 1] == Next(states[i], steps[i])
  }

  lemma StepKeeps(s: Sys, step: Step)
    requires Inv(s) && Enabled(s, step)
    ensures Inv(Next(s, step))
  {
    hide Inv, Splx, Acquire, Release, EnterInterrupt, ExitInterrupt, ForkThread, Move, PutWoken, LockForSwitch,
         NothingToDo, PlaceCurrent, PickNext, ExchangeFrames, FinishSwitch, SendVictim;
    match step
    case DoSplx(c, spl) => SplxKeeps(s, c, spl);
    case DoAcquire(c, l) => AcquireKeeps(s, c, l);
    case DoRelease(c, l) => ReleaseKeeps(s, c, l);
    case InterruptEnter(c) => InterruptEnterKeeps(s, c);
    case InterruptExit(c) => InterruptExitKeeps(s, c);
    case IpiAck(c) => IpiKeeps(s, c, false, s.cpus[c].ipiLine);
    case IpiClear(c) => IpiKeeps(s, c, s.cpus[c].ipiPending, false);
    case Fork(c, t) => ForkKeeps(s, c, t);
    case WakeTake(c, w) => WakeTakeKeeps(s, c, w);
    case WakePut(c) => PutWokenKeeps(s, c);
    case SwitchLock(c, kind) => LockForSwitchKeeps(s, c, kind);
    case SwitchPlace(c) =>
      if s.cpus[c].pc.kind == ToReady && ListOf(s, RunQ(c)) == [] { NothingToDoKeeps(s, c); }
          else { PlaceKeeps(s, c, s.cpus[c].pc.kind); }
    case SwitchPick(c) => if ListOf(s, RunQ(c)) == [] { GoIdleKeeps(s, c); } else { PickKeeps(s, c); }
    case SwitchFrame(c) => ExchangeKeeps(s, c);
    case SwitchFinish(c) => FinishKeeps(s, c);
    case IdleReturn(c) =>
      IdleKeeps(s, c, IdleWoken, Cur(s, c).inInterrupt);
      SetCurSame(s, c);
    case IdleInterrupt(c) => IdleKeeps(s, c, IdleHandler, true);
    case IdleInterruptExit(c) => IdleKeeps(s, c, IdleWoken, false);
    case IdleRelock(c) => IdleRelockKeeps(s, c);
    case MigrateTake(c) => MigrateTakeKeeps(s, c);
    case MigrateSend(c, d) => SendVictimKeeps(s, c, d);
    case MigrateSkip(c) => VictimStaysKeeps(s, c, Victims(c));
    case MigrateBack(c) => VictimStaysKeeps(s, c, RunQ(c));
  }

  lemma SetCurSame(s: Sys, c: nat)
    requires HasCpu(s, c)
    ensures SetCur(s, c, Cur(s, c).(inInterrupt := Cur(s, c).inInterrupt)) == s
  {
  }

  lemma {:induction false} RunInv(states: seq<Sys>, steps: seq<Step>, i: nat)
    requires IsRun(states, steps) && i < |states|
    ensures Inv(states[i])
  {
    hide Inv, Init, Enabled, Next;
    if i == 0 {
      InitInv(states[0]);
    } else {
      RunInv(states, steps, i - 1);
      StepKeeps(states[i - 1], steps[i - 1]);
    }
  }

  // ---------- what every run keeps ----------

  /** No thread is current on two CPUs. */
  ghost predicate DistinctCurrents(s: Sys) {
    forall c, d :: 0 <= c < |s.cpus| && 0 <= d < |s.cpus| && c != d ==> s.cpus[c].cur != s.cpus[d].cur
  }

  /** Each thread is on at most one list, at most once, and a run queue holds only ready threads of its CPU. */
  ghost predicate OneList(s: Sys) {
    && (forall l, m, t :: t in ListOf(s, l) && t in ListOf(s, m) ==> l == m)
    && (forall l :: NoDup(ListOf(s, l)))
    && (forall c, t :: t in ListOf(s, RunQ(c)) ==>
         t in s.threads && s.threads[t].cpu == c && s.threads[t].state == Ready)
  }

  /** No thread is lost: one that is on no list is the one a CPU is running. */
  ghost predicate NoneLost(s: Sys) {
    forall t :: t in s.threads && (forall l :: t !in ListOf(s, l)) ==> Runs(s, t)
  }

  ghost predicate Runs(s: Sys, t: Tid) {
    exists c :: 0 <= c < |s.cpus| && s.cpus[c].cur == t && OffList(s.cpus[c].pc)
  }

  lemma InvDistinct(s: Sys)
    requires Inv(s)
    ensures DistinctCurrents(s)
  {
    InvParts(s);
    hide Inv, CpuOk, ThreadOk, ListsOk, LocksOk;
    forall c, d | 0 <= c < |s.cpus| && 0 <= d < |s.cpus| && c != d ensures s.cpus[c].cur != s.cpus[d].cur {
      OtherCurrent(s, c, d);
    }
  }

  lemma InvOneList(s: Sys)
    requires Inv(s)
    ensures OneList(s)
  {
    InvParts(s);
    hide Inv, CpuOk, LocksOk;
    forall l, m, t | t in ListOf(s, l) && t in ListOf(s, m) ensures l == m { assert ListOk(s, l) && ListOk(s, m); }
    forall l ensures NoDup(ListOf(s, l)) { assert ListOk(s, l); }
    forall c, t | t in ListOf(s, RunQ(c))
      ensures t in s.threads && s.threads[t].cpu == c && s.threads[t].state == Ready
    {
      assert ListOk(s, RunQ(c)) && ThreadOk(s, t);
    }
  }

  lemma InvNoneLost(s: Sys)
    requires Inv(s)
    ensures NoneLost(s)
  {
    InvParts(s);
    hide Inv, CpuOk, LocksOk;
    forall t | t in s.threads && (forall l :: t !in ListOf(s, l)) ensures Runs(s, t) {
      assert ThreadOk(s, t);
      assert s.threads[t].where.Some? ==> ListOk(s, s.threads[t].where.value);
    }
  }

  /** Single-runner safety, in every state of every run. */
  lemma SingleRunner(states: seq<Sys>, steps: seq<Step>, i: nat)
    requires IsRun(states, steps) && i < |states|
    ensures DistinctCurrents(states[i]) && OneList(states[i]) && NoneLost(states[i])
  {
    hide Inv, IsRun, DistinctCurrents, OneList, NoneLost;
    RunInv(states, steps, i);
    InvDistinct(states[i]);
    InvOneList(states[i]);
    InvNoneLost(states[i]);
  }

  /** The thread CPU c switches to can be resumed: its context is saved (or it is the very thread switching),
      and no other CPU executes on its stack. */
  ghost predicate Resumable(s: Sys, c: nat) {
    HasCpu(s, c) && s.cpus[c].pc.Switching? &&
    var next := s.cpus[c].cur;
    && (s.threads[next].saved || next == s.cpus[c].pc.prev)
    && forall d :: 0 <= d < |s.cpus| && d != c ==> s.cpus[d].cur != next && s.cpus[d].pc != Switching(next)
  }

  lemma InvResumable(s: Sys, c: nat)
    requires Inv(s) && HasCpu(s, c) && s.cpus[c].pc.Switching?
    ensures Resumable(s, c)
  {
    InvParts(s);
    hide Inv, ThreadOk, ListsOk, LocksOk;
    assert CpuOk(s, c);
    forall d | 0 <= d < |s.cpus| && d != c
      ensures s.cpus[d].cur != s.cpus[c].cur && s.cpus[d].pc != Switching(s.cpus[c].cur)
    {
      assert CpuOk(s, d);
    }
  }

  lemma ResumesSavedContext(states: seq<Sys>, steps: seq<Step>, i: nat, c: nat)
    requires IsRun(states, steps) && i < |steps| && steps[i] == SwitchFrame(c)
    ensures Resumable(states[i], c)
  {
    assert Enabled(states[i], steps[i]);
    hide Inv, IsRun, Next, Resumable;
    RunInv(states, steps, i);
    InvResumable(states[i], c);
  }

  /** A thread with an unsaved context is current, or being switched away from, on its own CPU. */
  lemma UnsavedIsOnItsCpu(states: seq<Sys>, steps: seq<Step>, i: nat, t: Tid)
    requires IsRun(states, steps) && i < |states| && t in states[i].threads && !states[i].threads[t].saved
    ensures var s := states[i]; var c := s.threads[t].cpu;
      c < |s.cpus| && (s.cpus[c].cur == t || s.cpus[c].pc == Switching(t))
  {
    RunInv(states, steps, i);
    hide IsRun, CpuOk, ListOk, LocksOk;
    assert ThreadOk(states[i], t);
  }

  /** The running thread's count is its spl plus its CPU's spinlocks, and interrupts are on exactly when it is zero. */
  ghost predicate LevelAt(s: Sys, c: nat) {
    HasCpu(s, c) &&
    var k, t := s.cpus[c], Cur(s, c);
    k.spinlocks == |k.held| && t.iplhighCount == t.curspl + k.spinlocks && (k.irqOn <==> t.iplhighCount == 0)
  }

  lemma InvLevel(s: Sys)
    requires Inv(s)
    ensures forall c :: 0 <= c < |s.cpus| ==> LevelAt(s, c)
    ensures forall t :: t in s.threads && s.threads[t].saved ==>
            s.threads[t].iplhighCount == 2 && s.threads[t].curspl == 1
  {
    InvParts(s);
    hide Inv, ListsOk, LocksOk;
    forall c | 0 <= c < |s.cpus| ensures LevelAt(s, c) { assert CpuOk(s, c); }
    forall t | t in s.threads && s.threads[t].saved
      ensures s.threads[t].iplhighCount == 2 && s.threads[t].curspl == 1 { assert ThreadOk(s, t); }
  }

  /** Interrupt-level accounting in every run; a switched-out or new thread carries count 2 at splhigh. */
  lemma IplAccounting(states: seq<Sys>, steps: seq<Step>, i: nat)
    requires IsRun(states, steps) && i < |states|
    ensures forall c :: 0 <= c < |states[i].cpus| ==> LevelAt(states[i], c)
    ensures forall t :: t in states[i].threads && states[i].threads[t].saved ==>
              states[i].threads[t].iplhighCount == 2 && states[i].threads[t].curspl == 1
  {
    hide Inv, IsRun, LevelAt;
    RunInv(states, steps, i);
    InvLevel(states[i]);
  }

  /** A CPU marked idle, with its run queue unlocked and nonempty, has the unidle interrupt pending and its line
      raised, or is in an interrupt handler, or is already on its way to look again. */
  lemma NoIdleWithWork(states: seq<Sys>, steps: seq<Step>, i: nat, c: nat)
    requires IsRun(states, steps) && i < |states| && c < |states[i].cpus|
    requires states[i].cpus[c].isidle && RunqLock(c) !in states[i].cpus[c].held && ListOf(states[i], RunQ(c)) != []
    ensures var k := states[i].cpus[c]; (k.ipiPending && k.ipiLine) || k.pc in {IdleHandler, IdleWoken}
  {
    RunInv(states, steps, i);
    hide IsRun, ThreadOk, ListOk, LocksOk;
    assert CpuOk(states[i], c);
  }

  /** What exorcise asserts of a zombie, and what thread_destroy needs of it. */
  ghost predicate DeadZombie(s: Sys, z: Tid) {
    z in s.threads && s.threads[z].state == Zombie && s.threads[z].saved && forall d :: 0 <= d < |s.cpus| ==>
        s.cpus[d].cur != z
  }

  lemma InvDeadZombies(s: Sys, c: nat)
    requires Inv(s) && HasCpu(s, c) && s.cpus[c].pc == Resumed
    ensures s.cpus[c].cur !in ListOf(s, Zombies(c))
    ensures forall z :: z in ListOf(s, Zombies(c)) ==> DeadZombie(s, z)
  {
    InvParts(s);
    hide Inv, LocksOk;
    assert ListOk(s, Zombies(c)) && CpuOk(s, c);
    forall z | z in ListOf(s, Zombies(c)) ensures DeadZombie(s, z) {
      assert ThreadOk(s, z);
      forall d | 0 <= d < |s.cpus| ensures s.cpus[d].cur != z { assert CpuOk(s, d); }
    }
  }

  /** The assertions of exorcise never fail, and no thread is destroyed while a CPU runs on its stack. */
  lemma ZombiesAreDead(states: seq<Sys>, steps: seq<Step>, i: nat, c: nat)
    requires IsRun(states, steps) && i < |states| && HasCpu(states[i], c) && states[i].cpus[c].pc == Resumed
    ensures Enabled(states[i], SwitchFinish(c))
    ensures forall z :: z in ListOf(states[i], Zombies(c)) ==> DeadZombie(states[i], z)
  {
    RunInv(states, steps, i);
    hide IsRun, Inv, DeadZombie;
    InvDeadZombies(states[i], c);
  }

  ghost predicate AssertsHold(s: Sys, c: nat)
    requires HasCpu(s, c)
  {
    && (s.cpus[c].pc == Picking ==> Enabled(s, SwitchPick(c)))
    && (s.cpus[c].pc.Switching? ==> Enabled(s, SwitchFrame(c)))
    && (Enabled(s, InterruptEnter(c)) ==> Cur(s, c).curspl == 0 && Cur(s, c).iplhighCount == 0)
    && (Enabled(s, InterruptExit(c)) ==> Cur(s, c).curspl == 1 && Cur(s, c).iplhighCount == 1)
    && (s.cpus[c].held != {} ==> s.cpus[c].spinlocks > 0)
    && (RunqLock(c) in s.cpus[c].held <==> HoldsRunq(s.cpus[c].pc))
    && (forall d: nat :: d != c ==> RunqLock(d) !in s.cpus[c].held)
    && (s.cpus[c].pc.Locked? && s.cpus[c].pc.kind.ToSleep? ==> ChanLock(s.cpus[c].pc.kind.chan) in s.cpus[c].held)
  }

  lemma LocalAsserts(s: Sys, c: nat)
    requires HasCpu(s, c) && CpuOk(s, c) && ThreadOk(s, s.cpus[c].cur) && ListOk(s, RunQ(c))
    ensures AssertsHold(s, c)
  {
    hide ListOk;
    LocalEnabled(s, c);
  }

  lemma LocalEnabled(s: Sys, c: nat)
    requires HasCpu(s, c) && CpuOk(s, c) && ListOk(s, RunQ(c))
    ensures s.cpus[c].pc == Picking ==> Enabled(s, SwitchPick(c))
    ensures s.cpus[c].pc.Switching? ==> Enabled(s, SwitchFrame(c))
  {
  }

  /** The assertions of mips_trap and spinlock_release hold, and thread_switch never gets stuck in its middle. The run
      queue's lock is held where it is released and not where it is acquired, nor is another queue's, so no CPU waits
      for a run queue it has locked itself; going to sleep, the channel's lock is held where it is released. */
  lemma AssertionsHold(states: seq<Sys>, steps: seq<Step>, i: nat, c: nat)
    requires IsRun(states, steps) && i < |states| && HasCpu(states[i], c)
    ensures AssertsHold(states[i], c)
  {
    hide *;
    RunInv(states, steps, i);
    InvLocalParts(states[i], c);
    LocalAsserts(states[i], c);
  }

  lemma InvLocalParts(s: Sys, c: nat)
    requires Inv(s) && HasCpu(s, c)
    ensures c < |s.cpus| && s.cpus[c].cur in s.threads && CpuOk(s, c) && ThreadOk(s, s.cpus[c].cur)
    ensures ListOk(s, RunQ(c))
  {
    InvParts(s);
  }
}
