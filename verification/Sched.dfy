/** The scheduler protocol of kernel/sys/process.c as a transition system: one CPU,
    64 processes, each with its own kernel thread, and the scheduler's thread. A
    step is one statement of yield, sched, sleep, wakeup, fork_ret or
    launch_first_proc (with acquire and release taken whole), a call that a process
    makes into them, or an interrupt handler that runs wakeup. */
module Sched {
  import opened Options
  import opened Spinlock

  const MAX_PROC: nat := 64
  const PTABLE: nat := 0   // the index of ptable.lock

  datatype ProcState = UNUSED | EMBRYO | SLEEPING | RUNNABLE | RUNNING | ZOMBIE

  datatype Proc = Proc(state: ProcState, chan: nat)

  /** Where a process's kernel thread is. flag and saved are the interrupt flag that
      was current (or remembered in intena) when the operation was called, and the
      local variable intena of sched. */
  datatype Pc =
    | Client                                       // outside these functions
    | ForkRet                                      // at the release in fork_ret
    | YieldMark(flag: bool)                        // ptable.lock acquired
    | YieldSched(flag: bool)                       // at sched
    | YieldBack(flag: bool, saved: bool)           // after its switch_to
    | YieldRelease(flag: bool)
    | SleepUnlock(ch: nat, lk: nat, flag: bool)    // at release(lk)
    | SleepMark(ch: nat, lk: nat, flag: bool)
    | SleepSched(ch: nat, lk: nat, flag: bool)
    | SleepBack(ch: nat, lk: nat, flag: bool, saved: bool)
    | SleepClear(lk: nat, flag: bool)
    | SleepRelease(lk: nat, flag: bool)
    | SleepLock(lk: nat, flag: bool)               // at acquire(lk)
    | WakeScan(ch: nat, i: nat)
    | WakeRelease

  /** Where the scheduler's thread is in launch_first_proc. */
  datatype SchedPc =
    | Top              // at sti
    | Entry            // at acquire
    | Scan(i: nat)     // about to look at entry i
    | Found(i: nat)    // at switch_to for entry i
    | Back(i: nat)     // after it

  datatype Thread = Scheduler | Process(i: nat)

  datatype State = State(
    m: Machine,
    procs: seq<Proc>,
    cur: Thread,          // c->proc; Scheduler stands for 0
    running: Thread,
    spc: SchedPc,
    pcs: seq<Pc>)

  /** What a process may do between the operations. SetFlag is cli, sti, a trap or its
      iret; sleep's lock may be null. */
  datatype Call =
    | DoAcquire(l: nat)
    | DoRelease(l: nat)
    | SetFlag(b: bool)
    | DoYield
    | DoSleep(ch: nat, lk: Option<nat>)
    | DoWakeup(ch: nat)

  datatype Action =
    | Step                      // the running thread goes on in its function
    | Enter(call: Call)         // the running process calls one
    | Irq(l: nat, ch: Option<nat>)   // a handler: acquire(l); wakeup(ch) if it has one; release(l)

  predicate Shape(s: State) {
    && |s.procs| == MAX_PROC && |s.pcs| == MAX_PROC && |s.m.locks| > 0
    && (s.running.Process? ==> s.running.i < MAX_PROC) && (s.cur.Process? ==> s.cur.i < MAX_PROC)
  }

  /* ---- the steps ---- */

  function Wake(p: Proc, ch: nat): Proc {
    if p.state == SLEEPING && p.chan == ch then Proc(RUNNABLE, p.chan) else p
  }

  /** The loop of wakeup. */
  function WakeAll(procs: seq<Proc>, ch: nat): (r: seq<Proc>)
    ensures |r| == |procs|
  {
    seq(|procs|, i requires 0 <= i < |procs| => Wake(procs[i], ch))
  }

  /** What a wakeup of ch makes of a table: every process that sleeps on ch becomes
      RUNNABLE and keeps its channel; every other entry, used or not, is as it was. */
  predicate Awakened(procs: seq<Proc>, procs': seq<Proc>, ch: nat) {
    && |procs'| == |procs|
    && (forall i :: 0 <= i < |procs| && procs[i] == Proc(SLEEPING, ch) ==> procs'[i] == Proc(RUNNABLE, ch))
    && (forall i :: 0 <= i < |procs| && procs[i] != Proc(SLEEPING, ch) ==> procs'[i] == procs[i])
  }

  lemma WakeAllAwakens(procs: seq<Proc>, ch: nat)
    ensures Awakened(procs, WakeAll(procs, ch), ch)
  {
  }

  function SetPc(s: State, i: nat, pc: Pc): State
    requires i < |s.pcs|
  {
    s.(pcs := s.pcs[i := pc])
  }

  function SetProc(s: State, i: nat, p: Proc): State
    requires i < |s.procs|
  {
    s.(procs := s.procs[i := p])
  }

  /** acquire(l), then go on at pc. */
  function Locking(s: State, l: nat, i: nat, pc: Pc): Outcome<State>
    requires l < |s.m.locks| && i < |s.pcs|
  {
    match Acquire(s.m, l)
    case Panic(k) => Panic(k)
    case Spin => Spin
    case Ok(m) => Ok(SetPc(s.(m := m), i, pc))
  }

  function Unlocking(s: State, l: nat, i: nat, pc: Pc): Outcome<State>
    requires l < |s.m.locks| && i < |s.pcs|
  {
    match Release(s.m, l)
    case Panic(k) => Panic(k)
    case Spin => Spin
    case Ok(m) => Ok(SetPc(s.(m := m), i, pc))
  }

  /** c->proc, which the invariant shows to be the running process. */
  function CurProc(s: State, i: nat): nat {
    if s.cur.Process? then s.cur.i else i
  }

  /** sched up to its switch_to: the four checks, then the scheduler's thread runs. */
  function ToScheduler(s: State, i: nat, pc: bool -> Pc): Outcome<State>
    requires Shape(s) && i < MAX_PROC
  {
    match Holding(s.m.cpu, s.m.locks[PTABLE])
    case Panic(k) => Panic(k)
    case Spin => Spin
    case Ok(r) =>
      if !r.1 then Panic(SchedPtable)
      else if r.0.ncli != 1 then Panic(SchedLocks)
      else if s.procs[CurProc(s, i)].state == RUNNING then Panic(SchedRunning)
      else if r.0.ifl then Panic(SchedInterruptible)
      else Ok(SetPc(s.(m := Machine(r.0, s.m.locks), running := Scheduler), CurProc(s, i), pc(r.0.intena)))
  }

  function RestoreIntena(s: State, saved: bool): State {
    s.(m := Machine(Cpu(s.m.cpu.ifl, s.m.cpu.ncli, saved), s.m.locks))
  }

  /** The next statement of process i's thread. */
  function ProcStep(s: State, i: nat): Outcome<State>
    requires Shape(s) && i < MAX_PROC
  {
    match s.pcs[i]
    case Client => Spin
    case ForkRet => Unlocking(s, PTABLE, i, Client)
    case YieldMark(b) =>
      var me := CurProc(s, i);
      Ok(SetPc(SetProc(s, me, Proc(RUNNABLE, s.procs[me].chan)), i, YieldSched(b)))
    case YieldSched(b) => ToScheduler(s, i, saved => YieldBack(b, saved))
    case YieldBack(b, saved) => Ok(SetPc(RestoreIntena(s, saved), i, YieldRelease(b)))
    case YieldRelease(b) => Unlocking(s, PTABLE, i, Client)
    case SleepUnlock(ch, lk, b) => if lk < |s.m.locks| then Unlocking(s, lk, i, SleepMark(ch, lk, b)) else Spin
    case SleepMark(ch, lk, b) => Ok(SetPc(SetProc(s, i, Proc(SLEEPING, ch)), i, SleepSched(ch, lk, b)))
    case SleepSched(ch, lk, b) => ToScheduler(s, i, saved => SleepBack(ch, lk, b, saved))
    case SleepBack(ch, lk, b, saved) => Ok(SetPc(RestoreIntena(s, saved), i, SleepClear(lk, b)))
    case SleepClear(lk, b) =>
      Ok(SetPc(SetProc(s, i, Proc(s.procs[i].state, 0)), i, if lk == PTABLE then Client else SleepRelease(lk, b)))
    case SleepRelease(lk, b) => Unlocking(s, PTABLE, i, SleepLock(lk, b))
    case SleepLock(lk, b) => if lk < |s.m.locks| then Locking(s, lk, i, Client) else Spin
    case WakeScan(ch, k) =>
      if k < MAX_PROC then Ok(SetPc(SetProc(s, k, Wake(s.procs[k], ch)), i, WakeScan(ch, k + 1)))
      else Ok(SetPc(s, i, WakeRelease))
    case WakeRelease => Unlocking(s, PTABLE, i, Client)
  }

  /** The next statement of the scheduler's thread. */
  function SchedStep(s: State): Outcome<State>
    requires Shape(s)
  {
    match s.spc
    case Top => Ok(s.(m := Machine(Cpu(true, s.m.cpu.ncli, s.m.cpu.intena), s.m.locks), spc := Entry))
    case Entry =>
      (match Acquire(s.m, PTABLE)
       case Panic(k) => Panic(k)
       case Spin => Spin
       case Ok(m) => Ok(s.(m := m, spc := Scan(0))))
    case Scan(i) =>
      if i >= MAX_PROC then
        match Release(s.m, PTABLE)
        case Panic(k) => Panic(k)
        case Spin => Spin
        case Ok(m) => Ok(s.(m := m, spc := Top))
      else if s.procs[i].state != RUNNABLE then Ok(s.(spc := Scan(i + 1)))
      else Ok(SetProc(s, i, Proc(RUNNING, s.procs[i].chan)).(cur := Process(i), spc := Found(i)))
    case Found(i) => if i < MAX_PROC then Ok(s.(running := Process(i), spc := Back(i))) else Spin
    case Back(i) => Ok(s.(cur := Scheduler, spc := Scan(i + 1)))
  }

  function CallStep(s: State, i: nat, call: Call): Outcome<State>
    requires Shape(s) && i < MAX_PROC
  {
    match call
    case DoAcquire(l) => if l < |s.m.locks| then Locking(s, l, i, Client) else Spin
    case DoRelease(l) => if l < |s.m.locks| then Unlocking(s, l, i, Client) else Spin
    case SetFlag(b) => Ok(s.(m := Machine(Cpu(b, s.m.cpu.ncli, s.m.cpu.intena), s.m.locks)))
    case DoYield => Locking(s, PTABLE, i, YieldMark(OuterFlag(s.m)))
    case DoSleep(ch, lk) =>
      if s.cur == Scheduler then Panic(SleepNoProc)
      else if lk == None then Panic(SleepNoLock)
      else if lk.value == PTABLE then Ok(SetPc(s, i, SleepMark(ch, PTABLE, OuterFlag(s.m))))
      else Locking(s, PTABLE, i, SleepUnlock(ch, lk.value, OuterFlag(s.m)))
    case DoWakeup(ch) => Locking(s, PTABLE, i, WakeScan(ch, 0))
  }

  function WakeOn(procs: seq<Proc>, ch: Option<nat>): (r: seq<Proc>)
    ensures |r| == |procs|
  {
    if ch.None? then procs else WakeAll(procs, ch.value)
  }

  /** The locking of a handler: ptable.lock is taken by wakeup, if there is one. */
  function HandlerOps(l: nat, ch: Option<nat>): seq<LockOp> {
    if ch.None? then [Take(l), Drop(l)] else [Take(l), Take(PTABLE), Drop(PTABLE), Drop(l)]
  }

  /** acquire(l), wakeup(ch) unless there is nobody to wake, release(l), with interrupts
      off, then iret. */
  function Handler(m: Machine, procs: seq<Proc>, l: nat, ch: Option<nat>): Outcome<(Machine, seq<Proc>)>
    requires 0 < l < |m.locks|
  {
    var m0 := Machine(Cpu(false, m.cpu.ncli, m.cpu.intena), m.locks);
    match PerformAll(m0, HandlerOps(l, ch))
    case Panic(k) => Panic(k)
    case Spin => Spin
    case Ok(m1) => Ok((Machine(Cpu(m.cpu.ifl, m1.cpu.ncli, m1.cpu.intena), m1.locks), WakeOn(procs, ch)))
  }

  /** Which actions can happen: a call needs a process outside the protocol (and cli or
      sti a process without locks), an interrupt needs the flag. */
  predicate Enabled(s: State, a: Action)
    requires Shape(s)
  {
    match a
    case Step => s.running.Process? ==> s.pcs[s.running.i] != Client
    case Enter(call) =>
      && s.running.Process? && s.pcs[s.running.i] == Client
      && (call.DoAcquire? || call.DoRelease? ==> call.l < |s.m.locks|)
      && (call.DoSleep? && call.lk.Some? ==> call.lk.value < |s.m.locks|)
      && (call.SetFlag? ==> s.m.cpu.ncli == 0)
    case Irq(l, ch) => s.m.cpu.ifl && 0 < l < |s.m.locks|
  }

  function Next(s: State, a: Action): Outcome<State>
    requires Shape(s) && Enabled(s, a)
  {
    match a
    case Step => if s.running == Scheduler then SchedStep(s) else ProcStep(s, s.running.i)
    case Enter(call) => CallStep(s, s.running.i, call)
    case Irq(l, ch) =>
      match Handler(s.m, s.procs, l, ch)
      case Panic(k) => Panic(k)
      case Spin => Spin
      case Ok(r) => Ok(s.(m := r.0, procs := r.1))
  }

  /* ---- the invariant ---- */

  /** At a return from switch_to, or not started yet; n is the number of locks. */
  predicate Resumable(pc: Pc, n: nat) {
    pc == ForkRet || (pc.YieldBack? && pc.saved == pc.flag) || (pc.SleepBack? && pc.saved == pc.flag && pc.lk < n)
  }

  /** A process whose thread does not run. */
  predicate Suspended(p: Proc, pc: Pc, n: nat) {
    match p.state
    case RUNNABLE => Resumable(pc, n)
    case SLEEPING => Resumable(pc, n) && pc.SleepBack? && p.chan == pc.ch
    case RUNNING => false
    case _ => true
  }

  predicate OnlyPtable(m: Machine)
    requires |m.locks| > 0
  {
    m.cpu.ncli == 1 && m.locks[PTABLE].locked
  }

  /** What holds at each point of a running process. */
  predicate ProcOk(s: State, i: nat)
    requires Shape(s) && i < MAX_PROC
  {
    var p, m := s.procs[i], s.m;
    match s.pcs[i]
    case Client => p.state == RUNNING
    case ForkRet => p.state == RUNNING && OnlyPtable(m)
    case YieldMark(b) => p.state == RUNNING && m.locks[PTABLE].locked && m.cpu.intena == b
    case YieldSched(b) => p.state == RUNNABLE && m.locks[PTABLE].locked && m.cpu.intena == b
    case YieldBack(b, saved) => p.state == RUNNING && OnlyPtable(m) && saved == b
    case YieldRelease(b) => p.state == RUNNING && OnlyPtable(m) && m.cpu.intena == b
    case SleepUnlock(ch, lk, b) => p.state == RUNNING && m.locks[PTABLE].locked && 0 < lk < |m.locks|
      && m.cpu.intena == b
    case SleepMark(ch, lk, b) => p.state == RUNNING && lk < |m.locks| && OuterFlag(m) == b
      && (lk != PTABLE ==> m.locks[PTABLE].locked)
    case SleepSched(ch, lk, b) => (p == Proc(SLEEPING, ch) || (p == Proc(RUNNABLE, ch) && !m.locks[PTABLE].locked))
      && lk < |m.locks| && OuterFlag(m) == b && (lk != PTABLE ==> m.locks[PTABLE].locked)
    case SleepBack(ch, lk, b, saved) => p.state == RUNNING && OnlyPtable(m) && saved == b && lk < |m.locks|
    case SleepClear(lk, b) => p.state == RUNNING && OnlyPtable(m) && m.cpu.intena == b && lk < |m.locks|
    case SleepRelease(lk, b) => p.state == RUNNING && OnlyPtable(m) && m.cpu.intena == b && 0 < lk < |m.locks|
    case SleepLock(lk, b) => p.state == RUNNING && m.cpu.ncli == 0 && m.cpu.ifl == b && 0 < lk < |m.locks|
    case WakeScan(ch, k) => p.state == RUNNING && m.locks[PTABLE].locked && k <= MAX_PROC
    case WakeRelease => p.state == RUNNING && m.locks[PTABLE].locked
  }

  predicate Others(s: State, i: nat)
    requires Shape(s)
  {
    forall j :: 0 <= j < MAX_PROC && j != i ==> Suspended(s.procs[j], s.pcs[j], |s.m.locks|)
  }

  predicate AllSuspended(s: State)
    requires Shape(s)
  {
    forall j :: 0 <= j < MAX_PROC ==> Suspended(s.procs[j], s.pcs[j], |s.m.locks|)
  }

  /** While the scheduler's thread runs. */
  predicate SchedOk(s: State)
    requires Shape(s)
  {
    match s.spc
    case Top => s.m.cpu.ncli == 0 && s.cur == Scheduler && AllSuspended(s)
    case Entry => s.m.cpu.ncli == 0 && s.m.cpu.ifl && s.cur == Scheduler && AllSuspended(s)
    case Scan(i) => i <= MAX_PROC && OnlyPtable(s.m) && s.cur == Scheduler && AllSuspended(s)
    case Found(i) =>
      && i < MAX_PROC && OnlyPtable(s.m) && s.cur == Process(i) && Others(s, i)
      && s.procs[i].state == RUNNING && Resumable(s.pcs[i], |s.m.locks|)
    case Back(i) => i < MAX_PROC && OnlyPtable(s.m) && s.cur == Process(i) && AllSuspended(s)
  }

  predicate Inv(s: State) {
    && Shape(s) && LocksOk(s.m)
    && match s.running
       case Scheduler => SchedOk(s)
       case Process(i) => s.cur == Process(i) && s.spc == Back(i) && Others(s, i) && ProcOk(s, i)
  }

  /** launch_first_proc is entered with no lock held and every process either unused or
      prepared by config_proc_kstack. */
  predicate Init(s: State) {
    && Shape(s) && s.running == Scheduler && s.spc == Top && s.cur == Scheduler
    && s.m.cpu.ncli == 0 && (forall l :: 0 <= l < |s.m.locks| ==> s.m.locks[l] == FREE)
    && forall j :: 0 <= j < MAX_PROC ==>
         s.procs[j].state == UNUSED || (s.procs[j].state == RUNNABLE && s.pcs[j] == ForkRet)
  }

  lemma {:induction false} NoneHeld(locks: seq<Lock>)
    requires forall l :: 0 <= l < |locks| ==> locks[l] == FREE
    ensures Count(locks) == 0
    decreases |locks|
  {
    if locks == [] {
    } else {
      NoneHeld(locks[1..]);
    }
  }

  lemma InitInv(s: State)
    requires Init(s)
    ensures Inv(s)
  {
    NoneHeld(s.m.locks);
  }

  /* ---- every step keeps the invariant ---- */

  /** The handler finds its locks free, wakes, and leaves the flag and the locks alone. */
  lemma HandlerOk(m: Machine, procs: seq<Proc>, l: nat, ch: Option<nat>)
    requires LocksOk(m) && m.cpu.ifl && 0 < l < |m.locks|
    ensures Handler(m, procs, l, ch) == Ok((Machine(Cpu(true, 0, false), m.locks), WakeOn(procs, ch)))
    ensures LocksOk(Machine(Cpu(true, 0, false), m.locks))
  {
    CountZero(m.locks, l);
    CountZero(m.locks, PTABLE);
    var m0 := Machine(Cpu(false, 0, m.cpu.intena), m.locks);
    AcquireOk(m0, l);
    var m1 := Acquire(m0, l).value;
    AcquireOk(m1, PTABLE);
    var m2 := Acquire(m1, PTABLE).value;
    ReleaseOk(m2, PTABLE);
    var m3 := Release(m2, PTABLE).value;
    ReleaseOk(m3, l);
    var m4 := Release(m3, l).value;
    assert m3 == Machine(Cpu(false, 1, false), m1.locks);
    assert m4 == Machine(Cpu(false, 0, false), m.locks);
    ReleaseOk(m1, l);
    assert Release(m1, l) == Ok(m4);
    hide Acquire, Release, LocksOk;
    var ops := [Take(l), Take(PTABLE), Drop(PTABLE), Drop(l)];
    assert ops[1..] == [Take(PTABLE), Drop(PTABLE), Drop(l)];
    assert ops[1..][1..] == [Drop(PTABLE), Drop(l)];
    assert ops[1..][1..][1..] == [Drop(l)];
    assert [Take(l), Drop(l)][1..] == [Drop(l)];
    assert [Drop(l)][1..] == [];
    assert PerformAll(m3, [Drop(l)]) == Ok(m4) && PerformAll(m1, [Drop(l)]) == Ok(m4);
    assert PerformAll(m2, [Drop(PTABLE), Drop(l)]) == Ok(m4);
    assert PerformAll(m1, [Take(PTABLE), Drop(PTABLE), Drop(l)]) == Ok(m4);
  }

  /** Why handlers need interrupts off while a lock is held: in any state of the locks,
      whatever the flag, a handler would panic exactly when its own lock is held or, if it
      calls wakeup, ptable.lock is. */
  lemma HandlerPanicsIff(m: Machine, procs: seq<Proc>, l: nat, ch: Option<nat>)
    requires LocksOk(Machine(Cpu(false, m.cpu.ncli, m.cpu.intena), m.locks)) && 0 < l < |m.locks|
    ensures Handler(m, procs, l, ch).Panic? <==> m.locks[l].locked || (ch.Some? && m.locks[PTABLE].locked)
    ensures !Handler(m, procs, l, ch).Spin?
  {
    var m0 := Machine(Cpu(false, m.cpu.ncli, m.cpu.intena), m.locks);
    NestingRestoresFlag(m0, HandlerOps(l, ch));
    HandlerDiscipline(HeldBy(m.locks), l, ch);
    hide PerformAll, Disciplined, LocksOk, HandlerOps, WakeOn;
  }

  lemma HandlerDiscipline(held: seq<bool>, l: nat, ch: Option<nat>)
    requires 0 < l < |held|
    ensures InTable(HandlerOps(l, ch), |held|)
    ensures Disciplined(held, HandlerOps(l, ch)) <==> !held[l] && (ch.Some? ==> !held[PTABLE])
  {
    var h1 := held[l := true];
    if ch.None? {
      assert HandlerOps(l, ch)[1..] == [Drop(l)] && [Drop(l)][1..] == [];
      assert Disciplined(h1[l := false], []);
    } else {
      var h2 := h1[PTABLE := true];
      var h3 := h2[PTABLE := false];
      assert HandlerOps(l, ch)[1..] == [Take(PTABLE), Drop(PTABLE), Drop(l)];
      assert [Take(PTABLE), Drop(PTABLE), Drop(l)][1..] == [Drop(PTABLE), Drop(l)];
      assert [Drop(PTABLE), Drop(l)][1..] == [Drop(l)] && [Drop(l)][1..] == [];
      assert Disciplined(h3[l := false], []);
      assert Disciplined(h3, [Drop(l)]);
      assert Disciplined(h2, [Drop(PTABLE), Drop(l)]);
    }
  }

  /** Interrupts one after another; each can come in only while the flag is set. */
  function Handlers(m: Machine, procs: seq<Proc>, irqs: seq<(nat, Option<nat>)>): Outcome<(Machine, seq<Proc>)>
    requires forall k :: 0 <= k < |irqs| ==> 0 < irqs[k].0 < |m.locks|
    decreases |irqs|
  {
    if irqs == [] || !m.cpu.ifl then Ok((m, procs))
    else
      match Handler(m, procs, irqs[0].0, irqs[0].1)
      case Panic(k) => Panic(k)
      case Spin => Spin
      case Ok(r) => if |r.0.locks| == |m.locks| then Handlers(r.0, r.1, irqs[1..]) else Spin
  }

  /** pushcli cannot be disturbed between reading the flags and cli: whatever interrupts
      come in there, one after another, it ends with the CPU as it would have without
      them, and with every lock as it was. */
  lemma {:induction false} PushCliUninterrupted(m: Machine, procs: seq<Proc>, irqs: seq<(nat, Option<nat>)>)
    requires LocksOk(m) && forall k :: 0 <= k < |irqs| ==> 0 < irqs[k].0 < |m.locks|
    ensures
      var r := Handlers(m, procs, irqs);
      && r.Ok? && r.value.0.locks == m.locks && LocksOk(r.value.0)
      && PushCliRest(r.value.0.cpu, m.cpu.ifl) == PushCli(m.cpu)
    decreases |irqs|
  {
    if irqs == [] || !m.cpu.ifl {
    } else {
      HandlerOk(m, procs, irqs[0].0, irqs[0].1);
      assert m.cpu.ncli == 0;
      hide Handler, LocksOk;
      PushCliUninterrupted(Machine(Cpu(true, 0, false), m.locks), WakeOn(procs, irqs[0].1), irqs[1..]);
    }
  }

  lemma WakeSuspended(s: State, i: nat, ch: Option<nat>)
    requires Shape(s) && Others(s, i)
    ensures Others(s.(procs := WakeOn(s.procs, ch)), i)
  {
    forall j | 0 <= j < MAX_PROC && j != i ensures Suspended(WakeOn(s.procs, ch)[j], s.pcs[j], |s.m.locks|) {
      assert Suspended(s.procs[j], s.pcs[j], |s.m.locks|);
    }
  }

  /** An interrupt changes nothing but the sleepers on its channel, if it has one. */
  lemma IrqEffect(s: State, l: nat, ch: Option<nat>)
    requires Inv(s) && Enabled(s, Irq(l, ch))
    ensures
      var r := Next(s, Irq(l, ch));
      && r.Ok? && r.value == s.(m := Machine(Cpu(true, 0, false), s.m.locks), procs := r.value.procs)
      && (ch.None? ==> r.value.procs == s.procs)
      && (ch.Some? ==> Awakened(s.procs, r.value.procs, ch.value))
  {
    HandlerOk(s.m, s.procs, l, ch);
    if ch.Some? {
      WakeAllAwakens(s.procs, ch.value);
    }
    hide Handler, LocksOk, Others, WakeAll, Awakened;
  }

  lemma IrqInv(s: State, l: nat, ch: Option<nat>)
    requires Inv(s) && Enabled(s, Irq(l, ch))
    ensures Next(s, Irq(l, ch)).Ok? && Inv(Next(s, Irq(l, ch)).value)
  {
    HandlerOk(s.m, s.procs, l, ch);
    hide Handler;
    var s' := Next(s, Irq(l, ch)).value;
    assert s' == s.(m := Machine(Cpu(true, 0, false), s.m.locks), procs := WakeOn(s.procs, ch));
    match s.running
    case Process(i) =>
      WakeSuspended(s, i, ch);
    case Scheduler =>
      WakeSuspended(s, MAX_PROC, ch);
      assert AllSuspended(s) ==> AllSuspended(s') by {
        if AllSuspended(s) {
          assert Others(s, MAX_PROC);
          assert Others(s.(procs := WakeOn(s.procs, ch)), MAX_PROC);
        }
      }
  }

  /** The misuses that make the code panic, and nothing else does. */
  function PanicOf(s: State, a: Action): Option<PanicKind>
    requires Shape(s) && Enabled(s, a)
  {
    match a
    case Irq(_, _) => None
    case Enter(call) =>
      (match call
       case DoAcquire(l) => if s.m.locks[l].locked then Some(AcquirePanic) else None
       case DoRelease(l) => if s.m.locks[l].locked then None else Some(ReleasePanic)
       case SetFlag(_) => None
       case DoYield => if s.m.locks[PTABLE].locked then Some(AcquirePanic) else None
       case DoSleep(_, lk) =>
         if lk == None then Some(SleepNoLock)
         else if lk.value != PTABLE && s.m.locks[PTABLE].locked then Some(AcquirePanic) else None
       case DoWakeup(_) => if s.m.locks[PTABLE].locked then Some(AcquirePanic) else None)
    case Step =>
      if s.running == Scheduler then None
      else
        match s.pcs[s.running.i]
        case SleepUnlock(_, lk, _) => if lk < |s.m.locks| && s.m.locks[lk].locked then None else Some(ReleasePanic)
        case YieldSched(_) => if s.m.cpu.ncli == 1 then None else Some(SchedLocks)
        case SleepSched(_, _, _) =>
          if !s.m.locks[PTABLE].locked then Some(SchedPtable)
          else if s.m.cpu.ncli != 1 then Some(SchedLocks) else None
        case _ => None
  }

  /** The outcome that the invariant promises. */
  predicate Promised(s: State, r: Outcome<State>, p: Option<PanicKind>) {
    match p
    case Some(k) => r == Panic(k)
    case None => r.Ok? && Inv(r.value)
  }

  lemma LockingOk(s: State, l: nat, i: nat, pc: Pc)
    requires Shape(s) && LocksOk(s.m) && l < |s.m.locks| && i < MAX_PROC
    ensures s.m.locks[l].locked ==> Locking(s, l, i, pc) == Panic(AcquirePanic)
    ensures !s.m.locks[l].locked ==>
      && Locking(s, l, i, pc).Ok?
      && Locking(s, l, i, pc).value ==
          SetPc(s.(m := Machine(Cpu(false, s.m.cpu.ncli + 1, OuterFlag(s.m)), s.m.locks[l := HELD])), i, pc)
      && LocksOk(Locking(s, l, i, pc).value.m)
  {
    AcquireOk(s.m, l);
    hide Acquire;
  }

  lemma UnlockingOk(s: State, l: nat, i: nat, pc: Pc)
    requires Shape(s) && LocksOk(s.m) && l < |s.m.locks| && i < MAX_PROC
    ensures !s.m.locks[l].locked ==> Unlocking(s, l, i, pc) == Panic(ReleasePanic)
    ensures s.m.locks[l].locked ==>
      && Unlocking(s, l, i, pc).Ok?
      && Unlocking(s, l, i, pc).value ==
           SetPc(s.(m := Machine(Cpu(s.m.cpu.ncli == 1 && s.m.cpu.intena, s.m.cpu.ncli - 1, s.m.cpu.intena),
               s.m.locks[l := FREE])), i, pc)
      && LocksOk(Unlocking(s, l, i, pc).value.m)
  {
    ReleaseOk(s.m, l);
    hide Release;
  }

  /** A lock held means at least one counted. */
  lemma HeldCounts(m: Machine, l: nat)
    requires LocksOk(m) && l < |m.locks| && m.locks[l].locked
    ensures m.cpu.ncli >= 1 && !m.cpu.ifl
  {
    CountUpdate(m.locks, l, FREE);
  }

  lemma {:induction false} SchedulerStepOk(s: State)
    requires Inv(s) && s.running == Scheduler
    ensures Promised(s, SchedStep(s), None)
  {
    match s.spc
    case Top =>
    case Entry =>
      CountZero(s.m.locks, PTABLE);
      AcquireOk(s.m, PTABLE);
      hide Acquire, Count;
      assert AllSuspended(SchedStep(s).value);
    case Scan(i) =>
      ReleaseOk(s.m, PTABLE);
      hide Release, Count;
      var s' := SchedStep(s).value;
      if i < MAX_PROC && s.procs[i].state == RUNNABLE {
        assert Suspended(s.procs[i], s.pcs[i], |s.m.locks|);
        assert Others(s', i);
      } else {
        assert AllSuspended(s');
      }
    case Found(i) =>
      hide Count;
      assert Others(SchedStep(s).value, i);
    case Back(i) =>
      hide Count;
      assert AllSuspended(SchedStep(s).value);
  }

  lemma ToSchedulerOk(s: State, i: nat, pc: bool -> Pc)
    requires Inv(s) && s.running == Process(i) && s.procs[i].state != RUNNING
    ensures !s.m.locks[PTABLE].locked ==> ToScheduler(s, i, pc) == Panic(SchedPtable)
    ensures s.m.locks[PTABLE].locked && s.m.cpu.ncli != 1 ==> ToScheduler(s, i, pc) == Panic(SchedLocks)
    ensures s.m.locks[PTABLE].locked && s.m.cpu.ncli == 1 ==>
      ToScheduler(s, i, pc) == Ok(SetPc(s.(running := Scheduler), i, pc(s.m.cpu.intena)))
  {
    if s.m.locks[PTABLE].locked {
      HeldCounts(s.m, PTABLE);
    }
    hide Count, Others, ProcOk;
  }

  /** sched's four checks on any state at all: which panic comes when. The last one,
      for interrupts enabled, never comes: holding has turned them off before. */
  lemma SchedChecks(s: State, i: nat, pc: bool -> Pc)
    requires Shape(s) && i < MAX_PROC && s.m.cpu.ncli >= 0
    ensures ToScheduler(s, i, pc) ==
      if s.m.locks[PTABLE] != HELD then Panic(SchedPtable)
      else if s.m.cpu.ncli != 1 then Panic(SchedLocks)
      else if s.procs[if s.cur.Process? then s.cur.i else i].state == RUNNING then Panic(SchedRunning)
      else Ok(s.(m := Machine(Cpu(false, 1, s.m.cpu.intena), s.m.locks), running := Scheduler,
                 pcs := s.pcs[if s.cur.Process? then s.cur.i else i := pc(s.m.cpu.intena)]))
    ensures ToScheduler(s, i, pc) != Panic(SchedInterruptible)
  {
  }

  /** sleep's two checks on any state. */
  lemma SleepChecks(s: State, i: nat, ch: nat, lk: Option<nat>)
    requires Shape(s) && i < MAX_PROC && s.m.cpu.ncli >= 0 && s.m.locks[PTABLE] != Lock(true, false)
    ensures CallStep(s, i, DoSleep(ch, lk)) == Panic(SleepNoProc) <==> s.cur == Scheduler
    ensures CallStep(s, i, DoSleep(ch, lk)) == Panic(SleepNoLock) <==> s.cur != Scheduler && lk == None
  {
  }

  /** The running process has gone on without touching another process. */
  lemma Continues(s: State, s': State, i: nat)
    requires Inv(s) && s.running == Process(i) && s'.running == s.running && s'.cur == s.cur && s'.spc == s.spc
    requires Shape(s') && LocksOk(s'.m) && |s'.m.locks| == |s.m.locks| && ProcOk(s', i)
    requires forall j :: 0 <= j < MAX_PROC && j != i ==> s'.procs[j] == s.procs[j] && s'.pcs[j] == s.pcs[j]
    ensures Inv(s')
  {
    hide LocksOk, ProcOk, Suspended;
  }

  /** The running process has switched away. */
  lemma SwitchesAway(s: State, i: nat, pc: Pc)
    requires Inv(s) && s.running == Process(i) && OnlyPtable(s.m) && Suspended(s.procs[i], pc, |s.m.locks|)
    ensures Inv(SetPc(s.(running := Scheduler), i, pc))
  {
    hide LocksOk, ProcOk, Suspended;
  }

  lemma ProcFacts(s: State, i: nat)
    requires Inv(s) && s.running == Process(i)
    ensures Shape(s) && LocksOk(s.m) && ProcOk(s, i) && s.cur == Process(i) && i < MAX_PROC
  {
    hide LocksOk, ProcOk, Others;
  }

  /** The steps that release ptable.lock and leave. */
  lemma LastReleaseOk(s: State, i: nat)
    requires Inv(s) && s.running == Process(i)
    requires s.pcs[i] == ForkRet || s.pcs[i].YieldRelease? || s.pcs[i] == WakeRelease || s.pcs[i].SleepRelease?
    ensures Promised(s, ProcStep(s, i), None)
  {
    ProcFacts(s, i);
    var pc := match s.pcs[i] case SleepRelease(lk, b) => SleepLock(lk, b) case _ => Client;
    UnlockingOk(s, PTABLE, i, pc);
    assert ProcStep(s, i) == Unlocking(s, PTABLE, i, pc);
    hide Locking, Unlocking, ToScheduler, Count, LocksOk, Others, Inv;
    Continues(s, Unlocking(s, PTABLE, i, pc).value, i);
  }

  lemma SwitchOk(s: State, i: nat)
    requires Inv(s) && s.running == Process(i) && (s.pcs[i].YieldSched? || s.pcs[i].SleepSched?)
    ensures Promised(s, ProcStep(s, i), PanicOf(s, Step))
  {
    ProcFacts(s, i);
    hide Locking, Unlocking, Count, LocksOk, Others, Inv;
    match s.pcs[i]
    case YieldSched(b) =>
      var pc := (saved: bool) => YieldBack(b, saved);
      ToSchedulerOk(s, i, pc);
      hide ToScheduler;
      if s.m.cpu.ncli == 1 {
        SwitchesAway(s, i, pc(s.m.cpu.intena));
      }
    case SleepSched(ch, lk, b) =>
      var pc := (saved: bool) => SleepBack(ch, lk, b, saved);
      ToSchedulerOk(s, i, pc);
      hide ToScheduler;
      if s.m.locks[PTABLE].locked && s.m.cpu.ncli == 1 {
        SwitchesAway(s, i, pc(s.m.cpu.intena));
      }
  }

  lemma MarkOk(s: State, i: nat)
    requires Inv(s) && s.running == Process(i)
    requires s.pcs[i].YieldMark? || s.pcs[i].SleepMark? || s.pcs[i].SleepClear? || s.pcs[i].YieldBack?
      || s.pcs[i].SleepBack?
    ensures Promised(s, ProcStep(s, i), None)
  {
    ProcFacts(s, i);
    hide Locking, Unlocking, ToScheduler, Count, Others, Inv;
    Continues(s, ProcStep(s, i).value, i);
  }

  lemma SleepLocksOk(s: State, i: nat)
    requires Inv(s) && s.running == Process(i) && (s.pcs[i].SleepUnlock? || s.pcs[i].SleepLock?)
    ensures Promised(s, ProcStep(s, i), PanicOf(s, Step))
  {
    ProcFacts(s, i);
    match s.pcs[i]
    case SleepUnlock(ch, lk, b) =>
      UnlockingOk(s, lk, i, SleepMark(ch, lk, b));
      if s.m.locks[lk].locked {
        CountTwo(s.m.locks, PTABLE, lk);
        hide Locking, Unlocking, ToScheduler, Count, Others, Inv;
        Continues(s, Unlocking(s, lk, i, SleepMark(ch, lk, b)).value, i);
      }
    case SleepLock(lk, b) =>
      LockingOk(s, lk, i, Client);
      CountZero(s.m.locks, lk);
      hide Locking, Unlocking, ToScheduler, Count, Others, Inv;
      Continues(s, Locking(s, lk, i, Client).value, i);
  }

  lemma WakeScanOk(s: State, i: nat)
    requires Inv(s) && s.running == Process(i) && s.pcs[i].WakeScan?
    ensures Promised(s, ProcStep(s, i), None)
  {
    var ch, k := s.pcs[i].ch, s.pcs[i].i;
    var s' := ProcStep(s, i).value;
    hide Locking, Unlocking, ToScheduler, Count;
    if k < MAX_PROC {
      assert k != i ==> Suspended(s.procs[k], s.pcs[k], |s.m.locks|);
      assert Others(s', i);
    } else {
      assert Others(s', i);
    }
  }

  lemma ProcessStepOk(s: State, i: nat)
    requires Inv(s) && s.running == Process(i) && s.pcs[i] != Client
    ensures Promised(s, ProcStep(s, i), PanicOf(s, Step))
  {
    ProcFacts(s, i);
    hide ProcStep, Inv, LocksOk, ProcOk;
    match s.pcs[i]
    case ForkRet => LastReleaseOk(s, i);
    case YieldMark(_) => MarkOk(s, i);
    case YieldSched(_) => SwitchOk(s, i);
    case YieldBack(_, _) => MarkOk(s, i);
    case YieldRelease(_) => LastReleaseOk(s, i);
    case SleepUnlock(_, _, _) => SleepLocksOk(s, i);
    case SleepMark(_, _, _) => MarkOk(s, i);
    case SleepSched(_, _, _) => SwitchOk(s, i);
    case SleepBack(_, _, _, _) => MarkOk(s, i);
    case SleepClear(_, _) => MarkOk(s, i);
    case SleepRelease(_, _) => LastReleaseOk(s, i);
    case SleepLock(_, _) => SleepLocksOk(s, i);
    case WakeScan(_, _) => WakeScanOk(s, i);
    case WakeRelease => LastReleaseOk(s, i);
  }

  /** The calls that begin with acquire(l), by where they go on. */
  predicate LocksFirst(m: Machine, l: nat, pc: Pc) {
    match pc
    case Client => true
    case YieldMark(b) => l == PTABLE && b == OuterFlag(m)
    case SleepUnlock(_, lk, b) => l == PTABLE && b == OuterFlag(m) && 0 < lk < |m.locks|
    case WakeScan(_, k) => l == PTABLE && k == 0
    case _ => false
  }

  lemma LockedCallOk(s: State, i: nat, l: nat, pc: Pc)
    requires Inv(s) && s.running == Process(i) && i < MAX_PROC && |s.pcs| == MAX_PROC && s.pcs[i] == Client
    requires l < |s.m.locks| && LocksFirst(s.m, l, pc)
    ensures Promised(s, Locking(s, l, i, pc), if s.m.locks[l].locked then Some(AcquirePanic) else None)
  {
    ProcFacts(s, i);
    LockingOk(s, l, i, pc);
    hide Locking, Count, Others, Inv, LocksOk;
    if !s.m.locks[l].locked {
      Continues(s, Locking(s, l, i, pc).value, i);
    }
  }

  lemma CallOk(s: State, i: nat, call: Call)
    requires Inv(s) && s.running == Process(i) && Enabled(s, Enter(call))
    ensures Promised(s, CallStep(s, i, call), PanicOf(s, Enter(call)))
  {
    ProcFacts(s, i);
    hide Locking, Unlocking, Count, Others, Inv, LocksOk, Promised;
    var flag := OuterFlag(s.m);
    match call
    case DoAcquire(l) => LockedCallOk(s, i, l, Client);
    case DoRelease(l) => ReleaseCallOk(s, i, l);
    case SetFlag(b) => FlagCallOk(s, i, b);
    case DoYield => LockedCallOk(s, i, PTABLE, YieldMark(flag));
    case DoSleep(ch, lk) =>
      if lk.Some? && lk.value != PTABLE {
        LockedCallOk(s, i, PTABLE, SleepUnlock(ch, lk.value, flag));
      } else {
        SleepCallOk(s, i, ch, lk);
      }
    case DoWakeup(ch) => LockedCallOk(s, i, PTABLE, WakeScan(ch, 0));
  }

  lemma ReleaseCallOk(s: State, i: nat, l: nat)
    requires Inv(s) && s.running == Process(i) && Enabled(s, Enter(DoRelease(l)))
    ensures Promised(s, CallStep(s, i, DoRelease(l)), PanicOf(s, Enter(DoRelease(l))))
  {
    ProcFacts(s, i);
    UnlockingOk(s, l, i, Client);
    hide Unlocking, Count, Others, Inv, LocksOk;
    if s.m.locks[l].locked {
      Continues(s, Unlocking(s, l, i, Client).value, i);
    }
  }

  lemma FlagCallOk(s: State, i: nat, b: bool)
    requires Inv(s) && s.running == Process(i) && Enabled(s, Enter(SetFlag(b)))
    ensures Promised(s, CallStep(s, i, SetFlag(b)), PanicOf(s, Enter(SetFlag(b))))
  {
    ProcFacts(s, i);
    hide Count, Others, Inv;
    Continues(s, CallStep(s, i, SetFlag(b)).value, i);
  }

  /** sleep without a lock, or with ptable.lock. */
  lemma SleepCallOk(s: State, i: nat, ch: nat, lk: Option<nat>)
    requires Inv(s) && s.running == Process(i)
    requires Enabled(s, Enter(DoSleep(ch, lk))) && (lk == None || lk == Some(PTABLE))
    ensures Promised(s, CallStep(s, i, DoSleep(ch, lk)), PanicOf(s, Enter(DoSleep(ch, lk))))
  {
    ProcFacts(s, i);
    hide Count, Others, Inv, LocksOk;
    if lk.Some? {
      Continues(s, CallStep(s, i, DoSleep(ch, lk)).value, i);
    }
  }

  /** Main step theorem: from a state satisfying the invariant, an action panics exactly
      when it is one of the misuses of PanicOf, never spins for ever, and otherwise leads
      to a state that satisfies the invariant. */
  lemma StepOk(s: State, a: Action)
    requires Inv(s) && Enabled(s, a)
    ensures Promised(s, Next(s, a), PanicOf(s, a))
  {
    hide Inv, CallStep, ProcStep, SchedStep;
    match a
    case Irq(l, ch) =>
      IrqInv(s, l, ch);
    case Enter(call) =>
      CallOk(s, s.running.i, call);
    case Step =>
      if s.running == Scheduler {
        SchedulerStepOk(s);
      } else {
        ProcessStepOk(s, s.running.i);
      }
  }
}
