/** What the operations of kernel/sys/process.c leave behind, as whole states: the way
    back out of sleep, yield and fork_ret, the lock calls of a process, a wakeup entry
    by entry, and a pass of the scheduler over the table. */
module Effects {
  import opened Options
  import opened Spinlock
  import opened Sched
  import opened SchedRuns
  import opened Wakeups

  /* ---- the way back out of sleep ---- */

  /** Which locks are held, and no other. */
  predicate LockedAre(locks: seq<Lock>, held: set<nat>) {
    forall l :: 0 <= l < |locks| ==> (locks[l].locked <==> l in held)
  }

  /** A process that comes back from the scheduler holds ptable.lock alone. */
  lemma ComesBackWithPtable(s: State, i: nat)
    requires Inv(s) && s.running == Process(i) && i < MAX_PROC && |s.pcs| == MAX_PROC
    requires s.pcs[i].SleepBack? || s.pcs[i].YieldBack? || s.pcs[i].ForkRet?
    ensures PTABLE < |s.m.locks| && LockedAre(s.m.locks, {PTABLE})
  {
    ProcFacts(s, i);
    forall l | 0 < l < |s.m.locks| ensures !s.m.locks[l].locked {
      if s.m.locks[l].locked {
        CountTwo(s.m.locks, PTABLE, l);
      }
    }
    hide Others;
  }

  lemma PtableGivenUp(locks: seq<Lock>, lk: nat)
    requires PTABLE < |locks| && lk < |locks| && LockedAre(locks, {PTABLE})
    ensures LockedAre(locks[PTABLE := FREE], {}) && LockedAre(locks[PTABLE := FREE][lk := HELD], {lk})
  {
  }

  lemma SleepBackStep(s: State, i: nat)
    requires Inv(s) && s.running == Process(i) && i < MAX_PROC && |s.pcs| == MAX_PROC && s.pcs[i].SleepBack?
    ensures Shape(s) && Enabled(s, Step) && s.m.locks[PTABLE].locked && s.procs[i].state == RUNNING
    ensures
      var b, lk := s.pcs[i].flag, s.pcs[i].lk;
      var s' := s.(m := Machine(Cpu(false, 1, b), s.m.locks), pcs := s.pcs[i := SleepClear(lk, b)]);
      Next(s, Step) == Ok(s') && Inv(s') && lk < |s.m.locks|
  {
    ProcFacts(s, i);
    HeldCounts(s.m, PTABLE);
    StepOk(s, Step);
    hide Inv, LocksOk, Others;
  }

  lemma SleepClearStep(s: State, i: nat)
    requires Inv(s) && s.running == Process(i) && i < MAX_PROC && |s.pcs| == MAX_PROC && s.pcs[i].SleepClear?
    ensures Shape(s) && Enabled(s, Step)
    ensures
      var b, lk := s.pcs[i].flag, s.pcs[i].lk;
      var s' := s.(procs := s.procs[i := Proc(RUNNING, 0)],
                   pcs := s.pcs[i := if lk == PTABLE then Client else SleepRelease(lk, b)]);
      Next(s, Step) == Ok(s') && Inv(s')
  {
    ProcFacts(s, i);
    StepOk(s, Step);
    hide Inv, LocksOk, Others;
  }

  lemma SleepReleaseStep(s: State, i: nat)
    requires Inv(s) && s.running == Process(i) && i < MAX_PROC && |s.pcs| == MAX_PROC && s.pcs[i].SleepRelease?
    ensures Shape(s) && Enabled(s, Step)
    ensures
      var b, lk := s.pcs[i].flag, s.pcs[i].lk;
      var s' := s.(m := Machine(Cpu(b, 0, b), s.m.locks[PTABLE := FREE]), pcs := s.pcs[i := SleepLock(lk, b)]);
      Next(s, Step) == Ok(s') && Inv(s')
  {
    ProcFacts(s, i);
    UnlockingOk(s, PTABLE, i, SleepLock(s.pcs[i].lk, s.pcs[i].flag));
    StepOk(s, Step);
    hide Inv, LocksOk, Others, Unlocking;
  }

  lemma SleepLockStep(s: State, i: nat)
    requires Inv(s) && s.running == Process(i) && i < MAX_PROC && |s.pcs| == MAX_PROC && s.pcs[i].SleepLock?
    ensures Shape(s) && Enabled(s, Step) && 0 < s.pcs[i].lk < |s.m.locks|
    ensures
      var b, lk := s.pcs[i].flag, s.pcs[i].lk;
      var s' := s.(m := Machine(Cpu(false, 1, b), s.m.locks[lk := HELD]), pcs := s.pcs[i := Client]);
      Next(s, Step) == Ok(s') && Inv(s')
  {
    ProcFacts(s, i);
    var lk := s.pcs[i].lk;
    LockingOk(s, lk, i, Client);
    CountZero(s.m.locks, lk);
    StepOk(s, Step);
    hide Inv, LocksOk, Others, Locking;
  }

  /** One step of a run of steps. */
  lemma StepFirst(s: State, s': State, n: nat)
    requires Shape(s) && Enabled(s, Step) && Next(s, Step) == Ok(s')
    ensures RunAll(s, Steps(n + 1)) == RunAll(s', Steps(n))
  {
    assert Steps(n + 1) == [Step] + Steps(n);
    RunAllCons(s, Step, Steps(n));
    hide Next, RunAll, Steps;
  }

  lemma NoSteps(s: State)
    ensures RunAll(s, Steps(0)) == Ok(s)
  {
    assert Steps(0) == [];
  }

  /** A process that was woken and is dispatched again returns from sleep: with its
      channel cleared, ptable.lock released, its own lock held and nothing else. */
  lemma SleepResumes(s: State, i: nat)
    requires Inv(s) && s.running == Process(i) && i < MAX_PROC && |s.pcs| == MAX_PROC && s.pcs[i].SleepBack?
    requires s.pcs[i].lk != PTABLE
    ensures |s.procs| == MAX_PROC && PTABLE < |s.m.locks| && s.pcs[i].lk < |s.m.locks|
    ensures
      var lk, b := s.pcs[i].lk, s.pcs[i].flag;
      RunAll(s, Steps(4)) == Ok(s.(
        m := Machine(Cpu(false, 1, b), s.m.locks[PTABLE := FREE][lk := HELD]),
        procs := s.procs[i := Proc(RUNNING, 0)],
        pcs := s.pcs[i := Client]))
    ensures LockedAre(s.m.locks[PTABLE := FREE][s.pcs[i].lk := HELD], {s.pcs[i].lk})
  {
    hide LockedAre, Inv, Next, Enabled, RunAll, Steps, Count;
    ComesBackWithPtable(s, i);
    var lk, b := s.pcs[i].lk, s.pcs[i].flag;
    SleepBackStep(s, i);
    var s1 := s.(m := Machine(Cpu(false, 1, b), s.m.locks), pcs := s.pcs[i := SleepClear(lk, b)]);
    StepFirst(s, s1, 3);
    SleepClearStep(s1, i);
    var s2 := s1.(procs := s1.procs[i := Proc(RUNNING, 0)], pcs := s1.pcs[i := SleepRelease(lk, b)]);
    StepFirst(s1, s2, 2);
    SleepReleaseStep(s2, i);
    var s3 := s2.(m := Machine(Cpu(b, 0, b), s2.m.locks[PTABLE := FREE]), pcs := s2.pcs[i := SleepLock(lk, b)]);
    StepFirst(s2, s3, 1);
    SleepLockStep(s3, i);
    var s4 := s3.(m := Machine(Cpu(false, 1, b), s3.m.locks[lk := HELD]), pcs := s3.pcs[i := Client]);
    StepFirst(s3, s4, 0);
    NoSteps(s4);
    assert s4.pcs == s.pcs[i := Client];
    PtableGivenUp(s.m.locks, lk);
  }

  /** The same for sleep with ptable.lock, which stays held. */
  lemma SleepUnderPtableResumes(s: State, i: nat)
    requires Inv(s) && s.running == Process(i) && i < MAX_PROC && |s.pcs| == MAX_PROC && s.pcs[i].SleepBack?
    requires s.pcs[i].lk == PTABLE
    ensures |s.procs| == MAX_PROC && PTABLE < |s.m.locks| && s.m.locks[PTABLE].locked
    ensures RunAll(s, Steps(2)) == Ok(s.(
      m := Machine(Cpu(false, 1, s.pcs[i].flag), s.m.locks),
      procs := s.procs[i := Proc(RUNNING, 0)],
      pcs := s.pcs[i := Client]))
    ensures LockedAre(s.m.locks, {PTABLE})
  {
    ComesBackWithPtable(s, i);
    hide LockedAre, Inv, Next, Enabled, RunAll, Steps;
    var b := s.pcs[i].flag;
    SleepBackStep(s, i);
    var s1 := s.(m := Machine(Cpu(false, 1, b), s.m.locks), pcs := s.pcs[i := SleepClear(PTABLE, b)]);
    StepFirst(s, s1, 1);
    SleepClearStep(s1, i);
    var s2 := s1.(procs := s1.procs[i := Proc(RUNNING, 0)], pcs := s1.pcs[i := Client]);
    StepFirst(s1, s2, 0);
    NoSteps(s2);
    assert s2.pcs == s.pcs[i := Client];
  }

  /* ---- the way back out of yield and fork_ret ---- */

  lemma YieldBackStep(s: State, i: nat)
    requires Inv(s) && s.running == Process(i) && i < MAX_PROC && |s.pcs| == MAX_PROC && s.pcs[i].YieldBack?
    ensures Shape(s) && Enabled(s, Step)
    ensures
      var b := s.pcs[i].flag;
      var s' := s.(m := Machine(Cpu(false, 1, b), s.m.locks), pcs := s.pcs[i := YieldRelease(b)]);
      Next(s, Step) == Ok(s') && Inv(s')
  {
    ProcFacts(s, i);
    HeldCounts(s.m, PTABLE);
    StepOk(s, Step);
    hide Inv, LocksOk, Others;
  }

  lemma YieldReleaseStep(s: State, i: nat)
    requires Inv(s) && s.running == Process(i) && i < MAX_PROC && |s.pcs| == MAX_PROC && s.pcs[i].YieldRelease?
    ensures Shape(s) && Enabled(s, Step)
    ensures
      var b := s.pcs[i].flag;
      var s' := s.(m := Machine(Cpu(b, 0, b), s.m.locks[PTABLE := FREE]), pcs := s.pcs[i := Client]);
      Next(s, Step) == Ok(s') && Inv(s')
  {
    ProcFacts(s, i);
    UnlockingOk(s, PTABLE, i, Client);
    StepOk(s, Step);
    hide Inv, LocksOk, Others, Unlocking;
  }

  /** A process that yielded and is dispatched again returns from yield, with
      ptable.lock released and its interrupt flag in force. */
  lemma YieldResumes(s: State, i: nat)
    requires Inv(s) && s.running == Process(i) && i < MAX_PROC && |s.pcs| == MAX_PROC && s.pcs[i].YieldBack?
    ensures |s.procs| == MAX_PROC && PTABLE < |s.m.locks| && s.procs[i].state == RUNNING
    ensures
      var b := s.pcs[i].flag;
      RunAll(s, Steps(2)) == Ok(s.(
        m := Machine(Cpu(b, 0, b), s.m.locks[PTABLE := FREE]), pcs := s.pcs[i := Client]))
    ensures LockedAre(s.m.locks[PTABLE := FREE], {})
  {
    hide LockedAre, Inv, Next, Enabled, RunAll, Steps, ProcOk, LocksOk, Count;
    ComesBackWithPtable(s, i);
    PtableGivenUp(s.m.locks, PTABLE);
    var b := s.pcs[i].flag;
    ProcFacts(s, i);
    RunsRunning(s, i);
    YieldBackStep(s, i);
    var s1 := s.(m := Machine(Cpu(false, 1, b), s.m.locks), pcs := s.pcs[i := YieldRelease(b)]);
    StepFirst(s, s1, 1);
    YieldReleaseStep(s1, i);
    var s2 := s1.(m := Machine(Cpu(b, 0, b), s1.m.locks[PTABLE := FREE]), pcs := s1.pcs[i := Client]);
    StepFirst(s1, s2, 0);
    NoSteps(s2);
    assert s2.pcs == s.pcs[i := Client];
  }

  lemma RunsRunning(s: State, i: nat)
    requires Shape(s) && i < MAX_PROC && ProcOk(s, i) && s.pcs[i].YieldBack?
    ensures s.procs[i].state == RUNNING
  {
  }

  /** The first thing a new process does: fork_ret lets go of ptable.lock, which the
      scheduler has handed over, and interrupts are as they were before that. */
  lemma ForkReturns(s: State, i: nat)
    requires Inv(s) && s.running == Process(i) && i < MAX_PROC && |s.pcs| == MAX_PROC && s.pcs[i] == ForkRet
    ensures |s.procs| == MAX_PROC && PTABLE < |s.m.locks| && s.m.locks[PTABLE].locked && s.procs[i].state == RUNNING
    ensures
      var b := s.m.cpu.intena;
      RunAll(s, Steps(1)) == Ok(s.(
        m := Machine(Cpu(b, 0, b), s.m.locks[PTABLE := FREE]), pcs := s.pcs[i := Client]))
    ensures LockedAre(s.m.locks[PTABLE := FREE], {})
  {
    ComesBackWithPtable(s, i);
    PtableGivenUp(s.m.locks, PTABLE);
    hide LockedAre;
    ProcFacts(s, i);
    UnlockingOk(s, PTABLE, i, Client);
    hide Inv, LocksOk, Others, Unlocking, RunAll, Steps;
    var b := s.m.cpu.intena;
    var s1 := s.(m := Machine(Cpu(b, 0, b), s.m.locks[PTABLE := FREE]), pcs := s.pcs[i := Client]);
    assert Next(s, Step) == Ok(s1);
    StepFirst(s, s1, 0);
    NoSteps(s1);
  }

  /* ---- the lock calls of a process ---- */

  /** acquire, release, cli and sti as a process calls them. */
  lemma LockCallEffects(s: State, i: nat, l: nat, b: bool)
    requires Inv(s) && s.running == Process(i) && i < MAX_PROC && |s.pcs| == MAX_PROC && s.pcs[i] == Client
    requires l < |s.m.locks|
    ensures Shape(s) && Enabled(s, Enter(DoAcquire(l))) && Enabled(s, Enter(DoRelease(l)))
    ensures
      var c := s.m.cpu;
      && Next(s, Enter(DoAcquire(l))) ==
           (if s.m.locks[l].locked then Panic(AcquirePanic)
            else Ok(s.(m := Machine(
                Cpu(false, c.ncli + 1, if c.ncli == 0 then c.ifl else c.intena), s.m.locks[l := HELD]))))
      && Next(s, Enter(DoRelease(l))) ==
           (if !s.m.locks[l].locked then Panic(ReleasePanic)
            else Ok(s.(m := Machine(Cpu(c.ncli == 1 && c.intena, c.ncli - 1, c.intena), s.m.locks[l := FREE]))))
      && (c.ncli == 0 ==>
            && Enabled(s, Enter(SetFlag(b)))
            && Next(s, Enter(SetFlag(b))) == Ok(s.(m := Machine(Cpu(b, 0, c.intena), s.m.locks))))
  {
    ProcFacts(s, i);
    LockingOk(s, l, i, Client);
    UnlockingOk(s, l, i, Client);
    hide Inv, LocksOk, Others, ProcOk, Locking, Unlocking;
    assert s.pcs[i := Client] == s.pcs;
  }

  /* ---- a pass of the scheduler ---- */

  /** The scheduler at entry k, with no RUNNABLE process from k up to, not including, i. */
  predicate NoneUntil(s: State, k: nat, i: nat)
    requires Shape(s) && i <= MAX_PROC
  {
    s.running == Scheduler && s.spc == Scan(k) && k <= i && forall j :: k <= j < i ==> s.procs[j].state != RUNNABLE
  }

  lemma ScanStep(s: State, k: nat, i: nat)
    requires Inv(s) && i <= MAX_PROC && NoneUntil(s, k, i) && k < i
    ensures Shape(s) && Enabled(s, Step) && Next(s, Step) == Ok(s.(spc := Scan(k + 1)))
    ensures Inv(s.(spc := Scan(k + 1))) && NoneUntil(s.(spc := Scan(k + 1)), k + 1, i)
  {
    StepOk(s, Step);
    hide Acquire, Release, LocksOk, AllSuspended;
  }

  lemma {:induction false} ScanTo(s: State, k: nat, i: nat, n: nat)
    requires Inv(s) && i <= MAX_PROC && NoneUntil(s, k, i)
    ensures RunAll(s, Steps(i - k + n)) == RunAll(s.(spc := Scan(i)), Steps(n)) && Inv(s.(spc := Scan(i)))
    decreases i - k
  {
    hide Inv, Next, Enabled, RunAll, Steps;
    if k == i {
      assert s.(spc := Scan(i)) == s;
    } else {
      var s1 := s.(spc := Scan(k + 1));
      ScanStep(s, k, i);
      StepFirst(s, s1, i - k + n - 1);
      ScanTo(s1, k + 1, i, n);
      assert s1.(spc := Scan(i)) == s.(spc := Scan(i));
    }
  }

  lemma DispatchSteps(s: State, i: nat)
    requires Inv(s) && i < MAX_PROC && s.running == Scheduler && s.spc == Scan(i) && s.procs[i].state == RUNNABLE
    ensures
      var s1 := s.(procs := s.procs[i := Proc(RUNNING, s.procs[i].chan)], cur := Process(i), spc := Found(i));
      var s2 := s1.(running := Process(i), spc := Back(i));
      && Shape(s) && Enabled(s, Step) && Next(s, Step) == Ok(s1)
      && Shape(s1) && Enabled(s1, Step) && Next(s1, Step) == Ok(s2)
  {
    hide Acquire, Release, LocksOk, AllSuspended, Others;
  }

  /** The scan dispatches the first RUNNABLE process from where it is: that process is
      RUNNING and is c->proc, and nothing else has changed. */
  lemma SchedulerDispatches(s: State, k: nat, i: nat)
    requires Inv(s) && i < MAX_PROC && NoneUntil(s, k, i) && s.procs[i].state == RUNNABLE
    ensures RunAll(s, Steps(i - k + 2)) == Ok(s.(
      procs := s.procs[i := Proc(RUNNING, s.procs[i].chan)],
      cur := Process(i), running := Process(i), spc := Back(i)))
  {
    hide Inv, Next, Enabled, RunAll, Steps;
    ScanTo(s, k, i, 2);
    var s0 := s.(spc := Scan(i));
    DispatchSteps(s0, i);
    var s1 := s0.(procs := s.procs[i := Proc(RUNNING, s.procs[i].chan)], cur := Process(i), spc := Found(i));
    var s2 := s1.(running := Process(i), spc := Back(i));
    StepFirst(s0, s1, 1);
    StepFirst(s1, s2, 0);
    NoSteps(s2);
  }

  lemma LastScanStep(s: State)
    requires Inv(s) && s.running == Scheduler && s.spc == Scan(MAX_PROC)
    ensures
      var b := s.m.cpu.intena;
      var s' := s.(m := Machine(Cpu(b, 0, b), s.m.locks[PTABLE := FREE]), spc := Top);
      Shape(s) && Enabled(s, Step) && Next(s, Step) == Ok(s')
  {
    ReleaseOk(s.m, PTABLE);
    hide Acquire, Release, Count, AllSuspended;
  }

  /** A scan that finds no RUNNABLE process in the rest of the table ends by releasing
      ptable.lock, with the interrupt flag that was there before, at the top of the loop. */
  lemma SchedulerIdles(s: State, k: nat)
    requires Inv(s) && NoneUntil(s, k, MAX_PROC)
    ensures
      var b := s.m.cpu.intena;
      && PTABLE < |s.m.locks|
      && RunAll(s, Steps(MAX_PROC - k + 1)) == Ok(s.(
           m := Machine(Cpu(b, 0, b), s.m.locks[PTABLE := FREE]), spc := Top))
  {
    hide Inv, Next, Enabled, RunAll, Steps;
    ScanTo(s, k, MAX_PROC, 1);
    var b := s.m.cpu.intena;
    var s0 := s.(spc := Scan(MAX_PROC));
    LastScanStep(s0);
    StepFirst(s0, s0.(m := Machine(Cpu(b, 0, b), s.m.locks[PTABLE := FREE]), spc := Top), 0);
    NoSteps(s0.(m := Machine(Cpu(b, 0, b), s.m.locks[PTABLE := FREE]), spc := Top));
  }

  lemma TopSteps(s: State)
    requires Inv(s) && s.running == Scheduler && s.spc == Top
    ensures
      var s1 := s.(m := Machine(Cpu(true, 0, s.m.cpu.intena), s.m.locks), spc := Entry);
      var s2 := s.(m := Machine(Cpu(false, 1, true), s.m.locks[PTABLE := HELD]), spc := Scan(0));
      && Shape(s) && Enabled(s, Step) && Next(s, Step) == Ok(s1)
      && Shape(s1) && Enabled(s1, Step) && Next(s1, Step) == Ok(s2)
  {
    CountZero(s.m.locks, PTABLE);
    AcquireOk(Machine(Cpu(true, 0, s.m.cpu.intena), s.m.locks), PTABLE);
    hide Acquire, Count, AllSuspended;
  }

  /** The top of the loop: interrupts are enabled before ptable.lock is taken, so that
      the release at the end of the pass enables them again. */
  lemma SchedulerBegins(s: State)
    requires Inv(s) && s.running == Scheduler && s.spc == Top
    ensures |s.m.locks| > PTABLE
    ensures RunAll(s, Steps(2)) == Ok(s.(
      m := Machine(Cpu(false, 1, true), s.m.locks[PTABLE := HELD]), spc := Scan(0)))
  {
    hide Inv, Next, Enabled, RunAll, Steps;
    TopSteps(s);
    var s1 := s.(m := Machine(Cpu(true, 0, s.m.cpu.intena), s.m.locks), spc := Entry);
    var s2 := s.(m := Machine(Cpu(false, 1, true), s.m.locks[PTABLE := HELD]), spc := Scan(0));
    StepFirst(s, s1, 1);
    StepFirst(s1, s2, 0);
    NoSteps(s2);
  }

  /** Back in the scheduler after a process: c->proc is cleared and the scan goes on with
      the next entry. */
  lemma SchedulerGoesOn(s: State, i: nat)
    requires Inv(s) && s.running == Scheduler && s.spc == Back(i)
    ensures RunAll(s, Steps(1)) == Ok(s.(cur := Scheduler, spc := Scan(i + 1)))
  {
    hide LocksOk, AllSuspended, Others, RunAll, Steps;
    StepFirst(s, s.(cur := Scheduler, spc := Scan(i + 1)), 0);
    NoSteps(s.(cur := Scheduler, spc := Scan(i + 1)));
  }

  /* ---- returning, whatever else happens ---- */

  /** How many of its own steps a thread still needs to return to its caller after it
      has been switched to. */
  function ToGo(pc: Pc): nat {
    match pc
    case SleepBack(_, lk, _, _) => if lk == PTABLE then 2 else 4
    case SleepClear(lk, _) => if lk == PTABLE then 1 else 3
    case SleepRelease(_, _) => 2
    case SleepLock(_, _) => 1
    case YieldBack(_, _) => 2
    case YieldRelease(_) => 1
    case ForkRet => 1
    case _ => 0
  }

  /** While such a thread runs, only its own steps and interrupt handlers can happen:
      each of its steps brings it nearer to its return, and a handler leaves it where it is. */
  lemma ReturnStep(s: State, a: Action, s': State, i: nat)
    requires Inv(s) && Leads(s, a, s') && s.running == Process(i) && i < MAX_PROC && |s.pcs| == MAX_PROC
    requires ToGo(s.pcs[i]) > 0
    ensures Shape(s') && s'.running == Process(i) && (a == Step || a.Irq?)
    ensures ToGo(s'.pcs[i]) == ToGo(s.pcs[i]) - (if a == Step then 1 else 0)
    ensures ToGo(s'.pcs[i]) == 0 <==> s'.pcs[i] == Client
  {
    hide Inv, Next, Enabled, ProcOk, LocksOk;
    LeadsAction(s, a, s', i);
    if a.Irq? {
      IrqEffect(s, a.l, a.ch);
    } else {
      match s.pcs[i]
      case SleepBack(_, _, _, _) => SleepBackStep(s, i);
      case SleepClear(_, _) => SleepClearStep(s, i);
      case SleepRelease(_, _) => SleepReleaseStep(s, i);
      case SleepLock(_, _) => SleepLockStep(s, i);
      case YieldBack(_, _) => YieldBackStep(s, i);
      case YieldRelease(_) => YieldReleaseStep(s, i);
      case ForkRet => ForkStep(s, i);
    }
  }

  lemma ForkStep(s: State, i: nat)
    requires Inv(s) && s.running == Process(i) && i < MAX_PROC && |s.pcs| == MAX_PROC && s.pcs[i] == ForkRet
    ensures Enabled(s, Step)
    ensures
      var n := Next(s, Step);
      n.Ok? && n.value.pcs == s.pcs[i := Client] && n.value.running == s.running
  {
    ProcFacts(s, i);
    UnlockingOk(s, PTABLE, i, Client);
    hide Inv, LocksOk, Others, Unlocking;
  }

  lemma LeadsAction(s: State, a: Action, s': State, i: nat)
    requires Inv(s) && Leads(s, a, s') && s.running == Process(i) && i < MAX_PROC && |s.pcs| == MAX_PROC
    requires s.pcs[i] != Client
    ensures Shape(s) && Shape(s') && Enabled(s, a) && Next(s, a) == Ok(s') && (a == Step || a.Irq?)
  {
    LeadsInv(s, a, s');
    hide Next, LocksOk, Others, ProcOk;
  }

  /** How many of the actions from a up to c are steps of the running thread. */
  function OwnSteps(acts: seq<Action>, a: nat, c: nat): (n: nat)
    requires a <= c <= |acts|
    ensures n <= c - a
  {
    if a == c then 0 else OwnSteps(acts, a, c - 1) + (if acts[c - 1] == Step then 1 else 0)
  }

  /** In any run, a thread that has been switched to inside sleep, yield or fork_ret goes
      on running until it has returned, and has returned after at most four steps of its own. */
  lemma {:induction false} SwitchedToReturns(states: seq<State>, acts: seq<Action>, i: nat, a: nat, c: nat)
    requires IsRun(states, acts) && Inv(states[0]) && a <= c < |states| && i < MAX_PROC
    requires Inside(states[a], i) && states[a].running == Process(i) && ToGo(states[a].pcs[i]) > 0
    requires OwnSteps(acts, a, c) <= ToGo(states[a].pcs[i])
    requires forall t :: a <= t < c ==> Inside(states[t], i)
    ensures Shape(states[c]) && states[c].running == Process(i)
    ensures ToGo(states[c].pcs[i]) == ToGo(states[a].pcs[i]) - OwnSteps(acts, a, c)
    ensures states[c].pcs[i] == Client <==> OwnSteps(acts, a, c) == ToGo(states[a].pcs[i])
    decreases c
  {
    hide Inv, Leads, IsRun, Inside, ToGo, Shape;
    RunLength(states, acts);
    InsideShape(states[a], i);
    if a == c {
    } else {
      SwitchedToReturns(states, acts, i, a, c - 1);
      InsideShape(states[c - 1], i);
      RunInv(states, acts, c - 1);
      RunLeads(states, acts, c - 1);
      ReturnStep(states[c - 1], acts[c - 1], states[c], i);
    }
  }

  lemma InsideShape(s: State, i: nat)
    requires Inside(s, i)
    ensures Shape(s) && |s.pcs| == MAX_PROC && s.pcs[i] != Client
  {
  }
}
