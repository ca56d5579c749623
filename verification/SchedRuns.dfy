/** What the scheduler protocol guarantees over whole runs: lock hand-over at every
    switch, one RUNNING process, interrupt flags, wakeups, and fairness. */
module SchedRuns {
  import opened Options
  import opened Spinlock
  import opened Sched

  /** states[t + 1] is what acts[t] makes of states[t]. */
  predicate IsRun(states: seq<State>, acts: seq<Action>) {
    && |states| == |acts| + 1
    && forall t :: 0 <= t < |acts| ==> Leads(states[t], acts[t], states[t + 1])
  }

  predicate Leads(s: State, a: Action, s': State) {
    Shape(s) && Enabled(s, a) && Next(s, a) == Ok(s')
  }

  lemma LeadsInv(s: State, a: Action, s': State)
    requires Inv(s) && Leads(s, a, s')
    ensures Inv(s')
  {
    StepOk(s, a);
    hide Inv, Next, PanicOf;
  }

  /** Every state of every run from launch_first_proc satisfies the invariant. */
  lemma {:induction false} RunInv(states: seq<State>, acts: seq<Action>, t: nat)
    requires IsRun(states, acts) && Inv(states[0]) && t < |states|
    ensures Inv(states[t])
    decreases t
  {
    hide Inv, Leads;
    if t == 0 {
    } else {
      RunInv(states, acts, t - 1);
      LeadsInv(states[t - 1], acts[t - 1], states[t]);
    }
  }

  /* ---- safety ---- */

  /** At every switch_to, in either direction, ptable.lock is held, it is the only
      lock, interrupts are off, and locks and flags pass over unchanged. */
  lemma SwitchHoldsPtable(s: State, a: Action, s': State)
    requires Inv(s) && Leads(s, a, s') && s'.running != s.running
    ensures OnlyPtable(s.m) && !s.m.cpu.ifl && s'.m == s.m
    ensures forall l :: 0 < l < |s.m.locks| ==> !s.m.locks[l].locked
    ensures s.running == Scheduler || s'.running == Scheduler
  {
    assert a == Step by {
      if a != Step {
        OtherActionsKeepThread(s, a, s');
      }
    }
    if s.running == Scheduler {
      assert s.spc.Found?;
      hide Count, Others;
    } else {
      ProcessSwitches(s, s.running.i, s');
    }
    OnlyOneLock(s.m);
  }

  lemma OtherActionsKeepThread(s: State, a: Action, s': State)
    requires Leads(s, a, s') && a != Step
    ensures s'.running == s.running && s'.spc == s.spc && s'.cur == s.cur
  {
    hide Acquire, Release, Handler;
  }

  lemma ProcessSwitches(s: State, i: nat, s': State)
    requires Inv(s) && s.running == Process(i) && Leads(s, Step, s') && s'.running != s.running
    ensures OnlyPtable(s.m) && s'.m == s.m && s'.running == Scheduler
    ensures s.pcs[i].YieldSched? || s.pcs[i].SleepSched?
  {
    ProcFacts(s, i);
    hide Acquire, Release, Count, Others, Inv;
    assert s.pcs[i].YieldSched? || s.pcs[i].SleepSched?;
    hide ProcStep;
    ProcessStepOk(s, i);
    SwitchResult(s, i);
  }

  /** Where a thread that calls sched resumes. */
  function AfterSwitch(pc: Pc, saved: bool): Pc {
    match pc
    case SleepSched(ch, lk, b) => SleepBack(ch, lk, b, saved)
    case YieldSched(b) => YieldBack(b, saved)
    case _ => pc
  }

  /** A successful sched changes only the running thread and one program counter. */
  lemma SwitchResult(s: State, i: nat)
    requires Inv(s) && s.running == Process(i) && (s.pcs[i].YieldSched? || s.pcs[i].SleepSched?) && ProcStep(s, i).Ok?
    ensures OnlyPtable(s.m)
    ensures ProcStep(s, i).value == SetPc(s.(running := Scheduler), i, AfterSwitch(s.pcs[i], s.m.cpu.intena))
  {
    ProcFacts(s, i);
    match s.pcs[i]
    case YieldSched(b) =>
      ToSchedulerOk(s, i, saved => YieldBack(b, saved));
      hide ToScheduler, Inv, Count, Others;
    case SleepSched(ch, lk, b) =>
      ToSchedulerOk(s, i, saved => SleepBack(ch, lk, b, saved));
      hide ToScheduler, Inv, Count, Others;
  }

  lemma OnlyOneLock(m: Machine)
    requires LocksOk(m) && |m.locks| > 0 && OnlyPtable(m)
    ensures !m.cpu.ifl && forall l :: 0 < l < |m.locks| ==> !m.locks[l].locked
  {
    forall l | 0 < l < |m.locks| ensures !m.locks[l].locked {
      if m.locks[l].locked {
        CountTwo(m.locks, PTABLE, l);
      }
    }
  }

  /** At most one process is RUNNING, and it is the one that runs or is about to. */
  lemma AtMostOneRunning(s: State, i: nat, j: nat)
    requires Inv(s) && i < MAX_PROC && j < MAX_PROC && s.procs[i].state == RUNNING && s.procs[j].state == RUNNING
    ensures i == j && s.cur == Process(i)
  {
    assert !Suspended(s.procs[i], s.pcs[i], |s.m.locks|) && !Suspended(s.procs[j], s.pcs[j], |s.m.locks|);
    hide Count;
  }

  /* ---- whole operations ---- */

  /** Several actions in a row; Spin if one of them is not enabled. */
  function RunAll(s: State, acts: seq<Action>): Outcome<State>
    decreases |acts|, 0
  {
    if acts == [] then Ok(s)
    else if !Shape(s) || !Enabled(s, acts[0]) then Spin
    else GoOn(Next(s, acts[0]), acts[1..])
  }

  function GoOn(o: Outcome<State>, acts: seq<Action>): Outcome<State>
    decreases |acts|, 1
  {
    match o
    case Panic(k) => Panic(k)
    case Spin => Spin
    case Ok(s') => RunAll(s', acts)
  }

  lemma RunAllCons(s: State, a: Action, acts: seq<Action>)
    requires Shape(s) && Enabled(s, a)
    ensures RunAll(s, [a] + acts) == GoOn(Next(s, a), acts)
  {
    assert ([a] + acts)[1..] == acts;
    hide Next;
  }

  lemma RunAllNil(s: State)
    ensures RunAll(s, []) == Ok(s)
  {
  }

  /** yield: it gets through to the scheduler exactly when the process holds no lock.
      With ptable.lock held acquire panics, with other locks held sched does. */
  lemma YieldSwitchesIff(s: State, i: nat)
    requires Inv(s) && s.running == Process(i) && s.pcs[i] == Client
    ensures
      var flag := s.m.cpu.ifl;
      RunAll(s, [Enter(DoYield), Step, Step]) ==
        if s.m.locks[PTABLE].locked then Panic(AcquirePanic)
        else if s.m.cpu.ncli != 0 then Panic(SchedLocks)
        else Ok(s.(m := Machine(Cpu(false, 1, flag), s.m.locks[PTABLE := HELD]),
                   procs := s.procs[i := Proc(RUNNABLE, s.procs[i].chan)],
                   pcs := s.pcs[i := YieldBack(flag, flag)],
                   running := Scheduler))
  {
    hide Inv, LocksOk, RunAll, GoOn, Next, Enabled;
    var b := OuterFlag(s.m);
    YieldCalled(s, i);
    RunAllCons(s, Enter(DoYield), [Step, Step]);
    assert [Enter(DoYield)] + [Step, Step] == [Enter(DoYield), Step, Step];
    if s.m.locks[PTABLE].locked {
      GoOnPanics(AcquirePanic, [Step, Step]);
    } else {
      var s1 := SetPc(s.(m := Machine(Cpu(false, s.m.cpu.ncli + 1, b), s.m.locks[PTABLE := HELD])), i, YieldMark(b));
      GoOnCases(s1, [Step, Step]);
      YieldMarked(s1, i, b);
      var s2 := SetPc(SetProc(s1, i, Proc(RUNNABLE, s1.procs[i].chan)), i, YieldSched(b));
      RunAllCons(s1, Step, [Step]);
      GoOnCases(s2, [Step]);
      assert [Step] + [Step] == [Step, Step];
      YieldScheduled(s2, i, b);
      RunAllCons(s2, Step, []);
      assert [Step] + [] == [Step];
      if s.m.cpu.ncli != 0 {
        GoOnPanics(SchedLocks, []);
      } else {
        var s3 := SetPc(s2.(running := Scheduler), i, YieldBack(b, b));
        GoOnCases(s3, []);
        RunAllNil(s3);
        assert s3.pcs == s.pcs[i := YieldBack(b, b)];
      }
    }
  }

  lemma YieldCalled(s: State, i: nat)
    requires Inv(s) && s.running == Process(i) && s.pcs[i] == Client
    ensures Shape(s) && i < MAX_PROC && |s.pcs| == MAX_PROC && |s.procs| == MAX_PROC && PTABLE < |s.m.locks|
    ensures Enabled(s, Enter(DoYield)) && s.m.cpu.ncli >= 0
    ensures s.m.locks[PTABLE].locked ==> Next(s, Enter(DoYield)) == Panic(AcquirePanic)
    ensures !s.m.locks[PTABLE].locked ==>
      var b := OuterFlag(s.m);
      var s1 := SetPc(s.(m := Machine(Cpu(false, s.m.cpu.ncli + 1, b), s.m.locks[PTABLE := HELD])), i, YieldMark(b));
      Next(s, Enter(DoYield)) == Ok(s1) && Inv(s1) && s1.running == Process(i) && s1.pcs[i] == YieldMark(b)
  {
    ProcFacts(s, i);
    LockingOk(s, PTABLE, i, YieldMark(OuterFlag(s.m)));
    StepOk(s, Enter(DoYield));
    hide Locking, Inv, Others, ProcOk;
  }

  lemma YieldMarked(s: State, i: nat, b: bool)
    requires Inv(s) && s.running == Process(i) && s.pcs[i] == YieldMark(b)
    ensures Shape(s) && i < MAX_PROC && |s.pcs| == MAX_PROC && |s.procs| == MAX_PROC && Enabled(s, Step)
    ensures
      var s' := SetPc(SetProc(s, i, Proc(RUNNABLE, s.procs[i].chan)), i, YieldSched(b));
      Next(s, Step) == Ok(s') && Inv(s') && s'.running == Process(i) && s'.pcs[i] == YieldSched(b)
  {
    ProcFacts(s, i);
    StepOk(s, Step);
    hide Inv, Others, LocksOk;
  }

  lemma YieldScheduled(s: State, i: nat, b: bool)
    requires Inv(s) && s.running == Process(i) && s.pcs[i] == YieldSched(b)
    ensures Shape(s) && i < MAX_PROC && |s.pcs| == MAX_PROC && Enabled(s, Step)
    ensures Next(s, Step) ==
      if s.m.cpu.ncli != 1 then Panic(SchedLocks) else Ok(SetPc(s.(running := Scheduler), i, YieldBack(b, b)))
  {
    ProcFacts(s, i);
    ToSchedulerOk(s, i, saved => YieldBack(b, saved));
    hide ToScheduler, Inv, Others, LocksOk;
  }

  /** sleep with a lock other than ptable.lock: it gets through to the scheduler exactly
      when the process holds that lock and no other. It is then SLEEPING on its channel,
      has let go of the lock, and remembers the interrupt flag that the lock had saved. */
  lemma SleepSwitchesIff(s: State, i: nat, ch: nat, lk: nat)
    requires Inv(s) && s.running == Process(i) && s.pcs[i] == Client && 0 < lk < |s.m.locks|
    ensures
      var flag := s.m.cpu.intena;
      RunAll(s, [Enter(DoSleep(ch, Some(lk))), Step, Step, Step]) ==
        if s.m.locks[PTABLE].locked then Panic(AcquirePanic)
        else if !s.m.locks[lk].locked then Panic(ReleasePanic)
        else if s.m.cpu.ncli != 1 then Panic(SchedLocks)
        else Ok(s.(m := Machine(Cpu(false, 1, flag), s.m.locks[PTABLE := HELD][lk := FREE]),
                   procs := s.procs[i := Proc(SLEEPING, ch)],
                   pcs := s.pcs[i := SleepBack(ch, lk, flag, flag)],
                   running := Scheduler))
  {
    hide *;
    var b := OuterFlag(s.m);
    var call := Enter(DoSleep(ch, Some(lk)));
    SleepCalled(s, i, ch, lk);
    RunAllCons(s, call, [Step, Step, Step]);
    assert [call] + [Step, Step, Step] == [call, Step, Step, Step];
    if !s.m.locks[PTABLE].locked {
      var s1 := Locking(s, PTABLE, i, SleepUnlock(ch, lk, b)).value;
      SleepUnlocks(s1, i, ch, lk, b);
      RunAllCons(s1, Step, [Step, Step]);
      assert [Step] + [Step, Step] == [Step, Step, Step];
      GoOnCases(s1, [Step, Step, Step]);
      if s.m.locks[lk].locked {
        SleepFinish(s, s1, i, ch, lk, b);
      } else {
        GoOnPanics(ReleasePanic, [Step, Step]);
      }
    } else {
      GoOnPanics(AcquirePanic, [Step, Step, Step]);
    }
  }

  lemma GoOnCases(s: State, acts: seq<Action>)
    ensures GoOn(Ok(s), acts) == RunAll(s, acts)
  {
    hide RunAll;
  }

  lemma GoOnPanics(k: PanicKind, acts: seq<Action>)
    ensures GoOn(Panic(k), acts) == Panic(k)
  {
  }

  lemma SleepCalled(s: State, i: nat, ch: nat, lk: nat)
    requires Inv(s) && s.running == Process(i) && s.pcs[i] == Client && 0 < lk < |s.m.locks|
    ensures Shape(s) && i < MAX_PROC && |s.pcs| == MAX_PROC && Enabled(s, Enter(DoSleep(ch, Some(lk)))) && PTABLE == 0
    ensures s.m.locks[PTABLE].locked ==> Next(s, Enter(DoSleep(ch, Some(lk)))) == Panic(AcquirePanic)
    ensures s.m.locks[lk].locked ==> s.m.cpu.ncli >= 1 && OuterFlag(s.m) == s.m.cpu.intena
    ensures !s.m.locks[PTABLE].locked ==>
      var b := OuterFlag(s.m);
      var r := Locking(s, PTABLE, i, SleepUnlock(ch, lk, b));
      && Next(s, Enter(DoSleep(ch, Some(lk)))) == r && r.Ok? && Inv(r.value) && r.value.running == Process(i)
      && r.value == SetPc(s.(m := Machine(Cpu(false, s.m.cpu.ncli + 1, b), s.m.locks[PTABLE := HELD])), i,
          SleepUnlock(ch, lk, b))
      && r.value.pcs[i] == SleepUnlock(ch, lk, b) && r.value.m.locks[lk] == s.m.locks[lk] && lk < |r.value.m.locks|
  {
    ProcFacts(s, i);
    LockingOk(s, PTABLE, i, SleepUnlock(ch, lk, OuterFlag(s.m)));
    StepOk(s, Enter(DoSleep(ch, Some(lk))));
    if s.m.locks[lk].locked {
      HeldCounts(s.m, lk);
    }
    hide Locking, Inv, LocksOk, Others, ProcOk;
  }

  lemma SleepUnlocks(s: State, i: nat, ch: nat, lk: nat, b: bool)
    requires Inv(s) && s.running == Process(i) && s.pcs[i] == SleepUnlock(ch, lk, b) && lk < |s.m.locks|
    ensures Shape(s) && Enabled(s, Step)
    ensures !s.m.locks[lk].locked ==> Next(s, Step) == Panic(ReleasePanic)
  {
    ProcFacts(s, i);
    StepOk(s, Step);
    hide Next, Inv, LocksOk, Others, ProcOk;
  }

  lemma SleepFinish(s: State, s1: State, i: nat, ch: nat, lk: nat, b: bool)
    requires Shape(s) && i < MAX_PROC && 0 < lk < |s.m.locks| && s.m.cpu.ncli >= 1
    requires Inv(s1) && s1.running == Process(i) && s1.pcs[i] == SleepUnlock(ch, lk, b) && lk < |s1.m.locks|
      && s1.m.locks[lk].locked
    requires s1 == SetPc(s.(m := Machine(Cpu(false, s.m.cpu.ncli + 1, b), s.m.locks[PTABLE := HELD])), i,
      SleepUnlock(ch, lk, b))
    ensures RunAll(s1, [Step, Step, Step]) ==
      if s.m.cpu.ncli != 1 then Panic(SchedLocks)
      else Ok(s.(m := Machine(Cpu(false, 1, b), s.m.locks[PTABLE := HELD][lk := FREE]),
                 procs := s.procs[i := Proc(SLEEPING, ch)],
                 pcs := s.pcs[i := SleepBack(ch, lk, b, b)],
                 running := Scheduler))
  {
    hide Inv, RunAll, GoOn, Next, Enabled;
    SleepUnlocked(s1, i, ch, lk, b);
    var s2 := SetPc(s1.(m := Machine(Cpu(false, s1.m.cpu.ncli - 1, b), s1.m.locks[lk := FREE])), i,
        SleepMark(ch, lk, b));
    RunAllCons(s1, Step, [Step, Step]);
    GoOnCases(s2, [Step, Step]);
    assert [Step] + [Step, Step] == [Step, Step, Step];
    SleepMarked(s2, i, ch, lk, b);
    var s3 := SetPc(SetProc(s2, i, Proc(SLEEPING, ch)), i, SleepSched(ch, lk, b));
    RunAllCons(s2, Step, [Step]);
    GoOnCases(s3, [Step]);
    assert [Step] + [Step] == [Step, Step];
    SleepScheduled(s3, i, ch, lk, b);
    RunAllCons(s3, Step, []);
    assert [Step] + [] == [Step];
    if s.m.cpu.ncli == 1 {
      var s4 := SetPc(s3.(running := Scheduler), i, SleepBack(ch, lk, b, b));
      GoOnCases(s4, []);
      RunAllNil(s4);
      SleepDone(s, s1, s2, s3, s4, i, ch, lk, b);
    } else {
      GoOnPanics(SchedLocks, []);
    }
  }

  lemma SleepUnlocked(s: State, i: nat, ch: nat, lk: nat, b: bool)
    requires Inv(s) && s.running == Process(i) && s.pcs[i] == SleepUnlock(ch, lk, b) && lk < |s.m.locks|
      && s.m.locks[lk].locked
    requires s.m.cpu.ncli >= 2
    ensures Shape(s) && i < MAX_PROC && |s.pcs| == MAX_PROC && Enabled(s, Step)
    ensures
      var s' := SetPc(s.(m := Machine(Cpu(false, s.m.cpu.ncli - 1, b), s.m.locks[lk := FREE])), i,
          SleepMark(ch, lk, b));
      Next(s, Step) == Ok(s') && Inv(s') && s'.running == Process(i) && s'.pcs[i] == SleepMark(ch, lk, b)
  {
    ProcFacts(s, i);
    StepOk(s, Step);
    UnlockingOk(s, lk, i, SleepMark(ch, lk, b));
    hide Unlocking, Inv, Others, LocksOk;
  }

  lemma SleepMarked(s: State, i: nat, ch: nat, lk: nat, b: bool)
    requires Inv(s) && s.running == Process(i) && s.pcs[i] == SleepMark(ch, lk, b)
    ensures Shape(s) && i < MAX_PROC && |s.pcs| == MAX_PROC && |s.procs| == MAX_PROC && Enabled(s, Step)
    ensures
      var s' := SetPc(SetProc(s, i, Proc(SLEEPING, ch)), i, SleepSched(ch, lk, b));
      Next(s, Step) == Ok(s') && Inv(s') && s'.running == Process(i) && s'.pcs[i] == SleepSched(ch, lk, b)
  {
    ProcFacts(s, i);
    StepOk(s, Step);
    hide Inv, Others, LocksOk;
  }

  lemma SleepScheduled(s: State, i: nat, ch: nat, lk: nat, b: bool)
    requires Inv(s) && s.running == Process(i) && s.pcs[i] == SleepSched(ch, lk, b)
    requires s.m.locks[PTABLE].locked ==> s.m.cpu.intena == b
    ensures Shape(s) && i < MAX_PROC && |s.pcs| == MAX_PROC && Enabled(s, Step)
    ensures Next(s, Step) ==
      if !s.m.locks[PTABLE].locked then Panic(SchedPtable)
      else if s.m.cpu.ncli != 1 then Panic(SchedLocks)
      else Ok(SetPc(s.(running := Scheduler), i, SleepBack(ch, lk, b, b)))
  {
    ProcFacts(s, i);
    ToSchedulerOk(s, i, saved => SleepBack(ch, lk, b, saved));
    hide ToScheduler, Inv, Others, LocksOk;
  }

  lemma SleepDone(s: State, s1: State, s2: State, s3: State, s4: State, i: nat, ch: nat, lk: nat, b: bool)
    requires Shape(s) && i < MAX_PROC && 0 < lk < |s.m.locks| && s.m.cpu.ncli == 1
    requires s1 == SetPc(s.(m := Machine(Cpu(false, 2, b), s.m.locks[PTABLE := HELD])), i, SleepUnlock(ch, lk, b))
    requires s2 == SetPc(s1.(m := Machine(Cpu(false, 1, b), s1.m.locks[lk := FREE])), i, SleepMark(ch, lk, b))
    requires s3 == SetPc(SetProc(s2, i, Proc(SLEEPING, ch)), i, SleepSched(ch, lk, b))
    requires s4 == SetPc(s3.(running := Scheduler), i, SleepBack(ch, lk, b, b))
    ensures s4 == s.(m := Machine(Cpu(false, 1, b), s.m.locks[PTABLE := HELD][lk := FREE]),
                     procs := s.procs[i := Proc(SLEEPING, ch)],
                     pcs := s.pcs[i := SleepBack(ch, lk, b, b)],
                     running := Scheduler)
  {
    assert s4.pcs == s.pcs[i := SleepBack(ch, lk, b, b)];
  }

  /** sleep with ptable.lock itself: acquire and release are skipped, and sched decides.
      It gets through to the scheduler exactly when the process holds ptable.lock and no
      other lock, and then ptable.lock stays held. */
  lemma SleepUnderPtableIff(s: State, i: nat, ch: nat)
    requires Inv(s) && s.running == Process(i) && s.pcs[i] == Client
    ensures
      var flag := s.m.cpu.intena;
      RunAll(s, [Enter(DoSleep(ch, Some(PTABLE))), Step, Step]) ==
        if !s.m.locks[PTABLE].locked then Panic(SchedPtable)
        else if s.m.cpu.ncli != 1 then Panic(SchedLocks)
        else Ok(s.(procs := s.procs[i := Proc(SLEEPING, ch)],
                   pcs := s.pcs[i := SleepBack(ch, PTABLE, flag, flag)],
                   running := Scheduler))
  {
    hide Inv, LocksOk, RunAll, GoOn, Next, Enabled;
    var b := OuterFlag(s.m);
    var call := Enter(DoSleep(ch, Some(PTABLE)));
    UnderPtableCalled(s, i, ch);
    var s1 := SetPc(s, i, SleepMark(ch, PTABLE, b));
    RunAllCons(s, call, [Step, Step]);
    GoOnCases(s1, [Step, Step]);
    assert [call] + [Step, Step] == [call, Step, Step];
    SleepMarked(s1, i, ch, PTABLE, b);
    var s2 := SetPc(SetProc(s1, i, Proc(SLEEPING, ch)), i, SleepSched(ch, PTABLE, b));
    RunAllCons(s1, Step, [Step]);
    GoOnCases(s2, [Step]);
    assert [Step] + [Step] == [Step, Step];
    SleepScheduled(s2, i, ch, PTABLE, b);
    RunAllCons(s2, Step, []);
    assert [Step] + [] == [Step];
    if !s.m.locks[PTABLE].locked {
      GoOnPanics(SchedPtable, []);
    } else if s.m.cpu.ncli != 1 {
      GoOnPanics(SchedLocks, []);
    } else {
      var s3 := SetPc(s2.(running := Scheduler), i, SleepBack(ch, PTABLE, b, b));
      GoOnCases(s3, []);
      RunAllNil(s3);
      UnderPtableDone(s, i, ch, b);
    }
  }

  lemma UnderPtableCalled(s: State, i: nat, ch: nat)
    requires Inv(s) && s.running == Process(i) && s.pcs[i] == Client
    ensures Shape(s) && i < MAX_PROC && |s.pcs| == MAX_PROC && |s.procs| == MAX_PROC && PTABLE < |s.m.locks|
    ensures Enabled(s, Enter(DoSleep(ch, Some(PTABLE))))
    ensures
      var s1 := SetPc(s, i, SleepMark(ch, PTABLE, OuterFlag(s.m)));
      && Next(s, Enter(DoSleep(ch, Some(PTABLE)))) == Ok(s1) && Inv(s1)
      && s1.running == Process(i) && s1.pcs[i] == SleepMark(ch, PTABLE, OuterFlag(s.m))
    ensures s.m.locks[PTABLE].locked ==> OuterFlag(s.m) == s.m.cpu.intena
  {
    ProcFacts(s, i);
    StepOk(s, Enter(DoSleep(ch, Some(PTABLE))));
    if s.m.locks[PTABLE].locked {
      HeldCounts(s.m, PTABLE);
    }
    hide Inv, LocksOk, Others, ProcOk;
  }

  lemma UnderPtableDone(s: State, i: nat, ch: nat, b: bool)
    requires i < MAX_PROC && |s.pcs| == MAX_PROC && |s.procs| == MAX_PROC
    ensures
      var s2 := SetPc(SetProc(SetPc(s, i, SleepMark(ch, PTABLE, b)), i, Proc(SLEEPING, ch)), i,
          SleepSched(ch, PTABLE, b));
      SetPc(s2.(running := Scheduler), i, SleepBack(ch, PTABLE, b, b)) ==
        s.(procs := s.procs[i := Proc(SLEEPING, ch)], pcs := s.pcs[i := SleepBack(ch, PTABLE, b, b)],
            running := Scheduler)
  {
    var pcs := s.pcs[i := SleepMark(ch, PTABLE, b)][i := SleepSched(ch, PTABLE, b)][i := SleepBack(ch, PTABLE, b, b)];
    assert pcs == s.pcs[i := SleepBack(ch, PTABLE, b, b)];
  }

  /* ---- interrupt flags across a switch ---- */

  predicate InYield(pc: Pc, b: bool) {
    (pc.YieldMark? || pc.YieldSched? || pc.YieldBack? || pc.YieldRelease?) && pc.flag == b
  }

  /** Back from yield: no lock held, and the caller's flag is in force again. */
  predicate YieldReturned(s: State, i: nat, b: bool)
    requires Shape(s) && i < MAX_PROC
  {
    s.running == Process(i) && s.pcs[i] == Client && s.m.cpu == Cpu(b, 0, b)
  }

  /** What an action leaves alone. */
  predicate OthersStay(s: State, s': State)
    requires Shape(s)
  {
    && Shape(s') && |s'.m.locks| == |s.m.locks|
    && forall j :: 0 <= j < MAX_PROC && s.running != Process(j) ==> s'.pcs[j] == s.pcs[j]
  }

  lemma ProcStepStays(s: State, i: nat)
    requires Inv(s) && s.running == Process(i) && ProcStep(s, i).Ok?
    ensures OthersStay(s, ProcStep(s, i).value)
  {
    ProcFacts(s, i);
    if s.pcs[i].YieldSched? || s.pcs[i].SleepSched? {
      SwitchResult(s, i);
      hide ProcStep, Inv, LocksOk;
    } else {
      hide Inv, Others, LocksOk, ProcOk;
      LocalStepStays(s, i);
    }
  }

  lemma LocalStepStays(s: State, i: nat)
    requires Shape(s) && i < MAX_PROC && s.running == Process(i) && s.cur == Process(i) && ProcStep(s, i).Ok?
    requires !s.pcs[i].YieldSched? && !s.pcs[i].SleepSched?
    ensures OthersStay(s, ProcStep(s, i).value)
  {
    hide Locking, Unlocking, ToScheduler;
    LockingStays(s, i);
  }

  lemma LockingStays(s: State, i: nat)
    requires Shape(s) && i < MAX_PROC
    ensures forall l, pc :: 0 <= l < |s.m.locks| && Locking(s, l, i, pc).Ok? ==>
      Locking(s, l, i, pc).value == SetPc(s.(m := Locking(s, l, i, pc).value.m), i, pc)
        && |Locking(s, l, i, pc).value.m.locks| == |s.m.locks|
    ensures forall l, pc :: 0 <= l < |s.m.locks| && Unlocking(s, l, i, pc).Ok? ==>
      Unlocking(s, l, i, pc).value == SetPc(s.(m := Unlocking(s, l, i, pc).value.m), i, pc)
        && |Unlocking(s, l, i, pc).value.m.locks| == |s.m.locks|
  {
  }

  lemma LeadsShape(s: State, a: Action, s': State)
    requires Inv(s) && Leads(s, a, s')
    ensures Shape(s) && OthersStay(s, s')
    ensures a.Irq? ==> s'.pcs == s.pcs && s'.running == s.running
  {
    hide LocksOk, Others, AllSuspended, ProcOk, Handler, CallStep, ProcStep, SchedStep;
    match a
    case Irq(l, ch) =>
      HandlerOk(s.m, s.procs, l, ch);
    case Enter(call) =>
      CallStays(s, s.running.i, call);
    case Step =>
      if s.running == Scheduler {
        SchedStepStays(s);
      } else {
        ProcStepStays(s, s.running.i);
      }
  }

  lemma CallStays(s: State, i: nat, call: Call)
    requires Shape(s) && s.running == Process(i) && CallStep(s, i, call).Ok?
    ensures OthersStay(s, CallStep(s, i, call).value)
  {
    hide Locking, Unlocking;
    LockingStays(s, i);
  }

  /** Calls change no process's state and switch no thread. */
  lemma CallLeavesProcs(s: State, i: nat, call: Call)
    requires Shape(s) && s.running == Process(i) && CallStep(s, i, call).Ok?
    ensures CallStep(s, i, call).value.procs == s.procs && CallStep(s, i, call).value.running == s.running
  {
    hide Locking, Unlocking;
    LockingStays(s, i);
  }

  lemma SchedStepStays(s: State)
    requires Shape(s) && s.running == Scheduler && SchedStep(s).Ok? && LocksOk(s.m)
    ensures OthersStay(s, SchedStep(s).value)
  {
    AcquireOk(s.m, PTABLE);
    ReleaseOk(s.m, PTABLE);
    hide Acquire, Release, LocksOk;
  }

  lemma YieldStep(s: State, a: Action, s': State, i: nat, b: bool)
    requires Inv(s) && Leads(s, a, s') && i < MAX_PROC && InYield(s.pcs[i], b)
    ensures Shape(s') && (InYield(s'.pcs[i], b) || YieldReturned(s', i, b))
  {
    LeadsShape(s, a, s');
    if s.running == Process(i) && a == Step {
      ProcFacts(s, i);
      hide Locking, Unlocking, ToScheduler, Inv, Others, LocksOk;
      match s.pcs[i]
      case YieldMark(_) =>
      case YieldSched(_) => SwitchResult(s, i);
      case YieldBack(_, _) =>
      case YieldRelease(_) => UnlockingOk(s, PTABLE, i, Client);
    }
  }

  /** Process i is in the middle of one of the functions. */
  predicate Inside(s: State, i: nat) {
    Shape(s) && i < MAX_PROC && s.pcs[i] != Client
  }

  /** yield returns with the caller's interrupt flag, whatever other threads and
      interrupt handlers did to intena in between. */
  lemma {:induction false} YieldRestoresFlag(states: seq<State>, acts: seq<Action>, i: nat, n: nat)
    requires IsRun(states, acts) && Inv(states[0]) && 0 < n < |states|
    requires states[0].running == Process(i) && states[0].pcs[i] == Client && states[0].m.cpu.ncli == 0
    requires acts[0] == Enter(DoYield)
    requires forall t :: 0 < t < n ==> Inside(states[t], i)
    ensures Shape(states[n])
    ensures InYield(states[n].pcs[i], states[0].m.cpu.ifl) || YieldReturned(states[n], i, states[0].m.cpu.ifl)
    decreases n
  {
    var b := states[0].m.cpu.ifl;
    RunInv(states, acts, n - 1);
    assert Leads(states[n - 1], acts[n - 1], states[n]);
    LeadsShape(states[n - 1], acts[n - 1], states[n]);
    if n == 1 {
      ProcFacts(states[0], i);
      LockingOk(states[0], PTABLE, i, YieldMark(b));
      hide Inv, Locking, IsRun, LocksOk;
    } else {
      YieldRestoresFlag(states, acts, i, n - 1);
      hide Inv, Leads, IsRun;
      YieldStep(states[n - 1], acts[n - 1], states[n], i, b);
    }
  }

  predicate InSleep(pc: Pc, lk: nat, b: bool) {
    (pc.SleepUnlock? || pc.SleepMark? || pc.SleepSched? || pc.SleepBack? || pc.SleepClear? || pc.SleepRelease?
        || pc.SleepLock?)
    && pc.lk == lk && pc.flag == b
  }

  /** Back from sleep: exactly lk is held again, and intena remembers the flag that it
      remembered before. */
  predicate SleepReturned(s: State, i: nat, lk: nat, b: bool)
    requires Shape(s) && i < MAX_PROC
  {
    s.running == Process(i) && s.pcs[i] == Client && lk < |s.m.locks| && s.m.locks[lk].locked
      && s.m.cpu == Cpu(false, 1, b)
  }

  lemma SleepStep(s: State, a: Action, s': State, i: nat, lk: nat, b: bool)
    requires Inv(s) && Leads(s, a, s') && i < MAX_PROC && InSleep(s.pcs[i], lk, b)
    ensures Shape(s') && (InSleep(s'.pcs[i], lk, b) || SleepReturned(s', i, lk, b))
  {
    LeadsShape(s, a, s');
    if s.running == Process(i) && a == Step {
      ProcFacts(s, i);
      match s.pcs[i] {
        case SleepUnlock(ch, _, _) =>
          UnlockingOk(s, lk, i, SleepMark(ch, lk, b));
          hide Locking, Unlocking, ToScheduler, Inv, Others, LocksOk;
        case SleepSched(_, _, _) =>
          SwitchResult(s, i);
          hide Locking, Unlocking, ToScheduler, Inv, Others, LocksOk;
        case SleepRelease(_, _) =>
          UnlockingOk(s, PTABLE, i, SleepLock(lk, b));
          hide Locking, Unlocking, ToScheduler, Inv, Others, LocksOk;
        case SleepLock(_, _) =>
          LockingOk(s, lk, i, Client);
          CountZero(s.m.locks, lk);
          hide Locking, Unlocking, ToScheduler, Inv, Others, LocksOk;
        case SleepClear(_, _) =>
          OnlyOneLock(s.m);
          hide Locking, Unlocking, ToScheduler, Inv, Others, LocksOk;
        case _ =>
          hide Locking, Unlocking, ToScheduler, Inv, Others, LocksOk;
      }
    }
  }

  /** sleep returns with the same lock held and the same flag remembered. */
  lemma {:induction false} SleepRestoresLock(states: seq<State>, acts: seq<Action>, i: nat, n: nat, ch: nat, lk: nat)
    requires IsRun(states, acts) && Inv(states[0]) && 0 < n < |states|
    requires states[0].running == Process(i) && states[0].pcs[i] == Client && lk < |states[0].m.locks|
    requires states[0].m.cpu.ncli == 1 && states[0].m.locks[lk].locked
    requires acts[0] == Enter(DoSleep(ch, Some(lk)))
    requires forall t :: 0 < t < n ==> Inside(states[t], i)
    ensures Shape(states[n])
    ensures InSleep(states[n].pcs[i], lk, states[0].m.cpu.intena)
      || SleepReturned(states[n], i, lk, states[0].m.cpu.intena)
    decreases n
  {
    var b := states[0].m.cpu.intena;
    RunInv(states, acts, n - 1);
    assert Leads(states[n - 1], acts[n - 1], states[n]);
    LeadsShape(states[n - 1], acts[n - 1], states[n]);
    if n == 1 {
      ProcFacts(states[0], i);
      LockingOk(states[0], PTABLE, i, SleepUnlock(ch, lk, b));
      hide Inv, Locking, IsRun, LocksOk;
    } else {
      SleepRestoresLock(states, acts, i, n - 1, ch, lk);
      hide Inv, Leads, IsRun;
      SleepStep(states[n - 1], acts[n - 1], states[n], i, lk, b);
    }
  }
}
