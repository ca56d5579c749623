/** sleep and wakeup over whole runs: what one wakeup does, and that none is lost. */
module Wakeups {
  import opened Options
  import opened Spinlock
  import opened Sched
  import opened SchedRuns

  /* ---- one wakeup ---- */

  function Steps(n: nat): (r: seq<Action>)
    ensures |r| == n
  {
    seq(n, _ => Step)
  }

  lemma StepsCons(n: nat)
    requires n > 0
    ensures Steps(n) == [Step] + Steps(n - 1)
  {
  }

  /** The table with the entries from k on woken. */
  function WokenFrom(procs: seq<Proc>, k: nat, ch: nat): (r: seq<Proc>)
    requires k <= |procs|
    ensures |r| == |procs|
  {
    procs[..k] + WakeAll(procs[k..], ch)
  }

  lemma WokenStep(procs: seq<Proc>, k: nat, ch: nat)
    requires k < |procs|
    ensures WokenFrom(procs[k := Wake(procs[k], ch)], k + 1, ch) == WokenFrom(procs, k, ch)
  {
    var q := procs[k := Wake(procs[k], ch)];
    assert q[k + 1..] == procs[k + 1..];
    assert procs[k..][0] == procs[k];
    forall x | 0 <= x < |procs| ensures WokenFrom(q, k + 1, ch)[x] == WokenFrom(procs, k, ch)[x] {
    }
  }

  lemma {:induction false} ScanRuns(s: State, i: nat, ch: nat, k: nat)
    requires Inv(s) && s.running == Process(i) && s.pcs[i] == WakeScan(ch, k)
    ensures k <= MAX_PROC
    ensures
      var s' := s.(procs := WokenFrom(s.procs, k, ch), pcs := s.pcs[i := WakeRelease]);
      Inv(s') && RunAll(s, Steps(MAX_PROC - k + 1)) == Ok(s')
    decreases MAX_PROC - k
  {
    ProcFacts(s, i);
    StepOk(s, Step);
    StepsCons(MAX_PROC - k + 1);
    RunAllCons(s, Step, Steps(MAX_PROC - k));
    var s1 := ProcStep(s, i).value;
    assert Next(s, Step) == Ok(s1) && Inv(s1);
    if k == MAX_PROC {
      assert s1 == SetPc(s, i, WakeRelease);
      assert WokenFrom(s.procs, k, ch) == s.procs;
      hide RunAll, Inv, ProcOk, LocksOk, Next;
      assert Steps(0) == [];
      RunAllNil(s1);
    } else {
      assert s1 == SetPc(SetProc(s, k, Wake(s.procs[k], ch)), i, WakeScan(ch, k + 1));
      hide RunAll, Inv, ProcOk, LocksOk, Next;
      WokenStep(s.procs, k, ch);
      ScanRuns(s1, i, ch, k + 1);
      assert s1.pcs[i := WakeRelease] == s.pcs[i := WakeRelease];
    }
  }

  /** wakeup, called without ptable.lock, cannot be interrupted and makes exactly the
      processes that sleep on the channel RUNNABLE; nothing else in the table, no lock
      and no flag changes (with no lock held, intena takes the value of the flag). */
  lemma WakeupEffect(s: State, i: nat, ch: nat)
    requires Inv(s) && s.running == Process(i) && s.pcs[i] == Client && !s.m.locks[PTABLE].locked
    ensures RunAll(s, [Enter(DoWakeup(ch))] + Steps(MAX_PROC + 2)) ==
      Ok(s.(m := Machine(Cpu(s.m.cpu.ifl, s.m.cpu.ncli, OuterFlag(s.m)), s.m.locks), procs := WakeAll(s.procs, ch)))
    ensures Awakened(s.procs, WakeAll(s.procs, ch), ch)
  {
    hide *;
    WakeAllAwakens(s.procs, ch);
    WakeupFirst(s, i, ch);
    var s1 := Locking(s, PTABLE, i, WakeScan(ch, 0)).value;
    RunAllCons(s, Enter(DoWakeup(ch)), Steps(MAX_PROC + 2));
    GoOnCases(s1, Steps(MAX_PROC + 2));
    ScanRuns(s1, i, ch, 0);
    WokenFromStart(s.procs, ch);
    var s2 := s1.(procs := WakeAll(s.procs, ch), pcs := s1.pcs[i := WakeRelease]);
    StepsSnoc(MAX_PROC + 1);
    RunAllConcat(s1, Steps(MAX_PROC + 1), [Step]);
    assert s1.pcs[i := WakeRelease] == s.pcs[i := WakeRelease];
    WakeupLast(s, s2, i);
  }

  lemma WakeupFirst(s: State, i: nat, ch: nat)
    requires Inv(s) && s.running == Process(i) && s.pcs[i] == Client && !s.m.locks[PTABLE].locked
    ensures Shape(s) && i < MAX_PROC && |s.pcs| == MAX_PROC && PTABLE < |s.m.locks| && s.m.locks[PTABLE] == FREE
    ensures Enabled(s, Enter(DoWakeup(ch))) && Next(s, Enter(DoWakeup(ch))) == Locking(s, PTABLE, i, WakeScan(ch, 0))
    ensures
      var r := Locking(s, PTABLE, i, WakeScan(ch, 0));
      && r.Ok? && Inv(r.value) && r.value.running == Process(i) && r.value.pcs == s.pcs[i := WakeScan(ch, 0)]
      && r.value == s.(m := Machine(Cpu(false, s.m.cpu.ncli + 1, OuterFlag(s.m)), s.m.locks[PTABLE := HELD]),
          pcs := r.value.pcs)
  {
    ProcFacts(s, i);
    LockingOk(s, PTABLE, i, WakeScan(ch, 0));
    StepOk(s, Enter(DoWakeup(ch)));
    assert s.m.locks[PTABLE] == FREE;
    hide Locking, Inv, LocksOk, Others, ProcOk;
  }

  lemma WokenFromStart(procs: seq<Proc>, ch: nat)
    ensures WokenFrom(procs, 0, ch) == WakeAll(procs, ch)
  {
    assert procs[0..] == procs;
    hide WakeAll;
  }

  lemma StepsSnoc(n: nat)
    ensures Steps(n + 1) == Steps(n) + [Step]
  {
  }

  lemma WakeupLast(s: State, s2: State, i: nat)
    requires Inv(s) && s.running == Process(i) && s.pcs[i] == Client && s.m.locks[PTABLE] == FREE
    requires Inv(s2) && s2 == s.(m := Machine(Cpu(false, s.m.cpu.ncli + 1, OuterFlag(s.m)), s.m.locks[PTABLE := HELD]),
      procs := s2.procs, pcs := s.pcs[i := WakeRelease])
    ensures RunAll(s2, [Step]) ==
      Ok(s.(m := Machine(Cpu(s.m.cpu.ifl, s.m.cpu.ncli, OuterFlag(s.m)), s.m.locks), procs := s2.procs))
  {
    ProcFacts(s2, i);
    ProcFacts(s, i);
    UnlockingOk(s2, PTABLE, i, Client);
    assert s.m.cpu.ncli > 0 ==> !s.m.cpu.ifl;
    assert s.m.cpu.ncli >= 0;
    hide Inv, Unlocking, RunAll, LocksOk;
    var s3 := Unlocking(s2, PTABLE, i, Client).value;
    assert s3.pcs == s.pcs && s3.m.locks == s.m.locks;
    assert Next(s2, Step) == Ok(s3);
    assert [Step] == [Step] + [];
    RunAllCons(s2, Step, []);
    RunAllNil(s3);
  }

  lemma {:induction false} RunAllConcat(s: State, a: seq<Action>, b: seq<Action>)
    requires RunAll(s, a).Ok?
    ensures RunAll(s, a + b) == RunAll(RunAll(s, a).value, b)
    decreases |a|
  {
    if a == [] {
      assert a + b == b;
    } else {
      hide Next, Inv;
      assert (a + b)[1..] == a[1..] + b && (a + b)[0] == a[0];
      RunAllConcat(Next(s, a[0]).value, a[1..], b);
    }
  }

  /* ---- no wakeup is lost ---- */

  /** The process has entered sleep(ch, lk) and nobody has woken it yet: it is still on
      its way with ptable.lock held, or it is SLEEPING on ch. */
  predicate Asleep(s: State, i: nat, ch: nat)
    requires Shape(s) && i < MAX_PROC
  {
    || (s.running == Process(i) && s.m.locks[PTABLE].locked
        && (s.pcs[i].SleepUnlock? || s.pcs[i].SleepMark? || s.pcs[i].SleepSched?) && s.pcs[i].ch == ch)
    || (s.running != Process(i) && s.procs[i] == Proc(SLEEPING, ch))
  }

  /** While a process in the middle of a function holds a lock, nothing but its own next
      step can happen. */
  lemma LockHolderAlone(s: State, a: Action, i: nat, l: nat)
    requires Inv(s) && s.running == Process(i) && l < |s.m.locks| && s.m.locks[l].locked && s.pcs[i] != Client
    requires Enabled(s, a)
    ensures a == Step
  {
    HeldCounts(s.m, l);
    hide Others, ProcOk, LocksOk;
  }

  /** Only a wakeup of its channel ends a sleep, and it makes the process RUNNABLE. */
  lemma AsleepStep(s: State, a: Action, s': State, i: nat, ch: nat)
    requires Inv(s) && Leads(s, a, s') && i < MAX_PROC && Asleep(s, i, ch)
    ensures Shape(s') && (Asleep(s', i, ch) || s'.procs[i].state == RUNNABLE)
    ensures !Asleep(s', i, ch) ==>
      (a.Irq? && a.ch == Some(ch)) || (a == Step && s.running.Process? && s.pcs[s.running.i] == WakeScan(ch, i))
  {
    LeadsShape(s, a, s');
    if s.running == Process(i) {
      LockHolderAlone(s, a, i, PTABLE);
      hide Inv, LocksOk, ProcStep;
      AsleepOnItsWay(s, i, ch);
    } else {
      match a {
        case Irq(l, c) =>
          HandlerOk(s.m, s.procs, l, c);
          hide Handler, LocksOk, Others;
        case Enter(call) =>
          hide LocksOk, Others, ProcOk, CallStep;
          CallLeavesProcs(s, s.running.i, call);
        case Step =>
          hide ProcStep, SchedStep, Inv;
          if s.running == Scheduler {
            AsleepDuringSched(s, i, ch);
          } else {
            AsleepDuringOther(s, s.running.i, i, ch);
          }
      }
    }
  }

  lemma AsleepOnItsWay(s: State, i: nat, ch: nat)
    requires Inv(s) && s.running == Process(i) && s.pcs[i] != Client && ProcStep(s, i).Ok? && i < MAX_PROC
    requires Shape(s) && Asleep(s, i, ch)
    ensures Shape(ProcStep(s, i).value) && Asleep(ProcStep(s, i).value, i, ch)
  {
    ProcFacts(s, i);
    match s.pcs[i] {
      case SleepUnlock(_, lk, b) =>
        UnlockingOk(s, lk, i, SleepMark(ch, lk, b));
        hide Unlocking, Inv, LocksOk, Others;
      case SleepMark(_, _, _) =>
        hide Inv, LocksOk, Others;
      case SleepSched(_, _, _) =>
        SwitchResult(s, i);
        hide ToScheduler, Inv, LocksOk, Others, ProcStep;
    }
  }

  lemma AsleepDuringSched(s: State, i: nat, ch: nat)
    requires Inv(s) && s.running == Scheduler && SchedStep(s).Ok? && i < MAX_PROC && s.procs[i] == Proc(SLEEPING, ch)
    ensures SchedStep(s).value.procs[i] == Proc(SLEEPING, ch) && SchedStep(s).value.running != Process(i)
  {
    hide Acquire, Release, Others, AllSuspended, LocksOk;
  }

  lemma AsleepDuringOther(s: State, j: nat, i: nat, ch: nat)
    requires Inv(s) && s.running == Process(j) && j != i && ProcStep(s, j).Ok? && i < MAX_PROC
      && s.procs[i] == Proc(SLEEPING, ch)
    ensures
      var s' := ProcStep(s, j).value;
      && |s'.procs| == MAX_PROC && s'.running != Process(i)
      && (s'.procs[i] == Proc(SLEEPING, ch) || (s'.procs[i].state == RUNNABLE && s.pcs[j] == WakeScan(ch, i)))
  {
    ProcFacts(s, j);
    if s.pcs[j].YieldSched? || s.pcs[j].SleepSched? {
      SwitchResult(s, j);
      hide ProcStep, Inv, LocksOk;
    } else {
      LockingStays(s, j);
      hide Locking, Unlocking, ToScheduler, Inv, Others, LocksOk;
    }
  }

  /** Thread j is inside wakeup(ch) and has either passed entry i, which then does not
      sleep on ch, or not yet come to it. */
  predicate Passing(s: State, j: nat, i: nat, ch: nat)
    requires Shape(s) && i < MAX_PROC && j < MAX_PROC
  {
    && s.running == Process(j) && s.m.locks[PTABLE].locked
    && match s.pcs[j]
       case WakeScan(c, k) => c == ch && (k > i ==> s.procs[i] != Proc(SLEEPING, ch))
       case WakeRelease => s.procs[i] != Proc(SLEEPING, ch)
       case _ => false
  }

  predicate Passed(s: State, j: nat, i: nat, ch: nat)
    requires Shape(s) && i < MAX_PROC && j < MAX_PROC
  {
    s.pcs[j] == Client && s.running == Process(j) && s.procs[i] != Proc(SLEEPING, ch)
  }

  lemma PassingStep(s: State, a: Action, s': State, j: nat, i: nat, ch: nat)
    requires Inv(s) && Leads(s, a, s') && i < MAX_PROC && j < MAX_PROC && Passing(s, j, i, ch)
    ensures Shape(s') && (Passing(s', j, i, ch) || Passed(s', j, i, ch))
  {
    LeadsShape(s, a, s');
    ProcFacts(s, j);
    HeldCounts(s.m, PTABLE);
    assert a == Step;
    match s.pcs[j] {
      case WakeScan(_, k) =>
        hide Inv, LocksOk, Others;
      case WakeRelease =>
        UnlockingOk(s, PTABLE, j, Client);
        hide Unlocking, Inv, LocksOk, Others;
    }
  }

  /** While the run goes on from a to c, either the process is asleep throughout or it
      was made RUNNABLE at some point. */
  lemma {:induction false} AsleepUntil(states: seq<State>, acts: seq<Action>, i: nat, ch: nat, a: nat, c: nat)
    requires IsRun(states, acts) && Inv(states[0]) && a <= c < |states| && i < MAX_PROC
    requires Shape(states[a]) && Asleep(states[a], i, ch)
    ensures Shape(states[c])
    ensures Asleep(states[c], i, ch) || exists t :: Woken(states, i, a, c, t)
    decreases c
  {
    hide *;
    RunLength(states, acts);
    RunInv(states, acts, c);
    InvShape(states[c]);
    if a < c {
      AsleepUntil(states, acts, i, ch, a, c - 1);
      RunInv(states, acts, c - 1);
      RunLeads(states, acts, c - 1);
      if Asleep(states[c - 1], i, ch) {
        AsleepStep(states[c - 1], acts[c - 1], states[c], i, ch);
        if !Asleep(states[c], i, ch) {
          WokenHere(states, i, a, c);
        }
      } else {
        var t :| Woken(states, i, a, c - 1, t);
        WokenBefore(states, i, a, c, t);
      }
    }
  }

  lemma WokenHere(states: seq<State>, i: nat, a: nat, c: nat)
    requires a < c < |states| && Shape(states[c]) && i < MAX_PROC && states[c].procs[i].state == RUNNABLE
    ensures Woken(states, i, a, c, c)
  {
  }

  lemma WokenBefore(states: seq<State>, i: nat, a: nat, c: nat, t: nat)
    requires 0 < c < |states| && Woken(states, i, a, c - 1, t)
    ensures Woken(states, i, a, c, t)
  {
  }

  lemma InvShape(s: State)
    requires Inv(s)
    ensures Shape(s)
  {
  }

  predicate Woken(states: seq<State>, i: nat, a: nat, c: nat, t: nat)
    requires c < |states|
  {
    a < t <= c && Shape(states[t]) && i < MAX_PROC && states[t].procs[i].state == RUNNABLE
  }

  lemma RunLength(states: seq<State>, acts: seq<Action>)
    requires IsRun(states, acts)
    ensures |states| == |acts| + 1 && MAX_PROC == 64
  {
  }

  lemma PassingStarts(s: State, s': State, j: nat, i: nat, ch: nat)
    requires Inv(s) && Leads(s, Enter(DoWakeup(ch)), s') && s.running == Process(j) && i < MAX_PROC && j < MAX_PROC
    ensures Shape(s') && Passing(s', j, i, ch)
  {
    LeadsShape(s, Enter(DoWakeup(ch)), s');
    ProcFacts(s, j);
    LockingOk(s, PTABLE, j, WakeScan(ch, 0));
    hide Locking, Inv, LocksOk;
  }

  lemma NotInside(s: State, j: nat)
    requires Inside(s, j)
    ensures Shape(s) && j < MAX_PROC && s.pcs[j] != Client
  {
  }

  lemma NotPassed(s: State, j: nat, i: nat, ch: nat)
    requires Shape(s) && i < MAX_PROC && j < MAX_PROC && s.pcs[j] != Client
    ensures !Passed(s, j, i, ch)
  {
  }

  lemma {:induction false} PassingUntil(states: seq<State>, acts: seq<Action>, j: nat, i: nat, ch: nat, b: nat, c: nat)
    requires IsRun(states, acts) && Inv(states[0]) && b < c < |states| && i < MAX_PROC && j < MAX_PROC && i != j
    requires states[b].running == Process(j) && acts[b] == Enter(DoWakeup(ch))
    requires forall t :: b < t < c ==> Inside(states[t], j)
    ensures Shape(states[c]) && (Passing(states[c], j, i, ch) || Passed(states[c], j, i, ch))
    decreases c
  {
    hide *;
    RunLength(states, acts);
    RunInv(states, acts, c - 1);
    RunLeads(states, acts, c - 1);
    if b + 1 == c {
      PassingStarts(states[b], states[c], j, i, ch);
    } else {
      PassingUntil(states, acts, j, i, ch, b, c - 1);
      NotInside(states[c - 1], j);
      NotPassed(states[c - 1], j, i, ch);
      PassingStep(states[c - 1], acts[c - 1], states[c], j, i, ch);
    }
  }

  /** The sleeper's lock is one of the machine's; when it is ptable.lock itself, which
      sleep then does not acquire, the sleeper holds it. */
  predicate SleepsHolding(m: Machine, lk: nat) {
    lk < |m.locks| && (lk == PTABLE ==> m.locks[PTABLE].locked)
  }

  /** No lost wakeup. Process i, holding lk (under which it has tested its condition)
      calls sleep(ch, lk) at the start of a run. If later in the run a process j calls
      wakeup(ch) and returns from it at point c, then by then i has been made RUNNABLE. */
  lemma NoLostWakeup(states: seq<State>, acts: seq<Action>, i: nat, ch: nat, lk: nat, j: nat, b: nat, c: nat)
    requires IsRun(states, acts) && Inv(states[0]) && states[0].running == Process(i) && SleepsHolding(states[0].m, lk)
    requires acts != [] && acts[0] == Enter(DoSleep(ch, Some(lk)))
    requires 0 < b < c < |states| && acts[b] == Enter(DoWakeup(ch))
    requires states[b].running == Process(j) && Shape(states[c]) && !Inside(states[c], j) && j < MAX_PROC
    requires forall t :: b < t < c ==> Inside(states[t], j)
    ensures exists t :: Woken(states, i, 0, c, t)
  {
    FallsAsleep(states, acts, i, ch, lk);
    RunInv(states, acts, b);
    AsleepUntil(states, acts, i, ch, 1, b);
    hide Inv, IsRun;
    if Asleep(states[b], i, ch) {
      assert Leads(states[b], acts[b], states[b + 1]) by { RunLeads(states, acts, b); }
      assert states[b].pcs[j] == Client;
      assert i != j;
      AsleepUntil(states, acts, i, ch, 1, c);
      PassingUntil(states, acts, j, i, ch, b, c);
      assert !Asleep(states[c], i, ch);
      var t :| Woken(states, i, 1, c, t);
      assert Woken(states, i, 0, c, t);
    } else {
      var t :| Woken(states, i, 1, b, t);
      assert Woken(states, i, 0, c, t);
    }
  }

  /** The same for a wakeup from an interrupt handler, which takes one step. */
  lemma NoLostInterrupt(states: seq<State>, acts: seq<Action>, i: nat, ch: nat, lk: nat, b: nat, c: nat)
    requires IsRun(states, acts) && Inv(states[0]) && states[0].running == Process(i) && SleepsHolding(states[0].m, lk)
    requires acts != [] && acts[0] == Enter(DoSleep(ch, Some(lk)))
    requires 0 < b < |acts| && acts[b].Irq? && acts[b].ch == Some(ch) && c == b + 1
    ensures exists t :: Woken(states, i, 0, c, t)
  {
    FallsAsleep(states, acts, i, ch, lk);
    RunInv(states, acts, b);
    AsleepUntil(states, acts, i, ch, 1, c);
    RunLeads(states, acts, b);
    var s, s' := states[b], states[b + 1];
    HandlerOk(s.m, s.procs, acts[b].l, Some(ch));
    LeadsShape(s, acts[b], s');
    assert s'.procs == WakeAll(s.procs, ch);
    LeadsInv(s, acts[b], s');
    assert s.m.cpu.ifl;
    assert !Asleep(s', i, ch) by {
      if s'.running == Process(i) && s'.m.locks[PTABLE].locked {
        HeldCounts(s'.m, PTABLE);
      }
    }
    hide Inv, IsRun, Asleep;
    var t :| Woken(states, i, 1, c, t);
    assert Woken(states, i, 0, c, t);
  }

  lemma RunLeads(states: seq<State>, acts: seq<Action>, t: nat)
    requires IsRun(states, acts) && t < |acts|
    ensures Leads(states[t], acts[t], states[t + 1])
  {
    hide Leads;
  }

  lemma FallsAsleep(states: seq<State>, acts: seq<Action>, i: nat, ch: nat, lk: nat)
    requires IsRun(states, acts) && Inv(states[0]) && states[0].running == Process(i) && SleepsHolding(states[0].m, lk)
    requires acts != [] && acts[0] == Enter(DoSleep(ch, Some(lk)))
    ensures i < MAX_PROC && Shape(states[1]) && Asleep(states[1], i, ch)
  {
    RunLeads(states, acts, 0);
    var s := states[0];
    LeadsShape(s, acts[0], states[1]);
    ProcFacts(s, i);
    LockingOk(s, PTABLE, i, SleepUnlock(ch, lk, OuterFlag(s.m)));
    hide Locking, Inv, IsRun, LocksOk;
  }
}
