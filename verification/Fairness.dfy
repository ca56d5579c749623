/** Bounded bypass: how long a RUNNABLE process can be passed over by the cyclic scan
    of launch_first_proc. */
module Fairness {
  import opened Options
  import opened Spinlock
  import opened Sched
  import opened SchedRuns

  /** RUNNABLE and waiting for the scheduler to pick it. */
  predicate Waiting(s: State, j: nat)
    requires Shape(s) && j < MAX_PROC
  {
    s.procs[j].state == RUNNABLE && s.running != Process(j)
  }

  /** The table entry at which the scan goes on. */
  function Cursor(spc: SchedPc): nat {
    match spc
    case Top => 0
    case Entry => 0
    case Scan(i) => i
    case Found(i) => i + 1
    case Back(i) => i + 1
  }

  /** How many entries lie between the cursor and entry j, going round the table. */
  function Distance(cursor: nat, j: nat): nat
    requires j < MAX_PROC && cursor <= MAX_PROC
  {
    if cursor <= j then j - cursor else MAX_PROC + j - cursor
  }

  /** The process that an action dispatches. */
  function Dispatched(s: State, a: Action): Option<nat>
    requires Shape(s)
  {
    if a == Step && s.running == Scheduler && s.spc.Scan? && s.spc.i < MAX_PROC && s.procs[s.spc.i].state == RUNNABLE
    then Some(s.spc.i) else None
  }

  /** The steps of the scheduler's own thread that can still come before entry j is
      dispatched. */
  function SchedulerWork(spc: SchedPc, j: nat): int
    requires j < MAX_PROC
  {
    match spc
    case Top => 3 * j + 2
    case Entry => 3 * j + 1
    case Scan(i) => ScanWork(i, j)
    case Found(i) => ScanWork(i + 1, j) + 2
    case Back(i) => ScanWork(i + 1, j) + 1
  }

  function ScanWork(i: nat, j: nat): int
    requires j < MAX_PROC
  {
    if i <= j then 3 * (j - i) else 3 * (MAX_PROC - i) + 3 + 3 * j
  }

  lemma CursorOk(s: State)
    requires Inv(s)
    ensures Shape(s) && Cursor(s.spc) <= MAX_PROC
  {
    hide LocksOk, Others, AllSuspended, ProcOk;
  }

  /** Only the scheduler takes a process out of RUNNABLE, and it does so by dispatching it. */
  lemma OnlyDispatchEndsWait(s: State, a: Action, s': State, j: nat)
    requires Inv(s) && Leads(s, a, s') && j < MAX_PROC && Waiting(s, j)
    ensures Shape(s') && (Waiting(s', j) <==> Dispatched(s, a) != Some(j))
  {
    LeadsShape(s, a, s');
    hide LocksOk, Others, AllSuspended, ProcOk, Handler, CallStep, ProcStep, SchedStep;
    match a
    case Irq(l, ch) =>
      HandlerOk(s.m, s.procs, l, ch);
    case Enter(call) =>
      CallLeavesProcs(s, s.running.i, call);
    case Step =>
      if s.running == Scheduler {
        SchedulerKeepsWaiting(s, j);
      } else {
        ProcessKeepsWaiting(s, s.running.i, j);
      }
  }

  lemma SchedulerKeepsWaiting(s: State, j: nat)
    requires Inv(s) && s.running == Scheduler && SchedStep(s).Ok? && j < MAX_PROC && Waiting(s, j)
    ensures Shape(SchedStep(s).value) && (Waiting(SchedStep(s).value, j) <==> Dispatched(s, Step) != Some(j))
  {
    SchedStepStays(s);
    hide Acquire, Release, Others, AllSuspended, LocksOk;
  }

  lemma ProcessKeepsWaiting(s: State, i: nat, j: nat)
    requires Inv(s) && s.running == Process(i) && ProcStep(s, i).Ok? && j < MAX_PROC && Waiting(s, j)
    ensures Shape(ProcStep(s, i).value) && Waiting(ProcStep(s, i).value, j)
  {
    hide Inv, ProcStep, Waiting, ProcOk, LocksOk;
    ProcFacts(s, i);
    ProcStepStays(s, i);
    if s.pcs[i].YieldSched? || s.pcs[i].SleepSched? {
      SwitchKeepsWaiting(s, i, j);
    } else {
      LocalKeepsWaiting(s, i, j);
    }
  }

  lemma SwitchKeepsWaiting(s: State, i: nat, j: nat)
    requires Inv(s) && s.running == Process(i) && ProcStep(s, i).Ok? && i < MAX_PROC && j < MAX_PROC && Shape(s)
    requires Waiting(s, j) && Shape(ProcStep(s, i).value) && (s.pcs[i].YieldSched? || s.pcs[i].SleepSched?)
    ensures Waiting(ProcStep(s, i).value, j)
  {
    SwitchResult(s, i);
    hide ProcStep, Inv, LocksOk;
  }

  lemma LocalKeepsWaiting(s: State, i: nat, j: nat)
    requires Inv(s) && s.running == Process(i) && ProcStep(s, i).Ok? && i < MAX_PROC && j < MAX_PROC && Shape(s)
    requires Waiting(s, j) && Shape(ProcStep(s, i).value) && !(s.pcs[i].YieldSched? || s.pcs[i].SleepSched?)
    ensures Waiting(ProcStep(s, i).value, j)
  {
    ProcFacts(s, i);
    LockingStays(s, i);
    hide Locking, Unlocking, ToScheduler, Inv, Others, LocksOk, ProcOk;
  }

  /** The cursor moves only with the scheduler's thread. */
  lemma CursorMoves(s: State, a: Action, s': State)
    requires Inv(s) && Leads(s, a, s')
    ensures !(a == Step && s.running == Scheduler) ==> s'.spc == s.spc
  {
    if a != Step {
      OtherActionsKeepThread(s, a, s');
    } else if s.running != Scheduler {
      var i := s.running.i;
      ProcFacts(s, i);
      LockingStays(s, i);
      hide Locking, Unlocking, Inv, Others, LocksOk;
    }
  }

  /** One step of the scheduler while j waits: the cursor never jumps over j, a
      dispatched process lies before j, and the remaining work shrinks. */
  lemma SchedulerStepProgress(s: State, s': State, j: nat)
    requires Inv(s) && s.running == Scheduler && Leads(s, Step, s') && j < MAX_PROC && Waiting(s, j)
      && Dispatched(s, Step) != Some(j)
    ensures Cursor(s.spc) <= MAX_PROC && Cursor(s'.spc) <= MAX_PROC
    ensures Distance(Cursor(s'.spc), j) <= Distance(Cursor(s.spc), j)
    ensures Dispatched(s, Step).Some? ==>
      && Cursor(s.spc) == Dispatched(s, Step).value != j
      && Distance(Cursor(s'.spc), j) < Distance(Dispatched(s, Step).value, j)
    ensures 0 <= SchedulerWork(s'.spc, j) < SchedulerWork(s.spc, j)
  {
    CursorOk(s);
    hide Acquire, Release, Others, AllSuspended, LocksOk;
  }

  /* ---- over a run ---- */

  /** The processes dispatched in the first n actions, in order. */
  function Dispatches(states: seq<State>, acts: seq<Action>, n: nat): (r: seq<nat>)
    requires n <= |acts| < |states|
    decreases n
  {
    if n == 0 then []
    else
      var r := Dispatches(states, acts, n - 1);
      if Shape(states[n - 1]) && Dispatched(states[n - 1], acts[n - 1]).Some?
      then r + [Dispatched(states[n - 1], acts[n - 1]).value] else r
  }

  /** The steps that the scheduler's thread makes in the first n actions. */
  function SchedulerSteps(states: seq<State>, acts: seq<Action>, n: nat): nat
    requires n <= |acts| < |states|
  {
    if n == 0 then 0
    else
      SchedulerSteps(states, acts, n - 1)
      + (if acts[n - 1] == Step && states[n - 1].running == Scheduler then 1 else 0)
  }

  /** Going round the table, each dispatched process is nearer to j than the one before. */
  predicate Approaching(ds: seq<nat>, from: nat, to: nat, j: nat)
    requires j < MAX_PROC
  {
    && (forall p :: 0 <= p < |ds| ==> ds[p] < MAX_PROC && to < Distance(ds[p], j) <= from)
    && (forall p, q :: 0 <= p < q < |ds| ==>
          ds[p] < MAX_PROC && ds[q] < MAX_PROC && Distance(ds[q], j) < Distance(ds[p], j))
  }

  lemma ApproachingSnoc(ds: seq<nat>, from: nat, to: nat, j: nat, k: nat, to': nat)
    requires j < MAX_PROC && Approaching(ds, from, to, j) && k < MAX_PROC && Distance(k, j) == to <= from && to' < to
    ensures Approaching(ds + [k], from, to', j)
  {
    hide Distance;
  }

  lemma ApproachingOn(ds: seq<nat>, from: nat, to: nat, j: nat, to': nat)
    requires j < MAX_PROC && Approaching(ds, from, to, j) && to' <= to
    ensures Approaching(ds, from, to', j)
  {
    hide Distance;
  }

  /** What is left after n actions without a dispatch of j. */
  predicate Progress(states: seq<State>, acts: seq<Action>, j: nat, n: nat)
    requires n <= |acts| < |states| && j < MAX_PROC
  {
    var s0, s := states[0], states[n];
    && Shape(s) && Waiting(s, j) && Cursor(s0.spc) <= MAX_PROC && Cursor(s.spc) <= MAX_PROC
    && Distance(Cursor(s.spc), j) <= Distance(Cursor(s0.spc), j)
    && Approaching(Dispatches(states, acts, n), Distance(Cursor(s0.spc), j), Distance(Cursor(s.spc), j), j)
    && |Dispatches(states, acts, n)| <= Distance(Cursor(s0.spc), j) - Distance(Cursor(s.spc), j)
    && SchedulerSteps(states, acts, n) + SchedulerWork(s.spc, j) <= SchedulerWork(s0.spc, j)
  }

  /** j is not dispatched by any of the first n actions. */
  predicate PassedOver(states: seq<State>, acts: seq<Action>, j: nat, n: nat)
    requires n <= |acts| < |states|
  {
    forall t :: 0 <= t < n ==> !Picks(states[t], acts[t], j)
  }

  predicate Picks(s: State, a: Action, j: nat) {
    Shape(s) && Dispatched(s, a) == Some(j)
  }

  lemma ProgressStep(states: seq<State>, acts: seq<Action>, j: nat, n: nat)
    requires n < |acts| < |states| && j < MAX_PROC && Inv(states[n]) && Leads(states[n], acts[n], states[n + 1])
    requires Progress(states, acts, j, n) && !Picks(states[n], acts[n], j)
    ensures Progress(states, acts, j, n + 1)
  {
    var s, a, s' := states[n], acts[n], states[n + 1];
    var from := Distance(Cursor(states[0].spc), j);
    var ds, here := Dispatches(states, acts, n), Distance(Cursor(s.spc), j);
    assert Dispatches(states, acts, n + 1) == if Dispatched(s, a).Some? then ds + [Dispatched(s, a).value] else ds;
    assert SchedulerSteps(states, acts, n + 1) ==
      SchedulerSteps(states, acts, n) + (if a == Step && s.running == Scheduler then 1 else 0);
    hide Inv, Leads, Distance, SchedulerWork, Dispatches, SchedulerSteps, Approaching, Next, Enabled;
    OnlyDispatchEndsWait(s, a, s', j);
    CursorMoves(s, a, s');
    if a == Step && s.running == Scheduler {
      SchedulerStepProgress(s, s', j);
      if Dispatched(s, a).Some? {
        ApproachingSnoc(ds, from, here, j, Dispatched(s, a).value, Distance(Cursor(s'.spc), j));
      } else {
        ApproachingOn(ds, from, here, j, Distance(Cursor(s'.spc), j));
      }
    }
  }

  lemma {:induction false} ProgressRun(states: seq<State>, acts: seq<Action>, j: nat, n: nat)
    requires IsRun(states, acts) && Inv(states[0]) && n <= |acts| && j < MAX_PROC && Waiting(states[0], j)
    requires PassedOver(states, acts, j, n)
    ensures Progress(states, acts, j, n)
    decreases n
  {
    if n == 0 {
      CursorOk(states[0]);
      hide Inv;
    } else {
      ProgressRun(states, acts, j, n - 1);
      RunInv(states, acts, n - 1);
      assert Leads(states[n - 1], acts[n - 1], states[n]);
      assert !Picks(states[n - 1], acts[n - 1], j);
      hide *;
      ProgressStep(states, acts, j, n - 1);
    }
  }

  /** Bounded bypass. As long as a RUNNABLE process j has not been dispatched, it stays
      RUNNABLE, at most 63 dispatches have gone to other processes, none of them twice,
      and the scheduler's thread has made at most 194 steps. So if every dispatched
      process comes back through sched, j is dispatched. */
  lemma BoundedBypass(states: seq<State>, acts: seq<Action>, j: nat, n: nat)
    requires IsRun(states, acts) && Inv(states[0]) && n <= |acts| && j < MAX_PROC && Waiting(states[0], j)
    requires PassedOver(states, acts, j, n)
    ensures Shape(states[n]) && states[n].procs[j].state == RUNNABLE
    ensures
      var ds := Dispatches(states, acts, n);
      && |ds| <= MAX_PROC - 1 && j !in ds
      && (forall p, q :: 0 <= p < q < |ds| ==> ds[p] != ds[q])
    ensures SchedulerSteps(states, acts, n) <= 194
  {
    ProgressRun(states, acts, j, n);
    var ds := Dispatches(states, acts, n);
    CursorOk(states[0]);
    RunInv(states, acts, n);
    CursorOk(states[n]);
    assert Distance(Cursor(states[0].spc), j) <= 63;
    assert SchedulerWork(states[0].spc, j) <= 194 by {
      WorkBound(states[0].spc, j);
    }
    assert SchedulerWork(states[n].spc, j) >= 0 by {
      WorkBound(states[n].spc, j);
    }
    hide Inv, Dispatches, SchedulerSteps, SchedulerWork, IsRun, PassedOver;
    assert forall p :: 0 <= p < |ds| ==> Distance(ds[p], j) > 0;
  }

  lemma WorkBound(spc: SchedPc, j: nat)
    requires j < MAX_PROC && Cursor(spc) <= MAX_PROC
    ensures 0 <= SchedulerWork(spc, j) <= 194
  {
  }
}
