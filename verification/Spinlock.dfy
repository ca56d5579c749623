/** kernel/sys/spinlock.c on one CPU: interrupt nesting and spinlocks. */
module Spinlock {

  /** The part of struct cpu and of the flags register that the locks use. */
  datatype Cpu = Cpu(ifl: bool, ncli: int, intena: bool)

  /** A spinlock: `locked`, and whether `cpu` points to the one CPU. */
  datatype Lock = Lock(locked: bool, mine: bool)

  const FREE := Lock(false, false)
  const HELD := Lock(true, true)

  datatype PanicKind =
    | AcquirePanic | ReleasePanic | PopcliInterruptible | PopcliPanic
    | SchedPtable | SchedLocks | SchedRunning | SchedInterruptible
    | SleepNoProc | SleepNoLock

  /** Ok, a PANIC, or spinning on a lock that nobody will release. */
  datatype Outcome<T> = Ok(value: T) | Panic(kind: PanicKind) | Spin

  datatype Machine = Machine(cpu: Cpu, locks: seq<Lock>)

  /* ---- what the C functions compute ---- */

  /** pushcli from its cli on; flag is the interrupt flag that it has read before. */
  function PushCliRest(c: Cpu, flag: bool): Cpu {
    Cpu(false, c.ncli + 1, if c.ncli == 0 then flag else c.intena)
  }

  function PushCli(c: Cpu): Cpu {
    PushCliRest(c, c.ifl)
  }

  function PopCli(c: Cpu): Outcome<Cpu> {
    if c.ifl then Panic(PopcliInterruptible)
    else if c.ncli - 1 < 0 then Panic(PopcliPanic)
    else Ok(Cpu(c.ncli - 1 == 0 && c.intena, c.ncli - 1, c.intena))
  }

  /** holding: the answer, and the CPU after its pushcli and popcli. */
  function Holding(c: Cpu, lk: Lock): Outcome<(Cpu, bool)> {
    match PopCli(PushCli(c))
    case Ok(c') => Ok((c', lk.locked && lk.mine))
    case Panic(k) => Panic(k)
    case Spin => Spin
  }

  function Acquire(m: Machine, l: nat): Outcome<Machine>
    requires l < |m.locks|
  {
    match Holding(PushCli(m.cpu), m.locks[l])
    case Panic(k) => Panic(k)
    case Spin => Spin
    case Ok(r) =>
      if r.1 then Panic(AcquirePanic)
      else if m.locks[l].locked then Spin
      else Ok(Machine(r.0, m.locks[l := HELD]))
  }

  function Release(m: Machine, l: nat): Outcome<Machine>
    requires l < |m.locks|
  {
    match Holding(m.cpu, m.locks[l])
    case Panic(k) => Panic(k)
    case Spin => Spin
    case Ok(r) =>
      if !r.1 then Panic(ReleasePanic)
      else
        match PopCli(r.0)
        case Panic(k) => Panic(k)
        case Spin => Spin
        case Ok(c) => Ok(Machine(c, m.locks[l := FREE]))
  }

  /* ---- what holds outside the bodies of these functions ---- */

  function Count(locks: seq<Lock>): nat {
    if locks == [] then 0 else (if locks[0].locked then 1 else 0) + Count(locks[1..])
  }

  /** ncli is the number of locks held, interrupts are off while any is, and a lock
      that is taken is held by this CPU. */
  predicate LocksOk(m: Machine) {
    && m.cpu.ncli == Count(m.locks)
    && (m.cpu.ncli > 0 ==> !m.cpu.ifl)
    && (forall l :: 0 <= l < |m.locks| ==> m.locks[l] == FREE || m.locks[l] == HELD)
  }

  lemma {:induction false} CountUpdate(locks: seq<Lock>, l: nat, lk: Lock)
    requires l < |locks|
    ensures Count(locks[l := lk]) == Count(locks) - (if locks[l].locked then 1 else 0) + (if lk.locked then 1 else 0)
    ensures locks[l].locked ==> Count(locks) > 0
    decreases l
  {
    if l > 0 {
      CountUpdate(locks[1..], l - 1, lk);
      assert locks[l := lk][1..] == locks[1..][l - 1 := lk];
    } else {
      assert locks[l := lk][1..] == locks[1..];
    }
  }

  lemma {:induction false} CountZero(locks: seq<Lock>, l: nat)
    requires l < |locks| && Count(locks) == 0
    ensures !locks[l].locked
    decreases l
  {
    if l == 0 {
    } else {
      CountZero(locks[1..], l - 1);
    }
  }

  /** Two locks held make a count of at least two. */
  lemma {:induction false} CountTwo(locks: seq<Lock>, l: nat, k: nat)
    requires l < k < |locks| && locks[l].locked && locks[k].locked
    ensures Count(locks) >= 2
    decreases l
  {
    if l > 0 {
      CountTwo(locks[1..], l - 1, k - 1);
    } else {
      CountUpdate(locks[1..], k - 1, FREE);
    }
  }

  /** popcli: which of its panics is taken when, and otherwise one level less, with the
      remembered flag back in force at the last. */
  lemma PopCliCases(c: Cpu)
    ensures PopCli(c) == Panic(PopcliInterruptible) <==> c.ifl
    ensures PopCli(c) == Panic(PopcliPanic) <==> !c.ifl && c.ncli <= 0
    ensures !c.ifl && c.ncli > 0 ==> PopCli(c).Ok? && PopCli(PushCli(PopCli(c).value)) == Ok(PopCli(c).value)
    ensures !c.ifl && c.ncli > 0 ==>
      PopCli(c).value.ncli == c.ncli - 1 && (PopCli(c).value.ifl <==> c.ncli == 1 && c.intena)
  {
  }

  /** holding: the answer is whether this CPU holds the lock, and its pushcli and popcli
      leave the CPU as it was, up to what intena remembers while no lock is held. */
  lemma HoldingIs(c: Cpu, lk: Lock)
    requires c.ncli >= 0 && (c.ncli > 0 ==> !c.ifl)
    ensures Holding(c, lk) == Ok((Cpu(c.ifl, c.ncli, if c.ncli == 0 then c.ifl else c.intena), lk == HELD))
  {
  }

  /** acquire: panics exactly on a lock already held, never spins, and leaves
      interrupts off with the outermost flag remembered. */
  lemma AcquireOk(m: Machine, l: nat)
    requires LocksOk(m) && l < |m.locks|
    ensures m.locks[l].locked ==> Acquire(m, l) == Panic(AcquirePanic)
    ensures !m.locks[l].locked ==>
      && Acquire(m, l) == Ok(Machine(Cpu(false, m.cpu.ncli + 1, if m.cpu.ncli == 0 then m.cpu.ifl else m.cpu.intena),
          m.locks[l := HELD]))
      && LocksOk(Acquire(m, l).value)
    ensures !m.locks[l].locked ==> Acquire(m, l).value.locks[l] == Lock(true, true)
  {
    CountUpdate(m.locks, l, HELD);
  }

  /** release: panics exactly on a lock not held; the last release puts the
      remembered flag back. */
  lemma ReleaseOk(m: Machine, l: nat)
    requires LocksOk(m) && l < |m.locks|
    ensures !m.locks[l].locked ==> Release(m, l) == Panic(ReleasePanic)
    ensures m.locks[l].locked ==>
      && Release(m, l) == Ok(Machine(Cpu(m.cpu.ncli == 1 && m.cpu.intena, m.cpu.ncli - 1, m.cpu.intena),
          m.locks[l := FREE]))
      && LocksOk(Release(m, l).value)
    ensures m.locks[l].locked ==> Release(m, l).value.locks[l] == Lock(false, false)
  {
    CountUpdate(m.locks, l, FREE);
  }

  /** A lock that is taken but not by this CPU: acquire spins on it, and release panics. */
  lemma ForeignLock(m: Machine, l: nat)
    requires l < |m.locks| && m.locks[l] == Lock(true, false) && m.cpu.ncli >= 0
    ensures Acquire(m, l) == Spin && Release(m, l) == Panic(ReleasePanic)
  {
  }

  /* ---- sequences of lock operations ---- */

  datatype LockOp = Take(l: nat) | Drop(l: nat)

  function Perform(m: Machine, op: LockOp): Outcome<Machine>
    requires op.l < |m.locks|
  {
    match op
    case Take(l) => Acquire(m, l)
    case Drop(l) => Release(m, l)
  }

  predicate InTable(ops: seq<LockOp>, n: nat) {
    forall i :: 0 <= i < |ops| ==> ops[i].l < n
  }

  function PerformAll(m: Machine, ops: seq<LockOp>): (r: Outcome<Machine>)
    requires InTable(ops, |m.locks|)
    decreases |ops|
  {
    if ops == [] then Ok(m)
    else
      match Perform(m, ops[0])
      case Panic(k) => Panic(k)
      case Spin => Spin
      case Ok(m') => if |m'.locks| == |m.locks| then PerformAll(m', ops[1..]) else Spin
  }

  /** A sequence in which no held lock is taken and no free lock is dropped. */
  predicate Disciplined(held: seq<bool>, ops: seq<LockOp>)
    requires InTable(ops, |held|)
    decreases |ops|
  {
    ops == [] || (
      && ops[0].Take? == !held[ops[0].l]
      && Disciplined(held[ops[0].l := ops[0].Take?], ops[1..]))
  }

  function HeldBy(locks: seq<Lock>): (r: seq<bool>)
    ensures |r| == |locks|
  {
    seq(|locks|, l requires 0 <= l < |locks| => locks[l].locked)
  }

  /** The interrupt flag that comes back when no lock is held any more. */
  function OuterFlag(m: Machine): bool {
    if m.cpu.ncli == 0 then m.cpu.ifl else m.cpu.intena
  }

  /** Any sequence of acquire and release, nested or not, runs without a panic exactly
      when it is disciplined. It keeps ncli equal to the number of locks held and
      interrupts off while one is, and when all locks are released the interrupt flag
      is what it was at the outset. */
  lemma {:induction false} NestingRestoresFlag(m: Machine, ops: seq<LockOp>)
    requires LocksOk(m) && InTable(ops, |m.locks|)
    ensures PerformAll(m, ops).Ok? <==> Disciplined(HeldBy(m.locks), ops)
    ensures !PerformAll(m, ops).Spin?
    ensures PerformAll(m, ops).Ok? ==>
      var m' := PerformAll(m, ops).value;
      LocksOk(m') && OuterFlag(m') == OuterFlag(m) && |m'.locks| == |m.locks|
    decreases |ops|
  {
    if ops == [] {
    } else {
      var l := ops[0].l;
      AcquireOk(m, l);
      ReleaseOk(m, l);
      CountUpdate(m.locks, l, FREE);
      if Perform(m, ops[0]).Ok? {
        var m1 := Perform(m, ops[0]).value;
        assert HeldBy(m1.locks) == HeldBy(m.locks)[l := ops[0].Take?];
        hide Acquire, Release, Count;
        NestingRestoresFlag(m1, ops[1..]);
      }
    }
  }

  /* ---- the same as methods on mutable state ---- */

  class CpuState {
    var ifl: bool
    var ncli: int
    var intena: bool

    function Snap(): Cpu
      reads this
    {
      Cpu(ifl, ncli, intena)
    }

    constructor ()
      ensures Snap() == Cpu(false, 0, false)
    {
      ifl, ncli, intena := false, 0, false;
    }

    method Pushcli()
      modifies this
      ensures Snap() == PushCli(old(Snap()))
    {
      var eflags := ifl;
      ifl := false;
      if ncli == 0 {
        intena := eflags;
      }
      ncli := ncli + 1;
    }

    /** ok is false where the source panics. */
    method Popcli() returns (ok: bool)
      modifies this
      ensures ok <==> PopCli(old(Snap())).Ok?
      ensures ok ==> Snap() == PopCli(old(Snap())).value
    {
      if ifl {
        return false;
      }
      ncli := ncli - 1;
      if ncli < 0 {
        return false;
      }
      if ncli == 0 && intena {
        ifl := true;
      }
      ok := true;
    }
  }

  class SpinLock {
    var locked: bool
    var cpu: CpuState?

    function View(c: CpuState): Lock
      reads this
    {
      Lock(locked, cpu == c)
    }

    /** init_lock. */
    constructor ()
      ensures forall c: CpuState :: View(c) == FREE
    {
      locked, cpu := false, null;
    }

    method HoldingLock(c: CpuState) returns (ok: bool, r: bool)
      modifies c
      ensures ok <==> Holding(old(c.Snap()), old(View(c))).Ok?
      ensures ok ==> (c.Snap(), r) == Holding(old(c.Snap()), old(View(c))).value
      ensures View(c) == old(View(c))
    {
      c.Pushcli();
      r := locked && cpu == c;
      ok := c.Popcli();
    }

    /** On one CPU the exchange loop ends at once or never; with the lock free or held
        by this CPU (held panics before) it ends at once. */
    method AcquireLock(c: CpuState) returns (ok: bool)
      requires View(c) == FREE || View(c) == HELD
      modifies this, c
      ensures ok <==> Acquire(Machine(old(c.Snap()), [old(View(c))]), 0).Ok?
      ensures ok ==> Machine(c.Snap(), [View(c)]) == Acquire(Machine(old(c.Snap()), [old(View(c))]), 0).value
    {
      c.Pushcli();
      var held;
      ok, held := HoldingLock(c);
      if !ok || held {
        return false;
      }
      var was := locked;   // xchg
      locked := true;
      assert !was;
      cpu := c;
    }

    method ReleaseLock(c: CpuState) returns (ok: bool)
      requires View(c) == FREE || View(c) == HELD
      modifies this, c
      ensures ok <==> Release(Machine(old(c.Snap()), [old(View(c))]), 0).Ok?
      ensures ok ==> Machine(c.Snap(), [View(c)]) == Release(Machine(old(c.Snap()), [old(View(c))]), 0).value
    {
      var held;
      ok, held := HoldingLock(c);
      if !ok || !held {
        return false;
      }
      cpu, locked := null, false;
      ok := c.Popcli();
    }
  }
}
