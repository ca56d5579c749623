/** switch_to (kernel/asm/switch.asm): what it saves and restores, and that under any
    interleaving every thread resumes with what it had when it switched away. */
module Switch {
  import opened Bits
  import opened Asm

  function SwitchTo(): seq<Instr> {
    [Load(EAX, ESP, 4), Load(EDX, ESP, 8),
     Push(EBP), Push(EBX), Push(ESI), Push(EDI),
     Store(EAX, ESP), Move(ESP, EDX),
     Pop(EDI), Pop(ESI), Pop(EBX), Pop(EBP),
     Ret]
  }

  /** struct context. */
  datatype Context = Context(edi: word, esi: word, ebx: word, ebp: word, eip: word)

  function ContextAt(mem: Memory, a: int): Context {
    Context(Read(mem, a), Read(mem, a + 4), Read(mem, a + 8), Read(mem, a + 12), Read(mem, a + 16))
  }

  /** The callee-saved registers and where the thread goes on. */
  function ContextOf(r: Regs, eip: word): Context {
    Context(r.edi, r.esi, r.ebx, r.ebp, eip)
  }

  /** The words in [lo, hi) are the same. */
  predicate SameRange(mem: Memory, mem': Memory, lo: int, hi: int) {
    forall a :: lo <= a < hi ==> Read(mem', a) == Read(mem, a)
  }

  lemma RunTwo(c: Cpu, i: Instr, j: Instr)
    ensures Run(c, [i, j]) == Exec(Exec(c, i), j)
  {
    hide Exec;
    assert [i, j] == [i] + ([j] + []);
    RunCons(c, i, [j] + []);
    RunCons(Exec(c, i), j, []);
  }

  lemma RunFour(c: Cpu, i: Instr, j: Instr, k: Instr, l: Instr)
    ensures Run(c, [i, j, k, l]) == Exec(Exec(Exec(Exec(c, i), j), k), l)
  {
    hide Exec;
    assert [i, j, k, l] == [i] + ([j] + [k, l]);
    RunCons(c, i, [j] + [k, l]);
    RunCons(Exec(c, i), j, [k, l]);
    RunTwo(Exec(Exec(c, i), j), k, l);
  }

  /** Two address ranges that do not overlap. */
  predicate Apart(a: int, n: int, b: int, m: int) {
    a + n <= b || b + m <= a
  }

  /** The words outside [a, a + n) are the same. */
  ghost predicate SameOutside(mem: Memory, mem': Memory, a: int, n: int) {
    forall b :: b < a || a + n <= b ==> Read(mem', b) == Read(mem, b)
  }

  lemma PushStep(c: Cpu, w: word)
    requires c.r.esp >= 4
    ensures PushWord(c, w).r == c.r.(esp := c.r.esp - 4)
    ensures Read(PushWord(c, w).mem, c.r.esp - 4) == w && SameOutside(c.mem, PushWord(c, w).mem, c.r.esp - 4, 1)
  {
  }

  /** One more word below e. */
  lemma PushedBelow(mem: Memory, mem1: Memory, mem2: Memory, e: int, n: nat, w: word)
    requires SameOutside(mem, mem1, e - n, n) && SameOutside(mem1, mem2, e - n - 4, 1) && Read(mem2, e - n - 4) == w
    ensures SameOutside(mem, mem2, e - n - 4, n + 4)
    ensures forall a :: e - n <= a ==> Read(mem2, a) == Read(mem1, a)
  {
    hide Read;
  }

  lemma PushReg(c: Cpu, x: Reg)
    requires c.r.esp >= 4
    ensures Exec(c, Push(x)).r == c.r.(esp := c.r.esp - 4)
    ensures Read(Exec(c, Push(x)).mem, c.r.esp - 4) == Get(c.r, x)
      && SameOutside(c.mem, Exec(c, Push(x)).mem, c.r.esp - 4, 1)
  {
    PushStep(c, Get(c.r, x));
    hide PushWord, Get, Read;
  }

  lemma SavedRegs(r: Regs, e: word)
    ensures Get(r, EBP) == r.ebp && Get(r.(esp := e), EBX) == r.ebx && Get(r.(esp := e), ESI) == r.esi
      && Get(r.(esp := e), EDI) == r.edi
  {
  }

  lemma FourPushes(c: Cpu)
    requires c.r.esp >= 16
    ensures
      var c', e := Run(c, [Push(EBP), Push(EBX), Push(ESI), Push(EDI)]), c.r.esp;
      && c'.r == c.r.(esp := e - 16) && SameOutside(c.mem, c'.mem, e - 16, 16)
      && Read(c'.mem, e - 16) == c.r.edi && Read(c'.mem, e - 12) == c.r.esi
      && Read(c'.mem, e - 8) == c.r.ebx && Read(c'.mem, e - 4) == c.r.ebp
  {
    hide *;
    RunFour(c, Push(EBP), Push(EBX), Push(ESI), Push(EDI));
    var e := c.r.esp;
    SavedRegs(c.r, e - 4);
    SavedRegs(c.r, e - 8);
    SavedRegs(c.r, e - 12);
    PushReg(c, EBP);
    var c1 := Exec(c, Push(EBP));
    PushReg(c1, EBX);
    var c2 := Exec(c1, Push(EBX));
    PushReg(c2, ESI);
    var c3 := Exec(c2, Push(ESI));
    PushReg(c3, EDI);
    var c4 := Exec(c3, Push(EDI));
    SameNothing(c.mem, e);
    PushedBelow(c.mem, c.mem, c1.mem, e, 0, c.r.ebp);
    PushedBelow(c.mem, c1.mem, c2.mem, e, 4, c.r.ebx);
    PushedBelow(c.mem, c2.mem, c3.mem, e, 8, c.r.esi);
    PushedBelow(c.mem, c3.mem, c4.mem, e, 12, c.r.edi);
  }

  lemma SameNothing(mem: Memory, a: int)
    ensures SameOutside(mem, mem, a, 0)
  {
  }

  lemma PopStep(c: Cpu, x: Reg)
    requires c.r.esp + 4 < WORD_LIMIT
    ensures Exec(c, Pop(x)) == Cpu(Set(c.r.(esp := c.r.esp + 4), x, Read(c.mem, c.r.esp)), c.mem)
  {
    hide Set;
  }

  lemma FourPops(c: Cpu)
    requires c.r.esp + 16 < WORD_LIMIT
    ensures
      var c', e := Run(c, [Pop(EDI), Pop(ESI), Pop(EBX), Pop(EBP)]), c.r.esp;
      c' == Cpu(c.r.(edi := Read(c.mem, e), esi := Read(c.mem, e + 4), ebx := Read(c.mem, e + 8),
          ebp := Read(c.mem, e + 12), esp := e + 16), c.mem)
  {
    RunFour(c, Pop(EDI), Pop(ESI), Pop(EBX), Pop(EBP));
    hide Run, Read, Exec;
    PopStep(c, EDI);
    var c1 := Exec(c, Pop(EDI));
    PopStep(c1, ESI);
    var c2 := Exec(c1, Pop(ESI));
    PopStep(c2, EBX);
    var c3 := Exec(c2, Pop(EBX));
    PopStep(c3, EBP);
  }

  lemma {:induction false} RunConcat(c: Cpu, a: seq<Instr>, b: seq<Instr>)
    ensures Run(c, a + b) == Run(Run(c, a), b)
    decreases |a|
  {
    hide Exec;
    if a == [] {
      assert a + b == b;
    } else {
      assert a + b == [a[0]] + (a[1..] + b);
      RunCons(c, a[0], a[1..] + b);
      RunConcat(Exec(c, a[0]), a[1..], b);
    }
  }

  /** The five pieces of switch_to. */
  lemma SwitchPieces(c: Cpu)
    ensures
      var c1 := Run(c, [Load(EAX, ESP, 4), Load(EDX, ESP, 8)]);
      var c2 := Run(c1, [Push(EBP), Push(EBX), Push(ESI), Push(EDI)]);
      var c3 := Run(c2, [Store(EAX, ESP), Move(ESP, EDX)]);
      var c4 := Run(c3, [Pop(EDI), Pop(ESI), Pop(EBX), Pop(EBP)]);
      Run(c, SwitchTo()) == Exec(c4, Ret)
  {
    hide Exec;
    var p1, p2, p3, p4 := [Load(EAX, ESP, 4), Load(EDX, ESP, 8)], [Push(EBP), Push(EBX), Push(ESI), Push(EDI)],
      [Store(EAX, ESP), Move(ESP, EDX)], [Pop(EDI), Pop(ESI), Pop(EBX), Pop(EBP)];
    assert SwitchTo() == p1 + (p2 + (p3 + (p4 + ([Ret] + []))));
    hide Run, SwitchTo;
    RunConcat(c, p1, p2 + (p3 + (p4 + ([Ret] + []))));
    RunConcat(Run(c, p1), p2, p3 + (p4 + ([Ret] + [])));
    RunConcat(Run(Run(c, p1), p2), p3, p4 + ([Ret] + []));
    RunConcat(Run(Run(Run(c, p1), p2), p3), p4, [Ret] + []);
    var c4 := Run(Run(Run(Run(c, p1), p2), p3), p4);
    RunCons(c4, Ret, []);
    RunNothing(Exec(c4, Ret));
  }

  lemma RunNothing(c: Cpu)
    ensures Run(c, []) == c
  {
  }

  lemma LoadStep(c: Cpu, dst: Reg, off: word)
    requires c.r.esp + off < WORD_LIMIT
    ensures Exec(c, Load(dst, ESP, off)) == Cpu(Set(c.r, dst, Read(c.mem, c.r.esp + off)), c.mem)
  {
    hide Read, Set;
  }

  lemma SetEaxEdx(r: Regs, v: word, w: word)
    ensures Set(r, EAX, v) == r.(eax := v) && Set(Set(r, EAX, v), EDX, w) == r.(eax := v, edx := w)
  {
  }

  lemma TwoLoads(c: Cpu)
    requires c.r.esp + 8 < WORD_LIMIT
    ensures Run(c, [Load(EAX, ESP, 4), Load(EDX, ESP, 8)]) ==
      Cpu(c.r.(eax := Read(c.mem, c.r.esp + 4), edx := Read(c.mem, c.r.esp + 8)), c.mem)
  {
    hide *;
    RunTwo(c, Load(EAX, ESP, 4), Load(EDX, ESP, 8));
    LoadStep(c, EAX, 4);
    var c1 := Exec(c, Load(EAX, ESP, 4));
    SetEaxEdx(c.r, Read(c.mem, c.r.esp + 4), Read(c.mem, c.r.esp + 8));
    LoadStep(c1, EDX, 8);
  }

  lemma StoreAndMove(c: Cpu)
    ensures
      var c' := Run(c, [Store(EAX, ESP), Move(ESP, EDX)]);
      c'.r == c.r.(esp := c.r.edx) && Read(c'.mem, c.r.eax) == c.r.esp && SameOutside(c.mem, c'.mem, c.r.eax, 1)
  {
    RunTwo(c, Store(EAX, ESP), Move(ESP, EDX));
    hide Run;
  }

  lemma ReturnStep(c: Cpu)
    requires c.r.esp + 4 < WORD_LIMIT
    ensures Exec(c, Ret) == Cpu(c.r.(eip := Read(c.mem, c.r.esp), esp := c.r.esp + 4), c.mem)
  {
  }

  /** switch_to(prev, next), called with its return address on the stack. The caller's
      context is stored just below, *prev points to it, and the thread whose context is
      at `next` goes on with the registers found there. */
  lemma SwitchToEffect(c: Cpu, prev: word, next: word)
    requires 16 <= c.r.esp && c.r.esp + 12 < WORD_LIMIT && next + 20 < WORD_LIMIT
    requires prev == Read(c.mem, c.r.esp + 4) && next == Read(c.mem, c.r.esp + 8)
    requires Apart(prev, 4, c.r.esp - 16, 20) && Apart(prev, 4, next, 20) && Apart(next, 20, c.r.esp - 16, 16)
    ensures
      var c', e := Run(c, SwitchTo()), c.r.esp;
      && Read(c'.mem, prev) == e - 16
      && ContextAt(c'.mem, e - 16) == ContextOf(c.r, Read(c.mem, e))
      && ContextOf(c'.r, c'.r.eip) == ContextAt(c.mem, next) && c'.r.esp == next + 20
      && (forall a :: a != prev && (a < e - 16 || e <= a) ==> Read(c'.mem, a) == Read(c.mem, a))
  {
    var e := c.r.esp;
    SwitchPieces(c);
    hide Run, SwitchTo, Read, Exec;
    TwoLoads(c);
    var c1 := Run(c, [Load(EAX, ESP, 4), Load(EDX, ESP, 8)]);
    FourPushes(c1);
    var c2 := Run(c1, [Push(EBP), Push(EBX), Push(ESI), Push(EDI)]);
    StoreAndMove(c2);
    var c3 := Run(c2, [Store(EAX, ESP), Move(ESP, EDX)]);
    FourPops(c3);
    var c4 := Run(c3, [Pop(EDI), Pop(ESI), Pop(EBX), Pop(EBP)]);
    ReturnStep(c4);
  }

  /* ---- many threads ---- */

  /** A thread: its stack [lo, hi) and the variable that its context pointer is kept in
      (p->ctx of a process, cpu.scheduler of the scheduler's thread). */
  datatype Thread = Thread(lo: int, hi: int, slot: word)

  /** What a thread must find again: its callee-saved registers, where it goes on, and
      its stack pointer after the return. */
  datatype Resume = Resume(ctx: Context, esp: int)

  function ResumeOf(r: Regs): Resume {
    Resume(ContextOf(r, r.eip), r.esp)
  }

  /** Stacks and context variables do not overlap. */
  predicate Layout(ts: seq<Thread>) {
    && (forall t :: 0 <= t < |ts| ==> 0 <= ts[t].lo < ts[t].hi < WORD_LIMIT)
    && (forall t, u :: 0 <= t < |ts| && 0 <= u < |ts| && t != u ==> ts[t].hi <= ts[u].lo || ts[u].hi <= ts[t].lo)
    && (forall t, u :: 0 <= t < |ts| && 0 <= u < |ts| ==> ts[t].slot + 4 <= ts[u].lo || ts[u].hi <= ts[t].slot)
    && (forall t, u :: 0 <= t < |ts| && 0 <= u < |ts| && t != u ==> ts[t].slot != ts[u].slot)
  }

  datatype System = System(c: Cpu, cur: nat)

  /** An event: the current thread computes, or it calls switch_to for another. */
  datatype Event = Compute(to: Cpu) | SwitchCall(next: nat)

  /** The context of thread t as its variable points to it. */
  predicate Parked(mem: Memory, t: Thread, v: Resume) {
    var a := Read(mem, t.slot);
    t.lo <= a && a + 20 <= t.hi && ContextAt(mem, a) == v.ctx && v.esp == a + 20
  }

  /** The current thread may change its own stack and all other memory, but not the
      part of another thread's stack that is in use, nor its context variable. */
  predicate Respects(mem: Memory, mem': Memory, t: Thread) {
    var a := Read(mem, t.slot);
    Read(mem', t.slot) == a && forall x :: a <= x < t.hi ==> Read(mem', x) == Read(mem, x)
  }

  /** When an event can happen. A call of switch_to finds its return address and its
      arguments on the caller's stack, with room below. */
  predicate Possible(ts: seq<Thread>, s: System, e: Event)
    requires s.cur < |ts|
  {
    match e
    case Compute(to) => forall t :: 0 <= t < |ts| && t != s.cur ==> Respects(s.c.mem, to.mem, ts[t])
    case SwitchCall(next) =>
      && next < |ts| && next != s.cur
      && ts[s.cur].lo <= s.c.r.esp - 16 && s.c.r.esp + 12 <= ts[s.cur].hi
      && Read(s.c.mem, s.c.r.esp + 4) == ts[s.cur].slot
      && Read(s.c.mem, s.c.r.esp + 8) == Read(s.c.mem, ts[next].slot)
  }

  function After(s: System, e: Event): System {
    match e
    case Compute(to) => System(to, s.cur)
    case SwitchCall(next) => System(Run(s.c, SwitchTo()), next)
  }

  /** What each thread has to resume with: recorded when it calls switch_to, from its
      registers at the call and the return address on its stack. */
  function Recorded(views: seq<Resume>, s: System, e: Event): (r: seq<Resume>)
    ensures |r| == |views|
  {
    if e.SwitchCall? && s.cur < |views| then
      views[s.cur := Resume(ContextOf(s.c.r, Read(s.c.mem, s.c.r.esp)), s.c.r.esp + 4)]
    else views
  }

  /** Every thread but the current one is parked with what was recorded for it. */
  predicate SystemInv(ts: seq<Thread>, s: System, views: seq<Resume>) {
    && Layout(ts) && |views| == |ts| && s.cur < |ts|
    && forall t :: 0 <= t < |ts| && t != s.cur ==> Parked(s.c.mem, ts[t], views[t])
  }

  lemma ComputeStep(ts: seq<Thread>, s: System, views: seq<Resume>, to: Cpu)
    requires SystemInv(ts, s, views) && Possible(ts, s, Compute(to))
    ensures SystemInv(ts, After(s, Compute(to)), views)
  {
    forall t | 0 <= t < |ts| && t != s.cur ensures Parked(to.mem, ts[t], views[t]) {
      assert Parked(s.c.mem, ts[t], views[t]) && Respects(s.c.mem, to.mem, ts[t]);
    }
    hide Layout, Read;
  }

  /** One switch: the next thread has exactly what was recorded for it, and the caller
      is parked with what it had. */
  lemma SwitchStep(ts: seq<Thread>, s: System, views: seq<Resume>, next: nat)
    requires SystemInv(ts, s, views) && Possible(ts, s, SwitchCall(next))
    ensures
      var s', views' := After(s, SwitchCall(next)), Recorded(views, s, SwitchCall(next));
      SystemInv(ts, s', views') && ResumeOf(s'.c.r) == views[next]
  {
    hide *;
    SwitchFacts(ts, s, views, next);
    var me := ts[s.cur];
    var e, a := s.c.r.esp, Read(s.c.mem, ts[next].slot);
    var s' := After(s, SwitchCall(next));
    var views' := Recorded(views, s, SwitchCall(next));
    SwitchToEffect(s.c, me.slot, a);
    CallerParked(me, s'.c.mem, e, ContextOf(s.c.r, Read(s.c.mem, e)));
    ResumedWith(s'.c.r, views[next]);
    forall t | 0 <= t < |ts| && t != next ensures Parked(s'.c.mem, ts[t], views'[t]) {
      if t != s.cur {
        LayoutPair(ts, t, s.cur);
        StaysParked(ts[t], me, s.c.mem, s'.c.mem, e, views[t]);
      }
    }
    SystemIntro(ts, s', views');
  }

  lemma SwitchFacts(ts: seq<Thread>, s: System, views: seq<Resume>, next: nat)
    requires SystemInv(ts, s, views) && Possible(ts, s, SwitchCall(next))
    ensures Layout(ts) && |views| == |ts| && s.cur < |ts| && next < |ts| && next != s.cur
    ensures forall t :: 0 <= t < |ts| && t != s.cur ==> Parked(s.c.mem, ts[t], views[t])
    ensures
      var s', e := After(s, SwitchCall(next)), s.c.r.esp;
      && s'.c == Run(s.c, SwitchTo()) && s'.cur == next
      && Recorded(views, s, SwitchCall(next)) == views[s.cur := Resume(ContextOf(s.c.r, Read(s.c.mem, e)), e + 4)]
    ensures
      var me, you, e, a := ts[s.cur], ts[next], s.c.r.esp, Read(s.c.mem, ts[next].slot);
      && 16 <= e && e + 12 < WORD_LIMIT && a + 20 < WORD_LIMIT && me.lo <= e - 16 && e + 12 <= me.hi
      && me.slot == Read(s.c.mem, e + 4) && a == Read(s.c.mem, e + 8)
      && ContextAt(s.c.mem, a) == views[next].ctx && views[next].esp == a + 20
      && Apart(me.slot, 4, e - 16, 20) && Apart(me.slot, 4, a, 20) && Apart(a, 20, e - 16, 16)
  {
    hide Run, SwitchTo, Read, ContextAt, Layout;
    assert Parked(s.c.mem, ts[next], views[next]);
    LayoutPair(ts, s.cur, next);
  }

  lemma LayoutPair(ts: seq<Thread>, t: nat, u: nat)
    requires Layout(ts) && t < |ts| && u < |ts| && t != u
    ensures 0 <= ts[t].lo < ts[t].hi < WORD_LIMIT && 0 <= ts[u].lo < ts[u].hi < WORD_LIMIT
    ensures ts[t].hi <= ts[u].lo || ts[u].hi <= ts[t].lo
    ensures ts[t].slot + 4 <= ts[u].lo || ts[u].hi <= ts[t].slot
    ensures ts[u].slot + 4 <= ts[t].lo || ts[t].hi <= ts[u].slot
    ensures ts[t].slot + 4 <= ts[t].lo || ts[t].hi <= ts[t].slot
    ensures ts[t].slot != ts[u].slot
  {
  }

  lemma SystemIntro(ts: seq<Thread>, s: System, views: seq<Resume>)
    requires Layout(ts) && |views| == |ts| && s.cur < |ts|
    requires forall t :: 0 <= t < |ts| && t != s.cur ==> Parked(s.c.mem, ts[t], views[t])
    ensures SystemInv(ts, s, views)
  {
    hide Layout, Parked;
  }

  lemma CallerParked(me: Thread, mem: Memory, e: int, x: Context)
    requires Read(mem, me.slot) == e - 16 && me.lo <= e - 16 && e + 12 <= me.hi && ContextAt(mem, e - 16) == x
    ensures Parked(mem, me, Resume(x, e + 4))
  {
    hide Read, ContextAt;
  }

  lemma ResumedWith(r: Regs, v: Resume)
    requires ContextOf(r, r.eip) == v.ctx && r.esp == v.esp
    ensures ResumeOf(r) == v
  {
  }

  lemma StaysParked(t: Thread, me: Thread, mem: Memory, mem': Memory, e: int, v: Resume)
    requires Parked(mem, t, v) && me.lo <= e - 16 && e <= me.hi
    requires t.hi <= me.lo || me.hi <= t.lo
    requires t.slot + 4 <= me.lo || me.hi <= t.slot
    requires me.slot + 4 <= t.lo || t.hi <= me.slot
    requires t.slot != me.slot
    requires forall a :: a != me.slot && (a < e - 16 || e <= a) ==> Read(mem', a) == Read(mem, a)
    ensures Parked(mem', t, v)
  {
    hide Read;
  }

  function RunEvents(s: System, es: seq<Event>): System
    decreases |es|
  {
    if es == [] then s else RunEvents(After(s, es[0]), es[1..])
  }

  function RecordEvents(views: seq<Resume>, s: System, es: seq<Event>): (r: seq<Resume>)
    ensures |r| == |views|
    decreases |es|
  {
    if es == [] then views else RecordEvents(Recorded(views, s, es[0]), After(s, es[0]), es[1..])
  }

  predicate AllPossible(ts: seq<Thread>, s: System, es: seq<Event>)
    decreases |es|
  {
    es == [] || (s.cur < |ts| && Possible(ts, s, es[0]) && AllPossible(ts, After(s, es[0]), es[1..]))
  }

  /** Over any interleaving of computations and switches, a thread that is switched to
      next resumes with the registers, stack pointer and return address that it had
      when it switched away (or, before its first run, with those prepared for it). */
  lemma {:induction false} ResumesWhatItSaved(ts: seq<Thread>, s: System, views: seq<Resume>, es: seq<Event>, next: nat)
    requires SystemInv(ts, s, views) && AllPossible(ts, s, es)
    ensures SystemInv(ts, RunEvents(s, es), RecordEvents(views, s, es))
    ensures
      var s' := RunEvents(s, es);
      Possible(ts, s', SwitchCall(next)) ==>
          ResumeOf(After(s', SwitchCall(next)).c.r) == RecordEvents(views, s, es)[next]
    decreases |es|
  {
    hide Run, SwitchTo, Layout, Parked, Respects;
    if es == [] {
      if Possible(ts, s, SwitchCall(next)) {
        SwitchStep(ts, s, views, next);
      }
    } else {
      match es[0] {
        case Compute(to) => ComputeStep(ts, s, views, to);
        case SwitchCall(n) => SwitchStep(ts, s, views, n);
      }
      hide Possible, Recorded, SystemInv, After;
      ResumesWhatItSaved(ts, After(s, es[0]), Recorded(views, s, es[0]), es[1..], next);
    }
  }
}
