/** trap and trap_ret (kernel/asm/trap.asm) on the trap frame of
    include/Tuix/trap_frame.h: an interrupt is transparent to the code it interrupts. */
module Trap {
  import opened Bits
  import opened Asm
  import opened Switch

  /** struct trap_frame; the 16-bit fields take the low half of their word. */
  datatype TrapFrame = TrapFrame(
    edi: word, esi: word, ebp: word, esp: word, ebx: word, edx: word, ecx: word, eax: word,
    gs: half, fs: half, es: half, ds: half,
    intNo: word, errCode: word,
    eip: word, cs: half, eflags: word, userEsp: word, ss: half)

  const FRAME_SIZE: int := 76
  const KER_CS: half := 0x08
  const KER_DS: half := 0x10
  const FL_IF: word := 0x200

  function FrameAt(mem: Memory, a: int): TrapFrame {
    TrapFrame(
      Read(mem, a), Read(mem, a + 4), Read(mem, a + 8), Read(mem, a + 12),
      Read(mem, a + 16), Read(mem, a + 20), Read(mem, a + 24), Read(mem, a + 28),
      Low(Read(mem, a + 32)), Low(Read(mem, a + 36)), Low(Read(mem, a + 40)), Low(Read(mem, a + 44)),
      Read(mem, a + 48), Read(mem, a + 52),
      Read(mem, a + 56), Low(Read(mem, a + 60)), Read(mem, a + 64), Read(mem, a + 68), Low(Read(mem, a + 72)))
  }

  /** trap, up to the loading of the kernel's data selector. */
  function TrapEntry(): seq<Instr> {
    [PushSeg(DS), PushSeg(ES), PushSeg(FS), PushSeg(GS), Pusha]
  }

  /** Loading of the data selector and the call of isr_handler; next is the address of
      the instruction after the call. */
  function TrapCall(handler: word, next: word): seq<Instr> {
    [LoadAx(KER_DS), MoveSeg(DS), MoveSeg(ES), MoveSeg(FS), MoveSeg(GS), Push(ESP), Call(handler, next)]
  }

  function TrapRet(): seq<Instr> {
    [Popa, PopSeg(GS), PopSeg(FS), PopSeg(ES), PopSeg(DS), AddEsp(8), Iret]
  }

  /* ---- trap_ret ---- */

  /** The registers that a frame at esp describes; cpl is the privilege level before. */
  function Returned(r: Regs, f: TrapFrame): Regs {
    Regs(f.eax, f.ebx, f.ecx, f.edx, f.esi, f.edi, f.ebp,
      if f.cs % 4 > r.cs % 4 then f.userEsp else Wrap(r.esp + 68),
      f.eip, f.eflags, f.cs, f.ds, f.es, f.fs, f.gs,
      if f.cs % 4 > r.cs % 4 then f.ss else r.ss)
  }

  lemma PopRegStep(c: Cpu, x: Reg)
    requires c.r.esp + 4 < WORD_LIMIT
    ensures PopReg(c, x) == Cpu(Set(c.r.(esp := c.r.esp + 4), x, Read(c.mem, c.r.esp)), c.mem)
  {
    hide Set;
  }

  lemma PopAllStep(c: Cpu)
    requires c.r.esp + 32 < WORD_LIMIT
    ensures
      var e := c.r.esp;
      PopAll(c) == Cpu(c.r.(edi := Read(c.mem, e), esi := Read(c.mem, e + 4), ebp := Read(c.mem, e + 8),
        ebx := Read(c.mem, e + 16), edx := Read(c.mem, e + 20), ecx := Read(c.mem, e + 24), eax := Read(c.mem, e + 28),
        esp := e + 32), c.mem)
  {
    hide Read, PopReg;
    PopRegStep(c, EDI);
    var c1 := PopReg(c, EDI);
    PopRegStep(c1, ESI);
    var c2 := PopReg(c1, ESI);
    PopRegStep(c2, EBP);
    var c3 := PopReg(c2, EBP);
    var c4 := Drop(c3);
    PopRegStep(c4, EBX);
    var c5 := PopReg(c4, EBX);
    PopRegStep(c5, EDX);
    var c6 := PopReg(c5, EDX);
    PopRegStep(c6, ECX);
    var c7 := PopReg(c6, ECX);
    PopRegStep(c7, EAX);
  }

  lemma PopSegStep(c: Cpu, x: Seg)
    requires c.r.esp + 4 < WORD_LIMIT
    ensures Exec(c, PopSeg(x)) == Cpu(SetSeg(c.r.(esp := c.r.esp + 4), x, Low(Read(c.mem, c.r.esp))), c.mem)
  {
    hide SetSeg;
  }

  lemma FourSegs(c: Cpu)
    requires c.r.esp + 16 < WORD_LIMIT
    ensures
      var e := c.r.esp;
      Run(c, [PopSeg(GS), PopSeg(FS), PopSeg(ES), PopSeg(DS)]) ==
        Cpu(c.r.(gs := Low(Read(c.mem, e)), fs := Low(Read(c.mem, e + 4)), es := Low(Read(c.mem, e + 8)),
            ds := Low(Read(c.mem, e + 12)),
          esp := e + 16), c.mem)
  {
    RunFour(c, PopSeg(GS), PopSeg(FS), PopSeg(ES), PopSeg(DS));
    hide Run, Read, Exec;
    PopSegStep(c, GS);
    var c1 := Exec(c, PopSeg(GS));
    PopSegStep(c1, FS);
    var c2 := Exec(c1, PopSeg(FS));
    PopSegStep(c2, ES);
    var c3 := Exec(c2, PopSeg(ES));
    PopSegStep(c3, DS);
  }

  /** The registers after iret, from the words that it takes off the stack. */
  function IretRegs(r: Regs, eip: word, cs: half, eflags: word, esp: word, ss: half): Regs {
    var r' := r.(eip := eip, cs := cs, eflags := eflags);
    if cs % 4 > r.cs % 4 then r'.(esp := esp, ss := ss) else r'.(esp := Wrap(r.esp + 12))
  }

  lemma IretStep(c: Cpu)
    requires c.r.esp + 20 < WORD_LIMIT
    ensures
      var e := c.r.esp;
      Exec(c, Iret) ==
        Cpu(IretRegs(c.r, Read(c.mem, e), Low(Read(c.mem, e + 4)), Read(c.mem, e + 8), Read(c.mem, e + 12),
            Low(Read(c.mem, e + 16))), c.mem)
  {
    hide Read, Low;
  }

  lemma SkipStep(c: Cpu)
    requires c.r.esp + 8 < WORD_LIMIT
    ensures Exec(c, AddEsp(8)) == Cpu(c.r.(esp := c.r.esp + 8), c.mem)
  {
  }

  lemma SkipAndReturn(c: Cpu)
    requires c.r.esp + 28 < WORD_LIMIT
    ensures
      var e := c.r.esp;
      Run(c, [AddEsp(8), Iret]) ==
        Cpu(IretRegs(c.r.(esp := e + 8), Read(c.mem, e + 8), Low(Read(c.mem, e + 12)), Read(c.mem, e + 16),
            Read(c.mem, e + 20), Low(Read(c.mem, e + 24))), c.mem)
  {
    hide *;
    FrameNumbers();
    RunTwo(c, AddEsp(8), Iret);
    SkipStep(c);
    IretStep(Cpu(c.r.(esp := c.r.esp + 8), c.mem));
  }

  lemma TrapRetPieces(c: Cpu)
    ensures
      var c1 := PopAll(c);
      var c2 := Run(c1, [PopSeg(GS), PopSeg(FS), PopSeg(ES), PopSeg(DS)]);
      Run(c, TrapRet()) == Run(c2, [AddEsp(8), Iret])
  {
    var p2, p3 := [PopSeg(GS), PopSeg(FS), PopSeg(ES), PopSeg(DS)], [AddEsp(8), Iret];
    assert TrapRet() == [Popa] + (p2 + p3);
    assert Exec(c, Popa) == PopAll(c);
    hide Run, TrapRet, Exec;
    RunCons(c, Popa, p2 + p3);
    RunConcat(PopAll(c), p2, p3);
  }

  /** trap_ret loads every register from the frame that esp points to. */
  lemma TrapRetLoads(c: Cpu)
    requires c.r.esp + FRAME_SIZE < WORD_LIMIT
    ensures Run(c, TrapRet()) == Cpu(Returned(c.r, FrameAt(c.mem, c.r.esp)), c.mem)
  {
    TrapRetPieces(c);
    hide Run, TrapRet, Read, PopAll, Low;
    PopAllStep(c);
    var c1 := PopAll(c);
    FourSegs(c1);
    var c2 := Run(c1, [PopSeg(GS), PopSeg(FS), PopSeg(ES), PopSeg(DS)]);
    SkipAndReturn(c2);
  }

  /* ---- trap ---- */

  lemma PushSegStep(c: Cpu, x: Seg)
    requires c.r.esp >= 4
    ensures
      var c' := Exec(c, PushSeg(x));
      && c'.r == c.r.(esp := c.r.esp - 4) && SameOutside(c.mem, c'.mem, c.r.esp - 4, 1)
      && Low(Read(c'.mem, c.r.esp - 4)) == GetSeg(c.r, x)
  {
    var w := Read(c.mem, Wrap(c.r.esp - 4));
    PushStep(c, WithLow(w, GetSeg(c.r, x)));
    assert Low(WithLow(w, GetSeg(c.r, x))) == GetSeg(c.r, x);
    hide GetSeg, Read;
  }

  lemma FourSegPushes(c: Cpu)
    requires c.r.esp >= 16
    ensures
      var c', e := Run(c, [PushSeg(DS), PushSeg(ES), PushSeg(FS), PushSeg(GS)]), c.r.esp;
      && c'.r == c.r.(esp := e - 16) && SameOutside(c.mem, c'.mem, e - 16, 16)
      && Low(Read(c'.mem, e - 16)) == c.r.gs && Low(Read(c'.mem, e - 12)) == c.r.fs
      && Low(Read(c'.mem, e - 8)) == c.r.es && Low(Read(c'.mem, e - 4)) == c.r.ds
  {
    RunFour(c, PushSeg(DS), PushSeg(ES), PushSeg(FS), PushSeg(GS));
    hide Run, Read, Exec, Low;
    PushSegStep(c, DS);
    var c1 := Exec(c, PushSeg(DS));
    PushSegStep(c1, ES);
    var c2 := Exec(c1, PushSeg(ES));
    PushSegStep(c2, FS);
    var c3 := Exec(c2, PushSeg(FS));
    PushSegStep(c3, GS);
  }

  lemma PushAllStep(c: Cpu)
    requires c.r.esp >= 32
    ensures
      var c', e := PushAll(c), c.r.esp;
      && c'.r == c.r.(esp := e - 32) && SameOutside(c.mem, c'.mem, e - 32, 32)
      && Read(c'.mem, e - 32) == c.r.edi && Read(c'.mem, e - 28) == c.r.esi && Read(c'.mem, e - 24) == c.r.ebp
      && Read(c'.mem, e - 20) == e && Read(c'.mem, e - 16) == c.r.ebx && Read(c'.mem, e - 12) == c.r.edx
      && Read(c'.mem, e - 8) == c.r.ecx && Read(c'.mem, e - 4) == c.r.eax
  {
    hide PushWord, Read;
    var r := c.r;
    PushStep(c, r.eax);
    var c1 := PushWord(c, r.eax);
    PushStep(c1, r.ecx);
    var c2 := PushWord(c1, r.ecx);
    PushStep(c2, r.edx);
    var c3 := PushWord(c2, r.edx);
    PushStep(c3, r.ebx);
    var c4 := PushWord(c3, r.ebx);
    PushStep(c4, r.esp);
    var c5 := PushWord(c4, r.esp);
    PushStep(c5, r.ebp);
    var c6 := PushWord(c5, r.ebp);
    PushStep(c6, r.esi);
    var c7 := PushWord(c6, r.esi);
    PushStep(c7, r.edi);
  }

  lemma TrapEntryPieces(c: Cpu)
    ensures Run(c, TrapEntry()) == PushAll(Run(c, [PushSeg(DS), PushSeg(ES), PushSeg(FS), PushSeg(GS)]))
  {
    var p1 := [PushSeg(DS), PushSeg(ES), PushSeg(FS), PushSeg(GS)];
    assert TrapEntry() == p1 + ([Pusha] + []);
    assert Exec(Run(c, p1), Pusha) == PushAll(Run(c, p1));
    hide Run, TrapEntry, Exec;
    RunConcat(c, p1, [Pusha] + []);
    RunCons(Run(c, p1), Pusha, []);
    RunNothing(PushAll(Run(c, p1)));
  }

  /** trap completes the frame: the general and segment registers, below what the
      interrupt and its stub have pushed, in the order of struct trap_frame. */
  lemma TrapSaves(c: Cpu)
    requires c.r.esp >= 48
    ensures
      var c', e := Run(c, TrapEntry()), c.r.esp;
      && c'.r == c.r.(esp := e - 48) && SameOutside(c.mem, c'.mem, e - 48, 48)
      && FrameAt(c'.mem, e - 48) == TrapFrame(
           c.r.edi, c.r.esi, c.r.ebp, e - 16, c.r.ebx, c.r.edx, c.r.ecx, c.r.eax,
           c.r.gs, c.r.fs, c.r.es, c.r.ds,
           Read(c.mem, e), Read(c.mem, e + 4),
           Read(c.mem, e + 8), Low(Read(c.mem, e + 12)), Read(c.mem, e + 16), Read(c.mem, e + 20),
               Low(Read(c.mem, e + 24)))
  {
    TrapEntryPieces(c);
    hide Run, TrapEntry, Read, PushAll, Low;
    FourSegPushes(c);
    var c1 := Run(c, [PushSeg(DS), PushSeg(ES), PushSeg(FS), PushSeg(GS)]);
    PushAllStep(c1);
  }

  /* ---- an interrupt from beginning to end ---- */

  /** What the CPU does on an interrupt through an interrupt gate (with the stack switch
      of the TSS when it comes from user mode), and the stub's two pushes. */
  function Interrupted(c: Cpu, esp0: word, num: word): Cpu {
    var c0 := if c.r.cs % 4 == 3
      then PushWord(PushWord(Cpu(c.r.(esp := esp0, ss := KER_DS), c.mem), c.r.ss), c.r.esp)
      else c;
    var c1 := PushWord(PushWord(PushWord(c0, c.r.eflags), c.r.cs), c.r.eip);
    var c2 := Cpu(c1.r.(cs := KER_CS, eflags := ClearIf(c.r.eflags)), c1.mem);
    PushWord(PushWord(c2, 0), num)
  }

  /** The flags without the interrupt flag, bit 9. */
  function ClearIf(f: word): word {
    if f / 512 % 2 == 1 then f - 512 else f
  }

  /** The stack pointer before the interrupt pushes anything. */
  function EntryEsp(r: Regs, esp0: word): int {
    if r.cs % 4 == 3 then esp0 as int else r.esp + 8
  }

  lemma InterruptedFrame(c: Cpu, esp0: word, num: word)
    requires EntryEsp(c.r, esp0) >= 28 && EntryEsp(c.r, esp0) < WORD_LIMIT
    ensures
      var c', e := Interrupted(c, esp0, num), EntryEsp(c.r, esp0) - 28;
      && c'.r == c.r.(esp := e, cs := KER_CS, eflags := ClearIf(c.r.eflags), ss := if c.r.cs % 4 == 3 then KER_DS
          else c.r.ss)
      && Read(c'.mem, e) == num && Read(c'.mem, e + 4) == 0
      && Read(c'.mem, e + 8) == c.r.eip && Read(c'.mem, e + 12) == c.r.cs && Read(c'.mem, e + 16) == c.r.eflags
      && (c.r.cs % 4 == 3 ==> Read(c'.mem, e + 20) == c.r.esp && Read(c'.mem, e + 24) == c.r.ss)
  {
    hide PushWord, Read, ClearIf;
    var d := Cpu(c.r.(esp := esp0, ss := KER_DS), c.mem);
    if c.r.cs % 4 == 3 {
      PushStep(d, c.r.ss);
      PushStep(PushWord(d, c.r.ss), c.r.esp);
    }
    var c0 := if c.r.cs % 4 == 3 then PushWord(PushWord(d, c.r.ss), c.r.esp) else c;
    PushStep(c0, c.r.eflags);
    var a := PushWord(c0, c.r.eflags);
    PushStep(a, c.r.cs);
    var b := PushWord(a, c.r.cs);
    PushStep(b, c.r.eip);
    var c1 := PushWord(b, c.r.eip);
    var c2 := Cpu(c1.r.(cs := KER_CS, eflags := ClearIf(c.r.eflags)), c1.mem);
    PushStep(c2, 0);
    PushStep(PushWord(c2, 0), num);
  }

  /** Inside the handler the interrupt flag is off. */
  lemma HandlerFlagOff(c: Cpu, esp0: word, num: word)
    requires EntryEsp(c.r, esp0) >= 28 && EntryEsp(c.r, esp0) < WORD_LIMIT
    ensures Interrupted(c, esp0, num).r.eflags / 512 % 2 == 0
  {
    InterruptedFrame(c, esp0, num);
    var q := c.r.eflags / 512;
    assert c.r.eflags == 512 * q + c.r.eflags % 512;
    hide Interrupted, Read;
    if q % 2 == 1 {
      assert (c.r.eflags - 512) / 512 == q - 1;
    }
  }

  /** The call of isr_handler: its argument is the address of the trap frame, it returns
      to `next`, and it runs with the kernel's data selector in all four registers. */
  lemma HandlerCalled(c: Cpu, handler: word, next: word)
    requires c.r.esp >= 8
    ensures
      var c', e := Run(c, TrapCall(handler, next)), c.r.esp;
      && c'.r == c.r.(eax := c.r.eax / 65536 * 65536 + 0x10, ds := 0x10, es := 0x10, fs := 0x10, gs := 0x10,
                      esp := e - 8, eip := handler)
      && Read(c'.mem, e - 4) == e && Read(c'.mem, e - 8) == next && SameOutside(c.mem, c'.mem, e - 8, 8)
  {
    hide *;
    SelectorLoaded(c);
    TrapCallPieces(c, handler, next);
    var c1 := Exec(c, LoadAx(KER_DS));
    SegsLoaded(c1);
    CallStep(Run(c1, [MoveSeg(DS), MoveSeg(ES), MoveSeg(FS), MoveSeg(GS)]), handler, next);
  }

  lemma SelectorLoaded(c: Cpu)
    ensures
      var c1 := Exec(c, LoadAx(KER_DS));
      c1 == Cpu(c.r.(eax := c.r.eax / 65536 * 65536 + 0x10), c.mem) && Low(c1.r.eax) == 0x10
  {
  }

  lemma TrapCallPieces(c: Cpu, handler: word, next: word)
    ensures
      var c1 := Exec(c, LoadAx(KER_DS));
      var c2 := Run(c1, [MoveSeg(DS), MoveSeg(ES), MoveSeg(FS), MoveSeg(GS)]);
      Run(c, TrapCall(handler, next)) == Exec(Exec(c2, Push(ESP)), Call(handler, next))
  {
    var p1, p2 := [MoveSeg(DS), MoveSeg(ES), MoveSeg(FS), MoveSeg(GS)], [Push(ESP), Call(handler, next)];
    assert TrapCall(handler, next) == [LoadAx(KER_DS)] + (p1 + p2);
    hide *;
    RunCons(c, LoadAx(KER_DS), p1 + p2);
    RunConcat(Exec(c, LoadAx(KER_DS)), p1, p2);
    RunTwo(Run(Exec(c, LoadAx(KER_DS)), p1), Push(ESP), Call(handler, next));
  }

  lemma SegsLoaded(c: Cpu)
    ensures
      var x := Low(c.r.eax);
      Run(c, [MoveSeg(DS), MoveSeg(ES), MoveSeg(FS), MoveSeg(GS)]) ==
        Cpu(c.r.(ds := x, es := x, fs := x, gs := x), c.mem)
  {
    RunFour(c, MoveSeg(DS), MoveSeg(ES), MoveSeg(FS), MoveSeg(GS));
    hide Run, Low;
  }

  lemma CallStep(c: Cpu, handler: word, next: word)
    requires c.r.esp >= 8
    ensures
      var c', e := Exec(Exec(c, Push(ESP)), Call(handler, next)), c.r.esp;
      && c'.r == c.r.(esp := e - 8, eip := handler)
      && Read(c'.mem, e - 4) == e && Read(c'.mem, e - 8) == next && SameOutside(c.mem, c'.mem, e - 8, 8)
  {
    PushStep(c, c.r.esp);
    var c1 := PushWord(c, c.r.esp);
    assert Exec(c, Push(ESP)) == c1;
    PushStep(c1, next);
    hide Read;
  }

  /** The return from isr_handler: it has taken its return address off the stack and may
      have changed the general and data segment registers, the flags and all memory but
      the trap frame. */
  ghost predicate HandlerReturned(c: Cpu, h: Cpu) {
    && h.r.esp == c.r.esp + 4 && h.r.cs == c.r.cs && h.r.ss == c.r.ss
    && SameRange(c.mem, h.mem, c.r.esp + 8, c.r.esp + 8 + FRAME_SIZE)
  }

  /** An interrupt, from user mode or from the kernel, is transparent: trap calls
      isr_handler with the address of a frame that holds the interrupted registers, and
      if the handler returns with the frame as it was, the interrupted code goes on with
      every register as it was, its flags included. */
  lemma InterruptTransparent(c: Cpu, esp0: word, num: word, handler: word, next: word, h: Cpu)
    requires c.r.cs % 4 == 0 || c.r.cs % 4 == 3
    requires 84 <= EntryEsp(c.r, esp0) < WORD_LIMIT
    requires HandlerReturned(Run(Run(Interrupted(c, esp0, num), TrapEntry()), TrapCall(handler, next)), h)
    ensures
      var c', e := Run(Run(Interrupted(c, esp0, num), TrapEntry()), TrapCall(handler, next)), EntryEsp(c.r, esp0) - 76;
      && c'.r.eip == handler && Read(c'.mem, c'.r.esp) == next && Read(c'.mem, c'.r.esp + 4) == e
      && c'.r.ds == c'.r.es == c'.r.fs == c'.r.gs == 0x10 && c'.r.cs == 0x08
      && FrameHolds(FrameAt(c'.mem, e), c.r, num)
    ensures Run(Exec(h, AddEsp(4)), TrapRet()).r == c.r
  {
    hide *;
    FrameNumbers();
    if c.r.cs % 4 != 3 {
      KernelEntry(c.r, esp0);
    }
    InterruptedFrame(c, esp0, num);
    var c0 := Interrupted(c, esp0, num);
    TrapSaves(c0);
    var c1 := Run(c0, TrapEntry());
    HandlerCalled(c1, handler, next);
    var c2 := Run(c1, TrapCall(handler, next));
    var e := EntryEsp(c.r, esp0) - 76;
    LowHalf(c.r.cs);
    LowHalf(c.r.ss);
    FrameSame(c1.mem, c2.mem, e);
    HandlerLeaves(c2, h, e);
    ArgumentOff(h);
    TrapRetLoads(Exec(h, AddEsp(4)));
    var f := FrameAt(c2.mem, e);
    FrameHoldsIntro(c.r, num, f);
    ReturnedIs(c.r, Exec(h, AddEsp(4)).r, f, EntryEsp(c.r, esp0));
  }

  /** A frame that describes the interrupted registers; stack pointer and segment are
      part of it only when the interrupt comes from user mode. */
  predicate FrameHolds(f: TrapFrame, r: Regs, num: word) {
    && f.edi == r.edi && f.esi == r.esi && f.ebp == r.ebp && f.ebx == r.ebx && f.edx == r.edx
    && f.ecx == r.ecx && f.eax == r.eax && f.gs == r.gs && f.fs == r.fs && f.es == r.es && f.ds == r.ds
    && f.intNo == num && f.errCode == 0 && f.eip == r.eip && f.cs == r.cs && f.eflags == r.eflags
    && (r.cs % 4 == 3 ==> f.userEsp == r.esp && f.ss == r.ss)
  }

  lemma FrameHoldsIntro(r: Regs, num: word, f: TrapFrame)
    requires f.edi == r.edi && f.esi == r.esi && f.ebp == r.ebp && f.ebx == r.ebx && f.edx == r.edx
    requires f.ecx == r.ecx && f.eax == r.eax && f.gs == r.gs && f.fs == r.fs && f.es == r.es && f.ds == r.ds
    requires f.intNo == num && f.errCode == 0 && f.eip == r.eip && f.cs == r.cs && f.eflags == r.eflags
    requires r.cs % 4 == 3 ==> f.userEsp == r.esp && f.ss == r.ss
    ensures FrameHolds(f, r, num)
  {
  }

  /** What lies below a frame does not matter for it. */
  lemma FrameSame(mem: Memory, mem': Memory, a: int)
    requires SameOutside(mem, mem', a - 8, 8)
    ensures FrameAt(mem', a) == FrameAt(mem, a)
  {
    hide Read, Low;
  }

  lemma HandlerLeaves(c: Cpu, h: Cpu, a: int)
    requires HandlerReturned(c, h) && c.r.esp == a - 8
    ensures h.r.esp == a - 4 && h.r.cs == c.r.cs && h.r.ss == c.r.ss && FrameAt(h.mem, a) == FrameAt(c.mem, a)
  {
    hide Read, Low;
    forall x | a <= x < a + FRAME_SIZE ensures Read(h.mem, x) == Read(c.mem, x) {
    }
  }

  lemma ArgumentOff(h: Cpu)
    requires h.r.esp + 4 < WORD_LIMIT
    ensures Exec(h, AddEsp(4)) == Cpu(h.r.(esp := h.r.esp + 4), h.mem)
  {
  }

  lemma KernelEntry(r: Regs, esp0: word)
    requires r.cs % 4 != 3
    ensures EntryEsp(r, esp0) == r.esp + 8
  {
  }

  lemma FrameNumbers()
    ensures FRAME_SIZE == 76 && WORD_LIMIT == 0x1_0000_0000 && KER_CS == 0x08
  {
  }

  lemma ReturnedIs(r: Regs, h: Regs, f: TrapFrame, top: int)
    requires r.cs % 4 == 0 || r.cs % 4 == 3
    requires h.cs == KER_CS && h.esp == top - 76 && 76 <= top < WORD_LIMIT
    requires r.cs % 4 != 3 ==> top == r.esp + 8 && h.ss == r.ss
    requires r.cs % 4 == 3 ==> f.userEsp == r.esp && f.ss == r.ss
    requires f.edi == r.edi && f.esi == r.esi && f.ebp == r.ebp && f.ebx == r.ebx && f.edx == r.edx && f.ecx == r.ecx
      && f.eax == r.eax
    requires f.gs == r.gs && f.fs == r.fs && f.es == r.es && f.ds == r.ds
    requires f.eip == r.eip && f.cs == r.cs && f.eflags == r.eflags
    ensures Returned(h, f) == r
  {
  }

  lemma LowHalf(h: half)
    ensures Low(h) == h
  {
  }
}
