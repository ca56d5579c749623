/** The instructions that switch.asm and trap.asm use, on registers and a memory of
    32-bit words. Addresses are byte addresses; the code only uses them in steps of 4. */
module Asm {
  import opened Bits

  datatype Reg = EAX | EBX | ECX | EDX | ESI | EDI | EBP | ESP
  datatype Seg = DS | ES | FS | GS

  datatype Regs = Regs(
    eax: word, ebx: word, ecx: word, edx: word, esi: word, edi: word, ebp: word, esp: word,
    eip: word, eflags: word,
    cs: half, ds: half, es: half, fs: half, gs: half, ss: half)

  type Memory = map<int, word>

  datatype Cpu = Cpu(r: Regs, mem: Memory)

  datatype Instr =
    | Load(dst: Reg, base: Reg, off: word)   // mov dst, [base + off]
    | Store(base: Reg, src: Reg)             // mov [base], src
    | Move(dst: Reg, src: Reg)
    | Push(src: Reg)
    | Pop(dst: Reg)
    | PushSeg(seg: Seg)
    | PopSeg(seg: Seg)
    | Pusha
    | Popa
    | AddEsp(n: word)
    | LoadAx(x: half)                        // mov ax, x
    | MoveSeg(seg: Seg)                      // mov seg, ax
    | Call(target: word, next: word)         // next is the address after it
    | Ret
    | Iret

  function Read(mem: Memory, a: int): word {
    if a in mem then mem[a] else 0
  }

  function Get(r: Regs, x: Reg): word {
    match x
    case EAX => r.eax
    case EBX => r.ebx
    case ECX => r.ecx
    case EDX => r.edx
    case ESI => r.esi
    case EDI => r.edi
    case EBP => r.ebp
    case ESP => r.esp
  }

  function Set(r: Regs, x: Reg, v: word): Regs {
    match x
    case EAX => r.(eax := v)
    case EBX => r.(ebx := v)
    case ECX => r.(ecx := v)
    case EDX => r.(edx := v)
    case ESI => r.(esi := v)
    case EDI => r.(edi := v)
    case EBP => r.(ebp := v)
    case ESP => r.(esp := v)
  }

  function GetSeg(r: Regs, x: Seg): half {
    match x
    case DS => r.ds
    case ES => r.es
    case FS => r.fs
    case GS => r.gs
  }

  function SetSeg(r: Regs, x: Seg, v: half): Regs {
    match x
    case DS => r.(ds := v)
    case ES => r.(es := v)
    case FS => r.(fs := v)
    case GS => r.(gs := v)
  }

  function PushWord(c: Cpu, w: word): Cpu {
    var a := Wrap(c.r.esp - 4);
    Cpu(c.r.(esp := a), c.mem[a as int := w])
  }

  /** The word on top of the stack, and the state without it. */
  function Top(c: Cpu): word {
    Read(c.mem, c.r.esp)
  }

  function Drop(c: Cpu): Cpu {
    Cpu(c.r.(esp := Wrap(c.r.esp + 4)), c.mem)
  }

  /** A segment register pushed as a 32-bit slot fills its low half. */
  function WithLow(w: word, h: half): word {
    w / 65536 * 65536 + h
  }

  function Low(w: word): half {
    w % 65536
  }

  function PushAll(c: Cpu): Cpu {
    var r := c.r;
    PushWord(PushWord(PushWord(PushWord(PushWord(PushWord(PushWord(PushWord(c,
      r.eax), r.ecx), r.edx), r.ebx), r.esp), r.ebp), r.esi), r.edi)
  }

  function PopReg(c: Cpu, x: Reg): Cpu {
    var d := Drop(c);
    Cpu(Set(d.r, x, Top(c)), d.mem)
  }

  /** popa skips the saved esp. */
  function PopAll(c: Cpu): Cpu {
    PopReg(PopReg(PopReg(PopReg(Drop(PopReg(PopReg(PopReg(c, EDI), ESI), EBP)), EBX), EDX), ECX), EAX)
  }

  /** iret: to an outer privilege level it also takes the stack pointer and segment. */
  function InterruptReturn(c: Cpu): Cpu {
    var c1 := Drop(c);
    var c2 := Drop(c1);
    var c3 := Drop(c2);
    var r := c3.r.(eip := Top(c), cs := Low(Top(c1)), eflags := Top(c2));
    if r.cs % 4 > c.r.cs % 4 then Cpu(r.(esp := Top(c3), ss := Low(Top(Drop(c3)))), c.mem)
    else Cpu(r, c.mem)
  }

  function Exec(c: Cpu, i: Instr): Cpu {
    match i
    case Load(dst, base, off) => Cpu(Set(c.r, dst, Read(c.mem, Wrap(Get(c.r, base) + off))), c.mem)
    case Store(base, src) => Cpu(c.r, c.mem[Get(c.r, base) as int := Get(c.r, src)])
    case Move(dst, src) => Cpu(Set(c.r, dst, Get(c.r, src)), c.mem)
    case Push(src) => PushWord(c, Get(c.r, src))
    case Pop(dst) => PopReg(c, dst)
    case PushSeg(s) => PushWord(c, WithLow(Read(c.mem, Wrap(c.r.esp - 4)), GetSeg(c.r, s)))
    case PopSeg(s) => Cpu(SetSeg(Drop(c).r, s, Low(Top(c))), c.mem)
    case Pusha => PushAll(c)
    case Popa => PopAll(c)
    case AddEsp(n) => Cpu(c.r.(esp := Wrap(c.r.esp + n)), c.mem)
    case LoadAx(x) => Cpu(c.r.(eax := WithLow(c.r.eax, x)), c.mem)
    case MoveSeg(s) => Cpu(SetSeg(c.r, s, Low(c.r.eax)), c.mem)
    case Call(target, next) => Cpu(PushWord(c, next).r.(eip := target), PushWord(c, next).mem)
    case Ret => Cpu(Drop(c).r.(eip := Top(c)), c.mem)
    case Iret => InterruptReturn(c)
  }

  function Run(c: Cpu, code: seq<Instr>): Cpu
    decreases |code|
  {
    if code == [] then c else Run(Exec(c, code[0]), code[1..])
  }

  lemma RunCons(c: Cpu, i: Instr, code: seq<Instr>)
    ensures Run(c, [i] + code) == Run(Exec(c, i), code)
  {
    assert ([i] + code)[1..] == code;
    hide Exec;
  }
}
