/** The first process from init_user to user mode: what lies on its kernel stack and in
    its address space, and its first run through switch_to, fork_ret and trap_ret. */
module ProcStart {
  import opened Bits
  import opened Mmu
  import opened Options
  import opened ProcTable
  import opened Sched
  import opened Switch
  import A = Asm
  import B = Boot
  import F = FirstProcess
  import K = KernelSpace
  import P = PageAllocator
  import Spinlock
  import T = Trap
  import U = UserSpace
  import V = Vm

  /* ---- physical memory as the kernel's words ---- */

  /** The words of RAM at their addresses in the direct map. */
  function Words(m: P.Mem): A.Memory
    requires P.Shape(m)
  {
    map a: int | KERNBASE <= a < KERNBASE + PHYSTOP && a % 4 == 0 :: P.Load(m, a)
  }

  lemma WordAt(m: P.Mem, f: nat, off: nat)
    requires P.Shape(m) && f < NFRAMES && off < 4096 && off % 4 == 0
    ensures A.Read(Words(m), PageAddr(f) + off) == m.ram[f][off / 4]
  {
    WithinPage(f, off);
    hide PageAddr, FrameOf;
  }

  lemma StoreLoad(m: P.Mem, a: word, w: word, b: word)
    requires P.Shape(m) && InRam(a) && a % 4 == 0 && b % 4 == 0
    ensures P.Shape(P.Store(m, a, w)) && P.Load(P.Store(m, a, w), b) == if b == a then w else P.Load(m, b)
  {
    if InRam(b) && FrameOf(a) == FrameOf(b) && a % 4096 / 4 == b % 4096 / 4 {
      SameWord(a, b);
    }
  }

  lemma SameWord(a: word, b: word)
    requires InRam(a) && InRam(b) && a % 4 == 0 && b % 4 == 0
    requires FrameOf(a) == FrameOf(b) && a % 4096 / 4 == b % 4096 / 4
    ensures a == b
  {
    AddressParts(a);
    AddressParts(b);
    hide FrameOf, PageAddr;
  }

  /** An aligned address is its frame's address and the offset of its word. */
  lemma AddressParts(a: word)
    requires InRam(a) && a % 4 == 0
    ensures a == PageAddr(FrameOf(a)) + 4 * (a % 4096 / 4)
  {
    var q, r := a / 4096, a % 4096;
    assert a == 4096 * q + r;
    assert FrameOf(a) == q - 524288;
    assert r % 4 == 0 by { assert r == a - 4 * (1024 * q); DivideSum(-1024 * q, a, 4); }
  }

  /** A store changes one word. */
  lemma StoreWord(m: P.Mem, f: nat, off: nat, w: word)
    requires P.Shape(m) && f < NFRAMES && off < 4096 && off % 4 == 0
    ensures
      var a := PageAddr(f) + off;
      && P.Shape(P.Store(m, a, w)) && A.Read(Words(P.Store(m, a, w)), a) == w
      && SameOutside(Words(m), Words(P.Store(m, a, w)), a, 1)
  {
    WithinPage(f, off);
    var a := PageAddr(f) + off;
    hide P.Store, P.Load, PageAddr, FrameOf;
    StoreLoad(m, a, w, a);
    forall b | b < a || a + 1 <= b ensures A.Read(Words(P.Store(m, a, w)), b) == A.Read(Words(m), b) {
      if KERNBASE <= b < KERNBASE + PHYSTOP && b % 4 == 0 {
        StoreLoad(m, a, w, b);
      }
    }
  }

  lemma {:induction false} ClearedWords(m: P.Mem, f: nat, off: nat, n: nat)
    requires P.Shape(m) && f < NFRAMES && off % 4 == 0 && off + 4 * n <= 4096
    ensures
      var a := PageAddr(f) + off;
      var r := ClearWords(m, a, n);
      && (forall i :: 0 <= i < n ==> A.Read(Words(r), a + 4 * i) == 0)
      && SameOutside(Words(m), Words(r), a, 4 * n)
    decreases n
  {
    hide P.Store, Words, A.Read;
    if n == 0 {
    } else {
      ClearedWords(m, f, off, n - 1);
      StoreWord(ClearWords(m, PageAddr(f) + off, n - 1), f, off + 4 * (n - 1), 0);
    }
  }

  /** A frame that is the same holds the same words. */
  lemma FrameWords(m: P.Mem, m': P.Mem, f: nat)
    requires P.Shape(m) && P.Shape(m') && f < NFRAMES && m'.ram[f] == m.ram[f]
    ensures SameRange(Words(m), Words(m'), PageAddr(f), PageAddr(f) + PAGE)
  {
    forall a | PageAddr(f) <= a < PageAddr(f) + PAGE ensures A.Read(Words(m'), a) == A.Read(Words(m), a) {
      var off := a - PageAddr(f);
      if a % 4 == 0 {
        assert off % 4 == 0;
        WordAt(m, f, off);
        WordAt(m', f, off);
      }
    }
  }

  /* ---- the kernel stack ---- */

  /** A kernel stack on which switch_to finds fork_ret, and its return finds trap_ret. */
  predicate Prepared(mem: A.Memory, kstack: int, forkRet: word, trapRet: word) {
    && ContextAt(mem, kstack + CTX_OFF) == Context(0, 0, 0, 0, forkRet)
    && A.Read(mem, kstack + RET_OFF) == trapRet
  }

  /** The registers with which init_user wants the first process to start. */
  function UserFrame(): T.TrapFrame {
    T.TrapFrame(0, 0, 0, 0, 0, 0, 0, 0, 0, 0, 0x23, 0x23, 0, 0, 0, 0x1B, 0x200, 4096, 0x23)
  }

  lemma StackPrepared(m: P.Mem, f: nat, forkRet: word, trapRet: word)
    requires P.Shape(m) && f < NFRAMES
    ensures PageAddr(f) + PAGE <= WORD_LIMIT
    ensures Prepared(Words(StackPage(m, PageAddr(f), forkRet, trapRet)), PageAddr(f), forkRet, trapRet)
  {
    hide P.Store, Words, A.Read, ClearWords;
    var page := PageAddr(f);
    StoreWord(m, f, RET_OFF, trapRet);
    var m1 := P.Store(m, page + RET_OFF, trapRet);
    ClearedWords(m1, f, CTX_OFF, 5);
    var m2 := ClearWords(m1, page + CTX_OFF, 5);
    var a := page + CTX_OFF;
    assert A.Read(Words(m2), a + 4 * 0) == 0 && A.Read(Words(m2), a + 4 * 1) == 0;
    assert A.Read(Words(m2), a + 4 * 2) == 0 && A.Read(Words(m2), a + 4 * 3) == 0;
    StoreWord(m2, f, CTX_OFF + 16, forkRet);
  }


  lemma LoadRead(m: P.Mem, f: nat, off: nat)
    requires P.Shape(m) && f < NFRAMES && off < 4096 && off % 4 == 0
    ensures P.Load(m, PageAddr(f) + off) == A.Read(Words(m), PageAddr(f) + off)
  {
    WithinPage(f, off);
    hide PageAddr, FrameOf;
  }

  lemma SelectorWords(m: P.Mem, f: nat)
    requires P.Shape(m) && f < NFRAMES
    ensures PageAddr(f) + PAGE <= WORD_LIMIT
    ensures
      var tf := PageAddr(f) + TF_OFF;
      var mem, mem' := Words(m), Words(PutSelectors(m, tf));
      && A.Read(mem', tf + 60) == 0x1B && A.Read(mem', tf + 44) == 0x23
      && A.Read(mem', tf + 40) == 0x23 && A.Read(mem', tf + 72) == 0x23
      && (forall a :: a < tf + 40 || tf + 44 < a < tf + 60 || tf + 60 < a < tf + 72 || tf + 72 < a ==>
            A.Read(mem', a) == A.Read(mem, a))
  {
    hide P.Store, P.Load, BitOr, Words, A.Read;
    UserSelectors();
    var tf := PageAddr(f) + TF_OFF;
    StoreWord(m, f, TF_OFF + 60, BitOr(3 * 8, 3));
    var m1 := P.Store(m, tf + 60, BitOr(3 * 8, 3));
    StoreWord(m1, f, TF_OFF + 44, BitOr(4 * 8, 3));
    var m2 := P.Store(m1, tf + 44, BitOr(4 * 8, 3));
    LoadRead(m2, f, TF_OFF + 44);
    StoreWord(m2, f, TF_OFF + 40, P.Load(m2, tf + 44));
    var m3 := P.Store(m2, tf + 40, P.Load(m2, tf + 44));
    LoadRead(m3, f, TF_OFF + 44);
    StoreWord(m3, f, TF_OFF + 72, P.Load(m3, tf + 44));
  }

  /** The trap frame as init_user leaves it; nothing outside it changes. */
  lemma FrameFilled(m: P.Mem, f: nat)
    requires P.Shape(m) && f < NFRAMES
    ensures PageAddr(f) + PAGE <= WORD_LIMIT
    ensures
      var tf := PageAddr(f) + TF_OFF;
      var r := PutFrame(m, tf);
      T.FrameAt(Words(r), tf) == UserFrame() && SameOutside(Words(m), Words(r), tf, T.FRAME_SIZE)
  {
    hide P.Store, ClearWords, PutSelectors, Words, A.Read, T.FrameAt, UserFrame;
    var tf := PageAddr(f) + TF_OFF;
    ClearedWords(m, f, TF_OFF, 19);
    var m1 := ClearWords(m, tf, 19);
    ClearedFrame(Words(m1), tf);
    SelectorWords(m1, f);
    var m2 := PutSelectors(m1, tf);
    StoreWord(m2, f, TF_OFF + 64, T.FL_IF);
    var m3 := P.Store(m2, tf + 64, T.FL_IF);
    StoreWord(m3, f, TF_OFF + 68, 4096);
    var m4 := P.Store(m3, tf + 68, 4096);
    StoreWord(m4, f, TF_OFF + 56, 0);
    FilledFrame(Words(m1), Words(PutFrame(m, tf)), tf);
  }

  lemma ClearedFrame(mem: A.Memory, tf: int)
    requires forall i :: 0 <= i < 19 ==> A.Read(mem, tf + 4 * i) == 0
    ensures T.FrameAt(mem, tf) == T.TrapFrame(0, 0, 0, 0, 0, 0, 0, 0, 0, 0, 0, 0, 0, 0, 0, 0, 0, 0, 0)
  {
    forall i | 0 <= i < 19 ensures A.Read(mem, tf + 4 * i) == 0 {
    }
    assert A.Read(mem, tf + 4 * 0) == 0 && A.Read(mem, tf + 4 * 1) == 0 && A.Read(mem, tf + 4 * 2) == 0
      && A.Read(mem, tf + 4 * 3) == 0;
    assert A.Read(mem, tf + 4 * 4) == 0 && A.Read(mem, tf + 4 * 5) == 0 && A.Read(mem, tf + 4 * 6) == 0
      && A.Read(mem, tf + 4 * 7) == 0;
    assert A.Read(mem, tf + 4 * 8) == 0 && A.Read(mem, tf + 4 * 9) == 0 && A.Read(mem, tf + 4 * 10) == 0
      && A.Read(mem, tf + 4 * 11) == 0;
    assert A.Read(mem, tf + 4 * 12) == 0 && A.Read(mem, tf + 4 * 13) == 0 && A.Read(mem, tf + 4 * 14) == 0
      && A.Read(mem, tf + 4 * 15) == 0;
    assert A.Read(mem, tf + 4 * 16) == 0 && A.Read(mem, tf + 4 * 17) == 0 && A.Read(mem, tf + 4 * 18) == 0;
    hide A.Read;
  }

  lemma FilledFrame(mem: A.Memory, mem': A.Memory, tf: int)
    requires T.FrameAt(mem, tf) == T.TrapFrame(0, 0, 0, 0, 0, 0, 0, 0, 0, 0, 0, 0, 0, 0, 0, 0, 0, 0, 0)
    requires A.Read(mem', tf + 60) == 0x1B && A.Read(mem', tf + 44) == 0x23 && A.Read(mem', tf + 40) == 0x23
      && A.Read(mem', tf + 72) == 0x23
    requires A.Read(mem', tf + 64) == T.FL_IF && A.Read(mem', tf + 68) == 4096 && A.Read(mem', tf + 56) == 0
    requires forall a :: tf <= a < tf + 40 ==> A.Read(mem', a) == A.Read(mem, a)
    requires A.Read(mem', tf + 48) == A.Read(mem, tf + 48) && A.Read(mem', tf + 52) == A.Read(mem, tf + 52)
    ensures T.FrameAt(mem', tf) == UserFrame()
  {
    hide A.Read;
  }

  /* ---- what init_user leaves behind ---- */

  /** The entry of the first process: kernel stack in the first free page, directory in
      the second. */
  function ReadyRecord(e: Record, pid: int, fs: seq<nat>): Record
    requires |fs| >= 2 && fs[0] < NFRAMES && fs[1] < NFRAMES
  {
    e.(state := RUNNABLE, pid := pid, kstack := PageAddr(fs[0]), tf := PageAddr(fs[0]) + TF_OFF,
       ctx := PageAddr(fs[0]) + CTX_OFF, pgdir := PageAddr(fs[1]), size := 4096, name := "initcode")
  }

  /** setup_kvm and init_uvm, with at least the pages of the kernel half: they end well
      for an image that fits a page, whether page 0 gets mapped or not, and leave every
      page that was not free before. */
  lemma SpaceBuilt(m: P.Mem, gs: seq<nat>, kdata: word, init: seq<byte>, f: nat)
    requires P.FreeList(m, gs) && |gs| >= 65 && K.Admissible(kdata) && |init| <= 4096 && f < NFRAMES && f !in gs
    ensures gs[0] < NFRAMES && K.SetupKvm(m, kdata).0 == K.Ready(PageAddr(gs[0]))
    ensures
      var m2 := K.SetupKvm(m, kdata).1;
      var (u, m3) := U.InitUvm(m2, PageAddr(gs[0]), init);
      && u == U.UvmDone && m3.ram[f] == m.ram[f]
      && (V.Lookup(m3, gs[0], 0).Some? <==> |gs| >= 67)
  {
    K.SetupKvmCorrect(m, gs, kdata);
    var m2, d, hs := K.SetupKvm(m, kdata).1, gs[0], gs[65..];
    hide K.SetupKvm, K.Admissible, U.InitUvm, V.Dir, U.UserPage, V.IsTable, P.Chain, P.NoDup, V.Lookup;
    assert forall x :: x in gs[..65] ==> x in gs;
    assert forall x :: x in hs ==> x in gs;
    U.KernelDirectoryAt(m2, hs, d, kdata, 0);
    U.InitUvmIff(m2, hs, d, init);
    if |hs| >= 2 {
      U.InitUvmSteps(m2, hs, d, init);
      F.UserPageFrames(m2, U.InitUvm(m2, PageAddr(d), init).1, hs, d, init);
      assert forall x :: x in hs[..2] ==> x in hs;
    } else {
      U.InitUvmStarved(m2, hs, d, init);
    }
  }

  /** The second half of init_user, after a kernel stack in frame f. */
  lemma FurnishedCases(s: Kernel, i: nat, f: nat, gs: seq<nat>, kdata: word, init: seq<byte>)
    requires P.FreeList(s.mem, gs) && f < NFRAMES && f !in gs
    requires i < |s.table| && s.table[i].tf == PageAddr(f) + TF_OFF
    ensures s.table[i].tf + T.FRAME_SIZE <= WORD_LIMIT
    ensures
      var (o, s') := Furnished(s, i, kdata, init);
      && o != NoProcess && (o == OutOfMemory <==> gs == [])
      && (o.Started? <==> |gs| >= 65 && K.Admissible(kdata) && |init| <= 4096)
      && (o.Started? ==>
            && gs[0] < NFRAMES && o.i == i && s'.nextPid == s.nextPid
            && s'.table == s.table[i := s.table[i].(pgdir := PageAddr(gs[0]), size := 4096, name := "initcode",
                state := RUNNABLE)]
            && s'.mem == PutFrame(U.InitUvm(K.SetupKvm(s.mem, kdata).1, PageAddr(gs[0]), init).1, PageAddr(f) + TF_OFF))
      && (!o.Started? ==>
            && |s'.table| == |s.table| && s'.nextPid == s.nextPid && (gs == [] ==> s'.table[i].pgdir == 0)
            && s'.table == s.table[i := s.table[i].(pgdir := s'.table[i].pgdir)])
  {
    StackOnly(s.mem, f, 0, 0);
    K.SetupKvmCorrect(s.mem, gs, kdata);
    TooLong(K.SetupKvm(s.mem, kdata).1, init);
    if |gs| >= 65 && K.Admissible(kdata) && |init| <= 4096 {
      SpaceBuilt(s.mem, gs, kdata, init, f);
    }
    hide StackPage, K.SetupKvm, K.Admissible, P.FreeList, PutFrame, V.Lookup, V.IsTable, K.KernelDirectory, U.InitUvm;
  }

  /** How init_user ends, for any process table and any free list. */
  lemma UserReadyCases(s: Kernel, fs: seq<nat>, kdata: word, init: seq<byte>, forkRet: word, trapRet: word)
    requires P.FreeList(s.mem, fs)
    ensures P.GoodHead(s.mem)
    ensures
      var (o, s') := UserReady(s, kdata, init, forkRet, trapRet);
      var i := FirstUnused(s.table);
      && (o == NoProcess <==> i == |s.table| || fs == [])
      && (o == OutOfMemory <==> i < |s.table| && |fs| == 1)
      && (o.Started? <==> i < |s.table| && |fs| >= 66 && K.Admissible(kdata) && |init| <= 4096)
      && (o.Started? ==>
            && fs[0] < NFRAMES && fs[1] < NFRAMES && o.i == i && s'.nextPid == s.nextPid + 1
            && s'.table == s.table[i := ReadyRecord(s.table[i], s.nextPid, fs)])
      && (o == OutOfMemory || o == Stopped ==>
            && |s'.table| == |s.table| && fs[0] < NFRAMES && s'.nextPid == s.nextPid + 1
            && s'.table == s.table[i := StackedRecord(s.table[i], s.nextPid, fs[0]).(pgdir := s'.table[i].pgdir)])
  {
    hide *;
    var i := FirstUnused(s.table);
    AllocatedCases(s, fs, forkRet, trapRet);
    ListShape(s.mem, fs);
    UserReadyIs(s, kdata, init, forkRet, trapRet);
    if i < |s.table| && fs != [] {
      var s1 := Allocated(s, forkRet, trapRet).1;
      StackTaken(s, fs, i, forkRet, trapRet);
      FurnishedCases(s1, i, fs[0], fs[1..], kdata, init);
      if |fs| >= 2 {
        ReadyEntry(s.table, s1.table, i, s.nextPid, fs);
      }
      var (o, s') := Furnished(s1, i, kdata, init);
      if !o.Started? {
        StoppedEntry(s.table, s1.table, s'.table, i, s.nextPid, fs[0]);
      }
    }
  }

  lemma StoppedEntry(table: seq<Record>, table1: seq<Record>, table2: seq<Record>, i: nat, pid: int, f: nat)
    requires i < |table| && f < NFRAMES && table1 == table[i := StackedRecord(table[i], pid, f)] && |table2| == |table1|
    requires table2 == table1[i := table1[i].(pgdir := table2[i].pgdir)]
    ensures table2 == table[i := StackedRecord(table[i], pid, f).(pgdir := table2[i].pgdir)]
  {
    hide PageAddr;
  }

  lemma ListShape(m: P.Mem, fs: seq<nat>)
    requires P.FreeList(m, fs)
    ensures P.Shape(m) && P.GoodHead(m)
    ensures forall f :: f in fs ==> f < NFRAMES
    ensures fs != [] ==> fs[0] < NFRAMES && fs[0] !in fs[1..]
  {
    P.AllocPops(m, fs);
    P.ChainBounds(m.ram, m.freelist, fs);
    hide P.Chain;
  }

  lemma UserReadyIs(s: Kernel, kdata: word, init: seq<byte>, forkRet: word, trapRet: word)
    requires P.Shape(s.mem) && P.GoodHead(s.mem)
    ensures
      var (p, s1) := Allocated(s, forkRet, trapRet);
      && (p.Some? ==> P.Shape(s1.mem) && p.value < |s1.table| && s1.table[p.value].tf + T.FRAME_SIZE <= WORD_LIMIT)
      && UserReady(s, kdata, init, forkRet, trapRet) ==
           if p == None then (NoProcess, s1) else Furnished(s1, p.value, kdata, init)
  {
    hide Allocated, Furnished;
  }

  /** The state between alloc_process and the rest of init_user. */
  lemma StackTaken(s: Kernel, fs: seq<nat>, i: nat, forkRet: word, trapRet: word)
    requires P.FreeList(s.mem, fs) && P.GoodHead(s.mem) && i == FirstUnused(s.table) < |s.table| && fs != []
    ensures fs[0] < NFRAMES && PageAddr(fs[0]) + PAGE <= WORD_LIMIT
    ensures P.Shape(s.mem) && P.Shape(P.Alloc(s.mem).1)
    ensures
      var (p, s1) := Allocated(s, forkRet, trapRet);
      && p == Some(i) && s1.nextPid == s.nextPid + 1 && |s1.table| == |s.table|
      && s1.table == s.table[i := StackedRecord(s.table[i], s.nextPid, fs[0])]
      && s1.table[i].tf == PageAddr(fs[0]) + TF_OFF
      && s1.mem == StackPage(P.Alloc(s.mem).1, PageAddr(fs[0]), forkRet, trapRet)
      && P.FreeList(s1.mem, fs[1..])
      && (forall g :: 0 <= g < NFRAMES && g != fs[0] ==> s1.mem.ram[g] == s.mem.ram[g])
  {
    AllocatedCases(s, fs, forkRet, trapRet);
    ConfiguredCases(s, fs, i, forkRet, trapRet);
    hide Configured, Allocated, P.FreeList, StackPage, P.Alloc;
  }

  /** The entry after config_proc_kstack. */
  function StackedRecord(e: Record, pid: int, f: nat): Record
    requires f < NFRAMES
  {
    e.(state := EMBRYO, pid := pid, kstack := PageAddr(f), tf := PageAddr(f) + TF_OFF, ctx := PageAddr(f) + CTX_OFF)
  }

  lemma ReadyEntry(table: seq<Record>, table1: seq<Record>, i: nat, pid: int, fs: seq<nat>)
    requires i < |table| && |fs| >= 2 && fs[0] < NFRAMES && table1 == table[i := StackedRecord(table[i], pid, fs[0])]
    ensures |table1| == |table|
    ensures fs[1..][0] == fs[1]
    ensures fs[1] < NFRAMES ==>
      table1[i := table1[i].(pgdir := PageAddr(fs[1]), size := 4096, name := "initcode", state := RUNNABLE)] ==
        table[i := ReadyRecord(table[i], pid, fs)]
  {
    hide PageAddr;
  }

  lemma TooLong(m: P.Mem, init: seq<byte>)
    requires P.Shape(m)
    ensures forall pgdir: word :: |init| > 4096 ==> U.InitUvm(m, pgdir, init).0 == U.UvmPanicked
  {
  }

  /* ---- the first run of a process ---- */

  /** A prepared process is a parked thread like any other: it will resume in fork_ret
      with cleared registers and the address of trap_ret on its stack. */
  lemma PreparedIsParked(mem: A.Memory, kstack: int, slot: word, forkRet: word, trapRet: word)
    requires Prepared(mem, kstack, forkRet, trapRet) && A.Read(mem, slot) == kstack + CTX_OFF
    ensures Parked(mem, Thread(kstack, kstack + PAGE, slot), Resume(Context(0, 0, 0, 0, forkRet), kstack + RET_OFF))
  {
    hide A.Read;
  }

  /** The registers of the first process when it starts in user mode. */
  function UserRegs(): A.Regs {
    A.Regs(0, 0, 0, 0, 0, 0, 0, 4096, 0, 0x200, 0x1B, 0x23, 0x23, 0, 0, 0x23)
  }

  /** User mode at address 0 with the stack at 4096; of the flags exactly the interrupt
      flag is set, the one that an interrupt clears. */
  predicate InUserMode(r: A.Regs) {
    && r.cs % 4 == 3 && r.ss % 4 == 3 && r.ds == r.es == r.ss && r.eip == 0 && r.esp == 4096
    && r.eflags / 512 % 2 == 1 && T.ClearIf(r.eflags) == 0
  }

  lemma UserRegsMode()
    ensures InUserMode(UserRegs())
  {
  }

  /** The first switch to a process prepared by config_proc_kstack and init_user: it runs
      fork_ret, whose return leads to trap_ret (as long as fork_ret leaves the stack above
      it alone), and trap_ret leaves exactly the registers of the trap frame: user mode at
      address 0, interrupts on, stack at 4096. */
  lemma FirstRun(c: A.Cpu, kstack: int, forkRet: word, trapRet: word, prev: word, mid: A.Cpu)
    requires 0 <= kstack && kstack + PAGE < WORD_LIMIT
    requires Prepared(c.mem, kstack, forkRet, trapRet) && T.FrameAt(c.mem, kstack + TF_OFF) == UserFrame()
    requires 16 <= c.r.esp && c.r.esp + 12 < WORD_LIMIT
    requires A.Read(c.mem, c.r.esp + 4) == prev && A.Read(c.mem, c.r.esp + 8) == kstack + CTX_OFF
    requires Apart(prev, 4, c.r.esp - 16, 20) && Apart(prev, 4, kstack, PAGE) && Apart(kstack, PAGE, c.r.esp - 16, 16)
    requires mid.r.esp == kstack + RET_OFF && mid.r.cs == T.KER_CS
    requires SameRange(A.Run(c, SwitchTo()).mem, mid.mem, kstack + RET_OFF, kstack + PAGE)
    ensures A.Run(c, SwitchTo()).r.eip == forkRet && A.Run(c, SwitchTo()).r.esp == kstack + RET_OFF
    ensures A.Exec(mid, A.Ret).r.eip == trapRet && A.Exec(mid, A.Ret).r.esp == kstack + TF_OFF
    ensures A.Run(A.Exec(mid, A.Ret), T.TrapRet()).r == UserRegs() && InUserMode(UserRegs())
  {
    hide *;
    Offsets();
    PreparedFacts(c.mem, kstack, forkRet, trapRet);
    StackApart(prev, kstack, c.r.esp);
    SwitchToEffect(c, prev, kstack + CTX_OFF);
    var c1 := A.Run(c, SwitchTo());
    ContextFields(c1.r, Context(0, 0, 0, 0, forkRet));
    StackKept(c.mem, c1.mem, mid.mem, kstack, prev, c.r.esp);
    ReturnStep(mid);
    var c2 := A.Exec(mid, A.Ret);
    T.TrapRetLoads(c2);
    FrameReturns(c2.r);
    UserRegsMode();
  }

  lemma Offsets()
    ensures CTX_OFF == 3996 && RET_OFF == 4016 && TF_OFF == 4020 && PAGE == 4096 && T.FRAME_SIZE == 76
      && WORD_LIMIT == 0x1_0000_0000
  {
  }

  lemma PreparedFacts(mem: A.Memory, kstack: int, forkRet: word, trapRet: word)
    requires Prepared(mem, kstack, forkRet, trapRet)
    ensures ContextAt(mem, kstack + CTX_OFF) == Context(0, 0, 0, 0, forkRet) && A.Read(mem, kstack + RET_OFF) == trapRet
  {
    hide A.Read;
  }

  lemma StackApart(prev: word, kstack: int, e: word)
    requires Apart(prev, 4, kstack, PAGE) && Apart(kstack, PAGE, e - 16, 16)
    ensures Apart(prev, 4, kstack + CTX_OFF, 20) && Apart(kstack + CTX_OFF, 20, e - 16, 16)
  {
  }

  lemma ContextFields(r: A.Regs, x: Context)
    requires ContextOf(r, r.eip) == x
    ensures r.eip == x.eip
  {
  }

  /** The trap frame and the address above it are not touched by the switch. */
  lemma StackKept(mem: A.Memory, mem1: A.Memory, mem2: A.Memory, kstack: int, prev: word, e: word)
    requires Apart(prev, 4, kstack, PAGE) && Apart(kstack, PAGE, e - 16, 16)
    requires forall a :: a != prev && (a < e - 16 || e <= a) ==> A.Read(mem1, a) == A.Read(mem, a)
    requires SameRange(mem1, mem2, kstack + RET_OFF, kstack + PAGE)
    ensures A.Read(mem2, kstack + RET_OFF) == A.Read(mem, kstack + RET_OFF)
    ensures T.FrameAt(mem2, kstack + TF_OFF) == T.FrameAt(mem, kstack + TF_OFF)
  {
    hide A.Read, A.Low;
    forall a | kstack + RET_OFF <= a < kstack + PAGE ensures A.Read(mem2, a) == A.Read(mem, a) {
    }
  }

  lemma FrameReturns(r: A.Regs)
    requires r.cs == T.KER_CS
    ensures T.Returned(r, UserFrame()) == UserRegs()
  {
  }

  /* ---- from an empty table entry to user mode ---- */

  lemma PreparedKept(mem: A.Memory, mem': A.Memory, kstack: int, forkRet: word, trapRet: word)
    requires Prepared(mem, kstack, forkRet, trapRet)
    requires forall a :: kstack <= a < kstack + TF_OFF ==> A.Read(mem', a) == A.Read(mem, a)
    ensures Prepared(mem', kstack, forkRet, trapRet)
  {
    hide A.Read;
  }

  /** The memory of a started process: page fs[0] holds the prepared stack and the trap
      frame, whatever setup_kvm and init_uvm have done in between. */
  lemma StackReady(s: Kernel, fs: seq<nat>, kdata: word, init: seq<byte>, forkRet: word, trapRet: word)
    requires P.FreeList(s.mem, fs) && P.GoodHead(s.mem)
    requires UserReady(s, kdata, init, forkRet, trapRet).0.Started?
    ensures
      var m := UserReady(s, kdata, init, forkRet, trapRet).1.mem;
      && |fs| >= 66 && fs[0] < NFRAMES && P.Shape(m)
      && Prepared(Words(m), PageAddr(fs[0]), forkRet, trapRet)
      && T.FrameAt(Words(m), PageAddr(fs[0]) + TF_OFF) == UserFrame()
  {
    hide *;
    ListShape(s.mem, fs);
    var s1, m3 := StartedSteps(s, fs, kdata, init, forkRet, trapRet);
    var f, page := fs[0], PageAddr(fs[0]);
    var m1 := P.Alloc(s.mem).1;
    StackOnly(m1, f, forkRet, trapRet);
    StackPrepared(m1, f, forkRet, trapRet);
    PutFrameOnly(m3, f);
    FrameFilled(m3, f);
    FrameWords(s1.mem, m3, f);
    Offsets();
    KeptTwice(Words(s1.mem), Words(m3), Words(PutFrame(m3, page + TF_OFF)), page);
    PreparedKept(Words(s1.mem), Words(PutFrame(m3, page + TF_OFF)), page, forkRet, trapRet);
  }

  lemma KeptTwice(mem: A.Memory, mem1: A.Memory, mem2: A.Memory, kstack: int)
    requires SameRange(mem, mem1, kstack, kstack + PAGE) && SameOutside(mem1, mem2, kstack + TF_OFF, T.FRAME_SIZE)
    ensures forall a :: kstack <= a < kstack + TF_OFF ==> A.Read(mem2, a) == A.Read(mem, a)
  {
    hide A.Read;
  }

  /** The states of a successful init_user: after alloc_process, and before the trap
      frame is filled in. */
  lemma StartedSteps(s: Kernel, fs: seq<nat>, kdata: word, init: seq<byte>, forkRet: word, trapRet: word)
    returns (s1: Kernel, m3: P.Mem)
    requires P.FreeList(s.mem, fs) && P.GoodHead(s.mem)
    requires UserReady(s, kdata, init, forkRet, trapRet).0.Started?
    ensures |fs| >= 66 && fs[0] < NFRAMES && fs[1] < NFRAMES && K.Admissible(kdata) && |init| <= 4096
      && fs[0] !in fs[1..]
    ensures P.Shape(s1.mem) && P.Shape(m3) && P.Shape(P.Alloc(s.mem).1)
    ensures PageAddr(fs[0]) + PAGE <= WORD_LIMIT && PageAddr(fs[0]) + TF_OFF + T.FRAME_SIZE <= WORD_LIMIT
    ensures s1.mem == StackPage(P.Alloc(s.mem).1, PageAddr(fs[0]), forkRet, trapRet) && P.FreeList(s1.mem, fs[1..])
    ensures forall g :: 0 <= g < NFRAMES && g != fs[0] ==> s1.mem.ram[g] == s.mem.ram[g]
    ensures K.SetupKvm(s1.mem, kdata).0 == K.Ready(PageAddr(fs[1]))
    ensures U.InitUvm(K.SetupKvm(s1.mem, kdata).1, PageAddr(fs[1]), init) == (U.UvmDone, m3)
    ensures m3.ram[fs[0]] == s1.mem.ram[fs[0]]
    ensures UserReady(s, kdata, init, forkRet, trapRet).1.mem == PutFrame(m3, PageAddr(fs[0]) + TF_OFF)
  {
    hide *;
    var i := FirstUnused(s.table);
    ListShape(s.mem, fs);
    UserReadyCases(s, fs, kdata, init, forkRet, trapRet);
    UserReadyIs(s, kdata, init, forkRet, trapRet);
    StackTaken(s, fs, i, forkRet, trapRet);
    s1 := Allocated(s, forkRet, trapRet).1;
    ReadyEntry(s.table, s1.table, i, s.nextPid, fs);
    Offsets();
    FurnishedCases(s1, i, fs[0], fs[1..], kdata, init);
    SpaceBuilt(s1.mem, fs[1..], kdata, init, fs[0]);
    m3 := U.InitUvm(K.SetupKvm(s1.mem, kdata).1, PageAddr(fs[1]), init).1;
  }

  /** Main result: a process that init_user has started goes, by its first switch_to,
      the return of fork_ret and trap_ret, from its table entry to user mode with exactly
      the registers of UserRegs. At the switch the kernel stack must be as init_user left
      it, and fork_ret must leave the part of the stack above it alone. */
  lemma FirstProcessRuns(
    s: Kernel, fs: seq<nat>, kdata: word, init: seq<byte>, forkRet: word, trapRet: word, c: A.Cpu, prev: word,
        mid: A.Cpu)
    requires P.FreeList(s.mem, fs) && P.GoodHead(s.mem) && FirstUnused(s.table) < |s.table|
    requires |fs| >= 66 && K.Admissible(kdata) && |init| <= 4096
    requires
      var s' := UserReady(s, kdata, init, forkRet, trapRet).1;
      var e := s'.table[FirstUnused(s.table)];
      && SameRange(Words(s'.mem), c.mem, e.kstack, e.kstack + PAGE)
      && A.Read(c.mem, c.r.esp + 8) == e.ctx
      && Apart(prev, 4, e.kstack, PAGE) && Apart(e.kstack, PAGE, c.r.esp - 16, 16)
      && mid.r.esp == e.kstack + RET_OFF && mid.r.cs == T.KER_CS
      && SameRange(A.Run(c, SwitchTo()).mem, mid.mem, e.kstack + RET_OFF, e.kstack + PAGE)
    requires 16 <= c.r.esp && c.r.esp + 12 < WORD_LIMIT
    requires A.Read(c.mem, c.r.esp + 4) == prev && Apart(prev, 4, c.r.esp - 16, 20)
    ensures UserReady(s, kdata, init, forkRet, trapRet).0 == Started(FirstUnused(s.table))
    ensures A.Run(c, SwitchTo()).r.eip == forkRet && A.Exec(mid, A.Ret).r.eip == trapRet
    ensures A.Run(A.Exec(mid, A.Ret), T.TrapRet()).r == UserRegs() && InUserMode(UserRegs())
  {
    hide *;
    ListShape(s.mem, fs);
    var i := FirstUnused(s.table);
    UserReadyCases(s, fs, kdata, init, forkRet, trapRet);
    var s' := UserReady(s, kdata, init, forkRet, trapRet).1;
    EntryFields(s.table, i, s.nextPid, fs, s'.table);
    var page := PageAddr(fs[0]);
    StackReady(s, fs, kdata, init, forkRet, trapRet);
    Offsets();
    StackKeeps(Words(s'.mem), c.mem, page, forkRet, trapRet);
    FirstRun(c, page, forkRet, trapRet, prev, mid);
  }

  lemma EntryFields(table: seq<Record>, i: nat, pid: int, fs: seq<nat>, table': seq<Record>)
    requires i < |table| && |fs| >= 2 && fs[0] < NFRAMES && fs[1] < NFRAMES
    requires table' == table[i := ReadyRecord(table[i], pid, fs)]
    ensures |table'| == |table| && table'[i].kstack == PageAddr(fs[0]) && table'[i].ctx == PageAddr(fs[0]) + CTX_OFF
    ensures PageAddr(fs[0]) + PAGE < WORD_LIMIT
  {
  }

  lemma StackKeeps(mem: A.Memory, mem': A.Memory, kstack: int, forkRet: word, trapRet: word)
    requires Prepared(mem, kstack, forkRet, trapRet) && T.FrameAt(mem, kstack + TF_OFF) == UserFrame()
    requires SameRange(mem, mem', kstack, kstack + PAGE)
    ensures Prepared(mem', kstack, forkRet, trapRet) && T.FrameAt(mem', kstack + TF_OFF) == UserFrame()
  {
    hide A.Read, A.Low;
    forall a | kstack <= a < kstack + PAGE ensures A.Read(mem', a) == A.Read(mem, a) {
    }
  }

  /** The scheduler's invariant holds when launch_first_proc starts on the table that
      init_user has left, in which nothing but the first process is in use. */
  lemma SchedulerStarts(s: Kernel, fs: seq<nat>, kdata: word, init: seq<byte>, forkRet: word, trapRet: word, q: State)
    requires P.FreeList(s.mem, fs) && P.GoodHead(s.mem) && UserReady(s, kdata, init, forkRet, trapRet).0.Started?
    requires |s.table| == MAX_PROC && forall i :: 0 <= i < MAX_PROC ==> s.table[i].state == UNUSED
    requires q.procs == Views(UserReady(s, kdata, init, forkRet, trapRet).1.table)
    requires Shape(q) && q.running == Scheduler && q.spc == Top && q.cur == Scheduler && q.m.cpu.ncli == 0
    requires q.pcs[0] == ForkRet && forall l :: 0 <= l < |q.m.locks| ==> q.m.locks[l] == Spinlock.FREE
    ensures Inv(q) && q.procs[0].state == RUNNABLE && forall j :: 0 < j < MAX_PROC ==> q.procs[j].state == UNUSED
  {
    hide *;
    ListShape(s.mem, fs);
    UserReadyCases(s, fs, kdata, init, forkRet, trapRet);
    EmptyTable(s.table);
    OnlyFirst(s.table, ReadyRecord(s.table[0], s.nextPid, fs), s.table[0], s.nextPid, fs);
    InitOf(q);
    InitInv(q);
  }

  lemma OnlyFirst(table: seq<Record>, e: Record, old0: Record, pid: int, fs: seq<nat>)
    requires |table| == 64 && MAX_PROC == 64 && forall i :: 0 <= i < MAX_PROC ==> table[i].state == UNUSED
    requires |fs| >= 2 && fs[0] < NFRAMES && fs[1] < NFRAMES && e == ReadyRecord(old0, pid, fs)
    ensures
      var procs := Views(table[0 := e]);
      |procs| == 64 && procs[0].state == RUNNABLE && forall j :: 0 < j < MAX_PROC ==> procs[j].state == UNUSED
  {
  }

  lemma InitOf(q: State)
    requires Shape(q) && q.running == Scheduler && q.spc == Top && q.cur == Scheduler && q.m.cpu.ncli == 0
    requires q.pcs[0] == ForkRet && forall l :: 0 <= l < |q.m.locks| ==> q.m.locks[l] == Spinlock.FREE
    requires q.procs[0].state == RUNNABLE && forall j :: 0 < j < MAX_PROC ==> q.procs[j].state == UNUSED
    ensures Init(q)
  {
  }

  /* ---- the address space of a started process ---- */

  /** A write to a page that belongs to no directory changes no translation. */
  lemma SpaceKept(m: P.Mem, m': P.Mem, fs: seq<nat>, d: nat, f: nat)
    requires V.Dir(m, fs, d) && OnlyFrame(m, m', f) && f < NFRAMES && f != d && f !in fs && d < NFRAMES && P.Shape(m)
    requires !V.IsTable(m, d, f)
    ensures P.Shape(m') && V.Dir(m', fs, d) && m'.ram[d] == m.ram[d]
    ensures forall q :: 0 <= q < NPAGES ==> V.Lookup(m', d, q) == V.Lookup(m, d, q)
    ensures forall g :: 0 <= g < NFRAMES ==> (V.IsTable(m', d, g) <==> V.IsTable(m, d, g))
  {
    assert m' == P.Mem(m.ram[f := m'.ram[f]], m.freelist);
    hide V.Dir, V.Lookup, V.IsTable;
    U.WriteElsewhere(m, fs, d, f, m'.ram[f]);
  }

  lemma ViewKept(m: P.Mem, m': P.Mem, d: nat, u: nat, kdata: word, init: seq<byte>)
    requires F.ProcessView(m, d, u, kdata, init) && P.Shape(m') && m'.ram[d] == m.ram[d] && m'.ram[u] == m.ram[u]
    requires forall q :: 0 <= q < NPAGES ==> V.Lookup(m', d, q) == V.Lookup(m, d, q)
    ensures F.ProcessView(m', d, u, kdata, init)
  {
    assert NPAGES == 1048576;
    hide V.Lookup, U.HoldsInit, MakePte, K.KernelMap, User;
    forall q | 0 <= q < NPAGES ensures U.UserAccess(m', d, q) <==> q == 0 {
      assert U.UserAccess(m, d, q) <==> q == 0;
      assert V.Lookup(m', d, q) == V.Lookup(m, d, q);
    }
  }

  /** init_user while directory d0 is in use, with 68 free pages: one becomes the kernel
      stack, 65 the kernel half of the process's directory, one the table of page 0 and
      one the user page. None of them belongs to d0, which still translates exactly the
      kernel's address space. */
  lemma FirstUserSpace(
    s: Kernel, fs: seq<nat>, d0: nat, kdata: word, init: seq<byte>, forkRet: word, trapRet: word)
    requires F.KernelHalf(s.mem, fs, d0, kdata) && K.Admissible(kdata) && |fs| >= 68 && |init| <= 4096
    requires P.Shape(s.mem) && P.GoodHead(s.mem) && FirstUnused(s.table) < |s.table|
    ensures
      var (o, s') := UserReady(s, kdata, init, forkRet, trapRet);
      && o == Started(FirstUnused(s.table)) && P.Shape(s'.mem)
      && F.KernelHalf(s'.mem, fs[68..], d0, kdata) && F.ApartFrom(s'.mem, d0, fs[..68])
      && V.Dir(s'.mem, fs[68..], fs[1]) && F.BuiltFrom(s'.mem, fs[1], fs[1..68])
      && F.ProcessView(s'.mem, fs[1], fs[66], kdata, init)
  {
    hide *;
    F.KernelHalfFacts(s.mem, fs, d0, kdata);
    ListShape(s.mem, fs);
    UserReadyCases(s, fs, kdata, init, forkRet, trapRet);
    var s1, m3 := StartedSteps(s, fs, kdata, init, forkRet, trapRet);
    var f, gs, m4 := fs[0], fs[1..], UserReady(s, kdata, init, forkRet, trapRet).1.mem;
    Shifted(fs);
    F.FreeApart(s.mem, fs, d0, f);
    HalfKept(s, s1, fs, d0, kdata);
    F.ProcessSpace(s1.mem, gs, d0, kdata, init);
    F.SpacesAre(s1.mem, kdata, init, PageAddr(fs[1]));
    PutFrameOnly(m3, f);
    StackFrameApart(s.mem, m3, fs, d0);
    F.KernelHalfFacts(m3, fs[68..], d0, kdata);
    SpaceKept(m3, m4, fs[68..], d0, f);
    SpaceKept(m3, m4, fs[68..], fs[1], f);
    OtherFrame(m3, m4, f, fs[66]);
    ViewKept(m3, m4, fs[1], fs[66], kdata, init);
    SpaceEnd(m3, m4, fs, d0, kdata);
  }

  lemma Shifted(fs: seq<nat>)
    requires |fs| >= 68
    ensures fs[1..][0] == fs[1] && fs[1..][65] == fs[66] && fs[1..][..67] == fs[1..68] && fs[1..][67..] == fs[68..]
    ensures fs[..68] == [fs[0]] + fs[1..68] && fs[0] in fs && fs[1] in fs[1..] && fs[66] in fs[1..]
    ensures forall x :: x in fs[68..] ==> x in fs[1..]
    ensures forall x :: x in fs[1..68] ==> x in fs[1..]
  {
    assert fs[1..][65] == fs[66];
  }

  lemma HalfKept(s: Kernel, s1: Kernel, fs: seq<nat>, d0: nat, kdata: word)
    requires F.KernelHalf(s.mem, fs, d0, kdata) && fs != [] && P.FreeList(s1.mem, fs[1..]) && P.Shape(s.mem)
      && P.Shape(s1.mem)
    requires forall g :: 0 <= g < NFRAMES && g != fs[0] ==> s1.mem.ram[g] == s.mem.ram[g]
    ensures F.KernelHalf(s1.mem, fs[1..], d0, kdata) && d0 < NFRAMES && s1.mem.ram[d0] == s.mem.ram[d0]
  {
    F.KernelHalfFacts(s.mem, fs, d0, kdata);
    F.FreeApart(s.mem, fs, d0, fs[0]);
    hide V.Dir, F.KernelHalf, P.FreeList, V.IsTable;
    F.UntouchedSpace(s.mem, fs, s1.mem, 1, d0, kdata);
  }

  lemma StackFrameApart(m: P.Mem, m3: P.Mem, fs: seq<nat>, d0: nat)
    requires |fs| >= 68 && P.Shape(m) && P.Shape(m3) && d0 < NFRAMES && m3.ram[d0] == m.ram[d0]
    requires fs[0] != d0 && !V.IsTable(m, d0, fs[0]) && fs[0] < NFRAMES
    requires fs[0] !in fs[1..] && F.BuiltFrom(m3, fs[1], fs[1..68])
    ensures !V.IsTable(m3, d0, fs[0]) && fs[1] < NFRAMES && !V.IsTable(m3, fs[1], fs[0])
    ensures fs[0] != fs[1] && fs[0] != fs[66] && fs[0] !in fs[68..]
  {
    Shifted(fs);
    F.TablesKept(m, m3, d0, fs[0]);
    hide V.IsTable;
  }

  lemma OtherFrame(m: P.Mem, m': P.Mem, f: nat, g: nat)
    requires OnlyFrame(m, m', f) && g < NFRAMES && g != f
    ensures m'.ram[g] == m.ram[g]
  {
  }

  lemma SpaceEnd(m: P.Mem, m': P.Mem, fs: seq<nat>, d0: nat, kdata: word)
    requires |fs| >= 68 && P.Shape(m) && P.Shape(m') && d0 < NFRAMES && fs[0] < NFRAMES && fs[1] < NFRAMES
    requires F.KernelHalf(m, fs[68..], d0, kdata) && V.Dir(m', fs[68..], d0)
    requires forall q :: 0 <= q < NPAGES ==> V.Lookup(m', d0, q) == V.Lookup(m, d0, q)
    requires forall g :: 0 <= g < NFRAMES ==> (V.IsTable(m', d0, g) <==> V.IsTable(m, d0, g))
    requires forall g :: 0 <= g < NFRAMES ==> (V.IsTable(m', fs[1], g) <==> V.IsTable(m, fs[1], g))
    requires F.ApartFrom(m, d0, fs[1..68]) && F.BuiltFrom(m, fs[1], fs[1..68])
    requires fs[0] != d0 && !V.IsTable(m, d0, fs[0])
    ensures F.KernelHalf(m', fs[68..], d0, kdata) && F.ApartFrom(m', d0, fs[..68]) && F.BuiltFrom(m', fs[1], fs[1..68])
  {
    hide V.Dir, V.Lookup, V.IsTable;
    Shifted(fs);
  }

  /** From power-on to the first process. With the kernel's data and image where they
      can be, a process image that fits a page, and 65 free pages below 4 MB, booting
      and init_user always succeed on an empty process table. The first process then has
      the address space it should have beside kpgdir, and a kernel stack from which
      it starts as FirstProcessRuns says. */
  lemma BootThenInitUser(
    m: P.Mem, kdata: word, kend: word, table: seq<Record>, init: seq<byte>, forkRet: word, trapRet: word)
    requires P.Shape(m) && m.freelist == 0 && K.Admissible(kdata) && kdata <= kend <= B.ENTRY_LIMIT && |init| <= 4096
    requires |B.EarlyList(kend)| >= 65
    requires |table| == MAX_PROC && forall i :: 0 <= i < MAX_PROC ==> table[i].state == UNUSED
    ensures KERNBASE <= kend && P.GoodHead(B.Booted(m, kdata, kend)) && |B.FinalList(kend)| >= 68
    ensures
      var (o, s') := UserReady(Kernel(table, 1, B.Booted(m, kdata, kend)), kdata, init, forkRet, trapRet);
      var kpgdir, fs := B.EarlyList(kend)[0], B.FinalList(kend);
      && o == Started(0) && s'.nextPid == 2
      && fs[0] < NFRAMES && fs[1] < NFRAMES && s'.table == table[0 := ReadyRecord(table[0], 1, fs)]
      && F.KernelHalf(s'.mem, fs[68..], kpgdir, kdata) && F.ApartFrom(s'.mem, kpgdir, fs[..68])
      && F.ProcessView(s'.mem, fs[1], fs[66], kdata, init)
  {
    hide *;
    EmptyTable(table);
    F.BootedKernel(m, kdata, kend);
    var kpgdir, fs := B.EarlyList(kend)[0], B.FinalList(kend);
    var s := Kernel(table, 1, B.Booted(m, kdata, kend));
    ListShape(s.mem, fs);
    UserReadyCases(s, fs, kdata, init, forkRet, trapRet);
    FirstUserSpace(s, fs, kpgdir, kdata, init, forkRet, trapRet);
  }

  lemma EmptyTable(table: seq<Record>)
    requires |table| == MAX_PROC && forall i :: 0 <= i < MAX_PROC ==> table[i].state == UNUSED
    ensures FirstUnused(table) == 0 && |table| == 64 && MAX_PROC == 64
  {
  }
}
