/** The process table of kernel/sys/process.c and the kernel stacks it points to:
    alloc_process, config_proc_kstack, init_user and the loop of wakeup. Kernel stacks
    are pages of the same physical memory as page tables and user pages. */
module ProcTable {
  import opened Bits
  import opened Mmu
  import opened Options
  import opened Sched
  import K = KernelSpace
  import P = PageAllocator
  import T = Trap
  import U = UserSpace
  import V = Vm

  const PAGE: int := 4096
  const CTX_OFF: int := 3996    // the context: 4096 - 76 - 4 - 20
  const RET_OFF: int := 4016    // the address of trap_ret: 4096 - 76 - 4
  const TF_OFF: int := 4020     // the trap frame: 4096 - 76

  /** The fields of struct proc that these functions use; null pointers are 0. */
  datatype Record = Record(
    state: ProcState, pid: int, kstack: word, tf: word, ctx: word, chan: nat,
    pgdir: word, size: word, name: string)

  /** The process table with its counter, and physical memory. */
  datatype Kernel = Kernel(table: seq<Record>, nextPid: int, mem: P.Mem)

  /** The scheduler's view of an entry. */
  function View(e: Record): Proc {
    Proc(e.state, e.chan)
  }

  function Views(table: seq<Record>): (r: seq<Proc>)
    ensures |r| == |table|
  {
    seq(|table|, i requires 0 <= i < |table| => View(table[i]))
  }

  /** The first unused entry, or the length of the table. */
  function FirstUnused(table: seq<Record>): (r: nat)
    ensures r <= |table|
    ensures forall i :: 0 <= i < r ==> table[i].state != UNUSED
    ensures r < |table| ==> table[r].state == UNUSED
  {
    if table == [] || table[0].state == UNUSED then 0 else 1 + FirstUnused(table[1..])
  }

  /* ---- what the C functions compute ---- */

  /** memset(a, 0, 4 * n). */
  function ClearWords(m: P.Mem, a: int, n: nat): (r: P.Mem)
    requires P.Shape(m) && 0 <= a && a + 4 * n <= WORD_LIMIT
    ensures P.Shape(r)
  {
    if n == 0 then m else P.Store(ClearWords(m, a, n - 1), a + 4 * (n - 1), 0)
  }

  /** A new kernel stack: the address of trap_ret below the trap frame, then a cleared
      context with the address of fork_ret. */
  function StackPage(m: P.Mem, page: word, forkRet: word, trapRet: word): (r: P.Mem)
    requires P.Shape(m) && page + PAGE <= WORD_LIMIT
    ensures P.Shape(r)
  {
    P.Store(ClearWords(P.Store(m, page + RET_OFF, trapRet), page + CTX_OFF, 5), page + CTX_OFF + 16, forkRet)
  }

  /** USR_CS | USR_DPL and USR_DS | USR_DPL, as the macros expand. */
  lemma UserSelectors()
    ensures BitOr(3 * 8, 3) == 0x1B && BitOr(4 * 8, 3) == 0x23
  {
    assert Pow2(3) == 8;
    BitOrDisjoint(24, 3, 3, 3);
    BitOrDisjoint(32, 4, 3, 3);
  }

  /** The assignments to the selectors of the trap frame. */
  function PutSelectors(m: P.Mem, tf: word): (r: P.Mem)
    requires P.Shape(m) && tf + T.FRAME_SIZE <= WORD_LIMIT
    ensures P.Shape(r)
  {
    UserSelectors();
    var m1 := P.Store(m, tf + 60, BitOr(3 * 8, 3));
    var m2 := P.Store(m1, tf + 44, BitOr(4 * 8, 3));
    var m3 := P.Store(m2, tf + 40, P.Load(m2, tf + 44));
    P.Store(m3, tf + 72, P.Load(m3, tf + 44))
  }

  /** The trap frame that init_user fills in. */
  function PutFrame(m: P.Mem, tf: word): (r: P.Mem)
    requires P.Shape(m) && tf + T.FRAME_SIZE <= WORD_LIMIT
    ensures P.Shape(r)
  {
    var m1 := PutSelectors(ClearWords(m, tf, 19), tf);
    P.Store(P.Store(P.Store(m1, tf + 64, T.FL_IF), tf + 68, 4096), tf + 56, 0)
  }

  /** config_proc_kstack; false stands for the null pointer. */
  function Configured(s: Kernel, i: nat, forkRet: word, trapRet: word): (r: (bool, Kernel))
    requires i < |s.table| && P.Shape(s.mem) && P.GoodHead(s.mem)
    ensures P.Shape(r.1.mem) && |r.1.table| == |s.table|
    ensures r.0 ==> r.1.table[i].tf + T.FRAME_SIZE <= WORD_LIMIT
  {
    var e := s.table[i].(state := EMBRYO, pid := s.nextPid);
    var (page, m1) := P.Alloc(s.mem);
    if page == 0 then (false, Kernel(s.table[i := e.(kstack := page, state := UNUSED)], s.nextPid + 1, m1))
    else
      var e1 := e.(kstack := page, tf := page + TF_OFF, ctx := page + CTX_OFF);
      (true, Kernel(s.table[i := e1], s.nextPid + 1, StackPage(m1, page, forkRet, trapRet)))
  }

  /** alloc_process. */
  function Allocated(s: Kernel, forkRet: word, trapRet: word): (r: (Option<nat>, Kernel))
    requires P.Shape(s.mem) && P.GoodHead(s.mem)
    ensures P.Shape(r.1.mem) && |r.1.table| == |s.table|
    ensures r.0.Some? ==> r.0.value < |s.table| && r.1.table[r.0.value].tf + T.FRAME_SIZE <= WORD_LIMIT
  {
    var i := FirstUnused(s.table);
    if i == |s.table| then (None, s)
    else
      var (ok, s1) := Configured(s, i, forkRet, trapRet);
      (if ok then Some(i) else None, s1)
  }

  /** How init_user ends: with process i ready; with no process, so that it goes on
      through a null pointer; with its own PANIC; or with one inside setup_kvm or
      init_uvm. */
  datatype InitOutcome = Started(i: nat) | NoProcess | OutOfMemory | Stopped

  /** init_user after alloc_process: the address space, then the trap frame. */
  function Furnished(s: Kernel, i: nat, kdata: word, init: seq<byte>): (InitOutcome, Kernel)
    requires P.Shape(s.mem) && i < |s.table| && s.table[i].tf + T.FRAME_SIZE <= WORD_LIMIT
  {
    var (k, m2) := K.SetupKvm(s.mem, kdata);
    if k.Panicked? then (Stopped, s.(mem := m2))
    else if k.NoMemory? then (OutOfMemory, Kernel(s.table[i := s.table[i].(pgdir := 0)], s.nextPid, m2))
    else
      var e := s.table[i].(pgdir := k.pgdir);
      var (u, m3) := U.InitUvm(m2, k.pgdir, init);
      if u.UvmPanicked? then (Stopped, Kernel(s.table[i := e], s.nextPid, m3))
      else
        var e1 := e.(size := 4096, name := "initcode", state := RUNNABLE);
        (Started(i), Kernel(s.table[i := e1], s.nextPid, PutFrame(m3, e.tf)))
  }

  /** init_user. */
  function UserReady(s: Kernel, kdata: word, init: seq<byte>, forkRet: word, trapRet: word): (InitOutcome, Kernel)
    requires P.Shape(s.mem) && P.GoodHead(s.mem)
  {
    var (p, s1) := Allocated(s, forkRet, trapRet);
    if p == None then (NoProcess, s1) else Furnished(s1, p.value, kdata, init)
  }

  /* ---- which frames they touch ---- */

  /** Only frame f differs, and the free list's head is the same. */
  ghost predicate OnlyFrame(m: P.Mem, m': P.Mem, f: nat) {
    && P.Shape(m) && P.Shape(m') && m'.freelist == m.freelist
    && forall g :: 0 <= g < NFRAMES && g != f ==> m'.ram[g] == m.ram[g]
  }

  /** A pointer into frame f. */
  lemma WithinPage(f: nat, off: nat)
    requires f < NFRAMES && off < 4096 && off % 4 == 0
    ensures InRam(PageAddr(f) + off) && FrameOf(PageAddr(f) + off) == f && (PageAddr(f) + off) % 4 == 0
    ensures (PageAddr(f) + off) % 4096 == off && PageAddr(f) % 4 == 0
  {
    var a := 4096 * f + off;
    assert PageAddr(f) + off == KERNBASE + a && 0 <= a < PHYSTOP && V2P(PageAddr(f) + off) == a;
    QuotientUnique(a, 4096, f, off);
    QuotientUnique(KERNBASE + a, 4096, 524288 + f, off);
    QuotientUnique(off, 4, off / 4, 0);
    QuotientUnique(KERNBASE + a, 4, 536870912 + 1024 * f + off / 4, 0);
    QuotientUnique(PageAddr(f), 4, 536870912 + 1024 * f, 0);
  }

  lemma StoreOnly(m: P.Mem, f: nat, off: nat, w: word)
    requires P.Shape(m) && f < NFRAMES && off < 4096 && off % 4 == 0
    ensures P.Shape(P.Store(m, PageAddr(f) + off, w)) && OnlyFrame(m, P.Store(m, PageAddr(f) + off, w), f)
  {
    WithinPage(f, off);
    hide PageAddr, FrameOf;
  }

  lemma {:induction false} ClearOnly(m: P.Mem, f: nat, off: nat, n: nat)
    requires P.Shape(m) && f < NFRAMES && off % 4 == 0 && off + 4 * n <= 4096
    ensures OnlyFrame(m, ClearWords(m, PageAddr(f) + off, n), f)
    decreases n
  {
    hide *;
    ClearPlace(f, off, n);
    ClearUnfold(m, PageAddr(f) + off, n);
    if n == 0 {
      OnlySame(m, f);
    } else {
      var m1 := ClearWords(m, PageAddr(f) + off, n - 1);
      ClearOnly(m, f, off, n - 1);
      StoreOnly(m1, f, off + 4 * (n - 1), 0);
      OnlyTwice(m, m1, P.Store(m1, PageAddr(f) + (off + 4 * (n - 1)), 0), f);
    }
  }

  lemma ClearPlace(f: nat, off: nat, n: nat)
    requires f < NFRAMES && off % 4 == 0 && off + 4 * n <= 4096
    ensures PageAddr(f) + off + 4 * n <= WORD_LIMIT && WORD_LIMIT == 0x1_0000_0000
    ensures n > 0 ==> (off + 4 * (n - 1)) % 4 == 0
  {
    DivideSum(n - 1, off, 4);
  }

  lemma ClearUnfold(m: P.Mem, a: int, n: nat)
    requires P.Shape(m) && 0 <= a && a + 4 * n <= WORD_LIMIT
    ensures ClearWords(m, a, n) == if n == 0 then m else P.Store(ClearWords(m, a, n - 1), a + 4 * (n - 1), 0)
  {
    hide P.Store;
  }

  lemma OnlySame(m: P.Mem, f: nat)
    requires P.Shape(m)
    ensures OnlyFrame(m, m, f)
  {
  }

  lemma OnlyTwice(m: P.Mem, m1: P.Mem, m2: P.Mem, f: nat)
    requires OnlyFrame(m, m1, f) && OnlyFrame(m1, m2, f)
    ensures OnlyFrame(m, m2, f)
  {
  }

  lemma StackOnly(m: P.Mem, f: nat, forkRet: word, trapRet: word)
    requires P.Shape(m) && f < NFRAMES
    ensures PageAddr(f) + PAGE <= WORD_LIMIT && OnlyFrame(m, StackPage(m, PageAddr(f), forkRet, trapRet), f)
  {
    hide OnlyFrame, P.Store, ClearWords;
    StoreOnly(m, f, RET_OFF, trapRet);
    var m1 := P.Store(m, PageAddr(f) + RET_OFF, trapRet);
    ClearOnly(m1, f, CTX_OFF, 5);
    var m2 := ClearWords(m1, PageAddr(f) + CTX_OFF, 5);
    StoreOnly(m2, f, CTX_OFF + 16, forkRet);
    OnlyTwice(m, m1, m2, f);
    OnlyTwice(m, m2, P.Store(m2, PageAddr(f) + (CTX_OFF + 16), forkRet), f);
  }

  lemma SelectorsOnly(m: P.Mem, f: nat)
    requires P.Shape(m) && f < NFRAMES
    ensures PageAddr(f) + PAGE <= WORD_LIMIT && OnlyFrame(m, PutSelectors(m, PageAddr(f) + TF_OFF), f)
  {
    hide OnlyFrame, P.Store, P.Load, BitOr;
    UserSelectors();
    var tf := PageAddr(f) + TF_OFF;
    StoreOnly(m, f, TF_OFF + 60, BitOr(3 * 8, 3));
    var m1 := P.Store(m, tf + 60, BitOr(3 * 8, 3));
    StoreOnly(m1, f, TF_OFF + 44, BitOr(4 * 8, 3));
    var m2 := P.Store(m1, tf + 44, BitOr(4 * 8, 3));
    StoreOnly(m2, f, TF_OFF + 40, P.Load(m2, tf + 44));
    var m3 := P.Store(m2, tf + 40, P.Load(m2, tf + 44));
    StoreOnly(m3, f, TF_OFF + 72, P.Load(m3, tf + 44));
    OnlyTwice(m, m1, m2, f);
    OnlyTwice(m, m2, m3, f);
    OnlyTwice(m, m3, PutSelectors(m, tf), f);
  }

  lemma PutFrameOnly(m: P.Mem, f: nat)
    requires P.Shape(m) && f < NFRAMES
    ensures PageAddr(f) + PAGE <= WORD_LIMIT && OnlyFrame(m, PutFrame(m, PageAddr(f) + TF_OFF), f)
  {
    hide OnlyFrame, P.Store, ClearWords, PutSelectors;
    var tf := PageAddr(f) + TF_OFF;
    ClearOnly(m, f, TF_OFF, 19);
    var m1 := ClearWords(m, tf, 19);
    SelectorsOnly(m1, f);
    var m2 := PutSelectors(m1, tf);
    StoreOnly(m2, f, TF_OFF + 64, T.FL_IF);
    var m3 := P.Store(m2, tf + 64, T.FL_IF);
    StoreOnly(m3, f, TF_OFF + 68, 4096);
    var m4 := P.Store(m3, tf + 68, 4096);
    StoreOnly(m4, f, TF_OFF + 56, 0);
    OnlyTwice(m, m1, m2, f);
    OnlyTwice(m, m2, m3, f);
    OnlyTwice(m, m3, m4, f);
    OnlyTwice(m, m4, PutFrame(m, tf), f);
  }

  /** Writing a page that has been taken leaves the rest of the list alone. */
  lemma ListKept(m: P.Mem, m': P.Mem, fs: seq<nat>, f: nat)
    requires P.FreeList(m, fs) && OnlyFrame(m, m', f) && f !in fs
    ensures P.FreeList(m', fs)
  {
    P.ChainBounds(m.ram, m.freelist, fs);
    P.ChainFrame(m.ram, m'.ram, m.freelist, fs);
  }

  /** config_proc_kstack on a free list: without a page everything but the number is
      undone; with one, the stack is the first free page and no other page changes. */
  lemma ConfiguredCases(s: Kernel, fs: seq<nat>, i: nat, forkRet: word, trapRet: word)
    requires i < |s.table| && P.FreeList(s.mem, fs)
    ensures P.GoodHead(s.mem)
    ensures
      var (ok, s') := Configured(s, i, forkRet, trapRet);
      if fs == [] then
        !ok && s' == Kernel(s.table[i := s.table[i].(state := UNUSED, pid := s.nextPid, kstack := 0)], s.nextPid + 1,
            s.mem)
      else
        && fs[0] < NFRAMES && ok && s'.nextPid == s.nextPid + 1
        && s'.table == s.table[i := s.table[i].(state := EMBRYO, pid := s.nextPid, kstack := PageAddr(fs[0]),
                                                tf := PageAddr(fs[0]) + TF_OFF, ctx := PageAddr(fs[0]) + CTX_OFF)]
        && s'.mem == StackPage(P.Alloc(s.mem).1, PageAddr(fs[0]), forkRet, trapRet)
        && P.FreeList(s'.mem, fs[1..])
        && (forall g :: 0 <= g < NFRAMES && g != fs[0] ==> s'.mem.ram[g] == s.mem.ram[g])
  {
    P.AllocPops(s.mem, fs);
    if fs != [] {
      StackOnly(P.Alloc(s.mem).1, fs[0], forkRet, trapRet);
      ListKept(P.Alloc(s.mem).1, StackPage(P.Alloc(s.mem).1, PageAddr(fs[0]), forkRet, trapRet), fs[1..], fs[0]);
      hide StackPage, P.Chain, P.NoDup;
    }
  }

  /* ---- process numbers ---- */

  /** Every process in use has its own number, below next_pid. */
  predicate PidsDistinct(table: seq<Record>, nextPid: int) {
    && (forall i :: 0 <= i < |table| && table[i].state != UNUSED ==> table[i].pid < nextPid)
    && (forall i, j :: 0 <= i < j < |table| && table[i].state != UNUSED && table[j].state != UNUSED ==>
          table[i].pid != table[j].pid)
  }

  /** alloc_process keeps the numbers distinct, whether it finds no entry, gets no page
      (and has used up a number), or succeeds; the new process has the next number. */
  lemma AllocKeepsPids(s: Kernel, forkRet: word, trapRet: word)
    requires P.Shape(s.mem) && P.GoodHead(s.mem) && PidsDistinct(s.table, s.nextPid)
    ensures
      var (r, s') := Allocated(s, forkRet, trapRet);
      && PidsDistinct(s'.table, s'.nextPid)
      && s'.nextPid == s.nextPid + (if FirstUnused(s.table) < |s.table| then 1 else 0)
      && (r.Some? ==> s'.table[r.value].pid == s.nextPid && s'.table[r.value].state != UNUSED)
      && (r.None? ==> forall i :: 0 <= i < |s.table| ==> s'.table[i].state == s.table[i].state)
  {
    hide P.Alloc, StackPage;
  }

  /** alloc_process: the first unused entry is configured. */
  lemma AllocatedCases(s: Kernel, fs: seq<nat>, forkRet: word, trapRet: word)
    requires P.FreeList(s.mem, fs)
    ensures P.GoodHead(s.mem)
    ensures
      var (r, s') := Allocated(s, forkRet, trapRet);
      var i := FirstUnused(s.table);
      && (r.Some? <==> i < |s.table| && fs != [])
      && (i == |s.table| ==> s' == s)
      && (i < |s.table| ==> s' == Configured(s, i, forkRet, trapRet).1)
      && (r.Some? ==>
            && r.value == i && fs[0] < NFRAMES && P.FreeList(s'.mem, fs[1..])
            && s'.table[i].kstack == PageAddr(fs[0]) && s'.table[i].tf == PageAddr(fs[0]) + TF_OFF)
  {
    P.AllocPops(s.mem, fs);
    if FirstUnused(s.table) < |s.table| {
      ConfiguredCases(s, fs, FirstUnused(s.table), forkRet, trapRet);
    }
    hide Configured, P.FreeList, StackPage;
  }

  lemma DirectoryFacts(m: P.Mem, fs: seq<nat>, d: nat, kdata: word)
    requires K.KernelDirectory(m, fs, d, kdata)
    ensures V.Dir(m, fs, d)
  {
    hide V.Dir;
  }

  /** Only the state of an entry that sleeps on ch changes. */
  function AfterWakeup(e: Record, ch: nat): Record {
    if View(e) == Proc(SLEEPING, ch) then e.(state := RUNNABLE) else e
  }

  /* ---- the C functions as they run ---- */

  class ProcessTable {
    const proc: array<Record>
    var nextPid: int
    const phys: P.PhysicalMemory
    const forkRet: word
    const trapRet: word

    ghost predicate Valid() {
      proc.Length == MAX_PROC && phys.Valid()
    }

    ghost function Snap(): Kernel
      reads this, proc, phys, phys.ram
    {
      Kernel(proc[..], nextPid, phys.Snap())
    }

    constructor (phys: P.PhysicalMemory, forkRet: word, trapRet: word)
      requires phys.Valid()
      ensures Valid() && nextPid == 1 && fresh(proc)
      ensures this.phys == phys && this.forkRet == forkRet && this.trapRet == trapRet
      ensures forall i :: 0 <= i < MAX_PROC ==> proc[i].state == UNUSED
    {
      proc := new Record[MAX_PROC](_ => Record(UNUSED, 0, 0, 0, 0, 0, 0, 0, ""));
      nextPid := 1;
      this.phys, this.forkRet, this.trapRet := phys, forkRet, trapRet;
    }

    /** memset(a, 0, 4 * n) within a page. */
    method Clear(ghost f: nat, ghost off: nat, a: word, n: nat)
      requires Valid() && f < NFRAMES && off % 4 == 0 && off + 4 * n <= 4096 && a == PageAddr(f) + off
      modifies phys.ram
      ensures phys.Snap() == ClearWords(old(phys.Snap()), a, n)
    {
      hide P.Store;
      var i := 0;
      while i < n
        invariant 0 <= i <= n
        invariant phys.Snap() == ClearWords(old(phys.Snap()), a, i)
      {
        WithinPage(f, off + 4 * i);
        phys.Write(a + 4 * i, 0);
        i := i + 1;
      }
    }

    method FillSelectors(ghost f: nat, tf: word)
      requires Valid() && f < NFRAMES && tf == PageAddr(f) + TF_OFF
      modifies phys.ram
      ensures phys.Snap() == PutSelectors(old(phys.Snap()), tf)
    {
      hide P.Store, P.Load, BitOr;
      UserSelectors();
      WithinPage(f, TF_OFF + 60);
      WithinPage(f, TF_OFF + 44);
      WithinPage(f, TF_OFF + 40);
      WithinPage(f, TF_OFF + 72);
      phys.Write(tf + 60, BitOr(3 * 8, 3));
      phys.Write(tf + 44, BitOr(4 * 8, 3));
      var ds := phys.Read(tf + 44);
      phys.Write(tf + 40, ds);
      ds := phys.Read(tf + 44);
      phys.Write(tf + 72, ds);
    }

    /** memset and the assignments to the fields of the frame. */
    method FillFrame(ghost f: nat, tf: word)
      requires Valid() && f < NFRAMES && tf == PageAddr(f) + TF_OFF
      modifies phys.ram
      ensures phys.Snap() == PutFrame(old(phys.Snap()), tf)
    {
      hide P.Store, ClearWords, PutSelectors;
      WithinPage(f, TF_OFF + 64);
      WithinPage(f, TF_OFF + 68);
      WithinPage(f, TF_OFF + 56);
      Clear(f, TF_OFF, tf, 19);
      FillSelectors(f, tf);
      phys.Write(tf + 64, T.FL_IF);
      phys.Write(tf + 68, 4096);
      phys.Write(tf + 56, 0);
    }

    /** The stores of config_proc_kstack into a new page. */
    method LayStack(ghost f: nat, page: word) returns (tf: word, ctx: word)
      requires Valid() && f < NFRAMES && page == PageAddr(f)
      modifies phys.ram
      ensures tf == page + TF_OFF && ctx == page + CTX_OFF
      ensures phys.Snap() == StackPage(old(phys.Snap()), page, forkRet, trapRet)
    {
      hide P.Store, ClearWords;
      WithinPage(f, RET_OFF);
      WithinPage(f, CTX_OFF + 16);
      var sp: word := page + PAGE;
      sp := sp - T.FRAME_SIZE;
      tf := sp;
      sp := sp - 4;
      phys.Write(sp, trapRet);
      sp := sp - 20;
      ctx := sp;
      Clear(f, CTX_OFF, ctx, 5);
      phys.Write(ctx + 16, forkRet);
    }

    /** config_proc_kstack. */
    method ConfigStack(i: nat, ghost fs: seq<nat>) returns (ok: bool)
      requires Valid() && i < MAX_PROC && P.FreeList(phys.Snap(), fs)
      modifies this`nextPid, proc, phys`freelist, phys.ram
      ensures (ok, Snap()) == Configured(old(Snap()), i, forkRet, trapRet)
    {
      P.AllocPops(phys.Snap(), fs);
      hide StackPage, P.FreeList;
      ghost var t := proc[..];
      var e := proc[i].(state := EMBRYO, pid := nextPid);
      nextPid := nextPid + 1;
      var page := phys.Kalloc();
      e := e.(kstack := page);
      if page == 0 {
        proc[i] := e.(state := UNUSED);
        assert proc[..] == t[i := proc[i]];
        return false;
      }
      var tf, ctx := LayStack(fs[0], page);
      proc[i] := e.(tf := tf, ctx := ctx);
      assert proc[..] == t[i := proc[i]];
      ok := true;
    }

    /** alloc_process; the result MAX_PROC stands for the null pointer. */
    method AllocProcess(ghost fs: seq<nat>) returns (r: nat)
      requires Valid() && P.FreeList(phys.Snap(), fs)
      modifies this`nextPid, proc, phys`freelist, phys.ram
      ensures P.GoodHead(old(phys.Snap())) && r <= MAX_PROC
      ensures (if r < MAX_PROC then Some(r) else None, Snap()) == Allocated(old(Snap()), forkRet, trapRet)
    {
      P.AllocPops(phys.Snap(), fs);
      hide Configured, P.FreeList;
      var i := 0;
      while i < MAX_PROC
        invariant 0 <= i <= MAX_PROC && Snap() == old(Snap())
        invariant i <= FirstUnused(proc[..])
      {
        if proc[i].state == UNUSED {
          assert proc[..][i].state == UNUSED;
          var ok := ConfigStack(i, fs);
          return if ok then i else MAX_PROC;
        }
        assert proc[..][i].state != UNUSED;
        i := i + 1;
      }
      r := MAX_PROC;
    }

    /** init_user. */
    method InitUser(kdata: word, init: seq<byte>, ghost fs: seq<nat>) returns (o: InitOutcome)
      requires Valid() && P.FreeList(phys.Snap(), fs)
      modifies this`nextPid, proc, phys`freelist, phys.ram
      ensures P.GoodHead(old(phys.Snap()))
      ensures (o, Snap()) == UserReady(old(Snap()), kdata, init, forkRet, trapRet)
    {
      hide Configured, P.Chain, P.NoDup, V.Dir, K.KernelDirectory, U.InitUvm, K.SetupKvm, PutFrame, FirstUnused,
          V.IsTable;
      ghost var s := Snap();
      AllocatedCases(s, fs, forkRet, trapRet);
      var p := AllocProcess(fs);
      if p == MAX_PROC {
        return NoProcess;
      }
      ghost var s1 := Snap();
      K.SetupKvmCorrect(phys.Snap(), fs[1..], kdata);
      var k := K.SetupKernel(phys, kdata, fs[1..]);
      if k.Panicked? {
        return Stopped;
      }
      proc[p] := proc[p].(pgdir := if k.Ready? then k.pgdir else 0);
      assert proc[..] == s1.table[p := proc[p]];
      if k.NoMemory? {
        return OutOfMemory;
      }
      ghost var d := fs[1..][0];
      PageAddrInverse(d);
      DirectoryFacts(phys.Snap(), fs[1..][65..], d, kdata);
      var u := U.InitUser(phys, k.pgdir, init, fs[1..][65..]);
      if u.UvmPanicked? {
        return Stopped;
      }
      proc[p] := proc[p].(size := 4096);
      FillFrame(fs[0], proc[p].tf);
      proc[p] := proc[p].(name := "initcode");
      proc[p] := proc[p].(state := RUNNABLE);
      assert proc[..] == s1.table[p := proc[p]];
      return Started(p);
    }

    /** The loop of wakeup. */
    method Wakeup(ch: nat)
      requires Valid()
      modifies proc
      ensures Views(proc[..]) == WakeAll(old(Views(proc[..])), ch)
      ensures forall i :: 0 <= i < MAX_PROC ==> proc[i] == AfterWakeup(old(proc[i]), ch)
      ensures Awakened(old(Views(proc[..])), Views(proc[..]), ch)
    {
      WakeAllAwakens(Views(proc[..]), ch);
      var p := 0;
      while p < MAX_PROC
        invariant 0 <= p <= MAX_PROC
        invariant forall i :: 0 <= i < p ==> proc[i] == AfterWakeup(old(proc[i]), ch)
        invariant forall i :: p <= i < MAX_PROC ==> proc[i] == old(proc[i])
      {
        if proc[p].state == SLEEPING && proc[p].chan == ch {
          proc[p] := proc[p].(state := RUNNABLE);
        }
        p := p + 1;
      }
    }
  }

}
