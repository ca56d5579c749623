/** The address space of the first process beside the kernel's own: init_user calls
    setup_kvm and init_uvm while kpgdir is in use (kernel/sys/process.c). */
module FirstProcess {
  import opened Bits
  import opened Mmu
  import opened Options
  import opened PageAllocator
  import opened Vm
  import opened KernelSpace
  import opened UserSpace
  import opened Boot

  /** Memory after setup_kvm and init_uvm for the process. */
  function Spaces(m: Mem, kdata: word, init: seq<byte>): (r: (SetupResult, UvmOutcome, Mem))
    requires Shape(m)
    ensures Shape(r.2)
  {
    var (s, m1) := SetupKvm(m, kdata);
    if s.Ready? then
      var (u, m2) := InitUvm(m1, s.pgdir, init);
      (s, u, m2)
    else (s, UvmPanicked, m1)
  }

  /** Directory d0 translates exactly the kernel's address space. */
  ghost predicate KernelHalf(m: Mem, fs: seq<nat>, d0: nat, kdata: word) {
    Dir(m, fs, d0) && forall q :: 0 <= q < NPAGES ==> Lookup(m, d0, q) == KernelMap(kdata, q)
  }

  /** Directory d and its tables are among the frames `taken`. */
  ghost predicate BuiltFrom(m: Mem, d: nat, taken: seq<nat>) {
    Shape(m) && d < NFRAMES && d in taken && forall f :: 0 <= f < NFRAMES && IsTable(m, d, f) ==> f in taken
  }

  /** None of the frames `taken` is directory d0 or one of its tables. */
  ghost predicate ApartFrom(m: Mem, d0: nat, taken: seq<nat>) {
    Shape(m) && d0 < NFRAMES && forall f :: f in taken ==> f < NFRAMES && f != d0 && !IsTable(m, d0, f)
  }

  /** What directory d shows: page 0, writable and open to user mode, is frame u, which
      holds init and then zeros; everything else is the kernel's address space, closed to
      user mode. */
  ghost predicate ProcessView(m: Mem, d: nat, u: nat, kdata: word, init: seq<byte>) {
    && Shape(m) && d < NFRAMES && u < NFRAMES && |init| <= 4096
    && HoldsInit(m.ram[u], init)
    && Lookup(m, d, 0) == Some(MakePte(4096 * u, PTE_W + PTE_U))
    && (forall q :: 0 < q < NPAGES ==> Lookup(m, d, q) == KernelMap(kdata, q))
    && (forall q :: 0 <= q < NPAGES ==> (UserAccess(m, d, q) <==> q == 0))
  }

  lemma ViewIntro(m: Mem, d: nat, u: nat, kdata: word, init: seq<byte>)
    requires Shape(m) && d < NFRAMES && u < NFRAMES && |init| <= 4096 && NPAGES == 1048576
    requires HoldsInit(m.ram[u], init) && Lookup(m, d, 0) == Some(MakePte(4096 * u, PTE_W + PTE_U))
    requires forall q :: 0 < q < NPAGES ==> Lookup(m, d, q) == KernelMap(kdata, q)
    requires forall q :: 0 <= q < NPAGES ==> (UserAccess(m, d, q) <==> q == 0)
    ensures ProcessView(m, d, u, kdata, init)
  {
    hide HoldsInit, Lookup, MakePte, KernelMap, UserAccess;
  }

  /** Free frames are neither a directory nor its tables. */
  lemma FreeApart(m: Mem, fs: seq<nat>, d0: nat, f: nat)
    requires Dir(m, fs, d0) && f in fs
    ensures Shape(m) && d0 < NFRAMES && f < NFRAMES && f != d0 && !IsTable(m, d0, f)
  {
    DirTables(m, fs, d0);
    hide Dir, TableFrame, Present;
  }

  lemma TablesKept(m: Mem, m': Mem, d0: nat, f: nat)
    requires Shape(m) && Shape(m') && d0 < NFRAMES && m'.ram[d0] == m.ram[d0]
    ensures IsTable(m', d0, f) <==> IsTable(m, d0, f)
  {
  }

  /** A directory whose frames lie outside those that were taken is as before, and the
      rest of the free list is still apart from it. */
  lemma UntouchedSpace(m: Mem, fs: seq<nat>, m': Mem, n: nat, d0: nat, kdata: word)
    requires KernelHalf(m, fs, d0, kdata) && n <= |fs| && FreeList(m', fs[n..])
    requires forall f :: 0 <= f < NFRAMES && (f == d0 || IsTable(m, d0, f)) ==> m'.ram[f] == m.ram[f]
    ensures KernelHalf(m', fs[n..], d0, kdata)
  {
    assert forall f :: f in fs[n..] ==> f in fs;
    forall f | f in fs ensures f < NFRAMES && f != d0 && !IsTable(m, d0, f) {
      FreeApart(m, fs, d0, f);
    }
    hide FreeList, Lookup, IsTable;
    DirStable(m, m', fs, fs[n..], d0);
  }

  lemma KernelHalfFacts(m: Mem, fs: seq<nat>, d0: nat, kdata: word)
    requires KernelHalf(m, fs, d0, kdata)
    ensures Dir(m, fs, d0) && FreeList(m, fs) && Shape(m) && d0 < NFRAMES
  {
    hide Chain, NoDup, Lookup;
  }

  /** setup_kvm beside a live directory. */
  lemma SecondDirectory(m: Mem, fs: seq<nat>, d0: nat, kdata: word)
    requires KernelHalf(m, fs, d0, kdata) && Admissible(kdata) && |fs| >= 65
    ensures Shape(m) && fs[0] < NFRAMES && SetupKvm(m, kdata).0 == Ready(PageAddr(fs[0]))
    ensures
      var m1 := SetupKvm(m, kdata).1;
      && KernelHalf(m1, fs[65..], d0, kdata) && KernelDirectory(m1, fs[65..], fs[0], kdata)
      && m1.ram[d0] == m.ram[d0]
      && (forall f :: 0 <= f < NFRAMES && IsTable(m1, fs[0], f) ==> f in fs[..65])
  {
    KernelHalfFacts(m, fs, d0, kdata);
    SetupKvmCorrect(m, fs, kdata);
    var m1 := SetupKvm(m, kdata).1;
    hide SetupKvm, Admissible, IsTable, KernelHalf, Dir;
    DirectoryList(m1, fs[65..], fs[0], kdata);
    forall f | f in fs[..65] ensures f != d0 && !IsTable(m, d0, f) {
      assert f in fs;
      FreeApart(m, fs, d0, f);
    }
    UntouchedSpace(m, fs, m1, 65, d0, kdata);
  }

  lemma DirectoryList(m: Mem, fs: seq<nat>, d: nat, kdata: word)
    requires KernelDirectory(m, fs, d, kdata)
    ensures FreeList(m, fs) && Dir(m, fs, d) && Shape(m) && d < NFRAMES && !Present(m.ram[d][0])
  {
    KernelDirectoryAt(m, fs, d, kdata, 0);
    hide FreeList, KernelDirectory;
  }

  /** init_uvm beside a live directory. */
  lemma SecondUserPage(m: Mem, fs: seq<nat>, d0: nat, d: nat, kdata: word, init: seq<byte>)
    requires KernelHalf(m, fs, d0, kdata) && KernelDirectory(m, fs, d, kdata) && |fs| >= 2 && |init| <= 4096
    requires d0 < NFRAMES && d < NFRAMES && Shape(m) && d != d0
    requires forall f :: 0 <= f < NFRAMES && IsTable(m, d0, f) ==> f != d && !IsTable(m, d, f)
    requires !IsTable(m, d, d0)
    ensures InitUvm(m, PageAddr(d), init).0 == UvmDone
      && KernelHalf(InitUvm(m, PageAddr(d), init).1, fs[2..], d0, kdata)
    ensures UserPage(m, InitUvm(m, PageAddr(d), init).1, fs, d, init)
    ensures InitUvm(m, PageAddr(d), init).1.ram[d0] == m.ram[d0]
  {
    DirectoryList(m, fs, d, kdata);
    InitUvmSteps(m, fs, d, init);
    var m2 := InitUvm(m, PageAddr(d), init).1;
    KernelHalfFacts(m, fs, d0, kdata);
    UserPageFrames(m, m2, fs, d, init);
    hide *;
    forall f | f in fs[..2] ensures f != d0 && !IsTable(m, d0, f) {
      assert f in fs;
      FreeApart(m, fs, d0, f);
    }
    UntouchedSpace(m, fs, m2, 2, d0, kdata);
  }

  lemma UserPageFrames(m: Mem, m2: Mem, fs: seq<nat>, d: nat, init: seq<byte>)
    requires |fs| >= 2 && d < NFRAMES && Shape(m) && Shape(m2) && |init| <= 4096 && UserPage(m, m2, fs, d, init)
    ensures FreeList(m2, fs[2..]) && TablesFrom(m, m2, [fs[1]], d) && |m.ram| == NFRAMES && |m2.ram| == NFRAMES
    ensures forall f :: 0 <= f < NFRAMES && f != d && f !in fs[..2] && !IsTable(m, d, f) ==> m2.ram[f] == m.ram[f]
  {
    hide FreeList, Lookup, HoldsInit, IsTable, TablesFrom, MakePte;
  }

  /** The first process's address space is built beside the kernel's own: of the 67
      frames taken, 65 make the kernel half, one the table of page 0 and one the user
      page; none of them belongs to the live directory d0, which still translates exactly
      the kernel's address space; and user mode reaches exactly page 0, holding init. */
  lemma ProcessSpace(m: Mem, fs: seq<nat>, d0: nat, kdata: word, init: seq<byte>)
    requires KernelHalf(m, fs, d0, kdata) && Admissible(kdata) && |fs| >= 67 && |init| <= 4096
    ensures Shape(m) && fs[0] < NFRAMES && fs[65] < NFRAMES && d0 < NFRAMES
    ensures
      var (s, u, m2) := Spaces(m, kdata, init);
      && s == Ready(PageAddr(fs[0])) && u == UvmDone
      && KernelHalf(m2, fs[67..], d0, kdata) && ApartFrom(m2, d0, fs[..67])
      && Dir(m2, fs[67..], fs[0]) && BuiltFrom(m2, fs[0], fs[..67]) && !IsTable(m2, fs[0], fs[65])
      && ProcessView(m2, fs[0], fs[65], kdata, init) && m2.ram[d0] == m.ram[d0]
  {
    assert NPAGES == 1048576;
    hide *;
    var d, gs := fs[0], fs[65..];
    Prefixes(fs);
    SecondDirectory(m, fs, d0, kdata);
    var m1 := SetupKvm(m, kdata).1;
    KernelHalfFacts(m, fs, d0, kdata);
    KernelHalfFacts(m1, gs, d0, kdata);
    forall f | f in fs ensures f < NFRAMES && f != d0 && !IsTable(m, d0, f) {
      FreeApart(m, fs, d0, f);
    }
    forall f: nat ensures IsTable(m1, d0, f) <==> IsTable(m, d0, f) {
      TablesKept(m, m1, d0, f);
    }
    SecondUserPage(m1, gs, d0, d, kdata, init);
    var m2 := InitUvm(m1, PageAddr(d), init).1;
    SpacesAre(m, kdata, init, PageAddr(d));
    UserPageFrames(m1, m2, gs, d, init);
    UserPageAt(m1, m2, gs, d, init, 0);
    forall q | 0 <= q < NPAGES
      ensures UserAccess(m2, d, q) <==> q == 0
      ensures q != 0 ==> Lookup(m2, d, q) == KernelMap(kdata, q)
    {
      FirstProcessSpace(m1, gs, d, kdata, init, q);
    }
    ViewIntro(m2, d, fs[65], kdata, init);
    TakenFrames(m1, m2, fs, d, init);
    forall f: nat ensures IsTable(m2, d0, f) <==> IsTable(m1, d0, f) {
      TablesKept(m1, m2, d0, f);
    }
    ApartIntro(m2, d0, fs[..67]);
  }

  lemma Prefixes(fs: seq<nat>)
    requires |fs| >= 67
    ensures fs[65..][0] == fs[65] && fs[65..][2..] == fs[67..] && fs[0] in fs && fs[65] in fs
    ensures forall f :: f in fs[..65] ==> f in fs
    ensures forall f :: f in fs[..67] ==> f in fs
  {
  }

  lemma SpacesAre(m: Mem, kdata: word, init: seq<byte>, pgdir: word)
    requires Shape(m) && SetupKvm(m, kdata).0 == Ready(pgdir)
    ensures
      var u := InitUvm(SetupKvm(m, kdata).1, pgdir, init);
      Spaces(m, kdata, init) == (Ready(pgdir), u.0, u.1)
  {
    hide SetupKvm, InitUvm;
  }

  lemma TakenFrames(m1: Mem, m2: Mem, fs: seq<nat>, d: nat, init: seq<byte>)
    requires |fs| >= 67 && d == fs[0] < NFRAMES && Shape(m1) && Shape(m2) && |init| <= 4096
    requires UserPage(m1, m2, fs[65..], d, init)
    requires forall f :: 0 <= f < NFRAMES && IsTable(m1, d, f) ==> f in fs[..65]
    ensures BuiltFrom(m2, d, fs[..67]) && !IsTable(m2, d, fs[65])
  {
    assert fs[65..][0] == fs[65] && fs[65..][1] == fs[66];
    assert fs[..67][0] == d && fs[..67][66] == fs[66];
    assert forall f :: f in fs[..65] ==> f in fs[..67] by {
      assert fs[..67] == fs[..65] + [fs[65], fs[66]];
    }
    hide IsTable, Dir, Lookup, HoldsInit;
  }

  lemma ApartIntro(m: Mem, d0: nat, taken: seq<nat>)
    requires Shape(m) && d0 < NFRAMES
    requires forall f :: f in taken ==> f < NFRAMES && f != d0 && !IsTable(m, d0, f)
    ensures ApartFrom(m, d0, taken)
  {
    hide IsTable;
  }

  /** The boot sequence ends with plenty of free memory beside a kernel directory. */
  lemma BootedKernel(m: Mem, kdata: word, kend: word)
    requires Shape(m) && m.freelist == 0 && Admissible(kdata) && kdata <= kend <= ENTRY_LIMIT
    requires |EarlyList(kend)| >= 65
    ensures KERNBASE <= kend
    ensures |FinalList(kend)| >= 68 && FreeList(Booted(m, kdata, kend), FinalList(kend))
    ensures KernelHalf(Booted(m, kdata, kend), FinalList(kend), EarlyList(kend)[0], kdata)
  {
    BootMemory(m, kdata, kend);
    hide SetupKvm, EarlyFree, LateFree, EarlyList, FinalList, FreeList, Dir, Lookup, Admissible;
  }
}
