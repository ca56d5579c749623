/** Memory set-up while the kernel boots (init/main.c): free the memory below
    4 MB, build the kernel directory, free the rest of RAM. */
module Boot {
  import opened Bits
  import opened Mmu
  import opened PageAllocator
  import opened Vm
  import opened KernelSpace

  const ENTRY_LIMIT: word := 0x80400000   // P2V(4MB), the end of the boot mapping
  const ENTRY_FRAMES: nat := 1024         // frames below 4 MB

  /** The first whole frame after the kernel image. */
  function FirstFree(kend: word): nat
    requires KERNBASE <= kend <= ENTRY_LIMIT
  {
    (PgRoundUp(kend) - KERNBASE) / 4096
  }

  /** Memory after the first init_physical_memory. */
  function EarlyFree(m: Mem, kend: word): (r: Mem)
    requires Shape(m) && KERNBASE <= kend <= ENTRY_LIMIT
    ensures Shape(r)
  {
    FreePages(m, kend, ENTRY_LIMIT)
  }

  /** Memory after the second one. */
  function LateFree(m: Mem): (r: Mem)
    requires Shape(m)
    ensures Shape(r)
  {
    FreePages(m, ENTRY_LIMIT, P2V(PHYSTOP))
  }

  /** Memory after init_physical_memory, init_kvm and init_physical_memory. */
  function Booted(m: Mem, kdata: word, kend: word): (r: Mem)
    requires Shape(m) && KERNBASE <= kend <= ENTRY_LIMIT
    ensures Shape(r)
  {
    LateFree(SetupKvm(EarlyFree(m, kend), kdata).1)
  }

  function EarlyList(kend: word): seq<nat>
    requires KERNBASE <= kend <= ENTRY_LIMIT
  {
    Descending(FirstFree(kend), ENTRY_FRAMES)
  }

  lemma EarlyRange(kend: word)
    requires KERNBASE <= kend <= ENTRY_LIMIT
    ensures KERNBASE <= PgRoundUp(kend) && FirstFree(kend) <= 1024
    ensures RangePages(kend, ENTRY_LIMIT) == EarlyList(kend)
  {
    var lo := FirstFree(kend);
    assert PgRoundUp(kend) == KERNBASE + 4096 * lo;
    if lo == 1024 {
      assert Descending(lo, lo) == [];
    }
  }

  /** Before init_kvm, the list holds exactly the frames between the kernel image
      and 4 MB, so that the boot page directory maps all of them. */
  lemma EarlyPhase(m: Mem, kend: word)
    requires Shape(m) && m.freelist == 0 && KERNBASE <= kend <= ENTRY_LIMIT
    ensures Represents(EarlyFree(m, kend), Heap(EarlyList(kend), map[]))
    ensures forall f: nat :: f in EarlyList(kend) <==> LiesIn(f, kend, 0x80400000)
  {
    EarlyRange(kend);
    var h := Heap([], map[]);
    assert Represents(m, h);
    RangeStep(m, h, kend, ENTRY_LIMIT);
    assert FreeAll(h, EarlyList(kend)) == Heap(EarlyList(kend), map[]);
  }

  lemma EarlyCount(kend: word)
    requires KERNBASE <= kend <= ENTRY_LIMIT
    ensures |EarlyList(kend)| == (0x80400000 - kend) / 4096
  {
    EarlyRange(kend);
    PageBounds(kend);
    var lo := FirstFree(kend);
    assert PgRoundUp(kend) == KERNBASE + 4096 * lo;
    assert 0x80400000 - kend == 4096 * (1024 - lo) + (PgRoundUp(kend) - kend);
    QuotientUnique(0x80400000 - kend, 4096, 1024 - lo, PgRoundUp(kend) - kend);
    hide PgRoundUp, FirstFree;
  }

  /** The frames that a kernel directory consists of, as their owner's property. */
  function Owned(m: Mem, fs: seq<nat>): map<nat, Frame>
    requires Shape(m)
  {
    map f | f in fs && f < NFRAMES :: m.ram[f]
  }

  /** After init_kvm: the rest of the list is as it was, and the 65 frames taken
      belong to the directory. */
  lemma KvmPhase(m: Mem, kdata: word, fs: seq<nat>)
    requires Represents(m, Heap(fs, map[])) && Admissible(kdata) && |fs| >= 65
    ensures
      var m2 := SetupKvm(m, kdata).1;
      && Represents(m2, Heap(fs[65..], Owned(m2, fs[..65])))
      && fs[0] < NFRAMES && KernelDirectory(m2, fs[65..], fs[0], kdata)
      && (forall f :: 0 <= f < NFRAMES && IsTable(m2, fs[0], f) ==> f in fs[..65])
  {
    SetupKvmCorrect(m, fs, kdata);
    var m2 := SetupKvm(m, kdata).1;
    hide SetupKvm, IsTable, Admissible;
    KvmHeap(m, m2, fs, kdata);
  }

  lemma KvmHeap(m: Mem, m2: Mem, fs: seq<nat>, kdata: word)
    requires Represents(m, Heap(fs, map[])) && |fs| >= 65 && Shape(m2)
    requires fs[0] < NFRAMES && KernelDirectory(m2, fs[65..], fs[0], kdata)
    requires forall f :: 0 <= f < NFRAMES && f !in fs[..65] ==> m2.ram[f] == m.ram[f]
    ensures Represents(m2, Heap(fs[65..], Owned(m2, fs[..65])))
  {
    assert FreeList(m2, fs[65..]);
    assert fs == fs[..65] + fs[65..];
    forall f | f in fs[65..] ensures f < NFRAMES && f !in fs[..65] && m2.ram[f] == FreedFrame(m2.ram[f][0]) {
      var i :| 0 <= i < |fs[65..]| && fs[65..][i] == f;
      assert fs[65 + i] == f && f in fs;
    }
  }

  lemma LateRange()
    ensures KERNBASE <= PgRoundUp(ENTRY_LIMIT) && P2V(PHYSTOP) == KERNBASE + PHYSTOP
    ensures RangeLo(ENTRY_LIMIT) == 1024 && RangeHi(ENTRY_LIMIT, P2V(PHYSTOP)) == NFRAMES
  {
  }

  /** A directory whose own frames are untouched is unaffected by what happens to
      the free list. */
  lemma DirStable(m: Mem, m': Mem, fs: seq<nat>, fs': seq<nat>, d: nat)
    requires Dir(m, fs, d) && FreeList(m', fs') && (forall f :: f in fs' ==> f < NFRAMES)
    requires d !in fs' && m'.ram[d] == m.ram[d]
    requires forall f :: 0 <= f < NFRAMES && IsTable(m, d, f) ==> f !in fs' && m'.ram[f] == m.ram[f]
    ensures Dir(m', fs', d)
    ensures forall q :: 0 <= q < NPAGES ==> Lookup(m', d, q) == Lookup(m, d, q)
  {
    forall i | 0 <= i < 1024 && Present(m.ram[d][i])
      ensures GoodPde(m'.ram[d][i], fs', d) && m'.ram[TableFrame(m.ram[d][i])] == m.ram[TableFrame(m.ram[d][i])]
    {
      assert GoodPde(m.ram[d][i], fs, d);
      assert IsTable(m, d, TableFrame(m.ram[d][i]));
    }
  }

  function FinalList(kend: word): seq<nat>
    requires KERNBASE <= kend <= ENTRY_LIMIT && |EarlyList(kend)| >= 65
  {
    Descending(ENTRY_FRAMES, NFRAMES) + EarlyList(kend)[65..]
  }

  /** After the second init_physical_memory: no page was freed twice, and the
      directory still translates the kernel's address space. */
  lemma LatePhase(m2: Mem, kdata: word, fs: seq<nat>)
    requires Shape(m2) && |fs| >= 65 && fs[0] < NFRAMES && forall f :: f in fs ==> f < ENTRY_FRAMES
    requires Represents(m2, Heap(fs[65..], Owned(m2, fs[..65])))
    requires KernelDirectory(m2, fs[65..], fs[0], kdata)
    requires forall f :: 0 <= f < NFRAMES && IsTable(m2, fs[0], f) ==> f in fs[..65]
    ensures
      var all := Descending(ENTRY_FRAMES, NFRAMES) + fs[65..];
      && FreeList(LateFree(m2), all)
      && Dir(LateFree(m2), all, fs[0])
      && (forall q :: 0 <= q < NPAGES ==> Lookup(LateFree(m2), fs[0], q) == KernelMap(kdata, q))
  {
    hide *;
    var d, late := fs[0], Descending(ENTRY_FRAMES, NFRAMES);
    var h := Heap(fs[65..], Owned(m2, fs[..65]));
    LateHeap(m2, h, fs);
    LateOwned(m2, LateFree(m2), h, late, fs);
    assert fs[..65][0] == d;
    KernelDirectoryParts(m2, fs[65..], d, kdata);
    DirStable(m2, LateFree(m2), fs[65..], late + fs[65..], d);
  }

  lemma LateHeap(m2: Mem, h: Heap, fs: seq<nat>)
    requires Shape(m2) && |fs| >= 65 && Represents(m2, h) && h.free == fs[65..]
    requires forall f :: f in fs ==> f < ENTRY_FRAMES
    ensures Shape(LateFree(m2)) && Represents(LateFree(m2), FreeAll(h, Descending(ENTRY_FRAMES, NFRAMES)))
    ensures ENTRY_FRAMES <= NFRAMES
    ensures |m2.ram| == NFRAMES && |LateFree(m2).ram| == NFRAMES && ENTRY_FRAMES == 1024
  {
    LateRange();
    assert forall f :: f in fs[65..] ==> f in fs;
    assert RangePages(ENTRY_LIMIT, P2V(PHYSTOP)) == Descending(ENTRY_FRAMES, NFRAMES);
    hide Represents, FreeAll, Descending, FreePages, RangePages, RangeLo, RangeHi;
    LateNoneFree(h);
    RangeStep(m2, h, ENTRY_LIMIT, P2V(PHYSTOP));
  }

  lemma LateNoneFree(h: Heap)
    requires forall f :: f in h.free ==> f < ENTRY_FRAMES
    ensures NoneFree(h, RangeLo(ENTRY_LIMIT), RangeHi(ENTRY_LIMIT, P2V(PHYSTOP)))
  {
    LateRange();
    hide RangeLo, RangeHi;
  }

  lemma KernelDirectoryParts(m: Mem, fs: seq<nat>, d: nat, kdata: word)
    requires KernelDirectory(m, fs, d, kdata)
    ensures Dir(m, fs, d) && d < NFRAMES && Shape(m)
    ensures forall q :: 0 <= q < NPAGES ==> Lookup(m, d, q) == KernelMap(kdata, q)
  {
    hide Lookup, KernelMap, PresentSet;
  }

  lemma LateOwned(m2: Mem, m3: Mem, h: Heap, late: seq<nat>, fs: seq<nat>)
    requires Shape(m2) && |fs| >= 65 && h == Heap(fs[65..], Owned(m2, fs[..65]))
    requires forall f :: f in fs ==> f < ENTRY_FRAMES
    requires forall f :: f in late ==> ENTRY_FRAMES <= f < NFRAMES
    requires Represents(m2, h) && Represents(m3, FreeAll(h, late))
    ensures FreeList(m3, late + fs[65..])
    ensures forall f :: f in late + fs[65..] ==> f < NFRAMES
    ensures forall f :: f in fs[..65] ==> f < NFRAMES && f !in late + fs[65..] && m3.ram[f] == m2.ram[f]
  {
    assert forall f :: f in fs[65..] ==> f in fs;
    forall f | f in fs[..65] ensures f < NFRAMES && f !in late + fs[65..] && m3.ram[f] == m2.ram[f] {
      assert f in fs;
      assert f in h.own && f !in late;
      assert f in FreeAll(h, late).own;
    }
  }

  /** Booting with the kernel's data starting at kdata and its image ending at
      kend: the free list before init_kvm, whether init_kvm succeeds, and what the
      machine looks like afterwards. */
  lemma BootMemory(m: Mem, kdata: word, kend: word)
    requires Shape(m) && m.freelist == 0 && Admissible(kdata) && kdata <= kend <= ENTRY_LIMIT
    ensures
      var early := EarlyList(kend);
      var m1 := EarlyFree(m, kend);
      var (r, m2) := SetupKvm(m1, kdata);
      var m3 := LateFree(m2);
      && FreeList(m1, early) && |early| == (0x80400000 - kend) / 4096
      && (r.Ready? <==> |early| >= 65)
      && (r.Ready? ==>
            && early[0] < NFRAMES
            && FreeList(m2, early[65..])
            && FreeList(m3, FinalList(kend))
            && Dir(m3, FinalList(kend), early[0])
            && |FinalList(kend)| == |early| - 65 + 56320
            && (forall q :: 0 <= q < NPAGES ==> Lookup(m3, early[0], q) == KernelMap(kdata, q)))
  {
    EarlyRange(kend);
    EarlyPhase(m, kend);
    EarlyCount(kend);
    var early, m1 := EarlyList(kend), EarlyFree(m, kend);
    SetupKvmCorrect(m1, early, kdata);
    if |early| >= 65 {
      KvmPhase(m1, kdata, early);
      hide SetupKvm, EarlyFree, EarlyList, IsTable, Admissible;
      assert forall f :: f in early ==> f < ENTRY_FRAMES;
      LatePhase(SetupKvm(m1, kdata).1, kdata, early);
    }
  }

  /** Every page that is free after boot can be reached through the kernel's own
      directory at its direct-map address, and written. */
  lemma FreePagesMapped(m: Mem, kdata: word, kend: word, f: nat)
    requires Shape(m) && m.freelist == 0 && Admissible(kdata) && kdata <= kend <= ENTRY_LIMIT
    requires |EarlyList(kend)| >= 65 && f in FinalList(kend)
    ensures f < NFRAMES && EarlyList(kend)[0] < NFRAMES
    ensures
      var e := Lookup(Booted(m, kdata, kend), EarlyList(kend)[0], PageAddr(f) / 4096);
      e.Some? && PteAddr(e.value) == V2P(PageAddr(f)) && Writable(e.value)
  {
    BootMemory(m, kdata, kend);
    hide SetupKvm, LateFree, EarlyFree, Lookup, FreeList, Dir;
    FreePageEntry(kdata, kend, f);
  }

  lemma FreePageEntry(kdata: word, kend: word, f: nat)
    requires Admissible(kdata) && kdata <= kend <= ENTRY_LIMIT && |EarlyList(kend)| >= 65
    requires f in FinalList(kend)
    ensures f < NFRAMES && PageAddr(f) / 4096 < NPAGES
    ensures KernelMap(kdata, PageAddr(f) / 4096).Some?
    ensures PteAddr(KernelMap(kdata, PageAddr(f) / 4096).value) == V2P(PageAddr(f))
    ensures Writable(KernelMap(kdata, PageAddr(f) / 4096).value)
  {
    assert f in EarlyList(kend)[65..] ==> f in EarlyList(kend);
    PageAddrInverse(f);
    var q := PageAddr(f) / 4096;
    assert q == 0x80000 + f;
    FreeAboveText(kdata, kend, f);
    MakePteFields(4096 * f, PTE_W);
  }

  lemma FreeAboveText(kdata: word, kend: word, f: nat)
    requires Admissible(kdata) && kdata <= kend <= ENTRY_LIMIT
    requires f in EarlyList(kend) || ENTRY_FRAMES <= f < NFRAMES
    ensures kdata / 4096 <= 0x80000 + f
  {
    EarlyRange(kend);
    assert PgRoundUp(kend) == KERNBASE + 4096 * FirstFree(kend);
    assert PgRoundUp(kend) >= kend;
  }

  /** The sizes that kernel_main prints, in KB. For a kernel image that ends in the page
      0x80111000 they are the ones in the repository's log: 3000, 2740 and 228020. */
  lemma BootLogSizes(m: Mem, kdata: word, kend: word)
    requires Shape(m) && m.freelist == 0 && Admissible(kdata) && kdata <= kend <= ENTRY_LIMIT
    requires 0x80111000 < kend <= 0x80112000
    ensures
      var m1 := EarlyFree(m, kend);
      var m2 := SetupKvm(m1, kdata).1;
      && FreeList(m1, EarlyList(kend)) && 4096 * |EarlyList(kend)| / 1024 == 3000
      && FreeList(m2, EarlyList(kend)[65..]) && 4096 * |EarlyList(kend)[65..]| / 1024 == 2740
      && FreeList(LateFree(m2), FinalList(kend)) && 4096 * |FinalList(kend)| / 1024 == 228020
  {
    hide *;
    LogNumbers(kend);
    BootMemory(m, kdata, kend);
  }

  lemma LogNumbers(kend: word)
    requires 0x80111000 < kend <= 0x80112000
    ensures KERNBASE <= kend <= ENTRY_LIMIT && (0x80400000 - kend) / 4096 == 750
  {
    QuotientUnique(0x80400000 - kend, 4096, 750, 0x80112000 - kend);
  }
}
