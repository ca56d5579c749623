/** The first user page (init_uvm in kernel/mm/vm.c). */
module UserSpace {
  import opened Options
  import opened Bits
  import opened Mmu
  import opened PageAllocator
  import opened Vm
  import opened KernelSpace

  /* ---- memmove into a page ---- */

  /** Byte k of a page. */
  function PageByte(s: Frame, k: nat): byte
    requires k < 4096
  {
    ByteOf(s[k / 4], k % 4)
  }

  function PutByte(s: Frame, k: nat, b: byte): Frame
    requires k < 4096
  {
    s[k / 4 := SetByte(s[k / 4], k % 4, b)]
  }

  /** The first n bytes of src stored at the start of a page. */
  function PutBytes(s: Frame, src: seq<byte>, n: nat): Frame
    requires n <= |src| <= 4096
  {
    if n == 0 then s else PutByte(PutBytes(s, src, n - 1), n - 1, src[n - 1])
  }

  lemma PutByteAt(s: Frame, k: nat, b: byte, j: nat)
    requires k < 4096 && j < 4096
    ensures PageByte(PutByte(s, k, b), j) == if j == k then b else PageByte(s, j)
  {
    SetByteBytes(s[k / 4], k % 4, b, j % 4);
    assert j / 4 == k / 4 && j % 4 == k % 4 ==> j == k;
  }

  lemma {:induction false} PutBytesAt(s: Frame, src: seq<byte>, n: nat, j: nat)
    requires n <= |src| <= 4096 && j < 4096
    ensures PageByte(PutBytes(s, src, n), j) == if j < n then src[j] else PageByte(s, j)
    decreases n
  {
    if n == 0 {
    } else {
      PutByteAt(PutBytes(s, src, n - 1), n - 1, src[n - 1], j);
      PutBytesAt(s, src, n - 1, j);
    }
  }

  /* ---- init_uvm ---- */

  datatype UvmOutcome = UvmDone | UvmPanicked

  function CopyIn(m: Mem, pg: word, init: seq<byte>): Mem
    requires Shape(m) && |init| <= 4096
  {
    if InRam(pg) then Mem(m.ram[FrameOf(pg) := PutBytes(m.ram[FrameOf(pg)], init, |init|)], m.freelist) else m
  }

  /** init_uvm. The result of kalloc is not checked: on a null pointer memset and
      memmove return at once, and the failure of map_pages is ignored. */
  function InitUvm(m: Mem, pgdir: word, init: seq<byte>): (r: (UvmOutcome, Mem))
    requires Shape(m)
    ensures Shape(r.1)
  {
    if |init| > 4096 then (UvmPanicked, m)
    else
      var (pg, m1) := Alloc(m);
      var (o, m3) := MapPages(ZeroPage(m1, pg), pgdir, 0, 4096, V2P(pg), PTE_W + PTE_U);
      if o == Remapped then (UvmPanicked, m3) else (UvmDone, CopyIn(m3, pg, init))
  }

  /** The first page holds `init` followed by zeros. */
  ghost predicate HoldsInit(s: Frame, init: seq<byte>)
    requires |init| <= 4096
  {
    forall k :: 0 <= k < 4096 ==> PageByte(s, k) == if k < |init| then init[k] else 0
  }

  lemma ZeroByte(k: nat)
    requires k < 4096
    ensures PageByte(ZeroFrame(), k) == 0
  {
    assert ZeroFrame()[k / 4] == 0;
  }

  lemma ZeroThenInit(init: seq<byte>)
    requires |init| <= 4096
    ensures HoldsInit(PutBytes(ZeroFrame(), init, |init|), init)
  {
    hide PutBytes, PageByte, ZeroFrame;
    forall k | 0 <= k < 4096
      ensures PageByte(PutBytes(ZeroFrame(), init, |init|), k) == if k < |init| then init[k] else 0
    {
      ZeroByte(k);
      PutBytesAt(ZeroFrame(), init, |init|, k);
    }
  }

  /** Page 0, and nothing else, has been mapped; or, on an empty free list,
      nothing has changed. */
  ghost predicate PageZeroMapped(r: (MapOutcome, Mem), m: Mem, fs: seq<nat>, fs': seq<nat>, d: nat, pa: word,
      perm: word)
    requires d < NFRAMES && Shape(m)
  {
    && Dir(r.1, fs', d)
    && r.0 == (if fs == [] then OutOfFrames else Mapped)
    && fs' == (if fs == [] then [] else fs[1..])
    && (forall q :: 0 <= q < NPAGES ==>
          Lookup(r.1, d, q) == if q == 0 && fs != [] then Some(MakePte(pa, perm)) else Lookup(m, d, q))
    && OthersSame(m, r.1, if fs == [] then [] else [fs[0]], d)
    && TablesFrom(m, r.1, if fs == [] then [] else [fs[0]], d)
  }

  /** Every table of the directory is one it had before or a frame just taken. */
  ghost predicate TablesFrom(m: Mem, m': Mem, taken: seq<nat>, d: nat)
    requires d < NFRAMES && Shape(m) && Shape(m')
  {
    forall f :: 0 <= f < NFRAMES && IsTable(m', d, f) ==> IsTable(m, d, f) || f in taken
  }

  /** Mapping the single page 0 into a directory whose slot 0 is empty. */
  lemma MapPageZero(m: Mem, fs: seq<nat>, d: nat, pa: word, perm: word) returns (fs': seq<nat>)
    requires Dir(m, fs, d) && d < NFRAMES && Shape(m) && !Present(m.ram[d][0])
    ensures PageZeroMapped(MapPages(m, PageAddr(d), 0, 4096, pa, perm), m, fs, fs', d, pa, perm)
  {
    OnePageRange(m, PageAddr(d), pa, perm);
    ZeroSlotFree(m, d);
    hide *;
    var k: nat;
    fs', k := MapLoopCorrect(m, fs, d, 0, 0, pa, perm);
    MapLoopIff(m, fs, d, 0, 0, pa, perm);
    PageZeroCases(MapLoop(m, PageAddr(d), 0, 0, pa, perm), m, fs, fs', d, k, pa, perm);
  }

  lemma OnePageRange(m: Mem, pgdir: word, pa: word, perm: word)
    requires Shape(m)
    ensures MapPages(m, pgdir, 0, 4096, pa, perm) == MapLoop(m, pgdir, 0, 0, pa, perm)
    ensures PagesAfter(0, 0) == 0 && DirSlots(0, PagesAfter(0, 0) + 1) == {0}
  {
    hide MapLoop, DirSlots, Wrap, PgRoundDown;
    OnePageBounds();
    OneSlot(0);
  }

  lemma OnePageBounds()
    ensures PgRoundDown(0) == 0 && Wrap(0 + 4096 - 1) == 4095 && PgRoundDown(4095) == 0
  {
  }

  lemma ZeroSlotFree(m: Mem, d: nat)
    requires d < NFRAMES && Shape(m) && !Present(m.ram[d][0])
    ensures RangeFree(m, d, 0, 1) && {0} - PresentSet(m, d) == {0} && |{0} - PresentSet(m, d)| == 1
  {
  }

  lemma PageZeroCases(r: (MapOutcome, Mem), m: Mem, fs: seq<nat>, fs': seq<nat>, d: nat, k: nat, pa: word, perm: word)
    requires d < NFRAMES && Shape(m) && RangeFree(m, d, 0, 1)
    requires MapResult(r, m, fs, fs', d, 0, 0, k, pa, perm)
    requires r.0 == Mapped <==> 1 <= |fs|
    requires {0} - PresentSet(m, d) == {0}
    ensures PageZeroMapped(r, m, fs, fs', d, pa, perm)
  {
    SummaryParts(m, fs, r.1, fs', d, 0, k, pa, perm);
    PageZeroEnd(r, m, fs', d, k);
    hide *;
    OneSlot(0);
    NoSlots(0);
    GrownCount(m, fs, r.1, fs', d, DirSlots(0, k));
    PageZeroFrames(m, fs, r.1, fs', d, k);
    PageZeroView(m, r.1, d, k, pa, perm);
    PageZeroIntro(r, m, fs, fs', d, k, pa, perm);
  }

  lemma NoSlots(sp: nat)
    requires sp < NPAGES
    ensures DirSlots(sp, 0) == {}
  {
  }

  lemma PageZeroView(m: Mem, m': Mem, d: nat, k: nat, pa: word, perm: word)
    requires d < NFRAMES && Shape(m) && Shape(m') && k <= 1 && MapView(m, m', d, 0, k, pa, perm)
    ensures forall q :: 0 <= q < NPAGES ==>
      Lookup(m', d, q) == if q == 0 && k == 1 then Some(MakePte(pa, perm)) else Lookup(m, d, q)
  {
    hide Lookup, MakePte;
    assert Wrap(pa + 4096 * 0) == pa;
  }

  lemma PageZeroFrames(m: Mem, fs: seq<nat>, m': Mem, fs': seq<nat>, d: nat, k: nat)
    requires d < NFRAMES && Shape(m) && Shape(m') && k <= 1
    requires Grown(m, fs, m', fs', d, DirSlots(0, k)) && |DirSlots(0, k) - PresentSet(m, d)| == |fs| - |fs'|
    requires DirSlots(0, 0) == {} && DirSlots(0, 1) == {0} && {0} - PresentSet(m, d) == {0}
    ensures |fs| - |fs'| == k && fs' == fs[k..] && OthersSame(m, m', fs[..k], d) && TablesFrom(m, m', fs[..k], d)
  {
    hide OthersSame, IsTable, DirSlots;
  }

  lemma PageZeroIntro(r: (MapOutcome, Mem), m: Mem, fs: seq<nat>, fs': seq<nat>, d: nat, k: nat, pa: word, perm: word)
    requires d < NFRAMES && Shape(m) && Shape(r.1) && Dir(r.1, fs', d) && k <= 1
    requires |fs| - |fs'| == k && fs' == fs[k..] && OthersSame(m, r.1, fs[..k], d) && TablesFrom(m, r.1, fs[..k], d)
    requires r.0 != Remapped && (r.0 == Mapped ==> k == 1) && (r.0 == OutOfFrames ==> k == 0 && fs' == [])
    requires forall q :: 0 <= q < NPAGES ==>
      Lookup(r.1, d, q) == if q == 0 && k == 1 then Some(MakePte(pa, perm)) else Lookup(m, d, q)
    ensures PageZeroMapped(r, m, fs, fs', d, pa, perm)
  {
    hide OthersSame, TablesFrom, Lookup, MakePte, Dir;
    assert k == 1 ==> fs[..k] == [fs[0]];
  }

  lemma PageZeroEnd(r: (MapOutcome, Mem), m: Mem, fs': seq<nat>, d: nat, k: nat)
    requires d < NFRAMES && Shape(m) && Shape(r.1) && RangeFree(m, d, 0, 1)
    requires MapEnd(r.0, m, r.1, fs', d, 0, 1, k)
    ensures r.0 != Remapped && (r.0 == Mapped ==> k == 1) && (r.0 == OutOfFrames ==> k == 0 && fs' == [])
  {
    assert PageAt(0, 0) == 0;
  }

  /** Writing a frame that is neither the directory, nor one of its tables, nor
      free leaves the directory as it is. */
  lemma WriteElsewhere(m: Mem, fs: seq<nat>, d: nat, f: nat, s: Frame)
    requires Dir(m, fs, d) && f < NFRAMES && f != d && f !in fs && !IsTable(m, d, f)
    ensures
      var m' := Mem(m.ram[f := s], m.freelist);
      && Dir(m', fs, d)
      && (forall q :: 0 <= q < NPAGES ==> Lookup(m', d, q) == Lookup(m, d, q))
      && m'.ram[d] == m.ram[d]
      && (forall g :: 0 <= g < NFRAMES ==> (IsTable(m', d, g) <==> IsTable(m, d, g)))
  {
    var m' := Mem(m.ram[f := s], m.freelist);
    ChainFrame(m.ram, m'.ram, m.freelist, fs);
    assert m'.ram[d] == m.ram[d];
  }

  /** The page that kalloc hands out belongs to no table. */
  lemma PopDir(m: Mem, fs: seq<nat>, d: nat)
    requires Dir(m, fs, d) && fs != []
    ensures fs[0] < NFRAMES && fs[0] != d && fs[0] !in fs[1..] && InRam(PageAddr(fs[0]))
    ensures Alloc(m) == (PageAddr(fs[0]), Alloc(m).1) && Alloc(m).1.ram == m.ram
    ensures Dir(Alloc(m).1, fs[1..], d) && !IsTable(Alloc(m).1, d, fs[0])
  {
    assert fs[0] in fs;
    AllocPops(m, fs);
    PageAddrInverse(fs[0]);
    assert forall f :: f in fs[1..] ==> f in fs;
  }

  /** After init_uvm with enough memory: page 0 is the process image. */
  ghost predicate UserPage(m: Mem, m': Mem, fs: seq<nat>, d: nat, init: seq<byte>)
    requires |fs| >= 2 && d < NFRAMES && Shape(m) && Shape(m') && |init| <= 4096
  {
    && fs[0] < NFRAMES
    && Dir(m', fs[2..], d)
    && (forall q :: 0 <= q < NPAGES ==>
          Lookup(m', d, q) == if q == 0 then Some(MakePte(4096 * fs[0], PTE_W + PTE_U)) else Lookup(m, d, q))
    && HoldsInit(m'.ram[fs[0]], init)
    && (forall f :: 0 <= f < NFRAMES && f != d && f !in fs[..2] && !IsTable(m, d, f) ==> m'.ram[f] == m.ram[f])
    && TablesFrom(m, m', [fs[1]], d) && !IsTable(m', d, fs[0])
  }

  /** The three states that init_uvm goes through when two frames are free. */
  lemma InitUvmSteps(m: Mem, fs: seq<nat>, d: nat, init: seq<byte>)
    requires Dir(m, fs, d) && d < NFRAMES && Shape(m) && !Present(m.ram[d][0]) && |init| <= 4096 && |fs| >= 2
    ensures InitUvm(m, PageAddr(d), init).0 == UvmDone
    ensures UserPage(m, InitUvm(m, PageAddr(d), init).1, fs, d, init)
  {
    PopDir(m, fs, d);
    var f := fs[0];
    PageAddrInverse(f);
    var m1 := Alloc(m).1;
    WriteElsewhere(m1, fs[1..], d, f, ZeroFrame());
    var m2 := ZeroPage(m1, PageAddr(f));
    assert m2 == Mem(m1.ram[f := ZeroFrame()], m1.freelist);
    var fs' := MapPageZero(m2, fs[1..], d, 4096 * f, PTE_W + PTE_U);
    var (o, m3) := MapPages(m2, PageAddr(d), 0, 4096, 4096 * f, PTE_W + PTE_U);
    assert fs[1..][1..] == fs[2..];
    InitUvmCopy(m, m2, m3, fs, d, init);
    hide Dir, HoldsInit, UserPage, MapPages, PageZeroMapped, IsTable;
    assert InitUvm(m, PageAddr(d), init) == (UvmDone, CopyIn(m3, PageAddr(f), init));
  }

  lemma InitUvmCopy(m: Mem, m2: Mem, m3: Mem, fs: seq<nat>, d: nat, init: seq<byte>)
    requires |fs| >= 2 && d < NFRAMES && Shape(m) && Shape(m2) && Shape(m3) && |init| <= 4096
    requires fs[0] < NFRAMES && fs[0] != d && fs[0] !in fs[1..] && InRam(PageAddr(fs[0]))
      && FrameOf(PageAddr(fs[0])) == fs[0]
    requires m2.ram == m.ram[fs[0] := ZeroFrame()] && !IsTable(m2, d, fs[0])
    requires forall q :: 0 <= q < NPAGES ==> Lookup(m2, d, q) == Lookup(m, d, q)
    requires PageZeroMapped((Mapped, m3), m2, fs[1..], fs[2..], d, 4096 * fs[0], PTE_W + PTE_U)
    ensures UserPage(m, CopyIn(m3, PageAddr(fs[0]), init), fs, d, init)
  {
    hide *;
    var f := fs[0];
    FrameNumbers(m);
    FrameNumbers(m2);
    FrameNumbers(m3);
    PageZeroParts(m3, m2, fs, d, 4096 * f, PTE_W + PTE_U);
    CopyTarget(m2, m3, fs, d);
    var s := PutBytes(m3.ram[f], init, |init|);
    ZeroThenInit(init);
    CopyInIs(m3, f, init);
    WriteElsewhere(m3, fs[2..], d, f, s);
    var m4 := CopyIn(m3, PageAddr(f), init);
    CopyFrames(m, m2, m3, fs, d);
    CopyTables(m, m2, m3, m4, fs, d);
    UserPageIntro(m, m2, m3, m4, fs, d, init);
  }

  lemma FrameNumbers(m: Mem)
    requires Shape(m)
    ensures |m.ram| == NFRAMES && 4096 * NFRAMES < 0x1_0000_0000 && PTE_W + PTE_U == 6
  {
  }

  lemma PageZeroParts(m3: Mem, m2: Mem, fs: seq<nat>, d: nat, pa: word, perm: word)
    requires |fs| >= 2 && d < NFRAMES && Shape(m2) && Shape(m3)
    requires PageZeroMapped((Mapped, m3), m2, fs[1..], fs[2..], d, pa, perm)
    ensures Dir(m3, fs[2..], d) && OthersSame(m2, m3, [fs[1]], d) && TablesFrom(m2, m3, [fs[1]], d)
    ensures forall q :: 0 <= q < NPAGES ==>
      Lookup(m3, d, q) == if q == 0 then Some(MakePte(pa, perm)) else Lookup(m2, d, q)
  {
    assert fs[1..][0] == fs[1];
    hide Dir, OthersSame, TablesFrom, Lookup, MakePte;
  }

  lemma CopyInIs(m: Mem, f: nat, init: seq<byte>)
    requires Shape(m) && f < NFRAMES && InRam(PageAddr(f)) && FrameOf(PageAddr(f)) == f && |init| <= 4096
    ensures CopyIn(m, PageAddr(f), init) == Mem(m.ram[f := PutBytes(m.ram[f], init, |init|)], m.freelist)
    ensures Shape(CopyIn(m, PageAddr(f), init))
  {
    hide PutBytes, PageAddr;
  }

  lemma CopyTables(m: Mem, m2: Mem, m3: Mem, m4: Mem, fs: seq<nat>, d: nat)
    requires |fs| >= 2 && d < NFRAMES && Shape(m) && Shape(m2) && Shape(m3) && Shape(m4)
    requires m2.ram[d] == m.ram[d] && m4.ram[d] == m3.ram[d]
    requires TablesFrom(m2, m3, [fs[1]], d)
    ensures TablesFrom(m, m4, [fs[1]], d)
    ensures forall f :: 0 <= f < NFRAMES ==> (IsTable(m4, d, f) <==> IsTable(m3, d, f))
  {
    forall f | 0 <= f < NFRAMES
      ensures IsTable(m4, d, f) <==> IsTable(m3, d, f)
      ensures IsTable(m2, d, f) <==> IsTable(m, d, f)
    {
    }
    hide IsTable;
  }

  lemma UserPageIntro(m: Mem, m2: Mem, m3: Mem, m4: Mem, fs: seq<nat>, d: nat, init: seq<byte>)
    requires |fs| >= 2 && d < NFRAMES && Shape(m) && Shape(m2) && Shape(m3) && Shape(m4) && |init| <= 4096
      && fs[0] < NFRAMES
    requires Dir(m4, fs[2..], d)
    requires forall q :: 0 <= q < NPAGES ==> Lookup(m2, d, q) == Lookup(m, d, q)
    requires forall q :: 0 <= q < NPAGES ==>
      Lookup(m3, d, q) == if q == 0 then Some(MakePte(4096 * fs[0], PTE_W + PTE_U)) else Lookup(m2, d, q)
    requires forall q :: 0 <= q < NPAGES ==> Lookup(m4, d, q) == Lookup(m3, d, q)
    requires m4.ram == m3.ram[fs[0] := m4.ram[fs[0]]] && HoldsInit(m4.ram[fs[0]], init)
    requires forall x :: 0 <= x < NFRAMES && x != d && x !in fs[..2] && !IsTable(m, d, x) ==> m3.ram[x] == m.ram[x]
    requires TablesFrom(m, m4, [fs[1]], d) && !IsTable(m4, d, fs[0])
    ensures UserPage(m, m4, fs, d, init)
  {
    assert fs[0] in fs[..2] by { assert fs[..2][0] == fs[0]; }
    hide Dir, Lookup, MakePte, HoldsInit, IsTable, TablesFrom;
  }

  lemma CopyTarget(m2: Mem, m3: Mem, fs: seq<nat>, d: nat)
    requires |fs| >= 2 && d < NFRAMES && Shape(m2) && Shape(m3)
    requires fs[0] < NFRAMES && fs[0] != d && fs[0] !in fs[1..] && m2.ram[fs[0]] == ZeroFrame()
      && !IsTable(m2, d, fs[0])
    requires OthersSame(m2, m3, [fs[1]], d) && TablesFrom(m2, m3, [fs[1]], d)
    ensures m3.ram[fs[0]] == ZeroFrame() && !IsTable(m3, d, fs[0]) && fs[0] !in fs[2..]
  {
    assert fs[1] in fs[1..];
    assert forall x :: x in fs[2..] ==> x in fs[1..];
  }

  lemma CopyFrames(m: Mem, m2: Mem, m3: Mem, fs: seq<nat>, d: nat)
    requires |fs| >= 2 && d < NFRAMES && Shape(m) && Shape(m2) && Shape(m3)
    requires fs[0] < NFRAMES && fs[0] != d && m2.ram == m.ram[fs[0] := ZeroFrame()]
    requires OthersSame(m2, m3, [fs[1]], d)
    ensures forall x :: 0 <= x < NFRAMES && x != d && x !in fs[..2] && !IsTable(m, d, x) ==> m3.ram[x] == m.ram[x]
  {
    assert fs[..2] == [fs[0], fs[1]];
    assert m2.ram[d] == m.ram[d];
    forall x | 0 <= x < NFRAMES && x != d && x !in fs[..2] && !IsTable(m, d, x) ensures m3.ram[x] == m.ram[x] {
      assert !IsTable(m2, d, x);
    }
  }

  /** With fewer than two free frames nothing becomes mapped, silently. */
  lemma InitUvmStarved(m: Mem, fs: seq<nat>, d: nat, init: seq<byte>)
    requires Dir(m, fs, d) && d < NFRAMES && Shape(m) && !Present(m.ram[d][0]) && |init| <= 4096 && |fs| < 2
    ensures InitUvm(m, PageAddr(d), init).0 == UvmDone
    ensures Lookup(InitUvm(m, PageAddr(d), init).1, d, 0) == None
    ensures forall f :: 0 <= f < NFRAMES && f != d && f !in fs && !IsTable(m, d, f) ==>
      InitUvm(m, PageAddr(d), init).1.ram[f] == m.ram[f]
  {
    if fs == [] {
      AllocPops(m, fs);
      var fs' := MapPageZero(m, fs, d, V2P(0), PTE_W + PTE_U);
      assert !InRam(0);
    } else {
      PopDir(m, fs, d);
      var f := fs[0];
      PageAddrInverse(f);
      var m1 := Alloc(m).1;
      WriteElsewhere(m1, [], d, f, ZeroFrame());
      var m2 := ZeroPage(m1, PageAddr(f));
      assert fs[1..] == [];
      var fs' := MapPageZero(m2, [], d, 4096 * f, PTE_W + PTE_U);
      var m3 := MapPages(m2, PageAddr(d), 0, 4096, 4096 * f, PTE_W + PTE_U).1;
      WriteElsewhere(m3, [], d, f, PutBytes(m3.ram[f], init, |init|));
    }
  }

  /** init_uvm on a directory with nothing in its first slot: the process image
      becomes visible at virtual address 0 exactly when two frames are free. */
  lemma InitUvmIff(m: Mem, fs: seq<nat>, d: nat, init: seq<byte>)
    requires Dir(m, fs, d) && d < NFRAMES && Shape(m) && !Present(m.ram[d][0]) && |init| <= 4096
    ensures Lookup(InitUvm(m, PageAddr(d), init).1, d, 0).Some? <==> |fs| >= 2
  {
    hide InitUvm;
    if |fs| >= 2 {
      InitUvmSteps(m, fs, d, init);
    } else {
      InitUvmStarved(m, fs, d, init);
    }
  }

  /** map_pages of page 0 alone meets a mapped page exactly when page 0 is mapped. */
  lemma PageZeroRemapped(m: Mem, fs: seq<nat>, d: nat, pa: word, perm: word)
    requires Dir(m, fs, d) && d < NFRAMES && Shape(m)
    ensures MapPages(m, PageAddr(d), 0, 4096, pa, perm).0 == Remapped <==> Lookup(m, d, 0).Some?
  {
    hide *;
    OnePageRange(m, PageAddr(d), pa, perm);
    var fs', k := MapLoopCorrect(m, fs, d, 0, 0, pa, perm);
    MapLoopIff(m, fs, d, 0, 0, pa, perm);
    var r := MapLoop(m, PageAddr(d), 0, 0, pa, perm);
    ZeroRangeFree(m, d);
    ResultParts(r, m, fs, fs', d, k, pa, perm);
  }

  lemma ZeroRangeFree(m: Mem, d: nat)
    requires d < NFRAMES && Shape(m)
    ensures RangeFree(m, d, 0, 1) ==> Lookup(m, d, 0) == None
    ensures 0 / 4096 == 0 && PagesAfter(0, 0) == 0
  {
    hide Lookup;
    assert PageAt(0, 0) == 0;
  }

  lemma ResultParts(r: (MapOutcome, Mem), m: Mem, fs: seq<nat>, fs': seq<nat>, d: nat, k: nat, pa: word, perm: word)
    requires d < NFRAMES && Shape(m) && MapResult(r, m, fs, fs', d, 0, 0, k, pa, perm) && PagesAfter(0, 0) == 0
    ensures r.0 == Remapped ==> Lookup(m, d, 0).Some?
    ensures r.0 == OutOfFrames ==> Lookup(m, d, 0) == None
  {
    assert PageAt(0, 0) == 0;
    SummaryParts(m, fs, r.1, fs', d, 0, k, pa, perm);
    if r.0 == OutOfFrames {
      assert k == 0 && !Present(r.1.ram[d][0]);
      assert Lookup(r.1, d, 0) == None;
      hide Lookup, MakePte, PageAt;
      assert Lookup(r.1, d, 0) == Lookup(m, d, 0);
    }
  }

  /** init_uvm panics exactly for an image of more than a page, and on a directory in
      which page 0 is already mapped; never for want of memory. */
  lemma InitUvmPanicsIff(m: Mem, fs: seq<nat>, d: nat, init: seq<byte>)
    requires Dir(m, fs, d) && d < NFRAMES && Shape(m)
    ensures InitUvm(m, PageAddr(d), init).0 == UvmPanicked <==> |init| > 4096 || Lookup(m, d, 0).Some?
  {
    if |init| <= 4096 {
      if fs == [] {
        AllocPops(m, fs);
        PageZeroRemapped(m, fs, d, V2P(0), PTE_W + PTE_U);
        hide Dir, Lookup, MapPages, FreeList;
        assert !InRam(0);
      } else {
        PopDir(m, fs, d);
        var f, m1 := fs[0], Alloc(m).1;
        PageAddrInverse(f);
        WriteElsewhere(m1, fs[1..], d, f, ZeroFrame());
        var m2 := ZeroPage(m1, PageAddr(f));
        assert m2 == Mem(m1.ram[f := ZeroFrame()], m1.freelist);
        PageZeroRemapped(m2, fs[1..], d, 4096 * f, PTE_W + PTE_U);
        assert Lookup(m2, d, 0) == Lookup(m, d, 0);
        hide Dir, Lookup, MapPages, IsTable;
      }
    }
  }

  /** A user-mode access needs the U bit in both levels. */
  ghost predicate UserAccess(m: Mem, d: nat, q: nat)
    requires d < NFRAMES && Shape(m) && q < NPAGES
  {
    User(m.ram[d][q / 1024]) && Lookup(m, d, q).Some? && User(Lookup(m, d, q).value)
  }

  /** The first process sees exactly one page, holding its code, and the kernel
      half of its address space is unchanged and out of its reach. */
  lemma FirstProcessSpace(m: Mem, fs: seq<nat>, d: nat, kdata: word, init: seq<byte>, q: nat)
    requires KernelDirectory(m, fs, d, kdata) && |fs| >= 2 && |init| <= 4096 && q < NPAGES
    ensures d < NFRAMES && Shape(m)
    ensures
      var m' := InitUvm(m, PageAddr(d), init).1;
      && (UserAccess(m', d, q) <==> q == 0)
      && (q != 0 ==> Lookup(m', d, q) == KernelMap(kdata, q))
      && fs[0] < NFRAMES && HoldsInit(m'.ram[fs[0]], init)
  {
    KernelDirectoryAt(m, fs, d, kdata, q);
    InitUvmSteps(m, fs, d, init);
    var m' := InitUvm(m, PageAddr(d), init).1;
    UserPageAt(m, m', fs, d, init, q);
    hide *;
    UserEntry(fs[0]);
    KernelOnly(kdata, q);
    TableUser(m', fs[2..], d, q);
    AccessCases(m', d, q, fs[0], kdata);
  }

  lemma KernelDirectoryAt(m: Mem, fs: seq<nat>, d: nat, kdata: word, q: nat)
    requires KernelDirectory(m, fs, d, kdata) && q < NPAGES
    ensures Dir(m, fs, d) && d < NFRAMES && Shape(m)
    ensures Lookup(m, d, q) == KernelMap(kdata, q) && !Present(m.ram[d][0])
  {
    assert 0 !in PresentSet(m, d);
  }

  lemma UserPageAt(m: Mem, m': Mem, fs: seq<nat>, d: nat, init: seq<byte>, q: nat)
    requires |fs| >= 2 && d < NFRAMES && Shape(m) && Shape(m') && |init| <= 4096 && q < NPAGES
    requires UserPage(m, m', fs, d, init)
    ensures fs[0] < NFRAMES && Dir(m', fs[2..], d) && HoldsInit(m'.ram[fs[0]], init)
    ensures Lookup(m', d, q) == if q == 0 then Some(MakePte(4096 * fs[0], PTE_W + PTE_U)) else Lookup(m, d, q)
  {
    hide Dir, Lookup, HoldsInit, MakePte, IsTable;
  }

  lemma UserEntry(f: nat)
    requires f < NFRAMES
    ensures User(MakePte(4096 * f, PTE_W + PTE_U))
  {
    MakePteFields(4096 * f, PTE_W + PTE_U);
  }

  lemma AccessCases(m: Mem, d: nat, q: nat, f: nat, kdata: word)
    requires d < NFRAMES && Shape(m) && q < NPAGES && f < NFRAMES
    requires Lookup(m, d, q) == if q == 0 then Some(MakePte(4096 * f, PTE_W + PTE_U)) else KernelMap(kdata, q)
    requires User(MakePte(4096 * f, PTE_W + PTE_U))
    requires KernelMap(kdata, q).Some? ==> !User(KernelMap(kdata, q).value)
    requires Lookup(m, d, q).Some? ==> User(m.ram[d][q / 1024])
    ensures UserAccess(m, d, q) <==> q == 0
  {
    hide Lookup, MakePte, KernelMap, User;
  }

  /** Every table is reachable in user mode as far as the directory is concerned. */
  lemma TableUser(m: Mem, fs: seq<nat>, d: nat, q: nat)
    requires Dir(m, fs, d) && q < NPAGES
    ensures d < NFRAMES && Shape(m) && (Lookup(m, d, q).Some? ==> User(m.ram[d][q / 1024]))
  {
    var e := m.ram[d][q / 1024];
    if Present(e) {
      assert GoodPde(e, fs, d);
      SplitFields(e / 4096, 7);
    }
  }

  lemma KernelOnly(kdata: word, q: nat)
    requires q < NPAGES
    ensures KernelMap(kdata, q).Some? ==> !User(KernelMap(kdata, q).value)
  {
    if 0x80000 <= q < 0x8E000 {
      MakePteFields(4096 * (q - 0x80000), 0);
      MakePteFields(4096 * (q - 0x80000), PTE_W);
    } else if 0xFE000 <= q {
      MakePteFields(4096 * q, PTE_W);
    }
  }

  /* ---- the C function as it runs ---- */

  /** memmove of the process image to the start of the page at pg. */
  method CopyToPage(mem: PhysicalMemory, pg: word, init: seq<byte>)
    requires mem.Valid() && InRam(pg) && |init| <= 4096
    modifies mem.ram
    ensures mem.Snap() == CopyIn(old(mem.Snap()), pg, init)
  {
    var f := FrameOf(pg);
    var n := 0;
    while n < |init|
      invariant 0 <= n <= |init|
      invariant mem.ram[..] == old(mem.ram[..])[f := PutBytes(old(mem.ram[..])[f], init, n)]
    {
      mem.ram[f] := PutByte(mem.ram[f], n, init[n]);
      n := n + 1;
    }
  }

  /** init_uvm for an image that fits, with the null checks of memset and memmove. */
  method InitUser(mem: PhysicalMemory, pgdir: word, init: seq<byte>, ghost fs: seq<nat>) returns (o: UvmOutcome)
    requires mem.Valid() && InRam(pgdir) && pgdir % 4096 == 0 && Dir(mem.Snap(), fs, FrameOf(pgdir))
    modifies mem`freelist, mem.ram
    ensures (o, mem.Snap()) == InitUvm(old(mem.Snap()), pgdir, init)
  {
    if |init| > 4096 {
      return UvmPanicked;
    }
    ghost var m, d := mem.Snap(), FrameOf(pgdir);
    AllocPops(m, fs);
    var pg := mem.Kalloc();
    ghost var fs1 := fs;
    if pg != 0 {
      PopDir(m, fs, d);
      fs1 := fs[1..];
      WriteElsewhere(mem.Snap(), fs1, d, fs[0], ZeroFrame());
      ghost var m1 := mem.Snap();
      mem.ram[FrameOf(pg)] := ZeroFrame();
      assert mem.Snap() == Mem(m1.ram[fs[0] := ZeroFrame()], m1.freelist);
      assert mem.Snap() == ZeroPage(m1, pg);
    }
    var res := MapRange(mem, pgdir, 0, 4096, V2P(pg), PTE_W + PTE_U, fs1);
    if res == Remapped {
      return UvmPanicked;
    }
    if pg != 0 {
      CopyToPage(mem, pg, init);
    }
    return UvmDone;
  }
}
