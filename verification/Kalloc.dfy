/** The physical page allocator (kernel/mm/kalloc.c). Free pages form a list
    whose links are stored in word 0 of the free pages themselves. */
module PageAllocator {
  import opened Bits
  import opened Mmu

  type Frame = s: seq<word> | |s| == 1024 witness seq(1024, _ => 0)

  /** What memset(page, 0, PGSIZE) leaves in a page. */
  function ZeroFrame(): (s: Frame)
    ensures forall i :: 0 <= i < 1024 ==> s[i] == 0
  {
    seq(1024, _ => 0)
  }

  /** What kfree leaves in a page: the filler word everywhere, then the link. */
  function FreedFrame(link: word): (s: Frame)
    ensures s[0] == link && forall i :: 1 <= i < 1024 ==> s[i] == FREE_STR
  {
    seq(1024, i => if i == 0 then link else FREE_STR)
  }

  /** RAM as page frames of 1024 words, and the head pointer of the free list. */
  datatype Mem = Mem(ram: seq<Frame>, freelist: word)

  predicate Shape(m: Mem) {
    |m.ram| == NFRAMES
  }

  predicate NoDup(fs: seq<nat>) {
    forall i, j :: 0 <= i < j < |fs| ==> fs[i] != fs[j]
  }

  /** Following the in-page links from head visits exactly the frames fs and
      then reaches the null pointer. */
  ghost predicate Chain(ram: seq<Frame>, head: word, fs: seq<nat>)
    decreases |fs|
  {
    if fs == [] then head == 0
    else
      && fs[0] < NFRAMES && fs[0] < |ram|
      && head == PageAddr(fs[0])
      && Chain(ram, ram[fs[0]][0], fs[1..])
  }

  ghost predicate FreeList(m: Mem, fs: seq<nat>) {
    Shape(m) && Chain(m.ram, m.freelist, fs) && NoDup(fs)
  }

  /* ---- what the C functions compute ---- */

  /** The word at a kernel pointer. Outside the direct map of RAM the model reads
      zero and drops stores; the methods below index a real array and so prove
      that they never make such an access. */
  function Load(m: Mem, a: word): word
    requires Shape(m)
  {
    if InRam(a) then m.ram[FrameOf(a)][a % 4096 / 4] else 0
  }

  function Store(m: Mem, a: word, w: word): Mem
    requires Shape(m)
  {
    if InRam(a) then Mem(m.ram[FrameOf(a) := m.ram[FrameOf(a)][a % 4096 / 4 := w]], m.freelist) else m
  }

  predicate GoodHead(m: Mem) {
    m.freelist == 0 || (InRam(m.freelist) && m.freelist % 4096 == 0)
  }

  function Alloc(m: Mem): (word, Mem)
    requires Shape(m)
  {
    if m.freelist == 0 then (0, m)
    else (m.freelist, Mem(m.ram, Load(m, m.freelist)))
  }

  function Free(m: Mem, ptr: word): Mem
    requires Shape(m) && InRam(ptr) && ptr % 4096 == 0
  {
    Mem(m.ram[FrameOf(ptr) := FreedFrame(m.freelist)], ptr)
  }

  function FreeFrom(m: Mem, p: word, vend: word): (r: Mem)
    requires Shape(m) && KERNBASE <= p && p % 4096 == 0 && vend <= KERNBASE + PHYSTOP
    ensures Shape(r)
    decreases KERNBASE + PHYSTOP - p
  {
    if p + 4096 <= vend then FreeFrom(Free(m, p), p + 4096, vend) else m
  }

  function FreePages(m: Mem, vstart: word, vend: word): Mem
    requires Shape(m) && KERNBASE <= PgRoundUp(vstart) && vend <= KERNBASE + PHYSTOP
  {
    FreeFrom(m, PgRoundUp(vstart), vend)
  }

  /* ---- the list structure ---- */

  lemma {:induction false} ChainUnique(ram: seq<Frame>, head: word, fs: seq<nat>, gs: seq<nat>)
    requires Chain(ram, head, fs) && Chain(ram, head, gs)
    ensures fs == gs
    decreases |fs|
  {
    if fs != [] && gs != [] {
      ChainUnique(ram, ram[fs[0]][0], fs[1..], gs[1..]);
      assert fs == [fs[0]] + fs[1..] && gs == [gs[0]] + gs[1..];
    }
  }

  /** Only word 0 of the listed frames matters to the list. */
  lemma {:induction false} ChainFrame(ram: seq<Frame>, ram': seq<Frame>, head: word, fs: seq<nat>)
    requires Chain(ram, head, fs)
    requires |ram'| == |ram|
    requires forall f :: f in fs && f < |ram| ==> ram'[f][0] == ram[f][0]
    ensures Chain(ram', head, fs)
    decreases |fs|
  {
    if fs == [] {
    } else {
      forall f | f in fs[1..] && f < |ram| ensures ram'[f][0] == ram[f][0] {
        assert f in fs;
      }
      ChainFrame(ram, ram', ram[fs[0]][0], fs[1..]);
    }
  }

  lemma {:induction false} ChainBounds(ram: seq<Frame>, head: word, fs: seq<nat>)
    requires Chain(ram, head, fs)
    ensures forall f :: f in fs ==> f < NFRAMES && f < |ram|
    decreases |fs|
  {
    if fs == [] {
    } else {
      ChainBounds(ram, ram[fs[0]][0], fs[1..]);
      assert fs == [fs[0]] + fs[1..];
    }
  }

  lemma {:induction false} DistinctBound(fs: seq<nat>, n: nat)
    requires NoDup(fs) && forall f :: f in fs ==> f < n
    ensures |fs| <= n
    decreases n
  {
    if fs == [] {
    } else {
      assert fs[0] in fs;
      if n - 1 in fs {
        var k :| 0 <= k < |fs| && fs[k] == n - 1;
        var gs := fs[..k] + fs[k + 1..];
        forall g | g in gs ensures g < n - 1 {
          var i :| 0 <= i < |gs| && gs[i] == g;
          var j := if i < k then i else i + 1;
          assert gs[i] == fs[j] && fs[j] in fs && j != k;
        }
        DistinctBound(gs, n - 1);
      } else {
        DistinctBound(fs, n - 1);
      }
    }
  }

  lemma AllocPops(m: Mem, fs: seq<nat>)
    requires FreeList(m, fs)
    ensures GoodHead(m)
    ensures fs == [] ==> Alloc(m) == (0, m)
    ensures fs != [] ==>
      Alloc(m).0 == PageAddr(fs[0]) && Alloc(m).1.ram == m.ram && FreeList(Alloc(m).1, fs[1..]) && fs[0] !in fs[1..]
  {
    if fs != [] {
      PageAddrInverse(fs[0]);
    }
  }

  /** kfree of a page that is not on the list pushes it. */
  lemma FreePushes(m: Mem, fs: seq<nat>, f: nat)
    requires FreeList(m, fs) && f < NFRAMES && f !in fs
    ensures InRam(PageAddr(f)) && FreeList(Free(m, PageAddr(f)), [f] + fs)
    ensures Free(m, PageAddr(f)).ram == m.ram[f := FreedFrame(m.freelist)]
    ensures FreedFrame(m.freelist)[0] == m.freelist
    ensures forall i :: 1 <= i < 1024 ==> FreedFrame(m.freelist)[i] == 0xdeadbeef
  {
    PageAddrInverse(f);
    var m' := Free(m, PageAddr(f));
    ChainFrame(m.ram, m'.ram, m.freelist, fs);
    assert ([f] + fs)[1..] == fs;
  }

  /** In a memory whose links agree on the first k frames, those links are
      followed again. */
  lemma {:induction false} ChainPrefix(ram: seq<Frame>, ram': seq<Frame>, head: word, fs: seq<nat>, k: nat,
      gs: seq<nat>)
    requires Chain(ram, head, fs) && k < |fs| && |ram'| == |ram|
    requires forall i :: 0 <= i < k && fs[i] < |ram| ==> ram'[fs[i]][0] == ram[fs[i]][0]
    requires Chain(ram', head, gs)
    ensures k <= |gs| && fs[k] < NFRAMES && Chain(ram', PageAddr(fs[k]), gs[k..])
    decreases k
  {
    assert gs[0..] == gs;
    if k == 0 {
    } else {
      assert fs[1..][k - 1] == fs[k];
      assert forall i :: 0 <= i < k - 1 ==> fs[1..][i] == fs[i + 1];
      ChainPrefix(ram, ram', ram[fs[0]][0], fs[1..], k - 1, gs[1..]);
      assert gs[1..][k - 1..] == gs[k..];
    }
  }

  /** kfree of a page already on the list leaves links that never reach null. */
  lemma DoubleFreeCycle(m: Mem, fs: seq<nat>, f: nat, gs: seq<nat>)
    requires FreeList(m, fs) && f in fs && f < NFRAMES && InRam(PageAddr(f))
    ensures var m' := Free(m, PageAddr(f)); !Chain(m'.ram, m'.freelist, gs)
  {
    PageAddrInverse(f);
    var m' := Free(m, PageAddr(f));
    var k :| 0 <= k < |fs| && fs[k] == f;
    if Chain(m'.ram, m'.freelist, gs) {
      assert Chain(m'.ram, m.freelist, gs[1..]);
      ChainPrefix(m.ram, m'.ram, m.freelist, fs, k, gs[1..]);
      ChainUnique(m'.ram, PageAddr(f), gs, gs[1..][k..]);
    }
  }

  /** Walking the list from its head ends. */
  ghost predicate FiniteList(m: Mem) {
    exists gs: seq<nat> :: Chain(m.ram, m.freelist, gs)
  }

  /** After kfree of a page, the list is still a finite list exactly when the
      page was not already on it. */
  lemma FreeFiniteIff(m: Mem, fs: seq<nat>, f: nat)
    requires FreeList(m, fs) && f < NFRAMES
    ensures InRam(PageAddr(f))
    ensures FiniteList(Free(m, PageAddr(f))) <==> f !in fs
  {
    PageAddrInverse(f);
    var m' := Free(m, PageAddr(f));
    if f in fs {
      forall gs: seq<nat> ensures !Chain(m'.ram, m'.freelist, gs) {
        DoubleFreeCycle(m, fs, f, gs);
      }
    } else {
      FreePushes(m, fs, f);
      var gs: seq<nat> := [f] + fs;
      assert Chain(m'.ram, m'.freelist, gs);
    }
  }

  /* ---- every run of the allocator and its clients ---- */

  datatype Op =
    | OpAlloc
    | OpFree(f: nat)
    | OpFreeRange(vstart: word, vend: word)
    | OpWrite(f: nat, i: nat, w: word)   // a client store into a page it was given

  /** The abstract allocator: the free frames in list order, and for every page
      that clients own, exactly what they stored there. */
  datatype Heap = Heap(free: seq<nat>, own: map<nat, Frame>)

  function HeadAddr(fs: seq<nat>): word
    requires forall i :: 0 <= i < |fs| ==> fs[i] < NFRAMES
  {
    if fs == [] then 0 else PageAddr(fs[0])
  }

  /** Frames lo, lo+1, ..., hi-1 in the order in which they end up on the list. */
  function Descending(lo: nat, hi: nat): (fs: seq<nat>)
    ensures forall f :: f in fs <==> lo <= f < hi
    ensures |fs| == if lo <= hi then hi - lo else 0
    ensures NoDup(fs)
  {
    if lo >= hi then []
    else
      var rest := Descending(lo, hi - 1);
      assert hi - 1 !in rest;
      [hi - 1] + rest
  }

  function RangeLo(vstart: word): int {
    (PgRoundUp(vstart) - KERNBASE) / 4096
  }

  function RangeHi(vstart: word, vend: word): int {
    if PgRoundUp(vstart) + 4096 <= vend then (vend - KERNBASE) / 4096 else RangeLo(vstart)
  }

  predicate NoneFree(h: Heap, lo: int, hi: int) {
    forall f :: f in h.free ==> !(lo <= f < hi)
  }

  predicate Legal(h: Heap, op: Op) {
    match op
    case OpAlloc => true
    case OpFree(f) => f < NFRAMES && f !in h.free
    case OpFreeRange(vs, ve) =>
      && KERNBASE <= PgRoundUp(vs) && ve <= KERNBASE + PHYSTOP
      && NoneFree(h, RangeLo(vs), RangeHi(vs, ve))
    case OpWrite(f, i, _) => f in h.own && i < 1024
  }

  function Step(m: Mem, op: Op): (r: Mem)
    requires Shape(m) && GoodHead(m)
    requires op.OpFree? ==> op.f < NFRAMES && InRam(PageAddr(op.f))
    requires op.OpFreeRange? ==> KERNBASE <= PgRoundUp(op.vstart) && op.vend <= KERNBASE + PHYSTOP
    requires op.OpWrite? ==> op.f < NFRAMES && op.i < 1024
    ensures Shape(r)
  {
    match op
    case OpAlloc => Alloc(m).1
    case OpFree(f) => Free(m, PageAddr(f))
    case OpFreeRange(vs, ve) => FreePages(m, vs, ve)
    case OpWrite(f, i, w) => Mem(m.ram[f := m.ram[f][i := w]], m.freelist)
  }

  function FreeAll(h: Heap, fs: seq<nat>): Heap {
    Heap(fs + h.free, map f | f in h.own && f !in fs :: h.own[f])
  }

  function RangePages(vstart: word, vend: word): seq<nat>
    requires KERNBASE <= PgRoundUp(vstart)
  {
    Descending(RangeLo(vstart), RangeHi(vstart, vend))
  }

  function HeapAlloc(h: Heap): Heap
    requires forall i :: 0 <= i < |h.free| ==> h.free[i] < NFRAMES
  {
    if h.free == [] then h
    else Heap(h.free[1..], h.own[h.free[0] := FreedFrame(HeadAddr(h.free[1..]))])
  }

  function HeapStep(h: Heap, op: Op): Heap
    requires Legal(h, op)
    requires forall i :: 0 <= i < |h.free| ==> h.free[i] < NFRAMES
  {
    if op.OpAlloc? then HeapAlloc(h)
    else if op.OpFree? then FreeAll(h, [op.f])
    else if op.OpFreeRange? then FreeAll(h, RangePages(op.vstart, op.vend))
    else Heap(h.free, h.own[op.f := h.own[op.f][op.i := op.w]])
  }

  /** The concrete memory implements the abstract allocator. */
  ghost predicate Represents(m: Mem, h: Heap) {
    && FreeList(m, h.free)
    && (forall f :: f in h.free ==> f < NFRAMES && m.ram[f] == FreedFrame(m.ram[f][0]))
    && (forall f :: f in h.own ==> f < NFRAMES && f !in h.free && m.ram[f] == h.own[f])
  }

  lemma FreeStep(m: Mem, h: Heap, f: nat)
    requires Represents(m, h) && f < NFRAMES && f !in h.free
    ensures InRam(PageAddr(f)) && Represents(Free(m, PageAddr(f)), FreeAll(h, [f]))
  {
    FreePushes(m, h.free, f);
    var m' := Free(m, PageAddr(f));
  }

  /** free_range pushes the whole pages lo, lo+1, ..., hi-1 of its range. */
  lemma {:induction false} FreeFromStep(m: Mem, h: Heap, lo: nat, hi: nat, vend: word)
    requires Represents(m, h) && lo <= hi <= NFRAMES && lo < NFRAMES
    requires lo < hi ==> PageAddr(hi - 1) + 4096 <= vend
    requires vend <= KERNBASE + PHYSTOP && vend < KERNBASE + 4096 * hi + 4096
    requires NoneFree(h, lo, hi)
    ensures Represents(FreeFrom(m, PageAddr(lo), vend), FreeAll(h, Descending(lo, hi)))
    decreases hi - lo
  {
    FreeFromUnfold(m, lo, hi, vend);
    if lo == hi {
      EmptyRange(m, h, lo);
    } else {
      PushOne(m, h, lo, hi);
      hide *;
      var m1, h1 := Free(m, PageAddr(lo)), FreeAll(h, [lo]);
      if lo + 1 < hi {
        FreeFromStep(m1, h1, lo + 1, hi, vend);
      } else {
        EmptyRange(m1, h1, lo + 1);
      }
      DescendingSplit(lo, hi);
      FreeAllTwice(h, [lo], Descending(lo + 1, hi));
    }
  }

  lemma PushOne(m: Mem, h: Heap, lo: nat, hi: nat)
    requires Represents(m, h) && lo < hi <= NFRAMES && NoneFree(h, lo, hi)
    ensures InRam(PageAddr(lo)) && Represents(Free(m, PageAddr(lo)), FreeAll(h, [lo]))
    ensures NoneFree(FreeAll(h, [lo]), lo + 1, hi)
  {
    assert lo !in h.free;
    FreeStep(m, h, lo);
  }

  lemma EmptyRange(m: Mem, h: Heap, lo: nat)
    ensures FreeAll(h, Descending(lo, lo)) == h
  {
  }

  /** One turn of the loop of free_range. */
  lemma FreeRangeTurn(m: Mem, p: word, vend: word)
    requires Shape(m) && KERNBASE <= p && p % 4096 == 0 && vend <= KERNBASE + PHYSTOP
    ensures (p + 4096) % 4096 == 0
    ensures FreeFrom(m, p, vend) == if p + 4096 <= vend then FreeFrom(Free(m, p), p + 4096, vend) else m
  {
    hide Free;
  }

  lemma FreeFromUnfold(m: Mem, lo: nat, hi: nat, vend: word)
    requires Shape(m) && lo <= hi <= NFRAMES && lo < NFRAMES
    requires lo < hi ==> PageAddr(hi - 1) + 4096 <= vend
    requires vend <= KERNBASE + PHYSTOP && vend < KERNBASE + 4096 * hi + 4096
    ensures
      if lo == hi then FreeFrom(m, PageAddr(lo), vend) == m
      else if lo + 1 == hi then FreeFrom(m, PageAddr(lo), vend) == Free(m, PageAddr(lo))
      else FreeFrom(m, PageAddr(lo), vend) == FreeFrom(Free(m, PageAddr(lo)), PageAddr(lo + 1), vend)
  {
    hide Free;
  }

  lemma FreeAllTwice(h: Heap, fs: seq<nat>, gs: seq<nat>)
    ensures FreeAll(FreeAll(h, fs), gs) == FreeAll(h, gs + fs)
  {
  }

  lemma {:induction false} DescendingSplit(lo: nat, hi: nat)
    requires lo < hi
    ensures Descending(lo, hi) == Descending(lo + 1, hi) + [lo]
    decreases hi
  {
    if lo + 1 < hi {
      DescendingSplit(lo, hi - 1);
    }
  }

  /** Frame f lies as a whole between two addresses. */
  predicate LiesIn(f: nat, vstart: word, vend: word) {
    f < NFRAMES && vstart <= PageAddr(f) && PageAddr(f) + 4096 <= vend
  }

  /** free_range frees exactly the pages that lie in its range as a whole. */
  lemma RangeExtent(vs: word, ve: word)
    requires KERNBASE <= PgRoundUp(vs) && ve <= KERNBASE + PHYSTOP
    ensures forall f: nat :: f in RangePages(vs, ve) <==> LiesIn(f, vs, ve)
  {
    var lo, hi := RangeLo(vs), RangeHi(vs, ve);
    PageBounds(vs);
    assert vs <= 0xFFFFF000;
    assert PgRoundUp(vs) == KERNBASE + 4096 * lo;
    hide PgRoundUp, RangeLo;
    forall f: nat ensures f in RangePages(vs, ve) <==> LiesIn(f, vs, ve) {
    }
  }

  /** free_range pushes every page that lies in its range as a whole, each once and in
      rising order, and nothing else. */
  lemma RangeStep(m: Mem, h: Heap, vs: word, ve: word)
    requires Represents(m, h) && KERNBASE <= PgRoundUp(vs) && ve <= KERNBASE + PHYSTOP
    requires NoneFree(h, RangeLo(vs), RangeHi(vs, ve))
    ensures Represents(FreePages(m, vs, ve), FreeAll(h, RangePages(vs, ve))) && NoDup(RangePages(vs, ve))
    ensures forall f: nat :: f in RangePages(vs, ve) <==> LiesIn(f, vs, ve)
  {
    RangeExtent(vs, ve);
    var lo, hi := RangeLo(vs), RangeHi(vs, ve);
    assert PgRoundUp(vs) == KERNBASE + 4096 * lo;
    if lo < hi {
      assert PageAddr(hi - 1) + 4096 <= ve;
      FreeFromStep(m, h, lo, hi, ve);
    } else {
      assert FreeAll(h, []) == h;
    }
  }

  /** One operation of the allocator or of a client. */
  lemma StepSimulates(m: Mem, h: Heap, op: Op)
    requires Represents(m, h) && Legal(h, op)
    ensures GoodHead(m)
    ensures op.OpFree? ==> InRam(PageAddr(op.f))
    ensures forall i :: 0 <= i < |h.free| ==> h.free[i] < NFRAMES
    ensures Represents(Step(m, op), HeapStep(h, op))
  {
    AllocPops(m, h.free);
    assert forall i :: 0 <= i < |h.free| ==> h.free[i] in h.free;
    match op
    case OpAlloc =>
    case OpFree(f) => FreeStep(m, h, f);
    case OpFreeRange(vs, ve) => RangeStep(m, h, vs, ve);
    case OpWrite(f, i, w) =>
      ChainFrame(m.ram, Step(m, op).ram, m.freelist, h.free);
  }

  predicate StepOk(m: Mem, op: Op) {
    && Shape(m) && GoodHead(m)
    && (op.OpFree? ==> op.f < NFRAMES && InRam(PageAddr(op.f)))
    && (op.OpFreeRange? ==> KERNBASE <= PgRoundUp(op.vstart) && op.vend <= KERNBASE + PHYSTOP)
    && (op.OpWrite? ==> op.f < NFRAMES && op.i < 1024)
  }

  predicate CanRun(m: Mem, ops: seq<Op>)
    decreases |ops|
  {
    ops == [] || (StepOk(m, ops[0]) && CanRun(Step(m, ops[0]), ops[1..]))
  }

  function Run(m: Mem, ops: seq<Op>): Mem
    requires CanRun(m, ops)
    decreases |ops|
  {
    if ops == [] then m else Run(Step(m, ops[0]), ops[1..])
  }

  predicate LegalRun(h: Heap, ops: seq<Op>)
    decreases |ops|
  {
    ops == [] || (
      && (forall i :: 0 <= i < |h.free| ==> h.free[i] < NFRAMES)
      && Legal(h, ops[0])
      && LegalRun(HeapStep(h, ops[0]), ops[1..])
    )
  }

  function HeapRun(h: Heap, ops: seq<Op>): Heap
    requires LegalRun(h, ops)
    decreases |ops|
  {
    if ops == [] then h else HeapRun(HeapStep(h, ops[0]), ops[1..])
  }

  /** Over every sequence of allocator calls and client stores, no pointer the
      allocator follows is bad, the in-page list stays finite and free of
      duplicates, no page is both free and owned, and every owned page holds
      exactly what its owner stored. */
  lemma {:induction false} RunSimulates(m: Mem, h: Heap, ops: seq<Op>)
    requires Represents(m, h) && LegalRun(h, ops)
    ensures CanRun(m, ops)
    ensures Represents(Run(m, ops), HeapRun(h, ops))
    decreases |ops|
  {
    if ops == [] {
    } else {
      StepSimulates(m, h, ops[0]);
      RunSimulates(Step(m, ops[0]), HeapStep(h, ops[0]), ops[1..]);
    }
  }

  /** The pages the allocator knows about: free, or owned by a client. */
  ghost function Known(h: Heap): set<nat> {
    (set f | f in h.free) + h.own.Keys
  }

  ghost function Given(op: Op): set<nat>
    requires op.OpFreeRange? ==> KERNBASE <= PgRoundUp(op.vstart)
  {
    match op
    case OpFree(f) => {f}
    case OpFreeRange(vs, ve) => (set f | f in RangePages(vs, ve))
    case _ => {}
  }

  /** No operation loses a page: the known pages grow by exactly those given. */
  lemma StepConserves(h: Heap, op: Op)
    requires Legal(h, op) && forall i :: 0 <= i < |h.free| ==> h.free[i] < NFRAMES
    ensures Known(HeapStep(h, op)) == Known(h) + Given(op)
  {
    var h' := HeapStep(h, op);
    if op.OpAlloc? && h.free != [] {
      assert h.free == [h.free[0]] + h.free[1..];
    }
    forall f ensures f in Known(h') <==> f in Known(h) + Given(op) {
    }
  }

  /** The kernel's view of physical memory. */
  class PhysicalMemory {
    const ram: array<Frame>
    var freelist: word

    ghost predicate Valid() {
      ram.Length == NFRAMES
    }

    function Snap(): Mem
      reads this, ram
    {
      Mem(ram[..], freelist)
    }

    /** Power-on: contents are whatever they are, the list head is zero (.bss). */
    constructor (contents: array<Frame>)
      requires contents.Length == NFRAMES
      ensures Valid() && ram == contents && Snap() == Mem(contents[..], 0)
    {
      ram, freelist := contents, 0;
    }

    /** `*a` for a pointer into the direct map. */
    method Read(a: word) returns (w: word)
      requires Valid() && InRam(a) && a % 4 == 0
      ensures w == Load(Snap(), a)
    {
      w := ram[FrameOf(a)][a % 4096 / 4];
    }

    /** `*a = w` for a pointer into the direct map. */
    method Write(a: word, w: word)
      requires Valid() && InRam(a) && a % 4 == 0
      modifies ram
      ensures Snap() == Store(old(Snap()), a, w)
    {
      var f, i := FrameOf(a), a % 4096 / 4;
      ram[f] := ram[f][i := w];
      assert ram[..] == old(ram[..])[f := old(ram[f])[i := w]];
    }

    method Kalloc() returns (r: word)
      requires Valid() && GoodHead(Snap())
      modifies this`freelist
      ensures (r, Snap()) == Alloc(old(Snap()))
    {
      r := freelist;
      if r != 0 {
        freelist := ram[FrameOf(freelist)][0];
      }
    }

    method Kfree(ptr: word)
      requires Valid() && InRam(ptr) && ptr % 4096 == 0
      modifies this`freelist, ram
      ensures Snap() == Free(old(Snap()), ptr)
    {
      var f := FrameOf(ptr);
      var i := 0;
      while i < 1024
        invariant 0 <= i <= 1024
        invariant freelist == old(freelist)
        invariant forall g :: 0 <= g < NFRAMES && g != f ==> ram[g] == old(ram[g])
        invariant forall j :: 0 <= j < i ==> ram[f][j] == FREE_STR
      {
        ram[f] := ram[f][i := FREE_STR];
        i := i + 1;
      }
      ram[f] := ram[f][0 := freelist];
      assert ram[f] == FreedFrame(freelist);
      freelist := ptr;
      assert ram[..] == old(ram[..])[f := FreedFrame(old(freelist))];
    }

    method FreeRange(vstart: word, vend: word)
      requires Valid() && KERNBASE <= PgRoundUp(vstart) && vend <= KERNBASE + PHYSTOP
      modifies this`freelist, ram
      ensures Snap() == FreePages(old(Snap()), vstart, vend)
    {
      var p: word := PgRoundUp(vstart);
      assert p % 4096 == 0;
      hide PgRoundUp, PgRoundDown, Free, FreeFrom;
      while p + 4096 <= vend
        invariant p >= KERNBASE && p % 4096 == 0
        invariant FreeFrom(Snap(), p, vend) == FreePages(old(Snap()), vstart, vend)
        decreases KERNBASE + PHYSTOP - p
      {
        FreeRangeTurn(Snap(), p, vend);
        Kfree(p);
        p := p + 4096;
      }
      FreeRangeTurn(Snap(), p, vend);
    }

    /** The number of free bytes. The product cannot wrap, because the list is
        free of duplicates and its frames are RAM frames. */
    method KmemSize(ghost fs: seq<nat>) returns (size: word)
      requires Valid() && FreeList(Snap(), fs)
      ensures size == 4096 * |fs|
    {
      ChainBounds(ram[..], freelist, fs);
      DistinctBound(fs, NFRAMES);
      var count: word := 0;
      var r := freelist;
      ghost var rest := fs;
      assert fs[0..] == fs;
      while r != 0
        invariant Chain(ram[..], r, rest)
        invariant count + |rest| == |fs|
        decreases |rest|
      {
        PageAddrInverse(rest[0]);
        r := ram[FrameOf(r)][0];
        count := Wrap(count + 1);
        rest := rest[1..];
      }
      size := Wrap(count * PGSIZE);
    }
  }
}
