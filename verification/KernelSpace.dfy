/** The kernel half of every address space (setup_kvm in kernel/mm/vm.c). */
module KernelSpace {
  import opened Options
  import opened Bits
  import opened Mmu
  import opened PageAllocator
  import opened Vm

  datatype Kmap = Kmap(virt: word, physStart: word, physEnd: word, perm: word)

  /** init_kmappings: the low megabyte, the kernel's text up to its data, its
      data with the rest of RAM, and the devices. */
  function IoMap(): Kmap {
    Kmap(KERNBASE, 0, EXTMEM, PTE_W)
  }

  function TextMap(kdata: word): Kmap {
    Kmap(KERNLINK, V2P(KERNLINK), V2P(kdata), 0)
  }

  function DataMap(kdata: word): Kmap {
    Kmap(kdata, V2P(kdata), PHYSTOP, PTE_W)
  }

  function DeviceMap(): Kmap {
    Kmap(DEVSPACE, DEVSPACE, 0, PTE_W)
  }

  function Kmaps(kdata: word): seq<Kmap> {
    [IoMap(), TextMap(kdata), DataMap(kdata), DeviceMap()]
  }

  function MapKmap(m: Mem, pgdir: word, k: Kmap): (r: (MapOutcome, Mem))
    requires Shape(m)
    ensures Shape(r.1)
  {
    MapPages(m, pgdir, k.virt, Wrap(k.physEnd - k.physStart), k.physStart, k.perm)
  }

  /** The loop of setup_kvm; false means that one of its panics was reached. */
  function SetupLoop(m: Mem, pgdir: word, ks: seq<Kmap>): (r: (bool, Mem))
    requires Shape(m)
    ensures Shape(r.1)
    decreases |ks|
  {
    if ks == [] then (true, m)
    else
      var (o, m1) := MapKmap(m, pgdir, ks[0]);
      if o != Mapped then (false, m1) else SetupLoop(m1, pgdir, ks[1..])
  }

  datatype SetupResult = NoMemory | Panicked | Ready(pgdir: word)

  function SetupKvm(m: Mem, kdata: word): (r: (SetupResult, Mem))
    requires Shape(m)
    ensures Shape(r.1)
  {
    var (pgdir, m1) := Alloc(m);
    if pgdir == 0 then (NoMemory, m1)
    else
      var (ok, m2) := SetupLoop(ZeroPage(m1, pgdir), pgdir, Kmaps(kdata));
      (if ok then Ready(pgdir) else Panicked, m2)
  }

  /* ---- one range of the table ---- */

  function FirstPage(k: Kmap): nat {
    k.virt / 4096
  }

  /** The address of the last byte of a range. */
  function LastByte(k: Kmap): word {
    Wrap(k.virt + Wrap(k.physEnd - k.physStart) - 1)
  }

  function PageCount(k: Kmap): nat {
    PagesAfter(PgRoundDown(k.virt), PgRoundDown(LastByte(k))) + 1
  }

  predicate Covers(k: Kmap, q: nat)
    requires q < NPAGES
  {
    Off(FirstPage(k), q) < PageCount(k)
  }

  function KmapEntry(k: Kmap, q: nat): word
    requires q < NPAGES
  {
    MakePte(EntryAddr(k, q), k.perm)
  }

  function EntryAddr(k: Kmap, q: nat): word
    requires q < NPAGES
  {
    Wrap(k.physStart + 4096 * Off(FirstPage(k), q))
  }

  /** What a list of ranges, mapped one after the other, translates page q to. */
  function KmapLookup(ks: seq<Kmap>, q: nat): Option<word>
    requires q < NPAGES
    decreases |ks|
  {
    if ks == [] then None
    else if Covers(ks[|ks| - 1], q) then Some(KmapEntry(ks[|ks| - 1], q))
    else KmapLookup(ks[..|ks| - 1], q)
  }

  ghost function KmapSlots(ks: seq<Kmap>): set<nat>
    decreases |ks|
  {
    if ks == [] then {}
    else KmapSlots(ks[..|ks| - 1]) + DirSlots(FirstPage(ks[|ks| - 1]), PageCount(ks[|ks| - 1]))
  }

  /** The directory maps exactly the ranges ks. */
  ghost predicate Holds(m: Mem, fs: seq<nat>, d: nat, ks: seq<Kmap>) {
    && Dir(m, fs, d)
    && (forall q :: 0 <= q < NPAGES ==> Lookup(m, d, q) == KmapLookup(ks, q))
    && PresentSet(m, d) == KmapSlots(ks)
  }

  /** No earlier range covers a page of the next one. */
  predicate Apart(ks: seq<Kmap>, k: Kmap) {
    forall q :: 0 <= q < NPAGES && Covers(k, q) ==> KmapLookup(ks, q) == None
  }

  ghost function SlotsOf(k: Kmap): set<nat> {
    DirSlots(FirstPage(k), PageCount(k))
  }

  /** One range of the table: mapped exactly when it is apart from the earlier
      ones and the free list covers its new tables. */
  lemma KmapStep(m: Mem, fs: seq<nat>, d: nat, ks: seq<Kmap>, k: Kmap) returns (fs': seq<nat>)
    requires Holds(m, fs, d, ks) && d < NFRAMES && Shape(m)
    ensures MapKmap(m, PageAddr(d), k).0 == Mapped <==> Apart(ks, k) && |SlotsOf(k) - KmapSlots(ks)| <= |fs|
    ensures MapKmap(m, PageAddr(d), k).0 == Mapped ==>
      && Holds(MapKmap(m, PageAddr(d), k).1, fs', d, ks + [k])
      && Grown(m, fs, MapKmap(m, PageAddr(d), k).1, fs', d, SlotsOf(k))
  {
    var start, last := PgRoundDown(k.virt), PgRoundDown(LastByte(k));
    hide *;
    KmapBounds(m, PageAddr(d), k);
    KmapApart(m, fs, d, ks, k);
    var n: nat;
    fs', n := MapLoopCorrect(m, fs, d, start, last, k.physStart, k.perm);
    MapLoopIff(m, fs, d, start, last, k.physStart, k.perm);
    var (o, m') := MapLoop(m, PageAddr(d), start, last, k.physStart, k.perm);
    if o == Mapped {
      KmapMapped(m, fs, m', fs', d, ks, k, start, last, n);
    }
  }

  lemma KmapBounds(m: Mem, pgdir: word, k: Kmap)
    requires Shape(m)
    ensures
      var start, last := PgRoundDown(k.virt), PgRoundDown(LastByte(k));
      && start / 4096 == FirstPage(k) && PagesAfter(start, last) + 1 == PageCount(k)
      && SlotsOf(k) == DirSlots(FirstPage(k), PageCount(k))
      && MapKmap(m, pgdir, k) == MapLoop(m, pgdir, start, last, k.physStart, k.perm)
  {
    assert PgRoundDown(k.virt) / 4096 == k.virt / 4096;
    hide MapLoop, DirSlots, PagesAfter, PgRoundDown;
  }

  lemma KmapMapped(m: Mem, fs: seq<nat>, m': Mem, fs': seq<nat>, d: nat, ks: seq<Kmap>, k: Kmap, start: word,
      last: word, n: nat)
    requires Holds(m, fs, d, ks) && d < NFRAMES && Shape(m) && Shape(m')
    requires MapResult((Mapped, m'), m, fs, fs', d, start, last, n, k.physStart, k.perm)
    requires start / 4096 == FirstPage(k) && PagesAfter(start, last) + 1 == PageCount(k)
    ensures Holds(m', fs', d, ks + [k]) && Grown(m, fs, m', fs', d, SlotsOf(k))
  {
    MappedParts(m, fs, m', fs', d, k, start, last, n);
    hide *;
    KmapView(m, fs, m', d, ks, k);
    GrownSlots(m, fs, m', fs', d, ks, k);
    HoldsIntro(m', fs', d, ks + [k]);
  }

  lemma MappedParts(m: Mem, fs: seq<nat>, m': Mem, fs': seq<nat>, d: nat, k: Kmap, start: word, last: word, n: nat)
    requires MapResult((Mapped, m'), m, fs, fs', d, start, last, n, k.physStart, k.perm)
    requires start / 4096 == FirstPage(k) && PagesAfter(start, last) + 1 == PageCount(k)
    ensures d < NFRAMES && Shape(m) && Shape(m') && Dir(m', fs', d)
    ensures MapView(m, m', d, FirstPage(k), PageCount(k), k.physStart, k.perm)
    ensures Grown(m, fs, m', fs', d, SlotsOf(k))
  {
    hide MapView, Grown, DirSlots, FirstPage, PageCount, PagesAfter;
  }

  lemma GrownSlots(m: Mem, fs: seq<nat>, m': Mem, fs': seq<nat>, d: nat, ks: seq<Kmap>, k: Kmap)
    requires Holds(m, fs, d, ks) && d < NFRAMES && Shape(m) && Shape(m')
    requires Grown(m, fs, m', fs', d, SlotsOf(k))
    ensures PresentSet(m', d) == KmapSlots(ks + [k])
  {
    KmapSlotsAppend(ks, k);
  }

  lemma HoldsIntro(m: Mem, fs: seq<nat>, d: nat, ks: seq<Kmap>)
    requires Dir(m, fs, d)
    requires forall q :: 0 <= q < NPAGES ==> Lookup(m, d, q) == KmapLookup(ks, q)
    requires PresentSet(m, d) == KmapSlots(ks)
    ensures Holds(m, fs, d, ks)
  {
  }

  lemma KmapSlotsAppend(ks: seq<Kmap>, k: Kmap)
    ensures KmapSlots(ks + [k]) == KmapSlots(ks) + SlotsOf(k)
  {
    assert (ks + [k])[..|ks|] == ks;
  }

  lemma KmapApart(m: Mem, fs: seq<nat>, d: nat, ks: seq<Kmap>, k: Kmap)
    requires Holds(m, fs, d, ks)
    ensures d < NFRAMES && Shape(m)
    ensures Dir(m, fs, d) && PresentSet(m, d) == KmapSlots(ks)
    ensures RangeFree(m, d, FirstPage(k), PageCount(k)) <==> Apart(ks, k)
  {
  }

  lemma KmapView(m: Mem, fs: seq<nat>, m': Mem, d: nat, ks: seq<Kmap>, k: Kmap)
    requires Holds(m, fs, d, ks) && d < NFRAMES && Shape(m) && Shape(m')
    requires MapView(m, m', d, FirstPage(k), PageCount(k), k.physStart, k.perm)
    ensures forall q :: 0 <= q < NPAGES ==> Lookup(m', d, q) == KmapLookup(ks + [k], q)
  {
    forall q | 0 <= q < NPAGES ensures Lookup(m', d, q) == KmapLookup(ks + [k], q) {
      HoldsAt(m, fs, d, ks, q);
      hide *;
      KmapViewAt(m, m', d, ks, k, q);
    }
  }

  lemma HoldsAt(m: Mem, fs: seq<nat>, d: nat, ks: seq<Kmap>, q: nat)
    requires Holds(m, fs, d, ks) && d < NFRAMES && Shape(m) && q < NPAGES
    ensures Lookup(m, d, q) == KmapLookup(ks, q)
  {
    hide Lookup, KmapLookup, Dir, PresentSet, KmapSlots;
  }

  lemma KmapViewAt(m: Mem, m': Mem, d: nat, ks: seq<Kmap>, k: Kmap, q: nat)
    requires d < NFRAMES && Shape(m) && Shape(m') && q < NPAGES && Lookup(m, d, q) == KmapLookup(ks, q)
    requires MapView(m, m', d, FirstPage(k), PageCount(k), k.physStart, k.perm)
    ensures Lookup(m', d, q) == KmapLookup(ks + [k], q)
  {
    KmapLookupSnoc(ks, k, q);
    hide Lookup, FirstPage, PageCount, MakePte, KmapLookup, Off;
  }

  lemma KmapLookupSnoc(ks: seq<Kmap>, k: Kmap, q: nat)
    requires q < NPAGES
    ensures KmapLookup(ks + [k], q) == if Covers(k, q) then Some(KmapEntry(k, q)) else KmapLookup(ks, q)
  {
    assert (ks + [k])[..|ks|] == ks;
    hide Covers, KmapEntry;
  }

  /* ---- the whole table ---- */

  /** Every range of `rest` is apart from those before it. */
  predicate AllApart(done: seq<Kmap>, rest: seq<Kmap>)
    decreases |rest|
  {
    rest == [] || (Apart(done, rest[0]) && AllApart(done + [rest[0]], rest[1..]))
  }

  lemma {:induction false} KmapSlotsGrow(done: seq<Kmap>, rest: seq<Kmap>)
    ensures KmapSlots(done) <= KmapSlots(done + rest)
    decreases |rest|
  {
    hide *;
    if rest == [] {
      assert done + rest == done;
    } else {
      KmapSlotsAppend(done, rest[0]);
      KmapSlotsGrow(done + [rest[0]], rest[1..]);
      assert done + [rest[0]] + rest[1..] == done + rest;
    }
  }

  lemma Telescoped(a: set<nat>, b: set<nat>, c: set<nat>)
    requires a <= b <= c
    ensures |c - a| == |c - b| + |b - a|
  {
    assert c - a == (c - b) + (b - a) && (c - b) !! (b - a);
  }

  /** The loop of setup_kvm goes through exactly when all its ranges are apart
      and the free list covers all missing tables; then the directory holds
      exactly those ranges. */
  lemma {:induction false} SetupLoopCorrect(m: Mem, fs: seq<nat>, d: nat, done: seq<Kmap>, rest: seq<Kmap>)
    returns (fs': seq<nat>)
    requires Holds(m, fs, d, done) && d < NFRAMES && Shape(m)
    ensures SetupLoop(m, PageAddr(d), rest).0 <==>
      AllApart(done, rest) && |KmapSlots(done + rest) - KmapSlots(done)| <= |fs|
    ensures SetupLoop(m, PageAddr(d), rest).0 ==>
      && Holds(SetupLoop(m, PageAddr(d), rest).1, fs', d, done + rest)
      && Grown(m, fs, SetupLoop(m, PageAddr(d), rest).1, fs', d, KmapSlots(done + rest))
    decreases |rest|
  {
    SetupUnfold(m, PageAddr(d), done, rest);
    HeldSlots(m, fs, d, done);
    if rest == [] {
      assert done + rest == done;
      HoldsNothingNew(m, fs, d, done);
      fs' := fs;
    } else {
      hide *;
      var k, done1 := rest[0], done + [rest[0]];
      var (o, m1) := MapKmap(m, PageAddr(d), k);
      assert done1 + rest[1..] == done + rest;
      fs' := KmapStep(m, fs, d, done, k);
      SlotArithmetic(done, k, rest[1..]);
      if o == Mapped {
        var fs1 := fs';
        GrownCount(m, fs, m1, fs1, d, SlotsOf(k));
        fs' := SetupLoopCorrect(m1, fs1, d, done1, rest[1..]);
        if SetupLoop(m1, PageAddr(d), rest[1..]).0 {
          GrownCompose(m, fs, m1, fs1, SetupLoop(m1, PageAddr(d), rest[1..]).1, fs', d, SlotsOf(k),
              KmapSlots(done + rest));
        }
      }
    }
  }

  lemma SetupUnfold(m: Mem, pgdir: word, done: seq<Kmap>, rest: seq<Kmap>)
    requires Shape(m)
    ensures rest == [] ==> SetupLoop(m, pgdir, rest) == (true, m) && AllApart(done, rest)
    ensures rest != [] ==>
      && SetupLoop(m, pgdir, rest) ==
           (if MapKmap(m, pgdir, rest[0]).0 != Mapped then (false, MapKmap(m, pgdir, rest[0]).1)
            else SetupLoop(MapKmap(m, pgdir, rest[0]).1, pgdir, rest[1..]))
      && (AllApart(done, rest) <==> Apart(done, rest[0]) && AllApart(done + [rest[0]], rest[1..]))
  {
    hide MapKmap, Apart;
  }

  lemma HoldsNothingNew(m: Mem, fs: seq<nat>, d: nat, ks: seq<Kmap>)
    requires Holds(m, fs, d, ks)
    ensures d < NFRAMES && Shape(m) && Grown(m, fs, m, fs, d, KmapSlots(ks))
  {
    assert fs == fs[0..];
  }

  lemma SlotArithmetic(done: seq<Kmap>, k: Kmap, rest: seq<Kmap>)
    ensures
      var s0, s1, s2 := KmapSlots(done), KmapSlots(done + [k]), KmapSlots(done + [k] + rest);
      && s1 == s0 + SlotsOf(k)
      && |s2 - s0| == |s2 - s1| + |SlotsOf(k) - s0|
      && SlotsOf(k) + s2 == s2
  {
    KmapSlotsAppend(done, k);
    KmapSlotsGrow(done + [k], rest);
    hide *;
    var s0, s1, s2 := KmapSlots(done), KmapSlots(done + [k]), KmapSlots(done + [k] + rest);
    Telescoped(s0, s1, s2);
    assert SlotsOf(k) - s0 == s1 - s0;
  }

  lemma HeldSlots(m: Mem, fs: seq<nat>, d: nat, ks: seq<Kmap>)
    requires Holds(m, fs, d, ks)
    ensures d < NFRAMES && Shape(m) && PresentSet(m, d) == KmapSlots(ks)
  {
  }

  /* ---- the kernel's own table ---- */

  predicate Admissible(kdata: word) {
    kdata % 4096 == 0 && KERNLINK < kdata < P2V(PHYSTOP)
  }

  /** The address space every process shares: RAM at KERNBASE, writable except
      for the kernel's text, and the device range mapped to itself. */
  function KernelMap(kdata: word, q: nat): Option<word>
    requires q < NPAGES
  {
    if 0x80000 <= q < 0x8E000 then
      Some(MakePte(4096 * (q - 0x80000), if 0x80100 <= q < kdata / 4096 then 0 else PTE_W))
    else if 0xFE000 <= q then
      Some(MakePte(4096 * q, PTE_W))
    else None
  }

  lemma LastBytes(kdata: word)
    ensures LastByte(IoMap()) == 0x800FFFFF && LastByte(DeviceMap()) == 0xFFFFFFFF
    ensures LastByte(TextMap(kdata)) == Wrap(kdata - 1)
    ensures LastByte(DataMap(kdata)) == 0x8DFFFFFF
  {
    WrapAdd(0 - V2P(KERNLINK), kdata - KERNBASE);
    WrapAdd(KERNLINK - 1, kdata - KERNBASE - V2P(KERNLINK));
    WrapSub(PHYSTOP, kdata - KERNBASE);
    WrapAdd(kdata - 1, PHYSTOP - (kdata - KERNBASE));
  }

  lemma WrapSub(a: int, b: int)
    ensures Wrap(a - Wrap(b)) == Wrap(a - b)
  {
    var q := b / WORD_LIMIT;
    assert b == q * WORD_LIMIT + Wrap(b);
    DivideSum(-q, a - Wrap(b), WORD_LIMIT);
  }

  /** The page extents of the four ranges, for any start of the kernel's data. */
  lemma Extents(kdata: word)
    ensures FirstPage(IoMap()) == 0x80000 && PageCount(IoMap()) == 0x100
    ensures FirstPage(TextMap(kdata)) == 0x80100
    ensures PageCount(TextMap(kdata)) == PagesAfter(KERNLINK, PgRoundDown(Wrap(kdata - 1))) + 1
    ensures FirstPage(DataMap(kdata)) == kdata / 4096
    ensures PageCount(DataMap(kdata)) == PagesAfter(PgRoundDown(kdata), 0x8DFFF000) + 1
    ensures FirstPage(DeviceMap()) == 0xFE000 && PageCount(DeviceMap()) == 0x2000
  {
    LastBytes(kdata);
    hide LastByte, V2P, Wrap;
  }

  lemma AdmissibleExtents(kdata: word)
    requires Admissible(kdata)
    ensures PageCount(TextMap(kdata)) == kdata / 4096 - 0x80100
    ensures PageCount(DataMap(kdata)) == 0x8E000 - kdata / 4096
    ensures 0x80100 < kdata / 4096 < 0x8E000
  {
    Extents(kdata);
    hide PageCount, FirstPage, LastByte, V2P;
    var s := kdata / 4096;
    assert kdata == 4096 * s;
    assert Wrap(kdata - 1) == kdata - 1;
    assert PgRoundDown(kdata - 1) == 4096 * (s - 1);
  }

  /** The page numbers that each range covers. */
  lemma AdmissibleCovers(kdata: word, q: nat)
    requires Admissible(kdata) && q < NPAGES
    ensures Covers(IoMap(), q) <==> 0x80000 <= q < 0x80100
    ensures Covers(TextMap(kdata), q) <==> 0x80100 <= q < kdata / 4096
    ensures Covers(DataMap(kdata), q) <==> kdata / 4096 <= q < 0x8E000
    ensures Covers(DeviceMap(), q) <==> 0xFE000 <= q
    ensures 0x80100 < kdata / 4096 < 0x8E000
  {
    Extents(kdata);
    AdmissibleExtents(kdata);
    hide FirstPage, PageCount, IoMap, TextMap, DataMap, DeviceMap;
  }

  lemma LookupPrefixes(a: Kmap, b: Kmap, c: Kmap, d: Kmap, q: nat)
    requires q < NPAGES
    ensures KmapLookup([], q) == None
    ensures KmapLookup([a], q) == (if Covers(a, q) then Some(KmapEntry(a, q)) else None)
    ensures KmapLookup([a, b], q) == (if Covers(b, q) then Some(KmapEntry(b, q)) else KmapLookup([a], q))
    ensures KmapLookup([a, b, c], q) == (if Covers(c, q) then Some(KmapEntry(c, q)) else KmapLookup([a, b], q))
    ensures KmapLookup([a, b, c, d], q) == (if Covers(d, q) then Some(KmapEntry(d, q)) else KmapLookup([a, b, c], q))
  {
    KmapLookupSnoc([], a, q);
    KmapLookupSnoc([a], b, q);
    KmapLookupSnoc([a, b], c, q);
    KmapLookupSnoc([a, b, c], d, q);
    assert KmapLookup([], q) == None;
    hide *;
    assert [] + [a] == [a] && [a] + [b] == [a, b];
    assert [a, b] + [c] == [a, b, c];
    assert [a, b, c] + [d] == [a, b, c, d];
  }

  lemma AllApartUnfold(a: Kmap, b: Kmap, c: Kmap, d: Kmap)
    ensures AllApart([], [a, b, c, d]) <==> Apart([], a) && Apart([a], b) && Apart([a, b], c) && Apart([a, b, c], d)
  {
    hide Apart;
    assert [a, b, c, d][1..] == [b, c, d] && [b, c, d][1..] == [c, d] && [c, d][1..] == [d] && [d][1..] == [];
    assert [] + [a] == [a] && [a] + [b] == [a, b];
    assert [a, b] + [c] == [a, b, c];
    assert AllApart([a, b, c], [d]) <==> Apart([a, b, c], d);
    assert AllApart([a, b], [c, d]) <==> Apart([a, b], c) && AllApart([a, b, c], [d]);
    assert AllApart([a], [b, c, d]) <==> Apart([a], b) && AllApart([a, b], [c, d]);
  }

  /** The table's ranges do not overlap exactly when the kernel's data starts at
      a page boundary strictly inside RAM above the link address. */
  lemma KmapsApartIff(kdata: word)
    ensures AllApart([], Kmaps(kdata)) <==> Admissible(kdata)
  {
    hide IoMap, TextMap, DataMap, DeviceMap, Admissible, Covers, AllApart;
    var a, b, c, d := IoMap(), TextMap(kdata), DataMap(kdata), DeviceMap();
    AllApartUnfold(a, b, c, d);
    if Admissible(kdata) {
      forall q | 0 <= q < NPAGES
        ensures KmapLookup([], q) == None
        ensures Covers(b, q) ==> KmapLookup([a], q) == None
        ensures Covers(c, q) ==> KmapLookup([a, b], q) == None
        ensures Covers(d, q) ==> KmapLookup([a, b, c], q) == None
      {
        AdmissibleCovers(kdata, q);
        LookupPrefixes(a, b, c, d, q);
      }
    } else if Apart([a], b) && Apart([a, b], c) {
      OverlapContradiction(kdata);
    }
  }

  lemma OverlapContradiction(kdata: word)
    requires Apart([IoMap()], TextMap(kdata))
    requires Apart([IoMap(), TextMap(kdata)], DataMap(kdata))
    ensures Admissible(kdata)
  {
    var s := kdata / 4096;
    OverlapAt(kdata, 0x80000);
    OverlapAt(kdata, 0x800FF);
    OverlapAt(kdata, s);
    Extents(kdata);
    hide Apart, FirstPage, PageCount, IoMap, TextMap, DataMap, Admissible, PagesAfter;
    PagesAfterOff(PgRoundDown(kdata), 0x8DFFF000);
    PagesAfterOff(KERNLINK, PgRoundDown(Wrap(kdata - 1)));
    OverlapPages(kdata);
  }

  lemma OverlapPages(kdata: word)
    requires
      var s, t := kdata / 4096, Wrap(kdata - 1) / 4096;
      && Off(s, 0x80000) > Off(s, 0x8DFFF) && Off(s, 0x800FF) > Off(s, 0x8DFFF)
      && Off(0x80100, s) > Off(0x80100, t) && Off(0x80100, 0x80000) > Off(0x80100, t)
    ensures Admissible(kdata)
  {
    var s := kdata / 4096;
    assert 0x80100 <= s < 0x8E000;
    PageBefore(kdata);
    hide Wrap;
    assert kdata % 4096 == 0 && s > 0x80100;
    assert kdata == 4096 * s;
  }

  lemma PagesAfterOff(start: word, last: word)
    requires start % 4096 == 0 && last % 4096 == 0
    ensures PagesAfter(start, last) == Off(start / 4096, last / 4096)
  {
    var a, b := start / 4096, last / 4096;
    assert start == 4096 * a && last == 4096 * b;
  }

  /** The byte before an address lies on the same page, except at a page start. */
  lemma PageBefore(a: word)
    requires a > 0
    ensures Wrap(a - 1) / 4096 == if a % 4096 == 0 then a / 4096 - 1 else a / 4096
  {
  }

  lemma OverlapAt(kdata: word, q: nat)
    requires q < NPAGES
    requires Apart([IoMap()], TextMap(kdata))
    requires Apart([IoMap(), TextMap(kdata)], DataMap(kdata))
    ensures Covers(IoMap(), q) ==> !Covers(TextMap(kdata), q)
    ensures Covers(IoMap(), q) || Covers(TextMap(kdata), q) ==> !Covers(DataMap(kdata), q)
  {
    hide Covers, IoMap, TextMap, DataMap, KmapEntry, KmapLookup;
    LookupPrefixes(IoMap(), TextMap(kdata), DataMap(kdata), DeviceMap(), q);
  }

  lemma KernelLookup(kdata: word, q: nat)
    requires Admissible(kdata) && q < NPAGES
    ensures KmapLookup(Kmaps(kdata), q) == KernelMap(kdata, q)
  {
    AdmissibleCovers(kdata, q);
    KernelEntries(kdata, q);
    LookupPrefixes(IoMap(), TextMap(kdata), DataMap(kdata), DeviceMap(), q);
    hide Covers, IoMap, TextMap, DataMap, DeviceMap, MakePte, KmapLookup, KmapEntry;
  }

  lemma KernelEntries(kdata: word, q: nat)
    requires Admissible(kdata) && q < NPAGES
    ensures 0x80000 <= q < 0x8E000 ==> KmapEntry(IoMap(), q) == MakePte(4096 * (q - 0x80000), PTE_W)
    ensures 0x80100 <= q < 0x8E000 ==> KmapEntry(TextMap(kdata), q) == MakePte(4096 * (q - 0x80000), 0)
    ensures kdata / 4096 <= q < 0x8E000 ==> KmapEntry(DataMap(kdata), q) == MakePte(4096 * (q - 0x80000), PTE_W)
    ensures 0xFE000 <= q ==> KmapEntry(DeviceMap(), q) == MakePte(4096 * q, PTE_W)
  {
    EntryAddrs(kdata, q);
    hide EntryAddr, MakePte;
  }

  lemma EntryAddrs(kdata: word, q: nat)
    requires Admissible(kdata) && q < NPAGES
    ensures 0x80000 <= q < 0x8E000 ==> EntryAddr(IoMap(), q) == 4096 * (q - 0x80000)
    ensures 0x80100 <= q < 0x8E000 ==> EntryAddr(TextMap(kdata), q) == 4096 * (q - 0x80000)
    ensures kdata / 4096 <= q < 0x8E000 ==> EntryAddr(DataMap(kdata), q) == 4096 * (q - 0x80000)
    ensures 0xFE000 <= q ==> EntryAddr(DeviceMap(), q) == 4096 * q
  {
    PhysStarts(kdata);
    Extents(kdata);
    AdmissibleExtents(kdata);
    hide *;
    if 0x80000 <= q < 0x8E000 {
      EntryAt(IoMap(), 0x80000, q);
    }
    if 0x80100 <= q < 0x8E000 {
      EntryAt(TextMap(kdata), 0x80100, q);
    }
    if kdata / 4096 <= q < 0x8E000 {
      EntryAt(DataMap(kdata), kdata / 4096, q);
    }
    if 0xFE000 <= q {
      EntryAt(DeviceMap(), 0xFE000, q);
    }
  }

  lemma PhysStarts(kdata: word)
    requires Admissible(kdata)
    ensures IoMap().physStart == 0 && TextMap(kdata).physStart == 0x100000 && DeviceMap().physStart == 4096 * 0xFE000
    ensures DataMap(kdata).physStart == 4096 * (kdata / 4096 - 0x80000)
    ensures NPAGES == 0x100000
  {
    hide FirstPage, PageCount, LastByte;
  }

  lemma EntryAt(k: Kmap, sp: nat, q: nat)
    requires FirstPage(k) == sp && sp <= q < NPAGES && k.physStart + 4096 * (q - sp) < 0x1_0000_0000
    ensures EntryAddr(k, q) == k.physStart + 4096 * (q - sp)
  {
    hide FirstPage;
    OffForward(sp, q);
    WrapSmall(k.physStart + 4096 * (q - sp));
  }

  lemma OffForward(sp: nat, q: nat)
    requires sp <= q < NPAGES
    ensures Off(sp, q) == q - sp
  {
  }

  lemma WrapSmall(x: int)
    requires 0 <= x < WORD_LIMIT
    ensures Wrap(x) == x
  {
  }

  lemma {:induction false} IntervalCard(lo: nat, hi: nat, s: set<nat>)
    requires lo <= hi && forall x :: x in s <==> lo <= x < hi
    ensures |s| == hi - lo
    decreases hi
  {
    if lo < hi {
      assert hi - 1 in s;
      IntervalCard(lo, hi - 1, s - {hi - 1});
    } else {
      assert s == {};
    }
  }

  /** The kernel needs 56 tables for RAM and 8 for the devices. */
  lemma KernelSlots(kdata: word)
    requires Admissible(kdata)
    ensures forall s :: s in KmapSlots(Kmaps(kdata)) <==> 512 <= s < 568 || 1016 <= s < 1024
    ensures |KmapSlots(Kmaps(kdata))| == 64
  {
    var all := KmapSlots(Kmaps(kdata));
    FourSlots(IoMap(), TextMap(kdata), DataMap(kdata), DeviceMap());
    forall s: nat ensures s in all <==> 512 <= s < 568 || 1016 <= s < 1024 {
      KernelSlot(kdata, s);
    }
    hide *;
    KernelSlotCount(all);
  }

  lemma KernelSlotCount(all: set<nat>)
    requires forall s :: s in all <==> 512 <= s < 568 || 1016 <= s < 1024
    ensures |all| == 64
  {
    var ram, dev := set s | s in all && s < 568, set s | s in all && s >= 1016;
    IntervalCard(512, 568, ram);
    IntervalCard(1016, 1024, dev);
    assert all == ram + dev && ram !! dev;
  }

  lemma KernelSlot(kdata: word, s: nat)
    requires Admissible(kdata)
    ensures s in SlotsOf(IoMap()) + SlotsOf(TextMap(kdata)) + SlotsOf(DataMap(kdata)) + SlotsOf(DeviceMap())
      <==> 512 <= s < 568 || 1016 <= s < 1024
  {
    Extents(kdata);
    AdmissibleExtents(kdata);
    hide FirstPage, PageCount, DirSlots, IoMap, TextMap, DataMap, DeviceMap;
    SlotsRange(FirstPage(IoMap()), PageCount(IoMap()), s);
    SlotsRange(FirstPage(TextMap(kdata)), PageCount(TextMap(kdata)), s);
    SlotsRange(FirstPage(DataMap(kdata)), PageCount(DataMap(kdata)), s);
    SlotsRange(FirstPage(DeviceMap()), PageCount(DeviceMap()), s);
  }

  lemma FourSlots(a: Kmap, b: Kmap, c: Kmap, d: Kmap)
    ensures KmapSlots([]) == {}
    ensures KmapSlots([a, b, c, d]) == SlotsOf(a) + SlotsOf(b) + SlotsOf(c) + SlotsOf(d)
  {
    assert KmapSlots([]) == {};
    hide KmapSlots, SlotsOf;
    KmapSlotsAppend([], a);
    KmapSlotsAppend([a], b);
    KmapSlotsAppend([a, b], c);
    KmapSlotsAppend([a, b, c], d);
    assert [] + [a] == [a] && [a] + [b] == [a, b];
    assert [a, b] + [c] == [a, b, c];
    assert [a, b, c] + [d] == [a, b, c, d];
  }

  /* ---- setup_kvm ---- */

  /** A freshly zeroed page is a directory that maps nothing. */
  lemma FreshDirectory(m: Mem, fs: seq<nat>)
    requires FreeList(m, fs) && fs != []
    ensures fs[0] < NFRAMES && Alloc(m).0 == PageAddr(fs[0])
    ensures
      var m2 := ZeroPage(Alloc(m).1, PageAddr(fs[0]));
      && Holds(m2, fs[1..], fs[0], [])
      && m2.ram == m.ram[fs[0] := ZeroFrame()]
  {
    var d := fs[0];
    AllocPops(m, fs);
    PageAddrInverse(d);
    ChainBounds(m.ram, m.freelist, fs);
    var m1 := Alloc(m).1;
    var m2 := ZeroPage(m1, PageAddr(d));
    assert m2.ram == m.ram[d := ZeroFrame()];
    ChainFrame(m1.ram, m2.ram, m1.freelist, fs[1..]);
    assert forall f :: f in fs[1..] ==> f in fs;
    assert forall i :: 0 <= i < 1024 ==> !Present(m2.ram[d][i]);
    assert PresentSet(m2, d) == {};
  }

  /** The directory d translates exactly the kernel's address space. */
  ghost predicate KernelDirectory(m: Mem, fs: seq<nat>, d: nat, kdata: word) {
    && Dir(m, fs, d)
    && (forall q :: 0 <= q < NPAGES ==> Lookup(m, d, q) == KernelMap(kdata, q))
    && (forall s :: s in PresentSet(m, d) <==> 512 <= s < 568 || 1016 <= s < 1024)
  }

  /** setup_kvm on any memory and any start of the kernel's data: it runs out of
      memory silently only on an empty free list; it returns a directory exactly
      when the data start is admissible and 65 frames are free; otherwise it
      panics. The directory is the first free frame, its 64 tables are the next
      64, it translates exactly the kernel's address space, and no other frame is
      touched. */
  lemma SetupKvmCorrect(m: Mem, fs: seq<nat>, kdata: word)
    requires FreeList(m, fs)
    ensures SetupKvm(m, kdata).0 == NoMemory <==> fs == []
    ensures fs == [] ==> SetupKvm(m, kdata).1 == m
    ensures SetupKvm(m, kdata).0.Ready? <==> Admissible(kdata) && |fs| >= 65
    ensures SetupKvm(m, kdata).0.Ready? ==>
      && fs[0] < NFRAMES && SetupKvm(m, kdata).0.pgdir == PageAddr(fs[0])
      && KernelDirectory(SetupKvm(m, kdata).1, fs[65..], fs[0], kdata)
      && (forall f :: 0 <= f < NFRAMES && f !in fs[..65] ==> SetupKvm(m, kdata).1.ram[f] == m.ram[f])
      && (forall f :: 0 <= f < NFRAMES && IsTable(SetupKvm(m, kdata).1, fs[0], f) ==> f in fs[..65])
  {
    hide *;
    ListedMemory(m, fs);
    SetupKvmIs(m, kdata);
    AllocPops(m, fs);
    if fs != [] {
      FreshDirectory(m, fs);
      var d := fs[0];
      var m2 := ZeroPage(Alloc(m).1, PageAddr(d));
      KmapsApartIff(kdata);
      var fs' := SetupLoopCorrect(m2, fs[1..], d, [], Kmaps(kdata));
      var (ok, m') := SetupLoop(m2, PageAddr(d), Kmaps(kdata));
      assert [] + Kmaps(kdata) == Kmaps(kdata);
      NoKmaps(KmapSlots(Kmaps(kdata)));
      if Admissible(kdata) {
        KernelSlots(kdata);
      }
      if ok {
        SetupDone(m, m2, m', fs, fs', d, kdata);
      }
    }
  }

  lemma ListedMemory(m: Mem, fs: seq<nat>)
    requires FreeList(m, fs)
    ensures Shape(m) && Shape(Alloc(m).1)
    ensures fs != [] ==> fs[0] < NFRAMES && PageAddr(fs[0]) != 0 && Shape(ZeroPage(Alloc(m).1, PageAddr(fs[0])))
  {
    hide NoDup;
  }

  lemma SetupKvmIs(m: Mem, kdata: word)
    requires Shape(m)
    ensures
      var (pgdir, m1) := Alloc(m);
      SetupKvm(m, kdata) ==
        if pgdir == 0 then (NoMemory, m1)
        else
          var (ok, m2) := SetupLoop(ZeroPage(m1, pgdir), pgdir, Kmaps(kdata));
          (if ok then Ready(pgdir) else Panicked, m2)
  {
    hide SetupLoop, Kmaps;
  }

  lemma NoKmaps(slots: set<nat>)
    ensures KmapSlots([]) == {} && slots - KmapSlots([]) == slots
  {
  }

  lemma SetupDone(m: Mem, m2: Mem, m': Mem, fs: seq<nat>, fs': seq<nat>, d: nat, kdata: word)
    requires Admissible(kdata) && |fs| >= 65 && fs[0] == d && d < NFRAMES && Shape(m) && Shape(m2) && Shape(m')
    requires m2.ram == m.ram[d := ZeroFrame()] && Holds(m2, fs[1..], d, [])
    requires Holds(m', fs', d, Kmaps(kdata))
    requires Grown(m2, fs[1..], m', fs', d, KmapSlots(Kmaps(kdata)))
    ensures KernelDirectory(m', fs[65..], d, kdata)
    ensures forall f :: 0 <= f < NFRAMES && f !in fs[..65] ==> m'.ram[f] == m.ram[f]
    ensures forall f :: 0 <= f < NFRAMES && IsTable(m', d, f) ==> f in fs[..65]
  {
    SetupFrames(m2, m', fs, fs', d, kdata);
    SetupView(m', fs', d, kdata);
    assert forall f :: 0 <= f < NFRAMES && f !in fs[..65] ==> f != d by {
      assert fs[..65][0] == d;
    }
    hide KernelDirectory, Holds, Grown, ZeroFrame, IsTable;
  }

  lemma SetupView(m': Mem, fs': seq<nat>, d: nat, kdata: word)
    requires Admissible(kdata) && Holds(m', fs', d, Kmaps(kdata))
    ensures KernelDirectory(m', fs', d, kdata)
  {
    HoldsParts(m', fs', d, Kmaps(kdata));
    hide *;
    KernelSlots(kdata);
    forall q | 0 <= q < NPAGES ensures Lookup(m', d, q) == KernelMap(kdata, q) {
      KernelLookup(kdata, q);
    }
    KernelIntro(m', fs', d, kdata);
  }

  lemma HoldsParts(m: Mem, fs: seq<nat>, d: nat, ks: seq<Kmap>)
    requires Holds(m, fs, d, ks)
    ensures d < NFRAMES && Shape(m) && Dir(m, fs, d) && PresentSet(m, d) == KmapSlots(ks)
    ensures forall q :: 0 <= q < NPAGES ==> Lookup(m, d, q) == KmapLookup(ks, q)
  {
  }

  lemma KernelIntro(m: Mem, fs: seq<nat>, d: nat, kdata: word)
    requires Dir(m, fs, d) && d < NFRAMES && Shape(m)
    requires forall q :: 0 <= q < NPAGES ==> Lookup(m, d, q) == KernelMap(kdata, q)
    requires forall s :: s in PresentSet(m, d) <==> 512 <= s < 568 || 1016 <= s < 1024
    ensures KernelDirectory(m, fs, d, kdata)
  {
    hide Dir, Lookup, PresentSet, KernelMap;
  }

  /** Exactly the directory and its 64 tables were taken; even the frames still
      on the free list are untouched. */
  lemma SetupFrames(m2: Mem, m': Mem, fs: seq<nat>, fs': seq<nat>, d: nat, kdata: word)
    requires Admissible(kdata) && |fs| >= 65 && fs[0] == d && d < NFRAMES && Shape(m2) && Shape(m')
    requires Holds(m2, fs[1..], d, [])
    requires Grown(m2, fs[1..], m', fs', d, KmapSlots(Kmaps(kdata)))
    ensures fs' == fs[65..]
    ensures forall f :: 0 <= f < NFRAMES && f !in fs[..65] ==> m'.ram[f] == m2.ram[f]
    ensures forall f :: 0 <= f < NFRAMES && IsTable(m', d, f) ==> f in fs[..65]
  {
    hide *;
    HoldsNoTables(m2, fs[1..], d);
    KernelSlots(kdata);
    GrownCount(m2, fs[1..], m', fs', d, KmapSlots(Kmaps(kdata)));
    assert KmapSlots(Kmaps(kdata)) - {} == KmapSlots(Kmaps(kdata));
    GrownFrames(m2, m', fs, fs', d, KmapSlots(Kmaps(kdata)));
  }

  lemma GrownFrames(m: Mem, m': Mem, fs: seq<nat>, fs': seq<nat>, d: nat, slots: set<nat>)
    requires |fs| >= 65 && fs[0] == d && d < NFRAMES && Shape(m) && Shape(m')
    requires Grown(m, fs[1..], m', fs', d, slots) && |fs[1..]| - |fs'| == 64
    requires forall f :: 0 <= f < NFRAMES ==> !IsTable(m, d, f)
    ensures fs' == fs[65..]
    ensures forall f :: 0 <= f < NFRAMES && f !in fs[..65] ==> m'.ram[f] == m.ram[f]
    ensures forall f :: 0 <= f < NFRAMES && IsTable(m', d, f) ==> f in fs[..65]
  {
    hide PresentSet, IsTable;
    assert fs[..65] == [d] + Taken(fs[1..], fs');
    hide Taken;
    forall f | 0 <= f < NFRAMES && f !in fs[..65] ensures m'.ram[f] == m.ram[f] {
      assert f != d && f !in Taken(fs[1..], fs');
    }
  }

  lemma HoldsNoTables(m: Mem, fs: seq<nat>, d: nat)
    requires Holds(m, fs, d, [])
    ensures d < NFRAMES && Shape(m) && PresentSet(m, d) == {}
    ensures forall f :: 0 <= f < NFRAMES ==> !IsTable(m, d, f)
  {
    forall i | 0 <= i < 1024 ensures !Present(m.ram[d][i]) {
      assert i !in PresentSet(m, d);
    }
  }

  /* ---- the C function as it runs ---- */

  /** After a successful map_pages there is a directory again. */
  lemma MapKmapDir(m: Mem, fs: seq<nat>, d: nat, k: Kmap) returns (fs': seq<nat>)
    requires Dir(m, fs, d) && d < NFRAMES && Shape(m)
    ensures Dir(MapKmap(m, PageAddr(d), k).1, fs', d)
  {
    hide *;
    KmapBounds(m, PageAddr(d), k);
    var start, last := PgRoundDown(k.virt), PgRoundDown(LastByte(k));
    var n: nat;
    fs', n := MapLoopCorrect(m, fs, d, start, last, k.physStart, k.perm);
    ResultDir(MapLoop(m, PageAddr(d), start, last, k.physStart, k.perm), m, fs, fs', d, start, last, n, k.physStart,
        k.perm);
  }

  lemma ResultDir(r: (MapOutcome, Mem), m: Mem, fs: seq<nat>, fs': seq<nat>, d: nat, start: word, last: word, n: nat,
      pa: word, perm: word)
    requires MapResult(r, m, fs, fs', d, start, last, n, pa, perm)
    ensures Dir(r.1, fs', d)
  {
  }

  lemma SetupLoopUnfold(m: Mem, pgdir: word, ks: seq<Kmap>, i: nat)
    requires Shape(m) && i < |ks|
    ensures
      var r := MapKmap(m, pgdir, ks[i]);
      SetupLoop(m, pgdir, ks[i..]) == if r.0 != Mapped then (false, r.1) else SetupLoop(r.1, pgdir, ks[i + 1..])
  {
    assert ks[i..][0] == ks[i] && ks[i..][1..] == ks[i + 1..];
    hide MapKmap;
  }

  lemma SetupLoopEnd(m: Mem, pgdir: word)
    requires Shape(m)
    ensures SetupLoop(m, pgdir, []) == (true, m)
  {
  }

  /** The loop of setup_kvm; false where it panics. */
  method MapAll(mem: PhysicalMemory, pgdir: word, ks: seq<Kmap>, ghost fs: seq<nat>) returns (ok: bool)
    requires mem.Valid() && InRam(pgdir) && pgdir % 4096 == 0 && Dir(mem.Snap(), fs, FrameOf(pgdir))
    modifies mem`freelist, mem.ram
    ensures (ok, mem.Snap()) == SetupLoop(old(mem.Snap()), pgdir, ks)
  {
    hide Dir, SetupLoop, MapPages, MapKmap;
    ghost var m0 := mem.Snap();
    ghost var fs1 := fs;
    ghost var d := FrameOf(pgdir);
    PageOfFrame(pgdir);
    var i := 0;
    assert ks[0..] == ks;
    while i < |ks|
      invariant 0 <= i <= |ks| && Dir(mem.Snap(), fs1, d)
      invariant SetupLoop(mem.Snap(), pgdir, ks[i..]) == SetupLoop(m0, pgdir, ks)
    {
      var k := ks[i];
      ghost var m := mem.Snap();
      SetupLoopUnfold(m, pgdir, ks, i);
      DirShape(m, fs1, d);
      ghost var fs2 := MapKmapDir(m, fs1, d, k);
      MapKmapIs(m, pgdir, k);
      var o := MapRange(mem, pgdir, k.virt, Wrap(k.physEnd - k.physStart), k.physStart, k.perm, fs1);
      if o != Mapped {
        return false;
      }
      fs1 := fs2;
      i := i + 1;
    }
    assert ks[i..] == [];
    SetupLoopEnd(mem.Snap(), pgdir);
    ok := true;
  }

  lemma PageOfFrame(a: word)
    requires InRam(a) && a % 4096 == 0
    ensures FrameOf(a) < NFRAMES && PageAddr(FrameOf(a)) == a
  {
  }

  lemma DirShape(m: Mem, fs: seq<nat>, d: nat)
    requires Dir(m, fs, d)
    ensures Shape(m) && d < NFRAMES
  {
  }

  lemma MapKmapIs(m: Mem, pgdir: word, k: Kmap)
    requires Shape(m)
    ensures MapKmap(m, pgdir, k) == MapPages(m, pgdir, k.virt, Wrap(k.physEnd - k.physStart), k.physStart, k.perm)
  {
    hide MapPages;
  }

  /** setup_kvm: allocate and clear the directory, then map every entry of k_maps. */
  method SetupKernel(mem: PhysicalMemory, kdata: word, ghost fs: seq<nat>) returns (r: SetupResult)
    requires mem.Valid() && FreeList(mem.Snap(), fs)
    modifies mem`freelist, mem.ram
    ensures (r, mem.Snap()) == SetupKvm(old(mem.Snap()), kdata)
  {
    hide SetupLoop, Kmaps, Chain, NoDup, Lookup, KmapLookup, KmapSlots;
    ghost var m0 := mem.Snap();
    AllocPops(m0, fs);
    var pgdir := mem.Kalloc();
    if pgdir == 0 {
      return NoMemory;
    }
    FreshDirectory(m0, fs);
    PageAddrInverse(fs[0]);
    ghost var m1 := mem.Snap();
    mem.ram[FrameOf(pgdir)] := ZeroFrame();
    assert mem.Snap() == ZeroPage(m1, pgdir);
    var ok := MapAll(mem, pgdir, Kmaps(kdata), fs[1..]);
    return if ok then Ready(pgdir) else Panicked;
  }
}
