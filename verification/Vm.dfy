/** Two-level page tables (kernel/mm/vm.c). */
module Vm {
  import opened Options
  import opened Bits
  import opened Mmu
  import opened PageAllocator

  /* ---- what the C functions compute ---- */

  function ZeroPage(m: Mem, pg: word): Mem
    requires Shape(m)
  {
    if InRam(pg) then Mem(m.ram[FrameOf(pg) := ZeroFrame()], m.freelist) else m
  }

  /** walk_pgdir: the address of the page-table entry for va, or null. */
  function Walk(m: Mem, pgdir: word, va: word, alloc: bool): (r: (word, Mem))
    requires Shape(m)
    ensures Shape(r.1)
  {
    var pde := Load(m, Wrap(pgdir + 4 * Pdx(va)));
    if Present(pde) then (Wrap(P2V(PteAddr(pde)) + 4 * Ptx(va)), m)
    else if !alloc then (0, m)
    else WalkNew(m, pgdir, va)
  }

  /** The branch of walk_pgdir that adds a page table. */
  function WalkNew(m: Mem, pgdir: word, va: word): (r: (word, Mem))
    requires Shape(m)
    ensures Shape(r.1)
  {
    var (pgtab, m1) := Alloc(m);
    if pgtab == 0 then (0, m1)
    else
      var m2 := ZeroPage(m1, pgtab);
      (Wrap(pgtab + 4 * Ptx(va)), Store(m2, Wrap(pgdir + 4 * Pdx(va)), MakePde(V2P(pgtab))))
  }

  datatype MapOutcome = Mapped | OutOfFrames | Remapped

  /** The number of further pages after `start` until `last`, going up with
      wrap-around. */
  function PagesAfter(start: word, last: word): (n: nat)
    ensures n < NPAGES
  {
    if start <= last then (last - start) / 4096 else (WORD_LIMIT + last - start) / 4096
  }

  lemma PagesAfterStep(start: word, last: word)
    requires start % 4096 == 0 && last % 4096 == 0 && start != last
    ensures Wrap(start + 4096) % 4096 == 0
    ensures PagesAfter(Wrap(start + 4096), last) == PagesAfter(start, last) - 1
  {
    var a, b := start / 4096, last / 4096;
    assert start == 4096 * a && last == 4096 * b;
    if a + 1 == NPAGES {
      assert Wrap(start + 4096) == 0;
    } else {
      assert Wrap(start + 4096) == 4096 * (a + 1);
    }
  }

  /** The loop of map_pages from page `start` on. */
  function MapLoop(m: Mem, pgdir: word, start: word, last: word, pa: word, perm: word): (r: (MapOutcome, Mem))
    requires Shape(m) && start % 4096 == 0 && last % 4096 == 0
    ensures Shape(r.1)
    decreases PagesAfter(start, last)
  {
    var (pte, m1) := Walk(m, pgdir, start, true);
    if pte == 0 then (OutOfFrames, m1)
    else if Present(Load(m1, pte)) then (Remapped, m1)
    else
      var m2 := Store(m1, pte, MakePte(pa, perm));
      if start == last then (Mapped, m2)
      else
        PagesAfterStep(start, last);
        MapLoop(m2, pgdir, Wrap(start + 4096), last, Wrap(pa + 4096), perm)
  }

  function MapPages(m: Mem, pgdir: word, va: word, size: word, pa: word, perm: word): (r: (MapOutcome, Mem))
    requires Shape(m)
    ensures Shape(r.1)
  {
    MapLoop(m, pgdir, PgRoundDown(va), PgRoundDown(Wrap(va + size - 1)), pa, perm)
  }

  /* ---- the flat view of a directory ---- */

  function TableFrame(e: word): nat {
    e / 4096
  }

  /** The entry that the two-level walk finds for page number pn. */
  function Lookup(m: Mem, d: nat, pn: nat): Option<word>
    requires Shape(m) && d < NFRAMES && pn < NPAGES
  {
    var pde := m.ram[d][pn / 1024];
    if !Present(pde) || TableFrame(pde) >= NFRAMES then None
    else
      var pte := m.ram[TableFrame(pde)][pn % 1024];
      if Present(pte) then Some(pte) else None
  }

  /** Frame d is a page directory whose tables lie in RAM, apart from the
      directory, from each other and from every free page. */
  ghost predicate Dir(m: Mem, fs: seq<nat>, d: nat) {
    && FreeList(m, fs)
    && (forall f :: f in fs ==> f < NFRAMES)
    && d < NFRAMES && d !in fs
    && (forall i :: 0 <= i < 1024 && Present(m.ram[d][i]) ==> GoodPde(m.ram[d][i], fs, d))
    && (forall i, j :: 0 <= i < j < 1024 && Present(m.ram[d][i]) && Present(m.ram[d][j]) ==>
          TableFrame(m.ram[d][i]) != TableFrame(m.ram[d][j]))
  }

  predicate GoodPde(e: word, fs: seq<nat>, d: nat) {
    e % 4096 == 7 && TableFrame(e) < NFRAMES && TableFrame(e) !in fs && TableFrame(e) != d
  }

  ghost predicate IsTable(m: Mem, d: nat, f: nat)
    requires Shape(m) && d < NFRAMES
  {
    exists i :: 0 <= i < 1024 && Present(m.ram[d][i]) && TableFrame(m.ram[d][i]) == f
  }

  /** The directory slots in use. */
  ghost function PresentSet(m: Mem, d: nat): set<nat>
    requires Shape(m) && d < NFRAMES
  {
    set i | 0 <= i < 1024 && Present(m.ram[d][i])
  }

  /** Frames other than the directory, its tables and the frames just taken are
      as before. */
  ghost predicate OthersSame(m: Mem, m': Mem, taken: seq<nat>, d: nat)
    requires Shape(m) && Shape(m') && d < NFRAMES
  {
    forall f :: 0 <= f < NFRAMES && f != d && f !in taken && !IsTable(m, d, f) ==> m'.ram[f] == m.ram[f]
  }

  /* ---- one step ---- */

  function SlotAddr(t: nat, j: nat): word
    requires t < NFRAMES && j < 1024
  {
    PageAddr(t) + 4 * j
  }

  lemma SlotAddress(m: Mem, t: nat, j: nat)
    requires Shape(m) && t < NFRAMES && j < 1024
    ensures InRam(SlotAddr(t, j)) && FrameOf(SlotAddr(t, j)) == t && SlotAddr(t, j) % 4096 / 4 == j
    ensures Load(m, SlotAddr(t, j)) == m.ram[t][j]
  {
  }

  /** Where the C code finds the entry for va in an existing table. */
  lemma TableSlot(e: word, j: nat)
    requires TableFrame(e) < NFRAMES && j < 1024
    ensures Wrap(P2V(PteAddr(e)) + 4 * j) == SlotAddr(TableFrame(e), j)
  {
  }

  /** walk_pgdir with alloc != 0: the entry's table exists afterwards unless
      memory ran out, and no translation changes. */
  lemma WalkStep(m: Mem, fs: seq<nat>, d: nat, va: word)
    requires Dir(m, fs, d)
    ensures
      var (pte, m1) := Walk(m, PageAddr(d), va, true);
      var i, j := Pdx(va), Ptx(va);
      if Present(m.ram[d][i]) then
        pte == SlotAddr(TableFrame(m.ram[d][i]), j) && m1 == m
      else if fs == [] then
        pte == 0 && m1 == m
      else
        && pte == SlotAddr(fs[0], j)
        && m1.ram == m.ram[fs[0] := ZeroFrame()][d := m.ram[d][i := 4096 * fs[0] + 7]]
        && FreeList(m1, fs[1..])
  {
    var i, j := Pdx(va), Ptx(va);
    SlotAddress(m, d, i);
    assert Wrap(PageAddr(d) + 4 * i) == SlotAddr(d, i);
    if Present(m.ram[d][i]) {
      TableSlot(m.ram[d][i], j);
    } else {
      AllocPops(m, fs);
      if fs != [] {
        assert fs[0] in fs;
        WalkAdds(m, fs, d, i);
        PageAddrInverse(fs[0]);
        hide Alloc, Store, ZeroPage, Dir, FreeList, Load, MakePde;
      }
    }
  }

  /** walk_pgdir with alloc == 0 only looks: memory stays as it is, the result is null
      exactly when the page has no table, and otherwise the word at the result is the
      page's entry. */
  lemma WalkLooks(m: Mem, fs: seq<nat>, d: nat, va: word)
    requires Dir(m, fs, d)
    ensures
      var (pte, m1) := Walk(m, PageAddr(d), va, false);
      && m1 == m
      && (pte == 0 <==> !Present(m.ram[d][va / 4096 / 1024]))
      && Lookup(m, d, va / 4096) == if pte != 0 && Present(Load(m, pte)) then Some(Load(m, pte)) else None
  {
    var i, j := Pdx(va), Ptx(va);
    IndexPair(va);
    SlotAddress(m, d, i);
    assert Wrap(PageAddr(d) + 4 * i) == SlotAddr(d, i);
    if Present(m.ram[d][i]) {
      assert GoodPde(m.ram[d][i], fs, d);
      TableSlot(m.ram[d][i], j);
      SlotAddress(m, TableFrame(m.ram[d][i]), j);
    }
    hide Dir, FreeList, Load, Pdx, Ptx;
  }

  lemma WalkAdds(m: Mem, fs: seq<nat>, d: nat, i: nat)
    requires Dir(m, fs, d) && fs != [] && fs[0] in fs && i < 1024
    ensures
      var t := fs[0];
      var m1 := Alloc(m).1;
      var m3 := Store(ZeroPage(m1, PageAddr(t)), SlotAddr(d, i), MakePde(4096 * t));
      && m3.ram == m.ram[t := ZeroFrame()][d := m.ram[d][i := 4096 * t + 7]]
      && FreeList(m3, fs[1..])
  {
    var t := fs[0];
    AllocPops(m, fs);
    PageAddrInverse(t);
    var m1 := Alloc(m).1;
    var m2 := ZeroPage(m1, PageAddr(t));
    SlotAddress(m2, d, i);
    var m3 := Store(m2, SlotAddr(d, i), 4096 * t + 7);
    assert m3.ram == m.ram[t := ZeroFrame()][d := m.ram[d][i := 4096 * t + 7]];
    assert forall f :: f in fs[1..] ==> f in fs;
    ChainFrame(m1.ram, m3.ram, m1.freelist, fs[1..]);
  }

  /** Adding an empty table keeps the directory well formed and translates
      nothing new. */
  lemma NewTable(m: Mem, m1: Mem, fs: seq<nat>, d: nat, i: nat)
    requires Dir(m, fs, d) && fs != [] && i < 1024 && !Present(m.ram[d][i])
    requires FreeList(m1, fs[1..])
    requires fs[0] in fs && m1.ram == m.ram[fs[0] := ZeroFrame()][d := m.ram[d][i := 4096 * fs[0] + 7]]
    ensures Dir(m1, fs[1..], d)
    ensures PresentSet(m1, d) == PresentSet(m, d) + {i}
    ensures forall q :: 0 <= q < NPAGES ==> Lookup(m1, d, q) == Lookup(m, d, q)
    ensures OthersSame(m, m1, [fs[0]], d)
    ensures forall f :: 0 <= f < NFRAMES && IsTable(m1, d, f) ==> IsTable(m, d, f) || f == fs[0]
  {
    hide *;
    NewTableFacts(m, m1, fs, d, i);
    NewTableDir(m, m1, fs, d, i);
    forall q | 0 <= q < NPAGES ensures Lookup(m1, d, q) == Lookup(m, d, q) {
      NewTableLookup(m, m1, fs[0], d, i, q);
    }
    NewTableSets(m, m1, fs[0], d, i);
  }

  /** Frame t has become the empty table of slot i, which was free; nothing else has changed. */
  ghost predicate TableAdded(m: Mem, m1: Mem, t: nat, d: nat, i: nat) {
    && Shape(m) && Shape(m1) && d < NFRAMES && t < NFRAMES && t != d && i < 1024
    && !Present(m.ram[d][i]) && Present(m1.ram[d][i]) && TableFrame(m1.ram[d][i]) == t && m1.ram[t] == ZeroFrame()
    && (forall k :: 0 <= k < 1024 && k != i ==> m1.ram[d][k] == m.ram[d][k])
    && (forall f :: 0 <= f < NFRAMES && f != d && f != t ==> m1.ram[f] == m.ram[f])
    && (forall k :: 0 <= k < 1024 && Present(m.ram[d][k]) ==>
          TableFrame(m.ram[d][k]) != t && TableFrame(m.ram[d][k]) != d)
  }

  lemma NewTableFacts(m: Mem, m1: Mem, fs: seq<nat>, d: nat, i: nat)
    requires Dir(m, fs, d) && fs != [] && i < 1024 && !Present(m.ram[d][i]) && FreeList(m1, fs[1..])
    requires fs[0] in fs && m1.ram == m.ram[fs[0] := ZeroFrame()][d := m.ram[d][i := 4096 * fs[0] + 7]]
    ensures TableAdded(m, m1, fs[0], d, i) && Shape(m) && Shape(m1) && d < NFRAMES && m1.ram[d][i] == 4096 * fs[0] + 7
  {
    DirTables(m, fs, d);
    hide Dir, FreeList, ZeroFrame, Present, TableFrame;
    var e := 4096 * fs[0] + 7;
    NewEntry(fs[0]);
    assert m1.ram[d] == m.ram[d][i := e];
  }

  lemma NewEntry(t: nat)
    requires t < NFRAMES
    ensures Present(4096 * t + 7) && TableFrame(4096 * t + 7) == t
  {
  }

  lemma DirTables(m: Mem, fs: seq<nat>, d: nat)
    requires Dir(m, fs, d)
    ensures Shape(m) && d < NFRAMES && d !in fs && forall f :: f in fs ==> f < NFRAMES
    ensures forall k, f :: 0 <= k < 1024 && Present(m.ram[d][k]) && f in fs ==> TableFrame(m.ram[d][k]) != f
    ensures forall k :: 0 <= k < 1024 && Present(m.ram[d][k]) ==> TableFrame(m.ram[d][k]) != d
  {
    forall k | 0 <= k < 1024 && Present(m.ram[d][k]) ensures GoodPde(m.ram[d][k], fs, d) {
    }
    hide Chain, NoDup;
  }

  lemma NewTableDir(m: Mem, m1: Mem, fs: seq<nat>, d: nat, i: nat)
    requires Dir(m, fs, d) && fs != [] && FreeList(m1, fs[1..]) && TableAdded(m, m1, fs[0], d, i)
    requires m1.ram[d][i] == 4096 * fs[0] + 7
    ensures Dir(m1, fs[1..], d)
  {
    assert forall f :: f in fs[1..] ==> f in fs;
    assert fs[0] in fs && fs[0] !in fs[1..];
    hide FreeList;
    forall k | 0 <= k < 1024 && Present(m1.ram[d][k]) ensures GoodPde(m1.ram[d][k], fs[1..], d) {
      assert k != i ==> GoodPde(m.ram[d][k], fs, d);
    }
  }

  lemma NewTableLookup(m: Mem, m1: Mem, t: nat, d: nat, i: nat, q: nat)
    requires TableAdded(m, m1, t, d, i) && q < NPAGES
    ensures Lookup(m1, d, q) == Lookup(m, d, q)
  {
    hide TableFrame;
    if q / 1024 == i {
      assert m1.ram[t][q % 1024] == 0;
    }
  }

  lemma NewTableSets(m: Mem, m1: Mem, t: nat, d: nat, i: nat)
    requires TableAdded(m, m1, t, d, i)
    ensures PresentSet(m1, d) == PresentSet(m, d) + {i}
    ensures OthersSame(m, m1, [t], d)
    ensures forall f :: 0 <= f < NFRAMES && IsTable(m1, d, f) ==> IsTable(m, d, f) || f == t
  {
    hide TableFrame, ZeroFrame, Present;
  }

  /** Writing one page-table entry changes exactly one translation. */
  lemma SetEntry(m: Mem, fs: seq<nat>, d: nat, pn: nat, e: word)
    requires Dir(m, fs, d) && pn < NPAGES && Present(m.ram[d][pn / 1024]) && Present(e)
    ensures
      var t := TableFrame(m.ram[d][pn / 1024]);
      t < NFRAMES &&
      var m' := Store(m, SlotAddr(t, pn % 1024), e);
      && Dir(m', fs, d)
      && PresentSet(m', d) == PresentSet(m, d)
      && (forall q :: 0 <= q < NPAGES ==> Lookup(m', d, q) == if q == pn then Some(e) else Lookup(m, d, q))
      && OthersSame(m, m', [], d)
      && (forall f :: 0 <= f < NFRAMES ==> (IsTable(m', d, f) <==> IsTable(m, d, f)))
  {
    var i, j := pn / 1024, pn % 1024;
    var t := TableFrame(m.ram[d][i]);
    assert GoodPde(m.ram[d][i], fs, d);
    SlotAddress(m, t, j);
    var m' := Store(m, SlotAddr(t, j), e);
    assert m'.ram == m.ram[t := m.ram[t][j := e]];
    ChainFrame(m.ram, m'.ram, m.freelist, fs);
    assert m'.ram[d] == m.ram[d];
    assert IsTable(m, d, t);
    forall q | 0 <= q < NPAGES ensures Lookup(m', d, q) == if q == pn then Some(e) else Lookup(m, d, q) {
      if q / 1024 != i && Present(m.ram[d][q / 1024]) {
        assert TableFrame(m.ram[d][q / 1024]) != t;
      } else if q / 1024 == i && q != pn {
        assert q % 1024 != j;
      }
    }
  }

  /* ---- map_pages ---- */

  /** How far page q lies after page sp, with wrap-around. */
  function Off(sp: nat, q: nat): (n: nat)
    requires sp < NPAGES && q < NPAGES
    ensures n < NPAGES
  {
    if q >= sp then q - sp else q - sp + NPAGES
  }

  function PageAt(sp: nat, k: nat): nat {
    (sp + k) % NPAGES
  }

  /** The directory slots that k pages from sp on fall into. */
  ghost function DirSlots(sp: nat, k: nat): set<nat>
    requires sp < NPAGES
    decreases k
  {
    if k == 0 then {} else {sp / 1024} + DirSlots(PageAt(sp, 1), k - 1)
  }

  /** Exactly the k pages from sp on, all unmapped before, have become mapped, to
      consecutive frames from pa on. */
  ghost predicate MapView(m: Mem, m': Mem, d: nat, sp: nat, k: nat, pa: word, perm: word)
    requires sp < NPAGES && d < NFRAMES && Shape(m) && Shape(m')
  {
    && (forall q :: 0 <= q < NPAGES ==>
          Lookup(m', d, q) == if Off(sp, q) < k then Some(MakePte(Wrap(pa + 4096 * Off(sp, q)), perm))
              else Lookup(m, d, q))
    && (forall q :: 0 <= q < NPAGES && Off(sp, q) < k ==> Lookup(m, d, q) == None)
  }

  /** The directory slots `slots` are in use besides those before; the frames
      taken from the free list are exactly the tables that were added, and no
      frame besides the directory's own was touched. */
  ghost predicate Grown(m: Mem, fs: seq<nat>, m': Mem, fs': seq<nat>, d: nat, slots: set<nat>)
    requires d < NFRAMES && Shape(m) && Shape(m')
  {
    && |fs'| <= |fs| && fs' == fs[|fs| - |fs'|..]
    && |PresentSet(m', d)| + |fs'| == |PresentSet(m, d)| + |fs|
    && PresentSet(m', d) == PresentSet(m, d) + slots
    && OthersSame(m, m', Taken(fs, fs'), d)
    && (forall f :: 0 <= f < NFRAMES && IsTable(m', d, f) ==> IsTable(m, d, f) || f in Taken(fs, fs'))
  }

  function Taken(fs: seq<nat>, fs': seq<nat>): seq<nat>
    requires |fs'| <= |fs|
  {
    fs[..|fs| - |fs'|]
  }

  lemma GrownCompose(m: Mem, fs: seq<nat>, m1: Mem, fs1: seq<nat>, m2: Mem, fs2: seq<nat>, d: nat, s1: set<nat>,
      s2: set<nat>)
    requires d < NFRAMES && Shape(m) && Shape(m1) && Shape(m2)
    requires Grown(m, fs, m1, fs1, d, s1) && Grown(m1, fs1, m2, fs2, d, s2)
    ensures Grown(m, fs, m2, fs2, d, s1 + s2)
  {
    assert fs2 == fs[|fs| - |fs2|..];
    assert Taken(fs, fs2) == Taken(fs, fs1) + Taken(fs1, fs2);
    forall f | 0 <= f < NFRAMES && f != d && f !in Taken(fs, fs2) && !IsTable(m, d, f) ensures m2.ram[f] == m.ram[f] {
      assert f !in Taken(fs1, fs2) && !IsTable(m1, d, f);
    }
  }

  lemma ViewCompose(m: Mem, m1: Mem, m': Mem, d: nat, sp: nat, k: nat, pa: word, perm: word)
    requires sp < NPAGES && k < NPAGES && d < NFRAMES && Shape(m) && Shape(m1) && Shape(m')
    requires MapView(m, m1, d, sp, 1, pa, perm)
    requires MapView(m1, m', d, PageAt(sp, 1), k, Wrap(pa + 4096), perm)
    ensures MapView(m, m', d, sp, k + 1, pa, perm)
  {
    forall q | 0 <= q < NPAGES
      ensures Lookup(m', d, q) == if Off(sp, q) < k + 1 then Some(MakePte(Wrap(pa + 4096 * Off(sp, q)), perm))
        else Lookup(m, d, q)
      ensures Off(sp, q) < k + 1 ==> Lookup(m, d, q) == None
    {
      OffNext(sp, q);
      WrapNext(pa, Off(sp, q));
      MapViewAt(m, m1, d, sp, 1, pa, perm, q);
      MapViewAt(m1, m', d, PageAt(sp, 1), k, Wrap(pa + 4096), perm, q);
      hide *;
    }
    hide Lookup, Off, PageAt, MakePte, Wrap;
  }

  lemma MapViewAt(m: Mem, m': Mem, d: nat, sp: nat, k: nat, pa: word, perm: word, q: nat)
    requires sp < NPAGES && d < NFRAMES && Shape(m) && Shape(m') && q < NPAGES && MapView(m, m', d, sp, k, pa, perm)
    ensures Lookup(m', d, q) == if Off(sp, q) < k then Some(MakePte(Wrap(pa + 4096 * Off(sp, q)), perm))
      else Lookup(m, d, q)
    ensures Off(sp, q) < k ==> Lookup(m, d, q) == None
  {
    hide Lookup, Off, MakePte, Wrap;
  }

  lemma OffNext(sp: nat, q: nat)
    requires sp < NPAGES && q < NPAGES
    ensures PageAt(sp, 1) < NPAGES
    ensures q == sp ==> Off(sp, q) == 0 && Off(PageAt(sp, 1), q) == NPAGES - 1
    ensures q != sp ==> Off(sp, q) > 0 && Off(PageAt(sp, 1), q) == Off(sp, q) - 1
    ensures Off(sp, q) == 0 <==> q == sp
  {
  }

  lemma WrapNext(pa: word, n: nat)
    ensures n == 0 ==> Wrap(pa + 4096 * n) == pa
    ensures n > 0 ==> Wrap(Wrap(pa + 4096) + 4096 * (n - 1)) == Wrap(pa + 4096 * n)
  {
  }

  ghost predicate MapSummary(m: Mem, fs: seq<nat>, m': Mem, fs': seq<nat>, d: nat, sp: nat, k: nat, pa: word,
      perm: word)
    requires sp < NPAGES
  {
    && Dir(m, fs, d) && Dir(m', fs', d)
    && MapView(m, m', d, sp, k, pa, perm)
    && Grown(m, fs, m', fs', d, DirSlots(sp, k))
  }

  lemma MapNothing(m: Mem, fs: seq<nat>, d: nat, sp: nat, pa: word, perm: word)
    requires Dir(m, fs, d) && sp < NPAGES
    ensures MapSummary(m, fs, m, fs, d, sp, 0, pa, perm)
  {
    assert fs == fs[0..];
  }

  lemma MapOneView(m: Mem, m': Mem, fs: seq<nat>, d: nat, pn: nat, pa: word, perm: word)
    requires Dir(m, fs, d) && Dir(m', fs, d) && pn < NPAGES && Present(m.ram[d][pn / 1024]) && Lookup(m, d, pn) == None
    requires PresentSet(m', d) == PresentSet(m, d) && OthersSame(m, m', [], d)
    requires forall q :: 0 <= q < NPAGES ==>
      Lookup(m', d, q) == if q == pn then Some(MakePte(pa, perm)) else Lookup(m, d, q)
    requires forall f :: 0 <= f < NFRAMES ==> (IsTable(m', d, f) <==> IsTable(m, d, f))
    ensures MapSummary(m, fs, m', fs, d, pn, 1, pa, perm)
  {
    assert pn / 1024 in PresentSet(m, d);
    hide Dir, Lookup, Present, PresentSet, OthersSame, IsTable;
    assert forall q :: 0 <= q < NPAGES ==> (Off(pn, q) < 1 <==> q == pn);
    assert Wrap(pa + 4096 * 0) == pa;
    assert MapView(m, m', d, pn, 1, pa, perm);
    OneSlot(pn);
    assert fs == fs[0..] && Taken(fs, fs) == [];
  }

  /** The next slot, once its table is there. */
  lemma MapOne(m: Mem, fs: seq<nat>, d: nat, va: word, pa: word, perm: word)
    requires Dir(m, fs, d) && va % 4096 == 0 && Present(m.ram[d][Pdx(va)])
    ensures
      var t := TableFrame(m.ram[d][Pdx(va)]);
      t < NFRAMES &&
      var pte := SlotAddr(t, Ptx(va));
      && (Present(Load(m, pte)) <==> Lookup(m, d, va / 4096).Some?)
      && (Lookup(m, d, va / 4096) == None ==>
            MapSummary(m, fs, Store(m, pte, MakePte(pa, perm)), fs, d, va / 4096, 1, pa, perm))
  {
    IndexPair(va);
    var pn := va / 4096;
    assert GoodPde(m.ram[d][Pdx(va)], fs, d);
    var t := TableFrame(m.ram[d][Pdx(va)]);
    SlotAddress(m, t, Ptx(va));
    if Lookup(m, d, pn) == None {
      SetEntry(m, fs, d, pn, MakePte(pa, perm));
      MapOneView(m, Store(m, SlotAddr(t, Ptx(va)), MakePte(pa, perm)), fs, d, pn, pa, perm);
    }
  }

  lemma OneSlot(sp: nat)
    requires sp < NPAGES
    ensures DirSlots(sp, 1) == {sp / 1024}
  {
    assert DirSlots(sp, 1) == {sp / 1024} + DirSlots(PageAt(sp, 1), 0);
  }

  lemma SlotsStep(sp: nat, k: nat)
    requires sp < NPAGES
    ensures DirSlots(sp, k + 1) == DirSlots(sp, 1) + DirSlots(PageAt(sp, 1), k)
  {
    OneSlot(sp);
  }

  /** Adding an empty table is growth by one slot. */
  lemma TableGrown(m: Mem, m1: Mem, fs: seq<nat>, d: nat, i: nat)
    requires Dir(m, fs, d) && fs != [] && i < 1024 && !Present(m.ram[d][i])
    requires FreeList(m1, fs[1..])
    requires fs[0] in fs && m1.ram == m.ram[fs[0] := ZeroFrame()][d := m.ram[d][i := 4096 * fs[0] + 7]]
    ensures Dir(m1, fs[1..], d) && Grown(m, fs, m1, fs[1..], d, {i})
    ensures forall q :: 0 <= q < NPAGES ==> Lookup(m1, d, q) == Lookup(m, d, q)
  {
    NewTable(m, m1, fs, d, i);
    assert i !in PresentSet(m, d);
    assert |PresentSet(m1, d)| == |PresentSet(m, d)| + 1;
    assert Taken(fs, fs[1..]) == [fs[0]];
  }

  /** What every way of leaving the loop of map_pages means. */
  ghost predicate MapEnd(o: MapOutcome, m: Mem, m': Mem, fs': seq<nat>, d: nat, sp: nat, n: nat, k: nat)
    requires Shape(m) && Shape(m') && d < NFRAMES
  {
    match o
    case Mapped => k == n
    case OutOfFrames => k < n && fs' == [] && !Present(m'.ram[d][PageAt(sp, k) / 1024])
    case Remapped => k < n && Lookup(m, d, PageAt(sp, k)).Some?
  }

  /** One iteration of the loop that does not leave it. */
  lemma MapFirst(m: Mem, fs: seq<nat>, d: nat, va: word, pa: word, perm: word) returns (fs1: seq<nat>)
    requires Dir(m, fs, d) && va % 4096 == 0 && (Present(m.ram[d][Pdx(va)]) || fs != [])
    ensures
      var (pte, m1) := Walk(m, PageAddr(d), va, true);
      && pte != 0
      && (Present(Load(m1, pte)) ==> m1 == m && Lookup(m, d, va / 4096).Some?)
      && (!Present(Load(m1, pte)) ==>
            MapSummary(m, fs, Store(m1, pte, MakePte(pa, perm)), fs1, d, va / 4096, 1, pa, perm))
  {
    fs1 := WalkGrown(m, fs, d, va);
    var (pte, m1) := Walk(m, PageAddr(d), va, true);
    IndexPair(va);
    MapOne(m1, fs1, d, va, pa, perm);
    if !Present(Load(m1, pte)) {
      var m2 := Store(m1, pte, MakePte(pa, perm));
      FirstGrown(m, fs, m1, m2, fs1, d, va / 4096, pa, perm);
    }
  }

  lemma FirstGrown(m: Mem, fs: seq<nat>, m1: Mem, m2: Mem, fs1: seq<nat>, d: nat, sp: nat, pa: word, perm: word)
    requires sp < NPAGES && Dir(m, fs, d) && Dir(m1, fs1, d)
    requires Grown(m, fs, m1, fs1, d, if Present(m.ram[d][sp / 1024]) then {} else {sp / 1024})
    requires forall q :: 0 <= q < NPAGES ==> Lookup(m1, d, q) == Lookup(m, d, q)
    requires MapSummary(m1, fs1, m2, fs1, d, sp, 1, pa, perm)
    ensures MapSummary(m, fs, m2, fs1, d, sp, 1, pa, perm)
  {
    var s0: set<nat> := if Present(m.ram[d][sp / 1024]) then {} else {sp / 1024};
    GrownCompose(m, fs, m1, fs1, m2, fs1, d, s0, DirSlots(sp, 1));
    OneSlot(sp);
    assert s0 + DirSlots(sp, 1) == DirSlots(sp, 1);
  }

  ghost predicate MapResult(r: (MapOutcome, Mem), m: Mem, fs: seq<nat>, fs': seq<nat>, d: nat, start: word, last: word,
      k: nat, pa: word, perm: word)
  {
    && MapSummary(m, fs, r.1, fs', d, start / 4096, k, pa, perm)
    && MapEnd(r.0, m, r.1, fs', d, start / 4096, PagesAfter(start, last) + 1, k)
  }

  /** The loop is left in its first iteration. */
  lemma MapStop(m: Mem, fs: seq<nat>, d: nat, start: word, last: word, pa: word, perm: word)
    requires Dir(m, fs, d) && start % 4096 == 0 && last % 4096 == 0
    ensures
      var (pte, m1) := Walk(m, PageAddr(d), start, true);
      && (pte == 0 ==> MapResult((OutOfFrames, m1), m, fs, fs, d, start, last, 0, pa, perm))
      && (pte != 0 && Present(Load(m1, pte)) ==> MapResult((Remapped, m1), m, fs, fs, d, start, last, 0, pa, perm))
      && (pte != 0 ==> Present(m.ram[d][Pdx(start)]) || fs != [])
  {
    var sp := start / 4096;
    IndexPair(start);
    assert PageAt(sp, 0) == sp;
    MapNothing(m, fs, d, sp, pa, perm);
    hide Dir, MapView, Grown, Lookup, Load, Store, Walk, DirSlots, MakePte, MapSummary, IsTable, OthersSame, PresentSet;
    WalkStep(m, fs, d, start);
    if Present(m.ram[d][Pdx(start)]) || fs != [] {
      var fs1 := MapFirst(m, fs, d, start, pa, perm);
    }
  }

  lemma MapContinue(m: Mem, fs: seq<nat>, m2: Mem, fs1: seq<nat>, r: (MapOutcome, Mem), fs2: seq<nat>, d: nat,
      start: word, last: word, k: nat, pa: word, perm: word)
    requires start % 4096 == 0 && last % 4096 == 0 && start != last
    requires MapSummary(m, fs, m2, fs1, d, start / 4096, 1, pa, perm)
    requires MapResult(r, m2, fs1, fs2, d, Wrap(start + 4096), last, k, Wrap(pa + 4096), perm)
    ensures MapResult(r, m, fs, fs2, d, start, last, k + 1, pa, perm)
  {
    SummaryParts(m, fs, m2, fs1, d, start / 4096, 1, pa, perm);
    SummaryParts(m2, fs1, r.1, fs2, d, Wrap(start + 4096) / 4096, k, Wrap(pa + 4096), perm);
    hide Dir, MapView, Grown, Lookup, DirSlots, MakePte, MapSummary, IsTable, OthersSame, PresentSet;
    PagesAfterStep(start, last);
    NextPage(start);
    MapRest(m, fs, m2, fs1, r.1, fs2, d, start / 4096, pa, perm, k);
    EndRest(r.0, m, m2, r.1, fs2, d, start / 4096, PagesAfter(start, last), k, pa, perm);
  }

  lemma MapLoopUnfold(m: Mem, pgdir: word, start: word, last: word, pa: word, perm: word)
    requires Shape(m) && start % 4096 == 0 && last % 4096 == 0
    ensures
      var (pte, m1) := Walk(m, pgdir, start, true);
      var r := MapLoop(m, pgdir, start, last, pa, perm);
      if pte == 0 then r == (OutOfFrames, m1)
      else if Present(Load(m1, pte)) then r == (Remapped, m1)
      else if start == last then r == (Mapped, Store(m1, pte, MakePte(pa, perm)))
      else
        && Wrap(start + 4096) % 4096 == 0
        && PagesAfter(Wrap(start + 4096), last) == PagesAfter(start, last) - 1
        && r == MapLoop(Store(m1, pte, MakePte(pa, perm)), pgdir, Wrap(start + 4096), last, Wrap(pa + 4096), perm)
  {
    hide Walk, Load, Store, MakePte, PagesAfter;
    if start != last {
      PagesAfterStep(start, last);
    }
  }

  /** map_pages, whatever its outcome: exactly a prefix of the range has been
      mapped, and the outcome says why it stopped there. */
  lemma {:induction false} MapLoopCorrect(m: Mem, fs: seq<nat>, d: nat, start: word, last: word, pa: word, perm: word)
    returns (fs': seq<nat>, k: nat)
    requires Dir(m, fs, d) && start % 4096 == 0 && last % 4096 == 0
    ensures MapResult(MapLoop(m, PageAddr(d), start, last, pa, perm), m, fs, fs', d, start, last, k, pa, perm)
    decreases PagesAfter(start, last)
  {
    assert d < NFRAMES && Shape(m);
    hide *;
    MapLoopUnfold(m, PageAddr(d), start, last, pa, perm);
    MapStop(m, fs, d, start, last, pa, perm);
    var (pte, m1) := Walk(m, PageAddr(d), start, true);
    if pte == 0 || Present(Load(m1, pte)) {
      fs', k := fs, 0;
    } else {
      var fs1 := MapFirst(m, fs, d, start, pa, perm);
      var m2 := Store(m1, pte, MakePte(pa, perm));
      if start == last {
        MapDone(m, fs, m2, fs1, d, start, pa, perm);
        fs', k := fs1, 1;
      } else {
        SummaryParts(m, fs, m2, fs1, d, start / 4096, 1, pa, perm);
        fs', k := MapLoopCorrect(m2, fs1, d, Wrap(start + 4096), last, Wrap(pa + 4096), perm);
        MapContinue(m, fs, m2, fs1, MapLoop(m2, PageAddr(d), Wrap(start + 4096), last, Wrap(pa + 4096), perm), fs', d,
            start, last, k, pa, perm);
        k := k + 1;
      }
    }
  }

  lemma MapDone(m: Mem, fs: seq<nat>, m2: Mem, fs1: seq<nat>, d: nat, start: word, pa: word, perm: word)
    requires MapSummary(m, fs, m2, fs1, d, start / 4096, 1, pa, perm)
    ensures MapResult((Mapped, m2), m, fs, fs1, d, start, start, 1, pa, perm)
  {
  }

  lemma SummaryParts(m: Mem, fs: seq<nat>, m': Mem, fs': seq<nat>, d: nat, sp: nat, k: nat, pa: word, perm: word)
    requires sp < NPAGES && MapSummary(m, fs, m', fs', d, sp, k, pa, perm)
    ensures Dir(m, fs, d) && Dir(m', fs', d) && d < NFRAMES && Shape(m) && Shape(m')
    ensures MapView(m, m', d, sp, k, pa, perm)
    ensures Grown(m, fs, m', fs', d, DirSlots(sp, k))
  {
  }

  /** The walk of one iteration: same translations, and its table is there. */
  lemma WalkGrown(m: Mem, fs: seq<nat>, d: nat, va: word) returns (fs1: seq<nat>)
    requires Dir(m, fs, d) && (Present(m.ram[d][Pdx(va)]) || fs != [])
    ensures
      var (pte, m1) := Walk(m, PageAddr(d), va, true);
      var i := Pdx(va);
      && Dir(m1, fs1, d) && Present(m1.ram[d][i])
      && TableFrame(m1.ram[d][i]) < NFRAMES && pte == SlotAddr(TableFrame(m1.ram[d][i]), Ptx(va))
      && Grown(m, fs, m1, fs1, d, if Present(m.ram[d][i]) then {} else {i})
      && (Present(m.ram[d][i]) ==> m1 == m && fs1 == fs)
      && (forall q :: 0 <= q < NPAGES ==> Lookup(m1, d, q) == Lookup(m, d, q))
      && (!Present(m.ram[d][i]) ==> Lookup(m1, d, va / 4096) == None)
  {
    WalkStep(m, fs, d, va);
    IndexPair(va);
    var i := Pdx(va);
    if Present(m.ram[d][i]) {
      assert GoodPde(m.ram[d][i], fs, d);
      assert fs == fs[0..];
      return fs;
    } else {
      var m1 := Walk(m, PageAddr(d), va, true).1;
      assert fs[0] in fs;
      TableGrown(m, m1, fs, d, i);
      assert m1.ram[d][i] == 4096 * fs[0] + 7;
      return fs[1..];
    }
  }

  lemma MapRest(m: Mem, fs: seq<nat>, m2: Mem, fs1: seq<nat>, m': Mem, fs2: seq<nat>, d: nat, sp: nat, pa: word,
      perm: word, k: nat)
    requires sp < NPAGES && k < NPAGES
    requires MapSummary(m, fs, m2, fs1, d, sp, 1, pa, perm)
    requires MapSummary(m2, fs1, m', fs2, d, PageAt(sp, 1), k, Wrap(pa + 4096), perm)
    ensures MapSummary(m, fs, m', fs2, d, sp, k + 1, pa, perm)
  {
    assert d < NFRAMES && Shape(m) && Shape(m2) && Shape(m');
    hide Dir, MapView, Grown, Lookup, DirSlots, Wrap, PageAt, MakePte;
    ViewCompose(m, m2, m', d, sp, k, pa, perm);
    GrownCompose(m, fs, m2, fs1, m', fs2, d, DirSlots(sp, 1), DirSlots(PageAt(sp, 1), k));
    SlotsStep(sp, k);
  }

  lemma EndRest(o: MapOutcome, m: Mem, m2: Mem, m': Mem, fs': seq<nat>, d: nat, sp: nat, n: nat, k: nat, pa: word,
      perm: word)
    requires sp < NPAGES && d < NFRAMES && Shape(m) && Shape(m2) && Shape(m') && n < NPAGES
    requires MapView(m, m2, d, sp, 1, pa, perm)
    requires MapEnd(o, m2, m', fs', d, PageAt(sp, 1), n, k)
    ensures MapEnd(o, m, m', fs', d, sp, n + 1, k + 1)
  {
    var q := PageAt(PageAt(sp, 1), k);
    assert q == PageAt(sp, k + 1);
    if o == Remapped {
      assert Off(sp, q) == k + 1;
      assert Lookup(m2, d, q) == Lookup(m, d, q);
    }
  }

  lemma NextPage(start: word)
    requires start % 4096 == 0
    ensures Wrap(start + 4096) / 4096 == PageAt(start / 4096, 1)
  {
    var a := start / 4096;
    assert start == 4096 * a;
    if a + 1 == NPAGES {
      assert Wrap(start + 4096) == 0;
    } else {
      assert Wrap(start + 4096) == 4096 * (a + 1);
    }
  }

  /* ---- when map_pages succeeds ---- */

  lemma {:induction false} SlotsMember(sp: nat, n: nat, k: nat)
    requires sp < NPAGES && k < n
    ensures PageAt(sp, k) / 1024 in DirSlots(sp, n)
    decreases n
  {
    if k > 0 {
      assert PageAt(PageAt(sp, 1), k - 1) == PageAt(sp, k);
      SlotsMember(PageAt(sp, 1), n - 1, k - 1);
    } else {
      assert PageAt(sp, 0) == sp;
    }
  }

  lemma {:induction false} SlotsMonotone(sp: nat, k: nat, n: nat)
    requires sp < NPAGES && k <= n
    ensures DirSlots(sp, k) <= DirSlots(sp, n)
    decreases k
  {
    if k == 0 {
    } else {
      SlotsMonotone(PageAt(sp, 1), k - 1, n - 1);
    }
  }

  /** The directory slots of a range that does not wrap. */
  lemma {:induction false} SlotsRange(sp: nat, k: nat, s: nat)
    requires sp < NPAGES && 0 < k && sp + k <= NPAGES
    ensures s in DirSlots(sp, k) <==> sp / 1024 <= s <= (sp + k - 1) / 1024
    decreases k
  {
    if k > 1 {
      assert PageAt(sp, 1) == sp + 1;
      SlotsRange(sp + 1, k - 1, s);
    } else {
      OneSlot(sp);
    }
  }

  lemma GrownCount(m: Mem, fs: seq<nat>, m': Mem, fs': seq<nat>, d: nat, slots: set<nat>)
    requires d < NFRAMES && Shape(m) && Shape(m') && Grown(m, fs, m', fs', d, slots)
    ensures |slots - PresentSet(m, d)| == |fs| - |fs'|
  {
    var p := PresentSet(m, d);
    assert p + slots == p + (slots - p) && p !! (slots - p);
  }

  /** No page of the n pages from sp on is mapped. */
  ghost predicate RangeFree(m: Mem, d: nat, sp: nat, n: nat)
    requires Shape(m) && d < NFRAMES && sp < NPAGES
  {
    forall q :: 0 <= q < NPAGES && Off(sp, q) < n ==> Lookup(m, d, q) == None
  }

  /** map_pages succeeds exactly when no page of the range is mapped yet and the
      free list covers the missing page tables. */
  lemma MapLoopIff(m: Mem, fs: seq<nat>, d: nat, start: word, last: word, pa: word, perm: word)
    requires Dir(m, fs, d) && start % 4096 == 0 && last % 4096 == 0
    ensures
      var n := PagesAfter(start, last) + 1;
      MapLoop(m, PageAddr(d), start, last, pa, perm).0 == Mapped <==>
        && RangeFree(m, d, start / 4096, n)
        && |DirSlots(start / 4096, n) - PresentSet(m, d)| <= |fs|
  {
    var fs', k := MapLoopCorrect(m, fs, d, start, last, pa, perm);
    var r := MapLoop(m, PageAddr(d), start, last, pa, perm);
    var sp, n := start / 4096, PagesAfter(start, last) + 1;
    SummaryParts(m, fs, r.1, fs', d, sp, k, pa, perm);
    hide *;
    match r.0
    case Mapped => WhenMapped(m, fs, r.1, fs', d, sp, n, pa, perm);
    case OutOfFrames => WhenOutOfFrames(m, fs, r.1, fs', d, sp, n, k);
    case Remapped => WhenRemapped(m, r.1, d, sp, n, k);
  }

  lemma WhenMapped(m: Mem, fs: seq<nat>, m': Mem, fs': seq<nat>, d: nat, sp: nat, n: nat, pa: word, perm: word)
    requires d < NFRAMES && Shape(m) && Shape(m') && sp < NPAGES
    requires MapView(m, m', d, sp, n, pa, perm) && Grown(m, fs, m', fs', d, DirSlots(sp, n))
    ensures RangeFree(m, d, sp, n) && |DirSlots(sp, n) - PresentSet(m, d)| <= |fs|
  {
    GrownCount(m, fs, m', fs', d, DirSlots(sp, n));
  }

  lemma WhenOutOfFrames(m: Mem, fs: seq<nat>, m': Mem, fs': seq<nat>, d: nat, sp: nat, n: nat, k: nat)
    requires d < NFRAMES && Shape(m) && Shape(m') && sp < NPAGES
    requires Grown(m, fs, m', fs', d, DirSlots(sp, k)) && MapEnd(OutOfFrames, m, m', fs', d, sp, n, k)
    ensures |DirSlots(sp, n) - PresentSet(m, d)| > |fs|
  {
    GrownCount(m, fs, m', fs', d, DirSlots(sp, k));
    var s := PageAt(sp, k) / 1024;
    assert s !in PresentSet(m', d);
    StarvedSlots(sp, k, n, PresentSet(m, d), s);
  }

  lemma WhenRemapped(m: Mem, m': Mem, d: nat, sp: nat, n: nat, k: nat)
    requires d < NFRAMES && Shape(m) && Shape(m') && sp < NPAGES && n <= NPAGES
    requires MapEnd(Remapped, m, m', [], d, sp, n, k)
    ensures !RangeFree(m, d, sp, n)
  {
    assert Off(sp, PageAt(sp, k)) == k;
  }

  lemma StarvedSlots(sp: nat, k: nat, n: nat, p: set<nat>, s: nat)
    requires sp < NPAGES && k < n && s == PageAt(sp, k) / 1024 && s !in p && s !in DirSlots(sp, k)
    ensures |DirSlots(sp, k) - p| < |DirSlots(sp, n) - p|
  {
    SlotsMember(sp, n, k);
    SlotsMonotone(sp, k, n);
    SmallerSet(DirSlots(sp, k) - p, DirSlots(sp, n) - p, s);
  }

  lemma SmallerSet(a: set<nat>, b: set<nat>, x: nat)
    requires a <= b && x in b && x !in a
    ensures |a| < |b|
  {
    assert a + (b - a) == b && a !! (b - a);
    assert x in b - a;
  }

  /** For a non-empty range that does not run past the top of the address space,
      the loop makes one entry per page from the first to the last. */
  lemma RangePageCount(va: word, size: word)
    requires size >= 1 && va + size - 1 < WORD_LIMIT
    ensures
      var start, last := PgRoundDown(va), PgRoundDown(Wrap(va + size - 1));
      && PagesAfter(start, last) + 1 == (last - start) / PGSIZE + 1
      && start / 4096 == va / 4096 && start / 4096 + PagesAfter(start, last) == (va + size - 1) / 4096
  {
  }

  /* ---- the C functions as they run ---- */

  lemma EntryPlace(pgdir: word, va: word)
    requires InRam(pgdir) && pgdir % 4096 == 0
    ensures
      var a := Wrap(pgdir + 4 * Pdx(va));
      a == SlotAddr(FrameOf(pgdir), Pdx(va)) && InRam(a) && a % 4 == 0
  {
    var f := FrameOf(pgdir);
    assert pgdir == PageAddr(f);
    SlotAligned(f, Pdx(va));
    hide FrameOf, Pdx, PageAddr;
  }

  lemma SlotAligned(t: nat, j: nat)
    requires t < NFRAMES && j < 1024
    ensures SlotAddr(t, j) % 4 == 0 && InRam(SlotAddr(t, j)) && Wrap(PageAddr(t) + 4 * j) == SlotAddr(t, j)
  {
    assert SlotAddr(t, j) == 4 * (KERNBASE / 4 + 1024 * t + j);
  }

  /** The branch of walk_pgdir that takes a page for a new table. */
  method AddTable(mem: PhysicalMemory, pgdir: word, va: word, ghost fs: seq<nat>) returns (pte: word)
    requires mem.Valid() && InRam(pgdir) && pgdir % 4096 == 0 && FreeList(mem.Snap(), fs)
    modifies mem`freelist, mem.ram
    ensures (pte, mem.Snap()) == WalkNew(old(mem.Snap()), pgdir, va)
  {
    EntryPlace(pgdir, va);
    AllocPops(mem.Snap(), fs);
    if fs != [] {
      PageAddrInverse(fs[0]);
    }
    hide FreeList, Pdx, Ptx, SlotAddr, Store;
    var pgtab := mem.Kalloc();
    if pgtab == 0 {
      return 0;
    }
    ghost var m1 := mem.Snap();
    mem.ram[FrameOf(pgtab)] := ZeroFrame();
    assert mem.Snap() == ZeroPage(m1, pgtab);
    mem.Write(Wrap(pgdir + 4 * Pdx(va)), MakePde(V2P(pgtab)));
    pte := Wrap(pgtab + 4 * Ptx(va));
  }

  /** walk_pgdir. Under the directory invariant every access is to a word of RAM. */
  method WalkPgdir(mem: PhysicalMemory, pgdir: word, va: word, alloc: bool, ghost fs: seq<nat>) returns (pte: word)
    requires mem.Valid() && InRam(pgdir) && pgdir % 4096 == 0 && Dir(mem.Snap(), fs, FrameOf(pgdir))
    modifies mem`freelist, mem.ram
    ensures (pte, mem.Snap()) == Walk(old(mem.Snap()), pgdir, va, alloc)
  {
    DirList(mem.Snap(), fs, FrameOf(pgdir));
    EntryPlace(pgdir, va);
    hide Dir, FreeList, Pdx, Ptx, WalkNew, Load, SlotAddr;
    var pde := mem.Read(Wrap(pgdir + 4 * Pdx(va)));
    if Present(pde) {
      pte := Wrap(P2V(PteAddr(pde)) + 4 * Ptx(va));
    } else if !alloc {
      pte := 0;
    } else {
      pte := AddTable(mem, pgdir, va, fs);
    }
  }

  lemma DirList(m: Mem, fs: seq<nat>, d: nat)
    requires Dir(m, fs, d)
    ensures FreeList(m, fs)
  {
    hide FreeList;
  }

  /** map_pages: the loop over the pages of the range, with its three ways out. */
  method MapRange(mem: PhysicalMemory, pgdir: word, va: word, size: word, pa0: word, perm: word, ghost fs: seq<nat>)
    returns (o: MapOutcome)
    requires mem.Valid() && InRam(pgdir) && pgdir % 4096 == 0 && Dir(mem.Snap(), fs, FrameOf(pgdir))
    modifies mem`freelist, mem.ram
    ensures (o, mem.Snap()) == MapPages(old(mem.Snap()), pgdir, va, size, pa0, perm)
  {
    var start: word := PgRoundDown(va);
    var last: word := PgRoundDown(Wrap(va + size - 1));
    var pa: word := pa0;
    ghost var fs1 := fs;
    ghost var d := FrameOf(pgdir);
    assert pgdir == PageAddr(d);
    hide FrameOf, PageAddr;
    while true
      invariant start % 4096 == 0 && last % 4096 == 0
      invariant Dir(mem.Snap(), fs1, d)
      invariant MapLoop(mem.Snap(), pgdir, start, last, pa, perm) ==
        MapPages(old(mem.Snap()), pgdir, va, size, pa0, perm)
      decreases PagesAfter(start, last)
    {
      assert Shape(mem.Snap());
      hide MapLoop, MapPages, Walk, Dir, MakePte, PagesAfter, Load, Store, Present, FrameOf, PageAddr, PgRoundDown;
      ghost var m := mem.Snap();
      MapLoopUnfold(m, pgdir, start, last, pa, perm);
      ghost var fs2 := SlotReady(m, fs1, d, start, pa, perm);
      var pte := WalkPgdir(mem, pgdir, start, true, fs1);
      if pte == 0 {
        return OutOfFrames;
      }
      var entry := mem.Read(pte);
      if Present(entry) {
        return Remapped;
      }
      mem.Write(pte, MakePte(pa, perm));
      if start == last {
        break;
      }
      start := Wrap(start + 4096);
      pa := Wrap(pa + 4096);
      fs1 := fs2;
    }
    return Mapped;
  }

  /** The slot a walk returns lies in RAM, and the directory invariant holds
      again once it is filled. */
  lemma SlotReady(m: Mem, fs: seq<nat>, d: nat, va: word, pa: word, perm: word) returns (fs1: seq<nat>)
    requires Dir(m, fs, d) && va % 4096 == 0
    ensures
      var (pte, m1) := Walk(m, PageAddr(d), va, true);
      pte != 0 ==>
        && InRam(pte) && pte % 4 == 0
        && (!Present(Load(m1, pte)) ==> Dir(Store(m1, pte, MakePte(pa, perm)), fs1, d))
  {
    var (pte, m1) := Walk(m, PageAddr(d), va, true);
    WalkStep(m, fs, d, va);
    fs1 := fs;
    if pte != 0 {
      fs1 := MapFirst(m, fs, d, va, pa, perm);
      var fs2 := WalkGrown(m, fs, d, va);
      SlotAligned(TableFrame(m1.ram[d][Pdx(va)]), Ptx(va));
      hide SlotAddr;
    }
  }
}
