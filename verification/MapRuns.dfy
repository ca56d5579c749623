/** Any sequence of walk_pgdir(..., 1) and map_pages calls on one directory
    (kernel/mm/vm.c), whatever their outcomes: the two-level structure behaves as a
    flat map from page numbers to entries. */
module MapRuns {
  import opened Bits
  import opened Mmu
  import opened Options
  import opened PageAllocator
  import opened Vm

  /** A call, with its arguments. */
  datatype PageOp =
    | WalkCall(va: word)
    | MapCall(va: word, size: word, pa: word, perm: word)

  function FirstOf(op: PageOp): word {
    PgRoundDown(op.va)
  }

  function LastOf(op: PageOp): word
    requires op.MapCall?
  {
    PgRoundDown(Wrap(op.va + op.size - 1))
  }

  /** The pages that a call asks for. */
  function Asked(op: PageOp): nat {
    if op.WalkCall? then 0 else PagesAfter(FirstOf(op), LastOf(op)) + 1
  }

  function Apply(m: Mem, pgdir: word, op: PageOp): (r: Mem)
    requires Shape(m)
    ensures Shape(r)
  {
    match op
    case WalkCall(va) => Walk(m, pgdir, va, true).1
    case MapCall(va, size, pa, perm) => MapPages(m, pgdir, va, size, pa, perm).1
  }

  /** The call neither runs out of frames nor meets a mapped page. */
  predicate Succeeds(m: Mem, pgdir: word, op: PageOp)
    requires Shape(m)
  {
    match op
    case WalkCall(va) => Walk(m, pgdir, va, true).0 != 0
    case MapCall(va, size, pa, perm) => MapPages(m, pgdir, va, size, pa, perm).0 == Mapped
  }

  function ApplyAll(m: Mem, pgdir: word, ops: seq<PageOp>): (r: Mem)
    requires Shape(m)
    ensures Shape(r)
    decreases |ops|
  {
    if ops == [] then m else ApplyAll(Apply(m, pgdir, ops[0]), pgdir, ops[1..])
  }

  predicate AllSucceed(m: Mem, pgdir: word, ops: seq<PageOp>)
    requires Shape(m)
    decreases |ops|
  {
    ops == [] || (Succeeds(m, pgdir, ops[0]) && AllSucceed(Apply(m, pgdir, ops[0]), pgdir, ops[1..]))
  }

  /* ---- the flat map ---- */

  /** The k-page prefix of a map call covers page q. */
  predicate CoversPage(op: PageOp, k: nat, q: nat)
    requires q < NPAGES
  {
    op.MapCall? && Off(op.va / 4096, q) < k
  }

  /** The entry that a map call gives to page q. */
  function EntryFor(op: PageOp, q: nat): word
    requires op.MapCall? && q < NPAGES
  {
    MakePte(Wrap(op.pa + 4096 * Off(op.va / 4096, q)), op.perm)
  }

  /** One call on the flat map, of which k pages come about. */
  function FlatStep(op: PageOp, k: nat, q: nat, e: Option<word>): Option<word>
    requires q < NPAGES
  {
    if CoversPage(op, k, q) then Some(EntryFor(op, q)) else e
  }

  function FlatAll(ops: seq<PageOp>, ks: seq<nat>, q: nat, e: Option<word>): Option<word>
    requires |ks| == |ops| && q < NPAGES
    decreases |ops|
  {
    if ops == [] then e else FlatAll(ops[1..], ks[1..], q, FlatStep(ops[0], ks[0], q, e))
  }

  /* ---- one call ---- */

  /** Frames: what left the free list are exactly the tables that were added. */
  ghost predicate Conserved(m: Mem, fs: seq<nat>, m': Mem, fs': seq<nat>, d: nat) {
    && d < NFRAMES && Shape(m) && Shape(m') && Dir(m, fs, d) && Dir(m', fs', d)
    && PresentSet(m, d) <= PresentSet(m', d) && Grown(m, fs, m', fs', d, PresentSet(m', d))
  }

  /** The first k pages of a call have come about, all unmapped before. */
  ghost predicate FlatEffect(m: Mem, m': Mem, d: nat, op: PageOp, k: nat)
    requires Shape(m) && Shape(m') && d < NFRAMES
  {
    && (forall q :: 0 <= q < NPAGES ==> Lookup(m', d, q) == FlatStep(op, k, q, Lookup(m, d, q)))
    && (forall q :: 0 <= q < NPAGES && CoversPage(op, k, q) ==> Lookup(m, d, q) == None)
  }

  lemma GrownConserves(m: Mem, fs: seq<nat>, m': Mem, fs': seq<nat>, d: nat, slots: set<nat>)
    requires d < NFRAMES && Shape(m) && Shape(m') && Dir(m, fs, d) && Dir(m', fs', d) && Grown(m, fs, m', fs', d, slots)
    ensures Conserved(m, fs, m', fs', d)
  {
    hide Dir, OthersSame, IsTable, Taken, PresentSet;
  }

  lemma WalkEffect(m: Mem, fs: seq<nat>, d: nat, va: word) returns (fs': seq<nat>)
    requires Dir(m, fs, d)
    ensures Shape(m) && d < NFRAMES
    ensures
      var op := WalkCall(va);
      var m' := Apply(m, PageAddr(d), op);
      Conserved(m, fs, m', fs', d) && FlatEffect(m, m', d, op, 0)
  {
    hide *;
    DirTables(m, fs, d);
    var m' := Walk(m, PageAddr(d), va, true).1;
    WalkIs(m, PageAddr(d), va);
    WalkSlot(va);
    if Present(m.ram[d][Pdx(va)]) || fs != [] {
      fs' := WalkGrown(m, fs, d, va);
      GrownConserves(m, fs, m', fs', d, if Present(m.ram[d][Pdx(va)]) then {} else {Pdx(va)});
      SameIsFlat(m, m', d, va);
    } else {
      fs' := fs;
      WalkStarved(m, d, va);
      GrownNothing(m, fs, d);
      GrownConserves(m, fs, m, fs, d, {});
      SameIsFlat(m, m, d, va);
    }
  }

  lemma WalkIs(m: Mem, pgdir: word, va: word)
    requires Shape(m)
    ensures Apply(m, pgdir, WalkCall(va)) == Walk(m, pgdir, va, true).1
  {
    hide Walk;
  }

  lemma WalkSlot(va: word)
    ensures Pdx(va) < 1024
    ensures forall m :: Shape(m) <==> |m.ram| == NFRAMES
  {
  }

  lemma WalkStarved(m: Mem, d: nat, va: word)
    requires Dir(m, [], d) && d < NFRAMES && Shape(m) && !Present(m.ram[d][Pdx(va)])
    ensures Walk(m, PageAddr(d), va, true).1 == m
  {
    hide Walk, Present;
    WalkStep(m, [], d, va);
  }

  lemma SameIsFlat(m: Mem, m': Mem, d: nat, va: word)
    requires d < NFRAMES && Shape(m) && Shape(m')
    requires forall q :: 0 <= q < NPAGES ==> Lookup(m', d, q) == Lookup(m, d, q)
    ensures FlatEffect(m, m', d, WalkCall(va), 0)
  {
    hide Lookup;
  }

  lemma GrownNothing(m: Mem, fs: seq<nat>, d: nat)
    requires Dir(m, fs, d)
    ensures Shape(m) && d < NFRAMES && Grown(m, fs, m, fs, d, {})
  {
    assert fs == fs[0..];
    hide Chain, NoDup, IsTable;
  }

  lemma MapEffect(m: Mem, fs: seq<nat>, d: nat, op: PageOp) returns (fs': seq<nat>, k: nat)
    requires Dir(m, fs, d) && op.MapCall?
    ensures Shape(m) && d < NFRAMES
    ensures
      var m' := Apply(m, PageAddr(d), op);
      && Conserved(m, fs, m', fs', d) && FlatEffect(m, m', d, op, k) && k <= Asked(op)
      && (Succeeds(m, PageAddr(d), op) <==> k == Asked(op))
  {
    DirTables(m, fs, d);
    var start, last := FirstOf(op), LastOf(op);
    var r := MapPages(m, PageAddr(d), op.va, op.size, op.pa, op.perm);
    assert r == MapLoop(m, PageAddr(d), start, last, op.pa, op.perm);
    assert start / 4096 == op.va / 4096;
    assert Apply(m, PageAddr(d), op) == r.1 && (Succeeds(m, PageAddr(d), op) <==> r.0 == Mapped);
    assert Asked(op) == PagesAfter(start, last) + 1;
    hide *;
    fs', k := MapLoopCorrect(m, fs, d, start, last, op.pa, op.perm);
    ResultParts(r, m, fs, fs', d, start, last, k, op.pa, op.perm);
    GrownConserves(m, fs, r.1, fs', d, DirSlots(start / 4096, k));
    ViewIsFlat(m, r.1, d, op, k);
  }

  lemma ResultParts(r: (MapOutcome, Mem), m: Mem, fs: seq<nat>, fs': seq<nat>, d: nat,
                    start: word, last: word, k: nat, pa: word, perm: word)
    requires MapResult(r, m, fs, fs', d, start, last, k, pa, perm)
    ensures d < NFRAMES && Shape(m) && Shape(r.1) && start / 4096 < NPAGES
    ensures Dir(m, fs, d) && Dir(r.1, fs', d) && MapView(m, r.1, d, start / 4096, k, pa, perm)
    ensures Grown(m, fs, r.1, fs', d, DirSlots(start / 4096, k))
    ensures k <= PagesAfter(start, last) + 1 && (r.0 == Mapped <==> k == PagesAfter(start, last) + 1)
  {
    SummaryParts(m, fs, r.1, fs', d, start / 4096, k, pa, perm);
    hide MapSummary, Dir, MapView, Grown, Lookup, DirSlots, PagesAfter;
  }

  lemma ViewIsFlat(m: Mem, m': Mem, d: nat, op: PageOp, k: nat)
    requires d < NFRAMES && Shape(m) && Shape(m') && op.MapCall? && op.va / 4096 < NPAGES
    requires MapView(m, m', d, op.va / 4096, k, op.pa, op.perm)
    ensures FlatEffect(m, m', d, op, k)
  {
    hide Lookup, Off, MakePte, Wrap;
  }

  /** One call of either kind, with any outcome. */
  lemma CallEffect(m: Mem, fs: seq<nat>, d: nat, op: PageOp) returns (fs': seq<nat>, k: nat)
    requires Dir(m, fs, d)
    ensures Shape(m) && d < NFRAMES
    ensures
      var m' := Apply(m, PageAddr(d), op);
      && Conserved(m, fs, m', fs', d) && FlatEffect(m, m', d, op, k) && k <= Asked(op)
      && (Succeeds(m, PageAddr(d), op) ==> k == Asked(op))
  {
    hide Dir, Apply, Conserved, FlatEffect, Succeeds, PagesAfter;
    match op
    case WalkCall(va) =>
      fs' := WalkEffect(m, fs, d, va);
      k := 0;
    case MapCall(_, _, _, _) =>
      fs', k := MapEffect(m, fs, d, op);
  }

  /* ---- over a sequence of calls ---- */

  lemma ConservedTwice(m: Mem, fs: seq<nat>, m1: Mem, fs1: seq<nat>, m2: Mem, fs2: seq<nat>, d: nat)
    requires Conserved(m, fs, m1, fs1, d) && Conserved(m1, fs1, m2, fs2, d)
    ensures Conserved(m, fs, m2, fs2, d)
  {
    hide Dir, Grown, PresentSet;
    GrownCompose(m, fs, m1, fs1, m2, fs2, d, PresentSet(m1, d), PresentSet(m2, d));
    assert PresentSet(m1, d) + PresentSet(m2, d) == PresentSet(m2, d);
  }

  /** How many pages each call brings about. */
  predicate Counts(ops: seq<PageOp>, ks: seq<nat>) {
    |ks| == |ops| && forall i :: 0 <= i < |ops| ==> ks[i] <= Asked(ops[i])
  }

  predicate FullCounts(ops: seq<PageOp>, ks: seq<nat>) {
    |ks| == |ops| && forall i :: 0 <= i < |ops| ==> ks[i] == Asked(ops[i])
  }

  /** Some call has given page q the entry e. */
  predicate GivenBy(ops: seq<PageOp>, q: nat, e: word, i: nat)
    requires q < NPAGES
  {
    i < |ops| && CoversPage(ops[i], Asked(ops[i]), q) && e == EntryFor(ops[i], q)
  }

  /** A page's translation is as before, or there was none and a map call covering the
      page has given it its entry. */
  ghost predicate PageStory(before: Option<word>, after: Option<word>, ops: seq<PageOp>, q: nat)
    requires q < NPAGES
  {
    after == before || (before == None && after.Some? && exists i: nat :: GivenBy(ops, q, after.value, i))
  }

  lemma StoryCons(before: Option<word>, mid: Option<word>, after: Option<word>, op: PageOp, k: nat, ops: seq<PageOp>,
      q: nat)
    requires q < NPAGES && k <= Asked(op) && mid == FlatStep(op, k, q, before)
    requires CoversPage(op, k, q) ==> before == None
    requires PageStory(mid, after, ops, q)
    ensures PageStory(before, after, [op] + ops, q)
  {
    hide Asked, EntryFor;
    if after == mid {
      if CoversPage(op, k, q) {
        assert GivenBy([op] + ops, q, after.value, 0);
      }
    } else {
      var i: nat :| GivenBy(ops, q, after.value, i);
      assert ([op] + ops)[i + 1] == ops[i];
      assert GivenBy([op] + ops, q, after.value, i + 1);
    }
  }

  /** The run theorem. After any calls with any outcomes the directory is well formed,
      free and attached frames are conserved, and every translation is what the flat map
      gives; with every call successful the flat map gives each call's whole range. */
  lemma {:induction false} RunRefinesFlatMap(m: Mem, fs: seq<nat>, d: nat, ops: seq<PageOp>)
    returns (fs': seq<nat>, ks: seq<nat>)
    requires Dir(m, fs, d)
    ensures Shape(m) && d < NFRAMES && Counts(ops, ks)
    ensures Conserved(m, fs, ApplyAll(m, PageAddr(d), ops), fs', d)
    ensures forall q :: 0 <= q < NPAGES ==>
      Lookup(ApplyAll(m, PageAddr(d), ops), d, q) == FlatAll(ops, ks, q, Lookup(m, d, q))
    ensures AllSucceed(m, PageAddr(d), ops) ==> FullCounts(ops, ks)
    ensures forall q :: 0 <= q < NPAGES ==>
      PageStory(Lookup(m, d, q), Lookup(ApplyAll(m, PageAddr(d), ops), d, q), ops, q)
    decreases |ops|
  {
    hide *;
    DirTables(m, fs, d);
    if ops == [] {
      fs', ks := fs, [];
      RunNothing(m, fs, d);
    } else {
      var op, rest := ops[0], ops[1..];
      assert ops == [op] + rest;
      var fs1, k := CallEffect(m, fs, d, op);
      var m1 := Apply(m, PageAddr(d), op);
      ConservedDirs(m, fs, m1, fs1, d);
      var ks1;
      fs', ks1 := RunRefinesFlatMap(m1, fs1, d, rest);
      ks := [k] + ks1;
      var m' := ApplyAll(m1, PageAddr(d), rest);
      ApplyCons(m, PageAddr(d), op, rest);
      ConservedDirs(m1, fs1, m', fs', d);
      ConservedTwice(m, fs, m1, fs1, m', fs', d);
      CountsCons(op, rest, k, ks1);
      forall q | 0 <= q < NPAGES
        ensures Lookup(m', d, q) == FlatAll(ops, ks, q, Lookup(m, d, q))
        ensures PageStory(Lookup(m, d, q), Lookup(m', d, q), ops, q)
      {
        FlatAt(m, m1, d, op, k, q);
        FlatCons(op, rest, k, ks1, q, Lookup(m, d, q));
        StoryCons(Lookup(m, d, q), Lookup(m1, d, q), Lookup(m', d, q), op, k, rest, q);
      }
    }
  }

  lemma RunNothing(m: Mem, fs: seq<nat>, d: nat)
    requires Dir(m, fs, d) && Shape(m) && d < NFRAMES
    ensures ApplyAll(m, PageAddr(d), []) == m && Counts([], []) && FullCounts([], [])
    ensures Conserved(m, fs, m, fs, d)
    ensures forall q, e :: 0 <= q < NPAGES ==> FlatAll([], [], q, e) == e
    ensures forall q, e :: 0 <= q < NPAGES ==> PageStory(e, e, [], q)
  {
    GrownNothing(m, fs, d);
    hide Dir, Grown, Conserved;
    GrownConserves(m, fs, m, fs, d, {});
  }

  lemma ConservedDirs(m: Mem, fs: seq<nat>, m': Mem, fs': seq<nat>, d: nat)
    requires Conserved(m, fs, m', fs', d)
    ensures d < NFRAMES && Shape(m) && Shape(m') && Dir(m, fs, d) && Dir(m', fs', d)
  {
    hide Dir, Grown;
  }

  lemma ApplyCons(m: Mem, pgdir: word, op: PageOp, rest: seq<PageOp>)
    requires Shape(m)
    ensures ApplyAll(m, pgdir, [op] + rest) == ApplyAll(Apply(m, pgdir, op), pgdir, rest)
    ensures AllSucceed(m, pgdir, [op] + rest) <==>
      Succeeds(m, pgdir, op) && AllSucceed(Apply(m, pgdir, op), pgdir, rest)
  {
    assert ([op] + rest)[1..] == rest;
    hide Apply, Succeeds;
  }

  lemma CountsCons(op: PageOp, rest: seq<PageOp>, k: nat, ks: seq<nat>)
    requires Counts(rest, ks) && k <= Asked(op)
    ensures Counts([op] + rest, [k] + ks) && |ks| == |rest|
    ensures k == Asked(op) && FullCounts(rest, ks) ==> FullCounts([op] + rest, [k] + ks)
  {
    hide Asked;
  }

  lemma FlatAt(m: Mem, m': Mem, d: nat, op: PageOp, k: nat, q: nat)
    requires Shape(m) && Shape(m') && d < NFRAMES && q < NPAGES && FlatEffect(m, m', d, op, k)
    ensures Lookup(m', d, q) == FlatStep(op, k, q, Lookup(m, d, q))
    ensures CoversPage(op, k, q) ==> Lookup(m, d, q) == None
  {
    hide Lookup, FlatStep, CoversPage;
  }

  lemma FlatCons(op: PageOp, rest: seq<PageOp>, k: nat, ks: seq<nat>, q: nat, e: Option<word>)
    requires |ks| == |rest| && q < NPAGES
    ensures FlatAll([op] + rest, [k] + ks, q, e) == FlatAll(rest, ks, q, FlatStep(op, k, q, e))
  {
    assert ([op] + rest)[1..] == rest && ([k] + ks)[1..] == ks;
    hide FlatStep;
  }

  /** The bookkeeping of frames, spelled out: free frames and tables together stay as
      many as they were, and the frames that left the list are the new tables. */
  lemma FramesConserved(m: Mem, fs: seq<nat>, m': Mem, fs': seq<nat>, d: nat)
    requires Conserved(m, fs, m', fs', d)
    ensures Shape(m) && Shape(m') && d < NFRAMES
    ensures |PresentSet(m', d)| + |fs'| == |PresentSet(m, d)| + |fs| && |fs'| <= |fs| && fs' == fs[|fs| - |fs'|..]
    ensures forall f :: 0 <= f < NFRAMES && IsTable(m', d, f) ==> IsTable(m, d, f) || f in fs[..|fs| - |fs'|]
    ensures forall f :: 0 <= f < NFRAMES && f != d && f !in fs[..|fs| - |fs'|] && !IsTable(m, d, f) ==>
      m'.ram[f] == m.ram[f]
  {
    hide Dir, IsTable, PresentSet;
  }
}
