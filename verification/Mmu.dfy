/** Address and page-table-entry arithmetic (include/Tuix/mmu.h). */
module Mmu {
  import opened Bits

  const FREE_STR: word := 0xdeadbeef
  const PGSIZE: int := 4096
  const PTE_P: nat := 1
  const PTE_W: nat := 2
  const PTE_U: nat := 4

  const KERNBASE: word := 0x80000000
  const EXTMEM: word := 0x100000
  const KERNLINK: word := 0x80100000
  const PHYSTOP: word := 0xE000000
  const DEVSPACE: word := 0xFE000000

  const NFRAMES: nat := 57344     // PHYSTOP / PGSIZE
  const NPAGES: nat := 1048576    // pages of the 32-bit address space

  function PgRoundDown(a: word): (r: word)
    ensures r % 4096 == 0
  {
    a - a % 4096
  }

  function PgRoundUp(a: word): word {
    PgRoundDown(Wrap(a + 4095))
  }

  /** PGROUNDUP gives the first page boundary at or after an address, and PGROUNDDOWN the
      last one at or before it. */
  lemma PageBounds(a: word)
    ensures a <= 0xFFFFF000 ==> PgRoundUp(a) % 4096 == 0 && a <= PgRoundUp(a) < a + 4096
    ensures PgRoundDown(a) % 4096 == 0 && PgRoundDown(a) <= a < PgRoundDown(a) + 4096
  {
  }

  function V2P(a: word): word {
    Wrap(a - KERNBASE)
  }

  function P2V(a: word): word {
    Wrap(a + KERNBASE)
  }

  function Pdx(va: word): nat {
    va / 0x400000 % 1024
  }

  function Ptx(va: word): nat {
    va / 0x1000 % 1024
  }

  function PteAddr(e: word): word {
    e - e % 4096
  }

  function PteFlags(e: word): nat {
    e % 4096
  }

  predicate Present(e: word) {
    e % 2 == 1
  }

  predicate Writable(e: word) {
    e / 2 % 2 == 1
  }

  predicate User(e: word) {
    e / 4 % 2 == 1
  }

  /** `pa | perm | PTE_P`, the value stored for a mapped page. */
  function MakePte(pa: word, perm: word): (e: word)
    ensures Present(e)
  {
    PteBound(pa, perm);
    BitOr(BitOr(pa, perm), PTE_P)
  }

  lemma PteBound(pa: word, perm: word)
    ensures BitOr(BitOr(pa, perm), PTE_P) < 0x1_0000_0000
    ensures BitOr(BitOr(pa, perm), PTE_P) % 2 == 1
  {
    PowersOfTwo();
    assert PTE_P == 1;
    hide *;
    BitOrBound(pa, perm, 32);
    var x := BitOr(pa, perm);
    BitOrOne(x);
    BitOrBound(x, PTE_P, 32);
  }

  lemma PowersOfTwo()
    ensures Pow2(12) == 4096 && Pow2(32) == 0x1_0000_0000
  {
    assert Pow2(4) == 16;
    assert Pow2(8) == 256;
    assert Pow2(12) == 4096;
    assert Pow2(16) == 65536;
    assert Pow2(20) == 1048576;
    assert Pow2(24) == 16777216;
    assert Pow2(28) == 268435456;
  }

  lemma MakePteSum(pa: word, perm: word)
    requires pa % 4096 == 0 && perm < 4096
    ensures MakePte(pa, perm) == pa + (perm - perm % 2 + 1)
  {
    PowersOfTwo();
    var q := pa / 4096;
    assert pa == q * Pow2(12);
    BitOrDisjoint(pa, q, 12, perm);
    BitOrOne(pa + perm);
    DivideSum(2048 * q, perm, 2);
  }

  /** An entry for an aligned frame keeps the frame address and the requested
      permission bits apart. */
  lemma MakePteFields(pa: word, perm: word)
    requires pa % 4096 == 0 && perm < 4096
    ensures PteAddr(MakePte(pa, perm)) == pa
    ensures PteFlags(MakePte(pa, perm)) == perm - perm % 2 + 1
    ensures Writable(MakePte(pa, perm)) <==> perm / 2 % 2 == 1
    ensures User(MakePte(pa, perm)) <==> perm / 4 % 2 == 1
  {
    MakePteSum(pa, perm);
    SplitFields(pa / 4096, perm - perm % 2 + 1);
    assert (perm - perm % 2 + 1) / 2 == perm / 2;
  }

  /** Adding a multiple of d shifts a quotient and keeps the remainder. */
  lemma DivideSum(m: int, f: int, d: int)
    requires d > 0
    ensures (m * d + f) / d == m + f / d && (m * d + f) % d == f % d
  {
    var k, r := f / d, f % d;
    assert m * d + f == (m + k) * d + r by { assert (m + k) * d == m * d + k * d; }
    QuotientUnique(m * d + f, d, m + k, r);
  }

  lemma QuotientUnique(x: int, d: int, q: int, r: int)
    requires d > 0 && x == q * d + r && 0 <= r < d
    ensures x / d == q && x % d == r
  {
    var q', r' := x / d, x % d;
    assert x == q' * d + r';
    var t := q' - q;
    assert t * d == q' * d - q * d == r - r';
    assert t >= 1 ==> t * d >= d;
    assert t <= -1 ==> t * d <= -d;
  }

  lemma SplitFields(q: nat, f: nat)
    requires f < 4096
    ensures (4096 * q + f) % 4096 == f
    ensures (4096 * q + f) / 2 % 2 == f / 2 % 2
    ensures (4096 * q + f) / 4 % 2 == f / 4 % 2
  {
    DivideSum(q, f, 4096);
    DivideSum(2048 * q, f, 2);
    DivideSum(1024 * q, f / 2, 2);
    DivideSum(1024 * q, f, 4);
    DivideSum(512 * q, f / 4, 2);
  }

  /** The direct map: frame f of RAM is seen by the kernel at this address. */
  function PageAddr(f: nat): word
    requires f < NFRAMES
  {
    KERNBASE + 4096 * f
  }

  /** A pointer into the kernel's direct map of RAM. */
  predicate InRam(a: word) {
    KERNBASE <= a < KERNBASE + PHYSTOP
  }

  function FrameOf(a: word): (f: nat)
    requires InRam(a)
    ensures f < NFRAMES
  {
    V2P(a) / 4096
  }

  lemma PageAddrInverse(f: nat)
    requires f < NFRAMES
    ensures InRam(PageAddr(f)) && FrameOf(PageAddr(f)) == f && PageAddr(f) % 4096 == 0
    ensures V2P(PageAddr(f)) == 4096 * f && P2V(4096 * f) == PageAddr(f)
  {
  }

  /** A page address is determined by its directory and table index. */
  lemma IndexPair(va: word)
    ensures Pdx(va) * 1024 + Ptx(va) == va / 4096
    ensures Pdx(va) == va / 4096 / 1024 && Ptx(va) == va / 4096 % 1024
  {
  }

  /** `V2P(pgtab) | PTE_P | PTE_W | PTE_U`, the value stored for a new table. */
  function MakePde(pa: word): (e: word)
    ensures pa % 4096 == 0 ==> e == pa + 7
  {
    PdeBound(pa);
    PdeBits(pa);
    BitOr(BitOr(BitOr(pa, PTE_P), PTE_W), PTE_U)
  }

  lemma PdeBound(pa: word)
    ensures BitOr(BitOr(BitOr(pa, PTE_P), PTE_W), PTE_U) < 0x1_0000_0000
  {
    PowersOfTwo();
    assert PTE_P == 1 && PTE_W == 2 && PTE_U == 4;
    hide *;
    BitOrBound(pa, PTE_P, 32);
    var x := BitOr(pa, PTE_P);
    BitOrBound(x, PTE_W, 32);
    BitOrBound(BitOr(x, PTE_W), PTE_U, 32);
  }

  lemma PdeBits(pa: word)
    ensures pa % 4096 == 0 ==> BitOr(BitOr(BitOr(pa, PTE_P), PTE_W), PTE_U) == pa + 7
  {
    if pa % 4096 == 0 {
      var r := pa / 4096;
      BitOrOne(pa);
      BitOrOne(2048 * r);
      BitOrOne(1024 * r);
      assert (pa + 1) / 2 == 2048 * r && (pa + 3) / 2 == 2048 * r + 1 && (2048 * r + 1) / 2 == 1024 * r;
      assert BitOr(pa + 1, 2) == 2 * BitOr(2048 * r, 1) + 1;
      assert BitOr(2048 * r + 1, 2) == 2 * BitOr(1024 * r, 1) + 1;
      assert BitOr(pa + 3, 4) == 2 * BitOr(2048 * r + 1, 2) + 1;
    }
  }

  /** Wrapping a summand early does not change the wrapped sum. */
  lemma WrapAdd(a: int, b: int)
    ensures Wrap(a + Wrap(b)) == Wrap(a + b)
  {
    var q := b / WORD_LIMIT;
    assert b == q * WORD_LIMIT + Wrap(b);
    DivideSum(q, a + Wrap(b), WORD_LIMIT);
  }
}
