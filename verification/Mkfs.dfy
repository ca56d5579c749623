/** The file-system builder (tools/mkfs.c): inode table, block allocation and
    iappend on a disk of 1000 blocks. */
module Mkfs {
  import opened Options
  import opened Bits
  import opened FsLayout

  const INODES_NUM: nat := 200
  const INODE_START: nat := 32
  const INODE_BLOCKS: nat := 26
  const BMAP_START: nat := 58
  const META_NUM: nat := 59
  const INODE_SLOTS: nat := 208   // inodes that fit into the inode blocks

  /** The constants are what the formulas of the sources give. */
  lemma LayoutNumbers()
    ensures INDIRECT_NUM == B_SIZE / 4 && MAX_FILE == DIRECT_NUM + INDIRECT_NUM && IPB == B_SIZE / 64
      && BPB == B_SIZE * 8
    ensures INODE_START == 2 + LOG_SIZE && INODE_BLOCKS == INODES_NUM / IPB + 1
    ensures BMAP_START == INODE_START + INODE_BLOCKS && META_NUM == BMAP_START + FS_SIZE / BPB + 1
    ensures INODE_SLOTS == IPB * INODE_BLOCKS
  {
  }

  /** The disk image and the two allocation counters. */
  datatype Fs = Fs(disk: seq<Block>, freeinode: word, freeblock: word)

  predicate Shape(fs: Fs) {
    |fs.disk| == FS_SIZE
  }

  /* ---- what the C functions compute ---- */

  /** rsect; past the end of the disk the model reads zeros. The method below
      reads a real array and so proves that this does not happen. */
  function Rsect(disk: seq<Block>, b: nat): Block {
    if b < |disk| then disk[b] else ZeroBlock()
  }

  function Wsect(disk: seq<Block>, b: nat, buf: Block): (r: seq<Block>)
    ensures |r| == |disk|
  {
    if b < |disk| then disk[b := buf] else disk
  }

  function IBlock(inum: nat): nat {
    inum / IPB + INODE_START
  }

  function Rinode(disk: seq<Block>, inum: nat): Inode {
    GetInode(Rsect(disk, IBlock(inum)), inum % IPB)
  }

  function Winode(disk: seq<Block>, inum: nat, d: Inode): (r: seq<Block>)
    ensures |r| == |disk|
  {
    Wsect(disk, IBlock(inum), PutInode(Rsect(disk, IBlock(inum)), inum % IPB, d))
  }

  /** ialloc: the next inode number, with a fresh inode written. */
  function Ialloc(fs: Fs, kind: half): Fs {
    Fs(Winode(fs.disk, fs.freeinode, Dinode(kind, 0, 0, 1, 0, BlankInode().addrs)), Wrap(fs.freeinode + 1),
        fs.freeblock)
  }

  /** The state of the loop of iappend: the disk, the counters, and the copy of
      inode inum in memory, whose size field plays the role of `off`. */
  datatype Work = Work(fs: Fs, inum: nat, din: Inode)

  function TakeAddr(w: Work, a: nat): Work
    requires a < 13
  {
    if w.din.addrs[a] == 0 then
      Work(Fs(w.fs.disk, w.fs.freeinode, Wrap(w.fs.freeblock + 1)), w.inum, SetAddr(w.din, a, w.fs.freeblock))
    else w
  }

  function SetAddr(d: Inode, a: nat, x: word): Inode
    requires a < 13
  {
    Dinode(d.kind, d.major, d.minor, d.nlink, d.size, d.addrs[a := x])
  }

  function SetSize(d: Inode, n: word): Inode {
    Dinode(d.kind, d.major, d.minor, d.nlink, n, d.addrs)
  }

  /** An entry of the indirect block. */
  function TakeEntry(w: Work, j: nat): Work
    requires j < 128
  {
    var ib := w.din.addrs[12];
    if GetPtr(Rsect(w.fs.disk, ib), j) == 0 then
      Work(Fs(Wsect(w.fs.disk, ib, PutPtr(Rsect(w.fs.disk, ib), j, w.fs.freeblock)), w.fs.freeinode,
          Wrap(w.fs.freeblock + 1)), w.inum, w.din)
    else w
  }

  /** Make sure that file block fbn has a disk block. */
  function TakeBlock(w: Work, fbn: nat): Work
    requires fbn < MAX_FILE
  {
    if fbn < DIRECT_NUM then TakeAddr(w, fbn) else TakeEntry(TakeAddr(w, DIRECT_NUM), fbn - DIRECT_NUM)
  }

  /** The disk block of file block fbn. */
  function AddrOf(disk: seq<Block>, d: Inode, fbn: nat): word
    requires fbn < MAX_FILE
  {
    if fbn < DIRECT_NUM then d.addrs[fbn]
    else if d.addrs[DIRECT_NUM] == 0 then 0
    else GetPtr(Rsect(disk, d.addrs[DIRECT_NUM]), fbn - DIRECT_NUM)
  }

  /** How much of n bytes the block at offset `off` still takes. */
  function Room(off: nat, n: nat): (n1: nat)
    requires n > 0
    ensures 0 < n1 <= n && n1 <= 512 - off % 512
  {
    if n < 512 - off % 512 then n else 512 - off % 512
  }

  /** One iteration of the loop of iappend. */
  function AppendPiece(w: Work, p: seq<byte>): Work
    requires w.din.size / 512 < MAX_FILE && |p| <= 512 - w.din.size % 512
  {
    var w1 := TakeBlock(w, w.din.size / 512);
    var x := AddrOf(w1.fs.disk, w1.din, w.din.size / 512);
    var buf := Splice(Rsect(w1.fs.disk, x), w.din.size % 512, p);
    Work(Fs(Wsect(w1.fs.disk, x, buf), w1.fs.freeinode, w1.fs.freeblock), w1.inum,
        SetSize(w1.din, Wrap(w.din.size + |p|)))
  }

  /** The loop: none when its assertion on the file size fails. */
  function AppendLoop(w: Work, xp: seq<byte>): Option<Work>
    decreases |xp|
  {
    if xp == [] then Some(w)
    else if w.din.size / 512 >= MAX_FILE then None
    else
      var n1 := Room(w.din.size, |xp|);
      AppendLoop(AppendPiece(w, xp[..n1]), xp[n1..])
  }

  function Iappend(fs: Fs, inum: nat, xp: seq<byte>): Option<Fs> {
    match AppendLoop(Open(fs, inum), xp)
    case None => None
    case Some(w) => Some(Flush(w))
  }

  /** rinode at the start of iappend. */
  function Open(fs: Fs, inum: nat): Work {
    Work(fs, inum, Rinode(fs.disk, inum))
  }

  /** winode at the end of iappend. */
  function Flush(w: Work): Fs {
    Fs(Winode(w.fs.disk, w.inum, w.din), w.fs.freeinode, w.fs.freeblock)
  }

  /** Inode j, taking the copy in memory for the one being worked on. */
  function InodeOf(w: Work, j: nat): Inode {
    if j == w.inum then w.din else Rinode(w.fs.disk, j)
  }

  /* ---- inode table laws ---- */

  lemma WinodeLaws(disk: seq<Block>, i: nat, d: Inode)
    requires |disk| == FS_SIZE && i < INODE_SLOTS
    ensures forall j :: 0 <= j < INODE_SLOTS ==> Rinode(Winode(disk, i, d), j) == if j == i then d else Rinode(disk, j)
    ensures forall b :: 0 <= b < FS_SIZE && !(INODE_START <= b < BMAP_START) ==> Winode(disk, i, d)[b] == disk[b]
  {
    forall j | 0 <= j < INODE_SLOTS ensures Rinode(Winode(disk, i, d), j) == if j == i then d else Rinode(disk, j) {
      GetPutInode(disk[IBlock(i)], i % 8, d, j % 8);
    }
  }

  lemma WinodeTwice(disk: seq<Block>, i: nat, d: Inode, d': Inode)
    requires |disk| == FS_SIZE && i < INODE_SLOTS
    ensures Winode(Winode(disk, i, d), i, d') == Winode(disk, i, d')
  {
    PutPutInode(disk[IBlock(i)], i % 8, d, d');
  }

  lemma WinodeSame(disk: seq<Block>, i: nat)
    requires |disk| == FS_SIZE && i < INODE_SLOTS
    ensures Winode(disk, i, Rinode(disk, i)) == disk
  {
    PutGetInode(disk[IBlock(i)], i % 8);
  }

  /** A write outside the inode blocks commutes with winode. */
  lemma WinodeCommutes(disk: seq<Block>, i: nat, d: Inode, b: nat, buf: Block)
    requires |disk| == FS_SIZE && i < INODE_SLOTS && META_NUM <= b
    ensures Winode(Wsect(disk, b, buf), i, d) == Wsect(Winode(disk, i, d), b, buf)
    ensures Rinode(Wsect(disk, b, buf), i) == Rinode(disk, i)
  {
  }

  /* ---- ownership of data blocks ---- */

  /** A place that refers to a block: data block k < 140 of an inode, or its
      indirect block (k == 140). */
  datatype Slot = Slot(ino: nat, k: nat)

  predicate IsSlot(s: Slot) {
    s.ino < INODE_SLOTS && s.k <= 140
  }

  function SlotOf(disk: seq<Block>, d: Inode, k: nat): word
    requires k <= 140
  {
    if k == 140 then d.addrs[12] else AddrOf(disk, d, k)
  }

  function SlotPtr(w: Work, s: Slot): word
    requires IsSlot(s)
  {
    SlotOf(w.fs.disk, InodeOf(w, s.ino), s.k)
  }

  /** Every block from META_NUM up to freeblock is referred to by exactly one
      slot of exactly one inode (own says which), slots refer to no other block,
      and blocks from freeblock on are zero. */
  ghost predicate Owned(w: Work, own: seq<Slot>) {
    && Shape(w.fs) && w.inum < INODE_SLOTS
    && META_NUM <= w.fs.freeblock <= FS_SIZE && |own| == w.fs.freeblock - META_NUM
    && (forall s :: IsSlot(s) && SlotPtr(w, s) != 0 ==> OwnedBy(SlotPtr(w, s), s, w.fs.freeblock, own))
    && (forall b :: 0 <= b < |own| ==> IsSlot(own[b]) && SlotPtr(w, own[b]) == META_NUM + b)
    && (forall b :: w.fs.freeblock <= b < FS_SIZE ==> w.fs.disk[b] == ZeroBlock())
  }

  predicate OwnedBy(b: word, s: Slot, freeblock: word, own: seq<Slot>) {
    META_NUM <= b < freeblock && b - META_NUM < |own| && own[b - META_NUM] == s
  }

  function Blocks(n: nat): nat {
    (n + 511) / 512
  }

  /** Which slots of a file of n bytes are in use. */
  predicate Uses(n: nat, k: nat) {
    if k == 140 then Blocks(n) > 12 else k < Blocks(n)
  }

  ghost predicate Sized(w: Work) {
    && (forall j :: 0 <= j < INODE_SLOTS ==> InodeOf(w, j).size <= MAX_FILE * 512)
    && (forall s :: IsSlot(s) ==> (SlotPtr(w, s) != 0 <==> Uses(InodeOf(w, s.ino).size, s.k)))
  }

  /** Past its last byte, the last block of every file is zero. */
  ghost predicate TailZero(w: Work) {
    forall i, j :: 0 <= i < INODE_SLOTS && 0 <= j < 512 ==> TailByteZero(w, i, j)
  }

  predicate TailByteZero(w: Work, i: nat, j: nat)
    requires i < INODE_SLOTS && j < 512
  {
    var n := InodeOf(w, i).size;
    0 < n % 512 <= j && n / 512 < MAX_FILE ==> Rsect(w.fs.disk, SlotPtr(w, Slot(i, n / 512)))[j] == 0
  }

  ghost predicate FsInv(w: Work, own: seq<Slot>) {
    Owned(w, own) && Sized(w) && TailZero(w)
  }

  /** The byte at offset k of a file, through its pointers. */
  function FileByte(w: Work, i: nat, k: nat): byte
    requires i < INODE_SLOTS && k < MAX_FILE * 512
  {
    Rsect(w.fs.disk, SlotPtr(w, Slot(i, k / 512)))[k % 512]
  }

  /** The contents of a file. */
  function Contents(w: Work, i: nat): (s: seq<byte>)
    requires i < INODE_SLOTS && InodeOf(w, i).size <= MAX_FILE * 512
    ensures |s| == InodeOf(w, i).size
  {
    seq(InodeOf(w, i).size, k requires 0 <= k < InodeOf(w, i).size => FileByte(w, i, k))
  }

  /* ---- the steps of an allocation ---- */

  /** A pointer was entered for one slot; all others are as before. */
  ghost predicate Entered(w: Work, w': Work, s0: Slot) {
    && IsSlot(s0) && Shape(w.fs) && Shape(w'.fs) && w'.inum == w.inum
    && w'.fs.freeinode == w.fs.freeinode
    && (forall s :: IsSlot(s) ==> SlotPtr(w', s) == if s == s0 then w.fs.freeblock else SlotPtr(w, s))
    && (forall j :: 0 <= j < INODE_SLOTS && j != w.inum ==> InodeOf(w', j) == InodeOf(w, j))
    && SameBut(w.din, w'.din) && w'.din.size == w.din.size
  }

  /** Two inodes that differ at most in their size and addresses. */
  predicate SameBut(d: Inode, d': Inode) {
    d'.kind == d.kind && d'.major == d.major && d'.minor == d.minor && d'.nlink == d.nlink
  }

  lemma OwnExtend(w: Work, w': Work, own: seq<Slot>, s0: Slot)
    requires Owned(w, own) && Entered(w, w', s0) && SlotPtr(w, s0) == 0
    requires w.fs.freeblock < FS_SIZE && w'.fs.freeblock == w.fs.freeblock + 1
    requires forall b :: w'.fs.freeblock <= b < FS_SIZE ==> w'.fs.disk[b] == w.fs.disk[b]
    ensures Owned(w', own + [s0])
  {
    var own' := own + [s0];
    forall s | IsSlot(s) && SlotPtr(w', s) != 0 ensures OwnedBy(SlotPtr(w', s), s, w'.fs.freeblock, own') {
      if s != s0 {
        assert OwnedBy(SlotPtr(w, s), s, w.fs.freeblock, own);
      }
    }
    forall b | 0 <= b < |own'| ensures IsSlot(own'[b]) && SlotPtr(w', own'[b]) == META_NUM + b {
      if b < |own| {
        assert own'[b] == own[b] && SlotPtr(w, own[b]) == META_NUM + b;
        assert own[b] != s0;
      }
    }
  }

  lemma TakeAddrPtr(w: Work, a: nat, s: Slot)
    requires Shape(w.fs) && a < 13 && w.din.addrs[a] == 0 && IsSlot(s)
    requires META_NUM <= w.fs.freeblock < FS_SIZE && w.fs.disk[w.fs.freeblock] == ZeroBlock()
    ensures SlotPtr(TakeAddr(w, a), s) ==
      if s == Slot(w.inum, if a == 12 then 140 else a) then w.fs.freeblock else SlotPtr(w, s)
  {
    hide GetPtr, Rinode;
    if s.ino == w.inum && 12 <= s.k < 140 && a == 12 {
      ZeroPtr(s.k - 12);
    }
  }

  /** Giving address a of the inode in memory a new block. */
  lemma TakeAddrStep(w: Work, own: seq<Slot>, a: nat)
    requires Owned(w, own) && a < 13 && w.din.addrs[a] == 0 && w.fs.freeblock < FS_SIZE
    ensures
      var w', s0 := TakeAddr(w, a), Slot(w.inum, if a == 12 then 140 else a);
      && Entered(w, w', s0) && SlotPtr(w, s0) == 0 && Owned(w', own + [s0])
      && w'.fs.disk == w.fs.disk && w'.fs.freeblock == w.fs.freeblock + 1
  {
    var w', s0 := TakeAddr(w, a), Slot(w.inum, if a == 12 then 140 else a);
    assert w'.fs.disk == w.fs.disk && w'.fs.freeblock == w.fs.freeblock + 1;
    assert SlotPtr(w, s0) == 0;
    assert forall j :: 0 <= j < INODE_SLOTS && j != w.inum ==> InodeOf(w', j) == InodeOf(w, j);
    hide SlotPtr, InodeOf;
    forall s | IsSlot(s) ensures SlotPtr(w', s) == if s == s0 then w.fs.freeblock else SlotPtr(w, s) {
      TakeAddrPtr(w, a, s);
    }
    OwnExtend(w, w', own, s0);
  }

  /** An indirect block belongs to one inode only. */
  lemma IndirectOwner(w: Work, own: seq<Slot>, i: nat, s: Slot)
    requires Owned(w, own) && i < INODE_SLOTS && IsSlot(s) && InodeOf(w, i).addrs[12] != 0
    requires SlotPtr(w, s) == InodeOf(w, i).addrs[12]
    ensures s == Slot(i, 140)
    ensures META_NUM <= InodeOf(w, i).addrs[12] < w.fs.freeblock
  {
    assert SlotPtr(w, Slot(i, 140)) == InodeOf(w, i).addrs[12];
    assert OwnedBy(SlotPtr(w, s), s, w.fs.freeblock, own);
    assert OwnedBy(SlotPtr(w, Slot(i, 140)), Slot(i, 140), w.fs.freeblock, own);
  }

  lemma TakeEntryPtr(w: Work, own: seq<Slot>, j: nat, s: Slot)
    requires Owned(w, own) && j < 128 && w.din.addrs[12] != 0 && IsSlot(s)
    requires SlotPtr(w, Slot(w.inum, 12 + j)) == 0
    ensures SlotPtr(TakeEntry(w, j), s) == if s == Slot(w.inum, 12 + j) then w.fs.freeblock else SlotPtr(w, s)
  {
    var ib := w.din.addrs[12];
    IndirectOwner(w, own, w.inum, Slot(w.inum, 140));
    var d := InodeOf(w, s.ino);
    assert d.addrs[12] == ib ==> s.ino == w.inum by {
      if d.addrs[12] == ib {
        IndirectOwner(w, own, w.inum, Slot(s.ino, 140));
      }
    }
    if s.ino == w.inum && 12 <= s.k < 140 {
      GetPutPtr(w.fs.disk[ib], j, w.fs.freeblock, s.k - 12);
    }
    hide Owned, GetPtr, PutPtr, GetInode;
    assert InodeOf(TakeEntry(w, j), s.ino) == d;
  }

  /** Giving entry j of the indirect block a new block. */
  lemma TakeEntryStep(w: Work, own: seq<Slot>, j: nat)
    requires Owned(w, own) && j < 128 && w.din.addrs[12] != 0 && w.fs.freeblock < FS_SIZE
    requires SlotPtr(w, Slot(w.inum, 12 + j)) == 0
    ensures
      var w', s0 := TakeEntry(w, j), Slot(w.inum, 12 + j);
      && Entered(w, w', s0) && Owned(w', own + [s0])
      && w'.fs.freeblock == w.fs.freeblock + 1 && META_NUM <= w.din.addrs[12] < FS_SIZE
      && (forall b :: 0 <= b < FS_SIZE && b != w.din.addrs[12] ==> w'.fs.disk[b] == w.fs.disk[b])
      && w'.din == w.din
  {
    var w', s0 := TakeEntry(w, j), Slot(w.inum, 12 + j);
    IndirectOwner(w, own, w.inum, Slot(w.inum, 140));
    TakeEntryDisk(w, j);
    hide SlotPtr, InodeOf, PutPtr, TakeEntry, Rinode;
    forall s | IsSlot(s) ensures SlotPtr(w', s) == if s == s0 then w.fs.freeblock else SlotPtr(w, s) {
      TakeEntryPtr(w, own, j, s);
    }
    OwnExtend(w, w', own, s0);
  }

  lemma TakeEntryDisk(w: Work, j: nat)
    requires Shape(w.fs) && j < 128 && META_NUM <= w.din.addrs[12] < FS_SIZE && w.fs.freeblock < FS_SIZE
    requires w.inum < INODE_SLOTS && SlotPtr(w, Slot(w.inum, 12 + j)) == 0
    ensures
      var w', ib := TakeEntry(w, j), w.din.addrs[12];
      && w'.fs.disk == w.fs.disk[ib := PutPtr(w.fs.disk[ib], j, w.fs.freeblock)]
      && w'.fs.freeblock == w.fs.freeblock + 1 && w'.fs.freeinode == w.fs.freeinode && w'.inum == w.inum
      && w'.din == w.din
      && (forall i :: 0 <= i < INODE_SLOTS ==> InodeOf(w', i) == InodeOf(w, i))
  {
    hide GetPtr, PutPtr;
    var w' := TakeEntry(w, j);
    assert w'.fs.disk == w.fs.disk[w.din.addrs[12] := PutPtr(w.fs.disk[w.din.addrs[12]], j, w.fs.freeblock)];
    DataWriteInodes(w, w');
  }

  /** Disk writes past the metadata leave all inodes alone. */
  lemma DataWriteInodes(w: Work, w': Work)
    requires Shape(w.fs) && Shape(w'.fs) && w'.inum == w.inum && w'.din == w.din
    requires forall b :: 0 <= b < META_NUM ==> w'.fs.disk[b] == w.fs.disk[b]
    ensures forall i :: 0 <= i < INODE_SLOTS ==> InodeOf(w', i) == InodeOf(w, i)
  {
    hide GetInode;
    forall i | 0 <= i < INODE_SLOTS ensures InodeOf(w', i) == InodeOf(w, i) {
      assert IBlock(i) < META_NUM;
    }
  }

  /** The number of blocks that file block fbn still needs, with its indirect block. */
  function Needed(w: Work, fbn: nat): nat
    requires fbn < MAX_FILE && w.inum < INODE_SLOTS
  {
    if SlotPtr(w, Slot(w.inum, fbn)) != 0 then 0
    else if fbn >= 12 && w.din.addrs[12] == 0 then 2
    else 1
  }

  /** File block fbn has its block now; no other pointer has changed, except that
      the indirect block may have been added. */
  ghost predicate ReadyPtrs(w: Work, w1: Work, fbn: nat)
    requires fbn < MAX_FILE && w.inum < INODE_SLOTS
  {
    && w1.inum == w.inum && w1.fs.freeinode == w.fs.freeinode
    && (forall j :: 0 <= j < INODE_SLOTS && j != w.inum ==> InodeOf(w1, j) == InodeOf(w, j))
    && SameBut(w.din, w1.din) && w1.din.size == w.din.size
    && SlotPtr(w1, Slot(w.inum, fbn)) != 0
    && (SlotPtr(w, Slot(w.inum, fbn)) != 0 ==> SlotPtr(w1, Slot(w.inum, fbn)) == SlotPtr(w, Slot(w.inum, fbn)))
    && (forall s :: IsSlot(s) && s != Slot(w.inum, fbn) && s != Slot(w.inum, 140) ==> SlotPtr(w1, s) == SlotPtr(w, s))
    && (SlotPtr(w1, Slot(w.inum, 140)) != 0 <==> SlotPtr(w, Slot(w.inum, 140)) != 0 || fbn >= 12)
    && w1.fs.freeblock == w.fs.freeblock + Needed(w, fbn)
  }

  /** The data of existing blocks is untouched, and a new block is zero. */
  ghost predicate ReadyData(w: Work, w1: Work, fbn: nat)
    requires fbn < MAX_FILE && w.inum < INODE_SLOTS
  {
    && Shape(w.fs) && Shape(w1.fs)
    && (forall s :: IsSlot(s) && s.k < 140 && SlotPtr(w, s) != 0 ==>
          Rsect(w1.fs.disk, SlotPtr(w, s)) == Rsect(w.fs.disk, SlotPtr(w, s)))
    && (SlotPtr(w, Slot(w.inum, fbn)) == 0 ==> Rsect(w1.fs.disk, SlotPtr(w1, Slot(w.inum, fbn))) == ZeroBlock())
    && (forall b :: 0 <= b < META_NUM ==> w1.fs.disk[b] == w.fs.disk[b])
  }

  ghost predicate Ready(w: Work, w1: Work, fbn: nat)
    requires fbn < MAX_FILE && w.inum < INODE_SLOTS
  {
    ReadyPtrs(w, w1, fbn) && ReadyData(w, w1, fbn)
  }

  /** The four situations in which file block fbn can be. */
  lemma TakeBlockCases(w: Work, fbn: nat)
    requires fbn < MAX_FILE && w.inum < INODE_SLOTS
    ensures SlotPtr(w, Slot(w.inum, fbn)) != 0 ==> TakeBlock(w, fbn) == w && Needed(w, fbn) == 0
    ensures SlotPtr(w, Slot(w.inum, fbn)) == 0 && fbn < 12 ==>
      w.din.addrs[fbn] == 0 && TakeBlock(w, fbn) == TakeAddr(w, fbn) && Needed(w, fbn) == 1
    ensures SlotPtr(w, Slot(w.inum, fbn)) == 0 && fbn >= 12 && w.din.addrs[12] != 0 ==>
      TakeBlock(w, fbn) == TakeEntry(w, fbn - 12) && Needed(w, fbn) == 1
    ensures fbn >= 12 && w.din.addrs[12] == 0 ==>
      && TakeBlock(w, fbn) == TakeEntry(TakeAddr(w, 12), fbn - 12) && Needed(w, fbn) == 2
      && TakeAddr(w, 12).din.addrs[12] == w.fs.freeblock && TakeAddr(w, 12).inum == w.inum
      && SlotPtr(w, Slot(w.inum, fbn)) == 0 && SlotPtr(w, Slot(w.inum, 140)) == 0
  {
    hide GetPtr, PutPtr, Wsect;
  }

  lemma TakeBlockStep(w: Work, own: seq<Slot>, fbn: nat) returns (own1: seq<Slot>)
    requires Owned(w, own) && fbn < MAX_FILE && w.inum < INODE_SLOTS
    requires w.fs.freeblock + Needed(w, fbn) <= FS_SIZE
    ensures Owned(TakeBlock(w, fbn), own1) && Ready(w, TakeBlock(w, fbn), fbn)
    ensures own <= own1
  {
    var s0 := Slot(w.inum, fbn);
    TakeBlockCases(w, fbn);
    hide *;
    if SlotPtr(w, s0) != 0 {
      own1 := own;
      AlreadyReady(w, own, fbn);
    } else if fbn < 12 {
      TakeAddrStep(w, own, fbn);
      own1 := own + [s0];
      AddrReady(w, TakeAddr(w, fbn), own, fbn);
    } else if w.din.addrs[12] != 0 {
      TakeEntryStep(w, own, fbn - 12);
      own1 := own + [s0];
      EntryReady(w, TakeEntry(w, fbn - 12), own, fbn);
    } else {
      own1 := TakeBoth(w, own, fbn);
    }
  }

  /** The first block past the direct ones: the indirect block comes with it. */
  lemma TakeBoth(w: Work, own: seq<Slot>, fbn: nat) returns (own1: seq<Slot>)
    requires Owned(w, own) && 12 <= fbn < MAX_FILE && w.inum < INODE_SLOTS && w.din.addrs[12] == 0
    requires w.fs.freeblock + Needed(w, fbn) <= FS_SIZE
    ensures Owned(TakeBlock(w, fbn), own1) && Ready(w, TakeBlock(w, fbn), fbn) && own <= own1
  {
    assert fbn < 140 && META_NUM == 59 && FS_SIZE == 1000;
    assert IsSlot(Slot(w.inum, fbn));
    hide *;
    TakeBlockCases(w, fbn);
    OwnedBounds(w, own);
    TakeAddrStep(w, own, 12);
    var w1 := TakeAddr(w, 12);
    EnteredAt(w, w1, Slot(w.inum, 140), Slot(w.inum, fbn));
    own1 := TakeSecond(w, w1, own, own + [Slot(w.inum, 140)], fbn);
  }

  lemma TakeSecond(w: Work, w1: Work, own: seq<Slot>, own': seq<Slot>, fbn: nat) returns (own1: seq<Slot>)
    requires Owned(w, own) && Owned(w1, own') && own <= own' && 12 <= fbn < MAX_FILE && w.inum < INODE_SLOTS
    requires Needed(w, fbn) == 2 && w.fs.freeblock + 2 <= FS_SIZE
    requires SlotPtr(w, Slot(w.inum, fbn)) == 0 && SlotPtr(w, Slot(w.inum, 140)) == 0
    requires Entered(w, w1, Slot(w.inum, 140)) && w1.fs.disk == w.fs.disk && w1.fs.freeblock == w.fs.freeblock + 1
    requires w1.din.addrs[12] == w.fs.freeblock && w1.inum == w.inum && SlotPtr(w1, Slot(w.inum, fbn)) == 0
    ensures Owned(TakeEntry(w1, fbn - 12), own1) && Ready(w, TakeEntry(w1, fbn - 12), fbn) && own <= own1
  {
    OwnedBounds(w, own);
    hide Owned, Entered, SlotPtr, Needed, TakeEntry, Ready, ReadyPtrs, ReadyData;
    TakeEntryStep(w1, own', fbn - 12);
    var w2 := TakeEntry(w1, fbn - 12);
    own1 := own' + [Slot(w.inum, fbn)];
    EnteredAt(w1, w2, Slot(w.inum, fbn), Slot(w.inum, fbn));
    BothReadyPtrs(w, w1, w2, fbn);
    BothReadyData(w, w1, w2, own, fbn);
    ReadyIntro(w, w2, fbn);
  }

  lemma OwnedBounds(w: Work, own: seq<Slot>)
    requires Owned(w, own)
    ensures Shape(w.fs) && w.inum < INODE_SLOTS && META_NUM <= w.fs.freeblock <= FS_SIZE
  {
  }

  lemma EnteredAt(w: Work, w': Work, s0: Slot, s: Slot)
    requires Entered(w, w', s0) && IsSlot(s)
    ensures SlotPtr(w', s) == (if s == s0 then w.fs.freeblock else SlotPtr(w, s))
    ensures w'.inum == w.inum && Shape(w'.fs) && Shape(w.fs)
  {
  }

  lemma ReadyIntro(w: Work, w1: Work, fbn: nat)
    requires fbn < MAX_FILE && w.inum < INODE_SLOTS && ReadyPtrs(w, w1, fbn) && ReadyData(w, w1, fbn)
    ensures Ready(w, w1, fbn)
  {
  }

  lemma AlreadyReady(w: Work, own: seq<Slot>, fbn: nat)
    requires Owned(w, own) && fbn < MAX_FILE && w.inum < INODE_SLOTS && SlotPtr(w, Slot(w.inum, fbn)) != 0
      && Needed(w, fbn) == 0
    ensures Ready(w, w, fbn)
  {
    assert fbn >= 12 ==> SlotPtr(w, Slot(w.inum, 140)) != 0;
    hide SlotPtr, InodeOf;
  }

  lemma AddrReady(w: Work, w1: Work, own: seq<Slot>, fbn: nat)
    requires Owned(w, own) && fbn < 12 && SlotPtr(w, Slot(w.inum, fbn)) == 0 && w.fs.freeblock < FS_SIZE
    requires Entered(w, w1, Slot(w.inum, fbn)) && w1.fs.disk == w.fs.disk && w1.fs.freeblock == w.fs.freeblock + 1
    ensures Ready(w, w1, fbn)
  {
    hide SlotPtr, InodeOf;
  }

  lemma EntryReady(w: Work, w1: Work, own: seq<Slot>, fbn: nat)
    requires Owned(w, own) && 12 <= fbn < MAX_FILE && SlotPtr(w, Slot(w.inum, fbn)) == 0 && w.din.addrs[12] != 0
    requires w.fs.freeblock < FS_SIZE && Entered(w, w1, Slot(w.inum, fbn)) && w1.fs.freeblock == w.fs.freeblock + 1
    requires META_NUM <= w.din.addrs[12] < FS_SIZE
    requires forall b :: 0 <= b < FS_SIZE && b != w.din.addrs[12] ==> w1.fs.disk[b] == w.fs.disk[b]
    ensures Ready(w, w1, fbn)
  {
    var ib := w.din.addrs[12];
    assert SlotPtr(w, Slot(w.inum, 140)) == ib;
    forall s | IsSlot(s) && s.k < 140 && SlotPtr(w, s) != 0
      ensures SlotPtr(w, s) != ib
    {
      if SlotPtr(w, s) == ib {
        IndirectOwner(w, own, w.inum, s);
      }
    }
    assert w.fs.freeblock != ib by {
      IndirectOwner(w, own, w.inum, Slot(w.inum, 140));
    }
    assert w.fs.disk[w.fs.freeblock] == ZeroBlock();
    hide *;
    EntryReadyPtrs(w, w1, fbn);
    EntryReadyData(w, w1, fbn, ib);
    ReadyIntro(w, w1, fbn);
  }

  lemma EntryReadyPtrs(w: Work, w1: Work, fbn: nat)
    requires 12 <= fbn < MAX_FILE && w.inum < INODE_SLOTS && SlotPtr(w, Slot(w.inum, fbn)) == 0 && w.din.addrs[12] != 0
    requires SlotPtr(w, Slot(w.inum, 140)) == w.din.addrs[12] && w.fs.freeblock >= META_NUM
    requires Entered(w, w1, Slot(w.inum, fbn)) && w1.fs.freeblock == w.fs.freeblock + 1
    ensures ReadyPtrs(w, w1, fbn)
  {
    hide SlotPtr, InodeOf;
  }

  lemma EntryReadyData(w: Work, w1: Work, fbn: nat, ib: word)
    requires fbn < MAX_FILE && w.inum < INODE_SLOTS && META_NUM <= ib && w.fs.freeblock != ib
      && w.fs.freeblock < FS_SIZE
    requires Shape(w.fs) && Shape(w1.fs) && w.fs.disk[w.fs.freeblock] == ZeroBlock()
    requires SlotPtr(w1, Slot(w.inum, fbn)) == w.fs.freeblock
    requires forall b :: 0 <= b < FS_SIZE && b != ib ==> w1.fs.disk[b] == w.fs.disk[b]
    requires forall s :: IsSlot(s) && s.k < 140 && SlotPtr(w, s) != 0 ==> SlotPtr(w, s) != ib
    ensures ReadyData(w, w1, fbn)
  {
    hide SlotPtr, InodeOf;
  }

  lemma BothReadyPtrs(w: Work, w1: Work, w2: Work, fbn: nat)
    requires 12 <= fbn < MAX_FILE && w.inum < INODE_SLOTS && Needed(w, fbn) == 2 && w.fs.freeblock >= META_NUM
    requires SlotPtr(w, Slot(w.inum, fbn)) == 0 && SlotPtr(w, Slot(w.inum, 140)) == 0
    requires Entered(w, w1, Slot(w.inum, 140)) && w1.fs.freeblock == w.fs.freeblock + 1
    requires Entered(w1, w2, Slot(w.inum, fbn)) && w2.fs.freeblock == w1.fs.freeblock + 1
    ensures ReadyPtrs(w, w2, fbn)
  {
    hide SlotPtr, InodeOf, Needed;
  }

  lemma BothReadyData(w: Work, w1: Work, w2: Work, own: seq<Slot>, fbn: nat)
    requires Owned(w, own) && 12 <= fbn < MAX_FILE && w.inum < INODE_SLOTS && SlotPtr(w, Slot(w.inum, fbn)) == 0
    requires w1.din.addrs[12] == w.fs.freeblock && w.fs.freeblock + 2 <= FS_SIZE
    requires Shape(w2.fs) && w1.fs.disk == w.fs.disk && w1.fs.freeblock == w.fs.freeblock + 1
    requires SlotPtr(w2, Slot(w.inum, fbn)) == w1.fs.freeblock
    requires forall b :: 0 <= b < FS_SIZE && b != w1.din.addrs[12] ==> w2.fs.disk[b] == w1.fs.disk[b]
    ensures ReadyData(w, w2, fbn)
  {
    hide *;
    SecondFree(w, own, w1.fs.freeblock);
    UsedBelow(w, w2, fbn, w.fs.freeblock, w1.fs.freeblock);
  }

  lemma SecondFree(w: Work, own: seq<Slot>, x: word)
    requires Owned(w, own) && x == w.fs.freeblock + 1 < FS_SIZE
    ensures Shape(w.fs) && w.fs.disk[x] == ZeroBlock() && w.fs.freeblock >= META_NUM
    ensures forall s :: IsSlot(s) && SlotPtr(w, s) != 0 ==> SlotPtr(w, s) < w.fs.freeblock
  {
    BelowFree(w, own);
    hide SlotPtr;
  }

  /** Only block `used`, which no slot refers to, has changed, and the slot got block x. */
  lemma UsedBelow(w: Work, w2: Work, fbn: nat, used: word, x: word)
    requires fbn < MAX_FILE && w.inum < INODE_SLOTS && SlotPtr(w, Slot(w.inum, fbn)) == 0
    requires META_NUM <= used && x == used + 1 < FS_SIZE && Shape(w.fs) && Shape(w2.fs)
    requires w.fs.disk[x] == ZeroBlock() && SlotPtr(w2, Slot(w.inum, fbn)) == x
    requires forall s :: IsSlot(s) && SlotPtr(w, s) != 0 ==> SlotPtr(w, s) < used
    requires forall b :: 0 <= b < FS_SIZE && b != used ==> w2.fs.disk[b] == w.fs.disk[b]
    ensures ReadyData(w, w2, fbn)
  {
    hide SlotPtr;
  }

  /** What the slots refer to lies below freeblock, and what lies above is zero. */
  lemma BelowFree(w: Work, own: seq<Slot>)
    requires Owned(w, own)
    ensures Shape(w.fs) && forall s :: IsSlot(s) && SlotPtr(w, s) != 0 ==> SlotPtr(w, s) < w.fs.freeblock
    ensures forall b :: w.fs.freeblock <= b < FS_SIZE ==> w.fs.disk[b] == ZeroBlock()
  {
    hide SlotPtr;
    forall s | IsSlot(s) && SlotPtr(w, s) != 0 ensures SlotPtr(w, s) < w.fs.freeblock {
      assert OwnedBy(SlotPtr(w, s), s, w.fs.freeblock, own);
    }
  }

  /* ---- one iteration of iappend ---- */

  /** Storing data in a block of the file, and a new size, moves no pointer. */
  function StoreData(w: Work, x: word, buf: Block, n: word): Work {
    Work(Fs(Wsect(w.fs.disk, x, buf), w.fs.freeinode, w.fs.freeblock), w.inum, SetSize(w.din, n))
  }

  lemma StorePtr(w: Work, own: seq<Slot>, fbn: nat, buf: Block, n: word, s: Slot)
    requires Owned(w, own) && fbn < MAX_FILE && w.inum < INODE_SLOTS && SlotPtr(w, Slot(w.inum, fbn)) != 0 && IsSlot(s)
    ensures SlotPtr(StoreData(w, SlotPtr(w, Slot(w.inum, fbn)), buf, n), s) == SlotPtr(w, s)
  {
    var s0 := Slot(w.inum, fbn);
    var x := SlotPtr(w, s0);
    var w' := StoreData(w, x, buf, n);
    var d := InodeOf(w, s.ino);
    assert OwnedBy(x, s0, w.fs.freeblock, own);
    if d.addrs[12] == x {
      IndirectOwner(w, own, s.ino, s0);
    }
    hide Owned, GetPtr, GetInode, OwnedBy;
    assert InodeOf(w', s.ino).addrs == d.addrs;
  }

  lemma StoreOwned(w: Work, own: seq<Slot>, fbn: nat, buf: Block, n: word)
    requires Owned(w, own) && fbn < MAX_FILE && w.inum < INODE_SLOTS && SlotPtr(w, Slot(w.inum, fbn)) != 0
    ensures
      var x := SlotPtr(w, Slot(w.inum, fbn));
      var w' := StoreData(w, x, buf, n);
      && Owned(w', own) && META_NUM <= x < FS_SIZE
      && (forall s :: IsSlot(s) ==> SlotPtr(w', s) == SlotPtr(w, s))
      && (forall j :: 0 <= j < INODE_SLOTS && j != w.inum ==> InodeOf(w', j) == InodeOf(w, j))
      && w'.fs.disk == w.fs.disk[x := buf]
  {
    var x := SlotPtr(w, Slot(w.inum, fbn));
    var w' := StoreData(w, x, buf, n);
    assert OwnedBy(x, Slot(w.inum, fbn), w.fs.freeblock, own);
    assert w'.fs.disk == w.fs.disk[x := buf];
    DataWriteInodes(Work(w.fs, w.inum, w.din), Work(w'.fs, w.inum, w.din));
    assert forall j :: 0 <= j < INODE_SLOTS && j != w.inum ==> InodeOf(w', j) == InodeOf(w, j) by {
      forall j | 0 <= j < INODE_SLOTS && j != w.inum ensures InodeOf(w', j) == InodeOf(w, j) {
        assert InodeOf(Work(w'.fs, w.inum, w.din), j) == InodeOf(Work(w.fs, w.inum, w.din), j);
      }
    }
    hide SlotPtr, InodeOf, StoreData;
    forall s | IsSlot(s) ensures SlotPtr(w', s) == SlotPtr(w, s) {
      StorePtr(w, own, fbn, buf, n, s);
    }
  }

  /** The number of blocks that a file of n bytes occupies, with its indirect block. */
  function Total(n: nat): nat {
    Blocks(n) + (if Blocks(n) > 12 then 1 else 0)
  }

  /** The arithmetic of extending a file within one block. */
  lemma PieceSizes(n: nat, m: nat)
    requires 0 < m <= 512 - n % 512
    ensures Blocks(n + m) == n / 512 + 1
    ensures Blocks(n) == if n % 512 == 0 then n / 512 else n / 512 + 1
    ensures (n + m) % 512 != 0 ==> (n + m) / 512 == n / 512 && (n + m) % 512 == n % 512 + m
  {
    var q, r := n / 512, n % 512;
    assert n == 512 * q + r;
  }

  lemma NeededTotal(w: Work, m: nat)
    requires Sized(w) && w.inum < INODE_SLOTS && 0 < m <= 512 - w.din.size % 512 && w.din.size / 512 < MAX_FILE
    ensures Needed(w, w.din.size / 512) == Total(w.din.size + m) - Total(w.din.size)
    ensures SlotPtr(w, Slot(w.inum, w.din.size / 512)) != 0 <==> w.din.size % 512 != 0
  {
    PieceSizes(w.din.size, m);
    var fbn := w.din.size / 512;
    assert SlotPtr(w, Slot(w.inum, fbn)) != 0 <==> Uses(w.din.size, fbn);
    assert SlotPtr(w, Slot(w.inum, 140)) != 0 <==> Uses(w.din.size, 140);
    assert SlotPtr(w, Slot(w.inum, 140)) == w.din.addrs[12];
    hide SlotPtr, Sized;
  }

  /** A file has grown by p; nothing else has changed. */
  ghost predicate Advanced(w: Work, w': Work, p: seq<byte>)
    requires w.inum < INODE_SLOTS && Sized(w) && Sized(w')
  {
    && w'.inum == w.inum && w'.fs.freeinode == w.fs.freeinode && SameBut(w.din, w'.din)
    && (forall j :: 0 <= j < INODE_SLOTS && j != w.inum ==>
          InodeOf(w', j) == InodeOf(w, j) && Contents(w', j) == Contents(w, j))
    && Contents(w', w.inum) == Contents(w, w.inum) + p
    && w'.fs.freeblock == w.fs.freeblock + Total(w'.din.size) - Total(w.din.size)
    && Shape(w.fs) && Shape(w'.fs) && (forall b :: 0 <= b < META_NUM ==> w'.fs.disk[b] == w.fs.disk[b])
  }

  /** What the state after the iteration has to do with the one before. */
  ghost predicate Stored(w: Work, w': Work, fbn: nat, p: seq<byte>)
    requires fbn < MAX_FILE && w.inum < INODE_SLOTS && |p| <= 512 - w.din.size % 512
  {
    && w'.inum == w.inum && w'.din.size == w.din.size + |p|
    && (forall j :: 0 <= j < INODE_SLOTS && j != w.inum ==> InodeOf(w', j) == InodeOf(w, j))
    && SlotPtr(w', Slot(w.inum, fbn)) != 0
    && (forall s :: IsSlot(s) && s != Slot(w.inum, fbn) && s != Slot(w.inum, 140) ==> SlotPtr(w', s) == SlotPtr(w, s))
    && (SlotPtr(w', Slot(w.inum, 140)) != 0 <==> SlotPtr(w, Slot(w.inum, 140)) != 0 || fbn >= 12)
    && (forall s :: IsSlot(s) && s.k < 140 && s != Slot(w.inum, fbn) && SlotPtr(w, s) != 0 ==>
          Rsect(w'.fs.disk, SlotPtr(w, s)) == Rsect(w.fs.disk, SlotPtr(w, s)))
    && Rsect(w'.fs.disk, SlotPtr(w', Slot(w.inum, fbn))) == Splice(OldBlock(w, fbn), w.din.size % 512, p)
  }

  /** The data block as it was, or zeros if there was none. */
  function OldBlock(w: Work, fbn: nat): Block
    requires fbn < MAX_FILE && w.inum < INODE_SLOTS
  {
    if SlotPtr(w, Slot(w.inum, fbn)) == 0 then ZeroBlock() else Rsect(w.fs.disk, SlotPtr(w, Slot(w.inum, fbn)))
  }

  lemma StoredIntro(w: Work, w1: Work, own1: seq<Slot>, fbn: nat, p: seq<byte>)
    requires fbn < MAX_FILE && w.inum < INODE_SLOTS && fbn == w.din.size / 512 && |p| <= 512 - w.din.size % 512
    requires Ready(w, w1, fbn) && Owned(w1, own1) && w.din.size + |p| <= MAX_FILE * 512
    ensures
      var x := SlotPtr(w1, Slot(w.inum, fbn));
      var w' := StoreData(w1, x, Splice(Rsect(w1.fs.disk, x), w.din.size % 512, p), w.din.size + |p|);
      && Stored(w, w', fbn, p) && Owned(w', own1)
      && w'.fs.freeblock == w.fs.freeblock + Needed(w, fbn) && w'.fs.freeinode == w.fs.freeinode
      && SameBut(w.din, w'.din)
      && Shape(w.fs) && Shape(w'.fs) && (forall b :: 0 <= b < META_NUM ==> w'.fs.disk[b] == w.fs.disk[b])
  {
    hide SlotPtr, InodeOf, Owned, Needed, Splice, StoreData;
    var s0 := Slot(w.inum, fbn);
    var x := SlotPtr(w1, s0);
    var buf := Splice(Rsect(w1.fs.disk, x), w.din.size % 512, p);
    var w' := StoreData(w1, x, buf, w.din.size + |p|);
    StoreOwned(w1, own1, fbn, buf, w.din.size + |p|);
    StoreFields(w1, x, buf, w.din.size + |p|);
    OwnedApart(w1, own1, s0);
    assert Rsect(w'.fs.disk, x) == buf;
    assert Rsect(w1.fs.disk, x) == OldBlock(w, fbn);
  }

  lemma StoreFields(w: Work, x: word, buf: Block, n: word)
    ensures
      var w' := StoreData(w, x, buf, n);
      && w'.inum == w.inum && w'.din == SetSize(w.din, n)
      && w'.fs.freeblock == w.fs.freeblock && w'.fs.freeinode == w.fs.freeinode && |w'.fs.disk| == |w.fs.disk|
  {
    hide SetSize;
  }

  lemma OwnedApart(w: Work, own: seq<Slot>, s0: Slot)
    requires Owned(w, own) && IsSlot(s0) && SlotPtr(w, s0) != 0
    ensures forall s :: IsSlot(s) && s != s0 && SlotPtr(w, s) != 0 ==> SlotPtr(w, s) != SlotPtr(w, s0)
  {
    hide SlotPtr;
    forall s | IsSlot(s) && s != s0 && SlotPtr(w, s) != 0 ensures SlotPtr(w, s) != SlotPtr(w, s0) {
      assert OwnedBy(SlotPtr(w, s), s, w.fs.freeblock, own) && OwnedBy(SlotPtr(w, s0), s0, w.fs.freeblock, own);
    }
  }
}
