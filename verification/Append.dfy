/** iappend (tools/mkfs.c) as a whole: what it does to the contents of files, when
    its assertion fails, and that the way data is cut into calls does not matter. */
module Append {
  import opened Options
  import opened Bits
  import opened FsLayout
  import opened Mkfs

  /* ---- one iteration ---- */

  lemma StoredSized(w: Work, w': Work, p: seq<byte>)
    requires w.inum < INODE_SLOTS && Sized(w) && w.din.size / 512 < MAX_FILE && 0 < |p| <= 512 - w.din.size % 512
    requires Stored(w, w', w.din.size / 512, p)
    ensures Sized(w')
  {
    hide *;
    forall j | 0 <= j < INODE_SLOTS ensures InodeOf(w', j).size <= MAX_FILE * 512 {
      StoredSize(w, w', p, j);
    }
    forall s | IsSlot(s) ensures SlotPtr(w', s) != 0 <==> Uses(InodeOf(w', s.ino).size, s.k) {
      StoredSlot(w, w', p, s);
    }
    SizedIntro(w');
  }

  lemma StoredSize(w: Work, w': Work, p: seq<byte>, j: nat)
    requires w.inum < INODE_SLOTS && Sized(w) && w.din.size / 512 < MAX_FILE && 0 < |p| <= 512 - w.din.size % 512
    requires Stored(w, w', w.din.size / 512, p) && j < INODE_SLOTS
    ensures InodeOf(w', j).size <= MAX_FILE * 512
  {
    assert InodeOf(w, j).size <= MAX_FILE * 512;
    hide SlotPtr, Sized, Uses, OldBlock;
  }

  lemma StoredSlot(w: Work, w': Work, p: seq<byte>, s: Slot)
    requires w.inum < INODE_SLOTS && Sized(w) && w.din.size / 512 < MAX_FILE && 0 < |p| <= 512 - w.din.size % 512
    requires Stored(w, w', w.din.size / 512, p) && IsSlot(s)
    ensures SlotPtr(w', s) != 0 <==> Uses(InodeOf(w', s.ino).size, s.k)
  {
    assert SlotPtr(w, s) != 0 <==> Uses(InodeOf(w, s.ino).size, s.k);
    PieceSizes(w.din.size, |p|);
    hide SlotPtr, Sized, Blocks, OldBlock;
  }

  lemma SizedIntro(w: Work)
    requires forall j :: 0 <= j < INODE_SLOTS ==> InodeOf(w, j).size <= MAX_FILE * 512
    requires forall s :: IsSlot(s) ==> (SlotPtr(w, s) != 0 <==> Uses(InodeOf(w, s.ino).size, s.k))
    ensures Sized(w)
  {
    hide SlotPtr, Uses, InodeOf;
  }

  /** A byte of a file after the iteration. */
  lemma StoredByte(w: Work, w': Work, p: seq<byte>, i: nat, k: nat)
    requires w.inum < INODE_SLOTS && Sized(w) && w.din.size / 512 < MAX_FILE && 0 < |p| <= 512 - w.din.size % 512
    requires Stored(w, w', w.din.size / 512, p)
    requires i < INODE_SLOTS && k < InodeOf(w', i).size && k < MAX_FILE * 512
    ensures k < InodeOf(w, i).size ==> FileByte(w', i, k) == FileByte(w, i, k)
    ensures k >= InodeOf(w, i).size ==> i == w.inum && FileByte(w', i, k) == p[k - w.din.size]
  {
    var fbn, n := w.din.size / 512, w.din.size;
    ByteOffsets(n, |p|, k);
    if k < InodeOf(w, i).size {
      UsedByte(w, i, k);
    }
    hide SlotPtr, Blocks, Uses, Sized;
  }

  lemma ByteOffsets(n: nat, m: nat, k: nat)
    requires 0 < m <= 512 - n % 512
    ensures k / 512 == n / 512 && k < n ==> k % 512 < n % 512
    ensures k / 512 == n / 512 && k >= n ==> k - n == k % 512 - n % 512
    ensures n <= k < n + m ==> k / 512 == n / 512
  {
  }

  lemma UsedByte(w: Work, i: nat, k: nat)
    requires Sized(w) && i < INODE_SLOTS && k < InodeOf(w, i).size && k < MAX_FILE * 512
    ensures SlotPtr(w, Slot(i, k / 512)) != 0
  {
    BlockOfByte(k, InodeOf(w, i).size);
    assert IsSlot(Slot(i, k / 512));
    hide SlotPtr, Blocks, InodeOf;
  }

  lemma BlockOfByte(k: nat, n: nat)
    requires k < n
    ensures k / 512 < Blocks(n)
  {
  }

  lemma StoredTail(w: Work, w': Work, p: seq<byte>)
    requires w.inum < INODE_SLOTS && Sized(w) && TailZero(w) && w.din.size / 512 < MAX_FILE
      && 0 < |p| <= 512 - w.din.size % 512
    requires Stored(w, w', w.din.size / 512, p)
    ensures TailZero(w')
  {
    var fbn, n := w.din.size / 512, w.din.size;
    PieceSizes(n, |p|);
    forall i, j | 0 <= i < INODE_SLOTS && 0 <= j < 512 ensures TailByteZero(w', i, j) {
      var n' := InodeOf(w', i).size;
      assert TailByteZero(w, i, j);
      if 0 < n' % 512 <= j && n' / 512 < MAX_FILE {
        var s := Slot(i, n' / 512);
        assert SlotPtr(w, s) != 0 <==> Uses(InodeOf(w, i).size, s.k);
        hide SlotPtr, Sized, Contents;
      }
    }
  }

  lemma StoredAdvanced(w: Work, w': Work, p: seq<byte>)
    requires w.inum < INODE_SLOTS && Sized(w) && Sized(w') && w.din.size / 512 < MAX_FILE
      && 0 < |p| <= 512 - w.din.size % 512
    requires Stored(w, w', w.din.size / 512, p)
    requires w'.fs.freeblock == w.fs.freeblock + Needed(w, w.din.size / 512) && w'.fs.freeinode == w.fs.freeinode
      && SameBut(w.din, w'.din)
    requires Shape(w.fs) && Shape(w'.fs) && forall b :: 0 <= b < META_NUM ==> w'.fs.disk[b] == w.fs.disk[b]
    ensures Advanced(w, w', p)
  {
    assert w'.inum == w.inum && w'.din.size == w.din.size + |p|;
    assert forall j :: 0 <= j < INODE_SLOTS && j != w.inum ==> InodeOf(w', j) == InodeOf(w, j);
    NeededTotal(w, |p|);
    hide *;
    forall j | 0 <= j < INODE_SLOTS
      ensures SizeBound(w, w', j)
      ensures Contents(w', j) == if j == w.inum then Contents(w, j) + p else Contents(w, j)
    {
      SizesBounded(w, w', j);
      StoredContents(w, w', p, j);
    }
    AdvancedIntro(w, w', p);
  }

  predicate SizeBound(w: Work, w': Work, j: nat) {
    InodeOf(w, j).size <= MAX_FILE * 512 && InodeOf(w', j).size <= MAX_FILE * 512
  }

  lemma SizesBounded(w: Work, w': Work, j: nat)
    requires Sized(w) && Sized(w') && j < INODE_SLOTS
    ensures SizeBound(w, w', j) && InodeOf(w, j).size <= MAX_FILE * 512 && InodeOf(w', j).size <= MAX_FILE * 512
  {
    hide SlotPtr;
  }

  lemma AdvancedIntro(w: Work, w': Work, p: seq<byte>)
    requires w.inum < INODE_SLOTS && Sized(w) && Sized(w') && w'.inum == w.inum
    requires w'.fs.freeblock == w.fs.freeblock + Total(w'.din.size) - Total(w.din.size)
    requires w'.fs.freeinode == w.fs.freeinode && SameBut(w.din, w'.din)
    requires Shape(w.fs) && Shape(w'.fs) && forall b :: 0 <= b < META_NUM ==> w'.fs.disk[b] == w.fs.disk[b]
    requires forall j :: 0 <= j < INODE_SLOTS && j != w.inum ==> InodeOf(w', j) == InodeOf(w, j)
    requires forall j :: 0 <= j < INODE_SLOTS ==> SizeBound(w, w', j)
    requires forall j :: 0 <= j < INODE_SLOTS ==>
      Contents(w', j) == if j == w.inum then Contents(w, j) + p else Contents(w, j)
    ensures Advanced(w, w', p)
  {
    hide Sized, Contents, Total, InodeOf, SameBut;
  }

  lemma StoredContents(w: Work, w': Work, p: seq<byte>, j: nat)
    requires w.inum < INODE_SLOTS && Sized(w) && Sized(w') && w.din.size / 512 < MAX_FILE
      && 0 < |p| <= 512 - w.din.size % 512
    requires Stored(w, w', w.din.size / 512, p) && j < INODE_SLOTS
    ensures Contents(w', j) == if j == w.inum then Contents(w, j) + p else Contents(w, j)
  {
    hide SlotPtr, FileByte, Rsect;
    forall k | 0 <= k < InodeOf(w', j).size
      ensures Contents(w', j)[k] == (if j == w.inum then Contents(w, j) + p else Contents(w, j))[k]
    {
      StoredByte(w, w', p, j, k);
    }
  }

  /** One iteration of iappend, from the invariant to the invariant. */
  lemma PieceStep(w: Work, own: seq<Slot>, p: seq<byte>) returns (own': seq<Slot>)
    requires FsInv(w, own) && w.din.size / 512 < MAX_FILE && 0 < |p| <= 512 - w.din.size % 512
    requires w.fs.freeblock + Total(w.din.size + |p|) - Total(w.din.size) <= FS_SIZE
    ensures FsInv(AppendPiece(w, p), own') && own <= own' && Advanced(w, AppendPiece(w, p), p)
  {
    var fbn := w.din.size / 512;
    NeededTotal(w, |p|);
    own' := TakeBlockStep(w, own, fbn);
    var w1 := TakeBlock(w, fbn);
    assert w.din.size + |p| <= MAX_FILE * 512;
    StoredIntro(w, w1, own', fbn, p);
    PieceStores(w, fbn, p);
    var w' := AppendPiece(w, p);
    hide AppendPiece, TakeBlock, StoreData, SlotPtr, Advanced, Stored, Owned, Sized, TailZero, Needed, Total, Ready;
    StoredSized(w, w', p);
    StoredTail(w, w', p);
    StoredAdvanced(w, w', p);
  }

  lemma PieceStores(w: Work, fbn: nat, p: seq<byte>)
    requires w.inum < INODE_SLOTS && fbn == w.din.size / 512 && fbn < MAX_FILE && |p| <= 512 - w.din.size % 512
    requires w.din.size + |p| <= MAX_FILE * 512
    ensures
      var w1 := TakeBlock(w, fbn);
      w1.inum == w.inum &&
      var x := SlotPtr(w1, Slot(w.inum, fbn));
      AppendPiece(w, p) == StoreData(w1, x, Splice(Rsect(w1.fs.disk, x), w.din.size % 512, p), w.din.size + |p|)
  {
    hide GetPtr, PutPtr, Wsect, Rsect;
  }

  /* ---- the loop of iappend ---- */

  lemma AdvancedTwice(w: Work, w1: Work, w2: Work, p: seq<byte>, q: seq<byte>)
    requires w.inum < INODE_SLOTS && Sized(w) && Sized(w1) && Sized(w2)
    requires Advanced(w, w1, p) && w1.inum < INODE_SLOTS && Advanced(w1, w2, q)
    ensures Advanced(w, w2, p + q)
  {
    hide Sized, Contents, SlotPtr, Total;
  }

  lemma TotalMono(a: nat, b: nat)
    requires a <= b
    ensures Total(a) <= Total(b)
  {
  }

  lemma InvSized(w: Work, own: seq<Slot>)
    requires FsInv(w, own)
    ensures Sized(w) && Owned(w, own) && w.inum < INODE_SLOTS && w.din.size <= MAX_FILE * 512
  {
    assert InodeOf(w, w.inum) == w.din;
    hide SlotPtr;
  }

  lemma AdvancedSizes(w: Work, w': Work, p: seq<byte>)
    requires w.inum < INODE_SLOTS && Sized(w) && Sized(w') && Advanced(w, w', p)
    ensures w'.inum == w.inum && w'.din.size == w.din.size + |p|
    ensures w'.fs.freeblock == w.fs.freeblock + Total(w'.din.size) - Total(w.din.size)
  {
    assert |Contents(w', w.inum)| == |Contents(w, w.inum)| + |p|;
    hide Contents, Sized, Total;
  }

  lemma LoopUnfold(w: Work, xp: seq<byte>)
    requires xp != [] && w.din.size / 512 < MAX_FILE
    ensures
      var n1 := Room(w.din.size, |xp|);
      AppendLoop(w, xp) == AppendLoop(AppendPiece(w, xp[..n1]), xp[n1..])
  {
    hide AppendPiece;
  }

  lemma PieceSize(w: Work, p: seq<byte>)
    requires w.din.size / 512 < MAX_FILE && |p| <= 512 - w.din.size % 512
    ensures AppendPiece(w, p).din.size == w.din.size + |p| && AppendPiece(w, p).inum == w.inum
  {
    hide Wsect, Rsect, GetPtr, PutPtr;
  }

  lemma {:induction false} LoopCorrect(w: Work, own: seq<Slot>, xp: seq<byte>) returns (own': seq<Slot>)
    requires FsInv(w, own) && w.din.size + |xp| <= MAX_FILE * 512
    requires w.fs.freeblock + Total(w.din.size + |xp|) - Total(w.din.size) <= FS_SIZE
    ensures AppendLoop(w, xp).Some?
    ensures FsInv(AppendLoop(w, xp).value, own') && own <= own' && Advanced(w, AppendLoop(w, xp).value, xp)
    decreases |xp|
  {
    hide *;
    if xp == [] {
      own' := own;
      LoopNothing(w, own);
    } else {
      var n1 := Room(w.din.size, |xp|);
      var p, q := xp[..n1], xp[n1..];
      RoomSizes(w.din.size, |xp|);
      assert xp == p + q && |q| < |xp|;
      LoopCut(w, xp, p, q);
      TotalMono(w.din.size + n1, w.din.size + |xp|);
      var own1 := PieceStep(w, own, p);
      var w1 := AppendPiece(w, p);
      InvSized(w, own);
      InvSized(w1, own1);
      AdvancedSizes(w, w1, p);
      own' := LoopCorrect(w1, own1, q);
      var w2 := AppendLoop(w1, q).value;
      InvSized(w2, own');
      AdvancedTwice(w, w1, w2, p, q);
    }
  }

  lemma LoopNothing(w: Work, own: seq<Slot>)
    requires FsInv(w, own)
    ensures AppendLoop(w, []) == Some(w) && Advanced(w, w, [])
  {
    hide SlotPtr, Sized, Total, Contents;
  }

  /** The assertion in the loop fails exactly for a file that would pass MAX_FILE blocks. */
  lemma {:induction false} LoopFails(w: Work, xp: seq<byte>)
    ensures AppendLoop(w, xp).None? <==> xp != [] && w.din.size + |xp| > MAX_FILE * 512
    decreases |xp|
  {
    if xp != [] && w.din.size / 512 < MAX_FILE {
      var n1 := Room(w.din.size, |xp|);
      assert w.din.size + n1 <= MAX_FILE * 512;
      LoopUnfold(w, xp);
      PieceSize(w, xp[..n1]);
      hide AppendPiece, AppendLoop;
      LoopFails(AppendPiece(w, xp[..n1]), xp[n1..]);
    }
  }

  /* ---- independence of how the data is cut into pieces ---- */

  lemma SpliceSplice(s: seq<byte>, off: nat, p: seq<byte>, q: seq<byte>)
    requires off + |p| + |q| <= |s|
    ensures Splice(Splice(s, off, p), off + |p|, q) == Splice(s, off, p + q)
  {
  }

  /** Appending twice within a block is appending once. */
  lemma PieceSplit(w: Work, own: seq<Slot>, p: seq<byte>, q: seq<byte>)
    requires FsInv(w, own) && w.din.size / 512 < MAX_FILE && p != [] && q != []
    requires w.din.size % 512 + |p| + |q| <= 512
    requires w.fs.freeblock + Total(w.din.size + |p|) - Total(w.din.size) <= FS_SIZE
    ensures AppendPiece(w, p).din.size == w.din.size + |p| && (w.din.size + |p|) % 512 == w.din.size % 512 + |p|
    ensures (w.din.size + |p|) / 512 == w.din.size / 512
    ensures AppendPiece(AppendPiece(w, p), q) == AppendPiece(w, p + q)
  {
    hide *;
    var fbn, n := w.din.size / 512, w.din.size;
    SplitNumbers(n, |p|, |q|);
    PieceSize(w, p);
    InvSized(w, own);
    NeededTotal(w, |p|);
    var own1 := TakeBlockStep(w, own, fbn);
    ReadyPtr(w, TakeBlock(w, fbn), fbn);
    PieceStores(w, fbn, p);
    PieceStores(w, fbn, p + q);
    StoreTwice(w, TakeBlock(w, fbn), own1, fbn, p, q);
  }

  lemma SplitNumbers(n: nat, m: nat, k: nat)
    requires n / 512 < MAX_FILE && 0 < m && 0 < k && n % 512 + m + k <= 512
    ensures (n + m) / 512 == n / 512 && (n + m) % 512 == n % 512 + m
    ensures n + m + k <= MAX_FILE * 512 && m + k <= 512 - n % 512
  {
  }

  lemma ReadyPtr(w: Work, w1: Work, fbn: nat)
    requires fbn < MAX_FILE && w.inum < INODE_SLOTS && Ready(w, w1, fbn)
    ensures SlotPtr(w1, Slot(w.inum, fbn)) != 0 && w1.inum == w.inum && w1.din.size == w.din.size
  {
  }

  lemma StoreKeeps(w: Work, own: seq<Slot>, fbn: nat, buf: Block, n: word)
    requires Owned(w, own) && fbn < MAX_FILE && w.inum < INODE_SLOTS && SlotPtr(w, Slot(w.inum, fbn)) != 0
    ensures
      var x := SlotPtr(w, Slot(w.inum, fbn));
      var w' := StoreData(w, x, buf, n);
      SlotPtr(w', Slot(w.inum, fbn)) == x && Rsect(w'.fs.disk, x) == buf
  {
    assert IsSlot(Slot(w.inum, fbn));
    hide Owned, SlotPtr, StoreData;
    StoreOwned(w, own, fbn, buf, n);
  }

  lemma StoreOver(w: Work, x: word, buf: Block, n: word, buf': Block, n': word)
    ensures StoreData(StoreData(w, x, buf, n), x, buf', n') == StoreData(w, x, buf', n')
  {
  }

  lemma StoreTwice(w: Work, w1: Work, own1: seq<Slot>, fbn: nat, p: seq<byte>, q: seq<byte>)
    requires w1.inum == w.inum < INODE_SLOTS && w1.din.size == w.din.size && fbn == w.din.size / 512 < MAX_FILE
      && p != []
    requires Owned(w1, own1) && SlotPtr(w1, Slot(w.inum, fbn)) != 0 && w.din.size + |p| + |q| <= MAX_FILE * 512
    requires w.din.size % 512 + |p| + |q| <= 512
    requires (w.din.size + |p|) / 512 == fbn && (w.din.size + |p|) % 512 == w.din.size % 512 + |p|
    ensures
      var x := SlotPtr(w1, Slot(w.inum, fbn));
      var w' := StoreData(w1, x, Splice(Rsect(w1.fs.disk, x), w.din.size % 512, p), w.din.size + |p|);
      w'.din.size == w.din.size + |p| &&
      AppendPiece(w', q) == StoreData(w1, x, Splice(Rsect(w1.fs.disk, x), w.din.size % 512, p + q),
          w.din.size + |p| + |q|)
  {
    hide *;
    SlotNumbers(w.inum, fbn);
    var n, s0 := w.din.size, Slot(w.inum, fbn);
    var x := SlotPtr(w1, s0);
    var buf := Splice(Rsect(w1.fs.disk, x), n % 512, p);
    var w' := StoreData(w1, x, buf, n + |p|);
    StoreFields(w1, x, buf, n + |p|);
    StoreKeeps(w1, own1, fbn, buf, n + |p|);
    TakeBlockCases(w', fbn);
    PieceStores(w', fbn, q);
    SpliceSplice(Rsect(w1.fs.disk, x), n % 512, p, q);
    StoreOver(w1, x, buf, n + |p|, Splice(Rsect(w1.fs.disk, x), n % 512, p + q), n + |p| + |q|);
  }

  lemma SlotNumbers(inum: nat, fbn: nat)
    ensures inum < INODE_SLOTS && fbn < MAX_FILE ==> IsSlot(Slot(inum, fbn))
    ensures MAX_FILE == 140
  {
  }

  lemma StoreFields(w: Work, x: word, buf: Block, n: word)
    ensures StoreData(w, x, buf, n).inum == w.inum && StoreData(w, x, buf, n).din.size == n
  {
  }

  function AndThen(o: Option<Work>, xp: seq<byte>): Option<Work> {
    match o
    case None => None
    case Some(w) => AppendLoop(w, xp)
  }

  lemma LoopCut(w: Work, xp: seq<byte>, p: seq<byte>, q: seq<byte>)
    requires xp != [] && w.din.size / 512 < MAX_FILE && |p| == Room(w.din.size, |xp|) && xp == p + q
    ensures AppendLoop(w, xp) == AppendLoop(AppendPiece(w, p), q)
  {
    assert p == xp[..|p|] && q == xp[|p|..];
    LoopUnfold(w, xp);
  }

  lemma LoopEmpty(w: Work)
    ensures AppendLoop(w, []) == Some(w)
  {
  }

  lemma AndThenSome(w: Work, xp: seq<byte>)
    ensures AndThen(Some(w), xp) == AppendLoop(w, xp)
  {
  }

  /** The loop over a + b does what the loop over a and then the loop over b do. */
  lemma {:induction false} LoopSplit(w: Work, own: seq<Slot>, a: seq<byte>, b: seq<byte>)
    requires FsInv(w, own) && w.din.size + |a| + |b| <= MAX_FILE * 512
    requires w.fs.freeblock + Total(w.din.size + |a| + |b|) - Total(w.din.size) <= FS_SIZE
    ensures AppendLoop(w, a + b) == AndThen(AppendLoop(w, a), b)
    decreases |a|
  {
    hide *;
    if a == [] {
      assert a + b == b;
      LoopEmpty(w);
      AndThenSome(w, b);
    } else if b == [] {
      assert a + b == a;
      LoopFails(w, a);
      MaxFileIs();
      LoopEmpty(AppendLoop(w, a).value);
      AndThenSome(AppendLoop(w, a).value, b);
    } else if |a| < 512 - w.din.size % 512 {
      SplitInBlock(w, own, a, b);
    } else {
      var n1 := 512 - w.din.size % 512;
      var p, a' := a[..n1], a[n1..];
      FullRooms(w.din.size, |a|, |b|);
      assert a == p + a' && a + b == p + (a' + b) && |a + b| == |a| + |b|;
      TotalMono(w.din.size + n1, w.din.size + |a| + |b|);
      LoopCut(w, a, p, a');
      LoopCut(w, a + b, p, a' + b);
      var own1 := PieceStep(w, own, p);
      var w1 := AppendPiece(w, p);
      InvSized(w, own);
      InvSized(w1, own1);
      AdvancedSizes(w, w1, p);
      LoopSplit(w1, own1, a', b);
    }
  }

  lemma MaxFileIs()
    ensures MAX_FILE == 140
  {
  }

  lemma FullRooms(n: nat, a: nat, b: nat)
    requires n + a + b <= MAX_FILE * 512 && a >= 512 - n % 512
    ensures n / 512 < MAX_FILE && Room(n, a) == 512 - n % 512 && Room(n, a + b) == 512 - n % 512
  {
  }

  lemma SplitSizes(n: nat, a: nat, b: nat)
    requires n + a + b <= MAX_FILE * 512 && a > 0 && b > 0 && a < 512 - n % 512
    ensures n / 512 < MAX_FILE && (n + a) / 512 < MAX_FILE && Room(n, a) == a && a < Room(n, a + b)
    ensures n % 512 + Room(n, a + b) <= 512 && Room(n + a, b) == Room(n, a + b) - a
  {
    assert (n + a) % 512 == n % 512 + a;
  }

  /** What the pieces of a + b are when a does not fill its block. */
  lemma SplitRooms(n: nat, n1: nat, a: seq<byte>, b: seq<byte>, q: seq<byte>)
    requires n + |a| + |b| <= MAX_FILE * 512 && a != [] && b != [] && |a| < 512 - n % 512
    requires n1 == n + |a| && |q| == Room(n, |a| + |b|) - |a|
    ensures n / 512 < MAX_FILE && n1 / 512 < MAX_FILE && |a| == Room(n, |a|)
    ensures |a + q| == Room(n, |a + b|) && |q| == Room(n1, |b|)
    ensures |a + q| <= 512 - n % 512 && |q| <= 512 - n1 % 512
  {
    SplitSizes(n, |a|, |b|);
  }

  lemma SplitInBlock(w: Work, own: seq<Slot>, a: seq<byte>, b: seq<byte>)
    requires FsInv(w, own) && w.din.size + |a| + |b| <= MAX_FILE * 512 && a != [] && b != []
    requires |a| < 512 - w.din.size % 512
    requires w.fs.freeblock + Total(w.din.size + |a| + |b|) - Total(w.din.size) <= FS_SIZE
    ensures AppendLoop(w, a + b) == AndThen(AppendLoop(w, a), b)
  {
    SplitSizes(w.din.size, |a|, |b|);
    TotalMono(w.din.size + |a|, w.din.size + |a| + |b|);
    var m := Room(w.din.size, |a| + |b|) - |a|;
    var q, rest := b[..m], b[m..];
    hide *;
    assert b == q + rest;
    PieceSplit(w, own, a, q);
    var w1 := AppendPiece(w, a);
    SplitRooms(w.din.size, w1.din.size, a, b, q);
    SplitCuts(w, w1, a, b, q, rest, a + b, a + q);
  }

  lemma SplitCuts(w: Work, w1: Work, a: seq<byte>, b: seq<byte>, q: seq<byte>, rest: seq<byte>, ab: seq<byte>,
      aq: seq<byte>)
    requires a != [] && b != [] && ab == a + b && aq == a + q && b == q + rest
    requires w.din.size / 512 < MAX_FILE && w1.din.size / 512 < MAX_FILE
    requires |a| == Room(w.din.size, |a|) && |aq| == Room(w.din.size, |ab|) && |q| == Room(w1.din.size, |b|)
    requires |aq| <= 512 - w.din.size % 512 && |q| <= 512 - w1.din.size % 512
    requires w1 == AppendPiece(w, a) && AppendPiece(w1, q) == AppendPiece(w, aq)
    ensures AppendLoop(w, ab) == AndThen(AppendLoop(w, a), b)
  {
    hide *;
    assert ab == aq + rest;
    assert a == a + [];
    LoopCut(w, a, a, []);
    LoopCut(w, ab, aq, rest);
    LoopCut(w1, b, q, rest);
    LoopEmpty(w1);
    AndThenSome(w1, b);
  }

  /* ---- between calls: the inode in memory and the inode on disk ---- */

  /** The invariant between two calls, when no inode is held in memory. */
  ghost predicate Inv(fs: Fs, own: seq<Slot>) {
    FsInv(Open(fs, 0), own)
  }

  /** The contents of file i on disk. */
  function FileOf(fs: Fs, i: nat): (s: seq<byte>)
    requires i < INODE_SLOTS && Rinode(fs.disk, i).size <= MAX_FILE * 512
    ensures |s| == Rinode(fs.disk, i).size
  {
    Contents(Open(fs, i), i)
  }

  /** Two states that show the same inodes and the same data. */
  ghost predicate SameView(w: Work, w': Work) {
    && Shape(w.fs) && Shape(w'.fs) && w'.inum < INODE_SLOTS && w'.fs.freeblock == w.fs.freeblock
    && (forall b :: META_NUM <= b < FS_SIZE ==> w'.fs.disk[b] == w.fs.disk[b])
    && (forall j :: 0 <= j < INODE_SLOTS ==> InodeOf(w', j) == InodeOf(w, j))
  }

  lemma SameViewPtr(w: Work, w': Work, own: seq<Slot>, s: Slot)
    requires Owned(w, own) && SameView(w, w') && IsSlot(s)
    ensures SlotPtr(w', s) == SlotPtr(w, s)
    ensures SlotPtr(w, s) != 0 ==> Rsect(w'.fs.disk, SlotPtr(w, s)) == Rsect(w.fs.disk, SlotPtr(w, s))
  {
    var d := InodeOf(w, s.ino);
    assert SlotPtr(w, Slot(s.ino, 140)) == d.addrs[12];
    assert d.addrs[12] != 0 ==> OwnedBy(d.addrs[12], Slot(s.ino, 140), w.fs.freeblock, own);
    assert SlotPtr(w, s) != 0 ==> OwnedBy(SlotPtr(w, s), s, w.fs.freeblock, own);
    hide GetPtr, Owned, InodeOf;
  }

  lemma SameViewInv(w: Work, w': Work, own: seq<Slot>)
    requires FsInv(w, own) && SameView(w, w')
    ensures FsInv(w', own)
  {
    forall s | IsSlot(s)
      ensures SlotPtr(w', s) == SlotPtr(w, s)
      ensures SlotPtr(w, s) != 0 ==> Rsect(w'.fs.disk, SlotPtr(w, s)) == Rsect(w.fs.disk, SlotPtr(w, s))
    {
      SameViewPtr(w, w', own, s);
    }
    hide SlotPtr, InodeOf, OwnedBy, Rsect;
    assert Owned(w', own);
    assert Sized(w');
    forall i, j | 0 <= i < INODE_SLOTS && 0 <= j < 512 ensures TailByteZero(w', i, j) {
      assert TailByteZero(w, i, j);
      var s := Slot(i, InodeOf(w, i).size / 512);
      assert IsSlot(s) ==> (SlotPtr(w, s) != 0 <==> Uses(InodeOf(w, i).size, s.k));
    }
  }

  lemma SameViewContents(w: Work, w': Work, own: seq<Slot>, i: nat)
    requires FsInv(w, own) && SameView(w, w') && i < INODE_SLOTS
    ensures InodeOf(w', i) == InodeOf(w, i) && InodeOf(w, i).size <= MAX_FILE * 512
    ensures Contents(w', i) == Contents(w, i)
  {
    hide SlotPtr, InodeOf, Owned, Rsect;
    forall k | 0 <= k < InodeOf(w, i).size ensures FileByte(w', i, k) == FileByte(w, i, k) {
      BlockOfByte(k, InodeOf(w, i).size);
      var s := Slot(i, k / 512);
      assert SlotPtr(w, s) != 0 <==> Uses(InodeOf(w, i).size, s.k);
      SameViewPtr(w, w', own, s);
    }
  }

  lemma OpenView(fs: Fs, i: nat, j: nat)
    requires Shape(fs) && i < INODE_SLOTS && j < INODE_SLOTS
    ensures SameView(Open(fs, i), Open(fs, j))
  {
  }

  lemma InvShape(fs: Fs, own: seq<Slot>)
    requires Inv(fs, own)
    ensures Shape(fs) && META_NUM <= fs.freeblock <= FS_SIZE
  {
  }

  lemma InvSizes(fs: Fs, own: seq<Slot>, i: nat)
    requires Inv(fs, own) && i < INODE_SLOTS
    ensures Rinode(fs.disk, i).size <= MAX_FILE * 512
  {
    assert InodeOf(Open(fs, 0), i) == Rinode(fs.disk, i);
    hide SlotPtr, InodeOf, Rinode;
  }

  lemma OpenInv(fs: Fs, own: seq<Slot>, i: nat)
    requires Inv(fs, own) && i < INODE_SLOTS
    ensures FsInv(Open(fs, i), own)
  {
    OpenView(fs, 0, i);
    SameViewInv(Open(fs, 0), Open(fs, i), own);
  }

  lemma OpenContents(fs: Fs, own: seq<Slot>, i: nat, j: nat)
    requires Inv(fs, own) && i < INODE_SLOTS && j < INODE_SLOTS
    ensures InodeOf(Open(fs, i), j) == Rinode(fs.disk, j) && Rinode(fs.disk, j).size <= MAX_FILE * 512
    ensures Contents(Open(fs, i), j) == FileOf(fs, j)
  {
    InvShape(fs, own);
    InvSizes(fs, own, j);
    OpenInv(fs, own, i);
    OpenView(fs, i, j);
    SameViewContents(Open(fs, i), Open(fs, j), own, j);
  }

  lemma FlushView(w: Work)
    requires Shape(w.fs) && w.inum < INODE_SLOTS
    ensures SameView(w, Open(Flush(w), 0))
    ensures forall j :: 0 <= j < INODE_SLOTS ==> Rinode(Flush(w).disk, j) == InodeOf(w, j)
    ensures forall b :: 0 <= b < INODE_START ==> Flush(w).disk[b] == w.fs.disk[b]
    ensures Flush(w).disk[BMAP_START] == w.fs.disk[BMAP_START]
  {
    WinodeLaws(w.fs.disk, w.inum, w.din);
    hide Winode, Rinode, SameView;
    assert Flush(w).disk == Winode(w.fs.disk, w.inum, w.din);
    SameViewIntro(w, Open(Flush(w), 0));
  }

  lemma SameViewIntro(w: Work, w': Work)
    requires Shape(w.fs) && Shape(w'.fs) && w'.inum < INODE_SLOTS && w'.fs.freeblock == w.fs.freeblock
    requires forall b :: META_NUM <= b < FS_SIZE ==> w'.fs.disk[b] == w.fs.disk[b]
    requires forall j :: 0 <= j < INODE_SLOTS ==> InodeOf(w', j) == InodeOf(w, j)
    ensures SameView(w, w')
  {
    hide InodeOf;
  }

  lemma FlushInv(w: Work, own: seq<Slot>)
    requires FsInv(w, own)
    ensures Inv(Flush(w), own)
  {
    FlushView(w);
    SameViewInv(w, Open(Flush(w), 0), own);
  }

  lemma FlushContents(w: Work, own: seq<Slot>, j: nat)
    requires FsInv(w, own) && j < INODE_SLOTS
    ensures Rinode(Flush(w).disk, j) == InodeOf(w, j) && InodeOf(w, j).size <= MAX_FILE * 512
    ensures FileOf(Flush(w), j) == Contents(w, j)
  {
    FlushView(w);
    FlushInv(w, own);
    SameViewContents(w, Open(Flush(w), 0), own, j);
    OpenContents(Flush(w), own, 0, j);
  }

  /** File inum has grown by xp; all other files, and the rest of the disk's
      metadata, are as before. */
  ghost predicate Appended(fs: Fs, fs': Fs, inum: nat, xp: seq<byte>) {
    && Shape(fs) && Shape(fs') && inum < INODE_SLOTS && fs'.freeinode == fs.freeinode
    && (forall j :: 0 <= j < INODE_SLOTS ==> FileStep(fs, fs', j, inum, xp))
    && fs'.freeblock == fs.freeblock + Total(Rinode(fs'.disk, inum).size) - Total(Rinode(fs.disk, inum).size)
    && (forall b :: 0 <= b < INODE_START ==> fs'.disk[b] == fs.disk[b]) && fs'.disk[BMAP_START] == fs.disk[BMAP_START]
  }

  predicate FileStep(fs: Fs, fs': Fs, j: nat, inum: nat, xp: seq<byte>)
    requires j < INODE_SLOTS
  {
    && Rinode(fs.disk, j).size <= MAX_FILE * 512 && Rinode(fs'.disk, j).size <= MAX_FILE * 512
    && SameBut(Rinode(fs.disk, j), Rinode(fs'.disk, j))
    && FileOf(fs', j) == (if j == inum then FileOf(fs, j) + xp else FileOf(fs, j))
    && (j != inum ==> Rinode(fs'.disk, j) == Rinode(fs.disk, j))
  }

  /** iappend: the file grows by the given bytes, nothing else changes, every block
      still has exactly one owner, and freeblock grows by the blocks the longer file
      needs. */
  lemma IappendCorrect(fs: Fs, own: seq<Slot>, inum: nat, xp: seq<byte>) returns (own': seq<Slot>)
    requires Inv(fs, own) && inum < INODE_SLOTS
    requires Rinode(fs.disk, inum).size + |xp| <= MAX_FILE * 512
    requires fs.freeblock + Total(Rinode(fs.disk, inum).size + |xp|) - Total(Rinode(fs.disk, inum).size) <= FS_SIZE
    ensures Iappend(fs, inum, xp).Some?
    ensures
      var fs' := Iappend(fs, inum, xp).value;
      Inv(fs', own') && own <= own' && Appended(fs, fs', inum, xp)
  {
    var w := Open(fs, inum);
    assert w.din == Rinode(fs.disk, inum);
    OpenInv(fs, own, inum);
    own' := LoopCorrect(w, own, xp);
    var w' := AppendLoop(w, xp).value;
    InvSized(w, own);
    InvSized(w', own');
    AdvancedSizes(w, w', xp);
    FlushInv(w', own');
    FlushView(w');
    AppendedIntro(fs, w, w', own, own', inum, xp);
  }

  lemma AppendedIntro(fs: Fs, w: Work, w': Work, own: seq<Slot>, own': seq<Slot>, inum: nat, xp: seq<byte>)
    requires inum < INODE_SLOTS && Inv(fs, own) && w == Open(fs, inum) && Sized(w) && Sized(w')
    requires FsInv(w', own') && Advanced(w, w', xp)
    ensures Appended(fs, Flush(w'), inum, xp)
  {
    assert w.inum == inum && w.fs == fs && w.din == Rinode(fs.disk, inum) && w'.inum == inum;
    InvShape(fs, own);
    AdvancedShape(w, w', xp);
    FlushView(w');
    var fs' := Flush(w');
    assert fs'.freeinode == w'.fs.freeinode && fs'.freeblock == w'.fs.freeblock && Shape(fs');
    assert INODE_START <= META_NUM && BMAP_START < META_NUM;
    AdvancedSizes(w, w', xp);
    hide *;
    forall j | 0 <= j < INODE_SLOTS ensures FileStep(fs, fs', j, inum, xp) {
      OpenContents(fs, own, inum, j);
      FlushContents(w', own', j);
      FileStepIntro(fs, w, w', fs', xp, j);
    }
    AppendedParts(fs, fs', inum, xp);
  }

  lemma AdvancedShape(w: Work, w': Work, p: seq<byte>)
    requires w.inum < INODE_SLOTS && Sized(w) && Sized(w') && Advanced(w, w', p)
    ensures Shape(w.fs) && Shape(w'.fs) && w'.fs.freeinode == w.fs.freeinode
    ensures forall b :: 0 <= b < META_NUM ==> w'.fs.disk[b] == w.fs.disk[b]
  {
  }

  lemma FileStepIntro(fs: Fs, w: Work, w': Work, fs': Fs, xp: seq<byte>, j: nat)
    requires w.inum < INODE_SLOTS && j < INODE_SLOTS && Sized(w) && Sized(w') && Advanced(w, w', xp)
    requires InodeOf(w, j) == Rinode(fs.disk, j) && Rinode(fs.disk, j).size <= MAX_FILE * 512
    requires InodeOf(w', j) == Rinode(fs'.disk, j) && Rinode(fs'.disk, j).size <= MAX_FILE * 512
    requires Contents(w, j) == FileOf(fs, j) && Contents(w', j) == FileOf(fs', j)
    ensures FileStep(fs, fs', j, w.inum, xp)
  {
    hide *;
    AdvancedAt(w, w', xp, j);
    FileStepOf(fs, fs', j, w.inum, xp);
  }

  lemma FileStepOf(fs: Fs, fs': Fs, j: nat, inum: nat, xp: seq<byte>)
    requires j < INODE_SLOTS && Rinode(fs.disk, j).size <= MAX_FILE * 512 && Rinode(fs'.disk, j).size <= MAX_FILE * 512
    requires FileOf(fs', j) == if j == inum then FileOf(fs, j) + xp else FileOf(fs, j)
    requires j != inum ==> Rinode(fs'.disk, j) == Rinode(fs.disk, j)
    requires SameBut(Rinode(fs.disk, j), Rinode(fs'.disk, j))
    ensures FileStep(fs, fs', j, inum, xp)
  {
    hide FileOf, Rinode, SameBut;
  }

  lemma AdvancedAt(w: Work, w': Work, xp: seq<byte>, j: nat)
    requires w.inum < INODE_SLOTS && j < INODE_SLOTS && Sized(w) && Sized(w') && Advanced(w, w', xp)
    requires InodeOf(w, j).size <= MAX_FILE * 512 && InodeOf(w', j).size <= MAX_FILE * 512
    ensures Contents(w', j) == if j == w.inum then Contents(w, j) + xp else Contents(w, j)
    ensures j != w.inum ==> InodeOf(w', j) == InodeOf(w, j)
    ensures SameBut(InodeOf(w, j), InodeOf(w', j))
  {
    assert InodeOf(w, w.inum) == w.din && InodeOf(w', w'.inum) == w'.din;
    hide Sized, Contents, Total, InodeOf;
  }

  lemma AppendedParts(fs: Fs, fs': Fs, inum: nat, xp: seq<byte>)
    requires Shape(fs) && Shape(fs') && inum < INODE_SLOTS && fs'.freeinode == fs.freeinode
    requires forall j :: 0 <= j < INODE_SLOTS ==> FileStep(fs, fs', j, inum, xp)
    requires fs'.freeblock == fs.freeblock + Total(Rinode(fs'.disk, inum).size) - Total(Rinode(fs.disk, inum).size)
    requires forall b :: 0 <= b < INODE_START ==> fs'.disk[b] == fs.disk[b]
    requires fs'.disk[BMAP_START] == fs.disk[BMAP_START]
    ensures Appended(fs, fs', inum, xp)
  {
    hide FileStep, Total, Rinode;
  }

  /** iappend stops at its assertion exactly when the file would pass MAX_FILE blocks,
      whatever the state of the disk. */
  lemma IappendFails(fs: Fs, inum: nat, xp: seq<byte>)
    ensures Iappend(fs, inum, xp).None? <==> xp != [] && Rinode(fs.disk, inum).size + |xp| > MAX_FILE * 512
  {
    LoopFails(Open(fs, inum), xp);
    hide AppendLoop, Rinode;
  }

  /* ---- cutting the data into several calls ---- */

  /** The same state with an older copy of the inode on disk. */
  function Stamp(w: Work, d: Inode): Work {
    Work(Fs(Winode(w.fs.disk, w.inum, d), w.fs.freeinode, w.fs.freeblock), w.inum, w.din)
  }

  lemma StampRead(w: Work, d: Inode, b: nat)
    requires Shape(w.fs) && w.inum < INODE_SLOTS && META_NUM <= b
    ensures Rsect(Stamp(w, d).fs.disk, b) == Rsect(w.fs.disk, b)
  {
    hide PutInode, Rinode;
  }

  lemma StampEntry(w: Work, d: Inode, j: nat)
    requires Shape(w.fs) && w.inum < INODE_SLOTS && j < 128 && META_NUM <= w.din.addrs[12]
    ensures TakeEntry(Stamp(w, d), j) == Stamp(TakeEntry(w, j), d)
  {
    hide Winode, Wsect, PutPtr, GetPtr, Rsect;
    var ib := w.din.addrs[12];
    StampRead(w, d, ib);
    WinodeCommutes(w.fs.disk, w.inum, d, ib, PutPtr(Rsect(w.fs.disk, ib), j, w.fs.freeblock));
    if GetPtr(Rsect(w.fs.disk, ib), j) == 0 {
      assert TakeEntry(w, j).inum == w.inum;
    }
  }

  lemma StampAddr(w: Work, d: Inode, a: nat)
    requires a < 13
    ensures TakeAddr(Stamp(w, d), a) == Stamp(TakeAddr(w, a), d)
    ensures TakeAddr(w, a).fs.disk == w.fs.disk && TakeAddr(w, a).inum == w.inum
    ensures TakeAddr(w, a).din.addrs[a] == if w.din.addrs[a] == 0 then w.fs.freeblock else w.din.addrs[a]
  {
    hide Winode;
  }

  lemma StampTake(w: Work, own: seq<Slot>, d: Inode, fbn: nat)
    requires Owned(w, own) && fbn < MAX_FILE && w.fs.freeblock < FS_SIZE
    ensures TakeBlock(Stamp(w, d), fbn) == Stamp(TakeBlock(w, fbn), d)
  {
    if w.din.addrs[12] != 0 {
      IndirectOwner(w, own, w.inum, Slot(w.inum, 140));
    }
    OwnedBounds(w, own);
    hide TakeEntry, TakeAddr, Stamp, Owned, SlotPtr;
    if fbn < 12 {
      StampAddr(w, d, fbn);
    } else {
      StampAddr(w, d, 12);
      StampEntry(TakeAddr(w, 12), d, fbn - 12);
    }
  }

  lemma StampStore(w: Work, d: Inode, x: word, buf: Block, n: word)
    requires Shape(w.fs) && w.inum < INODE_SLOTS && META_NUM <= x
    ensures StoreData(Stamp(w, d), x, buf, n) == Stamp(StoreData(w, x, buf, n), d)
    ensures Rsect(Stamp(w, d).fs.disk, x) == Rsect(w.fs.disk, x)
  {
    WinodeCommutes(w.fs.disk, w.inum, d, x, buf);
    assert Rsect(Stamp(w, d).fs.disk, x) == Rsect(w.fs.disk, x);
    hide Winode, Wsect;
  }

  lemma StampPtr(w: Work, own: seq<Slot>, d: Inode, fbn: nat)
    requires Owned(w, own) && fbn < MAX_FILE
    ensures SlotPtr(Stamp(w, d), Slot(w.inum, fbn)) == SlotPtr(w, Slot(w.inum, fbn))
    ensures SlotPtr(w, Slot(w.inum, fbn)) != 0 ==> META_NUM <= SlotPtr(w, Slot(w.inum, fbn)) < FS_SIZE
  {
    assert SlotPtr(w, Slot(w.inum, 140)) == w.din.addrs[12];
    assert SlotPtr(w, Slot(w.inum, fbn)) != 0 ==>
        OwnedBy(SlotPtr(w, Slot(w.inum, fbn)), Slot(w.inum, fbn), w.fs.freeblock, own);
    if w.din.addrs[12] != 0 {
      IndirectOwner(w, own, w.inum, Slot(w.inum, 140));
      assert Rsect(Stamp(w, d).fs.disk, w.din.addrs[12]) == Rsect(w.fs.disk, w.din.addrs[12]);
    }
    hide Winode, GetPtr, Rsect, Owned;
  }

  lemma StampPiece(w: Work, own: seq<Slot>, d: Inode, p: seq<byte>)
    requires FsInv(w, own) && w.din.size / 512 < MAX_FILE && 0 < |p| <= 512 - w.din.size % 512
    requires w.fs.freeblock + Total(w.din.size + |p|) - Total(w.din.size) <= FS_SIZE
    ensures AppendPiece(Stamp(w, d), p) == Stamp(AppendPiece(w, p), d)
  {
    hide *;
    var fbn := w.din.size / 512;
    PieceBound(w.din.size, |p|);
    SlotNumbers(w.inum, fbn);
    InvSized(w, own);
    NeededTotal(w, |p|);
    var own1 := TakeBlockStep(w, own, fbn);
    var w1 := TakeBlock(w, fbn);
    ReadyPtr(w, w1, fbn);
    OwnedBounds(w1, own1);
    StampFields(w, d);
    StampFields(w1, d);
    StampTakeFull(w, own, d, fbn);
    StampPtr(w1, own1, d, fbn);
    PieceStores(w, fbn, p);
    PieceStores(Stamp(w, d), fbn, p);
    var x := SlotPtr(w1, Slot(w.inum, fbn));
    StampStore(w1, d, x, Splice(Rsect(w1.fs.disk, x), w.din.size % 512, p), w.din.size + |p|);
  }

  lemma PieceBound(n: nat, m: nat)
    requires n / 512 < MAX_FILE && m <= 512 - n % 512
    ensures n + m <= MAX_FILE * 512
  {
  }

  lemma StampFields(w: Work, d: Inode)
    ensures Stamp(w, d).inum == w.inum && Stamp(w, d).din == w.din
  {
  }

  /** As StampTake, also when the block is there already and the disk is full. */
  lemma StampTakeFull(w: Work, own: seq<Slot>, d: Inode, fbn: nat)
    requires Owned(w, own) && fbn < MAX_FILE && w.fs.freeblock + Needed(w, fbn) <= FS_SIZE
    ensures TakeBlock(Stamp(w, d), fbn) == Stamp(TakeBlock(w, fbn), d)
  {
    TakeBlockCases(w, fbn);
    if SlotPtr(w, Slot(w.inum, fbn)) == 0 {
      StampTake(w, own, d, fbn);
    } else {
      StampPtr(w, own, d, fbn);
      TakeBlockCases(Stamp(w, d), fbn);
      hide SlotPtr, TakeBlock, Winode;
    }
  }

  function StampAll(o: Option<Work>, d: Inode): Option<Work> {
    match o
    case None => None
    case Some(w) => Some(Stamp(w, d))
  }

  lemma {:induction false} StampLoop(w: Work, own: seq<Slot>, d: Inode, xp: seq<byte>)
    requires FsInv(w, own) && w.din.size + |xp| <= MAX_FILE * 512
    requires w.fs.freeblock + Total(w.din.size + |xp|) - Total(w.din.size) <= FS_SIZE
    ensures AppendLoop(Stamp(w, d), xp) == StampAll(AppendLoop(w, xp), d)
    decreases |xp|
  {
    hide *;
    StampFields(w, d);
    if xp == [] {
      LoopEmpty(w);
      LoopEmpty(Stamp(w, d));
      StampSome(w, d);
    } else {
      var n1 := Room(w.din.size, |xp|);
      var p, q := xp[..n1], xp[n1..];
      RoomSizes(w.din.size, |xp|);
      assert xp == p + q && |q| < |xp|;
      TotalMono(w.din.size + n1, w.din.size + |xp|);
      LoopCut(w, xp, p, q);
      LoopCut(Stamp(w, d), xp, p, q);
      var own1 := PieceStep(w, own, p);
      var w1 := AppendPiece(w, p);
      StampPiece(w, own, d, p);
      InvSized(w, own);
      InvSized(w1, own1);
      AdvancedSizes(w, w1, p);
      StampLoop(w1, own1, d, q);
    }
  }

  lemma RoomSizes(n: nat, m: nat)
    requires m > 0 && n + m <= MAX_FILE * 512
    ensures n / 512 < MAX_FILE
  {
  }

  lemma StampSome(w: Work, d: Inode)
    ensures StampAll(Some(w), d) == Some(Stamp(w, d))
  {
  }

  lemma StampFlush(w: Work, d: Inode)
    requires Shape(w.fs) && w.inum < INODE_SLOTS
    ensures Flush(Stamp(w, d)) == Flush(w)
  {
    WinodeTwice(w.fs.disk, w.inum, d, w.din);
    hide Winode;
  }

  lemma ReopenStamp(w: Work)
    requires Shape(w.fs) && w.inum < INODE_SLOTS
    ensures Open(Flush(w), w.inum) == Stamp(w, w.din)
  {
    WinodeLaws(w.fs.disk, w.inum, w.din);
    hide Winode, Rinode;
  }

  /** One iappend after another, stopping at the first failed assertion. */
  function AppendAll(fs: Fs, inum: nat, chunks: seq<seq<byte>>): Option<Fs>
    decreases |chunks|
  {
    if chunks == [] then Some(fs)
    else match Iappend(fs, inum, chunks[0])
      case None => None
      case Some(fs') => AppendAll(fs', inum, chunks[1..])
  }

  function Concat(chunks: seq<seq<byte>>): seq<byte> {
    if chunks == [] then [] else chunks[0] + Concat(chunks[1..])
  }

  /** Two calls of iappend leave the same image and counters as one call with all the data. */
  lemma IappendSplit(fs: Fs, own: seq<Slot>, inum: nat, a: seq<byte>, b: seq<byte>)
    requires Inv(fs, own) && inum < INODE_SLOTS && Rinode(fs.disk, inum).size + |a| + |b| <= MAX_FILE * 512
    requires fs.freeblock + Total(Rinode(fs.disk, inum).size + |a| + |b|) - Total(Rinode(fs.disk, inum).size) <= FS_SIZE
    ensures Iappend(fs, inum, a).Some? && Iappend(Iappend(fs, inum, a).value, inum, b) == Iappend(fs, inum, a + b)
  {
    hide *;
    OpenFields(fs, inum);
    var w := Open(fs, inum);
    var n := w.din.size;
    TotalMono(n + |a|, n + |a| + |b|);
    OpenInv(fs, own, inum);
    LoopSplit(w, own, a, b);
    var own1 := LoopCorrect(w, own, a);
    var w1 := AppendLoop(w, a).value;
    InvSized(w, own);
    InvSized(w1, own1);
    AdvancedSizes(w, w1, a);
    var own2 := LoopCorrect(w1, own1, b);
    var w2 := AppendLoop(w1, b).value;
    InvSized(w2, own2);
    AdvancedSizes(w1, w2, b);
    OwnedBounds(w1, own1);
    OwnedBounds(w2, own2);
    StampLoop(w1, own1, w1.din, b);
    ReopenStamp(w1);
    StampFlush(w2, w1.din);
    SplitFinish(fs, inum, a, b, w, w1, w2);
  }

  lemma OpenFields(fs: Fs, inum: nat)
    ensures Open(fs, inum).din == Rinode(fs.disk, inum) && Open(fs, inum).inum == inum && Open(fs, inum).fs == fs
  {
  }

  lemma SplitFinish(fs: Fs, inum: nat, a: seq<byte>, b: seq<byte>, w: Work, w1: Work, w2: Work)
    requires w == Open(fs, inum) && AppendLoop(w, a) == Some(w1) && AppendLoop(w1, b) == Some(w2)
    requires AppendLoop(w, a + b) == AndThen(Some(w1), b)
    requires Open(Flush(w1), inum) == Stamp(w1, w1.din)
    requires AppendLoop(Stamp(w1, w1.din), b) == StampAll(Some(w2), w1.din) && Flush(Stamp(w2, w1.din)) == Flush(w2)
    ensures Iappend(fs, inum, a) == Some(Flush(w1)) && Iappend(Flush(w1), inum, b) == Iappend(fs, inum, a + b)
  {
    hide AppendLoop, Open, Flush, Stamp;
  }

  /** An append of nothing changes nothing. */
  lemma IappendNothing(fs: Fs, inum: nat)
    requires Shape(fs) && inum < INODE_SLOTS
    ensures Iappend(fs, inum, []) == Some(fs)
  {
    WinodeSame(fs.disk, inum);
    hide Winode, Rinode;
  }

  lemma AppendAllNil(fs: Fs, inum: nat)
    ensures AppendAll(fs, inum, []) == Some(fs) && Concat([]) == []
  {
  }

  lemma AppendAllCons(fs: Fs, inum: nat, chunks: seq<seq<byte>>)
    requires chunks != []
    ensures AppendAll(fs, inum, chunks) ==
      if Iappend(fs, inum, chunks[0]).None? then None
      else AppendAll(Iappend(fs, inum, chunks[0]).value, inum, chunks[1..])
    ensures Concat(chunks) == chunks[0] + Concat(chunks[1..])
  {
    hide Iappend;
  }

  /** The image does not depend on how the data of a file is cut into calls: any
      sequence of pieces gives the same disk and counters as one call, and reaches
      the failing assertion exactly when the one call does. */
  lemma {:induction false} ChunkIndependence(fs: Fs, own: seq<Slot>, inum: nat, chunks: seq<seq<byte>>)
    requires Inv(fs, own) && inum < INODE_SLOTS
    requires
      var n := Rinode(fs.disk, inum).size;
      n + |Concat(chunks)| <= MAX_FILE * 512 ==> fs.freeblock + Total(n + |Concat(chunks)|) - Total(n) <= FS_SIZE
    ensures AppendAll(fs, inum, chunks) == Iappend(fs, inum, Concat(chunks))
    decreases |chunks|
  {
    hide *;
    InvShape(fs, own);
    if chunks == [] {
      IappendNothing(fs, inum);
      AppendAllNil(fs, inum);
    } else {
      var a, b := chunks[0], Concat(chunks[1..]);
      var n := Rinode(fs.disk, inum).size;
      AppendAllCons(fs, inum, chunks);
      InvSizes(fs, own, inum);
      IappendFails(fs, inum, a);
      IappendFails(fs, inum, Concat(chunks));
      if n + |a| + |b| <= MAX_FILE * 512 {
        TotalMono(n + |a|, n + |a| + |b|);
        var own1 := IappendCorrect(fs, own, inum, a);
        var fs1 := Iappend(fs, inum, a).value;
        AppendedSize(fs, fs1, inum, a);
        IappendSplit(fs, own, inum, a, b);
        ChunkIndependence(fs1, own1, inum, chunks[1..]);
      } else if Iappend(fs, inum, a).Some? {
        AllSize(fs, inum, a);
        AllFails(Iappend(fs, inum, a).value, inum, chunks[1..]);
      }
    }
  }

  lemma AppendedSize(fs: Fs, fs': Fs, inum: nat, xp: seq<byte>)
    requires Appended(fs, fs', inum, xp)
    ensures Rinode(fs'.disk, inum).size == Rinode(fs.disk, inum).size + |xp|
    ensures fs'.freeblock == fs.freeblock + Total(Rinode(fs'.disk, inum).size) - Total(Rinode(fs.disk, inum).size)
  {
    assert FileStep(fs, fs', inum, inum, xp);
    hide Rinode, Total, Contents;
  }

  /** The size after an append, whatever the state of the disk. */
  lemma {:induction false} LoopSize(w: Work, xp: seq<byte>)
    requires AppendLoop(w, xp).Some? && Shape(w.fs)
    ensures
      var w' := AppendLoop(w, xp).value;
      w'.din.size == w.din.size + |xp| && w'.inum == w.inum && Shape(w'.fs)
    decreases |xp|
  {
    if xp == [] {
      LoopEmpty(w);
    } else {
      var n1 := Room(w.din.size, |xp|);
      LoopFails(w, xp);
      assert w.din.size / 512 < MAX_FILE;
      LoopUnfold(w, xp);
      PieceSize(w, xp[..n1]);
      PieceShape(w, xp[..n1]);
      hide AppendPiece, AppendLoop;
      LoopSize(AppendPiece(w, xp[..n1]), xp[n1..]);
    }
  }

  lemma PieceShape(w: Work, p: seq<byte>)
    requires Shape(w.fs) && w.din.size / 512 < MAX_FILE && |p| <= 512 - w.din.size % 512
    ensures Shape(AppendPiece(w, p).fs)
  {
    hide Rsect, GetPtr, PutPtr;
  }

  lemma AllSize(fs: Fs, inum: nat, xp: seq<byte>)
    requires Iappend(fs, inum, xp).Some? && Shape(fs) && inum < INODE_SLOTS
    ensures Rinode(Iappend(fs, inum, xp).value.disk, inum).size == Rinode(fs.disk, inum).size + |xp|
    ensures Shape(Iappend(fs, inum, xp).value)
  {
    var w := Open(fs, inum);
    LoopSize(w, xp);
    var w' := AppendLoop(w, xp).value;
    WinodeLaws(w'.fs.disk, inum, w'.din);
    hide AppendLoop, Rinode, Winode;
  }

  lemma {:induction false} AllFails(fs: Fs, inum: nat, chunks: seq<seq<byte>>)
    requires Shape(fs) && inum < INODE_SLOTS && Concat(chunks) != []
    requires Rinode(fs.disk, inum).size + |Concat(chunks)| > MAX_FILE * 512
    ensures AppendAll(fs, inum, chunks) == None
    decreases |chunks|
  {
    var a, b := chunks[0], Concat(chunks[1..]);
    IappendFails(fs, inum, a);
    if Iappend(fs, inum, a).Some? {
      AllSize(fs, inum, a);
      assert b == [] ==> a != [];
      hide Rinode, Iappend;
      AllFails(Iappend(fs, inum, a).value, inum, chunks[1..]);
    }
  }
}
