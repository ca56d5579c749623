/** tools/mkfs.c as the program it is: it changes the disk block by block and counts
    freeinode and freeblock up. Every method is proved to do what its function in
    Mkfs, Append or Image says, and never to touch a block past the end of the disk. */
module MkfsProgram {
  import opened Options
  import opened Bits
  import opened FsLayout
  import opened Mkfs
  import opened Append
  import opened Image
  import opened RoundTrip
  import opened Stops

  class Builder {
    const disk: array<Block>
    var freeinode: word
    var freeblock: word

    ghost predicate Valid() {
      disk.Length == FS_SIZE
    }

    ghost function Snap(): Fs
      reads this, disk
    {
      Fs(disk[..], freeinode, freeblock)
    }

    /** The image file as opened: its old contents do not matter. */
    constructor (image: array<Block>)
      requires image.Length == FS_SIZE
      ensures Valid() && disk == image && Snap() == Fs(image[..], 1, 0)
    {
      disk, freeinode, freeblock := image, 1, 0;
    }

    method ReadSector(b: word) returns (buf: Block)
      requires Valid() && b < FS_SIZE
      ensures buf == Rsect(disk[..], b)
    {
      buf := disk[b];
    }

    method WriteSector(b: word, buf: Block)
      requires Valid() && b < FS_SIZE
      modifies disk
      ensures disk[..] == Wsect(old(disk[..]), b, buf)
    {
      disk[b] := buf;
      assert disk[..] == old(disk[..])[b := buf];
    }

    method ReadInodeAt(inum: word) returns (d: Inode)
      requires Valid() && inum < INODE_SLOTS
      ensures d == Rinode(disk[..], inum)
    {
      var buf := ReadSector(inum / 8 + INODE_START);
      d := GetInode(buf, inum % 8);
    }

    method WriteInode(inum: word, d: Inode)
      requires Valid() && inum < INODE_SLOTS
      modifies disk
      ensures disk[..] == Winode(old(disk[..]), inum, d)
    {
      var buf := ReadSector(inum / 8 + INODE_START);
      WriteSector(inum / 8 + INODE_START, PutInode(buf, inum % 8, d));
    }

    method AllocInode(kind: half) returns (inum: word)
      requires Valid() && freeinode < INODE_SLOTS
      modifies this`freeinode, disk
      ensures inum == old(freeinode) && Snap() == Ialloc(old(Snap()), kind)
    {
      hide Winode, Rinode, FreshInode;
      IallocIs(Snap(), kind);
      inum := freeinode;
      freeinode := freeinode + 1;
      WriteInode(inum, FreshInode(kind));
    }

    /** `if (din.addrs[a] == 0) din.addrs[a] = freeblock++`. */
    method GetAddr(inum: word, d: Inode, a: nat) returns (d': Inode)
      requires Valid() && a < 13
      modifies this`freeblock
      ensures Work(Snap(), inum, d') == TakeAddr(Work(old(Snap()), inum, d), a)
    {
      d' := d;
      if d.addrs[a] == 0 {
        d' := SetAddr(d, a, freeblock);
        freeblock := Wrap(freeblock + 1);
      }
    }

    /** The same for entry j of the indirect block, which is read, changed and written back. */
    method GetEntry(inum: word, d: Inode, j: nat) returns (x: word)
      requires Valid() && j < 128 && d.addrs[12] < FS_SIZE
      modifies this`freeblock, disk
      ensures Work(Snap(), inum, d) == TakeEntry(Work(old(Snap()), inum, d), j)
      ensures x == GetPtr(Rsect(disk[..], d.addrs[12]), j)
    {
      hide GetPtr, PutPtr;
      var indirect := ReadSector(d.addrs[12]);
      x := GetPtr(indirect, j);
      if x == 0 {
        GetPutPtr(indirect, j, freeblock, j);
        x := freeblock;
        indirect := PutPtr(indirect, j, freeblock);
        freeblock := Wrap(freeblock + 1);
        WriteSector(d.addrs[12], indirect);
      }
    }

    /** The part of iappend that finds or allocates the block of file block fbn. */
    method GetBlock(inum: word, d: Inode, fbn: nat, ghost own: seq<Slot>) returns (d': Inode, x: word)
      requires Valid() && inum < INODE_SLOTS && fbn < MAX_FILE && Owned(Work(Snap(), inum, d), own)
      requires freeblock + Needed(Work(Snap(), inum, d), fbn) <= FS_SIZE
      modifies this`freeblock, disk
      ensures Work(Snap(), inum, d') == TakeBlock(Work(old(Snap()), inum, d), fbn)
      ensures x == AddrOf(disk[..], d', fbn) && x < FS_SIZE
    {
      ghost var w := Work(Snap(), inum, d);
      ghost var own1 := TakeBlockStep(w, own, fbn);
      BlockRange(w, own, own1, fbn);
      hide SlotPtr, Needed, Owned, FsInv, Ready, TakeAddr, TakeEntry, GetPtr;
      if fbn < 12 {
        d' := GetAddr(inum, d, fbn);
        x := d'.addrs[fbn];
      } else {
        d' := GetAddr(inum, d, 12);
        assert d' == TakeAddr(w, 12).din;
        x := GetEntry(inum, d', fbn - 12);
      }
    }

    /** One iteration of the loop of iappend. */
    method WritePiece(inum: word, d: Inode, piece: seq<byte>, ghost own: seq<Slot>) returns (d': Inode)
      requires Valid() && inum < INODE_SLOTS && d.size / 512 < MAX_FILE && |piece| <= 512 - d.size % 512
      requires Owned(Work(Snap(), inum, d), own) && freeblock + Needed(Work(Snap(), inum, d), d.size / 512) <= FS_SIZE
      modifies this`freeblock, disk
      ensures Work(Snap(), inum, d') == AppendPiece(Work(old(Snap()), inum, d), piece)
    {
      hide TakeBlock, AddrOf, Owned, Needed, AppendPiece, Rsect, Wsect, SetSize, Splice;
      ghost var w := Work(Snap(), inum, d);
      var x;
      d', x := GetBlock(inum, d, d.size / 512, own);
      ghost var w1 := Work(Snap(), inum, d');
      var buf := ReadSector(x);
      WriteSector(x, Splice(buf, d.size % 512, piece));
      d' := SetSize(d', Wrap(d.size + |piece|));
      AppendPieceIs(w, w1, x, piece);
    }

    /** iappend. The ghost argument says which slot owns which block; it is needed only
        to show that all block numbers lie on the disk. */
    method AppendData(inum: word, xp: seq<byte>, ghost own: seq<Slot>) returns (ok: bool)
      requires Valid() && inum < INODE_SLOTS && Inv(Snap(), own) && RoomFor(Snap(), inum, |xp|)
      modifies this`freeblock, disk
      ensures Iappend(old(Snap()), inum, xp) == if ok then Some(Snap()) else None
      ensures Snap() == AppendStop(old(Snap()), inum, xp)
    {
      hide LoopStop, AppendLoop, Current, Rinode, Winode, AppendPiece, Iappend, Inv, Owned, Needed, RoomFor, Flush,
          Open, Room;
      CurrentStart(Snap(), own, inum, xp);
      ghost var w0 := Open(Snap(), inum);
      ghost var own' := own;
      var d := ReadInodeAt(inum);
      var p: seq<byte> := xp;
      while p != []
        invariant Current(Work(Snap(), inum, d), own', p)
        invariant AppendLoop(Work(Snap(), inum, d), p) == AppendLoop(w0, xp)
        invariant LoopStop(Work(Snap(), inum, d), p) == LoopStop(w0, xp)
        decreases |p|
      {
        ghost var w := Work(Snap(), inum, d);
        var off := d.size;
        var fbn := off / B_SIZE;
        StopCases(w, p);
        if fbn >= MAX_FILE {
          ok := false;
          LoopFails(w, p);
          IappendIs(w0.fs, inum, xp);
          FailedIs(w0.fs, inum, xp);
          return;
        }
        var n1 := Room(off, |p|);
        ghost var own1 := CurrentStep(w, own', p, n1);
        d := WritePiece(inum, d, p[..n1], own');
        p, own' := p[n1..], own1;
      }
      ghost var before := disk[..];
      LoopEmpty(Work(Snap(), inum, d));
      IappendIs(old(Snap()), inum, xp);
      WriteInode(inum, d);
      FlushIs(Snap(), Work(Fs(before, freeinode, freeblock), inum, d));
      AppendDone(old(Snap()), inum, xp);
      ok := true;
    }

    /** Clearing the disk and writing the superblock. */
    method Format()
      requires Valid() && freeinode == 1
      modifies this`freeblock, disk
      ensures Snap() == Formatted() && GoodHead(disk[..])
    {
      FormattedDisk();
      freeblock := META_NUM;
      var i: word := 0;
      while i < FS_SIZE
        invariant freeblock == META_NUM && i <= FS_SIZE && forall b :: 0 <= b < i ==> disk[b] == ZeroBlock()
      {
        WriteSector(i, ZeroBlock());
        assert forall b :: 0 <= b <= i ==> disk[..][b] == ZeroBlock();
        i := i + 1;
      }
      ghost var cleared := disk[..];
      assert cleared == seq(1000, _ => ZeroBlock());
      WriteSector(1, SuperBlock());
      hide SuperBlock;
      assert disk[..] == cleared[1 := SuperBlock()];
      assert disk[..] == Formatted().disk;
    }

    /** balloc. */
    method WriteBitmap(used: word) returns (ok: bool)
      requires Valid()
      modifies disk
      ensures ok <==> used < 4096
      ensures disk[..] == if ok then Wsect(old(disk[..]), BMAP_START, Bitmap(used)) else old(disk[..])
    {
      ok := used < 4096;
      if ok {
        var buf: Block := ZeroBlock();
        var i: nat := 0;
        while i < used
          invariant i <= used && buf == Bitmap(i)
        {
          buf := MarkUsed(buf, i);
          i := i + 1;
        }
        WriteSector(BMAP_START, buf);
      }
    }

    /** The root directory with "." and "..". */
    method MakeRoot() returns (ok: bool)
      requires Valid() && freeinode == 1
      modifies this, disk
      ensures ok && WithRoot() == Some(Snap()) && Snap() == RootStop()
    {
      hide Formatted, Iappend, RootStop, AppendStop, Ialloc, Dirent, Inv, Appended, RoomFor;
      Format();
      var root := AllocInode(T_DIR);
      RootStart();
      ok := AppendData(ROOT_INO, Dirent(ROOT_INO, [DOT]), []);
      ghost var own := RootSecond();
      if ok {
        ok := AppendData(ROOT_INO, Dirent(ROOT_INO, [DOT, DOT]), own);
        RootDone();
      }
    }

    /** One file: its inode, its directory entry, and its data in the pieces that read
        delivers. */
    method AddOne(f: File, ghost own: seq<Slot>, ghost done: seq<File>) returns (ok: bool)
      requires Valid() && ImageInv(Snap(), own, done) && |done| + 2 < INODE_SLOTS
        && META_NUM + Cost(done + [f]) <= FS_SIZE
      modifies this, disk
      ensures AddFile(old(Snap()), f) == if ok then Some(Snap()) else None
      ensures Snap() == FileStop(old(Snap()), f)
    {
      ghost var fs := Snap();
      AddFileCases(fs, f);
      FileStopCases(fs, f);
      hide FileStop, ChunksStop, AppendStop, AddFile, ImageInv, Cost, Ialloc, Iappend, Dirent, Inv, RoomFor, AddEntry,
          Acceptable, AppendAll, Xshort;
      if SLASH in f.name || f.chunks.None? {
        return false;
      }
      ImageFacts(fs, own, done);
      NoDataCost(done, f);
      ghost var own1 := NewEntry(fs, own, done, f);
      EntryRoom(fs, own, done, f);
      AddEntryIs(fs, f.name);
      var inum := AllocInode(T_FILE);
      ok := AppendData(ROOT_INO, Dirent(Xshort(inum), f.name), own);
      ok := FillChunks(inum, f, own1, done);
    }

    /** The read loop for one file. */
    method FillChunks(inum: word, f: File, ghost own: seq<Slot>, ghost done: seq<File>) returns (ok: bool)
      requires Valid() && f.chunks.Some? && inum == |done| + 2 < INODE_SLOTS
      requires ImageInv(Snap(), own, done + [NoData(f)]) && META_NUM + Cost(done + [f]) <= FS_SIZE
      modifies this`freeblock, disk
      ensures AppendAll(old(Snap()), inum, f.chunks.value) == if ok then Some(Snap()) else None
      ensures Snap() == ChunksStop(old(Snap()), inum, f.chunks.value)
    {
      hide ChunksStop, AppendStop, AppendAll, ImageInv, Cost, Iappend, Inv, RoomFor;
      var chunks := f.chunks.value;
      ghost var fs0 := Snap();
      ghost var own' := own;
      var j := 0;
      assert chunks[..0] == [] && chunks[0..] == chunks;
      while j < |chunks|
        invariant 0 <= j <= |chunks| && ImageInv(Snap(), own', done + [Partial(f, j)])
        invariant AppendAll(Snap(), inum, chunks[j..]) == AppendAll(fs0, inum, chunks)
        invariant ChunksStop(Snap(), inum, chunks[j..]) == ChunksStop(fs0, inum, chunks)
      {
        ghost var fs := Snap();
        ghost var own1 := ChunkStep(fs, own', done, f, j);
        AppendAllCons(fs, inum, chunks[j..]);
        ChunksStopCons(fs, inum, chunks[j..]);
        ok := AppendData(inum, chunks[j], own');
        if !ok {
          return;
        }
        assert chunks[j..][1..] == chunks[j + 1..];
        own', j := own1, j + 1;
      }
      assert chunks[j..] == [];
      AppendAllNil(Snap(), inum);
      ChunksDone(Snap(), inum, []);
      ok := true;
    }

    /** The end of main: the root's size and the bitmap. */
    method Finish() returns (ok: bool)
      requires Valid()
      modifies disk
      ensures Balloc(RoundRoot(old(Snap()))) == if ok then Some(Snap()) else None
      ensures Snap() == BallocStop(RoundRoot(old(Snap())))
    {
      hide Rinode, Winode, Bitmap;
      var d := ReadInodeAt(ROOT_INO);
      WriteInode(ROOT_INO, SetSize(d, RoundedSize(d.size)));
      ok := WriteBitmap(freeblock);
    }

    /** main. */
    method Build(files: seq<File>) returns (ok: bool)
      requires Valid() && freeinode == 1 && Fits(files)
      modifies this, disk
      ensures Image.Build(files) == if ok then Some(Snap()) else None
      ensures Snap() == BuildStop(files)
    {
      hide WithRoot, AddFile, AddAll, ImageInv, Cost, Balloc, BallocStop, RoundRoot, Image.Build, BuildStop, FileStop,
          FilesStop, RootStop;
      FitsFacts(files);
      ghost var own := RootInv();
      BuildIs(files);
      ok := MakeRoot();
      ghost var fs0 := Snap();
      var i := 0;
      assert files[..0] == [] && files[0..] == files;
      while i < |files|
        invariant 0 <= i <= |files| && ImageInv(Snap(), own, files[..i])
        invariant AddAll(Snap(), files[i..]) == AddAll(fs0, files)
        invariant FilesStop(Snap(), files[i..]) == FilesStop(fs0, files)
      {
        ghost var fs := Snap();
        ghost var own1 := FileStepped(fs, own, files, i);
        FilesStopCons(fs, files[i..]);
        ok := AddOne(files[i], own, files[..i]);
        if !ok {
          BuildStopIs(files);
          return;
        }
        own, i := own1, i + 1;
      }
      assert files[..i] == files && files[i..] == [];
      AddAllNil(Snap());
      FilesDone(Snap(), []);
      ok := Finish();
      BuildStopCases(files);
    }
  }

  lemma RootStart()
    ensures Inv(Ialloc(Formatted(), T_DIR), []) && RoomFor(Ialloc(Formatted(), T_DIR), ROOT_INO, 16)
    ensures Iappend(Ialloc(Formatted(), T_DIR), ROOT_INO, Dirent(ROOT_INO, [DOT])).Some?
  {
    hide *;
    RootNumbers();
    FormattedDisk();
    FormattedInv();
    BlanksAt(Formatted(), 0, 1);
    IallocInv(Formatted(), [], T_DIR);
    IallocDisk(Formatted(), T_DIR);
    IallocHoldsNew(Formatted(), [], T_DIR);
    var fs := Ialloc(Formatted(), T_DIR);
    HoldsSize(fs, ROOT_INO, T_DIR, []);
    RoomIntro(fs, ROOT_INO, 16, 16);
    var own := IappendCorrect(fs, [], ROOT_INO, Dirent(ROOT_INO, [DOT]));
  }

  lemma RootSecond() returns (own: seq<Slot>)
    requires Iappend(Ialloc(Formatted(), T_DIR), ROOT_INO, Dirent(ROOT_INO, [DOT])).Some?
    ensures
      var fs := Iappend(Ialloc(Formatted(), T_DIR), ROOT_INO, Dirent(ROOT_INO, [DOT])).value;
      && Inv(fs, own) && RoomFor(fs, ROOT_INO, 16) && WithRoot() == Iappend(fs, ROOT_INO, Dirent(ROOT_INO, [DOT, DOT]))
      && WithRoot().Some?
  {
    hide *;
    RootNumbers();
    FormattedDisk();
    FormattedInv();
    BlanksAt(Formatted(), 0, 1);
    IallocInv(Formatted(), [], T_DIR);
    IallocDisk(Formatted(), T_DIR);
    IallocHoldsNew(Formatted(), [], T_DIR);
    var fs1 := Ialloc(Formatted(), T_DIR);
    HoldsSize(fs1, ROOT_INO, T_DIR, []);
    var d := Dirent(ROOT_INO, [DOT]);
    own := IappendCorrect(fs1, [], ROOT_INO, d);
    var fs := Iappend(fs1, ROOT_INO, d).value;
    AppendedSize(fs1, fs, ROOT_INO, d);
    RoomIntro(fs, ROOT_INO, 16, 16);
    WithRootIs();
    var own2 := RootInv();
  }

  lemma EntryRoom(fs: Fs, own: seq<Slot>, files: seq<File>, f: File)
    requires ImageInv(fs, own, files) && |files| + 2 < INODE_SLOTS && META_NUM + Cost(files + [NoData(f)]) <= FS_SIZE
    ensures Inv(Ialloc(fs, T_FILE), own) && RoomFor(Ialloc(fs, T_FILE), ROOT_INO, 16)
  {
    hide *;
    ImageFacts(fs, own, files);
    NoDataCost(files, f);
    RootNumbers();
    IallocInv(fs, own, T_FILE);
    IallocDisk(fs, T_FILE);
    IallocHolds(fs, own, T_FILE, ROOT_INO, T_DIR, DirBytes(files));
    HoldsSize(Ialloc(fs, T_FILE), ROOT_INO, T_DIR, DirBytes(files));
    RoomIntro(Ialloc(fs, T_FILE), ROOT_INO, 16, 16);
  }

  lemma FileStepped(fs: Fs, own: seq<Slot>, files: seq<File>, i: nat) returns (own1: seq<Slot>)
    requires i < |files| && |files| + 2 <= INODE_SLOTS && META_NUM + Cost(files) <= FS_SIZE
      && ImageInv(fs, own, files[..i])
    ensures META_NUM + Cost(files[..i] + [files[i]]) <= FS_SIZE
    ensures AddFile(fs, files[i]).Some? ==> ImageInv(AddFile(fs, files[i]).value, own1, files[..i + 1])
    ensures AddAll(fs, files[i..]) ==
      if AddFile(fs, files[i]).None? then None else AddAll(AddFile(fs, files[i]).value, files[i + 1..])
  {
    hide *;
    var done, f := files[..i], files[i];
    assert files[..i + 1] == done + [f];
    assert files == (done + [f]) + files[i + 1..];
    assert files[i..][1..] == files[i + 1..];
    CostPrefix(done + [f], files[i + 1..]);
    own1 := AddFileCorrect(fs, own, done, f);
    AddAllCons(fs, files[i..]);
  }

  lemma IallocIs(fs: Fs, kind: half)
    requires fs.freeinode < INODE_SLOTS
    ensures Ialloc(fs, kind).disk == Winode(fs.disk, fs.freeinode, FreshInode(kind))
    ensures Ialloc(fs, kind).freeinode == fs.freeinode + 1 && Ialloc(fs, kind).freeblock == fs.freeblock
  {
    hide Winode;
  }

  lemma AppendPieceIs(w: Work, w1: Work, x: word, piece: seq<byte>)
    requires w.din.size / 512 < MAX_FILE && |piece| <= 512 - w.din.size % 512
    requires w1 == TakeBlock(w, w.din.size / 512) && x == AddrOf(w1.fs.disk, w1.din, w.din.size / 512)
    ensures AppendPiece(w, piece) ==
      Work(Fs(Wsect(w1.fs.disk, x, Splice(Rsect(w1.fs.disk, x), w.din.size % 512, piece)), w1.fs.freeinode,
          w1.fs.freeblock),
           w1.inum, SetSize(w1.din, Wrap(w.din.size + |piece|)))
  {
    hide TakeBlock, AddrOf, Wsect, Rsect, Splice, SetSize;
  }

  lemma IappendIs(fs: Fs, inum: nat, xp: seq<byte>)
    ensures Iappend(fs, inum, xp) ==
      if AppendLoop(Open(fs, inum), xp).None? then None else Some(Flush(AppendLoop(Open(fs, inum), xp).value))
  {
    hide AppendLoop, Flush, Open;
  }

  lemma FlushIs(fs: Fs, w: Work)
    requires fs.disk == Winode(w.fs.disk, w.inum, w.din) && fs.freeinode == w.fs.freeinode
      && fs.freeblock == w.fs.freeblock
    ensures fs == Flush(w)
  {
    hide Winode;
  }

  /** At the head of the loop of iappend, with p still to be written. */
  ghost predicate Current(w: Work, own: seq<Slot>, p: seq<byte>) {
    FsInv(w, own) && w.fs.freeblock + Total(Capped(w.din.size + |p|)) - Total(w.din.size) <= FS_SIZE
  }

  lemma CurrentStart(fs: Fs, own: seq<Slot>, inum: nat, xp: seq<byte>)
    requires Inv(fs, own) && inum < INODE_SLOTS && RoomFor(fs, inum, |xp|)
    ensures Current(Open(fs, inum), own, xp) && Open(fs, inum) == Work(fs, inum, Rinode(fs.disk, inum))
  {
    OpenInv(fs, own, inum);
    hide FsInv, Rinode, Total;
  }

  lemma CurrentStep(w: Work, own: seq<Slot>, p: seq<byte>, n1: nat) returns (own1: seq<Slot>)
    requires Current(w, own, p) && p != [] && w.din.size / 512 < MAX_FILE && n1 == Room(w.din.size, |p|)
    ensures Owned(w, own) && w.inum < INODE_SLOTS && w.fs.freeblock + Needed(w, w.din.size / 512) <= FS_SIZE
    ensures Current(AppendPiece(w, p[..n1]), own1, p[n1..])
    ensures AppendLoop(w, p) == AppendLoop(AppendPiece(w, p[..n1]), p[n1..])
  {
    hide *;
    var piece, rest := p[..n1], p[n1..];
    assert p == piece + rest;
    CurrentRoom(w, own, p, n1);
    InvSized(w, own);
    LoopCut(w, p, piece, rest);
    NeededTotal(w, n1);
    own1 := PieceStep(w, own, piece);
    var w1 := AppendPiece(w, piece);
    InvSized(w1, own1);
    AdvancedSizes(w, w1, piece);
    CurrentIntro(w, w1, own1, p, rest);
  }

  lemma CurrentRoom(w: Work, own: seq<Slot>, p: seq<byte>, n1: nat)
    requires Current(w, own, p) && p != [] && w.din.size / 512 < MAX_FILE && n1 == Room(w.din.size, |p|)
    ensures FsInv(w, own) && w.fs.freeblock + Total(w.din.size + n1) - Total(w.din.size) <= FS_SIZE
    ensures w.fs.freeblock + Total(Capped(w.din.size + |p|)) - Total(w.din.size) <= FS_SIZE
  {
    assert w.din.size + n1 <= Capped(w.din.size + |p|);
    TotalMono(w.din.size + n1, Capped(w.din.size + |p|));
    hide FsInv, Total, Room;
  }

  lemma CurrentIntro(w: Work, w1: Work, own1: seq<Slot>, p: seq<byte>, rest: seq<byte>)
    requires FsInv(w1, own1) && w1.din.size == w.din.size + |p| - |rest|
    requires w1.fs.freeblock == w.fs.freeblock + Total(w1.din.size) - Total(w.din.size)
    requires w.fs.freeblock + Total(Capped(w.din.size + |p|)) - Total(w.din.size) <= FS_SIZE
    ensures Current(w1, own1, rest)
  {
    hide FsInv, Total, Capped;
  }

  /** The blocks that one iteration touches lie on the disk. */
  lemma BlockRange(w: Work, own: seq<Slot>, own1: seq<Slot>, fbn: nat)
    requires Owned(w, own) && w.inum < INODE_SLOTS && fbn < MAX_FILE && w.fs.freeblock + Needed(w, fbn) <= FS_SIZE
    requires Owned(TakeBlock(w, fbn), own1) && Ready(w, TakeBlock(w, fbn), fbn)
    ensures AddrOf(TakeBlock(w, fbn).fs.disk, TakeBlock(w, fbn).din, fbn) < FS_SIZE
    ensures fbn >= 12 ==> META_NUM <= TakeAddr(w, 12).din.addrs[12] < FS_SIZE
  {
    ReadyPtr(w, TakeBlock(w, fbn), fbn);
    var w1 := TakeBlock(w, fbn);
    assert IsSlot(Slot(w.inum, fbn)) && SlotPtr(w1, Slot(w.inum, fbn)) == AddrOf(w1.fs.disk, w1.din, fbn);
    OwnedPtr(w1, own1, Slot(w.inum, fbn));
    OwnedBounds(w, own);
    TakeBlockCases(w, fbn);
    if fbn >= 12 && w.din.addrs[12] != 0 {
      assert SlotPtr(w, Slot(w.inum, 140)) == w.din.addrs[12];
      OwnedPtr(w, own, Slot(w.inum, 140));
    }
    hide SlotPtr, Owned, Ready, AddrOf, TakeBlock;
  }
}
