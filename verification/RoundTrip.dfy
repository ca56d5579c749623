/** mkfs from end to end: when it succeeds, and that the finished image reads back
    as ".", ".." and the files in argument order. */
module RoundTrip {
  import opened Options
  import opened Bits
  import opened FsLayout
  import opened Mkfs
  import opened Append
  import opened Image

  /* ---- ialloc ---- */

  /** The kind of an inode and its link count play no part in the invariant. */
  lemma KindView(w: Work, w': Work, own: seq<Slot>)
    requires FsInv(w, own) && w'.fs == w.fs && w'.inum == w.inum && w'.din.addrs == w.din.addrs
      && w'.din.size == w.din.size
    ensures FsInv(w', own)
  {
    forall s | IsSlot(s) ensures SlotPtr(w', s) == SlotPtr(w, s) && InodeOf(w', s.ino).size == InodeOf(w, s.ino).size {
    }
    forall j | 0 <= j < INODE_SLOTS ensures InodeOf(w', j).size == InodeOf(w, j).size {
    }
    hide SlotPtr, InodeOf, OwnedBy, Rsect;
    assert Owned(w', own);
    assert Sized(w');
    forall i, j | 0 <= i < INODE_SLOTS && 0 <= j < 512 ensures TailByteZero(w', i, j) {
      assert TailByteZero(w, i, j);
    }
  }

  lemma KindContents(w: Work, w': Work, own: seq<Slot>, j: nat)
    requires FsInv(w, own) && w'.fs == w.fs && w'.inum == w.inum && w'.din.addrs == w.din.addrs
      && w'.din.size == w.din.size
    requires j < INODE_SLOTS && InodeOf(w, j).size <= MAX_FILE * 512
    ensures InodeOf(w', j).size == InodeOf(w, j).size && Contents(w', j) == Contents(w, j)
  {
    hide Owned, Sized, TailZero, Rsect;
    assert forall k :: 0 <= k < InodeOf(w, j).size ==> FileByte(w', j, k) == FileByte(w, j, k);
  }

  function FreshInode(kind: half): Inode {
    Dinode(kind, 0, 0, 1, 0, BlankInode().addrs)
  }

  /** ialloc on an unused inode gives an empty file and disturbs nothing. */
  lemma IallocInv(fs: Fs, own: seq<Slot>, kind: half)
    requires Inv(fs, own) && fs.freeinode < INODE_SLOTS && Rinode(fs.disk, fs.freeinode) == BlankInode()
    ensures Inv(Ialloc(fs, kind), own)
    ensures forall b :: 0 <= b < INODE_START ==> Ialloc(fs, kind).disk[b] == fs.disk[b]
    ensures forall j :: 0 <= j < INODE_SLOTS ==>
      Rinode(Ialloc(fs, kind).disk, j) == if j == fs.freeinode then FreshInode(kind) else Rinode(fs.disk, j)
  {
    var i := fs.freeinode;
    var w := Open(fs, i);
    var w' := Work(fs, i, FreshInode(kind));
    OpenInv(fs, own, i);
    KindView(w, w', own);
    FlushInv(w', own);
    InvShape(fs, own);
    WinodeLaws(fs.disk, i, FreshInode(kind));
    IallocDisk(fs, kind);
    CounterInv(Flush(w'), Ialloc(fs, kind), own);
    hide Rinode, Winode, FsInv;
  }

  lemma IallocDisk(fs: Fs, kind: half)
    ensures Ialloc(fs, kind).disk == Flush(Work(fs, fs.freeinode, FreshInode(kind))).disk
    ensures Ialloc(fs, kind).freeblock == fs.freeblock
    ensures fs.freeinode < INODE_SLOTS ==> Ialloc(fs, kind).freeinode == fs.freeinode + 1
    ensures |Ialloc(fs, kind).disk| == |fs.disk| && (Shape(fs) ==> Shape(Ialloc(fs, kind)))
  {
    hide Winode;
  }

  /** The inode counter plays no part in the invariant. */
  lemma CounterInv(fs: Fs, fs': Fs, own: seq<Slot>)
    requires Inv(fs, own) && fs'.disk == fs.disk && fs'.freeblock == fs.freeblock
    ensures Inv(fs', own)
  {
    InvShape(fs, own);
    SameViewInv(Open(fs, 0), Open(fs', 0), own);
  }

  lemma IallocFile(fs: Fs, own: seq<Slot>, kind: half, j: nat)
    requires Inv(fs, own) && fs.freeinode < INODE_SLOTS && Rinode(fs.disk, fs.freeinode) == BlankInode()
    requires j < INODE_SLOTS
    ensures Rinode(fs.disk, j).size <= MAX_FILE * 512 && Rinode(Ialloc(fs, kind).disk, j).size <= MAX_FILE * 512
    ensures FileOf(Ialloc(fs, kind), j) == FileOf(fs, j)
  {
    var i := fs.freeinode;
    var w := Open(fs, i);
    var w' := Work(fs, i, FreshInode(kind));
    var fs' := Ialloc(fs, kind);
    OpenInv(fs, own, i);
    KindView(w, w', own);
    assert BlankInode().size == FreshInode(kind).size && BlankInode().addrs == FreshInode(kind).addrs
      && w.din == BlankInode();
    assert fs' == Fs(Flush(w').disk, fs'.freeinode, fs.freeblock) by {
      IallocDisk(fs, kind);
    }
    hide *;
    OpenContents(fs, own, i, j);
    KindContents(w, w', own, j);
    FlushContents(w', own, j);
    IallocInv(fs, own, kind);
    InvSizes(fs', own, j);
    CounterFile(Flush(w'), fs', j);
  }

  lemma CounterFile(fs: Fs, fs': Fs, j: nat)
    requires fs'.disk == fs.disk && j < INODE_SLOTS && Rinode(fs.disk, j).size <= MAX_FILE * 512
    ensures FileOf(fs', j) == FileOf(fs, j)
  {
    hide Rsect;
    assert forall k :: 0 <= k < Rinode(fs.disk, j).size ==> FileByte(Open(fs', j), j, k) == FileByte(Open(fs, j), j, k);
  }

  /* ---- the invariant of main ---- */

  predicate Holds(fs: Fs, i: nat, kind: half, data: seq<byte>) {
    && i < INODE_SLOTS && Rinode(fs.disk, i).size <= MAX_FILE * 512
    && Rinode(fs.disk, i).kind == kind && Rinode(fs.disk, i).nlink == 1
    && Rinode(fs.disk, i).major == 0 && Rinode(fs.disk, i).minor == 0
    && FileOf(fs, i) == data
  }

  /** The boot block and the log are empty, and block 1 is the superblock. */
  predicate HeadOk(fs: Fs) {
    && |fs.disk| == FS_SIZE
    && forall b :: 0 <= b < INODE_START ==> fs.disk[b] == if b == 1 then SuperBlock() else ZeroBlock()
  }

  predicate Blanks(fs: Fs, from: nat) {
    forall i :: 0 <= i < INODE_SLOTS && (i == 0 || from <= i) ==> Rinode(fs.disk, i) == BlankInode()
  }

  predicate HoldsFiles(fs: Fs, files: seq<File>) {
    forall k :: 0 <= k < |files| ==> Holds(fs, k + 2, T_FILE, Bytes(files[k]))
  }

  /** After the given files have been added. */
  ghost predicate ImageInv(fs: Fs, own: seq<Slot>, files: seq<File>) {
    && Inv(fs, own) && fs.freeinode == |files| + 2 <= INODE_SLOTS
    && Holds(fs, ROOT_INO, T_DIR, DirBytes(files)) && HoldsFiles(fs, files) && Blanks(fs, |files| + 2)
    && Shape(fs) && fs.disk[0] == ZeroBlock() && fs.disk[1] == SuperBlock() && HeadOk(fs)
    && fs.freeblock == META_NUM + Cost(files)
  }

  lemma HoldsAppend(fs: Fs, fs': Fs, inum: nat, xp: seq<byte>, j: nat, kind: half, data: seq<byte>)
    requires Appended(fs, fs', inum, xp) && Holds(fs, j, kind, data)
    ensures Holds(fs', j, kind, if j == inum then data + xp else data)
  {
    assert FileStep(fs, fs', j, inum, xp);
    hide Appended, Rinode, FileOf;
  }

  lemma BlanksAppend(fs: Fs, fs': Fs, inum: nat, xp: seq<byte>, from: nat)
    requires Appended(fs, fs', inum, xp) && Blanks(fs, from) && 0 < inum < from
    ensures Blanks(fs', from)
  {
    hide Rinode, FileOf;
    forall i | 0 <= i < INODE_SLOTS && (i == 0 || from <= i) ensures Rinode(fs'.disk, i) == BlankInode() {
      assert FileStep(fs, fs', i, inum, xp);
    }
  }

  lemma HoldsFilesAppend(fs: Fs, fs': Fs, inum: nat, xp: seq<byte>, files: seq<File>)
    requires Appended(fs, fs', inum, xp) && HoldsFiles(fs, files) && (inum < 2 || inum >= |files| + 2)
    ensures HoldsFiles(fs', files)
  {
    hide Appended, Holds;
    forall k | 0 <= k < |files| ensures Holds(fs', k + 2, T_FILE, Bytes(files[k])) {
      HoldsAppend(fs, fs', inum, xp, k + 2, T_FILE, Bytes(files[k]));
    }
  }

  lemma AppendedBlocks(fs: Fs, fs': Fs, inum: nat, xp: seq<byte>)
    requires Appended(fs, fs', inum, xp)
    ensures Shape(fs) && Shape(fs') && fs'.disk[0] == fs.disk[0] && fs'.disk[1] == fs.disk[1]
      && fs'.freeinode == fs.freeinode
    ensures |fs'.disk| == 1000 && (HeadOk(fs) ==> HeadOk(fs'))
  {
    hide FileStep, Rinode, SuperBlock, Total;
  }

  lemma HoldsSize(fs: Fs, i: nat, kind: half, data: seq<byte>)
    requires Holds(fs, i, kind, data)
    ensures i < INODE_SLOTS && Rinode(fs.disk, i).size == |data|
  {
  }

  lemma IallocHolds(fs: Fs, own: seq<Slot>, kind: half, j: nat, kind0: half, data: seq<byte>)
    requires Inv(fs, own) && fs.freeinode < INODE_SLOTS && Rinode(fs.disk, fs.freeinode) == BlankInode()
    requires j != fs.freeinode && Holds(fs, j, kind0, data)
    ensures Holds(Ialloc(fs, kind), j, kind0, data)
  {
    IallocInv(fs, own, kind);
    IallocFile(fs, own, kind, j);
    hide Rinode, FileOf, Inv, Ialloc;
  }

  lemma IallocHoldsNew(fs: Fs, own: seq<Slot>, kind: half)
    requires Inv(fs, own) && fs.freeinode < INODE_SLOTS && Rinode(fs.disk, fs.freeinode) == BlankInode()
    ensures Holds(Ialloc(fs, kind), fs.freeinode, kind, [])
  {
    IallocInv(fs, own, kind);
    IallocFile(fs, own, kind, fs.freeinode);
    hide Rinode, Contents, Inv, Ialloc;
  }

  lemma IallocBlanks(fs: Fs, own: seq<Slot>, kind: half)
    requires Inv(fs, own) && 0 < fs.freeinode < INODE_SLOTS && Blanks(fs, fs.freeinode)
    ensures Blanks(Ialloc(fs, kind), fs.freeinode + 1)
  {
    hide Rinode, Inv, Ialloc, FreshInode;
    IallocInv(fs, own, kind);
  }

  lemma IallocHead(fs: Fs, own: seq<Slot>, kind: half)
    requires Inv(fs, own) && fs.freeinode < INODE_SLOTS && Rinode(fs.disk, fs.freeinode) == BlankInode() && HeadOk(fs)
    ensures HeadOk(Ialloc(fs, kind))
  {
    hide Rinode, Inv, Ialloc, FreshInode, SuperBlock;
    IallocInv(fs, own, kind);
    IallocDisk(fs, kind);
  }

  /* ---- one more file ---- */

  lemma DirBytesSnoc(files: seq<File>, f: File)
    ensures DirBytes(files + [f]) == DirBytes(files) + Dirent(Xshort(|files| + 2), f.name)
    ensures FileBlocks(files + [f]) == FileBlocks(files) + Total(|Bytes(f)|)
  {
    assert (files + [f])[..|files|] == files;
  }

  function NoData(f: File): File {
    File(f.name, Some([]))
  }

  lemma NoDataCost(files: seq<File>, f: File)
    ensures Bytes(NoData(f)) == [] && DirBytes(files + [NoData(f)]) == DirBytes(files + [f])
    ensures Cost(files + [f]) == Cost(files + [NoData(f)]) + Total(|Bytes(f)|)
    ensures Cost(files + [NoData(f)]) == Cost(files) + Total(16 * (|files| + 3)) - Total(16 * (|files| + 2))
  {
    DirBytesSnoc(files, f);
    DirBytesSnoc(files, NoData(f));
    assert Total(0) == 0;
    hide Total, Dirent;
  }

  /** A new inode and its directory entry. */
  lemma NewEntry(fs: Fs, own: seq<Slot>, files: seq<File>, f: File) returns (own': seq<Slot>)
    requires ImageInv(fs, own, files) && |files| + 2 < INODE_SLOTS && META_NUM + Cost(files + [NoData(f)]) <= FS_SIZE
    ensures AddEntry(fs, f.name).Some? && ImageInv(AddEntry(fs, f.name).value, own', files + [NoData(f)])
  {
    assert INODE_START == 32;
    hide *;
    RootNumbers();
    ImageFacts(fs, own, files);
    IallocInv(fs, own, T_FILE);
    IallocDisk(fs, T_FILE);
    IallocHolds(fs, own, T_FILE, ROOT_INO, T_DIR, DirBytes(files));
    IallocHoldsNew(fs, own, T_FILE);
    IallocBlanks(fs, own, T_FILE);
    IallocHead(fs, own, T_FILE);
    IallocFiles(fs, own, files);
    AddEntryIs(fs, f.name);
    InodeTakenIntro(Ialloc(fs, T_FILE), own, files);
    own' := EntryAppended(Ialloc(fs, T_FILE), own, files, f, Dirent(Xshort(fs.freeinode), f.name));
  }

  lemma AddEntryIs(fs: Fs, name: seq<byte>)
    ensures AddEntry(fs, name) == Iappend(Ialloc(fs, T_FILE), ROOT_INO, Dirent(Xshort(fs.freeinode), name))
  {
  }

  /** Between ialloc and the directory entry: the new inode is an empty file. */
  ghost predicate InodeTaken(fs: Fs, own: seq<Slot>, files: seq<File>) {
    && Inv(fs, own) && fs.freeinode == |files| + 3 <= INODE_SLOTS && fs.freeblock == META_NUM + Cost(files)
    && Holds(fs, ROOT_INO, T_DIR, DirBytes(files)) && HoldsFiles(fs, files) && Blanks(fs, |files| + 3)
    && Holds(fs, |files| + 2, T_FILE, [])
    && Shape(fs) && |fs.disk| == 1000 && fs.disk[0] == ZeroBlock() && fs.disk[1] == SuperBlock() && HeadOk(fs)
  }

  lemma InodeTakenFacts(fs: Fs, own: seq<Slot>, files: seq<File>)
    requires InodeTaken(fs, own, files)
    ensures Inv(fs, own) && fs.freeinode == |files| + 3 <= INODE_SLOTS && fs.freeblock == META_NUM + Cost(files)
    ensures Holds(fs, ROOT_INO, T_DIR, DirBytes(files)) && HoldsFiles(fs, files) && Blanks(fs, |files| + 3)
    ensures Holds(fs, |files| + 2, T_FILE, [])
    ensures Shape(fs) && |fs.disk| == 1000 && fs.disk[0] == ZeroBlock() && fs.disk[1] == SuperBlock() && HeadOk(fs)
  {
    hide Inv, Holds, HoldsFiles, Blanks;
  }

  lemma InodeTakenIntro(fs: Fs, own: seq<Slot>, files: seq<File>)
    requires Inv(fs, own) && fs.freeinode == |files| + 3 <= INODE_SLOTS && fs.freeblock == META_NUM + Cost(files)
    requires Holds(fs, ROOT_INO, T_DIR, DirBytes(files)) && HoldsFiles(fs, files) && Blanks(fs, |files| + 3)
    requires Holds(fs, |files| + 2, T_FILE, [])
    requires Shape(fs) && |fs.disk| == 1000 && fs.disk[0] == ZeroBlock() && fs.disk[1] == SuperBlock() && HeadOk(fs)
    ensures InodeTaken(fs, own, files)
  {
    hide Inv, Holds, HoldsFiles, Blanks;
  }

  lemma EntryAppended(fs: Fs, own: seq<Slot>, files: seq<File>, f: File, de: seq<byte>) returns (own': seq<Slot>)
    requires InodeTaken(fs, own, files) && META_NUM + Cost(files + [NoData(f)]) <= FS_SIZE
      && de == Dirent(Xshort(|files| + 2), f.name)
    ensures Iappend(fs, ROOT_INO, de).Some? && ImageInv(Iappend(fs, ROOT_INO, de).value, own', files + [NoData(f)])
  {
    hide *;
    InodeTakenFacts(fs, own, files);
    EntryNumbers(files);
    var i := |files| + 2;
    NoDataCost(files, f);
    DirBytesSnoc(files, f);
    HoldsSize(fs, ROOT_INO, T_DIR, DirBytes(files));
    own' := IappendCorrect(fs, own, ROOT_INO, de);
    var fs2 := Iappend(fs, ROOT_INO, de).value;
    HoldsAppend(fs, fs2, ROOT_INO, de, ROOT_INO, T_DIR, DirBytes(files));
    HoldsAppend(fs, fs2, ROOT_INO, de, i, T_FILE, []);
    HoldsFilesAppend(fs, fs2, ROOT_INO, de, files);
    BlanksAppend(fs, fs2, ROOT_INO, de, i + 1);
    AppendedBlocks(fs, fs2, ROOT_INO, de);
    AppendedSize(fs, fs2, ROOT_INO, de);
    HoldsFilesSnoc(fs2, files, NoData(f));
    ImageIntro(fs2, own', files + [NoData(f)]);
  }

  lemma EntryNumbers(files: seq<File>)
    requires |files| + 3 <= INODE_SLOTS
    ensures 16 * (|files| + 3) <= MAX_FILE * 512 && ROOT_INO == 1 && T_DIR == 1 && T_FILE == 2 && INODE_SLOTS == 208
  {
  }

  lemma ImageFacts(fs: Fs, own: seq<Slot>, files: seq<File>)
    requires ImageInv(fs, own, files)
    ensures Inv(fs, own) && fs.freeinode == |files| + 2 <= INODE_SLOTS && fs.freeblock == META_NUM + Cost(files)
    ensures Holds(fs, ROOT_INO, T_DIR, DirBytes(files)) && HoldsFiles(fs, files) && Blanks(fs, |files| + 2)
    ensures Shape(fs) && |fs.disk| == 1000 && fs.disk[0] == ZeroBlock() && fs.disk[1] == SuperBlock() && HeadOk(fs)
    ensures |files| + 2 < INODE_SLOTS ==> Rinode(fs.disk, |files| + 2) == BlankInode()
    ensures |files| <= 206 && |DirBytes(files)| == 16 * (|files| + 2)
  {
    hide Inv, Holds, Rinode;
  }

  lemma ImageIntro(fs: Fs, own: seq<Slot>, files: seq<File>)
    requires Inv(fs, own) && fs.freeinode == |files| + 2 <= INODE_SLOTS && fs.freeblock == META_NUM + Cost(files)
    requires Holds(fs, ROOT_INO, T_DIR, DirBytes(files)) && HoldsFiles(fs, files) && Blanks(fs, |files| + 2)
    requires Shape(fs) && |fs.disk| == 1000 && fs.disk[0] == ZeroBlock() && fs.disk[1] == SuperBlock() && HeadOk(fs)
    ensures ImageInv(fs, own, files)
  {
    hide Inv, Holds, Rinode, HoldsFiles;
  }

  lemma IallocFiles(fs: Fs, own: seq<Slot>, files: seq<File>)
    requires Inv(fs, own) && fs.freeinode == |files| + 2 < INODE_SLOTS && Rinode(fs.disk, fs.freeinode) == BlankInode()
    requires HoldsFiles(fs, files)
    ensures HoldsFiles(Ialloc(fs, T_FILE), files)
  {
    hide Inv, Holds, Ialloc, Rinode;
    forall k | 0 <= k < |files| ensures Holds(Ialloc(fs, T_FILE), k + 2, T_FILE, Bytes(files[k])) {
      IallocHolds(fs, own, T_FILE, k + 2, T_FILE, Bytes(files[k]));
    }
  }

  lemma HoldsFilesSnoc(fs: Fs, files: seq<File>, f: File)
    requires HoldsFiles(fs, files) && Holds(fs, |files| + 2, T_FILE, Bytes(f))
    ensures HoldsFiles(fs, files + [f])
  {
    hide Holds;
  }

  lemma HoldsFilesPrefix(fs: Fs, files: seq<File>, f: File)
    requires HoldsFiles(fs, files + [f])
    ensures HoldsFiles(fs, files) && Holds(fs, |files| + 2, T_FILE, Bytes(f))
  {
    hide Holds;
    forall k | 0 <= k < |files| ensures Holds(fs, k + 2, T_FILE, Bytes(files[k])) {
      assert (files + [f])[k] == files[k];
    }
    assert (files + [f])[|files|] == f;
  }

  /** The data of the new file, in whatever pieces it comes. */
  lemma FillFile(fs: Fs, own: seq<Slot>, files: seq<File>, f: File) returns (own': seq<Slot>)
    requires ImageInv(fs, own, files + [NoData(f)]) && f.chunks.Some? && META_NUM + Cost(files + [f]) <= FS_SIZE
    ensures
      var r := AppendAll(fs, |files| + 2, f.chunks.value);
      && (r.Some? <==> |Bytes(f)| <= MAX_FILE * 512)
      && (r.Some? ==> ImageInv(r.value, own', files + [f]))
  {
    hide *;
    BytesConcat(f);
    var i, data := |files| + 2, Bytes(f);
    ImageFacts(fs, own, files + [NoData(f)]);
    NoDataCost(files, f);
    HoldsFilesPrefix(fs, files, NoData(f));
    HoldsSize(fs, i, T_FILE, []);
    ChunkIndependence(fs, own, i, f.chunks.value);
    IappendFails(fs, i, data);
    own' := own;
    if |data| <= MAX_FILE * 512 {
      assert [] + data == data;
      own' := FileAppended(fs, own, files, NoData(f), f, data);
    }
  }

  lemma BytesConcat(f: File)
    requires f.chunks.Some?
    ensures Bytes(f) == Concat(f.chunks.value) && Total(0) == 0 && NoData(f).name == f.name
  {
  }

  /** More data for the last file. */
  lemma FileAppended(fs: Fs, own: seq<Slot>, files: seq<File>, g: File, f: File, data: seq<byte>)
    returns (own': seq<Slot>)
    requires ImageInv(fs, own, files + [g]) && g.name == f.name && Bytes(f) == Bytes(g) + data
    requires |Bytes(f)| <= MAX_FILE * 512 && META_NUM + Cost(files + [f]) <= FS_SIZE
    ensures Iappend(fs, |files| + 2, data).Some? && ImageInv(Iappend(fs, |files| + 2, data).value, own', files + [f])
  {
    hide *;
    var i := |files| + 2;
    ImageFacts(fs, own, files + [g]);
    LastFile(files, g);
    LastFile(files, f);
    HoldsFilesPrefix(fs, files, g);
    HoldsSize(fs, i, T_FILE, Bytes(g));
    own' := IappendCorrect(fs, own, i, data);
    var fs' := Iappend(fs, i, data).value;
    RootNumbers();
    HoldsAppend(fs, fs', i, data, i, T_FILE, Bytes(g));
    HoldsAppend(fs, fs', i, data, ROOT_INO, T_DIR, DirBytes(files + [g]));
    HoldsFilesAppend(fs, fs', i, data, files);
    BlanksAppend(fs, fs', i, data, i + 1);
    AppendedBlocks(fs, fs', i, data);
    AppendedSize(fs, fs', i, data);
    HoldsSize(fs', i, T_FILE, Bytes(f));
    HoldsFilesSnoc(fs', files, f);
    ImageIntro(fs', own', files + [f]);
  }

  lemma LastFile(files: seq<File>, f: File)
    ensures Cost(files + [f]) == Total(16 * (|files| + 3)) + FileBlocks(files) + Total(|Bytes(f)|)
    ensures DirBytes(files + [f]) == DirBytes(files) + Dirent(Xshort(|files| + 2), f.name)
  {
    DirBytesSnoc(files, f);
    hide Total, Dirent, DirBytes;
  }

  /** One argument: it is added exactly if the code's own checks accept it. */
  lemma AddFileCorrect(fs: Fs, own: seq<Slot>, files: seq<File>, f: File) returns (own': seq<Slot>)
    requires ImageInv(fs, own, files) && |files| + 2 < INODE_SLOTS && META_NUM + Cost(files + [f]) <= FS_SIZE
    ensures AddFile(fs, f).Some? <==> Acceptable(f)
    ensures AddFile(fs, f).Some? ==> ImageInv(AddFile(fs, f).value, own', files + [f])
  {
    own' := own;
    AddFileCases(fs, f);
    hide *;
    if !(SLASH in f.name || f.chunks.None?) {
      NoDataCost(files, f);
      ImageFacts(fs, own, files);
      var own1 := NewEntry(fs, own, files, f);
      own' := FillFile(AddEntry(fs, f.name).value, own1, files, f);
    }
  }

  lemma AddFileCases(fs: Fs, f: File)
    ensures SLASH in f.name || f.chunks.None? ==> AddFile(fs, f) == None && !Acceptable(f)
    ensures !(SLASH in f.name || f.chunks.None?) ==>
      && (Acceptable(f) <==> |Bytes(f)| <= MAX_FILE * 512)
      && (AddEntry(fs, f.name).Some? ==>
          AddFile(fs, f) == AppendAll(AddEntry(fs, f.name).value, fs.freeinode, f.chunks.value))
  {
    hide AddEntry, AppendAll, Bytes;
  }

  lemma CostIs(files: seq<File>)
    ensures Cost(files) == Total(16 * (|files| + 2)) + FileBlocks(files)
  {
    hide Total, FileBlocks;
  }

  lemma {:induction false} CostPrefix(files: seq<File>, rest: seq<File>)
    ensures Cost(files) <= Cost(files + rest)
    decreases |rest|
  {
    if rest == [] {
      assert files + rest == files;
    } else {
      hide *;
      var n := |rest| - 1;
      var front := files + rest[..n];
      CostPrefix(files, rest[..n]);
      assert files + rest == front + [rest[n]];
      CostIs(front);
      LastFile(front, rest[n]);
      CostIs(files + rest);
      TotalMono(16 * (|front| + 2), 16 * (|front| + 3));
    }
  }

  lemma {:induction false} AddAllCorrect(fs: Fs, own: seq<Slot>, done: seq<File>, rest: seq<File>)
    returns (own': seq<Slot>)
    requires ImageInv(fs, own, done) && |done| + |rest| + 2 <= INODE_SLOTS && META_NUM + Cost(done + rest) <= FS_SIZE
    ensures AddAll(fs, rest).Some? <==> AllAcceptable(rest)
    ensures AddAll(fs, rest).Some? ==> ImageInv(AddAll(fs, rest).value, own', done + rest)
    decreases |rest|
  {
    hide *;
    own' := own;
    if rest == [] {
      assert done + rest == done;
      AddAllNil(fs);
    } else {
      var f := rest[0];
      assert done + rest == (done + [f]) + rest[1..];
      AcceptableCons(rest);
      AddAllCons(fs, rest);
      CostPrefix(done + [f], rest[1..]);
      var own1 := AddFileCorrect(fs, own, done, f);
      if AddFile(fs, f).Some? {
        own' := AddAllCorrect(AddFile(fs, f).value, own1, done + [f], rest[1..]);
      }
    }
  }

  lemma AddAllNil(fs: Fs)
    ensures AddAll(fs, []) == Some(fs) && AllAcceptable([])
  {
  }

  lemma AddAllCons(fs: Fs, rest: seq<File>)
    requires rest != []
    ensures AddAll(fs, rest) == if AddFile(fs, rest[0]).None? then None
      else AddAll(AddFile(fs, rest[0]).value, rest[1..])
  {
    hide AddFile;
  }

  lemma AcceptableCons(rest: seq<File>)
    requires rest != []
    ensures AllAcceptable(rest) <==> Acceptable(rest[0]) && AllAcceptable(rest[1..])
  {
    hide Acceptable;
    assert rest == [rest[0]] + rest[1..];
  }

  /* ---- the empty image ---- */

  lemma FormattedInode(i: nat)
    requires i < INODE_SLOTS
    ensures Rinode(Formatted().disk, i) == BlankInode()
  {
    BlankInodeBytes(i % 8);
    hide SuperBlock, GetInode;
    assert Formatted().disk[IBlock(i)] == ZeroBlock();
  }

  lemma BlankPtr(w: Work, s: Slot)
    requires IsSlot(s) && InodeOf(w, s.ino) == BlankInode()
    ensures SlotPtr(w, s) == 0 && !Uses(InodeOf(w, s.ino).size, s.k)
  {
  }

  lemma FormattedDisk()
    ensures Blanks(Formatted(), 0) && Shape(Formatted()) && |Formatted().disk| == 1000
    ensures Formatted().disk[0] == ZeroBlock() && Formatted().disk[1] == SuperBlock() && HeadOk(Formatted())
    ensures forall b :: META_NUM <= b < FS_SIZE ==> Formatted().disk[b] == ZeroBlock()
    ensures Formatted().freeinode == 1 && Formatted().freeblock == META_NUM
    ensures GoodHead(Formatted().disk)
  {
    hide SuperBlock, Rinode, GoodHead;
    HeadNumbers(Formatted().disk);
    forall i | 0 <= i < INODE_SLOTS ensures Rinode(Formatted().disk, i) == BlankInode() {
      FormattedInode(i);
    }
  }

  lemma FormattedInv()
    ensures Inv(Formatted(), [])
  {
    FormattedDisk();
    hide Formatted;
    var fs := Formatted();
    var w := Open(fs, 0);
    assert w.fs == fs && w.inum == 0;
    BlanksInv(w);
  }

  lemma BlanksInv(w: Work)
    requires Shape(w.fs) && w.inum < INODE_SLOTS && w.fs.freeblock == META_NUM
    requires Blanks(w.fs, 0) && w.din == BlankInode()
    requires forall b :: META_NUM <= b < FS_SIZE ==> w.fs.disk[b] == ZeroBlock()
    ensures FsInv(w, [])
  {
    forall i | 0 <= i < INODE_SLOTS ensures InodeOf(w, i) == BlankInode() {
      BlanksAt(w.fs, 0, i);
    }
    hide Blanks, Rinode, SlotPtr, InodeOf, Uses;
    forall s | IsSlot(s) ensures SlotPtr(w, s) == 0 && !Uses(InodeOf(w, s.ino).size, s.k) {
      BlankPtr(w, s);
    }
    assert forall i :: 0 <= i < INODE_SLOTS ==> InodeOf(w, i).size == 0;
    hide BlankInode, ZeroBlock, Rsect;
    assert Owned(w, []);
    assert Sized(w);
    assert TailZero(w);
  }

  lemma RootNumbers()
    ensures ROOT_INO == 1 && T_DIR == 1 && INODE_SLOTS == 208 && FS_SIZE == 1000 && META_NUM == 59 && MAX_FILE == 140
      && INODE_START == 32
    ensures Total(0) == 0 && Total(16) == 1 && Total(32) == 1
  {
  }

  lemma RootInv() returns (own: seq<Slot>)
    ensures WithRoot().Some? && ImageInv(WithRoot().value, own, [])
  {
    hide *;
    RootNumbers();
    EmptyDir();
    var fs0 := Formatted();
    FormattedDisk();
    FormattedInv();
    BlanksAt(fs0, 0, 1);
    IallocInv(fs0, [], T_DIR);
    IallocDisk(fs0, T_DIR);
    IallocHoldsNew(fs0, [], T_DIR);
    IallocBlanks(fs0, [], T_DIR);
    IallocHead(fs0, [], T_DIR);
    own := RootAppends(Ialloc(fs0, T_DIR), Dirent(ROOT_INO, [DOT]), Dirent(ROOT_INO, [DOT, DOT]));
    WithRootIs();
  }

  lemma RootAppends(fs: Fs, d1: seq<byte>, d2: seq<byte>) returns (own: seq<Slot>)
    requires Inv(fs, []) && fs.freeinode == 2 && fs.freeblock == META_NUM && Holds(fs, ROOT_INO, T_DIR, [])
      && Blanks(fs, 2)
    requires Shape(fs) && |fs.disk| == 1000 && fs.disk[0] == ZeroBlock() && fs.disk[1] == SuperBlock() && HeadOk(fs)
    requires d1 == Dirent(ROOT_INO, [DOT]) && d2 == Dirent(ROOT_INO, [DOT, DOT])
    ensures Iappend(fs, ROOT_INO, d1).Some? && Iappend(Iappend(fs, ROOT_INO, d1).value, ROOT_INO, d2).Some?
    ensures ImageInv(Iappend(Iappend(fs, ROOT_INO, d1).value, ROOT_INO, d2).value, own, [])
  {
    hide *;
    RootNumbers();
    EmptyDir();
    HoldsSize(fs, ROOT_INO, T_DIR, []);
    var own1 := IappendCorrect(fs, [], ROOT_INO, d1);
    var fs2 := Iappend(fs, ROOT_INO, d1).value;
    HoldsAppend(fs, fs2, ROOT_INO, d1, ROOT_INO, T_DIR, []);
    assert [] + d1 == d1;
    BlanksAppend(fs, fs2, ROOT_INO, d1, 2);
    AppendedBlocks(fs, fs2, ROOT_INO, d1);
    AppendedSize(fs, fs2, ROOT_INO, d1);
    own := IappendCorrect(fs2, own1, ROOT_INO, d2);
    var fs3 := Iappend(fs2, ROOT_INO, d2).value;
    HoldsAppend(fs2, fs3, ROOT_INO, d2, ROOT_INO, T_DIR, d1);
    BlanksAppend(fs2, fs3, ROOT_INO, d2, 2);
    AppendedBlocks(fs2, fs3, ROOT_INO, d2);
    AppendedSize(fs2, fs3, ROOT_INO, d2);
    ImageIntro(fs3, own, []);
  }

  lemma EmptyDir()
    ensures DirBytes([]) == Dirent(ROOT_INO, [DOT]) + Dirent(ROOT_INO, [DOT, DOT])
    ensures Cost([]) == 1
    ensures forall fs :: HoldsFiles(fs, [])
  {
    hide Dirent;
    assert Total(32) == 1;
  }

  lemma WithRootIs()
    ensures
      var r := Iappend(Ialloc(Formatted(), T_DIR), ROOT_INO, Dirent(ROOT_INO, [DOT]));
      r.Some? ==> WithRoot() == Iappend(r.value, ROOT_INO, Dirent(ROOT_INO, [DOT, DOT]))
  {
    hide Iappend, Ialloc, Dirent, Formatted;
  }

  lemma BlanksAt(fs: Fs, from: nat, i: nat)
    requires Blanks(fs, from) && from <= i < INODE_SLOTS
    ensures Rinode(fs.disk, i) == BlankInode() && Blanks(fs, i)
  {
  }

  /* ---- directory entries ---- */

  lemma {:induction false} EntriesConcat(a: seq<byte>, b: seq<byte>)
    requires |a| % 16 == 0
    ensures Entries(a + b) == Entries(a) + Entries(b)
    decreases |a|
  {
    if |a| < 16 {
      assert a + b == b;
    } else {
      EntriesConcat(a[16..], b);
      assert (a + b)[16..] == a[16..] + b && (a + b)[..16] == a[..16];
      hide UsedEntry;
    }
  }

  lemma {:induction false} EntriesOfZeros(s: seq<byte>)
    requires forall i :: 0 <= i < |s| ==> s[i] == 0
    ensures Entries(s) == []
    decreases |s|
  {
    if |s| >= 16 {
      assert UsedEntry(s[..16]) == [];
      EntriesOfZeros(s[16..]);
      hide UsedEntry;
    }
  }

  lemma {:induction false} CutNameOf(name: seq<byte>, tail: seq<byte>)
    requires 0 !in name && (tail == [] || tail[0] == 0)
    ensures CutName(name + tail) == name
    decreases |name|
  {
    if name == [] {
      assert name + tail == tail;
    } else {
      assert (name + tail)[1..] == name[1..] + tail;
      CutNameOf(name[1..], tail);
    }
  }

  /** The name field reads back as the first 14 bytes of the name. */
  lemma NameFieldCut(name: CString)
    ensures CutName(NameField(name)) == Cut14(name)
  {
    if |name| >= 14 {
      assert name[..14] + [] == name[..14];
      CutNameOf(name[..14], []);
    } else {
      CutNameOf(name, Zeros(14 - |name|));
    }
  }

  lemma EntriesOfDirent(inum: half, name: CString)
    requires inum != 0
    ensures Entries(Dirent(inum, name)) == [Entry(inum, Cut14(name))]
  {
    var s := Dirent(inum, name);
    NameFieldCut(name);
    assert s[2..] == NameField(name) && HalfAt(s, 0) == inum && s[..16] == s;
    assert Entries(s[16..]) == [];
    hide CutName, NameField;
  }

  function DirEntries(files: seq<File>): (r: seq<Entry>)
    ensures |r| == |files| + 2
  {
    [Entry(1, [DOT]), Entry(1, [DOT, DOT])]
    + seq(|files|, k requires 0 <= k < |files| => Entry(Xshort(k + 2), Cut14(files[k].name)))
  }

  lemma EntriesOfEmpty()
    ensures Entries(DirBytes([])) == DirEntries([])
  {
    var a: CString, b: CString := [DOT], [DOT, DOT];
    EmptyDir();
    assert Cut14(a) == a && Cut14(b) == b;
    assert DirEntries([]) == [Entry(1, a)] + [Entry(1, b)];
    assert ROOT_INO == 1;
    hide *;
    EntriesOfDirent(1, a);
    EntriesOfDirent(1, b);
    EntriesConcat(Dirent(1, a), Dirent(1, b));
  }

  lemma InumNonzero(i: nat)
    requires 0 < i < 65536
    ensures Xshort(i) == i
  {
  }

  lemma {:induction false} EntriesOfDir(files: seq<File>)
    requires |files| <= 206
    ensures Entries(DirBytes(files)) == DirEntries(files)
    decreases |files|
  {
    hide *;
    if files == [] {
      EntriesOfEmpty();
    } else {
      var n := |files| - 1;
      var f := files[n];
      assert files == files[..n] + [f];
      InumNonzero(n + 2);
      DirBytesSnoc(files[..n], f);
      EntriesOfDir(files[..n]);
      EntriesOfDirent(Xshort(n + 2), f.name);
      EntriesConcat(DirBytes(files[..n]), Dirent(Xshort(n + 2), f.name));
      DirEntriesSnoc(files[..n], f);
    }
  }

  lemma DirEntriesSnoc(files: seq<File>, f: File)
    ensures DirEntries(files + [f]) == DirEntries(files) + [Entry(Xshort(|files| + 2), Cut14(f.name))]
  {
    hide Xshort, Cut14;
  }

  /** balloc: its assertion, and the one block that it writes. */
  lemma BallocWrites(fs: Fs)
    requires Shape(fs)
    ensures Balloc(fs).Some? <==> fs.freeblock < 4096
    ensures Balloc(fs).Some? ==>
      var r := Balloc(fs).value;
      && r.freeblock == fs.freeblock && r.freeinode == fs.freeinode && |r.disk| == 1000
      && (forall b :: 0 <= b < 1000 && b != 58 ==> r.disk[b] == fs.disk[b])
      && (forall b :: 0 <= b < 4096 ==> (BitSet(r.disk[58], b) <==> b < fs.freeblock))
  {
    hide Bitmap, BitSet;
    if fs.freeblock < 4096 {
      forall b | 0 <= b < 4096 ensures BitSet(Bitmap(fs.freeblock), b) <==> b < fs.freeblock {
        BitmapBits(fs.freeblock, b);
      }
    }
  }

  /* ---- the finished image ---- */

  /** The disk after rounding the root's size and writing the bitmap. */
  ghost predicate Finished(fs: Fs, disk: seq<Block>) {
    && Shape(fs) && |disk| == FS_SIZE
    && (forall b :: 0 <= b < INODE_START || META_NUM <= b < FS_SIZE ==> disk[b] == fs.disk[b])
    && (forall j :: 0 <= j < INODE_SLOTS && j != ROOT_INO ==> Rinode(disk, j) == Rinode(fs.disk, j))
    && Rinode(disk, ROOT_INO) == SetSize(Rinode(fs.disk, ROOT_INO), RoundedSize(Rinode(fs.disk, ROOT_INO).size))
  }

  lemma FinishedIntro(fs: Fs)
    requires Shape(fs) && fs.freeblock <= FS_SIZE
    ensures Balloc(RoundRoot(fs)).Some?
    ensures
      var r := Balloc(RoundRoot(fs)).value;
      && r.freeblock == fs.freeblock && r.freeinode == fs.freeinode
      && Finished(fs, r.disk) && r.disk[BMAP_START] == Bitmap(fs.freeblock)
  {
    var d := Rinode(fs.disk, ROOT_INO);
    WinodeLaws(fs.disk, ROOT_INO, SetSize(d, RoundedSize(d.size)));
    hide Rinode, Winode, Bitmap, RoundedSize;
    var r := Balloc(RoundRoot(fs)).value;
    var disk1 := RoundRoot(fs).disk;
    assert r.disk == disk1[BMAP_START := Bitmap(fs.freeblock)];
    forall j | 0 <= j < INODE_SLOTS ensures Rinode(r.disk, j) == Rinode(disk1, j) {
      BeforeBitmap(disk1, Bitmap(fs.freeblock), j);
    }
  }

  lemma BeforeBitmap(disk: seq<Block>, buf: Block, j: nat)
    requires |disk| == FS_SIZE && j < INODE_SLOTS
    ensures Rinode(disk[BMAP_START := buf], j) == Rinode(disk, j)
  {
    assert IBlock(j) < BMAP_START;
    hide GetInode;
  }

  lemma ReadInodeIs(fs: Fs, disk: seq<Block>, i: nat)
    requires Finished(fs, disk) && fs.disk[1] == SuperBlock() && i < INODE_SLOTS
    ensures ReadInode(disk, i) == Rinode(disk, i)
  {
    hide *;
    FinishedSuper(fs, disk);
    InodesStart();
    ReadInodeAt(disk, i);
  }

  lemma FinishedSuper(fs: Fs, disk: seq<Block>)
    requires Finished(fs, disk) && fs.disk[1] == SuperBlock()
    ensures Rsect(disk, 1) == SuperBlock()
  {
    hide SuperBlock, Rinode, RoundedSize;
  }

  lemma ReadInodeAt(disk: seq<Block>, i: nat)
    requires GetPtr(Rsect(disk, 1), 5) == INODE_START && IPB == 8
    ensures ReadInode(disk, i) == Rinode(disk, i)
  {
    hide GetPtr, GetInode, Rsect;
  }

  lemma InodesStart()
    ensures GetPtr(SuperBlock(), 5) == INODE_START && IPB == 8
  {
    SuperWord(5);
    hide GetPtr, SuperBlock;
  }

  /** The fields of the superblock, as a reader finds them. */
  lemma SuperWord(i: nat)
    requires i < 7
    ensures GetPtr(SuperBlock(), i) == SuperWords()[i]
  {
    WordsBytesAt(SuperWords(), i);
    WordRoundTrip(SuperWords()[i]);
    assert SuperBlock()[4 * i..4 * i + 4] == WordsBytes(SuperWords())[4 * i..4 * i + 4];
    hide WordsBytes;
    assert WordAt(SuperBlock(), 4 * i) == WordAt(SuperBlock()[4 * i..4 * i + 4], 0);
  }

  lemma OwnedPtr(w: Work, own: seq<Slot>, s: Slot)
    requires Owned(w, own) && IsSlot(s) && SlotPtr(w, s) != 0
    ensures META_NUM <= SlotPtr(w, s) < FS_SIZE
  {
    assert OwnedBy(SlotPtr(w, s), s, w.fs.freeblock, own);
    hide SlotPtr;
  }

  lemma OpenPtr(fs: Fs, s: Slot)
    requires IsSlot(s)
    ensures SlotPtr(Open(fs, 0), s) == SlotOf(fs.disk, Rinode(fs.disk, s.ino), s.k)
    ensures Open(fs, 0).fs == fs && InodeOf(Open(fs, 0), s.ino) == Rinode(fs.disk, s.ino)
  {
    hide SlotOf, Rinode;
  }

  /** Pointers and data blocks survive the last two steps. */
  lemma DataKept(fs: Fs, own: seq<Slot>, disk: seq<Block>, s: Slot)
    requires Inv(fs, own) && Finished(fs, disk) && IsSlot(s)
    ensures SlotOf(disk, Rinode(fs.disk, s.ino), s.k) == SlotPtr(Open(fs, 0), s)
    ensures
      var x := SlotPtr(Open(fs, 0), s);
      x != 0 ==> META_NUM <= x < FS_SIZE && Rsect(disk, x) == Rsect(fs.disk, x)
  {
    hide *;
    var w, t := Open(fs, 0), Slot(s.ino, 140);
    InvOwned(fs, own);
    IndirectSlot(s);
    OpenPtr(fs, s);
    OpenPtr(fs, t);
    if SlotPtr(w, s) != 0 {
      OwnedPtr(w, own, s);
      FinishedData(fs, disk, SlotPtr(w, s));
    }
    if SlotPtr(w, t) != 0 {
      OwnedPtr(w, own, t);
      FinishedData(fs, disk, SlotPtr(w, t));
    }
    SlotReads(fs.disk, disk, Rinode(fs.disk, s.ino), s.k);
  }

  lemma InvOwned(fs: Fs, own: seq<Slot>)
    requires Inv(fs, own)
    ensures Owned(Open(fs, 0), own)
  {
    hide Owned, Sized, TailZero;
  }

  lemma IndirectSlot(s: Slot)
    requires IsSlot(s)
    ensures IsSlot(Slot(s.ino, 140)) && s.ino < INODE_SLOTS && s.k <= 140
  {
  }

  lemma FinishedData(fs: Fs, disk: seq<Block>, x: nat)
    requires Finished(fs, disk) && META_NUM <= x < FS_SIZE
    ensures Rsect(disk, x) == Rsect(fs.disk, x)
  {
    hide Rinode;
  }

  /** A pointer depends on the inode and, at most, on its indirect block. */
  lemma SlotReads(disk: seq<Block>, disk': seq<Block>, d: Inode, k: nat)
    requires k <= 140
    requires SlotOf(disk, d, 140) != 0 ==> Rsect(disk', SlotOf(disk, d, 140)) == Rsect(disk, SlotOf(disk, d, 140))
    ensures SlotOf(disk', d, k) == SlotOf(disk, d, k)
  {
    hide GetPtr, Rsect;
  }

  /** Reading a byte of a file from the finished disk. */
  lemma ReadKept(fs: Fs, own: seq<Slot>, disk: seq<Block>, j: nat, k: nat)
    requires Inv(fs, own) && Finished(fs, disk) && j < INODE_SLOTS && k < Rinode(fs.disk, j).size <= MAX_FILE * 512
    ensures ReadByte(disk, Rinode(disk, j), k) == FileOf(fs, j)[k]
  {
    var w := Open(fs, 0);
    var s := Slot(j, k / 512);
    BlockOfByte(k, Rinode(fs.disk, j).size);
    assert IsSlot(s);
    assert SlotPtr(w, s) != 0 <==> Uses(InodeOf(w, j).size, s.k);
    assert InodeOf(w, j) == Rinode(fs.disk, j);
    DataKept(fs, own, disk, s);
    assert Rinode(disk, j).addrs == Rinode(fs.disk, j).addrs;
    assert SlotPtr(Open(fs, j), s) == SlotPtr(w, s);
    ReadAddr(disk, Rinode(disk, j), Rinode(fs.disk, j), s.k);
    hide SlotPtr, SlotOf, AddrOf, Rinode, Inv, Uses, Finished, InodeOf;
  }

  lemma ReadAddr(disk: seq<Block>, d: Inode, d': Inode, k: nat)
    requires d.addrs == d'.addrs && k < 140
    ensures AddrOf(disk, d, k) == SlotOf(disk, d', k)
  {
    hide GetPtr;
  }

  /** Past the last entry, the rounded root directory reads as zeros: from the rest
      of its last block, or, when the entries fill their blocks, through a null
      pointer from block 0. */
  lemma RootPadding(fs: Fs, own: seq<Slot>, disk: seq<Block>, k: nat)
    requires Inv(fs, own) && Finished(fs, disk) && fs.disk[0] == ZeroBlock()
    requires
      var n := Rinode(fs.disk, ROOT_INO).size;
      n <= k < (n / 512 + 1) * 512 && n / 512 < MAX_FILE
    ensures ReadByte(disk, Rinode(disk, ROOT_INO), k) == 0
    ensures AddrOf(disk, Rinode(disk, ROOT_INO), k / 512) != 0 <==> Rinode(fs.disk, ROOT_INO).size % 512 != 0
  {
    var w := Open(fs, 0);
    var n := Rinode(fs.disk, ROOT_INO).size;
    var s := Slot(ROOT_INO, n / 512);
    assert k / 512 == n / 512 && k % 512 >= n % 512;
    assert IsSlot(s);
    assert InodeOf(w, ROOT_INO) == Rinode(fs.disk, ROOT_INO);
    assert SlotPtr(w, s) != 0 <==> Uses(InodeOf(w, ROOT_INO).size, s.k);
    assert Uses(n, n / 512) <==> n % 512 != 0;
    assert TailByteZero(w, ROOT_INO, k % 512);
    DataKept(fs, own, disk, s);
    assert Rinode(disk, ROOT_INO).addrs == Rinode(fs.disk, ROOT_INO).addrs;
    ReadAddr(disk, Rinode(disk, ROOT_INO), Rinode(fs.disk, ROOT_INO), s.k);
    hide SlotPtr, SlotOf, AddrOf, Rinode, Inv, Uses, InodeOf;
  }

  lemma RootSizes(fs: Fs, own: seq<Slot>, disk: seq<Block>, files: seq<File>)
    requires ImageInv(fs, own, files) && Finished(fs, disk)
    ensures ReadInode(disk, ROOT_INO) == Rinode(disk, ROOT_INO)
    ensures Rinode(fs.disk, ROOT_INO).size == 16 * (|files| + 2) <= MAX_FILE * 512
      && FileOf(fs, ROOT_INO) == DirBytes(files)
    ensures 16 * (|files| + 2) / 512 < MAX_FILE && |files| <= 206
    ensures Rinode(disk, ROOT_INO).size == (16 * (|files| + 2) / 512 + 1) * 512
  {
    hide *;
    RootNumbers();
    ImageFacts(fs, own, files);
    HoldsSize(fs, ROOT_INO, T_DIR, DirBytes(files));
    ReadInodeIs(fs, disk, ROOT_INO);
    FinishedRoot(fs, disk);
    HoldsContents(fs, ROOT_INO, T_DIR, DirBytes(files));
    RoundedIs(16 * (|files| + 2));
  }

  lemma FinishedRoot(fs: Fs, disk: seq<Block>)
    requires Finished(fs, disk)
    ensures Rinode(disk, ROOT_INO).size == RoundedSize(Rinode(fs.disk, ROOT_INO).size)
  {
    hide Rinode, RoundedSize;
  }

  lemma HoldsContents(fs: Fs, i: nat, kind: half, data: seq<byte>)
    requires Holds(fs, i, kind, data)
    ensures i < INODE_SLOTS && Rinode(fs.disk, i).kind == kind
    ensures Rinode(fs.disk, i).size <= MAX_FILE * 512 && FileOf(fs, i) == data
  {
    hide Rinode, FileOf;
  }

  lemma RoundedIs(n: nat)
    requires n <= 3328
    ensures RoundedSize(n) == (n / 512 + 1) * 512 && n / 512 < MAX_FILE && n <= MAX_FILE * 512
      && n < (n / 512 + 1) * 512
  {
  }

  lemma RootByte(fs: Fs, own: seq<Slot>, disk: seq<Block>, files: seq<File>, k: nat)
    requires ImageInv(fs, own, files) && Finished(fs, disk) && k < (16 * (|files| + 2) / 512 + 1) * 512
    ensures ReadByte(disk, ReadInode(disk, ROOT_INO), k) == if k < |DirBytes(files)| then DirBytes(files)[k] else 0
  {
    RootSizes(fs, own, disk, files);
    ImageFacts(fs, own, files);
    RootNumbers();
    hide *;
    if k < |DirBytes(files)| {
      ReadKept(fs, own, disk, ROOT_INO, k);
    } else {
      RootPadding(fs, own, disk, k);
    }
  }

  /** The root directory as read from the finished disk. */
  lemma RootReads(fs: Fs, own: seq<Slot>, disk: seq<Block>, files: seq<File>)
    requires ImageInv(fs, own, files) && Finished(fs, disk)
    ensures Entries(ReadFile(disk, ReadInode(disk, ROOT_INO))) == DirEntries(files)
  {
    hide *;
    RootSizes(fs, own, disk, files);
    var n := 16 * (|files| + 2);
    var m := (n / 512 + 1) * 512;
    RoundedIs(n);
    var d := ReadInode(disk, ROOT_INO);
    var s := ReadFile(disk, d);
    var db := DirBytes(files);
    forall k | 0 <= k < m ensures s[k] == if k < |db| then db[k] else 0 {
      RootByte(fs, own, disk, files, k);
      ReadFileByte(disk, d, k);
    }
    assert s == db + Zeros(m - n);
    EntriesConcat(db, Zeros(m - n));
    EntriesOfZeros(Zeros(m - n));
    EntriesOfDir(files);
  }

  lemma ReadFileByte(disk: seq<Block>, d: Inode, k: nat)
    requires k < d.size
    ensures ReadFile(disk, d)[k] == ReadByte(disk, d, k)
  {
    hide ReadByte;
  }

  lemma FileReads(fs: Fs, own: seq<Slot>, disk: seq<Block>, j: nat, kind: half, data: seq<byte>)
    requires Inv(fs, own) && Finished(fs, disk) && fs.disk[1] == SuperBlock() && Holds(fs, j, kind, data)
    ensures ReadInode(disk, j).kind == kind
    ensures j != ROOT_INO ==> ReadFile(disk, ReadInode(disk, j)) == data
  {
    hide *;
    HoldsContents(fs, j, kind, data);
    ReadInodeIs(fs, disk, j);
    FinishedInode(fs, disk, j);
    var d := Rinode(disk, j);
    if j != ROOT_INO {
      forall k | 0 <= k < d.size ensures ReadFile(disk, d)[k] == data[k] {
        ReadKept(fs, own, disk, j, k);
        ReadFileByte(disk, d, k);
      }
    }
  }

  lemma FinishedInode(fs: Fs, disk: seq<Block>, j: nat)
    requires Finished(fs, disk) && j < INODE_SLOTS
    ensures Rinode(disk, j).kind == Rinode(fs.disk, j).kind
    ensures j != ROOT_INO ==> Rinode(disk, j) == Rinode(fs.disk, j)
  {
    hide Rinode, RoundedSize;
  }

  lemma ImageReads(fs: Fs, own: seq<Slot>, disk: seq<Block>, files: seq<File>)
    requires ImageInv(fs, own, files) && Finished(fs, disk)
    ensures ReadImage(disk) == Expected(files)
  {
    hide *;
    ImageFacts(fs, own, files);
    RootReads(fs, own, disk, files);
    var es := DirEntries(files);
    FileReads(fs, own, disk, ROOT_INO, T_DIR, DirBytes(files));
    RootNumbers();
    FollowsRoot(disk, files);
    forall i | 0 <= i < |es| ensures Follow(disk, es[i]) == Expected(files)[i] {
      if i >= 2 {
        HoldsFileAt(fs, files, i - 2);
        FileReads(fs, own, disk, i, T_FILE, Bytes(files[i - 2]));
        FollowsFile(disk, files, i - 2);
      }
    }
    FollowsAll(disk, es, Expected(files));
    ReadImageIs(disk);
  }

  lemma ReadImageIs(disk: seq<Block>)
    ensures ReadImage(disk) == FollowAll(disk, Entries(ReadFile(disk, ReadInode(disk, ROOT_INO))))
  {
    hide FollowAll, Entries, ReadFile, ReadInode;
  }

  lemma FollowsAll(disk: seq<Block>, es: seq<Entry>, expected: seq<Listing>)
    requires |es| == |expected| && forall i :: 0 <= i < |es| ==> Follow(disk, es[i]) == expected[i]
    ensures FollowAll(disk, es) == expected
  {
    hide Follow;
  }

  lemma HoldsFileAt(fs: Fs, files: seq<File>, k: nat)
    requires HoldsFiles(fs, files) && k < |files|
    ensures Holds(fs, k + 2, T_FILE, Bytes(files[k]))
  {
    hide Holds;
  }

  lemma FollowsRoot(disk: seq<Block>, files: seq<File>)
    requires ReadInode(disk, ROOT_INO).kind == T_DIR
    ensures Follow(disk, DirEntries(files)[0]) == Expected(files)[0]
      && Follow(disk, DirEntries(files)[1]) == Expected(files)[1]
  {
    hide ReadInode, ReadFile, Xshort, Cut14, Bytes;
  }

  lemma FollowsFile(disk: seq<Block>, files: seq<File>, k: nat)
    requires k < |files| <= 206
    requires ReadInode(disk, k + 2).kind == T_FILE && ReadFile(disk, ReadInode(disk, k + 2)) == Bytes(files[k])
    ensures Follow(disk, DirEntries(files)[k + 2]) == Expected(files)[k + 2]
  {
    hide *;
    InumNonzero(k + 2);
    EntryAt(files, k);
    FollowIs(disk, DirEntries(files)[k + 2]);
  }

  lemma EntryAt(files: seq<File>, k: nat)
    requires k < |files|
    ensures DirEntries(files)[k + 2] == Entry(Xshort(k + 2), Cut14(files[k].name))
    ensures Expected(files)[k + 2] == Listing(Xshort(k + 2), Cut14(files[k].name), T_FILE, Bytes(files[k]))
  {
    hide Cut14, Bytes;
  }

  lemma FollowIs(disk: seq<Block>, e: Entry)
    requires ReadInode(disk, e.inum).kind == T_FILE
    ensures Follow(disk, e) == Listing(e.inum, e.name, T_FILE, ReadFile(disk, ReadInode(disk, e.inum)))
  {
    hide ReadInode, ReadFile;
  }

  /** The bitmap says which blocks are in use: those of the metadata and those that
      some inode refers to. */
  ghost predicate InUse(fs: Fs, b: nat) {
    b < META_NUM || exists s :: IsSlot(s) && SlotPtr(Open(fs, 0), s) == b
  }

  lemma FinishedOwned(fs: Fs, own: seq<Slot>, r: Fs)
    requires Inv(fs, own) && Finished(fs, r.disk) && r.freeblock == fs.freeblock
    ensures Owned(Open(r, 0), own)
  {
    hide *;
    InvOwned(fs, own);
    FinishedViews(fs, r);
    var w, w' := Open(fs, 0), Open(r, 0);
    forall s | IsSlot(s) ensures SlotPtr(w', s) == SlotPtr(w, s) {
      FinishedPtr(fs, own, r, s);
    }
    OwnedSame(w, w', own);
  }

  lemma FinishedViews(fs: Fs, r: Fs)
    requires Finished(fs, r.disk)
    ensures Open(fs, 0).fs == fs && Open(r, 0).fs == r && Open(fs, 0).inum == 0 && Open(r, 0).inum == 0
    ensures Shape(fs) && Shape(r) && |r.disk| == |fs.disk| == FS_SIZE
    ensures forall b :: META_NUM <= b < FS_SIZE ==> r.disk[b] == fs.disk[b]
  {
    hide Rinode;
  }

  lemma OwnedSame(w: Work, w': Work, own: seq<Slot>)
    requires Owned(w, own) && Shape(w'.fs) && w'.inum == w.inum && w'.fs.freeblock == w.fs.freeblock
    requires forall b :: META_NUM <= b < FS_SIZE ==> w'.fs.disk[b] == w.fs.disk[b]
    requires forall s :: IsSlot(s) ==> SlotPtr(w', s) == SlotPtr(w, s)
    ensures Owned(w', own)
  {
    hide SlotPtr, OwnedBy;
  }

  lemma FinishedPtr(fs: Fs, own: seq<Slot>, r: Fs, s: Slot)
    requires Inv(fs, own) && Finished(fs, r.disk) && r.freeblock == fs.freeblock && IsSlot(s)
    ensures SlotPtr(Open(r, 0), s) == SlotPtr(Open(fs, 0), s)
  {
    assert Rinode(r.disk, s.ino).addrs == Rinode(fs.disk, s.ino).addrs;
    hide *;
    DataKept(fs, own, r.disk, s);
    OpenPtr(r, s);
    SlotAddr(r.disk, Rinode(r.disk, s.ino), Rinode(fs.disk, s.ino), s.k);
  }

  lemma SlotAddr(disk: seq<Block>, d: Inode, d': Inode, k: nat)
    requires d.addrs == d'.addrs && k <= 140
    ensures SlotOf(disk, d, k) == SlotOf(disk, d', k)
  {
    hide GetPtr;
  }

  lemma OwnedInUse(fs: Fs, own: seq<Slot>, b: nat)
    requires Owned(Open(fs, 0), own) && b < 4096
    ensures InUse(fs, b) <==> b < fs.freeblock
    ensures forall s, t ::
      IsSlot(s) && IsSlot(t) && SlotPtr(Open(fs, 0), s) == b == SlotPtr(Open(fs, 0), t) && b != 0 ==> s == t
    ensures fs.freeblock <= b < FS_SIZE ==> fs.disk[b] == ZeroBlock()
  {
    var w := Open(fs, 0);
    assert w.fs == fs;
    forall s | IsSlot(s) && SlotPtr(w, s) == b && b != 0 ensures OwnedBy(b, s, fs.freeblock, own) {
    }
    if META_NUM <= b < fs.freeblock {
      assert IsSlot(own[b - META_NUM]) && SlotPtr(w, own[b - META_NUM]) == b;
    }
    hide SlotPtr;
  }

  /** mkfs from end to end. It completes exactly when every argument passes the
      code's own checks. Then a reader that starts from the superblock finds ".",
      ".." and the files in argument order, with inodes 2, 3, ..., names cut to 14
      bytes and unchanged contents; the bitmap marks exactly the metadata blocks and
      the blocks that some inode refers to; no block has two owners; and every free
      block is zero. */
  lemma MkfsCorrect(files: seq<File>)
    requires Fits(files)
    ensures Build(files).Some? <==> AllAcceptable(files)
    ensures Build(files).Some? ==> GoodImage(Build(files).value, files)
  {
    hide *;
    var own0 := RootInv();
    var fs0 := WithRoot().value;
    FitsFacts(files);
    assert [] + files == files;
    var own := AddAllCorrect(fs0, own0, [], files);
    BuildIs(files);
    if AddAll(fs0, files).Some? {
      var fs := AddAll(fs0, files).value;
      ImageFacts(fs, own, files);
      InvShape(fs, own);
      FinishedIntro(fs);
      var r := Balloc(RoundRoot(fs)).value;
      ImageReads(fs, own, r.disk, files);
      FinishedOwned(fs, own, r);
      FinishedShape(fs, r.disk);
      FinishedHead(fs, r.disk);
      FinishedInodes(fs, own, r.disk, files);
      GoodIntro(r, own, files);
    }
  }

  ghost predicate GoodImage(fs: Fs, files: seq<File>) {
    && Shape(fs) && ReadImage(fs.disk) == Expected(files)
    && GoodHead(fs.disk) && GoodInodes(fs.disk, |files|)
    && fs.freeblock == 59 + Cost(files) <= 1000
    && forall b :: 0 <= b < 4096 ==> GoodBlock(fs, b)
  }

  /** Field i of the superblock on the disk: size, nblocks, ninodes, nlog, logstart,
      inodestart, bmapstart. */
  function SuperField(disk: seq<Block>, i: nat): word
    requires i < 7
  {
    GetPtr(Rsect(disk, 1), i)
  }

  /** The superblock has these fields and zeros after them; the log follows it, the
      inode blocks follow the log, the bitmap block follows them, and the data blocks
      follow the bitmap up to the end of the disk; boot block and log are zero. */
  predicate GoodHead(disk: seq<Block>) {
    && SuperField(disk, 0) == 1000 && SuperField(disk, 1) == 941 && SuperField(disk, 2) == 200
    && SuperField(disk, 3) == 30 && SuperField(disk, 4) == 2 && SuperField(disk, 5) == 32 && SuperField(disk, 6) == 58
    && SuperField(disk, 4) + SuperField(disk, 3) == SuperField(disk, 5)
    && SuperField(disk, 5) + (SuperField(disk, 2) / 8 + 1) == SuperField(disk, 6)
    && SuperField(disk, 6) + 1 + SuperField(disk, 1) == SuperField(disk, 0) == |disk|
    && (forall k :: 28 <= k < 512 ==> Rsect(disk, 1)[k] == 0)
    && (forall b :: 0 <= b < 32 && b != 1 ==> Rsect(disk, b) == ZeroBlock())
  }

  /** Inode 1 is a directory and the inodes after it are the n files, all with one
      link; the other inodes are blank. */
  predicate GoodInodes(disk: seq<Block>, n: nat) {
    forall i :: 0 <= i < 208 ==> GoodInode(ReadInode(disk, i), i, n)
  }

  predicate GoodInode(d: Inode, i: nat, n: nat) {
    if 1 <= i < n + 2 then d.kind == (if i == 1 then 1 else 2) && d.major == 0 && d.minor == 0 && d.nlink == 1
    else
      && d.kind == 0 && d.major == 0 && d.minor == 0 && d.nlink == 0 && d.size == 0
      && forall a :: 0 <= a < 13 ==> d.addrs[a] == 0
  }

  /** What is said of block b: its bit in the bitmap block that the superblock names,
      its owner, and its contents when it is free. */
  ghost predicate GoodBlock(fs: Fs, b: nat)
    requires Shape(fs) && b < 4096
  {
    var bitmap := Rsect(fs.disk, SuperField(fs.disk, 6));
    && (BitSet(bitmap, b) <==> InUse(fs, b))
    && (BitSet(bitmap, b) <==> b < fs.freeblock)
    && (forall s, t ::
          IsSlot(s) && IsSlot(t) && SlotPtr(Open(fs, 0), s) == b == SlotPtr(Open(fs, 0), t) && b != 0 ==> s == t)
    && (fs.freeblock <= b < FS_SIZE ==> fs.disk[b] == ZeroBlock())
  }

  /** The superblock's bytes after its fields. */
  lemma SuperTail(k: nat)
    requires 28 <= k < 512
    ensures SuperBlock()[k] == 0
  {
    assert |WordsBytes(SuperWords())| == 28;
    hide WordsBytes;
  }

  lemma SuperNumbers()
    ensures SuperWords()[0] == 1000 && SuperWords()[1] == 941 && SuperWords()[2] == 200 && SuperWords()[3] == 30
    ensures SuperWords()[4] == 2 && SuperWords()[5] == 32 && SuperWords()[6] == 58
  {
  }

  lemma HeadNumbers(disk: seq<Block>)
    requires Rsect(disk, 1) == SuperBlock() && |disk| == 1000
    requires forall b :: 0 <= b < 32 && b != 1 ==> Rsect(disk, b) == ZeroBlock()
    ensures GoodHead(disk)
  {
    SuperNumbers();
    hide SuperBlock, GetPtr, SuperWords;
    SuperWord(0);
    SuperWord(1);
    SuperWord(2);
    SuperWord(3);
    SuperWord(4);
    SuperWord(5);
    SuperWord(6);
    forall k | 28 <= k < 512 ensures Rsect(disk, 1)[k] == 0 {
      SuperTail(k);
    }
  }

  lemma FinishedHead(fs: Fs, disk: seq<Block>)
    requires Finished(fs, disk) && HeadOk(fs)
    ensures GoodHead(disk)
  {
    assert INODE_START == 32;
    hide SuperBlock, Rinode, RoundedSize, GoodHead;
    HeadNumbers(disk);
  }

  lemma FinishedInodes(fs: Fs, own: seq<Slot>, disk: seq<Block>, files: seq<File>)
    requires ImageInv(fs, own, files) && Finished(fs, disk)
    ensures GoodInodes(disk, |files|)
  {
    hide *;
    RootNumbers();
    ImageFacts(fs, own, files);
    forall i | 0 <= i < 208 ensures GoodInode(ReadInode(disk, i), i, |files|) {
      ReadInodeIs(fs, disk, i);
      FinishedInode(fs, disk, i);
      if 1 <= i < |files| + 2 {
        if i >= 2 {
          HoldsFileAt(fs, files, i - 2);
        }
        FileInode(fs, disk, i, |files|, if i == 1 then DirBytes(files) else Bytes(files[i - 2]));
      } else {
        BlankAt(fs, |files| + 2, i);
        BlankGood(i, |files|);
      }
    }
    InodesIntro(disk, |files|);
  }

  lemma FileInode(fs: Fs, disk: seq<Block>, i: nat, n: nat, data: seq<byte>)
    requires 1 <= i < n + 2 && i < INODE_SLOTS
    requires Finished(fs, disk) && Holds(fs, i, if i == 1 then T_DIR else T_FILE, data)
    ensures GoodInode(Rinode(disk, i), i, n)
  {
    hide Rinode, FileOf, RoundedSize;
  }

  lemma BlankAt(fs: Fs, from: nat, i: nat)
    requires Blanks(fs, from) && i < INODE_SLOTS && (i == 0 || from <= i)
    ensures Rinode(fs.disk, i) == BlankInode()
  {
    hide Rinode;
  }

  lemma BlankGood(i: nat, n: nat)
    requires !(1 <= i < n + 2)
    ensures GoodInode(BlankInode(), i, n)
  {
  }

  lemma InodesIntro(disk: seq<Block>, n: nat)
    requires forall i :: 0 <= i < 208 ==> GoodInode(ReadInode(disk, i), i, n)
    ensures GoodInodes(disk, n)
  {
    hide GoodInode, ReadInode;
  }

  lemma FinishedShape(fs: Fs, disk: seq<Block>)
    requires Finished(fs, disk)
    ensures |disk| == FS_SIZE == 1000 && Shape(fs) && disk[1] == fs.disk[1]
    ensures forall r: Fs :: r.disk == disk ==> Shape(r)
  {
  }

  lemma GoodIntro(fs: Fs, own: seq<Slot>, files: seq<File>)
    requires Owned(Open(fs, 0), own) && ReadImage(fs.disk) == Expected(files) && fs.freeblock == META_NUM + Cost(files)
    requires Shape(fs) && fs.freeblock <= 1000 && fs.disk[BMAP_START] == Bitmap(fs.freeblock)
    requires GoodHead(fs.disk) && GoodInodes(fs.disk, |files|)
    ensures GoodImage(fs, files)
  {
    OwnedBounds(Open(fs, 0), own);
    assert Open(fs, 0).fs == fs;
    assert Rsect(fs.disk, SuperField(fs.disk, 6)) == fs.disk[BMAP_START] by {
      hide GetPtr, Bitmap;
    }
    hide Owned, ReadImage, Expected, Cost, Bitmap, InUse, SlotPtr, BitSet, GetPtr;
    hide GoodHead, GoodInodes, SuperField, Rsect;
    forall b | 0 <= b < 4096 ensures GoodBlock(fs, b) {
      OwnedInUse(fs, own, b);
      BitmapBits(fs.freeblock, b);
    }
  }

  lemma FitsFacts(files: seq<File>)
    requires Fits(files)
    ensures |files| + 2 <= INODE_SLOTS && META_NUM + Cost(files) <= FS_SIZE
  {
  }

  lemma BuildIs(files: seq<File>)
    requires WithRoot().Some?
    ensures Build(files) ==
      if AddAll(WithRoot().value, files).None? then None else Balloc(RoundRoot(AddAll(WithRoot().value, files).value))
  {
    hide WithRoot, AddAll, Balloc, RoundRoot;
  }

  /** Every block that the size of an inode covers has been allocated. */
  predicate Allocated(disk: seq<Block>, d: Inode) {
    forall k :: 0 <= k < d.size / 512 && k < MAX_FILE ==> AddrOf(disk, d, k) != 0
  }

  /** The rounded root directory: each block of its new size is allocated if and only
      if the entries do not fill their last block; otherwise the last block is read
      through a null pointer. */
  lemma RoundedRootAllocated(files: seq<File>)
    requires Fits(files) && AllAcceptable(files)
    ensures Build(files).Some?
    ensures
      var root := ReadInode(Build(files).value.disk, ROOT_INO);
      && root.size == (16 * (|files| + 2) / 512 + 1) * 512 && 16 * (|files| + 2) / 512 < MAX_FILE
      && (Allocated(Build(files).value.disk, root) <==> (|files| + 2) % 32 != 0)
      && (AddrOf(Build(files).value.disk, root, 16 * (|files| + 2) / 512) == 0 <==> (|files| + 2) % 32 == 0)
  {
    hide *;
    var own0 := RootInv();
    var fs0 := WithRoot().value;
    FitsFacts(files);
    assert [] + files == files;
    var own := AddAllCorrect(fs0, own0, [], files);
    BuildIs(files);
    MkfsCorrect(files);
    var fs := AddAll(fs0, files).value;
    ImageFacts(fs, own, files);
    InvShape(fs, own);
    FinishedIntro(fs);
    EntriesPerBlock(|files| + 2);
    RootBlocks(fs, own, Balloc(RoundRoot(fs)).value.disk, files, 16 * (|files| + 2));
  }

  /** Thirty empty files, which with "." and ".." make 32 entries. */
  function ThirtyFiles(): (files: seq<File>)
    ensures |files| == 30 && forall k :: 0 <= k < 30 ==> files[k] == EmptyFile()
  {
    seq(30, _ => EmptyFile())
  }

  function EmptyFile(): File {
    File([65], Some([]))
  }

  lemma {:induction false} NoBlocks(files: seq<File>)
    requires forall k :: 0 <= k < |files| ==> Bytes(files[k]) == []
    ensures FileBlocks(files) == 0
    decreases |files|
  {
    if files == [] {
    } else {
      NoBlocks(files[..|files| - 1]);
    }
  }

  lemma ThirtyFit()
    ensures Fits(ThirtyFiles()) && AllAcceptable(ThirtyFiles())
  {
    var files := ThirtyFiles();
    assert Acceptable(EmptyFile()) && Bytes(EmptyFile()) == [];
    assert Total(512) == 1;
    hide FileBlocks, Total, Acceptable, EmptyFile;
    NoBlocks(files);
  }

  /** A root directory that the rounding takes past its blocks: with thirty empty files
      it has 32 entries in one block, is recorded as two blocks long, and the pointer to
      the second is null. */
  lemma RoundedRootNull()
    ensures Build(ThirtyFiles()).Some?
    ensures
      var disk := Build(ThirtyFiles()).value.disk;
      var root := ReadInode(disk, ROOT_INO);
      root.size == 1024 && AddrOf(disk, root, 1) == 0
  {
    hide *;
    RootNumbers();
    ThirtyFit();
    RoundedRootAllocated(ThirtyFiles());
  }

  lemma EntriesPerBlock(m: nat)
    ensures 16 * m % 512 != 0 <==> m % 32 != 0
    ensures (16 * m / 512 + 1) * 512 / 512 == 16 * m / 512 + 1 && 16 * m < (16 * m / 512 + 1) * 512
  {
    var a, b := m / 32, m % 32;
    assert m == 32 * a + b && 16 * m == 512 * a + 16 * b;
    assert 16 * m / 512 == a && 16 * m % 512 == 16 * b;
  }

  lemma RootBlocks(fs: Fs, own: seq<Slot>, disk: seq<Block>, files: seq<File>, n: nat)
    requires ImageInv(fs, own, files) && Finished(fs, disk) && n == 16 * (|files| + 2)
    requires (n / 512 + 1) * 512 / 512 == n / 512 + 1 && n < (n / 512 + 1) * 512
    ensures ReadInode(disk, ROOT_INO).size == (n / 512 + 1) * 512
    ensures n / 512 < MAX_FILE
    ensures Allocated(disk, ReadInode(disk, ROOT_INO)) <==> n % 512 != 0
    ensures AddrOf(disk, ReadInode(disk, ROOT_INO), n / 512) != 0 <==> n % 512 != 0
  {
    hide *;
    var q := n / 512;
    ImageFacts(fs, own, files);
    RootSizes(fs, own, disk, files);
    var d := ReadInode(disk, ROOT_INO);
    RootPadding(fs, own, disk, n);
    forall k | 0 <= k < q ensures k < MAX_FILE && AddrOf(disk, d, k) != 0 {
      RootBlockUsed(fs, own, disk, n, k);
    }
    AllocatedUpTo(disk, d, q);
  }

  lemma AllocatedUpTo(disk: seq<Block>, d: Inode, q: nat)
    requires d.size / 512 == q + 1 && q < MAX_FILE
    requires forall k :: 0 <= k < q ==> AddrOf(disk, d, k) != 0
    ensures Allocated(disk, d) <==> AddrOf(disk, d, q) != 0
  {
    hide AddrOf;
  }

  lemma RootBlockUsed(fs: Fs, own: seq<Slot>, disk: seq<Block>, n: nat, k: nat)
    requires Inv(fs, own) && Finished(fs, disk) && Rinode(fs.disk, ROOT_INO).size == n && k < n / 512 < MAX_FILE
    ensures AddrOf(disk, Rinode(disk, ROOT_INO), k) != 0
  {
    var w := Open(fs, 0);
    var s := Slot(ROOT_INO, k);
    assert IsSlot(s) && InodeOf(w, ROOT_INO) == Rinode(fs.disk, ROOT_INO);
    assert SlotPtr(w, s) != 0 <==> Uses(InodeOf(w, ROOT_INO).size, s.k);
    assert Uses(n, k);
    DataKept(fs, own, disk, s);
    assert Rinode(disk, ROOT_INO).addrs == Rinode(fs.disk, ROOT_INO).addrs;
    ReadAddr(disk, Rinode(disk, ROOT_INO), Rinode(fs.disk, ROOT_INO), k);
    hide SlotPtr, SlotOf, AddrOf, Rinode, Inv, Uses, InodeOf;
  }
}
