/** mkfs when it stops early (tools/mkfs.c): the disk that a failed assertion in iappend,
    a name with a '/', or a file that cannot be opened leaves behind. */
module Stops {
  import opened Options
  import opened Bits
  import opened FsLayout
  import opened Mkfs
  import opened Append
  import opened Image
  import opened RoundTrip

  /* ---- what the program leaves, whether it goes on or not ---- */

  /** Where the loop of iappend ends: with all data written, or at its assertion. */
  function LoopStop(w: Work, xp: seq<byte>): Work
    decreases |xp|
  {
    if xp == [] || w.din.size / 512 >= MAX_FILE then w
    else
      var n1 := Room(w.din.size, |xp|);
      LoopStop(AppendPiece(w, xp[..n1]), xp[n1..])
  }

  /** iappend; at the failed assertion the inode in memory is not written back. */
  function AppendStop(fs: Fs, inum: nat, xp: seq<byte>): Fs {
    var w := LoopStop(Open(fs, inum), xp);
    if Iappend(fs, inum, xp).None? then w.fs else Flush(w)
  }

  /** The read loop for one file. */
  function ChunksStop(fs: Fs, inum: nat, chunks: seq<seq<byte>>): Fs
    decreases |chunks|
  {
    if chunks == [] then fs
    else
      var fs1 := AppendStop(fs, inum, chunks[0]);
      if Iappend(fs, inum, chunks[0]).None? then fs1 else ChunksStop(fs1, inum, chunks[1..])
  }

  /** The inode and the directory entry of a file. */
  function EntryStop(fs: Fs, name: seq<byte>): Fs {
    AppendStop(Ialloc(fs, T_FILE), ROOT_INO, Dirent(Xshort(fs.freeinode), name))
  }

  /** One argument. */
  function FileStop(fs: Fs, f: File): Fs {
    if SLASH in f.name || f.chunks.None? then fs
    else if AddEntry(fs, f.name).None? then EntryStop(fs, f.name)
    else ChunksStop(EntryStop(fs, f.name), fs.freeinode, f.chunks.value)
  }

  function FilesStop(fs: Fs, files: seq<File>): Fs
    decreases |files|
  {
    if files == [] then fs
    else if AddFile(fs, files[0]).None? then FileStop(fs, files[0])
    else FilesStop(FileStop(fs, files[0]), files[1..])
  }

  /** The root directory with its two entries. */
  function RootStop(): Fs {
    var fs := Ialloc(Formatted(), T_DIR);
    var d1, d2 := Dirent(ROOT_INO, [DOT]), Dirent(ROOT_INO, [DOT, DOT]);
    if Iappend(fs, ROOT_INO, d1).None? then AppendStop(fs, ROOT_INO, d1)
    else AppendStop(AppendStop(fs, ROOT_INO, d1), ROOT_INO, d2)
  }

  /** balloc, whose assertion comes first. */
  function BallocStop(fs: Fs): (r: Fs)
    ensures fs.freeblock >= 4096 ==> r == fs
  {
    if Balloc(fs).None? then fs else Balloc(fs).value
  }

  /** The whole of main. */
  function BuildStop(files: seq<File>): Fs {
    var fs := RootStop();
    if WithRoot().None? then fs
    else if AddAll(fs, files).None? then FilesStop(fs, files)
    else BallocStop(RoundRoot(FilesStop(fs, files)))
  }

  /* ---- where nothing fails, they are the functions of Mkfs and Image ---- */

  /** The loop writes the longest part of the data that the file can take. */
  lemma {:induction false} LoopStopIs(w: Work, xp: seq<byte>)
    requires w.din.size <= MAX_FILE * 512
    ensures
      var k := if w.din.size + |xp| <= MAX_FILE * 512 then |xp| else MAX_FILE * 512 - w.din.size;
      AppendLoop(w, xp[..k]) == Some(LoopStop(w, xp))
    decreases |xp|
  {
    hide *;
    assert MAX_FILE == 140 by { RootNumbers(); }
    var k := if w.din.size + |xp| <= MAX_FILE * 512 then |xp| else MAX_FILE * 512 - w.din.size;
    StopCases(w, xp);
    if xp == [] || w.din.size / 512 >= MAX_FILE {
      assert xp[..k] == [];
      LoopEmpty(w);
    } else {
      var n1 := Room(w.din.size, |xp|);
      var p, q := xp[..n1], xp[n1..];
      RoomOf(w.din.size, |xp|, k);
      assert xp[..k] == p + q[..k - n1];
      LoopCut(w, xp[..k], p, q[..k - n1]);
      PieceSize(w, p);
      LoopStopIs(AppendPiece(w, p), q);
    }
  }

  lemma LoopStopEmpty(w: Work)
    ensures LoopStop(w, []) == w
  {
  }

  lemma StopCases(w: Work, xp: seq<byte>)
    ensures LoopStop(w, xp) ==
      if xp == [] || w.din.size / 512 >= MAX_FILE then w
      else LoopStop(AppendPiece(w, xp[..Room(w.din.size, |xp|)]), xp[Room(w.din.size, |xp|)..])
  {
    hide AppendPiece;
  }

  lemma RoomOf(n: nat, m: nat, k: nat)
    requires 0 < m && n / 512 < 140 && n <= 140 * 512 && k == if n + m <= 140 * 512 then m else 140 * 512 - n
    ensures 0 < k <= m && Room(n, m) == Room(n, k) <= k
    ensures k - Room(n, m) == if n + Room(n, m) + (m - Room(n, m)) <= 140 * 512 then m - Room(n, m)
      else 140 * 512 - (n + Room(n, m))
  {
  }

  /** Without the bound on the size: a loop that completes ends where LoopStop says. */
  lemma {:induction false} LoopDone(w: Work, xp: seq<byte>)
    requires AppendLoop(w, xp).Some?
    ensures AppendLoop(w, xp) == Some(LoopStop(w, xp))
    decreases |xp|
  {
    hide *;
    StopCases(w, xp);
    if xp == [] {
      LoopEmpty(w);
    } else {
      LoopBound(w, xp);
      LoopUnfold(w, xp);
      LoopDone(AppendPiece(w, xp[..Room(w.din.size, |xp|)]), xp[Room(w.din.size, |xp|)..]);
    }
  }

  lemma LoopBound(w: Work, xp: seq<byte>)
    requires AppendLoop(w, xp).Some? && xp != []
    ensures w.din.size / 512 < MAX_FILE
  {
    hide AppendPiece;
  }

  lemma AppendDone(fs: Fs, inum: nat, xp: seq<byte>)
    requires Iappend(fs, inum, xp).Some?
    ensures Iappend(fs, inum, xp) == Some(AppendStop(fs, inum, xp))
  {
    assert AppendLoop(Open(fs, inum), xp).Some? by { hide AppendLoop, Open; }
    LoopDone(Open(fs, inum), xp);
    hide AppendLoop, LoopStop, Open, Flush;
  }

  lemma {:induction false} ChunksDone(fs: Fs, inum: nat, chunks: seq<seq<byte>>)
    requires AppendAll(fs, inum, chunks).Some?
    ensures AppendAll(fs, inum, chunks) == Some(ChunksStop(fs, inum, chunks))
    decreases |chunks|
  {
    if chunks == [] {
    } else {
      hide Iappend, AppendStop;
      AppendDone(fs, inum, chunks[0]);
      ChunksDone(AppendStop(fs, inum, chunks[0]), inum, chunks[1..]);
    }
  }

  lemma EntryDone(fs: Fs, name: seq<byte>)
    requires AddEntry(fs, name).Some?
    ensures AddEntry(fs, name) == Some(EntryStop(fs, name))
  {
    AppendDone(Ialloc(fs, T_FILE), ROOT_INO, Dirent(Xshort(fs.freeinode), name));
    hide Iappend, AppendStop, Ialloc, Dirent;
  }

  lemma FileDone(fs: Fs, f: File)
    requires AddFile(fs, f).Some?
    ensures AddFile(fs, f) == Some(FileStop(fs, f))
  {
    hide *;
    AddFileEntry(fs, f);
    AddFileCases(fs, f);
    FileStopCases(fs, f);
    ChunksDone(AddEntry(fs, f.name).value, fs.freeinode, f.chunks.value);
  }

  lemma AddFileEntry(fs: Fs, f: File)
    requires AddFile(fs, f).Some?
    ensures !(SLASH in f.name || f.chunks.None?) && AddEntry(fs, f.name).Some?
  {
    hide AddEntry, AppendAll;
  }

  lemma {:induction false} FilesDone(fs: Fs, files: seq<File>)
    requires AddAll(fs, files).Some?
    ensures AddAll(fs, files) == Some(FilesStop(fs, files))
    decreases |files|
  {
    if files == [] {
    } else {
      hide AddFile, FileStop;
      FileDone(fs, files[0]);
      FilesDone(FileStop(fs, files[0]), files[1..]);
    }
  }

  lemma RootDone()
    requires WithRoot().Some?
    ensures WithRoot() == Some(RootStop())
  {
    var fs := Ialloc(Formatted(), T_DIR);
    var d1, d2 := Dirent(ROOT_INO, [DOT]), Dirent(ROOT_INO, [DOT, DOT]);
    hide Iappend, AppendStop, Ialloc, Dirent, Formatted;
    AppendDone(fs, ROOT_INO, d1);
    AppendDone(AppendStop(fs, ROOT_INO, d1), ROOT_INO, d2);
  }

  /** A run that completes leaves the disk of Image.Build. */
  lemma BuildDone(files: seq<File>)
    requires Build(files).Some?
    ensures Build(files) == Some(BuildStop(files))
  {
    hide WithRoot, AddAll, FilesStop, RootStop, Balloc, RoundRoot;
    RootDone();
    FilesDone(RootStop(), files);
  }

  /* ---- a failed iappend ---- */

  lemma PieceAddrs(w: Work, p: seq<byte>)
    requires w.din.size / 512 < MAX_FILE && |p| <= 512 - w.din.size % 512
    ensures forall a :: 0 <= a < 13 && w.din.addrs[a] != 0 ==> AppendPiece(w, p).din.addrs[a] == w.din.addrs[a]
  {
    hide Wsect, Rsect, GetPtr, PutPtr, Splice;
  }

  /** An address that an inode has is never changed. */
  lemma {:induction false} AddrsKept(w: Work, xp: seq<byte>)
    ensures forall a :: 0 <= a < 13 && w.din.addrs[a] != 0 ==> LoopStop(w, xp).din.addrs[a] == w.din.addrs[a]
    decreases |xp|
  {
    if xp == [] || w.din.size / 512 >= MAX_FILE {
    } else {
      var n1 := Room(w.din.size, |xp|);
      PieceAddrs(w, xp[..n1]);
      hide AppendPiece;
      AddrsKept(AppendPiece(w, xp[..n1]), xp[n1..]);
    }
  }

  /** Both disks show the same inodes and the same contents of every file. */
  ghost predicate FilesAlike(fs: Fs, fs': Fs) {
    forall j :: 0 <= j < INODE_SLOTS ==> FileAlike(fs, fs', j)
  }

  predicate FileAlike(fs: Fs, fs': Fs, j: nat)
    requires j < INODE_SLOTS
  {
    && Rinode(fs.disk, j).size <= MAX_FILE * 512 && Rinode(fs'.disk, j) == Rinode(fs.disk, j)
    && FileOf(fs', j) == FileOf(fs, j)
  }

  /** A file that iappend does not work on, as its inode on the disk shows it. */
  lemma OtherAlike(fs: Fs, w: Work, w': Work, j: nat)
    requires w == Open(fs, w.inum) && w.inum < INODE_SLOTS && Sized(w) && Sized(w') && j < INODE_SLOTS && j != w.inum
    requires w'.inum == w.inum && InodeOf(w', j) == InodeOf(w, j) && InodeOf(w, j).size <= MAX_FILE * 512
    requires Contents(w', j) == Contents(w, j)
    ensures FileAlike(fs, w'.fs, j)
  {
    hide Rinode, SlotOf, Rsect, Sized;
    assert InodeOf(Open(fs, j), j) == InodeOf(w, j) && InodeOf(Open(w'.fs, j), j) == InodeOf(w', j);
    forall k | 0 <= k < InodeOf(w, j).size
      ensures FileByte(Open(w'.fs, j), j, k) == FileByte(Open(fs, j), j, k)
    {
      assert Contents(w', j)[k] == FileByte(w', j, k) && Contents(w, j)[k] == FileByte(w, j, k);
    }
  }

  /** The file itself: its old inode still finds its old bytes. */
  lemma SelfAlike(fs: Fs, w: Work, w': Work, p: seq<byte>)
    requires w == Open(fs, w.inum) && w.inum < INODE_SLOTS && Sized(w) && w'.inum == w.inum
    requires w.din.size <= MAX_FILE * 512 && w'.din.size == w.din.size + |p| <= MAX_FILE * 512
    requires Contents(w', w.inum) == Contents(w, w.inum) + p
    requires Rinode(w'.fs.disk, w.inum) == Rinode(fs.disk, w.inum)
    requires forall a :: 0 <= a < 13 && w.din.addrs[a] != 0 ==> w'.din.addrs[a] == w.din.addrs[a]
    ensures FileAlike(fs, w'.fs, w.inum)
  {
    var i, v := w.inum, Open(w'.fs, w.inum);
    assert InodeOf(v, i) == w.din && InodeOf(w, i) == w.din && InodeOf(w', i) == w'.din;
    hide Rinode, Rsect;
    forall k | 0 <= k < w.din.size ensures FileByte(v, i, k) == FileByte(w, i, k) {
      UsedByte(w, i, k);
      OldPtr(w, w', k / 512);
      assert Contents(w', i)[k] == FileByte(w', i, k) && Contents(w, i)[k] == FileByte(w, i, k);
      hide SlotPtr, Sized;
    }
    assert FileOf(w'.fs, i) == FileOf(fs, i);
  }

  lemma OldPtr(w: Work, w': Work, b: nat)
    requires w.inum < INODE_SLOTS && b < 140 && SlotPtr(w, Slot(w.inum, b)) != 0 && w'.inum == w.inum
    requires forall a :: 0 <= a < 13 && w.din.addrs[a] != 0 ==> w'.din.addrs[a] == w.din.addrs[a]
    requires Rinode(w'.fs.disk, w.inum) == w.din
    ensures SlotPtr(Open(w'.fs, w.inum), Slot(w.inum, b)) == SlotPtr(w', Slot(w.inum, b))
  {
    hide GetPtr, Rsect, Rinode;
  }

  lemma SameInodes(fs: Fs, fs': Fs, j: nat)
    requires Shape(fs) && Shape(fs') && (forall b :: 0 <= b < META_NUM ==> fs'.disk[b] == fs.disk[b]) && j < INODE_SLOTS
    ensures Rinode(fs'.disk, j) == Rinode(fs.disk, j)
  {
    hide GetInode;
  }

  /** A call of iappend that stops at its assertion has used up all blocks that the
      longest file could take, but no file has changed: every inode is as it was, the one
      it worked on included, and every file reads as before. */
  lemma FailedAppendKeepsFiles(fs: Fs, own: seq<Slot>, inum: nat, xp: seq<byte>)
    requires Inv(fs, own) && inum < INODE_SLOTS && Iappend(fs, inum, xp).None?
    requires fs.freeblock + Total(MAX_FILE * 512) - Total(Rinode(fs.disk, inum).size) <= FS_SIZE
    ensures
      var fs' := AppendStop(fs, inum, xp);
      && FilesAlike(fs, fs') && fs'.freeinode == fs.freeinode
      && fs'.freeblock == fs.freeblock + Total(MAX_FILE * 512) - Total(Rinode(fs.disk, inum).size)
  {
    hide *;
    RootNumbers();
    var w := Open(fs, inum);
    OpenFacts(fs, inum);
    OpenInv(fs, own, inum);
    InvSized(w, own);
    IappendFails(fs, inum, xp);
    LoopStopIs(w, xp);
    AddrsKept(w, xp);
    var w' := LoopStop(w, xp);
    var p := xp[..MAX_FILE * 512 - w.din.size];
    var own' := LoopCorrect(w, own, p);
    InvSized(w', own');
    AdvancedSizes(w, w', p);
    AdvancedFacts(w, w', p);
    FailedIs(fs, inum, xp);
    forall j | 0 <= j < INODE_SLOTS ensures FileAlike(fs, w'.fs, j) {
      if j == inum {
        SameInodes(fs, w'.fs, j);
        SelfAlike(fs, w, w', p);
      } else {
        SizesBounded(w, w', j);
        OtherAlike(fs, w, w', j);
      }
    }
    AlikeIntro(fs, w'.fs);
  }

  lemma OpenFacts(fs: Fs, inum: nat)
    ensures Open(fs, inum) == Work(fs, inum, Rinode(fs.disk, inum))
  {
    hide Rinode;
  }

  lemma FailedIs(fs: Fs, inum: nat, xp: seq<byte>)
    requires Iappend(fs, inum, xp).None?
    ensures AppendStop(fs, inum, xp) == LoopStop(Open(fs, inum), xp).fs
  {
    hide Iappend, LoopStop, Open;
  }

  lemma AdvancedFacts(w: Work, w': Work, p: seq<byte>)
    requires w.inum < INODE_SLOTS && Sized(w) && Sized(w') && Advanced(w, w', p)
    ensures w'.fs.freeinode == w.fs.freeinode && InodeOf(w, w.inum).size <= MAX_FILE * 512
      && InodeOf(w', w.inum).size <= MAX_FILE * 512
    ensures Contents(w', w.inum) == Contents(w, w.inum) + p
    ensures forall j :: 0 <= j < INODE_SLOTS && j != w.inum ==>
      InodeOf(w', j) == InodeOf(w, j) && InodeOf(w, j).size <= MAX_FILE * 512 && Contents(w', j) == Contents(w, j)
    ensures Shape(w.fs) && Shape(w'.fs) && forall b :: 0 <= b < META_NUM ==> w'.fs.disk[b] == w.fs.disk[b]
  {
    hide Contents, SlotPtr, Total, InodeOf;
  }

  lemma AlikeIntro(fs: Fs, fs': Fs)
    requires forall j :: 0 <= j < INODE_SLOTS ==> FileAlike(fs, fs', j)
    ensures FilesAlike(fs, fs')
  {
    hide FileAlike;
  }

  /* ---- mkfs after a failure ---- */

  function Capped(n: nat): nat {
    if n < MAX_FILE * 512 then n else MAX_FILE * 512
  }

  /** Enough free blocks for n more bytes of a file, or for as many as it may have. */
  predicate RoomFor(fs: Fs, inum: nat, n: nat) {
    var size := Rinode(fs.disk, inum).size;
    fs.freeblock + Total(Capped(size + n)) - Total(size) <= FS_SIZE
  }

  lemma RoomIntro(fs: Fs, inum: nat, n: nat, m: nat)
    requires n <= m
    requires fs.freeblock + Total(Rinode(fs.disk, inum).size + m) - Total(Rinode(fs.disk, inum).size) <= FS_SIZE
    ensures RoomFor(fs, inum, n)
  {
    var size := Rinode(fs.disk, inum).size;
    TotalMono(Capped(size + n), size + m);
    hide Rinode, Total;
  }

  /** A file of which the first j pieces have been read. */
  function Partial(f: File, j: nat): File
    requires f.chunks.Some? && j <= |f.chunks.value|
  {
    File(f.name, Some(f.chunks.value[..j]))
  }

  lemma {:induction false} ConcatSplit(a: seq<seq<byte>>, b: seq<seq<byte>>)
    ensures Concat(a + b) == Concat(a) + Concat(b)
    decreases |a|
  {
    if a == [] {
      assert a + b == b;
    } else {
      ConcatSplit(a[1..], b);
      assert (a + b)[1..] == a[1..] + b;
    }
  }

  lemma PartialBytes(f: File, j: nat)
    requires f.chunks.Some? && j < |f.chunks.value|
    ensures Bytes(Partial(f, j + 1)) == Bytes(Partial(f, j)) + f.chunks.value[j]
    ensures |Bytes(Partial(f, j + 1))| <= |Bytes(f)|
  {
    var c := f.chunks.value;
    ConcatSplit(c[..j], [c[j]]);
    assert c[..j + 1] == c[..j] + [c[j]];
    assert Concat([c[j]]) == c[j];
    ConcatSplit(c[..j + 1], c[j + 1..]);
    assert c == c[..j + 1] + c[j + 1..];
  }

  /** One piece more: there is room for it, and if it is accepted the invariant holds again. */
  lemma ChunkStep(fs: Fs, own: seq<Slot>, done: seq<File>, f: File, j: nat) returns (own1: seq<Slot>)
    requires f.chunks.Some? && j < |f.chunks.value| && ImageInv(fs, own, done + [Partial(f, j)])
    requires META_NUM + Cost(done + [f]) <= FS_SIZE
    ensures Inv(fs, own) && |done| + 2 < INODE_SLOTS && RoomFor(fs, |done| + 2, |f.chunks.value[j]|)
    ensures
      var r := Iappend(fs, |done| + 2, f.chunks.value[j]);
      r.Some? ==> ImageInv(r.value, own1, done + [Partial(f, j + 1)])
  {
    hide *;
    var g, g', c, i := Partial(f, j), Partial(f, j + 1), f.chunks.value[j], |done| + 2;
    ImageFacts(fs, own, done + [g]);
    PartialBytes(f, j);
    PartialName(f, j);
    LastFile(done, g);
    LastFile(done, g');
    LastFile(done, f);
    HoldsFilesPrefix(fs, done, g);
    HoldsSize(fs, i, T_FILE, Bytes(g));
    TotalMono(|Bytes(g')|, |Bytes(f)|);
    RoomIntro(fs, i, |c|, |c|);
    IappendFails(fs, i, c);
    InvSizes(fs, own, i);
    own1 := own;
    if Iappend(fs, i, c).Some? {
      own1 := FileAppended(fs, own, done, g, g', c);
    }
  }

  lemma PartialName(f: File, j: nat)
    requires f.chunks.Some? && j < |f.chunks.value|
    ensures Partial(f, j).name == Partial(f, j + 1).name == f.name
  {
  }

  lemma HoldsAlike(fs: Fs, fs': Fs, i: nat, kind: half, data: seq<byte>)
    requires FilesAlike(fs, fs') && Holds(fs, i, kind, data)
    ensures Holds(fs', i, kind, data)
  {
    assert FileAlike(fs, fs', i);
    hide FileOf, Rinode;
  }

  lemma HoldsFilesAlike(fs: Fs, fs': Fs, files: seq<File>)
    requires FilesAlike(fs, fs') && HoldsFiles(fs, files)
    ensures HoldsFiles(fs', files)
  {
    hide FilesAlike, Holds;
    forall k | 0 <= k < |files| ensures Holds(fs', k + 2, T_FILE, Bytes(files[k])) {
      HoldsAlike(fs, fs', k + 2, T_FILE, Bytes(files[k]));
    }
  }

  /** The disk when piece k of file f, which follows the files done, did not fit: the
      pieces before it are there, and f has its directory entry. */
  predicate StoppedAt(fs: Fs, done: seq<File>, f: File, k: nat)
    requires f.chunks.Some? && k < |f.chunks.value|
  {
    && HoldsFiles(fs, done + [Partial(f, k)]) && Holds(fs, ROOT_INO, T_DIR, DirBytes(done + [f]))
    && |Bytes(Partial(f, k))| <= MAX_FILE * 512 < |Bytes(Partial(f, k + 1))|
  }

  predicate StoppedInside(fs: Fs, done: seq<File>, f: File) {
    f.chunks.Some? && exists k :: 0 <= k < |f.chunks.value| && StoppedAt(fs, done, f, k)
  }

  /** The failing call of iappend. */
  lemma PieceStopped(fs: Fs, own: seq<Slot>, done: seq<File>, f: File, k: nat)
    requires f.chunks.Some? && k < |f.chunks.value| && ImageInv(fs, own, done + [Partial(f, k)])
    requires META_NUM + Cost(done + [f]) <= FS_SIZE && Iappend(fs, |done| + 2, f.chunks.value[k]).None?
    ensures StoppedAt(AppendStop(fs, |done| + 2, f.chunks.value[k]), done, f, k)
  {
    hide *;
    var g, g', c, i := Partial(f, k), Partial(f, k + 1), f.chunks.value[k], |done| + 2;
    var fs' := AppendStop(fs, i, c);
    RootNumbers();
    ImageFacts(fs, own, done + [g]);
    PartialBytes(f, k);
    PartialName(f, k);
    LastFile(done, g);
    LastFile(done, f);
    HoldsFilesPrefix(fs, done, g);
    HoldsSize(fs, i, T_FILE, Bytes(g));
    IappendFails(fs, i, c);
    InvSizes(fs, own, i);
    TotalMono(MAX_FILE * 512, |Bytes(f)|);
    FailedAppendKeepsFiles(fs, own, i, c);
    HoldsFilesAlike(fs, fs', done + [g]);
    HoldsAlike(fs, fs', ROOT_INO, T_DIR, DirBytes(done + [g]));
    StoppedIntro(fs', done, f, k);
  }

  lemma StoppedIntro(fs: Fs, done: seq<File>, f: File, k: nat)
    requires f.chunks.Some? && k < |f.chunks.value|
    requires HoldsFiles(fs, done + [Partial(f, k)]) && Holds(fs, ROOT_INO, T_DIR, DirBytes(done + [f]))
    requires |Bytes(Partial(f, k))| <= MAX_FILE * 512 < |Bytes(Partial(f, k + 1))|
    ensures StoppedAt(fs, done, f, k) && StoppedInside(fs, done, f)
  {
    hide HoldsFiles, Holds, DirBytes, Bytes, Partial;
  }

  lemma {:induction false} ChunksStopped(fs: Fs, own: seq<Slot>, done: seq<File>, f: File, j: nat)
    requires f.chunks.Some? && j <= |f.chunks.value| && ImageInv(fs, own, done + [Partial(f, j)])
    requires META_NUM + Cost(done + [f]) <= FS_SIZE && AppendAll(fs, |done| + 2, f.chunks.value[j..]).None?
    ensures StoppedInside(ChunksStop(fs, |done| + 2, f.chunks.value[j..]), done, f)
    decreases |f.chunks.value| - j
  {
    hide *;
    var chunks, i := f.chunks.value, |done| + 2;
    if j == |chunks| {
      assert chunks[j..] == [];
      AppendAllNil(fs, i);
    } else {
      assert chunks[j..][0] == chunks[j] && chunks[j..][1..] == chunks[j + 1..];
      AppendAllCons(fs, i, chunks[j..]);
      ChunksStopCons(fs, i, chunks[j..]);
      if Iappend(fs, i, chunks[j]).None? {
        PieceStopped(fs, own, done, f, j);
        StoppedWitness(AppendStop(fs, i, chunks[j]), done, f, j);
      } else {
        AppendDone(fs, i, chunks[j]);
        var own1 := ChunkStep(fs, own, done, f, j);
        ChunksStopped(AppendStop(fs, i, chunks[j]), own1, done, f, j + 1);
      }
    }
  }

  lemma StoppedWitness(fs: Fs, done: seq<File>, f: File, k: nat)
    requires f.chunks.Some? && k < |f.chunks.value| && StoppedAt(fs, done, f, k)
    ensures StoppedInside(fs, done, f)
  {
    hide StoppedAt;
  }

  lemma ChunksStopCons(fs: Fs, inum: nat, chunks: seq<seq<byte>>)
    requires chunks != []
    ensures ChunksStop(fs, inum, chunks) ==
      if Iappend(fs, inum, chunks[0]).None? then AppendStop(fs, inum, chunks[0])
      else ChunksStop(AppendStop(fs, inum, chunks[0]), inum, chunks[1..])
  {
    hide Iappend, AppendStop;
  }

  /** What mkfs leaves when it stops at file f, after the files done: they are all in
      the image, with their directory entries. A name with '/' and a file that cannot be
      opened leave nothing of f; a file that is too long has an entry, and holds the
      pieces that were appended before the one that did not fit. */
  predicate LeftAt(fs: Fs, done: seq<File>, f: File) {
    if SLASH in f.name || f.chunks.None? then
      HoldsFiles(fs, done) && Holds(fs, ROOT_INO, T_DIR, DirBytes(done))
    else StoppedInside(fs, done, f)
  }

  lemma FileStopped(fs: Fs, own: seq<Slot>, done: seq<File>, f: File)
    requires ImageInv(fs, own, done) && |done| + 2 < INODE_SLOTS && META_NUM + Cost(done + [f]) <= FS_SIZE
    requires AddFile(fs, f).None?
    ensures LeftAt(FileStop(fs, f), done, f)
  {
    AddFileCases(fs, f);
    FileStopCases(fs, f);
    hide *;
    ImageFacts(fs, own, done);
    if SLASH in f.name || f.chunks.None? {
      LeftOut(fs, done, f);
    } else {
      NoDataCost(done, f);
      var own1 := NewEntry(fs, own, done, f);
      var fs1 := AddEntry(fs, f.name).value;
      NothingYet(f);
      ChunksStopped(fs1, own1, done, f, 0);
      LeftInside(FileStop(fs, f), done, f);
    }
  }

  lemma FileStopCases(fs: Fs, f: File)
    ensures SLASH in f.name || f.chunks.None? ==> FileStop(fs, f) == fs
    ensures !(SLASH in f.name || f.chunks.None?) && AddEntry(fs, f.name).Some? ==>
      FileStop(fs, f) == ChunksStop(AddEntry(fs, f.name).value, fs.freeinode, f.chunks.value)
  {
    if AddEntry(fs, f.name).Some? {
      EntryDone(fs, f.name);
    }
    hide AddEntry, EntryStop, ChunksStop;
  }

  /** With a root directory of MAX_FILE blocks the run ends at the entry of the next
      file, of which only the fresh inode is on the disk. */
  lemma RootFull(fs: Fs, f: File)
    requires ('/' as byte) !in f.name && f.chunks.Some?
    requires Rinode(Ialloc(fs, T_FILE).disk, ROOT_INO).size / 512 >= 140
    ensures AddEntry(fs, f.name) == None && AddFile(fs, f) == None && FileStop(fs, f) == Ialloc(fs, T_FILE)
  {
    hide Ialloc, Rinode, Winode, Dirent;
    var e := Dirent(Xshort(fs.freeinode), f.name);
    assert |e| == 16;
    assert AppendLoop(Open(Ialloc(fs, T_FILE), ROOT_INO), e) == None;
  }

  lemma NothingYet(f: File)
    requires f.chunks.Some?
    ensures Partial(f, 0) == NoData(f) && f.chunks.value[0..] == f.chunks.value
  {
  }

  lemma LeftOut(fs: Fs, done: seq<File>, f: File)
    requires SLASH in f.name || f.chunks.None?
    requires HoldsFiles(fs, done) && Holds(fs, ROOT_INO, T_DIR, DirBytes(done))
    ensures LeftAt(fs, done, f)
  {
    hide HoldsFiles, Holds, DirBytes, StoppedInside;
  }

  lemma LeftInside(fs: Fs, done: seq<File>, f: File)
    requires !(SLASH in f.name || f.chunks.None?) && StoppedInside(fs, done, f)
    ensures LeftAt(fs, done, f)
  {
    hide HoldsFiles, Holds, DirBytes, StoppedInside;
  }

  /** The loop over the arguments stops at the first one that is not acceptable. */
  lemma {:induction false} FilesStopped(fs: Fs, own: seq<Slot>, done: seq<File>, rest: seq<File>) returns (n: nat)
    requires ImageInv(fs, own, done) && |done| + |rest| + 2 <= INODE_SLOTS && META_NUM + Cost(done + rest) <= FS_SIZE
    requires AddAll(fs, rest).None?
    ensures n < |rest| && AllAcceptable(rest[..n]) && !Acceptable(rest[n])
    ensures LeftAt(FilesStop(fs, rest), done + rest[..n], rest[n])
    decreases |rest|
  {
    hide *;
    n := 0;
    if rest == [] {
      AddAllNil(fs);
    } else {
      var f := rest[0];
      assert done + rest == (done + [f]) + rest[1..];
      AddAllCons(fs, rest);
      FilesStopCons(fs, rest);
      CostPrefix(done + [f], rest[1..]);
      var own1 := AddFileCorrect(fs, own, done, f);
      if AddFile(fs, f).None? {
        assert rest[..0] == [] && done + [] == done;
        AddAllNil(fs);
        FileStopped(fs, own, done, f);
      } else {
        FileDone(fs, f);
        var k := FilesStopped(FileStop(fs, f), own1, done + [f], rest[1..]);
        n := k + 1;
        assert rest[..n] == [f] + rest[1..][..k] && rest[n] == rest[1..][k];
        assert rest[..n][1..] == rest[1..][..k];
        AcceptableCons(rest[..n]);
        assert done + rest[..n] == done + [f] + rest[1..][..k];
      }
    }
  }

  lemma FilesStopCons(fs: Fs, files: seq<File>)
    requires files != []
    ensures FilesStop(fs, files) ==
      if AddFile(fs, files[0]).None? then FileStop(fs, files[0]) else FilesStop(FileStop(fs, files[0]), files[1..])
  {
    hide AddFile, FileStop;
  }

  /** Main result: when mkfs does not complete, it has stopped at the first argument that
      its checks do not accept, and the disk holds every file before it. */
  lemma MkfsStopped(files: seq<File>) returns (n: nat)
    requires Fits(files) && Build(files).None?
    ensures n < |files| && AllAcceptable(files[..n]) && !Acceptable(files[n])
    ensures LeftAt(BuildStop(files), files[..n], files[n])
  {
    hide *;
    var own0 := RootInv();
    RootDone();
    FitsFacts(files);
    MkfsCorrect(files);
    assert [] + files == files;
    var own := AddAllCorrect(RootStop(), own0, [], files);
    n := FilesStopped(RootStop(), own0, [], files);
    assert [] + files[..n] == files[..n];
    BuildStopIs(files);
  }

  lemma BuildStopIs(files: seq<File>)
    requires WithRoot().Some? && AddAll(RootStop(), files).None?
    ensures BuildStop(files) == FilesStop(RootStop(), files)
  {
    hide WithRoot, RootStop, AddAll, FilesStop;
  }

  lemma BuildStopCases(files: seq<File>)
    requires WithRoot().Some? && AddAll(RootStop(), files).Some?
    ensures BuildStop(files) == BallocStop(RoundRoot(FilesStop(RootStop(), files)))
  {
    hide WithRoot, RootStop, AddAll, FilesStop, BallocStop, RoundRoot;
  }
}
