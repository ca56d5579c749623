/** The image that mkfs writes (main in tools/mkfs.c): superblock, root directory,
    files and bitmap, and that a reader following the on-disk format gets back
    exactly what went in. */
module Image {
  import opened Options
  import opened Bits
  import opened FsLayout
  import opened Mkfs
  import opened Append

  /* ---- what main computes ---- */

  type CString = s: seq<byte> | 0 !in s

  const SLASH: byte := 47
  const DOT: byte := 46

  /** A command-line argument: its name, and what successive calls of read return
      (None when the file cannot be opened). */
  datatype File = File(name: CString, chunks: Option<seq<seq<byte>>>)

  function Bytes(f: File): seq<byte> {
    match f.chunks
    case None => []
    case Some(chunks) => Concat(chunks)
  }

  function Zeros(n: nat): (s: seq<byte>)
    ensures |s| == n && forall i :: 0 <= i < n ==> s[i] == 0
  {
    seq(n, _ => 0)
  }

  /** The name field of a directory entry: at most 14 bytes, zeros after a shorter name. */
  function NameField(name: seq<byte>): (s: seq<byte>)
    ensures |s| == 14
  {
    if |name| >= 14 then name[..14] else name + Zeros(14 - |name|)
  }

  /** The inode number as the 16-bit field of a directory entry stores it. */
  function Xshort(x: nat): half {
    x % 65536
  }

  function Dirent(inum: half, name: seq<byte>): (s: seq<byte>)
    ensures |s| == 16
  {
    HalfBytes(inum) + NameField(name)
  }

  /** A directory entry as bytes: the inode number, then 14 bytes of name padded with zeros. */
  lemma DirentLies(inum: half, name: seq<byte>)
    ensures HalfLies(Dirent(inum, name), 0, inum)
    ensures forall k :: 0 <= k < 14 ==> Dirent(inum, name)[2 + k] == if k < |name| then name[k] else 0
  {
    assert Dirent(inum, name)[0..2] == HalfBytes(inum);
    HalfPart(Dirent(inum, name), 0, inum);
    forall k | 0 <= k < 14 ensures Dirent(inum, name)[2 + k] == NameField(name)[k] {
    }
  }

  /** size, nblocks, ninodes, nlog, logstart, inodestart, bmapstart. */
  function SuperWords(): seq<word> {
    [FS_SIZE, FS_SIZE - META_NUM, INODES_NUM, LOG_SIZE, 2, INODE_START, BMAP_START]
  }

  function SuperBlock(): Block {
    WordsBytes(SuperWords()) + Zeros(484)
  }

  /** All blocks cleared and the superblock written. */
  function Formatted(): Fs {
    Fs(seq(1000, _ => ZeroBlock())[1 := SuperBlock()], 1, META_NUM)
  }

  /** The root directory with its first two entries. */
  function WithRoot(): Option<Fs> {
    match Iappend(Ialloc(Formatted(), T_DIR), ROOT_INO, Dirent(ROOT_INO, [DOT]))
    case None => None
    case Some(fs) => Iappend(fs, ROOT_INO, Dirent(ROOT_INO, [DOT, DOT]))
  }

  /** A new file inode and its directory entry. */
  function AddEntry(fs: Fs, name: seq<byte>): Option<Fs> {
    Iappend(Ialloc(fs, T_FILE), ROOT_INO, Dirent(Xshort(fs.freeinode), name))
  }

  /** One turn of the loop over the arguments. None: an assertion failed, or the
      file could not be opened. */
  function AddFile(fs: Fs, f: File): Option<Fs> {
    if SLASH in f.name || f.chunks.None? then None else Fill(AddEntry(fs, f.name), fs.freeinode, f.chunks.value)
  }

  function Fill(o: Option<Fs>, inum: nat, chunks: seq<seq<byte>>): Option<Fs> {
    match o
    case None => None
    case Some(fs) => AppendAll(fs, inum, chunks)
  }

  function AddAll(fs: Fs, files: seq<File>): Option<Fs>
    decreases |files|
  {
    if files == [] then Some(fs)
    else
      match AddFile(fs, files[0])
      case None => None
      case Some(fs') => AddAll(fs', files[1..])
  }

  /** balloc's loop: bits 0..used-1 set. */
  function Bitmap(used: nat): Block
    requires used <= 4096
  {
    if used == 0 then ZeroBlock() else MarkUsed(Bitmap(used - 1), used - 1)
  }

  function MarkUsed(buf: Block, b: nat): Block
    requires b < 4096
  {
    BitBound(buf[b / 8], b % 8);
    buf[b / 8 := BitOr(buf[b / 8], Pow2(b % 8))]
  }

  lemma BitBound(v: byte, k: nat)
    requires k < 8
    ensures BitOr(v, Pow2(k)) < 256
  {
    assert Pow2(8) == 256;
    PowMono(k, 8);
    BitOrBound(v, Pow2(k), 8);
  }

  lemma {:induction false} PowMono(a: nat, b: nat)
    requires a < b
    ensures 0 < Pow2(a) < Pow2(b)
    decreases b
  {
    if a == 0 {
      if b > 1 {
        PowMono(0, b - 1);
      }
    } else {
      PowMono(a - 1, b - 1);
    }
  }

  function RoundedSize(n: nat): word {
    Wrap((n / 512 + 1) * 512)
  }

  /** The root directory's size rounded up to the next block. */
  function RoundRoot(fs: Fs): Fs {
    var d := Rinode(fs.disk, ROOT_INO);
    Fs(Winode(fs.disk, ROOT_INO, SetSize(d, RoundedSize(d.size))), fs.freeinode, fs.freeblock)
  }

  /** balloc. */
  function Balloc(fs: Fs): Option<Fs> {
    if fs.freeblock >= 4096 then None
    else Some(Fs(Wsect(fs.disk, BMAP_START, Bitmap(fs.freeblock)), fs.freeinode, fs.freeblock))
  }

  /** The whole of main. */
  function Build(files: seq<File>): Option<Fs> {
    match WithRoot()
    case None => None
    case Some(fs) =>
      match AddAll(fs, files)
      case None => None
      case Some(fs') => Balloc(RoundRoot(fs'))
  }

  /* ---- reading an image by its format ---- */

  /** The inode table starts where the superblock says. */
  function ReadInode(disk: seq<Block>, i: nat): Inode {
    GetInode(Rsect(disk, i / 8 + GetPtr(Rsect(disk, 1), 5)), i % 8)
  }

  function ReadByte(disk: seq<Block>, d: Inode, k: nat): byte {
    if k / 512 >= MAX_FILE then 0 else Rsect(disk, AddrOf(disk, d, k / 512))[k % 512]
  }

  function ReadFile(disk: seq<Block>, d: Inode): (s: seq<byte>)
    ensures |s| == d.size
  {
    seq(d.size, k requires 0 <= k < d.size => ReadByte(disk, d, k))
  }

  datatype Entry = Entry(inum: half, name: seq<byte>)

  /** A name ends at its first zero byte, or fills the field. */
  function CutName(s: seq<byte>): seq<byte> {
    if s == [] || s[0] == 0 then [] else [s[0]] + CutName(s[1..])
  }

  /** A 16-byte directory entry; inode number 0 marks an unused one. */
  function UsedEntry(s: seq<byte>): seq<Entry>
    requires |s| == 16
  {
    if HalfAt(s, 0) == 0 then [] else [Entry(HalfAt(s, 0), CutName(s[2..]))]
  }

  /** The used entries of a directory, in order. */
  function Entries(s: seq<byte>): seq<Entry> {
    if |s| < 16 then [] else UsedEntry(s[..16]) + Entries(s[16..])
  }

  datatype Listing = Listing(inum: half, name: seq<byte>, kind: half, contents: seq<byte>)

  /** One entry of the root directory with the file it leads to. */
  function Follow(disk: seq<Block>, e: Entry): Listing {
    var d := ReadInode(disk, e.inum);
    Listing(e.inum, e.name, d.kind, if d.kind == T_DIR then [] else ReadFile(disk, d))
  }

  function FollowAll(disk: seq<Block>, es: seq<Entry>): (r: seq<Listing>)
    ensures |r| == |es|
  {
    seq(|es|, i requires 0 <= i < |es| => Follow(disk, es[i]))
  }

  /** The listing of the image: from the superblock to the root inode, its
      directory, and every file named there. */
  function ReadImage(disk: seq<Block>): seq<Listing> {
    FollowAll(disk, Entries(ReadFile(disk, ReadInode(disk, ROOT_INO))))
  }

  /* ---- what should be in it ---- */

  /** The bytes of the root directory. */
  function DirBytes(files: seq<File>): (s: seq<byte>)
    ensures |s| == 16 * (|files| + 2)
    decreases |files|
  {
    if files == [] then Dirent(ROOT_INO, [DOT]) + Dirent(ROOT_INO, [DOT, DOT])
    else
      var n := |files| - 1;
      DirBytes(files[..n]) + Dirent(Xshort(n + 2), files[n].name)
  }

  function Cut14(name: seq<byte>): seq<byte> {
    if |name| > 14 then name[..14] else name
  }

  /** The listing a reader should see: ".", ".." and the files with inodes 2, 3, ... */
  function Expected(files: seq<File>): (r: seq<Listing>)
    ensures |r| == |files| + 2
  {
    [Listing(1, ['.' as byte], 1, []), Listing(1, ['.' as byte, '.' as byte], 1, [])]
    + seq(|files|, k requires 0 <= k < |files| => Listing((k + 2) % 65536, Cut14(files[k].name), 2, Bytes(files[k])))
  }

  /** The data blocks that the files take. */
  function FileBlocks(files: seq<File>): nat
    decreases |files|
  {
    if files == [] then 0 else FileBlocks(files[..|files| - 1]) + Total(|Bytes(files[|files| - 1])|)
  }

  function Cost(files: seq<File>): nat {
    Total(16 * (|files| + 2)) + FileBlocks(files)
  }

  /** What the code does not check itself: that inodes and blocks suffice. */
  predicate Fits(files: seq<File>) {
    |files| <= INODE_SLOTS - 2 && META_NUM + Cost(files) <= FS_SIZE
  }

  /** What the code does check: no '/' in the name, the file can be opened, and it is
      not longer than MAX_FILE blocks. */
  predicate Acceptable(f: File) {
    ('/' as byte) !in f.name && f.chunks.Some? && |Bytes(f)| <= MAX_FILE * 512
  }

  predicate AllAcceptable(files: seq<File>) {
    forall f :: f in files ==> Acceptable(f)
  }

  /* ---- the bitmap ---- */

  predicate BitSet(buf: Block, b: nat)
    requires b < 4096
  {
    Bit(buf[b / 8], b % 8)
  }

  lemma {:induction false} PowBit(k: nat, j: nat)
    ensures Bit(Pow2(k), j) <==> j == k
    decreases k
  {
    if k == 0 {
      if j > 0 {
        ZeroHasNoBits(j - 1);
      }
    } else if j > 0 {
      assert Pow2(k) / 2 == Pow2(k - 1);
      PowBit(k - 1, j - 1);
    }
  }

  /** balloc marks exactly the first `used` blocks. */
  lemma {:induction false} BitmapBits(used: nat, b: nat)
    requires used <= 4096 && b < 4096
    ensures BitSet(Bitmap(used), b) <==> b < used
    decreases used
  {
    if used == 0 {
      ZeroHasNoBits(b % 8);
    } else {
      var u := used - 1;
      BitmapBits(u, b);
      if b / 8 == u / 8 {
        BitOrBits(Bitmap(u)[b / 8], Pow2(u % 8), b % 8);
        PowBit(u % 8, b % 8);
        assert b == u <==> b % 8 == u % 8;
      }
    }
  }
}
