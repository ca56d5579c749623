/** The on-disk format (include/Tuix/fs.h): blocks, inodes, directory entries and
    the superblock, as bytes. Integers are little-endian. */
module FsLayout {
  import opened Bits

  const B_SIZE: nat := 512
  const FS_SIZE: nat := 1000
  const LOG_SIZE: nat := 30
  const DIRECT_NUM: nat := 12
  const INDIRECT_NUM: nat := 128   // B_SIZE / sizeof(uint32_t)
  const MAX_FILE: nat := 140       // DIRECT_NUM + INDIRECT_NUM
  const IPB: nat := 8              // B_SIZE / sizeof(struct dinode)
  const BPB: nat := 4096           // B_SIZE * 8
  const ROOT_INO: nat := 1
  const T_DIR: half := 1
  const T_FILE: half := 2

  type Block = s: seq<byte> | |s| == 512 witness seq(512, _ => 0)

  function ZeroBlock(): (s: Block)
    ensures forall i :: 0 <= i < 512 ==> s[i] == 0
  {
    seq(512, _ => 0)
  }

  /** `s` with the bytes from off on replaced by x. */
  function Splice(s: seq<byte>, off: nat, x: seq<byte>): (r: seq<byte>)
    requires off + |x| <= |s|
    ensures |r| == |s|
    ensures forall i :: 0 <= i < |s| ==> r[i] == if off <= i < off + |x| then x[i - off] else s[i]
  {
    s[..off] + x + s[off + |x|..]
  }

  /* ---- integers ---- */

  function WordAt(s: seq<byte>, off: nat): word
    requires off + 4 <= |s|
  {
    FromBytes(s[off], s[off + 1], s[off + 2], s[off + 3])
  }

  function WordBytes(w: word): (s: seq<byte>)
    ensures |s| == 4
  {
    [ByteOf(w, 0), ByteOf(w, 1), ByteOf(w, 2), ByteOf(w, 3)]
  }

  function HalfAt(s: seq<byte>, off: nat): half
    requires off + 2 <= |s|
  {
    (s[off] as int) + 256 * (s[off + 1] as int)
  }

  function HalfBytes(h: half): (s: seq<byte>)
    ensures |s| == 2
  {
    [h % 256, h / 256]
  }

  lemma WordRoundTrip(w: word)
    ensures WordAt(WordBytes(w), 0) == w
  {
    ByteOfInverse(w);
  }

  lemma WordBytesInverse(s: seq<byte>, off: nat)
    requires off + 4 <= |s|
    ensures WordBytes(WordAt(s, off)) == s[off..off + 4]
  {
    FromBytesInverse(s[off], s[off + 1], s[off + 2], s[off + 3]);
  }

  function WordsBytes(ws: seq<word>): (s: seq<byte>)
    ensures |s| == 4 * |ws|
  {
    if ws == [] then [] else WordBytes(ws[0]) + WordsBytes(ws[1..])
  }

  lemma {:induction false} WordsBytesAt(ws: seq<word>, i: nat)
    requires i < |ws|
    ensures WordsBytes(ws)[4 * i..4 * i + 4] == WordBytes(ws[i])
    decreases i
  {
    if i == 0 {
    } else {
      WordsBytesAt(ws[1..], i - 1);
      assert WordsBytes(ws)[4 * i..4 * i + 4] == WordsBytes(ws[1..])[4 * (i - 1)..4 * (i - 1) + 4];
    }
  }

  /** A byte sequence is determined by its four-byte groups. */
  lemma {:induction false} WordsBytesUnique(ws: seq<word>, s: seq<byte>)
    requires |s| == 4 * |ws|
    requires forall i :: 0 <= i < |ws| ==> s[4 * i..4 * i + 4] == WordBytes(ws[i])
    ensures WordsBytes(ws) == s
    decreases |ws|
  {
    if ws == [] {
    } else {
      forall i | 0 <= i < |ws[1..]| ensures s[4..][4 * i..4 * i + 4] == WordBytes(ws[1..][i]) {
        assert s[4..][4 * i..4 * i + 4] == s[4 * (i + 1)..4 * (i + 1) + 4];
      }
      WordsBytesUnique(ws[1..], s[4..]);
      assert s == s[4 * 0..4 * 0 + 4] + s[4..];
    }
  }

  /* ---- inodes ---- */

  datatype Dinode = Dinode(kind: half, major: half, minor: half, nlink: half, size: word, addrs: seq<word>)

  type Inode = d: Dinode | |d.addrs| == 13 witness Dinode(0, 0, 0, 0, 0, [0, 0, 0, 0, 0, 0, 0, 0, 0, 0, 0, 0, 0])

  function BlankInode(): Inode {
    Dinode(0, 0, 0, 0, 0, [0, 0, 0, 0, 0, 0, 0, 0, 0, 0, 0, 0, 0])
  }

  function EncodeInode(d: Inode): (s: seq<byte>)
    ensures |s| == 64
  {
    HalfBytes(d.kind) + HalfBytes(d.major) + HalfBytes(d.minor) + HalfBytes(d.nlink) + WordBytes(d.size)
        + WordsBytes(d.addrs)
  }

  function DecodeInode(s: seq<byte>): Inode
    requires |s| == 64
  {
    Dinode(HalfAt(s, 0), HalfAt(s, 2), HalfAt(s, 4), HalfAt(s, 6), WordAt(s, 8), DecodeAddrs(s))
  }

  function DecodeAddrs(s: seq<byte>): (ws: seq<word>)
    requires |s| == 64
    ensures |ws| == 13
  {
    seq(13, i requires 0 <= i < 13 => WordAt(s, 12 + 4 * i))
  }

  /** Reading back a written inode. */
  lemma InodeRoundTrip(d: Inode)
    ensures DecodeInode(EncodeInode(d)) == d
  {
    var s := EncodeInode(d);
    assert s[12..] == WordsBytes(d.addrs);
    forall i | 0 <= i < 13 ensures DecodeAddrs(s)[i] == d.addrs[i] {
      WordsBytesAt(d.addrs, i);
      WordRoundTrip(d.addrs[i]);
      assert s[12 + 4 * i..12 + 4 * i + 4] == WordsBytes(d.addrs)[4 * i..4 * i + 4];
    }
    assert s[8..12] == WordBytes(d.size);
    WordRoundTrip(d.size);
    assert s[0..2] == HalfBytes(d.kind) && s[2..4] == HalfBytes(d.major);
    assert s[4..6] == HalfBytes(d.minor) && s[6..8] == HalfBytes(d.nlink);
  }

  /** Writing back an inode that was read. */
  lemma InodeBytesInverse(s: seq<byte>)
    requires |s| == 64
    ensures EncodeInode(DecodeInode(s)) == s
  {
    AddrBytesInverse(s);
    WordBytesInverse(s, 8);
    HalfBytesInverse(s, 0);
    HalfBytesInverse(s, 2);
    HalfBytesInverse(s, 4);
    HalfBytesInverse(s, 6);
    hide HalfBytes, HalfAt, WordBytes, WordAt, WordsBytes, DecodeAddrs;
    assert s == s[0..2] + s[2..4] + s[4..6] + s[6..8] + s[8..12] + s[12..];
  }

  lemma AddrBytesInverse(s: seq<byte>)
    requires |s| == 64
    ensures WordsBytes(DecodeAddrs(s)) == s[12..]
  {
    forall i | 0 <= i < 13 ensures s[12..][4 * i..4 * i + 4] == WordBytes(DecodeAddrs(s)[i]) {
      WordBytesInverse(s, 12 + 4 * i);
      assert s[12..][4 * i..4 * i + 4] == s[12 + 4 * i..12 + 4 * i + 4];
    }
    WordsBytesUnique(DecodeAddrs(s), s[12..]);
  }

  lemma HalfBytesInverse(s: seq<byte>, off: nat)
    requires off + 2 <= |s|
    ensures HalfBytes(HalfAt(s, off)) == s[off..off + 2]
  {
  }

  /** Inode number `slot` within a block. */
  function GetInode(b: Block, slot: nat): Inode
    requires slot < 8
  {
    DecodeInode(b[64 * slot..64 * slot + 64])
  }

  function PutInode(b: Block, slot: nat, d: Inode): Block
    requires slot < 8
  {
    Splice(b, 64 * slot, EncodeInode(d))
  }

  lemma GetPutInode(b: Block, slot: nat, d: Inode, other: nat)
    requires slot < 8 && other < 8
    ensures GetInode(PutInode(b, slot, d), other) == if other == slot then d else GetInode(b, other)
  {
    var b' := PutInode(b, slot, d);
    if other == slot {
      assert b'[64 * slot..64 * slot + 64] == EncodeInode(d);
      InodeRoundTrip(d);
    } else {
      assert b'[64 * other..64 * other + 64] == b[64 * other..64 * other + 64];
    }
  }

  lemma PutGetInode(b: Block, slot: nat)
    requires slot < 8
    ensures PutInode(b, slot, GetInode(b, slot)) == b
  {
    InodeBytesInverse(b[64 * slot..64 * slot + 64]);
    assert PutInode(b, slot, GetInode(b, slot)) == b;
  }

  lemma PutPutInode(b: Block, slot: nat, d: Inode, d': Inode)
    requires slot < 8
    ensures PutInode(PutInode(b, slot, d), slot, d') == PutInode(b, slot, d')
  {
    assert PutInode(PutInode(b, slot, d), slot, d') == PutInode(b, slot, d');
  }

  lemma BlankInodeBytes(slot: nat)
    requires slot < 8
    ensures GetInode(ZeroBlock(), slot) == BlankInode()
  {
    var s := ZeroBlock()[64 * slot..64 * slot + 64];
    assert forall i :: 0 <= i < 64 ==> s[i] == 0;
    ZeroInode(s);
  }

  lemma ZeroInode(s: seq<byte>)
    requires |s| == 64 && forall i :: 0 <= i < 64 ==> s[i] == 0
    ensures DecodeInode(s) == BlankInode()
  {
    hide FromBytes;
    forall off | 0 <= off <= 60 ensures WordAt(s, off) == 0 {
      ZeroWord();
    }
    assert DecodeAddrs(s) == BlankInode().addrs;
  }

  lemma ZeroWord()
    ensures FromBytes(0, 0, 0, 0) == 0
  {
  }

  /* ---- indirect blocks ---- */

  function GetPtr(b: Block, j: nat): word
    requires j < 128
  {
    WordAt(b, 4 * j)
  }

  function PutPtr(b: Block, j: nat, w: word): Block
    requires j < 128
  {
    Splice(b, 4 * j, WordBytes(w))
  }

  lemma GetPutPtr(b: Block, j: nat, w: word, other: nat)
    requires j < 128 && other < 128
    ensures GetPtr(PutPtr(b, j, w), other) == if other == j then w else GetPtr(b, other)
  {
    if other == j {
      WordRoundTrip(w);
    }
  }

  lemma ZeroPtr(j: nat)
    requires j < 128
    ensures GetPtr(ZeroBlock(), j) == 0
  {
  }

  /* ---- where the bytes lie ---- */

  /** The word w lies at offset off, least significant byte first. */
  predicate WordLies(s: seq<byte>, off: nat, w: word) {
    off + 4 <= |s| && s[off] == w % 256 && s[off + 1] == w / 256 % 256 && s[off + 2] == w / 65536 % 256
    && s[off + 3] == w / 16777216
  }

  predicate HalfLies(s: seq<byte>, off: nat, h: half) {
    off + 2 <= |s| && s[off] == h % 256 && s[off + 1] == h / 256
  }

  /** struct dinode, field by field: each has its offset from the start of the inode. */
  predicate InodeLies(s: seq<byte>, off: nat, d: Inode) {
    && HalfLies(s, off, d.kind) && HalfLies(s, off + 2, d.major) && HalfLies(s, off + 4, d.minor)
    && HalfLies(s, off + 6, d.nlink) && WordLies(s, off + 8, d.size)
    && forall k :: 0 <= k < 13 ==> WordLies(s, off + 12 + 4 * k, d.addrs[k])
  }

  lemma EncodedLies(d: Inode)
    ensures InodeLies(EncodeInode(d), 0, d)
  {
    var s := EncodeInode(d);
    assert s[12..] == WordsBytes(d.addrs);
    forall k | 0 <= k < 13 ensures WordLies(s, 12 + 4 * k, d.addrs[k]) {
      WordsBytesAt(d.addrs, k);
      assert s[12 + 4 * k..12 + 4 * k + 4] == WordsBytes(d.addrs)[4 * k..4 * k + 4];
      WordPart(s, 12 + 4 * k, d.addrs[k]);
    }
    assert s[8..12] == WordBytes(d.size);
    WordPart(s, 8, d.size);
    assert s[0..2] == HalfBytes(d.kind) && s[2..4] == HalfBytes(d.major);
    assert s[4..6] == HalfBytes(d.minor) && s[6..8] == HalfBytes(d.nlink);
    HalfPart(s, 0, d.kind);
    HalfPart(s, 2, d.major);
    HalfPart(s, 4, d.minor);
    HalfPart(s, 6, d.nlink);
    hide EncodeInode, WordLies, HalfLies, WordBytes, HalfBytes, WordsBytes;
  }

  lemma WordPart(s: seq<byte>, off: nat, w: word)
    requires off + 4 <= |s| && s[off..off + 4] == WordBytes(w)
    ensures WordLies(s, off, w)
  {
    var p := s[off..off + 4];
    assert p[0] == s[off] && p[1] == s[off + 1] && p[2] == s[off + 2] && p[3] == s[off + 3];
  }

  lemma HalfPart(s: seq<byte>, off: nat, h: half)
    requires off + 2 <= |s| && s[off..off + 2] == HalfBytes(h)
    ensures HalfLies(s, off, h)
  {
    var p := s[off..off + 2];
    assert p[0] == s[off] && p[1] == s[off + 1];
  }

  /** Inode `slot` of a block lies at 64 times its number, and the rest of the block is
      as it was; the same for entry j of an indirect block, at 4 * j. */
  lemma PutLayout(b: Block, slot: nat, d: Inode, j: nat, w: word)
    requires slot < 8 && j < 128
    ensures InodeLies(PutInode(b, slot, d), 64 * slot, d)
    ensures forall k :: 0 <= k < 512 && !(64 * slot <= k < 64 * slot + 64) ==> PutInode(b, slot, d)[k] == b[k]
    ensures WordLies(PutPtr(b, j, w), 4 * j, w)
    ensures forall k :: 0 <= k < 512 && !(4 * j <= k < 4 * j + 4) ==> PutPtr(b, j, w)[k] == b[k]
  {
    EncodedLies(d);
    var s, b' := EncodeInode(d), PutInode(b, slot, d);
    InodeMoves(s, b', 64 * slot, d);
    assert PutPtr(b, j, w)[4 * j..4 * j + 4] == WordBytes(w);
    WordPart(PutPtr(b, j, w), 4 * j, w);
    hide EncodeInode, WordBytes, InodeLies, WordLies;
  }

  lemma InodeMoves(s: seq<byte>, b: Block, off: nat, d: Inode)
    requires |s| == 64 && off + 64 <= 512 && InodeLies(s, 0, d) && forall k :: 0 <= k < 64 ==> b[off + k] == s[k]
    ensures InodeLies(b, off, d)
  {
    forall k | 0 <= k < 13 ensures WordLies(b, off + 12 + 4 * k, d.addrs[k]) {
      assert WordLies(s, 0 + 12 + 4 * k, d.addrs[k]);
      WordMoves(s, b, off, 12 + 4 * k, d.addrs[k]);
    }
    WordMoves(s, b, off, 8, d.size);
    assert b[off + 0] == s[0] && b[off + 1] == s[1] && b[off + 2] == s[2] && b[off + 3] == s[3];
    assert b[off + 4] == s[4] && b[off + 5] == s[5] && b[off + 6] == s[6] && b[off + 7] == s[7];
    hide WordLies;
  }

  lemma WordMoves(s: seq<byte>, b: Block, off: nat, at: nat, w: word)
    requires |s| == 64 && off + 64 <= 512 && WordLies(s, at, w) && forall k :: 0 <= k < 64 ==> b[off + k] == s[k]
    ensures WordLies(b, off + at, w)
  {
    assert b[off + (at + 0)] == s[at + 0] && b[off + (at + 1)] == s[at + 1];
    assert b[off + (at + 2)] == s[at + 2] && b[off + (at + 3)] == s[at + 3];
  }

  /** Reading: entry j of a block is the word that lies at 4 * j. */
  lemma GetPtrLies(b: Block, j: nat)
    requires j < 128
    ensures WordLies(b, 4 * j, GetPtr(b, j))
  {
    WordBytesInverse(b, 4 * j);
    WordPart(b, 4 * j, GetPtr(b, j));
    hide WordBytes, WordLies, FromBytes;
  }
}
