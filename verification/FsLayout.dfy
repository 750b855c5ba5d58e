/** How bitmap bits and inodes are laid out in disk blocks. */
module FsLayout {
  import opened Types
  import opened Blocks

  const BPB: nat := 4096     // bitmap bits per block
  const IPB: nat := 8        // inodes per block
  const NDIRECT: nat := 12
  const NINDIRECT: nat := 128
  const MAXFILE: nat := 140

  /** The parts of the super block that the file system proper uses. */
  datatype Super = Super(size: nat, ninodes: nat, inodestart: nat, bmapstart: nat) {
    ghost predicate Good() {
      && 2 <= inodestart && inodestart + ninodes / IPB + 1 <= bmapstart
      && DataStart() <= size < UINT_LIMIT
    }

    /** The first block after the bitmap. */
    function DataStart(): nat { bmapstart + size / BPB + 1 }

    function BitBlock(b: nat): nat { b / BPB + bmapstart }

    function InodeBlock(i: nat): nat { i / IPB + inodestart }
  }

  // ---------------------------------------------------------------------------
  // Bits of a byte

  /** x & (1 << i), as a truth value. */
  predicate HasBit(x: nat, i: nat) {
    if i == 0 then x % 2 == 1 else HasBit(x / 2, i - 1)
  }

  /** x | (1 << i). */
  function WithBit(x: nat, i: nat): (r: nat) {
    if i == 0 then x / 2 * 2 + 1 else WithBit(x / 2, i - 1) * 2 + x % 2
  }

  /** x & ~(1 << i). */
  function WithoutBit(x: nat, i: nat): (r: nat)
    ensures r <= x
  {
    if i == 0 then x / 2 * 2 else WithoutBit(x / 2, i - 1) * 2 + x % 2
  }

  function Power(n: nat): nat {
    if n == 0 then 1 else 2 * Power(n - 1)
  }

  lemma {:induction false} WithBitFits(x: nat, i: nat, n: nat)
    requires i < n && x < Power(n)
    ensures WithBit(x, i) < Power(n)
  {
    if i > 0 {
      WithBitFits(x / 2, i - 1, n - 1);
    }
  }

  lemma {:induction false} WithBitIs(x: nat, i: nat, j: nat)
    ensures HasBit(WithBit(x, i), j) == (j == i || HasBit(x, j))
  {
    if i > 0 && j > 0 {
      WithBitIs(x / 2, i - 1, j - 1);
      assert WithBit(x, i) / 2 == WithBit(x / 2, i - 1);
    }
  }

  lemma {:induction false} WithoutBitIs(x: nat, i: nat, j: nat)
    ensures HasBit(WithoutBit(x, i), j) == (j != i && HasBit(x, j))
  {
    if i > 0 && j > 0 {
      WithoutBitIs(x / 2, i - 1, j - 1);
      assert WithoutBit(x, i) / 2 == WithoutBit(x / 2, i - 1);
    }
  }

  // ---------------------------------------------------------------------------
  // Bits of a bitmap block

  predicate BlockBit(x: Block, bi: nat)
    requires bi < BPB
  {
    HasBit(x[bi / 8], bi % 8)
  }

  function SetBit(x: Block, bi: nat): Block
    requires bi < BPB
  {
    ByteRoom(x[bi / 8], bi % 8);
    x[bi / 8 := WithBit(x[bi / 8], bi % 8)]
  }

  function ClearBit(x: Block, bi: nat): Block
    requires bi < BPB
  {
    x[bi / 8 := WithoutBit(x[bi / 8], bi % 8)]
  }

  lemma ByteRoom(x: Byte, i: nat)
    requires i < 8
    ensures WithBit(x, i) < 256
  {
    assert Power(8) == 256;
    WithBitFits(x, i, 8);
  }

  lemma SetBitIs(x: Block, bi: nat, bj: nat)
    requires bi < BPB && bj < BPB
    ensures BlockBit(SetBit(x, bi), bj) == (bi == bj || BlockBit(x, bj))
  {
    hide HasBit, WithBit;
    WithBitIs(x[bi / 8], bi % 8, bj % 8);
  }

  lemma ClearBitIs(x: Block, bi: nat, bj: nat)
    requires bi < BPB && bj < BPB
    ensures BlockBit(ClearBit(x, bi), bj) == (bi != bj && BlockBit(x, bj))
  {
    hide HasBit, WithoutBit;
    WithoutBitIs(x[bi / 8], bi % 8, bj % 8);
  }

  // ---------------------------------------------------------------------------
  // The bitmap of a disk

  /** bits is the bitmap stored on the disk, one truth value for each block. */
  ghost predicate Bits(d: Disk, sb: Super, bits: seq<bool>) {
    && sb.Good() && |d| == sb.size && |bits| == sb.size
    && forall b :: 0 <= b < sb.size ==> bits[b] == BlockBit(d[sb.BitBlock(b)], b % BPB)
  }

  lemma BitmapWhere(sb: Super, b: nat)
    requires sb.Good() && b < sb.size
    ensures sb.bmapstart <= sb.BitBlock(b) < sb.DataStart()
  {}

  /** A bitmap block with the bit of b changed to v. */
  function Marked(x: Block, b: nat, v: bool): Block {
    if v then SetBit(x, b % BPB) else ClearBit(x, b % BPB)
  }

  lemma MarkKeepsBits(d: Disk, sb: Super, bits: seq<bool>, b: nat, v: bool)
    requires Bits(d, sb, bits) && b < sb.size
    ensures Bits(d[sb.BitBlock(b) := Marked(d[sb.BitBlock(b)], b, v)], sb, bits[b := v])
  {
    hide BlockBit, SetBit, ClearBit;
    var x := d[sb.BitBlock(b)];
    var d1, bits1 := d[sb.BitBlock(b) := Marked(x, b, v)], bits[b := v];
    forall c | 0 <= c < sb.size ensures bits1[c] == BlockBit(d1[sb.BitBlock(c)], c % BPB) {
      assert bits[c] == BlockBit(d[sb.BitBlock(c)], c % BPB);
      if sb.BitBlock(c) == sb.BitBlock(b) {
        SetBitIs(x, b % BPB, c % BPB);
        ClearBitIs(x, b % BPB, c % BPB);
        assert c / BPB == b / BPB;
      }
    }
  }

  /** Writes outside of the bitmap leave it alone. */
  lemma WriteKeepsBits(d: Disk, sb: Super, bits: seq<bool>, w: nat, x: Block)
    requires Bits(d, sb, bits) && w < sb.size && (w < sb.bmapstart || sb.DataStart() <= w)
    ensures Bits(d[w := x], sb, bits)
  {}

  // ---------------------------------------------------------------------------
  // Inodes in a block

  type Half = x: int | 0 <= x < 65536
  type Addrs = a: seq<Word> | |a| == 13 witness seq(13, _ => 0)

  /** The on-disk inode, which the in-memory inode copies. */
  datatype Dinode = Dinode(typ: Half, major: Half, minor: Half, nlink: Half, size: Word, addrs: Addrs)

  /** Its sixteen words. */
  function InodeWords(n: Dinode): (r: seq<Word>)
    ensures |r| == 16
  {
    [n.typ + 65536 * n.major, n.minor + 65536 * n.nlink, n.size] + n.addrs
  }

  function PutWords(b: Block, base: nat, ws: seq<Word>): (r: Block)
    requires base + |ws| <= NWORDS
    decreases |ws|
  {
    if ws == [] then b else PutWords(PutWord(b, base, ws[0]), base + 1, ws[1..])
  }

  lemma {:induction false} WordOfPutWords(b: Block, base: nat, ws: seq<Word>, i: nat)
    requires base + |ws| <= NWORDS && i < NWORDS
    ensures WordAt(PutWords(b, base, ws), i) == if base <= i < base + |ws| then ws[i - base] else WordAt(b, i)
    decreases |ws|
  {
    hide WordAt, PutWord;
    if ws != [] {
      WordOfPutWords(PutWord(b, base, ws[0]), base + 1, ws[1..], i);
      WordOfPutWord(b, base, ws[0], i);
    }
  }

  function WordsOf(b: Block, from: nat, n: nat): (r: seq<Word>)
    requires from + n <= NWORDS
    ensures |r| == n && forall k :: 0 <= k < n ==> r[k] == WordAt(b, from + k)
  {
    if n == 0 then [] else WordsOf(b, from, n - 1) + [WordAt(b, from + n - 1)]
  }

  function ReadAddrs(b: Block, s: nat): (r: Addrs)
    requires s < IPB
    ensures forall k :: 0 <= k < 13 ==> r[k] == WordAt(b, 16 * s + 3 + k)
  {
    WordsOf(b, 16 * s + 3, 13)
  }

  function ReadInode(b: Block, s: nat): Dinode
    requires s < IPB
  {
    var w0, w1 := WordAt(b, 16 * s), WordAt(b, 16 * s + 1);
    Dinode(w0 % 65536, w0 / 65536, w1 % 65536, w1 / 65536, WordAt(b, 16 * s + 2), ReadAddrs(b, s))
  }

  function PutInode(b: Block, s: nat, n: Dinode): Block
    requires s < IPB
  {
    PutWords(b, 16 * s, InodeWords(n))
  }

  /** An inode written to a block reads back, and its neighbours are untouched. */
  lemma ReadPutInode(b: Block, s: nat, n: Dinode, t: nat)
    requires s < IPB && t < IPB
    ensures ReadInode(PutInode(b, s, n), t) == if s == t then n else ReadInode(b, t)
  {
    hide WordAt, PutWords;
    var x, ws := PutInode(b, s, n), InodeWords(n);
    WordOfPutWords(b, 16 * s, ws, 16 * t);
    WordOfPutWords(b, 16 * s, ws, 16 * t + 1);
    WordOfPutWords(b, 16 * s, ws, 16 * t + 2);
    forall k | 0 <= k < 13 ensures ReadAddrs(x, t)[k] == if s == t then n.addrs[k] else ReadAddrs(b, t)[k] {
      WordOfPutWords(b, 16 * s, ws, 16 * t + 3 + k);
    }
    assert ReadAddrs(x, t) == if s == t then n.addrs else ReadAddrs(b, t);
  }

  // ---------------------------------------------------------------------------
  // The inodes of a disk

  function DiskInode(d: Disk, sb: Super, i: nat): Dinode
    requires sb.Good() && |d| == sb.size && i < sb.ninodes
  {
    ReadInode(d[sb.InodeBlock(i)], i % IPB)
  }

  /** The inodes on disk are those of cur, except perhaps one that is being changed. */
  ghost predicate Inodes(d: Disk, sb: Super, cur: seq<Dinode>, dirty: int) {
    && sb.Good() && |d| == sb.size && |cur| == sb.ninodes
    && forall i :: 0 <= i < sb.ninodes && i != dirty ==> DiskInode(d, sb, i) == cur[i]
  }

  lemma WriteKeepsInodes(d: Disk, sb: Super, cur: seq<Dinode>, dirty: int, w: nat, x: Block)
    requires Inodes(d, sb, cur, dirty) && sb.bmapstart <= w < sb.size
    ensures Inodes(d[w := x], sb, cur, dirty)
  {}

  /** iupdate: the inode goes to disk and all inodes agree again. */
  lemma UpdateInodes(d: Disk, sb: Super, cur: seq<Dinode>, i: nat)
    requires Inodes(d, sb, cur, i) && i < sb.ninodes
    ensures var w := sb.InodeBlock(i); Inodes(d[w := PutInode(d[w], i % IPB, cur[i])], sb, cur, -1)
  {
    hide ReadInode, PutInode;
    var w := sb.InodeBlock(i);
    var d1 := d[w := PutInode(d[w], i % IPB, cur[i])];
    forall j | 0 <= j < sb.ninodes ensures DiskInode(d1, sb, j) == cur[j] {
      ReadPutInode(d[w], i % IPB, cur[i], j % IPB);
      if j != i {
        assert DiskInode(d, sb, j) == cur[j];
      }
    }
  }
}
