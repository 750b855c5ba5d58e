/** The file system as a value: its blocks, and the bitmap, inodes, references and owners
    that they stand for, with the changes that bmap, writei and itrunc are made of. */
module FsState {
  import opened Types
  import opened Blocks
  import opened FsLayout
  import opened FsSpec

  /** cur holds the inodes as the kernel sees them: the cached copy where there is one. */
  datatype State = State(d: Disk, bits: seq<bool>, cur: seq<Dinode>, refs: Refs, owner: map<int, Slot>)

  function Zero(): (r: Block)
    ensures forall i :: 0 <= i < BSIZE ==> r[i] == 0
  {
    seq(BSIZE, _ => 0)
  }

  /** All invariants together; the inode dirty may be newer in memory than on disk. */
  ghost predicate Good(sb: Super, s: State, dirty: int) {
    && Bits(s.d, sb, s.bits)
    && Inodes(s.d, sb, s.cur, dirty)
    && Tie(s.refs, s.cur, s.d)
    && Own(s.refs, s.bits, s.owner, sb.DataStart())
    && Whole(s.refs, s.cur)
  }

  lemma ZeroWords(j: nat)
    requires j < NWORDS
    ensures WordAt(Zero(), j) == 0
  {}

  /** A block found free, marked and zeroed: the disk part of balloc. */
  function Taken(sb: Super, d: Disk, b: nat): (r: Disk)
    requires sb.Good() && |d| == sb.size && b < sb.size
    ensures |r| == |d|
  {
    d[sb.BitBlock(b) := Marked(d[sb.BitBlock(b)], b, true)][b := Zero()]
  }

  lemma TakenIs(sb: Super, s: State, dirty: int, b: nat)
    requires Good(sb, s, dirty) && b < sb.size && !s.bits[b]
    ensures var d1 := Taken(sb, s.d, b);
            && sb.DataStart() <= b && Bits(d1, sb, s.bits[b := true]) && Inodes(d1, sb, s.cur, dirty)
            && Tie(s.refs, s.cur, d1) && d1[b] == Zero()
            && (forall c :: sb.DataStart() <= c < sb.size && c != b ==> d1[c] == s.d[c])
  {
    hide Whole, BlockBit, Marked, DiskInode, RowIs;
    var w := sb.BitBlock(b);
    BitmapWhere(sb, b);
    var m := Marked(s.d[w], b, true);
    MarkKeepsBits(s.d, sb, s.bits, b, true);
    WriteKeepsBits(s.d[w := m], sb, s.bits[b := true], b, Zero());
    WriteKeepsInodes(s.d, sb, s.cur, dirty, w, m);
    WriteKeepsInodes(s.d[w := m], sb, s.cur, dirty, b, Zero());
    forall i | 0 <= i < |s.refs| ensures s.refs[i][12] != w || w == 0 {}
    WriteKeepsTie(s.refs, s.cur, s.d, w, m);
    forall i | 0 <= i < |s.refs| ensures s.refs[i][12] != b || b == 0 {}
    WriteKeepsTie(s.refs, s.cur, s.d[w := m], b, Zero());
  }

  // ---------------------------------------------------------------------------
  // Growing a file by a block

  /** Inode i got blocks where it had none; everything that was there is still there. */
  ghost predicate Grew(s: State, t: State, i: nat) {
    && |t.refs| == |s.refs| && |t.cur| == |s.cur| && |t.d| == |s.d| && i < |s.refs| && i < |s.cur|
    && Rows(s.refs) && Rows(t.refs)
    && (forall j :: 0 <= j < |s.refs| && j != i ==> t.refs[j] == s.refs[j])
    && (forall j :: 0 <= j < |s.cur| && j != i ==> t.cur[j] == s.cur[j])
    && t.cur[i] == s.cur[i].(addrs := t.cur[i].addrs)
    && (forall k :: 0 <= k < NSLOTS && s.refs[i][k] != 0 ==> t.refs[i][k] == s.refs[i][k])
    && (forall b :: b in s.owner ==> b in t.owner && t.owner[b] == s.owner[b])
    && (forall b :: b in s.owner && s.owner[b].k != 12 && 0 <= b < |s.d| ==> t.d[b] == s.d[b])
  }

  lemma GrewByOne(s: State, t: State, i: nat, k: nat, b: nat)
    requires Rows(s.refs) && |t.cur| == |s.cur| == |s.refs| && |t.d| == |s.d| && i < |s.refs| && k < NSLOTS
    requires s.refs[i][k] == 0 && t.refs == SetRef(s.refs, i, k, b) && b !in s.owner &&
             t.owner == s.owner[b := Slot(i, k)]
    requires t.cur[i] == s.cur[i].(addrs := t.cur[i].addrs) &&
             forall j :: 0 <= j < |s.cur| && j != i ==> t.cur[j] == s.cur[j]
    requires forall c :: c in s.owner && s.owner[c].k != 12 && 0 <= c < |s.d| ==> t.d[c] == s.d[c]
    ensures Grew(s, t, i)
  {}

  lemma GrewTwice(s: State, t: State, u: State, i: nat)
    requires Grew(s, t, i) && Grew(t, u, i)
    ensures Grew(s, u, i)
  {}

  lemma GrewKeepsWhole(s: State, t: State, i: nat)
    requires Whole(s.refs, s.cur) && Grew(s, t, i) && s.cur[i].typ != 0
    ensures Whole(t.refs, t.cur)
  {}

  /** A fresh block for addrs[k], the indirect block included. */
  function GiveAddr(sb: Super, s: State, i: nat, k: nat, b: nat): State
    requires Good(sb, s, i) && i < |s.cur| && k < 13 && b < sb.size
  {
    State(Taken(sb, s.d, b), s.bits[b := true], s.cur[i := s.cur[i].(addrs := s.cur[i].addrs[k := b])],
          SetRef(s.refs, i, k, b), s.owner[b := Slot(i, k)])
  }

  lemma GiveAddrKeepsGood(sb: Super, s: State, i: nat, k: nat, b: nat)
    requires Good(sb, s, i) && i < |s.cur| && k < 13 && b < sb.size && !s.bits[b] && s.refs[i][k] == 0 &&
             s.cur[i].typ != 0
    ensures var t := GiveAddr(sb, s, i, k, b); Good(sb, t, i) && Grew(s, t, i)
    ensures 0 < sb.DataStart() <= b
  {
    hide BlockBit, WordAt, Taken, DiskInode, Grew, Whole;
    var t := GiveAddr(sb, s, i, k, b);
    TakenIs(sb, s, i, b);
    TakeKeepsOwn(s.refs, s.bits, s.owner, sb.DataStart(), i, k, b);
    if k < 12 {
      AddrKeepsTie(s.refs, s.cur, t.d, i, k, b);
    } else {
      forall j | 0 <= j < NWORDS ensures WordAt(Zero(), j) == 0 { ZeroWords(j); }
      assert RowIs(s.refs[i], s.cur[i], s.d);
      IndirectKeepsTie(s.refs, s.cur, t.d, i, b);
    }
    GrewByOne(s, t, i, k, b);
    GrewKeepsWhole(s, t, i);
  }

  /** A fresh block for entry j of the indirect block. */
  function GiveEntry(sb: Super, s: State, i: nat, j: nat, b: nat): State
    requires Good(sb, s, i) && i < |s.cur| && j < NINDIRECT && b < sb.size && 0 < s.refs[i][12] < sb.size
  {
    var x, d := s.refs[i][12], Taken(sb, s.d, b);
    State(d[x := PutWord(d[x], j, b)], s.bits[b := true], s.cur, SetRef(s.refs, i, 13 + j, b),
        s.owner[b := Slot(i, 13 + j)])
  }

  lemma GiveEntryGrew(sb: Super, s: State, i: nat, j: nat, b: nat)
    requires Good(sb, s, i) && i < |s.cur| && j < NINDIRECT && b < sb.size && !s.bits[b] && 0 < s.refs[i][12]
    requires s.refs[i][13 + j] == 0
    ensures s.refs[i][12] < sb.size && Grew(s, GiveEntry(sb, s, i, j, b), i)
  {
    hide BlockBit, RowIs, Whole, PutWord, Taken, DiskInode, Grew;
    var x := s.refs[i][12];
    assert s.owner[x] == Slot(i, 12);
    TakenIs(sb, s, i, b);
    var t := GiveEntry(sb, s, i, j, b);
    forall c | c in s.owner && s.owner[c].k != 12 && 0 <= c < |s.d| ensures t.d[c] == s.d[c] {
      assert c != x && c != b;
    }
    GrewByOne(s, t, i, 13 + j, b);
  }

  lemma GiveEntryKeepsGood(sb: Super, s: State, i: nat, j: nat, b: nat)
    requires Good(sb, s, i) && i < |s.cur| && j < NINDIRECT && b < sb.size && !s.bits[b] && 0 < s.refs[i][12]
    requires s.refs[i][13 + j] == 0 && s.cur[i].typ != 0
    ensures s.refs[i][12] < sb.size
    ensures var t := GiveEntry(sb, s, i, j, b); Good(sb, t, i) && Grew(s, t, i)
    ensures 0 < sb.DataStart() <= b
  {
    hide BlockBit, PutWord, Taken, DiskInode, RowIs, Whole, Grew;
    GiveEntryGrew(sb, s, i, j, b);
    var x := s.refs[i][12];
    assert s.owner[x] == Slot(i, 12);
    var t := GiveEntry(sb, s, i, j, b);
    TakenIs(sb, s, i, b);
    TakeKeepsOwn(s.refs, s.bits, s.owner, sb.DataStart(), i, 13 + j, b);
    var d := Taken(sb, s.d, b);
    forall m | 0 <= m < |s.refs| && m != i ensures s.refs[m][12] != x {
      assert s.refs[m][12] != 0 ==> s.owner[s.refs[m][12]] == Slot(m, 12);
    }
    EntryKeepsTie(s.refs, s.cur, d, i, j, b);
    WriteKeepsBits(d, sb, t.bits, x, PutWord(d[x], j, b));
    WriteKeepsInodes(d, sb, s.cur, i, x, PutWord(d[x], j, b));
    GrewKeepsWhole(s, t, i);
  }

  // ---------------------------------------------------------------------------
  // Writing the data of a file

  lemma WriteDataKeepsGood(sb: Super, s: State, dirty: int, b: int, x: Block)
    requires Good(sb, s, dirty) && b in s.owner && s.owner[b].k != 12
    ensures 0 <= b < |s.d| && Good(sb, s.(d := s.d[b := x]), dirty)
  {
    hide BlockBit, WordAt, DiskInode, Whole;
    WriteKeepsBits(s.d, sb, s.bits, b, x);
    WriteKeepsInodes(s.d, sb, s.cur, dirty, b, x);
    forall i | 0 <= i < |s.refs| ensures s.refs[i][12] != b || b == 0 {
      assert s.refs[i][12] != 0 ==> s.owner[s.refs[i][12]] == Slot(i, 12);
    }
    WriteKeepsTie(s.refs, s.cur, s.d, b, x);
  }

  /** memmove of m bytes of src, from index from, to index at of a block. */
  function Patched(x: Block, at: nat, src: seq<Byte>, from: nat, m: nat): Block
    requires at + m <= BSIZE && from + m <= |src|
  {
    x[..at] + src[from..from + m] + x[at + m..]
  }

  lemma PatchedAt(x: Block, at: nat, src: seq<Byte>, from: nat, m: nat, k: nat)
    requires at + m <= BSIZE && from + m <= |src| && k < BSIZE
    ensures Patched(x, at, src, from, m)[k] == if at <= k < at + m then src[from + k - at] else x[k]
  {}

  /** Existing bytes survive growth. */
  lemma GrewBytes(sb: Super, s: State, t: State, i: nat, j: nat, o: nat)
    requires Good(sb, s, i) && Grew(s, t, i) && j < |s.refs| && o < MAXFILE * BSIZE && s.refs[j][SlotOf(o / BSIZE)] != 0
    ensures FileByte(t.refs[j], t.d, o) == FileByte(s.refs[j], s.d, o)
  {
    hide Bits, Inodes, Tie, Whole;
    var b := s.refs[j][SlotOf(o / BSIZE)];
    assert s.owner[b] == Slot(j, SlotOf(o / BSIZE));
  }

  /** Writing a whole block of a file changes the bytes of that block and no others. */
  lemma WriteBytes(sb: Super, s: State, dirty: int, i: nat, n: nat, x: Block, j: nat, o: nat)
    requires Good(sb, s, dirty) && i < |s.refs| && n < MAXFILE && s.refs[i][SlotOf(n)] != 0
    requires j < |s.refs| && o < MAXFILE * BSIZE
    ensures 0 <= s.refs[i][SlotOf(n)] < |s.d|
    ensures FileByte(s.refs[j], s.d[s.refs[i][SlotOf(n)] := x], o) ==
            if i == j && o / BSIZE == n then x[o % BSIZE] else FileByte(s.refs[j], s.d, o)
  {}

  /** The inodes other than i are as they were, and so are the bytes of their files. */
  ghost predicate OthersSame(s: State, t: State, i: nat) {
    && |t.refs| == |s.refs| && |t.cur| == |s.cur| == |s.refs| && i < |s.refs| && Rows(s.refs) && Rows(t.refs)
    && (forall j :: 0 <= j < |s.cur| && j != i ==> t.cur[j] == s.cur[j] && t.refs[j] == s.refs[j])
    && (forall j, o :: 0 <= j < |s.refs| && j != i && 0 <= o < s.cur[j].size && o < MAXFILE * BSIZE ==>
          FileByte(t.refs[j], t.d, o) == FileByte(s.refs[j], s.d, o))
  }

  /** Bytes off0 to off of the file of i are those of src, and bytes below the old size
      outside of that range are as they were. */
  ghost predicate Wrote(s: State, t: State, i: nat, src: seq<Byte>, off0: nat, off: nat) {
    && i < |s.refs| == |t.refs| == |s.cur| && Rows(s.refs) && Rows(t.refs)
    && off0 <= off <= off0 + |src| && off <= MAXFILE * BSIZE && s.cur[i].size <= MAXFILE * BSIZE
    && (forall o :: 0 <= o < s.cur[i].size || 0 <= o < off ==>
          FileByte(t.refs[i], t.d, o) == if off0 <= o < off then src[o - off0] else FileByte(s.refs[i], s.d, o))
  }

  /** What has been done after off - off0 bytes of a write. */
  ghost predicate Progress(sb: Super, s: State, t: State, i: nat, src: seq<Byte>, off0: nat, off: nat) {
    && Good(sb, s, -1) && Good(sb, t, i) && i < |s.refs|
    && OthersSame(s, t, i) && Wrote(s, t, i, src, off0, off)
    && t.cur[i] == s.cur[i].(addrs := t.cur[i].addrs)
    && NoHoles(t.refs[i], off)
    && (off <= s.cur[i].size ==> t.cur == s.cur && t.refs == s.refs && Good(sb, t, -1))
  }

  lemma ProgressStart(sb: Super, s: State, i: nat, src: seq<Byte>, off: nat)
    requires Good(sb, s, -1) && i < |s.refs| && off <= s.cur[i].size
    ensures Progress(sb, s, s, i, src, off, off)
  {}

  /** bmap has run. */
  lemma ProgressGrow(sb: Super, s: State, t: State, u: State, i: nat, src: seq<Byte>, off0: nat, off: nat)
    requires Progress(sb, s, t, i, src, off0, off) && Good(sb, u, i) && Grew(t, u, i)
    ensures OthersSame(s, u, i) && Wrote(s, u, i, src, off0, off) && NoHoles(u.refs[i], off)
    ensures u.cur[i] == s.cur[i].(addrs := u.cur[i].addrs)
  {
    hide Bits, Inodes, Tie, Own, FileByte;
    forall j, o | 0 <= j < |s.refs| && j != i && 0 <= o < s.cur[j].size && o < MAXFILE * BSIZE
      ensures FileByte(u.refs[j], u.d, o) == FileByte(s.refs[j], s.d, o)
    {
      assert NoHoles(t.refs[j], t.cur[j].size);
      GrewBytes(sb, t, u, i, j, o);
    }
    forall o | 0 <= o < s.cur[i].size || 0 <= o < off
      ensures FileByte(u.refs[i], u.d, o) == FileByte(t.refs[i], t.d, o) {
      assert NoHoles(t.refs[i], t.cur[i].size);
      GrewBytes(sb, t, u, i, i, o);
    }
  }

  lemma BlockOwned(sb: Super, u: State, i: nat, n: nat)
    requires Good(sb, u, i) && i < |u.refs| && n < MAXFILE && u.refs[i][SlotOf(n)] != 0
    ensures var b := u.refs[i][SlotOf(n)]; b in u.owner && u.owner[b] == Slot(i, SlotOf(n)) && 0 <= b < |u.d|
  {}

  /** And the block has been patched. */
  lemma ProgressWrite(sb: Super, s: State, u: State, i: nat, src: seq<Byte>, off0: nat, off: nat, m: nat)
    requires Good(sb, s, -1) && Good(sb, u, i) && i < |s.refs| && OthersSame(s, u, i) && Wrote(s, u, i, src, off0, off)
    requires NoHoles(u.refs[i], off) && u.cur[i] == s.cur[i].(addrs := u.cur[i].addrs)
    requires off + m <= off0 + |src| && off + m <= MAXFILE * BSIZE && off % BSIZE + m <= BSIZE && 0 < m
    requires u.refs[i][SlotOf(off / BSIZE)] != 0
    requires off + m <= s.cur[i].size ==> u.cur == s.cur && u.refs == s.refs && Good(sb, u, -1)
    ensures var b := u.refs[i][SlotOf(off / BSIZE)];
            && b in u.owner && u.owner[b].k != 12 && 0 <= b < |u.d|
            && Progress(sb, s, u.(d := u.d[b := Patched(u.d[b], off % BSIZE, src, off - off0, m)]), i, src, off0,
                 off + m)
  {
    hide Good, FileByte, Patched;
    var n := off / BSIZE;
    var b := u.refs[i][SlotOf(n)];
    BlockOwned(sb, u, i, n);
    var x := Patched(u.d[b], off % BSIZE, src, off - off0, m);
    var v := u.(d := u.d[b := x]);
    WriteDataKeepsGood(sb, u, i, b, x);
    if off + m <= s.cur[i].size {
      WriteDataKeepsGood(sb, u, -1, b, x);
    }
    forall j, o | 0 <= j < |s.refs| && j != i && 0 <= o < s.cur[j].size && o < MAXFILE * BSIZE
      ensures FileByte(v.refs[j], v.d, o) == FileByte(s.refs[j], s.d, o)
    {
      WriteBytes(sb, u, i, i, n, x, j, o);
    }
    forall o | 0 <= o < s.cur[i].size || 0 <= o < off + m
      ensures FileByte(v.refs[i], v.d, o) == if off0 <= o < off + m then src[o - off0] else FileByte(s.refs[i], s.d, o)
    {
      PatchedByte(sb, u, i, src, off - off0, off, m, o);
    }
    CeilStep(off, m);
  }

  lemma PatchedByte(sb: Super, u: State, i: nat, src: seq<Byte>, from: nat, off: nat, m: nat, o: nat)
    requires Good(sb, u, i) && i < |u.refs| && off + m <= MAXFILE * BSIZE && off % BSIZE + m <= BSIZE && 0 < m &&
             from + m <= |src|
    requires u.refs[i][SlotOf(off / BSIZE)] != 0 && o < MAXFILE * BSIZE
    ensures var b := u.refs[i][SlotOf(off / BSIZE)];
            && 0 <= b < |u.d|
            && FileByte(u.refs[i], u.d[b := Patched(u.d[b], off % BSIZE, src, from, m)], o) ==
               if off <= o < off + m then src[from + o - off] else FileByte(u.refs[i], u.d, o)
  {
    hide Inodes, Tie, Whole, Patched;
    var n := off / BSIZE;
    WriteBytes(sb, u, i, i, n, Zero(), i, o);
    var b := u.refs[i][SlotOf(n)];
    WriteBytes(sb, u, i, i, n, Patched(u.d[b], off % BSIZE, src, from, m), i, o);
    PatchedAt(u.d[b], off % BSIZE, src, from, m, o % BSIZE);
  }

  lemma CeilStep(off: nat, m: nat)
    requires 0 < m && off % BSIZE + m <= BSIZE
    ensures off / BSIZE < CeilBlocks(off + m) && CeilBlocks(off + m) <= off / BSIZE + 1
    ensures CeilBlocks(off) <= off / BSIZE + 1 && off / BSIZE <= CeilBlocks(off)
  {}

  // ---------------------------------------------------------------------------
  // Writing an inode back

  lemma ResizeKeepsGood(sb: Super, s: State, i: nat, size: Word)
    requires Good(sb, s, i) && i < |s.cur| && NoHoles(s.refs[i], size)
    ensures Good(sb, s.(cur := s.cur[i := s.cur[i].(size := size)]), i)
  {}

  lemma UpdateKeepsGood(sb: Super, s: State, i: nat)
    requires Good(sb, s, i) && i < |s.cur|
    ensures var w := sb.InodeBlock(i);
            && sb.inodestart <= w < sb.bmapstart
            && Good(sb, s.(d := s.d[w := PutInode(s.d[w], i % IPB, s.cur[i])]), -1)
  {
    hide BlockBit, DiskInode, Whole, PutInode, WordAt;
    var w := sb.InodeBlock(i);
    UpdateInodes(s.d, sb, s.cur, i);
    WriteKeepsBits(s.d, sb, s.bits, w, PutInode(s.d[w], i % IPB, s.cur[i]));
    forall j | 0 <= j < |s.refs| ensures s.refs[j][12] != w || w == 0 {}
    WriteKeepsTie(s.refs, s.cur, s.d, w, PutInode(s.d[w], i % IPB, s.cur[i]));
  }

  /** Metadata blocks are not part of any file. */
  lemma MetaWriteBytes(sb: Super, s: State, dirty: int, w: nat, x: Block, j: nat, o: nat)
    requires Good(sb, s, dirty) && w < sb.DataStart() && j < |s.refs| && o < MAXFILE * BSIZE &&
             s.refs[j][SlotOf(o / BSIZE)] != 0
    ensures FileByte(s.refs[j], s.d[w := x], o) == FileByte(s.refs[j], s.d, o)
  {}

  // ---------------------------------------------------------------------------
  // Truncation, which frees blocks that the inode still names

  /** All invariants, except that the row of i need not match its inode. */
  ghost predicate Shrinking(sb: Super, s: State, i: nat) {
    && Bits(s.d, sb, s.bits) && Inodes(s.d, sb, s.cur, i)
    && Own(s.refs, s.bits, s.owner, sb.DataStart())
    && |s.refs| == |s.cur| && i < |s.refs|
    && (forall j :: 0 <= j < |s.refs| && j != i ==> RowIs(s.refs[j], s.cur[j], s.d))
    && (forall j :: 0 <= j < |s.refs| && j != i ==> NoHoles(s.refs[j], s.cur[j].size))
    && (forall j, k :: 0 <= j < |s.refs| && j != i && s.cur[j].typ == 0 && 0 <= k < NSLOTS ==> s.refs[j][k] == 0)
  }

  /** bfree of what slot k of inode i refers to. */
  function Freed(sb: Super, s: State, i: nat, k: nat): State
    requires Shrinking(sb, s, i) && k < NSLOTS && 0 <= s.refs[i][k] < sb.size
  {
    var b := s.refs[i][k];
    s.(d := s.d[sb.BitBlock(b) := Marked(s.d[sb.BitBlock(b)], b, false)], bits := s.bits[b := false],
       refs := SetRef(s.refs, i, k, 0), owner := s.owner - {b})
  }

  lemma FreedKeepsShrinking(sb: Super, s: State, i: nat, k: nat)
    requires Shrinking(sb, s, i) && k < NSLOTS && s.refs[i][k] != 0
    ensures 0 <= s.refs[i][k] < sb.size && s.bits[s.refs[i][k]] && Shrinking(sb, Freed(sb, s, i, k), i)
    ensures forall c :: sb.DataStart() <= c < sb.size ==> Freed(sb, s, i, k).d[c] == s.d[c]
  {
    hide BlockBit, Marked, DiskInode, WordAt;
    var b := s.refs[i][k];
    DropKeepsOwn(s.refs, s.bits, s.owner, sb.DataStart(), i, k);
    var w := sb.BitBlock(b);
    BitmapWhere(sb, b);
    MarkKeepsBits(s.d, sb, s.bits, b, false);
    WriteKeepsInodes(s.d, sb, s.cur, i, w, Marked(s.d[w], b, false));
    var t := Freed(sb, s, i, k);
    forall j | 0 <= j < |s.refs| && j != i ensures RowIs(t.refs[j], t.cur[j], t.d) {
      assert RowIs(s.refs[j], s.cur[j], s.d);
      assert s.refs[j][12] == Ref(s.cur[j], s.d, 12);
    }
  }

  /** The emptied inode in memory makes the invariants whole again. */
  lemma EmptiedIsGood(sb: Super, s: State, i: nat, n: Dinode)
    requires Shrinking(sb, s, i) && (forall k :: 0 <= k < NSLOTS ==> s.refs[i][k] == 0)
    requires n.size == 0 && forall k :: 0 <= k < 13 ==> n.addrs[k] == 0
    ensures Good(sb, s.(cur := s.cur[i := n]), i)
  {}

  /** Slots in gone of inode i have been freed since s, and nothing else has changed. */
  ghost predicate Dropped(sb: Super, s: State, t: State, i: nat, gone: set<int>) {
    && Shrinking(sb, t, i) && Rows(s.refs) && Rows(t.refs) && |s.refs| == |t.refs| && |s.bits| == |t.bits| &&
         |s.d| == |t.d| && t.cur == s.cur
    && (forall j :: 0 <= j < |s.refs| && j != i ==> t.refs[j] == s.refs[j])
    && (forall k :: 0 <= k < NSLOTS ==> t.refs[i][k] == if k in gone then 0 else s.refs[i][k])
    && (forall b :: b in t.owner <==> b in s.owner && !(s.owner[b].inum == i && s.owner[b].k in gone))
    && (forall c :: sb.DataStart() <= c < |s.d| ==> t.d[c] == s.d[c])
  }

  lemma DroppedNothing(sb: Super, s: State, i: nat)
    requires Good(sb, s, i) && i < |s.cur|
    ensures Dropped(sb, s, s, i, {})
  {}

  lemma DropEmpty(sb: Super, s: State, t: State, i: nat, gone: set<int>, k: nat)
    requires Dropped(sb, s, t, i, gone) && Own(s.refs, s.bits, s.owner, sb.DataStart()) && k < NSLOTS &&
             s.refs[i][k] == 0
    ensures Dropped(sb, s, t, i, gone + {k})
  {}

  lemma DropFull(sb: Super, s: State, t: State, i: nat, gone: set<int>, k: nat)
    requires Dropped(sb, s, t, i, gone) && Own(s.refs, s.bits, s.owner, sb.DataStart()) && k < NSLOTS &&
             s.refs[i][k] != 0
    requires k !in gone
    ensures 0 <= t.refs[i][k] < sb.size && t.bits[t.refs[i][k]] && Dropped(sb, s, Freed(sb, t, i, k), i, gone + {k})
  {
    hide BlockBit, DiskInode, RowIs, NoHoles, Marked, Own;
    FreedKeepsShrinking(sb, t, i, k);
    DropsOne(sb, s, t.owner, i, gone, k);
  }

  lemma DropsOne(sb: Super, s: State, owner: map<int, Slot>, i: nat, gone: set<int>, k: nat)
    requires Own(s.refs, s.bits, s.owner, sb.DataStart()) && i < |s.refs| && k < |s.refs[i]| == NSLOTS &&
             s.refs[i][k] != 0
    requires forall b :: b in owner <==> b in s.owner && !(s.owner[b].inum == i && s.owner[b].k in gone)
    ensures forall b :: b in owner - {s.refs[i][k]} <==>
            b in s.owner && !(s.owner[b].inum == i && s.owner[b].k in gone + {k})
  {}

  /** Everything that inode i referred to is free, and that alone. */
  ghost predicate Truncated(s: State, t: State, i: nat) {
    && i < |s.cur| == |t.cur| == |s.refs| == |t.refs| && |s.bits| == |t.bits| && Rows(t.refs)
    && t.cur[i] == s.cur[i].(size := 0, addrs := t.cur[i].addrs)
    && (forall j :: 0 <= j < |s.cur| && j != i ==> t.cur[j] == s.cur[j] && t.refs[j] == s.refs[j])
    && (forall k :: 0 <= k < NSLOTS ==> t.refs[i][k] == 0)
    && (forall b :: 0 <= b < |s.bits| ==> (t.bits[b] <==> s.bits[b] && !(b in s.owner && s.owner[b].inum == i)))
    && (forall b :: b in t.owner <==> b in s.owner && s.owner[b].inum != i)
    && |t.d| == |s.d| && (forall b :: b in t.owner && 0 <= b < |s.d| ==> t.d[b] == s.d[b])
  }

  /** Once every slot that referred to a block is gone. */
  lemma DroppedAll(sb: Super, s: State, t: State, i: nat, gone: set<int>, n: Dinode)
    requires Dropped(sb, s, t, i, gone) && Own(s.refs, s.bits, s.owner, sb.DataStart()) && |s.d| == |s.bits|
    requires forall k :: 0 <= k < NSLOTS ==> k in gone || s.refs[i][k] == 0
    requires n == s.cur[i].(size := 0, addrs := n.addrs) && forall k :: 0 <= k < 13 ==> n.addrs[k] == 0
    ensures var u := t.(cur := t.cur[i := n]); Good(sb, u, i) && Truncated(s, u, i)
  {
    hide BlockBit, DiskInode, RowIs, NoHoles;
    EmptiedIsGood(sb, t, i, n);
  }
}
