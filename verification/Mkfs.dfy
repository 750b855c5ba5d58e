/** mkfs: the image that it builds satisfies the invariants of the file system. */
module Mkfs {
  import opened Types
  import opened Blocks
  import opened FsLayout
  import opened FsSpec
  import opened FsState
  import opened Fs

  /** FSSIZE blocks: boot, super block, 30 log blocks, 26 inode blocks, 1 bitmap block. */
  const SB: Super := Super(1000, 200, 32, 58)
  const NMETA: nat := 59

  lemma Geometry()
    ensures SB.Good() && SB.DataStart() == NMETA && SB.size == 1000
    ensures forall b :: 0 <= b < SB.size ==> SB.BitBlock(b) == SB.bmapstart && b % BPB == b
  {}

  // ---------------------------------------------------------------------------
  // The bitmap that is written last

  /** A block with its first n bits set. */
  function FirstBits(n: nat): (r: Block)
    requires n <= BPB
  {
    if n == 0 then Zero() else SetBit(FirstBits(n - 1), n - 1)
  }

  lemma {:induction false} ZeroHasBit(i: nat)
    ensures !HasBit(0, i)
  {
    if i > 0 {
      ZeroHasBit(i - 1);
    }
  }

  lemma {:induction false} FirstBitsAre(n: nat, c: nat)
    requires n <= BPB && c < BPB
    ensures BlockBit(FirstBits(n), c) <==> c < n
  {
    if n == 0 {
      ZeroHasBit(c % 8);
    } else {
      FirstBitsAre(n - 1, c);
      SetBitIs(FirstBits(n - 1), n - 1, c);
    }
  }

  /** The loop of balloc. */
  method BitmapBlock(used: nat) returns (buf: Block)
    requires used <= BPB
    ensures buf == FirstBits(used)
  {
    buf := Zero();
    var i := 0;
    while i < used
      invariant 0 <= i <= used && buf == FirstBits(i)
    {
      buf := SetBit(buf, i);
      i := i + 1;
    }
  }

  function Prefix(n: nat): (r: seq<bool>)
    ensures |r| == SB.size && forall b :: 0 <= b < SB.size ==> r[b] == (b < n)
  {
    seq(SB.size, b => b < n)
  }

  /** A disk that differs in the bitmap alone, and has the same bits there. */
  lemma SwapBitmap(s: State, dirty: int, d: Disk)
    requires Good(SB, s, dirty) && Bits(d, SB, s.bits)
    requires forall c :: 0 <= c < SB.size && c != SB.bmapstart ==> d[c] == s.d[c]
    ensures Good(SB, s.(d := d), dirty)
  {
    hide BlockBit, WordAt, ReadInode, Whole;
    Geometry();
    forall i | 0 <= i < SB.ninodes && i != dirty ensures DiskInode(d, SB, i) == s.cur[i] {
      assert DiskInode(s.d, SB, i) == s.cur[i];
    }
    forall i | 0 <= i < |s.refs| ensures RowIs(s.refs[i], s.cur[i], d) {
      assert RowIs(s.refs[i], s.cur[i], s.d);
      assert s.refs[i][12] == Ref(s.cur[i], s.d, 12);
    }
  }

  lemma FirstBitsAreBits(d: Disk, n: nat)
    requires |d| == SB.size && n <= SB.size && d[SB.bmapstart] == FirstBits(n)
    ensures Bits(d, SB, Prefix(n))
  {
    Geometry();
    forall b | 0 <= b < SB.size ensures Prefix(n)[b] == BlockBit(d[SB.BitBlock(b)], b % BPB) {
      FirstBitsAre(n, b);
    }
  }

  // ---------------------------------------------------------------------------
  // The zeroed image

  function FreeInode(): Dinode { Dinode(0, 0, 0, 0, 0, NoAddrs()) }

  ghost function Empty(d: Disk): State {
    State(d, Prefix(NMETA), seq(SB.ninodes, _ => FreeInode()), seq(SB.ninodes, _ => seq(NSLOTS, _ => 0)), map[])
  }

  lemma ZeroInode(s: nat)
    requires s < IPB
    ensures ReadInode(Zero(), s) == FreeInode()
  {}

  /** A disk of zeroes, but for the super block and the bitmap. */
  lemma EmptyIsGood(d: Disk)
    requires |d| == SB.size && d[SB.bmapstart] == FirstBits(NMETA)
    requires forall c :: 0 <= c < SB.size && c != SB.bmapstart && c != 1 ==> d[c] == Zero()
    ensures Good(SB, Empty(d), -1)
  {
    hide BlockBit, ReadInode, WordAt, FirstBits;
    Geometry();
    FirstBitsAreBits(d, NMETA);
    var s := Empty(d);
    forall i | 0 <= i < SB.ninodes ensures DiskInode(d, SB, i) == s.cur[i] {
      ZeroInode(i % IPB);
    }
    forall i | 0 <= i < SB.ninodes ensures RowIs(s.refs[i], s.cur[i], d) && NoHoles(s.refs[i], s.cur[i].size) {}
  }

  // ---------------------------------------------------------------------------
  // The image under construction

  /** The image is the disk of s, except that its bitmap is still to be written; the blocks
      from freeblock on are the free ones, and are zero. */
  ghost predicate Agrees(blocks: Disk, freeblock: nat, d: Disk, bits: seq<bool>) {
    && |blocks| == |d| == SB.size && NMETA <= freeblock <= SB.size && bits == Prefix(freeblock)
    && (forall c :: 0 <= c < SB.size && c != SB.bmapstart ==> blocks[c] == d[c])
    && (forall c :: freeblock <= c < SB.size ==> blocks[c] == Zero())
  }

  lemma AgreesTake(blocks: Disk, freeblock: nat, d: Disk, bits: seq<bool>)
    requires Agrees(blocks, freeblock, d, bits) && SB.Good() && freeblock < SB.size
    ensures Agrees(blocks, freeblock + 1, Taken(SB, d, freeblock), bits[freeblock := true])
  {}

  lemma AgreesWrite(blocks: Disk, freeblock: nat, d: Disk, bits: seq<bool>, b: nat, x: Block)
    requires Agrees(blocks, freeblock, d, bits) && b < freeblock && b != SB.bmapstart
    ensures Agrees(blocks[b := x], freeblock, d[b := x], bits)
  {}

  /** A file has exactly the blocks below its size, and an indirect block if one of them
      needs it. */
  ghost predicate Tight(row: seq<int>, size: nat) {
    && |row| == NSLOTS && (row[12] != 0 <==> NDIRECT < CeilBlocks(size))
    && forall n :: 0 <= n < MAXFILE ==> (row[SlotOf(n)] != 0 <==> n < CeilBlocks(size))
  }

  /** The blocks that a file of this size takes. */
  function BlocksFor(size: nat): nat {
    CeilBlocks(size) + if NDIRECT < CeilBlocks(size) then 1 else 0
  }

  lemma LacksTurn(row: seq<int>, off: nat, m: nat)
    requires Tight(row, off) && 0 < m && off % BSIZE + m <= BSIZE && off / BSIZE < MAXFILE
    ensures BlocksFor(off) + Lacks(row, off / BSIZE) == BlocksFor(off + m)
  {
    CeilStep(off, m);
    assert CeilBlocks(off + m) == off / BSIZE + 1;
    assert CeilBlocks(off) == off / BSIZE + if off % BSIZE == 0 then 0 else 1;
  }

  lemma BlocksForGrows(size: nat, more: nat)
    requires size <= more
    ensures BlocksFor(size) <= BlocksFor(more)
  {}

  function RoundUp(size: nat): nat {
    (size / BSIZE + 1) * BSIZE
  }

  /** The last step on the root directory leaves no hole exactly when its size was not a
      multiple of the block size. */
  lemma RoundingHole(row: seq<int>, size: nat)
    requires Tight(row, size) && size < MAXFILE * BSIZE
    ensures NoHoles(row, RoundUp(size)) <==> size % BSIZE != 0
  {
    assert CeilBlocks(RoundUp(size)) == size / BSIZE + 1;
    if size % BSIZE == 0 {
      assert CeilBlocks(size) == size / BSIZE;
      assert row[SlotOf(size / BSIZE)] == 0;
    } else {
      assert CeilBlocks(size) == size / BSIZE + 1;
    }
  }

  function NewSize(s: State, i: nat, src: seq<Byte>): nat
    requires i < |s.cur|
  {
    s.cur[i].size + |src|
  }

  /** The contents of no file have changed. */
  ghost predicate SameBytes(s: State, t: State) {
    forall j, o :: 0 <= j < |t.refs| && 0 <= o < MAXFILE * BSIZE && |t.refs[j]| == NSLOTS &&
                   t.refs[j][SlotOf(o / BSIZE)] != 0 ==>
      FileByte(t.refs[j], t.d, o) == FileByte(t.refs[j], s.d, o)
  }

  /** The bytes behind the end of a file, in its last block, are zero. */
  ghost predicate ZeroTail(row: seq<int>, d: Disk, size: nat) {
    |row| == NSLOTS && forall o :: size <= o < CeilBlocks(size) * BSIZE && o < MAXFILE * BSIZE ==>
        FileByte(row, d, o) == 0
  }

  /** Rows and bytes of all inodes but i, in every block that they have. */
  ghost predicate OthersKept(s: State, t: State, i: nat) {
    && |s.refs| == |t.refs| && Rows(s.refs) && (forall j :: 0 <= j < |s.refs| && j != i ==> t.refs[j] == s.refs[j])
    && forall j, o :: 0 <= j < |s.refs| && j != i && 0 <= o < MAXFILE * BSIZE && s.refs[j][SlotOf(o / BSIZE)] != 0 ==>
         FileByte(s.refs[j], t.d, o) == FileByte(s.refs[j], s.d, o)
  }

  lemma KeptTwice(s: State, t: State, u: State, i: nat)
    requires OthersKept(s, t, i) && OthersKept(t, u, i)
    ensures OthersKept(s, u, i)
  {}

  lemma GrewKeepsOthers(s: State, t: State, i: nat)
    requires Good(SB, s, i) && Grew(s, t, i)
    ensures OthersKept(s, t, i)
  {
    hide Bits, Inodes, Tie, Whole;
    forall j, o | 0 <= j < |s.refs| && j != i && 0 <= o < MAXFILE * BSIZE && s.refs[j][SlotOf(o / BSIZE)] != 0
      ensures FileByte(s.refs[j], t.d, o) == FileByte(s.refs[j], s.d, o)
    {
      assert s.owner[s.refs[j][SlotOf(o / BSIZE)]] == Slot(j, SlotOf(o / BSIZE));
    }
  }

  lemma WriteKeepsOthers(s: State, i: nat, k: nat, y: Block)
    requires Good(SB, s, i) && i < |s.refs| && k < NSLOTS && 0 <= s.refs[i][k] < |s.d| && s.refs[i][k] != 0
    ensures OthersKept(s, s.(d := s.d[s.refs[i][k] := y]), i)
  {
    hide Bits, Inodes, Tie, Whole;
    forall j, o | 0 <= j < |s.refs| && j != i && 0 <= o < MAXFILE * BSIZE && s.refs[j][SlotOf(o / BSIZE)] != 0
      ensures FileByte(s.refs[j], s.d[s.refs[i][k] := y], o) == FileByte(s.refs[j], s.d, o)
    {
      assert s.owner[s.refs[j][SlotOf(o / BSIZE)]] == Slot(j, SlotOf(o / BSIZE));
      assert s.owner[s.refs[i][k]] == Slot(i, k);
    }
  }

  /** One more piece of a file, in a block that it had or that was zero. */
  lemma TailMoves(s: State, t: State, i: nat, src: seq<Byte>, tot: nat, off: nat, m: nat)
    requires Good(SB, s, i) && Grew(s, t, i) && Tight(s.refs[i], off) && ZeroTail(s.refs[i], s.d, off)
    requires tot + m <= |src| && 0 < m && off % BSIZE + m <= BSIZE && off / BSIZE < MAXFILE
    requires var b := t.refs[i][SlotOf(off / BSIZE)];
             0 < b < |t.d| && (s.refs[i][SlotOf(off / BSIZE)] == 0 ==> t.d[b] == Zero())
    ensures var b := t.refs[i][SlotOf(off / BSIZE)];
            ZeroTail(t.refs[i], t.d[b := Patched(t.d[b], off % BSIZE, src, tot, m)], off + m)
  {
    hide Bits, Inodes, Tie, Whole, Own;
    CeilStep(off, m);
    var n, b := off / BSIZE, t.refs[i][SlotOf(off / BSIZE)];
    var e := t.d[b := Patched(t.d[b], off % BSIZE, src, tot, m)];
    forall o | off + m <= o < CeilBlocks(off + m) * BSIZE && o < MAXFILE * BSIZE
      ensures FileByte(t.refs[i], e, o) == 0 {
      assert o / BSIZE == n && o % BSIZE >= off % BSIZE + m;
      assert FileByte(t.refs[i], e, o) == t.d[b][o % BSIZE];
      if s.refs[i][SlotOf(n)] != 0 {
        OwnerAt(s, i, SlotOf(n));
        assert off <= o < CeilBlocks(off) * BSIZE;
        assert FileByte(s.refs[i], s.d, o) == 0;
      }
    }
  }

  lemma TailSame(row: seq<int>, d: Disk, e: Disk, size: nat)
    requires Tight(row, size) && ZeroTail(row, d, size)
    requires forall o :: 0 <= o < MAXFILE * BSIZE && row[SlotOf(o / BSIZE)] != 0 ==>
             FileByte(row, e, o) == FileByte(row, d, o)
    ensures ZeroTail(row, e, size)
  {
    hide FileByte;
    forall o | size <= o < CeilBlocks(size) * BSIZE && o < MAXFILE * BSIZE ensures FileByte(row, e, o) == 0 {
      assert o / BSIZE < CeilBlocks(size);
    }
  }

  /** The tails of all inodes but i, after a change to i and a write of its inode. */
  lemma TailsKept(s: State, t: State, u: State, i: nat, j: nat)
    requires OthersKept(s, t, i) && SameBytes(t, u) && u.refs == t.refs && j < |s.refs| && j != i && j < |s.cur|
    requires Tight(s.refs[j], s.cur[j].size) && ZeroTail(s.refs[j], s.d, s.cur[j].size)
    ensures ZeroTail(u.refs[j], u.d, s.cur[j].size)
  {
    hide FileByte, Tight, ZeroTail;
    TailSame(s.refs[j], s.d, u.d, s.cur[j].size);
  }

  lemma TailHere(t: State, u: State, i: nat, size: nat)
    requires SameBytes(t, u) && u.refs == t.refs && i < |t.refs| && Tight(t.refs[i], size) &&
             ZeroTail(t.refs[i], t.d, size)
    ensures ZeroTail(u.refs[i], u.d, size)
  {
    hide FileByte, ZeroTail;
    TailSame(t.refs[i], t.d, u.d, size);
  }

  lemma KeptNothing(s: State, i: nat)
    requires Rows(s.refs)
    ensures OthersKept(s, s, i)
  {}

  lemma OwnerAt(s: State, i: nat, k: nat)
    requires Good(SB, s, i) && i < |s.refs| && k < NSLOTS && s.refs[i][k] != 0
    ensures s.refs[i][k] in s.owner && s.owner[s.refs[i][k]] == Slot(i, k) && 0 <= s.refs[i][k] < |s.d|
  {}

  // ---------------------------------------------------------------------------
  // The super block

  const LOGSTART: nat := 2
  const NLOG: nat := 30

  /** struct superblock: size, nblocks, ninodes, nlog, logstart, inodestart, bmapstart. */
  function SuperWords(): seq<Word> {
    [SB.size, SB.size - NMETA, SB.ninodes, NLOG, LOGSTART, SB.inodestart, SB.bmapstart]
  }

  function PutWords(ws: seq<Word>, k: nat): Block
    requires k <= |ws| <= NWORDS
  {
    if k == 0 then Zero() else PutWord(PutWords(ws, k - 1), k - 1, ws[k - 1])
  }

  lemma {:induction false} PutWordsAt(ws: seq<Word>, k: nat, j: nat)
    requires j < k <= |ws| <= NWORDS
    ensures WordAt(PutWords(ws, k), j) == ws[j]
  {
    WordOfPutWord(PutWords(ws, k - 1), k - 1, ws[k - 1], j);
    if j < k - 1 {
      PutWordsAt(ws, k - 1, j);
    }
  }

  function SuperBlock(): Block {
    PutWords(SuperWords(), 7)
  }

  /** readsb, of what the file system and the log want to know. */
  function ReadSuper(b: Block): Super {
    Super(WordAt(b, 0), WordAt(b, 2), WordAt(b, 5), WordAt(b, 6))
  }

  function ReadLogPlace(b: Block): (nat, nat) {
    (WordAt(b, 4), WordAt(b, 3))
  }

  /** readsb finds what mkfs has written. */
  lemma SuperReadsBack()
    ensures ReadSuper(SuperBlock()) == SB && ReadLogPlace(SuperBlock()) == (LOGSTART, NLOG)
  {
    hide PutWords;
    var ws := SuperWords();
    PutWordsAt(ws, 7, 0);
    PutWordsAt(ws, 7, 2);
    PutWordsAt(ws, 7, 3);
    PutWordsAt(ws, 7, 4);
    PutWordsAt(ws, 7, 5);
    PutWordsAt(ws, 7, 6);
  }

  /** The super block is in its place, and the header of the log is zero. */
  ghost predicate Labelled(blocks: Disk) {
    |blocks| > LOGSTART && blocks[1] == SuperBlock() && blocks[LOGSTART] == Zero()
  }

  class Image {
    var blocks: Disk
    var freeblock: nat
    var freeinode: nat
    ghost var st: State

    ghost predicate Building(dirty: int)
      reads this
    {
      && Good(SB, st, dirty) && Agrees(blocks, freeblock, st.d, st.bits) && Labelled(blocks)
      && 1 <= freeinode <= SB.ninodes == |st.cur| == |st.refs|
      && forall i :: freeinode <= i < SB.ninodes ==> st.cur[i].typ == 0
    }

    ghost predicate Valid()
      reads this
    {
      && Building(-1)
      && forall i :: 0 <= i < SB.ninodes ==>
           Tight(st.refs[i], st.cur[i].size) && ZeroTail(st.refs[i], st.d, st.cur[i].size)
    }

    /** All blocks zeroed, then the super block written. */
    constructor ()
      ensures Valid() && freeinode == 1 && freeblock == NMETA
      ensures forall i :: 0 <= i < |st.cur| ==> st.cur[i].typ == 0
    {
      freeblock, freeinode := NMETA, 1;
      var d: Disk := seq(SB.size, _ => Zero());
      d := d[1 := SuperBlock()];
      blocks := d;
      ghost var d1 := d[SB.bmapstart := FirstBits(NMETA)];
      EmptyIsGood(d1);
      st := Empty(d1);
      Geometry();
      new;
      forall i | 0 <= i < SB.ninodes ensures Tight(st.refs[i], st.cur[i].size) {}
    }

    /** ialloc. False when the inodes have run out: the source then writes past them. */
    method Ialloc(typ: Half) returns (ok: bool, i: nat)
      requires Valid() && typ != 0
      modifies this
      ensures ok <==> old(freeinode) < SB.ninodes
      ensures ok ==> Valid() && i == old(freeinode) && freeinode == i + 1 && freeblock == old(freeblock)
      ensures ok ==> st == old(st).(d := st.d, cur := old(st).cur[i := Dinode(typ, 0, 0, 1, 0, NoAddrs())])
      ensures ok ==> SameBytes(old(st), st)
    {
      hide Bits, Tie, Own, Inodes, NoHoles, PutInode, FileByte, Labelled;
      Geometry();
      ok, i := freeinode < SB.ninodes, freeinode;
      if !ok {
        return;
      }
      freeinode := freeinode + 1;
      var n := Dinode(typ, 0, 0, 1, 0, NoAddrs());
      assert Tight(st.refs[i], st.cur[i].size);
      RetypeKeepsGood(SB, st, i, n);
      st := st.(cur := st.cur[i := n]);
      ghost var t := st;
      Winode(i, n);
      forall j | 0 <= j < SB.ninodes
        ensures Tight(st.refs[j], st.cur[j].size) && ZeroTail(st.refs[j], st.d, st.cur[j].size) {
        assert Tight(old(st).refs[j], old(st).cur[j].size) && ZeroTail(old(st).refs[j], old(st).d, old(st).cur[j].size);
        TailHere(t, st, j, st.cur[j].size);
      }
    }

    /** winode. */
    method Winode(i: nat, n: Dinode)
      requires Building(i) && i < SB.ninodes && n == st.cur[i]
      modifies `blocks, `st
      ensures Building(-1) && st == old(st).(d := st.d)
      ensures SameBytes(old(st), st)
    {
      hide Bits, Tie, Own, Inodes, Whole, PutInode, FileByte, SuperBlock;
      Geometry();
      UpdateKeepsGood(SB, st, i);
      var w := SB.InodeBlock(i);
      var x := PutInode(blocks[w], i % IPB, n);
      forall j, o | 0 <= j < |st.refs| && 0 <= o < MAXFILE * BSIZE && |st.refs[j]| == NSLOTS &&
          st.refs[j][SlotOf(o / BSIZE)] != 0
        ensures FileByte(st.refs[j], st.d[w := x], o) == FileByte(st.refs[j], st.d, o)
      {
        MetaWriteBytes(SB, st, i, w, x, j, o);
      }
      AgreesWrite(blocks, freeblock, st.d, st.bits, w, x);
      blocks := blocks[w := x];
      st := st.(d := st.d[w := x]);
    }

    /** The next free block for addrs[k] of the inode being appended to. False when the image
        is full. */
    method GiveBlock(i: nat, k: nat, din: Dinode) returns (ok: bool, b: nat, out: Dinode)
      requires Building(i) && i < SB.ninodes && k < 13 && din == st.cur[i] && din.typ != 0
      modifies `freeblock, `st
      ensures ok <==> old(st).refs[i][k] != 0 || old(freeblock) < SB.size
      ensures ok ==> freeblock == old(freeblock) + if old(st).refs[i][k] == 0 then 1 else 0
      ensures ok ==> Building(i) && Grew(old(st), st, i) && out == st.cur[i] && b == st.refs[i][k] == out.addrs[k] != 0
      ensures ok ==> forall q :: 0 <= q < NSLOTS && q != k ==> st.refs[i][q] == old(st).refs[i][q]
      ensures ok && old(st).refs[i][k] == 0 ==> 0 <= b < |st.d| && st.d[b] == Zero()
    {
      hide Bits, Tie, Own, Inodes, Whole, Agrees, Labelled;
      Geometry();
      RefsAre(SB, st, i, i);
      GrewNothing(SB, st, i);
      ok, b, out := true, din.addrs[k], din;
      if b == 0 {
        if freeblock >= SB.size {
          ok := false;
          return;
        }
        b := freeblock;
        FreeBit(blocks, freeblock, st);
        GiveAddrKeepsGood(SB, st, i, k, b);
        ghost var s := st;
        st := GiveAddr(SB, st, i, k, b);
        AgreesTake(blocks, freeblock, s.d, s.bits);
        out := din.(addrs := din.addrs[k := b]);
        freeblock := freeblock + 1;
        RefsAre(SB, st, i, i);
      }
    }

    /** The same for entry j of the indirect block. */
    method GiveEntryBlock(i: nat, x: nat, j: nat) returns (ok: bool, b: nat)
      requires Building(i) && i < SB.ninodes && j < NINDIRECT && st.cur[i].typ != 0 && x == st.refs[i][12] != 0
      modifies `blocks, `freeblock, `st
      ensures ok <==> old(st).refs[i][13 + j] != 0 || old(freeblock) < SB.size
      ensures ok ==> freeblock == old(freeblock) + if old(st).refs[i][13 + j] == 0 then 1 else 0
      ensures ok ==> Building(i) && Grew(old(st), st, i) && b == st.refs[i][13 + j] != 0 && st.cur == old(st).cur
      ensures ok ==> forall q :: 0 <= q < NSLOTS && q != 13 + j ==> st.refs[i][q] == old(st).refs[i][q]
      ensures ok && old(st).refs[i][13 + j] == 0 ==> 0 <= b < |st.d| && st.d[b] == Zero()
    {
      hide Bits, Tie, Own, Inodes, Whole, Agrees, WordAt, PutWord, SuperBlock;
      Geometry();
      RefsAre(SB, st, i, i);
      GrewNothing(SB, st, i);
      Lengths(blocks, freeblock, st.d, st.bits, x);
      ok, b := true, WordAt(blocks[x], j);
      if b == 0 {
        if freeblock >= SB.size {
          ok := false;
          return;
        }
        b := freeblock;
        FreeBit(blocks, freeblock, st);
        UsedBelow(blocks, freeblock, st, i, i, 12);
        GiveEntryKeepsGood(SB, st, i, j, b);
        ghost var s, d := st, Taken(SB, st.d, b);
        AgreesTake(blocks, freeblock, s.d, s.bits);
        AgreesWrite(blocks, freeblock + 1, d, s.bits[b := true], x, PutWord(d[x], j, b));
        Lengths(blocks, freeblock + 1, d, s.bits[b := true], x);
        st := GiveEntry(SB, st, i, j, b);
        blocks := blocks[x := PutWord(blocks[x], j, b)];
        freeblock := freeblock + 1;
        RefsAre(SB, st, i, i);
      }
    }

    /** The block for offset off, allocated if it is not there. */
    method Map(i: nat, fbn: nat, din: Dinode) returns (ok: bool, x: nat, out: Dinode)
      requires Building(i) && i < SB.ninodes && din == st.cur[i] && din.typ != 0 && fbn < MAXFILE
      modifies `blocks, `freeblock, `st
      ensures |old(st).refs[i]| == NSLOTS && (ok <==> old(freeblock) + Lacks(old(st).refs[i], fbn) <= SB.size)
      ensures ok ==> freeblock == old(freeblock) + Lacks(old(st).refs[i], fbn)
      ensures ok ==> Building(i) && Grew(old(st), st, i) && out == st.cur[i] && x == st.refs[i][SlotOf(fbn)] != 0
      ensures ok ==> (st.refs[i][12] != 0 <==> old(st).refs[i][12] != 0 || fbn >= NDIRECT)
      ensures ok ==> forall n :: 0 <= n < MAXFILE && n != fbn ==> st.refs[i][SlotOf(n)] == old(st).refs[i][SlotOf(n)]
      ensures ok && old(st).refs[i][SlotOf(fbn)] == 0 ==> 0 <= x < |st.d| && st.d[x] == Zero()
    {
      hide Good, Agrees, Grew, Labelled;
      GoodRows(SB, st, i);
      AgreesSize(blocks, freeblock, st.d, st.bits);
      if fbn < NDIRECT {
        ok, x, out := GiveBlock(i, fbn, din);
      } else {
        ok, x, out := GiveBlock(i, NDIRECT, din);
        if ok {
          ghost var t := st;
          GrewTyp(old(st), st, i);
          ok, x := GiveEntryBlock(i, x, fbn - NDIRECT);
          if ok {
            GrewTwice(old(st), t, st, i);
            assert SlotOf(fbn) == 13 + (fbn - NDIRECT);
          }
        }
      }
    }

    /** One turn of iappend's loop. */
    method AppendBlock(i: nat, src: seq<Byte>, tot: nat, off: nat, m: nat, din: Dinode, ghost s: State)
      returns (ok: bool, out: Dinode)
      requires Building(i) && i < SB.ninodes && din == st.cur[i] && din.typ != 0 && i < |s.cur| &&
               off == s.cur[i].size + tot
      requires Progress(SB, s, st, i, src, s.cur[i].size, off) && Tight(st.refs[i], off) &&
               ZeroTail(st.refs[i], st.d, off)
      requires tot + m <= |src| && 0 < m && off % BSIZE + m <= BSIZE && off / BSIZE < MAXFILE
      modifies `blocks, `freeblock, `st
      ensures ok <==> old(freeblock) + BlocksFor(off + m) - BlocksFor(off) <= SB.size
      ensures ok ==> freeblock == old(freeblock) + BlocksFor(off + m) - BlocksFor(off)
      ensures ok ==> Building(i) && out == st.cur[i] && out.typ != 0
      ensures ok ==> Progress(SB, s, st, i, src, s.cur[i].size, off + m) && Tight(st.refs[i], off + m)
      ensures ok ==> ZeroTail(st.refs[i], st.d, off + m) && OthersKept(old(st), st, i)
    {
      hide Good, Agrees, Grew, Progress, Patched, BlocksFor, ZeroTail, OthersKept, FileByte, SuperBlock;
      var x;
      LacksTurn(st.refs[i], off, m);
      ghost var t := st;
      ok, x, out := Map(i, off / BSIZE, din);
      if !ok {
        return;
      }
      GrewTyp(t, st, i);
      GoodRows(SB, st, i);
      AppendProgress(s, t, st, i, src, off, m);
      CeilStep(off, m);
      UsedBelow(blocks, freeblock, st, i, i, SlotOf(off / BSIZE));
      Geometry();
      Lengths(blocks, freeblock, st.d, st.bits, x);
      var y := Patched(blocks[x], off % BSIZE, src, tot, m);
      AgreesWrite(blocks, freeblock, st.d, st.bits, x, y);
      ghost var u := st;
      TailMoves(t, u, i, src, tot, off, m);
      GrewKeepsOthers(t, u, i);
      WriteKeepsOthers(u, i, SlotOf(off / BSIZE), y);
      blocks := blocks[x := y];
      st := st.(d := st.d[x := y]);
      KeptTwice(t, u, st, i);
      ProgressGood(s, st, i, src, off + m);
    }

    /** iappend: the file grows by src. False when the file or the image would be too big. */
    method Append(i: nat, src: seq<Byte>) returns (ok: bool)
      requires Valid() && i < freeinode && st.cur[i].typ != 0
      modifies this
      ensures ok <==> NewSize(old(st), i, src) <= MAXFILE * BSIZE &&
                      old(freeblock) + BlocksFor(NewSize(old(st), i, src)) - BlocksFor(old(st).cur[i].size) <= SB.size
      ensures ok ==> freeblock == old(freeblock) + BlocksFor(NewSize(old(st), i, src)) - BlocksFor(old(st).cur[i].size)
      ensures ok ==> Valid() && freeinode == old(freeinode) && Result(SB, old(st), st, i, src, old(st).cur[i].size)
      ensures ok ==> File(st, i) == File(old(st), i) + src
    {
      hide Good, Agrees, Grew, Progress, Result, Tight, File, BlocksFor, ZeroTail, OthersKept, FileByte, Labelled;
      GoodRows(SB, st, -1);
      KeptNothing(st, i);
      assert Tight(st.refs[i], st.cur[i].size) && ZeroTail(st.refs[i], st.d, st.cur[i].size);
      ghost var s := st;
      SizesFit(SB, st, -1);
      InodeOnDisk(blocks, freeblock, st, i);
      var din := DiskInode(blocks, SB, i);
      var off, tot: nat := din.size, 0;
      ProgressStart(SB, s, i, src, off);
      InodesWeaken(SB, st, i);
      while tot < |src|
        invariant Building(i) && din == st.cur[i] && din.typ != 0 && off == s.cur[i].size + tot && 0 <= tot <= |src|
        invariant freeinode == old(freeinode) && freeblock == old(freeblock) + BlocksFor(off) - BlocksFor(s.cur[i].size)
        invariant Progress(SB, s, st, i, src, s.cur[i].size, off) && Tight(st.refs[i], off)
        invariant ZeroTail(st.refs[i], st.d, off) && OthersKept(s, st, i)
      {
        ghost var was := st;
        var fbn := off / BSIZE;
        if fbn >= MAXFILE {
          return false;
        }
        var m := if |src| - tot < (fbn + 1) * BSIZE - off then |src| - tot else (fbn + 1) * BSIZE - off;
        BlocksForGrows(off + m, NewSize(s, i, src));
        ok, din := AppendBlock(i, src, tot, off, m, din, s);
        if !ok {
          return;
        }
        KeptTwice(s, was, st, i);
        off, tot := off + m, tot + m;
      }
      ghost var t := st;
      AgreesSize(blocks, freeblock, st.d, st.bits);
      ResizeProgress(s, t, i, src, off);
      din := din.(size := off);
      st := st.(cur := st.cur[i := din]);
      Winode(i, din);
      ResultOf(SB, s, t, st, i, src, s.cur[i].size, off);
      Appended(s, st, i, src);
      forall j | 0 <= j < SB.ninodes
        ensures Tight(st.refs[j], st.cur[j].size) && ZeroTail(st.refs[j], st.d, st.cur[j].size) {
        if j != i {
          assert Tight(s.refs[j], s.cur[j].size) && ZeroTail(s.refs[j], s.d, s.cur[j].size);
          TailsKept(s, t, st, i, j);
        } else {
          TailHere(t, st, i, off);
        }
      }
      ok := true;
    }

    /** The loop that copies a file in, one buffer at a time. */
    method AppendFile(i: nat, contents: seq<Byte>) returns (ok: bool)
      requires Valid() && i < freeinode && st.cur[i].typ != 0
      modifies this
      ensures ok <==> NewSize(old(st), i, contents) <= MAXFILE * BSIZE &&
                      old(freeblock) + BlocksFor(NewSize(old(st), i, contents))
                          - BlocksFor(old(st).cur[i].size) <= SB.size
      ensures ok ==> freeblock ==
                     old(freeblock) + BlocksFor(NewSize(old(st), i, contents)) - BlocksFor(old(st).cur[i].size)
      ensures ok ==> Valid() && freeinode == old(freeinode) && Extended(old(st), st, i, contents)
    {
      hide Good, Agrees, Building, Tight, ZeroTail, BlocksFor, Extended;
      ghost var s := st;
      AllShaped();
      ExtendedNothing(st, i);
      var tot := 0;
      while tot < |contents|
        invariant 0 <= tot <= |contents| && Valid() && freeinode == old(freeinode) && i < |st.cur|
        invariant Extended(s, st, i, contents[..tot]) && NewSize(s, i, contents[..tot]) <= MAXFILE * BSIZE
        invariant freeblock == old(freeblock) + BlocksFor(NewSize(s, i, contents[..tot])) - BlocksFor(s.cur[i].size)
      {
        var cc := if |contents| - tot < BSIZE then |contents| - tot else BSIZE;
        var buf := contents[tot..tot + cc];
        ghost var t := st;
        ExtendedFacts(s, t, i, contents[..tot]);
        BlocksForGrows(NewSize(t, i, buf), NewSize(s, i, contents));
        ok := Append(i, buf);
        if !ok {
          return;
        }
        assert contents[..tot + cc] == contents[..tot] + buf;
        ExtendedMore(s, t, st, i, contents[..tot], buf);
        tot := tot + cc;
      }
      assert contents[..tot] == contents;
      InRange();
      ok := true;
    }

    lemma AllShaped()
      requires Valid()
      ensures |st.cur| == |st.refs| == SB.ninodes && freeinode <= SB.ninodes &&
              forall j :: 0 <= j < |st.cur| ==> Shaped(st, j)
      ensures forall j :: 0 <= j < SB.ninodes ==> |st.refs[j]| == NSLOTS && st.cur[j].size <= MAXFILE * BSIZE
    {
      SizesFit(SB, st, -1);
      GoodRows(SB, st, -1);
    }

    lemma AllTight()
      requires Valid()
      ensures |st.refs| == |st.cur| == SB.ninodes
      ensures forall j :: 0 <= j < SB.ninodes ==>
              Tight(st.refs[j], st.cur[j].size) && ZeroTail(st.refs[j], st.d, st.cur[j].size)
    {}

    lemma InRange()
      requires Valid()
      ensures freeblock <= SB.size
    {}

    /** The end of mkfs: the size of the root directory is rounded up, and the bitmap is
        written. If that size was not a whole number of blocks, then what is on disk is a
        file system in which every block has one owner and no file has a hole. */
    method Finish(root: nat)
      requires Valid() && 0 < root < freeinode && st.cur[root].typ != 0 && st.cur[root].size < MAXFILE * BSIZE
      modifies this
      ensures |blocks| == SB.size && |st.cur| == |st.refs| == SB.ninodes
      ensures st.d == blocks && Labelled(blocks)
      ensures old(st).cur[root].size % BSIZE != 0 ==> Good(SB, st, -1)
      ensures st.refs == old(st).refs && SameBytes(old(st), st)
      ensures st.cur == old(st).cur[root := old(st).cur[root].(size := RoundUp(old(st).cur[root].size))]
      ensures NoHoles(st.refs[root], st.cur[root].size) <==> old(st).cur[root].size % BSIZE != 0
    {
      hide Good, Agrees, WordAt, FirstBits, PutInode, SameBytes, SuperBlock;
      Geometry();
      InodeOnDisk(blocks, freeblock, st, root);
      var din := DiskInode(blocks, SB, root);
      var w, size := SB.InodeBlock(root), RoundUp(din.size);
      assert Tight(st.refs[root], st.cur[root].size);
      RoundingHole(st.refs[root], din.size);
      ghost var s := st;
      if din.size % BSIZE != 0 {
        FinishedIsGood(blocks, freeblock, st, root, size);
      }
      din := din.(size := size);
      blocks := blocks[w := PutInode(blocks[w], root % IPB, din)];
      AgreesSize(old(blocks), freeblock, st.d, st.bits);
      var buf := BitmapBlock(freeblock);
      blocks := blocks[SB.bmapstart := buf];
      FinishedBytes(old(blocks), freeblock, st, w, blocks);
      st := st.(d := blocks, cur := st.cur[root := din]);
    }
  }

  /** Only the file of i has changed, and it has grown by src. */
  ghost predicate Extended(s: State, t: State, i: nat, src: seq<Byte>) {
    && |t.cur| == |s.cur| && Shaped(s, i) && Shaped(t, i) && File(t, i) == File(s, i) + src
    && t.cur[i] == s.cur[i].(size := t.cur[i].size, addrs := t.cur[i].addrs)
    && forall j :: 0 <= j < |s.cur| && j != i ==>
         Shaped(s, j) && Shaped(t, j) && t.cur[j] == s.cur[j] && File(t, j) == File(s, j)
  }

  lemma ExtendedNothing(s: State, i: nat)
    requires i < |s.cur| && forall j :: 0 <= j < |s.cur| ==> Shaped(s, j)
    ensures Extended(s, s, i, [])
  {}

  lemma ExtendedFacts(s: State, t: State, i: nat, src: seq<Byte>)
    requires Extended(s, t, i, src)
    ensures i < |s.cur| == |t.cur| && t.cur[i].typ == s.cur[i].typ && t.cur[i].nlink == s.cur[i].nlink
    ensures t.cur[i].size == s.cur[i].size + |src|
  {}

  lemma ExtendedMore(s: State, t: State, u: State, i: nat, a: seq<Byte>, b: seq<Byte>)
    requires Extended(s, t, i, a) && i < |t.cur| && Result(SB, t, u, i, b, t.cur[i].size) &&
             File(u, i) == File(t, i) + b
    ensures Extended(s, u, i, a + b)
  {
    hide File;
    assert File(s, i) + a + b == File(s, i) + (a + b);
  }

  /** A root directory of 32 entries, which fill its one block, ends with a hole. */
  method FullRoot(entries: seq<Byte>) returns (image: Image)
    requires |entries| == BSIZE
    ensures |image.st.cur| == |image.st.refs| == SB.ninodes && image.st.cur[1].size == 2 * BSIZE
    ensures !NoHoles(image.st.refs[1], image.st.cur[1].size)
  {
    hide Good, Agrees, File, NoHoles;
    image := new Image();
    var ok, root := image.Ialloc(1);
    ok := image.Append(root, entries);
    assert |image.st.cur| == |image.st.refs| == SB.ninodes && image.st.cur[1].size == BSIZE by {
      assert image.Valid();
    }
    image.Finish(root);
  }

  lemma AgreesSize(blocks: Disk, freeblock: nat, d: Disk, bits: seq<bool>)
    requires Agrees(blocks, freeblock, d, bits)
    ensures freeblock <= SB.size <= BPB
  {}

  lemma FinishedIsGood(blocks: Disk, freeblock: nat, s: State, i: nat, size: Word)
    requires Good(SB, s, -1) && Agrees(blocks, freeblock, s.d, s.bits) && i < |s.cur| && NoHoles(s.refs[i], size)
    ensures var n, w := s.cur[i].(size := size), SB.InodeBlock(i);
            && w < |blocks| && SB.bmapstart < |blocks| && freeblock <= BPB
            && var d := blocks[w := PutInode(blocks[w], i % IPB, n)][SB.bmapstart := FirstBits(freeblock)];
               Good(SB, s.(d := d, cur := s.cur[i := n]), -1)
  {
    hide BlockBit, Tie, Own, Whole, Inodes, PutInode, FirstBits;
    Geometry();
    InodesWeaken(SB, s, i);
    ResizeKeepsGood(SB, s, i, size);
    var n, w := s.cur[i].(size := size), SB.InodeBlock(i);
    var t := s.(cur := s.cur[i := n]);
    UpdateKeepsGood(SB, t, i);
    var u := t.(d := t.d[w := PutInode(t.d[w], i % IPB, n)]);
    var d := blocks[w := PutInode(blocks[w], i % IPB, n)][SB.bmapstart := FirstBits(freeblock)];
    FirstBitsAreBits(d, freeblock);
    SwapBitmap(u, -1, d);
  }

  lemma FinishedBytes(was: Disk, freeblock: nat, s: State, w: nat, now: Disk)
    requires Good(SB, s, -1) && Agrees(was, freeblock, s.d, s.bits) && w < NMETA && |now| == |was|
    requires forall c :: 0 <= c < |was| && c != w && c != SB.bmapstart ==> now[c] == was[c]
    ensures forall t: State :: t.refs == s.refs && t.d == now ==> SameBytes(s, t)
  {
    hide Bits, Inodes, Tie, Whole;
    Geometry();
    forall t: State | t.refs == s.refs && t.d == now ensures SameBytes(s, t) {
      forall j, o | 0 <= j < |t.refs| && 0 <= o < MAXFILE * BSIZE && |t.refs[j]| == NSLOTS &&
          t.refs[j][SlotOf(o / BSIZE)] != 0
        ensures FileByte(t.refs[j], t.d, o) == FileByte(t.refs[j], s.d, o)
      {
        assert s.owner[s.refs[j][SlotOf(o / BSIZE)]] == Slot(j, SlotOf(o / BSIZE));
      }
    }
  }

  lemma ResizeProgress(s: State, t: State, i: nat, src: seq<Byte>, off: nat)
    requires i < |s.cur| && Progress(SB, s, t, i, src, s.cur[i].size, off)
    ensures off <= MAXFILE * BSIZE && i < |t.cur| == |s.cur| == |t.refs| == |s.refs| && Rows(t.refs)
    ensures Good(SB, t.(cur := t.cur[i := t.cur[i].(size := off)]), i)
    ensures forall j :: 0 <= j < |s.cur| && j != i ==> t.cur[j] == s.cur[j] && t.refs[j] == s.refs[j]
  {
    hide Bits, Inodes, Tie, FileByte;
    ResizeKeepsGood(SB, t, i, off);
  }

  lemma Appended(s: State, t: State, i: nat, src: seq<Byte>)
    requires i < |s.cur| && Result(SB, s, t, i, src, s.cur[i].size)
    ensures Shaped(s, i) && Shaped(t, i) && File(t, i) == File(s, i) + src
  {}

  lemma InodeOnDisk(blocks: Disk, freeblock: nat, s: State, i: nat)
    requires Good(SB, s, -1) && Agrees(blocks, freeblock, s.d, s.bits) && i < SB.ninodes
    ensures SB.Good() && |blocks| == SB.size && i < |s.cur| && DiskInode(blocks, SB, i) == s.cur[i]
  {}

  lemma GoodRows(sb: Super, s: State, i: int)
    requires Good(sb, s, i)
    ensures Rows(s.refs) && |s.refs| == |s.cur|
  {}

  lemma GrewTyp(s: State, t: State, i: nat)
    requires Grew(s, t, i)
    ensures t.cur[i].typ == s.cur[i].typ
  {}

  lemma AppendProgress(s: State, t: State, u: State, i: nat, src: seq<Byte>, off: nat, m: nat)
    requires i < |s.cur| && Progress(SB, s, t, i, src, s.cur[i].size, off) && Grew(t, u, i) && Good(SB, u, i)
    requires off + m <= s.cur[i].size + |src| && 0 < m && off % BSIZE + m <= BSIZE && off / BSIZE < MAXFILE
    requires s.cur[i].size <= off && |u.refs[i]| == NSLOTS && u.refs[i][SlotOf(off / BSIZE)] != 0
    ensures var b := u.refs[i][SlotOf(off / BSIZE)];
            && 0 <= b < |u.d|
            && Progress(SB, s, u.(d := u.d[b := Patched(u.d[b], off % BSIZE, src, off - s.cur[i].size, m)]), i, src,
                 s.cur[i].size, off + m)
  {
    hide Good, FileByte, Grew, OthersSame, Wrote, NoHoles, Patched;
    ProgressGrow(SB, s, t, u, i, src, s.cur[i].size, off);
    ProgressWrite(SB, s, u, i, src, s.cur[i].size, off, m);
  }

  lemma ProgressGood(s: State, t: State, i: nat, src: seq<Byte>, off: nat)
    requires i < |s.cur| && Progress(SB, s, t, i, src, s.cur[i].size, off)
    ensures Good(SB, t, i)
  {}

  lemma FreeBit(blocks: Disk, freeblock: nat, s: State)
    requires Agrees(blocks, freeblock, s.d, s.bits) && freeblock < SB.size
    ensures |s.bits| == SB.size && !s.bits[freeblock]
  {}

  /** What a slot refers to is below the next free block. */
  lemma UsedBelow(blocks: Disk, freeblock: nat, s: State, dirty: int, i: nat, k: nat)
    requires Good(SB, s, dirty) && Agrees(blocks, freeblock, s.d, s.bits) && i < |s.refs| && k < NSLOTS &&
             s.refs[i][k] != 0
    ensures NMETA <= s.refs[i][k] < freeblock <= SB.size
  {}

  lemma Lengths(blocks: Disk, freeblock: nat, d: Disk, bits: seq<bool>, c: nat)
    requires Agrees(blocks, freeblock, d, bits) && c < SB.size && c != SB.bmapstart
    ensures |blocks| == |d| == SB.size && blocks[c] == d[c]
  {}
}
