/** filewrite: one write call split into transactions that fit the log. */
module FileWrite {
  import opened Types
  import opened Blocks
  import opened FsLayout
  import opened FsSpec
  import opened FsState
  import opened Fs
  import LogSpec

  const CHUNK: nat := (LogSpec.MAXOPBLOCKS - 1 - 1 - 2) / 2 * 512

  datatype FileResult = Wrote | Failed | OnDevice | OutOfBlocks

  lemma OverwriteTwice(f: seq<Byte>, off: nat, a: seq<Byte>, b: seq<Byte>)
    requires off <= |f|
    ensures off + |a| <= |Overwrite(f, off, a)|
    ensures Overwrite(Overwrite(f, off, a), off + |a|, b) == Overwrite(f, off, a + b)
  {}

  lemma ResultThen(sb: Super, s: State, t: State, u: State, i: nat, a: seq<Byte>, b: seq<Byte>, off: nat)
    requires Result(sb, s, t, i, a, off) && Result(sb, t, u, i, b, off + |a|)
    ensures Result(sb, s, u, i, a + b, off)
  {
    hide File, Overwrite;
    OverwriteTwice(File(s, i), off, a, b);
  }

  lemma ResultNothing(sb: Super, s: State, dirty: int, i: nat, off: nat)
    requires Good(sb, s, dirty) && i < |s.cur| && off <= s.cur[i].size
    ensures Result(sb, s, s, i, [], off)
  {
    hide Good, FileByte, File;
    SizesFit(sb, s, dirty);
    assert Shaped(s, i);
    OverwriteNothing(File(s, i), off);
  }

  lemma OverwriteNothing(f: seq<Byte>, off: nat)
    requires off <= |f|
    ensures Overwrite(f, off, []) == f
  {}

  lemma SubsetSize<T>(a: set<T>, b: set<T>)
    requires a <= b
    ensures |a| <= |b|
    decreases b
  {
    if x :| x in b {
      SubsetSize(a - {x}, b - {x});
      if x in a {
        assert |a - {x}| == |a| - 1;
      } else {
        assert a - {x} == a;
      }
    }
  }

  lemma BlocksTouched(off: nat, at: nat, n: nat)
    requires off <= at <= off + CHUNK && off / BSIZE <= n < CeilBlocks(at)
    ensures n <= off / BSIZE + 3
  {}

  /** A chunk logs at most four data blocks, the indirect block, the inode block and the
      bitmap block, if the bitmap is one block. */
  lemma ChunkLogsFew(sb: Super, t: State, i: nat, logged: set<int>, off: nat, at: nat)
    requires Logs(sb, t, i, {}, logged, off, at) && off <= at <= off + CHUNK && sb.size < BPB
    ensures |logged| <= 7
  {
    var row, n := t.refs[i], off / BSIZE;
    var last := (k: nat) requires |row| == NSLOTS => if n + k < MAXFILE then row[SlotOf(n + k)] else 0;
    var all := {sb.bmapstart, sb.InodeBlock(i), row[12], last(0), last(1), last(2), last(3)};
    forall b | b in logged ensures b in all {
      if b != 0 && IsData(t, i, b, off, at) {
        var m :| off / BSIZE <= m < CeilBlocks(at) && m < MAXFILE && t.refs[i][SlotOf(m)] == b;
        BlocksTouched(off, at, m);
        assert m == n || m == n + 1 || m == n + 2 || m == n + 3;
      }
    }
    SubsetSize(logged, all);
  }

  /** What a write logs lies behind the log, which comes before the inodes. */
  lemma LogsHome(sb: Super, t: State, i: nat, logged: set<int>, off: nat, at: nat)
    requires Logs(sb, t, i, {}, logged, off, at) && Good(sb, t, -1) && i < |t.cur|
    ensures forall b :: b in logged ==> sb.inodestart <= b < |t.d|
  {
    hide BlockBit, DiskInode, RowIs, Own, Whole;
    RefsAre(sb, t, i, -1);
  }

  function Least(a: nat, b: nat): nat { if a < b then a else b }

  /** How many of n bytes are written when each chunk must end below the largest file. */
  function Fits(off: nat, n: nat, done: nat): (r: nat)
    requires done <= n
    ensures done <= r <= n && (r < n ==> off + r + Least(n - r, CHUNK) > MAXFILE * BSIZE)
    ensures off + done <= MAXFILE * BSIZE ==> off + r <= MAXFILE * BSIZE
    decreases n - done
  {
    var m := Least(n - done, CHUNK);
    if done == n || off + done + m > MAXFILE * BSIZE then done else Fits(off, n, done + m)
  }

  /** All of them do, exactly when the end of the write is within the largest file. */
  lemma {:induction false} FitsAll(off: nat, n: nat, done: nat)
    requires done < n
    ensures Fits(off, n, done) == n <==> off + n <= MAXFILE * BSIZE
    decreases n - done
  {
    var m := Least(n - done, CHUNK);
    if off + done + m <= MAXFILE * BSIZE && done + m < n {
      FitsAll(off, n, done + m);
    }
  }

  /** The free blocks of s are enough for the file of i to be written from o to end. */
  ghost predicate Room(s: State, i: nat, o: nat, end: nat) {
    && i < |s.refs| && |s.refs[i]| == NSLOTS && CeilBlocks(end) <= MAXFILE
    && FreeCount(s.bits) >= LacksFor(s.refs[i], CeilBlocks(o), CeilBlocks(end))
  }

  /** The blocks from o to end have been supplied since s, and no others. */
  ghost predicate Spent(s: State, t: State, i: nat, o: nat, end: nat) {
    && i < |t.refs| && Room(s, i, o, end) && Supplied(s.refs[i], t.refs[i], CeilBlocks(o), CeilBlocks(end))
    && FreeCount(t.bits) == FreeCount(s.bits) - LacksFor(s.refs[i], CeilBlocks(o), CeilBlocks(end))
  }

  lemma SpentNone(s: State, i: nat, o: nat)
    requires i < |s.refs| && |s.refs[i]| == NSLOTS && CeilBlocks(o) <= MAXFILE
    ensures Spent(s, s, i, o, o)
  {
    hide LacksFor, FreeCount;
    SuppliedNone(s.refs[i], CeilBlocks(o));
  }

  /** The rest finds room exactly when the whole does. */
  lemma RoomRest(s: State, t: State, i: nat, o: nat, mid: nat, end: nat)
    requires Spent(s, t, i, o, mid) && o <= mid <= end && CeilBlocks(end) <= MAXFILE
    ensures Room(s, i, o, end) <==> Room(t, i, mid, end)
  {
    hide LacksFor, FreeCount, Supplied;
    SuppliedShape(s.refs[i], t.refs[i], CeilBlocks(o), CeilBlocks(mid));
    LacksRest(s.refs[i], t.refs[i], CeilBlocks(o), CeilBlocks(mid), CeilBlocks(end));
  }

  lemma SuppliedShape(r: seq<int>, t: seq<int>, lo: nat, hi: nat)
    requires Supplied(r, t, lo, hi)
    ensures |r| == |t| == NSLOTS
  {}

  lemma SpentMore(s: State, t: State, u: State, i: nat, o: nat, mid: nat, end: nat)
    requires Spent(s, t, i, o, mid) && Spent(t, u, i, mid, end) && o <= mid <= end
    ensures Spent(s, u, i, o, end)
  {
    hide LacksFor, FreeCount, Supplied;
    RoomRest(s, t, i, o, mid, end);
    LacksRest(s.refs[i], t.refs[i], CeilBlocks(o), CeilBlocks(mid), CeilBlocks(end));
    SuppliedMore(s.refs[i], t.refs[i], u.refs[i], CeilBlocks(o), CeilBlocks(mid), CeilBlocks(end));
  }

  /** Room for the whole is room for a part. */
  lemma RoomLess(s: State, i: nat, o: nat, mid: nat, end: nat)
    requires Room(s, i, o, end) && o <= mid <= end
    ensures Room(s, i, o, mid)
  {
    hide LacksFor, FreeCount;
    LacksGrow(s.refs[i], CeilBlocks(o), CeilBlocks(mid), CeilBlocks(end));
  }

  /** An open file on an inode. */
  class OpenFile {
    const fs: Fs
    const inum: nat
    const writable: bool
    var off: Word

    constructor (fs: Fs, inum: nat, writable: bool)
      ensures this.fs == fs && this.inum == inum && this.writable == writable && off == 0
    {
      this.fs := fs;
      this.inum := inum;
      this.writable := writable;
      off := 0;
    }

    /** The first i bytes of src have been written since state s, when the offset was o. */
    ghost predicate Going(s: State, o: nat, src: seq<Byte>, i: nat)
      reads this, fs
    {
      && fs.Valid() && inum in fs.mem && inum < |s.cur| && off == o + i && i <= |src|
      && (o <= s.cur[inum].size ==> Result(fs.sb, s, fs.st, inum, src[..i], o) && Spent(s, fs.st, inum, o, off))
      && (o > s.cur[inum].size ==> i == 0 && fs.st == s)
    }

    /** One chunk, which is one transaction. The outcome is decided by the state s that the call
        of filewrite began with. */
    method WriteChunk(src: seq<Byte>, i: nat, ghost s: State, ghost o: nat) returns (r: WriteResult)
      requires Going(s, o, src, i) && i < |src| < 0x8000_0000
      modifies this, fs
      ensures r.WriteDevice? <==> s.cur[inum].typ == T_DEV
      ensures r.WriteDevice? || r.WriteError? ==> Going(s, o, src, i)
      ensures r.Written? ==> Going(s, o, src, i + Least(|src| - i, CHUNK))
      ensures r.Written? && fs.sb.size < BPB ==> |fs.logged| <= 7
      ensures r.Written? ==> Logged(old(fs.blocks), fs.blocks, {}, fs.logged)
      ensures r.Written? ==> forall b :: b in fs.logged ==> fs.sb.inodestart <= b < |fs.blocks|
      ensures var end := old(off) + Least(|src| - i, CHUNK);
              s.cur[inum].typ != T_DEV ==>
                && (r.WriteError? <==> o > s.cur[inum].size || end > MAXFILE * BSIZE)
                && (r.Halted? <==> !r.WriteError? && !Room(s, inum, o, end))
    {
      hide Good, Result, Logs, Spent, Room, LacksFor, FreeCount, Supplied;
      var n1 := Least(|src| - i, CHUNK);
      ghost var t := fs.st;
      if o <= s.cur[inum].size {
        ResultFacts(fs.sb, s, t, inum, src[..i], o);
        if off + n1 <= MAXFILE * BSIZE {
          RoomRest(s, t, inum, o, off, off + n1);
        }
      }
      fs.logged := {};
      r := fs.Writei(inum, off, src[i..i + n1]);
      if r.Halted? || r.Written? {
        RoomIs(t, inum, off, off + n1);
      }
      if r.Written? {
        ResultThen(fs.sb, s, t, fs.st, inum, src[..i], src[i..i + n1], o);
        assert src[..i] + src[i..i + n1] == src[..i + n1];
        if fs.sb.size < BPB {
          ChunkLogsFew(fs.sb, fs.st, inum, fs.logged, off, off + n1);
        }
        LogsHome(fs.sb, fs.st, inum, fs.logged, off, off + n1);
        SpentIs(t, fs.st, inum, off, off + n1);
        SpentMore(s, t, fs.st, inum, o, off, off + n1);
        off := off + n1;
      }
    }

    /** filewrite on an inode, refused if the file was not opened for it. The file ends up
        overwritten by the longest part of src that whole chunks can write, and the call succeeds
        exactly when that is all of src. It halts exactly when the free blocks are not enough for
        that part. */
    method Write(src: seq<Byte>) returns (r: FileResult)
      requires fs.Valid() && inum in fs.mem && |src| < 0x8000_0000
      modifies this, fs
      ensures !writable ==> r.Failed? && fs.st == old(fs.st) && off == old(off)
      ensures r.OnDevice? <==> writable && src != [] && old(fs.mem[inum].typ) == T_DEV
      ensures r.OutOfBlocks? <==>
                && writable && src != [] && old(fs.mem[inum].typ) != T_DEV && old(off) <= old(fs.mem[inum].size)
                && !Room(old(fs.st), inum, old(off), old(off) + Fits(old(off), |src|, 0))
      ensures r.OutOfBlocks? || fs.Valid()
      ensures writable && (r.Wrote? || r.Failed?) ==>
                (r.Wrote? <==> src == [] || (old(off) <= old(fs.mem[inum].size) && old(off) + |src| <= MAXFILE * BSIZE))
      ensures writable && (r.Wrote? || r.Failed?) && old(off) <= old(fs.mem[inum].size) ==>
                var n := Fits(old(off), |src|, 0);
                Result(fs.sb, old(fs.st), fs.st, inum, src[..n], old(off)) && off == old(off) + n
      ensures (r.Wrote? || r.Failed?) && old(off) > old(fs.mem[inum].size) ==> fs.st == old(fs.st) && off == old(off)
    {
      hide Good, Result, Spent, Room, LacksFor, FreeCount, Supplied;
      if !writable {
        return Failed;
      }
      ghost var s, o := fs.st, off;
      var i := 0;
      if off <= fs.mem[inum].size {
        ResultNothing(fs.sb, fs.st, -1, inum, off);
        Below(off);
        SpentNone(fs.st, inum, off);
      }
      if src != [] {
        FitsAll(off, |src|, 0);
      }
      while i < |src|
        invariant Going(s, o, src, i) && Fits(o, |src|, 0) == Fits(o, |src|, i)
        invariant i > 0 ==> s.cur[inum].typ != T_DEV
      {
        var w := WriteChunk(src, i, s, o);
        if w.WriteDevice? {
          return OnDevice;
        }
        if w.Halted? {
          PartLacks(s, inum, o, |src|, i);
          return OutOfBlocks;
        }
        if w.WriteError? {
          break;
        }
        i := i + Least(|src| - i, CHUNK);
      }
      if o <= s.cur[inum].size {
        SpentHadRoom(s, fs.st, inum, o, off);
      }
      return if i == |src| then Wrote else Failed;
    }

    lemma Below(o: nat)
      requires fs.Valid() && inum in fs.mem && o <= fs.mem[inum].size
      ensures inum < |fs.st.refs| && |fs.st.refs[inum]| == NSLOTS && CeilBlocks(o) <= MAXFILE
    {
      SizesFit(fs.sb, fs.st, -1);
      assert Shaped(fs.st, inum);
    }
  }

  lemma RoomIs(s: State, i: nat, o: nat, end: nat)
    requires i < |s.refs| && |s.refs[i]| == NSLOTS && CeilBlocks(end) <= MAXFILE
    ensures Room(s, i, o, end) <==> FreeCount(s.bits) >= LacksFor(s.refs[i], CeilBlocks(o), CeilBlocks(end))
  {}

  lemma SpentIs(s: State, t: State, i: nat, o: nat, end: nat)
    requires Room(s, i, o, end) && i < |t.refs| && Supplied(s.refs[i], t.refs[i], CeilBlocks(o), CeilBlocks(end))
    requires FreeCount(t.bits) == FreeCount(s.bits) - LacksFor(s.refs[i], CeilBlocks(o), CeilBlocks(end))
    ensures Spent(s, t, i, o, end)
  {}

  lemma SpentHadRoom(s: State, t: State, i: nat, o: nat, end: nat)
    requires Spent(s, t, i, o, end)
    ensures Room(s, i, o, end)
  {}

  /** A chunk without room leaves none for all that fits the largest file. */
  lemma PartLacks(s: State, i: nat, o: nat, n: nat, done: nat)
    requires done < n && Fits(o, n, 0) == Fits(o, n, done) && o + done + Least(n - done, CHUNK) <= MAXFILE * BSIZE
    requires !Room(s, i, o, o + done + Least(n - done, CHUNK))
    ensures !Room(s, i, o, o + Fits(o, n, 0))
  {
    hide Room;
    if Room(s, i, o, o + Fits(o, n, 0)) {
      RoomLess(s, i, o, o + done + Least(n - done, CHUNK), o + Fits(o, n, 0));
    }
  }

  lemma ResultFacts(sb: Super, s: State, t: State, i: nat, a: seq<Byte>, off: nat)
    requires Result(sb, s, t, i, a, off)
    ensures t.cur[i].typ == s.cur[i].typ && off + |a| <= t.cur[i].size <= MAXFILE * BSIZE
  {}
}
