/** The file system layer over one array of blocks: the block allocator, bmap, readi, writei,
    itrunc and iupdate. That the buffer cache and the log present such an array, and that it
    survives crashes, is shown in Bio, Log and LogSpec. */
module Fs {
  import opened Options
  import opened Types
  import opened Blocks
  import opened FsLayout
  import opened FsSpec
  import opened FsState

  const T_DEV: nat := 3

  /** Device inodes go to the device switch; Halted is a panic of the allocator. */
  datatype ReadResult = ReadDevice | ReadError | Bytes(data: seq<Byte>)

  datatype WriteResult = WriteDevice | WriteError | Halted | Written

  /** A file as one byte sequence. */
  ghost function File(s: State, i: nat): (r: seq<Byte>)
    requires i < |s.refs| && i < |s.cur| && |s.refs[i]| == NSLOTS && s.cur[i].size <= MAXFILE * BSIZE
    ensures |r| == s.cur[i].size && forall o :: 0 <= o < |r| ==> r[o] == FileByte(s.refs[i], s.d, o)
  {
    seq(s.cur[i].size, o requires 0 <= o < s.cur[i].size => FileByte(s.refs[i], s.d, o))
  }

  function Overwrite(f: seq<Byte>, off: nat, src: seq<Byte>): seq<Byte>
    requires off <= |f|
  {
    f[..off] + src + if off + |src| < |f| then f[off + |src|..] else []
  }

  /** Every block that has changed is among the blocks logged, which only grow in number. */
  ghost predicate Logged(b0: Disk, b1: Disk, l0: set<int>, l1: set<int>) {
    |b0| == |b1| && l0 <= l1 && forall b :: 0 <= b < |b0| && b !in l1 ==> b1[b] == b0[b]
  }

  class Fs {
    const sb: Super
    var blocks: Disk
    var mem: map<int, Dinode>        // the cached inodes
    ghost var st: State
    var logged: set<int>             // the blocks that the current operation has logged

    ghost predicate Synced()
      reads this
    {
      && st.d == blocks && |st.cur| == sb.ninodes
      && forall i :: i in mem ==> 0 <= i < |st.cur| && mem[i] == st.cur[i]
    }

    /** Between operations: the inodes on disk are the inodes in memory. */
    ghost predicate Valid()
      reads this
    {
      Synced() && Good(sb, st, -1) && Typed()
    }

    /** No free inode is cached. */
    ghost predicate Typed()
      reads this
    {
      forall i :: i in mem ==> mem[i].typ != 0
    }

    /** During an operation on a locked inode, which memory may be ahead on. */
    ghost predicate Busy(i: nat)
      reads this
    {
      Synced() && Good(sb, st, i) && i in mem && Typed()
    }

    /** A mounted image, with no inode cached yet. */
    constructor (sb: Super, image: Disk, ghost s: State)
      requires Good(sb, s, -1) && s.d == image && |s.cur| == sb.ninodes
      ensures Valid() && this.sb == sb && blocks == image && st == s && mem == map[] && logged == {}
    {
      this.sb, blocks, mem, st, logged := sb, image, map[], s, {};
    }

    method LogWrite(b: nat, x: Block)
      requires b < |blocks|
      modifies `blocks, `logged
      ensures blocks == old(blocks)[b := x] && logged == old(logged) + {b}
      ensures Logged(old(blocks), blocks, old(logged), logged)
    {
      blocks := blocks[b := x];
      logged := logged + {b};
    }

    /** balloc: the first free block, marked and zeroed. */
    method Balloc() returns (r: Option<nat>)
      requires Bits(blocks, sb, st.bits)
      modifies `blocks, `logged
      ensures r.Some? ==> r.value < sb.size && !st.bits[r.value] && forall c :: 0 <= c < r.value ==> st.bits[c]
      ensures r.Some? ==> blocks == Taken(sb, old(blocks), r.value) &&
                          logged == old(logged) + {sb.BitBlock(r.value), r.value}
      ensures r.None? ==> blocks == old(blocks) && logged == old(logged) && forall c :: 0 <= c < sb.size ==> st.bits[c]
      ensures Logged(old(blocks), blocks, old(logged), logged)
    {
      var b := 0;
      while b < sb.size
        invariant b % BPB == 0 && blocks == old(blocks) && logged == old(logged)
        invariant forall c :: 0 <= c < b && c < sb.size ==> st.bits[c]
        decreases sb.size - b
      {
        BitmapWhere(sb, b);
        var data := blocks[sb.BitBlock(b)];
        var bi := 0;
        while bi < BPB && b + bi < sb.size
          invariant 0 <= bi <= BPB && forall c :: 0 <= c < b + bi && c < sb.size ==> st.bits[c]
        {
          assert (b + bi) / BPB == b / BPB && (b + bi) % BPB == bi;
          assert st.bits[b + bi] == BlockBit(blocks[sb.BitBlock(b + bi)], (b + bi) % BPB);
          if !BlockBit(data, bi) {
            LogWrite(sb.BitBlock(b), SetBit(data, bi));
            LogWrite(b + bi, Zero());
            return Some(b + bi);
          }
          bi := bi + 1;
        }
        b := b + BPB;
      }
      return None;
    }

    /** bfree: false is the panic on a block that is free already. */
    method Bfree(b: nat) returns (ok: bool)
      requires Bits(blocks, sb, st.bits) && b < sb.size
      modifies `blocks, `logged
      ensures ok == st.bits[b]
      ensures ok ==> blocks == old(blocks)[sb.BitBlock(b) := Marked(old(blocks)[sb.BitBlock(b)], b, false)]
      ensures ok ==> logged == old(logged) + {sb.BitBlock(b)}
      ensures !ok ==> blocks == old(blocks) && logged == old(logged)
      ensures Logged(old(blocks), blocks, old(logged), logged)
    {
      BitmapWhere(sb, b);
      var data, bi := blocks[sb.BitBlock(b)], b % BPB;
      if !BlockBit(data, bi) {
        return false;
      }
      LogWrite(sb.BitBlock(b), ClearBit(data, bi));
      return true;
    }

    /** addrs[k] of a locked inode, allocated if it is not there. */
    method MapAddr(i: nat, k: nat) returns (r: Option<nat>)
      requires Busy(i) && k < 13
      modifies this
      ensures r.Some? ==> Busy(i) && Grew(old(st), st, i) && r.value == st.refs[i][k] != 0
      ensures mem.Keys == old(mem.Keys)
      ensures r.Some? && old(st).refs[i][k] != 0 ==> st == old(st) && mem == old(mem) && logged == old(logged)
      ensures r.Some? ==> forall b :: b in logged ==>
              b in old(logged) || sb.bmapstart <= b < sb.DataStart() || b == r.value
      ensures r.None? <==> old(st).refs[i][k] == 0 && forall c :: 0 <= c < |old(st).bits| ==> old(st).bits[c]
      ensures r.None? ==> st == old(st) && mem == old(mem) && blocks == old(blocks) && logged == old(logged)
      ensures r.Some? ==> st.refs[i] == old(st).refs[i][k := r.value]
      ensures r.Some? ==> FreeCount(st.bits) == FreeCount(old(st).bits) - if old(st).refs[i][k] == 0 then 1 else 0
      ensures Logged(old(blocks), blocks, old(logged), logged)
    {
      hide Good, Bits, Grew, WordAt, PutWord, Taken, FreeCount;
      RefsAre(sb, st, i, i);
      BitsOf(sb, st, i);
      GrewNothing(sb, st, i);
      var addr := mem[i].addrs[k];
      if addr == 0 {
        assert st.refs[i][k] == 0;
        var b := Balloc();
        if b.None? {
          assert st == old(st) && forall c :: 0 <= c < |st.bits| ==> st.bits[c];
          return None;
        }
        addr := b.value;
        FreeCountTake(st.bits, addr);
        GiveAddrKeepsGood(sb, st, i, k, addr);
        mem := mem[i := mem[i].(addrs := mem[i].addrs[k := addr])];
        st := GiveAddr(sb, st, i, k, addr);
        BitmapWhere(sb, addr);
      }
      return Some(addr);
    }

    /** Entry j of the indirect block, allocated if it is not there. */
    method MapEntry(i: nat, addr: nat, j: nat) returns (r: Option<nat>)
      requires Busy(i) && j < NINDIRECT && addr == st.refs[i][12] != 0
      modifies this
      ensures r.Some? ==> Busy(i) && Grew(old(st), st, i) && r.value == st.refs[i][13 + j] != 0
      ensures mem.Keys == old(mem.Keys)
      ensures r.Some? && old(st).refs[i][13 + j] != 0 ==> st == old(st) && mem == old(mem) && logged == old(logged)
      ensures r.Some? ==> forall b :: b in logged ==>
                b in old(logged) || sb.bmapstart <= b < sb.DataStart() || b == r.value || b == st.refs[i][12] != 0
      ensures r.None? <==> old(st).refs[i][13 + j] == 0 && forall c :: 0 <= c < |old(st).bits| ==> old(st).bits[c]
      ensures r.None? ==> st == old(st) && mem == old(mem) && blocks == old(blocks) && logged == old(logged)
      ensures r.Some? ==> st.refs[i] == old(st).refs[i][13 + j := r.value]
      ensures r.Some? ==> FreeCount(st.bits) == FreeCount(old(st).bits) - if old(st).refs[i][13 + j] == 0 then 1 else 0
      ensures Logged(old(blocks), blocks, old(logged), logged)
    {
      hide Good, Bits, Grew, WordAt, PutWord, Taken, FreeCount;
      RefsAre(sb, st, i, i);
      BitsOf(sb, st, i);
      GrewNothing(sb, st, i);
      var entry := WordAt(blocks[addr], j);
      assert entry == st.refs[i][13 + j];
      if entry == 0 {
        var b := Balloc();
        if b.None? {
          assert st == old(st) && forall c :: 0 <= c < |st.bits| ==> st.bits[c];
          return None;
        }
        entry := b.value;
        FreeCountTake(st.bits, entry);
        GiveEntryKeepsGood(sb, st, i, j, entry);
        LogWrite(addr, PutWord(blocks[addr], j, entry));
        st := GiveEntry(sb, st, i, j, entry);
        BitmapWhere(sb, entry);
      }
      return Some(entry);
    }

    /** bmap: the n-th block of a file, allocated if it is not there. None is a panic, past the
        largest file or with fewer free blocks than it takes. */
    method Bmap(i: nat, bn: nat) returns (r: Option<nat>)
      requires Busy(i)
      modifies this
      ensures r.Some? ==> bn < MAXFILE && Busy(i) && Grew(old(st), st, i) && r.value == st.refs[i][SlotOf(bn)] != 0
      ensures mem.Keys == old(mem.Keys)
      ensures r.Some? && old(st).refs[i][SlotOf(bn)] != 0 ==> st == old(st) && mem == old(mem) && logged == old(logged)
      ensures r.Some? ==> forall b :: b in logged ==>
                b in old(logged) || sb.bmapstart <= b < sb.DataStart() || b == r.value || b == st.refs[i][12] != 0
      ensures r.None? <==> bn >= MAXFILE || FreeCount(old(st).bits) < Lacks(old(st).refs[i], bn)
      ensures r.Some? ==> FreeCount(st.bits) == FreeCount(old(st).bits) - Lacks(old(st).refs[i], bn)
      ensures r.Some? ==> Supplied(old(st).refs[i], st.refs[i], bn, bn + 1)
      ensures Logged(old(blocks), blocks, old(logged), logged)
    {
      hide Good, Grew, WordAt, FreeCount;
      RefsAre(sb, st, i, i);
      FreeCountZero(st.bits);
      if bn < NDIRECT {
        r := MapAddr(i, bn);
        return;
      }
      if bn >= MAXFILE {
        return None;
      }
      var addr := MapAddr(i, NDIRECT);
      if addr.None? {
        return None;
      }
      ghost var s := st;
      FreeCountZero(s.bits);
      r := MapEntry(i, addr.value, bn - NDIRECT);
      if r.Some? {
        GrewTwice(old(st), s, st, i);
        GrewSlot(s, st, i, 12);
        assert 13 + (bn - NDIRECT) == SlotOf(bn);
      }
    }

    /** iupdate. */
    method Iupdate(i: nat)
      requires Synced() && Good(sb, st, i) && i in mem
      modifies `blocks, `st, `logged
      ensures Synced() && Good(sb, st, -1) && logged == old(logged) + {sb.InodeBlock(i)}
      ensures st == old(st).(d := st.d)
      ensures |blocks| == |old(blocks)| && forall c :: sb.DataStart() <= c < |blocks| ==> blocks[c] == old(blocks)[c]
      ensures forall j, o :: 0 <= j < |st.refs| && 0 <= o < MAXFILE * BSIZE &&
                             old(st).refs[j][SlotOf(o / BSIZE)] != 0 ==>
                FileByte(st.refs[j], st.d, o) == FileByte(old(st).refs[j], old(st).d, o)
      ensures Logged(old(blocks), blocks, old(logged), logged)
    {
      hide BlockBit, Inodes, Tie, Own, Whole, FileByte, PutInode;
      RefsAre(sb, st, i, i);
      UpdateKeepsGood(sb, st, i);
      var w := sb.InodeBlock(i);
      var x := PutInode(blocks[w], i % IPB, mem[i]);
      forall j, o | 0 <= j < |st.refs| && 0 <= o < MAXFILE * BSIZE && st.refs[j][SlotOf(o / BSIZE)] != 0
        ensures FileByte(st.refs[j], st.d[w := x], o) == FileByte(st.refs[j], st.d, o)
      {
        MetaWriteBytes(sb, st, i, w, x, j, o);
      }
      LogWrite(w, x);
      st := st.(d := blocks);
    }

    /** readi: the bytes from off on, at most n of them and none past the end. Nothing is
        allocated: every block that it asks bmap for is there. */
    method Readi(i: nat, off: Word, n: Word) returns (r: ReadResult)
      requires Valid() && i in mem
      modifies this
      ensures st == old(st) && mem == old(mem) && blocks == old(blocks) && logged == old(logged)
      ensures r.ReadDevice? <==> mem[i].typ == T_DEV
      ensures r.ReadError? <==> mem[i].typ != T_DEV && (off > mem[i].size || off + n >= UINT_LIMIT)
      ensures r.Bytes? ==> off <= mem[i].size && mem[i].size <= MAXFILE * BSIZE
      ensures r.Bytes? ==> r.data == File(st, i)[off..if off + n > mem[i].size then mem[i].size else off + n]
    {
      hide Bits, Inodes, Tie, Own;
      RefsAre(sb, st, i, -1);
      assert NoHoles(st.refs[i], st.cur[i].size);
      if mem[i].typ == T_DEV {
        return ReadDevice;
      }
      if off > mem[i].size || off + n >= UINT_LIMIT {
        return ReadError;
      }
      var count := if off + n > mem[i].size then mem[i].size - off else n;
      var dst: seq<Byte>, tot, at := [], 0, off;
      while tot < count
        invariant 0 <= tot <= count && at == off + tot && |dst| == tot && Valid()
        invariant st == old(st) && mem == old(mem) && blocks == old(blocks) && logged == old(logged)
        invariant forall k :: 0 <= k < tot ==> dst[k] == FileByte(st.refs[i], st.d, off + k)
      {
        InodesWeaken(sb, st, i);
        var b := Bmap(i, at / BSIZE);
        assert b.Some? && b.value == st.refs[i][SlotOf(at / BSIZE)];
        var m := if count - tot < BSIZE - at % BSIZE then count - tot else BSIZE - at % BSIZE;
        dst := dst + blocks[b.value][at % BSIZE..at % BSIZE + m];
        tot, at := tot + m, at + m;
      }
      return Bytes(dst);
    }

    /** writei: the file is overwritten from off on, and grows if it must. Afterwards the
        inode on disk is the inode in memory, although iupdate runs only when it grew. Halted
        is a panic: the range lacks more blocks than are free. */
    method Writei(i: nat, off: Word, src: seq<Byte>) returns (r: WriteResult)
      requires Valid() && i in mem && |src| < UINT_LIMIT
      modifies this
      ensures r.WriteDevice? <==> old(mem[i].typ) == T_DEV
      ensures r.WriteError? <==> (old(mem[i].typ) != T_DEV &&
                (off > old(mem[i].size) || off + |src| >= UINT_LIMIT || off + |src| > MAXFILE * BSIZE))
      ensures r.WriteDevice? || r.WriteError? ==>
              st == old(st) && mem == old(mem) && blocks == old(blocks) && logged == old(logged)
      ensures i < |old(st).refs| && |old(st).refs[i]| == NSLOTS
      ensures r.Halted? || r.Written? ==> CeilBlocks(off + |src|) <= MAXFILE
      ensures r.Halted? || r.Written? ==>
                (r.Halted? <==> FreeCount(old(st).bits) <
                                LacksFor(old(st).refs[i], CeilBlocks(off), CeilBlocks(off + |src|)))
      ensures r.Written? ==>
                FreeCount(st.bits) ==
                    FreeCount(old(st).bits) - LacksFor(old(st).refs[i], CeilBlocks(off), CeilBlocks(off + |src|))
      ensures r.Written? ==>
              i < |st.refs| && Supplied(old(st).refs[i], st.refs[i], CeilBlocks(off), CeilBlocks(off + |src|))
      ensures r.Written? ==> Valid() && mem.Keys == old(mem.Keys)
      ensures r.Written? ==> Result(sb, old(st), st, i, src, off)
      ensures r.Written? ==> Logs(sb, st, i, old(logged), logged, off, off + |src|)
      ensures Logged(old(blocks), blocks, old(logged), logged)
    {
      hide Good, FileByte, Progress, Logs, NoHoles, File, FreeCount, LacksFor, Supplied;
      SizesFit(sb, st, -1);
      assert Shaped(st, i);
      if mem[i].typ == T_DEV {
        return WriteDevice;
      }
      if off > mem[i].size || off + |src| >= UINT_LIMIT || off + |src| > MAXFILE * BSIZE {
        return WriteError;
      }
      ProgressStart(sb, st, i, src, off);
      InodesWeaken(sb, st, i);
      LogsStart(sb, st, i, logged, off);
      ghost var row, lo, hi := st.refs[i], CeilBlocks(off), CeilBlocks(off + |src|);
      SuppliedNone(row, lo);
      var tot, at := 0, off;
      while tot < |src|
        invariant 0 <= tot <= |src| && at == off + tot && Busy(i) && mem.Keys == old(mem.Keys)
        invariant Progress(sb, old(st), st, i, src, off, at)
        invariant Logs(sb, st, i, old(logged), logged, off, at)
        invariant Logged(old(blocks), blocks, old(logged), logged)
        invariant i < |st.refs| && Supplied(row, st.refs[i], lo, CeilBlocks(at))
        invariant FreeCount(st.bits) == FreeCount(old(st).bits) - LacksFor(row, lo, CeilBlocks(at))
      {
        ghost var was := st.refs[i];
        var m := if |src| - tot < BSIZE - at % BSIZE then |src| - tot else BSIZE - at % BSIZE;
        LacksRest(row, was, lo, CeilBlocks(at), CeilBlocks(at + m));
        LacksGrow(row, lo, CeilBlocks(at + m), hi);
        var ok := WriteBlock(i, src, tot, at, m, old(st), off, old(logged));
        if !ok {
          return Halted;
        }
        SuppliedMore(row, was, st.refs[i], lo, CeilBlocks(at), CeilBlocks(at + m));
        tot, at := tot + m, at + m;
      }
      Grown(i, src, at, old(st), off, old(logged));
      return Written;
    }

    /** One turn of writei's loop: the bytes of src that fall into one block. */
    method WriteBlock(i: nat, src: seq<Byte>, tot: nat, at: nat, m: nat, ghost s: State, ghost off: nat,
        ghost l: set<int>)
      returns (ok: bool)
      requires Busy(i) && Progress(sb, s, st, i, src, off, at) && Logs(sb, st, i, l, logged, off, at)
      requires at == off + tot && tot + m <= |src| && at + m <= MAXFILE * BSIZE && at % BSIZE + m <= BSIZE && 0 < m
      modifies this
      ensures ok ==> Busy(i) && Progress(sb, s, st, i, src, off, at + m) && Logs(sb, st, i, l, logged, off, at + m)
      ensures ok ==> mem.Keys == old(mem.Keys)
      ensures i < |old(st).refs| && |old(st).refs[i]| == NSLOTS
      ensures ok <==> FreeCount(old(st).bits) >= LacksFor(old(st).refs[i], CeilBlocks(at), CeilBlocks(at + m))
      ensures ok ==> i < |st.refs| && Supplied(old(st).refs[i], st.refs[i], CeilBlocks(at), CeilBlocks(at + m))
      ensures ok ==>
                FreeCount(st.bits) ==
                    FreeCount(old(st).bits) - LacksFor(old(st).refs[i], CeilBlocks(at), CeilBlocks(at + m))
      ensures Logged(old(blocks), blocks, old(logged), logged)
    {
      hide Good, FileByte, Logs, NoHoles, Grew, OthersSame, Wrote, FreeCount, Lacks, LacksFor, Supplied;
      ghost var t := st;
      MappedBelow(sb, s, t, i, src, off, at, m);
      SizesFit(sb, t, i);
      BlockLacks(sb, t, i, at, m);
      var b := Bmap(i, at / BSIZE);
      if b.None? {
        return false;
      }
      ghost var u := st;
      SizesFit(sb, u, i);
      BlockSupplied(t.refs[i], u.refs[i], at, m);
      ProgressGrow(sb, s, t, u, i, src, off, at);
      LogsGrow(sb, t, u, i, l, old(logged), logged, off, at, m);
      ProgressWrite(sb, s, u, i, src, off, at, m);
      LogWrite(b.value, Patched(blocks[b.value], at % BSIZE, src, tot, m));
      st := st.(d := blocks);
      SizesFit(sb, st, i);
      LogsKept(sb, u, st, i, l, logged, off, at + m);
      return true;
    }

    /** The end of writei. */
    method Grown(i: nat, src: seq<Byte>, at: nat, ghost s: State, ghost off: nat, ghost l: set<int>)
      requires Busy(i) && Progress(sb, s, st, i, src, off, at) && Logs(sb, st, i, l, logged, off, at) &&
               at == off + |src|
      requires at < UINT_LIMIT && off <= s.cur[i].size
      modifies this
      ensures Valid() && mem.Keys == old(mem.Keys) && st.refs == old(st).refs && st.bits == old(st).bits
      ensures Result(sb, s, st, i, src, off) && Logs(sb, st, i, l, logged, off, at)
      ensures Logged(old(blocks), blocks, old(logged), logged)
    {
      hide Good, FileByte, Logs, NoHoles, File, OthersSame, Wrote;
      ghost var t := st;
      SizesFit(sb, s, -1);
      if |src| > 0 && at > mem[i].size {
        ResizeKeepsGood(sb, st, i, at);
        mem := mem[i := mem[i].(size := at)];
        st := st.(cur := st.cur[i := mem[i]]);
        SizesFit(sb, st, i);
        Iupdate(i);
      }
      SizesFit(sb, st, -1);
      LogsKept(sb, t, st, i, l, old(logged), off, at);
      ResultOf(sb, s, t, st, i, src, off, at);
    }

    /** One slot of itrunc: frees what it refers to, which is never free already. */
    method Drop(i: nat, k: nat, addr: Word, ghost s: State, ghost gone: set<int>) returns (ghost more: set<int>)
      requires Dropped(sb, s, st, i, gone) && Own(s.refs, s.bits, s.owner, sb.DataStart()) && st.d == blocks
      requires k < NSLOTS && k !in gone && addr == s.refs[i][k]
      modifies `blocks, `st, `logged
      ensures more == gone + {k} && Dropped(sb, s, st, i, more) && st.d == blocks
      ensures Logged(old(blocks), blocks, old(logged), logged)
    {
      hide Own, Inodes, BlockBit, RowIs, NoHoles;
      more := gone + {k};
      if addr != 0 {
        DropFull(sb, s, st, i, gone, k);
        var ok := Bfree(addr);
        assert ok;
        st := Freed(sb, st, i, k);
      } else {
        DropEmpty(sb, s, st, i, gone, k);
      }
    }

    /** itrunc, the direct blocks. */
    method DropDirect(i: nat, ghost s: State) returns (ghost gone: set<int>)
      requires Dropped(sb, s, st, i, {}) && Own(s.refs, s.bits, s.owner, sb.DataStart()) && st.d == blocks && i in mem
      requires forall k :: 0 <= k < 13 ==> mem[i].addrs[k] == s.refs[i][k]
      modifies this
      ensures Dropped(sb, s, st, i, gone) && st.d == blocks && forall k :: k in gone <==> 0 <= k < NDIRECT
      ensures mem.Keys == old(mem.Keys) && forall j :: j in mem && j != i ==> mem[j] == old(mem[j])
      ensures mem[i] == old(mem[i]).(addrs := mem[i].addrs)
      ensures forall k :: 0 <= k < 13 ==> mem[i].addrs[k] == if k < NDIRECT then 0 else old(mem[i].addrs[k])
      ensures Logged(old(blocks), blocks, old(logged), logged)
    {
      hide Dropped, Own;
      gone := {};
      var k := 0;
      while k < NDIRECT
        invariant 0 <= k <= NDIRECT && Dropped(sb, s, st, i, gone) && st.d == blocks
        invariant Logged(old(blocks), blocks, old(logged), logged)
        invariant forall j :: j in gone <==> 0 <= j < k
        invariant mem.Keys == old(mem.Keys) && forall j :: j in mem && j != i ==> mem[j] == old(mem[j])
        invariant mem[i] == old(mem[i]).(addrs := mem[i].addrs)
        invariant forall j :: 0 <= j < 13 ==> mem[i].addrs[j] == if j < k then 0 else old(mem[i].addrs[j])
      {
        gone := Drop(i, k, mem[i].addrs[k], s, gone);
        mem := mem[i := mem[i].(addrs := mem[i].addrs[k := 0])];
        k := k + 1;
      }
    }

    /** itrunc, the entries of the indirect block and that block. */
    method DropIndirect(i: nat, x: nat, ghost s: State, ghost done: set<int>) returns (ghost gone: set<int>)
      requires Dropped(sb, s, st, i, done) && Own(s.refs, s.bits, s.owner, sb.DataStart()) && st.d == blocks
      requires (forall k :: k in done <==> 0 <= k < NDIRECT) && x < |blocks| && x < UINT_LIMIT && x == s.refs[i][12]
      requires forall j :: 0 <= j < NINDIRECT ==> WordAt(blocks[x], j) == s.refs[i][13 + j]
      modifies `blocks, `st, `logged
      ensures Dropped(sb, s, st, i, gone) && st.d == blocks && forall k :: k in gone <==> 0 <= k < NSLOTS
      ensures Logged(old(blocks), blocks, old(logged), logged)
    {
      hide Dropped, Own, WordAt;
      gone := done;
      var a := blocks[x];
      var j := 0;
      while j < NINDIRECT
        invariant 0 <= j <= NINDIRECT && Dropped(sb, s, st, i, gone) && st.d == blocks
        invariant Logged(old(blocks), blocks, old(logged), logged)
        invariant forall q :: q in gone <==> 0 <= q < NDIRECT || 13 <= q < 13 + j
      {
        gone := Drop(i, 13 + j, WordAt(a, j), s, gone);
        j := j + 1;
      }
      gone := Drop(i, NDIRECT, x, s, gone);
    }

    /** Both loops of itrunc: every slot is dropped or was empty. */
    method DropAll(i: nat) returns (ghost gone: set<int>)
      requires Busy(i)
      modifies this
      ensures Dropped(sb, old(st), st, i, gone) && st.d == blocks
      ensures i < |old(st).refs| && |old(st).refs[i]| == NSLOTS &&
              forall k :: 0 <= k < NSLOTS ==> k in gone || old(st).refs[i][k] == 0
      ensures mem.Keys == old(mem.Keys) && forall j :: j in mem && j != i ==> mem[j] == old(mem[j])
      ensures mem[i] == old(mem[i]).(addrs := mem[i].addrs) && forall k :: 0 <= k < 13 ==> mem[i].addrs[k] == 0
      ensures Logged(old(blocks), blocks, old(logged), logged)
    {
      hide Good, Dropped, Own, WordAt;
      ghost var s := st;
      RefsAre(sb, st, i, i);
      OwnOf(sb, st, i);
      DroppedNothing(sb, st, i);
      gone := DropDirect(i, s);
      DroppedKeeps(sb, s, st, i, gone);
      var x := mem[i].addrs[NDIRECT];
      if x != 0 {
        gone := DropIndirect(i, x, s, gone);
        mem := mem[i := mem[i].(addrs := mem[i].addrs[NDIRECT := 0])];
      }
    }

    /** itrunc: frees everything that the inode refers to and empties it. */
    method Itrunc(i: nat)
      requires Busy(i)
      modifies this
      ensures Valid() && Truncated(old(st), st, i) && mem.Keys == old(mem.Keys)
      ensures mem[i].typ == old(mem[i].typ) && forall j :: j in mem && j != i ==> mem[j] == old(mem)[j]
      ensures Logged(old(blocks), blocks, old(logged), logged)
    {
      hide Good, Dropped, Truncated, Own, WordAt;
      ghost var s := st;
      RefsAre(sb, st, i, i);
      OwnOf(sb, st, i);
      ghost var gone := DropAll(i);
      DroppedKeeps(sb, s, st, i, gone);
      mem := mem[i := mem[i].(size := 0)];
      DroppedAll(sb, s, st, i, gone, mem[i]);
      st := st.(cur := st.cur[i := mem[i]]);
      ghost var t := st;
      Iupdate(i);
      TruncatedAfter(sb, s, t, st, i);
    }

    /** The file system part of iput, with r the references to the cached inode: the last
        reference to an inode without links frees its blocks and the inode itself. */
    method Iput(i: nat, r: nat) returns (freed: bool)
      requires Valid() && i in mem && r >= 1
      modifies this
      ensures Valid() && freed == (old(mem[i].nlink) == 0 && r == 1)
      ensures !freed ==> st == old(st) && mem == old(mem)
      ensures freed ==> FreedInode(old(st), st, i) && forall j :: j in mem <==> j in old(mem) && j != i
      ensures Logged(old(blocks), blocks, old(logged), logged)
    {
      hide Good, Truncated;
      freed := mem[i].nlink == 0 && r == 1;
      if freed {
        InodesWeaken(sb, st, i);
        Itrunc(i);
        ghost var s := st;
        TruncatedFacts(sb, old(st), st, i);
        mem := mem[i := mem[i].(typ := 0)];
        RetypeKeepsGood(sb, st, i, mem[i]);
        st := st.(cur := st.cur[i := mem[i]]);
        Iupdate(i);
        mem := mem - {i};
        assert forall j :: j in mem.Keys <==> j in old(mem).Keys && j != i;
        FreedAfter(sb, old(st), s, st, i);
      }
    }

    /** ilock's read of the inode: the cached copy is the one on disk. False is the panic on
        an inode that is not in use. */
    method Ilock(i: nat) returns (ok: bool)
      requires Valid() && i < sb.ninodes
      modifies `mem
      ensures Valid() && ok == (st.cur[i].typ != 0)
      ensures mem == if ok then old(mem)[i := st.cur[i]] else old(mem)
    {
      hide Bits, Tie, Own, Whole, ReadInode;
      if i !in mem {
        assert DiskInode(st.d, sb, i) == st.cur[i];
        var n := DiskInode(blocks, sb, i);
        if n.typ == 0 {
          return false;
        }
        mem := mem[i := n];
      }
      return true;
    }

    /** ialloc: the first free inode, cleared and given a type. None is a panic. */
    method Ialloc(typ: Half) returns (r: Option<nat>)
      requires Valid() && typ != 0 && sb.ninodes >= 1
      modifies `blocks, `st, `logged
      ensures Valid()
      ensures r.None? ==> st == old(st) && forall i :: 1 <= i < sb.ninodes ==> st.cur[i].typ != 0
      ensures r.Some? ==> 1 <= r.value < sb.ninodes && old(st).cur[r.value].typ == 0 &&
                          forall i :: 1 <= i < r.value ==> st.cur[i].typ != 0
      ensures r.Some? ==> st == old(st).(d := st.d, cur := old(st).cur[r.value := Dinode(typ, 0, 0, 0, 0, NoAddrs())])
      ensures Logged(old(blocks), blocks, old(logged), logged)
    {
      hide Bits, Tie, Own, Whole, ReadInode, PutInode;
      var i := 1;
      while i < sb.ninodes
        invariant 1 <= i <= sb.ninodes && blocks == old(blocks) && st == old(st)
        invariant forall j :: 1 <= j < i ==> st.cur[j].typ != 0
      {
        assert DiskInode(st.d, sb, i) == st.cur[i];
        if DiskInode(blocks, sb, i).typ == 0 {
          var n := Dinode(typ, 0, 0, 0, 0, NoAddrs());
          InodesWeaken(sb, st, i);
          RetypeKeepsGood(sb, st, i, n);
          st := st.(cur := st.cur[i := n]);
          UpdateKeepsGood(sb, st, i);
          LogWrite(sb.InodeBlock(i), PutInode(blocks[sb.InodeBlock(i)], i % IPB, n));
          st := st.(d := blocks);
          return Some(i);
        }
        i := i + 1;
      }
      return None;
    }
  }

  function NoAddrs(): (r: Addrs)
    ensures forall k :: 0 <= k < 13 ==> r[k] == 0
  {
    seq(13, _ => 0)
  }

  /** The inode is free, its blocks are free, and nothing else has changed. */
  ghost predicate FreedInode(s: State, t: State, i: nat) {
    && i < |s.cur| == |t.cur| && t.cur[i].typ == 0
    && Truncated(s, t.(cur := t.cur[i := t.cur[i].(typ := s.cur[i].typ)]), i)
  }

  lemma TruncatedFacts(sb: Super, s: State, t: State, i: nat)
    requires Truncated(s, t, i) && Good(sb, t, -1)
    ensures i < |t.cur| == |t.refs| && |t.refs[i]| == NSLOTS && (forall k :: 0 <= k < NSLOTS ==> t.refs[i][k] == 0)
    ensures t.cur[i].size == 0 && forall k :: 0 <= k < 13 ==> t.cur[i].addrs[k] == 0
    ensures |t.cur| == |s.cur| && forall j :: 0 <= j < |s.cur| && j != i ==> t.cur[j] == s.cur[j]
  {
    assert RowIs(t.refs[i], t.cur[i], t.d);
    forall k | 0 <= k < 13 ensures t.cur[i].addrs[k] == 0 {
      assert t.refs[i][k] == Ref(t.cur[i], t.d, k);
    }
  }

  /** An inode with no blocks may get any type. */
  lemma RetypeKeepsGood(sb: Super, s: State, i: nat, n: Dinode)
    requires Good(sb, s, -1) && i < |s.cur| && n.size == 0 && forall k :: 0 <= k < 13 ==> n.addrs[k] == 0
    requires s.cur[i].typ == 0 || forall k :: 0 <= k < NSLOTS ==> s.refs[i][k] == 0
    ensures Good(sb, s.(cur := s.cur[i := n]), i)
  {}

  lemma FreedAfter(sb: Super, s: State, t: State, u: State, i: nat)
    requires Truncated(s, t, i) && Good(sb, t, -1) && i < |t.cur| &&
             u == t.(cur := t.cur[i := t.cur[i].(typ := 0)], d := u.d)
    requires |u.d| == |t.d| && forall c :: sb.DataStart() <= c < |t.d| ==> u.d[c] == t.d[c]
    ensures FreedInode(s, u, i)
  {}

  lemma DroppedKeeps(sb: Super, s: State, t: State, i: nat, gone: set<int>)
    requires Dropped(sb, s, t, i, gone)
    ensures |t.d| == |s.d| && t.cur == s.cur && i < |t.cur| &&
            forall c :: sb.DataStart() <= c < |s.d| ==> t.d[c] == s.d[c]
  {}

  lemma TruncatedAfter(sb: Super, s: State, t: State, u: State, i: nat)
    requires Truncated(s, t, i) && u == t.(d := u.d) && |u.d| == |t.d| && Good(sb, t, i)
    requires forall c :: sb.DataStart() <= c < |t.d| ==> u.d[c] == t.d[c]
    ensures Truncated(s, u, i)
  {}

  lemma BelowSize(u: State, j: nat, o: nat)
    requires Whole(u.refs, u.cur) && j < |u.refs| && o < u.cur[j].size
    ensures o < MAXFILE * BSIZE && u.refs[j][SlotOf(o / BSIZE)] != 0
  {}

  lemma ResultOf(sb: Super, s: State, t: State, u: State, i: nat, src: seq<Byte>, off: nat, at: nat)
    requires Progress(sb, s, t, i, src, off, at) && at == off + |src| && off <= s.cur[i].size && Good(sb, u, -1)
    requires u.refs == t.refs && |u.cur| == |t.cur| && forall j :: 0 <= j < |t.cur| && j != i ==> u.cur[j] == t.cur[j]
    requires u.cur[i] == t.cur[i].(size := if at > s.cur[i].size then at else s.cur[i].size)
    requires forall j, o :: 0 <= j < |t.refs| && 0 <= o < MAXFILE * BSIZE && |t.refs[j]| == NSLOTS &&
                            t.refs[j][SlotOf(o / BSIZE)] != 0 ==>
               FileByte(u.refs[j], u.d, o) == FileByte(t.refs[j], t.d, o)
    ensures Result(sb, s, u, i, src, off)
  {
    hide Bits, Inodes, Tie, Own, FileByte;
    SizesFit(sb, s, -1);
    SizesFit(sb, u, -1);
    forall j | 0 <= j < |s.cur| && j != i ensures File(u, j) == File(s, j) {
      forall o | 0 <= o < u.cur[j].size ensures FileByte(u.refs[j], u.d, o) == FileByte(s.refs[j], s.d, o) {
        BelowSize(u, j, o);
      }
    }
    var f, g := File(s, i), File(u, i);
    forall o | 0 <= o < |g| ensures g[o] == Overwrite(f, off, src)[o] {
      BelowSize(u, i, o);
    }
    assert g == Overwrite(f, off, src);
  }

  ghost predicate Shaped(s: State, i: nat) {
    i < |s.refs| && i < |s.cur| && |s.refs[i]| == NSLOTS && s.cur[i].size <= MAXFILE * BSIZE
  }

  /** A finished write of src at off to the file of i. */
  ghost predicate Result(sb: Super, s: State, t: State, i: nat, src: seq<Byte>, off: nat) {
    && |t.cur| == |s.cur| && Shaped(s, i) && Shaped(t, i) && off <= s.cur[i].size
    && (forall j :: 0 <= j < |s.cur| && j != i ==>
         Shaped(s, j) && Shaped(t, j) && t.cur[j] == s.cur[j] && File(t, j) == File(s, j))
    && t.cur[i] == s.cur[i].(addrs := t.cur[i].addrs, size := t.cur[i].size)
    && File(t, i) == Overwrite(File(s, i), off, src)
  }

  /** b holds one of the blocks of the file of i between offsets off and at. */
  ghost predicate IsData(t: State, i: nat, b: int, off: nat, at: nat) {
    Shaped(t, i) && exists n :: off / BSIZE <= n < CeilBlocks(at) && n < MAXFILE && t.refs[i][SlotOf(n)] == b
  }

  /** What a write has logged: bitmap blocks, the inode, the indirect block and data. */
  ghost predicate Logs(sb: Super, t: State, i: nat, l: set<int>, logged: set<int>, off: nat, at: nat) {
    Shaped(t, i) && forall b :: b in logged ==>
      || b in l || sb.bmapstart <= b < sb.DataStart() || b == sb.InodeBlock(i) || b == t.refs[i][12] != 0
      || (b != 0 && IsData(t, i, b, off, at))
  }

  lemma LogsStart(sb: Super, t: State, i: nat, l: set<int>, off: nat)
    requires Shaped(t, i)
    ensures Logs(sb, t, i, l, l, off, off)
  {}

  lemma SizesFit(sb: Super, s: State, dirty: int)
    requires Good(sb, s, dirty)
    ensures forall i :: 0 <= i < |s.cur| ==> Shaped(s, i)
    ensures |s.refs| == |s.cur| && |s.d| == sb.size
  {}

  lemma LogsGrow(sb: Super, t: State, u: State, i: nat, l: set<int>, lt: set<int>, lu: set<int>, off: nat, at: nat,
      m: nat)
    requires Logs(sb, t, i, l, lt, off, at) && Grew(t, u, i) && Shaped(u, i) && off <= at
    requires 0 < m && at % BSIZE + m <= BSIZE && at + m <= MAXFILE * BSIZE && u.refs[i][SlotOf(at / BSIZE)] != 0
    requires forall b :: b in lu ==>
               b in lt || sb.bmapstart <= b < sb.DataStart() || b == u.refs[i][SlotOf(at / BSIZE)] ||
                   b == u.refs[i][12] != 0
    ensures Logs(sb, u, i, l, lu + {u.refs[i][SlotOf(at / BSIZE)]}, off, at + m)
  {}

  /** Only references and sizes matter to Logs. */
  lemma LogsKept(sb: Super, u: State, v: State, i: nat, l: set<int>, logged: set<int>, off: nat, at: nat)
    requires Logs(sb, u, i, l, logged, off, at) && v.refs == u.refs && Shaped(v, i)
    ensures Logs(sb, v, i, l, logged, off, at)
    ensures Logs(sb, v, i, l, logged + {sb.InodeBlock(i)}, off, at)
  {}

  /** The blocks that one turn of the loop lacks: those of bmap. */
  lemma BlockLacks(sb: Super, t: State, i: nat, at: nat, m: nat)
    requires Good(sb, t, i) && i < |t.refs| && NoHoles(t.refs[i], at) && 0 < m && at % BSIZE + m <= BSIZE &&
             at + m <= MAXFILE * BSIZE
    ensures at / BSIZE < MAXFILE && CeilBlocks(at + m) <= MAXFILE && |t.refs[i]| == NSLOTS
    ensures Lacks(t.refs[i], at / BSIZE) == LacksFor(t.refs[i], CeilBlocks(at), CeilBlocks(at + m))
  {
    hide Good, FreeCount;
    var n := at / BSIZE;
    CeilStep(at, m);
    if at % BSIZE == 0 {
      assert CeilBlocks(at) == n;
      LacksOne(t.refs[i], n);
    } else {
      assert CeilBlocks(at) == n + 1;
      IndirectThere(sb, t, i, n);
      SuppliedNone(t.refs[i], n + 1);
    }
  }

  lemma IndirectThere(sb: Super, t: State, i: nat, n: nat)
    requires Good(sb, t, i) && i < |t.refs| && n < MAXFILE && |t.refs[i]| == NSLOTS && t.refs[i][SlotOf(n)] != 0
    ensures Lacks(t.refs[i], n) == 0
  {
    hide Good;
    SizesFit(sb, t, i);
    RefsAre(sb, t, i, i);
  }

  lemma BlockSupplied(r: seq<int>, t: seq<int>, at: nat, m: nat)
    requires 0 < m && at % BSIZE + m <= BSIZE && at + m <= MAXFILE * BSIZE && NoHoles(r, at)
    requires at / BSIZE < MAXFILE && Supplied(r, t, at / BSIZE, at / BSIZE + 1)
    requires r[SlotOf(at / BSIZE)] != 0 ==> t == r
    ensures Supplied(r, t, CeilBlocks(at), CeilBlocks(at + m))
  {
    CeilStep(at, m);
  }

  /** While a write stays below the size, its blocks are there. */
  lemma MappedBelow(sb: Super, s: State, t: State, i: nat, src: seq<Byte>, off: nat, at: nat, m: nat)
    requires Progress(sb, s, t, i, src, off, at) && 0 < m && at % BSIZE + m <= BSIZE && at + m <= MAXFILE * BSIZE
    ensures at + m <= s.cur[i].size ==> t.refs[i][SlotOf(at / BSIZE)] != 0
  {}

  /** The slots of an inode, read from its copy in memory and its indirect block. */
  lemma RefsAre(sb: Super, s: State, i: nat, dirty: int)
    requires Good(sb, s, dirty) && i < |s.cur|
    ensures Rows(s.refs) && |s.refs| == |s.cur| == sb.ninodes && |s.refs[i]| == NSLOTS && |s.d| == |s.bits| == sb.size
    ensures forall k :: 0 <= k < 13 ==> s.refs[i][k] == s.cur[i].addrs[k]
    ensures forall k :: 0 <= k < NSLOTS && s.refs[i][k] != 0 ==> sb.DataStart() <= s.refs[i][k] < sb.size
    ensures s.refs[i][12] != 0 ==> forall j :: 0 <= j < NINDIRECT ==> s.refs[i][13 + j] == WordAt(s.d[s.refs[i][12]], j)
    ensures s.refs[i][12] == 0 ==> forall k :: 13 <= k < NSLOTS ==> s.refs[i][k] == 0
  {}

  lemma BitsOf(sb: Super, s: State, dirty: int)
    requires Good(sb, s, dirty)
    ensures Bits(s.d, sb, s.bits) && |s.bits| == sb.size <= UINT_LIMIT
  {}

  lemma OwnOf(sb: Super, s: State, dirty: int)
    requires Good(sb, s, dirty)
    ensures Own(s.refs, s.bits, s.owner, sb.DataStart())
  {}

  lemma GrewNothing(sb: Super, s: State, i: nat)
    requires Good(sb, s, i) && i < |s.cur|
    ensures Grew(s, s, i)
  {}

  lemma GrewSlot(s: State, t: State, i: nat, k: nat)
    requires Grew(s, t, i) && k < NSLOTS && s.refs[i][k] != 0
    ensures t.refs[i][k] == s.refs[i][k]
  {}

  lemma InodesWeaken(sb: Super, s: State, i: int)
    requires Good(sb, s, -1)
    ensures Good(sb, s, i)
  {}
}
