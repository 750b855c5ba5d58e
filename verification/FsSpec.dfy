/** Who owns each disk block, and what the bytes of a file are. */
module FsSpec {
  import opened Types
  import opened Blocks
  import opened FsLayout

  /** A place that can refer to a block: k below 13 is addrs[k] of an inode (12 being the
      indirect block), and k from 13 on is entry k - 13 of its indirect block. */
  datatype Slot = Slot(inum: nat, k: nat)

  const NSLOTS: nat := 141

  /** What every slot of every inode refers to, with 0 for nothing. */
  type Refs = seq<seq<int>>

  ghost predicate Rows(refs: Refs) {
    forall i :: 0 <= i < |refs| ==> |refs[i]| == NSLOTS
  }

  /** Every set bit is a metadata block (below lo) or is owned by exactly one slot, and a
      slot owns what it refers to. That owner is a map makes the owner unique. */
  ghost predicate Own(refs: Refs, bits: seq<bool>, owner: map<int, Slot>, lo: nat) {
    && Rows(refs) && 0 < lo <= |bits|
    && (forall i, k :: 0 <= i < |refs| && 0 <= k < NSLOTS && refs[i][k] != 0 ==>
          refs[i][k] in owner && owner[refs[i][k]] == Slot(i, k))
    && (forall b :: b in owner ==>
          lo <= b < |bits| && owner[b].inum < |refs| && owner[b].k < NSLOTS && refs[owner[b].inum][owner[b].k] == b)
    && (forall b :: 0 <= b < |bits| ==> (bits[b] <==> b < lo || b in owner))
  }

  function SetRef(refs: Refs, i: nat, k: nat, b: int): Refs
    requires i < |refs| && k < |refs[i]|
  {
    refs[i := refs[i][k := b]]
  }

  /** Giving a free block to an empty slot. */
  lemma TakeKeepsOwn(refs: Refs, bits: seq<bool>, owner: map<int, Slot>, lo: nat, i: nat, k: nat, b: nat)
    requires Own(refs, bits, owner, lo) && i < |refs| && k < NSLOTS && refs[i][k] == 0 && b < |bits| && !bits[b]
    ensures Own(SetRef(refs, i, k, b), bits[b := true], owner[b := Slot(i, k)], lo)
  {}

  /** Freeing what a slot refers to. */
  lemma DropKeepsOwn(refs: Refs, bits: seq<bool>, owner: map<int, Slot>, lo: nat, i: nat, k: nat)
    requires Own(refs, bits, owner, lo) && i < |refs| && k < NSLOTS && refs[i][k] != 0
    ensures Own(SetRef(refs, i, k, 0), bits[refs[i][k] := false], owner - {refs[i][k]}, lo)
    ensures lo <= refs[i][k] < |bits| && bits[refs[i][k]]
  {}

  /** No two slots refer to the same block. */
  lemma OwnersDiffer(refs: Refs, bits: seq<bool>, owner: map<int, Slot>, lo: nat, i: nat, k: nat, j: nat, m: nat)
    requires Own(refs, bits, owner, lo) && i < |refs| && k < NSLOTS && j < |refs| && m < NSLOTS
    requires refs[i][k] != 0 && refs[i][k] == refs[j][m]
    ensures i == j && k == m
  {}

  // ---------------------------------------------------------------------------
  // Slots as the inodes and the indirect blocks hold them

  function Ref(n: Dinode, d: Disk, k: nat): nat
    requires k < NSLOTS
  {
    if k < 13 then n.addrs[k]
    else if 0 < n.addrs[12] < |d| then WordAt(d[n.addrs[12]], k - 13)
    else 0
  }

  ghost predicate RowIs(row: seq<int>, n: Dinode, d: Disk) {
    |row| == NSLOTS && forall k :: 0 <= k < NSLOTS ==> row[k] == Ref(n, d, k)
  }

  ghost predicate Tie(refs: Refs, cur: seq<Dinode>, d: Disk) {
    |refs| == |cur| && forall i :: 0 <= i < |refs| ==> RowIs(refs[i], cur[i], d)
  }

  /** A block that is nobody's indirect block may change without any slot changing. */
  lemma WriteKeepsTie(refs: Refs, cur: seq<Dinode>, d: Disk, b: nat, x: Block)
    requires Tie(refs, cur, d) && b < |d| && forall i :: 0 <= i < |refs| ==> refs[i][12] != b || b == 0
    ensures Tie(refs, cur, d[b := x])
  {}

  /** Setting addrs[k], for a direct block. */
  lemma AddrKeepsTie(refs: Refs, cur: seq<Dinode>, d: Disk, i: nat, k: nat, b: Word)
    requires Tie(refs, cur, d) && i < |refs| && k < 12
    ensures Tie(SetRef(refs, i, k, b), cur[i := cur[i].(addrs := cur[i].addrs[k := b])], d)
  {}

  /** Setting the indirect block to one that holds zeroes, or to none. */
  lemma IndirectKeepsTie(refs: Refs, cur: seq<Dinode>, d: Disk, i: nat, b: Word)
    requires Tie(refs, cur, d) && i < |refs| && (0 < b < |d| ==> forall j :: 0 <= j < NWORDS ==> WordAt(d[b], j) == 0)
    requires forall k :: 13 <= k < NSLOTS ==> refs[i][k] == 0
    ensures Tie(SetRef(refs, i, 12, b), cur[i := cur[i].(addrs := cur[i].addrs[12 := b])], d)
  {}

  /** Setting an entry of the indirect block. */
  lemma EntryKeepsTie(refs: Refs, cur: seq<Dinode>, d: Disk, i: nat, j: nat, b: Word)
    requires Tie(refs, cur, d) && i < |refs| && j < NWORDS && 0 < refs[i][12] < |d|
    requires forall m :: 0 <= m < |refs| && m != i ==> refs[m][12] != refs[i][12]
    ensures var x := refs[i][12]; Tie(SetRef(refs, i, 13 + j, b), cur, d[x := PutWord(d[x], j, b)])
  {
    hide WordAt, PutWord;
    var x := refs[i][12];
    var d1 := d[x := PutWord(d[x], j, b)];
    forall m | 0 <= m < |refs| ensures RowIs(SetRef(refs, i, 13 + j, b)[m], cur[m], d1) {
      assert RowIs(refs[m], cur[m], d);
      assert refs[m][12] == Ref(cur[m], d, 12);
      if m == i {
        forall k | 0 <= k < NSLOTS ensures refs[i][13 + j := b][k] == Ref(cur[i], d1, k) {
          if k >= 13 {
            WordOfPutWord(d[x], j, b, k - 13);
          }
        }
      }
    }
  }

  // ---------------------------------------------------------------------------
  // Files

  /** The slot of the n-th block of a file. */
  function SlotOf(n: nat): nat {
    if n < NDIRECT then n else n + 1
  }

  function CeilBlocks(size: nat): nat {
    (size + BSIZE - 1) / BSIZE
  }

  /** Every block of the file below its size is there. */
  ghost predicate NoHoles(row: seq<int>, size: nat) {
    |row| == NSLOTS && size <= MAXFILE * BSIZE && forall n :: 0 <= n < CeilBlocks(size) ==> row[SlotOf(n)] != 0
  }

  /** The byte at offset o of a file. */
  function FileByte(row: seq<int>, d: Disk, o: nat): Byte
    requires |row| == NSLOTS && o < MAXFILE * BSIZE
  {
    var b := row[SlotOf(o / BSIZE)];
    if 0 <= b < |d| then d[b][o % BSIZE] else 0
  }

  /** All inodes have their blocks, and a free one has nothing. */
  ghost predicate Whole(refs: Refs, cur: seq<Dinode>) {
    && |refs| == |cur|
    && (forall i :: 0 <= i < |refs| ==> NoHoles(refs[i], cur[i].size))
    && (forall i, k :: 0 <= i < |refs| && cur[i].typ == 0 && 0 <= k < NSLOTS ==> refs[i][k] == 0)
  }

  // ---------------------------------------------------------------------------
  // Free blocks, and blocks that a file lacks

  /** The number of clear bits. */
  ghost function FreeCount(bits: seq<bool>): nat {
    if bits == [] then 0 else FreeCount(bits[..|bits| - 1]) + if bits[|bits| - 1] then 0 else 1
  }

  lemma {:induction false} FreeCountZero(bits: seq<bool>)
    ensures FreeCount(bits) == 0 <==> forall c :: 0 <= c < |bits| ==> bits[c]
    decreases |bits|
  {
    if bits != [] {
      FreeCountZero(bits[..|bits| - 1]);
    }
  }

  lemma {:induction false} FreeCountTake(bits: seq<bool>, b: nat)
    requires b < |bits| && !bits[b]
    ensures FreeCount(bits[b := true]) == FreeCount(bits) - 1
    decreases |bits|
  {
    var n := |bits| - 1;
    if b == n {
      assert bits[b := true][..n] == bits[..n];
    } else {
      FreeCountTake(bits[..n], b);
      assert bits[b := true][..n] == bits[..n][b := true];
    }
  }

  /** The blocks that a row lacks for block n of the file, an indirect block included. */
  ghost function Lacks(row: seq<int>, n: nat): nat
    requires |row| == NSLOTS && n < MAXFILE
  {
    (if n >= NDIRECT && row[12] == 0 then 1 else 0) + if row[SlotOf(n)] == 0 then 1 else 0
  }

  /** The blocks from lo to hi that are not there. */
  ghost function Holes(row: seq<int>, lo: nat, hi: nat): nat
    requires |row| == NSLOTS && hi <= MAXFILE
  {
    if hi <= lo then 0 else Holes(row, lo, hi - 1) + if row[SlotOf(hi - 1)] == 0 then 1 else 0
  }

  /** The blocks that a row lacks for blocks lo to hi of the file. */
  ghost function LacksFor(row: seq<int>, lo: nat, hi: nat): nat
    requires |row| == NSLOTS && hi <= MAXFILE
  {
    Holes(row, lo, hi) + if lo < hi && NDIRECT < hi && row[12] == 0 then 1 else 0
  }

  /** Blocks lo to hi have been asked for, and no others. */
  ghost predicate Supplied(r: seq<int>, t: seq<int>, lo: nat, hi: nat) {
    && |r| == |t| == NSLOTS && (t[12] != 0 <==> r[12] != 0 || (lo < hi && NDIRECT < hi))
    && forall n :: 0 <= n < MAXFILE && !(lo <= n < hi) ==> t[SlotOf(n)] == r[SlotOf(n)]
  }

  lemma LacksOne(row: seq<int>, n: nat)
    requires |row| == NSLOTS && n < MAXFILE
    ensures LacksFor(row, n, n + 1) == Lacks(row, n)
  {
    assert Holes(row, n, n) == 0;
  }

  lemma {:induction false} HolesSame(r: seq<int>, t: seq<int>, lo: nat, mid: nat, hi: nat)
    requires Supplied(r, t, lo, mid) && lo <= mid <= hi <= MAXFILE
    ensures Holes(r, lo, hi) == Holes(r, lo, mid) + Holes(t, mid, hi)
    decreases hi
  {
    if mid < hi {
      HolesSame(r, t, lo, mid, hi - 1);
    }
  }

  /** What is still lacking after a part has been supplied. */
  lemma LacksRest(r: seq<int>, t: seq<int>, lo: nat, mid: nat, hi: nat)
    requires Supplied(r, t, lo, mid) && lo <= mid <= hi <= MAXFILE
    ensures LacksFor(r, lo, hi) == LacksFor(r, lo, mid) + LacksFor(t, mid, hi)
  {
    HolesSame(r, t, lo, mid, hi);
  }

  lemma SuppliedNone(r: seq<int>, lo: nat)
    requires |r| == NSLOTS
    ensures Supplied(r, r, lo, lo) && (lo <= MAXFILE ==> LacksFor(r, lo, lo) == 0)
  {}

  lemma SuppliedMore(r: seq<int>, t: seq<int>, u: seq<int>, lo: nat, mid: nat, hi: nat)
    requires Supplied(r, t, lo, mid) && Supplied(t, u, mid, hi) && lo <= mid <= hi
    ensures Supplied(r, u, lo, hi)
  {}

  lemma {:induction false} LacksGrow(r: seq<int>, lo: nat, mid: nat, hi: nat)
    requires |r| == NSLOTS && lo <= mid <= hi <= MAXFILE
    ensures LacksFor(r, lo, mid) <= LacksFor(r, lo, hi)
    decreases hi
  {
    if mid < hi {
      LacksGrow(r, lo, mid, hi - 1);
    }
  }
}
