/** Disk blocks as bytes, the little-endian words stored in them, and sequences
    of atomic block writes.  Everything above the disk driver shares these. */
module Blocks {
  import opened Types

  const BSIZE: nat := 512
  const NWORDS: nat := 128

  type Block = b: seq<Byte> | |b| == BSIZE witness seq(BSIZE, _ => 0)

  /** The i-th 32-bit word of a block, least significant byte first. */
  function WordAt(b: Block, i: nat): Word
    requires i < NWORDS
  {
    var b0: int, b1: int, b2: int, b3: int := b[4 * i], b[4 * i + 1], b[4 * i + 2], b[4 * i + 3];
    b0 + 256 * b1 + 65536 * b2 + 16777216 * b3
  }

  /** Stores a 32-bit word, leaving every other byte alone. */
  function PutWord(b: Block, i: nat, w: Word): Block
    requires i < NWORDS
  {
    b[4 * i := w % 256][4 * i + 1 := w / 256 % 256][4 * i + 2 := w / 65536 % 256][4 * i + 3 := w / 16777216]
  }

  lemma WordOfPutWord(b: Block, i: nat, w: Word, j: nat)
    requires i < NWORDS && j < NWORDS
    ensures WordAt(PutWord(b, i, w), j) == if i == j then w else WordAt(b, j)
  {
    if i == j {
      BytesOfWord(w);
    }
  }

  lemma BytesOfWord(w: Word)
    ensures w == w % 256 + 256 * (w / 256 % 256) + 65536 * (w / 65536 % 256) + 16777216 * (w / 16777216)
  {}

  /** One atomic write of a whole block. */
  datatype Write = Write(block: nat, data: Block)

  type Disk = seq<Block>

  /** The disk after the first k of a list of writes. */
  function After(d: Disk, ws: seq<Write>, k: nat): (r: Disk)
    requires k <= |ws|
    ensures |r| == |d|
  {
    if k == 0 then d
    else
      var r := After(d, ws, k - 1);
      if ws[k - 1].block < |d| then r[ws[k - 1].block := ws[k - 1].data] else r
  }

  lemma {:induction false} AfterPrefix(d: Disk, a: seq<Write>, b: seq<Write>, k: nat)
    requires k <= |a| && k <= |b| && forall i :: 0 <= i < k ==> a[i] == b[i]
    ensures After(d, a, k) == After(d, b, k)
  {
    if k > 0 {
      AfterPrefix(d, a, b, k - 1);
    }
  }

  /** The writes of ws from the m-th on are those of b. */
  lemma {:induction false} AfterShift(d: Disk, ws: seq<Write>, m: nat, b: seq<Write>, k: nat)
    requires m + k <= |ws| && k <= |b| && forall i :: m <= i < m + k ==> ws[i] == b[i - m]
    ensures After(d, ws, m + k) == After(After(d, ws, m), b, k)
  {
    if k > 0 {
      AfterShift(d, ws, m, b, k - 1);
    }
  }

  /** Recording one more write. */
  lemma AfterOne(d: Disk, ws: seq<Write>, w: Write)
    requires w.block < |d|
    ensures After(d, ws + [w], |ws| + 1) == After(d, ws, |ws|)[w.block := w.data]
  {
    AfterPrefix(d, ws + [w], ws, |ws|);
  }

  /** The trace t is t0 followed by the first k writes of ws. */
  ghost predicate Extends(t0: seq<Write>, ws: seq<Write>, k: nat, t: seq<Write>)
  {
    && |t| == |t0| + k && k <= |ws|
    && (forall i :: 0 <= i < |t0| ==> t[i] == t0[i])
    && (forall i :: |t0| <= i < |t| ==> t[i] == ws[i - |t0|])
  }

  lemma ExtendsStep(t0: seq<Write>, ws: seq<Write>, k: nat, t: seq<Write>)
    requires Extends(t0, ws, k, t) && k < |ws|
    ensures Extends(t0, ws, k + 1, t + [ws[k]])
  {}

  lemma ExtendsAfter(base: Disk, t0: seq<Write>, ws: seq<Write>, k: nat, t: seq<Write>)
    requires Extends(t0, ws, k, t)
    ensures After(base, t, |t|) == After(After(base, t0, |t0|), ws, k)
  {
    hide After;
    AfterPrefix(base, t, t0, |t0|);
    AfterShift(base, t, |t0|, ws, k);
  }

  /** A block that no write names keeps its contents. */
  lemma {:induction false} AfterFrame(d: Disk, ws: seq<Write>, k: nat, b: nat)
    requires k <= |ws| && b < |d|
    requires forall i :: 0 <= i < k ==> ws[i].block != b
    ensures After(d, ws, k)[b] == d[b]
  {
    if k > 0 {
      AfterFrame(d, ws, k - 1, b);
    }
  }

  /** A block ends up with the data of the last write that names it. */
  lemma {:induction false} AfterLast(d: Disk, ws: seq<Write>, k: nat, i: nat)
    requires i < k <= |ws| && ws[i].block < |d|
    requires forall j :: i < j < k ==> ws[j].block != ws[i].block
    ensures After(d, ws, k)[ws[i].block] == ws[i].data
  {
    if i < k - 1 {
      AfterLast(d, ws, k - 1, i);
    }
  }
}
