/** The buffer cache: NBUF buffers on a doubly linked ring in recency order, over
    a synchronous disk.  `contents` is the plain array of blocks that callers of
    the cache see; `trace` records every block write that reached the disk since the
    boot image `base`. */
module Bio {
  import opened Options
  import opened Blocks

  const NBUF: nat := 30
  const HEAD: nat := NBUF
  const ROOTDEV: nat := 1

  datatype Buf = Buf(dev: nat, blockno: nat, valid: bool, dirty: bool,
                     refcnt: nat, locked: bool, data: Block)

  // ---------------------------------------------------------------------------
  // The ring of buffers

  ghost predicate Link(next: seq<nat>, prev: seq<nat>, x: nat, y: nat) {
    x < |next| && y < |prev| && next[x] == y && prev[y] == x
  }

  /** Consecutive elements of c are linked in both directions. */
  ghost predicate Linked(next: seq<nat>, prev: seq<nat>, c: seq<nat>)
  {
    forall k, m :: 0 <= k < m < |c| && m == k + 1 ==> Link(next, prev, c[k], c[m])
  }

  ghost predicate Distinct(s: seq<nat>) {
    forall i, j :: 0 <= i < j < |s| ==> s[i] != s[j]
  }

  /** From HEAD, next runs through `order` (buffers 0..n, once each) and returns;
      prev runs through it backwards. */
  ghost predicate Ring(next: seq<nat>, prev: seq<nat>, order: seq<nat>, n: nat)
  {
    && |next| == |prev| == NBUF + 1
    && n <= NBUF
    && Distinct(order)
    && (forall b :: b in order <==> 0 <= b < n)
    && Linked(next, prev, [HEAD] + order + [HEAD])
  }

  function Without(order: seq<nat>, k: nat): seq<nat>
    requires k < |order|
  {
    order[..k] + order[k + 1..]
  }

  /** Around the ring only HEAD, at its two ends, is met twice. */
  lemma RingMeetsOnce(order: seq<nat>, i: nat, j: nat)
    requires Distinct(order) && forall k :: 0 <= k < |order| ==> order[k] < NBUF
    requires i < j < |order| + 2 && !(i == 0 && j == |order| + 1)
    ensures ([HEAD] + order + [HEAD])[i] != ([HEAD] + order + [HEAD])[j]
  {}

  /** Unlinking the k-th buffer of the ring closes the ring around it. */
  lemma UnlinkKeepsRing(next: seq<nat>, prev: seq<nat>, order: seq<nat>, k: nat)
    requires Ring(next, prev, order, NBUF) && k < |order|
    ensures order[k] < NBUF && next[order[k]] <= NBUF && prev[order[k]] <= NBUF
    ensures var b := order[k];
            Linked(next[prev[b] := next[b]], prev[next[b] := prev[b]], [HEAD] + Without(order, k) + [HEAD])
  {
    var b := order[k];
    var c, d := [HEAD] + order + [HEAD], [HEAD] + Without(order, k) + [HEAD];
    assert forall i :: 0 <= i < |order| ==> order[i] in order;
    assert c[k + 1] == b && Link(next, prev, c[k], c[k + 1]) && Link(next, prev, c[k + 1], c[k + 2]);
    var p, q := c[k], c[k + 2];
    assert prev[b] == p && next[b] == q;
    forall i, j | 0 <= i < j < |d| && j == i + 1 ensures Link(next[p := q], prev[q := p], d[i], d[j]) {
      if i < k {
        assert d[i] == c[i] && d[j] == c[j];
        RingMeetsOnce(order, i, k);
        RingMeetsOnce(order, j, k + 2);
        LinkElsewhere(next, prev, c[i], c[j], p, q);
      } else if i > k {
        assert d[i] == c[i + 1] && d[j] == c[j + 1];
        RingMeetsOnce(order, k, i + 1);
        RingMeetsOnce(order, k + 2, j + 1);
        LinkElsewhere(next, prev, c[i + 1], c[j + 1], p, q);
      }
    }
  }

  lemma LinkElsewhere(next: seq<nat>, prev: seq<nat>, x: nat, y: nat, p: nat, q: nat)
    requires Link(next, prev, x, y) && x != p && y != q && p < |next| && q < |prev|
    ensures Link(next[p := q], prev[q := p], x, y)
  {}

  /** Inserting an unlinked buffer after HEAD puts it first in the order. */
  lemma PushFrontKeepsRing(next: seq<nat>, prev: seq<nat>, order: seq<nat>, b: nat)
    requires |next| == |prev| == NBUF + 1 && b < NBUF
    requires Linked(next, prev, [HEAD] + order + [HEAD])
    requires Distinct(order) && b !in order && forall i :: 0 <= i < |order| ==> order[i] < NBUF
    ensures next[HEAD] <= NBUF
    ensures Linked(next[b := next[HEAD]][HEAD := b], prev[b := HEAD][next[HEAD] := b], [HEAD] + ([b] + order) + [HEAD])
    ensures Distinct([b] + order)
  {
    var c, d := [HEAD] + order + [HEAD], [HEAD] + ([b] + order) + [HEAD];
    assert Link(next, prev, c[0], c[1]);
    forall i, j | 0 <= i < j < |d| && j == i + 1
      ensures Link(next[b := next[HEAD]][HEAD := b], prev[b := HEAD][next[HEAD] := b], d[i], d[j])
    {
      if i >= 2 {
        assert d[i] == c[i - 1] == order[i - 2] && d[j] == c[j - 1];
        assert Link(next, prev, c[i - 1], c[j - 1]);
        RingMeetsOnce(order, 1, j - 1);
      }
    }
  }

  // ---------------------------------------------------------------------------
  // Identity and coherence

  /** A device and a block number; all buffers start out as (0,0). */
  type Id = (nat, nat)

  const NOBODY: Id := (0, 0)

  function IdOf(b: Buf): Id {
    (b.dev, b.blockno)
  }

  /** `at` finds the buffer of every identity in use, other than the initial one. */
  ghost predicate Indexed(bufs: seq<Buf>, at: map<Id, nat>)
  {
    && (forall i :: 0 <= i < |bufs| ==> IdOf(bufs[i]) == NOBODY || (IdOf(bufs[i]) in at && at[IdOf(bufs[i])] == i))
    && (forall x :: x in at ==> at[x] < |bufs| && IdOf(bufs[at[x]]) == x && x != NOBODY)
  }

  /** No two buffers share an identity, except the initial one. */
  lemma IndexedIsUnique(bufs: seq<Buf>, at: map<Id, nat>, i: nat, j: nat)
    requires Indexed(bufs, at) && i < |bufs| && j < |bufs| && i != j
    ensures IdOf(bufs[i]) == IdOf(bufs[j]) ==> IdOf(bufs[i]) == NOBODY
  {}

  /** A valid buffer holds the current contents of its block; without a pin or a
      lock it agrees with the disk as well. */
  ghost predicate GoodBuf(b: Buf, disk: Disk, contents: Disk, pinned: set<nat>)
  {
    && (b.valid ==> b.dev == ROOTDEV && b.blockno < |disk| && |contents| == |disk| && b.data == contents[b.blockno])
    && (b.valid && !b.dirty && !b.locked ==> b.data == disk[b.blockno])
    && (b.dirty ==> b.valid && b.blockno in pinned)
    && (b.locked ==> b.refcnt > 0)
  }

  ghost predicate HeldBy(bufs: seq<Buf>, at: map<Id, nat>, b: nat) {
    (ROOTDEV, b) in at && at[(ROOTDEV, b)] < |bufs| && bufs[at[(ROOTDEV, b)]].valid
  }

  /** A block that no valid buffer holds is current on disk, and the pinned blocks
      are those of the dirty buffers. */
  ghost predicate Coherent(bufs: seq<Buf>, disk: Disk, contents: Disk, at: map<Id, nat>, pinned: set<nat>)
  {
    && |contents| == |disk|
    && Indexed(bufs, at)
    && (forall i :: 0 <= i < |bufs| ==> GoodBuf(bufs[i], disk, contents, pinned))
    && (forall b :: 0 <= b < |disk| && contents[b] != disk[b] ==> HeldBy(bufs, at, b))
    && (forall b :: b in pinned ==> HeldBy(bufs, at, b) && bufs[at[(ROOTDEV, b)]].dirty)
  }

  predicate Names(b: Buf, dev: nat, blockno: nat) {
    b.dev == dev && b.blockno == blockno
  }

  ghost predicate Idle(bufs: seq<Buf>, dev: nat, blockno: nat) {
    forall i :: 0 <= i < |bufs| && Names(bufs[i], dev, blockno) ==> !bufs[i].locked
  }

  predicate Recyclable(b: Buf) {
    b.refcnt == 0 && !b.dirty
  }

  /** Neither is the block cached nor can a buffer be had for it. */
  ghost predicate NoBuffer(bufs: seq<Buf>, dev: nat, blockno: nat) {
    forall i :: 0 <= i < |bufs| ==> !Names(bufs[i], dev, blockno) && !Recyclable(bufs[i])
  }

  /** What bread makes of the buffer that it finds for a block. */
  ghost predicate Fetched(was: Buf, now: Buf, dev: nat, blockno: nat) {
    || (Names(was, dev, blockno) && now.refcnt == was.refcnt + 1 && now.dirty == was.dirty)
    || (Recyclable(was) && now.refcnt == 1 && !now.dirty)
  }

  class Bcache {
    var disk: Disk
    var bufs: seq<Buf>
    var next: seq<nat>
    var prev: seq<nat>
    ghost const base: Disk
    ghost var order: seq<nat>
    ghost var at: map<Id, nat>
    ghost var contents: Disk
    ghost var pinned: set<nat>
    ghost var trace: seq<Write>

    ghost predicate Valid()
      reads this
    {
      && |bufs| == NBUF
      && Ring(next, prev, order, NBUF)
      && Coherent(bufs, disk, contents, at, pinned)
      && disk == After(base, trace, |trace|)
    }

    /** binit: every buffer starts with identity (0,0) and joins the ring in turn. */
    constructor (image: Disk)
      ensures Valid() && base == disk == contents == image && trace == [] && pinned == {}
      ensures forall i :: 0 <= i < NBUF ==> !bufs[i].valid && bufs[i].refcnt == 0 && !bufs[i].locked
    {
      var zero := seq(BSIZE, _ => 0);
      base, disk := image, image;
      bufs := seq(NBUF, _ => Buf(0, 0, false, false, 0, false, zero));
      var nx: seq<nat> := seq(NBUF + 1, _ => HEAD);
      var pv: seq<nat> := seq(NBUF + 1, _ => HEAD);
      ghost var o: seq<nat> := [];
      var b := 0;
      while b < NBUF
        invariant 0 <= b <= NBUF
        invariant Ring(nx, pv, o, b)
      {
        assert forall i :: 0 <= i < |o| ==> o[i] in o;
        PushFrontKeepsRing(nx, pv, o, b);
        var first := nx[HEAD];
        nx, pv := nx[b := first], pv[b := HEAD];
        pv := pv[first := b];
        nx := nx[HEAD := b];
        o := [b] + o;
        b := b + 1;
      }
      next, prev, order := nx, pv, o;
      at, contents, pinned, trace := map[], image, {}, [];
    }

    /** The part of bget under bcache.lock: a hit takes a reference; a miss recycles
        the least recently used buffer that is neither referenced nor dirty.
        None is the panic, raised exactly when no buffer qualifies. */
    method Bget(dev: nat, blockno: nat) returns (r: Option<nat>)
      requires Valid()
      modifies this
      ensures disk == old(disk) && trace == old(trace) && contents == old(contents) && pinned == old(pinned)
      ensures next == old(next) && prev == old(prev) && order == old(order)
      ensures r.None? <==> NoBuffer(old(bufs), dev, blockno)
      ensures r.None? ==> bufs == old(bufs)
      ensures r.Some? ==> Valid() && r.value < NBUF
      ensures r.Some? && (exists i :: 0 <= i < NBUF && Names(old(bufs)[i], dev, blockno)) ==>
                var was := old(bufs)[r.value];
                Names(was, dev, blockno) && bufs == old(bufs)[r.value := was.(refcnt := was.refcnt + 1)]
      ensures r.Some? && (forall i :: 0 <= i < NBUF ==> !Names(old(bufs)[i], dev, blockno)) ==>
                var was := old(bufs)[r.value];
                && Recyclable(was)
                && bufs == old(bufs)[r.value := was.(dev := dev, blockno := blockno, valid := false, dirty := false,
                     refcnt := 1)]
                && exists k :: 0 <= k < |order| && order[k] == r.value &&
                     forall m :: k < m < |order| ==> order[m] < NBUF && !Recyclable(old(bufs)[order[m]])
    {
      hide Ring, After;
      r := FindCached(dev, blockno);
      if r.Some? {
        var b := r.value;
        bufs := bufs[b := bufs[b].(refcnt := bufs[b].refcnt + 1)];
        return;
      }
      r := FindVictim();
      if r.Some? {
        var b := r.value;
        at := RecycleKeepsCoherence(bufs, disk, contents, at, pinned, b, dev, blockno);
        bufs := bufs[b := bufs[b].(dev := dev, blockno := blockno, valid := false, dirty := false, refcnt := 1)];
      }
    }

    /** bget's first loop, from the most recently used buffer on. */
    method FindCached(dev: nat, blockno: nat) returns (r: Option<nat>)
      requires |bufs| == NBUF && Ring(next, prev, order, NBUF)
      ensures r.None? <==> forall i :: 0 <= i < NBUF ==> !Names(bufs[i], dev, blockno)
      ensures r.Some? ==> r.value < NBUF && Names(bufs[r.value], dev, blockno)
    {
      ghost var c := [HEAD] + order + [HEAD];
      assert forall i :: 0 <= i < |order| ==> order[i] in order;
      var b := next[HEAD];
      assert c[0] == HEAD && b == c[1];
      ghost var k := 0;
      while b != HEAD
        invariant 0 <= k <= |order| && b == c[k + 1]
        invariant forall m :: 0 <= m < k ==> !Names(bufs[order[m]], dev, blockno)
        decreases |order| - k
      {
        assert b == order[k];
        if Names(bufs[b], dev, blockno) {
          return Some(b);
        }
        b := next[b];
        k := k + 1;
      }
      forall i | 0 <= i < NBUF ensures !Names(bufs[i], dev, blockno) { assert i in order; }
      return None;
    }

    /** bget's second loop, from the least recently used buffer on. */
    method FindVictim() returns (r: Option<nat>)
      requires |bufs| == NBUF && Ring(next, prev, order, NBUF)
      ensures r.None? <==> forall i :: 0 <= i < NBUF ==> !Recyclable(bufs[i])
      ensures r.Some? ==> r.value < NBUF && Recyclable(bufs[r.value])
      ensures r.Some? ==> exists k :: 0 <= k < |order| && order[k] == r.value &&
                            forall m :: k < m < |order| ==> order[m] < NBUF && !Recyclable(bufs[order[m]])
    {
      ghost var c := [HEAD] + order + [HEAD];
      assert forall i :: 0 <= i < |order| ==> order[i] in order;
      var b := prev[HEAD];
      assert c[|c| - 1] == HEAD && b == c[|c| - 2];
      ghost var k := |order|;
      while b != HEAD
        invariant 0 <= k <= |order| && b == c[k]
        invariant forall m :: k <= m < |order| ==> !Recyclable(bufs[order[m]])
        decreases k
      {
        assert b == order[k - 1];
        if Recyclable(bufs[b]) {
          return Some(b);
        }
        b := prev[b];
        k := k - 1;
      }
      forall i | 0 <= i < NBUF ensures !Recyclable(bufs[i]) { assert i in order; }
      return None;
    }

    /** acquiresleep on the buffer's lock, at the moment it succeeds. */
    method Acquire(i: nat)
      requires Valid() && i < NBUF && bufs[i].refcnt > 0 && !bufs[i].locked
      modifies this
      ensures Valid() && disk == old(disk) && trace == old(trace) && contents == old(contents) && pinned == old(pinned)
      ensures next == old(next) && prev == old(prev) && order == old(order)
      ensures bufs == old(bufs)[i := old(bufs)[i].(locked := true)]
    {
      bufs := bufs[i := bufs[i].(locked := true)];
    }

    /** iderw: a dirty buffer is written out, an invalid one is read in.  The result
        is false for the panics on a wrong device or a block beyond the disk. */
    method Iderw(i: nat) returns (ok: bool)
      requires Valid() && i < NBUF && bufs[i].locked
      requires !bufs[i].valid || bufs[i].dirty
      modifies this
      ensures next == old(next) && prev == old(prev) && order == old(order) && contents == old(contents)
      ensures ok <==> old(bufs)[i].dev == ROOTDEV && old(bufs)[i].blockno < |old(disk)|
      ensures !ok ==> bufs == old(bufs) && disk == old(disk) && trace == old(trace) && pinned == old(pinned)
      ensures ok ==> Valid()
      ensures ok && old(bufs)[i].dirty ==>
                var was := old(bufs)[i];
                && disk == old(disk)[was.blockno := was.data]
                && trace == old(trace) + [Write(was.blockno, was.data)]
                && bufs == old(bufs)[i := was.(dirty := false)]
                && pinned == old(pinned) - {was.blockno}
      ensures ok && !old(bufs)[i].dirty ==>
                var was := old(bufs)[i];
                && disk == old(disk) && trace == old(trace) && pinned == old(pinned)
                && bufs == old(bufs)[i := was.(valid := true, data := contents[was.blockno])]
    {
      hide Ring, After, Coherent;
      var b := bufs[i];
      if b.dev != ROOTDEV || b.blockno >= |disk| {
        return false;
      }
      if b.dirty {
        WriteKeepsCoherence(bufs, disk, contents, at, pinned, i);
        AfterOne(base, trace, Write(b.blockno, b.data));
        disk := disk[b.blockno := b.data];
        trace := trace + [Write(b.blockno, b.data)];
        bufs := bufs[i := b.(dirty := false)];
        pinned := pinned - {b.blockno};
      } else {
        ReadKeepsCoherence(bufs, disk, contents, at, pinned, i);
        bufs := bufs[i := b.(valid := true, data := disk[b.blockno])];
      }
      return true;
    }

    /** bread, run by a caller that finds the block's lock free: the buffer comes
        back locked and holds the block's current contents, whatever was evicted.  None is
        a panic, of bget without a buffer or of iderw about the device or the block. */
    method Bread(dev: nat, blockno: nat) returns (r: Option<nat>)
      requires Valid() && Idle(bufs, dev, blockno)
      modifies this
      ensures disk == old(disk) && trace == old(trace) && contents == old(contents) && pinned == old(pinned)
      ensures r.None? <==> NoBuffer(old(bufs), dev, blockno) || dev != ROOTDEV || blockno >= |disk|
      ensures r.Some? ==>
                && Valid() && r.value < NBUF
                && Names(bufs[r.value], dev, blockno) && bufs[r.value].valid && bufs[r.value].locked
                && bufs[r.value].data == contents[blockno]
                && (bufs[r.value].dirty <==> blockno in pinned)
                && !old(bufs)[r.value].locked && Fetched(old(bufs)[r.value], bufs[r.value], dev, blockno)
      ensures r.Some? ==> forall j :: 0 <= j < NBUF && j != r.value ==> bufs[j] == old(bufs)[j]
    {
      hide Ring, After, Coherent, NoBuffer;
      LockedIsHeld();
      r := Bget(dev, blockno);
      if r.None? {
        return;
      }
      var i := r.value;
      Acquire(i);
      GoodAt(i);
      if !bufs[i].valid {
        var ok := Iderw(i);
        if !ok {
          return None;
        }
        GoodAt(i);
      }
    }

    lemma BootRests()
      requires Valid() && pinned == {} && forall i :: 0 <= i < NBUF ==> bufs[i].refcnt == 0
      ensures forall i :: 0 <= i < NBUF ==> Recyclable(bufs[i])
    {}

    lemma LockedIsHeld()
      requires Valid()
      ensures forall i :: 0 <= i < NBUF && bufs[i].locked ==> bufs[i].refcnt > 0
    {}

    lemma GoodAt(i: nat)
      requires Valid() && i < NBUF
      ensures GoodBuf(bufs[i], disk, contents, pinned) && |contents| == |disk|
      ensures bufs[i].valid && bufs[i].blockno in pinned ==> bufs[i].dirty
    {}

    /** The holder of a buffer overwrites its data. */
    method Modify(i: nat, data: Block)
      requires Valid() && i < NBUF && bufs[i].locked && bufs[i].valid
      modifies this
      ensures Valid() && disk == old(disk) && trace == old(trace) && pinned == old(pinned)
      ensures next == old(next) && prev == old(prev) && order == old(order)
      ensures contents == old(contents)[old(bufs)[i].blockno := data]
      ensures bufs == old(bufs)[i := old(bufs)[i].(data := data)]
    {
      contents := contents[bufs[i].blockno := data];
      bufs := bufs[i := bufs[i].(data := data)];
    }

    /** Sets B_DIRTY: the buffer cannot be recycled until it is written. */
    method Pin(i: nat)
      requires Valid() && i < NBUF && bufs[i].locked && bufs[i].valid
      modifies this
      ensures Valid() && disk == old(disk) && trace == old(trace) && contents == old(contents)
      ensures next == old(next) && prev == old(prev) && order == old(order)
      ensures bufs == old(bufs)[i := old(bufs)[i].(dirty := true)]
      ensures pinned == old(pinned) + {old(bufs)[i].blockno}
    {
      pinned := pinned + {bufs[i].blockno};
      bufs := bufs[i := bufs[i].(dirty := true)];
    }

    /** bwrite: the block on disk becomes the buffer's data and the pin is dropped. */
    method Bwrite(i: nat)
      requires Valid() && i < NBUF && bufs[i].locked && bufs[i].valid
      modifies this
      ensures Valid() && contents == old(contents)
      ensures var was := old(bufs)[i];
              && was.blockno < |old(disk)|
              && disk == old(disk)[was.blockno := was.data]
              && trace == old(trace) + [Write(was.blockno, was.data)]
              && bufs == old(bufs)[i := was.(dirty := false)]
              && pinned == old(pinned) - {was.blockno}
    {
      Pin(i);
      var ok := Iderw(i);
      assert bufs == old(bufs)[i := old(bufs)[i].(dirty := false)];
    }

    /** brelse: unlocks, drops the reference, and moves an unreferenced buffer to the
        front of the ring.  The caller must have written or logged any change. */
    method Brelse(i: nat)
      requires Valid() && i < NBUF && bufs[i].locked && bufs[i].valid
      requires bufs[i].dirty || bufs[i].data == disk[bufs[i].blockno]
      modifies this
      ensures Valid() && disk == old(disk) && trace == old(trace) && contents == old(contents) && pinned == old(pinned)
      ensures bufs == old(bufs)[i := old(bufs)[i].(locked := false, refcnt := old(bufs)[i].refcnt - 1)]
      ensures bufs[i].refcnt > 0 ==> order == old(order)
      ensures bufs[i].refcnt == 0 ==>
                exists k :: 0 <= k < |old(order)| && old(order)[k] == i && order == [i] + Without(old(order), k)
    {
      bufs := bufs[i := bufs[i].(locked := false, refcnt := bufs[i].refcnt - 1)];
      if bufs[i].refcnt == 0 {
        ToFront(i);
      }
    }

    /** The list surgery at the end of brelse. */
    method ToFront(i: nat)
      requires Ring(next, prev, order, NBUF) && i < NBUF
      modifies this`next, this`prev, this`order
      ensures Ring(next, prev, order, NBUF)
      ensures exists k :: 0 <= k < |old(order)| && old(order)[k] == i && order == [i] + Without(old(order), k)
    {
      assert i in order;
      ghost var k :| 0 <= k < |order| && order[k] == i;
      UnlinkKeepsRing(next, prev, order, k);
      LinksDiffer(next, prev, order, k);
      MoveToFront(order, k);
      prev := prev[next[i] := prev[i]];
      next := next[prev[i] := next[i]];
      PushFrontKeepsRing(next, prev, Without(order, k), i);
      var first := next[HEAD];
      next := next[i := first];
      prev := prev[i := HEAD];
      prev := prev[first := i];
      next := next[HEAD := i];
      order := [i] + Without(order, k);
    }
  }

  /** Recycling a clean, unreferenced buffer loses nothing that is not on disk. */
  lemma RecycleKeepsCoherence(bufs: seq<Buf>, disk: Disk, contents: Disk, at: map<Id, nat>, pinned: set<nat>,
                              i: nat, dev: nat, blockno: nat)
    returns (at': map<Id, nat>)
    requires i < |bufs| && Coherent(bufs, disk, contents, at, pinned) && Recyclable(bufs[i])
    requires forall j :: 0 <= j < |bufs| ==> !Names(bufs[j], dev, blockno)
    ensures Coherent(bufs[i := bufs[i].(dev := dev, blockno := blockno, valid := false, dirty := false, refcnt := 1)],
                     disk, contents, at', pinned)
  {
    var id: Id := (dev, blockno);
    var rest := at - {IdOf(bufs[i])};
    at' := if id == NOBODY then rest else rest[id := i];
    assert id !in at;
  }

  /** Writing a dirty buffer out leaves it and the disk equal. */
  lemma WriteKeepsCoherence(bufs: seq<Buf>, disk: Disk, contents: Disk, at: map<Id, nat>, pinned: set<nat>, i: nat)
    requires i < |bufs| && Coherent(bufs, disk, contents, at, pinned) && bufs[i].dirty && bufs[i].blockno < |disk|
    ensures Coherent(bufs[i := bufs[i].(dirty := false)], disk[bufs[i].blockno := bufs[i].data], contents, at,
            pinned - {bufs[i].blockno})
  {
    assert GoodBuf(bufs[i], disk, contents, pinned);
    assert IdOf(bufs[i]) in at && at[IdOf(bufs[i])] == i;
    forall b | b in pinned - {bufs[i].blockno} ensures at[(ROOTDEV, b)] != i {
      assert HeldBy(bufs, at, b);
    }
  }

  /** Reading a block that no valid buffer holds gives its contents. */
  lemma ReadKeepsCoherence(bufs: seq<Buf>, disk: Disk, contents: Disk, at: map<Id, nat>, pinned: set<nat>, i: nat)
    requires i < |bufs| && Coherent(bufs, disk, contents, at, pinned) && !bufs[i].valid && bufs[i].dev == ROOTDEV &&
             bufs[i].blockno < |disk|
    ensures disk[bufs[i].blockno] == contents[bufs[i].blockno]
    ensures Coherent(bufs[i := bufs[i].(valid := true, data := disk[bufs[i].blockno])], disk, contents, at, pinned)
  {
    assert GoodBuf(bufs[i], disk, contents, pinned);
    assert IdOf(bufs[i]) in at && at[IdOf(bufs[i])] == i;
    assert !HeldBy(bufs, at, bufs[i].blockno);
  }

  // ---------------------------------------------------------------------------
  // Small facts used above

  /** A ring with at least two buffers never makes a buffer its own neighbour. */
  lemma LinksDiffer(next: seq<nat>, prev: seq<nat>, order: seq<nat>, k: nat)
    requires Ring(next, prev, order, NBUF) && k < |order|
    ensures order[k] < NBUF && next[order[k]] != order[k] && prev[order[k]] != order[k]
  {
    var c := [HEAD] + order + [HEAD];
    assert forall i :: 0 <= i < |order| ==> order[i] in order;
    assert c[k + 1] == order[k] && c[k + 2] == next[order[k]] && c[k] == prev[order[k]];
  }

  lemma MoveToFront(order: seq<nat>, k: nat)
    requires Distinct(order) && k < |order| && forall b :: b in order <==> 0 <= b < NBUF
    ensures Distinct(Without(order, k)) && order[k] !in Without(order, k)
    ensures forall i :: 0 <= i < |Without(order, k)| ==> Without(order, k)[i] < NBUF
    ensures forall b :: b in [order[k]] + Without(order, k) <==> 0 <= b < NBUF
  {
    var w := Without(order, k);
    assert forall i :: 0 <= i < |w| ==> w[i] == order[if i < k then i else i + 1];
    assert forall i :: 0 <= i < |w| ==> w[i] in order;
    assert order[k] in order;
    forall b | 0 <= b < NBUF ensures b in [order[k]] + w {
      assert b in order;
      var j :| 0 <= j < |order| && order[j] == b;
      if j != k {
        assert w[if j < k then j else j - 1] == b;
      }
    }
  }
}
