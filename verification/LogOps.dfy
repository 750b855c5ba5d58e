/** Operations on the log: a block is read, changed, logged and released, within the
    reservation of an operation. */
module LogOps {
  import opened Options
  import opened Types
  import opened Blocks
  import opened Bio
  import opened LogSpec
  import opened L = Log

  /** So many different blocks an operation may change without a panic of log_write. */
  const SAFE: nat := MAXOPBLOCKS - 2

  /** An operation that has logged at most eight blocks meets no panic of log_write, in the
      log of LOGSIZE blocks that mkfs lays out. */
  lemma ShareLeft(n: nat, ops: Ops, outstanding: nat, committing: bool, sleepers: set<nat>, o: nat)
    requires Reserved(n, ops, outstanding, committing, sleepers) && o < |ops| && ops[o].Some?
    requires ops[o].value <= SAFE
    ensures n + 2 <= LOGSIZE
  {
    LiveHasShare(ops, o);
  }

  /** With no buffer in use, bread finds one for a block as long as not all are logged. */
  lemma FindsBuffer(log: Log, b: nat)
    requires log.Valid() && AtRest(log.bc.bufs) && log.lhn < NBUF
    ensures !NoBuffer(log.bc.bufs, ROOTDEV, b) && Idle(log.bc.bufs, ROOTDEV, b)
  {
    hide Ring, After;
    log.bc.LockedIsHeld();
    if NoBuffer(log.bc.bufs, ROOTDEV, b) {
      AllDirty(log.bc.bufs, log.bc.disk, log.bc.contents, log.bc.at, log.bc.pinned, log.Blocks());
    }
  }

  /** bread, a change, log_write and brelse, as an operation makes its changes. False is the
      panic of log_write, or that of bread when every buffer is logged. */
  method UpdateBlock(log: Log, ghost o: nat, b: nat, f: Block -> Block) returns (ok: bool)
    requires log.Valid() && AtRest(log.bc.bufs) && log.lay.Home(|log.bc.disk|, b)
    requires o < |log.ops| && log.ops[o].Some? && (b in log.Blocks() || log.ops[o].value < MAXOPBLOCKS)
    modifies log, log.bc
    ensures log.bc.disk == old(log.bc.disk) && log.bc.trace == old(log.bc.trace)
    ensures ok <==> old(log.lhn) < LOGSIZE && old(log.lhn) < log.lay.size - 1
    ensures !ok ==> log.lhn == old(log.lhn) && log.ops == old(log.ops)
    ensures ok ==> log.Valid() && AtRest(log.bc.bufs)
    ensures ok ==> log.outstanding == old(log.outstanding) && log.committing == old(log.committing) &&
                   log.sleepers == old(log.sleepers)
    ensures ok ==> |old(log.bc.contents)| == |log.bc.disk| &&
                   log.bc.contents == old(log.bc.contents)[b := f(old(log.bc.contents)[b])]
    ensures ok && b in old(log.Blocks()) ==> log.Blocks() == old(log.Blocks()) && log.ops == old(log.ops)
    ensures ok && b !in old(log.Blocks()) ==>
              log.Blocks() == old(log.Blocks()) + [b] && log.ops == old(log.ops)[o := Some(old(log.ops)[o].value + 1)]
  {
    hide Coherent, Ring, After, NoBuffer, Idle;
    var r := Read(log, b);
    if r.None? {
      return false;
    }
    var i := r.value;
    log.bc.Modify(i, f(log.bc.bufs[i].data));
    ok := log.LogWrite(o, i);
    if ok {
      log.bc.Brelse(i);
    }
  }

  /** bread of a home block by a process that finds the cache unused. */
  method Read(log: Log, b: nat) returns (r: Option<nat>)
    requires log.Valid() && AtRest(log.bc.bufs) && log.lay.Home(|log.bc.disk|, b)
    modifies log.bc
    ensures log.bc.disk == old(log.bc.disk) && log.bc.trace == old(log.bc.trace) &&
            log.bc.contents == old(log.bc.contents)
    ensures log.lhn < NBUF ==> r.Some?
    ensures r.Some? ==> log.bc.pinned == old(log.bc.pinned)
    ensures r.Some? ==> log.Valid() && r.value < NBUF && Holds(log.bc.bufs[r.value], b) &&
                        log.bc.bufs[r.value].refcnt == 1
    ensures r.Some? ==> log.bc.bufs[r.value].data == log.bc.contents[b]
    ensures r.Some? ==> forall j :: 0 <= j < NBUF && j != r.value ==> log.bc.bufs[j] == old(log.bc.bufs)[j]
  {
    hide Coherent, Ring, After, NoBuffer;
    if log.lhn < NBUF {
      FindsBuffer(log, b);
    }
    log.bc.LockedIsHeld();
    r := log.bc.Bread(ROOTDEV, b);
  }

  // ---------------------------------------------------------------------------
  // All changes of one operation

  ghost function BlocksIn(ws: seq<Write>, k: nat): (r: set<nat>)
    requires k <= |ws|
    ensures forall j :: 0 <= j < k ==> ws[j].block in r
  {
    if k == 0 then {} else BlocksIn(ws, k - 1) + {ws[k - 1].block}
  }

  lemma {:induction false} BlocksInGrow(ws: seq<Write>, k: nat, m: nat)
    requires k <= m <= |ws|
    ensures BlocksIn(ws, k) <= BlocksIn(ws, m) && |BlocksIn(ws, k)| <= |BlocksIn(ws, m)|
    decreases m
  {
    if k < m {
      BlocksInGrow(ws, k, m - 1);
      var all, b := BlocksIn(ws, m - 1), ws[m - 1].block;
      if b in all {
        assert all + {b} == all;
      }
    }
  }

  /** The changes ws of operation o, one after the other. With at most eight different blocks
      it cannot fail. */
  method RunWrites(log: Log, ghost o: nat, ws: seq<Write>) returns (ok: bool)
    requires log.Valid() && AtRest(log.bc.bufs) && o < |log.ops| && log.ops[o] == Some(0)
    requires (forall k :: 0 <= k < |ws| ==> log.lay.Home(|log.bc.disk|, ws[k].block)) &&
             |BlocksIn(ws, |ws|)| <= MAXOPBLOCKS
    modifies log, log.bc
    ensures log.bc.disk == old(log.bc.disk) && log.bc.trace == old(log.bc.trace)
    ensures |BlocksIn(ws, |ws|)| <= SAFE && log.lay.size >= LOGSIZE ==> ok
    ensures ok ==> log.Valid() && AtRest(log.bc.bufs) && log.outstanding == old(log.outstanding) &&
                   log.committing == old(log.committing)
    ensures ok ==> |log.ops| == |old(log.ops)| && log.ops[o].Some?
    ensures ok ==> log.bc.contents == After(old(log.bc.contents), ws, |ws|)
    ensures ok ==> log.lhn <= old(log.lhn) + |BlocksIn(ws, |ws|)|
  {
    hide Log.Valid, After, BlocksIn, AtRest;
    BlocksInNone(ws);
    AfterNothing(log.bc.contents, ws);
    Sizes(log);
    var k := 0;
    while k < |ws|
      invariant 0 <= k <= |ws| && log.Valid() && AtRest(log.bc.bufs)
      invariant log.bc.disk == old(log.bc.disk) && log.bc.trace == old(log.bc.trace)
      invariant log.outstanding == old(log.outstanding) && log.committing == old(log.committing)
      invariant |log.ops| == |old(log.ops)| && log.ops[o].Some? && log.ops[o].value <= |BlocksIn(ws, k)|
      invariant log.lhn <= old(log.lhn) + |BlocksIn(ws, k)|
      invariant log.lhn <= |log.lhblock| && forall b :: b in BlocksIn(ws, k) ==> b in log.Blocks()
      invariant log.bc.contents == After(old(log.bc.contents), ws, k)
    {
      var w := ws[k];
      BlocksInNext(ws, k);
      BlocksInGrow(ws, k, |ws|);
      BlocksInGrow(ws, k + 1, |ws|);
      Sizes(log);
      if |BlocksIn(ws, |ws|)| <= SAFE {
        HasShare(log, o);
      }
      AfterNext(old(log.bc.contents), ws, k);
      ok := UpdateBlock(log, o, w.block, _ => w.data);
      if !ok {
        return;
      }
      Sizes(log);
      k := k + 1;
    }
    ok := true;
  }

  lemma Sizes(log: Log)
    requires log.Valid()
    ensures log.lhn <= |log.lhblock| && |log.bc.contents| == |log.bc.disk| && log.lhn == |log.Blocks()| &&
            |log.bc.bufs| == NBUF
  {}

  lemma HasShare(log: Log, o: nat)
    requires log.Valid() && o < |log.ops| && log.ops[o].Some? && log.ops[o].value <= SAFE
    ensures log.lhn + 2 <= LOGSIZE
  {
    ShareLeft(log.lhn, log.ops, log.outstanding, log.committing, log.sleepers, o);
  }

  lemma BlocksInNone(ws: seq<Write>)
    ensures BlocksIn(ws, 0) == {}
  {}

  lemma BlocksInNext(ws: seq<Write>, k: nat)
    requires k < |ws|
    ensures BlocksIn(ws, k + 1) == BlocksIn(ws, k) + {ws[k].block}
    ensures |BlocksIn(ws, k + 1)| == |BlocksIn(ws, k)| + if ws[k].block in BlocksIn(ws, k) then 0 else 1
  {
    var all, b := BlocksIn(ws, k), ws[k].block;
    if b in all {
      assert all + {b} == all;
    }
  }

  lemma AfterNext(d: Disk, ws: seq<Write>, k: nat)
    requires k < |ws| && ws[k].block < |d|
    ensures After(d, ws, k + 1) == After(d, ws, k)[ws[k].block := ws[k].data]
  {}

  // ---------------------------------------------------------------------------
  // A log that is full before its reservations are

  const PLACE: Layout := Layout(2, 30)     // the log of mkfs
  const FIRST: nat := 32                   // the first home block after it

  function Zeros(): (r: Block)
    ensures WordAt(r, 0) == 0
  {
    seq(BSIZE, _ => 0)
  }

  lemma EmptyIsRecoverable(image: Disk)
    requires |image| >= 32 && image[2] == Zeros()
    ensures Recoverable(image, PLACE)
  {}

  /** The operation that logs the t-th block, and the ones begun after t blocks. */
  function OpOf(t: nat): nat {
    if t < 10 then 0 else if t < 20 then 1 else 2
  }

  function Used(t: nat, o: nat): nat {
    if t <= 10 * o then 0 else if t <= 10 * o + 10 then t - 10 * o else 10
  }

  function OpsAfter(t: nat): Ops {
    [Some(Used(t, 0)), Some(Used(t, 1)), Some(Used(t, 2))]
  }

  ghost predicate Filled(log: Log, t: nat)
    reads log, log.bc
  {
    && log.Valid() && AtRest(log.bc.bufs) && log.lay == PLACE && |log.bc.disk| == 62
    && log.outstanding == 3 && !log.committing && log.ops == OpsAfter(t)
    && log.lhn == t && forall j :: 0 <= j < t ==> log.Blocks()[j] == FIRST + j
  }

  /** Boot from an empty image. */
  method EmptyLog() returns (log: Log)
    ensures fresh(log) && fresh(log.bc) && log.Valid() && AtRest(log.bc.bufs) && log.lay == PLACE
    ensures |log.bc.disk| == 62 && log.lhn == 0 && log.outstanding == 0 && !log.committing && log.ops == []
  {
    hide Coherent, Ring, After;
    var image: Disk := seq(62, _ => Zeros());
    EmptyIsRecoverable(image);
    var cache := new Bcache(image);
    cache.BootRests();
    log := new Log(cache, 2, 30);
  }

  /** Begin three operations. */
  method ThreeOps() returns (log: Log)
    ensures fresh(log) && fresh(log.bc) && Filled(log, 0)
  {
    hide Log.Valid, AtRest;
    log := EmptyLog();
    var started := log.BeginOp(1);
    started := log.BeginOp(2);
    started := log.BeginOp(3);
  }

  /** Of their thirty reserved blocks, twenty-nine can be logged. */
  method FullLog() returns (log: Log)
    ensures fresh(log) && fresh(log.bc) && Filled(log, 29)
  {
    hide Log.Valid, AtRest;
    log := ThreeOps();
    var t := 0;
    while t < 29
      invariant 0 <= t <= 29 && fresh(log) && fresh(log.bc) && Filled(log, t)
    {
      NotLogged(log, t);
      OpsNext(t);
      Sizes(log);
      var ok := UpdateBlock(log, OpOf(t), FIRST + t, x => x);
      Sizes(log);
      t := t + 1;
    }
  }

  lemma NotLogged(log: Log, t: nat)
    requires Filled(log, t) && t < 30
    ensures FIRST + t !in log.Blocks() && log.lay.Home(|log.bc.disk|, FIRST + t)
  {}

  lemma OpsNext(t: nat)
    requires t < 30
    ensures OpsAfter(t)[OpOf(t)] == Some(Used(t, OpOf(t))) && Used(t, OpOf(t)) < MAXOPBLOCKS
    ensures OpsAfter(t + 1) == OpsAfter(t)[OpOf(t) := Some(Used(t, OpOf(t)) + 1)]
  {}

  /** The thirtieth, still within the reservation of the third operation, meets the panic of
      log_write. */
  method LogOverflows() returns (log: Log, ok: bool)
    ensures !ok && log.lay.size == LOGSIZE && log.lhn == 29 && log.ops == [Some(10), Some(10), Some(9)]
  {
    log := FullLog();
    NotLogged(log, 29);
    OpsNext(29);
    assert log.ops[2] == Some(9);
    ok := UpdateBlock(log, 2, FIRST + 29, x => x);
  }

  /** The buffer of a logged block is no clean one. */
  lemma HeldElsewhere(bufs: seq<Buf>, disk: Disk, contents: Disk, at: map<Id, nat>, pinned: set<nat>, b: nat, r: nat)
    requires Coherent(bufs, disk, contents, at, pinned) && b in pinned && r < |bufs| && !bufs[r].dirty
    ensures HeldBy(bufs, at, b) && at[(ROOTDEV, b)] != r && IdOf(bufs[at[(ROOTDEV, b)]]) == (ROOTDEV, b)
  {
  }

  /** When all buffers but r are needed for logged blocks, they hold them. */
  lemma Crowded(bufs: seq<Buf>, disk: Disk, contents: Disk, at: map<Id, nat>, pinned: set<nat>, blocks: seq<Word>,
      r: nat, k: nat)
    requires Coherent(bufs, disk, contents, at, pinned) && pinned == ToSet(blocks) && |blocks| + 1 == |bufs|
    requires forall t, u :: 0 <= t < u < |blocks| ==> blocks[t] != blocks[u]
    requires r < |bufs| && !bufs[r].dirty && k < |bufs| && k != r
    ensures bufs[k].dirty && bufs[k].blockno in blocks
  {
    assert GoodBuf(bufs[k], disk, contents, pinned);
    if !bufs[k].dirty {
      hide Coherent, GoodBuf;
      forall t | 0 <= t < |blocks| ensures HeldBy(bufs, at, blocks[t]) && at[(ROOTDEV, blocks[t])] !in {r, k} {
        HeldElsewhere(bufs, disk, contents, at, pinned, blocks[t], r);
        HeldElsewhere(bufs, disk, contents, at, pinned, blocks[t], k);
      }
      var s := PlacesOf(at, blocks);
      forall t | 0 <= t < |s| ensures s[t] in Below(|bufs|) - {r} - {k} && IdOf(bufs[s[t]]) == (ROOTDEV, blocks[t]) {
        HeldElsewhere(bufs, disk, contents, at, pinned, blocks[t], r);
      }
      forall t, u | 0 <= t < u < |s| ensures s[t] != s[u] {
        assert blocks[t] != blocks[u];
      }
      CountDistinct(s, Below(|bufs|) - {r} - {k});
      assert false;
    }
  }

  /** Twenty-nine logged blocks and one that a reader holds outside of any operation take all
      buffers. */
  lemma NoneLeft(log: Log, r: nat, b: nat)
    requires log.Valid() && log.lhn == 29 && r < NBUF && Holds(log.bc.bufs[r], b) && log.lay.Home(|log.bc.disk|, b)
    requires b !in log.Blocks() && log.bc.bufs[r].refcnt > 0
    ensures !AllReady(log.bc.bufs, log.lay, 29)
  {
    hide Ring, After;
    log.bc.GoodAt(r);
    var start := log.lay.start;
    forall k | 0 <= k < NBUF ensures !Names(log.bc.bufs[k], ROOTDEV, start) && !Recyclable(log.bc.bufs[k]) {
      if k != r {
        Crowded(log.bc.bufs, log.bc.disk, log.bc.contents, log.bc.at, log.bc.pinned, log.Blocks(), r, k);
        assert log.lay.InLog(start);
      }
    }
    assert NoBuffer(log.bc.bufs, ROOTDEV, start);
  }

  lemma RestIsCalm(log: Log)
    requires log.Valid() && AtRest(log.bc.bufs)
    ensures log.Calm() && NoneHeld(log.bc.bufs)
  {
    hide Coherent, Ring, After;
    log.bc.LockedIsHeld();
    log.NobodyIsAway();
  }

  /** Then the commit halts for want of a buffer. */
  method CommitHalts() returns (log: Log, ok: bool)
    ensures !ok
  {
    hide Log.Valid, AtRest, Coherent, Ring, After;
    log := FullLog();
    NotLogged(log, 29);
    var last := log.EndOp(0);
    last := log.EndOp(1);
    last := log.EndOp(2);
    RestIsCalm(log);
    Sizes(log);
    var r := Read(log, FIRST + 29);
    Sizes(log);
    NoneLeft(log, r.value, FIRST + 29);
    ghost var k;
    ok, k := log.Commit();
  }
}
