/** The redo log: transactions of several system calls, reserved in begin_op,
    collected by log_write and carried out by commit through the buffer cache. */
module Log {
  import opened Options
  import opened Types
  import opened Blocks
  import opened Bio
  import opened LogSpec

  // ---------------------------------------------------------------------------
  // Reservations.  ops[o] is Some(u) while operation o is outstanding and has
  // added u block numbers to the log, and None once it has ended.

  type Ops = seq<Option<nat>>

  function Left(o: Option<nat>): nat {
    if o.Some? && o.value <= MAXOPBLOCKS then MAXOPBLOCKS - o.value else 0
  }

  /** The log slots that outstanding operations may still use. */
  function Unused(ops: Ops): nat {
    if ops == [] then 0 else Unused(ops[..|ops| - 1]) + Left(ops[|ops| - 1])
  }

  function Live(ops: Ops): nat {
    if ops == [] then 0 else Live(ops[..|ops| - 1]) + (if ops[|ops| - 1].Some? then 1 else 0)
  }

  lemma {:induction false} Reassign(ops: Ops, i: nat, o: Option<nat>)
    requires i < |ops|
    ensures Unused(ops[i := o]) == Unused(ops) - Left(ops[i]) + Left(o)
    ensures Live(ops[i := o]) == Live(ops) - (if ops[i].Some? then 1 else 0) + (if o.Some? then 1 else 0)
  {
    var n := |ops| - 1;
    if i == n {
      assert ops[i := o][..n] == ops[..n];
    } else {
      Reassign(ops[..n], i, o);
      assert ops[i := o][..n] == ops[..n][i := o];
    }
  }

  lemma {:induction false} ReservedBound(ops: Ops)
    ensures Unused(ops) <= MAXOPBLOCKS * Live(ops)
  {
    if ops != [] {
      ReservedBound(ops[..|ops| - 1]);
    }
  }

  lemma {:induction false} LiveHasShare(ops: Ops, i: nat)
    requires i < |ops|
    ensures Left(ops[i]) <= Unused(ops)
    ensures ops[i].Some? ==> Live(ops) >= 1
  {
    if i < |ops| - 1 {
      LiveHasShare(ops[..|ops| - 1], i);
    }
  }

  /** The invariant of the reservation protocol, whatever the interleaving. */
  ghost predicate Reserved(n: nat, ops: Ops, outstanding: nat, committing: bool, sleepers: set<nat>)
  {
    && n + Unused(ops) <= LOGSIZE
    && outstanding == Live(ops)
    && (committing ==> outstanding == 0)
    && (!committing && outstanding == 0 ==> n == 0)
    && (sleepers != {} ==> committing || outstanding > 0)
  }

  lemma LiveIs(n: nat, ops: Ops, outstanding: nat, committing: bool, sleepers: set<nat>, o: nat)
    requires Reserved(n, ops, outstanding, committing, sleepers) && o < |ops| && ops[o].Some?
    ensures outstanding >= 1 && !committing
  {
    LiveHasShare(ops, o);
  }

  /** One more block number comes out of the operation's share. */
  lemma ReserveMore(n: nat, ops: Ops, outstanding: nat, committing: bool, sleepers: set<nat>, o: nat)
    requires Reserved(n, ops, outstanding, committing, sleepers)
    requires o < |ops| && ops[o].Some? && ops[o].value < MAXOPBLOCKS
    ensures Reserved(n + 1, ops[o := Some(ops[o].value + 1)], outstanding, committing, sleepers)
  {
    LiveHasShare(ops, o);
    Reassign(ops, o, Some(ops[o].value + 1));
  }

  /** A new block number within an operation's reservation always fits LOGSIZE. */
  lemma ReservationFits(n: nat, ops: Ops, outstanding: nat, committing: bool, sleepers: set<nat>, o: nat)
    requires Reserved(n, ops, outstanding, committing, sleepers)
    requires o < |ops| && ops[o].Some? && ops[o].value < MAXOPBLOCKS
    ensures n < LOGSIZE && outstanding >= 1 && !committing
  {
    LiveHasShare(ops, o);
  }

  // ---------------------------------------------------------------------------
  // The log

  ghost predicate NoneHeld(bufs: seq<Buf>) {
    forall i :: 0 <= i < |bufs| ==> !bufs[i].locked
  }

  /** Nobody holds the buffer of a log block, nor of one of these blocks. */
  ghost predicate Away(bufs: seq<Buf>, lay: Layout, blocks: seq<Word>) {
    forall i :: 0 <= i < |bufs| && bufs[i].locked ==> !lay.InLog(bufs[i].blockno) && bufs[i].blockno !in blocks
  }

  /** Those that are held are held as before. */
  ghost predicate SameHolders(o: seq<Buf>, n: seq<Buf>) {
    |n| == |o| && forall t :: 0 <= t < |o| && (o[t].locked || n[t].locked) ==> n[t] == o[t]
  }

  /** Only pinned blocks differ from the disk: nobody has changed a block without logging it. */
  ghost predicate Clean(disk: Disk, contents: Disk, pinned: set<nat>) {
    |contents| == |disk| && forall b :: 0 <= b < |disk| && b !in pinned ==> contents[b] == disk[b]
  }

  lemma CleanCopy(d: Disk, c: Disk, pinned: set<nat>, b: nat, x: Block)
    requires Clean(d, c, pinned) && b < |d|
    ensures Clean(d[b := x], c[b := x], pinned - {b})
  {}

  lemma NoneHeldStill(o: seq<Buf>, n: seq<Buf>)
    requires NoneHeld(o) && SameHolders(o, n)
    ensures NoneHeld(n)
  {}

  lemma AfterNothing(d: Disk, ws: seq<Write>)
    ensures After(d, ws, 0) == d
  {}

  lemma CleanOff(d: Disk, c: Disk, pinned: set<nat>, blocks: seq<Word>)
    requires Clean(d, c, pinned) && pinned == ToSet(blocks)
    ensures forall b :: 0 <= b < |d| && b !in blocks ==> c[b] == d[b]
  {}

  lemma CleanAll(d: Disk, c: Disk, pinned: set<nat>)
    requires Clean(d, c, pinned) && pinned == {}
    ensures c == d
  {}

  lemma AwayIdle(bufs: seq<Buf>, lay: Layout, blocks: seq<Word>, b: nat)
    requires Away(bufs, lay, blocks) && (lay.InLog(b) || b in blocks)
    ensures Idle(bufs, ROOTDEV, b)
  {}

  lemma AwayKept(o: seq<Buf>, n: seq<Buf>, lay: Layout, blocks: seq<Word>)
    requires Away(o, lay, blocks) && SameHolders(o, n)
    ensures Away(n, lay, blocks) && Away(n, lay, [])
  {}

  /** A locked buffer that holds block b. */
  predicate Holds(buf: Buf, b: nat) {
    Names(buf, ROOTDEV, b) && buf.valid && buf.locked
  }

  /** The transaction that gives each of the blocks its current contents. */
  ghost function DataOf(blocks: seq<Word>, contents: Disk): Tx
    requires forall t :: 0 <= t < |blocks| ==> blocks[t] < |contents|
  {
    Tx(blocks, seq(|blocks|, t requires 0 <= t < |blocks| => contents[blocks[t]]))
  }

  ghost function ToSet(s: seq<Word>): set<nat> {
    set x | x in s
  }

  lemma ToSetEnds(s: seq<Word>)
    ensures ToSet(s[..0]) == {} && ToSet(s[..|s|]) == ToSet(s)
  {}

  lemma ToSetNext(s: seq<Word>, t: nat)
    requires t < |s|
    ensures ToSet(s[..t + 1]) == ToSet(s[..t]) + {s[t]} && s[t] in ToSet(s)
    ensures (forall i, j :: 0 <= i < j < |s| ==> s[i] != s[j]) ==> s[t] !in ToSet(s[..t])
  {}

  lemma ListMore(n: nat, lay: Layout, had: seq<Word>, b: Word)
    requires GoodBlocks(n, lay, had) && lay.Home(n, b) && b !in had && |had| < LOGSIZE && |had| < lay.size - 1
    ensures GoodBlocks(n, lay, had + [b]) && ToSet(had + [b]) == ToSet(had) + {b}
  {}

  lemma {:induction false} ToSetCount(s: seq<Word>)
    ensures |ToSet(s)| <= |s|
    decreases |s|
  {
    if s == [] {
      assert ToSet(s) == {};
    } else {
      var n := |s| - 1;
      ToSetCount(s[..n]);
      ToSetNext(s, n);
      assert s[..n + 1] == s;
    }
  }

  /** Different elements of a set are no more than it has. */
  lemma {:induction false} CountDistinct(s: seq<nat>, xs: set<nat>)
    requires (forall i :: 0 <= i < |s| ==> s[i] in xs) && forall i, j :: 0 <= i < j < |s| ==> s[i] != s[j]
    ensures |s| <= |xs|
    decreases |s|
  {
    if s != [] {
      var n := |s| - 1;
      CountDistinct(s[..n], xs - {s[n]});
    }
  }

  ghost function Below(n: nat): (r: set<nat>)
    ensures |r| == n && forall i :: i in r <==> 0 <= i < n
  {
    if n == 0 then {} else Below(n - 1) + {n - 1}
  }

  ghost function BlocksOf(bufs: seq<Buf>): (r: seq<nat>)
    ensures |r| == |bufs| && forall i :: 0 <= i < |r| ==> r[i] == bufs[i].blockno
  {
    seq(|bufs|, i requires 0 <= i < |bufs| => bufs[i].blockno)
  }

  ghost function PlacesOf(at: map<Id, nat>, blocks: seq<Word>): (r: seq<nat>)
    requires forall t :: 0 <= t < |blocks| ==> (ROOTDEV, blocks[t]) in at
    ensures |r| == |blocks| && forall t :: 0 <= t < |r| ==> r[t] == at[(ROOTDEV, blocks[t])]
  {
    seq(|blocks|, t requires 0 <= t < |blocks| => at[(ROOTDEV, blocks[t])])
  }

  /** Dirty buffers hold different blocks of the log. */
  lemma AllDirty(bufs: seq<Buf>, disk: Disk, contents: Disk, at: map<Id, nat>, pinned: set<nat>, blocks: seq<Word>)
    requires Coherent(bufs, disk, contents, at, pinned) && pinned == ToSet(blocks) &&
             forall i :: 0 <= i < |bufs| ==> bufs[i].dirty
    ensures |blocks| >= |bufs| && forall i :: 0 <= i < |bufs| ==> bufs[i].blockno in blocks
  {
    var s := BlocksOf(bufs);
    forall i | 0 <= i < |bufs| ensures bufs[i].dev == ROOTDEV && s[i] in ToSet(blocks) {
      assert GoodBuf(bufs[i], disk, contents, pinned);
    }
    forall i, j | 0 <= i < j < |bufs| ensures s[i] != s[j] {
      IndexedIsUnique(bufs, at, i, j);
    }
    CountDistinct(s, ToSet(blocks));
    ToSetCount(blocks);
  }

  lemma NotAllDirty(bufs: seq<Buf>, disk: Disk, contents: Disk, at: map<Id, nat>, pinned: set<nat>, blocks: seq<Word>,
      k: nat)
    requires Coherent(bufs, disk, contents, at, pinned) && pinned == ToSet(blocks) && k < |bufs| && !bufs[k].dirty
    requires forall t, u :: 0 <= t < u < |blocks| ==> blocks[t] != blocks[u]
    ensures |blocks| < |bufs|
  {
    forall t | 0 <= t < |blocks| ensures HeldBy(bufs, at, blocks[t]) && bufs[at[(ROOTDEV, blocks[t])]].dirty {
      assert blocks[t] in pinned;
    }
    var s := PlacesOf(at, blocks);
    forall t | 0 <= t < |s| ensures s[t] in Below(|bufs|) - {k} && IdOf(bufs[s[t]]) == (ROOTDEV, blocks[t]) {}
    forall t, u | 0 <= t < u < |s| ensures s[t] != s[u] {
      assert blocks[t] != blocks[u];
    }
    CountDistinct(s, Below(|bufs|) - {k});
  }

  /** No log block is changed in the cache and not on disk. */
  ghost predicate LogClean(disk: Disk, contents: Disk, lay: Layout) {
    |disk| == |contents| && forall b :: 0 <= b < |disk| && lay.InLog(b) ==> contents[b] == disk[b]
  }

  ghost predicate SameLog(a: Disk, b: Disk, lay: Layout) {
    |a| == |b| && forall x :: 0 <= x < |a| && lay.InLog(x) ==> a[x] == b[x]
  }

  /** Installing a transaction whose data is the wanted contents completes them. */
  lemma InstallingGives(d: Disk, want: Disk, lay: Layout, tx: Tx)
    requires GoodTx(d, lay, tx) && |d| == |want|
    requires forall t :: 0 <= t < |tx.blocks| ==> want[tx.blocks[t]] == tx.datas[t]
    requires forall x :: 0 <= x < |d| && !lay.InLog(x) && x !in tx.blocks ==> d[x] == want[x]
    ensures SameHome(Post(d, tx), want, lay)
  {
    forall x | 0 <= x < |d| && !lay.InLog(x) ensures Post(d, tx)[x] == want[x] {
      PostIsOverwrite(d, lay, tx, x);
      if x in tx.blocks {
        var t :| 0 <= t < |tx.blocks| && tx.blocks[t] == x;
      }
    }
  }

  // ---------------------------------------------------------------------------
  // The buffers that a commit needs

  ghost predicate Spare(bufs: seq<Buf>) {
    exists i :: 0 <= i < |bufs| && Recyclable(bufs[i])
  }

  /** No buffer is in use. */
  ghost predicate AtRest(bufs: seq<Buf>) {
    forall i :: 0 <= i < |bufs| ==> bufs[i].refcnt == 0
  }

  /** Every buffer may be recycled. */
  ghost predicate Rested(bufs: seq<Buf>) {
    forall i :: 0 <= i < |bufs| ==> Recyclable(bufs[i])
  }

  /** bread of any of the first n log blocks, or of the header, would find a buffer. */
  ghost predicate AllReady(bufs: seq<Buf>, lay: Layout, n: nat) {
    forall b :: lay.start <= b <= lay.start + n ==> !NoBuffer(bufs, ROOTDEV, b)
  }

  /** Some blocks were read and released: a buffer that could be had can be had still. */
  ghost predicate Reused(o: seq<Buf>, n: seq<Buf>) {
    && SameHolders(o, n) && (Spare(o) ==> Spare(n)) && (Rested(o) ==> Rested(n)) && (AtRest(o) ==> AtRest(n))
    && (!Spare(o) && !Spare(n) ==> forall t :: 0 <= t < |o| ==> IdOf(n[t]) == IdOf(o[t]))
  }

  /** And none can be had that could not. */
  ghost predicate Unchanged(o: seq<Buf>, n: seq<Buf>) {
    Reused(o, n) && (Spare(n) ==> Spare(o))
  }

  lemma ReusedReady(o: seq<Buf>, n: seq<Buf>, b: nat)
    requires Reused(o, n)
    ensures !NoBuffer(o, ROOTDEV, b) ==> !NoBuffer(n, ROOTDEV, b)
    ensures Unchanged(o, n) ==> (NoBuffer(o, ROOTDEV, b) <==> NoBuffer(n, ROOTDEV, b))
  {
    if !Spare(o) && !Spare(n) {
      forall t | 0 <= t < |o| ensures Names(n[t], ROOTDEV, b) <==> Names(o[t], ROOTDEV, b) {
        assert IdOf(n[t]) == IdOf(o[t]);
      }
    }
  }

  lemma UnchangedSelf(o: seq<Buf>)
    ensures Unchanged(o, o)
  {}

  lemma UnchangedReady(o: seq<Buf>, n: seq<Buf>, b: nat)
    requires Unchanged(o, n)
    ensures NoBuffer(o, ROOTDEV, b) <==> NoBuffer(n, ROOTDEV, b)
  {
    ReusedReady(o, n, b);
  }

  lemma ReusedAgain(o: seq<Buf>, m: seq<Buf>, n: seq<Buf>)
    requires Reused(o, m) && Reused(m, n)
    ensures Reused(o, n)
  {}

  lemma UnchangedAgain(o: seq<Buf>, m: seq<Buf>, n: seq<Buf>)
    requires Unchanged(o, m) && Unchanged(m, n)
    ensures Unchanged(o, n)
  {}

  lemma ReusedFacts(o: seq<Buf>, n: seq<Buf>)
    requires Unchanged(o, n)
    ensures Reused(o, n)
  {}

  lemma RestedReady(o: seq<Buf>, b: nat)
    requires |o| > 0
    ensures Rested(o) ==> !NoBuffer(o, ROOTDEV, b)
  {
    assert Rested(o) ==> Recyclable(o[0]);
  }

  lemma InstallReady(o: seq<Buf>, n: seq<Buf>, lay: Layout, k: nat, b: nat)
    requires Reused(o, n) && lay.start <= b <= lay.start + k
    ensures AllReady(o, lay, k) ==> !NoBuffer(n, ROOTDEV, b)
    ensures Rested(o) ==> Rested(n)
  {
    ReusedReady(o, n, b);
  }

  lemma HoldersOf(o: seq<Buf>, n: seq<Buf>)
    requires Reused(o, n)
    ensures SameHolders(o, n) && (AtRest(o) ==> AtRest(n))
  {}

  lemma HoldersSame(o: seq<Buf>)
    ensures SameHolders(o, o) && Reused(o, o)
  {}

  lemma HoldersTwice(o: seq<Buf>, m: seq<Buf>, n: seq<Buf>)
    requires SameHolders(o, m) && SameHolders(m, n)
    ensures SameHolders(o, n)
  {}

  lemma HoldersKept(o: seq<Buf>, n: seq<Buf>, lay: Layout, blocks: seq<Word>)
    requires Reused(o, n) && Away(o, lay, blocks)
    ensures Away(n, lay, blocks) && Away(n, lay, [])
  {
    AwayKept(o, n, lay, blocks);
  }

  lemma AllReadyKept(o: seq<Buf>, n: seq<Buf>, lay: Layout, k: nat)
    requires Reused(o, n)
    ensures AllReady(o, lay, k) ==> AllReady(n, lay, k)
    ensures Unchanged(o, n) ==> (AllReady(n, lay, k) <==> AllReady(o, lay, k))
  {
    hide NoBuffer, Reused, Unchanged;
    forall b | lay.start <= b <= lay.start + k
      ensures !NoBuffer(o, ROOTDEV, b) ==> !NoBuffer(n, ROOTDEV, b)
      ensures Unchanged(o, n) ==> (NoBuffer(o, ROOTDEV, b) <==> NoBuffer(n, ROOTDEV, b))
    {
      ReusedReady(o, n, b);
    }
  }

  /** Buffer x after it was fetched for block b and released, perhaps written before. */
  ghost predicate Given(was: Buf, now: Buf, b: nat, written: bool) {
    exists mid :: Fetched(was, mid, ROOTDEV, b) && Names(now, ROOTDEV, b) && now.refcnt == mid.refcnt - 1 &&
                  now.dirty == (mid.dirty && !written)
  }

  lemma GivenBack(o: seq<Buf>, m: seq<Buf>, n: seq<Buf>, i: nat, j: nat, a: nat, b: nat)
    requires |n| == |m| == |o| && i < |o| && j < |o| && i != j && Fetched(o[i], m[i], ROOTDEV, a) &&
             Fetched(o[j], m[j], ROOTDEV, b)
    requires Names(n[i], ROOTDEV, a) && n[i].refcnt == m[i].refcnt - 1 && n[i].dirty == m[i].dirty
    requires Names(n[j], ROOTDEV, b) && n[j].refcnt == m[j].refcnt - 1 && !n[j].dirty
    ensures Given(o[i], n[i], a, false) && Given(o[j], n[j], b, true) && (!m[j].dirty ==> !o[j].dirty)
  {}

  lemma ReuseOne(o: seq<Buf>, m: seq<Buf>, n: seq<Buf>, i: nat, a: nat)
    requires |n| == |m| == |o| && i < |o| && Fetched(o[i], m[i], ROOTDEV, a) && !m[i].dirty
    requires Names(n[i], ROOTDEV, a) && n[i].refcnt == m[i].refcnt - 1 && !n[i].dirty && !o[i].locked && !n[i].locked
    requires forall t :: 0 <= t < |o| && t != i ==> n[t] == o[t]
    ensures Unchanged(o, n)
  {
    ReuseOf(o, n, i, i, a, a);
  }

  lemma ReuseOf(o: seq<Buf>, n: seq<Buf>, i: nat, j: nat, a: nat, b: nat)
    requires |n| == |o| && i < |o| && j < |o| && Given(o[i], n[i], a, false) && Given(o[j], n[j], b, true)
    requires !o[i].locked && !n[i].locked && !o[j].locked && !n[j].locked &&
             forall t :: 0 <= t < |o| && t != i && t != j ==> n[t] == o[t]
    ensures Reused(o, n) && (!o[j].dirty ==> Unchanged(o, n))
  {
    if Spare(o) {
      var k :| 0 <= k < |o| && Recyclable(o[k]);
      assert Recyclable(n[k]);
    }
    if !o[j].dirty && Spare(n) {
      var k :| 0 <= k < |o| && Recyclable(n[k]);
      assert Recyclable(o[k]);
    }
  }

  class Log {
    const bc: Bcache
    const lay: Layout
    var lhn: nat
    var lhblock: seq<Word>
    var outstanding: nat
    var committing: bool
    ghost var ops: Ops
    ghost var sleepers: set<nat>

    function Blocks(): (r: seq<Word>)
      requires lhn <= |lhblock|
      reads this
    {
      lhblock[..lhn]
    }

    ghost predicate Shape()
      reads this, bc
    {
      && bc.Valid()
      && lay.Fits(|bc.disk|) && |bc.disk| <= UINT_LIMIT
      && |lhblock| == LOGSIZE && lhn <= LOGSIZE
      && GoodBlocks(|bc.disk|, lay, Blocks())
      && LogClean(bc.disk, bc.contents, lay)
    }

    /** Between system calls' steps: the blocks pinned dirty in the cache are exactly
        the logged ones, and the log on disk is empty, so that the home blocks on
        disk are those of the last commit. */
    ghost predicate Valid()
      reads this, bc
    {
      && Shape()
      && bc.pinned == ToSet(Blocks())
      && Quiet(bc.disk, lay, bc.disk)
      && Reserved(lhn, ops, outstanding, committing, sleepers)
    }

    /** No other process is in the way of a commit. */
    ghost predicate Calm()
      reads this, bc
    {
      lhn <= |lhblock| && Away(bc.bufs, lay, Blocks()) && Clean(bc.disk, bc.contents, bc.pinned)
    }

    /** The transaction that a commit would write now. */
    ghost function Pending(): Tx
      reads this, bc
      requires Shape()
    {
      DataOf(Blocks(), bc.contents)
    }

    /** initlog on a freshly booted machine, whose cache is empty: recovery runs through, and
        the log is ready for the first operation. */
    constructor (cache: Bcache, start: nat, size: nat)
      requires cache.Valid() && cache.contents == cache.disk && |cache.disk| <= UINT_LIMIT
      requires NoneHeld(cache.bufs) && Rested(cache.bufs) && cache.pinned == {}
      requires Recoverable(cache.disk, Layout(start, size))
      modifies cache
      ensures bc == cache && lay == Layout(start, size)
      ensures Valid() && lhn == 0 && outstanding == 0 && !committing && ops == [] && sleepers == {}
      ensures cache.disk == Recovered(old(cache.disk), lay) && NoneHeld(cache.bufs) && Rested(cache.bufs)
    {
      hide Coherent, Ring, After, Recovered, Rested, NoneHeld;
      bc, lay := cache, Layout(start, size);
      lhn, lhblock := 0, seq(LOGSIZE, _ => 0);
      outstanding, committing := 0, false;
      ops, sleepers := [], {};
      new;
      var _, _ := Recover();
    }

    /** begin_op, one pass of its loop for process p: it starts the operation, or
        sleeps because of a commit or a lack of unreserved log space.  A sleeper
        always has an operation or a commit to wait for. */
    method BeginOp(p: nat) returns (started: bool)
      requires Valid()
      modifies this
      ensures Valid() && lhn == old(lhn) && lhblock == old(lhblock) && committing == old(committing)
      ensures started <==> !committing && lhn + (old(outstanding) + 1) * MAXOPBLOCKS <= LOGSIZE
      ensures started ==> ops == old(ops) + [Some(0)] && outstanding == old(outstanding) + 1 &&
                          sleepers == old(sleepers)
      ensures !started ==> ops == old(ops) && outstanding == old(outstanding) && sleepers == old(sleepers) + {p}
      ensures !started ==> committing || outstanding > 0
    {
      if committing || lhn + (outstanding + 1) * MAXOPBLOCKS > LOGSIZE {
        sleepers := sleepers + {p};
        return false;
      }
      ReservedBound(ops);
      assert (ops + [Some(0)])[..|ops|] == ops;
      outstanding := outstanding + 1;
      ops := ops + [Some(0)];
      return true;
    }

    /** log_write by operation o on a buffer it holds: the block number is logged
        once and the buffer pinned.  False is the capacity panic, which comes before
        absorption. */
    method LogWrite(ghost o: nat, i: nat) returns (ok: bool)
      requires Valid() && i < NBUF && bc.bufs[i].locked && bc.bufs[i].valid
      requires lay.Home(|bc.disk|, bc.bufs[i].blockno)
      requires o < |ops| && ops[o].Some?
      requires bc.bufs[i].blockno in Blocks() || ops[o].value < MAXOPBLOCKS
      modifies this, bc
      ensures ok <==> old(lhn) < LOGSIZE && old(lhn) < lay.size - 1
      ensures !ok ==> lhn == old(lhn) && lhblock == old(lhblock) && ops == old(ops)
      ensures bc.disk == old(bc.disk) && bc.trace == old(bc.trace) && bc.contents == old(bc.contents)
      ensures ok ==> Valid() && outstanding == old(outstanding) && committing == old(committing) &&
                     sleepers == old(sleepers)
      ensures ok ==> bc.bufs == old(bc.bufs)[i := old(bc.bufs)[i].(dirty := true)]
      ensures ok && old(bc.bufs)[i].blockno in old(Blocks()) ==> Blocks() == old(Blocks()) && ops == old(ops)
      ensures ok && old(bc.bufs)[i].blockno !in old(Blocks()) ==>
                && Blocks() == old(Blocks()) + [old(bc.bufs)[i].blockno]
                && ops == old(ops)[o := Some(old(ops)[o].value + 1)]
    {
      hide Coherent, Ring, After, Reserved, GoodBlocks, ToSet, Quiet, LogClean;
      LiveIs(lhn, ops, outstanding, committing, sleepers, o);
      if lhn >= LOGSIZE || lhn >= lay.size - 1 {
        return false;
      }
      var b: Word := bc.bufs[i].blockno;
      var t := 0;
      while t < lhn && lhblock[t] != b
        invariant 0 <= t <= lhn
        invariant b !in lhblock[..t]
      {
        t := t + 1;
      }
      ghost var had := Blocks();
      lhblock := lhblock[t := b];
      if t == lhn {
        assert lhblock[..t] == had;
        ListMore(|bc.disk|, lay, had, b);
        ReserveMore(lhn, ops, outstanding, committing, sleepers, o);
        lhn := lhn + 1;
        ops := ops[o := Some(ops[o].value + 1)];
        assert Blocks() == had + [b];
      } else {
        assert Blocks() == had;
        ToSetNext(had, t);
      }
      bc.Pin(i);
      return true;
    }

    /** end_op's first critical section.  True hands the commit to the caller. */
    method EndOp(ghost o: nat) returns (doCommit: bool)
      requires Valid() && o < |ops| && ops[o].Some?
      modifies this
      ensures Valid() && lhn == old(lhn) && lhblock == old(lhblock)
      ensures outstanding == old(outstanding) - 1 && ops == old(ops)[o := None]
      ensures doCommit <==> outstanding == 0
      ensures doCommit ==> committing && sleepers == old(sleepers)
      ensures !doCommit ==> !committing && sleepers == {}
    {
      LiveHasShare(ops, o);
      Reassign(ops, o, None);
      outstanding := outstanding - 1;
      ops := ops[o := None];
      if outstanding == 0 {
        committing := true;
        return true;
      }
      sleepers := {};
      return false;
    }

    /** end_op's last critical section. */
    method FinishCommit()
      requires Valid() && committing && lhn == 0
      modifies this
      ensures Valid() && !committing && outstanding == 0 && lhn == 0 && sleepers == {}
      ensures lhblock == old(lhblock) && ops == old(ops)
    {
      committing := false;
      sleepers := {};
    }

    // -------------------------------------------------------------------------
    // Commit.  A false result is a panic inside the cache, which halts the machine
    // after the first k of the intended writes: a crash like any other.

    /** The disk is what the recorded writes made of the boot image. */
    ghost predicate Recorded()
      reads bc
    {
      bc.disk == After(bc.base, bc.trace, |bc.trace|)
    }

    /** The loop body that write_log and install_trans share: read both blocks, copy
        one over the other, write it out and release both. */
    method CopyBlock(src: nat, dst: nat, dstFirst: bool) returns (ok: bool)
      requires bc.Valid() && Idle(bc.bufs, ROOTDEV, src) && Idle(bc.bufs, ROOTDEV, dst)
      requires src < |bc.disk| && dst < |bc.disk| && src != dst
      requires src in bc.pinned || bc.contents[src] == bc.disk[src]
      modifies bc
      ensures !ok ==> bc.disk == old(bc.disk) && bc.trace == old(bc.trace)
      ensures (if dstFirst then src else dst) in old(bc.pinned) ==>
                (ok <==> !NoBuffer(old(bc.bufs), ROOTDEV, if dstFirst then dst else src))
      ensures old(Rested(bc.bufs)) ==> ok
      ensures ok ==> Reused(old(bc.bufs), bc.bufs) && (dst !in old(bc.pinned) ==> Unchanged(old(bc.bufs), bc.bufs))
      ensures ok ==> bc.Valid()
      ensures ok ==>
                var data := old(bc.contents)[src];
                && bc.disk == old(bc.disk)[dst := data]
                && bc.contents == old(bc.contents)[dst := data]
                && bc.trace == old(bc.trace) + [Write(dst, data)]
                && bc.pinned == old(bc.pinned) - {dst}
    {
      hide Coherent, Ring, After, NoBuffer, Reused, Unchanged, Fetched, Rested;
      var from, to;
      if dstFirst {
        ok, to, from := ReadBoth(dst, src);
      } else {
        ok, from, to := ReadBoth(src, dst);
      }
      if !ok { return; }
      ghost var m := bc.bufs;
      bc.Modify(to, bc.bufs[from].data);
      bc.Bwrite(to);
      bc.Brelse(from);
      bc.Brelse(to);
      GivenBack(old(bc.bufs), m, bc.bufs, from, to, src, dst);
      ReuseOf(old(bc.bufs), bc.bufs, from, to, src, dst);
    }

    method ReadBoth(a: nat, b: nat) returns (ok: bool, i: nat, j: nat)
      requires bc.Valid() && Idle(bc.bufs, ROOTDEV, a) && Idle(bc.bufs, ROOTDEV, b) && a != b
      modifies bc
      ensures bc.disk == old(bc.disk) && bc.trace == old(bc.trace) && bc.contents == old(bc.contents)
      ensures ok ==> bc.Valid() && bc.pinned == old(bc.pinned) && i < NBUF && j < NBUF && i != j
      ensures ok ==> Holds(bc.bufs[i], a) && Holds(bc.bufs[j], b) && a < |bc.disk| && b < |bc.disk|
      ensures ok ==> bc.bufs[i].data == bc.contents[a] && bc.bufs[j].data == bc.contents[b]
      ensures ok ==> (bc.bufs[i].dirty <==> a in bc.pinned) && (bc.bufs[j].dirty <==> b in bc.pinned)
      ensures ok ==> forall t :: 0 <= t < NBUF && t != i && t != j ==> bc.bufs[t] == old(bc.bufs)[t]
      ensures ok ==> !old(bc.bufs)[i].locked && !old(bc.bufs)[j].locked
      ensures ok ==> Fetched(old(bc.bufs)[i], bc.bufs[i], ROOTDEV, a) &&
                     Fetched(old(bc.bufs)[j], bc.bufs[j], ROOTDEV, b)
      ensures a < |bc.disk| && b < |bc.disk| && b in old(bc.pinned) ==> (ok <==> !NoBuffer(old(bc.bufs), ROOTDEV, a))
      ensures a < |bc.disk| && b < |bc.disk| && old(Rested(bc.bufs)) ==> ok
    {
      hide Coherent, Ring, After, Fetched;
      assert Rested(bc.bufs) ==> Recyclable(bc.bufs[0]);
      var first := bc.Bread(ROOTDEV, a);
      if first.None? { return false, 0, 0; }
      PinnedIsCached(b);
      assert old(Rested(bc.bufs)) ==> Recyclable(bc.bufs[if first.value == 0 then 1 else 0]);
      var second := bc.Bread(ROOTDEV, b);
      if second.None? { return false, 0, 0; }
      return true, first.value, second.value;
    }

    lemma PinnedIsCached(b: nat)
      requires bc.Valid()
      ensures b in bc.pinned ==> exists i :: 0 <= i < NBUF && Names(bc.bufs[i], ROOTDEV, b)
    {
      if b in bc.pinned {
        assert HeldBy(bc.bufs, bc.at, b);
        assert IdOf(bc.bufs[bc.at[(ROOTDEV, b)]]) == (ROOTDEV, b);
      }
    }

    method WriteLog(ghost tx: Tx, ghost t0: seq<Write>, ghost ws: seq<Write>) returns (ok: bool, ghost k: nat)
      requires Shape() && Calm() && bc.pinned == ToSet(Blocks())
      requires tx == Pending() && Extends(t0, ws, 0, bc.trace) && lhn <= |ws|
      requires forall t :: 0 <= t < lhn ==> ws[t] == Write(lay.start + 1 + t, tx.datas[t])
      modifies bc
      ensures k <= lhn && (ok ==> k == lhn)
      ensures Recorded() && Extends(t0, ws, k, bc.trace)
      ensures ok <==> forall b :: lay.start < b <= lay.start + lhn ==> !NoBuffer(old(bc.bufs), ROOTDEV, b)
      ensures ok ==> Unchanged(old(bc.bufs), bc.bufs)
      ensures ok ==> Shape() && Calm() && bc.pinned == old(bc.pinned)
      ensures ok ==> bc.disk[lay.start] == old(bc.disk)[lay.start]
    {
      hide Coherent, Ring, After, NoBuffer, Reused, Unchanged, Rested, Away, Clean, Idle;
      UnchangedSelf(bc.bufs);
      var tail := 0;
      while tail < lhn
        invariant 0 <= tail <= lhn
        invariant bc.Valid() && Calm() && bc.pinned == old(bc.pinned)
        invariant LogClean(bc.disk, bc.contents, lay) && SameHome(bc.contents, old(bc.contents), lay)
        invariant bc.disk[lay.start] == old(bc.disk)[lay.start]
        invariant Extends(t0, ws, tail, bc.trace)
        invariant Unchanged(old(bc.bufs), bc.bufs)
        invariant forall b :: lay.start < b <= lay.start + tail ==> !NoBuffer(old(bc.bufs), ROOTDEV, b)
      {
        k := tail;
        ghost var was := bc.bufs;
        UnchangedReady(old(bc.bufs), was, lay.start + 1 + tail);
        assert lay.Home(|bc.disk|, Blocks()[tail]) && Blocks()[tail] in Blocks();
        assert ws[tail] == Write(lay.start + 1 + tail, bc.contents[lhblock[tail]]);
        ExtendsStep(t0, ws, tail, bc.trace);
        AwayIdle(was, lay, Blocks(), lhblock[tail]);
        AwayIdle(was, lay, Blocks(), lay.start + 1 + tail);
        CleanCopy(bc.disk, bc.contents, bc.pinned, lay.start + 1 + tail, bc.contents[lhblock[tail]]);
        ok := CopyBlock(lhblock[tail], lay.start + 1 + tail, true);
        if !ok { return; }
        assert bc.pinned - {lay.start + 1 + tail} == bc.pinned;
        UnchangedAgain(old(bc.bufs), was, bc.bufs);
        HoldersKept(was, bc.bufs, lay, Blocks());
        tail := tail + 1;
      }
      return true, lhn;
    }

    method WriteHead() returns (ok: bool)
      requires Shape() && Calm() && lay.start !in bc.pinned
      modifies bc
      ensures Recorded()
      ensures ok <==> !NoBuffer(old(bc.bufs), ROOTDEV, lay.start)
      ensures ok ==> Unchanged(old(bc.bufs), bc.bufs)
      ensures !ok ==> bc.trace == old(bc.trace)
      ensures ok ==> Shape() && Calm() && bc.pinned == old(bc.pinned)
      ensures ok ==> bc.trace == old(bc.trace) + [Write(lay.start, PutHeader(old(bc.disk)[lay.start], Blocks()))] &&
                     bc.disk[lay.start] == PutHeader(old(bc.disk)[lay.start], Blocks())
    {
      hide Coherent, Ring, After, NoBuffer, Fetched, Unchanged, Away, Clean, Idle;
      assert lay.InLog(lay.start);
      AwayIdle(bc.bufs, lay, Blocks(), lay.start);
      var buf := bc.Bread(ROOTDEV, lay.start);
      if buf.None? { return false; }
      var hb := PutWord(bc.bufs[buf.value].data, 0, lhn);
      var i := 0;
      while i < lhn
        invariant 0 <= i <= lhn
        invariant hb == PutEntries(bc.bufs[buf.value].data, Blocks(), i)
      {
        hb := PutWord(hb, 1 + i, lhblock[i]);
        i := i + 1;
      }
      ghost var m := bc.bufs;
      CleanCopy(bc.disk, bc.contents, bc.pinned, lay.start, hb);
      bc.Modify(buf.value, hb);
      bc.Bwrite(buf.value);
      bc.Brelse(buf.value);
      assert bc.pinned - {lay.start} == bc.pinned;
      ReuseOne(old(bc.bufs), m, bc.bufs, buf.value, lay.start);
      ReusedFacts(old(bc.bufs), bc.bufs);
      HoldersKept(old(bc.bufs), bc.bufs, lay, Blocks());
      return true;
    }

    method InstallTrans(ghost tx: Tx, ghost t0: seq<Write>, ghost ws: seq<Write>, ghost from: nat)
      returns (ok: bool, ghost k: nat)
      requires Shape() && Calm() && bc.pinned <= ToSet(Blocks())
      requires Blocks() == tx.blocks && |tx.datas| == lhn
      requires forall t :: 0 <= t < lhn ==> bc.disk[lay.start + 1 + t] == tx.datas[t]
      requires Extends(t0, ws, from, bc.trace) && from + lhn <= |ws|
      requires forall i :: from <= i < from + lhn ==> ws[i] == Write(tx.blocks[i - from], tx.datas[i - from])
      modifies bc
      ensures from <= k <= from + lhn && (ok ==> k == from + lhn)
      ensures Recorded() && Extends(t0, ws, k, bc.trace)
      ensures old(bc.pinned) == ToSet(Blocks()) && AllReady(old(bc.bufs), lay, lhn) ==> ok
      ensures old(Rested(bc.bufs)) ==> ok
      ensures ok ==> Reused(old(bc.bufs), bc.bufs)
      ensures ok ==> Shape() && Calm() && bc.pinned == {}
      ensures ok ==> bc.disk[lay.start] == old(bc.disk)[lay.start]
    {
      hide Coherent, Ring, After, NoBuffer, Reused, Unchanged, Rested, AllReady, ToSet, Away, Clean, Idle;
      UnchangedSelf(bc.bufs);
      ReusedFacts(bc.bufs, bc.bufs);
      ToSetEnds(Blocks());
      var tail := 0;
      while tail < lhn
        invariant 0 <= tail <= lhn
        invariant Reused(old(bc.bufs), bc.bufs) && bc.pinned == old(bc.pinned) - ToSet(Blocks()[..tail])
        invariant bc.Valid() && Calm()
        invariant LogClean(bc.disk, bc.contents, lay) && SameLog(bc.disk, old(bc.disk), lay)
        invariant Extends(t0, ws, from + tail, bc.trace)
      {
        k := from + tail;
        ghost var was := bc.bufs;
        InstallReady(old(bc.bufs), was, lay, lhn, lay.start + 1 + tail);
        ToSetNext(Blocks(), tail);
        assert lay.Home(|bc.disk|, Blocks()[tail]);
        assert ws[from + tail] == Write(lhblock[tail], bc.contents[lay.start + 1 + tail]);
        ExtendsStep(t0, ws, from + tail, bc.trace);
        AwayIdle(was, lay, Blocks(), lhblock[tail]);
        AwayIdle(was, lay, Blocks(), lay.start + 1 + tail);
        CleanCopy(bc.disk, bc.contents, bc.pinned, lhblock[tail], bc.contents[lay.start + 1 + tail]);
        ok := CopyBlock(lay.start + 1 + tail, lhblock[tail], false);
        if !ok { return; }
        ReusedAgain(old(bc.bufs), was, bc.bufs);
        HoldersKept(was, bc.bufs, lay, Blocks());
        tail := tail + 1;
      }
      return true, from + lhn;
    }

    /** The second half of commit, which is all of recovery: install, clear the log. */
    method InstallAll(ghost tx: Tx, ghost t0: seq<Write>, ghost ws: seq<Write>, ghost from: nat)
      returns (ok: bool, ghost k: nat)
      requires Shape() && Calm() && bc.pinned <= ToSet(Blocks())
      requires Blocks() == tx.blocks && Lists(bc.disk[lay.start], tx.blocks) && LoggedTx(bc.disk, lay) == tx
      requires Extends(t0, ws, from, bc.trace) && from + lhn + 1 == |ws|
      requires forall i :: from <= i < |ws| ==> ws[i] == Finish(lay, tx, Cleared(bc.disk[lay.start]))[i - from]
      modifies this, bc
      ensures from <= k <= |ws| && (ok ==> k == |ws|)
      ensures Recorded() && Extends(t0, ws, k, bc.trace)
      ensures old(bc.pinned) == ToSet(old(Blocks())) && AllReady(old(bc.bufs), lay, old(lhn)) ==> ok
      ensures old(Rested(bc.bufs)) ==> ok && Rested(bc.bufs)
      ensures outstanding == old(outstanding) && committing == old(committing) && ops == old(ops) &&
              sleepers == old(sleepers)
      ensures ok ==> Shape() && Calm() && bc.pinned == {} && lhn == 0 && SameHolders(old(bc.bufs), bc.bufs)
      ensures ok && old(AtRest(bc.bufs)) ==> AtRest(bc.bufs)
    {
      hide Coherent, Ring, After, NoBuffer, Reused, Unchanged, Rested, AllReady, Away, Clean, SameHolders, AtRest;
      ok, k := InstallTrans(tx, t0, ws, from);
      if !ok { return; }
      ghost var m := bc.bufs;
      HoldersSame(m);
      HoldersKept(m, m, lay, Blocks());
      HoldersOf(old(bc.bufs), m);
      InstallReady(old(bc.bufs), m, lay, lhn, lay.start);
      RestedReady(m, lay.start);
      lhn := 0;
      ExtendsStep(t0, ws, k, bc.trace);
      ok := WriteHead();
      if !ok { return; }
      ReusedFacts(m, bc.bufs);
      InstallReady(m, bc.bufs, lay, 0, lay.start);
      HoldersOf(m, bc.bufs);
      HoldersTwice(old(bc.bufs), m, bc.bufs);
      k := k + 1;
    }

    /** The first half of commit, up to and including the commit point. */
    method LogAll(ghost tx: Tx, ghost h: Block, ghost h0: Block, ghost ws: seq<Write>) returns (ok: bool, ghost k: nat)
      requires Shape() && Calm() && bc.pinned == ToSet(Blocks()) && Quiet(bc.disk, lay, bc.disk)
      requires tx == Pending() && ws == CommitWrites(lay, tx, h, h0)
      requires h == PutHeader(bc.disk[lay.start], Blocks()) && Lists(h, Blocks())
      modifies bc
      ensures k <= lhn + 1 && (ok ==> k == lhn + 1)
      ensures ok <==> AllReady(old(bc.bufs), lay, lhn)
      ensures ok ==> Unchanged(old(bc.bufs), bc.bufs)
      ensures Extends(old(bc.trace), ws, k, bc.trace) && bc.disk == After(old(bc.disk), ws, k)
      ensures ok ==> Shape() && Calm() && bc.pinned == old(bc.pinned)
      ensures ok ==> Committed(bc.disk, lay, old(bc.disk), tx) && bc.disk[lay.start] == h
    {
      hide Coherent, Ring, After, NoBuffer, Reused, Unchanged, Rested, Away, Clean;
      ghost var t0, d := bc.trace, bc.disk;
      ok, k := WriteLog(tx, t0, ws);
      ExtendsAfter(bc.base, t0, ws, k, bc.trace);
      if !ok { return; }
      ghost var m := bc.bufs;
      UnchangedReady(old(bc.bufs), m, lay.start);
      ExtendsStep(t0, ws, k, bc.trace);
      assert lay.InLog(lay.start);
      ok := WriteHead();
      if !ok { return; }
      UnchangedAgain(old(bc.bufs), m, bc.bufs);
      k := k + 1;
      ExtendsAfter(bc.base, t0, ws, k, bc.trace);
      AtHeader(d, lay, tx, h, h0);
    }

    /** recover_from_log on a freshly booted machine, whatever a crash left on disk. */
    method Recover() returns (ok: bool, ghost k: nat)
      requires Shape() && NoneHeld(bc.bufs) && bc.pinned == {} && Recoverable(bc.disk, lay)
      requires lhn == 0 && outstanding == 0 && !committing && ops == [] && sleepers == {}
      modifies this, bc
      ensures Extends(old(bc.trace), RecoverWrites(old(bc.disk), lay), k, bc.trace)
      ensures bc.disk == After(old(bc.disk), RecoverWrites(old(bc.disk), lay), k)
      ensures old(Rested(bc.bufs)) ==> ok && Rested(bc.bufs)
      ensures ok ==> bc.disk == Recovered(old(bc.disk), lay)
      ensures ok ==> lhn == 0 && outstanding == 0 && !committing && ops == [] && sleepers == {}
      ensures ok ==> Valid() && NoneHeld(bc.bufs)
    {
      hide Coherent, Ring, Rested, After, Away, Clean, SameHolders, NoneHeld;
      ghost var d := bc.disk;
      ghost var ws, tx := RecoverWrites(d, lay), LoggedTx(d, lay);
      ok := ReadHead();
      if !ok {
        AfterNothing(d, ws);
        return false, 0;
      }
      NobodyIsAway();
      ghost var m := bc.bufs;
      ok, k := InstallAll(tx, old(bc.trace), ws, 0);
      ExtendsAfter(bc.base, old(bc.trace), ws, k, bc.trace);
      if ok {
        RecoveryStep(d, lay, d, tx, k);
        NoneHeldStill(m, bc.bufs);
      }
    }

    method ReadHead() returns (ok: bool)
      requires Shape() && NoneHeld(bc.bufs) && bc.pinned == {} && Recoverable(bc.disk, lay)
      modifies this, bc
      ensures bc.disk == old(bc.disk) && bc.trace == old(bc.trace)
      ensures outstanding == old(outstanding) && committing == old(committing) && ops == old(ops) &&
              sleepers == old(sleepers)
      ensures ok <==> !NoBuffer(old(bc.bufs), ROOTDEV, lay.start)
      ensures old(Rested(bc.bufs)) ==> ok && Rested(bc.bufs)
      ensures ok ==> Shape() && NoneHeld(bc.bufs) && bc.pinned == {} && Blocks() == Header(bc.disk[lay.start])
    {
      hide Coherent, Ring, After, NoBuffer, Fetched, Unchanged, Rested;
      RestedReady(bc.bufs, lay.start);
      assert lay.InLog(lay.start);
      var buf := bc.Bread(ROOTDEV, lay.start);
      if buf.None? { return false; }
      var hb := bc.bufs[buf.value].data;
      var n, block: seq<Word> := WordAt(hb, 0), lhblock;
      var i := 0;
      while i < n
        invariant 0 <= i <= n && |block| == LOGSIZE
        invariant forall j :: 0 <= j < i ==> block[j] == Header(hb)[j]
      {
        block := block[i := WordAt(hb, 1 + i)];
        i := i + 1;
      }
      lhn, lhblock := n, block;
      assert Blocks() == Header(hb);
      ghost var m := bc.bufs;
      bc.Brelse(buf.value);
      ReuseOne(old(bc.bufs), m, bc.bufs, buf.value, lay.start);
      ReusedFacts(old(bc.bufs), bc.bufs);
      InstallReady(old(bc.bufs), bc.bufs, lay, 0, lay.start);
      return true;
    }

    /** The writes of the commit that would run now. */
    ghost function Intended(): (ws: seq<Write>)
      reads this, bc
      requires Shape()
      ensures |ws| == 2 * lhn + 2
    {
      var h := PutHeader(bc.disk[lay.start], Blocks());
      CommitWrites(lay, Pending(), h, Cleared(h))
    }

    /** commit: the disk receives exactly the first k of the intended writes, all of
        them on success, and then the home blocks on disk are the current contents. */
    method Commit() returns (ok: bool, ghost k: nat)
      requires Valid() && committing && Calm()
      modifies this, bc
      ensures Extends(old(bc.trace), old(Intended()), k, bc.trace)
      ensures bc.disk == After(old(bc.disk), old(Intended()), k)
      ensures ok <==> old(lhn) == 0 || AllReady(old(bc.bufs), lay, old(lhn))
      ensures ok ==> k == if old(lhn) == 0 then 0 else 2 * old(lhn) + 2
      ensures ok ==> Valid() && committing && lhn == 0 && Calm() && SameHolders(old(bc.bufs), bc.bufs)
      ensures ok ==> outstanding == old(outstanding) && (old(AtRest(bc.bufs)) ==> AtRest(bc.bufs))
      ensures ok ==> SameHome(bc.contents, old(bc.contents), lay) && SameHome(bc.disk, bc.contents, lay)
    {
      if lhn == 0 {
        return true, 0;
      }
      HeaderRoundTrip(bc.disk[lay.start], Blocks());
      ghost var h := PutHeader(bc.disk[lay.start], Blocks());
      ok, k := CommitWith(Pending(), h, Cleared(h), Intended());
    }

    method CommitWith(ghost tx: Tx, ghost h: Block, ghost h0: Block, ghost ws: seq<Write>)
      returns (ok: bool, ghost k: nat)
      requires Valid() && committing && Calm()
      requires tx == Pending() && ws == CommitWrites(lay, tx, h, h0)
      requires h == PutHeader(bc.disk[lay.start], Blocks()) && Lists(h, Blocks()) && h0 == Cleared(h)
      modifies this, bc
      ensures Extends(old(bc.trace), ws, k, bc.trace)
      ensures bc.disk == After(old(bc.disk), ws, k)
      ensures ok <==> AllReady(old(bc.bufs), lay, old(lhn))
      ensures ok ==> k == |ws| && Valid() && committing && lhn == 0 && Calm() && SameHolders(old(bc.bufs), bc.bufs)
      ensures ok ==> outstanding == old(outstanding) && (old(AtRest(bc.bufs)) ==> AtRest(bc.bufs))
      ensures ok ==> SameHome(bc.contents, old(bc.contents), lay) && SameHome(bc.disk, bc.contents, lay)
    {
      hide Coherent, Ring, After, NoBuffer, Reused, Unchanged, Rested, AllReady, Away, Clean, SameHolders, AtRest;
      CleanOff(bc.disk, bc.contents, bc.pinned, Blocks());
      ghost var d, had, t0 := bc.disk, bc.contents, bc.trace;
      ok, k := LogAll(tx, h, h0, ws);
      if !ok { return; }
      ReusedFacts(old(bc.bufs), bc.bufs);
      AllReadyKept(old(bc.bufs), bc.bufs, lay, lhn);
      ghost var m := bc.bufs;
      HoldersOf(old(bc.bufs), m);
      EndsWithFinish(lay, tx, h, h0);
      ok, k := InstallAll(tx, t0, ws, k);
      ExtendsAfter(bc.base, t0, ws, k, bc.trace);
      if ok {
        CutCommit(d, lay, tx, h, h0, k);
        HoldersTwice(old(bc.bufs), m, bc.bufs);
        CleanAll(bc.disk, bc.contents, bc.pinned);
        InstallingGives(d, had, lay, tx);
      }
    }

    /** With no buffer in use, a commit has the buffers it needs exactly when not all of them
        hold logged blocks. */
    lemma IdleHasRoom()
      requires Valid() && lhn > 0 && AtRest(bc.bufs)
      ensures AllReady(bc.bufs, lay, lhn) <==> lhn < NBUF
    {
      hide Ring, After;
      if Spare(bc.bufs) {
        var i :| 0 <= i < NBUF && Recyclable(bc.bufs[i]);
        NotAllDirty(bc.bufs, bc.disk, bc.contents, bc.at, bc.pinned, Blocks(), i);
      } else {
        AllDirty(bc.bufs, bc.disk, bc.contents, bc.at, bc.pinned, Blocks());
        assert NoBuffer(bc.bufs, ROOTDEV, lay.start) by {
          assert lay.InLog(lay.start);
        }
      }
    }

    /** With no buffer held there is nobody in the way. */
    lemma NobodyIsAway()
      requires Shape() && NoneHeld(bc.bufs)
      ensures Calm()
    {}
  }
}
