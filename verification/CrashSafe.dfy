/** The file system over the log: no crash leaves it between two operations. */
module CrashSafe {
  import opened Types
  import opened Blocks
  import opened LogSpec
  import opened FsLayout
  import opened FsSpec
  import opened FsState
  import opened Fs
  import Log
  import LogOps
  import FileWrite

  /** The log lies between the super block and the inodes, and fits the disk. */
  ghost predicate LogPlace(sb: Super, lay: Layout) {
    sb.Good() && 0 < lay.size && 2 <= lay.start && lay.start + lay.size <= sb.inodestart
  }

  /** The invariants are about blocks outside of the log only. */
  lemma HomeIsGood(sb: Super, lay: Layout, s: State, e: Disk)
    requires LogPlace(sb, lay) && Good(sb, s, -1) && SameHome(e, s.d, lay)
    ensures Good(sb, s.(d := e), -1)
  {
    hide BlockBit, WordAt, ReadInode, Whole;
    forall b | 0 <= b < sb.size ensures s.bits[b] == BlockBit(e[sb.BitBlock(b)], b % BPB) {
      BitmapWhere(sb, b);
      assert s.bits[b] == BlockBit(s.d[sb.BitBlock(b)], b % BPB);
    }
    forall i | 0 <= i < sb.ninodes ensures DiskInode(e, sb, i) == s.cur[i] {
      assert DiskInode(s.d, sb, i) == s.cur[i];
    }
    forall i | 0 <= i < |s.refs| ensures RowIs(s.refs[i], s.cur[i], e) {
      assert RowIs(s.refs[i], s.cur[i], s.d);
      assert s.refs[i][12] == Ref(s.cur[i], s.d, 12);
    }
  }

  /** And so are the contents of files. */
  lemma HomeFile(sb: Super, lay: Layout, s: State, e: Disk, i: nat)
    requires LogPlace(sb, lay) && Good(sb, s, -1) && SameHome(e, s.d, lay) && i < |s.cur|
    ensures Shaped(s, i) && File(s.(d := e), i) == File(s, i)
  {
    hide Bits, Inodes, Tie;
    SizesFit(sb, s, -1);
    forall o | 0 <= o < s.cur[i].size ensures FileByte(s.refs[i], e, o) == FileByte(s.refs[i], s.d, o) {
      BelowSize(s, i, o);
      assert s.owner[s.refs[i][SlotOf(o / BSIZE)]] == Slot(i, SlotOf(o / BSIZE));
    }
  }

  /** A transaction that holds what an operation has changed, as log_write collects it. */
  ghost predicate Holds(tx: Tx, d: Disk, s: Disk, t: Disk, lay: Layout) {
    && |s| == |t| == |d| && |tx.datas| == |tx.blocks| && SameHome(d, s, lay)
    && (forall i :: 0 <= i < |tx.blocks| ==> tx.blocks[i] < |t| && tx.datas[i] == t[tx.blocks[i]])
    && (forall b :: 0 <= b < |s| && !lay.InLog(b) && b !in tx.blocks ==> t[b] == s[b])
  }

  /** The blocks that an operation logs, with their new contents, are such a transaction. */
  lemma LoggedIsHeld(tx: Tx, d: Disk, b0: Disk, b1: Disk, logged: set<int>, lay: Layout)
    requires Logged(b0, b1, {}, logged) && SameHome(d, b0, lay) && |tx.datas| == |tx.blocks|
    requires forall b: nat :: b in logged && b < |b0| ==> b in tx.blocks
    requires forall i :: 0 <= i < |tx.blocks| ==> tx.blocks[i] < |b1| && tx.datas[i] == b1[tx.blocks[i]]
    ensures Holds(tx, d, b0, b1, lay)
  {}

  lemma PostIsNew(tx: Tx, d: Disk, s: Disk, t: Disk, lay: Layout)
    requires Holds(tx, d, s, t, lay) && GoodTx(d, lay, tx)
    ensures SameHome(Post(d, tx), t, lay)
  {
    forall x | 0 <= x < |d| && !lay.InLog(x) ensures Post(d, tx)[x] == t[x] {
      PostIsOverwrite(d, lay, tx, x);
      if x in tx.blocks {
        var i :| 0 <= i < |tx.blocks| && tx.blocks[i] == x;
      }
    }
  }

  /** An operation takes the file system from s to t, and commit writes its transaction to
      disk d. Cut commit off after k writes, and recovery any number of times: once a
      recovery completes, the disk holds the file system of s, or that of t if the header
      had been written, with all invariants and with the contents of every file. */
  lemma OperationIsAtomic(sb: Super, lay: Layout, s: State, t: State, tx: Tx, d: Disk, h: Block, h0: Block, k: nat,
      cuts: seq<nat>)
    requires LogPlace(sb, lay) && Good(sb, s, -1) && Good(sb, t, -1)
    requires Quiet(d, lay, d) && GoodTx(d, lay, tx) && Holds(tx, d, s.d, t.d, lay)
    requires Lists(h, tx.blocks) && Lists(h0, []) && k <= 2 * |tx.blocks| + 2
    ensures Recoverable(After(d, CommitWrites(lay, tx, h, h0), k), lay)
    ensures var e := Recovered(Reboots(After(d, CommitWrites(lay, tx, h, h0), k), lay, cuts), lay);
            var now := if k <= |tx.blocks| then s else t;
            && Good(sb, now.(d := e), -1)
            && forall i :: 0 <= i < |now.cur| ==> Shaped(now, i) && File(now.(d := e), i) == File(now, i)
  {
    hide Good, Post, CommitWrites, Lists, GoodTx, File;
    CrashAtomicity(d, lay, tx, h, h0, k, cuts);
    var e := Recovered(Reboots(After(d, CommitWrites(lay, tx, h, h0), k), lay, cuts), lay);
    var now := if k <= |tx.blocks| then s else t;
    PostIsNew(tx, d, s.d, t.d, lay);
    assert SameHome(e, now.d, lay);
    HomeIsGood(sb, lay, now, e);
    forall i | 0 <= i < |now.cur| ensures Shaped(now, i) && File(now.(d := e), i) == File(now, i) {
      HomeFile(sb, lay, now, e, i);
    }
  }

  // ---------------------------------------------------------------------------
  // Over the writes that commit really makes

  /** Disk e holds the file system of s. */
  ghost predicate IsFs(sb: Super, s: State, e: Disk) {
    Good(sb, s.(d := e), -1) && forall i :: 0 <= i < |s.cur| ==> Shaped(s, i) && File(s.(d := e), i) == File(s, i)
  }

  /** However often recovery is cut off, one that completes brings back s or t. */
  ghost predicate Survives(sb: Super, lay: Layout, s: State, t: State, d: Disk) {
    && Recoverable(d, lay)
    && forall cuts: seq<nat> ::
         var e := Recovered(Reboots(d, lay, cuts), lay);
         IsFs(sb, s, e) || IsFs(sb, t, e)
  }

  lemma CutSurvives(sb: Super, lay: Layout, s: State, t: State, tx: Tx, d: Disk, h: Block, h0: Block, k: nat)
    requires LogPlace(sb, lay) && Good(sb, s, -1) && Good(sb, t, -1)
    requires Quiet(d, lay, d) && GoodTx(d, lay, tx) && Holds(tx, d, s.d, t.d, lay)
    requires Lists(h, tx.blocks) && Lists(h0, []) && k <= 2 * |tx.blocks| + 2
    ensures Survives(sb, lay, s, t, After(d, CommitWrites(lay, tx, h, h0), k))
  {
    hide Good, CommitWrites, Lists, GoodTx, File, Recovered, Reboots, Quiet, After;
    OperationIsAtomic(sb, lay, s, t, tx, d, h, h0, k, []);
    forall cuts: seq<nat>
      ensures var e := Recovered(Reboots(After(d, CommitWrites(lay, tx, h, h0), k), lay, cuts), lay);
              IsFs(sb, s, e) || IsFs(sb, t, e)
    {
      OperationIsAtomic(sb, lay, s, t, tx, d, h, h0, k, cuts);
    }
  }

  /** A trace cut off anywhere in its new part. */
  lemma CutTrace(base: Disk, t0: seq<Write>, ws: seq<Write>, k: nat, trace: seq<Write>, m: nat)
    requires Extends(t0, ws, k, trace) && |t0| <= m <= |trace|
    ensures After(base, trace, m) == After(After(base, t0, |t0|), ws, m - |t0|)
  {
    ExtendsAfter(base, t0, ws, m - |t0|, trace[..m]);
    AfterPrefix(base, trace, trace[..m], m);
  }

  lemma IsNow(sb: Super, lay: Layout, t: State, e: Disk)
    requires LogPlace(sb, lay) && Good(sb, t, -1) && SameHome(e, t.d, lay)
    ensures IsFs(sb, t, e)
  {
    hide Good, File;
    HomeIsGood(sb, lay, t, e);
    forall i | 0 <= i < |t.cur| ensures Shaped(t, i) && File(t.(d := e), i) == File(t, i) {
      HomeFile(sb, lay, t, e, i);
    }
  }

  lemma HomeTwice(a: Disk, b: Disk, c: Disk, lay: Layout)
    requires SameHome(a, b, lay) && SameHome(b, c, lay)
    ensures SameHome(a, c, lay)
  {}

  /** What the log holds just before a commit. */
  lemma CommitFacts(log: Log.Log, s: Disk, t: Disk, h: Block)
    requires log.Valid() && log.Calm() && h == PutHeader(log.bc.disk[log.lay.start], log.Blocks())
    requires SameHome(log.bc.disk, s, log.lay) && SameHome(log.bc.contents, t, log.lay)
    ensures var d, tx := log.bc.disk, log.Pending();
            && Quiet(d, log.lay, d) && GoodTx(d, log.lay, tx) && Holds(tx, d, s, t, log.lay) && Lists(h, tx.blocks)
            && log.Intended() == CommitWrites(log.lay, tx, h, Cleared(h)) &&
                 d == After(log.bc.base, log.bc.trace, |log.bc.trace|)
  {
    hide CommitWrites, After, Lists, PutHeader;
    HeaderRoundTrip(log.bc.disk[log.lay.start], log.Blocks());
    Log.CleanOff(log.bc.disk, log.bc.contents, log.bc.pinned, log.Blocks());
  }

  /** commit, with the file system of s on disk and that of t in the cache: after a crash at
      any of its writes, and whether or not the machine halts, recovery finds s or t; when it
      is through, t is on disk. */
  method CommitOperation(log: Log.Log, ghost sb: Super, ghost s: State, ghost t: State) returns (ok: bool)
    requires log.Valid() && log.committing && log.Calm()
    requires LogPlace(sb, log.lay) && Good(sb, s, -1) && Good(sb, t, -1)
    requires SameHome(log.bc.disk, s.d, log.lay) && SameHome(log.bc.contents, t.d, log.lay)
    modifies log, log.bc
    ensures |old(log.bc.trace)| <= |log.bc.trace| && log.bc.disk == After(log.bc.base, log.bc.trace, |log.bc.trace|)
    ensures forall m :: |old(log.bc.trace)| <= m <= |log.bc.trace| ==>
            Survives(sb, log.lay, s, t, After(log.bc.base, log.bc.trace, m))
    ensures ok <==> old(log.lhn) == 0 || Log.AllReady(old(log.bc.bufs), log.lay, old(log.lhn))
    ensures ok ==> log.Valid() && log.committing && log.lhn == 0 && IsFs(sb, t, log.bc.disk)
    ensures ok ==> SameHome(log.bc.disk, t.d, log.lay) && SameHome(log.bc.contents, t.d, log.lay)
    ensures ok ==> log.outstanding == old(log.outstanding) && (old(Log.AtRest(log.bc.bufs)) ==> Log.AtRest(log.bc.bufs))
  {
    hide Good, CommitWrites, GoodTx, File, Survives, IsFs, After;
    ghost var d, t0, tx := log.bc.disk, log.bc.trace, log.Pending();
    ghost var h := PutHeader(d[log.lay.start], log.Blocks());
    ghost var ws, lay := log.Intended(), log.lay;
    CommitFacts(log, s.d, t.d, h);
    ghost var k;
    ok, k := log.Commit();
    ghost var trace := log.bc.trace;
    ExtendsAfter(log.bc.base, t0, ws, k, trace);
    forall m | |t0| <= m <= |trace| ensures Survives(sb, lay, s, t, After(log.bc.base, trace, m)) {
      CutTrace(log.bc.base, t0, ws, k, trace, m);
      CutSurvives(sb, lay, s, t, tx, d, h, Cleared(h), m - |t0|);
    }
    if ok {
      HomeTwice(log.bc.contents, old(log.bc.contents), t.d, lay);
      HomeTwice(log.bc.disk, log.bc.contents, t.d, lay);
      IsNow(sb, lay, t, log.bc.disk);
    }
  }

  // ---------------------------------------------------------------------------
  // Whole operations, from begin_op to the end of end_op

  /** Nothing is going on, and disk and cache hold the file system of s. */
  ghost predicate Quiescent(log: Log.Log, sb: Super, s: State)
    reads log, log.bc
  {
    && log.Valid() && !log.committing && log.outstanding == 0 && log.lhn == 0 && Log.AtRest(log.bc.bufs)
    && LogPlace(sb, log.lay) && log.lay.size >= LOGSIZE && Good(sb, s, -1)
    && SameHome(log.bc.disk, s.d, log.lay) && SameHome(log.bc.contents, s.d, log.lay)
  }

  /** A crash at any write since the trace was n long is recovered to s or t. */
  ghost predicate SafeSince(log: Log.Log, sb: Super, s: State, t: State, n: nat)
    reads log, log.bc
  {
    && n <= |log.bc.trace| && log.bc.disk == After(log.bc.base, log.bc.trace, |log.bc.trace|)
    && forall m :: n <= m <= |log.bc.trace| ==> Survives(sb, log.lay, s, t, After(log.bc.base, log.bc.trace, m))
  }

  /** end_op of the only operation, which has led to t: it commits, and does not halt. */
  method EndOperation(log: Log.Log, ghost o: nat, ghost sb: Super, ghost s: State, ghost t: State)
    requires log.Valid() && Log.AtRest(log.bc.bufs) && o < |log.ops| && log.ops[o].Some? && log.outstanding == 1
    requires log.lhn <= LogOps.SAFE && LogPlace(sb, log.lay) && log.lay.size >= LOGSIZE && Good(sb, s, -1) &&
             Good(sb, t, -1)
    requires SameHome(log.bc.disk, s.d, log.lay) && SameHome(log.bc.contents, t.d, log.lay)
    modifies log, log.bc
    ensures Quiescent(log, sb, t) && IsFs(sb, t, log.bc.disk) && SafeSince(log, sb, s, t, |old(log.bc.trace)|)
  {
    hide Good, IsFs, Survives, After, Log.AllReady, Log.AtRest, SameHome;
    var last := log.EndOp(o);
    LogOps.RestIsCalm(log);
    if log.lhn > 0 {
      log.IdleHasRoom();
    }
    var ok := CommitOperation(log, sb, s, t);
    log.FinishCommit();
  }

  /** An operation that changes at most eight different blocks. */
  method RunOperation(log: Log.Log, ws: seq<Write>, ghost sb: Super, ghost s: State, ghost t: State)
    requires Quiescent(log, sb, s) && Good(sb, t, -1) && SameHome(After(s.d, ws, |ws|), t.d, log.lay)
    requires (forall k :: 0 <= k < |ws| ==> log.lay.Home(|s.d|, ws[k].block)) &&
             |LogOps.BlocksIn(ws, |ws|)| <= LogOps.SAFE
    modifies log, log.bc
    ensures Quiescent(log, sb, t) && IsFs(sb, t, log.bc.disk) && SafeSince(log, sb, s, t, |old(log.bc.trace)|)
  {
    hide Good, IsFs, Survives, After, Log.AtRest;
    ghost var c := log.bc.contents;
    var started := log.BeginOp(0);
    ghost var o := |log.ops| - 1;
    var ok := LogOps.RunWrites(log, o, ws);
    AfterHome(c, s.d, ws, |ws|, log.lay);
    HomeTwice(log.bc.contents, After(s.d, ws, |ws|), t.d, log.lay);
    EndOperation(log, o, sb, s, t);
  }

  lemma {:induction false} AfterHome(a: Disk, b: Disk, ws: seq<Write>, k: nat, lay: Layout)
    requires SameHome(a, b, lay) && k <= |ws|
    ensures SameHome(After(a, ws, k), After(b, ws, k), lay)
  {
    if k > 0 {
      AfterHome(a, b, ws, k - 1, lay);
    }
  }

  /** iupdate as an operation of its own, on the buffers of the cache. */
  method UpdateInode(log: Log.Log, sb: Super, i: nat, n: Dinode, ghost s: State) returns (ghost t: State)
    requires Quiescent(log, sb, s) && i < |s.cur| && Good(sb, s.(cur := s.cur[i := n]), i)
    modifies log, log.bc
    ensures t == s.(d := t.d, cur := s.cur[i := n])
    ensures Quiescent(log, sb, t) && IsFs(sb, t, log.bc.disk) && SafeSince(log, sb, s, t, |old(log.bc.trace)|)
  {
    hide Good, IsFs, Survives, After, Log.AtRest, PutInode;
    var w := sb.InodeBlock(i);
    ghost var u := s.(cur := s.cur[i := n]);
    UpdateKeepsGood(sb, u, i);
    SizesFit(sb, u, i);
    ghost var c := log.bc.contents;
    var started := log.BeginOp(0);
    ghost var o := |log.ops| - 1;
    var ok := LogOps.UpdateBlock(log, o, w, x => PutInode(x, i % IPB, n));
    t := u.(d := u.d[w := PutInode(u.d[w], i % IPB, n)]);
    EndOperation(log, o, sb, s, t);
  }

  // ---------------------------------------------------------------------------
  // A chunk of filewrite, through the log to the disk

  /** The logged blocks with their contents. */
  method Listed(blocks: Disk, logged: set<int>) returns (ws: seq<Write>)
    requires forall b :: b in logged ==> 0 <= b < |blocks|
    ensures forall k :: 0 <= k < |ws| ==>
            ws[k].block in logged && ws[k].block < |blocks| && ws[k].data == blocks[ws[k].block]
    ensures |LogOps.BlocksIn(ws, |ws|)| <= |logged|
    ensures forall b: nat :: b in logged ==> b in LogOps.BlocksIn(ws, |ws|)
  {
    ws := [];
    var b := 0;
    while b < |blocks|
      invariant 0 <= b <= |blocks| && forall x :: x in LogOps.BlocksIn(ws, |ws|) <==> x in logged && x < b
      invariant forall k :: 0 <= k < |ws| ==>
                ws[k].block in logged && ws[k].block < b && ws[k].data == blocks[ws[k].block]
    {
      if b in logged {
        ListedMore(ws, Write(b, blocks[b]));
        ws := ws + [Write(b, blocks[b])];
      }
      b := b + 1;
    }
    FileWrite.SubsetSize(LogOps.BlocksIn(ws, |ws|), logged);
  }

  lemma ListedMore(ws: seq<Write>, w: Write)
    ensures LogOps.BlocksIn(ws + [w], |ws| + 1) == LogOps.BlocksIn(ws, |ws|) + {w.block}
  {
    SameBlocks(ws, ws + [w], |ws|);
  }

  lemma {:induction false} SameBlocks(ws: seq<Write>, vs: seq<Write>, k: nat)
    requires k <= |ws| && k <= |vs| && forall j :: 0 <= j < k ==> ws[j] == vs[j]
    ensures LogOps.BlocksIn(ws, k) == LogOps.BlocksIn(vs, k)
  {
    if k > 0 {
      SameBlocks(ws, vs, k - 1);
    }
  }

  /** Such a list of writes makes of the old blocks the new ones. */
  lemma ListedGives(b0: Disk, b1: Disk, ws: seq<Write>, k: nat, b: nat)
    requires |b0| == |b1| && k <= |ws| && b < |b0| &&
             forall j :: 0 <= j < |ws| ==> ws[j].block < |b1| && ws[j].data == b1[ws[j].block]
    ensures After(b0, ws, k)[b] == if b in LogOps.BlocksIn(ws, k) then b1[b] else b0[b]
  {
    if k > 0 {
      ListedGives(b0, b1, ws, k - 1, b);
    }
  }

  lemma ListedIsAll(b0: Disk, b1: Disk, logged: set<int>, ws: seq<Write>)
    requires Logged(b0, b1, {}, logged) &&
             forall j :: 0 <= j < |ws| ==> ws[j].block < |b1| && ws[j].data == b1[ws[j].block]
    requires forall b: nat :: b in logged ==> b in LogOps.BlocksIn(ws, |ws|)
    ensures After(b0, ws, |ws|) == b1
  {
    hide After;
    forall b | 0 <= b < |b0| ensures After(b0, ws, |ws|)[b] == b1[b] {
      ListedGives(b0, b1, ws, |ws|, b);
    }
  }

  /** One chunk of filewrite, with the blocks that it has logged put through the log and
      committed: it never meets the panic of log_write, and after a crash anywhere the file
      system is that of before or that of after the chunk. */
  method WriteChunk(file: FileWrite.OpenFile, log: Log.Log, src: seq<Byte>, i: nat, ghost s: State, ghost o: nat)
    returns (r: WriteResult)
    requires file.Going(s, o, src, i) && i < |src| < 0x8000_0000 && file.fs.sb.size < BPB
    requires Quiescent(log, file.fs.sb, file.fs.st)
    modifies file, file.fs, log, log.bc
    ensures r.WriteDevice? <==> s.cur[file.inum].typ == T_DEV
    ensures var end := old(file.off) + FileWrite.Least(|src| - i, FileWrite.CHUNK);
            s.cur[file.inum].typ != T_DEV ==>
              && (r.WriteError? <==> o > s.cur[file.inum].size || end > MAXFILE * BSIZE)
              && (r.Halted? <==> !r.WriteError? && !FileWrite.Room(s, file.inum, o, end))
    ensures r.WriteDevice? || r.WriteError? ==> file.Going(s, o, src, i)
    ensures !r.Written? ==> log.bc.disk == old(log.bc.disk) && log.bc.trace == old(log.bc.trace)
    ensures r.Written? ==> file.Going(s, o, src, i + FileWrite.Least(|src| - i, FileWrite.CHUNK))
    ensures r.Written? ==> Quiescent(log, file.fs.sb, file.fs.st) && IsFs(file.fs.sb, file.fs.st, log.bc.disk)
    ensures r.Written? ==> SafeSince(log, file.fs.sb, old(file.fs.st), file.fs.st, |old(log.bc.trace)|)
  {
    hide Good, IsFs, Survives, After, Log.AtRest, Log.Log.Valid, Result, FileWrite.Spent, LogOps.BlocksIn;
    ghost var t := file.fs.st;
    r := file.WriteChunk(src, i, s, o);
    if r.Written? {
      var ws := Listed(file.fs.blocks, file.fs.logged);
      ListedIsAll(t.d, file.fs.blocks, file.fs.logged, ws);
      RunOperation(log, ws, file.fs.sb, t, file.fs.st);
    }
  }
}
