/** What the redo log writes to the disk, and why no crash can split a transaction. */
module LogSpec {
  import opened Types
  import opened Blocks

  const LOGSIZE: nat := 30
  const MAXOPBLOCKS: nat := 10

  /** The log's place on the disk: the header at `start`, logged blocks after it. */
  datatype Layout = Layout(start: nat, size: nat)
  {
    /** The log fits a disk of n blocks. */
    predicate Fits(n: nat) {
      0 < size && start + size <= n
    }

    predicate InLog(b: nat) {
      start <= b < start + size
    }

    predicate Home(n: nat, b: nat) {
      b < n && !InLog(b)
    }
  }

  // ---------------------------------------------------------------------------
  // The header block: a count followed by that many block numbers

  predicate HeaderFits(b: Block) {
    WordAt(b, 0) <= LOGSIZE
  }

  function Header(b: Block): (r: seq<nat>)
    requires HeaderFits(b)
    ensures |r| == WordAt(b, 0)
  {
    seq(WordAt(b, 0), i requires 0 <= i < LOGSIZE => WordAt(b, 1 + i))
  }

  /** The header block after the first k entries have been stored. */
  function PutEntries(b: Block, blocks: seq<Word>, k: nat): Block
    requires k <= |blocks| <= LOGSIZE
  {
    if k == 0 then PutWord(b, 0, |blocks|) else PutWord(PutEntries(b, blocks, k - 1), k, blocks[k - 1])
  }

  function PutHeader(b: Block, blocks: seq<Word>): Block
    requires |blocks| <= LOGSIZE
  {
    PutEntries(b, blocks, |blocks|)
  }

  lemma {:induction false} PutEntriesAt(b: Block, blocks: seq<Word>, k: nat, j: nat)
    requires k <= |blocks| <= LOGSIZE && j <= k
    ensures WordAt(PutEntries(b, blocks, k), j) == if j == 0 then |blocks| else blocks[j - 1]
  {
    if k == 0 {
      WordOfPutWord(b, 0, |blocks|, 0);
    } else {
      WordOfPutWord(PutEntries(b, blocks, k - 1), k, blocks[k - 1], j);
      if j < k {
        PutEntriesAt(b, blocks, k - 1, j);
      }
    }
  }

  /** Reading back a written header gives the block numbers that were written,
      although stale entries of an earlier transaction may follow them. */
  lemma HeaderRoundTrip(b: Block, blocks: seq<Word>)
    requires |blocks| <= LOGSIZE
    ensures Lists(PutHeader(b, blocks), blocks)
  {
    PutEntriesAt(b, blocks, |blocks|, 0);
    forall i | 0 <= i < |blocks| ensures Header(PutHeader(b, blocks))[i] == blocks[i] {
      PutEntriesAt(b, blocks, |blocks|, 1 + i);
    }
  }

  /** The block h is a header that names exactly these blocks. */
  ghost predicate Lists(h: Block, blocks: seq<Word>) {
    HeaderFits(h) && Header(h) == blocks
  }

  /** The header block that write_head stores when the in-memory count is zero. */
  function Cleared(b: Block): (r: Block)
    ensures Lists(r, [])
  {
    HeaderRoundTrip(b, []);
    PutHeader(b, [])
  }

  // ---------------------------------------------------------------------------
  // Transactions and the writes that carry them out

  datatype Tx = Tx(blocks: seq<Word>, datas: seq<Block>)

  ghost predicate GoodBlocks(n: nat, lay: Layout, blocks: seq<Word>)
  {
    && |blocks| <= LOGSIZE && |blocks| < lay.size
    && (forall t :: 0 <= t < |blocks| ==> lay.Home(n, blocks[t]))
    && (forall t, u :: 0 <= t < u < |blocks| ==> blocks[t] != blocks[u])
  }

  ghost predicate GoodTx(d: Disk, lay: Layout, tx: Tx) {
    lay.Fits(|d|) && GoodBlocks(|d|, lay, tx.blocks) && |tx.datas| == |tx.blocks|
  }

  /** install_trans: the data goes home. */
  function InstallWrites(tx: Tx): seq<Write>
    requires |tx.datas| == |tx.blocks|
  {
    seq(|tx.datas|, t requires 0 <= t < |tx.datas| => Write(tx.blocks[t], tx.datas[t]))
  }

  /** install_trans, then the cleared header h0. */
  function Finish(lay: Layout, tx: Tx, h0: Block): (ws: seq<Write>)
    requires |tx.datas| == |tx.blocks|
    ensures |ws| == |tx.blocks| + 1
  {
    seq(|tx.blocks| + 1, i requires 0 <= i < |tx.blocks| + 1 =>
      if i < |tx.blocks| then Write(tx.blocks[i], tx.datas[i]) else Write(lay.start, h0))
  }

  /** Everything commit() writes, in order: the log blocks; the header h that names
      them, which is the commit point; the home blocks; the cleared header h0. */
  function CommitWrites(lay: Layout, tx: Tx, h: Block, h0: Block): (ws: seq<Write>)
    requires |tx.datas| == |tx.blocks|
    ensures |ws| == 2 * |tx.blocks| + 2
  {
    var n := |tx.blocks|;
    seq(2 * n + 2, i requires 0 <= i < 2 * n + 2 =>
      if i < n then Write(lay.start + 1 + i, tx.datas[i])
      else if i == n then Write(lay.start, h)
      else Finish(lay, tx, h0)[i - n - 1])
  }

  lemma EndsWithFinish(lay: Layout, tx: Tx, h: Block, h0: Block)
    requires |tx.datas| == |tx.blocks|
    ensures var ws, n := CommitWrites(lay, tx, h, h0), |tx.blocks|;
            && (forall i :: n + 1 <= i < 2 * n + 2 ==> ws[i] == Finish(lay, tx, h0)[i - (n + 1)])
            && (forall i :: n + 1 <= i < 2 * n + 1 ==> ws[i] == Write(tx.blocks[i - (n + 1)], tx.datas[i - (n + 1)]))
            && ws[2 * n + 1] == Write(lay.start, h0)
  {}

  /** A disk whose log header may be acted on. */
  ghost predicate Recoverable(d: Disk, lay: Layout) {
    lay.Fits(|d|) && HeaderFits(d[lay.start]) && GoodBlocks(|d|, lay, Header(d[lay.start]))
  }

  /** The transaction that the log on disk names. */
  function LoggedTx(d: Disk, lay: Layout): (tx: Tx)
    requires lay.Fits(|d|) && HeaderFits(d[lay.start]) && |Header(d[lay.start])| < lay.size
    ensures |tx.datas| == |tx.blocks| <= LOGSIZE
  {
    var blocks := Header(d[lay.start]);
    Tx(blocks, seq(|blocks|, t requires 0 <= t < |blocks| => d[lay.start + 1 + t]))
  }

  /** Everything recover_from_log() writes, in order. */
  function RecoverWrites(d: Disk, lay: Layout): seq<Write>
    requires lay.Fits(|d|) && HeaderFits(d[lay.start]) && |Header(d[lay.start])| < lay.size
  {
    Finish(lay, LoggedTx(d, lay), Cleared(d[lay.start]))
  }

  // ---------------------------------------------------------------------------
  // Crashes

  /** Home blocks as a completed transaction leaves them. */
  ghost function Post(base: Disk, tx: Tx): Disk
    requires |tx.datas| == |tx.blocks|
  {
    After(base, InstallWrites(tx), |tx.blocks|)
  }

  ghost predicate SameHome(a: Disk, b: Disk, lay: Layout)
  {
    |a| == |b| && forall x :: 0 <= x < |a| && !lay.InLog(x) ==> a[x] == b[x]
  }

  /** The log is empty and the home blocks are exactly those of `base`. */
  ghost predicate Quiet(d: Disk, lay: Layout, base: Disk)
  {
    && lay.Fits(|d|) && SameHome(d, base, lay)
    && Lists(d[lay.start], [])
  }

  /** The log holds all of tx and only blocks of tx may differ from `base`. */
  ghost predicate Committed(d: Disk, lay: Layout, base: Disk, tx: Tx)
  {
    && GoodTx(d, lay, tx) && |d| == |base|
    && Lists(d[lay.start], tx.blocks) && LoggedTx(d, lay) == tx
    && (forall x :: 0 <= x < |d| && !lay.InLog(x) && x !in tx.blocks ==> d[x] == base[x])
  }

  /** Installing any number of blocks of a logged transaction leaves it logged. */
  lemma InstallingStaysCommitted(d: Disk, lay: Layout, base: Disk, tx: Tx, k: nat)
    requires Committed(d, lay, base, tx) && k <= |tx.blocks|
    ensures Committed(After(d, InstallWrites(tx), k), lay, base, tx)
    ensures After(d, InstallWrites(tx), k)[lay.start] == d[lay.start]
  {}

  /** Installing all of it leaves the home blocks as the transaction wants them. */
  lemma InstallingCompletes(d: Disk, lay: Layout, base: Disk, tx: Tx)
    requires GoodTx(d, lay, tx) && |d| == |base|
    requires forall x :: 0 <= x < |d| && !lay.InLog(x) && x !in tx.blocks ==> d[x] == base[x]
    ensures SameHome(Post(d, tx), Post(base, tx), lay)
  {
    forall x | 0 <= x < |d| && !lay.InLog(x) ensures Post(d, tx)[x] == Post(base, tx)[x] {
      PostIsOverwrite(d, lay, tx, x);
      PostIsOverwrite(base, lay, tx, x);
      if x in tx.blocks {
        var t :| 0 <= t < |tx.blocks| && tx.blocks[t] == x;
      }
    }
  }

  /** Clearing the header changes no home block. */
  lemma ClearingIsQuiet(d: Disk, lay: Layout, base: Disk, h0: Block)
    requires lay.Fits(|d|) && SameHome(d, base, lay) && Lists(h0, [])
    ensures Quiet(d[lay.start := h0], lay, base)
  {}

  /** Finishing a logged transaction, cut off after k writes: still logged until the
      header is cleared, and by then wholly installed. */
  lemma FinishStep(d: Disk, lay: Layout, base: Disk, tx: Tx, h0: Block, k: nat)
    requires Committed(d, lay, base, tx) && Lists(h0, []) && k <= |tx.blocks| + 1
    ensures var e := After(d, Finish(lay, tx, h0), k);
            if k <= |tx.blocks| then Committed(e, lay, base, tx) else Quiet(e, lay, Post(base, tx))
  {
    hide Lists;
    if k <= |tx.blocks| {
      AfterPrefix(d, Finish(lay, tx, h0), InstallWrites(tx), k);
      InstallingStaysCommitted(d, lay, base, tx, k);
    } else {
      AfterPrefix(d, Finish(lay, tx, h0), InstallWrites(tx), |tx.blocks|);
      InstallingCompletes(d, lay, base, tx);
      ClearingIsQuiet(Post(d, tx), lay, Post(base, tx), h0);
    }
  }

  lemma RecoveryStep(d: Disk, lay: Layout, base: Disk, tx: Tx, k: nat)
    requires Committed(d, lay, base, tx) && k <= |tx.blocks| + 1
    ensures var e := After(d, RecoverWrites(d, lay), k);
            if k <= |tx.blocks| then Committed(e, lay, base, tx) else Quiet(e, lay, Post(base, tx))
  {
    FinishStep(d, lay, base, tx, Cleared(d[lay.start]), k);
  }

  lemma QuietRecoveryStep(d: Disk, lay: Layout, base: Disk, k: nat)
    requires Quiet(d, lay, base) && k <= |RecoverWrites(d, lay)|
    ensures Quiet(After(d, RecoverWrites(d, lay), k), lay, base)
  {}

  /** The disk after a series of recoveries, the i-th cut off after cuts[i] writes. */
  ghost function Reboots(d: Disk, lay: Layout, cuts: seq<nat>): (r: Disk)
    requires Recoverable(d, lay)
    ensures Recoverable(r, lay)
    decreases |cuts|
  {
    if cuts == [] then d
    else
      var ws := RecoverWrites(d, lay);
      var k := if cuts[0] <= |ws| then cuts[0] else |ws|;
      CutIsRecoverable(d, lay, k);
      Reboots(After(d, ws, k), lay, cuts[1..])
  }

  lemma CutIsRecoverable(d: Disk, lay: Layout, k: nat)
    requires Recoverable(d, lay) && k <= |RecoverWrites(d, lay)|
    ensures Recoverable(After(d, RecoverWrites(d, lay), k), lay)
  {}

  /** One recovery that runs to the end. */
  ghost function Recovered(d: Disk, lay: Layout): (r: Disk)
    requires Recoverable(d, lay)
  {
    After(d, RecoverWrites(d, lay), |RecoverWrites(d, lay)|)
  }

  lemma {:induction false} RebootsOfQuiet(d: Disk, lay: Layout, base: Disk, cuts: seq<nat>)
    requires Quiet(d, lay, base)
    ensures Recoverable(d, lay)
    ensures Quiet(Recovered(Reboots(d, lay, cuts), lay), lay, base)
    decreases |cuts|
  {
    var ws := RecoverWrites(d, lay);
    if cuts == [] {
      QuietRecoveryStep(d, lay, base, |ws|);
    } else {
      var k := if cuts[0] <= |ws| then cuts[0] else |ws|;
      QuietRecoveryStep(d, lay, base, k);
      RebootsOfQuiet(After(d, ws, k), lay, base, cuts[1..]);
    }
  }

  lemma {:induction false} RebootsOfCommitted(d: Disk, lay: Layout, base: Disk, tx: Tx, cuts: seq<nat>)
    requires Committed(d, lay, base, tx)
    ensures Recoverable(d, lay)
    ensures Quiet(Recovered(Reboots(d, lay, cuts), lay), lay, Post(base, tx))
    decreases |cuts|
  {
    var ws := RecoverWrites(d, lay);
    if cuts == [] {
      RecoveryStep(d, lay, base, tx, |ws|);
    } else {
      var k := if cuts[0] <= |ws| then cuts[0] else |ws|;
      RecoveryStep(d, lay, base, tx, k);
      var e := After(d, ws, k);
      if k <= |tx.blocks| {
        RebootsOfCommitted(e, lay, base, tx, cuts[1..]);
      } else {
        RebootsOfQuiet(e, lay, Post(base, tx), cuts[1..]);
      }
    }
  }

  /** commit() cut off before the header write touches only the log. */
  lemma CutBeforeHeader(d: Disk, lay: Layout, tx: Tx, h: Block, h0: Block, k: nat)
    requires Quiet(d, lay, d) && GoodTx(d, lay, tx) && k <= |tx.blocks|
    ensures Quiet(After(d, CommitWrites(lay, tx, h, h0), k), lay, d)
  {}

  /** The header write is the commit point. */
  lemma AtHeader(d: Disk, lay: Layout, tx: Tx, h: Block, h0: Block)
    requires Quiet(d, lay, d) && GoodTx(d, lay, tx) && Lists(h, tx.blocks)
    ensures var e := After(d, CommitWrites(lay, tx, h, h0), |tx.blocks| + 1);
            Committed(e, lay, d, tx) && e[lay.start] == h
  {
    var ws, n := CommitWrites(lay, tx, h, h0), |tx.blocks|;
    var e := After(d, ws, n + 1);
    forall t | 0 <= t < n ensures e[lay.start + 1 + t] == tx.datas[t] {
      AfterLast(d, ws, n + 1, t);
    }
    forall x | 0 <= x < |d| && !lay.InLog(x) ensures e[x] == d[x] {
      AfterFrame(d, ws, n + 1, x);
    }
    AfterLast(d, ws, n + 1, n);
    assert LoggedTx(e, lay).datas == tx.datas;
  }

  /** Cut off commit() after k writes: nothing happened, or the transaction is
      logged, or it is done. */
  lemma CutCommit(d: Disk, lay: Layout, tx: Tx, h: Block, h0: Block, k: nat)
    requires Quiet(d, lay, d) && GoodTx(d, lay, tx) && Lists(h, tx.blocks) && Lists(h0, [])
    requires k <= 2 * |tx.blocks| + 2
    ensures var e, n := After(d, CommitWrites(lay, tx, h, h0), k), |tx.blocks|;
            if k <= n then Quiet(e, lay, d)
            else if k <= 2 * n + 1 then Committed(e, lay, d, tx)
            else Quiet(e, lay, Post(d, tx))
  {
    hide After;
    var ws, n := CommitWrites(lay, tx, h, h0), |tx.blocks|;
    if k <= n {
      CutBeforeHeader(d, lay, tx, h, h0, k);
    } else {
      AtHeader(d, lay, tx, h, h0);
      EndsWithFinish(lay, tx, h, h0);
      AfterShift(d, ws, n + 1, Finish(lay, tx, h0), k - n - 1);
      FinishStep(After(d, ws, n + 1), lay, d, tx, h0, k - n - 1);
    }
  }

  /** Crash atomicity: cut commit() off after any k writes, then recovery any number
      of times at any writes; the next recovery that completes leaves every home
      block as it was before the transaction when the header had not been written,
      and as the transaction wants it when it had, with the log empty again. */
  lemma CrashAtomicity(d: Disk, lay: Layout, tx: Tx, h: Block, h0: Block, k: nat, cuts: seq<nat>)
    requires Quiet(d, lay, d) && GoodTx(d, lay, tx) && Lists(h, tx.blocks) && Lists(h0, [])
    requires k <= 2 * |tx.blocks| + 2
    ensures var e := After(d, CommitWrites(lay, tx, h, h0), k);
            && Recoverable(e, lay)
            && Quiet(Recovered(Reboots(e, lay, cuts), lay), lay, if k <= |tx.blocks| then d else Post(d, tx))
  {
    var e := After(d, CommitWrites(lay, tx, h, h0), k);
    CutCommit(d, lay, tx, h, h0, k);
    if k <= |tx.blocks| {
      RebootsOfQuiet(e, lay, d, cuts);
    } else if k <= 2 * |tx.blocks| + 1 {
      RebootsOfCommitted(e, lay, d, tx, cuts);
    } else {
      RebootsOfQuiet(e, lay, Post(d, tx), cuts);
    }
  }

  /** Post is what its name says: the transaction's data at its blocks, the old
      contents elsewhere. */
  lemma PostIsOverwrite(d: Disk, lay: Layout, tx: Tx, b: nat)
    requires GoodTx(d, lay, tx) && b < |d|
    ensures b !in tx.blocks ==> Post(d, tx)[b] == d[b]
    ensures forall t :: 0 <= t < |tx.blocks| && tx.blocks[t] == b ==> Post(d, tx)[b] == tx.datas[t]
  {
    var ws := InstallWrites(tx);
    if b in tx.blocks {
      var t :| 0 <= t < |tx.blocks| && tx.blocks[t] == b;
      AfterLast(d, ws, |ws|, t);
    } else {
      forall i | 0 <= i < |ws| ensures ws[i].block != b { assert tx.blocks[i] in tx.blocks; }
      AfterFrame(d, ws, |ws|, b);
    }
  }
}
