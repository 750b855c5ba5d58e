/** From the files given to mkfs to a running file system: the image is built, the log is
    recovered, and the file system is mounted on what the log has left. */
module Boot {
  import opened Types
  import opened Blocks
  import opened LogSpec
  import opened FsLayout
  import opened FsSpec
  import opened FsState
  import opened Fs
  import opened Mkfs
  import opened MkfsMain
  import opened CrashSafe
  import Bio
  import Links
  import Log
  import LogOps

  /** The log that mkfs leaves can be recovered, and recovery changes no home block. */
  lemma FreshLog(image: Disk)
    requires Labelled(image) && |image| == SB.size
    ensures Recoverable(image, Layout(LOGSTART, NLOG)) &&
            SameHome(Recovered(image, Layout(LOGSTART, NLOG)), image, Layout(LOGSTART, NLOG))
  {
    var lay := Layout(LOGSTART, NLOG);
    ZeroWords(0);
    assert Lists(image[LOGSTART], []);
    assert Quiet(image, lay, image);
    QuietRecoveryStep(image, lay, image, |RecoverWrites(image, lay)|);
  }

  /** What can be read depends on home blocks alone. */
  lemma ReadsStill(s: State, e: Disk, names: seq<Links.Name>, files: seq<seq<Byte>>)
    requires Reads(s, names, files) && Good(SB, s, -1) && SameHome(e, s.d, Layout(LOGSTART, NLOG))
    ensures Reads(s.(d := e), names, files) && |s.cur| == SB.ninodes
  {
    hide Good, File;
    var lay := Layout(LOGSTART, NLOG);
    Geometry();
    HomeFile(SB, lay, s, e, ROOT);
    forall k | 0 <= k < |files| ensures File(s.(d := e), 2 + k) == files[k] {
      HomeFile(SB, lay, s, e, 2 + k);
    }
  }

  /** The first boot of an image of mkfs: the file system is in order, holds the files, and is
      ready for operations that no crash can split. */
  method Start(image: Image, ghost names: seq<Links.Name>, ghost files: seq<seq<Byte>>) returns (log: Log.Log, fs: Fs)
    requires Labelled(image.blocks) && image.st.d == image.blocks && Good(SB, image.st, -1) &&
             Reads(image.st, names, files)
    ensures fresh(log) && fresh(log.bc) && fresh(fs) && fs.Valid() && fs.sb == SB && Reads(fs.st, names, files)
    ensures Quiescent(log, SB, fs.st) && IsFs(SB, fs.st, log.bc.disk)
  {
    hide Good, IsFs, After, Reads, Recovered, SameHome, Log.Log.Valid, SuperBlock, ReadSuper, ReadLogPlace, Bio.Ring,
         Bio.Coherent;
    hide Log.AtRest, Log.NoneHeld, Recoverable;
    SizesFit(SB, image.st, -1);
    FreshLog(image.blocks);
    SuperReadsBack();
    var sb, place := ReadSuper(image.blocks[1]), ReadLogPlace(image.blocks[1]);
    var cache := new Bio.Bcache(image.blocks);
    BootCache(cache);
    log := new Log.Log(cache, place.0, place.1);
    ghost var lay := log.lay;
    Geometry();
    HomeIsGood(SB, lay, image.st, log.bc.disk);
    ghost var s := image.st.(d := log.bc.disk);
    ReadsStill(image.st, log.bc.disk, names, files);
    Restful(log);
    IsNow(SB, lay, s, log.bc.disk);
    fs := new Fs(sb, log.bc.disk, s);
  }

  lemma BootCache(cache: Bio.Bcache)
    requires cache.Valid() && cache.pinned == {}
    requires forall i :: 0 <= i < Bio.NBUF ==> cache.bufs[i].refcnt == 0 && !cache.bufs[i].locked
    ensures Log.NoneHeld(cache.bufs) && Log.Rested(cache.bufs)
  {
    cache.BootRests();
  }

  lemma Restful(log: Log.Log)
    requires log.Valid() && log.lhn == 0 && Log.Rested(log.bc.bufs)
    ensures Log.AtRest(log.bc.bufs) && log.bc.contents == log.bc.disk
    ensures SameHome(log.bc.disk, log.bc.disk, log.lay)
  {
    LogOps.RestIsCalm(log);
    Log.CleanAll(log.bc.disk, log.bc.contents, log.bc.pinned);
  }

  /** All of it, for any files that fit. */
  method FirstBoot(names: seq<Links.Name>, files: seq<seq<Byte>>) returns (log: Log.Log, fs: Fs)
    requires |names| == |files| && FitsImage(files) && (2 + |files|) % 32 != 0 &&
             forall k :: 0 <= k < |names| ==> PlainName(names[k])
    ensures fresh(log) && fresh(log.bc) && fresh(fs) && fs.Valid() && fs.sb == SB && Reads(fs.st, names, files)
    ensures Quiescent(log, SB, fs.st) && IsFs(SB, fs.st, log.bc.disk)
  {
    hide Good, IsFs, Reads, Labelled;
    var ok, image := Build(names, files);
    log, fs := Start(image, names, files);
  }

  // ---------------------------------------------------------------------------
  // Reading what mkfs was given

  /** ilock and readi of a whole file by its inode number. */
  method ReadAll(fs: Fs, i: nat) returns (r: ReadResult)
    requires fs.Valid() && fs.sb == SB && i < SB.ninodes && (fs.st.cur[i].typ == T_DIR || fs.st.cur[i].typ == T_FILE)
    modifies fs
    ensures fs.Valid() && fs.sb == SB && fs.st == old(fs.st) && fs.blocks == old(fs.blocks)
    ensures Shaped(fs.st, i) && r == Bytes(File(fs.st, i))
  {
    hide Good, FileByte;
    SizesFit(SB, fs.st, -1);
    GoodRows(SB, fs.st, -1);
    var ok := fs.Ilock(i);
    var size := fs.mem[i].size;
    r := fs.Readi(i, 0, size);
    assert File(fs.st, i)[0..size] == File(fs.st, i);
  }

  /** The first of the files with this name is the one that dirlookup finds. */
  lemma {:induction false} FindsFile(names: seq<Links.Name>, n: nat, entries: seq<Links.Dirent>, k: nat)
    requires k < n <= |names| && RootEntries(names, n) <= entries && names[k] != "." && names[k] != ".."
    requires forall j :: 0 <= j < k ==> names[j] != names[k]
    ensures Links.Find(entries, names[k], 0) == 2 + k && entries[2 + k].inum == 2 + k
  {
    EntriesAre(names, n);
    var m := Links.Find(entries, names[k], 0);
    assert entries[2 + k] == RootEntries(names, n)[2 + k];
    forall j | 0 <= j < 2 + k ensures entries[j].name != names[k] {
      assert entries[j] == RootEntries(names, n)[j];
      assert j >= 2 ==> RootEntries(names, n)[2 + (j - 2)] == Links.Dirent(j, names[j - 2]);
    }
  }

  lemma {:induction false} EntriesAre(names: seq<Links.Name>, n: nat)
    requires n <= |names|
    ensures var e := RootEntries(names, n);
            && e[0] == Links.Dirent(ROOT, ".") && e[1] == Links.Dirent(ROOT, "..")
            && forall k :: 0 <= k < n ==> e[2 + k] == Links.Dirent(2 + k, names[k])
  {
    if n > 0 {
      EntriesAre(names, n - 1);
    }
  }

  lemma ReadsAre(s: State, names: seq<Links.Name>, files: seq<seq<Byte>>, k: nat)
    requires Reads(s, names, files) && k < |names|
    ensures |names| == |files| && 2 + k < SB.ninodes == |s.cur| && AllShaped(s)
    ensures s.cur[ROOT].typ == T_DIR && s.cur[2 + k].typ == T_FILE && File(s, 2 + k) == files[k]
    ensures RootEntries(names, |files|) <= Directory.Entries(File(s, ROOT))
  {
    hide File, RootEntries, Directory.Entries;
  }

  /** A file is opened by its name in the root directory and read. */
  method ReadFile(fs: Fs, name: Links.Name, ghost names: seq<Links.Name>, ghost files: seq<seq<Byte>>, ghost k: nat)
    returns (r: ReadResult)
    requires fs.Valid() && fs.sb == SB && Reads(fs.st, names, files)
    requires k < |names| && name == names[k] != "." && name != ".." && forall j :: 0 <= j < k ==> names[j] != name
    modifies fs
    ensures fs.Valid() && fs.st == old(fs.st) && k < |files| && r == Bytes(files[k])
  {
    hide Good, File, RootEntries, Directory.Entries, Reads, Fs.Valid;
    ReadsAre(fs.st, names, files, k);
    var root := ReadAll(fs, ROOT);
    var entries := Directory.Entries(root.data);
    FindsFile(names, |files|, entries, k);
    var at := Links.Find(entries, name, 0);
    r := ReadAll(fs, entries[at].inum);
  }

  /** mkfs with any files that fit, the first boot, and a read of one of them by its name: the
      bytes are those that were given. */
  method BootAndRead(names: seq<Links.Name>, files: seq<seq<Byte>>, k: nat) returns (r: ReadResult)
    requires |names| == |files| && FitsImage(files) && (2 + |files|) % 32 != 0 &&
             forall j :: 0 <= j < |names| ==> PlainName(names[j])
    requires k < |names| && names[k] != "." && names[k] != ".." && forall j :: 0 <= j < k ==> names[j] != names[k]
    ensures r == Bytes(files[k])
  {
    hide Good, IsFs, Reads, Labelled, Quiescent;
    var log, fs := FirstBoot(names, files);
    r := ReadFile(fs, names[k], names, files, k);
  }
}
