/** The whole of mkfs: a root directory and the files given to it. */
module MkfsMain {
  import opened Types
  import opened Blocks
  import opened FsLayout
  import opened FsSpec
  import opened FsState
  import opened Fs
  import opened Mkfs
  import Links
  import Directory

  const T_DIR: Half := 1
  const T_FILE: Half := 2
  const ROOT: nat := 1

  type Entry = Links.Dirent

  /** A C string of one-byte characters. */
  predicate PlainName(n: Links.Name) {
    forall i :: 0 <= i < |n| ==> n[i] != '\0' && n[i] as int < 256
  }

  /** The root directory with the first n files; file k is inode k + 2. */
  function RootEntries(names: seq<Links.Name>, n: nat): (r: seq<Entry>)
    requires n <= |names|
    ensures |r| == 2 + n
  {
    if n == 0 then [Links.Dirent(ROOT, "."), Links.Dirent(ROOT, "..")]
    else RootEntries(names, n - 1) + [Links.Dirent(n + 1, names[n - 1])]
  }

  function RootSize(n: nat): nat {
    Directory.DIRENT * (2 + n)
  }

  function FileBlocks(files: seq<seq<Byte>>, n: nat): nat
    requires n <= |files|
  {
    if n == 0 then 0 else FileBlocks(files, n - 1) + BlocksFor(|files[n - 1]|)
  }

  /** The blocks in use after n files. */
  function Used(files: seq<seq<Byte>>, n: nat): nat
    requires n <= |files|
  {
    NMETA + BlocksFor(RootSize(n)) + FileBlocks(files, n)
  }

  lemma {:induction false} UsedGrows(files: seq<seq<Byte>>, n: nat, m: nat)
    requires n <= m <= |files|
    ensures Used(files, n) <= Used(files, m)
    decreases m
  {
    if n < m {
      BlocksForGrows(RootSize(m - 1), RootSize(m));
      UsedGrows(files, n, m - 1);
    }
  }

  /** There are inodes and blocks for all files, and no file is too long. */
  ghost predicate FitsImage(files: seq<seq<Byte>>) {
    && 2 + |files| <= SB.ninodes && Used(files, |files|) <= SB.size
    && forall k :: 0 <= k < |files| ==> |files[k]| <= MAXFILE * BSIZE
  }

  // ---------------------------------------------------------------------------
  // What the image holds

  ghost predicate AllShaped(s: State) {
    && |s.cur| == |s.refs| == SB.ninodes
    && forall j :: 0 <= j < SB.ninodes ==> |s.refs[j]| == NSLOTS && s.cur[j].size <= MAXFILE * BSIZE
  }

  ghost predicate HoldsFiles(s: State, files: seq<seq<Byte>>, n: nat) {
    && n <= |files| && 2 + n <= SB.ninodes && AllShaped(s)
    && forall k :: 0 <= k < n ==> File(s, 2 + k) == files[k]
  }

  /** The root is a directory, the next n inodes are files, each with one link, and all other
      inodes are free. */
  ghost predicate Typed(cur: seq<Dinode>, n: nat) {
    && |cur| == SB.ninodes && 2 + n <= SB.ninodes
    && forall j :: 0 <= j < |cur| ==>
         if 1 <= j < 2 + n then cur[j].typ == (if j == ROOT then T_DIR else T_FILE) && cur[j].nlink == 1
         else cur[j].typ == 0
  }

  /** The root directory and n files, before the root is rounded up. */
  ghost predicate HoldsAll(s: State, names: seq<Links.Name>, files: seq<seq<Byte>>, n: nat) {
    && HoldsFiles(s, files, n) && n <= |names| && Typed(s.cur, n)
    && s.cur[ROOT].size == RootSize(n) && Directory.Entries(File(s, ROOT)) == RootEntries(names, n)
  }

  lemma BytesBelow(s: State, t: State, j: nat)
    requires AllShaped(s) && AllShaped(t) && t.refs == s.refs && SameBytes(s, t) && j < SB.ninodes
    requires Tight(s.refs[j], s.cur[j].size) && s.cur[j].size <= t.cur[j].size
    ensures File(s, j) <= File(t, j)
  {
    hide FileByte;
    forall o | 0 <= o < s.cur[j].size ensures File(t, j)[o] == File(s, j)[o] {
      assert o / BSIZE < CeilBlocks(s.cur[j].size) && s.refs[j][SlotOf(o / BSIZE)] != 0;
    }
  }

  /** A new inode changes no file, and its own is empty. */
  lemma AllocHolds(s: State, t: State, i: nat, n: Dinode, j: nat)
    requires AllShaped(s) && i < SB.ninodes && t == s.(d := t.d, cur := s.cur[i := n]) && SameBytes(s, t) && n.size == 0
    requires j < SB.ninodes && Tight(s.refs[j], s.cur[j].size)
    ensures AllShaped(t) && (j != i ==> File(t, j) == File(s, j)) && (j == i ==> File(t, j) == [])
  {
    if j != i {
      BytesBelow(s, t, j);
    }
  }

  lemma EntryAppended(f: seq<Byte>, e: Entry)
    requires |f| % Directory.DIRENT == 0 && Directory.Plain(e)
    ensures Directory.Entries(f + Directory.Encode(e)) == Directory.Entries(f) + [e]
  {
    hide Directory.Entries, Directory.Encode;
    Directory.WriteEntry(f, |f| / Directory.DIRENT, e);
    assert Overwrite(f, |f|, Directory.Encode(e)) == f + Directory.Encode(e);
    assert Links.PutEnt(Directory.Entries(f), |f| / Directory.DIRENT, e) == Directory.Entries(f) + [e];
  }

  /** iappend of one directory entry to the root. */
  method AddEntry(image: Image, e: Entry) returns (ok: bool)
    requires image.Valid() && ROOT < image.freeinode && AllShaped(image.st) && image.st.cur[ROOT].typ != 0
    requires Directory.Plain(e) && image.st.cur[ROOT].size % Directory.DIRENT == 0
    modifies image
    ensures var size := old(image.st).cur[ROOT].size;
            && (ok <==> size + Directory.DIRENT <= MAXFILE * BSIZE &&
                        old(image.freeblock) + BlocksFor(size + Directory.DIRENT) - BlocksFor(size) <= SB.size)
            && (ok ==> image.freeblock == old(image.freeblock) + BlocksFor(size + Directory.DIRENT) - BlocksFor(size))
    ensures ok ==> image.Valid() && image.freeinode == old(image.freeinode) && AllShaped(image.st)
    ensures ok ==> Extended(old(image.st), image.st, ROOT, Directory.Encode(e))
    ensures ok ==> Directory.Entries(File(image.st, ROOT)) == Directory.Entries(File(old(image.st), ROOT)) + [e]
  {
    hide Good, Agrees, Tight, ZeroTail, BlocksFor, FileByte, Directory.Encode, Directory.Entries;
    ghost var s := image.st;
    ok := image.Append(ROOT, Directory.Encode(e));
    if ok {
      image.AllShaped();
      EntryAppended(File(s, ROOT), e);
    }
  }

  /** With an inode for the next file. */
  ghost predicate HoldsNext(s: State, names: seq<Links.Name>, files: seq<seq<Byte>>, n: nat) {
    && HoldsFiles(s, files, n) && n < |names| == |files| && Typed(s.cur, n + 1) && File(s, 2 + n) == []
    && s.cur[ROOT].size == RootSize(n) && Directory.Entries(File(s, ROOT)) == RootEntries(names, n)
  }

  lemma AllocHoldsAll(s: State, t: State, i: nat, d: Dinode, names: seq<Links.Name>, files: seq<seq<Byte>>, n: nat)
    requires HoldsAll(s, names, files, n) && n < |names| == |files|
    requires i == 2 + n < SB.ninodes && t == s.(d := t.d, cur := s.cur[i := d]) && SameBytes(s, t)
    requires d.size == 0 && d.typ == T_FILE && d.nlink == 1
    requires forall j :: 0 <= j < SB.ninodes ==> Tight(s.refs[j], s.cur[j].size)
    ensures HoldsNext(t, names, files, n)
  {
    hide File, SameBytes, Tight, Shaped, Directory.Entries;
    AllocHolds(s, t, i, d, i);
    AllocHolds(s, t, i, d, ROOT);
    forall k | 0 <= k < n ensures File(t, 2 + k) == files[k] {
      AllocHolds(s, t, i, d, 2 + k);
    }
  }

  lemma StillTyped(s: State, t: State, i: nat, src: seq<Byte>, n: nat)
    requires Extended(s, t, i, src) && Typed(s.cur, n)
    ensures Typed(t.cur, n)
  {
    hide File;
    forall j | 0 <= j < |t.cur| ensures t.cur[j].typ == s.cur[j].typ && t.cur[j].nlink == s.cur[j].nlink {}
  }

  lemma HoldsMore(s: State, t: State, u: State, names: seq<Links.Name>, files: seq<seq<Byte>>, n: nat, e: seq<Byte>)
    requires HoldsNext(s, names, files, n)
    requires AllShaped(t) && AllShaped(u) && |e| == Directory.DIRENT && Extended(s, t, ROOT, e) &&
             Extended(t, u, 2 + n, files[n])
    requires Directory.Entries(File(t, ROOT)) == RootEntries(names, n) + [Links.Dirent(n + 2, names[n])]
    ensures HoldsAll(u, names, files, n + 1)
  {
    hide File, Directory.Entries, Typed;
    StillTyped(s, t, ROOT, e, n + 1);
    StillTyped(t, u, 2 + n, files[n], n + 1);
    forall k | 0 <= k < n + 1 ensures File(u, 2 + k) == files[k] {
      assert File(t, 2 + k) == File(s, 2 + k);
    }
  }

  /** One turn of mkfs's loop over its arguments: an inode, an entry in the root, and the
      contents. */
  method AddFile(image: Image, names: seq<Links.Name>, files: seq<seq<Byte>>, k: nat) returns (ok: bool)
    requires image.Valid() && image.freeinode == 2 + k && k < |files| == |names| && PlainName(names[k])
    requires HoldsAll(image.st, names, files, k) && image.freeblock == Used(files, k)
    modifies image
    ensures ok <==> 2 + k < SB.ninodes && Used(files, k + 1) <= SB.size && |files[k]| <= MAXFILE * BSIZE
    ensures ok ==> image.Valid() && image.freeinode == 3 + k
    ensures ok ==> HoldsAll(image.st, names, files, k + 1) && image.freeblock == Used(files, k + 1)
  {
    hide Good, Agrees, Tight, ZeroTail, BlocksFor, FileByte, Directory.Encode, Directory.Entries, File, SameBytes,
         Extended, RootEntries, Labelled;
    ghost var s := image.st;
    var inum;
    ok, inum := image.Ialloc(T_FILE);
    if !ok {
      return;
    }
    ghost var t := image.st;
    AllocHoldsAll(s, t, inum, t.cur[inum], names, files, k);
    BlocksForGrows(RootSize(k), RootSize(k + 1));
    BlocksForNone();
    var e := Links.Dirent(inum, names[k]);
    ok := AddEntry(image, e);
    if !ok {
      return;
    }
    ghost var u := image.st;
    OtherFacts(t, u, inum, Directory.Encode(e));
    ok := image.AppendFile(inum, files[k]);
    if ok {
      image.AllShaped();
      HoldsMore(t, u, image.st, names, files, k, Directory.Encode(e));
    }
  }

  lemma BlocksForNone()
    ensures BlocksFor(0) == 0
  {}

  lemma OtherFacts(t: State, u: State, i: nat, e: seq<Byte>)
    requires Extended(t, u, ROOT, e) && i < |t.cur| && i != ROOT
    ensures i < |u.cur| && u.cur[i] == t.cur[i]
  {}

  // ---------------------------------------------------------------------------
  // The finished image

  /** What is to be read from the image: each file, and the root directory with its entries,
      after which there are only unused ones if the last rounding has left no hole. */
  ghost predicate Reads(s: State, names: seq<Links.Name>, files: seq<seq<Byte>>) {
    && |names| == |files| && HoldsFiles(s, files, |files|) && Typed(s.cur, |files|)
    && s.cur[ROOT].size == RoundUp(RootSize(|files|))
    && var entries := Directory.Entries(File(s, ROOT));
       && RootEntries(names, |files|) <= entries
       && ((2 + |files|) % 32 != 0 ==> forall k :: 2 + |files| <= k < |entries| ==> entries[k] == Links.Dirent(0, ""))
  }

  lemma ZeroEntry(b: seq<Byte>)
    requires |b| == Directory.DIRENT && forall i :: 0 <= i < |b| ==> b[i] == 0
    ensures Directory.Decode(b) == Links.Dirent(0, "")
  {}

  lemma PrefixEntries(f: seq<Byte>, g: seq<Byte>)
    requires f <= g && |f| % Directory.DIRENT == 0 && |g| % Directory.DIRENT == 0
    ensures Directory.Entries(f) <= Directory.Entries(g)
    ensures (forall o :: |f| <= o < |g| ==> g[o] == 0) ==>
              forall k :: |f| / Directory.DIRENT <= k < |g| / Directory.DIRENT ==>
                  Directory.Entries(g)[k] == Links.Dirent(0, "")
  {
    hide Directory.Decode;
    forall k | 0 <= k < |f| / Directory.DIRENT ensures Directory.Entries(g)[k] == Directory.Entries(f)[k] {
      assert g[Directory.DIRENT * k..Directory.DIRENT * k + Directory.DIRENT] ==
          f[Directory.DIRENT * k..Directory.DIRENT * k + Directory.DIRENT];
    }
    if forall o :: |f| <= o < |g| ==> g[o] == 0 {
      forall k | |f| / Directory.DIRENT <= k < |g| / Directory.DIRENT
        ensures Directory.Entries(g)[k] == Links.Dirent(0, "") {
        ZeroEntry(g[Directory.DIRENT * k..Directory.DIRENT * k + Directory.DIRENT]);
      }
    }
  }

  lemma RoundedTail(s: State, t: State, size: nat)
    requires AllShaped(t) && AllShaped(s) && t.refs == s.refs && SameBytes(s, t) &&
             t.cur[ROOT].size == RoundUp(size) && size % BSIZE != 0
    requires Tight(s.refs[ROOT], size) && ZeroTail(s.refs[ROOT], s.d, size)
    ensures forall o :: size <= o < |File(t, ROOT)| ==> File(t, ROOT)[o] == 0
  {
    hide FileByte;
    assert CeilBlocks(size) * BSIZE == RoundUp(size);
    forall o | size <= o < |File(t, ROOT)| ensures File(t, ROOT)[o] == 0 {
      assert o / BSIZE < CeilBlocks(size) && s.refs[ROOT][SlotOf(o / BSIZE)] != 0;
      assert FileByte(s.refs[ROOT], s.d, o) == 0;
    }
  }

  lemma FinishedReads(s: State, t: State, names: seq<Links.Name>, files: seq<seq<Byte>>)
    requires |names| == |files| && HoldsAll(s, names, files, |files|) && t.refs == s.refs && SameBytes(s, t)
    requires t.cur == s.cur[ROOT := s.cur[ROOT].(size := RoundUp(s.cur[ROOT].size))] && |t.cur| == SB.ninodes
    requires forall j :: 0 <= j < SB.ninodes ==>
             Tight(s.refs[j], s.cur[j].size) && ZeroTail(s.refs[j], s.d, s.cur[j].size)
    ensures Reads(t, names, files)
  {
    hide File, SameBytes, Tight, ZeroTail, Directory.Entries, RootEntries;
    assert AllShaped(t);
    forall k | 0 <= k < |files| ensures File(t, 2 + k) == files[k] {
      BytesBelow(s, t, 2 + k);
    }
    BytesBelow(s, t, ROOT);
    if (2 + |files|) % 32 != 0 {
      RoundedTail(s, t, s.cur[ROOT].size);
    }
    PrefixEntries(File(s, ROOT), File(t, ROOT));
  }

  /** mkfs: stops when something does not fit, and else writes an image that reads as the files
      it was given; if the root directory did not end at a block boundary, the image is a file
      system with all its invariants. */
  method Build(names: seq<Links.Name>, files: seq<seq<Byte>>) returns (ok: bool, image: Image)
    requires |names| == |files| && forall k :: 0 <= k < |names| ==> PlainName(names[k])
    ensures ok <==> FitsImage(files)
    ensures ok ==> Reads(image.st, names, files)
    ensures ok ==> (NoHoles(image.st.refs[ROOT], image.st.cur[ROOT].size) <==> (2 + |files|) % 32 != 0)
    ensures ok ==> image.st.d == image.blocks && Labelled(image.blocks)
    ensures ok && (2 + |files|) % 32 != 0 ==> Good(SB, image.st, -1)
  {
    hide Good, Agrees, Tight, ZeroTail, BlocksFor, FileByte, Directory.Entries, File, SameBytes, Reads, RootEntries,
         NoHoles, Labelled;
    image := Root();
    var k := 0;
    while k < |files|
      invariant 0 <= k <= |files| && image.Valid() && image.freeinode == 2 + k && fresh(image)
      invariant HoldsAll(image.st, names, files, k) && image.freeblock == Used(files, k) && Used(files, k) <= SB.size
      invariant forall j :: 0 <= j < k ==> |files[j]| <= MAXFILE * BSIZE
    {
      UsedGrows(files, k + 1, |files|);
      ok := AddFile(image, names, files, k);
      if !ok {
        return;
      }
      k := k + 1;
    }
    ok := true;
    ghost var s := image.st;
    image.AllTight();
    image.Finish(ROOT);
    FinishedReads(s, image.st, names, files);
  }

  /** The root directory with its dots. */
  method Root() returns (image: Image)
    ensures fresh(image) && image.Valid() && image.freeinode == 2 && image.freeblock == Used([], 0) <= SB.size
    ensures forall names: seq<Links.Name>, files: seq<seq<Byte>> :: HoldsAll(image.st, names, files, 0)
  {
    hide Good, Agrees, Tight, ZeroTail, FileByte, Directory.Encode, Directory.Entries, File, SameBytes;
    image := new Image();
    image.AllShaped();
    image.AllTight();
    ghost var s := image.st;
    var ok, root := image.Ialloc(T_DIR);
    AllocHolds(s, image.st, root, image.st.cur[root], root);
    ghost var t := image.st;
    NoEntries();
    ok := AddEntry(image, Links.Dirent(root, "."));
    ghost var u := image.st;
    ExtendedFacts(t, u, ROOT, Directory.Encode(Links.Dirent(root, ".")));
    ok := AddEntry(image, Links.Dirent(root, ".."));
    ExtendedFacts(u, image.st, ROOT, Directory.Encode(Links.Dirent(root, "..")));
  }

  lemma NoEntries()
    ensures Directory.Entries([]) == []
  {}
}
