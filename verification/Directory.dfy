/** The directory operations as the kernel runs them, every run of them, and the bytes of a
    directory entry. */
module Directory {
  import opened Options
  import opened Links
  import Blocks
  import Types
  import FsLayout
  import Fs

  const DIRENT: nat := 16
  const DIRMAX: nat := FsLayout.MAXFILE * Blocks.BSIZE / DIRENT   // entries of the largest file

  /** Full is the panic on a directory of the largest size without an unused entry. */
  datatype EntryResult = Entered | Present | Full

  datatype LinkResult = Made | Failed | Stopped

  datatype CreateResult = Existing(inum: nat) | New(inum: nat) | Refused | Halted

  class Inodes {
    var t: Tree
    ghost var at: map<int, (int, int)>

    ghost predicate Valid()
      reads this
    {
      Inv(t, at)
    }

    /** dirlookup: the entry with this name, or one past the last. */
    method DirLookup(dp: nat, name: Name) returns (k: nat)
      requires dp < |t| && t[dp].kind.Dir?
      ensures k == Find(t[dp].ents, name, 0)
    {
      k := 0;
      while k < |t[dp].ents|
        invariant k <= |t[dp].ents| && Find(t[dp].ents, name, 0) == Find(t[dp].ents, name, k)
      {
        if t[dp].ents[k].inum != 0 && t[dp].ents[k].name == name {
          return;
        }
        k := k + 1;
      }
    }

    /** dirlink: refuses a name that is present, and reuses the first unused entry. */
    method DirLink(dp: nat, name: Name, inum: nat) returns (r: EntryResult)
      requires dp < |t| && t[dp].kind.Dir?
      modifies `t
      ensures r.Present? <==> Find(old(t)[dp].ents, name, 0) < |old(t)[dp].ents|
      ensures r.Full? <==> !r.Present? && NoEntry(old(t)[dp].ents)
      ensures t == if r.Entered?
              then old(t)[dp := old(t)[dp].(ents := PutEnt(old(t)[dp].ents, FindFree(old(t)[dp].ents, 0),
                  Dirent(inum, name)))]
                   else old(t)
    {
      var e := t[dp].ents;
      var k := DirLookup(dp, name);
      if k < |e| {
        return Present;
      }
      k := 0;
      while k < |e| && e[k].inum != 0
        invariant k <= |e| && FindFree(e, 0) == FindFree(e, k)
      {
        k := k + 1;
      }
      if DIRENT * k + DIRENT > FsLayout.MAXFILE * Blocks.BSIZE {
        return Full;
      }
      t := t[dp := t[dp].(ents := PutEnt(e, k, Dirent(inum, name)))];
      return Entered;
    }

    method IsDirEmpty(dp: nat) returns (b: bool)
      requires dp < |t|
      ensures b <==> DirEmpty(t[dp].ents)
    {
      var k := 2;
      while k < |t[dp].ents|
        invariant 2 <= k && forall j :: 2 <= j < k && j < |t[dp].ents| ==> t[dp].ents[j].inum == 0
      {
        if t[dp].ents[k].inum != 0 {
          return false;
        }
        k := k + 1;
      }
      return true;
    }

    /** ialloc. */
    method Ialloc(kind: Kind) returns (i: nat)
      requires |t| > 0
      modifies `t
      ensures 1 <= i <= |t| == |old(t)| && forall j :: 1 <= j < i ==> !old(t)[j].kind.Free?
      ensures i < |t| ==> old(t)[i].kind.Free? && t == old(t)[i := Node(kind, 0, [])]
      ensures i == |t| ==> t == old(t)
    {
      i := 1;
      while i < |t|
        invariant 1 <= i <= |t| && t == old(t) && forall j :: 1 <= j < i ==> !t[j].kind.Free?
      {
        if t[i].kind.Free? {
          t := t[i := Node(kind, 0, [])];
          return;
        }
        i := i + 1;
      }
    }

    /** The new inode gets its one link, and if it is a directory its dots, of which ".." is
        one more link to the parent. */
    method Furnish(dp: nat, i: nat)
      requires i < |t| && dp < |t| && i != 0 && i != dp && t[i].ents == []
      modifies `t
      ensures t == old(t)[i := Node(old(t)[i].kind, 1, NewEnts(old(t)[i].kind, i, dp))]
                   [dp := old(t)[dp].(nlink := old(t)[dp].nlink + if old(t)[i].kind.Dir? then 1 else 0)]
    {
      hide Find, FindFree;
      t := t[i := t[i].(nlink := 1)];
      if t[i].kind.Dir? {
        t := t[dp := t[dp].(nlink := t[dp].nlink + 1)];
        DotsFit(i, dp);
        var r1 := DirLink(i, ".", i);
        var r2 := DirLink(i, "..", dp);
      }
    }

    /** create, with the parent resolved. Halted is a panic, of ialloc when all inodes are in use
        or of dirlink when the parent is full. The counts are right afterwards exactly when the
        parent is still in the tree. */
    method Create(dp: nat, name: Name, kind: Kind) returns (r: CreateResult)
      requires Valid() && dp < |t| && t[dp].kind.Dir? && !kind.Free?
      modifies this
      ensures r.Halted? <==> CreateHalts(old(t), dp, name)
      ensures r.Halted? && !NoEntry(old(t)[dp].ents) ==> t == old(t)
      ensures !r.Halted? ==> CreateDone(old(t), t, dp, name, kind, r)
      ensures r.New? ==> (Tallied(t) <==> Linked(old(t), dp))
      ensures !r.Halted? && (r.New? ==> Linked(old(t), dp)) ==> Valid()
    {
      hide Naming, Tallied, Placed, Tidy, Find, FindFree, Created;
      var k := DirLookup(dp, name);
      if k < |t[dp].ents| {
        EntryInRange(t, at, dp, k);
        var i := t[dp].ents[k].inum;
        return if kind.File? && t[i].kind.File? then Existing(i) else Refused;
      }
      ghost var s := t;
      var i := Ialloc(kind);
      if i == |t| {
        return Halted;
      }
      RootIsUsed(s, at, dp, i);
      Furnish(dp, i);
      var entry := DirLink(dp, name, i);
      if entry.Full? {
        return Halted;
      }
      CreatedIs(s, t, dp, name, kind, i);
      CreatedTalliedIff(s, at, dp, name, kind, i);
      if Linked(s, dp) {
        CreatedKeepsInv(s, at, dp, name, kind, i);
        at := CreatedAt(s, at, dp, kind, i);
      }
      return New(i);
    }

    /** sys_link, with the inode and the parent resolved; there may be no parent. A failure
        after the count went up takes it down again. The counts are right after a success
        exactly when the parent is still in the tree. Stopped is the panic of dirlink. */
    method Link(i: nat, parent: Option<nat>, name: Name) returns (r: LinkResult)
      requires Valid() && 0 < i < |t| && !t[i].kind.Free?
      requires parent.Some? ==> parent.value < |t| && t[parent.value].kind.Dir?
      modifies this
      ensures LinkDone(old(t), t, i, parent, name, r)
      ensures r.Made? ==> (Tallied(t) <==> Linked(old(t), parent.value))
      ensures !r.Stopped? && (r.Made? ==> Linked(old(t), parent.value)) ==> Valid()
    {
      hide Naming, Tallied, Placed, Tidy, Find, FindFree, LinkMade;
      if t[i].kind.Dir? {
        return Failed;
      }
      ghost var s := t;
      t := t[i := t[i].(nlink := t[i].nlink + 1)];
      if parent.Some? {
        var dp := parent.value;
        var entry := DirLink(dp, name, i);
        if entry.Full? {
          return Stopped;
        }
        if entry.Entered? {
          LinkIs(s, t, dp, name, i);
          RootIsUsed(s, at, dp, 0);
          LinkTalliedIff(s, at, dp, name, i);
          if Linked(s, dp) {
            LinkKeepsInv(s, at, dp, name, i);
          }
          return Made;
        }
      }
      t := t[i := t[i].(nlink := t[i].nlink - 1)];
      assert t == s;
      return Failed;
    }

    /** sys_unlink, with the parent resolved. Its panic on an inode without links cannot
        happen. */
    method Unlink(dp: nat, name: Name) returns (ok: bool)
      requires Valid() && dp < |t| && t[dp].kind.Dir?
      modifies this
      ensures Valid() && UnlinkDone(old(t), t, dp, name, ok)
    {
      hide Naming, Tallied, Placed, Tidy, Find, FindFree, LinkCut;
      if name == "." || name == ".." {
        return false;
      }
      var k := DirLookup(dp, name);
      if k == |t[dp].ents| {
        return false;
      }
      FoundIsLinked(t, at, dp, name);
      var i := t[dp].ents[k].inum;
      assert t[i].nlink >= 1;  // where the source panics
      if t[i].kind.Dir? {
        var empty := IsDirEmpty(i);
        if !empty {
          return false;
        }
      }
      Cut(dp, k);
      return true;
    }

    /** The updates of sys_unlink, once it may go ahead. */
    method Cut(dp: nat, k: nat)
      requires Removable(t, at, dp, k)
      modifies this
      ensures Valid() && old(t)[dp].ents[k].inum != dp && old(t)[old(t)[dp].ents[k].inum].nlink > 0
      ensures t == LinkCut(old(t), dp, k)
    {
      hide Inv, DirEmpty, LinkCut, Naming;
      ghost var s := t;
      var i := t[dp].ents[k].inum;
      CutKeepsInv(s, at, dp, k);
      RemovableFacts(s, at, dp, k);
      t := t[dp := t[dp].(ents := PutEnt(t[dp].ents, k, Dirent(0, "")))];
      if t[i].kind.Dir? {
        t := t[dp := t[dp].(nlink := t[dp].nlink - 1)];
      }
      t := t[i := t[i].(nlink := t[i].nlink - 1)];
      CutIs(s, t, dp, k);
      at := CutAt(s, at, dp, k);
    }

    /** The part of iput that frees an inode, with r references to it. */
    method Iput(i: nat, r: nat)
      requires Valid() && 0 < i < |t| && r >= 1
      modifies this
      ensures Valid() && t == if old(t)[i].nlink == 0 && r == 1 then Reaped(old(t), i) else old(t)
      ensures old(t)[i].nlink == 0 && r == 1 ==> t[i].kind.Free? && t[i].nlink == 0 && t[i].ents == []
      ensures |t| == |old(t)| && forall j :: 0 <= j < |t| && j != i ==> t[j] == old(t)[j]
    {
      if t[i].nlink == 0 && r == 1 {
        ReapKeepsInv(t, at, i);
        t := t[i := Node(Free, 0, [])];
      }
    }
  }

  /** There is no unused entry, and no room for one more. */
  ghost predicate NoEntry(e: seq<Dirent>) {
    FindFree(e, 0) >= DIRMAX
  }

  ghost predicate CreateHalts(s: Tree, dp: nat, name: Name)
    requires dp < |s|
  {
    && Find(s[dp].ents, name, 0) == |s[dp].ents|
    && ((forall j :: 1 <= j < |s| ==> !s[j].kind.Free?) || NoEntry(s[dp].ents))
  }

  ghost predicate LinkDone(s: Tree, t: Tree, i: nat, parent: Option<nat>, name: Name, r: LinkResult) {
    && i < |s| && (parent.Some? ==> parent.value < |s|)
    && (r.Failed? <==> s[i].kind.Dir? || parent.None? || Find(s[parent.value].ents, name, 0) < |s[parent.value].ents|)
    && (r.Stopped? <==> !r.Failed? && NoEntry(s[parent.value].ents))
    && (r.Made? ==> parent.value != i && t == LinkMade(s, parent.value, name, i))
    && (r.Failed? ==> t == s)
  }

  ghost predicate UnlinkDone(s: Tree, t: Tree, dp: nat, name: Name, ok: bool) {
    && dp < |s|
    && var e := s[dp].ents;
       var k := Find(e, name, 0);
       if ok then
         && name != "." && name != ".." && 2 <= k < |e| && e[k].inum < |s| && e[k].inum != dp
         && s[dp].nlink > 0 && s[e[k].inum].nlink > 0
         && (s[e[k].inum].kind.Dir? ==> DirEmpty(s[e[k].inum].ents))
         && t == LinkCut(s, dp, k)
       else
         && t == s
         && (name == "." || name == ".." || k == |e| ||
             (e[k].inum < |s| && s[e[k].inum].kind.Dir? && !DirEmpty(s[e[k].inum].ents)))
  }

  lemma LinkIs(s: Tree, t: Tree, dp: nat, name: Name, i: nat)
    requires dp < |s| == |t| && i < |s| && i != dp && t[i] == s[i].(nlink := s[i].nlink + 1)
    requires t[dp] == s[dp].(ents := PutEnt(s[dp].ents, FindFree(s[dp].ents, 0), Dirent(i, name)))
    requires forall j :: 0 <= j < |s| && j != i && j != dp ==> t[j] == s[j]
    ensures t == LinkMade(s, dp, name, i)
  {}

  lemma CutIs(s: Tree, t: Tree, dp: nat, k: nat)
    requires dp < |s| == |t| && k < |s[dp].ents| && s[dp].ents[k].inum < |s| && s[dp].ents[k].inum != dp
    requires var i := s[dp].ents[k].inum; s[dp].nlink > 0 && s[i].nlink > 0 && t[i] == s[i].(nlink := s[i].nlink - 1)
    requires var i := s[dp].ents[k].inum;
             t[dp] == Node(s[dp].kind, s[dp].nlink - (if s[i].kind.Dir? then 1 else 0),
                 PutEnt(s[dp].ents, k, Dirent(0, "")))
    requires forall j :: 0 <= j < |s| && j != s[dp].ents[k].inum && j != dp ==> t[j] == s[j]
    ensures t == LinkCut(s, dp, k)
  {}

  /** A name other than the dots is found only in a directory that is in the tree. */
  lemma FoundIsLinked(s: Tree, at: map<int, (int, int)>, dp: nat, name: Name)
    requires Inv(s, at) && dp < |s| && s[dp].kind.Dir? && name != "." && name != ".."
    requires Find(s[dp].ents, name, 0) < |s[dp].ents|
    ensures var k := Find(s[dp].ents, name, 0);
            Linked(s, dp) && k >= 2 && 0 < s[dp].ents[k].inum < |s| && s[s[dp].ents[k].inum].nlink > 0
  {
    hide Find, Placed, Naming;
    assert Dots(s, dp);
    var k := Find(s[dp].ents, name, 0);
    assert Counts(s, dp, k, s[dp].ents[k].inum);
  }

  /** How create ends: the name was there, or there is a new inode under it. */
  ghost predicate CreateDone(s: Tree, t: Tree, dp: nat, name: Name, kind: Kind, r: CreateResult)
    requires dp < |s|
  {
    var e := s[dp].ents;
    var k := Find(e, name, 0);
    match r
    case Existing(i) => t == s && kind.File? && k < |e| && i == e[k].inum < |s| && s[i].kind.File?
    case Refused => t == s && k < |e| && e[k].inum < |s| && !(kind.File? && s[e[k].inum].kind.File?)
    case New(i) => k == |e| && !NoEntry(e) && 0 < i < |s| && i != dp && s[i].kind.Free? &&
        t == Created(s, dp, name, kind, i)
    case Halted => false
  }

  lemma RootIsUsed(s: Tree, at: map<int, (int, int)>, dp: nat, i: nat)
    requires Inv(s, at) && dp < |s| && s[dp].kind.Dir? && i < |s| && s[i].kind.Free?
    ensures dp != 0 && i != dp
  {}

  lemma CreatedIs(s: Tree, t: Tree, dp: nat, name: Name, kind: Kind, i: nat)
    requires dp < |s| == |t| && i < |s| && i != dp && t[i] == Node(kind, 1, NewEnts(kind, i, dp))
    requires t[dp] == Node(s[dp].kind, s[dp].nlink + (if kind.Dir? then 1 else 0),
             PutEnt(s[dp].ents, FindFree(s[dp].ents, 0), Dirent(i, name)))
    requires forall j :: 0 <= j < |s| && j != i && j != dp ==> t[j] == s[j]
    ensures t == Created(s, dp, name, kind, i)
  {}

  lemma EntryInRange(s: Tree, at: map<int, (int, int)>, dp: nat, k: nat)
    requires Inv(s, at) && dp < |s| && s[dp].kind.Dir? && k < |s[dp].ents|
    ensures s[dp].ents[k].inum < |s|
  {}

  lemma DotsFit(i: nat, dp: nat)
    requires i != 0
    ensures PutEnt([], FindFree([], 0), Dirent(i, ".")) == [Dirent(i, ".")]
    ensures Find([Dirent(i, ".")], "..", 0) == 1
    ensures PutEnt([Dirent(i, ".")], FindFree([Dirent(i, ".")], 0), Dirent(dp, "..")) ==
            [Dirent(i, "."), Dirent(dp, "..")]
  {}

  // ---------------------------------------------------------------------------
  // Runs

  datatype Op =
    | OpCreate(dp: nat, name: Name, kind: Kind)
    | OpLink(inum: nat, parent: Option<nat>, name: Name)
    | OpUnlink(dp: nat, name: Name)
    | OpPut(inum: nat)

  /** Paths lead to inodes in use, and new entries go to directories in the tree. */
  ghost predicate Resolved(s: Tree, op: Op) {
    match op
    case OpCreate(dp, _, kind) => Linked(s, dp) && !kind.Free?
    case OpLink(i, parent, _) => 0 < i < |s| && !s[i].kind.Free? && (parent.Some? ==> Linked(s, parent.value))
    case OpUnlink(dp, _) => dp < |s| && s[dp].kind.Dir?
    case OpPut(i) => 0 < i < |s|
  }

  /** One operation; an operation that halts has no next state. */
  ghost predicate Step(s: Tree, op: Op, t: Tree)
    requires Resolved(s, op)
  {
    match op
    case OpCreate(dp, name, kind) => exists r :: CreateDone(s, t, dp, name, kind, r)
    case OpLink(i, parent, name) => exists r: LinkResult :: !r.Stopped? && LinkDone(s, t, i, parent, name, r)
    case OpUnlink(dp, name) => exists ok :: UnlinkDone(s, t, dp, name, ok)
    case OpPut(i) => t == s || (s[i].nlink == 0 && t == Reaped(s, i))
  }

  lemma StepKeepsInv(s: Tree, at: map<int, (int, int)>, op: Op, t: Tree) returns (to: map<int, (int, int)>)
    requires Inv(s, at) && Resolved(s, op) && Step(s, op, t)
    ensures Inv(t, to)
  {
    hide Inv, Created, LinkMade, LinkCut, Find, FindFree, Reaped, DirEmpty;
    to := at;
    if t == s {
      return;
    }
    match op
    case OpCreate(dp, name, kind) =>
      var r :| CreateDone(s, t, dp, name, kind, r);
      DirsOf(s, at);
      CreatedKeepsInv(s, at, dp, name, kind, r.inum);
      to := CreatedAt(s, at, dp, kind, r.inum);
    case OpLink(i, parent, name) =>
      DirsOf(s, at);
      LinkKeepsInv(s, at, parent.value, name, i);
    case OpUnlink(dp, name) =>
      UnlinkKeepsInv(s, at, dp, name, t);
      to := CutAt(s, at, dp, Find(s[dp].ents, name, 0));
    case OpPut(i) => ReapKeepsInv(s, at, i);
  }

  lemma DirsOf(s: Tree, at: map<int, (int, int)>)
    requires Inv(s, at)
    ensures Dirs(s)
  {}

  lemma UnlinkKeepsInv(s: Tree, at: map<int, (int, int)>, dp: nat, name: Name, t: Tree)
    requires Inv(s, at) && dp < |s| && s[dp].kind.Dir? && t != s && exists ok :: UnlinkDone(s, t, dp, name, ok)
    ensures Find(s[dp].ents, name, 0) < |s[dp].ents| && Inv(t, CutAt(s, at, dp, Find(s[dp].ents, name, 0)))
  {
    hide Inv, Find, LinkCut;
    FoundIsLinked(s, at, dp, name);
    CutKeepsInv(s, at, dp, Find(s[dp].ents, name, 0));
  }

  /** ops leads from s to t. */
  ghost predicate Runs(s: Tree, ops: seq<Op>, t: Tree)
    decreases |ops|
  {
    if ops == [] then t == s
    else Resolved(s, ops[0]) && exists m :: Step(s, ops[0], m) && Runs(m, ops[1..], t)
  }

  lemma {:induction false} RunsKeepInv(s: Tree, at: map<int, (int, int)>, ops: seq<Op>, t: Tree)
    returns (to: map<int, (int, int)>)
    requires Inv(s, at) && Runs(s, ops, t)
    ensures Inv(t, to)
    decreases |ops|
  {
    hide Inv, Step;
    if ops == [] {
      to := at;
    } else {
      var m :| Step(s, ops[0], m) && Runs(m, ops[1..], t);
      var mid := StepKeepsInv(s, at, ops[0], m);
      to := RunsKeepInv(m, mid, ops[1..], t);
    }
  }

  /** After any run, every link count is the number of entries that name the inode, and the
      names in use in a directory are distinct. */
  lemma RunsKeepCounts(s: Tree, at: map<int, (int, int)>, ops: seq<Op>, t: Tree)
    requires Inv(s, at) && Runs(s, ops, t)
    ensures forall i :: 0 < i < |t| ==> t[i].nlink == |Naming(t, i)|
    ensures forall d :: 0 <= d < |t| && t[d].kind.Dir? ==> NamesDistinct(t[d].ents)
  {
    hide Inv, Runs, Naming;
    var to := RunsKeepInv(s, at, ops, t);
    Consequences(t, to);
  }

  lemma Consequences(t: Tree, at: map<int, (int, int)>)
    requires Inv(t, at)
    ensures forall i :: 0 < i < |t| ==> t[i].nlink == |Naming(t, i)|
    ensures forall d :: 0 <= d < |t| && t[d].kind.Dir? ==> NamesDistinct(t[d].ents)
  {}

  /** The tree that mkfs starts from: an empty root directory and free inodes. */
  function Fresh(n: nat): Tree {
    [Node(Free, 0, []), Node(Dir, 1, [Dirent(ROOTINO, "."), Dirent(ROOTINO, "..")])] + seq(n, _ => Node(Free, 0, []))
  }

  lemma FreshIsGood(n: nat)
    ensures Inv(Fresh(n), map[])
  {
    hide Naming;
    var s := Fresh(n);
    DotsDiffer();
    forall i | 0 < i < |s| ensures s[i].nlink == |Naming(s, i)| {
      forall p: (int, int) ensures p in Naming(s, i) <==> p in if i == 1 then {(1, 1)} else {} {
        var (d, k) := p;
        assert Counts(s, d, k, i) <==> i == 1 && d == 1 && k == 1;
      }
      assert Naming(s, i) == if i == 1 then {(1, 1)} else {};
    }
    assert Dirs(s) && Tallied(s) && Tidy(s) && Placed(s, map[]);
  }

  /** The root with a directory of its own. */
  function ParentTree(): Tree {
    [Node(Free, 0, []), Node(Dir, 2, [Dirent(1, "."), Dirent(1, ".."), Dirent(2, "d")]),
     Node(Dir, 1, [Dirent(2, "."), Dirent(1, "..")]), Node(Free, 0, [])]
  }

  /** The root, and that directory after its removal, which a process still has open. */
  function OrphanTree(): Tree {
    [Node(Free, 0, []), Node(Dir, 1, [Dirent(1, "."), Dirent(1, ".."), Dirent(0, "")]),
     Node(Dir, 0, [Dirent(2, "."), Dirent(1, "..")]), Node(Free, 0, [])]
  }

  lemma MakeDirectory()
    ensures var op := OpCreate(1, "d", Dir); Resolved(Fresh(2), op) && Step(Fresh(2), op, ParentTree())
  {
    var s, t := Fresh(2), ParentTree();
    var e := [Dirent(1, "."), Dirent(1, "..")];
    assert s[1] == Node(Dir, 1, e) && s[2] == s[3] == Node(Free, 0, []);
    NotYet(e);
    assert PutEnt(e, 2, Dirent(2, "d")) == [Dirent(1, "."), Dirent(1, ".."), Dirent(2, "d")];
    CreatedIs(s, t, 1, "d", Dir, 2);
    assert CreateDone(s, t, 1, "d", Dir, New(2));
  }

  lemma NotYet(e: seq<Dirent>)
    requires e == [Dirent(1, "."), Dirent(1, "..")]
    ensures Find(e, "d", 0) == 2 && FindFree(e, 0) == 2
  {
    assert "." != "d" && ".." != "d" by {
      assert "."[0] != "d"[0] && ".."[0] != "d"[0];
    }
    assert Find(e, "d", 2) == 2 && FindFree(e, 2) == 2;
    assert Find(e, "d", 1) == 2 && FindFree(e, 1) == 2;
  }

  lemma RemoveDirectory()
    ensures var op := OpUnlink(1, "d"); Resolved(ParentTree(), op) && Step(ParentTree(), op, OrphanTree())
  {
    var s, t := ParentTree(), OrphanTree();
    var e := s[1].ents;
    assert "." != "d" && ".." != "d" by {
      assert "."[0] != "d"[0] && ".."[0] != "d"[0];
    }
    assert e[0] == Dirent(1, ".") && e[1] == Dirent(1, "..") && e[2] == Dirent(2, "d");
    assert Find(e, "d", 0) == 2;
    assert PutEnt(e, 2, Dirent(0, "")) == [Dirent(1, "."), Dirent(1, ".."), Dirent(0, "")];
    CutIs(s, t, 1, 2);
    assert UnlinkDone(s, t, 1, "d", true);
  }

  lemma OrphanRuns()
    ensures Runs(Fresh(2), [OpCreate(1, "d", Dir), OpUnlink(1, "d")], OrphanTree())
  {
    hide Step, Resolved, Fresh, ParentTree, OrphanTree;
    MakeDirectory();
    RemoveDirectory();
    assert Runs(OrphanTree(), [], OrphanTree());
    assert [OpUnlink(1, "d")][1..] == [];
    assert Runs(ParentTree(), [OpUnlink(1, "d")], OrphanTree());
    assert [OpCreate(1, "d", Dir), OpUnlink(1, "d")][1..] == [OpUnlink(1, "d")];
  }

  /** A run that makes a directory and removes it leaves one that nothing links; a file
      created in it then gets a count that nothing in the tree bears out. */
  lemma OrphanExample()
    ensures Runs(Fresh(2), [OpCreate(1, "d", Dir), OpUnlink(1, "d")], OrphanTree())
    ensures !Tallied(Created(OrphanTree(), 2, "f", File, 3))
  {
    hide Naming, Tallied, Created, Runs, Fresh, Dirs, Tidy, Placed, Inv;
    OrphanRuns();
    FreshIsGood(2);
    var to := RunsKeepInv(Fresh(2), map[], [OpCreate(1, "d", Dir), OpUnlink(1, "d")], OrphanTree());
    CreatedTalliedIff(OrphanTree(), to, 2, "f", File, 3);
  }

  // ---------------------------------------------------------------------------
  // Entries as bytes of the directory's file

  /** Names are C strings, cut off or filled up to DIRSIZ bytes. */
  predicate Plain(e: Dirent) {
    e.inum < 65536 && forall i :: 0 <= i < |e.name| ==> e.name[i] != '\0' && e.name[i] as int < 256
  }

  function NameByte(n: Name, i: nat): Types.Byte
    requires forall j :: 0 <= j < |n| ==> n[j] as int < 256
  {
    if i < |n| then n[i] as int else 0
  }

  function EncodeName(n: Name, i: nat): (r: seq<Types.Byte>)
    requires i <= DIRSIZ && forall j :: 0 <= j < |n| ==> n[j] as int < 256
    ensures |r| == DIRSIZ - i && forall j :: 0 <= j < |r| ==> r[j] == NameByte(n, i + j)
    decreases DIRSIZ - i
  {
    if i == DIRSIZ then [] else [NameByte(n, i)] + EncodeName(n, i + 1)
  }

  function Encode(e: Dirent): (r: seq<Types.Byte>)
    requires Plain(e)
    ensures |r| == DIRENT
  {
    [e.inum % 256, e.inum / 256] + EncodeName(e.name, 0)
  }

  /** The characters up to the first NUL, or DIRSIZ of them. */
  function DecodeName(b: seq<Types.Byte>, i: nat): (r: string)
    requires |b| == DIRSIZ && i <= DIRSIZ
    ensures |r| <= DIRSIZ - i
    decreases DIRSIZ - i
  {
    if i == DIRSIZ || b[i] == 0 then [] else [b[i] as char] + DecodeName(b, i + 1)
  }

  function Decode(b: seq<Types.Byte>): Dirent
    requires |b| == DIRENT
  {
    var lo: int, hi: int := b[0], b[1];
    Dirent(lo + 256 * hi, DecodeName(b[2..], 0))
  }

  lemma {:induction false} DecodeEncodeName(n: Name, i: nat)
    requires i <= |n| && forall j :: 0 <= j < |n| ==> n[j] != '\0' && n[j] as int < 256
    ensures DecodeName(EncodeName(n, 0), i) == n[i..]
    decreases |n| - i
  {
    hide EncodeName;
    var b := EncodeName(n, 0);
    if i < |n| {
      assert b[i] == NameByte(n, i) && b[i] as char == n[i];
      DecodeEncodeName(n, i + 1);
      assert n[i..] == [n[i]] + n[i + 1..];
    } else if i < DIRSIZ {
      assert b[i] == NameByte(n, i) == 0;
    }
  }

  lemma DecodeEncode(e: Dirent)
    requires Plain(e)
    ensures Decode(Encode(e)) == e
  {
    DecodeEncodeName(e.name, 0);
    assert Encode(e)[2..] == EncodeName(e.name, 0);
    assert e.name[0..] == e.name;
  }

  /** The entries of a directory, from the bytes of its file. */
  function Entries(f: seq<Types.Byte>): (r: seq<Dirent>)
    ensures |r| == |f| / DIRENT && forall k :: 0 <= k < |r| ==> r[k] == Decode(f[DIRENT * k..DIRENT * k + DIRENT])
  {
    seq(|f| / DIRENT, k requires 0 <= k < |f| / DIRENT => Decode(f[DIRENT * k..DIRENT * k + DIRENT]))
  }

  /** writei of one entry at its offset changes that entry, or adds it at the end. */
  lemma WriteEntry(f: seq<Types.Byte>, k: nat, e: Dirent)
    requires |f| % DIRENT == 0 && DIRENT * k <= |f| && Plain(e)
    ensures Entries(Fs.Overwrite(f, DIRENT * k, Encode(e))) == PutEnt(Entries(f), k, e)
  {
    hide Decode, Encode;
    var g, r := Fs.Overwrite(f, DIRENT * k, Encode(e)), PutEnt(Entries(f), k, e);
    DecodeEncode(e);
    forall j | 0 <= j < |r| ensures Entries(g)[j] == r[j] {
      if j == k {
        assert g[DIRENT * k..DIRENT * k + DIRENT] == Encode(e);
      } else {
        assert g[DIRENT * j..DIRENT * j + DIRENT] == f[DIRENT * j..DIRENT * j + DIRENT];
      }
    }
  }
}
