/** Directories as sets of names: what create, link, unlink and iput do to what a user sees,
    whatever entries are reused, and to the stock of free inodes. */
module Namespace {
  import opened Options
  import opened Links
  import opened Directory

  /** The names in use with their inode numbers. */
  ghost function Listing(e: seq<Dirent>): (r: set<(Name, nat)>)
    ensures forall n: Name, i: nat :: (n, i) in r <==> i != 0 && exists k :: 0 <= k < |e| && e[k] == Dirent(i, n)
  {
    set k: int | 0 <= k < |e| && e[k].inum != 0 :: (e[k].name, e[k].inum)
  }

  ghost function Frees(s: Tree): (r: set<int>)
    ensures forall i :: i in r <==> 0 < i < |s| && s[i].kind.Free?
  {
    set i | 0 < i < |s| && s[i].kind.Free?
  }

  lemma Listed(e: seq<Dirent>, k: nat)
    requires k < |e| && e[k].inum != 0
    ensures (e[k].name, e[k].inum) in Listing(e)
  {
    assert e[k] == Dirent(e[k].inum, e[k].name);
  }

  lemma ListingPut(e: seq<Dirent>, x: Dirent)
    requires x.inum != 0
    ensures Listing(PutEnt(e, FindFree(e, 0), x)) == Listing(e) + {(x.name, x.inum)}
  {
    var m := FindFree(e, 0);
    var f := PutEnt(e, m, x);
    forall n: Name, i: nat ensures (n, i) in Listing(f) <==> (n, i) in Listing(e) + {(x.name, x.inum)} {
      if (n, i) in Listing(e) {
        var k :| 0 <= k < |e| && e[k] == Dirent(i, n);
        assert f[k] == Dirent(i, n);
      }
      if (n, i) in Listing(f) {
        var k :| 0 <= k < |f| && f[k] == Dirent(i, n);
        assert k != m ==> e[k] == f[k];
      }
      assert f[m] == Dirent(x.inum, x.name);
    }
  }

  lemma ListingClear(e: seq<Dirent>, m: nat)
    requires NamesDistinct(e) && m < |e| && e[m].inum != 0
    ensures Listing(PutEnt(e, m, Dirent(0, ""))) == Listing(e) - {(e[m].name, e[m].inum)}
  {
    var f := PutEnt(e, m, Dirent(0, ""));
    forall n: Name, i: nat ensures (n, i) in Listing(f) <==> (n, i) in Listing(e) - {(e[m].name, e[m].inum)} {
      if (n, i) in Listing(e) - {(e[m].name, e[m].inum)} {
        var k :| 0 <= k < |e| && e[k] == Dirent(i, n);
        assert f[k] == Dirent(i, n);
      }
      if (n, i) in Listing(f) {
        var k :| 0 <= k < |f| && f[k] == Dirent(i, n);
        assert k != m && e[k] == f[k];
      }
    }
  }

  /** A name that dirlookup does not find is not listed, and one that it finds is. */
  lemma FindLists(e: seq<Dirent>, name: Name)
    ensures var k := Find(e, name, 0);
            if k < |e| then e[k].inum != 0 && (name, e[k].inum) in Listing(e)
                else forall i: nat :: (name, i) !in Listing(e)
  {
    var k := Find(e, name, 0);
    if k < |e| {
      Listed(e, k);
    }
  }

  lemma OneListed(e: seq<Dirent>, name: Name, i: nat, j: nat)
    requires NamesDistinct(e) && (name, i) in Listing(e) && (name, j) in Listing(e)
    ensures i == j
  {
    var k :| 0 <= k < |e| && e[k] == Dirent(i, name);
    var m :| 0 <= m < |e| && e[m] == Dirent(j, name);
    assert k == m;
  }

  // ---------------------------------------------------------------------------
  // The operations

  /** Inodes other than d and i are as before. */
  ghost predicate OthersKept(s: Tree, t: Tree, d: nat, i: nat) {
    |t| == |s| && forall j :: 0 <= j < |s| && j != d && j != i ==> t[j] == s[j]
  }

  /** create of a new name takes a free inode and lists it, and nothing else changes. */
  lemma CreateLists(s: Tree, t: Tree, dp: nat, name: Name, kind: Kind, i: nat)
    requires 0 < dp < |s| && !s[dp].kind.Free? && !kind.Free? && CreateDone(s, t, dp, name, kind, New(i))
    ensures OthersKept(s, t, dp, i) && (forall j: nat :: (name, j) !in Listing(s[dp].ents))
    ensures i in Frees(s) && Frees(t) == Frees(s) - {i}
    ensures t[i].kind == kind && t[i].nlink == 1
    ensures Listing(t[i].ents) == if kind.Dir? then {(".", i), ("..", dp)} else {}
    ensures t[dp].kind == s[dp].kind && Listing(t[dp].ents) == Listing(s[dp].ents) + {(name, i)}
    ensures t[dp].nlink == s[dp].nlink + if kind.Dir? then 1 else 0
  {
    hide FindFree, Find;
    FindLists(s[dp].ents, name);
    ListingPut(s[dp].ents, Dirent(i, name));
    NewListing(kind, i, dp);
  }

  lemma NewListing(kind: Kind, i: nat, dp: nat)
    requires i != 0
    ensures dp != 0 ==> Listing(NewEnts(kind, i, dp)) == if kind.Dir? then {(".", i), ("..", dp)} else {}
  {
    if kind.Dir? && dp != 0 {
      var e := NewEnts(kind, i, dp);
      assert e[0] == Dirent(i, ".") && e[1] == Dirent(dp, "..");
      Listed(e, 0);
      Listed(e, 1);
    }
  }

  /** link lists one more name for the inode. */
  lemma LinkLists(s: Tree, t: Tree, i: nat, dp: nat, name: Name)
    requires 0 < i < |s| && LinkDone(s, t, i, Some(dp), name, Made)
    ensures dp < |s| && OthersKept(s, t, dp, i) && (forall j: nat :: (name, j) !in Listing(s[dp].ents))
    ensures Frees(t) == Frees(s) && t[i] == s[i].(nlink := s[i].nlink + 1)
    ensures t[dp] == s[dp].(ents := t[dp].ents) && Listing(t[dp].ents) == Listing(s[dp].ents) + {(name, i)}
  {
    hide FindFree, Find;
    FindLists(s[dp].ents, name);
    ListingPut(s[dp].ents, Dirent(i, name));
  }

  lemma CutLists(s: Tree, t: Tree, dp: nat, k: nat)
    requires dp < |s| && k < |s[dp].ents| && 0 < s[dp].ents[k].inum < |s| && s[dp].ents[k].inum != dp
    requires s[dp].nlink > 0 && s[s[dp].ents[k].inum].nlink > 0 && NamesDistinct(s[dp].ents) && t == LinkCut(s, dp, k)
    ensures var i := s[dp].ents[k].inum;
            && OthersKept(s, t, dp, i) && Frees(t) == Frees(s)
            && t[i] == s[i].(nlink := s[i].nlink - 1) && t[dp].kind == s[dp].kind
            && Listing(t[dp].ents) == Listing(s[dp].ents) - {(s[dp].ents[k].name, i)}
            && t[dp].nlink + (if s[i].kind.Dir? then 1 else 0) == s[dp].nlink
  {
    ListingClear(s[dp].ents, k);
  }

  /** unlink takes the name, and no other, from the list, and a link from the inode. */
  lemma UnlinkLists(s: Tree, at: map<int, (int, int)>, t: Tree, dp: nat, name: Name, i: nat)
    requires Inv(s, at) && dp < |s| && s[dp].kind.Dir? && UnlinkDone(s, t, dp, name, true)
    requires (name, i) in Listing(s[dp].ents)
    ensures 0 < i < |s| && i != dp && OthersKept(s, t, dp, i)
    ensures Frees(t) == Frees(s) && s[i].nlink > 0 && t[i] == s[i].(nlink := s[i].nlink - 1)
    ensures t[dp].kind == s[dp].kind && Listing(t[dp].ents) == Listing(s[dp].ents) - {(name, i)}
    ensures t[dp].nlink + (if s[i].kind.Dir? then 1 else 0) == s[dp].nlink
  {
    hide Inv, FindFree, Find, Listing, NamesDistinct, LinkCut, OthersKept, Frees, DirEmpty;
    DistinctIn(s, at, dp);
    FindLists(s[dp].ents, name);
    var k := Find(s[dp].ents, name, 0);
    OneListed(s[dp].ents, name, i, s[dp].ents[k].inum);
    FindIs(s[dp].ents, name);
    CutLists(s, t, dp, k);
  }

  lemma FindIs(e: seq<Dirent>, name: Name)
    ensures Find(e, name, 0) < |e| ==> e[Find(e, name, 0)].name == name
  {}

  lemma DistinctIn(s: Tree, at: map<int, (int, int)>, dp: nat)
    requires Inv(s, at) && dp < |s| && s[dp].kind.Dir?
    ensures NamesDistinct(s[dp].ents) && dp != 0
  {}

  // ---------------------------------------------------------------------------
  // There and back

  /** To a user the trees are the same: the same inodes in use, with the same kinds, link
      counts and lists of names. */
  ghost predicate Alike(s: Tree, t: Tree) {
    && |t| == |s| && Frees(t) == Frees(s)
    && forall j :: 0 <= j < |s| ==>
         && t[j].kind == s[j].kind && t[j].nlink == s[j].nlink
         && (!s[j].kind.Free? ==> Listing(t[j].ents) == Listing(s[j].ents))
  }

  /** The name that create has made can be removed. */
  lemma CanRemove(s: Tree, at: map<int, (int, int)>, t: Tree, dp: nat, name: Name, kind: Kind, i: nat, u: Tree,
      ok: bool)
    requires Inv(s, at) && dp < |s| && s[dp].kind.Dir? && !kind.Free? && CreateDone(s, t, dp, name, kind, New(i))
    requires UnlinkDone(t, u, dp, name, ok)
    ensures ok
  {
    hide FindFree, Find, Listing, NamesDistinct, LinkCut, Frees, Tallied, Placed, Tidy;
    DistinctIn(s, at, dp);
    CreateLists(s, t, dp, name, kind, i);
    Listed(s[dp].ents, 0);
    Listed(s[dp].ents, 1);
    FindLists(t[dp].ents, name);
    ListedIn(t[dp].ents, name, i);
    NewIsEmpty(kind, i, dp);
    assert t[i].ents == NewEnts(kind, i, dp);
  }

  lemma ListedIn(e: seq<Dirent>, name: Name, i: nat)
    requires (name, i) in Listing(e)
    ensures Find(e, name, 0) < |e|
  {}

  lemma NewIsEmpty(kind: Kind, i: nat, dp: nat)
    ensures DirEmpty(NewEnts(kind, i, dp))
  {}

  lemma FreeIs(s: Tree, at: map<int, (int, int)>, i: nat)
    requires Inv(s, at) && i < |s| && s[i].kind.Free?
    ensures s[i].nlink == 0
  {}

  lemma ThereAndBack(s: Tree, at: map<int, (int, int)>, t: Tree, to: map<int, (int, int)>, u: Tree, v: Tree,
      dp: nat, name: Name, kind: Kind, i: nat)
    requires Inv(s, at) && Inv(t, to) && dp < |s| && s[dp].kind.Dir? && !kind.Free?
    requires CreateDone(s, t, dp, name, kind, New(i)) && dp < |t| && UnlinkDone(t, u, dp, name, true)
    requires |v| == |u| && i < |u| && v == u[i := Node(Free, 0, [])]
    ensures u[i].nlink == 0 && Alike(s, v)
  {
    hide Inv, Find, FindFree, Listing, LinkCut, DirEmpty, UnlinkDone, CreateDone;
    DistinctIn(s, at, dp);
    CreateLists(s, t, dp, name, kind, i);
    UnlinkLists(t, to, u, dp, name, i);
    FreeIs(s, at, i);
    assert Listing(s[dp].ents) + {(name, i)} - {(name, i)} == Listing(s[dp].ents);
  }

  /** A new name, made and removed again, and the inode given up: nothing is left of it. */
  method MakeAndRemove(fs: Inodes, dp: nat, name: Name, kind: Kind) returns (r: CreateResult)
    requires fs.Valid() && Linked(fs.t, dp) && !kind.Free? && forall j: nat :: (name, j) !in Listing(fs.t[dp].ents)
    modifies fs
    ensures r.New? || r.Halted?
    ensures r.Halted? <==>
            (forall j :: 1 <= j < |old(fs.t)| ==> !old(fs.t)[j].kind.Free?) || NoEntry(old(fs.t)[dp].ents)
    ensures r.New? ==> fs.Valid() && Alike(old(fs.t), fs.t)
  {
    hide Inv, Find, FindFree, Listing, LinkCut, DirEmpty, Created, Alike, Reaped, Tallied, NoEntry;
    ghost var s, at := fs.t, fs.at;
    FindLists(s[dp].ents, name);
    r := fs.Create(dp, name, kind);
    if r.New? {
      ghost var t, to := fs.t, fs.at;
      DistinctIn(s, at, dp);
      CreateLists(s, t, dp, name, kind, r.inum);
      var ok := fs.Unlink(dp, name);
      ghost var u := fs.t;
      CanRemove(s, at, t, dp, name, kind, r.inum, u, ok);
      UnlinkLists(t, to, u, dp, name, r.inum);
      ThereAndBack(s, at, t, to, u, u[r.inum := Node(Free, 0, [])], dp, name, kind, r.inum);
      fs.Iput(r.inum, 1);
      assert fs.t == u[r.inum := Node(Free, 0, [])];
    }
  }
}
