/** Directories and link counts: create, link and unlink on resolved inodes. */
module Links {

  const DIRSIZ: nat := 14
  const ROOTINO: nat := 1

  type Name = n: string | |n| <= DIRSIZ witness ""

  datatype Kind = Free | File | Dir | Dev

  /** Inode number 0 marks an unused entry. */
  datatype Dirent = Dirent(inum: nat, name: Name)

  datatype Node = Node(kind: Kind, nlink: nat, ents: seq<Dirent>)

  /** All inodes, by number. */
  type Tree = seq<Node>

  // ---------------------------------------------------------------------------
  // What the link count counts

  /** A directory that is still in the tree. */
  ghost predicate Linked(s: Tree, d: int) {
    0 <= d < |s| && s[d].kind.Dir? && s[d].nlink > 0
  }

  /** Entry k of directory d counts towards inode i; entry 0 is ".", which never does. */
  ghost predicate Counts(s: Tree, d: int, k: int, i: int) {
    Linked(s, d) && 1 <= k < |s[d].ents| && s[d].ents[k].inum == i
  }

  ghost function Naming(s: Tree, i: int): (r: set<(int, int)>)
    ensures forall d, k :: (d, k) in r <==> Counts(s, d, k, i)
  {
    set d: int, k: int | 0 <= d < |s| && 1 <= k < |s[d].ents| && Counts(s, d, k, i) :: (d, k)
  }

  // ---------------------------------------------------------------------------
  // The invariant

  ghost predicate Dots(s: Tree, d: int)
    requires 0 <= d < |s|
  {
    var e := s[d].ents;
    |e| >= 2 && e[0] == Dirent(d, ".") && e[1].name == ".." && 0 < e[1].inum < |s|
  }

  ghost predicate NamesDistinct(e: seq<Dirent>) {
    forall j, k :: 0 <= j < k < |e| && e[j].inum != 0 && e[k].inum != 0 ==> e[j].name != e[k].name
  }

  /** Where a directory other than the root hangs: entry k of directory d, its parent. */
  ghost predicate Hangs(s: Tree, at: map<int, (int, int)>, i: int) {
    && i in at && 0 <= i < |s| && i != ROOTINO
    && Linked(s, at[i].0) && 2 <= at[i].1 < |s[at[i].0].ents| && s[at[i].0].ents[at[i].1].inum == i
    && |s[i].ents| >= 2 && s[i].ents[1].inum == at[i].0
  }

  /** Every directory starts with its dots, and its names in use are distinct. */
  ghost predicate Dirs(s: Tree) {
    && |s| > ROOTINO && Linked(s, ROOTINO) && s[0].kind.Free?
    && (forall d :: 0 <= d < |s| && s[d].kind.Dir? ==> Dots(s, d) && NamesDistinct(s[d].ents))
    && s[ROOTINO].ents[1].inum == ROOTINO
  }

  /** The link counts are the numbers of entries. */
  ghost predicate Tallied(s: Tree) {
    && (forall i :: 0 < i < |s| ==> s[i].nlink == |Naming(s, i)|)
    && (forall i :: 0 <= i < |s| && s[i].kind.Free? ==> s[i].nlink == 0)
  }

  /** Directories out of the tree are empty, and entries are inode numbers. */
  ghost predicate Tidy(s: Tree) {
    && (forall d, k :: 0 <= d < |s| && s[d].kind.Dir? && s[d].nlink == 0 && 2 <= k < |s[d].ents| ==>
         s[d].ents[k].inum == 0)
    && (forall d, k :: Linked(s, d) && 1 <= k < |s[d].ents| ==> s[d].ents[k].inum < |s|)
  }

  /** A directory in the tree hangs at one place, which its ".." leads to. */
  ghost predicate Placed(s: Tree, at: map<int, (int, int)>) {
    && ROOTINO !in at
    && (forall d, k :: Linked(s, d) && 2 <= k < |s[d].ents| && 0 < s[d].ents[k].inum < |s| &&
                       s[s[d].ents[k].inum].kind.Dir? ==>
          s[d].ents[k].inum in at && at[s[d].ents[k].inum] == (d, k))
    && (forall i :: Linked(s, i) && i != ROOTINO ==> Hangs(s, at, i))
  }

  ghost predicate Inv(s: Tree, at: map<int, (int, int)>) {
    Dirs(s) && Tallied(s) && Tidy(s) && Placed(s, at)
  }

  // ---------------------------------------------------------------------------
  // Directory contents

  /** The first entry in use with this name, or the length. */
  function Find(e: seq<Dirent>, name: Name, from: nat): (r: nat)
    requires from <= |e|
    ensures from <= r <= |e| && (r < |e| ==> e[r].inum != 0 && e[r].name == name)
    ensures forall k :: from <= k < r ==> e[k].inum == 0 || e[k].name != name
    decreases |e| - from
  {
    if from == |e| || (e[from].inum != 0 && e[from].name == name) then from else Find(e, name, from + 1)
  }

  /** The first unused entry, or the length. */
  function FindFree(e: seq<Dirent>, from: nat): (r: nat)
    requires from <= |e|
    ensures from <= r <= |e| && (r < |e| ==> e[r].inum == 0)
    ensures forall k :: from <= k < r ==> e[k].inum != 0
    decreases |e| - from
  {
    if from == |e| || e[from].inum == 0 then from else FindFree(e, from + 1)
  }

  /** Writing entry k, which may be one past the end. */
  function PutEnt(e: seq<Dirent>, k: nat, x: Dirent): (r: seq<Dirent>)
    requires k <= |e|
    ensures |r| == (if k == |e| then k + 1 else |e|) && r[k] == x && forall j :: 0 <= j < |e| && j != k ==> r[j] == e[j]
  {
    if k == |e| then e + [x] else e[k := x]
  }

  lemma PutKeepsDistinct(e: seq<Dirent>, x: Dirent)
    requires NamesDistinct(e) && Find(e, x.name, 0) == |e|
    ensures NamesDistinct(PutEnt(e, FindFree(e, 0), x))
  {}

  lemma ClearKeepsDistinct(e: seq<Dirent>, k: nat)
    requires NamesDistinct(e) && k < |e|
    ensures NamesDistinct(PutEnt(e, k, Dirent(0, "")))
  {}

  // ---------------------------------------------------------------------------
  // create

  function NewEnts(kind: Kind, i: nat, dp: nat): seq<Dirent> {
    if kind.Dir? then [Dirent(i, "."), Dirent(dp, "..")] else []
  }

  /** A new inode i of some kind, entered as name in dp. */
  function Created(s: Tree, dp: nat, name: Name, kind: Kind, i: nat): Tree
    requires dp < |s| && i < |s| && dp != i
  {
    var e := s[dp].ents;
    s[i := Node(kind, 1, NewEnts(kind, i, dp))]
     [dp := Node(s[dp].kind, s[dp].nlink + (if kind.Dir? then 1 else 0), PutEnt(e, FindFree(e, 0), Dirent(i, name)))]
  }

  /** Naming after a change, from its members. */
  lemma NamingChange(s: Tree, t: Tree, j: int, more: set<(int, int)>, less: set<(int, int)>)
    requires forall d, m :: Counts(t, d, m, j) <==> (Counts(s, d, m, j) || (d, m) in more) && (d, m) !in less
    ensures Naming(t, j) == Naming(s, j) + more - less
  {
    hide Naming, Counts;
    forall p: (int, int) ensures p in Naming(t, j) <==> p in Naming(s, j) + more - less {
      var (d, m) := p;
      assert Counts(t, d, m, j) <==> (Counts(s, d, m, j) || (d, m) in more) && (d, m) !in less;
    }
  }

  /** What a new inode changes: its own entry, and its ".." if it is a directory. */
  ghost function CreatedMore(s: Tree, dp: nat, kind: Kind, i: nat, j: int): set<(int, int)>
    requires dp < |s|
  {
    if j == i then {(dp, FindFree(s[dp].ents, 0))} else if j == dp && kind.Dir? then {(i, 1)} else {}
  }

  lemma CreatedNaming(s: Tree, dp: nat, name: Name, kind: Kind, i: nat, j: int)
    requires Linked(s, dp) && Dots(s, dp) && i < |s| && s[i].kind.Free? && !kind.Free? && j != 0 && dp != 0
    ensures Naming(Created(s, dp, name, kind, i), j) == Naming(s, j) + CreatedMore(s, dp, kind, i, j)
  {}

  /** Nothing in the tree names a free inode. */
  lemma FreeIsUnnamed(s: Tree, i: nat)
    requires Tallied(s) && 0 < i < |s| && (s[i].kind.Free? || s[i].nlink == 0)
    ensures Naming(s, i) == {} && forall d, k :: Linked(s, d) && 1 <= k < |s[d].ents| ==> s[d].ents[k].inum != i
  {
    hide Naming;
    assert Naming(s, i) == {};
    forall d, k | Linked(s, d) && 1 <= k < |s[d].ents| ensures s[d].ents[k].inum != i {
      assert Counts(s, d, k, i) <==> (d, k) in Naming(s, i);
    }
  }

  lemma DotsDiffer()
    ensures "." != ".."
  {}

  lemma CreatedTallied(s: Tree, at: map<int, (int, int)>, dp: nat, name: Name, kind: Kind, i: nat)
    requires Inv(s, at) && Linked(s, dp) && 0 < i < |s| && s[i].kind.Free? && !kind.Free? && dp > 0
    ensures Tallied(Created(s, dp, name, kind, i))
  {
    hide Naming, FindFree, Placed, Tidy;
    var t := Created(s, dp, name, kind, i);
    FreeIsUnnamed(s, i);
    forall j | 0 < j < |t| ensures t[j].nlink == |Naming(t, j)| {
      CreatedNaming(s, dp, name, kind, i, j);
      assert !Counts(s, i, 1, j);
    }
  }

  /** The place of a new inode. */
  ghost function CreatedAt(s: Tree, at: map<int, (int, int)>, dp: nat, kind: Kind, i: nat): map<int, (int, int)>
    requires dp < |s|
  {
    if kind.Dir? then at[i := (dp, FindFree(s[dp].ents, 0))] else at
  }

  lemma CreatedHangs(s: Tree, at: map<int, (int, int)>, dp: nat, name: Name, kind: Kind, i: nat, j: int)
    requires Linked(s, dp) && Dots(s, dp) && 0 < i < |s| && s[i].kind.Free? && dp > 0 && i != ROOTINO && 0 < j
    requires if j == i then kind.Dir? else Hangs(s, at, j)
    ensures Hangs(Created(s, dp, name, kind, i), CreatedAt(s, at, dp, kind, i), j)
  {}

  lemma CreatedPlaced(s: Tree, at: map<int, (int, int)>, dp: nat, name: Name, kind: Kind, i: nat)
    requires Inv(s, at) && Linked(s, dp) && 0 < i < |s| && s[i].kind.Free? && !kind.Free? && dp > 0
    ensures Placed(Created(s, dp, name, kind, i), CreatedAt(s, at, dp, kind, i))
  {
    hide Naming, FindFree, Tallied, Tidy, NamesDistinct, Hangs;
    var t, k, to := Created(s, dp, name, kind, i), FindFree(s[dp].ents, 0), CreatedAt(s, at, dp, kind, i);
    assert Dots(s, dp) && s[dp].ents[0].inum != 0 && s[dp].ents[1].inum != 0;
    FreeIsUnnamed(s, i);
    forall j | Linked(t, j) && j != ROOTINO ensures Hangs(t, to, j) {
      if j != i {
        assert Hangs(s, at, j);
      }
      CreatedHangs(s, at, dp, name, kind, i, j);
    }
    forall d, m | Linked(t, d) && 2 <= m < |t[d].ents| && 0 < t[d].ents[m].inum < |t| && t[t[d].ents[m].inum].kind.Dir?
      ensures t[d].ents[m].inum in to && to[t[d].ents[m].inum] == (d, m)
    {
      if (d, m) != (dp, k) {
        assert Linked(s, d) && s[d].ents[m] == t[d].ents[m];
      }
    }
  }

  /** create keeps the invariant if the parent is in the tree. */
  lemma CreatedKeepsInv(s: Tree, at: map<int, (int, int)>, dp: nat, name: Name, kind: Kind, i: nat)
    requires Inv(s, at) && Linked(s, dp) && 0 < i < |s| && s[i].kind.Free? && !kind.Free? && dp > 0
    requires Find(s[dp].ents, name, 0) == |s[dp].ents|
    ensures Inv(Created(s, dp, name, kind, i), CreatedAt(s, at, dp, kind, i))
  {
    hide Naming, FindFree, Find, Tallied, Placed;
    var t, k := Created(s, dp, name, kind, i), FindFree(s[dp].ents, 0);
    assert Dots(s, dp) && s[dp].ents[0].inum != 0 && s[dp].ents[1].inum != 0;
    PutKeepsDistinct(s[dp].ents, Dirent(i, name));
    DotsDiffer();
    CreatedTallied(s, at, dp, name, kind, i);
    CreatedPlaced(s, at, dp, name, kind, i);
    assert Dirs(t) && Tidy(t);
  }

  // ---------------------------------------------------------------------------
  // link

  /** One more link to inode i, entered as name in dp. */
  function LinkMade(s: Tree, dp: nat, name: Name, i: nat): Tree
    requires dp < |s| && i < |s| && dp != i
  {
    var e := s[dp].ents;
    s[i := s[i].(nlink := s[i].nlink + 1)][dp := s[dp].(ents := PutEnt(e, FindFree(e, 0), Dirent(i, name)))]
  }

  lemma LinkTallied(s: Tree, at: map<int, (int, int)>, dp: nat, name: Name, i: nat)
    requires Inv(s, at) && Linked(s, dp) && 0 < i < |s| && !s[i].kind.Dir? && !s[i].kind.Free? && dp > 0
    ensures Tallied(LinkMade(s, dp, name, i))
  {
    hide Naming, FindFree, Placed, Tidy;
    var t, k := LinkMade(s, dp, name, i), FindFree(s[dp].ents, 0);
    assert Dots(s, dp) && s[dp].ents[0].inum != 0;
    forall j | 0 < j < |t| ensures t[j].nlink == |Naming(t, j)| {
      var more := if j == i then {(dp, k)} else {};
      forall d, m ensures Counts(t, d, m, j) <==> (Counts(s, d, m, j) || (d, m) in more) && (d, m) !in {} {}
      NamingChange(s, t, j, more, {});
      assert !Counts(s, dp, k, j);
      assert Naming(s, j) + more - {} == Naming(s, j) + more;
    }
  }

  lemma LinkHangs(s: Tree, at: map<int, (int, int)>, dp: nat, name: Name, i: nat, j: int)
    requires Linked(s, dp) && Dots(s, dp) && 0 < i < |s| && dp > 0 && !s[i].kind.Dir? && 0 < j && Hangs(s, at, j)
    ensures Hangs(LinkMade(s, dp, name, i), at, j)
  {}

  lemma LinkPlaced(s: Tree, at: map<int, (int, int)>, dp: nat, name: Name, i: nat)
    requires Inv(s, at) && Linked(s, dp) && 0 < i < |s| && !s[i].kind.Dir? && !s[i].kind.Free? && dp > 0
    ensures Placed(LinkMade(s, dp, name, i), at)
  {
    hide Naming, FindFree, Tallied, Tidy, NamesDistinct, Hangs;
    var t, k := LinkMade(s, dp, name, i), FindFree(s[dp].ents, 0);
    assert Dots(s, dp) && s[dp].ents[0].inum != 0 && s[dp].ents[1].inum != 0;
    forall j | Linked(t, j) && j != ROOTINO ensures Hangs(t, at, j) {
      assert Hangs(s, at, j);
      LinkHangs(s, at, dp, name, i, j);
    }
    forall d, m | Linked(t, d) && 2 <= m < |t[d].ents| && 0 < t[d].ents[m].inum < |t| && t[t[d].ents[m].inum].kind.Dir?
      ensures t[d].ents[m].inum in at && at[t[d].ents[m].inum] == (d, m)
    {
      assert (d, m) != (dp, k);
      assert Linked(s, d) && s[d].ents[m] == t[d].ents[m];
    }
  }

  lemma LinkKeepsInv(s: Tree, at: map<int, (int, int)>, dp: nat, name: Name, i: nat)
    requires Inv(s, at) && Linked(s, dp) && 0 < i < |s| && !s[i].kind.Dir? && !s[i].kind.Free? && dp > 0
    requires Find(s[dp].ents, name, 0) == |s[dp].ents|
    ensures Inv(LinkMade(s, dp, name, i), at)
  {
    hide Naming, FindFree, Find, Tallied, Placed;
    var t := LinkMade(s, dp, name, i);
    assert Dots(s, dp) && s[dp].ents[0].inum != 0 && s[dp].ents[1].inum != 0;
    PutKeepsDistinct(s[dp].ents, Dirent(i, name));
    LinkTallied(s, at, dp, name, i);
    LinkPlaced(s, at, dp, name, i);
    assert Dirs(t) && Tidy(t);
  }

  // ---------------------------------------------------------------------------
  // unlink

  ghost predicate DirEmpty(e: seq<Dirent>) {
    forall k :: 2 <= k < |e| ==> e[k].inum == 0
  }

  /** Entry k of dp removed, and with it one link; a directory takes its ".." along. */
  function LinkCut(s: Tree, dp: nat, k: nat): Tree
    requires dp < |s| && k < |s[dp].ents| && s[dp].ents[k].inum < |s| && s[dp].ents[k].inum != dp
    requires s[dp].nlink > 0 && s[s[dp].ents[k].inum].nlink > 0
  {
    var i := s[dp].ents[k].inum;
    s[i := s[i].(nlink := s[i].nlink - 1)]
     [dp := Node(s[dp].kind, s[dp].nlink - (if s[i].kind.Dir? then 1 else 0), PutEnt(s[dp].ents, k, Dirent(0, "")))]
  }

  /** A directory without entries is named by its place alone. */
  lemma EmptyDirNaming(s: Tree, at: map<int, (int, int)>, dp: nat, k: nat, i: nat)
    requires Inv(s, at) && Linked(s, dp) && 2 <= k < |s[dp].ents| && s[dp].ents[k].inum == i && 0 < i < |s|
    requires s[i].kind.Dir? && DirEmpty(s[i].ents)
    ensures Naming(s, i) == {(dp, k)} && i != ROOTINO && i != dp && s[i].nlink == 1 && s[i].ents[1].inum == dp
  {
    hide Naming, Tidy;
    forall d | Linked(s, d) && d != ROOTINO ensures s[d].ents[1].inum != i {
      assert Hangs(s, at, d) && s[at[d].0].ents[at[d].1].inum == d;
    }
    forall d, m ensures Counts(s, d, m, i) <==> (d, m) == (dp, k) {}
    forall p: (int, int) ensures p in Naming(s, i) <==> p in {(dp, k)} {
      var (d, m) := p;
      assert Counts(s, d, m, i) <==> (d, m) in Naming(s, i);
    }
    assert Naming(s, i) == {(dp, k)};
    assert Hangs(s, at, i);
  }

  /** What unlink may remove: an entry of a directory in the tree, other than the dots,
      that does not name a directory with entries. */
  ghost predicate Removable(s: Tree, at: map<int, (int, int)>, dp: nat, k: nat) {
    && Inv(s, at) && Linked(s, dp) && 2 <= k < |s[dp].ents| && 0 < s[dp].ents[k].inum < |s|
    && (s[s[dp].ents[k].inum].kind.Dir? ==> DirEmpty(s[s[dp].ents[k].inum].ents))
  }

  /** The inode has a link to lose, and so does the parent of a directory. */
  lemma RemovableFacts(s: Tree, at: map<int, (int, int)>, dp: nat, k: nat)
    requires Removable(s, at, dp, k)
    ensures var i := s[dp].ents[k].inum; s[i].nlink > 0 && i != dp && (dp, k) in Naming(s, i)
    ensures var i := s[dp].ents[k].inum; s[i].kind.Dir? ==> s[dp].nlink > 1 && (i, 1) in Naming(s, dp)
  {
    hide Naming, Tidy;
    var i := s[dp].ents[k].inum;
    assert Counts(s, dp, k, i);
    if s[i].kind.Dir? {
      EmptyDirNaming(s, at, dp, k, i);
      assert Counts(s, i, 1, dp);
      var other := if dp == ROOTINO then (ROOTINO, 1) else at[dp];
      assert dp != ROOTINO ==> Hangs(s, at, dp);
      assert Counts(s, other.0, other.1, dp) && other != (i, 1);
      TwoMembers(Naming(s, dp), other, (i, 1));
    }
  }

  lemma TwoMembers<T>(a: set<T>, x: T, y: T)
    requires x in a && y in a && x != y
    ensures |a| > 1
  {
    assert |a - {x}| == |a| - 1 && y in a - {x};
  }

  ghost function CutLess(s: Tree, dp: nat, k: nat, j: int): set<(int, int)>
    requires dp < |s| && k < |s[dp].ents| && s[dp].ents[k].inum < |s|
  {
    var i := s[dp].ents[k].inum;
    if j == i then {(dp, k)} else if j == dp && s[i].kind.Dir? then {(i, 1)} else {}
  }

  lemma CutNaming(s: Tree, at: map<int, (int, int)>, dp: nat, k: nat, j: int)
    requires Removable(s, at, dp, k) && j != 0
    requires var i := s[dp].ents[k].inum; s[i].nlink > 0 && i != dp && (s[i].kind.Dir? ==> s[dp].nlink > 1)
    ensures Naming(LinkCut(s, dp, k), j) == Naming(s, j) - CutLess(s, dp, k, j)
  {
    hide Naming, Placed;
    var i := s[dp].ents[k].inum;
    var t, less := LinkCut(s, dp, k), CutLess(s, dp, k, j);
    if s[i].kind.Dir? {
      EmptyDirNaming(s, at, dp, k, i);
      assert Dots(s, i);
    }
    forall d, m ensures Counts(t, d, m, j) <==> (Counts(s, d, m, j) || (d, m) in {}) && (d, m) !in less {}
    NamingChange(s, t, j, {}, less);
    assert Naming(s, j) + {} - less == Naming(s, j) - less;
  }

  lemma CutTallied(s: Tree, at: map<int, (int, int)>, dp: nat, k: nat)
    requires Removable(s, at, dp, k)
    requires var i := s[dp].ents[k].inum; s[i].nlink > 0 && i != dp
    ensures Tallied(LinkCut(s, dp, k))
  {
    hide Naming, Placed, Tidy;
    RemovableFacts(s, at, dp, k);
    var t := LinkCut(s, dp, k);
    forall j | 0 < j < |t| ensures t[j].nlink == |Naming(t, j)| {
      CutNaming(s, at, dp, k, j);
    }
  }

  ghost function CutAt(s: Tree, at: map<int, (int, int)>, dp: nat, k: nat): map<int, (int, int)>
    requires dp < |s| && k < |s[dp].ents|
  {
    at - {s[dp].ents[k].inum}
  }

  lemma CutHangs(s: Tree, at: map<int, (int, int)>, dp: nat, k: nat, j: int)
    requires Linked(s, dp) && 2 <= k < |s[dp].ents| && 0 < s[dp].ents[k].inum < |s|
    requires var i := s[dp].ents[k].inum; s[i].nlink > 0 && i != dp && (s[i].kind.Dir? ==> s[dp].nlink > 1) && j != i
    requires Hangs(s, at, j) && at[j].0 != s[dp].ents[k].inum
    ensures Hangs(LinkCut(s, dp, k), CutAt(s, at, dp, k), j)
  {}

  lemma CutPlaced(s: Tree, at: map<int, (int, int)>, dp: nat, k: nat)
    requires Removable(s, at, dp, k)
    requires var i := s[dp].ents[k].inum; s[i].nlink > 0 && i != dp
    ensures Placed(LinkCut(s, dp, k), CutAt(s, at, dp, k))
  {
    hide Naming, Tallied, Tidy, NamesDistinct;
    RemovableFacts(s, at, dp, k);
    var i, t, to := s[dp].ents[k].inum, LinkCut(s, dp, k), CutAt(s, at, dp, k);
    if s[i].kind.Dir? {
      EmptyDirNaming(s, at, dp, k, i);
    }
    forall j | Linked(t, j) && j != ROOTINO ensures Hangs(t, to, j) {
      assert Hangs(s, at, j);
      CutHangs(s, at, dp, k, j);
    }
    forall d, m | Linked(t, d) && 2 <= m < |t[d].ents| && 0 < t[d].ents[m].inum < |t| && t[t[d].ents[m].inum].kind.Dir?
      ensures t[d].ents[m].inum in to && to[t[d].ents[m].inum] == (d, m)
    {
      assert Linked(s, d) && s[d].ents[m] == t[d].ents[m];
    }
  }

  /** unlink keeps the invariant. */
  lemma CutKeepsInv(s: Tree, at: map<int, (int, int)>, dp: nat, k: nat)
    requires Removable(s, at, dp, k)
    ensures var i := s[dp].ents[k].inum; s[i].nlink > 0 && i != dp
    ensures Inv(LinkCut(s, dp, k), CutAt(s, at, dp, k))
  {
    hide Naming, Tallied, Placed;
    RemovableFacts(s, at, dp, k);
    ClearKeepsDistinct(s[dp].ents, k);
    CutTallied(s, at, dp, k);
    CutPlaced(s, at, dp, k);
    var t := LinkCut(s, dp, k);
    assert Dirs(t) && Tidy(t);
  }

  // ---------------------------------------------------------------------------
  // The last reference to an inode without links

  function Reaped(s: Tree, i: nat): Tree
    requires i < |s|
  {
    s[i := Node(Free, 0, [])]
  }

  lemma ReapKeepsInv(s: Tree, at: map<int, (int, int)>, i: nat)
    requires Inv(s, at) && 0 < i < |s| && s[i].nlink == 0
    ensures Inv(Reaped(s, i), at)
  {
    hide Naming;
    var t := Reaped(s, i);
    FreeIsUnnamed(s, i);
    forall j | 0 < j < |t| ensures Naming(t, j) == Naming(s, j) {
      NamingChange(s, t, j, {}, {});
      assert Naming(s, j) + {} - {} == Naming(s, j);
    }
    forall j | Linked(t, j) && j != ROOTINO ensures Hangs(t, at, j) {
      assert Hangs(s, at, j);
    }
  }

  // ---------------------------------------------------------------------------
  // Parents that have been removed but are still open

  /** The count of a new inode is right exactly when its parent is in the tree. */
  lemma CreatedTalliedIff(s: Tree, at: map<int, (int, int)>, dp: nat, name: Name, kind: Kind, i: nat)
    requires Inv(s, at) && 0 < dp < |s| && s[dp].kind.Dir? && 0 < i < |s| && s[i].kind.Free? && !kind.Free?
    ensures Tallied(Created(s, dp, name, kind, i)) <==> Linked(s, dp)
  {
    hide Naming, FindFree, Placed;
    var t, k := Created(s, dp, name, kind, i), FindFree(s[dp].ents, 0);
    if Linked(s, dp) {
      CreatedTallied(s, at, dp, name, kind, i);
    } else {
      FreeIsUnnamed(s, i);
      assert Dots(s, dp) && s[dp].ents[0].inum != 0 && s[dp].ents[1].inum != 0;
      var p := s[dp].ents[1].inum;
      if !kind.Dir? {
        NamingChange(s, t, i, {}, {});
        assert t[i].nlink == 1 && |Naming(t, i)| == 0;
      } else if p == i {
        assert Counts(t, dp, 1, i) && Counts(t, dp, k, i);
        TwoMembers(Naming(t, i), (dp, 1), (dp, k));
      } else if p == dp {
        assert Counts(t, dp, 1, dp) && Counts(t, i, 1, dp);
        TwoMembers(Naming(t, dp), (dp, 1), (i, 1));
      } else {
        RevivedNaming(s, dp, name, i, p);
        assert !Counts(s, dp, 1, p);
        assert t[p] == s[p];
      }
    }
  }

  /** A new directory puts its unlinked parent back among the linked ones, so that the ".."
      of that parent counts again. */
  lemma RevivedNaming(s: Tree, dp: nat, name: Name, i: nat, p: int)
    requires 0 < dp < |s| && s[dp].kind.Dir? && s[dp].nlink == 0 && Dots(s, dp) && 0 < i < |s| && s[i].kind.Free?
    requires p == s[dp].ents[1].inum && p != i && p != dp &&
             forall m :: 2 <= m < |s[dp].ents| ==> s[dp].ents[m].inum == 0
    ensures Naming(Created(s, dp, name, Dir, i), p) == Naming(s, p) + {(dp, 1)}
  {}

  lemma LinkTalliedIff(s: Tree, at: map<int, (int, int)>, dp: nat, name: Name, i: nat)
    requires Inv(s, at) && 0 < dp < |s| && s[dp].kind.Dir? && 0 < i < |s| && !s[i].kind.Dir? && !s[i].kind.Free?
    ensures Tallied(LinkMade(s, dp, name, i)) <==> Linked(s, dp)
  {
    hide Naming, FindFree, Placed;
    if Linked(s, dp) {
      LinkTallied(s, at, dp, name, i);
    } else {
      var t := LinkMade(s, dp, name, i);
      NamingChange(s, t, i, {}, {});
      assert Naming(s, i) + {} - {} == Naming(s, i);
    }
  }
}
