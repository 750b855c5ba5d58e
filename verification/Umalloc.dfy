/** The Kernighan and Ritchie storage allocator: one circular list of free blocks in
    address order, first fit, coalescing on free.  Addresses count header units. */
module Umalloc {
  import opened Types

  const HEADER: nat := 8                   // sizeof(Header)
  const TOP: nat := 0x1000_0000            // KERNBASE in units: no user memory above
  const NALLOC: nat := 4096                // least number of units asked of sbrk

  datatype Header = Header(ptr: nat, size: nat)

  // ---------------------------------------------------------------------------
  // The free list

  /** c is the free list, starting at the empty block `base` that anchors it: linked
      in a circle, in increasing address order, and fully coalesced, since a block
      ends strictly before the next one begins. */
  ghost predicate List(base: nat, mem: map<nat, Header>, c: seq<nat>)
  {
    && |c| > 0 && c[0] == base && base > 0
    && (forall i :: 0 <= i < |c| ==> c[i] in mem)
    && (forall i, k :: 0 <= i < k < |c| && k == i + 1 ==> mem[c[i]].ptr == c[k] && c[i] + mem[c[i]].size < c[k])
    && mem[c[|c| - 1]].ptr == base
    && mem[base].size == 0
    && (forall i :: 0 < i < |c| ==> mem[c[i]].size > 0)
  }

  /** Every block of the list ends before every later one begins. */
  lemma {:induction false} Ahead(base: nat, mem: map<nat, Header>, c: seq<nat>, i: nat, k: nat)
    requires List(base, mem, c) && i < k < |c|
    ensures c[i] + mem[c[i]].size < c[k]
    decreases k - i
  {
    if k > i + 1 {
      Ahead(base, mem, c, i, k - 1);
    }
  }

  lemma Increasing(base: nat, mem: map<nat, Header>, c: seq<nat>)
    requires List(base, mem, c)
    ensures forall i, k :: 0 <= i < k < |c| ==> c[i] < c[k]
  {
    forall i, k | 0 <= i < k < |c| ensures c[i] < c[k] {
      Ahead(base, mem, c, i, k);
    }
  }

  // ---------------------------------------------------------------------------
  // The arena: blk gives the size of every block, free or handed out, and owner the
  // one block that each unit obtained from sbrk belongs to.

  ghost predicate Owns(owner: map<nat, nat>, b: nat, n: nat) {
    forall x :: b <= x < b + n ==> x in owner && owner[x] == b
  }

  ghost predicate Covers(blk: map<nat, nat>, b: nat, x: nat) {
    b in blk && b <= x < b + blk[b]
  }

  ghost predicate Arena(base: nat, blk: map<nat, nat>, owner: map<nat, nat>)
  {
    && (forall b :: b in blk ==> blk[b] > 0 && base < b && Owns(owner, b, blk[b]))
    && (forall x :: x in owner ==> Covers(blk, owner[x], x) && base < x < TOP)
  }

  /** Distinct blocks do not overlap. */
  lemma BlocksDisjoint(base: nat, blk: map<nat, nat>, owner: map<nat, nat>, a: nat, b: nat)
    requires Arena(base, blk, owner) && a in blk && b in blk && a < b
    ensures a + blk[a] <= b
  {
    assert Owns(owner, b, blk[b]);
    assert owner[b] == b;
    assert Owns(owner, a, blk[a]);
  }

  /** Every unit of the arena is in exactly one block, and blocks lie in the arena. */
  lemma ArenaPartition(base: nat, blk: map<nat, nat>, owner: map<nat, nat>, x: nat)
    requires Arena(base, blk, owner)
    ensures x in owner <==> exists b :: b in blk && b <= x < b + blk[b]
    ensures forall a, b :: a in blk && b in blk && a <= x < a + blk[a] && b <= x < b + blk[b] ==> a == b
  {}

  ghost function MergedSizes(blk: map<nat, nat>, a: nat, b: nat): map<nat, nat>
    requires a in blk && b in blk
  {
    (blk - {b})[a := blk[a] + blk[b]]
  }

  ghost function MergedOwner(owner: map<nat, nat>, a: nat, b: nat): map<nat, nat> {
    map x | x in owner :: if owner[x] == b then a else owner[x]
  }

  /** Adjacent blocks become one. */
  lemma Merge(base: nat, blk: map<nat, nat>, owner: map<nat, nat>, a: nat, b: nat)
    requires Arena(base, blk, owner) && a in blk && b in blk && a + blk[a] == b
    ensures Arena(base, MergedSizes(blk, a, b), MergedOwner(owner, a, b))
    ensures MergedOwner(owner, a, b).Keys == owner.Keys
  {
    MergedOwns(blk, owner, a, b);
    forall x | x in owner ensures Covers(MergedSizes(blk, a, b), MergedOwner(owner, a, b)[x], x) {}
  }

  lemma MergedOwns(blk: map<nat, nat>, owner: map<nat, nat>, a: nat, b: nat)
    requires a in blk && b in blk && a != b && a + blk[a] == b && forall y :: y in blk ==> Owns(owner, y, blk[y])
    ensures forall y :: y in MergedSizes(blk, a, b) ==> Owns(MergedOwner(owner, a, b), y, MergedSizes(blk, a, b)[y])
  {}

  ghost function SplitSizes(blk: map<nat, nat>, a: nat, b: nat): map<nat, nat>
    requires a in blk && a <= b < a + blk[a]
  {
    blk[a := b - a][b := a + blk[a] - b]
  }

  ghost function SplitOwner(owner: map<nat, nat>, a: nat, b: nat): map<nat, nat> {
    map x | x in owner :: if owner[x] == a && b <= x then b else owner[x]
  }

  lemma SplitOwns(blk: map<nat, nat>, owner: map<nat, nat>, a: nat, b: nat)
    requires a in blk && a < b < a + blk[a] && b !in blk && forall y :: y in blk ==> Owns(owner, y, blk[y])
    ensures forall y :: y in SplitSizes(blk, a, b) ==> Owns(SplitOwner(owner, a, b), y, SplitSizes(blk, a, b)[y])
  {}

  /** The units of a block from b on become a block of their own. */
  lemma Split(base: nat, blk: map<nat, nat>, owner: map<nat, nat>, a: nat, b: nat)
    requires Arena(base, blk, owner) && a in blk && a < b < a + blk[a]
    ensures b !in blk
    ensures Arena(base, SplitSizes(blk, a, b), SplitOwner(owner, a, b))
    ensures SplitOwner(owner, a, b).Keys == owner.Keys
  {
    if b in blk {
      BlocksDisjoint(base, blk, owner, a, b);
    }
    SplitOwns(blk, owner, a, b);
    forall x | x in owner ensures Covers(SplitSizes(blk, a, b), SplitOwner(owner, a, b)[x], x) {}
  }

  ghost function Fresh(at: nat, n: nat): (r: map<nat, nat>)
    ensures forall x :: x in r <==> at <= x < at + n
    ensures forall x :: x in r ==> r[x] == at
  {
    if n == 0 then map[] else Fresh(at, n - 1)[at + (n - 1) := at]
  }

  /** The owners when sbrk has added n units at address at, as one block. */
  ghost function Grown(owner: map<nat, nat>, at: nat, n: nat): (r: map<nat, nat>)
    ensures forall x :: x in r <==> x in owner || at <= x < at + n
    ensures forall x :: x in r ==> r[x] == if at <= x < at + n then at else owner[x]
  {
    owner + Fresh(at, n)
  }

  lemma OwnsStill(owner: map<nat, nat>, at: nat, n: nat, y: nat, m: nat)
    requires Owns(owner, y, m) && m > 0 && forall x :: x in owner ==> x < at
    ensures y in owner && y < at && Owns(Grown(owner, at, n), y, m)
  {
    var more := Grown(owner, at, n);
    forall x | y <= x < y + m ensures x in more && more[x] == y {
      assert x in owner && owner[x] == y;
    }
    assert y in owner;
  }

  lemma OwnsFresh(owner: map<nat, nat>, at: nat, n: nat)
    ensures Owns(Grown(owner, at, n), at, n)
  {}

  lemma CoversStill(blk: map<nat, nat>, at: nat, n: nat, b: nat, x: nat)
    requires Covers(blk, b, x) && b != at
    ensures Covers(blk[at := n], b, x)
  {}

  /** New memory joins the arena as one block. */
  lemma Grow(base: nat, blk: map<nat, nat>, owner: map<nat, nat>, at: nat, n: nat)
    requires Arena(base, blk, owner) && n > 0 && base < at && at + n <= TOP
    requires forall x :: x in owner ==> x < at
    ensures at !in blk && Arena(base, blk[at := n], Grown(owner, at, n))
  {
    hide Owns, Covers;
    var more := Grown(owner, at, n);
    forall y | y in blk ensures y < at && Owns(more, y, blk[y]) {
      OwnsStill(owner, at, n, y, blk[y]);
    }
    OwnsFresh(owner, at, n);
    forall x | x in more ensures Covers(blk[at := n], more[x], x) && base < x < TOP {
      if x in owner {
        CoversOwner(blk, owner, x);
        CoversStill(blk, at, n, owner[x], x);
      } else {
        CoversFresh(blk, at, n, x);
      }
    }
  }

  lemma CoversOwner(blk: map<nat, nat>, owner: map<nat, nat>, x: nat)
    requires x in owner && Covers(blk, owner[x], x)
    ensures owner[x] in blk
  {}

  lemma CoversFresh(blk: map<nat, nat>, at: nat, n: nat, x: nat)
    requires at <= x < at + n
    ensures Covers(blk[at := n], at, x)
  {}

  // ---------------------------------------------------------------------------
  // The whole heap

  /** The free blocks, that is, the list without its anchor. */
  ghost function Elems(c: seq<nat>): set<nat> {
    set i | 0 < i < |c| :: c[i]
  }

  ghost predicate Heap(base: nat, mem: map<nat, Header>, c: seq<nat>, used: set<nat>, blk: map<nat, nat>,
      owner: map<nat, nat>)
  {
    && List(base, mem, c)
    && Arena(base, blk, owner)
    && Tie(mem, used, Elems(c), blk)
  }

  /** Every block is either handed out or free, and its header holds its size. */
  ghost predicate Tie(mem: map<nat, Header>, used: set<nat>, free: set<nat>, blk: map<nat, nat>)
  {
    && blk.Keys == used + free && used !! free
    && (forall b :: b in blk ==> b in mem && mem[b].size == blk[b])
  }

  lemma ElemsAt(c: seq<nat>, i: nat)
    requires 0 < i < |c|
    ensures c[i] in Elems(c)
  {}

  /** r is c with b inserted at position k. */
  ghost predicate IsInserted(r: seq<nat>, c: seq<nat>, k: nat, b: nat) {
    && |r| == |c| + 1 && k <= |c|
    && (forall i :: 0 <= i < k ==> r[i] == c[i]) && r[k] == b
    && (forall i :: k < i < |r| ==> r[i] == c[i - 1])
  }

  /** r is c without its element at position k. */
  ghost predicate IsRemoved(r: seq<nat>, c: seq<nat>, k: nat) {
    && |r| == |c| - 1 && k < |c|
    && (forall i :: 0 <= i < k ==> r[i] == c[i])
    && (forall i :: k <= i < |r| ==> r[i] == c[i + 1])
  }

  function Inserted(c: seq<nat>, k: nat, b: nat): (r: seq<nat>)
    requires k <= |c|
    ensures IsInserted(r, c, k, b)
  {
    c[..k] + [b] + c[k..]
  }

  function Removed(c: seq<nat>, k: nat): (r: seq<nat>)
    requires k < |c|
    ensures IsRemoved(r, c, k)
  {
    c[..k] + c[k + 1..]
  }

  lemma ElemsInserted(c: seq<nat>, k: nat, b: nat)
    requires 0 < k <= |c|
    ensures Elems(Inserted(c, k, b)) == Elems(c) + {b}
  {
    var r := Inserted(c, k, b);
    forall x | x in Elems(c) + {b} ensures x in Elems(r) {
      if x == b {
        ElemsAt(r, k);
      } else {
        var i :| 0 < i < |c| && c[i] == x;
        ElemsAt(r, if i < k then i else i + 1);
      }
    }
    forall x | x in Elems(r) ensures x in Elems(c) + {b} {
      var i :| 0 < i < |r| && r[i] == x;
      if i != k {
        ElemsAt(c, if i < k then i else i - 1);
      }
    }
  }

  lemma ElemsReplaced(c: seq<nat>, k: nat, b: nat)
    requires 0 < k < |c| && forall i, j :: 0 <= i < j < |c| ==> c[i] < c[j]
    ensures Elems(c[k := b]) == Elems(c) - {c[k]} + {b}
  {
    var r := c[k := b];
    forall x | x in Elems(c) - {c[k]} + {b} ensures x in Elems(r) {
      if x == b {
        ElemsAt(r, k);
      } else {
        var i :| 0 < i < |c| && c[i] == x;
        ElemsAt(r, i);
      }
    }
    forall x | x in Elems(r) ensures x in Elems(c) - {c[k]} + {b} {
      var i :| 0 < i < |r| && r[i] == x;
      if i != k {
        ElemsAt(c, i);
      }
    }
  }

  lemma ElemsRemoved(c: seq<nat>, k: nat)
    requires 0 < k < |c| && forall i, j :: 0 <= i < j < |c| ==> c[i] < c[j]
    ensures Elems(Removed(c, k)) == Elems(c) - {c[k]}
  {
    var r := Removed(c, k);
    forall x | x in Elems(c) - {c[k]} ensures x in Elems(r) {
      var i :| 0 < i < |c| && c[i] == x;
      ElemsAt(r, if i < k then i else i - 1);
    }
    forall x | x in Elems(r) ensures x in Elems(c) - {c[k]} {
      var i :| 0 < i < |r| && r[i] == x;
      ElemsAt(c, if i < k then i else i + 1);
    }
  }

  // ---------------------------------------------------------------------------
  // free, on values.  p = c[j] is the block after which bp belongs.

  ghost predicate Place(c: seq<nat>, j: nat, bp: nat) {
    j < |c| && c[j] < bp && (j + 1 < |c| ==> bp < c[j + 1])
  }

  /** The first half of free: bp absorbs its upper neighbour or points to it. */
  function JoinUpper(mem: map<nat, Header>, p: nat, bp: nat): map<nat, Header>
    requires p in mem && bp in mem && mem[p].ptr in mem
  {
    var n := mem[p].ptr;
    if bp + mem[bp].size == n then mem[bp := Header(mem[n].ptr, mem[bp].size + mem[n].size)]
    else mem[bp := Header(n, mem[bp].size)]
  }

  /** The second half: p absorbs bp or points to it. */
  function JoinLower(mem: map<nat, Header>, p: nat, bp: nat): map<nat, Header>
    requires p in mem && bp in mem
  {
    if p + mem[p].size == bp then mem[p := Header(mem[bp].ptr, mem[p].size + mem[bp].size)]
    else mem[p := Header(bp, mem[p].size)]
  }

  function Joined(mem: map<nat, Header>, p: nat, bp: nat): map<nat, Header>
    requires p in mem && bp in mem && mem[p].ptr in mem
  {
    JoinLower(JoinUpper(mem, p, bp), p, bp)
  }

  /** What free needs of the list alone: bp lies strictly between its neighbours. */
  ghost predicate Fits(base: nat, mem: map<nat, Header>, c: seq<nat>, j: nat, bp: nat)
  {
    && List(base, mem, c) && bp in mem && mem[bp].size > 0
    && j < |c| && c[j] < bp && c[j] + mem[c[j]].size <= bp && (j + 1 < |c| ==> bp + mem[bp].size <= c[j + 1])
  }

  /** In mem2 the list c of mem has been left alone, except at position j. */
  ghost predicate SameBut(mem: map<nat, Header>, mem2: map<nat, Header>, c: seq<nat>, j: nat) {
    && (forall i :: 0 <= i < |c| ==> c[i] in mem && c[i] in mem2)
    && (forall i :: 0 <= i < |c| && i != j ==> mem2[c[i]] == mem[c[i]])
  }

  /** Linking b into the list after position j. */
  lemma InsertBlock(base: nat, mem: map<nat, Header>, mem2: map<nat, Header>, c: seq<nat>, j: nat, b: nat, r: seq<nat>)
    requires IsInserted(r, c, j + 1, b)
    requires List(base, mem, c) && j < |c| && SameBut(mem, mem2, c, j)
    requires mem2[c[j]] == Header(b, mem[c[j]].size)
    requires b in mem2 && mem2[b].ptr == mem[c[j]].ptr && mem2[b].size > 0
    requires c[j] + mem[c[j]].size < b && (j + 1 < |c| ==> b + mem2[b].size < c[j + 1])
    ensures List(base, mem2, r)
  {}

  /** Unlinking the block after position j, or growing position j over it. */
  lemma RemoveBlock(base: nat, mem: map<nat, Header>, mem2: map<nat, Header>, c: seq<nat>, j: nat, r: seq<nat>)
    requires IsRemoved(r, c, j + 1)
    requires List(base, mem, c) && j + 1 < |c| && SameBut(mem, mem2, c, j)
    requires mem2[c[j]].ptr == mem[c[j + 1]].ptr && mem2[c[j]].size >= mem[c[j]].size
    requires j == 0 ==> mem2[c[j]].size == 0
    requires j + 2 < |c| ==> c[j] + mem2[c[j]].size < c[j + 2]
    ensures List(base, mem2, r)
  {}

  lemma JoinedSame(base: nat, mem: map<nat, Header>, c: seq<nat>, j: nat, bp: nat)
    requires Fits(base, mem, c, j, bp)
    ensures SameBut(mem, Joined(mem, c[j], bp), c, j)
  {
    forall i | 0 <= i < |c| && i != j ensures Joined(mem, c[j], bp)[c[i]] == mem[c[i]] {
      if i < j {
        Ahead(base, mem, c, i, j);
      } else {
        Ahead(base, mem, c, j, i);
        if i > j + 1 {
          Ahead(base, mem, c, j + 1, i);
        }
      }
    }
  }

  lemma ListAlone(base: nat, mem: map<nat, Header>, c: seq<nat>, j: nat, bp: nat)
    requires Fits(base, mem, c, j, bp) && c[j] + mem[c[j]].size != bp && bp + mem[bp].size != mem[c[j]].ptr
    ensures List(base, Joined(mem, c[j], bp), Inserted(c, j + 1, bp))
  {
    JoinedSame(base, mem, c, j, bp);
    InsertBlock(base, mem, Joined(mem, c[j], bp), c, j, bp, Inserted(c, j + 1, bp));
  }

  lemma NextInside(base: nat, mem: map<nat, Header>, c: seq<nat>, j: nat, bp: nat)
    requires Fits(base, mem, c, j, bp) && bp + mem[bp].size == mem[c[j]].ptr
    ensures j + 1 < |c| && mem[c[j]].ptr == c[j + 1]
  {
    if j > 0 {
      Ahead(base, mem, c, 0, j);
    }
  }

  lemma ListUpper(base: nat, mem: map<nat, Header>, c: seq<nat>, j: nat, bp: nat)
    requires Fits(base, mem, c, j, bp) && c[j] + mem[c[j]].size != bp && bp + mem[bp].size == mem[c[j]].ptr
    ensures j + 1 < |c| && List(base, Joined(mem, c[j], bp), c[j + 1 := bp])
  {
    NextInside(base, mem, c, j, bp);
    JoinedSame(base, mem, c, j, bp);
  }

  lemma ListLower(base: nat, mem: map<nat, Header>, c: seq<nat>, j: nat, bp: nat)
    requires Fits(base, mem, c, j, bp) && c[j] + mem[c[j]].size == bp && bp + mem[bp].size != mem[c[j]].ptr
    ensures List(base, Joined(mem, c[j], bp), c)
  {
    JoinedSame(base, mem, c, j, bp);
  }

  lemma ListBoth(base: nat, mem: map<nat, Header>, c: seq<nat>, j: nat, bp: nat)
    requires Fits(base, mem, c, j, bp) && c[j] + mem[c[j]].size == bp && bp + mem[bp].size == mem[c[j]].ptr
    ensures j + 1 < |c| && List(base, Joined(mem, c[j], bp), Removed(c, j + 1))
  {
    NextInside(base, mem, c, j, bp);
    JoinedSame(base, mem, c, j, bp);
    RemoveBlock(base, mem, Joined(mem, c[j], bp), c, j, Removed(c, j + 1));
  }

  /** A block handed out lies strictly between the free blocks around it. */
  lemma PlaceFits(base: nat, mem: map<nat, Header>, c: seq<nat>, used: set<nat>, blk: map<nat, nat>,
      owner: map<nat, nat>, j: nat, bp: nat)
    requires Heap(base, mem, c, used, blk, owner) && bp in used && Place(c, j, bp)
    ensures Fits(base, mem, c, j, bp)
  {
    assert bp in blk;
    if j > 0 {
      ElemsAt(c, j);
      BlocksDisjoint(base, blk, owner, c[j], bp);
    }
    if j + 1 < |c| {
      ElemsAt(c, j + 1);
      BlocksDisjoint(base, blk, owner, bp, c[j + 1]);
    }
  }

  /** What free promises: the heap stays whole, the arena keeps its units, other
      blocks keep their headers, and the freed units are now part of c2[k]. */
  ghost predicate Freed(base: nat, mem: map<nat, Header>, c: seq<nat>, used: set<nat>, owner: map<nat, nat>, j: nat,
      bp: nat,
                        mem2: map<nat, Header>, c2: seq<nat>, blk2: map<nat, nat>, owner2: map<nat, nat>, k: nat)
  {
    && Heap(base, mem2, c2, used - {bp}, blk2, owner2)
    && owner2.Keys == owner.Keys
    && j < |c| && j < |c2| && c2[j] == c[j]
    && bp in mem && 0 < k < |c2| && mem2[c2[k]].size >= mem[bp].size
    && KeepsOthers(mem, mem2, used, bp)
  }

  /** What the four cases need to know of the list and the arena. */
  lemma Around(base: nat, mem: map<nat, Header>, c: seq<nat>, used: set<nat>, blk: map<nat, nat>,
      owner: map<nat, nat>, j: nat, bp: nat)
    requires Heap(base, mem, c, used, blk, owner) && bp in used && Fits(base, mem, c, j, bp)
    ensures j < |c| && c[j] in mem && mem[c[j]].ptr in mem && c[j] < bp && c[j] !in used
    ensures bp + mem[bp].size == mem[c[j]].ptr ==>
            j + 1 < |c| && mem[c[j]].ptr == c[j + 1] && c[j + 1] in Elems(c) && bp < c[j + 1]
    ensures c[j] + mem[c[j]].size == bp ==> j > 0 && c[j] in Elems(c)
  {}

  /** The headers of blocks handed out, other than bp. */
  ghost predicate KeepsOthers(mem: map<nat, Header>, mem2: map<nat, Header>, used: set<nat>, bp: nat) {
    forall u :: u in used - {bp} ==> u in mem && u in mem2 && mem2[u] == mem[u]
  }

  lemma TieAlone(mem: map<nat, Header>, used: set<nat>, free: set<nat>, blk: map<nat, nat>, p: nat, bp: nat)
    requires Tie(mem, used, free, blk) && bp in used && p in mem && p !in used && mem[p].ptr in mem
    requires bp in mem && p + mem[p].size != bp && bp + mem[bp].size != mem[p].ptr
    ensures Tie(Joined(mem, p, bp), used - {bp}, free + {bp}, blk) && KeepsOthers(mem, Joined(mem, p, bp), used, bp)
    ensures Joined(mem, p, bp)[bp].size == mem[bp].size
  {}

  lemma TieUpper(mem: map<nat, Header>, used: set<nat>, free: set<nat>, blk: map<nat, nat>, p: nat, bp: nat, n: nat)
    requires Tie(mem, used, free, blk) && bp in used && p in mem && p !in used && n in free && n == mem[p].ptr &&
             p < bp < n
    requires bp in mem && n in mem && p + mem[p].size != bp && bp + mem[bp].size == n
    ensures bp in blk && n in blk
    ensures Tie(Joined(mem, p, bp), used - {bp}, free - {n} + {bp}, MergedSizes(blk, bp, n)) &&
            KeepsOthers(mem, Joined(mem, p, bp), used, bp)
    ensures blk[bp] == mem[bp].size <= Joined(mem, p, bp)[bp].size
  {}

  lemma TieLower(mem: map<nat, Header>, used: set<nat>, free: set<nat>, blk: map<nat, nat>, p: nat, bp: nat)
    requires Tie(mem, used, free, blk) && bp in used && p in free && p in mem && mem[p].ptr in mem
    requires bp in mem && p + mem[p].size == bp && bp + mem[bp].size != mem[p].ptr && p < bp
    ensures p in blk && bp in blk && blk[p] == mem[p].size
    ensures Tie(Joined(mem, p, bp), used - {bp}, free, MergedSizes(blk, p, bp)) &&
            KeepsOthers(mem, Joined(mem, p, bp), used, bp)
    ensures Joined(mem, p, bp)[p].size >= mem[bp].size
  {}

  lemma TieBoth(mem: map<nat, Header>, used: set<nat>, free: set<nat>, blk: map<nat, nat>, p: nat, bp: nat, n: nat)
    requires Tie(mem, used, free, blk) && bp in used && p in free && p in mem && n in free && n == mem[p].ptr &&
             p < bp < n
    requires bp in mem && n in mem && p + mem[p].size == bp && bp + mem[bp].size == n
    ensures p in blk && bp in blk && n in blk && blk[p] == mem[p].size && blk[bp] == mem[bp].size
    ensures Tie(Joined(mem, p, bp), used - {bp}, free - {n}, MergedSizes(MergedSizes(blk, bp, n), p, bp))
    ensures KeepsOthers(mem, Joined(mem, p, bp), used, bp)
    ensures Joined(mem, p, bp)[p].size >= mem[bp].size
  {}

  lemma FreeAlone(base: nat, mem: map<nat, Header>, c: seq<nat>, used: set<nat>, blk: map<nat, nat>,
      owner: map<nat, nat>, j: nat, bp: nat)
    requires Heap(base, mem, c, used, blk, owner) && bp in used && Fits(base, mem, c, j, bp)
    requires c[j] + mem[c[j]].size != bp && bp + mem[bp].size != mem[c[j]].ptr
    ensures Freed(base, mem, c, used, owner, j, bp, Joined(mem, c[j], bp), Inserted(c, j + 1, bp), blk, owner, j + 1)
  {
    hide List, Arena, Elems, Tie, JoinUpper, JoinLower, Joined;
    Around(base, mem, c, used, blk, owner, j, bp);
    ListAlone(base, mem, c, j, bp);
    ElemsInserted(c, j + 1, bp);
    TieAlone(mem, used, Elems(c), blk, c[j], bp);
  }

  lemma FreeUpper(base: nat, mem: map<nat, Header>, c: seq<nat>, used: set<nat>, blk: map<nat, nat>,
      owner: map<nat, nat>, j: nat, bp: nat)
    requires Heap(base, mem, c, used, blk, owner) && bp in used && Fits(base, mem, c, j, bp)
    requires c[j] + mem[c[j]].size != bp && bp + mem[bp].size == mem[c[j]].ptr
    ensures j + 1 < |c| && bp in blk && c[j + 1] in blk
    ensures Freed(base, mem, c, used, owner, j, bp, Joined(mem, c[j], bp), c[j + 1 := bp],
                  MergedSizes(blk, bp, c[j + 1]), MergedOwner(owner, bp, c[j + 1]), j + 1)
  {
    hide List, Arena, Elems, Tie, JoinUpper, JoinLower, Joined, MergedSizes, MergedOwner;
    Around(base, mem, c, used, blk, owner, j, bp);
    ListUpper(base, mem, c, j, bp);
    Increasing(base, mem, c);
    ElemsReplaced(c, j + 1, bp);
    TieUpper(mem, used, Elems(c), blk, c[j], bp, c[j + 1]);
    Merge(base, blk, owner, bp, c[j + 1]);
  }

  lemma FreeLower(base: nat, mem: map<nat, Header>, c: seq<nat>, used: set<nat>, blk: map<nat, nat>,
      owner: map<nat, nat>, j: nat, bp: nat)
    requires Heap(base, mem, c, used, blk, owner) && bp in used && Fits(base, mem, c, j, bp)
    requires c[j] + mem[c[j]].size == bp && bp + mem[bp].size != mem[c[j]].ptr
    ensures c[j] in blk && bp in blk
    ensures Freed(base, mem, c, used, owner, j, bp, Joined(mem, c[j], bp), c, MergedSizes(blk, c[j], bp),
            MergedOwner(owner, c[j], bp), j)
  {
    hide List, Arena, Elems, Tie, JoinUpper, JoinLower, Joined, MergedSizes, MergedOwner;
    Around(base, mem, c, used, blk, owner, j, bp);
    ListLower(base, mem, c, j, bp);
    TieLower(mem, used, Elems(c), blk, c[j], bp);
    Merge(base, blk, owner, c[j], bp);
  }

  lemma FreeBoth(base: nat, mem: map<nat, Header>, c: seq<nat>, used: set<nat>, blk: map<nat, nat>,
      owner: map<nat, nat>, j: nat, bp: nat)
    requires Heap(base, mem, c, used, blk, owner) && bp in used && Fits(base, mem, c, j, bp)
    requires c[j] + mem[c[j]].size == bp && bp + mem[bp].size == mem[c[j]].ptr
    ensures j + 1 < |c| && c[j] in blk && bp in blk && c[j + 1] in blk && c[j] < bp < c[j + 1]
    ensures Freed(base, mem, c, used, owner, j, bp, Joined(mem, c[j], bp), Removed(c, j + 1),
                  MergedSizes(MergedSizes(blk, bp, c[j + 1]), c[j], bp),
                      MergedOwner(MergedOwner(owner, bp, c[j + 1]), c[j], bp), j)
  {
    hide List, Arena, Elems, Tie, JoinUpper, JoinLower, Joined, MergedOwner;
    Around(base, mem, c, used, blk, owner, j, bp);
    ListBoth(base, mem, c, j, bp);
    Increasing(base, mem, c);
    ElemsRemoved(c, j + 1);
    TieBoth(mem, used, Elems(c), blk, c[j], bp, c[j + 1]);
    Merge(base, blk, owner, bp, c[j + 1]);
    Merge(base, MergedSizes(blk, bp, c[j + 1]), MergedOwner(owner, bp, c[j + 1]), c[j], bp);
  }

  /** free keeps the heap whole, whichever neighbours the block touches. */
  lemma FreeKeepsHeap(base: nat, mem: map<nat, Header>, c: seq<nat>, used: set<nat>, blk: map<nat, nat>,
      owner: map<nat, nat>, j: nat, bp: nat)
    returns (c2: seq<nat>, blk2: map<nat, nat>, owner2: map<nat, nat>, k: nat)
    requires Heap(base, mem, c, used, blk, owner) && bp in used && Place(c, j, bp)
    ensures mem[c[j]].ptr in mem
    ensures Freed(base, mem, c, used, owner, j, bp, Joined(mem, c[j], bp), c2, blk2, owner2, k)
  {
    PlaceFits(base, mem, c, used, blk, owner, j, bp);
    var p, n := c[j], mem[c[j]].ptr;
    hide Joined, Freed, Heap, MergedSizes, MergedOwner, Inserted, Removed;
    if p + mem[p].size != bp && bp + mem[bp].size != n {
      FreeAlone(base, mem, c, used, blk, owner, j, bp);
      c2, blk2, owner2, k := Inserted(c, j + 1, bp), blk, owner, j + 1;
    } else if p + mem[p].size != bp {
      FreeUpper(base, mem, c, used, blk, owner, j, bp);
      c2, blk2, owner2, k := c[j + 1 := bp], MergedSizes(blk, bp, c[j + 1]), MergedOwner(owner, bp, c[j + 1]), j + 1;
    } else if bp + mem[bp].size != n {
      FreeLower(base, mem, c, used, blk, owner, j, bp);
      c2, blk2, owner2, k := c, MergedSizes(blk, p, bp), MergedOwner(owner, p, bp), j;
    } else {
      FreeBoth(base, mem, c, used, blk, owner, j, bp);
      c2 := Removed(c, j + 1);
      blk2 := MergedSizes(MergedSizes(blk, bp, c[j + 1]), p, bp);
      owner2 := MergedOwner(MergedOwner(owner, bp, c[j + 1]), p, bp);
      k := j;
    }
  }

  // ---------------------------------------------------------------------------
  // malloc, on values

  function Unlinked(mem: map<nat, Header>, q: nat, p: nat): map<nat, Header>
    requires q in mem && p in mem
  {
    mem[q := Header(mem[p].ptr, mem[q].size)]
  }

  lemma ListWhole(base: nat, mem: map<nat, Header>, c: seq<nat>, k: nat)
    requires List(base, mem, c) && 0 < k < |c|
    ensures List(base, Unlinked(mem, c[k - 1], c[k]), Removed(c, k))
  {
    Increasing(base, mem, c);
    if k + 1 < |c| {
      Ahead(base, mem, c, k - 1, k + 1);
    }
    RemoveBlock(base, mem, Unlinked(mem, c[k - 1], c[k]), c, k - 1, Removed(c, k));
  }

  /** An exact fit leaves the list. */
  lemma TakeWhole(base: nat, mem: map<nat, Header>, c: seq<nat>, used: set<nat>, blk: map<nat, nat>,
      owner: map<nat, nat>, k: nat)
    requires Heap(base, mem, c, used, blk, owner) && 0 < k < |c|
    ensures Heap(base, Unlinked(mem, c[k - 1], c[k]), Removed(c, k), used + {c[k]}, blk, owner)
    ensures c[k] !in used
  {
    ListWhole(base, mem, c, k);
    Increasing(base, mem, c);
    ElemsAt(c, k);
    ElemsRemoved(c, k);
    hide List, Arena, Elems, Removed;
    TieWhole(mem, used, Elems(c), blk, c[k - 1], c[k]);
  }

  lemma TieWhole(mem: map<nat, Header>, used: set<nat>, free: set<nat>, blk: map<nat, nat>, q: nat, p: nat)
    requires Tie(mem, used, free, blk) && p in free && q in mem
    ensures p in mem && p !in used && Tie(Unlinked(mem, q, p), used + {p}, free - {p}, blk)
  {}

  lemma InList(base: nat, mem: map<nat, Header>, c: seq<nat>, k: nat)
    requires List(base, mem, c) && k < |c|
    ensures c[k] in mem && 0 < base <= c[k]
  {
    Increasing(base, mem, c);
  }

  function PutSize(mem: map<nat, Header>, a: nat, n: nat): map<nat, Header> {
    mem[a := Header(if a in mem then mem[a].ptr else 0, n)]
  }

  /** The headers after block p has given up its units from b on. */
  function Carved(mem: map<nat, Header>, p: nat, b: nat): map<nat, Header>
    requires p in mem && p <= b < p + mem[p].size
  {
    PutSize(PutSize(mem, p, b - p), b, p + mem[p].size - b)
  }

  lemma ListTail(base: nat, mem: map<nat, Header>, c: seq<nat>, k: nat, b: nat)
    requires List(base, mem, c) && 0 < k < |c| && c[k] < b < c[k] + mem[c[k]].size
    ensures List(base, Carved(mem, c[k], b), c)
  {
    forall i | 0 <= i < |c| ensures c[i] != b && (i != k ==> c[i] != c[k]) {
      if i < k {
        Ahead(base, mem, c, i, k);
      } else if i > k {
        Ahead(base, mem, c, k, i);
      }
    }
  }

  lemma TieTail(mem: map<nat, Header>, used: set<nat>, free: set<nat>, blk: map<nat, nat>, p: nat, b: nat)
    requires Tie(mem, used, free, blk) && p in free && p < b < p + mem[p].size && b !in blk
    ensures Tie(Carved(mem, p, b), used + {b}, free, SplitSizes(blk, p, b))
  {}

  /** A larger block loses its last units, from b on. */
  lemma TakeTail(base: nat, mem: map<nat, Header>, c: seq<nat>, used: set<nat>, blk: map<nat, nat>,
      owner: map<nat, nat>, k: nat, b: nat)
    requires Heap(base, mem, c, used, blk, owner) && 0 < k < |c| && c[k] < b < c[k] + mem[c[k]].size
    ensures c[k] in blk && blk[c[k]] == mem[c[k]].size && b !in used
    ensures Heap(base, Carved(mem, c[k], b), c, used + {b}, SplitSizes(blk, c[k], b), SplitOwner(owner, c[k], b))
    ensures SplitOwner(owner, c[k], b).Keys == owner.Keys
  {
    hide List, Arena, Elems, SplitSizes, SplitOwner, Carved;
    InList(base, mem, c, k);
    ElemsAt(c, k);
    ListTail(base, mem, c, k, b);
    Split(base, blk, owner, c[k], b);
    TieTail(mem, used, Elems(c), blk, c[k], b);
  }

  /** Memory from sbrk joins the heap as a block that is handed out. */
  lemma AddRegion(base: nat, mem: map<nat, Header>, c: seq<nat>, used: set<nat>, blk: map<nat, nat>,
      owner: map<nat, nat>, at: nat, n: nat)
    requires Heap(base, mem, c, used, blk, owner) && n > 0 && base < at && at + n <= TOP
    requires forall x :: x in owner ==> x < at
    ensures at !in blk && at !in used &&
            Heap(base, PutSize(mem, at, n), c, used + {at}, blk[at := n], Grown(owner, at, n))
  {
    hide List, Arena, Elems, Fresh, Tie, PutSize;
    Grow(base, blk, owner, at, n);
    TieRegion(mem, used, Elems(c), blk, at, n);
    ListRegion(base, mem, c, at, n);
  }

  lemma TieRegion(mem: map<nat, Header>, used: set<nat>, free: set<nat>, blk: map<nat, nat>, at: nat, n: nat)
    requires Tie(mem, used, free, blk) && at !in blk
    ensures at !in used && at !in free && Tie(PutSize(mem, at, n), used + {at}, free, blk[at := n])
  {}

  lemma ListRegion(base: nat, mem: map<nat, Header>, c: seq<nat>, at: nat, n: nat)
    requires List(base, mem, c) && at !in Elems(c) && base < at
    ensures List(base, PutSize(mem, at, n), c)
  {}

  // ---------------------------------------------------------------------------
  // Sizes in 32-bit arithmetic

  /** The number of units malloc looks for, one of them the header. */
  function Units(nbytes: nat): nat {
    (nbytes + HEADER - 1) % UINT_LIMIT / HEADER + 1
  }

  /** The units that sbrk really provides for morecore's request: the byte count
      wraps at 32 bits and is then read as a signed int. */
  function Provided(nu: nat): nat {
    var bytes := nu * HEADER % UINT_LIMIT;
    if bytes < UINT_LIMIT / 2 then bytes / HEADER else 0
  }

  /** The rounding up of the request wraps around for the last seven sizes. */
  lemma UnitsEnough(nbytes: nat)
    requires nbytes < UINT_LIMIT
    ensures (Units(nbytes) - 1) * HEADER >= nbytes <==> nbytes <= UINT_LIMIT - HEADER
    ensures 1 <= Units(nbytes) <= UINT_LIMIT / HEADER
    ensures nbytes <= UINT_LIMIT / 2 - 16 ==> Units(nbytes) < TOP
  {}

  lemma ProvidedEnough(nu: nat)
    requires NALLOC <= nu <= UINT_LIMIT / HEADER
    ensures Provided(nu) == nu <==> nu < TOP
  {}

  /** The units that morecore asks for. */
  function Ask(nu: nat): nat {
    if nu < NALLOC then NALLOC else nu
  }

  // ---------------------------------------------------------------------------
  // The allocator

  /** What the kernel answers to an sbrk call: a refusal, or the old break. */
  datatype Reply = Refused | Granted(at: nat)

  /** Corrupt stands for a header written where sbrk provided no memory. */
  datatype Outcome = Null | Corrupt | Block(ap: nat)

  /** Steps along the circle of n nodes from i to j. */
  function Steps(n: nat, i: nat, j: nat): nat
    requires i < n && j < n
  {
    if i <= j then j - i else n - i + j
  }

  function Succ(n: nat, i: nat): (r: nat)
    requires i < n
    ensures r < n
  {
    if i + 1 < n then i + 1 else 0
  }

  /** One step closer to j, unless there already; no two nodes are equally far from it. */
  lemma StepsNext(n: nat, i: nat, j: nat)
    requires i < n && j < n
    ensures i != j ==> Steps(n, Succ(n, i), j) == Steps(n, i, j) - 1
    ensures i == j ==> Steps(n, i, j) == 0 && Steps(n, Succ(n, i), j) == n - 1
    ensures forall t: nat :: t < n && t != i ==> Steps(n, t, j) != Steps(n, i, j)
    ensures forall t: nat :: t < n ==> 0 <= Steps(n, t, j) < n
  {}

  class Allocator {
    const base: nat
    var freep: nat
    var mem: map<nat, Header>
    ghost var c: seq<nat>
    ghost var at: nat
    ghost var used: set<nat>
    ghost var blk: map<nat, nat>
    ghost var owner: map<nat, nat>

    /** freep is null until the first malloc; then it is the at-th block of the list. */
    ghost predicate Valid()
      reads this
    {
      && base > 0
      && (freep == 0 ==> used == {} && owner == map[])
      && (freep != 0 ==> Heap(base, mem, c, used, blk, owner) && at < |c| && c[at] == freep)
    }

    /** A free block of at least n units. */
    ghost predicate Fits(n: nat)
      reads this
    {
      freep != 0 && exists i: nat :: i < |c| && c[i] in mem && mem[c[i]].size >= n
    }

    constructor (b: nat)
      requires b > 0
      ensures Valid() && freep == 0 && base == b && used == {} && owner == map[]
    {
      base, freep, mem := b, 0, map[];
      c, at, used, blk, owner := [], 0, {}, map[], map[];
    }

    /** The search loop of free: it stops, and where the block belongs. */
    method FindPlace(bp: nat) returns (p: nat, ghost j: nat)
      requires Valid() && freep != 0 && bp in used
      ensures Place(c, j, bp) && p == c[j]
    {
      hide Arena, Tie, Elems, List, Heap;
      Apart(bp);
      ghost var t := PlaceOf(base, mem, c, bp);
      Increasing(base, mem, c);
      p, j := freep, at;
      InRange(j);
      while !(bp > p && bp < mem[p].ptr)
        invariant j < |c| && p == c[j] && p in mem && mem[p].ptr == c[Succ(|c|, j)]
        decreases Steps(|c|, j, t)
      {
        if p >= mem[p].ptr && (bp > p || bp < mem[p].ptr) {
          return;
        }
        assert j != t;
        p := mem[p].ptr;
        j := Succ(|c|, j);
        InRange(j);
      }
    }

    lemma Apart(bp: nat)
      requires Valid() && freep != 0 && bp in used
      ensures List(base, mem, c) && c[0] == base < bp && forall i :: 0 <= i < |c| ==> c[i] != bp
    {}

    /** free(ap): the block before ap goes back to the list and is coalesced. */
    method Free(ap: nat) returns (ghost k: nat)
      requires Valid() && freep != 0 && ap > 0 && ap - 1 in used
      modifies this
      ensures Valid() && freep != 0 && used == old(used) - {ap - 1} && owner.Keys == old(owner.Keys)
      ensures forall u :: u in used ==> u in mem && u in old(mem) && mem[u] == old(mem)[u]
      ensures 0 < k < |c| && mem[c[k]].size >= old(mem)[ap - 1].size
    {
      hide List, Arena, Tie, Elems, JoinUpper, JoinLower, Joined;
      var bp := ap - 1;
      ghost var j;
      var p;
      p, j := FindPlace(bp);
      ghost var c2, blk2, owner2, k2 := FreeKeepsHeap(base, mem, c, used, blk, owner, j, bp);
      InRange(j);
      UsedInMem();
      mem := Joined(mem, p, bp);
      freep := p;
      c, blk, owner, used, at, k := c2, blk2, owner2, used - {bp}, j, k2;
    }

    /** morecore(nu): asks for at least NALLOC units and frees them into the list. */
    method Morecore(nu: nat, reply: Reply) returns (r: Outcome, ghost k: nat)
      requires Valid() && freep != 0 && 0 < nu <= UINT_LIMIT / HEADER
      requires reply.Granted? ==> base < reply.at && forall x :: x in owner ==> x < reply.at
      requires reply.Granted? ==> reply.at + Provided(Ask(nu)) <= TOP
      modifies this
      ensures Valid() && freep != 0 && used == old(used)
      ensures forall u :: u in used ==> u in mem && u in old(mem) && mem[u] == old(mem)[u]
      ensures r.Null? <==> reply.Refused?
      ensures r.Corrupt? <==> reply.Granted? && nu >= TOP
      ensures r.Block? ==> r.ap == freep && 0 < k < |c| && mem[c[k]].size >= nu && nu < TOP
      ensures !r.Block? ==> mem == old(mem) && c == old(c) && owner == old(owner)
      ensures r.Block? ==> owner.Keys == old(owner.Keys) + Fresh(reply.at, Ask(nu)).Keys
    {
      hide List, Arena, Tie, Elems, Fresh, Provided;
      UsedInMem();
      var n := Ask(nu);
      k := 0;
      if reply.Refused? {
        return Null, k;
      }
      ProvidedEnough(n);
      if Provided(n) != n {
        return Corrupt, k;
      }
      var hp := reply.at;
      AddRegion(base, mem, c, used, blk, owner, hp, n);
      mem := PutSize(mem, hp, n);
      used, blk, owner := used + {hp}, blk[hp := n], Grown(owner, hp, n);
      assert owner.Keys == old(owner.Keys) + Fresh(hp, n).Keys;
      k := Free(hp + 1);
      assert used == old(used);
      return Block(freep), k;
    }

    /** malloc's exact fit: block p, the successor of prevp, leaves the list. */
    method TakeExact(prevp: nat, p: nat, ghost k: nat)
      requires Valid() && freep != 0 && 0 < k < |c| && prevp == c[k - 1] && p == c[k]
      modifies this
      ensures Valid() && freep == prevp != 0 && owner == old(owner)
      ensures p !in old(used) && used == old(used) + {p} && p in mem && p in old(mem) && mem[p].size == old(mem)[p].size
      ensures forall u :: u in old(used) ==> u in mem && u in old(mem) && mem[u].size == old(mem)[u].size
    {
      hide List, Arena, Elems, Tie;
      InRange(k - 1);
      InRange(k);
      UsedInMem();
      TakeWhole(base, mem, c, used, blk, owner, k);
      mem := Unlinked(mem, prevp, p);
      c, used, at := Removed(c, k), used + {p}, k - 1;
      freep := prevp;
    }

    /** malloc's other case: the last nunits units of block p are split off. */
    method TakeLast(nunits: nat, prevp: nat, p: nat, ghost k: nat) returns (b: nat)
      requires Valid() && freep != 0 && 0 < k < |c| && prevp == c[k - 1] && p == c[k]
      requires 0 < nunits && p in mem && nunits < mem[p].size
      modifies this
      ensures Valid() && freep == prevp != 0 && owner.Keys == old(owner.Keys)
      ensures b !in old(used) && used == old(used) + {b} && b in mem && mem[b].size == nunits
      ensures forall u :: u in old(used) ==> u in mem && u in old(mem) && mem[u].size == old(mem)[u].size
    {
      hide List, Arena, Elems, Tie;
      InRange(k - 1);
      InRange(k);
      UsedInMem();
      b := p + (mem[p].size - nunits);
      TakeTail(base, mem, c, used, blk, owner, k, b);
      mem := PutSize(mem, p, mem[p].size - nunits);
      mem := PutSize(mem, b, nunits);
      blk, owner := SplitSizes(blk, p, b), SplitOwner(owner, p, b);
      used, at := used + {b}, k - 1;
      freep := prevp;
    }

    lemma InRange(x: nat)
      requires Valid() && freep != 0 && x < |c|
      ensures c[x] > 0 && c[x] in mem && mem[c[x]].ptr == c[Succ(|c|, x)] && mem[c[x]].ptr in mem
      ensures x > 0 ==> c[x] !in used
    {}

    /** The first call sets up the list with its anchor alone. */
    method Init()
      requires Valid()
      modifies this
      ensures Valid() && freep != 0 && used == old(used) && owner == old(owner)
      ensures old(freep) != 0 ==> mem == old(mem)
      ensures forall n :: n > 0 ==> (Fits(n) <==> old(Fits(n)))
    {
      if freep == 0 {
        mem := mem[base := Header(base, 0)];
        freep := base;
        c, at, blk, owner := [base], 0, map[], map[];
      }
    }

    /** The anchor is empty and never fits. */
    lemma NotAnchor(k: nat)
      requires Valid() && freep != 0 && k < |c| && c[k] in mem && mem[c[k]].size > 0
      ensures k > 0
    {}

    lemma FitsAt(k: nat, n: nat)
      requires freep != 0 && k < |c| && c[k] in mem && mem[c[k]].size >= n
      ensures Fits(n)
    {}

    lemma UsedInMem()
      requires Valid() && freep != 0
      ensures forall u :: u in used ==> u in mem
    {}

    lemma Distinct(x: nat, y: nat)
      requires Valid() && freep != 0 && x < |c| && y < |c| && x != y
      ensures c[x] != c[y]
    {
      Increasing(base, mem, c);
    }

    /** No block is larger than user memory, so the size computed for a request beyond
        2^31 - 16 bytes is either never found or wrapped around. */
    lemma RoomFor(nbytes: nat, b: nat)
      requires Valid() && freep != 0 && nbytes < UINT_LIMIT && b in used && b in mem && mem[b].size == Units(nbytes)
      ensures (mem[b].size - 1) * HEADER >= nbytes <==> nbytes <= UINT_LIMIT / 2 - 16
    {
      assert b in blk && Owns(owner, b, blk[b]);
      var last := b + (blk[b] - 1);
      assert last in owner && last < TOP;
      UnitsEnough(nbytes);
    }

    /** The blocks that the walk from at has passed before it comes to k are too small. */
    ghost predicate Passed(n: nat, k: nat)
      requires k < |c| && at < |c|
      reads this
    {
      forall x: nat :: x < |c| && Steps(|c|, x, at) > Steps(|c|, k, at) && c[x] in mem ==> mem[c[x]].size < n
    }

    lemma PassedNone(n: nat)
      requires at < |c|
      ensures Passed(n, Succ(|c|, at))
    {}

    lemma PassedNext(n: nat, k: nat)
      requires k < |c| && at < |c| && k != at && Passed(n, k) && c[k] in mem && mem[c[k]].size < n
      ensures Passed(n, Succ(|c|, k))
    {}

    lemma PassedAll(n: nat)
      requires at < |c| && Passed(n, at) && c[at] in mem && mem[c[at]].size < n
      ensures !Fits(n)
    {}

    /** malloc's fit: all of block p, or its last nunits units. */
    method Take(nunits: nat, prevp: nat, p: nat, ghost k: nat) returns (b: nat)
      requires Valid() && freep != 0 && 0 < k < |c| && prevp == c[k - 1] && p == c[k]
      requires 0 < nunits && p in mem && nunits <= mem[p].size
      modifies this
      ensures Valid() && freep == prevp != 0 && owner.Keys == old(owner.Keys)
      ensures b !in old(used) && used == old(used) + {b} && b in mem && mem[b].size == nunits
      ensures forall u :: u in old(used) ==> u in mem && u in old(mem) && mem[u].size == old(mem)[u].size
    {
      hide Heap;
      b := p;
      if mem[p].size == nunits {
        TakeExact(prevp, p, k);
      } else {
        b := TakeLast(nunits, prevp, p, k);
      }
    }

    /** malloc(nbytes): first fit along the list from freep, with at most one request
        for more memory, when no block fits.  A block that is returned has exactly the units
        computed for nbytes and overlaps no other block; it has room for nbytes exactly when
        nbytes is at most 2^31 - 16, and only beyond that can the heap be corrupted. */
    method Malloc(nbytes: nat, reply: Reply) returns (r: Outcome)
      requires Valid() && nbytes < UINT_LIMIT
      requires reply.Granted? ==> base < reply.at && forall x :: x in owner ==> x < reply.at
      requires reply.Granted? ==> reply.at + Provided(Ask(Units(nbytes))) <= TOP
      modifies this
      ensures Valid() && freep != 0
      ensures forall u :: u in old(used) ==> u in mem && mem[u].size == old(mem)[u].size
      ensures !r.Block? ==> used == old(used)
      ensures r.Null? <==> !old(Fits(Units(nbytes))) && reply.Refused?
      ensures r.Corrupt? <==> !old(Fits(Units(nbytes))) && reply.Granted? && Units(nbytes) >= TOP
      ensures r.Corrupt? ==> nbytes > UINT_LIMIT / 2 - 16
      ensures r.Block? ==> r.ap > 0 && r.ap - 1 !in old(used) && used == old(used) + {r.ap - 1}
      ensures r.Block? ==> mem[r.ap - 1].size == Units(nbytes)
      ensures r.Block? ==> ((mem[r.ap - 1].size - 1) * HEADER >= nbytes <==> nbytes <= UINT_LIMIT / 2 - 16)
      ensures owner.Keys == old(owner.Keys) +
                if r.Block? && !old(Fits(Units(nbytes))) then Fresh(reply.at, Ask(Units(nbytes))).Keys else {}
    {
      hide List, Arena, Tie, Elems, Heap, Units, Provided, Fresh, Fits, Passed, Steps;
      var nunits := Units(nbytes);
      UnitsEnough(nbytes);
      Init();
      UsedInMem();
      var prevp := freep;
      InRange(at);
      var p := mem[prevp].ptr;
      ghost var i: nat, k: nat := at, Succ(|c|, at);
      PassedNone(nunits);
      ghost var asked, t: nat := false, 0;
      while true
        invariant Valid() && freep != 0 && used == old(used)
        invariant forall u :: u in used ==> u in mem && u in old(mem) && mem[u].size == old(mem)[u].size
        invariant i < |c| && prevp == c[i] && k == Succ(|c|, i) && p == c[k] && p in mem
        invariant !asked ==> owner == old(owner) && (Fits(nunits) <==> old(Fits(Units(nbytes))))
        invariant !asked ==> Passed(nunits, k)
        invariant asked ==> !old(Fits(Units(nbytes))) && reply.Granted? &&
                            owner.Keys == old(owner.Keys) + Fresh(reply.at, Ask(nunits)).Keys
        invariant asked ==> nunits < TOP && t < |c| && c[t] in mem && mem[c[t]].size >= nunits &&
                            Steps(|c|, t, at) <= Steps(|c|, k, at)
        decreases !asked, Steps(|c|, k, at)
      {
        StepsNext(|c|, k, at);
        if mem[p].size >= nunits {
          FitsAt(k, nunits);
          NotAnchor(k);
          var b := Take(nunits, prevp, p, k);
          RoomFor(nbytes, b);
          return Block(b + 1);
        }
        if p == freep {
          assert k == at by { if k != at { Distinct(k, at); } }
          if !asked {
            PassedAll(nunits);
          }
          r, t := Morecore(nunits, reply);
          if !r.Block? {
            return;
          }
          p := freep;
          asked, i := true, at;
          StepsNext(|c|, at, at);
        } else {
          if !asked {
            PassedNext(nunits, k);
          }
          i := k;
        }
        InRange(i);
        prevp := p;
        p := mem[p].ptr;
        k := Succ(|c|, i);
        InRange(k);
        if asked { InRange(t); }
      }
    }
  }

  /** malloc(0xffffffff) looks for a single unit, so the block it returns has no room at all. */
  method WrappedRequest(base: nat, at: nat) returns (r: Outcome, room: nat)
    requires 0 < base < at && at + NALLOC <= TOP
    ensures r.Block? && room == 0
  {
    var heap := new Allocator(base);
    r := heap.Malloc(UINT_LIMIT - 1, Granted(at));
    room := (heap.mem[r.ap - 1].size - 1) * HEADER;
  }

  lemma {:induction false} PlaceUpTo(base: nat, mem: map<nat, Header>, c: seq<nat>, bp: nat, n: nat) returns (j: nat)
    requires List(base, mem, c) && base < bp && 0 < n <= |c| && forall i :: 0 <= i < |c| ==> c[i] != bp
    ensures j < n && c[j] < bp && (j + 1 < n ==> bp < c[j + 1])
  {
    if c[n - 1] < bp {
      j := n - 1;
    } else {
      j := PlaceUpTo(base, mem, c, bp, n - 1);
    }
  }

  /** Every address above the anchor that is not in the list has a place in it. */
  lemma PlaceOf(base: nat, mem: map<nat, Header>, c: seq<nat>, bp: nat) returns (j: nat)
    requires List(base, mem, c) && base < bp && forall i :: 0 <= i < |c| ==> c[i] != bp
    ensures Place(c, j, bp)
  {
    j := PlaceUpTo(base, mem, c, bp, |c|);
  }
}
