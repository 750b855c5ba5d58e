/** Physical pages, the list of free ones, and the two-level page tables kept in the others. */
module VmSpec {
  import opened Types

  const NENTRIES: nat := 1024
  const NUSER: nat := 512          // directory entries below KERNBASE

  type Page = p: seq<Word> | |p| == 1024 witness seq(1024, _ => 0)

  /** Page numbers from lo to n are handed out by kalloc; those below belong to the kernel. */
  datatype Range = Range(lo: nat, n: nat) {
    ghost predicate Good() { 0 < lo <= n <= 0x10_0000 }
  }

  predicate Present(w: Word) { w % 2 == 1 }

  /** pa | flags | PTE_P. */
  function Pte(p: nat, flags: nat): Word
    requires p < 0x10_0000 && flags < 4096
  {
    p * 4096 + if flags % 2 == 1 then flags else flags + 1
  }

  lemma PteIs(p: nat, flags: nat)
    requires p < 0x10_0000 && flags < 4096
    ensures Present(Pte(p, flags)) && Pte(p, flags) / 4096 == p && Pte(p, flags) % 4096 == if flags % 2 == 1
            then flags else flags + 1
  {}

  // ---------------------------------------------------------------------------
  // The free list, threaded through the first words of free pages

  /** free lists the pages from the oldest to the one at the head; pos is where each is. */
  ghost predicate FreeList(r: Range, mem: seq<Page>, head: Word, free: seq<int>, pos: map<int, int>) {
    && r.Good() && |mem| == r.n
    && (forall k :: 0 <= k < |free| ==> r.lo <= free[k] < r.n && free[k] in pos && pos[free[k]] == k)
    && (forall p :: p in pos ==> 0 <= pos[p] < |free| && free[pos[p]] == p)
    && head == (if free == [] then 0 else free[|free| - 1] * PGSIZE)
    && (free != [] ==> mem[free[0]][0] == 0)
    && (forall j, k :: 0 <= j < k < |free| && k == j + 1 ==> mem[free[k]][0] == free[j] * PGSIZE)
  }

  /** Pages that are not free may be written. */
  lemma WriteKeepsFree(r: Range, mem: seq<Page>, head: Word, free: seq<int>, pos: map<int, int>, p: int, x: Page)
    requires FreeList(r, mem, head, free, pos) && 0 <= p < r.n && p !in pos
    ensures FreeList(r, mem[p := x], head, free, pos)
  {}

  lemma PopKeepsFree(r: Range, mem: seq<Page>, head: Word, free: seq<int>, pos: map<int, int>)
    requires FreeList(r, mem, head, free, pos) && head != 0
    ensures free != [] && var p := free[|free| - 1];
            p == head / PGSIZE && p in pos && FreeList(r, mem, mem[p][0], free[..|free| - 1], pos - {p})
  {}

  lemma PushKeepsFree(r: Range, mem: seq<Page>, head: Word, free: seq<int>, pos: map<int, int>, p: int, x: Page)
    requires FreeList(r, mem, head, free, pos) && r.lo <= p < r.n && p !in pos && x[0] == head
    ensures FreeList(r, mem[p := x], p * PGSIZE, free + [p], pos[p := |free|])
  {}

  // ---------------------------------------------------------------------------
  // Page directories and who owns a page

  /** The directory of an address space, one of its tables, a user page of it, or a page in
      the hands of the kernel. */
  datatype Role = Root | Table(d: int, i: nat) | User(d: int, i: nat, j: nat) | Held

  /** The page of table i of directory d, or -1. */
  function T(mem: seq<Page>, d: int, i: nat): int
    requires i < NENTRIES
  {
    if 0 <= d < |mem| && Present(mem[d][i]) then mem[d][i] / 4096 else -1
  }

  /** Entry j of table i, or 0. */
  function E(mem: seq<Page>, d: int, i: nat, j: nat): Word
    requires i < NENTRIES && j < NENTRIES
  {
    var t := T(mem, d, i);
    if 0 <= t < |mem| then mem[t][j] else 0
  }

  /** The page that entry j of table i maps, or -1. */
  function U(mem: seq<Page>, d: int, i: nat, j: nat): int
    requires i < NENTRIES && j < NENTRIES
  {
    if Present(E(mem, d, i, j)) then E(mem, d, i, j) / 4096 else -1
  }

  /** Directories and tables own what they refer to in the user half, and nothing is owned
      that they do not refer to, except by the kernel. */
  ghost predicate Own(r: Range, mem: seq<Page>, dirs: set<int>, owner: map<int, Role>) {
    && r.Good() && |mem| == r.n
    && (forall d :: d in dirs ==> d in owner && owner[d] == Root)
    && (forall d, i :: d in dirs && 0 <= i < NENTRIES && T(mem, d, i) != -1 ==>
          T(mem, d, i) in owner && owner[T(mem, d, i)] == Table(d, i))
    && (forall d, i, j :: d in dirs && 0 <= i < NUSER && 0 <= j < NENTRIES && U(mem, d, i, j) != -1 ==>
          U(mem, d, i, j) in owner && owner[U(mem, d, i, j)] == User(d, i, j))
    && (forall p :: p in owner ==> r.lo <= p < r.n && Backed(mem, dirs, owner[p], p))
  }

  ghost predicate Backed(mem: seq<Page>, dirs: set<int>, role: Role, p: int) {
    match role
    case Root => p in dirs
    case Table(d, i) => d in dirs && i < NENTRIES && T(mem, d, i) == p
    case User(d, i, j) => d in dirs && i < NUSER && j < NENTRIES && U(mem, d, i, j) == p
    case Held => true
  }

  /** Every page of the pool is free or has one owner. */
  ghost predicate Partition(r: Range, pos: map<int, int>, owner: map<int, Role>) {
    && (forall p :: r.lo <= p < r.n ==> (p in pos <==> p !in owner))
    && (forall p :: p in pos ==> r.lo <= p < r.n) && (forall p :: p in owner ==> r.lo <= p < r.n)
  }

  /** A user page is mapped at one place in one address space, and is no table, no
      directory, and not free. */
  lemma PageOwnedOnce(r: Range, mem: seq<Page>, pos: map<int, int>, dirs: set<int>, owner: map<int, Role>, d: int,
      i: nat, j: nat)
    requires Own(r, mem, dirs, owner) && Partition(r, pos, owner) && d in dirs && i < NUSER && j < NENTRIES &&
             U(mem, d, i, j) != -1
    ensures var p := U(mem, d, i, j);
            && r.lo <= p < r.n && p !in pos && p !in dirs
            && (forall b, k :: b in dirs && 0 <= k < NENTRIES ==> T(mem, b, k) != p)
            && (forall b, k, l :: b in dirs && 0 <= k < NUSER && 0 <= l < NENTRIES && U(mem, b, k, l) == p ==>
                 b == d && k == i && l == j)
  {
    hide T, E, U;
    var p := U(mem, d, i, j);
    assert owner[p] == User(d, i, j);
    forall b, k | b in dirs && 0 <= k < NENTRIES ensures T(mem, b, k) != p {}
  }

  /** A page in the hands of the kernel is part of no address space. */
  lemma HeldIsNoTable(r: Range, mem: seq<Page>, dirs: set<int>, owner: map<int, Role>, p: int, x: Page)
    requires Own(r, mem, dirs, owner) && p in owner && owner[p] == Held
    ensures 0 <= p < |mem| && Own(r, mem[p := x], dirs, owner)
    ensures forall d, i :: d in dirs && 0 <= i < NENTRIES ==> T(mem[p := x], d, i) == T(mem, d, i)
    ensures forall d, i, j :: d in dirs && 0 <= i < NENTRIES && 0 <= j < NENTRIES ==>
            E(mem[p := x], d, i, j) == E(mem, d, i, j)
  {
    hide Present;
    var m := mem[p := x];
    forall d, i | d in dirs && 0 <= i < NENTRIES ensures T(m, d, i) == T(mem, d, i) && T(mem, d, i) != p {}
    forall d, i, j | d in dirs && 0 <= i < NENTRIES && 0 <= j < NENTRIES
      ensures E(m, d, i, j) == E(mem, d, i, j) && U(m, d, i, j) == U(mem, d, i, j)
    {
      assert T(m, d, i) == T(mem, d, i);
    }
    forall q | q in owner ensures Backed(m, dirs, owner[q], q) {
      assert Backed(mem, dirs, owner[q], q);
    }
  }

  /** Storing an entry of a table. */
  function SetEntry(mem: seq<Page>, d: int, i: nat, j: nat, w: Word): seq<Page>
    requires i < NENTRIES && j < NENTRIES && 0 <= T(mem, d, i) < |mem|
  {
    var t := T(mem, d, i);
    var page: Page := mem[t][j := w];
    mem[t := page]
  }

  lemma SetEntryIs(r: Range, mem: seq<Page>, dirs: set<int>, owner: map<int, Role>, d: int, i: nat, j: nat, w: Word)
    requires Own(r, mem, dirs, owner) && d in dirs && i < NENTRIES && j < NENTRIES && T(mem, d, i) != -1
    ensures 0 <= T(mem, d, i) < |mem|
    ensures var m := SetEntry(mem, d, i, j, w);
            && (forall b, k :: b in dirs && 0 <= k < NENTRIES ==> T(m, b, k) == T(mem, b, k))
            && (forall b, k, l :: b in dirs && 0 <= k < NENTRIES && 0 <= l < NENTRIES ==>
                  E(m, b, k, l) == if (b, k, l) == (d, i, j) then w else E(mem, b, k, l))
  {}

  /** Mapping a user page. */
  lemma MapKeepsOwn(r: Range, mem: seq<Page>, dirs: set<int>, owner: map<int, Role>, d: int, i: nat, j: nat, p: int,
      flags: nat)
    requires Own(r, mem, dirs, owner) && d in dirs && i < NUSER && j < NENTRIES && T(mem, d, i) != -1 &&
             U(mem, d, i, j) == -1
    requires p in owner && owner[p] == Held && flags < 4096
    ensures 0 <= T(mem, d, i) < |mem| && 0 <= p < 0x10_0000
    ensures Own(r, SetEntry(mem, d, i, j, Pte(p, flags)), dirs, owner[p := User(d, i, j)])
  {
    hide Present, T, E, Pte;
    SetEntryIs(r, mem, dirs, owner, d, i, j, 0);
    PteIs(p, flags);
    SetEntryIs(r, mem, dirs, owner, d, i, j, Pte(p, flags));
    var m, o := SetEntry(mem, d, i, j, Pte(p, flags)), owner[p := User(d, i, j)];
    forall b, k, l | b in dirs && 0 <= k < NUSER && 0 <= l < NENTRIES && U(m, b, k, l) != -1
      ensures U(m, b, k, l) in o && o[U(m, b, k, l)] == User(b, k, l)
    {
      assert (b, k, l) != (d, i, j) ==> U(m, b, k, l) == U(mem, b, k, l);
    }
    forall q | q in o ensures r.lo <= q < r.n && Backed(m, dirs, o[q], q) {
      assert q != p ==> Backed(mem, dirs, owner[q], q);
    }
    assert Own(r, m, dirs, o);
  }

  /** Mapping in the kernel half, where nothing is owned. */
  lemma KernelMapKeepsOwn(r: Range, mem: seq<Page>, dirs: set<int>, owner: map<int, Role>, d: int, i: nat, j: nat,
      w: Word)
    requires Own(r, mem, dirs, owner) && d in dirs && NUSER <= i < NENTRIES && j < NENTRIES && T(mem, d, i) != -1
    ensures 0 <= T(mem, d, i) < |mem| && Own(r, SetEntry(mem, d, i, j, w), dirs, owner)
  {
    hide Present, T, E;
    SetEntryIs(r, mem, dirs, owner, d, i, j, w);
    var m := SetEntry(mem, d, i, j, w);
    forall b, k, l | b in dirs && 0 <= k < NUSER && 0 <= l < NENTRIES ensures U(m, b, k, l) == U(mem, b, k, l) {}
    forall q | q in owner ensures Backed(m, dirs, owner[q], q) {
      assert Backed(mem, dirs, owner[q], q);
    }
    assert Own(r, m, dirs, owner);
  }

  /** Unmapping a user page, which is then in the hands of the kernel. */
  lemma UnmapKeepsOwn(r: Range, mem: seq<Page>, dirs: set<int>, owner: map<int, Role>, d: int, i: nat, j: nat)
    requires Own(r, mem, dirs, owner) && d in dirs && i < NUSER && j < NENTRIES && U(mem, d, i, j) != -1
    ensures 0 <= T(mem, d, i) < |mem| && U(mem, d, i, j) in owner
    ensures Own(r, SetEntry(mem, d, i, j, 0), dirs, owner[U(mem, d, i, j) := Held])
  {
    hide Present, T;
    assert Present(E(mem, d, i, j)) && !Present(0) && T(mem, d, i) != -1 by { NotPresent(); }
    SetEntryIs(r, mem, dirs, owner, d, i, j, 0);
    var m, p := SetEntry(mem, d, i, j, 0), U(mem, d, i, j);
    var o := owner[p := Held];
    forall b, k, l | b in dirs && 0 <= k < NUSER && 0 <= l < NENTRIES && U(m, b, k, l) != -1
      ensures U(m, b, k, l) in o && o[U(m, b, k, l)] == User(b, k, l)
    {
      assert (b, k, l) != (d, i, j) ==> U(m, b, k, l) == U(mem, b, k, l);
    }
    forall q | q in o ensures r.lo <= q < r.n && Backed(m, dirs, o[q], q) {
      assert q != p ==> Backed(mem, dirs, owner[q], q);
    }
    assert Own(r, m, dirs, o);
  }

  lemma NotPresent()
    ensures !Present(0)
  {}

  /** Adding an empty table. */
  lemma AddTableKeepsOwn(r: Range, mem: seq<Page>, dirs: set<int>, owner: map<int, Role>, d: int, i: nat, t: int)
    requires Own(r, mem, dirs, owner) && d in dirs && i < NENTRIES && T(mem, d, i) == -1 && t in owner &&
             owner[t] == Held
    requires forall j :: 0 <= j < NENTRIES ==> mem[t][j] == 0
    ensures 0 <= d < |mem| && 0 <= t < 0x10_0000
    ensures var m := mem[d := mem[d][i := Pte(t, 7)]];
            && Own(r, m, dirs, owner[t := Table(d, i)])
            && (forall b, k :: b in dirs && 0 <= k < NENTRIES ==> T(m, b, k) == if (b, k) == (d, i) then t
                 else T(mem, b, k))
            && (forall b, k, l :: b in dirs && 0 <= k < NENTRIES && 0 <= l < NENTRIES ==>
                 E(m, b, k, l) == E(mem, b, k, l))
  {
    hide Pte;
    PteIs(t, 7);
    NotPresent();
    var m, o := mem[d := mem[d][i := Pte(t, 7)]], owner[t := Table(d, i)];
    forall b, k | b in dirs && 0 <= k < NENTRIES ensures T(m, b, k) == if (b, k) == (d, i) then t else T(mem, b, k) {}
    forall b, k, l | b in dirs && 0 <= k < NENTRIES && 0 <= l < NENTRIES ensures E(m, b, k, l) == E(mem, b, k, l) {
      assert T(mem, b, k) != d;
    }
    forall b, k, l | b in dirs && 0 <= k < NUSER && 0 <= l < NENTRIES ensures U(m, b, k, l) == U(mem, b, k, l) {}
    forall q | q in o ensures r.lo <= q < r.n && Backed(m, dirs, o[q], q) {
      assert q != t ==> Backed(mem, dirs, owner[q], q);
    }
    assert Own(r, m, dirs, o);
  }
}
