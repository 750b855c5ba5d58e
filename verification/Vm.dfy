/** The page allocator and the page-table code of the kernel. */
module Vm {
  import opened Options
  import opened Types
  import opened VmSpec

  /** The memory, the address spaces in it, and the owner of each page that is not free. */
  datatype View = View(mem: seq<Page>, dirs: set<int>, owner: map<int, Role>)

  /** p belongs to the address space d. */
  ghost predicate Of(owner: map<int, Role>, p: int, d: int) {
    p in owner && match owner[p]
      case Root => p == d
      case Table(b, _) => b == d
      case User(b, _, _) => b == d
      case Held => false
  }

  /** How mappages ends for one page: NoPage when there is none for the table, Remap is the
      panic at a page that is mapped already. */
  datatype MapResult = Done | NoPage | Remap

  /** How a turn of copyuvm ends; Absent is its panic. */
  datatype CopyResult = Made | NoMemory | Absent

  /** Page p is in the hands of the kernel, and cleared. */
  ghost function Holding(a: View, p: int): View
    requires 0 <= p < |a.mem|
  {
    View(a.mem[p := ZeroPage()], a.dirs, a.owner[p := Held])
  }

  /** Memory that is the same to address space d. */
  ghost predicate SameSpace(a: seq<Page>, b: seq<Page>, d: int) {
    && (forall k :: 0 <= k < NENTRIES ==> T(b, d, k) == T(a, d, k))
    && (forall k, l :: 0 <= k < NENTRIES && 0 <= l < NENTRIES ==> E(b, d, k, l) == E(a, d, k, l))
  }

  /** A table was added to d, or nothing. */
  ghost predicate Added(a: View, b: View, d: int) {
    && |a.mem| == |b.mem| && a.dirs == b.dirs
    && (forall p :: p in a.owner ==>
         p in b.owner && b.owner[p] == a.owner[p] && (p != d && 0 <= p < |a.mem| ==> b.mem[p] == a.mem[p]))
    && (forall p :: p in b.owner && p !in a.owner ==> b.owner[p].Table? && b.owner[p].d == d)
    && (forall i, j :: 0 <= i < NENTRIES && 0 <= j < NENTRIES ==> E(b.mem, d, i, j) == E(a.mem, d, i, j))
    && (forall i :: 0 <= i < NENTRIES && T(a.mem, d, i) != -1 ==> T(b.mem, d, i) == T(a.mem, d, i))
  }

  function ZeroPage(): (p: Page)
    ensures forall j :: 0 <= j < NENTRIES ==> p[j] == 0
  {
    seq(1024, _ => 0)
  }

  /** kfree's junk, with the link to the rest of the list. */
  function Junk(next: Word): (p: Page)
    ensures p[0] == next
  {
    var q: Page := seq(1024, _ => 0x01010101);
    q[0 := next]
  }

  // ---------------------------------------------------------------------------
  // What an operation takes from the free list

  /** The tables of d that are missing among entries i to k. */
  ghost function Missing(mem: seq<Page>, d: int, i: nat, k: nat): nat
    requires k <= NENTRIES
  {
    if k <= i then 0 else Missing(mem, d, i, k - 1) + if T(mem, d, k - 1) == -1 then 1 else 0
  }

  /** The pages that it takes to map user pages lo to v, with their tables. */
  ghost function Need(mem: seq<Page>, d: int, lo: nat, v: nat): nat
    requires v <= NENTRIES * NENTRIES
  {
    if v <= lo then 0 else v - lo + Missing(mem, d, lo / NENTRIES, (v - 1) / NENTRIES + 1)
  }

  /** The first user page of d from v on that is mapped, or that is not if there is set; hi if
      there is none below hi. */
  ghost function FirstOther(mem: seq<Page>, d: int, v: nat, hi: nat, there: bool): (w: nat)
    requires v <= hi <= NENTRIES * NENTRIES
    ensures v <= w <= hi && (w < hi ==> Present(E(mem, d, w / NENTRIES, w % NENTRIES)) != there)
    ensures forall u :: v <= u < w ==> Present(E(mem, d, u / NENTRIES, u % NENTRIES)) == there
    decreases hi - v
  {
    if v < hi && Present(E(mem, d, v / NENTRIES, v % NENTRIES)) == there then FirstOther(mem, d, v + 1, hi, there)
    else v
  }

  /** The tables of d are those of before and all of the entries i to k. */
  ghost predicate Tabled(a: seq<Page>, b: seq<Page>, d: int, i: nat, k: nat) {
    forall x :: 0 <= x < NENTRIES ==> (T(b, d, x) != -1 <==> T(a, d, x) != -1 || i <= x < k)
  }

  lemma NeedNothing(mem: seq<Page>, d: int, lo: nat)
    ensures lo <= NENTRIES * NENTRIES ==> Need(mem, d, lo, lo) == 0
  {}

  lemma NeedNext(a: seq<Page>, b: seq<Page>, d: int, lo: nat, v: nat)
    requires lo <= v < NENTRIES * NENTRIES &&
             if lo == v then forall x :: 0 <= x < NENTRIES ==> T(b, d, x) == T(a, d, x)
             else Tabled(a, b, d, lo / NENTRIES, (v - 1) / NENTRIES + 1)
    ensures Need(a, d, lo, v + 1) == Need(a, d, lo, v) + 1 + if T(b, d, v / NENTRIES) == -1 then 1 else 0
  {
    hide T;
    var i, k := lo / NENTRIES, v / NENTRIES;
    if lo == v {
      assert Missing(a, d, i, k) == 0;
    } else {
      assert (v - 1) / NENTRIES == k || (v - 1) / NENTRIES == k - 1;
    }
  }

  lemma TabledNext(a: seq<Page>, b: seq<Page>, c: seq<Page>, d: int, lo: nat, v: nat)
    requires lo <= v < NENTRIES * NENTRIES &&
             if lo == v then forall x :: 0 <= x < NENTRIES ==> T(b, d, x) == T(a, d, x)
             else Tabled(a, b, d, lo / NENTRIES, (v - 1) / NENTRIES + 1)
    requires Tabled(b, c, d, v / NENTRIES, v / NENTRIES + 1)
    ensures Tabled(a, c, d, lo / NENTRIES, v / NENTRIES + 1)
  {
    hide T;
  }

  lemma TabledOne(b: seq<Page>, c: seq<Page>, d: int, i: nat)
    requires i < NENTRIES && T(c, d, i) != -1 && forall x :: 0 <= x < NENTRIES && x != i ==> T(c, d, x) == T(b, d, x)
    ensures Tabled(b, c, d, i, i + 1)
  {
    hide T;
  }

  /** None is missing up to m, and all are from there on. */
  lemma {:induction false} MissingFrom(mem: seq<Page>, d: int, i: nat, m: nat, k: nat)
    requires i <= m <= k <= NENTRIES && (forall x :: i <= x < m ==> T(mem, d, x) != -1) &&
             forall x :: m <= x < k ==> T(mem, d, x) == -1
    ensures Missing(mem, d, i, k) == k - m
    decreases k
  {
    hide T;
    if m < k {
      MissingFrom(mem, d, i, m, k - 1);
    } else if i < k {
      MissingFrom(mem, d, i, m - 1, k - 1);
    }
  }

  lemma {:induction false} NeedGrows(a: seq<Page>, d: int, lo: nat, v: nat, hi: nat)
    requires lo <= v <= hi <= NENTRIES * NENTRIES
    ensures Need(a, d, lo, v) <= Need(a, d, lo, hi)
  {
    hide T;
    if lo < v < hi {
      MissingGrows(a, d, lo / NENTRIES, (v - 1) / NENTRIES + 1, (hi - 1) / NENTRIES + 1);
    }
  }

  lemma {:induction false} MissingGrows(a: seq<Page>, d: int, i: nat, k: nat, m: nat)
    requires k <= m <= NENTRIES
    ensures Missing(a, d, i, k) <= Missing(a, d, i, m)
    decreases m
  {
    if k < m {
      MissingGrows(a, d, i, k, m - 1);
    }
  }

  class Vm {
    const r: Range
    var mem: seq<Page>
    var head: Word
    ghost var free: seq<int>
    ghost var pos: map<int, int>
    ghost var dirs: set<int>
    ghost var owner: map<int, Role>

    ghost predicate Valid()
      reads this
    {
      FreeList(r, mem, head, free, pos) && Own(r, mem, dirs, owner) && Partition(r, pos, owner)
    }

    ghost function V(): View
      reads this
    {
      View(mem, dirs, owner)
    }

    /** kinit: the pages of the pool are all free. */
    constructor (r: Range)
      requires r.Good()
      ensures Valid() && this.r == r && dirs == {} && owner == map[] && forall p :: p in pos <==> r.lo <= p < r.n
    {
      this.r := r;
      mem := seq(r.n, _ => ZeroPage());
      head, free, pos, dirs, owner := 0, [], map[], {}, map[];
      new;
      FreeRange(r.lo, r.n);
    }

    /** freerange, over page numbers. */
    method FreeRange(from: nat, to: nat)
      requires FreeList(r, mem, head, free, pos) && r.lo <= from <= to <= r.n &&
               forall p :: from <= p < to ==> p !in pos
      modifies `mem, `head, `free, `pos
      ensures FreeList(r, mem, head, free, pos) && forall p :: p in pos <==> p in old(pos) || from <= p < to
    {
      hide FreeList;
      var p := from;
      while p + 1 <= to
        invariant from <= p <= to && FreeList(r, mem, head, free, pos) &&
                  forall q :: q in pos <==> q in old(pos) || from <= q < p
      {
        ghost var was := pos;
        Kfree(p);
        assert forall q :: q in pos.Keys <==> q in was.Keys || q == p;
        p := p + 1;
      }
    }

    /** kalloc: a free page, or 0 when there is none. */
    method Kalloc() returns (p: int)
      requires Valid()
      modifies `head, `free, `pos, `owner
      ensures Valid()
      ensures p == 0 <==> old(free) == []
      ensures |free| == |old(free)| - if p == 0 then 0 else 1
      ensures p == 0 ==> owner == old(owner)
      ensures p != 0 ==> p !in old(owner) && r.lo <= p < r.n && owner == old(owner)[p := Held]
    {
      hide Own;
      p := head / PGSIZE;
      if head != 0 {
        PopKeepsFree(r, mem, head, free, pos);
        HoldKeepsOwn(r, mem, dirs, owner, p);
        head := mem[p][0];
        free := free[..|free| - 1];
        pos := pos - {p};
        owner := owner[p := Held];
      }
    }

    /** kfree of a page that is not free; what the page was used for is the caller's concern. */
    method Kfree(p: int)
      requires FreeList(r, mem, head, free, pos) && r.lo <= p < r.n && p !in pos
      modifies `mem, `head, `free, `pos
      ensures FreeList(r, mem, head, free, pos) && mem == old(mem)[p := Junk(old(head))]
      ensures pos.Keys == old(pos).Keys + {p}
    {
      PushKeepsFree(r, mem, head, free, pos, p, Junk(head));
      mem := mem[p := Junk(head)];
      free, pos := free + [p], pos[p := |free|];
      head := p * PGSIZE;
    }

    /** walkpgdir: the table for entry i of d, added if wanted; 0 if there is none. */
    method Walk(d: int, i: nat, alloc: bool) returns (t: int)
      requires Valid() && d in dirs && i < NENTRIES
      modifies this
      ensures Valid() && Added(old(V()), V(), d)
      ensures t == 0 <==> T(old(mem), d, i) == -1 && (!alloc || old(free) == [])
      ensures |free| == |old(free)| - if T(old(mem), d, i) == -1 && t != 0 then 1 else 0
      ensures t != 0 ==> t == T(mem, d, i) && r.lo <= t < r.n
      ensures t == 0 ==> V() == old(V())
      ensures forall k :: 0 <= k < NENTRIES && k != i ==> T(mem, d, k) == T(old(mem), d, k)
      ensures !alloc ==> V() == old(V())
      ensures T(old(mem), d, i) != -1 ==> V() == old(V()) && t != 0
    {
      hide Own, FreeList;
      DirIs(r, mem, dirs, owner, d, i);
      Bounds(r, mem, head, free, pos, owner, d);
      if Present(mem[d][i]) {
        t := mem[d][i] / 4096;
        return;
      }
      if !alloc {
        return 0;
      }
      t := Kalloc();
      if t == 0 {
        return;
      }
      Clear(t);
      ghost var m := mem;
      AddTableKeepsOwn(r, mem, dirs, owner, d, i, t);
      var page: Page := mem[d][i := Pte(t, 7)];
      WriteKeepsFree(r, mem, head, free, pos, d, page);
      mem := mem[d := page];
      owner := owner[t := Table(d, i)];
    }

    /** memset of a page in the hands of the kernel. */
    method Clear(p: int)
      requires Valid() && p in owner && owner[p] == Held
      modifies `mem
      ensures Valid() && 0 <= p < |old(mem)| && mem == old(mem)[p := ZeroPage()]
      ensures forall d, i :: d in dirs && 0 <= i < NENTRIES ==> T(mem, d, i) == T(old(mem), d, i)
      ensures forall d, i, j :: d in dirs && 0 <= i < NENTRIES && 0 <= j < NENTRIES ==>
              E(mem, d, i, j) == E(old(mem), d, i, j)
    {
      hide FreeList, T, E;
      HeldIsNoTable(r, mem, dirs, owner, p, ZeroPage());
      WriteKeepsFree(r, mem, head, free, pos, p, ZeroPage());
      mem := mem[p := ZeroPage()];
    }

    /** mappages of one user page. False when there is no room for a table. */
    method MapUser(d: int, v: nat, p: int, flags: nat) returns (m: MapResult)
      requires Valid() && d in dirs && v < NUSER * NENTRIES && flags < 4096 && p in owner && owner[p] == Held
      modifies this
      ensures Valid()
      ensures m.Remap? <==> Present(E(old(mem), d, v / NENTRIES, v % NENTRIES))
      ensures m.NoPage? <==> T(old(mem), d, v / NENTRIES) == -1 && old(free) == []
      ensures |free| == |old(free)| - if m.Done? && T(old(mem), d, v / NENTRIES) == -1 then 1 else 0
      ensures m.Done? ==> Mapped(old(V()), V(), d, v, p, flags)
      ensures m.Done? ==> Tabled(old(mem), mem, d, v / NENTRIES, v / NENTRIES + 1)
      ensures !m.Done? ==> V() == old(V())
    {
      hide Own, FreeList, E, T, Pte;
      var i, j := v / NENTRIES, v % NENTRIES;
      ghost var a := V();
      var t := Walk(d, i, true);
      NoEntry(a.mem, d, i, j);
      if t == 0 {
        return NoPage;
      }
      ghost var b := V();
      AddedEntry(a, b, d, i, j);
      EntryIs(r, mem, dirs, owner, d, i, j);
      if Present(mem[t][j]) {
        return Remap;
      }
      Store(d, i, j, t, p, flags);
      MappedIs(a, b, V(), d, v, t, p, flags);
      return Done;
    }

    /** *pte = pa | perm | PTE_P in the user half. */
    method Store(d: int, i: nat, j: nat, t: int, p: int, flags: nat)
      requires Valid() && d in dirs && i < NUSER && j < NENTRIES && flags < 4096 && p in owner && owner[p] == Held
      requires t == T(mem, d, i) != -1 && !Present(E(mem, d, i, j))
      modifies `mem, `owner
      ensures Valid() && owner == old(owner)[p := User(d, i, j)] && |mem| == |old(mem)| && 0 <= p < 0x10_0000
      ensures forall k :: 0 <= k < NENTRIES ==> T(mem, d, k) == T(old(mem), d, k)
      ensures t in owner && owner[t] == Table(d, i) && forall q :: 0 <= q < |mem| && q != t ==> mem[q] == old(mem)[q]
      ensures forall k, l :: 0 <= k < NENTRIES && 0 <= l < NENTRIES ==>
                E(mem, d, k, l) == if k == i && l == j then Pte(p, flags) else E(old(mem), d, k, l)
    {
      hide Own, FreeList, E, T, Pte;
      EntryIs(r, mem, dirs, owner, d, i, j);
      Bounds(r, mem, head, free, pos, owner, p);
      Bounds(r, mem, head, free, pos, owner, t);
      MapKeepsOwn(r, mem, dirs, owner, d, i, j, p, flags);
      SetEntryIs(r, mem, dirs, owner, d, i, j, Pte(p, flags));
      var page: Page := mem[t][j := Pte(p, flags)];
      WriteKeepsFree(r, mem, head, free, pos, t, page);
      mem := mem[t := page];
      owner := owner[p := User(d, i, j)];
    }

    /** The body of deallocuvm's loop for a page that is there. */
    method Unmap(d: int, i: nat, j: nat, t: int)
      requires Valid() && d in dirs && i < NUSER && j < NENTRIES && t == T(mem, d, i) != -1 && Present(E(mem, d, i, j))
      modifies this
      ensures Valid() && dirs == old(dirs) && |mem| == |old(mem)| && U(old(mem), d, i, j) in old(owner)
      ensures owner == old(owner) - {U(old(mem), d, i, j)} && old(owner)[U(old(mem), d, i, j)] == User(d, i, j)
      ensures forall q :: q in owner && q != t ==> 0 <= q < |mem| && mem[q] == old(mem)[q]
      ensures forall k :: 0 <= k < NENTRIES ==> T(mem, d, k) == T(old(mem), d, k)
      ensures forall k, l :: 0 <= k < NENTRIES && 0 <= l < NENTRIES ==>
                E(mem, d, k, l) == if k == i && l == j then 0 else E(old(mem), d, k, l)
    {
      hide Own, FreeList, E, T;
      EntryIs(r, mem, dirs, owner, d, i, j);
      var p := mem[t][j] / 4096;
      assert p == U(mem, d, i, j);
      UnmapKeepsOwn(r, mem, dirs, owner, d, i, j);
      UserIs(r, mem, dirs, owner, d, i, j);
      SetEntryIs(r, mem, dirs, owner, d, i, j, 0);
      ghost var m := SetEntry(mem, d, i, j, 0);
      ghost var o := owner[p := Held];
      Bounds(r, mem, head, free, pos, owner, p);
      Bounds(r, mem, head, free, pos, owner, t);
      HeldIsNoTable(r, m, dirs, o, p, Junk(head));
      Kfree(p);
      var page: Page := mem[t][j := 0];
      WriteKeepsFree(r, mem, head, free, pos, t, page);
      mem := mem[t := page];
      assert mem == m[p := Junk(old(head))];
      DropKeepsOwn(r, mem, dirs, o, p);
      assert o - {p} == owner - {p};
      owner := owner - {p};
      OwnedInRange(r, pos, owner);
    }

    /** deallocuvm. It steps over a table that is not there as a whole; what it frees is what a
        loop over all pages from PGROUNDUP(newsz) to oldsz would. */
    method Dealloc(d: int, oldsz: nat, newsz: nat) returns (size: nat)
      requires Valid() && d in dirs && oldsz <= KERNBASE
      modifies this
      ensures Valid() && size == (if newsz >= oldsz then oldsz else newsz)
      ensures newsz < oldsz ==> CutTo(old(V()), V(), d, Pages(newsz), Pages(oldsz))
      ensures newsz >= oldsz ==> V() == old(V())
    {
      hide Own, FreeList, E, T, CutTo;
      if newsz >= oldsz {
        return oldsz;
      }
      ghost var a, lo, hi := V(), Pages(newsz), Pages(oldsz);
      CutNothing(a, d, lo);
      var v := Pages(newsz);
      while v * PGSIZE < oldsz
        invariant Valid() && d in dirs && lo <= v && CutTo(a, V(), d, lo, if v < hi then v else hi)
        decreases oldsz - v * PGSIZE
      {
        ghost var b := V();
        var t := Walk(d, v / NENTRIES, false);
        CutKeeps(a, b, d, lo, v);
        if t == 0 {
          ghost var next := (v / NENTRIES + 1) * NENTRIES;
          NoTable(a, d, v, if next < hi then next else hi);
          CutMore(r, a, b, d, lo, v, if next < hi then next else hi);
          v := (v / NENTRIES + 1) * NENTRIES - 1;
        } else {
          EntryIs(r, mem, dirs, owner, d, v / NENTRIES, v % NENTRIES);
          if Present(mem[t][v % NENTRIES]) {
            Unmap(d, v / NENTRIES, v % NENTRIES, t);
            assert v < NUSER * NENTRIES && t in a.owner;
            CutOne(r, a, b, V(), d, lo, v, t);
          } else {
            CutMore(r, a, b, d, lo, v, v + 1);
          }
        }
        v := v + 1;
      }
      return newsz;
    }

    /** kfree of a page in the hands of the kernel. */
    method Release(p: int)
      requires Valid() && p in owner && owner[p] == Held
      modifies `mem, `head, `free, `pos, `owner
      ensures Valid() && owner == old(owner) - {p} && 0 <= p < |old(mem)| && mem == old(mem)[p := Junk(old(head))]
      ensures forall d, i :: d in dirs && 0 <= i < NENTRIES ==> T(mem, d, i) == T(old(mem), d, i)
      ensures forall d, i, j :: d in dirs && 0 <= i < NENTRIES && 0 <= j < NENTRIES ==>
              E(mem, d, i, j) == E(old(mem), d, i, j)
    {
      hide Own, FreeList, T, E;
      Bounds(r, mem, head, free, pos, owner, p);
      HeldIsNoTable(r, mem, dirs, owner, p, Junk(head));
      Kfree(p);
      DropKeepsOwn(r, mem, dirs, owner, p);
      owner := owner - {p};
    }

    /** freevm: the user pages, the tables and the directory go back to the free list, each
        of them once. */
    method FreeVm(d: int)
      requires Valid() && d in dirs
      modifies this
      ensures Valid() && Freed(old(V()), V(), d)
    {
      hide Own, FreeList, E, T, CutTo, Freed;
      ghost var a := V();
      var _ := Dealloc(d, KERNBASE, 0);
      ghost var b := V();
      CutAll(r, a, b, d);
      FreeTables(d, b);
      FreedAfterCut(r, a, b, V(), d);
    }

    /** The second half of freevm. */
    method FreeTables(d: int, ghost b: View)
      requires Valid() && d in dirs && b == V() && forall q :: q in owner ==> !(owner[q].User? && owner[q].d == d)
      modifies this
      ensures Valid() && Freed(b, V(), d)
    {
      hide Own, FreeList, T, Drained;
      DisownKeepsOwn(r, mem, dirs, owner, d);
      DrainStart(r, b, d);
      dirs, owner := dirs - {d}, Disowned(owner, d);
      var i := 0;
      while i < NENTRIES
        invariant 0 <= i <= NENTRIES && Valid() && Drained(b, V(), d, i)
      {
        DrainFacts(r, b, V(), d, i);
        ghost var c := V();
        if Present(mem[d][i]) {
          Release(mem[d][i] / 4096);
        }
        DrainStep(r, b, c, V(), d, i);
        i := i + 1;
      }
      DrainFacts(r, b, V(), d, i);
      ghost var c := V();
      Release(d);
      DrainEnd(r, b, c, V(), d);
    }

    /** One turn of allocuvm's loop, up to its failure paths: a page, cleared and mapped. */
    method AllocPage(d: int, v: nat) returns (p: int, m: MapResult)
      requires Valid() && d in dirs && v < NUSER * NENTRIES
      modifies this
      ensures Valid() && (p == 0 <==> old(free) == [])
      ensures p != 0 ==> (m.Remap? <==> Present(E(old(mem), d, v / NENTRIES, v % NENTRIES)))
      ensures p != 0 ==> (m.NoPage? <==> T(old(mem), d, v / NENTRIES) == -1 && |old(free)| == 1)
      ensures p == 0 ==> V() == old(V())
      ensures p != 0 ==> p !in old(owner) && 0 <= p < |old(mem)| && SameSpace(old(mem), old(mem)[p := ZeroPage()], d)
      ensures p != 0 && !m.Done? ==> V() == Holding(old(V()), p)
      ensures p != 0 && m.Done? ==> Mapped(Holding(old(V()), p), V(), d, v, p, 6)
      ensures p != 0 && m.Done? ==> Tabled(old(mem), mem, d, v / NENTRIES, v / NENTRIES + 1)
      ensures p != 0 && m.Done? ==> |free| == |old(free)| - 1 - if T(old(mem), d, v / NENTRIES) == -1 then 1 else 0
    {
      hide Own, FreeList, E, T, Pte, Mapped;
      p := Kalloc();
      m := NoPage;
      if p != 0 {
        Clear(p);
        m := MapUser(d, v, p, 6);
      }
    }

    /** The second failure of allocuvm, with page p in hand. */
    method GiveUp(d: int, oldsz: nat, newsz: nat, p: int, ghost b: View)
      requires Valid() && d in dirs && oldsz < newsz <= KERNBASE && p !in b.owner && 0 <= p < |b.mem| && p != 0
      requires V() == Holding(b, p) && SameSpace(b.mem, mem, d)
      modifies this
      ensures Valid() && CutTo(b, V(), d, Pages(oldsz), Pages(newsz))
    {
      hide Own, FreeList, E, T, CutTo;
      ghost var lo, hi, b1 := Pages(oldsz), Pages(newsz), V();
      var _ := Dealloc(d, newsz, oldsz);
      ghost var c := V();
      CutDirs(b1, c, d, lo, hi, p);
      Release(p);
      CutHeld(b, b1, c, V(), d, lo, hi, p);
    }

    /** allocuvm: zeroed pages from PGROUNDUP(oldsz) to newsz, or none at all if these and their
        tables are more than the free pages. It panics at a page that is there already, if the
        free pages last that far. */
    method Alloc(d: int, oldsz: nat, newsz: nat) returns (size: Option<nat>)
      requires Valid() && d in dirs && oldsz <= KERNBASE
      modifies this
      ensures Valid()
      ensures newsz >= KERNBASE ==> size == Some(0) && V() == old(V())
      ensures newsz < oldsz && newsz < KERNBASE ==> size == Some(oldsz) && V() == old(V())
      ensures oldsz <= newsz < KERNBASE ==>
                var lo, hi := Pages(oldsz), Pages(newsz);
                var v := FirstOther(old(mem), d, lo, hi, false);
                var need := Need(old(mem), d, lo, v) + if v < hi then 1 else 0;
                && (size.None? <==> v < hi && |old(free)| >= need)
                && (|old(free)| < need ==> size == Some(0) && Emptied(old(V()), V(), d, lo, hi))
                && (|old(free)| < need && v == hi ==> Restored(old(V()), V(), d, lo, hi))
                && (|old(free)| >= need && v == hi ==> size == Some(newsz) && Grew(old(V()), V(), d, lo, hi))
    {
      hide Own, FreeList, E, T, Pte, CutTo, Grew, Restored, Emptied, Mapped, Need, Missing, Tabled;
      if newsz >= KERNBASE {
        return Some(0);
      }
      if newsz < oldsz {
        return Some(oldsz);
      }
      ghost var a, lo, hi := V(), Pages(oldsz), Pages(newsz);
      ghost var g := FirstOther(mem, d, lo, hi, false);
      GrewNothing(a, d, lo);
      NeedNothing(a.mem, d, lo);
      var v := Pages(oldsz);
      while v * PGSIZE < newsz
        invariant Valid() && d in dirs && lo <= v <= g && Grew(a, V(), d, lo, v) && v * PGSIZE < newsz + PGSIZE
        invariant lo == v ==> V() == a
        invariant lo < v ==> Tabled(a.mem, mem, d, lo / NENTRIES, (v - 1) / NENTRIES + 1)
        invariant |free| == |old(free)| - Need(a.mem, d, lo, v)
        decreases newsz - v * PGSIZE
      {
        ghost var b := V();
        NotThere(a, b, d, lo, v);
        NeedNext(a.mem, mem, d, lo, v);
        if v < g {
          NeedGrows(a.mem, d, lo, v + 1, g);
        }
        DirIs(r, mem, dirs, owner, d, 0);
        var p, m := AllocPage(d, v);
        if p == 0 {
          var _ := Dealloc(d, newsz, oldsz);
          Undone(r, a, b, V(), d, lo, v, hi);
          return Some(0);
        }
        match m {
          case Remap =>
            return None;
          case NoPage =>
            GiveUp(d, oldsz, newsz, p, b);
            Undone(r, a, b, V(), d, lo, v, hi);
            return Some(0);
          case Done =>
        }
        GrewStep(a, b, Holding(b, p), V(), d, lo, v, p);
        TabledNext(a.mem, b.mem, mem, d, lo, v);
        v := v + 1;
      }
      return Some(newsz);
    }

    /** mappages in the kernel half: pages first to last onto physical pages from ppn on.
        False exactly when the tables that are missing are more than the free pages. */
    method MapKernel(d: int, first: nat, last: nat, ppn: nat, perm: nat) returns (ok: bool)
      requires Valid() && d in dirs && NUSER * NENTRIES <= first <= last < NENTRIES * NENTRIES &&
               ppn + (last - first) < 0x10_0000 && perm < 4096
      requires forall w :: first <= w <= last ==> !Present(E(mem, d, w / NENTRIES, w % NENTRIES))
      modifies this
      ensures Valid() && Kernel(old(V()), V(), d)
      ensures ok <==> |old(free)| >= Missing(old(mem), d, first / NENTRIES, last / NENTRIES + 1)
      ensures ok ==> |free| == |old(free)| - Missing(old(mem), d, first / NENTRIES, last / NENTRIES + 1)
      ensures ok ==> KernelMap(old(V()), V(), d, first, last + 1, ppn, perm)
      ensures ok ==> Tabled(old(mem), mem, d, first / NENTRIES, last / NENTRIES + 1)
    {
      hide Own, FreeList, E, T, Pte, Added, Kernel, KernelMap, Missing, Tabled;
      ghost var a := V();
      KernelNothing(a, d, first, ppn, perm);
      var v, pa := first, ppn;
      while true
        invariant first <= v <= last && pa == ppn + (v - first) && Valid() && d in dirs
        invariant Kernel(a, V(), d) && KernelMap(a, V(), d, first, v, ppn, perm)
        invariant first == v ==> V() == a
        invariant first < v ==> Tabled(a.mem, mem, d, first / NENTRIES, (v - 1) / NENTRIES + 1)
        invariant |free| == |old(free)| - (Need(a.mem, d, first, v) - (v - first))
        decreases last - v
      {
        ghost var b := V();
        KernelAbsent(a, b, d, first, v, ppn, perm);
        NeedNext(a.mem, mem, d, first, v);
        MissingGrows(a.mem, d, first / NENTRIES, v / NENTRIES + 1, last / NENTRIES + 1);
        var t := Walk(d, v / NENTRIES, true);
        ghost var b1 := V();
        AddedEntry(b, b1, d, v / NENTRIES, v % NENTRIES);
        if t == 0 {
          return false;
        }
        StoreKernel(d, v / NENTRIES, v % NENTRIES, t, Pte(pa, perm));
        KernelStep(a, b, b1, V(), d, first, v, t, ppn, perm);
        TabledOne(b.mem, mem, d, v / NENTRIES);
        TabledNext(a.mem, b.mem, mem, d, first, v);
        if v == last {
          break;
        }
        v, pa := v + 1, pa + 1;
      }
      return true;
    }

    /** *pte = pa | perm | PTE_P in the kernel half. */
    method StoreKernel(d: int, i: nat, j: nat, t: int, w: Word)
      requires Valid() && d in dirs && NUSER <= i < NENTRIES && j < NENTRIES && t == T(mem, d, i) != -1
      modifies `mem
      ensures Valid() && |mem| == |old(mem)| && TableOf(owner, t, d)
      ensures forall k :: 0 <= k < NENTRIES ==> T(mem, d, k) == T(old(mem), d, k)
      ensures forall q :: 0 <= q < |mem| && q != t ==> mem[q] == old(mem)[q]
      ensures forall k, l :: 0 <= k < NENTRIES && 0 <= l < NENTRIES ==> E(mem, d, k, l) == if k == i && l == j then w
              else E(old(mem), d, k, l)
    {
      hide Own, FreeList, E, T;
      EntryIs(r, mem, dirs, owner, d, i, j);
      Bounds(r, mem, head, free, pos, owner, t);
      KernelMapKeepsOwn(r, mem, dirs, owner, d, i, j, w);
      SetEntryIs(r, mem, dirs, owner, d, i, j, w);
      var page: Page := mem[t][j := w];
      WriteKeepsFree(r, mem, head, free, pos, t, page);
      mem := mem[t := page];
    }

    /** setupkvm: a new address space with the kernel's mappings and an empty user half, or, with
        less than 65 free pages, 0 and everything as before. */
    method SetupKvm(data: nat) returns (d: int)
      requires Valid() && 0x8_0100 < data < 0x8_E000
      modifies this
      ensures Valid()
      ensures d == 0 <==> |old(free)| < KERNEL_PAGES
      ensures d == 0 ==> Same(old(V()), V())
      ensures d != 0 ==> |free| == |old(free)| - KERNEL_PAGES && Within(old(V()), V(), d) && Bare(V(), d)
      ensures d != 0 ==> KernelUpTo(V(), d, data, NENTRIES * NENTRIES) &&
                         forall x :: 0 <= x < NUSER ==> T(mem, d, x) == -1
    {
      hide Own, FreeList, E, T, Pte, Kernel, KernelMap, Within, Same, Freed, Bare, KernelUpTo, Tabled, Missing;
      ghost var a := V();
      d := Kalloc();
      if d == 0 {
        SameSelf(a);
        return;
      }
      Clear(d);
      NewDirKeepsOwn(r, mem, dirs, owner, d);
      dirs, owner := dirs + {d}, owner[d := Root];
      NewDir(r, a, V(), d, data);
      var kmap := Kmap(data);
      var k := 0;
      while k < |kmap|
        invariant 0 <= k <= |kmap| && Valid() && Within(a, V(), d) && Bare(V(), d) && d in dirs
        invariant KernelUpTo(V(), d, data, Bound(data, k)) && KernelTables(mem, d, data, k)
        invariant |free| == |old(free)| - 1 - TableCount(data, k)
      {
        ghost var b := V();
        StillAbsent(b, d, data, k);
        MissingTables(mem, d, data, k);
        var ok := MapKernel(d, kmap[k].first, kmap[k].last, kmap[k].ppn, kmap[k].perm);
        WithinKernel(a, b, V(), d);
        if !ok {
          ghost var c := V();
          FreeVm(d);
          FreedIsSame(a, c, V(), d);
          return 0;
        }
        KernelOnce(b, V(), d, data, k);
        TablesOnce(b.mem, mem, d, data, k);
        k := k + 1;
      }
    }

    /** copyuvm: a new address space with a copy of every page of d below sz, or 0 and
        everything as before if it takes more than the free pages. It panics at a page of d
        that is not there, if the free pages last that far. */
    method CopyUvm(d: int, sz: nat, data: nat) returns (c: Option<int>)
      requires Valid() && d in dirs && sz <= KERNBASE && 0x8_0100 < data < 0x8_E000
      modifies this
      ensures Valid()
      ensures var v := FirstOther(old(mem), d, 0, Pages(sz), true);
              && (c == Some(0) <==> |old(free)| < KERNEL_PAGES + CopyCost(v))
              && (c.None? <==> v < Pages(sz) && |old(free)| >= KERNEL_PAGES + CopyCost(v))
      ensures c == Some(0) ==> Same(old(V()), V())
      ensures c.Some? && c.value != 0 ==>
                && |free| == |old(free)| - KERNEL_PAGES - CopyCost(Pages(sz))
                && KernelUpTo(V(), c.value, data, NENTRIES * NENTRIES) && Within(old(V()), V(), c.value)
                && forall w :: 0 <= w < Pages(sz) ==> Copied(old(V()), V(), d, c.value, w)
    {
      hide Own, FreeList, E, T, Pte, Within, Same, Freed, Copied, KernelUpTo, Tabled, CopyMade;
      ghost var a, g := V(), FirstOther(mem, d, 0, Pages(sz), true);
      var child := SetupKvm(data);
      if child == 0 {
        return Some(0);
      }
      var v := 0;
      while v * PGSIZE < sz
        invariant Valid() && Within(a, V(), child) && v <= g
        invariant forall w :: 0 <= w < v ==> Copied(a, V(), d, child, w)
        invariant forall w :: v <= w < NUSER * NENTRIES ==> !Present(E(mem, child, w / NENTRIES, w % NENTRIES))
        invariant KernelUpTo(V(), child, data, NENTRIES * NENTRIES)
        invariant |free| == |old(free)| - KERNEL_PAGES - CopyCost(v)
        invariant forall x :: 0 <= x < NUSER ==> (T(mem, child, x) != -1 <==> x * NENTRIES < v)
        decreases sz - v * PGSIZE
      {
        ghost var b := V();
        if v < g {
          CostGrows(v, g);
        }
        var m := CopyPage(d, child, v, a);
        match m {
          case Absent =>
            return None;
          case NoMemory =>
            ghost var e := V();
            FreeVm(child);
            FreedIsSame(a, e, V(), child);
            return Some(0);
          case Made =>
        }
        CopiedOne(a, b, V(), d, child, v, data);
        v := v + 1;
      }
      return Some(child);
    }

    /** kalloc, and memmove of another page to the new one. */
    method Duplicate(pa: int) returns (p: int)
      requires Valid() && pa in owner
      modifies `mem, `head, `free, `pos, `owner
      ensures Valid() && 0 <= pa < |old(mem)|
      ensures p == 0 <==> old(free) == []
      ensures |free| == |old(free)| - if p == 0 then 0 else 1
      ensures p == 0 ==> V() == old(V())
      ensures forall d, i :: d in dirs && 0 <= i < NENTRIES ==> T(mem, d, i) == T(old(mem), d, i)
      ensures p != 0 ==> p !in old(owner) && 0 <= p < |old(mem)| && owner == old(owner)[p := Held] &&
                         mem == old(mem)[p := old(mem)[pa]]
      ensures forall d, i, j :: d in dirs && 0 <= i < NENTRIES && 0 <= j < NENTRIES ==>
              E(mem, d, i, j) == E(old(mem), d, i, j)
    {
      hide Own, FreeList, T, E;
      Bounds(r, mem, head, free, pos, owner, pa);
      p := Kalloc();
      if p == 0 {
        return;
      }
      HeldIsNoTable(r, mem, dirs, owner, p, mem[pa]);
      Bounds(r, mem, head, free, pos, owner, p);
      WriteKeepsFree(r, mem, head, free, pos, p, mem[pa]);
      mem := mem[p := mem[pa]];
    }

    /** One turn of copyuvm's loop. */
    method CopyPage(d: int, c: int, v: nat, ghost a: View) returns (m: CopyResult)
      requires Valid() && Own(r, a.mem, a.dirs, a.owner) && d in a.dirs && Within(a, V(), c) && v < NUSER * NENTRIES
      requires !Present(E(mem, c, v / NENTRIES, v % NENTRIES))
      modifies this
      ensures Valid() && Within(a, V(), c) && c in dirs
      ensures m.Absent? <==> !Present(E(a.mem, d, v / NENTRIES, v % NENTRIES))
      ensures m.NoMemory? <==> !m.Absent? && |old(free)| < 1 + if T(old(mem), c, v / NENTRIES) == -1 then 1 else 0
      ensures m.Made? ==> |free| == |old(free)| - 1 - if T(old(mem), c, v / NENTRIES) == -1 then 1 else 0
      ensures m.Made? ==> CopyMade(a, old(V()), V(), d, c, v)
      ensures m.Made? ==> Tabled(old(mem), mem, c, v / NENTRIES, v / NENTRIES + 1)
    {
      hide Own, FreeList, E, T, Pte, Within, Mapped;
      var i, j := v / NENTRIES, v % NENTRIES;
      ghost var b := V();
      WithinSpace(r, a, b, d, c);
      NoEntry(mem, d, i, j);
      var t := Walk(d, i, false);
      if t == 0 {
        return Absent;
      }
      EntryIs(r, mem, dirs, owner, d, i, j);
      if !Present(mem[t][j]) {
        return Absent;
      }
      HasTable(mem, d, i, j);
      var pa, flags := mem[t][j] / 4096, mem[t][j] % 4096;
      UserIs(r, a.mem, a.dirs, a.owner, d, i, j);
      UserIs(r, mem, dirs, owner, d, i, j);
      var p := Duplicate(pa);
      if p == 0 {
        return NoMemory;
      }
      ghost var b1 := V();
      var stored := MapUser(c, v, p, flags);
      if stored.NoPage? {
        Release(p);
        WithinSame(a, b, V(), c, p);
        return NoMemory;
      }
      CopyStep(a, b, b1, V(), d, c, v, p, pa, flags);
      return Made;
    }
  }

  /** User page w of c has the flags and the bytes of user page w of d in a, and is new. */
  ghost predicate Copied(a: View, b: View, d: int, c: int, w: nat) {
    && w < NUSER * NENTRIES
    && var i, j := w / NENTRIES, w % NENTRIES;
       var p, q := U(b.mem, c, i, j), U(a.mem, d, i, j);
       && 0 <= p < |b.mem| && 0 <= q < |a.mem| && p !in a.owner && p in b.owner && b.owner[p] == User(c, i, j) &&
            q in a.owner
       && E(b.mem, c, i, j) % 4096 == E(a.mem, d, i, j) % 4096 && b.mem[p] == a.mem[q]
  }

  /** Page v is copied; pages before it still are, and pages after it are not touched. */
  ghost predicate CopyMade(a: View, b: View, e: View, d: int, c: int, v: nat) {
    && Copied(a, e, d, c, v)
    && (forall w :: 0 <= w < v && Copied(a, b, d, c, w) ==> Copied(a, e, d, c, w))
    && (forall w :: v < w < NENTRIES * NENTRIES ==>
         E(e.mem, c, w / NENTRIES, w % NENTRIES) == E(b.mem, c, w / NENTRIES, w % NENTRIES))
  }

  /** The pages that it takes to copy v pages from 0 on, with their tables. */
  function CopyCost(v: nat): nat {
    v + (v + NENTRIES - 1) / NENTRIES
  }

  lemma CostGrows(v: nat, hi: nat)
    requires v < hi
    ensures CopyCost(v + 1) == CopyCost(v) + 1 + if v / NENTRIES * NENTRIES < v then 0 else 1
    ensures CopyCost(v + 1) <= CopyCost(hi)
  {}

  /** What one more page leaves as it was in the new address space. */
  lemma CopiedOne(a: View, b: View, e: View, d: int, c: int, v: nat, data: nat)
    requires v < NUSER * NENTRIES && CopyMade(a, b, e, d, c, v) && forall w :: 0 <= w < v ==> Copied(a, b, d, c, w)
    requires Tabled(b.mem, e.mem, c, v / NENTRIES, v / NENTRIES + 1) && KernelUpTo(b, c, data, NENTRIES * NENTRIES)
    requires forall x :: 0 <= x < NUSER ==> (T(b.mem, c, x) != -1 <==> x * NENTRIES < v)
    requires forall w :: v <= w < NUSER * NENTRIES ==> !Present(E(b.mem, c, w / NENTRIES, w % NENTRIES))
    ensures KernelUpTo(e, c, data, NENTRIES * NENTRIES) && forall w :: 0 <= w < v + 1 ==> Copied(a, e, d, c, w)
    ensures forall x :: 0 <= x < NUSER ==> (T(e.mem, c, x) != -1 <==> x * NENTRIES < v + 1)
    ensures forall w :: v + 1 <= w < NUSER * NENTRIES ==> !Present(E(e.mem, c, w / NENTRIES, w % NENTRIES))
  {
    hide Copied, E, T, KernelEntry;
  }

  /** The parent is untouched while its child is built. */
  lemma WithinSpace(r: Range, a: View, b: View, d: int, c: int)
    requires Own(r, a.mem, a.dirs, a.owner) && d in a.dirs && Within(a, b, c)
    ensures d in b.dirs && c in b.dirs && c != d && (forall k :: 0 <= k < NENTRIES ==> T(b.mem, d, k) == T(a.mem, d, k))
    ensures forall k, l :: 0 <= k < NENTRIES && 0 <= l < NENTRIES ==> E(b.mem, d, k, l) == E(a.mem, d, k, l)
  {}

  lemma NoEntry(mem: seq<Page>, d: int, i: nat, j: nat)
    requires i < NENTRIES && j < NENTRIES
    ensures T(mem, d, i) == -1 ==> !Present(E(mem, d, i, j))
  {}

  lemma HasTable(mem: seq<Page>, d: int, i: nat, j: nat)
    requires i < NENTRIES && j < NENTRIES && Present(E(mem, d, i, j))
    ensures T(mem, d, i) != -1 && E(mem, d, i, j) % 4096 % 2 == 1
  {}

  lemma WithinSame(a: View, b: View, e: View, c: int, p: int)
    requires Within(a, b, c) && p !in b.owner && e.dirs == b.dirs && e.owner == b.owner[p := Held] - {p} &&
             |e.mem| == |b.mem|
    requires forall q :: 0 <= q < |b.mem| && q != p ==> e.mem[q] == b.mem[q]
    ensures Within(a, e, c)
  {}

  lemma CopyStep(a: View, b: View, b1: View, e: View, d: int, c: int, v: nat, p: int, pa: int, flags: nat)
    requires Within(a, b, c) && v < NUSER * NENTRIES && p !in b.owner && 0 <= p < |b.mem| && 0 <= pa < |b.mem| &&
             flags < 4096
    requires b1 == View(b.mem[p := b.mem[pa]], b.dirs, b.owner[p := Held]) && Mapped(b1, e, c, v, p, flags) &&
             flags % 2 == 1
    requires forall k, l :: 0 <= k < NENTRIES && 0 <= l < NENTRIES ==> E(b1.mem, c, k, l) == E(b.mem, c, k, l)
    requires pa in a.owner && pa == U(a.mem, d, v / NENTRIES, v % NENTRIES) &&
             flags == E(a.mem, d, v / NENTRIES, v % NENTRIES) % 4096
    ensures Within(a, e, c) && CopyMade(a, b, e, d, c, v) && c in e.dirs
  {
    hide E, T, Pte;
    PteIs(p, flags);
    forall w | 0 <= w < v && Copied(a, b, d, c, w) ensures Copied(a, e, d, c, w) {}
  }

  /** The kernel's mappings: I/O space, text, data and memory, devices. */
  datatype Kentry = Kentry(first: nat, last: nat, ppn: nat, perm: nat)

  function Kmap(data: nat): (r: seq<Kentry>)
    requires 0x8_0100 < data < 0x8_E000
    ensures forall k :: 0 <= k < |r| ==>
              && NUSER * NENTRIES <= r[k].first <= r[k].last < NENTRIES * NENTRIES
              && r[k].ppn + (r[k].last - r[k].first) < 0x10_0000 && r[k].perm < 4096
    ensures forall k, m :: 0 <= k < m < |r| ==> r[k].last < r[m].first
  {
    [Kentry(0x8_0000, 0x8_00FF, 0, 2), Kentry(0x8_0100, data - 1, 0x100, 0),
     Kentry(data, 0x8_DFFF, data - 0x8_0000, 2), Kentry(0xF_E000, 0xF_FFFF, 0xF_E000, 2)]
  }

  /** The directory, 56 tables for memory and 8 for devices. */
  const KERNEL_PAGES: nat := 65

  /** What page w of the kernel half maps: physical memory, read-only for the kernel's text, and
      the devices at their own addresses. */
  function KernelEntry(data: nat, w: nat): Word {
    if 0x8_0100 <= w < data < 0x8_E000 then Pte(w - 0x8_0000, 0)
    else if 0x8_0000 <= w < 0x8_E000 then Pte(w - 0x8_0000, 2)
    else if 0xF_E000 <= w < 0x10_0000 then Pte(w, 2)
    else 0
  }

  /** The kernel half of d is mapped below page bound, and empty from there on. */
  ghost predicate KernelUpTo(b: View, d: int, data: nat, bound: nat) {
    forall w :: NUSER * NENTRIES <= w < NENTRIES * NENTRIES ==>
      E(b.mem, d, w / NENTRIES, w % NENTRIES) == if w < bound then KernelEntry(data, w) else 0
  }

  /** Where entry k of kmap ends, and the next one may begin. */
  function Bound(data: nat, k: nat): nat {
    if k == 0 then 0x8_0000 else if k == 1 then 0x8_0100 else if k == 2 then data else if k == 3 then 0x8_E000
        else 0x10_0000
  }

  function TableCount(data: nat, k: nat): int {
    if k == 0 then 0 else if k < 4 then (Bound(data, k) - 1) / NENTRIES - 511 else 64
  }

  /** The tables of d after k entries of kmap. */
  ghost predicate KernelTables(mem: seq<Page>, d: int, data: nat, k: nat) {
    forall x :: 0 <= x < NENTRIES ==>
      (T(mem, d, x) != -1 <==> if k < 4 then 0 < k && 512 <= x <= (Bound(data, k) - 1) / NENTRIES
          else 512 <= x < 568 || 1016 <= x)
  }

  lemma StillAbsent(b: View, d: int, data: nat, k: nat)
    requires KernelUpTo(b, d, data, Bound(data, k)) && 0x8_0100 < data < 0x8_E000 && k < |Kmap(data)|
    ensures var e := Kmap(data)[k];
            forall w :: e.first <= w <= e.last ==> !Present(E(b.mem, d, w / NENTRIES, w % NENTRIES))
  {
    hide E;
  }

  lemma MissingTables(mem: seq<Page>, d: int, data: nat, k: nat)
    requires KernelTables(mem, d, data, k) && 0x8_0100 < data < 0x8_E000 && k < |Kmap(data)|
    ensures var e := Kmap(data)[k];
            Missing(mem, d, e.first / NENTRIES, e.last / NENTRIES + 1) == TableCount(data, k + 1) - TableCount(data, k)
    ensures TableCount(data, k + 1) <= 64
  {
    hide T;
    var e := Kmap(data)[k];
    var m := if k == 0 then 512 else if k < 3 then (Bound(data, k) - 1) / NENTRIES + 1 else 1016;
    MissingFrom(mem, d, e.first / NENTRIES, m, e.last / NENTRIES + 1);
  }

  lemma TablesOnce(b: seq<Page>, c: seq<Page>, d: int, data: nat, k: nat)
    requires KernelTables(b, d, data, k) && 0x8_0100 < data < 0x8_E000 && k < |Kmap(data)|
    requires var e := Kmap(data)[k]; Tabled(b, c, d, e.first / NENTRIES, e.last / NENTRIES + 1)
    ensures KernelTables(c, d, data, k + 1)
  {
    hide T;
  }

  lemma KernelOnce(b: View, c: View, d: int, data: nat, k: nat)
    requires KernelUpTo(b, d, data, Bound(data, k)) && 0x8_0100 < data < 0x8_E000 && k < |Kmap(data)|
    requires var e := Kmap(data)[k]; KernelMap(b, c, d, e.first, e.last + 1, e.ppn, e.perm)
    ensures KernelUpTo(c, d, data, Bound(data, k + 1))
  {
    hide E, Pte;
  }

  /** Nothing that was owned has changed, and nothing else is owned. */
  ghost predicate Same(a: View, b: View) {
    && |a.mem| == |b.mem| && b.dirs == a.dirs && (forall q :: q in b.owner <==> q in a.owner)
    && forall q :: q in a.owner ==> b.owner[q] == a.owner[q] && (0 <= q < |a.mem| ==> b.mem[q] == a.mem[q])
  }

  /** All that is new is the address space d. */
  ghost predicate Within(a: View, b: View, d: int) {
    && |a.mem| == |b.mem| && b.dirs == a.dirs + {d} && d !in a.dirs && d !in a.owner && d in b.owner &&
         b.owner[d] == Root
    && (forall q :: q in a.owner ==>
         q in b.owner && b.owner[q] == a.owner[q] && !Of(a.owner, q, d) && (0 <= q < |a.mem| ==> b.mem[q] == a.mem[q]))
    && (forall q :: q in b.owner && q !in a.owner ==> Of(b.owner, q, d))
  }

  /** The user half of d is empty. */
  ghost predicate Bare(b: View, d: int) {
    forall k, l :: 0 <= k < NUSER && 0 <= l < NENTRIES ==> !Present(E(b.mem, d, k, l))
  }

  lemma SameSelf(a: View)
    ensures Same(a, a)
  {}

  lemma NewDirKeepsOwn(r: Range, mem: seq<Page>, dirs: set<int>, owner: map<int, Role>, d: int)
    requires Own(r, mem, dirs, owner) && d in owner && owner[d] == Held && 0 <= d < |mem| &&
             forall i :: 0 <= i < NENTRIES ==> mem[d][i] == 0
    ensures Own(r, mem, dirs + {d}, owner[d := Root])
  {}

  lemma NewDir(r: Range, a: View, b: View, d: int, data: nat)
    requires Own(r, a.mem, a.dirs, a.owner) && d !in a.owner && 0 <= d < |a.mem|
    requires b == View(a.mem[d := ZeroPage()], a.dirs + {d}, a.owner[d := Held][d := Root])
    ensures Within(a, b, d) && Bare(b, d)
    ensures KernelUpTo(b, d, data, Bound(data, 0)) && KernelTables(b.mem, d, data, 0)
  {}

  lemma WithinKernel(a: View, b: View, c: View, d: int)
    requires Within(a, b, d) && Bare(b, d) && Kernel(b, c, d)
    ensures Within(a, c, d) && Bare(c, d) && c.dirs == b.dirs
  {}

  lemma FreedIsSame(a: View, b: View, c: View, d: int)
    requires Within(a, b, d) && Freed(b, c, d)
    ensures Same(a, c)
  {}

  /** Only tables of d are new, and the user half of d is as it was. */
  ghost predicate Kernel(a: View, b: View, d: int) {
    && Extended(a, b, d)
    && (forall q :: q in b.owner && q !in a.owner ==> TableOf(b.owner, q, d))
    && (forall k, l :: 0 <= k < NUSER && 0 <= l < NENTRIES ==> E(b.mem, d, k, l) == E(a.mem, d, k, l))
  }

  ghost predicate KernelMap(a: View, b: View, d: int, first: nat, v: nat, ppn: nat, perm: nat) {
    && NUSER * NENTRIES <= first <= v <= NENTRIES * NENTRIES && ppn + (v - first) <= 0x10_0000 && perm < 4096
    && (forall k, l :: 0 <= k < NENTRIES && 0 <= l < NENTRIES ==>
          E(b.mem, d, k, l) == if first <= k * NENTRIES + l < v then Pte(ppn + (k * NENTRIES + l - first), perm)
              else E(a.mem, d, k, l))
  }

  lemma KernelNothing(a: View, d: int, first: nat, ppn: nat, perm: nat)
    requires NUSER * NENTRIES <= first <= NENTRIES * NENTRIES && ppn <= 0x10_0000 && perm < 4096
    ensures Kernel(a, a, d) && KernelMap(a, a, d, first, first, ppn, perm)
  {}

  lemma KernelAbsent(a: View, b: View, d: int, first: nat, v: nat, ppn: nat, perm: nat)
    requires KernelMap(a, b, d, first, v, ppn, perm) && v < NENTRIES * NENTRIES
    ensures E(b.mem, d, v / NENTRIES, v % NENTRIES) == E(a.mem, d, v / NENTRIES, v % NENTRIES)
  {}

  lemma KernelStep(a: View, b: View, b1: View, c: View, d: int, first: nat, v: nat, t: int, ppn: nat, perm: nat)
    requires Kernel(a, b, d) && KernelMap(a, b, d, first, v, ppn, perm) && Added(b, b1, d) && v < NENTRIES * NENTRIES
    requires ppn + (v - first) < 0x10_0000 && c.dirs == b1.dirs && c.owner == b1.owner && |c.mem| == |b1.mem| &&
             TableOf(c.owner, t, d)
    requires forall q :: 0 <= q < |c.mem| && q != t ==> c.mem[q] == b1.mem[q]
    requires forall k, l :: 0 <= k < NENTRIES && 0 <= l < NENTRIES ==>
               E(c.mem, d, k, l) == if k == v / NENTRIES && l == v % NENTRIES then Pte(ppn + (v - first), perm)
                   else E(b1.mem, d, k, l)
    ensures Kernel(a, c, d) && KernelMap(a, c, d, first, v + 1, ppn, perm)
  {}

  /** The tables of d below i are free, and the rest of d is in the hands of the kernel. */
  ghost predicate Drained(b: View, c: View, d: int, i: nat) {
    && c.dirs == b.dirs - {d} && |c.mem| == |b.mem|
    && (forall q :: q in c.owner <==> q in b.owner && !(b.owner[q].Table? && b.owner[q].d == d && b.owner[q].i < i))
    && (forall q :: q in c.owner ==> c.owner[q] == Disowned(b.owner, d)[q] && 0 <= q < |c.mem| && c.mem[q] == b.mem[q])
  }

  lemma DrainStart(r: Range, b: View, d: int)
    requires Own(r, b.mem, b.dirs, b.owner)
    ensures Drained(b, View(b.mem, b.dirs - {d}, Disowned(b.owner, d)), d, 0)
  {}

  lemma DrainFacts(r: Range, b: View, c: View, d: int, i: nat)
    requires Own(r, b.mem, b.dirs, b.owner) && d in b.dirs && i <= NENTRIES && Drained(b, c, d, i)
    ensures 0 <= d < |c.mem| && c.mem[d] == b.mem[d] && d in c.owner && c.owner[d] == Held
    ensures i < NENTRIES && Present(c.mem[d][i]) ==>
            var t := c.mem[d][i] / 4096; t in c.owner && c.owner[t] == Held && t != d
  {
    hide U;
    assert Of(b.owner, d, d);
    if i < NENTRIES {
      DirIs(r, b.mem, b.dirs, b.owner, d, i);
      if Present(b.mem[d][i]) {
        assert Of(b.owner, T(b.mem, d, i), d);
      }
    }
  }

  lemma DrainStep(r: Range, b: View, c: View, e: View, d: int, i: nat)
    requires Own(r, b.mem, b.dirs, b.owner) && d in b.dirs && i < NENTRIES && Drained(b, c, d, i) && e.dirs == c.dirs
    requires |e.mem| == |c.mem| && 0 <= d < |c.mem| && c.mem[d] == b.mem[d]
    requires var t := c.mem[d][i] / 4096;
             if Present(c.mem[d][i]) then e.owner == c.owner - {t} &&
                 forall q :: 0 <= q < |c.mem| && q != t ==> e.mem[q] == c.mem[q]
             else e == c
    ensures Drained(b, e, d, i + 1)
  {
    hide U;
    DirIs(r, b.mem, b.dirs, b.owner, d, i);
    forall q | q in b.owner && b.owner[q] == Table(d, i) ensures T(b.mem, d, i) == q {
      assert Backed(b.mem, b.dirs, b.owner[q], q);
    }
    forall q | q in b.owner && b.owner[q].Table? ensures b.owner[q].i < NENTRIES {
      assert Backed(b.mem, b.dirs, b.owner[q], q);
    }
  }

  lemma DrainEnd(r: Range, b: View, c: View, e: View, d: int)
    requires Own(r, b.mem, b.dirs, b.owner) && d in b.dirs &&
             forall q :: q in b.owner ==> !(b.owner[q].User? && b.owner[q].d == d)
    requires Drained(b, c, d, NENTRIES) && e.dirs == c.dirs && e.owner == c.owner - {d} && |e.mem| == |c.mem|
    requires forall q :: 0 <= q < |c.mem| && q != d ==> e.mem[q] == c.mem[q]
    ensures Freed(b, e, d)
  {
    hide T, U;
    forall q | q in b.owner ensures Backed(b.mem, b.dirs, b.owner[q], q) {}
  }

  lemma CutAll(r: Range, a: View, b: View, d: int)
    requires Own(r, a.mem, a.dirs, a.owner) && CutTo(a, b, d, 0, NUSER * NENTRIES)
    ensures b.dirs == a.dirs && forall q :: q in b.owner ==> !(b.owner[q].User? && b.owner[q].d == d)
  {}

  lemma FreedAfterCut(r: Range, a: View, b: View, c: View, d: int)
    requires Own(r, a.mem, a.dirs, a.owner) && CutTo(a, b, d, 0, NUSER * NENTRIES) && Freed(b, c, d)
    ensures Freed(a, c, d)
  {}

  /** Address space d is gone, and its pages are free; nothing else has changed. */
  ghost predicate Freed(a: View, b: View, d: int) {
    && |a.mem| == |b.mem| && b.dirs == a.dirs - {d}
    && (forall q :: q in b.owner <==> q in a.owner && !Of(a.owner, q, d))
    && (forall q :: q in b.owner ==> b.owner[q] == a.owner[q] && (0 <= q < |a.mem| ==> b.mem[q] == a.mem[q]))
  }

  /** The pages of d in the hands of the kernel. */
  ghost function Disowned(owner: map<int, Role>, d: int): (o: map<int, Role>)
    ensures o.Keys == owner.Keys && forall q :: q in owner ==> o[q] == if Of(owner, q, d) then Held else owner[q]
  {
    map q | q in owner :: if Of(owner, q, d) then Held else owner[q]
  }

  lemma DisownKeepsOwn(r: Range, mem: seq<Page>, dirs: set<int>, owner: map<int, Role>, d: int)
    requires Own(r, mem, dirs, owner) && d in dirs && forall q :: q in owner ==> !(owner[q].User? && owner[q].d == d)
    ensures Own(r, mem, dirs - {d}, Disowned(owner, d))
  {}

  /** PGROUNDUP(sz) / PGSIZE. */
  function Pages(sz: nat): nat {
    (sz + PGSIZE - 1) / PGSIZE
  }

  /** The role of a user page of d from page lo up to page hi. */
  ghost predicate InCut(role: Role, d: int, lo: nat, hi: nat) {
    role.User? && role.d == d && lo <= role.i * NENTRIES + role.j < hi
  }

  /** The user pages of d from lo to hi are gone and free, and nothing else has changed. */
  ghost predicate CutTo(a: View, b: View, d: int, lo: nat, hi: nat) {
    && |a.mem| == |b.mem| && a.dirs == b.dirs && hi <= NUSER * NENTRIES
    && (forall q :: q in b.owner <==> q in a.owner && !InCut(a.owner[q], d, lo, hi))
    && (forall q :: q in b.owner ==> b.owner[q] == a.owner[q])
    && (forall q :: q in b.owner && 0 <= q < |a.mem| && !(a.owner[q].Table? && a.owner[q].d == d) ==>
         b.mem[q] == a.mem[q])
    && (forall k :: 0 <= k < NENTRIES ==> T(b.mem, d, k) == T(a.mem, d, k))
    && (forall k, l :: 0 <= k < NENTRIES && 0 <= l < NENTRIES ==>
          E(b.mem, d, k, l) == if lo <= k * NENTRIES + l < hi && Present(E(a.mem, d, k, l)) then 0
              else E(a.mem, d, k, l))
  }

  lemma Index(k: nat, l: nat)
    requires l < NENTRIES
    ensures (k * NENTRIES + l) / NENTRIES == k && (k * NENTRIES + l) % NENTRIES == l
  {}

  lemma CutNothing(a: View, d: int, lo: nat)
    ensures lo <= NUSER * NENTRIES ==> CutTo(a, a, d, lo, lo)
  {}

  lemma CutKeeps(a: View, b: View, d: int, lo: nat, v: nat)
    requires CutTo(a, b, d, lo, v) && v < NUSER * NENTRIES
    ensures T(b.mem, d, v / NENTRIES) == T(a.mem, d, v / NENTRIES)
    ensures forall q :: q in b.owner ==> q in a.owner && a.owner[q] == b.owner[q]
    ensures E(b.mem, d, v / NENTRIES, v % NENTRIES) == E(a.mem, d, v / NENTRIES, v % NENTRIES)
  {}

  lemma NoTable(a: View, d: int, v: nat, next: nat)
    requires v < NUSER * NENTRIES && T(a.mem, d, v / NENTRIES) == -1 && next <= (v / NENTRIES + 1) * NENTRIES
    ensures forall w :: v <= w < next ==> w / NENTRIES < NENTRIES && !Present(E(a.mem, d, w / NENTRIES, w % NENTRIES))
  {}

  /** A user page of d is where its role says. */
  lemma RolePlace(r: Range, a: View, q: int)
    requires Own(r, a.mem, a.dirs, a.owner) && q in a.owner && a.owner[q].User?
    ensures var o := a.owner[q];
            o.i < NUSER && o.j < NENTRIES && U(a.mem, o.d, o.i, o.j) == q && Present(E(a.mem, o.d, o.i, o.j))
  {}

  /** Pages that are not there may be added to the cut. */
  lemma CutMore(r: Range, a: View, b: View, d: int, lo: nat, v: nat, next: nat)
    requires Own(r, a.mem, a.dirs, a.owner) && CutTo(a, b, d, lo, v) && v <= next <= NUSER * NENTRIES
    requires forall w :: v <= w < next ==> !Present(E(a.mem, d, w / NENTRIES, w % NENTRIES))
    ensures CutTo(a, b, d, lo, next)
  {
    hide Own, E, T, U, Present;
    forall k, l | 0 <= k < NENTRIES && 0 <= l < NENTRIES && v <= k * NENTRIES + l < next
      ensures !Present(E(a.mem, d, k, l)) {
      Index(k, l);
      assert !Present(E(a.mem, d, (k * NENTRIES + l) / NENTRIES, (k * NENTRIES + l) % NENTRIES));
    }
    forall q | q in a.owner && InCut(a.owner[q], d, lo, next) ensures InCut(a.owner[q], d, lo, v) {
      RolePlace(r, a, q);
    }
  }

  /** One page unmapped. */
  lemma CutOne(r: Range, a: View, b: View, c: View, d: int, lo: nat, v: nat, t: int)
    requires Own(r, a.mem, a.dirs, a.owner) && CutTo(a, b, d, lo, v) && lo <= v < NUSER * NENTRIES
    requires var p := U(b.mem, d, v / NENTRIES, v % NENTRIES);
             p in b.owner && b.owner[p] == User(d, v / NENTRIES, v % NENTRIES) && c.owner == b.owner - {p}
    requires c.dirs == b.dirs && |c.mem| == |b.mem| && Present(E(b.mem, d, v / NENTRIES, v % NENTRIES))
    requires t in a.owner && a.owner[t].Table? && a.owner[t].d == d
    requires forall q :: q in c.owner && q != t && 0 <= q < |c.mem| ==> c.mem[q] == b.mem[q]
    requires forall k :: 0 <= k < NENTRIES ==> T(c.mem, d, k) == T(b.mem, d, k)
    requires forall k, l :: 0 <= k < NENTRIES && 0 <= l < NENTRIES ==>
               E(c.mem, d, k, l) == if k == v / NENTRIES && l == v % NENTRIES then 0 else E(b.mem, d, k, l)
    ensures CutTo(a, c, d, lo, v + 1)
  {
    hide Own, E, T, Present;
    var i, j := v / NENTRIES, v % NENTRIES;
    var p := U(b.mem, d, i, j);
    forall q | q in a.owner ensures InCut(a.owner[q], d, lo, v + 1) <==> InCut(a.owner[q], d, lo, v) || q == p {
      if a.owner[q].User? {
        RolePlace(r, a, q);
        Index(a.owner[q].i, a.owner[q].j);
      }
    }
    forall k, l | 0 <= k < NENTRIES && 0 <= l < NENTRIES
      ensures E(c.mem, d, k, l) == if lo <= k * NENTRIES + l < v + 1 && Present(E(a.mem, d, k, l)) then 0
              else E(a.mem, d, k, l)
    {
      Index(k, l);
    }
  }

  /** Page p, until now in the hands of the kernel, is user page v of d. */
  ghost predicate Mapped(a: View, b: View, d: int, v: nat, p: int, flags: nat)
    requires v < NUSER * NENTRIES && flags < 4096
  {
    && |a.mem| == |b.mem| && a.dirs == b.dirs && p in a.owner && 0 <= p < 0x10_0000
    && p in b.owner && b.owner[p] == User(d, v / NENTRIES, v % NENTRIES)
    && (forall q :: q in a.owner && q != p ==> q in b.owner && b.owner[q] == a.owner[q])
    && (forall q :: q in b.owner && q !in a.owner ==> b.owner[q].Table? && b.owner[q].d == d)
    && (forall q :: q in a.owner && 0 <= q < |a.mem| && q != d && !(a.owner[q].Table? && a.owner[q].d == d) ==>
         b.mem[q] == a.mem[q])
    && (forall i, j :: 0 <= i < NENTRIES && 0 <= j < NENTRIES ==>
          E(b.mem, d, i, j) == if i == v / NENTRIES && j == v % NENTRIES then Pte(p, flags) else E(a.mem, d, i, j))
  }

  lemma AddedEntry(a: View, b: View, d: int, i: nat, j: nat)
    requires Added(a, b, d) && i < NENTRIES && j < NENTRIES
    ensures E(b.mem, d, i, j) == E(a.mem, d, i, j) && b.dirs == a.dirs
  {}

  lemma EntryIs(r: Range, mem: seq<Page>, dirs: set<int>, owner: map<int, Role>, d: int, i: nat, j: nat)
    requires Own(r, mem, dirs, owner) && d in dirs && i < NENTRIES && j < NENTRIES && T(mem, d, i) != -1
    ensures 0 < T(mem, d, i) < |mem| && E(mem, d, i, j) == mem[T(mem, d, i)][j]
    ensures T(mem, d, i) in owner && owner[T(mem, d, i)] == Table(d, i)
    ensures Present(E(mem, d, i, j)) <==> U(mem, d, i, j) != -1
  {}

  lemma MappedIs(a: View, b: View, c: View, d: int, v: nat, t: int, p: int, flags: nat)
    requires Added(a, b, d) && v < NUSER * NENTRIES && flags < 4096 && p in a.owner && 0 <= p < 0x10_0000
    requires |c.mem| == |b.mem| && c.dirs == b.dirs && c.owner == b.owner[p := User(d, v / NENTRIES, v % NENTRIES)]
    requires t in b.owner && b.owner[t].Table? && b.owner[t].d == d &&
             forall q :: 0 <= q < |b.mem| && q != t ==> c.mem[q] == b.mem[q]
    requires forall i, j :: 0 <= i < NENTRIES && 0 <= j < NENTRIES ==>
               E(c.mem, d, i, j) == if i == v / NENTRIES && j == v % NENTRIES then Pte(p, flags) else E(b.mem, d, i, j)
    ensures Mapped(a, c, d, v, p, flags)
  {}

  /** Where a directory and its tables are. */
  lemma DirIs(r: Range, mem: seq<Page>, dirs: set<int>, owner: map<int, Role>, d: int, i: nat)
    requires Own(r, mem, dirs, owner) && d in dirs && i < NENTRIES
    ensures 0 < r.lo <= d < r.n == |mem| && d in owner && owner[d] == Root
    ensures T(mem, d, i) != -1 ==>
            r.lo <= T(mem, d, i) < r.n && T(mem, d, i) in owner && owner[T(mem, d, i)] == Table(d, i)
    ensures Present(mem[d][i]) <==> T(mem, d, i) != -1
  {}

  lemma Bounds(r: Range, mem: seq<Page>, head: Word, free: seq<int>, pos: map<int, int>, owner: map<int, Role>, d: int)
    requires FreeList(r, mem, head, free, pos) && Partition(r, pos, owner) && d in owner
    ensures d !in pos && 0 < r.lo <= d < r.n == |mem|
  {}

  lemma UserIs(r: Range, mem: seq<Page>, dirs: set<int>, owner: map<int, Role>, d: int, i: nat, j: nat)
    requires Own(r, mem, dirs, owner) && d in dirs && i < NUSER && j < NENTRIES && U(mem, d, i, j) != -1
    ensures U(mem, d, i, j) in owner && owner[U(mem, d, i, j)] == User(d, i, j)
  {}

  lemma OwnedInRange(r: Range, pos: map<int, int>, owner: map<int, Role>)
    requires Partition(r, pos, owner)
    ensures forall q :: q in owner ==> r.lo <= q < r.n
  {}

  // ---------------------------------------------------------------------------
  // Growing an address space

  ghost predicate TableOf(owner: map<int, Role>, q: int, d: int) {
    q in owner && owner[q].Table? && owner[q].d == d
  }

  /** User page w of d is a new page of zeroes, for the user to write. */
  ghost predicate Fresh(a: View, b: View, d: int, w: nat)
    requires w < NUSER * NENTRIES
  {
    var p := U(b.mem, d, w / NENTRIES, w % NENTRIES);
    && 0 <= p < |b.mem| && p !in a.owner && p in b.owner && b.owner[p] == User(d, w / NENTRIES, w % NENTRIES)
    && E(b.mem, d, w / NENTRIES, w % NENTRIES) == p * 4096 + 7
    && forall x :: 0 <= x < NENTRIES ==> b.mem[p][x] == 0
  }

  /** Everything of a is still there in b, other than in the tables of d. */
  ghost predicate Extended(a: View, b: View, d: int) {
    && |a.mem| == |b.mem| && a.dirs == b.dirs
    && (forall q :: q in a.owner ==> q in b.owner && b.owner[q] == a.owner[q])
    && (forall q :: q in a.owner && 0 <= q < |a.mem| && q != d && !TableOf(a.owner, q, d) ==> b.mem[q] == a.mem[q])
  }

  /** Pages lo to v of d are new, and the only new pages beside tables of d. */
  ghost predicate Grew(a: View, b: View, d: int, lo: nat, v: nat) {
    && Extended(a, b, d) && v <= NUSER * NENTRIES
    && (forall q :: q in b.owner && q !in a.owner ==> TableOf(b.owner, q, d) || InCut(b.owner[q], d, lo, v))
    && (forall k, l :: 0 <= k < NENTRIES && 0 <= l < NENTRIES && !(lo <= k * NENTRIES + l < v) ==>
         E(b.mem, d, k, l) == E(a.mem, d, k, l))
    && (forall w :: lo <= w < v ==> Fresh(a, b, d, w))
  }

  /** No user page is new, and no mapping is different. */
  ghost predicate Restored(a: View, b: View, d: int, lo: nat, hi: nat) {
    && Extended(a, b, d) && hi <= NUSER * NENTRIES
    && (forall q :: q in b.owner && q !in a.owner ==> TableOf(b.owner, q, d))
    && (forall k, l :: 0 <= k < NENTRIES && 0 <= l < NENTRIES && !(lo <= k * NENTRIES + l < hi) ==>
         E(b.mem, d, k, l) == E(a.mem, d, k, l))
    && (forall w :: lo <= w < hi ==> !Present(E(b.mem, d, w / NENTRIES, w % NENTRIES)))
  }

  lemma GrewNothing(a: View, d: int, lo: nat)
    ensures lo <= NUSER * NENTRIES ==> Grew(a, a, d, lo, lo)
  {}

  lemma NotThere(a: View, b: View, d: int, lo: nat, v: nat)
    requires Grew(a, b, d, lo, v) && v < NUSER * NENTRIES
    ensures E(b.mem, d, v / NENTRIES, v % NENTRIES) == E(a.mem, d, v / NENTRIES, v % NENTRIES) && b.dirs == a.dirs
  {}

  lemma GrewStep(a: View, b: View, b1: View, c: View, d: int, lo: nat, v: nat, p: int)
    requires Grew(a, b, d, lo, v) && lo <= v < NUSER * NENTRIES && p !in b.owner && 0 <= p < |b.mem|
    requires b1 == View(b.mem[p := ZeroPage()], b.dirs, b.owner[p := Held]) && d in b.owner && b.owner[d] == Root
    requires forall k, l :: 0 <= k < NENTRIES && 0 <= l < NENTRIES ==> E(b1.mem, d, k, l) == E(b.mem, d, k, l)
    requires Mapped(b1, c, d, v, p, 6)
    ensures Grew(a, c, d, lo, v + 1) && c.dirs == b.dirs
  {
    hide E, T, Pte, Present;
    PteIs(p, 6);
    forall k, l | 0 <= k < NENTRIES && 0 <= l < NENTRIES && !(lo <= k * NENTRIES + l < v + 1)
      ensures E(c.mem, d, k, l) == E(a.mem, d, k, l)
    {
      Index(k, l);
    }
    forall w | lo <= w < v + 1 ensures Fresh(a, c, d, w) {
      if w < v {
        assert Fresh(a, b, d, w);
      }
    }
    forall q | q in c.owner && q !in a.owner ensures TableOf(c.owner, q, d) || InCut(c.owner[q], d, lo, v + 1) {}
  }

  /** No user page of d is left from lo to hi, and nothing else has changed but tables of d. */
  ghost predicate Emptied(a: View, b: View, d: int, lo: nat, hi: nat) {
    && |a.mem| == |b.mem| && a.dirs == b.dirs && hi <= NUSER * NENTRIES
    && (forall q :: q in a.owner ==>
          && (q in b.owner <==> !InCut(a.owner[q], d, lo, hi))
          && (q in b.owner ==> b.owner[q] == a.owner[q]))
    && (forall q :: q in b.owner && q !in a.owner ==> TableOf(b.owner, q, d))
    && (forall k, l :: 0 <= k < NENTRIES && 0 <= l < NENTRIES && !(lo <= k * NENTRIES + l < hi) ==>
         E(b.mem, d, k, l) == E(a.mem, d, k, l))
    && (forall w :: lo <= w < hi ==> !Present(E(b.mem, d, w / NENTRIES, w % NENTRIES)))
  }

  lemma CutEmpties(a: View, b: View, c: View, d: int, lo: nat, v: nat, hi: nat)
    requires Grew(a, b, d, lo, v) && v <= hi && CutTo(b, c, d, lo, hi)
    ensures Emptied(a, c, d, lo, hi)
  {
    hide E, T, U;
    forall w | lo <= w < hi ensures !Present(E(c.mem, d, w / NENTRIES, w % NENTRIES)) {
      NotPresent();
    }
  }

  /** The pages that had been added are cut again, and with them those that had been there. */
  lemma Undone(r: Range, a: View, b: View, c: View, d: int, lo: nat, v: nat, hi: nat)
    requires Own(r, a.mem, a.dirs, a.owner) && Grew(a, b, d, lo, v) && v <= hi && CutTo(b, c, d, lo, hi)
    ensures Emptied(a, c, d, lo, hi)
    ensures (forall w :: lo <= w < hi ==> !Present(E(a.mem, d, w / NENTRIES, w % NENTRIES))) ==>
            Restored(a, c, d, lo, hi)
  {
    hide Own, E, T, U;
    CutEmpties(a, b, c, d, lo, v, hi);
    if forall w :: lo <= w < hi ==> !Present(E(a.mem, d, w / NENTRIES, w % NENTRIES)) {
      forall q | q in a.owner ensures !InCut(a.owner[q], d, lo, hi) {
        if a.owner[q].User? {
          RolePlace(r, a, q);
          Index(a.owner[q].i, a.owner[q].j);
        }
      }
    }
  }

  lemma CutDirs(b: View, c: View, d: int, lo: nat, hi: nat, p: int)
    requires CutTo(b, c, d, lo, hi) && p in b.owner && b.owner[p] == Held
    ensures c.dirs == b.dirs && p in c.owner && c.owner[p] == Held
  {}

  /** A page held by the kernel meanwhile makes no difference. */
  lemma CutHeld(b: View, b1: View, c1: View, c: View, d: int, lo: nat, hi: nat, p: int)
    requires p !in b.owner && 0 <= p < |b.mem| && b1 == View(b.mem[p := ZeroPage()], b.dirs, b.owner[p := Held])
    requires CutTo(b1, c1, d, lo, hi) && c.dirs == c1.dirs && c.owner == c1.owner - {p} && |c.mem| == |c1.mem|
    requires forall q :: 0 <= q < |c.mem| && q != p ==> c.mem[q] == c1.mem[q]
    requires forall k :: 0 <= k < NENTRIES ==> T(b1.mem, d, k) == T(b.mem, d, k) && T(c.mem, d, k) == T(c1.mem, d, k)
    requires forall k, l :: 0 <= k < NENTRIES && 0 <= l < NENTRIES ==>
               E(b1.mem, d, k, l) == E(b.mem, d, k, l) && E(c.mem, d, k, l) == E(c1.mem, d, k, l)
    ensures CutTo(b, c, d, lo, hi)
  {}

  lemma HoldKeepsOwn(r: Range, mem: seq<Page>, dirs: set<int>, owner: map<int, Role>, p: int)
    requires Own(r, mem, dirs, owner) && p !in owner && r.lo <= p < r.n
    ensures Own(r, mem, dirs, owner[p := Held])
  {}

  lemma DropKeepsOwn(r: Range, mem: seq<Page>, dirs: set<int>, owner: map<int, Role>, p: int)
    requires Own(r, mem, dirs, owner) && p in owner && owner[p] == Held
    ensures Own(r, mem, dirs, owner - {p})
  {}
}
