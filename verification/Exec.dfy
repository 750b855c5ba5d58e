/** The argument stack that exec builds in a new address space. */
module Exec {
  import opened Types
  import opened Blocks

  const MAXARG: nat := 32

  datatype Outcome = Done | Bad | Fault

  type UPage = p: seq<Byte> | |p| == 4096 witness seq(4096, _ => 0)

  function ByteAt(pages: map<int, UPage>, a: int): Byte {
    if a / PGSIZE in pages then pages[a / PGSIZE][a % PGSIZE] else 0
  }

  /** Every address of a range is in a page that the user may write. */
  ghost predicate Writable(pages: map<int, UPage>, va: int, n: nat) {
    forall a :: va <= a < va + n ==> a / PGSIZE in pages
  }

  /** The first page missing is that of va + k, and it has no page table either. */
  ghost predicate NoTable(pages: map<int, UPage>, tables: set<int>, va: int, k: nat) {
    Writable(pages, va, k) && (va + k) / PGSIZE !in pages && (va + k) / PGSIZE / 1024 !in tables
  }

  /** Memory from va on holds the first n bytes of src. */
  ghost predicate Holds(pages: map<int, UPage>, va: int, src: seq<Byte>, n: nat)
    requires n <= |src|
  {
    forall a :: va <= a < va + n ==> ByteAt(pages, a) == src[a - va]
  }

  lemma FirstMissing(pages: map<int, UPage>, tables: set<int>, va: int, tot: nat)
    requires Writable(pages, va, tot) && (va + tot) / PGSIZE !in pages
    ensures forall k: nat :: NoTable(pages, tables, va, k) ==> k == tot
  {
    forall k: nat | NoTable(pages, tables, va, k) ensures k == tot {
      assert k < tot ==> va <= va + k < va + tot;
      assert tot < k ==> va <= va + tot < va + k;
    }
  }

  lemma AllWritable(pages: map<int, UPage>, tables: set<int>, va: int, n: nat)
    requires Writable(pages, va, n)
    ensures forall k: nat :: k < n ==> !NoTable(pages, tables, va, k)
  {
    forall k: nat | k < n ensures !NoTable(pages, tables, va, k) {
      assert va <= va + k < va + n;
    }
  }

  function Patch(x: UPage, at: nat, src: seq<Byte>, from: nat, m: nat): UPage
    requires at + m <= PGSIZE && from + m <= |src|
  {
    x[..at] + src[from..from + m] + x[at + m..]
  }

  lemma HoldsNothing(pages: map<int, UPage>, va: int, src: seq<Byte>)
    ensures Holds(pages, va, src, 0)
  {}

  lemma PatchAt(x: UPage, at: nat, src: seq<Byte>, from: nat, m: nat, k: nat)
    requires at + m <= PGSIZE && from + m <= |src| && k < PGSIZE
    ensures Patch(x, at, src, from, m)[k] == if at <= k < at + m then src[from + k - at] else x[k]
  {}

  /** Copying n more bytes of src into one page. */
  lemma PatchStep(pages: map<int, UPage>, va: nat, src: seq<Byte>, tot: nat, n: nat)
    requires tot + n <= |src| && Holds(pages, va, src, tot) && (va + tot) / PGSIZE in pages &&
             (va + tot) % PGSIZE + n <= PGSIZE
    ensures var at := va + tot;
            var more := pages[at / PGSIZE := Patch(pages[at / PGSIZE], at % PGSIZE, src, tot, n)];
            && Holds(more, va, src, tot + n)
            && forall a :: !(at <= a < at + n) ==> ByteAt(more, a) == ByteAt(pages, a)
  {
    hide Patch;
    var at := va + tot;
    var v := at / PGSIZE;
    var more := pages[v := Patch(pages[v], at % PGSIZE, src, tot, n)];
    forall a ensures ByteAt(more, a) == if at <= a < at + n then src[a - va] else ByteAt(pages, a) {
      if a / PGSIZE == v {
        PatchAt(pages[v], at % PGSIZE, src, tot, n, a % PGSIZE);
      }
    }
  }

  /** User memory through a page table: the pages with PTE_P and PTE_U, all below KERNBASE,
      and the directory entries that have a table. */
  class Memory {
    var pages: map<int, UPage>
    const tables: set<int>

    ghost predicate Valid()
      reads this
    {
      forall v :: v in pages ==> 0 <= v < KERNBASE / PGSIZE && v / 1024 in tables
    }

    constructor (pages: map<int, UPage>, tables: set<int>)
      requires forall v :: v in pages ==> 0 <= v < KERNBASE / PGSIZE && v / 1024 in tables
      ensures Valid() && this.pages == pages && this.tables == tables
    {
      this.pages := pages;
      this.tables := tables;
    }

    /** copyout. Where there is no table the kernel follows a null pointer. */
    method Copyout(va: Word, src: seq<Byte>) returns (r: Outcome)
      requires Valid()
      modifies this
      ensures Valid() && pages.Keys == old(pages).Keys
      ensures r.Done? <==> Writable(old(pages), va, |src|)
      ensures r.Fault? <==> exists k: nat :: k < |src| && NoTable(old(pages), tables, va, k)
      ensures r.Done? ==> Holds(pages, va, src, |src|)
      ensures forall a :: !(va <= a < va + |src|) ==> ByteAt(pages, a) == ByteAt(old(pages), a)
    {
      hide ByteAt, Holds, Patch;
      HoldsNothing(pages, va, src);
      var at, tot := va as int, 0;
      while tot < |src|
        invariant 0 <= tot <= |src| && at == va + tot && Valid() && pages.Keys == old(pages).Keys
        invariant Writable(old(pages), va, tot) && (tot == 0 || at % PGSIZE == 0 || tot == |src|)
        invariant Holds(pages, va, src, tot)
        invariant forall a :: !(va <= a < va + tot) ==> ByteAt(pages, a) == ByteAt(old(pages), a)
      {
        var v := at / PGSIZE;
        if v !in pages {
          assert !Writable(old(pages), va, |src|);
          r := if v / 1024 in tables then Bad else Fault;
          FirstMissing(old(pages), tables, va, tot);
          assert r.Fault? ==> NoTable(old(pages), tables, va, tot);
          return;
        }
        var n := PGSIZE - at % PGSIZE;
        if n > |src| - tot {
          n := |src| - tot;
        }
        PatchStep(pages, va, src, tot, n);
        pages := pages[v := Patch(pages[v], at % PGSIZE, src, tot, n)];
        tot, at := tot + n, at + n;
      }
      AllWritable(old(pages), tables, va, |src|);
      return Done;
    }

    /** One argument. */
    method PushOne(argv: seq<seq<Byte>>, addrs: seq<Word>, sp: nat, sz: nat) returns (w: Outcome, more: Word)
      requires Valid() && Stack(pages, sz) && Tables(tables, sz) && |addrs| < |argv| && |argv[|addrs|]| < KERNBASE
      requires sp == Top(argv, sz, |addrs|) && sz - PGSIZE <= sp <= sz && sp % 4 == 0 &&
               Strings(pages, argv, addrs, |addrs|, sp, sz)
      modifies this
      ensures Valid() && pages.Keys == old(pages).Keys
      ensures w.Done? <==> Top(argv, sz, |addrs| + 1) >= sz - PGSIZE
      ensures w.Fault? <==> WrapsAt(argv, sz, tables, |addrs|)
      ensures w.Done? ==> more == Top(argv, sz, |addrs| + 1) && more <= sz && more % 4 == 0
      ensures w.Done? ==> Strings(pages, argv, addrs + [more], |addrs| + 1, more, sz)
      ensures w.Done? ==> forall a :: !(sz - PGSIZE <= a < sz) ==> ByteAt(pages, a) == ByteAt(old(pages), a)
    {
      hide ByteAt, Holds, Down, DownInt, Strings, Top, Writable;
      var s := argv[|addrs|];
      TopNext(argv, sz, |addrs|);
      InStack(pages, sz, sp, |s| + 1);
      WhenNoTable(pages, tables, sz, sp, |s| + 1);
      more := Down(sp, |s| + 1);
      w := Copyout(more, s + [0]);
      if w.Done? {
        StringsMore(old(pages), pages, argv, addrs, |addrs|, sp, more, sz);
      }
    }

    /** The part of exec that pushes the arguments below sz, where the last page is the user
        stack and the page under it is not for the user. */
    method PushArgs(argv: seq<seq<Byte>>, sz: nat) returns (r: Pushed)
      requires Valid() && Stack(pages, sz) && Tables(tables, sz) && forall i :: 0 <= i < |argv| ==> |argv[i]| < KERNBASE
      modifies this
      ensures Valid() && pages.Keys == old(pages).Keys
      ensures r.Sp? <==> |argv| <= MAXARG && Fits(argv, sz)
      ensures r.NullTable? <==> exists i: nat :: i < MAXARG && WrapsAt(argv, sz, tables, i)
      ensures r.Sp? ==> r.sp == Top(argv, sz, |argv|) - 4 * (4 + |argv|) && Decodes(pages, r.sp, argv, sz)
      ensures r.Sp? ==> forall a :: !(sz - PGSIZE <= a < sz) ==> ByteAt(pages, a) == ByteAt(old(pages), a)
    {
      hide ByteAt, Holds, Down, Bytes, Decodes, Strings, Writable, WrapsAt;
      StringsNone(pages, argv, sz);
      var sp, argc := sz, 0;
      var addrs: seq<Word> := [];
      while argc < |argv|
        invariant 0 <= argc == |addrs| <= |argv| && argc <= MAXARG && Valid() && pages.Keys == old(pages).Keys
        invariant sp == Top(argv, sz, argc) && sz - PGSIZE <= sp <= sz && sp % 4 == 0
        invariant Strings(pages, argv, addrs, argc, sp, sz)
        invariant forall a :: !(sz - PGSIZE <= a < sz) ==> ByteAt(pages, a) == ByteAt(old(pages), a)
      {
        WrapsOnce(argv, sz, tables, argc);
        TopFalls(argv, sz, argc, |argv|);
        if argc >= MAXARG {
          return NoRoom;
        }
        TopFalls(argv, sz, argc + 1, |argv|);
        var w;
        w, sp := PushOne(argv, addrs, sp, sz);
        if !w.Done? {
          return if w.Bad? then NoRoom else NullTable;
        }
        addrs := addrs + [sp];
        argc := argc + 1;
      }
      WrapsOnce(argv, sz, tables, argc);
      var w;
      w, sp := PushVector(argv, addrs, sp, sz);
      return if w.Done? then Sp(sp) else NoRoom;
    }

    /** The fake return PC, argc, argv and the addresses of the arguments. */
    method PushVector(ghost argv: seq<seq<Byte>>, addrs: seq<Word>, sp: nat, sz: nat) returns (w: Outcome, more: Word)
      requires Valid() && Stack(pages, sz) && Tables(tables, sz) && |addrs| == |argv| <= MAXARG &&
               sz - PGSIZE <= sp <= sz && sp % 4 == 0
      requires Strings(pages, argv, addrs, |argv|, sp, sz)
      modifies this
      ensures Valid() && pages.Keys == old(pages).Keys && !w.Fault? &&
              (w.Done? <==> sp - 4 * (4 + |argv|) >= sz - PGSIZE)
      ensures w.Done? ==> more == sp - 4 * (4 + |argv|) && Decodes(pages, more, argv, sz)
      ensures w.Done? ==> forall a :: !(sz - PGSIZE <= a < sz) ==> ByteAt(pages, a) == ByteAt(old(pages), a)
    {
      hide ByteAt, Holds, Down, Bytes, Decodes, Strings, Ustack, Writable, NoTable, Tables;
      var ustack := Ustack(addrs, sp);
      InStack(pages, sz, sp, 4 * (4 + |addrs|));
      more := Down(sp, 4 * (4 + |addrs|));
      NeverFaults(pages, tables, sz, sp, more, 4 * (4 + |addrs|));
      w := Copyout(more, Bytes(ustack));
      if w.Done? {
        DecodesAll(old(pages), pages, argv, addrs, sp, more, sz);
      }
    }
  }

  function Ustack(addrs: seq<Word>, sp: int): (r: seq<Word>)
    requires |addrs| <= MAXARG
    ensures |r| == 4 + |addrs|
  {
    [0xffff_ffff, |addrs|, (sp - 4 * (|addrs| + 1)) % UINT_LIMIT] + addrs + [0]
  }

  /** Words as bytes, least significant first. */
  function Bytes(ws: seq<Word>): (r: seq<Byte>)
    ensures |r| == 4 * |ws|
  {
    if ws == [] then []
    else
      var w := ws[|ws| - 1];
      Bytes(ws[..|ws| - 1]) + [w % 256, w / 256 % 256, w / 65536 % 256, w / 16777216]
  }

  function WordRead(pages: map<int, UPage>, a: int): int {
    ByteAt(pages, a) + 256 * ByteAt(pages, a + 1) + 65536 * ByteAt(pages, a + 2) + 16777216 * ByteAt(pages, a + 3)
  }

  lemma {:induction false} BytesRead(pages: map<int, UPage>, a: int, ws: seq<Word>, i: nat)
    requires Holds(pages, a, Bytes(ws), 4 * |ws|) && i < |ws|
    ensures WordRead(pages, a + 4 * i) == ws[i]
    decreases |ws|
  {
    hide ByteAt;
    var n := |ws| - 1;
    var init := Bytes(ws[..n]);
    if i < n {
      forall x | a <= x < a + 4 * n ensures ByteAt(pages, x) == init[x - a] {
        assert Bytes(ws)[x - a] == init[x - a];
      }
      BytesRead(pages, a, ws[..n], i);
    } else {
      BytesOfWord(ws[n]);
      var b := Bytes(ws);
      assert b[4 * n] == ws[n] % 256 && b[4 * n + 1] == ws[n] / 256 % 256 && b[4 * n + 2] == ws[n] / 65536 % 256 &&
          b[4 * n + 3] == ws[n] / 16777216;
      assert ByteAt(pages, a + 4 * n) == b[4 * n] && ByteAt(pages, a + 4 * n + 1) == b[4 * n + 1];
      assert ByteAt(pages, a + 4 * n + 2) == b[4 * n + 2] && ByteAt(pages, a + 4 * n + 3) == b[4 * n + 3];
    }
  }

  /** An argument in the stack page, with its NUL. */
  ghost predicate IsArg(pages: map<int, UPage>, p: int, s: seq<Byte>, sz: nat) {
    sz - PGSIZE <= p && p + |s| < sz && Holds(pages, p, s + [0], |s| + 1)
  }

  /** What main finds at sp: the fake return PC, argc, argv, and at argv the arguments and a
      null pointer, all of it in the stack page. */
  ghost predicate Decodes(pages: map<int, UPage>, sp: int, argv: seq<seq<Byte>>, sz: nat) {
    && sz - PGSIZE <= sp && sp % 4 == 0 && sp + 4 * (4 + |argv|) <= sz
    && WordRead(pages, sp) == 0xffff_ffff
    && WordRead(pages, sp + 4) == |argv|
    && WordRead(pages, sp + 8) == sp + 12
    && (forall i :: 0 <= i < |argv| ==> IsArg(pages, WordRead(pages, sp + 12 + 4 * i), argv[i], sz))
    && WordRead(pages, sp + 12 + 4 * |argv|) == 0
  }

  /** exec returns -1 without room; NullTable is where it follows the null pointer of copyout. */
  datatype Pushed = Sp(sp: nat) | NoRoom | NullTable

  ghost predicate Stack(pages: map<int, UPage>, sz: nat) {
    && sz % PGSIZE == 0 && 2 * PGSIZE <= sz < KERNBASE
    && sz / PGSIZE - 1 in pages && sz / PGSIZE - 2 !in pages
  }

  /** allocuvm has mapped every page below sz, so each of them has a table. */
  ghost predicate Tables(tables: set<int>, sz: nat) {
    forall v :: 0 <= v < sz / PGSIZE ==> v / 1024 in tables
  }

  /** Argument i is the first one not to fit, and it is so long that the stack pointer wraps
      to an address without a page table. */
  predicate WrapsAt(argv: seq<seq<Byte>>, sz: nat, tables: set<int>, i: nat) {
    && i < |argv| && Top(argv, sz, i) >= sz - PGSIZE
    && Top(argv, sz, i + 1) < 0 && Top(argv, sz, i + 1) % UINT_LIMIT / PGSIZE / 1024 !in tables
  }

  /** (sp - n) & ~3 in 32 bits. */
  function Down(sp: nat, n: nat): (r: Word) {
    var x := (sp - n) % UINT_LIMIT;
    x - x % 4
  }

  /** The same, of unbounded integers. */
  function DownInt(sp: int, n: nat): int {
    sp - n - (sp - n) % 4
  }

  /** Where the stack pointer is after n arguments. */
  function Top(argv: seq<seq<Byte>>, sz: int, n: nat): int
    requires n <= |argv|
  {
    if n == 0 then sz else DownInt(Top(argv, sz, n - 1), |argv[n - 1]| + 1)
  }

  /** The arguments, their addresses and three words more take no more than a page. */
  ghost predicate Fits(argv: seq<seq<Byte>>, sz: nat) {
    Top(argv, sz, |argv|) - 4 * (4 + |argv|) >= sz - PGSIZE
  }

  lemma PageBelow(sz: nat, a: int)
    requires sz % PGSIZE == 0
    ensures sz - PGSIZE <= a < sz ==> a / PGSIZE == sz / PGSIZE - 1
    ensures sz - 2 * PGSIZE <= a < sz - PGSIZE ==> a / PGSIZE == sz / PGSIZE - 2
  {}

  lemma DownIs(sp: nat, n: nat)
    requires PGSIZE <= sp < KERNBASE && 0 < n <= KERNBASE
    ensures sp - 4 < DownInt(sp, n) + n <= sp
    ensures DownInt(sp, n) >= 0 ==> Down(sp, n) == DownInt(sp, n)
    ensures DownInt(sp, n) < 0 ==> Down(sp, n) >= KERNBASE
    ensures Down(sp, n) == DownInt(sp, n) % UINT_LIMIT
  {}

  lemma NoWrap(sp: nat, n: nat)
    requires PGSIZE <= sp && n < PGSIZE - 3
    ensures DownInt(sp, n) >= 0
  {}

  /** The first missing page of a range under sp has no table exactly when the range wraps
      to such a place: below sz there is a table everywhere. */
  lemma WhenNoTable(pages: map<int, UPage>, tables: set<int>, sz: nat, sp: nat, n: nat)
    requires Stack(pages, sz) && Tables(tables, sz) && sz - PGSIZE <= sp <= sz && sp % 4 == 0 && 0 < n <= KERNBASE
    requires forall v :: v in pages ==> 0 <= v < KERNBASE / PGSIZE
    ensures (exists k: nat :: k < n && NoTable(pages, tables, Down(sp, n), k)) <==>
              DownInt(sp, n) < 0 && DownInt(sp, n) % UINT_LIMIT / PGSIZE / 1024 !in tables
  {
    hide Down, DownInt;
    var d: int := Down(sp, n);
    DownIs(sp, n);
    if DownInt(sp, n) < 0 {
      assert Writable(pages, d, 0) && d / PGSIZE !in pages;
      FirstMissing(pages, tables, d, 0);
      assert NoTable(pages, tables, d, 0) <==> d / PGSIZE / 1024 !in tables;
    } else {
      forall k: nat | k < n ensures !NoTable(pages, tables, d, k) {
        assert (d + k) / PGSIZE < sz / PGSIZE;
      }
    }
  }

  lemma NeverFaults(pages: map<int, UPage>, tables: set<int>, sz: nat, sp: nat, va: Word, n: nat)
    requires Stack(pages, sz) && Tables(tables, sz) && sz - PGSIZE <= sp <= sz && sp % 4 == 0 && 0 < n < PGSIZE - 3
    requires va == Down(sp, n) && forall v :: v in pages ==> 0 <= v < KERNBASE / PGSIZE
    ensures forall k: nat :: k < n ==> !NoTable(pages, tables, va, k)
  {
    hide Down, DownInt, NoTable, Tables;
    NoWrap(sp, n);
    WhenNoTable(pages, tables, sz, sp, n);
  }

  lemma {:induction false} WrapsOnce(argv: seq<seq<Byte>>, sz: nat, tables: set<int>, n: nat)
    requires n <= |argv| && Top(argv, sz, n) >= sz - PGSIZE && sz >= PGSIZE
    ensures forall i: nat :: i < n || |argv| <= i ==> !WrapsAt(argv, sz, tables, i)
    ensures n < |argv| && Top(argv, sz, n + 1) < sz - PGSIZE ==>
            forall i: nat :: WrapsAt(argv, sz, tables, i) ==> i == n
  {
    forall i: nat | i < n ensures !WrapsAt(argv, sz, tables, i) {
      TopFalls(argv, sz, i + 1, n);
    }
    if n < |argv| && Top(argv, sz, n + 1) < sz - PGSIZE {
      forall i: nat | WrapsAt(argv, sz, tables, i) ensures i == n {
        if i > n {
          TopFalls(argv, sz, n + 1, i);
        }
      }
    }
  }

  /** A range that ends just under sp, which is in the stack page, may be written exactly
      when it starts in the stack page: else it meets the page under it or the kernel. */
  lemma InStack(pages: map<int, UPage>, sz: nat, sp: nat, n: nat)
    requires Stack(pages, sz) && sz - PGSIZE <= sp <= sz && sp % 4 == 0 && 0 < n <= KERNBASE
    requires forall v :: v in pages ==> 0 <= v < KERNBASE / PGSIZE
    ensures Writable(pages, Down(sp, n), n) <==> DownInt(sp, n) >= sz - PGSIZE
    ensures DownInt(sp, n) >= 0 ==> Down(sp, n) == DownInt(sp, n)
    ensures DownInt(sp, n) + n <= sp
  {
    hide Down, DownInt;
    var lo, p, d: int := sz - PGSIZE, DownInt(sp, n), Down(sp, n);
    DownIs(sp, n);
    if p >= lo {
      forall a | d <= a < d + n ensures a / PGSIZE in pages {
        PageBelow(sz, a);
      }
    } else if p >= 0 {
      var a := if p + n > lo then lo - 1 else p + n - 1;
      PageBelow(sz, a);
      assert d <= a < d + n && a / PGSIZE !in pages;
    } else {
      assert d <= d < d + n && d / PGSIZE !in pages;
    }
  }

  /** The strings pushed so far, all in the stack page and above sp. */
  ghost predicate Strings(pages: map<int, UPage>, argv: seq<seq<Byte>>, addrs: seq<Word>, n: nat, sp: int, sz: nat) {
    && n == |addrs| <= |argv|
    && forall i :: 0 <= i < n ==>
         sp <= addrs[i] && addrs[i] + |argv[i]| < sz && Holds(pages, addrs[i], argv[i] + [0], |argv[i]| + 1)
  }

  lemma HoldsKept(before: map<int, UPage>, after: map<int, UPage>, va: int, src: seq<Byte>, n: nat, lo: int, hi: int)
    requires n <= |src| && Holds(before, va, src, n) && hi <= va
    requires forall a :: !(lo <= a < hi) ==> ByteAt(after, a) == ByteAt(before, a)
    ensures Holds(after, va, src, n)
  {}

  lemma StringsNone(pages: map<int, UPage>, argv: seq<seq<Byte>>, sz: nat)
    ensures Strings(pages, argv, [], 0, sz, sz)
  {}

  lemma StringsMore(before: map<int, UPage>, after: map<int, UPage>, argv: seq<seq<Byte>>, addrs: seq<Word>, n: nat,
      was: int, sp: Word, sz: nat)
    requires Strings(before, argv, addrs, n, was, sz) && n < |argv| && was <= sz && sp + |argv[n]| + 1 <= was
    requires Holds(after, sp, argv[n] + [0], |argv[n]| + 1)
    requires forall a :: !(sp <= a < sp + |argv[n]| + 1) ==> ByteAt(after, a) == ByteAt(before, a)
    ensures Strings(after, argv, addrs + [sp], n + 1, sp, sz)
  {}

  lemma TopNext(argv: seq<seq<Byte>>, sz: int, n: nat)
    requires n < |argv|
    ensures Top(argv, sz, n + 1) == DownInt(Top(argv, sz, n), |argv[n]| + 1) && Top(argv, sz, n + 1) % 4 == 0
  {}

  /** The stack pointer only falls. */
  lemma {:induction false} TopFalls(argv: seq<seq<Byte>>, sz: int, n: nat, m: nat)
    requires n <= m <= |argv|
    ensures Top(argv, sz, m) <= Top(argv, sz, n)
    decreases m - n
  {
    if n < m {
      TopFalls(argv, sz, n + 1, m);
    }
  }

  lemma DecodesAll(before: map<int, UPage>, after: map<int, UPage>, argv: seq<seq<Byte>>, addrs: seq<Word>, was: int,
      sp: int, sz: nat)
    requires Strings(before, argv, addrs, |argv|, was, sz) && |argv| <= MAXARG && sp == was - 4 * (4 + |argv|) &&
             was <= sz < KERNBASE
    requires sz - PGSIZE <= sp && sp % 4 == 0 && 0 <= sp
    requires var b := Bytes(Ustack(addrs, was)); Holds(after, sp, b, |b|)
    requires forall a :: !(sp <= a < was) ==> ByteAt(after, a) == ByteAt(before, a)
    ensures Decodes(after, sp, argv, sz)
  {
    hide ByteAt, Holds, WordRead, Bytes;
    var ws := Ustack(addrs, was);
    BytesRead(after, sp, ws, 0);
    BytesRead(after, sp, ws, 1);
    BytesRead(after, sp, ws, 2);
    BytesRead(after, sp, ws, 3 + |argv|);
    assert sp + 4 * (3 + |argv|) == sp + 12 + 4 * |argv|;
    forall i | 0 <= i < |argv| ensures IsArg(after, WordRead(after, sp + 12 + 4 * i), argv[i], sz) {
      BytesRead(after, sp, ws, 3 + i);
      assert sp + 4 * (3 + i) == sp + 12 + 4 * i && ws[3 + i] == addrs[i];
      HoldsKept(before, after, addrs[i], argv[i] + [0], |argv[i]| + 1, sp, was);
    }
  }

  /** The C string at an address below end. */
  function ReadString(pages: map<int, UPage>, a: int, end: int): seq<Byte>
    decreases end - a
  {
    if a >= end || ByteAt(pages, a) == 0 then [] else [ByteAt(pages, a)] + ReadString(pages, a + 1, end)
  }

  /** An argument without NULs reads back as it was given. */
  lemma {:induction false} ArgReadsBack(pages: map<int, UPage>, p: int, s: seq<Byte>, sz: nat, k: nat)
    requires IsArg(pages, p, s, sz) && (forall i :: 0 <= i < |s| ==> s[i] != 0) && k <= |s|
    ensures ReadString(pages, p + k, sz) == s[k..]
    decreases |s| - k
  {
    hide ByteAt;
    assert ByteAt(pages, p + k) == (s + [0])[k];
    if k < |s| {
      ArgReadsBack(pages, p, s, sz, k + 1);
      assert s[k..] == [s[k]] + s[k + 1..];
    }
  }

  /** The page tables of an address space of one program page and a stack: those of the
      program, of physical memory above KERNBASE, and of the devices. */
  function SmallTables(): set<int> {
    set t | 0 <= t < 1024 && HasTable(t)
  }

  predicate HasTable(t: int) {
    t == 0 || 512 <= t < 568 || 1016 <= t
  }

  /** An argument of 64 megabytes takes the stack pointer to 0xfc000000, between the mapping
      of physical memory and that of the devices. */
  method LongArgument(page: UPage, c: Byte) returns (r: Pushed)
    ensures r.NullTable?
  {
    hide Holds, Decodes, Strings, Writable;
    var memory := new Memory(map[0 := page, 2 := page], SmallTables());
    var argv := [seq(3 * PGSIZE + 0x0400_0000 - 1, _ => c)];
    assert Top(argv, 3 * PGSIZE, 0) == 3 * PGSIZE;
    assert Top(argv, 3 * PGSIZE, 1) == -0x0400_0000;
    assert HasTable(0) && !HasTable(1008);
    assert WrapsAt(argv, 3 * PGSIZE, SmallTables(), 0);
    r := memory.PushArgs(argv, 3 * PGSIZE);
  }
}
