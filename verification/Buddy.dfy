/** The page allocator of core/mm.c: what the page table of the allocator means, on values. */
module Buddy {
  import opened Powers

  const NUM_OF_PAGES: nat := 32768
  const NUM_OF_ALLOCSIZE: nat := 13

  datatype PageType = Free | NotHead | Allocated | Reserved

  /** struct page, without its list links; allocsize is the level of a block. */
  datatype Page = Page(ptype: PageType, allocsize: nat)

  predicate Aligned(i: nat, n: nat) {
    i % Pow2(n) == 0
  }

  /** The bit of i with value 2^n. */
  predicate UpperHalf(i: nat, n: nat) {
    i / Pow2(n) % 2 == 1
  }

  /** i with the bit of value 2^n flipped: the address of the buddy. */
  function BuddyOf(i: nat, n: nat): (q: nat)
  {
    if UpperHalf(i, n) then
      DivMod(i, Pow2(n));
      assert i / Pow2(n) >= 1 && i / Pow2(n) * Pow2(n) >= Pow2(n);
      i - Pow2(n)
    else i + Pow2(n)
  }

  /** The number of trailing zero bits. */
  function TrailingZeros(i: nat): nat
    requires i > 0
  {
    if i % 2 == 1 then 0 else 1 + TrailingZeros(i / 2)
  }

  lemma AlignedIs(i: nat, n: nat) returns (k: nat)
    requires Aligned(i, n)
    ensures i == k * Pow2(n) && k == i / Pow2(n)
  {
    DivMod(i, Pow2(n));
    k := i / Pow2(n);
  }

  lemma IsAligned(k: nat, n: nat)
    ensures Aligned(k * Pow2(n), n) && k * Pow2(n) / Pow2(n) == k
  {
    DivUnique(k * Pow2(n), Pow2(n), k, 0);
  }

  /** The two halves of an aligned block of level n + 1. */
  lemma Halves(i: nat, n: nat)
    requires Aligned(i, n + 1)
    ensures Aligned(i, n) && Aligned(i + Pow2(n), n)
    ensures !UpperHalf(i, n) && UpperHalf(i + Pow2(n), n)
    ensures BuddyOf(i, n) == i + Pow2(n) && BuddyOf(i + Pow2(n), n) == i
    ensures TrailingZeros(i + Pow2(n)) == n
  {
    var k := AlignedIs(i, n + 1);
    assert i == (2 * k) * Pow2(n) && i + Pow2(n) == (2 * k + 1) * Pow2(n) by {
      assert k * (2 * Pow2(n)) == (2 * k) * Pow2(n);
    }
    IsAligned(2 * k, n);
    IsAligned(2 * k + 1, n);
    OddTrailing(2 * k + 1, n);
  }

  lemma {:induction false} OddTrailing(k: nat, n: nat)
    requires k % 2 == 1
    ensures k * Pow2(n) > 0 && TrailingZeros(k * Pow2(n)) == n
  {
    if n > 0 {
      var m := k * Pow2(n - 1);
      OddTrailing(k, n - 1);
      DoubleOut(k, Pow2(n - 1));
      assert k * Pow2(n) == 2 * m;
      EvenTrailing(m);
    } else {
      assert k * Pow2(0) == k;
    }
  }

  lemma DoubleOut(k: nat, p: nat)
    ensures k * (2 * p) == 2 * (k * p)
  {
  }

  lemma EvenTrailing(m: nat)
    requires m > 0
    ensures TrailingZeros(2 * m) == TrailingZeros(m) + 1
  {
  }

  /** A block and its buddy are the halves of an aligned block of the next level. */
  lemma Merge(i: nat, n: nat)
    requires Aligned(i, n)
    ensures var lo := if UpperHalf(i, n) then BuddyOf(i, n) else i;
      && Aligned(lo, n + 1)
      && (if UpperHalf(i, n) then i == lo + Pow2(n) else BuddyOf(i, n) == lo + Pow2(n))
    ensures Aligned(BuddyOf(i, n), n) && BuddyOf(BuddyOf(i, n), n) == i
  {
    var k := AlignedIs(i, n);
    var h, r := k / 2, k % 2;
    MulAdd(2 * h, r, Pow2(n));
    MulAssoc(h, 2, Pow2(n));
    assert h * Pow2(n + 1) + r * Pow2(n) == i;
    IsAligned(h, n + 1);
    Halves(h * Pow2(n + 1), n);
  }

  /** Aligned blocks are nested or disjoint. */
  lemma Nested(i: nat, n: nat, j: nat, m: nat)
    requires Aligned(i, n) && Aligned(j, m) && m <= n
    requires i <= j < i + Pow2(n)
    ensures j + Pow2(m) <= i + Pow2(n)
  {
    var a := AlignedIs(i, n);
    var b := AlignedIs(j, m);
    var c := PowSplit(n, m);
    MulAssoc(a, c, Pow2(m));
    var e := a * c;
    MulAdd(e, c, Pow2(m));
    MulAdd(b, 1, Pow2(m));
    if b >= e + c {
      MulMono(e + c, b, Pow2(m));
    } else {
      MulMono(b + 1, e + c, Pow2(m));
    }
  }

  /** An aligned block, and its buddy, lie within the pages. */
  lemma InPages(i: nat, n: nat)
    requires Aligned(i, n) && i < NUM_OF_PAGES && n <= 15
    ensures i + Pow2(n) <= NUM_OF_PAGES
    ensures n < 15 ==> BuddyOf(i, n) < NUM_OF_PAGES
  {
    Pow15();
    assert Aligned(0, 15);
    Nested(0, 15, i, n);
    if n < 15 {
      Merge(i, n);
      var lo := if UpperHalf(i, n) then BuddyOf(i, n) else i;
      assert lo <= i;
      Nested(0, 15, lo, n + 1);
    }
  }

  lemma Pow15()
    ensures Pow2(15) == NUM_OF_PAGES
  {
    assert Pow2(3) == 8;
    assert Pow2(6) == 64;
    assert Pow2(9) == 512;
    assert Pow2(12) == 4096;
  }

  /** The block that page i belongs to starts at head[i] and has the level stored there. Every page is in exactly
      one aligned block of 2^level pages; inside a block, a page holds its number of trailing zero bits. */
  ghost predicate PageOk(pages: seq<Page>, head: seq<nat>, i: nat)
    requires |pages| == |head| == NUM_OF_PAGES && i < NUM_OF_PAGES
  {
    var h := head[i];
    && h <= i && pages[h].ptype != NotHead && head[h] == h
    && pages[h].allocsize < NUM_OF_ALLOCSIZE
    && i < h + Pow2(pages[h].allocsize)
    && (i != h ==> pages[i].ptype == NotHead && pages[i].allocsize == TrailingZeros(i))
  }

  ghost predicate BlockOk(pages: seq<Page>, head: seq<nat>, h: nat)
    requires |pages| == |head| == NUM_OF_PAGES && h < NUM_OF_PAGES
  {
    && Aligned(h, pages[h].allocsize)
    && (pages[h].ptype == Reserved ==> pages[h].allocsize == 0)
    && h + Pow2(pages[h].allocsize) <= NUM_OF_PAGES
    && (forall j :: h <= j < h + Pow2(pages[h].allocsize) ==> head[j] == h)
  }

  ghost predicate Tiled(pages: seq<Page>, head: seq<nat>) {
    && |pages| == |head| == NUM_OF_PAGES
    && (forall i :: 0 <= i < NUM_OF_PAGES ==> PageOk(pages, head, i))
    && (forall h :: 0 <= h < NUM_OF_PAGES && head[h] == h ==> BlockOk(pages, head, h))
  }

  ghost predicate FreeAt(pages: seq<Page>, head: seq<nat>, i: nat)
    requires Tiled(pages, head) && i < NUM_OF_PAGES
  {
    assert PageOk(pages, head, i);
    pages[head[i]].ptype == Free
  }

  /** The pages of free blocks. */
  ghost function FreePages(pages: seq<Page>, head: seq<nat>): set<nat>
    requires Tiled(pages, head)
  {
    set i: nat | i < NUM_OF_PAGES && FreeAt(pages, head, i)
  }

  /** The free blocks, by first page and level. */
  ghost function FreeBlocks(pages: seq<Page>): set<(nat, nat)> {
    set i: nat | i < |pages| && pages[i].ptype == Free :: (i, pages[i].allocsize)
  }

  /** Free blocks of one level below the top level. */
  predicate FreeBuddies(p: Page, q: Page) {
    p.ptype == Free && q.ptype == Free && q.allocsize == p.allocsize < NUM_OF_ALLOCSIZE - 1
  }

  /** No two buddies below the top level are both free. */
  ghost predicate Canonical(pages: seq<Page>) {
    forall i, q :: 0 <= i < |pages| && 0 <= q < |pages| && FreeBuddies(pages[i], pages[q]) ==>
      q != BuddyOf(i, pages[i].allocsize)
  }

  /** The 2^k pages from b on are all free. */
  ghost predicate RunFree(pages: seq<Page>, head: seq<nat>, b: nat, k: nat)
    requires Tiled(pages, head)
  {
    b + Pow2(k) <= NUM_OF_PAGES && forall i :: b <= i < b + Pow2(k) ==> FreeAt(pages, head, i)
  }

  /** In canonical form, an aligned run of free pages lies within one free block. */
  lemma {:induction false} RunInOneBlock(pages: seq<Page>, head: seq<nat>, b: nat, k: nat)
    requires Tiled(pages, head) && Canonical(pages)
    requires Aligned(b, k) && k < NUM_OF_ALLOCSIZE && RunFree(pages, head, b, k)
    ensures Holds(pages, head, b, k)
    decreases k
  {
    if k == 0 {
      assert FreeAt(pages, head, b) && PageOk(pages, head, b) && BlockOk(pages, head, head[b]);
    } else {
      Halves(b, k - 1);
      assert RunFree(pages, head, b, k - 1) && RunFree(pages, head, b + Pow2(k - 1), k - 1);
      RunInOneBlock(pages, head, b, k - 1);
      RunInOneBlock(pages, head, b + Pow2(k - 1), k - 1);
      JoinHalves(pages, head, b, k - 1);
    }
  }

  /** The block of page b is free and includes the run of 2^k pages at b. */
  ghost predicate Holds(pages: seq<Page>, head: seq<nat>, b: nat, k: nat)
    requires Tiled(pages, head) && b < NUM_OF_PAGES
  {
    assert PageOk(pages, head, b);
    var h := head[b];
    pages[h].ptype == Free && pages[h].allocsize >= k && b + Pow2(k) <= h + Pow2(pages[h].allocsize)
  }

  lemma JoinHalves(pages: seq<Page>, head: seq<nat>, b: nat, n: nat)
    requires Tiled(pages, head) && Canonical(pages)
    requires Aligned(b, n + 1) && n + 1 < NUM_OF_ALLOCSIZE && b + Pow2(n + 1) <= NUM_OF_PAGES
    requires Holds(pages, head, b, n) && Holds(pages, head, b + Pow2(n), n)
    ensures Holds(pages, head, b, n + 1)
  {
    var c: nat := b + Pow2(n);
    var h: nat, h': nat := head[b], head[c];
    assert PageOk(pages, head, b) && BlockOk(pages, head, h);
    assert PageOk(pages, head, c) && BlockOk(pages, head, h');
    Halves(b, n);
    var buddies := FreeBuddies(pages[b], pages[c]);
    if pages[h].allocsize > n {
      Nested(h, pages[h].allocsize, b, n + 1);
    } else if pages[h'].allocsize > n {
      AlignedDown(h', pages[h'].allocsize, n + 1);
      Below(b, n + 1, h');
    } else {
      Below(h', n, c);
      Below(h, n, b);
    }
  }

  /** A page aligned like a block does not lie inside it. */
  lemma Below(b: nat, n: nat, j: nat)
    requires Aligned(b, n) && Aligned(j, n) && j < b + Pow2(n)
    ensures j <= b
  {
    if j > b {
      Nested(b, n, j, n);
    }
  }

  lemma AlignedDown(i: nat, n: nat, m: nat)
    requires Aligned(i, n) && m <= n
    ensures Aligned(i, m)
  {
    var a := AlignedIs(i, n);
    var c := PowSplit(n, m);
    MulAssoc(a, c, Pow2(m));
    IsAligned(a * c, m);
  }

  /** The free blocks of a canonical state are determined by the set of free pages. */
  lemma FreeBlocksDetermined(pages: seq<Page>, head: seq<nat>, pages': seq<Page>, head': seq<nat>)
    requires Tiled(pages, head) && Canonical(pages) && Tiled(pages', head') && Canonical(pages')
    requires FreePages(pages, head) == FreePages(pages', head')
    ensures FreeBlocks(pages) == FreeBlocks(pages')
  {
    forall x | x in FreeBlocks(pages) ensures x in FreeBlocks(pages') {
      BlockStays(pages, head, pages', head', x.0);
    }
    forall x | x in FreeBlocks(pages') ensures x in FreeBlocks(pages) {
      BlockStays(pages', head', pages, head, x.0);
    }
  }

  lemma BlockStays(pages: seq<Page>, head: seq<nat>, pages': seq<Page>, head': seq<nat>, h: nat)
    requires Tiled(pages, head) && Canonical(pages) && Tiled(pages', head') && Canonical(pages')
    requires FreePages(pages, head) == FreePages(pages', head')
    requires h < NUM_OF_PAGES && pages[h].ptype == Free
    ensures pages'[h].ptype == Free && pages'[h].allocsize == pages[h].allocsize
  {
    var n := pages[h].allocsize;
    HeadOfItself(pages, head, h);
    RunIsFree(pages, head, h);
    forall i | h <= i < h + Pow2(n) ensures FreeAt(pages', head', i) {
      assert i in FreePages(pages, head);
      assert i in FreePages(pages', head');
    }
    RunInOneBlock(pages', head', h, n);
    assert PageOk(pages', head', h);
    var h' := head'[h];
    var n' := pages'[h'].allocsize;
    assert BlockOk(pages', head', h');
    HeadOfItself(pages', head', h');
    RunIsFree(pages', head', h');
    forall i | h' <= i < h' + Pow2(n') ensures FreeAt(pages, head, i) {
      assert i in FreePages(pages', head');
      assert i in FreePages(pages, head);
    }
    RunInOneBlock(pages, head, h', n');
    var g := head[h'];
    assert PageOk(pages, head, h') && BlockOk(pages, head, g);
    assert head[h] == g;
  }

  lemma HeadOfItself(pages: seq<Page>, head: seq<nat>, h: nat)
    requires Tiled(pages, head) && h < NUM_OF_PAGES && pages[h].ptype != NotHead
    ensures head[h] == h && BlockOk(pages, head, h) && pages[h].allocsize < NUM_OF_ALLOCSIZE
    ensures h + Pow2(pages[h].allocsize) <= NUM_OF_PAGES
  {
    assert PageOk(pages, head, h);
    assert BlockOk(pages, head, h);
    InPages(h, pages[h].allocsize);
  }

  lemma RunIsFree(pages: seq<Page>, head: seq<nat>, h: nat)
    requires Tiled(pages, head) && h < NUM_OF_PAGES && pages[h].ptype == Free && head[h] == h && BlockOk(pages, head, h)
    ensures forall i :: h <= i < h + Pow2(pages[h].allocsize) ==> i < NUM_OF_PAGES && FreeAt(pages, head, i)
  {
    HeadOfItself(pages, head, h);
    forall i | h <= i < h + Pow2(pages[h].allocsize)
      ensures i < NUM_OF_PAGES && FreeAt(pages, head, i)
    {
      assert head[i] == h;
    }
  }

  predicate InRun(i: nat, h: nat, n: nat) {
    h <= i < h + Pow2(n)
  }

  /** The pages of a block. */
  ghost function Run(h: nat, n: nat): (r: set<nat>)
    ensures |r| == Pow2(n)
    ensures forall i: nat :: i in r <==> InRun(i, h, n)
  {
    Range(h, Pow2(n))
  }

  ghost function Range(h: nat, k: nat): (r: set<nat>)
    ensures |r| == k
    ensures forall i: nat :: i in r <==> h <= i < h + k
  {
    if k == 0 then {} else Range(h, k - 1) + {h + k - 1}
  }

  lemma HeadInside(pages: seq<Page>, head: seq<nat>, h: nat, i: nat)
    requires Tiled(pages, head) && h < NUM_OF_PAGES && head[h] == h && i < NUM_OF_PAGES
    ensures InRun(i, h, pages[h].allocsize) <==> head[i] == h
  {
    assert PageOk(pages, head, i) && BlockOk(pages, head, h);
  }

  /** A block changes hands: it becomes free, owned or reserved as a whole. */
  lemma Retype(pages: seq<Page>, head: seq<nat>, h: nat, t: PageType)
    requires Tiled(pages, head) && h < NUM_OF_PAGES && head[h] == h
    requires t != NotHead && (t == Reserved ==> pages[h].allocsize == 0)
    ensures var pages' := pages[h := pages[h].(ptype := t)];
      && Tiled(pages', head)
      && forall i :: 0 <= i < NUM_OF_PAGES ==>
           FreeAt(pages', head, i) == if InRun(i, h, pages[h].allocsize) then t == Free else FreeAt(pages, head, i)
  {
    var pages' := pages[h := pages[h].(ptype := t)];
    forall i | 0 <= i < NUM_OF_PAGES ensures PageOk(pages', head, i) {
      assert PageOk(pages, head, i);
    }
    forall i | 0 <= i < NUM_OF_PAGES && head[i] == i ensures BlockOk(pages', head, i) {
      assert BlockOk(pages, head, i);
    }
    forall i | 0 <= i < NUM_OF_PAGES
      ensures FreeAt(pages', head, i) == if InRun(i, h, pages[h].allocsize) then t == Free else FreeAt(pages, head, i)
    {
      HeadInside(pages, head, h, i);
      assert PageOk(pages, head, i);
    }
  }

  /** An owned block of level n + 1 becomes two free blocks of level n. The page that starts the upper half
      already holds level n, its number of trailing zero bits. */
  lemma SplitBlock(pages: seq<Page>, head: seq<nat>, h: nat, n: nat)
    requires Tiled(pages, head) && h < NUM_OF_PAGES && pages[h] == Page(Allocated, n + 1)
    ensures n + 1 < NUM_OF_ALLOCSIZE && BuddyOf(h, n) == h + Pow2(n) < NUM_OF_PAGES
    ensures var q := h + Pow2(n);
      && pages[q] == Page(NotHead, n)
      && var pages', head' := pages[h := Page(Free, n)][q := Page(Free, n)], Rehead(head, q, n, q);
      && Tiled(pages', head')
      && forall i :: 0 <= i < NUM_OF_PAGES ==>
           FreeAt(pages', head', i) == (InRun(i, h, n + 1) || FreeAt(pages, head, i))
  {
    SplitUpper(pages, head, h, n);
    var q := h + Pow2(n);
    var pages', head' := pages[h := Page(Free, n)][q := Page(Free, n)], Rehead(head, q, n, q);
    forall i | 0 <= i < NUM_OF_PAGES ensures PageOk(pages', head', i) {
      SplitPageOk(pages, head, pages', head', h, n, i);
    }
    forall i | 0 <= i < NUM_OF_PAGES && head'[i] == i ensures BlockOk(pages', head', i) {
      SplitBlockOk(pages, head, h, n, i);
    }
    forall i | 0 <= i < NUM_OF_PAGES
      ensures FreeAt(pages', head', i) == (InRun(i, h, n + 1) || FreeAt(pages, head, i))
    {
      SplitFreeAt(pages, head, pages', head', h, n, i);
    }
  }

  lemma SplitUpper(pages: seq<Page>, head: seq<nat>, h: nat, n: nat)
    requires Tiled(pages, head) && h < NUM_OF_PAGES && pages[h] == Page(Allocated, n + 1)
    ensures n + 1 < NUM_OF_ALLOCSIZE && BuddyOf(h, n) == h + Pow2(n) < NUM_OF_PAGES
    ensures pages[h + Pow2(n)] == Page(NotHead, n)
    ensures head[h] == h && Aligned(h, n) && Aligned(h + Pow2(n), n) && BlockOk(pages, head, h)
  {
    HeadOfItself(pages, head, h);
    Halves(h, n);
    assert BlockOk(pages, head, h);
    assert PageOk(pages, head, h + Pow2(n));
  }

  lemma SplitPageOk(pages: seq<Page>, head: seq<nat>, pages': seq<Page>, head': seq<nat>, h: nat, n: nat, i: nat)
    requires Tiled(pages, head) && h < NUM_OF_PAGES && pages[h] == Page(Allocated, n + 1) && head[h] == h
    requires h + Pow2(n) < NUM_OF_PAGES && BlockOk(pages, head, h) && i < NUM_OF_PAGES && n + 1 < NUM_OF_ALLOCSIZE
    requires pages[h + Pow2(n)] == Page(NotHead, n)
    requires var q := h + Pow2(n);
      pages' == pages[h := Page(Free, n)][q := Page(Free, n)] && head' == Rehead(head, q, n, q)
    ensures PageOk(pages', head', i)
  {
    HeadInside(pages, head, h, i);
    assert PageOk(pages, head, i);
  }

  lemma SplitFreeAt(pages: seq<Page>, head: seq<nat>, pages': seq<Page>, head': seq<nat>, h: nat, n: nat, i: nat)
    requires Tiled(pages, head) && h < NUM_OF_PAGES && pages[h] == Page(Allocated, n + 1) && head[h] == h
    requires h + Pow2(n) < NUM_OF_PAGES && i < NUM_OF_PAGES && Tiled(pages', head')
    requires pages[h + Pow2(n)] == Page(NotHead, n)
    requires var q := h + Pow2(n);
      pages' == pages[h := Page(Free, n)][q := Page(Free, n)] && head' == Rehead(head, q, n, q)
    ensures FreeAt(pages', head', i) == (InRun(i, h, n + 1) || FreeAt(pages, head, i))
  {
    HeadInside(pages, head, h, i);
    assert PageOk(pages, head, i);
  }

  lemma SplitBlockOk(pages: seq<Page>, head: seq<nat>, h: nat, n: nat, i: nat)
    requires Tiled(pages, head) && h < NUM_OF_PAGES && pages[h] == Page(Allocated, n + 1) && head[h] == h
    requires Aligned(h, n) && Aligned(h + Pow2(n), n) && BlockOk(pages, head, h)
    requires i < NUM_OF_PAGES && Rehead(head, h + Pow2(n), n, h + Pow2(n))[i] == i
    ensures var q := h + Pow2(n);
      q < NUM_OF_PAGES && BlockOk(pages[h := Page(Free, n)][q := Page(Free, n)], Rehead(head, q, n, q), i)
  {
    var q := h + Pow2(n);
    if i != h && i != q {
      HeadInside(pages, head, h, i);
      assert BlockOk(pages, head, i);
      forall j | i <= j < i + Pow2(pages[i].allocsize) ensures head[j] != h {
        HeadInside(pages, head, h, j);
      }
    }
  }

  /** head with the 2^n pages from q on given to the block at h. */
  ghost function Rehead(head: seq<nat>, q: nat, n: nat, h: nat): (r: seq<nat>)
    ensures |r| == |head|
    ensures forall j :: 0 <= j < |head| ==> r[j] == if q <= j < q + Pow2(n) then h else head[j]
  {
    seq(|head|, j requires 0 <= j < |head| => if q <= j < q + Pow2(n) then h else head[j])
  }

  /** Two free buddies of level n become one free block of level n + 1. */
  lemma MergeBlocks(pages: seq<Page>, head: seq<nat>, lo: nat, n: nat)
    requires Tiled(pages, head) && Aligned(lo, n + 1) && n + 1 < NUM_OF_ALLOCSIZE
    requires var hi := lo + Pow2(n); hi < NUM_OF_PAGES && pages[lo] == pages[hi] == Page(Free, n)
    ensures var hi := lo + Pow2(n);
      && var pages', head' := pages[hi := Page(NotHead, n)][lo := Page(Free, n + 1)], Rehead(head, hi, n, lo);
      && Tiled(pages', head')
      && forall i :: 0 <= i < NUM_OF_PAGES ==> FreeAt(pages', head', i) == FreeAt(pages, head, i)
  {
    Halves(lo, n);
    var hi := lo + Pow2(n);
    HeadOfItself(pages, head, lo);
    HeadOfItself(pages, head, hi);
    var pages', head' := pages[hi := Page(NotHead, n)][lo := Page(Free, n + 1)], Rehead(head, hi, n, lo);
    forall i | 0 <= i < NUM_OF_PAGES ensures PageOk(pages', head', i) {
      HeadInside(pages, head, lo, i);
      HeadInside(pages, head, hi, i);
      assert PageOk(pages, head, i);
    }
    forall i | 0 <= i < NUM_OF_PAGES && head'[i] == i ensures BlockOk(pages', head', i) {
      MergeBlockOk(pages, head, lo, n, i);
    }
    forall i | 0 <= i < NUM_OF_PAGES
      ensures FreeAt(pages', head', i) == FreeAt(pages, head, i)
    {
      HeadInside(pages, head, hi, i);
      assert PageOk(pages, head, i);
    }
  }

  lemma MergeBlockOk(pages: seq<Page>, head: seq<nat>, lo: nat, n: nat, i: nat)
    requires Tiled(pages, head) && Aligned(lo, n + 1) && n + 1 < NUM_OF_ALLOCSIZE
    requires var hi := lo + Pow2(n);
      hi < NUM_OF_PAGES && pages[lo] == pages[hi] == Page(Free, n) && head[lo] == lo && head[hi] == hi
    requires i < NUM_OF_PAGES && Rehead(head, lo + Pow2(n), n, lo)[i] == i
    ensures var hi := lo + Pow2(n);
      BlockOk(pages[hi := Page(NotHead, n)][lo := Page(Free, n + 1)], Rehead(head, hi, n, lo), i)
  {
    var hi := lo + Pow2(n);
    assert BlockOk(pages, head, lo) && BlockOk(pages, head, hi);
    if i != lo {
      HeadInside(pages, head, hi, i);
      assert BlockOk(pages, head, i);
      forall j | i <= j < i + Pow2(pages[i].allocsize) ensures head[j] != hi {
        HeadInside(pages, head, hi, j);
      }
    }
  }
}
