/** The page allocator of core/mm.c: pagestruct and list1_freepage, updated in place. */
module PageAllocator {
  import opened Lists
  import opened Powers
  import opened Buddy
  import opened Wrappers

  /** list1_freepage[n] holds the free blocks of level n. */
  ghost predicate ListsOk(pages: seq<Page>, lists: seq<seq<nat>>) {
    && |lists| == NUM_OF_ALLOCSIZE
    && (forall n :: 0 <= n < NUM_OF_ALLOCSIZE ==> NoDup(lists[n]))
    && (forall n: nat, p: nat {:trigger p in lists[n]} :: n < NUM_OF_ALLOCSIZE ==>
          (p in lists[n] <==> p < |pages| && pages[p] == Page(Free, n)))
  }

  class Mm {
    var pages: array<Page>

    /** mm_init_global: every page is reserved, then the usable ones are freed one at a time. */
    constructor (usable: set<nat>)
      ensures Valid() && Canonical(pages[..])
      ensures forall i :: 0 <= i < NUM_OF_PAGES ==> (FreeAt(pages[..], head, i) <==> i in usable)
      ensures forall i :: 0 <= i < NUM_OF_PAGES ==> pages[i].ptype != Allocated
      ensures fresh(pages)
    {
      pages := new Page[NUM_OF_PAGES](i => Page(Reserved, 0));
      lists := seq(NUM_OF_ALLOCSIZE, _ => []);
      head := seq(NUM_OF_PAGES, i => i);
      new;
      assert Pow2(0) == 1;
      assert forall i :: 0 <= i < NUM_OF_PAGES ==> PageOk(pages[..], head, i) && BlockOk(pages[..], head, i);
      for i := 0 to NUM_OF_PAGES
        modifies this, pages
        invariant Valid() && Canonical(pages[..]) && fresh(pages)
        invariant forall j :: i <= j < NUM_OF_PAGES ==> pages[j].ptype == Reserved
        invariant forall j :: 0 <= j < NUM_OF_PAGES ==> pages[j].ptype != Allocated
        invariant forall j :: 0 <= j < NUM_OF_PAGES ==> (FreeAt(pages[..], head, j) <==> j < i && j in usable)
      {
        HeadOfItself(pages[..], head, i);
        if i in usable {
          FreePage(i);
        }
      }
    }
    var lists: seq<seq<nat>>
    ghost var head: seq<nat>

    ghost predicate Valid()
      reads this, pages
    {
      Tiled(pages[..], head) && ListsOk(pages[..], lists)
    }

    /** The first critical section of mm_page_alloc: the head of list n, if any, becomes owned. */
    method PopLocked(n: nat) returns (r: Option<nat>)
      requires Valid() && n < NUM_OF_ALLOCSIZE
      modifies pages, `lists
      ensures Valid() && pages == old(pages)
      ensures old(lists[n]) == [] ==> r == None && pages[..] == old(pages[..]) && lists == old(lists)
      ensures old(lists[n]) != [] ==> r == Some(old(lists[n])[0]) && r.value < NUM_OF_PAGES
      ensures r.Some? ==> old(pages[..])[r.value] == Page(Free, n)
      ensures r.Some? ==> pages[..] == old(pages[..])[r.value := Page(Allocated, n)]
      ensures r.Some? ==> lists == old(lists)[n := old(lists[n])[1..]]
      ensures r.Some? ==> forall i :: 0 <= i < NUM_OF_PAGES ==>
                FreeAt(pages[..], head, i) == (FreeAt(old(pages[..]), head, i) && !InRun(i, r.value, n))
    {
      if lists[n] == [] {
        return None;
      }
      var p := lists[n][0];
      assert p in lists[n];
      HeadTail(lists[n]);
      HeadOfItself(pages[..], head, p);
      Retype(pages[..], head, p, Allocated);
      lists := lists[n := lists[n][1..]];
      var oldType := pages[p].ptype;
      pages[p] := pages[p].(ptype := Allocated);
      assert pages[..] == old(pages[..])[p := Page(Allocated, n)];
      assert oldType == Free;
      return Some(p);
    }

    /** The second critical section of mm_page_alloc: a block of level n + 1 owned by the caller is split. The
        level of the upper half is not stored. */
    method SplitLocked(p: nat, n: nat)
      requires Valid() && p < NUM_OF_PAGES && pages[p] == Page(Allocated, n + 1)
      modifies pages, `lists, `head
      ensures Valid() && pages == old(pages)
      ensures n + 1 < NUM_OF_ALLOCSIZE && p + Pow2(n) < NUM_OF_PAGES && BuddyOf(p, n) == p + Pow2(n)
      ensures pages[..] == old(pages[..])[p := Page(Free, n)][p + Pow2(n) := Page(Free, n)]
      ensures lists == old(lists)[n := old(lists)[n] + [p, p + Pow2(n)]]
      ensures forall i :: 0 <= i < NUM_OF_PAGES ==>
        FreeAt(pages[..], head, i) == (FreeAt(old(pages[..]), old(head), i) || InRun(i, p, n + 1))
    {
      SplitBlock(pages[..], head, p, n);
      var q := BuddyOf(p, n);
      NoDupAdd(lists[n], p);
      NoDupAdd(lists[n] + [p], q);
      pages[p] := pages[p].(allocsize := n);
      pages[p] := pages[p].(ptype := Free);
      pages[q] := pages[q].(ptype := Free);
      lists := lists[n := lists[n] + [p]];
      lists := lists[n := lists[n] + [q]];
      head := Rehead(head, q, n, q);
      assert pages[..] == old(pages[..])[p := Page(Free, n)][q := Page(Free, n)];
      assert old(lists)[n] + [p] + [q] == old(lists)[n] + [p, q];
    }

    /** mm_page_free: an owned (or reserved) block becomes free and is merged with free buddies of its level. */
    method FreePage(p: nat)
      requires Valid() && p < NUM_OF_PAGES && pages[p].ptype in {Allocated, Reserved}
      modifies pages, `lists, `head
      ensures Valid() && pages == old(pages)
      ensures forall i :: 0 <= i < NUM_OF_PAGES ==>
        FreeAt(pages[..], head, i) == (FreeAt(old(pages[..]), old(head), i) || InRun(i, p, old(pages[p].allocsize)))
      ensures KeepsOwned(old(pages[..]), pages[..], p) && pages[p].ptype !in {Allocated, Reserved}
      ensures Canonical(old(pages[..])) ==> Canonical(pages[..])
    {
      MarkFree(p);
      MergeUp(p);
    }

    /** mm_page_free before its loop. */
    method MarkFree(p: nat)
      requires Valid() && p < NUM_OF_PAGES && pages[p].ptype in {Allocated, Reserved}
      modifies pages, `lists
      ensures Valid() && pages == old(pages)
      ensures pages[..] == old(pages[..])[p := Page(Free, old(pages[p].allocsize))]
      ensures var n := old(pages[p].allocsize); n < |old(lists)| && lists == old(lists)[n := old(lists)[n] + [p]]
      ensures forall i :: 0 <= i < NUM_OF_PAGES ==>
        FreeAt(pages[..], head, i) == (FreeAt(old(pages[..]), head, i) || InRun(i, p, old(pages[p].allocsize)))
    {
      var n := pages[p].allocsize;
      HeadOfItself(pages[..], head, p);
      Retype(pages[..], head, p, Free);
      NoDupAdd(lists[n], p);
      pages[p] := pages[p].(ptype := Free);
      lists := lists[n := lists[n] + [p]];
      assert pages[..] == old(pages[..])[p := Page(Free, n)];
    }

    /** The loop of mm_page_free. */
    method MergeUp(p: nat)
      requires Valid() && p < NUM_OF_PAGES && pages[p].ptype == Free
      modifies pages, `lists, `head
      ensures Valid() && pages == old(pages)
      ensures forall i :: 0 <= i < NUM_OF_PAGES ==> FreeAt(pages[..], head, i) == FreeAt(old(pages[..]), old(head), i)
      ensures KeepsOwned(old(pages[..]), pages[..], NUM_OF_PAGES)
      ensures CanonicalBut(old(pages[..]), p) ==> Canonical(pages[..])
    {
      HeadOfItself(pages[..], head, p);
      var cur: nat, n := p, pages[p].allocsize;
      while n < NUM_OF_ALLOCSIZE - 1 && BuddyIsFree(cur, n)
        invariant Valid() && cur < NUM_OF_PAGES && pages[cur] == Page(Free, n) && n < NUM_OF_ALLOCSIZE
        invariant forall i :: 0 <= i < NUM_OF_PAGES ==>
          FreeAt(pages[..], head, i) == FreeAt(old(pages[..]), old(head), i)
        invariant KeepsOwned(old(pages[..]), pages[..], NUM_OF_PAGES)
        invariant CanonicalBut(old(pages[..]), p) ==> CanonicalBut(pages[..], cur)
        decreases NUM_OF_ALLOCSIZE - n
      {
        cur := MergeStep(cur, n);
        n := n + 1;
      }
      if n < NUM_OF_ALLOCSIZE - 1 {
        HeadOfItself(pages[..], head, cur);
        InPages(cur, n);
      }
      CanonicalAll(pages[..], head, cur);
    }

    /** The test of the loop of mm_page_free. */
    predicate BuddyIsFree(p: nat, n: nat)
      requires Valid() && p < NUM_OF_PAGES && pages[p] == Page(Free, n) && n < NUM_OF_ALLOCSIZE - 1
      reads this, pages
    {
      HeadOfItself(pages[..], head, p);
      InPages(p, n);
      var q := BuddyOf(p, n);
      pages[q].ptype == Free && pages[q].allocsize == n
    }

    /** One round of the loop of mm_page_free. */
    method MergeStep(cur: nat, n: nat) returns (p: nat)
      requires Valid() && cur < NUM_OF_PAGES && pages[cur] == Page(Free, n) && n < NUM_OF_ALLOCSIZE - 1
      requires BuddyIsFree(cur, n)
      modifies pages, `lists, `head
      ensures Valid() && pages == old(pages) && p < NUM_OF_PAGES && pages[p] == Page(Free, n + 1)
      ensures forall i :: 0 <= i < NUM_OF_PAGES ==> FreeAt(pages[..], head, i) == FreeAt(old(pages[..]), old(head), i)
      ensures KeepsOwned(old(pages[..]), pages[..], NUM_OF_PAGES)
      ensures CanonicalBut(old(pages[..]), cur) ==> CanonicalBut(pages[..], p)
    {
      HeadOfItself(pages[..], head, cur);
      InPages(cur, n);
      Merge(cur, n);
      p := cur;
      var q := BuddyOf(p, n);
      if UpperHalf(p, n) {
        p, q := q, p;
      }
      MergeBlocks(pages[..], head, p, n);
      ListsMerged(pages[..], lists, p, q, n);
      MergeCanonical(pages[..], head, p, q, cur, n);
      lists := lists[n := Del(Del(lists[n], p), q)];
      pages[q] := pages[q].(ptype := NotHead);
      pages[p] := pages[p].(allocsize := n + 1);
      lists := lists[n + 1 := lists[n + 1] + [p]];
      head := Rehead(head, q, n, p);
      assert pages[..] == old(pages[..])[q := Page(NotHead, n)][p := Page(Free, n + 1)];
    }

    /** mm_page_alloc, run to completion without interference. None is the failed ASSERT past the top level. */
    method Alloc(n: nat) returns (r: Option<nat>)
      requires Valid() && Canonical(pages[..]) && n <= NUM_OF_ALLOCSIZE
      modifies pages, `lists, `head
      ensures Valid() && Canonical(pages[..]) && pages == old(pages)
      ensures r.None? ==> pages[..] == old(pages[..]) && head == old(head) && lists == old(lists)
      ensures r.None? ==> forall m :: n <= m < NUM_OF_ALLOCSIZE ==> lists[m] == []
      ensures r.Some? ==> Allocates(old(pages[..]), old(head), pages[..], head, r.value, n)
      ensures forall m :: 0 <= m < n && m < NUM_OF_ALLOCSIZE ==> lists[m] == old(lists[m])
      decreases NUM_OF_ALLOCSIZE - n
    {
      if n >= NUM_OF_ALLOCSIZE {
        return None;
      }
      r := PopLocked(n);
      if r.Some? {
        PoppedRun(old(pages[..]), pages[..], head, r.value, n);
        PopKeepsCanonical(old(pages[..]), pages[..], r.value);
        return;
      }
      r := Alloc(n + 1);
      if r.Some? {
        ghost var mid, midHead := pages[..], head;
        SplitAndPop(r.value, n);
        AllocatesHalf(old(pages[..]), old(head), mid, midHead, pages[..], head, r.value, n);
      }
    }

    /** The rest of the loop of mm_page_alloc: the upper half of the block just split stays free. */
    method SplitAndPop(b: nat, n: nat)
      requires Valid() && Canonical(pages[..]) && b < NUM_OF_PAGES && pages[b] == Page(Allocated, n + 1)
      requires n < NUM_OF_ALLOCSIZE && lists[n] == []
      modifies pages, `lists, `head
      ensures Valid() && Canonical(pages[..]) && pages == old(pages)
      ensures pages[b] == Page(Allocated, n)
      ensures forall i :: 0 <= i < NUM_OF_PAGES ==>
        FreeAt(pages[..], head, i) == ((FreeAt(old(pages[..]), old(head), i) || InRun(i, b, n + 1)) && !InRun(i, b, n))
      ensures KeepsOwned(old(pages[..]), pages[..], b)
      ensures forall m :: 0 <= m < NUM_OF_ALLOCSIZE && m != n ==> lists[m] == old(lists[m])
    {
      SplitLocked(b, n);
      assert lists[n] == [b, b + Pow2(n)];
      SplitKeepsOwned(old(pages[..]), pages[..], old(head), b, n);
      var p := PopLocked(n);
      assert pages[..] == old(pages[..])[b := Page(Allocated, n)][b + Pow2(n) := Page(Free, n)];
      PopCanonical(old(pages[..]), pages[..], old(head), b, n);
    }

    /** alloc_pages followed by free_page: the free lists hold the same blocks as before. */
    method AllocThenFree(n: nat) returns (ok: bool)
      requires Valid() && Canonical(pages[..]) && n < NUM_OF_ALLOCSIZE
      modifies pages, `lists, `head
      ensures Valid() && Canonical(pages[..]) && pages == old(pages)
      ensures FreeBlocks(pages[..]) == old(FreeBlocks(pages[..]))
      ensures ok <==> exists b :: Aligned(b, n) && RunFree(old(pages[..]), old(head), b, n)
    {
      NoRun(pages[..], head, lists, n);
      var r := Alloc(n);
      ok := r.Some?;
      if ok {
        FreePage(r.value);
      }
      FreeBlocksDetermined(old(pages[..]), old(head), pages[..], head);
    }

    /** num_of_available_pages. */
    method NumAvailable() returns (r: nat)
      requires Valid()
      ensures r == |FreePages(pages[..], head)|
    {
      r := 0;
      ghost var seen: set<nat> := {};
      for i := 0 to NUM_OF_ALLOCSIZE
        invariant r == |seen|
        invariant forall j: nat :: j in seen <==>
          j < NUM_OF_PAGES && FreeAt(pages[..], head, j) && LevelAt(pages[..], head, j) < i
      {
        var n := 0;
        ghost var base := seen;
        for k := 0 to |lists[i]|
          invariant n == k && |seen| == |base| + n * Pow2(i)
          invariant forall j: nat :: j in seen <==>
            j in base || (j < NUM_OF_PAGES && FreeAt(pages[..], head, j) && head[j] in lists[i][..k])
        {
          var h := lists[i][k];
          assert h in lists[i] && h !in lists[i][..k] && lists[i][..k + 1] == lists[i][..k] + [h];
          CountRun(pages[..], head, h, base, lists[i][..k], seen);
          seen := seen + Run(h, i);
          MulAdd(n, 1, Pow2(i));
          n := n + 1;
        }
        assert lists[i][..|lists[i]|] == lists[i];
        CountLevel(pages[..], head, lists, i);
        r := r + n * Pow2(i);
      }
      assert seen == FreePages(pages[..], head) by {
        forall j: nat | j < NUM_OF_PAGES && FreeAt(pages[..], head, j) ensures j in seen {
          assert PageOk(pages[..], head, j);
        }
      }
    }
  }

  /** The pages of level i are those whose block is on list i. */
  lemma CountLevel(pages: seq<Page>, head: seq<nat>, lists: seq<seq<nat>>, i: nat)
    requires Tiled(pages, head) && ListsOk(pages, lists) && i < NUM_OF_ALLOCSIZE
    ensures forall j: nat :: j < NUM_OF_PAGES && FreeAt(pages, head, j) ==>
      (head[j] in lists[i] <==> LevelAt(pages, head, j) == i)
  {
    forall j: nat | j < NUM_OF_PAGES && FreeAt(pages, head, j)
      ensures head[j] in lists[i] <==> LevelAt(pages, head, j) == i
    {
      assert PageOk(pages, head, j);
    }
  }

  /** The level of the block of page i. */
  ghost function LevelAt(pages: seq<Page>, head: seq<nat>, i: nat): nat
    requires Tiled(pages, head) && i < NUM_OF_PAGES
  {
    assert PageOk(pages, head, i);
    pages[head[i]].allocsize
  }

  /** The pages of one more block of a level are new. */
  lemma CountRun(pages: seq<Page>, head: seq<nat>, h: nat, base: set<nat>, done: seq<nat>, seen: set<nat>)
    requires Tiled(pages, head) && h < NUM_OF_PAGES && pages[h].ptype == Free && h !in done
    requires forall j: nat :: j in base ==> j < NUM_OF_PAGES && LevelAt(pages, head, j) < pages[h].allocsize
    requires forall j: nat :: j in seen <==>
      j in base || (j < NUM_OF_PAGES && FreeAt(pages, head, j) && head[j] in done)
    ensures |seen + Run(h, pages[h].allocsize)| == |seen| + Pow2(pages[h].allocsize)
    ensures forall j: nat :: j in seen + Run(h, pages[h].allocsize) <==>
      j in base || (j < NUM_OF_PAGES && FreeAt(pages, head, j) && head[j] in done + [h])
  {
    var n := pages[h].allocsize;
    HeadOfItself(pages, head, h);
    RunIsFree(pages, head, h);
    forall j: nat | j < NUM_OF_PAGES ensures j in Run(h, n) <==> head[j] == h {
      HeadInside(pages, head, h, j);
    }
    assert seen !! Run(h, n);
  }

  /** The block at p, free as a whole before, is owned after, and nothing else changed hands. */
  ghost predicate Allocates(before: seq<Page>, head: seq<nat>, after: seq<Page>, head': seq<nat>, p: nat, n: nat)
    requires Tiled(before, head) && Tiled(after, head')
  {
    && p < NUM_OF_PAGES && after[p] == Page(Allocated, n) && Aligned(p, n)
    && RunFree(before, head, p, n)
    && (forall i :: 0 <= i < NUM_OF_PAGES ==> FreeAt(after, head', i) == (FreeAt(before, head, i) && !InRun(i, p, n)))
    && KeepsOwned(before, after, p) && before[p].ptype !in {Allocated, Reserved}
  }

  lemma PopKeepsCanonical(before: seq<Page>, after: seq<Page>, p: nat)
    requires Canonical(before) && p < |before| == |after| && after == before[p := after[p]] && after[p].ptype != Free
    ensures Canonical(after)
  {
  }

  lemma SplitKeepsOwned(before: seq<Page>, after: seq<Page>, head: seq<nat>, b: nat, n: nat)
    requires Tiled(before, head) && b < NUM_OF_PAGES && before[b] == Page(Allocated, n + 1)
    requires b + Pow2(n) < |before| && after == before[b := Page(Free, n)][b + Pow2(n) := Page(Free, n)]
    ensures KeepsOwned(before, after, b)
  {
    SplitBlock(before, head, b, n);
  }

  lemma AllocatesHalf(before: seq<Page>, head: seq<nat>, mid: seq<Page>, midHead: seq<nat>, after: seq<Page>,
                      head': seq<nat>,
                      b: nat, n: nat)
    requires Tiled(before, head) && Tiled(mid, midHead) && Tiled(after, head') && n < NUM_OF_ALLOCSIZE
    requires Allocates(before, head, mid, midHead, b, n + 1)
    requires after[b] == Page(Allocated, n) && KeepsOwned(mid, after, b)
    requires forall i :: 0 <= i < NUM_OF_PAGES ==>
      FreeAt(after, head', i) == ((FreeAt(mid, midHead, i) || InRun(i, b, n + 1)) && !InRun(i, b, n))
    ensures Allocates(before, head, after, head', b, n)
  {
    Halves(b, n);
    assert RunFree(before, head, b, n);
    forall i | 0 <= i < NUM_OF_PAGES
      ensures FreeAt(after, head', i) == (FreeAt(before, head, i) && !InRun(i, b, n))
    {
      assert FreeAt(mid, midHead, i) == (FreeAt(before, head, i) && !InRun(i, b, n + 1));
      assert InRun(i, b, n + 1) ==> FreeAt(before, head, i);
    }
  }

  /** A popped block was free. */
  lemma PoppedRun(before: seq<Page>, after: seq<Page>, head: seq<nat>, p: nat, n: nat)
    requires Tiled(before, head) && Tiled(after, head) && p < NUM_OF_PAGES && before[p] == Page(Free, n)
    requires after == before[p := Page(Allocated, n)]
    requires forall i :: 0 <= i < NUM_OF_PAGES ==>
      FreeAt(after, head, i) == (FreeAt(before, head, i) && !InRun(i, p, n))
    ensures Allocates(before, head, after, head, p, n)
  {
    HeadOfItself(before, head, p);
    RunIsFree(before, head, p);
  }

  /** In canonical form, an aligned run of 2^n free pages exists iff some list from level n up is not empty. */
  lemma NoRun(pages: seq<Page>, head: seq<nat>, lists: seq<seq<nat>>, n: nat)
    requires Tiled(pages, head) && Canonical(pages) && ListsOk(pages, lists) && n < NUM_OF_ALLOCSIZE
    ensures (exists b: nat :: Aligned(b, n) && RunFree(pages, head, b, n)) <==>
            exists m :: n <= m < NUM_OF_ALLOCSIZE && lists[m] != []
  {
    if b: nat :| Aligned(b, n) && RunFree(pages, head, b, n) {
      RunInOneBlock(pages, head, b, n);
      assert PageOk(pages, head, b);
      assert head[b] in lists[pages[head[b]].allocsize];
    }
    if m :| n <= m < NUM_OF_ALLOCSIZE && lists[m] != [] {
      var h := lists[m][0];
      assert h in lists[m];
      HeadOfItself(pages, head, h);
      RunIsFree(pages, head, h);
      AlignedDown(h, m, n);
      PowAdd(n, m - n);
      MulMono(1, Pow2(m - n), Pow2(n));
      assert RunFree(pages, head, h, n);
    }
  }

  lemma PopCanonical(before: seq<Page>, after: seq<Page>, head: seq<nat>, b: nat, n: nat)
    requires Tiled(before, head) && Canonical(before) && b < NUM_OF_PAGES && before[b] == Page(Allocated, n + 1)
    requires b + Pow2(n) < NUM_OF_PAGES && BuddyOf(b, n) == b + Pow2(n)
    requires after == before[b := Page(Allocated, n)][b + Pow2(n) := Page(Free, n)]
    ensures Canonical(after)
  {
    HeadOfItself(before, head, b);
    Halves(b, n);
    var q := b + Pow2(n);
    forall i, j | 0 <= i < |after| && 0 <= j < |after| && FreeBuddies(after[i], after[j])
      ensures j != BuddyOf(i, after[i].allocsize)
    {
      if i != q {
        HeadOfItself(before, head, i);
        Merge(i, after[i].allocsize);
      }
    }
  }

  lemma ListsMerged(pages: seq<Page>, lists: seq<seq<nat>>, p: nat, q: nat, n: nat)
    requires ListsOk(pages, lists) && p < |pages| && q < |pages| && p != q && n + 1 < NUM_OF_ALLOCSIZE
    requires pages[p] == pages[q] == Page(Free, n)
    ensures ListsOk(pages[q := Page(NotHead, n)][p := Page(Free, n + 1)],
                    lists[n := Del(Del(lists[n], p), q)][n + 1 := lists[n + 1] + [p]])
  {
    var pages' := pages[q := Page(NotHead, n)][p := Page(Free, n + 1)];
    var rest, more := Del(Del(lists[n], p), q), lists[n + 1] + [p];
    NoDupAdd(lists[n + 1], p);
    var lists' := lists[n := rest][n + 1 := more];
    assert lists'[n] == rest && lists'[n + 1] == more;
    forall m: nat, x: nat {:trigger x in lists'[m]} | m < NUM_OF_ALLOCSIZE
      ensures x in lists'[m] <==> x < |pages'| && pages'[x] == Page(Free, m)
    {
      assert x in lists[m] <==> x < |pages| && pages[x] == Page(Free, m);
      if m == n {
        InDelTwice(lists[n], p, q, x);
      } else if m != n + 1 {
        assert lists'[m] == lists[m];
      }
    }
    forall m | 0 <= m < NUM_OF_ALLOCSIZE ensures NoDup(lists'[m]) {
      assert NoDup(lists[m]);
    }
  }

  lemma InDelTwice(s: seq<nat>, p: nat, q: nat, x: nat)
    requires NoDup(s)
    ensures x in Del(Del(s, p), q) <==> x in s && x != p && x != q
    ensures NoDup(Del(Del(s, p), q))
  {
  }

  /** Every owned or reserved block but p is as it was, and no other block became owned. */
  ghost predicate KeepsOwned(before: seq<Page>, after: seq<Page>, p: nat) {
    && |before| == |after|
    && (forall i :: 0 <= i < |before| && i != p && before[i].ptype in {Allocated, Reserved} ==> after[i] == before[i])
    && (forall i :: 0 <= i < |before| && i != p && after[i].ptype in {Allocated, Reserved} ==> before[i] == after[i])
  }

  /** Canonical, not considering page p. */
  ghost predicate CanonicalBut(pages: seq<Page>, p: nat) {
    forall i, q :: 0 <= i < |pages| && 0 <= q < |pages| && i != p && q != p && FreeBuddies(pages[i], pages[q]) ==>
      q != BuddyOf(i, pages[i].allocsize)
  }

  lemma CanonicalAll(pages: seq<Page>, head: seq<nat>, p: nat)
    requires Tiled(pages, head) && p < |pages| && pages[p].ptype == Free
    requires pages[p].allocsize < NUM_OF_ALLOCSIZE - 1 ==>
      BuddyOf(p, pages[p].allocsize) < |pages| && pages[BuddyOf(p, pages[p].allocsize)] != pages[p]
    ensures CanonicalBut(pages, p) ==> Canonical(pages)
  {
    if CanonicalBut(pages, p) {
      forall i, q | 0 <= i < |pages| && 0 <= q < |pages| && FreeBuddies(pages[i], pages[q])
        ensures q != BuddyOf(i, pages[i].allocsize)
      {
        HeadOfItself(pages, head, i);
        Merge(i, pages[i].allocsize);
      }
    }
  }

  lemma MergeCanonical(pages: seq<Page>, head: seq<nat>, p: nat, q: nat, cur: nat, n: nat)
    requires Tiled(pages, head) && p < |pages| && q < |pages| && cur in {p, q} && n + 1 < NUM_OF_ALLOCSIZE
    ensures CanonicalBut(pages, cur) ==> CanonicalBut(pages[q := Page(NotHead, n)][p := Page(Free, n + 1)], p)
  {
  }

  /** A CPU inside mm_page_alloc (want): before its critical section of a level, or holding a block of the next
      level that it is about to split. */
  datatype Cpu =
    | Idle
    | Seeking(want: nat, level: nat)
    | Splitting(want: nat, block: nat, level: nat)
    | Stopped

  datatype Event = Call(cpu: nat, want: nat) | Go(cpu: nat) | Release(block: nat)

  /** The reserved pages are the same, with their levels. */
  ghost predicate SameReserved(before: seq<Page>, after: seq<Page>) {
    && |before| == |after|
    && forall i :: 0 <= i < |before| ==>
         && (before[i].ptype == Reserved <==> after[i].ptype == Reserved)
         && (after[i].ptype == Reserved ==> after[i] == before[i])
  }

  lemma ReservedKept(before: seq<Page>, after: seq<Page>, p: nat)
    requires KeepsOwned(before, after, p)
    requires p < |before| ==> before[p].ptype != Reserved && after[p].ptype != Reserved
    ensures SameReserved(before, after)
  {
  }

  lemma ReservedPop(before: seq<Page>, p: nat, n: nat)
    requires p < |before| && before[p] == Page(Free, n)
    ensures SameReserved(before, before[p := Page(Allocated, n)])
  {
  }

  lemma SameReservedToo(a: seq<Page>, b: seq<Page>, c: seq<Page>)
    requires SameReserved(a, b) && SameReserved(b, c)
    ensures SameReserved(a, c)
  {
    forall i | 0 <= i < |a| ensures a[i].ptype == Reserved <==> b[i].ptype == Reserved {
    }
  }

  /** Page p heads an owned block iff it has an owner: a caller, who asked for its level, or a CPU that is about to
      split it. */
  ghost predicate PageOwned(cpus: seq<Cpu>, held: map<nat, nat>, owner: map<nat, nat>, pages: seq<Page>, p: nat)
    requires p < |pages|
  {
    && (pages[p].ptype == Allocated <==> p in owner)
    && (p in held ==> p in owner && pages[p] == Page(Allocated, held[p]))
    && (p in owner ==>
          && (p in held <==> owner[p] == 0) && owner[p] <= |cpus|
          && (owner[p] > 0 ==> cpus[owner[p] - 1].Splitting? && cpus[owner[p] - 1].block == p))
  }

  ghost predicate CpuOk(cpus: seq<Cpu>, owner: map<nat, nat>, pages: seq<Page>, c: nat)
    requires c < |cpus|
  {
    && (cpus[c].Splitting? ==>
          && cpus[c].block in owner && owner[cpus[c].block] == c + 1 && cpus[c].want <= cpus[c].level
          && cpus[c].block < |pages| && pages[cpus[c].block] == Page(Allocated, cpus[c].level + 1))
    && (cpus[c].Seeking? ==> cpus[c].want <= cpus[c].level < NUM_OF_ALLOCSIZE)
  }

  /** Every owned block has one owner, and every owner's block is owned. */
  ghost predicate OwnersOk(cpus: seq<Cpu>, held: map<nat, nat>, owner: map<nat, nat>, pages: seq<Page>) {
    && |pages| == NUM_OF_PAGES
    && (forall p: nat :: p < |pages| ==> PageOwned(cpus, held, owner, pages, p))
    && (forall p :: p in owner ==> p < NUM_OF_PAGES) && (forall p :: p in held ==> p < NUM_OF_PAGES)
    && (forall c: nat :: c < |cpus| ==> CpuOk(cpus, owner, pages, c))
  }

  lemma GiveKeeps(cpus: seq<Cpu>, held: map<nat, nat>, owner: map<nat, nat>, before: seq<Page>, after: seq<Page>,
                  p: nat)
    requires OwnersOk(cpus, held, owner, before) && p in held && p < |before|
    requires KeepsOwned(before, after, p) && after[p].ptype !in {Allocated, Reserved}
    ensures OwnersOk(cpus, held - {p}, owner - {p}, after) && SameReserved(before, after)
  {
    assert PageOwned(cpus, held, owner, before, p);
    ReservedKept(before, after, p);
    forall q: nat | q < |after| ensures PageOwned(cpus, held - {p}, owner - {p}, after, q) {
      assert PageOwned(cpus, held, owner, before, q);
    }
    forall c: nat | c < |cpus| ensures CpuOk(cpus, owner - {p}, after, c) {
      assert CpuOk(cpus, owner, before, c);
    }
  }

  /** A CPU has given its block to the free list. */
  lemma SplitKeeps(cpus: seq<Cpu>, held: map<nat, nat>, owner: map<nat, nat>, before: seq<Page>, after: seq<Page>,
                   c: nat)
    requires OwnersOk(cpus, held, owner, before) && c < |cpus| && cpus[c].Splitting? && cpus[c].level < NUM_OF_ALLOCSIZE
    requires var b := cpus[c].block;
      b < |before| && KeepsOwned(before, after, b) && after[b].ptype !in {Allocated, Reserved}
    ensures var Splitting(want, b, level) := cpus[c];
      OwnersOk(cpus[c := Seeking(want, level)], held, owner - {b}, after) && SameReserved(before, after)
  {
    var Splitting(want, b, level) := cpus[c];
    var cpus' := cpus[c := Seeking(want, level)];
    assert CpuOk(cpus, owner, before, c) && PageOwned(cpus, held, owner, before, b);
    ReservedKept(before, after, b);
    forall q: nat | q < |after| ensures PageOwned(cpus', held, owner - {b}, after, q) {
      assert PageOwned(cpus, held, owner, before, q);
    }
    forall d: nat | d < |cpus'| ensures CpuOk(cpus', owner - {b}, after, d) {
      assert CpuOk(cpus, owner, before, d);
    }
  }

  /** A CPU without a block goes on. */
  lemma MoveKeeps(cpus: seq<Cpu>, held: map<nat, nat>, owner: map<nat, nat>, pages: seq<Page>, c: nat, x: Cpu)
    requires OwnersOk(cpus, held, owner, pages) && c < |cpus| && !cpus[c].Splitting? && !x.Splitting?
    requires x.Seeking? ==> x.want <= x.level < NUM_OF_ALLOCSIZE
    ensures OwnersOk(cpus[c := x], held, owner, pages)
  {
    var cpus' := cpus[c := x];
    forall q: nat | q < |pages| ensures PageOwned(cpus', held, owner, pages, q) {
      assert PageOwned(cpus, held, owner, pages, q);
    }
    forall d: nat | d < |cpus| ensures CpuOk(cpus', owner, pages, d) {
      assert CpuOk(cpus, owner, pages, d);
    }
  }

  /** CPU c has taken block p of its level: to hand it out, or to split it. */
  lemma TakeKeeps(cpus: seq<Cpu>, held: map<nat, nat>, owner: map<nat, nat>, pages: seq<Page>, c: nat, p: nat,
                  level: nat)
    requires OwnersOk(cpus, held, owner, pages) && c < |cpus|
    requires cpus[c].Seeking? && cpus[c].want <= level < NUM_OF_ALLOCSIZE
    requires p < NUM_OF_PAGES && pages[p] == Page(Free, level)
    ensures var after := pages[p := Page(Allocated, level)];
      && p !in held
      && (level == cpus[c].want ==> OwnersOk(cpus[c := Idle], held[p := level], owner[p := 0], after))
      && (level > cpus[c].want ==>
            OwnersOk(cpus[c := Splitting(cpus[c].want, p, level - 1)], held, owner[p := c + 1], after))
  {
    var after := pages[p := Page(Allocated, level)];
    assert PageOwned(cpus, held, owner, pages, p);
    var hand := level == cpus[c].want;
    var cpus' := cpus[c := if hand then Idle else Splitting(cpus[c].want, p, level - 1)];
    var held', owner' := if hand then held[p := level] else held, owner[p := if hand then 0 else c + 1];
    forall q: nat | q < |after| ensures PageOwned(cpus', held', owner', after, q) {
      assert PageOwned(cpus, held, owner, pages, q);
    }
    forall d: nat | d < |cpus'| ensures CpuOk(cpus', owner', after, d) {
      assert CpuOk(cpus, owner, pages, d);
    }
  }

  /** What an event does to the blocks held: a CPU that goes on may be given a block of the level it asked for. */
  ghost predicate Handed(e: Event, cpus: seq<Cpu>, held: map<nat, nat>, held': map<nat, nat>) {
    match e
    case Call(_, _) => held' == held
    case Release(p) => held' == held - {p}
    case Go(c) => held' == held || (c < |cpus| && cpus[c].Seeking? && GotBlock(cpus[c].want, held, held'))
                                || (c < |cpus| && cpus[c].Splitting? && GotBlock(cpus[c].want, held, held'))
  }

  /** A CPU that seeks goes on to the next level if the list is empty, and else takes the head of the list: to hand it
      out, or to split it. */
  ghost predicate Sought(x: Cpu, y: Cpu, list: seq<nat>, held: map<nat, nat>, held': map<nat, nat>)
    requires x.Seeking?
  {
    if list == [] then
      y == (if x.level + 1 < NUM_OF_ALLOCSIZE then Seeking(x.want, x.level + 1) else Stopped) && held' == held
    else if x.level == x.want then y == Idle && list[0] !in held && held' == held[list[0] := x.want]
    else x.level > 0 && y == Splitting(x.want, list[0], x.level - 1) && held' == held
  }

  ghost predicate GotBlock(want: nat, held: map<nat, nat>, held': map<nat, nat>) {
    exists b :: b !in held && b in held' && held' == held[b := want]
  }

  /** CPUs that allocate and free concurrently; each critical section is one atomic step. */
  class Machine {
    const mm: Mm
    var cpus: seq<Cpu>
    /** The blocks handed out by mm_page_alloc and not yet given back, with the levels asked for. */
    var held: map<nat, nat>
    /** The owner of every owned block: 0 for a caller, c + 1 for CPU c. */
    ghost var owner: map<nat, nat>
    /** The events so far. */
    ghost var history: seq<Event>

    constructor (usable: set<nat>, cpus: nat)
      ensures Valid() && fresh(mm) && fresh(mm.pages)
    {
      mm := new Mm(usable);
      this.cpus := seq(cpus, _ => Idle);
      held, owner := map[], map[];
    }

    ghost predicate Valid()
      reads this, mm, mm.pages
    {
      mm.Valid() && OwnersOk(cpus, held, owner, mm.pages[..])
    }

    /** One step of one CPU. A step that is not enabled changes nothing. */
    method Step(e: Event)
      requires Valid()
      modifies `history, `cpus, `held, `owner, mm, mm.pages
      ensures Valid() && mm.pages == old(mm.pages) && SameReserved(old(mm.pages[..]), mm.pages[..])
      ensures Handed(e, old(cpus), old(held), held) && history == old(history) + [e]
    {
      history := history + [e];
      match e
      case Call(c, want) =>
        if c < |cpus| && cpus[c].Idle? && want < NUM_OF_ALLOCSIZE {
          MoveKeeps(cpus, held, owner, mm.pages[..], c, Seeking(want, want));
          cpus := cpus[c := Seeking(want, want)];
        }
      case Go(c) =>
        if c < |cpus| && cpus[c].Seeking? {
          Seek(c);
        } else if c < |cpus| && cpus[c].Splitting? {
          Split(c);
        }
      case Release(p) =>
        if p in held {
          Give(p);
        }
    }

    /** A caller gives a block back. */
    method Give(p: nat)
      requires Valid() && p in held
      modifies `held, `owner, mm, mm.pages
      ensures Valid() && mm.pages == old(mm.pages) && held == old(held) - {p}
      ensures SameReserved(old(mm.pages[..]), mm.pages[..])
    {
      ghost var before := mm.pages[..];
      assert PageOwned(cpus, held, owner, before, p);
      mm.FreePage(p);
      ghost var after := mm.pages[..];
      assert after[p].ptype !in {Allocated, Reserved};
      GiveKeeps(cpus, held, owner, before, after, p);
      held, owner := held - {p}, owner - {p};
    }

    /** CPU c tries its list; past the top level it stops in the failed ASSERT. */
    method Seek(c: nat)
      requires Valid() && c < |cpus| && cpus[c].Seeking?
      modifies `cpus, `held, `owner, mm, mm.pages
      ensures Valid() && mm.pages == old(mm.pages) && SameReserved(old(mm.pages[..]), mm.pages[..])
      ensures held == old(held) || GotBlock(old(cpus[c].want), old(held), held)
      ensures old(cpus[c].level) < |old(mm.lists)| && |cpus| == |old(cpus)| && cpus == old(cpus)[c := cpus[c]]
      ensures Sought(old(cpus[c]), cpus[c], old(mm.lists)[old(cpus[c].level)], old(held), held)
    {
      var level := cpus[c].level;
      assert CpuOk(cpus, owner, mm.pages[..], c);
      var r := mm.PopLocked(level);
      if r.Some? {
        ReservedPop(old(mm.pages[..]), r.value, level);
        Take(c, r.value, level, old(mm.pages[..]));
      } else {
        var next := if level + 1 < NUM_OF_ALLOCSIZE then Seeking(cpus[c].want, level + 1) else Stopped;
        MoveKeeps(cpus, held, owner, mm.pages[..], c, next);
        cpus := cpus[c := next];
      }
    }

    /** CPU c splits its block and takes the head of the list of the level, in one critical section. */
    method Split(c: nat)
      requires Valid() && c < |cpus| && cpus[c].Splitting?
      modifies `cpus, `held, `owner, mm, mm.pages
      ensures Valid() && mm.pages == old(mm.pages) && SameReserved(old(mm.pages[..]), mm.pages[..])
      ensures held == old(held) || GotBlock(old(cpus[c].want), old(held), held)
      ensures |cpus| == |old(cpus)| && cpus == old(cpus)[c := cpus[c]]
      ensures if old(cpus[c].level) == old(cpus[c].want) then cpus[c] == Idle && held != old(held)
              else && cpus[c].Splitting? && cpus[c].want == old(cpus[c].want)
                   && cpus[c].level + 1 == old(cpus[c].level) && held == old(held)
    {
      SplitOwn(c);
      ghost var mid := mm.pages[..];
      Seek(c);
      SameReservedToo(old(mm.pages[..]), mid, mm.pages[..]);
    }

    /** The first half of Split: the block of CPU c goes to the free list. */
    method SplitOwn(c: nat)
      requires Valid() && c < |cpus| && cpus[c].Splitting?
      modifies `cpus, `owner, mm, mm.pages
      ensures Valid() && mm.pages == old(mm.pages) && SameReserved(old(mm.pages[..]), mm.pages[..])
      ensures |cpus| == |old(cpus)| && cpus == old(cpus)[c := Seeking(old(cpus[c].want), old(cpus[c].level))]
      ensures held == old(held) && old(cpus[c].want) <= old(cpus[c].level)
      ensures old(cpus[c].level) < |mm.lists| && mm.lists[old(cpus[c].level)] != []
    {
      var level, b, want := cpus[c].level, cpus[c].block, cpus[c].want;
      assert CpuOk(cpus, owner, mm.pages[..], c);
      ghost var before := mm.pages[..];
      SplitBlock(before, mm.head, b, level);
      mm.SplitLocked(b, level);
      ghost var after := mm.pages[..];
      assert after[b] == Page(Free, level);
      SplitKeepsOwned(before, after, old(mm.head), b, level);
      SplitKeeps(cpus, held, owner, before, after, c);
      cpus, owner := cpus[c := Seeking(want, level)], owner - {b};
    }

    /** CPU c now owns block p: the caller gets it, or it has to be split. */
    method Take(c: nat, p: nat, level: nat, ghost before: seq<Page>)
      requires c < |cpus| && cpus[c].Seeking? && cpus[c].want <= level < NUM_OF_ALLOCSIZE
      requires OwnersOk(cpus, held, owner, before) && p < NUM_OF_PAGES && before[p] == Page(Free, level)
      modifies `cpus, `held, `owner
      ensures OwnersOk(cpus, held, owner, before[p := Page(Allocated, level)])
      ensures held == old(held) || GotBlock(old(cpus[c].want), old(held), held)
      ensures p !in old(held) && |cpus| == |old(cpus)| && cpus == old(cpus)[c := cpus[c]]
      ensures if level == old(cpus[c].want) then cpus[c] == Idle && held == old(held)[p := level]
              else cpus[c] == Splitting(old(cpus[c].want), p, level - 1) && held == old(held)
    {
      TakeKeeps(cpus, held, owner, before, c, p, level);
      if level == cpus[c].want {
        held, owner := held[p := level], owner[p := 0];
        cpus := cpus[c := Idle];
      } else {
        owner, cpus := owner[p := c + 1], cpus[c := Splitting(cpus[c].want, p, level - 1)];
      }
    }

    /** Any interleaving keeps the tiling, the ownership of every block, the level asked for, and the reserved
        pages. */
    method Run(events: seq<Event>)
      requires Valid()
      modifies `history, `cpus, `held, `owner, mm, mm.pages
      ensures Valid() && mm.pages == old(mm.pages) && SameReserved(old(mm.pages[..]), mm.pages[..])
      ensures history == old(history) + events
    {
      for k := 0 to |events|
        invariant Valid() && mm.pages == old(mm.pages) && SameReserved(old(mm.pages[..]), mm.pages[..])
        invariant history == old(history) + events[..k]
      {
        Step(events[k]);
      }
    }

    /** No page belongs to two owners, nor to an owner and a free block. */
    lemma OwnersDisjoint(p: nat, q: nat, i: nat)
      requires Valid() && p < NUM_OF_PAGES && q < NUM_OF_PAGES && p != q && i < NUM_OF_PAGES
      requires mm.pages[p].ptype == Allocated && mm.pages[q].ptype in {Allocated, Free}
      ensures !(InRun(i, p, mm.pages[p].allocsize) && InRun(i, q, mm.pages[q].allocsize))
    {
      HeadOfItself(mm.pages[..], mm.head, p);
      HeadOfItself(mm.pages[..], mm.head, q);
      HeadInside(mm.pages[..], mm.head, p, i);
      HeadInside(mm.pages[..], mm.head, q, i);
    }
  }
}
