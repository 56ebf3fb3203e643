/** The reverse map from guest frames to the shadow PTEs that may write them (struct cpu_mmu_spt_rwmap). */
module RwMap {
  import opened Lists
  import opened Wrappers
  import opened ShadowTypes
  import opened ShadowPool

  /** failed is bit 0 of the gfn field. */
  datatype RwEnt = RwEnt(gfn: nat, failed: bool, cell: Cell, hphys: nat)

  type PtePages = seq<seq<Pte>>

  function RwHash(gfn: nat): (b: nat)
    ensures b < HASHSIZE_OF_SPTRWMAP
  {
    gfn % HASHSIZE_OF_SPTRWMAP
  }

  predicate InRange(c: Cell) {
    c.slot < NUM_OF_SPTSHADOW1 && c.idx < ENTRIES
  }

  ghost predicate PagesShape(pages: PtePages) {
    |pages| == NUM_OF_SPTSHADOW1 && forall s :: 0 <= s < |pages| ==> |pages[s]| == ENTRIES
  }

  predicate MapsRw(pages: PtePages, c: Cell, g: nat)
    requires c.slot < |pages| && c.idx < |pages[c.slot]|
  {
    pages[c.slot][c.idx].rw && pages[c.slot][c.idx].frame == g
  }

  /** No shadow PTE maps guest frame g writable. */
  ghost predicate NoRw(pages: PtePages, g: nat) {
    forall s, i :: 0 <= s < |pages| && 0 <= i < |pages[s]| ==> !(pages[s][i].rw && pages[s][i].frame == g)
  }

  /** Some hashed entry, in the bucket of g, records that cell c maps g. */
  ghost predicate HasEntry(ents: seq<RwEnt>, hash: seq<seq<nat>>, c: Cell, g: nat)
    requires |hash| == HASHSIZE_OF_SPTRWMAP
  {
    exists e {:trigger e in hash[RwHash(g)]} ::
      e in hash[RwHash(g)] && e < |ents| && ents[e].gfn == g && ents[e].hphys == g && ents[e].cell == c
  }

  /** Every writable shadow PTE, except perhaps the one being installed, has its entry. */
  ghost predicate Covers(ents: seq<RwEnt>, hash: seq<seq<nat>>, pages: PtePages, except: Option<Cell>)
    requires |hash| == HASHSIZE_OF_SPTRWMAP
  {
    forall s, i :: 0 <= s < |pages| && 0 <= i < |pages[s]| && pages[s][i].rw && Some(Cell(s, i)) != except ==>
      HasEntry(ents, hash, Cell(s, i), pages[s][i].frame)
  }

  /** q is p with write permission (and the dirty bit) taken from some entries. */
  ghost predicate Weaker(p: PtePages, q: PtePages) {
    && |p| == |q|
    && (forall s :: 0 <= s < |p| ==> |p[s]| == |q[s]|)
    && forall s, i :: 0 <= s < |p| && 0 <= i < |p[s]| ==>
         q[s][i] == p[s][i] || q[s][i] == p[s][i].(rw := false, dirty := false)
  }

  /** q is p with write permission (and the dirty bit) taken from some entries that map g. */
  ghost predicate Revoked(p: PtePages, q: PtePages, g: nat) {
    && |p| == |q|
    && (forall s :: 0 <= s < |p| ==> |p[s]| == |q[s]|)
    && forall s, i :: 0 <= s < |p| && 0 <= i < |p[s]| ==>
         q[s][i] == p[s][i] || (p[s][i].frame == g && q[s][i] == p[s][i].(rw := false, dirty := false))
  }

  /** The PTE that the entry points to still maps its frame. */
  predicate StillMaps(pages: PtePages, e: RwEnt) {
    e.cell.slot < |pages| && e.cell.idx < |pages[e.cell.slot]| && pages[e.cell.slot][e.cell.idx].frame == e.hphys
  }

  predicate AnyMaps(pages: PtePages, ents: seq<RwEnt>, list: seq<nat>) {
    exists k :: 0 <= k < |list| && list[k] < |ents| && StillMaps(pages, ents[list[k]])
  }

  /** Revoking write permission changes no frame. */
  lemma WeakerMaps(p: PtePages, q: PtePages, e: RwEnt)
    requires Weaker(p, q)
    ensures StillMaps(p, e) == StillMaps(q, e)
  {
  }

  lemma AnyMapsTail(pages: PtePages, ents: seq<RwEnt>, list: seq<nat>)
    requires list != [] && list[0] < |ents|
    ensures AnyMaps(pages, ents, list) <==> StillMaps(pages, ents[list[0]]) || AnyMaps(pages, ents, list[1..])
  {
    var t := list[1..];
    if k :| 0 <= k < |list| && list[k] < |ents| && StillMaps(pages, ents[list[k]]) {
      if k > 0 {
        assert t[k - 1] == list[k];
      }
    }
    if k :| 0 <= k < |t| && t[k] < |ents| && StillMaps(pages, ents[t[k]]) {
      assert list[k + 1] == t[k];
    }
  }

  lemma RevokedTwice(p: PtePages, q: PtePages, r: PtePages, g: nat)
    requires Revoked(p, q, g) && Revoked(q, r, g)
    ensures Revoked(p, r, g)
  {
    forall s, i | 0 <= s < |p| && 0 <= i < |p[s]|
      ensures r[s][i] == p[s][i] || (p[s][i].frame == g && r[s][i] == p[s][i].(rw := false, dirty := false))
    {
      assert q[s][i] == p[s][i] || (p[s][i].frame == g && q[s][i] == p[s][i].(rw := false, dirty := false));
    }
  }

  class RwMap {
    var ents: seq<RwEnt>
    var fail: seq<nat>
    var normal: seq<nat>
    var free: seq<nat>
    var hash: seq<seq<nat>>

    ghost predicate Valid()
      reads this
    {
      && |ents| == NUM_OF_SPTRWMAP
      && |hash| == HASHSIZE_OF_SPTRWMAP
      && Partition(fail, normal, free, NUM_OF_SPTRWMAP)
      && (forall e :: 0 <= e < NUM_OF_SPTRWMAP && e !in free ==> e in hash[RwHash(ents[e].gfn)])
      && (forall b, e {:trigger e in hash[b]} :: 0 <= b < HASHSIZE_OF_SPTRWMAP && e in hash[b] ==>
            e < NUM_OF_SPTRWMAP && e !in free && RwHash(ents[e].gfn) == b)
      && (forall b :: 0 <= b < HASHSIZE_OF_SPTRWMAP ==> NoDup(hash[b]))
      && (forall e :: 0 <= e < NUM_OF_SPTRWMAP && e !in free ==>
            (ents[e].failed <==> e in fail) && ents[e].hphys == ents[e].gfn && InRange(ents[e].cell))
    }

    /** clear_rwmap at start-up. */
    constructor ()
      ensures Valid() && fail == []
    {
      ents := seq(NUM_OF_SPTRWMAP, _ => RwEnt(0, false, Cell(0, 0), 0));
      fail, normal, free := [], [], seq(NUM_OF_SPTRWMAP, i => i);
      hash := seq(HASHSIZE_OF_SPTRWMAP, _ => []);
      new;
      assert forall k :: 0 <= k < NUM_OF_SPTRWMAP ==> k in free by {
        forall k | 0 <= k < NUM_OF_SPTRWMAP ensures k in free { assert free[k] == k; }
      }
    }

    /** Takes entry p out of its list and its bucket and pushes it on the free list. */
    method Unlink(p: nat)
      requires Valid() && p < NUM_OF_SPTRWMAP && p !in free
      modifies `fail, `normal, `free, `hash
      ensures Valid()
      ensures free == [p] + old(free)
      ensures fail == Del(old(fail), p) && normal == Del(old(normal), p)
      ensures forall b, e {:trigger e in hash[b]} :: 0 <= b < HASHSIZE_OF_SPTRWMAP ==>
        (e in hash[b] <==> e in old(hash)[b] && e != p)
    {
      var hr := RwHash(ents[p].gfn);
      NoDupPush(free, p);
      hash := hash[hr := Del(hash[hr], p)];
      fail, normal := Del(fail, p), Del(normal, p);
      free := [p] + free;
    }

    /** If the entry still describes the PTE it points to, that PTE loses RW and D. */
    method Revoke(s1: Pool<Pte>, p: nat) returns (r: bool)
      requires Valid() && PoolOk(s1) && p < NUM_OF_SPTRWMAP && p !in free
      modifies s1`pages
      ensures PoolOk(s1) && Weaker(old(s1.pages), s1.pages)
      ensures var c := ents[p].cell;
        && r == (old(s1.pages)[c.slot][c.idx].frame == ents[p].hphys)
        && (r ==> s1.pages == old(s1.pages)[c.slot := old(s1.pages)[c.slot][c.idx :=
                 old(s1.pages)[c.slot][c.idx].(rw := false, dirty := false)]])
        && (!r ==> s1.pages == old(s1.pages))
    {
      var c := ents[p].cell;
      var oldpte := s1.pages[c.slot][c.idx];
      r := oldpte.frame == ents[p].hphys;
      if r {
        s1.Put(c.slot, c.idx, oldpte.(rw := false, dirty := false));
      }
    }

    /** Revoke followed by Unlink: the entry is forgotten, which is safe because its PTE is not writable any more. */
    method Drop(s1: Pool<Pte>, p: nat, ghost except: Option<Cell>) returns (r: bool)
      requires Valid() && PoolOk(s1) && p < NUM_OF_SPTRWMAP && p !in free
      requires Covers(ents, hash, s1.pages, except)
      modifies `fail, `normal, `free, `hash, s1`pages
      ensures Valid() && PoolOk(s1) && Covers(ents, hash, s1.pages, except)
      ensures Weaker(old(s1.pages), s1.pages)
      ensures free == [p] + old(free)
      ensures fail == Del(old(fail), p) && normal == Del(old(normal), p)
      ensures forall b, e {:trigger e in hash[b]} :: 0 <= b < HASHSIZE_OF_SPTRWMAP ==>
        (e in hash[b] <==> e in old(hash)[b] && e != p)
      ensures var c := ents[p].cell;
        && (s1.pages[c.slot][c.idx].frame == ents[p].hphys ==> !s1.pages[c.slot][c.idx].rw)
        && r == (old(s1.pages)[c.slot][c.idx].frame == ents[p].hphys)
        && (!r ==> s1.pages == old(s1.pages))
        && (forall s, i :: 0 <= s < |s1.pages| && 0 <= i < |s1.pages[s]| && Cell(s, i) != c ==>
              s1.pages[s][i] == old(s1.pages)[s][i])
    {
      r := Revoke(s1, p);
      Unlink(p);
      CoversUnlinked(ents, old(hash), hash, old(s1.pages), s1.pages, except, p);
    }

    /** update_rwmap. What the fail list holds is revoked, then the entry for (gfn, pte) becomes the youngest:
        one already in its bucket, a free one, or the oldest, whose PTE is revoked first. */
    method UpdateRwmap(s1: Pool<Pte>, req: Option<(nat, Cell)>) returns (r: bool)
      requires Valid() && PoolOk(s1)
      requires req.Some? ==> InRange(req.value.1)
      requires Covers(ents, hash, s1.pages, if req.Some? then Some(req.value.1) else None)
      requires req.Some? ==> var c := req.value.1; s1.pages[c.slot][c.idx].frame == req.value.0
      modifies this, s1`pages
      ensures Valid() && PoolOk(s1) && fail == []
      ensures Covers(ents, hash, s1.pages, None)
      ensures Weaker(old(s1.pages), s1.pages)
      ensures r == AnyMaps(old(s1.pages), old(ents), old(fail))
      ensures req.None? && old(fail) == [] ==> s1.pages == old(s1.pages)
      ensures req.Some? ==> Entered(req.value.0, req.value.1)
      ensures req.Some? && old(fail) == [] ==> var c := req.value.1;
                s1.pages[c.slot][c.idx] == old(s1.pages)[c.slot][c.idx]
    {
      r := FlushFail(s1, if req.Some? then Some(req.value.1) else None);
      if req.Some? {
        Install(s1, req.value.0, req.value.1);
      }
    }

    /** The first loop of update_rwmap; r says whether write permission was taken from any PTE. */
    method FlushFail(s1: Pool<Pte>, ghost except: Option<Cell>) returns (r: bool)
      requires Valid() && PoolOk(s1) && Covers(ents, hash, s1.pages, except)
      modifies `fail, `normal, `free, `hash, s1`pages
      ensures Valid() && PoolOk(s1) && fail == [] && Covers(ents, hash, s1.pages, except)
      ensures Weaker(old(s1.pages), s1.pages) && (!r ==> s1.pages == old(s1.pages))
      ensures r == AnyMaps(old(s1.pages), ents, old(fail))
    {
      r := false;
      while fail != []
        invariant Valid() && PoolOk(s1) && Covers(ents, hash, s1.pages, except)
        invariant Weaker(old(s1.pages), s1.pages) && (!r ==> s1.pages == old(s1.pages))
        invariant AnyMaps(old(s1.pages), ents, old(fail)) <==> r || AnyMaps(old(s1.pages), ents, fail)
        decreases |fail|
      {
        var matched := FlushOne(s1, except, old(s1.pages));
        r := r || matched;
      }
    }

    /** One round of the first loop. */
    method FlushOne(s1: Pool<Pte>, ghost except: Option<Cell>, ghost pages: PtePages) returns (r: bool)
      requires Valid() && PoolOk(s1) && Covers(ents, hash, s1.pages, except) && fail != [] && Weaker(pages, s1.pages)
      modifies `fail, `normal, `free, `hash, s1`pages
      ensures Valid() && PoolOk(s1) && Covers(ents, hash, s1.pages, except) && fail == old(fail)[1..]
      ensures Weaker(pages, s1.pages) && (!r ==> s1.pages == old(s1.pages))
      ensures AnyMaps(pages, ents, old(fail)) <==> r || AnyMaps(pages, ents, fail)
    {
      var p := fail[0];
      assert p in fail;
      WeakerMaps(pages, s1.pages, ents[p]);
      AnyMapsTail(pages, ents, fail);
      r := Drop(s1, p, except);
    }

    /** The second part of update_rwmap: an entry of the bucket, a free one, or the oldest is used for (gfn, pte). */
    method Install(s1: Pool<Pte>, gfn: nat, pte: Cell)
      requires Valid() && PoolOk(s1) && fail == [] && InRange(pte)
      requires Covers(ents, hash, s1.pages, Some(pte))
      requires s1.pages[pte.slot][pte.idx].frame == gfn
      modifies this, s1`pages
      ensures Valid() && PoolOk(s1) && fail == []
      ensures Covers(ents, hash, s1.pages, None)
      ensures Weaker(old(s1.pages), s1.pages)
      ensures Entered(gfn, pte)
      ensures s1.pages[pte.slot][pte.idx] == old(s1.pages)[pte.slot][pte.idx]
    {
      var found := FindCell(RwHash(gfn), pte);
      if found.Some? {
        Unlink(found.value);
        CoversUnlinked(ents, old(hash), hash, s1.pages, s1.pages, Some(pte), found.value);
      } else if free == [] {
        Evict(s1, gfn, pte);
      }
      Assign(s1, gfn, pte);
    }

    /** The oldest entry makes room; it cannot be the one for (gfn, pte), which is not in its bucket. */
    method Evict(s1: Pool<Pte>, gfn: nat, pte: Cell)
      requires Valid() && PoolOk(s1) && fail == [] && free == [] && InRange(pte)
      requires Covers(ents, hash, s1.pages, Some(pte))
      requires s1.pages[pte.slot][pte.idx].frame == gfn
      requires forall e :: e in hash[RwHash(gfn)] ==> e < NUM_OF_SPTRWMAP && ents[e].cell != pte
      modifies `fail, `normal, `free, `hash, s1`pages
      ensures Valid() && PoolOk(s1) && fail == [] && |free| == 1
      ensures Covers(ents, hash, s1.pages, Some(pte))
      ensures Weaker(old(s1.pages), s1.pages)
      ensures s1.pages[pte.slot][pte.idx] == old(s1.pages)[pte.slot][pte.idx]
      ensures old(normal) != [] && normal == old(normal)[1..] && free == old(normal)[..1]
    {
      NotAllEmpty(fail, normal, free, NUM_OF_SPTRWMAP);
      assert normal[0] in normal;
      var _ := Drop(s1, normal[0], Some(pte));
    }

    /** The search loop of update_rwmap. */
    method FindCell(hr: nat, pte: Cell) returns (p: Option<nat>)
      requires Valid() && hr < HASHSIZE_OF_SPTRWMAP
      ensures p.Some? ==> p.value in hash[hr] && p.value < NUM_OF_SPTRWMAP && ents[p.value].cell == pte
      ensures p.None? ==> forall e :: e in hash[hr] ==> e < NUM_OF_SPTRWMAP && ents[e].cell != pte
    {
      for k := 0 to |hash[hr]|
        invariant forall e :: e in hash[hr][..k] ==> e < NUM_OF_SPTRWMAP && ents[e].cell != pte
      {
        var e := hash[hr][k];
        assert e in hash[hr] && hash[hr][..k + 1] == hash[hr][..k] + [e];
        if ents[e].cell == pte {
          return Some(e);
        }
      }
      assert hash[hr][..|hash[hr]|] == hash[hr];
      return None;
    }

    /** The head of the bucket of g describes (g, pte). */
    ghost predicate HeadIs(p: nat, g: nat, pte: Cell)
      reads this
    {
      && |hash| == HASHSIZE_OF_SPTRWMAP && p < |ents| && |hash[RwHash(g)]| > 0
      && hash[RwHash(g)][0] == p && p in hash[RwHash(g)] && ents[p] == RwEnt(g, false, pte, g)
    }

    ghost predicate Entered(g: nat, pte: Cell)
      reads this
    {
      exists p :: 0 <= p < |ents| && HeadIs(p, g, pte)
    }

    /** The end of update_rwmap: a free entry is filled in, appended to normal and pushed on its bucket. */
    method Assign(s1: Pool<Pte>, gfn: nat, pte: Cell)
      requires Valid() && free != [] && InRange(pte)
      requires PagesShape(s1.pages) && s1.pages[pte.slot][pte.idx].frame == gfn
      requires Covers(ents, hash, s1.pages, Some(pte))
      modifies this
      ensures Valid() && fail == old(fail)
      ensures Covers(ents, hash, s1.pages, None)
      ensures Entered(gfn, pte)
    {
      var p := free[0];
      HeadTail(free);
      NoDupAdd(normal, p);
      free := free[1..];
      ents := ents[p := RwEnt(gfn, false, pte, gfn)];
      normal := normal + [p];
      var hr := RwHash(gfn);
      NoDupPush(hash[hr], p);
      hash := hash[hr := [p] + hash[hr]];
      CoversAssigned(old(ents), ents, old(hash), hash, s1.pages, p, pte);
      assert HeadIs(p, gfn, pte);
    }

    /** The last part of update_shadow: the entry just made for (g, pte) is given back. */
    method Forget(g: nat, pte: Cell, ghost pages: PtePages)
      requires Valid() && InRange(pte) && PagesShape(pages) && Entered(g, pte)
      requires Covers(ents, hash, pages, Some(pte))
      modifies `fail, `normal, `free, `hash
      ensures Valid() && Covers(ents, hash, pages, Some(pte))
      ensures exists p :: old(HeadIs(p, g, pte)) && free == [p] + old(free)
      ensures old(fail) == [] ==> fail == []
    {
      ghost var p :| 0 <= p < |ents| && HeadIs(p, g, pte);
      var hr := RwHash(g);
      if hash[hr] != [] {
        var q := hash[hr][0];
        assert q in hash[hr] && q == p;
        if ents[q].gfn == g && ents[q].cell == pte {
          Unlink(q);
          CoversUnlinked(ents, old(hash), hash, pages, pages, Some(pte), q);
        }
      }
    }

    /** makerdonly for the only vCPU: no PTE maps guest frame g writable afterwards. */
    method MakeReadOnly(s1: Pool<Pte>, g: nat)
      requires Valid() && PoolOk(s1) && Covers(ents, hash, s1.pages, None)
      modifies this, s1`pages
      ensures Valid() && PoolOk(s1) && Covers(ents, hash, s1.pages, None)
      ensures NoRw(s1.pages, g) && Revoked(old(s1.pages), s1.pages, g)
      ensures old(fail) == [] ==> fail == []
    {
      var hr := RwHash(g);
      var bucket := hash[hr];
      for k := 0 to |bucket|
        invariant Valid() && PoolOk(s1) && Covers(ents, hash, s1.pages, None)
        invariant Revoked(old(s1.pages), s1.pages, g)
        invariant forall e :: e in hash[hr] ==> e in bucket
        invariant forall j :: k <= j < |bucket| ==> bucket[j] in hash[hr]
        invariant forall e :: e in bucket[..k] && e in hash[hr] ==> e < NUM_OF_SPTRWMAP && ents[e].gfn != g
        invariant old(fail) == [] ==> fail == []
      {
        var p := bucket[k];
        assert p in hash[hr] && bucket[..k + 1] == bucket[..k] + [p];
        if ents[p].gfn == g {
          ghost var before := s1.pages;
          DropFailed(s1, p);
          RevokedTwice(old(s1.pages), before, s1.pages, g);
        }
      }
      assert bucket[..|bucket|] == bucket;
      NoRwFromCovers(ents, hash, s1.pages, g);
    }

    /** One matching entry of makerdonly: moved to the fail list, its PTE revoked, then forgotten. */
    method DropFailed(s1: Pool<Pte>, p: nat)
      requires Valid() && PoolOk(s1) && p < NUM_OF_SPTRWMAP && p !in free
      requires Covers(ents, hash, s1.pages, None)
      modifies this, s1`pages
      ensures Valid() && PoolOk(s1) && Covers(ents, hash, s1.pages, None)
      ensures Revoked(old(s1.pages), s1.pages, ents[p].gfn)
      ensures forall e :: 0 <= e < |ents| ==> ents[e].gfn == old(ents)[e].gfn
      ensures forall b, e {:trigger e in hash[b]} :: 0 <= b < HASHSIZE_OF_SPTRWMAP ==>
        (e in hash[b] <==> e in old(hash)[b] && e != p)
      ensures old(fail) == [] ==> fail == []
    {
      if !ents[p].failed {
        MarkFailed(p);
        CoversKept(old(ents), ents, hash, s1.pages);
      }
      var _ := Drop(s1, p, None);
    }

    method MarkFailed(p: nat)
      requires Valid() && p in normal
      modifies `ents, `normal, `fail
      ensures Valid()
      ensures ents == old(ents)[p := old(ents)[p].(failed := true)]
      ensures normal == Del(old(normal), p) && fail == old(fail) + [p]
    {
      NoDupAdd(fail, p);
      normal := Del(normal, p);
      fail := fail + [p];
      ents := ents[p := ents[p].(failed := true)];
    }
  }

  ghost predicate PoolOk(s1: Pool<Pte>)
    reads s1
  {
    s1.Valid() && s1.zero == ZERO_PTE && s1.num == NUM_OF_SPTSHADOW1
  }

  lemma CoversUnlinked(ents: seq<RwEnt>, hash: seq<seq<nat>>, hash': seq<seq<nat>>, pages: PtePages, pages': PtePages,
                       except: Option<Cell>, p: nat)
    requires |hash| == |hash'| == HASHSIZE_OF_SPTRWMAP && p < |ents|
    requires Covers(ents, hash, pages, except) && Weaker(pages, pages')
    requires forall b, e {:trigger e in hash'[b]} :: 0 <= b < HASHSIZE_OF_SPTRWMAP ==>
      (e in hash'[b] <==> e in hash[b] && e != p)
    requires InRange(ents[p].cell) && PagesShape(pages)
    requires Some(ents[p].cell) == except || !MapsRw(pages', ents[p].cell, ents[p].hphys)
    ensures Covers(ents, hash', pages', except)
  {
    forall s, i | 0 <= s < |pages'| && 0 <= i < |pages'[s]| && pages'[s][i].rw && Some(Cell(s, i)) != except
      ensures HasEntry(ents, hash', Cell(s, i), pages'[s][i].frame)
    {
      assert pages'[s][i] == pages[s][i];
      var g := pages[s][i].frame;
      assert HasEntry(ents, hash, Cell(s, i), g);
      var e :|
        e in hash[RwHash(g)] && e < |ents| && ents[e].gfn == g && ents[e].hphys == g && ents[e].cell == Cell(s, i);
      assert e != p;
      assert e in hash'[RwHash(g)];
    }
  }

  lemma CoversAssigned(ents: seq<RwEnt>, ents': seq<RwEnt>, hash: seq<seq<nat>>, hash': seq<seq<nat>>,
                       pages: PtePages, p: nat, pte: Cell)
    requires |hash| == |hash'| == HASHSIZE_OF_SPTRWMAP && PagesShape(pages) && InRange(pte)
    requires p < |ents| == |ents'| && ents'[p].cell == pte
    requires forall e :: 0 <= e < |ents| && e != p ==> ents'[e] == ents[e]
    requires var g := pages[pte.slot][pte.idx].frame; ents'[p].gfn == g == ents'[p].hphys && p in hash'[RwHash(g)]
    requires forall b, e {:trigger e in hash[b]} {:trigger e in hash'[b]} ::
      0 <= b < HASHSIZE_OF_SPTRWMAP && e in hash[b] ==> e in hash'[b] && e != p
    requires Covers(ents, hash, pages, Some(pte))
    ensures Covers(ents', hash', pages, None)
  {
    forall s, i | 0 <= s < |pages| && 0 <= i < |pages[s]| && pages[s][i].rw
      ensures HasEntry(ents', hash', Cell(s, i), pages[s][i].frame)
    {
      if Cell(s, i) != pte {
        var g := pages[s][i].frame;
        assert HasEntry(ents, hash, Cell(s, i), g);
        var e :|
        e in hash[RwHash(g)] && e < |ents| && ents[e].gfn == g && ents[e].hphys == g && ents[e].cell == Cell(s, i);
        assert e in hash'[RwHash(g)];
      }
    }
  }

  lemma CoversKept(ents: seq<RwEnt>, ents': seq<RwEnt>, hash: seq<seq<nat>>, pages: PtePages)
    requires |hash| == HASHSIZE_OF_SPTRWMAP && |ents| == |ents'|
    requires forall e :: 0 <= e < |ents| ==> ents'[e] == ents[e].(failed := ents'[e].failed)
    requires Covers(ents, hash, pages, None)
    ensures Covers(ents', hash, pages, None)
  {
    forall s, i | 0 <= s < |pages| && 0 <= i < |pages[s]| && pages[s][i].rw
      ensures HasEntry(ents', hash, Cell(s, i), pages[s][i].frame)
    {
      var g := pages[s][i].frame;
      assert HasEntry(ents, hash, Cell(s, i), g);
      var e :|
        e in hash[RwHash(g)] && e < |ents| && ents[e].gfn == g && ents[e].hphys == g && ents[e].cell == Cell(s, i);
      assert ents'[e].cell == Cell(s, i);
    }
  }

  lemma NoRwFromCovers(ents: seq<RwEnt>, hash: seq<seq<nat>>, pages: PtePages, g: nat)
    requires |hash| == HASHSIZE_OF_SPTRWMAP && Covers(ents, hash, pages, None)
    requires forall e :: e in hash[RwHash(g)] ==> e < |ents| && ents[e].gfn != g
    ensures NoRw(pages, g)
  {
    forall s, i | 0 <= s < |pages| && 0 <= i < |pages[s]| && pages[s][i].rw
      ensures pages[s][i].frame != g
    {
      assert HasEntry(ents, hash, Cell(s, i), pages[s][i].frame);
    }
  }
}
