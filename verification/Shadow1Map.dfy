/** The references from shadow1 slots back to the PDEs that link to them (struct cpu_mmu_spt_shadow1map). */
module Shadow1Map {
  import opened Lists
  import opened ShadowTypes
  import opened ShadowPool

  datatype MapEnt = MapEnt(shadow1: nat, pde: Cell)

  type PdePages = seq<seq<Pde>>

  predicate PdeRange(c: Cell) {
    c.slot < NUM_OF_SPTSHADOW2 && c.idx < ENTRIES
  }

  ghost predicate DirShape(pages: PdePages) {
    |pages| == NUM_OF_SPTSHADOW2 && forall s :: 0 <= s < |pages| ==> |pages[s]| == ENTRIES
  }

  ghost predicate DirPoolOk(s2: Pool<Pde>)
    reads s2
  {
    s2.Valid() && s2.zero == NoPde && s2.num == NUM_OF_SPTSHADOW2
  }

  /** Cell c is registered as a reference to slot s. */
  ghost predicate Registered(ents: seq<MapEnt>, refs: seq<seq<nat>>, s: nat, c: Cell) {
    s < |refs| && exists q :: q in refs[s] && q < |ents| && ents[q].pde == c
  }

  /** Every PDE that links to a shadow1 slot is registered with that slot. */
  ghost predicate LinksOk(ents: seq<MapEnt>, refs: seq<seq<nat>>, pages: PdePages) {
    forall t, j :: 0 <= t < |pages| && 0 <= j < |pages[t]| && pages[t][j].Pde? ==>
      Registered(ents, refs, pages[t][j].slot, Cell(t, j))
  }

  /** q is p with some entries set to zero. */
  ghost predicate Zeroed(p: PdePages, q: PdePages) {
    && |p| == |q|
    && (forall t :: 0 <= t < |p| ==> |p[t]| == |q[t]|)
    && forall t, j :: 0 <= t < |p| && 0 <= j < |p[t]| ==> q[t][j] == p[t][j] || q[t][j] == NoPde
  }

  /** q is p with some of the entries that link to slot s set to zero. */
  ghost predicate Unlinked(p: PdePages, q: PdePages, s: nat) {
    && Zeroed(p, q)
    && forall t, j :: 0 <= t < |p| && 0 <= j < |p[t]| && q[t][j] != p[t][j] ==> p[t][j].Pde? && p[t][j].slot == s
  }

  lemma UnlinkedToo(p: PdePages, q: PdePages, r: PdePages, s: nat)
    requires Unlinked(p, q, s) && Unlinked(q, r, s)
    ensures Unlinked(p, r, s)
  {
    forall t, j | 0 <= t < |p| && 0 <= j < |p[t]|
      ensures r[t][j] == p[t][j] || r[t][j] == NoPde
      ensures r[t][j] != p[t][j] ==> p[t][j].Pde? && p[t][j].slot == s
    {
      assert q[t][j] == p[t][j] || q[t][j] == NoPde;
    }
  }

  class Shadow1Map {
    var ents: seq<MapEnt>
    var used: seq<nat>
    var free: seq<nat>
    var refs: seq<seq<nat>>

    ghost predicate Valid()
      reads this
    {
      && |ents| == NUM_OF_SPTSHADOW1MAP && |refs| == NUM_OF_SPTSHADOW1
      && Partition(used, free, [], NUM_OF_SPTSHADOW1MAP)
      && (forall q :: q in used && q < |ents| ==>
        ents[q].shadow1 < |refs| && q in refs[ents[q].shadow1] && PdeRange(ents[q].pde))
      && (forall s, q {:trigger q in refs[s]} :: 0 <= s < |refs| && q in refs[s] ==>
            q < |ents| && q in used && ents[q].shadow1 == s)
      && (forall s :: 0 <= s < |refs| ==> NoDup(refs[s]))
    }

    /** init_vcpu and clear_shadow1map. */
    constructor ()
      ensures Valid() && forall s :: 0 <= s < |refs| ==> refs[s] == []
    {
      ents := seq(NUM_OF_SPTSHADOW1MAP, _ => MapEnt(0, Cell(0, 0)));
      used, free := [], seq(NUM_OF_SPTSHADOW1MAP, i => i);
      refs := seq(NUM_OF_SPTSHADOW1, _ => []);
      new;
      assert forall k :: 0 <= k < NUM_OF_SPTSHADOW1MAP ==> k in free by {
        forall k | 0 <= k < NUM_OF_SPTSHADOW1MAP ensures k in free { assert free[k] == k; }
      }
    }

    /** Takes entry q off both lists; the PDE it registers is zeroed if it still links to the slot. */
    method Drop(s2: Pool<Pde>, q: nat)
      requires Valid() && DirPoolOk(s2) && q in used
      requires LinksOk(ents, refs, s2.pages)
      modifies `used, `free, `refs, s2`pages
      ensures Valid() && DirPoolOk(s2) && LinksOk(ents, refs, s2.pages)
      ensures Unlinked(old(s2.pages), s2.pages, ents[q].shadow1)
      ensures used == Del(old(used), q) && free == [q] + old(free)
      ensures refs == old(refs)[ents[q].shadow1 := Del(old(refs)[ents[q].shadow1], q)]
    {
      var e := ents[q];
      Unlist(q);
      var pde := s2.pages[e.pde.slot][e.pde.idx];
      if pde.Pde? && pde.slot == e.shadow1 {
        s2.Put(e.pde.slot, e.pde.idx, NoPde);
      }
      LinksDropped(ents, old(refs), refs, old(s2.pages), s2.pages, q);
    }

    method Unlist(q: nat)
      requires Valid() && q in used
      modifies `used, `free, `refs
      ensures Valid()
      ensures used == Del(old(used), q) && free == [q] + old(free)
      ensures refs == old(refs)[ents[q].shadow1 := Del(old(refs)[ents[q].shadow1], q)]
    {
      var s := ents[q].shadow1;
      NoDupPush(free, q);
      used, free := Del(used, q), [q] + free;
      refs := refs[s := Del(refs[s], q)];
    }

    /** add_shadow1map: afterwards the PDE is registered with slot s. */
    method Add(s2: Pool<Pde>, s: nat, pde: Cell)
      requires Valid() && DirPoolOk(s2) && s < NUM_OF_SPTSHADOW1 && PdeRange(pde)
      requires LinksOk(ents, refs, s2.pages)
      modifies this, s2`pages
      ensures Valid() && DirPoolOk(s2) && LinksOk(ents, refs, s2.pages)
      ensures Registered(ents, refs, s, pde)
      ensures Zeroed(old(s2.pages), s2.pages)
      ensures forall i :: 0 <= i < NUM_OF_SPTSHADOW1 && i != s && old(refs)[i] == [] ==> refs[i] == []
    {
      for k := 0 to |refs[s]|
        invariant forall q :: q in refs[s][..k] ==> q < |ents| && ents[q].pde != pde
      {
        var q := refs[s][k];
        assert q in refs[s] && refs[s][..k + 1] == refs[s][..k] + [q];
        if ents[q].pde == pde {
          return;
        }
      }
      if free == [] {
        NotAllEmpty(used, free, [], NUM_OF_SPTSHADOW1MAP);
        assert used[0] in used;
        Drop(s2, used[0]);
      }
      Register(s, pde, s2.pages);
    }

    method Register(s: nat, pde: Cell, ghost pages: PdePages)
      requires Valid() && s < NUM_OF_SPTSHADOW1 && PdeRange(pde) && free != []
      requires LinksOk(ents, refs, pages)
      modifies this
      ensures Valid() && LinksOk(ents, refs, pages) && Registered(ents, refs, s, pde)
      ensures forall i :: 0 <= i < NUM_OF_SPTSHADOW1 && i != s ==> refs[i] == old(refs)[i]
    {
      var p := free[0];
      HeadTail(free);
      NoDupAdd(used, p);
      NoDupAdd(refs[s], p);
      free := free[1..];
      ents := ents[p := MapEnt(s, pde)];
      used := used + [p];
      refs := refs[s := refs[s] + [p]];
      assert p in refs[s];
      LinksKept(old(ents), ents, old(refs), refs, pages, p);
    }

    /** The inner loop of clean_modified_shadow1: afterwards no PDE links to slot s. */
    method DropAll(s2: Pool<Pde>, s: nat)
      requires Valid() && DirPoolOk(s2) && s < NUM_OF_SPTSHADOW1
      requires LinksOk(ents, refs, s2.pages)
      modifies `used, `free, `refs, s2`pages
      ensures Valid() && DirPoolOk(s2) && LinksOk(ents, refs, s2.pages)
      ensures Unlinked(old(s2.pages), s2.pages, s)
      ensures refs == old(refs)[s := []]
      ensures forall t, j :: 0 <= t < |s2.pages| && 0 <= j < |s2.pages[t]| && s2.pages[t][j].Pde? ==>
        s2.pages[t][j].slot != s
    {
      while refs[s] != []
        invariant Valid() && DirPoolOk(s2) && LinksOk(ents, refs, s2.pages)
        invariant Unlinked(old(s2.pages), s2.pages, s)
        invariant refs == old(refs)[s := refs[s]]
        decreases |refs[s]|
      {
        ghost var before := s2.pages;
        assert refs[s][0] in refs[s];
        Drop(s2, refs[s][0]);
        UnlinkedToo(old(s2.pages), before, s2.pages, s);
      }
      forall t, j | 0 <= t < |s2.pages| && 0 <= j < |s2.pages[t]| && s2.pages[t][j].Pde?
        ensures s2.pages[t][j].slot != s
      {
        assert Registered(ents, refs, s2.pages[t][j].slot, Cell(t, j));
      }
    }
  }

  lemma LinksDropped(ents: seq<MapEnt>, refs: seq<seq<nat>>, refs': seq<seq<nat>>, pages: PdePages, pages': PdePages,
                     q: nat)
    requires q < |ents| && ents[q].shadow1 < |refs| && DirShape(pages) && PdeRange(ents[q].pde)
    requires refs' == refs[ents[q].shadow1 := Del(refs[ents[q].shadow1], q)]
    requires LinksOk(ents, refs, pages) && Zeroed(pages, pages')
    requires var pde := pages'[ents[q].pde.slot][ents[q].pde.idx]; pde.Pde? ==> pde.slot != ents[q].shadow1
    ensures LinksOk(ents, refs', pages')
  {
    forall t, j | 0 <= t < |pages'| && 0 <= j < |pages'[t]| && pages'[t][j].Pde?
      ensures Registered(ents, refs', pages'[t][j].slot, Cell(t, j))
    {
      var s := pages[t][j].slot;
      assert pages'[t][j] == pages[t][j];
      assert Registered(ents, refs, s, Cell(t, j));
      var r :| r in refs[s] && r < |ents| && ents[r].pde == Cell(t, j);
      assert r in refs'[s];
    }
  }

  lemma LinksKept(ents: seq<MapEnt>, ents': seq<MapEnt>, refs: seq<seq<nat>>, refs': seq<seq<nat>>, pages: PdePages,
                  p: nat)
    requires |ents| == |ents'| && |refs| == |refs'|
    requires forall q :: 0 <= q < |ents| && q != p ==> ents'[q] == ents[q]
    requires forall s, q {:trigger q in refs[s]} {:trigger q in refs'[s]} :: 0 <= s < |refs| && q in refs[s] ==>
      q in refs'[s] && q != p
    requires LinksOk(ents, refs, pages)
    ensures LinksOk(ents', refs', pages)
  {
    forall t, j | 0 <= t < |pages| && 0 <= j < |pages[t]| && pages[t][j].Pde?
      ensures Registered(ents', refs', pages[t][j].slot, Cell(t, j))
    {
      var s := pages[t][j].slot;
      assert Registered(ents, refs, s, Cell(t, j));
      var r :| r in refs[s] && r < |ents| && ents[r].pde == Cell(t, j);
      assert r in refs'[s] && ents'[r].pde == Cell(t, j);
    }
  }
}
