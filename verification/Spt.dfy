/** The shadow page table cache of one vCPU (CPU_MMU_SPT_3). */
module Spt {
  import opened Lists
  import opened Wrappers
  import opened ShadowTypes
  import opened ShadowPool
  import opened RwMap
  import opened Shadow1Map
  import opened Coherence

  /** Write permission was only taken away: every writable entry of q is writable in p and maps the same frame. */
  ghost predicate FewerRw(p: PtePages, q: PtePages) {
    && |p| == |q|
    && (forall s :: 0 <= s < |p| ==> |p[s]| == |q[s]|)
    && forall s, i :: 0 <= s < |q| && 0 <= i < |q[s]| && q[s][i].rw ==> p[s][i].rw && p[s][i].frame == q[s][i].frame
  }

  /** No shadow PTE maps writable a guest frame that has a normal shadow (one not flagged KEY_MODIFIED)
      of the frame itself; slot except is not considered. */
  ghost predicate Protected(slots: seq<Slot>, normal: seq<nat>, pages: PtePages, except: Option<nat>) {
    forall i :: i in normal && i < |slots| && !slots[i].key.large && Some(i) != except ==> NoRw(pages, slots[i].key.gfn)
  }

  /** A free shadow1 slot is referenced by no registered PDE. */
  ghost predicate Unreferenced(free: seq<nat>, refs: seq<seq<nat>>) {
    forall s :: s in free && s < |refs| ==> refs[s] == []
  }

  /** pages with one entry set to zero. */
  ghost function Without(pages: PtePages, c: Cell): PtePages
    requires c.slot < |pages| && c.idx < |pages[c.slot]|
  {
    pages[c.slot := pages[c.slot][c.idx := ZERO_PTE]]
  }

  lemma FewerRwKeeps(ents: seq<RwEnt>, hash: seq<seq<nat>>, p: PtePages, q: PtePages)
    requires |hash| == HASHSIZE_OF_SPTRWMAP && FewerRw(p, q) && Covers(ents, hash, p, None)
    ensures Covers(ents, hash, q, None)
  {
    forall s, i | 0 <= s < |q| && 0 <= i < |q[s]| && q[s][i].rw
      ensures HasEntry(ents, hash, Cell(s, i), q[s][i].frame)
    {
      assert p[s][i].rw;
    }
  }

  lemma ProtectedKeeps(slots: seq<Slot>, slots': seq<Slot>, normal: seq<nat>, normal': seq<nat>,
                       p: PtePages, q: PtePages, except: Option<nat>)
    requires FewerRw(p, q) && Protected(slots, normal, p, except)
    requires |slots| == |slots'|
    requires forall i :: i in normal' && i < |slots| && Some(i) != except ==>
      i in normal && slots'[i].key == slots[i].key
    ensures Protected(slots', normal', q, except)
  {
    forall i | i in normal' && i < |slots'| && !slots'[i].key.large && Some(i) != except
      ensures NoRw(q, slots'[i].key.gfn)
    {
      assert NoRw(p, slots[i].key.gfn);
    }
  }

  lemma LinksZeroed(ents: seq<MapEnt>, refs: seq<seq<nat>>, p: PdePages, q: PdePages)
    requires LinksOk(ents, refs, p) && Zeroed(p, q)
    ensures LinksOk(ents, refs, q)
  {
    forall t, j | 0 <= t < |q| && 0 <= j < |q[t]| && q[t][j].Pde?
      ensures Registered(ents, refs, q[t][j].slot, Cell(t, j))
    {
      assert q[t][j] == p[t][j];
    }
  }

  lemma LinksStored(ents: seq<MapEnt>, refs: seq<seq<nat>>, p: PdePages, q: PdePages, c: Cell)
    requires LinksOk(ents, refs, p) && c.slot < |p| && c.idx < |p[c.slot]|
    requires c.slot < |q| && c.idx < |q[c.slot]| && q == p[c.slot := p[c.slot][c.idx := q[c.slot][c.idx]]]
    requires q[c.slot][c.idx].Pde? ==> Registered(ents, refs, q[c.slot][c.idx].slot, c)
    ensures LinksOk(ents, refs, q)
  {
    forall t, j | 0 <= t < |q| && 0 <= j < |q[t]| && q[t][j].Pde?
      ensures Registered(ents, refs, q[t][j].slot, Cell(t, j))
    {
      if Cell(t, j) != c {
        assert q[t][j] == p[t][j];
      }
    }
  }

  lemma LinksSameSlot(ents: seq<MapEnt>, refs: seq<seq<nat>>, p: PdePages, q: PdePages)
    requires LinksOk(ents, refs, p) && |p| == |q| && forall t :: 0 <= t < |p| ==> |p[t]| == |q[t]|
    requires forall t, j :: 0 <= t < |q| && 0 <= j < |q[t]| && q[t][j].Pde? ==>
      p[t][j].Pde? && p[t][j].slot == q[t][j].slot
    ensures LinksOk(ents, refs, q)
  {
    forall t, j | 0 <= t < |q| && 0 <= j < |q[t]| && q[t][j].Pde?
      ensures Registered(ents, refs, q[t][j].slot, Cell(t, j))
    {
      assert p[t][j].Pde?;
    }
  }

  lemma NoLinkTo(ents: seq<MapEnt>, refs: seq<seq<nat>>, p: PdePages, s: nat)
    requires LinksOk(ents, refs, p) && s < |refs| && refs[s] == []
    ensures forall t, j :: 0 <= t < |p| && 0 <= j < |p[t]| && p[t][j].Pde? ==> p[t][j].slot != s
  {
    forall t, j | 0 <= t < |p| && 0 <= j < |p[t]| && p[t][j].Pde?
      ensures p[t][j].slot != s
    {
      assert Registered(ents, refs, p[t][j].slot, Cell(t, j));
    }
  }

  /** Every slot kept its key. */
  ghost predicate SameKeys(slots: seq<Slot>, slots': seq<Slot>) {
    |slots| == |slots'| && forall i :: 0 <= i < |slots| ==> slots'[i].key == slots[i].key
  }

  /** Entries were zeroed and cell c was stored. */
  lemma DirStored(guest: Guest, slots2: seq<Slot>, list: seq<nat>, p: PdePages, q: PdePages, slots1: seq<Slot>, c: Cell)
    requires DirOk(guest, slots2, list, p, slots1) && |p| == |q| && forall t :: 0 <= t < |p| ==> |p[t]| == |q[t]|
    requires forall t, j :: 0 <= t < |q| && 0 <= j < |q[t]| && Cell(t, j) != c && q[t][j].Pde? ==> p[t][j] == q[t][j]
    requires c.slot < |q| && c.idx < |q[c.slot]| && q[c.slot][c.idx].Pde? && q[c.slot][c.idx].slot < |slots1|
    requires c.slot in list && c.slot < |slots2| ==>
      DirEntryOk(guest, slots2[c.slot].key, c.idx, slots1[q[c.slot][c.idx].slot].key)
    ensures DirOk(guest, slots2, list, q, slots1)
  {
    forall t, j | t in list && t < |slots2| && t < |q| && 0 <= j < |q[t]| && q[t][j].Pde?
      ensures q[t][j].slot < |slots1| && DirEntryOk(guest, slots2[t].key, j, slots1[q[t][j].slot].key)
    {
      if Cell(t, j) != c {
        assert p[t][j] == q[t][j];
      }
    }
  }

  lemma LeafStored(guest: Guest, gmm: Gmm, slots: seq<Slot>, list: seq<nat>, p: PtePages, q: PtePages, c: Cell)
    requires LeafOk(guest, gmm, slots, list, p)
    requires c.slot < |p| && c.idx < |p[c.slot]| && c.slot < |q| && c.idx < |q[c.slot]|
    requires q == p[c.slot := p[c.slot][c.idx := q[c.slot][c.idx]]]
    requires c.slot < |slots| ==> LeafEntryOk(guest, gmm, slots[c.slot].key, c.idx, q[c.slot][c.idx])
    ensures LeafOk(guest, gmm, slots, list, q)
  {
    forall i, j | i in list && i < |slots| && i < |q| && 0 <= j < |q[i]|
      ensures LeafEntryOk(guest, gmm, slots[i].key, j, q[i][j])
    {
      if Cell(i, j) != c {
        assert LeafEntryOk(guest, gmm, slots[i].key, j, p[i][j]);
      }
    }
  }

  /** The control registers that select the guest's translation, with CR0.WP and EFER.LMA named. */
  datatype Regs = Regs(cr0: nat, cr3: nat, cr4: nat, efer: nat, wp: bool, lma: bool)

  /** What map_page is told about the access (struct map_page_data1). */
  datatype M1 = M1(write: bool, user: bool, attr: nat)

  /** Access rights gathered down to one level of the guest walk (struct map_page_data2). */
  datatype M2 = M2(rw: bool, us: bool, nx: bool)

  datatype Op =
    | PageFault(v: nat, a: M1, r0: M2, r1: M2, r2: M2, g0: nat, g1: Gfn, g2: Gfn, glvl: nat)
    | Store(c: Cell, guest: Guest)
    | MovCr3(r: Regs)
    | Invlpg
    | TlbFlush
    | MmioRegister(first: nat, last: nat)
    | FlushAll

  function Unmapped(page: seq<Pte>, first: nat, last: nat): (r: seq<Pte>)
    ensures |r| == |page|
  {
    seq(|page|, i requires 0 <= i < |page| =>
      if page[i].present && first <= page[i].frame <= last then ZERO_PTE else page[i])
  }

  lemma VmmKeeps(gmm: Gmm, p: PtePages, q: PtePages)
    requires VmmOk(gmm, p) && FewerRw(p, q) && FewerPresent(p, q)
    ensures VmmOk(gmm, q)
  {
    forall s, i | 0 <= s < |q| && 0 <= i < |q[s]| ensures Private(gmm, q[s][i]) {
      assert Private(gmm, p[s][i]);
    }
  }

  lemma ZeroPrivate(gmm: Gmm, pages: PtePages)
    requires forall s :: 0 <= s < |pages| ==> IsZero(ZERO_PTE, pages[s])
    ensures VmmOk(gmm, pages)
  {
  }

  lemma VmmStored(gmm: Gmm, p: PtePages, q: PtePages, c: Cell)
    requires VmmOk(gmm, p) && c.slot < |p| && c.idx < |p[c.slot]| && c.slot < |q| && c.idx < |q[c.slot]|
    requires q == p[c.slot := p[c.slot][c.idx := q[c.slot][c.idx]]] && Private(gmm, q[c.slot][c.idx])
    ensures VmmOk(gmm, q)
  {
    forall s, i | 0 <= s < |q| && 0 <= i < |q[s]| ensures Private(gmm, q[s][i]) {
      assert Cell(s, i) != c ==> q[s][i] == p[s][i] && Private(gmm, p[s][i]);
    }
  }

  lemma RwDropped(p: PtePages, c: Cell)
    requires c.slot < |p| && c.idx < |p[c.slot]|
    ensures var q := p[c.slot := p[c.slot][c.idx := p[c.slot][c.idx].(rw := false)]];
      FewerRw(p, q) && FewerPresent(p, q) && FewerRw(Without(p, c), q)
  {
  }

  lemma WeakerFewer(p: PtePages, q: PtePages)
    requires Weaker(p, q)
    ensures FewerRw(p, q)
  {
  }

  lemma RevokedFewer(p: PtePages, q: PtePages, g: nat)
    requires Revoked(p, q, g)
    ensures FewerRw(p, q) && FewerPresent(p, q)
  {
  }

  lemma WithoutWeaker(p: PtePages, q: PtePages, c: Cell)
    requires Weaker(p, q) && c.slot < |p| && c.idx < |p[c.slot]|
    ensures FewerRw(Without(p, c), Without(q, c))
  {
    forall s, i | 0 <= s < |q| && 0 <= i < |q[s]| && Without(q, c)[s][i].rw
      ensures Without(p, c)[s][i].rw && Without(p, c)[s][i].frame == Without(q, c)[s][i].frame
    {
      assert Cell(s, i) != c;
      assert q[s][i] == p[s][i] || q[s][i] == p[s][i].(rw := false, dirty := false);
    }
  }

  /** What holds away from cell c holds everywhere once nothing normal shadows the frame mapped in c. */
  lemma ProtectedJoin(slots: seq<Slot>, normal: seq<nat>, pages: PtePages, c: Cell)
    requires c.slot < |pages| && c.idx < |pages[c.slot]|
    requires Protected(slots, normal, Without(pages, c), None)
    requires forall i :: i in normal && i < |slots| ==> !ShadowsFrame(slots[i].key, pages[c.slot][c.idx].frame)
    ensures Protected(slots, normal, pages, None)
  {
    forall i | i in normal && i < |slots| && !slots[i].key.large
      ensures NoRw(pages, slots[i].key.gfn)
    {
      var g := slots[i].key.gfn;
      assert NoRw(Without(pages, c), g);
      forall s, j | 0 <= s < |pages| && 0 <= j < |pages[s]|
        ensures !(pages[s][j].rw && pages[s][j].frame == g)
      {
        if Cell(s, j) != c {
          assert Without(pages, c)[s][j] == pages[s][j];
        }
      }
    }
  }

  lemma CoversWeaken(ents: seq<RwEnt>, hash: seq<seq<nat>>, pages: PtePages, c: Cell)
    requires |hash| == HASHSIZE_OF_SPTRWMAP && Covers(ents, hash, pages, None)
    ensures Covers(ents, hash, pages, Some(c))
  {
  }

  /** Only the PTE in cell c changed; it may be left out, and need not be if it is not writable. */
  lemma CoversOthers(ents: seq<RwEnt>, hash: seq<seq<nat>>, p: PtePages, q: PtePages, c: Cell)
    requires |hash| == HASHSIZE_OF_SPTRWMAP && Covers(ents, hash, p, Some(c))
    requires c.slot < |p| && c.idx < |p[c.slot]| && c.slot < |q| && c.idx < |q[c.slot]|
    requires q == p[c.slot := p[c.slot][c.idx := q[c.slot][c.idx]]]
    ensures Covers(ents, hash, q, if q[c.slot][c.idx].rw then Some(c) else None)
  {
    forall s, i | 0 <= s < |q| && 0 <= i < |q[s]| && q[s][i].rw && Cell(s, i) != c
      ensures HasEntry(ents, hash, Cell(s, i), q[s][i].frame)
    {
      assert q[s][i] == p[s][i];
    }
  }

  /** Rights of one level after the override for CR0.WP clear. */
  function Relax(wp: bool, a: M1, r: M2): M2 {
    if wp then r
    else
      var us := r.us && !(!a.user && a.write && !r.rw);
      M2(r.rw || !us, us, r.nx)
  }

  /** The rights that map_page makes of those of one level: the same, or by the rows of the table for CR0.WP clear. */
  predicate Overridden(wp: bool, a: M1, r: M2, rw: bool, us: bool, nx: bool) {
    && nx == r.nx
    && (wp ==> us == r.us && rw == r.rw)
    && (!wp && !r.us ==> !us && rw)
    && (!wp && r.us && r.rw ==> us && rw)
    && (!wp && r.us && !r.rw && !a.user && a.write ==> !us && rw)
    && (!wp && r.us && !r.rw && (a.user || !a.write) ==> us && !rw)
  }

  lemma RelaxTable(wp: bool, a: M1, r: M2)
    ensures var m := Relax(wp, a, r); Overridden(wp, a, r, m.rw, m.us, m.nx)
  {
  }

  /** An access: by user code or not, a write or not, a fetch of an instruction or not. */
  datatype Access = Access(user: bool, write: bool, fetch: bool)

  /** The rights admit the access; wp is CR0.WP. */
  predicate Admits(wp: bool, rw: bool, us: bool, nx: bool, x: Access) {
    && (x.user ==> us)
    && (x.write && (x.user || wp) ==> rw)
    && (x.fetch ==> !nx)
  }

  /** Rights gathered down to level 0 are no more than those down to level 1. */
  predicate Gathered(r0: M2, r1: M2) {
    (r0.rw ==> r1.rw) && (r0.us ==> r1.us) && (r1.nx ==> r0.nx)
  }

  /** The shadow runs with CR0.WP set. What both its levels admit, the guest admits; and they admit the access that
      faulted, if the guest does. */
  lemma OverrideSound(wp: bool, a: M1, r0: M2, r1: M2, pte: M2, pde: M2, x: Access)
    requires Overridden(wp, a, r0, pte.rw, pte.us, pte.nx) && Overridden(wp, a, r1, pde.rw, pde.us, pde.nx)
    ensures Admits(true, pte.rw, pte.us, pte.nx, x) && Admits(true, pde.rw, pde.us, pde.nx, x) ==>
      Admits(wp, r0.rw, r0.us, r0.nx, x)
    ensures Gathered(r0, r1) && Admits(wp, r0.rw, r0.us, r0.nx, x) && x.user == a.user && x.write == a.write ==>
      Admits(true, pte.rw, pte.us, pte.nx, x) && Admits(true, pde.rw, pde.us, pde.nx, x)
  {
  }

  /** The key of the shadow page table: the guest page table, or the 2 MiB of a large page. */
  function Key1(v: nat, g0: nat, g1: Gfn, glvl: nat, wp: bool): Key
    requires 1 <= glvl <= 4
  {
    if glvl == 1 || !g1.Frame? then
      Key(g0 / 512 * 512, 0, 0, true, !wp, false, false, false)
    else
      Key(g1.n, if glvl == 2 then v / 0x20_0000 % 2 else 0, if glvl == 2 then 2 else 3, false, !wp, false, false, false)
  }

  /** The key of the shadow page directory. */
  function Key2(v: nat, g0: nat, g2: Gfn, glvl: nat, wp: bool, r2: M2): Key
    requires 1 <= glvl <= 4 && (glvl == 2 ==> g2.Frame?)
  {
    var nx, us0, rw0 := glvl >= 2 && r2.nx, glvl >= 2 && !r2.us, glvl >= 2 && !r2.rw;
    if glvl == 1 || !g2.Frame? then
      Key(g0 / 0x4_0000 * 0x4_0000, 0, 0, true, !wp, nx, us0, rw0)
    else
      Key(g2.n, if glvl == 2 then v / 0x4000_0000 % 4 else 0, if glvl == 2 then 2 else 3, false, !wp, nx, us0, rw0)
  }

  lemma LowTwoBits(n: nat)
    ensures n % 512 % 4 == n % 4
  {
  }

  /** The keys tell whether CR0.WP is set, and those of directories the rights gathered down to level 2. */
  lemma KeyRights(v: nat, g0: nat, g1: Gfn, g2: Gfn, glvl: nat, wp: bool, r2: M2)
    requires 1 <= glvl <= 4 && (glvl == 2 ==> g2.Frame?)
    ensures Key1(v, g0, g1, glvl, wp).wp0 == !wp
    ensures var key := Key2(v, g0, g2, glvl, wp, r2);
      key.wp0 == !wp && (glvl >= 2 ==> key.rw0 == !r2.rw && key.us0 == !r2.us && key.nx == r2.nx)
  {
  }

  /** A cell of the top tables: in the root when it is a PDPT, else in one of the table pages. */
  datatype Where = InRoot(i: nat) | InTable(t: nat, i: nat)

  function Index1(v: nat): (i: nat)
    ensures i < ENTRIES
  {
    v / 0x1000 % 512
  }

  function Index2(v: nat): (i: nat)
    ensures i < ENTRIES
  {
    v / 0x20_0000 % 512
  }

  function Index3(v: nat): (i: nat)
    ensures i < ENTRIES
  {
    v / 0x4000_0000 % 512
  }

  function Index4(v: nat): (i: nat)
    ensures i < ENTRIES
  {
    v / 0x80_0000_0000 % 512
  }

  /** Every entry of the live top tables is zero or links to a table in use or to a shadow2 slot that is not free. */
  ghost predicate TopOk(root: seq<TopEntry>, tbl: seq<seq<TopEntry>>, cnt: nat, levels: nat, free2: seq<nat>) {
    && TopShape(root, tbl, cnt, levels)
    && (levels == 3 ==> forall i :: 0 <= i < 4 ==> PdpeOk(root[i], free2))
    && (levels == 4 ==> forall i :: 0 <= i < ENTRIES ==> root[i] == NoEntry || (root[i].ToTable? && root[i].tbl < cnt))
    && (levels == 4 ==> forall t, i :: 0 <= t < cnt && 0 <= i < ENTRIES ==> PdpeOk(tbl[t][i], free2))
  }

  ghost predicate TopShape(root: seq<TopEntry>, tbl: seq<seq<TopEntry>>, cnt: nat, levels: nat) {
    && |root| == ENTRIES && |tbl| == NUM_OF_SPTTBL && cnt <= NUM_OF_SPTTBL
    && (forall t :: 0 <= t < NUM_OF_SPTTBL ==> |tbl[t]| == ENTRIES)
    && levels in {0, 3, 4}
  }

  /** The live top tables are empty, so they are well-formed whatever is free. */
  ghost predicate TopEmpty(root: seq<TopEntry>, tbl: seq<seq<TopEntry>>, cnt: nat, levels: nat) {
    && TopShape(root, tbl, cnt, levels)
    && cnt == 0
    && (levels == 3 ==> forall i :: 0 <= i < 4 ==> root[i] == NoEntry)
    && (levels == 4 ==> forall i :: 0 <= i < ENTRIES ==> root[i] == NoEntry)
  }

  lemma TopOkFewer(root: seq<TopEntry>, tbl: seq<seq<TopEntry>>, cnt: nat, levels: nat, free2: seq<nat>,
                   free2': seq<nat>)
    requires TopOk(root, tbl, cnt, levels, free2)
    requires forall x :: x in free2' ==> x in free2
    ensures TopOk(root, tbl, cnt, levels, free2')
  {
  }

  ghost predicate PdpeOk(e: TopEntry, free2: seq<nat>) {
    e == NoEntry || (e.ToShadow2? && e.slot < NUM_OF_SPTSHADOW2 && e.slot !in free2)
  }

  /** Where a guest directory of format 2 (32-bit) or 3 keeps the entry for v. */
  function GuestDirEntry(v: nat, n: nat, fmt: nat): (nat, nat, nat) {
    (n, fmt, if fmt == 2 then v / 0x40_0000 % 1024 else v / 0x20_0000 % 512)
  }

  function GuestTableEntry(v: nat, n: nat, fmt: nat): (nat, nat, nat) {
    (n, fmt, v / 0x1000 % (if fmt == 2 then 1024 else 512))
  }

  /** The guest walk that raised the fault, in terms of what the guest tables hold. */
  predicate WalkOk(guest: Guest, v: nat, g0: nat, g1: Gfn, g2: Gfn, glvl: nat) {
    && 1 <= glvl <= 4
    && var fmt := if glvl == 2 then 2 else 3;
    && (glvl == 1 ==> g1 == g2 == Unused)
    && (g1.Frame? ==>
      g2.Frame? && GuestTableEntry(v, g1.n, fmt) in guest && guest[GuestTableEntry(v, g1.n, fmt)] == Next(g0))
    && (g2.Frame? ==>
          && GuestDirEntry(v, g2.n, fmt) in guest
          && match g1
             case Frame(n) => guest[GuestDirEntry(v, g2.n, fmt)] == Next(n)
             case _ => LargeOk(guest[GuestDirEntry(v, g2.n, fmt)], v, g0, if glvl == 2 then 1024 else 512))
    && (!g2.Frame? ==> glvl != 2 && g0 % 0x4_0000 == v / 0x1000 % 0x4_0000)
  }

  predicate LargeOk(e: GEntry, v: nat, g0: nat, size: nat)
    requires size > 0
  {
    e.BigPage? && e.base % size == 0 && g0 == e.base + v / 0x1000 % size
  }

  /** The keys of map_page are those the guest tables ask for. */
  lemma KeysAgree(guest: Guest, gmm: Gmm, v: nat, g0: nat, g1: Gfn, g2: Gfn, glvl: nat, wp: bool, r2: M2)
    requires WalkOk(guest, v, g0, g1, g2, glvl)
    ensures var key1, key2 := Key1(v, g0, g1, glvl, wp), Key2(v, g0, g2, glvl, wp, r2);
      && DirEntryOk(guest, key2, Index2(v), key1)
      && LeafFrameOk(guest, gmm, key1, Index1(v), gmm.Gp2hp(g0).0)
  {
    var n := v / 0x1000;
    assert v / 0x20_0000 == n / 512 && v / 0x40_0000 == n / 1024 && v / 0x4000_0000 == n / 0x4_0000;
    SplitTable(n);
    if !g2.Frame? {
      SplitGigabyte(g0, n);
    } else {
      SplitDirectory(n);
      if !g1.Frame? {
        SplitLarge(g0, guest[GuestDirEntry(v, g2.n, if glvl == 2 then 2 else 3)].base, n, glvl == 2);
      }
    }
  }

  /** A 32-bit guest page table has twice the entries of its shadow. */
  lemma SplitTable(n: nat)
    ensures n / 512 % 2 * 512 + n % 512 == n % 1024
  {
  }

  /** A 32-bit guest page directory covers four gigabytes in 4 MiB steps. */
  lemma SplitDirectory(n: nat)
    ensures n / 0x4_0000 % 4 * 256 + n / 512 % 512 / 2 == n / 1024 % 1024
    ensures n / 512 % 512 % 2 == n / 512 % 2
  {
    assert n / 0x4_0000 == n / 512 / 512 && n / 1024 == n / 512 / 2;
    SplitHalves(n / 512);
  }

  lemma SplitHalves(m: nat)
    ensures m / 512 % 4 * 256 + m % 512 / 2 == m / 2 % 1024
    ensures m % 512 % 2 == m % 2
  {
    var a, b := m / 512, m % 512;
    assert m == 2 * (256 * a + b / 2) + b % 2;
    assert m / 2 == 1024 * (a / 4) + (a % 4 * 256 + b / 2);
  }

  lemma SplitGigabyte(g: nat, n: nat)
    requires g % 0x4_0000 == n % 0x4_0000
    ensures g / 512 * 512 == g / 0x4_0000 * 0x4_0000 + 512 * (n / 512 % 512) && g % 512 == n % 512
  {
    var r := n % 0x4_0000;
    assert n / 512 == 512 * (n / 0x4_0000) + r / 512;
    assert g / 512 == 512 * (g / 0x4_0000) + r / 512;
  }

  lemma SplitLarge(g: nat, b: nat, n: nat, wide: bool)
    requires b % (if wide then 1024 else 512) == 0 && g == b + n % (if wide then 1024 else 512)
    ensures g / 512 * 512 == b + (if wide then 512 * (n / 512 % 2) else 0) && g % 512 == n % 512
  {
  }

  /** The guest tables changed only in frame g, of which there is no normal shadow. */
  predicate OnlyFrame(guest: Guest, guest': Guest, g: nat) {
    && (forall x :: x in guest && x.0 != g ==> x in guest' && guest'[x] == guest[x])
    && (forall x :: x in guest' && x.0 != g ==> x in guest)
  }

  lemma GuestKeeps(guest: Guest, guest': Guest, gmm: Gmm, g: nat, slots1: seq<Slot>, list1: seq<nat>, pages1: PtePages,
                   slots2: seq<Slot>, list2: seq<nat>, pages2: PdePages)
    requires OnlyFrame(guest, guest', g)
    requires forall i :: i in list1 && i < |slots1| ==> !ShadowsFrame(slots1[i].key, g)
    requires forall i :: i in list2 && i < |slots2| ==> !ShadowsFrame(slots2[i].key, g)
    requires LeafOk(guest, gmm, slots1, list1, pages1) && DirOk(guest, slots2, list2, pages2, slots1)
    ensures LeafOk(guest', gmm, slots1, list1, pages1) && DirOk(guest', slots2, list2, pages2, slots1)
  {
    forall i, j | i in list1 && i < |slots1| && i < |pages1| && 0 <= j < |pages1[i]|
      ensures LeafEntryOk(guest', gmm, slots1[i].key, j, pages1[i][j])
    {
      assert LeafEntryOk(guest, gmm, slots1[i].key, j, pages1[i][j]);
    }
    forall t, j | t in list2 && t < |slots2| && t < |pages2| && 0 <= j < |pages2[t]| && pages2[t][j].Pde?
      ensures pages2[t][j].slot < |slots1| && DirEntryOk(guest', slots2[t].key, j, slots1[pages2[t][j].slot].key)
    {
      assert DirEntryOk(guest, slots2[t].key, j, slots1[pages2[t][j].slot].key);
    }
  }

  /** The two lowest levels of the guest walk: the frame that entry i of the half selected by j of a directory
      with key key2 leads to. */
  function Translate(guest: Guest, key2: Key, j: nat, i: nat): Option<nat> {
    if key2.large then Some(key2.gfn + 512 * j + i)
    else
      var half := if key2.glevels == 2 then j % 2 else 0;
      var x := (key2.gfn, key2.glevels, DirIndex(key2, j));
      if x !in guest then None
      else match guest[x]
        case BigPage(b) => Some(b + 512 * half + i)
        case Next(f) =>
          var y := (f, key2.glevels, 512 * half + i);
          if y in guest && guest[y].Next? then Some(guest[y].frame) else None
  }

  class Spt {
    /** init_vcpu: pages of arbitrary content are cleared; nothing is mapped before the first CR3 load. */
    constructor (dirty1: seq<seq<Pte>>, dirty2: seq<seq<Pde>>, tables: seq<seq<TopEntry>>, gmm: Gmm, guest: Guest)
      requires |dirty1| == NUM_OF_SPTSHADOW1 && |dirty2| == NUM_OF_SPTSHADOW2 && |tables| == NUM_OF_SPTTBL
      requires forall i :: 0 <= i < |dirty1| ==> |dirty1[i]| == ENTRIES
      requires forall i :: 0 <= i < |dirty2| ==> |dirty2[i]| == ENTRIES
      requires forall i :: 0 <= i < |tables| ==> |tables[i]| == ENTRIES
      ensures Valid() && fresh(s1) && fresh(s2) && fresh(rw) && fresh(map1)
      ensures levels == 0
    {
      this.gmm, this.guest := gmm, guest;
      var tables1 := new Pool(ZERO_PTE, dirty1, HASHSIZE_OF_SPTSHADOW1);
      ZeroPrivate(gmm, tables1.pages);
      s1 := tables1;
      s2 := new Pool(NoPde, dirty2, HASHSIZE_OF_SPTSHADOW2);
      rw := new RwMap();
      map1 := new Shadow1Map();
      root, tbl, cnt := seq(ENTRIES, _ => NoEntry), tables, 0;
      levels, wp, regs := 0, false, None;
    }

    const gmm: Gmm
    const s1: Pool<Pte>
    const s2: Pool<Pde>
    const rw: RwMap
    const map1: Shadow1Map
    var root: seq<TopEntry>
    var tbl: seq<seq<TopEntry>>
    var cnt: nat
    var levels: nat
    var wp: bool
    var regs: Option<Regs>
    /** The guest page tables in guest memory. */
    var guest: Guest
    /** The operations of the run so far. */
    ghost var history: seq<Op>

    /** What every step keeps, even in the middle of an operation. A shadow slot that was just made normal
        may not be protected yet: x1 and x2 name it. */
    ghost predicate CoreBut(x1: Option<nat>, x2: Option<nat>)
      reads this, s1, s2, rw, map1
    {
      && s1 as object != s2
      && PoolOk(s1) && DirPoolOk(s2) && rw.Valid() && rw.fail == [] && map1.Valid()
      && Covers(rw.ents, rw.hash, s1.pages, None)
      && LinksOk(map1.ents, map1.refs, s2.pages)
      && Unreferenced(s1.free, map1.refs)
      && Protected(s1.slots, s1.normal, s1.pages, x1)
      && Protected(s2.slots, s2.normal, s1.pages, x2)
      && LeafOk(guest, gmm, s1.slots, s1.normal, s1.pages) && VmmOk(gmm, s1.pages)
      && DirOk(guest, s2.slots, s2.normal, s2.pages, s1.slots)
    }

    ghost predicate Core()
      reads this, s1, s2, rw, map1
    {
      CoreBut(None, None)
    }

    /** The state between two operations. */
    ghost predicate Valid()
      reads this, s1, s2, rw, map1
    {
      Core() && TopOk(root, tbl, cnt, levels, s2.free) && RegsOk()
    }

    predicate RegsOk()
      reads this
    {
      && levels == (if regs.None? then 0 else if regs.value.lma then 4 else 3)
      && (regs.Some? ==> wp == regs.value.wp)
    }

    /** clear_shadow on a shadow1 slot. */
    method CleanSlot1(p: nat)
      requires Core() && p < s1.num
      modifies s1`slots, s1`pages
      ensures Core()
      ensures s1.slots == old(s1.slots)[p := Cleared(old(s1.slots)[p])]
    {
      s1.Clean(p);
      FewerRwKeeps(rw.ents, rw.hash, old(s1.pages), s1.pages);
      ProtectedKeeps(s2.slots, s2.slots, s2.normal, s2.normal, old(s1.pages), s1.pages, None);
      ProtectedKeeps(old(s1.slots), s1.slots, s1.normal, s1.normal, old(s1.pages), s1.pages, None);
      CoherentKeeps1(old(s1.slots), old(s1.normal), old(s1.pages), None);
    }

    /** After a change of the shadow1 slots. */
    lemma CoherentKeeps1(slots: seq<Slot>, normal: seq<nat>, pages: PtePages, clean: Option<nat>)
      requires LeafOk(guest, gmm, slots, normal, pages) && FewerPresent(pages, s1.pages) && |slots| == |s1.slots|
      requires VmmOk(gmm, pages) && FewerRw(pages, s1.pages)
      requires forall i :: i in s1.normal && i < |slots| && Some(i) != clean ==>
        i in normal && s1.slots[i].key == slots[i].key
      requires clean.Some? && clean.value < |s1.pages| ==> IsZero(ZERO_PTE, s1.pages[clean.value])
      requires DirOk(guest, s2.slots, s2.normal, s2.pages, slots)
      requires forall t, j ::
        0 <= t < |s2.pages| && 0 <= j < |s2.pages[t]| && s2.pages[t][j].Pde? && s2.pages[t][j].slot < |slots| ==>
        s1.slots[s2.pages[t][j].slot].key == slots[s2.pages[t][j].slot].key
      ensures LeafOk(guest, gmm, s1.slots, s1.normal, s1.pages) && VmmOk(gmm, s1.pages)
      ensures DirOk(guest, s2.slots, s2.normal, s2.pages, s1.slots)
    {
      VmmKeeps(gmm, pages, s1.pages);
      LeafKeeps(guest, gmm, slots, s1.slots, normal, s1.normal, pages, s1.pages, clean);
      DirKeeps(guest, s2.slots, s2.slots, s2.normal, s2.normal, s2.pages, s2.pages, slots, s1.slots, None);
    }

    /** After a change of the shadow2 slots. */
    lemma CoherentKeeps2(slots: seq<Slot>, normal: seq<nat>, pages: PdePages, clean: Option<nat>)
      requires DirOk(guest, slots, normal, pages, s1.slots) && FewerLinks(pages, s2.pages) && |slots| == |s2.slots|
      requires forall i :: i in s2.normal && i < |slots| && Some(i) != clean ==>
        i in normal && s2.slots[i].key == slots[i].key
      requires clean.Some? && clean.value < |s2.pages| ==> IsZero(NoPde, s2.pages[clean.value])
      ensures DirOk(guest, s2.slots, s2.normal, s2.pages, s1.slots)
    {
      DirKeeps(guest, slots, s2.slots, normal, s2.normal, pages, s2.pages, s1.slots, s1.slots, clean);
    }

    /** clear_shadow on a shadow2 slot. */
    method CleanSlot2(p: nat)
      requires Core() && p < s2.num
      modifies s2`slots, s2`pages
      ensures Core()
      ensures s2.slots == old(s2.slots)[p := Cleared(old(s2.slots)[p])]
    {
      s2.Clean(p);
      LinksZeroed(map1.ents, map1.refs, old(s2.pages), s2.pages);
      CoherentKeeps2(old(s2.slots), old(s2.normal), old(s2.pages), None);
    }

    /** clean_modified_shadow1 with freeflag true. */
    method FreeModified1()
      requires Core()
      modifies s1, s2`pages, map1
      ensures Core() && s1.modified == [] && s1.normal == old(s1.normal)
      ensures old(s1.modified) != [] ==> s1.free != []
      ensures SameKeys(old(s1.slots), s1.slots)
    {
      while s1.modified != []
        invariant Core() && s1.normal == old(s1.normal)
        invariant old(s1.modified) != [] ==> s1.free != [] || s1.modified != []
        invariant SameKeys(old(s1.slots), s1.slots)
        decreases |s1.modified|
      {
        FreeHead1();
      }
    }

    /** One round of clean_modified_shadow1: clear the page, zero the PDEs that link to it, free the slot. */
    method FreeHead1()
      requires Core() && s1.modified != []
      modifies s1, s2`pages, map1
      ensures Core() && s1.normal == old(s1.normal) && s1.modified == old(s1.modified)[1..] && s1.free != []
      ensures var p := old(s1.modified)[0]; p < s1.num && s1.slots == old(s1.slots)[p := Cleared(old(s1.slots)[p])]
    {
      var p := s1.modified[0];
      assert p in s1.modified;
      CleanSlot1(p);
      map1.DropAll(s2, p);
      CoherentKeeps2(s2.slots, s2.normal, old(s2.pages), None);
      s1.Retire(p);
    }

    /** clean_modified_shadow2 with freeflag true; what the top tables link to may be freed. */
    method FreeModified2()
      requires Core()
      modifies s2
      ensures Core() && s2.modified == [] && s2.normal == old(s2.normal)
      ensures old(s2.modified) != [] ==> s2.free != []
      ensures SameKeys(old(s2.slots), s2.slots)
    {
      while s2.modified != []
        invariant Core() && s2.normal == old(s2.normal)
        invariant old(s2.modified) != [] ==> s2.free != [] || s2.modified != []
        invariant SameKeys(old(s2.slots), s2.slots)
        decreases |s2.modified|
      {
        FreeHead2();
      }
    }

    /** One round of clean_modified_shadow2. */
    method FreeHead2()
      requires Core() && s2.modified != []
      modifies s2
      ensures Core() && s2.normal == old(s2.normal) && s2.modified == old(s2.modified)[1..] && s2.free != []
      ensures var p := old(s2.modified)[0]; p < s2.num && s2.slots == old(s2.slots)[p := Cleared(old(s2.slots)[p])]
    {
      var p := s2.modified[0];
      assert p in s2.modified;
      CleanSlot2(p);
      s2.Retire(p);
    }

    /** new_shadow1: a slot for key, from the modified slot of that key, the free list, or by recycling. */
    method NewShadow1(key: Key, off: nat, pm: Option<nat>) returns (p: nat)
      requires Core() && off < ENTRIES
      requires pm.Some? ==> pm.value in s1.modified && s1.slots[pm.value].key == key
      requires pm.None? ==> forall i :: 0 <= i < s1.num && i !in s1.free ==> s1.slots[i].key != key
      modifies s1, s2`pages, map1
      ensures CoreBut(Some(p), None)
      ensures p in s1.normal && s1.MayWrite(p, off) && s1.slots[p].key == key
    {
      if pm.Some? {
        p := ReuseShadow1(pm.value, off);
        return;
      }
      if s1.free == [] {
        Recycle1();
      }
      p := TakeShadow1(key, off);
    }

    /** new_shadow1 without a free slot: the modified slots are freed, or else the oldest normal one. */
    method Recycle1()
      requires Core() && s1.free == []
      modifies s1, s2`pages, map1
      ensures Core() && s1.free != [] && SameKeys(old(s1.slots), s1.slots)
      ensures old(s1.modified) == [] ==> old(s1.normal) != [] && s1.normal == old(s1.normal)[1..]
      ensures old(s1.modified) != [] ==> s1.normal == old(s1.normal)
    {
      if s1.modified == [] {
        NotAllEmpty(s1.modified, s1.normal, s1.free, s1.num);
        assert s1.normal[0] in s1.normal;
        Demote1(s1.normal[0]);
      }
      FreeModified1();
    }

    method ReuseShadow1(pm: nat, off: nat) returns (p: nat)
      requires Core() && off < ENTRIES && pm in s1.modified
      modifies s1
      ensures CoreBut(Some(p), None)
      ensures p == pm && p in s1.normal && s1.MayWrite(p, off) && s1.slots[p].key == old(s1.slots)[pm].key
    {
      p := pm;
      s1.Reuse(p, off);
      FewerRwKeeps(rw.ents, rw.hash, old(s1.pages), s1.pages);
      ProtectedKeeps(s2.slots, s2.slots, s2.normal, s2.normal, old(s1.pages), s1.pages, None);
      ProtectedKeeps(old(s1.slots), s1.slots, old(s1.normal), s1.normal, old(s1.pages), s1.pages, Some(p));
      CoherentKeeps1(old(s1.slots), old(s1.normal), old(s1.pages), Some(p));
    }

    method TakeShadow1(key: Key, off: nat) returns (p: nat)
      requires Core() && off < ENTRIES && s1.free != []
      requires forall i :: 0 <= i < s1.num && i !in s1.free ==> s1.slots[i].key != key
      modifies s1
      ensures CoreBut(Some(p), None)
      ensures p in s1.normal && s1.MayWrite(p, off) && s1.slots[p].key == key
    {
      HeadTail(s1.free);
      p := s1.Take(key, off);
      ProtectedKeeps(old(s1.slots), s1.slots, old(s1.normal), s1.normal, s1.pages, s1.pages, Some(p));
      NoLinkTo(map1.ents, map1.refs, s2.pages, p);
      CoherentKeeps1(old(s1.slots), old(s1.normal), s1.pages, Some(p));
    }

    /** A new shadow of the page that is written is flagged modified at once. */
    method Flag1(p: nat)
      requires CoreBut(Some(p), None) && p in s1.normal
      modifies s1`slots, s1`normal, s1`modified
      ensures Core() && SameKeys(old(s1.slots), s1.slots) && p in s1.modified
      ensures forall i :: 0 <= i < s1.num ==> s1.slots[i].info == old(s1.slots)[i].info
    {
      s1.SetModified(p);
      ProtectedKeeps(old(s1.slots), s1.slots, old(s1.normal), s1.normal, s1.pages, s1.pages, Some(p));
      CoherentKeeps1(old(s1.slots), old(s1.normal), s1.pages, None);
    }

    method Flag2(p: nat)
      requires CoreBut(None, Some(p)) && p in s2.normal
      modifies s2`slots, s2`normal, s2`modified
      ensures Core() && SameKeys(old(s2.slots), s2.slots) && p in s2.modified
      ensures forall i :: 0 <= i < s2.num ==> s2.slots[i].info == old(s2.slots)[i].info
    {
      s2.SetModified(p);
      ProtectedKeeps(old(s2.slots), s2.slots, old(s2.normal), s2.normal, s1.pages, s1.pages, Some(p));
      CoherentKeeps2(old(s2.slots), old(s2.normal), s2.pages, None);
    }

    /** The end of setpde for a new shadow: it is flagged modified when the faulting write is to the page it
        shadows, otherwise that page is write-protected. */
    method Protect1(p: nat, gfnw: Option<nat>)
      requires CoreBut(Some(p), None) && p in s1.normal
      modifies s1`slots, s1`normal, s1`modified, s1`pages, rw
      ensures Core()
      ensures SameKeys(old(s1.slots), s1.slots)
      ensures forall i :: 0 <= i < s1.num ==> s1.slots[i].info == old(s1.slots)[i].info
      ensures var key := old(s1.slots)[p].key;
        if gfnw == Some(key.gfn) && !key.large then p in s1.modified && s1.pages == old(s1.pages)
        else
          && p in s1.normal
          && if key.large then s1.pages == old(s1.pages) else Revoked(old(s1.pages), s1.pages, key.gfn)
    {
      var key := s1.slots[p].key;
      if gfnw.Some? && !key.large && gfnw.value == key.gfn {
        Flag1(p);
      } else if !key.large {
        WriteProtect(key.gfn, Some(p), None);
      }
    }

    /** The end of setpdpe for a new shadow. */
    method Protect2(p: nat, gfnw: Option<nat>)
      requires CoreBut(None, Some(p)) && p in s2.normal
      modifies s2`slots, s2`normal, s2`modified, s1`pages, rw
      ensures Core()
      ensures SameKeys(old(s2.slots), s2.slots)
      ensures forall i :: 0 <= i < s2.num ==> s2.slots[i].info == old(s2.slots)[i].info
      ensures var key := old(s2.slots)[p].key;
        if gfnw == Some(key.gfn) && !key.large then p in s2.modified && s1.pages == old(s1.pages)
        else
          && p in s2.normal
          && if key.large then s1.pages == old(s1.pages) else Revoked(old(s1.pages), s1.pages, key.gfn)
    {
      var key := s2.slots[p].key;
      if gfnw.Some? && !key.large && gfnw.value == key.gfn {
        Flag2(p);
      } else if !key.large {
        WriteProtect(key.gfn, None, Some(p));
      }
    }

    /** makerdonly, seen from the shadow tables: the slots excepted so far are protected as well. */
    method WriteProtect(g: nat, ghost x1: Option<nat>, ghost x2: Option<nat>)
      requires CoreBut(x1, x2)
      requires x1.Some? && x1.value < |s1.slots| ==> s1.slots[x1.value].key.gfn == g
      requires x2.Some? && x2.value < |s2.slots| ==> s2.slots[x2.value].key.gfn == g
      modifies s1`pages, rw
      ensures Core() && NoRw(s1.pages, g) && Revoked(old(s1.pages), s1.pages, g)
    {
      rw.MakeReadOnly(s1, g);
      RevokedFewer(old(s1.pages), s1.pages, g);
      ProtectedKeeps(s1.slots, s1.slots, s1.normal, s1.normal, old(s1.pages), s1.pages, x1);
      ProtectedKeeps(s2.slots, s2.slots, s2.normal, s2.normal, old(s1.pages), s1.pages, x2);
      CoherentKeeps1(s1.slots, s1.normal, old(s1.pages), None);
    }

    /** is_shadow1_pde_ok. */
    method IsShadow1PdeOk(pde: Pde, off: nat, pn: Option<nat>, pm: Option<nat>) returns (ok: bool)
      requires Core() && off < ENTRIES
      requires pn.Some? ==> pn.value in s1.normal
      requires pm.Some? ==> pm.value in s1.modified
      modifies s1`slots, s1`normal
      ensures Core()
      ensures ok ==> pde.Pde? && s1.MayWrite(pde.slot, off)
      ensures ok ==> pn == Some(pde.slot) || pm == Some(pde.slot)
      ensures ok <==>
        pde.Pde? && if pm == Some(pde.slot) then old(s1.slots)[pde.slot].info.n > 0 else pn == Some(pde.slot)
      ensures SameKeys(old(s1.slots), s1.slots)
      ensures !ok ==> s1.slots == old(s1.slots) && s1.normal == old(s1.normal)
    {
      ok := false;
      if pm.Some? && pde.Pde? && pde.slot == pm.value {
        if s1.slots[pm.value].info.n == 0 {
          return;
        }
        NoteEntry1(pm.value, off);
        ok := true;
      } else if pn.Some? && pde.Pde? && pde.slot == pn.value {
        FindShadow1(pn.value, off);
        ok := true;
      }
    }

    /** Entry off of a table that stays modified is recorded. */
    method NoteEntry1(p: nat, off: nat)
      requires Core() && off < ENTRIES && p in s1.modified
      modifies s1`slots
      ensures Core() && s1.MayWrite(p, off) && SameKeys(old(s1.slots), s1.slots)
    {
      s1.UpdateClearinfo(p, off);
      ProtectedKeeps(old(s1.slots), s1.slots, s1.normal, s1.normal, s1.pages, s1.pages, None);
      CoherentKeeps1(old(s1.slots), s1.normal, s1.pages, None);
    }

    /** The found part of find_shadow1. */
    method FindShadow1(p: nat, off: nat)
      requires Core() && off < ENTRIES && p in s1.normal
      modifies s1`slots, s1`normal
      ensures Core() && s1.MayWrite(p, off) && SameKeys(old(s1.slots), s1.slots)
    {
      s1.Refresh(p, off);
      MoveToEnd(old(s1.normal), p);
      ProtectedKeeps(old(s1.slots), s1.slots, old(s1.normal), s1.normal, s1.pages, s1.pages, None);
      CoherentKeeps1(old(s1.slots), old(s1.normal), s1.pages, None);
    }

    /** add_shadow1map followed by the store to the PDE. */
    method LinkPde(c: Cell, p: nat, big: bool, m: M2, ghost x1: Option<nat>)
      requires CoreBut(x1, None) && s2.MayWrite(c.slot, c.idx) && p < s1.num && p !in s1.free
      requires DirWanted(c, s1.slots[p].key)
      modifies s2`pages, map1
      ensures CoreBut(x1, None)
      ensures s2.pages[c.slot][c.idx] == Pde(p, big, m.rw, m.us, m.nx)
    {
      ghost var first := s2.pages;
      map1.Add(s2, p, c);
      ghost var before := s2.pages;
      s2.Put(c.slot, c.idx, Pde(p, big, m.rw, m.us, m.nx));
      LinksStored(map1.ents, map1.refs, before, s2.pages, c);
      DirStored(guest, s2.slots, s2.normal, first, s2.pages, s1.slots, c);
    }

    /** If the directory of cell c is normal, the guest directory it shadows asks for a shadow with this key. */
    ghost predicate DirWanted(c: Cell, key: Key)
      reads this, s2
    {
      c.slot in s2.normal && c.slot < |s2.slots| ==> DirEntryOk(guest, s2.slots[c.slot].key, c.idx, key)
    }

    /** The PDE in cell c links to a slot in use, with rights m, and entry off of its page may be written. */
    ghost predicate LinkedTo(c: Cell, key: Key, off: nat, m: M2)
      reads this, s1, s2
    {
      && c.slot < |s2.pages| && c.idx < |s2.pages[c.slot]|
      && var pde := s2.pages[c.slot][c.idx];
      && pde.Pde? && pde.rw == m.rw && pde.us == m.us && pde.nx == m.nx
      && s1.MayWrite(pde.slot, off) && s1.slots[pde.slot].key == key
    }

    /** setpde when the PDE already links to the right shadow: only its rights are stored again. */
    method KeepPde(c: Cell, key: Key, off: nat, m: M2, pn: Option<nat>, pm: Option<nat>) returns (ok: bool)
      requires Core() && s2.MayWrite(c.slot, c.idx) && off < ENTRIES
      requires pn.Some? ==> pn.value in s1.normal && s1.slots[pn.value].key == key
      requires pm.Some? ==> pm.value in s1.modified && s1.slots[pm.value].key == key
      modifies s1`slots, s1`normal, s2`pages
      ensures Core() && (ok ==> LinkedTo(c, key, off, m))
      ensures !ok ==> s1.slots == old(s1.slots) && s1.normal == old(s1.normal) && s2.pages == old(s2.pages)
      ensures old(Linked(s2.pages[c.slot][c.idx], pm)) ==> ok
    {
      var pde := s2.pages[c.slot][c.idx];
      ok := IsShadow1PdeOk(pde, off, pn, pm);
      if ok {
        StoreRights(c, m);
      }
    }

    /** A PDE links to the modified slot pm, which has recorded entries. */
    ghost predicate Linked(pde: Pde, pm: Option<nat>)
      requires pm.Some? ==> pm.value < |s1.slots|
      reads s1
    {
      pde.Pde? && pm == Some(pde.slot) && s1.slots[pde.slot].info.n > 0
    }

    method StoreRights(c: Cell, m: M2)
      requires Core() && s2.MayWrite(c.slot, c.idx) && s2.pages[c.slot][c.idx].Pde?
      modifies s2`pages
      ensures Core()
      ensures var pde := old(s2.pages)[c.slot][c.idx];
        s2.pages == old(s2.pages)[c.slot := old(s2.pages)[c.slot][c.idx := pde.(rw := m.rw, us := m.us, nx := m.nx)]]
    {
      var pde := s2.pages[c.slot][c.idx];
      s2.Put(c.slot, c.idx, pde.(rw := m.rw, us := m.us, nx := m.nx));
      LinksSameSlot(map1.ents, map1.refs, old(s2.pages), s2.pages);
      CoherentKeeps2(s2.slots, s2.normal, old(s2.pages), None);
    }

    /** setpde when find_shadow1 finds a normal shadow. */
    method HitPde(c: Cell, key: Key, off: nat, m: M2, pn: nat)
      requires Core() && s2.MayWrite(c.slot, c.idx) && off < ENTRIES && pn in s1.normal
      requires s1.slots[pn].key == key && DirWanted(c, key)
      modifies s1`slots, s1`normal, s2`pages, map1
      ensures Core() && LinkedTo(c, key, off, m)
    {
      FindShadow1(pn, off);
      LinkPde(c, pn, key.large, m, None);
    }

    /** setpde when a new shadow is needed. */
    method MakePde(c: Cell, key: Key, gfnw: Option<nat>, off: nat, m: M2, pm: Option<nat>)
      requires Core() && s2.MayWrite(c.slot, c.idx) && off < ENTRIES && DirWanted(c, key)
      requires pm.Some? ==> pm.value in s1.modified && s1.slots[pm.value].key == key
      requires pm.None? ==> forall i :: 0 <= i < s1.num && i !in s1.free ==> s1.slots[i].key != key
      modifies s1, s2`pages, map1, rw
      ensures Core() && LinkedTo(c, key, off, m)
    {
      var p := NewShadow1(key, off, pm);
      LinkNew(c, key, p, gfnw, off, m);
    }

    method LinkNew(c: Cell, key: Key, p: nat, gfnw: Option<nat>, off: nat, m: M2)
      requires CoreBut(Some(p), None) && s2.MayWrite(c.slot, c.idx) && DirWanted(c, key)
      requires p in s1.normal && s1.MayWrite(p, off) && s1.slots[p].key == key
      modifies s1`slots, s1`normal, s1`modified, s1`pages, s2`pages, map1, rw
      ensures Core() && LinkedTo(c, key, off, m)
    {
      LinkPde(c, p, key.large, m, Some(p));
      Protect1(p, gfnw);
    }

    /** setpde: cell c links to a shadow for key, and entry off of its page may be written. */
    method SetPde(c: Cell, key: Key, gfnw: Option<nat>, off: nat, m: M2) returns (r: bool)
      requires Core() && s2.MayWrite(c.slot, c.idx) && off < ENTRIES && DirWanted(c, key)
      modifies s1, s2`pages, map1, rw
      ensures Core() && r && LinkedTo(c, key, off, m)
    {
      var pn, pm := s1.FindFromHash(key);
      r := ReusePde(c, key, off, m, pn, pm);
      if !r {
        MakePde(c, key, gfnw, off, m, pm);
        r := true;
      }
    }

    /** The part of setpde that needs no new table. */
    method ReusePde(c: Cell, key: Key, off: nat, m: M2, pn: Option<nat>, pm: Option<nat>) returns (ok: bool)
      requires Core() && s2.MayWrite(c.slot, c.idx) && off < ENTRIES && DirWanted(c, key)
      requires pn.Some? ==> pn.value in s1.normal && s1.slots[pn.value].key == key
      requires pm.Some? ==> pm.value in s1.modified && s1.slots[pm.value].key == key
      modifies s1`slots, s1`normal, s2`pages, map1
      ensures Core() && (ok ==> LinkedTo(c, key, off, m))
      ensures !ok ==> pn.None? && s1.slots == old(s1.slots) && s1.normal == old(s1.normal) && s2.pages == old(s2.pages)
      ensures old(Linked(s2.pages[c.slot][c.idx], pm)) ==> ok
    {
      ok := false;
      if s2.pages[c.slot][c.idx] != NoPde {
        ok := KeepPde(c, key, off, m, pn, pm);
      }
      if !ok && pn.Some? {
        HitPde(c, key, off, m, pn.value);
        ok := true;
      }
    }

    /** is_shadow2_pdpe_ok. */
    method IsShadow2PdpeOk(pdpe: TopEntry, off: nat, pn: Option<nat>, pm: Option<nat>) returns (ok: bool)
      requires Core() && off < ENTRIES
      requires pn.Some? ==> pn.value in s2.normal
      requires pm.Some? ==> pm.value in s2.modified
      modifies s2`slots, s2`normal
      ensures Core()
      ensures ok ==> pdpe.ToShadow2? && s2.MayWrite(pdpe.slot, off)
      ensures ok ==> pn == Some(pdpe.slot) || pm == Some(pdpe.slot)
      ensures ok <==>
        pdpe.ToShadow2? && if pm == Some(pdpe.slot) then old(s2.slots)[pdpe.slot].info.n > 0 else pn == Some(pdpe.slot)
      ensures SameKeys(old(s2.slots), s2.slots)
      ensures !ok ==> s2.slots == old(s2.slots) && s2.normal == old(s2.normal)
    {
      ok := false;
      if pm.Some? && pdpe.ToShadow2? && pdpe.slot == pm.value {
        if s2.slots[pm.value].info.n == 0 {
          return;
        }
        NoteEntry2(pm.value, off);
        ok := true;
      } else if pn.Some? && pdpe.ToShadow2? && pdpe.slot == pn.value {
        FindShadow2(pn.value, off);
        ok := true;
      }
    }

    /** The same for a directory. */
    method NoteEntry2(p: nat, off: nat)
      requires Core() && off < ENTRIES && p in s2.modified
      modifies s2`slots
      ensures Core() && s2.MayWrite(p, off) && SameKeys(old(s2.slots), s2.slots)
    {
      s2.UpdateClearinfo(p, off);
      ProtectedKeeps(old(s2.slots), s2.slots, s2.normal, s2.normal, s1.pages, s1.pages, None);
      CoherentKeeps2(old(s2.slots), s2.normal, s2.pages, None);
    }

    /** The found part of find_shadow2. */
    method FindShadow2(p: nat, off: nat)
      requires Core() && off < ENTRIES && p in s2.normal
      modifies s2`slots, s2`normal
      ensures Core() && s2.MayWrite(p, off) && SameKeys(old(s2.slots), s2.slots)
    {
      s2.Refresh(p, off);
      MoveToEnd(old(s2.normal), p);
      ProtectedKeeps(old(s2.slots), s2.slots, old(s2.normal), s2.normal, s1.pages, s1.pages, None);
      CoherentKeeps2(old(s2.slots), old(s2.normal), s2.pages, None);
    }

    /** new_shadow2: unlike new_shadow1 it gives up after recycling, so that the top tables can be cleared. */
    method NewShadow2(key: Key, off: nat, pm: Option<nat>) returns (r: bool, p: nat)
      requires Core() && off < ENTRIES
      requires pm.Some? ==> pm.value in s2.modified && s2.slots[pm.value].key == key
      requires pm.None? ==> forall i :: 0 <= i < s2.num && i !in s2.free ==> s2.slots[i].key != key
      modifies s2
      ensures r ==> CoreBut(None, Some(p)) && p in s2.normal && s2.MayWrite(p, off) && s2.slots[p].key == key
      ensures r ==> forall x :: x in s2.free ==> x in old(s2.free)
      ensures !r ==> Core() && s2.free != []
      ensures !r && old(s2.modified) == [] ==> old(s2.normal) != [] && s2.normal == old(s2.normal)[1..]
      ensures !r && old(s2.modified) != [] ==> s2.normal == old(s2.normal)
      ensures old(s2.free) != [] ==> r
    {
      p := 0;
      if pm.Some? {
        p := ReuseShadow2(pm.value, off);
        return true, p;
      }
      if s2.free == [] {
        if s2.modified == [] {
          NotAllEmpty(s2.modified, s2.normal, s2.free, s2.num);
          assert s2.normal[0] in s2.normal;
          Demote2(s2.normal[0]);
        }
        FreeModified2();
        return false, p;
      }
      p := TakeShadow2(key, off);
      return true, p;
    }

    method ReuseShadow2(pm: nat, off: nat) returns (p: nat)
      requires Core() && off < ENTRIES && pm in s2.modified
      modifies s2
      ensures CoreBut(None, Some(p)) && s2.free == old(s2.free)
      ensures p == pm && p in s2.normal && s2.MayWrite(p, off) && s2.slots[p].key == old(s2.slots)[pm].key
    {
      p := pm;
      s2.Reuse(p, off);
      LinksZeroed(map1.ents, map1.refs, old(s2.pages), s2.pages);
      ProtectedKeeps(old(s2.slots), s2.slots, old(s2.normal), s2.normal, s1.pages, s1.pages, Some(p));
      CoherentKeeps2(old(s2.slots), old(s2.normal), old(s2.pages), Some(p));
    }

    method TakeShadow2(key: Key, off: nat) returns (p: nat)
      requires Core() && off < ENTRIES && s2.free != []
      requires forall i :: 0 <= i < s2.num && i !in s2.free ==> s2.slots[i].key != key
      modifies s2
      ensures CoreBut(None, Some(p)) && s2.free == old(s2.free)[1..]
      ensures p in s2.normal && s2.MayWrite(p, off) && s2.slots[p].key == key
    {
      HeadTail(s2.free);
      p := s2.Take(key, off);
      ProtectedKeeps(old(s2.slots), s2.slots, old(s2.normal), s2.normal, s1.pages, s1.pages, Some(p));
      CoherentKeeps2(old(s2.slots), old(s2.normal), s2.pages, Some(p));
    }

    /** The cell of the top tables that maps the gigabyte of v, if the tables reach it. */
    function PdpeFor(v: nat): Option<Where>
      reads this
    {
      if levels == 3 then Some(InRoot(Index3(v) % 4))
      else if Index4(v) < |root| && root[Index4(v)].ToTable? then Some(InTable(root[Index4(v)].tbl, Index3(v)))
      else None
    }

    predicate Live(w: Where)
      reads this
    {
      match w
      case InRoot(i) => levels == 3 && i < 4
      case InTable(t, i) => levels == 4 && t < cnt && i < ENTRIES
    }

    function ReadPdpe(w: Where): TopEntry
      requires TopShape(root, tbl, cnt, levels) && Live(w)
      reads this
    {
      match w
      case InRoot(i) => root[i]
      case InTable(t, i) => tbl[t][i]
    }

    method WritePdpe(w: Where, e: TopEntry)
      requires TopOk(root, tbl, cnt, levels, s2.free) && Live(w) && PdpeOk(e, s2.free)
      modifies `root, `tbl
      ensures TopOk(root, tbl, cnt, levels, s2.free) && ReadPdpe(w) == e
      ensures forall v :: old(PdpeFor(v)) == PdpeFor(v)
    {
      match w
      case InRoot(i) => root := root[i := e];
      case InTable(t, i) => tbl := tbl[t := tbl[t][i := e]];
    }

    /** mapsub at level 3: with clearall the top tables are emptied first. Fails when the tables run out. */
    method MapSub(v: nat, clearall: bool) returns (ok: bool)
      requires TopShape(root, tbl, cnt, levels) && levels != 0
      requires !clearall ==> TopOk(root, tbl, cnt, levels, s2.free)
      modifies `root, `tbl, `cnt
      ensures TopOk(root, tbl, cnt, levels, s2.free)
      ensures ok ==> PdpeFor(v).Some? && Live(PdpeFor(v).value)
      ensures clearall ==> ok
    {
      if clearall {
        ClearRoot();
      }
      if levels == 4 && root[Index4(v)] == NoEntry {
        if cnt == NUM_OF_SPTTBL {
          return false;
        }
        root := root[Index4(v) := ToTable(cnt)];
        tbl := tbl[cnt := seq(ENTRIES, _ => NoEntry)];
        cnt := cnt + 1;
      }
      return true;
    }

    /** pmap_clear of the root table, whose size depends on levels. */
    method ClearRoot()
      requires TopShape(root, tbl, cnt, levels)
      modifies `root, `cnt
      ensures TopEmpty(root, tbl, cnt, levels)
    {
      root := if levels == 3 then seq(4, _ => NoEntry) + root[4..] else seq(ENTRIES, _ => NoEntry);
      cnt := 0;
    }

    /** The part of setpdpe that needs no new directory. */
    method ReusePdpe(w: Where, key: Key, off: nat, pn: Option<nat>, pm: Option<nat>) returns (ok: bool)
      requires Valid() && Live(w) && off < ENTRIES
      requires pn.Some? ==> pn.value in s2.normal && s2.slots[pn.value].key == key
      requires pm.Some? ==> pm.value in s2.modified && s2.slots[pm.value].key == key
      modifies `root, `tbl, s2`slots, s2`normal
      ensures Valid() && (ok ==> Reached(w, key, off))
      ensures forall v :: old(PdpeFor(v)) == PdpeFor(v)
      ensures !ok ==> pn.None? && s2.slots == old(s2.slots) && s2.normal == old(s2.normal)
      ensures pm.Some? && old(ReadPdpe(w)) == ToShadow2(pm.value) && old(s2.slots)[pm.value].info.n > 0 ==> ok
    {
      ok := false;
      var pdpe := ReadPdpe(w);
      if pdpe != NoEntry {
        ok := KeepPdpe(w, key, off, pn, pm);
      }
      if !ok && pn.Some? {
        HitPdpe(w, key, off, pn.value);
        ok := true;
      }
    }

    /** setpdpe: the top entry in w links to a shadow2 slot for key, and entry off of its page may be written. */
    method SetPdpe(w: Where, key: Key, gfnw: Option<nat>, off: nat) returns (r: bool)
      requires Valid() && Live(w) && off < ENTRIES
      modifies `root, `tbl, s2, s1`pages, rw
      ensures Core() && TopOk(root, tbl, cnt, levels, [])
      ensures r ==> Valid() && Reached(w, key, off)
      ensures forall v :: old(PdpeFor(v)) == PdpeFor(v)
      ensures !r ==> s2.free != []
      ensures old(s2.free) != [] ==> r
    {
      var pn, pm := s2.FindFromHash(key);
      r := ReusePdpe(w, key, off, pn, pm);
      if !r {
        r := MakePdpe(w, key, gfnw, off, pm);
      }
    }

    /** setpdpe when the top entry already links to the right shadow. */
    method KeepPdpe(w: Where, key: Key, off: nat, pn: Option<nat>, pm: Option<nat>) returns (ok: bool)
      requires Valid() && Live(w) && off < ENTRIES
      requires pn.Some? ==> pn.value in s2.normal && s2.slots[pn.value].key == key
      requires pm.Some? ==> pm.value in s2.modified && s2.slots[pm.value].key == key
      modifies s2`slots, s2`normal
      ensures Valid() && (ok ==> Reached(w, key, off))
      ensures !ok ==> s2.slots == old(s2.slots) && s2.normal == old(s2.normal)
      ensures pm.Some? && ReadPdpe(w) == ToShadow2(pm.value) && old(s2.slots)[pm.value].info.n > 0 ==> ok
    {
      ok := IsShadow2PdpeOk(ReadPdpe(w), off, pn, pm);
    }

    /** The top entry in w links to a shadow2 slot, and entry off of its page may be written. */
    ghost predicate Reached(w: Where, key: Key, off: nat)
      reads this, s2
    {
      && TopOk(root, tbl, cnt, levels, []) && Live(w)
      && ReadPdpe(w).ToShadow2? && s2.MayWrite(ReadPdpe(w).slot, off) && s2.slots[ReadPdpe(w).slot].key == key
    }

    /** setpdpe when find_shadow2 finds a normal shadow. */
    method HitPdpe(w: Where, key: Key, off: nat, pn: nat)
      requires Valid() && Live(w) && off < ENTRIES && pn in s2.normal && s2.slots[pn].key == key
      modifies `root, `tbl, s2`slots, s2`normal
      ensures Valid() && Reached(w, key, off)
      ensures forall v :: old(PdpeFor(v)) == PdpeFor(v)
    {
      FindShadow2(pn, off);
      WritePdpe(w, ToShadow2(pn));
    }

    /** setpdpe when a new shadow is needed. */
    method MakePdpe(w: Where, key: Key, gfnw: Option<nat>, off: nat, pm: Option<nat>) returns (r: bool)
      requires Valid() && Live(w) && off < ENTRIES
      requires pm.Some? ==> pm.value in s2.modified && s2.slots[pm.value].key == key
      requires pm.None? ==> forall i :: 0 <= i < s2.num && i !in s2.free ==> s2.slots[i].key != key
      modifies `root, `tbl, s2, s1`pages, rw
      ensures Core() && TopOk(root, tbl, cnt, levels, [])
      ensures r ==> Valid() && Reached(w, key, off)
      ensures forall v :: old(PdpeFor(v)) == PdpeFor(v)
      ensures !r ==> s2.free != []
      ensures old(s2.free) != [] ==> r
    {
      var p;
      r, p := NewShadow2(key, off, pm);
      TopOkFewer(root, tbl, cnt, levels, old(s2.free), if r then s2.free else []);
      if r {
        LinkPdpe(w, key, p, gfnw, off);
      }
    }

    /** The stores at the end of setpdpe for a new shadow. */
    method LinkPdpe(w: Where, key: Key, p: nat, gfnw: Option<nat>, off: nat)
      requires CoreBut(None, Some(p)) && p in s2.normal && s2.MayWrite(p, off) && s2.slots[p].key == key
      requires TopOk(root, tbl, cnt, levels, s2.free) && RegsOk() && Live(w)
      modifies `root, `tbl, s2`slots, s2`normal, s2`modified, s1`pages, rw
      ensures Valid() && Reached(w, key, off)
      ensures forall v :: old(PdpeFor(v)) == PdpeFor(v)
    {
      WritePdpe(w, ToShadow2(p));
      Protect2(p, gfnw);
    }

    /** A writable PTE was stored in cell c, but what it maps may be shadowed; entered says that the reverse map
        has it already. */
    ghost predicate Installing(c: Cell, entered: bool)
      reads this, s1, s2, rw, map1
    {
      && s1 as object != s2
      && PoolOk(s1) && DirPoolOk(s2) && rw.Valid() && rw.fail == [] && map1.Valid()
      && Covers(rw.ents, rw.hash, s1.pages, if entered then None else Some(c))
      && LinksOk(map1.ents, map1.refs, s2.pages)
      && Unreferenced(s1.free, map1.refs)
      && InRange(c) && (entered ==> rw.Entered(s1.pages[c.slot][c.idx].frame, c))
      && Protected(s1.slots, s1.normal, Without(s1.pages, c), None)
      && Protected(s2.slots, s2.normal, Without(s1.pages, c), None)
      && LeafOk(guest, gmm, s1.slots, s1.normal, s1.pages) && VmmOk(gmm, s1.pages)
      && DirOk(guest, s2.slots, s2.normal, s2.pages, s1.slots)
    }

    /** update_shadow: with needrw the shadows of frame g are flagged modified, otherwise the PTE in cell c
        loses RW if there is one. */
    method UpdateShadow(g: nat, c: Cell, needrw: bool)
      requires Installing(c, true) && s1.pages[c.slot][c.idx].frame == g
      modifies s1`slots, s1`normal, s1`modified, s1`pages, s2`slots, s2`normal, s2`modified, rw
      ensures Core()
      ensures Shadowed(g) == (!needrw && old(Shadowed(g)))
      ensures !Shadowed(g) ==> s1.pages == old(s1.pages)
      ensures Shadowed(g) ==>
        s1.pages == old(s1.pages)[c.slot := old(s1.pages)[c.slot][c.idx := old(s1.pages)[c.slot][c.idx].(rw := false)]]
      ensures SameUse(old(s1.slots), s1.slots, old(s1.normal), s1.normal)
      ensures SameUse(old(s2.slots), s2.slots, old(s2.normal), s2.normal)
    {
      var ok := ScanBoth(g, c, needrw);
      if ok {
        ProtectedJoin(s1.slots, s1.normal, s1.pages, c);
        ProtectedJoin(s2.slots, s2.normal, s1.pages, c);
      } else {
        TakeBack(g, c);
      }
    }

    /** A shadow of guest frame g is in use and not flagged modified. */
    ghost predicate Shadowed(g: nat)
      reads s1, s2
    {
      || (exists i :: i in s1.normal && i < |s1.slots| && ShadowsFrame(s1.slots[i].key, g))
      || (exists i :: i in s2.normal && i < |s2.slots| && ShadowsFrame(s2.slots[i].key, g))
    }

    /** The scan of both hash tables. */
    method ScanBoth(g: nat, c: Cell, needrw: bool) returns (ok: bool)
      requires Installing(c, true)
      modifies s1`slots, s1`normal, s1`modified, s2`slots, s2`normal, s2`modified
      ensures Installing(c, true) && (needrw ==> ok)
      ensures SameUse(old(s1.slots), s1.slots, old(s1.normal), s1.normal)
      ensures SameUse(old(s2.slots), s2.slots, old(s2.normal), s2.normal)
      ensures Shadowed(g) == !ok && (!needrw ==> ok == !old(Shadowed(g)))
    {
      ok := Scan1(g, c, needrw);
      if ok {
        ok := Scan2(g, c, needrw);
      }
    }

    method Scan1(g: nat, c: Cell, needrw: bool) returns (ok: bool)
      requires Installing(c, true)
      modifies s1`slots, s1`normal, s1`modified
      ensures Installing(c, true) && (needrw ==> ok)
      ensures !needrw ==> s1.slots == old(s1.slots) && s1.normal == old(s1.normal)
      ensures SameUse(old(s1.slots), s1.slots, old(s1.normal), s1.normal)
      ensures ok == !(exists i :: i in s1.normal && i < |s1.slots| && ShadowsFrame(s1.slots[i].key, g))
    {
      ghost var pages := Without(s1.pages, c);
      ok := s1.ScanFrame(g, needrw);
      ProtectedKeeps(old(s1.slots), s1.slots, old(s1.normal), s1.normal, pages, pages, None);
      CoherentKeeps1(old(s1.slots), old(s1.normal), s1.pages, None);
    }

    method Scan2(g: nat, c: Cell, needrw: bool) returns (ok: bool)
      requires Installing(c, true)
      modifies s2`slots, s2`normal, s2`modified
      ensures Installing(c, true) && (needrw ==> ok)
      ensures !needrw ==> s2.slots == old(s2.slots) && s2.normal == old(s2.normal)
      ensures SameUse(old(s2.slots), s2.slots, old(s2.normal), s2.normal)
      ensures ok == !(exists i :: i in s2.normal && i < |s2.slots| && ShadowsFrame(s2.slots[i].key, g))
    {
      ghost var pages := Without(s1.pages, c);
      ok := s2.ScanFrame(g, needrw);
      ProtectedKeeps(old(s2.slots), s2.slots, old(s2.normal), s2.normal, pages, pages, None);
      CoherentKeeps2(old(s2.slots), old(s2.normal), s2.pages, None);
    }

    /** Fewer writable entries than in p: what was protected still is. */
    lemma ProtectedAgain(p: PtePages)
      requires FewerRw(p, s1.pages)
      requires Protected(s1.slots, s1.normal, p, None) && Protected(s2.slots, s2.normal, p, None)
      ensures Protected(s1.slots, s1.normal, s1.pages, None) && Protected(s2.slots, s2.normal, s1.pages, None)
    {
      ProtectedKeeps(s1.slots, s1.slots, s1.normal, s1.normal, p, s1.pages, None);
      ProtectedKeeps(s2.slots, s2.slots, s2.normal, s2.normal, p, s1.pages, None);
    }

    /** The last part of update_shadow: the entry and the write permission just given are taken back. */
    method TakeBack(g: nat, c: Cell)
      requires Installing(c, true) && s1.pages[c.slot][c.idx].frame == g
      modifies s1`pages, rw`fail, rw`normal, rw`free, rw`hash
      ensures Core()
      ensures exists p :: old(rw.HeadIs(p, g, c)) && rw.free == [p] + old(rw.free)
      ensures var p := old(s1.pages);
        s1.pages == p[c.slot := p[c.slot][c.idx := p[c.slot][c.idx].(rw := false)]]
    {
      CoversWeaken(rw.ents, rw.hash, s1.pages, c);
      rw.Forget(g, c, s1.pages);
      DropRw(c);
    }

    method DropRw(c: Cell)
      requires Installing(c, false)
      modifies s1`pages
      ensures Core()
      ensures var p := old(s1.pages);
        s1.pages == p[c.slot := p[c.slot][c.idx := p[c.slot][c.idx].(rw := false)]]
    {
      RwDropped(s1.pages, c);
      s1.Put(c.slot, c.idx, s1.pages[c.slot][c.idx].(rw := false));
      CoversOthers(rw.ents, rw.hash, old(s1.pages), s1.pages, c);
      ProtectedAgain(Without(old(s1.pages), c));
      CoherentKeeps1(s1.slots, s1.normal, old(s1.pages), None);
    }

    /** The store of the PTE at the end of map_page, with update_rwmap and update_shadow. */
    method StorePte(c: Cell, pte: Pte, write: bool)
      requires Core() && s1.MayWrite(c.slot, c.idx) && LeafWanted(c, pte)
      modifies s1`slots, s1`normal, s1`modified, s1`pages, s2`slots, s2`normal, s2`modified, rw
      ensures Core()
      ensures s1.pages[c.slot][c.idx] == if pte.rw && Shadowed(pte.frame) then pte.(rw := false) else pte
      ensures write && pte.rw ==> !Shadowed(pte.frame)
      ensures SameUse(old(s1.slots), s1.slots, old(s1.normal), s1.normal)
      ensures SameUse(old(s2.slots), s2.slots, old(s2.normal), s2.normal)
    {
      PutPte(c, pte);
      if pte.rw {
        EnterPte(c, pte.frame);
        UpdateShadow(pte.frame, c, write);
      }
    }

    method PutPte(c: Cell, pte: Pte)
      requires Core() && s1.MayWrite(c.slot, c.idx) && LeafWanted(c, pte)
      modifies s1`pages
      ensures if pte.rw then Installing(c, false) else Core()
      ensures s1.pages == old(s1.pages)[c.slot := old(s1.pages)[c.slot][c.idx := pte]]
    {
      s1.Put(c.slot, c.idx, pte);
      CoversOthers(rw.ents, rw.hash, old(s1.pages), s1.pages, c);
      ghost var kept := if pte.rw then Without(s1.pages, c) else s1.pages;
      ProtectedKeeps(s1.slots, s1.slots, s1.normal, s1.normal, old(s1.pages), kept, None);
      ProtectedKeeps(s2.slots, s2.slots, s2.normal, s2.normal, old(s1.pages), kept, None);
      LeafStored(guest, gmm, s1.slots, s1.normal, old(s1.pages), s1.pages, c);
      VmmStored(gmm, old(s1.pages), s1.pages, c);
    }

    /** If the shadow of cell c is normal, the guest table it shadows asks for this PTE, and it hides the VMM. */
    ghost predicate LeafWanted(c: Cell, pte: Pte)
      reads this, s1
    {
      && Private(gmm, pte)
      && (c.slot < |s1.slots| ==> LeafEntryOk(guest, gmm, s1.slots[c.slot].key, c.idx, pte))
    }

    method EnterPte(c: Cell, g: nat)
      requires Installing(c, false) && s1.pages[c.slot][c.idx].frame == g
      modifies s1`pages, rw
      ensures Installing(c, true)
      ensures s1.pages[c.slot][c.idx] == old(s1.pages)[c.slot][c.idx]
    {
      var _ := rw.UpdateRwmap(s1, Some((g, c)));
      WithoutWeaker(old(s1.pages), s1.pages, c);
      ProtectedKeeps(s1.slots, s1.slots, s1.normal, s1.normal, Without(old(s1.pages), c), Without(s1.pages, c), None);
      ProtectedKeeps(s2.slots, s2.slots, s2.normal, s2.normal, Without(old(s1.pages), c), Without(s1.pages, c), None);
      CoherentKeeps1(s1.slots, s1.normal, old(s1.pages), None);
    }

    /** The cell of the shadow PTE for v, if the shadow tables reach one. */
    ghost function Walk(v: nat): Option<Cell>
      reads this, s2
    {
      var w := PdpeFor(v);
      if w.Some? && TopShape(root, tbl, cnt, levels) && Live(w.value) then
        var e := ReadPdpe(w.value);
        if e.ToShadow2? && e.slot < |s2.pages| && |s2.pages[e.slot]| == ENTRIES && s2.pages[e.slot][Index2(v)].Pde? then
          Some(Cell(s2.pages[e.slot][Index2(v)].slot, Index1(v)))
        else None
      else None
    }

    /** What the processor finds for v in the shadow tables: three levels or four, by the digits of the address. */
    ghost function Paging(v: nat): Option<Cell>
      requires TopShape(root, tbl, cnt, levels)
      reads this, s2
    {
      if levels == 3 then FromTop(root[v / 0x4000_0000 % 4], v)
      else if levels == 4 && root[v / 0x80_0000_0000 % 512].ToTable?
              && root[v / 0x80_0000_0000 % 512].tbl < cnt then
        FromTop(tbl[root[v / 0x80_0000_0000 % 512].tbl][v / 0x4000_0000 % 512], v)
      else None
    }

    ghost function FromTop(e: TopEntry, v: nat): Option<Cell>
      reads s2
    {
      if e.ToShadow2? && e.slot < |s2.pages| && |s2.pages[e.slot]| == ENTRIES
         && s2.pages[e.slot][v / 0x20_0000 % 512].Pde? then
        Some(Cell(s2.pages[e.slot][v / 0x20_0000 % 512].slot, v / 0x1000 % 512))
      else None
    }

    /** The walk by which map_page prepares the tables is that of the processor. */
    lemma WalkIsPaging(v: nat)
      requires TopShape(root, tbl, cnt, levels)
      ensures Walk(v) == Paging(v)
    {
      LowTwoBits(v / 0x4000_0000);
      if PdpeFor(v).Some? && Live(PdpeFor(v).value) {
        FromTopIs(v, ReadPdpe(PdpeFor(v).value));
      }
    }

    lemma FromTopIs(v: nat, e: TopEntry)
      ensures FromTop(e, v) ==
        if e.ToShadow2? && e.slot < |s2.pages| && |s2.pages[e.slot]| == ENTRIES && s2.pages[e.slot][Index2(v)].Pde? then
          Some(Cell(s2.pages[e.slot][Index2(v)].slot, Index1(v)))
        else None
    {
    }

    /** The directory on the way to the PTE for v has key key2, and its PDE has the rights m. */
    ghost predicate PdeGrants(v: nat, m: M2, key2: Key)
      reads this, s2
    {
      && Walk(v).Some? && DirectoryOf(v) < |s2.slots| && s2.slots[DirectoryOf(v)].key == key2
      && var pde := PdeOf(v);
      pde.rw == m.rw && pde.us == m.us && pde.nx == m.nx
    }

    ghost function DirectoryOf(v: nat): nat
      requires Walk(v).Some?
      reads this, s2
    {
      ReadPdpe(PdpeFor(v).value).slot
    }

    ghost function PdeOf(v: nat): (pde: Pde)
      requires Walk(v).Some?
      reads this, s2
      ensures pde.Pde?
    {
      s2.pages[DirectoryOf(v)][Index2(v)]
    }

    /** The top tables and the directory that setpdpe prepares, as a cell whose PDE may be written. */
    method PrepareDirectory(v: nat, key2: Key, gfnw: Option<nat>) returns (c: Cell)
      requires Valid() && levels != 0
      modifies `root, `tbl, `cnt, s2, s1`pages, rw
      ensures Valid() && s2.MayWrite(c.slot, c.idx) && c.idx == Index2(v) && s2.slots[c.slot].key == key2
      ensures PdpeFor(v).Some? && Live(PdpeFor(v).value) && ReadPdpe(PdpeFor(v).value) == ToShadow2(c.slot)
    {
      var ok := MapSub(v, false);
      if !ok {
        ok := MapSub(v, true);
        if !ok { assert false; }
      }
      SetDirectory(v, key2, gfnw);
      c := Cell(ReadPdpe(PdpeFor(v).value).slot, Index2(v));
    }

    method SetDirectory(v: nat, key2: Key, gfnw: Option<nat>)
      requires Valid() && levels != 0 && PdpeFor(v).Some? && Live(PdpeFor(v).value)
      modifies `root, `tbl, `cnt, s2, s1`pages, rw
      ensures Valid() && PdpeFor(v).Some? && Reached(PdpeFor(v).value, key2, Index2(v))
    {
      var ok := SetPdpe(PdpeFor(v).value, key2, gfnw, Index2(v));
      if !ok {
        RetryDirectory(v, key2, gfnw);
      }
    }

    /** map_page after setpdpe failed once: the top tables are emptied, so it cannot fail again. */
    method RetryDirectory(v: nat, key2: Key, gfnw: Option<nat>)
      requires Core() && TopOk(root, tbl, cnt, levels, []) && RegsOk() && levels != 0 && s2.free != []
      modifies `root, `tbl, `cnt, s2, s1`pages, rw
      ensures Valid() && PdpeFor(v).Some? && Reached(PdpeFor(v).value, key2, Index2(v))
    {
      var ok := MapSub(v, true);
      if !ok { assert false; }
      ok := SetPdpe(PdpeFor(v).value, key2, gfnw, Index2(v));
      if !ok { assert false; }
    }

    /** map_page: the fault at v is answered with a shadow PTE for guest frame g0. r0, r1 and r2 are the rights
        gathered down to levels 0, 1 and 2 of the guest walk, g1 and g2 the guest frames of its tables.
        The answer is false where the source panics because VMM memory is written. */
    method MapPage(v: nat, a: M1, r0: M2, r1: M2, r2: M2, g0: nat, g1: Gfn, g2: Gfn, glvl: nat) returns (ok: bool)
      requires Valid() && levels != 0 && WalkOk(guest, v, g0, g1, g2, glvl)
      modifies `root, `tbl, `cnt, s1, s2, map1, rw
      ensures Valid()
      ensures ok <==> !(a.write && gmm.vmmStart <= g0 < gmm.vmmEnd)
      ensures Walked(v, a, r1, r2, glvl) && (ok ==> Mapped(v, a, r0, r1, g0))
    {
      var p, key2 := PrepareFault(v, a, r1, r2, g0, g1, g2, glvl);
      ok := FinishFault(v, p, a, r0, r1, r2, g0, glvl, key2);
    }

    /** The rest of map_page. */
    method FinishFault(v: nat, p: Cell, a: M1, r0: M2, ghost r1: M2, ghost r2: M2, g0: nat, ghost glvl: nat,
                       ghost key2: Key)
      returns (ok: bool)
      requires Valid() && Walk(v) == Some(p) && PdeGrants(v, Relax(wp, a, r1), key2) && s1.MayWrite(p.slot, p.idx)
      requires LeafFrameOk(guest, gmm, s1.slots[p.slot].key, p.idx, gmm.Gp2hp(g0).0)
      requires key2.wp0 == !wp && (glvl >= 2 ==> key2.rw0 == !r2.rw && key2.us0 == !r2.us && key2.nx == r2.nx)
      modifies s1`slots, s1`normal, s1`modified, s1`pages, s2`slots, s2`normal, s2`modified, rw
      ensures Valid()
      ensures ok <==> !(a.write && gmm.vmmStart <= g0 < gmm.vmmEnd)
      ensures Walked(v, a, r1, r2, glvl) && (ok ==> Mapped(v, a, r0, r1, g0))
    {
      ok := AnswerFault(v, p, a, Relax(wp, a, r0), g0, Relax(wp, a, r1), key2);
      FaultWalked(v, a, r1, r2, glvl, key2);
      if ok {
        FaultAnswered(v, a, r0, r1, g0, key2);
      }
    }

    /** The way to the PTE of v: the key of the directory tells whether CR0.WP is set and the rights of the level above,
        so that walks with others never share it, and its PDE has the rights of its level, as overridden. */
    ghost predicate Walked(v: nat, a: M1, r1: M2, r2: M2, glvl: nat)
      reads this, s2
    {
      && Walk(v).Some? && DirectoryOf(v) < |s2.slots|
      && var key, pde := s2.slots[DirectoryOf(v)].key, PdeOf(v);
      && key.wp0 == !wp && (glvl >= 2 ==> key.rw0 == !r2.rw && key.us0 == !r2.us && key.nx == r2.nx)
      && Overridden(wp, a, r1, pde.rw, pde.us, pde.nx)
    }

    /** The PTE of v maps the frame; the two levels let no access through that the guest tables do not admit, and,
        unless the frame is of the VMM, they let those like the one that faulted through. */
    ghost predicate Mapped(v: nat, a: M1, r0: M2, r1: M2, g0: nat)
      reads this, s1, s2
    {
      && Walk(v).Some? && MapsFrame(Walk(v).value, a, r0, g0) && LetsNoMore(v, r0)
      && (Gathered(r0, r1) && !(gmm.vmmStart <= g0 < gmm.vmmEnd) ==> LetsEnough(v, a, r0))
    }

    lemma FaultWalked(v: nat, a: M1, r1: M2, r2: M2, glvl: nat, key2: Key)
      requires Walk(v).Some? && PdeGrants(v, Relax(wp, a, r1), key2)
      requires key2.wp0 == !wp && (glvl >= 2 ==> key2.rw0 == !r2.rw && key2.us0 == !r2.us && key2.nx == r2.nx)
      ensures Walked(v, a, r1, r2, glvl)
    {
      RelaxTable(wp, a, r1);
    }

    /** map_page before its last level. */
    method PrepareFault(v: nat, a: M1, r1: M2, r2: M2, g0: nat, g1: Gfn, g2: Gfn, glvl: nat)
      returns (p: Cell, ghost key2: Key)
      requires Valid() && levels != 0 && WalkOk(guest, v, g0, g1, g2, glvl)
      modifies `root, `tbl, `cnt, s1, s2, map1, rw
      ensures Valid() && Walk(v) == Some(p) && PdeGrants(v, Relax(wp, a, r1), key2) && s1.MayWrite(p.slot, p.idx)
      ensures LeafFrameOk(guest, gmm, s1.slots[p.slot].key, p.idx, gmm.Gp2hp(g0).0)
      ensures key2.wp0 == !wp && (glvl >= 2 ==> key2.rw0 == !r2.rw && key2.us0 == !r2.us && key2.nx == r2.nx)
    {
      var k1, k2 := Key1(v, g0, g1, glvl, wp), Key2(v, g0, g2, glvl, wp, r2);
      KeysAgree(guest, gmm, v, g0, g1, g2, glvl, wp, r2);
      KeyRights(v, g0, g1, g2, glvl, wp, r2);
      key2 := k2;
      p := PrepareTable(v, k1, k2, if a.write then Some(g0) else None, Relax(wp, a, r1));
    }

    lemma FaultAnswered(v: nat, a: M1, r0: M2, r1: M2, g0: nat, key2: Key)
      requires Walk(v).Some? && PdeGrants(v, Relax(wp, a, r1), key2)
      requires Answers(Walk(v).value, a, Relax(wp, a, r0), gmm.Gp2hp(g0))
      ensures Mapped(v, a, r0, r1, g0)
    {
      var pte, m0, m1 := PteOf(v), Relax(wp, a, r0), Relax(wp, a, r1);
      RelaxTable(wp, a, r0);
      RelaxTable(wp, a, r1);
      assert Overridden(wp, a, r0, m0.rw, pte.us, pte.nx);
      forall x: Access {
        OverrideSound(wp, a, r0, r1, m0, m1, x);
      }
    }

    /** No access gets through that the guest tables do not admit. */
    ghost predicate LetsNoMore(v: nat, r0: M2)
      reads this, s1, s2
    {
      forall x: Access :: Lets(v, x) ==> Admits(wp, r0.rw, r0.us, r0.nx, x)
    }

    /** Accesses like the one that faulted get through if the guest tables admit them. */
    ghost predicate LetsEnough(v: nat, a: M1, r0: M2)
      reads this, s1, s2
    {
      forall x: Access ::
        x.user == a.user && x.write == a.write && Admits(wp, r0.rw, r0.us, r0.nx, x) ==> Lets(v, x)
    }

    ghost function PteOf(v: nat): Pte
      requires Walk(v).Some? && Walk(v).value.slot < |s1.pages| && Walk(v).value.idx < |s1.pages[Walk(v).value.slot]|
      reads this, s1, s2
    {
      s1.pages[Walk(v).value.slot][Walk(v).value.idx]
    }

    /** The processor, with CR0.WP set, lets access x to v through the shadow tables. */
    ghost predicate Lets(v: nat, x: Access)
      reads this, s1, s2
    {
      && Walk(v).Some? && Walk(v).value.slot < |s1.pages| && Walk(v).value.idx < |s1.pages[Walk(v).value.slot]|
      && PteOf(v).present && Admits(true, PteOf(v).rw, PteOf(v).us, PteOf(v).nx, x)
      && Admits(true, PdeOf(v).rw, PdeOf(v).us, PdeOf(v).nx, x)
    }

    /** The PTE in cell c maps guest frame g0, or the blank page for a frame of the VMM, with the rights r0 as
        overridden, except that a frame of the VMM, and one with a shadow that is not flagged modified, is
        write-protected. */
    ghost predicate MapsFrame(c: Cell, a: M1, r0: M2, g0: nat)
      reads this, s1, s2
    {
      && c.slot < |s1.pages| && c.idx < |s1.pages[c.slot]|
      && var pte, hidden := s1.pages[c.slot][c.idx], gmm.vmmStart <= g0 < gmm.vmmEnd;
      && pte.present && pte.frame == (if hidden then gmm.blank else g0) && pte.attr == a.attr
      && exists rw ::
           && Overridden(wp, a, r0, rw, pte.us, pte.nx) && (pte.rw <==> rw && !hidden && !Shadowed(g0))
           && (a.write && rw && !hidden ==> pte.rw)
    }

    /** The last level of map_page. */
    method AnswerFault(v: nat, p: Cell, a: M1, r: M2, g0: nat, ghost m: M2, ghost key2: Key) returns (ok: bool)
      requires Valid() && Walk(v) == Some(p) && PdeGrants(v, m, key2) && s1.MayWrite(p.slot, p.idx)
      requires LeafFrameOk(guest, gmm, s1.slots[p.slot].key, p.idx, gmm.Gp2hp(g0).0)
      modifies s1`slots, s1`normal, s1`modified, s1`pages, s2`slots, s2`normal, s2`modified, rw
      ensures Valid() && Walk(v) == Some(p) && PdeGrants(v, m, key2)
      ensures ok == !(gmm.Gp2hp(g0).1 && a.write)
      ensures ok ==> Answers(p, a, r, gmm.Gp2hp(g0))
      ensures ok ==> s1.pages[p.slot][p.idx] == old(s1.pages)[p.slot][p.idx] || Marks(s1.pages[p.slot][p.idx], a)
    {
      ok := AnswerIn(p, a, r, g0);
    }

    method AnswerIn(p: Cell, a: M1, r: M2, g0: nat) returns (ok: bool)
      requires Core() && s1.MayWrite(p.slot, p.idx)
      requires LeafFrameOk(guest, gmm, s1.slots[p.slot].key, p.idx, gmm.Gp2hp(g0).0)
      modifies s1`slots, s1`normal, s1`modified, s1`pages, s2`slots, s2`normal, s2`modified, rw
      ensures Core() && SameUse(old(s2.slots), s2.slots, old(s2.normal), s2.normal)
      ensures ok == !(gmm.Gp2hp(g0).1 && a.write)
      ensures ok ==> Answers(p, a, r, gmm.Gp2hp(g0))
      ensures ok ==> s1.pages[p.slot][p.idx] == old(s1.pages)[p.slot][p.idx] || Marks(s1.pages[p.slot][p.idx], a)
    {
      var (hphys, fakerom) := gmm.Gp2hp(g0);
      if fakerom && a.write {
        return false;
      }
      var pte := Pte(true, r.rw && !fakerom, r.us, r.nx, true, a.write, a.attr, hphys);
      InstallPage(p, pte, a.write);
      return true;
    }

    /** A PTE just stored is accessed, and dirty if the access writes. */
    ghost predicate Marks(pte: Pte, a: M1) {
      pte.accessed && pte.dirty == a.write
    }

    /** The PTE in cell c maps the host frame with the rights the guest walk gave, except that a frame with a shadow
        that is not flagged modified stays write-protected; after a write it has none. */
    ghost predicate Answers(c: Cell, a: M1, r: M2, host: (nat, bool))
      reads this, s1, s2
    {
      && c.slot < |s1.pages| && c.idx < |s1.pages[c.slot]|
      && var pte := s1.pages[c.slot][c.idx];
      && pte.present && pte.frame == host.0 && pte.us == r.us && pte.nx == r.nx && pte.attr == a.attr
      && (pte.rw <==> r.rw && !host.1 && !Shadowed(host.0))
      && (a.write && r.rw && !host.1 ==> pte.rw)
    }

    /** The tables of v down to its PTE. */
    method PrepareTable(v: nat, key1: Key, key2: Key, gfnw: Option<nat>, m: M2) returns (p: Cell)
      requires Valid() && levels != 0 && DirEntryOk(guest, key2, Index2(v), key1)
      modifies `root, `tbl, `cnt, s1, s2, map1, rw
      ensures Valid() && Walk(v) == Some(p) && s1.MayWrite(p.slot, p.idx) && s1.slots[p.slot].key == key1
      ensures PdeGrants(v, m, key2)
    {
      var c := PrepareDirectory(v, key2, gfnw);
      var done := SetPde(c, key1, gfnw, Index1(v), m);
      if !done { assert false; }
      p := Cell(s2.pages[c.slot][c.idx].slot, Index1(v));
      WalkIs(v, c, m, key2);
    }

    lemma WalkIs(v: nat, c: Cell, m: M2, key2: Key)
      requires TopShape(root, tbl, cnt, levels) && PdpeFor(v).Some? && Live(PdpeFor(v).value)
      requires ReadPdpe(PdpeFor(v).value) == ToShadow2(c.slot) && c.idx == Index2(v)
      requires c.slot < |s2.pages| && |s2.pages[c.slot]| == ENTRIES
      requires c.slot < |s2.slots| && s2.slots[c.slot].key == key2
      requires var pde := s2.pages[c.slot][c.idx]; pde.Pde? && pde.rw == m.rw && pde.us == m.us && pde.nx == m.nx
      ensures Walk(v) == Some(Cell(s2.pages[c.slot][c.idx].slot, Index1(v))) && PdeGrants(v, m, key2)
    {
    }

    /** What is mapped writable is not shadowed. */
    lemma NotShadowed(c: Cell)
      requires Core() && InRange(c) && s1.pages[c.slot][c.idx].rw
      ensures !Shadowed(s1.pages[c.slot][c.idx].frame)
    {
    }

    /** The PTE already there, but for its A and D bits, is the one wanted. */
    lemma AlreadyThere(c: Cell, pte: Pte)
      requires Core() && InRange(c)
      requires s1.pages[c.slot][c.idx].(accessed := true, dirty := true) == pte.(accessed := true, dirty := true)
      ensures pte.rw ==> !Shadowed(pte.frame)
    {
      if pte.rw {
        assert s1.pages[c.slot][c.idx].rw && s1.pages[c.slot][c.idx].frame == pte.frame;
        NotShadowed(c);
      }
    }

    /** The end of map_page: nothing is stored when only A and D would differ. */
    method InstallPage(p: Cell, pte: Pte, write: bool)
      requires Core() && s1.MayWrite(p.slot, p.idx) && LeafWanted(p, pte)
      modifies s1`slots, s1`normal, s1`modified, s1`pages, s2`slots, s2`normal, s2`modified, rw
      ensures Core() && SameUse(old(s2.slots), s2.slots, old(s2.normal), s2.normal)
      ensures var was := old(s1.pages)[p.slot][p.idx];
        s1.pages[p.slot][p.idx] ==
          if was.(accessed := true, dirty := true) == pte.(accessed := true, dirty := true) then was
          else pte.(rw := pte.rw && !Shadowed(pte.frame))
      ensures s1.pages[p.slot][p.idx].(accessed := true, dirty := true) ==
        pte.(rw := pte.rw && !Shadowed(pte.frame), accessed := true, dirty := true)
      ensures write && pte.rw ==> !Shadowed(pte.frame)
    {
      var tmp := s1.pages[p.slot][p.idx];
      if tmp.(accessed := true, dirty := true) != pte.(accessed := true, dirty := true) {
        StorePte(p, pte, write);
      } else {
        AlreadyThere(p, pte);
      }
    }

    /** The fast path of update_cr3, and INVLPG: the modified pages are cleared and stay hashed. */
    method ClearModified()
      requires Valid()
      modifies s1`slots, s1`pages, s2`slots, s2`pages
      ensures Valid() && Flushed() && NoStale()
    {
      ClearModified1();
      ClearModified2();
      FlushedAgrees();
    }

    /** clean_modified_shadow1 with freeflag false. */
    method ClearModified1()
      requires Core()
      modifies s1`slots, s1`pages
      ensures Core()
      ensures forall i :: i in s1.modified && i < |s1.pages| ==> IsZero(ZERO_PTE, s1.pages[i])
    {
      s1.ClearModified();
      CoreFewer(old(s1.slots), old(s1.pages));
    }

    /** clean_modified_shadow2 with freeflag false. */
    method ClearModified2()
      requires Core()
      modifies s2`slots, s2`pages
      ensures Core()
      ensures forall i :: i in s2.modified && i < |s2.pages| ==> IsZero(NoPde, s2.pages[i])
    {
      s2.ClearModified();
      LinksZeroed(map1.ents, map1.refs, old(s2.pages), s2.pages);
      ProtectedKeeps(old(s2.slots), s2.slots, s2.normal, s2.normal, s1.pages, s1.pages, None);
      CoherentKeeps2(old(s2.slots), s2.normal, old(s2.pages), None);
    }

    /** Core after shadow1 pages were cleared. */
    lemma CoreFewer(slots: seq<Slot>, pages: PtePages)
      requires LeafOk(guest, gmm, slots, s1.normal, pages) && FewerPresent(pages, s1.pages) && VmmOk(gmm, pages)
      requires DirOk(guest, s2.slots, s2.normal, s2.pages, slots)
      requires s1 as object != s2
      requires PoolOk(s1) && DirPoolOk(s2) && rw.Valid() && rw.fail == [] && map1.Valid()
      requires FewerRw(pages, s1.pages)
      requires |slots| == |s1.slots| && forall i :: 0 <= i < |slots| ==> slots[i].key == s1.slots[i].key
      requires Covers(rw.ents, rw.hash, pages, None)
      requires LinksOk(map1.ents, map1.refs, s2.pages)
      requires Unreferenced(s1.free, map1.refs)
      requires Protected(slots, s1.normal, pages, None) && Protected(s2.slots, s2.normal, pages, None)
      ensures Core()
    {
      FewerRwKeeps(rw.ents, rw.hash, pages, s1.pages);
      ProtectedKeeps(slots, s1.slots, s1.normal, s1.normal, pages, s1.pages, None);
      ProtectedKeeps(s2.slots, s2.slots, s2.normal, s2.normal, pages, s1.pages, None);
      CoherentKeeps1(slots, s1.normal, pages, None);
    }

    /** update_cr3: with unchanged registers only the modified pages are cleared. */
    method LoadCr3(r: Regs)
      requires Valid()
      modifies `regs, `levels, `wp, `root, `cnt, s1, s2, map1, rw
      ensures Valid() && regs == Some(r)
      ensures old(regs) == Some(r) ==>
        s1.normal == old(s1.normal) && s2.normal == old(s2.normal) && Flushed() && NoStale()
      ensures old(regs) != Some(r) ==> s1.modified == s2.modified == [] && NothingMapped()
    {
      if regs == Some(r) {
        ClearModified();
      } else {
        SwitchSpace(r);
      }
    }

    /** The pages of the modified shadows are empty. */
    ghost predicate Flushed()
      reads s1, s2
    {
      && (forall i :: i in s1.modified && i < |s1.pages| ==> IsZero(ZERO_PTE, s1.pages[i]))
      && (forall i :: i in s2.modified && i < |s2.pages| ==> IsZero(NoPde, s2.pages[i]))
    }

    /** The slow path of update_cr3. */
    method SwitchSpace(r: Regs)
      requires Valid()
      modifies `regs, `levels, `wp, `root, `cnt, s1, s2, map1, rw
      ensures Valid() && regs == Some(r)
      ensures s1.modified == s2.modified == [] && NothingMapped()
    {
      regs := Some(r);
      levels := if r.lma then 4 else 3;
      ClearRoot();
      wp := r.wp;
      FlushSpace();
    }

    /** The tables of a space that nothing leads to are emptied. */
    method FlushSpace()
      requires Core() && TopEmpty(root, tbl, cnt, levels) && RegsOk()
      modifies s1, s2, map1, rw
      ensures Valid() && s1.modified == s2.modified == [] && NothingMapped()
    {
      FlushShadows();
      NoWalks();
    }

    ghost predicate NothingMapped()
      reads this, s1, s2
    {
      forall v :: Walk(v) == None
    }

    lemma NoWalks()
      requires TopEmpty(root, tbl, cnt, levels)
      ensures NothingMapped()
    {
      assert forall v :: PdpeFor(v).Some? && Live(PdpeFor(v).value) ==> ReadPdpe(PdpeFor(v).value) == NoEntry;
    }

    method FlushShadows()
      requires Core()
      modifies s1, s2, map1, rw
      ensures Core() && s1.modified == s2.modified == []
    {
      var _ := FlushRwMap();
      FreeModified1();
      FreeModified2();
    }

    /** spt_tlbflush: update_rwmap without an entry to add. Between operations there is nothing to revoke. */
    method FlushRwMap() returns (r: bool)
      requires Core()
      modifies rw, s1`pages
      ensures Core() && s1.pages == old(s1.pages) && !r
    {
      r := rw.UpdateRwmap(s1, None);
      WeakerFewer(old(s1.pages), s1.pages);
      ProtectedKeeps(s1.slots, s1.slots, s1.normal, s1.normal, old(s1.pages), s1.pages, None);
      ProtectedKeeps(s2.slots, s2.slots, s2.normal, s2.normal, old(s1.pages), s1.pages, None);
      CoherentKeeps1(s1.slots, s1.normal, old(s1.pages), None);
    }

    /** clear_all: every shadow is freed. */
    method ClearAll()
      requires Valid()
      modifies `root, `cnt, s1, s2, map1
      ensures Valid()
      ensures s1.modified == s1.normal == s2.modified == s2.normal == []
    {
      ClearRoot();
      FreeAll1();
      FreeAll2();
    }

    method FreeAll1()
      requires Core()
      modifies s1, s2`pages, map1
      ensures Core() && s1.modified == s1.normal == []
    {
      while s1.normal != []
        invariant Core()
        decreases |s1.normal|
      {
        assert s1.normal[0] in s1.normal;
        Demote1(s1.normal[0]);
      }
      FreeModified1();
    }

    method FreeAll2()
      requires Core()
      modifies s2
      ensures Core() && s2.modified == s2.normal == []
    {
      while s2.normal != []
        invariant Core()
        decreases |s2.normal|
      {
        assert s2.normal[0] in s2.normal;
        Demote2(s2.normal[0]);
      }
      FreeModified2();
    }

    method Demote1(p: nat)
      requires Core() && p in s1.normal
      modifies s1`slots, s1`normal, s1`modified
      ensures Core() && s1.normal == Del(old(s1.normal), p) && s1.modified == old(s1.modified) + [p]
      ensures SameKeys(old(s1.slots), s1.slots)
    {
      s1.SetModified(p);
      ProtectedKeeps(old(s1.slots), s1.slots, old(s1.normal), s1.normal, s1.pages, s1.pages, None);
      CoherentKeeps1(old(s1.slots), old(s1.normal), s1.pages, None);
    }

    method Demote2(p: nat)
      requires Core() && p in s2.normal
      modifies s2`slots, s2`normal, s2`modified
      ensures Core() && s2.normal == Del(old(s2.normal), p) && s2.modified == old(s2.modified) + [p]
      ensures SameKeys(old(s2.slots), s2.slots)
    {
      s2.SetModified(p);
      ProtectedKeeps(old(s2.slots), s2.slots, old(s2.normal), s2.normal, s1.pages, s1.pages, None);
      CoherentKeeps2(old(s2.slots), old(s2.normal), s2.pages, None);
    }

    /** extern_mapsearch on the vCPU itself: what maps a frame between first and last is unmapped. */
    method Unmap(first: nat, last: nat)
      requires Valid()
      modifies s1`pages
      ensures Valid()
      ensures forall i, j :: 0 <= i < |s1.pages| && 0 <= j < |s1.pages[i]| ==>
        s1.pages[i][j] == if old(s1.pages)[i][j].present && first <= old(s1.pages)[i][j].frame <= last then ZERO_PTE
                          else old(s1.pages)[i][j]
      ensures Clear(first, last)
    {
      var i := 0;
      while i < s1.num
        invariant i <= s1.num && PoolOk(s1)
        invariant forall k :: 0 <= k < i ==> s1.pages[k] == Unmapped(old(s1.pages)[k], first, last)
        invariant forall k :: i <= k < s1.num ==> s1.pages[k] == old(s1.pages)[k]
      {
        UnmapPage(i, first, last);
        i := i + 1;
      }
      CoreFewer(s1.slots, old(s1.pages));
    }

    method UnmapPage(i: nat, first: nat, last: nat)
      requires PoolOk(s1) && i < s1.num
      modifies s1`pages
      ensures PoolOk(s1)
      ensures s1.pages == old(s1.pages)[i := Unmapped(old(s1.pages)[i], first, last)]
    {
      for j := 0 to ENTRIES
        invariant PoolOk(s1)
        invariant s1.pages == old(s1.pages)[i := s1.pages[i]]
        invariant forall k :: 0 <= k < j ==> s1.pages[i][k] == Unmapped(old(s1.pages)[i], first, last)[k]
        invariant forall k :: j <= k < ENTRIES ==> s1.pages[i][k] == old(s1.pages)[i][k]
      {
        var e := s1.pages[i][j];
        if e.present && first <= e.frame <= last {
          s1.Put(i, j, ZERO_PTE);
        }
      }
      assert s1.pages[i] == Unmapped(old(s1.pages)[i], first, last);
    }

    /** A guest store through a writable shadow PTE sets its A and D bits and may change any entry of the guest
        tables in that frame; it never hits a frame that has a shadow not flagged modified. */
    method GuestStore(c: Cell, guest': Guest)
      requires Valid() && InRange(c) && s1.pages[c.slot][c.idx].rw
      requires OnlyFrame(guest, guest', s1.pages[c.slot][c.idx].frame)
      modifies s1`pages, `guest
      ensures Valid() && guest == guest'
      ensures s1.pages == old(s1.pages)[c.slot := old(s1.pages)[c.slot][c.idx :=
                old(s1.pages)[c.slot][c.idx].(accessed := true, dirty := true)]]
      ensures var g := old(s1.pages)[c.slot][c.idx].frame;
        && (forall i :: 0 <= i < s1.num && i !in s1.free && ShadowsFrame(s1.slots[i].key, g) ==> s1.slots[i].modified)
        && (forall i :: 0 <= i < s2.num && i !in s2.free && ShadowsFrame(s2.slots[i].key, g) ==> s2.slots[i].modified)
    {
      ghost var g := s1.pages[c.slot][c.idx].frame;
      StoredFrame(c);
      MarkDirty(c);
      GuestKeeps(guest, guest', gmm, g, s1.slots, s1.normal, s1.pages, s2.slots, s2.normal, s2.pages);
      guest := guest';
    }

    /** All shadows of a frame that is mapped writable are flagged modified. */
    lemma StoredFrame(c: Cell)
      requires Core() && InRange(c) && s1.pages[c.slot][c.idx].rw
      ensures var g := s1.pages[c.slot][c.idx].frame;
        && !Shadowed(g)
        && (forall i :: 0 <= i < s1.num && i !in s1.free && ShadowsFrame(s1.slots[i].key, g) ==> s1.slots[i].modified)
        && (forall i :: 0 <= i < s2.num && i !in s2.free && ShadowsFrame(s2.slots[i].key, g) ==> s2.slots[i].modified)
    {
      NotShadowed(c);
    }

    /** What the processor stores in the PTE it writes through. */
    method MarkDirty(c: Cell)
      requires Core() && InRange(c) && s1.pages[c.slot][c.idx].rw
      modifies s1`pages
      ensures Core()
      ensures s1.pages == old(s1.pages)[c.slot := old(s1.pages)[c.slot][c.idx :=
                old(s1.pages)[c.slot][c.idx].(accessed := true, dirty := true)]]
    {
      s1.Put(c.slot, c.idx, s1.pages[c.slot][c.idx].(accessed := true, dirty := true));
      CoreFewer(s1.slots, old(s1.pages));
    }

    /** A fault that the guest walk can answer. */
    predicate Faults(op: Op)
      requires op.PageFault?
      reads this
    {
      levels != 0 && WalkOk(guest, op.v, op.g0, op.g1, op.g2, op.glvl)
    }

    /** No PTE maps a frame from first to last. */
    ghost predicate Clear(first: nat, last: nat)
      reads this, s1
    {
      forall i, j :: 0 <= i < |s1.pages| && 0 <= j < |s1.pages[i]| && s1.pages[i][j].present ==>
        !(first <= s1.pages[i][j].frame <= last)
    }

    /** A store of the guest through a writable PTE, which changes its tables in that frame only. */
    predicate Stores(c: Cell, guest': Guest)
      requires Valid()
      reads this, s1, s2, map1, rw
    {
      InRange(c) && s1.pages[c.slot][c.idx].rw && OnlyFrame(guest, guest', s1.pages[c.slot][c.idx].frame)
    }

    /** One step of a run. A step that cannot happen is skipped: a fault before the first CR3 load or with a
        walk that the guest tables do not give, a store without permission. */
    method Step(op: Op)
      requires Valid()
      modifies this, s1, s2, map1, rw
      ensures Valid()
      ensures op.Invlpg? ==> NoStale()
      ensures op.MovCr3? ==> regs == Some(op.r) && if old(regs) == Some(op.r) then NoStale() else NothingMapped()
      ensures op.FlushAll? ==> s1.modified == s1.normal == s2.modified == s2.normal == []
      ensures op.PageFault? && old(Faults(op)) ==>
        (op.a.write && gmm.vmmStart <= op.g0 < gmm.vmmEnd) || Mapped(op.v, op.a, op.r0, op.r1, op.g0)
      ensures op.Store? && old(Stores(op.c, op.guest)) ==> guest == op.guest
      ensures op.MmioRegister? ==> Clear(op.first, op.last)
      ensures history == old(history) + [op]
    {
      history := history + [op];
      match op
      case PageFault(v, a, r0, r1, r2, g0, g1, g2, glvl) =>
        if Faults(op) {
          var _ := MapPage(v, a, r0, r1, r2, g0, g1, g2, glvl);
        }
      case Store(c, guest') =>
        if Stores(c, guest') {
          GuestStore(c, guest');
        }
      case MovCr3(r) => LoadCr3(r);
      case Invlpg => ClearModified();
      case TlbFlush =>
        var _ := FlushRwMap();
      case MmioRegister(first, last) => Unmap(first, last);
      case FlushAll => ClearAll();
    }

    /** Every run from start-up keeps every invariant. */
    method Run(ops: seq<Op>)
      requires Valid()
      modifies this, s1, s2, map1, rw
      ensures Valid() && history == old(history) + ops
    {
      for k := 0 to |ops|
        invariant Valid() && history == old(history) + ops[..k]
      {
        Step(ops[k]);
      }
    }

    /** Write protection: a guest frame with a shadow in use and not flagged modified is mapped writable nowhere. */
    lemma WriteProtection(g: nat, i: nat)
      requires Valid()
      requires (i < s1.num && i !in s1.free && !s1.slots[i].modified && ShadowsFrame(s1.slots[i].key, g))
            || (i < s2.num && i !in s2.free && !s2.slots[i].modified && ShadowsFrame(s2.slots[i].key, g))
      ensures forall s, j :: 0 <= s < |s1.pages| && 0 <= j < |s1.pages[s]| ==>
        !(s1.pages[s][j].rw && s1.pages[s][j].frame == g)
    {
      assert NoRw(s1.pages, g);
    }

    /** No dangling links: what the directories and the top tables link to is in use. */
    lemma NoDanglingLinks()
      requires Valid()
      ensures forall t, j :: 0 <= t < |s2.pages| && 0 <= j < |s2.pages[t]| && s2.pages[t][j].Pde? ==>
        s2.pages[t][j].slot < s1.num && s2.pages[t][j].slot !in s1.free
      ensures forall v :: PdpeFor(v).Some? && Live(PdpeFor(v).value) && ReadPdpe(PdpeFor(v).value).ToShadow2? ==>
        ReadPdpe(PdpeFor(v).value).slot < s2.num && ReadPdpe(PdpeFor(v).value).slot !in s2.free
      ensures forall v :: Walk(v).Some? ==> Walk(v).value.slot < s1.num && Walk(v).value.slot !in s1.free
    {
      forall t, j | 0 <= t < |s2.pages| && 0 <= j < |s2.pages[t]| && s2.pages[t][j].Pde?
        ensures s2.pages[t][j].slot < s1.num && s2.pages[t][j].slot !in s1.free
      {
        assert Registered(map1.ents, map1.refs, s2.pages[t][j].slot, Cell(t, j));
      }
    }

    /** The guest never reaches the memory of the VMM: where a shadow PTE leads there, it maps the blank page, and is
        not writable. */
    lemma VmmHidden(s: nat, i: nat)
      requires Valid() && s < |s1.pages| && i < |s1.pages[s]| && s1.pages[s][i].present
      ensures var e := s1.pages[s][i]; gmm.vmmStart <= e.frame < gmm.vmmEnd ==> e.frame == gmm.blank && !e.rw
    {
      assert Private(gmm, s1.pages[s][i]);
    }

    /** Lazy clear equals full clear: whatever is handed out next is zero. */
    lemma FreePagesAreZero(i: nat)
      requires Valid()
      ensures i in s1.free ==> i < s1.num && IsZero(ZERO_PTE, s1.pages[i])
      ensures i in s2.free ==> i < s2.num && IsZero(NoPde, s2.pages[i])
    {
    }

    /** The shadow tables map v, by way of directory t. */
    ghost predicate Maps(v: nat, t: nat)
      reads this, s1, s2
    {
      && PdpeFor(v).Some? && TopShape(root, tbl, cnt, levels) && Live(PdpeFor(v).value)
      && ReadPdpe(PdpeFor(v).value) == ToShadow2(t) && t < |s2.slots| && Walk(v).Some?
      && Walk(v).value.slot < |s1.pages| && Walk(v).value.slot < |s1.slots|
      && Walk(v).value.idx < |s1.pages[Walk(v).value.slot]|
      && s1.pages[Walk(v).value.slot][Walk(v).value.idx].present
    }

    /** They map it as the guest tables do now. */
    ghost predicate Agrees(v: nat, t: nat)
      requires Maps(v, t)
      reads this, s1, s2
    {
      && Translate(guest, s2.slots[t].key, Index2(v), Index1(v)).Some?
      && s1.pages[Walk(v).value.slot][Walk(v).value.idx].frame ==
           gmm.Gp2hp(Translate(guest, s2.slots[t].key, Index2(v), Index1(v)).value).0
    }

    /** The shadow as a TLB: where the directory reached for v and the table below it are not flagged modified,
        the shadow PTE maps what the guest tables, as they are now, say. */
    lemma ShadowAgrees(v: nat, t: nat)
      requires Valid() && Maps(v, t) && !s2.slots[t].modified && !s1.slots[Walk(v).value.slot].modified
      ensures Agrees(v, t)
    {
      NoDanglingLinks();
      var c := Walk(v).value;
      assert t in s2.normal && c.slot in s1.normal;
      assert DirEntryOk(guest, s2.slots[t].key, Index2(v), s1.slots[c.slot].key);
      assert LeafEntryOk(guest, gmm, s1.slots[c.slot].key, c.idx, s1.pages[c.slot][c.idx]);
    }

    ghost predicate NoStale()
      reads this, s1, s2
    {
      forall v, t :: Maps(v, t) ==> Agrees(v, t)
    }

    /** Once the modified pages are empty no stale translation is left. */
    lemma FlushedAgrees()
      requires Valid() && Flushed()
      ensures NoStale()
    {
      forall v, t | Maps(v, t) ensures Agrees(v, t) {
        FlushedNormal(v, t);
        ShadowAgrees(v, t);
      }
    }

    lemma FlushedNormal(v: nat, t: nat)
      requires Valid() && Flushed() && Maps(v, t)
      ensures !s2.slots[t].modified && !s1.slots[Walk(v).value.slot].modified
    {
      NoDanglingLinks();
      var c := Walk(v).value;
      assert s2.pages[t][Index2(v)] != NoPde && s1.pages[c.slot][c.idx] != ZERO_PTE;
      assert t !in s2.modified && c.slot !in s1.modified;
    }

    /** The three lists, the hash and the flag agree about every slot of both levels. */
    lemma ListsAgree(i: nat)
      requires Valid()
      ensures i < s1.num ==> s1.Agreed(i)
      ensures i < s2.num ==> s2.Agreed(i)
    {
    }
  }
}
