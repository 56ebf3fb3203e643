/** map_page and what else works on the two rings of shadow pages of CPU_MMU_SPT_2 (core/cpu_mmu_spt.c): the page
    directories and the page tables that their entries link to. */
module RingTables {
  import opened Wrappers
  import opened ShadowRing

  /** Bit 6 of a key, KEY_LARGEPAGE. */
  predicate IsLarge(key: nat) {
    (key / 0x40) % 2 == 1
  }

  /** An entry of a page directory: the table it links to, and PDE_AVAILABLE1 for the table of a large page. */
  function Link(table: nat, large: bool): int {
    2 * table + if large then 2 else 1
  }

  function TableOf(entry: int): int {
    (entry - 1) / 2
  }

  lemma LinkInverse(table: nat, large: bool)
    ensures Link(table, large) > 0 && TableOf(Link(table, large)) == table
  {
  }

  /** A link to the table of a large page, or to another table. */
  predicate ToLarge(entry: int) {
    entry > 0 && entry % 2 == 0
  }

  predicate ToSmall(entry: int) {
    entry > 0 && entry % 2 == 1
  }

  lemma LinkKinds(e: int)
    requires e > 0
    ensures ToLarge(e) <==> e == Link(TableOf(e), true)
    ensures ToSmall(e) <==> e == Link(TableOf(e), false)
  {
  }

  lemma LinkMarks(table: nat, large: bool)
    ensures if large then ToLarge(Link(table, true)) else ToSmall(Link(table, false))
  {
  }

  /** Directory d without its entry k and the other entry of the same 4 MiB. */
  function ZeroPair(m: seq<Page>, d: nat, k: nat): seq<Page>
    requires d < |m| && k < |m[d]| == ENTRIES
  {
    m[d := m[d][k := 0][if k % 2 == 0 then k + 1 else k - 1 := 0]]
  }

  /** An entry is absent, or it links to a table that is not free. */
  ghost predicate LinkOk(entry: int, tables: nat, free: set<nat>) {
    entry == 0 || (entry > 0 && TableOf(entry) < tables && TableOf(entry) !in free)
  }

  ghost predicate PageOk(p: Page, tables: nat, free: set<nat>) {
    forall k :: 0 <= k < |p| ==> LinkOk(p[k], tables, free)
  }

  ghost predicate LinksOk(mem: seq<Page>, tables: nat, free: set<nat>) {
    forall p :: 0 <= p < |mem| ==> PageOk(mem[p], tables, free)
  }

  ghost predicate TopOk(top: map<nat, nat>, directories: nat, free: set<nat>) {
    forall g :: g in top ==> top[g] < directories && top[g] !in free
  }

  lemma LinksCleared(m: seq<Page>, m': seq<Page>, tables: nat, free: set<nat>)
    requires LinksOk(m, tables, free) && JustCleared(m, m')
    ensures LinksOk(m', tables, free)
  {
    forall p | 0 <= p < |m'| ensures PageOk(m'[p], tables, free) {
      assert PageOk(m[p], tables, free);
    }
  }

  lemma LinksFewer(m: seq<Page>, tables: nat, free: set<nat>, free': set<nat>)
    requires LinksOk(m, tables, free) && free' <= free
    ensures LinksOk(m, tables, free')
  {
    forall p | 0 <= p < |m| ensures PageOk(m[p], tables, free') {
      assert PageOk(m[p], tables, free);
    }
  }

  lemma LinksSet(m: seq<Page>, d: nat, k: nat, e: int, tables: nat, free: set<nat>)
    requires LinksOk(m, tables, free) && d < |m| && k < |m[d]| && LinkOk(e, tables, free)
    ensures LinksOk(m[d := m[d][k := e]], tables, free)
  {
    var m' := m[d := m[d][k := e]];
    forall p | 0 <= p < |m'| ensures PageOk(m'[p], tables, free) {
      assert PageOk(m[p], tables, free);
    }
  }

  /** When all directories are clear there are no links. */
  lemma NoLinks(s: seq<Slot>, m: seq<Page>, tables: nat, free: set<nat>)
    requires SlotsOk(s, m) && AllZero(s, m)
    ensures LinksOk(m, tables, free)
  {
    forall p | 0 <= p < |m| ensures PageOk(m[p], tables, free) {
      EveryPage(s, m, p);
      var x :| x in s && x.page == p;
    }
  }

  /** Slots that stay in the ring are not free. */
  lemma UsedNotFree(ring: SlotRing, key: nat, page: nat)
    requires ring.Valid() && ring.InUse(key, page)
    ensures page < |ring.mem| && page !in PageSet(ring.Free())
  {
    var d :| 0 <= d < ring.NumUsed() && ring.View()[d] == Slot(page, key, false);
    DistinctInRing(ring.shadow[..], ring.modified, 0, ring.shadow.Length, ring.mem);
    assert ring.View()[0..ring.shadow.Length] == ring.View();
    forall x | x in ring.Free() ensures x.page != page {
      var e :| 0 <= e < |ring.Free()| && ring.Free()[e] == x;
      assert ring.View()[ring.NumUsed() + e] == x;
    }
    assert SlotOk(ring.View()[d], ring.mem) by {
      InView(ring, d);
    }
  }

  lemma InView(ring: SlotRing, d: nat)
    requires ring.Valid() && d < |ring.View()|
    ensures SlotOk(ring.View()[d], ring.mem)
  {
    var s, m := ring.shadow[..], ring.modified;
    assert ring.View()[d] == if m + d < |s| then s[m + d] else s[m + d - |s|];
  }

  /** A key that a slot in use has is modified once every slot in use is. */
  lemma KeyStays(used: seq<Slot>, modified: seq<Slot>, key: nat, page: nat)
    requires SameSlots(used, modified) && Slot(page, key, false) in used
    ensures exists x :: x in modified && x.key == key
  {
    var k :| 0 <= k < |used| && used[k] == Slot(page, key, false);
    assert modified[k] in modified;
  }

  lemma AllClear(ring: SlotRing)
    requires ring.Valid() && ring.Normal() == [] && AllZero(ring.Modified(), ring.mem)
    ensures AllZero(ring.shadow[..], ring.mem)
  {
    var s := ring.shadow[..];
    forall x | x in s && x.page < |ring.mem| ensures IsZero(ring.mem[x.page]) {
      var i :| 0 <= i < |s| && s[i] == x;
      RingAt(s, ring.modified, i);
      var d := Dist(ring.modified, i, |s|);
      if d < ring.NumModified() {
        assert ring.Modified()[d] == x;
      } else {
        assert ring.Free()[d - ring.NumUsed()] == x;
      }
    }
  }

  /** What a page fault asks for: the indices and keys of the tables on the way, whether there is room for one more
      top-level table, the last entry with the wanted rights and without write permission, and the keys of the frame
      that it maps. */
  datatype Request = Request(g: nat, k2: nat, k1: nat, key2: nat, key1: nat, room: bool, rw: bool, write: bool,
                             frame: nat -> bool, pte: int, readOnly: int)

  /** A page fault, INVLPG, a load of CR3, or a full flush. */
  datatype Op = Fault(r: Request) | Invlpg(g: nat, k2: nat, k1: nat) | MovCr3(change: bool) | Flush {
    predicate Ok() {
      match this
      case Fault(r) => r.k2 < ENTRIES && r.k1 < ENTRIES
      case Invlpg(_, k2, k1) => k2 < ENTRIES && k1 < ENTRIES
      case _ => true
    }
  }

  class Tables {
    const directories: SlotRing
    const tables: SlotRing
    /** The entries of the top-level tables, by gigabyte. */
    var top: map<nat, nat>
    /** The operations of the run so far. */
    ghost var history: seq<Op>

    ghost predicate Rings()
      reads directories, directories.shadow, tables, tables.shadow
    {
      directories != tables && directories.shadow != tables.shadow && directories.Valid() && tables.Valid()
    }

    /** No directory links to a free table, ... */
    ghost predicate Links()
      requires Rings()
      reads directories, directories.shadow, tables, tables.shadow
    {
      LinksOk(directories.mem, |tables.mem|, PageSet(tables.Free()))
    }

    /** ... and no top-level entry to a free directory. */
    ghost predicate Top()
      requires Rings()
      reads `top, directories, directories.shadow, tables, tables.shadow
    {
      TopOk(top, |directories.mem|, PageSet(directories.Free()))
    }

    ghost predicate Valid()
      reads `top, directories, directories.shadow, tables, tables.shadow
    {
      Rings() && Links() && Top()
    }

    /** A walk for the entry at k2 and k1 of gigabyte g goes through pages in use for the keys. */
    ghost predicate Reaches(g: nat, k2: nat, k1: nat, key2: nat, key1: nat, pte: int)
      requires Rings() && k2 < ENTRIES && k1 < ENTRIES
      reads `top, directories, directories.shadow, tables, tables.shadow
    {
      && g in top && directories.InUse(key2, top[g]) && top[g] < |directories.mem|
      && LeadsTo(top[g], k2, key1) && tables.mem[TableOf(directories.mem[top[g]][k2])][k1] == pte
    }

    ghost predicate LeadsTo(d: nat, k2: nat, key1: nat)
      requires Rings() && d < |directories.mem| && k2 < ENTRIES
      reads directories, directories.shadow, tables, tables.shadow
    {
      var e := directories.mem[d][k2];
      e > 0 && TableOf(e) < |tables.mem| && tables.InUse(key1, TableOf(e))
    }

    /** init_vcpu. */
    constructor (pages2: seq<Page>, pages1: seq<Page>)
      requires |pages2| >= 2 && |pages1| >= 2 && Sized(pages2) && Sized(pages1)
      ensures Valid() && top == map[]
      ensures fresh(directories) && fresh(directories.shadow) && fresh(tables) && fresh(tables.shadow)
    {
      var d := new SlotRing(pages2);
      var t := new SlotRing(pages1);
      directories, tables, top := d, t, map[];
      new;
      AllClear(directories);
      NoLinks(directories.shadow[..], directories.mem, |tables.mem|, PageSet(tables.Free()));
    }

    /** mapsub: the top-level tables are cleared if there is no room for one more. */
    method MapSub(g: nat, room: bool) returns (entry: Option<nat>)
      requires Valid()
      modifies `top
      ensures Valid() && entry == if g in top then Some(top[g]) else None
      ensures top == if room then old(top) else map[]
    {
      if !room {
        top := map[];
      }
      entry := if g in top then Some(top[g]) else None;
    }

    /** The entry of gigabyte g is set. */
    method SetTop(g: nat, ghost key: nat, d: nat, ghost free: set<nat>)
      requires Rings() && Links() && directories.InUse(key, d)
      requires TopOk(top, |directories.mem|, free) && PageSet(directories.Free()) <= free
      modifies `top
      ensures Valid() && top == old(top)[g := d]
    {
      UsedNotFree(directories, key, d);
      top := top[g := d];
    }

    /** A directory that is new for the key; what makerdonly answers is anything. */
    method NewDirectory(key: nat) returns (ok: bool, d: nat, mark: bool)
      requires directories.Valid()
      modifies directories`mem, directories`modified, directories`normal, directories`free, directories.shadow
      ensures directories.Valid() && JustCleared(old(directories.mem), directories.mem)
      ensures ok ==> directories.InUse(key, d) && PageSet(directories.Free()) <= old(PageSet(directories.Free()))
      ensures !ok ==> |directories.Free()| > 1
      ensures old(directories.HasModified(key)) || old(|directories.Free()|) > 1 ==> ok
      ensures ok && mark ==> Slot(d, key, false) in directories.Modified()
    {
      var i: nat;
      ok, d, i := directories.NewShadow(key);
      mark := *;
      if ok && mark {
        directories.MarkNewest(key, d, i);
      }
    }

    /** The directory for the key: that of the entry, one found, or a new one. */
    method GetDirectory(key: nat, entry: Option<nat>) returns (ok: bool, d: nat)
      requires directories.Valid()
      modifies directories`mem, directories`modified, directories`normal, directories`free, directories.shadow
      ensures directories.Valid() && JustCleared(old(directories.mem), directories.mem)
      ensures ok ==> directories.InUse(key, d) && PageSet(directories.Free()) <= old(PageSet(directories.Free()))
      ensures !ok ==> |directories.Free()| > 1
      ensures old(directories.HasModified(key)) || old(|directories.Free()|) > 1 ==> ok
    {
      if entry.Some? {
        ok := directories.StillUsed(key, entry.value);
        if ok {
          return true, entry.value;
        }
      }
      ok, d := directories.Find(key);
      if !ok {
        var mark: bool;
        ok, d, mark := NewDirectory(key);
      }
    }

    /** setpdpe. */
    method SetPdpe(g: nat, key: nat, entry: Option<nat>) returns (ok: bool, d: nat)
      requires Valid()
      modifies `top, directories`mem, directories`modified, directories`normal, directories`free, directories.shadow
      ensures Rings() && Links()
      ensures ok ==> Valid() && top == old(top)[g := d] && directories.InUse(key, d)
      ensures !ok ==> |directories.Free()| > 1 && top == old(top)
      ensures old(directories.HasModified(key)) || old(|directories.Free()|) > 1 ==> ok
    {
      ghost var m, free := directories.mem, PageSet(directories.Free());
      ok, d := GetDirectory(key, entry);
      LinksCleared(m, directories.mem, |tables.mem|, PageSet(tables.Free()));
      if ok {
        SetTop(g, key, d, free);
      }
    }

    /** A table that is new for the key, or none, and then all directories are clear. */
    method NewTable(key: nat) returns (ok: bool, t: nat, mark: bool)
      requires Rings()
      modifies tables`mem, tables`modified, tables`normal, tables`free, tables.shadow
      modifies directories`mem, directories`normal, directories.shadow
      ensures Rings() && |tables.mem| == old(|tables.mem|)
      ensures ok ==> tables.InUse(key, t) && PageSet(tables.Free()) <= old(PageSet(tables.Free()))
      ensures ok ==> directories.mem == old(directories.mem) && directories.View() == old(directories.View())
      ensures ok ==> directories.normal == old(directories.normal)
      ensures !ok ==> |tables.Free()| > 1
      ensures !ok ==> directories.Normal() == [] && AllZero(directories.Modified(), directories.mem)
      ensures !ok ==> SameSlots(old(directories.InRing()), directories.Modified())
      ensures old(|tables.Free()|) > 1 ==> ok
      ensures ok && mark ==> Slot(t, key, false) in tables.Modified()
    {
      var i: nat;
      ok, t, i := tables.NewShadow1(key, directories);
      mark := *;
      if ok && mark {
        MarkTable(key, t, i);
      }
    }

    /** modified_shadow1 for a new table. */
    method MarkTable(ghost key: nat, ghost t: nat, i: nat)
      requires Rings() && i < tables.shadow.Length && Plus(i, 1, tables.shadow.Length) == tables.free
      requires tables.Normal() != [] && tables.Normal()[|tables.Normal()| - 1] == Slot(t, key, false)
      modifies tables`normal, tables.shadow
      ensures Rings() && tables.InUse(key, t) && tables.Free() == old(tables.Free())
      ensures Slot(t, key, false) in tables.Modified()
    {
      tables.MarkNewest(key, t, i);
    }

    /** The table for the key: that of the entry, one found, or a new one. */
    method GetTable(key: nat, entry: int) returns (ok: bool, t: nat)
      requires Rings() && LinkOk(entry, |tables.mem|, PageSet(tables.Free()))
      modifies tables`mem, tables`modified, tables`normal, tables`free, tables.shadow
      modifies directories`mem, directories`normal, directories.shadow
      ensures Rings() && |tables.mem| == old(|tables.mem|)
      ensures ok ==> tables.InUse(key, t) && PageSet(tables.Free()) <= old(PageSet(tables.Free()))
      ensures ok ==> directories.mem == old(directories.mem) && directories.View() == old(directories.View())
      ensures ok ==> directories.normal == old(directories.normal)
      ensures !ok ==> |tables.Free()| > 1
      ensures !ok ==> directories.Normal() == [] && AllZero(directories.Modified(), directories.mem)
      ensures !ok ==> SameSlots(old(directories.InRing()), directories.Modified())
      ensures old(|tables.Free()|) > 1 ==> ok
    {
      if entry != 0 {
        ok := tables.StillUsed(key, TableOf(entry));
        if ok {
          return true, TableOf(entry);
        }
      }
      ok, t := tables.Find(key);
      if !ok {
        var mark: bool;
        ok, t, mark := NewTable(key);
      }
    }

    /** The entry k of directory d is set. */
    method SetEntry(ghost key2: nat, d: nat, k: nat, ghost key1: nat, t: nat, large: bool, ghost free: set<nat>)
      requires Rings() && Top() && directories.InUse(key2, d) && k < ENTRIES && tables.InUse(key1, t)
      requires LinksOk(directories.mem, |tables.mem|, free) && PageSet(tables.Free()) <= free
      modifies directories`mem
      ensures Valid() && d < |directories.mem| && LeadsTo(d, k, key1) && TableOf(directories.mem[d][k]) == t
      ensures ToLarge(directories.mem[d][k]) <==> large
    {
      UsedNotFree(directories, key2, d);
      UsedNotFree(tables, key1, t);
      LinkInverse(t, large);
      LinkMarks(t, large);
      LinksFewer(directories.mem, |tables.mem|, free, PageSet(tables.Free()));
      LinksSet(directories.mem, d, k, Link(t, large), |tables.mem|, PageSet(tables.Free()));
      directories.WriteEntry(key2, d, k, Link(t, large));
    }

    /** setpde for entry k of directory d. */
    method SetPde(ghost key2: nat, d: nat, k: nat, key1: nat) returns (ok: bool, t: nat)
      requires Valid() && directories.InUse(key2, d) && d < |directories.mem| && k < ENTRIES
      modifies tables`mem, tables`modified, tables`normal, tables`free, tables.shadow
      modifies directories`mem, directories`normal, directories.shadow
      ensures Rings() && Links() && d < |directories.mem|
      ensures ok ==> Valid() && directories.InUse(key2, d) && LeadsTo(d, k, key1)
      ensures ok ==> tables.InUse(key1, t) && TableOf(directories.mem[d][k]) == t
      ensures ok ==> (ToLarge(directories.mem[d][k]) <==> key1 / 0x40 % 2 == 1)
      ensures !ok ==> |tables.Free()| > 1 && directories.HasModified(key2)
      ensures old(|tables.Free()|) > 1 ==> ok
    {
      ghost var used, free := directories.InRing(), PageSet(tables.Free());
      ok, t := GetTable(key1, directories.mem[d][k]);
      if ok {
        SetEntry(key2, d, k, key1, t, IsLarge(key1), free);
      } else {
        KeyStays(used, directories.Modified(), key2, d);
        AllClear(directories);
        NoLinks(directories.shadow[..], directories.mem, |tables.mem|, PageSet(tables.Free()));
      }
    }

    /** pmap_clear: nothing is linked from the top. */
    method ClearTop()
      requires Rings() && Links()
      modifies `top
      ensures Valid() && top == map[]
    {
      top := map[];
    }

    /** The part of map_page before the last level. The panics after a second failure cannot happen: the first one has
        made room. */
    method PrepareTable(g: nat, k2: nat, key2: nat, key1: nat, room: bool) returns (d: nat, t: nat)
      requires Valid() && k2 < ENTRIES
      modifies `top, tables`mem, tables`modified, tables`normal, tables`free, tables.shadow
      modifies directories`mem, directories`modified, directories`normal, directories`free, directories.shadow
      ensures Valid() && g in top && top[g] == d && directories.InUse(key2, d) && d < |directories.mem|
      ensures LeadsTo(d, k2, key1) && tables.InUse(key1, t) && TableOf(directories.mem[d][k2]) == t
      ensures ToLarge(directories.mem[d][k2]) <==> key1 / 0x40 % 2 == 1
    {
      var entry := MapSub(g, room);
      d := PrepareDirectory(g, key2, entry);
      UsedNotFree(directories, key2, d);
      var ok: bool;
      ok, t := SetPde(key2, d, k2, key1);
      if !ok {
        ClearTop();
        ok, d := SetPdpe(g, key2, None);
        assert ok;
        UsedNotFree(directories, key2, d);
        ok, t := SetPde(key2, d, k2, key1);
        assert ok;
      }
    }

    method PrepareDirectory(g: nat, key: nat, entry: Option<nat>) returns (d: nat)
      requires Valid()
      modifies `top, directories`mem, directories`modified, directories`normal, directories`free, directories.shadow
      ensures Valid() && g in top && top[g] == d && directories.InUse(key, d)
    {
      var ok: bool;
      ok, d := SetPdpe(g, key, entry);
      if !ok {
        ClearTop();
        ok, d := SetPdpe(g, key, None);
        assert ok;
      }
    }

    /** A normal slot has one of the keys. */
    ghost predicate Shadowed(keys: nat -> bool)
      requires Rings()
      reads directories, directories.shadow, tables, tables.shadow
    {
      tables.HasNormal(keys) || directories.HasNormal(keys)
    }

    /** update_shadow. */
    method UpdateShadow(keys: nat -> bool, needrw: bool) returns (seen: bool)
      requires Rings()
      modifies tables`normal, tables.shadow, directories`normal, directories.shadow
      ensures Rings() && tables.Free() == old(tables.Free()) && directories.Free() == old(directories.Free())
      ensures forall x :: x in old(tables.InRing()) ==> x in tables.InRing()
      ensures forall x :: x in old(directories.InRing()) ==> x in directories.InRing()
      ensures seen <==> Shadowed(keys)
      ensures needrw ==> !seen
    {
      var seen1 := tables.UpdateShadow(keys, needrw);
      var seen2 := directories.UpdateShadow(keys, needrw);
      seen := seen1 || seen2;
    }

    /** The last level: the entry is stored, and loses write permission exactly if a normal slot has a key of its frame;
        if the access writes, such slots have become modified. */
    method StorePte(ghost d: nat, ghost key2: nat, r: Request, t: nat) returns (pte: int)
      requires Valid() && r.k2 < ENTRIES && r.k1 < ENTRIES && r.g in top && top[r.g] == d && d < |directories.mem|
      requires directories.InUse(key2, d) && LeadsTo(d, r.k2, r.key1) && tables.InUse(r.key1, t)
      requires TableOf(directories.mem[d][r.k2]) == t
      modifies tables`mem, tables`normal, tables.shadow, directories`normal, directories.shadow
      ensures Valid() && Reaches(r.g, r.k2, r.k1, key2, r.key1, pte)
      ensures pte == if r.rw && Shadowed(r.frame) then r.readOnly else r.pte
      ensures r.write ==> pte == r.pte
      ensures r.g in top && top == old(top) && directories.mem == old(directories.mem)
    {
      pte := r.pte;
      tables.WriteEntry(r.key1, t, r.k1, pte);
      if r.rw {
        var seen := UpdateShadow(r.frame, r.write);
        if seen {
          pte := r.readOnly;
          tables.WriteEntry(r.key1, t, r.k1, pte);
        }
      }
    }

    /** map_page, for a guest with paging; a link to the table of a large page, by bit 6 of its key, is marked as
        such. */
    method MapPage(r: Request) returns (pte: int)
      requires Valid() && r.k2 < ENTRIES && r.k1 < ENTRIES
      modifies `top, tables`mem, tables`modified, tables`normal, tables`free, tables.shadow
      modifies directories`mem, directories`modified, directories`normal, directories`free, directories.shadow
      ensures Valid() && Reaches(r.g, r.k2, r.k1, r.key2, r.key1, pte)
      ensures pte == if r.rw && Shadowed(r.frame) then r.readOnly else r.pte
      ensures r.write ==> pte == r.pte
      ensures ToLarge(directories.mem[top[r.g]][r.k2]) <==> r.key1 / 0x40 % 2 == 1
    {
      var d, t := PrepareTable(r.g, r.k2, r.key2, r.key1, r.room);
      pte := StorePte(d, r.key2, r, t);
    }

    /** Entry k of directory d becomes zero. */
    method ZeroPde(d: nat, k: nat)
      requires Valid() && d < |directories.mem| && k < ENTRIES
      modifies directories`mem
      ensures Valid() && directories.mem == old(directories.mem)[d := old(directories.mem)[d][k := 0]]
    {
      LinksSet(directories.mem, d, k, 0, |tables.mem|, PageSet(tables.Free()));
      directories.ZeroEntry(d, k);
    }

    ghost predicate Unmapped(g: nat, k2: nat, k1: nat)
      requires Valid() && k2 < ENTRIES && k1 < ENTRIES
      reads `top, directories, directories.shadow, tables, tables.shadow
    {
      g in top ==>
        var e := directories.mem[top[g]][k2];
        e == 0 || tables.mem[TableOf(e)][k1] == 0
    }

    /** invalidate_page: INVLPG drops the entry of the address, or, below the table of a large page, the links to it
        from both halves of 4 MiB. */
    method InvalidatePage(g: nat, k2: nat, k1: nat)
      requires Valid() && k2 < ENTRIES && k1 < ENTRIES
      modifies tables`mem, directories`mem
      ensures Valid() && Unmapped(g, k2, k1)
      ensures g !in top || old(directories.mem)[top[g]][k2] == 0 ==>
        directories.mem == old(directories.mem) && tables.mem == old(tables.mem)
      ensures g in top && ToLarge(old(directories.mem)[top[g]][k2]) ==>
        directories.mem == ZeroPair(old(directories.mem), top[g], k2) && tables.mem == old(tables.mem)
      ensures g in top && ToSmall(old(directories.mem)[top[g]][k2]) ==>
        && directories.mem == old(directories.mem) && TableOf(directories.mem[top[g]][k2]) < |old(tables.mem)|
        && var t := TableOf(directories.mem[top[g]][k2]);
        tables.mem == old(tables.mem)[t := old(tables.mem)[t][k1 := 0]]
    {
      if g !in top {
        return;
      }
      var d := top[g];
      var e := directories.mem[d][k2];
      assert PageOk(directories.mem[d], |tables.mem|, PageSet(tables.Free()));
      assert LinkOk(e, |tables.mem|, PageSet(tables.Free()));
      if e == 0 {
        return;
      }
      LinkKinds(e);
      if e == Link(TableOf(e), true) {
        ZeroPde(d, k2);
        var pair := if k2 % 2 == 0 then k2 + 1 else k2 - 1;
        if directories.mem[d][pair] != 0 {
          ZeroPde(d, pair);
        }
        assert directories.mem[d] == old(directories.mem)[d][k2 := 0][pair := 0];
        assert directories.mem == ZeroPair(old(directories.mem), d, k2);
      } else {
        tables.ZeroEntry(TableOf(e), k1);
      }
    }

    /** clear_shadow1 and clear_shadow2. */
    method ClearShadows()
      requires Rings() && Links()
      modifies `top, tables, tables.shadow, directories, directories.shadow
      ensures Valid() && top == map[] && tables.InRing() == [] && directories.InRing() == []
      ensures NoneNormal()
    {
      top := map[];
      tables.ClearAll();
      directories.ClearAll();
      AllClear(directories);
      NoLinks(directories.shadow[..], directories.mem, |tables.mem|, PageSet(tables.Free()));
    }

    /** update_cr3; change is whether CR0.WP has changed. */
    method UpdateCr3(change: bool)
      requires Valid()
      modifies `top, tables, tables.shadow, directories, directories.shadow
      ensures Valid() && top == map[] && directories.Modified() == [] && AllZero(tables.Modified(), tables.mem)
      ensures change ==> NoneNormal()
    {
      ClearTop();
      ClearIf(change);
      CleanTables();
      CleanDirectories();
    }

    /** clear_shadow1 and clear_shadow2 if CR0.WP has changed. */
    method ClearIf(change: bool)
      requires Valid() && top == map[]
      modifies `top, tables, tables.shadow, directories, directories.shadow
      ensures Valid() && top == map[] && (change ==> NoneNormal())
    {
      if change {
        ClearShadows();
      }
    }

    /** Nothing but modified slots is in use. */
    ghost predicate NoneNormal()
      requires Rings()
      reads directories, directories.shadow, tables, tables.shadow
    {
      tables.Normal() == [] && directories.Normal() == []
    }

    method CleanTables()
      requires Valid() && top == map[]
      modifies tables`mem, tables`modified, tables.shadow
      modifies directories`mem, directories`normal, directories.shadow
      ensures Valid() && AllZero(tables.Modified(), tables.mem)
      ensures old(NoneNormal()) ==> NoneNormal()
    {
      ghost var f, m := tables.Free(), directories.mem;
      tables.CleanModified1(directories, false);
      SameSlotsPages(f, tables.Free());
      LinksCleared(m, directories.mem, |tables.mem|, PageSet(tables.Free()));
    }

    method CleanDirectories()
      requires Valid() && top == map[]
      modifies directories`mem, directories`modified, directories.shadow
      ensures Valid() && directories.Modified() == [] && (old(NoneNormal()) ==> NoneNormal())
    {
      ghost var m := directories.mem;
      directories.CleanModified(true);
      LinksCleared(m, directories.mem, |tables.mem|, PageSet(tables.Free()));
    }

    method Step(op: Op)
      requires Valid() && op.Ok()
      modifies `history, `top, tables, tables.shadow, directories, directories.shadow
      ensures Valid() && history == old(history) + [op]
      ensures op.Fault? ==> var r := op.r;
        Reaches(r.g, r.k2, r.k1, r.key2, r.key1, if Shadowed(r.frame) && r.rw then r.readOnly else r.pte)
      ensures op.Flush? || op.MovCr3? ==> top == map[]
      ensures op.Invlpg? ==> Unmapped(op.g, op.k2, op.k1)
    {
      history := history + [op];
      match op
      case Fault(r) => var pte := MapPage(r);
      case Invlpg(g, k2, k1) => InvalidatePage(g, k2, k1);
      case MovCr3(change) => UpdateCr3(change);
      case Flush => ClearTop(); ClearShadows();
    }

    /** Over every run: free pages are zero, nothing links to a free page, and no panic is reached. */
    method Run(ops: seq<Op>)
      requires Valid() && forall i :: 0 <= i < |ops| ==> ops[i].Ok()
      modifies `history, `top, tables, tables.shadow, directories, directories.shadow
      ensures Valid() && history == old(history) + ops
    {
      for i := 0 to |ops|
        invariant Valid() && history == old(history) + ops[..i]
      {
        Step(ops[i]);
      }
    }
  }
}
