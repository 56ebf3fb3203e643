/** Page tables in memory and their meaning: what a walk from the root finds (core/mm.c, core/cpu_mmu.c).
    A linear address is the sequence of its table indices, lowest level first; table entries are records. */
module PageTables {

  /** A table entry. ps is bit 7 (PS, and PAT in a PTE), addr holds bits 12 to 51, avl bits 52 to 62,
      and attr the bits PWT, PCD and 9 to 11. */
  datatype Entry = Entry(p: bool, rw: bool, us: bool, attr: nat, a: bool, d: bool, ps: bool, g: bool, addr: nat,
                         avl: nat, nx: bool)

  const ZERO := Entry(false, false, false, 0, false, false, false, false, 0, 0, false)

  /** The place of an entry: a page, and an index of its at most 1024 entries. */
  datatype Slot = Slot(page: nat, idx: Index)

  type Index = i: nat | i < 1024

  type Memory = imap<Slot, Entry>

  /** A table tree: CR3 gives the page of the root table, and for PAE its place in the page. */
  datatype Space = Space(levels: nat, root: nat, off: nat)

  predicate SpaceOk(s: Space) {
    2 <= s.levels <= 4 && s.off < 512 && (s.levels != 3 ==> s.off == 0)
  }

  predicate AddressOk(s: Space, ix: seq<nat>) {
    && |ix| == s.levels
    && (forall k :: 0 <= k < |ix| ==> ix[k] < if s.levels == 2 then 1024 else 512)
    && (s.levels == 3 ==> ix[2] < 4)
  }

  ghost predicate Total(mem: Memory) {
    forall s: Slot :: s in mem
  }

  /** The page of the table that an entry points to: bits 12 to 47. */
  function Base(e: Entry): nat {
    e.addr % 0x10_0000_0000
  }

  /** A page of 2 or 4 MiB, or of 1 GiB. */
  predicate Large(l: nat, e: Entry) {
    e.ps && (l == 1 || l == 2)
  }

  /** Where the entry of level l for address ix is, if all tables above exist. */
  ghost function SlotOf(s: Space, mem: Memory, ix: seq<nat>, l: nat): Slot
    requires SpaceOk(s) && AddressOk(s, ix) && Total(mem) && l < s.levels
    decreases s.levels - l
  {
    if l == s.levels - 1 then Slot(s.root, s.off + ix[l])
    else Slot(Base(mem[SlotOf(s, mem, ix, l + 1)]), ix[l])
  }

  ghost function EntryOf(s: Space, mem: Memory, ix: seq<nat>, l: nat): Entry
    requires SpaceOk(s) && AddressOk(s, ix) && Total(mem) && l < s.levels
  {
    mem[SlotOf(s, mem, ix, l)]
  }

  /** The page number of one small page of a page of 2 or 4 MiB. */
  function SmallAddr(s: Space, addr: nat, ix0: nat): nat {
    if s.levels == 2 then addr / 1024 * 1024 + ix0 + addr / 2 % 256 * 0x10_0000 else addr / 512 * 512 + ix0
  }

  /** A page table entry made from the entry of a page of 2 or 4 MiB. */
  function SmallPart(s: Space, e: Entry, ix: seq<nat>): Entry
    requires |ix| > 0
  {
    e.(ps := e.addr % 2 == 1, addr := SmallAddr(s, e.addr, ix[0]))
  }

  /** The entry of a page of 2 MiB made from the entry of a page of 1 GiB. */
  function MiddlePart(e: Entry, ix: seq<nat>): Entry
    requires |ix| > 1
  {
    e.(addr := e.addr / 0x4_0000 * 0x4_0000 + ix[1] * 512 + e.addr % 512)
  }

  /** The entry of level target for an address whose walk ends at a large page of level l. */
  function Part(s: Space, e: Entry, l: nat, target: nat, ix: seq<nat>): Entry
    requires target < l && |ix| > l && (l == 1 || l == 2)
  {
    if l == 1 then SmallPart(s, e, ix)
    else if target == 1 then MiddlePart(e, ix)
    else SmallPart(s, MiddlePart(e, ix), ix)
  }

  /** What a walk finds at level target, from level l on. */
  ghost function Find(s: Space, mem: Memory, ix: seq<nat>, l: nat, target: nat): Entry
    requires SpaceOk(s) && AddressOk(s, ix) && Total(mem) && target <= l < s.levels
  {
    var e := EntryOf(s, mem, ix, l);
    if l == target then e
    else if !e.p then ZERO
    else if Large(l, e) then Part(s, e, l, target, ix)
    else Find(s, mem, ix, l - 1, target)
  }

  /** What a walk from the root finds at level target. */
  ghost function Walk(s: Space, mem: Memory, ix: seq<nat>, target: nat): Entry
    requires SpaceOk(s) && AddressOk(s, ix) && Total(mem) && target < s.levels
  {
    Find(s, mem, ix, s.levels - 1, target)
  }

  /** A walk from the root gets to level l. */
  ghost predicate Reaches(s: Space, mem: Memory, ix: seq<nat>, l: nat)
    requires SpaceOk(s) && AddressOk(s, ix) && Total(mem)
  {
    forall k :: l < k < s.levels ==> EntryOf(s, mem, ix, k).p && !Large(k, EntryOf(s, mem, ix, k))
  }

  lemma {:induction false} FindFrom(s: Space, mem: Memory, ix: seq<nat>, l: nat, m: nat, target: nat)
    requires SpaceOk(s) && AddressOk(s, ix) && Total(mem) && target <= l <= m < s.levels && Reaches(s, mem, ix, l)
    ensures Find(s, mem, ix, m, target) == Find(s, mem, ix, l, target)
  {
    if l < m {
      FindFrom(s, mem, ix, l, m - 1, target);
    }
  }

  /** Slots depend only on the indices from their level up. */
  lemma {:induction false} SamePrefix(s: Space, mem: Memory, a: seq<nat>, b: seq<nat>, l: nat)
    requires SpaceOk(s) && AddressOk(s, a) && AddressOk(s, b) && Total(mem) && l < s.levels && a[l..] == b[l..]
    ensures SlotOf(s, mem, a, l) == SlotOf(s, mem, b, l)
    decreases s.levels - l
  {
    assert a[l] == a[l..][0] && b[l] == b[l..][0];
    if l < s.levels - 1 {
      assert a[l + 1..] == a[l..][1..] && b[l + 1..] == b[l..][1..];
      SamePrefix(s, mem, a, b, l + 1);
    }
  }

  /** The page frame that the entry e of level l maps for ix, as the architecture defines it. */
  function Frame(s: Space, e: Entry, l: nat, ix: seq<nat>): nat
    requires l < |ix| && l <= 2
  {
    if l == 0 then e.addr
    else if l == 2 then e.addr / 0x4_0000 * 0x4_0000 + ix[1] * 512 + ix[0]
    else if s.levels == 2 then e.addr / 1024 * 1024 + e.addr / 2 % 256 * 0x10_0000 + ix[0]
    else e.addr / 512 * 512 + ix[0]
  }

  lemma MiddleFrame(f: nat, addr: nat)
    ensures (f * 512 + addr % 512) / 512 == f && (f * 512 + addr % 512) % 2 == addr % 2
  {
    var r := addr % 512;
    assert addr == addr / 512 * 512 + r;
  }

  /** Reading a large page as a small one gives the frame, the rights and the PAT bit of the large page. */
  lemma PartFrame(s: Space, e: Entry, l: nat, ix: seq<nat>)
    requires SpaceOk(s) && AddressOk(s, ix) && (l == 1 || l == 2) && l < s.levels
    ensures Part(s, e, l, 0, ix) == e.(addr := Frame(s, e, l, ix), ps := e.addr % 2 == 1)
  {
    if l == 2 {
      MiddleFrame(e.addr / 0x4_0000 * 512 + ix[1], e.addr);
      assert MiddlePart(e, ix).addr == (e.addr / 0x4_0000 * 512 + ix[1]) * 512 + e.addr % 512;
    }
  }

  /** m maps the 2 MiB that the entry e of 1 GiB maps at ix: its frame, and the rights, the marks and the PAT bit
      of e. */
  predicate IsMiddle(e: Entry, m: Entry, ix: seq<nat>)
    requires |ix| > 1
  {
    && m.addr / 512 == e.addr / 0x4_0000 * 512 + ix[1] && m.addr % 512 == e.addr % 512
    && m.p == e.p && m.rw == e.rw && m.us == e.us && m.attr == e.attr && m.a == e.a && m.d == e.d && m.ps == e.ps
    && m.g == e.g && m.avl == e.avl && m.nx == e.nx
  }

  /** Reading an entry of 1 GiB as one of 2 MiB gives a large page again, and going on from there is reading it as a
      small one. */
  lemma PartMiddle(s: Space, e: Entry, ix: seq<nat>)
    requires SpaceOk(s) && AddressOk(s, ix) && s.levels > 2 && e.ps
    ensures var m := Part(s, e, 2, 1, ix);
      && IsMiddle(e, m, ix) && Large(1, m)
      && Part(s, m, 1, 0, ix) == Part(s, e, 2, 0, ix) && Frame(s, m, 1, ix) == Frame(s, e, 2, ix)
  {
    PartFrame(s, e, 2, ix);
    PartFrame(s, Part(s, e, 2, 1, ix), 1, ix);
    MiddleFrame(e.addr / 0x4_0000 * 512 + ix[1], e.addr);
    assert Part(s, e, 2, 1, ix).addr == (e.addr / 0x4_0000 * 512 + ix[1]) * 512 + e.addr % 512;
  }

  /** Equal but for the accessed and dirty bits, of which b has those of a. */
  predicate Marked(a: Entry, b: Entry) {
    && a.p == b.p && a.rw == b.rw && a.us == b.us && a.attr == b.attr && a.ps == b.ps && a.g == b.g
    && a.addr == b.addr && a.avl == b.avl && a.nx == b.nx
    && (a.a ==> b.a) && (a.d ==> b.d)
  }

  ghost predicate OnlyMarked(m: Memory, m': Memory)
    requires Total(m) && Total(m')
  {
    forall s :: Marked(m[s], m'[s])
  }

  lemma {:induction false} MarkedSlots(s: Space, m: Memory, m': Memory, ix: seq<nat>, l: nat)
    requires SpaceOk(s) && AddressOk(s, ix) && Total(m) && Total(m') && OnlyMarked(m, m') && l < s.levels
    ensures SlotOf(s, m, ix, l) == SlotOf(s, m', ix, l)
    ensures Marked(EntryOf(s, m, ix, l), EntryOf(s, m', ix, l))
    decreases s.levels - l
  {
    if l < s.levels - 1 {
      MarkedSlots(s, m, m', ix, l + 1);
    }
  }
}
