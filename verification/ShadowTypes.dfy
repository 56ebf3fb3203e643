/** Values of the shadow page table cache (CPU_MMU_SPT_3 of core/cpu_mmu_spt.c).
    A page frame is named by its frame number; the frame of a shadow page is named by its slot. */
module ShadowTypes {

  const NUM_OF_SPTTBL: nat := 32
  const NUM_OF_SPTRWMAP: nat := 4096
  const NUM_OF_SPTSHADOW1: nat := 2048
  const NUM_OF_SPTSHADOW2: nat := 512
  const HASHSIZE_OF_SPTRWMAP: nat := 4096
  const HASHSIZE_OF_SPTSHADOW1: nat := 2048
  const HASHSIZE_OF_SPTSHADOW2: nat := 1024
  const NUM_OF_SPTSHADOWOFF: nat := 31
  const NUM_OF_SPTSHADOW1MAP: nat := 512
  const ENTRIES: nat := 512

  /** A shadow key without its KEY_MODIFIED bit (the part selected by KEY_CMPMASK). */
  datatype Key = Key(gfn: nat, sub: nat, glevels: nat, large: bool, wp0: bool, nx: bool, us0: bool, rw0: bool)

  /** A shadow page table entry; attr packs PWT, PCD and PAT. */
  datatype Pte = Pte(present: bool, rw: bool, us: bool, nx: bool, accessed: bool, dirty: bool, attr: nat, frame: nat)

  const ZERO_PTE := Pte(false, false, false, false, false, false, 0, 0)

  /** A shadow page directory entry: zero, or a link to the page of a shadow1 slot. */
  datatype Pde = NoPde | Pde(slot: nat, big: bool, rw: bool, us: bool, nx: bool)

  /** An entry of the top tables: zero, a link to a table page, or a link to the page of a shadow2 slot. */
  datatype TopEntry = NoEntry | ToTable(tbl: nat) | ToShadow2(slot: nat)

  /** A pointer to one entry of the page of a shadow slot. */
  datatype Cell = Cell(slot: nat, idx: nat)

  /** clear_n, clear_off and clear_area of a shadow page; area has its least significant bit first. */
  datatype ClearInfo = ClearInfo(n: nat, off: seq<nat>, area: seq<bool>)

  datatype Slot = Slot(key: Key, modified: bool, info: ClearInfo)

  /** A guest frame of one level of a guest walk: GFN_GLOBAL and GFN_UNUSED stand for a large page. */
  datatype Gfn = Frame(n: nat) | Global | Unused

  ghost predicate InfoOk(c: ClearInfo) {
    && |c.off| == NUM_OF_SPTSHADOWOFF
    && |c.area| == 64
    && c.n <= NUM_OF_SPTSHADOWOFF + 1
    && (c.n > 0 ==> exists b :: 0 <= b < 64 && c.area[b])
    && (forall k :: 0 <= k < c.n && k < NUM_OF_SPTSHADOWOFF ==> c.off[k] < 256)
  }

  /** clear_off lists the pair of entries that off belongs to. */
  ghost predicate Listed(c: ClearInfo, off: nat)
    requires InfoOk(c)
  {
    exists k :: 0 <= k < c.n && k < NUM_OF_SPTSHADOWOFF && c.off[k] == off / 2
  }

  /** Entry off has been recorded since the page was last cleared, so a write to it will be cleared. */
  ghost predicate Recorded(c: ClearInfo, off: nat) {
    && InfoOk(c)
    && off < ENTRIES
    && c.n > 0
    && c.area[off / 8]
    && (c.n <= NUM_OF_SPTSHADOWOFF ==> Listed(c, off))
  }

  /** Every entry that is not zero has been recorded. */
  ghost predicate Covered<T>(zero: T, page: seq<T>, c: ClearInfo) {
    && |page| == ENTRIES
    && InfoOk(c)
    && forall i :: 0 <= i < ENTRIES && page[i] != zero ==> Recorded(c, i)
  }
}
