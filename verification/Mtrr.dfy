/** Memory types from the MTRRs (core/cache.c): the type of an address, and the test that a whole block has one. */
module Mtrr {

  type u64 = bv64

  type Kind = k: int | 0 <= k < 256

  const CACHE_TYPE_UC: Kind := 0
  const CACHE_TYPE_WT: Kind := 4
  const CACHE_TYPE_WB: Kind := 6
  const CACHE_TYPE_UC_MINUS: Kind := 7
  const GMTRR_VCNT: nat := 10
  const PHYSMASK_MASK: u64 := 0xF_FFFF_FFFF_F000
  const TOP_MEM2_ADDR_MASK: u64 := 0xF_FFFF_FF80_0000

  /** A pair of variable-range registers: the V bit, the masked PhysMask field, the base and the type byte. */
  datatype Range = Range(valid: bool, mask: u64, base: u64, kind: Kind)

  /** struct cache_regs: the default-type register by its E and FE bits and type, the variable ranges, the
      fixed-range bytes, the TOM2FORCEMEMTYPEWB bit of SYSCFG, and TOP_MEM2. */
  datatype CacheRegs =
    CacheRegs(e: bool, fe: bool, kind: Kind, ranges: seq<Range>, fix: u64 -> Kind, forceWB: bool, topMem2: u64)

  predicate RegsOk(c: CacheRegs) {
    |c.ranges| == GMTRR_VCNT
  }

  /** a agrees with base in every bit of the mask. */
  predicate Includes(mask: u64, base: u64, a: u64) {
    mask & base == mask & a
  }

  /** Variable range i is valid and includes a. */
  predicate Hits(c: CacheRegs, i: nat, a: u64)
    requires RegsOk(c) && i < GMTRR_VCNT
  {
    c.ranges[i].valid && Includes(c.ranges[i].mask, c.ranges[i].base, a)
  }

  /** The types of the first n variable ranges that include a, in register order. */
  ghost function HitTypes(c: CacheRegs, n: nat, a: u64): seq<Kind>
    requires RegsOk(c) && n <= GMTRR_VCNT
  {
    if n == 0 then [] else (
      var s := HitTypes(c, n - 1, a);
      if Hits(c, n - 1, a) then s + [c.ranges[n - 1].kind] else s)
  }

  /** The first type other than UC_MINUS, which no valid register holds. */
  ghost function FirstNamed(s: seq<Kind>): Kind {
    if s == [] then CACHE_TYPE_UC_MINUS
    else if s[0] != CACHE_TYPE_UC_MINUS then s[0]
    else FirstNamed(s[1..])
  }

  /** The rule for overlapping ranges: UC wins, then WT, then the first range. */
  ghost function Combined(s: seq<Kind>): Kind {
    if CACHE_TYPE_UC in s then CACHE_TYPE_UC
    else if CACHE_TYPE_WT in s then CACHE_TYPE_WT
    else FirstNamed(s)
  }

  predicate Below(a: u64, topMem2: u64) {
    a < topMem2 & TOP_MEM2_ADDR_MASK
  }

  predicate Above4G(a: u64) {
    a >= 0x1_0000_0000
  }

  predicate ForcedWB(c: CacheRegs, a: u64) {
    Above4G(a) && c.forceWB && Below(a, c.topMem2)
  }

  /** The fixed-range byte for an address below 1 MiB. */
  function FixedIndex(a: u64): u64 {
    if a & 0x80000 != 0 then
      if a & 0x40000 != 0 then (a & 0x3F000) >> 12 else 64 + ((a & 0x3C000) >> 14)
    else 80 + ((a & 0x70000) >> 16)
  }

  /** The memory type of address a. */
  ghost function MemoryType(c: CacheRegs, a: u64, passFix: bool): Kind
    requires RegsOk(c)
  {
    if !c.e then CACHE_TYPE_UC
    else if c.fe && a <= 0xFFFFF then if passFix then CACHE_TYPE_WB else c.fix(FixedIndex(a))
    else
      var v := Combined(HitTypes(c, GMTRR_VCNT, a));
      if v != CACHE_TYPE_UC_MINUS then v
      else if ForcedWB(c, a) then CACHE_TYPE_WB
      else c.kind
  }

  lemma FirstNamedAppend(s: seq<Kind>, t: Kind)
    ensures FirstNamed(s + [t]) == if FirstNamed(s) == CACHE_TYPE_UC_MINUS then t else FirstNamed(s)
  {
    if s != [] {
      assert (s + [t])[1..] == s[1..] + [t];
      FirstNamedAppend(s[1..], t);
    }
  }

  lemma CombinedAppend(s: seq<Kind>, t: Kind)
    requires CACHE_TYPE_UC !in s && t != CACHE_TYPE_UC
    ensures Combined(s + [t]) ==
      if t == CACHE_TYPE_WT || Combined(s) == CACHE_TYPE_UC_MINUS then t else Combined(s)
  {
    FirstNamedAppend(s, t);
    assert t in s + [t];
    FirstNamedIn(s);
  }

  lemma FirstNamedIn(s: seq<Kind>)
    ensures FirstNamed(s) != CACHE_TYPE_UC_MINUS ==> FirstNamed(s) in s
  {
  }

  /** t is the type that the first n ranges give to a, none of them being uncacheable. */
  ghost predicate Tracked(c: CacheRegs, n: nat, a: u64, t: Kind)
    requires RegsOk(c) && n <= GMTRR_VCNT
  {
    CACHE_TYPE_UC !in HitTypes(c, n, a) && t == Combined(HitTypes(c, n, a))
  }

  lemma TrackHit(c: CacheRegs, n: nat, a: u64, t: Kind)
    requires RegsOk(c) && n < GMTRR_VCNT && Tracked(c, n, a, t) && Hits(c, n, a)
    ensures var b := c.ranges[n].kind;
      b != CACHE_TYPE_UC ==> Tracked(c, n + 1, a, if b == CACHE_TYPE_WT || t == CACHE_TYPE_UC_MINUS then b else t)
  {
    if c.ranges[n].kind != CACHE_TYPE_UC {
      CombinedAppend(HitTypes(c, n, a), c.ranges[n].kind);
    }
  }

  lemma TrackMiss(c: CacheRegs, n: nat, a: u64, t: Kind)
    requires RegsOk(c) && n < GMTRR_VCNT && Tracked(c, n, a, t) && !Hits(c, n, a)
    ensures Tracked(c, n + 1, a, t)
  {
  }

  lemma HitTypesGrow(c: CacheRegs, n: nat, m: nat, a: u64, t: Kind)
    requires RegsOk(c) && n <= m <= GMTRR_VCNT && t in HitTypes(c, n, a)
    ensures t in HitTypes(c, m, a)
  {
    if n < m {
      HitTypesGrow(c, n, m - 1, a, t);
    }
  }

  /** get_mtrr_type. */
  method GetMtrrType(phys: u64, c: CacheRegs, passFix: bool) returns (t: Kind)
    requires RegsOk(c)
    ensures t == MemoryType(c, phys, passFix)
  {
    if !c.e {
      return CACHE_TYPE_UC;
    }
    if c.fe && phys <= 0xFFFFF {
      if passFix {
        return CACHE_TYPE_WB;
      }
      return c.fix(FixedIndex(phys));
    }
    t := CACHE_TYPE_UC_MINUS;
    for i := 0 to GMTRR_VCNT
      invariant Tracked(c, i, phys, t)
    {
      if Hits(c, i, phys) {
        if c.ranges[i].kind == CACHE_TYPE_UC {
          UncacheableIn(c, i, phys);
          return CACHE_TYPE_UC;
        }
        TrackHit(c, i, phys, t);
        if c.ranges[i].kind == CACHE_TYPE_WT {
          t := CACHE_TYPE_WT;
        } else if t == CACHE_TYPE_UC_MINUS {
          t := c.ranges[i].kind;
        }
      } else {
        TrackMiss(c, i, phys, t);
      }
    }
    if t == CACHE_TYPE_UC_MINUS {
      t := if ForcedWB(c, phys) then CACHE_TYPE_WB else c.kind;
    }
  }

  /** a lies in the block of phys. */
  predicate InBlock(a: u64, phys: u64, physmask: u64) {
    a & !physmask == phys & !physmask
  }

  /** The mask looks at some bit inside the block. */
  predicate Finer(mask: u64, physmask: u64) {
    mask & physmask != 0
  }

  /** Range i distinguishes addresses inside the block of phys. */
  predicate Cuts(c: CacheRegs, i: nat, phys: u64, physmask: u64)
    requires RegsOk(c) && i < GMTRR_VCNT
  {
    && c.ranges[i].valid && Finer(c.ranges[i].mask, physmask)
    && (Hits(c, i, phys) || InBlock(c.ranges[i].mask & c.ranges[i].base, phys, physmask))
  }

  /** Range i is uncacheable, holds the whole block, and no range before it cuts the block. */
  ghost predicate UncacheableBlock(c: CacheRegs, i: nat, phys: u64, physmask: u64)
    requires RegsOk(c) && i < GMTRR_VCNT
  {
    && Hits(c, i, phys) && c.ranges[i].kind == CACHE_TYPE_UC
    && forall j :: 0 <= j <= i ==> !Cuts(c, j, phys, physmask)
  }

  predicate NearFixed(c: CacheRegs, phys: u64, physmask: u64) {
    c.fe && (phys <= 0xFFFFF || phys <= physmask)
  }

  /** What the check answers. */
  ghost predicate Equal(c: CacheRegs, phys: u64, physmask: u64)
    requires RegsOk(c)
  {
    && c.e && !NearFixed(c, phys, physmask)
    && (|| (exists i :: 0 <= i < GMTRR_VCNT && UncacheableBlock(c, i, phys, physmask))
        || ((forall j :: 0 <= j < GMTRR_VCNT ==> !Cuts(c, j, phys, physmask)) && EndsAlike(c, phys, physmask)))
  }

  /** Some range decides the type, or TOP_MEM2 does not lie inside the block. */
  ghost predicate EndsAlike(c: CacheRegs, phys: u64, physmask: u64)
    requires RegsOk(c)
  {
    || Combined(HitTypes(c, GMTRR_VCNT, phys)) != CACHE_TYPE_UC_MINUS
    || !ForcedWB(c, phys)
    || Below(phys | physmask, c.topMem2)
  }

  /** Ranges before i neither cut the block nor hold it uncacheable. */
  ghost predicate Clear(c: CacheRegs, i: nat, phys: u64, physmask: u64)
    requires RegsOk(c) && i <= GMTRR_VCNT
  {
    && (forall j :: 0 <= j < i ==> !Cuts(c, j, phys, physmask))
    && (forall j :: 0 <= j < i ==> !UncacheableBlock(c, j, phys, physmask))
  }

  lemma ClearNext(c: CacheRegs, i: nat, phys: u64, physmask: u64)
    requires RegsOk(c) && i < GMTRR_VCNT && Clear(c, i, phys, physmask) && !Cuts(c, i, phys, physmask)
    requires !Hits(c, i, phys) || c.ranges[i].kind != CACHE_TYPE_UC
    ensures Clear(c, i + 1, phys, physmask)
  {
  }

  lemma UncacheableAccepts(c: CacheRegs, i: nat, phys: u64, physmask: u64)
    requires RegsOk(c) && i < GMTRR_VCNT && Clear(c, i, phys, physmask) && !Cuts(c, i, phys, physmask)
    requires Hits(c, i, phys) && c.ranges[i].kind == CACHE_TYPE_UC
    requires c.e && !NearFixed(c, phys, physmask)
    ensures Equal(c, phys, physmask)
  {
    assert UncacheableBlock(c, i, phys, physmask);
  }

  lemma ClearDecides(c: CacheRegs, phys: u64, physmask: u64, t: Kind)
    requires RegsOk(c) && Clear(c, GMTRR_VCNT, phys, physmask) && Tracked(c, GMTRR_VCNT, phys, t)
    requires c.e && !NearFixed(c, phys, physmask)
    ensures Equal(c, phys, physmask) <==>
      t != CACHE_TYPE_UC_MINUS || !ForcedWB(c, phys) || Below(phys | physmask, c.topMem2)
  {
  }

  lemma CutRefuses(c: CacheRegs, i: nat, phys: u64, physmask: u64)
    requires RegsOk(c) && i < GMTRR_VCNT && Cuts(c, i, phys, physmask)
    requires Clear(c, i, phys, physmask)
    ensures !Equal(c, phys, physmask)
  {
  }

  /** mtrr_type_equal. */
  method MtrrTypeEqual(phys: u64, c: CacheRegs, passFix: bool, physmask: u64) returns (r: bool)
    requires RegsOk(c)
    ensures r == Equal(c, phys, physmask)
  {
    if !c.e {
      return false;
    }
    if NearFixed(c, phys, physmask) {
      return false;
    }
    var t := CACHE_TYPE_UC_MINUS;
    for i := 0 to GMTRR_VCNT
      invariant Clear(c, i, phys, physmask)
      invariant Tracked(c, i, phys, t)
    {
      if Cuts(c, i, phys, physmask) {
        CutRefuses(c, i, phys, physmask);
        return false;
      }
      if Hits(c, i, phys) {
        if c.ranges[i].kind == CACHE_TYPE_UC {
          UncacheableAccepts(c, i, phys, physmask);
          return true;
        }
        TrackHit(c, i, phys, t);
        if c.ranges[i].kind == CACHE_TYPE_WT {
          t := CACHE_TYPE_WT;
        } else if t == CACHE_TYPE_UC_MINUS {
          t := c.ranges[i].kind;
        }
      } else {
        TrackMiss(c, i, phys, t);
      }
      ClearNext(c, i, phys, physmask);
    }
    ClearDecides(c, phys, physmask, t);
    if t != CACHE_TYPE_UC_MINUS {
      return true;
    }
    if ForcedWB(c, phys) {
      return Below(phys | physmask, c.topMem2);
    }
    return true;
  }

  predicate Within(a: u64, width: u64) {
    a & !width == 0
  }

  /** 2^k - 1 for some k. */
  predicate LowMask(m: u64) {
    m & (m + 1) == 0
  }

  /** A block of 2^b bytes, and an address width of at least that. */
  predicate BlockOk(physmask: u64, width: u64) {
    LowMask(physmask) && LowMask(width) && physmask <= width
  }

  predicate Aligned(phys: u64, physmask: u64) {
    phys & physmask == 0
  }

  /** A block of at most 8 MiB, or one of at most 4 GiB that starts at phys. */
  predicate SizeOk(phys: u64, physmask: u64) {
    physmask <= 0x7F_FFFF || (Aligned(phys, physmask) && physmask <= 0xFFFF_FFFF)
  }

  /** A mask that has every bit of the width from some bit up. */
  predicate Contiguous(mask: u64, width: u64) {
    LowMask(width & !mask)
  }

  /** If the mask looks inside the block, it looks at every bit of the block number. */
  predicate Fits(mask: u64, physmask: u64, width: u64) {
    Finer(mask, physmask) ==> width & !physmask & !mask == 0
  }

  lemma ContiguousFits(mask: u64, physmask: u64, width: u64)
    requires Contiguous(mask, width) && BlockOk(physmask, width)
    ensures Fits(mask, physmask, width)
  {
  }

  lemma SameUnderMask(mask: u64, base: u64, a: u64, phys: u64, physmask: u64)
    requires InBlock(a, phys, physmask) && !Finer(mask, physmask)
    ensures Includes(mask, base, a) ==> Includes(mask, base, phys)
  {
  }

  lemma WithinWidth(a: u64, phys: u64, physmask: u64, width: u64)
    requires Within(phys, width) && Within(physmask, width) && a & !physmask == phys & !physmask
    ensures Within(a, width)
  {
  }

  lemma MaskSeesBlock(mask: u64, base: u64, a: u64, physmask: u64, width: u64)
    requires Within(a, width) && width & !physmask & !mask == 0 && Includes(mask, base, a)
    ensures InBlock(mask & base, a, physmask)
  {
  }

  lemma SameBlock(x: u64, a: u64, phys: u64, physmask: u64)
    requires InBlock(x, a, physmask) && InBlock(a, phys, physmask)
    ensures InBlock(x, phys, physmask) && InBlock(phys, a, physmask)
  {
  }

  lemma UncutFiner(mask: u64, base: u64, a: u64, phys: u64, physmask: u64, width: u64)
    requires Finer(mask, physmask) && Includes(mask, base, a) && InBlock(a, phys, physmask)
    requires Within(phys, width) && Within(physmask, width) && Fits(mask, physmask, width)
    ensures InBlock(mask & base, phys, physmask)
  {
    WithinWidth(a, phys, physmask, width);
    MaskSeesBlock(mask, base, a, physmask, width);
    SameBlock(mask & base, a, phys, physmask);
  }

  lemma UncutHit(c: CacheRegs, i: nat, a: u64, phys: u64, physmask: u64, width: u64)
    requires RegsOk(c) && i < GMTRR_VCNT && InBlock(a, phys, physmask)
    requires Within(phys, width) && Within(physmask, width) && Fits(c.ranges[i].mask, physmask, width)
    requires !Cuts(c, i, phys, physmask) && Hits(c, i, a)
    ensures Hits(c, i, phys)
  {
    var mask, base := c.ranges[i].mask, c.ranges[i].base;
    if Finer(mask, physmask) {
      UncutFiner(mask, base, a, phys, physmask, width);
      assert false;
    } else {
      SameUnderMask(mask, base, a, phys, physmask);
    }
  }

  lemma HitAll(c: CacheRegs, i: nat, a: u64, phys: u64, physmask: u64)
    requires RegsOk(c) && i < GMTRR_VCNT && InBlock(a, phys, physmask)
    requires !Cuts(c, i, phys, physmask) && Hits(c, i, phys)
    ensures Hits(c, i, a)
  {
    SameBlock(a, a, phys, physmask);
    SameUnderMask(c.ranges[i].mask, c.ranges[i].base, phys, a, physmask);
  }

  /** A range that does not cut the block holds all of it or none of it. */
  lemma UncutAllOrNone(c: CacheRegs, i: nat, a: u64, phys: u64, physmask: u64, width: u64)
    requires RegsOk(c) && i < GMTRR_VCNT && InBlock(a, phys, physmask)
    requires Within(phys, width) && Within(physmask, width) && Fits(c.ranges[i].mask, physmask, width)
    requires !Cuts(c, i, phys, physmask)
    ensures Hits(c, i, a) == Hits(c, i, phys)
  {
    if Hits(c, i, a) {
      UncutHit(c, i, a, phys, physmask, width);
    } else if Hits(c, i, phys) {
      HitAll(c, i, a, phys, physmask);
    }
  }

  lemma SameHits(c: CacheRegs, n: nat, a: u64, phys: u64)
    requires RegsOk(c) && n <= GMTRR_VCNT && forall j :: 0 <= j < n ==> Hits(c, j, a) == Hits(c, j, phys)
    ensures HitTypes(c, n, a) == HitTypes(c, n, phys)
  {
  }

  lemma UncacheableIn(c: CacheRegs, i: nat, a: u64)
    requires RegsOk(c) && i < GMTRR_VCNT && Hits(c, i, a) && c.ranges[i].kind == CACHE_TYPE_UC
    ensures CACHE_TYPE_UC in HitTypes(c, GMTRR_VCNT, a)
  {
    HitTypesGrow(c, i + 1, GMTRR_VCNT, a, CACHE_TYPE_UC);
  }

  predicate SameHigh(a: u64, phys: u64) {
    a & !0x7F_FFFF == phys & !0x7F_FFFF
  }

  lemma BlockIsHigh(a: u64, phys: u64, physmask: u64)
    requires LowMask(physmask) && physmask <= 0x7F_FFFF && InBlock(a, phys, physmask)
    ensures SameHigh(a, phys) && SameHigh(phys, a)
  {
    SmallMask(physmask);
  }

  lemma SmallMask(physmask: u64)
    requires LowMask(physmask) && physmask <= 0x7F_FFFF
    ensures physmask & !0x7F_FFFF == 0
  {
  }

  lemma BelowToo(a: u64, phys: u64, top: u64)
    requires SameHigh(a, phys) && Below(a, top)
    ensures Below(phys, top)
  {
  }

  lemma Above4GToo(a: u64, phys: u64)
    requires SameHigh(a, phys) && Above4G(a)
    ensures Above4G(phys)
  {
  }

  /** Blocks of up to 8 MiB do not straddle 4 GiB or TOP_MEM2. */
  lemma SameForce(c: CacheRegs, a: u64, phys: u64)
    requires SameHigh(a, phys) && SameHigh(phys, a)
    ensures ForcedWB(c, a) == ForcedWB(c, phys)
  {
    if ForcedWB(c, a) {
      BelowToo(a, phys, c.topMem2);
      Above4GToo(a, phys);
    } else if ForcedWB(c, phys) {
      BelowToo(phys, a, c.topMem2);
      Above4GToo(phys, a);
    }
  }

  lemma SameAbove4G(a: u64, phys: u64, physmask: u64)
    requires LowMask(physmask) && physmask <= 0xFFFF_FFFF && InBlock(a, phys, physmask)
    ensures Above4G(a) == Above4G(phys)
  {
  }

  /** The last address of an aligned block is at least a, and the first is at most a. */
  lemma BelowInside(a: u64, phys: u64, physmask: u64, top: u64)
    requires Aligned(phys, physmask) && InBlock(a, phys, physmask) && Below(phys | physmask, top)
    ensures Below(a, top)
  {
  }

  lemma BelowStart(a: u64, phys: u64, physmask: u64, top: u64)
    requires Aligned(phys, physmask) && InBlock(a, phys, physmask) && Below(a, top)
    ensures Below(phys, top)
  {
  }

  /** What the check asks of TOP_MEM2 is enough for blocks that start at phys, up to 4 GiB. */
  lemma SameForceAligned(c: CacheRegs, a: u64, phys: u64, physmask: u64)
    requires LowMask(physmask) && physmask <= 0xFFFF_FFFF && Aligned(phys, physmask) && InBlock(a, phys, physmask)
    requires !ForcedWB(c, phys) || Below(phys | physmask, c.topMem2)
    ensures ForcedWB(c, a) == ForcedWB(c, phys)
  {
    SameAbove4G(a, phys, physmask);
    if ForcedWB(c, phys) {
      BelowInside(a, phys, physmask, c.topMem2);
    } else if ForcedWB(c, a) {
      BelowStart(a, phys, physmask, c.topMem2);
    }
  }

  lemma ForceAgrees(c: CacheRegs, a: u64, phys: u64, physmask: u64)
    requires LowMask(physmask) && SizeOk(phys, physmask) && InBlock(a, phys, physmask)
    requires !ForcedWB(c, phys) || Below(phys | physmask, c.topMem2)
    ensures ForcedWB(c, a) == ForcedWB(c, phys)
  {
    if physmask <= 0x7F_FFFF {
      BlockIsHigh(a, phys, physmask);
      SameForce(c, a, phys);
    } else {
      SameForceAligned(c, a, phys, physmask);
    }
  }

  lemma BeyondFixed(c: CacheRegs, a: u64, phys: u64, physmask: u64)
    requires !NearFixed(c, phys, physmask) && LowMask(physmask) && InBlock(a, phys, physmask)
    ensures c.fe ==> a > 0xFFFFF && phys > 0xFFFFF
  {
    if c.fe {
      PastFixed(a, phys, physmask);
    }
  }

  lemma PastFixed(a: u64, phys: u64, physmask: u64)
    requires phys > 0xFFFFF && phys > physmask && LowMask(physmask) && InBlock(a, phys, physmask)
    ensures a > 0xFFFFF
  {
  }

  ghost predicate AllFit(c: CacheRegs, physmask: u64, width: u64)
    requires RegsOk(c)
  {
    forall i :: 0 <= i < GMTRR_VCNT && c.ranges[i].valid ==> Fits(c.ranges[i].mask, physmask, width)
  }

  ghost predicate AllContiguous(c: CacheRegs, width: u64)
    requires RegsOk(c)
  {
    forall i :: 0 <= i < GMTRR_VCNT && c.ranges[i].valid ==> Contiguous(c.ranges[i].mask, width)
  }

  /** Two addresses beyond the fixed ranges that hit the same ranges. */
  lemma SameType(c: CacheRegs, a: u64, phys: u64, passFix: bool)
    requires RegsOk(c) && HitTypes(c, GMTRR_VCNT, a) == HitTypes(c, GMTRR_VCNT, phys)
    requires c.fe ==> a > 0xFFFFF && phys > 0xFFFFF
    requires Combined(HitTypes(c, GMTRR_VCNT, phys)) != CACHE_TYPE_UC_MINUS || ForcedWB(c, a) == ForcedWB(c, phys)
    ensures MemoryType(c, a, passFix) == MemoryType(c, phys, passFix)
  {
  }

  lemma UncacheableType(c: CacheRegs, i: nat, a: u64, passFix: bool)
    requires RegsOk(c) && i < GMTRR_VCNT && Hits(c, i, a) && c.ranges[i].kind == CACHE_TYPE_UC
    requires c.fe ==> a > 0xFFFFF
    ensures MemoryType(c, a, passFix) == CACHE_TYPE_UC
  {
    UncacheableIn(c, i, a);
  }

  lemma UncutSame(c: CacheRegs, phys: u64, physmask: u64, width: u64, a: u64)
    requires RegsOk(c) && InBlock(a, phys, physmask) && AllFit(c, physmask, width)
    requires Within(phys, width) && Within(physmask, width)
    requires forall j :: 0 <= j < GMTRR_VCNT ==> !Cuts(c, j, phys, physmask)
    ensures HitTypes(c, GMTRR_VCNT, a) == HitTypes(c, GMTRR_VCNT, phys)
  {
    forall j | 0 <= j < GMTRR_VCNT ensures Hits(c, j, a) == Hits(c, j, phys) {
      if c.ranges[j].valid {
        UncutAllOrNone(c, j, a, phys, physmask, width);
      }
    }
    SameHits(c, GMTRR_VCNT, a, phys);
  }

  lemma UniformUncacheable(c: CacheRegs, i: nat, phys: u64, passFix: bool, physmask: u64, width: u64, a: u64)
    requires RegsOk(c) && i < GMTRR_VCNT && UncacheableBlock(c, i, phys, physmask) && InBlock(a, phys, physmask)
    requires Within(phys, width) && Within(physmask, width) && AllFit(c, physmask, width)
    requires c.fe ==> a > 0xFFFFF && phys > 0xFFFFF
    ensures MemoryType(c, a, passFix) == MemoryType(c, phys, passFix)
  {
    UncutAllOrNone(c, i, a, phys, physmask, width);
    UncacheableType(c, i, a, passFix);
    UncacheableType(c, i, phys, passFix);
  }

  lemma UniformUncut(c: CacheRegs, phys: u64, passFix: bool, physmask: u64, width: u64, a: u64)
    requires RegsOk(c) && Within(phys, width) && Within(physmask, width) && AllFit(c, physmask, width)
    requires LowMask(physmask) && SizeOk(phys, physmask) && InBlock(a, phys, physmask)
    requires c.fe ==> a > 0xFFFFF && phys > 0xFFFFF
    requires forall j :: 0 <= j < GMTRR_VCNT ==> !Cuts(c, j, phys, physmask)
    requires || Combined(HitTypes(c, GMTRR_VCNT, phys)) != CACHE_TYPE_UC_MINUS
             || !ForcedWB(c, phys) || Below(phys | physmask, c.topMem2)
    ensures MemoryType(c, a, passFix) == MemoryType(c, phys, passFix)
  {
    UncutSame(c, phys, physmask, width, a);
    if Combined(HitTypes(c, GMTRR_VCNT, phys)) == CACHE_TYPE_UC_MINUS {
      ForceAgrees(c, a, phys, physmask);
    }
    SameType(c, a, phys, passFix);
  }

  /** When the check says equal, one call of get_mtrr_type speaks for every address of the block. */
  lemma UniformWhenFits(c: CacheRegs, phys: u64, passFix: bool, physmask: u64, width: u64, a: u64)
    requires RegsOk(c) && BlockOk(physmask, width) && Within(phys, width) && AllFit(c, physmask, width)
    requires SizeOk(phys, physmask) && Equal(c, phys, physmask) && InBlock(a, phys, physmask)
    ensures MemoryType(c, a, passFix) == MemoryType(c, phys, passFix)
  {
    LowMaskBits(physmask, width);
    BeyondFixed(c, a, phys, physmask);
    if i :| 0 <= i < GMTRR_VCNT && UncacheableBlock(c, i, phys, physmask) {
      UniformUncacheable(c, i, phys, passFix, physmask, width, a);
    } else {
      UniformUncut(c, phys, passFix, physmask, width, a);
    }
  }

  lemma LowMaskBits(physmask: u64, width: u64)
    requires BlockOk(physmask, width)
    ensures Within(physmask, width)
  {
  }

  lemma UniformWhenContiguous(c: CacheRegs, phys: u64, passFix: bool, physmask: u64, width: u64, a: u64)
    requires RegsOk(c) && BlockOk(physmask, width) && Within(phys, width) && AllContiguous(c, width)
    requires SizeOk(phys, physmask) && Equal(c, phys, physmask) && InBlock(a, phys, physmask)
    ensures MemoryType(c, a, passFix) == MemoryType(c, phys, passFix)
  {
    forall i | 0 <= i < GMTRR_VCNT && c.ranges[i].valid ensures Fits(c.ranges[i].mask, physmask, width) {
      ContiguousFits(c.ranges[i].mask, physmask, width);
    }
    UniformWhenFits(c, phys, passFix, physmask, width, a);
  }

  lemma FlipInside(mask: u64, base: u64, x: u64, physmask: u64)
    requires Finer(mask, physmask) && Includes(mask, base, x)
    ensures !Includes(mask, base, x ^ (mask & physmask))
  {
  }

  lemma StaysInside(mask: u64, x: u64, physmask: u64)
    ensures InBlock(x ^ (mask & physmask), x, physmask)
  {
  }

  lemma BaseIncluded(mask: u64, base: u64)
    ensures Includes(mask, base, mask & base)
  {
  }

  lemma CutWitness(c: CacheRegs, i: nat, x: u64, phys: u64, physmask: u64) returns (y: u64)
    requires RegsOk(c) && i < GMTRR_VCNT && Hits(c, i, x)
    requires Finer(c.ranges[i].mask, physmask) && InBlock(x, phys, physmask)
    ensures InBlock(y, phys, physmask) && !Hits(c, i, y)
  {
    var mask := c.ranges[i].mask;
    y := x ^ (mask & physmask);
    FlipInside(mask, c.ranges[i].base, x, physmask);
    StaysInside(mask, x, physmask);
    SameBlock(y, x, phys, physmask);
  }

  ghost predicate PartlyHeld(c: CacheRegs, i: nat, phys: u64, physmask: u64)
    requires RegsOk(c) && i < GMTRR_VCNT
  {
    exists x, y :: InBlock(x, phys, physmask) && InBlock(y, phys, physmask) && Hits(c, i, x) && !Hits(c, i, y)
  }

  lemma BaseHits(c: CacheRegs, i: nat)
    requires RegsOk(c) && i < GMTRR_VCNT && c.ranges[i].valid
    ensures Hits(c, i, c.ranges[i].mask & c.ranges[i].base)
  {
    BaseIncluded(c.ranges[i].mask, c.ranges[i].base);
  }

  lemma CutIsPartial(c: CacheRegs, i: nat, phys: u64, physmask: u64)
    requires RegsOk(c) && i < GMTRR_VCNT && Cuts(c, i, phys, physmask)
    ensures PartlyHeld(c, i, phys, physmask)
  {
    if Hits(c, i, phys) {
      var y := CutWitness(c, i, phys, phys, physmask);
    } else {
      BaseHits(c, i);
      var y := CutWitness(c, i, c.ranges[i].mask & c.ranges[i].base, phys, physmask);
    }
  }

  /** The check refuses exactly the blocks that some range holds only in part. */
  lemma CutsExactly(c: CacheRegs, i: nat, phys: u64, physmask: u64, width: u64)
    requires RegsOk(c) && i < GMTRR_VCNT && c.ranges[i].valid
    requires Within(phys, width) && Within(physmask, width) && Fits(c.ranges[i].mask, physmask, width)
    ensures Cuts(c, i, phys, physmask) <==> PartlyHeld(c, i, phys, physmask)
  {
    if Cuts(c, i, phys, physmask) {
      CutIsPartial(c, i, phys, physmask);
    } else {
      forall x | InBlock(x, phys, physmask) ensures Hits(c, i, x) == Hits(c, i, phys) {
        UncutAllOrNone(c, i, x, phys, physmask, width);
      }
    }
  }

  ghost function OneRange(base: u64, mask: u64): CacheRegs {
    var off := Range(false, 0, 0, CACHE_TYPE_UC);
    CacheRegs(true, false, CACHE_TYPE_WB, [Range(true, mask, base, CACHE_TYPE_UC)] + seq(GMTRR_VCNT - 1, _ => off),
              _ => CACHE_TYPE_UC, false, 0)
  }

  /** The bits of the mask inside the block, and the bits of the block number the mask does not look at. */
  ghost predicate Gap(mask: u64, physmask: u64, width: u64, lo: u64, hi: u64) {
    && mask & !PHYSMASK_MASK == 0 && lo == mask & physmask && lo != 0
    && hi == width & !physmask & !mask && hi != 0
  }

  lemma GapHit(mask: u64, physmask: u64, width: u64, lo: u64, hi: u64)
    requires Gap(mask, physmask, width, lo, hi)
    ensures Includes(mask, lo, hi | lo)
  {
  }

  lemma GapMiss(mask: u64, physmask: u64, width: u64, lo: u64, hi: u64)
    requires Gap(mask, physmask, width, lo, hi)
    ensures !Includes(mask, lo, hi)
  {
  }

  lemma GapBlocks(mask: u64, physmask: u64, width: u64, lo: u64, hi: u64)
    requires Gap(mask, physmask, width, lo, hi)
    ensures InBlock(hi | lo, hi, physmask) && Within(hi, width) && Aligned(hi, physmask)
  {
  }

  lemma GapBase(mask: u64, physmask: u64, width: u64, lo: u64, hi: u64)
    requires Gap(mask, physmask, width, lo, hi)
    ensures !InBlock(mask & lo, hi, physmask)
  {
  }

  ghost predicate OnlyRange(c: CacheRegs, mask: u64) {
    RegsOk(c) && c.ranges[0].mask == mask && forall j :: 1 <= j < GMTRR_VCNT ==> !c.ranges[j].valid
  }

  lemma OneHit(c: CacheRegs, n: nat, a: u64, mask: u64)
    requires OnlyRange(c, mask) && n <= GMTRR_VCNT
    ensures HitTypes(c, n, a) == if n > 0 && Hits(c, 0, a) then [c.ranges[0].kind] else []
  {
  }

  lemma OneType(base: u64, mask: u64, a: u64, passFix: bool)
    requires mask & !PHYSMASK_MASK == 0
    ensures OnlyRange(OneRange(base, mask), mask)
    ensures MemoryType(OneRange(base, mask), a, passFix) ==
      if Includes(mask, base, a) then CACHE_TYPE_UC else CACHE_TYPE_WB
  {
    OneHit(OneRange(base, mask), GMTRR_VCNT, a, mask);
  }

  lemma OneUncut(c: CacheRegs, mask: u64, base: u64, phys: u64, physmask: u64)
    requires OnlyRange(c, mask) && c.ranges[0].base == base
    requires !Includes(mask, base, phys) && !InBlock(mask & base, phys, physmask)
    ensures forall j :: 0 <= j < GMTRR_VCNT ==> !Cuts(c, j, phys, physmask)
  {
    forall j | 0 <= j < GMTRR_VCNT ensures !Cuts(c, j, phys, physmask) {
      if j == 0 {
        assert !Hits(c, 0, phys);
      }
    }
  }

  lemma OneEqual(base: u64, mask: u64, phys: u64, physmask: u64)
    requires mask & !PHYSMASK_MASK == 0
    requires !Includes(mask, base, phys) && !InBlock(mask & base, phys, physmask)
    ensures OnlyRange(OneRange(base, mask), mask) && Equal(OneRange(base, mask), phys, physmask)
  {
    OneUncut(OneRange(base, mask), mask, base, phys, physmask);
    OneHit(OneRange(base, mask), GMTRR_VCNT, phys, mask);
  }

  /** A single range whose mask does not fit makes the check accept a block of two types. */
  lemma GapMisleads(mask: u64, physmask: u64, width: u64, passFix: bool)
    returns (c: CacheRegs, phys: u64, a: u64)
    requires mask & !PHYSMASK_MASK == 0 && !Fits(mask, physmask, width)
    ensures OnlyRange(c, mask) && Within(phys, width) && Aligned(phys, physmask) && InBlock(a, phys, physmask)
    ensures Equal(c, phys, physmask)
    ensures MemoryType(c, phys, passFix) == CACHE_TYPE_WB && MemoryType(c, a, passFix) == CACHE_TYPE_UC
  {
    var lo, hi := mask & physmask, width & !physmask & !mask;
    GapHit(mask, physmask, width, lo, hi);
    GapMiss(mask, physmask, width, lo, hi);
    GapBlocks(mask, physmask, width, lo, hi);
    GapBase(mask, physmask, width, lo, hi);
    c, phys, a := OneRange(lo, mask), hi, hi | lo;
    OneType(lo, mask, phys, passFix);
    OneType(lo, mask, a, passFix);
    OneEqual(lo, mask, phys, physmask);
  }

  /** For one block size the fit of the masks is exactly what the check relies on. */
  lemma ReliesOnFit(mask: u64, physmask: u64, width: u64, passFix: bool)
    requires mask & !PHYSMASK_MASK == 0 && BlockOk(physmask, width) && physmask <= 0xFFFF_FFFF
    ensures Fits(mask, physmask, width) <==>
      forall c: CacheRegs, phys, a ::
        && OnlyRange(c, mask) && Within(phys, width) && SizeOk(phys, physmask) && InBlock(a, phys, physmask)
        && Equal(c, phys, physmask)
        ==> MemoryType(c, a, passFix) == MemoryType(c, phys, passFix)
  {
    if Fits(mask, physmask, width) {
      forall c: CacheRegs, phys, a |
        && OnlyRange(c, mask) && Within(phys, width) && SizeOk(phys, physmask) && InBlock(a, phys, physmask)
        && Equal(c, phys, physmask)
        ensures MemoryType(c, a, passFix) == MemoryType(c, phys, passFix)
      {
        UniformWhenFits(c, phys, passFix, physmask, width, a);
      }
    } else {
      var c, phys, a := GapMisleads(mask, physmask, width, passFix);
    }
  }

  /** The check is right about the block of phys, for all registers with contiguous masks. */
  ghost predicate RightAbout(phys: u64, physmask: u64, width: u64) {
    forall c: CacheRegs, passFix, a ::
      RegsOk(c) && AllContiguous(c, width) && InBlock(a, phys, physmask) && Equal(c, phys, physmask) ==>
        MemoryType(c, a, passFix) == MemoryType(c, phys, passFix)
  }

  lemma RightWhenSizeOk(phys: u64, physmask: u64, width: u64)
    requires BlockOk(physmask, width) && Within(phys, width) && SizeOk(phys, physmask)
    ensures RightAbout(phys, physmask, width)
  {
    forall c: CacheRegs, passFix, a |
      RegsOk(c) && AllContiguous(c, width) && InBlock(a, phys, physmask) && Equal(c, phys, physmask)
      ensures MemoryType(c, a, passFix) == MemoryType(c, phys, passFix)
    {
      UniformWhenContiguous(c, phys, passFix, physmask, width, a);
    }
  }

  /** No range, and memory from 4 GiB to topMem2 forced to be write-back. */
  ghost function Forced(topMem2: u64): CacheRegs {
    CacheRegs(true, false, CACHE_TYPE_UC, seq(GMTRR_VCNT, _ => Range(false, 0, 0, CACHE_TYPE_UC)), _ => CACHE_TYPE_UC,
              true, topMem2)
  }

  lemma ForcedType(topMem2: u64, a: u64, width: u64)
    ensures RegsOk(Forced(topMem2)) && AllContiguous(Forced(topMem2), width)
    ensures forall j :: 0 <= j < GMTRR_VCNT ==> !Forced(topMem2).ranges[j].valid
    ensures HitTypes(Forced(topMem2), GMTRR_VCNT, a) == []
    ensures MemoryType(Forced(topMem2), a, false) ==
      if Above4G(a) && Below(a, topMem2) then CACHE_TYPE_WB else CACHE_TYPE_UC
  {
    OneHit(Forced(topMem2), GMTRR_VCNT, a, 0);
  }

  /** A block whose address phys is not forced is called equal, and another of its addresses is forced. */
  lemma NotRight(phys: u64, physmask: u64, width: u64, topMem2: u64, a: u64)
    requires InBlock(a, phys, physmask) && !(Above4G(phys) && Below(phys, topMem2)) && Above4G(a) && Below(a, topMem2)
    ensures !RightAbout(phys, physmask, width)
  {
    var c := Forced(topMem2);
    ForcedType(topMem2, a, width);
    ForcedType(topMem2, phys, width);
    assert forall j :: 0 <= j < GMTRR_VCNT ==> !Cuts(c, j, phys, physmask);
    assert Equal(c, phys, physmask);
    assert MemoryType(c, a, false) != MemoryType(c, phys, false);
  }

  lemma LargeMask(physmask: u64)
    requires LowMask(physmask)
    ensures physmask > 0xFFFF_FFFF ==> physmask & 0x1_FFFF_FFFF == 0x1_FFFF_FFFF
    ensures physmask > 0x7F_FFFF ==> physmask & 0xFF_FFFF == 0xFF_FFFF
  {
  }

  /** For blocks that start at phys, as those of both callers do, the check is right iff they have at most 4 GiB. */
  lemma AlignedExactly(physmask: u64, width: u64)
    requires BlockOk(physmask, width)
    ensures physmask <= 0xFFFF_FFFF <==>
      forall phys :: Within(phys, width) && Aligned(phys, physmask) ==> RightAbout(phys, physmask, width)
  {
    if physmask <= 0xFFFF_FFFF {
      forall phys | Within(phys, width) && Aligned(phys, physmask) ensures RightAbout(phys, physmask, width) {
        RightWhenSizeOk(phys, physmask, width);
      }
    } else {
      LargeMask(physmask);
      NotRight(0, physmask, width, 0x2_0000_0000, 0x1_0000_0000);
      assert Within(0, width) && Aligned(0, physmask);
    }
  }

  /** For any address in the block, the check is right iff the blocks have at most 8 MiB, the unit of TOP_MEM2. */
  lemma AnywhereExactly(physmask: u64, width: u64)
    requires BlockOk(physmask, width) && width >= 0x1_FFFF_FFFF
    ensures physmask <= 0x7F_FFFF <==> forall phys :: Within(phys, width) ==> RightAbout(phys, physmask, width)
  {
    if physmask <= 0x7F_FFFF {
      forall phys | Within(phys, width) ensures RightAbout(phys, physmask, width) {
        RightWhenSizeOk(phys, physmask, width);
      }
    } else {
      LargeMask(physmask);
      LargeMask(width);
      NotRight(0x1_0080_0000, physmask, width, 0x1_0080_0000, 0x1_0000_0000);
      assert Within(0x1_0080_0000, width);
    }
  }

  /** The fixed ranges: 64 of 4 KiB from 0xC0000, 16 of 16 KiB from 0x80000, 8 of 64 KiB from 0. */
  lemma FixedRanges(a: u64)
    requires a <= 0xFFFFF
    ensures FixedIndex(a) < 88
    ensures FixedIndex(a) < 64 <==> a >= 0xC0000
    ensures FixedIndex(a) < 64 ==> 0xC0000 + (FixedIndex(a) << 12) == a & !0xFFF
    ensures 64 <= FixedIndex(a) < 80 ==> 0x80000 + (FixedIndex(a) - 64 << 14) == a & !0x3FFF
    ensures 80 <= FixedIndex(a) ==> FixedIndex(a) - 80 << 16 == a & !0xFFFF
  {
  }

  /** Byte k of the fixed-range registers speaks of address a: 64 ranges of 4 KiB from 0xC0000, 16 of 16 KiB from
      0x80000, 8 of 64 KiB from 0. */
  predicate FixedHolds(k: u64, a: u64) {
    if k < 64 then 0xC0000 + k * 0x1000 <= a < 0xC0000 + (k + 1) * 0x1000
    else if k < 80 then 0x80000 + (k - 64) * 0x4000 <= a < 0x80000 + (k - 63) * 0x4000
    else k < 88 && (k - 80) * 0x1_0000 <= a < (k - 79) * 0x1_0000
  }

  lemma IndexHolds(a: u64)
    requires a <= 0xFFFFF
    ensures FixedHolds(FixedIndex(a), a)
  {
    FixedRanges(a);
  }

  /** Range r is valid and a agrees with its base in every bit of its mask. */
  predicate Holds(r: Range, a: u64) {
    r.valid && r.mask & r.base == r.mask & a
  }

  /** One of the first n ranges holds a and has type t. */
  ghost predicate SomeHolds(c: CacheRegs, n: nat, a: u64, t: Kind)
    requires RegsOk(c) && n <= GMTRR_VCNT
  {
    exists i :: 0 <= i < n && Holds(c.ranges[i], a) && c.ranges[i].kind == t
  }

  lemma HoldsIsHit(c: CacheRegs, i: nat, a: u64)
    requires RegsOk(c) && i < GMTRR_VCNT
    ensures Holds(c.ranges[i], a) == Hits(c, i, a)
  {
  }

  lemma {:induction false} TypesHold(c: CacheRegs, n: nat, a: u64, t: Kind)
    requires RegsOk(c) && n <= GMTRR_VCNT
    ensures t in HitTypes(c, n, a) <==> SomeHolds(c, n, a, t)
  {
    if n > 0 {
      var l := n - 1;
      TypesHold(c, l, a, t);
      HoldsIsHit(c, l, a);
      OneMore(c, l, n, a, t);
    }
  }

  lemma OneMore(c: CacheRegs, l: nat, n: nat, a: u64, t: Kind)
    requires RegsOk(c) && n == l + 1 && n <= GMTRR_VCNT
    ensures SomeHolds(c, n, a, t) <==> SomeHolds(c, l, a, t) || (Holds(c.ranges[l], a) && c.ranges[l].kind == t)
  {
    if i :| 0 <= i < n && Holds(c.ranges[i], a) && c.ranges[i].kind == t {
      assert i < l ==> SomeHolds(c, l, a, t);
    }
  }

  /** Range i is the first one that holds a with a type that is valid. */
  ghost predicate FirstHolds(c: CacheRegs, i: nat, a: u64)
    requires RegsOk(c) && i < GMTRR_VCNT
  {
    && Holds(c.ranges[i], a) && c.ranges[i].kind != CACHE_TYPE_UC_MINUS
    && forall j :: 0 <= j < i && Holds(c.ranges[j], a) ==> c.ranges[j].kind == CACHE_TYPE_UC_MINUS
  }

  lemma {:induction false} FirstIs(c: CacheRegs, n: nat, i: nat, a: u64)
    requires RegsOk(c) && i < n <= GMTRR_VCNT && FirstHolds(c, i, a)
    ensures FirstNamed(HitTypes(c, n, a)) == c.ranges[i].kind
  {
    var l := n - 1;
    HoldsIsHit(c, l, a);
    FirstNamedAppend(HitTypes(c, l, a), c.ranges[l].kind);
    if i < l {
      FirstIs(c, l, i, a);
    } else {
      NoneNamed(c, l, a);
    }
  }

  /** Where no range that holds a has a valid type, none is named. */
  lemma NoneNamed(c: CacheRegs, n: nat, a: u64)
    requires RegsOk(c) && n <= GMTRR_VCNT
    requires forall j :: 0 <= j < n && Holds(c.ranges[j], a) ==> c.ranges[j].kind == CACHE_TYPE_UC_MINUS
    ensures FirstNamed(HitTypes(c, n, a)) == CACHE_TYPE_UC_MINUS
  {
    var t := FirstNamed(HitTypes(c, n, a));
    FirstNamedIn(HitTypes(c, n, a));
    TypesHold(c, n, a, t);
  }

  /** The types of the ranges that hold a, combined: uncacheable wins, then write-through, then the first valid one. */
  lemma CombinedRules(c: CacheRegs, a: u64)
    requires RegsOk(c)
    ensures var t := Combined(HitTypes(c, GMTRR_VCNT, a));
      if SomeHolds(c, GMTRR_VCNT, a, 0) then t == 0
      else if SomeHolds(c, GMTRR_VCNT, a, 4) then t == 4
      else
        && (forall i :: 0 <= i < GMTRR_VCNT && FirstHolds(c, i, a) ==> t == c.ranges[i].kind)
        && (AllInvalid(c, a) ==> t == CACHE_TYPE_UC_MINUS)
  {
    TypesHold(c, GMTRR_VCNT, a, 0);
    TypesHold(c, GMTRR_VCNT, a, 4);
    forall i | 0 <= i < GMTRR_VCNT && FirstHolds(c, i, a)
      ensures FirstNamed(HitTypes(c, GMTRR_VCNT, a)) == c.ranges[i].kind
    {
      FirstIs(c, GMTRR_VCNT, i, a);
    }
    if AllInvalid(c, a) {
      NoneNamed(c, GMTRR_VCNT, a);
    }
  }

  /** No range holds a, but for those with the type 7, which is not valid. */
  ghost predicate AllInvalid(c: CacheRegs, a: u64)
    requires RegsOk(c)
  {
    forall j :: 0 <= j < GMTRR_VCNT && Holds(c.ranges[j], a) ==> c.ranges[j].kind == 7
  }

  lemma FixedRules(c: CacheRegs, a: u64, passFix: bool)
    requires RegsOk(c) && c.e && c.fe && a < 0x10_0000
    ensures if passFix then MemoryType(c, a, true) == 6
            else exists k :: FixedHolds(k, a) && MemoryType(c, a, false) == c.fix(k)
  {
    IndexHolds(a);
  }

  /** The rules for the type of an address outside the fixed ranges, register by register. */
  lemma TypeRules(c: CacheRegs, a: u64, passFix: bool)
    requires RegsOk(c) && !(c.fe && a < 0x10_0000)
    ensures var t := MemoryType(c, a, passFix);
      if !c.e then t == 0
      else if SomeHolds(c, GMTRR_VCNT, a, 0) then t == 0
      else if SomeHolds(c, GMTRR_VCNT, a, 4) then t == 4
      else
        && (forall i :: 0 <= i < GMTRR_VCNT && FirstHolds(c, i, a) ==> t == c.ranges[i].kind)
        && (AllInvalid(c, a) ==>
              t == if Above4G(a) && c.forceWB && Below(a, c.topMem2) then 6 else c.kind)
  {
    CombinedRules(c, a);
  }

  /** The block of phys has an address below 1 MiB. */
  ghost predicate Touches1M(phys: u64, physmask: u64) {
    exists a :: InBlock(a, phys, physmask) && a < 0x10_0000
  }

  lemma Near1M(phys: u64, physmask: u64)
    requires LowMask(physmask)
    ensures phys <= 0xFFFFF || phys <= physmask <==> Touches1M(phys, physmask)
  {
    StartOfBlock(phys, physmask);
    if phys <= 0xFFFFF {
      assert InBlock(phys, phys, physmask);
    }
    if a :| InBlock(a, phys, physmask) && a < 0x10_0000 {
      NearStart(a, phys, physmask);
    }
  }

  lemma StartOfBlock(phys: u64, physmask: u64)
    requires LowMask(physmask)
    ensures var start := phys & !physmask;
      InBlock(start, phys, physmask) && (phys <= physmask ==> start < 0x10_0000)
  {
  }

  lemma NearStart(a: u64, phys: u64, physmask: u64)
    requires LowMask(physmask) && InBlock(a, phys, physmask) && a < 0x10_0000
    ensures phys <= 0xFFFFF || phys <= physmask
  {
  }

  /** None of the first n ranges holds the block of phys only in part. */
  ghost predicate NonePartly(c: CacheRegs, n: nat, phys: u64, physmask: u64)
    requires RegsOk(c) && n <= GMTRR_VCNT
  {
    forall j :: 0 <= j < n ==> !PartlyHeld(c, j, phys, physmask)
  }

  /** Some range is uncacheable and holds the whole block, and no range up to it holds it only in part. */
  ghost predicate UncacheableAll(c: CacheRegs, phys: u64, physmask: u64)
    requires RegsOk(c)
  {
    exists i :: 0 <= i < GMTRR_VCNT && c.ranges[i].kind == 0 && HoldsAll(c, i, phys, physmask)
                && NonePartly(c, i + 1, phys, physmask)
  }

  ghost predicate HoldsAll(c: CacheRegs, i: nat, phys: u64, physmask: u64)
    requires RegsOk(c) && i < GMTRR_VCNT
  {
    forall a :: InBlock(a, phys, physmask) ==> Hits(c, i, a)
  }

  lemma CutsAre(c: CacheRegs, i: nat, phys: u64, physmask: u64, width: u64)
    requires RegsOk(c) && i < GMTRR_VCNT && Within(phys, width) && Within(physmask, width) && AllFit(c, physmask, width)
    ensures Cuts(c, i, phys, physmask) <==> PartlyHeld(c, i, phys, physmask)
    ensures !Cuts(c, i, phys, physmask) ==> (Hits(c, i, phys) <==> HoldsAll(c, i, phys, physmask))
  {
    if c.ranges[i].valid {
      CutsExactly(c, i, phys, physmask, width);
    }
    assert InBlock(phys, phys, physmask);
    if !Cuts(c, i, phys, physmask) && Hits(c, i, phys) {
      forall a | InBlock(a, phys, physmask) ensures Hits(c, i, a) {
        HitAll(c, i, a, phys, physmask);
      }
    }
  }

  lemma UncacheableIs(c: CacheRegs, phys: u64, physmask: u64, width: u64)
    requires RegsOk(c) && Within(phys, width) && Within(physmask, width) && AllFit(c, physmask, width)
    ensures UncacheableAll(c, phys, physmask) <==>
      exists i :: 0 <= i < GMTRR_VCNT && UncacheableBlock(c, i, phys, physmask)
  {
    forall i | 0 <= i < GMTRR_VCNT
      ensures Cuts(c, i, phys, physmask) <==> PartlyHeld(c, i, phys, physmask)
      ensures !Cuts(c, i, phys, physmask) ==> (Hits(c, i, phys) <==> HoldsAll(c, i, phys, physmask))
    {
      CutsAre(c, i, phys, physmask, width);
    }
    if i :| 0 <= i < GMTRR_VCNT && UncacheableBlock(c, i, phys, physmask) {
      assert NonePartly(c, i + 1, phys, physmask);
    }
    if i :| 0 <= i < GMTRR_VCNT && c.ranges[i].kind == 0 && HoldsAll(c, i, phys, physmask)
            && NonePartly(c, i + 1, phys, physmask) {
      assert UncacheableBlock(c, i, phys, physmask);
    }
  }

  /** What the answer means, for masks that fit: the MTRRs are on, the block is clear of the fixed ranges, and either an
      uncacheable range holds all of it before any range holds a part, or no range holds a part and, where no range
      decides, write-back is not forced at its start only. */
  lemma AnswerMeans(c: CacheRegs, phys: u64, physmask: u64, width: u64)
    requires RegsOk(c) && BlockOk(physmask, width) && Within(phys, width) && AllFit(c, physmask, width)
    ensures Equal(c, phys, physmask) <==>
      && c.e && !(c.fe && Touches1M(phys, physmask))
      && (|| UncacheableAll(c, phys, physmask)
          || (NonePartly(c, GMTRR_VCNT, phys, physmask) && !ForcedAtStart(c, phys, physmask)))
  {
    LowMaskBits(physmask, width);
    NearIs(c, phys, physmask);
    UncacheableIs(c, phys, physmask, width);
    EndsAlikeIs(c, phys, physmask);
    NoCuts(c, phys, physmask, width);
  }

  lemma NearIs(c: CacheRegs, phys: u64, physmask: u64)
    requires LowMask(physmask)
    ensures NearFixed(c, phys, physmask) <==> c.fe && Touches1M(phys, physmask)
  {
    Near1M(phys, physmask);
  }

  lemma NoCuts(c: CacheRegs, phys: u64, physmask: u64, width: u64)
    requires RegsOk(c) && Within(phys, width) && Within(physmask, width) && AllFit(c, physmask, width)
    ensures (forall j :: 0 <= j < GMTRR_VCNT ==> !Cuts(c, j, phys, physmask)) <==>
      NonePartly(c, GMTRR_VCNT, phys, physmask)
  {
    forall j | 0 <= j < GMTRR_VCNT ensures Cuts(c, j, phys, physmask) <==> PartlyHeld(c, j, phys, physmask) {
      CutsAre(c, j, phys, physmask, width);
    }
  }

  /** No range decides the type, and write-back is forced at phys but not at the end of the block. */
  ghost predicate ForcedAtStart(c: CacheRegs, phys: u64, physmask: u64)
    requires RegsOk(c)
  {
    && Combined(HitTypes(c, GMTRR_VCNT, phys)) == CACHE_TYPE_UC_MINUS
    && ForcedWB(c, phys) && !ForcedWB(c, phys | physmask)
  }

  lemma EndsAlikeIs(c: CacheRegs, phys: u64, physmask: u64)
    requires RegsOk(c)
    ensures EndsAlike(c, phys, physmask) <==> !ForcedAtStart(c, phys, physmask)
  {
    LastForced(c, phys, physmask);
  }

  /** Where write-back is forced at phys, it is at the end of the block iff that is below TOP_MEM2. */
  lemma LastForced(c: CacheRegs, phys: u64, physmask: u64)
    ensures ForcedWB(c, phys) ==> (ForcedWB(c, phys | physmask) <==> Below(phys | physmask, c.topMem2))
  {
    LastAbove(phys, physmask);
  }

  lemma LastAbove(phys: u64, physmask: u64)
    ensures Above4G(phys) ==> Above4G(phys | physmask)
  {
  }
}
