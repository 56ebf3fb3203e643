/** Table entries as the words they are in memory, and the reserved bits of core/cpu_mmu.c as masks. */
module EntryBits {
  import opened Powers
  import opened PageTables
  import opened GuestWalk

  function Bit(b: bool): (n: nat)
    ensures n < 2
  {
    if b then 1 else 0
  }

  /** The fields have the widths of the format: 32 bits for two levels, otherwise 64. */
  predicate Fits(s: Space, e: Entry) {
    && e.attr < 32
    && if s.levels == 2 then e.addr < 0x10_0000 && e.avl == 0 && !e.nx else e.addr < 0x100_0000_0000 && e.avl < 0x800
  }

  /** Bits 0 to 11: P, RW, US, PWT and PCD, A, D, PS (or PAT), G, and three available bits. */
  function LowBits(e: Entry): nat {
    Bit(e.p) + 2 * Bit(e.rw) + 4 * Bit(e.us) + 8 * (e.attr % 4) + 0x20 * Bit(e.a) + 0x40 * Bit(e.d) + 0x80 * Bit(e.ps)
    + 0x100 * Bit(e.g) + 0x200 * (e.attr / 4)
  }

  /** Bits 12 to 63: the address, the bits above it, and NX. */
  function HighBits(e: Entry): nat {
    e.addr + 0x100_0000_0000 * (e.avl + 0x800 * Bit(e.nx))
  }

  function Word(e: Entry): nat {
    LowBits(e) + 0x1000 * HighBits(e)
  }

  /** The bitwise and of two words. */
  function And(x: nat, y: nat): nat {
    if x == 0 || y == 0 then 0
    else (if x % 2 == 1 && y % 2 == 1 then 1 else 0) + 2 * And(x / 2, y / 2)
  }

  /** The row of reserved_bit_table for an entry of level l, counting from 0. */
  function Row(s: Space, e: Entry, l: nat): nat {
    if l == 1 && e.ps then 0 else if s.levels == 4 && l == 2 && e.ps then 5 else l + 1
  }

  /** The rows of reserved_bit_table that are used, for a 36-bit physical address width. */
  function ReservedMask(nxe: bool, levels: nat, row: nat): nat {
    if levels == 2 then
      if row == 0 then 0x20_0000 else 0
    else if levels == 3 then
      if row == 0 then (if nxe then 0x7FFF_FFF0_001F_E000 else 0xFFFF_FFF0_001F_E000)
      else if row == 3 then 0xFFFF_FFF0_0000_01E6
      else (if nxe then 0x7FFF_FFF0_0000_0000 else 0xFFFF_FFF0_0000_0000)
    else (
      if row == 0 then (if nxe then 0x000F_FFF0_001F_E000 else 0x800F_FFF0_001F_E000)
      else if row == 3 then (if nxe then 0x000F_FFF0_0000_0100 else 0x800F_FFF0_0000_0100)
      else if row == 4 then (if nxe then 0x000F_FFF0_0000_0180 else 0x800F_FFF0_0000_0180)
      else if row == 5 then (if nxe then 0x000F_FFF0_3FFF_E000 else 0x800F_FFF0_3FFF_E000)
      else (if nxe then 0x000F_FFF0_0000_0000 else 0x800F_FFF0_0000_0000))
  }

  lemma Widths()
    ensures Pow2(1) == 2 && Pow2(2) == 4 && Pow2(4) == 0x10 && Pow2(5) == 0x20 && Pow2(7) == 0x80 && Pow2(8) == 0x100
    ensures Pow2(11) == 0x800 && Pow2(13) == 0x2000 && Pow2(15) == 0x8000 && Pow2(16) == 0x1_0000
    ensures Pow2(17) == 0x2_0000 && Pow2(27) == 0x800_0000 && Pow2(28) == 0x1000_0000 && Pow2(36) == 0x10_0000_0000
  {
    assert Pow2(13) == 0x2000 && Pow2(17) == 0x2_0000 && Pow2(28) == 0x1000_0000;
  }

  lemma HalfMod(x: nat, p: nat)
    requires p > 0
    ensures x % (2 * p) == x % 2 + 2 * (x / 2 % p) && x / (2 * p) == x / 2 / p
  {
    var q, r := x / 2 / p, x / 2 % p;
    DivMod(x / 2, p);
    assert q * (2 * p) == 2 * (q * p);
    DivUnique(x, 2 * p, q, 2 * r + x % 2);
  }

  lemma AndHalves(x: nat, y: nat)
    ensures And(x, y) == (if x % 2 == 1 && y % 2 == 1 then 1 else 0) + 2 * And(x / 2, y / 2)
  {
  }

  lemma {:induction false} AndOnes(x: nat, w: nat)
    ensures And(x, Pow2(w) - 1) == x % Pow2(w)
  {
    if w > 0 {
      AndOnes(x / 2, w - 1);
      HalfMod(x, Pow2(w - 1));
    }
  }

  lemma Halved(y: nat, a: nat, p: nat, b: nat)
    requires y == a + 2 * p * b
    ensures y % 2 == a % 2 && y / 2 == a / 2 + p * b
  {
    assert 2 * p * b == 2 * (p * b);
  }

  /** The bits of a mask y below bit k, and those from bit k up. */
  lemma {:induction false} AndSplit(x: nat, y: nat, a: nat, b: nat, k: nat, p: nat, high: nat)
    requires p == Pow2(k) && a < p && y == a + p * b && high == x / p
    ensures And(x, y) != 0 <==> And(x, a) != 0 || And(high, b) != 0
  {
    if k > 0 {
      Halved(y, a, Pow2(k - 1), b);
      HalfMod(x, Pow2(k - 1));
      AndSplit(x / 2, y / 2, a / 2, b, k - 1, Pow2(k - 1), high);
      AndHalves(x, y);
      AndHalves(x, a);
    }
  }

  /** A mask that is one run of bits. */
  lemma OneRun(x: nat, mask: nat, k: nat, p: nat, n: nat, q: nat)
    requires p == Pow2(k) && q == Pow2(n) && mask == p * (q - 1)
    ensures And(x, mask) != 0 <==> x / p % q != 0
  {
    AndSplit(x, mask, 0, q - 1, k, p, x / p);
    AndOnes(x / p, n);
  }

  /** The masks below bit 36, by the fields that they look at. */
  lemma LowMasks(e: Entry)
    requires e.attr < 32
    ensures var x := Word(e);
      && (And(x, 0x20_0000) != 0 <==> e.addr / 512 % 2 == 1)
      && (And(x, 0x1F_E000) != 0 <==> e.addr / 2 % 256 != 0)
      && (And(x, 0x3FFF_E000) != 0 <==> e.addr / 2 % 0x2_0000 != 0)
      && (And(x, 0x100) != 0 <==> e.g)
      && (And(x, 0x180) != 0 <==> e.ps || e.g)
      && (And(x, 0x1E6) != 0 <==> e.rw || e.us || e.a || e.d || e.ps || e.g)
  {
    var x := Word(e);
    Widths();
    AddressFields(e);
    FlagFields(e);
    OneRun(x, 0x20_0000, 21, 0x20_0000, 1, 2);
    OneRun(x, 0x1F_E000, 13, 0x2000, 8, 0x100);
    OneRun(x, 0x3FFF_E000, 13, 0x2000, 17, 0x2_0000);
    OneRun(x, 0x100, 8, 0x100, 1, 2);
    OneRun(x, 0x180, 7, 0x80, 2, 4);
    OneRun(x, 6, 1, 2, 2, 4);
    OneRun(x / 0x20, 0xF, 0, 1, 4, 0x10);
    AndSplit(x, 0x1E6, 6, 0xF, 5, 0x20, x / 0x20);
  }

  lemma Above12(x: nat, low: nat, high: nat)
    requires low < 0x1000 && x == low + 0x1000 * high
    ensures x / 0x1000 == high && x / 0x2000 == high / 2 && x / 0x20_0000 == high / 512
    ensures x / 0x10_0000_0000 == high / 0x100_0000
  {
  }

  lemma AddressFields(e: Entry)
    requires e.attr < 32
    ensures var x := Word(e);
      && x / 0x20_0000 % 2 == e.addr / 512 % 2
      && x / 0x2000 % 0x100 == e.addr / 2 % 0x100
      && x / 0x2000 % 0x2_0000 == e.addr / 2 % 0x2_0000
  {
    Above12(Word(e), LowBits(e), HighBits(e));
    LowAddress(e.addr, e.avl + 0x800 * Bit(e.nx));
  }

  lemma LowAddress(addr: nat, above: nat)
    ensures var high := addr + 0x100_0000_0000 * above;
      && high / 512 % 2 == addr / 512 % 2
      && high / 2 % 0x100 == addr / 2 % 0x100
      && high / 2 % 0x2_0000 == addr / 2 % 0x2_0000
  {
    var high := addr + 0x100_0000_0000 * above;
    ModAdd(addr, 2, 512, 0x4000_0000 * above, high);
    ModAdd(addr, 0x100, 2, 0x8000_0000 * above, high);
    ModAdd(addr, 0x2_0000, 2, 0x40_0000 * above, high);
  }

  lemma ModAdd(a: nat, m: nat, n: nat, k: nat, x: nat)
    requires m > 0 && n > 0 && x == a + n * (m * k)
    ensures x / n % m == a / n % m
  {
    DivMod(a, n);
    MulAdd(a / n, m * k, n);
    DivUnique(x, n, a / n + m * k, a % n);
    DivMod(a / n, m);
    MulAdd(a / n / m, k, m);
    DivUnique(a / n + m * k, m, a / n / m + k, a / n % m);
  }

  /** x has b below a bit with value n, and y from there up. */
  lemma Peel(x: nat, b: nat, n: nat, y: nat)
    requires b < n && x == b + n * y
    ensures x / n == y && x % n == b
  {
    DivUnique(x, n, y, b);
  }

  lemma FlagFields(e: Entry)
    requires e.attr < 32
    ensures var x := Word(e);
      && x / 0x100 % 2 == Bit(e.g)
      && x / 0x80 % 4 == Bit(e.ps) + 2 * Bit(e.g)
      && x / 2 % 4 == Bit(e.rw) + 2 * Bit(e.us)
      && x / 0x20 % 0x10 == Bit(e.a) + 2 * Bit(e.d) + 4 * Bit(e.ps) + 8 * Bit(e.g)
  {
    FlagDigits(Bit(e.p), Bit(e.rw), Bit(e.us), e.attr % 4, Bit(e.a), Bit(e.d), Bit(e.ps), Bit(e.g),
               e.attr / 4 + 8 * HighBits(e), Word(e));
  }

  lemma FlagDigits(p: nat, rw: nat, us: nat, c: nat, a: nat, d: nat, ps: nat, g: nat, rest: nat, x: nat)
    requires p < 2 && rw < 2 && us < 2 && c < 4 && a < 2 && d < 2 && ps < 2 && g < 2
    requires x == p + 2 * rw + 4 * us + 8 * c + 0x20 * a + 0x40 * d + 0x80 * ps + 0x100 * g + 0x200 * rest
    ensures x / 0x100 % 2 == g && x / 0x80 % 4 == ps + 2 * g && x / 2 % 4 == rw + 2 * us
    ensures x / 0x20 % 0x10 == a + 2 * d + 4 * ps + 8 * g
  {
    var low := p + 2 * rw + 4 * us + 8 * c;
    var top := ps + 2 * g + 4 * rest;
    Peel(x, low + 0x20 * a + 0x40 * d, 0x80, top);
    Peel(top, ps + 2 * g, 4, rest);
    Peel(x, low + 0x20 * a + 0x40 * d + 0x80 * ps, 0x100, g + 2 * rest);
    Peel(g + 2 * rest, g, 2, rest);
    Peel(x, low, 0x20, a + 2 * d + 4 * top);
    Peel(a + 2 * d + 4 * top, a + 2 * d + 4 * ps + 8 * g, 0x10, rest);
    Peel(x, p, 2, rw + 2 * us + 4 * (c + 4 * (a + 2 * d + 4 * top)));
    Peel(rw + 2 * us + 4 * (c + 4 * (a + 2 * d + 4 * top)), rw + 2 * us, 4, c + 4 * (a + 2 * d + 4 * top));
  }

  lemma HighFields(addr: nat, above: nat, y: nat)
    requires addr < 0x100_0000_0000 && y == (addr + 0x100_0000_0000 * above) / 0x100_0000
    ensures y == addr / 0x100_0000 + 0x1_0000 * above && addr / 0x100_0000 < 0x1_0000
  {
  }

  lemma HighRuns(h: nat, avl: nat, nx: nat, y: nat)
    requires h < 0x1_0000 && avl < 0x800 && nx < 2 && y == h + 0x1_0000 * (avl + 0x800 * nx)
    ensures And(y, 0xFFF_FFFF) != 0 <==> h != 0 || avl != 0 || nx != 0
    ensures And(y, 0x7FF_FFFF) != 0 <==> h != 0 || avl != 0
    ensures And(y, 0xFFFF) != 0 <==> h != 0
    ensures And(y, 0x800_FFFF) != 0 <==> h != 0 || nx != 0
  {
    Widths();
    Peel(y, h + 0x1_0000 * avl, 0x800_0000, nx);
    Peel(y, h, 0x1_0000, avl + 0x800 * nx);
    AndBelow(y, 28, 0x1000_0000);
    AndBelow(y, 27, 0x800_0000);
    AndBelow(y, 16, 0x1_0000);
    AndBelow(nx, 1, 2);
    AndSplit(y, 0x800_FFFF, 0xFFFF, 1, 27, 0x800_0000, nx);
    RunsBelow(h, avl, nx, y);
  }

  lemma AndBelow(y: nat, n: nat, q: nat)
    requires q == Pow2(n)
    ensures And(y, q - 1) == y % q
  {
    AndOnes(y, n);
  }

  lemma RunsBelow(h: nat, avl: nat, nx: nat, y: nat)
    requires h < 0x1_0000 && avl < 0x800 && nx < 2 && y == h + 0x1_0000 * avl + 0x800_0000 * nx
    ensures y % 0x1000_0000 == y
  {
  }

  /** The masks from bit 36 up. */
  lemma HighMasks(e: Entry, y: nat)
    requires e.addr < 0x100_0000_0000 && e.avl < 0x800 && y == HighBits(e) / 0x100_0000
    ensures And(y, 0xFFF_FFFF) != 0 <==> e.addr >= 0x100_0000 || e.avl != 0 || e.nx
    ensures And(y, 0x7FF_FFFF) != 0 <==> e.addr >= 0x100_0000 || e.avl != 0
    ensures And(y, 0xFFFF) != 0 <==> e.addr >= 0x100_0000
    ensures And(y, 0x800_FFFF) != 0 <==> e.addr >= 0x100_0000 || e.nx
  {
    HighFields(e.addr, e.avl + 0x800 * Bit(e.nx), y);
    HighRuns(e.addr / 0x100_0000, e.avl, Bit(e.nx), y);
  }

  /** A mask is two parts, below bit 36 and from there up. */
  lemma MaskParts(e: Entry, mask: nat, low: nat, high: nat)
    requires e.attr < 32 && low < 0x10_0000_0000 && mask == low + 0x10_0000_0000 * high
    ensures And(Word(e), mask) != 0 <==> And(Word(e), low) != 0 || And(HighBits(e) / 0x100_0000, high) != 0
  {
    Widths();
    Above12(Word(e), LowBits(e), HighBits(e));
    AndSplit(Word(e), mask, low, high, 36, 0x10_0000_0000, HighBits(e) / 0x100_0000);
  }

  lemma TwoLevels(s: Space, d: Access, e: Entry, l: nat)
    requires s.levels == 2 && l < 2 && Fits(s, e)
    ensures Reserved(s, d, e, l) <==> And(Word(e), ReservedMask(d.nxe, 2, Row(s, e, l))) != 0
  {
    LowMasks(e);
  }

  lemma ThreeLevels(s: Space, d: Access, e: Entry, l: nat)
    requires s.levels == 3 && l < 3 && Fits(s, e)
    ensures Reserved(s, d, e, l) <==> And(Word(e), ReservedMask(d.nxe, 3, Row(s, e, l))) != 0
  {
    var low := if l == 2 then 0x1E6 else if l == 1 && e.ps then 0x1F_E000 else 0;
    MaskParts(e, ReservedMask(d.nxe, 3, Row(s, e, l)), low, if d.nxe && l != 2 then 0x7FF_FFFF else 0xFFF_FFFF);
    LowMasks(e);
    HighMasks(e, HighBits(e) / 0x100_0000);
  }

  lemma FourLevels(s: Space, d: Access, e: Entry, l: nat)
    requires s.levels == 4 && l < 4 && Fits(s, e)
    ensures Reserved(s, d, e, l) <==> And(Word(e), ReservedMask(d.nxe, 4, Row(s, e, l))) != 0
  {
    var low := if l == 3 then 0x180
               else if l == 2 then (if e.ps then 0x3FFF_E000 else 0x100)
               else if l == 1 && e.ps then 0x1F_E000
               else 0;
    MaskParts(e, ReservedMask(d.nxe, 4, Row(s, e, l)), low, if d.nxe then 0xFFFF else 0x800_FFFF);
    LowMasks(e);
    HighMasks(e, HighBits(e) / 0x100_0000);
  }

  /** The checks of the model are those of test_pmap_entry_reserved_bit: some bit of the row of the table is set. */
  lemma ReservedBits(s: Space, d: Access, e: Entry, l: nat)
    requires SpaceOk(s) && l < s.levels && Fits(s, e)
    ensures Reserved(s, d, e, l) <==> And(Word(e), ReservedMask(d.nxe, s.levels, Row(s, e, l))) != 0
  {
    if s.levels == 2 {
      TwoLevels(s, d, e, l);
    } else if s.levels == 3 {
      ThreeLevels(s, d, e, l);
    } else {
      FourLevels(s, d, e, l);
    }
  }
}
