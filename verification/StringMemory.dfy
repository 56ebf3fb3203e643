/** What MOVS and STOS with a repeat prefix do to the bytes of guest memory (core/cpu_interpreter.c). */
module StringMemory {
  import opened Powers
  import opened StringOps

  newtype Octet = x: int | 0 <= x < 0x100

  /** Guest memory by linear address. */
  type Bytes = int -> Octet

  /** Byte i of a value, the lowest first. */
  function ByteOf(x: int, i: nat): Octet
    decreases i
  {
    if i == 0 then (x % 0x100) as Octet else ByteOf(x / 0x100, i - 1)
  }

  /** The value of n bytes from address a on. */
  function Little(m: Bytes, a: int, n: nat): int
    decreases n
  {
    if n == 0 then 0 else m(a) as int + 0x100 * Little(m, a + 1, n - 1)
  }

  /** LGUESTSEG_READ and LGUESTSEG_WRITE: bytes at the offset from the base of a segment. */
  function Flat(base: Segment -> int): Bus<Bytes> {
    Bus((m: Bytes, seg: Segment, off: Reg, len: nat) => Little(m, base(seg) + off, len),
        (m: Bytes, seg: Segment, off: Reg, len: nat, x: int) =>
          a => if 0 <= a - (base(seg) + off) < len then ByteOf(x, a - (base(seg) + off)) else m(a))
  }

  lemma {:induction false} LittleByte(m: Bytes, a: int, n: nat, i: nat)
    requires i < n
    ensures ByteOf(Little(m, a, n), i) == m(a + i)
    decreases n
  {
    if i > 0 {
      LittleByte(m, a + 1, n - 1, i - 1);
    }
  }

  /** The address of element k, in the order of the iterations, from register r behind segment seg: the offset moves by
      one operand a time, down if DF is set, and wraps around in its width. */
  function Element(base: Segment -> int, op: Op, w: Width, seg: Segment, r: Reg, k: nat): int {
    var x := if op.df then r - k * op.len else r + k * op.len;
    base(seg) + match w
                case W16 => x % 0x1_0000
                case W32 => x % 0x1_0000_0000
                case W64 => x % 0x1_0000_0000_0000_0000
  }

  lemma ElementAt(base: Segment -> int, op: Op, w: Width, seg: Segment, r: Reg, k: nat, s: Reg)
    requires Added(w, r, if op.df then 0 - k * op.len else k * op.len, s)
    ensures base(seg) + Low(w, s) == Element(base, op, w, seg, r, k)
  {
  }

  /** The store of one iteration. */
  lemma OneStores(base: Segment -> int, op: Op, d: Cpu<Bytes>, a: int)
    ensures var i := a - (base(ES) + op.addrtype.low(d.rdi));
      One(Flat(base), op, d).mem(a) ==
        if !(0 <= i < op.len) then d.mem(a)
        else if op.movs then d.mem(base(op.seg) + op.addrtype.low(d.rsi) + i)
        else ByteOf(d.rax, i)
  {
    var i := a - (base(ES) + op.addrtype.low(d.rdi));
    if op.movs && 0 <= i < op.len {
      LittleByte(d.mem, base(op.seg) + op.addrtype.low(d.rsi), op.len, i);
    }
  }

  /** Iteration n stores one element, a copy of the source element as it is then or bytes of RAX, and nothing else. */
  lemma NextElement(base: Segment -> int, op: Op, w: Width, n: nat, c: Cpu<Bytes>, a: int)
    requires op.addrtype == PartOf(w)
    ensures var m, m' := Times(Flat(base), op, n, c).mem, Times(Flat(base), op, n + 1, c).mem;
      var i := a - Element(base, op, w, ES, c.rdi, n);
      m'(a) == if !(0 <= i < op.len) then m(a)
               else if op.movs then m(Element(base, op, w, op.seg, c.rsi, n) + i)
               else ByteOf(c.rax, i)
  {
    var d := Times(Flat(base), op, n, c);
    RegistersAfter(Flat(base), op, w, n, c);
    RaxKept(Flat(base), op, n, c);
    OneStores(base, op, d, a);
    ElementAt(base, op, w, ES, c.rdi, n, d.rdi);
    if op.movs {
      ElementAt(base, op, w, op.seg, c.rsi, n, d.rsi);
    }
  }

  lemma {:induction false} RaxKept<M>(bus: Bus<M>, op: Op, n: nat, c: Cpu<M>)
    ensures Times(bus, op, n, c).rax == c.rax
  {
    if n > 0 {
      RaxKept(bus, op, n - 1, c);
    }
  }

  /** Address a lies in the element at x. */
  predicate Inside(op: Op, x: int, a: int) {
    x <= a < x + op.len
  }

  /** No two destination elements overlap, and no source element overlaps a destination element stored before it is
      read. */
  ghost predicate Apart(base: Segment -> int, op: Op, w: Width, n: nat, c: Cpu<Bytes>) {
    && (forall j, k :: 0 <= j < k < n ==> Separate(op, DestAt(base, op, w, c, j), DestAt(base, op, w, c, k)))
    && (op.movs ==>
          forall j, k :: 0 <= j < k < n ==> Separate(op, DestAt(base, op, w, c, j), SourceAt(base, op, w, c, k)))
  }

  function DestAt(base: Segment -> int, op: Op, w: Width, c: Cpu<Bytes>, k: nat): int {
    Element(base, op, w, ES, c.rdi, k)
  }

  function SourceAt(base: Segment -> int, op: Op, w: Width, c: Cpu<Bytes>, k: nat): int {
    Element(base, op, w, op.seg, c.rsi, k)
  }

  predicate Separate(op: Op, x: int, y: int) {
    x + op.len <= y || y + op.len <= x
  }

  /** Element k of the destination is in m as the source is in the memory of c, or holds the bytes of RAX. */
  ghost predicate Filled(base: Segment -> int, op: Op, w: Width, c: Cpu<Bytes>, m: Bytes, k: nat) {
    forall i :: 0 <= i < op.len ==> FilledAt(base, op, w, c, m, k, i)
  }

  predicate FilledAt(base: Segment -> int, op: Op, w: Width, c: Cpu<Bytes>, m: Bytes, k: nat, i: nat) {
    m(DestAt(base, op, w, c, k) + i) == if op.movs then c.mem(SourceAt(base, op, w, c, k) + i) else ByteOf(c.rax, i)
  }

  /** Nothing but n destination elements has changed. */
  ghost predicate Unchanged(base: Segment -> int, op: Op, w: Width, c: Cpu<Bytes>, m: Bytes, n: nat) {
    forall a :: (forall k :: 0 <= k < n ==> !Inside(op, DestAt(base, op, w, c, k), a)) ==> m(a) == c.mem(a)
  }

  /** After n iterations only the destination elements have changed. */
  lemma {:induction false} OnlyElements(base: Segment -> int, op: Op, w: Width, n: nat, c: Cpu<Bytes>)
    requires op.addrtype == PartOf(w)
    ensures Unchanged(base, op, w, c, Times(Flat(base), op, n, c).mem, n)
  {
    if n > 0 {
      var l, m := n - 1, Times(Flat(base), op, n, c).mem;
      OnlyElements(base, op, w, l, c);
      forall a | forall k :: 0 <= k < n ==> !Inside(op, DestAt(base, op, w, c, k), a) ensures m(a) == c.mem(a) {
        assert !Inside(op, DestAt(base, op, w, c, l), a);
        Elsewhere(base, op, w, l, n, c, a);
      }
    }
  }

  lemma Elsewhere(base: Segment -> int, op: Op, w: Width, l: nat, n: nat, c: Cpu<Bytes>, a: int)
    requires op.addrtype == PartOf(w) && n == l + 1 && !Inside(op, DestAt(base, op, w, c, l), a)
    ensures Times(Flat(base), op, n, c).mem(a) == Times(Flat(base), op, l, c).mem(a)
  {
    NextElement(base, op, w, l, c, a);
  }

  lemma ApartLess(base: Segment -> int, op: Op, w: Width, n: nat, c: Cpu<Bytes>, m: nat)
    requires Apart(base, op, w, n, c) && m <= n
    ensures Apart(base, op, w, m, c)
  {
  }

  /** When they do not overlap, element k of the destination is element k of the source for MOVS, and RAX for STOS. */
  lemma {:induction false} ElementsFilled(base: Segment -> int, op: Op, w: Width, n: nat, c: Cpu<Bytes>, k: nat)
    requires op.addrtype == PartOf(w) && Apart(base, op, w, n, c) && k < n
    ensures Filled(base, op, w, c, Times(Flat(base), op, n, c).mem, k)
    decreases n
  {
    var l := n - 1;
    ApartLess(base, op, w, n, c, l);
    if k < l {
      ElementsFilled(base, op, w, l, c, k);
      ElementStays(base, op, w, l, n, c, k);
    } else {
      LastElement(base, op, w, l, n, c);
    }
  }

  lemma ElementStays(base: Segment -> int, op: Op, w: Width, l: nat, n: nat, c: Cpu<Bytes>, k: nat)
    requires op.addrtype == PartOf(w) && k < l && n == l + 1
    requires Separate(op, DestAt(base, op, w, c, k), DestAt(base, op, w, c, l))
    requires Filled(base, op, w, c, Times(Flat(base), op, l, c).mem, k)
    ensures Filled(base, op, w, c, Times(Flat(base), op, n, c).mem, k)
  {
    var m, m' := Times(Flat(base), op, l, c).mem, Times(Flat(base), op, n, c).mem;
    forall i | 0 <= i < op.len ensures FilledAt(base, op, w, c, m', k, i) {
      StaysAt(base, op, w, l, n, c, k, i);
    }
  }

  lemma StaysAt(base: Segment -> int, op: Op, w: Width, l: nat, n: nat, c: Cpu<Bytes>, k: nat, i: nat)
    requires op.addrtype == PartOf(w) && n == l + 1 && i < op.len
    requires Separate(op, DestAt(base, op, w, c, k), DestAt(base, op, w, c, l))
    requires FilledAt(base, op, w, c, Times(Flat(base), op, l, c).mem, k, i)
    ensures FilledAt(base, op, w, c, Times(Flat(base), op, n, c).mem, k, i)
  {
    Elsewhere(base, op, w, l, n, c, DestAt(base, op, w, c, k) + i);
  }

  lemma LastElement(base: Segment -> int, op: Op, w: Width, l: nat, n: nat, c: Cpu<Bytes>)
    requires op.addrtype == PartOf(w) && n == l + 1 && Apart(base, op, w, n, c)
    ensures Filled(base, op, w, c, Times(Flat(base), op, n, c).mem, l)
  {
    var m' := Times(Flat(base), op, n, c).mem;
    forall i | 0 <= i < op.len ensures FilledAt(base, op, w, c, m', l, i) {
      LastAt(base, op, w, l, n, c, i, SourceAt(base, op, w, c, l) + i);
    }
  }

  lemma LastAt(base: Segment -> int, op: Op, w: Width, l: nat, n: nat, c: Cpu<Bytes>, i: nat, a: int)
    requires op.addrtype == PartOf(w) && n == l + 1 && i < op.len && a == SourceAt(base, op, w, c, l) + i
    requires op.movs ==> BeforeStored(base, op, w, l, c)
    ensures FilledAt(base, op, w, c, Times(Flat(base), op, n, c).mem, l, i)
  {
    if op.movs {
      SourceKept(base, op, w, l, c, a);
    }
    StoredNow(base, op, w, l, n, c, i);
  }

  /** The elements stored so far do not overlap source element l. */
  ghost predicate BeforeStored(base: Segment -> int, op: Op, w: Width, l: nat, c: Cpu<Bytes>) {
    forall k :: 0 <= k < l ==> Separate(op, DestAt(base, op, w, c, k), SourceAt(base, op, w, c, l))
  }

  lemma StoredNow(base: Segment -> int, op: Op, w: Width, l: nat, n: nat, c: Cpu<Bytes>, i: nat)
    requires op.addrtype == PartOf(w) && n == l + 1 && i < op.len
    ensures Times(Flat(base), op, n, c).mem(DestAt(base, op, w, c, l) + i) ==
      if op.movs then Times(Flat(base), op, l, c).mem(SourceAt(base, op, w, c, l) + i) else ByteOf(c.rax, i)
  {
    NextElement(base, op, w, l, c, DestAt(base, op, w, c, l) + i);
  }

  lemma SourceKept(base: Segment -> int, op: Op, w: Width, l: nat, c: Cpu<Bytes>, a: int)
    requires op.addrtype == PartOf(w) && Inside(op, SourceAt(base, op, w, c, l), a)
    requires BeforeStored(base, op, w, l, c)
    ensures Times(Flat(base), op, l, c).mem(a) == c.mem(a)
  {
    OnlyElements(base, op, w, l, c);
    assert forall k :: 0 <= k < l ==> !Inside(op, DestAt(base, op, w, c, k), a);
  }

  /** The n elements from register r on, at offset low, do not wrap around: the lowest has offset lo. */
  predicate Straight(op: Op, w: Width, n: nat, r: Reg, lo: int) {
    && lo == (if op.df then Low(w, r) - (n - 1) * op.len else Low(w, r))
    && 0 <= lo && lo + n * op.len <= Size(w)
  }

  function Size(w: Width): nat {
    match w
    case W16 => 0x1_0000
    case W32 => 0x1_0000_0000
    case W64 => 0x1_0000_0000_0000_0000
  }

  lemma NoWrap(w: Width, r: Reg, x: int)
    requires 0 <= Low(w, r) + x < Size(w)
    ensures Wrap(w, r + x) == Low(w, r) + x
  {
    LowAdd(w, r, x);
  }

  lemma Spread(n: nat, k: nat, len: nat)
    requires k < n
    ensures (n - 1) * len - k * len == (n - 1 - k) * len && 0 <= k * len && k * len + len <= n * len
  {
    assert n * len == (n - 1 - k) * len + k * len + len;
  }

  /** Element k is the k-th from lo up, or from the other end if DF is set. */
  lemma StraightElement(base: Segment -> int, op: Op, w: Width, seg: Segment, r: Reg, n: nat, lo: int, k: nat)
    requires Straight(op, w, n, r, lo) && k < n && op.len > 0
    ensures Element(base, op, w, seg, r, k) == base(seg) + lo + (if op.df then n - 1 - k else k) * op.len
  {
    Spread(n, k, op.len);
    Spread(n, n - 1 - k, op.len);
    var x := if op.df then 0 - k * op.len else k * op.len;
    NoWrap(w, r, x);
    assert Element(base, op, w, seg, r, k) == base(seg) + Wrap(w, r + x);
  }

  /** n elements at x and at y: apart, or such that each source element is read before it is stored to. */
  predicate InOrder(op: Op, n: nat, dest: int, source: int) {
    || dest + n * op.len <= source || source + n * op.len <= dest
    || (if op.df then source <= dest else dest <= source)
  }

  lemma Between(n: nat, j: nat, k: nat, len: nat)
    requires j < k < n
    ensures j * len + len <= k * len && 0 <= j * len && k * len + len <= n * len
  {
    MulGap(j, k, len);
    MulGap(k, n, len);
  }

  lemma BlockApart(base: Segment -> int, op: Op, w: Width, n: nat, c: Cpu<Bytes>, dest: int, source: int)
    requires op.len > 0 && Straight(op, w, n, c.rdi, dest) && (op.movs ==> Straight(op, w, n, c.rsi, source))
    requires op.movs ==> InOrder(op, n, base(ES) + dest, base(op.seg) + source)
    ensures Apart(base, op, w, n, c)
  {
    forall j, k | 0 <= j < k < n ensures Separate(op, DestAt(base, op, w, c, j), DestAt(base, op, w, c, k)) {
      PairApart(base, op, w, n, c, dest, source, j, k);
    }
    forall j, k | op.movs && 0 <= j < k < n
      ensures Separate(op, DestAt(base, op, w, c, j), SourceAt(base, op, w, c, k))
    {
      PairApart(base, op, w, n, c, dest, source, j, k);
    }
  }

  lemma PairApart(base: Segment -> int, op: Op, w: Width, n: nat, c: Cpu<Bytes>, dest: int, source: int, j: nat, k: nat)
    requires op.len > 0 && Straight(op, w, n, c.rdi, dest) && (op.movs ==> Straight(op, w, n, c.rsi, source))
    requires op.movs ==> InOrder(op, n, base(ES) + dest, base(op.seg) + source)
    requires j < k < n
    ensures Separate(op, DestAt(base, op, w, c, j), DestAt(base, op, w, c, k))
    ensures op.movs ==> Separate(op, DestAt(base, op, w, c, j), SourceAt(base, op, w, c, k))
  {
    StraightElement(base, op, w, ES, c.rdi, n, dest, j);
    StraightElement(base, op, w, ES, c.rdi, n, dest, k);
    if op.df {
      Between(n, n - 1 - k, n - 1 - j, op.len);
    } else {
      Between(n, j, k, op.len);
    }
    if op.movs {
      StraightElement(base, op, w, op.seg, c.rsi, n, source, k);
    }
  }

  /** Byte x of n elements is byte i of element q from below. */
  lemma ByteIn(x: nat, n: nat, len: nat, q: nat, i: nat)
    requires x < n * len && len > 0 && q == x / len && i == x % len
    ensures q < n && x == q * len + i
  {
    DivMod(x, len);
    MulGap(n - 1, q, len);
    MulAdd(n - 1, 1, len);
  }

  /** Byte x of the block at dest in m' is byte x of the block at source in m, or of RAX. */
  predicate ByteDone(op: Op, m: Bytes, m': Bytes, dest: int, source: int, rax: int, x: nat)
    requires op.len > 0
  {
    m'(dest + x) == if op.movs then m(source + x) else ByteOf(rax, x % op.len)
  }

  /** The block is a copy of the source block, or filled with the bytes of RAX, ... */
  lemma BlockByte(base: Segment -> int, op: Op, w: Width, n: nat, c: Cpu<Bytes>, dest: int, source: int, x: nat)
    requires op.addrtype == PartOf(w) && op.len > 0 && Straight(op, w, n, c.rdi, dest) && Apart(base, op, w, n, c)
    requires (op.movs ==> Straight(op, w, n, c.rsi, source)) && x < n * op.len
    ensures ByteDone(op, c.mem, Times(Flat(base), op, n, c).mem, base(ES) + dest, base(op.seg) + source, c.rax, x)
  {
    var q, i := x / op.len, x % op.len;
    ByteIn(x, n, op.len, q, i);
    var k := if op.df then n - 1 - q else q;
    ElementsFilled(base, op, w, n, c, k);
    var m := Times(Flat(base), op, n, c).mem;
    assert FilledAt(base, op, w, c, m, k, i);
    ByteOfElement(base, op, w, n, c, m, dest, source, x, q, i, k);
  }

  lemma ByteOfElement(base: Segment -> int, op: Op, w: Width, n: nat, c: Cpu<Bytes>, m: Bytes, dest: int, source: int,
                      x: nat, q: nat, i: nat, k: nat)
    requires op.len > 0 && Straight(op, w, n, c.rdi, dest) && (op.movs ==> Straight(op, w, n, c.rsi, source))
    requires q < n && k == (if op.df then n - 1 - q else q) && x == q * op.len + i && i == x % op.len
    requires FilledAt(base, op, w, c, m, k, i)
    ensures ByteDone(op, c.mem, m, base(ES) + dest, base(op.seg) + source, c.rax, x)
  {
    StraightElement(base, op, w, ES, c.rdi, n, dest, k);
    if op.movs {
      StraightElement(base, op, w, op.seg, c.rsi, n, source, k);
    }
  }

  /** ... and no other byte has changed. */
  lemma BlockElsewhere(base: Segment -> int, op: Op, w: Width, n: nat, c: Cpu<Bytes>, dest: int, a: int)
    requires op.addrtype == PartOf(w) && op.len > 0 && Straight(op, w, n, c.rdi, dest)
    requires !(base(ES) + dest <= a < base(ES) + dest + n * op.len)
    ensures Times(Flat(base), op, n, c).mem(a) == c.mem(a)
  {
    OnlyElements(base, op, w, n, c);
    forall k | 0 <= k < n ensures !Inside(op, DestAt(base, op, w, c, k), a) {
      StraightElement(base, op, w, ES, c.rdi, n, dest, k);
      Spread(n, if op.df then n - 1 - k else k, op.len);
    }
  }

  /** Memory m' is m but for a block of n elements: a copy of the block at source in m, or filled with RAX. */
  ghost predicate BlockDone(op: Op, n: nat, m: Bytes, m': Bytes, dest: int, source: int, rax: int)
    requires op.len > 0
  {
    && (forall x :: 0 <= x < n * op.len ==> ByteDone(op, m, m', dest, source, rax, x))
    && forall a :: !(dest <= a < dest + n * op.len) ==> m'(a) == m(a)
  }

  lemma BlockIsDone(base: Segment -> int, op: Op, w: Width, n: nat, c: Cpu<Bytes>, dest: int, source: int)
    requires op.addrtype == PartOf(w) && op.len > 0 && Straight(op, w, n, c.rdi, dest)
    requires op.movs ==> Straight(op, w, n, c.rsi, source) && InOrder(op, n, base(ES) + dest, base(op.seg) + source)
    ensures BlockDone(op, n, c.mem, Times(Flat(base), op, n, c).mem, base(ES) + dest, base(op.seg) + source, c.rax)
  {
    BlockApart(base, op, w, n, c, dest, source);
    var m, to, from := Times(Flat(base), op, n, c).mem, base(ES) + dest, base(op.seg) + source;
    forall x | 0 <= x < n * op.len ensures ByteDone(op, c.mem, m, to, from, c.rax, x) {
      BlockByte(base, op, w, n, c, dest, source, x);
    }
    forall a | !(to <= a < to + n * op.len) ensures m(a) == c.mem(a) {
      BlockElsewhere(base, op, w, n, c, dest, a);
    }
  }

  lemma CountOne<M>(bus: Bus<M>, op: Op, v: Width, c: Cpu<M>)
    requires op.rep && op.reptype == PartOf(v)
    ensures One(bus, op, c).rcx == WithLow(v, c.rcx, PartOf(v).low(c.rcx) - 1)
  {
  }

  lemma {:induction false} CountMoved<M>(bus: Bus<M>, op: Op, v: Width, n: nat, c: Cpu<M>)
    requires op.rep && op.reptype == PartOf(v)
    ensures Times(bus, op, n, c).rcx == WithLow(v, c.rcx, c.rcx - n)
  {
    if n == 0 {
      WithLowOwn(v, c.rcx);
    } else {
      var d := Times(bus, op, n - 1, c);
      CountMoved(bus, op, v, n - 1, c);
      CountOne(bus, op, v, d);
      MoveAgain(v, c.rcx, d.rcx, c.rcx - (n - 1), -1);
    }
  }

  /** The part of the count register that the width names. */
  function CountIn(v: Width, rcx: Reg): nat {
    match v
    case W16 => rcx % 0x1_0000
    case W32 => rcx % 0x1_0000_0000
    case W64 => rcx
  }

  /** What n iterations make of the registers: RCX counts down, and the index registers move by n operands. */
  predicate RegistersDone(op: Op, w: Width, v: Width, n: nat, c: Cpu<Bytes>, d: Cpu<Bytes>) {
    && d.rax == c.rax
    && Added(w, c.rdi, if op.df then 0 - n * op.len else n * op.len, d.rdi)
    && (if op.movs then Added(w, c.rsi, if op.df then 0 - n * op.len else n * op.len, d.rsi) else d.rsi == c.rsi)
    && (if op.rep then Added(v, c.rcx, 0 - n, d.rcx) else d.rcx == c.rcx)
  }

  lemma RegistersAreDone(base: Segment -> int, op: Op, w: Width, v: Width, n: nat, c: Cpu<Bytes>)
    requires op.addrtype == PartOf(w) && op.reptype == PartOf(v) && (!op.rep ==> n == 1)
    ensures RegistersDone(op, w, v, n, c, Times(Flat(base), op, n, c))
  {
    RegistersAfter(Flat(base), op, w, n, c);
    RaxKept(Flat(base), op, n, c);
    if op.rep {
      CountMoved(Flat(base), op, v, n, c);
      var back: int := 0 - n;
      WithLowAdded(v, c.rcx, back);
    } else {
      RcxKept(Flat(base), op, c);
    }
  }

  /** The elements do not wrap around, and for MOVS each source element is read before it is stored to. */
  predicate Fair(base: Segment -> int, op: Op, w: Width, n: nat, c: Cpu<Bytes>, dest: int, source: int) {
    && Straight(op, w, n, c.rdi, dest)
    && (op.movs ==> Straight(op, w, n, c.rsi, source) && InOrder(op, n, base(ES) + dest, base(op.seg) + source))
  }

  /** The registers are done, and the block is copied, even to an overlapping one that the direction allows, or
      filled. */
  ghost predicate Performed(base: Segment -> int, op: Op, w: Width, v: Width, n: nat, c: Cpu<Bytes>, d: Cpu<Bytes>,
                            dest: int, source: int)
    requires op.len > 0
  {
    && RegistersDone(op, w, v, n, c, d)
    && (Fair(base, op, w, n, c, dest, source) ==>
          BlockDone(op, n, c.mem, d.mem, base(ES) + dest, base(op.seg) + source, c.rax))
  }

  lemma AllPerformed(base: Segment -> int, op: Op, w: Width, v: Width, n: nat, c: Cpu<Bytes>, d: Cpu<Bytes>, dest: int,
                     source: int)
    requires op.addrtype == PartOf(w) && op.reptype == PartOf(v) && op.len > 0 && n == Count(op, c)
    requires d == Times(Flat(base), op, n, c).(advanced := true)
    ensures Performed(base, op, w, v, n, c, d, dest, source)
  {
    RegistersAreDone(base, op, w, v, n, c);
    if Fair(base, op, w, n, c, dest, source) {
      BlockIsDone(base, op, w, n, c, dest, source);
    }
  }

  lemma CountIs(op: Op, v: Width, c: Cpu<Bytes>)
    requires op.reptype == PartOf(v)
    ensures Count(op, c) == if op.rep then CountIn(v, c.rcx) else 1
  {
  }

  /** The instruction executed until IP advances, on guest memory. */
  method Perform(p: Interpreter<Bytes>, op: Op, base: Segment -> int, ghost w: Width, ghost v: Width,
                 ghost dest: int, ghost source: int)
    requires p.bus == Flat(base) && !p.advanced && op.addrtype == PartOf(w) && op.reptype == PartOf(v) && op.len > 0
    modifies p
    ensures var n := if op.rep then CountIn(v, old(p.rcx)) else 1;
      p.advanced && Performed(base, op, w, v, n, old(p.State()), p.State(), dest, source)
  {
    ghost var c := p.State();
    CountIs(op, v, c);
    WidthsCount(v);
    var calls := p.Execute(op);
    AllPerformed(base, op, w, v, Count(op, c), c, p.State(), dest, source);
  }

  lemma RcxKept<M>(bus: Bus<M>, op: Op, c: Cpu<M>)
    requires !op.rep
    ensures Times(bus, op, 1, c).rcx == c.rcx
  {
    assert Times(bus, op, 0, c) == c;
  }
}
