/** String instructions with a repeat prefix (core/cpu_interpreter.c: string_instruction for MOVS and STOS). */
module StringOps {

  datatype Width = W16 | W32 | W64

  /** A general register. */
  type Reg = x: int | 0 <= x < 0x1_0000_0000_0000_0000

  /** x in the width. */
  function Wrap(w: Width, x: int): (r: Reg) {
    match w
    case W16 => x % 0x1_0000
    case W32 => x % 0x1_0000_0000
    case W64 => x % 0x1_0000_0000_0000_0000
  }

  /** The low part of a register. */
  function Low(w: Width, r: Reg): Reg {
    Wrap(w, r)
  }

  /** A store to the low part keeps the rest of the register. */
  function WithLow(w: Width, r: Reg, x: int): (s: Reg)
  {
    match w
    case W16 => r / 0x1_0000 * 0x1_0000 + x % 0x1_0000
    case W32 => r / 0x1_0000_0000 * 0x1_0000_0000 + x % 0x1_0000_0000
    case W64 => x % 0x1_0000_0000_0000_0000
  }

  lemma WithLowParts(w: Width, r: Reg, x: int)
    ensures Low(w, WithLow(w, r, x)) == Wrap(w, x)
    ensures WithLow(w, r, x) - Wrap(w, x) == r - Low(w, r)
  {
  }

  /** The part of a register that an operand of some width reads and writes. */
  datatype Part = Part(low: Reg -> Reg, put: (Reg, int) -> Reg)

  function PartOf(w: Width): Part {
    Part(r => Low(w, r), (r, x) => WithLow(w, r, x))
  }

  /** Counting down within the part. */
  ghost predicate Counts(p: Part) {
    forall r: Reg :: CountsAt(p, r)
  }

  ghost predicate CountsAt(p: Part, r: Reg) {
    p.low(r) > 0 ==> p.low(p.put(r, p.low(r) - 1)) == p.low(r) - 1
  }

  lemma WidthsCount(w: Width)
    ensures Counts(PartOf(w))
  {
    forall r: Reg ensures CountsAt(PartOf(w), r) {
      if Low(w, r) > 0 {
        DropOne(w, r);
      }
    }
  }

  lemma DropOne(w: Width, r: Reg)
    requires Low(w, r) > 0
    ensures Low(w, WithLow(w, r, Low(w, r) - 1)) == Low(w, r) - 1
  {
    WithLowParts(w, r, Low(w, r) - 1);
  }

  type Segment = nat

  const ES: Segment := 0

  /** Guest memory behind a segment: load gives length bytes at an offset, store replaces them. */
  datatype Bus<!M> = Bus(load: (M, Segment, Reg, nat) -> int, store: (M, Segment, Reg, nat, int) -> M)

  /** A decoded MOVS or STOS: prefix, parts of the count and of the index registers, source segment, operand length,
      and the DF and IF flags. */
  datatype Op = Op(movs: bool, rep: bool, reptype: Part, addrtype: Part, seg: Segment, len: nat, df: bool, intr: bool)

  datatype Cpu<!M> = Cpu(mem: M, rsi: Reg, rdi: Reg, rcx: Reg, rax: Reg, advanced: bool)

  function Stride(op: Op): int {
    if op.df then 0 - op.len else op.len
  }

  /** One iteration, as the program interprets it: a store to part of a register keeps the rest, whatever the width. */
  function One<M>(bus: Bus<M>, op: Op, c: Cpu<M>): Cpu<M> {
    var data := if op.movs then bus.load(c.mem, op.seg, op.addrtype.low(c.rsi), op.len) else c.rax;
    c.(mem := bus.store(c.mem, ES, op.addrtype.low(c.rdi), op.len, data),
       rsi := if op.movs then op.addrtype.put(c.rsi, op.addrtype.low(c.rsi) + Stride(op)) else c.rsi,
       rdi := op.addrtype.put(c.rdi, op.addrtype.low(c.rdi) + Stride(op)),
       rcx := if op.rep then op.reptype.put(c.rcx, op.reptype.low(c.rcx) - 1) else c.rcx)
  }

  function Times<M>(bus: Bus<M>, op: Op, n: nat, c: Cpu<M>): Cpu<M> {
    if n == 0 then c else One(bus, op, Times(bus, op, n - 1, c))
  }

  /** How many iterations the instruction asks for. */
  function Count<M>(op: Op, c: Cpu<M>): nat {
    if op.rep then op.reptype.low(c.rcx) else 1
  }

  /** How many of them one call performs. */
  function Batch<M>(op: Op, c: Cpu<M>): nat {
    if op.intr && Count(op, c) > 17 then 17 else Count(op, c)
  }

  lemma {:induction false} TimesAdd<M>(bus: Bus<M>, op: Op, m: nat, n: nat, c: Cpu<M>)
    ensures Times(bus, op, m + n, c) == Times(bus, op, n, Times(bus, op, m, c))
  {
    if n > 0 {
      TimesAdd(bus, op, m, n - 1, c);
    }
  }

  lemma {:induction false} TimesKeep<M>(bus: Bus<M>, op: Op, n: nat, c: Cpu<M>)
    ensures Times(bus, op, n, c).advanced == c.advanced
  {
    if n > 0 {
      TimesKeep(bus, op, n - 1, c);
    }
  }

  lemma OneCount<M>(bus: Bus<M>, op: Op, c: Cpu<M>)
    requires op.rep && Count(op, c) > 0 && Counts(op.reptype)
    ensures var d := One(bus, op, c);
      Count(op, d) == Count(op, c) - 1 && d.rax == c.rax && d.advanced == c.advanced
  {
    assert CountsAt(op.reptype, c.rcx);
  }

  /** Each iteration takes one off the count, and leaves what only the whole instruction changes. */
  lemma {:induction false} CountDown<M>(bus: Bus<M>, op: Op, n: nat, c: Cpu<M>)
    requires op.rep && n <= Count(op, c) && Counts(op.reptype)
    ensures var d := Times(bus, op, n, c);
      Count(op, d) == Count(op, c) - n && d.rax == c.rax && d.advanced == c.advanced
  {
    if n > 0 {
      CountDown(bus, op, n - 1, c);
      OneCount(bus, op, Times(bus, op, n - 1, c));
    }
  }

  lemma WithLowTwice(w: Width, r: Reg, x: int, y: int)
    ensures WithLow(w, WithLow(w, r, x), y) == WithLow(w, r, y)
  {
    WithLowParts(w, r, x);
    WithLowParts(w, WithLow(w, r, x), y);
    WithLowParts(w, r, y);
  }

  lemma Mod16(x: int, y: int)
    ensures (x % 0x1_0000 + y) % 0x1_0000 == (x + y) % 0x1_0000
  {
    var q := x / 0x1_0000;
    assert x + y == x % 0x1_0000 + y + 0x1_0000 * q;
  }

  lemma Mod32(x: int, y: int)
    ensures (x % 0x1_0000_0000 + y) % 0x1_0000_0000 == (x + y) % 0x1_0000_0000
  {
    var q := x / 0x1_0000_0000;
    assert x + y == x % 0x1_0000_0000 + y + 0x1_0000_0000 * q;
  }

  lemma Mod64(x: int, y: int)
    ensures (x % 0x1_0000_0000_0000_0000 + y) % 0x1_0000_0000_0000_0000 == (x + y) % 0x1_0000_0000_0000_0000
  {
    var q := x / 0x1_0000_0000_0000_0000;
    assert x + y == x % 0x1_0000_0000_0000_0000 + y + 0x1_0000_0000_0000_0000 * q;
  }

  lemma LowAdd(w: Width, x: int, y: int)
    ensures Wrap(w, Wrap(w, x) + y) == Wrap(w, x + y)
  {
    match w
    case W16 => Mod16(x, y);
    case W32 => Mod32(x, y);
    case W64 => Mod64(x, y);
  }

  lemma WithLowSame(w: Width, x: int, y: int, r: Reg)
    requires Wrap(w, x) == Wrap(w, y)
    ensures WithLow(w, r, x) == WithLow(w, r, y)
  {
    WithLowParts(w, r, x);
    WithLowParts(w, r, y);
  }

  /** Another stride. */
  lemma MoveAgain(w: Width, r: Reg, s: Reg, x: int, d: int)
    requires s == WithLow(w, r, x)
    ensures WithLow(w, s, Low(w, s) + d) == WithLow(w, r, x + d)
  {
    WithLowParts(w, r, x);
    LowAdd(w, x, d);
    WithLowTwice(w, r, x, Low(w, s) + d);
    WithLowSame(w, Low(w, s) + d, x + d, r);
  }

  lemma IndexStep<M>(bus: Bus<M>, op: Op, w: Width, c: Cpu<M>)
    requires op.addrtype == PartOf(w)
    ensures var d := One(bus, op, c);
      && d.rdi == WithLow(w, c.rdi, Low(w, c.rdi) + Stride(op))
      && d.rsi == if op.movs then WithLow(w, c.rsi, Low(w, c.rsi) + Stride(op)) else c.rsi
  {
  }

  lemma NextMultiple(m: nat, d: int)
    ensures m * d + d == (m + 1) * d
  {
  }

  lemma WithLowOwn(w: Width, r: Reg)
    ensures WithLow(w, r, r) == r
  {
  }

  lemma IndexNext(w: Width, r: Reg, s: Reg, m: nat, n: nat, d: int)
    requires s == WithLow(w, r, r + m * d) && n == m + 1
    ensures WithLow(w, s, Low(w, s) + d) == WithLow(w, r, r + n * d)
  {
    NextMultiple(m, d);
    MoveAgain(w, r, s, r + m * d, d);
  }

  /** The index registers of d are those of c, n strides on. */
  predicate MovedBy<M>(op: Op, w: Width, n: nat, c: Cpu<M>, d: Cpu<M>) {
    && d.rdi == WithLow(w, c.rdi, c.rdi + n * Stride(op))
    && d.rsi == if op.movs then WithLow(w, c.rsi, c.rsi + n * Stride(op)) else c.rsi
  }

  /** s is r with x added to its part of the width, where it wraps around; the rest of it stays. */
  predicate Added(w: Width, r: Reg, x: int, s: Reg) {
    match w
    case W16 => s % 0x1_0000 == (r + x) % 0x1_0000 && s / 0x1_0000 == r / 0x1_0000
    case W32 => s % 0x1_0000_0000 == (r + x) % 0x1_0000_0000 && s / 0x1_0000_0000 == r / 0x1_0000_0000
    case W64 => s == (r + x) % 0x1_0000_0000_0000_0000
  }

  lemma WithLowAdded(w: Width, r: Reg, x: int)
    ensures Added(w, r, x, WithLow(w, r, r + x))
  {
  }

  lemma RegistersStart<M>(op: Op, w: Width, c: Cpu<M>)
    ensures MovedBy(op, w, 0, c, c)
  {
    WithLowOwn(w, c.rdi);
    WithLowOwn(w, c.rsi);
  }

  lemma RegistersNext<M>(bus: Bus<M>, op: Op, w: Width, m: nat, n: nat, c: Cpu<M>, e: Cpu<M>)
    requires op.addrtype == PartOf(w) && n == m + 1 && MovedBy(op, w, m, c, e)
    ensures MovedBy(op, w, n, c, One(bus, op, e))
  {
    IndexStep(bus, op, w, e);
    IndexNext(w, c.rdi, e.rdi, m, n, Stride(op));
    if op.movs {
      IndexNext(w, c.rsi, e.rsi, m, n, Stride(op));
    }
  }

  lemma {:induction false} RegistersMoved<M>(bus: Bus<M>, op: Op, w: Width, n: nat, c: Cpu<M>)
    requires op.addrtype == PartOf(w)
    ensures MovedBy(op, w, n, c, Times(bus, op, n, c))
  {
    if n == 0 {
      RegistersStart(op, w, c);
    } else {
      RegistersMoved(bus, op, w, n - 1, c);
      RegistersNext(bus, op, w, n - 1, n, c, Times(bus, op, n - 1, c));
    }
  }

  /** How far the index registers move in n iterations: down if DF is set. */
  function Distance(op: Op, n: nat): int {
    if op.df then 0 - n * op.len else n * op.len
  }

  lemma StrideDistance(op: Op, n: nat)
    ensures n * Stride(op) == Distance(op, n)
  {
    assert op.df ==> n * (0 - op.len) == 0 - n * op.len;
  }

  /** The index registers after n iterations: the low part moves by n operands and wraps, the rest stays; RSI moves only
      for MOVS. */
  lemma RegistersAfter<M>(bus: Bus<M>, op: Op, w: Width, n: nat, c: Cpu<M>)
    requires op.addrtype == PartOf(w)
    ensures var d, x := Times(bus, op, n, c), if op.df then 0 - n * op.len else n * op.len;
      Added(w, c.rdi, x, d.rdi) && if op.movs then Added(w, c.rsi, x, d.rsi) else d.rsi == c.rsi
  {
    RegistersMoved(bus, op, w, n, c);
    StrideDistance(op, n);
    WithLowAdded(w, c.rdi, Distance(op, n));
    WithLowAdded(w, c.rsi, Distance(op, n));
  }

  /** The counters of the loop after k iterations of total: cnt are left, and loopcount repetitions if interrupts are
      enabled. */
  predicate Looping(intr: bool, total: nat, k: nat, cnt: int, loopcount: int, again: bool) {
    && (if k == 0 then again && loopcount == 16 else k <= total && cnt == total - k)
    && (k > 0 && again ==> cnt > 0)
    && (0 <= loopcount && if intr then loopcount + k == (if again then 16 else 17) else loopcount == 16)
    && (!again ==> k > 0 && (cnt == 0 || loopcount == 0))
  }

  /** The loop ends with the count at zero, or with the sixteen repetitions used up. */
  lemma Batched<M>(op: Op, c: Cpu<M>, k: nat, cnt: int, loopcount: int)
    requires Looping(op.intr, Count(op, c), k, cnt, loopcount, false)
    ensures k == Batch(op, c) && (cnt == 0 <==> k == Count(op, c))
  {
  }

  /** The calls so far have done k iterations of total. */
  predicate Calling(intr: bool, total: nat, k: nat, calls: nat, advanced: bool) {
    && k <= total && (calls == 0 ==> k == 0 && !advanced) && (advanced ==> k == total)
    && (!advanced && calls > 0 ==> k < total)
    && if intr then (if advanced then (calls == 1 || 17 * (calls - 1) < k) && k <= 17 * calls else k == 17 * calls)
       else calls == if advanced then 1 else 0
  }

  lemma CallAgain(intr: bool, total: nat, k: nat, calls: nat)
    requires Calling(intr, total, k, calls, false)
    ensures var n := if intr && total - k > 17 then 17 else total - k;
      Calling(intr, total, k + n, calls + 1, n == total - k)
  {
  }

  lemma CallsDone(intr: bool, total: nat, k: nat, calls: nat)
    requires Calling(intr, total, k, calls, true)
    ensures k == total && calls > 0 && (!intr ==> calls == 1)
    ensures intr ==> (17 * (calls - 1) < total || calls == 1) && total <= 17 * calls
  {
  }

  /** What is left after k iterations of an instruction that is not done. */
  lemma BatchAfter<M>(bus: Bus<M>, op: Op, c: Cpu<M>, d: Cpu<M>, k: nat)
    requires k <= Count(op, c) && (if op.rep then Counts(op.reptype) else k == 0) && d == Times(bus, op, k, c)
    ensures Count(op, d) == Count(op, c) - k && d.advanced == c.advanced
  {
    if op.rep {
      CountDown(bus, op, k, c);
    }
  }

  lemma TimesTo<M>(bus: Bus<M>, op: Op, k: nat, n: nat, l: nat, c: Cpu<M>, d: Cpu<M>)
    requires l == k + n && d == Times(bus, op, k, c)
    ensures Times(bus, op, n, d) == Times(bus, op, l, c)
  {
    TimesAdd(bus, op, k, n, c);
  }

  lemma CallStep<M>(bus: Bus<M>, op: Op, c: Cpu<M>, d: Cpu<M>, e: Cpu<M>, total: nat, k: nat, n: nat, l: nat,
                    calls: nat)
    requires !c.advanced && Counts(op.reptype) && (!op.rep ==> k == 0) && n == Batch(op, d) && total == Count(op, c)
    requires Calling(op.intr, total, k, calls, false) && d == Times(bus, op, k, c).(advanced := false)
    requires e == Times(bus, op, n, d).(advanced := n == Count(op, d)) && l == k + n
    ensures e == Times(bus, op, l, c).(advanced := e.advanced)
    ensures Calling(op.intr, total, l, calls + 1, e.advanced) && (n > 0 || e.advanced) && (!op.rep ==> e.advanced)
  {
    TimesKeep(bus, op, k, c);
    BatchAfter(bus, op, c, d, k);
    TimesTo(bus, op, k, n, l, c, d);
    CallAgain(op.intr, total, k, calls);
  }

  class Interpreter<!M> {
    const bus: Bus<M>
    var mem: M
    var rsi: Reg
    var rdi: Reg
    var rcx: Reg
    var rax: Reg
    /** IP is past the instruction. */
    var advanced: bool

    constructor (bus: Bus<M>, c: Cpu<M>)
      ensures this.bus == bus && State() == c
    {
      this.bus, mem, rsi, rdi, rcx, rax, advanced := bus, c.mem, c.rsi, c.rdi, c.rcx, c.rax, c.advanced;
    }

    function State(): Cpu<M>
      reads this
    {
      Cpu(mem, rsi, rdi, rcx, rax, advanced)
    }

    /** string_instruction. */
    method StringInstruction(op: Op) returns (ghost k: nat)
      requires !advanced && Counts(op.reptype)
      modifies this
      ensures k == Batch(op, old(State()))
      ensures State() == Times(bus, op, k, old(State())).(advanced := k == Count(op, old(State())))
    {
      ghost var c, total := State(), Count(op, State());
      k := 0;
      var regr, regw, loopcount, cnt, again := rsi, rdi, 16, 0, true;
      while again
        invariant rsi == c.rsi && rdi == c.rdi && !advanced
        invariant With(regr, regw) == Times(bus, op, k, c) && (!op.movs ==> regr == c.rsi)
        invariant Looping(op.intr, total, k, cnt, loopcount, again) && k <= total
        decreases again, total - k
      {
        if op.rep {
          CountDown(bus, op, k, c);
        }
        if op.rep && op.reptype.low(rcx) == 0 {
          advanced := true;
          return;
        }
        regr, regw, cnt := Iterate(op, regr, regw);
        k := k + 1;
        again := cnt != 0 && loopcount != 0;
        if again && op.intr {
          loopcount := loopcount - 1;
        }
      }
      Batched(op, c, k, cnt, loopcount);
      if op.movs {
        rsi := regr;
      }
      rdi := regw;
      if cnt == 0 {
        advanced := true;
      }
    }

    /** The state with the index registers that are still in local variables. */
    function With(regr: Reg, regw: Reg): Cpu<M>
      reads this
    {
      Cpu(mem, regr, regw, rcx, rax, advanced)
    }

    /** The body of the loop, up to the decision whether to go on. */
    method Iterate(op: Op, regr: Reg, regw: Reg) returns (regr': Reg, regw': Reg, cnt: nat)
      requires op.rep ==> Count(op, With(regr, regw)) > 0
      modifies this`mem, this`rcx
      ensures With(regr', regw') == One(bus, op, old(With(regr, regw)))
      ensures !op.movs ==> regr' == regr
      ensures cnt == if op.rep then old(Count(op, With(regr, regw))) - 1 else 0
    {
      cnt := 0;
      if op.rep {
        cnt := op.reptype.low(rcx) - 1;
        rcx := op.reptype.put(rcx, cnt);
      }
      var data := rax;
      if op.movs {
        data := bus.load(mem, op.seg, op.addrtype.low(regr), op.len);
      }
      mem := bus.store(mem, ES, op.addrtype.low(regw), op.len, data);
      regr' := if op.movs then op.addrtype.put(regr, op.addrtype.low(regr) + Stride(op)) else regr;
      regw' := op.addrtype.put(regw, op.addrtype.low(regw) + Stride(op));
    }

    /** One more call, after k iterations from c. */
    method Call(op: Op, ghost c: Cpu<M>, ghost total: nat, ghost k: nat, ghost calls: nat) returns (ghost l: nat)
      requires !advanced && !c.advanced && Counts(op.reptype) && (!op.rep ==> k == 0) && total == Count(op, c)
      requires Calling(op.intr, total, k, calls, false) && State() == Times(bus, op, k, c).(advanced := false)
      modifies this
      ensures Calling(op.intr, total, l, calls + 1, advanced) && (!op.rep ==> advanced)
      ensures State() == Times(bus, op, l, c).(advanced := advanced) && (k < l || advanced)
    {
      ghost var d := State();
      ghost var n := StringInstruction(op);
      l := k + n;
      CallStep(bus, op, c, d, State(), total, k, n, l, calls);
    }

    /** The instruction is executed again until IP advances. */
    method Execute(op: Op) returns (calls: nat)
      requires !advanced && Counts(op.reptype)
      modifies this
      ensures State() == Times(bus, op, Count(op, old(State())), old(State())).(advanced := true)
      ensures calls > 0 && (!op.intr ==> calls == 1)
      ensures op.intr ==> 17 * (calls - 1) < Count(op, old(State())) || calls == 1
      ensures op.intr ==> Count(op, old(State())) <= 17 * calls
    {
      ghost var c, total, k := State(), Count(op, State()), 0;
      calls := 0;
      while !advanced
        invariant 0 <= k && Calling(op.intr, total, k, calls, advanced) && (!op.rep && !advanced ==> k == 0)
        invariant State() == Times(bus, op, k, c).(advanced := advanced)
        decreases !advanced, total - k
      {
        k := Call(op, c, total, k, calls);
        calls := calls + 1;
      }
      CallsDone(op.intr, total, k, calls);
    }
  }
}
