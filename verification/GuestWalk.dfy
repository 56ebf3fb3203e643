/** The walk of the guest's page tables (core/cpu_mmu.c: get_pte_sub), while other CPUs set accessed and dirty bits. */
module GuestWalk {
  import opened PageTables
  import opened Pmap

  /** struct get_pte_data, with paging on. */
  datatype Access = Access(wp: bool, pse: bool, pae: bool, lme: bool, nxe: bool, write: bool, user: bool, exec: bool)

  datatype Verdict = Success | NotPresent | BadReservedBit | NotAccessible | NotExecutable

  function Levels(d: Access): nat {
    if d.lme then 4 else if d.pae then 3 else 2
  }

  /** The entries of the page directory pointer table under PAE have no rights and no marks. */
  predicate Bare(s: Space, l: nat) {
    s.levels == 3 && l == 2
  }

  /** test_pmap_entry_reserved_bit with a 36-bit physical address width; level l counts from 0. */
  predicate Reserved(s: Space, d: Access, e: Entry, l: nat) {
    if s.levels == 2 then l == 1 && e.ps && e.addr / 512 % 2 == 1
    else
      || (e.nx && (!d.nxe || Bare(s, l)))
      || e.addr >= 0x100_0000
      || (s.levels == 3 && e.avl != 0)
      || (l == 1 && e.ps && e.addr / 2 % 256 != 0)
      || (Bare(s, l) && (e.rw || e.us || e.a || e.d || e.ps || e.g))
      || (s.levels == 4 && l == 2 && (if e.ps then e.addr / 2 % 0x2_0000 != 0 else e.g))
      || (l == 3 && (e.ps || e.g))
  }

  /** The checks of one level, in order. */
  function Check(s: Space, d: Access, e: Entry, l: nat): Verdict {
    if !e.p then NotPresent
    else if Reserved(s, d, e, l) then BadReservedBit
    else if d.user && !e.us && !Bare(s, l) then NotAccessible
    else if d.write && (d.wp || d.user) && !e.rw && !Bare(s, l) then NotAccessible
    else if d.exec && d.nxe && e.nx then NotExecutable
    else Success
  }

  /** What the architecture makes of the access from level l on. */
  ghost function Outcome(s: Space, d: Access, mem: Memory, ix: seq<nat>, l: nat): Verdict
    requires SpaceOk(s) && AddressOk(s, ix) && Total(mem) && l < s.levels
  {
    var e := EntryOf(s, mem, ix, l);
    if Check(s, d, e, l) != Success then Check(s, d, e, l)
    else if l == 0 || Large(l, e) then Success
    else Outcome(s, d, mem, ix, l - 1)
  }

  /** The level of the entry that maps the page. */
  ghost function Leaf(s: Space, mem: Memory, ix: seq<nat>, l: nat): (r: nat)
    requires SpaceOk(s) && AddressOk(s, ix) && Total(mem) && l < s.levels
    ensures r <= l
  {
    if l == 0 || Large(l, EntryOf(s, mem, ix, l)) then l else Leaf(s, mem, ix, l - 1)
  }

  /** The page is mapped by the highest entry with PS set of the levels that have large pages, or else at level 0. */
  lemma {:induction false} LeafIs(s: Space, mem: Memory, ix: seq<nat>, l: nat)
    requires SpaceOk(s) && AddressOk(s, ix) && Total(mem) && l < s.levels
    ensures var r := Leaf(s, mem, ix, l);
      && (r > 0 ==> r <= 2 && EntryOf(s, mem, ix, r).ps)
      && forall k :: r < k <= l && k <= 2 ==> !EntryOf(s, mem, ix, k).ps
  {
    if l > 0 && !Large(l, EntryOf(s, mem, ix, l)) {
      LeafIs(s, mem, ix, l - 1);
    }
  }

  /** The entry lets the access through. */
  predicate Permits(s: Space, d: Access, e: Entry, l: nat) {
    && e.p && !Reserved(s, d, e, l)
    && (d.user ==> e.us || Bare(s, l))
    && (d.write && (d.wp || d.user) ==> e.rw || Bare(s, l))
    && (d.exec && d.nxe ==> !e.nx)
  }

  /** The access succeeds iff every entry from the root down to the one that maps the page permits it. */
  lemma {:induction false} SuccessMeans(s: Space, d: Access, mem: Memory, ix: seq<nat>, l: nat)
    requires SpaceOk(s) && AddressOk(s, ix) && Total(mem) && l < s.levels
    ensures Outcome(s, d, mem, ix, l) == Success <==>
      forall k :: Leaf(s, mem, ix, l) <= k <= l ==> Permits(s, d, EntryOf(s, mem, ix, k), k)
  {
    var e := EntryOf(s, mem, ix, l);
    assert Permits(s, d, e, l) <==> Check(s, d, e, l) == Success;
    if l > 0 && !Large(l, e) {
      SuccessMeans(s, d, mem, ix, l - 1);
    }
  }

  /** Otherwise the error is that of the highest entry that does not permit it, and an absent entry comes before
      a reserved bit, and that before a missing right. */
  lemma {:induction false} RefusalMeans(s: Space, d: Access, mem: Memory, ix: seq<nat>, l: nat) returns (k: nat)
    requires SpaceOk(s) && AddressOk(s, ix) && Total(mem) && l < s.levels && Outcome(s, d, mem, ix, l) != Success
    ensures Leaf(s, mem, ix, l) <= k <= l && forall j :: k < j <= l ==> Permits(s, d, EntryOf(s, mem, ix, j), j)
    ensures var e, v := EntryOf(s, mem, ix, k), Outcome(s, d, mem, ix, l);
      && !Permits(s, d, e, k)
      && (v == NotPresent <==> !e.p)
      && (v == BadReservedBit <==> e.p && Reserved(s, d, e, k))
      && (v == NotExecutable ==> d.exec && d.nxe && e.nx && (d.user ==> e.us || Bare(s, k)))
      && (v == NotAccessible ==> !Bare(s, k) && (!e.us || !e.rw))
  {
    var e := EntryOf(s, mem, ix, l);
    if Check(s, d, e, l) != Success {
      k := l;
    } else {
      k := RefusalMeans(s, d, mem, ix, l - 1);
    }
  }

  lemma CheckMarked(s: Space, d: Access, a: Entry, b: Entry, l: nat)
    requires Marked(a, b) && (Bare(s, l) ==> a == b)
    ensures Check(s, d, a, l) == Check(s, d, b, l)
  {
    assert a.addr == b.addr;
    if !Bare(s, l) {
      assert b == a.(a := b.a, d := b.d);
    }
  }

  lemma SmallBound(addr: nat, i: nat)
    requires addr < 0x100_0000 && i < 512
    ensures addr / 512 * 512 + i < 0x100_0000
  {
  }

  lemma MiddleBound(addr: nat, i: nat)
    requires addr < 0x100_0000 && addr / 2 % 0x2_0000 == 0 && i < 512
    ensures var v := addr / 0x4_0000 * 0x4_0000 + i * 512 + addr % 512; v < 0x100_0000 && v / 2 % 256 == 0
  {
    var q, r := addr / 2 / 0x2_0000, addr % 2;
    assert addr == q * 0x4_0000 + r;
    assert addr / 0x4_0000 == q && addr % 512 == r;
    assert (q * 0x4_0000 + i * 512 + r) / 2 == (q * 512 + i) * 256;
  }

  /** What the checks read of an entry, apart from bit 7 and the address. */
  predicate SameRights(a: Entry, b: Entry) {
    a.(ps := b.ps, addr := b.addr) == b
  }

  lemma CheckSmall(s: Space, d: Access, e: Entry, ix: seq<nat>)
    requires SpaceOk(s) && AddressOk(s, ix) && e.ps && Check(s, d, e, 1) == Success
    ensures Check(s, d, SmallPart(s, e, ix), 0) == Success
  {
    var e' := SmallPart(s, e, ix);
    assert SameRights(e, e');
    if s.levels != 2 {
      SmallBound(e.addr, ix[0]);
      assert e'.addr < 0x100_0000;
    }
    assert !Reserved(s, d, e', 0);
  }

  lemma CheckMiddle(s: Space, d: Access, e: Entry, ix: seq<nat>)
    requires SpaceOk(s) && AddressOk(s, ix) && s.levels == 4 && e.ps && Check(s, d, e, 2) == Success
    ensures Check(s, d, MiddlePart(e, ix), 1) == Success && MiddlePart(e, ix).ps
  {
    var e' := MiddlePart(e, ix);
    assert SameRights(e, e');
    MiddleBound(e.addr, ix[1]);
    assert !Reserved(s, d, e', 1);
  }

  /** The parts of a large page pass wherever the large page passes. */
  lemma CheckPart(s: Space, d: Access, e: Entry, l: nat, t: nat, ix: seq<nat>)
    requires SpaceOk(s) && AddressOk(s, ix) && t < l < s.levels && Large(l, e)
    requires Check(s, d, e, l) == Success
    ensures Check(s, d, Part(s, e, l, t, ix), t) == Success
  {
    if l == 1 {
      CheckSmall(s, d, e, ix);
    } else {
      assert s.levels == 4;
      CheckMiddle(s, d, e, ix);
      if t == 0 {
        CheckSmall(s, d, MiddlePart(e, ix), ix);
      }
    }
  }

  /** Another CPU sets the accessed or the dirty bit of an entry. */
  datatype MarkAt = MarkAt(slot: Slot, a: bool, d: bool)

  /** What other CPUs do before the n-th access of the walk to memory. */
  type Others = nat -> seq<MarkAt>

  /** The entries of a PAE page directory pointer table are not marked. */
  ghost predicate OthersOk(s: Space, env: Others) {
    s.levels == 3 ==> forall n, k :: 0 <= k < |env(n)| ==> !InRoot(s, env(n)[k].slot)
  }

  predicate InRoot(s: Space, t: Slot) {
    t.page == s.root && s.off <= t.idx < s.off + 4
  }

  ghost predicate OthersSet(env: Others, t: Slot, dirty: bool) {
    exists n, k :: 0 <= k < |env(n)| && SetsAt(env(n)[k], t, dirty)
  }

  predicate SetsAt(x: MarkAt, t: Slot, dirty: bool) {
    x.slot == t && if dirty then x.d else x.a
  }

  /** The entry at t went from a to b by marks of other CPUs, or by the accessed bit if t is on the path of ix,
      or by the dirty bit if it maps the page and the access writes. */
  ghost predicate Caused(q: Query, env: Others, t: Slot, b: Entry)
    requires QueryOk(q)
  {
    var a := q.mem[t];
    && Marked(a, b)
    && (b.a && !a.a ==> OthersSet(env, t, false) || OnPath(q.s, q.mem, q.ix, t))
    && (b.d && !a.d ==> OthersSet(env, t, true) || (q.d.write && t == SlotOf(q.s, q.mem, q.ix, LeafOf(q))))
  }

  ghost predicate Justified(q: Query, env: Others, m: Memory)
    requires QueryOk(q) && Total(m)
  {
    forall t: Slot :: Caused(q, env, t, m[t])
  }

  /** A walk: the tables, the access, the memory at the start, and the address. */
  datatype Query = Query(s: Space, d: Access, mem: Memory, ix: seq<nat>)

  ghost predicate QueryOk(q: Query) {
    SpaceOk(q.s) && AddressOk(q.s, q.ix) && Total(q.mem)
  }

  ghost function LeafOf(q: Query): (l: nat)
    requires QueryOk(q)
    ensures l < q.s.levels
  {
    Leaf(q.s, q.mem, q.ix, q.s.levels - 1)
  }

  /** The state of the cursor. */
  datatype View = View(mem: Memory, readlevel: nat, entry: seq<Entry>, entryaddr: seq<Slot>)

  ghost predicate ViewOk(q: Query, w: View) {
    && QueryOk(q) && Total(w.mem) && |w.entry| == |w.entryaddr| == q.s.levels + 1 && w.readlevel <= q.s.levels
    && Cached(q.s, w.mem, q.ix, w.readlevel, w.entry, w.entryaddr)
  }

  /** Level k has been checked and marked. */
  ghost predicate Passed(q: Query, k: nat, e: Entry)
    requires QueryOk(q) && k < q.s.levels
  {
    && Check(q.s, q.d, e, k) == Success
    && (if Bare(q.s, k) then e == EntryOf(q.s, q.mem, q.ix, k) else e.a)
    && (q.d.write && (k == 0 || Large(k, e)) ==> e.d)
  }

  /** The walk is at level l: all levels above have passed, or a large page has been found. */
  ghost predicate At(q: Query, env: Others, w: View, l: nat) {
    && ViewOk(q, w) && Justified(q, env, w.mem) && l <= w.readlevel && l < q.s.levels
    && (forall k :: l < k && w.readlevel <= k < q.s.levels ==> Passed(q, k, w.entry[k]))
    && (l + 1 < w.readlevel ==> w.readlevel < q.s.levels && Large(w.readlevel, w.entry[w.readlevel]))
    && (Bare(q.s, l) ==>
          if w.readlevel == l then w.entry[l] == EntryOf(q.s, q.mem, q.ix, l)
          else forall t: Slot :: InRoot(q.s, t) ==> w.mem[t] == q.mem[t])
  }

  /** Level l has passed too. */
  ghost predicate Done(q: Query, env: Others, w: View, l: nat) {
    && At(q, env, w, l)
    && (if w.readlevel == l then Passed(q, l, w.entry[l])
        else w.readlevel < q.s.levels && Large(w.readlevel, w.entry[w.readlevel]))
  }

  lemma NextLevel(q: Query, env: Others, w: View, l: nat)
    requires Done(q, env, w, l) && l > 0
    ensures At(q, env, w, l - 1)
  {
  }

  /** The entry that the cursor holds is the one of the start, but for marks. */
  lemma HeldEntry(q: Query, env: Others, w: View, k: nat)
    requires ViewOk(q, w) && Justified(q, env, w.mem) && w.readlevel <= k < q.s.levels
    ensures w.entryaddr[k] == SlotOf(q.s, q.mem, q.ix, k)
    ensures Large(k, w.entry[k]) == Large(k, EntryOf(q.s, q.mem, q.ix, k))
    ensures w.entry[k].p == EntryOf(q.s, q.mem, q.ix, k).p
    ensures !Bare(q.s, k) ==> Check(q.s, q.d, w.entry[k], k) == Check(q.s, q.d, EntryOf(q.s, q.mem, q.ix, k), k)
  {
    assert OnlyMarked(q.mem, w.mem);
    MarkedSlots(q.s, q.mem, w.mem, q.ix, k);
    var now := EntryOf(q.s, w.mem, q.ix, k);
    if !Bare(q.s, k) {
      CheckMarked(q.s, q.d, w.entry[k], now, k);
      CheckMarked(q.s, q.d, EntryOf(q.s, q.mem, q.ix, k), now, k);
    }
  }

  ghost predicate OnPath(s: Space, mem: Memory, ix: seq<nat>, t: Slot)
    requires SpaceOk(s) && AddressOk(s, ix) && Total(mem)
  {
    exists k :: 0 <= k < s.levels && Reaches(s, mem, ix, k) && t == SlotOf(s, mem, ix, k) && !Bare(s, k)
  }

  lemma CachedMarked(s: Space, m: Memory, m': Memory, ix: seq<nat>, readlevel: nat, entry: seq<Entry>,
                     entryaddr: seq<Slot>)
    requires SpaceOk(s) && AddressOk(s, ix) && Total(m) && Total(m') && |entry| == |entryaddr| == s.levels + 1
    requires Cached(s, m, ix, readlevel, entry, entryaddr) && OnlyMarked(m, m')
    ensures Cached(s, m', ix, readlevel, entry, entryaddr)
  {
    forall k | readlevel <= k < s.levels
      ensures SlotOf(s, m', ix, k) == SlotOf(s, m, ix, k) && Marked(entry[k], EntryOf(s, m', ix, k))
    {
      MarkedSlots(s, m, m', ix, k);
    }
  }

  /** The entry at t went from a to b by marks of other CPUs. */
  ghost predicate ByOthers(env: Others, t: Slot, a: Entry, b: Entry) {
    Marked(a, b) && (b.a && !a.a ==> OthersSet(env, t, false)) && (b.d && !a.d ==> OthersSet(env, t, true))
  }

  ghost predicate OthersOnly(env: Others, m: Memory, m': Memory)
    requires Total(m) && Total(m')
  {
    forall t: Slot :: ByOthers(env, t, m[t], m'[t])
  }

  lemma SetNow(env: Others, n: nat, k: nat, e: Entry)
    requires k < |env(n)|
    ensures var x := env(n)[k];
      ByOthers(env, x.slot, e, e.(a := e.a || x.a, d := e.d || x.d))
  {
    assert env(n)[k].a ==> SetsAt(env(n)[k], env(n)[k].slot, false);
    assert env(n)[k].d ==> SetsAt(env(n)[k], env(n)[k].slot, true);
  }

  lemma ByOthersToo(env: Others, t: Slot, a: Entry, b: Entry, c: Entry)
    requires ByOthers(env, t, a, b) && ByOthers(env, t, b, c)
    ensures ByOthers(env, t, a, c)
  {
  }

  lemma OneMark(env: Others, m0: Memory, m: Memory, w: Slot, e: Entry)
    requires Total(m0) && Total(m) && OthersOnly(env, m0, m) && ByOthers(env, w, m[w], e)
    ensures OthersOnly(env, m0, m[w := e])
  {
    ByOthersToo(env, w, m0[w], m[w], e);
  }

  ghost predicate RootKept(s: Space, env: Others, m: Memory, m': Memory)
    requires Total(m) && Total(m')
  {
    OthersOk(s, env) && s.levels == 3 ==> forall t: Slot :: InRoot(s, t) ==> m'[t] == m[t]
  }

  /** Memory after one mark. */
  function AfterMark(m: Memory, x: MarkAt): Memory
    requires x.slot in m
  {
    var e := m[x.slot];
    m[x.slot := e.(a := e.a || x.a, d := e.d || x.d)]
  }

  lemma OtherStep(s: Space, env: Others, n: nat, k: nat, m0: Memory, m: Memory)
    requires Total(m0) && Total(m) && k < |env(n)| && OthersOnly(env, m0, m) && RootKept(s, env, m0, m)
    ensures var m' := AfterMark(m, env(n)[k]);
      OthersOnly(env, m0, m') && RootKept(s, env, m0, m') && OnlyMarked(m, m')
  {
    var x := env(n)[k];
    var e := AfterMark(m, x)[x.slot];
    SetNow(env, n, k, m[x.slot]);
    OneMark(env, m0, m, x.slot, e);
    RootStep(s, env, n, k, m0, m, e);
  }

  lemma RootStep(s: Space, env: Others, n: nat, k: nat, m0: Memory, m: Memory, e: Entry)
    requires Total(m0) && Total(m) && k < |env(n)| && RootKept(s, env, m0, m)
    ensures RootKept(s, env, m0, m[env(n)[k].slot := e])
  {
  }

  lemma OthersMark(env: Others, m: Memory, m': Memory)
    requires Total(m) && Total(m') && OthersOnly(env, m, m')
    ensures OnlyMarked(m, m')
  {
  }

  /** Memory after all of them. */
  ghost function AfterMarks(m: Memory, ms: seq<MarkAt>): (r: Memory)
    requires Total(m)
    ensures Total(r)
  {
    if ms == [] then m else AfterMark(AfterMarks(m, ms[..|ms| - 1]), ms[|ms| - 1])
  }

  /** Other CPUs run. */
  method Interfere(m: Pmap, env: Others, n: nat)
    requires m.Valid()
    modifies m`mem
    ensures m.Valid() && OthersOnly(env, old(m.mem), m.mem) && OnlyMarked(old(m.mem), m.mem)
    ensures RootKept(m.space, env, old(m.mem), m.mem) && m.mem == AfterMarks(old(m.mem), env(n))
  {
    var ms := env(n);
    for k := 0 to |ms|
      invariant m.Valid() && OthersOnly(env, old(m.mem), m.mem) && RootKept(m.space, env, old(m.mem), m.mem)
      invariant m.mem == AfterMarks(old(m.mem), ms[..k])
    {
      assert ms[..k + 1][..k] == ms[..k];
      OtherStep(m.space, env, n, k, old(m.mem), m.mem);
      CachedMarked(m.space, m.mem, AfterMark(m.mem, ms[k]), m.curaddr, m.readlevel, m.entry, m.entryaddr);
      m.mem := AfterMark(m.mem, ms[k]);
    }
    assert ms[..|ms|] == ms;
    OthersMark(env, old(m.mem), m.mem);
  }

  lemma {:induction false} OutcomeFrom(q: Query, l: nat, m: nat)
    requires QueryOk(q) && l <= m < q.s.levels
    requires forall k :: l < k <= m ==>
      Check(q.s, q.d, EntryOf(q.s, q.mem, q.ix, k), k) == Success && !Large(k, EntryOf(q.s, q.mem, q.ix, k))
    ensures Outcome(q.s, q.d, q.mem, q.ix, m) == Outcome(q.s, q.d, q.mem, q.ix, l)
    ensures Leaf(q.s, q.mem, q.ix, m) == Leaf(q.s, q.mem, q.ix, l)
  {
    if l < m {
      OutcomeFrom(q, l, m - 1);
    }
  }

  /** The walk has found the entry of level readlevel as the architecture would. */
  lemma OutcomeAt(q: Query, env: Others, w: View, l: nat)
    requires At(q, env, w, l) && w.readlevel < q.s.levels
    ensures Outcome(q.s, q.d, q.mem, q.ix, q.s.levels - 1) == Outcome(q.s, q.d, q.mem, q.ix, w.readlevel)
    ensures LeafOf(q) == Leaf(q.s, q.mem, q.ix, w.readlevel)
    ensures Reaches(q.s, q.mem, q.ix, w.readlevel)
  {
    forall k | w.readlevel <= k < q.s.levels
      ensures Large(k, w.entry[k]) == Large(k, EntryOf(q.s, q.mem, q.ix, k))
      ensures w.entry[k].p == EntryOf(q.s, q.mem, q.ix, k).p
      ensures Passed(q, k, w.entry[k]) ==> Check(q.s, q.d, EntryOf(q.s, q.mem, q.ix, k), k) == Success
    {
      HeldEntry(q, env, w, k);
    }
    OutcomeFrom(q, w.readlevel, q.s.levels - 1);
  }

  /** A refused check is the outcome. */
  lemma Refused(q: Query, env: Others, w: View, l: nat)
    requires At(q, env, w, l) && w.readlevel == l && Check(q.s, q.d, w.entry[l], l) != Success
    ensures Outcome(q.s, q.d, q.mem, q.ix, q.s.levels - 1) == Check(q.s, q.d, w.entry[l], l)
  {
    OutcomeAt(q, env, w, l);
    HeldEntry(q, env, w, l);
  }

  /** A part of a large page needs no mark. */
  lemma PartPasses(q: Query, env: Others, w: View, l: nat)
    requires At(q, env, w, l) && l < w.readlevel < q.s.levels && Large(w.readlevel, w.entry[w.readlevel])
    ensures var e := Part(q.s, w.entry[w.readlevel], w.readlevel, l, q.ix);
      Check(q.s, q.d, e, l) == Success && e.a && (q.d.write ==> e.d) && Done(q, env, w, l)
  {
    assert Passed(q, w.readlevel, w.entry[w.readlevel]);
    assert !Bare(q.s, w.readlevel) by {
      HeldEntry(q, env, w, w.readlevel);
    }
    CheckPart(q.s, q.d, w.entry[w.readlevel], w.readlevel, l, q.ix);
  }

  /** The entry after set_ad_bit. */
  function WithMarks(s: Space, d: Access, e: Entry, l: nat): Entry {
    e.(a := true, d := e.d || (d.write && (l == 0 || Large(l, e))))
  }

  lemma MarkCaused(q: Query, env: Others, w: View, l: nat)
    requires At(q, env, w, l) && w.readlevel == l && Check(q.s, q.d, w.entry[l], l) == Success && !Bare(q.s, l)
    requires w.mem[w.entryaddr[l]] == w.entry[l]
    ensures var e := WithMarks(q.s, q.d, w.entry[l], l);
      && Passed(q, l, e) && Marked(w.entry[l], e)
      && Caused(q, env, w.entryaddr[l], e)
  {
    OutcomeAt(q, env, w, l);
    HeldEntry(q, env, w, l);
    var e := WithMarks(q.s, q.d, w.entry[l], l);
    CheckMarked(q.s, q.d, w.entry[l], e, l);
    assert OnPath(q.s, q.mem, q.ix, w.entryaddr[l]);
    assert Caused(q, env, w.entryaddr[l], w.mem[w.entryaddr[l]]);
  }

  lemma StillJustified(q: Query, env: Others, m: Memory, m': Memory)
    requires QueryOk(q) && Total(m) && Total(m') && Justified(q, env, m) && OthersOnly(env, m, m')
    ensures Justified(q, env, m')
  {
    forall t: Slot ensures Caused(q, env, t, m'[t]) {
      assert Caused(q, env, t, m[t]) && ByOthers(env, t, m[t], m'[t]);
    }
  }

  lemma StillAt(q: Query, env: Others, w: View, l: nat, m': Memory)
    requires At(q, env, w, l) && Total(m') && OthersOk(q.s, env)
    requires OthersOnly(env, w.mem, m') && RootKept(q.s, env, w.mem, m')
    ensures At(q, env, w.(mem := m'), l)
  {
    StillJustified(q, env, w.mem, m');
    assert OnlyMarked(w.mem, m');
    CachedMarked(q.s, w.mem, m', q.ix, w.readlevel, w.entry, w.entryaddr);
  }

  ghost function ViewOf(m: Pmap): View
    reads m
  {
    View(m.mem, m.readlevel, m.entry, m.entryaddr)
  }

  /** The cursor serves the walk. */
  ghost predicate Serves(m: Pmap, q: Query, env: Others, l: nat)
    reads m
  {
    && m.Valid() && m.atomic && m.space == q.s && m.curaddr == q.ix && m.curlevel == l
    && OthersOk(q.s, env) && At(q, env, ViewOf(m), l)
  }

  /** Other CPUs run during the walk. */
  method Pause(m: Pmap, ghost q: Query, env: Others, n: nat, l: nat)
    requires Serves(m, q, env, l)
    modifies m`mem
    ensures Serves(m, q, env, l) && m.mem == AfterMarks(old(m.mem), env(n))
  {
    ghost var w := ViewOf(m);
    Interfere(m, env, n);
    StillAt(q, env, w, l, m.mem);
  }

  /** What the walk reports of level l. */
  function Shown(s: Space, w: View, l: nat, ix: seq<nat>): Entry
    requires SpaceOk(s) && AddressOk(s, ix) && |w.entry| == s.levels + 1 && l < s.levels
  {
    if w.readlevel <= l then if Bare(s, l) then w.entry[l].(rw := true, us := true, a := true) else w.entry[l]
    else if w.readlevel < s.levels && Large(w.readlevel, w.entry[w.readlevel]) then
      Part(s, w.entry[w.readlevel], w.readlevel, l, ix)
    else ZERO
  }

  ghost predicate SameShown(q: Query, w: View, w': View, l: nat) {
    && SpaceOk(q.s) && AddressOk(q.s, q.ix) && |w.entry| == |w'.entry| == q.s.levels + 1
    && forall k :: l < k < q.s.levels ==> Shown(q.s, w', k, q.ix) == Shown(q.s, w, k, q.ix)
  }

  lemma ShownKept(q: Query, env: Others, w: View, w': View, l: nat)
    requires At(q, env, w, l) && l <= w'.readlevel <= w.readlevel && |w'.entry| == |w.entry|
    requires forall k :: w.readlevel <= k < q.s.levels ==> w'.entry[k] == w.entry[k]
    requires w.readlevel < q.s.levels && Large(w.readlevel, w.entry[w.readlevel]) && l < w.readlevel ==>
      w'.readlevel == w.readlevel
    ensures SameShown(q, w, w', l)
  {
  }

  /** The cursor has read down to level l, or to a large page. */
  ghost predicate ReadTo(q: Query, w: View, w': View, l: nat) {
    && ViewOk(q, w) && ViewOk(q, w') && w'.mem == w.mem && l <= w'.readlevel <= w.readlevel
    && (forall k :: w.readlevel <= k < q.s.levels ==> w'.entry[k] == w.entry[k])
    && (forall k :: w'.readlevel <= k < w.readlevel && k < q.s.levels ==> w'.entry[k] == w.mem[w'.entryaddr[k]])
    && (l < w'.readlevel ==>
          w'.readlevel < q.s.levels && (w'.entry[w'.readlevel].p ==> Large(w'.readlevel, w'.entry[w'.readlevel])))
    && (w.readlevel < q.s.levels && Large(w.readlevel, w.entry[w.readlevel]) && l < w.readlevel ==>
          w'.readlevel == w.readlevel)
  }

  /** Reading keeps the walk at level l. */
  lemma ReadAt(q: Query, env: Others, w: View, w': View, l: nat)
    requires At(q, env, w, l) && ReadTo(q, w, w', l)
    ensures At(q, env, w', l)
    ensures l < w'.readlevel ==> Large(w'.readlevel, w'.entry[w'.readlevel])
    ensures SameShown(q, w, w', l)
  {
    ShownKept(q, env, w, w', l);
    if l + 1 < w.readlevel {
      assert w'.readlevel == w.readlevel;
    } else if w'.readlevel == l + 1 {
      assert Passed(q, l + 1, w.entry[l + 1]);
    }
    if w'.readlevel == l && Bare(q.s, l) {
      assert w'.entryaddr[l] == Slot(q.s.root, q.s.off + q.ix[l]);
      assert SlotOf(q.s, q.mem, q.ix, l) == Slot(q.s.root, q.s.off + q.ix[l]);
    }
  }

  function Missing(e: Entry): nat {
    (if e.a then 0 else 1) + if e.d then 0 else 1
  }

  /** What the caller gets of levels l and up. */
  ghost predicate Reported(q: Query, w: View, entries: seq<Entry>, l: nat) {
    && SpaceOk(q.s) && AddressOk(q.s, q.ix) && |w.entry| == |entries| == q.s.levels + 1
    && entries[q.s.levels].rw && entries[q.s.levels].us && entries[q.s.levels].a
    && forall k :: l <= k < q.s.levels ==> entries[k] == Shown(q.s, w, k, q.ix)
  }

  /** The entry of level k as the caller gets it, with the given marks: a bare entry seems to permit everything. */
  ghost function AsReported(q: Query, k: nat, a: bool, d: bool): Entry
    requires QueryOk(q) && k < q.s.levels
  {
    var e := EntryOf(q.s, q.mem, q.ix, k);
    if Bare(q.s, k) then e.(rw := true, us := true, a := true) else e.(a := a, d := d)
  }

  lemma RealReported(q: Query, env: Others, w: View, entries: seq<Entry>, k: nat)
    requires Done(q, env, w, 0) && Reported(q, w, entries, 0) && LeafOf(q) <= k < q.s.levels
    ensures entries[k] == AsReported(q, k, entries[k].a, entries[k].d) && entries[k].a
  {
    LeafHeld(q, env, w);
    HeldEntry(q, env, w, k);
    assert Passed(q, k, w.entry[k]);
    assert entries[k] == Shown(q.s, w, k, q.ix);
    if !Bare(q.s, k) {
      assert Marked(EntryOf(q.s, q.mem, q.ix, k), w.mem[w.entryaddr[k]]) && Marked(w.entry[k], w.mem[w.entryaddr[k]]);
    }
  }

  /** What the caller gets of the level between a page of 1 GiB and its small part: the 2 MiB page there. */
  ghost predicate Between(q: Query, e: Entry, x: Entry)
    requires QueryOk(q)
  {
    && x.ps && x.addr / 512 == e.addr / 0x4_0000 * 512 + q.ix[1] && x.addr % 512 == e.addr % 512
    && x.p && x.rw == e.rw && x.us == e.us && x.nx == e.nx && x.attr == e.attr && x.g == e.g && x.a
    && (q.d.write ==> x.d)
  }

  /** The answer to a successful walk: the frame that the architecture maps, all marks set, nothing else changed. */
  ghost predicate Answered(q: Query, env: Others, m: Memory, entries: seq<Entry>) {
    && QueryOk(q) && Total(m) && |entries| == q.s.levels + 1 && Justified(q, env, m)
    && var leaf := LeafOf(q);
    var e := EntryOf(q.s, q.mem, q.ix, leaf);
    && entries[q.s.levels].rw && entries[q.s.levels].us && entries[q.s.levels].a
    && leaf <= 2 && (leaf > 0 ==> e.ps)
    && (forall k :: leaf < k <= 2 && k < q.s.levels ==> !EntryOf(q.s, q.mem, q.ix, k).ps)
    && SmallOf(q.s, e, leaf, q.ix, entries[0])
    && (leaf == 2 ==> Between(q, e, entries[1]))
    && (forall k :: leaf <= k < q.s.levels ==>
      entries[k] == AsReported(q, k, entries[k].a, entries[k].d) && entries[k].a)
    && (forall k :: leaf <= k < q.s.levels && !Bare(q.s, k) ==> m[SlotOf(q.s, q.mem, q.ix, k)].a)
    && (q.d.write ==> m[SlotOf(q.s, q.mem, q.ix, leaf)].d)
  }

  method ReadView(m: Pmap, ghost q: Query, l: nat) returns (e: Entry)
    requires m.Valid() && m.curlevel == l < m.space.levels && l <= m.readlevel && ViewOk(q, ViewOf(m))
    requires m.space == q.s && m.curaddr == q.ix
    modifies m`readlevel, m`entry, m`entryaddr
    ensures m.Valid() && ReadTo(q, old(ViewOf(m)), ViewOf(m), l) && m.readlevel < q.s.levels
    ensures m.readlevel == l ==> e == m.entry[l]
    ensures m.readlevel > l ==>
      if m.entry[m.readlevel].p then e == Part(q.s, m.entry[m.readlevel], m.readlevel, l, q.ix) else e == ZERO
  {
    e := m.Read();
  }

  method ReadServed(m: Pmap, ghost q: Query, ghost env: Others, l: nat) returns (e: Entry)
    requires Serves(m, q, env, l)
    modifies m`readlevel, m`entry, m`entryaddr
    ensures Serves(m, q, env, l) && SameShown(q, old(ViewOf(m)), ViewOf(m), l) && m.readlevel < q.s.levels
    ensures old(m.readlevel) == l ==> m.readlevel == l && m.entry[l] == old(m.entry)[l]
    ensures m.readlevel == l ==> e == m.entry[l]
    ensures m.readlevel > l ==>
      Large(m.readlevel, m.entry[m.readlevel]) && e == Part(q.s, m.entry[m.readlevel], m.readlevel, l, q.ix)
  {
    ghost var w := ViewOf(m);
    e := ReadView(m, q, l);
    ReadAt(q, env, w, ViewOf(m), l);
  }

  /** The read of level l, after other CPUs ran. */
  method ReadLevel(m: Pmap, ghost q: Query, env: Others, n: nat, l: nat) returns (e: Entry)
    requires Serves(m, q, env, l)
    modifies m`mem, m`readlevel, m`entry, m`entryaddr
    ensures Serves(m, q, env, l) && SameShown(q, old(ViewOf(m)), ViewOf(m), l) && m.readlevel < q.s.levels
    ensures old(m.readlevel) == l ==> m.readlevel == l && m.entry[l] == old(m.entry)[l]
    ensures m.readlevel == l ==> e == m.entry[l]
    ensures m.readlevel > l ==>
      Large(m.readlevel, m.entry[m.readlevel]) && e == Part(q.s, m.entry[m.readlevel], m.readlevel, l, q.ix)
    ensures m.mem == AfterMarks(old(m.mem), env(n))
  {
    Pause(m, q, env, n, l);
    e := ReadServed(m, q, env, l);
  }

  /** The read and the checks of level l. */
  method Fetch(m: Pmap, ghost q: Query, d: Access, env: Others, n: nat, l: nat) returns (v: Verdict, e: Entry)
    requires Serves(m, q, env, l) && d == q.d
    modifies m`mem, m`readlevel, m`entry, m`entryaddr
    ensures Serves(m, q, env, l) && SameShown(q, old(ViewOf(m)), ViewOf(m), l)
    ensures v == Check(q.s, d, e, l) && m.readlevel < q.s.levels
    ensures old(m.readlevel) == l ==> m.readlevel == l && m.entry[l] == old(m.entry)[l]
    ensures m.readlevel == l ==> e == m.entry[l]
    ensures m.readlevel > l ==> v == Success && e.a && (d.write ==> e.d) && !Bare(q.s, l)
    ensures m.readlevel > l ==> Done(q, env, ViewOf(m), l) && e == Shown(q.s, ViewOf(m), l, q.ix)
    ensures v != Success ==> v == Outcome(q.s, q.d, q.mem, q.ix, q.s.levels - 1)
  {
    e := ReadLevel(m, q, env, n, l);
    v := Check(m.space, d, e, l);
    Fetched(q, env, ViewOf(m), l, e);
  }

  lemma Fetched(q: Query, env: Others, w: View, l: nat, e: Entry)
    requires At(q, env, w, l) && w.readlevel < q.s.levels
    requires w.readlevel == l ==> e == w.entry[l]
    requires w.readlevel > l ==>
      Large(w.readlevel, w.entry[w.readlevel]) && e == Part(q.s, w.entry[w.readlevel], w.readlevel, l, q.ix)
    ensures w.readlevel > l ==> Check(q.s, q.d, e, l) == Success && e.a && (q.d.write ==> e.d) && !Bare(q.s, l)
    ensures w.readlevel > l ==> Done(q, env, w, l) && e == Shown(q.s, w, l, q.ix)
    ensures Check(q.s, q.d, e, l) != Success ==>
      Check(q.s, q.d, e, l) == Outcome(q.s, q.d, q.mem, q.ix, q.s.levels - 1)
  {
    if w.readlevel > l {
      PartPasses(q, env, w, l);
    } else if Check(q.s, q.d, e, l) != Success {
      Refused(q, env, w, l);
    }
  }

  /** The bits that are missing are set. */
  method SetMarks(m: Pmap, ghost q: Query, d: Access, env: Others, n: nat, l: nat, e: Entry)
    returns (again: bool, e': Entry)
    requires Serves(m, q, env, l) && d == q.d && m.readlevel == l && !Bare(q.s, l)
    requires e == m.entry[l] && Check(q.s, q.d, e, l) == Success && WithMarks(q.s, d, e, l) != e
    modifies m`mem, m`readlevel, m`entry
    ensures Serves(m, q, env, l) && m.readlevel == l && SameShown(q, old(ViewOf(m)), ViewOf(m), l)
    ensures again ==> Missing(m.entry[l]) < Missing(e)
    ensures !again ==> Done(q, env, ViewOf(m), l) && e' == m.entry[l]
  {
    ghost var w := ViewOf(m);
    again := Mark(m, q, d, env, n, l, e);
    ShownBelow(q, w, ViewOf(m), l);
    e' := WithMarks(m.space, d, e, l);
  }

  /** Level l has been passed with entry e, or the walk is refused as the architecture has it. */
  ghost predicate Decided(q: Query, env: Others, w: View, l: nat, v: Verdict, e: Entry)
    requires ViewOk(q, w) && l < q.s.levels
  {
    if v == Success then Done(q, env, w, l) && e == Shown(q.s, w, l, q.ix)
    else v == Outcome(q.s, q.d, q.mem, q.ix, q.s.levels - 1)
  }

  /** The entry has passed the checks: what a bare one permits is filled in, and bits that are missing are set. */
  method MarkIfMissing(m: Pmap, ghost q: Query, d: Access, env: Others, n: nat, l: nat, e: Entry)
    returns (again: bool, e': Entry)
    requires Serves(m, q, env, l) && d == q.d && Check(q.s, q.d, e, l) == Success && m.readlevel < q.s.levels
    requires m.readlevel == l ==> e == m.entry[l]
    requires m.readlevel > l ==> e.a && (d.write ==> e.d) && !Bare(q.s, l)
    requires m.readlevel > l ==> Done(q, env, ViewOf(m), l) && e == Shown(q.s, ViewOf(m), l, q.ix)
    modifies m`mem, m`readlevel, m`entry
    ensures Serves(m, q, env, l) && SameShown(q, old(ViewOf(m)), ViewOf(m), l)
    ensures again ==> m.readlevel == old(m.readlevel) == l && Missing(m.entry[l]) < Missing(e)
    ensures !again ==> Done(q, env, ViewOf(m), l) && e' == Shown(q.s, ViewOf(m), l, q.ix)
  {
    again, e' := false, e;
    if Bare(m.space, l) {
      BarePasses(q, env, ViewOf(m), l);
      e' := e.(rw := true, us := true, a := true);
    }
    var setd := d.write && (l == 0 || Large(l, e'));
    if !e'.a || (setd && !e'.d) {
      again, e' := SetMarks(m, q, d, env, n, l, e');
    }
  }

  /** One try at level l: read, check, and set the bits that are missing. */
  method Visit(m: Pmap, ghost q: Query, d: Access, env: Others, n: nat, l: nat)
    returns (again: bool, v: Verdict, e: Entry)
    requires Serves(m, q, env, l) && d == q.d
    modifies m`mem, m`readlevel, m`entry, m`entryaddr
    ensures Serves(m, q, env, l) && SameShown(q, old(ViewOf(m)), ViewOf(m), l)
    ensures again ==> m.readlevel == l && (old(m.readlevel) == l ==> Missing(m.entry[l]) < Missing(old(m.entry)[l]))
    ensures !again ==> Decided(q, env, ViewOf(m), l, v, e)
  {
    v, e := Fetch(m, q, d, env, n, l);
    again := false;
    if v == Success {
      again, e := MarkIfMissing(m, q, d, env, n + 1, l, e);
    }
  }

  lemma BarePasses(q: Query, env: Others, w: View, l: nat)
    requires At(q, env, w, l) && w.readlevel == l && Bare(q.s, l) && Check(q.s, q.d, w.entry[l], l) == Success
    ensures Done(q, env, w, l) && !Large(l, w.entry[l])
  {
  }

  lemma MarkDone(q: Query, env: Others, w: View, l: nat)
    requires At(q, env, w, l) && w.readlevel == l && Check(q.s, q.d, w.entry[l], l) == Success && !Bare(q.s, l)
    requires w.mem[w.entryaddr[l]] == w.entry[l]
    ensures var e := WithMarks(q.s, q.d, w.entry[l], l);
      Done(q, env, w.(mem := w.mem[w.entryaddr[l] := e], entry := w.entry[l := e]), l)
  {
    var e := WithMarks(q.s, q.d, w.entry[l], l);
    MarkCaused(q, env, w, l);
    MarkKeeps(q.s, w.mem, q.ix, l, w.entry, w.entryaddr, l, e);
    var m' := w.mem[w.entryaddr[l] := e];
    forall t: Slot ensures Caused(q, env, t, m'[t]) {
      assert Caused(q, env, t, w.mem[t]);
    }
  }

  lemma MarkFails(q: Query, env: Others, w: View, l: nat)
    requires At(q, env, w, l) && w.readlevel == l && !Bare(q.s, l) && w.mem[w.entryaddr[l]] != w.entry[l]
    ensures At(q, env, w.(entry := w.entry[l := w.mem[w.entryaddr[l]]]), l)
    ensures Missing(w.mem[w.entryaddr[l]]) < Missing(w.entry[l])
  {
    var a, b := w.entry[l], w.mem[w.entryaddr[l]];
    assert Marked(a, b);
    assert a.a == b.a && a.d == b.d ==> a == b;
  }

  lemma ShownBelow(q: Query, w: View, w': View, l: nat)
    requires QueryOk(q) && |w.entry| == q.s.levels + 1 && w.readlevel == w'.readlevel == l < q.s.levels
    requires |w'.entry| == |w.entry| && w'.entry == w.entry[l := w'.entry[l]]
    ensures SameShown(q, w, w', l)
  {
  }

  lemma MarksAre(s: Space, d: Access, e: Entry, l: nat)
    ensures Marked(e, WithMarks(s, d, e, l))
  {
  }

  lemma AllBits(s: Space, l: nat, e: Entry)
    ensures Masked(s, l, e, ALL) == e
  {
  }

  /** The compare-and-exchange of set_ad_bit. */
  method Exchange(m: Pmap, ghost q: Query, d: Access, env: Others, l: nat, e: Entry) returns (fail: bool)
    requires Serves(m, q, env, l) && d == q.d && m.readlevel == l && !Bare(q.s, l)
    requires e == m.entry[l] && Check(q.s, q.d, e, l) == Success && WithMarks(q.s, d, e, l) != e
    modifies m`mem, m`readlevel, m`entry
    ensures m.Valid() && m.readlevel == l && fail == (old(m.mem)[m.entryaddr[l]] != e)
    ensures ViewOf(m) ==
      var w := old(ViewOf(m));
      if fail then w.(entry := w.entry[l := w.mem[w.entryaddr[l]]])
      else w.(mem := w.mem[w.entryaddr[l] := WithMarks(q.s, d, e, l)], entry := w.entry[l := WithMarks(q.s, d, e, l)])
  {
    AllBits(m.space, l, WithMarks(q.s, d, e, l));
    MarksAre(q.s, d, e, l);
    fail := m.Write(WithMarks(m.space, d, e, l), ALL, map[]);
  }

  /** set_ad_bit with the retry. */
  method Mark(m: Pmap, ghost q: Query, d: Access, env: Others, n: nat, l: nat, e: Entry) returns (fail: bool)
    requires Serves(m, q, env, l) && d == q.d && m.readlevel == l && !Bare(q.s, l)
    requires e == m.entry[l] && Check(q.s, q.d, e, l) == Success && WithMarks(q.s, d, e, l) != e
    modifies m`mem, m`readlevel, m`entry
    ensures Serves(m, q, env, l) && m.readlevel == l
    ensures fail ==> Missing(m.entry[l]) < Missing(e)
    ensures !fail ==> Done(q, env, ViewOf(m), l) && m.entry[l] == WithMarks(q.s, d, e, l)
    ensures m.entry == old(m.entry)[l := m.entry[l]]
  {
    Pause(m, q, env, n, l);
    ghost var w := ViewOf(m);
    fail := Exchange(m, q, d, env, l, e);
    if fail {
      MarkFails(q, env, w, l);
    } else {
      MarkDone(q, env, w, l);
    }
  }

  lemma StartAt(q: Query, env: Others, w: View)
    requires ViewOk(q, w) && w.mem == q.mem && w.readlevel == q.s.levels
    ensures At(q, env, w, q.s.levels - 1)
  {
  }

  lemma LeafHeld(q: Query, env: Others, w: View)
    requires Done(q, env, w, 0)
    ensures w.readlevel < q.s.levels && w.readlevel == LeafOf(q) && w.readlevel <= 2
    ensures Outcome(q.s, q.d, q.mem, q.ix, q.s.levels - 1) == Success
    ensures Marked(EntryOf(q.s, q.mem, q.ix, LeafOf(q)), w.mem[w.entryaddr[w.readlevel]])
    ensures Marked(w.entry[w.readlevel], w.mem[w.entryaddr[w.readlevel]])
    ensures Passed(q, w.readlevel, w.entry[w.readlevel])
  {
    OutcomeAt(q, env, w, 0);
    HeldEntry(q, env, w, w.readlevel);
    assert Passed(q, w.readlevel, w.entry[w.readlevel]);
    assert Caused(q, env, w.entryaddr[w.readlevel], w.mem[w.entryaddr[w.readlevel]]);
  }

  lemma AllMarked(q: Query, env: Others, w: View)
    requires Done(q, env, w, 0)
    ensures forall k :: LeafOf(q) <= k < q.s.levels && !Bare(q.s, k) ==> w.mem[SlotOf(q.s, q.mem, q.ix, k)].a
    ensures q.d.write ==> w.mem[SlotOf(q.s, q.mem, q.ix, LeafOf(q))].d
  {
    LeafHeld(q, env, w);
    forall k | LeafOf(q) <= k < q.s.levels
      ensures Passed(q, k, w.entry[k]) && w.entryaddr[k] == SlotOf(q.s, q.mem, q.ix, k)
      ensures Marked(w.entry[k], w.mem[w.entryaddr[k]])
    {
      HeldEntry(q, env, w, k);
    }
  }

  lemma LeafShown(q: Query, env: Others, w: View, e: Entry)
    requires Done(q, env, w, 0) && e == Shown(q.s, w, 0, q.ix)
    ensures LeafOf(q) <= 2 && SmallOf(q.s, EntryOf(q.s, q.mem, q.ix, LeafOf(q)), LeafOf(q), q.ix, e)
  {
    LeafHeld(q, env, w);
    MarkedAlike(EntryOf(q.s, q.mem, q.ix, LeafOf(q)), w.entry[w.readlevel], w.mem[w.entryaddr[w.readlevel]]);
    ShownIs(q.s, w, e, q.ix);
    LeafPart(q.s, EntryOf(q.s, q.mem, q.ix, LeafOf(q)), w.entry[w.readlevel], e, w.readlevel, q.ix);
  }

  lemma MiddleShown(q: Query, env: Others, w: View, e: Entry)
    requires Done(q, env, w, 0) && LeafOf(q) == 2 && 2 < q.s.levels && e == Shown(q.s, w, 1, q.ix)
    ensures Between(q, EntryOf(q.s, q.mem, q.ix, 2), e)
  {
    LeafHeld(q, env, w);
    HeldEntry(q, env, w, 2);
    PartMiddle(q.s, w.entry[2], q.ix);
    var x, y, z := EntryOf(q.s, q.mem, q.ix, 2), w.entry[2], w.mem[w.entryaddr[2]];
    assert Marked(x, z) && Marked(y, z);
    assert !Bare(q.s, 2);
  }

  lemma ShownIs(s: Space, w: View, e: Entry, ix: seq<nat>)
    requires SpaceOk(s) && AddressOk(s, ix) && |w.entry| == s.levels + 1 && w.readlevel < s.levels
    requires w.readlevel > 0 ==> Large(w.readlevel, w.entry[w.readlevel])
    requires e == Shown(s, w, 0, ix)
    ensures e == if w.readlevel == 0 then w.entry[0] else Part(s, w.entry[w.readlevel], w.readlevel, 0, ix)
  {
  }

  lemma MarkedAlike(x: Entry, y: Entry, z: Entry)
    requires Marked(x, z) && Marked(y, z)
    ensures SameLeaf(x, y)
  {
  }

  /** e maps the small page that the entry x of level l maps at ix. */
  predicate SmallOf(s: Space, x: Entry, l: nat, ix: seq<nat>, e: Entry)
    requires l < |ix| && l <= 2
  {
    && e.p && e.addr == Frame(s, x, l, ix) && e.nx == x.nx && e.attr == x.attr && e.g == x.g
    && e.rw == x.rw && e.us == x.us && (l > 0 ==> e.ps == (x.addr % 2 == 1))
  }

  /** What a small page gets from the entry y that maps it. */
  lemma LeafPart(s: Space, x: Entry, y: Entry, e: Entry, l: nat, ix: seq<nat>)
    requires SpaceOk(s) && AddressOk(s, ix) && l <= 2 && l < s.levels && SameLeaf(x, y) && y.p
    requires e == if l == 0 then y else Part(s, y, l, 0, ix)
    ensures SmallOf(s, x, l, ix, e)
  {
    SameFrame(s, x, y, l, ix);
    if l > 0 {
      PartFrame(s, y, l, ix);
    }
  }

  lemma SameFrame(s: Space, x: Entry, y: Entry, l: nat, ix: seq<nat>)
    requires x.addr == y.addr && l < |ix| && l <= 2
    ensures Frame(s, x, l, ix) == Frame(s, y, l, ix)
  {
  }

  /** Alike in all that a part takes from its large page. */
  predicate SameLeaf(x: Entry, y: Entry) {
    x.p == y.p && x.addr == y.addr && x.nx == y.nx && x.attr == y.attr && x.g == y.g && x.rw == y.rw && x.us == y.us
  }

  lemma Finished(q: Query, env: Others, w: View, entries: seq<Entry>)
    requires Done(q, env, w, 0) && Reported(q, w, entries, 0)
    ensures Outcome(q.s, q.d, q.mem, q.ix, q.s.levels - 1) == Success && Answered(q, env, w.mem, entries)
  {
    LeafHeld(q, env, w);
    AllMarked(q, env, w);
    LeafShown(q, env, w, entries[0]);
    LeafIs(q.s, q.mem, q.ix, q.s.levels - 1);
    if LeafOf(q) == 2 {
      MiddleShown(q, env, w, entries[1]);
    }
    forall k | LeafOf(q) <= k < q.s.levels
      ensures entries[k] == AsReported(q, k, entries[k].a, entries[k].d) && entries[k].a
    {
      RealReported(q, env, w, entries, k);
    }
  }

  /** One turn of the loop over the levels; a level takes at most three tries. */
  method WalkLevel(m: Pmap, ghost q: Query, d: Access, env: Others, n: nat, l: nat) returns (v: Verdict, e: Entry)
    requires m.Valid() && m.atomic && m.space == q.s && m.curaddr == q.ix && OthersOk(q.s, env) && d == q.d
    requires At(q, env, ViewOf(m), l)
    modifies m`mem, m`readlevel, m`entry, m`entryaddr, m`curlevel
    ensures m.Valid() && SameShown(q, old(ViewOf(m)), ViewOf(m), l)
    ensures Decided(q, env, ViewOf(m), l, v, e)
  {
    m.SetLevel(l + 1);
    var again, k := true, n;
    v, e := Success, ZERO;
    while again
      invariant Serves(m, q, env, l) && SameShown(q, old(ViewOf(m)), ViewOf(m), l)
      invariant !again ==> Decided(q, env, ViewOf(m), l, v, e)
      decreases again, m.readlevel, Missing(m.entry[l])
    {
      again, v, e := Visit(m, q, d, env, k, l);
      k := k + 2;
    }
  }

  lemma Extends(q: Query, w: View, w': View, entries: seq<Entry>, l: nat, e: Entry)
    requires l < q.s.levels && Reported(q, w, entries, l + 1) && SameShown(q, w, w', l) && e == Shown(q.s, w', l, q.ix)
    ensures Reported(q, w', entries[l := e], l)
  {
  }

  /** The start of the walk: what is read above the root permits everything. */
  method Begin(m: Pmap, ix: seq<nat>, env: Others, ghost q: Query) returns (entries: seq<Entry>)
    requires m.Valid() && m.atomic && m.readlevel == m.space.levels
    requires q == Query(m.space, q.d, m.mem, ix) && QueryOk(q)
    modifies m
    ensures m.Valid() && m.atomic && m.space == q.s && m.curaddr == q.ix && At(q, env, ViewOf(m), q.s.levels - 1)
    ensures Reported(q, ViewOf(m), entries, q.s.levels)
  {
    var levels := m.space.levels;
    m.Seek(ix, levels + 1);
    var e := m.Read();
    entries := seq(levels + 1, _ => ZERO)[levels := e.(rw := true, us := true, a := true)];
    StartAt(q, env, ViewOf(m));
  }

  /** A level, and what the caller gets of it. */
  method NextEntry(m: Pmap, ghost q: Query, d: Access, env: Others, n: nat, l: nat, entries: seq<Entry>)
    returns (v: Verdict, entries': seq<Entry>)
    requires m.Valid() && m.atomic && m.space == q.s && m.curaddr == q.ix && OthersOk(q.s, env) && d == q.d
    requires At(q, env, ViewOf(m), l) && Reported(q, ViewOf(m), entries, l + 1)
    modifies m`mem, m`readlevel, m`entry, m`entryaddr, m`curlevel
    ensures m.Valid() && (v != Success ==> v == Outcome(q.s, q.d, q.mem, q.ix, q.s.levels - 1))
    ensures v == Success ==> Done(q, env, ViewOf(m), l) && Reported(q, ViewOf(m), entries', l)
  {
    ghost var w := ViewOf(m);
    var e;
    v, e := WalkLevel(m, q, d, env, n, l);
    entries' := entries;
    if v == Success {
      Extends(q, w, ViewOf(m), entries, l, e);
      entries' := entries[l := e];
    }
  }

  /** get_pte_sub with paging on. */
  method GetPte(m: Pmap, ix: seq<nat>, d: Access, env: Others, ghost q: Query) returns (v: Verdict, entries: seq<Entry>)
    requires m.Valid() && m.atomic && m.readlevel == m.space.levels == Levels(d) && (d.lme || d.pae || d.pse)
    requires q == Query(m.space, d, m.mem, ix) && QueryOk(q) && OthersOk(m.space, env)
    modifies m
    ensures m.Valid() && v == Outcome(q.s, d, q.mem, q.ix, q.s.levels - 1)
    ensures v == Success ==> Answered(q, env, m.mem, entries)
  {
    var levels := m.space.levels;
    entries := Begin(m, ix, env, q);
    var n := 0;
    for l := levels downto 0
      invariant m.Valid() && m.atomic && m.space == q.s && m.curaddr == q.ix
      invariant if l == levels then At(q, env, ViewOf(m), levels - 1) else Done(q, env, ViewOf(m), l)
      invariant Reported(q, ViewOf(m), entries, l)
    {
      if l < levels - 1 {
        NextLevel(q, env, ViewOf(m), l + 1);
      }
      v, entries := NextEntry(m, q, d, env, n, l, entries);
      if v != Success {
        return;
      }
      n := n + 8;
    }
    Finished(q, env, ViewOf(m), entries);
    v := Success;
  }
}
