/** The page table cursor (core/mm.c: pmap_*), which keeps the entries of its last walk. */
module Pmap {
  import opened PageTables

  /** The twelve low bits of an entry that a write takes from its argument. */
  datatype Mask = Mask(p: bool, rw: bool, us: bool, attr: bool, a: bool, d: bool, ps: bool, g: bool)

  const ALL := Mask(true, true, true, true, true, true, true, true)
  const PRESENT := Mask(true, false, false, false, false, false, false, false)

  /** What pmap_write stores at level l: RW, US and A are set by default, and D in a page table entry. */
  function Masked(s: Space, l: nat, e: Entry, m: Mask): Entry {
    var dflt := !(s.levels == 3 && l == 2);
    e.(p := m.p && e.p,
       rw := if m.rw then e.rw else dflt,
       us := if m.us then e.us else dflt,
       attr := if m.attr then e.attr else 0,
       a := if m.a then e.a else dflt,
       d := if m.d then e.d else l == 0,
       ps := m.ps && e.ps,
       g := m.g && e.g)
  }

  /** Bit by bit: what the mask names comes from the argument. Of the rest, RW, US and A are set but in the entries of a
      PAE page directory pointer table, D is set in a page table entry only, and everything else is clear. */
  lemma MaskedBits(s: Space, l: nat, e: Entry, m: Mask)
    ensures var x, bare := Masked(s, l, e, m), s.levels == 3 && l == 2;
      && x.addr == e.addr && x.avl == e.avl && x.nx == e.nx
      && (m.rw ==> x.rw == e.rw) && (!m.rw ==> x.rw == !bare)
      && (m.us ==> x.us == e.us) && (!m.us ==> x.us == !bare)
      && (m.a ==> x.a == e.a) && (!m.a ==> x.a == !bare)
      && (m.d ==> x.d == e.d) && (!m.d ==> (x.d <==> l == 0))
      && (x.p <==> m.p && e.p) && (x.ps <==> m.ps && e.ps) && (x.g <==> m.g && e.g)
      && (m.attr ==> x.attr == e.attr) && (!m.attr ==> x.attr == 0)
  {
  }

  /** The cursor holds the entries from level readlevel up, perhaps without marks made since. */
  ghost predicate Cached(s: Space, mem: Memory, ix: seq<nat>, readlevel: nat, entry: seq<Entry>, entryaddr: seq<Slot>)
    requires SpaceOk(s) && AddressOk(s, ix) && Total(mem) && |entry| == |entryaddr| == s.levels + 1
  {
    forall k :: readlevel <= k < s.levels ==>
      && entryaddr[k] == SlotOf(s, mem, ix, k)
      && Marked(entry[k], EntryOf(s, mem, ix, k))
      && (readlevel < k ==> entry[k].p && !Large(k, entry[k]))
  }

  ghost predicate Current(s: Space, mem: Memory, readlevel: nat, entry: seq<Entry>, entryaddr: seq<Slot>)
    requires SpaceOk(s) && Total(mem) && |entry| == |entryaddr| == s.levels + 1
  {
    forall k :: readlevel <= k < s.levels ==> entry[k] == mem[entryaddr[k]]
  }

  lemma SmallMarked(s: Space, a: Entry, b: Entry, ix: seq<nat>)
    requires |ix| > 0 && Marked(a, b)
    ensures Marked(SmallPart(s, a, ix), SmallPart(s, b, ix))
  {
    assert SmallAddr(s, a.addr, ix[0]) == SmallAddr(s, b.addr, ix[0]);
    var small, ps := SmallAddr(s, a.addr, ix[0]), a.addr % 2 == 1;
    assert SmallPart(s, b, ix) == b.(ps := ps, addr := small);
  }

  lemma MiddleMarked(a: Entry, b: Entry, ix: seq<nat>)
    requires |ix| > 1 && Marked(a, b)
    ensures Marked(MiddlePart(a, ix), MiddlePart(b, ix))
  {
    var middle := MiddlePart(a, ix).addr;
    assert MiddlePart(b, ix) == b.(addr := middle);
  }

  lemma PartMarked(s: Space, a: Entry, b: Entry, l: nat, target: nat, ix: seq<nat>)
    requires target < l && |ix| > l && (l == 1 || l == 2) && Marked(a, b)
    ensures Marked(Part(s, a, l, target, ix), Part(s, b, l, target, ix))
  {
    if l == 1 {
      SmallMarked(s, a, b, ix);
    } else {
      MiddleMarked(a, b, ix);
      SmallMarked(s, MiddlePart(a, ix), MiddlePart(b, ix), ix);
    }
  }

  lemma CachedReaches(s: Space, mem: Memory, ix: seq<nat>, readlevel: nat, entry: seq<Entry>, entryaddr: seq<Slot>)
    requires SpaceOk(s) && AddressOk(s, ix) && Total(mem) && |entry| == |entryaddr| == s.levels + 1
    requires Cached(s, mem, ix, readlevel, entry, entryaddr)
    ensures Reaches(s, mem, ix, readlevel)
  {
  }

  /** The cursor has the entry that the walk looks for. */
  lemma CachedEntry(s: Space, mem: Memory, ix: seq<nat>, readlevel: nat, entry: seq<Entry>, entryaddr: seq<Slot>,
                    target: nat)
    requires SpaceOk(s) && AddressOk(s, ix) && Total(mem) && |entry| == |entryaddr| == s.levels + 1
    requires Cached(s, mem, ix, readlevel, entry, entryaddr) && readlevel <= target < s.levels
    ensures Marked(entry[target], Walk(s, mem, ix, target))
    ensures Current(s, mem, readlevel, entry, entryaddr) ==> entry[target] == Walk(s, mem, ix, target)
  {
    assert Reaches(s, mem, ix, target);
    FindFrom(s, mem, ix, target, s.levels - 1, target);
  }

  /** The walk ends above the level it looks for, at an entry that is not present or maps a large page. */
  lemma CachedStop(s: Space, mem: Memory, ix: seq<nat>, readlevel: nat, entry: seq<Entry>, entryaddr: seq<Slot>,
                   target: nat)
    requires SpaceOk(s) && AddressOk(s, ix) && Total(mem) && |entry| == |entryaddr| == s.levels + 1
    requires Cached(s, mem, ix, readlevel, entry, entryaddr) && target < readlevel < s.levels
    requires entry[readlevel].p ==> Large(readlevel, entry[readlevel])
    ensures var e := entry[readlevel];
      var r := if e.p then Part(s, e, readlevel, target, ix) else ZERO;
      && Marked(r, Walk(s, mem, ix, target))
      && (Current(s, mem, readlevel, entry, entryaddr) ==> r == Walk(s, mem, ix, target))
  {
    CachedReaches(s, mem, ix, readlevel, entry, entryaddr);
    FindFrom(s, mem, ix, readlevel, s.levels - 1, target);
    if entry[readlevel].p {
      PartMarked(s, entry[readlevel], EntryOf(s, mem, ix, readlevel), readlevel, target, ix);
    }
  }

  /** depth gives the level of every table of the tree, and no table has two entries that point to it. */
  ghost predicate Tree(s: Space, mem: Memory, depth: map<nat, nat>)
    requires SpaceOk(s) && Total(mem)
  {
    && s.root in depth && depth[s.root] == s.levels - 1
    && (forall t: Slot :: Links(mem, depth, t) ==> Base(mem[t]) in depth && depth[Base(mem[t])] + 1 == depth[t.page])
    && (forall t: Slot, u: Slot :: Links(mem, depth, t) && Links(mem, depth, u) && Base(mem[t]) == Base(mem[u]) ==>
      t == u)
  }

  /** The entry at t points to a table. */
  ghost predicate Links(mem: Memory, depth: map<nat, nat>, t: Slot)
    requires Total(mem)
  {
    t.page in depth && depth[t.page] > 0 && mem[t].p && !Large(depth[t.page], mem[t])
  }

  lemma {:induction false} TreeLevel(s: Space, mem: Memory, depth: map<nat, nat>, ix: seq<nat>, l: nat)
    requires SpaceOk(s) && AddressOk(s, ix) && Total(mem) && Tree(s, mem, depth) && l < s.levels
    requires Reaches(s, mem, ix, l)
    ensures SlotOf(s, mem, ix, l).page in depth && depth[SlotOf(s, mem, ix, l).page] == l
    decreases s.levels - l
  {
    if l < s.levels - 1 {
      TreeLevel(s, mem, depth, ix, l + 1);
      assert EntryOf(s, mem, ix, l + 1).p && !Large(l + 1, EntryOf(s, mem, ix, l + 1));
      assert Links(mem, depth, SlotOf(s, mem, ix, l + 1));
    }
  }

  lemma PathLinks(s: Space, mem: Memory, depth: map<nat, nat>, ix: seq<nat>, l: nat)
    requires SpaceOk(s) && AddressOk(s, ix) && Total(mem) && Tree(s, mem, depth) && l + 1 < s.levels
    requires Reaches(s, mem, ix, l)
    ensures Reaches(s, mem, ix, l + 1) && Links(mem, depth, SlotOf(s, mem, ix, l + 1))
  {
    TreeLevel(s, mem, depth, ix, l + 1);
    assert EntryOf(s, mem, ix, l + 1).p && !Large(l + 1, EntryOf(s, mem, ix, l + 1));
  }

  /** Addresses that reach one slot agree from its level up. */
  lemma {:induction false} TreePath(s: Space, mem: Memory, depth: map<nat, nat>, a: seq<nat>, b: seq<nat>, l: nat)
    requires SpaceOk(s) && AddressOk(s, a) && AddressOk(s, b) && Total(mem) && Tree(s, mem, depth) && l < s.levels
    requires Reaches(s, mem, a, l) && Reaches(s, mem, b, l) && SlotOf(s, mem, a, l) == SlotOf(s, mem, b, l)
    ensures a[l..] == b[l..]
    decreases s.levels - l
  {
    assert a[l] == b[l];
    assert a[l..] == [a[l]] + a[l + 1..] && b[l..] == [b[l]] + b[l + 1..];
    if l < s.levels - 1 {
      PathLinks(s, mem, depth, a, l);
      PathLinks(s, mem, depth, b, l);
      TreePath(s, mem, depth, a, b, l + 1);
    }
  }

  /** A store to a slot that the walk does not read leaves the walk as it is. */
  lemma {:induction false} StoreElsewhere(s: Space, m: Memory, m': Memory, w: Slot, ix: seq<nat>, l: nat)
    requires SpaceOk(s) && AddressOk(s, ix) && Total(m) && Total(m') && l < s.levels && Reaches(s, m, ix, l)
    requires forall t :: t != w ==> m'[t] == m[t]
    requires forall k :: l <= k < s.levels ==> SlotOf(s, m, ix, k) != w
    ensures SlotOf(s, m', ix, l) == SlotOf(s, m, ix, l) && EntryOf(s, m', ix, l) == EntryOf(s, m, ix, l)
    ensures Reaches(s, m', ix, l)
    decreases s.levels - l
  {
    if l < s.levels - 1 {
      assert Reaches(s, m, ix, l + 1);
      StoreElsewhere(s, m, m', w, ix, l + 1);
    }
  }

  lemma {:induction false} FindElsewhere(s: Space, m: Memory, m': Memory, w: Slot, ix: seq<nat>, l: nat, target: nat)
    requires SpaceOk(s) && AddressOk(s, ix) && Total(m) && Total(m') && target <= l < s.levels && Reaches(s, m, ix, l)
    requires forall t :: t != w ==> m'[t] == m[t]
    requires forall k :: 0 <= k < s.levels && Reaches(s, m, ix, k) ==> SlotOf(s, m, ix, k) != w
    ensures Find(s, m', ix, l, target) == Find(s, m, ix, l, target)
  {
    forall k | l <= k < s.levels ensures SlotOf(s, m, ix, k) != w {
      assert Reaches(s, m, ix, k);
    }
    StoreElsewhere(s, m, m', w, ix, l);
    var e := EntryOf(s, m, ix, l);
    if l > target && e.p && !Large(l, e) {
      assert Reaches(s, m, ix, l - 1);
      FindElsewhere(s, m, m', w, ix, l - 1, target);
    }
  }

  /** In a tree, a store at level l for ix concerns the addresses that agree with ix from level l up, and no others. */
  lemma StoreIsLocal(s: Space, m: Memory, e: Entry, depth: map<nat, nat>, ix: seq<nat>, iy: seq<nat>, l: nat,
                     target: nat)
    requires SpaceOk(s) && AddressOk(s, ix) && AddressOk(s, iy) && Total(m) && Tree(s, m, depth) && l < s.levels
    requires target < s.levels && Reaches(s, m, ix, l) && (ix[l..] != iy[l..] || target > l)
    ensures Walk(s, m[SlotOf(s, m, ix, l) := e], iy, target) == Walk(s, m, iy, target)
  {
    var w := SlotOf(s, m, ix, l);
    TreeLevel(s, m, depth, ix, l);
    if ix[l..] != iy[l..] {
      forall k | 0 <= k < s.levels && Reaches(s, m, iy, k) ensures SlotOf(s, m, iy, k) != w {
        TreeLevel(s, m, depth, iy, k);
        if SlotOf(s, m, iy, k) == w {
          TreePath(s, m, depth, ix, iy, l);
        }
      }
      FindElsewhere(s, m, m[w := e], w, iy, s.levels - 1, target);
    } else {
      FindAbove(s, m, m[w := e], w, depth, iy, l, s.levels - 1, target);
    }
  }

  lemma {:induction false} FindAbove(s: Space, m: Memory, m': Memory, w: Slot, depth: map<nat, nat>, ix: seq<nat>,
                                     l: nat, k: nat, target: nat)
    requires SpaceOk(s) && AddressOk(s, ix) && Total(m) && Total(m') && Tree(s, m, depth)
    requires l < target <= k < s.levels && Reaches(s, m, ix, k)
    requires forall t :: t != w ==> m'[t] == m[t]
    requires w.page in depth && depth[w.page] == l
    ensures Find(s, m', ix, k, target) == Find(s, m, ix, k, target)
  {
    forall j | k <= j < s.levels ensures SlotOf(s, m, ix, j) != w {
      assert Reaches(s, m, ix, j);
      TreeLevel(s, m, depth, ix, j);
    }
    StoreElsewhere(s, m, m', w, ix, k);
    var e := EntryOf(s, m, ix, k);
    if k > target && e.p && !Large(k, e) {
      assert Reaches(s, m, ix, k - 1);
      FindAbove(s, m, m', w, depth, ix, l, k - 1, target);
    }
  }

  lemma MarkKeeps(s: Space, mem: Memory, ix: seq<nat>, readlevel: nat, entry: seq<Entry>, entryaddr: seq<Slot>,
                  c: nat, x: Entry)
    requires SpaceOk(s) && AddressOk(s, ix) && Total(mem) && |entry| == |entryaddr| == s.levels + 1
    requires Cached(s, mem, ix, readlevel, entry, entryaddr) && readlevel <= c < s.levels
    requires mem[entryaddr[c]] == entry[c] && Marked(entry[c], x)
    ensures Cached(s, mem[entryaddr[c] := x], ix, readlevel, entry[c := x], entryaddr)
    ensures OnlyMarked(mem, mem[entryaddr[c] := x])
  {
    var mem' := mem[entryaddr[c] := x];
    forall k | readlevel <= k < s.levels
      ensures SlotOf(s, mem', ix, k) == SlotOf(s, mem, ix, k) && Marked(EntryOf(s, mem, ix, k), EntryOf(s, mem', ix, k))
    {
      MarkedSlots(s, mem, mem', ix, k);
    }
  }

  lemma StoreKeeps(s: Space, mem: Memory, ix: seq<nat>, readlevel: nat, entry: seq<Entry>, entryaddr: seq<Slot>,
                   c: nat, x: Entry, depth: map<nat, nat>)
    requires SpaceOk(s) && AddressOk(s, ix) && Total(mem) && |entry| == |entryaddr| == s.levels + 1
    requires Cached(s, mem, ix, readlevel, entry, entryaddr) && readlevel <= c < s.levels && Tree(s, mem, depth)
    requires readlevel < c ==> x.p && !Large(c, x) && Base(x) == Base(entry[c])
    ensures Cached(s, mem[entryaddr[c] := x], ix, readlevel, entry[c := x], entryaddr)
    ensures Current(s, mem, readlevel, entry, entryaddr) ==>
      Current(s, mem[entryaddr[c] := x], readlevel, entry[c := x], entryaddr)
  {
    var w, mem' := entryaddr[c], mem[entryaddr[c] := x];
    forall k | readlevel <= k < s.levels && k != c ensures SlotOf(s, mem, ix, k) != w {
      assert Reaches(s, mem, ix, k) && Reaches(s, mem, ix, c);
      TreeLevel(s, mem, depth, ix, k);
      TreeLevel(s, mem, depth, ix, c);
    }
    forall k | readlevel <= k < s.levels ensures SlotOf(s, mem', ix, k) == SlotOf(s, mem, ix, k) {
      StoreSlots(s, mem, ix, readlevel, c, x, k);
    }
  }

  lemma {:induction false} StoreSlots(s: Space, mem: Memory, ix: seq<nat>, readlevel: nat, c: nat, x: Entry, k: nat)
    requires SpaceOk(s) && AddressOk(s, ix) && Total(mem) && readlevel <= c < s.levels && readlevel <= k < s.levels
    requires forall j :: readlevel <= j < s.levels && j != c ==> SlotOf(s, mem, ix, j) != SlotOf(s, mem, ix, c)
    requires readlevel < c ==> Base(x) == Base(EntryOf(s, mem, ix, c))
    ensures SlotOf(s, mem[SlotOf(s, mem, ix, c) := x], ix, k) == SlotOf(s, mem, ix, k)
    decreases s.levels - k
  {
    if k < s.levels - 1 {
      StoreSlots(s, mem, ix, readlevel, c, x, k + 1);
    }
  }

  ghost predicate NewPages(pages: seq<nat>, depth: map<nat, nat>) {
    && (forall k :: 0 <= k < |pages| ==> pages[k] !in depth && pages[k] < 0x10_0000_0000)
    && (forall j, k :: 0 <= j < k < |pages| ==> pages[j] != pages[k])
  }

  /** Tables came from pages. */
  ghost predicate UsesOnly(depth': map<nat, nat>, depth: map<nat, nat>, pages: seq<nat>) {
    forall p :: p in depth' ==> p in depth || p in pages
  }

  lemma RestNew(pages: seq<nat>, n: nat, depth: map<nat, nat>, l: nat)
    requires n < |pages| && NewPages(pages[n..], depth)
    ensures NewPages(pages[n + 1..], depth[pages[n] := l])
    ensures pages[n] !in depth && pages[n] < 0x10_0000_0000
  {
    assert pages[n..][0] == pages[n];
    assert pages[n..] == [pages[n]] + pages[n + 1..];
  }

  lemma LinkEntry(s: Space, l: nat, page: nat)
    requires page < 0x10_0000_0000
    ensures var x := Masked(s, l, ZERO.(p := true, addr := page), PRESENT);
      x.p && !x.ps && Base(x) == page && Open(s, l, x)
  {
  }

  /** A link that leaves the rights to the entries below it. */
  predicate Open(s: Space, l: nat, x: Entry) {
    !(s.levels == 3 && l == 2) ==> x.rw && x.us && x.a && !x.nx
  }

  ghost predicate Cleared(m: Memory, m': Memory, page: nat)
    requires Total(m) && Total(m')
  {
    forall t: Slot :: m'[t] == if t.page == page then ZERO else m[t]
  }

  lemma {:induction false} ClearSlots(s: Space, m: Memory, m': Memory, page: nat, depth: map<nat, nat>, ix: seq<nat>,
                                      l: nat)
    requires SpaceOk(s) && AddressOk(s, ix) && Total(m) && Total(m') && Tree(s, m, depth) && l < s.levels
    requires Cleared(m, m', page) && page !in depth && Reaches(s, m, ix, l)
    ensures SlotOf(s, m', ix, l) == SlotOf(s, m, ix, l) && EntryOf(s, m', ix, l) == EntryOf(s, m, ix, l)
    decreases s.levels - l
  {
    TreeLevel(s, m, depth, ix, l);
    if l < s.levels - 1 {
      assert Reaches(s, m, ix, l + 1);
      ClearSlots(s, m, m', page, depth, ix, l + 1);
    }
  }

  lemma ClearTree(s: Space, m: Memory, m': Memory, page: nat, depth: map<nat, nat>)
    requires SpaceOk(s) && Total(m) && Total(m') && Tree(s, m, depth) && Cleared(m, m', page) && page !in depth
    ensures Tree(s, m', depth)
  {
    assert forall t :: Links(m', depth, t) ==> Links(m, depth, t) && m'[t] == m[t];
  }

  /** A new table is linked below the entry of level l for ix. */
  ghost predicate Linked(s: Space, m: Memory, m': Memory, depth: map<nat, nat>, ix: seq<nat>, l: nat, page: nat)
    requires SpaceOk(s) && AddressOk(s, ix) && Total(m) && Total(m') && 0 < l < s.levels
  {
    && Tree(s, m, depth) && Reaches(s, m, ix, l) && !EntryOf(s, m, ix, l).p && page !in depth
    && var w := SlotOf(s, m, ix, l);
    && m'[w].p && !m'[w].ps && Base(m'[w]) == page
    && forall t: Slot :: t != w ==> m'[t] == if t.page == page then ZERO else m[t]
  }

  lemma LinkTree(s: Space, m: Memory, m': Memory, depth: map<nat, nat>, ix: seq<nat>, l: nat, page: nat)
    requires SpaceOk(s) && AddressOk(s, ix) && Total(m) && Total(m') && 0 < l < s.levels
    requires Linked(s, m, m', depth, ix, l, page)
    ensures Tree(s, m', depth[page := l - 1])
  {
    var w, depth' := SlotOf(s, m, ix, l), depth[page := l - 1];
    TreeLevel(s, m, depth, ix, l);
    forall t | Links(m', depth', t) && t != w ensures Links(m, depth, t) && m'[t] == m[t] {
      assert t.page != page;
    }
    assert !Links(m, depth, w);
  }

  /** The slots of an address, down to the new link. */
  lemma LinkSlots(s: Space, m: Memory, m': Memory, depth: map<nat, nat>, ix: seq<nat>, l: nat, page: nat, iy: seq<nat>,
                  k: nat)
    requires SpaceOk(s) && AddressOk(s, ix) && AddressOk(s, iy) && Total(m) && Total(m') && 0 < l < s.levels
    requires Linked(s, m, m', depth, ix, l, page) && k < s.levels && Reaches(s, m, iy, k)
    ensures SlotOf(s, m', iy, k) == SlotOf(s, m, iy, k) && Reaches(s, m', iy, k)
    ensures SlotOf(s, m, iy, k) != SlotOf(s, m, ix, l) ==> EntryOf(s, m', iy, k) == EntryOf(s, m, iy, k)
    decreases s.levels - k
  {
    TreeLevel(s, m, depth, iy, k);
    if k < s.levels - 1 {
      PathLinks(s, m, depth, iy, k);
      LinkSlots(s, m, m', depth, ix, l, page, iy, k + 1);
      assert EntryOf(s, m', iy, k + 1) == EntryOf(s, m, iy, k + 1);
    }
  }

  /** Below the new link nothing is mapped, as before. */
  lemma {:induction false} LinkFind(s: Space, m: Memory, m': Memory, depth: map<nat, nat>, ix: seq<nat>, l: nat,
                                    page: nat, iy: seq<nat>, k: nat, target: nat)
    requires SpaceOk(s) && AddressOk(s, ix) && AddressOk(s, iy) && Total(m) && Total(m') && 0 < l < s.levels
    requires Linked(s, m, m', depth, ix, l, page) && k < s.levels && Reaches(s, m, iy, k) && target <= k && target < l
    ensures Find(s, m', iy, k, target) == Find(s, m, iy, k, target)
  {
    LinkSlots(s, m, m', depth, ix, l, page, iy, k);
    TreeLevel(s, m, depth, iy, k);
    TreeLevel(s, m, depth, ix, l);
    var e := EntryOf(s, m, iy, k);
    if SlotOf(s, m, iy, k) == SlotOf(s, m, ix, l) {
      assert SlotOf(s, m', iy, k - 1) == Slot(page, iy[k - 1]);
      assert EntryOf(s, m', iy, k - 1) == ZERO;
    } else if k > target && e.p && !Large(k, e) {
      assert Reaches(s, m, iy, k - 1);
      LinkFind(s, m, m', depth, ix, l, page, iy, k - 1, target);
    }
  }

  /** No large page is in the way of ix above level c. */
  ghost predicate NoLarge(s: Space, mem: Memory, ix: seq<nat>, c: nat)
    requires SpaceOk(s) && AddressOk(s, ix) && Total(mem)
  {
    forall k :: c < k < s.levels && Reaches(s, mem, ix, k) ==>
      !(EntryOf(s, mem, ix, k).p && Large(k, EntryOf(s, mem, ix, k)))
  }

  /** Where the walk has ended at an entry that is not present, or has reached level c, no large page is in the way;
      where it has ended at a large page, one is. */
  lemma StopLarge(s: Space, mem: Memory, ix: seq<nat>, readlevel: nat, entry: seq<Entry>, entryaddr: seq<Slot>, c: nat)
    requires SpaceOk(s) && AddressOk(s, ix) && Total(mem) && |entry| == |entryaddr| == s.levels + 1 && c < s.levels
    requires Cached(s, mem, ix, readlevel, entry, entryaddr) && Current(s, mem, readlevel, entry, entryaddr)
    ensures readlevel <= c || (readlevel < s.levels && !entry[readlevel].p) ==> NoLarge(s, mem, ix, c)
    ensures c < readlevel < s.levels && entry[readlevel].p && Large(readlevel, entry[readlevel]) ==>
      !NoLarge(s, mem, ix, c)
  {
    CachedReaches(s, mem, ix, readlevel, entry, entryaddr);
  }

  lemma LinkNoLarge(s: Space, m: Memory, m': Memory, depth: map<nat, nat>, ix: seq<nat>, l: nat, page: nat, c: nat)
    requires SpaceOk(s) && AddressOk(s, ix) && Total(m) && Total(m') && c < l < s.levels
    requires Linked(s, m, m', depth, ix, l, page) && NoLarge(s, m, ix, c)
    ensures NoLarge(s, m', ix, c)
  {
    LinkSlots(s, m, m', depth, ix, l, page, ix, l);
    TreeLevel(s, m, depth, ix, l);
    forall k | c < k < s.levels && Reaches(s, m', ix, k)
      ensures !(EntryOf(s, m', ix, k).p && Large(k, EntryOf(s, m', ix, k)))
    {
      if k > l {
        assert Reaches(s, m, ix, k);
        LinkSlots(s, m, m', depth, ix, l, page, ix, k);
        TreeLevel(s, m, depth, ix, k);
        TreeLevel(s, m, depth, ix, l);
      } else if k < l {
        assert SlotOf(s, m', ix, l - 1) == Slot(page, ix[l - 1]);
        assert !EntryOf(s, m', ix, l - 1).p;
        assert k == l - 1;
      }
    }
  }

  /** Nothing up to level c is mapped differently. */
  ghost predicate SameWalks(s: Space, m: Memory, m': Memory, c: nat)
    requires SpaceOk(s) && Total(m) && Total(m') && c < s.levels
  {
    forall iy, t: nat :: AddressOk(s, iy) && t <= c ==> Walk(s, m', iy, t) == Walk(s, m, iy, t)
  }

  lemma LinkDone(s: Space, m: Memory, m': Memory, depth: map<nat, nat>, depth': map<nat, nat>, ix: seq<nat>, l: nat,
                 page: nat, c: nat)
    requires SpaceOk(s) && AddressOk(s, ix) && Total(m) && Total(m') && c < l < s.levels
    requires Linked(s, m, m', depth, ix, l, page) && NoLarge(s, m, ix, c) && depth' == depth[page := l - 1]
    ensures Tree(s, m', depth') && NoLarge(s, m', ix, c) && SameWalks(s, m, m', c)
  {
    LinkTree(s, m, m', depth, ix, l, page);
    LinkNoLarge(s, m, m', depth, ix, l, page, c);
    forall iy, t: nat | AddressOk(s, iy) && t <= c ensures Walk(s, m', iy, t) == Walk(s, m, iy, t) {
      LinkFind(s, m, m', depth, ix, l, page, iy, s.levels - 1, t);
    }
  }

  /** A cleared page m1 has become the table below the entry x of level l. */
  lemma IsLinked(s: Space, m: Memory, m1: Memory, depth: map<nat, nat>, ix: seq<nat>, l: nat, page: nat, x: Entry)
    requires SpaceOk(s) && AddressOk(s, ix) && Total(m) && Total(m1) && 0 < l < s.levels
    requires Tree(s, m, depth) && Reaches(s, m, ix, l) && !EntryOf(s, m, ix, l).p && page !in depth
    requires Cleared(m, m1, page) && x.p && !x.ps && Base(x) == page
    ensures Linked(s, m, m1[SlotOf(s, m, ix, l) := x], depth, ix, l, page)
  {
  }

  /** An entry that does not link to a table. */
  predicate Leaf(l: nat, x: Entry) {
    l == 0 || !x.p || Large(l, x)
  }

  /** A stored entry that is no link to a table leaves a tree, and is what the walk finds. */
  lemma PutDone(s: Space, m: Memory, depth: map<nat, nat>, ix: seq<nat>, l: nat, x: Entry)
    requires SpaceOk(s) && AddressOk(s, ix) && Total(m) && Tree(s, m, depth) && l < s.levels && Reaches(s, m, ix, l)
    requires Leaf(l, x)
    ensures var m' := m[SlotOf(s, m, ix, l) := x];
      Tree(s, m', depth) && Walk(s, m', ix, l) == x && SameElsewhere(s, m, m', ix, l)
  {
    var w := SlotOf(s, m, ix, l);
    var m' := m[w := x];
    TreeLevel(s, m, depth, ix, l);
    assert forall t :: Links(m', depth, t) ==> Links(m, depth, t) && m'[t] == m[t];
    PutSlot(s, m, m', depth, ix, l);
    FindFrom(s, m', ix, l, s.levels - 1, l);
    forall iy, t: nat | AddressOk(s, iy) && t <= l && iy[l..] != ix[l..]
      ensures Walk(s, m', iy, t) == Walk(s, m, iy, t)
    {
      StoreIsLocal(s, m, x, depth, ix, iy, l, t);
    }
  }

  lemma PutSlot(s: Space, m: Memory, m': Memory, depth: map<nat, nat>, ix: seq<nat>, l: nat)
    requires SpaceOk(s) && AddressOk(s, ix) && Total(m) && Total(m') && Tree(s, m, depth) && l < s.levels
    requires Reaches(s, m, ix, l) && forall t :: t != SlotOf(s, m, ix, l) ==> m'[t] == m[t]
    ensures SlotOf(s, m', ix, l) == SlotOf(s, m, ix, l) && Reaches(s, m', ix, l)
  {
    var w := SlotOf(s, m, ix, l);
    TreeLevel(s, m, depth, ix, l);
    if l < s.levels - 1 {
      forall k | l < k < s.levels ensures SlotOf(s, m, ix, k) != w {
        assert Reaches(s, m, ix, k);
        TreeLevel(s, m, depth, ix, k);
      }
      assert Reaches(s, m, ix, l + 1);
      StoreElsewhere(s, m, m', w, ix, l + 1);
    }
  }

  /** Addresses that do not share the entry of level l with ix are mapped alike. */
  ghost predicate SameElsewhere(s: Space, m: Memory, m': Memory, ix: seq<nat>, l: nat)
    requires SpaceOk(s) && Total(m) && Total(m') && AddressOk(s, ix) && l < s.levels
  {
    forall iy, t: nat :: AddressOk(s, iy) && t <= l && iy[l..] != ix[l..] ==> Walk(s, m', iy, t) == Walk(s, m, iy, t)
  }

  lemma SameElsewhereToo(s: Space, a: Memory, b: Memory, d: Memory, ix: seq<nat>, l: nat)
    requires SpaceOk(s) && Total(a) && Total(b) && Total(d) && AddressOk(s, ix) && l < s.levels
    requires SameWalks(s, a, b, l) && SameElsewhere(s, b, d, ix, l)
    ensures SameElsewhere(s, a, d, ix, l) && Walk(s, b, ix, l) == Walk(s, a, ix, l)
  {
    forall iy, t: nat | AddressOk(s, iy) && t <= l && iy[l..] != ix[l..]
      ensures Walk(s, d, iy, t) == Walk(s, a, iy, t)
    {
      assert Walk(s, b, iy, t) == Walk(s, a, iy, t);
    }
  }

  lemma SameWalksAgain(s: Space, a: Memory, b: Memory, d: Memory, c: nat)
    requires SpaceOk(s) && Total(a) && Total(b) && Total(d) && c < s.levels
    requires SameWalks(s, a, b, c) && SameWalks(s, b, d, c)
    ensures SameWalks(s, a, d, c)
  {
    forall iy, t: nat | AddressOk(s, iy) && t <= c ensures Walk(s, d, iy, t) == Walk(s, a, iy, t) {
      assert Walk(s, b, iy, t) == Walk(s, a, iy, t);
    }
  }

  lemma LinkCached(s: Space, m: Memory, m1: Memory, depth: map<nat, nat>, ix: seq<nat>, page: nat, readlevel: nat,
                   entry: seq<Entry>, entryaddr: seq<Slot>)
    requires SpaceOk(s) && AddressOk(s, ix) && Total(m) && Total(m1) && |entry| == |entryaddr| == s.levels + 1
    requires Tree(s, m, depth) && Cleared(m, m1, page) && page !in depth
    requires Cached(s, m, ix, readlevel, entry, entryaddr) && Current(s, m, readlevel, entry, entryaddr)
    ensures Cached(s, m1, ix, readlevel, entry, entryaddr) && Current(s, m1, readlevel, entry, entryaddr)
  {
    forall k | readlevel <= k < s.levels
      ensures SlotOf(s, m1, ix, k) == SlotOf(s, m, ix, k) && EntryOf(s, m1, ix, k) == EntryOf(s, m, ix, k)
    {
      assert Reaches(s, m, ix, k);
      ClearSlots(s, m, m1, page, depth, ix, k);
    }
  }

  /** A link with other rights leaves a tree. */
  lemma RightsDone(s: Space, m: Memory, depth: map<nat, nat>, ix: seq<nat>, l: nat, x: Entry)
    requires SpaceOk(s) && AddressOk(s, ix) && Total(m) && Tree(s, m, depth) && l < s.levels && Reaches(s, m, ix, l)
    requires Keeps(EntryOf(s, m, ix, l), x, l)
    ensures var m' := m[SlotOf(s, m, ix, l) := x];
      Tree(s, m', depth) && Walk(s, m', ix, l) == x && SameElsewhere(s, m, m', ix, l)
  {
    var w := SlotOf(s, m, ix, l);
    var m' := m[w := x];
    TreeLevel(s, m, depth, ix, l);
    RightsTree(s, m, m', depth, w);
    PutSlot(s, m, m', depth, ix, l);
    FindFrom(s, m', ix, l, s.levels - 1, l);
    forall iy, t: nat | AddressOk(s, iy) && t <= l && iy[l..] != ix[l..]
      ensures Walk(s, m', iy, t) == Walk(s, m, iy, t)
    {
      StoreIsLocal(s, m, x, depth, ix, iy, l, t);
    }
  }

  lemma RightsTree(s: Space, m: Memory, m': Memory, depth: map<nat, nat>, w: Slot)
    requires SpaceOk(s) && Total(m) && Total(m') && Tree(s, m, depth) && w.page in depth
    requires Keeps(m[w], m'[w], depth[w.page]) && forall t :: t != w ==> m'[t] == m[t]
    ensures Tree(s, m', depth)
  {
    assert forall t :: Links(m', depth, t) <==> Links(m, depth, t);
    assert forall t :: Links(m, depth, t) ==> Base(m'[t]) == Base(m[t]);
  }

  /** iy does not share the entry of level l with ix. */
  predicate Apart(ix: seq<nat>, l: nat, iy: seq<nat>) {
    l <= |ix| && l <= |iy| ==> iy[l..] != ix[l..]
  }

  /** No store of the run was to an entry of iy. */
  ghost predicate Unstored(stores: seq<(seq<nat>, nat)>, iy: seq<nat>) {
    forall k :: 0 <= k < |stores| ==> Apart(stores[k].0, stores[k].1, iy)
  }

  ghost predicate SameUnlessStored(s: Space, m: Memory, m': Memory, stores: seq<(seq<nat>, nat)>)
    requires SpaceOk(s) && Total(m) && Total(m')
  {
    forall iy :: AddressOk(s, iy) && Unstored(stores, iy) ==> Walk(s, m', iy, 0) == Walk(s, m, iy, 0)
  }

  lemma StoredOnce(s: Space, a: Memory, b: Memory, d: Memory, stores: seq<(seq<nat>, nat)>, ix: seq<nat>, l: nat)
    requires SpaceOk(s) && Total(a) && Total(b) && Total(d) && AddressOk(s, ix) && l < s.levels
    requires SameUnlessStored(s, a, b, stores) && SameElsewhere(s, b, d, ix, l)
    ensures SameUnlessStored(s, a, d, stores + [(ix, l)])
  {
    var stores' := stores + [(ix, l)];
    forall iy | AddressOk(s, iy) && Unstored(stores', iy) ensures Walk(s, d, iy, 0) == Walk(s, a, iy, 0) {
      assert stores'[|stores|] == (ix, l) && Apart(ix, l, iy);
      assert forall k :: 0 <= k < |stores| ==> stores'[k] == stores[k];
      assert Unstored(stores, iy);
      assert Walk(s, b, iy, 0) == Walk(s, a, iy, 0);
    }
  }

  lemma StoredNot(s: Space, a: Memory, b: Memory, d: Memory, stores: seq<(seq<nat>, nat)>)
    requires SpaceOk(s) && Total(a) && Total(b) && Total(d)
    requires SameUnlessStored(s, a, b, stores) && SameWalks(s, b, d, 0)
    ensures SameUnlessStored(s, a, d, stores)
  {
    forall iy | AddressOk(s, iy) && Unstored(stores, iy) ensures Walk(s, d, iy, 0) == Walk(s, a, iy, 0) {
      assert Walk(s, b, iy, 0) == Walk(s, a, iy, 0);
    }
  }

  lemma MoreToDo(n: nat, i: nat, levels: nat)
    requires i < n
    ensures (n - i) * levels == levels + (n - (i + 1)) * levels >= levels
  {
  }

  lemma SupplyLeft(rest: seq<nat>, n: nat, depth: map<nat, nat>, depth': map<nat, nat>)
    requires n <= |rest| && NewPages(rest, depth) && UsesOnly(depth', depth, rest[..n])
    ensures NewPages(rest[n..], depth')
  {
    forall k | 0 <= k < |rest[n..]| ensures rest[n..][k] !in depth' && rest[n..][k] < 0x10_0000_0000 {
      assert rest[n..][k] == rest[n + k];
    }
  }

  /** An operation on the cursor. */
  datatype Op = SeekTo(ix: seq<nat>, level: nat) | LevelTo(level: nat) | ReadNow
              | WriteNow(e: Entry, m: Mask) | AllocNow

  /** A link to a table that x does not redirect. */
  predicate Keeps(link: Entry, x: Entry, l: nat) {
    link.p && !Large(l, link) && x.p && !Large(l, x) && Base(x) == Base(link)
  }

  class Pmap {
    const space: Space
    const atomic: bool
    var mem: Memory
    var curaddr: seq<nat>
    var readlevel: nat
    var curlevel: nat
    var entry: seq<Entry>
    var entryaddr: seq<Slot>

    ghost predicate Valid()
      reads this
    {
      && SpaceOk(space) && Total(mem) && AddressOk(space, curaddr)
      && |entry| == |entryaddr| == space.levels + 1
      && readlevel <= space.levels && curlevel <= space.levels
      && entry[space.levels].p
      && Cached(space, mem, curaddr, readlevel, entry, entryaddr)
    }

    /** No other CPU has marked an entry since it was read. */
    ghost predicate Exact()
      requires Valid()
      reads this
    {
      Current(space, mem, readlevel, entry, entryaddr)
    }

    /** pmap_open_vmm, pmap_open_guest. */
    constructor (space: Space, atomic: bool, mem: Memory)
      requires SpaceOk(space) && Total(mem)
      ensures Valid() && Exact() && this.space == space && this.atomic == atomic && this.mem == mem
      ensures readlevel == space.levels && curlevel == space.levels - 1
    {
      this.space, this.atomic, this.mem := space, atomic, mem;
      curaddr := seq(space.levels, _ => 0);
      readlevel, curlevel := space.levels, space.levels - 1;
      entry := seq(space.levels + 1, _ => ZERO.(p := true));
      entryaddr := seq(space.levels + 1, _ => Slot(0, 0));
    }

    /** pmap_setlevel; levels count from 1 here. */
    method SetLevel(level: nat)
      requires Valid() && 0 < level <= space.levels + 1
      modifies this`curlevel
      ensures Valid() && curlevel == level - 1
    {
      curlevel := level - 1;
    }

    /** pmap_seek; the masks select the bits of the indices from readlevel up. */
    method Seek(ix: seq<nat>, level: nat)
      requires Valid() && AddressOk(space, ix) && 0 < level <= space.levels + 1
      modifies this`curlevel, this`readlevel, this`curaddr
      ensures Valid() && curaddr == ix && curlevel == level - 1 && readlevel >= old(readlevel)
      ensures forall k :: old(readlevel) <= k < readlevel ==> old(curaddr)[k..] != ix[k..]
      ensures old(Exact()) ==> Exact()
    {
      SetLevel(level);
      while readlevel < space.levels && curaddr[readlevel..] != ix[readlevel..]
        invariant Valid() && curlevel == level - 1 && curaddr == old(curaddr) && readlevel >= old(readlevel)
        invariant forall k :: old(readlevel) <= k < readlevel ==> old(curaddr)[k..] != ix[k..]
        invariant old(Exact()) ==> Exact()
        decreases space.levels - readlevel
      {
        readlevel := readlevel + 1;
      }
      forall k | readlevel <= k < space.levels ensures SlotOf(space, mem, curaddr, k) == SlotOf(space, mem, ix, k) {
        assert curaddr[k..] == curaddr[readlevel..][k - readlevel..];
        assert ix[k..] == ix[readlevel..][k - readlevel..];
        SamePrefix(space, mem, curaddr, ix, k);
      }
      curaddr := ix;
    }

    /** The entry one level down is read. */
    method Descend()
      requires Valid() && readlevel > 0 && entry[readlevel].p
      requires readlevel < space.levels ==> !Large(readlevel, entry[readlevel])
      modifies this`readlevel, this`entry, this`entryaddr
      ensures Valid() && readlevel == old(readlevel) - 1 && (old(Exact()) ==> Exact())
      ensures entry == old(entry)[readlevel := entry[readlevel]] && entry[readlevel] == mem[entryaddr[readlevel]]
      ensures entryaddr == old(entryaddr)[readlevel := entryaddr[readlevel]]
    {
      var tmp := entry[readlevel];
      readlevel := readlevel - 1;
      var at := if readlevel == space.levels - 1 then Slot(space.root, space.off + curaddr[readlevel])
                else Slot(Base(tmp), curaddr[readlevel]);
      entryaddr := entryaddr[readlevel := at];
      entry := entry[readlevel := mem[at]];
    }

    /** pmap_read. */
    method Read() returns (r: Entry)
      requires Valid()
      modifies this`readlevel, this`entry, this`entryaddr
      ensures Valid() && readlevel <= old(readlevel) && (old(readlevel) <= curlevel ==> readlevel == old(readlevel))
      ensures old(readlevel) >= curlevel ==> readlevel >= curlevel
      ensures curlevel < space.levels ==> Marked(r, Walk(space, mem, curaddr, curlevel))
      ensures curlevel < space.levels && old(Exact()) ==> r == Walk(space, mem, curaddr, curlevel)
      ensures old(Exact()) ==> Exact()
      ensures readlevel == old(readlevel) > curlevel ==>
        entry[readlevel].p ==> readlevel < space.levels && Large(readlevel, entry[readlevel])
      ensures readlevel <= curlevel ==> r == entry[curlevel]
      ensures curlevel < readlevel ==> readlevel < space.levels
      ensures curlevel < readlevel ==>
        if entry[readlevel].p then
          && Large(readlevel, entry[readlevel])
          && r == Part(space, entry[readlevel], readlevel, curlevel, curaddr)
        else r == ZERO
      ensures forall k :: old(readlevel) <= k <= space.levels ==> entry[k] == old(entry)[k]
      ensures forall k :: readlevel <= k < old(readlevel) ==> entry[k] == mem[entryaddr[k]]
      ensures old(readlevel) < space.levels ==>
        !old(entry)[old(readlevel)].p || Large(old(readlevel), old(entry)[old(readlevel)]) ==>
        readlevel == old(readlevel)
    {
      while readlevel > curlevel
        invariant Valid() && readlevel <= old(readlevel) && (old(readlevel) <= curlevel ==> readlevel == old(readlevel))
        invariant old(Exact()) ==> Exact()
        invariant readlevel < old(readlevel) ==> curlevel <= readlevel
        invariant forall k :: old(readlevel) <= k <= space.levels ==> entry[k] == old(entry)[k]
        invariant forall k :: readlevel <= k < old(readlevel) ==> entry[k] == mem[entryaddr[k]]
        invariant readlevel < old(readlevel) < space.levels ==>
          old(entry)[old(readlevel)].p && !Large(old(readlevel), old(entry)[old(readlevel)])
        decreases readlevel
      {
        var tmp := entry[readlevel];
        if !tmp.p {
          CachedStop(space, mem, curaddr, readlevel, entry, entryaddr, curlevel);
          return ZERO;
        }
        if readlevel < space.levels && Large(readlevel, tmp) {
          CachedStop(space, mem, curaddr, readlevel, entry, entryaddr, curlevel);
          return Part(space, tmp, readlevel, curlevel, curaddr);
        }
        Descend();
      }
      if curlevel < space.levels {
        CachedEntry(space, mem, curaddr, readlevel, entry, entryaddr, curlevel);
      }
      return entry[curlevel];
    }

    /** pmap_write: a table entry gets marks only, or the tables form a tree that only this cursor changes. */
    method Write(e: Entry, m: Mask, ghost depth: map<nat, nat>) returns (fail: bool)
      requires Valid() && readlevel <= curlevel < space.levels
      requires MarksOnly(Masked(space, curlevel, e, m)) || InTree(Masked(space, curlevel, e, m), depth)
      modifies this`mem, this`entry, this`readlevel
      ensures Valid()
      ensures fail <==> atomic && old(mem)[entryaddr[curlevel]] != old(entry)[curlevel]
      ensures fail ==> mem == old(mem) && readlevel == curlevel
      ensures fail ==> entry == old(entry)[curlevel := mem[entryaddr[curlevel]]]
      ensures !fail ==> readlevel == old(readlevel)
      ensures !fail ==> var x := Masked(space, curlevel, e, m);
        mem == old(mem)[entryaddr[curlevel] := x] && entry == old(entry)[curlevel := x]
      ensures old(Exact() && InTree(Masked(space, curlevel, e, m), depth)) ==> Exact()
    {
      var x := Masked(space, curlevel, e, m);
      var at := entryaddr[curlevel];
      if atomic && mem[at] != entry[curlevel] {
        entry := entry[curlevel := mem[at]];
        readlevel := curlevel;
        return true;
      }
      PutEntry(x, depth);
      fail := false;
    }

    /** The store of pmap_write. */
    method PutEntry(x: Entry, ghost depth: map<nat, nat>)
      requires Valid() && readlevel <= curlevel < space.levels && (MarksOnly(x) || InTree(x, depth))
      requires atomic ==> mem[entryaddr[curlevel]] == entry[curlevel]
      modifies this`mem, this`entry
      ensures Valid() && mem == old(mem)[entryaddr[curlevel] := x] && entry == old(entry)[curlevel := x]
      ensures old(Exact() && InTree(x, depth)) ==> Exact()
    {
      if old(InTree(x, depth)) {
        StoreKeeps(space, mem, curaddr, readlevel, entry, entryaddr, curlevel, x, depth);
      } else {
        MarkKeeps(space, mem, curaddr, readlevel, entry, entryaddr, curlevel, x);
      }
      mem := mem[entryaddr[curlevel] := x];
      entry := entry[curlevel := x];
    }

    ghost predicate MarksOnly(x: Entry)
      requires Valid() && readlevel <= curlevel < space.levels
      reads this
    {
      atomic && Marked(entry[curlevel], x)
    }

    /** A store above the lowest entry held keeps what the walk depends on. */
    ghost predicate InTree(x: Entry, depth: map<nat, nat>)
      requires Valid() && readlevel <= curlevel < space.levels
      reads this
    {
      && Tree(space, mem, depth) && !atomic
      && (readlevel < curlevel ==> x.p && !Large(curlevel, x) && Base(x) == Base(entry[curlevel]))
    }

    /** memset of a page. */
    method ClearPage(page: nat)
      requires Total(mem)
      modifies this`mem
      ensures Total(mem) && forall t: Slot :: mem[t] == if t.page == page then ZERO else old(mem)[t]
    {
      for i := 0 to 1024
        invariant Total(mem)
        invariant forall t: Slot :: mem[t] == if t.page == page && t.idx < i then ZERO else old(mem)[t]
      {
        mem := mem[Slot(page, i) := ZERO];
      }
    }

    /** alloc_page and memset, for a page that no table of the tree uses. */
    method NewTable(page: nat, ghost depth: map<nat, nat>)
      requires Valid() && Exact() && Tree(space, mem, depth) && page !in depth
      modifies this`mem
      ensures Valid() && Exact() && Tree(space, mem, depth) && Cleared(old(mem), mem, page)
      ensures Reaches(space, old(mem), curaddr, readlevel)
      ensures readlevel < space.levels ==> entry[readlevel] == EntryOf(space, old(mem), curaddr, readlevel)
      ensures readlevel < space.levels ==> entryaddr[readlevel] == SlotOf(space, old(mem), curaddr, readlevel)
    {
      CachedReaches(space, mem, curaddr, readlevel, entry, entryaddr);
      ghost var mem0 := mem;
      ClearPage(page);
      LinkCached(space, mem0, mem, depth, curaddr, page, readlevel, entry, entryaddr);
      ClearTree(space, mem0, mem, page, depth);
    }

    /** The entry where the walk ended gets the address of a table. */
    method StoreLink(page: nat, ghost depth: map<nat, nat>)
      requires Valid() && Exact() && !atomic && 0 < readlevel < space.levels && Tree(space, mem, depth)
      requires page < 0x10_0000_0000
      modifies this`mem, this`entry, this`readlevel, this`curlevel
      ensures Valid() && Exact() && curlevel == old(curlevel) && readlevel == old(readlevel)
      ensures var x := Masked(space, readlevel, ZERO.(p := true, addr := page), PRESENT);
        && mem == old(mem)[entryaddr[readlevel] := x] && entry == old(entry)[readlevel := x]
        && x.p && !x.ps && Base(x) == page && Open(space, readlevel, x)
    {
      var level := curlevel;
      curlevel := readlevel;
      WriteLink(page, depth);
      curlevel := level;
    }

    method WriteLink(page: nat, ghost depth: map<nat, nat>)
      requires Valid() && Exact() && !atomic && 0 < readlevel == curlevel < space.levels && Tree(space, mem, depth)
      requires page < 0x10_0000_0000
      modifies this`mem, this`entry, this`readlevel
      ensures Valid() && Exact() && readlevel == old(readlevel)
      ensures var x := Masked(space, readlevel, ZERO.(p := true, addr := page), PRESENT);
        && mem == old(mem)[entryaddr[readlevel] := x] && entry == old(entry)[readlevel := x]
        && x.p && !x.ps && Base(x) == page && Open(space, readlevel, x)
    {
      LinkEntry(space, readlevel, page);
      var _ := Write(ZERO.(p := true, addr := page), PRESENT, depth);
    }

    /** A new table is linked where the walk ended. */
    method LinkTable(page: nat, ghost depth: map<nat, nat>)
      requires Valid() && Exact() && !atomic && 0 < readlevel < space.levels && Tree(space, mem, depth)
      requires !entry[readlevel].p && page !in depth && page < 0x10_0000_0000
      modifies this`mem, this`entry, this`readlevel, this`curlevel
      ensures Valid() && Exact() && curlevel == old(curlevel) && readlevel == old(readlevel)
      ensures Linked(space, old(mem), mem, depth, curaddr, readlevel, page)
      ensures entry[readlevel].p && !entry[readlevel].ps && Open(space, readlevel, entry[readlevel])
    {
      ghost var mem0 := mem;
      NewTable(page, depth);
      ghost var mem1 := mem;
      StoreLink(page, depth);
      IsLinked(space, mem0, mem1, depth, curaddr, readlevel, page, entry[readlevel]);
    }

    /** One turn of pmap_autoalloc: an empty table is linked where the walk ended. */
    method Link(page: nat, ghost depth: map<nat, nat>) returns (ghost depth': map<nat, nat>)
      requires Valid() && Exact() && !atomic && curlevel < readlevel < space.levels && Tree(space, mem, depth)
      requires !entry[readlevel].p && NoLarge(space, mem, curaddr, curlevel)
      requires page !in depth && page < 0x10_0000_0000
      modifies this`mem, this`entry, this`readlevel, this`curlevel
      ensures Valid() && Exact() && Tree(space, mem, depth') && depth' == depth[page := old(readlevel) - 1]
      ensures curlevel == old(curlevel) && readlevel == old(readlevel)
      ensures NoLarge(space, mem, curaddr, curlevel) && entry[readlevel].p && !Large(readlevel, entry[readlevel])
      ensures SameWalks(space, old(mem), mem, curlevel) && Open(space, readlevel, entry[readlevel])
    {
      depth' := depth[page := readlevel - 1];
      ghost var mem0 := mem;
      LinkTable(page, depth);
      LinkDone(space, mem0, mem, depth, depth', curaddr, readlevel, page, curlevel);
    }

    /** pmap_autoalloc; pages are what alloc_page returns. It panics exactly if a large page is in the way. */
    method AutoAlloc(pages: seq<nat>, ghost depth: map<nat, nat>) returns (panicked: bool, ghost depth': map<nat, nat>)
      requires Valid() && Exact() && !atomic && curlevel < space.levels && Tree(space, mem, depth)
      requires |pages| >= space.levels && NewPages(pages, depth)
      modifies this`mem, this`entry, this`entryaddr, this`readlevel, this`curlevel
      ensures Valid() && Exact() && Tree(space, mem, depth') && curlevel == old(curlevel)
      ensures panicked <==> !old(NoLarge(space, mem, curaddr, curlevel))
      ensures if panicked then mem == old(mem) else readlevel <= curlevel
      ensures !panicked && old(readlevel) >= curlevel ==> readlevel == curlevel
      ensures SameWalks(space, old(mem), mem, curlevel) && UsesOnly(depth', depth, pages)
    {
      panicked, depth' := false, depth;
      StopLarge(space, mem, curaddr, readlevel, entry, entryaddr, curlevel);
      if readlevel <= curlevel {
        return;
      }
      var n, skip, done := 0, !entry[readlevel].p, false;
      ghost var free := NoLarge(space, mem, curaddr, curlevel);
      while !done && !panicked
        invariant Valid() && Exact() && Tree(space, mem, depth') && curlevel == old(curlevel)
        invariant SameWalks(space, old(mem), mem, curlevel) && UsesOnly(depth', depth, pages)
        invariant if panicked then !free && mem == old(mem)
                  else if done then free && readlevel == curlevel
                  else Stuck(skip)
        invariant n == 0 ==> mem == old(mem)
        invariant !done && !panicked && (n > 0 || skip) ==> free && NoLarge(space, mem, curaddr, curlevel)
        invariant !done && !panicked ==>
          n + readlevel <= space.levels - (if skip then 1 else 0) && NewPages(pages[n..], depth')
        decreases !done && !panicked, readlevel, if skip then 1 else 0
      {
        ghost var mem0 := mem;
        done, panicked, depth' := AllocNext(pages, n, skip, depth');
        SameWalksAgain(space, old(mem), mem0, mem, curlevel);
        n, skip := n + 1, false;
      }
    }

    /** One turn of the loop, with the next page. */
    method AllocNext(pages: seq<nat>, n: nat, skip: bool, ghost depth: map<nat, nat>)
      returns (done: bool, panicked: bool, ghost depth': map<nat, nat>)
      requires Valid() && Exact() && !atomic && Stuck(skip) && Tree(space, mem, depth) && curlevel < space.levels
      requires n < |pages| && NewPages(pages[n..], depth)
      modifies this`mem, this`entry, this`entryaddr, this`readlevel, this`curlevel
      ensures Valid() && Exact() && Tree(space, mem, depth') && curlevel == old(curlevel)
      ensures SameWalks(space, old(mem), mem, curlevel) && UsesOnly(depth', depth, pages) && !(done && panicked)
      ensures panicked <==> !old(NoLarge(space, mem, curaddr, curlevel))
      ensures panicked || done ==> mem == old(mem)
      ensures done ==> readlevel == curlevel
      ensures !panicked && !done ==> Stuck(false) && NewPages(pages[n + 1..], depth')
      ensures !panicked && !done ==>
        && NoLarge(space, mem, curaddr, curlevel)
        && if skip then readlevel == old(readlevel) else readlevel < old(readlevel)
    {
      RestNew(pages, n, depth, 0);
      done, panicked, depth' := AllocTurn(pages[n], skip, depth);
      if !done && !panicked {
        RestNew(pages, n, depth, readlevel - 1);
      }
    }

    /** The walk has ended above curlevel: at an entry that is not present, if skip says so. */
    ghost predicate Stuck(skip: bool)
      requires Valid()
      reads this
    {
      curlevel < readlevel && (skip <==> !entry[readlevel].p)
    }

    /** The body of the loop of pmap_autoalloc. */
    method AllocTurn(page: nat, skip: bool, ghost depth: map<nat, nat>)
      returns (done: bool, panicked: bool, ghost depth': map<nat, nat>)
      requires Valid() && Exact() && !atomic && Stuck(skip) && Tree(space, mem, depth) && curlevel < space.levels
      requires page !in depth && page < 0x10_0000_0000
      modifies this`mem, this`entry, this`entryaddr, this`readlevel, this`curlevel
      ensures Valid() && Exact() && Tree(space, mem, depth') && curlevel == old(curlevel) < space.levels
      ensures SameWalks(space, old(mem), mem, curlevel) && !(done && panicked)
      ensures panicked <==> !old(NoLarge(space, mem, curaddr, curlevel))
      ensures panicked || done ==> mem == old(mem) && depth' == depth
      ensures done ==> readlevel == curlevel
      ensures !panicked && !done ==> Stuck(false) && depth' == depth[page := readlevel - 1] && readlevel < space.levels
      ensures !panicked && !done ==>
        && NoLarge(space, mem, curaddr, curlevel)
        && if skip then readlevel == old(readlevel) else readlevel < old(readlevel)
    {
      done, panicked, depth' := false, false, depth;
      if skip {
        StopLarge(space, mem, curaddr, readlevel, entry, entryaddr, curlevel);
      } else {
        done, panicked := ReadOn();
      }
      if !done && !panicked {
        depth' := Link(page, depth);
      }
    }

    /** The walk goes on, to curlevel, to an entry that is not present, or to a large page, which is the failed
        assertion. */
    method ReadOn() returns (done: bool, panicked: bool)
      requires Valid() && Exact() && Stuck(false) && curlevel < space.levels
      modifies this`entry, this`entryaddr, this`readlevel
      ensures Valid() && Exact() && !(done && panicked)
      ensures panicked <==> !NoLarge(space, mem, curaddr, curlevel)
      ensures done ==> readlevel == curlevel
      ensures !done && !panicked ==> Stuck(true) && readlevel < space.levels && readlevel < old(readlevel)
    {
      var _ := Read();
      done := readlevel <= curlevel;
      panicked := !done && entry[readlevel].p;
      StopLarge(space, mem, curaddr, readlevel, entry, entryaddr, curlevel);
    }

    /** The entry that the cursor has read is replaced. */
    method Overwrite(e: Entry, m: Mask, ghost depth: map<nat, nat>)
      requires Valid() && Exact() && !atomic && Tree(space, mem, depth) && readlevel == curlevel < space.levels
      requires Leaf(curlevel, Masked(space, curlevel, e, m))
      modifies this`mem, this`entry, this`readlevel
      ensures Valid() && Exact() && Tree(space, mem, depth) && readlevel == old(readlevel)
      ensures Walk(space, mem, curaddr, curlevel) == Masked(space, curlevel, e, m)
      ensures SameElsewhere(space, old(mem), mem, curaddr, curlevel)
    {
      ghost var mem0 := mem;
      CachedReaches(space, mem, curaddr, readlevel, entry, entryaddr);
      var _ := Write(e, m, depth);
      PutDone(space, mem0, depth, curaddr, curlevel, Masked(space, curlevel, e, m));
    }

    /** pmap_read and pmap_write. */
    method Replace(e: Entry, m: Mask, ghost depth: map<nat, nat>) returns (r: Entry)
      requires Valid() && Exact() && !atomic && Tree(space, mem, depth) && readlevel == curlevel < space.levels
      requires Leaf(curlevel, Masked(space, curlevel, e, m))
      modifies this`mem, this`entry, this`entryaddr, this`readlevel
      ensures Valid() && Exact() && Tree(space, mem, depth) && readlevel == curlevel
      ensures r == Walk(space, old(mem), curaddr, curlevel)
      ensures Walk(space, mem, curaddr, curlevel) == Masked(space, curlevel, e, m)
      ensures SameElsewhere(space, old(mem), mem, curaddr, curlevel)
    {
      r := Read();
      Overwrite(e, m, depth);
    }

    /** pmap_autoalloc, pmap_read and pmap_write. */
    method PutHere(e: Entry, m: Mask, pages: seq<nat>, ghost depth: map<nat, nat>)
      returns (panicked: bool, r: Entry, ghost depth': map<nat, nat>)
      requires Valid() && Exact() && !atomic && Tree(space, mem, depth)
      requires curlevel <= readlevel && curlevel < space.levels
      requires |pages| >= space.levels && NewPages(pages, depth)
      requires Leaf(curlevel, Masked(space, curlevel, e, m))
      modifies this`mem, this`entry, this`entryaddr, this`readlevel, this`curlevel
      ensures Valid() && Exact() && Tree(space, mem, depth') && curlevel == old(curlevel)
      ensures panicked <==> !old(NoLarge(space, mem, curaddr, curlevel))
      ensures !panicked ==> r == Walk(space, old(mem), curaddr, curlevel) && readlevel == curlevel
      ensures !panicked ==> Walk(space, mem, curaddr, curlevel) == Masked(space, curlevel, e, m)
      ensures SameElsewhere(space, old(mem), mem, curaddr, curlevel)
    {
      r := ZERO;
      panicked, depth' := AutoAlloc(pages, depth);
      if !panicked {
        ghost var mem1 := mem;
        r := Replace(e, m, depth');
        SameElsewhereToo(space, old(mem), mem1, mem, curaddr, curlevel);
      }
    }

    /** A page is mapped: pmap_seek, pmap_autoalloc, pmap_read and pmap_write, as in map_hphys_sub and
        mm_process_mappage. Every other address is mapped as before. */
    method PutPage(ix: seq<nat>, level: nat, e: Entry, m: Mask, pages: seq<nat>, ghost depth: map<nat, nat>)
      returns (panicked: bool, r: Entry, ghost depth': map<nat, nat>)
      requires Valid() && Exact() && !atomic && Tree(space, mem, depth)
      requires AddressOk(space, ix) && 0 < level <= space.levels
      requires |pages| >= space.levels && NewPages(pages, depth)
      requires Leaf(level - 1, Masked(space, level - 1, e, m))
      requires readlevel + 1 >= level
      modifies this`mem, this`entry, this`entryaddr, this`readlevel, this`curlevel, this`curaddr
      ensures Valid() && Exact() && Tree(space, mem, depth')
      ensures panicked <==> !old(NoLarge(space, mem, ix, level - 1))
      ensures !panicked ==> r == Walk(space, old(mem), ix, level - 1) && readlevel + 1 >= level
      ensures !panicked ==> Walk(space, mem, ix, level - 1) == Masked(space, level - 1, e, m)
      ensures SameElsewhere(space, old(mem), mem, ix, level - 1)
    {
      Seek(ix, level);
      panicked, r, depth' := PutHere(e, m, pages, depth);
    }

    /** A store that leaves a tree: of a leaf to the lowest entry held, or of other rights to a link. */
    predicate Storable(x: Entry)
      requires curlevel < |entry|
      reads this
    {
      || (readlevel == curlevel && Leaf(curlevel, x))
      || (readlevel <= curlevel && Keeps(entry[curlevel], x, curlevel))
    }

    /** What callers see to before an operation; pmap_write asserts that the entry has been read. */
    predicate Applies(op: Op)
      requires |entry| == space.levels + 1
      reads this
    {
      match op
      case SeekTo(ix, level) => AddressOk(space, ix) && 0 < level <= space.levels + 1
      case LevelTo(level) => 0 < level <= space.levels + 1
      case ReadNow => true
      case WriteNow(e, m) => curlevel < space.levels && Storable(Masked(space, curlevel, e, m))
      case AllocNow => curlevel < space.levels
    }

    /** One operation; a store concerns the addresses that share its entry, and nothing else is mapped differently. */
    method Step(op: Op, pages: seq<nat>, ghost depth: map<nat, nat>)
      returns (panicked: bool, r: Entry, ghost depth': map<nat, nat>)
      requires Valid() && Exact() && !atomic && Tree(space, mem, depth) && Applies(op)
      requires |pages| >= space.levels && NewPages(pages, depth)
      modifies this`mem, this`entry, this`entryaddr, this`readlevel, this`curlevel, this`curaddr
      ensures Valid() && Exact() && Tree(space, mem, depth') && UsesOnly(depth', depth, pages)
      ensures panicked <==> op.AllocNow? && !old(NoLarge(space, mem, curaddr, curlevel))
      ensures op.ReadNow? && curlevel < space.levels ==> r == Walk(space, mem, curaddr, curlevel)
      ensures op.SeekTo? ==> curaddr == op.ix && curlevel + 1 == op.level
      ensures op.LevelTo? ==> curlevel + 1 == op.level
      ensures op.WriteNow? ==> curaddr == old(curaddr) && curlevel == old(curlevel) < space.levels
      ensures op.WriteNow? ==> Walk(space, mem, curaddr, curlevel) == Masked(space, curlevel, op.e, op.m)
      ensures if op.WriteNow? then SameElsewhere(space, old(mem), mem, curaddr, curlevel)
              else SameWalks(space, old(mem), mem, 0)
    {
      panicked, r, depth' := false, ZERO, depth;
      match op
      case SeekTo(ix, level) => Seek(ix, level);
      case LevelTo(level) => SetLevel(level);
      case ReadNow => r := Read();
      case WriteNow(e, m) => Store(e, m, depth);
      case AllocNow => panicked, depth' := AutoAlloc(pages, depth);
    }

    /** pmap_write of such an entry. */
    method Store(e: Entry, m: Mask, ghost depth: map<nat, nat>)
      requires Valid() && Exact() && !atomic && Tree(space, mem, depth) && curlevel < space.levels
      requires Storable(Masked(space, curlevel, e, m))
      modifies this`mem, this`entry, this`readlevel
      ensures Valid() && Exact() && Tree(space, mem, depth)
      ensures Walk(space, mem, curaddr, curlevel) == Masked(space, curlevel, e, m)
      ensures SameElsewhere(space, old(mem), mem, curaddr, curlevel)
    {
      if readlevel == curlevel && Leaf(curlevel, Masked(space, curlevel, e, m)) {
        Overwrite(e, m, depth);
      } else {
        ChangeRights(e, m, depth);
      }
    }

    /** A link to a table gets other rights. */
    method ChangeRights(e: Entry, m: Mask, ghost depth: map<nat, nat>)
      requires Valid() && Exact() && !atomic && Tree(space, mem, depth) && readlevel <= curlevel < space.levels
      requires Keeps(entry[curlevel], Masked(space, curlevel, e, m), curlevel)
      modifies this`mem, this`entry, this`readlevel
      ensures Valid() && Exact() && Tree(space, mem, depth)
      ensures Walk(space, mem, curaddr, curlevel) == Masked(space, curlevel, e, m)
      ensures SameElsewhere(space, old(mem), mem, curaddr, curlevel)
    {
      ghost var mem0 := mem;
      assert Reaches(space, mem, curaddr, curlevel) by {
        CachedReaches(space, mem, curaddr, readlevel, entry, entryaddr);
      }
      var _ := Write(e, m, depth);
      RightsDone(space, mem0, depth, curaddr, curlevel, Masked(space, curlevel, e, m));
    }

    /** One operation of a run, if it applies. */
    method RunOne(op: Op, supply: seq<nat>, ghost depth: map<nat, nat>, ghost first: Memory,
                  ghost stores: seq<(seq<nat>, nat)>)
      returns (panicked: bool, ghost depth': map<nat, nat>, ghost stores': seq<(seq<nat>, nat)>)
      requires Valid() && Exact() && !atomic && Tree(space, mem, depth)
      requires |supply| >= space.levels && NewPages(supply, depth)
      requires Total(first) && SameUnlessStored(space, first, mem, stores)
      modifies this`mem, this`entry, this`entryaddr, this`readlevel, this`curlevel, this`curaddr
      ensures Valid() && Exact() && Tree(space, mem, depth') && NewPages(supply[space.levels..], depth')
      ensures SameUnlessStored(space, first, mem, stores')
      ensures old(Applies(op)) && op.SeekTo? ==> curaddr == op.ix
      ensures old(Applies(op)) && op.WriteNow? ==>
        && curlevel < space.levels && stores' == stores + [(curaddr, curlevel)]
        && Walk(space, mem, curaddr, curlevel) == Masked(space, curlevel, op.e, op.m)
    {
      ghost var mem0 := mem;
      panicked, depth', stores' := false, depth, stores;
      if Applies(op) {
        var r: Entry;
        panicked, r, depth' := Step(op, supply[..space.levels], depth);
        if op.WriteNow? {
          StoredOnce(space, first, mem0, mem, stores, curaddr, curlevel);
          stores' := stores + [(curaddr, curlevel)];
        } else {
          StoredNot(space, first, mem0, mem, stores);
        }
      }
      SupplyLeft(supply, space.levels, depth, depth');
    }

    /** Over every sequence of operations, up to a panic, the entries held are those that a walk from the root finds and
        the tables stay a tree; an address whose entries have not been stored to is mapped as at the start. */
    method Run(ops: seq<Op>, supply: seq<nat>, ghost depth: map<nat, nat>)
      returns (panicked: bool, ghost depth': map<nat, nat>, ghost stores: seq<(seq<nat>, nat)>)
      requires Valid() && Exact() && !atomic && Tree(space, mem, depth)
      requires |supply| >= |ops| * space.levels && NewPages(supply, depth)
      modifies this`mem, this`entry, this`entryaddr, this`readlevel, this`curlevel, this`curaddr
      ensures Valid() && Exact() && Tree(space, mem, depth')
      ensures SameUnlessStored(space, old(mem), mem, stores)
    {
      panicked, depth', stores := false, depth, [];
      var i, rest := 0, supply;
      while i < |ops| && !panicked
        invariant i <= |ops| && Valid() && Exact() && Tree(space, mem, depth')
        invariant |rest| >= (|ops| - i) * space.levels && NewPages(rest, depth')
        invariant SameUnlessStored(space, old(mem), mem, stores)
      {
        MoreToDo(|ops|, i, space.levels);
        panicked, depth', stores := RunOne(ops[i], rest, depth', old(mem), stores);
        i, rest := i + 1, rest[space.levels..];
      }
    }
  }
}
