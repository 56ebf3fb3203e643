/** The shadow pages of CPU_MMU_SPT_2 (core/cpu_mmu_spt.c): one array used as a ring of modified, normal and free
    slots. */
module ShadowRing {

  const ENTRIES: nat := 512

  /** One slot: its page, the key of its guest frame, and whether the page is known to be zero. */
  datatype Slot = Slot(page: nat, key: nat, cleared: bool)

  type Page = seq<int>

  predicate IsZero(p: Page) {
    |p| == ENTRIES && forall k :: 0 <= k < ENTRIES ==> p[k] == 0
  }

  function Plus(a: nat, b: nat, n: nat): nat {
    if a + b < n then a + b else a + b - n
  }

  /** How far b is after a in a ring of n. */
  function Dist(a: nat, b: nat, n: nat): int {
    if a <= b then b - a else b - a + n
  }

  /** The slots in ring order from position m on. */
  function Ring(s: seq<Slot>, m: nat): (r: seq<Slot>)
    requires m < |s|
    ensures |r| == |s|
  {
    s[m..] + s[..m]
  }

  lemma RingAt(s: seq<Slot>, m: nat, i: nat)
    requires m < |s| && i < |s|
    ensures 0 <= Dist(m, i, |s|) < |s| && Ring(s, m)[Dist(m, i, |s|)] == s[i]
  {
  }

  function Swapped(s: seq<Slot>, i: nat, j: nat): (r: seq<Slot>)
    requires i < |s| && j < |s|
    ensures |r| == |s|
  {
    s[i := s[j]][j := s[i]]
  }

  lemma SwappedMultiset(s: seq<Slot>, i: nat, j: nat)
    requires i < |s| && j < |s|
    ensures multiset(Swapped(s, i, j)) == multiset(s)
  {
  }

  function Turned(s: seq<Slot>): (r: seq<Slot>)
    requires s != []
  {
    s[1..] + [s[0]]
  }

  lemma SwapRing(s: seq<Slot>, m: nat, i: nat, j: nat)
    requires m < |s| && i < |s| && j < |s|
    ensures Ring(Swapped(s, i, j), m) == Swapped(Ring(s, m), Dist(m, i, |s|), Dist(m, j, |s|))
  {
    RingAt(s, m, i);
    RingAt(s, m, j);
  }

  lemma NextRing(s: seq<Slot>, m: nat)
    requires m < |s|
    ensures Ring(s, Plus(m, 1, |s|)) == Turned(Ring(s, m))
  {
  }

  ghost predicate SlotOk(x: Slot, mem: seq<Page>) {
    x.page < |mem| && (x.cleared ==> IsZero(mem[x.page]))
  }

  ghost predicate EachOk(s: seq<Slot>, mem: seq<Page>) {
    forall i :: 0 <= i < |s| ==> SlotOk(s[i], mem)
  }

  ghost predicate DistinctPages(a: seq<Slot>) {
    forall i, j :: 0 <= i < j < |a| ==> a[i].page != a[j].page
  }

  ghost predicate Sized(mem: seq<Page>) {
    forall p :: 0 <= p < |mem| ==> |mem[p]| == ENTRIES
  }

  /** The slots name all pages. */
  ghost predicate SlotsOk(s: seq<Slot>, mem: seq<Page>) {
    |mem| == |s| && Sized(mem) && EachOk(s, mem) && DistinctPages(s)
  }

  /** Every page that the slots name is zero. */
  ghost predicate AllZero(s: seq<Slot>, mem: seq<Page>) {
    forall x :: x in s && x.page < |mem| ==> IsZero(mem[x.page])
  }

  ghost function PageSet(s: seq<Slot>): set<nat> {
    set x | x in s :: x.page
  }

  lemma SamePages(a: seq<Slot>, b: seq<Slot>)
    requires multiset(a) == multiset(b)
    ensures PageSet(a) == PageSet(b)
  {
    assert forall x :: x in a <==> x in multiset(a);
    assert forall x :: x in b <==> x in multiset(b);
  }

  function Used(v: seq<Slot>, d: nat): (r: seq<Slot>)
    requires d < |v|
    ensures |r| == |v|
  {
    v[d := v[d].(cleared := false)]
  }

  /** The last slot in ring order changes places with slot nu, and is then in use. */
  function Put(v: seq<Slot>, nu: nat): (r: seq<Slot>)
    requires nu < |v|
    ensures |r| == |v|
  {
    Used(Swapped(v, |v| - 1, nu), nu)
  }

  function Gathered(v: seq<Slot>, nm: nat, f: nat): (r: seq<Slot>)
    requires nm < |v| && f < |v|
    ensures |r| == |v|
  {
    Turned(Swapped(Swapped(v, f, nm), nm, 0))
  }

  /** find_shadow1 in ring order: entry f of v is the one found, nm entries are modified, nu are in use. */
  function Refreshed(v: seq<Slot>, nm: nat, nu: nat, f: nat): (r: seq<Slot>)
    requires nm <= f < nu < |v|
    ensures |r| == |v|
  {
    Swapped(Gathered(v, nm, f), |v| - 1, nu - 1)
  }

  /** Where every entry goes. */
  lemma RefreshedAt(v: seq<Slot>, nm: nat, nu: nat, f: nat, d: nat)
    requires nm <= f < nu < |v| && d < |v|
    ensures Refreshed(v, nm, nu, f)[d] ==
      if d == nu - 1 then v[f]
      else if d == |v| - 1 then v[nu]
      else if nm > 0 && d + 1 == nm then v[0]
      else if d + 1 == f && f > nm then v[nm]
      else v[d + 1]
  {
  }

  lemma TurnedMultiset(s: seq<Slot>)
    requires s != []
    ensures multiset(Turned(s)) == multiset(s)
  {
    assert s == [s[0]] + s[1..];
  }

  lemma RefreshedModified(v: seq<Slot>, nm: nat, nu: nat, f: nat)
    requires nm <= f < nu < |v|
    ensures Refreshed(v, nm, nu, f)[..nm] == if nm == 0 then [] else Turned(v[..nm])
  {
    forall d | 0 <= d < nm ensures Refreshed(v, nm, nu, f)[d] == Turned(v[..nm])[d] {
      RefreshedAt(v, nm, nu, f, d);
    }
  }

  lemma RefreshedNormal(v: seq<Slot>, nm: nat, nu: nat, f: nat)
    requires nm <= f < nu < |v|
    ensures Refreshed(v, nm, nu, f)[nm..nu] == Turned(Swapped(v[nm..nu], 0, f - nm))
  {
    var c := Swapped(v[nm..nu], 0, f - nm);
    forall d | nm <= d < nu ensures Refreshed(v, nm, nu, f)[d] == Turned(c)[d - nm] {
      RefreshedAt(v, nm, nu, f, d);
    }
  }

  lemma RefreshedFree(v: seq<Slot>, nm: nat, nu: nat, f: nat)
    requires nm <= f < nu < |v|
    ensures Refreshed(v, nm, nu, f)[nu..] == Turned(v[nu..])
  {
    forall d | nu <= d < |v| ensures Refreshed(v, nm, nu, f)[d] == Turned(v[nu..])[d - nu] {
      RefreshedAt(v, nm, nu, f, d);
    }
  }

  lemma RefreshedModifiedSame(v: seq<Slot>, nm: nat, nu: nat, f: nat)
    requires nm <= f < nu < |v|
    ensures multiset(Refreshed(v, nm, nu, f)[..nm]) == multiset(v[..nm])
  {
    RefreshedModified(v, nm, nu, f);
    if nm > 0 {
      TurnedMultiset(v[..nm]);
    }
  }

  lemma RefreshedNormalSame(v: seq<Slot>, nm: nat, nu: nat, f: nat)
    requires nm <= f < nu < |v|
    ensures multiset(Refreshed(v, nm, nu, f)[nm..nu]) == multiset(v[nm..nu])
  {
    var c := v[nm..nu];
    RefreshedNormal(v, nm, nu, f);
    TurnedMultiset(Swapped(c, 0, f - nm));
    SwappedMultiset(c, 0, f - nm);
  }

  lemma RefreshedFreeSame(v: seq<Slot>, nm: nat, nu: nat, f: nat)
    requires nm <= f < nu < |v|
    ensures multiset(Refreshed(v, nm, nu, f)[nu..]) == multiset(v[nu..])
  {
    RefreshedFree(v, nm, nu, f);
    TurnedMultiset(v[nu..]);
  }

  /** Each region keeps its slots, and the one that was found is the youngest. */
  lemma RefreshedRegions(v: seq<Slot>, nm: nat, nu: nat, f: nat)
    requires nm <= f < nu < |v|
    ensures var r := Refreshed(v, nm, nu, f);
      && multiset(r[..nm]) == multiset(v[..nm])
      && multiset(r[nm..nu]) == multiset(v[nm..nu])
      && multiset(r[nu..]) == multiset(v[nu..])
      && r[nu - 1] == v[f]
  {
    RefreshedModifiedSame(v, nm, nu, f);
    RefreshedNormalSame(v, nm, nu, f);
    RefreshedFreeSame(v, nm, nu, f);
    RefreshedAt(v, nm, nu, f, nu - 1);
  }

  /** new_shadow1 with a modified slot of the same key, in ring order. */
  function Renewed(v: seq<Slot>, nu: nat, f: nat): (r: seq<Slot>)
    requires f < nu < |v|
    ensures |r| == |v|
  {
    Swapped(Turned(Swapped(v, f, 0)), |v| - 1, nu - 1)
  }

  lemma RenewedAt(v: seq<Slot>, nu: nat, f: nat, d: nat)
    requires f < nu < |v| && d < |v|
    ensures Renewed(v, nu, f)[d] ==
      if d == nu - 1 then v[f] else if d == |v| - 1 then v[nu] else if d + 1 == f then v[0] else v[d + 1]
  {
  }

  lemma RenewedModified(v: seq<Slot>, nm: nat, nu: nat, f: nat)
    requires f < nm <= nu < |v|
    ensures Renewed(v, nu, f)[..nm - 1] == Swapped(v[..nm], f, 0)[1..]
  {
    forall d | 0 <= d < nm - 1 ensures Renewed(v, nu, f)[d] == Swapped(v[..nm], f, 0)[d + 1] {
      RenewedAt(v, nu, f, d);
    }
  }

  lemma RenewedRest(v: seq<Slot>, nm: nat, nu: nat, f: nat)
    requires f < nm <= nu < |v|
    ensures Renewed(v, nu, f)[nm - 1..nu] == v[nm..nu] + [v[f]]
    ensures Renewed(v, nu, f)[nu..] == Turned(v[nu..])
  {
    forall d | nm - 1 <= d < |v|
      ensures Renewed(v, nu, f)[d] == if d == nu - 1 then v[f] else if d == |v| - 1 then v[nu] else v[d + 1]
    {
      RenewedAt(v, nu, f, d);
    }
  }

  lemma RenewedRegions(v: seq<Slot>, nm: nat, nu: nat, f: nat)
    requires f < nm <= nu < |v|
    ensures var r := Renewed(v, nu, f);
      && multiset(r[..nm - 1]) == multiset(v[..nm]) - multiset{v[f]}
      && r[nm - 1..nu] == v[nm..nu] + [v[f]]
      && multiset(r[nu..]) == multiset(v[nu..])
  {
    RenewedModified(v, nm, nu, f);
    var c := Swapped(v[..nm], f, 0);
    SwappedMultiset(v[..nm], f, 0);
    assert c == [v[f]] + c[1..];
    RenewedRest(v, nm, nu, f);
    TurnedMultiset(v[nu..]);
  }

  lemma SlotsSwapped(s: seq<Slot>, mem: seq<Page>, i: nat, j: nat)
    requires SlotsOk(s, mem) && i < |s| && j < |s|
    ensures SlotsOk(Swapped(s, i, j), mem)
  {
  }

  lemma ZeroSame(a: seq<Slot>, b: seq<Slot>, mem: seq<Page>)
    requires multiset(a) == multiset(b) && AllZero(a, mem)
    ensures AllZero(b, mem)
  {
    assert forall x :: x in b ==> x in multiset(b);
  }

  lemma Forward(m: nat, i: nat, n: nat)
    requires m < n && i < n
    ensures Plus(m, Dist(m, i, n), n) == i && 0 <= Dist(m, i, n) < n
    ensures Dist(m, Plus(i, 1, n), n) == if Dist(m, i, n) == n - 1 then 0 else Dist(m, i, n) + 1
    ensures Dist(Plus(m, 1, n), i, n) == if i == m then n - 1 else Dist(m, i, n) - 1
  {
  }

  /** The slot with the flag taken away stands for the same page. */
  lemma UsedPages(v: seq<Slot>, d: nat)
    requires d < |v|
    ensures PageSet(Used(v, d)) == PageSet(v)
  {
    var u := Used(v, d);
    forall p ensures p in PageSet(u) <==> p in PageSet(v) {
      if k :| 0 <= k < |v| && v[k].page == p {
        assert u[k] in u && v[k] in v;
      }
      if x :| x in u && x.page == p {
        var k :| 0 <= k < |u| && u[k] == x;
        assert v[k] in v;
      }
    }
  }

  lemma FoundRegions(v: seq<Slot>, nm: nat, nu: nat, f: nat, mem: seq<Page>)
    requires nm <= f < nu < |v| && AllZero(v[nu..], mem)
    ensures var r := Put(Gathered(v, nm, f), nu - 1);
      && PageSet(r[..nm]) == PageSet(v[..nm]) && PageSet(r[nm..nu]) == PageSet(v[nm..nu])
      && PageSet(r[nu..]) == PageSet(v[nu..]) && AllZero(r[nu..], mem)
      && r[nu - 1] == v[f].(cleared := false)
  {
    var q := Refreshed(v, nm, nu, f);
    var r := Used(q, nu - 1);
    RefreshedRegions(v, nm, nu, f);
    SamePages(q[..nm], v[..nm]);
    SamePages(q[nm..nu], v[nm..nu]);
    SamePages(q[nu..], v[nu..]);
    ZeroSame(v[nu..], q[nu..], mem);
    assert r[..nm] == q[..nm] && r[nu..] == q[nu..];
    assert r[nm..nu] == Used(q[nm..nu], nu - 1 - nm);
    UsedPages(q[nm..nu], nu - 1 - nm);
  }

  /** Pages were cleared, none but those in pages. */
  ghost predicate OnlyCleared(m: seq<Page>, m': seq<Page>, pages: set<nat>) {
    |m| == |m'| && forall p :: 0 <= p < |m| ==> m'[p] == m[p] || (IsZero(m'[p]) && p in pages)
  }

  lemma ClearedToo(a: seq<Page>, b: seq<Page>, c: seq<Page>, p: nat, pages: set<nat>)
    requires OnlyCleared(a, b, pages) && OnlyCleared(b, c, {p}) && p in pages
    ensures OnlyCleared(a, c, pages)
  {
  }

  /** Pages were cleared, whichever. */
  ghost predicate JustCleared(m: seq<Page>, m': seq<Page>) {
    |m| == |m'| && forall p :: 0 <= p < |m| ==> m'[p] == m[p] || IsZero(m'[p])
  }

  /** The same pages with the same keys, in the same order. */
  ghost predicate SameSlots(a: seq<Slot>, b: seq<Slot>) {
    |a| == |b| && forall k :: 0 <= k < |a| ==> a[k].page == b[k].page && a[k].key == b[k].key
  }

  lemma StillZero(a: seq<Slot>, b: seq<Slot>, m: seq<Page>, m': seq<Page>, pages: set<nat>)
    requires SameSlots(a, b) && AllZero(a, m) && OnlyCleared(m, m', pages)
    ensures AllZero(b, m')
  {
    forall x | x in b && x.page < |m'| ensures IsZero(m'[x.page]) {
      var k :| 0 <= k < |b| && b[k] == x;
      assert a[k] in a;
    }
  }

  lemma BothZero(a: seq<Slot>, b: seq<Slot>, mem: seq<Page>)
    requires AllZero(a, mem) && AllZero(b, mem)
    ensures AllZero(a + b, mem) && PageSet(a + b) == PageSet(a) + PageSet(b)
  {
  }

  lemma SameSlotsPages(a: seq<Slot>, b: seq<Slot>)
    requires SameSlots(a, b)
    ensures PageSet(a) == PageSet(b)
  {
    forall p ensures p in PageSet(a) <==> p in PageSet(b) {
      if x :| x in a && x.page == p {
        var k :| 0 <= k < |a| && a[k] == x;
        assert b[k] in b;
      }
      if x :| x in b && x.page == p {
        var k :| 0 <= k < |b| && b[k] == x;
        assert a[k] in a;
      }
    }
  }

  lemma SameRegions(a: seq<Slot>, b: seq<Slot>, nm: nat, nu: nat)
    requires SameSlots(a, b) && nm <= nu <= |a|
    ensures SameSlots(a[..nm], b[..nm]) && SameSlots(a[nm..nu], b[nm..nu]) && SameSlots(a[nu..], b[nu..])
  {
  }

  /** The first k of the nm modified slots have been cleared. */
  ghost predicate Clearing(v: seq<Slot>, m: seq<Page>, v': seq<Slot>, m': seq<Page>, nm: nat, k: int) {
    && nm <= |v| && SameSlots(v, v') && OnlyCleared(m, m', PageSet(v[..nm]))
    && k <= nm && forall d :: 0 <= d < k ==> v'[d].page < |m'| && IsZero(m'[v'[d].page])
  }

  lemma ClearingStep(v: seq<Slot>, m: seq<Page>, w: seq<Slot>, before: seq<Page>, nm: nat, k: nat, x: Slot,
                     m': seq<Page>)
    requires Clearing(v, m, w, before, nm, k) && k < nm && x.page == w[k].page && x.key == w[k].key
    requires x.page < |m'| && IsZero(m'[x.page]) && OnlyCleared(before, m', {x.page})
    ensures Clearing(v, m, w[k := x], m', nm, k + 1)
  {
    assert v[..nm][k] == v[k] && v[k] in v[..nm];
    ClearedToo(m, before, m', x.page, PageSet(v[..nm]));
  }

  lemma ClearingDone(v: seq<Slot>, m: seq<Page>, v': seq<Slot>, m': seq<Page>, nm: nat, nu: nat)
    requires Clearing(v, m, v', m', nm, nm) && nm <= nu <= |v| && AllZero(v[nu..], m)
    ensures AllZero(v'[..nm], m') && AllZero(v'[nu..], m')
    ensures SameSlots(v[..nm], v'[..nm]) && SameSlots(v[nm..nu], v'[nm..nu]) && SameSlots(v[nu..], v'[nu..])
  {
    SameRegions(v, v', nm, nu);
    StillZero(v[nu..], v'[nu..], m, m', PageSet(v[..nm]));
  }

  lemma SameJoined(a: seq<Slot>, a': seq<Slot>, b: seq<Slot>, b': seq<Slot>)
    requires SameSlots(a, a') && SameSlots(b, b')
    ensures SameSlots(a + b, a' + b')
  {
  }

  lemma RingFrom(s: seq<Slot>, m: nat, d: nat)
    requires m < |s| && d < |s|
    ensures Plus(m, d, |s|) < |s| && Ring(s, Plus(m, d, |s|)) == Ring(s, m)[d..] + Ring(s, m)[..d]
  {
    var r, e := Ring(s, m), Plus(m, d, |s|);
    if m + d < |s| {
      assert r[d..] == s[e..] + s[..m] && r[..d] == s[m..e];
      assert s[..m] + s[m..e] == s[..e];
    } else {
      assert r[d..] == s[e..m] && r[..d] == s[m..] + s[..e];
      assert s[e..m] + s[m..] == s[e..];
    }
  }

  /** The ring starts at k instead of j. */
  lemma Moved(j: nat, k: nat, l: nat, n: nat)
    requires j < n && k < n && l < n && Dist(j, k, n) <= Dist(j, l, n)
    ensures Dist(k, k, n) == 0 && Dist(k, l, n) == Dist(j, l, n) - Dist(j, k, n)
  {
  }

  lemma Halves(v: seq<Slot>, nm: nat, nu: nat)
    requires nm <= nu <= |v|
    ensures var r := v[nm..] + v[..nm]; r[..nu - nm] == v[nm..nu] && r[nu - nm..] == v[nu..] + v[..nm]
  {
  }

  /** The ring starts at k, once the slots from m up to k are free. */
  lemma FreedRegions(s: seq<Slot>, m: nat, k: nat, l: nat, mem: seq<Page>)
    requires m < |s| && k < |s| && l < |s| && Dist(m, k, |s|) <= Dist(m, l, |s|)
    requires AllZero(Ring(s, m)[Dist(m, l, |s|)..], mem) && AllZero(Ring(s, m)[..Dist(m, k, |s|)], mem)
    ensures var v, r, nm, nu := Ring(s, m), Ring(s, k), Dist(m, k, |s|), Dist(m, l, |s|);
      && Dist(k, k, |s|) == 0 && Dist(k, l, |s|) == nu - nm
      && r[..nu - nm] == v[nm..nu] && r[nu - nm..] == v[nu..] + v[..nm] && AllZero(r[nu - nm..], mem)
  {
    var v, nm, nu := Ring(s, m), Dist(m, k, |s|), Dist(m, l, |s|);
    Forward(m, k, |s|);
    RingFrom(s, m, nm);
    Moved(m, k, l, |s|);
    BothZero(v[nu..], v[..nm], mem);
    Halves(v, nm, nu);
  }

  lemma DemotedAt(v: seq<Slot>, nm: nat, nu: nat, f: nat)
    requires nm <= f < nu <= |v|
    ensures var r := Swapped(v, f, nm);
      r[..nm] == v[..nm] && r[nm] == v[f] && r[nm..nu] == Swapped(v[nm..nu], f - nm, 0) && r[nu..] == v[nu..]
  {
  }

  /** A normal slot becomes the youngest modified one. */
  lemma DemotedRegions(v: seq<Slot>, nm: nat, nu: nat, f: nat)
    requires nm <= f < nu <= |v|
    ensures var r := Swapped(v, f, nm);
      && r[..nm + 1] == v[..nm] + [v[f]]
      && multiset(r[nm + 1..nu]) == multiset(v[nm..nu]) - multiset{v[f]}
      && r[nu..] == v[nu..]
  {
    var r, c := Swapped(v, f, nm), Swapped(v[nm..nu], f - nm, 0);
    DemotedAt(v, nm, nu, f);
    SwappedMultiset(v[nm..nu], f - nm, 0);
    assert c == [v[f]] + c[1..];
    assert r[nm + 1..nu] == r[nm..nu][1..];
    assert r[..nm + 1] == r[..nm] + [r[nm]];
  }

  lemma {:induction false} CountPages(a: seq<Slot>)
    requires DistinctPages(a)
    ensures |PageSet(a)| == |a|
  {
    if a == [] {
      assert PageSet(a) == {};
    } else {
      var b := a[1..];
      CountPages(b);
      assert a == [a[0]] + b;
      assert PageSet(a) == PageSet(b) + {a[0].page};
      assert forall y :: y in b ==> y.page != a[0].page;
    }
  }

  lemma {:induction false} Full(t: set<nat>, n: nat)
    requires |t| == n && forall p :: p in t ==> p < n
    ensures forall p :: 0 <= p < n ==> p in t
  {
    if n > 0 {
      var m := n - 1;
      if m in t {
        Full(t - {m}, m);
      } else {
        Fewer(t, m);
      }
    }
  }

  lemma {:induction false} Fewer(t: set<nat>, n: nat)
    requires forall p :: p in t ==> p < n
    ensures |t| <= n
  {
    if n == 0 {
      assert t == {};
    } else {
      Fewer(t - {n - 1}, n - 1);
    }
  }

  /** Every page has a slot. */
  lemma EveryPage(s: seq<Slot>, mem: seq<Page>, p: nat)
    requires SlotsOk(s, mem) && p < |mem|
    ensures p in PageSet(s)
  {
    CountPages(s);
    Full(PageSet(s), |s|);
  }

  lemma OnlyOnce(a: seq<Slot>, k: nat)
    requires DistinctPages(a) && k < |a|
    ensures multiset(a)[a[k]] == 1
    ensures forall y :: y in a && y != a[k] ==> y.page != a[k].page
  {
    var b, c := a[..k], a[k + 1..];
    assert a == b + [a[k]] + c;
    assert a[k] !in b && a[k] !in c;
  }

  /** Removing one slot removes its page. */
  lemma WithoutSlot(a: seq<Slot>, b: seq<Slot>, k: nat)
    requires k < |a| && multiset(b) == multiset(a) - multiset{a[k]} && DistinctPages(a)
    ensures PageSet(b) == PageSet(a) - {a[k].page}
  {
    OnlyOnce(a, k);
    forall y ensures y in b <==> y in a && y != a[k] {
      assert y in b <==> multiset(b)[y] > 0;
      assert y in a <==> multiset(a)[y] > 0;
    }
  }

  /** Slots of one region of a ring have different pages. */
  lemma DistinctInRing(s: seq<Slot>, m: nat, lo: nat, hi: nat, mem: seq<Page>)
    requires m < |s| && SlotsOk(s, mem) && lo <= hi <= |s|
    ensures DistinctPages(Ring(s, m)[lo..hi])
  {
  }

  lemma DemoteDone(v: seq<Slot>, nm: nat, nu: nat, f: nat)
    requires nm <= f < nu <= |v| && DistinctPages(v[nm..nu])
    ensures var r := Swapped(v, f, nm);
      && r[..nm + 1] == v[..nm] + [v[f]] && r[nu..] == v[nu..]
      && PageSet(r[nm + 1..nu]) == PageSet(v[nm..nu]) - {v[f].page}
  {
    var b, c := Swapped(v, f, nm)[nm + 1..nu], v[nm..nu];
    DemotedRegions(v, nm, nu, f);
    assert c[f - nm] == v[f];
    assert multiset(b) == multiset(c) - multiset{c[f - nm]};
    WithoutSlot(c, b, f - nm);
  }

  lemma RenewDone(v: seq<Slot>, nm: nat, nu: nat, f: nat, mem: seq<Page>)
    requires f < nm <= nu < |v| && AllZero(v[nu..], mem)
    requires DistinctPages(v[..nm])
    ensures var r := Put(Turned(Swapped(v, f, 0)), nu - 1);
      && PageSet(r[..nm - 1]) == PageSet(v[..nm]) - {v[f].page}
      && r[nm - 1..nu] == v[nm..nu] + [v[f].(cleared := false)]
      && PageSet(r[nu..]) == PageSet(v[nu..]) && AllZero(r[nu..], mem)
  {
    var q := Renewed(v, nu, f);
    var r := Used(q, nu - 1);
    RenewedRegions(v, nm, nu, f);
    assert v[..nm][f] == v[f];
    WithoutSlot(v[..nm], q[..nm - 1], f);
    SamePages(q[nu..], v[nu..]);
    ZeroSame(v[nu..], q[nu..], mem);
    assert q[nm - 1..nu][nu - nm] == v[f];
    assert r[..nm - 1] == q[..nm - 1] && r[nu..] == q[nu..];
    assert r[nm - 1..nu] == q[nm - 1..nu][nu - nm := v[f].(cleared := false)];
  }

  lemma RenewRing(s: seq<Slot>, m: nat, nm: nat, nu: nat, i: nat, mem: seq<Page>)
    requires m < |s| && i < |s| && SlotsOk(s, mem) && Dist(m, i, |s|) < nm <= nu < |s|
    requires AllZero(Ring(s, m)[nu..], mem)
    ensures var f := Dist(m, i, |s|);
      0 <= f && var r, v := Put(Turned(Swapped(Ring(s, m), f, 0)), nu - 1), Ring(s, m);
      && PageSet(r[..nm - 1]) == PageSet(v[..nm]) - {s[i].page}
      && r[nm - 1..nu] == v[nm..nu] + [s[i].(cleared := false)]
      && PageSet(r[nu..]) == PageSet(v[nu..]) && AllZero(r[nu..], mem)
  {
    RingAt(s, m, i);
    DistinctInRing(s, m, 0, nm, mem);
    assert Ring(s, m)[0..nm] == Ring(s, m)[..nm];
    RenewDone(Ring(s, m), nm, nu, Dist(m, i, |s|), mem);
  }

  lemma TakenRegions(v: seq<Slot>, nm: nat, nu: nat, x: Slot)
    requires nm <= nu < |v|
    ensures var r := v[nu := x];
      r[..nm] == v[..nm] && r[nm..nu + 1] == v[nm..nu] + [x] && r[nu + 1..] == v[nu..][1..]
  {
  }

  lemma GivenUp(f: seq<Slot>, m: seq<Slot>, a: seq<Slot>, o: nat, m': seq<Slot>)
    requires o <= |a| && m' == m + a[..o]
    ensures f + m + a[..o] == f + m' && PageSet(m') == PageSet(m) + PageSet(a[..o])
  {
  }

  lemma UsedRegions(v: seq<Slot>, nm: nat, nu: nat)
    requires nm <= nu <= |v|
    ensures v[..nm] + v[nm..nu] == v[..nu]
  {
  }

  /** A page that is not flagged cleared may change. */
  lemma WriteOk(s: seq<Slot>, mem: seq<Page>, m: nat, d: nat, nu: nat, p: Page)
    requires m < |s| && SlotsOk(s, mem) && d < nu <= |s| && !Ring(s, m)[d].cleared && |p| == ENTRIES
    requires AllZero(Ring(s, m)[nu..], mem)
    ensures var x := Ring(s, m)[d].page;
      x < |mem| && SlotsOk(s, mem[x := p]) && AllZero(Ring(s, m)[nu..], mem[x := p])
  {
    var r := Ring(s, m);
    var x := r[d].page;
    DistinctInRing(s, m, 0, |s|, mem);
    assert r[0..|s|] == r;
    forall y | y in r[nu..] ensures y.page != x {
      var e :| 0 <= e < |r[nu..]| && r[nu..][e] == y;
      assert r[nu + e] == y;
    }
    forall i | 0 <= i < |s| ensures SlotOk(s[i], mem[x := p]) {
      RingAt(s, m, i);
      assert SlotOk(s[i], mem);
    }
  }

  lemma SameElements(a: seq<Slot>, b: seq<Slot>)
    requires multiset(a) == multiset(b)
    ensures forall x :: x in a ==> x in b
  {
    assert forall x :: x in a ==> x in multiset(a);
  }

  class SlotRing {
    const shadow: array<Slot>
    var mem: seq<Page>
    var modified: nat
    var normal: nat
    var free: nat

    ghost predicate Indices()
      reads this
    {
      modified < shadow.Length && normal < shadow.Length && free < shadow.Length && 2 <= shadow.Length
    }

    /** How many slots are modified, and how many are modified or normal. */
    ghost function NumModified(): int
      requires Indices()
      reads this
    {
      Dist(modified, normal, shadow.Length)
    }

    ghost function NumUsed(): int
      requires Indices()
      reads this
    {
      Dist(modified, free, shadow.Length)
    }

    ghost predicate Regions()
      reads this
    {
      Indices() && NumModified() <= NumUsed()
    }

    ghost function View(): seq<Slot>
      requires Indices()
      reads this, shadow
    {
      Ring(shadow[..], modified)
    }

    ghost function Modified(): seq<Slot>
      requires Regions()
      reads this, shadow
    {
      View()[..NumModified()]
    }

    /** The normal slots, oldest first. */
    ghost function Normal(): seq<Slot>
      requires Regions()
      reads this, shadow
    {
      View()[NumModified()..NumUsed()]
    }

    /** The free slots; there is always one. */
    ghost function Free(): (f: seq<Slot>)
      requires Regions()
      reads this, shadow
      ensures f != []
    {
      View()[NumUsed()..]
    }

    /** The modified and the normal slots. */
    ghost function InRing(): seq<Slot>
      requires Regions()
      reads this, shadow
    {
      View()[..NumUsed()]
    }

    /** The page is used for the key, and may get entries. */
    ghost predicate InUse(key: nat, page: nat)
      requires Regions()
      reads this, shadow
    {
      Slot(page, key, false) in InRing()
    }

    /** The slots name all pages, and the page of every free slot is zero. */
    ghost predicate Valid()
      reads this, shadow
    {
      Regions() && SlotsOk(shadow[..], mem) && AllZero(Free(), mem)
    }

    /** swap_shadow. */
    method Swap(i: nat, j: nat)
      requires Indices() && i < shadow.Length && j < shadow.Length && SlotsOk(shadow[..], mem)
      modifies shadow
      ensures SlotsOk(shadow[..], mem) && shadow[i] == old(shadow[j]) && shadow[j] == old(shadow[i])
      ensures View() == Swapped(old(View()), Dist(modified, i, shadow.Length), Dist(modified, j, shadow.Length))
    {
      SlotsSwapped(shadow[..], mem, i, j);
      SwapRing(shadow[..], modified, i, j);
      Forward(modified, i, shadow.Length);
      Forward(modified, j, shadow.Length);
      assert Swapped(shadow[..], i, j) == shadow[..][i := shadow[j]][j := shadow[i]];
      shadow[i], shadow[j] := shadow[j], shadow[i];
    }

    ghost predicate HasNormalKey(key: nat)
      requires Regions()
      reads this, shadow
    {
      exists x :: x in Normal() && x.key == key
    }

    /** Of the first n slots no normal one has the key. */
    ghost predicate NoKeyBefore(key: nat, n: int)
      requires Regions() && n <= shadow.Length
      reads this, shadow
    {
      forall d :: NumModified() <= d < n ==> View()[d].key != key
    }

    lemma KeyAt(key: nat, i: nat)
      requires Valid() && i < shadow.Length && NumModified() <= Dist(modified, i, shadow.Length) < NumUsed()
      ensures shadow[i] in Normal() && (shadow[i].key == key ==> HasNormalKey(key))
      ensures shadow[i].key != key && NoKeyBefore(key, Dist(modified, i, shadow.Length)) ==>
        NoKeyBefore(key, Dist(modified, i, shadow.Length) + 1)
    {
      RingAt(shadow[..], modified, i);
      assert Normal()[Dist(modified, i, shadow.Length) - NumModified()] == shadow[i];
    }

    /** The search of find_shadow1. */
    method Search(key: nat) returns (i: nat)
      requires Valid()
      ensures i < shadow.Length && NumModified() <= Dist(modified, i, shadow.Length) <= NumUsed()
      ensures i != free ==>
        shadow[i].key == key && shadow[i] in Normal() && Dist(modified, i, shadow.Length) < NumUsed()
      ensures i != free <==> HasNormalKey(key)
    {
      i := normal;
      Forward(modified, i, shadow.Length);
      Forward(modified, free, shadow.Length);
      while i != free && shadow[i].key != key
        invariant i < shadow.Length && NumModified() <= Dist(modified, i, shadow.Length) <= NumUsed()
        invariant NoKeyBefore(key, Dist(modified, i, shadow.Length))
        decreases NumUsed() - Dist(modified, i, shadow.Length)
      {
        Forward(modified, i, shadow.Length);
        KeyAt(key, i);
        i := Plus(i, 1, shadow.Length);
      }
      if i != free {
        Forward(modified, i, shadow.Length);
        KeyAt(key, i);
      }
    }

    /** Slot i becomes the youngest normal one: the rest of find_shadow1. */
    method Refresh(i: nat)
      requires Indices() && SlotsOk(shadow[..], mem) && i < shadow.Length
      requires NumModified() <= Dist(modified, i, shadow.Length) < NumUsed()
      modifies this`modified, this`normal, this`free, shadow
      ensures Regions() && SlotsOk(shadow[..], mem)
      ensures NumModified() == old(NumModified()) && NumUsed() == old(NumUsed())
      ensures View() == Put(Gathered(old(View()), NumModified(), Dist(old(modified), i, shadow.Length)), NumUsed() - 1)
      ensures shadow[old(free)] == old(shadow[i]).(cleared := false)
    {
      var j := modified;
      Gather(i);
      PutLast(j);
    }

    /** Slot i changes places with the oldest normal slot, and then with the oldest modified one, which stays behind
        among the modified slots while slot i leaves the ring at its start. */
    method Gather(i: nat)
      requires Indices() && SlotsOk(shadow[..], mem) && i < shadow.Length
      requires NumModified() <= Dist(modified, i, shadow.Length) < NumUsed()
      modifies this`modified, this`normal, shadow
      ensures Indices() && SlotsOk(shadow[..], mem) && modified == Plus(old(modified), 1, shadow.Length)
      ensures NumModified() == old(NumModified()) && NumUsed() == old(NumUsed()) - 1
      ensures View() == Gathered(old(View()), NumModified(), Dist(old(modified), i, shadow.Length))
      ensures shadow[old(modified)] == old(shadow[i])
    {
      var j, k := modified, normal;
      Swap(i, k);
      Swap(k, j);
      Advance(j);
      Forward(j, k, shadow.Length);
      Forward(Plus(j, 1, shadow.Length), k, shadow.Length);
      normal := Plus(k, 1, shadow.Length);
    }

    method Advance(j: nat)
      requires Indices() && j == modified
      modifies this`modified
      ensures Indices() && modified == Plus(j, 1, shadow.Length) && View() == Turned(old(View()))
      ensures NumUsed() == if free == j then shadow.Length - 1 else old(NumUsed()) - 1
    {
      NextRing(shadow[..], j);
      Forward(j, free, shadow.Length);
      modified := Plus(j, 1, shadow.Length);
    }

    /** The slot before the start of the ring changes places with the first free slot, and is then in use. */
    method PutLast(j: nat)
      requires Indices() && SlotsOk(shadow[..], mem) && j < shadow.Length && modified == Plus(j, 1, shadow.Length)
      requires free != j
      modifies this`free, shadow
      ensures Indices() && SlotsOk(shadow[..], mem)
      ensures NumModified() == old(NumModified()) && NumUsed() == old(NumUsed()) + 1
      ensures View() == Put(old(View()), old(NumUsed())) && free == Plus(old(free), 1, shadow.Length)
      ensures shadow[old(free)] == old(shadow[j]).(cleared := false)
    {
      var l := free;
      Forward(j, j, shadow.Length);
      Forward(modified, l, shadow.Length);
      Forward(j, l, shadow.Length);
      Swap(j, l);
      UseSlot(l);
      free := Plus(l, 1, shadow.Length);
    }

    /** A slot in use may get entries. */
    method UseSlot(i: nat)
      requires Indices() && i < shadow.Length && SlotsOk(shadow[..], mem)
      modifies shadow
      ensures shadow[..] == old(shadow[..])[i := old(shadow[i]).(cleared := false)] && SlotsOk(shadow[..], mem)
      ensures View() == Used(old(View()), Dist(modified, i, shadow.Length))
    {
      RingAt(shadow[..], modified, i);
      shadow[i] := shadow[i].(cleared := false);
    }

    /** find_shadow1: the regions keep their pages, and the page found is now the youngest normal one. */
    method Find(key: nat) returns (found: bool, page: nat)
      requires Valid()
      modifies this`modified, this`normal, this`free, shadow
      ensures Valid()
      ensures found <==> old(HasNormalKey(key))
      ensures !found ==> shadow[..] == old(shadow[..]) && modified == old(modified) && normal == old(normal)
      ensures !found ==> free == old(free)
      ensures PageSet(Modified()) == old(PageSet(Modified())) && PageSet(Normal()) == old(PageSet(Normal()))
      ensures PageSet(Free()) == old(PageSet(Free()))
      ensures found ==> Normal() != [] && Normal()[|Normal()| - 1] == Slot(page, key, false) && InUse(key, page)
    {
      var i := Search(key);
      if i == free {
        return false, 0;
      }
      found, page := true, shadow[i].page;
      RefreshFound(i);
      NewestUsed();
    }

    lemma NewestUsed()
      requires Regions() && Normal() != []
      ensures Normal()[|Normal()| - 1] in InRing()
    {
      assert Normal()[|Normal()| - 1] == InRing()[|InRing()| - 1];
    }

    method RefreshFound(i: nat)
      requires Valid() && i < shadow.Length && NumModified() <= Dist(modified, i, shadow.Length) < NumUsed()
      modifies this`modified, this`normal, this`free, shadow
      ensures Valid()
      ensures PageSet(Modified()) == old(PageSet(Modified())) && PageSet(Normal()) == old(PageSet(Normal()))
      ensures PageSet(Free()) == old(PageSet(Free()))
      ensures Normal() != [] && Normal()[|Normal()| - 1] == old(shadow[i]).(cleared := false)
    {
      ghost var f := Dist(modified, i, shadow.Length);
      RingAt(shadow[..], modified, i);
      FoundRegions(View(), NumModified(), NumUsed(), f, mem);
      Refresh(i);
    }

    /** clear_shadow. */
    method ClearSlot(i: nat)
      requires Indices() && i < shadow.Length && SlotsOk(shadow[..], mem)
      modifies this`mem, shadow
      ensures SlotsOk(shadow[..], mem) && IsZero(mem[shadow[i].page])
      ensures OnlyCleared(old(mem), mem, {shadow[i].page})
      ensures var d := Dist(modified, i, shadow.Length);
        0 <= d < shadow.Length && View() == old(View())[d := old(shadow[i]).(cleared := true)]
      ensures shadow[..] == old(shadow[..])[i := old(shadow[i]).(cleared := true)]
    {
      RingAt(shadow[..], modified, i);
      if !shadow[i].cleared {
        mem := mem[shadow[i].page := seq(ENTRIES, _ => 0)];
      }
      shadow[i] := shadow[i].(cleared := true);
    }

    /** The loop of clean_modified_shadow1: all modified pages are cleared. */
    method ClearModified()
      requires Valid()
      modifies this`mem, shadow
      ensures Valid() && AllZero(Modified(), mem) && OnlyCleared(old(mem), mem, PageSet(old(Modified())))
      ensures SameSlots(old(Modified()), Modified()) && SameSlots(old(Normal()), Normal())
      ensures SameSlots(old(Free()), Free())
    {
      var i: nat := modified;
      var n := shadow.Length;
      Forward(modified, i, n);
      while i != normal
        invariant Indices() && i < n && 0 <= Dist(modified, i, n) <= NumModified() <= NumUsed()
        invariant SlotsOk(shadow[..], mem)
        invariant Clearing(old(View()), old(mem), View(), mem, NumModified(), Dist(modified, i, n))
        decreases NumModified() - Dist(modified, i, n)
      {
        Forward(modified, i, n);
        ClearNext(i, old(View()), old(mem));
        i := Plus(i, 1, n);
      }
      Forward(modified, i, n);
      ClearingDone(old(View()), old(mem), View(), mem, NumModified(), NumUsed());
    }

    /** One round of the loop. */
    method ClearNext(i: nat, ghost v: seq<Slot>, ghost m: seq<Page>)
      requires Indices() && i < shadow.Length && 0 <= Dist(modified, i, shadow.Length) < NumModified() <= NumUsed()
      requires SlotsOk(shadow[..], mem)
      requires Clearing(v, m, View(), mem, NumModified(), Dist(modified, i, shadow.Length))
      modifies this`mem, shadow
      ensures SlotsOk(shadow[..], mem)
      ensures Clearing(v, m, View(), mem, NumModified(), Dist(modified, i, shadow.Length) + 1)
    {
      RingAt(shadow[..], modified, i);
      ghost var w, before, k := View(), mem, Dist(modified, i, shadow.Length);
      ClearSlot(i);
      ClearingStep(v, m, w, before, NumModified(), k, shadow[i], mem);
    }

    /** shadow1_modified = i, once the modified slots are clear: they are free now. */
    method FreeModified()
      requires Valid() && AllZero(Modified(), mem)
      modifies this`modified
      ensures Valid() && Modified() == [] && Normal() == old(Normal()) && Free() == old(Free()) + old(Modified())
    {
      Forward(modified, free, shadow.Length);
      FreedRegions(shadow[..], modified, normal, free, mem);
      modified := normal;
    }

    /** clean_modified_shadow2. */
    method CleanModified(freeflag: bool)
      requires Valid()
      modifies this`mem, this`modified, shadow
      ensures Valid() && OnlyCleared(old(mem), mem, PageSet(old(Modified())))
      ensures SameSlots(old(Normal()), Normal())
      ensures freeflag ==> Modified() == [] && SameSlots(old(Free()) + old(Modified()), Free())
      ensures !freeflag ==> AllZero(Modified(), mem) && SameSlots(old(Modified()), Modified())
      ensures !freeflag ==> SameSlots(old(Free()), Free())
    {
      if modified == normal {
        assert Modified() == [] && Free() + Modified() == Free();
        return;
      }
      ClearModified();
      SameJoined(old(Free()), Free(), old(Modified()), Modified());
      if freeflag {
        FreeModified();
      }
    }

    /** modified_shadow1. */
    method MarkModified(i: nat)
      requires Valid() && i < shadow.Length
      requires NumModified() <= Dist(modified, i, shadow.Length) < NumUsed()
      modifies this`normal, shadow
      ensures Valid() && Free() == old(Free())
      ensures Modified() == old(Modified()) + [old(shadow[i])]
      ensures PageSet(Normal()) == old(PageSet(Normal())) - {old(shadow[i]).page}
      ensures NumModified() == old(NumModified()) + 1 && NumUsed() == old(NumUsed())
      ensures View() == Swapped(old(View()), Dist(modified, i, shadow.Length), old(NumModified()))
    {
      var j := normal;
      RingAt(shadow[..], modified, i);
      Forward(modified, j, shadow.Length);
      DistinctInRing(shadow[..], modified, NumModified(), NumUsed(), mem);
      DemoteDone(View(), NumModified(), NumUsed(), Dist(modified, i, shadow.Length));
      Swap(i, j);
      normal := Plus(j, 1, shadow.Length);
    }

    /** modified_shadow1 for the slot just handed out. */
    method MarkNewest(ghost key: nat, ghost page: nat, i: nat)
      requires Valid() && i < shadow.Length && Plus(i, 1, shadow.Length) == free && Normal() != []
      requires Normal()[|Normal()| - 1] == Slot(page, key, false)
      modifies this`normal, shadow
      ensures Valid() && Free() == old(Free()) && InUse(key, page) && Slot(page, key, false) in Modified()
    {
      Forward(modified, i, shadow.Length);
      RingAt(shadow[..], modified, i);
      MarkModified(i);
      assert Modified()[|Modified()| - 1] == InRing()[|Modified()| - 1];
    }

    /** Of the first n slots no normal one has one of the keys. */
    ghost predicate NoneBefore(keys: nat -> bool, n: int)
      requires Regions() && n <= shadow.Length
      reads this, shadow
    {
      forall d :: NumModified() <= d < n ==> !keys(View()[d].key)
    }

    /** One normal slot of such a key becomes modified; the slot it changes places with had another key. */
    method MarkNext(keys: nat -> bool, i: nat)
      requires Valid() && i < shadow.Length && NumModified() <= Dist(modified, i, shadow.Length) < NumUsed()
      requires NoneBefore(keys, Dist(modified, i, shadow.Length))
      modifies this`normal, shadow
      ensures Valid() && Free() == old(Free()) && multiset(InRing()) == old(multiset(InRing()))
      ensures NumModified() == old(NumModified()) + 1 && NumUsed() == old(NumUsed())
      ensures NoneBefore(keys, Dist(modified, i, shadow.Length) + 1)
    {
      ghost var v, nm, f, nu := View(), NumModified(), Dist(modified, i, shadow.Length), NumUsed();
      Forward(modified, i, shadow.Length);
      MarkModified(i);
      SwappedMultiset(v[..nu], f, nm);
      assert InRing() == Swapped(v[..nu], f, nm);
    }

    ghost predicate HasNormal(keys: nat -> bool)
      requires Regions()
      reads this, shadow
    {
      exists x :: x in Normal() && keys(x.key)
    }

    lemma SomeNormal(keys: nat -> bool, i: nat)
      requires Valid() && i < shadow.Length && NumModified() <= Dist(modified, i, shadow.Length) < NumUsed()
      ensures keys(shadow[i].key) ==> HasNormal(keys)
      ensures !keys(shadow[i].key) && NoneBefore(keys, Dist(modified, i, shadow.Length)) ==>
        NoneBefore(keys, Dist(modified, i, shadow.Length) + 1)
    {
      RingAt(shadow[..], modified, i);
      assert Normal()[Dist(modified, i, shadow.Length) - NumModified()] == shadow[i];
    }

    /** The normal slots before position i have been scanned. */
    ghost predicate Scanned(keys: nat -> bool, i: nat, seen: bool)
      reads this, shadow
    {
      && Valid() && i < shadow.Length && NumModified() <= Dist(modified, i, shadow.Length) <= NumUsed()
      && if seen then HasNormal(keys) else NoneBefore(keys, Dist(modified, i, shadow.Length))
    }

    /** One round of the loop of update_shadow. */
    method ScanSlot(keys: nat -> bool, needrw: bool, i: nat, seen: bool) returns (i': nat, seen': bool)
      requires Scanned(keys, i, seen) && i != free && (needrw ==> !seen)
      modifies this`normal, shadow
      ensures Scanned(keys, i', seen') && (needrw ==> !seen')
      ensures Dist(modified, i', shadow.Length) == Dist(modified, i, shadow.Length) + 1 && NumUsed() == old(NumUsed())
      ensures Free() == old(Free()) && multiset(InRing()) == old(multiset(InRing()))
      ensures !needrw ==> normal == old(normal) && shadow[..] == old(shadow[..])
    {
      Forward(modified, i, shadow.Length);
      Forward(modified, free, shadow.Length);
      SomeNormal(keys, i);
      i', seen' := Plus(i, 1, shadow.Length), seen;
      if keys(shadow[i].key) {
        if needrw {
          MarkNext(keys, i);
        } else {
          seen' := true;
        }
      }
    }

    /** The part of update_shadow for one ring: whether a normal slot has one of the keys, or, with needrw, all that
        have become modified. */
    method UpdateShadow(keys: nat -> bool, needrw: bool) returns (seen: bool)
      requires Valid()
      modifies this`normal, shadow
      ensures Valid() && Free() == old(Free()) && multiset(InRing()) == old(multiset(InRing()))
      ensures forall x :: x in old(InRing()) ==> x in InRing()
      ensures needrw ==> !seen && !HasNormal(keys)
      ensures !needrw ==> normal == old(normal) && shadow[..] == old(shadow[..]) && (seen <==> HasNormal(keys))
    {
      var i: nat := normal;
      seen := false;
      Forward(modified, i, shadow.Length);
      ghost var f, r := Free(), multiset(InRing());
      while i != free
        invariant Scanned(keys, i, seen) && (needrw ==> !seen) && Free() == f && multiset(InRing()) == r
        invariant !needrw ==> normal == old(normal) && shadow[..] == old(shadow[..])
        decreases NumUsed() - Dist(modified, i, shadow.Length)
      {
        i, seen := ScanSlot(keys, needrw, i, seen);
      }
      SameElements(old(InRing()), InRing());
    }

    /** new_shadow1 for a key that a modified slot has. */
    method Renew(i: nat) returns (page: nat)
      requires Valid() && i < shadow.Length && Dist(modified, i, shadow.Length) < NumModified()
      modifies this`mem, this`modified, this`free, shadow
      ensures Valid() && page == old(shadow[i]).page && page < |mem| && IsZero(mem[page])
      ensures OnlyCleared(old(mem), mem, {page})
      ensures PageSet(Modified()) == old(PageSet(Modified())) - {page}
      ensures Normal() == old(Normal()) + [Slot(page, old(shadow[i]).key, false)]
      ensures PageSet(Free()) == old(PageSet(Free())) && free == Plus(old(free), 1, shadow.Length)
    {
      page := shadow[i].page;
      RenewClear(i);
      RenewMove(i);
    }

    method RenewMove(i: nat)
      requires Valid() && i < shadow.Length && Dist(modified, i, shadow.Length) < NumModified()
      modifies this`modified, this`free, shadow
      ensures Valid() && PageSet(Modified()) == old(PageSet(Modified())) - {old(shadow[i]).page}
      ensures Normal() == old(Normal()) + [old(shadow[i]).(cleared := false)]
      ensures PageSet(Free()) == old(PageSet(Free())) && free == Plus(old(free), 1, shadow.Length)
    {
      ghost var nm, nu := NumModified(), NumUsed();
      RenewRing(shadow[..], modified, nm, nu, i, mem);
      Rotate(i);
      assert Regions() && NumModified() == nm - 1 && NumUsed() == nu;
    }

    /** The swaps of new_shadow1: modified slot i becomes the youngest normal one. */
    method Rotate(i: nat)
      requires Indices() && SlotsOk(shadow[..], mem) && i < shadow.Length
      requires Dist(modified, i, shadow.Length) < NumModified() <= NumUsed()
      modifies this`modified, this`free, shadow
      ensures Indices() && SlotsOk(shadow[..], mem)
      ensures NumModified() == old(NumModified()) - 1 && NumUsed() == old(NumUsed())
      ensures View() == Put(Turned(Swapped(old(View()), Dist(old(modified), i, shadow.Length), 0)), NumUsed() - 1)
      ensures free == Plus(old(free), 1, shadow.Length)
    {
      var j := modified;
      RingAt(shadow[..], j, i);
      GatherModified(i);
      PutLast(j);
    }

    method GatherModified(i: nat)
      requires Indices() && SlotsOk(shadow[..], mem) && i < shadow.Length
      requires Dist(modified, i, shadow.Length) < NumModified() <= NumUsed()
      modifies this`modified, shadow
      ensures Indices() && SlotsOk(shadow[..], mem) && modified == Plus(old(modified), 1, shadow.Length)
      ensures NumModified() == old(NumModified()) - 1 && NumUsed() == old(NumUsed()) - 1
      ensures 0 <= Dist(old(modified), i, shadow.Length) < shadow.Length
      ensures View() == Turned(Swapped(old(View()), Dist(old(modified), i, shadow.Length), 0))
    {
      var j := modified;
      RingAt(shadow[..], j, i);
      Swap(i, j);
      Forward(j, normal, shadow.Length);
      Advance(j);
    }

    /** The slot of a modified page is cleared. */
    method RenewClear(i: nat)
      requires Valid() && i < shadow.Length && Dist(modified, i, shadow.Length) < NumModified()
      modifies this`mem, shadow
      ensures Valid() && IsZero(mem[shadow[i].page]) && OnlyCleared(old(mem), mem, {shadow[i].page})
      ensures shadow[i] == old(shadow[i]).(cleared := true)
      ensures View() == old(View())[Dist(modified, i, shadow.Length) := shadow[i]]
      ensures Normal() == old(Normal()) && Free() == old(Free()) && PageSet(Modified()) == old(PageSet(Modified()))
    {
      ghost var v := View();
      RingAt(shadow[..], modified, i);
      ClearSlot(i);
      SameSlotsPages(v[..NumModified()], Modified());
      StillZero(v[NumUsed()..], Free(), old(mem), mem, {shadow[i].page});
    }

    /** The search of new_shadow1 among the modified slots. */
    method SearchModified(key: nat) returns (i: nat)
      requires Valid()
      ensures i < shadow.Length && 0 <= Dist(modified, i, shadow.Length) <= NumModified()
      ensures i != normal ==> shadow[i].key == key && Dist(modified, i, shadow.Length) < NumModified()
      ensures i == normal ==> forall x :: x in Modified() ==> x.key != key
    {
      i := modified;
      Forward(modified, i, shadow.Length);
      while i != normal && shadow[i].key != key
        invariant i < shadow.Length && 0 <= Dist(modified, i, shadow.Length) <= NumModified()
        invariant forall d :: 0 <= d < Dist(modified, i, shadow.Length) ==> View()[d].key != key
        decreases NumModified() - Dist(modified, i, shadow.Length)
      {
        Forward(modified, i, shadow.Length);
        RingAt(shadow[..], modified, i);
        i := Plus(i, 1, shadow.Length);
      }
      Forward(modified, i, shadow.Length);
      Forward(modified, normal, shadow.Length);
      RingAt(shadow[..], modified, i);
    }

    /** new_shadow1 with the first free slot, when another one stays free. */
    method TakeFree(key: nat) returns (page: nat)
      requires Valid() && NumUsed() < shadow.Length - 1
      modifies this`free, shadow
      ensures Valid() && page < |mem| && IsZero(mem[page]) && Modified() == old(Modified())
      ensures Normal() == old(Normal()) + [Slot(page, key, false)]
      ensures old(Free())[0].page == page && Free() == old(Free())[1..] && free == Plus(old(free), 1, shadow.Length)
    {
      var i := free;
      RingAt(shadow[..], modified, i);
      Forward(modified, i, shadow.Length);
      TakenRegions(View(), NumModified(), NumUsed(), Slot(shadow[i].page, key, false));
      page := shadow[i].page;
      assert Free()[0] == shadow[i] && Free()[0] in Free();
      SetSlot(i, Slot(page, key, false));
      free := Plus(i, 1, shadow.Length);
    }

    method SetSlot(i: nat, x: Slot)
      requires Indices() && i < shadow.Length && SlotsOk(shadow[..], mem) && x.page == shadow[i].page && !x.cleared
      modifies shadow
      ensures SlotsOk(shadow[..], mem)
      ensures var d := Dist(modified, i, shadow.Length);
        0 <= d < shadow.Length && View() == old(View())[d := x]
    {
      RingAt(shadow[..], modified, i);
      shadow[i] := x;
    }

    /** The oldest normal slot is given up. */
    method GiveUpOldest()
      requires Valid() && normal != free
      modifies this`normal
      ensures Valid() && Normal() == old(Normal())[1..] && Free() == old(Free())
      ensures old(Normal()) != [] && Modified() == old(Modified()) + [old(Normal())[0]]
    {
      Forward(modified, normal, shadow.Length);
      Forward(modified, free, shadow.Length);
      normal := Plus(normal, 1, shadow.Length);
    }

    /** new_shadow1 when only one slot is free: the oldest normal slot and all modified ones become free, so that
        there is no fatal error. */
    method MakeRoom()
      requires Valid() && NumUsed() == shadow.Length - 1
      modifies this`mem, this`modified, this`normal, shadow
      ensures Valid() && Modified() == [] && |Free()| > 1 && modified != Plus(free, 1, shadow.Length)
      ensures OnlyCleared(old(mem), mem, old(PageSet(Modified()) + PageSet(Normal()[..Oldest()])))
      ensures SameSlots(old(Free() + Modified() + Normal()[..Oldest()]), Free())
      ensures SameSlots(old(Normal()[Oldest()..]), Normal())
    {
      ghost var f, m, a, o := Free(), Modified(), Normal(), Oldest();
      if normal != free {
        GiveUpOldest();
      }
      GivenUp(f, m, a, o, Modified());
      CleanModified(true);
      Forward(modified, free, shadow.Length);
    }

    ghost predicate HasModified(key: nat)
      requires Regions()
      reads this, shadow
    {
      exists x :: x in Modified() && x.key == key
    }

    ghost function Oldest(): nat
      requires Regions()
      reads this, shadow
    {
      if Normal() == [] then 0 else 1
    }

    /** new_shadow2: a zero page for the key, or nothing yet, but then there is room for the next try. */
    method NewShadow(key: nat) returns (ok: bool, page: nat, i: nat)
      requires Valid()
      modifies this`mem, this`modified, this`normal, this`free, shadow
      ensures Valid()
      ensures ok <==> old(HasModified(key)) || old(|Free()|) > 1
      ensures ok ==>
        page < |mem| && IsZero(mem[page]) && Normal() != [] && Normal()[|Normal()| - 1] == Slot(page, key, false)
      ensures ok ==> Normal()[..|Normal()| - 1] == old(Normal()) && i == old(free) && Plus(i, 1, shadow.Length) == free
      ensures ok ==> InUse(key, page) && OnlyCleared(old(mem), mem, {page})
      ensures ok && old(HasModified(key)) ==>
        PageSet(Modified()) == old(PageSet(Modified())) - {page} && PageSet(Free()) == old(PageSet(Free()))
      ensures ok && !old(HasModified(key)) ==>
        Modified() == old(Modified()) && page == old(Free())[0].page && Free() == old(Free())[1..]
      ensures ok ==> PageSet(Free()) <= old(PageSet(Free()))
      ensures JustCleared(old(mem), mem)
      ensures !ok ==> Modified() == [] && |Free()| > 1
      ensures !ok ==> SameSlots(old(Free() + Modified() + Normal()[..Oldest()]), Free())
      ensures !ok ==> SameSlots(old(Normal()[Oldest()..]), Normal())
    {
      ok, page, i := TryNew(key);
      if !ok {
        MakeRoom();
      }
    }

    /** new_shadow1, which also gives up what the directories may link to. */
    method NewShadow1(key: nat, directories: SlotRing) returns (ok: bool, page: nat, i: nat)
      requires Valid() && directories.Valid() && this != directories && shadow != directories.shadow
      modifies this`mem, this`modified, this`normal, this`free, shadow
      modifies directories`mem, directories`normal, directories.shadow
      ensures Valid() && directories.Valid()
      ensures ok <==> old(HasModified(key)) || old(|Free()|) > 1
      ensures ok ==>
        page < |mem| && IsZero(mem[page]) && Normal() != [] && Normal()[|Normal()| - 1] == Slot(page, key, false)
      ensures ok ==> Normal()[..|Normal()| - 1] == old(Normal()) && i == old(free) && Plus(i, 1, shadow.Length) == free
      ensures ok ==> InUse(key, page) && OnlyCleared(old(mem), mem, {page})
      ensures ok && old(HasModified(key)) ==>
        PageSet(Modified()) == old(PageSet(Modified())) - {page} && PageSet(Free()) == old(PageSet(Free()))
      ensures ok && !old(HasModified(key)) ==>
        Modified() == old(Modified()) && page == old(Free())[0].page && Free() == old(Free())[1..]
      ensures ok ==> PageSet(Free()) <= old(PageSet(Free()))
      ensures JustCleared(old(mem), mem)
      ensures !ok ==> Modified() == [] && |Free()| > 1
      ensures !ok ==> SameSlots(old(Free() + Modified() + Normal()[..Oldest()]), Free())
      ensures !ok ==> SameSlots(old(Normal()[Oldest()..]), Normal())
      ensures ok ==> directories.mem == old(directories.mem) && directories.View() == old(directories.View())
      ensures ok ==> directories.normal == old(directories.normal)
      ensures !ok ==> directories.Normal() == [] && AllZero(directories.Modified(), directories.mem)
      ensures !ok ==> SameSlots(old(directories.InRing()), directories.Modified())
      ensures !ok ==> SameSlots(old(directories.Free()), directories.Free())
    {
      ok, page, i := TryNew(key);
      if !ok {
        MakeRoom1(directories);
      }
    }

    /** The part of both that hands out a page, if there is one. */
    method TryNew(key: nat) returns (ok: bool, page: nat, i: nat)
      requires Valid()
      modifies this`mem, this`modified, this`free, shadow
      ensures Valid() && (ok <==> old(HasModified(key)) || old(|Free()|) > 1)
      ensures ok ==> page < |mem| && IsZero(mem[page]) && Normal() == old(Normal()) + [Slot(page, key, false)]
      ensures ok ==> i == old(free) && Plus(i, 1, shadow.Length) == free
      ensures ok ==> InUse(key, page) && OnlyCleared(old(mem), mem, {page})
      ensures ok && old(HasModified(key)) ==>
        PageSet(Modified()) == old(PageSet(Modified())) - {page} && PageSet(Free()) == old(PageSet(Free()))
      ensures ok && !old(HasModified(key)) ==>
        Modified() == old(Modified()) && page == old(Free())[0].page && Free() == old(Free())[1..]
      ensures !ok ==> mem == old(mem) && shadow[..] == old(shadow[..]) && modified == old(modified) && free == old(free)
      ensures !ok ==> NumUsed() == shadow.Length - 1
    {
      var f := SearchModified(key);
      i := free;
      if f != normal {
        RingAt(shadow[..], modified, f);
        assert Modified()[Dist(modified, f, shadow.Length)] == shadow[f];
        page := Renew(f);
        NewestUsed();
        return true, page, i;
      }
      Forward(modified, free, shadow.Length);
      if Plus(free, 1, shadow.Length) == modified {
        return false, 0, i;
      }
      page := TakeFree(key);
      NewestUsed();
      ok := true;
    }

    /** The same for new_shadow1. */
    method MakeRoom1(directories: SlotRing)
      requires Valid() && NumUsed() == shadow.Length - 1
      requires directories.Valid() && this != directories && shadow != directories.shadow
      modifies this`mem, this`modified, this`normal, shadow
      modifies directories`mem, directories`normal, directories.shadow
      ensures Valid() && Modified() == [] && |Free()| > 1 && modified != Plus(free, 1, shadow.Length)
      ensures JustCleared(old(mem), mem)
      ensures SameSlots(old(Free() + Modified() + Normal()[..Oldest()]), Free())
      ensures SameSlots(old(Normal()[Oldest()..]), Normal())
      ensures directories.Valid() && directories.Normal() == [] && AllZero(directories.Modified(), directories.mem)
      ensures SameSlots(old(directories.InRing()), directories.Modified())
      ensures SameSlots(old(directories.Free()), directories.Free())
    {
      ghost var f, m, a, o := Free(), Modified(), Normal(), Oldest();
      if normal != free {
        GiveUpOldest();
      }
      GivenUp(f, m, a, o, Modified());
      CleanModified1(directories, true);
      Forward(modified, free, shadow.Length);
    }

    /** clean_modified_shadow1: once its modified slots are free, all of the directories are modified, and cleared. */
    method CleanModified1(directories: SlotRing, freeflag: bool)
      requires Valid() && directories.Valid() && this != directories && shadow != directories.shadow
      modifies this`mem, this`modified, shadow
      modifies directories`mem, directories`normal, directories.shadow
      ensures Valid() && directories.Valid() && SameSlots(old(Normal()), Normal()) && JustCleared(old(mem), mem)
      ensures !freeflag ==> SameSlots(old(Free()), Free())
      ensures !freeflag ==> directories.mem == old(directories.mem) && directories.View() == old(directories.View())
      ensures !freeflag ==> directories.normal == old(directories.normal)
      ensures freeflag ==> Modified() == [] && SameSlots(old(Free()) + old(Modified()), Free())
      ensures !freeflag ==> AllZero(Modified(), mem) && SameSlots(old(Modified()), Modified())
      ensures old(Modified()) != [] && freeflag ==>
        directories.Normal() == [] && AllZero(directories.Modified(), directories.mem)
      ensures SameSlots(old(directories.Free()), directories.Free())
      ensures old(Modified()) != [] && freeflag ==>
        SameSlots(old(directories.InRing()), directories.Modified())
    {
      if modified == normal {
        assert Modified() == [] && Free() + Modified() == Free();
        return;
      }
      CleanModified(freeflag);
      if freeflag {
        directories.DemoteAll();
      }
    }

    /** All slots in use become modified, and are cleared. */
    method DemoteAll()
      requires Valid()
      modifies this`mem, this`normal, shadow
      ensures Valid() && Normal() == [] && AllZero(Modified(), mem) && SameSlots(old(InRing()), Modified())
      ensures SameSlots(old(Free()), Free()) && modified == old(modified) && free == old(free)
    {
      Forward(modified, free, shadow.Length);
      normal := free;
      assert Normal() == [];
      ClearModified();
    }

    /** The search of is_shadow1_pde_ok. */
    method SearchUsed(key: nat, page: nat) returns (i: nat)
      requires Valid()
      ensures i < shadow.Length && 0 <= Dist(modified, i, shadow.Length) <= NumUsed()
      ensures i != free ==> shadow[i].key == key && shadow[i].page == page && shadow[i] in View()[..NumUsed()]
      ensures i == free ==> forall x :: x in View()[..NumUsed()] ==> !(x.key == key && x.page == page)
    {
      i := modified;
      var n := shadow.Length;
      Forward(modified, i, n);
      while i != free && !(shadow[i].key == key && shadow[i].page == page)
        invariant i < n && 0 <= Dist(modified, i, n) <= NumUsed()
        invariant forall d :: 0 <= d < Dist(modified, i, n) ==> !(View()[d].key == key && View()[d].page == page)
        decreases NumUsed() - Dist(modified, i, n)
      {
        Forward(modified, i, n);
        RingAt(shadow[..], modified, i);
        i := Plus(i, 1, n);
      }
      Forward(modified, i, n);
      Forward(modified, free, n);
      RingAt(shadow[..], modified, i);
    }

    /** is_shadow1_pde_ok: the page is still used for the key, and may get entries again. */
    method StillUsed(key: nat, page: nat) returns (ok: bool)
      requires Valid()
      modifies shadow
      ensures Valid() && SameSlots(old(View()), View())
      ensures ok <==> exists x :: x in old(Modified() + Normal()) && x.key == key && x.page == page
      ensures ok ==> InUse(key, page)
      ensures !ok ==> shadow[..] == old(shadow[..])
      ensures PageSet(Free()) == old(PageSet(Free()))
    {
      var i := SearchUsed(key, page);
      UsedRegions(View(), NumModified(), NumUsed());
      if i == free {
        return false;
      }
      RingAt(shadow[..], modified, i);
      Forward(modified, i, shadow.Length);
      Forward(modified, free, shadow.Length);
      ghost var f, d := Free(), Dist(modified, i, shadow.Length);
      UseSlot(i);
      assert Free() == f && InRing()[d] == shadow[i];
      ok := true;
    }

    /** The pmap_write of map_page: an entry of a page that may get entries. */
    method WriteEntry(ghost key: nat, page: nat, k: nat, x: int)
      requires Valid() && InUse(key, page) && k < ENTRIES
      modifies this`mem
      ensures Valid() && page < |mem| && mem == old(mem)[page := old(mem)[page][k := x]]
    {
      ghost var d :| 0 <= d < NumUsed() && View()[d] == Slot(page, key, false);
      WriteOk(shadow[..], mem, modified, d, NumUsed(), mem[page][k := x]);
      mem := mem[page := mem[page][k := x]];
    }

    /** The pmap_write of INVLPG: an entry of any page becomes zero. */
    method ZeroEntry(page: nat, k: nat)
      requires Valid() && page < |mem| && k < ENTRIES
      modifies this`mem
      ensures Valid() && mem == old(mem)[page := old(mem)[page][k := 0]]
    {
      mem := mem[page := mem[page][k := 0]];
    }

    /** clear_shadow1: every page is cleared and every slot free. */
    method ClearAll()
      requires SlotsOk(shadow[..], mem) && 2 <= shadow.Length
      modifies this, shadow
      ensures Valid() && Modified() == [] && Normal() == [] && JustCleared(old(mem), mem)
    {
      var n := shadow.Length;
      modified, normal, free := 0, 0, 0;
      for i := 0 to n
        invariant modified == normal == free == 0 && SlotsOk(shadow[..], mem) && JustCleared(old(mem), mem)
        invariant forall j :: 0 <= j < i ==> shadow[j].cleared
      {
        ClearSlot(i);
      }
      assert View() == shadow[..];
    }

    /** init_vcpu with clear_shadow1, on pages of any content. */
    constructor (pages: seq<Page>)
      requires |pages| >= 2 && Sized(pages)
      ensures Valid() && shadow.Length == |pages| && Modified() == [] && Normal() == []
      ensures fresh(shadow)
    {
      var n := |pages|;
      shadow := new Slot[n](i => Slot(i, 0, false));
      mem, modified, normal, free := pages, 0, 0, 0;
      new;
      ClearAll();
    }
  }
}
