/** One level of shadow pages: the slots, their pages, the three lists and the hash table.
    The source has this twice, for shadow1 and shadow2. */
module ShadowPool {
  import opened Lists
  import opened Wrappers
  import opened ShadowTypes

  function HashIndex(key: Key, size: nat): (b: nat)
    requires size > 0
    ensures b < size
  {
    key.gfn % size
  }

  /** A slot is in the bucket of its key iff it is not free. */
  ghost predicate HashOk(slots: seq<Slot>, hash: seq<seq<nat>>, free: seq<nat>) {
    && |hash| > 0
    && (forall i :: 0 <= i < |slots| && i !in free ==> i in hash[HashIndex(slots[i].key, |hash|)])
    && (forall b, x {:trigger x in hash[b]} :: 0 <= b < |hash| && x in hash[b] ==>
          x < |slots| && x !in free && HashIndex(slots[x].key, |hash|) == b)
    && (forall b :: 0 <= b < |hash| ==> NoDup(hash[b]))
  }

  /** No two hashed slots share a key. */
  ghost predicate KeysDistinct(slots: seq<Slot>, free: seq<nat>) {
    forall i, j :: 0 <= i < |slots| && 0 <= j < |slots| && i !in free && j !in free && i != j ==>
      slots[i].key != slots[j].key
  }

  /** KEY_MODIFIED is set iff the slot is on the modified list, for every slot that is not free. */
  ghost predicate FlagsOk(slots: seq<Slot>, modified: seq<nat>, free: seq<nat>) {
    forall i :: 0 <= i < |slots| && i !in free ==> (slots[i].modified <==> i in modified)
  }

  ghost predicate PagesOk<T>(zero: T, slots: seq<Slot>, pages: seq<seq<T>>, free: seq<nat>) {
    && |pages| == |slots|
    && (forall i :: 0 <= i < |slots| ==> Covered(zero, pages[i], slots[i].info))
    && (forall i :: i in free && i < |slots| ==> slots[i].info.n == 0)
  }

  /** A shadow of guest frame g itself, not of a large page around it. */
  predicate ShadowsFrame(key: Key, g: nat) {
    !key.large && key.gfn == g
  }

  /** Slots changed at most in their flag, and no slot became normal. */
  ghost predicate SameUse(slots: seq<Slot>, slots': seq<Slot>, normal: seq<nat>, normal': seq<nat>) {
    && |slots| == |slots'|
    && (forall i :: 0 <= i < |slots| ==> slots'[i].key == slots[i].key && slots'[i].info == slots[i].info)
    && (forall i :: i in normal' ==> i in normal)
  }

  ghost predicate IsZero<T>(zero: T, page: seq<T>) {
    && |page| == ENTRIES
    && forall i :: 0 <= i < ENTRIES ==> page[i] == zero
  }

  /** Slot i after the first k slots of a list have been cleaned: only those of the list change, in page and flag. */
  ghost predicate CleanedAt<T>(zero: T, slots0: seq<Slot>, pages0: seq<seq<T>>, slots: seq<Slot>, pages: seq<seq<T>>,
                               list: seq<nat>, k: nat, i: nat)
    requires |slots0| == |pages0| == |slots| == |pages| && k <= |list| && i < |slots|
  {
    && slots[i].key == slots0[i].key && slots[i].modified == slots0[i].modified
    && (i !in list ==> pages[i] == pages0[i] && slots[i] == slots0[i])
    && (i in list[..k] ==> IsZero(zero, pages[i]))
  }

  ghost predicate CleanedUpTo<T>(zero: T, slots0: seq<Slot>, pages0: seq<seq<T>>, slots: seq<Slot>, pages: seq<seq<T>>,
                                 list: seq<nat>, k: nat)
  {
    && |slots0| == |pages0| == |slots| == |pages| && k <= |list|
    && forall i :: 0 <= i < |slots| ==> CleanedAt(zero, slots0, pages0, slots, pages, list, k, i)
  }

  lemma CleanedOne<T>(zero: T, slots0: seq<Slot>, pages0: seq<seq<T>>, slots: seq<Slot>, pages: seq<seq<T>>,
                      slots': seq<Slot>, pages': seq<seq<T>>, list: seq<nat>, k: nat, l: nat)
    requires CleanedUpTo(zero, slots0, pages0, slots, pages, list, k) && k < |list| && l == k + 1 && list[k] < |slots|
    requires slots' == slots[list[k] := Cleared(slots[list[k]])] && |pages'| == |pages|
    requires pages' == pages[list[k] := pages'[list[k]]] && IsZero(zero, pages'[list[k]])
    ensures CleanedUpTo(zero, slots0, pages0, slots', pages', list, l)
  {
    forall i | 0 <= i < |slots'| ensures CleanedAt(zero, slots0, pages0, slots', pages', list, l, i) {
      assert CleanedAt(zero, slots0, pages0, slots, pages, list, k, i);
      assert list[..l] == list[..k] + [list[k]];
    }
  }

  lemma CleanedAll<T>(zero: T, slots0: seq<Slot>, pages0: seq<seq<T>>, slots: seq<Slot>, pages: seq<seq<T>>,
                      list: seq<nat>)
    requires CleanedUpTo(zero, slots0, pages0, slots, pages, list, |list|)
    requires forall i :: i in list ==> i < |slots|
    ensures |pages| == |pages0| == |slots| == |slots0|
    ensures forall i :: 0 <= i < |slots| ==> slots[i].key == slots0[i].key && slots[i].modified == slots0[i].modified
    ensures forall i :: 0 <= i < |slots| && i !in list ==> pages[i] == pages0[i] && slots[i] == slots0[i]
    ensures forall i :: i in list ==> IsZero(zero, pages[i])
  {
    assert list[..|list|] == list;
    forall i | 0 <= i < |slots|
      ensures slots[i].key == slots0[i].key && slots[i].modified == slots0[i].modified
      ensures i !in list ==> pages[i] == pages0[i] && slots[i] == slots0[i]
      ensures i in list ==> IsZero(zero, pages[i])
    {
      assert CleanedAt(zero, slots0, pages0, slots, pages, list, |list|, i);
    }
  }

  class Pool<T(==)> {
    const zero: T
    const num: nat
    var slots: seq<Slot>
    var pages: seq<seq<T>>
    var modified: seq<nat>
    var normal: seq<nat>
    var free: seq<nat>
    var hash: seq<seq<nat>>

    /** init_vcpu and clear_shadow1/2: num pages of arbitrary content, recorded as fully dirty, then cleared. */
    constructor (zero: T, dirty: seq<seq<T>>, hashSize: nat)
      requires |dirty| > 0 && hashSize > 0
      requires forall i :: 0 <= i < |dirty| ==> |dirty[i]| == ENTRIES
      ensures Valid() && this.zero == zero && num == |dirty| && |hash| == hashSize
      ensures modified == [] && normal == []
      ensures forall i :: 0 <= i < num ==> IsZero(zero, pages[i])
    {
      var key0 := Key(0, 0, 0, false, false, false, false, false);
      var dirtyInfo := ClearInfo(NUM_OF_SPTSHADOWOFF + 1, seq(NUM_OF_SPTSHADOWOFF, _ => 0), seq(64, _ => true));
      var dirtySlot := Slot(key0, false, dirtyInfo);
      this.zero := zero;
      num := |dirty|;
      slots := seq(|dirty|, _ => dirtySlot);
      pages := dirty;
      modified, normal, free := [], [], [];
      hash := seq(hashSize, _ => []);
      new;
      assert dirtyInfo.area[0];
      for i := 0 to num
        modifies `slots, `pages, `free
        invariant |slots| == |pages| == num
        invariant free == seq(i, k => k)
        invariant forall k :: 0 <= k < i ==> IsZero(zero, pages[k]) && slots[k] == Cleared(dirtySlot)
        invariant forall k :: i <= k < num ==> pages[k] == dirty[k] && slots[k] == dirtySlot
      {
        ClearShadow(i);
        free := free + [i];
      }
      assert forall k :: 0 <= k < num ==> k in free by {
        forall k | 0 <= k < num ensures k in free { assert free[k] == k; }
      }
    }

    ghost predicate Valid()
      reads this
    {
      && |slots| == num
      && Partition(modified, normal, free, num)
      && HashOk(slots, hash, free)
      && KeysDistinct(slots, free)
      && FlagsOk(slots, modified, free)
      && PagesOk(zero, slots, pages, free)
    }

    /** Slot i is in exactly one list, the flag names the modified one, it is hashed under its key iff it is in use,
        and no other slot in use has its key. */
    ghost predicate Agreed(i: nat)
      requires i < |slots|
      reads this
    {
      && (i in free <==> i !in modified && i !in normal) && (i in modified ==> i !in normal)
      && (i in modified <==> i !in free && slots[i].modified)
      && |hash| > 0 && (i !in free <==> exists b :: 0 <= b < |hash| && i in hash[b])
      && (i !in free ==> i in hash[HashIndex(slots[i].key, |hash|)])
      && forall j :: 0 <= j < |slots| && j != i && j !in free && i !in free ==> slots[j].key != slots[i].key
    }

    /** The slot is in use and entry off of its page may be written. */
    ghost predicate MayWrite(i: nat, off: nat)
      reads this
    {
      i < |slots| && i !in free && Recorded(slots[i].info, off)
    }

    /** update_clearinfo. */
    method UpdateClearinfo(i: nat, off: nat)
      requires Valid() && i < num && i !in free && off < ENTRIES
      modifies `slots
      ensures Valid() && MayWrite(i, off)
      ensures slots == old(slots)[i := slots[i]]
      ensures slots[i].key == old(slots[i].key) && slots[i].modified == old(slots[i].modified)
      ensures forall o :: 0 <= o < ENTRIES && old(MayWrite(i, o)) ==> MayWrite(i, o)
    {
      var c := NoteWrite(slots[i].info, off);
      slots := slots[i := slots[i].(info := c)];
    }

    /** clear_shadow: the recorded entries are cleared, by the short list of offsets or by the runs of area. */
    method ClearShadow(i: nat)
      requires |slots| == |pages| && i < |slots| && Covered(zero, pages[i], slots[i].info)
      modifies `slots, `pages
      ensures slots == old(slots)[i := Cleared(old(slots)[i])]
      ensures |pages| == |old(pages)| && pages == old(pages)[i := pages[i]]
      ensures IsZero(zero, pages[i])
      ensures var info := slots[i].info;
        info.n == 0 && |info.area| == 64 && forall b :: 0 <= b < 64 ==> !info.area[b]
    {
      var c := slots[i].info;
      if c.n > 0 {
        var page := pages[i];
        if c.n < NUM_OF_SPTSHADOWOFF {
          page := ClearList(zero, page, c);
        } else {
          CoveredOutside(zero, page, c);
          page := ClearRuns(zero, page, c.area);
        }
        pages := pages[i := page];
      }
      slots := slots[i := Cleared(slots[i])];
    }

    /** find_shadow1_from_hash and find_shadow2_from_hash. */
    method FindFromHash(key: Key) returns (pn: Option<nat>, pm: Option<nat>)
      requires Valid()
      ensures pn.Some? ==> pm.None? && pn.value in normal && slots[pn.value].key == key
      ensures pm.Some? ==> pn.None? && pm.value in modified && slots[pm.value].key == key
      ensures pn.None? && pm.None? ==> forall i :: 0 <= i < num && i !in free ==> slots[i].key != key
    {
      pn, pm := None, None;
      var hs := HashIndex(key, |hash|);
      for k := 0 to |hash[hs]|
        invariant forall i :: i in hash[hs][..k] ==> i < |slots| && slots[i].key != key
      {
        var p := hash[hs][k];
        assert p in hash[hs];
        if slots[p].key == key {
          if slots[p].modified {
            pm := Some(p);
          } else {
            pn := Some(p);
          }
          return;
        }
        assert hash[hs][..k + 1] == hash[hs][..k] + [p];
      }
      assert hash[hs][..|hash[hs]|] == hash[hs];
    }

    /** A normal slot is used again: it becomes the youngest, and the entry about to be written is recorded. */
    method Refresh(i: nat, off: nat)
      requires Valid() && i in normal && off < ENTRIES
      modifies `slots, `normal
      ensures Valid() && MayWrite(i, off)
      ensures normal == Del(old(normal), i) + [i]
      ensures slots == old(slots)[i := slots[i]] && slots[i].key == old(slots[i].key)
      ensures forall o :: 0 <= o < ENTRIES && old(MayWrite(i, o)) ==> MayWrite(i, o)
    {
      MoveToEnd(normal, i);
      normal := Del(normal, i) + [i];
      UpdateClearinfo(i, off);
    }

    /** modified_shadow1 and modified_shadow2, for a slot that is not flagged yet. */
    method SetModified(i: nat)
      requires Valid() && i in normal
      modifies `slots, `normal, `modified
      ensures Valid()
      ensures normal == Del(old(normal), i) && modified == old(modified) + [i]
      ensures slots == old(slots)[i := old(slots)[i].(modified := true)]
    {
      NoDupAdd(modified, i);
      normal := Del(normal, i);
      modified := modified + [i];
      slots := slots[i := slots[i].(modified := true)];
    }

    /** The loop of update_shadow over one bucket: with needrw every normal shadow of guest frame g is flagged
        modified, otherwise the answer is whether there is none. */
    method ScanFrame(g: nat, needrw: bool) returns (rw: bool)
      requires Valid()
      modifies `slots, `normal, `modified
      ensures Valid()
      ensures rw ==> forall i :: i in normal && i < num ==> !ShadowsFrame(slots[i].key, g)
      ensures !rw ==> exists i :: i in normal && i < num && ShadowsFrame(slots[i].key, g)
      ensures needrw ==> rw
      ensures !needrw ==> slots == old(slots) && normal == old(normal) && modified == old(modified)
      ensures SameUse(old(slots), slots, old(normal), normal)
    {
      rw := true;
      var bucket := hash[g % |hash|];
      for k := 0 to |bucket|
        invariant Valid()
        invariant !needrw ==> slots == old(slots) && normal == old(normal) && modified == old(modified)
        invariant SameUse(old(slots), slots, old(normal), normal)
        invariant forall i :: i in bucket[..k] && i in normal ==> i < num && !ShadowsFrame(slots[i].key, g)
      {
        var p := bucket[k];
        assert p in bucket && bucket[..k + 1] == bucket[..k] + [p];
        if !slots[p].modified && ShadowsFrame(slots[p].key, g) {
          if !needrw {
            return false;
          }
          SetModified(p);
        }
      }
      assert bucket[..|bucket|] == bucket;
    }

    /** A modified slot whose page has been cleared leaves the hash and goes to the head of the free list. */
    method Retire(p: nat)
      requires Valid() && p in modified && p == modified[0] && slots[p].info.n == 0
      modifies `modified, `free, `hash
      ensures Valid()
      ensures modified == old(modified)[1..] && free == [p] + old(free)
    {
      HeadTail(modified);
      NoDupPush(free, p);
      var hs := HashIndex(slots[p].key, |hash|);
      hash := hash[hs := Del(hash[hs], p)];
      modified := modified[1..];
      free := [p] + free;
    }

    /** The part of new_shadow1/2 that reuses a modified slot of the same key. */
    method Reuse(p: nat, off: nat)
      requires Valid() && p in modified && off < ENTRIES
      modifies `slots, `pages, `normal, `modified
      ensures Valid() && MayWrite(p, off)
      ensures modified == Del(old(modified), p) && normal == old(normal) + [p]
      ensures slots == old(slots)[p := slots[p]] && slots[p].key == old(slots[p].key)
      ensures pages == old(pages)[p := pages[p]] && IsZero(zero, pages[p])
    {
      Clean(p);
      SetNormal(p);
      UpdateClearinfo(p, off);
    }

    /** A modified slot goes to the end of the normal list. */
    method SetNormal(p: nat)
      requires Valid() && p in modified
      modifies `slots, `normal, `modified
      ensures Valid()
      ensures modified == Del(old(modified), p) && normal == old(normal) + [p]
      ensures slots == old(slots)[p := old(slots)[p].(modified := false)]
    {
      NoDupAdd(normal, p);
      modified := Del(modified, p);
      normal := normal + [p];
      slots := slots[p := slots[p].(modified := false)];
    }

    /** The part of new_shadow1/2 that takes a free slot. */
    method Take(key: Key, off: nat) returns (p: nat)
      requires Valid() && free != [] && off < ENTRIES
      requires forall i :: 0 <= i < num && i !in free ==> slots[i].key != key
      modifies `slots, `normal, `free, `hash
      ensures Valid() && MayWrite(p, off)
      ensures p == old(free)[0] && free == old(free)[1..] && normal == old(normal) + [p]
      ensures slots == old(slots)[p := slots[p]] && slots[p].key == key
    {
      p := free[0];
      HeadTail(free);
      NoDupAdd(normal, p);
      HashTake(slots, hash, free, key);
      free := free[1..];
      var hs := HashIndex(key, |hash|);
      hash := hash[hs := hash[hs] + [p]];
      normal := normal + [p];
      slots := slots[p := slots[p].(key := key, modified := false)];
      UpdateClearinfo(p, off);
    }

    /** A store to one entry: it must be recorded, or not turn a zero entry into another value. */
    method Put(i: nat, off: nat, t: T)
      requires Valid() && i < num && off < ENTRIES
      requires MayWrite(i, off) || t == zero || pages[i][off] != zero
      modifies `pages
      ensures Valid()
      ensures pages == old(pages)[i := old(pages)[i][off := t]]
    {
      pages := pages[i := pages[i][off := t]];
    }

    /** clean_modified_shadow1/2 with freeflag false: the modified pages are cleared and stay hashed. */
    method ClearModified()
      requires Valid()
      modifies `slots, `pages
      ensures Valid()
      ensures |pages| == |old(pages)|
      ensures forall i :: 0 <= i < num ==>
        slots[i].key == old(slots)[i].key && slots[i].modified == old(slots)[i].modified
      ensures forall i :: 0 <= i < num && i !in modified ==> pages[i] == old(pages)[i] && slots[i] == old(slots)[i]
      ensures forall i :: i in modified ==> i < num && IsZero(zero, pages[i])
    {
      for k := 0 to |modified|
        invariant Valid() && CleanedUpTo(zero, old(slots), old(pages), slots, pages, modified, k)
      {
        var i := modified[k];
        ghost var slots0, pages0 := slots, pages;
        assert i in modified;
        Clean(i);
        CleanedOne(zero, old(slots), old(pages), slots0, pages0, slots, pages, modified, k, k + 1);
      }
      CleanedAll(zero, old(slots), old(pages), slots, pages, modified);
    }

    /** clear_shadow on a slot of a valid pool. */
    method Clean(i: nat)
      requires Valid() && i < num
      modifies `slots, `pages
      ensures Valid()
      ensures slots == old(slots)[i := Cleared(old(slots)[i])]
      ensures |pages| == |old(pages)| && pages == old(pages)[i := pages[i]]
      ensures IsZero(zero, pages[i])
    {
      ClearShadow(i);
    }
  }

  lemma HashTake(slots: seq<Slot>, hash: seq<seq<nat>>, free: seq<nat>, key: Key)
    requires HashOk(slots, hash, free) && NoDup(free) && free != [] && free[0] < |slots|
    ensures var p, hs := free[0], HashIndex(key, |hash|);
            HashOk(slots[p := slots[p].(key := key, modified := false)], hash[hs := hash[hs] + [p]], free[1..])
  {
    var p, hs := free[0], HashIndex(key, |hash|);
    HeadTail(free);
    NoDupAdd(hash[hs], p);
  }

  /** The stores of update_clearinfo, on the book-keeping of one slot. */
  method NoteWrite(info: ClearInfo, off: nat) returns (c: ClearInfo)
    requires InfoOk(info) && off < ENTRIES
    ensures InfoOk(c) && Recorded(c, off)
    ensures forall o :: 0 <= o < ENTRIES && Recorded(info, o) ==> Recorded(c, o)
  {
    c := info;
    var j := off / 2;
    if c.n < NUM_OF_SPTSHADOWOFF {
      c := c.(off := c.off[c.n := j], n := c.n + 1);
      assert c.off[c.n - 1] == off / 2;
    } else if c.n == NUM_OF_SPTSHADOWOFF {
      c := c.(n := c.n + 1);
    }
    c := c.(area := c.area[off / 8 := true]);
    assert c.area[off / 8];
    forall o | 0 <= o < ENTRIES && Listed(info, o) && c.n <= NUM_OF_SPTSHADOWOFF
      ensures Listed(c, o)
    {
      var k :| 0 <= k < info.n && k < NUM_OF_SPTSHADOWOFF && info.off[k] == o / 2;
      assert c.off[k] == o / 2;
    }
  }

  function Cleared(s: Slot): Slot {
    s.(info := s.info.(n := 0, area := seq(64, _ => false)))
  }

  method ClearList<T(==)>(zero: T, page: seq<T>, c: ClearInfo) returns (p: seq<T>)
    requires Covered(zero, page, c) && c.n < NUM_OF_SPTSHADOWOFF
    ensures IsZero(zero, p)
  {
    p := page;
    for i := 0 to c.n
      invariant |p| == ENTRIES
      invariant forall o :: 0 <= o < ENTRIES && p[o] != zero ==>
        page[o] != zero && forall k :: 0 <= k < i ==> c.off[k] != o / 2
    {
      var j := c.off[i] * 2;
      p := p[j := zero];
      p := p[j + 1 := zero];
    }
    assert forall o :: 0 <= o < ENTRIES && p[o] != zero ==> Recorded(c, o) && !Listed(c, o);
  }

  ghost predicate ZeroOutside<T>(zero: T, page: seq<T>, area: seq<bool>) {
    && |page| == ENTRIES
    && |area| == 64
    && forall o :: 0 <= o < ENTRIES && !area[o / 8] ==> page[o] == zero
  }

  predicate AnySet(bits: seq<bool>) {
    exists b :: 0 <= b < |bits| && bits[b]
  }

  lemma SkippedIsZero<T>(zero: T, page: seq<T>, area: seq<bool>, from: nat, to: nat)
    requires ZeroOutside(zero, page, area) && from <= to <= 64
    requires forall b :: from <= b < to ==> !area[b]
    ensures forall o :: 8 * from <= o < 8 * to ==> page[o] == zero
  {
    forall o | 8 * from <= o < 8 * to
      ensures page[o] == zero
    {
      assert from <= o / 8 < to;
    }
  }

  /** The page when the entries of the areas from start to end have been cleared. */
  function WithRun<T>(zero: T, page: seq<T>, start: nat, end: nat): (p: seq<T>)
    requires |page| == ENTRIES && start <= end <= 64
    ensures |p| == ENTRIES
    ensures forall o :: 0 <= o < ENTRIES ==> p[o] == if 8 * start <= o < 8 * end then zero else page[o]
  {
    page[..8 * start] + seq(8 * (end - start), _ => zero) + page[8 * end..]
  }

  lemma RunCleared<T>(zero: T, page: seq<T>, area: seq<bool>, p: seq<T>, pos: nat, start: nat, end: nat)
    requires ZeroOutside(zero, page, area) && |p| == ENTRIES && pos <= start <= end <= 64
    requires forall b :: pos <= b < start ==> !area[b]
    requires (forall o :: 0 <= o < 8 * pos ==> p[o] == zero) && p[8 * pos..] == page[8 * pos..]
    ensures var q := WithRun(zero, p, start, end);
      (forall o :: 0 <= o < 8 * end ==> q[o] == zero) && q[8 * end..] == page[8 * end..]
  {
    var q := WithRun(zero, p, start, end);
    SkippedIsZero(zero, page, area, pos, start);
    forall o | 8 * pos <= o < ENTRIES ensures p[o] == page[o] {
      assert p[8 * pos..][o - 8 * pos] == page[8 * pos..][o - 8 * pos];
    }
  }

  /** The loop over the runs of set bits of area; tmp is the unread rest of area, pos its position. */
  method ClearRuns<T(==)>(zero: T, page: seq<T>, area: seq<bool>) returns (p: seq<T>)
    requires ZeroOutside(zero, page, area)
    ensures IsZero(zero, p)
  {
    p := page;
    var tmp := area;
    var pos := 0;
    while AnySet(tmp)
      invariant 0 <= pos <= 64 && tmp == area[pos..]
      invariant |p| == ENTRIES
      invariant forall o :: 0 <= o < 8 * pos ==> p[o] == zero
      invariant p[8 * pos..] == page[8 * pos..]
      decreases 64 - pos
    {
      var start, end := NextRun(area, pos);
      RunCleared(zero, page, area, p, pos, start, end);
      p := WithRun(zero, p, start, end);
      tmp, pos := area[end..], end;
    }
    assert forall b :: pos <= b < 64 ==> area[b] == tmp[b - pos];
    SkippedIsZero(zero, page, area, pos, 64);
  }

  /** The inner loops: skip clear bits, then take the run of set bits that follows. */
  method NextRun(area: seq<bool>, pos: nat) returns (start: nat, end: nat)
    requires pos <= |area| && AnySet(area[pos..])
    ensures pos <= start < end <= |area|
    ensures forall b :: pos <= b < start ==> !area[b]
    ensures forall b :: start <= b < end ==> area[b]
  {
    ghost var set0 :| pos <= set0 < |area| && area[set0];
    start := pos;
    while !area[start]
      invariant pos <= start <= set0
      invariant forall b :: pos <= b < start ==> !area[b]
      decreases set0 - start
    {
      start := start + 1;
    }
    end := start + 1;
    while end < |area| && area[end]
      invariant start < end <= |area|
      invariant forall b :: start <= b < end ==> area[b]
    {
      end := end + 1;
    }
  }

  lemma CoveredOutside<T>(zero: T, page: seq<T>, c: ClearInfo)
    requires Covered(zero, page, c)
    ensures ZeroOutside(zero, page, c.area)
  {
    assert forall o :: 0 <= o < ENTRIES && !c.area[o / 8] ==> !Recorded(c, o);
  }
}
