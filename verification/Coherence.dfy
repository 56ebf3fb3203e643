/** What the shadow pages mean: the guest page tables, and the entries of a shadow that agree with them. */
module Coherence {
  import opened Wrappers
  import opened ShadowTypes

  /** A present guest entry: a link to the next frame, or a large page that starts at frame base. */
  datatype GEntry = Next(frame: nat) | BigPage(base: nat)

  /** The present entries of the guest page tables, by frame, format (2 for 32-bit entries, 3 for 64-bit) and index. */
  type Guest = map<(nat, nat, nat), GEntry>

  /** gmm_pass: frames of the VMM itself read as one blank page that must not be written. */
  datatype Gmm = Gmm(vmmStart: nat, vmmEnd: nat, blank: nat) {
    function Gp2hp(g: nat): (nat, bool) {
      if vmmStart <= g < vmmEnd then (blank, true) else (g, false)
    }
  }

  /** What lies in the VMM is mapped as the blank page, read-only, or not at all. */
  predicate Private(gmm: Gmm, e: Pte) {
    e.present && gmm.vmmStart <= e.frame < gmm.vmmEnd ==> !e.rw && e.frame == gmm.blank
  }

  ghost predicate VmmOk(gmm: Gmm, pages: seq<seq<Pte>>) {
    forall s, i :: 0 <= s < |pages| && 0 <= i < |pages[s]| ==> Private(gmm, pages[s][i])
  }

  /** The guest entry that entry j of the shadow of a page table stands for; a 32-bit guest table is split in two. */
  function LeafIndex(key: Key, j: nat): nat {
    if key.glevels == 2 then key.sub * 512 + j else j
  }

  /** The same for a page directory; a 32-bit guest directory is split in four, and each 4 MiB in two. */
  function DirIndex(key: Key, j: nat): nat {
    if key.glevels == 2 then key.sub * 256 + j / 2 else j
  }

  predicate LeafFrameOk(guest: Guest, gmm: Gmm, key: Key, j: nat, frame: nat) {
    if key.large then frame == gmm.Gp2hp(key.gfn + j).0
    else
      var x := (key.gfn, key.glevels, LeafIndex(key, j));
      x in guest && guest[x].Next? && frame == gmm.Gp2hp(guest[x].frame).0
  }

  predicate LeafEntryOk(guest: Guest, gmm: Gmm, key: Key, j: nat, e: Pte) {
    e.present ==> LeafFrameOk(guest, gmm, key, j, e.frame)
  }

  /** A directory entry of a shadow with key key2 may link to a shadow with key key1. */
  predicate DirEntryOk(guest: Guest, key2: Key, j: nat, key1: Key) {
    if key2.large then key1.large && key1.gfn == key2.gfn + 512 * j
    else
      var x := (key2.gfn, key2.glevels, DirIndex(key2, j));
      var half := if key2.glevels == 2 then j % 2 else 0;
      && x in guest
      && match guest[x]
         case Next(f) => !key1.large && key1.gfn == f && key1.glevels == key2.glevels && key1.sub == half
         case BigPage(b) => key1.large && key1.gfn == b + 512 * half
  }

  /** Every present PTE of the shadows listed agrees with the guest. */
  ghost predicate LeafOk(guest: Guest, gmm: Gmm, slots: seq<Slot>, list: seq<nat>, pages: seq<seq<Pte>>) {
    forall i, j :: i in list && i < |slots| && i < |pages| && 0 <= j < |pages[i]| ==>
      LeafEntryOk(guest, gmm, slots[i].key, j, pages[i][j])
  }

  /** Every PDE of the shadow directories listed agrees with the guest. */
  ghost predicate DirOk(guest: Guest, slots2: seq<Slot>, list: seq<nat>, pages2: seq<seq<Pde>>, slots1: seq<Slot>) {
    forall t, j :: t in list && t < |slots2| && t < |pages2| && 0 <= j < |pages2[t]| && pages2[t][j].Pde? ==>
      && pages2[t][j].slot < |slots1|
      && DirEntryOk(guest, slots2[t].key, j, slots1[pages2[t][j].slot].key)
  }

  /** Entries present in q are present in p and map the same frame. */
  ghost predicate FewerPresent(p: seq<seq<Pte>>, q: seq<seq<Pte>>) {
    && |p| == |q|
    && (forall s :: 0 <= s < |p| ==> |p[s]| == |q[s]|)
    && forall s, i :: 0 <= s < |q| && 0 <= i < |q[s]| && q[s][i].present ==>
      p[s][i].present && p[s][i].frame == q[s][i].frame
  }

  ghost predicate FewerLinks(p: seq<seq<Pde>>, q: seq<seq<Pde>>) {
    && |p| == |q|
    && (forall s :: 0 <= s < |p| ==> |p[s]| == |q[s]|)
    && forall s, i :: 0 <= s < |q| && 0 <= i < |q[s]| && q[s][i].Pde? ==> p[s][i].Pde? && p[s][i].slot == q[s][i].slot
  }

  lemma LeafKeeps(guest: Guest, gmm: Gmm, slots: seq<Slot>, slots': seq<Slot>, list: seq<nat>, list': seq<nat>,
                  p: seq<seq<Pte>>, q: seq<seq<Pte>>, clean: Option<nat>)
    requires LeafOk(guest, gmm, slots, list, p) && FewerPresent(p, q) && |slots| == |slots'|
    requires forall i :: i in list' && i < |slots| && Some(i) != clean ==> i in list && slots'[i].key == slots[i].key
    requires clean.Some? && clean.value < |q| ==> forall j :: 0 <= j < |q[clean.value]| ==> !q[clean.value][j].present
    ensures LeafOk(guest, gmm, slots', list', q)
  {
    forall i, j | i in list' && i < |slots'| && i < |q| && 0 <= j < |q[i]|
      ensures LeafEntryOk(guest, gmm, slots'[i].key, j, q[i][j])
    {
      if Some(i) != clean {
        assert LeafEntryOk(guest, gmm, slots[i].key, j, p[i][j]);
      }
    }
  }

  lemma DirKeeps(guest: Guest, slots2: seq<Slot>, slots2': seq<Slot>, list: seq<nat>, list': seq<nat>,
                 p: seq<seq<Pde>>, q: seq<seq<Pde>>, slots1: seq<Slot>, slots1': seq<Slot>, clean: Option<nat>)
    requires DirOk(guest, slots2, list, p, slots1) && FewerLinks(p, q) && |slots2| == |slots2'| && |slots1| == |slots1'|
    requires forall i :: i in list' && i < |slots2| && Some(i) != clean ==> i in list && slots2'[i].key == slots2[i].key
    requires clean.Some? && clean.value < |q| ==> forall j :: 0 <= j < |q[clean.value]| ==> !q[clean.value][j].Pde?
    requires forall t, j :: 0 <= t < |q| && 0 <= j < |q[t]| && q[t][j].Pde? && q[t][j].slot < |slots1| ==>
      slots1'[q[t][j].slot].key == slots1[q[t][j].slot].key
    ensures DirOk(guest, slots2', list', q, slots1')
  {
    forall t, j | t in list' && t < |slots2'| && t < |q| && 0 <= j < |q[t]| && q[t][j].Pde?
      ensures q[t][j].slot < |slots1'| && DirEntryOk(guest, slots2'[t].key, j, slots1'[q[t][j].slot].key)
    {
      assert p[t][j].Pde?;
    }
  }
}
