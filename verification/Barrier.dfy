/** The all-CPU barrier (core/ap.c: sync_all_processors), under any interleaving of its CPUs. */
module Barrier {

  const U32: nat := 0x1_0000_0000

  /** The locals of one CPU; entered and left count the rounds it has entered and left. */
  datatype Cpu = Cpu(waiting: bool, id: nat, entered: nat, left: nat)

  /** How many CPUs have entered round r as their latest. */
  function Arrived(cpus: seq<Cpu>, r: nat): (n: nat)
    ensures n <= |cpus|
  {
    if cpus == [] then 0
    else Arrived(cpus[..|cpus| - 1], r) + if cpus[|cpus| - 1].entered == r then 1 else 0
  }

  lemma {:induction false} OneArrives(cpus: seq<Cpu>, c: nat, x: Cpu, r: nat)
    requires c < |cpus|
    ensures Arrived(cpus[c := x], r) + (if cpus[c].entered == r then 1 else 0)
         == Arrived(cpus, r) + if x.entered == r then 1 else 0
  {
    var l := |cpus| - 1;
    if c == l {
      assert cpus[c := x][..l] == cpus[..l];
    } else {
      OneArrives(cpus[..l], c, x, r);
      assert cpus[c := x][..l] == cpus[..l][c := x];
    }
  }

  lemma {:induction false} AllArrived(cpus: seq<Cpu>, r: nat)
    ensures Arrived(cpus, r) == |cpus| <==> forall c :: 0 <= c < |cpus| ==> cpus[c].entered == r
    ensures Arrived(cpus, r) == 0 <==> forall c :: 0 <= c < |cpus| ==> cpus[c].entered != r
  {
    if cpus != [] {
      var l := |cpus| - 1;
      AllArrived(cpus[..l], r);
      assert forall c :: 0 <= c < l ==> cpus[..l][c] == cpus[c];
    }
  }

  /** Between done rounds and the next, a CPU is outside, waits for the next release, or has yet to notice the last. */
  predicate CpuOk(x: Cpu, done: nat) {
    if x.waiting then
      && x.entered == x.left + 1 && x.id == x.left % U32
      && (x.entered == done || x.entered == done + 1)
    else x.entered == x.left == done
  }

  ghost predicate CpusOk(cpus: seq<Cpu>, done: nat) {
    forall c :: 0 <= c < |cpus| ==> CpuOk(cpus[c], done)
  }

  lemma CpuKept(cpus: seq<Cpu>, c: nat, x: Cpu, done: nat)
    requires CpusOk(cpus, done) && c < |cpus| && CpuOk(x, done)
    ensures CpusOk(cpus[c := x], done)
  {
  }

  ghost predicate OthersIn(cpus: seq<Cpu>, c: nat)
    requires c < |cpus|
  {
    forall d :: 0 <= d < |cpus| && d != c ==> cpus[d].entered > cpus[c].entered
  }

  /** CPU c is the last to enter when all the others have. */
  lemma LastIn(cpus: seq<Cpu>, c: nat, done: nat)
    requires c < |cpus| && cpus[c].entered == done
    requires CpusOk(cpus, done)
    ensures Arrived(cpus, done + 1) + 1 == |cpus| <==> OthersIn(cpus, c)
  {
    var x := cpus[c].(entered := done + 1);
    OneArrives(cpus, c, x, done + 1);
    AllArrived(cpus[c := x], done + 1);
    assert forall d :: 0 <= d < |cpus| && d != c ==> cpus[c := x][d] == cpus[d];
  }

  /** The round that follows starts with nobody in it. */
  lemma NextRound(cpus: seq<Cpu>, c: nat, x: Cpu, done: nat)
    requires c < |cpus| && x == Cpu(false, x.id, done + 1, done + 1)
    requires CpusOk(cpus, done)
    requires cpus[c].entered == done && OthersIn(cpus, c)
    ensures Arrived(cpus[c := x], done + 2) == 0
    ensures CpusOk(cpus[c := x], done + 1)
  {
    AllArrived(cpus[c := x], done + 2);
  }

  lemma NextId(done: nat)
    ensures (done % U32 + 1) % U32 == (done + 1) % U32
  {
  }

  class Barrier {
    /** num_of_processors + 1. */
    const n: nat
    var syncId: nat
    var syncCount: nat
    var cpus: seq<Cpu>
    /** History: the number of releases. */
    var done: nat
    /** The CPUs that have had their turn so far. */
    ghost var history: seq<nat>

    ghost predicate Valid()
      reads this
    {
      && 0 < n == |cpus|
      && syncId == done % U32
      && syncCount < n && syncCount == Arrived(cpus, done + 1)
      && CpusOk(cpus, done)
    }

    constructor (n: nat)
      requires 0 < n
      ensures Valid() && this.n == n
    {
      this.n, syncId, syncCount, done := n, 0, 0, 0;
      cpus := seq(n, _ => Cpu(false, 0, 0, 0));
      new;
      AllArrived(cpus, 1);
    }

    /** The section under sync_lock; r says that this CPU is the last, and goes on at once. */
    method Enter(c: nat) returns (r: bool)
      requires Valid() && c < n && !cpus[c].waiting
      modifies this
      ensures Valid()
      ensures r <==> OthersIn(old(cpus), c)
      ensures done == (if r then old(done) + 1 else old(done)) && history == old(history)
      ensures cpus == old(cpus)[c := Cpu(!r, old(syncId), old(cpus)[c].entered + 1,
                                         old(cpus)[c].left + if r then 1 else 0)]
    {
      var x := cpus[c];
      var y := Cpu(true, syncId, x.entered + 1, x.left);
      assert x.entered == done;
      LastIn(cpus, c, done);
      OneArrives(cpus, c, y, done + 1);
      syncCount := syncCount + 1;
      if syncCount == n {
        y := y.(waiting := false, left := x.left + 1);
        NextRound(cpus, c, y, done);
        NextId(done);
        syncCount, syncId, done, cpus := 0, (syncId + 1) % U32, done + 1, cpus[c := y];
        return true;
      }
      CpuKept(cpus, c, y, done);
      cpus := cpus[c := y];
      return false;
    }

    /** One turn of the loop that waits; r says that the CPU leaves. */
    method Poll(c: nat) returns (r: bool)
      requires Valid() && c < n && cpus[c].waiting
      modifies this`cpus
      ensures Valid()
      ensures r <==> forall d :: 0 <= d < n ==> cpus[d].entered >= cpus[c].entered
      ensures cpus == if r then old(cpus)[c := Cpu(false, syncId, old(cpus)[c].entered, old(cpus)[c].left + 1)]
                      else old(cpus)
    {
      var x := cpus[c];
      NotifiedOnce(c);
      OneArrives(cpus, c, Cpu(false, syncId, x.entered, x.left + 1), done + 1);
      if syncId != x.id {
        cpus := cpus[c := Cpu(false, syncId, x.entered, x.left + 1)];
        return true;
      }
      return false;
    }

    /** The counter has moved by at most one since a waiting CPU read it, so it shows the release, even when it wraps;
        and the release comes exactly when the last CPU has entered. */
    lemma NotifiedOnce(c: nat)
      requires Valid() && c < n && cpus[c].waiting
      ensures syncId != cpus[c].id <==> cpus[c].entered == done
      ensures syncId != cpus[c].id <==> forall d :: 0 <= d < n ==> cpus[d].entered >= cpus[c].entered
    {
      AllArrived(cpus, done + 1);
      var k := cpus[c].left;
      assert done == k || done == k + 1;
      assert (k + 1) % U32 != k % U32;
    }

    /** Nobody leaves a round that somebody has not entered. */
    lemma NobodyLeavesEarly(c: nat, d: nat)
      requires Valid() && c < n && d < n
      ensures cpus[c].left <= cpus[d].entered
    {
      assert CpuOk(cpus[c], done) && CpuOk(cpus[d], done);
    }

    lemma OneRoundApart(c: nat, d: nat)
      requires Valid() && c < n && d < n
      ensures cpus[c].left <= cpus[d].left + 1 && cpus[d].left <= cpus[c].left + 1
    {
      assert CpuOk(cpus[c], done) && CpuOk(cpus[d], done);
    }

    /** When every CPU has entered round k, every CPU still waiting there leaves at its next turn. */
    lemma Released(k: nat, c: nat)
      requires Valid() && c < n && cpus[c].waiting && cpus[c].entered == k
      requires forall d :: 0 <= d < n ==> cpus[d].entered >= k
      ensures syncId != cpus[c].id
    {
      NotifiedOnce(c);
    }

    /** They never all wait in vain. */
    lemma NoDeadlock()
      requires Valid() && forall c :: 0 <= c < n ==> cpus[c].waiting
      ensures exists c :: 0 <= c < n && syncId != cpus[c].id
    {
      AllArrived(cpus, done + 1);
      var c :| 0 <= c < n && cpus[c].entered != done + 1;
      NotifiedOnce(c);
    }

    /** The turn of CPU c: it polls if it waits, and else enters the next round. */
    method Turn(c: nat)
      requires Valid()
      modifies this
      ensures Valid() && done >= old(done) && history == old(history) + [c]
      ensures if c >= n then cpus == old(cpus)
              else && cpus == old(cpus)[c := cpus[c]]
                   && cpus[c].entered == old(cpus)[c].entered + (if old(cpus)[c].waiting then 0 else 1)
                   && (old(cpus)[c].waiting ==>
                         (!cpus[c].waiting <==> forall d :: 0 <= d < n ==> cpus[d].entered >= cpus[c].entered))
    {
      if c < n {
        if cpus[c].waiting {
          var _ := Poll(c);
        } else {
          var _ := Enter(c);
        }
      }
      history := history + [c];
    }

    /** Any interleaving. */
    method Run(turns: seq<nat>)
      requires Valid()
      modifies this
      ensures Valid() && done >= old(done) && history == old(history) + turns
    {
      for k := 0 to |turns|
        invariant Valid() && done >= old(done) && history == old(history) + turns[..k]
      {
        Turn(turns[k]);
      }
    }
  }
}
