/** Message-passing processes (core/process.c): descriptors carry the generation of the process they were opened for.
    CPUs take the sections under process_lock in any order; between two sections of one call the state may change. */
module Processes {

  const NUM_OF_PID: nat := 32
  const NUM_OF_MSGDSC: nat := 32
  const NUM_OF_MSGDSCRECV: nat := 8

  /** One entry of msgdsc: a descriptor (pid, gen, dsc), zero when closed, and an entry point (func, 0 for NULL). */
  datatype Dsc = Dsc(pid: nat, gen: nat, dsc: nat, func: nat)

  const CLEAR := Dsc(0, 0, 0, 0)

  datatype Proc = Proc(valid: bool, gen: nat, running: nat, exitflag: bool, msgdsc: seq<Dsc>)

  /** A name of msg.c, by what it stands for. */
  datatype Name = Name(pid: nat, gen: nat, dsc: nat)

  /** A call of a process: born is the number of the process among all that were ever created. */
  datatype Frame = Frame(pid: nat, born: nat)

  /** What a CPU still has to do with the descriptor it read under the lock before. */
  datatype Todo = Idle | Opening(name: Name) | Sending(name: Name)

  datatype Cpu = Cpu(frames: seq<Frame>, todo: Todo)

  /** A section that CPU cpu may enter next. */
  datatype Action =
    | CreateStep(cpu: nat, entry: nat, noMemory: bool)
    | FindStep(cpu: nat, n: nat)
    | OpenStep(cpu: nat)
    | FetchStep(cpu: nat, d: nat)
    | CallStep(cpu: nat, unable: bool)
    | ReturnStep(cpu: nat)
    | KillStep(cpu: nat)
    | FuncStep(cpu: nat, d: nat, func: nat)
    | CloseStep(cpu: nat, d: nat)
    | RegisterStep(cpu: nat, func: nat, taken: bool)
    | SendDescStep(cpu: nat, todesc: int, senddesc: int)

  datatype Birth = Birth(pid: nat, gen: nat)

  datatype Reply = Refused | Kernel | Entered

  function Current(c: Cpu): nat {
    if c.frames == [] then 0 else c.frames[|c.frames| - 1].pid
  }

  function CountPid(frames: seq<Frame>, p: nat): nat {
    if frames == [] then 0
    else CountPid(frames[..|frames| - 1], p) + if frames[|frames| - 1].pid == p then 1 else 0
  }

  /** The number of active calls of pid p on all CPUs. */
  function FramesIn(cpus: seq<Cpu>, p: nat): nat {
    if cpus == [] then 0
    else FramesIn(cpus[..|cpus| - 1], p) + CountPid(cpus[|cpus| - 1].frames, p)
  }

  lemma {:induction false} OneCpuChanged(cpus: seq<Cpu>, c: nat, x: Cpu, p: nat)
    requires c < |cpus|
    ensures FramesIn(cpus[c := x], p) + CountPid(cpus[c].frames, p) == FramesIn(cpus, p) + CountPid(x.frames, p)
    ensures CountPid(cpus[c].frames, p) <= FramesIn(cpus, p)
  {
    var l := |cpus| - 1;
    if c == l {
      assert cpus[c := x][..l] == cpus[..l];
    } else {
      OneCpuChanged(cpus[..l], c, x, p);
      assert cpus[c := x][..l] == cpus[..l][c := x];
    }
  }

  lemma Pushed(frames: seq<Frame>, f: Frame, p: nat)
    ensures CountPid(frames + [f], p) == CountPid(frames, p) + if f.pid == p then 1 else 0
  {
    assert (frames + [f])[..|frames|] == frames;
  }

  /** A pid with an active call is counted. */
  lemma {:induction false} CountedFrame(frames: seq<Frame>, k: nat)
    requires k < |frames|
    ensures CountPid(frames, frames[k].pid) > 0
  {
    if k < |frames| - 1 {
      assert frames[..|frames| - 1][k] == frames[k];
      CountedFrame(frames[..|frames| - 1], k);
    }
  }

  lemma FrameRuns(cpus: seq<Cpu>, c: nat, k: nat)
    requires c < |cpus| && k < |cpus[c].frames|
    ensures FramesIn(cpus, cpus[c].frames[k].pid) > 0
  {
    CountedFrame(cpus[c].frames, k);
    OneCpuChanged(cpus, c, cpus[c], cpus[c].frames[k].pid);
  }

  /** Process i, of all that were created, has its slot. */
  predicate Alive(procs: seq<Proc>, occupant: seq<nat>, births: seq<Birth>, i: nat)
    requires i < |births| && births[i].pid < |procs| == |occupant|
  {
    procs[births[i].pid].valid && occupant[births[i].pid] == i
  }

  ghost predicate ShapeOk(procs: seq<Proc>, occupant: seq<nat>, births: seq<Birth>) {
    && |procs| == |occupant| == NUM_OF_PID
    && procs[0].valid && procs[0].gen == 1
    && (forall p :: 0 <= p < NUM_OF_PID ==> |procs[p].msgdsc| == NUM_OF_MSGDSC)
    && (forall i :: 0 <= i < |births| ==> 0 < births[i].pid < NUM_OF_PID)
  }

  /** No two processes have had the same slot and generation, and only the latest has the current one. */
  ghost predicate GenerationsOk(procs: seq<Proc>, occupant: seq<nat>, births: seq<Birth>)
    requires ShapeOk(procs, occupant, births)
  {
    && (forall i, j :: 0 <= i < j < |births| ==> births[i] != births[j])
    && (forall i :: 0 <= i < |births| ==> births[i].gen <= procs[births[i].pid].gen)
    && (forall i :: 0 <= i < |births| && births[i].gen == procs[births[i].pid].gen ==>
      Alive(procs, occupant, births, i))
    && (forall p :: 0 < p < NUM_OF_PID && procs[p].valid ==>
          occupant[p] < |births| && births[occupant[p]] == Birth(p, procs[p].gen))
  }

  ghost predicate FramesOk(procs: seq<Proc>, occupant: seq<nat>, births: seq<Birth>, cpus: seq<Cpu>)
    requires ShapeOk(procs, occupant, births)
  {
    && (forall p :: 0 < p < NUM_OF_PID && procs[p].valid ==> procs[p].running == FramesIn(cpus, p))
    && (forall c, k :: 0 <= c < |cpus| && 0 <= k < |cpus[c].frames| ==>
      FrameOk(procs, occupant, births, cpus[c].frames[k]))
  }

  /** A call runs the process that has the slot. */
  ghost predicate FrameOk(procs: seq<Proc>, occupant: seq<nat>, births: seq<Birth>, f: Frame)
    requires ShapeOk(procs, occupant, births)
  {
    && f.born < |births| && births[f.born].pid == f.pid && Alive(procs, occupant, births, f.born)
  }

  /** The processes that were cleaned up are those that lost their slot, each once; one that has exited keeps its
      slot only while it has active calls. */
  ghost predicate ExitsOk(procs: seq<Proc>, occupant: seq<nat>, births: seq<Birth>, cleanups: seq<nat>)
    requires ShapeOk(procs, occupant, births)
  {
    && (forall a, b :: 0 <= a < b < |cleanups| ==> cleanups[a] != cleanups[b])
    && (forall i :: i in cleanups ==> i < |births|)
    && (forall i :: 0 <= i < |births| ==> (i in cleanups <==> !Alive(procs, occupant, births, i)))
    && (forall p :: 0 < p < NUM_OF_PID && procs[p].valid && procs[p].exitflag ==> procs[p].running > 0)
  }

  /** Nothing, the kernel, or a process that was created. */
  ghost predicate Known(births: seq<Birth>, pid: nat, gen: nat) {
    pid == 0 || exists i :: 0 <= i < |births| && births[i] == Birth(pid, gen)
  }

  ghost predicate DescriptorsOk(procs: seq<Proc>, births: seq<Birth>, cpus: seq<Cpu>) {
    && (forall p, d :: 0 <= p < |procs| && 0 <= d < |procs[p].msgdsc| ==>
          Known(births, procs[p].msgdsc[d].pid, procs[p].msgdsc[d].gen) && procs[p].msgdsc[d].dsc < NUM_OF_MSGDSC)
    && (forall c :: 0 <= c < |cpus| && !cpus[c].todo.Idle? ==>
          Known(births, cpus[c].todo.name.pid, cpus[c].todo.name.gen) && cpus[c].todo.name.dsc < NUM_OF_MSGDSC)
  }

  /** Every registered name stands for the kernel or for a process that has its slot. */
  ghost predicate NamesOk(procs: seq<Proc>, names: seq<Name>) {
    forall n :: n in names ==>
      n.pid < |procs| && procs[n.pid].valid && procs[n.pid].gen == n.gen && n.dsc < NUM_OF_MSGDSC
  }

  ghost predicate BooksOk(procs: seq<Proc>, occupant: seq<nat>, births: seq<Birth>, cpus: seq<Cpu>, cleanups: seq<nat>,
                          names: seq<Name>)
  {
    && ShapeOk(procs, occupant, births)
    && GenerationsOk(procs, occupant, births)
    && FramesOk(procs, occupant, births, cpus)
    && ExitsOk(procs, occupant, births, cleanups)
    && DescriptorsOk(procs, births, cpus)
    && NamesOk(procs, names)
  }

  /** A later table of births keeps every number. */
  lemma KnownLater(births: seq<Birth>, b: Birth, pid: nat, gen: nat)
    requires Known(births, pid, gen)
    ensures Known(births + [b], pid, gen)
  {
    if pid != 0 {
      var i :| 0 <= i < |births| && births[i] == Birth(pid, gen);
      assert (births + [b])[i] == Birth(pid, gen);
    }
  }

  /** msg_unregisterall. */
  function Without(names: seq<Name>, pid: nat): (r: seq<Name>)
    ensures forall n :: n in r <==> n in names && n.pid != pid
  {
    if names == [] then []
    else if names[0].pid == pid then Without(names[1..], pid)
    else [names[0]] + Without(names[1..], pid)
  }

  /** The names of pid are gone, and the others are there as often as before. */
  ghost predicate KeepsOthers(names: seq<Name>, names': seq<Name>, pid: nat) {
    && (forall n :: n in names' ==> n.pid != pid)
    && forall n: Name :: n.pid != pid ==> multiset(names')[n] == multiset(names)[n]
  }

  lemma {:induction false} WithoutKeeps(names: seq<Name>, pid: nat)
    ensures KeepsOthers(names, Without(names, pid), pid)
  {
    if names != [] {
      var rest := names[1..];
      WithoutKeeps(rest, pid);
      assert names == [names[0]] + rest;
      assert multiset(names) == multiset{names[0]} + multiset(rest);
    }
  }

  lemma {:induction false} NoFrames(cpus: seq<Cpu>, p: nat)
    requires forall c, k :: 0 <= c < |cpus| && 0 <= k < |cpus[c].frames| ==> cpus[c].frames[k].pid != p
    ensures FramesIn(cpus, p) == 0
  {
    if cpus != [] {
      NoFrames(cpus[..|cpus| - 1], p);
      NotCounted(cpus[|cpus| - 1].frames, p);
    }
  }

  lemma {:induction false} NotCounted(frames: seq<Frame>, p: nat)
    requires forall k :: 0 <= k < |frames| ==> frames[k].pid != p
    ensures CountPid(frames, p) == 0
  {
    if frames != [] {
      NotCounted(frames[..|frames| - 1], p);
    }
  }

  ghost predicate SameFrames(a: seq<Cpu>, b: seq<Cpu>) {
    |a| == |b| && forall c :: 0 <= c < |a| ==> a[c].frames == b[c].frames
  }

  lemma {:induction false} SameFramesIn(a: seq<Cpu>, b: seq<Cpu>, p: nat)
    requires SameFrames(a, b)
    ensures FramesIn(a, p) == FramesIn(b, p)
  {
    if a != [] {
      SameFramesIn(a[..|a| - 1], b[..|b| - 1], p);
    }
  }

  lemma FramesSame(procs: seq<Proc>, occupant: seq<nat>, births: seq<Birth>, a: seq<Cpu>, b: seq<Cpu>)
    requires ShapeOk(procs, occupant, births) && FramesOk(procs, occupant, births, a) && SameFrames(a, b)
    ensures FramesOk(procs, occupant, births, b)
  {
    forall p | 0 < p < NUM_OF_PID && procs[p].valid ensures procs[p].running == FramesIn(b, p) {
      SameFramesIn(a, b, p);
    }
  }

  lemma CreateFrames(procs: seq<Proc>, occupant: seq<nat>, births: seq<Birth>, cpus: seq<Cpu>, pid: nat, x: Proc,
                     b: Birth)
    requires ShapeOk(procs, occupant, births) && FramesOk(procs, occupant, births, cpus)
    requires 0 < pid < NUM_OF_PID && !procs[pid].valid && b.pid == pid && x.running == 0 && |x.msgdsc| == NUM_OF_MSGDSC
    ensures FramesOk(procs[pid := x], occupant[pid := |births|], births + [b], cpus)
  {
    NoFrames(cpus, pid);
    forall c, k | 0 <= c < |cpus| && 0 <= k < |cpus[c].frames|
      ensures FrameOk(procs[pid := x], occupant[pid := |births|], births + [b], cpus[c].frames[k])
    {
      assert FrameOk(procs, occupant, births, cpus[c].frames[k]);
    }
  }

  lemma CreateGenerations(procs: seq<Proc>, occupant: seq<nat>, births: seq<Birth>, pid: nat, x: Proc)
    requires ShapeOk(procs, occupant, births) && GenerationsOk(procs, occupant, births)
    requires 0 < pid < NUM_OF_PID && !procs[pid].valid && x.valid && x.gen == procs[pid].gen + 1
    requires |x.msgdsc| == NUM_OF_MSGDSC
    ensures GenerationsOk(procs[pid := x], occupant[pid := |births|], births + [Birth(pid, x.gen)])
  {
  }

  lemma CreateExits(procs: seq<Proc>, occupant: seq<nat>, births: seq<Birth>, cleanups: seq<nat>, pid: nat, x: Proc,
                    b: Birth)
    requires ShapeOk(procs, occupant, births) && ExitsOk(procs, occupant, births, cleanups)
    requires 0 < pid < NUM_OF_PID && !procs[pid].valid && b.pid == pid && x.valid && !x.exitflag
    requires |x.msgdsc| == NUM_OF_MSGDSC
    ensures ExitsOk(procs[pid := x], occupant[pid := |births|], births + [b], cleanups)
  {
    var births' := births + [b];
    forall i | 0 <= i < |births'|
      ensures i in cleanups <==> !Alive(procs[pid := x], occupant[pid := |births|], births', i)
    {
      if i < |births| {
        assert births'[i] == births[i];
      }
    }
  }

  lemma CreateDescriptors(procs: seq<Proc>, births: seq<Birth>, cpus: seq<Cpu>, pid: nat, x: Proc, b: Birth, c: nat)
    requires DescriptorsOk(procs, births, cpus) && c < |cpus| && pid < |procs|
    requires forall d :: 0 <= d < |x.msgdsc| ==> x.msgdsc[d].pid == 0 && x.msgdsc[d].dsc == 0
    ensures DescriptorsOk(procs[pid := x], births + [b], cpus[c := cpus[c].(todo := Opening(Name(b.pid, b.gen, 0)))])
  {
    forall q, g | Known(births, q, g) ensures Known(births + [b], q, g) {
      KnownLater(births, b, q, g);
    }
    assert (births + [b])[|births|] == b;
  }

  lemma CreateKeeps(procs: seq<Proc>, occupant: seq<nat>, births: seq<Birth>, cpus: seq<Cpu>, cleanups: seq<nat>,
                    names: seq<Name>, pid: nat, x: Proc, c: nat)
    requires ShapeOk(procs, occupant, births) && GenerationsOk(procs, occupant, births)
    requires FramesOk(procs, occupant, births, cpus) && ExitsOk(procs, occupant, births, cleanups)
    requires DescriptorsOk(procs, births, cpus) && NamesOk(procs, names)
    requires 0 < pid < NUM_OF_PID && !procs[pid].valid && c < |cpus|
    requires x.valid && x.gen == procs[pid].gen + 1 && x.running == 0 && !x.exitflag && |x.msgdsc| == NUM_OF_MSGDSC
    requires forall d :: 0 <= d < |x.msgdsc| ==> x.msgdsc[d].pid == 0 && x.msgdsc[d].dsc == 0
    ensures var (p, o, b) := (procs[pid := x], occupant[pid := |births|], births + [Birth(pid, x.gen)]);
      var cpus' := cpus[c := cpus[c].(todo := Opening(Name(pid, x.gen, 0)))];
      && ShapeOk(p, o, b) && GenerationsOk(p, o, b) && FramesOk(p, o, b, cpus') && ExitsOk(p, o, b, cleanups)
      && DescriptorsOk(p, b, cpus') && NamesOk(p, names)
  {
    var b := Birth(pid, x.gen);
    CreateFrames(procs, occupant, births, cpus, pid, x, b);
    CreateGenerations(procs, occupant, births, pid, x);
    CreateExits(procs, occupant, births, cleanups, pid, x, b);
    CreateDescriptors(procs, births, cpus, pid, x, b, c);
    FramesSame(procs[pid := x], occupant[pid := |births|], births + [b], cpus,
               cpus[c := cpus[c].(todo := Opening(Name(pid, x.gen, 0)))]);
  }

  lemma GoneFrames(procs: seq<Proc>, occupant: seq<nat>, births: seq<Birth>, cpus: seq<Cpu>, pid: nat, x: Proc)
    requires ShapeOk(procs, occupant, births) && FramesOk(procs, occupant, births, cpus)
    requires 0 < pid < NUM_OF_PID && procs[pid].valid && procs[pid].running == 0
    requires !x.valid && |x.msgdsc| == NUM_OF_MSGDSC
    ensures FramesOk(procs[pid := x], occupant, births, cpus)
  {
    forall c, k | 0 <= c < |cpus| && 0 <= k < |cpus[c].frames|
      ensures FrameOk(procs[pid := x], occupant, births, cpus[c].frames[k])
    {
      FrameRuns(cpus, c, k);
    }
  }

  lemma GoneExits(procs: seq<Proc>, occupant: seq<nat>, births: seq<Birth>, cleanups: seq<nat>, pid: nat, x: Proc)
    requires ShapeOk(procs, occupant, births) && GenerationsOk(procs, occupant, births)
    requires 0 < pid < NUM_OF_PID && procs[pid].valid && !x.valid && |x.msgdsc| == NUM_OF_MSGDSC
    requires ExitsOk(procs[pid := procs[pid].(exitflag := false)], occupant, births, cleanups)
    ensures ExitsOk(procs[pid := x], occupant, births, cleanups + [occupant[pid]])
  {
    var procs0 := procs[pid := procs[pid].(exitflag := false)];
    var o := occupant[pid];
    assert Alive(procs0, occupant, births, o);
    assert o !in cleanups;
    var procs' := procs[pid := x];
    forall p | 0 < p < NUM_OF_PID && procs'[p].valid && procs'[p].exitflag ensures procs'[p].running > 0
    {
      assert p != pid && procs0[p] == procs[p];
    }
    forall a, b | 0 <= a < b < |cleanups + [o]| ensures (cleanups + [o])[a] != (cleanups + [o])[b] {
      assert cleanups[a] in cleanups;
    }
    forall i | 0 <= i < |births|
      ensures i in cleanups + [o] <==> !Alive(procs[pid := x], occupant, births, i)
    {
      assert i in cleanups <==> !Alive(procs0, occupant, births, i);
      assert Alive(procs0, occupant, births, i) == Alive(procs, occupant, births, i);
    }
  }

  lemma GoneGenerations(procs: seq<Proc>, occupant: seq<nat>, births: seq<Birth>, pid: nat, x: Proc)
    requires ShapeOk(procs, occupant, births) && GenerationsOk(procs, occupant, births)
    requires 0 < pid < NUM_OF_PID && !x.valid && x.gen == procs[pid].gen + 1 && |x.msgdsc| == NUM_OF_MSGDSC
    ensures GenerationsOk(procs[pid := x], occupant, births)
  {
  }

  /** The books are in order, except that process pid, if it has exited, may be due for cleanup. */
  ghost predicate DueOk(procs: seq<Proc>, occupant: seq<nat>, births: seq<Birth>, cpus: seq<Cpu>, cleanups: seq<nat>,
                        names: seq<Name>, pid: nat)
  {
    && 0 < pid < NUM_OF_PID
    && ShapeOk(procs, occupant, births)
    && procs[pid].valid
    && GenerationsOk(procs, occupant, births)
    && FramesOk(procs, occupant, births, cpus)
    && ExitsOk(if procs[pid].running == 0 then Spared(procs, pid) else procs, occupant, births, cleanups)
    && DescriptorsOk(procs, births, cpus)
    && NamesOk(procs, names)
  }

  /** No cleanup is due. */
  lemma NotDue(procs: seq<Proc>, occupant: seq<nat>, births: seq<Birth>, cpus: seq<Cpu>, cleanups: seq<nat>,
               names: seq<Name>, pid: nat)
    requires DueOk(procs, occupant, births, cpus, cleanups, names, pid)
    requires !(procs[pid].running == 0 && procs[pid].exitflag)
    ensures BooksOk(procs, occupant, births, cpus, cleanups, names)
  {
    assert procs[pid].running == 0 ==> Spared(procs, pid) == procs;
  }

  lemma DueRuns(procs: seq<Proc>, occupant: seq<nat>, births: seq<Birth>, cpus: seq<Cpu>, cleanups: seq<nat>,
                names: seq<Name>, pid: nat)
    requires DueOk(procs, occupant, births, cpus, cleanups, names, pid)
    ensures pid < |procs| && pid < |occupant| && procs[pid].running == FramesIn(cpus, pid)
  {
  }

  /** A cleanup keeps the books. */
  lemma GoneKeeps(procs: seq<Proc>, occupant: seq<nat>, births: seq<Birth>, cpus: seq<Cpu>, cleanups: seq<nat>,
                  names: seq<Name>, pid: nat)
    requires DueOk(procs, occupant, births, cpus, cleanups, names, pid) && procs[pid].running == 0
    ensures pid < |occupant| && pid < |procs|
    ensures BooksOk(Gone(procs, pid), occupant, births, cpus, cleanups + [occupant[pid]], Without(names, pid))
  {
    var x := procs[pid].(gen := procs[pid].gen + 1, valid := false);
    GoneFrames(procs, occupant, births, cpus, pid, x);
    GoneExits(procs, occupant, births, cleanups, pid, x);
    GoneGenerations(procs, occupant, births, pid, x);
  }

  /** The same processes, apart from their descriptors. */
  ghost predicate SameHeads(a: seq<Proc>, b: seq<Proc>) {
    && |a| == |b|
    && forall p :: 0 <= p < |a| ==>
         a[p].valid == b[p].valid && a[p].gen == b[p].gen && a[p].running == b[p].running
         && a[p].exitflag == b[p].exitflag && |a[p].msgdsc| == |b[p].msgdsc|
  }

  lemma HeadsKeep(a: seq<Proc>, b: seq<Proc>, occupant: seq<nat>, births: seq<Birth>, cpus: seq<Cpu>,
                  cleanups: seq<nat>, names: seq<Name>)
    requires SameHeads(a, b) && ShapeOk(a, occupant, births) && GenerationsOk(a, occupant, births)
    requires FramesOk(a, occupant, births, cpus) && ExitsOk(a, occupant, births, cleanups) && NamesOk(a, names)
    ensures ShapeOk(b, occupant, births) && GenerationsOk(b, occupant, births)
    ensures FramesOk(b, occupant, births, cpus) && ExitsOk(b, occupant, births, cleanups) && NamesOk(b, names)
  {
    HeadsFrames(a, b, occupant, births, cpus);
    HeadsExits(a, b, occupant, births, cleanups);
    assert forall i :: 0 <= i < |births| ==> Alive(a, occupant, births, i) == Alive(b, occupant, births, i);
    assert forall n :: n in names ==> b[n.pid].valid == a[n.pid].valid;
  }

  lemma HeadsFrames(a: seq<Proc>, b: seq<Proc>, occupant: seq<nat>, births: seq<Birth>, cpus: seq<Cpu>)
    requires SameHeads(a, b) && ShapeOk(a, occupant, births) && FramesOk(a, occupant, births, cpus)
    ensures ShapeOk(b, occupant, births) && FramesOk(b, occupant, births, cpus)
  {
    forall c, k | 0 <= c < |cpus| && 0 <= k < |cpus[c].frames|
      ensures FrameOk(b, occupant, births, cpus[c].frames[k])
    {
      assert FrameOk(a, occupant, births, cpus[c].frames[k]);
    }
  }

  lemma HeadsExits(a: seq<Proc>, b: seq<Proc>, occupant: seq<nat>, births: seq<Birth>, cleanups: seq<nat>)
    requires SameHeads(a, b) && ShapeOk(a, occupant, births) && ExitsOk(a, occupant, births, cleanups)
    ensures ShapeOk(b, occupant, births) && ExitsOk(b, occupant, births, cleanups)
  {
    assert forall i :: 0 <= i < |births| ==> Alive(a, occupant, births, i) == Alive(b, occupant, births, i);
  }

  /** The same processes have the same slots. */
  ghost predicate SameLife(a: seq<Proc>, b: seq<Proc>) {
    && |a| == |b|
    && forall p :: 0 <= p < |a| ==> a[p].valid == b[p].valid && a[p].gen == b[p].gen && a[p].msgdsc == b[p].msgdsc
  }

  lemma LifeKeeps(a: seq<Proc>, b: seq<Proc>, occupant: seq<nat>, births: seq<Birth>, cpus: seq<Cpu>, names: seq<Name>)
    requires SameLife(a, b) && ShapeOk(a, occupant, births) && GenerationsOk(a, occupant, births)
    requires DescriptorsOk(a, births, cpus) && NamesOk(a, names)
    ensures ShapeOk(b, occupant, births) && GenerationsOk(b, occupant, births)
    ensures DescriptorsOk(b, births, cpus) && NamesOk(b, names)
    ensures forall i :: 0 <= i < |births| ==> Alive(a, occupant, births, i) == Alive(b, occupant, births, i)
    ensures forall f :: FrameOk(a, occupant, births, f) <==> FrameOk(b, occupant, births, f)
  {
    assert forall p :: 0 <= p < |a| ==> |b[p].msgdsc| == |a[p].msgdsc|;
    assert forall i :: 0 <= i < |births| ==> Alive(a, occupant, births, i) == Alive(b, occupant, births, i);
    assert forall n :: n in names ==> b[n.pid].valid == a[n.pid].valid;
  }

  lemma ExitsKept(a: seq<Proc>, b: seq<Proc>, occupant: seq<nat>, births: seq<Birth>, cleanups: seq<nat>)
    requires SameLife(a, b) && ShapeOk(a, occupant, births) && ShapeOk(b, occupant, births)
    requires ExitsOk(a, occupant, births, cleanups)
    requires forall p :: 0 < p < NUM_OF_PID && b[p].valid && b[p].exitflag ==> b[p].running > 0
    ensures ExitsOk(b, occupant, births, cleanups)
  {
    assert forall i :: 0 <= i < |births| ==> Alive(a, occupant, births, i) == Alive(b, occupant, births, i);
  }

  function Spared(procs: seq<Proc>, pid: nat): seq<Proc>
    requires pid < |procs|
  {
    procs[pid := procs[pid].(exitflag := false)]
  }

  lemma KillFrames(procs: seq<Proc>, occupant: seq<nat>, births: seq<Birth>, cpus: seq<Cpu>, pid: nat)
    requires ShapeOk(procs, occupant, births) && FramesOk(procs, occupant, births, cpus) && pid < NUM_OF_PID
    ensures FramesOk(procs[pid := procs[pid].(exitflag := true)], occupant, births, cpus)
  {
    forall c, k | 0 <= c < |cpus| && 0 <= k < |cpus[c].frames|
      ensures FrameOk(procs[pid := procs[pid].(exitflag := true)], occupant, births, cpus[c].frames[k])
    {
      assert FrameOk(procs, occupant, births, cpus[c].frames[k]);
    }
  }

  function Ran(procs: seq<Proc>, pid: nat, running: nat): seq<Proc>
    requires pid < |procs|
  {
    procs[pid := procs[pid].(running := running)]
  }

  lemma LeaveExits(procs: seq<Proc>, occupant: seq<nat>, births: seq<Birth>, cleanups: seq<nat>, pid: nat)
    requires ShapeOk(procs, occupant, births) && ExitsOk(procs, occupant, births, cleanups)
    requires 0 < pid < NUM_OF_PID && procs[pid].running > 0
    ensures var procs' := Ran(procs, pid, procs[pid].running - 1);
      ShapeOk(procs', occupant, births)
      && ExitsOk(if procs'[pid].running == 0 then Spared(procs', pid) else procs', occupant, births, cleanups)
  {
    var procs' := Ran(procs, pid, procs[pid].running - 1);
    if procs'[pid].running == 0 {
      ExitsKept(procs, Spared(procs', pid), occupant, births, cleanups);
    } else {
      ExitsKept(procs, procs', occupant, births, cleanups);
    }
  }

  /** One CPU gains or loses a call of pid. */
  lemma FramesMoved(procs: seq<Proc>, occupant: seq<nat>, births: seq<Birth>, cpus: seq<Cpu>, c: nat, x: Cpu, pid: nat,
                    running: nat)
    requires ShapeOk(procs, occupant, births) && FramesOk(procs, occupant, births, cpus) && c < |cpus|
    requires 0 < pid < NUM_OF_PID && procs[pid].valid
    requires running - procs[pid].running == CountPid(x.frames, pid) - CountPid(cpus[c].frames, pid)
    requires forall p :: p != pid ==> CountPid(x.frames, p) == CountPid(cpus[c].frames, p)
    requires forall k :: 0 <= k < |x.frames| ==> FrameOk(procs, occupant, births, x.frames[k])
    ensures FramesOk(Ran(procs, pid, running), occupant, births, cpus[c := x])
  {
    var procs' := Ran(procs, pid, running);
    forall p | 0 < p < NUM_OF_PID && procs'[p].valid ensures procs'[p].running == FramesIn(cpus[c := x], p) {
      OneCpuChanged(cpus, c, x, p);
    }
    var cpus' := cpus[c := x];
    forall d, k | 0 <= d < |cpus| && 0 <= k < |cpus'[d].frames|
      ensures FrameOk(procs', occupant, births, cpus'[d].frames[k])
    {
      assert FrameOk(procs, occupant, births, cpus'[d].frames[k]);
    }
  }

  /** A free entry among the first n, or n. */
  function FreeEntry(msgdsc: seq<Dsc>, n: nat): (i: nat)
    requires n <= |msgdsc|
    ensures i <= n && (i < n ==> msgdsc[i].pid == 0 && msgdsc[i].gen == 0)
    ensures forall k :: 0 <= k < i ==> !(msgdsc[k].pid == 0 && msgdsc[k].gen == 0)
  {
    if n == 0 then 0
    else
      var i := FreeEntry(msgdsc, n - 1);
      if i < n - 1 || (msgdsc[n - 1].pid == 0 && msgdsc[n - 1].gen == 0) then i else n
  }

  function WithDsc(procs: seq<Proc>, p: nat, d: nat, x: Dsc): seq<Proc>
    requires p < |procs| && d < |procs[p].msgdsc|
  {
    procs[p := procs[p].(msgdsc := procs[p].msgdsc[d := x])]
  }

  lemma DscKept(procs: seq<Proc>, births: seq<Birth>, cpus: seq<Cpu>, p: nat, d: nat, x: Dsc)
    requires DescriptorsOk(procs, births, cpus) && p < |procs| && d < |procs[p].msgdsc|
    requires Known(births, x.pid, x.gen) && x.dsc < NUM_OF_MSGDSC
    ensures DescriptorsOk(WithDsc(procs, p, d, x), births, cpus) && SameHeads(procs, WithDsc(procs, p, d, x))
  {
  }

  /** Entry d of p is x, and every other entry of any process is as before. */
  ghost predicate OneEntry(a: seq<Proc>, b: seq<Proc>, p: nat, d: nat, x: Dsc) {
    && |a| == |b| && SameHeads(a, b) && p < |a| && d < |a[p].msgdsc| && b[p].msgdsc[d] == x
    && forall q, k :: 0 <= q < |a| && 0 <= k < |a[q].msgdsc| && (q != p || k != d) ==> b[q].msgdsc[k] == a[q].msgdsc[k]
  }

  lemma WithDscIs(procs: seq<Proc>, p: nat, d: nat, x: Dsc)
    requires p < |procs| && d < |procs[p].msgdsc|
    ensures OneEntry(procs, WithDsc(procs, p, d, x), p, d, x)
  {
  }

  /** currentcpu->pid: 0 outside all calls, the process called in a call, and the one before again after it. */
  lemma CurrentIs(c: Cpu, f: Frame)
    ensures Current(Cpu([], c.todo)) == 0
    ensures Current(c.(frames := c.frames + [f])) == f.pid
    ensures c.frames != [] ==> Current(c) == c.frames[|c.frames| - 1].pid
  {
  }

  lemma CurrentRuns(procs: seq<Proc>, occupant: seq<nat>, births: seq<Birth>, cpus: seq<Cpu>, c: nat)
    requires ShapeOk(procs, occupant, births) && FramesOk(procs, occupant, births, cpus) && c < |cpus|
    ensures Current(cpus[c]) < NUM_OF_PID && procs[Current(cpus[c])].valid
  {
    var k := |cpus[c].frames| - 1;
    if k >= 0 {
      assert FrameOk(procs, occupant, births, cpus[c].frames[k]);
    }
  }

  /** CPU c has left its latest call, f. */
  ghost predicate LastFrame(cpus: seq<Cpu>, cpus': seq<Cpu>, c: nat, f: Frame) {
    && c < |cpus| && cpus[c].frames != [] && f == cpus[c].frames[|cpus[c].frames| - 1]
    && cpus' == cpus[c := cpus[c].(frames := cpus[c].frames[..|cpus[c].frames| - 1])]
  }

  /** Process pid has been cleaned up. */
  ghost function Gone(procs: seq<Proc>, pid: nat): seq<Proc>
    requires pid < |procs|
  {
    procs[pid := procs[pid].(gen := procs[pid].gen + 1, valid := false)]
  }

  /** The generation goes up first, and the slot becomes free last. */
  lemma GoneInSteps(procs: seq<Proc>, occupant: seq<nat>, births: seq<Birth>, cpus: seq<Cpu>, cleanups: seq<nat>,
                    names: seq<Name>, pid: nat)
    requires pid < |procs| && pid < |occupant|
    requires BooksOk(Gone(procs, pid), occupant, births, cpus, cleanups + [occupant[pid]], Without(names, pid))
    ensures var p := procs[pid := procs[pid].(gen := procs[pid].gen + 1)];
      var q := p[pid := p[pid].(valid := false)];
      q == Gone(procs, pid) && BooksOk(q, occupant, births, cpus, cleanups + [occupant[pid]], Without(names, pid))
  {
  }

  class Processes {
    var procs: seq<Proc>
    var cpus: seq<Cpu>
    var names: seq<Name>
    /** History: the processes ever created, the one each slot had last, and those cleaned up. */
    var births: seq<Birth>
    var occupant: seq<nat>
    var cleanups: seq<nat>
    /** The sections entered so far. */
    ghost var history: seq<Action>

    ghost predicate Valid()
      reads this
    {
      BooksOk(procs, occupant, births, cpus, cleanups, names)
    }

    /** process_init_global. */
    constructor (numCpus: nat)
      ensures Valid() && |cpus| == numCpus && births == [] && cleanups == []
    {
      var p := Proc(false, 1, 0, false, seq(NUM_OF_MSGDSC, _ => CLEAR));
      procs := seq(NUM_OF_PID, i => if i == 0 then p.(valid := true) else p);
      cpus := seq(numCpus, _ => Cpu([], Idle));
      names, births, occupant, cleanups := [], [], seq(NUM_OF_PID, _ => 0), [];
    }

    /** A process that has just been created: its first entry point is set, and nothing is open. */
    static predicate Created(x: Proc, gen: nat, entry: nat) {
      && x.valid && x.gen == gen && x.running == 0 && !x.exitflag
      && |x.msgdsc| == NUM_OF_MSGDSC && x.msgdsc[0] == Dsc(0, 0, 0, entry)
      && forall d :: 1 <= d < NUM_OF_MSGDSC ==> x.msgdsc[d] == Dsc(0, 0, 0, 0)
    }

    /** process_new up to the unlock; noMemory says that no address space can be had. */
    method Create(c: nat, entry: nat, noMemory: bool) returns (r: bool, ghost p: nat)
      requires Valid() && c < |cpus| && cpus[c].todo.Idle?
      modifies this
      ensures Valid()
      ensures names == old(names) && cleanups == old(cleanups)
      ensures r <==> !noMemory && exists p :: 0 < p < NUM_OF_PID && !old(procs)[p].valid
      ensures !r ==> procs == old(procs) && births == old(births) && cpus == old(cpus)
      ensures r ==> 0 < p < NUM_OF_PID && !old(procs)[p].valid && forall q :: 0 < q < p ==> old(procs)[q].valid
      ensures r ==> procs == old(procs)[p := procs[p]] && Created(procs[p], old(procs)[p].gen + 1, entry)
      ensures r ==> births == old(births) + [Birth(p, procs[p].gen)] && occupant == old(occupant)[p := |old(births)|]
      ensures r ==> cpus == old(cpus)[c := old(cpus)[c].(todo := Opening(Name(p, procs[p].gen, 0)))]
    {
      var pid := 1;
      p := 0;
      while pid < NUM_OF_PID && procs[pid].valid
        invariant 1 <= pid <= NUM_OF_PID
        invariant forall p :: 0 < p < pid ==> procs[p].valid
      {
        pid := pid + 1;
      }
      if pid == NUM_OF_PID || noMemory {
        r := false;
        return;
      }
      var gen := procs[pid].gen + 1;
      var x := Proc(true, gen, 0, false, seq(NUM_OF_MSGDSC, _ => CLEAR)[0 := CLEAR.(func := entry)]);
      var cpus' := cpus[c := cpus[c].(todo := Opening(Name(pid, gen, 0)))];
      CreateKeeps(procs, occupant, births, cpus, cleanups, names, pid, x, c);
      procs := procs[pid := x];
      occupant := occupant[pid := |births|];
      births := births + [Birth(pid, gen)];
      cpus := cpus';
      r, p := true, pid;
    }

    /** cleanup; its two assertions are consequences of what it requires. */
    method Cleanup(pid: nat)
      requires pid < |procs| && pid < |occupant| && Due(pid) && procs[pid].running == 0
      modifies this`procs, this`names, this`cleanups
      ensures Valid() && cleanups == old(cleanups) + [occupant[pid]]
      ensures procs == Gone(old(procs), pid) && KeepsOthers(old(names), names, pid)
    {
      GoneKeeps(procs, occupant, births, cpus, cleanups, names, pid);
      WithoutKeeps(names, pid);
      GoneInSteps(procs, occupant, births, cpus, cleanups, names, pid);
      procs := procs[pid := procs[pid].(gen := procs[pid].gen + 1)];
      names := Without(names, pid);
      procs := procs[pid := procs[pid].(valid := false)];
      cleanups := cleanups + [occupant[pid]];
    }

    /** Entry d of the descriptors of pid changes. */
    method SetDsc(p: nat, d: nat, x: Dsc)
      requires Valid() && p < NUM_OF_PID && d < NUM_OF_MSGDSC && Known(births, x.pid, x.gen) && x.dsc < NUM_OF_MSGDSC
      modifies this`procs
      ensures Valid() && OneEntry(old(procs), procs, p, d, x)
    {
      WithDscIs(procs, p, d, x);
      DscKept(procs, births, cpus, p, d, x);
      HeadsKeep(procs, WithDsc(procs, p, d, x), occupant, births, cpus, cleanups, names);
      procs := WithDsc(procs, p, d, x);
    }

    method SetTodo(c: nat, t: Todo)
      requires Valid() && c < |cpus|
      requires t.Idle? || (Known(births, t.name.pid, t.name.gen) && t.name.dsc < NUM_OF_MSGDSC)
      modifies this`cpus
      ensures Valid() && cpus == old(cpus)[c := old(cpus)[c].(todo := t)]
    {
      var cpus' := cpus[c := cpus[c].(todo := t)];
      FramesSame(procs, occupant, births, cpus, cpus');
      cpus := cpus';
    }

    /** msg_findname, for a name that is registered. */
    method FindName(c: nat, n: nat)
      requires Valid() && c < |cpus| && cpus[c].todo.Idle? && n < |names|
      modifies this`cpus
      ensures Valid() && cpus == old(cpus)[c := old(cpus)[c].(todo := Opening(names[n]))]
    {
      var x := names[n];
      assert x in names;
      NameKnown(x);
      SetTodo(c, Opening(x));
    }

    lemma NameKnown(x: Name)
      requires Valid() && x in names
      ensures Known(births, x.pid, x.gen) && x.dsc < NUM_OF_MSGDSC
    {
      if x.pid != 0 {
        assert births[occupant[x.pid]] == Birth(x.pid, x.gen);
      }
    }

    /** _msgopen_2 for the running process. */
    method OpenDescriptor(c: nat) returns (r: int)
      requires Valid() && c < |cpus| && cpus[c].todo.Opening?
      modifies this`procs, this`cpus
      ensures Valid() && cpus == old(cpus)[c := old(cpus)[c].(todo := Idle)]
      ensures Current(old(cpus)[c]) < NUM_OF_PID
      ensures var p, n := Current(old(cpus)[c]), old(cpus)[c].todo.name;
        var i := FreeEntry(old(procs)[p].msgdsc, NUM_OF_MSGDSC);
        if i == NUM_OF_MSGDSC then r == -1 && procs == old(procs)
        else
          && r == i
          && OneEntry(old(procs), procs, p, i, Dsc(n.pid, n.gen, n.dsc, old(procs)[p].msgdsc[i].func))
    {
      CurrentRuns(procs, occupant, births, cpus, c);
      var p, n := Current(cpus[c]), cpus[c].todo.name;
      var i := FreeEntry(procs[p].msgdsc, NUM_OF_MSGDSC);
      SetTodo(c, Idle);
      if i == NUM_OF_MSGDSC {
        return -1;
      }
      SetDsc(p, i, Dsc(n.pid, n.gen, n.dsc, procs[p].msgdsc[i].func));
      r := i;
    }

    /** The first section of _msgsendint. */
    method FetchDescriptor(c: nat, desc: nat)
      requires Valid() && c < |cpus| && cpus[c].todo.Idle? && desc < NUM_OF_MSGDSC
      modifies this`cpus
      ensures Valid() && Current(old(cpus)[c]) < NUM_OF_PID
      ensures var x := procs[Current(old(cpus)[c])].msgdsc[desc];
        cpus == old(cpus)[c := old(cpus)[c].(todo := Sending(Name(x.pid, x.gen, x.dsc)))]
    {
      CurrentRuns(procs, occupant, births, cpus, c);
      var x := procs[Current(cpus[c])].msgdsc[desc];
      SetTodo(c, Sending(Name(x.pid, x.gen, x.dsc)));
    }

    /** call_msgfunc1 up to the jump into the process; unable says that there is no room for its arguments. */
    method Call(c: nat, unable: bool) returns (r: Reply)
      requires Valid() && c < |cpus| && cpus[c].todo.Sending?
      modifies this
      ensures Valid() && births == old(births) && cleanups == old(cleanups)
      ensures names == old(names) && |cpus| == |old(cpus)| && cpus == old(cpus)[c := cpus[c]]
      ensures var n := old(cpus)[c].todo.name;
        && n.pid < NUM_OF_PID
        && (r.Refused? <==>
            !old(procs)[n.pid].valid || old(procs)[n.pid].gen != n.gen
            || old(procs)[n.pid].msgdsc[n.dsc].func == 0 || (n.pid != 0 && unable))
        && (r.Kernel? ==> n.pid == 0)
        && (r.Entered? ==>
              && 0 < n.pid && Enters(births, occupant, cleanups, old(cpus)[c], cpus[c], n)
              && procs == old(procs)[n.pid := old(procs)[n.pid].(running := old(procs)[n.pid].running + 1)])
      ensures !r.Entered? ==> cpus == old(cpus)[c := old(cpus)[c].(todo := Idle)] && procs == old(procs)
    {
      var n := cpus[c].todo.name;
      TodoKnown(c);
      SetTodo(c, Idle);
      if !procs[n.pid].valid || procs[n.pid].gen != n.gen || procs[n.pid].msgdsc[n.dsc].func == 0 {
        return Refused;
      }
      if n.pid == 0 {
        return Kernel;
      }
      if unable {
        NoCleanupDue(n.pid);
        return Refused;
      }
      Enter(c, n.pid);
      return Entered;
    }

    lemma TodoKnown(c: nat)
      requires Valid() && c < |cpus| && !cpus[c].todo.Idle?
      ensures cpus[c].todo.name.pid < NUM_OF_PID == |procs| && cpus[c].todo.name.dsc < NUM_OF_MSGDSC
      ensures |procs[cpus[c].todo.name.pid].msgdsc| == NUM_OF_MSGDSC
    {
      var n := cpus[c].todo.name;
      assert Known(births, n.pid, n.gen);
    }

    /** The test for a cleanup at the end of call_msgfunc1 fails if the process has not been entered. */
    lemma NoCleanupDue(pid: nat)
      requires Valid() && 0 < pid < NUM_OF_PID && procs[pid].valid
      ensures !(procs[pid].running == 0 && procs[pid].exitflag)
    {
    }

    /** A CPU enters the process that the name stands for, which has not been cleaned up. */
    static ghost predicate Enters(births: seq<Birth>, occupant: seq<nat>, cleanups: seq<nat>, before: Cpu, after: Cpu,
                                  n: Name)
    {
      && n.pid < |occupant| && occupant[n.pid] < |births| && occupant[n.pid] !in cleanups
      && births[occupant[n.pid]] == Birth(n.pid, n.gen)
      && after == Cpu(before.frames + [Frame(n.pid, occupant[n.pid])], Idle)
    }

    /** call_msgfunc0 up to the jump. */
    method Enter(c: nat, pid: nat)
      requires Valid() && c < |cpus| && 0 < pid < NUM_OF_PID && procs[pid].valid
      modifies this`procs, this`cpus
      ensures Valid() && procs == Ran(old(procs), pid, old(procs)[pid].running + 1)
      ensures cpus == old(cpus)[c := old(cpus)[c].(frames := old(cpus)[c].frames + [Frame(pid, occupant[pid])])]
    {
      var x := cpus[c].(frames := cpus[c].frames + [Frame(pid, occupant[pid])]);
      var procs' := Ran(procs, pid, procs[pid].running + 1);
      forall p ensures CountPid(x.frames, p) == CountPid(cpus[c].frames, p) + if p == pid then 1 else 0 {
        Pushed(cpus[c].frames, Frame(pid, occupant[pid]), p);
      }
      FramesMoved(procs, occupant, births, cpus, c, x, pid, procs[pid].running + 1);
      LifeKeeps(procs, procs', occupant, births, cpus, names);
      ExitsKept(procs, procs', occupant, births, cleanups);
      procs, cpus := procs', cpus[c := x];
    }

    /** The return from the process, with the rest of call_msgfunc1. */
    method Return(c: nat) returns (cleaned: bool, ghost f: Frame)
      requires Valid() && c < |cpus| && cpus[c].frames != []
      modifies this
      ensures Valid() && births == old(births)
      ensures LastFrame(old(cpus), cpus, c, f) && f.pid < |old(procs)| && FramesIn(old(cpus), f.pid) > 0
      ensures old(procs)[f.pid].running == FramesIn(old(cpus), f.pid)
      ensures cleaned <==> old(procs)[f.pid].exitflag && FramesIn(cpus, f.pid) == 0
      ensures cleanups == if cleaned then old(cleanups) + [f.born] else old(cleanups)
      ensures if cleaned then KeepsOthers(old(names), names, f.pid) else names == old(names)
      ensures var left := old(procs)[f.pid := old(procs)[f.pid].(running := old(procs)[f.pid].running - 1)];
        procs == if cleaned then Gone(left, f.pid) else left
    {
      var last := Leave(c);
      f := last;
      cleaned := CleanIfLast(last.pid);
    }

    /** The end of call_msgfunc1. */
    method CleanIfLast(pid: nat) returns (cleaned: bool)
      requires pid < |procs| && pid < |occupant| && Due(pid)
      modifies this`procs, this`names, this`cleanups
      ensures Valid() && (cleaned <==> old(procs)[pid].exitflag && FramesIn(cpus, pid) == 0)
      ensures cleanups == if cleaned then old(cleanups) + [occupant[pid]] else old(cleanups)
      ensures if cleaned then KeepsOthers(old(names), names, pid) else names == old(names)
      ensures procs == if cleaned then Gone(old(procs), pid) else old(procs)
    {
      DueRuns(procs, occupant, births, cpus, cleanups, names, pid);
      cleaned := procs[pid].running == 0 && procs[pid].exitflag;
      if cleaned {
        Cleanup(pid);
      } else {
        NotDue(procs, occupant, births, cpus, cleanups, names, pid);
      }
    }

    /** Valid, except that an exited process may be due for cleanup. */
    ghost predicate Due(pid: nat)
      reads this
    {
      DueOk(procs, occupant, births, cpus, cleanups, names, pid)
    }

    /** The end of call_msgfunc0. */
    method Leave(c: nat) returns (f: Frame)
      requires Valid() && c < |cpus| && cpus[c].frames != []
      modifies this`procs, this`cpus
      ensures f.pid < |procs| && f.pid < |occupant| && Due(f.pid) && occupant[f.pid] == f.born
      ensures LastFrame(old(cpus), cpus, c, f)
      ensures f.pid < |old(procs)| && old(procs)[f.pid].running == FramesIn(old(cpus), f.pid) > 0
      ensures procs == old(procs)[f.pid := old(procs)[f.pid].(running := old(procs)[f.pid].running - 1)]
    {
      var l := |cpus[c].frames| - 1;
      f := cpus[c].frames[l];
      assert FrameOk(procs, occupant, births, f);
      FrameRuns(cpus, c, l);
      var pid := f.pid;
      var x := cpus[c].(frames := cpus[c].frames[..l]);
      var procs' := Ran(procs, pid, procs[pid].running - 1);
      FramesMoved(procs, occupant, births, cpus, c, x, pid, procs[pid].running - 1);
      LifeKeeps(procs, procs', occupant, births, cpus, names);
      LeaveExits(procs, occupant, births, cleanups, pid);
      procs, cpus := procs', cpus[c := x];
    }

    /** process_kill, from inside the process. */
    method Kill(c: nat)
      requires Valid() && c < |cpus| && cpus[c].frames != []
      modifies this`procs
      ensures Valid() && 0 < Current(cpus[c]) < NUM_OF_PID
      ensures procs == old(procs)[Current(cpus[c]) := old(procs)[Current(cpus[c])].(exitflag := true)]
    {
      var pid := Current(cpus[c]);
      var l := |cpus[c].frames| - 1;
      assert FrameOk(procs, occupant, births, cpus[c].frames[l]);
      FrameRuns(cpus, c, l);
      var procs' := procs[pid := procs[pid].(exitflag := true)];
      LifeKeeps(procs, procs', occupant, births, cpus, names);
      ExitsKept(procs, procs', occupant, births, cleanups);
      KillFrames(procs, occupant, births, cpus, pid);
      procs := procs';
    }

    /** _msgsetfunc for the running process. */
    method SetFunc(c: nat, desc: nat, func: nat)
      requires Valid() && c < |cpus| && desc < NUM_OF_MSGDSC
      modifies this`procs
      ensures Valid() && Current(cpus[c]) < NUM_OF_PID
      ensures var p := Current(cpus[c]);
        OneEntry(old(procs), procs, p, desc, old(procs)[p].msgdsc[desc].(func := func))
    {
      CurrentRuns(procs, occupant, births, cpus, c);
      var p := Current(cpus[c]);
      var x := procs[p].msgdsc[desc];
      assert Known(births, x.pid, x.gen);
      SetDsc(p, desc, x.(func := func));
    }

    /** _msgclose for the running process. */
    method CloseDescriptor(c: nat, desc: nat)
      requires Valid() && c < |cpus| && desc < NUM_OF_MSGDSC
      modifies this`procs
      ensures Valid() && Current(cpus[c]) < NUM_OF_PID
      ensures var p := Current(cpus[c]);
        OneEntry(old(procs), procs, p, desc, old(procs)[p].msgdsc[desc].(pid := 0, gen := 0))
    {
      CurrentRuns(procs, occupant, births, cpus, c);
      var p := Current(cpus[c]);
      var x := procs[p].msgdsc[desc];
      assert x.dsc < NUM_OF_MSGDSC;
      SetDsc(p, desc, x.(pid := 0, gen := 0));
    }

    /** _msgregister for the running process; taken says that the name is already in use. */
    method RegisterName(c: nat, func: nat, taken: bool) returns (r: int)
      requires Valid() && c < |cpus| && func > 0
      modifies this`procs, this`names
      ensures Valid() && Current(cpus[c]) < NUM_OF_PID
      ensures var p := Current(cpus[c]);
        if r == -1 then names == old(names) && procs == old(procs)
        else
          && 0 <= r < NUM_OF_MSGDSC && old(procs)[p].msgdsc[r].func == 0 && !taken
          && names == old(names) + [Name(p, procs[p].gen, r)]
          && OneEntry(old(procs), procs, p, r, old(procs)[p].msgdsc[r].(func := func))
      ensures r == -1 ==> taken || forall d :: 0 <= d < NUM_OF_MSGDSC ==> procs[Current(cpus[c])].msgdsc[d].func != 0
    {
      CurrentRuns(procs, occupant, births, cpus, c);
      var p := Current(cpus[c]);
      var i := 0;
      while i < NUM_OF_MSGDSC && procs[p].msgdsc[i].func != 0
        invariant i <= NUM_OF_MSGDSC
        invariant forall d :: 0 <= d < i ==> procs[p].msgdsc[d].func != 0
      {
        i := i + 1;
      }
      if i == NUM_OF_MSGDSC || taken {
        return -1;
      }
      var x := procs[p].msgdsc[i];
      assert Known(births, x.pid, x.gen);
      SetDsc(p, i, x.(func := func));
      names := names + [Name(p, procs[p].gen, i)];
      r := i;
    }

    /** _msgsenddesc: a copy of a descriptor goes to the process that another one stands for. */
    method SendDescriptor(c: nat, todesc: int, senddesc: int) returns (r: int)
      requires Valid() && c < |cpus|
      modifies this`procs
      ensures Valid() && Current(cpus[c]) < NUM_OF_PID
      ensures r == -1 ==> procs == old(procs)
      ensures r == -1 && 0 <= todesc < NUM_OF_MSGDSC && 0 <= senddesc < NUM_OF_MSGDSC ==>
        var to := procs[Current(cpus[c])].msgdsc[todesc];
        && to.pid < NUM_OF_PID
        && (procs[to.pid].valid && procs[to.pid].gen == to.gen ==>
          forall k :: 0 <= k < 8 ==> procs[to.pid].msgdsc[k].pid != 0 || procs[to.pid].msgdsc[k].gen != 0)
      ensures r != -1 ==>
        && 0 <= r < 8 && 0 <= todesc < NUM_OF_MSGDSC && 0 <= senddesc < NUM_OF_MSGDSC
        && var to, x := old(procs)[Current(cpus[c])].msgdsc[todesc], old(procs)[Current(cpus[c])].msgdsc[senddesc];
        && to.pid < NUM_OF_PID && old(procs)[to.pid].valid && old(procs)[to.pid].gen == to.gen
        && OneEntry(old(procs), procs, to.pid, r, x.(func := old(procs)[to.pid].msgdsc[r].func))
    {
      CurrentRuns(procs, occupant, births, cpus, c);
      if !(0 <= senddesc < NUM_OF_MSGDSC && 0 <= todesc < NUM_OF_MSGDSC) {
        return -1;
      }
      var p := Current(cpus[c]);
      var to, x := procs[p].msgdsc[todesc], procs[p].msgdsc[senddesc];
      assert Known(births, to.pid, to.gen) && Known(births, x.pid, x.gen);
      if !procs[to.pid].valid || procs[to.pid].gen != to.gen {
        return -1;
      }
      var i := FreeEntry(procs[to.pid].msgdsc, NUM_OF_MSGDSCRECV);
      if i == NUM_OF_MSGDSCRECV {
        return -1;
      }
      SetDsc(to.pid, i, x.(func := procs[to.pid].msgdsc[i].func));
      r := i;
    }

    /** One section of one CPU, if it is that CPU's turn for it. */
    method Step(a: Action)
      requires Valid()
      modifies this
      ensures Valid() && |cpus| == |old(cpus)|
      ensures old(births) <= births && old(cleanups) <= cleanups && history == old(history) + [a]
    {
      ghost var steps := history + [a];
      if a.cpu < |cpus| {
        Take(a);
      }
      history := steps;
    }

    /** The section itself. */
    method Take(a: Action)
      requires Valid() && a.cpu < |cpus|
      modifies this
      ensures Valid() && |cpus| == |old(cpus)|
      ensures old(births) <= births && old(cleanups) <= cleanups
      ensures a.OpenStep? ==> !cpus[a.cpu].todo.Opening?
      ensures a.CallStep? ==> !cpus[a.cpu].todo.Sending?
    {
      var c := a.cpu;
      var idle, inside := cpus[c].todo.Idle?, cpus[c].frames != [];
      match a
      case CreateStep(_, entry, noMemory) => if idle { var _, _ := Create(c, entry, noMemory); }
      case FindStep(_, n) => if idle && n < |names| { FindName(c, n); }
      case OpenStep(_) => if cpus[c].todo.Opening? { var _ := OpenDescriptor(c); }
      case FetchStep(_, d) => if idle && d < NUM_OF_MSGDSC { FetchDescriptor(c, d); }
      case CallStep(_, unable) => if cpus[c].todo.Sending? { var _ := Call(c, unable); }
      case ReturnStep(_) => if idle && inside { var _, _ := Return(c); }
      case KillStep(_) => if inside { Kill(c); }
      case FuncStep(_, d, func) => if d < NUM_OF_MSGDSC { SetFunc(c, d, func); }
      case CloseStep(_, d) => if d < NUM_OF_MSGDSC { CloseDescriptor(c, d); }
      case RegisterStep(_, func, taken) => if func > 0 { var _ := RegisterName(c, func, taken); }
      case SendDescStep(_, t, d) => var _ := SendDescriptor(c, t, d);
    }

    /** Any interleaving: no number is forgotten or used twice, and whoever has been cleaned up stays so. */
    method Run(steps: seq<Action>)
      requires Valid()
      modifies this
      ensures Valid() && |cpus| == |old(cpus)|
      ensures old(births) <= births && old(cleanups) <= cleanups && history == old(history) + steps
    {
      for k := 0 to |steps|
        invariant Valid() && |cpus| == |old(cpus)|
        invariant old(births) <= births && old(cleanups) <= cleanups && history == old(history) + steps[..k]
      {
        Step(steps[k]);
      }
    }

    /** Once process i has been cleaned up, nothing that names it by slot and generation reaches anybody. */
    lemma GoneForever(i: nat, n: Name)
      requires Valid() && i in cleanups && n.pid == births[i].pid && n.gen == births[i].gen
      ensures !(procs[n.pid].valid && procs[n.pid].gen == n.gen) && n !in names
      ensures forall c, k :: 0 <= c < |cpus| && 0 <= k < |cpus[c].frames| ==> cpus[c].frames[k].born != i
    {
      forall c, k | 0 <= c < |cpus| && 0 <= k < |cpus[c].frames| ensures cpus[c].frames[k].born != i {
        assert FrameOk(procs, occupant, births, cpus[c].frames[k]);
      }
    }

    /** A process that has exited is cleaned up as soon as, and not before, nobody is inside. */
    lemma CleanedWhenEmpty(i: nat)
      requires Valid() && i < |births| && (Alive(procs, occupant, births, i) ==> procs[births[i].pid].exitflag)
      ensures i in cleanups <==> forall c, k ::
        0 <= c < |cpus| && 0 <= k < |cpus[c].frames| ==> cpus[c].frames[k].born != i
    {
      if i in cleanups {
        GoneForever(i, Name(births[i].pid, births[i].gen, 0));
      } else {
        var p := births[i].pid;
        if forall c, k :: 0 <= c < |cpus| && 0 <= k < |cpus[c].frames| ==> cpus[c].frames[k].born != i {
          forall c, k | 0 <= c < |cpus| && 0 <= k < |cpus[c].frames| ensures cpus[c].frames[k].pid != p {
            assert FrameOk(procs, occupant, births, cpus[c].frames[k]);
          }
          NoFrames(cpus, p);
        }
      }
    }
  }
}
