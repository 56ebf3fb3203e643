/** What parsemain of core/acpi_dsdt.c does with one byte, as functions of the configurations it has. */
module ParseRounds {
  import opened Wrappers
  import opened Grammar

  /** A configuration that has done all it can do alone: it died, it misses a package end or the path, or it is ready
      for the byte or for its alternatives. */
  datatype Settled = Dead | Missing | Ready(x: Config)

  predicate IsSilent(s: Sym) {
    s in {PushEnd, PkgEnd, PkgIgnore, Nothing, Ok}
  }

  /** The elements that only work on the package ends and the path: goto loop2 goes on with the same configuration. */
  function Settle(g: Grammar, x: Config, b: nat, c: nat): (r: Settled)
    requires NotLeftRecursive(g)
    ensures r.Ready? ==> r.x.buf == [] || !IsSilent(r.x.buf[0])
    decreases Measure(g, x.buf)
  {
    ChildrenSmaller(g, x, b, c);
    if x.buf == [] || !IsSilent(x.buf[0]) then Ready(x)
    else if Underflow(x) then Missing
    else if Children(g, x, b, c) == [] then Dead
    else Settle(g, Children(g, x, b, c)[0], b, c)
  }

  predicate HasLists(ok: seq<Config>, y: Config) {
    exists i :: 0 <= i < |ok| && SameLists(ok[i], y)
  }

  /** The end of the switch of parsemain: a configuration that reads the byte is kept unless an equal one was. */
  function Keep(ok: seq<Config>, next: seq<Config>): (r: seq<Config>)
    requires |next| <= 1
  {
    if next == [] || HasLists(ok, next[0]) then ok else next + ok
  }

  /** The alternatives are pushed one by one, so that the last is tried first. */
  function Reverse(s: seq<Config>): (r: seq<Config>)
    ensures |r| == |s| && forall k :: 0 <= k < |s| ==> r[k] == s[|s| - 1 - k]
  {
    if s == [] then [] else Reverse(s[1..]) + [s[0]]
  }

  lemma {:induction false} ReverseSnoc(s: seq<Config>, x: Config)
    ensures Reverse(s + [x]) == [x] + Reverse(s)
  {
    if s != [] {
      assert (s + [x])[1..] == s[1..] + [x];
      ReverseSnoc(s[1..], x);
    }
  }

  /** The configurations to try after x, when those of head are waiting. */
  function Tried(g: Grammar, x: Config, head: seq<Config>, b: nat, c: nat): seq<Config> {
    if x.buf != [] && x.buf[0].NonTerm? then Reverse(Children(g, x, b, c)) + head else head
  }

  function Kept(g: Grammar, x: Config, ok: seq<Config>, b: nat, c: nat): seq<Config> {
    if x.buf != [] && x.buf[0].NonTerm? then ok else Keep(ok, AfterByte(g, x, b, c))
  }

  /** The rounds of parsemain for one byte: head is tried in order, ok collects what is kept. None is the error of a
      missing package end. */
  ghost function Rounds(g: Grammar, head: seq<Config>, ok: seq<Config>, b: nat, c: nat): Option<seq<Config>>
    requires NotLeftRecursive(g)
    decreases TotalWork(g, head, b, c)
  {
    if head == [] then Some(ok)
    else
      RoundsEnd(g, head, b, c);
      match Settle(g, head[0], b, c)
      case Missing => None
      case Dead => Rounds(g, head[1..], ok, b, c)
      case Ready(x) => Rounds(g, Tried(g, x, head[1..], b, c), Kept(g, x, ok, b, c), b, c)
  }

  /** Every round leaves less to do. */
  lemma RoundsEnd(g: Grammar, head: seq<Config>, b: nat, c: nat)
    requires NotLeftRecursive(g) && head != []
    ensures TotalWork(g, head[1..], b, c) < TotalWork(g, head, b, c)
    ensures var r := Settle(g, head[0], b, c);
      r.Ready? ==> TotalWork(g, Tried(g, r.x, head[1..], b, c), b, c) < TotalWork(g, head, b, c)
  {
    WorkStep(g, head[0], b, c);
    var r := Settle(g, head[0], b, c);
    if r.Ready? {
      SettleWork(g, head[0], b, c);
      WorkStep(g, r.x, b, c);
      WorkPushed(g, Children(g, r.x, b, c), head[1..], b, c);
    }
  }

  /** The rounds, case by case: an element that works on the package ends or the path, ... */
  lemma RoundSettles(g: Grammar, x: Config, y: Config, head: seq<Config>, ok: seq<Config>, b: nat, c: nat)
    requires NotLeftRecursive(g) && x.buf != [] && IsSilent(x.buf[0]) && Children(g, x, b, c) == [y]
    ensures Rounds(g, [x] + head, ok, b, c) == Rounds(g, [y] + head, ok, b, c)
    ensures TotalWork(g, [y] + head, b, c) < TotalWork(g, [x] + head, b, c)
  {
    assert ([x] + head)[1..] == head && ([y] + head)[1..] == head;
    ChildrenSmaller(g, x, b, c);
    WorkStep(g, x, b, c);
    assert Settle(g, x, b, c) == Settle(g, y, b, c);
  }

  lemma RoundDies(g: Grammar, x: Config, head: seq<Config>, ok: seq<Config>, b: nat, c: nat)
    requires NotLeftRecursive(g) && x.buf != [] && IsSilent(x.buf[0]) && !Underflow(x) && Children(g, x, b, c) == []
    ensures Rounds(g, [x] + head, ok, b, c) == Rounds(g, head, ok, b, c)
    ensures TotalWork(g, head, b, c) < TotalWork(g, [x] + head, b, c)
  {
    assert ([x] + head)[1..] == head;
    RoundsEnd(g, [x] + head, b, c);
  }

  lemma RoundFails(g: Grammar, x: Config, head: seq<Config>, ok: seq<Config>, b: nat, c: nat)
    requires NotLeftRecursive(g) && Underflow(x)
    ensures Rounds(g, [x] + head, ok, b, c) == None
  {
  }

  /** ... a nonterminal, and anything else. */
  lemma RoundExpands(g: Grammar, x: Config, head: seq<Config>, ok: seq<Config>, b: nat, c: nat)
    requires NotLeftRecursive(g) && x.buf != [] && x.buf[0].NonTerm?
    ensures Rounds(g, [x] + head, ok, b, c) == Rounds(g, Reverse(Children(g, x, b, c)) + head, ok, b, c)
    ensures TotalWork(g, Reverse(Children(g, x, b, c)) + head, b, c) < TotalWork(g, [x] + head, b, c)
  {
    assert ([x] + head)[1..] == head;
    RoundsEnd(g, [x] + head, b, c);
  }

  lemma RoundReads(g: Grammar, x: Config, head: seq<Config>, ok: seq<Config>, b: nat, c: nat)
    requires NotLeftRecursive(g) && (x.buf == [] || (!IsSilent(x.buf[0]) && !x.buf[0].NonTerm?))
    ensures Rounds(g, [x] + head, ok, b, c) == Rounds(g, head, Keep(ok, AfterByte(g, x, b, c)), b, c)
    ensures TotalWork(g, head, b, c) < TotalWork(g, [x] + head, b, c)
  {
    assert ([x] + head)[1..] == head;
    RoundsEnd(g, [x] + head, b, c);
  }

  lemma {:induction false} SettleWork(g: Grammar, x: Config, b: nat, c: nat)
    requires NotLeftRecursive(g)
    ensures var r := Settle(g, x, b, c); r.Ready? ==> Work(g, r.x, b, c) <= Work(g, x, b, c)
    decreases Measure(g, x.buf)
  {
    if x.buf != [] && IsSilent(x.buf[0]) && !Underflow(x) && Children(g, x, b, c) != [] {
      ChildrenSmaller(g, x, b, c);
      WorkStep(g, x, b, c);
      SettleWork(g, Children(g, x, b, c)[0], b, c);
    }
  }

  lemma WorkStep(g: Grammar, cur: Config, b: nat, c: nat)
    requires NotLeftRecursive(g)
    ensures Work(g, cur, b, c) == 1 + TotalWork(g, Children(g, cur, b, c), b, c)
    ensures |Children(g, cur, b, c)| == 1 ==> Work(g, Children(g, cur, b, c)[0], b, c) < Work(g, cur, b, c)
  {
    ChildrenSmaller(g, cur, b, c);
    WorkBelowIsTotal(g, Children(g, cur, b, c), b, c, Measure(g, cur.buf));
  }

  lemma {:induction false} WorkAppend(g: Grammar, s: seq<Config>, t: seq<Config>, b: nat, c: nat)
    requires NotLeftRecursive(g)
    ensures TotalWork(g, s + t, b, c) == TotalWork(g, s, b, c) + TotalWork(g, t, b, c)
  {
    if s == [] {
      assert s + t == t;
    } else {
      assert (s + t)[1..] == s[1..] + t;
      WorkAppend(g, s[1..], t, b, c);
    }
  }

  lemma {:induction false} WorkReverse(g: Grammar, s: seq<Config>, b: nat, c: nat)
    requires NotLeftRecursive(g)
    ensures TotalWork(g, Reverse(s), b, c) == TotalWork(g, s, b, c)
  {
    if s != [] {
      WorkReverse(g, s[1..], b, c);
      WorkAppend(g, Reverse(s[1..]), [s[0]], b, c);
      assert [s[0]][1..] == [];
    }
  }

  lemma WorkPushed(g: Grammar, children: seq<Config>, head: seq<Config>, b: nat, c: nat)
    requires NotLeftRecursive(g)
    ensures TotalWork(g, Reverse(children) + head, b, c) == TotalWork(g, children, b, c) + TotalWork(g, head, b, c)
  {
    WorkAppend(g, Reverse(children), head, b, c);
    WorkReverse(g, children, b, c);
  }

  /** h follows silently from a configuration of s. */
  ghost predicate From(g: Grammar, s: set<Config>, h: Config, b: nat, c: nat) {
    exists x, n: nat :: x in s && Derives(g, x, h, b, c, n)
  }

  ghost predicate DistinctLists(s: set<Config>) {
    forall x, y :: x in s && y in s && SameLists(x, y) ==> x == y
  }

  ghost predicate HasStacks(t: set<Config>, y: Config) {
    exists z :: z in t && SameLists(z, y)
  }

  ghost predicate AllStacks(t: set<Config>, r: set<Config>) {
    forall y {:trigger HasStacks(t, y)} :: y in r ==> HasStacks(t, y)
  }

  /** t has one configuration of r for each pair of stacks in r. */
  ghost predicate Choice(t: set<Config>, r: set<Config>) {
    t <= r && DistinctLists(t) && AllStacks(t, r)
  }

  /** A package end is missing in something that follows silently from s. */
  ghost predicate EndMissing(g: Grammar, s: set<Config>, b: nat, c: nat) {
    exists z :: From(g, s, z, b, c) && Underflow(z)
  }

  ghost function ElemSet(s: seq<Config>): set<Config> {
    set x | x in s
  }

  /** Between two rounds: head holds what still follows from s, ok what has read the byte, and nothing is lost but
      for equal stacks. */
  ghost predicate Midway(g: Grammar, s: set<Config>, head: seq<Config>, ok: seq<Config>, b: nat, c: nat)
    requires NotLeftRecursive(g)
  {
    && (forall h :: h in head ==> From(g, s, h, b, c))
    && (forall z :: z in ok ==> z in Advance(g, s, b, c))
    && (forall i, j :: 0 <= i < j < |ok| ==> !SameLists(ok[i], ok[j]))
    && (forall y :: y in Advance(g, s, b, c) ==> Pending(g, head, ok, y, b, c))
  }

  /** y has a representative, or is still to come. */
  ghost predicate Pending(g: Grammar, head: seq<Config>, ok: seq<Config>, y: Config, b: nat, c: nat)
    requires NotLeftRecursive(g)
  {
    HasLists(ok, y) || exists h :: h in head && y in Outs(g, h, b, c)
  }

  lemma OutsStep(g: Grammar, cur: Config, b: nat, c: nat)
    requires NotLeftRecursive(g)
    ensures forall y :: y in Outs(g, cur, b, c) <==>
      y in AfterByte(g, cur, b, c) || exists h :: h in Children(g, cur, b, c) && y in Outs(g, h, b, c)
  {
    ChildrenSmaller(g, cur, b, c);
  }

  lemma {:induction false} DerivesSnoc(g: Grammar, x: Config, y: Config, z: Config, b: nat, c: nat, n: nat)
    requires Derives(g, x, y, b, c, n) && z in Children(g, y, b, c)
    ensures Derives(g, x, z, b, c, n + 1)
    decreases n
  {
    if n == 0 {
      assert Derives(g, z, z, b, c, 0);
    } else {
      var m := n - 1;
      var w :| w in Children(g, x, b, c) && Derives(g, w, y, b, c, m);
      DerivesSnoc(g, w, y, z, b, c, m);
      assert Derives(g, w, z, b, c, n);
    }
  }

  lemma StepSound(g: Grammar, s: set<Config>, cur: Config, b: nat, c: nat)
    requires From(g, s, cur, b, c)
    ensures forall h :: h in Children(g, cur, b, c) ==> From(g, s, h, b, c)
  {
    var x, n: nat :| x in s && Derives(g, x, cur, b, c, n);
    forall h | h in Children(g, cur, b, c) ensures From(g, s, h, b, c) {
      DerivesSnoc(g, x, cur, h, b, c, n);
    }
  }

  /** What a configuration that follows from s reads, s reads. */
  lemma AdvanceHas(g: Grammar, s: set<Config>, cur: Config, y: Config, b: nat, c: nat)
    requires NotLeftRecursive(g) && From(g, s, cur, b, c) && y in AfterByte(g, cur, b, c)
    ensures y in Advance(g, s, b, c)
  {
    var x, n: nat :| x in s && Derives(g, x, cur, b, c, n);
    ReadsAreOuts(g, x, cur, y, b, c, n);
  }

  /** A settled configuration follows from the one it was, and reads what that one reads. */
  lemma {:induction false} SettleSound(g: Grammar, s: set<Config>, x: Config, b: nat, c: nat)
    requires NotLeftRecursive(g) && From(g, s, x, b, c)
    ensures match Settle(g, x, b, c)
      case Ready(y) => From(g, s, y, b, c) && Outs(g, y, b, c) == Outs(g, x, b, c)
      case Dead => Outs(g, x, b, c) == {}
      case Missing => EndMissing(g, s, b, c)
    decreases Measure(g, x.buf)
  {
    if x.buf != [] && IsSilent(x.buf[0]) && !Underflow(x) {
      OutsStep(g, x, b, c);
      if Children(g, x, b, c) != [] {
        var y := Children(g, x, b, c)[0];
        assert Children(g, x, b, c) == [y];
        ChildrenSmaller(g, x, b, c);
        StepSound(g, s, x, b, c);
        assert Outs(g, y, b, c) == Outs(g, x, b, c);
        SettleSound(g, s, y, b, c);
      }
    }
  }

  lemma KeepHas(ok: seq<Config>, next: seq<Config>)
    requires |next| <= 1 && forall i, j :: 0 <= i < j < |ok| ==> !SameLists(ok[i], ok[j])
    ensures var r := Keep(ok, next);
      && (forall i, j :: 0 <= i < j < |r| ==> !SameLists(r[i], r[j]))
      && (forall z :: z in r ==> z in ok || z in next)
      && (forall y :: HasLists(ok, y) || y in next ==> HasLists(r, y))
  {
    var r := Keep(ok, next);
    if r != ok {
      forall y | HasLists(ok, y) || y in next ensures HasLists(r, y) {
        if y in next {
          assert SameLists(r[0], y);
        } else {
          var i :| 0 <= i < |ok| && SameLists(ok[i], y);
          assert r[i + 1] == ok[i];
        }
      }
    }
  }

  lemma ReverseHas(s: seq<Config>)
    ensures forall x :: x in Reverse(s) <==> x in s
  {
    var r := Reverse(s);
    forall k | 0 <= k < |s| ensures s[k] in r && r[k] in s {
      assert r[|s| - 1 - k] == s[k];
    }
  }

  /** One round on a configuration that is ready keeps the books. */
  lemma RoundKeeps(g: Grammar, s: set<Config>, x: Config, head: seq<Config>, ok: seq<Config>, b: nat, c: nat)
    requires NotLeftRecursive(g) && Midway(g, s, [x] + head, ok, b, c) && (x.buf == [] || !IsSilent(x.buf[0]))
    ensures Midway(g, s, Tried(g, x, head, b, c), Kept(g, x, ok, b, c), b, c)
  {
    if x.buf != [] && x.buf[0].NonTerm? {
      ExpandKeeps(g, s, x, head, ok, b, c);
    } else {
      ReadKeeps(g, s, x, head, ok, b, c);
    }
  }

  lemma ExpandKeeps(g: Grammar, s: set<Config>, x: Config, head: seq<Config>, ok: seq<Config>, b: nat, c: nat)
    requires NotLeftRecursive(g) && Midway(g, s, [x] + head, ok, b, c) && AfterByte(g, x, b, c) == []
    ensures Midway(g, s, Reverse(Children(g, x, b, c)) + head, ok, b, c)
  {
    var children := Children(g, x, b, c);
    assert x in [x] + head;
    OutsStep(g, x, b, c);
    StepSound(g, s, x, b, c);
    ReverseHas(children);
    forall y | y in Advance(g, s, b, c) ensures Pending(g, Reverse(children) + head, ok, y, b, c) {
      assert Pending(g, [x] + head, ok, y, b, c);
    }
  }

  lemma ReadKeeps(g: Grammar, s: set<Config>, x: Config, head: seq<Config>, ok: seq<Config>, b: nat, c: nat)
    requires NotLeftRecursive(g) && Midway(g, s, [x] + head, ok, b, c) && Children(g, x, b, c) == []
    ensures Midway(g, s, head, Keep(ok, AfterByte(g, x, b, c)), b, c)
  {
    var next := AfterByte(g, x, b, c);
    assert x in [x] + head;
    OutsStep(g, x, b, c);
    KeepHas(ok, next);
    if next != [] {
      AdvanceHas(g, s, x, next[0], b, c);
    }
    forall y | y in Advance(g, s, b, c) ensures Pending(g, head, Keep(ok, next), y, b, c) {
      assert Pending(g, [x] + head, ok, y, b, c);
    }
  }

  /** A configuration may be settled, or dropped if that kills it. */
  lemma SettleKeeps(g: Grammar, s: set<Config>, head: seq<Config>, ok: seq<Config>, b: nat, c: nat)
    requires NotLeftRecursive(g) && head != [] && Midway(g, s, head, ok, b, c)
    ensures match Settle(g, head[0], b, c)
      case Ready(y) => Midway(g, s, [y] + head[1..], ok, b, c)
      case Dead => Midway(g, s, head[1..], ok, b, c)
      case Missing => EndMissing(g, s, b, c)
  {
    var x := head[0];
    SettleSound(g, s, x, b, c);
    assert head == [x] + head[1..];
    var r := Settle(g, x, b, c);
    if !r.Missing? {
      var head' := if r.Ready? then [r.x] + head[1..] else head[1..];
      forall y | y in Advance(g, s, b, c) ensures Pending(g, head', ok, y, b, c) {
        assert Pending(g, head, ok, y, b, c);
        if h :| h in head && y in Outs(g, h, b, c) {
          if h == x && r.Ready? {
            assert r.x in head';
          }
        }
      }
    }
  }

  lemma {:induction false} RoundsRepresent(g: Grammar, s: set<Config>, head: seq<Config>, ok: seq<Config>, b: nat,
                                           c: nat)
    requires NotLeftRecursive(g) && Midway(g, s, head, ok, b, c)
    ensures var r := Rounds(g, head, ok, b, c);
      if r.Some? then Choice(ElemSet(r.value), Advance(g, s, b, c)) else EndMissing(g, s, b, c)
    decreases TotalWork(g, head, b, c)
  {
    if head == [] {
      AllKept(g, s, ok, b, c);
    } else {
      RoundsEnd(g, head, b, c);
      SettleKeeps(g, s, head, ok, b, c);
      var r := Settle(g, head[0], b, c);
      if r.Dead? {
        RoundsRepresent(g, s, head[1..], ok, b, c);
      } else if r.Ready? {
        RoundKeeps(g, s, r.x, head[1..], ok, b, c);
        RoundsRepresent(g, s, Tried(g, r.x, head[1..], b, c), Kept(g, r.x, ok, b, c), b, c);
      }
    }
  }

  lemma DistinctSet(s: seq<Config>)
    requires forall i, j :: 0 <= i < j < |s| ==> !SameLists(s[i], s[j])
    ensures DistinctLists(ElemSet(s))
  {
  }

  lemma AllKept(g: Grammar, s: set<Config>, ok: seq<Config>, b: nat, c: nat)
    requires NotLeftRecursive(g) && Midway(g, s, [], ok, b, c)
    ensures Choice(ElemSet(ok), Advance(g, s, b, c))
  {
    DistinctSet(ok);
    forall y | y in Advance(g, s, b, c) ensures HasStacks(ElemSet(ok), y) {
      assert Pending(g, [], ok, y, b, c);
      var i :| 0 <= i < |ok| && SameLists(ok[i], y);
      assert ok[i] in ElemSet(ok);
    }
  }

  /** Without an error no package end is missing. */
  lemma {:induction false} SettleSafe(g: Grammar, x: Config, z: Config, b: nat, c: nat, n: nat)
    requires NotLeftRecursive(g) && Derives(g, x, z, b, c, n) && Underflow(z)
    ensures var r := Settle(g, x, b, c);
      r.Missing? || (r.Ready? && exists m: nat :: Derives(g, r.x, z, b, c, m))
    decreases n
  {
    if x.buf != [] && IsSilent(x.buf[0]) && !Underflow(x) {
      var m := n - 1;
      var y :| y in Children(g, x, b, c) && Derives(g, y, z, b, c, m);
      assert Children(g, x, b, c) == [y];
      ChildrenSmaller(g, x, b, c);
      SettleSafe(g, y, z, b, c, m);
    } else {
      assert Derives(g, x, z, b, c, n);
    }
  }

  lemma FirstStep(g: Grammar, x: Config, z: Config, b: nat, c: nat, n: nat, m: nat) returns (y: Config)
    requires Derives(g, x, z, b, c, n) && n == m + 1
    ensures y in Children(g, x, b, c) && Derives(g, y, z, b, c, m)
  {
    y :| y in Children(g, x, b, c) && Derives(g, y, z, b, c, m);
  }

  lemma MoreSteps(g: Grammar, x: Config, y: Config, z: Config, b: nat, c: nat, n: nat, m: nat)
    requires y in Children(g, x, b, c) && Derives(g, y, z, b, c, n) && m == n + 1
    ensures Derives(g, x, z, b, c, m)
  {
  }

  lemma TriedHas(g: Grammar, x: Config, head: seq<Config>, y: Config, b: nat, c: nat)
    requires y in Children(g, x, b, c) && !IsSilent(x.buf[0])
    ensures y in Tried(g, x, head, b, c)
  {
    ReverseHas(Children(g, x, b, c));
    assert y in Reverse(Children(g, x, b, c));
  }

  /** A ready configuration misses a package end only through what is tried after it. */
  lemma TriedNext(g: Grammar, x: Config, head: seq<Config>, z: Config, b: nat, c: nat, n: nat)
    returns (y: Config, m: nat)
    requires Derives(g, x, z, b, c, n) && Underflow(z) && (x.buf == [] || !IsSilent(x.buf[0]))
    ensures y in Tried(g, x, head, b, c) && Derives(g, y, z, b, c, m)
  {
    if n == 0 {
      assert false;
    } else {
      m := n - 1;
      y := FirstStep(g, x, z, b, c, n, m);
      TriedHas(g, x, head, y, b, c);
    }
  }

  lemma {:induction false} RoundsSafe(g: Grammar, head: seq<Config>, ok: seq<Config>, h: Config, z: Config, b: nat,
                                      c: nat, n: nat)
    requires NotLeftRecursive(g) && h in head && Derives(g, h, z, b, c, n) && Underflow(z)
    ensures Rounds(g, head, ok, b, c).None?
    decreases TotalWork(g, head, b, c)
  {
    RoundsEnd(g, head, b, c);
    var r := Settle(g, head[0], b, c);
    if h == head[0] {
      SettleSafe(g, h, z, b, c, n);
      if r.Ready? {
        var m: nat :| Derives(g, r.x, z, b, c, m);
        var y, l := TriedNext(g, r.x, head[1..], z, b, c, m);
        RoundsSafe(g, Tried(g, r.x, head[1..], b, c), Kept(g, r.x, ok, b, c), y, z, b, c, l);
      }
    } else if r.Dead? {
      RoundsSafe(g, head[1..], ok, h, z, b, c, n);
    } else if r.Ready? {
      RoundsSafe(g, Tried(g, r.x, head[1..], b, c), Kept(g, r.x, ok, b, c), h, z, b, c, n);
    }
  }

  /** What one position keeps is one of each pair of stacks that its configurations become, and the error is that
      one of them misses a package end. */
  lemma PositionKeeps(g: Grammar, head: seq<Config>, b: nat, c: nat)
    requires NotLeftRecursive(g)
    ensures var r := Rounds(g, head, [], b, c);
      && (r.None? <==> EndMissing(g, ElemSet(head), b, c))
      && (r.Some? ==> Choice(ElemSet(r.value), Advance(g, ElemSet(head), b, c)))
  {
    var s := ElemSet(head);
    forall h | h in head ensures From(g, s, h, b, c) {
      assert h in s && Derives(g, h, h, b, c, 0);
    }
    forall y | y in Advance(g, s, b, c) ensures Pending(g, head, [], y, b, c) {
      var x :| x in s && y in Outs(g, x, b, c);
      assert x in head;
    }
    RoundsRepresent(g, s, head, [], b, c);
    if EndMissing(g, s, b, c) {
      var z :| From(g, s, z, b, c) && Underflow(z);
      var x, n: nat :| x in s && Derives(g, x, z, b, c, n);
      RoundsSafe(g, head, [], x, z, b, c, n);
    }
  }

  /** The configurations kept after the first k bytes, in the order of the list; None after the error. */
  ghost function KeptBy(g: Grammar, input: seq<nat>, k: nat): Option<seq<Config>>
    requires NotLeftRecursive(g) && k <= |input|
  {
    if k == 0 then Some([START])
    else
      match KeptBy(g, input, k - 1)
      case None => None
      case Some(head) => Rounds(g, head, [], input[k - 1], k - 1)
  }

  datatype Outcome = Accepted(r: Config) | NoParse | LimitUnderflow

  /** What parsemain answers: the first configuration kept after the last byte, if there is one. */
  ghost function Answer(g: Grammar, input: seq<nat>): Outcome
    requires NotLeftRecursive(g)
  {
    match KeptBy(g, input, |input|)
    case None => LimitUnderflow
    case Some(head) => if head == [] then NoParse else Accepted(head[0])
  }

  /** When nothing is kept, or after the error, nothing more happens. */
  lemma {:induction false} KeptEnds(g: Grammar, input: seq<nat>, j: nat, k: nat)
    requires NotLeftRecursive(g) && j <= k <= |input|
    ensures KeptBy(g, input, j) == Some([]) ==> KeptBy(g, input, k) == Some([])
    ensures KeptBy(g, input, j) == None ==> KeptBy(g, input, k) == None
    decreases k
  {
    if j < k {
      var l := k - 1;
      KeptEnds(g, input, j, l);
    }
  }
}
