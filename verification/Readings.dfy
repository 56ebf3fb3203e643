/** Which readings of the input parsemain of core/acpi_dsdt.c keeps: eqlist compares neither the path nor the package
    length that is being read, so of two readings with equal stacks one is dropped even if these differ. */
module Readings {
  import opened Wrappers
  import opened Grammar
  import opened Markers
  import opened ParseRounds

  /** Some element below will use the package length as it is now. */
  predicate Live(buf: seq<Sym>) {
    if buf == [] || buf[0].Len0? then false
    else buf[0] in {Len1, Len2, Len3, PushEnd} || Live(buf[1..])
  }

  /** Every alternative reads the first byte of a package length before it uses the length, as the cases of
      AML_PkgLength do. */
  ghost predicate LengthsFirst(g: Grammar) {
    forall n, b, k :: 0 <= k < |g.expand(n, b)| ==> !Live(g.expand(n, b)[k])
  }

  /** The same package length, if it will be used. */
  predicate SameLength(x: Config, y: Config) {
    Live(x.buf) ==> x.lenAt == y.lenAt && x.len == y.len
  }

  /** The same stacks, the same path, and the same package length if it will be used. */
  predicate SameReading(x: Config, y: Config) {
    SameLists(x, y) && x.path == y.path && SameLength(x, y)
  }

  lemma {:induction false} LiveAppend(a: seq<Sym>, rest: seq<Sym>)
    requires !Live(a)
    ensures Live(a + rest) ==> Live(rest)
  {
    if a == [] {
      assert a + rest == rest;
    } else {
      assert (a + rest)[1..] == a[1..] + rest;
      if !a[0].Len0? {
        LiveAppend(a[1..], rest);
      }
    }
  }

  /** Equal readings have equal readings as children, one for one. */
  lemma ChildrenSame(g: Grammar, x: Config, y: Config, b: nat, c: nat)
    requires LengthsFirst(g) && SameReading(x, y)
    ensures |Children(g, x, b, c)| == |Children(g, y, b, c)|
    ensures forall i :: 0 <= i < |Children(g, x, b, c)| ==>
      SameReading(Children(g, x, b, c)[i], Children(g, y, b, c)[i])
  {
    if x.buf != [] && x.buf[0].NonTerm? {
      var n, below := x.buf[0].id, Enter(g, x.(buf := x.buf[1..]), x.buf[0].id);
      assert ([Ok] + x.buf[1..])[1..] == x.buf[1..];
      forall i | 0 <= i < |g.expand(n, b)| ensures SameReading(Children(g, x, b, c)[i], Children(g, y, b, c)[i]) {
        LiveAppend(g.expand(n, b)[i], below.buf);
      }
    }
  }

  lemma AfterByteSame(g: Grammar, x: Config, y: Config, b: nat, c: nat)
    requires SameReading(x, y)
    ensures |AfterByte(g, x, b, c)| == |AfterByte(g, y, b, c)|
    ensures forall i :: 0 <= i < |AfterByte(g, x, b, c)| ==>
      SameReading(AfterByte(g, x, b, c)[i], AfterByte(g, y, b, c)[i])
  {
  }

  lemma ChildSame(g: Grammar, x: Config, y: Config, z: Config, b: nat, c: nat) returns (z': Config)
    requires LengthsFirst(g) && SameReading(x, y) && z in Children(g, y, b, c)
    ensures z' in Children(g, x, b, c) && SameReading(z', z)
  {
    ChildrenSame(g, x, y, b, c);
    var i :| 0 <= i < |Children(g, y, b, c)| && Children(g, y, b, c)[i] == z;
    z' := Children(g, x, b, c)[i];
  }

  lemma {:induction false} DerivesSame(g: Grammar, x: Config, y: Config, w: Config, b: nat, c: nat, n: nat)
    returns (w': Config)
    requires LengthsFirst(g) && SameReading(x, y) && Derives(g, y, w, b, c, n)
    ensures Derives(g, x, w', b, c, n) && SameReading(w', w)
    decreases n
  {
    if n == 0 {
      w' := x;
    } else {
      var m := n - 1;
      var z := FirstStep(g, y, w, b, c, n, m);
      var z' := ChildSame(g, x, y, z, b, c);
      w' := DerivesSame(g, z', z, w, b, c, m);
      MoreSteps(g, x, z', w', b, c, m, n);
    }
  }

  lemma ByteSame(g: Grammar, x: Config, y: Config, w: Config, b: nat, c: nat) returns (w': Config)
    requires SameReading(x, y) && w in AfterByte(g, y, b, c)
    ensures w' in AfterByte(g, x, b, c) && SameReading(w', w)
  {
    AfterByteSame(g, x, y, b, c);
    var i :| 0 <= i < |AfterByte(g, y, b, c)| && AfterByte(g, y, b, c)[i] == w;
    w' := AfterByte(g, x, b, c)[i];
  }

  /** Whatever one reading becomes, an equal one becomes too. */
  lemma ReadsSame(g: Grammar, x: Config, y: Config, w: Config, b: nat, c: nat) returns (w': Config)
    requires NotLeftRecursive(g) && LengthsFirst(g) && SameReading(x, y) && w in Outs(g, y, b, c)
    ensures w' in Outs(g, x, b, c) && SameReading(w', w)
  {
    OutsAreReads(g, y, w, b, c);
    var z, n: nat :| Derives(g, y, z, b, c, n) && w in AfterByte(g, z, b, c);
    var z' := DerivesSame(g, x, y, z, b, c, n);
    w' := ByteSame(g, z', z, w, b, c);
    ReadsAreOuts(g, x, z', w', b, c, n);
  }

  /** What one position keeps of what the one before has kept. */
  lemma KeptNext(g: Grammar, input: seq<nat>, j: nat, k: nat)
    requires NotLeftRecursive(g) && j < |input| && k == j + 1 && KeptBy(g, input, k).Some?
    ensures KeptBy(g, input, j).Some?
    ensures Choice(ElemSet(KeptBy(g, input, k).value), Advance(g, ElemSet(KeptBy(g, input, j).value), input[j], j))
  {
    PositionKeeps(g, KeptBy(g, input, j).value, input[j], j);
  }

  lemma StartKept(g: Grammar, input: seq<nat>)
    requires NotLeftRecursive(g)
    ensures KeptBy(g, input, 0) == Some([START]) && ElemSet([START]) == {START} == Reach(g, input, 0)
  {
  }

  /** What is kept is reachable, and no two are equal for eqlist, whatever the grammar and the input. */
  lemma {:induction false} KeptIsReachable(g: Grammar, input: seq<nat>, k: nat)
    requires NotLeftRecursive(g) && k <= |input| && KeptBy(g, input, k).Some?
    ensures var kept := ElemSet(KeptBy(g, input, k).value); kept <= Reach(g, input, k) && DistinctLists(kept)
    decreases k
  {
    if k == 0 {
      StartKept(g, input);
    } else {
      var j := k - 1;
      KeptNext(g, input, j, k);
      KeptIsReachable(g, input, j);
      AdvanceMono(g, ElemSet(KeptBy(g, input, j).value), Reach(g, input, j), input[j], j);
      ReachNext(g, input, j, k);
    }
  }

  lemma AdvanceMono(g: Grammar, s: set<Config>, t: set<Config>, b: nat, c: nat)
    requires NotLeftRecursive(g) && s <= t
    ensures Advance(g, s, b, c) <= Advance(g, t, b, c)
  {
  }

  /** A configuration of r with these stacks does not become one with the stacks of w. */
  ghost predicate Misses(g: Grammar, r: set<Config>, buf: seq<Sym>, limits: seq<nat>, w: Config, b: nat, c: nat,
                         x: Config)
    requires NotLeftRecursive(g)
  {
    x in r && x.buf == buf && x.limits == limits && !HasStacks(Outs(g, x, b, c), w)
  }

  /** Whichever configuration with some pair of stacks is kept of r, it becomes one with the stacks of w. */
  ghost predicate LedTo(g: Grammar, r: set<Config>, w: Config, b: nat, c: nat)
    requires NotLeftRecursive(g)
  {
    exists x0 :: x0 in r && Leads(g, r, x0, w, b, c)
  }

  ghost predicate Leads(g: Grammar, r: set<Config>, x0: Config, w: Config, b: nat, c: nat)
    requires NotLeftRecursive(g)
  {
    forall x :: !Misses(g, r, x0.buf, x0.limits, w, b, c, x)
  }

  /** When r reads the byte, no stack depends on which configurations eqlist has dropped from r. */
  ghost predicate Safe(g: Grammar, r: set<Config>, b: nat, c: nat)
    requires NotLeftRecursive(g)
  {
    forall w :: w in Advance(g, r, b, c) ==> LedTo(g, r, w, b, c)
  }

  ghost predicate Suffices(g: Grammar, s: set<Config>, r: set<Config>, b: nat, c: nat)
    requires NotLeftRecursive(g)
  {
    AllStacks(Advance(g, s, b, c), Advance(g, r, b, c))
  }

  lemma ChoiceSuffices(g: Grammar, s: set<Config>, r: set<Config>, b: nat, c: nat)
    requires NotLeftRecursive(g) && Safe(g, r, b, c) && Choice(s, r)
    ensures Suffices(g, s, r, b, c)
  {
    forall w | w in Advance(g, r, b, c) ensures HasStacks(Advance(g, s, b, c), w) {
      assert LedTo(g, r, w, b, c);
      var x0 :| x0 in r && Leads(g, r, x0, w, b, c);
      assert HasStacks(s, x0);
      var x :| x in s && SameLists(x, x0);
      assert !Misses(g, r, x0.buf, x0.limits, w, b, c, x);
      var z :| z in Outs(g, x, b, c) && SameLists(z, w);
      assert z in Advance(g, s, b, c);
    }
  }

  ghost function Worst(g: Grammar, r: set<Config>, buf: seq<Sym>, limits: seq<nat>, w: Config, b: nat, c: nat): Config
    requires NotLeftRecursive(g)
  {
    if x :| Misses(g, r, buf, limits, w, b, c, x) then x else w
  }

  /** If r is not safe, all that is kept of it may be configurations that do not become one with the stacks of w. */
  lemma UnluckyChoice(g: Grammar, r: set<Config>, w: Config, b: nat, c: nat) returns (s: set<Config>)
    requires NotLeftRecursive(g) && !LedTo(g, r, w, b, c)
    ensures Choice(s, r) && !HasStacks(Advance(g, s, b, c), w)
  {
    s := set x0 | x0 in r :: Worst(g, r, x0.buf, x0.limits, w, b, c);
    forall y | y in s ensures Unlucky(g, r, w, b, c, y) {
      var x0 :| x0 in r && y == Worst(g, r, x0.buf, x0.limits, w, b, c);
      assert !Leads(g, r, x0, w, b, c);
    }
    forall y | y in r ensures HasStacks(s, y) {
      assert !Leads(g, r, y, w, b, c);
      assert SameLists(Worst(g, r, y.buf, y.limits, w, b, c), y);
    }
  }

  ghost predicate Unlucky(g: Grammar, r: set<Config>, w: Config, b: nat, c: nat, y: Config)
    requires NotLeftRecursive(g)
  {
    y in r && y == Worst(g, r, y.buf, y.limits, w, b, c) && !HasStacks(Outs(g, y, b, c), w)
  }

  lemma UnsafeLoses(g: Grammar, r: set<Config>, b: nat, c: nat) returns (s: set<Config>)
    requires NotLeftRecursive(g) && !Safe(g, r, b, c)
    ensures Choice(s, r) && !Suffices(g, s, r, b, c)
  {
    var w :| w in Advance(g, r, b, c) && !LedTo(g, r, w, b, c);
    s := UnluckyChoice(g, r, w, b, c);
  }

  /** Whatever eqlist drops, no stack is lost with the next byte, iff the configurations are safe. */
  lemma SafeExactly(g: Grammar, r: set<Config>, b: nat, c: nat)
    requires NotLeftRecursive(g)
    ensures Safe(g, r, b, c) <==> forall s :: Choice(s, r) ==> Suffices(g, s, r, b, c)
  {
    forall s | Safe(g, r, b, c) && Choice(s, r) ensures Suffices(g, s, r, b, c) {
      ChoiceSuffices(g, s, r, b, c);
    }
    if !Safe(g, r, b, c) {
      var s := UnsafeLoses(g, r, b, c);
    }
  }

  ghost predicate SafeAt(g: Grammar, input: seq<nat>, k: nat)
    requires NotLeftRecursive(g) && k < |input|
  {
    Safe(g, Reach(g, input, k), input[k], k)
  }

  /** Every position before k is safe. */
  ghost predicate SafeUntil(g: Grammar, input: seq<nat>, k: nat)
    requires NotLeftRecursive(g) && k <= |input|
  {
    forall j :: 0 <= j < k ==> SafeAt(g, input, j)
  }

  lemma ChoiceOfMore(t: set<Config>, a: set<Config>, r: set<Config>)
    requires Choice(t, a) && a <= r && AllStacks(a, r)
    ensures Choice(t, r)
  {
    forall w | w in r ensures HasStacks(t, w) {
      assert HasStacks(a, w);
      var z :| z in a && SameLists(z, w);
      assert HasStacks(t, z);
    }
  }

  lemma SafeStep(g: Grammar, t: set<Config>, r: set<Config>, t': set<Config>, b: nat, c: nat)
    requires NotLeftRecursive(g) && Choice(t, r) && Safe(g, r, b, c) && Choice(t', Advance(g, t, b, c))
    ensures Choice(t', Advance(g, r, b, c))
  {
    ChoiceSuffices(g, t, r, b, c);
    AdvanceMono(g, t, r, b, c);
    ChoiceOfMore(t', Advance(g, t, b, c), Advance(g, r, b, c));
  }

  lemma KeptStep(g: Grammar, input: seq<nat>, j: nat, k: nat)
    requires NotLeftRecursive(g) && j < |input| && k == j + 1 && SafeAt(g, input, j) && KeptBy(g, input, k).Some?
    requires KeptBy(g, input, j).Some? ==> Choice(ElemSet(KeptBy(g, input, j).value), Reach(g, input, j))
    ensures Choice(ElemSet(KeptBy(g, input, k).value), Reach(g, input, k))
  {
    KeptNext(g, input, j, k);
    ReachNext(g, input, j, k);
    SafeStep(g, ElemSet(KeptBy(g, input, j).value), Reach(g, input, j), ElemSet(KeptBy(g, input, k).value),
             input[j], j);
  }

  lemma StartChoice()
    ensures Choice({START}, {START})
  {
    assert HasStacks({START}, START);
  }

  /** While every position was safe, no reachable stack was lost. */
  lemma {:induction false} SafeStacksKept(g: Grammar, input: seq<nat>, k: nat)
    requires NotLeftRecursive(g) && k <= |input| && KeptBy(g, input, k).Some? && SafeUntil(g, input, k)
    ensures Choice(ElemSet(KeptBy(g, input, k).value), Reach(g, input, k))
    decreases k
  {
    if k == 0 {
      StartKept(g, input);
      StartChoice();
    } else {
      var j := k - 1;
      KeptNext(g, input, j, k);
      SafeStacksKept(g, input, j);
      KeptStep(g, input, j, k);
    }
  }

  ghost predicate DeterminedIn(r: set<Config>) {
    forall x, y :: x in r && y in r && SameLists(x, y) ==> SameReading(x, y)
  }

  /** No two reachable configurations with equal stacks differ in their path or in a length that will be used. */
  ghost predicate ReadingsDetermined(g: Grammar, input: seq<nat>)
    requires NotLeftRecursive(g)
  {
    forall k :: 0 <= k <= |input| ==> DeterminedIn(Reach(g, input, k))
  }

  lemma DeterminedLeads(g: Grammar, r: set<Config>, x0: Config, w: Config, b: nat, c: nat)
    requires NotLeftRecursive(g) && LengthsFirst(g) && DeterminedIn(r) && x0 in r && w in Outs(g, x0, b, c)
    ensures Leads(g, r, x0, w, b, c)
  {
    forall x | x in r && SameLists(x, x0) ensures !Misses(g, r, x0.buf, x0.limits, w, b, c, x) {
      var w' := ReadsSame(g, x, x0, w, b, c);
      assert HasStacks(Outs(g, x, b, c), w);
    }
  }

  lemma DeterminedIsSafe(g: Grammar, r: set<Config>, b: nat, c: nat)
    requires NotLeftRecursive(g) && LengthsFirst(g) && DeterminedIn(r)
    ensures Safe(g, r, b, c)
  {
    forall w | w in Advance(g, r, b, c) ensures LedTo(g, r, w, b, c) {
      var x0 :| x0 in r && w in Outs(g, x0, b, c);
      DeterminedLeads(g, r, x0, w, b, c);
    }
  }

  lemma AllSafe(g: Grammar, input: seq<nat>, k: nat)
    requires NotLeftRecursive(g) && LengthsFirst(g) && ReadingsDetermined(g, input) && k <= |input|
    ensures SafeUntil(g, input, k)
  {
    forall j | 0 <= j < k ensures SafeAt(g, input, j) {
      DeterminedIsSafe(g, Reach(g, input, j), input[j], j);
    }
  }

  ghost predicate HasReading(t: set<Config>, y: Config) {
    exists z :: z in t && SameReading(z, y)
  }

  ghost predicate AllReadings(t: set<Config>, r: set<Config>) {
    forall y {:trigger HasReading(t, y)} :: y in r ==> HasReading(t, y)
  }

  ghost predicate AllReadingsKept(g: Grammar, input: seq<nat>, k: nat)
    requires NotLeftRecursive(g) && k <= |input| && KeptBy(g, input, k).Some?
  {
    AllReadings(ElemSet(KeptBy(g, input, k).value), Reach(g, input, k))
  }

  lemma ChoiceHasReadings(t: set<Config>, r: set<Config>)
    requires Choice(t, r) && DeterminedIn(r)
    ensures AllReadings(t, r)
  {
    forall y | y in r ensures HasReading(t, y) {
      assert HasStacks(t, y);
    }
  }

  lemma AllReadingsAt(g: Grammar, input: seq<nat>, k: nat)
    requires NotLeftRecursive(g) && LengthsFirst(g) && ReadingsDetermined(g, input)
    requires k <= |input| && KeptBy(g, input, k).Some?
    ensures AllReadingsKept(g, input, k)
  {
    AllSafe(g, input, k);
    SafeStacksKept(g, input, k);
    ChoiceHasReadings(ElemSet(KeptBy(g, input, k).value), Reach(g, input, k));
  }

  lemma KeptDetermine(t: set<Config>, r: set<Config>)
    requires DistinctLists(t) && AllReadings(t, r)
    ensures DeterminedIn(r)
  {
    forall x, y | x in r && y in r && SameLists(x, y) ensures SameReading(x, y) {
      assert HasReading(t, x) && HasReading(t, y);
    }
  }

  /** No reading is lost, with its stacks, its path and the length it will use, iff the stacks determine the path and
      the length in use. */
  lemma ReadingsKeptExactly(g: Grammar, input: seq<nat>)
    requires NotLeftRecursive(g) && LengthsFirst(g) && forall k :: 0 <= k <= |input| ==> KeptBy(g, input, k).Some?
    ensures ReadingsDetermined(g, input) <==> forall k :: 0 <= k <= |input| ==> AllReadingsKept(g, input, k)
  {
    if ReadingsDetermined(g, input) {
      forall k | 0 <= k <= |input| ensures AllReadingsKept(g, input, k) {
        AllReadingsAt(g, input, k);
      }
    }
    if forall k :: 0 <= k <= |input| ==> AllReadingsKept(g, input, k) {
      forall k | 0 <= k <= |input| ensures DeterminedIn(Reach(g, input, k)) {
        KeptIsReachable(g, input, k);
        assert AllReadingsKept(g, input, k);
        KeptDetermine(ElemSet(KeptBy(g, input, k).value), Reach(g, input, k));
      }
    }
  }

  ghost predicate LengthsIn(r: set<Config>) {
    forall x, y :: x in r && y in r && SameLists(x, y) ==> SameLength(x, y)
  }

  /** No two reachable configurations with equal stacks differ in a package length that will be used. */
  ghost predicate LengthsDetermined(g: Grammar, input: seq<nat>)
    requires NotLeftRecursive(g)
  {
    forall k :: 0 <= k <= |input| ==> LengthsIn(Reach(g, input, k))
  }

  lemma {:induction false} LiveBare(buf: seq<Sym>)
    ensures Live(Unmarked(buf)) == Live(buf)
  {
    if buf != [] {
      LiveBare(buf[1..]);
      if buf[0] == Ok {
        assert Unmarked(buf) == Unmarked(buf[1..]);
      } else {
        assert Unmarked(buf)[1..] == Unmarked(buf[1..]);
      }
    }
  }

  /** The same stacks but for markers, and the same package length if it will be used. */
  predicate SameBare(x: Config, y: Config) {
    SameReading(Bare(x), Bare(y))
  }

  lemma BareOfSame(x: Config, y: Config)
    requires SameLists(x, y) && SameLength(x, y)
    ensures SameBare(x, y)
  {
    LiveBare(x.buf);
  }

  /** Whatever path one reading has, it becomes what an equal one becomes. */
  lemma BareReadsSame(g: Grammar, x: Config, y: Config, w: Config, b: nat, c: nat) returns (w': Config)
    requires NotLeftRecursive(g) && LengthsFirst(g) && Marked(x) && Marked(y) && SameBare(x, y)
    requires w in Outs(g, y, b, c)
    ensures w' in Outs(g, x, b, c) && SameBare(w', w)
  {
    OutsBare(g, y, w, b, c);
    var v := ReadsSame(Plain(g), Bare(x), Bare(y), Bare(w), b, c);
    w' := OutsMarked(g, x, v, b, c);
  }

  ghost predicate HasBare(t: set<Config>, y: Config) {
    exists z :: z in t && SameBare(z, y)
  }

  ghost predicate Covers(t: set<Config>, r: set<Config>) {
    forall y {:trigger HasBare(t, y)} :: y in r ==> HasBare(t, y)
  }

  lemma CoversNext(g: Grammar, t: set<Config>, r: set<Config>, t': set<Config>, b: nat, c: nat)
    requires NotLeftRecursive(g) && LengthsFirst(g) && AllMarked(r) && t <= r && Covers(t, r)
    requires Choice(t', Advance(g, t, b, c)) && LengthsIn(Advance(g, r, b, c))
    ensures Covers(t', Advance(g, r, b, c))
  {
    AdvanceMono(g, t, r, b, c);
    forall w | w in Advance(g, r, b, c) ensures HasBare(t', w) {
      var y :| y in r && w in Outs(g, y, b, c);
      assert HasBare(t, y);
      var x :| x in t && SameBare(x, y);
      var w' := BareReadsSame(g, x, y, w, b, c);
      assert w' in Advance(g, t, b, c) && HasStacks(t', w');
      var z :| z in t' && SameLists(z, w');
      BareOfSame(z, w');
    }
  }

  ghost predicate KeptCovers(g: Grammar, input: seq<nat>, k: nat)
    requires NotLeftRecursive(g) && k <= |input| && KeptBy(g, input, k).Some?
  {
    Covers(ElemSet(KeptBy(g, input, k).value), Reach(g, input, k))
  }

  lemma CoversStart(g: Grammar, input: seq<nat>)
    requires NotLeftRecursive(g)
    ensures KeptBy(g, input, 0).Some? && KeptCovers(g, input, 0)
  {
    StartKept(g, input);
    assert HasBare({START}, START);
  }

  lemma CoversStep(g: Grammar, input: seq<nat>, j: nat, k: nat)
    requires NotLeftRecursive(g) && LengthsFirst(g) && LengthsDetermined(g, input)
    requires j < |input| && k == j + 1 && KeptBy(g, input, k).Some?
    requires KeptBy(g, input, j).Some? && KeptCovers(g, input, j)
    ensures KeptCovers(g, input, k)
  {
    KeptNext(g, input, j, k);
    KeptIsReachable(g, input, j);
    ReachBare(g, input, j);
    ReachNext(g, input, j, k);
    assert LengthsIn(Reach(g, input, k));
    CoversNext(g, ElemSet(KeptBy(g, input, j).value), Reach(g, input, j), ElemSet(KeptBy(g, input, k).value),
               input[j], j);
  }

  /** When the stacks determine the lengths in use, every reachable configuration has one kept that is the same but for
      its path and its markers. */
  lemma {:induction false} AllCovered(g: Grammar, input: seq<nat>, k: nat)
    requires NotLeftRecursive(g) && LengthsFirst(g) && LengthsDetermined(g, input)
    requires k <= |input| && KeptBy(g, input, k).Some?
    ensures KeptCovers(g, input, k)
    decreases k
  {
    if k == 0 {
      CoversStart(g, input);
    } else {
      var j := k - 1;
      KeptNext(g, input, j, k);
      AllCovered(g, input, j);
      CoversStep(g, input, j, k);
    }
  }

  ghost function StacksOf(s: set<Config>): set<(seq<Sym>, seq<nat>)> {
    set x | x in s :: (x.buf, x.limits)
  }

  lemma CoveredStacks(t: set<Config>, r: set<Config>)
    requires t <= r && Covers(t, r)
    ensures StacksOf(BareSet(t)) == StacksOf(BareSet(r))
  {
    forall p | p in StacksOf(BareSet(r)) ensures p in StacksOf(BareSet(t)) {
      var w :| w in BareSet(r) && p == (w.buf, w.limits);
      var y :| y in r && Bare(y) == w;
      assert HasBare(t, y);
      var z :| z in t && SameBare(z, y);
      assert Bare(z) in BareSet(t);
    }
  }

  /** When the stacks determine the lengths in use, the stacks kept are, but for markers, exactly those that leftmost
      derivations of the grammar reach. */
  lemma StacksKept(g: Grammar, input: seq<nat>, k: nat)
    requires NotLeftRecursive(g) && LengthsFirst(g) && LengthsDetermined(g, input)
    requires k <= |input| && KeptBy(g, input, k).Some?
    ensures StacksOf(BareSet(ElemSet(KeptBy(g, input, k).value))) == StacksOf(Reach(Plain(g), input, k))
  {
    AllCovered(g, input, k);
    KeptIsReachable(g, input, k);
    ReachBare(g, input, k);
    CoveredStacks(ElemSet(KeptBy(g, input, k).value), Reach(g, input, k));
  }

  /** A reading of the input, as the grammar has it, misses a package end at position k. */
  ghost predicate MissesEnd(g: Grammar, input: seq<nat>, k: nat)
    requires NotLeftRecursive(g) && k < |input|
  {
    EndMissing(Plain(g), Reach(Plain(g), input, k), input[k], k)
  }

  lemma MissesExactly(g: Grammar, input: seq<nat>, k: nat)
    requires NotLeftRecursive(g) && k < |input|
    ensures MissesEnd(g, input, k) <==> EndMissing(g, Reach(g, input, k), input[k], k)
  {
    ReachBare(g, input, k);
    MissingBare(g, Reach(g, input, k), input[k], k);
  }

  /** What parsemain answers is sound: an accepted input is a viable prefix, and it stops with an error only if a
      reading of some prefix misses a package end. */
  lemma AnswerSound(g: Grammar, input: seq<nat>)
    requires NotLeftRecursive(g)
    ensures Answer(g, input).Accepted? ==> Bare(Answer(g, input).r) in Reach(Plain(g), input, |input|)
    ensures Answer(g, input).LimitUnderflow? ==> exists k :: 0 <= k < |input| && MissesEnd(g, input, k)
  {
    if Answer(g, input).LimitUnderflow? {
      var k := FirstError(g, input, |input|);
      ErrorMisses(g, input, k);
    } else if Answer(g, input).Accepted? {
      KeptIsReachable(g, input, |input|);
      ReachBare(g, input, |input|);
      var r := Answer(g, input).r;
      assert r in ElemSet(KeptBy(g, input, |input|).value);
      assert Bare(r) in BareSet(Reach(g, input, |input|));
    }
  }

  lemma ErrorMisses(g: Grammar, input: seq<nat>, k: nat)
    requires NotLeftRecursive(g) && k < |input| && KeptBy(g, input, k).Some?
    requires Rounds(g, KeptBy(g, input, k).value, [], input[k], k).None?
    ensures MissesEnd(g, input, k)
  {
    PositionKeeps(g, KeptBy(g, input, k).value, input[k], k);
    KeptIsReachable(g, input, k);
    MissingMono(g, ElemSet(KeptBy(g, input, k).value), Reach(g, input, k), input[k], k);
    MissesExactly(g, input, k);
  }

  lemma {:induction false} FirstError(g: Grammar, input: seq<nat>, k: nat) returns (j: nat)
    requires NotLeftRecursive(g) && k <= |input| && KeptBy(g, input, k).None?
    ensures j < k && KeptBy(g, input, j).Some? && Rounds(g, KeptBy(g, input, j).value, [], input[j], j).None?
    decreases k
  {
    j := k - 1;
    if KeptBy(g, input, j).None? {
      j := FirstError(g, input, j);
    }
  }

  lemma MissingMono(g: Grammar, s: set<Config>, t: set<Config>, b: nat, c: nat)
    requires s <= t && EndMissing(g, s, b, c)
    ensures EndMissing(g, t, b, c)
  {
    var z :| From(g, s, z, b, c) && Underflow(z);
    var x, n: nat :| x in s && Derives(g, x, z, b, c, n);
    assert From(g, t, z, b, c);
  }

  /** While every position is safe, an input is refused only if it is no viable prefix. */
  lemma SafeVerdict(g: Grammar, input: seq<nat>)
    requires NotLeftRecursive(g) && SafeUntil(g, input, |input|)
    requires !Answer(g, input).LimitUnderflow?
    ensures Answer(g, input).Accepted? <==> Reach(Plain(g), input, |input|) != {}
  {
    SafeStacksKept(g, input, |input|);
    ReachBare(g, input, |input|);
    KeptNonEmpty(KeptBy(g, input, |input|).value, Reach(g, input, |input|));
  }

  lemma KeptNonEmpty(kept: seq<Config>, r: set<Config>)
    requires Choice(ElemSet(kept), r)
    ensures kept != [] <==> BareSet(r) != {}
  {
    if w :| w in BareSet(r) {
      var y :| y in r && Bare(y) == w;
      assert HasStacks(ElemSet(kept), y);
    }
    if kept != [] {
      assert kept[0] in ElemSet(kept);
      assert Bare(kept[0]) in BareSet(r);
    }
  }

  lemma SameEmpty(kept: seq<Config>, r: set<Config>)
    requires StacksOf(BareSet(ElemSet(kept))) == StacksOf(r)
    ensures kept != [] <==> r != {}
  {
    if kept != [] {
      var x := kept[0];
      assert Bare(x) in BareSet(ElemSet(kept));
      assert (Bare(x).buf, Bare(x).limits) in StacksOf(r);
    }
    if w :| w in r {
      assert (w.buf, w.limits) in StacksOf(BareSet(ElemSet(kept)));
    }
  }

  /** The answer of parsemain, exactly: the error iff a reading of some prefix misses a package end, and otherwise
      accepted iff the input is a viable prefix. */
  lemma Verdict(g: Grammar, input: seq<nat>)
    requires NotLeftRecursive(g) && LengthsFirst(g) && LengthsDetermined(g, input)
    ensures Answer(g, input).LimitUnderflow? <==> exists k :: 0 <= k < |input| && MissesEnd(g, input, k)
    ensures !Answer(g, input).LimitUnderflow? ==>
      (Answer(g, input).Accepted? <==> Reach(Plain(g), input, |input|) != {})
  {
    AnswerSound(g, input);
    if !Answer(g, input).LimitUnderflow? {
      forall k | 0 <= k < |input| ensures !MissesEnd(g, input, k) {
        SomeBefore(g, input, k);
        NoErrorNext(g, input, k);
      }
      StacksKept(g, input, |input|);
      SameEmpty(KeptBy(g, input, |input|).value, Reach(Plain(g), input, |input|));
    }
  }

  /** Readings that are the same but for path and markers miss the same package ends. */
  lemma MissingSame(g: Grammar, s: set<Config>, r: set<Config>, b: nat, c: nat)
    requires NotLeftRecursive(g) && LengthsFirst(g) && AllMarked(s) && AllMarked(r) && Covers(s, r)
    requires EndMissing(g, r, b, c)
    ensures EndMissing(g, s, b, c)
  {
    MissingBare(g, s, b, c);
    MissingBare(g, r, b, c);
    var z :| From(Plain(g), BareSet(r), z, b, c) && Underflow(z);
    var v, n: nat :| v in BareSet(r) && Derives(Plain(g), v, z, b, c, n);
    var y :| y in r && Bare(y) == v;
    assert HasBare(s, y);
    var x :| x in s && SameBare(x, y);
    var z' := DerivesSame(Plain(g), Bare(x), v, z, b, c, n);
    assert Bare(x) in BareSet(s) && From(Plain(g), BareSet(s), z', b, c);
  }

  lemma NoErrorNext(g: Grammar, input: seq<nat>, k: nat)
    requires NotLeftRecursive(g) && LengthsFirst(g) && LengthsDetermined(g, input)
    requires k < |input| && KeptBy(g, input, k).Some?
    requires Rounds(g, KeptBy(g, input, k).value, [], input[k], k).Some?
    ensures !MissesEnd(g, input, k)
  {
    var kept := ElemSet(KeptBy(g, input, k).value);
    AllCovered(g, input, k);
    KeptIsReachable(g, input, k);
    ReachBare(g, input, k);
    MissesExactly(g, input, k);
    PositionKeeps(g, KeptBy(g, input, k).value, input[k], k);
    if EndMissing(g, Reach(g, input, k), input[k], k) {
      MissingSame(g, kept, Reach(g, input, k), input[k], k);
    }
  }

  lemma SomeBefore(g: Grammar, input: seq<nat>, k: nat)
    requires NotLeftRecursive(g) && k < |input| && KeptBy(g, input, |input|).Some?
    ensures KeptBy(g, input, k).Some? && Rounds(g, KeptBy(g, input, k).value, [], input[k], k).Some?
  {
    KeptEnds(g, input, k, |input|);
    KeptEnds(g, input, k + 1, |input|);
  }

  /** After a nonterminal no length is used before its first byte is read: a length is read and used within one
      alternative. */
  predicate LengthsWithin(buf: seq<Sym>) {
    buf == [] || ((buf[0].NonTerm? ==> !Live(buf[1..])) && LengthsWithin(buf[1..]))
  }

  ghost predicate LengthsTogether(g: Grammar) {
    LengthsFirst(g) && forall n, b, k :: 0 <= k < |g.expand(n, b)| ==> LengthsWithin(g.expand(n, b)[k])
  }

  lemma {:induction false} WithinAppend(a: seq<Sym>, rest: seq<Sym>)
    requires LengthsWithin(a) && LengthsWithin(rest) && !Live(rest)
    ensures LengthsWithin(a + rest)
  {
    if a == [] {
      assert a + rest == rest;
    } else {
      assert (a + rest)[1..] == a[1..] + rest;
      WithinAppend(a[1..], rest);
      if a[0].NonTerm? {
        LiveAppend(a[1..], rest);
      }
    }
  }

  lemma EnterWithin(g: Grammar, rest: Config, n: nat)
    requires LengthsWithin(rest.buf) && !Live(rest.buf)
    ensures LengthsWithin(Enter(g, rest, n).buf) && !Live(Enter(g, rest, n).buf)
  {
    assert ([Ok] + rest.buf)[1..] == rest.buf;
  }

  lemma ChildrenWithin(g: Grammar, x: Config, z: Config, b: nat, c: nat)
    requires LengthsTogether(g) && LengthsWithin(x.buf) && z in Children(g, x, b, c)
    ensures LengthsWithin(z.buf) && (x.buf[0].NonTerm? ==> !Live(z.buf))
  {
    if x.buf[0].NonTerm? {
      var n, rest := x.buf[0].id, x.(buf := x.buf[1..]);
      var k :| 0 <= k < |g.expand(n, b)| && z == Children(g, x, b, c)[k];
      EnterWithin(g, rest, n);
      WithinAppend(g.expand(n, b)[k], Enter(g, rest, n).buf);
      LiveAppend(g.expand(n, b)[k], Enter(g, rest, n).buf);
    }
  }

  lemma {:induction false} DerivesWithin(g: Grammar, x: Config, y: Config, b: nat, c: nat, n: nat)
    requires LengthsTogether(g) && LengthsWithin(x.buf) && Derives(g, x, y, b, c, n)
    ensures LengthsWithin(y.buf)
    decreases n
  {
    if n > 0 {
      var m := n - 1;
      var z :| z in Children(g, x, b, c) && Derives(g, z, y, b, c, m);
      ChildrenWithin(g, x, z, b, c);
      DerivesWithin(g, z, y, b, c, m);
    }
  }

  lemma AfterByteWithin(g: Grammar, x: Config, y: Config, b: nat, c: nat)
    requires LengthsWithin(x.buf) && y in AfterByte(g, x, b, c)
    ensures LengthsWithin(y.buf)
  {
    assert y.buf == x.buf[1..];
  }

  lemma OutsWithin(g: Grammar, x: Config, y: Config, b: nat, c: nat)
    requires NotLeftRecursive(g) && LengthsTogether(g) && LengthsWithin(x.buf) && y in Outs(g, x, b, c)
    ensures LengthsWithin(y.buf)
  {
    OutsAreReads(g, x, y, b, c);
    var z, n: nat :| Derives(g, x, z, b, c, n) && y in AfterByte(g, z, b, c);
    DerivesWithin(g, x, z, b, c, n);
    AfterByteWithin(g, z, y, b, c);
  }

  lemma ReachedFrom(g: Grammar, input: seq<nat>, j: nat, y: Config) returns (x: Config)
    requires NotLeftRecursive(g) && j < |input| && y in Reach(g, input, j + 1)
    ensures x in Reach(g, input, j) && y in Outs(g, x, input[j], j)
  {
    x :| x in Reach(g, input, j) && y in Outs(g, x, input[j], j);
  }

  lemma {:induction false} ReachWithin(g: Grammar, input: seq<nat>, k: nat, y: Config)
    requires NotLeftRecursive(g) && LengthsTogether(g) && k <= |input| && y in Reach(g, input, k)
    ensures LengthsWithin(y.buf)
    decreases k
  {
    if k > 0 {
      var j := k - 1;
      var x := ReachedFrom(g, input, j, y);
      ReachWithin(g, input, j, x);
      OutsWithin(g, x, y, input[j], j);
    }
  }

  /** addbufsub does not copy the package length to the new configuration: nothing uses it there, so that it does not
      matter what it is. */
  lemma UnsetLengthUnused(g: Grammar, input: seq<nat>, k: nat, x: Config, z: Config, lenAt: nat, len: nat)
    requires NotLeftRecursive(g) && LengthsTogether(g) && k < |input| && From(g, Reach(g, input, k), x, input[k], k)
    requires x.buf != [] && x.buf[0].NonTerm? && z in Children(g, x, input[k], k)
    ensures SameReading(z, z.(lenAt := lenAt, len := len))
  {
    var y, n: nat :| y in Reach(g, input, k) && Derives(g, y, x, input[k], k, n);
    ReachWithin(g, input, k, y);
    DerivesWithin(g, y, x, input[k], k, n);
    ChildrenWithin(g, x, z, input[k], k);
  }
}
