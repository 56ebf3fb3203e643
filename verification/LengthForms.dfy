/** A condition on the grammar alone under which parsemain of core/acpi_dsdt.c gives the exact answer for every input:
    a package length is pushed at once after it is read, and what is left of an alternative tells how it was read. */
module LengthForms {
  import opened Grammar
  import opened Markers
  import opened ParseRounds
  import opened Readings

  predicate IsLen(s: Sym) {
    s in {Len0, Len1, Len2, Len3}
  }

  predicate IsUse(s: Sym) {
    s in {Len1, Len2, Len3, PushEnd}
  }

  /** The length is continued or pushed right after every byte of it, and nowhere else. */
  predicate AtOnce(a: seq<Sym>) {
    forall i :: 0 <= i < |a| ==> LengthAt(a, i)
  }

  predicate LengthAt(a: seq<Sym>, i: nat)
    requires i < |a|
  {
    && (IsLen(a[i]) ==> i + 1 < |a| && IsUse(a[i + 1]))
    && (IsUse(a[i]) ==> i > 0 && IsLen(a[i - 1]))
  }

  /** The bytes of the length that have been read before element i. */
  function Run(a: seq<Sym>, i: nat): seq<Sym>
    requires i <= |a|
  {
    if i == 0 || !IsLen(a[i - 1]) then []
    else if a[i - 1] == Len0 then [Len0]
    else Run(a, i - 1) + [a[i - 1]]
  }

  ghost predicate IsAlternative(g: Grammar, a: seq<Sym>) {
    exists n, b, k :: 0 <= k < |g.expand(n, b)| && g.expand(n, b)[k] == a
  }

  ghost predicate Uses(g: Grammar, a: seq<Sym>, i: nat) {
    IsAlternative(g, a) && i < |a| && IsUse(a[i])
  }

  predicate Comparable(s: seq<Sym>, t: seq<Sym>) {
    s <= t || t <= s
  }

  /** Lengths are pushed at once, ... */
  ghost predicate AllAtOnce(g: Grammar) {
    forall a :: IsAlternative(g, a) ==> AtOnce(a)
  }

  /** ... and no two alternatives that go on alike have read the length differently. */
  ghost predicate OneForm(g: Grammar) {
    && AllAtOnce(g)
    && (forall a, i: nat, a', i': nat ::
          Uses(g, a, i) && Uses(g, a', i') && Comparable(a[i..], a'[i'..]) ==> Run(a, i) == Run(a', i'))
  }

  /** Lengths are used right after the byte before, ... */
  predicate Tidy(buf: seq<Sym>) {
    buf == [] || ((buf[1..] != [] && IsUse(buf[1]) ==> IsLen(buf[0])) && Tidy(buf[1..]))
  }

  /** ... and their elements are part of an alternative. */
  ghost predicate Sourced(g: Grammar, buf: seq<Sym>) {
    buf == [] || ((IsLen(buf[0]) ==> HasSource(g, buf)) && Sourced(g, buf[1..]))
  }

  ghost predicate HasSource(g: Grammar, buf: seq<Sym>) {
    exists a, i: nat :: SourceIs(g, buf, a, i)
  }

  ghost predicate SourceIs(g: Grammar, buf: seq<Sym>, a: seq<Sym>, i: nat) {
    IsAlternative(g, a) && i < |a| && a[i..] <= buf
  }

  /** The length and where it started, after the bytes of run that end at k. */
  function Value(run: seq<Sym>, input: seq<nat>, k: nat): (nat, nat)
    requires 0 < |run| <= k <= |input|
    decreases |run|
  {
    if |run| == 1 then (k - 1, input[k - 1])
    else
      var l := Value(run[..|run| - 1], input, k - 1);
      (l.0, LengthByte(run[|run| - 1], l.1, input[k - 1]))
  }

  function LengthByte(s: Sym, len: nat, b: nat): nat {
    match s
    case Len1 => len % 16 + b * 0x10
    case Len2 => len + b * 0x1000
    case _ => len + b * 0x10_0000
  }

  lemma {:induction false} LiveTop(buf: seq<Sym>)
    requires Tidy(buf) && Live(buf)
    ensures buf != [] && IsUse(buf[0])
  {
    if !IsUse(buf[0]) {
      LiveTop(buf[1..]);
    }
  }

  lemma {:induction false} TidyAppend(a: seq<Sym>, i: nat, below: seq<Sym>)
    requires AtOnce(a) && i <= |a| && Tidy(below) && (below == [] || !IsUse(below[0]))
    ensures Tidy(a[i..] + below)
    decreases |a| - i
  {
    if i == |a| {
      assert a[i..] + below == below;
    } else {
      TidyAppend(a, i + 1, below);
      assert (a[i..] + below)[1..] == a[i + 1..] + below;
      assert i + 1 < |a| ==> LengthAt(a, i + 1);
    }
  }

  lemma {:induction false} SourcedAppend(g: Grammar, a: seq<Sym>, i: nat, below: seq<Sym>)
    requires IsAlternative(g, a) && i <= |a| && Sourced(g, below)
    ensures Sourced(g, a[i..] + below)
    decreases |a| - i
  {
    if i == |a| {
      assert a[i..] + below == below;
    } else {
      SourcedAppend(g, a, i + 1, below);
      assert (a[i..] + below)[1..] == a[i + 1..] + below;
      assert SourceIs(g, a[i..] + below, a, i);
    }
  }

  /** The length of x, if it will be used, is what some alternative has read of the input up to k. */
  ghost predicate FromInput(g: Grammar, input: seq<nat>, x: Config, k: nat)
    requires k <= |input|
  {
    exists a, i: nat :: LengthIs(g, input, x, k, a, i)
  }

  ghost predicate LengthIs(g: Grammar, input: seq<nat>, x: Config, k: nat, a: seq<Sym>, i: nat)
    requires k <= |input|
  {
    && Uses(g, a, i) && a[i..] <= x.buf && 0 < |Run(a, i)| <= k
    && (x.lenAt, x.len) == Value(Run(a, i), input, k)
  }

  ghost predicate LengthsRead(g: Grammar, input: seq<nat>, x: Config, k: nat)
    requires k <= |input|
  {
    Tidy(x.buf) && Sourced(g, x.buf) && (Live(x.buf) ==> FromInput(g, input, x, k))
  }

  /** A silent step leaves no length to be used. */
  lemma ChildRead(g: Grammar, x: Config, z: Config, b: nat, c: nat)
    requires AllAtOnce(g) && Tidy(x.buf) && Sourced(g, x.buf) && z in Children(g, x, b, c)
    ensures Tidy(z.buf) && Sourced(g, z.buf) && !Live(z.buf)
  {
    var rest := x.(buf := x.buf[1..]);
    assert rest.buf != [] ==> rest.buf[0] == x.buf[1];
    if x.buf[0].NonTerm? {
      var n := x.buf[0].id;
      var below := Enter(g, rest, n);
      assert ([Ok] + rest.buf)[1..] == rest.buf;
      var k :| 0 <= k < |g.expand(n, b)| && z == Children(g, x, b, c)[k];
      ExpandRead(g, g.expand(n, b)[k], below.buf);
    } else {
      assert z.buf == rest.buf;
    }
    if Live(z.buf) {
      LiveTop(z.buf);
    }
  }

  lemma ExpandRead(g: Grammar, a: seq<Sym>, below: seq<Sym>)
    requires AllAtOnce(g) && IsAlternative(g, a) && Tidy(below) && Sourced(g, below)
    requires below == [] || !IsUse(below[0])
    ensures Tidy(a + below) && Sourced(g, a + below) && (a + below == [] || !IsUse((a + below)[0]))
  {
    assert a[0..] == a;
    TidyAppend(a, 0, below);
    SourcedAppend(g, a, 0, below);
    if a == [] {
      assert a + below == below;
    } else {
      assert LengthAt(a, 0);
    }
  }

  lemma {:induction false} DerivesRead(g: Grammar, input: seq<nat>, x: Config, z: Config, k: nat, n: nat)
    requires AllAtOnce(g) && k < |input| && LengthsRead(g, input, x, k) && Derives(g, x, z, input[k], k, n)
    ensures LengthsRead(g, input, z, k)
    decreases n
  {
    if n > 0 {
      var m := n - 1;
      var y := FirstStep(g, x, z, input[k], k, n, m);
      ChildRead(g, x, y, input[k], k);
      DerivesRead(g, input, y, z, k, m);
    }
  }

  /** The first byte of a length, ... */
  lemma FirstRead(g: Grammar, input: seq<nat>, x: Config, y: Config, k: nat)
    requires AllAtOnce(g) && k < |input| && LengthsRead(g, input, x, k) && x.buf != [] && x.buf[0] == Len0
    requires y in AfterByte(g, x, input[k], k)
    ensures FromInput(g, input, y, k + 1)
  {
    var a, i: nat :| SourceIs(g, x.buf, a, i);
    assert a[i..][0] == x.buf[0] && LengthAt(a, i);
    assert a[i + 1..] == a[i..][1..] <= x.buf[1..];
    assert LengthIs(g, input, y, k + 1, a, i + 1);
  }

  lemma RunMore(a: seq<Sym>, i: nat, j: nat)
    requires i < |a| && j == i + 1 && a[i] in {Len1, Len2, Len3}
    ensures Run(a, j) == Run(a, i) + [a[i]]
  {
  }

  lemma ValueMore(run: seq<Sym>, s: Sym, input: seq<nat>, k: nat, l: nat)
    requires 0 < |run| <= k < |input| && l == k + 1
    ensures Value(run + [s], input, l) == (Value(run, input, k).0, LengthByte(s, Value(run, input, k).1, input[k]))
  {
    assert (run + [s])[..|run|] == run;
  }

  /** ... and any other. */
  lemma MoreRead(g: Grammar, input: seq<nat>, x: Config, y: Config, k: nat)
    requires AllAtOnce(g) && k < |input| && LengthsRead(g, input, x, k) && x.buf != [] && x.buf[0] in {Len1, Len2, Len3}
    requires y in AfterByte(g, x, input[k], k)
    ensures FromInput(g, input, y, k + 1)
  {
    var a, i: nat :| LengthIs(g, input, x, k, a, i);
    MoreOf(g, input, x, y, k, k + 1, a, i, i + 1);
    assert LengthIs(g, input, y, k + 1, a, i + 1);
  }

  lemma MoreOf(g: Grammar, input: seq<nat>, x: Config, y: Config, k: nat, l: nat, a: seq<Sym>, i: nat, j: nat)
    requires IsAlternative(g, a) && AtOnce(a) && k < |input| && LengthIs(g, input, x, k, a, i)
    requires x.buf[0] in {Len1, Len2, Len3} && y in AfterByte(g, x, input[k], k) && l == k + 1 && j == i + 1
    ensures LengthIs(g, input, y, l, a, j)
  {
    assert a[i..][0] == x.buf[0] && LengthAt(a, i);
    assert a[j..] == a[i..][1..] <= x.buf[1..];
    RunMore(a, i, j);
    ValueMore(Run(a, i), a[i], input, k, l);
  }

  lemma ByteRead(g: Grammar, input: seq<nat>, x: Config, y: Config, k: nat)
    requires AllAtOnce(g) && k < |input| && LengthsRead(g, input, x, k) && y in AfterByte(g, x, input[k], k)
    ensures LengthsRead(g, input, y, k + 1)
  {
    assert y.buf == x.buf[1..];
    if Live(y.buf) {
      LiveTop(y.buf);
      assert IsLen(x.buf[0]);
      if x.buf[0] == Len0 {
        FirstRead(g, input, x, y, k);
      } else {
        MoreRead(g, input, x, y, k);
      }
    }
  }

  lemma {:induction false} ReachRead(g: Grammar, input: seq<nat>, k: nat, y: Config)
    requires NotLeftRecursive(g) && AllAtOnce(g) && k <= |input| && y in Reach(g, input, k)
    ensures LengthsRead(g, input, y, k)
    decreases k
  {
    if k == 0 {
      assert START.buf[1..] == [];
    } else {
      var j := k - 1;
      var x := ReachedFrom(g, input, j, y);
      ReachRead(g, input, j, x);
      OutsAreReads(g, x, y, input[j], j);
      var z, n: nat :| Derives(g, x, z, input[j], j, n) && y in AfterByte(g, z, input[j], j);
      DerivesRead(g, input, x, z, j, n);
      ByteRead(g, input, z, y, j);
    }
  }

  /** Under the condition the stacks determine the length in use, whatever the input. */
  lemma FormsDetermine(g: Grammar, input: seq<nat>)
    requires NotLeftRecursive(g) && OneForm(g)
    ensures LengthsFirst(g) && LengthsDetermined(g, input)
  {
    forall n, b, k | 0 <= k < |g.expand(n, b)| ensures !Live(g.expand(n, b)[k]) {
      NotLiveFirst(g, g.expand(n, b)[k]);
    }
    forall k | 0 <= k <= |input| ensures LengthsIn(Reach(g, input, k)) {
      forall x, y | x in Reach(g, input, k) && y in Reach(g, input, k) && SameLists(x, y) ensures SameLength(x, y) {
        ReachRead(g, input, k, x);
        ReachRead(g, input, k, y);
        if Live(x.buf) {
          SameForm(g, input, x, y, k);
        }
      }
    }
  }

  lemma NotLiveFirst(g: Grammar, a: seq<Sym>)
    requires AllAtOnce(g) && IsAlternative(g, a)
    ensures !Live(a)
  {
    ExpandRead(g, a, []);
    assert a + [] == a;
    if Live(a) {
      LiveTop(a);
    }
  }

  lemma SameForm(g: Grammar, input: seq<nat>, x: Config, y: Config, k: nat)
    requires OneForm(g) && k <= |input| && x.buf == y.buf && FromInput(g, input, x, k) && FromInput(g, input, y, k)
    ensures x.lenAt == y.lenAt && x.len == y.len
  {
    var a, i: nat :| LengthIs(g, input, x, k, a, i);
    var a', i': nat :| LengthIs(g, input, y, k, a', i');
    assert Comparable(a[i..], a'[i'..]);
  }

  /** So that for such a grammar the answer of parsemain is exact for every input. */
  lemma FormVerdict(g: Grammar, input: seq<nat>)
    requires NotLeftRecursive(g) && OneForm(g)
    ensures Answer(g, input).LimitUnderflow? <==> exists k :: 0 <= k < |input| && MissesEnd(g, input, k)
    ensures !Answer(g, input).LimitUnderflow? ==>
      (Answer(g, input).Accepted? <==> Reach(Plain(g), input, |input|) != {})
  {
    FormsDetermine(g, input);
    Verdict(g, input);
  }
}
