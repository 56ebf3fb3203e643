/** A grammar and an input on which parsemain of core/acpi_dsdt.c gives the wrong answer, because eqlist does not
    compare the package length that is being read. */
module LostReading {
  import opened Wrappers
  import opened Grammar
  import opened LengthForms
  import opened Markers
  import opened ParseRounds
  import opened Readings

  /** Element 1 is a package length of one or two bytes, by the top bits of its first byte. Element 0 is a package,
      or any byte but 7 and then a package. A package has one byte and then either another byte or its end and a 7. */
  function Expand(n: nat, b: nat): seq<seq<Sym>> {
    if n == 0 then [[NonTerm(1), Byte(0), NonTerm(2)], [Byte(0), NonTerm(1), Byte(0), NonTerm(2)]]
    else if n == 1 && b < 0x40 then [[Len0, PushEnd]]
    else if n == 1 && b < 0x80 then [[Len0, Len1, PushEnd]]
    else if n == 2 then [[Byte(0)], [PkgEnd, Byte(1)]]
    else []
  }

  function Packages(): Grammar {
    Grammar((n: nat, b: nat) => Expand(n, b), (k, b) => if k == 0 then b != 7 else b == 7,
            n => if n == 0 then 1 else 0, n => false, 4, true)
  }

  const INPUT: seq<nat> := [0x41, 0x02, 0x00, 0x07]

  lemma AlternativesOk(n: nat, b: nat, k: nat)
    requires k < |Expand(n, b)|
    ensures AlternativeOk(Packages(), n, Expand(n, b)[k]) && !Live(Expand(n, b)[k])
    ensures LengthsWithin(Expand(n, b)[k])
  {
    var g, a := Packages(), Expand(n, b)[k];
    if a[0] == PkgEnd {
      assert a == [PkgEnd, Byte(1)];
      assert !Nullable(g, a[1]);
      assert forall i :: 0 <= i < |a| ==> Rank(g, a[i]) == 0;
    } else {
      assert !Nullable(g, a[0]);
      assert forall i :: 0 < i <= |a| ==> a[..i][0] == a[0];
      assert a[..|a|] == a;
    }
  }

  lemma PackagesOk()
    ensures NotLeftRecursive(Packages()) && LengthsTogether(Packages())
  {
    var g := Packages();
    forall n, b, k | 0 <= k < |g.expand(n, b)|
      ensures AlternativeOk(g, n, g.expand(n, b)[k]) && !Live(g.expand(n, b)[k]) && LengthsWithin(g.expand(n, b)[k])
    {
      AlternativesOk(n, b, k);
    }
  }

  /** One round on a configuration with a nonterminal of one alternative, of two, ... */
  lemma OneAlternative(g: Grammar, x: Config, y: Config, head: seq<Config>, ok: seq<Config>, b: nat, c: nat)
    requires NotLeftRecursive(g) && x.buf != [] && x.buf[0].NonTerm? && Children(g, x, b, c) == [y]
    ensures Rounds(g, [x] + head, ok, b, c) == Rounds(g, [y] + head, ok, b, c)
  {
    RoundExpands(g, x, head, ok, b, c);
    assert [y][1..] == [] && Reverse([y]) == [y];
  }

  lemma TwoAlternatives(g: Grammar, x: Config, y: Config, z: Config, head: seq<Config>, ok: seq<Config>, b: nat, c: nat)
    requires NotLeftRecursive(g) && x.buf != [] && x.buf[0].NonTerm? && Children(g, x, b, c) == [y, z]
    ensures Rounds(g, [x] + head, ok, b, c) == Rounds(g, [z] + ([y] + head), ok, b, c)
  {
    RoundExpands(g, x, head, ok, b, c);
    LastFirst(y, z, head);
  }

  lemma LastFirst(y: Config, z: Config, head: seq<Config>)
    ensures Reverse([y, z]) + head == [z] + ([y] + head)
  {
    assert [y, z][1..] == [z] && [z][1..] == [] && Reverse([z]) == [z] && Reverse([y, z]) == [z, y];
  }

  /** ... and on one that reads the byte. */
  lemma ReadsByte(g: Grammar, x: Config, y: Config, head: seq<Config>, ok: seq<Config>, b: nat, c: nat)
    requires NotLeftRecursive(g) && x.buf != [] && !IsSilent(x.buf[0]) && AfterByte(g, x, b, c) == [y]
    ensures Rounds(g, [x] + head, ok, b, c) == Rounds(g, head, if HasLists(ok, y) then ok else [y] + ok, b, c)
  {
    RoundReads(g, x, head, ok, b, c);
  }

  const TAIL: seq<Sym> := [Byte(0), NonTerm(2), Ok]
  /** The first reading takes both bytes 0x41 0x02 as the length 0x21, the second takes the byte 2 as the length. */
  const X1 := Config([Len1, PushEnd, Ok] + TAIL, [], [1, 0], 0, 0x41)
  const Y1 := Config([NonTerm(1)] + TAIL, [], [0], 0, 0)
  const X2 := Config([PushEnd, Ok] + TAIL, [], [1, 0], 0, 0x21)
  const Y2 := Config([PushEnd, Ok] + TAIL, [], [1, 0], 1, 2)
  const X3 := Config([NonTerm(2), Ok], [0x21], [0], 0, 0x21)
  const Y3 := Config([NonTerm(2), Ok], [3], [0], 1, 2)
  const Y4 := Config([Ok, Ok], [], [2, 0], 1, 2)

  /** The alternatives of the two readings before the first byte, and before the second. */
  const P := Config([NonTerm(1)] + TAIL, [], [0], 0, 0)
  const Q := Config([Byte(0), NonTerm(1)] + TAIL, [], [0], 0, 0)
  const P1 := Config([Len0, Len1, PushEnd, Ok] + TAIL, [], [1, 0], 0, 0)
  const Q1 := Config([Len0, PushEnd, Ok] + TAIL, [], [1, 0], 0, 0)

  lemma Facts0()
    ensures Children(Packages(), START, 0x41, 0) == [P, Q]
    ensures Children(Packages(), P, 0x41, 0) == [P1]
    ensures AfterByte(Packages(), P1, 0x41, 0) == [X1] && AfterByte(Packages(), Q, 0x41, 0) == [Y1]
  {
    var e := Expand(0, 0x41);
    assert START.buf[1..] == [] && [Ok] + [] == [Ok] && [0] + [] == [0];
    assert e[0] + [Ok] == P.buf && e[1] + [Ok] == Q.buf;
    assert P.buf[1..] == TAIL && P1.buf == [Len0, Len1, PushEnd] + ([Ok] + TAIL) && [1] + [0] == [1, 0];
    assert P1.buf[1..] == X1.buf && Q.buf[1..] == Y1.buf;
  }

  lemma Position0()
    requires NotLeftRecursive(Packages())
    ensures Rounds(Packages(), [START], [], 0x41, 0) == Some([X1, Y1])
  {
    var g := Packages();
    Facts0();
    assert [START] + [] == [START] && [P] + [] == [P] && [P1] + [] == [P1];
    TwoAlternatives(g, START, P, Q, [], [], 0x41, 0);
    ReadsByte(g, Q, Y1, [P], [], 0x41, 0);
    assert [Y1] + [] == [Y1];
    OneAlternative(g, P, P1, [], [Y1], 0x41, 0);
    ReadsByte(g, P1, X1, [], [Y1], 0x41, 0);
    assert X1.buf[0] != Y1.buf[0] && !HasLists([Y1], X1);
    assert [X1] + [Y1] == [X1, Y1];
  }

  lemma Facts1()
    ensures AfterByte(Packages(), X1, 2, 1) == [X2]
    ensures Children(Packages(), Y1, 2, 1) == [Q1] && AfterByte(Packages(), Q1, 2, 1) == [Y2]
  {
    assert X1.buf[1..] == X2.buf && Y1.buf[1..] == TAIL && Q1.buf[1..] == Y2.buf;
    assert Q1.buf == [Len0, PushEnd] + ([Ok] + TAIL) && [1] + [0] == [1, 0];
  }

  /** The second reading is dropped. */
  lemma Position1()
    requires NotLeftRecursive(Packages())
    ensures Rounds(Packages(), [X1, Y1], [], 2, 1) == Some([X2])
  {
    var g := Packages();
    Facts1();
    assert [X1, Y1] == [X1] + [Y1] && [Y1] == [Y1] + [] && [X2] + [] == [X2];
    ReadsByte(g, X1, X2, [Y1], [], 2, 1);
    OneAlternative(g, Y1, Q1, [], [X2], 2, 1);
    ReadsByte(g, Q1, Y2, [], [X2], 2, 1);
    assert HasLists([X2], Y2) by {
      assert SameLists([X2][0], Y2);
    }
  }

  /** x and y after PushEnd, and after the marker. */
  const X2PUSHED := Config([Ok] + TAIL, [0x21], [1, 0], 0, 0x21)
  const Y2PUSHED := Config([Ok] + TAIL, [3], [1, 0], 1, 2)
  const X2DONE := Config(TAIL, [0x21], [0], 0, 0x21)
  const Y2DONE := Config(TAIL, [3], [0], 1, 2)

  lemma Facts2()
    ensures Children(Packages(), X2, 0, 2) == [X2PUSHED] && Children(Packages(), X2PUSHED, 0, 2) == [X2DONE]
    ensures Children(Packages(), Y2, 0, 2) == [Y2PUSHED] && Children(Packages(), Y2PUSHED, 0, 2) == [Y2DONE]
    ensures AfterByte(Packages(), X2DONE, 0, 2) == [X3] && AfterByte(Packages(), Y2DONE, 0, 2) == [Y3]
  {
    assert X2.buf[1..] == X2PUSHED.buf && X2PUSHED.buf[1..] == TAIL && TAIL[1..] == [NonTerm(2), Ok];
    assert [0x21] + [] == [0x21] && [3] + [] == [3] && [1, 0][1..] == [0];
  }

  lemma Position2()
    requires NotLeftRecursive(Packages())
    ensures Rounds(Packages(), [X2], [], 0, 2) == Some([X3])
  {
    var g := Packages();
    Facts2();
    assert [X2] == [X2] + [] && [X3] == [X3] + [];
    RoundSettles(g, X2, X2PUSHED, [], [], 0, 2);
    RoundSettles(g, X2PUSHED, X2DONE, [], [], 0, 2);
    ReadsByte(g, X2DONE, X3, [], [], 0, 2);
  }

  const X3MORE := Config([Byte(0), Ok, Ok], [0x21], [2, 0], 0, 0x21)
  const X3END := Config([PkgEnd, Byte(1), Ok, Ok], [0x21], [2, 0], 0, 0x21)
  const Y3MORE := Config([Byte(0), Ok, Ok], [3], [2, 0], 1, 2)
  const Y3END := Config([PkgEnd, Byte(1), Ok, Ok], [3], [2, 0], 1, 2)
  const Y3ENDED := Config([Byte(1), Ok, Ok], [], [2, 0], 1, 2)

  lemma Facts3()
    ensures Children(Packages(), X3, 7, 3) == [X3MORE, X3END]
    ensures Children(Packages(), X3END, 7, 3) == [] && AfterByte(Packages(), X3MORE, 7, 3) == []
    ensures Children(Packages(), Y3, 7, 3) == [Y3MORE, Y3END]
    ensures Children(Packages(), Y3END, 7, 3) == [Y3ENDED] && AfterByte(Packages(), Y3ENDED, 7, 3) == [Y4]
  {
    var e := Expand(2, 7);
    assert X3.buf[1..] == [Ok] && [Ok] + [Ok] == [Ok, Ok] && [2] + [0] == [2, 0];
    assert e[0] + [Ok, Ok] == X3MORE.buf && e[1] + [Ok, Ok] == X3END.buf;
    assert X3END.buf[1..] == Y3ENDED.buf && Y3ENDED.buf[1..] == [Ok, Ok] && [3][1..] == [];
  }

  lemma Position3()
    requires NotLeftRecursive(Packages())
    ensures Rounds(Packages(), [X3], [], 7, 3) == Some([])
  {
    var g := Packages();
    Facts3();
    assert [X3] == [X3] + [] && [X3MORE] == [X3MORE] + [];
    TwoAlternatives(g, X3, X3MORE, X3END, [], [], 7, 3);
    RoundDies(g, X3END, [X3MORE], [], 7, 3);
    RoundReads(g, X3MORE, [], [], 7, 3);
  }

  lemma Next(g: Grammar, input: seq<nat>, k: nat, head: seq<Config>, t: seq<Config>)
    requires NotLeftRecursive(g) && k < |input| && KeptBy(g, input, k) == Some(head)
    requires Rounds(g, head, [], input[k], k) == Some(t)
    ensures KeptBy(g, input, k + 1) == Some(t)
  {
  }

  lemma Kept()
    requires NotLeftRecursive(Packages())
    ensures KeptBy(Packages(), INPUT, 3) == Some([X3]) && KeptBy(Packages(), INPUT, 4) == Some([])
  {
    Position0();
    Next(Packages(), INPUT, 0, [START], [X1, Y1]);
    Position1();
    Next(Packages(), INPUT, 1, [X1, Y1], [X2]);
    Position2();
    Next(Packages(), INPUT, 2, [X2], [X3]);
    Position3();
    Next(Packages(), INPUT, 3, [X3], []);
  }

  lemma Via(g: Grammar, x: Config, z: Config, y: Config, b: nat, c: nat)
    requires NotLeftRecursive(g) && z in Children(g, x, b, c) && y in Outs(g, z, b, c)
    ensures y in Outs(g, x, b, c)
  {
    ChildOuts(g, x, z, y, b, c);
  }

  lemma Now(g: Grammar, x: Config, y: Config, b: nat, c: nat)
    requires NotLeftRecursive(g) && AfterByte(g, x, b, c) == [y]
    ensures y in Outs(g, x, b, c)
  {
    OwnOuts(g, x, y, b, c);
  }

  lemma SecondReading()
    requires NotLeftRecursive(Packages())
    ensures Y1 in Outs(Packages(), START, 0x41, 0) && Y2 in Outs(Packages(), Y1, 2, 1)
    ensures Y3 in Outs(Packages(), Y2, 0, 2) && Y4 in Outs(Packages(), Y3, 7, 3)
  {
    var g := Packages();
    Facts0();
    Now(g, Q, Y1, 0x41, 0);
    Via(g, START, Q, Y1, 0x41, 0);
    Facts1();
    Now(g, Q1, Y2, 2, 1);
    Via(g, Y1, Q1, Y2, 2, 1);
    Facts2();
    Now(g, Y2DONE, Y3, 0, 2);
    Via(g, Y2PUSHED, Y2DONE, Y3, 0, 2);
    Via(g, Y2, Y2PUSHED, Y3, 0, 2);
    Facts3();
    Now(g, Y3ENDED, Y4, 7, 3);
    Via(g, Y3END, Y3ENDED, Y4, 7, 3);
    Via(g, Y3, Y3END, Y4, 7, 3);
  }

  lemma Reached(g: Grammar, input: seq<nat>, k: nat, x: Config, y: Config)
    requires NotLeftRecursive(g) && k < |input| && x in Reach(g, input, k) && y in Outs(g, x, input[k], k)
    ensures y in Reach(g, input, k + 1)
  {
  }

  lemma Reached4(g: Grammar, input: seq<nat>, y1: Config, y2: Config, y3: Config, y4: Config)
    requires NotLeftRecursive(g) && |input| == 4
    requires y1 in Outs(g, START, input[0], 0) && y2 in Outs(g, y1, input[1], 1)
    requires y3 in Outs(g, y2, input[2], 2) && y4 in Outs(g, y3, input[3], 3)
    ensures y3 in Reach(g, input, 3) && y4 in Reach(g, input, 4)
  {
    Reached(g, input, 0, START, y1);
    Reached(g, input, 1, y1, y2);
    Reached(g, input, 2, y2, y3);
    Reached(g, input, 3, y3, y4);
  }

  /** After two bytes the readings have the same stacks and different lengths in use, and one of them is dropped. After
      the third byte its stacks, which end the package at 3, are lost, and after the fourth the input is refused
      although it is a viable prefix. */
  lemma LostVerdict()
    ensures NotLeftRecursive(Packages()) && LengthsTogether(Packages()) && !LengthsDetermined(Packages(), INPUT)
    ensures !OneForm(Packages())
    ensures KeptBy(Packages(), INPUT, 3) == Some([X3]) && Y3 in Reach(Packages(), INPUT, 3) && !SameLists(X3, Y3)
    ensures Answer(Packages(), INPUT) == NoParse && Reach(Plain(Packages()), INPUT, |INPUT|) != {}
  {
    PackagesOk();
    Kept();
    SecondReading();
    Reached4(Packages(), INPUT, Y1, Y2, Y3, Y4);
    ReachBare(Packages(), INPUT, |INPUT|);
    assert Bare(Y4) in BareSet(Reach(Packages(), INPUT, |INPUT|));
    if LengthsDetermined(Packages(), INPUT) {
      Verdict(Packages(), INPUT);
    }
    if OneForm(Packages()) {
      FormVerdict(Packages(), INPUT);
    }
  }
}
