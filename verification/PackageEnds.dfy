/** Small grammars that show where packages end in the parser of core/acpi_dsdt.c. */
module PackageEnds {
  import opened Grammar
  import opened LengthForms
  import opened Markers
  import opened ParseRounds
  import opened Readings
  import opened Derivations

  /** A package of two bytes 5. */
  const TWO: seq<Sym> := [Len0, PushEnd, Byte(0), Byte(0), PkgIgnore]

  /** A package of a package and one byte. */
  const INNER: seq<Sym> := [Len0, PushEnd, Len0, PushEnd, Byte(0)]

  /** The grammar whose start symbol has one alternative. */
  function Only(a: seq<Sym>): Grammar {
    Grammar((n: nat, b: nat) => if n == 0 then [a] else [], (k, b) => b == 5, n => 0, n => false, 5, true)
  }

  lemma OnlyOk(a: seq<Sym>)
    requires a in {TWO, INNER}
    ensures NotLeftRecursive(Only(a)) && forall x :: IsAlternative(Only(a), x) <==> x == a
  {
    var g := Only(a);
    assert g.expand(0, 0)[0] == a;
    forall n, b, k | 0 <= k < |g.expand(n, b)| ensures AlternativeOk(g, n, g.expand(n, b)[k]) {
      assert g.expand(n, b)[k] == a;
      FirstBlocks(g, a);
    }
  }

  lemma FirstBlocks(g: Grammar, a: seq<Sym>)
    requires a in {TWO, INNER} && g == Only(a)
    ensures AlternativeOk(g, 0, a)
  {
    assert !Nullable(g, a[0]);
    assert forall i :: 0 < i <= |a| ==> a[..i][0] == a[0];
    assert a[..|a|] == a;
  }

  lemma TwoOneForm()
    ensures OneForm(Only(TWO))
  {
    OnlyOk(TWO);
    assert forall i :: 0 <= i < |TWO| ==> (IsUse(TWO[i]) <==> i == 1) && (IsLen(TWO[i]) <==> i == 0);
    assert AtOnce(TWO);
  }

  /** The moments of a derivation that has read a first byte end. */
  predicate TwoMoment(s: Moment, end: nat) {
    || s == FIRST
    || s == Moment(0, TWO, [], 0, 0)
    || s == Moment(1, TWO[1..], [], 0, end)
    || s == Moment(1, TWO[2..], [end], 0, end)
    || (end > 1 && s == Moment(2, TWO[3..], [end], 0, end))
    || (end > 2 && s == Moment(3, TWO[4..], [end], 0, end))
  }

  lemma TwoRule(input: seq<nat>, end: nat, s: Moment, t: Moment)
    requires 1 <= |input| <= 3 && input[0] == end && end > 1 && TwoMoment(s, end)
    requires Rule(Plain(Only(TWO)), input, s, t)
    ensures TwoMoment(t, end)
  {
    if s == FIRST {
      assert TWO + FIRST.buf[1..] == TWO;
    }
  }

  lemma {:induction false} TwoRuns(input: seq<nat>, end: nat, r: seq<Moment>)
    requires 1 <= |input| <= 3 && input[0] == end && end > 1 && IsRun(Plain(Only(TWO)), input, r)
    ensures TwoMoment(Last(r), end)
    decreases |r|
  {
    var l := |r| - 1;
    if l > 0 {
      RunLess(Plain(Only(TWO)), input, r, l);
      TwoRuns(input, end, r[..l]);
      TwoRule(input, end, r[l - 1], r[l]);
    }
  }

  /** The derivation that reads as far as the package goes. */
  lemma TwoDerivation(input: seq<nat>, end: nat) returns (r: seq<Moment>)
    requires 2 <= |input| <= 3 && input[0] == end && end > 1 && input[1] == 5
    requires |input| == 3 ==> end > 2 && input[2] == 5
    ensures IsRun(Plain(Only(TWO)), input, r) && Last(r).at == |input|
  {
    var g := Plain(Only(TWO));
    assert TWO + FIRST.buf[1..] == TWO && g.expand(0, input[0])[0] == TWO;
    var m1, m2 := Moment(0, TWO, [], 0, 0), Moment(1, TWO[1..], [], 0, end);
    var m3, m4 := Moment(1, TWO[2..], [end], 0, end), Moment(2, TWO[3..], [end], 0, end);
    assert Rule(g, input, FIRST, m1) && Rule(g, input, m1, m2) && Rule(g, input, m2, m3) && Rule(g, input, m3, m4);
    r := [FIRST, m1, m2, m3, m4];
    if |input| == 3 {
      var m5 := Moment(3, TWO[4..], [end], 0, end);
      assert Rule(g, input, m4, m5);
      RunExtended(g, input, r, m5);
      r := r + [m5];
    }
  }

  lemma TwoAnswer(input: seq<nat>, end: nat)
    requires 2 <= |input| <= 3 && input[0] == end && end > 1
    ensures NotLeftRecursive(Only(TWO)) && !Answer(Only(TWO), input).LimitUnderflow?
    ensures Answer(Only(TWO), input).Accepted? <==> Derivable(Only(TWO), input)
  {
    OnlyOk(TWO);
    TwoOneForm();
    FormsDetermine(Only(TWO), input);
    RunVerdict(Only(TWO), input);
    forall r | IsRun(Plain(Only(TWO)), input, r) ensures !NoneOpen(input, Last(r)) {
      TwoRuns(input, end, r);
    }
  }

  /** A package of three bytes is read to its end, and no byte is read beyond the end of a package of two. */
  lemma EndIsRespected()
    ensures NotLeftRecursive(Only(TWO))
    ensures Answer(Only(TWO), [3, 5, 5]).Accepted? && Answer(Only(TWO), [2, 5]).Accepted?
    ensures Answer(Only(TWO), [2, 5, 5]) == NoParse
  {
    TwoAnswer([3, 5, 5], 3);
    TwoAnswer([2, 5], 2);
    TwoAnswer([2, 5, 5], 2);
    var r := TwoDerivation([3, 5, 5], 3);
    r := TwoDerivation([2, 5], 2);
    forall r | IsRun(Plain(Only(TWO)), [2, 5, 5], r) ensures Last(r).at != 3 {
      TwoRuns([2, 5, 5], 2, r);
    }
  }

  /** A package of 2 bytes in which one of 5 is opened. */
  function Overrun(): seq<Moment> {
    [FIRST, Moment(0, INNER, [], 0, 0), Moment(1, INNER[1..], [], 0, 2), Moment(1, INNER[2..], [2], 0, 2),
     Moment(2, INNER[3..], [2], 1, 5), Moment(2, INNER[4..], [6, 2], 1, 5), Moment(3, INNER[5..], [6, 2], 1, 5)]
  }

  lemma OverrunStep(i: nat, j: nat)
    requires i < 6 && j == i + 1
    ensures Rule(Plain(Only(INNER)), [2, 5, 5], Overrun()[i], Overrun()[j])
  {
    if i == 0 {
      var g := Plain(Only(INNER));
      assert INNER + FIRST.buf[1..] == INNER && g.expand(0, 2)[0] == INNER;
    }
  }

  /** When a package opened inside another does not lie within it, the outer one is overrun: it ends at 2, the inner one
      at 6, and the byte at 2 is read. */
  lemma InnerOverruns() returns (r: seq<Moment>)
    ensures IsRun(Plain(Only(INNER)), [2, 5, 5], r) && Opens(r, 2, 2) && StillOpen(r, 2, 6) && r[2].at <= 2
    ensures Last(r) == r[6] && r[6].at == 3 && r[6].limits == [6, 2] && !LiesWithin(r[4])
  {
    r := Overrun();
    forall i, j | 0 <= i < 7 && j == i + 1 && j < 7 ensures Rule(Plain(Only(INNER)), [2, 5, 5], r[i], r[j]) {
      OverrunStep(i, j);
    }
  }
}
