/** What the parser of core/acpi_dsdt.c is to recognise, without its data structures: leftmost derivations, rule by
    rule, and what they say about packages. */
module Derivations {
  import opened Wrappers
  import opened Grammar
  import opened LengthForms
  import opened Markers
  import opened ParseRounds
  import opened Readings

  /** A moment of a derivation: so many bytes are read, these elements are left, these package ends are open (the
      innermost first), and the length read last began at lenAt and is len so far. */
  datatype Moment = Moment(at: nat, buf: seq<Sym>, limits: seq<nat>, lenAt: nat, len: nat)

  const FIRST := Moment(0, [NonTerm(0)], [], 0, 0)

  /** A byte is not read where the innermost package ends. */
  predicate MayRead(s: Moment) {
    s.limits == [] || s.limits[0] != s.at
  }

  /** The rules: a nonterminal is replaced by one of its alternatives for the next byte; PushEnd opens a package that
      ends len bytes after lenAt; PkgIgnore leaves the innermost package and PkgEnd does at its end only; the others
      read a byte. */
  ghost predicate Rule(g: Grammar, input: seq<nat>, s: Moment, t: Moment) {
    && s.at < |input| && s.buf != []
    && var b, rest := input[s.at], s.buf[1..];
    match s.buf[0]
    case NonTerm(n) => exists k :: 0 <= k < |g.expand(n, b)| && t == s.(buf := g.expand(n, b)[k] + rest)
    case Nothing => t == s.(buf := rest)
    case PushEnd => t == s.(buf := rest, limits := [s.lenAt + s.len] + s.limits)
    case PkgIgnore => s.limits != [] && t == s.(buf := rest, limits := s.limits[1..])
    case PkgEnd => s.limits != [] && s.limits[0] == s.at && t == s.(buf := rest, limits := s.limits[1..])
    case Byte(k) => MayRead(s) && g.matches(k, b) && t == s.(at := s.at + 1, buf := rest)
    case Len0 => MayRead(s) && t == Moment(s.at + 1, rest, s.limits, s.at, b)
    case Len1 => MayRead(s) && t == s.(at := s.at + 1, buf := rest, len := s.len % 16 + b * 0x10)
    case Len2 => MayRead(s) && t == s.(at := s.at + 1, buf := rest, len := s.len + b * 0x1000)
    case Len3 => MayRead(s) && t == s.(at := s.at + 1, buf := rest, len := s.len + b * 0x10_0000)
    case Ok => false
  }

  /** A derivation, from the start symbol on. */
  ghost predicate IsRun(g: Grammar, input: seq<nat>, r: seq<Moment>) {
    |r| > 0 && r[0] == FIRST && forall i, j :: 0 <= i < |r| && j == i + 1 && j < |r| ==> Rule(g, input, r[i], r[j])
  }

  function Last(r: seq<Moment>): Moment
    requires |r| > 0
  {
    r[|r| - 1]
  }

  function Conf(s: Moment): Config {
    Config(s.buf, s.limits, [], s.lenAt, s.len)
  }

  function At(x: Config, c: nat): Moment {
    Moment(c, x.buf, x.limits, x.lenAt, x.len)
  }

  lemma RunExtended(g: Grammar, input: seq<nat>, r: seq<Moment>, t: Moment)
    requires IsRun(g, input, r) && Rule(g, input, Last(r), t)
    ensures IsRun(g, input, r + [t]) && Last(r + [t]) == t
  {
  }

  lemma RunLess(g: Grammar, input: seq<nat>, r: seq<Moment>, k: nat)
    requires IsRun(g, input, r) && 0 < k <= |r|
    ensures IsRun(g, input, r[..k]) && Last(r[..k]) == r[k - 1]
  {
  }

  /** Silent rules are the steps of the parser without a path, ... */
  lemma SilentRule(g: Grammar, input: seq<nat>, x: Config, z: Config, c: nat)
    requires !g.marks && x.path == [] && c < |input|
    ensures z in Children(g, x, input[c], c) <==> z.path == [] && Rule(g, input, At(x, c), At(z, c))
  {
  }

  /** ... and those that read a byte are its readings. */
  lemma ByteRule(g: Grammar, input: seq<nat>, x: Config, y: Config, c: nat, d: nat)
    requires !g.marks && x.path == [] && c < |input| && d == c + 1
    ensures y in AfterByte(g, x, input[c], c) <==> y.path == [] && Rule(g, input, At(x, c), At(y, d))
  {
  }

  lemma {:induction false} DerivesRun(g: Grammar, input: seq<nat>, r: seq<Moment>, x: Config, z: Config, c: nat, n: nat)
    returns (r': seq<Moment>)
    requires !g.marks && x.path == [] && c < |input| && Derives(g, x, z, input[c], c, n)
    requires IsRun(g, input, r) && Last(r) == At(x, c)
    ensures IsRun(g, input, r') && Last(r') == At(z, c) && z.path == []
    decreases n
  {
    if n == 0 {
      r' := r;
    } else {
      var m := n - 1;
      var y := FirstStep(g, x, z, input[c], c, n, m);
      SilentRule(g, input, x, y, c);
      RunExtended(g, input, r, At(y, c));
      r' := DerivesRun(g, input, r + [At(y, c)], y, z, c, m);
    }
  }

  /** Whatever is reachable is so by a derivation, which has just read a byte. */
  lemma {:induction false} ReachRun(g: Grammar, input: seq<nat>, k: nat, y: Config) returns (r: seq<Moment>)
    requires NotLeftRecursive(g) && !g.marks && k <= |input| && y in Reach(g, input, k)
    ensures IsRun(g, input, r) && Last(r) == At(y, k) && y.path == [] && Arrived(r)
    decreases k
  {
    if k == 0 {
      r := [FIRST];
    } else {
      var j := k - 1;
      ReachNext(g, input, j, k);
      var x :| x in Reach(g, input, j) && y in Outs(g, x, input[j], j);
      r := ReachRun(g, input, j, x);
      OutsAreReads(g, x, y, input[j], j);
      var z, n: nat :| Derives(g, x, z, input[j], j, n) && y in AfterByte(g, z, input[j], j);
      r := DerivesRun(g, input, r, x, z, j, n);
      ByteRule(g, input, z, y, j, k);
      RunExtended(g, input, r, At(y, k));
      r := r + [At(y, k)];
    }
  }

  /** The derivation has just read a byte, or begins. */
  predicate Arrived(r: seq<Moment>)
    requires |r| > 0
  {
    |r| == 1 || r[|r| - 2].at != Last(r).at
  }

  /** The configuration at s follows silently from what is reachable there. */
  ghost predicate Follows(g: Grammar, input: seq<nat>, s: Moment)
    requires NotLeftRecursive(g)
  {
    && s.at <= |input|
    && if s.at == |input| then Conf(s) in Reach(g, input, s.at)
       else From(g, Reach(g, input, s.at), Conf(s), input[s.at], s.at)
  }

  lemma ReachFollows(g: Grammar, input: seq<nat>, s: Moment)
    requires NotLeftRecursive(g) && s.at <= |input| && Conf(s) in Reach(g, input, s.at)
    ensures Follows(g, input, s)
  {
    if s.at < |input| {
      assert Derives(g, Conf(s), Conf(s), input[s.at], s.at, 0);
    }
  }

  lemma RuleFollows(g: Grammar, input: seq<nat>, s: Moment, t: Moment)
    requires NotLeftRecursive(g) && !g.marks && Follows(g, input, s) && Rule(g, input, s, t)
    ensures Follows(g, input, t) && (t.at != s.at ==> t.at == s.at + 1 && Conf(t) in Reach(g, input, t.at))
  {
    var c := s.at;
    var x, n: nat :| x in Reach(g, input, c) && Derives(g, x, Conf(s), input[c], c, n);
    if t.at == c {
      SilentRule(g, input, Conf(s), Conf(t), c);
      DerivesSnoc(g, x, Conf(s), Conf(t), input[c], c, n);
    } else {
      ByteRule(g, input, Conf(s), Conf(t), c, c + 1);
      ReadsAreOuts(g, x, Conf(s), Conf(t), input[c], c, n);
      ReachNext(g, input, c, c + 1);
      ReachFollows(g, input, t);
    }
  }

  /** Whatever a derivation comes to follows from what is reachable, and is itself reachable if a byte was just read. */
  lemma {:induction false} RunFollows(g: Grammar, input: seq<nat>, r: seq<Moment>)
    requires NotLeftRecursive(g) && !g.marks && IsRun(g, input, r)
    ensures Follows(g, input, Last(r)) && (Arrived(r) ==> Conf(Last(r)) in Reach(g, input, Last(r).at))
    decreases |r|
  {
    var l := |r| - 1;
    if l == 0 {
      assert Conf(FIRST) == START;
      ReachFollows(g, input, FIRST);
    } else {
      RunLess(g, input, r, l);
      RunFollows(g, input, r[..l]);
      RuleFollows(g, input, r[l - 1], r[l]);
    }
  }

  /** The configurations reachable by what the parser does are those that derivations come to. */
  lemma ReachIsRuns(g: Grammar, input: seq<nat>, k: nat, y: Config)
    requires NotLeftRecursive(g) && k <= |input|
    ensures y in Reach(Plain(g), input, k) <==>
      y.path == [] && exists r :: IsRun(Plain(g), input, r) && Arrived(r) && Last(r) == At(y, k)
  {
    if y in Reach(Plain(g), input, k) {
      var r := ReachRun(Plain(g), input, k, y);
    }
    if y.path == [] {
      forall r | IsRun(Plain(g), input, r) && Arrived(r) && Last(r) == At(y, k)
        ensures y in Reach(Plain(g), input, k)
      {
        RunFollows(Plain(g), input, r);
        assert Conf(At(y, k)) == y;
      }
    }
  }

  /** Some derivation reads the whole input. */
  ghost predicate Derivable(g: Grammar, input: seq<nat>) {
    exists r :: IsRun(Plain(g), input, r) && Last(r).at == |input|
  }

  /** Some derivation comes to an element that leaves a package where none is open. */
  ghost predicate LeavesNone(g: Grammar, input: seq<nat>) {
    exists r :: IsRun(Plain(g), input, r) && NoneOpen(input, Last(r))
  }

  predicate NoneOpen(input: seq<nat>, s: Moment) {
    s.at < |input| && s.buf != [] && s.buf[0] in {PkgEnd, PkgIgnore} && s.limits == []
  }

  lemma DerivableIs(g: Grammar, input: seq<nat>)
    requires NotLeftRecursive(g)
    ensures Derivable(g, input) <==> Reach(Plain(g), input, |input|) != {}
  {
    if y :| y in Reach(Plain(g), input, |input|) {
      var r := ReachRun(Plain(g), input, |input|, y);
    }
    if r :| IsRun(Plain(g), input, r) && Last(r).at == |input| {
      RunFollows(Plain(g), input, r);
    }
  }

  /** No marker comes up in a plain derivation. */
  lemma {:induction false} NoMarkers(g: Grammar, input: seq<nat>, r: seq<Moment>)
    requires NotLeftRecursive(g) && IsRun(Plain(g), input, r)
    ensures Ok !in Last(r).buf
    decreases |r|
  {
    var l := |r| - 1;
    if l > 0 {
      RunLess(Plain(g), input, r, l);
      NoMarkers(g, input, r[..l]);
      NoMarkerMore(g, input, r[l - 1], r[l]);
    }
  }

  lemma NoMarkerMore(g: Grammar, input: seq<nat>, s: Moment, t: Moment)
    requires NotLeftRecursive(g) && Rule(Plain(g), input, s, t) && Ok !in s.buf
    ensures Ok !in t.buf
  {
    if s.buf[0].NonTerm? {
      var n, b := s.buf[0].id, input[s.at];
      var k :| 0 <= k < |g.expand(n, b)| && t == s.(buf := g.expand(n, b)[k] + s.buf[1..]);
      assert AlternativeOk(g, n, g.expand(n, b)[k]);
    }
  }

  lemma LeavesNoneIs(g: Grammar, input: seq<nat>)
    requires NotLeftRecursive(g)
    ensures LeavesNone(g, input) <==> exists k :: 0 <= k < |input| && MissesEnd(g, input, k)
  {
    var p := Plain(g);
    if k :| 0 <= k < |input| && MissesEnd(g, input, k) {
      var z :| From(p, Reach(p, input, k), z, input[k], k) && Underflow(z);
      var x, n: nat :| x in Reach(p, input, k) && Derives(p, x, z, input[k], k, n);
      var r := ReachRun(p, input, k, x);
      r := DerivesRun(p, input, r, x, z, k, n);
      NoMarkers(g, input, r);
      assert NoneOpen(input, Last(r));
    }
    if r :| IsRun(p, input, r) && NoneOpen(input, Last(r)) {
      RunFollows(p, input, r);
      var s := Last(r);
      assert Underflow(Conf(s)) && MissesEnd(g, input, s.at);
    }
  }

  /** The answer of parsemain, by derivations alone. */
  lemma RunVerdict(g: Grammar, input: seq<nat>)
    requires NotLeftRecursive(g) && LengthsFirst(g) && LengthsDetermined(g, input)
    ensures Answer(g, input).LimitUnderflow? <==> LeavesNone(g, input)
    ensures !LeavesNone(g, input) ==> (Answer(g, input).Accepted? <==> Derivable(g, input))
  {
    Verdict(g, input);
    LeavesNoneIs(g, input);
    DerivableIs(g, input);
  }

  /** Without any condition: what is accepted is derivable, and the error means that some derivation leaves a package
      where none is open. */
  lemma RunSound(g: Grammar, input: seq<nat>)
    requires NotLeftRecursive(g)
    ensures Answer(g, input).Accepted? ==> Derivable(g, input)
    ensures Answer(g, input).LimitUnderflow? ==> LeavesNone(g, input)
  {
    AnswerSound(g, input);
    LeavesNoneIs(g, input);
    DerivableIs(g, input);
  }

  /** What a rule does to the package ends, and when it reads. */
  lemma RuleEnds(g: Grammar, input: seq<nat>, s: Moment, t: Moment)
    requires Rule(g, input, s, t)
    ensures || t.limits == s.limits
            || (s.buf[0] == PushEnd && t.limits == [s.lenAt + s.len] + s.limits && t.at == s.at)
            || (s.limits != [] && t.limits == s.limits[1..] && t.at == s.at)
    ensures t.at == s.at || (t.at == s.at + 1 && MayRead(s) && t.limits == s.limits)
  {
  }

  /** At moment m a package is opened, which ends at end. */
  predicate Opens(r: seq<Moment>, m: nat, end: nat) {
    m < |r| && r[m].buf != [] && r[m].buf[0] == PushEnd && end == r[m].lenAt + r[m].len
  }

  /** It is still open at moment n. */
  ghost predicate StillOpen(r: seq<Moment>, m: nat, n: nat) {
    m < n < |r| && forall l :: m < l <= n ==> |r[l].limits| > |r[m].limits|
  }

  /** The packages that are open stay in their place. */
  lemma {:induction false} EndKept(g: Grammar, input: seq<nat>, r: seq<Moment>, m: nat, n: nat, end: nat)
    requires IsRun(g, input, r) && Opens(r, m, end) && StillOpen(r, m, n)
    ensures r[n].limits[|r[n].limits| - |r[m].limits| - 1] == end
    decreases n
  {
    var l := n - 1;
    assert Rule(g, input, r[l], r[n]);
    RuleEnds(g, input, r[l], r[n]);
    if l > m {
      EndKept(g, input, r, m, l, end);
    }
  }

  /** PkgEnd leaves a package exactly where it ends. */
  lemma ClosedAtEnd(g: Grammar, input: seq<nat>, r: seq<Moment>, m: nat, n: nat, end: nat)
    requires IsRun(g, input, r) && Opens(r, m, end) && StillOpen(r, m, n) && n + 1 < |r|
    requires r[n].buf != [] && r[n].buf[0] == PkgEnd && |r[n].limits| == |r[m].limits| + 1
    ensures r[n].at == end
  {
    EndKept(g, input, r, m, n, end);
    assert Rule(g, input, r[n], r[n + 1]);
  }

  /** A package that is opened at s ends no later than the one around it, and has not ended yet. */
  predicate LiesWithin(s: Moment) {
    s.buf != [] && s.buf[0] == PushEnd ==> s.at <= s.lenAt + s.len && (s.limits == [] || s.lenAt + s.len <= s.limits[0])
  }

  /** Every package opened between m and n lies within the one around it. */
  ghost predicate Nested(r: seq<Moment>, m: nat, n: nat) {
    forall l :: m < l < n && l < |r| ==> LiesWithin(r[l])
  }

  /** The open packages above depth d end one after the other, and none has been passed. */
  ghost predicate InOrder(s: Moment, d: nat) {
    && |s.limits| > d && s.at <= s.limits[0]
    && forall i, j :: 0 <= i < j < |s.limits| - d ==> s.limits[i] <= s.limits[j]
  }

  lemma RuleInOrder(g: Grammar, input: seq<nat>, s: Moment, t: Moment, d: nat)
    requires Rule(g, input, s, t) && InOrder(s, d) && LiesWithin(s) && |t.limits| > d
    ensures InOrder(t, d)
  {
    RuleEnds(g, input, s, t);
  }

  lemma {:induction false} AllInOrder(g: Grammar, input: seq<nat>, r: seq<Moment>, m: nat, n: nat, end: nat)
    requires IsRun(g, input, r) && Opens(r, m, end) && StillOpen(r, m, n) && r[m].at <= end && Nested(r, m, n)
    ensures InOrder(r[n], |r[m].limits|)
    decreases n
  {
    var l := n - 1;
    assert Rule(g, input, r[l], r[n]);
    if l > m {
      AllInOrder(g, input, r, m, l, end);
      RuleInOrder(g, input, r[l], r[n], |r[m].limits|);
    } else {
      RuleEnds(g, input, r[l], r[n]);
    }
  }

  /** As long as a package is open no byte at or beyond its end is read, if it has not ended when it is opened and the
      packages opened in it lie within it. */
  lemma StaysInside(g: Grammar, input: seq<nat>, r: seq<Moment>, m: nat, n: nat, end: nat)
    requires IsRun(g, input, r) && Opens(r, m, end) && StillOpen(r, m, n) && r[m].at <= end && Nested(r, m, n)
    ensures r[n].at <= end
  {
    AllInOrder(g, input, r, m, n, end);
    EndKept(g, input, r, m, n, end);
    assert r[n].limits[0] <= r[n].limits[|r[n].limits| - |r[m].limits| - 1];
  }

  /** In terms of what the parser reaches: ends that are open and nested are not passed. */
  lemma ReachInside(g: Grammar, input: seq<nat>, k: nat, y: Config) returns (r: seq<Moment>)
    requires NotLeftRecursive(g) && k <= |input| && y in Reach(Plain(g), input, k)
    ensures IsRun(Plain(g), input, r) && Last(r) == At(y, k)
    ensures forall m: nat, end: nat ::
      Opens(r, m, end) && StillOpen(r, m, |r| - 1) && r[m].at <= end && Nested(r, m, |r| - 1) ==> k <= end
  {
    r := ReachRun(Plain(g), input, k, y);
    forall m: nat, end: nat | Opens(r, m, end) && StillOpen(r, m, |r| - 1) && r[m].at <= end && Nested(r, m, |r| - 1)
      ensures k <= end
    {
      StaysInside(Plain(g), input, r, m, |r| - 1, end);
    }
  }

  /** The alternatives of AML_PkgLength: a length of one to four bytes. */
  const PKG1: seq<Sym> := [Len0, PushEnd]
  const PKG2: seq<Sym> := [Len0, Len1, PushEnd]
  const PKG3: seq<Sym> := [Len0, Len1, Len2, PushEnd]
  const PKG4: seq<Sym> := [Len0, Len1, Len2, Len3, PushEnd]

  /** Package lengths are read by these alternatives only. */
  ghost predicate AmlLengths(g: Grammar) {
    forall a :: IsAlternative(g, a) ==>
      a in {PKG1, PKG2, PKG3, PKG4} || forall i :: 0 <= i < |a| ==> !IsLen(a[i]) && !IsUse(a[i])
  }

  /** A package that begins with the n bytes of its length before position at ends at end: a length of one byte counts
      as it is, and a longer one has its four lowest bits in the first byte and eight in each of the others. */
  predicate EncodedEnd(input: seq<nat>, at: nat, n: nat, end: nat)
    requires 1 <= n <= 4 && n <= at <= |input|
  {
    var s := at - n;
    end == s + if n == 1 then input[s]
               else input[s] % 16 + 16 * input[s + 1] + (if n > 2 then 16 * 256 * input[s + 2] else 0)
                    + (if n > 3 then 16 * 256 * 256 * input[s + 3] else 0)
  }

  lemma AmlAtOnce(g: Grammar)
    requires AmlLengths(g)
    ensures AllAtOnce(g)
  {
    forall a | IsAlternative(g, a) ensures AtOnce(a) {
      if a in {PKG1, PKG2, PKG3, PKG4} {
        assert IsLen(Len0) && IsUse(Len1) && IsUse(Len2) && IsUse(Len3) && IsUse(PushEnd);
      }
    }
  }

  lemma PlainForms(g: Grammar)
    ensures AmlLengths(g) ==> AmlLengths(Plain(g))
  {
    assert forall a :: IsAlternative(Plain(g), a) ==> IsAlternative(g, a);
  }

  /** The bytes of a length, one more at a time. */
  lemma RunsOf(a: seq<Sym>)
    requires a in {PKG1, PKG2, PKG3, PKG4}
    ensures Run(a, 1) == [Len0] && (|a| > 2 ==> Run(a, 2) == [Len0, Len1])
    ensures |a| > 3 ==> Run(a, 3) == [Len0, Len1, Len2]
    ensures |a| > 4 ==> Run(a, 4) == [Len0, Len1, Len2, Len3]
  {
    assert a[0] == Len0;
    if |a| > 2 {
      RunMore(a, 1, 2);
    }
    if |a| > 3 {
      RunMore(a, 2, 3);
    }
    if |a| > 4 {
      RunMore(a, 3, 4);
    }
  }

  lemma Values(input: seq<nat>, at: nat)
    requires at <= |input|
    ensures at >= 1 ==> Value([Len0], input, at) == (at - 1, input[at - 1])
    ensures at >= 2 ==> Value([Len0, Len1], input, at) == (at - 2, input[at - 2] % 16 + 16 * input[at - 1])
  {
    if at >= 2 {
      assert [Len0, Len1] == [Len0] + [Len1];
      ValueMore([Len0], Len1, input, at - 1, at);
    }
  }

  lemma LongValues(input: seq<nat>, at: nat)
    requires at <= |input|
    ensures at >= 3 ==>
      Value([Len0, Len1, Len2], input, at)
      == (at - 3, input[at - 3] % 16 + 16 * input[at - 2] + 16 * 256 * input[at - 1])
    ensures at >= 4 ==>
      Value([Len0, Len1, Len2, Len3], input, at)
      == (at - 4, input[at - 4] % 16 + 16 * input[at - 3] + 16 * 256 * input[at - 2] + 16 * 256 * 256 * input[at - 1])
  {
    if at >= 3 {
      Values(input, at - 1);
      assert [Len0, Len1, Len2] == [Len0, Len1] + [Len2];
      ValueMore([Len0, Len1], Len2, input, at - 1, at);
    }
    if at >= 4 {
      LongValues(input, at - 1);
      assert [Len0, Len1, Len2, Len3] == [Len0, Len1, Len2] + [Len3];
      ValueMore([Len0, Len1, Len2], Len3, input, at - 1, at);
    }
  }

  lemma AmlValue(a: seq<Sym>, i: nat, input: seq<nat>, at: nat)
    requires a in {PKG1, PKG2, PKG3, PKG4} && i < |a| && a[i] == PushEnd && |Run(a, i)| <= at <= |input|
    ensures 1 <= i <= 4 && i <= at && 0 < |Run(a, i)|
    ensures var v := Value(Run(a, i), input, at); EncodedEnd(input, at, i, v.0 + v.1)
  {
    RunsOf(a);
    Values(input, at);
    LongValues(input, at);
  }

  /** The length that is about to be pushed is what an alternative has read. */
  lemma LengthAtPush(g: Grammar, input: seq<nat>, s: Moment) returns (a: seq<Sym>, i: nat)
    requires NotLeftRecursive(g) && AllAtOnce(g) && s.at < |input| && Follows(g, input, s)
    requires s.buf != [] && s.buf[0] == PushEnd
    ensures LengthIs(g, input, Conf(s), s.at, a, i) && a[i] == PushEnd
  {
    var x, n: nat :| x in Reach(g, input, s.at) && Derives(g, x, Conf(s), input[s.at], s.at, n);
    ReachRead(g, input, s.at, x);
    DerivesRead(g, input, x, Conf(s), s.at, n);
    a, i :| LengthIs(g, input, Conf(s), s.at, a, i);
    assert a[i..][0] == s.buf[0];
  }

  lemma OpenedFollows(g: Grammar, input: seq<nat>, r: seq<Moment>, m: nat)
    requires NotLeftRecursive(g) && !g.marks && IsRun(g, input, r) && m + 1 < |r|
    ensures Follows(g, input, r[m]) && r[m].at < |input|
  {
    assert Rule(g, input, r[m], r[m + 1]);
    RunLess(g, input, r, m + 1);
    RunFollows(g, input, r[..m + 1]);
  }

  lemma AmlForm(g: Grammar, a: seq<Sym>, i: nat)
    requires AmlLengths(g) && IsAlternative(g, a) && i < |a| && a[i] == PushEnd
    ensures a in {PKG1, PKG2, PKG3, PKG4}
  {
    assert IsUse(a[i]);
  }

  lemma EncodedAt(g: Grammar, input: seq<nat>, s: Moment, a: seq<Sym>, i: nat)
    requires AmlLengths(g) && s.at <= |input| && LengthIs(g, input, Conf(s), s.at, a, i) && a[i] == PushEnd
    ensures 1 <= i <= 4 && i <= s.at && EncodedEnd(input, s.at, i, s.lenAt + s.len)
  {
    AmlForm(g, a, i);
    AmlValue(a, i, input, s.at);
  }

  /** A package that is opened ends where the bytes of its length say. */
  lemma OpensEncoded(g: Grammar, input: seq<nat>, r: seq<Moment>, m: nat, end: nat) returns (n: nat)
    requires NotLeftRecursive(g) && AmlLengths(g) && IsRun(Plain(g), input, r) && Opens(r, m, end) && m + 1 < |r|
    ensures 1 <= n <= 4 && n <= r[m].at <= |input| && EncodedEnd(input, r[m].at, n, end)
  {
    PlainForms(g);
    AmlAtOnce(Plain(g));
    OpenedFollows(Plain(g), input, r, m);
    var a: seq<Sym>;
    a, n := LengthAtPush(Plain(g), input, r[m]);
    EncodedAt(Plain(g), input, r[m], a, n);
  }
}
