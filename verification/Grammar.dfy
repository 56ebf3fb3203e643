/** The language of the parser of core/acpi_dsdt.c, over an abstract grammar: what one configuration may do with
    the next byte, and which configurations are reachable. */
module Grammar {

  /** Elements: nonterminals and byte classes of the grammar, the bytes of a package length, the three elements that
      push, check and drop the end of a package, an element that does nothing, and the marker that drops the head of
      the path. */
  datatype Sym = NonTerm(id: nat) | Byte(kind: nat) | Len0 | Len1 | Len2 | Len3 | PushEnd | PkgEnd | PkgIgnore
               | Nothing | Ok

  /** expand gives the alternatives of a nonterminal for the next byte, in the order of the addbuf calls; matches
      says which bytes a class holds. rank and nullable witness that the grammar is not left-recursive. The program
      keeps the path to the current element, with markers on the stack of elements; without marks only the language
      of the grammar is left. */
  datatype Grammar = Grammar(expand: (nat, nat) -> seq<seq<Sym>>, matches: (nat, nat) -> bool,
                             rank: nat -> nat, nullable: nat -> bool, width: nat, marks: bool)

  /** A configuration: the stack of elements, the stack of package ends, the path, and the package length being
      read. */
  datatype Config = Config(buf: seq<Sym>, limits: seq<nat>, path: seq<nat>, lenAt: nat, len: nat)

  predicate Nullable(g: Grammar, s: Sym) {
    match s
    case NonTerm(n) => g.nullable(n)
    case PushEnd => true
    case PkgEnd => true
    case PkgIgnore => true
    case Nothing => true
    case Ok => true
    case _ => false
  }

  function Rank(g: Grammar, s: Sym): nat {
    if s.NonTerm? then g.rank(s.id) + 1 else 0
  }

  predicate AllNullable(g: Grammar, a: seq<Sym>) {
    forall i :: 0 <= i < |a| ==> Nullable(g, a[i])
  }

  /** Every element that an alternative can bring to the top without reading a byte has a lower rank, and only a
      nullable element has an alternative that can vanish. An alternative ends at the first marker. */
  ghost predicate NotLeftRecursive(g: Grammar) {
    forall n, b, k {:trigger AlternativeOk(g, n, g.expand(n, b)[k])} ::
      0 <= k < |g.expand(n, b)| ==> AlternativeOk(g, n, g.expand(n, b)[k])
  }

  predicate AlternativeOk(g: Grammar, n: nat, a: seq<Sym>) {
    && |a| <= g.width && Ok !in a
    && (forall i :: 0 <= i < |a| && AllNullable(g, a[..i]) ==> Rank(g, a[i]) <= g.rank(n))
    && (AllNullable(g, a) ==> g.nullable(n))
  }

  function Power(b: nat, e: nat): (p: nat)
    ensures b > 0 ==> p > 0
  {
    if e == 0 then 1 else b * Power(b, e - 1)
  }

  function Weight(g: Grammar, s: Sym): (w: nat)
    ensures w > 0
  {
    Power(g.width + 2, Rank(g, s))
  }

  /** A bound for what the top of the stack can do without reading a byte. */
  function Measure(g: Grammar, buf: seq<Sym>): nat {
    if buf == [] then 0
    else Weight(g, buf[0]) + if Nullable(g, buf[0]) then Measure(g, buf[1..]) else 0
  }

  lemma PowerMono(b: nat, d: nat, e: nat)
    requires b > 0 && d <= e
    ensures Power(b, d) <= Power(b, e)
  {
    if d < e {
      PowerMono(b, d, e - 1);
      assert Power(b, e) == b * Power(b, e - 1) >= Power(b, e - 1);
    }
  }

  lemma MulLess(x: nat, y: nat, p: nat)
    requires x < y && p > 0
    ensures x * p < y * p
  {
  }

  lemma NullableTail(g: Grammar, a: seq<Sym>)
    requires a != [] && Nullable(g, a[0])
    ensures AllNullable(g, a) <==> AllNullable(g, a[1..])
  {
    assert forall i :: 0 <= i < |a| ==> a[i] == if i == 0 then a[0] else a[1..][i - 1];
    assert forall i :: 0 <= i < |a[1..]| ==> a[1..][i] == a[i + 1];
  }

  /** Putting an alternative on the stack adds at most its exposed elements. */
  lemma {:induction false} MeasureAppend(g: Grammar, a: seq<Sym>, rest: seq<Sym>, n: nat)
    requires forall i :: 0 <= i < |a| && AllNullable(g, a[..i]) ==> Rank(g, a[i]) <= n
    ensures Measure(g, a + rest) <= |a| * Power(g.width + 2, n) + if AllNullable(g, a) then Measure(g, rest) else 0
  {
    if a == [] {
      assert a + rest == rest;
    } else {
      var t, p := a[1..], Power(g.width + 2, n);
      assert (a + rest)[1..] == t + rest && a[..0] == [];
      assert AllNullable(g, a[..0]);
      PowerMono(g.width + 2, Rank(g, a[0]), n);
      assert |a| * p == p + |t| * p;
      if Nullable(g, a[0]) {
        forall i | 0 <= i < |t| && AllNullable(g, t[..i]) ensures Rank(g, t[i]) <= n {
          assert a[..i + 1] == [a[0]] + t[..i];
          assert AllNullable(g, a[..i + 1]);
        }
        MeasureAppend(g, t, rest, n);
        NullableTail(g, a);
      } else {
        MulLess(0, |t| + 1, p);
        assert !AllNullable(g, a);
      }
    }
  }

  /** An expansion lowers the measure, with or without a marker below the alternative. */
  lemma MeasureDecreases(g: Grammar, n: nat, b: nat, k: nat, rest: seq<Sym>)
    requires NotLeftRecursive(g) && k < |g.expand(n, b)|
    ensures Measure(g, g.expand(n, b)[k] + rest) < Measure(g, [NonTerm(n)] + rest)
    ensures Measure(g, g.expand(n, b)[k] + ([Ok] + rest)) < Measure(g, [NonTerm(n)] + rest)
  {
    var a, p := g.expand(n, b)[k], Power(g.width + 2, g.rank(n));
    assert AlternativeOk(g, n, a);
    assert ([NonTerm(n)] + rest)[1..] == rest && ([Ok] + rest)[1..] == rest;
    MulLess(|a| + 1, g.width + 2, p);
    assert (|a| + 1) * p == |a| * p + p;
    MeasureAppend(g, a, rest, g.rank(n));
    MeasureAppend(g, a, [Ok] + rest, g.rank(n));
  }

  /** What addbufsub does to the path below an alternative of nonterminal n: unless the path already leads there, n
      is added, and a marker that will drop it. */
  function Enter(g: Grammar, rest: Config, n: nat): Config {
    if g.marks && (rest.path == [] || rest.path[0] != n) then rest.(buf := [Ok] + rest.buf, path := [n] + rest.path)
    else rest
  }

  /** The elements that only work on the package ends and the path: a package end is pushed, dropped, or checked
      against the position c, and a marker drops the head of the path. */
  function SilentStep(element: Sym, rest: Config, c: nat): seq<Config> {
    match element
    case PushEnd => [rest.(limits := [rest.lenAt + rest.len] + rest.limits)]
    case PkgIgnore => if rest.limits == [] then [] else [rest.(limits := rest.limits[1..])]
    case PkgEnd => if rest.limits == [] || rest.limits[0] != c then [] else [rest.(limits := rest.limits[1..])]
    case Nothing => [rest]
    case Ok => if rest.path == [] then [] else [rest.(path := rest.path[1..])]
    case _ => []
  }

  /** The source stops with an error when a package end is missing, and when the path is empty at a marker. */
  predicate Fails(element: Sym, rest: Config) {
    (element in {PkgEnd, PkgIgnore} && rest.limits == []) || (element == Ok && rest.path == [])
  }

  predicate Underflow(x: Config) {
    x.buf != [] && Fails(x.buf[0], x)
  }

  predicate PathUnderflow(x: Config) {
    x.buf != [] && x.buf[0] == Ok && x.path == []
  }

  /** What configuration x becomes without reading a byte, when byte b at position c is next: a nonterminal is
      replaced by each of its alternatives. */
  function Children(g: Grammar, x: Config, b: nat, c: nat): seq<Config> {
    if x.buf == [] then []
    else
      var rest := x.(buf := x.buf[1..]);
      if x.buf[0].NonTerm? then Alternatives(Enter(g, rest, x.buf[0].id), g.expand(x.buf[0].id, b))
      else SilentStep(x.buf[0], rest, c)
  }

  function Alternatives(rest: Config, alts: seq<seq<Sym>>): (r: seq<Config>)
    ensures |r| == |alts| && forall k :: 0 <= k < |alts| ==> r[k] == rest.(buf := alts[k] + rest.buf)
  {
    seq(|alts|, k requires 0 <= k < |alts| => rest.(buf := alts[k] + rest.buf))
  }

  /** What configuration x becomes by reading byte b at position c: not at the end of its package, and only if the
      element on top accepts the byte. */
  function AfterByte(g: Grammar, x: Config, b: nat, c: nat): seq<Config> {
    if x.buf == [] || (x.limits != [] && x.limits[0] == c) then []
    else AfterElement(g, x.buf[0], x.(buf := x.buf[1..]), b, c)
  }

  function AfterElement(g: Grammar, element: Sym, rest: Config, b: nat, c: nat): seq<Config> {
    match element
    case Byte(k) => if g.matches(k, b) then [rest] else []
    case Len0 => [rest.(lenAt := c, len := b)]
    case Len1 => [rest.(len := rest.len % 16 + b * 0x10)]
    case Len2 => [rest.(len := rest.len + b * 0x1000)]
    case Len3 => [rest.(len := rest.len + b * 0x10_0000)]
    case _ => []
  }

  lemma ChildrenSmaller(g: Grammar, x: Config, b: nat, c: nat)
    requires NotLeftRecursive(g)
    ensures forall y :: y in Children(g, x, b, c) ==> Measure(g, y.buf) < Measure(g, x.buf)
  {
    if x.buf != [] && x.buf[0].NonTerm? {
      var n, rest := x.buf[0].id, x.buf[1..];
      assert x.buf == [NonTerm(n)] + rest;
      forall y | y in Children(g, x, b, c) ensures Measure(g, y.buf) < Measure(g, x.buf) {
        var k :| 0 <= k < |g.expand(n, b)| && y == Children(g, x, b, c)[k];
        MeasureDecreases(g, n, b, k, rest);
      }
    }
  }

  /** y follows from x by n silent steps of a leftmost derivation. */
  ghost predicate Derives(g: Grammar, x: Config, y: Config, b: nat, c: nat, n: nat)
    decreases n
  {
    if n == 0 then x == y
    else exists z :: z in Children(g, x, b, c) && Derives(g, z, y, b, c, n - 1)
  }

  /** What x may become by some leftmost derivation that ends with reading byte b at position c. */
  ghost predicate Reads(g: Grammar, x: Config, y: Config, b: nat, c: nat) {
    exists z, n: nat :: Derives(g, x, z, b, c, n) && y in AfterByte(g, z, b, c)
  }

  /** The same as a finite set, by recursion over the silent steps. */
  ghost function Outs(g: Grammar, x: Config, b: nat, c: nat): set<Config>
    requires NotLeftRecursive(g)
    decreases Measure(g, x.buf)
  {
    ChildrenSmaller(g, x, b, c);
    (set y | y in AfterByte(g, x, b, c)) + set z, y | z in Children(g, x, b, c) && y in Outs(g, z, b, c) :: y
  }

  lemma {:induction false} OutsAreReads(g: Grammar, x: Config, y: Config, b: nat, c: nat)
    requires NotLeftRecursive(g)
    ensures y in Outs(g, x, b, c) ==> Reads(g, x, y, b, c)
    decreases Measure(g, x.buf)
  {
    if y in Outs(g, x, b, c) {
      if y in AfterByte(g, x, b, c) {
        assert Derives(g, x, x, b, c, 0);
      } else {
        ChildrenSmaller(g, x, b, c);
        var z :| z in Children(g, x, b, c) && y in Outs(g, z, b, c);
        OutsAreReads(g, z, y, b, c);
        var w, n: nat :| Derives(g, z, w, b, c, n) && y in AfterByte(g, w, b, c);
        assert Derives(g, x, w, b, c, n + 1);
      }
    }
  }

  lemma OwnOuts(g: Grammar, x: Config, y: Config, b: nat, c: nat)
    requires NotLeftRecursive(g) && y in AfterByte(g, x, b, c)
    ensures y in Outs(g, x, b, c)
  {
  }

  lemma ChildOuts(g: Grammar, x: Config, z: Config, y: Config, b: nat, c: nat)
    requires NotLeftRecursive(g) && z in Children(g, x, b, c) && y in Outs(g, z, b, c)
    ensures y in Outs(g, x, b, c)
  {
  }

  lemma {:induction false} ReadsAreOuts(g: Grammar, x: Config, w: Config, y: Config, b: nat, c: nat, n: nat)
    requires NotLeftRecursive(g) && Derives(g, x, w, b, c, n) && y in AfterByte(g, w, b, c)
    ensures y in Outs(g, x, b, c)
    decreases n
  {
    if n > 0 {
      var z :| z in Children(g, x, b, c) && Derives(g, z, w, b, c, n - 1);
      ReadsAreOuts(g, z, w, y, b, c, n - 1);
      ChildOuts(g, x, z, y, b, c);
    } else {
      OwnOuts(g, x, y, b, c);
    }
  }

  /** The configurations that those of s become by reading byte b at position c. */
  ghost function Advance(g: Grammar, s: set<Config>, b: nat, c: nat): set<Config>
    requires NotLeftRecursive(g)
  {
    set x, y | x in s && y in Outs(g, x, b, c) :: y
  }

  const START := Config([NonTerm(0)], [], [], 0, 0)

  /** The configurations reachable by leftmost derivations that read the first k bytes. */
  ghost function Reach(g: Grammar, input: seq<nat>, k: nat): set<Config>
    requires NotLeftRecursive(g) && k <= |input|
  {
    if k == 0 then {START}
    else Advance(g, Reach(g, input, k - 1), input[k - 1], k - 1)
  }

  lemma ReachNext(g: Grammar, input: seq<nat>, j: nat, k: nat)
    requires NotLeftRecursive(g) && j < |input| && k == j + 1
    ensures Reach(g, input, k) == Advance(g, Reach(g, input, j), input[j], j)
  {
  }

  /** eqlist: the same stacks; the path and the package length being read are not compared. */
  predicate SameLists(x: Config, y: Config) {
    x.buf == y.buf && x.limits == y.limits
  }

  /** How many rounds the parser's loop spends on x and what x becomes silently. */
  ghost function Work(g: Grammar, x: Config, b: nat, c: nat): nat
    requires NotLeftRecursive(g)
    decreases Measure(g, x.buf), 1, 0
  {
    ChildrenSmaller(g, x, b, c);
    1 + WorkBelow(g, Children(g, x, b, c), b, c, Measure(g, x.buf))
  }

  ghost function WorkBelow(g: Grammar, s: seq<Config>, b: nat, c: nat, m: nat): nat
    requires NotLeftRecursive(g) && forall y :: y in s ==> Measure(g, y.buf) < m
    decreases m, 0, |s|
  {
    if s == [] then 0 else Work(g, s[0], b, c) + WorkBelow(g, s[1..], b, c, m)
  }

  ghost function TotalWork(g: Grammar, s: seq<Config>, b: nat, c: nat): nat
    requires NotLeftRecursive(g)
  {
    if s == [] then 0 else Work(g, s[0], b, c) + TotalWork(g, s[1..], b, c)
  }

  lemma WorkBelowIsTotal(g: Grammar, s: seq<Config>, b: nat, c: nat, m: nat)
    requires NotLeftRecursive(g) && forall y :: y in s ==> Measure(g, y.buf) < m
    ensures WorkBelow(g, s, b, c, m) == TotalWork(g, s, b, c)
  {
  }
}
