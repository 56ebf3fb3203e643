/** The path lists of core/acpi_dsdt.c and the markers that drop them: they are book-keeping, which never fails and
    changes nothing of what is parsed. */
module Markers {
  import opened Grammar
  import opened ParseRounds

  lemma PlainAlternative(g: Grammar, n: nat, a: seq<Sym>)
    requires AlternativeOk(g, n, a)
    ensures AlternativeOk(g.(marks := false), n, a)
  {
    forall i | 0 <= i <= |a| ensures AllNullable(g.(marks := false), a[..i]) == AllNullable(g, a[..i]) {
      forall j | 0 <= j < i ensures Nullable(g.(marks := false), a[j]) == Nullable(g, a[j]) {
      }
    }
    assert a[..|a|] == a;
  }

  lemma PlainOk(g: Grammar)
    ensures NotLeftRecursive(g) ==> NotLeftRecursive(g.(marks := false))
  {
    forall n, b, k | NotLeftRecursive(g) && 0 <= k < |g.expand(n, b)|
      ensures AlternativeOk(g.(marks := false), n, g.expand(n, b)[k])
    {
      assert AlternativeOk(g, n, g.expand(n, b)[k]);
      PlainAlternative(g, n, g.expand(n, b)[k]);
    }
  }

  /** The grammar alone, without a path. */
  function Plain(g: Grammar): (p: Grammar)
    ensures NotLeftRecursive(g) ==> NotLeftRecursive(p)
  {
    PlainOk(g);
    g.(marks := false)
  }

  /** A stack without its markers, ... */
  function Unmarked(buf: seq<Sym>): (r: seq<Sym>)
    ensures Ok !in r
  {
    if buf == [] then [] else (if buf[0] == Ok then [] else [buf[0]]) + Unmarked(buf[1..])
  }

  /** ... and a configuration without markers and path. */
  function Bare(x: Config): Config {
    x.(buf := Unmarked(x.buf), path := [])
  }

  function Count(buf: seq<Sym>): nat {
    if buf == [] then 0 else (if buf[0] == Ok then 1 else 0) + Count(buf[1..])
  }

  /** There is a marker for every element of the path. */
  predicate Marked(x: Config) {
    Count(x.buf) == |x.path|
  }

  ghost predicate AllMarked(s: set<Config>) {
    forall x :: x in s ==> Marked(x)
  }

  ghost function BareSet(s: set<Config>): set<Config> {
    set x | x in s :: Bare(x)
  }

  lemma {:induction false} AppendUnmarked(a: seq<Sym>, rest: seq<Sym>)
    requires Ok !in a
    ensures Unmarked(a + rest) == a + Unmarked(rest) && Count(a + rest) == Count(rest)
  {
    if a == [] {
      assert a + rest == rest;
    } else {
      var t := a[1..];
      AppendUnmarked(t, rest);
      PushUnmarked(a[0], t + rest);
      assert a + rest == [a[0]] + (t + rest) && a == [a[0]] + t;
    }
  }

  lemma PushUnmarked(s: Sym, rest: seq<Sym>)
    requires s != Ok
    ensures Unmarked([s] + rest) == [s] + Unmarked(rest) && Count([s] + rest) == Count(rest)
  {
    assert ([s] + rest)[1..] == rest;
  }

  /** A marker more or less makes no difference to the bare configuration. */
  lemma EnterBare(g: Grammar, rest: Config, n: nat, a: seq<Sym>)
    requires Marked(rest) && Ok !in a
    ensures var below := Enter(g, rest, n); var x := below.(buf := a + below.buf);
      Marked(x) && Bare(x) == Bare(rest).(buf := a + Unmarked(rest.buf))
  {
    var below := Enter(g, rest, n);
    assert ([Ok] + rest.buf)[1..] == rest.buf;
    AppendUnmarked(a, below.buf);
  }

  /** A nonterminal has the same alternatives with and without markers. */
  lemma ExpandBare(g: Grammar, x: Config, b: nat, c: nat)
    requires NotLeftRecursive(g) && Marked(x) && x.buf != [] && x.buf[0].NonTerm?
    ensures AllBare(Children(g, x, b, c), Children(Plain(g), Bare(x), b, c))
  {
    var rest, n := x.(buf := x.buf[1..]), x.buf[0].id;
    assert Unmarked(x.buf) == [x.buf[0]] + Unmarked(rest.buf) && Unmarked(x.buf)[1..] == Unmarked(rest.buf);
    forall i | 0 <= i < |g.expand(n, b)|
      ensures Marked(Children(g, x, b, c)[i])
      ensures Bare(Children(g, x, b, c)[i]) == Children(Plain(g), Bare(x), b, c)[i]
    {
      assert AlternativeOk(g, n, g.expand(n, b)[i]);
      EnterBare(g, rest, n, g.expand(n, b)[i]);
    }
  }

  /** The configurations of t are those of s without markers. */
  ghost predicate AllBare(s: seq<Config>, t: seq<Config>) {
    |s| == |t| && forall i :: 0 <= i < |s| ==> Marked(s[i]) && Bare(s[i]) == t[i]
  }

  /** Any other element than a marker does the same with and without markers, ... */
  lemma ChildrenBare(g: Grammar, x: Config, b: nat, c: nat)
    requires NotLeftRecursive(g) && Marked(x) && (x.buf == [] || x.buf[0] != Ok)
    ensures AllBare(Children(g, x, b, c), Children(Plain(g), Bare(x), b, c))
  {
    if x.buf != [] {
      if x.buf[0].NonTerm? {
        ExpandBare(g, x, b, c);
      } else {
        assert Unmarked(x.buf)[1..] == Unmarked(x.buf[1..]);
      }
    }
  }

  lemma AfterByteBare(g: Grammar, x: Config, b: nat, c: nat)
    requires Marked(x) && (x.buf == [] || x.buf[0] != Ok)
    ensures AllBare(AfterByte(g, x, b, c), AfterByte(Plain(g), Bare(x), b, c))
  {
    if x.buf != [] {
      assert Unmarked(x.buf)[1..] == Unmarked(x.buf[1..]);
    }
  }

  /** ... and a marker only drops the head of the path. */
  lemma MarkerStep(g: Grammar, x: Config, b: nat, c: nat)
    requires Marked(x) && x.buf != [] && x.buf[0] == Ok
    ensures var y := x.(buf := x.buf[1..], path := x.path[1..]);
      Children(g, x, b, c) == [y] && Marked(y) && Bare(y) == Bare(x) && AfterByte(g, x, b, c) == []
  {
  }

  lemma ChildMarked(g: Grammar, x: Config, z: Config, b: nat, c: nat)
    requires NotLeftRecursive(g) && Marked(x) && z in Children(g, x, b, c)
    ensures Marked(z)
    ensures Bare(z) == Bare(x) || Bare(z) in Children(Plain(g), Bare(x), b, c)
  {
    if x.buf[0] == Ok {
      MarkerStep(g, x, b, c);
    } else {
      ChildrenBare(g, x, b, c);
      var i :| 0 <= i < |Children(g, x, b, c)| && Children(g, x, b, c)[i] == z;
    }
  }

  /** What follows silently with markers, follows without. */
  lemma {:induction false} DerivesBare(g: Grammar, x: Config, z: Config, b: nat, c: nat, n: nat) returns (m: nat)
    requires NotLeftRecursive(g) && Marked(x) && Derives(g, x, z, b, c, n)
    ensures Marked(z) && Derives(Plain(g), Bare(x), Bare(z), b, c, m)
    decreases n
  {
    if n == 0 {
      m := 0;
    } else {
      var l := n - 1;
      var y :| y in Children(g, x, b, c) && Derives(g, y, z, b, c, l);
      ChildMarked(g, x, y, b, c);
      var k := DerivesBare(g, y, z, b, c, l);
      m := k;
      if Bare(y) != Bare(x) {
        m := k + 1;
        MoreSteps(Plain(g), Bare(x), Bare(y), Bare(z), b, c, k, m);
      }
    }
  }

  /** The child that becomes v without its markers. */
  lemma ChildFor(g: Grammar, x: Config, v: Config, b: nat, c: nat) returns (y: Config)
    requires NotLeftRecursive(g) && Marked(x) && (x.buf == [] || x.buf[0] != Ok)
    requires v in Children(Plain(g), Bare(x), b, c)
    ensures y in Children(g, x, b, c) && Marked(y) && Bare(y) == v && Measure(g, y.buf) < Measure(g, x.buf)
  {
    ChildrenBare(g, x, b, c);
    ChildrenSmaller(g, x, b, c);
    var i :| 0 <= i < |Children(Plain(g), Bare(x), b, c)| && Children(Plain(g), Bare(x), b, c)[i] == v;
    y := Children(g, x, b, c)[i];
  }

  lemma DropMarker(g: Grammar, x: Config, b: nat, c: nat) returns (y: Config)
    requires NotLeftRecursive(g) && Marked(x) && x.buf != [] && x.buf[0] == Ok
    ensures y in Children(g, x, b, c) && Marked(y) && Bare(y) == Bare(x) && Measure(g, y.buf) < Measure(g, x.buf)
  {
    MarkerStep(g, x, b, c);
    ChildrenSmaller(g, x, b, c);
    y := Children(g, x, b, c)[0];
  }

  lemma ElementStep(g: Grammar, x: Config, w: Config, b: nat, c: nat, n: nat, l: nat) returns (y: Config)
    requires NotLeftRecursive(g) && Marked(x) && (x.buf == [] || x.buf[0] != Ok)
    requires Derives(Plain(g), Bare(x), w, b, c, n) && n == l + 1
    ensures y in Children(g, x, b, c) && Marked(y) && Measure(g, y.buf) < Measure(g, x.buf)
    ensures Derives(Plain(g), Bare(y), w, b, c, l)
  {
    var v := FirstStep(Plain(g), Bare(x), w, b, c, n, l);
    y := ChildFor(g, x, v, b, c);
  }

  /** What follows silently without markers, follows with them, up to a configuration with no marker on top. */
  lemma {:induction false} DerivesMarked(g: Grammar, x: Config, w: Config, b: nat, c: nat, n: nat)
    returns (z: Config, m: nat)
    requires NotLeftRecursive(g) && Marked(x) && Derives(Plain(g), Bare(x), w, b, c, n)
    ensures Derives(g, x, z, b, c, m) && Marked(z) && Bare(z) == w && (z.buf == [] || z.buf[0] != Ok)
    decreases Measure(g, x.buf), 1
  {
    if n == 0 && (x.buf == [] || x.buf[0] != Ok) {
      z, m := x, 0;
    } else if n == 0 || (x.buf != [] && x.buf[0] == Ok) {
      z, m := ViaMarker(g, x, w, b, c, n);
    } else {
      z, m := ViaElement(g, x, w, b, c, n);
    }
  }

  lemma {:induction false} ViaMarker(g: Grammar, x: Config, w: Config, b: nat, c: nat, n: nat)
    returns (z: Config, m: nat)
    requires NotLeftRecursive(g) && Marked(x) && Derives(Plain(g), Bare(x), w, b, c, n) && x.buf != [] && x.buf[0] == Ok
    ensures Derives(g, x, z, b, c, m) && Marked(z) && Bare(z) == w && (z.buf == [] || z.buf[0] != Ok)
    decreases Measure(g, x.buf), 0
  {
    var y := DropMarker(g, x, b, c);
    var l: nat;
    z, l := DerivesMarked(g, y, w, b, c, n);
    m := l + 1;
    MoreSteps(g, x, y, z, b, c, l, m);
  }

  lemma {:induction false} ViaElement(g: Grammar, x: Config, w: Config, b: nat, c: nat, n: nat)
    returns (z: Config, m: nat)
    requires NotLeftRecursive(g) && Marked(x) && (x.buf == [] || x.buf[0] != Ok)
    requires Derives(Plain(g), Bare(x), w, b, c, n) && n > 0
    ensures Derives(g, x, z, b, c, m) && Marked(z) && Bare(z) == w && (z.buf == [] || z.buf[0] != Ok)
    decreases Measure(g, x.buf), 0
  {
    var k := n - 1;
    var l: nat;
    var y := ElementStep(g, x, w, b, c, n, k);
    z, l := DerivesMarked(g, y, w, b, c, k);
    m := l + 1;
    MoreSteps(g, x, y, z, b, c, l, m);
  }

  /** Whatever is read with markers is read without, ... */
  lemma OutsBare(g: Grammar, x: Config, y: Config, b: nat, c: nat)
    requires NotLeftRecursive(g) && Marked(x) && y in Outs(g, x, b, c)
    ensures Marked(y) && Bare(y) in Outs(Plain(g), Bare(x), b, c)
  {
    OutsAreReads(g, x, y, b, c);
    var z, n: nat :| Derives(g, x, z, b, c, n) && y in AfterByte(g, z, b, c);
    var m := DerivesBare(g, x, z, b, c, n);
    AfterByteBare(g, z, b, c);
    assert Bare(y) in AfterByte(Plain(g), Bare(z), b, c);
    ReadsAreOuts(Plain(g), Bare(x), Bare(z), Bare(y), b, c, m);
  }

  lemma ByteFor(g: Grammar, z: Config, w: Config, b: nat, c: nat) returns (y: Config)
    requires Marked(z) && (z.buf == [] || z.buf[0] != Ok) && w in AfterByte(Plain(g), Bare(z), b, c)
    ensures y in AfterByte(g, z, b, c) && Marked(y) && Bare(y) == w
  {
    AfterByteBare(g, z, b, c);
    var i :| 0 <= i < |AfterByte(g, z, b, c)| && AfterByte(Plain(g), Bare(z), b, c)[i] == w;
    y := AfterByte(g, z, b, c)[i];
  }

  /** ... and whatever is read without is read with them. */
  lemma OutsMarked(g: Grammar, x: Config, w: Config, b: nat, c: nat) returns (y: Config)
    requires NotLeftRecursive(g) && Marked(x) && w in Outs(Plain(g), Bare(x), b, c)
    ensures y in Outs(g, x, b, c) && Marked(y) && Bare(y) == w
  {
    OutsAreReads(Plain(g), Bare(x), w, b, c);
    var v, n: nat :| Derives(Plain(g), Bare(x), v, b, c, n) && w in AfterByte(Plain(g), v, b, c);
    var z, m := DerivesMarked(g, x, v, b, c, n);
    y := ByteFor(g, z, w, b, c);
    ReadsAreOuts(g, x, z, y, b, c, m);
  }

  /** Sets of configurations read the same bytes. */
  lemma AdvanceBare(g: Grammar, s: set<Config>, b: nat, c: nat)
    requires NotLeftRecursive(g) && AllMarked(s)
    ensures AllMarked(Advance(g, s, b, c))
    ensures BareSet(Advance(g, s, b, c)) == Advance(Plain(g), BareSet(s), b, c)
  {
    var t, r := Advance(g, s, b, c), Advance(Plain(g), BareSet(s), b, c);
    forall y | y in t ensures Marked(y) && Bare(y) in r {
      var x :| x in s && y in Outs(g, x, b, c);
      OutsBare(g, x, y, b, c);
      assert Bare(x) in BareSet(s);
    }
    forall w | w in r ensures w in BareSet(t) {
      var v :| v in BareSet(s) && w in Outs(Plain(g), v, b, c);
      var x :| x in s && Bare(x) == v;
      var y := OutsMarked(g, x, w, b, c);
      assert y in t;
    }
  }

  lemma StartBare()
    ensures Marked(START) && Bare(START) == START && BareSet({START}) == {START}
  {
    assert START.buf[1..] == [] && Unmarked(START.buf) == START.buf;
  }

  /** With or without path lists the parser reaches the same stacks, and every marker has its element of the path. */
  lemma {:induction false} ReachBare(g: Grammar, input: seq<nat>, k: nat)
    requires NotLeftRecursive(g) && k <= |input|
    ensures AllMarked(Reach(g, input, k)) && BareSet(Reach(g, input, k)) == Reach(Plain(g), input, k)
    decreases k
  {
    if k == 0 {
      StartBare();
    } else {
      var j := k - 1;
      ReachBare(g, input, j);
      AdvanceBare(g, Reach(g, input, j), input[j], j);
      ReachNext(g, input, j, k);
      ReachNext(Plain(g), input, j, k);
    }
  }

  /** The error of an empty path cannot happen. */
  lemma NoPathUnderflow(g: Grammar, input: seq<nat>, k: nat, z: Config)
    requires NotLeftRecursive(g) && k < |input| && From(g, Reach(g, input, k), z, input[k], k)
    ensures !PathUnderflow(z)
  {
    ReachBare(g, input, k);
    var x, n: nat :| x in Reach(g, input, k) && Derives(g, x, z, input[k], k, n);
    var m := DerivesBare(g, x, z, input[k], k, n);
  }

  lemma MissingMarked(g: Grammar, s: set<Config>, b: nat, c: nat)
    requires NotLeftRecursive(g) && AllMarked(s) && EndMissing(Plain(g), BareSet(s), b, c)
    ensures EndMissing(g, s, b, c)
  {
    var w :| From(Plain(g), BareSet(s), w, b, c) && Underflow(w);
    var v, n: nat :| v in BareSet(s) && Derives(Plain(g), v, w, b, c, n);
    var x :| x in s && Bare(x) == v;
    var z, m := DerivesMarked(g, x, w, b, c, n);
    assert From(g, s, z, b, c) && z.buf[0] == w.buf[0];
  }

  /** A package end is missing with markers iff it is without. */
  lemma MissingBare(g: Grammar, s: set<Config>, b: nat, c: nat)
    requires NotLeftRecursive(g) && AllMarked(s)
    ensures EndMissing(g, s, b, c) <==> EndMissing(Plain(g), BareSet(s), b, c)
  {
    if EndMissing(g, s, b, c) {
      var z :| From(g, s, z, b, c) && Underflow(z);
      var x, n: nat :| x in s && Derives(g, x, z, b, c, n);
      var m := DerivesBare(g, x, z, b, c, n);
      assert Bare(x) in BareSet(s) && From(Plain(g), BareSet(s), Bare(z), b, c);
    }
    if EndMissing(Plain(g), BareSet(s), b, c) {
      MissingMarked(g, s, b, c);
    }
  }
}
