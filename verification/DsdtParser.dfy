/** parsemain and parser of core/acpi_dsdt.c: a set of configurations, whose stacks are reference-counted lists with
    shared nodes, is moved over the input one byte at a time. */
module DsdtParser {
  import opened Wrappers
  import opened Grammar
  import opened ParseRounds
  import opened Readings
  import opened Derivations
  import opened RefLists

  /** The package length of a configuration: where its first byte was, and its value. */
  datatype Length = Length(at: nat, value: nat)

  /** What follows a turn: goto loop2 with the same configuration, goto loop without it, or an error. */
  datatype Step = Continue | Drop | Fail

  /** The result of parsemain: a configuration, NULL, or an error that stops the program. */
  datatype Found = Configuration(r: nat) | Null | Error

  predicate Below(ids: seq<nat>, n: nat) {
    forall k :: 0 <= k < |ids| ==> ids[k] < n
  }

  /** The configurations with these numbers. */
  ghost function Pick(views: seq<Config>, ids: seq<nat>): (r: seq<Config>)
    requires Below(ids, |views|)
    ensures |r| == |ids| && forall k :: 0 <= k < |ids| ==> r[k] == views[ids[k]]
  {
    seq(|ids|, k requires 0 <= k < |ids| => views[ids[k]])
  }

  lemma StartPicked()
    ensures Below([0], 1) && Pick([START], [0]) == [START] && Held({0}, [0], [], multiset{})
  {
    assert multiset([0]) == multiset{0} && multiset({0}) == multiset{0};
  }

  /** Every allocated configuration is in one place only: waiting, kept, or the current one. */
  ghost predicate Held(live: set<nat>, head: seq<nat>, ok: seq<nat>, cur: multiset<nat>) {
    multiset(live) == multiset(head) + multiset(ok) + cur
  }

  lemma HeldLive(live: set<nat>, head: seq<nat>, ok: seq<nat>, cur: multiset<nat>)
    requires Held(live, head, ok, cur)
    ensures forall k :: 0 <= k < |head| ==> head[k] in live && head[k] !in cur
    ensures forall k :: 0 <= k < |ok| ==> ok[k] in live && ok[k] !in cur
    ensures forall i :: i in cur ==> i in live
  {
    forall k | 0 <= k < |head| ensures head[k] in live && head[k] !in cur {
      assert head[k] in multiset(head);
      assert multiset(live)[head[k]] == multiset(head)[head[k]] + multiset(ok)[head[k]] + cur[head[k]];
    }
    forall k | 0 <= k < |ok| ensures ok[k] in live && ok[k] !in cur {
      assert ok[k] in multiset(ok);
      assert multiset(live)[ok[k]] == multiset(head)[ok[k]] + multiset(ok)[ok[k]] + cur[ok[k]];
    }
    forall i | i in cur ensures i in live {
      assert multiset(live)[i] == multiset(head)[i] + multiset(ok)[i] + cur[i];
    }
  }

  lemma PickKept(views: seq<Config>, views': seq<Config>, ids: seq<nat>)
    requires Below(ids, |views|) && Below(ids, |views'|)
    requires forall k :: 0 <= k < |ids| ==> views'[ids[k]] == views[ids[k]]
    ensures Pick(views', ids) == Pick(views, ids)
  {
  }

  ghost predicate Extends(views: seq<Config>, views': seq<Config>) {
    |views| <= |views'| && forall j :: 0 <= j < |views| ==> views'[j] == views[j]
  }

  lemma PickMore(views: seq<Config>, ids: seq<nat>, k: nat, y: Config, views': seq<Config>)
    requires Below(ids, |views|) && k == |views| && views' == views + [y]
    ensures Below([k] + ids, |views'|) && Extends(views, views')
    ensures Pick(views', [k] + ids) == [y] + Pick(views, ids)
  {
  }

  lemma PickKeep(views: seq<Config>, ids: seq<nat>, i: nat)
    requires Below(ids, |views|) && i < |views| && !HasLists(Pick(views, ids), views[i])
    ensures Below([i] + ids, |views|) && Pick(views, [i] + ids) == Keep(Pick(views, ids), [views[i]])
  {
  }

  lemma ReversePush(children: seq<Config>, k: nat, waiting: seq<Config>)
    requires k < |children|
    ensures Reverse(children[..k + 1]) + waiting == [children[k]] + (Reverse(children[..k]) + waiting)
  {
    assert children[..k + 1] == children[..k] + [children[k]];
    ReverseSnoc(children[..k], children[k]);
  }

  lemma HeldMore(live: set<nat>, head: seq<nat>, ok: seq<nat>, cur: multiset<nat>, n: nat)
    requires Held(live, head, ok, cur) && n !in live
    ensures Held(live + {n}, [n] + head, ok, cur)
  {
    assert multiset(live + {n}) == multiset(live) + multiset{n};
    assert multiset([n] + head) == multiset{n} + multiset(head);
  }

  lemma HeldKeep(live: set<nat>, head: seq<nat>, ok: seq<nat>, i: nat)
    requires Held(live, head, ok, multiset{i})
    ensures Held(live, head, [i] + ok, multiset{})
  {
    assert multiset([i] + ok) == multiset{i} + multiset(ok);
  }

  lemma HeldLess(live: set<nat>, head: seq<nat>, ok: seq<nat>, i: nat)
    requires Held(live, head, ok, multiset{i})
    ensures Held(live - {i}, head, ok, multiset{})
  {
    HeldLive(live, head, ok, multiset{i});
    assert multiset(live - {i}) == multiset(live) - multiset{i};
  }

  lemma HeldTake(live: set<nat>, head: seq<nat>, ok: seq<nat>)
    requires Held(live, head, ok, multiset{}) && head != []
    ensures Held(live, head[1..], ok, multiset{head[0]})
  {
    assert head == [head[0]] + head[1..];
  }

  lemma HeldDrop(live: set<nat>, head: seq<nat>, ok: seq<nat>, cur: multiset<nat>)
    requires Held(live, head, ok, cur) && head != []
    ensures Held(live - {head[0]}, head[1..], ok, cur)
  {
    assert head == [head[0]] + head[1..];
    HeldLive(live, head, ok, cur);
    assert multiset(live - {head[0]}) == multiset(live) - multiset{head[0]};
  }

  lemma HeldOnly(live: set<nat>, cur: multiset<nat>)
    requires Held(live, [], [], cur)
    ensures forall i :: i in live <==> i in cur
  {
    assert multiset(live) == cur;
    assert forall i :: i in live <==> i in multiset(live);
  }

  lemma NextKept(g: Grammar, input: seq<nat>, k: nat, head: seq<Config>, l: nat)
    requires NotLeftRecursive(g) && k < |input| && l == k + 1 && KeptBy(g, input, k) == Some(head)
    ensures KeptBy(g, input, l) == Rounds(g, head, [], input[k], k)
    ensures KeptBy(g, input, l) == None ==> Answer(g, input) == LimitUnderflow
  {
    KeptEnds(g, input, l, |input|);
  }

  /** What one turn with element makes of a configuration with the stack below it, unless it goes on with it. */
  ghost predicate Acted(g: Grammar, element: Sym, rest: Config, waiting: seq<Config>, kept: seq<Config>,
                        waiting': seq<Config>, kept': seq<Config>, b: nat, c: nat)
  {
    if IsSilent(element) then
      SilentStep(element, rest, c) == [] && !Fails(element, rest) && waiting' == waiting && kept' == kept
    else if element.NonTerm? then
      waiting' == Reverse(Alternatives(Enter(g, rest, element.id), g.expand(element.id, b))) + waiting && kept' == kept
    else
      waiting' == waiting && kept' == Keep(kept, AfterByte(g, rest.(buf := [element] + rest.buf), b, c))
  }

  ghost predicate OneRound(g: Grammar, x: Config, waiting: seq<Config>, kept: seq<Config>, waiting': seq<Config>,
                           kept': seq<Config>, b: nat, c: nat)
  {
    if x.buf == [] then waiting' == waiting && kept' == kept
    else Acted(g, x.buf[0], x.(buf := x.buf[1..]), waiting, kept, waiting', kept', b, c)
  }

  lemma RoundDone(g: Grammar, x: Config, waiting: seq<Config>, kept: seq<Config>, waiting': seq<Config>,
                  kept': seq<Config>, b: nat, c: nat)
    requires NotLeftRecursive(g) && OneRound(g, x, waiting, kept, waiting', kept', b, c)
    ensures Rounds(g, [x] + waiting, kept, b, c) == Rounds(g, waiting', kept', b, c)
    ensures TotalWork(g, waiting', b, c) < TotalWork(g, [x] + waiting, b, c)
  {
    if x.buf != [] && IsSilent(x.buf[0]) {
      RoundDies(g, x, waiting, kept, b, c);
    } else if x.buf != [] && x.buf[0].NonTerm? {
      RoundExpands(g, x, waiting, kept, b, c);
    } else {
      assert x.buf != [] ==> x == x.(buf := [x.buf[0]] + x.buf[1..]);
      RoundReads(g, x, waiting, kept, b, c);
    }
  }

  /** views[i] is what the lists of configuration i hold. */
  ghost predicate ShowsAt(views: seq<Config>, bufs: seq<seq<Sym>>, ends: seq<seq<nat>>, paths: seq<seq<nat>>,
                          lens: seq<Length>, i: nat)
    requires i < |views| == |lens| == |bufs| == |ends| == |paths|
  {
    views[i] == Config(bufs[i], ends[i], paths[i], lens[i].at, lens[i].value)
  }

  ghost predicate Shown(views: seq<Config>, bufs: seq<seq<Sym>>, ends: seq<seq<nat>>, paths: seq<seq<nat>>,
                        lens: seq<Length>)
  {
    && |views| == |lens| == |bufs| == |ends| == |paths|
    && forall i :: 0 <= i < |views| ==> ShowsAt(views, bufs, ends, paths, lens, i)
  }

  /** What is not allocated has no lists. */
  ghost predicate ClearedAt(views: seq<Config>, live: set<nat>, i: nat)
    requires i < |views|
  {
    i in live || (views[i].buf == [] && views[i].limits == [] && views[i].path == [])
  }

  ghost predicate Cleared(views: seq<Config>, live: set<nat>) {
    && (forall i :: i in live ==> i < |views|)
    && (forall i :: 0 <= i < |views| ==> ClearedAt(views, live, i))
  }

  /** The books after one configuration has changed, ... */
  lemma ShownSet(views: seq<Config>, bufs: seq<seq<Sym>>, ends: seq<seq<nat>>, paths: seq<seq<nat>>, lens: seq<Length>,
                 live: set<nat>, i: nat, x: Config)
    requires Shown(views, bufs, ends, paths, lens) && Cleared(views, live) && i in live
    ensures Shown(views[i := x], bufs[i := x.buf], ends[i := x.limits], paths[i := x.path],
                  lens[i := Length(x.lenAt, x.len)])
    ensures Cleared(views[i := x], live)
  {
    var views', bufs', ends' := views[i := x], bufs[i := x.buf], ends[i := x.limits];
    var paths', lens' := paths[i := x.path], lens[i := Length(x.lenAt, x.len)];
    forall j | 0 <= j < |views'| ensures ShowsAt(views', bufs', ends', paths', lens', j) {
      assert ShowsAt(views, bufs, ends, paths, lens, j);
    }
    forall j | 0 <= j < |views'| ensures ClearedAt(views', live, j) {
      assert ClearedAt(views, live, j);
    }
  }

  /** ... in one of its lists, ... */
  lemma ShownPart(views: seq<Config>, bufs: seq<seq<Sym>>, ends: seq<seq<nat>>, paths: seq<seq<nat>>, lens: seq<Length>,
                  live: set<nat>, i: nat, x: Config)
    requires Shown(views, bufs, ends, paths, lens) && Cleared(views, live) && i in live
    ensures x == views[i].(buf := x.buf) ==> Shown(views[i := x], bufs[i := x.buf], ends, paths, lens)
    ensures x == views[i].(limits := x.limits) ==> Shown(views[i := x], bufs, ends[i := x.limits], paths, lens)
    ensures x == views[i].(path := x.path) ==> Shown(views[i := x], bufs, ends, paths[i := x.path], lens)
    ensures x == views[i].(lenAt := x.lenAt, len := x.len) ==>
      Shown(views[i := x], bufs, ends, paths, lens[i := Length(x.lenAt, x.len)])
    ensures Cleared(views[i := x], live)
  {
    ShownSet(views, bufs, ends, paths, lens, live, i, x);
    assert ShowsAt(views, bufs, ends, paths, lens, i);
    assert x.buf == views[i].buf ==> bufs[i := x.buf] == bufs;
    assert x.limits == views[i].limits ==> ends[i := x.limits] == ends;
    assert x.path == views[i].path ==> paths[i := x.path] == paths;
    assert x.lenAt == views[i].lenAt && x.len == views[i].len ==> lens[i := Length(x.lenAt, x.len)] == lens;
  }

  /** ... has been freed, or copied. */
  lemma ShownFreed(views: seq<Config>, bufs: seq<seq<Sym>>, ends: seq<seq<nat>>, paths: seq<seq<nat>>,
                   lens: seq<Length>, live: set<nat>, i: nat)
    requires Shown(views, bufs, ends, paths, lens) && Cleared(views, live) && i in live
    ensures var x := Config([], [], [], lens[i].at, lens[i].value);
      && Shown(views[i := x], bufs[i := []], ends[i := []], paths[i := []], lens)
      && Cleared(views[i := x], live - {i})
  {
    var x := Config([], [], [], lens[i].at, lens[i].value);
    ShownSet(views, bufs, ends, paths, lens, live, i, x);
    assert lens[i := Length(x.lenAt, x.len)] == lens;
    var views', live' := views[i := x], live - {i};
    forall j | 0 <= j < |views'| ensures ClearedAt(views', live', j) {
      assert ClearedAt(views', live, j);
    }
  }

  lemma ShownCopied(views: seq<Config>, bufs: seq<seq<Sym>>, ends: seq<seq<nat>>, paths: seq<seq<nat>>,
                    lens: seq<Length>, live: set<nat>, i: nat)
    requires Shown(views, bufs, ends, paths, lens) && Cleared(views, live) && i in live
    ensures Shown(views + [views[i]], bufs + [bufs[i]], ends + [ends[i]], paths + [paths[i]], lens + [lens[i]])
    ensures Cleared(views + [views[i]], live + {|views|})
  {
    forall j | 0 <= j <= |views|
      ensures ShowsAt(views + [views[i]], bufs + [bufs[i]], ends + [ends[i]], paths + [paths[i]], lens + [lens[i]], j)
      ensures ClearedAt(views + [views[i]], live + {|views|}, j)
    {
      var k := if j < |views| then j else i;
      assert ShowsAt(views, bufs, ends, paths, lens, k) && ClearedAt(views, live, k);
    }
  }

  /** An empty list. */
  method EmptyList() returns (store: Store<nat>)
    ensures fresh(store) && store.Valid() && store.lists == [[]]
  {
    store := new Store<nat>();
    var i := store.Open();
  }

  /** addbuflist for the start symbol. */
  method StartList() returns (bufs: Store<Sym>)
    ensures fresh(bufs) && bufs.Valid() && bufs.lists == [START.buf]
  {
    bufs := new Store<Sym>();
    var i := bufs.Open();
    bufs.Push(i, NonTerm(0));
    assert [NonTerm(0)] + [] == START.buf;
  }

  method StartLists() returns (bufs: Store<Sym>, ends: Store<nat>, paths: Store<nat>)
    ensures fresh(bufs) && fresh(ends) && fresh(paths) && Apart(bufs, ends, paths)
    ensures bufs.Valid() && ends.Valid() && paths.Valid()
    ensures bufs.lists == [START.buf] && ends.lists == [[]] && paths.lists == [[]]
  {
    ends := EmptyList();
    paths := EmptyList();
    bufs := StartList();
  }

  ghost predicate Apart(bufs: Store<Sym>, ends: Store<nat>, paths: Store<nat>) {
    (bufs as object) != (ends as object) && (bufs as object) != (paths as object) && ends != paths
  }

  /** The answer, by the derivations of the grammar. */
  lemma AnswerIs(g: Grammar, input: seq<nat>)
    requires NotLeftRecursive(g)
    ensures Answer(g, input).Accepted? ==> Derivable(g, input)
    ensures Answer(g, input).LimitUnderflow? ==> LeavesNone(g, input)
    ensures LengthsFirst(g) && LengthsDetermined(g, input) ==>
      && (Answer(g, input).LimitUnderflow? <==> LeavesNone(g, input))
      && (Answer(g, input).NoParse? ==> !Derivable(g, input))
  {
    RunSound(g, input);
    if LengthsFirst(g) && LengthsDetermined(g, input) {
      RunVerdict(g, input);
    }
  }

  class ParseData {
    const g: Grammar
    const input: seq<nat>
    var c: nat
    /** The stacks of elements and of package ends, and the paths; a configuration has the same number in each. */
    const bufs: Store<Sym>
    const ends: Store<nat>
    const paths: Store<nat>
    var lens: seq<Length>
    /** The configurations that are allocated. */
    var live: set<nat>
    var head: seq<nat>
    var ok: seq<nat>
    ghost var views: seq<Config>

    ghost predicate Valid()
      reads `lens, `live, `views, bufs, ends, paths
    {
      && g.marks && bufs.Valid() && ends.Valid() && paths.Valid() && Apart(bufs, ends, paths)
      && Shown(views, bufs.lists, ends.lists, paths.lists, lens)
      && Cleared(views, live)
    }

    /** As parser() prepares it: one configuration with the start symbol. */
    constructor (g: Grammar, input: seq<nat>)
      requires g.marks
      ensures this.g == g && this.input == input && c == 0 && ok == []
      ensures Ready(multiset{}) && Pick(views, head) == [START]
      ensures fresh(bufs) && fresh(ends) && fresh(paths)
    {
      var b, e, p := StartLists();
      this.g, this.input, c := g, input, 0;
      bufs, ends, paths, lens, live, head, ok, views := b, e, p, [Length(0, 0)], {0}, [0], [], [START];
      new;
      assert ShowsAt(views, bufs.lists, ends.lists, paths.lists, lens, 0);
      StartPicked();
    }

    /** The pop at loop2. */
    method TakeElement(i: nat) returns (element: Sym)
      requires Valid() && i in live && views[i].buf != []
      modifies `views, bufs
      ensures Valid() && element == old(views[i]).buf[0]
      ensures views == old(views)[i := old(views[i]).(buf := old(views[i]).buf[1..])]
    {
      assert ShowsAt(views, bufs.lists, ends.lists, paths.lists, lens, i);
      ShownPart(views, bufs.lists, ends.lists, paths.lists, lens, live, i, views[i].(buf := views[i].buf[1..]));
      element := bufs.Pop(i);
      views := views[i := views[i].(buf := views[i].buf[1..])];
    }

    /** pushpkgend. */
    method PushPkgEnd(i: nat, end: nat)
      requires Valid() && i in live
      modifies `views, ends
      ensures Valid() && views == old(views)[i := old(views[i]).(limits := [end] + old(views[i]).limits)]
    {
      assert ShowsAt(views, bufs.lists, ends.lists, paths.lists, lens, i);
      ShownPart(views, bufs.lists, ends.lists, paths.lists, lens, live, i,
                views[i].(limits := [end] + views[i].limits));
      ends.Push(i, end);
      views := views[i := views[i].(limits := [end] + views[i].limits)];
    }

    /** poppkgend: None stands for NULL. */
    method PopPkgEnd(i: nat) returns (end: Option<nat>)
      requires Valid() && i in live
      modifies `views, ends
      ensures Valid()
      ensures end == None ==> views == old(views) && views[i].limits == []
      ensures end.Some? ==> old(views[i]).limits != [] && end.value == old(views[i]).limits[0]
      ensures end.Some? ==> views == old(views)[i := old(views[i]).(limits := old(views[i]).limits[1..])]
    {
      assert ShowsAt(views, bufs.lists, ends.lists, paths.lists, lens, i);
      end := ends.Top(i);
      if end.Some? {
        ShownPart(views, bufs.lists, ends.lists, paths.lists, lens, live, i, views[i].(limits := views[i].limits[1..]));
        var e := ends.Pop(i);
        views := views[i := views[i].(limits := views[i].limits[1..])];
      }
    }

    /** poppkgend with pollflag. */
    method PollPkgEnd(i: nat) returns (end: Option<nat>)
      requires Valid() && i in live
      ensures end == if views[i].limits == [] then None else Some(views[i].limits[0])
    {
      assert ShowsAt(views, bufs.lists, ends.lists, paths.lists, lens, i);
      end := ends.Top(i);
    }

    method SetLength(i: nat, length: Length)
      requires Valid() && i in live
      modifies `views, `lens
      ensures Valid() && views == old(views)[i := old(views[i]).(lenAt := length.at, len := length.value)]
    {
      ShownPart(views, bufs.lists, ends.lists, paths.lists, lens, live, i,
                views[i].(lenAt := length.at, len := length.value));
      lens := lens[i := length];
      views := views[i := views[i].(lenAt := length.at, len := length.value)];
    }

    /** The label err, and the end of parser(): a configuration gives up its lists and is freed. */
    method Free(i: nat)
      requires Valid() && i in live
      modifies `views, `live, bufs, ends, paths
      ensures Valid() && live == old(live) - {i} && |views| == |old(views)|
      ensures forall j :: 0 <= j < |views| && j != i ==> views[j] == old(views[j])
    {
      ShownFreed(views, bufs.lists, ends.lists, paths.lists, lens, live, i);
      bufs.Release(i);
      ends.Release(i);
      paths.Release(i);
      live := live - {i};
      views := views[i := Config([], [], [], lens[i].at, lens[i].value)];
    }

    /** addpathlist. */
    method PushPath(i: nat, n: nat)
      requires Valid() && i in live
      modifies `views, paths
      ensures Valid() && views == old(views)[i := old(views[i]).(path := [n] + old(views[i]).path)]
    {
      assert ShowsAt(views, bufs.lists, ends.lists, paths.lists, lens, i);
      ShownPart(views, bufs.lists, ends.lists, paths.lists, lens, live, i, views[i].(path := [n] + views[i].path));
      paths.Push(i, n);
      views := views[i := views[i].(path := [n] + views[i].path)];
    }

    /** The marker OK: None stands for an empty path. */
    method PopPath(i: nat) returns (n: Option<nat>)
      requires Valid() && i in live
      modifies `views, paths
      ensures Valid()
      ensures n == None ==> views == old(views) && views[i].path == []
      ensures n.Some? ==> old(views[i]).path != [] && n.value == old(views[i]).path[0]
      ensures n.Some? ==> views == old(views)[i := old(views[i]).(path := old(views[i]).path[1..])]
    {
      assert ShowsAt(views, bufs.lists, ends.lists, paths.lists, lens, i);
      n := paths.Top(i);
      if n.Some? {
        ShownPart(views, bufs.lists, ends.lists, paths.lists, lens, live, i, views[i].(path := views[i].path[1..]));
        var e := paths.Pop(i);
        views := views[i := views[i].(path := views[i].path[1..])];
      }
    }

    /** The part of addbufsub that records element n in the path. */
    method EnterPath(i: nat, n: nat)
      requires Valid() && i in live
      modifies `views, bufs, paths
      ensures Valid() && views == old(views)[i := Enter(g, old(views[i]), n)]
    {
      assert ShowsAt(views, bufs.lists, ends.lists, paths.lists, lens, i);
      var top := paths.Top(i);
      if top != Some(n) {
        PushPath(i, n);
        AddElement(i, Ok);
      }
    }

    /** addbufsub: a new configuration takes over the lists of the current one, with an alternative of n on top. */
    method AddBuf(i: nat, n: nat, alternative: seq<Sym>)
      requires Valid() && Held(live, head, ok, multiset{i}) && Below(head, |views|) && i < |views|
      modifies `views, `live, `lens, `head, bufs, ends, paths
      ensures Valid() && Held(live, head, ok, multiset{i}) && Below(head, |views|) && Extends(old(views), views)
      ensures var below := Enter(g, old(views[i]), n);
        Pick(views, head) == [below.(buf := alternative + below.buf)] + Pick(old(views), old(head))
    {
      HeldLive(live, head, ok, multiset{i});
      HeldMore(live, head, ok, multiset{i}, |views|);
      var k := NewBuf(i, n, alternative);
      PickMore(old(views), head, k, views[k], views);
      head := [k] + head;
    }

    method NewBuf(i: nat, n: nat, alternative: seq<Sym>) returns (k: nat)
      requires Valid() && i in live
      modifies `views, `live, `lens, bufs, ends, paths
      ensures Valid() && k == |old(views)| && live == old(live) + {k}
      ensures var below := Enter(g, old(views[i]), n); views == old(views) + [below.(buf := alternative + below.buf)]
    {
      k := Copy(i);
      EnterPath(k, n);
      AddElements(k, alternative);
    }

    method AddElements(i: nat, alternative: seq<Sym>)
      requires Valid() && i in live
      modifies `views, bufs
      ensures Valid() && views == old(views)[i := old(views[i]).(buf := alternative + old(views[i]).buf)]
    {
      var n := |alternative|;
      assert alternative[n..] + views[i].buf == views[i].buf;
      while n > 0
        invariant 0 <= n <= |alternative| && Valid()
        invariant views == old(views)[i := old(views[i]).(buf := alternative[n..] + old(views[i]).buf)]
      {
        n := n - 1;
        AddElement(i, alternative[n]);
        assert alternative[n..] + old(views[i]).buf == [alternative[n]] + (alternative[n + 1..] + old(views[i]).buf);
      }
    }

    method Copy(i: nat) returns (k: nat)
      requires Valid() && i in live
      modifies `views, `live, `lens, bufs, ends, paths
      ensures Valid() && k == |old(views)| && live == old(live) + {k} && views == old(views) + [old(views[i])]
    {
      ShownCopied(views, bufs.lists, ends.lists, paths.lists, lens, live, i);
      k := bufs.Fork(i);
      var l := ends.Fork(i);
      var m := paths.Fork(i);
      lens := lens + [lens[i]];
      live := live + {k};
      views := views + [views[i]];
    }

    /** addbuflist. */
    method AddElement(i: nat, element: Sym)
      requires Valid() && i in live
      modifies `views, bufs
      ensures Valid() && views == old(views)[i := old(views[i]).(buf := [element] + old(views[i]).buf)]
    {
      assert ShowsAt(views, bufs.lists, ends.lists, paths.lists, lens, i);
      ShownPart(views, bufs.lists, ends.lists, paths.lists, lens, live, i, views[i].(buf := [element] + views[i].buf));
      bufs.Push(i, element);
      views := views[i := views[i].(buf := [element] + views[i].buf)];
    }

    /** eqlist, on both lists. */
    method EqLists(i: nat, k: nat) returns (eq: bool)
      requires Valid() && i in live && k in live
      ensures eq <==> SameLists(views[i], views[k])
    {
      assert ShowsAt(views, bufs.lists, ends.lists, paths.lists, lens, i);
      assert ShowsAt(views, bufs.lists, ends.lists, paths.lists, lens, k);
      eq := bufs.EqList(i, k);
      if eq {
        eq := ends.EqList(i, k);
      }
    }

    /** The loop over the configurations kept so far. */
    method Known(i: nat) returns (known: bool)
      requires Valid() && i in live && forall k :: 0 <= k < |ok| ==> ok[k] in live
      ensures Below(ok, |views|) && (known <==> HasLists(Pick(views, ok), views[i]))
    {
      for k := 0 to |ok|
        invariant forall l :: 0 <= l < k ==> !SameLists(views[ok[l]], views[i])
      {
        var eq := EqLists(i, ok[k]);
        if eq {
          assert SameLists(Pick(views, ok)[k], views[i]);
          return true;
        }
      }
      known := false;
    }

    /** The addbuf calls of one case of the switch. */
    method AddAlternatives(i: nat, n: nat, alternatives: seq<seq<Sym>>)
      requires Valid() && Held(live, head, ok, multiset{i}) && Below(head, |views|) && i < |views|
      modifies `views, `live, `lens, `head, bufs, ends, paths
      ensures Valid() && Held(live, head, ok, multiset{i}) && Below(head, |views|) && Extends(old(views), views)
      ensures Pick(views, head) ==
        Reverse(Alternatives(Enter(g, old(views[i]), n), alternatives)) + Pick(old(views), old(head))
    {
      ghost var children, waiting := Alternatives(Enter(g, views[i], n), alternatives), Pick(views, head);
      for k := 0 to |alternatives|
        invariant Valid() && Held(live, head, ok, multiset{i}) && Below(head, |views|) && Extends(old(views), views)
        invariant Pick(views, head) == Reverse(children[..k]) + waiting
      {
        ReversePush(children, k, waiting);
        AddBuf(i, n, alternatives[k]);
      }
      assert children[..|alternatives|] == children;
    }

    /** The state inside parsemain: cur are the configurations in neither list. */
    ghost predicate Ready(cur: multiset<nat>)
      reads `lens, `live, `views, `head, `ok, bufs, ends, paths
    {
      && Valid() && Held(live, head, ok, cur)
      && Below(head, |views|) && Below(ok, |views|) && forall i :: i in cur ==> i in live
    }

    /** The label err. */
    method Discard(i: nat)
      requires Ready(multiset{i})
      modifies `views, `live, bufs, ends, paths
      ensures Ready(multiset{}) && live == old(live) - {i}
      ensures Pick(views, head) == old(Pick(views, head)) && Pick(views, ok) == old(Pick(views, ok))
    {
      HeldLive(live, head, ok, multiset{i});
      HeldLess(live, head, ok, i);
      Free(i);
      PickKept(old(views), views, head);
      PickKept(old(views), views, ok);
    }

    /** The marker OK, and the element that does nothing. */
    method LeavePath(i: nat, element: Sym) returns (step: Step)
      requires Valid() && i in live && element in {Nothing, Ok}
      modifies `views, paths
      ensures Valid() && |views| == |old(views)| && forall j :: 0 <= j < |views| && j != i ==> views[j] == old(views[j])
      ensures match step
        case Continue => SilentStep(element, old(views[i]), c) == [views[i]]
        case Drop => SilentStep(element, old(views[i]), c) == [] && !Fails(element, old(views[i]))
        case Fail => Fails(element, old(views[i]))
    {
      step := Continue;
      if element == Ok {
        var n := PopPath(i);
        if n == None {
          step := Fail;
        }
      }
    }

    /** A package end is dropped, and checked if element is PkgEnd. */
    method DropEnd(i: nat, element: Sym) returns (step: Step)
      requires Valid() && i in live && element in {PkgEnd, PkgIgnore}
      modifies `views, ends
      ensures Valid() && |views| == |old(views)| && forall j :: 0 <= j < |views| && j != i ==> views[j] == old(views[j])
      ensures match step
        case Continue => SilentStep(element, old(views[i]), c) == [views[i]]
        case Drop => SilentStep(element, old(views[i]), c) == [] && !Fails(element, old(views[i]))
        case Fail => Fails(element, old(views[i]))
    {
      var end := PopPkgEnd(i);
      if end == None {
        step := Fail;
      } else if element == PkgEnd && end.value != c {
        step := Drop;
      } else {
        step := Continue;
      }
    }

    /** The package end that the length of the configuration gives is pushed. */
    method PushOwnEnd(i: nat)
      requires Valid() && i in live
      modifies `views, ends
      ensures Valid() && |views| == |old(views)| && forall j :: 0 <= j < |views| && j != i ==> views[j] == old(views[j])
      ensures SilentStep(PushEnd, old(views[i]), c) == [views[i]]
    {
      ghost var x := views[i];
      assert lens[i] == Length(x.lenAt, x.len) by {
        assert ShowsAt(views, bufs.lists, ends.lists, paths.lists, lens, i);
      }
      var end := lens[i].at + lens[i].value;
      PushPkgEnd(i, end);
      assert views[i] == x.(limits := [end] + x.limits);
    }

    /** The elements that only work on the package ends and the path, when the element has been taken off. */
    method PackageEnd(i: nat, element: Sym) returns (step: Step)
      requires Valid() && i in live && IsSilent(element)
      modifies `views, ends, paths
      ensures Valid() && |views| == |old(views)| && forall j :: 0 <= j < |views| && j != i ==> views[j] == old(views[j])
      ensures match step
        case Continue => SilentStep(element, old(views[i]), c) == [views[i]]
        case Drop => SilentStep(element, old(views[i]), c) == [] && !Fails(element, old(views[i]))
        case Fail => Fails(element, old(views[i]))
    {
      if element == PushEnd {
        PushOwnEnd(i);
        step := Continue;
      } else if element in {PkgEnd, PkgIgnore} {
        step := DropEnd(i, element);
      } else {
        step := LeavePath(i, element);
      }
    }

    /** The bytes of a package length. */
    method ReadLength(i: nat, element: Sym)
      requires Valid() && i in live && element in {Len0, Len1, Len2, Len3} && c < |input|
      modifies `views, `lens
      ensures Valid() && |views| == |old(views)| && forall j :: 0 <= j < |views| && j != i ==> views[j] == old(views[j])
      ensures AfterElement(g, element, old(views[i]), input[c], c) == [views[i]]
    {
      assert ShowsAt(views, bufs.lists, ends.lists, paths.lists, lens, i);
      var b, at, value := input[c], lens[i].at, lens[i].value;
      if element == Len0 {
        SetLength(i, Length(c, b));
      } else if element == Len1 {
        SetLength(i, Length(at, value % 16 + b * 0x10));
      } else if element == Len2 {
        SetLength(i, Length(at, value + b * 0x1000));
      } else {
        SetLength(i, Length(at, value + b * 0x10_0000));
      }
    }

    /** The terminals, when the element has been taken off; a byte is not read at the end of its package. */
    method ReadByte(i: nat, element: Sym) returns (accepts: bool)
      requires Valid() && i in live && !IsSilent(element) && !element.NonTerm? && c < |input|
      modifies `views, `lens
      ensures Valid() && |views| == |old(views)| && forall j :: 0 <= j < |views| && j != i ==> views[j] == old(views[j])
      ensures AfterByte(g, old(views[i]).(buf := [element] + old(views[i]).buf), input[c], c) ==
        if accepts then [views[i]] else []
    {
      ghost var x := views[i].(buf := [element] + views[i].buf);
      assert x.buf[1..] == views[i].buf;
      if element.Byte? {
        if !g.matches(element.kind, input[c]) {
          return false;
        }
      } else {
        ReadLength(i, element);
      }
      var end := PollPkgEnd(i);
      accepts := end != Some(c);
    }

    /** The label ok: a configuration that has read the byte is kept unless one with equal lists was. */
    method KeepNew(i: nat)
      requires Ready(multiset{i})
      modifies `views, `live, `ok, bufs, ends, paths
      ensures Ready(multiset{}) && Pick(views, head) == old(Pick(views, head))
      ensures Pick(views, ok) == Keep(old(Pick(views, ok)), [old(views[i])])
    {
      HeldLive(live, head, ok, multiset{i});
      var known := Known(i);
      if known {
        Discard(i);
      } else {
        HeldKeep(live, head, ok, i);
        PickKeep(views, ok, i);
        ok := [i] + ok;
      }
    }

    /** ReadByte, inside parsemain. */
    method Read(i: nat, element: Sym) returns (accepts: bool)
      requires c < |input| && Ready(multiset{i}) && !IsSilent(element) && !element.NonTerm?
      modifies `views, `lens
      ensures Ready(multiset{i})
      ensures Pick(views, head) == old(Pick(views, head)) && Pick(views, ok) == old(Pick(views, ok))
      ensures AfterByte(g, old(views[i]).(buf := [element] + old(views[i]).buf), input[c], c) ==
        if accepts then [views[i]] else []
    {
      HeldLive(live, head, ok, multiset{i});
      accepts := ReadByte(i, element);
      PickKept(old(views), views, head);
      PickKept(old(views), views, ok);
    }

    /** AddAlternatives, inside parsemain. */
    method AddAll(i: nat, n: nat, alternatives: seq<seq<Sym>>)
      requires Ready(multiset{i})
      modifies `views, `lens, `live, `head, bufs, ends, paths
      ensures Ready(multiset{i}) && Pick(views, ok) == old(Pick(views, ok))
      ensures Pick(views, head) ==
        Reverse(Alternatives(Enter(g, old(views[i]), n), alternatives)) + old(Pick(views, head))
    {
      AddAlternatives(i, n, alternatives);
      PickKept(old(views), views, ok);
      HeldLive(live, head, ok, multiset{i});
    }

    /** A terminal has been taken off: goto ok or goto err. */
    method Accept(i: nat, element: Sym)
      requires c < |input| && Ready(multiset{i}) && !IsSilent(element) && !element.NonTerm?
      modifies `views, `lens, `live, `ok, bufs, ends, paths
      ensures Ready(multiset{}) && Pick(views, head) == old(Pick(views, head))
      ensures Pick(views, ok) ==
        Keep(old(Pick(views, ok)), AfterByte(g, old(views[i]).(buf := [element] + old(views[i]).buf), input[c], c))
    {
      var accepts := Read(i, element);
      if accepts {
        KeepNew(i);
      } else {
        Discard(i);
      }
    }

    /** A nonterminal has been taken off: its alternatives are added, and the configuration is freed. */
    method Expand(i: nat, n: nat)
      requires c < |input| && Ready(multiset{i})
      modifies `views, `lens, `live, `head, bufs, ends, paths
      ensures Ready(multiset{}) && Pick(views, ok) == old(Pick(views, ok))
      ensures Pick(views, head) ==
        Reverse(Alternatives(Enter(g, old(views[i]), n), g.expand(n, input[c]))) + old(Pick(views, head))
    {
      AddAll(i, n, g.expand(n, input[c]));
      Discard(i);
    }

    /** The pop at loop2, inside parsemain. */
    method Take(i: nat) returns (element: Sym)
      requires Ready(multiset{i}) && views[i].buf != []
      modifies `views, bufs
      ensures Ready(multiset{i}) && element == old(views[i]).buf[0]
      ensures views[i] == old(views[i]).(buf := old(views[i]).buf[1..])
      ensures Pick(views, head) == old(Pick(views, head)) && Pick(views, ok) == old(Pick(views, ok))
    {
      HeldLive(live, head, ok, multiset{i});
      element := TakeElement(i);
      PickKept(old(views), views, head);
      PickKept(old(views), views, ok);
    }

    /** PackageEnd, inside parsemain. */
    method CheckEnd(i: nat, element: Sym) returns (step: Step)
      requires Ready(multiset{i}) && IsSilent(element)
      modifies `views, ends, paths
      ensures Ready(multiset{i})
      ensures Pick(views, head) == old(Pick(views, head)) && Pick(views, ok) == old(Pick(views, ok))
      ensures match step
        case Continue => SilentStep(element, old(views[i]), c) == [views[i]]
        case Drop => SilentStep(element, old(views[i]), c) == [] && !Fails(element, old(views[i]))
        case Fail => Fails(element, old(views[i]))
    {
      HeldLive(live, head, ok, multiset{i});
      step := PackageEnd(i, element);
      PickKept(old(views), views, head);
      PickKept(old(views), views, ok);
    }

    /** The turn of such an element. */
    method SilentTurn(i: nat, element: Sym) returns (step: Step)
      requires Ready(multiset{i}) && IsSilent(element)
      modifies `views, `live, bufs, ends, paths
      ensures Ready(if step == Drop then multiset{} else multiset{i})
      ensures Pick(views, head) == old(Pick(views, head)) && Pick(views, ok) == old(Pick(views, ok))
      ensures match step
        case Continue => SilentStep(element, old(views[i]), c) == [views[i]]
        case Drop => SilentStep(element, old(views[i]), c) == [] && !Fails(element, old(views[i]))
        case Fail => Fails(element, old(views[i]))
    {
      step := CheckEnd(i, element);
      if step == Drop {
        Discard(i);
      }
    }

    /** The switch, when element has been taken off. */
    method Act(i: nat, element: Sym) returns (step: Step)
      requires c < |input| && Ready(multiset{i})
      modifies `views, `lens, `live, `head, `ok, bufs, ends, paths
      ensures step == Fail ==> Fails(element, old(views[i]))
      ensures step == Continue ==>
        && Ready(multiset{i}) && Pick(views, head) == old(Pick(views, head)) && Pick(views, ok) == old(Pick(views, ok))
        && IsSilent(element) && SilentStep(element, old(views[i]), c) == [views[i]]
      ensures step == Drop ==>
        && Ready(multiset{})
        && Acted(g, element, old(views[i]), old(Pick(views, head)), old(Pick(views, ok)), Pick(views, head),
                 Pick(views, ok), input[c], c)
    {
      if element.NonTerm? {
        Expand(i, element.id);
        step := Drop;
      } else if IsSilent(element) {
        step := SilentTurn(i, element);
      } else {
        Accept(i, element);
        step := Drop;
      }
    }

    /** From loop2 to the next goto. */
    method Turn(i: nat) returns (step: Step)
      requires c < |input| && Ready(multiset{i})
      modifies `views, `lens, `live, `head, `ok, bufs, ends, paths
      ensures step == Fail ==> Underflow(old(views[i]))
      ensures step == Continue ==>
        && Ready(multiset{i}) && Pick(views, head) == old(Pick(views, head)) && Pick(views, ok) == old(Pick(views, ok))
        && old(views[i]).buf != [] && IsSilent(old(views[i]).buf[0])
        && Children(g, old(views[i]), input[c], c) == [views[i]]
      ensures step == Drop ==>
        && Ready(multiset{})
        && OneRound(g, old(views[i]), old(Pick(views, head)), old(Pick(views, ok)), Pick(views, head), Pick(views, ok),
                    input[c], c)
    {
      assert ShowsAt(views, bufs.lists, ends.lists, paths.lists, lens, i);
      var top := bufs.Top(i);
      if top == None {
        Discard(i);
        step := Drop;
      } else {
        ghost var x := views[i];
        var element := Take(i);
        assert element == x.buf[0] && views[i] == x.(buf := x.buf[1..]);
        step := Act(i, element);
      }
    }

    /** What the rounds will keep when those of cur are tried first. */
    ghost function Rest(cur: seq<Config>): Option<seq<Config>>
      reads `c, `lens, `live, `views, `head, `ok, bufs, ends, paths
      requires NotLeftRecursive(g) && c < |input| && Below(head, |views|) && Below(ok, |views|)
    {
      Rounds(g, cur + Pick(views, head), Pick(views, ok), input[c], c)
    }

    /** A bound for the rounds that are left. */
    ghost function Left(cur: seq<Config>): nat
      reads `c, `lens, `live, `views, `head, `ok, bufs, ends, paths
      requires NotLeftRecursive(g) && c < |input| && Below(head, |views|)
    {
      TotalWork(g, cur + Pick(views, head), input[c], c)
    }

    /** The part of parsemain from loop2 on, for the current configuration. */
    method Process(i: nat) returns (failed: bool)
      requires NotLeftRecursive(g) && c < |input| && Ready(multiset{i})
      modifies `views, `lens, `live, `head, `ok, bufs, ends, paths
      ensures failed ==> old(Rest([views[i]])) == None
      ensures !failed ==> Ready(multiset{}) && Rest([]) == old(Rest([views[i]])) && Left([]) < old(Left([views[i]]))
    {
      var step := Continue;
      while step == Continue
        invariant step == Continue ==> Ready(multiset{i}) && Rest([views[i]]) == old(Rest([views[i]]))
        invariant step == Continue ==> Left([views[i]]) <= old(Left([views[i]]))
        invariant step == Drop ==>
          Ready(multiset{}) && Rest([]) == old(Rest([views[i]])) && Left([]) < old(Left([views[i]]))
        invariant step == Fail ==> old(Rest([views[i]])) == None
        decreases step == Continue, if step == Continue then Left([views[i]]) else 0
      {
        step := Go(i);
      }
      failed := step == Fail;
    }

    /** One turn, by what the rounds will keep. */
    method Go(i: nat) returns (step: Step)
      requires NotLeftRecursive(g) && c < |input| && Ready(multiset{i})
      modifies `views, `lens, `live, `head, `ok, bufs, ends, paths
      ensures step == Continue ==> Ready(multiset{i}) && Rest([views[i]]) == old(Rest([views[i]]))
      ensures step == Continue ==> Left([views[i]]) < old(Left([views[i]]))
      ensures step == Drop ==>
        Ready(multiset{}) && Rest([]) == old(Rest([views[i]])) && Left([]) < old(Left([views[i]]))
      ensures step == Fail ==> old(Rest([views[i]])) == None
    {
      ghost var x, waiting, kept := views[i], Pick(views, head), Pick(views, ok);
      step := Turn(i);
      if step == Continue {
        RoundSettles(g, x, views[i], waiting, kept, input[c], c);
      } else if step == Drop {
        RoundDone(g, x, waiting, kept, Pick(views, head), Pick(views, ok), input[c], c);
        assert [] + Pick(views, head) == Pick(views, head);
      } else {
        RoundFails(g, x, waiting, kept, input[c], c);
      }
    }

    /** getbuf, while there is a configuration in head. */
    method GetBuf() returns (i: nat)
      requires NotLeftRecursive(g) && c < |input| && Ready(multiset{}) && head != []
      modifies `head
      ensures Ready(multiset{i}) && Rest([views[i]]) == old(Rest([])) && Left([views[i]]) == old(Left([]))
    {
      i := head[0];
      HeldTake(live, head, ok);
      assert [views[i]] + Pick(views, head[1..]) == [] + Pick(views, head);
      head := head[1..];
      HeldLive(live, head, ok, multiset{i});
    }

    /** The rounds of parsemain for the byte at c. */
    method Position() returns (failed: bool)
      requires NotLeftRecursive(g) && c < |input| && Ready(multiset{}) && ok == []
      modifies `views, `lens, `live, `head, `ok, bufs, ends, paths
      ensures failed ==> Rounds(g, old(Pick(views, head)), [], input[c], c) == None
      ensures !failed ==> Ready(multiset{}) && head == []
      ensures !failed ==> Rounds(g, old(Pick(views, head)), [], input[c], c) == Some(Pick(views, ok))
    {
      assert [] + Pick(views, head) == Pick(views, head);
      while head != []
        invariant Ready(multiset{}) && Rest([]) == old(Rest([]))
        decreases Left([])
      {
        var i := GetBuf();
        failed := Process(i);
        if failed {
          return;
        }
      }
      assert [] + Pick(views, head) == [];
      failed := false;
    }

    /** getbuf, when head is empty. */
    method NextByte()
      requires c < |input| && Ready(multiset{}) && head == []
      modifies `c, `head, `ok
      ensures c == old(c) + 1 && Ready(multiset{}) && ok == [] && Pick(views, head) == old(Pick(views, ok))
    {
      head, ok, c := ok, [], c + 1;
    }

    /** The rounds for one byte, after which getbuf turns to the next one. */
    method NextPosition() returns (failed: bool)
      requires NotLeftRecursive(g) && c < |input| && Ready(multiset{}) && ok == []
      requires KeptBy(g, input, c) == Some(Pick(views, head))
      modifies this, bufs, ends, paths
      ensures failed ==> Answer(g, input) == LimitUnderflow
      ensures !failed ==> c == old(c) + 1 && Ready(multiset{}) && ok == []
      ensures !failed ==> KeptBy(g, input, c) == Some(Pick(views, head))
    {
      ghost var waiting := Pick(views, head);
      NextKept(g, input, c, waiting, c + 1);
      failed := Position();
      if !failed {
        NextByte();
      }
    }

    /** The end of parsemain: the first configuration is the result, and the others are freed. */
    method Result() returns (r: nat)
      requires Ready(multiset{}) && head != [] && ok == []
      modifies `views, `live, `head, bufs, ends, paths
      ensures Valid() && live == {r} && views[r] == old(Pick(views, head))[0]
    {
      r := head[0];
      HeldTake(live, head, ok);
      head := head[1..];
      HeldLive(live, head, ok, multiset{r});
      while head != []
        invariant Valid() && Held(live, head, ok, multiset{r}) && r < |views| && views[r] == old(views[head[0]])
        decreases |head|
      {
        var i := head[0];
        HeldLive(live, head, ok, multiset{r});
        HeldDrop(live, head, ok, multiset{r});
        Free(i);
        head := head[1..];
      }
      HeldOnly(live, multiset{r});
    }

    /** parsemain: the answer is the first configuration kept after the last byte; nothing else is left allocated. */
    method ParseMain() returns (result: Found)
      requires NotLeftRecursive(g) && c == 0 && Ready(multiset{}) && Pick(views, head) == [START] && ok == []
      modifies this, bufs, ends, paths
      ensures match result
        case Configuration(r) => Valid() && live == {r} && Answer(g, input) == Accepted(views[r])
        case Null => Valid() && live == {} && Answer(g, input) == NoParse
        case Error => Answer(g, input) == LimitUnderflow
    {
      while c < |input| && head != []
        invariant c <= |input| && Ready(multiset{}) && ok == []
        invariant KeptBy(g, input, c) == Some(Pick(views, head))
        decreases |input| - c
      {
        var failed := NextPosition();
        if failed {
          return Error;
        }
      }
      KeptEnds(g, input, c, |input|);
      if head == [] {
        HeldOnly(live, multiset{});
        return Null;
      }
      var r := Result();
      result := Configuration(r);
    }

    /** parser(): unless the parser stops with an error, nothing is left allocated. */
    method Parse() returns (result: Found)
      requires NotLeftRecursive(g) && c == 0 && Ready(multiset{}) && Pick(views, head) == [START] && ok == []
      modifies this, bufs, ends, paths
      ensures result.Configuration? <==> Answer(g, input).Accepted?
      ensures result.Error? <==> Answer(g, input).LimitUnderflow?
      ensures !result.Error? ==> live == {} && bufs.nodes == map[] && ends.nodes == map[] && paths.nodes == map[]
      ensures result.Configuration? ==> Derivable(g, input)
      ensures result.Error? ==> LeavesNone(g, input)
      ensures LengthsFirst(g) && LengthsDetermined(g, input) ==>
        (result.Error? <==> LeavesNone(g, input)) && (result.Null? ==> !Derivable(g, input))
    {
      AnswerIs(g, input);
      result := ParseMain();
      if result.Error? {
        return;
      }
      if result.Configuration? {
        Free(result.r);
      }
      NoNodes();
    }

    lemma NoNodes()
      requires Valid() && live == {}
      ensures bufs.nodes == map[] && ends.nodes == map[] && paths.nodes == map[]
    {
      forall i | 0 <= i < |views| ensures bufs.lists[i] == [] && ends.lists[i] == [] && paths.lists[i] == [] {
        assert ShowsAt(views, bufs.lists, ends.lists, paths.lists, lens, i) && ClearedAt(views, live, i);
      }
      NothingLeft(bufs.nodes, bufs.heads, bufs.lists);
      NothingLeft(ends.nodes, ends.heads, ends.lists);
      NothingLeft(paths.nodes, paths.heads, paths.lists);
    }
  }
}
