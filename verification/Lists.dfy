/** The intrusive LIST1/LIST3 lists of include/core/list.h, as sequences of array indices:
    POP takes the head, PUSH adds at the head, ADD appends, DEL removes one node. */
module Lists {

  ghost predicate NoDup(s: seq<nat>) {
    forall i, j :: 0 <= i < j < |s| ==> s[i] != s[j]
  }

  /** LIST3_DEL: everything but x, in the same order. */
  function Del(s: seq<nat>, x: nat): (r: seq<nat>)
    ensures forall y :: y in r ==> y in s
    ensures forall y :: y in s && y != x ==> y in r
    ensures NoDup(s) ==> NoDup(r) && x !in r
    ensures |r| == if x in s then |s| - 1 else |s|
  {
    if s == [] then []
    else if s[0] == x then
      assert forall y :: y in s ==> y == x || y in s[1..];
      s[1..]
    else
      var t := Del(s[1..], x);
      assert forall y :: y in s ==> y == s[0] || y in s[1..];
      assert NoDup(s) ==> NoDup(s[1..]) && s[0] !in s[1..] && s[0] !in t;
      [s[0]] + t
  }

  /** The three lists hold each of 0..num exactly once between them. */
  ghost predicate Partition(a: seq<nat>, b: seq<nat>, c: seq<nat>, num: nat) {
    && NoDup(a) && NoDup(b) && NoDup(c)
    && (forall x :: x in a ==> x !in b && x !in c && x < num)
    && (forall x :: x in b ==> x !in c && x < num)
    && (forall x :: x in c ==> x < num)
    && (forall x :: 0 <= x < num ==> x in a || x in b || x in c)
  }

  lemma HeadTail(s: seq<nat>)
    requires NoDup(s) && s != []
    ensures NoDup(s[1..]) && s[0] in s && s[0] !in s[1..]
    ensures forall x :: x in s <==> x == s[0] || x in s[1..]
  {
  }

  lemma NoDupAdd(s: seq<nat>, x: nat)
    requires NoDup(s) && x !in s
    ensures NoDup(s + [x]) && forall y :: y in s + [x] <==> y in s || y == x
  {
  }

  lemma NoDupPush(s: seq<nat>, x: nat)
    requires NoDup(s) && x !in s
    ensures NoDup([x] + s) && forall y :: y in [x] + s <==> y in s || y == x
  {
  }

  lemma MoveToEnd(s: seq<nat>, x: nat)
    requires NoDup(s) && x in s
    ensures NoDup(Del(s, x) + [x])
    ensures forall y :: y in Del(s, x) + [x] <==> y in s
  {
  }

  /** Something is on one of the lists. */
  lemma NotAllEmpty(a: seq<nat>, b: seq<nat>, c: seq<nat>, num: nat)
    requires Partition(a, b, c, num) && num > 0
    ensures a != [] || b != [] || c != []
  {
    assert 0 in a || 0 in b || 0 in c;
  }
}
