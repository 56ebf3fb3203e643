/** The index of memory-mapped I/O handlers (core/mmio.c). A handle is named by a number in place of its pointer. */
module Mmio {
  import opened Lists
  import opened Wrappers

  const MAX: int := 0x1_0000_0000_0000_0000
  const UINT: int := 0x1_0000_0000
  const BUCKETS: nat := 17
  const PAGESIZE: nat := 4096

  /** A phys_t. */
  type Phys = x: int | 0 <= x < 0x1_0000_0000_0000_0000
  /** A uint. */
  type Len = x: int | 0 <= x < 0x1_0000_0000

  datatype Handle = Handle(gphys: Phys, len: Len, unlocked: bool, unregistered: bool)

  function Add64(x: Phys, y: Phys): Phys {
    if x + y < MAX then x + y else x + y - MAX
  }

  function Sub64(x: Phys, y: Phys): Phys {
    if x >= y then x - y else x - y + MAX
  }

  /** x is one of the n addresses from s on, counting past the end of the address space. */
  predicate InArc(x: Phys, s: Phys, n: int) {
    Sub64(x, s) < n
  }

  /** rangecheck: the part of the access that the handle gets, if any. */
  function RangeCheck(h: Handle, gphys: Phys, len: Len): (r: Option<(Phys, Phys)>) {
    if h.unregistered then None
    else
      var a := Sub64(gphys, h.gphys);
      var b := Sub64(Sub64(Add64(gphys, len), 1), h.gphys);
      var d := Sub64(Sub64(Add64(h.gphys, h.len), 1), h.gphys);
      if d < a && a <= b then None
      else
        var a' := if d < a then 0 else a;
        var b' := if d < b then d else b;
        Some((Add64(a', h.gphys), Add64(Sub64(b', a'), 1)))
  }

  /** The result is the exact intersection, even when either range wraps. */
  lemma RangeCheckExact(h: Handle, gphys: Phys, len: Len, x: Phys)
    requires 0 < len && 0 < h.len
    ensures var r := RangeCheck(h, gphys, len);
      !h.unregistered && InArc(x, gphys, len) && InArc(x, h.gphys, h.len)
      <==> r.Some? && InArc(x, r.value.0, r.value.1)
  {
  }

  lemma RangeCheckNotEmpty(h: Handle, gphys: Phys, len: Len)
    requires 0 < len && 0 < h.len && RangeCheck(h, gphys, len).Some?
    ensures var (s, n) := RangeCheck(h, gphys, len).value;
      0 < n <= len && n <= h.len && InArc(s, gphys, len) && InArc(s, h.gphys, h.len)
  {
  }

  /** A handle of no length would claim every access. */
  lemma EmptyHandle(h: Handle, gphys: Phys, len: Len)
    requires h.len == 0 && !h.unregistered
    ensures RangeCheck(h, gphys, len).Some?
  {
  }

  predicate HandleOk(h: Handle) {
    0 < h.len && h.gphys + h.len <= MAX
  }

  predicate Overlaps(h: Handle, s: int, e: int) {
    !h.unregistered && s < e && h.gphys < e && s < h.gphys + h.len
  }

  function Max(x: int, y: int): int {
    if x < y then y else x
  }

  function Min(x: int, y: int): int {
    if x < y then x else y
  }

  /** Away from the end of the address space the result is an interval. */
  lemma RangeCheckLinear(h: Handle, gphys: Phys, len: Len)
    requires 0 < len && HandleOk(h) && gphys + len <= MAX
    ensures var r := RangeCheck(h, gphys, len);
      && (r.Some? <==> Overlaps(h, gphys, gphys + len))
      && (r.Some? ==> r.value.0 == Max(gphys, h.gphys) && r.value.0 + r.value.1 == Min(gphys + len, h.gphys + h.len))
  {
  }

  /** The range and the live handle have an address in common. */
  ghost predicate Meets(h: Handle, gphys: Phys, len: Len) {
    !h.unregistered && exists x: Phys :: InArc(x, gphys, len) && InArc(x, h.gphys, h.len)
  }

  lemma RangeCheckMeets(h: Handle, gphys: Phys, len: Len)
    requires 0 < h.len
    ensures 0 < len ==> (RangeCheck(h, gphys, len).Some? <==> Meets(h, gphys, len))
    ensures len == 0 ==> (RangeCheck(h, gphys, len).Some? <==> !h.unregistered)
  {
    if 0 < len {
      forall x: Phys | InArc(x, gphys, len) && InArc(x, h.gphys, h.len) && !h.unregistered
        ensures RangeCheck(h, gphys, len).Some?
      {
        RangeCheckExact(h, gphys, len, x);
      }
      if RangeCheck(h, gphys, len).Some? {
        RangeCheckNotEmpty(h, gphys, len);
      }
    }
  }

  /** 16 buckets of 256 MiB, and one for everything above 4 GiB. */
  function Bucket(x: Phys): (i: nat)
    ensures i < BUCKETS
  {
    if x <= 0xFFFF_FFFF then x / 0x1000_0000 else 16
  }

  /** What the buckets span. */
  lemma BucketSpans(x: Phys)
    ensures Bucket(x) == 16 <==> x >= 0x1_0000_0000
    ensures x < 0x1_0000_0000 ==> Bucket(x) * 0x1000_0000 <= x < (Bucket(x) + 1) * 0x1000_0000
  {
  }

  lemma BucketMonotone(x: Phys, y: Phys)
    requires x <= y
    ensures Bucket(x) <= Bucket(y)
  {
  }

  predicate Touches(h: Handle, i: nat)
    requires HandleOk(h)
  {
    Bucket(h.gphys) <= i <= Bucket(h.gphys + h.len - 1)
  }

  ghost predicate Known(info: map<nat, Handle>, l: seq<nat>) {
    forall id :: id in l ==> id in info && HandleOk(info[id])
  }

  ghost predicate Sorted(info: map<nat, Handle>, l: seq<nat>)
    requires Known(info, l)
  {
    forall a, b :: 0 <= a < b < |l| ==> info[l[a]].gphys <= info[l[b]].gphys
  }

  /** The bucket lists exactly the handles that touch it, in address order. */
  ghost predicate BucketOk(info: map<nat, Handle>, handles: seq<nat>, l: seq<nat>, i: nat)
    requires Known(info, handles)
  {
    && Known(info, l) && NoDup(l) && Sorted(info, l)
    && forall id :: id in l <==> id in handles && Touches(info[id], i)
  }

  ghost predicate Disjoint(info: map<nat, Handle>, handles: seq<nat>)
    requires Known(info, handles)
  {
    forall x, y :: x in handles && y in handles && x != y && !info[x].unregistered ==>
      !Overlaps(info[y], info[x].gphys, info[x].gphys + info[x].len)
  }

  /** A part of an access: len bytes at gphys, off bytes into the buffer, go to memory or to a handler,
      which may decline them. */
  datatype Event =
    | Memory(gphys: int, off: int, n: int)
    | Call(id: nat, gphys: int, off: int, n: int, taken: bool)

  predicate Serves(e: Event, k: int) {
    e.off <= k < e.off + e.n && (e.Call? ==> e.taken)
  }

  /** How often byte k of the buffer has been transferred. */
  ghost function Times(t: seq<Event>, k: int): nat {
    if t == [] then 0 else Times(t[..|t| - 1], k) + if Serves(t[|t| - 1], k) then 1 else 0
  }

  ghost function Calls(t: seq<Event>, id: nat): nat {
    if t == [] then 0 else Calls(t[..|t| - 1], id) + if t[|t| - 1].Call? && t[|t| - 1].id == id then 1 else 0
  }

  lemma Appended(t: seq<Event>, e: Event)
    ensures forall k :: Times(t + [e], k) == Times(t, k) + if Serves(e, k) then 1 else 0
    ensures forall id :: Calls(t + [e], id) == Calls(t, id) + if e.Call? && e.id == id then 1 else 0
  {
    assert (t + [e])[..|t|] == t;
  }

  /** The fixed data of one access: the handles, the range, and the handlers that do not decline. */
  datatype Request = Request(info: map<nat, Handle>, handles: seq<nat>, gphys: int, len: int, takers: set<nat>)

  ghost predicate RequestOk(q: Request) {
    Known(q.info, q.handles) && Disjoint(q.info, q.handles) && 0 <= q.gphys && 0 <= q.len
  }

  /** Handle id gets the part of the access that starts at cur or later. */
  ghost predicate Due(q: Request, id: nat, cur: int)
    requires RequestOk(q)
  {
    id in q.handles && Overlaps(q.info[id], cur, q.gphys + q.len)
  }

  ghost predicate Placed(q: Request, e: Event) {
    0 < e.n && 0 <= e.off && e.off + e.n <= q.len && e.gphys == q.gphys + e.off
  }

  /** A handler gets all of its part of the access; memory gets what no handler takes. */
  ghost predicate EventOk(q: Request, e: Event)
    requires RequestOk(q)
  {
    && Placed(q, e)
    && match e
       case Call(id, s, _, n, taken) =>
         && Due(q, id, q.gphys) && (taken <==> id in q.takers)
         && s == Max(q.gphys, q.info[id].gphys) && s + n == Min(q.gphys + q.len, q.info[id].gphys + q.info[id].len)
       case Memory(s, _, n) =>
         forall id :: id in q.handles && Overlaps(q.info[id], s, s + n) ==> id !in q.takers
  }

  /** What has been done by the time the access has advanced to cur; late is the call that waits for the unlock. */
  ghost predicate Progress(q: Request, cur: int, t: seq<Event>, late: Option<Event>)
    requires RequestOk(q)
  {
    && q.gphys <= cur <= q.gphys + q.len
    && (forall e :: e in t ==> EventOk(q, e))
    && (late.Some? ==> late.value.Call? && EventOk(q, late.value) && q.info[late.value.id].unlocked
                       && !Due(q, late.value.id, cur))
    && (forall k :: 0 <= k < q.len ==>
          Times(t, k) + (if late.Some? && late.value.off <= k < late.value.off + late.value.n then 1 else 0)
          == if k < cur - q.gphys then 1 else 0)
    && (forall id :: Calls(t, id) + (if late.Some? && late.value.id == id then 1 else 0)
          == if Due(q, id, q.gphys) && !Due(q, id, cur) then 1 else 0)
    && (forall id :: Due(q, id, cur) ==> cur == q.gphys || cur <= q.info[id].gphys)
    && (forall id :: Due(q, id, q.gphys) && !Due(q, id, cur) && q.info[id].unlocked ==>
          late.Some? && late.value.id == id)
  }

  function WithMemory(t: seq<Event>, gphys: int, off: int, n: int): seq<Event> {
    if n == 0 then t else t + [Memory(gphys, off, n)]
  }

  lemma SameDue(q: Request, cur: int, n: int)
    requires RequestOk(q) && 0 <= n && cur + n <= q.gphys + q.len
    requires forall id :: id in q.handles ==> !Overlaps(q.info[id], cur, cur + n)
    ensures forall id :: Due(q, id, cur) <==> Due(q, id, cur + n)
    ensures forall id :: Due(q, id, cur) && n > 0 ==> cur + n <= q.info[id].gphys
  {
  }

  lemma MemoryStep(q: Request, cur: int, n: int, t: seq<Event>, late: Option<Event>)
    requires RequestOk(q) && Progress(q, cur, t, late) && 0 <= n && cur + n <= q.gphys + q.len
    requires forall id :: id in q.handles ==> !Overlaps(q.info[id], cur, cur + n)
    ensures Progress(q, cur + n, WithMemory(t, cur, cur - q.gphys, n), late)
  {
    if n > 0 {
      Appended(t, Memory(cur, cur - q.gphys, n));
      SameDue(q, cur, n);
    }
  }

  ghost predicate NextCall(q: Request, cur: int, e: Event)
    requires RequestOk(q)
  {
    && EventOk(q, e) && e.Call? && e.gphys == cur && Due(q, e.id, cur)
  }

  lemma Advance(q: Request, cur: int, t: seq<Event>, late: Option<Event>, e: Event)
    requires RequestOk(q) && Progress(q, cur, t, late) && NextCall(q, cur, e)
    ensures forall id :: Due(q, id, cur + e.n) <==> Due(q, id, cur) && id != e.id
    ensures forall id :: Due(q, id, cur + e.n) ==> cur + e.n <= q.info[id].gphys
  {
  }

  lemma TakenStep(q: Request, cur: int, t: seq<Event>, late: Option<Event>, e: Event)
    requires RequestOk(q) && Progress(q, cur, t, late) && NextCall(q, cur, e) && !q.info[e.id].unlocked && e.taken
    ensures Progress(q, cur + e.n, t + [e], late)
  {
    Advance(q, cur, t, late, e);
    Appended(t, e);
  }

  lemma DeclinedStep(q: Request, cur: int, t: seq<Event>, late: Option<Event>, e: Event)
    requires RequestOk(q) && Progress(q, cur, t, late) && NextCall(q, cur, e) && !q.info[e.id].unlocked && !e.taken
    ensures Progress(q, cur + e.n, WithMemory(t + [e], cur, cur - q.gphys, e.n), late)
  {
    Advance(q, cur, t, late, e);
    Appended(t, e);
    Appended(t + [e], Memory(cur, cur - q.gphys, e.n));
  }

  lemma LateStep(q: Request, cur: int, t: seq<Event>, e: Event)
    requires RequestOk(q) && Progress(q, cur, t, None) && NextCall(q, cur, e) && q.info[e.id].unlocked
    ensures Progress(q, cur + e.n, t, Some(e))
  {
    Advance(q, cur, t, None, e);
  }

  /** The end of an access: the late call, then memory if the handler declines. */
  ghost predicate Complete(q: Request, t: seq<Event>)
    requires RequestOk(q)
  {
    && (forall e :: e in t ==> EventOk(q, e))
    && (forall k :: 0 <= k < q.len ==> Times(t, k) == 1)
    && (forall id :: Calls(t, id) == if Due(q, id, q.gphys) then 1 else 0)
  }

  function WithLate(t: seq<Event>, late: Option<Event>): seq<Event> {
    if late.None? then t
    else if late.value.Call? && !late.value.taken then
      WithMemory(t + [late.value], late.value.gphys, late.value.off, late.value.n)
    else t + [late.value]
  }

  lemma Finish(q: Request, t: seq<Event>, late: Option<Event>)
    requires RequestOk(q) && Progress(q, q.gphys + q.len, t, late)
    ensures Complete(q, WithLate(t, late))
  {
    if late.Some? {
      Appended(t, late.value);
      if !late.value.taken {
        Appended(t + [late.value], Memory(late.value.gphys, late.value.off, late.value.n));
      }
    }
  }

  /** The local variables of mmio_access_memory. */
  datatype Cursor =
    Cursor(gphys: Phys, off: int, rest: Len, found: bool, trace: seq<Event>, late: Option<Event>)

  ghost predicate Running(q: Request, c: Cursor)
    requires RequestOk(q)
  {
    && c.gphys == q.gphys + c.off && c.off + c.rest == q.len && Progress(q, c.gphys, c.trace, c.late)
    && (c.found <==> Found(q, c.gphys))
    && (!c.found ==> Untouched(q, c))
  }

  predicate Untouched(q: Request, c: Cursor) {
    c.gphys == q.gphys && c.rest == q.len && !c.found && c.trace == [] && c.late == None
  }

  /** Some handler has had its part. */
  ghost predicate Found(q: Request, cur: int)
    requires RequestOk(q)
  {
    exists id :: Due(q, id, q.gphys) && !Due(q, id, cur)
  }

  /** mmio_access_memory before entry k of bucket i. */
  ghost predicate Searching(q: Request, buckets: seq<seq<nat>>, i: nat, k: nat, c: Cursor)
    requires RequestOk(q) && |buckets| == BUCKETS && q.gphys < MAX
  {
    if q.gphys + q.len < MAX then Running(q, c) && 0 < c.rest && Passed(q, buckets, Bucket(q.gphys), i, k, c.gphys)
    else Untouched(q, c)
  }

  /** mmio_access_memory after the search. */
  ghost predicate Searched(q: Request, c: Cursor)
    requires RequestOk(q)
  {
    if q.gphys + q.len < MAX then Running(q, c) && forall id :: !Due(q, id, c.gphys)
    else Untouched(q, c)
  }

  function CallOf(takers: set<nat>, id: nat, c: Cursor, start: Phys, n: Phys): Event {
    Call(id, start, c.off + start - c.gphys, n, id in takers)
  }

  ghost predicate PartOf(q: Request, id: nat, c: Cursor, start: Phys, n: Phys)
    requires RequestOk(q)
  {
    && Due(q, id, c.gphys)
    && start == Max(c.gphys, q.info[id].gphys)
    && start + n == Min(q.gphys + q.len, q.info[id].gphys + q.info[id].len)
    && forall x :: x in q.handles ==> !Overlaps(q.info[x], c.gphys, start)
  }

  /** The step to handle id, by way of the memory before it. */
  lemma Serving(q: Request, id: nat, c: Cursor, start: Phys, n: Phys)
    requires RequestOk(q) && Running(q, c) && PartOf(q, id, c, start, n)
    ensures NextCall(q, start, CallOf(q.takers, id, c, start, n))
    ensures Progress(q, start, WithMemory(c.trace, c.gphys, c.off, start - c.gphys), c.late)
  {
    ServingCall(q, id, c, start, n);
    MemoryStep(q, c.gphys, start - c.gphys, c.trace, c.late);
  }

  lemma ServingCall(q: Request, id: nat, c: Cursor, start: Phys, n: Phys)
    requires RequestOk(q) && Running(q, c) && PartOf(q, id, c, start, n)
    ensures NextCall(q, start, CallOf(q.takers, id, c, start, n))
  {
  }

  /** The function that one turn of the loop computes. */
  function Serve(takers: set<nat>, id: nat, c: Cursor, start: Phys, n: Phys, unlocked: bool): Cursor
    requires c.gphys <= start && start + n <= c.gphys + c.rest && start + n < MAX
  {
    var t := WithMemory(c.trace, c.gphys, c.off, start - c.gphys);
    var e := CallOf(takers, id, c, start, n);
    var off := c.off + (start - c.gphys);
    Cursor(start + n, off + n, c.rest - (start - c.gphys) - n, true,
           if unlocked then t else if e.taken then t + [e] else WithMemory(t + [e], start, off, n),
           if unlocked then Some(e) else c.late)
  }

  lemma Called(q: Request, cur: int, t: seq<Event>, late: Option<Event>, e: Event)
    requires RequestOk(q) && Progress(q, cur, t, late) && NextCall(q, cur, e)
    requires q.info[e.id].unlocked ==> late.None?
    ensures
      if q.info[e.id].unlocked then Progress(q, cur + e.n, t, Some(e))
      else Progress(q, cur + e.n, if e.taken then t + [e] else WithMemory(t + [e], cur, cur - q.gphys, e.n), late)
    ensures Found(q, cur + e.n) && !Due(q, e.id, cur + e.n)
  {
    if q.info[e.id].unlocked {
      LateStep(q, cur, t, e);
    } else if e.taken {
      TakenStep(q, cur, t, late, e);
    } else {
      DeclinedStep(q, cur, t, late, e);
    }
    Advance(q, cur, t, late, e);
    assert Due(q, e.id, q.gphys);
  }

  /** c' is what Serve makes of c by way of t and the call e. */
  ghost predicate Step(q: Request, c: Cursor, c': Cursor, t: seq<Event>, e: Event, unlocked: bool) {
    && e.Call? && c'.gphys == e.gphys + e.n && c'.gphys == q.gphys + c'.off && c'.off + c'.rest == q.len && c'.found
    && c'.late == (if unlocked then Some(e) else c.late)
    && c'.trace == if unlocked then t
                   else if e.taken then t + [e]
                   else WithMemory(t + [e], e.gphys, e.gphys - q.gphys, e.n)
  }

  lemma ServeIsStep(q: Request, id: nat, c: Cursor, start: Phys, n: Phys, unlocked: bool)
    requires c.gphys <= start && start + n <= c.gphys + c.rest && start + n < MAX
    requires c.gphys == q.gphys + c.off && c.off + c.rest == q.len
    ensures Step(q, c, Serve(q.takers, id, c, start, n, unlocked), WithMemory(c.trace, c.gphys, c.off, start - c.gphys),
                 CallOf(q.takers, id, c, start, n), unlocked)
  {
  }

  lemma StepRuns(q: Request, c: Cursor, c': Cursor, t: seq<Event>, e: Event)
    requires RequestOk(q) && NextCall(q, e.gphys, e) && Step(q, c, c', t, e, q.info[e.id].unlocked)
    requires Progress(q, e.gphys, t, c.late) && (q.info[e.id].unlocked ==> c.late.None?)
    ensures Running(q, c') && !Due(q, e.id, c'.gphys)
  {
    Called(q, e.gphys, t, c.late, e);
    IsRunning(q, c');
  }

  lemma ServeKeeps(q: Request, id: nat, c: Cursor, start: Phys, n: Phys)
    requires RequestOk(q) && q.gphys + q.len < MAX && Running(q, c) && PartOf(q, id, c, start, n)
    requires q.info[id].unlocked ==> c.late.None?
    ensures Running(q, Serve(q.takers, id, c, start, n, q.info[id].unlocked)) && !Due(q, id, start + n)
  {
    Serving(q, id, c, start, n);
    ServeIsStep(q, id, c, start, n, q.info[id].unlocked);
    StepRuns(q, c, Serve(q.takers, id, c, start, n, q.info[id].unlocked),
             WithMemory(c.trace, c.gphys, c.off, start - c.gphys), CallOf(q.takers, id, c, start, n));
  }

  lemma IsRunning(q: Request, c: Cursor)
    requires RequestOk(q) && c.gphys == q.gphys + c.off && c.off + c.rest == q.len
    requires Progress(q, c.gphys, c.trace, c.late) && c.found && Found(q, c.gphys)
    ensures Running(q, c)
  {
  }

  /** The search goes on, or the whole access has been served. */
  ghost predicate Turned(q: Request, buckets: seq<seq<nat>>, i: nat, k: nat, c: Cursor)
    requires RequestOk(q) && |buckets| == BUCKETS && q.gphys < MAX
  {
    if c.rest == 0 then Searched(q, c) else Searching(q, buckets, i, k, c)
  }

  /** Entry k of bucket i is reached in a search, and does not end it. */
  ghost predicate AtEntry(q: Request, buckets: seq<seq<nat>>, i: nat, k: nat, c: Cursor) {
    && RequestOk(q) && 0 <= q.gphys < MAX && 0 < q.len && Indexed(q.info, q.handles, buckets)
    && i < BUCKETS && k < |buckets[i]| && Searching(q, buckets, i, k, c)
    && buckets[i][k] in q.handles && q.info[buckets[i][k]].gphys < Add64(c.gphys, c.rest)
  }

  lemma EndOf(q: Request, c: Cursor)
    requires RequestOk(q) && 0 <= q.gphys < MAX && 0 < q.len < UINT
    requires if q.gphys + q.len < MAX then Running(q, c) else Untouched(q, c)
    ensures q.gphys + q.len < MAX ==> Add64(c.gphys, c.rest) == q.gphys + q.len
    ensures q.gphys + q.len == MAX ==> Add64(c.gphys, c.rest) == 0
  {
  }

  lemma Miss(q: Request, buckets: seq<seq<nat>>, i: nat, k: nat, c: Cursor)
    requires AtEntry(q, buckets, i, k, c) && q.gphys + q.len < MAX
    requires RangeCheck(q.info[buckets[i][k]], c.gphys, c.rest).None?
    ensures Searching(q, buckets, i, k + 1, c)
  {
    RangeCheckLinear(q.info[buckets[i][k]], c.gphys, c.rest);
    PassedOne(q, buckets, i, k, c.gphys, c.gphys);
  }

  lemma HitPart(q: Request, buckets: seq<seq<nat>>, i: nat, k: nat, c: Cursor)
    requires AtEntry(q, buckets, i, k, c) && q.gphys + q.len < MAX
    requires RangeCheck(q.info[buckets[i][k]], c.gphys, c.rest).Some?
    ensures var (start, n) := RangeCheck(q.info[buckets[i][k]], c.gphys, c.rest).value;
      c.gphys <= start && start + n <= c.gphys + c.rest && PartOf(q, buckets[i][k], c, start, n)
  {
    RangeCheckLinear(q.info[buckets[i][k]], c.gphys, c.rest);
    BeforeHandle(q, buckets, i, k, c.gphys);
  }

  lemma Hit(q: Request, buckets: seq<seq<nat>>, i: nat, k: nat, c: Cursor, start: Phys, n: Phys)
    requires AtEntry(q, buckets, i, k, c) && q.gphys + q.len < MAX && PartOf(q, buckets[i][k], c, start, n)
    requires q.info[buckets[i][k]].unlocked ==> c.late.None?
    ensures Turned(q, buckets, i, k + 1, Serve(q.takers, buckets[i][k], c, start, n, q.info[buckets[i][k]].unlocked))
  {
    ServeKeeps(q, buckets[i][k], c, start, n);
    PassedOne(q, buckets, i, k, c.gphys, start + n);
  }

  lemma SecondUnlocked(q: Request, buckets: seq<seq<nat>>, i: nat, k: nat, c: Cursor, start: Phys, n: Phys)
    requires AtEntry(q, buckets, i, k, c) && q.gphys + q.len < MAX && PartOf(q, buckets[i][k], c, start, n)
    requires q.info[buckets[i][k]].unlocked && c.late.Some?
    ensures TwoUnlockedDue(q)
  {
    assert Due(q, c.late.value.id, q.gphys) && Due(q, buckets[i][k], q.gphys);
  }

  datatype Outcome = TwoUnlocked | Access(found: bool, trace: seq<Event>)

  ghost predicate TwoUnlockedDue(q: Request)
    requires RequestOk(q)
  {
    exists x, y :: x != y && Due(q, x, q.gphys) && Due(q, y, q.gphys) && q.info[x].unlocked && q.info[y].unlocked
  }

  /** No bucket from lo on, up to entry k of bucket i, lists a handle that the rest of the access concerns. */
  ghost predicate Passed(q: Request, buckets: seq<seq<nat>>, lo: nat, i: nat, k: nat, cur: int)
    requires RequestOk(q) && |buckets| == BUCKETS
  {
    forall id :: Due(q, id, cur) ==>
      && (forall b :: lo <= b < i && b < BUCKETS ==> id !in buckets[b])
      && (i < BUCKETS && k <= |buckets[i]| ==> id !in buckets[i][..k])
  }

  ghost predicate Indexed(info: map<nat, Handle>, handles: seq<nat>, buckets: seq<seq<nat>>)
    requires Known(info, handles)
  {
    |buckets| == BUCKETS && forall i :: 0 <= i < BUCKETS ==> BucketOk(info, handles, buckets[i], i)
  }

  /** A handle that the access concerns is listed in the bucket of each of its addresses. */
  lemma ListedAt(q: Request, buckets: seq<seq<nat>>, id: nat, x: Phys)
    requires RequestOk(q) && Indexed(q.info, q.handles, buckets) && id in q.handles
    requires q.info[id].gphys <= x < q.info[id].gphys + q.info[id].len
    ensures id in buckets[Bucket(x)]
  {
    BucketMonotone(q.info[id].gphys, x);
    BucketMonotone(x, q.info[id].gphys + q.info[id].len - 1);
  }

  /** The access does not concern what the buckets list before entry k of bucket i. */
  lemma NotListed(q: Request, buckets: seq<seq<nat>>, i: nat, k: nat, cur: int, id: nat, x: Phys)
    requires RequestOk(q) && Indexed(q.info, q.handles, buckets) && i < BUCKETS && k < |buckets[i]|
    requires 0 <= q.gphys < MAX && Passed(q, buckets, Bucket(q.gphys), i, k, cur) && Due(q, id, cur)
    requires q.info[id].gphys <= x < q.info[id].gphys + q.info[id].len && q.gphys <= x
    ensures x <= q.info[buckets[i][k]].gphys ==> q.info[buckets[i][k]].gphys <= q.info[id].gphys
  {
    assert buckets[i][k] in buckets[i];
    if x <= q.info[buckets[i][k]].gphys {
      ListedAt(q, buckets, id, x);
      BucketMonotone(q.gphys, x);
      BucketMonotone(x, q.info[buckets[i][k]].gphys);
      assert Bucket(x) == i;
      var p :| 0 <= p < |buckets[i]| && buckets[i][p] == id;
      assert p == |buckets[i][..p]|;
    }
  }

  /** Up to the first handle found there is only memory. */
  lemma BeforeHandle(q: Request, buckets: seq<seq<nat>>, i: nat, k: nat, cur: int)
    requires RequestOk(q) && Indexed(q.info, q.handles, buckets) && i < BUCKETS && k < |buckets[i]|
    requires 0 <= q.gphys <= cur && q.gphys + q.len < MAX && Passed(q, buckets, Bucket(q.gphys), i, k, cur)
    requires Due(q, buckets[i][k], cur)
    ensures forall id :: id in q.handles ==>
      !Overlaps(q.info[id], cur, Max(cur, q.info[buckets[i][k]].gphys))
  {
    var s := q.info[buckets[i][k]].gphys;
    forall id | id in q.handles ensures !Overlaps(q.info[id], cur, Max(cur, s)) {
      if Overlaps(q.info[id], cur, Max(cur, s)) {
        NotListed(q, buckets, i, k, cur, id, Max(cur, q.info[id].gphys));
      }
    }
  }

  /** The first handle found that the access concerns is the lowest. */
  lemma LowestFirst(q: Request, buckets: seq<seq<nat>>, i: nat, k: nat, id: nat)
    requires RequestOk(q) && Indexed(q.info, q.handles, buckets) && i < BUCKETS && k < |buckets[i]|
    requires 0 <= q.gphys && q.gphys + q.len < MAX && Passed(q, buckets, Bucket(q.gphys), i, k, q.gphys)
    requires Due(q, buckets[i][k], q.gphys) && Due(q, id, q.gphys)
    ensures q.info[buckets[i][k]].gphys <= q.info[id].gphys
  {
    BeforeHandle(q, buckets, i, k, q.gphys);
    assert !Overlaps(q.info[id], q.gphys, Max(q.gphys, q.info[buckets[i][k]].gphys));
  }

  ghost predicate Lowest(q: Request, id: nat)
    requires RequestOk(q)
  {
    Due(q, id, q.gphys) && forall x :: Due(q, x, q.gphys) ==> q.info[id].gphys <= q.info[x].gphys
  }

  lemma FirstIsLowest(q: Request, buckets: seq<seq<nat>>, i: nat, k: nat)
    requires RequestOk(q) && Indexed(q.info, q.handles, buckets) && i < BUCKETS && k < |buckets[i]|
    requires 0 <= q.gphys && q.gphys + q.len < MAX && Passed(q, buckets, Bucket(q.gphys), i, k, q.gphys)
    requires Due(q, buckets[i][k], q.gphys)
    ensures Lowest(q, buckets[i][k])
  {
    forall id | Due(q, id, q.gphys) ensures q.info[buckets[i][k]].gphys <= q.info[id].gphys {
      LowestFirst(q, buckets, i, k, id);
    }
  }

  /** A handle at or beyond the end of the access ends the search. */
  lemma NothingBeyond(q: Request, buckets: seq<seq<nat>>, i: nat, k: nat, cur: int)
    requires RequestOk(q) && Indexed(q.info, q.handles, buckets) && i < BUCKETS && k < |buckets[i]|
    requires 0 <= q.gphys <= cur && q.gphys + q.len < MAX && Passed(q, buckets, Bucket(q.gphys), i, k, cur)
    requires q.info[buckets[i][k]].gphys >= q.gphys + q.len
    ensures forall id :: !Due(q, id, cur)
  {
    forall id ensures !Due(q, id, cur) {
      if Due(q, id, cur) {
        NotListed(q, buckets, i, k, cur, id, Max(cur, q.info[id].gphys));
      }
    }
  }

  lemma AllPassed(q: Request, buckets: seq<seq<nat>>, i: nat, cur: int)
    requires RequestOk(q) && Indexed(q.info, q.handles, buckets) && 0 < q.len && q.gphys + q.len < MAX
    requires q.gphys <= cur && Passed(q, buckets, Bucket(q.gphys), i, 0, cur) && i > Bucket(q.gphys + q.len - 1)
    ensures forall id :: !Due(q, id, cur)
  {
    forall id ensures !Due(q, id, cur) {
      if Due(q, id, cur) {
        var x := Max(cur, q.info[id].gphys);
        ListedAt(q, buckets, id, x);
        BucketMonotone(q.gphys, x);
        BucketMonotone(x, q.gphys + q.len - 1);
      }
    }
  }

  lemma PassedOne(q: Request, buckets: seq<seq<nat>>, i: nat, k: nat, cur: int, cur': int)
    requires RequestOk(q) && |buckets| == BUCKETS && i < BUCKETS && k < |buckets[i]| && cur <= cur'
    requires 0 <= q.gphys < MAX && Passed(q, buckets, Bucket(q.gphys), i, k, cur) && !Due(q, buckets[i][k], cur')
    ensures Passed(q, buckets, Bucket(q.gphys), i, k + 1, cur')
  {
    assert buckets[i][..k + 1] == buckets[i][..k] + [buckets[i][k]];
    assert forall id :: Due(q, id, cur') ==> Due(q, id, cur);
  }

  /** The two maps agree on where the handles of l lie. */
  ghost predicate SamePlaces(a: map<nat, Handle>, b: map<nat, Handle>, l: seq<nat>) {
    forall id :: id in l && id in a ==> id in b && b[id].gphys == a[id].gphys && b[id].len == a[id].len
  }

  lemma BucketKept(a: map<nat, Handle>, b: map<nat, Handle>, hs: seq<nat>, hs': seq<nat>, l: seq<nat>, i: nat)
    requires Known(a, hs) && BucketOk(a, hs, l, i) && SamePlaces(a, b, l) && Known(b, hs')
    requires forall id :: id in hs' && Touches(b[id], i) <==> id in hs && Touches(a[id], i)
    ensures BucketOk(b, hs', l, i)
  {
  }

  function Inserted(l: seq<nat>, d: nat, id: nat): seq<nat>
    requires d <= |l|
  {
    l[..d] + [id] + l[d..]
  }

  lemma InsertedAt(l: seq<nat>, d: nat, id: nat, p: nat)
    requires d <= |l| && p <= |l|
    ensures Inserted(l, d, id)[p] == if p < d then l[p] else if p == d then id else l[p - 1]
  {
  }

  lemma InsertNoDup(l: seq<nat>, d: nat, id: nat)
    requires NoDup(l) && d <= |l| && id !in l
    ensures NoDup(Inserted(l, d, id))
    ensures forall x :: x in Inserted(l, d, id) <==> x in l || x == id
  {
    var r := Inserted(l, d, id);
    forall a, b | 0 <= a < b < |r| ensures r[a] != r[b] {
      InsertedAt(l, d, id, a);
      InsertedAt(l, d, id, b);
    }
    assert l == l[..d] + l[d..];
  }

  lemma InsertSorted(info: map<nat, Handle>, l: seq<nat>, d: nat, id: nat)
    requires d <= |l| && Known(info, l) && Sorted(info, l) && Known(info, Inserted(l, d, id))
    requires forall p :: 0 <= p < d ==> info[l[p]].gphys <= info[id].gphys
    requires id in info && (d < |l| ==> info[l[d]].gphys > info[id].gphys)
    ensures Sorted(info, Inserted(l, d, id))
  {
    var r := Inserted(l, d, id);
    forall a, b | 0 <= a < b < |r| ensures info[r[a]].gphys <= info[r[b]].gphys {
      InsertedAt(l, d, id, a);
      InsertedAt(l, d, id, b);
    }
  }

  lemma InsertKeeps(info: map<nat, Handle>, handles: seq<nat>, l: seq<nat>, i: nat, d: nat, id: nat)
    requires Known(info, handles + [id]) && Known(info, handles) && BucketOk(info, handles, l, i) && d <= |l|
    requires id !in handles && Touches(info[id], i)
    requires forall p :: 0 <= p < d ==> info[l[p]].gphys <= info[id].gphys
    requires d < |l| ==> info[l[d]].gphys > info[id].gphys
    ensures BucketOk(info, handles + [id], Inserted(l, d, id), i)
  {
    InsertNoDup(l, d, id);
    InsertSorted(info, l, d, id);
  }

  lemma {:induction false} DelSorted(info: map<nat, Handle>, l: seq<nat>, id: nat)
    requires Known(info, l) && Sorted(info, l)
    ensures Sorted(info, Del(l, id))
  {
    if l != [] && l[0] != id {
      var t := Del(l[1..], id);
      DelSorted(info, l[1..], id);
      forall x | x in t ensures info[l[0]].gphys <= info[x].gphys {
        assert x in l[1..];
      }
      SortedCons(info, l[0], t);
    }
  }

  lemma SortedCons(info: map<nat, Handle>, id: nat, t: seq<nat>)
    requires Known(info, [id] + t) && Known(info, t) && Sorted(info, t)
    requires forall x :: x in t ==> info[id].gphys <= info[x].gphys
    ensures Sorted(info, [id] + t)
  {
    var l := [id] + t;
    forall a, b | 0 <= a < b < |l| ensures info[l[a]].gphys <= info[l[b]].gphys {
      assert l[b] == t[b - 1] && t[b - 1] in t;
    }
  }

  /** Removing entry k leaves the entries before it. */
  lemma {:induction false} DelAt(l: seq<nat>, k: nat)
    requires NoDup(l) && k < |l|
    ensures |Del(l, l[k])| == |l| - 1 && Del(l, l[k])[..k] == l[..k]
  {
    if k > 0 {
      assert l[0] != l[k] && l[1..][k - 1] == l[k];
      DelAt(l[1..], k - 1);
      assert Del(l, l[k]) == [l[0]] + Del(l[1..], l[k]);
      assert l[..k] == [l[0]] + l[1..][..k - 1];
    }
  }

  lemma DelKeeps(info: map<nat, Handle>, handles: seq<nat>, l: seq<nat>, i: nat, id: nat)
    requires Known(info, handles) && NoDup(handles) && BucketOk(info, handles, l, i)
    ensures BucketOk(info, Del(handles, id), Del(l, id), i)
  {
    DelSorted(info, l, id);
  }

  lemma NewHandle(info: map<nat, Handle>, handles: seq<nat>, buckets: seq<seq<nat>>, id: nat, h: Handle)
    requires Known(info, handles) && Disjoint(info, handles) && Indexed(info, handles, buckets) && id !in info
    requires HandleOk(h) && forall x :: x in handles ==> !Overlaps(info[x], h.gphys, h.gphys + h.len)
    ensures var info' := info[id := h];
      Known(info', handles + [id]) && Disjoint(info', handles + [id]) && Indexed(info', handles, buckets)
  {
    var info' := info[id := h];
    forall i | 0 <= i < BUCKETS ensures BucketOk(info', handles, buckets[i], i) {
      BucketKept(info, info', handles, handles, buckets[i], i);
    }
  }

  ghost predicate AllLive(info: map<nat, Handle>, l: seq<nat>) {
    forall x :: x in l ==> x in info && !info[x].unregistered
  }

  lemma LastPage(addr: Phys)
    ensures addr - addr % PAGESIZE + PAGESIZE <= MAX
  {
  }

  lemma InTheWay(info: map<nat, Handle>, handles: seq<nat>, k: nat, gphys: Phys, len: Len)
    requires Known(info, handles) && k < |handles| && RangeCheck(info[handles[k]], gphys, len).Some?
    ensures var id := handles[k];
      && id in handles && !info[id].unregistered && (0 < len ==> Meets(info[id], gphys, len))
      && (HandleOk(Handle(gphys, len, false, false)) ==> Overlaps(info[id], gphys, gphys + len))
  {
    assert handles[k] in handles;
    RangeCheckMeets(info[handles[k]], gphys, len);
    if HandleOk(Handle(gphys, len, false, false)) {
      RangeCheckLinear(info[handles[k]], gphys, len);
    }
  }

  lemma NoneInTheWay(info: map<nat, Handle>, handles: seq<nat>, gphys: Phys, len: Len)
    requires Known(info, handles) && forall id :: id in handles ==> RangeCheck(info[id], gphys, len).None?
    ensures forall id :: id in handles ==> if 0 < len then !Meets(info[id], gphys, len) else info[id].unregistered
    ensures HandleOk(Handle(gphys, len, false, false)) ==>
      forall id :: id in handles ==> !Overlaps(info[id], gphys, gphys + len)
  {
    forall id | id in handles ensures if 0 < len then !Meets(info[id], gphys, len) else info[id].unregistered {
      RangeCheckMeets(info[id], gphys, len);
    }
    if HandleOk(Handle(gphys, len, false, false)) {
      forall id | id in handles ensures !Overlaps(info[id], gphys, gphys + len) {
        RangeCheckLinear(info[id], gphys, len);
      }
    }
  }

  class Mmio {
    var info: map<nat, Handle>
    var handles: seq<nat>
    var buckets: seq<seq<nat>>
    var nextId: nat
    var unregisterFlag: bool

    /** Live handles do not overlap, every bucket lists what touches it in order, no handle is leaked,
        and a deferred removal is not forgotten. */
    ghost predicate Valid()
      reads this
    {
      && Known(info, handles) && NoDup(handles) && Disjoint(info, handles)
      && Indexed(info, handles, buckets)
      && (forall id :: id in info <==> id in handles)
      && (forall id :: id in info ==> id < nextId)
      && (forall id :: id in info && info[id].unregistered ==> unregisterFlag)
    }

    ghost function Asked(gphys: Phys, len: Len, takers: set<nat>): Request
      reads this
    {
      Request(info, handles, gphys, len, takers)
    }

    ghost function Query(gphys: Phys, len: Len): Request
      reads this
    {
      Request(info, handles, gphys, len, {})
    }

    /** mmio_init. */
    constructor ()
      ensures Valid() && handles == []
    {
      info, handles, nextId, unregisterFlag := map[], [], 0, false;
      buckets := seq(BUCKETS, _ => []);
    }

    /** The buckets below lo list the handles of hs, the others those of hs0. */
    ghost predicate IndexedFrom(hs: seq<nat>, hs0: seq<nat>, lo: nat)
      reads this
    {
      && Known(info, hs) && Known(info, hs0) && |buckets| == BUCKETS
      && forall i :: 0 <= i < BUCKETS ==> BucketOk(info, if i < lo then hs else hs0, buckets[i], i)
    }

    /** add. */
    method Add(i: nat, id: nat, ghost hs: seq<nat>)
      requires IndexedFrom(hs + [id], hs, i) && i < BUCKETS && id !in hs && Touches(info[id], i)
      modifies this`buckets
      ensures IndexedFrom(hs + [id], hs, i + 1)
    {
      var l := buckets[i];
      var d := 0;
      while d < |l| && info[l[d]].gphys <= info[id].gphys
        invariant d <= |l|
        invariant forall p :: 0 <= p < d ==> info[l[p]].gphys <= info[id].gphys
      {
        d := d + 1;
      }
      InsertKeeps(info, hs, l, i, d, id);
      buckets := buckets[i := Inserted(l, d, id)];
    }

    /** scan with add. */
    method ScanAdd(id: nat, ghost hs: seq<nat>)
      requires IndexedFrom(hs + [id], hs, 0) && id !in hs
      modifies this`buckets
      ensures Indexed(info, hs + [id], buckets)
    {
      var s, e := Bucket(info[id].gphys), Bucket(info[id].gphys + info[id].len - 1);
      assert forall i :: 0 <= i < s ==> BucketOk(info, hs + [id], buckets[i], i) by {
        forall i | 0 <= i < s ensures BucketOk(info, hs + [id], buckets[i], i) {
          BucketKept(info, info, hs, hs + [id], buckets[i], i);
        }
      }
      for i := s to e + 1
        invariant IndexedFrom(hs + [id], hs, i)
      {
        Add(i, id, hs);
      }
      forall i | e < i < BUCKETS ensures BucketOk(info, hs + [id], buckets[i], i) {
        BucketKept(info, info, hs, hs + [id], buckets[i], i);
      }
    }

    /** scan with del. */
    method ScanDel(id: nat)
      requires Known(info, handles) && NoDup(handles) && Indexed(info, handles, buckets) && id in handles
      modifies this`buckets
      ensures Indexed(info, Del(handles, id), buckets)
    {
      var s, e := Bucket(info[id].gphys), Bucket(info[id].gphys + info[id].len - 1);
      ghost var hs := Del(handles, id);
      forall i | 0 <= i < s || e < i < BUCKETS ensures BucketOk(info, hs, buckets[i], i) {
        BucketKept(info, info, handles, hs, buckets[i], i);
      }
      for i := s to e + 1
        invariant |buckets| == BUCKETS
        invariant forall b :: s <= b < i ==> BucketOk(info, hs, buckets[b], b)
        invariant forall b :: 0 <= b < s || e < b < BUCKETS ==> BucketOk(info, hs, buckets[b], b)
        invariant forall b :: i <= b <= e ==> BucketOk(info, handles, buckets[b], b)
      {
        DelKeeps(info, handles, buckets[i], i, id);
        buckets := buckets[i := Del(buckets[i], id)];
      }
    }

    /** The search for a handle in the way; a range of no length is in the way of every handle. */
    method Conflicts(gphys: Phys, len: Len) returns (r: bool)
      requires Known(info, handles)
      ensures 0 < len ==> (r <==> exists id :: id in handles && Meets(info[id], gphys, len))
      ensures len == 0 ==> (r <==> exists id :: id in handles && !info[id].unregistered)
      ensures HandleOk(Handle(gphys, len, false, false)) ==>
        (r <==> exists id :: id in handles && Overlaps(info[id], gphys, gphys + len))
    {
      for k := 0 to |handles|
        invariant forall id :: id in handles[..k] ==> RangeCheck(info[id], gphys, len).None?
      {
        assert handles[k] in handles && handles[..k + 1] == handles[..k] + [handles[k]];
        if RangeCheck(info[handles[k]], gphys, len).Some? {
          InTheWay(info, handles, k, gphys, len);
          return true;
        }
      }
      assert handles[..|handles|] == handles;
      NoneInTheWay(info, handles, gphys, len);
      return false;
    }

    /** mmio_register_internal; flushFails says that the shadow of the range could not be flushed. */
    method Register(gphys: Phys, len: Len, unlocked: bool, flushFails: bool) returns (r: Option<nat>)
      requires Valid() && HandleOk(Handle(gphys, len, unlocked, false))
      modifies this
      ensures Valid()
      ensures r.None? <==> flushFails || exists id :: id in old(handles) && Overlaps(old(info)[id], gphys, gphys + len)
      ensures r.None? ==> handles == old(handles) && info == old(info) && buckets == old(buckets)
      ensures r.Some? ==> r.value !in old(info) && handles == old(handles) + [r.value]
      ensures r.Some? ==> info == old(info)[r.value := Handle(gphys, len, unlocked, false)]
    {
      var conflict := Conflicts(gphys, len);
      if conflict || flushFails {
        return None;
      }
      var id := nextId;
      NewHandle(info, handles, buckets, id, Handle(gphys, len, unlocked, false));
      NoDupAdd(handles, id);
      info, nextId := info[id := Handle(gphys, len, unlocked, false)], nextId + 1;
      ScanAdd(id, handles);
      handles := handles + [id];
      return Some(id);
    }

    /** LIST1_DEL, scan with del, and free. */
    method Remove(id: nat)
      requires Valid() && id in handles
      modifies this
      ensures Valid() && handles == Del(old(handles), id) && info == old(info) - {id}
      ensures unregisterFlag == old(unregisterFlag) && nextId == old(nextId)
    {
      ScanDel(id);
      ghost var info0 := info;
      handles := Del(handles, id);
      forall i | 0 <= i < BUCKETS ensures BucketOk(info0 - {id}, handles, buckets[i], i) {
        BucketKept(info0, info0 - {id}, handles, handles, buckets[i], i);
      }
      info := info - {id};
    }

    /** mmio_unregister; busy says that somebody holds the lock, so that the handle is only marked. */
    method Unregister(id: nat, busy: bool)
      requires Valid() && id in handles
      modifies this
      ensures Valid()
      ensures forall x :: x in info && !info[x].unregistered <==>
        x in old(info) && !old(info)[x].unregistered && x != id
      ensures forall x :: x in info && x != id ==> x in old(info) && info[x] == old(info)[x]
      ensures busy || handles == Del(old(handles), id)
    {
      if busy {
        ghost var info0 := info;
        var h := info[id].(unregistered := true);
        forall i | 0 <= i < BUCKETS ensures BucketOk(info0[id := h], handles, buckets[i], i) {
          BucketKept(info0, info0[id := h], handles, handles, buckets[i], i);
        }
        info, unregisterFlag := info[id := h], true;
        return;
      }
      Remove(id);
    }

    /** mmio_unlock; busy says that the lock cannot be had, and the last holder will do the work. */
    method Unlock(busy: bool)
      requires Valid()
      modifies this
      ensures Valid()
      ensures busy ==> info == old(info) && handles == old(handles)
      ensures !busy ==> forall x :: x in info <==> x in old(info) && !old(info)[x].unregistered
      ensures forall x :: x in info ==> x in old(info) && info[x] == old(info)[x]
      ensures !busy ==> !unregisterFlag
    {
      if unregisterFlag && !busy {
        var k := 0;
        while k < |handles|
          invariant Valid() && k <= |handles|
          invariant AllLive(info, handles[..k])
          invariant forall x :: x in old(info) && !old(info)[x].unregistered ==> x in info
          invariant forall x :: x in info ==> x in old(info) && info[x] == old(info)[x]
          decreases |handles| - k
        {
          var id := handles[k];
          assert id in handles;
          ghost var swept := handles[..k];
          if info[id].unregistered {
            DelAt(handles, k);
            Remove(id);
            assert handles[..k] == swept;
          } else {
            k := k + 1;
            assert handles[..k] == swept + [id];
          }
        }
        assert handles[..k] == handles;
        unregisterFlag := false;
      }
    }

    /** mmio_range: the end of the lowest handle in the range, or zero. */
    method Range(gphys: Phys, len: Len) returns (r: Phys)
      requires Valid()
      ensures len == 0 || gphys + len >= MAX ==> r == 0
      ensures len > 0 && gphys + len < MAX && (forall id :: !Due(Query(gphys, len), id, gphys)) ==> r == 0
      ensures len > 0 && gphys + len < MAX && (exists id :: Due(Query(gphys, len), id, gphys)) ==>
        exists id :: Lowest(Query(gphys, len), id) && r == Add64(info[id].gphys, info[id].len)
    {
      if len == 0 {
        return 0;
      }
      ghost var q := Query(gphys, len);
      var i := Bucket(gphys);
      var j := Bucket(Sub64(Add64(gphys, len), 1));
      while i <= j
        invariant Bucket(gphys) <= i <= BUCKETS
        invariant gphys + len < MAX ==> Passed(q, buckets, Bucket(gphys), i, 0, gphys)
      {
        for k := 0 to |buckets[i]|
          invariant gphys + len < MAX ==> Passed(q, buckets, Bucket(gphys), i, k, gphys)
        {
          var id := buckets[i][k];
          assert id in buckets[i];
          if info[id].gphys >= Add64(gphys, len) {
            if gphys + len < MAX {
              NothingBeyond(q, buckets, i, k, gphys);
            }
            return 0;
          }
          RangeCheckLinear(info[id], gphys, len);
          if RangeCheck(info[id], gphys, len).Some? {
            assert Due(Query(gphys, len), id, gphys);
            FirstIsLowest(q, buckets, i, k);
            return Add64(info[id].gphys, info[id].len);
          }
          if gphys + len < MAX {
            PassedOne(q, buckets, i, k, gphys, gphys);
          }
        }
        i := i + 1;
      }
      if gphys + len < MAX {
        AllPassed(q, buckets, i, gphys);
      }
      return 0;
    }

    /** mmio_access_page, up to the call of the interpreter. */
    method AccessPage(addr: Phys) returns (r: bool)
      requires Valid()
      ensures var gphys := addr - addr % 4096;
        r <==> gphys + 4096 < MAX && exists id :: Due(Query(gphys, 4096), id, gphys)
    {
      var gphys: Phys := addr - addr % PAGESIZE;
      LastPage(addr);
      ghost var q := Query(gphys, PAGESIZE);
      var i := Bucket(gphys);
      for k := 0 to |buckets[i]|
        invariant gphys + PAGESIZE < MAX ==> Passed(q, buckets, Bucket(gphys), i, k, gphys)
      {
        var id := buckets[i][k];
        assert id in buckets[i];
        if info[id].gphys >= Add64(gphys, PAGESIZE) {
          if gphys + PAGESIZE < MAX {
            NothingBeyond(q, buckets, i, k, gphys);
          }
          return false;
        }
        RangeCheckLinear(info[id], gphys, PAGESIZE);
        if RangeCheck(info[id], gphys, PAGESIZE).Some? {
          assert Due(Query(gphys, PAGESIZE), id, gphys);
          return true;
        }
        if gphys + PAGESIZE < MAX {
          PassedOne(q, buckets, i, k, gphys, gphys);
        }
      }
      if gphys + PAGESIZE < MAX {
        AllPassed(q, buckets, i + 1, gphys);
      }
      return false;
    }

    /** mmio_access_memory. */
    method AccessMemory(gphys: Phys, len: Len, takers: set<nat>) returns (r: Outcome)
      requires Valid()
      ensures len == 0 || gphys + len >= MAX ==> r == Access(false, [])
      ensures len > 0 && gphys + len < MAX ==>
        var q := Asked(gphys, len, takers);
        && (r.TwoUnlocked? <==> TwoUnlockedDue(q))
        && (r.Access? ==> (r.found <==> exists id :: Due(q, id, gphys)))
        && (r.Access? && !r.found ==> r.trace == [])
        && (r.Access? && r.found ==> Complete(q, r.trace))
    {
      if len == 0 {
        return Access(false, []);
      }
      var i := Bucket(gphys);
      var j := Bucket(Sub64(Add64(gphys, len), 1));
      var c := Cursor(gphys, 0, len, false, [], None);
      ghost var q := Asked(gphys, len, takers);
      var panicked, out := false, false;
      while !out && i <= j
        invariant Bucket(gphys) <= i <= BUCKETS
        invariant if out then Searched(q, c) else Searching(q, buckets, i, 0, c)
      {
        panicked, out, c := AccessBucket(i, c, takers, q);
        if panicked {
          return TwoUnlocked;
        }
        i := i + 1;
      }
      if !out && gphys + len < MAX {
        AllPassed(q, buckets, i, c.gphys);
      }
      r := AccessTail(c, q);
    }

    /** The rest of the access, and the handler that is called without the lock. */
    method AccessTail(c: Cursor, ghost q: Request) returns (r: Outcome)
      requires RequestOk(q) && 0 <= q.gphys && Searched(q, c)
      ensures q.gphys + q.len >= MAX ==> r == Access(false, [])
      ensures q.gphys + q.len < MAX ==>
        && r.Access? && !TwoUnlockedDue(q)
        && (r.found <==> exists id :: Due(q, id, q.gphys))
        && (if r.found then Complete(q, r.trace) else r.trace == [])
    {
      if c.found {
        MemoryStep(q, c.gphys, c.rest, c.trace, c.late);
        var t := WithMemory(c.trace, c.gphys, c.off, c.rest);
        Finish(q, t, c.late);
        return Access(true, WithLate(t, c.late));
      }
      return Access(false, []);
    }

    /** The loop over one bucket. */
    method AccessBucket(i: nat, c0: Cursor, takers: set<nat>, ghost q: Request)
      returns (panicked: bool, out: bool, c: Cursor)
      requires Valid() && q == Request(info, handles, q.gphys, q.len, takers) && 0 <= q.gphys < MAX && 0 < q.len < UINT
      requires q.gphys + q.len <= MAX && i < BUCKETS && Searching(q, buckets, i, 0, c0)
      ensures panicked ==> q.gphys + q.len < MAX && TwoUnlockedDue(q)
      ensures !panicked ==> if out then Searched(q, c) else Searching(q, buckets, i + 1, 0, c)
    {
      c, panicked, out := c0, false, false;
      var k := 0;
      while k < |buckets[i]|
        invariant 0 <= k <= |buckets[i]|
        invariant Searching(q, buckets, i, k, c)
      {
        var id := buckets[i][k];
        assert id in buckets[i];
        EndOf(q, c);
        if info[id].gphys >= Add64(c.gphys, c.rest) {
          if q.gphys + q.len < MAX {
            NothingBeyond(q, buckets, i, k, c.gphys);
          }
          return false, true, c;
        }
        var hit := RangeCheck(info[id], c.gphys, c.rest);
        if hit.Some? {
          HitPart(q, buckets, i, k, c);
          if info[id].unlocked && c.late.Some? {
            SecondUnlocked(q, buckets, i, k, c, hit.value.0, hit.value.1);
            return true, true, c;
          }
          Hit(q, buckets, i, k, c, hit.value.0, hit.value.1);
          c := Serve(takers, id, c, hit.value.0, hit.value.1, info[id].unlocked);
          if c.rest == 0 {
            return false, true, c;
          }
        } else {
          Miss(q, buckets, i, k, c);
        }
        k := k + 1;
      }
    }
  }
}
