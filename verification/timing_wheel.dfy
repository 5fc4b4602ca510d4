// misc/coroutine/co_routine.h and co_routine.cpp: the timing wheel.
//
// A wheel of n slots holds items by how many ticks after start they expire; the slot for d ticks
// is (start_idx + d) % n. Items due later than the wheel reaches are put in its last slot, taken
// early, and added again by the event loop.
module TimingWheels {
  import opened IntrusiveLists

  // The part of timeout_item_t that is not about lists.
  class Timeout {
    const expire_time: nat
    var is_timeout: bool

    constructor (expire_time: nat)
      ensures this.expire_time == expire_time && !is_timeout
    {
      this.expire_time, is_timeout := expire_time, false;
    }
  }

  type Entry = Item<Timeout>

  // ---------------------------------------------------------------------------------------
  // Slots as values

  type Slots = seq<seq<Entry>>

  function Slot(n: nat, idx: nat, d: nat): (j: nat)
    requires n > 0
    ensures j < n
  {
    (idx + d) % n
  }

  lemma Multiple(n: nat, m: int)
    requires n > 0 && m >= 1
    ensures n * m >= n
  {
  }

  lemma Spread(n: nat, p: int, q: int)
    ensures n * (p - q) == n * p - n * q
  {
  }

  lemma SameRemainder(n: nat, p: int, q: int, a: nat, b: nat)
    requires a < n && b < n && n * p + a == n * q + b
    ensures p == q && a == b
  {
    Spread(n, q, p);
    Spread(n, p, q);
    if p < q {
      Multiple(n, q - p);
    } else if q < p {
      Multiple(n, p - q);
    }
  }

  lemma Division(x: nat, n: nat)
    requires n > 0
    ensures x == n * (x / n) + x % n
  {
  }

  lemma SlotsApart(n: nat, idx: nat, a: nat, b: nat)
    requires a < b < n
    ensures Slot(n, idx, a) != Slot(n, idx, b)
  {
    var p, q, r := (idx + a) / n, (idx + b) / n, (idx + a) % n;
    Division(idx + a, n);
    Division(idx + b, n);
    if q <= p {
      NotAbove(n, q, p);
    } else if q > p {
      Multiple(n, q - p);
      assert n * (q - p) == n * q - n * p;
    }
  }

  lemma NotAbove(n: nat, q: int, p: int)
    requires q <= p
    ensures n * q <= n * p
  {
    assert n * p - n * q == n * (p - q);
  }

  lemma SlotAround(n: nat, idx: nat, d: nat)
    requires n > 0
    ensures Slot(n, idx, d + n) == Slot(n, idx, d)
  {
    var x := idx + d;
    Division(x, n);
    Division(x + n, n);
    assert n * (x / n + 1) == n * (x / n) + n;
    SameRemainder(n, (x + n) / n, x / n + 1, (x + n) % n, x % n);
  }

  lemma SlotShifted(n: nat, idx: nat, k: nat, d: nat)
    requires n > 0
    ensures Slot(n, idx + k, d) == Slot(n, idx, k + d)
  {
    assert idx + k + d == idx + (k + d);
  }

  // What is taken from cnt slots, and what is left.
  ghost function Taken(slots: Slots, idx: nat, cnt: nat): seq<Entry>
    requires |slots| > 0
  {
    if cnt == 0 then [] else Taken(slots, idx, cnt - 1) + slots[Slot(|slots|, idx, cnt - 1)]
  }

  ghost function Emptied(slots: Slots, idx: nat, cnt: nat): (r: Slots)
    requires |slots| > 0
    ensures |r| == |slots|
  {
    if cnt == 0 then slots else Emptied(slots, idx, cnt - 1)[Slot(|slots|, idx, cnt - 1) := []]
  }

  lemma {:induction false} EmptiedAt(slots: Slots, idx: nat, cnt: nat, d: nat)
    requires cnt <= |slots| && d < |slots|
    ensures Emptied(slots, idx, cnt)[Slot(|slots|, idx, d)] == if d < cnt then [] else slots[Slot(|slots|, idx, d)]
  {
    if cnt > 0 {
      hide Slot;
      EmptiedAt(slots, idx, cnt - 1, d);
      if d < cnt - 1 {
        SlotsApart(|slots|, idx, d, cnt - 1);
      } else if d > cnt - 1 {
        SlotsApart(|slots|, idx, cnt - 1, d);
      }
    }
  }

  // How many slots are taken when the clock has moved from start to now.
  function Count(start: nat, now: nat, n: nat): nat
    requires start <= now
  {
    if now - start + 1 > n then n else now - start + 1
  }

  lemma {:induction false} InTaken(slots: Slots, idx: nat, cnt: nat, x: Entry)
    requires |slots| > 0
    ensures x in Taken(slots, idx, cnt) <==> exists d :: 0 <= d < cnt && x in slots[Slot(|slots|, idx, d)]
  {
    if cnt > 0 {
      InTaken(slots, idx, cnt - 1, x);
    }
  }

  // ---------------------------------------------------------------------------------------
  // Nothing due is missed

  // No item is in a slot that comes up after the item is due.
  ghost predicate NoneLate(slots: Slots, start: nat, idx: nat) {
    && |slots| > 0
    && forall d: nat, x :: d < |slots| && x in slots[Slot(|slots|, idx, d)] ==> start + d <= x.data.expire_time
  }

  // Everything due by now is taken, wherever it was put.
  lemma AllDueTaken(slots: Slots, start: nat, idx: nat, now: nat, d: nat, x: Entry)
    requires NoneLate(slots, start, idx) && start <= now
    requires d < |slots| && x in slots[Slot(|slots|, idx, d)] && x.data.expire_time <= now
    ensures x in Taken(slots, idx, Count(start, now, |slots|))
  {
    InTaken(slots, idx, Count(start, now, |slots|), x);
  }

  lemma TakeKeepsNoneLate(slots: Slots, start: nat, idx: nat, now: nat)
    requires NoneLate(slots, start, idx) && start <= now
    ensures var cnt := Count(start, now, |slots|);
      NoneLate(Emptied(slots, idx, cnt), now, idx + cnt - 1)
  {
    var n, cnt := |slots|, Count(start, now, |slots|);
    var left, idx' := Emptied(slots, idx, cnt), idx + cnt - 1;
    forall d: nat, x: Entry | d < n && x in left[Slot(n, idx', d)] ensures now + d <= x.data.expire_time {
      LeftAt(slots, idx, cnt, d);
    }
  }

  // What is left d ticks after the last slot taken.
  lemma LeftAt(slots: Slots, idx: nat, cnt: nat, d: nat)
    requires 0 < cnt <= |slots| && d < |slots|
    ensures var n := |slots|;
      Emptied(slots, idx, cnt)[Slot(n, idx + cnt - 1, d)] ==
      if d == 0 || cnt - 1 + d >= n then [] else slots[Slot(n, idx, cnt - 1 + d)]
  {
    hide Slot, Emptied;
    var n, o := |slots|, cnt - 1 + d;
    SlotShifted(n, idx, cnt - 1, d);
    if o < n {
      EmptiedAt(slots, idx, cnt, o);
    } else {
      SlotAround(n, idx, o - n);
      EmptiedAt(slots, idx, cnt, o - n);
    }
  }

  // Where an item that expires at t is put: its own slot, or the last one.
  function Ahead(start: nat, t: nat, n: nat): nat
    requires start <= t && n > 0
  {
    if t - start >= n then n - 1 else t - start
  }

  lemma AddKeepsNoneLate(slots: Slots, start: nat, idx: nat, x: Entry)
    requires NoneLate(slots, start, idx) && start <= x.data.expire_time
    ensures var j := Slot(|slots|, idx, Ahead(start, x.data.expire_time, |slots|));
      NoneLate(slots[j := slots[j] + [x]], start, idx)
  {
    hide Slot;
    var n := |slots|;
    var a := Ahead(start, x.data.expire_time, n);
    forall d: nat | d < n && d != a ensures Slot(n, idx, d) != Slot(n, idx, a) {
      if d < a { SlotsApart(n, idx, d, a); } else { SlotsApart(n, idx, a, d); }
    }
  }

  // ---------------------------------------------------------------------------------------
  // A stable priority queue, as long as nothing is put beyond the wheel's reach

  // The items of s that expire at t, in order.
  ghost function DueAt(s: seq<Entry>, t: nat): seq<Entry> {
    if s == [] then []
    else (if s[0].data.expire_time == t then [s[0]] else []) + DueAt(s[1..], t)
  }

  // The items of s that expire after t, in order.
  ghost function DueAfter(s: seq<Entry>, t: nat): seq<Entry> {
    if s == [] then []
    else (if s[0].data.expire_time > t then [s[0]] else []) + DueAfter(s[1..], t)
  }

  // The wheel holds the pending items, listed as they were added, each tick's items in its slot.
  ghost predicate Holds(slots: Slots, start: nat, idx: nat, pending: seq<Entry>) {
    && |slots| > 0
    && (forall x :: x in pending ==> start <= x.data.expire_time < start + |slots|)
    && forall d: nat :: d < |slots| ==> slots[Slot(|slots|, idx, d)] == DueAt(pending, start + d)
  }

  // out lists the items of s due by t by time, and those of one time in the order s has them.
  ghost predicate StableOrder(out: seq<Entry>, s: seq<Entry>, t: nat) {
    && (forall j, k :: 0 <= j < k < |out| ==> out[j].data.expire_time <= out[k].data.expire_time)
    && forall u: nat :: DueAt(out, u) == if u <= t then DueAt(s, u) else []
  }

  lemma {:induction false} DueAtSum(a: seq<Entry>, b: seq<Entry>, t: nat)
    ensures DueAt(a + b, t) == DueAt(a, t) + DueAt(b, t)
  {
    if a == [] {
      assert a + b == b;
    } else {
      var s, first := a + b, if a[0].data.expire_time == t then [a[0]] else [];
      assert s[0] == a[0] && s[1..] == a[1..] + b;
      DueAtSum(a[1..], b, t);
      assert first + (DueAt(a[1..], t) + DueAt(b, t)) == first + DueAt(a[1..], t) + DueAt(b, t);
    }
  }

  lemma {:induction false} DueAtTwice(s: seq<Entry>, t: nat, u: nat)
    ensures DueAt(DueAt(s, t), u) == if t == u then DueAt(s, t) else []
  {
    if s != [] {
      DueAtTwice(s[1..], t, u);
      if s[0].data.expire_time == t {
        assert DueAt(s, t)[1..] == DueAt(s[1..], t);
      } else {
        assert DueAt(s, t) == DueAt(s[1..], t);
      }
    }
  }

  lemma {:induction false} DueAtAfter(s: seq<Entry>, t: nat, u: nat)
    ensures DueAt(DueAfter(s, t), u) == if u > t then DueAt(s, u) else []
  {
    if s != [] {
      DueAtAfter(s[1..], t, u);
      if s[0].data.expire_time > t {
        assert DueAfter(s, t)[1..] == DueAfter(s[1..], t);
      } else {
        assert DueAfter(s, t) == DueAfter(s[1..], t);
      }
    }
  }

  lemma {:induction false} InDueAt(s: seq<Entry>, t: nat, x: Entry)
    ensures x in DueAt(s, t) <==> x in s && x.data.expire_time == t
  {
    if s != [] {
      InDueAt(s[1..], t, x);
    }
  }

  lemma {:induction false} InDueAfter(s: seq<Entry>, t: nat, x: Entry)
    ensures x in DueAfter(s, t) <==> x in s && x.data.expire_time > t
  {
    if s != [] {
      InDueAfter(s[1..], t, x);
    }
  }

  lemma {:induction false} NoneDueAt(s: seq<Entry>, t: nat)
    requires forall x :: x in s ==> x.data.expire_time != t
    ensures DueAt(s, t) == []
  {
    if s != [] {
      NoneDueAt(s[1..], t);
    }
  }

  // out lists the items of s due from start on for cnt ticks.
  ghost predicate InOrder(out: seq<Entry>, s: seq<Entry>, start: nat, cnt: nat) {
    && (forall x :: x in out ==> start <= x.data.expire_time < start + cnt)
    && (forall j, k :: 0 <= j < k < |out| ==> out[j].data.expire_time <= out[k].data.expire_time)
    && forall u: nat :: DueAt(out, u) == if start <= u < start + cnt then DueAt(s, u) else []
  }

  lemma OneMoreTick(out: seq<Entry>, s: seq<Entry>, start: nat, cnt: nat)
    requires InOrder(out, s, start, cnt)
    ensures InOrder(out + DueAt(s, start + cnt), s, start, cnt + 1)
  {
    hide DueAt;
    var t := start + cnt;
    var more := DueAt(s, t);
    forall x | x in more ensures x.data.expire_time == t {
      InDueAt(s, t, x);
    }
    forall j, k | 0 <= j < k < |out + more|
      ensures (out + more)[j].data.expire_time <= (out + more)[k].data.expire_time
    {
      if k >= |out| {
        assert (out + more)[k] in more;
        assert j < |out| ==> (out + more)[j] in out;
        assert j >= |out| ==> (out + more)[j] in more;
      }
    }
    forall u: nat ensures DueAt(out + more, u) == if start <= u < start + cnt + 1 then DueAt(s, u) else [] {
      DueAtSum(out, more, u);
      DueAtTwice(s, t, u);
    }
  }

  // The first cnt slots give the items of the first cnt ticks in order.
  lemma {:induction false} TakenInOrder(slots: Slots, start: nat, idx: nat, pending: seq<Entry>, cnt: nat)
    requires Holds(slots, start, idx, pending) && cnt <= |slots|
    ensures InOrder(Taken(slots, idx, cnt), pending, start, cnt)
  {
    hide Slot, InOrder, DueAt;
    if cnt == 0 {
      NothingInOrder(pending, start);
    } else {
      TakenInOrder(slots, start, idx, pending, cnt - 1);
      OneMoreTick(Taken(slots, idx, cnt - 1), pending, start, cnt - 1);
      SlotHolds(slots, start, idx, pending, cnt - 1);
    }
  }

  lemma NothingInOrder(s: seq<Entry>, start: nat)
    ensures InOrder([], s, start, 0)
  {
  }

  lemma SlotHolds(slots: Slots, start: nat, idx: nat, pending: seq<Entry>, d: nat)
    requires Holds(slots, start, idx, pending) && d < |slots|
    ensures slots[Slot(|slots|, idx, d)] == DueAt(pending, start + d)
  {
  }

  // What comes out of a wheel that holds the pending items is a stable priority queue's answer.
  lemma TakenIsStable(slots: Slots, start: nat, idx: nat, pending: seq<Entry>, now: nat)
    requires Holds(slots, start, idx, pending) && start <= now
    ensures StableOrder(Taken(slots, idx, Count(start, now, |slots|)), pending, now)
  {
    hide Slot, DueAt, Taken;
    var n, cnt := |slots|, Count(start, now, |slots|);
    TakenInOrder(slots, start, idx, pending, cnt);
    var out := Taken(slots, idx, cnt);
    forall u: nat ensures DueAt(out, u) == if u <= now then DueAt(pending, u) else [] {
      if u < start || start + n <= u {
        NoneDueAt(pending, u);
      }
    }
  }

  lemma LeftSlot(slots: Slots, start: nat, idx: nat, pending: seq<Entry>, now: nat, d: nat)
    requires Holds(slots, start, idx, pending) && start <= now && d < |slots|
    ensures var cnt := Count(start, now, |slots|);
      Emptied(slots, idx, cnt)[Slot(|slots|, idx + cnt - 1, d)] == DueAt(DueAfter(pending, now), now + d)
  {
    hide Slot, DueAt, DueAfter, Emptied;
    var n, cnt := |slots|, Count(start, now, |slots|);
    LeftAt(slots, idx, cnt, d);
    DueAtAfter(pending, now, now + d);
    if d > 0 && cnt - 1 + d >= n {
      NoneDueAt(pending, now + d);
    } else if d > 0 {
      SlotHolds(slots, start, idx, pending, cnt - 1 + d);
    }
  }

  // Taking refines a stable priority queue: out come exactly the items due, in stable order, and
  // the wheel, moved on to now, holds the others.
  lemma TakeIsStable(slots: Slots, start: nat, idx: nat, pending: seq<Entry>, now: nat)
    requires Holds(slots, start, idx, pending) && start <= now
    ensures var cnt := Count(start, now, |slots|);
      && StableOrder(Taken(slots, idx, cnt), pending, now)
      && Holds(Emptied(slots, idx, cnt), now, idx + cnt - 1, DueAfter(pending, now))
  {
    hide Slot, DueAt, DueAfter, Emptied, Taken, StableOrder;
    TakenIsStable(slots, start, idx, pending, now);
    var n, cnt := |slots|, Count(start, now, |slots|);
    var left, rest, idx' := Emptied(slots, idx, cnt), DueAfter(pending, now), idx + cnt - 1;
    forall x | x in rest ensures now <= x.data.expire_time < now + n {
      InDueAfter(pending, now, x);
    }
    forall d: nat | d < n ensures left[Slot(n, idx', d)] == DueAt(rest, now + d) {
      LeftSlot(slots, start, idx, pending, now, d);
    }
  }

  lemma DueAtOne(x: Entry, t: nat)
    ensures DueAt([x], t) == if x.data.expire_time == t then [x] else []
  {
  }

  lemma AddIsLast(slots: Slots, start: nat, idx: nat, pending: seq<Entry>, x: Entry)
    requires Holds(slots, start, idx, pending) && start <= x.data.expire_time < start + |slots|
    ensures var j := Slot(|slots|, idx, Ahead(start, x.data.expire_time, |slots|));
      Holds(slots[j := slots[j] + [x]], start, idx, pending + [x])
  {
    hide Slot, DueAt;
    var n := |slots|;
    var a := x.data.expire_time - start;
    var slots' := slots[Slot(n, idx, a) := slots[Slot(n, idx, a)] + [x]];
    forall d: nat | d < n ensures slots'[Slot(n, idx, d)] == DueAt(pending + [x], start + d) {
      hide Holds;
      SlotHolds(slots, start, idx, pending, d);
      DueAtSum(pending, [x], start + d);
      DueAtOne(x, start + d);
      if d < a { SlotsApart(n, idx, d, a); } else if a < d { SlotsApart(n, idx, a, d); }
    }
  }

  // ---------------------------------------------------------------------------------------
  // Any sequence of adding and taking, against a priority queue

  datatype Op = Add(x: Entry) | Take(now: nat)

  // Everything is added within the wheel's reach.
  ghost predicate WithinReach(ops: seq<Op>, start: nat, n: nat) {
    ops == [] ||
    match ops[0]
    case Add(x) => start <= x.data.expire_time < start + n && WithinReach(ops[1..], start, n)
    case Take(now) => WithinReach(ops[1..], if now < start then start else now, n)
  }

  // What the wheel gives out.
  ghost function WheelOutput(ops: seq<Op>, slots: Slots, start: nat, idx: nat): seq<Entry>
    requires |slots| > 0 && WithinReach(ops, start, |slots|)
  {
    if ops == [] then []
    else
      match ops[0]
      case Add(x) =>
        var j := Slot(|slots|, idx, Ahead(start, x.data.expire_time, |slots|));
        WheelOutput(ops[1..], slots[j := slots[j] + [x]], start, idx)
      case Take(now) =>
        if now < start then WheelOutput(ops[1..], slots, start, idx)
        else
          var cnt := Count(start, now, |slots|);
          Taken(slots, idx, cnt) + WheelOutput(ops[1..], Emptied(slots, idx, cnt), now, idx + cnt - 1)
  }

  // The first of the items with the earliest time.
  ghost function Earliest(s: seq<Entry>): (k: nat)
    requires s != []
    ensures k < |s|
    ensures forall j :: 0 <= j < |s| ==> s[k].data.expire_time <= s[j].data.expire_time
    ensures forall j :: 0 <= j < k ==> s[k].data.expire_time < s[j].data.expire_time
  {
    if |s| == 1 then 0
    else
      var m := Earliest(s[1..]);
      if s[0].data.expire_time <= s[m + 1].data.expire_time then 0 else m + 1
  }

  // What a stable priority queue gives out until its earliest item is due after now, and what it
  // is left with.
  ghost function Popped(s: seq<Entry>, now: nat): (seq<Entry>, seq<Entry>)
    decreases |s|
  {
    if s == [] || s[Earliest(s)].data.expire_time > now then ([], s)
    else
      var k := Earliest(s);
      var (out, left) := Popped(s[..k] + s[k + 1..], now);
      ([s[k]] + out, left)
  }

  ghost function QueueOutput(ops: seq<Op>, pending: seq<Entry>): seq<Entry> {
    if ops == [] then []
    else
      match ops[0]
      case Add(x) => QueueOutput(ops[1..], pending + [x])
      case Take(now) =>
        var (out, left) := Popped(pending, now);
        out + QueueOutput(ops[1..], left)
  }

  lemma DueAtMiddle(s: seq<Entry>, k: nat, t: nat)
    requires k < |s|
    ensures DueAt(s, t) == DueAt(s[..k], t) + (if s[k].data.expire_time == t then [s[k]] else []) + DueAt(s[k + 1..], t)
    ensures DueAt(s[..k] + s[k + 1..], t) == DueAt(s[..k], t) + DueAt(s[k + 1..], t)
  {
    DueAtSum(s[..k], s[k + 1..], t);
    DueAtSum(s[..k], [s[k]], t);
    DueAtSum(s[..k] + [s[k]], s[k + 1..], t);
    DueAtOne(s[k], t);
    assert s == s[..k] + [s[k]] + s[k + 1..];
  }

  // What a priority queue gives out is in stable order.
  lemma {:induction false} PoppedStable(s: seq<Entry>, now: nat)
    ensures StableOrder(Popped(s, now).0, s, now)
    decreases |s|
  {
    if s == [] || s[Earliest(s)].data.expire_time > now {
      hide DueAt;
      forall u: nat ensures DueAt([], u) == if u <= now then DueAt(s, u) else [] {
        NoneDueAt([], u);
        if u <= now { NoneDueAt(s, u); }
      }
    } else {
      var k := Earliest(s);
      PoppedStable(s[..k] + s[k + 1..], now);
      hide Popped, Earliest;
      OnePopped(s, k, Popped(s[..k] + s[k + 1..], now).0, now);
    }
  }

  lemma OnePopped(s: seq<Entry>, k: nat, out: seq<Entry>, now: nat)
    requires k < |s| && s[k].data.expire_time <= now
    requires forall j :: 0 <= j < |s| ==> s[k].data.expire_time <= s[j].data.expire_time
    requires forall j :: 0 <= j < k ==> s[k].data.expire_time < s[j].data.expire_time
    requires StableOrder(out, s[..k] + s[k + 1..], now)
    ensures StableOrder([s[k]] + out, s, now)
  {
    var x, rest := s[k], s[..k] + s[k + 1..];
    hide DueAt;
    forall y | y in out ensures x.data.expire_time <= y.data.expire_time {
      InDueAt(out, y.data.expire_time, y);
      InDueAt(rest, y.data.expire_time, y);
    }
    forall u: nat ensures DueAt([x] + out, u) == if u <= now then DueAt(s, u) else [] {
      DueAtSum([x], out, u);
      DueAtOne(x, u);
      assert DueAt(out, u) == if u <= now then DueAt(rest, u) else [];
      OneRemoved(s, k, u);
    }
    hide StableOrder;
    RisingAfter(x, out);
    StableParts([x] + out, s, now);
  }

  lemma OneRemoved(s: seq<Entry>, k: nat, u: nat)
    requires k < |s| && forall j :: 0 <= j < k ==> s[k].data.expire_time < s[j].data.expire_time
    ensures DueAt(s, u) == (if s[k].data.expire_time == u then [s[k]] else []) + DueAt(s[..k] + s[k + 1..], u)
  {
    hide DueAt;
    DueAtMiddle(s, k, u);
    if u == s[k].data.expire_time {
      NoneDueAt(s[..k], u);
      Around([s[k]], DueAt(s[k + 1..], u));
    } else {
      Around(DueAt(s[..k], u), DueAt(s[k + 1..], u));
    }
  }

  lemma Around(p: seq<Entry>, q: seq<Entry>)
    ensures p + [] + q == p + q == [] + (p + q) && [] + p + q == p + ([] + q)
  {
    assert [] + p == p && p + [] == p && [] + q == q;
  }

  lemma RisingAfter(x: Entry, out: seq<Entry>)
    requires forall y :: y in out ==> x.data.expire_time <= y.data.expire_time
    requires forall j, k :: 0 <= j < k < |out| ==> out[j].data.expire_time <= out[k].data.expire_time
    ensures forall j, k :: 0 <= j < k < |[x] + out| ==> ([x] + out)[j].data.expire_time <= ([x] + out)[k].data.expire_time
  {
  }

  lemma StableParts(out: seq<Entry>, s: seq<Entry>, t: nat)
    requires forall j, k :: 0 <= j < k < |out| ==> out[j].data.expire_time <= out[k].data.expire_time
    requires forall u: nat :: DueAt(out, u) == if u <= t then DueAt(s, u) else []
    ensures StableOrder(out, s, t)
  {
    hide DueAt;
  }

  lemma {:induction false} DueAfterSum(a: seq<Entry>, b: seq<Entry>, t: nat)
    ensures DueAfter(a + b, t) == DueAfter(a, t) + DueAfter(b, t)
  {
    if a == [] {
      assert a + b == b;
    } else {
      var s, first := a + b, if a[0].data.expire_time > t then [a[0]] else [];
      assert s[0] == a[0] && s[1..] == a[1..] + b;
      DueAfterSum(a[1..], b, t);
      assert first + (DueAfter(a[1..], t) + DueAfter(b, t)) == first + DueAfter(a[1..], t) + DueAfter(b, t);
    }
  }

  lemma {:induction false} AllAfter(s: seq<Entry>, t: nat)
    requires forall x :: x in s ==> x.data.expire_time > t
    ensures DueAfter(s, t) == s
  {
    if s != [] {
      AllAfter(s[1..], t);
      assert s == [s[0]] + s[1..];
    }
  }

  lemma OneDueRemoved(s: seq<Entry>, k: nat, t: nat)
    requires k < |s| && s[k].data.expire_time <= t
    ensures DueAfter(s[..k] + s[k + 1..], t) == DueAfter(s, t)
  {
    DueAfterSum(s[..k], s[k + 1..], t);
    DueAfterSum(s[..k], [s[k]], t);
    DueAfterSum(s[..k] + [s[k]], s[k + 1..], t);
    assert DueAfter([s[k]], t) == [] by { NoneAfter(s[k], t); }
    hide DueAfter;
    assert s == s[..k] + [s[k]] + s[k + 1..];
    assert DueAfter(s[..k], t) + [] == DueAfter(s[..k], t);
  }

  lemma NoneAfter(x: Entry, t: nat)
    requires x.data.expire_time <= t
    ensures DueAfter([x], t) == []
  {
  }

  // A priority queue is left with what is due later, in the order added.
  lemma {:induction false} PoppedLeaves(s: seq<Entry>, now: nat)
    ensures Popped(s, now).1 == DueAfter(s, now)
    decreases |s|
  {
    if s == [] || s[Earliest(s)].data.expire_time > now {
      hide DueAfter;
      AllAfter(s, now);
    } else {
      var k := Earliest(s);
      PoppedLeaves(s[..k] + s[k + 1..], now);
      hide Earliest, DueAfter;
      OneDueRemoved(s, k, now);
    }
  }

  // There is only one stable order.
  lemma {:induction false} StableUnique(a: seq<Entry>, b: seq<Entry>)
    requires forall j, k :: 0 <= j < k < |a| ==> a[j].data.expire_time <= a[k].data.expire_time
    requires forall j, k :: 0 <= j < k < |b| ==> b[j].data.expire_time <= b[k].data.expire_time
    requires forall u: nat :: DueAt(a, u) == DueAt(b, u)
    ensures a == b
    decreases |a|
  {
    if a == [] {
      if b != [] {
        FirstDue(b);
        assert false;
      }
    } else {
      var x := a[0];
      assert DueAt(a, x.data.expire_time)[0] == x;
      InDueAt(b, x.data.expire_time, x);
      assert DueAt(a, x.data.expire_time) == DueAt(b, x.data.expire_time);
      var y := b[0];
      InDueAt(a, y.data.expire_time, y);
      assert DueAt(b, y.data.expire_time)[0] == y;
      assert DueAt(a, y.data.expire_time) == DueAt(b, y.data.expire_time);
      assert x.data.expire_time == y.data.expire_time && x == y;
      forall u: nat ensures DueAt(a[1..], u) == DueAt(b[1..], u) {
        assert DueAt(a, u) == DueAt(b, u);
        SameDueAfterFirst(x, a, b, u);
      }
      StableUnique(a[1..], b[1..]);
      assert a == [x] + a[1..] && b == [x] + b[1..];
    }
  }

  lemma FirstDue(s: seq<Entry>)
    requires s != []
    ensures DueAt(s, s[0].data.expire_time) != []
  {
  }

  lemma SameDueAfterFirst(x: Entry, a: seq<Entry>, b: seq<Entry>, u: nat)
    requires a != [] && b != [] && a[0] == b[0] == x && DueAt(a, u) == DueAt(b, u)
    ensures DueAt(a[1..], u) == DueAt(b[1..], u)
  {
    var p, q := DueAt(a[1..], u), DueAt(b[1..], u);
    assert DueAt(a, u) == (if x.data.expire_time == u then [x] else []) + p;
    assert DueAt(b, u) == (if x.data.expire_time == u then [x] else []) + q;
    hide DueAt;
    assert ([x] + p)[1..] == p && ([x] + q)[1..] == q && [] + p == p && [] + q == q;
  }

  lemma NonePopped(slots: Slots, start: nat, idx: nat, pending: seq<Entry>, now: nat)
    requires Holds(slots, start, idx, pending) && now < start
    ensures Popped(pending, now) == ([], pending)
  {
    if pending != [] {
      assert pending[Earliest(pending)] in pending;
    }
  }

  // Over any sequence of adding within reach and taking, the wheel gives out, in the same order,
  // exactly what a stable priority queue does. When the clock has gone back neither gives anything.
  lemma {:induction false} WheelIsQueue(ops: seq<Op>, slots: Slots, start: nat, idx: nat, pending: seq<Entry>)
    requires Holds(slots, start, idx, pending) && WithinReach(ops, start, |slots|)
    ensures WheelOutput(ops, slots, start, idx) == QueueOutput(ops, pending)
    decreases |ops|
  {
    hide Holds, Slot, Taken, Emptied, DueAt, DueAfter, Popped, StableOrder;
    if ops != [] {
      HoldsSome(slots, start, idx, pending);
      match ops[0] {
        case Add(x) =>
          AddIsLast(slots, start, idx, pending, x);
          var j := Slot(|slots|, idx, Ahead(start, x.data.expire_time, |slots|));
          WheelIsQueue(ops[1..], slots[j := slots[j] + [x]], start, idx, pending + [x]);
        case Take(now) =>
          if now < start {
            NonePopped(slots, start, idx, pending, now);
            WheelIsQueue(ops[1..], slots, start, idx, pending);
            assert [] + QueueOutput(ops[1..], pending) == QueueOutput(ops[1..], pending);
          } else {
            var cnt := Count(start, now, |slots|);
            TakeIsStable(slots, start, idx, pending, now);
            SameStable(Taken(slots, idx, cnt), pending, now);
            PoppedLeaves(pending, now);
            WheelIsQueue(ops[1..], Emptied(slots, idx, cnt), now, idx + cnt - 1, DueAfter(pending, now));
          }
      }
    }
  }

  lemma HoldsSome(slots: Slots, start: nat, idx: nat, pending: seq<Entry>)
    requires Holds(slots, start, idx, pending)
    ensures |slots| > 0
  {
  }

  lemma SameStable(out: seq<Entry>, s: seq<Entry>, now: nat)
    requires StableOrder(out, s, now)
    ensures out == Popped(s, now).0
  {
    hide DueAt, Popped;
    PoppedStable(s, now);
    StableUnique(out, Popped(s, now).0);
  }

  // A new wheel holds nothing.
  lemma NewWheelHolds(slots: Slots, start: nat, idx: nat)
    requires |slots| > 0 && forall j :: 0 <= j < |slots| ==> slots[j] == []
    ensures Holds(slots, start, idx, [])
  {
  }

  // ---------------------------------------------------------------------------------------
  // The wheel in the heap

  // What TimerItemAdd returns: 0, or the line of the test that failed.
  const ADDED: int := 0
  const CLOCK_BEHIND: int := 331
  const ALREADY_DUE: int := 332

  // The number of ticks in a step of the clock is kept in an int.
  const MAX_STEP: nat := 0x7FFF_FFFF

  ghost function ItemsOf(link: seq<Link<Timeout>>): (s: Slots)
    reads set l | l in link
    ensures |s| == |link| && forall j :: 0 <= j < |link| ==> s[j] == link[j].items
  {
    if link == [] then [] else [link[0].items] + ItemsOf(link[1..])
  }

  lemma NothingTaken(slots: Slots, idx: nat)
    requires |slots| > 0
    ensures Taken(slots, idx, 0) == [] && Emptied(slots, idx, 0) == slots
  {
  }

  lemma OneMoreTaken(slots: Slots, idx: nat, i: nat)
    requires i < |slots|
    ensures Taken(slots, idx, i + 1) == Taken(slots, idx, i) + Emptied(slots, idx, i)[Slot(|slots|, idx, i)]
    ensures Emptied(slots, idx, i + 1) == Emptied(slots, idx, i)[Slot(|slots|, idx, i) := []]
  {
    hide Slot;
    EmptiedAt(slots, idx, i, i);
  }

  // Moves the items of cnt slots, the one at idx first, to the end of out.
  method TakeSlots(link: seq<Link<Timeout>>, idx: nat, cnt: nat, out: Link<Timeout>, ghost all: set<Link<Timeout>>)
    requires AllWellFormed(all) && (forall l :: l in link ==> l in all) && out in all && out !in link
    requires (forall j, k :: 0 <= j < k < |link| ==> link[j] != link[k]) && 0 < cnt <= |link|
    modifies Space(all)
    ensures AllWellFormed(all) && Space(all) <= old(Space(all))
    ensures forall l :: l in all && l !in link && l != out ==> l.items == old(l.items)
    ensures out.items == old(out.items) + Taken(old(ItemsOf(link)), idx, cnt)
    ensures ItemsOf(link) == Emptied(old(ItemsOf(link)), idx, cnt)
  {
    hide AllWellFormed, Space, ItemsOf, Taken, Emptied, Slot;
    ghost var slots := ItemsOf(link);
    NothingTaken(slots, idx);
    for i := 0 to cnt
      invariant AllWellFormed(all) && Space(all) <= old(Space(all))
      invariant forall l :: l in all && l !in link && l != out ==> l.items == old(l.items)
      invariant out.items == old(out.items) + Taken(slots, idx, i)
      invariant ItemsOf(link) == Emptied(slots, idx, i)
    {
      var j := Slot(|link|, idx, i);
      OneMoreTaken(slots, idx, i);
      TakeSlot(link, j, out, all);
    }
  }

  method TakeSlot(link: seq<Link<Timeout>>, j: nat, out: Link<Timeout>, ghost all: set<Link<Timeout>>)
    requires AllWellFormed(all) && (forall l :: l in link ==> l in all) && out in all && out !in link
    requires (forall j, k :: 0 <= j < k < |link| ==> link[j] != link[k]) && j < |link|
    modifies Space(all)
    ensures AllWellFormed(all) && Space(all) <= old(Space(all))
    ensures forall l :: l in all && l !in link && l != out ==> l.items == old(l.items)
    ensures out.items == old(out.items) + old(ItemsOf(link)[j])
    ensures ItemsOf(link) == old(ItemsOf(link))[j := []]
  {
    hide AllWellFormed, ItemsOf;
    FootprintInSpace(all, out);
    FootprintInSpace(all, link[j]);
    LinkAppend(out, link[j], all);
    assert ItemsOf(link) == old(ItemsOf(link))[j := []];
  }

  method AddToSlot(link: seq<Link<Timeout>>, j: nat, item: Entry, ghost all: set<Link<Timeout>>)
    requires AllWellFormed(all) && (forall l :: l in link ==> l in all)
    requires (forall j, k :: 0 <= j < k < |link| ==> link[j] != link[k]) && j < |link|
    modifies item, Space(all)
    ensures AllWellFormed(all) && Space(all) <= old(Space(all)) + {item}
    ensures forall l :: l in all && l !in link ==> l.items == old(l.items)
    ensures item.link == if old(item.link) == null then link[j] else old(item.link)
    ensures ItemsOf(link) ==
            if old(item.link) == null then old(ItemsOf(link)[j := ItemsOf(link)[j] + [item]]) else old(ItemsOf(link))
  {
    hide AllWellFormed, ItemsOf, Space;
    FootprintInSpace(all, link[j]);
    TailAdd(link[j], item, all);
    assert old(item.link) == null ==> ItemsOf(link) == old(ItemsOf(link)[j := ItemsOf(link)[j] + [item]]);
  }

  lemma NotAList(w: TimingWheel, all: set<Link<Timeout>>)
    ensures w !in Space(all)
  {
  }

  class TimingWheel {
    const link: seq<Link<Timeout>>
    var start: nat
    var start_idx: nat

    ghost predicate Valid() {
      |link| > 0 && forall j, k :: 0 <= j < k < |link| ==> link[j] != link[k]
    }

    ghost function Contents(): (s: Slots)
      reads set l | l in link
      ensures |s| == |link|
    {
      ItemsOf(link)
    }

    // TimerAlloc. calloc leaves every slot empty.
    constructor (size: nat, now: nat)
      requires size > 0
      ensures Valid() && |link| == size && start == now && start_idx == 0
      ensures forall j :: 0 <= j < size ==> fresh(link[j]) && link[j].items == [] && link[j].WellFormed()
    {
      var links: seq<Link<Timeout>> := [];
      for i := 0 to size
        invariant |links| == i && forall j, k :: 0 <= j < k < i ==> links[j] != links[k]
        invariant forall j :: 0 <= j < i ==> fresh(links[j]) && links[j].items == [] && links[j].WellFormed()
      {
        var l := new Link();
        links := links + [l];
      }
      link, start, start_idx := links, now, 0;
    }

    // Moves the items of all slots up to now to the end of out.
    method TimeoutLinkAllTake(now: nat, out: Link<Timeout>, ghost all: set<Link<Timeout>>)
      requires Valid() && AllWellFormed(all) && (forall l :: l in link ==> l in all) && out in all && out !in link
      requires start == 0 || now < start + MAX_STEP
      modifies this, Space(all)
      ensures Valid() && AllWellFormed(all) && Space(all) <= old(Space(all))
      ensures forall l :: l in all && l !in link && l != out ==> l.items == old(l.items)
      ensures now < old(start) ==>
                Contents() == old(Contents()) && out.items == old(out.items) && start == old(start) && start_idx == old(start_idx)
      ensures old(start) == 0 || old(start) <= now ==>
                var from, idx := if old(start) == 0 then now else old(start), if old(start) == 0 then 0 else old(start_idx);
                var cnt := Count(from, now, |link|);
                && out.items == old(out.items) + Taken(old(Contents()), idx, cnt)
                && Contents() == Emptied(old(Contents()), idx, cnt)
                && start == now && start_idx == idx + cnt - 1
    {
      hide AllWellFormed, Taken, Emptied, ItemsOf, Space;
      NotAList(this, all);
      if start == 0 {
        start := now;
        start_idx := 0;
      }
      if now < start {
        return;
      }
      var cnt := now - start + 1;
      if cnt > |link| {
        cnt := |link|;
      }
      var idx := start_idx;
      TakeSlots(link, idx, cnt, out, all);
      start := now;
      start_idx := idx + cnt - 1;
    }

    // Puts an item in the slot of its time, or in the last one. One that is on a list stays there.
    method TimerItemAdd(item: Entry, now: nat, ghost all: set<Link<Timeout>>) returns (r: int)
      requires Valid() && AllWellFormed(all) && (forall l :: l in link ==> l in all)
      modifies this, item, Space(all)
      ensures Valid() && AllWellFormed(all) && Space(all) <= old(Space(all)) + {item}
      ensures forall l :: l in all && l !in link ==> l.items == old(l.items)
      ensures old(start) == 0 ==> start == now && start_idx == 0
      ensures old(start) != 0 ==> start == old(start) && start_idx == old(start_idx)
      ensures r == if now < start then CLOCK_BEHIND else if item.data.expire_time < now then ALREADY_DUE else ADDED
      ensures r != ADDED || old(item.link) != null ==> Contents() == old(Contents()) && item.link == old(item.link)
      ensures r == ADDED && old(item.link) == null ==>
                var j := Slot(|link|, start_idx, Ahead(start, item.data.expire_time, |link|));
                item.link == link[j] && Contents() == old(Contents()[j := Contents()[j] + [item]])
    {
      hide AllWellFormed, ItemsOf, Space;
      NotAList(this, all);
      if start == 0 {
        start := now;
        start_idx := 0;
      }
      if now < start {
        return CLOCK_BEHIND;
      }
      if item.data.expire_time < now {
        return ALREADY_DUE;
      }
      var diff := item.data.expire_time - start;
      if diff >= |link| {
        diff := |link| - 1;
      }
      var j := (start_idx + diff) % |link|;
      AddToSlot(link, j, item, all);
      return ADDED;
    }
  }
}
