// misc/coroutine/co_routine.cpp: the event loop, condition variables and polls of one thread.
//
// A waiting coroutine is a frame suspended in CoCondTimewait or CoPoll; it is resumed only by the
// event loop, which pops its timeout item from the active list. First the loop as a state machine
// over values, then the same steps on the lists themselves.
module EventLoops {
  import opened IntrusiveLists
  import opened TimingWheels

  // co_cond_item_t names its timeout item, co_cond_t lists such items.
  type CondItem = Item<Entry>
  type Cond = Link<Entry>

  // Where a coroutine waits, and what it holds there.
  datatype Frame = InTimewait(item: CondItem) | InPoll(detached: bool, raised: nat)

  datatype Loop = Loop(
    slots: Slots,
    start: nat,
    start_idx: nat,
    now: nat,
    active: seq<Entry>,
    conds: Conds,
    frames: map<Entry, Frame>,
    flagged: set<Entry>,
    resumed: seq<Entry>)

  // ---------------------------------------------------------------------------------------
  // Steps

  ghost function WheelItems(slots: Slots): set<Entry> {
    set j, k | 0 <= j < |slots| && k in slots[j] :: k
  }

  // The items on any list.
  ghost function Listed(s: Loop): set<Entry> {
    ItemSet(s.active) + WheelItems(s.slots)
  }

  type Conds = map<Cond, seq<CondItem>>

  ghost function CondItems(conds: Conds): set<CondItem> {
    set cond, c | cond in conds && c in conds[cond] :: c
  }

  // Takes c off the condition it waits on.
  ghost function CondsWithout(conds: Conds, c: CondItem): Conds {
    map cond | cond in conds :: Without(conds[cond], c)
  }

  // The wait has been signalled, or one of its polled events has come.
  ghost predicate Woken(s: Loop, k: Entry)
    requires k in s.frames
  {
    match s.frames[k]
    case InTimewait(c) => c !in CondItems(s.conds)
    case InPoll(detached, _) => detached
  }

  ghost function AddTimer(s: Loop, k: Entry): Loop
    requires |s.slots| > 0 && s.start <= k.data.expire_time
  {
    var j := Slot(|s.slots|, s.start_idx, Ahead(s.start, k.data.expire_time, |s.slots|));
    s.(slots := s.slots[j := s.slots[j] + [k]])
  }

  ghost function AllWithout(slots: Slots, k: Entry): (r: Slots)
    ensures |r| == |slots| && forall j :: 0 <= j < |slots| ==> r[j] == Without(slots[j], k)
  {
    seq(|slots|, j requires 0 <= j < |slots| => Without(slots[j], k))
  }

  // Takes k off its list and puts it at the end of the active list.
  ghost function Wake(s: Loop, k: Entry): Loop {
    s.(slots := AllWithout(s.slots, k), active := Without(s.active, k) + [k])
  }

  ghost function StartTimewait(s: Loop, cond: Cond, c: CondItem): Loop
    requires cond in s.conds && |s.slots| > 0
    requires c.data.data.expire_time > 0 ==> s.start <= c.data.data.expire_time
  {
    var t := if c.data.data.expire_time > 0 then AddTimer(s, c.data) else s;
    t.(conds := t.conds[cond := t.conds[cond] + [c]], frames := t.frames[c.data := InTimewait(c)])
  }

  ghost function StartPoll(s: Loop, k: Entry): Loop
    requires |s.slots| > 0 && s.start <= k.data.expire_time
  {
    var t := AddTimer(s, k);
    t.(frames := t.frames[k := InPoll(false, 0)])
  }

  ghost function Signalled(s: Loop, cond: Cond): Loop
    requires cond in s.conds
  {
    if s.conds[cond] == [] then s
    else
      var c := s.conds[cond][0];
      Wake(s.(conds := s.conds[cond := s.conds[cond][1..]]), c.data)
  }

  ghost function BroadcastTo(s: Loop, cond: Cond): Loop
    requires cond in s.conds
    decreases |s.conds[cond]|
  {
    if s.conds[cond] == [] then s else BroadcastTo(Signalled(s, cond), cond)
  }

  ghost function EventCame(s: Loop, k: Entry): Loop
    requires k in s.frames && s.frames[k].InPoll?
  {
    var f := s.frames[k];
    var t := s.(frames := s.frames[k := InPoll(true, f.raised + 1)]);
    if f.detached then t else Wake(t, k)
  }

  // How many slots are taken; none if the clock has gone back.
  function Passed(start: nat, now: nat, n: nat): nat {
    if now < start then 0 else Count(start, now, n)
  }

  // The first part of an iteration. If the clock has gone back the wheel stays as it is.
  ghost function Begun(s: Loop, now: nat): Loop
    requires |s.slots| > 0
  {
    if now < s.start then s.(now := now)
    else
      var cnt := Count(s.start, now, |s.slots|);
      var taken := Taken(s.slots, s.start_idx, cnt);
      s.(slots := Emptied(s.slots, s.start_idx, cnt), start := now, start_idx := s.start_idx + cnt - 1, now := now,
         active := s.active + taken, flagged := s.flagged + (set k | k in taken))
  }

  // The iteration's clock is that of the wheel, or it has gone back and no item is marked.
  ghost predicate ClockKept(s: Loop) {
    s.now <= s.start && (s.now < s.start ==> s.flagged == {})
  }

  // An item taken early goes back to the wheel.
  ghost predicate GoesBack(s: Loop, k: Entry) {
    k in s.flagged && s.now < k.data.expire_time
  }

  // The coroutine runs on: its condition item leaves the condition, and both items are freed.
  ghost function Resume(s: Loop, k: Entry): Loop {
    s.(frames := s.frames - {k}, flagged := s.flagged - {k}, resumed := s.resumed + [k],
       conds := if k in s.frames && s.frames[k].InTimewait?
                then CondsWithout(s.conds, s.frames[k].item) else s.conds)
  }

  ghost function Drained(s: Loop): Loop
    requires s.active != [] && |s.slots| > 0 && ClockKept(s)
  {
    var k := s.active[0];
    var t := s.(active := s.active[1..]);
    if GoesBack(s, k) then AddTimer(t.(flagged := t.flagged - {k}), k) else Resume(t, k)
  }

  // ---------------------------------------------------------------------------------------
  // What every step keeps

  ghost predicate Once<T>(s: seq<T>) {
    forall i, j :: 0 <= i < j < |s| ==> s[i] != s[j]
  }

  // No item is on two lists, or twice on one.
  ghost predicate NoneTwice(slots: Slots, active: seq<Entry>) {
    && Once(active)
    && (forall j :: 0 <= j < |slots| ==> Once(slots[j]))
    && (forall j, x :: 0 <= j < |slots| && x in slots[j] ==> x !in active)
    && forall i, j, x :: 0 <= i < j < |slots| && x in slots[i] ==> x !in slots[j]
  }

  ghost predicate CondsApart(conds: Conds) {
    && (forall a :: a in conds ==> Once(conds[a]))
    && forall a, b, c :: a in conds && b in conds && a != b && c in conds[a] ==> c !in conds[b]
  }

  // A condition lists the items of coroutines that wait on it, each once, in one condition.
  ghost predicate CondsHold(s: Loop) {
    && CondsApart(s.conds)
    && (forall c :: c in CondItems(s.conds) ==> c.data in s.frames && s.frames[c.data] == InTimewait(c))
    && forall k :: k in s.frames && s.frames[k].InTimewait? ==> s.frames[k].item.data == k
  }

  // No wait is lost: one with a deadline, one that was woken and a poll have their item listed.
  ghost predicate NoneLost(s: Loop) {
    forall k :: k in s.frames && (k.data.expire_time > 0 || s.frames[k].InPoll? || Woken(s, k)) ==> k in Listed(s)
  }

  // Active items were woken or have been taken from the wheel.
  ghost predicate ActiveForCause(s: Loop) {
    forall k :: k in s.active && k in s.frames ==> k in s.flagged || Woken(s, k)
  }

  ghost predicate WheelAhead(s: Loop) {
    && 0 < s.start
    && NoneLate(s.slots, s.start, s.start_idx)
    && forall k :: k in WheelItems(s.slots) ==> s.start < k.data.expire_time
  }

  // Items are marked from when they are taken from the wheel until they are popped, and only waits
  // with a timeout are.
  ghost predicate FlaggedTimed(s: Loop) {
    forall k :: k in s.flagged ==> k in s.active && k.data.expire_time > 0
  }

  ghost predicate ResumedOnce(s: Loop) {
    Once(s.resumed) && forall k :: k in s.resumed ==> k !in s.frames
  }

  ghost predicate Inv(s: Loop) {
    && NoneTwice(s.slots, s.active)
    && Listed(s) <= s.frames.Keys
    && CondsHold(s)
    && NoneLost(s)
    && ActiveForCause(s)
    && FlaggedTimed(s)
    && WheelAhead(s)
    && ClockKept(s)
    && ResumedOnce(s)
  }

  // The items of a new wait have not been used before.
  ghost predicate Unused(s: Loop, k: Entry) {
    k !in s.frames && k !in s.resumed
  }

  datatype Step =
    | Condition(cond: Cond)
    | Timewait(cond: Cond, c: CondItem)
    | Poll(k: Entry)
    | Signal(cond: Cond)
    | Event(k: Entry)
    | Begin(now: nat)
    | Drain

  ghost predicate Enabled(s: Loop, e: Step) {
    match e
    case Condition(cond) => cond !in s.conds
    case Timewait(cond, c) =>
      cond in s.conds && Unused(s, c.data) && (c.data.data.expire_time > 0 ==> s.start < c.data.data.expire_time)
    case Poll(k) => Unused(s, k) && s.start < k.data.expire_time
    case Signal(cond) => cond in s.conds
    case Event(k) => k in s.frames && s.frames[k].InPoll?
    case Begin(now) => s.start <= now || s.flagged == {}
    case Drain => s.active != []
  }

  ghost function After(s: Loop, e: Step): Loop
    requires |s.slots| > 0 && ClockKept(s) && Enabled(s, e)
  {
    match e
    case Condition(cond) => s.(conds := s.conds[cond := []])
    case Timewait(cond, c) => StartTimewait(s, cond, c)
    case Poll(k) => StartPoll(s, k)
    case Signal(cond) => Signalled(s, cond)
    case Event(k) => EventCame(s, k)
    case Begin(now) => Begun(s, now)
    case Drain => Drained(s)
  }

  // ---------------------------------------------------------------------------------------
  // Lists

  lemma OnceWithout<T>(s: seq<Item<T>>, x: Item<T>)
    requires Once(s)
    ensures Once(Without(s, x))
  {
    if x in s {
      var k :| 0 <= k < |s| && s[k] == x;
      WithoutAt(s, k);
    } else {
      WithoutNone(s, x);
    }
  }

  lemma OnceAdded<T>(s: seq<T>, x: T)
    requires Once(s) && x !in s
    ensures Once(s + [x])
  {
  }

  lemma OnceJoined<T>(s: seq<T>, t: seq<T>)
    requires Once(s) && Once(t) && forall x :: x in t ==> x !in s
    ensures Once(s + t)
  {
    forall i, j | 0 <= i < j < |s + t| ensures (s + t)[i] != (s + t)[j] {
      if i < |s| <= j {
        assert t[j - |s|] in t && s[i] in s;
      }
    }
  }

  lemma OnceRest<T>(s: seq<T>)
    requires Once(s) && s != []
    ensures Once(s[1..]) && s[0] in s && s[0] !in s[1..]
    ensures (forall x :: x in s[1..] ==> x in s) && forall x :: x in s && x != s[0] ==> x in s[1..]
  {
    assert s == [s[0]] + s[1..];
  }

  lemma NoneTwiceAdded(slots: Slots, active: seq<Entry>, j: nat, k: Entry)
    requires NoneTwice(slots, active) && j < |slots| && k !in WheelItems(slots) && k !in active
    ensures NoneTwice(slots[j := slots[j] + [k]], active)
    ensures WheelItems(slots[j := slots[j] + [k]]) == WheelItems(slots) + {k}
  {
    var after := slots[j := slots[j] + [k]];
    assert k in after[j];
    OnceAdded(slots[j], k);
    assert forall i :: 0 <= i < |slots| ==> k !in slots[i];
    forall x | x in WheelItems(slots) ensures x in WheelItems(after) {
      var i :| 0 <= i < |slots| && x in slots[i];
      assert x in after[i];
    }
  }

  lemma AddTimerKeeps(s: Loop, k: Entry)
    requires NoneTwice(s.slots, s.active) && WheelAhead(s) && k !in Listed(s) && s.start < k.data.expire_time
    ensures var t := AddTimer(s, k);
      NoneTwice(t.slots, t.active) && WheelAhead(t) && Listed(t) == Listed(s) + {k}
  {
    hide Slot, Ahead, NoneLate, NoneTwice, WheelItems;
    AddKeepsNoneLate(s.slots, s.start, s.start_idx, k);
    var j := Slot(|s.slots|, s.start_idx, Ahead(s.start, k.data.expire_time, |s.slots|));
    NoneTwiceAdded(s.slots, s.active, j, k);
  }

  lemma RemovedNoneTwice(slots: Slots, active: seq<Entry>, k: Entry)
    requires NoneTwice(slots, active)
    ensures NoneTwice(AllWithout(slots, k), Without(active, k) + [k])
    ensures WheelItems(AllWithout(slots, k)) == WheelItems(slots) - {k}
  {
    hide Without;
    var after := AllWithout(slots, k);
    forall j | 0 <= j < |slots| ensures Once(after[j]) {
      OnceWithout(slots[j], k);
    }
    OnceWithout(active, k);
    OnceAdded(Without(active, k), k);
    forall x | x in WheelItems(slots) && x != k ensures x in WheelItems(after) {
      var j :| 0 <= j < |slots| && x in slots[j];
      assert x in after[j];
    }
  }

  lemma RemovedNoneLate(slots: Slots, start: nat, idx: nat, k: Entry)
    requires NoneLate(slots, start, idx)
    ensures NoneLate(AllWithout(slots, k), start, idx)
  {
    hide Without, Slot;
  }

  lemma WakeKeeps(s: Loop, k: Entry)
    requires NoneTwice(s.slots, s.active) && WheelAhead(s)
    ensures var t := Wake(s, k);
      && NoneTwice(t.slots, t.active) && WheelAhead(t)
      && Listed(t) == Listed(s) + {k} && k !in WheelItems(t.slots)
      && forall x :: x in t.active <==> x in s.active || x == k
  {
    hide NoneTwice, NoneLate, Without, WheelItems, AllWithout;
    RemovedNoneTwice(s.slots, s.active, k);
    RemovedNoneLate(s.slots, s.start, s.start_idx, k);
  }

  lemma OneSlotTaken(slots: Slots, active: seq<Entry>, j: nat)
    requires NoneTwice(slots, active) && j < |slots|
    ensures NoneTwice(slots[j := []], active + slots[j])
    ensures WheelItems(slots) == WheelItems(slots[j := []]) + ItemSet(slots[j])
  {
    OnceJoined(active, slots[j]);
    var after := slots[j := []];
    forall x | x in WheelItems(slots) ensures x in WheelItems(after) + ItemSet(slots[j]) {
      var i :| 0 <= i < |slots| && x in slots[i];
      if i != j {
        assert x in after[i];
      }
    }
    forall x | x in WheelItems(after) ensures x in WheelItems(slots) {
      var i :| 0 <= i < |slots| && x in after[i];
      assert x in slots[i];
    }
  }

  lemma ItemSetSum<T>(s: seq<Item<T>>, t: seq<Item<T>>)
    ensures ItemSet(s + t) == ItemSet(s) + ItemSet(t)
  {
  }

  // What is taken off the wheel and what is left on it were on it.
  lemma {:induction false} TakenKeeps(slots: Slots, active: seq<Entry>, idx: nat, cnt: nat)
    requires NoneTwice(slots, active) && cnt <= |slots| && |slots| > 0
    ensures NoneTwice(Emptied(slots, idx, cnt), active + Taken(slots, idx, cnt))
    ensures WheelItems(slots) == WheelItems(Emptied(slots, idx, cnt)) + ItemSet(Taken(slots, idx, cnt))
  {
    hide NoneTwice, Slot, Taken, Emptied, WheelItems, ItemSet;
    if cnt == 0 {
      NothingTaken(slots, idx);
      assert active + [] == active;
      assert ItemSet<Timeout>([]) == {} by { NoItems<Timeout>(); }
    } else {
      var c := cnt - 1;
      TakenKeeps(slots, active, idx, c);
      OneMoreTaken(slots, idx, c);
      var one := Emptied(slots, idx, c)[Slot(|slots|, idx, c)];
      OneSlotTaken(Emptied(slots, idx, c), active + Taken(slots, idx, c), Slot(|slots|, idx, c));
      assert active + Taken(slots, idx, c) + one == active + (Taken(slots, idx, c) + one);
      ItemSetSum(Taken(slots, idx, c), one);
    }
  }

  lemma NoItems<T>()
    ensures ItemSet<T>([]) == {}
  {
  }

  // After the wheel has moved to now nothing due is on it.
  lemma NothingDueLeft(slots: Slots, start: nat, idx: nat, now: nat, x: Entry)
    requires NoneLate(slots, start, idx) && start <= now
    requires x in WheelItems(Emptied(slots, idx, Count(start, now, |slots|)))
    ensures now < x.data.expire_time
  {
    hide Slot, Emptied;
    var n, cnt := |slots|, Count(start, now, |slots|);
    TakeKeepsNoneLate(slots, start, idx, now);
    var j :| 0 <= j < n && x in Emptied(slots, idx, cnt)[j];
    var d := SlotFound(n, idx + cnt - 1, j);
    LeftAt(slots, idx, cnt, d);
  }

  // Every slot is that of some tick.
  lemma SlotFound(n: nat, idx: nat, j: nat) returns (d: nat)
    requires j < n
    ensures d < n && Slot(n, idx, d) == j
  {
    Division(idx, n);
    var r := idx % n;
    d := if j >= r then j - r else j + n - r;
    Division(idx + d, n);
    if j >= r {
      SameRemainder(n, (idx + d) / n, idx / n, (idx + d) % n, j);
    } else {
      assert n * (idx / n + 1) == n * (idx / n) + n;
      SameRemainder(n, (idx + d) / n, idx / n + 1, (idx + d) % n, j);
    }
  }

  // Everything due is taken.
  lemma BegunKeeps(s: Loop, now: nat)
    requires NoneTwice(s.slots, s.active) && WheelAhead(s) && s.start <= now && |s.slots| > 0
    ensures var t := Begun(s, now);
      && NoneTwice(t.slots, t.active) && WheelAhead(t)
      && Listed(t) == Listed(s)
      && ItemSet(t.active) <= ItemSet(s.active) + t.flagged
      && t.flagged <= s.flagged + WheelItems(s.slots)
      && forall x :: x in Listed(s) && x.data.expire_time <= now ==> x in t.active
  {
    hide NoneTwice, Slot, Taken, Emptied, NoneLate, WheelItems;
    var cnt := Count(s.start, now, |s.slots|);
    TakenKeeps(s.slots, s.active, s.start_idx, cnt);
    ItemSetSum(s.active, Taken(s.slots, s.start_idx, cnt));
    TakeKeepsNoneLate(s.slots, s.start, s.start_idx, now);
    forall x | x in WheelItems(Emptied(s.slots, s.start_idx, cnt)) ensures now < x.data.expire_time {
      NothingDueLeft(s.slots, s.start, s.start_idx, now, x);
    }
  }

  lemma PopKeeps(s: Loop)
    requires NoneTwice(s.slots, s.active) && WheelAhead(s) && s.active != []
    ensures var t := s.(active := s.active[1..]);
      && NoneTwice(t.slots, t.active) && WheelAhead(t)
      && Listed(t) == Listed(s) - {s.active[0]} && s.active[0] in Listed(s)
      && ItemSet(t.active) == ItemSet(s.active) - {s.active[0]}
  {
    hide NoneLate;
    OnceRest(s.active);
  }

  // ---------------------------------------------------------------------------------------
  // Conditions

  lemma CondItemsAdded(conds: Conds, cond: Cond, c: CondItem)
    requires cond in conds
    ensures CondItems(conds[cond := conds[cond] + [c]]) == CondItems(conds) + {c}
  {
    var after := conds[cond := conds[cond] + [c]];
    assert c in after[cond];
    forall d | d in CondItems(conds) ensures d in CondItems(after) {
      var a: Cond :| a in conds && d in conds[a];
      assert d in after[a];
    }
  }

  lemma CondItemsPopped(conds: Conds, cond: Cond)
    requires cond in conds && conds[cond] != []
    ensures CondItems(conds) <= CondItems(conds[cond := conds[cond][1..]]) + {conds[cond][0]}
    ensures conds[cond][0] in CondItems(conds)
  {
    var after := conds[cond := conds[cond][1..]];
    assert conds[cond] == [conds[cond][0]] + after[cond] && conds[cond][0] in conds[cond];
    forall d | d in CondItems(conds) && d != conds[cond][0] ensures d in CondItems(after) {
      var a: Cond :| a in conds && d in conds[a];
      assert d in after[a];
    }
  }

  lemma CondItemsWithout(conds: Conds, c: CondItem)
    ensures CondItems(CondsWithout(conds, c)) == CondItems(conds) - {c}
  {
    hide Without;
    var after := CondsWithout(conds, c);
    forall d | d in CondItems(conds) && d != c ensures d in CondItems(after) {
      var a: Cond :| a in conds && d in conds[a];
      assert d in after[a];
    }
  }

  lemma ApartAdded(conds: Conds, cond: Cond, c: CondItem)
    requires CondsApart(conds) && cond in conds && c !in CondItems(conds)
    ensures CondsApart(conds[cond := conds[cond] + [c]])
  {
    assert forall a :: a in conds ==> c !in conds[a];
    OnceAdded(conds[cond], c);
  }

  lemma ApartPopped(conds: Conds, cond: Cond)
    requires CondsApart(conds) && cond in conds && conds[cond] != []
    ensures CondsApart(conds[cond := conds[cond][1..]])
    ensures conds[cond][0] !in CondItems(conds[cond := conds[cond][1..]])
    ensures CondItems(conds[cond := conds[cond][1..]]) <= CondItems(conds)
  {
    OnceRest(conds[cond]);
  }

  lemma ApartRemoved(conds: Conds, c: CondItem)
    requires CondsApart(conds)
    ensures CondsApart(CondsWithout(conds, c))
  {
    hide Without;
    forall a | a in conds ensures Once(Without(conds[a], c)) {
      OnceWithout(conds[a], c);
    }
  }

  lemma CondAdded(s: Loop, cond: Cond, c: CondItem)
    requires CondsHold(s) && cond in s.conds && c.data !in s.frames
    ensures var t := s.(conds := s.conds[cond := s.conds[cond] + [c]], frames := s.frames[c.data := InTimewait(c)]);
      && CondsHold(t) && !Woken(t, c.data)
      && forall k :: k in s.frames ==> (Woken(t, k) <==> Woken(s, k))
  {
    hide CondItems, CondsApart;
    CondItemsAdded(s.conds, cond, c);
    ApartAdded(s.conds, cond, c);
  }

  lemma CondPopped(s: Loop, cond: Cond)
    requires CondsHold(s) && cond in s.conds && s.conds[cond] != []
    ensures var t := s.(conds := s.conds[cond := s.conds[cond][1..]]);
      && CondsHold(t) && s.conds[cond][0].data in s.frames && Woken(t, s.conds[cond][0].data)
      && forall k :: k in s.frames && k != s.conds[cond][0].data ==> (Woken(t, k) <==> Woken(s, k))
  {
    hide CondItems, CondsApart;
    CondItemsPopped(s.conds, cond);
    ApartPopped(s.conds, cond);
  }

  lemma CondRemoved(s: Loop, k: Entry)
    requires CondsHold(s) && k in s.frames
    ensures var t := Resume(s, k);
      && CondsHold(t)
      && (forall x :: x in t.frames ==> (Woken(t, x) <==> Woken(s, x)))
      && (s.frames[k].InTimewait? ==> s.frames[k].item !in CondItems(t.conds))
  {
    hide CondItems, CondsApart, CondsWithout;
    if s.frames[k].InTimewait? {
      CondItemsWithout(s.conds, s.frames[k].item);
      ApartRemoved(s.conds, s.frames[k].item);
    }
  }

  // ---------------------------------------------------------------------------------------
  // Runs

  lemma ConditionKeeps(s: Loop, cond: Cond)
    requires Inv(s) && cond !in s.conds
    ensures Inv(s.(conds := s.conds[cond := []]))
  {
    hide NoneTwice, NoneLate, WheelItems, CondItems;
    SameCondItems(s.conds, cond);
  }

  lemma SameCondItems(conds: Conds, cond: Cond)
    requires cond !in conds
    ensures CondItems(conds[cond := []]) == CondItems(conds)
  {
    forall d | d in CondItems(conds) ensures d in CondItems(conds[cond := []]) {
      var a: Cond :| a in conds && d in conds[a];
      assert d in conds[cond := []][a];
    }
  }

  lemma TimewaitKeeps(s: Loop, cond: Cond, c: CondItem)
    requires Inv(s) && |s.slots| > 0 && Enabled(s, Timewait(cond, c))
    ensures Inv(StartTimewait(s, cond, c))
  {
    hide NoneTwice, CondsApart, CondItems, NoneLate, WheelItems, Slot, Ahead;
    CondAdded(s, cond, c);
    if c.data.data.expire_time > 0 {
      AddTimerKeeps(s, c.data);
    }
  }

  lemma PollKeeps(s: Loop, k: Entry)
    requires Inv(s) && |s.slots| > 0 && Enabled(s, Poll(k))
    ensures Inv(StartPoll(s, k))
  {
    hide NoneTwice, CondsApart, CondItems, NoneLate, WheelItems, Slot, Ahead;
    AddTimerKeeps(s, k);
  }

  lemma SignalKeeps(s: Loop, cond: Cond)
    requires Inv(s) && cond in s.conds
    ensures Inv(Signalled(s, cond))
  {
    hide NoneTwice, CondsApart, CondItems, NoneLate, WheelItems, AllWithout, Without;
    if s.conds[cond] != [] {
      CondPopped(s, cond);
      WakeKeeps(s.(conds := s.conds[cond := s.conds[cond][1..]]), s.conds[cond][0].data);
    }
  }

  lemma {:induction false} BroadcastKeeps(s: Loop, cond: Cond)
    requires Inv(s) && cond in s.conds
    ensures Inv(BroadcastTo(s, cond))
    decreases |s.conds[cond]|
  {
    hide Inv;
    if s.conds[cond] != [] {
      SignalKeeps(s, cond);
      BroadcastKeeps(Signalled(s, cond), cond);
    }
  }

  lemma EventKeeps(s: Loop, k: Entry)
    requires Inv(s) && Enabled(s, Event(k))
    ensures Inv(EventCame(s, k))
  {
    hide NoneTwice, CondsApart, CondItems, NoneLate, WheelItems, AllWithout, Without;
    var t := s.(frames := s.frames[k := InPoll(true, s.frames[k].raised + 1)]);
    WakeKeeps(t, k);
  }

  lemma BeginKeeps(s: Loop, now: nat)
    requires Inv(s) && |s.slots| > 0 && (s.start <= now || s.flagged == {})
    ensures Inv(Begun(s, now))
  {
    hide NoneTwice, CondsApart, CondItems, NoneLate, WheelItems, Taken, Emptied;
    if now < s.start {
      return;
    }
    BegunKeeps(s, now);
    var t := Begun(s, now);
    forall k | k in t.active && k in t.frames ensures k in t.flagged || Woken(t, k) {
      assert k in ItemSet(t.active);
    }
  }

  lemma DrainKeeps(s: Loop)
    requires Inv(s) && |s.slots| > 0 && s.active != []
    ensures Inv(Drained(s))
  {
    hide NoneTwice, CondsApart, CondItems, NoneLate, WheelItems, Slot, Ahead, CondsWithout;
    var k := s.active[0];
    var t := s.(active := s.active[1..]);
    PopKeeps(s);
    if GoesBack(s, k) {
      AddTimerKeeps(t.(flagged := t.flagged - {k}), k);
    } else {
      CondRemoved(t, k);
      OnceAdded(s.resumed, k);
    }
  }

  lemma StepKeepsInv(s: Loop, e: Step)
    requires Inv(s) && |s.slots| > 0 && Enabled(s, e)
    ensures Inv(After(s, e)) && |After(s, e).slots| == |s.slots|
  {
    hide Inv;
    match e
    case Condition(cond) => ConditionKeeps(s, cond);
    case Timewait(cond, c) => TimewaitKeeps(s, cond, c);
    case Poll(k) => PollKeeps(s, k);
    case Signal(cond) => SignalKeeps(s, cond);
    case Event(k) => EventKeeps(s, k);
    case Begin(now) => BeginKeeps(s, now);
    case Drain => DrainKeeps(s);
  }

  ghost predicate Next(s: Loop, e: Step, t: Loop) {
    |s.slots| > 0 && ClockKept(s) && Enabled(s, e) && t == After(s, e)
  }

  ghost predicate Run(states: seq<Loop>, steps: seq<Step>) {
    && |states| == |steps| + 1
    && |states[0].slots| > 0 && Inv(states[0])
    && forall i, j :: 0 <= i < |steps| && j == i + 1 ==> Next(states[i], steps[i], states[j])
  }

  lemma {:induction false} RunKeepsInv(states: seq<Loop>, steps: seq<Step>, i: nat)
    requires Run(states, steps) && i < |states|
    ensures Inv(states[i]) && |states[i].slots| > 0
  {
    hide Inv, After, Enabled;
    if i > 0 {
      RunKeepsInv(states, steps, i - 1);
      var j := i - 1;
      assert Next(states[j], steps[j], states[i]);
      StepKeepsInv(states[j], steps[j]);
    }
  }

  lemma OneStepOn(states: seq<Loop>, steps: seq<Step>, e: Step, t: Loop)
    requires Run(states, steps) && Next(states[|steps|], e, t)
    ensures Run(states + [t], steps + [e])
  {
    hide Next, Inv;
    var more, all := states + [t], steps + [e];
    forall i, j | 0 <= i < |all| && j == i + 1 ensures Next(more[i], all[i], more[j]) {
      if i < |steps| {
        assert Next(states[i], steps[i], states[j]);
      }
    }
  }

  ghost function Signals(cond: Cond, n: nat): (steps: seq<Step>)
    ensures |steps| == n && forall e :: e in steps ==> e == Signal(cond)
  {
    if n == 0 then [] else [Signal(cond)] + Signals(cond, n - 1)
  }

  // A broadcast goes on with a run as so many signals as there are waiters; then none is left. So
  // what is said of runs holds with broadcasts in them.
  lemma {:induction false} BroadcastIsSignals(states: seq<Loop>, steps: seq<Step>, cond: Cond) returns (more: seq<Loop>)
    requires Run(states, steps) && cond in states[|steps|].conds
    ensures var s := states[|steps|];
      && |more| == |s.conds[cond]| && Run(states + more, steps + Signals(cond, |more|))
      && (states + more)[|steps| + |more|] == BroadcastTo(s, cond)
      && cond in BroadcastTo(s, cond).conds && BroadcastTo(s, cond).conds[cond] == []
    decreases |states[|steps|].conds[cond]|
  {
    var s := states[|steps|];
    if s.conds[cond] == [] {
      more := [];
      assert states + [] == states && steps + [] == steps;
    } else {
      var t := Signalled(s, cond);
      RunKeepsInv(states, steps, |steps|);
      assert t.conds == s.conds[cond := s.conds[cond][1..]];
      hide Inv, Signalled;
      assert Next(s, Signal(cond), t) by { SignalNext(s, cond); }
      OneStepOn(states, steps, Signal(cond), t);
      hide Run;
      var rest := BroadcastIsSignals(states + [t], steps + [Signal(cond)], cond);
      more := [t] + rest;
      assert states + more == states + [t] + rest;
      assert steps + Signals(cond, |more|) == steps + [Signal(cond)] + Signals(cond, |rest|);
    }
  }

  lemma SignalNext(s: Loop, cond: Cond)
    requires Inv(s) && |s.slots| > 0 && cond in s.conds
    ensures Next(s, Signal(cond), Signalled(s, cond))
  {
  }

  // A coroutine is resumed by a step only when it was woken or has a deadline and that has come;
  // then its items are on no list and are used no more.
  lemma ResumedForCause(s: Loop, e: Step, t: Loop, k: Entry)
    requires Inv(s) && Next(s, e, t) && k in s.frames && k !in t.frames
    ensures e.Drain? && s.active[0] == k && t.resumed == s.resumed + [k] && t.now == s.now
    ensures Woken(s, k) || 0 < k.data.expire_time <= s.now
    ensures s.now < s.start ==> Woken(s, k)
    ensures k !in Listed(t) && (s.frames[k].InTimewait? ==> s.frames[k].item !in CondItems(t.conds))
  {
    hide Taken, Emptied, Slot, Ahead, NoneLate, NoneTwice, AllWithout, Without, CondsApart, CondItems, WheelItems, CondsWithout;
    if e.Drain? {
      PopKeeps(s);
      var u := s.(active := s.active[1..]);
      assert CondsHold(u);
      CondRemoved(u, k);
    }
  }

  // The waits there are either go on or are resumed, and the wheel's clock does not go back.
  lemma StepKeepsWaits(s: Loop, e: Step, t: Loop, k: Entry)
    requires Inv(s) && Next(s, e, t)
    ensures s.resumed <= t.resumed && s.start <= t.start
    ensures k in s.frames ==> k in t.frames || k in t.resumed
  {
    hide Taken, Emptied, Slot, Ahead, Inv, AllWithout, Without, CondsWithout;
    assert s.active == [] || s.active[0] in s.resumed + [s.active[0]];
  }

  lemma {:induction false} RunKeepsWaits(states: seq<Loop>, steps: seq<Step>, k: Entry, i: nat, j: nat)
    requires Run(states, steps) && i <= j < |states|
    ensures states[i].resumed <= states[j].resumed && states[i].start <= states[j].start
    ensures k in states[i].frames ==> k in states[j].frames || k in states[j].resumed
    decreases j
  {
    hide Inv, After, Enabled;
    if i < j {
      var m := j - 1;
      RunKeepsWaits(states, steps, k, i, m);
      RunKeepsInv(states, steps, m);
      assert Next(states[m], steps[m], states[j]);
      StepKeepsWaits(states[m], steps[m], states[j], k);
      assert k in states[m].resumed ==> k in states[j].resumed;
    }
  }

  // Once resumed, a wait is over for good: it is counted once and is never resumed again.
  lemma ResumedAtMostOnce(states: seq<Loop>, steps: seq<Step>, k: Entry, i: nat, j: nat)
    requires Run(states, steps) && i <= j < |states| && k in states[i].resumed
    ensures k !in states[j].frames && multiset(states[j].resumed)[k] == 1
  {
    hide Run, NoneTwice, CondsHold, NoneLost, ActiveForCause, WheelAhead;
    RunKeepsWaits(states, steps, k, i, j);
    RunKeepsInv(states, steps, j);
    OnceCounted(states[j].resumed, k);
  }

  lemma {:induction false} OnceCounted<T>(s: seq<T>, x: T)
    requires Once(s)
    ensures multiset(s)[x] == if x in s then 1 else 0
  {
    if s != [] {
      OnceRest(s);
      OnceCounted(s[1..], x);
      assert s == [s[0]] + s[1..];
    }
  }

  // When the loop has emptied the active list nobody waits beyond a deadline, and a wait that was
  // woken and is not over has been taken early and put back, so its deadline is still to come.
  lemma NobodyOverdue(s: Loop, k: Entry)
    requires Inv(s) && s.active == [] && k in s.frames
    ensures k.data.expire_time > 0 || Woken(s, k) ==> s.start < k.data.expire_time && k in WheelItems(s.slots)
  {
    hide NoneTwice, NoneLate, CondsHold, ActiveForCause, CondItems, WheelItems;
  }

  // A coroutine that waits with a deadline is resumed, once, by the time the loop has emptied the
  // active list at or after that deadline.
  lemma DeadlineMet(states: seq<Loop>, steps: seq<Step>, k: Entry, i: nat, j: nat)
    requires Run(states, steps) && i <= j < |states| && k in states[i].frames
    requires states[j].active == [] && 0 < k.data.expire_time <= states[j].start
    ensures k !in states[j].frames && multiset(states[j].resumed)[k] == 1
  {
    hide Run, Inv;
    RunKeepsWaits(states, steps, k, i, j);
    RunKeepsInv(states, steps, j);
    if k in states[j].frames {
      NobodyOverdue(states[j], k);
    } else {
      ResumedAtMostOnce(states, steps, k, j, j);
    }
  }

  lemma {:induction false} NothingMarked(states: seq<Loop>, steps: seq<Step>, i: nat, j: nat)
    requires Run(states, steps) && i <= j < |states| && states[i].active == []
    requires forall m :: i <= m < j ==> !steps[m].Begin?
    ensures states[j].flagged == {}
    decreases j
  {
    if i == j {
      RunKeepsInv(states, steps, i);
      NoneActive(states[i]);
    } else {
      hide Inv;
      var m := j - 1;
      NothingMarked(states, steps, i, m);
      assert Next(states[m], steps[m], states[j]);
      hide Taken, Emptied, Slot, Ahead, AllWithout, Without, CondsWithout;
    }
  }

  lemma NoneActive(s: Loop)
    requires Inv(s) && s.active == []
    ensures s.flagged == {}
  {
    assert forall k :: k in s.flagged ==> k in s.active;
  }

  // When a new iteration begins the active list has been emptied since the last, so the clock may
  // go back: the iteration then takes nothing from the wheel, and resumes only who was woken.
  lemma ClockMayGoBack(states: seq<Loop>, steps: seq<Step>, i: nat, j: nat, now: nat)
    requires Run(states, steps) && i <= j < |states| && states[i].active == []
    requires forall m :: i <= m < j ==> !steps[m].Begin?
    requires now < states[j].start
    ensures |states[j].slots| > 0 && Enabled(states[j], Begin(now)) && Begun(states[j], now) == states[j].(now := now)
  {
    RunKeepsInv(states, steps, j);
    NothingMarked(states, steps, i, j);
  }

  // In each iteration everything on a list that is due becomes active.
  lemma DueBecomesActive(s: Loop, now: nat, k: Entry)
    requires Inv(s) && |s.slots| > 0 && Enabled(s, Begin(now)) && k in s.frames && 0 < k.data.expire_time <= now
    ensures k in Begun(s, now).active && !GoesBack(Begun(s, now), k)
  {
    hide NoneTwice, NoneLate, CondsHold, ActiveForCause, CondItems, WheelItems, Taken, Emptied;
    if s.start <= now {
      BegunKeeps(s, now);
    }
  }

  // The first active wait goes on, unmarked and on the wheel, if it was taken early; otherwise it
  // is resumed.
  lemma FirstActive(s: Loop)
    requires Inv(s) && |s.slots| > 0 && s.active != []
    ensures var k := s.active[0];
      && k in s.frames && (k in Drained(s).frames <==> GoesBack(s, k))
      && (GoesBack(s, k) ==> k in WheelItems(Drained(s).slots) && k !in Drained(s).flagged)
  {
    hide NoneTwice, NoneLate, CondsHold, ActiveForCause, CondItems, Slot, Ahead;
    var k := s.active[0];
    assert k in Listed(s);
    if GoesBack(s, k) {
      var j := Slot(|s.slots|, s.start_idx, Ahead(s.start, k.data.expire_time, |s.slots|));
      assert k in Drained(s).slots[j];
    }
  }

  // Until its turn comes, an active wait stays active, and marked as it is, within an iteration.
  lemma StaysActive(s: Loop, e: Step, t: Loop, k: Entry)
    requires Inv(s) && Next(s, e, t) && k in s.active
    requires !e.Begin? && !(e.Drain? && s.active[0] == k)
    ensures k in t.active && t.now == s.now && (k in t.flagged <==> k in s.flagged)
  {
    hide NoneTwice, NoneLate, CondsHold, ActiveForCause, CondItems, WheelItems, Slot, Ahead, AllWithout, Without, CondsWithout;
    if e.Drain? {
      assert s.active == [s.active[0]] + s.active[1..];
    }
  }

  // k is active from i to j, where its turn comes, and no iteration begins in between.
  ghost predicate TurnAt(states: seq<Loop>, steps: seq<Step>, k: Entry, i: nat, j: nat)
    requires |states| == |steps| + 1
  {
    && i <= j < |steps| && steps[j].Drain? && states[j].active != [] && states[j].active[0] == k
    && forall m :: i <= m < j ==> !steps[m].Begin? && !(steps[m].Drain? && states[m].active != [] && states[m].active[0] == k)
  }

  lemma {:induction false} ActiveUntilTurn(states: seq<Loop>, steps: seq<Step>, k: Entry, i: nat, j: nat, m: nat)
    requires Run(states, steps) && TurnAt(states, steps, k, i, j) && i <= m <= j && k in states[i].active
    ensures k in states[m].active && states[m].now == states[i].now && (k in states[m].flagged <==> k in states[i].flagged)
    decreases m
  {
    hide Inv, After, Enabled;
    if i < m {
      var l := m - 1;
      ActiveUntilTurn(states, steps, k, i, j, l);
      RunKeepsInv(states, steps, l);
      assert Next(states[l], steps[l], states[m]);
      StaysActive(states[l], steps[l], states[m], k);
    }
  }

  // When a signalled waiter runs. In any run, the first waiter of a condition that is signalled is
  // woken; when its turn comes in the same iteration, it is resumed if and only if it had not, at
  // the time of the signal, been taken from the wheel before its deadline.
  lemma SignalDelayed(states: seq<Loop>, steps: seq<Step>, cond: Cond, i: nat, j: nat)
    requires Run(states, steps) && i < |steps| && steps[i] == Signal(cond)
    requires cond in states[i].conds && states[i].conds[cond] != []
    requires TurnAt(states, steps, states[i].conds[cond][0].data, i + 1, j)
    ensures var k := states[i].conds[cond][0].data;
      && k in states[i + 1].frames && Woken(states[i + 1], k) && k in states[j].frames
      && (k !in states[j + 1].frames <==> !(k in states[i].flagged && states[i].now < k.data.expire_time))
      && (k !in states[j + 1].frames ==> states[j + 1].resumed == states[j].resumed + [k])
  {
    var s, k, a := states[i], states[i].conds[cond][0].data, i + 1;
    hide Inv, Taken, Emptied, Drained, AddTimer, CondsWithout;
    RunKeepsInv(states, steps, i);
    assert Next(s, steps[i], states[a]);
    FirstWoken(s, cond);
    ActiveUntilTurn(states, steps, k, a, j, j);
    hide TurnAt, Run, Next, Woken, Signalled;
    TakesItsTurn(states, steps, k, j);
  }

  lemma TakesItsTurn(states: seq<Loop>, steps: seq<Step>, k: Entry, j: nat)
    requires Run(states, steps) && j < |steps| && steps[j].Drain? && states[j].active != [] && states[j].active[0] == k
    ensures k in states[j].frames
    ensures k !in states[j + 1].frames <==> !(k in states[j].flagged && states[j].now < k.data.expire_time)
    ensures k !in states[j + 1].frames ==> states[j + 1].resumed == states[j].resumed + [k]
  {
    hide Inv, Taken, Emptied, AddTimer, CondsWithout;
    RunKeepsInv(states, steps, j);
    var b := j + 1;
    assert Next(states[j], steps[j], states[b]);
    FirstActive(states[j]);
  }

  lemma FirstWoken(s: Loop, cond: Cond)
    requires Inv(s) && cond in s.conds && s.conds[cond] != []
    ensures var k, t := s.conds[cond][0].data, Signalled(s, cond);
      k in t.frames && k in t.active && Woken(t, k) && t.now == s.now && t.flagged == s.flagged
  {
    hide NoneTwice, NoneLate, CondItems, CondsApart, AllWithout, Without;
    CondPopped(s, cond);
  }

  // Such a run from a new loop: with two slots and the clock at 2, a waiter with deadline 10 is
  // taken early, then signalled, and goes back to the wheel when its turn comes.
  ghost function DelayedRun(cond: Cond, c: CondItem): (states: seq<Loop>)
    ensures |states| == 6
  {
    var k := c.data;
    var new_loop := Loop([[], []], 1, 0, 1, [], map[], map[], {}, []);
    var made := new_loop.(conds := map[cond := []]);
    var waiting := made.(slots := [[], [k]], conds := map[cond := [c]], frames := map[k := InTimewait(c)]);
    var taken := waiting.(slots := [[], []], start := 2, start_idx := 1, now := 2, active := [k], flagged := {k});
    var signalled := taken.(conds := map[cond := []]);
    var back := signalled.(slots := [[k], []], active := [], flagged := {});
    [new_loop, made, waiting, taken, signalled, back]
  }

  lemma SignalIsDelayed(cond: Cond, c: CondItem)
    requires c.data.data.expire_time == 10
    ensures var states, steps := DelayedRun(cond, c), [Condition(cond), Timewait(cond, c), Begin(2), Signal(cond), Drain];
      && Run(states, steps) && states[3].conds[cond] == [c] && TurnAt(states, steps, c.data, 4, 4)
      && Woken(states[4], c.data) && c.data in states[5].frames && states[5].active == []
  {
    var states := DelayedRun(cond, c);
    var steps := [Condition(cond), Timewait(cond, c), Begin(2), Signal(cond), Drain];
    NewLoop(states[0]);
    MakeStep(cond, c);
    WaitStep(cond, c);
    TakeStep(cond, c);
    SignalStep(cond, c);
    BackStep(cond, c);
    hide Next, Inv, DelayedRun;
    forall i, j | 0 <= i < |steps| && j == i + 1 ensures Next(states[i], steps[i], states[j]) {
    }
  }

  lemma MakeStep(cond: Cond, c: CondItem)
    ensures Next(DelayedRun(cond, c)[0], Condition(cond), DelayedRun(cond, c)[1])
    ensures var states := DelayedRun(cond, c);
      && |states| == 6 && |states[0].slots| > 0 && states[3].conds == map[cond := [c]]
      && states[4].active == [c.data] && c.data in states[4].frames && Woken(states[4], c.data)
      && c.data in states[5].frames && states[5].active == []
  {
  }

  lemma WaitStep(cond: Cond, c: CondItem)
    requires c.data.data.expire_time == 10
    ensures Next(DelayedRun(cond, c)[1], Timewait(cond, c), DelayedRun(cond, c)[2])
  {
    var s, t, k := DelayedRun(cond, c)[1], DelayedRun(cond, c)[2], c.data;
    assert s.slots[1] + [k] == [k] && s.conds[cond] + [c] == [c];
    assert AddTimer(s, k).slots == [[], [k]];
    var u := StartTimewait(s, cond, c);
    assert u.conds == t.conds && u.frames == t.frames && u.slots == t.slots;
  }

  lemma TakeStep(cond: Cond, c: CondItem)
    requires c.data.data.expire_time == 10
    ensures Next(DelayedRun(cond, c)[2], Begin(2), DelayedRun(cond, c)[3])
  {
    TwoSlots(c.data);
  }

  lemma SignalStep(cond: Cond, c: CondItem)
    ensures Next(DelayedRun(cond, c)[3], Signal(cond), DelayedRun(cond, c)[4])
  {
    var k, s := c.data, DelayedRun(cond, c)[3];
    OneTaken(k);
    hide Without;
    assert AllWithout(s.slots, k) == [[], []];
  }

  lemma OneTaken(k: Entry)
    ensures Without([], k) == [] && Without([k], k) == []
  {
    var none: seq<Entry> := [];
    WithoutNone(none, k);
    assert [k][1..] == none;
  }

  lemma BackStep(cond: Cond, c: CondItem)
    requires c.data.data.expire_time == 10
    ensures Next(DelayedRun(cond, c)[4], Drain, DelayedRun(cond, c)[5])
  {
    var s, t, k := DelayedRun(cond, c)[4], DelayedRun(cond, c)[5], c.data;
    var u := s.(active := s.active[1..], flagged := s.flagged - {k});
    assert u.active == [] && u.flagged == {};
    assert u.slots[0] + [k] == [k];
    assert AddTimer(u, k).slots == [[k], []];
    assert Drained(s) == AddTimer(u, k);
  }

  lemma TwoSlots(k: Entry)
    ensures Taken([[], [k]], 0, 2) == [k] && Emptied([[], [k]], 0, 2) == [[], []]
  {
    var s: Slots := [[], [k]];
    NothingTaken(s, 0);
    OneMoreTaken(s, 0, 0);
    OneMoreTaken(s, 0, 1);
  }

  lemma NewLoop(s: Loop)
    requires |s.slots| > 0 && 0 < s.start && ClockKept(s) && (forall j :: 0 <= j < |s.slots| ==> s.slots[j] == [])
    requires s.active == [] && s.frames == map[] && s.conds == map[] && s.flagged == {} && s.resumed == []
    ensures Inv(s) && Listed(s) == {}
  {
    hide Slot;
  }

  lemma NewPoll(s: Loop, k: Entry)
    requires Inv(s) && |s.slots| > 0 && k !in s.frames && k !in s.resumed && s.start < k.data.expire_time
    ensures Inv(StartPoll(s, k))
    ensures var t := AddTimer(s, k);
      StartPoll(s, k) == t.(frames := t.frames[k := InPoll(false, 0)])
  {
    hide Inv, AddTimer;
    PollKeeps(s, k);
  }

  lemma EventIs(s: Loop, k: Entry)
    requires Inv(s) && k in s.frames && s.frames[k].InPoll?
    ensures Inv(EventCame(s, k))
    ensures var t := s.(frames := s.frames[k := InPoll(true, s.frames[k].raised + 1)]);
      EventCame(s, k) == if s.frames[k].detached then t else Wake(t, k)
    ensures k in Listed(s)
  {
    hide Wake, NoneTwice, WheelAhead, CondsHold, ActiveForCause, Listed;
    PollEvent(s, k);
  }

  lemma PollEvent(s: Loop, k: Entry)
    requires Inv(s) && k in s.frames && s.frames[k].InPoll?
    ensures Inv(EventCame(s, k))
  {
    hide Inv;
    EventKeeps(s, k);
  }

  lemma BegunIs(s: Loop, now: nat)
    requires Inv(s) && |s.slots| > 0 && (s.start <= now || s.flagged == {})
    ensures Inv(Begun(s, now)) && Listed(Begun(s, now)) == Listed(s)
    ensures var cnt := Passed(s.start, now, |s.slots|);
      var taken := Taken(s.slots, s.start_idx, cnt);
      && Begun(s, now) ==
         s.(slots := Emptied(s.slots, s.start_idx, cnt), start := if now < s.start then s.start else now,
            start_idx := if now < s.start then s.start_idx else s.start_idx + cnt - 1, now := now,
            active := s.active + taken, flagged := s.flagged + ItemSet(taken))
      && ItemSet(taken) <= s.frames.Keys
  {
    hide NoneTwice, NoneLate, WheelItems, Taken, Emptied, CondsHold, NoneLost, ActiveForCause;
    BeginKeeps(s, now);
    if now < s.start {
      NothingTaken(s.slots, s.start_idx);
      NoItems<Timeout>();
    } else {
      BegunKeeps(s, now);
      var cnt := Count(s.start, now, |s.slots|);
      ItemSetSum(s.active, Taken(s.slots, s.start_idx, cnt));
    }
  }

  lemma DrainedIs(s: Loop)
    requires Inv(s) && |s.slots| > 0 && s.active != []
    ensures Inv(Drained(s)) && s.active[0] in s.frames
    ensures s.active[0] !in Listed(s.(active := s.active[1..]))
    ensures var k, t := s.active[0], s.(active := s.active[1..]);
      Drained(s) ==
      if k in s.flagged && s.now < k.data.expire_time then AddTimer(t.(flagged := t.flagged - {k}), k)
      else t.(frames := t.frames - {k}, flagged := t.flagged - {k}, resumed := t.resumed + [k],
              conds := if s.frames[k].InTimewait? then CondsWithout(t.conds, s.frames[k].item) else t.conds)
    ensures s.now <= s.start && (s.active[0] in s.flagged ==> s.now == s.start)
  {
    hide AddTimer, WheelItems, CondsWithout;
    assert s.active[0] in Listed(s);
    PopKeeps(s);
    DrainKeeps(s);
  }

  lemma AddTimerLists(s: Loop, k: Entry)
    requires |s.slots| > 0 && s.start <= k.data.expire_time
    ensures var j := Slot(|s.slots|, s.start_idx, Ahead(s.start, k.data.expire_time, |s.slots|));
      AddTimer(s, k) == s.(slots := s.slots[j := s.slots[j] + [k]])
    ensures Listed(AddTimer(s, k)) == Listed(s) + {k}
  {
    hide Slot, Ahead;
    var j := Slot(|s.slots|, s.start_idx, Ahead(s.start, k.data.expire_time, |s.slots|));
    var t := AddTimer(s, k);
    assert k in t.slots[j];
    forall x | x in WheelItems(s.slots) ensures x in WheelItems(t.slots) {
      var i :| 0 <= i < |s.slots| && x in s.slots[i];
      assert x in t.slots[i];
    }
  }

  lemma PopLists(s: Loop)
    requires s.active != []
    ensures Listed(s.(active := s.active[1..])) + {s.active[0]} == Listed(s) + {s.active[0]} && s.active[0] in Listed(s)
  {
    assert s.active == [s.active[0]] + s.active[1..];
  }

  lemma WakeLists(s: Loop, k: Entry)
    ensures Listed(Wake(s, k)) == Listed(s) + {k}
    ensures Wake(s, k) == s.(slots := AllWithout(s.slots, k), active := Without(s.active, k) + [k])
  {
    hide Without;
    var t := Wake(s, k);
    forall x | x in WheelItems(s.slots) && x != k ensures x in WheelItems(t.slots) {
      var j :| 0 <= j < |s.slots| && x in s.slots[j];
      assert x in t.slots[j];
    }
  }

  lemma SameListed(s: Loop, conds: Conds)
    ensures Listed(s.(conds := conds)) == Listed(s)
  {
  }

  lemma SameListedFrames(s: Loop, frames: map<Entry, Frame>, flagged: set<Entry>, resumed: seq<Entry>)
    ensures Listed(s.(frames := frames, flagged := flagged, resumed := resumed)) == Listed(s)
  {
  }

  // ---------------------------------------------------------------------------------------
  // The loop on the heap

  const INT_MAX: int := 0x7FFF_FFFF
  const POLL_FAILED: int := -1

  class Epoll {
    const timer: TimingWheel
    const timeout_list: Link<Timeout>
    const active_list: Link<Timeout>
    // What event loop and suspended coroutines keep in their local variables.
    var now: nat
    var frames: map<Entry, Frame>
    ghost var conds: set<Cond>
    ghost var resumed: seq<Entry>

    ghost function Lists(): set<Link<Timeout>> {
      {timeout_list, active_list} + set l | l in timer.link
    }

    ghost function CondFrames(): set<CondItem>
      reads this
    {
      CondItemsOf(frames)
    }

    static ghost function CondItemsOf(frames: map<Entry, Frame>): set<CondItem> {
      set k | k in frames && frames[k].InTimewait? :: frames[k].item
    }

    ghost function Timeouts(): set<Timeout>
      reads this
    {
      set k | k in frames :: k.data
    }

    ghost function Held(): set<object>
      reads this
    {
      {this} + frames.Keys + CondFrames() + Timeouts()
    }

    ghost function Objects(): set<object>
      reads this, Lists(), conds
    {
      {timer} + Space(Lists()) + Space(conds) + Held()
    }

    ghost function State(): Loop
      reads this, timer, Lists(), conds, Timeouts()
    {
      Loop(timer.Contents(), timer.start, timer.start_idx, now, active_list.items,
           (map c | c in conds :: c.items), frames, (set k | k in frames && k.data.is_timeout), resumed)
    }

    ghost predicate Shape() {
      timer.Valid() && timeout_list != active_list && timeout_list !in timer.link && active_list !in timer.link
    }

    // Lists are well-formed, items on none of them have no link, no two share a timeout.
    ghost predicate Wired()
      reads this, Lists(), conds, Objects()
    {
      && Shape() && timeout_list.items == []
      && AllWellFormed(Lists()) && AllWellFormed(conds)
      && (forall k :: k in frames && k !in Listed(State()) ==> k.link == null)
      && (forall c :: c in CondFrames() && c !in CondItems(State().conds) ==> c.link == null)
      && forall j, k :: j in frames && k in frames && j != k ==> j.data != k.data
    }

    ghost predicate Valid()
      reads this, Lists(), conds, Objects()
    {
      Wired() && Inv(State())
    }

    // EpollAlloc, for a wheel of any size and a clock that reads tick.
    constructor (size: nat, tick: nat)
      requires size > 0 && tick > 0
      ensures Valid() && fresh(Objects())
      ensures now == tick && frames == map[] && conds == {} && resumed == [] && Listed(State()) == {}
    {
      hide Inv, Wired, Valid, State, Objects, Held, Timeouts, AllWellFormed, Space, Footprint, Listed, CondItems;
      hide AllWithout, Without, AddTimer, Begun, Drained, Taken, Emptied, Slot, Ahead;
      timer := new TimingWheel(size, tick);
      active_list := new Link();
      timeout_list := new Link();
      now, frames, conds, resumed := tick, map[], {}, [];
      new;
      forall l | l in Lists() ensures fresh(l) && l.items == [] && l.WellFormed() {
        if l in timer.link {
          var j :| 0 <= j < |timer.link| && timer.link[j] == l;
        }
      }
      assert Shape();
      NewIsValid();
    }

    lemma NewIsValid()
      requires Shape()
      requires forall l :: l in Lists() ==> l.items == [] && l.WellFormed()
      requires frames == map[] && conds == {} && resumed == [] && 0 < timer.start == now
      ensures Valid() && Objects() == {this, timer} + Lists() && Listed(State()) == {}
    {
      hide Inv;
      assert timeout_list in Lists() && active_list in Lists() && forall j :: 0 <= j < |timer.link| ==> timer.link[j] in Lists();
      NewLoop(State());
    }

    // Lists of timeouts and their items, those of conditions, and timeouts are different objects.
    lemma Elsewhere()
      ensures Space(Lists()) !! Space(conds)
      ensures allocated(Space(Lists())) && allocated(Space(conds)) && allocated(CondFrames()) && allocated(Lists()) &&
               allocated(Timeouts())
      ensures this !in Space(Lists()) + Space(conds) && timer !in Space(Lists()) + Space(conds)
      ensures (forall t: Timeout :: t !in Space(Lists()) + Space(conds)) && forall k: Entry :: k !in Space(conds)
      ensures (forall l: Link<Timeout> :: l !in Space(conds)) && forall c: Cond :: c !in Space(Lists())
      ensures forall c: CondItem :: c !in Space(Lists())
      ensures forall o: object :: (o in Lists() ==> o in Space(Lists())) && (o in conds ==> o in Space(conds))
      ensures forall c, k :: c in CondFrames() && k in frames ==> (c as object) != k
    {
    }

    // An item is on no list but the one it names.
    lemma NotElsewhere(k: Entry)
      requires AllWellFormed(Lists()) && (k.link != null ==> k.link in Lists() && k in k.link.items)
      ensures forall l :: l in Lists() && l != k.link ==> Without(l.items, k) == l.items
      ensures Footprint(active_list) <= Space(Lists()) && Footprint(k.link) <= Space(Lists())
    {
      forall l | l in Lists() && l != k.link ensures Without(l.items, k) == l.items {
        assert l.WellFormed();
        WithoutNone(l.items, k);
      }
      FootprintInSpace(Lists(), active_list);
      if k.link != null { FootprintInSpace(Lists(), k.link); }
    }

    // The items written by operations on the lists are those on them.
    lemma Occupied()
      requires timeout_list.items == []
      ensures forall k: Entry :: k in Space(Lists()) ==> k in Listed(State())
      ensures forall c: CondItem :: c in Space(conds) ==> c in CondItems(State().conds)
    {
      forall k: Entry | k in Space(Lists()) ensures k in Listed(State()) {
        var l :| l in Lists() && k in l.items;
        if l in timer.link {
          var j :| 0 <= j < |timer.link| && timer.link[j] == l;
          assert k in timer.Contents()[j];
        }
      }
      forall c: CondItem | c in Space(conds) ensures c in CondItems(State().conds) {
        var cond :| cond in conds && c in cond.items;
        assert c in State().conds[cond];
      }
    }

    lemma Named(k: Entry)
      requires Wired() && k in frames
      ensures k.link != null ==> k.link in Lists() && k in k.link.items
    {
      hide Inv;
      if k in active_list.items {
        assert active_list in Lists() && active_list.WellFormed();
      } else if k in WheelItems(timer.Contents()) {
        var j :| 0 <= j < |timer.link| && k in timer.link[j].items;
        assert timer.link[j] in Lists() && timer.link[j].WellFormed();
      }
    }

    // The item of a wait is on the list its link names, and on no other.
    lemma OnTheListItNames(k: Entry, l: Link<Timeout>)
      requires Wired() && k in frames && l in Lists()
      ensures k in l.items <==> k.link == l
    {
      hide Inv, Listed;
      OneWellFormed(Lists(), l);
      Named(k);
    }

    lemma HeadOf(cond: Cond)
      requires Valid() && cond in conds
      ensures (cond.head == null <==> cond.items == []) && Footprint(cond) <= Space(conds)
      ensures cond.head != null ==> cond.head == cond.items[0] && cond.head.data in frames && cond.head in CondItems(State().conds)
      ensures cond.head != null ==> frames[cond.head.data] == InTimewait(cond.head)
    {
      hide AllWellFormed, NoneTwice, NoneLate, WheelItems;
      assert cond.WellFormed() by { OneWellFormed(conds, cond); }
      FootprintInSpace(conds, cond);
      if cond.items != [] {
        assert cond.items[0] in State().conds[cond];
      }
    }

    lemma Parts()
      ensures var s := State();
        && s.slots == timer.Contents() && s.start == timer.start && s.start_idx == timer.start_idx && s.now == now
        && s.active == active_list.items && s.frames == frames && s.resumed == resumed
        && s.conds.Keys == conds && (forall c :: c in conds ==> s.conds[c] == c.items)
        && s.flagged <= frames.Keys && forall k :: k in frames ==> (k in s.flagged <==> k.data.is_timeout)
    {
    }

    lemma StateIs(s: Loop)
      requires s.slots == timer.Contents() && s.start == timer.start && s.start_idx == timer.start_idx && s.now == now
      requires s.active == active_list.items && s.frames == frames && s.resumed == resumed
      requires s.conds.Keys == conds && forall c :: c in conds ==> s.conds[c] == c.items
      requires s.flagged <= frames.Keys && forall k :: k in frames ==> (k in s.flagged <==> k.data.is_timeout)
      ensures State() == s
    {
      assert s.conds == map c | c in conds :: c.items;
    }

    lemma WiredParts()
      requires Wired()
      ensures Shape() && timeout_list.items == [] && AllWellFormed(Lists()) && AllWellFormed(conds)
      ensures forall k :: k in frames && k !in Listed(State()) ==> k.link == null
      ensures forall c :: c in CondFrames() && c !in CondItems(State().conds) ==> c.link == null
      ensures forall j, k :: j in frames && k in frames && j != k ==> j.data != k.data
      ensures forall k: Entry :: k in Space(Lists()) ==> k in Listed(State())
      ensures forall c: CondItem :: c in Space(conds) ==> c in CondItems(State().conds)
    {
      Occupied();
    }

    // Takes an item off its list and puts it at the end of the active list.
    method Activate(k: Entry)
      requires Wired() && k in frames
      modifies k, Space(Lists())
      ensures Wired() && State() == Wake(old(State()), k)
      ensures Space(Lists()) <= old(Space(Lists())) + {k} && Space(conds) == old(Space(conds))
    {
      hide Inv, Wired, Valid, State, Objects, Held, Timeouts, AllWellFormed, Space, Footprint, Listed, CondItems;
      hide AllWithout, Without, AddTimer, Begun, Drained, Taken, Emptied, Slot, Ahead;
      ghost var s := State();
      Elsewhere();
      WiredParts();
      Parts();
      Named(k);
      Move(k);
      WakeLists(s, k);
      StateIs(Wake(s, k));
      WiredIs();
    }

    lemma WiredIs()
      requires Shape() && timeout_list.items == [] && AllWellFormed(Lists()) && AllWellFormed(conds)
      requires forall k :: k in frames && k !in Listed(State()) ==> k.link == null
      requires forall c :: c in CondFrames() && c !in CondItems(State().conds) ==> c.link == null
      requires forall j, k :: j in frames && k in frames && j != k ==> j.data != k.data
      ensures Wired()
    {
      hide AllWellFormed, Listed, CondItems;
    }

    method Move(k: Entry)
      requires Shape() && timeout_list.items == [] && AllWellFormed(Lists())
      requires k.link != null ==> k.link in Lists() && k in k.link.items
      modifies k, Space(Lists())
      ensures AllWellFormed(Lists()) && timeout_list.items == [] && Space(Lists()) <= old(Space(Lists())) + {k}
      ensures timer.Contents() == AllWithout(old(timer.Contents()), k)
      ensures active_list.items == Without(old(active_list.items), k) + [k]
    {
      hide Inv, Wired, Valid, State, Objects, Held, Timeouts, AllWellFormed, Space, Footprint, Listed, CondItems, ItemsOf, Lists;
      hide AllWithout, Without, AddTimer, Begun, Drained, Taken, Emptied, Slot, Ahead;
      ghost var all, slots := Lists(), timer.Contents();
      InLists();
      NotElsewhere(k);
      RemoveFromLink(k, all);
      FootprintInSpace(all, active_list);
      TailAdd(active_list, k, all);
    }

    method PopCond(cond: Cond)
      requires Wired() && cond in conds && cond.items != []
      requires cond.items[0] in CondFrames()
      modifies Space(conds)
      ensures Wired() && State() == old(State()).(conds := old(State()).conds[cond := old(cond.items)[1..]])
      ensures Space(conds) <= old(Space(conds)) && Space(Lists()) == old(Space(Lists()))
    {
      hide Inv, Wired, Valid, State, Objects, Held, Timeouts, AllWellFormed, Space, Footprint, Listed, CondItems;
      hide AllWithout, Without, AddTimer, Begun, Drained, Taken, Emptied, Slot, Ahead;
      ghost var s := State();
      Elsewhere();
      WiredParts();
      Parts();
      FootprintInSpace(conds, cond);
      CondItemsPopped(s.conds, cond);
      HeadPop(cond, conds);
      SameListed(s, s.conds[cond := s.conds[cond][1..]]);
      StateIs(s.(conds := s.conds[cond := s.conds[cond][1..]]));
      WiredIs();
    }

    lemma ValidParts()
      requires Valid()
      ensures Wired() && Inv(State()) && {this} + Space(Lists()) + Space(conds) <= Objects()
      ensures |State().slots| > 0 && Timeouts() <= Objects() && timer in Objects() && Held() <= Objects() &&
               forall k :: k in frames ==> k in Objects() && k.data in Objects()
    {
      hide Inv;
    }

    lemma ObjectsShrink(before: set<object>)
      requires timer in before && Space(Lists()) + Space(conds) <= before && Held() <= before
      ensures Objects() <= before
    {
    }

    lemma ObjectsGrow(before: set<object>, k: object, c: object, t: object)
      requires timer in before && Space(Lists()) + Space(conds) + Held() <= before + {k, c, t}
      ensures Objects() <= before + {k, c, t}
    {
    }

    lemma ValidIs()
      requires Wired() && Inv(State())
      ensures Valid()
    {
    }

    // Wakes the first coroutine that waits on a condition, if there is one.
    method CoCondSignal(cond: Cond)
      requires Valid() && cond in conds
      modifies Objects()
      ensures Valid() && State() == Signalled(old(State()), cond)
      ensures old(cond.items) == [] ==> cond.items == [] && active_list.items == old(active_list.items)
      ensures old(cond.items) != [] ==>
                var k := old(cond.items)[0].data;
                cond.items == old(cond.items)[1..] && active_list.items == Without(old(active_list.items), k) + [k]
      ensures forall c :: c in old(conds) && c != cond ==> c.items == old(c.items)
      ensures conds == old(conds) && Objects() <= old(Objects())
    {
      hide Inv, Wired, Valid, State, Objects, Held, Timeouts, AllWellFormed, Space, Footprint, Listed, CondItems;
      hide AllWithout, Without, AddTimer, Begun, Drained, Taken, Emptied, Slot, Ahead, Shape, Lists, Wake, ItemsOf;
      HeadOf(cond);
      ValidParts();
      Parts();
      ghost var s := State();
      SignalKeeps(s, cond);
      var item := cond.head;
      if item == null {
        return;
      }
      Elsewhere();
      PopCond(cond);
      Parts();
      Elsewhere();
      Activate(item.data);
      Parts();
      WakeLists(s.(conds := s.conds[cond := s.conds[cond][1..]]), item.data);
      ObjectsShrink(old(Objects()));
      ValidIs();
    }

    method CoCondBroadcast(cond: Cond)
      requires Valid() && cond in conds
      modifies Objects()
      ensures Valid() && State() == BroadcastTo(old(State()), cond)
      ensures conds == old(conds) && Objects() <= old(Objects())
    {
      hide Inv, Wired, Valid, State, Objects, Held, Timeouts, AllWellFormed, Space, Footprint, Listed, CondItems;
      hide AllWithout, Without, AddTimer, Begun, Drained, Taken, Emptied, Slot, Ahead;
      Parts();
      HeadOf(cond);
      while cond.head != null
        invariant Valid() && conds == old(conds) && Objects() <= old(Objects()) && cond in State().conds
        invariant BroadcastTo(State(), cond) == BroadcastTo(old(State()), cond)
        invariant cond.head == null <==> State().conds[cond] == []
        decreases |State().conds[cond]|
      {
        ghost var s := State();
        CoCondSignal(cond);
        Parts();
        HeadOf(cond);
        WakeLists(s.(conds := s.conds[cond := s.conds[cond][1..]]), s.conds[cond][0].data);
      }
    }

    // ---------------------------------------------------------------------------------------
    // The parts of waiting, and of an iteration of the loop

    // Puts an item that is on no list on the wheel.
    method AddToWheel(k: Entry, tick: nat) returns (r: int)
      requires Wired() && k.link == null && 0 < timer.start
      modifies timer, k, Space(Lists())
      ensures Wired() && Space(Lists()) <= old(Space(Lists())) + {k} && Space(conds) == old(Space(conds))
      ensures r == if tick < timer.start then CLOCK_BEHIND else if k.data.expire_time < tick then ALREADY_DUE else ADDED
      ensures |old(State()).slots| > 0 && old(State()).start == timer.start
      ensures r != ADDED ==> State() == old(State()) && k.link == null
      ensures r == ADDED ==> timer.start <= k.data.expire_time && State() == AddTimer(old(State()), k)
    {
      hide Inv, Wired, Valid, State, Objects, Held, Timeouts, AllWellFormed, Space, Footprint, Listed, CondItems, ItemsOf, Lists;
      hide AllWithout, Without, AddTimer, Begun, Drained, Taken, Emptied, Slot, Ahead;
      ghost var s := State();
      Elsewhere();
      WiredParts();
      Parts();
      InLists();
      r := timer.TimerItemAdd(k, tick, Lists());
      if r == ADDED {
        AddTimerLists(s, k);
        StateIs(AddTimer(s, k));
      } else {
        StateIs(s);
      }
      WiredIs();
    }

    lemma InLists()
      ensures forall l :: l in timer.link ==> l in Lists()
      ensures timeout_list in Lists() && active_list in Lists()
    {
    }

    // Puts an item that is on no list on a condition.
    method AddToCond(cond: Cond, c: CondItem)
      requires Wired() && cond in conds && c.link == null
      modifies c, Space(conds)
      ensures Wired() && State() == old(State()).(conds := old(State()).conds[cond := old(cond.items) + [c]])
      ensures Space(conds) <= old(Space(conds)) + {c} && Space(Lists()) == old(Space(Lists()))
    {
      hide Inv, Wired, Valid, State, Objects, Held, Timeouts, AllWellFormed, Space, Footprint, Listed, CondItems;
      hide AllWithout, Without, AddTimer, Begun, Drained, Taken, Emptied, Slot, Ahead;
      ghost var s := State();
      Elsewhere();
      WiredParts();
      Parts();
      FootprintInSpace(conds, cond);
      CondItemsAdded(s.conds, cond, c);
      TailAdd(cond, c, conds);
      SameListed(s, s.conds[cond := s.conds[cond] + [c]]);
      StateIs(s.(conds := s.conds[cond := s.conds[cond] + [c]]));
      WiredIs();
    }

    method PopActive()
      requires Wired() && active_list.items != []
      modifies Space(Lists())
      ensures Wired() && State() == old(State()).(active := old(active_list.items)[1..])
      ensures old(active_list.items)[0].link == null
      ensures Space(Lists()) <= old(Space(Lists())) && Space(conds) == old(Space(conds))
    {
      hide Inv, Wired, Valid, State, Objects, Held, Timeouts, AllWellFormed, Space, Footprint, Listed, CondItems, ItemsOf, Lists;
      hide AllWithout, Without, AddTimer, Begun, Drained, Taken, Emptied, Slot, Ahead;
      ghost var s := State();
      Elsewhere();
      WiredParts();
      Parts();
      InLists();
      FootprintInSpace(Lists(), active_list);
      HeadPop(active_list, Lists());
      PopLists(s);
      ghost var t := s.(active := s.active[1..]);
      StateIs(t);
      WiredIs();
    }

    // Notes where a coroutine waits, and what it holds.
    method SetFrame(k: Entry, f: Frame)
      requires Wired() && (!k.data.is_timeout || k in frames) && (k in Listed(State()) || k.link == null)
      requires f.InTimewait? ==> f.item in CondItems(State().conds) || f.item.link == null
      requires forall j :: j in frames && j != k ==> j.data != k.data
      modifies this
      ensures Wired() && State() == old(State()).(frames := old(frames)[k := f])
      ensures Held() <= old(Held()) + FrameObjects(k, f)
      ensures Space(conds) == old(Space(conds)) && Space(Lists()) == old(Space(Lists()))
    {
      hide Inv, Wired, Valid, State, Objects, Held, Timeouts, AllWellFormed, Space, Footprint, Listed, CondItems;
      hide AllWithout, Without, AddTimer, Begun, Drained, Taken, Emptied, Slot, Ahead;
      ghost var s := State();
      Elsewhere();
      WiredParts();
      Parts();
      HeldHas();
      ghost var held := Held();
      frames := frames[k := f];
      HeldAdded(k, f, old(frames), held);
      SameListedFrames(s, frames, s.flagged, s.resumed);
      StateIs(s.(frames := frames));
      WiredIs();
    }

    static ghost function FrameObjects(k: Entry, f: Frame): (r: set<object>)
      ensures k in r && k.data in r && (f.InTimewait? ==> f.item in r)
      ensures forall o :: o in r ==> o == k || o == k.data || (f.InTimewait? && o == f.item)
    {
      var r: set<object> := {k};
      r + {k.data} + if f.InTimewait? then {f.item} else {}
    }

    lemma HeldAdded(k: Entry, f: Frame, before: map<Entry, Frame>, held: set<object>)
      requires frames == before[k := f]
      requires forall j :: j in before ==> j in held && j.data in held && (before[j].InTimewait? ==> before[j].item in held)
      requires this in held
      ensures Held() <= held + FrameObjects(k, f)
    {
    }

    lemma HeldHas()
      ensures this in Held()
      ensures forall j :: j in frames ==> j in Held() && j.data in Held() && (frames[j].InTimewait? ==> frames[j].item in Held())
    {
    }

    method NewItems(expire_time: nat) returns (item: CondItem)
      requires Wired()
      ensures Wired() && State() == old(State())
      ensures fresh(item) && fresh(item.data) && fresh(item.data.data) && item.link == null && item.data.link == null
      ensures item.data.data.expire_time == expire_time && !item.data.data.is_timeout
      ensures forall j :: j in frames ==> j != item.data && j.data != item.data.data
      ensures item !in CondFrames() && item.data !in resumed
      ensures Space(Lists()) == old(Space(Lists())) && Space(conds) == old(Space(conds))
    {
      hide Inv, Wired, Valid, State, Objects, Held, Timeouts, AllWellFormed, Space, Footprint, Listed, CondItems;
      hide AllWithout, Without, AddTimer, Begun, Drained, Taken, Emptied, Slot, Ahead;
      ghost var s := State();
      Elsewhere();
      WiredParts();
      Parts();
      var t := new Timeout(expire_time);
      var k := new Item(t);
      item := new Item(k);
      StateIs(s);
      WiredIs();
    }

    method WaitOn(cond: Cond, item: CondItem)
      requires Wired() && cond in conds && item.link == null && (!item.data.data.is_timeout || item.data in frames)
      requires item.data in Listed(State()) || item.data.link == null
      requires forall j :: j in frames && j != item.data ==> j.data != item.data.data
      modifies this, item, Space(conds)
      ensures var s := old(State());
        && Wired()
        && State() == s.(conds := s.conds[cond := s.conds[cond] + [item]], frames := s.frames[item.data := InTimewait(item)])
      ensures Space(conds) <= old(Space(conds)) + {item} && Space(Lists()) == old(Space(Lists()))
      ensures Held() <= old(Held()) + FrameObjects(item.data, InTimewait(item))
    {
      hide Inv, Wired, Valid, State, Objects, Held, Timeouts, AllWellFormed, Space, Footprint, Listed, CondItems;
      hide AllWithout, Without, AddTimer, Begun, Drained, Taken, Emptied, Slot, Ahead;
      ghost var t := State();
      Parts();
      Elsewhere();
      CondItemsAdded(t.conds, cond, item);
      AddToCond(cond, item);
      SameListed(t, t.conds[cond := t.conds[cond] + [item]]);
      Parts();
      Elsewhere();
      SetFrame(item.data, InTimewait(item));
    }

    // Puts the item of a wait with a timeout on the wheel.
    method StartTimer(k: Entry, timed: bool, tick: nat) returns (r: int)
      requires Wired() && k.link == null && 0 < timer.start && (timed ==> tick < k.data.expire_time)
      modifies timer, k, Space(Lists())
      ensures Wired() && Space(Lists()) <= old(Space(Lists())) + {k} && Space(conds) == old(Space(conds))
      ensures r == if timed && tick < timer.start then CLOCK_BEHIND else ADDED
      ensures |old(State()).slots| > 0 && old(State()).start == timer.start
      ensures r == ADDED && timed ==> timer.start <= tick && State() == AddTimer(old(State()), k)
      ensures r != ADDED || !timed ==> State() == old(State())
      ensures k in Listed(State()) || k.link == null
    {
      hide Inv, Wired, State, AllWellFormed, Space, Listed, AddTimer, Lists;
      ghost var s := State();
      WiredParts();
      Parts();
      r := ADDED;
      if timed {
        r := AddToWheel(k, tick);
        if r == ADDED {
          AddTimerLists(s, k);
        }
      }
    }

    // A coroutine starts to wait on a condition, for some time if timeout is positive.
    method CoCondTimewait(cond: Cond, timeout: int, tick: nat) returns (r: int, k: Entry)
      requires Valid() && cond in conds
      modifies Objects()
      ensures Valid() && conds == old(conds) && timer.start == old(timer.start)
      ensures r == if timeout > 0 && tick < timer.start then CLOCK_BEHIND else ADDED
      ensures r != ADDED ==> State() == old(State())
      ensures fresh(k) && k.data.expire_time == if timeout > 0 then tick + timeout else 0
      ensures r == ADDED ==>
                && k in frames && frames[k].InTimewait? && frames[k].item.data == k
                && State() == StartTimewait(old(State()), cond, frames[k].item)
      ensures fresh(Objects() - old(Objects()))
    {
      hide Inv, Wired, Valid, State, Objects, Held, Timeouts, AllWellFormed, Space, Footprint, Listed, CondItems, ItemsOf, Lists;
      hide AllWithout, Without, AddTimer, Begun, Drained, Taken, Emptied, Slot, Ahead, StartTimewait, Shape, CondFrames, FrameObjects;
      ghost var s := State();
      ValidParts();
      Parts();
      Elsewhere();
      StartPositive();
      var item := NewItems(if timeout > 0 then tick + timeout else 0);
      k := item.data;
      r := ADDED;
      r := StartTimer(k, timeout > 0, tick);
      Parts();
      if r != ADDED {
        ObjectsGrow(old(Objects()), k, item, k.data);
        ValidIs();
        return;
      }
      WaitOn(cond, item);
      Parts();
      WaitStarted(s, cond, item);
      ObjectsGrow(old(Objects()), k, item, k.data);
    }

    lemma WaitStarted(s: Loop, cond: Cond, c: CondItem)
      requires Inv(s) && |s.slots| > 0 && cond in s.conds && c.data !in s.frames && c.data !in s.resumed
      requires c.data.data.expire_time > 0 ==> s.start < c.data.data.expire_time
      requires var t := if c.data.data.expire_time > 0 then AddTimer(s, c.data) else s;
        Wired() && State() == t.(conds := t.conds[cond := t.conds[cond] + [c]], frames := t.frames[c.data := InTimewait(c)])
      ensures Valid() && State() == StartTimewait(s, cond, c)
    {
      hide Inv, Wired, State, AddTimer;
      TimewaitKeeps(s, cond, c);
    }

    lemma StartPositive()
      requires Inv(State())
      ensures 0 < timer.start
    {
      hide NoneTwice, NoneLate, CondsHold, NoneLost;
    }

    method NewCondition() returns (cond: Cond)
      requires Valid()
      modifies this
      ensures Valid() && fresh(cond) && conds == old(conds) + {cond}
      ensures State() == old(State()).(conds := old(State()).conds[cond := []])
      ensures Objects() <= old(Objects()) + {cond}
    {
      hide Inv, Wired, Valid, State, Objects, Held, Timeouts, Space, Lists;
      ghost var s := State();
      ValidParts();
      Parts();
      HeldHas();
      cond := AddCondition();
      HeldSame(old(Held()));
      ConditionKeeps(s, cond);
      ObjectsGrow(old(Objects()), cond, cond, cond);
      ValidIs();
    }

    method AddCondition() returns (cond: Cond)
      requires Wired()
      modifies this
      ensures Wired() && fresh(cond) && cond !in old(conds) && conds == old(conds) + {cond}
      ensures State() == old(State()).(conds := old(State()).conds[cond := []])
      ensures frames == old(frames) && Space(Lists()) == old(Space(Lists())) && Space(conds) <= old(Space(conds)) + {cond}
    {
      hide Inv, Wired, Valid, State, Objects, Held, Timeouts, AllWellFormed, Space, Footprint, Listed, CondItems;
      hide AllWithout, Without, AddTimer, Begun, Drained, Taken, Emptied, Slot, Ahead, Shape, Lists, ItemsOf;
      ghost var s := State();
      WiredParts();
      Parts();
      Elsewhere();
      cond := new Link();
      ghost var before := conds;
      conds := conds + {cond};
      OneMoreList(before, cond);
      SameListed(s, s.conds[cond := []]);
      SameCondItems(s.conds, cond);
      StateIs(s.(conds := s.conds[cond := []]));
      WiredIs();
    }

    lemma HeldSame(held: set<object>)
      requires this in held
      requires forall j :: j in frames ==> j in held && j.data in held && (frames[j].InTimewait? ==> frames[j].item in held)
      ensures Held() <= held
    {
    }

    lemma OneMoreList(before: set<Cond>, cond: Cond)
      requires AllWellFormed(before) && cond.WellFormed() && cond.items == []
      ensures AllWellFormed(before + {cond}) && Space(before + {cond}) <= Space(before) + {cond}
    {
    }

    // A coroutine starts to poll. For a negative timeout the source waits for INT_MAX ticks; for
    // timeout 0 it does not wait, but returns what the system's poll does, which is polled here.
    method CoPoll(timeout: int, tick: nat, polled: int) returns (r: int, k: Item?<Timeout>)
      requires Valid()
      modifies Objects()
      ensures Valid() && conds == old(conds) && timer.start == old(timer.start)
      ensures r == if timeout == 0 then polled else if tick < timer.start then POLL_FAILED else ADDED
      ensures k != null <==> timeout != 0 && timer.start <= tick
      ensures k == null ==> State() == old(State())
      ensures k != null ==>
                && fresh(k) && k.data.expire_time == tick + (if timeout < 0 then INT_MAX else timeout)
                && State() == StartPoll(old(State()), k)
      ensures fresh(Objects() - old(Objects()))
    {
      if timeout == 0 {
        return polled, null;
      }
      r, k := WaitForEvents(if timeout < 0 then INT_MAX else timeout, tick);
      if r != ADDED {
        return POLL_FAILED, null;
      }
    }

    method WaitForEvents(timeout: nat, tick: nat) returns (r: int, k: Entry)
      requires Valid() && timeout > 0
      modifies Objects()
      ensures Valid() && conds == old(conds) && timer.start == old(timer.start)
      ensures r == if tick < timer.start then CLOCK_BEHIND else ADDED
      ensures r != ADDED ==> State() == old(State())
      ensures fresh(k) && k.data.expire_time == tick + timeout
      ensures r == ADDED ==> State() == StartPoll(old(State()), k)
      ensures fresh(Objects() - old(Objects()))
    {
      hide Inv, Wired, Valid, State, Objects, Held, Timeouts, AllWellFormed, Space, Footprint, Listed, CondItems;
      hide AllWithout, Without, AddTimer, Begun, Drained, Taken, Emptied, Slot, Ahead;
      ghost var s := State();
      ValidParts();
      Parts();
      Elsewhere();
      StartPositive();
      var item := NewItems(tick + timeout);
      k := item.data;
      r := AddToWheel(k, tick);
      Parts();
      if r != ADDED {
        ObjectsGrow(old(Objects()), k, item, k.data);
        ValidIs();
        return;
      }
      AddTimerLists(s, k);
      Elsewhere();
      SetFrame(k, InPoll(false, 0));
      Parts();
      NewPoll(s, k);
      ObjectsGrow(old(Objects()), k, item, k.data);
      ValidIs();
    }

    // An event has come for a poll; the first one wakes it.
    method OnPollPrepare(k: Entry)
      requires Valid() && k in frames && frames[k].InPoll?
      modifies Objects()
      ensures Valid() && State() == EventCame(old(State()), k)
      ensures conds == old(conds) && Objects() <= old(Objects())
    {
      hide Inv, Wired, Valid, State, Objects, Held, Timeouts, AllWellFormed, Space, Footprint, Listed, CondItems;
      hide AllWithout, Without, AddTimer, Begun, Drained, Taken, Emptied, Slot, Ahead, Shape, ItemsOf, Lists, Wake;
      ghost var s := State();
      ValidParts();
      Parts();
      WiredParts();
      Elsewhere();
      EventIs(s, k);
      HeldHas();
      var f := frames[k];
      SetFrame(k, InPoll(true, f.raised + 1));
      Parts();
      if !f.detached {
        Elsewhere();
        Activate(k);
        Parts();
        WakeLists(s.(frames := s.frames[k := InPoll(true, f.raised + 1)]), k);
      }
      ObjectsShrink(old(Objects()));
      ValidIs();
    }

    // memset: the list is empty already.
    method ClearTimeoutList()
      requires timeout_list.items == [] && AllWellFormed(Lists())
      modifies timeout_list`head, timeout_list`tail
      ensures AllWellFormed(Lists()) && Space(Lists()) == old(Space(Lists()))
      ensures timer.Contents() == old(timer.Contents()) && active_list.items == old(active_list.items)
    {
      assert timeout_list.WellFormed() by { InLists(); OneWellFormed(Lists(), timeout_list); }
      timeout_list.head, timeout_list.tail := null, null;
      forall l | l in Lists() ensures l.WellFormed() {
      }
    }

    // Moves what is due from the wheel to the list of timeouts.
    method Collect(tick: nat)
      requires Shape() && timeout_list.items == [] && AllWellFormed(Lists())
      requires tick < timer.start + MAX_STEP && 0 < timer.start
      modifies timer, Space(Lists())
      ensures AllWellFormed(Lists()) && Space(Lists()) <= old(Space(Lists())) && active_list.items == old(active_list.items)
      ensures var cnt := Passed(old(timer.start), tick, |timer.link|);
        && timeout_list.items == Taken(old(timer.Contents()), old(timer.start_idx), cnt)
        && timer.Contents() == Emptied(old(timer.Contents()), old(timer.start_idx), cnt)
        && timer.start == (if tick < old(timer.start) then old(timer.start) else tick)
        && timer.start_idx == (if tick < old(timer.start) then old(timer.start_idx) else old(timer.start_idx) + cnt - 1)
    {
      hide AllWellFormed, Space, Taken, Emptied, ItemsOf, Lists;
      InLists();
      Elsewhere();
      ClearTimeoutList();
      NothingTaken(timer.Contents(), timer.start_idx);
      timer.TimeoutLinkAllTake(tick, timeout_list, Lists());
      assert [] + Taken(old(timer.Contents()), old(timer.start_idx), Passed(old(timer.start), tick, |timer.link|)) == timeout_list.items;
    }

    // Moves what is due from the wheel to the active list, marked as timed out.
    method TakeDue(tick: nat)
      requires Shape() && timeout_list.items == [] && AllWellFormed(Lists())
      requires tick < timer.start + MAX_STEP && 0 < timer.start
      requires forall k: Entry :: k in Space(Lists()) ==> k.data in Timeouts()
      modifies timer, Space(Lists()), Timeouts()
      ensures AllWellFormed(Lists()) && Space(Lists()) <= old(Space(Lists())) && timeout_list.items == []
      ensures var cnt := Passed(old(timer.start), tick, |timer.link|);
        var taken := Taken(old(timer.Contents()), old(timer.start_idx), cnt);
        && timer.Contents() == Emptied(old(timer.Contents()), old(timer.start_idx), cnt)
        && timer.start == (if tick < old(timer.start) then old(timer.start) else tick)
        && timer.start_idx == (if tick < old(timer.start) then old(timer.start_idx) else old(timer.start_idx) + cnt - 1)
        && active_list.items == old(active_list.items) + taken
        && (forall k :: k in taken ==> k.data.is_timeout)
        && forall t :: t in old(Timeouts()) && (forall k :: k in taken ==> k.data != t) ==> t.is_timeout == old(t.is_timeout)
    {
      hide Inv, Wired, Valid, State, Objects, Held, Timeouts, AllWellFormed, Space, Footprint, Listed, CondItems, ItemsOf, Lists;
      hide AllWithout, Without, AddTimer, Begun, Drained, Taken, Emptied, Slot, Ahead, Passed, CondFrames;
      Elsewhere();
      InLists();
      Collect(tick);
      ghost var taken := timeout_list.items;
      InSpace(timeout_list);
      Elsewhere();
      OneWellFormed(Lists(), timeout_list);
      MarkTimeouts(timeout_list);
      ghost var slots := timer.Contents();
      FootprintInSpace(Lists(), active_list);
      FootprintInSpace(Lists(), timeout_list);
      LinkAppend(active_list, timeout_list, Lists());
    }

    lemma InSpace(l: Link<Timeout>)
      requires l in Lists()
      ensures forall k :: k in l.items ==> k in Space(Lists())
    {
    }

    method MarkTimeouts(list: Link<Timeout>)
      requires list.WellFormed()
      modifies set k | k in list.items :: k.data
      ensures forall k :: k in list.items ==> k.data.is_timeout
    {
      var head := list.head;
      ghost var i := 0;
      while head != null
        invariant 0 <= i <= |list.items|
        invariant head == if i < |list.items| then list.items[i] else null
        invariant forall j :: 0 <= j < i ==> list.items[j].data.is_timeout
        decreases |list.items| - i
      {
        head.data.is_timeout := true;
        head := head.next;
        i := i + 1;
      }
    }

    // The first part of an iteration, up to the loop that drains the active list. The clock may
    // go back only when no item is marked, as is so once the list has been drained.
    method BeginIteration(tick: nat)
      requires Valid() && tick < timer.start + MAX_STEP
      requires tick < timer.start ==> forall k :: k in frames ==> !k.data.is_timeout
      modifies Objects()
      ensures Valid() && State() == Begun(old(State()), tick)
      ensures conds == old(conds) && Objects() <= old(Objects())
    {
      hide Inv, Wired, Valid, State, Objects, Held, Timeouts, Space, Listed, Lists, Begun, Taken, Emptied, Passed;
      ghost var s := State();
      ValidParts();
      Parts();
      assert tick < s.start ==> s.flagged == {};
      BegunIs(s, tick);
      MoveDue(tick);
      ObjectsShrink(old(Objects()));
      ValidIs();
    }

    method MoveDue(tick: nat)
      requires Wired() && Inv(State()) && tick < timer.start + MAX_STEP
      requires tick < timer.start ==> State().flagged == {}
      modifies this`now, timer, Space(Lists()), Timeouts()
      ensures |old(State()).slots| > 0
      ensures Wired() && State() == Begun(old(State()), tick) && conds == old(conds)
      ensures Held() <= old(Held()) && Space(Lists()) <= old(Space(Lists())) && Space(conds) == old(Space(conds))
    {
      hide Inv, Wired, Valid, State, Objects, Held, Timeouts, AllWellFormed, Space, Footprint, Listed, CondItems, ItemsOf, Lists;
      hide AllWithout, Without, AddTimer, Begun, Drained, Taken, Emptied, Slot, Ahead, Passed;
      ghost var s := State();
      WiredParts();
      Parts();
      Elsewhere();
      StartPositive();
      BegunIs(s, tick);
      ListedTimeouts();
      HeldHas();
      ghost var taken := Taken(s.slots, s.start_idx, Passed(s.start, tick, |s.slots|));
      TakeDue(tick);
      now := tick;
      Elsewhere();
      HeldSame(old(Held()));
      forall k | k in frames ensures k in s.flagged + ItemSet(taken) <==> k.data.is_timeout {
        if k !in taken {
          forall x | x in taken ensures x.data != k.data {
            assert x in ItemSet(taken);
          }
        }
      }
      StateIs(Begun(s, tick));
      WiredIs();
    }

    lemma ListedTimeouts()
      requires Wired() && Inv(State())
      ensures forall k: Entry :: k in Space(Lists()) ==> k.data in Timeouts()
      ensures forall k :: k in frames ==> k.data in Timeouts()
    {
      hide NoneTwice, Listed, CondsHold, NoneLost, ActiveForCause, WheelAhead, AllWellFormed, Space;
      WiredParts();
    }

    // Resets the mark of an item that is waited for.
    method Unmark(k: Entry)
      requires Wired() && k in frames
      modifies k.data
      ensures Wired() && State() == old(State()).(flagged := old(State()).flagged - {k})
      ensures Space(Lists()) == old(Space(Lists())) && Space(conds) == old(Space(conds))
    {
      hide Inv, Wired, Valid, State, Objects, Held, Timeouts, AllWellFormed, Space, Footprint, Listed, CondItems;
      hide AllWithout, Without, AddTimer, Begun, Drained, Taken, Emptied, Slot, Ahead;
      ghost var s := State();
      Elsewhere();
      WiredParts();
      Parts();
      k.data.is_timeout := false;
      SameListedFrames(s, s.frames, s.flagged - {k}, s.resumed);
      StateIs(s.(flagged := s.flagged - {k}));
      WiredIs();
    }

    // Takes an item off the condition it is on, if any.
    method LeaveCond(c: CondItem)
      requires Wired() && c in CondFrames()
      modifies c, Space(conds)
      ensures Wired() && c.link == null
      ensures State() == old(State()).(conds := CondsWithout(old(State()).conds, c))
      ensures Space(conds) <= old(Space(conds)) && Space(Lists()) == old(Space(Lists()))
    {
      hide Inv, Wired, Valid, State, Objects, Held, Timeouts, AllWellFormed, Space, Footprint, Listed, CondItems;
      hide AllWithout, Without, AddTimer, Begun, Drained, Taken, Emptied, Slot, Ahead;
      ghost var s := State();
      Elsewhere();
      WiredParts();
      Parts();
      NamedCond(c);
      CondItemsWithout(s.conds, c);
      RemoveFromLink(c, conds);
      SameListed(s, CondsWithout(s.conds, c));
      StateIs(s.(conds := CondsWithout(s.conds, c)));
      WiredIs();
    }

    lemma NamedCond(c: CondItem)
      requires Wired() && c in CondFrames()
      ensures Footprint(c.link) <= Space(conds) && (c.link != null ==> c.link in conds && c in c.link.items)
      ensures forall l :: l in conds && l != c.link ==> Without(l.items, c) == l.items
    {
      hide Inv, Listed;
      if c in CondItems(State().conds) {
        var l :| l in conds && c in State().conds[l];
        OneWellFormed(conds, l);
        FootprintInSpace(conds, l);
      }
      forall l | l in conds && l != c.link ensures Without(l.items, c) == l.items {
        OneWellFormed(conds, l);
        WithoutNone(l.items, c);
      }
    }

    // The coroutine runs on after its CoYield, and frees what it held.
    method Finish(k: Entry)
      requires Wired() && k in frames && k.link == null
      modifies this, Held(), Space(conds)
      ensures Wired() && k.link == null && conds == old(conds)
      ensures var s := old(State());
        State() == s.(frames := s.frames - {k}, flagged := s.flagged - {k}, resumed := s.resumed + [k],
                      conds := if s.frames[k].InTimewait? then CondsWithout(s.conds, s.frames[k].item) else s.conds)
      ensures Held() <= old(Held()) && Space(conds) <= old(Space(conds)) && Space(Lists()) == old(Space(Lists()))
    {
      hide Inv, Wired, Valid, State, Objects, Held, Timeouts, AllWellFormed, Space, Footprint, Listed, CondItems, ItemsOf, Lists;
      hide AllWithout, Without, AddTimer, Begun, Drained, Taken, Emptied, Slot, Ahead, Shape, CondsWithout;
      ghost var s := State();
      Parts();
      Elsewhere();
      HeldHas();
      if frames[k].InTimewait? {
        LeaveCond(frames[k].item);
        Parts();
      }
      Elsewhere();
      DropFrame(k);
    }

    method DropFrame(k: Entry)
      requires Wired() && k in frames && k.link == null
      modifies this
      ensures Wired() && conds == old(conds) && Held() <= old(Held())
      ensures var s := old(State());
        State() == s.(frames := s.frames - {k}, flagged := s.flagged - {k}, resumed := s.resumed + [k])
      ensures Space(Lists()) == old(Space(Lists())) && Space(conds) == old(Space(conds))
    {
      hide Inv, Wired, Valid, State, Objects, Held, Timeouts, AllWellFormed, Space, Footprint, Listed, CondItems, ItemsOf, Lists;
      hide AllWithout, Without, AddTimer, Begun, Drained, Taken, Emptied, Slot, Ahead, Shape;
      Parts();
      HeldHas();
      Elsewhere();
      WiredParts();
      ghost var t := State();
      frames := frames - {k};
      resumed := resumed + [k];
      SameListedFrames(t, frames, t.flagged - {k}, resumed);
      HeldSame(old(Held()));
      StateIs(t.(frames := frames, flagged := t.flagged - {k}, resumed := resumed));
      WiredIs();
    }

    // One turn of the loop that drains the active list.
    method DrainOne() returns (k: Entry, processed: bool)
      requires Valid() && active_list.items != []
      modifies Objects()
      ensures Valid() && State() == Drained(old(State()))
      ensures k == old(active_list.items)[0] && (processed <==> !GoesBack(old(State()), k))
      ensures processed ==> k.link == null && k !in frames
      ensures conds == old(conds) && Objects() <= old(Objects())
    {
      hide Inv, Wired, Valid, State, Objects, Held, Timeouts, AllWellFormed, Space, Footprint, Listed, CondItems;
      hide AllWithout, Without, AddTimer, Begun, Drained, Taken, Emptied, Slot, Ahead;
      ghost var s := State();
      ValidParts();
      Parts();
      StartPositive();
      DrainedIs(s);
      HeldHas();
      HeadOfActive();
      Elsewhere();
      k := active_list.head;
      PopActive();
      Parts();
      Elsewhere();
      HeldHas();
      processed := true;
      if k.data.is_timeout && now < k.data.expire_time {
        var ret := AddToWheel(k, now);
        Parts();
        Elsewhere();
        AddTimerLists(s.(active := s.active[1..]), k);
        AddTimerLists(s.(active := s.active[1..], flagged := s.flagged - {k}), k);
        Unmark(k);
        processed := false;
      } else {
        Finish(k);
      }
      Parts();
      HeldSame(old(Held()));
      ObjectsShrink(old(Objects()));
      ValidIs();
    }

    lemma HeadOfActive()
      requires Wired() && active_list.items != []
      ensures active_list.head == active_list.items[0]
    {
      assert active_list.WellFormed() by { InLists(); OneWellFormed(Lists(), active_list); }
    }
  }
}
