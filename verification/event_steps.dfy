// misc/coroutine/co_routine.cpp: what each step of the event loop does to the wait it is about, and
// that it does nothing to the other waits.
module EventSteps {
  import opened IntrusiveLists
  import opened TimingWheels
  import opened EventLoops

  // Every wait but k's goes on as before: where it waits, whether it has been woken, and on which
  // lists its item is.
  ghost predicate OthersWait(s: Loop, t: Loop, k: Entry) {
    && t.frames - {k} == s.frames - {k}
    && (forall j :: j in s.frames && j in t.frames && j != k ==> (Woken(t, j) <==> Woken(s, j)))
    && ItemSet(t.active) - {k} == ItemSet(s.active) - {k}
    && WheelItems(t.slots) - {k} == WheelItems(s.slots) - {k}
    && t.flagged - {k} == s.flagged - {k}
  }

  // The clocks, and who has been resumed, are as before.
  ghost predicate SameTime(s: Loop, t: Loop) {
    t.start == s.start && t.start_idx == s.start_idx && t.now == s.now && t.resumed == s.resumed && |t.slots| == |s.slots|
  }

  ghost predicate OnlyCondition(before: Conds, after: Conds, cond: Cond) {
    && after.Keys == before.Keys
    && forall d :: d in before && d != cond && d in after ==> after[d] == before[d]
  }

  // k's item leaves the list it is on and comes last on the active list.
  ghost predicate BecomesActive(s: Loop, t: Loop, k: Entry) {
    && t.active == Without(s.active, k) + [k] && k !in WheelItems(t.slots)
    && |t.slots| == |s.slots| && forall j :: 0 <= j < |s.slots| ==> t.slots[j] == Without(s.slots[j], k)
  }

  lemma WakeIs(s: Loop, k: Entry)
    requires Inv(s)
    ensures BecomesActive(s, Wake(s, k), k)
    ensures ItemSet(Wake(s, k).active) == ItemSet(s.active) + {k}
    ensures WheelItems(Wake(s, k).slots) == WheelItems(s.slots) - {k}
  {
    hide Without, WheelItems, AllWithout, NoneTwice, NoneLate, CondsHold, NoneLost, ActiveForCause, FlaggedTimed, ResumedOnce;
    RemovedNoneTwice(s.slots, s.active, k);
    assert Wake(s, k).slots == AllWithout(s.slots, k);
  }

  // A signal wakes the first coroutine that waits on the condition, and no other; with none, nothing
  // happens. Waking moves its item from where it is to the end of the active list.
  lemma SignalWakesFirst(s: Loop, cond: Cond, t: Loop)
    requires Inv(s) && Next(s, Signal(cond), t)
    ensures s.conds[cond] == [] ==> t == s
    ensures s.conds[cond] != [] ==>
              var k := s.conds[cond][0].data;
              && OnlyCondition(s.conds, t.conds, cond) && t.conds[cond] == s.conds[cond][1..]
              && t.frames == s.frames && t.flagged == s.flagged && SameTime(s, t)
              && k in t.frames && Woken(t, k) && BecomesActive(s, t, k) && OthersWait(s, t, k)
  {
    hide NoneTwice, NoneLate, WheelItems, CondItems, AllWithout, Without, BecomesActive;
    if s.conds[cond] != [] {
      var k := s.conds[cond][0].data;
      CondPopped(s, cond);
      var u := s.(conds := s.conds[cond := s.conds[cond][1..]]);
      assert t == Wake(u, k);
      WakeIs(s, k);
      assert BecomesActive(s, t, k) by { SameLists(s, Wake(s, k), t, k); }
      assert t.slots == Wake(s, k).slots && t.active == Wake(s, k).active;
    }
  }

  lemma SameLists(s: Loop, t: Loop, u: Loop, k: Entry)
    requires BecomesActive(s, t, k) && u.active == t.active && u.slots == t.slots
    ensures BecomesActive(s, u, k)
  {
  }

  // A polled event is counted. The first one wakes the coroutine that polls.
  lemma EventIsCounted(s: Loop, k: Entry, t: Loop)
    requires Inv(s) && Next(s, Event(k), t)
    ensures t.frames == s.frames[k := InPoll(true, s.frames[k].raised + 1)] && Woken(t, k)
    ensures t.conds == s.conds && t.flagged == s.flagged && SameTime(s, t) && OthersWait(s, t, k)
    ensures if s.frames[k].detached then t.active == s.active && t.slots == s.slots else BecomesActive(s, t, k)
  {
    hide NoneTwice, NoneLate, WheelItems, CondItems, AllWithout, Without, BecomesActive;
    var u := s.(frames := s.frames[k := InPoll(true, s.frames[k].raised + 1)]);
    WakeIs(s, k);
    if !s.frames[k].detached {
      assert t.slots == Wake(s, k).slots && t.active == Wake(s, k).active;
      SameLists(s, Wake(s, k), t, k);
    }
  }

  // k's item is put on the wheel: in its own slot, or in the last one if that is too far ahead.
  ghost predicate OnWheel(s: Loop, t: Loop, k: Entry) {
    && |s.slots| > 0 && s.start <= k.data.expire_time && |t.slots| == |s.slots|
    && var ahead := if k.data.expire_time < s.start + |s.slots| then k.data.expire_time - s.start else |s.slots| - 1;
       forall d: nat :: d < |s.slots| ==>
         t.slots[Slot(|s.slots|, s.start_idx, d)] == s.slots[Slot(|s.slots|, s.start_idx, d)] + if d == ahead then [k] else []
  }

  lemma AddTimerIs(s: Loop, k: Entry)
    requires |s.slots| > 0 && s.start <= k.data.expire_time
    ensures OnWheel(s, AddTimer(s, k), k)
    ensures WheelItems(AddTimer(s, k).slots) == WheelItems(s.slots) + {k}
  {
    hide Slot;
    var n, a, t := |s.slots|, Ahead(s.start, k.data.expire_time, |s.slots|), AddTimer(s, k);
    var i := Slot(n, s.start_idx, a);
    forall d: nat | d < n && d != a ensures Slot(n, s.start_idx, d) != i {
      if d < a { SlotsApart(n, s.start_idx, d, a); } else { SlotsApart(n, s.start_idx, a, d); }
    }
    assert k in t.slots[i];
    forall j | j in WheelItems(s.slots) ensures j in WheelItems(t.slots) {
      var m :| 0 <= m < n && j in s.slots[m];
      assert j in t.slots[m];
    }
    forall j | j in WheelItems(t.slots) && j != k ensures j in WheelItems(s.slots) {
      var m :| 0 <= m < n && j in t.slots[m];
      assert j in s.slots[m];
    }
  }

  // A coroutine that starts to wait is last on its condition, not woken, and on the wheel if it
  // waits with a timeout.
  lemma TimewaitIsLast(s: Loop, cond: Cond, c: CondItem, t: Loop)
    requires Inv(s) && Next(s, Timewait(cond, c), t)
    ensures OnlyCondition(s.conds, t.conds, cond) && t.conds[cond] == s.conds[cond] + [c]
    ensures t.frames == s.frames[c.data := InTimewait(c)] && !Woken(t, c.data)
    ensures t.active == s.active && t.flagged == s.flagged && SameTime(s, t) && OthersWait(s, t, c.data)
    ensures if c.data.data.expire_time > 0 then OnWheel(s, t, c.data) else t.slots == s.slots
  {
    hide NoneTwice, NoneLate, WheelItems, CondItems, OnWheel, Slot, Ahead;
    CondAdded(s, cond, c);
    var u := s.(conds := s.conds[cond := s.conds[cond] + [c]], frames := s.frames[c.data := InTimewait(c)]);
    if c.data.data.expire_time > 0 {
      AddTimerIs(s, c.data);
      assert t.slots == AddTimer(s, c.data).slots;
      OnSameWheel(s, AddTimer(s, c.data), t, c.data);
    }
    forall j | j in s.frames ensures Woken(t, j) <==> Woken(u, j) {
    }
  }

  lemma OnSameWheel(s: Loop, t: Loop, u: Loop, k: Entry)
    requires OnWheel(s, t, k) && u.slots == t.slots
    ensures OnWheel(s, u, k)
  {
  }

  lemma PollIsOnWheel(s: Loop, k: Entry, t: Loop)
    requires Inv(s) && Next(s, Poll(k), t)
    ensures t.frames == s.frames[k := InPoll(false, 0)] && !Woken(t, k) && OnWheel(s, t, k)
    ensures t.conds == s.conds && t.active == s.active && t.flagged == s.flagged && SameTime(s, t) && OthersWait(s, t, k)
  {
    hide NoneTwice, NoneLate, WheelItems, CondItems, OnWheel, Slot, Ahead;
    AddTimerIs(s, k);
    OnSameWheel(s, AddTimer(s, k), t, k);
  }

  // The item is in a slot whose tick has come.
  ghost predicate Reached(s: Loop, now: nat, x: Entry) {
    exists d: nat :: d < |s.slots| && s.start + d <= now && x in s.slots[Slot(|s.slots|, s.start_idx, d)]
  }

  // An iteration marks exactly the items whose slots have come, and makes them active after those
  // that are; the others stay in their slots, and every wait goes on.
  lemma BeginTakesReached(s: Loop, now: nat, t: Loop)
    requires Inv(s) && Next(s, Begin(now), t) && s.start <= now
    ensures s.active <= t.active && (forall x :: x in t.active[|s.active|..] <==> Reached(s, now, x))
    ensures t.flagged == s.flagged + ItemSet(t.active[|s.active|..])
    ensures forall d: nat :: d < |s.slots| ==>
              var i := Slot(|s.slots|, s.start_idx, d);
              i < |t.slots| && t.slots[i] == if s.start + d <= now then [] else s.slots[i]
    ensures t.now == t.start == now && t.frames == s.frames && t.conds == s.conds && t.resumed == s.resumed
  {
    hide Inv, Slot, Taken, Emptied;
    var n, cnt := |s.slots|, Count(s.start, now, |s.slots|);
    var taken := Taken(s.slots, s.start_idx, cnt);
    assert t.active == s.active + taken && t.active[|s.active|..] == taken;
    forall x ensures x in taken <==> Reached(s, now, x) {
      InTaken(s.slots, s.start_idx, cnt, x);
      if x in taken {
        var d :| 0 <= d < cnt && x in s.slots[Slot(n, s.start_idx, d)];
        assert s.start + d <= now;
      }
    }
    forall d: nat | d < n ensures t.slots[Slot(n, s.start_idx, d)] == if s.start + d <= now then [] else s.slots[Slot(n, s.start_idx, d)] {
      EmptiedAt(s.slots, s.start_idx, cnt, d);
    }
  }

  // A turn of the loop takes the first active item. If it was taken early it goes back to the wheel
  // unmarked; otherwise its coroutine is resumed, and its condition item leaves its condition. No
  // other wait is touched.
  lemma DrainTakesFirst(s: Loop, t: Loop)
    requires Inv(s) && Next(s, Drain, t)
    ensures var k := s.active[0];
      && t.active == s.active[1..] && k !in t.flagged && OthersWait(s, t, k)
      && t.start == s.start && t.start_idx == s.start_idx && t.now == s.now
      && if k in s.flagged && s.now < k.data.expire_time
         then t.frames == s.frames && t.conds == s.conds && t.resumed == s.resumed && OnWheel(s, t, k)
         else
           && t.frames == s.frames - {k} && t.resumed == s.resumed + [k] && t.slots == s.slots
           && k in s.frames && t.conds.Keys == s.conds.Keys
           && forall d :: d in s.conds && d in t.conds ==>
                t.conds[d] == if s.frames[k].InTimewait? then Without(s.conds[d], s.frames[k].item) else s.conds[d]
  {
    hide NoneTwice, NoneLate, WheelItems, CondItems, OnWheel, Slot, Ahead, Without, CondsHold, NoneLost, ActiveForCause;
    var k := s.active[0];
    var u := s.(active := s.active[1..]);
    FirstIsOnce(s);
    if GoesBack(s, k) {
      var v := u.(flagged := u.flagged - {k});
      AddTimerIs(v, k);
      OnWheelOf(v, t, s, k);
    } else {
      ResumedOthers(s, k);
    }
  }

  lemma FirstIsOnce(s: Loop)
    requires Inv(s) && s.active != []
    ensures s.active[0] !in s.active[1..] && s.active[0] in s.frames
    ensures ItemSet(s.active[1..]) == ItemSet(s.active) - {s.active[0]}
  {
    hide NoneLate, CondsHold, NoneLost, ActiveForCause;
    OnceRest(s.active);
    assert s.active[0] in Listed(s);
  }

  lemma OnWheelOf(s: Loop, t: Loop, u: Loop, k: Entry)
    requires OnWheel(s, t, k) && u.slots == s.slots && u.start == s.start && u.start_idx == s.start_idx
    ensures OnWheel(u, t, k)
  {
  }

  lemma ResumedOthers(s: Loop, k: Entry)
    requires Inv(s) && k in s.frames
    ensures forall j :: j in Resume(s, k).frames ==> (Woken(Resume(s, k), j) <==> Woken(s, j))
  {
    CondRemoved(s, k);
  }

  // How often an event of k has come in some steps.
  ghost function Events(steps: seq<Step>, k: Entry, i: nat, j: nat): nat
    requires j <= |steps|
  {
    if j <= i then 0 else Events(steps, k, i, j - 1) + if steps[j - 1] == Event(k) then 1 else 0
  }

  // While a coroutine polls, exactly the events that have come since are counted, and it is woken
  // iff one has.
  lemma {:induction false} RaisedIsEvents(states: seq<Loop>, steps: seq<Step>, k: Entry, i: nat, j: nat)
    requires Run(states, steps) && i < j <= |steps| && steps[i] == Poll(k) && k in states[j].frames
    ensures var n := Events(steps, k, i, j); states[j].frames[k] == InPoll(n > 0, n)
  {
    hide Inv, Next;
    var l := j - 1;
    assert Next(states[l], steps[l], states[j]);
    RunKeepsInv(states, steps, l);
    if i < l {
      StillWaits(states, steps, k, i, l);
      RaisedIsEvents(states, steps, k, i, l);
      FrameKept(states[l], steps[l], states[j], k);
    } else {
      PollIsOnWheel(states[l], k, states[j]);
    }
  }

  // A wait that goes on in a later state has gone on all the while.
  lemma StillWaits(states: seq<Loop>, steps: seq<Step>, k: Entry, i: nat, l: nat)
    requires Run(states, steps) && i < l < |steps| && steps[i] == Poll(k) && k in states[l + 1].frames
    ensures k in states[l].frames
  {
    var a, b := i + 1, l + 1;
    assert Next(states[i], steps[i], states[a]);
    RunKeepsWaits(states, steps, k, a, l);
    RunKeepsInv(states, steps, b);
    RunKeepsWaits(states, steps, k, l, b);
  }

  lemma FrameKept(s: Loop, e: Step, t: Loop, k: Entry)
    requires Inv(s) && Next(s, e, t) && k in s.frames && k in t.frames && s.frames[k].InPoll?
    ensures t.frames[k] == if e == Event(k) then InPoll(true, s.frames[k].raised + 1) else s.frames[k]
  {
    hide Inv, AllWithout, Without, Taken, Emptied, Slot, Ahead, CondsWithout, CondItems;
  }
}
