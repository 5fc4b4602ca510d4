// misc/urcu/urcu.c: read-side sections as the readers' calls make them, and how long they are waited for.
//
// What is inside a section is told here from the list of steps alone: a section begins with an
// outermost rcu_read_lock and ends with the rcu_read_unlock that matches it.
module UrcuSections {
  import opened UrcuWords
  import opened Urcu
  import opened Collections

  // How many locks of r are still to be unlocked after some steps.
  ghost function Depth(steps: seq<Step>, r: nat): nat {
    if steps == [] then 0
    else
      var n := |steps| - 1;
      Deepened(steps[n], r, Depth(steps[..n], r))
  }

  function Deepened(step: Step, r: nat, d: nat): nat {
    match step
    case LockStore(q) => if q == r then 1 else d
    case LockNested(q) => if q == r then d + 1 else d
    case Unlock(q) => if q == r && d > 0 then d - 1 else d
    case _ => d
  }

  // Whether r is registered after some steps.
  ghost predicate Registered(steps: seq<Step>, r: nat) {
    steps != [] &&
    var n := |steps| - 1;
    steps[n] == Register(r) || (steps[n] != Unregister(r) && Registered(steps[..n], r))
  }

  // w is the number d, and was reached from zero without an overflow.
  ghost predicate Counts(w: Word, d: nat) {
    if d == 0 then w == 0 else w != 0 && Counts(w - 1, d - 1)
  }

  // The count of levels in a reader's counter.
  function Levels(v: Word): Word {
    v & NEST_MASK
  }

  lemma NestedCount(v: Word, d: nat)
    requires !Deepest(v) && Counts(Levels(v), d)
    ensures Counts(Levels(Deeper(v)), d + 1)
  {
    NextLevel(v);
    hide Levels, Deeper;
    assert Counts(Levels(Deeper(v)) - 1, d);
  }

  lemma NextLevel(v: Word)
    requires !Deepest(v)
    ensures Levels(Deeper(v)) != 0 && Levels(Deeper(v)) - 1 == Levels(v)
  {
  }

  lemma UnlockedCount(v: Word, d: nat)
    requires Nested(v) && Counts(Levels(v), d)
    ensures d > 0 && Counts(Levels(Shallower(v)), d - 1)
  {
    LastLevel(v);
    hide Levels, Shallower, Nested;
  }

  lemma LastLevel(v: Word)
    requires Nested(v)
    ensures Levels(v) != 0 && Levels(Shallower(v)) == Levels(v) - 1
  {
  }

  lemma FirstCount(v: Word)
    requires IsGpCtr(v)
    ensures Counts(Levels(v), 1)
  {
    assert Levels(v) == 1;
    hide Levels;
    assert Counts(0, 0);
  }

  lemma CountIsZero(v: Word, d: nat)
    requires Counts(Levels(v), d)
    ensures Nested(v) <==> d > 0
  {
  }

  // r's counter and its registration are what its calls have made them.
  ghost predicate Tracks(x: Reader, d: nat, registered: bool) {
    Counts(Levels(x.ctr), d) && (x.registered <==> registered)
  }

  lemma StepTracks(test: ExitTest, s: State, step: Step, r: nat, d: nat, registered: bool)
    requires Counters(s) && Enabled(s, step) && r in s.readers && Tracks(s.readers[r], d, registered)
    ensures var s' := Apply(test, s, step);
      r in s'.readers && Tracks(s'.readers[r], Deepened(step, r, d), step == Register(r) || (step != Unregister(r) && registered))
  {
    hide Tracks, ReaderStep, UpdaterStep;
    if !ByReader(step) {
      hide Enabled, Counters;
    } else if step.r != r {
      OtherReaderStays(s, step, r);
      hide Enabled, Counters;
    } else {
      OwnStepTracks(s, step, d, registered);
    }
  }

  lemma OwnStepTracks(s: State, step: Step, d: nat, registered: bool)
    requires Counters(s) && Enabled(s, step) && ByReader(step) && Tracks(s.readers[step.r], d, registered)
    ensures var s' := ReaderStep(s, step);
      && step.r in s'.readers
      && Tracks(s'.readers[step.r], Deepened(step, step.r, d), step.Register? || (!step.Unregister? && registered))
  {
    hide IsGpCtr, NotOf, RegistryLocked, Waited, Deepest, Nested, Deeper, Shallower, Levels, Counts;
    var x := s.readers[step.r];
    match step
    case Register(r) =>
    case Unregister(r) =>
    case LockLoad(r) =>
    case LockStore(r) => FirstCount(x.loaded.value);
    case LockNested(r) => NestedCount(x.ctr, d);
    case Unlock(r) => UnlockedCount(x.ctr, d);
  }

  lemma FirstTracks(s: State, r: nat)
    requires Init(s) && r in s.readers
    ensures Counters(s) && Tracks(s.readers[r], 0, false)
  {
  }

  lemma StepKeepsCounters(test: ExitTest, s: State, step: Step)
    requires Counters(s) && Enabled(s, step)
    ensures Counters(Apply(test, s, step))
  {
    hide Counters, Enabled, Apply;
    if ByReader(step) {
      ReaderKeepsCounters(test, s, step);
    } else {
      UpdaterKeepsCounters(test, s, step);
    }
  }

  // A reader's counter says how many of its locks are open, in every state of every run.
  lemma {:induction false} CounterIsDepth(test: ExitTest, states: seq<State>, steps: seq<Step>, k: nat, r: nat)
    requires IsRun(test, states, steps) && k <= |steps| && r in states[k].readers
    ensures Counters(states[k]) && Tracks(states[k].readers[r], Depth(steps[..k], r), Registered(steps[..k], r))
    ensures Reading(states[k].readers[r]) <==> Depth(steps[..k], r) > 0
  {
    hide Counters, Tracks, Enabled, Apply, Init, Nested;
    if k == 0 {
      FirstTracks(states[0], r);
    } else {
      var l := k - 1;
      assert states[l + 1] == Apply(test, states[l], steps[l]);
      SameNames(test, states[l], steps[l], r);
      CounterIsDepth(test, states, steps, l, r);
      StepKeepsCounters(test, states[l], steps[l]);
      StepTracks(test, states[l], steps[l], r, Depth(steps[..l], r), Registered(steps[..l], r));
      assert steps[..k][..l] == steps[..l];
    }
    DepthShows(states[k].readers[r], Depth(steps[..k], r), Registered(steps[..k], r));
  }

  lemma DepthShows(x: Reader, d: nat, registered: bool)
    requires Tracks(x, d, registered)
    ensures Reading(x) <==> d > 0
  {
    CountIsZero(x.ctr, d);
  }

  lemma SameNames(test: ExitTest, s: State, step: Step, r: nat)
    requires Enabled(s, step) && r in Apply(test, s, step).readers
    ensures r in s.readers
  {
  }

  // ---------------------------------------------------------------------------------------
  // What a caller waits for, told from the calls alone

  // r was inside a section after i steps, and the unlock that ends it comes before the j-th step.
  ghost predicate Unlocked(steps: seq<Step>, i: nat, j: nat, r: nat) {
    exists m :: i <= m < j && m < |steps| && steps[m] == Unlock(r) && Depth(steps[..m + 1], r) == 0 && InsideFrom(steps, i, m, r)
  }

  ghost predicate InsideFrom(steps: seq<Step>, i: nat, m: nat, r: nat) {
    forall l :: i <= l <= m && l <= |steps| ==> Depth(steps[..l], r) > 0
  }

  // As long as its depth is not zero a reader is in one section.
  lemma {:induction false} OneSection(test: ExitTest, states: seq<State>, steps: seq<Step>, i: nat, j: nat, r: nat)
    requires IsRun(test, states, steps) && i <= j <= |steps| && r in states[i].readers && InsideFrom(steps, i, j, r)
    ensures r in states[j].readers && Reading(states[j].readers[r])
    ensures states[j].readers[r].section == states[i].readers[r].section
  {
    hide Counters, Tracks, Enabled, Apply, Init, Nested, Depth;
    if i < j {
      var k := j - 1;
      OneSection(test, states, steps, i, k, r);
      assert states[k + 1] == Apply(test, states[k], steps[k]);
      CounterIsDepth(test, states, steps, k, r);
      SectionKept(test, states[k], steps[k], r);
    }
    CounterIsDepth(test, states, steps, j, r);
  }

  lemma SectionKept(test: ExitTest, s: State, step: Step, r: nat)
    requires Counters(s) && Enabled(s, step) && r in s.readers && Reading(s.readers[r])
    ensures var s' := Apply(test, s, step); r in s'.readers && s'.readers[r].section == s.readers[r].section
  {
    hide StateOf, Flipped, Nested, Deepest, Deeper, Shallower, IsGpCtr, NotOf, RegistryLocked, UpdaterStep;
    if ByReader(step) && step.r != r {
      OtherReaderStays(s, step, r);
    }
  }

  // The first time that the depth is zero again.
  lemma {:induction false} Leaves(steps: seq<Step>, i: nat, j: nat, r: nat)
    requires i <= j <= |steps| && Depth(steps[..i], r) > 0 && !InsideFrom(steps, i, j, r)
    ensures Unlocked(steps, i, j, r)
  {
    var k := j - 1;
    if InsideFrom(steps, i, k, r) {
      assert Depth(steps[..j], r) == 0 && Depth(steps[..k], r) > 0;
      assert steps[..j][..k] == steps[..k];
      assert steps[k] == Unlock(r);
    } else {
      Leaves(steps, i, k, r);
    }
  }

  // From sections on record to calls: r is registered and inside a section after i steps, and stays
  // registered. If its section has ended in state j, it has unlocked as often as it had locked.
  lemma EndedIsUnlocked(states: seq<State>, steps: seq<Step>, i: nat, j: nat, r: nat)
    requires IsRun(Intended, states, steps) && i <= j <= |steps| && r in states[i].readers
    requires Depth(steps[..i], r) > 0 && Registered(steps[..i], r) && StaysOn(steps, i, j, r)
    requires AllEnded(states, steps, i, j)
    ensures Unlocked(steps, i, j, r)
  {
    hide Tracks, Depth, Registered, Waited, OpenSections, StaysOn, Init, Apply, Enabled, Nested;
    CounterIsDepth(Intended, states, steps, i, r);
    var sec := (r, states[i].readers[r].section);
    RegisteredOnes(states[i].readers[r], Depth(steps[..i], r), Registered(steps[..i], r));
    OpenIsWaited(states[i], sec);
    if InsideFrom(steps, i, j, r) {
      OneSection(Intended, states, steps, i, j, r);
      OpenAreOpen(states[j], sec);
      assert false;
    } else {
      Leaves(steps, i, j, r);
    }
  }

  lemma RegisteredOnes(x: Reader, d: nat, registered: bool)
    requires Tracks(x, d, registered)
    ensures x.registered == registered
  {
  }

  // When synchronize_rcu returns, every reader that was registered and inside a section at the call,
  // and was not unregistered since, has made the unlock that matches its outermost lock.
  lemma SynchronizeWaitsForUnlocks(states: seq<State>, steps: seq<Step>, i: nat, j: nat, t: nat, r: nat)
    requires IsRun(Intended, states, steps) && i < j < |steps|
    requires steps[i] == Call(t) && steps[j] == Return(t)
    requires forall m :: i < m < j ==> steps[m] != Return(t)
    requires r in states[i].readers && Depth(steps[..i], r) > 0 && Registered(steps[..i], r) && StaysOn(steps, i, j, r)
    ensures Unlocked(steps, i, j, r)
  {
    hide IsRun, AllEnded, Depth, Registered, StaysOn;
    SynchronizeWaits(states, steps, i, j, t);
    RunLengths(Intended, states, steps);
    EndedIsUnlocked(states, steps, i, j, r);
  }

  // The same from the scan of a grace period to its end.
  lemma GracePeriodForUnlocks(states: seq<State>, steps: seq<Step>, i: nat, j: nat, r: nat)
    requires IsRun(Intended, states, steps) && i < j < |steps|
    requires steps[i].StartScan? && steps[j].EndGrace?
    requires forall m :: i < m < j ==> !steps[m].EndGrace?
    requires r in states[i].readers && Depth(steps[..i], r) > 0 && Registered(steps[..i], r) && StaysOn(steps, i, j, r)
    ensures Unlocked(steps, i, j, r)
  {
    hide IsRun, AllEnded, Depth, Registered, StaysOn;
    GracePeriod(states, steps, i, j);
    RunLengths(Intended, states, steps);
    EndedIsUnlocked(states, steps, i, j, r);
  }

  lemma RunLengths(test: ExitTest, states: seq<State>, steps: seq<Step>)
    requires IsRun(test, states, steps)
    ensures |states| == |steps| + 1
  {
  }

  // ---------------------------------------------------------------------------------------
  // What a caller does not wait for

  // r is not seen as old, and will not be by a store still to come.
  ghost predicate NotOld(gp: Word, x: Reader) {
    !StateOf(gp, x.ctr).ActiveOld? && (x.loaded.Some? ==> x.loaded.value == gp)
  }

  lemma OwnPhase(gp: Word)
    ensures !StateOf(gp, gp).ActiveOld? && !StateOf(gp, 0).ActiveOld?
  {
  }

  lemma StepKeepsNotOld(test: ExitTest, s: State, e: Step, r: nat)
    requires r in s.readers && NotOld(s.gp, s.readers[r]) && Enabled(s, e) && !e.FlipGp?
    ensures var s' := Apply(test, s, e); s'.gp == s.gp && r in s'.readers && NotOld(s'.gp, s'.readers[r])
  {
    hide StateOf, Nested, Deepest, Deeper, Shallower, OpenSections, Waited, NotOf, RegistryLocked, VisitReader, FinishScan;
    if ByReader(e) && e.r != r {
      OtherReaderStays(s, e, r);
    } else if ByReader(e) {
      OwnStepNotOld(s, e);
    }
  }

  lemma OwnStepNotOld(s: State, e: Step)
    requires Enabled(s, e) && ByReader(e) && NotOld(s.gp, s.readers[e.r])
    ensures var s' := ReaderStep(s, e); s'.gp == s.gp && e.r in s'.readers && NotOld(s.gp, s'.readers[e.r])
  {
    hide StateOf, Nested, Deepest, Deeper, Shallower, NotOf, RegistryLocked;
    var v := s.readers[e.r].ctr;
    match e
    case Register(r) =>
    case Unregister(r) =>
    case LockLoad(r) =>
    case LockStore(r) => OwnPhase(s.gp);
    case LockNested(r) => NestDeeper(s.gp, v);
    case Unlock(r) =>
      NestShallower(s.gp, v);
      StateIsInactive(s.gp, Shallower(v));
  }

  lemma LoadIsNotOld(test: ExitTest, s: State, r: nat)
    requires Enabled(s, LockLoad(r))
    ensures var s' := Apply(test, s, LockLoad(r)); r in s'.readers && NotOld(s'.gp, s'.readers[r])
  {
    hide StateOf;
    StateIsInactive(s.gp, s.readers[r].ctr);
  }

  // A reader whose outermost lock loads gp.ctr after a flip is not seen as old until the next one,
  // whenever it stores what it has loaded.
  lemma {:induction false} LateReaderIsNotOld(test: ExitTest, states: seq<State>, steps: seq<Step>, i: nat, k: nat, r: nat)
    requires IsRun(test, states, steps) && i < k <= |steps| && steps[i] == LockLoad(r)
    requires forall m :: i < m < k ==> !steps[m].FlipGp?
    ensures r in states[k].readers && NotOld(states[k].gp, states[k].readers[r])
  {
    hide Enabled, Apply, Init, NotOld;
    var l := k - 1;
    assert states[l + 1] == Apply(test, states[l], steps[l]);
    if l == i {
      LoadIsNotOld(test, states[l], r);
    } else {
      LateReaderIsNotOld(test, states, steps, i, l, r);
      StepKeepsNotOld(test, states[l], steps[l], r);
    }
  }

  // The scan finds that nothing of r's is to be waited for.
  ghost predicate SeenQuiet(s: State, r: nat) {
    r in s.readers &&
    var seen := StateOf(s.gp, s.readers[r].ctr);
    seen.Inactive? || (s.grace.Scan2? && !seen.ActiveOld?)
  }

  lemma QuietIsQuiescent(s: State, r: nat)
    requires Enabled(s, Visit(r)) && SeenQuiet(s, r)
    ensures var s' := Apply(Intended, s, Visit(r)); r in s'.qs && InScan(s')
  {
    assert Apply(Intended, s, Visit(r)) == VisitReader(s, r);
    hide StateOf, Apply;
  }

  lemma StaysQuiescent(s: State, e: Step, r: nat)
    requires Enabled(s, e) && r in s.qs && InScan(s) && !e.EndGrace? && e != Unregister(r)
    ensures var s' := Apply(Intended, s, e); r in s'.qs && InScan(s')
  {
    if ByReader(e) {
      ReaderKeepsQuiescent(s, e, r);
    } else {
      hide StateOf, Waited, Flipped, Reading, ReaderStep;
    }
  }

  lemma ReaderKeepsQuiescent(s: State, e: Step, r: nat)
    requires Enabled(s, e) && ByReader(e) && e != Unregister(r)
    ensures var s' := ReaderStep(s, e); s'.grace == s.grace && (r in s'.qs <==> r in s.qs)
  {
    hide ReaderStep, ReaderAfter, Enabled;
    ReaderStepIs(s, e);
    var s' := ReaderStep(s, e);
    if r != e.r {
      assert (r in s'.qs <==> r in s'.qs - {e.r}) && (r in s.qs <==> r in s.qs - {e.r});
    }
  }

  lemma {:induction false} QuiescentFrom(states: seq<State>, steps: seq<Step>, i: nat, k: nat, r: nat)
    requires IsRun(Intended, states, steps) && i < k <= |steps| && steps[i] == Visit(r) && SeenQuiet(states[i], r)
    requires (forall m :: i < m < k ==> !steps[m].EndGrace?) && StaysOn(steps, i, k, r)
    ensures r in states[k].qs && InScan(states[k])
  {
    hide Enabled, Apply, Init, SeenQuiet, InScan;
    var l := k - 1;
    assert states[l + 1] == Apply(Intended, states[l], steps[l]);
    if l == i {
      QuietIsQuiescent(states[l], r);
    } else {
      QuiescentFrom(states, steps, i, l, r);
      StaysQuiescent(states[l], steps[l], r);
    }
  }

  // A reader that a scan has seen inactive, or current after the flip, is not looked at again in that
  // grace period, whatever it does; unless it is unregistered and registered anew.
  lemma VisitedForGood(states: seq<State>, steps: seq<Step>, i: nat, k: nat, r: nat)
    requires IsRun(Intended, states, steps) && i < k < |steps| && steps[i] == Visit(r) && SeenQuiet(states[i], r)
    requires (forall m :: i < m < k ==> !steps[m].EndGrace?) && StaysOn(steps, i, k, r)
    ensures steps[k] != Visit(r)
  {
    hide Apply, Init, SeenQuiet, Counters, AllWatched, Queues, History, Covered, Debts;
    QuiescentFrom(states, steps, i, k, r);
    RunKeepsInv(states, steps, k);
    assert Lists(states[k]) && Enabled(states[k], steps[k]);
  }

  // With nobody registered a grace period ends without a flip.
  lemma NobodyRegistered(s: State)
    requires Inv(s) && Enabled(s, StartScan) && forall r :: r in s.readers ==> !s.readers[r].registered
    ensures var s' := Apply(Intended, s, StartScan); Enabled(s', EndGrace) && s'.gp == s.gp
  {
    hide Counters, AllWatched, Queues, History, Covered, Debts;
    assert s.registry == {} by {
      forall r ensures r !in s.registry {
        assert r in s.registry ==> r in s.registry + s.cur + s.qs;
      }
    }
  }
}
