// misc/urcu/urcu.c: when a call of synchronize_rcu can end.
//
// The machine is that of urcu.dfy with the exit test as it is meant.
module UrcuProgress {
  import opened UrcuWords
  import opened Urcu

  // A step of the thread that leads the grace period, rather than one by which a thread calls
  // synchronize_rcu or returns from it.
  predicate OfGrace(e: Step) {
    !ByReader(e) && !e.Call? && !e.Return?
  }

  // What is still to come of the grace period. A scan is clean if it will have visited every reader
  // on its input list; one that has left a reader there is followed by another one.
  ghost function Stages(s: State): nat {
    match s.grace
    case Free => 11
    case Locked => 10
    case Moved => 9
    case Scan1(todo) => if todo == s.registry then 6 else 8
    case Pause1 => 7
    case Flip => 5
    case Scan2(todo) => if todo == s.cur then 2 else 4
    case Pause2 => 3
    case Splice => 1
  }

  ghost predicate Closer(s: State, s': State, t: nat) {
    || Rounds(s', t) < Rounds(s, t)
    || (Rounds(s', t) == Rounds(s, t) && Stages(s') < Stages(s))
    || (Rounds(s', t) == Rounds(s, t) && Stages(s') == Stages(s) && ToVisit(s') < ToVisit(s))
  }

  // Readers on the lists are registered, so if no registered reader is in a section none is seen there.
  lemma SeenInactive(s: State, r: nat)
    requires Lists(s) && Waited(s) == {} && r in s.registry + s.cur
    ensures r in s.readers && StateOf(s.gp, s.readers[r].ctr).Inactive?
  {
    assert r in s.registry + s.cur + s.qs;
    RegisteredWaited(s, r);
    StateIsInactive(s.gp, s.readers[r].ctr);
    hide StateOf, Nested, Waited;
  }

  lemma RegisteredWaited(s: State, r: nat)
    requires r in s.readers && s.readers[r].registered
    ensures Reading(s.readers[r]) <==> (r, s.readers[r].section) in Waited(s)
  {
  }

  lemma VisitCloser(s: State, r: nat, t: nat)
    requires Inv(s) && Waited(s) == {} && Enabled(s, Visit(r))
    ensures Closer(s, VisitReader(s, r), t)
  {
    hide StateOf, Waited, Inv, Lists;
    var todo, list := s.grace.todo, if s.grace.Scan1? then s.registry else s.cur;
    ToVisitInactive(s, r);
    SameLess(todo, list, r);
    assert |todo - {r}| == |todo| - 1;
    VisitTakes(s, r);
    hide VisitReader;
  }

  lemma ToVisitInactive(s: State, r: nat)
    requires Inv(s) && Waited(s) == {} && Enabled(s, Visit(r))
    ensures StateOf(s.gp, s.readers[r].ctr).Inactive? && r in if s.grace.Scan1? then s.registry else s.cur
  {
    hide StateOf, Waited, Counters, AllWatched, Queues, History, Covered, Debts;
    assert s.grace.todo <= if s.grace.Scan1? then s.registry else s.cur;
    SeenInactive(s, r);
  }

  // A scan takes an inactive reader off its input list.
  lemma VisitTakes(s: State, r: nat)
    requires Enabled(s, Visit(r)) && StateOf(s.gp, s.readers[r].ctr).Inactive?
    ensures var s' := VisitReader(s, r);
      && s'.batch == s.batch && s'.served == s.served
      && if s.grace.Scan1? then s'.grace == Scan1(s.grace.todo - {r}) && s'.registry == s.registry - {r}
         else s'.grace == Scan2(s.grace.todo - {r}) && s'.cur == s.cur - {r}
  {
    hide StateOf;
  }

  lemma SameLess(a: set<nat>, b: set<nat>, r: nat)
    requires r in a && r in b
    ensures a - {r} == b - {r} <==> a == b
  {
    if a - {r} == b - {r} {
      assert a == (a - {r}) + {r} && b == (b - {r}) + {r};
    }
  }

  lemma QueueCloser(s: State, e: Step, t: nat)
    requires Queues(s) && Enabled(s, e) && (e.TakeGpLock? || e.TakeWaiters? || e.EndGrace?) && Asking(s, t)
    ensures var s' := Apply(Intended, s, e); Closer(s, s', t) && (Asking(s', t) || t in s'.served)
  {
    hide Waited, StateOf, Flipped, VisitReader, FinishScan, ReaderStep;
    assert !ByReader(e);
  }

  lemma ScanCloser(s: State, e: Step, t: nat)
    requires Enabled(s, e) && (e.StartScan? || e.EndScan? || e.Rescan? || e.FlipGp?)
    ensures Closer(s, Apply(Intended, s, e), t)
  {
    hide Waited, StateOf, Flipped, VisitReader, ReaderStep;
    assert !ByReader(e);
    assert e.EndScan? ==> Stages(FinishScan(Intended, s)) < Stages(s);
  }

  lemma SameWaited(s: State, s': State)
    requires s'.readers == s.readers
    ensures Waited(s') == Waited(s)
  {
  }

  lemma ScanAsking(s: State, e: Step)
    requires Enabled(s, e) && OfGrace(e) && !e.TakeGpLock? && !e.TakeWaiters? && !e.EndGrace?
    ensures var s' := Apply(Intended, s, e); s'.queue == s.queue && s'.batch == s.batch && s'.served == s.served
  {
    hide Waited, StateOf, Flipped, ReaderStep, Enabled;
    match e
    case Visit(r) =>
    case EndScan =>
    case StartScan =>
    case Rescan =>
    case FlipGp =>
  }

  // While no registered reader is in a section, every step of the grace period brings every caller
  // that waits closer to its return.
  lemma EveryStepCloser(s: State, e: Step, t: nat)
    requires Inv(s) && Waited(s) == {} && Enabled(s, e) && OfGrace(e) && Asking(s, t)
    ensures var s' := Apply(Intended, s, e);
      Closer(s, s', t) && (Asking(s', t) || t in s'.served) && s'.readers == s.readers && Waited(s') == {}
  {
    SameWaited(s, Apply(Intended, s, e));
    hide Closer, UpdaterStep, ReaderStep, Waited;
    if e.TakeGpLock? || e.TakeWaiters? || e.EndGrace? {
      QueueCloser(s, e, t);
    } else {
      ScanAsking(s, e);
      if e.Visit? {
        assert Apply(Intended, s, e) == VisitReader(s, e.r) by { VisitIs(s, e.r); }
        VisitCloser(s, e.r, t);
      } else {
        ScanCloser(s, e, t);
      }
    }
  }

  lemma VisitIs(s: State, r: nat)
    requires Enabled(s, Visit(r))
    ensures Apply(Intended, s, Visit(r)) == VisitReader(s, r)
  {
  }

  // And there is one that can be taken: the leader never waits for anything but readers.
  lemma LeaderCanGo(s: State, t: nat)
    requires Inv(s) && Asking(s, t)
    ensures Enabled(s, Leading(s)) && OfGrace(Leading(s))
  {
    hide Waited, StateOf, Flipped, Counters, AllWatched, History, Covered, Debts;
  }

  // So its steps alone serve the caller.
  lemma {:induction false} GraceServes(s: State, t: nat) returns (states: seq<State>, steps: seq<Step>)
    requires Inv(s) && Waited(s) == {} && (Asking(s, t) || t in s.served)
    ensures IsPath(Intended, states, steps) && states[0] == s && t in states[|steps|].served
    ensures forall e :: e in steps ==> OfGrace(e)
    decreases Rounds(s, t), Stages(s), ToVisit(s)
  {
    if t in s.served {
      states, steps := [s], [];
    } else {
      hide Enabled, Apply, Inv, Waited, Leading, Rounds, Stages, ToVisit, Asking, Closer, OfGrace;
      LeaderCanGo(s, t);
      var e := Leading(s);
      EveryStepCloser(s, e, t);
      StepKeepsInv(s, e);
      CloserIs(s, Apply(Intended, s, e), t);
      var xs, es := GraceServes(Apply(Intended, s, e), t);
      states, steps := [s] + xs, [e] + es;
      assert Goes(Intended, s, e, xs[0]);
      OneStepMore(Intended, s, e, xs, es);
      PathLength(xs, es);
      hide IsPath, Goes;
      assert states[|steps|] == xs[|es|];
    }
  }

  lemma PathLength(states: seq<State>, steps: seq<Step>)
    requires IsPath(Intended, states, steps)
    ensures |states| == |steps| + 1
  {
  }

  lemma CloserIs(s: State, s': State, t: nat)
    requires Closer(s, s', t)
    ensures || Rounds(s', t) < Rounds(s, t)
            || (Rounds(s', t) == Rounds(s, t) && Stages(s') < Stages(s))
            || (Rounds(s', t) == Rounds(s, t) && Stages(s') == Stages(s) && ToVisit(s') < ToVisit(s))
  {
  }

  // The last step of a path is the return of t, and no reader takes a step.
  ghost predicate Returns(s: State, t: nat, states: seq<State>, steps: seq<Step>) {
    && IsPath(Intended, states, steps) && states[0] == s
    && steps != [] && steps[|steps| - 1] == Return(t)
    && (forall m :: 0 <= m < |steps| - 1 ==> steps[m] != Return(t))
    && forall e :: e in steps ==> !ByReader(e)
  }

  // From any state of any run in which no registered reader is in a section, every thread inside
  // synchronize_rcu can return without any step of a reader.
  lemma PendingReturns(run: seq<State>, made: seq<Step>, t: nat) returns (states: seq<State>, steps: seq<Step>)
    requires IsRun(Intended, run, made) && t in run[|made|].owed && Waited(run[|made|]) == {}
    ensures Returns(run[|made|], t, states, steps)
  {
    RunKeepsInv(run, made, |made|);
    states, steps := FromInside(run[|made|], t);
  }

  lemma FromInside(s: State, t: nat) returns (states: seq<State>, steps: seq<Step>)
    requires Inv(s) && t in s.owed && Waited(s) == {}
    ensures Returns(s, t, states, steps)
  {
    Inside(s, t);
    var xs, es := GraceServes(s, t);
    var last := Apply(Intended, xs[|es|], Return(t));
    hide Inv, Waited, Goes;
    assert Goes(Intended, xs[|es|], Return(t), last) by { GoesOn(xs[|es|], Return(t)); }
    LastStep(Intended, xs, es, Return(t), last);
    states, steps := xs + [last], es + [Return(t)];
    forall m | 0 <= m < |steps| - 1 ensures steps[m] != Return(t) {
      assert steps[m] in es;
    }
  }

  lemma Inside(s: State, t: nat)
    requires Inv(s) && t in s.owed
    ensures Asking(s, t) || t in s.served
  {
  }

  lemma GoesOn(s: State, e: Step)
    requires Enabled(s, e)
    ensures Goes(Intended, s, e, Apply(Intended, s, e))
  {
  }

  // A call, made in any state of any run, can return without any step of a reader if and only if no
  // registered reader is in a section when it is made.
  lemma CallEndsExactly(run: seq<State>, made: seq<Step>, t: nat)
    requires IsRun(Intended, run, made) && t !in run[|made|].owed
    ensures var s := run[|made|];
      (exists states, steps :: CallReturns(Intended, s, t, states, steps) && forall e :: e in steps ==> !ByReader(e))
      <==> Waited(s) == {}
  {
    var s := run[|made|];
    RunKeepsInv(run, made, |made|);
    if Waited(s) == {} {
      var states, steps := CallCanReturn(s, t);
    }
    if states, steps :| CallReturns(Intended, s, t, states, steps) && forall e :: e in steps ==> !ByReader(e) {
      CallWaited(run, made, t, states, steps);
    }
  }

  lemma CallCanReturn(s: State, t: nat) returns (states: seq<State>, steps: seq<Step>)
    requires Inv(s) && t !in s.owed && Waited(s) == {}
    ensures CallReturns(Intended, s, t, states, steps) && forall e :: e in steps ==> !ByReader(e)
  {
    var called := Apply(Intended, s, Call(t));
    assert called.readers == s.readers && t in called.owed;
    assert Waited(called) == Waited(s);
    GoesOn(s, Call(t));
    StepKeepsInv(s, Call(t));
    hide Inv, Waited, Goes, Enabled, Apply;
    var xs, es := FromInside(called, t);
    OneStepMore(Intended, s, Call(t), xs, es);
    states, steps := [s] + xs, [Call(t)] + es;
    forall m | 0 < m < |steps| - 1 ensures steps[m] != Return(t) {
      assert steps[m] == es[m - 1];
    }
  }

  // The other half: what a call waits for is still there if no reader takes a step.
  lemma CallWaited(run: seq<State>, made: seq<Step>, t: nat, states: seq<State>, steps: seq<Step>)
    requires IsRun(Intended, run, made) && CallReturns(Intended, run[|made|], t, states, steps)
    requires forall e :: e in steps ==> !ByReader(e)
    ensures Waited(run[|made|]) == {}
  {
    var n, last := |made|, |steps| - 1;
    hide IsRun, IsPath, Waited, OpenSections, AllEnded, StaysOn;
    StillThere(states, steps, last);
    CallOver(run, made, t, states, steps);
    forall sec | sec in Waited(run[n]) ensures StaysOn(made + steps, n, n + last, sec.0) {
      NobodyGoes(made, steps, last, sec.0);
    }
    NoneLeft(run + states[1..], made + steps, n, n + last);
  }

  lemma StillThere(states: seq<State>, steps: seq<Step>, k: nat)
    requires IsPath(Intended, states, steps) && k <= |steps| && forall e :: e in steps ==> !ByReader(e)
    ensures forall sec :: sec in Waited(states[0]) ==> sec in OpenSections(states[k])
  {
    SameReaders(states, steps, k);
    hide IsPath, Waited, OpenSections;
    forall sec | sec in Waited(states[0]) ensures sec in OpenSections(states[k]) {
      WaitedIsPast(states[0], sec);
      OpenByReaders(states[0], states[k], sec);
      OpenAreOpen(states[k], sec);
    }
  }

  lemma CallOver(run: seq<State>, made: seq<Step>, t: nat, states: seq<State>, steps: seq<Step>)
    requires IsRun(Intended, run, made) && CallReturns(Intended, run[|made|], t, states, steps)
    ensures states != [] && steps != [] && |run| == |made| + 1
    ensures var all, n, last := run + states[1..], |made|, |steps| - 1;
      && |all| == n + |steps| + 1 && all[n] == run[n] && all[n + last] == states[last]
      && AllEnded(all, made + steps, n, n + last)
  {
    var n, last := |made|, |steps| - 1;
    var all, done := run + states[1..], made + steps;
    RunThenPath(run, made, states, steps);
    hide IsRun, IsPath, AllEnded;
    forall m | n < m < n + last ensures done[m] != Return(t) {
      assert done[m] == steps[m - n];
    }
    SynchronizeWaits(all, done, n, n + last, t);
  }

  lemma NoneLeft(states: seq<State>, steps: seq<Step>, i: nat, j: nat)
    requires i < |states| && j < |states| && AllEnded(states, steps, i, j)
    requires forall sec :: sec in Waited(states[i]) ==> sec in OpenSections(states[j]) && StaysOn(steps, i, j, sec.0)
    ensures Waited(states[i]) == {}
  {
    hide Waited, OpenSections, StaysOn;
  }

  lemma NobodyGoes(made: seq<Step>, steps: seq<Step>, last: nat, r: nat)
    requires (forall e :: e in steps ==> !ByReader(e)) && last <= |steps|
    ensures StaysOn(made + steps, |made|, |made| + last, r)
  {
    var done := made + steps;
    forall m: nat | |made| < m < |made| + last && m < |done| ensures done[m] != Unregister(r) {
      assert done[m] == steps[m - |made|] && done[m] in steps;
    }
  }

  lemma RunThenPath(run: seq<State>, made: seq<Step>, states: seq<State>, steps: seq<Step>)
    requires IsRun(Intended, run, made) && IsPath(Intended, states, steps) && states[0] == run[|made|]
    ensures IsRun(Intended, run + states[1..], made + steps)
    ensures forall k :: 0 <= k <= |steps| ==> (run + states[1..])[|made| + k] == states[k]
  {
    hide Enabled, Apply, Init;
    var all, done, n := run + states[1..], made + steps, |made|;
    forall k | 0 <= k < |done|
      ensures Enabled(all[k], done[k]) && all[k + 1] == Apply(Intended, all[k], done[k])
    {
      if k < n {
        assert all[k] == run[k] && all[k + 1] == run[k + 1] && done[k] == made[k];
      } else {
        var i, j := k - n, k - n + 1;
        assert all[k] == states[i] && all[k + 1] == states[j] && Goes(Intended, states[i], steps[i], states[j]);
      }
    }
  }

  lemma {:induction false} SameReaders(states: seq<State>, steps: seq<Step>, k: nat)
    requires IsPath(Intended, states, steps) && k <= |steps| && forall e :: e in steps ==> !ByReader(e)
    ensures states[k].readers == states[0].readers
  {
    if k > 0 {
      var i := k - 1;
      SameReaders(states, steps, i);
      assert Goes(Intended, states[i], steps[i], states[k]) && steps[i] in steps;
      hide UpdaterStep;
    }
  }
}
