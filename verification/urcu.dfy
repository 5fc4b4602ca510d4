// misc/urcu/urcu.c: user-space RCU as a machine of interleaved steps.
//
// One step is one access to shared memory. The load of gp.ctr and the store to reader.ctr in
// rcu_read_lock are separate steps, and so is each reader_state test of a scan. Memory is
// sequentially consistent, which the membarriers of the original are there to provide.
module UrcuWords {
  // unsigned long, 64 bits wide
  type Word = bv64

  const PHASE: Word := 0x1_0000_0000       // RCU_GP_CTR_PHASE
  const NEST_MASK: Word := 0xFFFF_FFFF     // RCU_GP_CTR_NEST_MASK

  datatype ReaderState = ActiveCurrent | ActiveOld | Inactive

  // reader_state: how a grace period sees a reader's counter
  function StateOf(gp: Word, v: Word): ReaderState {
    if v & NEST_MASK == 0 then Inactive
    else if (v ^ gp) & PHASE == 0 then ActiveCurrent
    else ActiveOld
  }

  // Inside a read-side section: some nesting level is open.
  predicate Nested(v: Word) {
    v & NEST_MASK != 0
  }

  // One more level would run into the phase bit.
  predicate Deepest(v: Word) {
    v & NEST_MASK == NEST_MASK
  }

  function Deeper(v: Word): Word {
    v + 1
  }

  function Shallower(v: Word): Word {
    v - 1
  }

  function Flipped(gp: Word): Word {
    gp ^ PHASE
  }

  // The two values gp.ctr takes.
  predicate IsGpCtr(v: Word) {
    v == 1 || v == 1 ^ PHASE
  }

  lemma StateIsInactive(gp: Word, v: Word)
    ensures StateOf(gp, v) == Inactive <==> !Nested(v)
  {
  }

  // A flip makes every section that was current old.
  lemma FlipPhase(gp: Word, v: Word)
    requires IsGpCtr(gp)
    ensures IsGpCtr(Flipped(gp)) && Nested(gp)
    ensures StateOf(gp, v) == ActiveCurrent ==> StateOf(Flipped(gp), v) == ActiveOld
  {
  }

  // Nesting deeper leaves a section as it is seen unless its count overflows: then, at 2^32 - 1
  // levels, the reader no longer counts as inside.
  lemma NestDeeper(gp: Word, v: Word)
    requires Nested(v)
    ensures Nested(Deeper(v)) && StateOf(gp, Deeper(v)) == StateOf(gp, v) <==> !Deepest(v)
    ensures Nested(Deeper(v)) <==> !Deepest(v)
  {
    if Deepest(v) {
      LastWord(v);
    } else {
      NextWord(v);
    }
  }

  lemma LastWord(v: Word)
    requires v & NEST_MASK == NEST_MASK
    ensures (v + 1) & NEST_MASK == 0
  {
  }

  lemma NextWord(v: Word)
    requires v & NEST_MASK != NEST_MASK
    ensures (v + 1) & PHASE == v & PHASE && (v + 1) & NEST_MASK != 0
  {
  }

  // Coming back out leaves a section as it is seen, until its last level ends.
  lemma NestShallower(gp: Word, v: Word)
    requires Nested(v)
    ensures Nested(Shallower(v)) <==> v & NEST_MASK != 1
    ensures Nested(Shallower(v)) ==> StateOf(gp, Shallower(v)) == StateOf(gp, v)
  {
  }
}

module Urcu {
  import opened Collections
  import opened UrcuWords

  // What rcu_read_lock has done so far: loaded gp.ctr, or nothing.
  // section counts the outermost read-side sections begun, and so names the current or last one.
  datatype Reader = Reader(ctr: Word, loaded: Option<Word>, registered: bool, section: nat)

  type Section = (nat, nat)

  // How far the thread holding rcu_gp_lock has come in synchronize_rcu. The registry lock is held
  // in Scan, Flip and Splice, and dropped in Pause. todo is what the scan has still to visit.
  datatype Grace =
    | Free
    | Locked
    | Moved
    | Scan1(todo: set<nat>)
    | Pause1
    | Flip
    | Scan2(todo: set<nat>)
    | Pause2
    | Splice

  datatype State = State(
    readers: map<nat, Reader>,
    gp: Word,
    registry: set<nat>,                 // registry_reader_list
    cur: set<nat>,                      // cur_snap_readers
    qs: set<nat>,                       // qs_readers
    queue: seq<nat>,                    // gp_waiters; its first thread takes rcu_gp_lock
    batch: set<nat>,                    // waiters: the threads the current grace period serves
    served: set<nat>,                   // threads that may return from synchronize_rcu
    grace: Grace,
    // history: the sections of registered readers that were open when the last scan began, and when
    // each pending call was made, less those of readers unregistered since
    atScan: set<Section>,
    owed: map<nat, set<Section>>
  )

  // The test that ends a wait (urcu.c:229). As its comment says, it asks whether the input list is
  // empty; as it is written, it assigns: the list is emptied and the test is always true. Lists are
  // sets in both readings; UrcuLists says what becomes of the lists of pointers.
  datatype ExitTest = Intended | AsWritten

  datatype Step =
    | Register(r: nat)
    | Unregister(r: nat)
    | LockLoad(r: nat)                  // rcu_read_lock, outermost: load gp.ctr
    | LockStore(r: nat)                 // ... store it to reader.ctr: the section begins
    | LockNested(r: nat)
    | Unlock(r: nat)
    | Call(t: nat)                      // synchronize_rcu: push onto gp_waiters
    | TakeGpLock
    | TakeWaiters
    | StartScan                         // take the registry lock
    | Visit(r: nat)                     // test one reader and move it
    | EndScan
    | Rescan
    | FlipGp
    | EndGrace                          // splice back, unlock, wake the waiters
    | Return(t: nat)

  predicate Reading(x: Reader) {
    Nested(x.ctr)
  }

  ghost predicate StillOpen(s: State, sec: Section) {
    sec.0 in s.readers && Reading(s.readers[sec.0]) && s.readers[sec.0].section == sec.1
  }

  function OpenSections(s: State): set<Section> {
    set r | r in s.readers && Reading(s.readers[r]) :: (r, s.readers[r].section)
  }

  // The sections that a grace period waits for.
  function Waited(s: State): set<Section> {
    set r | r in s.readers && Reading(s.readers[r]) && s.readers[r].registered :: (r, s.readers[r].section)
  }

  // What is left of some sections when a reader is unregistered.
  function NotOf(r: nat, secs: set<Section>): set<Section> {
    set sec | sec in secs && sec.0 != r
  }

  predicate RegistryLocked(s: State) {
    s.grace.Scan1? || s.grace.Flip? || s.grace.Scan2? || s.grace.Splice?
  }

  // A step of a reader, rather than of a thread in synchronize_rcu.
  predicate ByReader(step: Step) {
    step.Register? || step.Unregister? || step.LockLoad? || step.LockStore? || step.LockNested? || step.Unlock?
  }

  predicate Enabled(s: State, step: Step) {
    match step
    case Register(r) => r in s.readers && !s.readers[r].registered && !RegistryLocked(s)
    case Unregister(r) => r in s.readers && s.readers[r].loaded.None? && !RegistryLocked(s)
    case LockLoad(r) => r in s.readers && s.readers[r].loaded.None? && !Reading(s.readers[r])
    case LockStore(r) => r in s.readers && s.readers[r].loaded.Some?
    case LockNested(r) =>
      && r in s.readers && s.readers[r].loaded.None? && Reading(s.readers[r])
      && !Deepest(s.readers[r].ctr)
    case Unlock(r) => r in s.readers && s.readers[r].loaded.None? && Reading(s.readers[r])
    case Call(t) => t !in s.owed
    case TakeGpLock => s.grace.Free? && s.queue != []
    case TakeWaiters => s.grace.Locked?
    case StartScan => s.grace.Moved?
    case Visit(r) => (s.grace.Scan1? || s.grace.Scan2?) && r in s.grace.todo && r in s.readers
    case EndScan => (s.grace.Scan1? || s.grace.Scan2?) && s.grace.todo == {}
    case Rescan => s.grace.Pause1? || s.grace.Pause2?
    case FlipGp => s.grace.Flip?
    case EndGrace => s.grace.Splice?
    case Return(t) => t in s.served
  }

  function SetReader(s: State, r: nat, x: Reader): State {
    s.(readers := s.readers[r := x])
  }

  // What a reader's own step makes of its counter and what it has loaded.
  function ReaderAfter(x: Reader, gp: Word, step: Step): Reader
    requires ByReader(step) && (step.LockStore? ==> x.loaded.Some?)
  {
    match step
    case Register(_) => x.(registered := true)
    case Unregister(_) => x.(registered := false)
    case LockLoad(_) => x.(loaded := Some(gp))
    case LockStore(_) => x.(ctr := x.loaded.value, loaded := None, section := x.section + 1)
    case LockNested(_) => x.(ctr := Deeper(x.ctr))
    case Unlock(_) => x.(ctr := Shallower(x.ctr))
  }

  // rcu_register_thread, rcu_unregister_thread, rcu_read_lock, rcu_read_unlock
  function ReaderStep(s: State, step: Step): State
    requires Enabled(s, step) && ByReader(step)
  {
    var r := step.r;
    var t := SetReader(s, r, ReaderAfter(s.readers[r], s.gp, step));
    if step.Register? then t.(registry := s.registry + {r})
    else if step.Unregister? then
      t.(registry := s.registry - {r}, cur := s.cur - {r}, qs := s.qs - {r},
         atScan := NotOf(r, s.atScan), owed := map t | t in s.owed :: NotOf(r, s.owed[t]))
    else t
  }

  // The body of a scan's loop: in the first wait a current reader goes to cur_snap_readers, in the
  // second, where that list is absent, to qs_readers; an inactive one always to qs_readers.
  function VisitReader(s: State, r: nat): (s': State)
    requires (s.grace.Scan1? || s.grace.Scan2?) && r in s.readers
    ensures s'.readers == s.readers && s'.gp == s.gp && s'.atScan == s.atScan
  {
    var seen := StateOf(s.gp, s.readers[r].ctr);
    if s.grace.Scan1? then
      var grace := Scan1(s.grace.todo - {r});
      if seen.ActiveOld? then s.(grace := grace)
      else if seen.ActiveCurrent? then s.(grace := grace, registry := s.registry - {r}, cur := s.cur + {r})
      else s.(grace := grace, registry := s.registry - {r}, qs := s.qs + {r})
    else
      var grace := Scan2(s.grace.todo - {r});
      if seen.ActiveOld? then s.(grace := grace)
      else s.(grace := grace, cur := s.cur - {r}, qs := s.qs + {r})
  }

  // The end of a scan: leave the wait, or drop the registry lock and scan again.
  function FinishScan(test: ExitTest, s: State): (s': State)
    requires s.grace.Scan1? || s.grace.Scan2?
    ensures s'.readers == s.readers && s'.gp == s.gp && s'.atScan == s.atScan
  {
    if s.grace.Scan1? then
      (if test.AsWritten? then s.(registry := {}, grace := Flip)
       else s.(grace := if s.registry == {} then Flip else Pause1))
    else
      (if test.AsWritten? then s.(cur := {}, grace := Splice)
       else s.(grace := if s.cur == {} then Splice else Pause2))
  }

  // synchronize_rcu
  function UpdaterStep(test: ExitTest, s: State, step: Step): (s': State)
    requires Enabled(s, step) && !ByReader(step)
    ensures s'.readers == s.readers
  {
    match step
    case Call(t) => s.(queue := s.queue + [t], owed := s.owed[t := Waited(s)])
    case TakeGpLock => s.(grace := Locked)
    case TakeWaiters => s.(grace := Moved, batch := (set t | t in s.queue), queue := [])
    case StartScan =>
      s.(atScan := Waited(s), grace := if s.registry == {} then Splice else Scan1(s.registry))
    case Visit(r) => VisitReader(s, r)
    case EndScan => FinishScan(test, s)
    case Rescan => s.(grace := if s.grace.Pause1? then Scan1(s.registry) else Scan2(s.cur))
    case FlipGp => s.(gp := Flipped(s.gp), grace := Scan2(s.cur))
    case EndGrace => s.(registry := s.registry + s.qs, qs := {}, grace := Free, served := s.served + s.batch, batch := {})
    case Return(t) => s.(served := s.served - {t}, owed := s.owed - {t})
  }

  function Apply(test: ExitTest, s: State, step: Step): State
    requires Enabled(s, step)
  {
    if ByReader(step) then ReaderStep(s, step) else UpdaterStep(test, s, step)
  }

  ghost predicate Init(s: State) {
    && (forall r :: r in s.readers ==> s.readers[r] == Reader(0, None, false, 0))
    && s.gp == 1 && s.registry == s.cur == s.qs == {}
    && s.queue == [] && s.batch == s.served == {} && s.grace.Free?
    && s.atScan == {} && s.owed == map[]
  }

  // ---------------------------------------------------------------------------------------
  // What every step keeps

  ghost predicate Counters(s: State) {
    && IsGpCtr(s.gp)
    && forall r :: r in s.readers ==>
         s.readers[r].loaded.Some? ==> IsGpCtr(s.readers[r].loaded.value) && !Reading(s.readers[r])
  }

  ghost predicate Lists(s: State) {
    && s.registry !! s.cur !! s.qs
    && (forall r :: r in s.registry + s.cur + s.qs <==> r in s.readers && s.readers[r].registered)
    && (s.grace.Free? || s.grace.Locked? || s.grace.Moved? ==> s.cur == s.qs == {})
    && (s.grace.Scan1? ==> s.grace.todo <= s.registry)
    && (s.grace.Flip? ==> s.registry == {})
    && (s.grace.Scan2? ==> s.grace.todo <= s.cur)
    && (s.grace.Splice? ==> s.cur == {})
  }

  // Where the reader of a section that was open when the scan began must be while the section is open.
  ghost predicate Watched(s: State, r: nat) {
    r in s.readers &&
    var seen := StateOf(s.gp, s.readers[r].ctr);
    match s.grace
    case Scan1(_) => r in s.registry || (r in s.cur && seen == ActiveCurrent)
    case Pause1 => r in s.registry || (r in s.cur && seen == ActiveCurrent)
    case Flip => r in s.cur && seen == ActiveCurrent
    case Scan2(_) => r in s.cur && seen == ActiveOld
    case Pause2 => r in s.cur && seen == ActiveOld
    case Splice => false
    case _ => true
  }

  ghost predicate AllWatched(s: State) {
    forall sec :: sec in s.atScan && StillOpen(s, sec) ==> Watched(s, sec.0)
  }

  ghost predicate Past(s: State, sec: Section) {
    sec.0 in s.readers && sec.1 <= s.readers[sec.0].section
  }

  // Every thread inside synchronize_rcu is in one place.
  ghost predicate Queues(s: State) {
    && (forall t :: t in s.owed <==> t in s.queue || t in s.batch || t in s.served)
    && (forall t :: t in s.queue ==> t !in s.batch && t !in s.served)
    && s.batch !! s.served
    && (s.grace.Free? || s.grace.Locked? ==> s.batch == {})
  }

  ghost predicate History(s: State) {
    && (forall sec :: sec in s.atScan ==> Past(s, sec))
    && (forall t, sec :: t in s.owed && sec in s.owed[t] ==> Past(s, sec))
  }

  // The readers of sections on record are registered while the sections are open.
  ghost predicate Covered(s: State) {
    && (forall sec :: sec in s.atScan && StillOpen(s, sec) ==> s.readers[sec.0].registered)
    && (forall t, sec :: t in s.owed && sec in s.owed[t] && StillOpen(s, sec) ==> s.readers[sec.0].registered)
  }

  // A thread is owed the end of the sections open when it called. The grace period that serves it
  // began its scan later, so those still open were open then; once it is served, none is.
  ghost predicate Debts(s: State) {
    && (s.grace.Free? || s.grace.Locked? || s.grace.Moved? ||
        forall t, sec :: t in s.batch && t in s.owed && sec in s.owed[t] && StillOpen(s, sec) ==> sec in s.atScan)
    && (forall t, sec :: t in s.served && t in s.owed && sec in s.owed[t] ==> !StillOpen(s, sec))
  }

  ghost predicate Inv(s: State) {
    Counters(s) && Lists(s) && AllWatched(s) && Queues(s) && History(s) && Covered(s) && Debts(s)
  }

  lemma InitInv(s: State)
    requires Init(s)
    ensures Inv(s)
  {
  }

  lemma ReaderKeepsCounters(test: ExitTest, s: State, step: Step)
    requires Counters(s) && Enabled(s, step) && ByReader(step)
    ensures Counters(Apply(test, s, step))
  {
    hide OpenSections, StateOf, Nested, Deepest, Deeper, Shallower, Flipped, IsGpCtr;
    FlipPhase(s.gp, 0);
  }

  lemma UpdaterKeepsCounters(test: ExitTest, s: State, step: Step)
    requires Counters(s) && Enabled(s, step) && !ByReader(step)
    ensures Counters(Apply(test, s, step))
  {
    hide OpenSections, StateOf, Nested, Deepest, Deeper, Shallower, Flipped, IsGpCtr;
    FlipPhase(s.gp, 0);
  }

  lemma ReaderKeepsLists(s: State, step: Step)
    requires Inv(s) && Enabled(s, step) && ByReader(step)
    ensures Lists(Apply(Intended, s, step))
  {
    hide AllWatched, Queues, History, Debts, OpenSections, StateOf, Nested, Deepest, Deeper, Shallower, Flipped, IsGpCtr;
  }

  lemma UpdaterKeepsLists(s: State, step: Step)
    requires Inv(s) && Enabled(s, step) && !ByReader(step)
    ensures Lists(Apply(Intended, s, step))
  {
    hide AllWatched, Queues, History, Debts, OpenSections, StateOf, Reading, Counters, Flipped;
  }

  // A section of the past that is open after a reader's step was open before it, and a grace period
  // still sees its reader the same way.
  lemma SectionGoesOn(s: State, step: Step, sec: Section)
    requires Counters(s) && Enabled(s, step) && ByReader(step) && Past(s, sec)
    requires StillOpen(Apply(Intended, s, step), sec)
    ensures StillOpen(s, sec)
    ensures StateOf(s.gp, Apply(Intended, s, step).readers[sec.0].ctr) == StateOf(s.gp, s.readers[sec.0].ctr)
  {
    hide ReaderStep, ReaderAfter, StateOf, Nested, Counters, Deepest;
    ReaderStepIs(s, step);
    if step.r == sec.0 {
      OwnSectionGoesOn(s.readers[step.r], s.gp, step);
    }
  }

  lemma StillSeen(gp: Word, v: Word)
    requires Nested(v)
    ensures Nested(Shallower(v)) ==> StateOf(gp, Shallower(v)) == StateOf(gp, v)
  {
    NestShallower(gp, v);
  }

  // If a reader is inside a section after its own step, it has just begun that one, or it was inside
  // it before and is seen as it was.
  lemma OwnSectionGoesOn(x: Reader, gp: Word, step: Step)
    requires ByReader(step) && (step.LockStore? ==> x.loaded.Some?)
    requires (step.LockNested? ==> Nested(x.ctr) && !Deepest(x.ctr)) && (step.Unlock? ==> Nested(x.ctr))
    ensures var x' := ReaderAfter(x, gp, step);
      && x.section <= x'.section
      && (Reading(x') && x'.section == x.section ==> Reading(x) && StateOf(gp, x'.ctr) == StateOf(gp, x.ctr))
  {
    hide StateOf, Nested, Deepest, Deeper, Shallower;
    if step.LockNested? {
      NestDeeper(gp, x.ctr);
    } else if step.Unlock? {
      StillSeen(gp, x.ctr);
    }
  }

  // All that a reader's step does.
  lemma ReaderStepIs(s: State, step: Step)
    requires Enabled(s, step) && ByReader(step)
    ensures var s', r := ReaderStep(s, step), step.r;
      && r in s.readers && s'.readers == s.readers[r := ReaderAfter(s.readers[r], s.gp, step)]
      && s'.gp == s.gp && s'.grace == s.grace && s'.queue == s.queue && s'.batch == s.batch && s'.served == s.served
      && s'.registry - {r} == s.registry - {r} && s'.cur - {r} == s.cur - {r} && s'.qs - {r} == s.qs - {r}
      && (step.Register? ==> s'.registry == s.registry + {r})
      && (step.Unregister? ==> r !in s'.registry + s'.cur + s'.qs)
      && (!step.Register? && !step.Unregister? ==> s'.registry == s.registry)
      && (!step.Unregister? ==> s'.cur == s.cur && s'.qs == s.qs && s'.atScan == s.atScan && s'.owed == s.owed)
  {
    hide ReaderAfter, Nested, Deepest, RegistryLocked, NotOf;
  }

  lemma OtherReaderStays(s: State, step: Step, r: nat)
    requires Enabled(s, step) && ByReader(step) && step.r != r
    ensures var s' := ReaderStep(s, step);
      (r in s'.readers <==> r in s.readers) && (r in s.readers ==> s'.readers[r] == s.readers[r])
  {
    hide ReaderStep, ReaderAfter, Enabled;
    ReaderStepIs(s, step);
  }

  lemma ReaderKeepsWatched(s: State, step: Step, sec: Section)
    requires Counters(s) && Watched(s, sec.0) && Enabled(s, step) && ByReader(step) && StillOpen(s, sec) && Past(s, sec)
    requires step != Unregister(sec.0) && StillOpen(Apply(Intended, s, step), sec)
    ensures Watched(Apply(Intended, s, step), sec.0)
  {
    SectionGoesOn(s, step, sec);
    hide ReaderStep, ReaderAfter, Enabled, StateOf, Nested, Counters;
    ReaderStepIs(s, step);
    var s', r := ReaderStep(s, step), sec.0;
    if r != step.r {
      assert (r in s.registry <==> r in s.registry - {step.r}) && (r in s.cur <==> r in s.cur - {step.r});
    }
  }

  lemma ReaderKeepsWatch(s: State, step: Step)
    requires Inv(s) && Enabled(s, step) && ByReader(step)
    ensures AllWatched(Apply(Intended, s, step))
  {
    hide Lists, Queues, Debts, Covered, Counters, OpenSections, Waited, StateOf, Reading, Watched, Apply, StillOpen, Past;
    var s' := Apply(Intended, s, step);
    forall sec | sec in s'.atScan && StillOpen(s', sec) ensures Watched(s', sec.0) {
      ReaderKeepsRecord(s, step, sec);
      SectionGoesOn(s, step, sec);
      ReaderKeepsWatched(s, step, sec);
    }
  }

  // Records change by readers' steps only when a reader is unregistered: its sections leave them.
  lemma ReaderKeepsRecord(s: State, step: Step, sec: Section)
    requires Enabled(s, step) && ByReader(step)
    ensures sec in Apply(Intended, s, step).atScan <==> sec in s.atScan && step != Unregister(sec.0)
    ensures Apply(Intended, s, step).owed.Keys == s.owed.Keys
    ensures forall t :: t in s.owed ==>
              (sec in Apply(Intended, s, step).owed[t] <==> sec in s.owed[t] && step != Unregister(sec.0))
  {
    hide OpenSections, Waited, StateOf, Nested, Deepest, Deeper, Shallower, Flipped, IsGpCtr, Reading, SetReader, RegistryLocked;
    if step.Unregister? {
      UnregisterRecords(s, step.r);
    } else {
      OthersKeepRecords(s, step);
    }
  }

  lemma UnregisterRecords(s: State, r: nat)
    requires Enabled(s, Unregister(r))
    ensures var s' := ReaderStep(s, Unregister(r));
      && s'.atScan == NotOf(r, s.atScan) && s'.owed.Keys == s.owed.Keys
      && forall t :: t in s.owed ==> s'.owed[t] == NotOf(r, s.owed[t])
  {
    hide NotOf;
  }

  lemma OthersKeepRecords(s: State, step: Step)
    requires Enabled(s, step) && ByReader(step) && !step.Unregister?
    ensures ReaderStep(s, step).atScan == s.atScan && ReaderStep(s, step).owed == s.owed
  {
    hide ReaderStep, ReaderAfter, Enabled;
    ReaderStepIs(s, step);
  }

  lemma VisitKeepsWatched(s: State, r: nat, sec: Section)
    requires Inv(s) && Enabled(s, Visit(r)) && sec in s.atScan && StillOpen(s, sec)
    ensures Watched(VisitReader(s, r), sec.0)
  {
    hide Queues, Debts, History, Counters, Covered, OpenSections, Waited, StateOf, Nested;
    assert Watched(s, sec.0);
    StateIsInactive(s.gp, s.readers[sec.0].ctr);
  }

  lemma EndKeepsWatched(s: State, r: nat)
    requires (s.grace.Scan1? || s.grace.Scan2?) && Watched(s, r)
    ensures Watched(FinishScan(Intended, s), r)
  {
    hide StateOf;
  }

  lemma UpdaterKeepsWatched(s: State, step: Step, sec: Section)
    requires Inv(s) && Enabled(s, step) && !ByReader(step)
    requires sec in Apply(Intended, s, step).atScan && StillOpen(Apply(Intended, s, step), sec)
    ensures Watched(Apply(Intended, s, step), sec.0)
  {
    OpenByReaders(s, Apply(Intended, s, step), sec);
    if step.StartScan? {
      hide Queues, Debts, History, Lists, Counters, Covered, OpenSections, StateOf, Nested, Flipped;
      ScanIsRegistered(s, sec);
    } else {
      hide Queues, Debts, History, Lists, Counters, Covered, OpenSections, Waited, StateOf, Nested, Flipped, IsGpCtr, VisitReader, FinishScan, StillOpen;
      if step.Visit? {
        VisitKeepsWatched(s, step.r, sec);
      } else if step.EndScan? {
        EndKeepsWatched(s, sec.0);
      } else if step.FlipGp? {
        FlipSeen(s, sec.0);
      }
    }
  }

  lemma FlipSeen(s: State, r: nat)
    requires Counters(s) && r in s.readers && StateOf(s.gp, s.readers[r].ctr) == ActiveCurrent
    ensures StateOf(Flipped(s.gp), s.readers[r].ctr) == ActiveOld
  {
    FlipPhase(s.gp, s.readers[r].ctr);
  }

  lemma ScanIsRegistered(s: State, sec: Section)
    requires Lists(s) && sec in Waited(s) && s.grace.Moved?
    ensures sec.0 in s.registry && sec.0 in s.readers
  {
  }

  lemma UpdaterKeepsWatch(s: State, step: Step)
    requires Inv(s) && Enabled(s, step) && !ByReader(step)
    ensures AllWatched(Apply(Intended, s, step))
  {
    hide Counters, Lists, Queues, History, Debts, Covered, OpenSections, Waited, StateOf, Reading, Watched, Apply, Enabled, StillOpen;
    var s' := Apply(Intended, s, step);
    forall sec | sec in s'.atScan && StillOpen(s', sec) ensures Watched(s', sec.0) {
      UpdaterKeepsWatched(s, step, sec);
    }
  }

  lemma OpenByReaders(s: State, s': State, sec: Section)
    requires s'.readers == s.readers
    ensures StillOpen(s', sec) == StillOpen(s, sec)
  {
  }

  lemma OpenAreOpen(s: State, sec: Section)
    ensures sec in OpenSections(s) <==> StillOpen(s, sec)
  {
  }

  lemma StepKeepsQueues(s: State, step: Step)
    requires Queues(s) && Enabled(s, step)
    ensures Queues(Apply(Intended, s, step))
  {
    hide OpenSections, Waited, StateOf, Reading, NotOf, Flipped, ReaderAfter, RegistryLocked;
    if ByReader(step) {
      hide Enabled, ReaderStep;
      ReaderStepIs(s, step);
      ReaderKeepsRecord(s, step, (0, 0));
    } else if step.Visit? {
      hide Enabled;
    }
  }

  lemma SectionsCountUp(s: State, step: Step)
    requires Enabled(s, step)
    ensures forall sec :: Past(s, sec) ==> Past(Apply(Intended, s, step), sec)
  {
    hide OpenSections, StateOf, Reading, Deeper, Shallower, Flipped;
  }

  lemma ReaderKeepsHistory(s: State, step: Step)
    requires Inv(s) && Enabled(s, step) && ByReader(step)
    ensures History(Apply(Intended, s, step))
  {
    hide Lists, AllWatched, Queues, Debts, Counters, Covered, OpenSections, Waited, StateOf, Reading, Past, Apply, Enabled;
    SectionsCountUp(s, step);
    var s' := Apply(Intended, s, step);
    forall sec | sec in s'.atScan ensures Past(s', sec) {
      ReaderKeepsRecord(s, step, sec);
    }
    forall t, sec | t in s'.owed && sec in s'.owed[t] ensures Past(s', sec) {
      ReaderKeepsRecord(s, step, sec);
    }
  }

  lemma UpdaterKeepsHistory(s: State, step: Step)
    requires Inv(s) && Enabled(s, step) && !ByReader(step)
    ensures History(Apply(Intended, s, step))
  {
    hide Lists, AllWatched, Queues, Debts, Counters, Covered, OpenSections, Waited, StateOf, Reading, Past;
    forall sec | sec in Waited(s) ensures Past(s, sec) {
      WaitedIsPast(s, sec);
    }
    SectionsCountUp(s, step);
  }

  lemma ReaderKeepsCovered(s: State, step: Step)
    requires Inv(s) && Enabled(s, step) && ByReader(step)
    ensures Covered(Apply(Intended, s, step))
  {
    hide Lists, AllWatched, Queues, Debts, OpenSections, Waited, StateOf, Reading, Past, Apply, Enabled, Counters, StillOpen;
    var s' := Apply(Intended, s, step);
    forall sec | StillOpen(s', sec) ensures sec.0 in s'.readers {
      OpenIsKnown(s', sec);
    }
    forall sec | StillOpen(s, sec) ensures sec.0 in s.readers {
      OpenIsKnown(s, sec);
    }
    forall sec | sec in s'.atScan && StillOpen(s', sec) ensures sec.0 in s'.readers && s'.readers[sec.0].registered {
      ReaderKeepsRecord(s, step, sec);
      StaysCovered(s, step, sec);
    }
    forall t, sec | t in s'.owed && sec in s'.owed[t] && StillOpen(s', sec)
      ensures sec.0 in s'.readers && s'.readers[sec.0].registered
    {
      ReaderKeepsRecord(s, step, sec);
      StaysCovered(s, step, sec);
    }
  }

  lemma StaysCovered(s: State, step: Step, sec: Section)
    requires Counters(s) && Enabled(s, step) && ByReader(step) && Past(s, sec) && step != Unregister(sec.0)
    requires StillOpen(Apply(Intended, s, step), sec)
    requires StillOpen(s, sec) && sec.0 in s.readers ==> s.readers[sec.0].registered
    ensures sec.0 in Apply(Intended, s, step).readers && Apply(Intended, s, step).readers[sec.0].registered
  {
    hide Waited, OpenSections, Counters, Apply, Enabled, Past, Reading;
    SectionGoesOn(s, step, sec);
    StaysRegistered(s, step, sec.0);
  }

  lemma OpenIsKnown(s: State, sec: Section)
    requires StillOpen(s, sec)
    ensures sec.0 in s.readers
  {
  }

  lemma StaysRegistered(s: State, step: Step, r: nat)
    requires Enabled(s, step) && ByReader(step) && step != Unregister(r) && r in s.readers && s.readers[r].registered
    ensures r in Apply(Intended, s, step).readers && Apply(Intended, s, step).readers[r].registered
  {
    hide ReaderStep, Enabled, Deeper, Shallower;
    ReaderStepIs(s, step);
  }

  lemma UpdaterKeepsCovered(s: State, step: Step)
    requires Inv(s) && Enabled(s, step) && !ByReader(step)
    ensures Covered(Apply(Intended, s, step))
  {
    hide Lists, AllWatched, Queues, Debts, Counters, OpenSections, Waited, StateOf, Reading, Past, StillOpen, Flipped;
    var s' := Apply(Intended, s, step);
    forall sec ensures StillOpen(s', sec) == StillOpen(s, sec) && (sec in Waited(s) ==> StillOpen(s, sec) && sec.0 in s.readers && s.readers[sec.0].registered) {
      if sec in Waited(s) {
        WaitedIsPast(s, sec);
      }
      OpenByReaders(s, s', sec);
    }
  }

  lemma WaitedIsPast(s: State, sec: Section)
    requires sec in Waited(s)
    ensures Past(s, sec) && StillOpen(s, sec) && sec.0 in s.readers && s.readers[sec.0].registered
  {
  }

  lemma OpenIsWaited(s: State, sec: Section)
    requires StillOpen(s, sec) && s.readers[sec.0].registered
    ensures sec in Waited(s)
  {
  }

  lemma ReaderKeepsDebts(s: State, step: Step)
    requires Inv(s) && Enabled(s, step) && ByReader(step)
    ensures Debts(Apply(Intended, s, step))
  {
    hide OpenSections, Waited, StateOf, Reading, StillOpen, Lists, AllWatched, Queues, Past, Counters, Covered;
    var s' := Apply(Intended, s, step);
    assert s'.batch == s.batch && s'.served == s.served && s'.grace == s.grace;
    hide Apply, Enabled;
    forall t, sec | t in s'.owed && sec in s'.owed[t] && StillOpen(s', sec)
      ensures t in s.owed && sec in s.owed[t] && StillOpen(s, sec) && (sec in s.atScan ==> sec in s'.atScan)
    {
      ReaderKeepsRecord(s, step, sec);
      SectionGoesOn(s, step, sec);
    }
  }

  lemma UpdaterKeepsDebts(s: State, step: Step)
    requires Inv(s) && Enabled(s, step) && !ByReader(step)
    ensures Debts(Apply(Intended, s, step))
  {
    hide OpenSections, Waited, StateOf, Reading, Lists, Counters, Past, Flipped, History, StillOpen;
    var s' := Apply(Intended, s, step);
    forall sec ensures StillOpen(s', sec) == StillOpen(s, sec) {
      OpenByReaders(s, s', sec);
    }
    if step.EndGrace? {
      assert forall sec :: sec in s.atScan ==> !StillOpen(s, sec);
    } else if step.StartScan? {
      forall t, sec | t in s.batch && t in s.owed && sec in s.owed[t] && StillOpen(s, sec) ensures sec in Waited(s) {
        OpenIsWaited(s, sec);
      }
    }
  }

  // ---------------------------------------------------------------------------------------
  // Runs

  ghost predicate IsRun(test: ExitTest, states: seq<State>, steps: seq<Step>) {
    && |states| == |steps| + 1 && Init(states[0])
    && forall k :: 0 <= k < |steps| ==> Enabled(states[k], steps[k]) && states[k + 1] == Apply(test, states[k], steps[k])
  }

  lemma StepKeepsInv(s: State, step: Step)
    requires Inv(s) && Enabled(s, step)
    ensures Inv(Apply(Intended, s, step))
  {
    hide Counters, Lists, AllWatched, Queues, History, Covered, Debts, Enabled, Apply;
    if ByReader(step) {
      ReaderKeepsCounters(Intended, s, step);
      ReaderKeepsLists(s, step);
      ReaderKeepsWatch(s, step);
      ReaderKeepsHistory(s, step);
      ReaderKeepsCovered(s, step);
      ReaderKeepsDebts(s, step);
    } else {
      UpdaterKeepsCounters(Intended, s, step);
      UpdaterKeepsLists(s, step);
      UpdaterKeepsWatch(s, step);
      UpdaterKeepsHistory(s, step);
      UpdaterKeepsCovered(s, step);
      UpdaterKeepsDebts(s, step);
    }
    StepKeepsQueues(s, step);
  }

  lemma {:induction false} RunKeepsInv(states: seq<State>, steps: seq<Step>, k: nat)
    requires IsRun(Intended, states, steps) && k <= |steps|
    ensures Inv(states[k])
  {
    hide Inv, Enabled, Apply, Init;
    if k == 0 {
      InitInv(states[0]);
    } else {
      RunKeepsInv(states, steps, k - 1);
      StepKeepsInv(states[k - 1], steps[k - 1]);
    }
  }

  // A section that a call is owed, or that a scan began with, stays on record until the call or the
  // grace period is over, unless its reader is unregistered.
  lemma RecordsKept(s: State, step: Step, t: nat, sec: Section)
    requires Enabled(s, step) && step != Unregister(sec.0)
    ensures t in s.owed && sec in s.owed[t] && step != Return(t) ==>
              t in Apply(Intended, s, step).owed && sec in Apply(Intended, s, step).owed[t]
    ensures InScan(s) && sec in s.atScan && !step.EndGrace? ==>
              InScan(Apply(Intended, s, step)) && sec in Apply(Intended, s, step).atScan
  {
    if ByReader(step) {
      ReaderKeepsRecord(s, step, sec);
      assert Apply(Intended, s, step).grace == s.grace;
    } else {
      hide OpenSections, Waited, StateOf, Reading, Deeper, Shallower, Flipped, IsGpCtr, Deepest, NotOf;
    }
  }

  ghost predicate InScan(s: State) {
    !(s.grace.Free? || s.grace.Locked? || s.grace.Moved?)
  }

  lemma CallRecords(s: State, t: nat)
    requires Enabled(s, Call(t))
    ensures var s' := Apply(Intended, s, Call(t)); t in s'.owed && s'.owed[t] == Waited(s)
  {
  }

  lemma ScanRecords(s: State)
    requires Enabled(s, StartScan)
    ensures var s' := Apply(Intended, s, StartScan); InScan(s') && s'.atScan == Waited(s)
  {
  }

  // Between two steps of a run a reader is not unregistered.
  ghost predicate StaysOn(steps: seq<Step>, i: nat, j: nat, r: nat) {
    forall m :: i < m < j && m < |steps| ==> steps[m] != Unregister(r)
  }

  lemma {:induction false} CallOnRecord(states: seq<State>, steps: seq<Step>, i: nat, k: nat, t: nat, sec: Section)
    requires IsRun(Intended, states, steps) && i < k <= |steps| && steps[i] == Call(t)
    requires forall m :: i < m < k ==> steps[m] != Return(t)
    requires sec in Waited(states[i]) && StaysOn(steps, i, k, sec.0)
    ensures t in states[k].owed && sec in states[k].owed[t]
  {
    hide Waited, Init, Enabled, Apply;
    if k == i + 1 {
      CallRecords(states[i], t);
    } else {
      CallOnRecord(states, steps, i, k - 1, t, sec);
      RecordsKept(states[k - 1], steps[k - 1], t, sec);
    }
  }

  lemma {:induction false} ScanOnRecord(states: seq<State>, steps: seq<Step>, i: nat, k: nat, sec: Section)
    requires IsRun(Intended, states, steps) && i < k <= |steps| && steps[i].StartScan?
    requires forall m :: i < m < k ==> !steps[m].EndGrace?
    requires sec in Waited(states[i]) && StaysOn(steps, i, k, sec.0)
    ensures InScan(states[k]) && sec in states[k].atScan
  {
    hide Waited, Init, Enabled, Apply, InScan;
    if k == i + 1 {
      ScanRecords(states[i]);
    } else {
      ScanOnRecord(states, steps, i, k - 1, sec);
      RecordsKept(states[k - 1], steps[k - 1], 0, sec);
    }
  }

  // Every section that is open in state i, and whose reader is registered and stays so up to step j,
  // has ended in state j.
  ghost predicate AllEnded(states: seq<State>, steps: seq<Step>, i: nat, j: nat)
    requires i < |states| && j < |states|
  {
    forall sec :: sec in Waited(states[i]) && StaysOn(steps, i, j, sec.0) ==> sec !in OpenSections(states[j])
  }

  // The grace period: when the second wait is over, every read-side section that was open when the
  // scan of the registry began has ended, however late its reader stored the phase it had loaded.
  lemma GracePeriod(states: seq<State>, steps: seq<Step>, i: nat, j: nat)
    requires IsRun(Intended, states, steps) && i < j < |steps|
    requires steps[i].StartScan? && steps[j].EndGrace?
    requires forall m :: i < m < j ==> !steps[m].EndGrace?
    ensures AllEnded(states, steps, i, j)
  {
    hide OpenSections, Waited, Init, Apply, Lists, Counters, Queues, History, Covered, Debts;
    RunKeepsInv(states, steps, j);
    forall sec | sec in Waited(states[i]) && StaysOn(steps, i, j, sec.0) ensures sec !in OpenSections(states[j]) {
      ScanOnRecord(states, steps, i, j, sec);
      OpenAreOpen(states[j], sec);
      assert AllWatched(states[j]);
    }
  }

  // What the caller sees, whether it led the grace period or was queued behind another thread:
  // no section open when it called synchronize_rcu is open when it returns.
  lemma SynchronizeWaits(states: seq<State>, steps: seq<Step>, i: nat, j: nat, t: nat)
    requires IsRun(Intended, states, steps) && i < j < |steps|
    requires steps[i] == Call(t) && steps[j] == Return(t)
    requires forall m :: i < m < j ==> steps[m] != Return(t)
    ensures AllEnded(states, steps, i, j)
  {
    hide OpenSections, Waited, Init, Apply, Lists, Counters, Queues, History, Covered, AllWatched;
    RunKeepsInv(states, steps, j);
    forall sec | sec in Waited(states[i]) && StaysOn(steps, i, j, sec.0) ensures sec !in OpenSections(states[j]) {
      CallOnRecord(states, steps, i, j, t, sec);
      OpenAreOpen(states[j], sec);
      assert Debts(states[j]);
    }
  }

  // ---------------------------------------------------------------------------------------
  // The exit test as an assignment

  ghost predicate InputEmpty(s: State) {
    (s.grace.Scan1? ==> s.registry == {}) && (s.grace.Scan2? ==> s.cur == {})
  }

  // The assignment does what the test was meant to do exactly when the scan left nobody behind.
  lemma ExitTestsAgree(s: State)
    requires Enabled(s, EndScan)
    ensures Apply(AsWritten, s, EndScan) == Apply(Intended, s, EndScan) <==> InputEmpty(s)
  {
  }

  // A run with the assignment is one with the test exactly when no scan leaves a reader behind.
  lemma AsWrittenWithNobodyLeft(states: seq<State>, steps: seq<Step>)
    requires IsRun(AsWritten, states, steps)
    ensures IsRun(Intended, states, steps) <==> forall k :: 0 <= k < |steps| && steps[k].EndScan? ==> InputEmpty(states[k])
  {
    hide Enabled, InputEmpty, Init;
    if IsRun(Intended, states, steps) {
      forall k | 0 <= k < |steps| && steps[k].EndScan? ensures InputEmpty(states[k]) {
        assert states[k + 1] == Apply(Intended, states[k], steps[k]) == Apply(AsWritten, states[k], steps[k]);
        ExitTestsAgree(states[k]);
      }
    } else if forall k :: 0 <= k < |steps| && steps[k].EndScan? ==> InputEmpty(states[k]) {
      forall k | 0 <= k < |steps| ensures states[k + 1] == Apply(Intended, states[k], steps[k]) {
        if steps[k].EndScan? {
          ExitTestsAgree(states[k]);
        }
      }
      assert false;
    }
  }

  ghost predicate Goes(test: ExitTest, s: State, e: Step, s': State) {
    Enabled(s, e) && s' == Apply(test, s, e)
  }

  // Any number of steps of a machine, from any state.
  ghost predicate IsPath(test: ExitTest, states: seq<State>, steps: seq<Step>) {
    && |states| == |steps| + 1
    && forall k, l :: 0 <= k < |steps| && l == k + 1 ==> Goes(test, states[k], steps[k], states[l])
  }

  // From s thread t calls synchronize_rcu, and the last step is its return.
  ghost predicate CallReturns(test: ExitTest, s: State, t: nat, states: seq<State>, steps: seq<Step>) {
    && IsPath(test, states, steps) && states[0] == s
    && |steps| >= 2 && steps[0] == Call(t) && steps[|steps| - 1] == Return(t)
    && forall m :: 0 < m < |steps| - 1 ==> steps[m] != Return(t)
  }

  // What the machine with the assignment keeps.
  ghost predicate Known(s: State) {
    && s.registry + s.cur + s.qs <= s.readers.Keys
    && (s.grace.Scan1? || s.grace.Scan2? ==> s.grace.todo <= s.readers.Keys)
    && !s.grace.Pause1? && !s.grace.Pause2?
    && (s.grace.Free? || s.grace.Locked? ==> s.batch == {})
  }

  lemma StepKeepsKnown(s: State, e: Step)
    requires Known(s) && Enabled(s, e)
    ensures Known(Apply(AsWritten, s, e))
  {
    hide OpenSections, Waited, NotOf, ReaderAfter, StateOf, Flipped, Nested, Deepest;
  }

  lemma {:induction false} RunKeepsKnown(states: seq<State>, steps: seq<Step>, k: nat)
    requires IsRun(AsWritten, states, steps) && k <= |steps|
    ensures Known(states[k])
  {
    hide Apply, Enabled;
    if k > 0 {
      RunKeepsKnown(states, steps, k - 1);
      var l := k - 1;
      assert states[l + 1] == Apply(AsWritten, states[l], steps[l]);
      StepKeepsKnown(states[l], steps[l]);
    }
  }

  // A thread has asked for a grace period that is still to end.
  ghost predicate Asking(s: State, t: nat) {
    t in s.queue || t in s.batch
  }

  // How far that is: which grace period, which part of it, and what its scan has still to visit.
  ghost function Rounds(s: State, t: nat): nat {
    if t in s.served then 0 else if t in s.batch then 1 else if s.grace.Free? || s.grace.Locked? then 2 else 3
  }

  ghost function Parts(s: State): nat {
    match s.grace
    case Free => 7
    case Locked => 6
    case Moved => 5
    case Scan1(_) => 4
    case Flip => 3
    case Scan2(_) => 2
    case _ => 1
  }

  ghost function ToVisit(s: State): nat {
    if s.grace.Scan1? || s.grace.Scan2? then |s.grace.todo| else 0
  }

  // The next step of the thread that leads the grace periods; it need not wait for any reader.
  ghost function Leading(s: State): Step {
    match s.grace
    case Free => TakeGpLock
    case Locked => TakeWaiters
    case Moved => StartScan
    case Scan1(todo) => if todo == {} then EndScan else Visit(var r :| r in todo; r)
    case Flip => FlipGp
    case Scan2(todo) => if todo == {} then EndScan else Visit(var r :| r in todo; r)
    case Splice => EndGrace
    case _ => Rescan
  }

  ghost predicate Nearer(s: State, s': State, t: nat) {
    || Rounds(s', t) < Rounds(s, t)
    || (Rounds(s', t) == Rounds(s, t) && Parts(s') < Parts(s))
    || (Rounds(s', t) == Rounds(s, t) && Parts(s') == Parts(s) && ToVisit(s') < ToVisit(s))
  }

  lemma VisitAdvances(s: State, t: nat)
    requires Known(s) && Asking(s, t) && t !in s.served && (s.grace.Scan1? || s.grace.Scan2?) && s.grace.todo != {}
    ensures Enabled(s, Leading(s)) && Leading(s).Visit?
    ensures var s' := Apply(AsWritten, s, Leading(s));
      Asking(s', t) && s'.readers == s.readers && Nearer(s, s', t)
  {
    hide OpenSections, StateOf, Flipped, Known;
    assert Leading(s).r in s.grace.todo && s.grace.todo <= s.readers.Keys by { KnownTodo(s); }
    var r := Leading(s).r;
    var rest := s.grace.todo - {r};
    assert |rest| == |s.grace.todo| - 1;
    assert VisitReader(s, r).grace == if s.grace.Scan1? then Scan1(rest) else Scan2(rest);
  }

  lemma KnownTodo(s: State)
    requires Known(s) && (s.grace.Scan1? || s.grace.Scan2?)
    ensures s.grace.todo <= s.readers.Keys
  {
  }

  lemma LeadingAdvances(s: State, t: nat)
    requires Known(s) && Asking(s, t) && t !in s.served
    ensures Enabled(s, Leading(s)) && !Leading(s).Return? && !ByReader(Leading(s))
    ensures var s' := Apply(AsWritten, s, Leading(s));
      (Asking(s', t) || t in s'.served) && s'.readers == s.readers && Nearer(s, s', t)
  {
    if (s.grace.Scan1? || s.grace.Scan2?) && s.grace.todo != {} {
      hide Known, Asking, Leading, Apply, Enabled, Nearer;
      VisitAdvances(s, t);
    } else {
      hide OpenSections, StateOf, Flipped, VisitReader;
    }
  }

  // From any state the steps of that thread alone end the grace period that t asks for.
  lemma {:induction false} GraceEnds(s: State, t: nat) returns (states: seq<State>, steps: seq<Step>)
    requires Known(s) && (Asking(s, t) || t in s.served)
    ensures IsPath(AsWritten, states, steps) && states[0] == s && t in states[|steps|].served
    ensures states[|steps|].readers == s.readers && forall e :: e in steps ==> !e.Return? && !ByReader(e)
    decreases Rounds(s, t), Parts(s), ToVisit(s)
  {
    if t in s.served {
      states, steps := [s], [];
    } else {
      hide Enabled, Apply, Known, Leading, Rounds, Parts, ToVisit, Asking, Nearer;
      LeadingAdvances(s, t);
      var e := Leading(s);
      StepKeepsKnown(s, e);
      NearerIs(s, Apply(AsWritten, s, e), t);
      var xs, es := GraceEnds(Apply(AsWritten, s, e), t);
      states, steps := [s] + xs, [e] + es;
      assert Goes(AsWritten, s, e, xs[0]);
      OneStepMore(AsWritten, s, e, xs, es);
    }
  }

  lemma NearerIs(s: State, s': State, t: nat)
    requires Nearer(s, s', t)
    ensures || Rounds(s', t) < Rounds(s, t)
            || (Rounds(s', t) == Rounds(s, t) && Parts(s') < Parts(s))
            || (Rounds(s', t) == Rounds(s, t) && Parts(s') == Parts(s) && ToVisit(s') < ToVisit(s))
  {
  }

  lemma OneStepMore(test: ExitTest, s: State, e: Step, states: seq<State>, steps: seq<Step>)
    requires IsPath(test, states, steps) && Goes(test, s, e, states[0])
    ensures IsPath(test, [s] + states, [e] + steps)
  {
    hide Goes;
    var xs, es := [s] + states, [e] + steps;
    forall k, l | 0 <= k < |es| && l == k + 1 ensures Goes(test, xs[k], es[k], xs[l]) {
      if k > 0 {
        var i, j := k - 1, k;
        assert xs[k] == states[i] && xs[l] == states[j] && es[k] == steps[i];
      }
    }
  }

  // With the assignment in place of the test, a caller finds its sections ended when it returns,
  // whatever the threads do, if and only if no section is open when it calls.
  lemma AsWrittenWaitsExactly(run: seq<State>, made: seq<Step>, t: nat)
    requires IsRun(AsWritten, run, made) && t !in run[|made|].owed
    ensures var s := run[|made|];
      (forall states, steps :: CallReturns(AsWritten, s, t, states, steps) ==>
         AllEnded(states, steps, 0, |steps| - 1))
      <==> Waited(s) == {}
  {
    var s := run[|made|];
    RunKeepsKnown(run, made, |made|);
    var states, steps := CallGoesThrough(s, t);
    hide Known, IsRun, Waited, OpenSections;
    forall sec | sec in Waited(s) ensures sec in OpenSections(states[|steps| - 1]) {
      WaitedIsPast(s, sec);
      OpenByReaders(s, states[|steps| - 1], sec);
      OpenAreOpen(states[|steps| - 1], sec);
    }
    if Waited(s) != {} {
      var sec :| sec in Waited(s);
      assert StaysOn(steps, 0, |steps| - 1, sec.0) by { NobodyLeaves(steps, |steps| - 1, sec.0); }
      assert !AllEnded(states, steps, 0, |steps| - 1);
    }
  }

  lemma NobodyLeaves(steps: seq<Step>, j: nat, r: nat)
    requires forall e :: e in steps ==> !ByReader(e)
    ensures StaysOn(steps, 0, j, r)
  {
    forall m: nat | 0 < m < j && m < |steps| ensures steps[m] != Unregister(r) {
      assert steps[m] in steps;
    }
  }

  lemma CallGoesThrough(s: State, t: nat) returns (states: seq<State>, steps: seq<Step>)
    requires Known(s) && t !in s.owed
    ensures CallReturns(AsWritten, s, t, states, steps) && states[|steps| - 1].readers == s.readers
    ensures forall e :: e in steps ==> !ByReader(e)
  {
    StepKeepsKnown(s, Call(t));
    var called := Apply(AsWritten, s, Call(t));
    var xs, es := GraceEnds(called, t);
    var last := Apply(AsWritten, xs[|es|], Return(t));
    assert Goes(AsWritten, s, Call(t), called) && Goes(AsWritten, xs[|es|], Return(t), last);
    hide Goes, Known;
    OneStepMore(AsWritten, s, Call(t), xs, es);
    LastStep(AsWritten, [s] + xs, [Call(t)] + es, Return(t), last);
    states, steps := [s] + xs + [last], [Call(t)] + es + [Return(t)];
    forall m | 0 < m < |steps| - 1 ensures steps[m] != Return(t) {
      assert steps[m] == es[m - 1];
    }
  }

  lemma LastStep(test: ExitTest, states: seq<State>, steps: seq<Step>, e: Step, last: State)
    requires IsPath(test, states, steps) && Goes(test, states[|steps|], e, last)
    ensures IsPath(test, states + [last], steps + [e])
  {
    hide Goes;
    var xs, es := states + [last], steps + [e];
    forall k, l | 0 <= k < |es| && l == k + 1 ensures Goes(test, xs[k], es[k], xs[l]) {
      if k < |steps| {
        assert xs[k] == states[k] && xs[l] == states[l] && es[k] == steps[k];
      }
    }
  }

  // A run of this machine in which a reader is still in its section when synchronize_rcu returns:
  // one reader, one caller, and a scan that meets the reader in its section. With the pointers of
  // the original that scan would not end: see EarlyRunSpins in UrcuLists.
  const EARLY_STEPS := [Register(0), LockLoad(0), LockStore(0), Call(7), TakeGpLock, TakeWaiters, StartScan,
                        Visit(0), EndScan, FlipGp, Visit(0), EndScan, EndGrace, Return(7)]

  ghost function EarlyState(k: nat): State {
    var open := Reader(1, None, true, 1);
    var s3 := State(map[0 := open], 1, {0}, {}, {}, [], {}, {}, Free, {}, map[]);
    var s6 := s3.(grace := Moved, batch := {7}, owed := map[7 := {(0, 1)}]);
    var s8 := s6.(grace := Scan1({}), registry := {}, cur := {0}, atScan := {(0, 1)});
    match k
    case 0 => s3.(readers := map[0 := Reader(0, None, false, 0)], registry := {})
    case 1 => s3.(readers := map[0 := Reader(0, None, true, 0)])
    case 2 => s3.(readers := map[0 := Reader(0, Some(1), true, 0)])
    case 3 => s3
    case 4 => s3.(queue := [7], owed := map[7 := {(0, 1)}])
    case 5 => s3.(queue := [7], owed := map[7 := {(0, 1)}], grace := Locked)
    case 6 => s6
    case 7 => s6.(grace := Scan1({0}), atScan := {(0, 1)})
    case 8 => s8
    case 9 => s8.(grace := Flip)
    case 10 => s8.(gp := Flipped(1), grace := Scan2({0}))
    case 11 => s8.(gp := Flipped(1), grace := Scan2({}))
    case 12 => s8.(gp := Flipped(1), grace := Splice, cur := {})
    case 13 => s8.(gp := Flipped(1), grace := Free, cur := {}, served := {7}, batch := {})
    case _ => s8.(gp := Flipped(1), grace := Free, cur := {}, batch := {}, owed := map[])
  }

  ghost predicate StepTo(k: nat) {
    k < 14 && Enabled(EarlyState(k), EARLY_STEPS[k]) &&
    Apply(AsWritten, EarlyState(k), EARLY_STEPS[k]) == EarlyState(k + 1)
  }

  lemma EarlyLoad()
    ensures StepTo(0) && StepTo(1)
  {
    hide OpenSections, Waited, StateOf, Flipped;
  }

  lemma EarlyStore()
    ensures StepTo(2)
  {
    hide OpenSections, Waited, StateOf, Flipped;
  }

  lemma OneOpen(k: nat)
    requires 3 <= k <= 14
    ensures OpenSections(EarlyState(k)) == Waited(EarlyState(k)) == {(0, 1)}
  {
    forall sec ensures (sec in OpenSections(EarlyState(k)) <==> sec == (0, 1)) && (sec in Waited(EarlyState(k)) <==> sec == (0, 1)) {
      OpenAreOpen(EarlyState(k), sec);
    }
  }

  lemma EarlyCall()
    ensures StepTo(3) && StepTo(4)
  {
    hide OpenSections, Waited, StateOf, Flipped;
    OneOpen(3);
  }

  lemma EarlyStartScan()
    ensures StepTo(5) && StepTo(6)
  {
    hide OpenSections, Waited, StateOf, Flipped;
    OneOpen(6);
  }

  lemma EarlyVisit()
    ensures StepTo(7) && StepTo(10)
  {
    hide OpenSections, Waited, StateOf, Flipped;
    EarlyCurrent();
    FlipPhase(1, 1);
    var none: set<nat> := {};
    assert {0} - {0} == none && none + {0} == {0};
  }

  lemma EarlyExit()
    ensures StepTo(8) && StepTo(11)
  {
    hide OpenSections, Waited, StateOf, Flipped;
  }

  lemma EarlyFlip()
    ensures StepTo(9)
  {
    hide OpenSections, Waited, StateOf, Flipped;
  }

  lemma EarlyCurrent()
    ensures StateOf(1, 1) == ActiveCurrent && IsGpCtr(1)
  {
  }

  lemma EarlyEnd()
    ensures StepTo(12)
  {
    hide OpenSections, Waited, StateOf, Flipped;
    var none: set<nat> := {};
    assert none + {7} == {7} && none + none == none;
  }

  lemma EarlyReturn()
    ensures StepTo(13)
  {
    hide OpenSections, Waited, StateOf, Flipped;
    var none: set<nat> := {};
    assert {7} - {7} == none;
    assert map[7 := {(0, 1)}] - {7} == map[];
  }

  lemma AsWrittenReturnsEarly()
    ensures exists states, steps, i, j ::
              && IsRun(AsWritten, states, steps) && 0 <= i < j < |steps|
              && steps[i] == Call(7) && steps[j] == Return(7)
              && !AllEnded(states, steps, i, j)
  {
    hide OpenSections, Waited, Enabled, Apply, EarlyState, Init;
    var states := seq(15, k requires 0 <= k < 15 => EarlyState(k));
    EarlyRun();
    OneOpen(3);
    OneOpen(13);
    forall k | 0 <= k < |EARLY_STEPS|
      ensures Enabled(states[k], EARLY_STEPS[k]) && states[k + 1] == Apply(AsWritten, states[k], EARLY_STEPS[k])
    {
      assert StepTo(k);
    }
    assert IsRun(AsWritten, states, EARLY_STEPS);
    assert EARLY_STEPS[3] == Call(7) && EARLY_STEPS[13] == Return(7);
    assert (0, 1) in Waited(states[3]) && StaysOn(EARLY_STEPS, 3, 13, 0) && (0, 1) in OpenSections(states[13]);
  }

  lemma EarlyRun()
    ensures forall k: nat :: k < 14 ==> StepTo(k)
    ensures Init(EarlyState(0))
  {
    hide StepTo;
    EarlyLoad();
    EarlyStore();
    EarlyCall();
    EarlyStartScan();
    EarlyVisit();
    EarlyExit();
    EarlyFlip();
    EarlyEnd();
    EarlyReturn();
    EarlyStart();
  }

  lemma EarlyStart()
    ensures Init(EarlyState(0))
  {
  }
}
