// misc/include/blocking_queue.h: a queue behind two semaphores, used by any number of threads.
//
// Each step of a thread is one semaphore operation or one access to the deque.
module BlockingQueues {

  // Where a thread stands inside put, take(), take(T&) or size().
  datatype Place =
    | Outside
    | PutLock(v: int)        // before sem_wait(&mutex_)
    | PutPush(v: int)        // holding the mutex, before emplace_back
    | PutUnlock              // after emplace_back
    | PutPost                // after sem_post(&mutex_), before sem_post(&items_)
    | TakeWait               // before sem_wait(&items_)
    | TakeLock               // after it, before sem_wait(&mutex_)
    | TakePop                // holding the mutex, before front and pop_front
    | TakeUnlock(taken: int) // after pop_front, with the value to return
    | TryLock                // take(T&): before sem_wait(&mutex_)
    | TryLook                // holding the mutex, before size
    | TryUnlock(some: bool)  // after size; take() follows if there was something
    | SizeLock
    | SizeLook
    | SizeUnlock(size: nat)  // after size, with the number to return

  datatype State = State(
    mutex: nat,              // value of mutex_
    items: nat,              // value of items_
    queue: seq<int>,         // the deque
    at: map<nat, Place>,     // the threads
    pushed: seq<int>,        // history: all values put, in the order of emplace_back
    popped: seq<int>         // history: all values taken, in the order of pop_front
  )

  datatype Step =
    | StartPut(t: nat, v: int)
    | StartTake(t: nat)
    | StartTry(t: nat)
    | StartSize(t: nat)
    | Move(t: nat)           // the next operation of a thread inside

  predicate Enabled(s: State, step: Step) {
    step.t in s.at &&
    if step.Move? then
      match s.at[step.t]
      case Outside => false
      case PutLock(_) => s.mutex > 0
      case TakeWait => s.items > 0
      case TakeLock => s.mutex > 0
      case TryLock => s.mutex > 0
      case SizeLock => s.mutex > 0
      case _ => true
    else s.at[step.t].Outside?
  }

  // front and pop_front of an empty deque, which are undefined.
  predicate PopsEmpty(s: State, step: Step)
    requires Enabled(s, step)
  {
    step.Move? && s.at[step.t] == TakePop && s.queue == []
  }

  function Go(s: State, t: nat, p: Place): State {
    s.(at := s.at[t := p])
  }

  function Apply(s: State, step: Step): State
    requires Enabled(s, step) && !PopsEmpty(s, step)
  {
    var t := step.t;
    match step
    case StartPut(_, v) => Go(s, t, PutLock(v))
    case StartTake(_) => Go(s, t, TakeWait)
    case StartTry(_) => Go(s, t, TryLock)
    case StartSize(_) => Go(s, t, SizeLock)
    case Move(_) =>
      match s.at[t]
      case PutLock(v) => Go(s, t, PutPush(v)).(mutex := s.mutex - 1)
      case PutPush(v) => Go(s, t, PutUnlock).(queue := s.queue + [v], pushed := s.pushed + [v])
      case PutUnlock => Go(s, t, PutPost).(mutex := s.mutex + 1)
      case PutPost => Go(s, t, Outside).(items := s.items + 1)
      case TakeWait => Go(s, t, TakeLock).(items := s.items - 1)
      case TakeLock => Go(s, t, TakePop).(mutex := s.mutex - 1)
      case TakePop => Go(s, t, TakeUnlock(s.queue[0])).(queue := s.queue[1..], popped := s.popped + [s.queue[0]])
      case TakeUnlock(_) => Go(s, t, Outside).(mutex := s.mutex + 1)
      case TryLock => Go(s, t, TryLook).(mutex := s.mutex - 1)
      case TryLook => Go(s, t, TryUnlock(|s.queue| > 0))
      case TryUnlock(some) => Go(s, t, if some then TakeWait else Outside).(mutex := s.mutex + 1)
      case SizeLock => Go(s, t, SizeLook).(mutex := s.mutex - 1)
      case SizeLook => Go(s, t, SizeUnlock(|s.queue|))
      case SizeUnlock(_) => Go(s, t, Outside).(mutex := s.mutex + 1)
  }

  ghost predicate Init(s: State) {
    && s.mutex == 1 && s.items == 0 && s.queue == s.pushed == s.popped == []
    && forall t :: t in s.at ==> s.at[t] == Outside
  }

  // ---------------------------------------------------------------------------------------
  // What every step keeps

  predicate Holds(p: Place) {
    p.PutPush? || p.PutUnlock? || p.TakePop? || p.TakeUnlock? || p.TryLook? || p.TryUnlock? || p.SizeLook? || p.SizeUnlock?
  }

  // A value is in the deque that items_ does not count yet.
  predicate Unposted(p: Place) {
    p.PutUnlock? || p.PutPost?
  }

  // A value is in the deque that items_ no longer counts.
  predicate Claimed(p: Place) {
    p.TakeLock? || p.TakePop?
  }

  ghost function Where(at: map<nat, Place>, p: Place -> bool): set<nat> {
    set t | t in at && p(at[t])
  }

  ghost predicate Inv(s: State) {
    && s.mutex + |Where(s.at, Holds)| == 1
    && |s.queue| == s.items + |Where(s.at, Unposted)| + |Where(s.at, Claimed)|
    && s.popped + s.queue == s.pushed
  }

  lemma WhereMoved(at: map<nat, Place>, t: nat, q: Place, p: Place -> bool)
    requires t in at
    ensures |Where(at[t := q], p)| == |Where(at, p)| - (if p(at[t]) then 1 else 0) + (if p(q) then 1 else 0)
  {
    WhereApart(at, t, p);
    WhereApart(at[t := q], t, p);
    assert Others(at[t := q], t, p) == Others(at, t, p);
  }

  ghost function Others(at: map<nat, Place>, t: nat, p: Place -> bool): set<nat> {
    set u | u in at && u != t && p(at[u])
  }

  lemma WhereApart(at: map<nat, Place>, t: nat, p: Place -> bool)
    requires t in at
    ensures |Where(at, p)| == |Others(at, t, p)| + if p(at[t]) then 1 else 0
  {
    var rest := Others(at, t, p);
    if p(at[t]) {
      assert Where(at, p) == rest + {t};
    } else {
      assert Where(at, p) == rest;
    }
  }

  lemma InitInv(s: State)
    requires Init(s)
    ensures Inv(s)
  {
    assert Where(s.at, Holds) == Where(s.at, Unposted) == Where(s.at, Claimed) == {};
  }

  // take never reads an empty deque.
  lemma NeverEmpty(s: State, t: nat)
    requires Inv(s) && t in s.at && s.at[t] == TakePop
    ensures s.queue != []
  {
    assert t in Where(s.at, Claimed);
  }

  predicate InPut(p: Place) {
    p.PutLock? || p.PutPush? || p.PutUnlock? || p.PutPost?
  }

  predicate InTake(p: Place) {
    p.TakeWait? || p.TakeLock? || p.TakePop? || p.TakeUnlock?
  }

  lemma CountsMoved(s: State, t: nat, q: Place)
    requires t in s.at
    ensures |Where(s.at[t := q], Holds)| == |Where(s.at, Holds)| - (if Holds(s.at[t]) then 1 else 0) + (if Holds(q) then 1 else 0)
    ensures |Where(s.at[t := q], Unposted)| == |Where(s.at, Unposted)| - (if Unposted(s.at[t]) then 1 else 0) + (if Unposted(q) then 1 else 0)
    ensures |Where(s.at[t := q], Claimed)| == |Where(s.at, Claimed)| - (if Claimed(s.at[t]) then 1 else 0) + (if Claimed(q) then 1 else 0)
  {
    hide Where;
    WhereMoved(s.at, t, q, Holds);
    WhereMoved(s.at, t, q, Unposted);
    WhereMoved(s.at, t, q, Claimed);
  }

  lemma PutKeepsInv(s: State, t: nat)
    requires Inv(s) && Enabled(s, Move(t)) && InPut(s.at[t])
    ensures Inv(Apply(s, Move(t)))
  {
    hide Where;
    CountsMoved(s, t, Apply(s, Move(t)).at[t]);
  }

  lemma TakeKeepsInv(s: State, t: nat)
    requires Inv(s) && Enabled(s, Move(t)) && InTake(s.at[t])
    ensures !PopsEmpty(s, Move(t)) && Inv(Apply(s, Move(t)))
  {
    if s.at[t] == TakePop {
      NeverEmpty(s, t);
    }
    hide Where;
    CountsMoved(s, t, Apply(s, Move(t)).at[t]);
  }

  lemma StepKeepsInv(s: State, step: Step)
    requires Inv(s) && Enabled(s, step)
    ensures !PopsEmpty(s, step) && Inv(Apply(s, step))
  {
    hide Where;
    if step.Move? && InPut(s.at[step.t]) {
      PutKeepsInv(s, step.t);
    } else if step.Move? && InTake(s.at[step.t]) {
      TakeKeepsInv(s, step.t);
    } else {
      CountsMoved(s, step.t, Apply(s, step).at[step.t]);
    }
  }

  // ---------------------------------------------------------------------------------------
  // Runs

  // Threads move in any order. After a pop of an empty deque anything could follow.
  ghost predicate IsRun(states: seq<State>, steps: seq<Step>) {
    && |states| == |steps| + 1 && Init(states[0])
    && forall k :: 0 <= k < |steps| ==>
         Enabled(states[k], steps[k]) && (PopsEmpty(states[k], steps[k]) || states[k + 1] == Apply(states[k], steps[k]))
  }

  lemma {:induction false} RunKeepsInv(states: seq<State>, steps: seq<Step>, k: nat)
    requires IsRun(states, steps) && k <= |steps|
    ensures Inv(states[k])
  {
    hide Inv, Enabled, Apply, Init;
    if k == 0 {
      InitInv(states[0]);
    } else {
      RunKeepsInv(states, steps, k - 1);
      StepKeepsInv(states[k - 1], steps[k - 1]);
    }
  }

  // In any run: no pop finds the deque empty, values come out in the order they went in, none lost
  // or doubled, and the deque holds exactly those put and not yet taken.
  lemma FirstInFirstOut(states: seq<State>, steps: seq<Step>, k: nat)
    requires IsRun(states, steps) && k <= |steps|
    ensures states[k].popped <= states[k].pushed
    ensures states[k].queue == states[k].pushed[|states[k].popped|..]
    ensures k < |steps| ==> !PopsEmpty(states[k], steps[k])
  {
    hide Apply, Init;
    RunKeepsInv(states, steps, k);
    if k < |steps| {
      StepKeepsInv(states[k], steps[k]);
    }
  }

  // No wakeup is lost: when no thread inside can move, every thread inside waits in take, and if
  // there is one the deque is empty.
  lemma NoLostWakeup(states: seq<State>, steps: seq<Step>, k: nat, waiting: nat)
    requires IsRun(states, steps) && k <= |steps|
    requires forall t :: t in states[k].at ==> !Enabled(states[k], Move(t))
    requires waiting in states[k].at && !states[k].at[waiting].Outside?
    ensures states[k].queue == []
    ensures forall t :: t in states[k].at ==> states[k].at[t].Outside? || states[k].at[t].TakeWait?
  {
    hide Apply, Init;
    RunKeepsInv(states, steps, k);
    var s := states[k];
    forall t | t in s.at ensures !Holds(s.at[t]) && !Unposted(s.at[t]) {
      assert !Enabled(s, Move(t));
    }
    assert Where(s.at, Holds) == {} && Where(s.at, Unposted) == {};
    forall t | t in s.at ensures s.at[t].Outside? || (s.at[t].TakeWait? && s.items == 0) {
      assert !Enabled(s, Move(t));
    }
    assert Where(s.at, Claimed) == {};
  }

  // ---------------------------------------------------------------------------------------
  // What each operation does, over runs

  // Thread t is inside one operation in all states after the i-th and before the j-th.
  ghost predicate Busy(states: seq<State>, t: nat, i: nat, j: nat) {
    forall m :: i < m < j && m < |states| ==> t in states[m].at && !states[m].at[t].Outside?
  }

  function Grown(before: seq<int>, after: seq<int>): seq<int> {
    if |before| <= |after| then after[|before|..] else []
  }

  // What t itself has added to the deque, or taken off, if the step is its own.
  function Adds(s: State, step: Step, s': State, t: nat): seq<int> {
    if step.t == t then Grown(s.pushed, s'.pushed) else []
  }

  function Removes(s: State, step: Step, s': State, t: nat): seq<int> {
    if step.t == t then Grown(s.popped, s'.popped) else []
  }

  // The values that t has added in the steps from i up to j, and those it has taken off.
  ghost function Pushes(states: seq<State>, steps: seq<Step>, t: nat, i: nat, j: nat): seq<int>
    requires j < |states| && j <= |steps|
  {
    if j <= i then [] else Pushes(states, steps, t, i, j - 1) + Adds(states[j - 1], steps[j - 1], states[j], t)
  }

  ghost function Pops(states: seq<State>, steps: seq<Step>, t: nat, i: nat, j: nat): seq<int>
    requires j < |states| && j <= |steps|
  {
    if j <= i then [] else Pops(states, steps, t, i, j - 1) + Removes(states[j - 1], steps[j - 1], states[j], t)
  }

  lemma Stepped(states: seq<State>, steps: seq<Step>, k: nat)
    requires IsRun(states, steps) && k < |steps|
    ensures |states| == |steps| + 1
    ensures Enabled(states[k], steps[k]) && !PopsEmpty(states[k], steps[k]) && states[k + 1] == Apply(states[k], steps[k])
  {
    hide Apply, Init, Enabled;
    FirstInFirstOut(states, steps, k);
  }

  // What a step does for t: nothing, unless it is its own.
  lemma StepOf(s: State, step: Step, t: nat)
    requires Enabled(s, step) && !PopsEmpty(s, step) && t in s.at
    ensures var s' := Apply(s, step);
      && t in s'.at && (step.t != t ==> s'.at[t] == s.at[t])
      && Adds(s, step, s', t) == (if step.t == t && step.Move? && s.at[t].PutPush? then [s.at[t].v] else [])
      && Removes(s, step, s', t) == if step.t == t && step.Move? && s.at[t].TakePop? then [s.queue[0]] else []
  {
  }

  // A thread in put(v) has done nothing until it has pushed; then it has pushed v, once, and so has
  // one that has returned.
  ghost predicate PutAt(p: Place, v: int, pushes: seq<int>, pops: seq<int>) {
    && pops == []
    && match p
       case PutLock(w) => w == v && pushes == []
       case PutPush(w) => w == v && pushes == []
       case PutUnlock => pushes == [v]
       case PutPost => pushes == [v]
       case Outside => pushes == [v]
       case _ => false
  }

  lemma PutGoesOn(s: State, step: Step, t: nat, v: int, pushes: seq<int>, pops: seq<int>)
    requires Enabled(s, step) && !PopsEmpty(s, step) && t in s.at && !s.at[t].Outside? && PutAt(s.at[t], v, pushes, pops)
    ensures var s' := Apply(s, step);
      t in s'.at && PutAt(s'.at[t], v, pushes + Adds(s, step, s', t), pops + Removes(s, step, s', t))
  {
    StepOf(s, step, t);
    hide Adds, Removes;
    assert pushes + [] == pushes && pops + [] == pops;
  }

  lemma {:induction false} PutPushesOnce(states: seq<State>, steps: seq<Step>, i: nat, j: nat, t: nat, v: int)
    requires IsRun(states, steps) && i < j <= |steps| && steps[i] == StartPut(t, v) && Busy(states, t, i, j)
    ensures t in states[j].at
    ensures PutAt(states[j].at[t], v, Pushes(states, steps, t, i, j), Pops(states, steps, t, i, j))
  {
    hide Apply, Enabled, PopsEmpty, Adds, Removes;
    var k := j - 1;
    Stepped(states, steps, k);
    hide IsRun;
    if i < k {
      PutPushesOnce(states, steps, i, k, t, v);
      hide PutAt;
      PutGoesOn(states[k], steps[k], t, v, Pushes(states, steps, t, i, k), Pops(states, steps, t, i, k));
    } else {
      OpBegins(states[k], steps[k], t);
    }
  }

  lemma OpBegins(s: State, step: Step, t: nat)
    requires Enabled(s, step) && !PopsEmpty(s, step) && step.t == t && !step.Move?
    ensures var s' := Apply(s, step);
      && t in s'.at && Adds(s, step, s', t) == Removes(s, step, s', t) == []
      && s'.at[t] == match step
                     case StartPut(_, v) => PutLock(v)
                     case StartTake(_) => TakeWait
                     case StartTry(_) => TryLock
                     case StartSize(_) => SizeLock
  {
    StepOf(s, step, t);
  }

  // A thread in take() pops one value, and that is what it returns.
  ghost predicate TakeAt(p: Place, pushes: seq<int>, pops: seq<int>) {
    && pushes == []
    && match p
       case TakeWait => pops == []
       case TakeLock => pops == []
       case TakePop => pops == []
       case TakeUnlock(taken) => pops == [taken]
       case Outside => |pops| == 1
       case _ => false
  }

  lemma TakeGoesOn(s: State, step: Step, t: nat, pushes: seq<int>, pops: seq<int>)
    requires Enabled(s, step) && !PopsEmpty(s, step) && t in s.at && !s.at[t].Outside? && TakeAt(s.at[t], pushes, pops)
    ensures var s' := Apply(s, step);
      t in s'.at && TakeAt(s'.at[t], pushes + Adds(s, step, s', t), pops + Removes(s, step, s', t))
  {
    StepOf(s, step, t);
    hide Adds, Removes;
    assert pushes + [] == pushes && pops + [] == pops;
  }

  lemma {:induction false} TakePopsOnce(states: seq<State>, steps: seq<Step>, i: nat, j: nat, t: nat)
    requires IsRun(states, steps) && i < j <= |steps| && steps[i] == StartTake(t) && Busy(states, t, i, j)
    ensures t in states[j].at
    ensures TakeAt(states[j].at[t], Pushes(states, steps, t, i, j), Pops(states, steps, t, i, j))
  {
    hide Apply, Enabled, PopsEmpty, Adds, Removes;
    var k := j - 1;
    Stepped(states, steps, k);
    hide IsRun;
    if i < k {
      TakePopsOnce(states, steps, i, k, t);
      hide TakeAt;
      TakeGoesOn(states[k], steps[k], t, Pushes(states, steps, t, i, k), Pops(states, steps, t, i, k));
    } else {
      OpBegins(states[k], steps[k], t);
    }
  }

  // A thread in take(T&) that has looked at the deque: if that was empty it pops nothing and
  // returns; otherwise it goes on as take() does.
  ghost predicate Looked(p: Place, some: bool, pushes: seq<int>, pops: seq<int>) {
    if p.TryUnlock? then p.some == some && pushes == pops == []
    else if some then TakeAt(p, pushes, pops)
    else p.Outside? && pushes == pops == []
  }

  lemma LookedGoesOn(s: State, step: Step, t: nat, some: bool, pushes: seq<int>, pops: seq<int>)
    requires Enabled(s, step) && !PopsEmpty(s, step) && t in s.at && !s.at[t].Outside? && Looked(s.at[t], some, pushes, pops)
    ensures var s' := Apply(s, step);
      t in s'.at && Looked(s'.at[t], some, pushes + Adds(s, step, s', t), pops + Removes(s, step, s', t))
  {
    if s.at[t].TryUnlock? {
      StepOf(s, step, t);
      hide Adds, Removes;
    } else {
      TakeGoesOn(s, step, t, pushes, pops);
      hide TakeAt, Adds, Removes;
      LeavesTry(s, step, t);
    }
  }

  lemma LeavesTry(s: State, step: Step, t: nat)
    requires Enabled(s, step) && !PopsEmpty(s, step) && t in s.at && InTake(s.at[t])
    ensures t in Apply(s, step).at && !Apply(s, step).at[t].TryUnlock?
  {
  }

  // t looks at the deque in step m.
  ghost predicate LooksAt(states: seq<State>, steps: seq<Step>, t: nat, m: nat) {
    m < |steps| && m < |states| && steps[m] == Move(t) && t in states[m].at && states[m].at[t].TryLook?
  }

  // After its look nothing but what it saw then decides what take(T&) does; and it looks only once.
  lemma {:induction false} LookDecides(states: seq<State>, steps: seq<Step>, t: nat, m: nat, j: nat)
    requires IsRun(states, steps) && m < j <= |steps| && Busy(states, t, m, j) && LooksAt(states, steps, t, m)
    ensures t in states[j].at && !states[j].at[t].TryLook?
    ensures Looked(states[j].at[t], states[m].queue != [], Pushes(states, steps, t, m, j), Pops(states, steps, t, m, j))
  {
    hide Apply, Enabled, PopsEmpty, Adds, Removes, Looked;
    var k := j - 1;
    Stepped(states, steps, k);
    hide IsRun;
    if m < k {
      LookDecides(states, steps, t, m, k);
      LookedGoesOn(states[k], steps[k], t, states[m].queue != [], Pushes(states, steps, t, m, k), Pops(states, steps, t, m, k));
      OnlyLooked(states[j].at[t]);
    } else {
      Looking(states[k], t);
      var adds, removes := Adds(states[k], steps[k], states[j], t), Removes(states[k], steps[k], states[j], t);
      assert [] + adds == adds && [] + removes == removes;
    }
  }

  lemma OnlyLooked(p: Place)
    ensures forall some, pushes, pops :: Looked(p, some, pushes, pops) ==> !p.TryLook?
  {
  }

  lemma Looking(s: State, t: nat)
    requires Enabled(s, Move(t)) && !PopsEmpty(s, Move(t)) && s.at[t].TryLook?
    ensures var s' := Apply(s, Move(t));
      && t in s'.at && !s'.at[t].TryLook?
      && Looked(s'.at[t], s.queue != [], Adds(s, Move(t), s', t), Removes(s, Move(t), s', t))
  {
    StepOf(s, Move(t), t);
  }

  // And it does look: until then it has done nothing.
  lemma {:induction false} TryLooks(states: seq<State>, steps: seq<Step>, i: nat, j: nat, t: nat)
    requires IsRun(states, steps) && i < j <= |steps| && steps[i] == StartTry(t) && Busy(states, t, i, j)
    ensures t in states[j].at
    ensures BeforeLook(states[j].at[t], Pushes(states, steps, t, i, j), Pops(states, steps, t, i, j))
            || exists m :: HasLooked(states, steps, t, i, m, j)
  {
    hide Apply, Enabled, PopsEmpty, Adds, Removes, BeforeLook;
    var k := j - 1;
    Stepped(states, steps, k);
    hide IsRun;
    if i < k {
      TryLooks(states, steps, i, k, t);
      StepOf(states[k], steps[k], t);
      if m :| HasLooked(states, steps, t, i, m, k) {
        assert HasLooked(states, steps, t, i, m, j);
      } else if LooksAt(states, steps, t, k) {
        assert HasLooked(states, steps, t, i, k, j) by { NothingYet(states[k].at[t]); }
      } else {
        GoesToLook(states[k], steps[k], t, Pushes(states, steps, t, i, k), Pops(states, steps, t, i, k));
      }
    } else {
      OpBegins(states[k], steps[k], t);
      AtStart();
    }
  }

  ghost predicate BeforeLook(p: Place, pushes: seq<int>, pops: seq<int>) {
    (p.TryLock? || p.TryLook?) && pushes == pops == []
  }

  ghost predicate HasLooked(states: seq<State>, steps: seq<Step>, t: nat, i: nat, m: nat, j: nat)
    requires j < |states| && j <= |steps|
  {
    i < m < j && LooksAt(states, steps, t, m) && Pushes(states, steps, t, i, m) == Pops(states, steps, t, i, m) == []
  }

  lemma AtStart()
    ensures BeforeLook(TryLock, [], [])
  {
  }

  lemma NothingYet(p: Place)
    ensures forall pushes, pops :: BeforeLook(p, pushes, pops) ==> pushes == pops == []
  {
  }

  lemma GoesToLook(s: State, step: Step, t: nat, pushes: seq<int>, pops: seq<int>)
    requires Enabled(s, step) && !PopsEmpty(s, step) && t in s.at && BeforeLook(s.at[t], pushes, pops)
    requires !(step == Move(t) && s.at[t].TryLook?)
    ensures var s' := Apply(s, step);
      t in s'.at && BeforeLook(s'.at[t], pushes + Adds(s, step, s', t), pops + Removes(s, step, s', t))
  {
    StepOf(s, step, t);
    hide Adds, Removes;
  }

  // A thread in size() returns the length of the deque in some state since its call, and leaves it
  // as it is.
  ghost predicate SizeAt(states: seq<State>, i: nat, j: nat, p: Place, pushes: seq<int>, pops: seq<int>) {
    && pushes == pops == []
    && match p
       case SizeLock => true
       case SizeLook => true
       case SizeUnlock(size) => exists m :: i < m < j && m < |states| && size == |states[m].queue|
       case Outside => true
       case _ => false
  }

  lemma {:induction false} SizeCounts(states: seq<State>, steps: seq<Step>, i: nat, j: nat, t: nat)
    requires IsRun(states, steps) && i < j <= |steps| && steps[i] == StartSize(t) && Busy(states, t, i, j)
    ensures t in states[j].at
    ensures SizeAt(states, i, j, states[j].at[t], Pushes(states, steps, t, i, j), Pops(states, steps, t, i, j))
  {
    hide Apply, Enabled, PopsEmpty, Adds, Removes;
    var k := j - 1;
    Stepped(states, steps, k);
    hide IsRun;
    if i < k {
      SizeCounts(states, steps, i, k, t);
      hide SizeAt;
      SizeGoesOn(states, steps, i, k, t, Pushes(states, steps, t, i, k), Pops(states, steps, t, i, k));
    } else {
      OpBegins(states[k], steps[k], t);
    }
  }

  lemma SizeGoesOn(states: seq<State>, steps: seq<Step>, i: nat, k: nat, t: nat, pushes: seq<int>, pops: seq<int>)
    requires i < k < |steps| && |states| == |steps| + 1 && t in states[k].at && !states[k].at[t].Outside?
    requires Enabled(states[k], steps[k]) && !PopsEmpty(states[k], steps[k]) && states[k + 1] == Apply(states[k], steps[k])
    requires SizeAt(states, i, k, states[k].at[t], pushes, pops)
    ensures var s, s' := states[k], states[k + 1];
      t in s'.at && SizeAt(states, i, k + 1, s'.at[t], pushes + Adds(s, steps[k], s', t), pops + Removes(s, steps[k], s', t))
  {
    StepOf(states[k], steps[k], t);
    hide Adds, Removes;
    var p, q := states[k].at[t], states[k + 1].at[t];
    if q.SizeUnlock? {
      var m :| i < m <= k && q.size == |states[m].queue|;
      assert i < m < k + 1 && m < |states|;
    }
  }

  // The places of each operation.
  predicate Suits(start: Step, p: Place) {
    match start
    case StartPut(_, v) => InPut(p)
    case StartTake(_) => InTake(p)
    case StartTry(_) => p.TryLock? || p.TryLook? || p.TryUnlock? || InTake(p)
    case StartSize(_) => p.SizeLock? || p.SizeLook? || p.SizeUnlock?
    case Move(_) => false
  }

  // A thread inside has begun the operation it is in.
  lemma {:induction false} Began(states: seq<State>, steps: seq<Step>, k: nat, t: nat) returns (i: nat)
    requires IsRun(states, steps) && k <= |steps| && t in states[k].at && !states[k].at[t].Outside?
    ensures i < k && steps[i].t == t && Suits(steps[i], states[k].at[t]) && Busy(states, t, i, k)
  {
    var j := k - 1;
    Stepped(states, steps, j);
    KnownBefore(states[j], steps[j], t);
    if steps[j].t == t && !steps[j].Move? {
      i := j;
    } else {
      i := Began(states, steps, j, t);
      hide IsRun;
      if steps[j].t != t {
        StepOf(states[j], steps[j], t);
      }
    }
  }

  lemma KnownBefore(s: State, step: Step, t: nat)
    requires Enabled(s, step) && !PopsEmpty(s, step) && t in Apply(s, step).at
    ensures t in s.at
  {
  }

  // The only steps that change the deque.
  lemma PushesIn(s: State, step: Step)
    requires Enabled(s, step) && !PopsEmpty(s, step) && Apply(s, step).pushed != s.pushed
    ensures step.Move? && step.t in s.at && s.at[step.t].PutPush? && Apply(s, step).pushed == s.pushed + [s.at[step.t].v]
  {
  }

  lemma PopsIn(s: State, step: Step)
    requires Enabled(s, step) && !PopsEmpty(s, step) && Apply(s, step).popped != s.popped
    ensures step.Move? && step.t in s.at && s.at[step.t].TakePop? && s.queue != []
    ensures var s' := Apply(s, step);
      && s'.popped == s.popped + [s.queue[0]]
      && step.t in s'.at && s'.at[step.t] == TakeUnlock(s.queue[0])
  {
  }

  // Conversely all that is pushed is the argument of a put that had pushed nothing before.
  lemma PushedByPuts(states: seq<State>, steps: seq<Step>, k: nat) returns (i: nat)
    requires IsRun(states, steps) && k < |steps| && states[k + 1].pushed != states[k].pushed
    ensures i < k && steps[i].StartPut? && steps[i].t == steps[k].t && Busy(states, steps[k].t, i, k + 1)
    ensures states[k + 1].pushed == states[k].pushed + [steps[i].v] && Pushes(states, steps, steps[k].t, i, k) == []
  {
    var t := steps[k].t;
    Stepped(states, steps, k);
    PushesIn(states[k], steps[k]);
    hide IsRun, Apply, Enabled, PopsEmpty, Adds, Removes;
    i := Began(states, steps, k, t);
    PutPushesOnce(states, steps, i, k, t, steps[i].v);
  }

  lemma BusyFrom(states: seq<State>, t: nat, i: nat, m: nat, j: nat)
    requires Busy(states, t, i, j) && i <= m
    ensures Busy(states, t, m, j)
  {
  }

  lemma Regroup(a: seq<int>, b: seq<int>, c: seq<int>)
    ensures a + b + c == a + (b + c)
  {
  }

  lemma {:induction false} PopsSum(states: seq<State>, steps: seq<Step>, t: nat, i: nat, m: nat, j: nat)
    requires i <= m <= j <= |steps| && j < |states|
    ensures Pops(states, steps, t, i, j) == Pops(states, steps, t, i, m) + Pops(states, steps, t, m, j)
  {
    if m < j {
      PopsSum(states, steps, t, i, m, j - 1);
      var last := Removes(states[j - 1], steps[j - 1], states[j], t);
      assert Pops(states, steps, t, i, j) == Pops(states, steps, t, i, j - 1) + last;
      assert Pops(states, steps, t, m, j) == Pops(states, steps, t, m, j - 1) + last;
      hide Pops, Removes;
      Regroup(Pops(states, steps, t, i, m), Pops(states, steps, t, m, j - 1), last);
    }
  }

  lemma NothingTried(states: seq<State>, steps: seq<Step>, i: nat, k: nat, t: nat)
    requires IsRun(states, steps) && i < k <= |steps| && steps[i] == StartTry(t) && Busy(states, t, i, k)
    requires t in states[k].at && states[k].at[t].TakePop?
    ensures Pops(states, steps, t, i, k) == []
  {
    hide Busy, Pops, Pushes, Enabled, Apply, Init;
    TryLooks(states, steps, i, k, t);
    var m :| HasLooked(states, steps, t, i, m, k);
    BusyFrom(states, t, i, m, k);
    LookDecides(states, steps, t, m, k);
    PopsSum(states, steps, t, i, m, k);
  }

  // And all that is popped is the result of a take() or take(T&) that had popped nothing before.
  lemma PoppedByTakes(states: seq<State>, steps: seq<Step>, k: nat) returns (i: nat)
    requires IsRun(states, steps) && k < |steps| && states[k + 1].popped != states[k].popped
    ensures i < k && (steps[i].StartTake? || steps[i].StartTry?) && steps[i].t == steps[k].t
    ensures Busy(states, steps[k].t, i, k + 1) && Pops(states, steps, steps[k].t, i, k) == []
    ensures steps[k].t in states[k + 1].at && states[k + 1].at[steps[k].t].TakeUnlock? && states[k].queue != []
    ensures states[k + 1].at[steps[k].t].taken == states[k].queue[0] && states[k + 1].popped == states[k].popped + [states[k].queue[0]]
  {
    var t := steps[k].t;
    Stepped(states, steps, k);
    PopsIn(states[k], steps[k]);
    hide IsRun, Apply, Enabled, PopsEmpty, Adds, Removes;
    hide Busy, Pops;
    i := Began(states, steps, k, t);
    if steps[i].StartTake? {
      TakePopsOnce(states, steps, i, k, t);
    } else {
      NothingTried(states, steps, i, k, t);
    }
  }
}
