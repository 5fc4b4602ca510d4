# Verified models of the coroutine runtime, RCU and the algorithms

Dafny models of the parts of this repository whose correctness is not evident from reading them,
with proofs of what they are meant to do. `dafny verify dfyconfig.toml` checks everything. Code that
changes things in place is modelled in place: classes with the original's fields, loops with
invariants, arrays where the original has vectors it writes to. Each file names the source it models.

| file | source | what it is about |
|---|---|---|
| `collections.dfy` | | optional values and sizes of sets, for several of the others |
| `inorder.dfy` | `misc/struct/tree.cpp` | Morris and stack-based inorder traversal of a tree in the heap |
| `forests.dfy`, `kruskal.dfy` | | spanning forests over sets of edges, and when a greedily built one is minimum |
| `disjoint_set.dfy` | `misc/struct/disjoint_set.cpp` | union by rank with path compression |
| `graph.dfy` | `misc/struct/graph.cpp` | Kruskal's algorithm over the disjoint sets |
| `spanning_trees.dfy` | `struct/minmumSpanningTree.cc` | Prim's algorithm with a lazy heap, Kruskal's with path halving, and that they agree |
| `urcu.dfy` | `misc/urcu/urcu.c` | user-space RCU as a machine of interleaved steps |
| `urcu_sections.dfy` | `misc/urcu/urcu.c` | read-side sections told from the calls of the readers alone |
| `urcu_progress.dfy` | `misc/urcu/urcu.c` | when a call of `synchronize_rcu` can end |
| `urcu_lists.dfy` | `misc/urcu/urcu.c` | its lists of readers, pointer by pointer |
| `skip_list.dfy` | `misc/struct/skip_list.cpp` | a skip list in the heap |
| `intrusive_lists.dfy` | `misc/coroutine/co_routine.h` | doubly linked lists threaded through their items |
| `timing_wheel.dfy` | `misc/coroutine/co_routine.h`, `.cpp` | the timing wheel |
| `event_loop.dfy` | `misc/coroutine/co_routine.cpp` | the event loop, condition variables and polls |
| `event_steps.dfy` | `misc/coroutine/co_routine.cpp` | what each step of the event loop does to the wait it is about, and to no other |
| `copy_stack.dfy` | `misc/coroutine/co_routine.cpp`, `co_ctx.cpp` | coroutines that share stacks |
| `list_sort.dfy` | `misc/struct/list.h` | two merge sorts of a linked list |
| `permutations.dfy` | `leetcode/other/permutations.cc`, `std/combination.cc` | the next and the previous permutation, and all of them |
| `edit_distance.dfy` | `leetcode/DP/minStringDistance.cc` | edit distance |
| `tree_cameras.dfy` | `leetcode/tree/treeCameras.cc` | fewest cameras that watch a tree |
| `regular_expressions.dfy` | `leetcode/DP/regularExpressionMatch.cc` | matching by recursion and by a table |
| `blocking_queue.dfy` | `misc/include/blocking_queue.h` | a queue behind two semaphores |

How the concurrent and event-driven parts are modelled:

- **RCU.** Each access to shared memory is one step of one thread, in any order; the load of `gp.ctr`
  and the store to `reader.ctr` in `rcu_read_lock` are two steps. Memory is sequentially consistent,
  which the membarriers are there to provide. A reader may be unregistered at any time outside
  `rcu_read_lock`, also inside a section, and may enter a section while it is not registered. The code
  waits for no section of such a reader; so what is waited for are the sections open at the start whose
  reader is registered then and is not unregistered in between (`AllEnded`). `urcu_sections.dfy` tells
  sections from the calls alone: how often a reader has locked and not unlocked, whatever its counter.
  The protocol is proved of a machine that departs from the
  text in two places, as it must for the protocol to work:
  - Reader lists are sets, and a scan visits every reader of its input list. The text does not: with an
    empty destination `reader_move` (lines 139-147) makes a cell point to itself, and `it = it->next`
    (line 225) stays there. `urcu_lists.dfy` has the pointers as written and proves that a scan ends if
    and only if every reader on the list is old when it is met (`ScanEndsExactly`); before `gp.ctr` is
    flipped for the first time none is, so the first call that finds a reader registered never returns
    (`FirstScanNeverEnds`).
  - Line 229 assigns where its comment says "if empty". The machine has both readings, and the grace
    period is proved of the emptiness test. With the assignment, and still with sets for lists, a caller
    is sure to find its readers gone if and only if there were none when it called
    (`AsWrittenWaitsExactly`); `AsWrittenReturnsEarly` is a run of that machine, not of the text, which
    would scan for ever there (`EarlyRunSpins`).
- **Event loop.** A waiting coroutine is a frame suspended in `CoCondTimewait` or `CoPoll`. A run is any
  sequence of: making a condition, starting to wait, signalling or broadcasting, an event for a poll,
  the first part of an iteration (lines 201-208), and one turn of the draining loop (lines 211-225), in
  which a popped waiter runs on to the end of its wait. So a resumed coroutine may do anything between
  two turns. The clock may go back between iterations: an iteration then takes nothing from the wheel and
  resumes only who was woken (`ClockMayGoBack`, `ResumedForCause`). The steps are first defined and proved correct over values (`Loop`), and then the class
  `Epoll` takes them on the lists: each of its methods says that the new `State()` is that step of the old.
- **Copy-stack.** Addresses are offsets into `stack_buffer`. A running coroutine changes its own stack by
  any number of calls of `Write`, and has any stack pointer when it switches out. The ghost field `left`
  notes the bytes a coroutine had from its stack pointer up when it was switched out. The ghost field
  `log` notes every event since the main coroutine began: who was entered and found which bytes, who
  wrote what, who left with which stack pointer and bytes. Each method says exactly what it adds, and
  `Valid()`, which all of them keep, says that the whole log gives every coroutine a stack of its own
  (`Private`); the one thing that others do to it is that `CoCtxMake` writes the address of a new
  coroutine's function into the slot of whoever occupies the stack, and the log accounts for that
  exactly. So what is proved of private logs is proved of every sequence of `CoCreate`, `CoResume`,
  `CoYield` and `Write`.
- **Blocking queue.** Each semaphore operation and each access to the deque is a step of some thread.

Notes where the code is not what one might expect:

- `isMatch_DP` and `isMatch_recursive` read a run of `*` from different ends. They agree on all strings
  exactly when every run of `*` after a character is of odd length (`AgreeExactly`), which covers every
  pattern where each `*` follows another character. A pattern that begins with `*` makes `isMatch_DP`
  read before the start of the pattern unless the string is empty; it is excluded there.
- `prim` reads the top of an empty heap if the graph is not connected. The model returns `None` there,
  and that is proved to happen only then.
- A coroutine that waits with a timeout beyond the wheel's reach is taken early and put back. One that is
  signalled in between does not run when its turn comes: `SignalDelayed` says exactly when that is so,
  and `SignalIsDelayed` is a run in which it happens.
- `Merge` in `list.h` takes from the right list when two values are equal. Both sorts therefore reverse the
  nodes of each value, give the very same list (`SortsAgree`), and are stable exactly when no two values
  are equal (`StableExactly`).
- `DisjointSet::Merge` raises the rank of the winner on every merge, not only on ties.
- The skip list's tail holds `INT_MAX`: `Find` and `Insert` of that value find the tail.

## Model

| member | source | states |
|---|---|---|
| InorderTraversals.Tree.InorderTraversal | misc/struct/tree.cpp:32-49 | the stack-based loop returns the recursive inorder sequence of the tree |
| InorderTraversals.Tree.InorderTraversalMorris | misc/struct/tree.cpp:51-75 | terminates, returns the recursive inorder sequence, and leaves every left link, right link and value as it was |
| InorderTraversals.Predecessor | misc/struct/tree.cpp:57-60 | the inner loop stops at the inorder predecessor, before or after it is threaded |
| InorderTraversals.EnterLeft | misc/struct/tree.cpp:61-63 | threading the predecessor and going left keeps the invariant and lowers the measure |
| InorderTraversals.ReturnHere | misc/struct/tree.cpp:64-68 | cutting the thread, visiting and going right keeps the invariant and lowers the measure |
| InorderTraversals.VisitLeftmost | misc/struct/tree.cpp:69-72 | visiting a node without a left child and following its right link, thread or not, keeps the invariant |
| InorderTraversals.LastOnSpine | misc/struct/tree.cpp:58-60 | the right spine of the left part ends at the node visited just before, whose own right link is null |
| InorderTraversals.Finish | misc/struct/tree.cpp:55-74 | when the current node is null, all is visited and no thread is left |
| DisjointSets.DisjointSet.MakeSet | misc/struct/disjoint_set.cpp:3-11 | the exact new vectors; for the next node in turn, one new singleton class and all others as before |
| DisjointSets.DisjointSet.Find | misc/struct/disjoint_set.cpp:13-17 | returns the root of the node's class and leaves the partition and the roots as they were; exactly the nodes on the path now point at the root |
| DisjointSets.DisjointSet.Merge | misc/struct/disjoint_set.cpp:19-36 | true iff the classes differed; then exactly these two are joined, the root of lower rank points at the other, on equal ranks that of y at that of x, whose rank rises, and edges plus classes stays the number of nodes |
| ParentForests.Redirect | misc/struct/disjoint_set.cpp:13-17 | a node redirected to a higher-ranked one of its class keeps the rank order, all labels and the roots |
| ParentForests.Unite | misc/struct/disjoint_set.cpp:24-35 | hanging one root below another keeps ranks increasing, joins exactly the two classes and loses one root |
| ParentForests.Grow | misc/struct/disjoint_set.cpp:3-11 | a new last node is a class of its own |
| Graphs.Graph.MinSpanningTreeKruskal | misc/struct/graph.cpp:44-70 | for any sorted arrangement of the edges, the cost is the weight of a spanning forest no spanning forest is lighter than |
| Graphs.AllApart | misc/struct/graph.cpp:55-58 | making sets 0 to n - 1 puts each node in a class of its own |
| KruskalSteps.TakeEdge | misc/struct/graph.cpp:65-67 | an edge between different components extends the greedy forest by its weight |
| KruskalSteps.SkipEdge | misc/struct/graph.cpp:65-65 | an edge inside a component leaves the greedy forest greedy |
| KruskalSteps.AgreesWhenJoined | misc/struct/graph.cpp:63-66 | after the merge the disjoint sets are again the components of the forest |
| KruskalSteps.GreedyIsMinimum | misc/struct/graph.cpp:59-69 | the greedy forest over all edges is a minimum spanning forest |
| SpanningForests.LightForestIsMinimum | misc/struct/graph.cpp:44-70 | an acyclic set that connects, by edges no heavier, the ends of every edge is lightest among all spanning forests |
| SpanningForests.LighterAtEveryThreshold | misc/struct/graph.cpp:44-70 | of two equally large sets, the one with at least as many edges below every weight is no heavier |
| SpanningForests.ForestSizes | misc/struct/graph.cpp:44-70 | an acyclic set inside the components of another acyclic set has no more edges |
| MinimumSpanningTrees.Prim | struct/minmumSpanningTree.cc:8-38 | gives a cost, that of a minimum spanning tree, iff the graph is connected; otherwise it would read an empty heap |
| MinimumSpanningTrees.PushAll | struct/minmumSpanningTree.cc:27-32 | adds to the heap one entry for each neighbour not yet seen, as often as it is listed, and nothing else |
| MinimumSpanningTrees.TakeLightest | struct/minmumSpanningTree.cc:22-26 | an unseen node on top of the heap is reached by a lightest edge out of the tree, which grows by its weight |
| MinimumSpanningTrees.DropSeen | struct/minmumSpanningTree.cc:24-25 | dropping a stale entry leaves all the heap offers |
| MinimumSpanningTrees.NoWayOut | struct/minmumSpanningTree.cc:20-23 | an empty heap before all nodes are seen means that the graph is not connected |
| PrimSteps.GrowAll | struct/minmumSpanningTree.cc:24-33 | adding the lightest edge that leaves the tree keeps it part of a light forest |
| PrimSteps.Grown | struct/minmumSpanningTree.cc:18-37 | the tree over all nodes is a minimum spanning forest, and the graph is connected |
| MinimumSpanningTrees.FindAncestor | struct/minmumSpanningTree.cc:50-53 | the recursion that skips to the grandparent finds the root and leaves the partition |
| MinimumSpanningTrees.Link | struct/minmumSpanningTree.cc:61-61 | hanging one root below another joins exactly the two classes |
| MinimumSpanningTrees.Kruskal | struct/minmumSpanningTree.cc:40-66 | for any sorted arrangement of the rows, the cost is the weight of a minimum spanning forest |
| MinimumSpanningTrees.BothCosts | struct/minmumSpanningTree.cc:68-81 | on the adjacency lists built from the edges, both algorithms return the same cost whenever the graph is connected |
| UrcuWords.FlipPhase | misc/urcu/urcu.c:106-116 | after a flip every reader that was current is old |
| UrcuWords.NestDeeper | misc/urcu/urcu.c:164-170 | entering a nested section leaves how a grace period sees the reader iff the count of levels does not overflow |
| UrcuWords.NestShallower | misc/urcu/urcu.c:173-187 | leaving one ends the section iff it was the outermost, and otherwise changes nothing in that view |
| Urcu.StepKeepsInv | misc/urcu/urcu.c:159-307 | every step of every thread keeps the invariant, also when a reader is unregistered inside a section or enters one unregistered |
| Urcu.RunKeepsInv | misc/urcu/urcu.c:159-307 | it holds in every state of every run, for any number of readers |
| Urcu.UpdaterKeepsWatched | misc/urcu/urcu.c:198-278 | the reader of a section open at the start of the scan stays on the list where the next wait will see it |
| Urcu.ReaderKeepsWatch | misc/urcu/urcu.c:159-187 | readers do not get off that list except by ending the section or being unregistered |
| Urcu.GracePeriod | misc/urcu/urcu.c:198-289 | every section open when the scan of a grace period starts has ended when the grace period ends, if its reader is registered then and not unregistered in between |
| Urcu.SynchronizeWaits | misc/urcu/urcu.c:247-289 | the same from the call of synchronize_rcu to its return, also for a caller served by another thread |
| UrcuSections.CounterIsDepth | misc/urcu/urcu.c:159-187 | in every state of every run, a reader is inside a section iff it has locked more often than unlocked, and registered iff its last such call says so |
| UrcuSections.SynchronizeWaitsForUnlocks | misc/urcu/urcu.c:247-289 | when synchronize_rcu returns, every registered reader that was inside at the call has made the unlock that matches its outermost lock, unless unregistered since |
| UrcuSections.GracePeriodForUnlocks | misc/urcu/urcu.c:198-289 | the same from the scan of a grace period to its end |
| UrcuSections.LateReaderIsNotOld | misc/urcu/urcu.c:159-171 | a reader whose outermost lock loads gp.ctr after a flip is not seen as old before the next flip, whenever it stores |
| UrcuSections.VisitedForGood | misc/urcu/urcu.c:208-227 | a reader seen inactive, or current after the flip, is not looked at again in that grace period, whatever it does |
| UrcuSections.NobodyRegistered | misc/urcu/urcu.c:264-265 | with nobody registered a grace period ends without a flip |
| UrcuProgress.CallEndsExactly | misc/urcu/urcu.c:198-289 | in any state of any run, a call can be made and return without any step of a reader iff no registered reader is in a section |
| UrcuProgress.PendingReturns | misc/urcu/urcu.c:198-289 | if none is, every thread inside synchronize_rcu, leading or queued, at whatever point, can return without any step of a reader |
| UrcuProgress.EveryStepCloser | misc/urcu/urcu.c:198-278 | and then every step of the grace period, not just some, brings each waiting caller closer by a measure that cannot fall for ever |
| UrcuProgress.LeaderCanGo | misc/urcu/urcu.c:198-278 | while a caller waits, the leading thread has a step to take in every state |
| Urcu.ExitTestsAgree | misc/urcu/urcu.c:228-245 | on lists as sets, the assignment does what the emptiness test would iff the input list is empty |
| Urcu.AsWrittenWithNobodyLeft | misc/urcu/urcu.c:228-245 | a run with the assignment, on lists as sets, is one with the test iff no scan ends with a reader left |
| Urcu.AsWrittenWaitsExactly | misc/urcu/urcu.c:228-245 | on lists as sets, from any state of any run with the assignment, every way for a call to return finds the registered readers' sections open at the call ended iff there were none |
| Urcu.AsWrittenReturnsEarly | misc/urcu/urcu.c:228-245 | on lists as sets, there is a run with the assignment in which a call returns while a section open at the call is still open, its reader registered throughout |
| UrcuLists.AddKeepsRing | misc/urcu/urcu.c:119-128 | a reader added to a ring of cells is the first of a longer ring |
| UrcuLists.DeleteKeepsRing | misc/urcu/urcu.c:130-137 | one deleted leaves the ring of the others |
| UrcuLists.MoveSpins | misc/urcu/urcu.c:139-147 | a reader moved to a list that was empty at first points to itself, and the list's head still has itself as its last cell; all other links exactly |
| UrcuLists.FirstIsMoved | misc/urcu/urcu.c:208-227 | the first reader that is not old is moved to cur_snap_readers in the first wait if it is current, otherwise to qs_readers, and the scan stays at its cell |
| UrcuLists.ScanEndsExactly | misc/urcu/urcu.c:208-227 | a scan of the pointers ends iff every reader on the list is old when it is met, and then nothing has moved |
| UrcuLists.FirstScanNeverEnds | misc/urcu/urcu.c:198-227 | in any run before the first flip, a scan of a list with a reader on it never ends, whenever in the run it meets the first reader |
| UrcuLists.NobodyOldBeforeFlip | misc/urcu/urcu.c:106-116 | before the first flip no reader is old |
| UrcuLists.EarlyRunSpins | misc/urcu/urcu.c:208-227 | one reader met inside its section is where the scan stays for ever |
| SkipLists.SkipList.constructor | misc/struct/skip_list.cpp:26-33 | the new list is valid and holds nothing |
| SkipLists.SkipList.AbsLowerBound | misc/struct/skip_list.cpp:45-56 | for each level up to the current one, the last node of that level below the value |
| SkipLists.SkipList.Find | misc/struct/skip_list.cpp:58-66 | non-null iff the value was inserted or is that of the tail, and then a node with that value |
| SkipLists.SkipList.Insert | misc/struct/skip_list.cpp:68-91 | for any random level: the set grows by the value, one new node of that level is put in its place and the highest level in use rises to it, or nothing changes |
| SkipLists.SkipList.SpliceIn | misc/struct/skip_list.cpp:78-89 | splicing a node into all its levels keeps the list valid |
| SkipLists.InsertKeepsLinks | misc/struct/skip_list.cpp:78-88 | after the splice each link of each level leads to the next node of that level |
| SkipLists.InsertKeepsOrder | misc/struct/skip_list.cpp:70-77 | the place found keeps the values strictly increasing |
| SkipLists.LevelIsChain | misc/struct/skip_list.cpp:26-91 | in a valid list every level is a chain from head to tail, strictly increasing after the head, level 0 being all nodes, and holds the levels above it; the head's value is below that of the first node of the level iff the level does not hold INT_MIN |
| SkipLists.LevelsNest | misc/struct/skip_list.cpp:78-88 | a higher level is a subsequence of a lower one |
| IntrusiveLists.RemoveFromLink | misc/coroutine/co_routine.h:178-198 | takes the item off the one list it names and leaves all other lists; all lists stay well-formed |
| IntrusiveLists.Unlink | misc/coroutine/co_routine.h:183-197 | exactly the k-th item leaves, its neighbours are linked, and its fields are null |
| IntrusiveLists.TailAdd | misc/coroutine/co_routine.h:204-217 | an item on no list becomes the last of this one; one on a list stays where it is |
| IntrusiveLists.HeadPop | misc/coroutine/co_routine.h:223-234 | exactly the first item leaves |
| IntrusiveLists.LinkAppend | misc/coroutine/co_routine.h:240-258 | all items move over in order and name their new list; the other list is empty |
| IntrusiveLists.Relabel | misc/coroutine/co_routine.h:243-247 | every item of one list names the other |
| IntrusiveLists.Join | misc/coroutine/co_routine.h:248-257 | the relabelled chain becomes the end of the other list |
| IntrusiveLists.Apart | misc/coroutine/co_routine.h:178-258 | well-formed lists share no item |
| TimingWheels.TimingWheel.constructor | misc/coroutine/co_routine.cpp:309-317 | a wheel of empty slots that starts now |
| TimingWheels.TimingWheel.TimeoutLinkAllTake | misc/coroutine/co_routine.h:264-280 | the slots up to now, at most all, are emptied in order into the given list; nothing happens if the clock went back |
| TimingWheels.TimingWheel.TimerItemAdd | misc/coroutine/co_routine.cpp:326-338 | which error is returned when, and into which slot the item goes, the last one if it is too far ahead; an item on a list stays there |
| TimingWheels.AllDueTaken | misc/coroutine/co_routine.h:271-277 | every item due by now is among those taken, wherever it was put |
| TimingWheels.TakeKeepsNoneLate | misc/coroutine/co_routine.h:270-279 | after taking, no item is in a slot that comes up after the item is due |
| TimingWheels.AddKeepsNoneLate | misc/coroutine/co_routine.cpp:333-336 | nor after adding one, clamped or not |
| TimingWheels.SlotsApart | misc/coroutine/co_routine.h:275-275 | within one turn of the wheel different ticks have different slots |
| TimingWheels.SlotAround | misc/coroutine/co_routine.h:275-275 | a whole turn comes back to the same slot |
| TimingWheels.TakeIsStable | misc/coroutine/co_routine.h:264-280 | if all pending items were added within reach, exactly the due ones come out, by time and then in the order added, and the wheel holds the others |
| TimingWheels.AddIsLast | misc/coroutine/co_routine.cpp:326-338 | an item added within reach is last among those pending |
| TimingWheels.WheelIsQueue | misc/coroutine/co_routine.h:264-280 | over any sequence of adding within reach and taking, all that comes out of the wheel is, in order, what a stable priority queue gives out; when the clock has gone back neither gives anything |
| TimingWheels.PoppedLeaves | misc/coroutine/co_routine.h:264-280 | what is left after popping is the items due later, in the order added |
| TimingWheels.PoppedStable | misc/coroutine/co_routine.h:264-280 | repeatedly popping the earliest item, the first added of those, gives stable order |
| TimingWheels.NewWheelHolds | misc/coroutine/co_routine.cpp:309-317 | a new wheel holds nothing |
| EventLoops.StepKeepsInv | misc/coroutine/co_routine.cpp:185-231 | every step keeps: no item on two lists or twice on one, listed items belong to waits, no wait is lost, active items were woken or taken, only waits with a timeout are taken, only active ones are marked, the wheel is ahead, a clock behind the wheel's has marked nothing, nothing is resumed twice |
| EventSteps.SignalWakesFirst | misc/coroutine/co_routine.cpp:469-477 | a signal takes exactly the first waiter off the condition and moves its item to the end of the active list; no other wait is touched |
| EventSteps.EventIsCounted | misc/coroutine/co_routine.cpp:454-466 | an event adds one to the poll's count, and the first one moves its item to the end of the active list; no other wait is touched |
| EventSteps.RaisedIsEvents | misc/coroutine/co_routine.cpp:454-466 | in any run, a poll has counted exactly the events that came since it began, and is woken iff there was one |
| EventSteps.TimewaitIsLast | misc/coroutine/co_routine.cpp:491-505 | a new waiter is last on its condition, not woken, and with a timeout on the wheel in its own slot or the last one; no other wait is touched |
| EventSteps.PollIsOnWheel | misc/coroutine/co_routine.cpp:377-427 | the same of a poll |
| EventSteps.BeginTakesReached | misc/coroutine/co_routine.cpp:201-208 | an iteration marks and activates exactly the items in slots whose tick has come; all others stay where they are |
| EventSteps.DrainTakesFirst | misc/coroutine/co_routine.cpp:211-225 | a turn takes the first active item, which goes back to the wheel iff it was taken before its deadline, and otherwise is resumed and leaves its condition; no other wait is touched |
| EventLoops.RunKeepsInv | misc/coroutine/co_routine.cpp:185-231 | this holds in every state of every run |
| EventLoops.ResumedForCause | misc/coroutine/co_routine.cpp:211-225 | a coroutine is resumed only when it was woken or has a timeout whose time has come, so never spuriously; when the clock has gone back, only when it was woken; then its items are on no list |
| EventLoops.DueBecomesActive | misc/coroutine/co_routine.cpp:201-208 | every wait due in an iteration is active in it and will not go back, also if the clock went back |
| EventLoops.NothingMarked | misc/coroutine/co_routine.cpp:209-225 | from when the active list is emptied until the next iteration no item is marked as taken |
| EventLoops.ClockMayGoBack | misc/coroutine/co_routine.h:264-270 | so an iteration may begin with a clock that went back, and then leaves everything but its clock as it was |
| EventLoops.DeadlineMet | misc/coroutine/co_routine.cpp:201-225 | a wait with a deadline is resumed exactly once by the time the loop has emptied the active list with the wheel's clock at or after it |
| EventLoops.NobodyOverdue | misc/coroutine/co_routine.cpp:209-225 | with an empty active list nobody waits beyond a deadline by the wheel's clock, and a wait that was woken and is not over still has its deadline ahead |
| EventLoops.ResumedAtMostOnce | misc/coroutine/co_routine.cpp:211-225 | once resumed, by signal, event or timeout, a wait is over for good |
| EventLoops.SignalDelayed | misc/coroutine/co_routine.cpp:213-221 | in any run, the first waiter that is signalled is woken, and when its turn comes in that iteration it is resumed iff it had not been taken from the wheel before its deadline |
| EventLoops.SignalIsDelayed | misc/coroutine/co_routine.cpp:213-221 | from a new loop, a run in which a waiter is signalled and woken and yet not resumed when its turn comes |
| EventLoops.FirstActive | misc/coroutine/co_routine.cpp:211-223 | the first active wait goes on, unmarked and on the wheel, iff it was taken early |
| EventLoops.ActiveUntilTurn | misc/coroutine/co_routine.cpp:211-225 | until its turn comes an active wait stays active and marked as it is |
| EventLoops.RunKeepsWaits | misc/coroutine/co_routine.cpp:185-231 | a wait goes on until it is resumed |
| EventLoops.Epoll.constructor | misc/coroutine/co_routine.cpp:352-359 | nobody waits and all lists are empty |
| EventLoops.Epoll.NewCondition | misc/coroutine/co_routine.h:140-143 | a new condition on which nobody waits; all else is as before |
| EventLoops.Epoll.CoCondTimewait | misc/coroutine/co_routine.cpp:491-505 | the waiter is on the condition and, with a positive timeout, on the wheel; if the clock is behind an error is returned and nothing changes |
| EventLoops.Epoll.CoCondSignal | misc/coroutine/co_routine.cpp:469-477 | exactly the first waiter, if any, leaves the condition and its item goes from the list it is on to the end of the active list; the other conditions keep theirs |
| EventLoops.Epoll.CoCondBroadcast | misc/coroutine/co_routine.cpp:479-489 | the same for all waiters in turn |
| EventLoops.BroadcastIsSignals | misc/coroutine/co_routine.cpp:479-489 | a broadcast continues any run as exactly as many signals as there are waiters, and leaves none; so all said of runs holds with broadcasts in them |
| EventLoops.Epoll.CoPoll | misc/coroutine/co_routine.cpp:377-427 | timeout 0 returns what the system's poll does and waits for nothing; otherwise the poll's item is on the wheel, or -1 is returned and nothing changes |
| EventLoops.Epoll.OnPollPrepare | misc/coroutine/co_routine.cpp:454-466 | the event is counted; the first one moves the item to the active list |
| EventLoops.Epoll.BeginIteration | misc/coroutine/co_routine.cpp:201-208 | what is due or taken early is marked and moved to the end of the active list; if the clock went back nothing changes but the loop's clock |
| EventLoops.Epoll.DrainOne | misc/coroutine/co_routine.cpp:211-225 | the first active item goes back to the wheel, or its coroutine is resumed and its items are on no list |
| EventLoops.Epoll.Finish | misc/coroutine/co_routine.cpp:506-508 | the resumed coroutine takes its condition item, if it has one, off the condition, and the wait is over |
| EventLoops.Epoll.LeaveCond | misc/coroutine/co_routine.cpp:506-506 | the condition item leaves the condition if it is still on it |
| EventLoops.Epoll.OnTheListItNames | misc/coroutine/co_routine.h:178-258 | the item of a wait is on the list its link names and on no other |
| CopyStacks.Env.constructor | misc/coroutine/co_routine.cpp:65-79 | the main coroutine runs alone |
| CopyStacks.Env.CoCreate | misc/coroutine/co_routine.cpp:88-126 | a new coroutine, not started, on the next of the shared stacks or on a stack of its own of the fit size |
| CopyStacks.FitSize | misc/coroutine/co_routine.cpp:93-101 | the default, the most, or the least whole number of pages that is enough |
| CopyStacks.ShareStack.constructor | misc/coroutine/co_routine.cpp:284-294 | as many stacks as asked for, each with memory of its own, occupied by nobody |
| CopyStacks.ShareStack.StackMemGet | misc/coroutine/co_routine.cpp:277-282 | the stacks are given out in turn, the 32-bit counter wrapping around |
| CopyStacks.Env.CoResume | misc/coroutine/co_routine.cpp:128-137 | a coroutine switched out before finds the bytes it left from its stack pointer up; a new one finds its stack as it was but with the address of its function in the slot; the caller's bytes are noted; all others keep theirs, but for that slot if they occupy the stack of a new one, and stay started; the log grows by exactly these two events |
| CopyStacks.Env.CoYield | misc/coroutine/co_routine.cpp:139-145 | the same for the coroutine returned to |
| CopyStacks.ReturnFindsWhatWasLeft | misc/coroutine/co_routine.cpp:233-264 | in any run, a coroutine that leaves and is next entered at a later event, with nobody entered on its stack in between, finds from its stack pointer up exactly the bytes it had when it left |
| CopyStacks.ReturnFindsWhatWasSaved | misc/coroutine/co_routine.cpp:233-264 | the same if others have been entered there, but that the slot holds the address written for the next of them if that one was new; exactly then, and exactly those bytes |
| CopyStacks.EveryEntry | misc/coroutine/co_routine.cpp:128-145 | in any run, each entry of a coroutine is its first or such a return |
| CopyStacks.KeepsWhatItWrote | misc/coroutine/co_routine.cpp:233-264 | in any run, whatever the others do and however often it is switched out, a coroutine keeps each byte it wrote until it writes there again, leaves with its stack pointer above it, or a new coroutine is entered on its stack and the byte is in the slot |
| CopyStacks.Env.ReadsWhatItWrote | misc/coroutine/co_routine.cpp:233-264 | so such a byte is on the stack itself while the coroutine runs |
| CopyStacks.Env.CoSwap | misc/coroutine/co_routine.cpp:233-264 | after the switch every other coroutine that has begun is either the intact occupant of its stack or wholly in its save buffer |
| CopyStacks.Env.TakeStack | misc/coroutine/co_routine.cpp:240-250 | the occupant is saved before it loses the stack |
| CopyStacks.Env.SwitchIn | misc/coroutine/co_routine.cpp:253-263 | the saved bytes are back where they were |
| CopyStacks.Env.StackBufferSave | misc/coroutine/co_routine.cpp:296-306 | the save buffer holds all bytes from the stack pointer to the top |
| CopyStacks.Env.CoCtxMake | misc/coroutine/co_ctx.cpp:38-49 | the address of the function is written to the aligned slot of one pointer at the top of the stack, and nothing else |
| CopyStacks.Env.Write | misc/coroutine/co_routine.cpp:28-33 | whatever the running coroutine writes to its stack, those switched out keep what they left; the log grows by this write |
| ListSorts.Merge | misc/struct/list.h:86-99 | relinks both lists into their merge, taking from the right on ties, and returns its first and last node |
| ListSorts.Split | misc/struct/list.h:123-129 | cuts the list after n nodes, or leaves it whole, and returns the rest |
| ListSorts.MergePass | misc/struct/list.h:138-149 | one pass relinks the list into the merges of neighbouring runs |
| ListSorts.List.MergeSortBottomUp | misc/struct/list.h:121-152 | the same nodes, relinked into a nondecreasing list that ends, with the nodes of each value in reversed order |
| ListSorts.SortNodes | misc/struct/list.h:103-117 | the recursive sort by halves of a list in the heap |
| ListSorts.Middle | misc/struct/list.h:107-112 | slow stops at the end of the first half |
| ListSorts.List.MergeSortTopDown | misc/struct/list.h:101-119 | the same nodes, relinked into a nondecreasing list, with the nodes of each value in reversed order |
| ListSorts.PassDoublesRuns | misc/struct/list.h:137-150 | after the pass of width n the list is a chain of sorted runs of length 2n, the last perhaps shorter |
| ListSorts.BottomUpSorts | misc/struct/list.h:137-151 | passes of doubling width sort a list of sorted runs, keeping its nodes |
| ListSorts.SortsAgree | misc/struct/list.h:101-152 | both sorts give the same nodes in the same order: sorted, and reversed among equal values |
| ListSorts.StableExactly | misc/struct/list.h:86-152 | either sort is stable iff no two nodes have equal values |
| ListSorts.MergedWithValue | misc/struct/list.h:91-96 | a merge puts the nodes of one value from the right list before those from the left |
| ListSorts.PassTurns | misc/struct/list.h:138-149 | after the pass of width n the nodes of each value are reversed within blocks of 2n |
| ListSorts.TopDownTurns | misc/struct/list.h:103-117 | the recursive sort reverses the nodes of each value |
| Lexicographic.StepUpIsNext | leetcode/other/permutations.cc:16-25 | raising the last ascent and turning the tail gives the least greater arrangement |
| Lexicographic.AscendingIsLeast | leetcode/other/permutations.cc:26-30 | a sorted arrangement is the least |
| Lexicographic.DescendingIsGreatest | leetcode/other/permutations.cc:26-30 | a falling one is the greatest |
| Permutations.NextPermutation | leetcode/other/permutations.cc:7-32 | true: the array is the least arrangement greater than before; false: it was the greatest and is now the least |
| Permutations.PrevPermutation | std/combination.cc:7-31 | the same downwards |
| Permutations.NegatedNext | std/combination.cc:18-24 | stepping down is stepping up under reversed comparison |
| Permutations.NextThenPrev | std/combination.cc:7-31 | a step forth and a step back give back every array, wrapped or not |
| Permutations.Permute | leetcode/other/permutations.cc:34-44 | lists every distinct arrangement exactly once, in lexicographic order |
| Permutations.FewerAbove | leetcode/other/permutations.cc:38-42 | each step leaves fewer arrangements above, so the loop ends |
| EditDistance.MinDistance | leetcode/DP/minStringDistance.cc:10-34 | some script of that many edits leads from one word to the other, and none of fewer, at any positions in any order |
| EditDistance.Script | leetcode/DP/minStringDistance.cc:19-30 | a script as long as the recurrence says |
| EditDistance.OneEdit | leetcode/DP/minStringDistance.cc:23-28 | one edit anywhere lowers the recurrence's value by at most one |
| EditDistance.NoShorter | leetcode/DP/minStringDistance.cc:19-32 | no script is shorter than the recurrence says |
| EditDistance.Neighbours | leetcode/DP/minStringDistance.cc:23-28 | neighbouring cells of the table differ by at most one |
| TreeCameras.Counter.Dfs | leetcode/tree/treeCameras.cc:9-24 | returns the greedy state of the subtree and counts its cameras |
| TreeCameras.MinCameraCover | leetcode/tree/treeCameras.cc:6-28 | the size of a smallest set of nodes such that each node has itself, its parent or a child in it |
| TreeCameras.NoFewer | leetcode/tree/treeCameras.cc:12-24 | no set that watches all but perhaps the root is smaller, with the surcharge that the root's state says |
| TreeCameras.CamerasWatch | leetcode/tree/treeCameras.cc:14-23 | the cameras placed watch all nodes, but perhaps the root |
| TreeCameras.CamerasCount | leetcode/tree/treeCameras.cc:16-20 | there are as many as counted |
| RegularExpressions.RecursiveDecides | leetcode/DP/regularExpressionMatch.cc:33-43 | for every string and pattern the recursion decides the language of the tokens read from the left |
| RegularExpressions.IsMatchDP | leetcode/DP/regularExpressionMatch.cc:13-31 | the table decides the language of the tokens read from the right; on well-formed patterns it agrees with the recursion and the language |
| RegularExpressions.AgreeExactly | leetcode/DP/regularExpressionMatch.cc:13-43 | table and recursion accept the same strings iff every run of stars is of odd length |
| RegularExpressions.LastToken | leetcode/DP/regularExpressionMatch.cc:23-28 | a string is in the language iff some suffix of it matches the last token and the rest the others |
| RegularExpressions.Cell | leetcode/DP/regularExpressionMatch.cc:23-28 | each cell of the table follows from its neighbours |
| RegularExpressions.FirstRow | leetcode/DP/regularExpressionMatch.cc:20-21 | so does the row of the empty string |
| BlockingQueues.StepKeepsInv | misc/include/blocking_queue.h:30-64 | every step of every thread keeps the length of the queue equal to items plus putters before the post plus takers before the pop, and none pops an empty queue |
| BlockingQueues.PutPushesOnce | misc/include/blocking_queue.h:30-37 | in any run, a thread in put(v) has pushed nothing, then v once, and has pushed v once when it returns |
| BlockingQueues.TakePopsOnce | misc/include/blocking_queue.h:39-47 | a thread in take() has popped nothing, then one value, which is the one it returns |
| BlockingQueues.TryLooks | misc/include/blocking_queue.h:49-56 | a thread in take(T&) looks at the queue before it does anything else or returns |
| BlockingQueues.LookDecides | misc/include/blocking_queue.h:49-56 | it looks once; if the queue was empty then, it returns without a value, otherwise it goes on as take() does |
| BlockingQueues.SizeCounts | misc/include/blocking_queue.h:58-65 | size() returns the length of the queue in some state since its call, and pushes and pops nothing |
| BlockingQueues.PushedByPuts | misc/include/blocking_queue.h:30-37 | whatever is pushed is the argument of a put that had pushed nothing yet |
| BlockingQueues.PoppedByTakes | misc/include/blocking_queue.h:39-56 | whatever is popped is the first value of the queue and the result of a take() or take(T&) that had popped nothing yet |
| BlockingQueues.NeverEmpty | misc/include/blocking_queue.h:39-47 | a thread about to pop finds a value |
| BlockingQueues.FirstInFirstOut | misc/include/blocking_queue.h:30-56 | in every run the values popped are, in order, a prefix of those pushed, and the queue is the rest |
| BlockingQueues.NoLostWakeup | misc/include/blocking_queue.h:30-64 | if no thread inside can move, the queue is empty and they all wait in take |

## Left out

- Integer overflow of weights, costs, ranks, camera counts and list indices: they are unbounded here, except where a bound is stated (`MAX_LENGTH` for the bottom-up sort, `MAX_STEP` for one step of the clock, 64-bit words in RCU).
- EventLoops.Epoll.BeginIteration: steps of the clock of less than 2^31 ticks, because the original converts the step to an int; and an iteration whose clock went back begins with no item marked, as is always so once the active list has been emptied (`NothingMarked`).
- TimingWheels.TimingWheel.TimeoutLinkAllTake: the same bound on the step of the clock.
- Resuming a waiting coroutine other than by the event loop.
- `epoll_wait`, file descriptors and `revents` of a poll, and the calls `epoll_ctl`: an event is a step. What the system's own poll returns is a parameter of `CoPoll`, and its use for a single descriptor that cannot be watched is not modelled.
- `CoFree` and `CoReset` are not modelled: they clear `occupy_co`, and the restore test at line 258 of `co_routine.cpp` reads it.
- CopyStacks.Env.CoResume: a coroutine that is in the chain of calls already is excluded, and so is a chain of more than 128, the main one included, whose last would be noted beyond the end of `call_stack`; the original checks neither.
- Registers, the assembly of the switch, and what a coroutine does after its function has ended.
- Save buffers are sequences that are replaced, not allocated and freed.
- RCU: futexes and the waking of a sleeping updater (a rescan may come at any time), thread-local storage, memory-order barriers, wait-node teardown, and `reader_splice`.
- Urcu.StepKeepsInv: registering a reader that is registered is not modelled; the original does not check it, and lists the reader twice. So for all results about runs.
- Urcu.RunKeepsInv: a run never nests more than 2^32 - 1 read-side sections of one thread, where the count overflows (`UrcuWords.NestDeeper`); the same holds of every result about runs.
- `Graph::MinSpanningTreePrim` in `misc/struct/graph.cpp` is not modelled; it spends one of its `nodes_num` rounds on each stale heap entry. `prim` in `struct/minmumSpanningTree.cc` is.
- DisjointSets.DisjointSet.MakeSet: the partition is described for nodes made in turn from 0; for other calls only the exact new vectors are.
- A logarithmic bound on the height of the disjoint sets: ranks rise on every merge, so the usual bound does not follow.
- `std::sort`, `std::priority_queue` and `std::deque` are used by contract: any sorted arrangement, any least entry, a sequence.
- SkipLists.SkipList.Insert: the random level is a parameter from 0 to 8; how it is drawn is not modelled.
- RegularExpressions.IsMatchDP: a pattern that begins with a star is excluded unless the string is empty, because the original then reads out of bounds.
- ListSorts.List.MergeSortBottomUp: lists of up to 2^30 nodes, since the width is doubled in an int; values are ints.
- ListSorts.Merge: not called with two empty lists, where the original returns a pointer to a local variable.
- The other traversals of `tree.cpp`, insertion sort and reversal in `list.h`, and the remaining exercises: single loops whose proofs would be easier.
- Echo servers, reactor, web server, hooks of system calls: input and output.
