// misc/urcu/urcu.c: the lists of readers as they are written, with their pointers.
//
// A list is a ring of cells around its head. Adding and deleting a reader keep rings; moving one to
// an empty list makes its cell point to itself, and a scan that has moved a reader never ends.
module UrcuLists {
  import opened UrcuWords
  import opened Urcu
  import opened UrcuSections

  // The heads registry_reader_list, cur_snap_readers and qs_readers, whose node is NULL, and the
  // cells of readers.
  datatype Cell = Registry | CurSnap | Quiescent | Of(reader: nat)

  type Pointers = Cell -> Cell

  datatype Cells = Cells(next: Pointers, prev: Pointers)

  function Store(f: Pointers, c: Cell, to: Cell): Pointers {
    x => if x == c then to else f(x)
  }

  // The cells of a list in order, its head first, lead to each other and around.
  ghost predicate Ring(l: Cells, cells: seq<Cell>) {
    && cells != []
    && (forall i, j :: 0 <= i < j < |cells| ==> cells[i] != cells[j])
    && (forall i, j :: 0 <= i < |cells| && j == i + 1 && j < |cells| ==> l.next(cells[i]) == cells[j] && l.prev(cells[j]) == cells[i])
    && l.next(cells[|cells| - 1]) == cells[0] && l.prev(cells[0]) == cells[|cells| - 1]
  }

  // reader_add
  function Added(l: Cells, r: nat, list: Cell): Cells {
    var tmp := Of(r);
    var prev := Store(l.prev, l.next(list), tmp);
    var next := Store(l.next, tmp, l.next(list));
    Cells(Store(next, list, tmp), Store(prev, tmp, list))
  }

  // reader_del
  function Deleted(l: Cells, r: nat): Cells {
    var c := Of(r);
    var prev := Store(l.prev, l.next(c), l.prev(c));
    Cells(Store(l.next, prev(c), l.next(c)), prev)
  }

  // reader_move, one assignment after the other
  function Moved(l: Cells, src: Cell, dst: Cell): Cells {
    var prev1 := Store(l.prev, l.next(src), l.prev(src));
    var next1 := Store(l.next, prev1(src), l.next(src));
    var next2 := Store(next1, prev1(dst), src);
    var next3 := Store(next2, src, next2(dst));
    var prev2 := Store(prev1, src, dst);
    Cells(Store(next3, dst, src), prev2)
  }

  // A registered reader comes first on the list.
  lemma AddKeepsRing(l: Cells, cells: seq<Cell>, r: nat)
    requires Ring(l, cells) && Of(r) !in cells
    ensures Ring(Added(l, r, cells[0]), [cells[0], Of(r)] + cells[1..])
  {
    var m, longer := Added(l, r, cells[0]), [cells[0], Of(r)] + cells[1..];
    assert |cells| > 1 ==> l.next(cells[0]) == cells[1];
    forall i | 2 <= i < |longer| ensures longer[i] == cells[i - 1] {
    }
    forall i, j | 0 <= i < |longer| && j == i + 1 && j < |longer|
      ensures m.next(longer[i]) == longer[j] && m.prev(longer[j]) == longer[i]
    {
      if i >= 2 {
        var a, b := i - 1, i;
        assert l.next(cells[a]) == cells[b] && l.prev(cells[b]) == cells[a];
      }
    }
  }

  lemma DeleteKeepsRing(l: Cells, cells: seq<Cell>, k: nat)
    requires Ring(l, cells) && 0 < k < |cells| && cells[k].Of?
    ensures Ring(Deleted(l, cells[k].reader), cells[..k] + cells[k + 1..])
  {
    var m, shorter, n := Deleted(l, cells[k].reader), cells[..k] + cells[k + 1..], |cells|;
    var before, after := cells[k - 1], if k + 1 < n then cells[k + 1] else cells[0];
    var a := k - 1;
    assert l.next(cells[a]) == cells[k] && l.prev(cells[k]) == before && l.next(cells[k]) == after;
    assert m.next(before) == after && m.prev(after) == before;
    forall i | 0 <= i < |shorter| ensures shorter[i] == cells[if i < k then i else i + 1] {
    }
    forall i, j | 0 <= i < |shorter| && j == i + 1 && j < |shorter|
      ensures m.next(shorter[i]) == shorter[j] && m.prev(shorter[j]) == shorter[i]
    {
      var c := if i < k then i else i + 1;
      var d := if j < k then j else j + 1;
      if i != a {
        assert d == c + 1 && l.next(cells[c]) == cells[d] && l.prev(cells[d]) == cells[c];
      }
    }
  }

  // ---------------------------------------------------------------------------------------
  // The scan of wait_for_readers

  // The cell the scan is at, and whether it is back at the head of its input list.
  datatype Scan = Scan(links: Cells, it: Cell, ended: bool)

  // The switch: what becomes of the lists for a cell whose reader is seen in some state. In the
  // second wait cur_snap_readers is not given.
  function Sorted(l: Cells, it: Cell, second: bool, seen: ReaderState): Cells {
    if !it.Of? || seen.ActiveOld? then l
    else if seen.ActiveCurrent? && !second then Moved(l, it, CurSnap)
    else Moved(l, it, Quiescent)
  }

  // One turn of the loop: the switch, it = it->next, and the comparison.
  function Turn(s: Scan, input: Cell, second: bool, seen: ReaderState): Scan {
    if s.ended then s
    else
      var links := Sorted(s.links, s.it, second, seen);
      var it := links.next(s.it);
      Scan(links, it, it == input)
  }

  // After so many turns, in which the readers are seen as given. Turn 0 is that of the head.
  function Turns(l: Cells, input: Cell, second: bool, seen: nat -> ReaderState, turns: nat): Scan {
    if turns == 0 then Scan(l, input, false)
    else Turn(Turns(l, input, second, seen, turns - 1), input, second, seen(turns - 1))
  }

  // A cell that points to itself and was put on a list that thinks it is empty.
  ghost predicate Spinning(s: Scan) {
    && s.it.Of? && !s.ended && s.links.next(s.it) == s.it
    && (s.links.prev(s.it) == CurSnap || s.links.prev(s.it) == Quiescent)
    && s.links.prev(CurSnap) == CurSnap && s.links.prev(Quiescent) == Quiescent
  }

  // Moving a reader to a list whose head still has itself for its last cell.
  lemma MoveSpins(l: Cells, c: Cell, dst: Cell)
    requires c.Of? && (dst == CurSnap || dst == Quiescent)
    requires l.prev(CurSnap) == CurSnap && l.prev(Quiescent) == Quiescent
    requires l.next(c) != CurSnap && l.next(c) != Quiescent
    ensures var m := Moved(l, c, dst);
      && m.next(c) == c && m.prev(c) == dst && m.prev(CurSnap) == CurSnap && m.prev(Quiescent) == Quiescent
    ensures forall x :: Moved(l, c, dst).next(x) == if x == c || x == dst then c else if x == l.prev(c) then l.next(c) else l.next(x)
    ensures forall x :: Moved(l, c, dst).prev(x) == if x == c then dst else if x == l.next(c) then l.prev(c) else l.prev(x)
  {
  }

  lemma SpinsOn(s: Scan, input: Cell, second: bool, seen: ReaderState)
    requires Spinning(s) && !input.Of?
    ensures Spinning(Turn(s, input, second, seen))
  {
    if !seen.ActiveOld? {
      MoveSpins(s.links, s.it, if seen.ActiveCurrent? && !second then CurSnap else Quiescent);
    }
  }

  // While all readers met are old, the scan goes around the ring and moves nothing.
  lemma {:induction false} OldReadersPassed(l: Cells, cells: seq<Cell>, second: bool, seen: nat -> ReaderState, m: nat)
    requires Ring(l, cells) && !cells[0].Of? && (forall i :: 0 < i < |cells| ==> cells[i].Of?) && m <= |cells|
    requires forall i :: 0 < i < m ==> seen(i).ActiveOld?
    ensures Turns(l, cells[0], second, seen, m) ==
            Scan(l, if m < |cells| then cells[m] else cells[0], m == |cells|)
  {
    if m > 0 {
      var k := m - 1;
      OldReadersPassed(l, cells, second, seen, k);
      assert m < |cells| ==> l.next(cells[k]) == cells[m];
    }
  }

  lemma {:induction false} SpinsForever(l: Cells, input: Cell, second: bool, seen: nat -> ReaderState, m: nat, n: nat)
    requires !input.Of? && m <= n && Spinning(Turns(l, input, second, seen, m))
    ensures Spinning(Turns(l, input, second, seen, n))
    decreases n
  {
    if m < n {
      SpinsForever(l, input, second, seen, m, n - 1);
      SpinsOn(Turns(l, input, second, seen, n - 1), input, second, seen(n - 1));
    }
  }

  // A scan of a list, with the other two lists empty, ends if and only if every reader on the list
  // is old when it is met. Then nothing has been moved.
  lemma ScanEndsExactly(l: Cells, cells: seq<Cell>, second: bool, seen: nat -> ReaderState)
    requires Ring(l, cells) && !cells[0].Of? && forall i :: 0 < i < |cells| ==> cells[i].Of?
    requires l.prev(CurSnap) == CurSnap && l.prev(Quiescent) == Quiescent
    ensures (exists n :: Turns(l, cells[0], second, seen, n).ended) <==> forall i :: 0 < i < |cells| ==> seen(i).ActiveOld?
    ensures (forall i :: 0 < i < |cells| ==> seen(i).ActiveOld?) ==> Turns(l, cells[0], second, seen, |cells|) == Scan(l, cells[0], true)
  {
    if forall i :: 0 < i < |cells| ==> seen(i).ActiveOld? {
      OldReadersPassed(l, cells, second, seen, |cells|);
    } else {
      var i := FirstNotOld(seen, |cells|);
      hide Ring, Turns;
      forall n: nat ensures !Turns(l, cells[0], second, seen, n).ended {
        StopsAtFirst(l, cells, second, seen, i, n);
      }
    }
  }

  // The scan does not come past the first reader that is not old.
  lemma StopsAtFirst(l: Cells, cells: seq<Cell>, second: bool, seen: nat -> ReaderState, i: nat, n: nat)
    requires Ring(l, cells) && !cells[0].Of? && forall k :: 0 < k < |cells| ==> cells[k].Of?
    requires l.prev(CurSnap) == CurSnap && l.prev(Quiescent) == Quiescent
    requires 0 < i < |cells| && !seen(i).ActiveOld? && forall k :: 0 < k < i ==> seen(k).ActiveOld?
    ensures !Turns(l, cells[0], second, seen, n).ended
  {
    if n <= i {
      OldReadersPassed(l, cells, second, seen, n);
    } else {
      OldReadersPassed(l, cells, second, seen, i);
      assert l.next(cells[i]) == if i + 1 < |cells| then cells[i + 1] else cells[0];
      MoveSpins(l, cells[i], if seen(i).ActiveCurrent? && !second then CurSnap else Quiescent);
      SpinsForever(l, cells[0], second, seen, i + 1, n);
    }
  }

  // Where the first reader that is not old goes: to cur_snap_readers in the first wait if it is
  // current, otherwise to qs_readers. The scan is then at its cell, and stays there.
  lemma FirstIsMoved(l: Cells, cells: seq<Cell>, second: bool, seen: nat -> ReaderState, i: nat, n: nat)
    requires Ring(l, cells) && !cells[0].Of? && forall k :: 0 < k < |cells| ==> cells[k].Of?
    requires l.prev(CurSnap) == CurSnap && l.prev(Quiescent) == Quiescent
    requires 0 < i < |cells| && !seen(i).ActiveOld? && forall k :: 0 < k < i ==> seen(k).ActiveOld?
    ensures var dst := if seen(i).ActiveCurrent? && !second then CurSnap else Quiescent;
      Turns(l, cells[0], second, seen, i + 1) == Scan(Moved(l, cells[i], dst), cells[i], false)
    ensures n > i ==> Turns(l, cells[0], second, seen, n).it == cells[i]
  {
    OldReadersPassed(l, cells, second, seen, i);
    assert l.next(cells[i]) == if i + 1 < |cells| then cells[i + 1] else cells[0];
    MoveSpins(l, cells[i], if seen(i).ActiveCurrent? && !second then CurSnap else Quiescent);
    if n > i {
      StaysAt(l, cells[0], second, seen, i + 1, n);
    }
  }

  lemma {:induction false} FirstNotOld(seen: nat -> ReaderState, n: nat) returns (k: nat)
    requires exists i :: 0 < i < n && !seen(i).ActiveOld?
    ensures 0 < k < n && !seen(k).ActiveOld? && forall i :: 0 < i < k ==> seen(i).ActiveOld?
  {
    k := 1;
    while seen(k).ActiveOld?
      invariant 0 < k < n && forall i :: 0 < i < k ==> seen(i).ActiveOld?
      decreases n - k
    {
      k := k + 1;
    }
  }

  // ---------------------------------------------------------------------------------------
  // What that means for synchronize_rcu

  // Until gp.ctr is flipped for the first time no reader is old.
  ghost predicate NobodyOld(s: State) {
    forall r :: r in s.readers ==> NotOld(s.gp, s.readers[r])
  }

  lemma StepKeepsNobodyOld(test: ExitTest, s: State, e: Step)
    requires NobodyOld(s) && Enabled(s, e) && !e.FlipGp?
    ensures NobodyOld(Apply(test, s, e))
  {
    hide NotOld, Enabled, Apply;
    forall r | r in Apply(test, s, e).readers ensures NotOld(Apply(test, s, e).gp, Apply(test, s, e).readers[r]) {
      SameNames(test, s, e, r);
      StepKeepsNotOld(test, s, e, r);
    }
  }

  lemma {:induction false} NobodyOldBeforeFlip(test: ExitTest, states: seq<State>, steps: seq<Step>, k: nat)
    requires IsRun(test, states, steps) && k <= |steps| && forall m :: 0 <= m < k ==> !steps[m].FlipGp?
    ensures NobodyOld(states[k])
  {
    hide Apply, Enabled, NobodyOld;
    if k > 0 {
      var l := k - 1;
      NobodyOldBeforeFlip(test, states, steps, l);
      assert states[l + 1] == Apply(test, states[l], steps[l]);
      StepKeepsNobodyOld(test, states[l], steps[l]);
    } else {
      NobodyOldAtFirst(states[0]);
    }
  }

  lemma NobodyOldAtFirst(s: State)
    requires Init(s)
    ensures NobodyOld(s)
  {
    hide StateOf;
    OwnPhase(s.gp);
  }

  // In state k of a run reader r is seen as x.
  ghost predicate Met(states: seq<State>, k: nat, r: nat, x: ReaderState) {
    k < |states| && r in states[k].readers && x == StateOf(states[k].gp, states[k].readers[r].ctr)
  }

  // A flip comes only after a first scan that has ended. So the first call that finds a reader
  // registered scans for ever: the reader it meets first, at whatever moment of the run, is not old.
  lemma FirstScanNeverEnds(test: ExitTest, states: seq<State>, steps: seq<Step>, l: Cells, cells: seq<Cell>, seen: nat -> ReaderState)
    requires IsRun(test, states, steps) && forall m :: 0 <= m < |steps| ==> !steps[m].FlipGp?
    requires Ring(l, cells) && cells[0] == Registry && |cells| > 1 && forall i :: 0 < i < |cells| ==> cells[i].Of?
    requires l.prev(CurSnap) == CurSnap && l.prev(Quiescent) == Quiescent
    requires exists k, r :: Met(states, k, r, seen(1))
    ensures forall n: nat :: !Turns(l, Registry, false, seen, n).ended
  {
    hide Apply, Enabled, Init, StateOf, Turns, Ring;
    var k, r :| Met(states, k, r, seen(1));
    NobodyOldBeforeFlip(test, states, steps, k);
    ScanEndsExactly(l, cells, false, seen);
  }

  // In the run of AsWrittenReturnsEarly the one reader is met inside its section: with pointers its
  // cell comes to point to itself, and the call does not return.
  lemma EarlyRunSpins(l: Cells, seen: nat -> ReaderState, n: nat)
    requires Ring(l, [Registry, Of(0)]) && l.prev(CurSnap) == CurSnap && l.prev(Quiescent) == Quiescent
    requires seen(1) == ActiveCurrent && n >= 2
    ensures Turns(l, Registry, false, seen, n).it == Of(0) && !Turns(l, Registry, false, seen, n).ended
  {
    var cells := [Registry, Of(0)];
    OldReadersPassed(l, cells, false, seen, 1);
    assert l.next(cells[1]) == cells[0];
    MoveSpins(l, Of(0), CurSnap);
    SpinsForever(l, Registry, false, seen, 2, n);
    StaysAt(l, Registry, false, seen, 2, n);
  }

  lemma {:induction false} StaysAt(l: Cells, input: Cell, second: bool, seen: nat -> ReaderState, m: nat, n: nat)
    requires !input.Of? && m <= n && Spinning(Turns(l, input, second, seen, m))
    ensures Turns(l, input, second, seen, n).it == Turns(l, input, second, seen, m).it
    decreases n
  {
    if m < n {
      StaysAt(l, input, second, seen, m, n - 1);
      SpinsForever(l, input, second, seen, m, n - 1);
      var s := Turns(l, input, second, seen, n - 1);
      if !seen(n - 1).ActiveOld? {
        MoveSpins(s.links, s.it, if seen(n - 1).ActiveCurrent? && !second then CurSnap else Quiescent);
      }
    }
  }
}
