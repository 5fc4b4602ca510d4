// misc/coroutine/co_routine.cpp and co_ctx.cpp: coroutines that share a stack.
//
// The bytes of a coroutine that is switched out stay on its stack until another coroutine is
// resumed on it; then they are copied to its save buffer, and copied back when it is resumed.
// Whatever a running coroutine does to its own stack is a call of Write.
module CopyStacks {

  type byte = b: int | 0 <= b < 256

  // stack_mem_t, with offsets into stack_buffer for addresses: stack_bp is stack_buffer.Length.
  class StackMem {
    const stack_buffer: array<byte>
    var occupy_co: Coroutine?

    constructor (stack_size: nat)
      requires stack_size >= WORD_SIZE
      ensures fresh(stack_buffer) && stack_buffer.Length == stack_size && occupy_co == null
    {
      stack_buffer := new byte[stack_size];
      occupy_co := null;
    }
  }

  // share_stack_t: stacks that are given out in turn. alloc_idx is 32 bits wide.
  class ShareStack {
    var alloc_idx: nat
    const stack_array: seq<StackMem>

    // ShareStackAlloc
    constructor (count: nat, stack_size: nat)
      requires stack_size >= WORD_SIZE
      ensures alloc_idx == 0 && |stack_array| == count
      ensures forall m :: m in stack_array ==>
                fresh(m) && fresh(m.stack_buffer) && m.occupy_co == null && m.stack_buffer.Length == stack_size
      ensures forall i, j :: 0 <= i < j < count ==> stack_array[i].stack_buffer != stack_array[j].stack_buffer
    {
      var stacks: seq<StackMem> := [];
      for i := 0 to count
        invariant |stacks| == i
        invariant forall m :: m in stacks ==>
                    fresh(m) && fresh(m.stack_buffer) && m.occupy_co == null && m.stack_buffer.Length == stack_size
        invariant forall j, k :: 0 <= j < k < i ==> stacks[j].stack_buffer != stacks[k].stack_buffer
      {
        var m := new StackMem(stack_size);
        assert forall k :: 0 <= k < i ==> stacks[k] in stacks;
        stacks := stacks + [m];
      }
      alloc_idx, stack_array := 0, stacks;
    }

    method StackMemGet() returns (m: StackMem)
      requires |stack_array| > 0
      modifies this
      ensures m == stack_array[old(alloc_idx) % |stack_array|] && alloc_idx == (old(alloc_idx) + 1) % 0x1_0000_0000
    {
      var idx := alloc_idx % |stack_array|;
      alloc_idx := (alloc_idx + 1) % 0x1_0000_0000;
      return stack_array[idx];
    }
  }

  // The size of a stack of one's own: 128 kB by default, at most 8 MB, in pages of 4 kB.
  function FitSize(size: int): (r: nat)
    ensures r % 0x1000 == 0 && 0x1000 <= r <= 8 * 1024 * 1024
    ensures 0 < size <= 8 * 1024 * 1024 ==> size <= r < size + 0x1000
    ensures size <= 0 ==> r == 128 * 1024
    ensures size > 8 * 1024 * 1024 ==> r == 8 * 1024 * 1024
  {
    var s := if size <= 0 then 128 * 1024 else if size > 8 * 1024 * 1024 then 8 * 1024 * 1024 else size;
    if s % 0x1000 != 0 then s - s % 0x1000 + 0x1000 else s
  }

  // A save buffer that is null is an empty sequence here.
  class Coroutine {
    const stack_mem: StackMem
    const is_share_stack: bool
    const is_main: bool
    var start: bool
    var stack_sp: nat
    var save_size: nat
    var save_buffer: seq<byte>
    // The bytes from stack_sp up when the coroutine was last switched out.
    ghost var left: seq<byte>

    constructor (stack_mem: StackMem, is_share_stack: bool, is_main: bool)
      ensures this.stack_mem == stack_mem && this.is_share_stack == is_share_stack && this.is_main == is_main
      ensures !start && save_buffer == [] && save_size == 0
    {
      this.stack_mem, this.is_share_stack, this.is_main := stack_mem, is_share_stack, is_main;
      start, stack_sp, save_size, save_buffer, left := false, 0, 0, [], [];
    }

    function Size(): nat {
      stack_mem.stack_buffer.Length
    }

    // The main coroutine runs from the beginning and is never started.
    ghost predicate Begun()
      reads this
    {
      start || is_main
    }
  }

  const WORD_SIZE: nat := 8
  const CALL_STACK_SIZE: nat := 128

  // The place, aligned to 16, where CoCtxMake writes the address of the coroutine's function.
  function CtxSlot(size: nat): (s: nat)
    requires size >= WORD_SIZE
    ensures s % 16 == 0 && s + WORD_SIZE <= size < s + WORD_SIZE + 16
  {
    (size - WORD_SIZE) / 16 * 16
  }

  predicate InSlot(size: nat, i: nat) {
    size >= WORD_SIZE && CtxSlot(size) <= i < CtxSlot(size) + WORD_SIZE
  }

  // What CoCtxMake makes of the bytes from some offset up.
  function Readdressed(bytes: seq<byte>, from: nat, ret_addr: seq<byte>): (r: seq<byte>)
    requires |ret_addr| == WORD_SIZE
    ensures |r| == |bytes|
    ensures forall i :: 0 <= i < |bytes| ==>
              var size := from + |bytes|;
              r[i] == if InSlot(size, from + i) then ret_addr[from + i - CtxSlot(size)] else bytes[i]
  {
    var size := from + |bytes|;
    seq(|bytes|, i requires 0 <= i < |bytes| =>
      if InSlot(size, from + i) then ret_addr[from + i - CtxSlot(size)] else bytes[i])
  }

  lemma ReaddressedFrom(bytes: seq<byte>, sp: nat, ret_addr: seq<byte>)
    requires sp <= |bytes| && |ret_addr| == WORD_SIZE
    ensures Readdressed(bytes, 0, ret_addr)[sp..] == Readdressed(bytes[sp..], sp, ret_addr)
  {
  }

  // The stack has the bytes that were left from sp up.
  ghost predicate Holds(bytes: seq<byte>, sp: nat, left: seq<byte>) {
    sp <= |bytes| && bytes[sp..] == left
  }

  // A save buffer has them; its first byte is the one at sp.
  ghost predicate Saves(saved: seq<byte>, size: nat, sp: nat, left: seq<byte>) {
    saved == left && sp + |left| == size
  }

  // What a coroutine that is switched out had is on its stack, if it occupies it, or in its buffer.
  ghost predicate Kept(c: Coroutine)
    reads c, c.stack_mem, c.stack_mem.stack_buffer
  {
    if !c.is_share_stack || c.stack_mem.occupy_co == c then
      Holds(c.stack_mem.stack_buffer[..], c.stack_sp, c.left)
    else
      c.save_size == |c.save_buffer| && Saves(c.save_buffer, c.Size(), c.stack_sp, c.left)
  }

  // ---------------------------------------------------------------------------------------
  // What happened, in order

  // A coroutine is switched to and finds some bytes on its stack, writes to its stack, or is
  // switched out with its stack pointer at sp and some bytes on its stack.
  datatype Event =
    | Entered(co: Coroutine, bytes: seq<byte>)
    | Wrote(co: Coroutine, i: nat, b: byte)
    | Left(co: Coroutine, sp: nat, bytes: seq<byte>)

  // One coroutine's own story: what is on its stack while it runs, or what it had when it left. top
  // says that nobody else has been entered on its stack since.
  datatype Own = NotBegun | Inside(bytes: seq<byte>) | Outside(sp: nat, bytes: seq<byte>, top: bool)

  // The story goes on with an event of its own.
  ghost function Next(o: Own, e: Event): Own {
    match e
    case Entered(_, bytes) => Inside(bytes)
    case Wrote(_, i, b) => if o.Inside? && i < |o.bytes| then Inside(o.bytes[i := b]) else o
    case Left(_, sp, bytes) => Outside(sp, bytes, true)
  }

  // All that others do to it: a coroutine that is entered on its stack for the first time, before
  // anybody else is, has had the address of its function written into the slot.
  ghost function FromOthers(o: Own, e: Event, first: bool): Own {
    if !o.Outside? || !e.Entered? then o
    else if o.top && first && |e.bytes| == |o.bytes| >= WORD_SIZE then
      Outside(o.sp, Readdressed(o.bytes, 0, SlotOf(e.bytes)), false)
    else o.(top := false)
  }

  function SlotOf(bytes: seq<byte>): (r: seq<byte>)
    requires |bytes| >= WORD_SIZE
    ensures |r| == WORD_SIZE
  {
    bytes[CtxSlot(|bytes|)..CtxSlot(|bytes|) + WORD_SIZE]
  }

  ghost function Story(log: seq<Event>, co: Coroutine): Own {
    if log == [] then NotBegun
    else
      var e, before := log[|log| - 1], log[..|log| - 1];
      GoesOn(Story(before, co), co, e, Story(before, e.co))
  }

  // other is the story of the coroutine of the event.
  ghost function GoesOn(o: Own, co: Coroutine, e: Event, other: Own): Own {
    if e.co == co then Next(o, e)
    else if e.co.stack_mem == co.stack_mem then FromOthers(o, e, other.NotBegun?)
    else o
  }

  // It is as if the coroutine had its stack for itself, but for that slot: while it runs only its own
  // writes change what is on it, and when it is switched to again it finds what it left from its
  // stack pointer up.
  ghost predicate Follows(o: Own, e: Event) {
    match e
    case Entered(co, bytes) =>
      && |bytes| == co.Size()
      && (o.NotBegun? || (o.Outside? && o.sp <= |o.bytes| == |bytes| && bytes[o.sp..] == o.bytes[o.sp..]))
    case Wrote(_, i, _) => o.Inside? && i < |o.bytes|
    case Left(_, sp, bytes) => o.Inside? && bytes == o.bytes && sp <= |bytes|
  }

  ghost predicate Private(log: seq<Event>) {
    forall k, e :: 0 <= k < |log| && e == log[k] ==> Follows(Story(log[..k], e.co), e)
  }

  lemma StoryAdded(log: seq<Event>, e: Event, co: Coroutine)
    ensures Story(log + [e], co) == GoesOn(Story(log, co), co, e, Story(log, e.co))
  {
    assert (log + [e])[..|log|] == log;
  }

  lemma PrivateAdded(log: seq<Event>, e: Event)
    requires Private(log) && Follows(Story(log, e.co), e)
    ensures Private(log + [e])
  {
    hide Follows;
    var more := log + [e];
    forall k, f | 0 <= k < |more| && f == more[k] ensures Follows(Story(more[..k], f.co), f) {
      assert more[..k] == log[..k];
      assert k == |log| ==> log[..k] == log;
    }
  }

  // One coroutine leaves and another one is entered.
  lemma SwitchAdded(log: seq<Event>, left: Event, entered: Event, co: Coroutine)
    requires Private(log) && left.Left? && entered.Entered? && left.co != entered.co
    requires Follows(Story(log, left.co), left)
    requires Follows(Story(log, entered.co), entered)
    ensures Private(log + [left, entered])
    ensures Story(log + [left, entered], co) ==
            var o := if co == left.co then Outside(left.sp, left.bytes, true) else Story(log, co);
            GoesOn(o, co, entered, Story(log, entered.co))
  {
    hide Follows, Private, Story;
    assert log + [left, entered] == log + [left] + [entered];
    StoryAdded(log, left, co);
    StoryAdded(log, left, entered.co);
    StoryAdded(log + [left], entered, co);
    PrivateAdded(log, left);
    PrivateAdded(log + [left], entered);
  }

  // No event of co from i up to j.
  ghost predicate Quiet(log: seq<Event>, co: Coroutine, i: nat, j: nat) {
    forall k :: i <= k < j && k < |log| ==> log[k].co != co
  }

  lemma StoryStep(log: seq<Event>, k: nat, co: Coroutine)
    requires k < |log|
    ensures Story(log[..k + 1], co) == GoesOn(Story(log[..k], co), co, log[k], Story(log[..k], log[k].co))
  {
    assert log[..k + 1] == log[..k] + [log[k]];
    StoryAdded(log[..k], log[k], co);
  }

  // A story begins with the coroutine's first event, which enters it.
  lemma {:induction false} BegunByEvents(log: seq<Event>, k: nat, co: Coroutine)
    requires Private(log) && k <= |log|
    ensures Story(log[..k], co).NotBegun? <==> Quiet(log, co, 0, k)
  {
    if k > 0 {
      var l := k - 1;
      BegunByEvents(log, l, co);
      StoryStep(log, l, co);
      assert Follows(Story(log[..l], log[l].co), log[l]);
      hide Story;
    }
  }

  // Somebody else is entered on co's stack.
  ghost predicate Above(log: seq<Event>, co: Coroutine, k: nat) {
    k < |log| && log[k].Entered? && log[k].co != co && log[k].co.stack_mem == co.stack_mem
  }

  ghost predicate Uncovered(log: seq<Event>, co: Coroutine, i: nat, j: nat) {
    forall k :: i <= k < j ==> !Above(log, co, k)
  }

  // What has become of the bytes left at i, when k is the next time that somebody else is entered on
  // the stack: if that is for the first time, CoCtxMake has written the address into its slot.
  ghost function CoveredBytes(log: seq<Event>, i: nat, k: nat): seq<byte>
    requires i < |log| && log[i].Left? && k < |log| && log[k].Entered? && |log[k].bytes| >= WORD_SIZE
  {
    if Quiet(log, log[k].co, 0, k) then Readdressed(log[i].bytes, 0, SlotOf(log[k].bytes)) else log[i].bytes
  }

  lemma {:induction false} StaysOnTop(log: seq<Event>, i: nat, j: nat)
    requires Private(log) && i < j <= |log| && log[i].Left? && Quiet(log, log[i].co, i + 1, j)
    requires Uncovered(log, log[i].co, i + 1, j)
    ensures Story(log[..j], log[i].co) == Outside(log[i].sp, log[i].bytes, true)
  {
    var k, co := j - 1, log[i].co;
    StoryStep(log, k, co);
    hide Story;
    if i < k {
      StaysOnTop(log, i, k);
      assert !Above(log, co, k);
    }
  }

  lemma EnteredSize(log: seq<Event>, k: nat)
    requires Private(log) && k < |log| && log[k].Entered?
    ensures |log[k].bytes| == log[k].co.Size()
  {
    assert Follows(Story(log[..k], log[k].co), log[k]);
  }

  lemma {:induction false} IsCovered(log: seq<Event>, i: nat, k: nat, j: nat)
    requires Private(log) && i < k < j <= |log| && log[i].Left? && Quiet(log, log[i].co, i + 1, j)
    requires Uncovered(log, log[i].co, i + 1, k) && Above(log, log[i].co, k) && log[i].co.Size() >= WORD_SIZE
    ensures |log[k].bytes| == log[i].co.Size() == |log[i].bytes|
    ensures Story(log[..j], log[i].co) == Outside(log[i].sp, CoveredBytes(log, i, k), false)
  {
    hide Readdressed, SlotOf, CtxSlot;
    var l, co := j - 1, log[i].co;
    hide Story, Private, Uncovered, CoveredBytes;
    StoryStep(log, l, co);
    if k < l {
      IsCovered(log, i, k, l);
    } else {
      BecomesCovered(log, i, k);
    }
  }

  lemma BecomesCovered(log: seq<Event>, i: nat, k: nat)
    requires Private(log) && i < k < |log| && log[i].Left? && Quiet(log, log[i].co, i + 1, k)
    requires Uncovered(log, log[i].co, i + 1, k) && Above(log, log[i].co, k) && log[i].co.Size() >= WORD_SIZE
    ensures |log[k].bytes| == log[i].co.Size() == |log[i].bytes|
    ensures GoesOn(Story(log[..k], log[i].co), log[i].co, log[k], Story(log[..k], log[k].co)) ==
            Outside(log[i].sp, CoveredBytes(log, i, k), false)
  {
    EnteredSize(log, k);
    StaysOnTop(log, i, k);
    StorySize(log, k, log[i].co);
    BegunByEvents(log, k, log[k].co);
    hide Story, Private, Uncovered, Quiet;
  }

  // A coroutine is switched out at i, and j is the next time it is entered.
  ghost predicate ReturnsAt(log: seq<Event>, i: nat, j: nat) {
    i < j < |log| && log[i].Left? && log[j].Entered? && log[i].co == log[j].co && Quiet(log, log[i].co, i + 1, j)
  }

  // Then it finds, from its stack pointer up, exactly what it had, if nobody else has been entered on
  // its stack in between ...
  lemma ReturnFindsWhatWasLeft(log: seq<Event>, i: nat, j: nat)
    requires Private(log) && ReturnsAt(log, i, j) && Uncovered(log, log[i].co, i + 1, j)
    ensures log[i].sp <= |log[i].bytes| == |log[j].bytes| && log[j].bytes[log[i].sp..] == log[i].bytes[log[i].sp..]
  {
    StaysOnTop(log, i, j);
    assert Follows(Story(log[..j], log[j].co), log[j]);
  }

  // ... and also if somebody has, but for the slot when the next one there is entered for the first
  // time.
  lemma ReturnFindsWhatWasSaved(log: seq<Event>, i: nat, k: nat, j: nat)
    requires Private(log) && ReturnsAt(log, i, j) && log[i].co.Size() >= WORD_SIZE
    requires i < k < j && Uncovered(log, log[i].co, i + 1, k) && Above(log, log[i].co, k)
    ensures log[i].sp <= |log[i].bytes| == |log[j].bytes| == |log[k].bytes| == log[i].co.Size()
    ensures log[j].bytes[log[i].sp..] == CoveredBytes(log, i, k)[log[i].sp..]
  {
    IsCovered(log, i, k, j);
    assert Follows(Story(log[..j], log[j].co), log[j]);
  }

  // And whenever a coroutine is entered, it is for the first time or such a return.
  lemma EveryEntry(log: seq<Event>, j: nat)
    requires Private(log) && j < |log| && log[j].Entered?
    ensures Quiet(log, log[j].co, 0, j) || exists i :: ReturnsAt(log, i, j)
  {
    var co := log[j].co;
    if !Quiet(log, co, 0, j) {
      var i := LastEvent(log, co, j);
      BegunByEvents(log, j, co);
      assert Follows(Story(log[..j], co), log[j]) && Follows(Story(log[..i], co), log[i]);
      StoryStep(log, i, co);
      hide Story;
      StaysInside(log, co, i, j);
      assert ReturnsAt(log, i, j);
    }
  }

  // Only a coroutine's own events take it out or in.
  lemma {:induction false} StaysInside(log: seq<Event>, co: Coroutine, i: nat, j: nat)
    requires i < j <= |log| && Quiet(log, co, i + 1, j)
    ensures Story(log[..j], co).Outside? <==> Story(log[..i + 1], co).Outside?
  {
    if i + 1 < j {
      StaysInside(log, co, i, j - 1);
      StoryStep(log, j - 1, co);
      hide Story;
    }
  }

  lemma {:induction false} LastEvent(log: seq<Event>, co: Coroutine, j: nat) returns (i: nat)
    requires j <= |log| && !Quiet(log, co, 0, j)
    ensures i < j && log[i].co == co && Quiet(log, co, i + 1, j)
  {
    i := j - 1;
    if log[i].co != co {
      i := LastEvent(log, co, i);
    }
  }

  // Whatever the others do between i and j, a coroutine still has what it wrote at i, unless it has
  // written there again or has left with its stack pointer above it, or the place is in the slot and
  // a coroutine has been entered for the first time on its stack.
  ghost predicate Untouched(log: seq<Event>, co: Coroutine, a: nat, i: nat, j: nat) {
    forall k :: i <= k < j && k < |log| ==>
      && (log[k].co == co && log[k].Wrote? ==> log[k].i != a)
      && (log[k].co == co && log[k].Left? ==> log[k].sp <= a)
      && (InSlot(co.Size(), a) && Above(log, co, k) ==> !Quiet(log, log[k].co, 0, k))
  }

  lemma {:induction false} KeepsWhatItWrote(log: seq<Event>, i: nat, j: nat)
    requires Private(log) && i < j <= |log| && log[i].Wrote? && Untouched(log, log[i].co, log[i].i, i + 1, j)
    ensures var o := Story(log[..j], log[i].co);
      && !o.NotBegun? && |o.bytes| == log[i].co.Size() && log[i].i < |o.bytes| && o.bytes[log[i].i] == log[i].b
      && (o.Outside? ==> o.sp <= log[i].i)
    decreases j
  {
    var k, co := j - 1, log[i].co;
    var e, o := log[k], Story(log[..k], co);
    StoryStep(log, k, co);
    StorySize(log, k, co);
    BegunByEvents(log, k, e.co);
    assert Follows(Story(log[..k], e.co), e);
    hide Story, Private, Quiet;
    if i < k {
      KeepsWhatItWrote(log, i, k);
      ByteKept(o, co, e, Story(log[..k], e.co), log[i].i, log[i].b);
    }
  }

  lemma ByteKept(o: Own, co: Coroutine, e: Event, other: Own, a: nat, b: byte)
    requires !o.NotBegun? && |o.bytes| == co.Size() && a < |o.bytes| && o.bytes[a] == b && (o.Outside? ==> o.sp <= a)
    requires Follows(other, e) && (e.co == co ==> other == o)
    requires e.co == co ==> (e.Wrote? ==> e.i != a) && (e.Left? ==> e.sp <= a)
    requires InSlot(co.Size(), a) && e.Entered? && e.co != co && e.co.stack_mem == co.stack_mem ==> !other.NotBegun?
    ensures var o' := GoesOn(o, co, e, other);
      && !o'.NotBegun? && |o'.bytes| == co.Size() && o'.bytes[a] == b && (o'.Outside? ==> o'.sp <= a)
  {
    if e.co == co && e.Entered? {
      assert e.bytes[a] == o.bytes[o.sp..][a - o.sp];
    }
  }

  // A coroutine's story always has as many bytes as its stack.
  lemma {:induction false} StorySize(log: seq<Event>, j: nat, co: Coroutine)
    requires Private(log) && j <= |log|
    ensures var o := Story(log[..j], co); !o.NotBegun? ==> |o.bytes| == co.Size()
  {
    if j > 0 {
      var k := j - 1;
      var e := log[k];
      StorySize(log, k, co);
      StoryStep(log, k, co);
      assert Follows(Story(log[..k], e.co), e);
      hide Story;
    }
  }

  ghost predicate Named(log: seq<Event>, coroutines: set<Coroutine>) {
    forall e :: e in log ==> e.co in coroutines
  }

  // o is where c is: it runs, has left, or has not begun.
  ghost predicate Told(c: Coroutine, running: bool, o: Own)
    reads c, c.stack_mem, c.stack_mem.stack_buffer
  {
    if running then o == Inside(c.stack_mem.stack_buffer[..])
    else Away(o, c.Begun(), c.stack_sp, c.left, c.is_share_stack, c.stack_mem.occupy_co == c)
  }

  ghost predicate Away(o: Own, begun: bool, sp: nat, left: seq<byte>, shared: bool, occupies: bool) {
    if begun then o.Outside? && o.sp == sp && Holds(o.bytes, sp, left) && (shared ==> (o.top <==> occupies)) else o.NotBegun?
  }

  lemma NotNamed(log: seq<Event>, coroutines: set<Coroutine>, co: Coroutine)
    requires Private(log) && Named(log, coroutines) && co !in coroutines
    ensures Story(log, co).NotBegun?
  {
    assert Quiet(log, co, 0, |log|);
    BegunByEvents(log, |log|, co);
    assert log[..|log|] == log;
  }

  class Env {
    var call_stack: seq<Coroutine>
    var pending_co: Coroutine?
    var occupy_co: Coroutine?
    ghost var coroutines: set<Coroutine>
    // All that has happened since the main coroutine began.
    ghost var log: seq<Event>

    ghost function Stacks(): set<StackMem>
      reads this`coroutines
    {
      set c | c in coroutines :: c.stack_mem
    }

    ghost function Parts(): set<object>
      reads this`coroutines
    {
      coroutines + Stacks() + set c | c in coroutines :: c.stack_mem.stack_buffer
    }

    ghost function Objects(): set<object>
      reads this`coroutines
    {
      {this} + Parts()
    }

    // Each stack has its own memory, and only coroutines that share stacks have one together.
    ghost predicate Apart()
      reads this`coroutines
    {
      && (forall c :: c in coroutines ==> c.Size() >= WORD_SIZE)
      && (forall c, d :: c in coroutines && d in coroutines && c.stack_mem != d.stack_mem ==>
            c.stack_mem.stack_buffer != d.stack_mem.stack_buffer)
      && forall c, d :: c in coroutines && d in coroutines && c != d && c.stack_mem == d.stack_mem ==>
           c.is_share_stack && d.is_share_stack
    }

    // The stack of a coroutine is occupied, if at all, by one that has begun and shares it.
    ghost predicate OccupiedWell(c: Coroutine)
      reads c.stack_mem, coroutines, this`coroutines
    {
      var o := c.stack_mem.occupy_co;
      o != null ==> o in coroutines && o.Begun() && o.stack_mem == c.stack_mem && o.is_share_stack
    }

    // It is occupied once a coroutine that shares it, other than x, has begun.
    ghost predicate Occupied(x: Coroutine?)
      reads this`coroutines, coroutines, Stacks()
    {
      forall c :: c in coroutines ==>
        OccupiedWell(c) && (c.is_share_stack && c.Begun() && c != x ==> c.stack_mem.occupy_co != null)
    }

    // The chain of calls starts with the main coroutine, and no coroutine is in it twice.
    ghost predicate Called()
      reads this`coroutines, this`call_stack, coroutines
    {
      && 0 < |call_stack| <= CALL_STACK_SIZE
      && (forall i :: 0 <= i < |call_stack| ==> call_stack[i] in coroutines && call_stack[i].Begun())
      && (forall i, j :: 0 <= i < j < |call_stack| ==> call_stack[i] != call_stack[j])
      && forall c :: c in coroutines && c.is_main ==> c == call_stack[0]
    }

    function Running(): Coroutine
      requires call_stack != []
      reads this`call_stack
    {
      call_stack[|call_stack| - 1]
    }

    // All that are switched out, but x, have what they left.
    ghost predicate AllKept(x: Coroutine)
      reads this`coroutines, Parts()
    {
      forall c :: c in coroutines && c.Begun() && c != x ==> Kept(c)
    }

    // x is running.
    ghost predicate Settled(x: Coroutine)
      reads this`coroutines, Parts(), x, x.stack_mem
    {
      Apart() && Occupied(null) && AllKept(x) && (x.is_share_stack ==> x.stack_mem.occupy_co == x)
    }

    // curr is about to hand over to pending, which may just have been started.
    ghost predicate Switching(curr: Coroutine, pending: Coroutine, back: bool)
      reads this`coroutines, Parts(), curr, curr.stack_mem, pending
    {
      && Apart() && curr in coroutines && pending in coroutines && curr != pending && curr.Begun() && pending.Begun()
      && Occupied(if back then null else pending)
      && (curr.is_share_stack ==> curr.stack_mem.occupy_co == curr)
      && forall c :: c in coroutines && c.Begun() && c != curr && (back || c != pending) ==> Kept(c)
    }

    // One coroutine runs, and the others have what they left.
    ghost predicate Sound()
      reads this`coroutines, this`call_stack, Parts()
    {
      Called() && Settled(Running())
    }

    ghost predicate Valid()
      reads this, Objects()
    {
      Sound() && Logged()
    }

    // The log says where each coroutine is, and gives each a stack for itself.
    ghost predicate Logged()
      reads this, Objects()
    {
      call_stack != [] && Running() in coroutines && Private(log) && Named(log, coroutines) && forall c :: c in coroutines ==> Told(c, c == Running(), Story(log, c))
    }

    // CurrThreadEnvInit: the main coroutine runs. What its stack_mem holds stands for the thread's
    // own stack.
    constructor (main_mem: StackMem)
      requires main_mem.stack_buffer.Length >= WORD_SIZE && main_mem.occupy_co == null
      ensures Valid() && |call_stack| == 1 && coroutines == {call_stack[0]} && fresh(call_stack[0])
      ensures call_stack[0].is_main && call_stack[0].stack_mem == main_mem
      ensures log == [Entered(call_stack[0], main_mem.stack_buffer[..])]
    {
      var main := new Coroutine(main_mem, false, true);
      call_stack, pending_co, occupy_co, coroutines := [main], null, null, {main};
      ghost var e := Entered(main, main_mem.stack_buffer[..]);
      log := [] + [e];
      StoryAdded([], e, main);
      PrivateAdded([], e);
    }

    // A stack that a new coroutine may have.
    ghost predicate Usable(stack_mem: StackMem, shared: bool)
      reads this, stack_mem
    {
      && stack_mem.stack_buffer.Length >= WORD_SIZE
      && (stack_mem !in Stacks() ==> stack_mem.occupy_co == null)
      && forall c :: c in coroutines ==>
           && (c.stack_mem == stack_mem <==> c.stack_mem.stack_buffer == stack_mem.stack_buffer)
           && (c.stack_mem == stack_mem ==> shared && c.is_share_stack)
    }

    // A new coroutine has the next of the shared stacks, or a stack of its own of the size asked
    // for, made fit.
    method CoCreate(share_stack: ShareStack?, stack_size: int) returns (co: Coroutine)
      requires Valid() && (share_stack != null ==> |share_stack.stack_array| > 0)
      requires share_stack != null ==> forall m :: m in share_stack.stack_array ==> Usable(m, true)
      modifies this`coroutines, share_stack
      ensures Valid() && fresh(co) && coroutines == old(coroutines) + {co} && !co.start && !co.is_main
      ensures log == old(log) && (co.is_share_stack <==> share_stack != null)
      ensures share_stack == null ==> fresh(co.stack_mem) && co.Size() == FitSize(stack_size)
      ensures share_stack != null ==>
                && co.stack_mem == share_stack.stack_array[old(share_stack.alloc_idx) % |share_stack.stack_array|]
                && share_stack.alloc_idx == (old(share_stack.alloc_idx) + 1) % 0x1_0000_0000
    {
      hide Sound, Story, Private, Holds;
      LoggedParts();
      ghost var before := coroutines;
      var stack_mem;
      if share_stack != null {
        stack_mem := share_stack.StackMemGet();
      } else {
        stack_mem := new StackMem(FitSize(stack_size));
      }
      co := NewCoroutine(stack_mem, share_stack != null);
      NotNamed(log, before, co);
    }

    method NewCoroutine(stack_mem: StackMem, is_share_stack: bool) returns (co: Coroutine)
      requires Sound() && Usable(stack_mem, is_share_stack)
      modifies this`coroutines
      ensures Sound() && fresh(co) && coroutines == old(coroutines) + {co} && !co.start && !co.is_main
      ensures co.stack_mem == stack_mem && co.is_share_stack == is_share_stack
    {
      hide Holds, Saves;
      co := new Coroutine(stack_mem, is_share_stack, false);
      coroutines := coroutines + {co};
    }

    // Copies the bytes of a coroutine that is about to lose its stack.
    method StackBufferSave(co: Coroutine)
      requires co.is_share_stack && Holds(co.stack_mem.stack_buffer[..], co.stack_sp, co.left)
      modifies co`save_buffer, co`save_size
      ensures co.save_size == |co.save_buffer| && Saves(co.save_buffer, co.Size(), co.stack_sp, co.left)
    {
      var len := co.Size() - co.stack_sp;
      co.save_buffer := [];
      co.save_size := len;
      co.save_buffer := co.stack_mem.stack_buffer[co.stack_sp..];
    }

    // What pending has left is still on its stack, or is in its save buffer and will be copied back.
    ghost predicate CanReturn(pending: Coroutine)
      reads this, pending, pending.stack_mem, pending.stack_mem.stack_buffer
    {
      if pending.is_share_stack && occupy_co != pending then
        && occupy_co != null && pending_co == pending && pending.save_size == |pending.save_buffer|
        && Saves(pending.save_buffer, pending.Size(), pending.stack_sp, pending.left)
      else
        && (!pending.is_share_stack || pending_co == pending == occupy_co)
        && (!pending.is_share_stack ==> pending_co == occupy_co == null)
        && Holds(pending.stack_mem.stack_buffer[..], pending.stack_sp, pending.left)
    }

    // The first part of CoSwap: curr is switched out with its stack pointer at sp, and pending
    // takes the stack it shares from its occupant. back says that pending was switched out before.
    method SwitchOut(curr: Coroutine, pending: Coroutine, sp: nat, ghost back: bool)
      requires Switching(curr, pending, back) && sp <= curr.Size()
      modifies this`pending_co, this`occupy_co, curr`stack_sp, curr`left, pending.stack_mem
      modifies coroutines`save_buffer, coroutines`save_size
      ensures Settled(pending)
      ensures back ==> CanReturn(pending)
      ensures curr.stack_sp == sp && curr.left == curr.stack_mem.stack_buffer[sp..]
      ensures pending.stack_mem.occupy_co == if pending.is_share_stack then pending else old(pending.stack_mem.occupy_co)
    {
      curr.stack_sp := sp;
      curr.left := curr.stack_mem.stack_buffer[sp..];
      assert Kept(curr);
      if !pending.is_share_stack {
        pending_co, occupy_co := null, null;
      } else {
        TakeStack(pending, back);
      }
    }

    // Saves the bytes of the stack's occupant, unless it is pending, which becomes the occupant.
    method TakeStack(pending: Coroutine, ghost back: bool)
      requires Apart() && pending in coroutines && pending.is_share_stack && pending.Begun()
      requires Occupied(if back then null else pending)
      requires forall c :: c in coroutines && c.Begun() && (back || c != pending) ==> Kept(c)
      modifies this`pending_co, this`occupy_co, pending.stack_mem
      modifies coroutines`save_buffer, coroutines`save_size
      ensures Occupied(null) && pending.stack_mem.occupy_co == pending
      ensures AllKept(pending)
      ensures back ==> CanReturn(pending)
    {
      pending_co := pending;
      var occupy := pending.stack_mem.occupy_co;
      assert occupy != null && occupy != pending ==> Kept(occupy);
      pending.stack_mem.occupy_co := pending;
      occupy_co := occupy;
      if occupy != null && occupy != pending {
        StackBufferSave(occupy);
      }
    }

    // The second part, when pending runs again in its own call of CoSwap.
    method SwitchIn(pending: Coroutine)
      requires CanReturn(pending)
      modifies pending.stack_mem.stack_buffer
      ensures Holds(pending.stack_mem.stack_buffer[..], pending.stack_sp, pending.left)
    {
      var update_occupy_co, update_pending_co := occupy_co, pending_co;
      if update_occupy_co != null && update_pending_co != null && update_occupy_co != update_pending_co {
        if update_pending_co.save_size > 0 {
          var buffer, sp := update_pending_co.stack_mem.stack_buffer, update_pending_co.stack_sp;
          forall i | sp <= i < sp + update_pending_co.save_size {
            buffer[i] := update_pending_co.save_buffer[i - sp];
          }
        }
      }
    }

    // Switches from curr to pending. What curr leaves is noted; if pending was switched out before
    // it finds what it left.
    method CoSwap(curr: Coroutine, pending: Coroutine, sp: nat, back: bool)
      requires Switching(curr, pending, back) && sp <= curr.Size()
      modifies this`pending_co, this`occupy_co, curr`stack_sp, curr`left, pending.stack_mem
      modifies coroutines`save_buffer, coroutines`save_size, pending.stack_mem.stack_buffer
      ensures Settled(pending) && (old(Called()) ==> Called())
      ensures curr.stack_sp == sp && curr.left == old(curr.stack_mem.stack_buffer[sp..])
      ensures back ==> Holds(pending.stack_mem.stack_buffer[..], pending.stack_sp, pending.left)
      ensures !back ==> pending.stack_mem.stack_buffer[..] == old(pending.stack_mem.stack_buffer[..])
      ensures pending.stack_mem.occupy_co == if pending.is_share_stack then pending else old(pending.stack_mem.occupy_co)
    {
      SwitchOut(curr, pending, sp, back);
      if back {
        SwitchIn(pending);
        forall c | c in coroutines && c.Begun() && c != pending ensures Kept(c) {
        }
      }
    }

    // A coroutine calls another one, that is not in the chain of calls already. If that one was
    // switched out before, it finds what it left; otherwise its stack is as CoCtxMake has made it, and
    // so is what the occupant of that stack had. The caller's bytes are noted.
    method CoResume(co: Coroutine, sp: nat, ret_addr: seq<byte>)
      requires Valid() && co in coroutines && co !in call_stack && |call_stack| < CALL_STACK_SIZE
      requires sp <= Running().Size() && |ret_addr| == WORD_SIZE
      modifies Objects()
      ensures Valid() && coroutines == old(coroutines) && call_stack == old(call_stack) + [co] && co.start
      ensures log == old(log) + [Left(old(Running()), sp, old(Running().stack_mem.stack_buffer[..])),
                                 Entered(co, co.stack_mem.stack_buffer[..])]
      ensures if old(co.start) then Holds(co.stack_mem.stack_buffer[..], co.stack_sp, co.left)
              else co.stack_mem.stack_buffer[..] == Readdressed(old(co.stack_mem.stack_buffer[..]), 0, ret_addr)
      ensures forall c :: c in coroutines && c != co ==> c.start == old(c.start)
      ensures forall c :: c in coroutines && c != old(Running()) ==>
                && c.stack_sp == old(c.stack_sp)
                && c.left == if !old(co.start) && old(co.stack_mem.occupy_co) == c
                             then Readdressed(old(c.left), old(c.stack_sp), ret_addr) else old(c.left)
      ensures var curr := old(Running());
        && curr.stack_sp == sp
        && curr.left == if !old(co.start) && curr.stack_mem == co.stack_mem
                        then Readdressed(old(curr.stack_mem.stack_buffer[sp..]), sp, ret_addr)
                        else old(curr.stack_mem.stack_buffer[sp..])
    {
      hide Sound, Parts, Logged, Holds, Private, Story, Called, GoesOn, Readdressed;
      NotAlone();
      ghost var curr, before, h := Running(), Running().stack_mem.stack_buffer[..], log;
      LoggedParts();
      CallParts(co);
      ApartParts();
      SlotIs(co.stack_mem.stack_buffer[..], ret_addr);
      StoryHasSize(h, co);
      ghost var o := Story(h, co);
      assert Told(co, false, o);
      Resume(co, sp, ret_addr);
      Beside();
      ghost var left, entered := Left(curr, sp, before), Entered(co, co.stack_mem.stack_buffer[..]);
      log := log + [left, entered];
      forall c | c in coroutines && c != curr && c != co
        ensures Told(c, false, GoesOn(Story(h, c), c, entered, Story(h, co)))
      {
        assert old(Told(c, false, Story(log, c)));
        StoryHasSize(h, c);
        AwayGoesOn(Story(h, c), c, entered, Story(h, co), old(c.Begun()), old(c.stack_sp), old(c.left), c.left,
                   old(c.stack_mem.occupy_co == c), c.stack_mem.occupy_co == c, ret_addr);
      }
      EntryFollows(o, entered, old(co.start), old(co.stack_sp), old(co.left), old(co.stack_mem.occupy_co == co));
      LeftIsAway(sp, before, curr.is_share_stack);
      AwayGoesOn(Outside(sp, before, true), curr, entered, o, true, sp, before[sp..], curr.left, true,
                 curr.stack_mem.occupy_co == curr, ret_addr);
      LoggedAgain(h, curr, co, sp, before);
    }

    // The same without the log.
    method Resume(co: Coroutine, sp: nat, ret_addr: seq<byte>)
      requires Sound() && co in coroutines && co !in call_stack && |call_stack| < CALL_STACK_SIZE
      requires sp <= Running().Size() && |ret_addr| == WORD_SIZE
      modifies Objects()
      ensures Sound() && coroutines == old(coroutines) && call_stack == old(call_stack) + [co] && co.start && log == old(log)
      ensures if old(co.start) then Holds(co.stack_mem.stack_buffer[..], co.stack_sp, co.left)
              else co.stack_mem.stack_buffer[..] == Readdressed(old(co.stack_mem.stack_buffer[..]), 0, ret_addr)
      ensures forall c :: c in coroutines && c != co ==> c.start == old(c.start)
      ensures forall c :: c in coroutines && c != old(Running()) ==>
                && c.stack_sp == old(c.stack_sp)
                && c.left == if !old(co.start) && old(co.stack_mem.occupy_co) == c
                             then Readdressed(old(c.left), old(c.stack_sp), ret_addr) else old(c.left)
      ensures var curr := old(Running());
        && curr.stack_sp == sp
        && curr.left == if !old(co.start) && curr.stack_mem == co.stack_mem
                        then Readdressed(old(curr.stack_mem.stack_buffer[sp..]), sp, ret_addr)
                        else old(curr.stack_mem.stack_buffer[sp..])
      ensures forall c :: c in coroutines ==>
                c.stack_mem.occupy_co == if co.is_share_stack && c.stack_mem == co.stack_mem then co else old(c.stack_mem.occupy_co)
    {
      hide Apart, Kept, Occupied, OccupiedWell, Stacks, Holds, Saves, InSlot, CtxSlot, AllKept, Called, Settled, Switching, Parts, Sound, Readdressed;
      SoundParts();
      var curr := call_stack[|call_stack| - 1];
      var back := co.start;
      InObjects(co);
      InObjects(curr);
      ghost var before := curr.stack_mem.stack_buffer[..];
      ApartBuffers();
      Enter(co, ret_addr);
      SwitchingParts(curr, co, back);
      ReaddressedFrom(before, sp, ret_addr);
      CoSwap(curr, co, sp, back);
      SoundFrom();
    }

    // What CoResume does before the switch.
    method Enter(co: Coroutine, ret_addr: seq<byte>)
      requires Sound() && co in coroutines && co !in call_stack && |call_stack| < CALL_STACK_SIZE
      requires |ret_addr| == WORD_SIZE
      modifies this`call_stack, co`start, co.stack_mem.stack_buffer, coroutines`left
      ensures call_stack == old(call_stack) + [co] && co.start && Called()
      ensures old(call_stack) != [] && Switching(old(Running()), co, old(co.start))
      ensures co.stack_mem.stack_buffer[..] ==
              if old(co.start) then old(co.stack_mem.stack_buffer[..])
              else Readdressed(old(co.stack_mem.stack_buffer[..]), 0, ret_addr)
      ensures forall c :: c in coroutines && c != old(Running()) ==>
                c.left == if !old(co.start) && co.stack_mem.occupy_co == c
                          then Readdressed(old(c.left), c.stack_sp, ret_addr) else old(c.left)
    {
      hide Readdressed, Holds, Saves, InSlot, CtxSlot;
      if !co.start {
        Start(co, ret_addr);
      }
      call_stack := call_stack + [co];
    }

    method Start(co: Coroutine, ret_addr: seq<byte>)
      requires Sound() && co in coroutines && co !in call_stack && !co.start && |ret_addr| == WORD_SIZE
      modifies co`start, co.stack_mem.stack_buffer, coroutines`left
      ensures Called() && co.start && Switching(Running(), co, false)
      ensures co.stack_mem.stack_buffer[..] == Readdressed(old(co.stack_mem.stack_buffer[..]), 0, ret_addr)
      ensures forall c :: c in coroutines && c != Running() ==>
                c.left == if co.stack_mem.occupy_co == c then Readdressed(old(c.left), c.stack_sp, ret_addr) else old(c.left)
    {
      hide Readdressed, Saves, InSlot, CtxSlot;
      ghost var o := co.stack_mem.occupy_co;
      assert o != null && o != Running() ==> o in coroutines && Kept(o) && o.stack_mem == co.stack_mem;
      MakeContext(co, if o == Running() then null else o, ret_addr);
      co.start := true;
    }

    // The occupant o, if it is switched out, now has the address in its slot.
    method MakeContext(co: Coroutine, ghost o: Coroutine?, ret_addr: seq<byte>)
      requires co.Size() >= WORD_SIZE && |ret_addr| == WORD_SIZE
      requires o != null ==> o.stack_mem == co.stack_mem && Holds(o.stack_mem.stack_buffer[..], o.stack_sp, o.left)
      modifies co.stack_mem.stack_buffer, (if o == null then {} else {o})`left
      ensures co.stack_mem.stack_buffer[..] == Readdressed(old(co.stack_mem.stack_buffer[..]), 0, ret_addr)
      ensures o != null ==>
                && o.left == Readdressed(old(o.left), o.stack_sp, ret_addr)
                && Holds(o.stack_mem.stack_buffer[..], o.stack_sp, o.left)
    {
      ghost var before := co.stack_mem.stack_buffer[..];
      CoCtxMake(co, ret_addr);
      if o != null {
        ReaddressedFrom(before, o.stack_sp, ret_addr);
        o.left := o.stack_mem.stack_buffer[o.stack_sp..];
      }
    }

    lemma SoundParts()
      requires Sound()
      ensures 0 < |call_stack| && Running().Begun() && this in Objects() && coroutines <= Objects()
      ensures forall c :: c in call_stack ==> c in coroutines
    {
    }

    lemma SoundFrom()
      requires Called() && call_stack != [] && Settled(Running())
      ensures Sound()
    {
    }

    lemma SwitchingParts(curr: Coroutine, pending: Coroutine, back: bool)
      requires Switching(curr, pending, back)
      ensures curr in coroutines && pending in coroutines && curr != pending
    {
    }

    lemma InObjects(co: Coroutine)
      requires co in coroutines
      ensures co in Objects() && co.stack_mem in Objects() && co.stack_mem.stack_buffer in Objects()
    {
    }

    method CoCtxMake(co: Coroutine, ret_addr: seq<byte>)
      requires co.Size() >= WORD_SIZE && |ret_addr| == WORD_SIZE
      modifies co.stack_mem.stack_buffer
      ensures co.stack_mem.stack_buffer[..] == Readdressed(old(co.stack_mem.stack_buffer[..]), 0, ret_addr)
      ensures forall i :: 0 <= i < WORD_SIZE ==> co.stack_mem.stack_buffer[CtxSlot(co.Size()) + i] == ret_addr[i]
    {
      var sp := CtxSlot(co.Size());
      forall i | 0 <= i < WORD_SIZE {
        co.stack_mem.stack_buffer[sp + i] := ret_addr[i];
      }
    }

    method CoYield(sp: nat)
      requires Valid() && |call_stack| >= 2 && sp <= Running().Size()
      modifies Objects()
      ensures Valid() && coroutines == old(coroutines) && call_stack == old(call_stack)[..|old(call_stack)| - 1]
      ensures log == old(log) + [Left(old(Running()), sp, old(Running().stack_mem.stack_buffer[..])),
                                 Entered(Running(), Running().stack_mem.stack_buffer[..])]
      ensures Holds(Running().stack_mem.stack_buffer[..], Running().stack_sp, Running().left)
      ensures forall c :: c in coroutines ==> c.start == old(c.start)
      ensures forall c :: c in coroutines && c != old(Running()) ==> c.left == old(c.left) && c.stack_sp == old(c.stack_sp)
      ensures old(Running()).stack_sp == sp && old(Running()).left == old(Running().stack_mem.stack_buffer[sp..])
    {
      hide Sound, Parts, Logged, Holds, Private, Story, Called, GoesOn;
      NotAlone();
      ghost var curr, before, h := Running(), Running().stack_mem.stack_buffer[..], log;
      ghost var last := call_stack[|call_stack| - 2];
      LoggedParts();
      CallParts(last);
      ApartParts();
      StoryHasSize(h, last);
      ghost var o := Story(h, last);
      assert Told(last, false, o);
      Yield(sp);
      Beside();
      ghost var left, entered := Left(curr, sp, before), Entered(last, last.stack_mem.stack_buffer[..]);
      log := log + [left, entered];
      forall c | c in coroutines && c != curr && c != last
        ensures Told(c, false, GoesOn(Story(h, c), c, entered, Story(h, last)))
      {
        assert old(Told(c, false, Story(log, c)));
        StoryHasSize(h, c);
        AwayGoesOn(Story(h, c), c, entered, Story(h, last), old(c.Begun()), old(c.stack_sp), old(c.left), c.left,
                   old(c.stack_mem.occupy_co == c), c.stack_mem.occupy_co == c, []);
      }
      EntryFollows(o, entered, true, old(last.stack_sp), old(last.left), old(last.stack_mem.occupy_co == last));
      LeftIsAway(sp, before, curr.is_share_stack);
      AwayGoesOn(Outside(sp, before, true), curr, entered, o, true, sp, before[sp..], curr.left, true,
                 curr.stack_mem.occupy_co == curr, []);
      LoggedAgain(h, curr, last, sp, before);
    }

    // The same without the log.
    method Yield(sp: nat)
      requires Sound() && |call_stack| >= 2 && sp <= Running().Size()
      modifies Objects()
      ensures Sound() && coroutines == old(coroutines) && call_stack == old(call_stack)[..|old(call_stack)| - 1] && log == old(log)
      ensures Holds(Running().stack_mem.stack_buffer[..], Running().stack_sp, Running().left)
      ensures forall c :: c in coroutines ==> c.start == old(c.start)
      ensures forall c :: c in coroutines && c != old(Running()) ==> c.left == old(c.left) && c.stack_sp == old(c.stack_sp)
      ensures old(Running()).stack_sp == sp && old(Running()).left == old(Running().stack_mem.stack_buffer[sp..])
      ensures forall c :: c in coroutines ==>
                c.stack_mem.occupy_co == if Running().is_share_stack && c.stack_mem == Running().stack_mem then Running()
                                         else old(c.stack_mem.occupy_co)
    {
      hide Apart, Kept, Occupied, Holds, AllKept, Called, Settled, Switching, Parts, Sound;
      SoundParts();
      var last := call_stack[|call_stack| - 2];
      var curr := call_stack[|call_stack| - 1];
      InObjects(last);
      InObjects(curr);
      Leave(last, curr);
      SwitchingParts(curr, last, true);
      CoSwap(curr, last, sp, true);
      SoundFrom();
    }

    lemma LoggedParts()
      requires Valid()
      ensures call_stack != [] && Running() in coroutines && Private(log) && Named(log, coroutines)
      ensures forall c :: c in coroutines ==> Told(c, c == Running(), Story(log, c))
      ensures coroutines <= Objects() && this in Objects()
    {
    }

    lemma NotAlone()
      requires Valid()
      ensures call_stack != [] && Running() in coroutines && coroutines <= Objects() && this in Objects()
      ensures Running() in Objects() && Running().stack_mem.stack_buffer in Objects()
    {
    }

    lemma CallParts(co: Coroutine)
      requires Sound() && (co in coroutines || co in call_stack)
      ensures Running().Begun() && co in coroutines && co in Objects()
      ensures if co in call_stack then co.Begun() else !co.is_main && co != Running()
      ensures |call_stack| >= 2 ==> call_stack[|call_stack| - 2] != Running()
    {
    }

    lemma Beside()
      ensures this !in Parts()
    {
    }

    // The story of a coroutine that is away, when entered's coroutine has been switched to.
    static lemma AwayGoesOn(o: Own, c: Coroutine, entered: Event, other: Own, begun: bool, sp: nat,
                            left0: seq<byte>, left: seq<byte>, occupied: bool, occupies: bool, ret_addr: seq<byte>)
      requires entered.Entered? && entered.co != c && Away(o, begun, sp, left0, c.is_share_stack, occupied)
      requires c.Size() >= WORD_SIZE && (!o.NotBegun? ==> |o.bytes| == c.Size())
      requires |entered.bytes| == entered.co.Size()
      requires entered.co.stack_mem == c.stack_mem ==> c.is_share_stack && entered.co.is_share_stack
      requires c.is_share_stack ==> occupies == (occupied && entered.co.stack_mem != c.stack_mem)
      requires if entered.co.stack_mem == c.stack_mem && occupied && other.NotBegun?
               then |ret_addr| == WORD_SIZE && SlotOf(entered.bytes) == ret_addr && left == Readdressed(left0, sp, ret_addr)
               else left == left0
      ensures Away(GoesOn(o, c, entered, other), begun, sp, left, c.is_share_stack, occupies)
    {
      if begun && entered.co.stack_mem == c.stack_mem && occupied && other.NotBegun? {
        ReaddressedFrom(o.bytes, sp, ret_addr);
      }
      hide Readdressed, SlotOf;
    }

    // A coroutine that is entered: for the first time, or with what it had left.
    static lemma EntryFollows(o: Own, e: Event, begun: bool, sp: nat, left: seq<byte>, occupied: bool)
      requires e.Entered? && |e.bytes| == e.co.Size() && Away(o, begun, sp, left, e.co.is_share_stack, occupied)
      requires begun ==> Holds(e.bytes, sp, left)
      requires !o.NotBegun? ==> |o.bytes| == e.co.Size()
      ensures Follows(o, e)
    {
    }

    static lemma LeftIsAway(sp: nat, before: seq<byte>, shared: bool)
      requires sp <= |before|
      ensures Away(Outside(sp, before, true), true, sp, before[sp..], shared, true)
    {
    }

    static lemma SlotIs(bytes: seq<byte>, ret_addr: seq<byte>)
      requires |bytes| >= WORD_SIZE == |ret_addr|
      ensures SlotOf(Readdressed(bytes, 0, ret_addr)) == ret_addr
    {
      var r := SlotOf(Readdressed(bytes, 0, ret_addr));
      forall i | 0 <= i < WORD_SIZE ensures r[i] == ret_addr[i] {
      }
    }

    lemma ApartBuffers()
      requires Sound()
      ensures forall c, d :: c in coroutines && d in coroutines && c.stack_mem.stack_buffer == d.stack_mem.stack_buffer ==>
                c.stack_mem == d.stack_mem
    {
    }

    lemma ApartParts()
      requires Sound()
      ensures forall c :: c in coroutines ==> c.Size() >= WORD_SIZE
      ensures forall c, d :: c in coroutines && d in coroutines && c != d && c.stack_mem == d.stack_mem ==>
                c.is_share_stack && d.is_share_stack
      ensures Running().is_share_stack ==> Running().stack_mem.occupy_co == Running()
      ensures forall c :: c in coroutines && c.stack_mem.occupy_co != null ==> c.stack_mem.occupy_co.stack_mem == c.stack_mem
    {
    }

    // After a switch from curr to co the log is right again.
    lemma LoggedAgain(h: seq<Event>, curr: Coroutine, co: Coroutine, sp: nat, before: seq<byte>)
      requires call_stack != [] && Running() == co && {curr, co} <= coroutines && curr != co
      requires Private(h) && Named(h, coroutines)
      requires var entered := Entered(co, co.stack_mem.stack_buffer[..]);
        && (forall c :: c in coroutines && c != curr && c != co ==> Told(c, false, GoesOn(Story(h, c), c, entered, Story(h, co))))
        && Told(curr, false, GoesOn(Outside(sp, before, true), curr, entered, Story(h, co)))
        && Follows(Story(h, co), entered)
        && log == h + [Left(curr, sp, before), entered]
      requires Story(h, curr) == Inside(before) && sp <= |before|
      ensures Logged()
    {
      hide Story, Private, Follows, Holds, Next, FromOthers;
      var left, entered := Left(curr, sp, before), Entered(co, co.stack_mem.stack_buffer[..]);
      assert Follows(Story(h, curr), left) by { LeaveFollows(Story(h, curr), left); }
      EnterIs(Story(h, co), entered);
      forall c | c in coroutines ensures Told(c, c == Running(), Story(log, c)) {
        SwitchAdded(h, left, entered, c);
      }
      SwitchAdded(h, left, entered, co);
    }

    static lemma EnterIs(o: Own, e: Event)
      requires e.Entered?
      ensures Next(o, e) == Inside(e.bytes)
    {
    }

    static lemma LeaveFollows(o: Own, e: Event)
      requires e.Left? && o == Inside(e.bytes) && e.sp <= |e.bytes|
      ensures Follows(o, e)
    {
    }

    lemma StoryHasSize(h: seq<Event>, c: Coroutine)
      requires Private(h)
      ensures var o := Story(h, c); !o.NotBegun? ==> |o.bytes| == c.Size()
    {
      StorySize(h, |h|, c);
      assert h[..|h|] == h;
    }

    // What CoYield does before the switch.
    method Leave(last: Coroutine, curr: Coroutine)
      requires Sound() && |call_stack| >= 2 && last == call_stack[|call_stack| - 2] && curr == Running()
      modifies this`call_stack
      ensures call_stack == old(call_stack)[..|old(call_stack)| - 1] && Called() && Running() == last
      ensures Switching(curr, last, true)
    {
      call_stack := call_stack[..|call_stack| - 1];
    }

    // The running coroutine writes to its own stack.
    method Write(i: nat, b: byte)
      requires Valid() && i < Running().Size()
      modifies this`log, Running().stack_mem.stack_buffer
      ensures Valid() && Running().stack_mem.stack_buffer[i] == b && log == old(log) + [Wrote(Running(), i, b)]
      ensures forall j :: 0 <= j < Running().Size() && j != i ==>
                Running().stack_mem.stack_buffer[j] == old(Running().stack_mem.stack_buffer[j])
    {
      LoggedParts();
      Store(i, b);
      hide Sound, Parts, Story, Private, Holds, Follows;
      Beside();
      ghost var h, e, before := log, Wrote(Running(), i, b), old(Running().stack_mem.stack_buffer[..]);
      log := log + [e];
      assert Running().stack_mem.stack_buffer[..] == before[i := b];
      WriteFollows(Inside(before), e);
      PrivateAdded(h, e);
      forall c | c in coroutines ensures Told(c, c == Running(), Story(log, c)) {
        assert old(Told(c, c == Running(), Story(log, c)));
        StoryAdded(h, e, c);
      }
    }

    // The same without the log.
    method Store(i: nat, b: byte)
      requires Sound() && i < Running().Size()
      modifies Running().stack_mem.stack_buffer
      ensures Sound() && Running().stack_mem.stack_buffer[..] == old(Running().stack_mem.stack_buffer[..][i := b])
    {
      Running().stack_mem.stack_buffer[i] := b;
    }

    static lemma WriteFollows(o: Own, e: Event)
      requires e.Wrote? && o.Inside? && e.i < |o.bytes|
      ensures Follows(o, e)
    {
    }

    // However often it has been switched out since, the running coroutine still has on its stack
    // what it last wrote there, unless it has left with its stack pointer above it.
    lemma ReadsWhatItWrote(i: nat, a: nat, b: byte)
      requires call_stack != [] && Valid() && i < |log| && log[i] == Wrote(Running(), a, b)
      requires Untouched(log, Running(), a, i + 1, |log|)
      ensures a < Running().Size() && Running().stack_mem.stack_buffer[a] == b
    {
      hide Sound, Story, Untouched;
      LoggedParts();
      KeepsWhatItWrote(log, i, |log|);
      assert log[..|log|] == log;
      assert Told(Running(), true, Story(log, Running()));
    }
  }
}
