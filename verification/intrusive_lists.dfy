// misc/coroutine/co_routine.h: the doubly linked lists whose links are kept in the items
// themselves. timeout_item_t in timeout_item_link_t and co_cond_item_t in co_cond_t are both
// Item in Link, as in the original's templates.
module IntrusiveLists {

  class Item<T> {
    const data: T
    var prev: Item?<T>
    var next: Item?<T>
    var link: Link?<T>

    constructor (data: T)
      ensures this.data == data && prev == null && next == null && link == null
    {
      this.data := data;
      prev, next, link := null, null, null;
    }
  }

  class Link<T> {
    var head: Item?<T>
    var tail: Item?<T>
    ghost var items: seq<Item<T>>

    constructor ()
      ensures items == [] && WellFormed()
    {
      head, tail, items := null, null, [];
    }

    // The items in order are exactly those reached from head by next and from tail by prev.
    ghost predicate Chained()
      reads this, items
    {
      && (forall j, k :: 0 <= j < k < |items| ==> items[j] != items[k])
      && head == (if items == [] then null else items[0])
      && tail == (if items == [] then null else items[|items| - 1])
      && (items != [] ==> items[0].prev == null && items[|items| - 1].next == null)
      && forall j, k :: 0 <= j < k < |items| && k == j + 1 ==> items[j].next == items[k] && items[k].prev == items[j]
    }

    // Each item names this list as well, and is thus on no other well-formed list.
    ghost predicate WellFormed()
      reads this, items
    {
      Chained() && forall k :: 0 <= k < |items| ==> items[k].link == this
    }
  }

  ghost function ItemSet<T>(s: seq<Item<T>>): set<Item<T>> {
    set x | x in s
  }

  // What an operation on a list may write.
  ghost function Footprint<T>(l: Link?<T>): set<object>
    reads l
  {
    if l == null then {} else {l} + ItemSet(l.items)
  }

  ghost function Space<T>(all: set<Link<T>>): set<object>
    reads all
  {
    (set o: object | o in all) + (set l: Link<T>, x: Item<T> | l in all && x in l.items :: x)
  }

  ghost predicate AllWellFormed<T>(all: set<Link<T>>)
    reads Space(all)
  {
    forall l :: l in all ==>
      assert forall x :: x in l.items ==> x in Space(all);
      l.WellFormed()
  }

  lemma FootprintInSpace<T>(all: set<Link<T>>, l: Link<T>)
    requires l in all
    ensures Footprint(l) <= Space(all)
  {
  }

  lemma OneWellFormed<T>(all: set<Link<T>>, l: Link<T>)
    requires AllWellFormed(all) && l in all
    ensures l.WellFormed()
  {
  }

  // An item that names a list is on it.
  ghost predicate Placed<T>(x: Item<T>)
    reads x, x.link
  {
    x.link != null ==> x in x.link.items
  }

  ghost function Without<T>(s: seq<Item<T>>, x: Item<T>): (r: seq<Item<T>>)
    ensures (forall y :: y in r ==> y in s && y != x) && forall y :: y in s && y != x ==> y in r
  {
    if s == [] then []
    else if s[0] == x then Without(s[1..], x)
    else [s[0]] + Without(s[1..], x)
  }

  lemma {:induction false} WithoutAt<T>(s: seq<Item<T>>, k: nat)
    requires k < |s| && forall i, j :: 0 <= i < j < |s| ==> s[i] != s[j]
    ensures Without(s, s[k]) == s[..k] + s[k + 1..]
  {
    if k == 0 {
      WithoutNone(s[1..], s[0]);
    } else {
      WithoutAt(s[1..], k - 1);
      assert s[..k] == [s[0]] + s[1..][..k - 1] && s[1..][k..] == s[k + 1..];
    }
  }

  lemma {:induction false} WithoutNone<T>(s: seq<Item<T>>, x: Item<T>)
    requires x !in s
    ensures Without(s, x) == s
  {
    if s != [] {
      WithoutNone(s[1..], x);
    }
  }

  // Lists do not share items, so what is done to one is not done to another.
  lemma Apart<T>(all: set<Link<T>>, l: Link<T>, m: Link<T>)
    requires AllWellFormed(all) && l in all && m in all && l != m
    ensures Footprint(m) !! Footprint(l)
  {
    assert l.WellFormed() && m.WellFormed();
  }

  // Unlinks the k-th item of a list.
  method Unlink<T>(item: Item<T>, link: Link<T>, ghost k: nat)
    requires link.WellFormed() && k < |link.items| && link.items[k] == item
    modifies Footprint(link)
    ensures link.WellFormed() && item.link == null && item.prev == null && item.next == null
    ensures link.items == old(link.items[..k] + link.items[k + 1..])
  {
    ghost var s := link.items;
    assert k + 1 < |s| ==> s[k + 1] in ItemSet(s);
    assert k > 0 ==> s[k - 1] in ItemSet(s);
    assert item.next == if k + 1 < |s| then s[k + 1] else null;
    assert item.prev == if k > 0 then s[k - 1] else null;
    if item == link.head {
      link.head := item.next;
      if link.head != null {
        link.head.prev := null;
      }
    } else if item.prev != null {
      item.prev.next := item.next;
    }
    if item == link.tail {
      link.tail := item.prev;
      if link.tail != null {
        link.tail.next := null;
      }
    } else {
      item.next.prev := item.prev;
    }
    item.prev, item.next := null, null;
    item.link := null;
    assert k > 0 && k + 1 < |s| ==> s[k - 1].next == s[k + 1] && s[k + 1].prev == s[k - 1];
    link.items := s[..k] + s[k + 1..];
    ghost var r := link.items;
    forall i, j | 0 <= i < j < |r| && j == i + 1 ensures r[i].next == r[j] && r[j].prev == r[i] {
      assert r[i] == s[if i < k then i else i + 1] && r[j] == s[if j < k then j else j + 1];
    }
  }

  // Takes an item off the list it is on, if any.
  method RemoveFromLink<T>(item: Item<T>, ghost all: set<Link<T>>)
    requires AllWellFormed(all) && Placed(item) && (item.link != null ==> item.link in all)
    modifies item, Footprint(item.link)
    ensures AllWellFormed(all) && Space(all) <= old(Space(all)) && item.link == null
    ensures forall l :: l in all ==>
              l.items == if l == old(item.link) then old(Without(l.items, item)) else old(l.items)
  {
    if item.link == null {
      return;
    }
    ghost var link: Link<T> := item.link;
    assert link.WellFormed();
    ghost var k :| 0 <= k < |link.items| && link.items[k] == item;
    WithoutAt(link.items, k);
    forall l | l in all && l != link ensures Footprint(l) !! Footprint(link) {
      Apart(all, link, l);
    }
    Unlink(item, item.link, k);
    forall l, x | l in all && x in l.items ensures x in old(l.items) {
    }
  }

  // Puts an item that is on no list at the end of one.
  method TailAdd<T>(link: Link<T>, item: Item<T>, ghost all: set<Link<T>>)
    requires AllWellFormed(all) && link in all
    modifies item, Footprint(link)
    ensures AllWellFormed(all) && Space(all) <= old(Space(all)) + {item}
    ensures item.link == if old(item.link) == null then link else old(item.link)
    ensures forall l :: l in all ==>
              l.items == if l == link && old(item.link) == null then old(l.items) + [item] else old(l.items)
  {
    if item.link != null {
      return;
    }
    forall l | l in all ensures item !in l.items && (l != link ==> Footprint(l) !! Footprint(link)) {
      assert l.WellFormed();
      if l != link { Apart(all, link, l); }
    }
    Append(link, item);
    forall l, x | l in all && x in l.items ensures x in old(l.items) || x == item {
    }
  }

  method Append<T>(link: Link<T>, item: Item<T>)
    requires link.WellFormed() && item !in link.items
    modifies item, Footprint(link)
    ensures link.WellFormed() && item.link == link && link.items == old(link.items) + [item]
  {
    item.link := link;
    if link.tail != null {
      link.tail.next := item;
      item.next := null;
      item.prev := link.tail;
      link.tail := item;
    } else {
      link.head, link.tail := item, item;
      item.next, item.prev := null, null;
    }
    link.items := link.items + [item];
  }

  // Takes the first item off a list, if it has one.
  method HeadPop<T>(link: Link<T>, ghost all: set<Link<T>>)
    requires AllWellFormed(all) && link in all
    modifies Footprint(link)
    ensures AllWellFormed(all) && Space(all) <= old(Space(all))
    ensures old(link.items) != [] ==> old(link.items[0]).link == null
    ensures forall l :: l in all ==>
              l.items == if l == link && old(l.items) != [] then old(l.items)[1..] else old(l.items)
  {
    if link.head == null {
      return;
    }
    forall l | l in all && l != link ensures Footprint(l) !! Footprint(link) {
      Apart(all, link, l);
    }
    PopFirst(link);
    forall l, x | l in all && x in l.items ensures x in old(l.items) {
    }
  }

  method PopFirst<T>(link: Link<T>)
    requires link.WellFormed() && link.items != []
    modifies Footprint(link)
    ensures link.WellFormed() && link.items == old(link.items)[1..] && old(link.items[0]).link == null
  {
    var head := link.head;
    if link.head == link.tail {
      link.head, link.tail := null, null;
    } else {
      assert link.items[0].next == link.items[1];
      link.head := link.head.next;
    }
    head.prev, head.next := null, null;
    head.link := null;
    if link.head != null {
      link.head.prev := null;
    }
    link.items := link.items[1..];
  }

  // Moves all items of rhs to the end of lhs.
  method LinkAppend<T>(lhs: Link<T>, rhs: Link<T>, ghost all: set<Link<T>>)
    requires AllWellFormed(all) && lhs in all && rhs in all && lhs != rhs
    modifies Footprint(lhs), Footprint(rhs)
    ensures AllWellFormed(all) && Space(all) <= old(Space(all))
    ensures lhs.items == old(lhs.items) + old(rhs.items) && rhs.items == []
    ensures forall l :: l in all && l != lhs && l != rhs ==> l.items == old(l.items)
    ensures forall x :: x in lhs.items ==> x.link == lhs
  {
    forall l | l in all ensures (l != lhs ==> Footprint(l) !! Footprint(lhs)) && (l != rhs ==> Footprint(l) !! Footprint(rhs)) {
      if l != lhs { Apart(all, lhs, l); }
      if l != rhs { Apart(all, rhs, l); }
    }
    assert lhs.WellFormed() && rhs.WellFormed();
    Splice(lhs, rhs);
    forall l, x | l in all && x in l.items ensures x in old(l.items) || x in old(rhs.items) {
    }
  }

  method Splice<T>(lhs: Link<T>, rhs: Link<T>)
    requires lhs.WellFormed() && rhs.WellFormed() && Footprint(lhs) !! Footprint(rhs)
    modifies Footprint(lhs), Footprint(rhs)
    ensures lhs.WellFormed() && rhs.WellFormed()
    ensures lhs.items == old(lhs.items) + old(rhs.items) && rhs.items == []
    ensures forall x :: x in lhs.items ==> x.link == lhs
  {
    if rhs.head == null {
      return;
    }
    Relabel(rhs, lhs);
    Join(lhs, rhs);
  }

  method Join<T>(lhs: Link<T>, rhs: Link<T>)
    requires lhs.WellFormed() && rhs.Chained() && Footprint(lhs) !! Footprint(rhs) && rhs.items != []
    requires forall k :: 0 <= k < |rhs.items| ==> rhs.items[k].link == lhs
    modifies Footprint(lhs), Footprint(rhs)
    ensures lhs.WellFormed() && rhs.WellFormed()
    ensures lhs.items == old(lhs.items) + old(rhs.items) && rhs.items == []
  {
    ghost var s, t := lhs.items, rhs.items;
    forall j, k | 0 <= j < |s| && 0 <= k < |t| ensures s[j] != t[k] {
      assert s[j] in ItemSet(s) && t[k] in ItemSet(t);
    }
    var rhs_head := rhs.head;
    if lhs.tail != null {
      lhs.tail.next := rhs_head;
      rhs_head.prev := lhs.tail;
      lhs.tail := rhs.tail;
    } else {
      lhs.head := rhs.head;
      lhs.tail := rhs.tail;
    }
    rhs.head, rhs.tail := null, null;
    lhs.items, rhs.items := s + t, [];
  }

  // Makes every item of one list name another.
  method Relabel<T>(link: Link<T>, name: Link<T>)
    requires link.WellFormed()
    modifies ItemSet(link.items)`link
    ensures forall x :: x in link.items ==> x.link == name
  {
    var item := link.head;
    ghost var k := 0;
    while item != null
      invariant 0 <= k <= |link.items|
      invariant item == if k < |link.items| then link.items[k] else null
      invariant forall j :: 0 <= j < k ==> link.items[j].link == name
      decreases |link.items| - k
    {
      item.link := name;
      item := item.next;
      k := k + 1;
    }
  }
}
