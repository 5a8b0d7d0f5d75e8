/** The circular doubly linked list whose links live in its elements. */
module IntrusiveLists {
  import opened Basics

  // ---- Rings

  predicate Disjoint<T(==)>(s: seq<T>, t: seq<T>) {
    forall i, j :: 0 <= i < |s| && 0 <= j < |t| ==> s[i] != t[j]
  }

  /** The elements are linked to one another in this order. */
  ghost predicate Chain(s: seq<IntrusiveListElement>)
    reads s
  {
    forall i :: 0 <= i < |s| - 1 ==> s[i].next == s[i + 1] && s[i + 1].prev == s[i]
  }

  /** And the last one to the first. */
  ghost predicate Ring(s: seq<IntrusiveListElement>)
    reads s
  {
    && s != [] && Distinct(s) && Chain(s)
    && s[|s| - 1].next == s[0] && s[0].prev == s[|s| - 1]
  }

  class IntrusiveListElement {
    var prev: IntrusiveListElement
    var next: IntrusiveListElement

    constructor ()
      ensures prev == this && next == this && Ring([this])
    {
      prev := this;
      next := this;
    }

    predicate HasNext()
      reads this
    {
      next != this
    }

    /** LinkPrev(first_link, last_link): the chain that begins with first_link and ends
        in front of last_link goes in front of this element, at the end of the ring. */
    method LinkPrevRange(first_link: IntrusiveListElement, last_link: IntrusiveListElement,
                         ghost s: seq<IntrusiveListElement>, ghost t: seq<IntrusiveListElement>)
      requires Ring(s) && s[0] == this && Disjoint(s, t)
      requires t != [] && Distinct(t) && Chain(t) && t[0] == first_link && t[|t| - 1] == last_link.prev
      modifies this`prev, prev`next, first_link`prev, last_link.prev`next
      ensures Ring(s + t)
      ensures forall e: IntrusiveListElement :: old(allocated(e)) && e !in s + t ==> unchanged(e)
    {
      var link := last_link.prev;
      assert prev == s[|s| - 1];
      first_link.prev := this.prev;
      link.next := this;
      this.prev.next := first_link;
      this.prev := link;
      Joined(s, t);
    }

    /** LinkPrev(link): the whole ring of link goes in front of this element. */
    method LinkPrev(link: IntrusiveListElement, ghost s: seq<IntrusiveListElement>, ghost t: seq<IntrusiveListElement>)
      requires Ring(s) && s[0] == this && Ring(t) && t[0] == link && Disjoint(s, t)
      modifies this`prev, prev`next, link`prev, link.prev`next
      ensures Ring(s + t)
    {
      LinkPrevRange(link, link, s, t);
    }

    /** LinkNext(first_link, last_link): likewise behind this element. */
    method LinkNextRange(first_link: IntrusiveListElement, last_link: IntrusiveListElement,
                         ghost s: seq<IntrusiveListElement>, ghost t: seq<IntrusiveListElement>)
      requires Ring(s) && s[0] == this && Disjoint(s, t)
      requires t != [] && Distinct(t) && Chain(t) && t[0] == first_link && t[|t| - 1] == last_link.prev
      modifies this`next, next`prev, first_link`prev, last_link.prev`next
      ensures Ring([this] + t + s[1..])
    {
      ghost var r := s[1..];
      assert s == [this] + r;
      if r != [] { Parts([this], r); }
      var link := last_link.prev;
      first_link.prev := this;
      link.next := this.next;
      this.next.prev := link;
      this.next := first_link;
      if r != [] {
        ChainsJoin(t, r);
        Joined([this], t + r);
        assert [this] + (t + r) == [this] + t + r;
      } else {
        Joined([this], t);
        assert [this] + t + r == [this] + t;
      }
    }

    method LinkNext(link: IntrusiveListElement, ghost s: seq<IntrusiveListElement>, ghost t: seq<IntrusiveListElement>)
      requires Ring(s) && s[0] == this && Ring(t) && t[0] == link && Disjoint(s, t)
      modifies this`next, next`prev, link`prev, link.prev`next
      ensures Ring([this] + t + s[1..])
    {
      LinkNextRange(link, link, s, t);
    }

    /** Unlink(last_link): the elements from this one up to last_link become a ring of
        their own, and so do the others, if there are any. */
    method UnlinkRange(last_link: IntrusiveListElement,
                       ghost a: seq<IntrusiveListElement>, ghost b: seq<IntrusiveListElement>)
      requires a != [] && Ring(a + b) && a[0] == this && last_link == (if b == [] then a else b)[0]
      modifies this`prev, prev`next, last_link`prev, last_link.prev`next
      ensures Ring(a) && (b != [] ==> Ring(b))
      ensures forall e: IntrusiveListElement :: old(allocated(e)) && e !in a + b ==> unchanged(e)
    {
      if b != [] { Parts(a, b); } else { assert a + b == a; }
      var link := last_link.prev;
      this.prev.next := last_link;
      last_link.prev := this.prev;
      link.next := this;
      this.prev := link;
    }

    /** Unlink(): this element alone. */
    method Unlink(ghost b: seq<IntrusiveListElement>)
      requires Ring([this] + b)
      modifies this`prev, this`next, prev`next, next`prev
      ensures Ring([this]) && (b != [] ==> Ring(b))
    {
      if b != [] { Parts([this], b); }
      UnlinkRange(next, [this], b);
    }
  }

  /** What a ring is made of, cut in two. */
  lemma Parts(a: seq<IntrusiveListElement>, b: seq<IntrusiveListElement>)
    requires a != [] && b != [] && Ring(a + b)
    ensures Distinct(a) && Distinct(b) && Disjoint(a, b) && Chain(a) && Chain(b)
    ensures a[|a| - 1].next == b[0] && b[0].prev == a[|a| - 1]
    ensures b[|b| - 1].next == a[0] && a[0].prev == b[|b| - 1]
  {
    var s := a + b;
    assert forall i :: 0 <= i < |a| ==> s[i] == a[i];
    assert forall i :: 0 <= i < |b| ==> s[|a| + i] == b[i];
  }

  lemma ChainsJoin(a: seq<IntrusiveListElement>, b: seq<IntrusiveListElement>)
    requires a != [] && b != [] && Chain(a) && Chain(b) && a[|a| - 1].next == b[0] && b[0].prev == a[|a| - 1]
    ensures Chain(a + b)
  {
  }

  lemma Joined(s: seq<IntrusiveListElement>, t: seq<IntrusiveListElement>)
    requires s != [] && t != [] && Distinct(s) && Distinct(t) && Disjoint(s, t) && Chain(s) && Chain(t)
    requires s[|s| - 1].next == t[0] && t[0].prev == s[|s| - 1]
    requires t[|t| - 1].next == s[0] && s[0].prev == t[|t| - 1]
    ensures Ring(s + t)
  {
  }

  /** A ring can be read from any of its elements. */
  lemma Rotation(a: seq<IntrusiveListElement>, b: seq<IntrusiveListElement>)
    ensures Ring(a + b) <==> Ring(b + a)
  {
    if a == [] || b == [] {
      assert a + b == b + a;
    } else {
      if Ring(a + b) {
        Parts(a, b);
        Joined(b, a);
      }
      if Ring(b + a) {
        Parts(b, a);
        Joined(a, b);
      }
    }
  }

  /** The order of a ring determines every pointer in it. */
  twostate lemma OrderDeterminesLinks(s: seq<IntrusiveListElement>)
    requires old(Ring(s)) && Ring(s)
    ensures forall e :: e in s ==> e.next == old(e.next) && e.prev == old(e.prev)
  {
    forall e | e in s ensures e.next == old(e.next) && e.prev == old(e.prev) {
      var i :| 0 <= i < |s| && s[i] == e;
      assert i + 1 < |s| ==> old(s[i].next) == s[i + 1] && s[i].next == s[i + 1];
      assert i > 0 ==> s[(i - 1) + 1].prev == s[i - 1] && old(s[(i - 1) + 1].prev) == s[i - 1];
    }
  }

  /** last->LinkPrev(this) behind this->Unlink(last) restores every pointer. */
  method UnlinkAndLinkAgain(first: IntrusiveListElement, last: IntrusiveListElement,
                            ghost a: seq<IntrusiveListElement>, ghost b: seq<IntrusiveListElement>)
    requires a != [] && b != [] && Ring(a + b) && a[0] == first && b[0] == last
    modifies a, b
    ensures forall e :: e in a + b ==> e.next == old(e.next) && e.prev == old(e.prev)
  {
    Parts(a, b);
    first.UnlinkRange(last, a, b);
    last.LinkPrev(first, b, a);
    Rotation(a, b);
    OrderDeterminesLinks(a + b);
  }

  lemma DisjointRotates<T>(a: seq<T>, b: seq<T>, t: seq<T>)
    requires Disjoint(a + b, t)
    ensures Disjoint(b + a, t)
  {
    forall i | 0 <= i < |b + a| ensures (b + a)[i] in a + b {
      assert (b + a)[i] == (a + b)[if i < |b| then |a| + i else i - |b|];
    }
  }

  lemma DistinctTail<T>(e: T, s: seq<T>)
    requires Distinct([e] + s)
    ensures Distinct(s) && e !in s
  {
    assert ([e] + s)[0] == e;
    assert forall i :: 0 <= i < |s| ==> ([e] + s)[i + 1] == s[i];
  }

  lemma Neighbours(s: seq<IntrusiveListElement>, e: IntrusiveListElement)
    requires Ring(s) && e in s
    ensures e.next in s && e.prev in s
  {
    var i :| 0 <= i < |s| && s[i] == e;
    assert i > 0 ==> s[(i - 1) + 1].prev == s[i - 1];
    assert i + 1 < |s| ==> s[i].next == s[i + 1];
  }

  // ---- The list

  class IntrusiveList {
    const root: IntrusiveListElement
    ghost var elements: seq<IntrusiveListElement>

    /** The root and the elements form a ring. */
    ghost predicate Valid()
      reads this, root, elements
    {
      Ring([root] + elements)
    }

    constructor ()
      ensures Valid() && elements == [] && fresh(root)
    {
      root := new IntrusiveListElement();
      elements := [];
    }

    predicate Empty()
      requires Valid()
      reads this, root, elements
      ensures Empty() <==> elements == []
    {
      assert elements != [] ==> ([root] + elements)[0].next == ([root] + elements)[1] == elements[0];
      assert elements != [] ==> ([root] + elements)[0] != ([root] + elements)[1];
      !root.HasNext()
    }

    /** Where the ring goes on behind the root and behind an element. */
    lemma Follows(i: nat)
      requires Valid() && i <= |elements|
      ensures ([root] + elements)[i].next == if i < |elements| then elements[i] else root
      ensures i < |elements| ==> elements[i] != root
    {
      var s := [root] + elements;
      assert i < |elements| ==> s[i + 1] == elements[i] && s[0] != s[i + 1];
    }

    method Size() returns (result: nat)
      requires Valid()
      ensures result == |elements|
    {
      result := 0;
      Follows(0);
      var temp := root.next;
      while temp != root
        invariant result <= |elements| && temp == if result < |elements| then elements[result] else root
        decreases |elements| - result
      {
        result := result + 1;
        Follows(result);
        temp := temp.next;
      }
      if result < |elements| { Follows(result); }
    }

    /** push_front(): the ring of x goes in front of the first element. */
    method PushFront(x: IntrusiveListElement, ghost ring: seq<IntrusiveListElement>)
      requires Valid() && Ring(ring) && ring[0] == x && Disjoint([root] + elements, ring)
      modifies this`elements, root`next, root.next`prev, x`prev, x.prev`next
      ensures Valid() && elements == ring + old(elements)
    {
      root.LinkNext(x, [root] + elements, ring);
      assert [root] + ring + ([root] + elements)[1..] == [root] + (ring + elements);
      elements := ring + elements;
    }

    method PushBack(x: IntrusiveListElement, ghost ring: seq<IntrusiveListElement>)
      requires Valid() && Ring(ring) && ring[0] == x && Disjoint([root] + elements, ring)
      modifies this`elements, root`prev, root.prev`next, x`prev, x.prev`next
      ensures Valid() && elements == old(elements) + ring
    {
      root.LinkPrev(x, [root] + elements, ring);
      assert [root] + elements + ring == [root] + (elements + ring);
      elements := elements + ring;
    }

    /** pop_front(): the first element leaves and is on its own; nothing happens to an
        empty list. */
    method PopFront()
      requires Valid()
      modifies this`elements, root`next, root.next`prev, root.next`next, root.next.next`prev
      ensures Valid() && elements == if old(elements) == [] then [] else old(elements)[1..]
      ensures Ring([old(root.next)]) && (old(elements) != [] ==> old(root.next) == old(elements[0]))
    {
      hide Ring;
      ghost var others := FrontParts();
      root.next.Unlink(others);
      if elements != [] {
        Rotation(elements[1..], [root]);
        elements := elements[1..];
      }
    }

    /** The ring as seen from the first element, and from the last one. */
    lemma FrontParts() returns (others: seq<IntrusiveListElement>)
      requires Valid()
      ensures Ring([root.next] + others)
      ensures others == (if elements == [] then [] else elements[1..] + [root])
      ensures root.next == (if elements == [] then root else elements[0]) && root.next.prev == root
    {
      Follows(0);
      if elements == [] {
        others := [];
        assert [root] + elements == [root] + others;
      } else {
        others := elements[1..] + [root];
        assert [root] + elements == [root] + ([elements[0]] + elements[1..]);
        Rotation([root], [elements[0]] + elements[1..]);
        assert ([elements[0]] + elements[1..]) + [root] == [elements[0]] + others;
      }
    }

    lemma BackParts() returns (others: seq<IntrusiveListElement>)
      requires Valid()
      ensures Ring([root.prev] + others)
      ensures others == (if elements == [] then [] else [root] + elements[..|elements| - 1])
      ensures root.prev == (if elements == [] then root else elements[|elements| - 1]) && root.prev.next == root
    {
      if elements == [] {
        others := [];
        assert [root] + elements == [root] + others;
      } else {
        others := [root] + elements[..|elements| - 1];
        assert [root] + elements == others + [elements[|elements| - 1]];
        Rotation(others, [elements[|elements| - 1]]);
      }
    }

    method PopBack()
      requires Valid()
      modifies this`elements, root`prev, root.prev`next, root.prev`prev, root.prev.prev`next
      ensures Valid() && elements == if old(elements) == [] then [] else old(elements)[..|old(elements)| - 1]
      ensures Ring([old(root.prev)]) && (old(elements) != [] ==> old(root.prev) == old(elements[|elements| - 1]))
    {
      hide Ring;
      ghost var others := BackParts();
      root.prev.Unlink(others);
      if elements != [] {
        elements := elements[..|elements| - 1];
      }
    }

    /** insert(): the ring of x goes in front of position, the root being the end. */
    method Insert(position: IntrusiveListElement, x: IntrusiveListElement,
                  ghost i: nat, ghost ring: seq<IntrusiveListElement>)
      requires Valid() && Ring(ring) && ring[0] == x && Disjoint([root] + elements, ring)
      requires i <= |elements| && position == if i < |elements| then elements[i] else root
      modifies this`elements, position`prev, position.prev`next, x`prev, x.prev`next
      ensures Valid() && elements == old(elements)[..i] + ring + old(elements)[i..]
    {
      ghost var front, back := [root] + elements[..i], elements[i..];
      assert front + back == [root] + elements;
      Rotation(front, back);
      ghost var s := back + front;
      assert s[0] == position;
      DisjointRotates(front, back, ring);
      position.LinkPrev(x, s, ring);
      assert s + ring == back + (front + ring);
      Rotation(back, front + ring);
      assert front + ring + back == [root] + (elements[..i] + ring + elements[i..]);
      elements := elements[..i] + ring + elements[i..];
    }

    /** One turn of clear(): what was popped before is not touched again. */
    method PopFrontOf(ghost all: seq<IntrusiveListElement>, ghost k: nat)
      requires Valid() && k < |all| && elements == all[k..] && Distinct(all) && root !in all
      requires forall i :: 0 <= i < k ==> Ring([all[i]])
      modifies this`elements, root, all
      ensures Valid() && elements == all[k + 1..]
      ensures forall i :: 0 <= i <= k ==> Ring([all[i]])
    {
      Follows(0);
      Follows(1);
      assert all[k..][1..] == all[k + 1..];
      PopFront();
    }

    /** clear(): every element is left on its own. */
    method Clear()
      requires Valid()
      modifies this`elements, root, elements
      ensures Valid() && elements == []
      ensures forall e :: e in old(elements) ==> Ring([e])
    {
      ghost var all, k := elements, 0;
      DistinctTail(root, all);
      while !Empty()
        invariant Valid() && 0 <= k <= |all| && elements == all[k..]
        invariant Distinct(all) && root !in all
        invariant forall i :: 0 <= i < k ==> Ring([all[i]])
        decreases |all| - k
      {
        Neighbours([root] + elements, root);
        Neighbours([root] + elements, root.next);
        PopFrontOf(all, k);
        k := k + 1;
      }
    }
  }
}

/** The list of threads. */
module ThreadLists {
  import opened Basics
  import opened IntrusiveLists

  type Thread = IntrusiveListElement

  function Without<T(==)>(s: seq<T>, e: T): (r: seq<T>)
    ensures (forall x :: x in r ==> x in s && x != e) && (forall x :: x in s && x != e ==> x in r)
  {
    if s == [] then [] else (if s[0] == e then [] else [s[0]]) + Without(s[1..], e)
  }

  lemma {:induction false} WithoutNone<T>(s: seq<T>, e: T)
    requires e !in s
    ensures Without(s, e) == s
  {
    if s != [] { WithoutNone(s[1..], e); }
  }

  lemma {:induction false} WithoutOne<T>(s: seq<T>, i: nat)
    requires i < |s| && Distinct(s)
    ensures Without(s, s[i]) == s[..i] + s[i + 1..]
  {
    if i == 0 {
      WithoutNone(s[1..], s[0]);
    } else {
      WithoutOne(s[1..], i - 1);
    }
  }

  lemma RemovedAt<T>(s: seq<T>, e: T)
    requires e in s && Distinct(s)
    ensures forall i | 0 <= i < |s| && s[i] == e :: Without(s, e) == s[..i] + s[i + 1..]
  {
    forall i | 0 <= i < |s| && s[i] == e
      ensures Without(s, e) == s[..i] + s[i + 1..]
    {
      WithoutOne(s, i);
    }
  }

  lemma CutAround<T>(root: T, els: seq<T>, e: T) returns (front: seq<T>, tail: seq<T>)
    requires e in els && Distinct(els)
    ensures front != [] && [root] + els == front + ([e] + tail)
    ensures ([e] + tail) + front == [e] + (tail + front)
    ensures front + tail == [root] + Without(els, e)
  {
    hide Without, Distinct;
    var i :| 0 <= i < |els| && els[i] == e;
    front, tail := [root] + els[..i], els[i + 1..];
    WithoutOne(els, i);
    CutAt(root, els, i);
  }

  lemma CutAt<T>(root: T, els: seq<T>, i: nat)
    requires i < |els|
    ensures
      var front, tail, e := [root] + els[..i], els[i + 1..], els[i];
      && [root] + els == front + ([e] + tail)
      && ([e] + tail) + front == [e] + (tail + front)
      && front + tail == [root] + (els[..i] + els[i + 1..])
  {
  }

  lemma MainStays<T>(s: seq<T>, main: T, e: T)
    requires main in s && e != main
    ensures main in Without(s, e)
  {
  }

  // ---- Runs

  datatype ThreadOp<T> = Add(thread: T) | Remove(thread: T)

  /** A thread is added only if it is not in a list. */
  predicate Allowed<T(==)>(s: seq<T>, op: ThreadOp<T>) {
    op.Add? ==> op.thread !in s
  }

  /** What the two methods do to the list. */
  function Step<T(==)>(main: T, s: seq<T>, op: ThreadOp<T>): seq<T> {
    match op
    case Add(thread) => s + [thread]
    case Remove(thread) => if thread == main then s else Without(s, thread)
  }

  predicate ValidRun<T(==)>(main: T, s: seq<T>, ops: seq<ThreadOp<T>>)
    decreases |ops|
  {
    ops == [] || (ValidRun(main, s, ops[..|ops| - 1]) && Allowed(Run(main, s, ops[..|ops| - 1]), ops[|ops| - 1]))
  }

  function Run<T(==)>(main: T, s: seq<T>, ops: seq<ThreadOp<T>>): seq<T>
    decreases |ops|
  {
    if ops == [] then s else Step(main, Run(main, s, ops[..|ops| - 1]), ops[|ops| - 1])
  }

  /** Whether a thread has been added, and not removed since. */
  predicate Listed<T(==)>(s: seq<T>, ops: seq<ThreadOp<T>>, thread: T)
    decreases |ops|
  {
    if ops == [] then thread in s
    else if ops[|ops| - 1].thread == thread then ops[|ops| - 1].Add?
    else Listed(s, ops[..|ops| - 1], thread)
  }

  lemma DistinctCons<T>(e: T, s: seq<T>)
    requires Distinct(s)
    ensures e !in s ==> Distinct([e] + s)
  {
  }

  lemma {:induction false} WithoutDistinct<T>(s: seq<T>, e: T)
    requires Distinct(s)
    ensures Distinct(Without(s, e))
  {
    if s != [] {
      WithoutDistinct(s[1..], e);
      assert s == [s[0]] + s[1..];
      DistinctTail(s[0], s[1..]);
      DistinctCons(s[0], Without(s[1..], e));
    }
  }

  /** Over every run from the list with the main thread alone: the main thread stays the
      first of the list, nobody is in it twice, and exactly those others are in it that have been
      added and not removed since. */
  lemma {:induction false} RunLists<T>(main: T, ops: seq<ThreadOp<T>>)
    requires ValidRun(main, [main], ops)
    ensures var s := Run(main, [main], ops);
      && s != [] && s[0] == main && Distinct(s)
      && forall t: T :: t in s && t != main <==> Listed([main], ops, t) && t != main
    decreases |ops|
  {
    if ops != [] {
      var s, op := Run(main, [main], ops[..|ops| - 1]), ops[|ops| - 1];
      RunLists(main, ops[..|ops| - 1]);
      WithoutDistinct(s, op.thread);
    }
  }

  class ThreadList {
    const list: IntrusiveList
    const main_thread: Thread

    ghost predicate Valid()
      reads this, list, list.root, list.elements
    {
      list.Valid() && main_thread in list.elements
    }

    constructor ()
      ensures Valid() && list.elements == [main_thread]
      ensures fresh(list) && fresh(list.root) && fresh(main_thread)
    {
      list := new IntrusiveList();
      main_thread := new IntrusiveListElement();
      new;
      list.PushBack(main_thread, [main_thread]);
    }

    method AddThread(thread: Thread)
      requires Valid() && Ring([thread]) && thread !in [list.root] + list.elements
      modifies list, list.root, list.elements, thread
      ensures Valid() && list.elements == Step(main_thread, old(list.elements), Add(thread))
      ensures list.elements == old(list.elements) + [thread]
    {
      list.PushBack(thread, [thread]);
    }

    /** The ring as seen from a thread, cut at the root. */
    lemma SeenFrom(thread: Thread) returns (front: seq<Thread>, tail: seq<Thread>)
      requires Valid() && thread != list.root && (thread in list.elements || Ring([thread]))
      ensures thread in list.elements ==> Distinct(list.elements)
      ensures Ring([thread] + (tail + front))
      ensures thread.next in [thread, list.root] + list.elements && thread.prev in [thread, list.root] + list.elements
      ensures thread in list.elements ==> front != [] && front + tail == [list.root] + Without(list.elements, thread)
      ensures thread !in list.elements ==>
        front == tail == [] && thread.next == thread.prev == thread && Without(list.elements, thread) == list.elements
    {
      hide Chain, Distinct;
      var els := list.elements;
      if thread in els {
        DistinctTail(list.root, els);
        front, tail := CutAround(list.root, els, thread);
        Neighbours([list.root] + els, thread);
        Rotation(front, [thread] + tail);
      } else {
        front, tail := [], [];
        assert [thread] + (tail + front) == [thread];
        WithoutNone(els, thread);
        assert [thread][0].next == thread;
      }
    }

    /** Removing the main thread does nothing. */
    method RemoveThread(thread: Thread)
      requires Valid() && thread != list.root && (thread in list.elements || Ring([thread]))
      modifies list, list.root, list.elements, thread
      ensures Valid()
      ensures list.elements == Step(main_thread, old(list.elements), Remove(thread))
      ensures thread == main_thread || thread !in old(list.elements) ==> list.elements == old(list.elements)
      ensures forall i | 0 <= i < |old(list.elements)| && old(list.elements)[i] == thread != main_thread ::
        list.elements == old(list.elements)[..i] + old(list.elements)[i + 1..]
      ensures thread != main_thread ==> Ring([thread])
    {
      if thread == main_thread {
        return;
      }
      ghost var els := list.elements;
      ghost var front, tail := SeenFrom(thread);
      thread.Unlink(tail + front);
      if thread in els {
        Rotation(tail, front);
      }
      MainStays(els, main_thread, thread);
      if thread in els {
        RemovedAt(els, thread);
      }
      list.elements := Without(els, thread);
    }
  }
}
