/** The intrusive doubly linked list of src/kernel/collections/ptr_linked_list.rs. */
module LinkedList {
  import opened Collections

  class Node {
    var prev: Node?
    var next: Node?

    constructor ()
      ensures prev == null && next == null
    {
      prev, next := null, null;
    }

    method UnsetPrevAndNext()
      modifies this
      ensures prev == null && next == null
    {
      prev, next := null, null;
    }
  }

  function Of(n: Node?): set<Node> { if n == null then {} else {n} }

  /** PtrLinkedListNode::insert_after. */
  method LinkAfter(node: Node, next: Node)
    requires node != next && node.next != next
    modifies node`next, next, Of(node.next)`prev
    ensures node.next == next && next.prev == node && next.next == old(node.next)
    ensures old(node.next) != null ==> old(node.next).prev == next
  {
    var oldNext := node.next;
    node.next := next;
    next.prev := node;
    next.next := oldNext;
    if next.next != null {
      next.next.prev := next;
    }
  }

  /** PtrLinkedListNode::insert_before. */
  method LinkBefore(node: Node, prev: Node)
    requires node != prev && node.prev != prev
    modifies node`prev, prev, Of(node.prev)`next
    ensures node.prev == prev && prev.next == node && prev.prev == old(node.prev)
    ensures old(node.prev) != null ==> old(node.prev).next == prev
  {
    var oldPrev := node.prev;
    node.prev := prev;
    prev.next := node;
    prev.prev := oldPrev;
    if prev.prev != null {
      prev.prev.next := prev;
    }
  }

  function NextAt(items: seq<Node>, i: nat): Node? { if i + 1 < |items| then items[i + 1] else null }

  function PrevAt(items: seq<Node>, i: nat): Node? { if 0 < i <= |items| then items[i - 1] else null }

  ghost predicate Distinct(items: seq<Node>) { forall i, j :: 0 <= i < j < |items| ==> items[i] != items[j] }

  /** The pointers of the nodes spell out the sequence in both directions. */
  ghost predicate Wired(items: seq<Node>)
    reads items
  {
    && Distinct(items)
    && (forall i :: 0 <= i < |items| ==> items[i].next == NextAt(items, i))
    && (forall i :: 0 <= i < |items| ==> items[i].prev == PrevAt(items, i))
  }

  lemma OnlyAt(items: seq<Node>, k: nat)
    requires Distinct(items) && k < |items|
    ensures forall i :: 0 <= i < |items| && i != k ==> items[i] != items[k]
  {
  }

  lemma InsertDistinct(items: seq<Node>, k: nat, e: Node)
    requires Distinct(items) && k <= |items| && e !in items
    ensures Distinct(Inserted(items, k, e)) && |Inserted(items, k, e)| == |items| + 1
    ensures forall i :: 0 <= i < k ==> Inserted(items, k, e)[i] == items[i]
    ensures Inserted(items, k, e)[k] == e
    ensures forall i :: k < i <= |items| ==> Inserted(items, k, e)[i] == items[i - 1]
  {
  }

  lemma DeleteDistinct(items: seq<Node>, k: nat)
    requires Distinct(items) && k < |items|
    ensures Distinct(Dropped(items, k)) && items[k] !in Dropped(items, k)
    ensures forall x :: x in Dropped(items, k) ==> x in items
  {
    DroppedAt(items, k);
  }

  /** The links of `was` and of `e`, rewritten so that `e` stands at position `k`. */
  ghost predicate Spliced(was: seq<Node>, k: nat, e: Node)
    reads was, e
    requires k <= |was|
  {
    && e.prev == PrevAt(was, k) && e.next == (if k < |was| then was[k] else null)
    && (forall i :: 0 <= i < |was| ==> was[i].next == if i + 1 == k then e else NextAt(was, i))
    && (forall i :: 0 <= i < |was| ==> was[i].prev == if i == k then e else PrevAt(was, i))
  }

  /** The links of `was`, closed around position `k`. */
  ghost predicate Closed(was: seq<Node>, k: nat)
    reads was
    requires k < |was|
  {
    && (forall i :: 0 <= i < |was| && i != k ==> was[i].next == if i + 1 == k then NextAt(was, k) else NextAt(was, i))
    && (forall i :: 0 <= i < |was| && i != k ==> was[i].prev == if i == k + 1 then PrevAt(was, k) else PrevAt(was, i))
  }

  lemma WiredDistinct(items: seq<Node>)
    requires Wired(items)
    ensures Distinct(items)
  {
  }

  lemma WiredAt(items: seq<Node>, k: nat)
    requires Wired(items) && k < |items|
    ensures items[k].next == NextAt(items, k) && items[k].prev == PrevAt(items, k)
  {
  }

  lemma OneClosed(items: seq<Node>)
    requires |items| == 1
    ensures Closed(items, 0)
  {
  }

  class PtrLinkedList {
    var head: Node?
    var tail: Node?
    ghost var items: seq<Node>

    ghost predicate Valid()
      reads this, items
    {
      && Wired(items)
      && head == (if items == [] then null else items[0])
      && tail == (if items == [] then null else items[|items| - 1])
    }

    constructor ()
      ensures Valid() && items == []
    {
      head, tail, items := null, null, [];
    }

    lemma SplicedValid(was: seq<Node>, k: nat, e: Node)
      requires Distinct(was) && k <= |was| && e !in was && Spliced(was, k, e) && items == Inserted(was, k, e)
      requires head == (if k == 0 then e else was[0]) && tail == (if k == |was| then e else was[|was| - 1])
      ensures Valid()
    {
      hide Inserted, Distinct;
      InsertDistinct(was, k, e);
      forall i | 0 <= i < |items| ensures items[i].next == NextAt(items, i) && items[i].prev == PrevAt(items, i) {
        if i < k { assert items[i] == was[i]; } else if i > k { assert items[i] == was[i - 1]; }
      }
    }

    /** The pointer updates of insert_head. */
    method LinkHead(entry: Node)
      requires Valid() && entry !in items
      modifies this`head, this`tail, entry, items`prev
      ensures Spliced(items, 0, entry) && head == entry && tail == if items == [] then entry else old(tail)
    {
      if head == null {
        assert tail == null;
        entry.UnsetPrevAndNext();
        head := entry;
        tail := head;
      } else {
        var current := head;
        assert current.prev == null;
        entry.UnsetPrevAndNext();
        current.prev := entry;
        entry.next := head;
        head := current.prev;
      }
    }

    method InsertHead(entry: Node)
      requires Valid() && entry !in items
      modifies this, entry, items
      ensures Valid() && items == Inserted(old(items), 0, entry)
    {
      hide Inserted, Spliced, Distinct, Wired;
      WiredDistinct(items);
      ghost var was := items;
      LinkHead(entry);
      items := Inserted(was, 0, entry);
      SplicedValid(was, 0, entry);
    }

    /** The pointer updates of insert_tail on a list that is not empty. */
    method LinkTail(entry: Node)
      requires Valid() && entry !in items && tail != null
      modifies this`tail, entry, items`next
      ensures Spliced(items, |items|, entry) && tail == entry
    {
      var current := tail;
      assert current.next == null;
      current.next := entry;
      entry.prev := tail;
      tail := current.next;
      entry.next := null;
    }

    method InsertTail(entry: Node)
      requires Valid() && entry !in items
      modifies this, entry, items
      ensures Valid() && items == Inserted(old(items), |old(items)|, entry)
    {
      hide Inserted, Spliced, Distinct, Wired;
      WiredDistinct(items);
      if tail == null {
        assert head == null;
        InsertHead(entry);
      } else {
        ghost var was := items;
        LinkTail(entry);
        items := Inserted(was, |was|, entry);
        SplicedValid(was, |was|, entry);
      }
    }

    method InsertAfter(listEntry: Node, entry: Node, ghost k: nat)
      requires Valid() && k < |items| && items[k] == listEntry && entry !in items
      modifies this, entry, items
      ensures Valid() && items == Inserted(old(items), k + 1, entry)
    {
      hide Inserted, Spliced, Distinct, Wired;
      WiredDistinct(items);
      WiredAt(items, k);
      if listEntry.next == null {
        assert k + 1 == |items|;
        InsertTail(entry);
      } else {
        ghost var was := items;
        LinkMiddleAfter(listEntry, entry, k + 1);
        items := Inserted(was, k + 1, entry);
        SplicedValid(was, k + 1, entry);
      }
    }

    method InsertBefore(listEntry: Node, entry: Node, ghost k: nat)
      requires Valid() && k < |items| && items[k] == listEntry && entry !in items
      modifies this, entry, items
      ensures Valid() && items == Inserted(old(items), k, entry)
    {
      hide Inserted, Spliced, Distinct, Wired;
      WiredDistinct(items);
      WiredAt(items, k);
      if listEntry.prev == null {
        assert k == 0;
        InsertHead(entry);
      } else {
        ghost var was := items;
        LinkMiddleBefore(listEntry, entry, k);
        items := Inserted(was, k, entry);
        SplicedValid(was, k, entry);
      }
    }

    /** The pointer updates between two neighbours, from the left one. */
    method LinkMiddleAfter(listEntry: Node, entry: Node, ghost k: nat)
      requires Wired(items) && 0 < k < |items| && entry !in items && items[k - 1] == listEntry
      modifies entry, listEntry`next, {items[k]}`prev
      ensures Spliced(items, k, entry)
    {
      hide Distinct;
      OnlyAt(items, k);
      OnlyAt(items, k - 1);
      entry.prev, entry.next := null, null;
      LinkAfter(listEntry, entry);
    }

    /** The same, from the right one. */
    method LinkMiddleBefore(listEntry: Node, entry: Node, ghost k: nat)
      requires Wired(items) && 0 < k < |items| && entry !in items && items[k] == listEntry
      modifies entry, listEntry`prev, {items[k - 1]}`next
      ensures Spliced(items, k, entry)
    {
      hide Distinct;
      OnlyAt(items, k);
      OnlyAt(items, k - 1);
      entry.prev, entry.next := null, null;
      LinkBefore(listEntry, entry);
    }

    lemma CutValid(was: seq<Node>, k: nat)
      requires Distinct(was) && k < |was| && Closed(was, k) && items == Dropped(was, k)
      requires head == (if k > 0 then was[0] else NextAt(was, 0)) && tail == if k + 1 < |was| then was[|was| - 1]
        else PrevAt(was, k)
      ensures Valid()
    {
      hide Dropped, Distinct;
      DroppedAt(was, k);
      DeleteDistinct(was, k);
      forall i | 0 <= i < |items| ensures items[i].next == NextAt(items, i) && items[i].prev == PrevAt(items, i) {
        if i < k { assert items[i] == was[i]; } else { assert items[i] == was[i + 1]; }
      }
    }

    /** The branches of remove. */
    method Unlink(listEntry: Node, ghost k: nat)
      requires Valid() && k < |items| && items[k] == listEntry
      modifies this`head, this`tail, items
      ensures Closed(items, k)
      ensures head == if k > 0 then old(head) else NextAt(items, 0)
      ensures tail == if k + 1 < |items| then old(tail) else PrevAt(items, k)
    {
      hide Distinct, Closed;
      assert head != null;
      if listEntry.prev == null {
        assert head == listEntry;
        if listEntry.next == null {
          head := null;
          tail := null;
          OneClosed(items);
        } else {
          head := listEntry.next;
          UnlinkFirst(listEntry.next);
        }
      } else if listEntry.next == null {
        assert tail == listEntry;
        tail := listEntry.prev;
        UnlinkLast(listEntry.prev);
      } else {
        UnlinkMiddle(listEntry, k);
      }
    }

    method UnlinkFirst(second: Node)
      requires Wired(items) && |items| > 1 && second == items[1]
      modifies second`prev
      ensures Closed(items, 0)
    {
      hide Distinct;
      OnlyAt(items, 1);
      second.prev := null;
    }

    method UnlinkLast(previous: Node)
      requires Wired(items) && |items| > 1 && previous == items[|items| - 2]
      modifies previous`next
      ensures Closed(items, |items| - 1)
    {
      hide Distinct;
      OnlyAt(items, |items| - 2);
      previous.next := null;
    }

    method UnlinkMiddle(listEntry: Node, ghost k: nat)
      requires Wired(items) && 0 < k && k + 1 < |items| && items[k] == listEntry
      modifies items
      ensures Closed(items, k)
    {
      hide Distinct;
      OnlyAt(items, k);
      OnlyAt(items, k - 1);
      OnlyAt(items, k + 1);
      listEntry.prev.next := listEntry.next;
      listEntry.next.prev := listEntry.prev;
    }

    method Clear(listEntry: Node, ghost k: nat)
      requires Distinct(items) && k < |items| && items[k] == listEntry && Closed(items, k)
      modifies listEntry
      ensures Closed(items, k) && listEntry.prev == null && listEntry.next == null
    {
      hide Distinct;
      OnlyAt(items, k);
      listEntry.UnsetPrevAndNext();
    }

    /** remove: the node is taken out wherever it is, and its own links are cleared. */
    method Remove(listEntry: Node, ghost k: nat)
      requires Valid() && k < |items| && items[k] == listEntry
      modifies this, items
      ensures Valid() && items == Dropped(old(items), k) && listEntry.prev == null && listEntry.next == null
    {
      hide Dropped, Distinct, Closed, Wired;
      ghost var was := items;
      WiredDistinct(was);
      Unlink(listEntry, k);
      Clear(listEntry, k);
      items := Dropped(was, k);
      CutValid(was, k);
    }

    method TakeFirstEntry() returns (e: Node?)
      requires Valid()
      modifies this, items
      ensures Valid()
      ensures old(items) == [] ==> e == null && items == []
      ensures old(items) != [] ==> e == old(items)[0] && items == old(items)[1..]
    {
      e := head;
      if e != null {
        Remove(e, 0);
      }
    }
  }

  // ---------------------------------------------------------------- iteration

  /** PtrLinkedListIterMut: the successor is read before the node is handed out. */
  class Cursor {
    var next: Node?

    constructor (list: PtrLinkedList)
      ensures next == list.head
    {
      next := list.head;
    }

    method Next() returns (n: Node?)
      modifies this
      ensures n == old(next) && next == if n == null then null else n.next
    {
      n := next;
      if n != null {
        next := n.next;
      }
    }
  }

  function Kept(items: seq<Node>, doomed: set<Node>): seq<Node> {
    if items == [] then []
    else Kept(items[..|items| - 1], doomed) + if items[|items| - 1] in doomed then [] else [items[|items| - 1]]
  }

  lemma KeptStep(was: seq<Node>, doomed: set<Node>, i: nat)
    requires i < |was|
    ensures Kept(was[..i + 1], doomed) == Kept(was[..i], doomed) + if was[i] in doomed then [] else [was[i]]
    ensures was[i..] == [was[i]] + was[i + 1..]
  {
    assert was[..i + 1][..i] == was[..i];
  }

  lemma {:induction false} KeptIn(items: seq<Node>, doomed: set<Node>, x: Node)
    requires x in Kept(items, doomed)
    ensures x in items
  {
    if x in Kept(items[..|items| - 1], doomed) { KeptIn(items[..|items| - 1], doomed, x); }
  }

  lemma AllOld(was: seq<Node>, doomed: set<Node>, i: nat)
    requires i <= |was|
    ensures var now := Kept(was[..i], doomed) + was[i..]; forall k :: 0 <= k < |now| ==> now[k] in was
  {
    forall x | x in Kept(was[..i], doomed) ensures x in was { KeptIn(was[..i], doomed, x); }
  }

  lemma DeleteMiddle(a: seq<Node>, x: Node, b: seq<Node>)
    ensures Dropped(a + ([x] + b), |a|) == a + b
  {
  }

  /** After `i` steps: the nodes behind the cursor are swept, those ahead are untouched. */
  ghost predicate Swept(list: PtrLinkedList, cursor: Cursor, was: seq<Node>, i: nat, doomed: set<Node>)
    reads list, list.items, cursor
  {
    && i <= |was| && cursor.next == (if i < |was| then was[i] else null)
    && list.Valid() && list.items == Kept(was[..i], doomed) + was[i..]
  }

  /** One step of an iteration whose body may remove the node it was handed. */
  method Visit(list: PtrLinkedList, cursor: Cursor, doomed: set<Node>, ghost was: seq<Node>, ghost i: nat)
    returns (n: Node)
    requires Swept(list, cursor, was, i, doomed) && cursor.next != null
    modifies list, was, cursor
    ensures Swept(list, cursor, was, i + 1, doomed) && n == was[i]
  {
    hide Wired, Kept, Dropped, Distinct;
    ghost var k := |Kept(was[..i], doomed)|;
    KeptStep(was, doomed, i);
    AllOld(was, doomed, i);
    WiredAt(list.items, k);
    DeleteMiddle(Kept(was[..i], doomed), was[i], was[i + 1..]);
    NextAhead(Kept(was[..i], doomed), was, i);
    n := cursor.Next();
    if n in doomed {
      list.Remove(n, k);
    }
  }

  lemma NextAhead(a: seq<Node>, was: seq<Node>, i: nat)
    requires i < |was|
    ensures (a + was[i..])[|a|] == was[i] && NextAt(a + was[i..], |a|) == if i + 1 < |was| then was[i + 1] else null
  {
  }

  /** An iteration that removes any of the nodes it is handed still visits every node of the list once, in order,
      and leaves exactly the others. */
  method Sweep(list: PtrLinkedList, doomed: set<Node>) returns (visited: seq<Node>)
    requires list.Valid()
    modifies list, list.items
    ensures list.Valid() && visited == old(list.items) && list.items == Kept(old(list.items), doomed)
  {
    hide Swept, PtrLinkedList.Valid, Kept;
    ghost var was := list.items;
    var cursor := new Cursor(list);
    visited := [];
    ghost var i := 0;
    SweepStart(list, cursor, doomed);
    while cursor.next != null
      invariant Swept(list, cursor, was, i, doomed) && i <= |was| && visited == was[..i] && fresh(cursor)
      decreases |was| - i
    {
      SweepAhead(list, cursor, was, i, doomed);
      assert was[..i + 1] == was[..i] + [was[i]];
      var n := Visit(list, cursor, doomed, was, i);
      visited := visited + [n];
      i := i + 1;
    }
    SweepEnd(list, cursor, was, i, doomed);
  }

  lemma SweepStart(list: PtrLinkedList, cursor: Cursor, doomed: set<Node>)
    requires list.Valid() && cursor.next == list.head
    ensures Swept(list, cursor, list.items, 0, doomed)
  {
    assert Kept(list.items[..0], doomed) + list.items[0..] == list.items;
  }

  lemma SweepAhead(list: PtrLinkedList, cursor: Cursor, was: seq<Node>, i: nat, doomed: set<Node>)
    requires Swept(list, cursor, was, i, doomed) && cursor.next != null
    ensures i < |was|
  {
  }

  lemma SweepEnd(list: PtrLinkedList, cursor: Cursor, was: seq<Node>, i: nat, doomed: set<Node>)
    requires Swept(list, cursor, was, i, doomed) && cursor.next == null
    ensures was[..i] == was && list.Valid() && list.items == Kept(was, doomed)
  {
    assert was[..i] == was && was[i..] == [];
  }
}
