/** zlistx (src/zlistx.c): a list with a cursor on a ring of nodes whose head node holds no item. */
module ListX {
  import opened ListRing
  import opened Ordering
  import opened Wrappers

  ghost predicate AllIn<T>(ns: seq<T>, was: seq<T>) {
    forall k :: 0 <= k < |ns| ==> ns[k] in was
  }

  lemma RemoveAtIn<T>(ns: seq<T>, i: nat)
    requires i < |ns|
    ensures AllIn(RemoveAt(ns, i), ns)
  {
    forall k | 0 <= k < |RemoveAt(ns, i)|
      ensures RemoveAt(ns, i)[k] in ns
    {
      RemoveAtIndex(ns, i, k);
    }
  }

  lemma LastPointsToFirst<T>(ns: seq<Node<T>>)
    requires Ring(ns)
    ensures ns[|ns| - 1].next == ns[0]
  {
    assert After(|ns| - 1, |ns|) == 0;
  }

  class ListX<T(!new)> {
    var head: Node<T>
    var cursor: Node<T>
    var size: nat
    const comparator: (T, T) -> int

    ghost var nodes: seq<Node<T>>   // the ring, from the head on
    ghost var items: seq<T>         // what the list holds
    ghost var position: nat         // where the cursor is in the ring; 0 is before the first item

    ghost predicate Valid()
      reads this, nodes
    {
      && Ring(nodes) && nodes[0] == head
      && size == |items| && Holds(nodes, items)
      && head.item == None
      && position < |nodes| && nodes[position] == cursor
    }

    /** zlistx_new */
    constructor (comparator: (T, T) -> int)
      ensures Valid() && fresh(nodes) && items == [] && position == 0 && this.comparator == comparator
    {
      this.comparator := comparator;
      var n := new Node<T>(None);
      head, cursor, size := n, n, 0;
      nodes, items, position := [n], [], 0;
    }

    /** What the cursor points to. */
    ghost function Current(): Option<T>
      reads this
    {
      if 0 < position <= |items| then Some(items[position - 1]) else None
    }

    /** Count a node that was put into the ring after the i-th, and reset the cursor. */
    method Adopt(ghost i: nat, node: Node<T>, ghost item: T)
      requires i < |nodes| && size == |items| == |nodes| - 1 && nodes[0] == head && head.item == None
      requires Ring(InsertAfter(nodes, i, node)) && Holds(InsertAfter(nodes, i, node), Insert(items, i, item))
      modifies this
      ensures Valid() && head == old(head) && position == 0
      ensures nodes == InsertAfter(old(nodes), i, node) && items == Insert(old(items), i, item)
    {
      InsertAfterIndex(nodes, i, node, 0);
      nodes, items, position := InsertAfter(nodes, i, node), Insert(items, i, item), 0;
      cursor, size := head, size + 1;
    }

    /** Put a new node after the i-th, the common part of the methods that add. */
    method AddAfter(ghost i: nat, prev: Node<T>, next: Node<T>, item: T) returns (handle: Node<T>)
      requires Valid() && i < |nodes| && prev == nodes[i] && next == nodes[After(i, |nodes|)]
      modifies this, nodes
      ensures Valid() && fresh(handle)
      ensures nodes == InsertAfter(old(nodes), i, handle)
      ensures items == Insert(old(items), i, item) && position == 0
    {
      handle := new Node<T>(Some(item));
      Attach(nodes, i, handle, prev, next);
      HoldsInsert(nodes, items, i, handle, item);
      Adopt(i, handle, item);
    }

    /** zlistx_add_start */
    method AddStart(item: T) returns (handle: Node<T>)
      requires Valid()
      modifies this, nodes
      ensures Valid() && fresh(handle) && nodes == InsertAfter(old(nodes), 0, handle)
      ensures items == [item] + old(items) && position == 0
    {
      handle := AddAfter(0, head, head.next, item);
    }

    /** zlistx_add_end */
    method AddEnd(item: T) returns (handle: Node<T>)
      requires Valid()
      modifies this, nodes
      ensures Valid() && fresh(handle) && nodes == old(nodes) + [handle]
      ensures items == old(items) + [item] && position == 0
    {
      handle := AddAfter(|nodes| - 1, head.prev, head, item);
      assert InsertAfter(old(nodes), |old(nodes)| - 1, handle) == old(nodes) + [handle];
    }

    /** zlistx_first */
    method First() returns (item: Option<T>)
      requires Valid()
      modifies this`cursor, this`position
      ensures Valid() && position == (if items == [] then 0 else 1) && item == Current()
    {
      cursor := head.next;
      position := After(0, |nodes|);
      item := if cursor == head then None else cursor.item;
    }

    /** zlistx_next: one place on, round past the head. */
    method Next() returns (item: Option<T>)
      requires Valid()
      modifies this`cursor, this`position
      ensures Valid() && position == (if old(position) == |items| then 0 else old(position) + 1) && item == Current()
    {
      cursor := cursor.next;
      position := After(position, |nodes|);
      item := if cursor == head then None else cursor.item;
    }

    /** zlistx_prev */
    method Prev() returns (item: Option<T>)
      requires Valid()
      modifies this`cursor, this`position
      ensures Valid() && position == (if old(position) == 0 then |items| else old(position) - 1) && item == Current()
    {
      ghost var p: nat := if position == 0 then |nodes| - 1 else position - 1;
      cursor := cursor.prev;
      position := p;
      item := if cursor == head then None else cursor.item;
    }

    /** zlistx_last */
    method Last() returns (item: Option<T>)
      requires Valid()
      modifies this`cursor, this`position
      ensures Valid() && position == |items| && item == Current()
    {
      cursor := head.prev;
      position := |nodes| - 1;
      item := if cursor == head then None else cursor.item;
    }

    /** zlistx_find */
    method Find(item: T) returns (handle: Node?<T>)
      requires Valid()
      modifies this`cursor, this`position
      ensures Valid()
      ensures handle == null ==>
        && position == old(position)
        && forall i :: 0 <= i < |items| ==> comparator(items[i], item) != 0
      ensures handle != null ==>
        && 0 < position < |nodes| && handle == nodes[position] && comparator(items[position - 1], item) == 0
        && forall i :: 0 <= i < position - 1 ==> comparator(items[i], item) != 0
    {
      var node := head.next;
      ghost var k := After(0, |nodes|);
      ghost var seen := 0;
      while node != head
        invariant seen <= |items| && k == After(seen, |nodes|) && node == nodes[k]
        invariant forall i :: 0 <= i < seen ==> comparator(items[i], item) != 0
        decreases |items| - seen
      {
        if comparator(node.item.value, item) == 0 {
          cursor, position := node, k;
          return node;
        }
        node := node.next;
        seen := seen + 1;
        k := After(k, |nodes|);
      }
      return null;
    }

    /** zlistx_detach.  A null handle means the first item, if any. */
    method Detach(handle: Node?<T>) returns (item: Option<T>, ghost i: nat)
      requires Valid() && (handle != null ==> handle in nodes && handle != head)
      modifies this, nodes
      ensures Valid()
      ensures item == None ==>
        handle == null && old(items) == [] && nodes == old(nodes) && items == [] && position == old(position)
      ensures item.Some? ==>
        && 0 < i < |old(nodes)| && (if handle == null then i == 1 else old(nodes)[i] == handle)
        && Detached(i, old(nodes), old(items), old(position), item.value)
    {
      var node: Node?<T> := handle;
      if node == null {
        node := if head.next == head then null else head.next;
      }
      if node == null {
        return None, 0;
      }
      i :| 0 < i < |nodes| && nodes[i] == node;
      item := DetachNode(i, node);
    }

    method DetachNode(ghost i: nat, node: Node<T>) returns (item: Option<T>)
      requires Valid() && 0 < i < |nodes| && nodes[i] == node
      modifies this, nodes
      ensures Valid() && item.Some? && Detached(i, old(nodes), old(items), old(position), item.value)
    {
      item := node.item;
      ghost var at := Unhook(i, node);
      size := size - 1;
      nodes, items, position := RemoveAt(nodes, i), RemoveAt(items, i - 1), at;
    }

    lemma CursorAfter(i: nat, node: Node<T>)
      requires Valid() && 0 < i < |nodes| && nodes[i] == node
      ensures
        var at, ns := if position >= i then position - 1 else position, RemoveAt(nodes, i);
        ns[0] == head && ns[at] == if cursor == node then cursor.prev else cursor
    {
      var at := if position >= i then position - 1 else position;
      RemoveAtIndex(nodes, i, 0);
      RemoveAtIndex(nodes, i, at);
      if cursor == node {
        SamePlace(nodes, position, i);
      }
    }

    /** Move the cursor off the node, and the node out of the ring. */
    method Unhook(ghost i: nat, node: Node<T>) returns (ghost at: nat)
      requires Valid() && 0 < i < |nodes| && nodes[i] == node
      modifies this`cursor, nodes
      ensures at == if position >= i then position - 1 else position
      ensures
        var ns := RemoveAt(nodes, i);
        Ring(ns) && Holds(ns, RemoveAt(items, i - 1)) && ns[0] == head && ns[at] == cursor
      ensures head.item == None && node.next == node && node.prev == node && node.item == old(node.item)
    {
      assert node.prev in nodes && node.next in nodes;
      at := if position >= i then position - 1 else position;
      ghost var ns := RemoveAt(nodes, i);
      CursorAfter(i, node);
      if cursor == node {
        cursor := cursor.prev;
      }
      assert ns[0] == head && ns[at] == cursor;
      Release(nodes, i, node);
      assert RemoveAt(nodes, i) == ns;
      HoldsRemove(nodes, items, i);
    }

    /** The i-th node of the ring is gone, and the cursor with it moved one back if it was there. */
    ghost predicate Detached(i: nat, ns: seq<Node<T>>, was: seq<T>, at: nat, x: T)
      reads this
    {
      && 0 < i < |ns| && |was| + 1 == |ns|
      && x == was[i - 1]
      && nodes == RemoveAt(ns, i)
      && items == RemoveAt(was, i - 1)
      && position == if at >= i then at - 1 else at
    }

    /** zlistx_detach_cur.  With the cursor before the first item it detaches that first item, where
        the documentation promises that nothing is detached. */
    method DetachCur() returns (item: Option<T>)
      requires Valid()
      modifies this, nodes
      ensures Valid() && (item == None <==> old(items) == [])
      ensures item.Some? ==>
        Detached(if old(position) == 0 then 1 else old(position), old(nodes), old(items), old(position), item.value)
    {
      if cursor == head {
        ghost var i;
        item, i := Detach(null);
      } else {
        item := DetachNode(position, cursor);
      }
    }

    // ----- Moving nodes -----

    /** Where the node at place p of the ring is after the i-th node has moved behind the j-th of the
        others. */
    ghost function PlaceAfterMove(p: nat, i: nat, j: nat): nat {
      if p == i then j + 1
      else
        var q := if p > i then p - 1 else p;
        if q > j then q + 1 else q
    }

    lemma PlaceIsRight(ns: seq<Node<T>>, i: nat, j: nat, p: nat)
      requires 0 < i < |ns| && j < |ns| - 1 && p < |ns|
      ensures |InsertAfter(RemoveAt(ns, i), j, ns[i])| == |ns| && PlaceAfterMove(p, i, j) < |ns|
      ensures InsertAfter(RemoveAt(ns, i), j, ns[i])[PlaceAfterMove(p, i, j)] == ns[p]
    {
      var rest := RemoveAt(ns, i);
      if p != i {
        RemoveAtIndex(ns, i, if p > i then p - 1 else p);
      }
      InsertAfterIndex(rest, j, ns[i], PlaceAfterMove(p, i, j));
    }

    /** The ring and the items without the i-th node; i is 0 for a node that is in no ring. */
    ghost function OtherNodes(i: nat): (others: seq<Node<T>>)
      reads this
      requires i < |nodes|
      ensures forall n :: n in others ==> n in nodes
    {
      if i == 0 then nodes else RemoveAt(nodes, i)
    }

    ghost function OtherItems(i: nat): seq<T>
      reads this
      requires i <= |items|
    {
      if i == 0 then items else RemoveAt(items, i - 1)
    }

    ghost predicate Movable(i: nat, node: Node<T>)
      reads this, nodes, node
    {
      && i < |nodes|
      && if i == 0 then node !in nodes && node.next == node && node.prev == node && node.item.Some?
         else node == nodes[i]
    }

    /** The ghost state and the contract shared by everything that moves the i-th node behind the j-th
        of the others; the cursor stays on the node it is on. */
    ghost predicate MovedTo(i: nat, j: nat, ns: seq<Node<T>>, was: seq<T>, at: nat)
      reads this
    {
      && 0 < i < |ns| && |was| + 1 == |ns| && j < |ns| - 1
      && nodes == InsertAfter(RemoveAt(ns, i), j, ns[i])
      && items == Insert(RemoveAt(was, i - 1), j, was[i - 1])
      && position == PlaceAfterMove(at, i, j)
    }

    /** The i-th node, or a new one, is out of the ring, and everything else is in place. */
    ghost predicate IsOut(i: nat, node: Node<T>)
      reads this, nodes, node
    {
      && i < |nodes| == |items| + 1 && nodes[0] == head && head.item == None
      && (i > 0 ==> node == nodes[i] && node.item == Some(items[i - 1]))
      && Ring(OtherNodes(i)) && Holds(OtherNodes(i), OtherItems(i)) && OtherNodes(i)[0] == head
      && node !in OtherNodes(i) && node.next == node && node.prev == node && node.item.Some?
    }

    /** Take the node out of the ring. */
    method TakeOut(ghost i: nat, node: Node<T>)
      requires Valid() && Movable(i, node)
      modifies nodes, node
      ensures IsOut(i, node) && node.item == old(node.item)
    {
      if i > 0 {
        assert node.prev in nodes && node.next in nodes;
        RemoveAtIndex(nodes, i, 0);
        DistinctRemove(nodes, i);
      }
      Release(nodes, i, node);
      if i > 0 {
        HoldsRemove(nodes, items, i);
      }
    }

    /** Make the ghost state fit a ring into which the i-th node was put back. */
    ghost method Settle(i: nat, j: nat, node: Node<T>)
      requires 0 < i < |nodes| && node == nodes[i] && j < |nodes| - 1 && |items| + 1 == |nodes| && size == |items|
      requires position < |nodes| && nodes[position] == cursor && nodes[0] == head && head.item == None
      requires var ns := InsertAfter(RemoveAt(nodes, i), j, node);
        Ring(ns) && Holds(ns, Insert(RemoveAt(items, i - 1), j, items[i - 1]))
      modifies this`nodes, this`items, this`position
      ensures Valid() && MovedTo(i, j, old(nodes), old(items), old(position))
    {
      PlaceIsRight(nodes, i, j, position);
      PlaceIsRight(nodes, i, j, 0);
      nodes, items, position :=
        InsertAfter(RemoveAt(nodes, i), j, node),
        Insert(RemoveAt(items, i - 1), j, items[i - 1]),
        PlaceAfterMove(position, i, j);
    }

    /** Put the i-th node, which is out of the ring, between two neighbours. */
    method PutBetween(ghost i: nat, ghost j: nat, node: Node<T>, prev: Node<T>, next: Node<T>)
      requires IsOut(i, node) && i > 0 && size == |items| && position < |nodes| && nodes[position] == cursor
      requires j < |nodes| - 1 && prev == OtherNodes(i)[j] && next == OtherNodes(i)[After(j, |nodes| - 1)]
      modifies this`nodes, this`items, this`position, node, prev`next, next`prev
      ensures Valid() && MovedTo(i, j, old(nodes), old(items), old(position))
    {
      PutBack(OtherNodes(i), OtherItems(i), j, node, prev, next);
      Settle(i, j, node);
    }

    lemma StaysPut(i: nat)
      requires Valid() && 0 < i < |nodes|
      ensures MovedTo(i, i - 1, nodes, items, position)
    {
      RemoveThenInsert(nodes, i);
      assert Insert(RemoveAt(items, i - 1), i - 1, items[i - 1]) == items;
    }

    /** zlistx_move_start */
    method MoveStart(handle: Node<T>) returns (ghost i: nat)
      requires Valid() && handle in nodes && handle != head
      modifies this, nodes
      ensures Valid() && 0 < i < |old(nodes)| && old(nodes)[i] == handle
        && MovedTo(i, 0, old(nodes), old(items), old(position))
      ensures cursor == old(cursor) && head == old(head)
    {
      i :| 0 < i < |nodes| && nodes[i] == handle;
      var next := head.next;
      assert next == nodes[1] && next in nodes && head in nodes;
      if handle != next {
        TakeOut(i, handle);
        RemoveAtIndex(nodes, i, 1);
        assert OtherNodes(i)[1] == next && next.prev == head;
        PutBetween(i, 0, handle, next.prev, next);
      } else {
        SamePlace(nodes, i, 1);
        StaysPut(i);
      }
    }

    method PutBehind(ghost i: nat, ghost j: nat, node: Node<T>, prev: Node<T>)
      requires IsOut(i, node) && i > 0 && size == |items| && position < |nodes| && nodes[position] == cursor
      requires j + 2 == |nodes| && prev == OtherNodes(i)[j]
      modifies this`nodes, this`items, this`position, node, prev`next, head`prev
      ensures Valid() && MovedTo(i, j, old(nodes), old(items), old(position))
    {
      LastPointsToFirst(OtherNodes(i));
      PutBetween(i, j, node, prev, prev.next);
    }

    /** Take a node out and put it back after the last. */
    method MoveBehind(ghost i: nat, ghost j: nat, handle: Node<T>, prev: Node<T>)
      requires Valid() && 0 < i <= j && j + 2 == |nodes| && nodes[i] == handle && prev == nodes[j + 1]
      modifies this, nodes
      ensures Valid() && MovedTo(i, j, old(nodes), old(items), old(position))
      ensures cursor == old(cursor) && head == old(head)
    {
      assert prev in nodes && head in nodes && handle in nodes;
      TakeOut(i, handle);
      RemoveAtIndex(nodes, i, j);
      PutBehind(i, j, handle, prev);
    }

    /** zlistx_move_end */
    method MoveEnd(handle: Node<T>) returns (ghost i: nat)
      requires Valid() && handle in nodes && handle != head
      modifies this, nodes
      ensures Valid() && 0 < i < |old(nodes)| && old(nodes)[i] == handle
        && MovedTo(i, |old(items)| - 1, old(nodes), old(items), old(position))
      ensures cursor == old(cursor) && head == old(head)
    {
      i :| 0 < i < |nodes| && nodes[i] == handle;
      ghost var last: nat := |nodes| - 1;
      var prev := head.prev;
      assert prev == nodes[last] && prev in nodes && head in nodes;
      if handle != prev {
        MoveBehind(i, last - 1, handle, prev);
      } else {
        SamePlace(nodes, i, last);
        StaysPut(i);
      }
    }

    /** zlistx_reorder */
    method Reorder(handle: Node<T>, low: bool) returns (ghost i: nat, ghost j: nat)
      requires Valid() && handle in nodes && handle != head
      modifies this, nodes
      ensures Valid()
      ensures 0 < i < |old(nodes)| && old(nodes)[i] == handle && MovedTo(i, j, old(nodes), old(items), old(position))
      ensures
        var others, x := RemoveAt(old(items), i - 1), old(items)[i - 1];
        if low then LowSlot(comparator, others, x, j) else HighSlot(comparator, others, x, j)
      ensures cursor == old(cursor) && head == old(head)
    {
      i :| 0 < i < |nodes| && nodes[i] == handle;
      TakeOut(i, handle);
      j := Place(OtherNodes(i), OtherItems(i), head, comparator, handle, low);
      Settle(i, j, handle);
    }

    /** zlistx_insert */
    method InsertSorted(item: T, low: bool) returns (handle: Node<T>, ghost j: nat)
      requires Valid()
      modifies this, nodes
      ensures Valid() && fresh(handle) && position == 0
      ensures if low then LowSlot(comparator, old(items), item, j) else HighSlot(comparator, old(items), item, j)
      ensures nodes == InsertAfter(old(nodes), j, handle) && items == Insert(old(items), j, item)
    {
      handle := new Node<T>(Some(item));
      TakeOut(0, handle);
      j := Place(nodes, items, head, comparator, handle, low);
      Adopt(j, handle, item);
    }

    // ----- Deleting while iterating -----

    /** The items visited are dealt with, the others follow, and the cursor is at the first of these. */
    ghost predicate OnTheWay(drop: T -> bool, all: seq<T>, visited: seq<T>)
      reads this
    {
      && visited <= all && items == Keep(drop, visited) + all[|visited|..]
      && if visited == all then position == 0 else position == |Keep(drop, visited)| + 1
    }

    lemma VisitStep(drop: T -> bool, all: seq<T>, visited: seq<T>)
      requires OnTheWay(drop, all, visited) && visited != all && 0 < position <= |items|
      ensures
        var x := items[position - 1];
        var v := visited + [x];
        && v <= all
        && (if drop(x) then RemoveAt(items, position - 1) else items) == Keep(drop, v) + all[|v|..]
        && (position == |items| <==> v == all)
        && |Keep(drop, v)| == position - if drop(x) then 1 else 0
    {
      var x := items[position - 1];
      var v := visited + [x];
      assert x == all[|visited|];
      assert v[..|v| - 1] == visited;
      assert all[|visited|..] == [x] + all[|v|..];
    }

    /** One turn of a deleting loop: delete the item at the cursor if it matches, and go on. */
    method VisitCurrent(drop: T -> bool, ghost all: seq<T>, ghost visited: seq<T>) returns (item: Option<T>)
      requires Valid() && position > 0 && OnTheWay(drop, all, visited)
      modifies this, nodes
      ensures Valid() && item == Current() && OnTheWay(drop, all, visited + [old(items)[old(position) - 1]])
      ensures nodes == old(nodes) || nodes == RemoveAt(old(nodes), old(position))
      ensures AllIn(nodes, old(nodes))
    {
      RemoveAtIn(nodes, position);
      VisitStep(drop, all, visited);
      if drop(cursor.item.value) {
        var gone := DetachNode(position, cursor);
      }
      item := Next();
    }

    /** The loop of zloop_reader_end and zloop_poller_end: go through the list with first and next, and
        delete what matches through its handle, which is where the cursor is.  It visits every item
        once, in order, and leaves exactly those that do not match. */
    method DeleteMatching(drop: T -> bool) returns (visited: seq<T>)
      requires Valid()
      modifies this, nodes
      ensures Valid() && visited == old(items) && items == Keep(drop, old(items)) && position == 0
    {
      ghost var all, was := items, nodes;
      visited := [];
      var item := First();
      while item.Some?
        invariant Valid() && AllIn(nodes, was)
        invariant item == Current() && OnTheWay(drop, all, visited)
        decreases |all| - |visited|
      {
        var x := item.value;
        item := VisitCurrent(drop, all, visited);
        visited := visited + [x];
      }
    }

    // ----- Sorting -----

    method SwapItems(ghost b: nat, ghost t: nat, base: Node<T>, test: Node<T>)
      requires Valid() && b < t < |items| && base == nodes[b + 1] && test == nodes[t + 1]
      modifies base`item, test`item, this`items
      ensures Valid() && items == Swap(old(items), b, t)
    {
      var item := base.item;
      base.item := test.item;
      test.item := item;
      items := Swap(items, b, t);
    }

    /** The node at place p of the ring, the head again after the last. */
    ghost function AtPlace(p: nat): Node<T>
      reads this
      requires nodes != []
    {
      if p < |nodes| then nodes[p] else nodes[0]
    }

    lemma StepOn(node: Node<T>, p: nat)
      requires Valid() && p < |nodes| && node == nodes[p]
      ensures node.next == AtPlace(p + 1)
    {
    }

    /** The node `gap` places after the first item. */
    method Jump(gap: nat) returns (test: Node<T>)
      requires Valid() && 1 <= gap <= size
      ensures test == AtPlace(gap + 1)
    {
      test := head.next;
      for jump := 0 to gap
        invariant test == AtPlace(jump + 1)
      {
        test := test.next;
      }
    }

    /** Compare one pair and swap it if it is out of order. */
    method ComparePair(gap: nat, ghost b: nat, ghost was: seq<T>, base: Node<T>, test: Node<T>, before: bool)
        returns (swapped: bool)
      requires Valid() && 1 <= gap && b + gap < |items| && base == nodes[b + 1] && test == nodes[b + gap + 1]
      requires PassedOver(comparator, gap, b, was, items, before)
      requires Flips(comparator)
      modifies base`item, test`item, this`items
      ensures Valid() && PassedOver(comparator, gap, b + 1, was, items, swapped)
    {
      assert base.item == Some(items[b]) && test.item == Some(items[b + gap]);
      PassStep(comparator, gap, b, was, items, before);
      if comparator(base.item.value, test.item.value) > 0 {
        SwapItems(b, b + gap, base, test);
        swapped := true;
      } else {
        swapped := before;
      }
    }

    /** One pass of the comb: compare the items `gap` apart and swap those out of order. */
    method Pass(gap: nat) returns (swapped: bool)
      requires Valid() && 1 <= gap <= size
      requires Flips(comparator)
      modifies this`items, nodes`item
      ensures Valid() && PassedOver(comparator, gap, |items|, old(items), items, swapped)
    {
      ghost var was := items;
      var base := head.next;
      var test := Jump(gap);
      ghost var b: nat := 0;
      swapped := false;
      while base != head && test != head
        invariant Valid() && b + gap <= |items| && base == AtPlace(b + 1) && test == AtPlace(b + gap + 1)
        invariant PassedOver(comparator, gap, b, was, items, swapped)
        decreases |items| - b
      {
        assert b + gap + 1 < |nodes|;
        swapped := ComparePair(gap, b, was, base, test, swapped);
        StepOn(base, b + 1);
        StepOn(test, b + gap + 1);
        base, test := base.next, test.next;
        b := b + 1;
      }
    }

    /** zlistx_sort, a comb sort.  `shrink` is the division of the gap by 1.3, in whatever rounding; all
        that matters is that it makes the gap smaller.  The nodes stay where they are, and with them the
        cursor: only the items move. */
    method Sort(shrink: nat -> nat)
      requires Valid() && Comparator(comparator)
      requires shrink(1) <= 1 && forall g :: g > 1 ==> shrink(g) < g
      modifies this`items, nodes`item
      ensures Valid() && Sorted(comparator, items) && multiset(items) == multiset(old(items))
    {
      var gap := size;
      var swapped := false;
      while gap > 1 || swapped
        invariant Valid() && gap <= size && (swapped ==> gap >= 1) && multiset(items) == multiset(old(items))
        invariant gap <= 1 && !swapped ==> forall k :: 0 <= k < |items| ==> InOrder(comparator, items, 1, k)
        decreases gap, Inversions(comparator, items), swapped
      {
        gap := shrink(gap);
        if gap < 1 {
          gap := 1;
        }
        swapped := Pass(gap);
      }
      forall i, j | 0 <= i < j < |items|
        ensures comparator(items[i], items[j]) <= 0
      {
        NeighboursSorted(comparator, items, i, j);
      }
    }
  }
}
