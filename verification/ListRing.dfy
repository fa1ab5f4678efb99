/** The ring of nodes under a zlistx (src/zlistx.c): a circular doubly-linked list in which inserting
    and removing a node are the same two swaps. */
module ListRing {
  import opened Ordering
  import opened Wrappers

  class Node<T> {
    var next: Node<T>
    var prev: Node<T>
    var item: Option<T>

    /** s_node_new */
    constructor (item: Option<T>)
      ensures next == this && prev == this && this.item == item
    {
      next, prev, this.item := this, this, item;
    }
  }

  /** The index after i, round the ring. */
  function After(i: nat, n: nat): nat
    requires i < n
  {
    if i + 1 == n then 0 else i + 1
  }

  function Before(i: nat, n: nat): nat
    requires i < n
  {
    if i == 0 then n - 1 else i - 1
  }

  ghost predicate Distinct<T>(s: seq<Node<T>>) {
    forall i, j :: 0 <= i < j < |s| ==> s[i] != s[j]
  }

  ghost predicate NextLinks<T>(s: seq<Node<T>>)
    reads s
  {
    forall i {:trigger s[i].next} :: 0 <= i < |s| ==> s[i].next == s[After(i, |s|)]
  }

  ghost predicate PrevLinks<T>(s: seq<Node<T>>)
    reads s
  {
    forall i {:trigger s[i].prev} :: 0 <= i < |s| ==> s[i].prev == s[Before(i, |s|)]
  }

  ghost predicate Ring<T>(s: seq<Node<T>>)
    reads s
  {
    && s != []
    && Distinct(s)
    && NextLinks(s)
    && PrevLinks(s)
  }

  /** s_node_relink: swap (node->next, prev->next), then swap (node->prev, next->prev). */
  method Relink<T>(node: Node<T>, prev: Node<T>, next: Node<T>)
    modifies node`next, prev`next, node`prev, next`prev
    ensures node.next == old(prev.next) && prev.next == old(node.next)
    ensures node.prev == old(next.prev) && next.prev == old(node.prev)
  {
    var temp := node.next;
    node.next := prev.next;
    prev.next := temp;
    temp := node.prev;
    node.prev := next.prev;
    next.prev := temp;
  }

  function InsertAfter<T>(s: seq<T>, i: nat, x: T): seq<T>
    requires i < |s|
  {
    seq(|s| + 1, k requires 0 <= k <= |s| => if k <= i then s[k] else if k == i + 1 then x else s[k - 1])
  }

  function RemoveAt<T>(s: seq<T>, i: nat): seq<T>
    requires i < |s|
  {
    seq(|s| - 1, k requires 0 <= k < |s| - 1 => if k < i then s[k] else s[k + 1])
  }

  lemma InsertAfterIndex<T>(s: seq<T>, i: nat, x: T, k: nat)
    requires i < |s| && k <= |s|
    ensures |InsertAfter(s, i, x)| == |s| + 1
    ensures InsertAfter(s, i, x)[k] == if k <= i then s[k] else if k == i + 1 then x else s[k - 1]
  {
  }

  lemma RemoveAtIndex<T>(s: seq<T>, i: nat, k: nat)
    requires i < |s| && k < |s| - 1
    ensures |RemoveAt(s, i)| == |s| - 1
    ensures RemoveAt(s, i)[k] == if k < i then s[k] else s[k + 1]
  {
  }

  /** The nodes after the first hold these items. */
  ghost predicate Holds<T>(s: seq<Node<T>>, items: seq<T>)
    reads s
  {
    |items| + 1 == |s| && forall i {:trigger s[i].item} :: 0 < i < |s| ==> s[i].item == Some(items[i - 1])
  }

  lemma HoldsInsert<T>(s: seq<Node<T>>, items: seq<T>, i: nat, x: Node<T>, item: T)
    requires Holds(s, items) && i < |s| && x.item == Some(item)
    ensures Holds(InsertAfter(s, i, x), Insert(items, i, item))
  {
    var t := InsertAfter(s, i, x);
    forall k | 0 < k < |t|
      ensures t[k].item == Some(Insert(items, i, item)[k - 1])
    {
      InsertAfterIndex(s, i, x, k);
    }
  }

  lemma HoldsRemove<T>(s: seq<Node<T>>, items: seq<T>, i: nat)
    requires Holds(s, items) && 0 < i < |s|
    ensures Holds(RemoveAt(s, i), RemoveAt(items, i - 1))
  {
    var t := RemoveAt(s, i);
    forall k | 0 < k < |t|
      ensures t[k].item == Some(RemoveAt(items, i - 1)[k - 1])
    {
      RemoveAtIndex(s, i, k);
    }
  }

  lemma SamePlace<T>(s: seq<Node<T>>, i: nat, j: nat)
    requires Distinct(s) && i < |s| && j < |s| && s[i] == s[j]
    ensures i == j
  {
  }

  lemma DistinctInsert<T>(s: seq<Node<T>>, i: nat, x: Node<T>)
    requires Distinct(s) && i < |s| && x !in s
    ensures Distinct(InsertAfter(s, i, x))
  {
    var t := InsertAfter(s, i, x);
    forall a, b | 0 <= a < b < |t|
      ensures t[a] != t[b]
    {
      InsertAfterIndex(s, i, x, a);
      InsertAfterIndex(s, i, x, b);
    }
  }

  lemma DistinctRemove<T>(s: seq<Node<T>>, i: nat)
    requires Distinct(s) && i < |s|
    ensures Distinct(RemoveAt(s, i)) && s[i] !in RemoveAt(s, i)
  {
    var t := RemoveAt(s, i);
    forall a | 0 <= a < |t|
      ensures t[a] != s[i]
    {
      RemoveAtIndex(s, i, a);
    }
    forall a, b | 0 <= a < b < |t|
      ensures t[a] != t[b]
    {
      RemoveAtIndex(s, i, a);
      RemoveAtIndex(s, i, b);
    }
  }

  lemma NextInserted<T>(s: seq<Node<T>>, i: nat, node: Node<T>)
    requires i < |s| && s[i].next == node && node.next == s[After(i, |s|)]
    requires forall k {:trigger s[k].next} :: 0 <= k < |s| && k != i ==> s[k].next == s[After(k, |s|)]
    ensures NextLinks(InsertAfter(s, i, node))
  {
    var t := InsertAfter(s, i, node);
    forall k | 0 <= k < |t|
      ensures t[k].next == t[After(k, |t|)]
    {
      InsertAfterIndex(s, i, node, k);
      InsertAfterIndex(s, i, node, After(k, |t|));
    }
  }

  lemma PrevInserted<T>(s: seq<Node<T>>, i: nat, node: Node<T>)
    requires i < |s| && s[After(i, |s|)].prev == node && node.prev == s[i]
    requires forall k {:trigger s[k].prev} :: 0 <= k < |s| && k != After(i, |s|) ==> s[k].prev == s[Before(k, |s|)]
    ensures PrevLinks(InsertAfter(s, i, node))
  {
    var t := InsertAfter(s, i, node);
    forall k | 0 <= k < |t|
      ensures t[k].prev == t[Before(k, |t|)]
    {
      InsertAfterIndex(s, i, node, k);
      InsertAfterIndex(s, i, node, Before(k, |t|));
    }
  }

  /** Relinking a node that points to itself between two neighbours inserts it there. */
  method Attach<T>(ghost s: seq<Node<T>>, ghost i: nat, node: Node<T>, prev: Node<T>, next: Node<T>)
    requires Ring(s) && i < |s| && prev == s[i] && next == s[After(i, |s|)]
    requires node !in s && node.next == node && node.prev == node
    modifies node`next, prev`next, node`prev, next`prev
    ensures Ring(InsertAfter(s, i, node))
  {
    assert prev.next == next && next.prev == prev;
    Relink(node, prev, next);
    DistinctInsert(s, i, node);
    NextInserted(s, i, node);
    PrevInserted(s, i, node);
  }

  lemma NextRemoved<T>(s: seq<Node<T>>, i: nat)
    requires 0 < i < |s| && s[i - 1].next == s[After(i, |s|)]
    requires forall k {:trigger s[k].next} :: 0 <= k < |s| && k != i && k != i - 1 ==> s[k].next == s[After(k, |s|)]
    ensures NextLinks(RemoveAt(s, i))
  {
    var t := RemoveAt(s, i);
    forall k | 0 <= k < |t|
      ensures t[k].next == t[After(k, |t|)]
    {
      RemoveAtIndex(s, i, k);
      RemoveAtIndex(s, i, After(k, |t|));
    }
  }

  lemma PrevRemoved<T>(s: seq<Node<T>>, i: nat)
    requires 0 < i < |s| && s[After(i, |s|)].prev == s[i - 1]
    requires forall k {:trigger s[k].prev} :: 0 <= k < |s| && k != i && k != After(i, |s|) ==>
      s[k].prev == s[Before(k, |s|)]
    ensures PrevLinks(RemoveAt(s, i))
  {
    var t := RemoveAt(s, i);
    forall k | 0 <= k < |t|
      ensures t[k].prev == t[Before(k, |t|)]
    {
      RemoveAtIndex(s, i, k);
      RemoveAtIndex(s, i, Before(k, |t|));
    }
  }

  /** Relinking a node between its own neighbours takes it out of its ring and leaves it pointing to
      itself; on a node that is in no ring it changes nothing.  i is its place in the ring, or 0. */
  method Release<T>(ghost s: seq<Node<T>>, ghost i: nat, node: Node<T>)
    requires Ring(s) && i < |s|
    requires if i == 0 then node !in s && node.next == node && node.prev == node else node == s[i]
    modifies node`next, node.prev`next, node`prev, node.next`prev
    ensures Ring(if i == 0 then s else RemoveAt(s, i)) && node.next == node && node.prev == node
  {
    ghost var prev, next := node.prev, node.next;
    assert i > 0 ==> prev == s[i - 1] && next == s[After(i, |s|)] && prev.next == node && next.prev == node;
    Relink(node, node.prev, node.next);
    if i > 0 {
      DistinctRemove(s, i);
      NextRemoved(s, i);
      PrevRemoved(s, i);
    }
  }

  /** Attach, seen together with what the nodes hold. */
  method PutBack<T>(ghost s: seq<Node<T>>, ghost items: seq<T>, ghost i: nat, node: Node<T>, prev: Node<T>,
      next: Node<T>)
    requires Ring(s) && Holds(s, items) && i < |s| && prev == s[i] && next == s[After(i, |s|)]
    requires node !in s && node.next == node && node.prev == node && node.item.Some?
    modifies node`next, prev`next, node`prev, next`prev
    ensures Ring(InsertAfter(s, i, node))
    ensures Holds(InsertAfter(s, i, node), Insert(items, i, node.item.value))
  {
    Attach(s, i, node, prev, next);
    HoldsInsert(s, items, i, node, node.item.value);
  }

  lemma RemoveThenInsert<T>(s: seq<T>, i: nat)
    requires 0 < i < |s|
    ensures InsertAfter(RemoveAt(s, i), i - 1, s[i]) == s
  {
  }

  /** The search of zlistx_reorder from the start: the first node whose item is not below x, or the
      head.  j is the place before it. */
  method SearchUp<T>(ghost s: seq<Node<T>>, ghost items: seq<T>, head: Node<T>, cmp: (T, T) -> int, x: T)
      returns (next: Node<T>, ghost j: nat)
    requires Ring(s) && Holds(s, items) && s[0] == head
    ensures LowSlot(cmp, items, x, j) && next == s[After(j, |s|)]
  {
    next, j := head.next, 0;
    while next != head
      invariant j < |s| && next == s[After(j, |s|)]
      invariant forall k :: 0 <= k < j ==> cmp(x, items[k]) > 0
      decreases |s| - j
    {
      if cmp(x, next.item.value) <= 0 {
        break;
      }
      next, j := next.next, j + 1;
    }
  }

  /** The search from the end: the last node whose item is not above x, or the head. */
  method SearchDown<T>(ghost s: seq<Node<T>>, ghost items: seq<T>, head: Node<T>, cmp: (T, T) -> int, x: T)
      returns (prev: Node<T>, ghost j: nat)
    requires Ring(s) && Holds(s, items) && s[0] == head
    ensures HighSlot(cmp, items, x, j) && prev == s[j]
  {
    prev, j := head.prev, |s| - 1;
    while prev != head
      invariant j < |s| && prev == s[j]
      invariant forall k :: j <= k < |items| ==> cmp(items[k], x) > 0
      decreases j
    {
      if cmp(prev.item.value, x) <= 0 {
        break;
      }
      prev, j := prev.prev, j - 1;
    }
  }

  /** Search for the slot of a node that is out of the ring, from either end, and put it there. */
  method Place<T>(ghost s: seq<Node<T>>, ghost items: seq<T>, head: Node<T>, cmp: (T, T) -> int, node: Node<T>,
      low: bool) returns (ghost j: nat)
    requires Ring(s) && Holds(s, items) && s[0] == head
    requires node !in s && node.next == node && node.prev == node && node.item.Some?
    modifies s, node
    ensures node.item == old(node.item) && head.item == old(head.item)
    ensures if low then LowSlot(cmp, items, node.item.value, j) else HighSlot(cmp, items, node.item.value, j)
    ensures Ring(InsertAfter(s, j, node))
    ensures Holds(InsertAfter(s, j, node), Insert(items, j, node.item.value))
  {
    if low {
      var next;
      next, j := SearchUp(s, items, head, cmp, node.item.value);
      PutBack(s, items, j, node, next.prev, next);
    } else {
      var prev;
      prev, j := SearchDown(s, items, head, cmp, node.item.value);
      PutBack(s, items, j, node, prev, prev.next);
    }
  }
}
