/** The intrusive circular doubly linked list of import/LinkedList.h and import/LinkedList.c.

    A list entry is a heap object whose `next` and `prev` fields are rewritten in place.  The C code
    recovers the structure an entry is embedded in by pointer arithmetic; here each entry carries the
    constant `owner`.  A ring is described by the sequence of its entries in `next` order; a list
    with a head is the ring whose first entry is the head. */
module LinkedList {

  class Entry<T> {
    var next: Entry<T>
    var prev: Entry<T>
    const owner: T

    constructor (owner: T)
      ensures this.owner == owner
      ensures Ring([this])
    {
      this.owner := owner;
      next := this;
      prev := this;
    }
  }

  ghost predicate Disjoint<T>(s: seq<T>, t: seq<T>) {
    forall i, j :: 0 <= i < |s| && 0 <= j < |t| ==> s[i] != t[j]
  }

  /** `s` lists, once each and in `next` order, all entries of one circular list, and every `prev`
      link is the inverse of the corresponding `next` link. */
  ghost predicate Ring<T>(s: seq<Entry<T>>)
    reads s
  {
    && |s| > 0
    && (forall i, j :: 0 <= i < j < |s| ==> s[i] != s[j])
    && (forall i :: 0 <= i < |s| - 1 ==> s[i].next == s[i + 1])
    && (forall i :: 0 < i < |s| ==> s[i].prev == s[i - 1])
    && s[|s| - 1].next == s[0]
    && s[0].prev == s[|s| - 1]
  }

  method InitEntry<T>(entry: Entry<T>)
    modifies entry
    ensures Ring([entry])
  {
    entry.next := entry;
    entry.prev := entry;
  }

  /** Splices `newNode` between `prev` and `next`. */
  method InsertEntryList<T>(newNode: Entry<T>, prev: Entry<T>, next: Entry<T>)
    requires newNode != prev && newNode != next
    modifies newNode, prev, next
    ensures newNode.next == next && newNode.prev == prev
    ensures next.prev == newNode && prev.next == newNode
    ensures prev != next ==> prev.prev == old(prev.prev) && next.next == old(next.next)
  {
    next.prev := newNode;
    newNode.next := next;
    newNode.prev := prev;
    prev.next := newNode;
  }

  method InsertListFirst<T>(newNode: Entry<T>, head: Entry<T>, ghost s: seq<Entry<T>>)
    requires Ring(s) && s[0] == head && newNode !in s
    modifies newNode, s
    ensures Ring([head, newNode] + s[1..])
  {
    assert head.next == if |s| > 1 then s[1] else s[0];
    InsertEntryList(newNode, head, head.next);
  }

  method InsertListTail<T>(newNode: Entry<T>, head: Entry<T>, ghost s: seq<Entry<T>>)
    requires Ring(s) && s[0] == head && newNode !in s
    modifies newNode, s
    ensures Ring(s + [newNode])
  {
    InsertEntryList(newNode, head.prev, head);
  }

  /** A node is isolated exactly when the ring it lies on has no other entry. */
  method IsIsolatedNode<T>(node: Entry<T>, ghost s: seq<Entry<T>>) returns (isolated: bool)
    requires Ring(s) && node in s
    ensures isolated <==> s == [node]
  {
    ghost var k :| 0 <= k < |s| && s[k] == node;
    assert node.next == if k + 1 < |s| then s[k + 1] else s[0];
    isolated := node == node.next;
  }

  /** An empty list is a head that is isolated. */
  method IsEntryListEmpty<T>(head: Entry<T>, ghost s: seq<Entry<T>>) returns (empty: bool)
    requires Ring(s) && s[0] == head
    ensures empty <==> s == [head]
  {
    empty := IsIsolatedNode(head, s);
  }

  method RemoveEntryList<T>(prev: Entry<T>, next: Entry<T>)
    modifies prev, next
    ensures next.prev == prev && prev.next == next
    ensures prev != next ==> prev.prev == old(prev.prev) && next.next == old(next.next)
  {
    next.prev := prev;
    prev.next := next;
  }

  /** The entry that follows the k-th, and the one in front of it. */
  function After(k: nat, n: nat): nat
    requires k < n
  {
    if k + 1 < n then k + 1 else 0
  }

  function Before(k: nat, n: nat): nat
    requires k < n
  {
    if k > 0 then k - 1 else n - 1
  }

  lemma Neighbours<T>(s: seq<Entry<T>>, k: nat)
    requires Ring(s) && k < |s|
    ensures s[k].next == s[After(k, |s|)] && s[k].prev == s[Before(k, |s|)]
  {
  }

  lemma Rest<T>(s: seq<Entry<T>>, k: nat)
    requires k < |s|
    ensures var rest := s[..k] + s[k + 1..];
            |rest| == |s| - 1 && forall i :: 0 <= i < |rest| ==> rest[i] == if i < k then s[i] else s[i + 1]
    ensures k == 0 ==> s[..k] + s[k + 1..] == s[1..]
  {
  }

  /** The neighbours of the k-th entry have been linked with each other, all other links are as before. */
  twostate predicate Bridged<T>(s: seq<Entry<T>>, k: nat)
    requires k < |s|
    reads s
  {
    && s[Before(k, |s|)].next == s[After(k, |s|)] && s[After(k, |s|)].prev == s[Before(k, |s|)]
    && (forall i :: 0 <= i < |s| && i != k && i != Before(k, |s|) ==> s[i].next == old(s[i].next))
    && (forall i :: 0 <= i < |s| && i != k && i != After(k, |s|) ==> s[i].prev == old(s[i].prev))
  }

  /** The `i`-th of the remaining entries and the next one. */
  twostate lemma GapLinks<T>(s: seq<Entry<T>>, new k: nat, new i: nat)
    requires old(Ring(s)) && k < |s| && |s| > 1 && Bridged(s, k) && i + 2 < |s|
    ensures var a, b := s[if i < k then i else i + 1], s[if i + 1 < k then i + 1 else i + 2];
            a.next == b && b.prev == a
  {
  }

  twostate lemma GapClosed<T>(s: seq<Entry<T>>, new k: nat)
    requires old(Ring(s)) && k < |s| && |s| > 1 && Bridged(s, k)
    ensures Ring(s[..k] + s[k + 1..])
  {
    var rest := s[..k] + s[k + 1..];
    Rest(s, k);
    forall i: nat | i < |rest| - 1
      ensures rest[i].next == rest[i + 1] && rest[i + 1].prev == rest[i]
    {
      GapLinks(s, k, i);
    }
    assert rest[0] == s[if k == 0 then 1 else 0];
    assert rest[|rest| - 1] == s[if k == |s| - 1 then |s| - 2 else |s| - 1];
  }

  /** Unlinks the k-th entry: what remains is the same ring without it, and the entry becomes a ring
      of its own. */
  method RemoveListNode<T>(node: Entry<T>, ghost s: seq<Entry<T>>, ghost k: nat)
    requires Ring(s) && k < |s| && s[k] == node
    modifies s
    ensures Ring([node])
    ensures |s| > 1 ==> Ring(s[..k] + s[k + 1..])
    ensures |s| > 1 && k == 0 ==> Ring(s[1..])
  {
    Neighbours(s, k);
    RemoveEntryList(node.prev, node.next);
    node.prev := node;
    node.next := node;
    Rest(s, k);
    if |s| > 1 {
      GapClosed(s, k);
    }
  }

  /** Splices two rings: the entries of the second follow those of the first. */
  method ConcatList<T>(first: Entry<T>, second: Entry<T>, ghost s: seq<Entry<T>>, ghost t: seq<Entry<T>>)
    requires Ring(s) && s[0] == first
    requires Ring(t) && t[0] == second
    requires Disjoint(s, t)
    modifies s, t
    ensures Ring(s + t)
  {
    var firstTail, secondTail := first.prev, second.prev;
    firstTail.next := second;
    first.prev := secondTail;
    secondTail.next := first;
    second.prev := firstTail;
  }

  /** Counts the entries other than the head; the traversal stops because the ring is finite. */
  method GetListLength<T>(head: Entry<T>, ghost s: seq<Entry<T>>) returns (length: nat)
    requires Ring(s) && s[0] == head
    ensures length == |s| - 1
  {
    length := 0;
    var p := head.next;
    while p != head
      invariant length < |s|
      invariant p == if length + 1 < |s| then s[length + 1] else head
      decreases |s| - length
    {
      length := length + 1;
      p := p.next;
    }
  }

  /** A ring is determined by any of its entries: two descriptions that start at the same entry are
      equal. */
  lemma {:induction false} RingUnique<T>(s: seq<Entry<T>>, t: seq<Entry<T>>)
    requires Ring(s) && Ring(t) && s[0] == t[0]
    ensures s == t
  {
    if |s| <= |t| {
      RingAgree(s, t, |s|);
      assert s[|s| - 1] == s[..|s|][|s| - 1] == t[|s| - 1];
    } else {
      RingAgree(s, t, |t|);
    }
  }

  lemma {:induction false} RingAgree<T>(s: seq<Entry<T>>, t: seq<Entry<T>>, n: nat)
    requires Ring(s) && Ring(t) && s[0] == t[0] && 0 < n <= |s| && n <= |t|
    ensures s[..n] == t[..n]
  {
    if n > 1 {
      RingAgree(s, t, n - 1);
      assert s[n - 2] == s[..n - 1][n - 2] == t[..n - 1][n - 2] == t[n - 2];
    }
  }
}
