/** The link surgery of `consolidate_tracked_data` in src/LBeacon.c: the records that the message
    budget admits are cut off the front of a tracked-object list and become a list of their own. */
module TrackedRing {
  import opened LinkedList
  import opened RingMap
  import DeviceSpec

  const MAX_LENGTH_RESP_DEVICE_INFO := 190

  /** What a record with this payload length takes from the budget. */
  function Charge(payloadLength: int): int {
    MAX_LENGTH_RESP_DEVICE_INFO - (DeviceSpec.LENGTH_OF_ADVERTISEMENT - payloadLength)
  }

  /** How many of the records with these payload lengths a budget admits. */
  function Admitted(payloadLengths: seq<int>, budget: int): (n: nat)
    ensures n <= |payloadLengths|
    ensures n == 0 <==> payloadLengths == [] || budget <= MAX_LENGTH_RESP_DEVICE_INFO
    decreases |payloadLengths|
  {
    if payloadLengths == [] || budget <= MAX_LENGTH_RESP_DEVICE_INFO then 0
    else 1 + Admitted(payloadLengths[1..], budget - Charge(payloadLengths[0]))
  }

  /** The entries of a tracked-object list are embedded in records, of which only the payload length
      matters here; `len` tells it from the owner of an entry. */
  function Lengths<T>(s: seq<Entry<T>>, len: T -> int): (l: seq<int>)
    ensures |l| == |s| && forall i :: 0 <= i < |s| ==> l[i] == len(s[i].owner)
  {
    seq(|s|, i requires 0 <= i < |s| => len(s[i].owner))
  }

  /** The entry `k` places behind the head of a list. */
  function At<T>(list: Entry<T>, s: seq<Entry<T>>, k: int): Entry<T>
    requires 0 <= k <= |s|
  {
    if k == 0 then list else s[k - 1]
  }

  /** From `list` the links lead through `s` back to `list`. */
  ghost predicate Leads<T>(list: Entry<T>, s: seq<Entry<T>>)
    reads list, s
  {
    && (forall k :: 0 <= k <= |s| ==> At(list, s, k).next == if k < |s| then s[k] else list)
    && (forall k :: 0 <= k < |s| ==> s[k] != list)
  }

  lemma RingLeads<T>(list: Entry<T>, s: seq<Entry<T>>)
    requires Ring([list] + s)
    ensures Leads(list, s)
  {
    var r := [list] + s;
    forall k | 0 <= k <= |s|
      ensures At(list, s, k).next == if k < |s| then s[k] else list
    {
      assert r[k] == At(list, s, k) && (k < |s| ==> r[k + 1] == s[k]);
    }
    assert forall k :: 0 <= k < |s| ==> s[k] == r[k + 1];
  }

  lemma NextIs<T>(list: Entry<T>, s: seq<Entry<T>>, k: nat)
    requires Leads(list, s) && k <= |s|
    ensures At(list, s, k).next == if k < |s| then s[k] else list
    ensures k > 0 ==> s[k - 1] != list
  {
  }

  /** One more record is admitted, or none. */
  lemma AdmittedFrom(l: seq<int>, k: nat, budget: int)
    requires k < |l|
    ensures Admitted(l[k..], budget) ==
            if budget <= MAX_LENGTH_RESP_DEVICE_INFO then 0 else 1 + Admitted(l[k + 1..], budget - Charge(l[k]))
  {
    assert l[k..][1..] == l[k + 1..];
  }

  lemma AdmittedWhole(l: seq<int>, budget: int)
    ensures Admitted(l[0..], budget) == Admitted(l, budget) && Admitted(l[|l|..], budget) == 0
  {
    assert l[0..] == l;
  }

  /** The traversal that counts the records admitted; `tail` is the last of them, or the first entry
      behind the head if there is none. */
  method CountAdmitted<T>(list: Entry<T>, budget: int, len: T -> int, ghost s: seq<Entry<T>>)
    returns (n: nat, tail: Entry<T>)
    requires Leads(list, s)
    ensures n == Admitted(Lengths(s, len), budget)
    ensures tail == At(list, s, if n == 0 && s != [] then 1 else n)
  {
    ghost var l := Lengths(s, len);
    NextIs(list, s, 0);
    AdmittedWhole(l, budget);
    tail := list.next;
    var remaining := budget;
    n := 0;
    var p := list.next;
    while p != list
      invariant n <= |s|
      invariant p == if n < |s| then s[n] else list
      invariant tail == At(list, s, if n == 0 && s != [] then 1 else n)
      invariant n + Admitted(l[n..], remaining) == Admitted(l, budget)
      decreases |s| - n
    {
      NextIs(list, s, n + 1);
      AdmittedFrom(l, n, remaining);
      if remaining > MAX_LENGTH_RESP_DEVICE_INFO {
        n := n + 1;
        tail := p;
        remaining := remaining - MAX_LENGTH_RESP_DEVICE_INFO + (DeviceSpec.LENGTH_OF_ADVERTISEMENT - len(p.owner));
      } else {
        return;
      }
      p := p.next;
    }
    AdmittedWhole(l, remaining);
  }

  /** Consecutive entries linked both ways. */
  ghost predicate Chain<T>(t: seq<Entry<T>>)
    reads t
  {
    && (forall i, j :: 0 <= i < j < |t| ==> t[i] != t[j])
    && (forall i :: 0 <= i < |t| - 1 ==> t[i].next == t[i + 1])
    && (forall i :: 0 < i < |t| ==> t[i].prev == t[i - 1])
  }

  /** A chain whose ends are linked with `head` on both sides. */
  ghost predicate ClosedChain<T>(head: Entry<T>, t: seq<Entry<T>>)
    reads head, t
  {
    && Chain(t)
    && (forall i :: 0 <= i < |t| ==> t[i] != head)
    && head.next == (if t == [] then head else t[0])
    && head.prev == (if t == [] then head else t[|t| - 1])
    && (t != [] ==> t[0].prev == head && t[|t| - 1].next == head)
  }

  /** A list with a head is a closed chain. */
  lemma ClosedIsRing<T>(head: Entry<T>, t: seq<Entry<T>>)
    requires ClosedChain(head, t)
    ensures Ring([head] + t)
  {
    var r := [head] + t;
    assert forall i :: 0 < i < |r| ==> r[i] == t[i - 1];
  }

  lemma RingIsClosed<T>(head: Entry<T>, t: seq<Entry<T>>)
    requires Ring([head] + t)
    ensures ClosedChain(head, t)
  {
    var r := [head] + t;
    assert forall i :: 0 <= i < |t| ==> t[i] == r[i + 1];
    assert r[0] == head;
    forall i | 0 <= i < |t| - 1
      ensures t[i].next == t[i + 1]
    {
      assert r[i + 1].next == r[i + 2];
    }
    forall i | 0 < i < |t|
      ensures t[i].prev == t[i - 1]
    {
      assert r[i + 1].prev == r[i];
    }
  }

  lemma ChainParts<T>(t: seq<Entry<T>>, k: nat)
    requires Chain(t) && k <= |t|
    ensures Chain(t[..k]) && Chain(t[k..])
    ensures forall i, j :: 0 <= i < k && 0 <= j < |t| - k ==> t[..k][i] != t[k..][j]
  {
  }

  /** The head is linked past the first `k` records. */
  method CutFront<T>(list: Entry<T>, tail: Entry<T>, ghost s: seq<Entry<T>>, ghost k: nat)
    requires ClosedChain(list, s) && k <= |s| && tail == At(list, s, k)
    requires tail.next == if k < |s| then s[k] else list
    modifies list, tail.next
    ensures ClosedChain(list, s[k..])
  {
    ChainParts(s, k);
    list.next := tail.next;
    tail.next.prev := list;
  }

  /** The records cut off become a list under `local`. */
  method Adopt<T>(local: Entry<T>, first: Entry<T>, tail: Entry<T>, ghost t: seq<Entry<T>>)
    requires Chain(t) && t != [] && first == t[0] && tail == t[|t| - 1] && local !in t
    modifies local, first, tail
    ensures ClosedChain(local, t)
  {
    InitEntry(local);
    local.next := first;
    first.prev := local;
    local.prev := tail;
    tail.next := local;
  }

  /** With `n` records admitted the list splits into the first `n`, now under `local`, and the rest,
      both well formed and in order.  With none admitted from a non-empty list the first record is
      unlinked all the same: it is on neither list, and since its links still point into the list it
      does not look isolated. */
  method DetachPrefix<T>(list: Entry<T>, local: Entry<T>, budget: int, len: T -> int, ghost s: seq<Entry<T>>)
    returns (n: nat)
    requires Ring([list] + s) && local !in [list] + s
    modifies list, local, s
    ensures n == Admitted(Lengths(s, len), budget)
    ensures n > 0 ==> Ring([list] + s[n..]) && Ring([local] + s[..n])
    ensures n == 0 ==> Ring([list] + if s == [] then [] else s[1..])
    ensures n == 0 && s != [] ==> s[0].next != s[0] && s[0].next == old(s[0].next)
    ensures n == 0 ==> unchanged(local)
  {
    RingIsClosed(list, s);
    RingLeads(list, s);
    var headPointer := list.next;
    var tailPointer: Entry<T>;
    n, tailPointer := CountAdmitted(list, budget, len, s);
    NextIs(list, s, if n == 0 && s != [] then 1 else n);
    CutAt(list, local, headPointer, tailPointer, n, s);
  }

  /** The detachment itself, once the records have been counted. */
  method CutAt<T>(list: Entry<T>, local: Entry<T>, first: Entry<T>, tail: Entry<T>, n: nat, ghost s: seq<Entry<T>>)
    requires ClosedChain(list, s) && local !in [list] + s && n <= |s| && (n > 0 ==> first == s[0])
    requires var k := if n == 0 && s != [] then 1 else n;
             tail == At(list, s, k) && tail.next == if k < |s| then s[k] else list
    modifies list, local, s
    ensures n > 0 ==> Ring([list] + s[n..]) && Ring([local] + s[..n])
    ensures n == 0 ==> Ring([list] + if s == [] then [] else s[1..])
    ensures n == 0 && s != [] ==> s[0].next != s[0] && s[0].next == old(s[0].next)
    ensures n == 0 ==> unchanged(local)
  {
    ghost var k := if n == 0 && s != [] then 1 else n;
    ChainParts(s, k);
    CutFront(list, tail, s, k);
    if n > 0 {
      Distribute(list, local, first, tail, s, n);
    } else {
      ClosedIsRing(list, s[k..]);
    }
  }

  /** The second half of the detachment, the local list. */
  method Distribute<T>(list: Entry<T>, local: Entry<T>,
                       first: Entry<T>, tail: Entry<T>, ghost s: seq<Entry<T>>, ghost n: nat)
    requires 0 < n <= |s| && Chain(s[..n]) && ClosedChain(list, s[n..])
    requires first == s[0] && tail == s[n - 1]
    requires local != list && local !in s && list !in s
    requires forall i, j :: 0 <= i < j < |s| ==> s[i] != s[j]
    modifies local, first, tail
    ensures Ring([local] + s[..n]) && Ring([list] + s[n..])
  {
    Adopt(local, first, tail, s[..n]);
    ClosedIsRing(local, s[..n]);
    ClosedIsRing(list, s[n..]);
  }

  /** The same among other lists, which are left alone. */
  method DetachFront<T>(list: Entry<T>, local: Entry<T>, budget: int, len: T -> int,
                        ghost m: Circles<T>, ghost s: seq<Entry<T>>)
    returns (n: nat)
    requires Good(m) && list in m && m[list] == [list] + s && local in m && m[local] == [local]
    requires local !in [list] + s
    modifies m.Keys
    ensures n == Admitted(Lengths(s, len), budget)
    ensures n > 0 || s == [] ==> Good(Split(m, list, local, s, n))
    ensures n == 0 && s != [] ==> s[0] in m && m[s[0]] == m[list] && Good(Cut(m, s[0], 1)) && s[0].next != s[0]
  {
    OnCircle(m, list, s);
    assert Ring(m[list]) && Ring(m[local]);
    n := DetachPrefix(list, local, budget, len, s);
    if n > 0 || s == [] {
      SplitGood(m, list, local, s, n);
    } else {
      FrontCutGood(m, list, s);
    }
  }

  twostate lemma FrontCutGood<T>(m: Circles<T>, new list: Entry<T>, new s: seq<Entry<T>>)
    requires old(Good(m)) && list in m && m[list] == [list] + s && s != []
    requires Ring([list] + s[1..]) && forall g <- m :: g !in [list] + s ==> unchanged(g)
    ensures s[0] in m && m[s[0]] == m[list] && Good(Cut(m, s[0], 1))
  {
    OnCircle(m, list, s);
    FirstCut(list, s);
    CutGood(m, s[0], 1);
  }

  lemma OnCircle<T>(m: Circles<T>, list: Entry<T>, s: seq<Entry<T>>)
    requires Closed(m) && list in m && m[list] == [list] + s
    ensures forall e <- [list] + s :: e in m && m[e] == m[list]
    ensures s != [] ==> s[0] in m && m[s[0]] == m[list]
  {
    if s != [] { assert m[list][1] == s[0]; }
  }

  lemma FirstCut<T>(list: Entry<T>, s: seq<Entry<T>>)
    requires s != []
    ensures var c := [list] + s; c[1] == s[0] && c[..1] + c[2..] == [list] + s[1..]
  {
  }
}
