/** Many circular lists at once.  A map tells for every entry the circle it lies on; the operations of
    `LinkedList` change the circles they are given and no other. */
module RingMap {
  import opened LinkedList

  type Circles<T> = map<Entry<T>, seq<Entry<T>>>

  /** Every entry lies on its circle, and the entries of a circle agree about it. */
  ghost predicate Closed<T>(m: Circles<T>) {
    forall e <- m :: e in m[e] && forall f <- m[e] :: f in m && m[f] == m[e]
  }

  ghost predicate Good<T>(m: Circles<T>)
    reads m.Keys
  {
    Closed(m) && forall e <- m :: Ring(m[e])
  }

  /** The entries of `s` lie on the circle `s`. */
  ghost function Assign<T>(m: Circles<T>, s: seq<Entry<T>>): (r: Circles<T>)
    ensures r.Keys == m.Keys && forall e <- m :: r[e] == if e in s then s else m[e]
  {
    map e | e in m :: if e in s then s else m[e]
  }

  /** `changed` is made up of whole circles. */
  ghost predicate Whole<T>(m: Circles<T>, changed: seq<Entry<T>>) {
    forall e <- changed :: e in m && forall f <- m[e] :: f in changed
  }

  /** The entries of `changed` are arranged anew among themselves. */
  ghost predicate Rearranged<T>(m: Circles<T>, r: Circles<T>, changed: seq<Entry<T>>) {
    && r.Keys == m.Keys
    && (forall f <- m :: f !in changed ==> r[f] == m[f])
    && (forall f <- changed :: f in r && f in r[f] && forall g <- r[f] :: g in changed && g in r && r[g] == r[f])
  }

  lemma RearrangedClosed<T>(m: Circles<T>, r: Circles<T>, changed: seq<Entry<T>>)
    requires Closed(m) && Whole(m, changed) && Rearranged(m, r, changed)
    ensures Closed(r)
  {
    forall f <- m | f !in changed
      ensures forall g <- m[f] :: g !in changed
    {
    }
  }

  /** A circle none of whose entries has changed. */
  twostate lemma Kept<T>(s: seq<Entry<T>>)
    requires old(Ring(s)) && forall g <- s :: unchanged(g)
    ensures Ring(s)
  {
    assert forall i :: 0 <= i < |s| ==> s[i] in s;
  }

  twostate lemma OthersKept<T>(m: Circles<T>, new changed: seq<Entry<T>>)
    requires old(Good(m)) && Whole(m, changed)
    requires forall g <- m :: g !in changed ==> unchanged(g)
    ensures forall f <- m :: f !in changed ==> Ring(m[f])
  {
    forall f <- m | f !in changed
      ensures Ring(m[f])
    {
      forall g <- m[f]
        ensures unchanged(g)
      {
        assert g !in changed;
      }
      Kept(m[f]);
    }
  }

  /** After the change every entry lies on a circle again. */
  twostate lemma RearrangedGood<T>(m: Circles<T>, new r: Circles<T>, new changed: seq<Entry<T>>)
    requires old(Good(m)) && Whole(m, changed) && Rearranged(m, r, changed)
    requires forall g <- m :: g !in changed ==> unchanged(g)
    requires forall f <- changed :: Ring(r[f])
    ensures Good(r)
  {
    OthersKept(m, changed);
    RearrangedClosed(m, r, changed);
  }

  /** The circles once `e`, the `k`-th entry of its circle, has been taken out of it. */
  ghost function Removed<T>(m: Circles<T>, e: Entry<T>, k: nat): Circles<T>
    requires e in m && 0 < k < |m[e]|
  {
    Assign(m, m[e][..k] + m[e][k + 1..])[e := [e]]
  }

  lemma RemovedMembers<T>(s: seq<Entry<T>>, e: Entry<T>, k: nat)
    requires k < |s| && s[k] == e && forall i, j :: 0 <= i < j < |s| ==> s[i] != s[j]
    ensures e !in s[..k] + s[k + 1..]
    ensures forall f :: f in s <==> f in s[..k] + s[k + 1..] || f == e
  {
    var rest := s[..k] + s[k + 1..];
    assert s == s[..k] + [e] + s[k + 1..];
    assert forall i :: 0 <= i < |rest| ==> rest[i] == (if i < k then s[i] else s[i + 1]);
  }

  /** The entries of `changed` now lie on two circles, `a` and `b`. */
  ghost predicate Parted<T>(m: Circles<T>, r: Circles<T>, changed: seq<Entry<T>>, a: seq<Entry<T>>, b: seq<Entry<T>>) {
    && r.Keys == m.Keys
    && (forall f <- changed :: f in m && (f in a || f in b))
    && (forall f <- m :: f !in changed ==> r[f] == m[f])
    && (forall f <- a :: f in m && f in changed && f !in b && r[f] == a)
    && (forall f <- b :: f in m && f in changed && r[f] == b)
  }

  lemma PartedRearranged<T>(m: Circles<T>, r: Circles<T>, changed: seq<Entry<T>>, a: seq<Entry<T>>, b: seq<Entry<T>>)
    requires Parted(m, r, changed, a, b)
    ensures Rearranged(m, r, changed) && forall f <- changed :: r[f] == if f in b then b else a
  {
  }

  /** A whole circle is changed. */
  lemma CircleWhole<T>(m: Circles<T>, e: Entry<T>)
    requires Closed(m) && e in m
    ensures Whole(m, m[e])
  {
  }

  /** `e` leaves its circle, of which `rest` remains. */
  lemma LeavingParted<T>(m: Circles<T>, e: Entry<T>, rest: seq<Entry<T>>)
    requires Closed(m) && e in m && e !in rest && forall f :: f in m[e] <==> f in rest || f == e
    ensures Parted(m, Assign(m, rest)[e := [e]], m[e], rest, [e])
  {
    assert forall f <- [e] :: f == e;
  }

  lemma RemovedParted<T>(m: Circles<T>, e: Entry<T>, k: nat)
    requires Closed(m) && e in m && 0 < k < |m[e]| && m[e][k] == e
    requires forall i, j :: 0 <= i < j < |m[e]| ==> m[e][i] != m[e][j]
    ensures Parted(m, Removed(m, e, k), m[e], m[e][..k] + m[e][k + 1..], [e])
  {
    RemovedMembers(m[e], e, k);
    LeavingParted(m, e, m[e][..k] + m[e][k + 1..]);
  }

  lemma RemovedRearranged<T>(m: Circles<T>, e: Entry<T>, k: nat)
    requires Closed(m) && e in m && 0 < k < |m[e]| && m[e][k] == e
    requires forall i, j :: 0 <= i < j < |m[e]| ==> m[e][i] != m[e][j]
    ensures var s, r := m[e], Removed(m, e, k);
            Whole(m, s) && Rearranged(m, r, s) && forall f <- s :: r[f] == if f == e then [e] else s[..k] + s[k + 1..]
  {
    CircleWhole(m, e);
    RemovedParted(m, e, k);
    PartedRearranged(m, Removed(m, e, k), m[e], m[e][..k] + m[e][k + 1..], [e]);
  }

  lemma RemovedRings<T>(m: Circles<T>, e: Entry<T>, k: nat)
    requires Closed(m) && e in m && 0 < k < |m[e]| && m[e][k] == e
    requires forall i, j :: 0 <= i < j < |m[e]| ==> m[e][i] != m[e][j]
    requires Ring(m[e][..k] + m[e][k + 1..]) && Ring([e])
    ensures forall f <- m[e] :: f in m && Ring(Removed(m, e, k)[f])
  {
    RemovedRearranged(m, e, k);
  }

  twostate lemma RemovedGood<T>(m: Circles<T>, new e: Entry<T>, new k: nat)
    requires old(Good(m)) && e in m && 0 < k < |m[e]| && m[e][k] == e
    requires Ring(m[e][..k] + m[e][k + 1..]) && Ring([e])
    requires forall g <- m :: g !in m[e] ==> unchanged(g)
    ensures Good(Removed(m, e, k))
  {
    assert old(Ring(m[e]));
    RemovedRings(m, e, k);
    RemovedRearranged(m, e, k);
    RearrangedGood(m, Removed(m, e, k), m[e]);
  }

  method Remove<T>(e: Entry<T>, ghost m: Circles<T>, ghost k: nat)
    requires Good(m) && e in m && 0 < k < |m[e]| && m[e][k] == e
    modifies m.Keys
    ensures Good(Removed(m, e, k)) && forall g <- m :: g !in m[e] ==> unchanged(g)
  {
    CircleWhole(m, e);
    RemoveListNode(e, m[e], k);
    RemovedGood(m, e, k);
  }

  lemma InsertedRearranged<T>(m: Circles<T>, e: Entry<T>, s: seq<Entry<T>>, t: seq<Entry<T>>)
    requires Closed(m) && e in m && m[e] == [e] && s != [] && s[0] in m && m[s[0]] == s
    requires forall f :: f in t <==> f in s || f == e
    ensures Whole(m, s + [e]) && Rearranged(m, Assign(m, t), s + [e])
    ensures forall f <- s + [e] :: f in m && Assign(m, t)[f] == t
  {
    assert forall f :: f in s + [e] <==> f in t;
    assert forall f <- s :: f in m && m[f] == s by { assert s[0] in m; }
  }

  /** An isolated entry has joined the circle of `head`, which is now `t`. */
  twostate lemma InsertedGood<T>(m: Circles<T>, new e: Entry<T>, new head: Entry<T>, new t: seq<Entry<T>>)
    requires old(Good(m)) && e in m && head in m && m[e] == [e] && m[head][0] == head
    requires Ring(t) && forall f :: f in t <==> f in m[head] || f == e
    requires forall g <- m :: g !in m[head] && g != e ==> unchanged(g)
    ensures Good(Assign(m, t))
  {
    var s := m[head];
    assert s != [] by { assert head in s; }
    InsertedRearranged(m, e, s, t);
    RearrangedGood(m, Assign(m, t), s + [e]);
  }

  lemma NotOnCircle<T>(m: Circles<T>, e: Entry<T>, head: Entry<T>)
    requires Closed(m) && e in m && head in m && m[e] == [e] && e != head
    ensures e !in m[head]
  {
  }

  method InsertTail<T>(e: Entry<T>, head: Entry<T>, ghost m: Circles<T>)
    requires Good(m) && e in m && head in m && m[e] == [e] && m[head][0] == head && e != head
    modifies m.Keys
    ensures Good(Assign(m, m[head] + [e])) && forall g <- m :: g !in m[head] && g != e ==> unchanged(g)
  {
    CircleWhole(m, head);
    NotOnCircle(m, e, head);
    InsertListTail(e, head, m[head]);
    InsertedGood(m, e, head, m[head] + [e]);
  }

  lemma FrontInserted<T>(s: seq<Entry<T>>, e: Entry<T>, head: Entry<T>)
    requires s != [] && s[0] == head
    ensures forall f :: f in [head, e] + s[1..] <==> f in s || f == e
  {
    assert s == [s[0]] + s[1..];
  }

  method InsertFirst<T>(e: Entry<T>, head: Entry<T>, ghost m: Circles<T>)
    requires Good(m) && e in m && head in m && m[e] == [e] && m[head][0] == head && e != head
    modifies m.Keys
    ensures Good(Assign(m, [head, e] + m[head][1..])) && forall g <- m :: g !in m[head] && g != e ==> unchanged(g)
  {
    CircleWhole(m, head);
    NotOnCircle(m, e, head);
    FrontInserted(m[head], e, head);
    InsertListFirst(e, head, m[head]);
    InsertedGood(m, e, head, [head, e] + m[head][1..]);
  }

  /** A new entry, isolated. */
  lemma AddedGood<T>(m: Circles<T>, e: Entry<T>)
    requires Good(m) && e !in m && Ring([e])
    ensures Good(m[e := [e]])
  {
  }

  /** Isolated entries can be left out of account. */
  lemma DroppedGood<T>(m: Circles<T>, gone: set<Entry<T>>)
    requires Good(m) && forall e <- gone :: e in m && m[e] == [e]
    ensures Good(m - gone)
  {
  }

  /** The first `n` entries behind `list` now lie behind `local`. */
  ghost function Split<T>(m: Circles<T>, list: Entry<T>, local: Entry<T>, s: seq<Entry<T>>, n: nat): Circles<T>
    requires n <= |s|
  {
    Assign(Assign(m, [list] + s[n..]), [local] + s[..n])
  }

  lemma SplitParted<T>(m: Circles<T>, list: Entry<T>, local: Entry<T>, s: seq<Entry<T>>, n: nat)
    requires Closed(m) && n <= |s| && list in m && local in m && m[list] == [list] + s && m[local] == [local]
    requires list != local && forall i, j :: 0 <= i < j < |m[list]| ==> m[list][i] != m[list][j]
    ensures Parted(m, Split(m, list, local, s, n), [list] + s + [local], [list] + s[n..], [local] + s[..n])
  {
    SplitApart(m, list, local, s, n);
    SplitMembers(list, local, s, n);
    assert forall f <- m[list] :: f in m;
  }

  lemma SplitMembers<T>(list: Entry<T>, local: Entry<T>, s: seq<Entry<T>>, n: nat)
    requires n <= |s|
    ensures forall f :: f in [list] + s + [local] <==> f in [list] + s[n..] || f in [local] + s[..n]
    ensures forall f :: f in [list] + s + [local] <==> f in [list] + s || f == local
  {
    assert s == s[..n] + s[n..];
  }

  lemma SplitRearranged<T>(m: Circles<T>, list: Entry<T>, local: Entry<T>, s: seq<Entry<T>>, n: nat)
    requires Closed(m) && n <= |s| && list in m && local in m && m[list] == [list] + s && m[local] == [local]
    requires list != local && forall i, j :: 0 <= i < j < |m[list]| ==> m[list][i] != m[list][j]
    ensures var r, all := Split(m, list, local, s, n), [list] + s + [local];
            && Whole(m, all) && Rearranged(m, r, all)
            && forall f <- all :: r[f] == if f in [local] + s[..n] then [local] + s[..n] else [list] + s[n..]
  {
    var all := [list] + s + [local];
    SplitParted(m, list, local, s, n);
    PartedRearranged(m, Split(m, list, local, s, n), all, [list] + s[n..], [local] + s[..n]);
    SplitMembers(list, local, s, n);
    CircleWhole(m, list);
    assert forall f <- all :: f in m[list] || f == local;
  }

  lemma SplitApart<T>(m: Circles<T>, list: Entry<T>, local: Entry<T>, s: seq<Entry<T>>, n: nat)
    requires Closed(m) && n <= |s| && list in m && local in m && m[list] == [list] + s && m[local] == [local]
    requires list != local && forall i, j :: 0 <= i < j < |m[list]| ==> m[list][i] != m[list][j]
    ensures local !in [list] + s
    ensures forall f <- [list] + s[n..] :: f !in [local] + s[..n]
  {
    var c := [list] + s;
    assert local !in c;
    assert forall i :: 0 <= i < |s| ==> c[i + 1] == s[i];
    assert forall i, j :: 0 <= i < n && 0 <= j < |s| - n ==> s[..n][i] != s[n..][j] by {
      assert forall i, j :: 0 <= i < n <= j < |s| ==> s[i] == c[i + 1] && s[j] == c[j + 1];
    }
    assert forall i :: 0 <= i < |s| ==> s[i] != list by { assert c[0] == list; }
  }

  lemma SplitRings<T>(m: Circles<T>, list: Entry<T>, local: Entry<T>, s: seq<Entry<T>>, n: nat)
    requires Closed(m) && n <= |s| && list in m && local in m && m[list] == [list] + s && m[local] == [local]
    requires list != local && forall i, j :: 0 <= i < j < |m[list]| ==> m[list][i] != m[list][j]
    requires Ring([list] + s[n..]) && Ring([local] + s[..n])
    ensures forall f <- [list] + s + [local] :: f in m && Ring(Split(m, list, local, s, n)[f])
  {
    SplitRearranged(m, list, local, s, n);
  }

  twostate lemma SplitGood<T>(m: Circles<T>, new list: Entry<T>, new local: Entry<T>, new s: seq<Entry<T>>, new n: nat)
    requires old(Good(m)) && n <= |s| && list in m && local in m && m[list] == [list] + s && m[local] == [local]
    requires list != local && Ring([list] + s[n..]) && Ring([local] + s[..n])
    requires forall g <- m :: g !in m[list] && g != local ==> unchanged(g)
    ensures Good(Split(m, list, local, s, n))
  {
    var all := [list] + s + [local];
    assert forall f :: f in all <==> f in m[list] || f == local;
    assert old(Ring(m[list]));
    SplitRings(m, list, local, s, n);
    SplitRearranged(m, list, local, s, n);
    RearrangedGood(m, Split(m, list, local, s, n), all);
  }

  /** The circles without `e`, which has left its own without becoming isolated. */
  ghost function Cut<T>(m: Circles<T>, e: Entry<T>, k: nat): Circles<T>
    requires e in m && 0 < k < |m[e]|
  {
    Removed(m, e, k) - {e}
  }

  lemma CutClosed<T>(m: Circles<T>, e: Entry<T>, k: nat)
    requires Closed(m) && e in m && 0 < k < |m[e]| && m[e][k] == e
    requires forall i, j :: 0 <= i < j < |m[e]| ==> m[e][i] != m[e][j]
    ensures var r := Cut(m, e, k);
            Closed(r) && forall f <- r :: if f in m[e] then r[f] == m[e][..k] + m[e][k + 1..] else r[f] == m[f]
  {
    RemovedRearranged(m, e, k);
    var all := Removed(m, e, k);
    RearrangedClosed(m, all, m[e]);
    WithoutOne(all, e);
  }

  /** Closed circles remain closed without an entry that is alone on its circle. */
  lemma WithoutOne<T>(m: Circles<T>, e: Entry<T>)
    requires Closed(m) && e in m && m[e] == [e]
    ensures Closed(m - {e})
  {
    forall f <- m | f != e
      ensures e !in m[f]
    {
    }
  }

  twostate lemma CutGood<T>(m: Circles<T>, new e: Entry<T>, new k: nat)
    requires old(Good(m)) && e in m && 0 < k < |m[e]| && m[e][k] == e
    requires Ring(m[e][..k] + m[e][k + 1..])
    requires forall g <- m :: g !in m[e] ==> unchanged(g)
    ensures Good(Cut(m, e, k))
  {
    assert old(Ring(m[e]));
    CutClosed(m, e, k);
    OthersKept(m, m[e]);
  }

  /** An entry is isolated exactly when its circle holds nothing else. */
  method IsIsolated<T>(e: Entry<T>, ghost m: Circles<T>) returns (isolated: bool)
    requires Good(m) && e in m
    ensures isolated <==> m[e] == [e]
  {
    isolated := IsIsolatedNode(e, m[e]);
  }
}
