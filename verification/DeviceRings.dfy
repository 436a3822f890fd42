/** The device lists of src/LBeacon.c on the heap.  A device record has two list entries: with one it
    is linked into the scanned list, with the other into the BR/EDR list, the BLE list or, while it is
    being uploaded, a local list.  Whether a record is on a list is told by its entry being isolated. */
module DeviceRings {
  import opened LinkedList
  import opened RingMap
  import opened DeviceSpec
  import opened DeviceProofs
  import TrackedRing

  datatype Which = Scanned | Br | BleList | Local

  /** The structure an entry is embedded in: a list head, or a record, with either of its entries. */
  datatype Owner = ListHead(which: Which) | Sc(slot: Slot) | Tr(slot: Slot)

  type Link = Entry<Owner>

  /** The two list entries of a record. */
  class Node {
    const sc: Link
    const tr: Link

    constructor (x: Slot)
      ensures fresh(sc) && fresh(tr) && sc.owner == Sc(x) && tr.owner == Tr(x)
      ensures Ring([sc]) && Ring([tr])
    {
      sc := new Entry(Sc(x));
      tr := new Entry(Tr(x));
    }
  }

  /** The records on each list, in order. */
  datatype Members = Members(scanned: seq<Slot>, br: seq<Slot>, ble: seq<Slot>, local: seq<Slot>)

  function On(m: Members, w: Which): seq<Slot> {
    match w
    case Scanned => m.scanned
    case Br => m.br
    case BleList => m.ble
    case Local => m.local
  }

  function With(m: Members, w: Which, s: seq<Slot>): (r: Members)
    ensures forall v :: On(r, v) == if v == w then s else On(m, v)
  {
    match w
    case Scanned => m.(scanned := s)
    case Br => m.(br := s)
    case BleList => m.(ble := s)
    case Local => m.(local := s)
  }

  function LinkOf(nodes: map<Slot, Node>, w: Which, x: Slot): Link
    requires x in nodes
  {
    if w == Scanned then nodes[x].sc else nodes[x].tr
  }

  function OwnerOn(w: Which, x: Slot): Owner { if w == Scanned then Sc(x) else Tr(x) }

  /** On some list that uses the same entry as list `w`. */
  predicate Linked(m: Members, w: Which, x: Slot) {
    if w == Scanned then x in m.scanned else x in m.br || x in m.ble || x in m.local
  }

  /** The owners of the entries on list `w`, its head included. */
  predicate Belongs(o: Owner, w: Which, s: seq<Slot>) {
    match o
    case ListHead(v) => v == w
    case Sc(x) => w == Scanned && x in s
    case Tr(x) => w != Scanned && x in s
  }

  ghost function Links(nodes: map<Slot, Node>, w: Which, s: seq<Slot>): (r: seq<Link>)
    requires forall x <- s :: x in nodes
    ensures |r| == |s| && forall i :: 0 <= i < |s| ==> r[i] == LinkOf(nodes, w, s[i])
  {
    seq(|s|, i requires 0 <= i < |s| => LinkOf(nodes, w, s[i]))
  }

  datatype Heads = Heads(scanned: Link, br: Link, ble: Link, local: Link)

  function HeadOf(h: Heads, w: Which): Link {
    match w
    case Scanned => h.scanned
    case Br => h.br
    case BleList => h.ble
    case Local => h.local
  }

  /** Which entries there are and what is on the lists; `lost` are records on no list although their
      second entry is not isolated. */
  datatype Shape = Shape(heads: Heads, nodes: map<Slot, Node>, at: Members, lost: set<Slot>)

  /** The entries tell their owners. */
  ghost predicate Owners(s: Shape) {
    && (forall w: Which :: HeadOf(s.heads, w).owner == ListHead(w))
    && (forall x :: x in s.nodes ==> s.nodes[x].sc.owner == Sc(x) && s.nodes[x].tr.owner == Tr(x))
  }

  /** The lists hold records in use, none twice, and none on two lists with the same entry. */
  ghost predicate Placed(s: Shape) {
    && (forall w: Which :: NoDup(On(s.at, w)) && forall x <- On(s.at, w) :: x in s.nodes)
    && (forall x <- s.at.br :: x !in s.at.ble && x !in s.at.local)
    && (forall x <- s.at.ble :: x !in s.at.local)
    && (forall x <- s.lost :: x in s.nodes && !Linked(s.at, Br, x))
  }

  ghost predicate Shaped(s: Shape) { Owners(s) && Placed(s) }

  ghost function RingOf(s: Shape, w: Which): seq<Link>
    requires Placed(s)
  {
    [HeadOf(s.heads, w)] + Links(s.nodes, w, On(s.at, w))
  }

  /** The entry with this owner. */
  predicate IsEntry(s: Shape, e: Link) {
    match e.owner
    case ListHead(w) => e == HeadOf(s.heads, w)
    case Sc(x) => x in s.nodes && e == s.nodes[x].sc
    case Tr(x) => x in s.nodes && e == s.nodes[x].tr
  }

  predicate Known(s: Shape, o: Owner) {
    match o
    case ListHead(w) => true
    case Sc(x) => x in s.nodes
    case Tr(x) => x in s.nodes
  }

  /** The circle an entry should be on: that of the list into which it links its record, or one of its
      own. */
  ghost function Expected(s: Shape, o: Owner): seq<Link>
    requires Placed(s) && Known(s, o)
  {
    match o
    case ListHead(w) => RingOf(s, w)
    case Sc(x) => if x in s.at.scanned then RingOf(s, Scanned) else [s.nodes[x].sc]
    case Tr(x) =>
      if x in s.at.br then RingOf(s, Br)
      else if x in s.at.ble then RingOf(s, BleList)
      else if x in s.at.local then RingOf(s, Local)
      else [s.nodes[x].tr]
  }

  /** Every entry is on its circle; only the second entry of a lost record is not accounted for. */
  ghost predicate Arranged(s: Shape, m: Circles<Owner>)
    requires Placed(s)
  {
    Covered(s.heads, s.nodes, s.lost, m.Keys) && forall e <- m :: Right(s, m, e)
  }

  ghost predicate Covered(heads: Heads, nodes: map<Slot, Node>, lost: set<Slot>, entries: set<Link>) {
    && (forall w: Which :: HeadOf(heads, w) in entries)
    && (forall x :: x in nodes ==> nodes[x].sc in entries && (nodes[x].tr in entries <==> x !in lost))
  }

  ghost predicate Right(s: Shape, m: Circles<Owner>, e: Link)
    requires Placed(s) && e in m
  {
    IsEntry(s, e) && m[e] == Expected(s, e.owner)
  }

  lemma InRingBelongs(s: Shape, w: Which, e: Link)
    requires Shaped(s) && e in RingOf(s, w)
    ensures Belongs(e.owner, w, On(s.at, w))
  {
    var r, ids := RingOf(s, w), On(s.at, w);
    var i :| 0 <= i < |r| && r[i] == e;
    if i > 0 {
      assert r[i] == LinkOf(s.nodes, w, ids[i - 1]) && ids[i - 1] in ids;
    } else {
      assert e == HeadOf(s.heads, w);
    }
  }

  lemma BelongsInRing(s: Shape, w: Which, e: Link)
    requires Shaped(s) && IsEntry(s, e) && Belongs(e.owner, w, On(s.at, w))
    ensures e in RingOf(s, w)
  {
    var r, ids := RingOf(s, w), On(s.at, w);
    if e.owner.ListHead? {
      assert r[0] == e;
    } else {
      var i :| 0 <= i < |ids| && ids[i] == e.owner.slot;
      assert r[i + 1] == LinkOf(s.nodes, w, ids[i]);
    }
  }

  lemma InRing(s: Shape, w: Which, e: Link)
    requires Shaped(s) && IsEntry(s, e)
    ensures e in RingOf(s, w) <==> Belongs(e.owner, w, On(s.at, w))
  {
    if e in RingOf(s, w) {
      InRingBelongs(s, w, e);
    }
    if Belongs(e.owner, w, On(s.at, w)) {
      BelongsInRing(s, w, e);
    }
  }

  /** The entry by which a record is on a list lies on the circle of that list. */
  lemma OnRing(s: Shape, m: Circles<Owner>, w: Which, i: nat)
    requires Shaped(s) && Arranged(s, m) && i < |On(s.at, w)|
    ensures var e := LinkOf(s.nodes, w, On(s.at, w)[i]);
            e in m && m[e] == RingOf(s, w) && RingOf(s, w)[i + 1] == e
  {
    var x := On(s.at, w)[i];
    assert x in On(s.at, w);
    LostElsewhere(s, w);
    assert Right(s, m, LinkOf(s.nodes, w, x));
    BehindHeadAt(s, w, i);
  }

  lemma BehindHeadAt(s: Shape, w: Which, i: nat)
    requires Placed(s) && i < |On(s.at, w)|
    ensures RingOf(s, w)[i + 1] == LinkOf(s.nodes, w, On(s.at, w)[i])
  {
  }

  /** An entry is isolated if and only if it links its record into no list. */
  lemma IsolatedExactly(s: Shape, m: Circles<Owner>, w: Which, x: Slot)
    requires Shaped(s) && Arranged(s, m) && x in s.nodes && (w == Scanned || x !in s.lost)
    ensures var e := LinkOf(s.nodes, w, x);
            e in m && (m[e] == [e] <==> !Linked(s.at, w, x))
  {
    if Linked(s.at, w, x) {
      var v := if w == Scanned then Scanned else if x in s.at.br then Br else if x in s.at.ble then BleList else Local;
      var i :| 0 <= i < |On(s.at, v)| && On(s.at, v)[i] == x;
      OnRing(s, m, v, i);
    }
  }

  /** What may be put on list `w`: records that are on it or on no other list with the same entry. */
  ghost predicate Allowed(s: Shape, w: Which, t: seq<Slot>) {
    && NoDup(t)
    && forall x <- t :: x in s.nodes && (x in On(s.at, w) || !Linked(s.at, w, x)) && (w == Scanned || x !in s.lost)
  }

  /** List `w` holds the records `t` instead. */
  lemma SetPlaced(s: Shape, w: Which, t: seq<Slot>)
    requires Placed(s) && Allowed(s, w, t)
    ensures var r := s.(at := With(s.at, w, t));
            Placed(r) && (forall v: Which :: v != w ==> RingOf(r, v) == RingOf(s, v))
            && RingOf(r, w) == [HeadOf(s.heads, w)] + Links(s.nodes, w, t)
  {
  }

  /** The circles change for the records that are or were on the list only. */
  lemma SetExpected(s: Shape, w: Which, t: seq<Slot>, o: Owner)
    requires Placed(s) && Allowed(s, w, t) && Known(s, o)
    ensures var r := s.(at := With(s.at, w, t));
            && Placed(r)
            && Expected(r, o) == if Belongs(o, w, t) then RingOf(r, w)
                                 else if Belongs(o, w, On(s.at, w)) then [LinkOf(s.nodes, w, o.slot)]
                                 else Expected(s, o)
  {
    SetPlaced(s, w, t);
    match o
    case ListHead(v) =>
    case Sc(x) =>
    case Tr(x) =>
  }

  /** A slot that is not in use is on no list. */
  lemma NotPlaced(s: Shape, x: Slot)
    requires Placed(s) && x !in s.nodes
    ensures forall w: Which :: x !in On(s.at, w)
    ensures !Linked(s.at, Scanned, x) && !Linked(s.at, Br, x) && x !in s.lost
  {
    assert x !in On(s.at, Scanned) && x !in On(s.at, Br) && x !in On(s.at, BleList) && x !in On(s.at, Local);
  }

  lemma AddExpected(s: Shape, x: Slot, node: Node, f: Link)
    requires Shaped(s) && x !in s.nodes && IsEntry(s, f)
    ensures var r := s.(nodes := s.nodes[x := node]);
            Placed(r) && IsEntry(r, f) && Expected(r, f.owner) == Expected(s, f.owner)
  {
    var r := s.(nodes := s.nodes[x := node]);
    NotPlaced(s, x);
    assert forall w: Which :: RingOf(r, w) == RingOf(s, w);
  }

  lemma AddShaped(s: Shape, x: Slot, node: Node)
    requires Shaped(s) && x !in s.nodes && node.sc.owner == Sc(x) && node.tr.owner == Tr(x)
    ensures var r := s.(nodes := s.nodes[x := node]);
            Shaped(r) && Expected(r, Sc(x)) == [node.sc] && Expected(r, Tr(x)) == [node.tr]
  {
    NotPlaced(s, x);
  }

  lemma AddArranged(s: Shape, m: Circles<Owner>, x: Slot, node: Node)
    requires Shaped(s) && Arranged(s, m) && x !in s.nodes && node.sc !in m && node.tr !in m
    requires node.sc.owner == Sc(x) && node.tr.owner == Tr(x)
    ensures var r := s.(nodes := s.nodes[x := node]);
            Shaped(r) && Arranged(r, m[node.sc := [node.sc]][node.tr := [node.tr]])
  {
    var r, n := s.(nodes := s.nodes[x := node]), m[node.sc := [node.sc]][node.tr := [node.tr]];
    AddShaped(s, x, node);
    NotPlaced(s, x);
    assert Covered(s.heads, s.nodes, s.lost, m.Keys);
    assert Covered(r.heads, r.nodes, r.lost, n.Keys);
    forall e <- n
      ensures Right(r, n, e)
    {
      if e != node.sc && e != node.tr {
        assert e in m && Right(s, m, e) && n[e] == m[e];
        AddExpected(s, x, node, e);
      }
    }
  }

  lemma FreeExpected(s: Shape, x: Slot, f: Link)
    requires Shaped(s) && x in s.nodes && !Linked(s.at, Scanned, x) && !Linked(s.at, Br, x) && x !in s.lost
    requires IsEntry(s, f) && f != s.nodes[x].sc && f != s.nodes[x].tr
    ensures var r := s.(nodes := s.nodes - {x});
            Placed(r) && IsEntry(r, f) && Expected(r, f.owner) == Expected(s, f.owner)
  {
    var r := s.(nodes := s.nodes - {x});
    assert x !in On(s.at, Scanned) && x !in On(s.at, Br) && x !in On(s.at, BleList) && x !in On(s.at, Local);
    assert forall w: Which :: x !in On(s.at, w);
    assert forall w: Which :: RingOf(r, w) == RingOf(s, w);
  }

  lemma FreeArranged(s: Shape, m: Circles<Owner>, x: Slot)
    requires Shaped(s) && Arranged(s, m) && x in s.nodes
    requires !Linked(s.at, Scanned, x) && !Linked(s.at, Br, x) && x !in s.lost
    ensures var r := s.(nodes := s.nodes - {x});
            Shaped(r) && Arranged(r, m - {s.nodes[x].sc, s.nodes[x].tr})
  {
    var r, n := s.(nodes := s.nodes - {x}), m - {s.nodes[x].sc, s.nodes[x].tr};
    FreeExpected(s, x, HeadOf(s.heads, Scanned));
    forall e <- n
      ensures Right(r, n, e)
    {
      assert Right(s, m, e);
      FreeExpected(s, x, e);
    }
  }

  /** Record `x` leaves list `w`, which becomes `t`. */
  lemma ShrinkArranged(s: Shape, m: Circles<Owner>, w: Which, x: Slot, t: seq<Slot>)
    requires Shaped(s) && Arranged(s, m) && x in On(s.at, w)
    requires NoDup(t) && forall y :: y in t <==> y in On(s.at, w) && y != x
    ensures var r, e := s.(at := With(s.at, w, t)), LinkOf(s.nodes, w, x);
            Shaped(r) && Arranged(r, Assign(m, RingOf(r, w))[e := [e]])
  {
    var r, e := s.(at := With(s.at, w, t)), LinkOf(s.nodes, w, x);
    LostElsewhere(s, w);
    SetPlaced(s, w, t);
    assert e in m;
    var n := Assign(m, RingOf(r, w))[e := [e]];
    assert n.Keys == m.Keys;
    forall f <- n
      ensures Right(r, n, f)
    {
      assert Right(s, m, f);
      ShrunkExpected(s, w, x, t, f);
    }
  }

  lemma ShrunkExpected(s: Shape, w: Which, x: Slot, t: seq<Slot>, f: Link)
    requires Shaped(s) && x in On(s.at, w) && Allowed(s, w, t) && IsEntry(s, f)
    requires forall y :: y in t <==> y in On(s.at, w) && y != x
    ensures var r, e := s.(at := With(s.at, w, t)), LinkOf(s.nodes, w, x);
            && Placed(r)
            && Expected(r, f.owner) == if f == e then [e]
                                       else if f in RingOf(r, w) then RingOf(r, w) else Expected(s, f.owner)
  {
    SetPlaced(s, w, t);
    SetExpected(s, w, t, f.owner);
    InRing(s.(at := With(s.at, w, t)), w, f);
  }

  lemma UnlinkArranged(s: Shape, m: Circles<Owner>, w: Which, i: nat)
    requires Shaped(s) && Arranged(s, m) && i < |On(s.at, w)|
    ensures var x, e := On(s.at, w)[i], LinkOf(s.nodes, w, On(s.at, w)[i]);
            var r := s.(at := With(s.at, w, Without(On(s.at, w), x)));
            && e in m && i + 1 < |m[e]| && m[e][i + 1] == e
            && Shaped(r) && Arranged(r, Removed(m, e, i + 1))
  {
    var ids := On(s.at, w);
    OnRing(s, m, w, i);
    MinusNoDup(ids, [ids[i]]);
    ShrinkArranged(s, m, w, ids[i], Without(ids, ids[i]));
    UnlinkRing(s, w, i);
  }

  lemma UnlinkRing(s: Shape, w: Which, i: nat)
    requires Shaped(s) && i < |On(s.at, w)|
    ensures var r := s.(at := With(s.at, w, Without(On(s.at, w), On(s.at, w)[i])));
            Placed(r) && RingOf(r, w) == RingOf(s, w)[..i + 1] + RingOf(s, w)[i + 2..]
  {
    var ids := On(s.at, w);
    WithoutAt(ids, i);
    MinusNoDup(ids, [ids[i]]);
    SetPlaced(s, w, Without(ids, ids[i]));
    LinksWithout(s.nodes, w, ids, i);
    BehindHead(HeadOf(s.heads, w), Links(s.nodes, w, ids), i);
  }

  lemma LinksWithout(nodes: map<Slot, Node>, w: Which, ids: seq<Slot>, i: nat)
    requires i < |ids| && forall x <- ids :: x in nodes
    ensures forall x <- ids[..i] + ids[i + 1..] :: x in nodes
    ensures Links(nodes, w, ids[..i] + ids[i + 1..]) == Links(nodes, w, ids)[..i] + Links(nodes, w, ids)[i + 1..]
  {
  }

  lemma BehindHead(h: Link, l: seq<Link>, i: nat)
    requires i < |l|
    ensures ([h] + l)[..i + 1] + ([h] + l)[i + 2..] == [h] + (l[..i] + l[i + 1..])
  {
  }

  /** A record that was on no list by that entry joins list `w`, which becomes `t`. */
  lemma InsertArranged(s: Shape, m: Circles<Owner>, w: Which, x: Slot, t: seq<Slot>)
    requires Shaped(s) && Arranged(s, m) && x in s.nodes && !Linked(s.at, w, x) && (w == Scanned || x !in s.lost)
    requires NoDup(t) && forall y :: y in t <==> y in On(s.at, w) || y == x
    ensures var r := s.(at := With(s.at, w, t));
            Shaped(r) && Arranged(r, Assign(m, RingOf(r, w)))
  {
    var r := s.(at := With(s.at, w, t));
    LostElsewhere(s, w);
    SetPlaced(s, w, t);
    forall f <- m
      ensures Right(r, Assign(m, RingOf(r, w)), f)
    {
      InRing(r, w, f);
      SetExpected(s, w, t, f.owner);
    }
  }

  lemma LostElsewhere(s: Shape, w: Which)
    requires Placed(s)
    ensures w != Scanned ==> forall x <- On(s.at, w) :: x !in s.lost
  {
  }

  /** The first `n` records of list `w` move to the local list. */
  lemma SplitArranged(s: Shape, m: Circles<Owner>, w: Which, n: nat)
    requires Shaped(s) && Arranged(s, m) && w != Scanned && w != Local && s.at.local == [] && n <= |On(s.at, w)|
    ensures var ids := On(s.at, w);
            var r := s.(at := With(With(s.at, w, ids[n..]), Local, ids[..n]));
            Shaped(r) && Arranged(r, Split(m, HeadOf(s.heads, w), s.heads.local, Links(s.nodes, w, ids), n))
  {
    var ids := On(s.at, w);
    var p := s.(at := With(s.at, w, ids[n..]));
    var r := p.(at := With(p.at, Local, ids[..n]));
    LostElsewhere(s, w);
    PartsApart(ids, n);
    SetPlaced(s, w, ids[n..]);
    SetPlaced(p, Local, ids[..n]);
    var links := Links(s.nodes, w, ids);
    SplitLinks(s.nodes, w, ids, n);
    var n' := Split(m, HeadOf(s.heads, w), s.heads.local, links, n);
    forall f <- n'
      ensures Right(r, n', f)
    {
      assert Right(s, m, f);
      SplitExpected(s, w, n, f);
    }
  }

  lemma SplitLinks(nodes: map<Slot, Node>, w: Which, ids: seq<Slot>, n: nat)
    requires w != Scanned && n <= |ids| && forall x <- ids :: x in nodes
    ensures Links(nodes, w, ids[n..]) == Links(nodes, w, ids)[n..]
    ensures Links(nodes, Local, ids[..n]) == Links(nodes, w, ids)[..n]
  {
  }

  lemma SplitExpected(s: Shape, w: Which, n: nat, f: Link)
    requires Shaped(s) && w != Scanned && w != Local && s.at.local == [] && n <= |On(s.at, w)| && IsEntry(s, f)
    ensures var ids := On(s.at, w);
            var r := s.(at := With(With(s.at, w, ids[n..]), Local, ids[..n]));
            && Placed(r)
            && Expected(r, f.owner) == if f in RingOf(r, Local) then RingOf(r, Local)
                                       else if f in RingOf(r, w) then RingOf(r, w) else Expected(s, f.owner)
  {
    var ids := On(s.at, w);
    var p := s.(at := With(s.at, w, ids[n..]));
    var r := p.(at := With(p.at, Local, ids[..n]));
    LostElsewhere(s, w);
    PartsApart(ids, n);
    SetPlaced(s, w, ids[n..]);
    SetPlaced(p, Local, ids[..n]);
    SetExpected(s, w, ids[n..], f.owner);
    SetExpected(p, Local, ids[..n], f.owner);
    InRing(r, w, f);
    InRing(r, Local, f);
  }

  lemma PartsApart(ids: seq<Slot>, n: nat)
    requires NoDup(ids) && n <= |ids|
    ensures NoDup(ids[..n]) && NoDup(ids[n..]) && (forall x :: x in ids <==> x in ids[..n] || x in ids[n..])
    ensures forall x <- ids[..n] :: x !in ids[n..]
  {
    assert ids == ids[..n] + ids[n..];
    NoDupParts(ids[..n], ids[n..]);
  }

  lemma LoseExpected(s: Shape, x: Slot, o: Owner)
    requires Placed(s) && x in s.nodes && !Linked(s.at, Br, x) && Known(s, o)
    ensures var r := s.(lost := s.lost + {x}); Placed(r) && Expected(r, o) == Expected(s, o)
  {
    var r := s.(lost := s.lost + {x});
    assert forall w: Which :: RingOf(r, w) == RingOf(s, w);
  }

  /** A record on no list by its second entry is lost: that entry is no longer accounted for. */
  lemma LoseArranged(s: Shape, m: Circles<Owner>, x: Slot)
    requires Shaped(s) && Arranged(s, m) && x in s.nodes && !Linked(s.at, Br, x)
    ensures var r := s.(lost := s.lost + {x});
            Shaped(r) && Arranged(r, m - {s.nodes[x].tr})
  {
    var r, n := s.(lost := s.lost + {x}), m - {s.nodes[x].tr};
    LoseExpected(s, x, ListHead(Scanned));
    forall f <- n
      ensures Right(r, n, f)
    {
      assert Right(s, m, f);
      LoseExpected(s, x, f.owner);
    }
  }

  lemma UnlinkedNowhere(s: Shape, w: Which, x: Slot)
    requires Placed(s) && x in On(s.at, w)
    ensures !Linked(With(s.at, w, Without(On(s.at, w), x)), w, x)
  {
  }

  lemma NothingArranged(h: Heads, m: Circles<Owner>)
    requires forall w: Which ::
               HeadOf(h, w).owner == ListHead(w) && HeadOf(h, w) in m && m[HeadOf(h, w)] == [HeadOf(h, w)]
    requires forall e <- m :: exists w: Which :: e == HeadOf(h, w)
    ensures var s := Shape(h, map[], Members([], [], [], []), {}); Shaped(s) && Arranged(s, m)
  {
    var s := Shape(h, map[], Members([], [], [], []), {});
    assert forall w: Which :: On(s.at, w) == [];
    assert forall w: Which :: RingOf(s, w) == [HeadOf(h, w)];
  }

  /** What a record joining list `w` relies on. */
  lemma Joining(s: Shape, m: Circles<Owner>, w: Which, x: Slot)
    requires Shaped(s) && Arranged(s, m) && x in s.nodes && !Linked(s.at, w, x) && (w == Scanned || x !in s.lost)
    ensures var e, head := LinkOf(s.nodes, w, x), HeadOf(s.heads, w);
            && e in m && head in m && m[e] == [e] && m[head] == RingOf(s, w) && RingOf(s, w)[0] == head && e != head
    ensures NoDup([x] + On(s.at, w)) && NoDup(On(s.at, w) + [x])
  {
    IsolatedExactly(s, m, w, x);
    assert Right(s, m, HeadOf(s.heads, w));
    assert x !in On(s.at, w);
    NoDupConcat([x], On(s.at, w));
    NoDupConcat(On(s.at, w), [x]);
  }

  // ----- The operations on the links

  /** What is on the lists, and the circles of the entries. */
  datatype World = World(shape: Shape, circles: Circles<Owner>)

  datatype Aspect = Placement | Linkage

  ghost predicate Holds(p: World, aspect: Aspect) {
    match aspect
    case Placement => Shaped(p.shape)
    case Linkage => Shaped(p.shape) && Arranged(p.shape, p.circles)
  }

  /** The circles are those the lists demand.  What that means comes into a proof only where an aspect
      of it is mentioned. */
  ghost predicate Proper(p: World) {
    forall aspect :: Holds(p, aspect)
  }

  lemma ProperParts(p: World)
    requires Proper(p)
    ensures Shaped(p.shape) && Arranged(p.shape, p.circles)
  {
    assert Holds(p, Linkage);
  }

  ghost predicate Exists(p: World, aspect: Aspect)
    reads p.circles.Keys
  {
    match aspect
    case Placement => Proper(p)
    case Linkage => Good(p.circles)
  }

  /** And the entries on the heap are linked accordingly. */
  ghost predicate Live(p: World)
    reads p.circles.Keys
  {
    forall aspect :: Exists(p, aspect)
  }

  lemma LiveParts(p: World)
    ensures Live(p) <==> Proper(p) && Good(p.circles)
  {
    assert Live(p) ==> Exists(p, Placement) && Exists(p, Linkage);
  }

  lemma EmptyWorld(h: Heads) returns (p: World)
    requires forall w: Which :: HeadOf(h, w).owner == ListHead(w) && Ring([HeadOf(h, w)])
    ensures p.shape == Shape(h, map[], Members([], [], [], []), {}) && Live(p)
    ensures p.circles.Keys == {h.scanned, h.br, h.ble, h.local}
  {
    var m := map[h.scanned := [h.scanned], h.br := [h.br], h.ble := [h.ble], h.local := [h.local]];
    assert HeadOf(h, Scanned) == h.scanned && HeadOf(h, Br) == h.br && HeadOf(h, BleList) == h.ble
           && HeadOf(h, Local) == h.local;
    NothingArranged(h, m);
    p := World(Shape(h, map[], Members([], [], [], []), {}), m);
    LiveParts(p);
  }

  /** The heads of four empty lists. */
  method NewHeads() returns (h: Heads, ghost p: World)
    ensures p.shape == Shape(h, map[], Members([], [], [], []), {}) && Live(p) && fresh(p.circles.Keys)
  {
    var h0 := new Entry(ListHead(Scanned));
    var h1 := new Entry(ListHead(Br));
    var h2 := new Entry(ListHead(BleList));
    var h3 := new Entry(ListHead(Local));
    h := Heads(h0, h1, h2, h3);
    p := EmptyWorld(h);
  }

  /** The `i`-th record of list `w` leaves it. */
  lemma UnlinkAt(p: World, w: Which, i: nat) returns (q: World)
    requires Proper(p) && i < |On(p.shape.at, w)|
    ensures On(p.shape.at, w)[i] in p.shape.nodes
    ensures var e := LinkOf(p.shape.nodes, w, On(p.shape.at, w)[i]);
            && e in p.circles && i + 1 < |p.circles[e]| && p.circles[e][i + 1] == e
            && q.circles == Removed(p.circles, e, i + 1)
    ensures q.shape == p.shape.(at := With(p.shape.at, w, Without(On(p.shape.at, w), On(p.shape.at, w)[i])))
    ensures Proper(q)
  {
    ProperParts(p);
    var x := On(p.shape.at, w)[i];
    assert x in On(p.shape.at, w);
    UnlinkArranged(p.shape, p.circles, w, i);
    q := World(p.shape.(at := With(p.shape.at, w, Without(On(p.shape.at, w), x))),
               Removed(p.circles, LinkOf(p.shape.nodes, w, x), i + 1));
  }

  lemma UnlinkPlan(p: World, w: Which, x: Slot) returns (i: nat, q: World)
    requires Proper(p) && x in On(p.shape.at, w)
    ensures x in p.shape.nodes
    ensures var e := LinkOf(p.shape.nodes, w, x);
            && e in p.circles && i + 1 < |p.circles[e]| && p.circles[e][i + 1] == e
            && q.circles == Removed(p.circles, e, i + 1)
    ensures q.shape == p.shape.(at := With(p.shape.at, w, Without(On(p.shape.at, w), x))) && Proper(q)
  {
    i :| i < |On(p.shape.at, w)| && On(p.shape.at, w)[i] == x;
    q := UnlinkAt(p, w, i);
  }

  /** `remove_list_node` on the entry by which record `x` is on list `w`. */
  method Unlink(e: Link, ghost p: World, ghost w: Which, ghost x: Slot) returns (ghost q: World)
    requires Live(p)
    requires x in On(p.shape.at, w) && x in p.shape.nodes && e == LinkOf(p.shape.nodes, w, x)
    modifies p.circles.Keys
    ensures Live(q) && q.circles.Keys == p.circles.Keys
    ensures q.shape == p.shape.(at := With(p.shape.at, w, Without(On(p.shape.at, w), x)))
  {
    LiveParts(p);
    ghost var i;
    i, q := UnlinkPlan(p, w, x);
    Remove(e, p.circles, i + 1);
    LiveParts(q);
  }

  function Joined(ids: seq<Slot>, x: Slot, first: bool): seq<Slot> {
    if first then [x] + ids else ids + [x]
  }

  lemma LinkPlan(p: World, w: Which, x: Slot, first: bool) returns (q: World)
    requires Proper(p) && x in p.shape.nodes && !Linked(p.shape.at, w, x) && (w == Scanned || x !in p.shape.lost)
    ensures var e, head := LinkOf(p.shape.nodes, w, x), HeadOf(p.shape.heads, w);
            && e in p.circles && head in p.circles && p.circles[e] == [e] && e != head
            && |p.circles[head]| > 0 && p.circles[head][0] == head
            && q.circles == Assign(p.circles, if first then [head, e] + p.circles[head][1..] else p.circles[head] + [e])
    ensures q.shape == p.shape.(at := With(p.shape.at, w, Joined(On(p.shape.at, w), x, first))) && Proper(q)
  {
    ProperParts(p);
    var s, t := p.shape, Joined(On(p.shape.at, w), x, first);
    Joining(s, p.circles, w, x);
    assert forall y :: y in t <==> y in On(s.at, w) || y == x;
    InsertArranged(s, p.circles, w, x, t);
    JoinedRing(s, w, x, first);
    q := World(s.(at := With(s.at, w, t)), Assign(p.circles, RingOf(s.(at := With(s.at, w, t)), w)));
  }

  lemma JoinedRing(s: Shape, w: Which, x: Slot, first: bool)
    requires Placed(s) && x in s.nodes && !Linked(s.at, w, x) && (w == Scanned || x !in s.lost)
    requires NoDup(Joined(On(s.at, w), x, first))
    ensures var r, e := s.(at := With(s.at, w, Joined(On(s.at, w), x, first))), LinkOf(s.nodes, w, x);
            && Placed(r)
            && RingOf(r, w) == if first then [HeadOf(s.heads, w), e] + RingOf(s, w)[1..] else RingOf(s, w) + [e]
  {
    var ids, head, e := On(s.at, w), HeadOf(s.heads, w), LinkOf(s.nodes, w, x);
    LostElsewhere(s, w);
    SetPlaced(s, w, Joined(ids, x, first));
    JoinedLinks(s.nodes, w, ids, x, first);
    JoinedBehindHead(head, Links(s.nodes, w, ids), e);
  }

  lemma JoinedLinks(nodes: map<Slot, Node>, w: Which, ids: seq<Slot>, x: Slot, first: bool)
    requires x in nodes && forall y <- ids :: y in nodes
    ensures forall y <- Joined(ids, x, first) :: y in nodes
    ensures Links(nodes, w, Joined(ids, x, first)) ==
            if first then [LinkOf(nodes, w, x)] + Links(nodes, w, ids) else Links(nodes, w, ids) + [LinkOf(nodes, w, x)]
  {
  }

  lemma JoinedBehindHead(head: Link, l: seq<Link>, e: Link)
    ensures [head] + ([e] + l) == [head, e] + ([head] + l)[1..]
    ensures [head] + (l + [e]) == ([head] + l) + [e]
  {
  }

  lemma FirstPlan(p: World, w: Which, x: Slot) returns (q: World)
    requires Proper(p) && x in p.shape.nodes && !Linked(p.shape.at, w, x) && (w == Scanned || x !in p.shape.lost)
    ensures var e, head := LinkOf(p.shape.nodes, w, x), HeadOf(p.shape.heads, w);
            && e in p.circles && head in p.circles && p.circles[e] == [e] && e != head
            && |p.circles[head]| > 0 && p.circles[head][0] == head
            && q.circles == Assign(p.circles, [head, e] + p.circles[head][1..])
    ensures q.shape == p.shape.(at := With(p.shape.at, w, [x] + On(p.shape.at, w))) && Proper(q)
  {
    q := LinkPlan(p, w, x, true);
  }

  /** `insert_list_first`. */
  method LinkFirst(e: Link, head: Link, ghost p: World, ghost w: Which, ghost x: Slot) returns (ghost q: World)
    requires Live(p)
    requires x in p.shape.nodes && !Linked(p.shape.at, w, x) && (w == Scanned || x !in p.shape.lost)
    requires e == LinkOf(p.shape.nodes, w, x) && head == HeadOf(p.shape.heads, w)
    modifies p.circles.Keys
    ensures Live(q) && q.circles.Keys == p.circles.Keys
    ensures q.shape == p.shape.(at := With(p.shape.at, w, [x] + On(p.shape.at, w)))
  {
    LiveParts(p);
    q := FirstPlan(p, w, x);
    InsertFirst(e, head, p.circles);
    LiveParts(q);
  }

  /** `insert_list_tail`. */
  method LinkLast(e: Link, head: Link, ghost p: World, ghost w: Which, ghost x: Slot) returns (ghost q: World)
    requires Live(p)
    requires x in p.shape.nodes && !Linked(p.shape.at, w, x) && (w == Scanned || x !in p.shape.lost)
    requires e == LinkOf(p.shape.nodes, w, x) && head == HeadOf(p.shape.heads, w)
    modifies p.circles.Keys
    ensures Live(q) && q.circles.Keys == p.circles.Keys
    ensures q.shape == p.shape.(at := With(p.shape.at, w, On(p.shape.at, w) + [x]))
  {
    LiveParts(p);
    q := LinkPlan(p, w, x, false);
    InsertTail(e, head, p.circles);
    LiveParts(q);
  }

  /** `is_isolated_node`: the record is on no list that uses the entry. */
  method IsUnlinked(e: Link, ghost p: World, ghost w: Which, ghost x: Slot) returns (isolated: bool)
    requires Live(p) && x in p.shape.nodes && e == LinkOf(p.shape.nodes, w, x)
    requires w == Scanned || x !in p.shape.lost
    ensures isolated <==> !Linked(p.shape.at, w, x)
  {
    LiveParts(p);
    UnlinkedExactly(p, w, x);
    isolated := IsIsolated(e, p.circles);
  }

  /** An entry points to itself if and only if its record is on no list that uses the entry. */
  lemma IsolationTells(p: World, w: Which, x: Slot)
    requires Live(p) && x in p.shape.nodes && (w == Scanned || x !in p.shape.lost)
    ensures LinkOf(p.shape.nodes, w, x).next == LinkOf(p.shape.nodes, w, x) <==> !Linked(p.shape.at, w, x)
  {
    LiveParts(p);
    UnlinkedExactly(p, w, x);
    var e := LinkOf(p.shape.nodes, w, x);
    var r := p.circles[e];
    assert Ring(r) && e in r;
    var k :| 0 <= k < |r| && r[k] == e;
    assert e.next == if k + 1 < |r| then r[k + 1] else r[0];
  }

  lemma UnlinkedExactly(p: World, w: Which, x: Slot)
    requires Proper(p) && x in p.shape.nodes && (w == Scanned || x !in p.shape.lost)
    ensures var e := LinkOf(p.shape.nodes, w, x); e in p.circles && (p.circles[e] == [e] <==> !Linked(p.shape.at, w, x))
  {
    ProperParts(p);
    IsolatedExactly(p.shape, p.circles, w, x);
  }

  lemma AddPlan(p: World, x: Slot, node: Node) returns (q: World)
    requires Proper(p) && x !in p.shape.nodes && node.sc !in p.circles && node.tr !in p.circles
    requires node.sc.owner == Sc(x) && node.tr.owner == Tr(x)
    ensures q.shape == p.shape.(nodes := p.shape.nodes[x := node]) && Proper(q)
    ensures q.circles == p.circles[node.sc := [node.sc]][node.tr := [node.tr]]
    ensures !Linked(q.shape.at, Scanned, x) && !Linked(q.shape.at, Br, x) && x !in q.shape.lost
  {
    ProperParts(p);
    NotPlaced(p.shape, x);
    AddArranged(p.shape, p.circles, x, node);
    q := World(p.shape.(nodes := p.shape.nodes[x := node]), p.circles[node.sc := [node.sc]][node.tr := [node.tr]]);
  }

  /** The two calls of `init_entry` on the entries of a new record. */
  method Add(x: Slot, ghost p: World) returns (node: Node, ghost q: World)
    requires Live(p) && x !in p.shape.nodes
    ensures Live(q) && fresh(q.circles.Keys - p.circles.Keys)
    ensures q.shape == p.shape.(nodes := p.shape.nodes[x := node])
    ensures !Linked(q.shape.at, Scanned, x) && !Linked(q.shape.at, Br, x) && x !in q.shape.lost
  {
    LiveParts(p);
    node := new Node(x);
    q := AddPlan(p, x, node);
    AddedGood(p.circles, node.sc);
    AddedGood(p.circles[node.sc := [node.sc]], node.tr);
    LiveParts(q);
  }

  /** A record that is on no list is no longer in use. */
  lemma FreePlan(p: World, x: Slot) returns (q: World)
    requires Live(p)
    requires x in p.shape.nodes && !Linked(p.shape.at, Scanned, x) && !Linked(p.shape.at, Br, x) && x !in p.shape.lost
    ensures q.shape == p.shape.(nodes := p.shape.nodes - {x}) && Live(q)
    ensures q.circles.Keys <= p.circles.Keys
  {
    LiveParts(p);
    UnlinkedExactly(p, Scanned, x);
    UnlinkedExactly(p, Br, x);
    q := DropPlan(p, x);
    DroppedGood(p.circles, {p.shape.nodes[x].sc, p.shape.nodes[x].tr});
    LiveParts(q);
  }

  lemma DropPlan(p: World, x: Slot) returns (q: World)
    requires Proper(p)
    requires x in p.shape.nodes && !Linked(p.shape.at, Scanned, x) && !Linked(p.shape.at, Br, x) && x !in p.shape.lost
    ensures q.shape == p.shape.(nodes := p.shape.nodes - {x}) && Proper(q)
    ensures q.circles == p.circles - {p.shape.nodes[x].sc, p.shape.nodes[x].tr}
  {
    ProperParts(p);
    FreeArranged(p.shape, p.circles, x);
    q := World(p.shape.(nodes := p.shape.nodes - {x}), p.circles - {p.shape.nodes[x].sc, p.shape.nodes[x].tr});
  }

  // ----- Following the links

  /** The entry of the `i`-th record of list `w`; the head of the list comes after the last. */
  ghost function EntryAt(s: Shape, w: Which, i: nat): Link
    requires i < |On(s.at, w)| ==> On(s.at, w)[i] in s.nodes
  {
    if i < |On(s.at, w)| then LinkOf(s.nodes, w, On(s.at, w)[i]) else HeadOf(s.heads, w)
  }

  lemma InUse(p: World, w: Which)
    requires Live(p)
    ensures forall x <- On(p.shape.at, w) :: x in p.shape.nodes
    ensures NoDup(On(p.shape.at, w))
  {
    LiveParts(p);
    ProperParts(p);
  }

  /** From the head the links lead to the first record. */
  lemma FirstIs(p: World, w: Which)
    requires Live(p)
    ensures 0 < |On(p.shape.at, w)| ==> On(p.shape.at, w)[0] in p.shape.nodes
    ensures HeadOf(p.shape.heads, w).next == EntryAt(p.shape, w, 0)
  {
    LiveParts(p);
    ProperParts(p);
    var s, head := p.shape, HeadOf(p.shape.heads, w);
    assert Right(s, p.circles, head);
    var r := p.circles[head];
    assert Ring(r) && r[0] == head;
    if |On(s.at, w)| > 0 { BehindHeadAt(s, w, 0); }
  }

  /** From a record they lead to the next one, and from the last back to the head. */
  lemma NextIs(p: World, w: Which, i: nat)
    requires Live(p) && i < |On(p.shape.at, w)|
    ensures On(p.shape.at, w)[i] in p.shape.nodes
            && (i + 1 < |On(p.shape.at, w)| ==> On(p.shape.at, w)[i + 1] in p.shape.nodes)
    ensures EntryAt(p.shape, w, i).next == EntryAt(p.shape, w, i + 1)
    ensures EntryAt(p.shape, w, i).owner == OwnerOn(w, On(p.shape.at, w)[i])
            && EntryAt(p.shape, w, i) != HeadOf(p.shape.heads, w)
  {
    LiveParts(p);
    NextOnRing(p, w, i);
    RingStep(p.circles[EntryAt(p.shape, w, i)], i + 1);
  }

  lemma RingStep(r: seq<Link>, i: nat)
    requires Ring(r) && i < |r|
    ensures r[i].next == if i + 1 < |r| then r[i + 1] else r[0]
  {
  }

  /** Where a record and the next one are on the circle of the list. */
  lemma NextOnRing(p: World, w: Which, i: nat)
    requires Proper(p) && i < |On(p.shape.at, w)|
    ensures var s, ids := p.shape, On(p.shape.at, w);
            && ids[i] in s.nodes && (i + 1 < |ids| ==> ids[i + 1] in s.nodes)
            && var e := EntryAt(s, w, i);
               && e.owner == OwnerOn(w, ids[i]) && e != HeadOf(s.heads, w)
               && e in p.circles && |p.circles[e]| == |ids| + 1 && p.circles[e][i + 1] == e
               && EntryAt(s, w, i + 1) == if i + 1 < |ids| then p.circles[e][i + 2] else p.circles[e][0]
  {
    ProperParts(p);
    OnRing(p.shape, p.circles, w, i);
    if i + 1 < |On(p.shape.at, w)| { BehindHeadAt(p.shape, w, i + 1); }
  }

  /** When the `k`-th record has left list `w`, what followed it is in its place. */
  lemma AfterRemoval(s: Shape, r: Shape, w: Which, k: nat)
    requires k < |On(s.at, w)| && NoDup(On(s.at, w)) && forall y <- On(s.at, w) :: y in s.nodes
    requires r.heads == s.heads && On(r.at, w) == Without(On(s.at, w), On(s.at, w)[k])
    requires forall y :: y in s.nodes && y != On(s.at, w)[k] ==> y in r.nodes && r.nodes[y] == s.nodes[y]
    ensures On(r.at, w) == On(s.at, w)[..k] + On(s.at, w)[k + 1..]
    ensures k < |On(r.at, w)| ==> On(r.at, w)[k] in r.nodes
    ensures EntryAt(r, w, k) == EntryAt(s, w, k + 1)
  {
    WithoutAt(On(s.at, w), k);
  }

  /** What is not on the list may go from the pool. */
  lemma EntryKept(s: Shape, r: Shape, w: Which, x: Slot, k: nat)
    requires r == s.(nodes := s.nodes - {x}) && !Linked(s.at, Scanned, x) && !Linked(s.at, Br, x)
    requires k < |On(s.at, w)| ==> On(s.at, w)[k] in s.nodes
    ensures k < |On(r.at, w)| ==> On(r.at, w)[k] in r.nodes
    ensures EntryAt(r, w, k) == EntryAt(s, w, k)
  {
    assert x !in On(s.at, w);
  }

  // ----- Cutting off the front of a list

  lemma HeadRings(s: Shape, m: Circles<Owner>, w: Which)
    requires Shaped(s) && Arranged(s, m)
    ensures var head := HeadOf(s.heads, w);
            IsEntry(s, head) && head.owner == ListHead(w) && head in m && m[head] == RingOf(s, w)
  {
    assert Right(s, m, HeadOf(s.heads, w));
  }

  lemma SplitPlan(p: World, w: Which, n: nat) returns (q: World)
    requires Proper(p) && w != Scanned && w != Local && p.shape.at.local == [] && n <= |On(p.shape.at, w)|
    ensures (forall x <- On(p.shape.at, w) :: x in p.shape.nodes)
    ensures var head, local := HeadOf(p.shape.heads, w), p.shape.heads.local;
            var links := Links(p.shape.nodes, w, On(p.shape.at, w));
            && head in p.circles && p.circles[head] == [head] + links
            && local in p.circles && p.circles[local] == [local]
            && head != local && local !in [head] + links
            && q.circles == Split(p.circles, head, local, links, n)
    ensures q.shape == p.shape.(at := With(With(p.shape.at, w, On(p.shape.at, w)[n..]), Local, On(p.shape.at, w)[..n]))
    ensures Proper(q)
  {
    ProperParts(p);
    var s, ids := p.shape, On(p.shape.at, w);
    var head, local := HeadOf(s.heads, w), s.heads.local;
    HeadRings(s, p.circles, w);
    HeadRings(s, p.circles, Local);
    InRing(s, w, local);
    SplitArranged(s, p.circles, w, n);
    q := World(s.(at := With(With(s.at, w, ids[n..]), Local, ids[..n])),
               Split(p.circles, head, local, Links(s.nodes, w, ids), n));
  }

  /** A record on no list by its second entry is lost. */
  lemma LosePlan(p: World, x: Slot) returns (q: World)
    requires Proper(p) && x in p.shape.nodes && !Linked(p.shape.at, Br, x)
    ensures q == World(p.shape.(lost := p.shape.lost + {x}), p.circles - {p.shape.nodes[x].tr}) && Proper(q)
  {
    ProperParts(p);
    LoseArranged(p.shape, p.circles, x);
    q := World(p.shape.(lost := p.shape.lost + {x}), p.circles - {p.shape.nodes[x].tr});
  }

  lemma FirstOnRing(p: World, w: Which)
    requires Proper(p) && On(p.shape.at, w) != []
    ensures var x := On(p.shape.at, w)[0];
            && x in p.shape.nodes && Without(On(p.shape.at, w), x) == On(p.shape.at, w)[1..]
            && !Linked(With(p.shape.at, w, On(p.shape.at, w)[1..]), w, x)
            && var e := LinkOf(p.shape.nodes, w, x);
               e in p.circles && |p.circles[e]| > 0 && p.circles[e] == [HeadOf(p.shape.heads, w)] + p.circles[e][1..]
  {
    ProperParts(p);
    var x := On(p.shape.at, w)[0];
    OnRing(p.shape, p.circles, w, 0);
    WithoutFirst(On(p.shape.at, w));
    UnlinkedNowhere(p.shape, w, x);
  }

  lemma CutPlan(p: World, w: Which) returns (q: World)
    requires Proper(p) && w != Scanned && On(p.shape.at, w) != []
    ensures On(p.shape.at, w)[0] in p.shape.nodes
    ensures var e := p.shape.nodes[On(p.shape.at, w)[0]].tr;
            && e in p.circles && 1 < |p.circles[e]| && p.circles[e][1] == e && q.circles == Cut(p.circles, e, 1)
            && p.circles[e] == [HeadOf(p.shape.heads, w)] + p.circles[e][1..]
    ensures var ids := On(p.shape.at, w);
            q.shape == p.shape.(at := With(p.shape.at, w, ids[1..]), lost := p.shape.lost + {ids[0]})
    ensures Proper(q)
  {
    FirstOnRing(p, w);
    var r := UnlinkAt(p, w, 0);
    q := LosePlan(r, On(p.shape.at, w)[0]);
  }

  /** The records that a budget admits are cut off list `w` and become the local list; if it admits none
      of a list that is not empty, the first record is cut off all the same and lost. */
  method Detach(list: Link, local: Link, budget: int, len: Owner -> int, ghost p: World, ghost w: Which)
    returns (n: nat, ghost q: World)
    requires Live(p) && w != Scanned && w != Local && p.shape.at.local == []
    requires list == HeadOf(p.shape.heads, w) && local == p.shape.heads.local
    requires forall x <- On(p.shape.at, w) :: x in p.shape.nodes
    modifies p.circles.Keys
    ensures Live(q) && q.circles.Keys <= p.circles.Keys
    ensures var ids := On(p.shape.at, w);
            && n == TrackedRing.Admitted(TrackedRing.Lengths(Links(p.shape.nodes, w, ids), len), budget)
            && if n == 0 && ids != [] then
                 && q.shape == p.shape.(at := With(p.shape.at, w, ids[1..]), lost := p.shape.lost + {ids[0]})
                 && p.shape.nodes[ids[0]].tr.next != p.shape.nodes[ids[0]].tr
               else q.shape == p.shape.(at := With(With(p.shape.at, w, ids[n..]), Local, ids[..n]))
  {
    LiveParts(p);
    ghost var ids, links := On(p.shape.at, w), Links(p.shape.nodes, w, On(p.shape.at, w));
    q := DetachPlan(p, w, TrackedRing.Admitted(TrackedRing.Lengths(links, len), budget));
    n := TrackedRing.DetachFront(list, local, budget, len, p.circles, links);
    LiveParts(q);
  }

  /** Where a detachment of `n` records leads. */
  lemma DetachPlan(p: World, w: Which, n: nat) returns (q: World)
    requires Proper(p) && w != Scanned && w != Local && p.shape.at.local == [] && n <= |On(p.shape.at, w)|
    ensures forall x <- On(p.shape.at, w) :: x in p.shape.nodes
    ensures var head, local := HeadOf(p.shape.heads, w), p.shape.heads.local;
            var links := Links(p.shape.nodes, w, On(p.shape.at, w));
            && head in p.circles && p.circles[head] == [head] + links
            && local in p.circles && p.circles[local] == [local]
            && local !in [head] + links
            && (n > 0 || links == [] ==> q.circles == Split(p.circles, head, local, links, n))
            && (n == 0 && links != [] ==>
                  links[0] in p.circles && 1 < |p.circles[links[0]]| && q.circles == Cut(p.circles, links[0], 1))
    ensures var ids := On(p.shape.at, w);
            q.shape == if n == 0 && ids != []
                       then p.shape.(at := With(p.shape.at, w, ids[1..]), lost := p.shape.lost + {ids[0]})
                       else p.shape.(at := With(With(p.shape.at, w, ids[n..]), Local, ids[..n]))
    ensures Proper(q)
  {
    q := SplitPlan(p, w, n);
    if n == 0 && On(p.shape.at, w) != [] {
      q := CutPlan(p, w);
    }
  }
}
