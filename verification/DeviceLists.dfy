/** The operations of src/LBeacon.c on the device lists, with the loops and the state of the source: the
    lists are circles of entries on the heap, and the code learns from the entries alone what is on
    them.  Each operation is carried out atomically, under the list lock. */
module DeviceLists {
  import opened Common
  import opened DeviceSpec
  import opened DeviceProofs
  import opened LinkedList
  import opened RingMap
  import opened DeviceRings
  import opened TrackedUpload
  import TrackedRing
  import ReportReader
  import ReportRoundTrip
  import Hex

  /** All addresses are terminated strings. */
  ghost predicate Terminated(s: Store) {
    forall x :: x in s.devices ==> |s.devices[x].mac| < LENGTH_OF_MAC_ADDRESS
  }

  /** What every operation keeps.  What it says of ownership comes into a proof only where asked for. */
  ghost predicate Sound(s: Store) {
    Listed(s) && forall owned :: SoundSo(s, owned)
  }

  ghost predicate SoundSo(s: Store, owned: bool) {
    if owned then Ownership(s) else Terminated(s)
  }

  lemma SoundParts(s: Store)
    ensures Sound(s) <==> Ownership(s) && Listed(s) && Terminated(s)
  {
    assert Sound(s) ==> SoundSo(s, true) && SoundSo(s, false);
  }

  lemma CheckScannedSound(s: Store, mac: string, clock: seq<int>)
    requires Sound(s) && |clock| >= |s.scanned|
    ensures Sound(CheckScanned(s, mac, clock).0)
  {
    SoundParts(s);
    CheckScannedOwnership(s, mac, clock);
    SoundParts(CheckScanned(s, mac, clock).0);
  }

  /** A record is replaced by one with the same address. */
  lemma UpdateSound(s: Store, x: Slot, d: Device)
    requires Sound(s) && x in s.devices && Buffers(d) && d.mac == s.devices[x].mac
    ensures Sound(s.(devices := s.devices[x := d]))
  {
    SoundParts(s);
    SoundParts(s.(devices := s.devices[x := d]));
  }

  lemma InsertBrSound(s: Store, x: Slot, d: Device)
    requires Sound(s) && x !in s.devices && Buffers(d) && |d.mac| < LENGTH_OF_MAC_ADDRESS
    ensures Sound(InsertBr(s, x, d))
  {
    SoundParts(s);
    InsertBrOwnership(s, x, d);
    SoundParts(InsertBr(s, x, d));
  }

  lemma InsertBleSound(s: Store, x: Slot, d: Device)
    requires Sound(s) && x !in s.devices && Buffers(d) && |d.mac| < LENGTH_OF_MAC_ADDRESS
    ensures Sound(s.(devices := s.devices[x := d], ble := s.ble + [x]))
  {
    SoundParts(s);
    NoDupConcat(s.ble, [x]);
    SoundParts(s.(devices := s.devices[x := d], ble := s.ble + [x]));
  }

  lemma ObserveSound(s: Store, kind: Kind, o: Observation, clock: seq<int>, now: int, slot: Option<Slot>)
    requires Sound(s) && |o.mac| < LENGTH_OF_MAC_ADDRESS && |o.payload| <= LENGTH_OF_ADVERTISEMENT
    requires kind == BrEdr ==> |clock| >= |s.scanned|
    requires slot.Some? ==> slot.value !in if kind == BrEdr then CheckScanned(s, o.mac, clock).0.devices else s.devices
    ensures Sound(if kind == BrEdr then ObserveBr(s, o, clock, now, slot).0 else ObserveBle(s, o, now, slot))
  {
    match kind
    case BrEdr =>
      var (r, found, freed) := CheckScanned(s, o.mac, clock);
      CheckScannedSound(s, o.mac, clock);
      ObserveBrCases(s, o, clock, now, slot);
      if found.Some? {
        UpdateSound(r, found.value, Merge(r.devices[found.value], o, now));
      } else if slot.Some? {
        InsertBrSound(r, slot.value, NewDevice(o, now));
      }
    case Ble =>
      var found := FindMac(s.devices, s.ble, o.mac);
      if found.Some? {
        UpdateSound(s, found.value, Merge(s.devices[found.value], o, now));
      } else if slot.Some? {
        InsertBleSound(s, slot.value, NewDevice(o, now));
      }
  }

  lemma FoundStays(s: Store, mac: string, clock: seq<int>)
    requires Listed(s) && |clock| >= |s.scanned| && CheckScanned(s, mac, clock).1.Some?
    ensures var (r, found, freed) := CheckScanned(s, mac, clock);
            found.value in s.scanned && r == s
  {
    NothingReleased(s);
  }

  lemma ScanResponseSound(s: Store, mac: string, data: seq<byte>)
    requires Sound(s) && |data| <= LENGTH_OF_ADVERTISEMENT
    ensures Sound(ScanResponse(s, mac, data))
  {
    var found := FindMac(s.devices, s.ble, mac);
    if found.Some? {
      var d := s.devices[found.value];
      UpdateSound(s, found.value, d.(scanRsp := Overwrite(d.scanRsp, data), scanRspLength := |data|));
    }
  }

  lemma UploadSound(s: Store, kind: Kind, n: nat)
    requires Sound(s) && n <= |ListOf(s, kind)|
    ensures Sound(Upload(s, kind, n).0)
  {
    SoundParts(s);
    UploadOwnership(s, kind, n);
    SoundParts(Upload(s, kind, n).0);
  }

  lemma CleanupSound(s: Store, which: Which)
    requires Sound(s) && which != Local
    ensures Sound(Cleanup(s, which).0)
  {
    SoundParts(s);
    CleanupOwnership(s);
    SoundParts(Cleanup(s, which).0);
  }

  /** An upload of no record writes a header only and changes nothing. */
  lemma EmptyMessage(s: Store, kind: Kind)
    requires Listed(s)
    ensures ListOf(s, kind) == [] ==> Upload(s, kind, 0) == (s, [])
    ensures MessageOf(kind, s.devices, ListOf(s, kind), 0) == Dec(KindNumber(kind)) + ";" + Dec(0) + ";"
  {
    NothingReleased(s);
    assert Minus([], s.scanned) == [];
    var header := Dec(KindNumber(kind)) + ";" + Dec(0) + ";";
    assert header + "" == header;
  }

  /** A node leaves the scanned list, and the pool if it is not on the BR/EDR list. */
  function RemoveOne(s: Store, x: Slot): Store {
    s.(scanned := Without(s.scanned, x), devices := if x in s.br then s.devices else s.devices - {x})
  }

  function RemoveAll(s: Store, nodes: seq<Slot>): Store
    decreases |nodes|
  {
    if nodes == [] then s else RemoveAll(RemoveOne(s, nodes[0]), nodes[1..])
  }

  /** The slots handed back on the way. */
  function Gone(nodes: seq<Slot>, br: seq<Slot>): seq<Slot> {
    if nodes == [] then [] else (if nodes[0] in br then [] else [nodes[0]]) + Gone(nodes[1..], br)
  }

  lemma {:induction false} GoneIsMinus(nodes: seq<Slot>, br: seq<Slot>)
    ensures Gone(nodes, br) == Minus(nodes, br)
  {
    if nodes != [] {
      GoneIsMinus(nodes[1..], br);
      assert nodes == [nodes[0]] + nodes[1..];
      MinusConcat([nodes[0]], nodes[1..], br);
      MinusAppend([], nodes[0], br);
      assert [] + [nodes[0]] == [nodes[0]];
    }
  }

  /** One by one is the same as at once. */
  lemma {:induction false} RemoveAllIsRelease(s: Store, kept: seq<Slot>, nodes: seq<Slot>)
    requires s.scanned == kept + nodes && NoDup(s.scanned)
    ensures RemoveAll(s, nodes) == Release(s.(scanned := kept), Gone(nodes, s.br))
    decreases |nodes|
  {
    if nodes == [] {
      assert s.devices - ToSet([]) == s.devices && kept + [] == kept;
    } else {
      var x, rest := nodes[0], nodes[1..];
      assert s.scanned == kept + [x] + rest;
      RestNoDup(kept, x, rest);
      WithoutMiddle(kept, x, rest);
      var r := RemoveOne(s, x);
      RemoveAllIsRelease(r, kept, rest);
      ReleaseMore(s.devices, if x in s.br then [] else [x], Gone(rest, s.br));
    }
  }

  lemma RestNoDup(a: seq<Slot>, x: Slot, b: seq<Slot>)
    requires NoDup(a + [x] + b)
    ensures x !in a && x !in b && NoDup(a + b)
  {
    var s := a + [x] + b;
    assert s[|a|] == x;
    assert forall i :: 0 <= i < |a| ==> a[i] == s[i];
    assert forall i :: 0 <= i < |b| ==> b[i] == s[|a| + 1 + i];
    assert forall i :: 0 <= i < |a + b| ==> (a + b)[i] == if i < |a| then s[i] else s[i + 1];
  }

  lemma ReleaseMore(devices: map<Slot, Device>, first: seq<Slot>, rest: seq<Slot>)
    requires |first| <= 1
    ensures devices - ToSet(first + rest) == (if first == [] then devices else devices - {first[0]}) - ToSet(rest)
  {
    if first == [] {
      assert first + rest == rest;
    } else {
      assert ToSet(first + rest) == {first[0]} + ToSet(rest);
      assert devices - ({first[0]} + ToSet(rest)) == devices - {first[0]} - ToSet(rest);
    }
  }

  /** The record's buffers fit the local character buffers they are printed into. */
  ghost predicate Printable(d: Device) {
    d.payloadLength <= 32 && d.scanRspLength <= 32
  }

  ghost predicate AllPrintable(devices: map<Slot, Device>, ids: seq<Slot>) {
    forall x <- ids :: x in devices && Buffers(devices[x]) && Printable(devices[x])
  }

  class ObjectLists {
    const heads: Heads
    /** The records in use: their two list entries and what they hold. */
    var nodes: map<Slot, Node>
    var mem: map<Slot, Device>
    /** What is on the lists and how the entries are linked. */
    ghost var world: World
    /** The slots passed to `mp_free`, in order. */
    ghost var returned: seq<Slot>

    ghost function Abs(): Store
      reads this
    {
      Store(mem, world.shape.at.scanned, world.shape.at.br, world.shape.at.ble)
    }

    /** The entries are linked as the lists demand. */
    ghost predicate Wired()
      reads this, world.circles.Keys
    {
      && Live(world)
      && world.shape.heads == heads && world.shape.nodes == nodes && nodes.Keys == mem.Keys
    }

    /** No local list is left over, and no record is lost. */
    ghost predicate Settled()
      reads this
    {
      world.shape.at.local == [] && world.shape.lost == {}
    }

    ghost predicate Valid()
      reads this, world.circles.Keys
    {
      Wired() && Sound(Abs()) && Settled()
    }

    constructor ()
      ensures Valid() && Abs() == Store(map[], [], [], []) && returned == [] && fresh(world.circles.Keys)
    {
      var h: Heads;
      ghost var start: World;
      h, start := NewHeads();
      heads := h;
      nodes := map[];
      mem := map[];
      world := start;
      returned := [];
      SoundParts(Store(map[], [], [], []));
    }

    // ----- Entries

    /** `p` is the entry of the `k`-th record of list `w`, or the head of the list behind the last. */
    ghost predicate Here(p: Link, w: Which, k: nat)
      reads this
    {
      var ids := On(world.shape.at, w);
      k <= |ids| && (k < |ids| ==> ids[k] in world.shape.nodes) && p == EntryAt(world.shape, w, k)
    }

    lemma StartHere(w: Which)
      requires Wired()
      ensures Here(HeadOf(heads, w).next, w, 0)
    {
      FirstIs(world, w);
    }

    /** The entry names its record and leads to the next. */
    lemma NextHere(p: Link, w: Which, k: nat)
      requires Wired() && Here(p, w, k)
      ensures p == HeadOf(heads, w) <==> k == |On(world.shape.at, w)|
      ensures k < |On(world.shape.at, w)| ==>
                var x := On(world.shape.at, w)[k];
                x in nodes && p == LinkOf(nodes, w, x) && p.owner == OwnerOn(w, x) && Here(p.next, w, k + 1)
    {
      if k < |On(world.shape.at, w)| {
        DeviceRings.NextIs(world, w, k);
      }
    }

    /** `mp_free` of a record that is on no list. */
    method Free(x: Slot)
      requires Wired() && x in mem && x !in world.shape.lost
      requires !Linked(world.shape.at, Scanned, x) && !Linked(world.shape.at, Br, x)
      modifies this
      ensures Wired() && world.circles.Keys <= old(world.circles.Keys)
      ensures world.shape == old(world.shape).(nodes := old(nodes) - {x})
      ensures mem == old(mem) - {x} && returned == old(returned) + [x]
    {
      world := FreePlan(world, x);
      nodes := nodes - {x};
      mem := mem - {x};
      returned := returned + [x];
    }

    /** The same during a traversal: `p` stays the entry at place `k` of list `w`. */
    method FreeBehind(x: Slot, ghost p: Link, ghost w: Which, ghost k: nat)
      requires Wired() && x in mem && x !in world.shape.lost && Here(p, w, k)
      requires !Linked(world.shape.at, Scanned, x) && !Linked(world.shape.at, Br, x)
      modifies this
      ensures Wired() && world.circles.Keys <= old(world.circles.Keys)
      ensures world.shape == old(world.shape).(nodes := old(nodes) - {x}) && Here(p, w, k)
      ensures mem == old(mem) - {x} && returned == old(returned) + [x]
    {
      ghost var s := world.shape;
      Free(x);
      EntryKept(s, world.shape, w, x, k);
    }

    /** The record at place `k` of list `w`, whose entry is `e`, leaves the list. */
    method RemoveHere(e: Link, ghost w: Which, ghost k: nat, ghost x: Slot)
      requires Wired() && k < |On(world.shape.at, w)| && x == On(world.shape.at, w)[k] && Here(e, w, k)
      modifies this`world, world.circles.Keys
      ensures Wired() && world.circles.Keys == old(world.circles.Keys)
      ensures var at := old(world.shape.at);
              world.shape == old(world.shape).(at := With(at, w, Without(On(at, w), x)))
      ensures Here(old(e.next), w, k)
    {
      ghost var s := world.shape;
      InUse(world, w);
      NextHere(e, w, k);
      RemoveFrom(e, w, x);
      AfterRemoval(s, world.shape, w, k);
    }

    /** `remove_list_node` on the entry by which record `x` is on list `w`. */
    method RemoveFrom(e: Link, ghost w: Which, ghost x: Slot)
      requires Wired() && x in On(world.shape.at, w) && x in nodes && e == LinkOf(nodes, w, x)
      modifies this`world, world.circles.Keys
      ensures Wired() && world.circles.Keys == old(world.circles.Keys)
      ensures var at := old(world.shape.at);
              world.shape == old(world.shape).(at := With(at, w, Without(On(at, w), x)))
    {
      world := Unlink(e, world, w, x);
    }

    /** `is_isolated_node` on either entry of a record. */
    method Isolated(e: Link, ghost w: Which, ghost x: Slot) returns (isolated: bool)
      requires Wired() && x in nodes && e == LinkOf(nodes, w, x) && (w == Scanned || x !in world.shape.lost)
      ensures isolated <==> !Linked(world.shape.at, w, x)
    {
      isolated := IsUnlinked(e, world, w, x);
    }

    /** The record `mp_alloc` yields, with its entries and fields set. */
    method NewRecord(x: Slot, d: Device)
      requires Wired() && x !in mem
      modifies this`nodes, this`mem, this`world
      ensures Wired() && fresh(world.circles.Keys - old(world.circles.Keys))
      ensures mem == old(mem)[x := d] && world.shape == old(world.shape).(nodes := nodes) && x in nodes
      ensures !Linked(world.shape.at, Scanned, x) && !Linked(world.shape.at, Br, x) && x !in world.shape.lost
    {
      var node: Node;
      node, world := Add(x, world);
      nodes := nodes[x := node];
      mem := mem[x := d];
    }

    /** `insert_list_first` and `insert_list_tail`. */
    method InsertFirst(e: Link, head: Link, ghost w: Which, ghost x: Slot)
      requires Wired() && x in nodes && !Linked(world.shape.at, w, x) && (w == Scanned || x !in world.shape.lost)
      requires e == LinkOf(nodes, w, x) && head == HeadOf(heads, w)
      modifies this`world, world.circles.Keys
      ensures Wired() && world.circles.Keys == old(world.circles.Keys)
      ensures world.shape == old(world.shape).(at := With(old(world.shape.at), w, [x] + On(old(world.shape.at), w)))
    {
      world := LinkFirst(e, head, world, w, x);
    }

    method InsertLast(e: Link, head: Link, ghost w: Which, ghost x: Slot)
      requires Wired() && x in nodes && !Linked(world.shape.at, w, x) && (w == Scanned || x !in world.shape.lost)
      requires e == LinkOf(nodes, w, x) && head == HeadOf(heads, w)
      modifies this`world, world.circles.Keys
      ensures Wired() && world.circles.Keys == old(world.circles.Keys)
      ensures world.shape == old(world.shape).(at := With(old(world.shape.at), w, On(old(world.shape.at), w) + [x]))
    {
      world := LinkLast(e, head, world, w, x);
    }

    // ----- Searching

    method IsSame(mac: string, x: Slot) returns (same: bool)
      requires x in mem && Terminated(Abs()) && |mac| < LENGTH_OF_MAC_ADDRESS
      ensures same <==> mem[x].mac == mac
    {
      same := Matches(mac, mem[x].mac);
      MatchesIsEqual(mac, mem[x].mac);
    }

    /** One node leaves the scanned list, and the pool if its other entry is isolated. */
    method RemoveScanned(e: Link, ghost k: nat, ghost x: Slot)
      requires Wired() && Settled() && k < |Abs().scanned| && x == Abs().scanned[k] && x !in Abs().ble
      requires Here(e, Scanned, k)
      modifies this, world.circles.Keys
      ensures Wired() && Settled() && world.circles.Keys <= old(world.circles.Keys)
      ensures Abs() == RemoveOne(old(Abs()), x) && Here(old(e.next), Scanned, k)
      ensures returned == old(returned) + if x in Abs().br then [] else [x]
    {
      NextHere(e, Scanned, k);
      var slot := e.owner.slot;
      ghost var next := e.next;
      RemoveHere(e, Scanned, k, x);
      var isolated := Isolated(nodes[slot].tr, Br, x);
      if isolated {
        FreeBehind(slot, next, Scanned, k);
      }
    }

    /** One turn of the loop below when the flag is set: the `i`-th node, whose entry is `e`, leaves. */
    method SweepNode(e: Link, ghost q: Search, ghost k: nat, ghost i: nat)
      requires Wired() && Settled() && k <= i < |q.before.scanned| && Here(e, Scanned, k)
      requires if i == k then Abs() == q.before && returned == q.returned else Sweeping(q, k, i, Abs(), returned)
      requires q.before.scanned[i] !in q.before.ble
      modifies this, world.circles.Keys
      ensures Wired() && Settled() && world.circles.Keys <= old(world.circles.Keys)
      ensures Sweeping(q, k, i + 1, Abs(), returned) && Here(old(e.next), Scanned, k)
    {
      InUse(world, Scanned);
      SweepingNext(q, k, i, Abs(), returned);
      RemoveScanned(e, k, q.before.scanned[i]);
    }

    /** A node within its interval is compared with the address. */
    method LookAt(x: Slot, mac: string, ghost q: Search, ghost k: nat) returns (same: bool)
      requires Possible(q) && Abs() == q.before && mac == q.mac
      requires k < |q.before.scanned| && x == q.before.scanned[k] && x in mem && !Late(q, k) && Passed(q, k)
      ensures same <==> Matching(q, k)
      ensures !same ==> Passed(q, k + 1)
    {
      PossibleParts(q);
      same := IsSame(mac, x);
    }

    /** One turn of the loop: the `i`-th node, whose entry is `p`, leaves, or is compared with the
        address. */
    method Turn(p: Link, mac: string, clock: seq<int>, i: nat, flag: bool, ghost q: Search, ghost k: nat)
      returns (removing: bool, found: Option<Slot>, ghost next: nat)
      requires Wired() && Settled() && Possible(q) && q.mac == mac && q.clock == clock
      requires k <= i < |q.before.scanned| && Here(p, Scanned, k) && Stands(q, k, i, flag, Abs(), returned)
      modifies this, world.circles.Keys
      ensures Wired() && Settled() && world.circles.Keys <= old(world.circles.Keys)
      ensures found.Some? ==> Ends(q, k, i, removing, found, Abs(), returned)
      ensures found.None? ==>
                next <= i + 1 && Here(old(p.next), Scanned, next) && Stands(q, next, i + 1, removing, Abs(), returned)
    {
      StandsParts(q, k, i, flag, Abs(), returned);
      LeftOnList(q, k, i, flag, Abs(), returned);
      NextHere(p, Scanned, k);
      removing, found, next := flag, None, k;
      var x := p.owner.slot;
      if flag || clock[i] - mem[x].initial > INTERVAL_FOR_CLEANUP_SCANNED_LIST {
        removing := true;
        PossibleParts(q);
        SweepNode(p, q, k, i);
        StandsParts(q, k, i + 1, true, Abs(), returned);
      } else {
        var same := LookAt(x, mac, q, k);
        if same {
          found := Some(x);
        } else {
          next := k + 1;
          StandsParts(q, k + 1, i + 1, false, Abs(), returned);
        }
      }
    }

    /** The loop of `check_is_in_list` on the scanned list: once an expired node is met, the flag is set
        and every node from there on leaves. */
    method SweepLoop(mac: string, clock: seq<int>, ghost q: Search)
      returns (found: Option<Slot>, ghost removing: bool, ghost k: nat, ghost i: nat)
      requires Wired() && Settled() && Possible(q) && q == Search(Abs(), returned, mac, clock)
      modifies this, world.circles.Keys
      ensures Wired() && Settled() && world.circles.Keys <= old(world.circles.Keys)
      ensures k <= i <= |q.before.scanned| && Ends(q, k, i, removing, found, Abs(), returned)
    {
      k := 0;
      StandsParts(q, 0, 0, false, Abs(), returned);
      StartHere(Scanned);
      var p := heads.scanned.next;
      var save := p.next;
      var flag, n := false, 0;
      found := None;
      while p != heads.scanned
        invariant Wired() && Settled() && world.circles.Keys <= old(world.circles.Keys)
        invariant k <= n <= |q.before.scanned| && Here(p, Scanned, k) && save == p.next
        invariant found == None && Stands(q, k, n, flag, Abs(), returned)
        decreases |q.before.scanned| - n
      {
        MoreToSee(p, q, k, n, flag);
        ghost var next: nat;
        flag, found, next := Turn(p, mac, clock, n, flag, q, k);
        if found.Some? {
          break;
        }
        k := next;
        n := n + 1;
        p := save;
        save := p.next;
      }
      if found.None? {
        MoreToSee(p, q, k, n, flag);
      }
      removing, i := flag, n;
    }

    lemma MoreToSee(p: Link, q: Search, k: nat, n: nat, flag: bool)
      requires Wired() && Possible(q) && k <= n <= |q.before.scanned| && Here(p, Scanned, k)
      requires Stands(q, k, n, flag, Abs(), returned)
      ensures p == heads.scanned <==> n == |q.before.scanned|
    {
      LeftOnList(q, k, n, flag, Abs(), returned);
      NextHere(p, Scanned, k);
    }

    /** `check_is_in_list` on the scanned list; `clock` gives the readings of the clock. */
    method CheckScannedList(mac: string, clock: seq<int>) returns (found: Option<Slot>)
      requires Valid() && |clock| >= |Abs().scanned| && |mac| < LENGTH_OF_MAC_ADDRESS
      modifies this, world.circles.Keys
      ensures Valid() && world.circles.Keys <= old(world.circles.Keys)
      ensures Abs() == CheckScanned(old(Abs()), mac, clock).0 && found == CheckScanned(old(Abs()), mac, clock).1
      ensures returned == old(returned) + CheckScanned(old(Abs()), mac, clock).2
    {
      ghost var q := Search(Abs(), returned, mac, clock);
      ghost var removing: bool;
      ghost var k: nat, i: nat;
      SoundParts(Abs());
      CheckScannedSound(Abs(), mac, clock);
      found, removing, k, i := SweepLoop(mac, clock, q);
      SweepOutcome(q, k, i, removing, found, Abs(), returned);
    }

    /** `check_is_in_list` on the BLE list. */
    method CheckBleList(mac: string) returns (found: Option<Slot>)
      requires Wired() && Listed(Abs()) && Terminated(Abs()) && |mac| < LENGTH_OF_MAC_ADDRESS
      ensures found == FindMac(mem, Abs().ble, mac)
    {
      StartHere(BleList);
      var p := heads.ble.next;
      ghost var ids, i := Abs().ble, 0;
      while p != heads.ble
        invariant i <= |ids| && Here(p, BleList, i) && NotAmong(mem, ids, mac, i)
        decreases |ids| - i
      {
        NextHere(p, BleList, i);
        var same := IsSame(mac, p.owner.slot);
        if same {
          FirstFound(mem, ids, mac, i);
          return Some(p.owner.slot);
        }
        p := p.next;
        i := i + 1;
      }
      NextHere(p, BleList, i);
      FirstFound(mem, ids, mac, i);
      found := None;
    }

    // ----- Sightings

    /** `send_to_push_dongle`; `slot` is what `mp_alloc` returns if it is asked. */
    method SendToPushDongle(kind: Kind, o: Observation, clock: seq<int>, now: int, slot: Option<Slot>)
      requires Valid() && |o.mac| < LENGTH_OF_MAC_ADDRESS && |o.payload| <= LENGTH_OF_ADVERTISEMENT
      requires kind == BrEdr ==> |clock| >= |Abs().scanned|
      requires slot.Some? ==> slot.value !in if kind == BrEdr then CheckScanned(Abs(), o.mac, clock).0.devices else mem
      modifies this, world.circles.Keys
      ensures Valid() && fresh(world.circles.Keys - old(world.circles.Keys))
      ensures kind == BrEdr ==> Abs() == ObserveBr(old(Abs()), o, clock, now, slot).0
                                && returned == old(returned) + ObserveBr(old(Abs()), o, clock, now, slot).1
      ensures kind == Ble ==> Abs() == ObserveBle(old(Abs()), o, now, slot) && returned == old(returned)
    {
      SoundParts(Abs());
      ObserveSound(Abs(), kind, o, clock, now, slot);
      match kind {
        case Ble => SightBle(o, now, slot);
        case BrEdr => SightBrEdr(o, clock, now, slot);
      }
    }

    method SightBle(o: Observation, now: int, slot: Option<Slot>)
      requires Wired() && Settled() && Listed(Abs()) && Terminated(Abs())
      requires |o.mac| < LENGTH_OF_MAC_ADDRESS && |o.payload| <= LENGTH_OF_ADVERTISEMENT
      requires slot.Some? ==> slot.value !in mem
      modifies this`nodes, this`mem, this`world, world.circles.Keys
      ensures Wired() && Settled() && fresh(world.circles.Keys - old(world.circles.Keys))
      ensures Abs() == ObserveBle(old(Abs()), o, now, slot)
    {
      var found := CheckBleList(o.mac);
      if found.Some? {
        UpdateNode(found.value, o, now);
      } else if slot.Some? {
        NewRecord(slot.value, NewDevice(o, now));
        InsertLast(nodes[slot.value].tr, heads.ble, BleList, slot.value);
      }
    }

    method SightBrEdr(o: Observation, clock: seq<int>, now: int, slot: Option<Slot>)
      requires Valid() && |clock| >= |Abs().scanned|
      requires |o.mac| < LENGTH_OF_MAC_ADDRESS && |o.payload| <= LENGTH_OF_ADVERTISEMENT
      requires slot.Some? ==> slot.value !in CheckScanned(Abs(), o.mac, clock).0.devices
      modifies this, world.circles.Keys
      ensures Wired() && Settled() && fresh(world.circles.Keys - old(world.circles.Keys))
      ensures Abs() == ObserveBr(old(Abs()), o, clock, now, slot).0
      ensures returned == old(returned) + ObserveBr(old(Abs()), o, clock, now, slot).1
    {
      ObserveBrCases(Abs(), o, clock, now, slot);
      var found := CheckScannedList(o.mac, clock);
      Note(found, o, now, slot);
    }

    /** What follows the search of the scanned list. */
    method Note(found: Option<Slot>, o: Observation, now: int, slot: Option<Slot>)
      requires Wired() && Settled() && |o.payload| <= LENGTH_OF_ADVERTISEMENT
      requires found.Some? ==> found.value in mem && Buffers(mem[found.value])
      requires found.None? && slot.Some? ==> slot.value !in mem
      modifies this`nodes, this`mem, this`world, world.circles.Keys
      ensures Wired() && Settled() && fresh(world.circles.Keys - old(world.circles.Keys))
      ensures Abs() == Noted(old(Abs()), found, o, now, slot)
    {
      if found.Some? {
        UpdateNode(found.value, o, now);
      } else if slot.Some? {
        NewBrEdr(slot.value, NewDevice(o, now));
      }
    }

    /** A new record, first on the scanned list and last on the BR/EDR list. */
    method NewBrEdr(x: Slot, d: Device)
      requires Wired() && Settled() && x !in mem
      modifies this`nodes, this`mem, this`world, world.circles.Keys
      ensures Wired() && Settled() && fresh(world.circles.Keys - old(world.circles.Keys))
      ensures Abs() == InsertBr(old(Abs()), x, d)
    {
      NewRecord(x, d);
      InsertFirst(nodes[x].sc, heads.scanned, Scanned, x);
      InsertLast(nodes[x].tr, heads.br, Br, x);
    }

    /** The fields of a record that is sighted again, one after the other. */
    method UpdateNode(x: Slot, o: Observation, now: int)
      requires Wired() && x in mem && Buffers(mem[x]) && |o.payload| <= LENGTH_OF_ADVERTISEMENT
      modifies this`mem
      ensures Wired() && mem == old(mem)[x := Merge(old(mem)[x], o, now)]
    {
      var d := mem[x].(final := now);
      d := d.(payloadNeeded := o.payloadNeeded);
      d := d.(scanRspNeeded := o.scanRspNeeded);
      if o.payloadNeeded {
        d := d.(payload := Overwrite(d.payload, o.payload));
        d := d.(payloadLength := |o.payload|);
      }
      if o.button == 1 {
        d := d.(button := o.button);
      }
      d := d.(battery := o.battery);
      if o.rssi > d.rssi {
        d := d.(rssi := o.rssi);
      }
      mem := mem[x := d];
    }

    /** `send_to_push_dongle_scan_rsp` for a BLE device. */
    method SendToPushDongleScanRsp(mac: string, data: seq<byte>)
      requires Valid() && |mac| < LENGTH_OF_MAC_ADDRESS && |data| <= LENGTH_OF_ADVERTISEMENT
      modifies this`mem
      ensures Valid() && Abs() == ScanResponse(old(Abs()), mac, data)
    {
      SoundParts(Abs());
      ScanResponseSound(Abs(), mac, data);
      var found := CheckBleList(mac);
      if found.Some? {
        RespondNode(found.value, data);
      }
    }

    /** The scan response of a record is kept if it was asked for. */
    method RespondNode(x: Slot, data: seq<byte>)
      requires Wired() && Listed(Abs()) && x in mem && Buffers(mem[x]) && |data| <= LENGTH_OF_ADVERTISEMENT
      modifies this`mem
      ensures Wired() && world == old(world)
      ensures var d := old(mem)[x];
              mem == if d.scanRspNeeded
                     then old(mem)[x := d.(scanRsp := Overwrite(d.scanRsp, data), scanRspLength := |data|)]
                     else old(mem)
    {
      var d := mem[x];
      if d.scanRspNeeded {
        mem := mem[x := d.(scanRsp := Overwrite(d.scanRsp, data), scanRspLength := |data|)];
      }
    }

    // ----- Upload

    /** The record text: the two buffers are printed into local character buffers of 65. */
    method RecordText(x: Slot) returns (text: string)
      requires x in mem && Buffers(mem[x]) && Printable(mem[x])
      ensures text == Record(mem[x])
    {
      var d := mem[x];
      var hexPayload, hexScanRsp := "", "";
      if d.payloadNeeded {
        hexPayload := PrintBuffer(d.payload, d.payloadLength);
        hexScanRsp := PrintBuffer(d.scanRsp, d.scanRspLength);
      }
      SevenFields(Parts(d));
      text := d.mac + ";" + Dec(d.initial) + ";" + Dec(d.final) + ";" + Dec(d.rssi) + ";" + Dec(d.button) + ";"
            + Dec(d.battery) + ";" + hexPayload + hexScanRsp + ";";
    }

    method PrintBuffer(buffer: seq<byte>, length: nat) returns (text: string)
      requires length <= |buffer| && 2 * length + 1 <= LENGTH_OF_ADVERTISEMENT
      ensures text == Hex.Text(buffer[..length])
    {
      var out := new char[LENGTH_OF_ADVERTISEMENT];
      Hex.Print(buffer, length, out);
      text := out[..2 * length];
    }

    /** The first pass over the detached records: the number that goes into the header. */
    method CountSendable(n: nat) returns (count: int)
      requires Wired() && n == |world.shape.at.local| && forall x <- world.shape.at.local :: x in mem
      ensures count == |Sendable(mem, world.shape.at.local)|
    {
      count := n;
      ghost var ids, i := world.shape.at.local, 0;
      assert ids[..0] == [];
      StartHere(Local);
      var p := heads.local.next;
      while p != heads.local
        invariant i <= |ids| && Here(p, Local, i)
        invariant count == |ids| - i + |Sendable(mem, ids[..i])|
        decreases |ids| - i
      {
        NextHere(p, Local, i);
        SendableNext(mem, ids, i);
        if Incomplete(mem[p.owner.slot]) {
          count := count - 1;
        }
        p := p.next;
        i := i + 1;
      }
      NextHere(p, Local, i);
      assert ids[..i] == ids;
    }

    /** The second pass: the records, appended one by one. */
    method AppendRecords(header: string) returns (text: string)
      requires Wired() && AllPrintable(mem, world.shape.at.local)
      ensures text == header + SentText(mem, world.shape.at.local)
    {
      text := header;
      ghost var ids, i := world.shape.at.local, 0;
      NothingSent(mem, ids, header);
      StartHere(Local);
      var p := heads.local.next;
      while p != heads.local
        invariant i <= |ids| && Here(p, Local, i)
        invariant text == header + SentText(mem, ids[..i])
        decreases |ids| - i
      {
        NextHere(p, Local, i);
        text := AppendRecord(p.owner.slot, text, header, ids, i);
        p := p.next;
        i := i + 1;
      }
      NextHere(p, Local, i);
      assert ids[..i] == ids;
    }

    method AppendRecord(x: Slot, text: string, ghost header: string, ghost ids: seq<Slot>, ghost i: nat)
      returns (longer: string)
      requires AllPrintable(mem, ids) && i < |ids| && x == ids[i]
      requires text == header + SentText(mem, ids[..i])
      ensures longer == header + SentText(mem, ids[..i + 1])
    {
      assert ids[..i + 1] == ids[..i] + [x];
      SentTextNext(mem, ids[..i], x);
      longer := text;
      if !Incomplete(mem[x]) {
        var record := RecordText(x);
        Regroup(header, SentText(mem, ids[..i]), record);
        longer := text + record;
      }
    }

    /** Header and records. */
    method MessageText(kind: Kind, n: nat) returns (text: string)
      requires Wired() && n == |world.shape.at.local|
      requires AllPrintable(mem, world.shape.at.local)
      ensures text == Message(kind, mem, world.shape.at.local)
      ensures ToldIn(text, kind, mem, world.shape.at.local, n)
    {
      var count := CountSendable(n);
      text := AppendRecords(Dec(KindNumber(kind)) + ";" + Dec(count) + ";");
      SentTextIsRecords(mem, world.shape.at.local);
      MessageTold(kind, mem, world.shape.at.local, n);
    }

    /** A detached record leaves the local list.  If it is of the BLE list it goes back to the pool; if
        it is of the BR/EDR list it does so if its other entry is isolated. */
    method ReleaseNode(kind: Kind, e: Link, ghost ids: seq<Slot>, ghost i: nat, ghost mem0: map<Slot, Device>,
                       ghost returned0: seq<Slot>)
      requires Wired() && world.shape.lost == {} && i < |ids| && world.shape.at.local == ids[i..] && Here(e, Local, 0)
      requires ids[i] !in Abs().br && ids[i] !in Abs().ble && (kind == Ble ==> ids[i] !in Abs().scanned)
      requires var freed := Freed(kind, Abs().scanned, ids[..i]);
               mem == mem0 - ToSet(freed) && returned == returned0 + freed
      modifies this, world.circles.Keys
      ensures Wired() && world.shape.lost == {} && world.circles.Keys <= old(world.circles.Keys)
      ensures world.shape.at.local == ids[i + 1..] && Here(old(e.next), Local, 0)
      ensures Abs().scanned == old(Abs()).scanned && Abs().br == old(Abs()).br && Abs().ble == old(Abs()).ble
      ensures var freed := Freed(kind, Abs().scanned, ids[..i + 1]);
              mem == mem0 - ToSet(freed) && returned == returned0 + freed
    {
      ghost var r, scanned, x := returned, Abs().scanned, ids[i];
      assert ids[i..][0] == x && ids[i..][1..] == ids[i + 1..] && ids[..i + 1] == ids[..i] + [x];
      FreedNext(kind, scanned, ids[..i], x, mem0);
      ReleaseFirst(kind, e);
      Associates(returned0, Freed(kind, scanned, ids[..i]), if kind == Ble || x !in scanned then [x] else []);
    }

    /** The first record of the local list, whose entry is `e`. */
    method ReleaseFirst(kind: Kind, e: Link)
      requires Wired() && world.shape.lost == {} && world.shape.at.local != [] && Here(e, Local, 0)
      requires var x := world.shape.at.local[0];
               x !in Abs().br && x !in Abs().ble && (kind == Ble ==> x !in Abs().scanned)
      modifies this, world.circles.Keys
      ensures Wired() && world.shape.lost == {} && world.circles.Keys <= old(world.circles.Keys)
      ensures world.shape.at == old(world.shape.at).(local := old(world.shape.at.local)[1..])
              && Here(old(e.next), Local, 0)
      ensures var x := old(world.shape.at.local)[0];
              && mem == (if kind == Ble || x !in Abs().scanned then old(mem) - {x} else old(mem))
              && returned == old(returned) + if kind == Ble || x !in Abs().scanned then [x] else []
    {
      InUse(world, Local);
      NextHere(e, Local, 0);
      WithoutFirst(world.shape.at.local);
      var x := e.owner.slot;
      ghost var next := e.next;
      RemoveHere(e, Local, 0, x);
      FreeIfDone(kind, x, next);
    }

    /** The record goes back to the pool unless it is on the scanned list; `next` stays the first entry
        of the local list. */
    method FreeIfDone(kind: Kind, x: Slot, ghost next: Link)
      requires Wired() && x in nodes && x !in world.shape.lost && !Linked(world.shape.at, Br, x)
      requires kind == Ble ==> x !in Abs().scanned
      requires Here(next, Local, 0)
      modifies this
      ensures Wired() && world.circles.Keys <= old(world.circles.Keys)
      ensures Here(next, Local, 0)
      ensures world.shape == old(world.shape).(nodes := nodes)
      ensures nodes == if kind == Ble || x !in Abs().scanned then old(nodes) - {x} else old(nodes)
      ensures mem == if kind == Ble || x !in Abs().scanned then old(mem) - {x} else old(mem)
      ensures returned == old(returned) + if kind == Ble || x !in Abs().scanned then [x] else []
    {
      if kind == Ble {
        FreeBehind(x, next, Local, 0);
      } else {
        var isolated := Isolated(nodes[x].sc, Scanned, x);
        if isolated {
          FreeBehind(x, next, Local, 0);
        }
      }
    }

    /** The last pass over the detached records. */
    method ReleaseDetached(kind: Kind)
      requires Wired() && world.shape.lost == {}
      requires forall x <- world.shape.at.local ::
                 x !in Abs().br && x !in Abs().ble && (kind == Ble ==> x !in Abs().scanned)
      modifies this, world.circles.Keys
      ensures Wired() && Settled() && world.circles.Keys <= old(world.circles.Keys)
      ensures var freed := Freed(kind, old(Abs()).scanned, old(world.shape.at.local));
              Abs() == Release(old(Abs()), freed) && returned == old(returned) + freed
    {
      ghost var s0, mem0, returned0, ids, i := Abs(), mem, returned, world.shape.at.local, 0;
      assert ids[..0] == [] && ids[0..] == ids && mem - ToSet([]) == mem;
      StartHere(Local);
      var p := heads.local.next;
      var save := p.next;
      while p != heads.local
        invariant Wired() && world.shape.lost == {} && world.circles.Keys <= old(world.circles.Keys)
        invariant i <= |ids| && world.shape.at.local == ids[i..] && Here(p, Local, 0) && save == p.next
        invariant Abs().scanned == s0.scanned && Abs().br == s0.br && Abs().ble == s0.ble
        invariant var freed := Freed(kind, s0.scanned, ids[..i]);
                  mem == mem0 - ToSet(freed) && returned == returned0 + freed
        decreases |ids| - i
      {
        NextHere(p, Local, 0);
        ReleaseNode(kind, p, ids, i, mem0, returned0);
        i := i + 1;
        p := save;
        save := p.next;
      }
      NextHere(p, Local, 0);
      assert ids[..i] == ids;
    }

    /** The records that the budget admits are cut off their list; if it admits none of a list that is
        not empty, the first record is lost. */
    method CutOff(kind: Kind, budget: int) returns (n: nat)
      requires Valid()
      modifies this`world, world.circles.Keys
      ensures Wired() && world.circles.Keys <= old(world.circles.Keys) && world.shape.nodes == old(world.shape.nodes)
      ensures n == TrackedRing.Admitted(PayloadLengths(mem, ListOf(old(Abs()), kind)), budget)
      ensures var list := ListOf(old(Abs()), kind);
              if n == 0 && list != []
              then && Abs() == Detached(old(Abs()), kind, 1) && world.shape.lost == {list[0]}
                   && world.shape.at.local == []
                   && nodes[list[0]].tr.next != nodes[list[0]].tr
              else Abs() == Detached(old(Abs()), kind, n) && world.shape.lost == {} && world.shape.at.local == list[..n]
    {
      var len := LengthsIn(mem);
      ghost var w := WhichOf(kind);
      InUse(world, w);
      OwnerLengths(world, w, mem);
      var list := if kind == BrEdr then heads.br else heads.ble;
      n, world := DeviceRings.Detach(list, heads.local, budget, len, world, w);
    }

    /** `consolidate_tracked_data`.  With a budget that admits a record, or on an empty list, the
        records admitted are uploaded; otherwise nothing is uploaded and the first record is lost: it
        is on no list, but its second entry does not look isolated. */
    method Consolidate(kind: Kind, budget: int) returns (text: string)
      requires Valid() && forall x <- ListOf(Abs(), kind) :: Printable(mem[x])
      modifies this, world.circles.Keys
      ensures world.circles.Keys <= old(world.circles.Keys)
      ensures var list := ListOf(old(Abs()), kind);
              var n := TrackedRing.Admitted(PayloadLengths(old(mem), list), budget);
              && text == MessageOf(kind, old(mem), list, n)
              && ToldIn(text, kind, old(mem), list, n)
              && if list == [] || budget > TrackedRing.MAX_LENGTH_RESP_DEVICE_INFO
                 then Valid() && Abs() == Upload(old(Abs()), kind, n).0
                      && returned == old(returned) + Upload(old(Abs()), kind, n).1
                 else && Wired() && Abs() == Detached(old(Abs()), kind, 1) && returned == old(returned)
                      && world.shape.lost == {list[0]}
                      && list[0] in nodes && nodes[list[0]].tr.next != nodes[list[0]].tr
    {
      ghost var list := ListOf(Abs(), kind);
      MessageTold(kind, mem, list, TrackedRing.Admitted(PayloadLengths(mem, list), budget));
      text := CutAndSend(kind, budget);
    }

    /** The list is cut, written and released. */
    method CutAndSend(kind: Kind, budget: int) returns (text: string)
      requires Valid() && forall x <- ListOf(Abs(), kind) :: Printable(mem[x])
      modifies this, world.circles.Keys
      ensures world.circles.Keys <= old(world.circles.Keys)
      ensures var list := ListOf(old(Abs()), kind);
              var n := TrackedRing.Admitted(PayloadLengths(old(mem), list), budget);
              && text == MessageOf(kind, old(mem), list, n)
              && if list == [] || budget > TrackedRing.MAX_LENGTH_RESP_DEVICE_INFO
                 then Valid() && Abs() == Upload(old(Abs()), kind, n).0
                      && returned == old(returned) + Upload(old(Abs()), kind, n).1
                 else && Wired() && Abs() == Detached(old(Abs()), kind, 1) && returned == old(returned)
                      && world.shape.lost == {list[0]}
                      && list[0] in nodes && nodes[list[0]].tr.next != nodes[list[0]].tr
    {
      ghost var s0 := Abs();
      EmptyMessage(s0, kind);
      InUse(world, WhichOf(kind));
      var n := CutOff(kind, budget);
      if n == 0 {
        text := Dec(KindNumber(kind)) + ";" + Dec(n) + ";";
        return;
      }
      UploadSound(s0, kind, n);
      text := UploadDetached(kind, n, s0);
    }

    /** The local list is written and released. */
    method UploadDetached(kind: Kind, n: nat, ghost s0: Store) returns (text: string)
      requires Sound(s0) && n <= |ListOf(s0, kind)| && forall x <- ListOf(s0, kind) :: Printable(s0.devices[x])
      requires Wired() && Abs() == Detached(s0, kind, n) && world.shape.lost == {}
               && world.shape.at.local == ListOf(s0, kind)[..n]
      modifies this, world.circles.Keys
      ensures Wired() && Settled() && world.circles.Keys <= old(world.circles.Keys)
      ensures text == MessageOf(kind, s0.devices, ListOf(s0, kind), n)
      ensures Abs() == Upload(s0, kind, n).0 && returned == old(returned) + Upload(s0, kind, n).1
    {
      SoundParts(s0);
      UploadInSteps(s0, kind, n);
      DetachedApart(s0, kind, n);
      text := MessageText(kind, n);
      ReleaseDetached(kind);
    }

    // ----- Clean-up

    /** One turn of the clean-up loop: a BR/EDR record leaves both of its lists. */
    method CleanupNode(which: Which, e: Link, ghost q: Cleaning, ghost i: nat)
      requires Wired() && Settled() && q.which == which != Local && Here(e, q.which, 0) && Ownership(q.before)
      requires i < |CleanedIds(q)| && Cleans(q, i, Abs(), returned)
      modifies this, world.circles.Keys
      ensures Wired() && Settled() && world.circles.Keys <= old(world.circles.Keys) && Here(old(e.next), q.which, 0)
      ensures Cleans(q, i + 1, Abs(), returned)
    {
      ghost var s, r := Abs(), returned;
      CleansNext(q, i, s, r);
      CleanupFirst(which, e);
      CleansDone(q, i, s, r, Abs());
    }

    /** The first record of the list, whose entry is `e`. */
    method CleanupFirst(which: Which, e: Link)
      requires Wired() && Settled() && which != Local && On(world.shape.at, which) != [] && Here(e, which, 0)
      requires var x := On(world.shape.at, which)[0];
               if which == BleList then x !in Abs().scanned && x !in Abs().br else x !in Abs().ble
      modifies this, world.circles.Keys
      ensures Wired() && Settled() && world.circles.Keys <= old(world.circles.Keys)
      ensures On(world.shape.at, which) == On(old(world.shape.at), which)[1..] && Here(old(e.next), which, 0)
      ensures var x := On(old(world.shape.at), which)[0];
              Abs() == Tidied(old(Abs()), which, x) && returned == old(returned) + [x]
    {
      InUse(world, which);
      NextHere(e, which, 0);
      WithoutFirst(On(world.shape.at, which));
      Dispose(which, e, e.owner.slot);
    }

    method Dispose(which: Which, e: Link, x: Slot)
      requires Wired() && Settled() && which != Local && On(world.shape.at, which) != []
               && x == On(world.shape.at, which)[0]
      requires Here(e, which, 0) && x in nodes
      requires if which == BleList then x !in Abs().scanned && x !in Abs().br else x !in Abs().ble
      modifies this, world.circles.Keys
      ensures Wired() && Settled() && world.circles.Keys <= old(world.circles.Keys) && Here(old(e.next), which, 0)
      ensures Abs() == Tidied(old(Abs()), which, x) && returned == old(returned) + [x]
      ensures On(world.shape.at, which) == Without(On(old(world.shape.at), which), x)
    {
      ghost var next := e.next;
      TakenOffNowhere(world.shape.at, which, x);
      TakeFromBoth(which, e, x);
      FreeBehind(x, next, which, 0);
    }

    /** The record leaves the list and, if it is of the BR/EDR device type, the other list. */
    method TakeFromBoth(which: Which, e: Link, x: Slot)
      requires Wired() && Settled() && which != Local && On(world.shape.at, which) != []
               && x == On(world.shape.at, which)[0]
      requires Here(e, which, 0) && x in nodes
      requires if which == BleList then x !in Abs().scanned && x !in Abs().br else x !in Abs().ble
      modifies this`world, world.circles.Keys
      ensures Wired() && world.circles.Keys == old(world.circles.Keys) && Here(old(e.next), which, 0)
      ensures world.shape == old(world.shape).(at := TakenOff(old(world.shape.at), which, x))
    {
      ghost var next := e.next;
      RemoveHere(e, which, 0, x);
      match which {
        case Scanned => TakeFromOther(nodes[x].tr, Br, x, next, which);
        case Br => TakeFromOther(nodes[x].sc, Scanned, x, next, which);
        case BleList =>
        case Local =>
      }
    }

    /** The record leaves the other list if that entry is not isolated; `next` stays the first entry of
        list `first`. */
    method TakeFromOther(e: Link, ghost w: Which, ghost x: Slot, ghost next: Link, ghost first: Which)
      requires Wired() && Settled() && (w == Scanned || w == Br) && w != first && x in nodes && e == LinkOf(nodes, w, x)
      requires w == Br ==> x !in Abs().ble
      requires Here(next, first, 0)
      modifies this`world, world.circles.Keys
      ensures Wired() && world.circles.Keys == old(world.circles.Keys)
      ensures var at := old(world.shape.at);
              world.shape == old(world.shape).(at := With(at, w, Without(On(at, w), x)))
      ensures Here(next, first, 0)
    {
      MinusNothing(if x in On(world.shape.at, w) then [] else On(world.shape.at, w), [x]);
      var isolated := Isolated(e, w, x);
      if !isolated {
        RemoveFrom(e, w, x);
      }
    }

    /** The loop of `cleanup_lists`. */
    method CleanupLoop(head: Link, which: Which, ghost q: Cleaning)
      requires Wired() && Settled() && q.which == which != Local && head == HeadOf(heads, q.which)
      requires Ownership(Abs()) && q.before == Abs() && q.returned == returned
      modifies this, world.circles.Keys
      ensures Wired() && Settled() && world.circles.Keys <= old(world.circles.Keys)
      ensures Cleans(q, |CleanedIds(q)|, Abs(), returned)
    {
      ghost var i := 0;
      CleansStart(q);
      StartHere(q.which);
      var p := head.next;
      var save := p.next;
      while p != head
        invariant Wired() && Settled() && world.circles.Keys <= old(world.circles.Keys)
        invariant i <= |CleanedIds(q)| && Cleans(q, i, Abs(), returned) && Here(p, q.which, 0) && save == p.next
        decreases |CleanedIds(q)| - i
      {
        LeftToClean(q, i, Abs(), returned);
        NextHere(p, q.which, 0);
        CleanupNode(which, p, q, i);
        i := i + 1;
        p := save;
        save := p.next;
      }
      LeftToClean(q, i, Abs(), returned);
      NextHere(p, q.which, 0);
    }

    /** `cleanup_lists` on one of the three lists. */
    method CleanupLists(head: Link, which: Which)
      requires Valid() && which != Local && head == HeadOf(heads, which)
      modifies this, world.circles.Keys
      ensures Valid() && world.circles.Keys <= old(world.circles.Keys)
      ensures Abs() == Cleanup(old(Abs()), which).0
      ensures returned == old(returned) + Cleanup(old(Abs()), which).1
    {
      SoundParts(Abs());
      CleanupSound(Abs(), which);
      ghost var q := Cleaning(which, Abs(), returned);
      CleanupLoop(head, which, q);
      CleansAll(q, Abs(), returned);
    }
  }

  function PayloadOf(m: map<Slot, Device>, o: Owner): int {
    if !o.ListHead? && o.slot in m then m[o.slot].payloadLength else 0
  }

  function LengthsIn(m: map<Slot, Device>): Owner -> int {
    (o: Owner) => PayloadOf(m, o)
  }

  function WhichOf(kind: Kind): Which {
    match kind
    case BrEdr => Br
    case Ble => BleList
  }

  /** The payload lengths read off the entries of a list. */
  lemma OwnerLengths(p: World, w: Which, m: map<Slot, Device>)
    requires Live(p) && w != Scanned && p.shape.nodes.Keys == m.Keys
    ensures forall x <- On(p.shape.at, w) :: x in p.shape.nodes && x in m
    ensures TrackedRing.Lengths(Links(p.shape.nodes, w, On(p.shape.at, w)), LengthsIn(m))
         == PayloadLengths(m, On(p.shape.at, w))
  {
    LiveParts(p);
    ProperParts(p);
  }

  /** The records cut off are on no other list than the scanned list. */
  lemma DetachedApart(s: Store, kind: Kind, n: nat)
    requires Ownership(s) && n <= |ListOf(s, kind)|
    ensures var r := Detached(s, kind, n);
            forall x <- ListOf(s, kind)[..n] ::
              x in ListOf(s, kind) && x !in r.br && x !in r.ble && (kind == Ble ==> x !in r.scanned)
  {
    PartsApart(ListOf(s, kind), n);
  }

  /** A record still to be cleaned up is on no list that is not cleaned with it. */
  lemma CleanedApart(s: Store, which: Which, ids: seq<Slot>, i: nat)
    requires Ownership(s) && which != Local && ids == NodesOf(s, which) && i < |ids|
    ensures var q := Cleaned(s, which, ids, i);
            if which == BleList then ids[i] !in q.scanned && ids[i] !in q.br else ids[i] !in q.ble
  {
  }

  /** A BR/EDR sighting after the search. */
  function Noted(r: Store, found: Option<Slot>, o: Observation, now: int, slot: Option<Slot>): Store
    requires |o.payload| <= LENGTH_OF_ADVERTISEMENT
    requires found.Some? ==> found.value in r.devices && Buffers(r.devices[found.value])
  {
    match found
    case Some(x) => r.(devices := r.devices[x := Merge(r.devices[x], o, now)])
    case None => if slot.Some? then InsertBr(r, slot.value, NewDevice(o, now)) else r
  }

  lemma ObserveBrCases(s: Store, o: Observation, clock: seq<int>, now: int, slot: Option<Slot>)
    requires Listed(s) && |clock| >= |s.scanned| && |o.payload| <= LENGTH_OF_ADVERTISEMENT
    ensures var (r, found, freed) := CheckScanned(s, o.mac, clock);
            && (found.Some? ==> found.value in r.devices && Buffers(r.devices[found.value]))
            && ObserveBr(s, o, clock, now, slot) == (Noted(r, found, o, now, slot), freed)
  {
    if CheckScanned(s, o.mac, clock).1.Some? {
      FoundStays(s, o.mac, clock);
    }
  }

  /** None of the first `i` records has the address. */
  ghost predicate NotAmong(devices: map<Slot, Device>, ids: seq<Slot>, mac: string, i: nat)
    requires i <= |ids| && forall x <- ids :: x in devices
  {
    forall j :: 0 <= j < i ==> devices[ids[j]].mac != mac
  }

  lemma {:induction false} FirstFound(devices: map<Slot, Device>, ids: seq<Slot>, mac: string, i: nat)
    requires i <= |ids| && (forall x <- ids :: x in devices) && NotAmong(devices, ids, mac, i)
    requires i < |ids| ==> devices[ids[i]].mac == mac
    ensures FindMac(devices, ids, mac) == if i < |ids| then Some(ids[i]) else None
  {
    if i > 0 {
      FirstFound(devices, ids[1..], mac, i - 1);
    }
  }

  // ----- The pass over the scanned list

  datatype Effect = OnLists | OnRecords | OnSlots

  /** A search: the lists and the slots handed back when it begins, the address and the clock. */
  datatype Search = Search(before: Store, returned: seq<Slot>, mac: string, clock: seq<int>)

  /** The clock can be read for every node and the lists are sound. */
  ghost predicate Possible(q: Search) {
    && |q.before.scanned| <= |q.clock| && |q.mac| < LENGTH_OF_MAC_ADDRESS
    && forall owned :: PossibleSo(q, owned)
  }

  ghost predicate PossibleSo(q: Search, owned: bool) {
    if owned then Ownership(q.before) else Listed(q.before) && Terminated(q.before)
  }

  lemma PossibleParts(q: Search)
    requires Possible(q)
    ensures Ownership(q.before) && Listed(q.before) && Terminated(q.before)
  {
    assert PossibleSo(q, true) && PossibleSo(q, false);
  }

  /** Node `j` has expired when the clock is read for it. */
  ghost predicate Late(q: Search, j: nat)
    requires Possible(q) && j < |q.before.scanned|
  {
    PossibleParts(q);
    Expired(q.before.devices[q.before.scanned[j]], q.clock[j])
  }

  /** Node `j` has the address. */
  ghost predicate Matching(q: Search, j: nat)
    requires Possible(q) && j < |q.before.scanned|
  {
    PossibleParts(q);
    q.before.devices[q.before.scanned[j]].mac == q.mac
  }

  /** The pass goes by the first `k` nodes: they are within the interval and have other addresses. */
  ghost predicate Passed(q: Search, k: nat)
    requires Possible(q) && k <= |q.before.scanned|
  {
    forall j: nat :: j < k ==> !Late(q, j) && !Matching(q, j)
  }

  /** The pass ends at place `k`: at an expired node, at one with the address, or behind the last. */
  ghost predicate Stops(q: Search, k: nat, removing: bool, found: Option<Slot>)
    requires Possible(q) && k <= |q.before.scanned|
  {
    var n := |q.before.scanned|;
    && Passed(q, k)
    && removing == (k < n && Late(q, k))
    && (k < n && !removing ==> Matching(q, k))
    && found == if k < n && !removing then Some(q.before.scanned[k]) else None
  }

  /** The nodes from place `k` up to place `i` have left: what that means for the lists, for the
      records and for the slots handed back. */
  ghost predicate SweptSo(q: Search, k: nat, i: nat, s: Store, returned: seq<Slot>, effect: Effect)
    requires k <= i <= |q.before.scanned|
  {
    var ids, br := q.before.scanned, q.before.br;
    match effect
    case OnLists => s.scanned == ids[..k] + ids[i..] && s.br == br && s.ble == q.before.ble
    case OnRecords => RemoveAll(s, ids[i..]) == RemoveAll(q.before, ids[k..])
    case OnSlots => returned + Gone(ids[i..], br) == q.returned + Gone(ids[k..], br)
  }

  ghost predicate Sweeping(q: Search, k: nat, i: nat, s: Store, returned: seq<Slot>)
    requires k <= i <= |q.before.scanned|
  {
    forall effect :: SweptSo(q, k, i, s, returned, effect)
  }

  lemma SweptParts(q: Search, k: nat, i: nat, s: Store, returned: seq<Slot>)
    requires k <= i <= |q.before.scanned|
    ensures Sweeping(q, k, i, s, returned) <==>
              && SweptSo(q, k, i, s, returned, OnLists) && SweptSo(q, k, i, s, returned, OnRecords)
              && SweptSo(q, k, i, s, returned, OnSlots)
  {
  }

  lemma SweepingStarts(q: Search, k: nat)
    requires k <= |q.before.scanned|
    ensures Sweeping(q, k, k, q.before, q.returned)
  {
    assert q.before.scanned == q.before.scanned[..k] + q.before.scanned[k..];
  }

  /** The `i`-th node is the next to leave. */
  lemma SweepingNext(q: Search, k: nat, i: nat, s: Store, returned: seq<Slot>)
    requires k <= i < |q.before.scanned| && NoDup(s.scanned)
    requires if i == k then s == q.before && returned == q.returned else Sweeping(q, k, i, s, returned)
    ensures var x := q.before.scanned[i];
            && x in s.scanned && k < |s.scanned| && s.scanned[k] == x && s.br == q.before.br && s.ble == q.before.ble
            && Sweeping(q, k, i + 1, RemoveOne(s, x), returned + if x in s.br then [] else [x])
  {
    var ids, x := q.before.scanned, q.before.scanned[i];
    if i == k { SweepingStarts(q, k); }
    SweptParts(q, k, i, s, returned);
    TakenOut(ids, k, i);
    WithoutAt(s.scanned, k);
    RemoveRest(s, ids, i);
    Associates(returned, if x in s.br then [] else [x], Gone(ids[i + 1..], s.br));
    SweptParts(q, k, i + 1, RemoveOne(s, x), returned + if x in s.br then [] else [x]);
  }

  /** Where the pass stands when it comes to node `i`: what it has passed, and what it has done. */
  ghost predicate StandsSo(q: Search, k: nat, i: nat, removing: bool, s: Store, returned: seq<Slot>, effect: Effect)
    requires Possible(q) && k <= i <= |q.before.scanned|
  {
    match effect
    case OnLists =>
      Passed(q, k) && removing == (k < i) && (removing ==> Late(q, k))
    case OnRecords => if removing then Sweeping(q, k, i, s, returned) else s == q.before
    case OnSlots => removing || returned == q.returned
  }

  ghost predicate Stands(q: Search, k: nat, i: nat, removing: bool, s: Store, returned: seq<Slot>)
    requires Possible(q) && k <= i <= |q.before.scanned|
  {
    forall effect :: StandsSo(q, k, i, removing, s, returned, effect)
  }

  lemma StandsParts(q: Search, k: nat, i: nat, removing: bool, s: Store, returned: seq<Slot>)
    requires Possible(q) && k <= i <= |q.before.scanned|
    ensures Stands(q, k, i, removing, s, returned) <==>
              && Passed(q, k) && removing == (k < i)
              && (removing ==> Late(q, k) && Sweeping(q, k, i, s, returned))
              && (!removing ==> s == q.before && returned == q.returned)
  {
    assert Stands(q, k, i, removing, s, returned) ==>
      && StandsSo(q, k, i, removing, s, returned, OnLists) && StandsSo(q, k, i, removing, s, returned, OnRecords)
      && StandsSo(q, k, i, removing, s, returned, OnSlots);
  }

  /** The list during the pass. */
  lemma LeftOnList(q: Search, k: nat, i: nat, removing: bool, s: Store, returned: seq<Slot>)
    requires Possible(q) && k <= i <= |q.before.scanned| && Stands(q, k, i, removing, s, returned)
    ensures |s.scanned| == k + |q.before.scanned| - i
    ensures i < |q.before.scanned| ==> s.scanned[k] == q.before.scanned[i]
  {
    StandsParts(q, k, i, removing, s, returned);
    if removing {
      SweptParts(q, k, i, s, returned);
    }
  }

  /** The pass is over: node `i` has the address, or there is no further node. */
  ghost predicate Ends(q: Search, k: nat, i: nat, removing: bool, found: Option<Slot>, s: Store, returned: seq<Slot>)
    requires Possible(q) && k <= i <= |q.before.scanned|
  {
    && Stands(q, k, i, removing, s, returned)
    && if i == |q.before.scanned| then found == None
       else !removing && found == Some(q.before.scanned[i]) && Matching(q, i) && !Late(q, i)
  }

  lemma StopsWhereItEnds(q: Search, k: nat, i: nat, removing: bool, found: Option<Slot>, s: Store, returned: seq<Slot>)
    requires Possible(q) && k <= i <= |q.before.scanned| && Ends(q, k, i, removing, found, s, returned)
    ensures Stops(q, k, removing, found) && i == if removing then |q.before.scanned| else k
  {
    StandsParts(q, k, i, removing, s, returned);
  }

  /** What the pass has done when it is over is what the specification says at once. */
  lemma SweepOutcome(q: Search, k: nat, i: nat, removing: bool, found: Option<Slot>, s: Store, returned: seq<Slot>)
    requires Possible(q) && k <= i <= |q.before.scanned| && Ends(q, k, i, removing, found, s, returned)
    ensures Listed(q.before)
    ensures (s, found, returned) == Result(q, CheckScanned(q.before, q.mac, q.clock))
  {
    StopsWhereItEnds(q, k, i, removing, found, s, returned);
    StandsParts(q, k, i, removing, s, returned);
    if removing {
      Removed(q, k, s, returned);
    }
    StoppedResult(q, k);
  }

  /** The result of a search with the slots handed back before. */
  function Result(q: Search, r: (Store, Option<Slot>, seq<Slot>)): (Store, Option<Slot>, seq<Slot>) {
    (r.0, r.1, q.returned + r.2)
  }

  lemma Removed(q: Search, k: nat, s: Store, returned: seq<Slot>)
    requires k <= |q.before.scanned| && Sweeping(q, k, |q.before.scanned|, s, returned)
    ensures s == RemoveAll(q.before, q.before.scanned[k..])
    ensures returned == q.returned + Gone(q.before.scanned[k..], q.before.br)
  {
    var n := |q.before.scanned|;
    SweptParts(q, k, n, s, returned);
    assert q.before.scanned[n..] == [];
  }

  /** The specification in terms of the place where the pass stops. */
  lemma StoppedResult(q: Search, k: nat)
    requires Possible(q) && k <= |q.before.scanned| && Passed(q, k)
    requires k < |q.before.scanned| ==> Late(q, k) || Matching(q, k)
    ensures Listed(q.before)
    ensures var ids, r := q.before.scanned, Result(q, CheckScanned(q.before, q.mac, q.clock));
            r == if k == |ids| then (q.before, None, q.returned)
                 else if Late(q, k)
                 then (RemoveAll(q.before, ids[k..]), None, q.returned + Gone(ids[k..], q.before.br))
                 else (q.before, Some(ids[k]), q.returned)
  {
    PossibleParts(q);
    StopAt(q, k, 0);
    SweepResult(q.before, q.mac, q.clock, k);
    var ids, c := q.before.scanned, CheckScanned(q.before, q.mac, q.clock);
    if k < |ids| && Late(q, k) {
      ResultIs(q, c, RemoveAll(q.before, ids[k..]), None, Gone(ids[k..], q.before.br));
    } else {
      ResultIs(q, c, q.before, if k < |ids| then Some(ids[k]) else None, []);
    }
  }

  lemma ResultIs(q: Search, c: (Store, Option<Slot>, seq<Slot>), s: Store, found: Option<Slot>, freed: seq<Slot>)
    requires c == (s, found, freed)
    ensures Result(q, c) == (s, found, q.returned + freed)
    ensures freed == [] ==> Result(q, c) == (s, found, q.returned)
  {
    assert q.returned + [] == q.returned;
  }

  lemma Associates(a: seq<Slot>, b: seq<Slot>, c: seq<Slot>)
    ensures (a + b) + c == a + (b + c)
  {
  }

  /** What is left when the nodes from place `k` up to place `i` are gone. */
  lemma TakenOut(ids: seq<Slot>, k: nat, i: nat)
    requires k <= i <= |ids|
    ensures var left := ids[..k] + ids[i..];
            && |left| == k + |ids| - i
            && (i < |ids| ==> left[k] == ids[i] && ids[i] in left)
            && (i < |ids| ==> left[..k] + left[k + 1..] == ids[..k] + ids[i + 1..])
            && (k == i ==> left == ids)
  {
  }

  lemma RemoveRest(s: Store, ids: seq<Slot>, i: nat)
    requires i < |ids|
    ensures RemoveAll(RemoveOne(s, ids[i]), ids[i + 1..]) == RemoveAll(s, ids[i..])
    ensures (if ids[i] in s.br then [] else [ids[i]]) + Gone(ids[i + 1..], s.br) == Gone(ids[i..], s.br)
  {
    assert ids[i..][1..] == ids[i + 1..];
  }

  function NodesOf(s: Store, which: Which): seq<Slot>
    requires which != Local
  {
    match which
    case Scanned => s.scanned
    case Br => s.br
    case BleList => s.ble
  }

  function Cleanup(s: Store, which: Which): (Store, seq<Slot>)
    requires which != Local
  {
    match which
    case Scanned => CleanupScanned(s)
    case Br => CleanupBr(s)
    case BleList => CleanupBle(s)
  }

  // ----- The clean-up loop

  /** The lists without the record. */
  function TakenOff(m: Members, which: Which, x: Slot): Members {
    if which == BleList then m.(ble := Without(m.ble, x))
    else m.(scanned := Without(m.scanned, x), br := Without(m.br, x))
  }

  lemma TakenOffNowhere(m: Members, which: Which, x: Slot)
    requires which != Local && x !in m.local
    requires if which == BleList then x !in m.scanned && x !in m.br else x !in m.ble
    ensures var r := TakenOff(m, which, x);
            !Linked(r, Scanned, x) && !Linked(r, Br, x) && On(r, which) == Without(On(m, which), x)
  {
  }

  /** A clean-up: the list, and the lists and slots handed back when it begins. */
  datatype Cleaning = Cleaning(which: Which, before: Store, returned: seq<Slot>)

  function CleanedIds(q: Cleaning): seq<Slot>
    requires q.which != Local
  {
    NodesOf(q.before, q.which)
  }

  /** The first `i` nodes of the list have been cleaned up. */
  ghost predicate CleansSo(q: Cleaning, i: nat, s: Store, returned: seq<Slot>, effect: Effect)
    requires q.which != Local && i <= |CleanedIds(q)|
  {
    match effect
    case OnLists => NodesOf(s, q.which) == CleanedIds(q)[i..]
    case OnRecords => s == Cleaned(q.before, q.which, CleanedIds(q), i)
    case OnSlots => returned == q.returned + CleanedIds(q)[..i]
  }

  ghost predicate Cleans(q: Cleaning, i: nat, s: Store, returned: seq<Slot>)
    requires q.which != Local && i <= |CleanedIds(q)|
  {
    forall effect :: CleansSo(q, i, s, returned, effect)
  }

  lemma CleansParts(q: Cleaning, i: nat, s: Store, returned: seq<Slot>)
    requires q.which != Local && i <= |CleanedIds(q)|
    ensures Cleans(q, i, s, returned) <==>
              && CleansSo(q, i, s, returned, OnLists) && CleansSo(q, i, s, returned, OnRecords)
              && CleansSo(q, i, s, returned, OnSlots)
  {
  }

  lemma CleansStart(q: Cleaning)
    requires q.which != Local
    ensures Cleans(q, 0, q.before, q.returned)
  {
    CleanedAtStart(q.before, q.which, CleanedIds(q));
    assert CleanedIds(q)[0..] == CleanedIds(q);
    CleansParts(q, 0, q.before, q.returned);
  }

  lemma LeftToClean(q: Cleaning, i: nat, s: Store, returned: seq<Slot>)
    requires q.which != Local && i <= |CleanedIds(q)| && Cleans(q, i, s, returned)
    ensures |NodesOf(s, q.which)| == |CleanedIds(q)| - i
  {
    CleansParts(q, i, s, returned);
  }

  /** The first node of what is left is the next, and its record is on no list that is not cleaned with
      this one. */
  lemma CleansNext(q: Cleaning, i: nat, s: Store, returned: seq<Slot>)
    requires q.which != Local && Ownership(q.before) && i < |CleanedIds(q)| && Cleans(q, i, s, returned)
    ensures var x := CleanedIds(q)[i];
            && NodesOf(s, q.which) != [] && NodesOf(s, q.which)[0] == x
            && (if q.which == BleList then x !in s.scanned && x !in s.br else x !in s.ble)
  {
    var ids := CleanedIds(q);
    CleansParts(q, i, s, returned);
    CleanedApart(q.before, q.which, ids, i);
    assert ids[i..][0] == ids[i];
  }

  lemma CleansDone(q: Cleaning, i: nat, s: Store, returned: seq<Slot>, r: Store)
    requires q.which != Local && i < |CleanedIds(q)| && Cleans(q, i, s, returned) && NodesOf(s, q.which) != []
    requires r == Tidied(s, q.which, CleanedIds(q)[i]) && NodesOf(r, q.which) == NodesOf(s, q.which)[1..]
    ensures Cleans(q, i + 1, r, returned + [CleanedIds(q)[i]])
  {
    var ids, x := CleanedIds(q), CleanedIds(q)[i];
    CleansParts(q, i, s, returned);
    assert ids[i..][1..] == ids[i + 1..];
    CleanedNext(q.before, q.which, ids, i);
    Associates(q.returned, ids[..i], [x]);
    CleansParts(q, i + 1, r, returned + [x]);
  }

  lemma CleansAll(q: Cleaning, s: Store, returned: seq<Slot>)
    requires q.which != Local && Cleans(q, |CleanedIds(q)|, s, returned)
    ensures s == Cleanup(q.before, q.which).0 && returned == q.returned + Cleanup(q.before, q.which).1
  {
    var ids := CleanedIds(q);
    CleansParts(q, |ids|, s, returned);
    assert ids[..|ids|] == ids;
    MinusSelf(ids);
  }

  /** The store once the first `i` nodes have been cleaned up. */
  function Cleaned(s: Store, which: Which, nodes: seq<Slot>, i: nat): Store
    requires i <= |nodes|
  {
    var done := nodes[..i];
    var r := s.(devices := s.devices - ToSet(done));
    if which == BleList then r.(ble := Minus(s.ble, done))
    else r.(scanned := Minus(s.scanned, done), br := Minus(s.br, done))
  }

  /** One more record has been cleaned up. */
  function Tidied(q: Store, which: Which, x: Slot): Store {
    if which == BleList then q.(devices := q.devices - {x}, ble := Without(q.ble, x))
    else q.(devices := q.devices - {x}, scanned := Without(q.scanned, x), br := Without(q.br, x))
  }

  lemma CleanedAtStart(s: Store, which: Which, nodes: seq<Slot>)
    ensures Cleaned(s, which, nodes, 0) == s && nodes[..0] == []
  {
    assert nodes[..0] == [];
    MinusNothing(s.scanned, []);
    MinusNothing(s.br, []);
    MinusNothing(s.ble, []);
    assert s.devices - ToSet([]) == s.devices;
  }

  lemma {:induction false} MinusTwice(s: seq<Slot>, t: seq<Slot>, x: Slot)
    ensures Minus(Minus(s, t), [x]) == Minus(s, t + [x])
  {
    if s != [] {
      var n := |s| - 1;
      MinusTwice(s[..n], t, x);
      if s[n] !in t {
        MinusAppend(Minus(s[..n], t), s[n], [x]);
      }
    }
  }

  lemma {:induction false} MinusSelf(s: seq<Slot>)
    ensures Minus(s, s) == []
  {
    if Minus(s, s) != [] {
      assert Minus(s, s)[0] in Minus(s, s);
    }
  }

  lemma CleanedNext(s: Store, which: Which, nodes: seq<Slot>, i: nat)
    requires i < |nodes|
    ensures var x, q := nodes[i], Cleaned(s, which, nodes, i);
            Cleaned(s, which, nodes, i + 1) == Tidied(q, which, x)
    ensures nodes[..i + 1] == nodes[..i] + [nodes[i]]
  {
    var x, done := nodes[i], nodes[..i];
    assert nodes[..i + 1] == done + [x];
    MinusTwice(s.scanned, done, x);
    MinusTwice(s.br, done, x);
    MinusTwice(s.ble, done, x);
    ReleasedNext(s.devices, done, x);
  }

  lemma ReleasedNext(devices: map<Slot, Device>, done: seq<Slot>, x: Slot)
    ensures devices - ToSet(done + [x]) == devices - ToSet(done) - {x}
  {
    assert ToSet(done + [x]) == ToSet(done) + {x};
    assert devices - (ToSet(done) + {x}) == devices - ToSet(done) - {x};
  }

  /** The message for the first `n` records of a list. */
  function MessageOf(kind: Kind, devices: map<Slot, Device>, list: seq<Slot>, n: nat): string
    requires n <= |list| && forall x <- list :: x in devices && Buffers(devices[x])
  {
    assert forall x <- list[..n] :: x in list;
    Message(kind, devices, list[..n])
  }

  /** Unless an address contains a semicolon, the text reads back as what the first `n` records of the
      list hold. */
  ghost predicate ToldIn(text: string, kind: Kind, devices: map<Slot, Device>, list: seq<Slot>, n: nat)
    requires n <= |list| && forall x <- list :: x in devices && Buffers(devices[x])
  {
    assert forall x <- list[..n] :: x in list;
    ReportReader.Separable(devices, list[..n]) ==> ReportReader.Tells(text, kind, devices, list[..n])
  }

  lemma MessageTold(kind: Kind, devices: map<Slot, Device>, list: seq<Slot>, n: nat)
    requires n <= |list| && forall x <- list :: x in devices && Buffers(devices[x])
    ensures ToldIn(MessageOf(kind, devices, list, n), kind, devices, list, n)
    ensures n == |list| ==> MessageOf(kind, devices, list, n) == Message(kind, devices, list)
  {
    assert forall x <- list[..n] :: x in list;
    if ReportReader.Separable(devices, list[..n]) {
      ReportRoundTrip.MessageTells(kind, devices, list[..n]);
    }
    if n == |list| { assert list[..n] == list; }
  }

  /** The text of the records, in the order they are written. */
  function SentText(devices: map<Slot, Device>, ids: seq<Slot>): string
    requires forall x <- ids :: x in devices && Buffers(devices[x])
  {
    if ids == [] then ""
    else
      var text := SentText(devices, ids[..|ids| - 1]);
      var d := devices[ids[|ids| - 1]];
      if Incomplete(d) then text else text + Record(d)
  }

  lemma {:induction false} SentTextIsRecords(devices: map<Slot, Device>, ids: seq<Slot>)
    requires forall x <- ids :: x in devices && Buffers(devices[x])
    ensures var sent := Sendable(devices, ids);
            (forall x <- sent :: x in ids) && SentText(devices, ids) == Records(devices, sent)
  {
    if ids != [] {
      var n := |ids| - 1;
      SentTextIsRecords(devices, ids[..n]);
      if !Incomplete(devices[ids[n]]) {
        var sent := Sendable(devices, ids[..n]);
        assert (sent + [ids[n]])[..|sent|] == sent;
      }
    }
  }

  lemma SendableNext(devices: map<Slot, Device>, ids: seq<Slot>, i: nat)
    requires i < |ids| && forall x <- ids :: x in devices
    ensures Sendable(devices, ids[..i + 1]) ==
            Sendable(devices, ids[..i]) + if Incomplete(devices[ids[i]]) then [] else [ids[i]]
  {
    assert ids[..i + 1][..i] == ids[..i];
  }

  lemma NothingSent(devices: map<Slot, Device>, ids: seq<Slot>, header: string)
    ensures header == header + SentText(devices, ids[..0])
  {
    assert ids[..0] == [];
  }

  lemma SentTextNext(devices: map<Slot, Device>, ids: seq<Slot>, x: Slot)
    requires forall y <- ids + [x] :: y in devices && Buffers(devices[y])
    ensures SentText(devices, ids + [x]) ==
            if Incomplete(devices[x]) then SentText(devices, ids) else SentText(devices, ids) + Record(devices[x])
  {
    assert (ids + [x])[..|ids|] == ids;
  }

  lemma Regroup(a: string, b: string, c: string)
    ensures (a + b) + c == a + (b + c)
  {
  }

  /** Of the detached records, those that go back to the pool. */
  function Freed(kind: Kind, scanned: seq<Slot>, ids: seq<Slot>): seq<Slot> {
    if kind == BrEdr then Minus(ids, scanned) else ids
  }

  lemma FreedNext(kind: Kind, scanned: seq<Slot>, done: seq<Slot>, x: Slot, mem: map<Slot, Device>)
    ensures var freed, next := Freed(kind, scanned, done), Freed(kind, scanned, done + [x]);
            if kind == Ble || x !in scanned
            then next == freed + [x] && mem - ToSet(next) == mem - ToSet(freed) - {x}
            else next == freed
  {
    MinusAppend(done, x, scanned);
    var freed := Freed(kind, scanned, done);
    assert ToSet(freed + [x]) == ToSet(freed) + {x};
    assert mem - (ToSet(freed) + {x}) == mem - ToSet(freed) - {x};
  }

  /** The store between the unlinking and the release of the records. */
  function Detached(s: Store, kind: Kind, n: nat): Store
    requires n <= |ListOf(s, kind)|
  {
    match kind
    case BrEdr => s.(br := s.br[n..])
    case Ble => s.(ble := s.ble[n..])
  }

  lemma UploadInSteps(s: Store, kind: Kind, n: nat)
    requires n <= |ListOf(s, kind)|
    ensures var ids := ListOf(s, kind)[..n];
            var freed := Freed(kind, s.scanned, ids);
            Upload(s, kind, n) == (Release(Detached(s, kind, n), freed), freed)
  {
  }

  lemma {:induction false} StopAt(q: Search, k: nat, i: nat)
    requires Possible(q) && i <= k <= |q.before.scanned| && Passed(q, k)
    requires k < |q.before.scanned| ==> Late(q, k) || Matching(q, k)
    requires forall x <- q.before.scanned :: x in q.before.devices
    ensures Stop(q.before.devices, q.before.scanned, q.mac, q.clock, i) == k
    decreases k - i
  {
    if i < k {
      assert !Late(q, i) && !Matching(q, i);
      StopAt(q, k, i + 1);
    }
  }

  /** What the loop leaves is what the specification says at once. */
  lemma SweepResult(s: Store, mac: string, clock: seq<int>, k: nat)
    requires Listed(s) && NoDup(s.scanned) && |clock| >= |s.scanned|
    requires k == Stop(s.devices, s.scanned, mac, clock, 0)
    ensures CheckScanned(s, mac, clock) ==
              if k == |s.scanned| then (s, None, [])
              else if Expired(s.devices[s.scanned[k]], clock[k])
              then (RemoveAll(s, s.scanned[k..]), None, Gone(s.scanned[k..], s.br))
              else (s, Some(s.scanned[k]), [])
  {
    assert s.scanned == s.scanned[..k] + s.scanned[k..];
    RemoveAllIsRelease(s, s.scanned[..k], s.scanned[k..]);
    GoneIsMinus(s.scanned[k..], s.br);
    NothingReleased(s);
  }

  lemma NothingReleased(s: Store)
    ensures Release(s, []) == s && Minus([], s.br) == []
  {
    assert ToSet([]) == {} && s.devices - {} == s.devices;
  }
}
