/** The BLE list as a map from addresses to what was heard of them: each record tells the first and
    last time, the strongest signal, whether the button was pressed, and the latest battery level,
    payload and scan response since it was inserted. */
module BleHistory {
  import opened Common
  import opened DeviceSpec
  import opened DeviceProofs

  /** What was heard of an address since its record was inserted. */
  datatype Event = Seen(o: Observation, time: int) | Response(data: seq<byte>)

  datatype Which = AnySighting | PayloadWanted | ResponseAccepted

  /** The event at `k` is a sighting; one whose payload is wanted; or a scan response that the
      sighting before it asked for. */
  ghost predicate Holds(h: seq<Event>, which: Which, k: nat)
    requires k < |h|
  {
    match which
    case AnySighting => h[k].Seen?
    case PayloadWanted => h[k].Seen? && h[k].o.payloadNeeded
    case ResponseAccepted => h[k].Response? && Asked(h, k)
  }

  /** The last sighting before `k` asks for the scan response. */
  ghost predicate Asked(h: seq<Event>, k: nat)
    requires k <= |h|
  {
    exists j :: 0 <= j < k && h[j].Seen? && h[j].o.scanRspNeeded && forall i :: j < i < k ==> !h[i].Seen?
  }

  ghost predicate NoneBetween(h: seq<Event>, which: Which, j: nat, k: nat)
    requires j < k <= |h|
  {
    forall i :: j < i < k ==> !Holds(h, which, i)
  }

  /** `k` is the latest event of its kind. */
  ghost predicate Latest(h: seq<Event>, which: Which, k: nat)
    requires k < |h|
  {
    Holds(h, which, k) && NoneBetween(h, which, k, |h|)
  }

  ghost predicate Never(h: seq<Event>, which: Which) {
    forall k :: 0 <= k < |h| ==> !Holds(h, which, k)
  }

  ghost predicate Strongest(d: Device, h: seq<Event>) {
    && (forall k :: 0 <= k < |h| && Holds(h, AnySighting, k) ==> h[k].o.mac == d.mac && h[k].o.rssi <= d.rssi)
    && (exists k :: 0 <= k < |h| && Holds(h, AnySighting, k) && h[k].o.rssi == d.rssi)
  }

  ghost predicate LatestSighting(d: Device, h: seq<Event>) {
    forall k :: 0 <= k < |h| && Latest(h, AnySighting, k) ==>
      && d.final == h[k].time && d.battery == h[k].o.battery
      && d.payloadNeeded == h[k].o.payloadNeeded && d.scanRspNeeded == h[k].o.scanRspNeeded
  }

  ghost predicate PayloadKept(d: Device, h: seq<Event>)
    requires Buffers(d)
  {
    && (forall k :: 0 <= k < |h| && Latest(h, PayloadWanted, k) ==> d.payload[..d.payloadLength] == h[k].o.payload)
    && (Never(h, PayloadWanted) ==> d.payloadLength == 0)
  }

  ghost predicate ResponseKept(d: Device, h: seq<Event>)
    requires Buffers(d)
  {
    && (forall k :: 0 <= k < |h| && Latest(h, ResponseAccepted, k) ==> d.scanRsp[..d.scanRspLength] == h[k].data)
    && (Never(h, ResponseAccepted) ==> d.scanRspLength == 0)
  }

  ghost predicate PressedAgain(h: seq<Event>) {
    exists k :: 1 <= k < |h| && Holds(h, AnySighting, k) && h[k].o.button == 1
  }

  /** The record is what its history says: first and last time, strongest signal, the latest battery
      level, payload and scan response, and a button press once heard is not forgotten. */
  ghost predicate Represents(d: Device, h: seq<Event>) {
    && Buffers(d)
    && |h| > 0 && h[0].Seen? && d.initial == h[0].time
    && Strongest(d, h) && LatestSighting(d, h) && PayloadKept(d, h) && ResponseKept(d, h)
    && d.button == if PressedAgain(h) then 1 else h[0].o.button
  }

  lemma NewRepresents(o: Observation, now: int)
    requires |o.payload| <= LENGTH_OF_ADVERTISEMENT
    ensures Represents(NewDevice(o, now), [Seen(o, now)])
  {
    var h := [Seen(o, now)];
    assert Holds(h, AnySighting, 0);
    assert o.payloadNeeded ==> Holds(h, PayloadWanted, 0);
  }

  /** An event keeps its meaning when the history grows. */
  lemma HoldsAppend(h: seq<Event>, e: Event, which: Which, k: nat)
    requires k < |h|
    ensures Holds(h + [e], which, k) <==> Holds(h, which, k)
  {
    var g := h + [e];
    if which == ResponseAccepted {
      assert forall i :: 0 <= i < |h| ==> g[i] == h[i];
      if Asked(h, k) {
        var j :| 0 <= j < k && h[j].Seen? && h[j].o.scanRspNeeded && forall i :: j < i < k ==> !h[i].Seen?;
        assert g[j].Seen? && g[j].o.scanRspNeeded;
      }
      if Asked(g, k) {
        var j :| 0 <= j < k && g[j].Seen? && g[j].o.scanRspNeeded && forall i :: j < i < k ==> !g[i].Seen?;
        assert h[j].Seen? && h[j].o.scanRspNeeded;
      }
    }
  }

  /** The latest event of a kind is the new event if it is of that kind, and else the one it was. */
  lemma LatestAppend(h: seq<Event>, e: Event, which: Which)
    ensures var g := h + [e];
            && (Holds(g, which, |h|) ==> forall k :: 0 <= k < |g| ==> (Latest(g, which, k) <==> k == |h|))
            && (!Holds(g, which, |h|) ==>
                  && !Latest(g, which, |h|)
                  && (forall k :: 0 <= k < |h| ==> (Latest(g, which, k) <==> Latest(h, which, k)))
                  && (Never(g, which) <==> Never(h, which)))
            && (Holds(g, which, |h|) ==> !Never(g, which))
  {
    var g := h + [e];
    forall k | 0 <= k < |h|
      ensures Holds(g, which, k) <==> Holds(h, which, k)
    {
      HoldsAppend(h, e, which, k);
    }
    forall k | 0 <= k < |h|
      ensures Latest(g, which, k) <==> Latest(h, which, k) && !Holds(g, which, |h|)
    {
      if Latest(h, which, k) && !Holds(g, which, |h|) {
        assert NoneBetween(g, which, k, |g|);
      }
      if Latest(g, which, k) {
        assert NoneBetween(h, which, k, |h|);
      }
    }
  }

  lemma MergeStrongest(d: Device, h: seq<Event>, o: Observation, now: int)
    requires Represents(d, h) && o.mac == d.mac && |o.payload| <= LENGTH_OF_ADVERTISEMENT
    ensures Strongest(Merge(d, o, now), h + [Seen(o, now)])
  {
    var g, e := h + [Seen(o, now)], Seen(o, now);
    assert forall k :: 0 <= k < |h| ==> g[k] == h[k] && (Holds(g, AnySighting, k) <==> Holds(h, AnySighting, k));
    assert Holds(g, AnySighting, |h|) && g[|h|] == e;
    var m :| 0 <= m < |h| && Holds(h, AnySighting, m) && h[m].o.rssi == d.rssi;
    assert Holds(g, AnySighting, m) && g[m].o.rssi == d.rssi;
  }

  lemma MergeLatest(d: Device, h: seq<Event>, o: Observation, now: int)
    requires Represents(d, h) && |o.payload| <= LENGTH_OF_ADVERTISEMENT
    ensures var r, g := Merge(d, o, now), h + [Seen(o, now)];
            LatestSighting(r, g) && PayloadKept(r, g) && ResponseKept(r, g)
  {
    var g, e := h + [Seen(o, now)], Seen(o, now);
    assert g[|h|] == e && forall k :: 0 <= k < |h| ==> g[k] == h[k];
    LatestAppend(h, e, AnySighting);
    LatestAppend(h, e, PayloadWanted);
    LatestAppend(h, e, ResponseAccepted);
  }

  lemma MergeButton(d: Device, h: seq<Event>, o: Observation, now: int)
    requires Represents(d, h) && |o.payload| <= LENGTH_OF_ADVERTISEMENT
    ensures var g := h + [Seen(o, now)];
            Merge(d, o, now).button == if PressedAgain(g) then 1 else g[0].o.button
  {
    var g, e := h + [Seen(o, now)], Seen(o, now);
    assert forall k :: 0 <= k < |h| ==> g[k] == h[k] && (Holds(g, AnySighting, k) <==> Holds(h, AnySighting, k));
    assert Holds(g, AnySighting, |h|) && g[|h|] == e;
    if k :| 1 <= k < |h| && Holds(h, AnySighting, k) && h[k].o.button == 1 {
      assert Holds(g, AnySighting, k) && g[k].o.button == 1;
    }
  }

  /** A further sighting. */
  lemma MergeRepresents(d: Device, h: seq<Event>, o: Observation, now: int)
    requires Represents(d, h) && o.mac == d.mac && |o.payload| <= LENGTH_OF_ADVERTISEMENT
    ensures Represents(Merge(d, o, now), h + [Seen(o, now)])
  {
    MergeStrongest(d, h, o, now);
    MergeLatest(d, h, o, now);
    MergeButton(d, h, o, now);
  }

  lemma {:induction false} LastSightingExists(h: seq<Event>) returns (k: nat)
    requires |h| > 0 && h[0].Seen?
    ensures k < |h| && Latest(h, AnySighting, k)
  {
    var n := |h| - 1;
    if h[n].Seen? {
      k := n;
    } else {
      k := LastSightingExists(h[..n]);
      assert h == h[..n] + [h[n]];
      LatestAppend(h[..n], h[n], AnySighting);
    }
  }

  function Respond(d: Device, data: seq<byte>): Device
    requires Buffers(d) && |data| <= LENGTH_OF_ADVERTISEMENT
  {
    if d.scanRspNeeded then d.(scanRsp := Overwrite(d.scanRsp, data), scanRspLength := |data|) else d
  }

  /** A scan response, which is kept exactly when the last sighting asked for it. */
  lemma RespondRepresents(d: Device, h: seq<Event>, data: seq<byte>)
    requires Represents(d, h) && |data| <= LENGTH_OF_ADVERTISEMENT
    ensures Represents(Respond(d, data), h + [Response(data)])
  {
    RespondLatest(d, h, data);
    RespondStrongest(d, h, data);
  }

  lemma RespondLatest(d: Device, h: seq<Event>, data: seq<byte>)
    requires Represents(d, h) && |data| <= LENGTH_OF_ADVERTISEMENT
    ensures var r, g := Respond(d, data), h + [Response(data)];
            LatestSighting(r, g) && PayloadKept(r, g) && ResponseKept(r, g)
  {
    RespondSighting(d, h, data);
    RespondPayload(d, h, data);
    RespondKept(d, h, data);
  }

  lemma RespondSighting(d: Device, h: seq<Event>, data: seq<byte>)
    requires Buffers(d) && LatestSighting(d, h) && |data| <= LENGTH_OF_ADVERTISEMENT
    ensures LatestSighting(Respond(d, data), h + [Response(data)])
  {
    var g, e := h + [Response(data)], Response(data);
    assert g[|h|] == e && forall k :: 0 <= k < |h| ==> g[k] == h[k];
    LatestAppend(h, e, AnySighting);
  }

  lemma RespondPayload(d: Device, h: seq<Event>, data: seq<byte>)
    requires Buffers(d) && PayloadKept(d, h) && |data| <= LENGTH_OF_ADVERTISEMENT
    ensures PayloadKept(Respond(d, data), h + [Response(data)])
  {
    var g, e := h + [Response(data)], Response(data);
    assert g[|h|] == e && forall k :: 0 <= k < |h| ==> g[k] == h[k];
    LatestAppend(h, e, PayloadWanted);
  }

  lemma RespondKept(d: Device, h: seq<Event>, data: seq<byte>)
    requires Represents(d, h) && |data| <= LENGTH_OF_ADVERTISEMENT
    ensures ResponseKept(Respond(d, data), h + [Response(data)])
  {
    var g, e := h + [Response(data)], Response(data);
    assert g[|h|] == e && forall k :: 0 <= k < |h| ==> g[k] == h[k];
    AskedTells(d, h, e);
    LatestAppend(h, e, ResponseAccepted);
  }

  lemma AskedTells(d: Device, h: seq<Event>, e: Event)
    requires Represents(d, h)
    ensures Asked(h + [e], |h|) <==> d.scanRspNeeded
  {
    var g := h + [e];
    var k := LastSightingExists(h);
    assert h[k].Seen? && d.scanRspNeeded == h[k].o.scanRspNeeded;
    forall i | k < i < |h|
      ensures !g[i].Seen?
    {
      assert !Holds(h, AnySighting, i);
    }
    assert g[k] == h[k];
  }

  lemma RespondStrongest(d: Device, h: seq<Event>, data: seq<byte>)
    requires Represents(d, h) && |data| <= LENGTH_OF_ADVERTISEMENT
    ensures var r, g := Respond(d, data), h + [Response(data)];
            Strongest(r, g) && (PressedAgain(g) <==> PressedAgain(h))
  {
    var g := h + [Response(data)];
    assert forall k :: 0 <= k < |h| ==> g[k] == h[k] && (Holds(g, AnySighting, k) <==> Holds(h, AnySighting, k));
    assert !Holds(g, AnySighting, |h|);
    var m :| 0 <= m < |h| && Holds(h, AnySighting, m) && h[m].o.rssi == d.rssi;
    assert Holds(g, AnySighting, m) && g[m].o.rssi == d.rssi;
    if k :| 1 <= k < |h| && Holds(h, AnySighting, k) && h[k].o.button == 1 {
      assert Holds(g, AnySighting, k) && g[k].o.button == 1;
    }
  }

  // ----- The whole list

  /** What was heard, by address, and the addresses in the order in which they entered the list. */
  datatype Book = Book(order: seq<string>, heard: map<string, seq<Event>>)

  const EMPTY_BOOK := Book([], map[])

  /** The first `n` addresses are forgotten. */
  function Forget(b: Book, n: nat): Book
    requires n <= |b.order|
  {
    Book(b.order[n..], b.heard - (set m | m in b.order[..n]))
  }

  /** The book after an operation, which does not look at the lists: a sighting is entered under its
      address, which enters the book if there is memory for it; a scan response is entered under an
      address that is in the book; what is uploaded or cleaned up is forgotten. */
  function Note(b: Book, op: Op): Book {
    match op
    case ObserveBleOp(o, now, slot) =>
      if o.mac in b.heard then b.(heard := b.heard[o.mac := b.heard[o.mac] + [Seen(o, now)]])
      else if slot.Some? then Book(b.order + [o.mac], b.heard[o.mac := [Seen(o, now)]])
      else b
    case ScanResponseOp(mac, data) =>
      if mac in b.heard then b.(heard := b.heard[mac := b.heard[mac] + [Response(data)]]) else b
    case UploadOp(kind, n) => if kind == Ble && n <= |b.order| then Forget(b, n) else b
    case CleanupBleOp => EMPTY_BOOK
    case _ => b
  }

  function NoteAll(b: Book, ops: seq<Op>): Book
    decreases |ops|
  {
    if ops == [] then b else NoteAll(Note(b, ops[0]), ops[1..])
  }

  /** The BLE list holds the addresses of the book, in the order of the book. */
  ghost predicate Aligned(s: Store, b: Book)
    requires Listed(s)
  {
    && |s.ble| == |b.order|
    && (forall m :: m in b.heard <==> m in b.order)
    && (forall i :: 0 <= i < |s.ble| ==> s.devices[s.ble[i]].mac == b.order[i])
  }

  datatype Entry = Entry(record: Device, heard: seq<Event>)

  /** The records of the list, each with what was heard of its address. */
  ghost function Entries(s: Store, b: Book): (r: seq<Entry>)
    requires Listed(s) && Aligned(s, b)
    ensures |r| == |s.ble|
    ensures forall i :: 0 <= i < |r| ==> r[i] == Entry(s.devices[s.ble[i]], b.heard[b.order[i]])
  {
    seq(|s.ble|, i requires 0 <= i < |s.ble| => Entry(s.devices[s.ble[i]], b.heard[b.order[i]]))
  }

  ghost predicate AllRepresented(entries: seq<Entry>) {
    forall i :: 0 <= i < |entries| ==> Represents(entries[i].record, entries[i].heard)
  }

  /** The list is what the book says. */
  ghost predicate Refines(s: Store, b: Book)
    requires Listed(s)
  {
    Aligned(s, b) && AllRepresented(Entries(s, b))
  }

  lemma UpdateRepresented(entries: seq<Entry>, i: nat, e: Entry)
    requires AllRepresented(entries) && i < |entries| && Represents(e.record, e.heard)
    ensures AllRepresented(entries[i := e])
  {
  }

  lemma AppendRepresented(entries: seq<Entry>, e: Entry)
    requires AllRepresented(entries) && Represents(e.record, e.heard)
    ensures AllRepresented(entries + [e])
  {
  }

  lemma RestRepresented(entries: seq<Entry>, n: nat)
    requires AllRepresented(entries) && n <= |entries|
    ensures AllRepresented(entries[n..])
  {
  }

  /** The search of the code finds an address exactly when it is in the book, and then its record. */
  lemma SearchIsBook(s: Store, b: Book, mac: string)
    requires Listed(s) && Aligned(s, b)
    ensures var found := FindMac(s.devices, s.ble, mac);
            && (found.Some? <==> mac in b.heard)
            && (found.Some? ==> exists i :: 0 <= i < |s.ble| && s.ble[i] == found.value && b.order[i] == mac)
  {
    var found := FindMac(s.devices, s.ble, mac);
    if mac in b.heard {
      var i :| 0 <= i < |b.order| && b.order[i] == mac;
      assert s.ble[i] in s.ble && s.devices[s.ble[i]].mac == mac;
    }
    if found.Some? {
      var i :| 0 <= i < |s.ble| && s.ble[i] == found.value;
      assert b.order[i] == mac;
    }
  }

  /** A record and the history of its address change together. */
  lemma UpdateAligned(s: Store, b: Book, i: nat, d: Device, h: seq<Event>)
    requires Ownership(s) && Listed(s) && MacDistinct(s.devices, s.ble) && Aligned(s, b) && i < |s.ble|
    requires d.mac == b.order[i] && Buffers(d)
    ensures var r, c := s.(devices := s.devices[s.ble[i] := d]), b.(heard := b.heard[b.order[i] := h]);
            Listed(r) && Aligned(r, c) && Entries(r, c) == Entries(s, b)[i := Entry(d, h)]
  {
    forall j | 0 <= j < |s.ble| && j != i
      ensures s.ble[j] != s.ble[i] && b.order[j] != b.order[i]
    {
      if j < i {
        assert s.devices[s.ble[j]].mac != s.devices[s.ble[i]].mac;
      } else {
        assert s.devices[s.ble[i]].mac != s.devices[s.ble[j]].mac;
      }
    }
  }

  lemma InsertAligned(s: Store, b: Book, x: Slot, d: Device, h: seq<Event>)
    requires Listed(s) && Aligned(s, b) && x !in s.devices && d.mac !in b.heard && Buffers(d)
    ensures var r := s.(devices := s.devices[x := d], ble := s.ble + [x]);
            var c := Book(b.order + [d.mac], b.heard[d.mac := h]);
            Listed(r) && Aligned(r, c) && Entries(r, c) == Entries(s, b) + [Entry(d, h)]
  {
    assert forall i :: 0 <= i < |s.ble| ==> s.ble[i] in s.ble && s.ble[i] != x && b.order[i] in b.order;
  }

  lemma UpdateRefines(s: Store, b: Book, i: nat, d: Device, h: seq<Event>)
    requires Ownership(s) && Listed(s) && MacDistinct(s.devices, s.ble) && Refines(s, b) && i < |s.ble|
    requires d.mac == b.order[i] && Represents(d, h)
    ensures var r, c := s.(devices := s.devices[s.ble[i] := d]), b.(heard := b.heard[b.order[i] := h]);
            Listed(r) && Refines(r, c)
  {
    UpdateAligned(s, b, i, d, h);
    UpdateRepresented(Entries(s, b), i, Entry(d, h));
  }

  lemma InsertRefines(s: Store, b: Book, x: Slot, d: Device, h: seq<Event>)
    requires Listed(s) && Refines(s, b) && x !in s.devices && d.mac !in b.heard && Represents(d, h)
    ensures var r := s.(devices := s.devices[x := d], ble := s.ble + [x]);
            var c := Book(b.order + [d.mac], b.heard[d.mac := h]);
            Listed(r) && Refines(r, c)
  {
    InsertAligned(s, b, x, d, h);
    AppendRepresented(Entries(s, b), Entry(d, h));
  }

  lemma ForgetKeys(b: Book, n: nat)
    requires n <= |b.order| && forall i, j :: 0 <= i < j < |b.order| ==> b.order[i] != b.order[j]
    requires forall m :: m in b.heard <==> m in b.order
    ensures forall m :: m in Forget(b, n).heard <==> m in b.order[n..]
  {
    var gone, kept := b.order[..n], b.order[n..];
    assert b.order == gone + kept;
    assert forall i, j :: 0 <= i < n && 0 <= j < |kept| ==> gone[i] != kept[j];
  }

  lemma AddressesDistinct(s: Store, b: Book)
    requires Listed(s) && MacDistinct(s.devices, s.ble) && Aligned(s, b)
    ensures forall i, j :: 0 <= i < j < |b.order| ==> b.order[i] != b.order[j]
  {
    forall i, j | 0 <= i < j < |b.order|
      ensures b.order[i] != b.order[j]
    {
      assert s.devices[s.ble[i]].mac != s.devices[s.ble[j]].mac;
    }
  }

  lemma ForgetAligned(s: Store, n: nat, t: int, b: Book)
    requires Inv(s, t) && n <= |s.ble| && Aligned(s, b)
    requires Listed(Upload(s, Ble, n).0)
    ensures var r, c := Upload(s, Ble, n).0, Forget(b, n);
            Aligned(r, c) && Entries(r, c) == Entries(s, b)[n..]
  {
    var r, c := Upload(s, Ble, n).0, Forget(b, n);
    AddressesDistinct(s, b);
    ForgetKeys(b, n);
    KeptEntries(s, n, r, b, c);
  }

  lemma KeptEntries(s: Store, n: nat, r: Store, b: Book, c: Book)
    requires Listed(s) && Listed(r) && Aligned(s, b) && Aligned(r, c) && n <= |s.ble|
    requires r.ble == s.ble[n..] && c.order == b.order[n..]
    requires forall x <- r.ble :: r.devices[x] == s.devices[x]
    requires forall m :: m in c.heard ==> c.heard[m] == b.heard[m]
    ensures Entries(r, c) == Entries(s, b)[n..]
  {
    forall i | 0 <= i < |r.ble|
      ensures Entries(r, c)[i] == Entries(s, b)[n + i]
    {
      assert r.ble[i] == s.ble[n + i] && r.ble[i] in r.ble && c.order[i] == b.order[n + i] && c.order[i] in c.order;
    }
  }

  lemma ObserveBleRefines(s: Store, o: Observation, t: int, now: int, slot: Option<Slot>, b: Book)
    requires Inv(s, t) && Legal(s, t, ObserveBleOp(o, now, slot)) && Refines(s, b)
    requires Listed(ObserveBle(s, o, now, slot))
    ensures Refines(ObserveBle(s, o, now, slot), Note(b, ObserveBleOp(o, now, slot)))
  {
    SearchIsBook(s, b, o.mac);
    var found := FindMac(s.devices, s.ble, o.mac);
    var entries := Entries(s, b);
    if found.Some? {
      var i :| 0 <= i < |s.ble| && s.ble[i] == found.value && b.order[i] == o.mac;
      var d, h := entries[i].record, entries[i].heard;
      MergeRepresents(d, h, o, now);
      UpdateRefines(s, b, i, Merge(d, o, now), h + [Seen(o, now)]);
    } else if slot.Some? {
      NewRepresents(o, now);
      InsertRefines(s, b, slot.value, NewDevice(o, now), [Seen(o, now)]);
    }
  }

  lemma ScanResponseRefines(s: Store, mac: string, data: seq<byte>, t: int, b: Book)
    requires Inv(s, t) && Legal(s, t, ScanResponseOp(mac, data)) && Refines(s, b)
    requires Listed(ScanResponse(s, mac, data))
    ensures Refines(ScanResponse(s, mac, data), Note(b, ScanResponseOp(mac, data)))
  {
    SearchIsBook(s, b, mac);
    var found := FindMac(s.devices, s.ble, mac);
    if found.Some? {
      var entries := Entries(s, b);
      var i :| 0 <= i < |s.ble| && s.ble[i] == found.value && b.order[i] == mac;
      var d, h := entries[i].record, entries[i].heard;
      RespondRepresents(d, h, data);
      UpdateRefines(s, b, i, Respond(d, data), h + [Response(data)]);
      ScanResponseIsRespond(s, mac, data, s.ble[i]);
    }
  }

  lemma ScanResponseIsRespond(s: Store, mac: string, data: seq<byte>, x: Slot)
    requires Listed(s) && |data| <= LENGTH_OF_ADVERTISEMENT && FindMac(s.devices, s.ble, mac) == Some(x)
    ensures ScanResponse(s, mac, data) == s.(devices := s.devices[x := Respond(s.devices[x], data)])
  {
    assert s.devices[x := s.devices[x]] == s.devices;
  }

  lemma UploadRefines(s: Store, n: nat, t: int, b: Book)
    requires Inv(s, t) && n <= |s.ble| && Refines(s, b)
    requires Listed(Upload(s, Ble, n).0)
    ensures Refines(Upload(s, Ble, n).0, Forget(b, n))
  {
    ForgetAligned(s, n, t, b);
    RestRepresented(Entries(s, b), n);
  }

  /** Operations that leave the BLE list and its records alone. */
  lemma OthersRefine(s: Store, r: Store, b: Book)
    requires Listed(s) && Listed(r) && Refines(s, b) && r.ble == s.ble
    requires forall x <- s.ble :: x in r.devices && r.devices[x] == s.devices[x]
    ensures Refines(r, b)
  {
    OthersAligned(s, r, b);
  }

  lemma OthersAligned(s: Store, r: Store, b: Book)
    requires Listed(s) && Listed(r) && Aligned(s, b) && r.ble == s.ble
    requires forall x <- s.ble :: x in r.devices && r.devices[x] == s.devices[x]
    ensures Aligned(r, b) && Entries(r, b) == Entries(s, b)
  {
    assert forall i :: 0 <= i < |s.ble| ==> s.ble[i] in s.ble;
  }

  /** Every operation keeps the BLE list what the book says. */
  lemma StepRefines(s: Store, t: int, op: Op, b: Book)
    requires Inv(s, t) && Legal(s, t, op) && Refines(s, b)
    ensures Inv(Apply(s, t, op).0, Now(t, op)) && Refines(Apply(s, t, op).0, Note(b, op))
  {
    StepKeepsInv(s, t, op);
    match op
    case ObserveBleOp(o, now, slot) => ObserveBleRefines(s, o, t, now, slot, b);
    case ScanResponseOp(mac, data) => ScanResponseRefines(s, mac, data, t, b);
    case ObserveBrOp(o, clock, now, slot) =>
      BrLeavesBle(s, o, clock, t, now, slot);
      OthersRefine(s, Apply(s, t, op).0, b);
    case UploadOp(kind, n) =>
      if kind == Ble { UploadRefines(s, n, t, b); } else { OthersRefine(s, Apply(s, t, op).0, b); }
    case CleanupBleOp =>
    case _ => OthersRefine(s, Apply(s, t, op).0, b);
  }

  /** Sightings of BR/EDR devices do not touch the BLE records. */
  lemma BrLeavesBle(s: Store, o: Observation, clock: seq<int>, t: int, now: int, slot: Option<Slot>)
    requires Inv(s, t) && Legal(s, t, ObserveBrOp(o, clock, now, slot))
    ensures var r := ObserveBr(s, o, clock, now, slot).0;
            r.ble == s.ble && forall x <- s.ble :: x in r.devices && r.devices[x] == s.devices[x]
  {
    CheckScannedOwnership(s, o.mac, clock);
    var (r1, found, freed) := CheckScanned(s, o.mac, clock);
    assert forall x <- s.ble :: x in r1.devices && r1.devices[x] == s.devices[x] && x !in s.scanned;
  }

  lemma {:induction false} RunRefines(s: Store, t: int, ops: seq<Op>, b: Book)
    requires Inv(s, t) && LegalRun(s, t, ops) && Refines(s, b)
    ensures Inv(Run(s, t, ops).0, Run(s, t, ops).1) && Refines(Run(s, t, ops).0, NoteAll(b, ops))
    decreases |ops|
  {
    if ops != [] {
      StepRefines(s, t, ops[0], b);
      RunRefines(Apply(s, t, ops[0]).0, Now(t, ops[0]), ops[1..], Note(b, ops[0]));
    }
  }

  /** From the empty lists on: after every run the BLE list is what the operations alone say. */
  lemma EveryRunRefines(t: int, ops: seq<Op>)
    requires LegalRun(EMPTY, t, ops)
    ensures Listed(Run(EMPTY, t, ops).0) && Refines(Run(EMPTY, t, ops).0, NoteAll(EMPTY_BOOK, ops))
  {
    RunRefines(EMPTY, t, ops, EMPTY_BOOK);
  }
}
