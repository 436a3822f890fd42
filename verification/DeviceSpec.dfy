/** The tracked-device lists of src/LBeacon.c on values.

    A device record lives in a slot of the memory pool; the scanned list and the BR/EDR list share
    records, the BLE list has its own.  `devices` holds the records of the slots in use: handing a
    slot to `mp_free` removes it from the domain. */
module DeviceSpec {
  import opened Common

  const LENGTH_OF_ADVERTISEMENT: nat := 65
  const LENGTH_OF_MAC_ADDRESS: nat := 18
  const NUMBER_DIGITS_TO_COMPARE: nat := 4
  const INTERVAL_FOR_CLEANUP_SCANNED_LIST := 600

  type Slot = nat

  datatype Device = Device(
    mac: string,
    initial: int,
    final: int,
    rssi: int,
    button: int,
    battery: int,
    payloadNeeded: bool,
    scanRspNeeded: bool,
    payload: seq<byte>,
    payloadLength: nat,
    scanRsp: seq<byte>,
    scanRspLength: nat)

  datatype Observation = Observation(
    mac: string,
    rssi: int,
    button: int,
    battery: int,
    payloadNeeded: bool,
    scanRspNeeded: bool,
    payload: seq<byte>)

  datatype Store = Store(devices: map<Slot, Device>, scanned: seq<Slot>, br: seq<Slot>, ble: seq<Slot>)

  // ----- Comparing addresses

  /** `strncmp(a, b, n) == 0`. */
  predicate StrNEqual(a: string, b: string, n: nat) {
    if n == 0 || (a == "" && b == "") then true
    else a != "" && b != "" && a[0] == b[0] && StrNEqual(a[1..], b[1..], n - 1)
  }

  /** `compare_mac_address(address, node, digits) == 0`. */
  predicate SameMac(address: string, mac: string, digits: nat) {
    StrNEqual(address, mac, digits) && StrNEqual(address, mac, |address|)
  }

  /** The test both searches apply to a node. */
  predicate Matches(address: string, mac: string) {
    SameMac(address, mac, NUMBER_DIGITS_TO_COMPARE) && SameMac(address, mac, LENGTH_OF_MAC_ADDRESS)
  }

  lemma {:induction false} StrNEqualIsEqual(a: string, b: string, n: nat)
    requires |a| <= n && |b| <= n
    ensures StrNEqual(a, b, n) <==> a == b
  {
    if n > 0 && a != "" && b != "" {
      StrNEqualIsEqual(a[1..], b[1..], n - 1);
      assert a == [a[0]] + a[1..] && b == [b[0]] + b[1..];
    }
  }

  lemma {:induction false} EqualStrings(a: string, n: nat)
    ensures StrNEqual(a, a, n)
  {
    if n > 0 && a != "" {
      EqualStrings(a[1..], n - 1);
    }
  }

  /** On terminated addresses, which are shorter than the field, the test is equality. */
  lemma MatchesIsEqual(address: string, mac: string)
    requires |address| < LENGTH_OF_MAC_ADDRESS && |mac| < LENGTH_OF_MAC_ADDRESS
    ensures Matches(address, mac) <==> address == mac
  {
    StrNEqualIsEqual(address, mac, LENGTH_OF_MAC_ADDRESS);
    if address == mac {
      EqualStrings(address, NUMBER_DIGITS_TO_COMPARE);
      EqualStrings(address, |address|);
    }
  }

  // ----- Lists

  function ToSet(s: seq<Slot>): set<Slot> { set x | x in s }

  ghost predicate NoDup(s: seq<Slot>) {
    forall i, j :: 0 <= i < j < |s| ==> s[i] != s[j]
  }

  /** `s` without the members of `t`, in order. */
  function Minus(s: seq<Slot>, t: seq<Slot>): (r: seq<Slot>)
    ensures forall x :: x in r <==> x in s && x !in t
  {
    if s == [] then []
    else
      var rest := Minus(s[..|s| - 1], t);
      if s[|s| - 1] in t then rest else rest + [s[|s| - 1]]
  }

  /** The slots are handed back to the pool. */
  function Release(s: Store, slots: seq<Slot>): Store {
    s.(devices := s.devices - ToSet(slots))
  }

  // ----- Updating a record

  /** `memcpy` to the front of a buffer. */
  function Overwrite(buffer: seq<byte>, data: seq<byte>): (r: seq<byte>)
    requires |data| <= |buffer|
    ensures |r| == |buffer| && r[..|data|] == data
  {
    data + buffer[|data|..]
  }

  ghost predicate Buffers(d: Device) {
    |d.payload| == LENGTH_OF_ADVERTISEMENT == |d.scanRsp|
    && d.payloadLength <= LENGTH_OF_ADVERTISEMENT && d.scanRspLength <= LENGTH_OF_ADVERTISEMENT
  }

  function Merge(d: Device, o: Observation, now: int): Device
    requires Buffers(d) && |o.payload| <= LENGTH_OF_ADVERTISEMENT
  {
    d.(final := now,
       payloadNeeded := o.payloadNeeded,
       scanRspNeeded := o.scanRspNeeded,
       payload := if o.payloadNeeded then Overwrite(d.payload, o.payload) else d.payload,
       payloadLength := if o.payloadNeeded then |o.payload| else d.payloadLength,
       button := if o.button == 1 then 1 else d.button,
       battery := o.battery,
       rssi := if o.rssi > d.rssi then o.rssi else d.rssi)
  }

  /** A record in a slot that `mp_alloc` has cleared. */
  function NewDevice(o: Observation, now: int): Device
    requires |o.payload| <= LENGTH_OF_ADVERTISEMENT
  {
    Device(o.mac, now, now, o.rssi, o.button, o.battery, o.payloadNeeded, o.scanRspNeeded,
           if o.payloadNeeded then Overwrite(Zeros(LENGTH_OF_ADVERTISEMENT), o.payload)
           else Zeros(LENGTH_OF_ADVERTISEMENT),
           if o.payloadNeeded then |o.payload| else 0,
           Zeros(LENGTH_OF_ADVERTISEMENT), 0)
  }

  // ----- The operations

  datatype Swept = Swept(kept: seq<Slot>, expired: seq<Slot>, found: Option<Slot>)

  predicate Expired(d: Device, now: int) {
    now - d.initial > INTERVAL_FOR_CLEANUP_SCANNED_LIST
  }

  /** The place of the first node, from `i` on, that is expired when it is looked at or has the
      address looked for; the clock is read once for each node. */
  function Stop(devices: map<Slot, Device>, ids: seq<Slot>, mac: string, clock: seq<int>, i: nat): (k: nat)
    requires i <= |ids| <= |clock| && forall x <- ids :: x in devices
    ensures i <= k <= |ids|
    ensures k < |ids| ==> Expired(devices[ids[k]], clock[k]) || devices[ids[k]].mac == mac
    decreases |ids| - i
  {
    if i == |ids| || Expired(devices[ids[i]], clock[i]) || devices[ids[i]].mac == mac then i
    else Stop(devices, ids, mac, clock, i + 1)
  }

  /** The pass over the scanned list: at an expired node, that node and all behind it leave; at a
      match the pass ends. */
  function Sweep(devices: map<Slot, Device>, ids: seq<Slot>, mac: string, clock: seq<int>): (r: Swept)
    requires |ids| <= |clock| && forall x <- ids :: x in devices
    ensures ids == r.kept + r.expired
    ensures r.found.Some? ==> r.found.value in r.kept && devices[r.found.value].mac == mac && r.expired == []
  {
    var k := Stop(devices, ids, mac, clock, 0);
    if k == |ids| then Swept(ids, [], None)
    else if Expired(devices[ids[k]], clock[k]) then Swept(ids[..k], ids[k..], None)
    else Swept(ids, [], Some(ids[k]))
  }

  function FindMac(devices: map<Slot, Device>, ids: seq<Slot>, mac: string): (r: Option<Slot>)
    requires forall x <- ids :: x in devices
    ensures r.Some? ==> r.value in ids && devices[r.value].mac == mac
    ensures r.None? ==> forall x <- ids :: devices[x].mac != mac
  {
    if ids == [] then None
    else if devices[ids[0]].mac == mac then Some(ids[0])
    else FindMac(devices, ids[1..], mac)
  }

  ghost predicate Listed(s: Store) {
    forall x :: x in s.scanned || x in s.br || x in s.ble ==> x in s.devices && Buffers(s.devices[x])
  }

  /** `check_is_in_list` on the scanned list: expired nodes leave it, and those no longer on the
      BR/EDR list either go back to the pool. */
  function CheckScanned(s: Store, mac: string, clock: seq<int>): (Store, Option<Slot>, seq<Slot>)
    requires Listed(s) && |clock| >= |s.scanned|
  {
    var r := Sweep(s.devices, s.scanned, mac, clock);
    var freed := Minus(r.expired, s.br);
    (Release(s.(scanned := r.kept), freed), r.found, freed)
  }

  /** `send_to_push_dongle` for a BR/EDR device; `slot` is what `mp_alloc` would return. */
  function ObserveBr(s: Store, o: Observation, clock: seq<int>, now: int, slot: Option<Slot>): (Store, seq<Slot>)
    requires Listed(s) && |clock| >= |s.scanned| && |o.payload| <= LENGTH_OF_ADVERTISEMENT
  {
    var (s1, found, freed) := CheckScanned(s, o.mac, clock);
    if found.Some? then (s1.(devices := s1.devices[found.value := Merge(s.devices[found.value], o, now)]), freed)
    else if slot.None? then (s1, freed)
    else (s1.(devices := s1.devices[slot.value := NewDevice(o, now)],
              scanned := [slot.value] + s1.scanned,
              br := s1.br + [slot.value]), freed)
  }

  /** `send_to_push_dongle` for a BLE device. */
  function ObserveBle(s: Store, o: Observation, now: int, slot: Option<Slot>): Store
    requires Listed(s) && |o.payload| <= LENGTH_OF_ADVERTISEMENT
  {
    var found := FindMac(s.devices, s.ble, o.mac);
    if found.Some? then s.(devices := s.devices[found.value := Merge(s.devices[found.value], o, now)])
    else if slot.None? then s
    else s.(devices := s.devices[slot.value := NewDevice(o, now)], ble := s.ble + [slot.value])
  }

  /** `send_to_push_dongle_scan_rsp`. */
  function ScanResponse(s: Store, mac: string, data: seq<byte>): Store
    requires Listed(s) && |data| <= LENGTH_OF_ADVERTISEMENT
  {
    var found := FindMac(s.devices, s.ble, mac);
    if found.Some? && s.devices[found.value].scanRspNeeded then
      var d := s.devices[found.value];
      s.(devices := s.devices[found.value := d.(scanRsp := Overwrite(d.scanRsp, data), scanRspLength := |data|)])
    else s
  }

  datatype Kind = BrEdr | Ble

  function ListOf(s: Store, kind: Kind): seq<Slot> {
    match kind
    case BrEdr => s.br
    case Ble => s.ble
  }

  /** The upload of the first `n` records of a list: they leave it, and those that are on no other
      list go back to the pool. */
  function Upload(s: Store, kind: Kind, n: nat): (Store, seq<Slot>)
    requires n <= |ListOf(s, kind)|
  {
    match kind
    case BrEdr =>
      var freed := Minus(s.br[..n], s.scanned);
      (Release(s.(br := s.br[n..]), freed), freed)
    case Ble =>
      (Release(s.(ble := s.ble[n..]), s.ble[..n]), s.ble[..n])
  }

  /** `cleanup_lists` on each of the three lists. */
  function CleanupScanned(s: Store): (Store, seq<Slot>) {
    (Release(s.(scanned := [], br := Minus(s.br, s.scanned)), s.scanned), s.scanned)
  }

  function CleanupBr(s: Store): (Store, seq<Slot>) {
    (Release(s.(br := [], scanned := Minus(s.scanned, s.br)), s.br), s.br)
  }

  function CleanupBle(s: Store): (Store, seq<Slot>) {
    (Release(s.(ble := []), s.ble), s.ble)
  }
}
