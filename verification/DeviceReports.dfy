/** The records the scanners of src/LBeacon.c make, and the budgets of their reports: a report never
    passes `consolidate_tracked_data` a budget with which it would lose a record. */
module DeviceReports {
  import opened Common
  import opened DeviceSpec
  import opened DeviceProofs
  import opened TrackedRing
  import opened TrackedUpload

  const MAX_LENGTH_RESP_BASIC_INFO := 128

  /** What `send_to_push_dongle` is called with. */
  ghost predicate Scan(o: Observation) {
    && |o.mac| <= 17 && |o.payload| <= 31
    && -128 <= o.rssi < 128 && 0 <= o.button < 16 && 0 <= o.battery < 256
    && (o.payloadNeeded ==> o.battery == 0)
  }

  /** No payload is ever asked of BR/EDR devices. */
  ghost predicate FromScanners(op: Op) {
    match op
    case ObserveBrOp(o, _, now, _) => Scan(o) && !o.payloadNeeded && 0 <= now < 0x8000_0000
    case ObserveBleOp(o, now, _) => Scan(o) && 0 <= now < 0x8000_0000
    case ScanResponseOp(_, data) => |data| <= 31
    case _ => true
  }

  ghost predicate Plain(d: Device) { d.payloadLength == 0 && d.scanRspLength == 0 }

  /** Every record is as the scanners make it, and those of BR/EDR devices carry no data. */
  ghost predicate Scanned(s: Store) {
    && (forall x :: x in s.devices ==> Covers(AsScanned, s.devices[x]))
    && (forall x :: x in s.devices && (x in s.scanned || x in s.br) ==> Plain(s.devices[x]))
  }

  lemma NewIsScanned(o: Observation, now: int)
    requires Scan(o) && 0 <= now < 0x8000_0000
    ensures var d := NewDevice(o, now);
            Covers(AsScanned, d) && (!o.payloadNeeded ==> Plain(d))
  {
  }

  lemma MergeIsScanned(d: Device, o: Observation, now: int)
    requires Covers(AsScanned, d) && Scan(o) && 0 <= now < 0x8000_0000
    ensures var r := Merge(d, o, now);
            Covers(AsScanned, r) && (Plain(d) && !o.payloadNeeded ==> Plain(r))
  {
  }

  /** Records leave the lists and the pool. */
  lemma ShrinkScanned(s: Store, r: Store)
    requires Scanned(s)
    requires forall x :: x in r.devices ==> x in s.devices && r.devices[x] == s.devices[x]
    requires forall x :: x in r.scanned || x in r.br ==> x in s.scanned || x in s.br
    ensures Scanned(r)
  {
  }

  lemma UpdateScanned(s: Store, x: Slot, d: Device)
    requires Scanned(s) && x in s.devices && Covers(AsScanned, d) && (Plain(s.devices[x]) ==> Plain(d))
    ensures Scanned(s.(devices := s.devices[x := d]))
  {
  }

  lemma InsertScanned(s: Store, x: Slot, d: Device)
    requires Scanned(s) && Covers(AsScanned, d) && Plain(d)
    ensures Scanned(InsertBr(s, x, d))
  {
    assert forall y <- s.br + [x] :: y in s.br || y == x;
  }

  lemma ObserveBrScanned(s: Store, o: Observation, clock: seq<int>, t: int, now: int, slot: Option<Slot>)
    requires Inv(s, t) && Legal(s, t, ObserveBrOp(o, clock, now, slot)) && Scanned(s)
    requires FromScanners(ObserveBrOp(o, clock, now, slot))
    ensures Scanned(ObserveBr(s, o, clock, now, slot).0)
  {
    var (r, found, freed) := CheckScanned(s, o.mac, clock);
    CheckScannedKeepsInv(s, o.mac, clock, t);
    if found.Some? {
      MergeIsScanned(s.devices[found.value], o, now);
      UpdateScanned(s, found.value, Merge(s.devices[found.value], o, now));
    } else {
      ExpiryScanned(s, o.mac, clock);
      if slot.Some? {
        NewIsScanned(o, now);
        InsertScanned(r, slot.value, NewDevice(o, now));
      }
    }
  }

  lemma ExpiryScanned(s: Store, mac: string, clock: seq<int>)
    requires Listed(s) && |clock| >= |s.scanned| && Scanned(s)
    ensures Scanned(CheckScanned(s, mac, clock).0)
  {
    ShrinkScanned(s, CheckScanned(s, mac, clock).0);
  }

  lemma ObserveBleScanned(s: Store, o: Observation, now: int, slot: Option<Slot>)
    requires Ownership(s) && Listed(s) && Scanned(s) && Scan(o) && 0 <= now < 0x8000_0000
    requires slot.Some? ==> slot.value !in s.devices
    ensures Scanned(ObserveBle(s, o, now, slot))
  {
    var found := FindMac(s.devices, s.ble, o.mac);
    NewIsScanned(o, now);
    if found.Some? {
      MergeIsScanned(s.devices[found.value], o, now);
    }
  }

  lemma ScanResponseScanned(s: Store, mac: string, data: seq<byte>)
    requires Ownership(s) && Listed(s) && Scanned(s) && |data| <= 31
    ensures Scanned(ScanResponse(s, mac, data))
  {
  }

  lemma StepScanned(s: Store, t: int, op: Op)
    requires Inv(s, t) && Legal(s, t, op) && FromScanners(op) && Scanned(s)
    ensures Scanned(Apply(s, t, op).0)
  {
    match op
    case ObserveBrOp(o, clock, now, slot) => ObserveBrScanned(s, o, clock, t, now, slot);
    case ObserveBleOp(o, now, slot) => ObserveBleScanned(s, o, now, slot);
    case ScanResponseOp(mac, data) => ScanResponseScanned(s, mac, data);
    case _ => ShrinkScanned(s, Apply(s, t, op).0);
  }

  lemma {:induction false} RunScanned(s: Store, t: int, ops: seq<Op>)
    requires Inv(s, t) && LegalRun(s, t, ops) && Scanned(s) && forall op <- ops :: FromScanners(op)
    ensures Inv(Run(s, t, ops).0, Run(s, t, ops).1) && Scanned(Run(s, t, ops).0)
    decreases |ops|
  {
    if ops != [] {
      StepKeepsInv(s, t, ops[0]);
      StepScanned(s, t, ops[0]);
      RunScanned(Apply(s, t, ops[0]).0, Now(t, ops[0]), ops[1..]);
    }
  }

  // ----- The budgets of a report

  /** What `handle_tracked_object_data` passes to the upload of the BR/EDR list. */
  function FirstBudget(basic: nat): int { WIFI_MESSAGE_LENGTH - basic }

  /** The length of the text of that upload. */
  function FirstLength(s: Store, basic: nat): nat
    requires Listed(s)
  {
    var n := Admitted(PayloadLengths(s.devices, s.br), FirstBudget(basic));
    assert forall x <- s.br[..n] :: x in s.br;
    |Message(BrEdr, s.devices, s.br[..n])|
  }

  /** What it then passes to the upload of the BLE list. */
  function SecondBudget(s: Store, basic: nat): int
    requires Listed(s)
  {
    FirstBudget(basic) - FirstLength(s, basic)
  }

  lemma AtMost65(s: Store, basic: nat)
    requires Listed(s) && Scanned(s) && basic <= MAX_LENGTH_RESP_BASIC_INFO
    ensures Admitted(PayloadLengths(s.devices, s.br), FirstBudget(basic)) <= 65
  {
    var n := Capacity(0, FirstBudget(basic));
    AdmittedUniform(PayloadLengths(s.devices, s.br), 0, FirstBudget(basic), n);
  }

  lemma FirstLengthBound(s: Store, basic: nat)
    requires Listed(s) && Scanned(s) && basic <= MAX_LENGTH_RESP_BASIC_INFO
    ensures FirstLength(s, basic) <= 5 + 65 * 53
  {
    var n := Admitted(PayloadLengths(s.devices, s.br), FirstBudget(basic));
    assert forall x <- s.br[..n] :: x in s.br;
    var sent := Sendable(s.devices, s.br[..n]);
    AtMost65(s, basic);
    RecordsBound(AsScanned, s.devices, sent, 0, 0);
    MulMonotone(|sent|, 65, 53);
    assert Pow10(1) == 10 && Pow10(2) == 100;
    DecNatLength(|sent|, 2);
    assert |Dec(KindNumber(BrEdr))| == 1;
  }

  /** The BR/EDR list takes less than half of the buffer, so that both budgets exceed the size of one
      record: neither upload can lose one. */
  lemma BudgetsSuffice(s: Store, basic: nat)
    requires Listed(s) && Scanned(s) && basic <= MAX_LENGTH_RESP_BASIC_INFO
    ensures FirstBudget(basic) > MAX_LENGTH_RESP_DEVICE_INFO
    ensures SecondBudget(s, basic) >= WIFI_MESSAGE_LENGTH / 2 > MAX_LENGTH_RESP_DEVICE_INFO
  {
    FirstLengthBound(s, basic);
  }

  /** The whole report with its terminating NUL fits the message buffer, unless the scan responses are too
      long; the records of the BLE list are as they are when the second upload is made. */
  lemma ReportFits(s: Store, basic: nat, s2: Store)
    requires Listed(s) && Scanned(s) && basic <= MAX_LENGTH_RESP_BASIC_INFO
    requires Listed(s2) && forall x <- s2.ble :: Modest(AsScanned, s2.devices[x])
    ensures var n := Admitted(PayloadLengths(s2.devices, s2.ble), SecondBudget(s, basic));
            && (forall x <- s2.ble[..n] :: x in s2.ble)
            && basic + FirstLength(s, basic) + |Message(Ble, s2.devices, s2.ble[..n])| + 1 <= WIFI_MESSAGE_LENGTH
  {
    BudgetsSuffice(s, basic);
    MessageFitsBudget(AsScanned, Ble, s2.devices, s2.ble, SecondBudget(s, basic));
  }

  /** The uploads of a report are those the run theorems speak of, in whatever state the second one finds
      the lists. */
  lemma ReportsAreLegal(t: int, ops: seq<Op>, basic: nat, s2: Store, t2: int)
    requires LegalRun(EMPTY, t, ops) && forall op <- ops :: FromScanners(op)
    requires basic <= MAX_LENGTH_RESP_BASIC_INFO && Listed(s2)
    ensures var (s, now) := Run(EMPTY, t, ops);
            && Listed(s)
            && Legal(s, now, UploadOp(BrEdr, Admitted(PayloadLengths(s.devices, s.br), FirstBudget(basic))))
            && Legal(s2, t2, UploadOp(Ble, Admitted(PayloadLengths(s2.devices, s2.ble), SecondBudget(s, basic))))
  {
    RunScanned(EMPTY, t, ops);
    BudgetsSuffice(Run(EMPTY, t, ops).0, basic);
  }
}
