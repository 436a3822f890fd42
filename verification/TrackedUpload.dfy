/** The message `consolidate_tracked_data` of src/LBeacon.c writes, and why it fits its budget. */
module TrackedUpload {
  import opened Common
  import opened DeviceSpec
  import Hex
  import opened TrackedRing

  // ----- The text

  function Digit(n: int): char
    requires 0 <= n < 10
  {
    (n + '0' as int) as char
  }

  function DecNat(n: nat): (s: string)
    ensures |s| > 0
  {
    if n < 10 then [Digit(n)] else DecNat(n / 10) + [Digit(n % 10)]
  }

  /** The `%d` conversion. */
  function Dec(n: int): string {
    if n < 0 then "-" + DecNat(-n) else DecNat(n)
  }

  function HexOf(wanted: bool, buffer: seq<byte>, length: nat): string
    requires length <= |buffer|
  {
    if wanted then Hex.Text(buffer[..length]) else ""
  }

  /** Each part is followed by a semicolon. */
  function Fields(parts: seq<string>): string {
    if parts == [] then "" else Fields(parts[..|parts| - 1]) + parts[|parts| - 1] + ";"
  }

  function Parts(d: Device): seq<string>
    requires Buffers(d)
  {
    [d.mac, Dec(d.initial), Dec(d.final), Dec(d.rssi), Dec(d.button), Dec(d.battery),
     HexOf(d.payloadNeeded, d.payload, d.payloadLength) + HexOf(d.payloadNeeded, d.scanRsp, d.scanRspLength)]
  }

  function Record(d: Device): string
    requires Buffers(d)
  {
    Fields(Parts(d))
  }

  lemma FieldsNext(parts: seq<string>, i: nat)
    requires i < |parts|
    ensures Fields(parts[..i + 1]) == Fields(parts[..i]) + parts[i] + ";"
  {
    assert parts[..i + 1][..i] == parts[..i];
  }

  lemma FourFields(p: seq<string>)
    requires |p| >= 4
    ensures Fields(p[..4]) == p[0] + ";" + p[1] + ";" + p[2] + ";" + p[3] + ";"
  {
    assert "" + p[0] == p[0];
    FieldsNext(p, 0);
    FieldsNext(p, 1);
    FieldsNext(p, 2);
    FieldsNext(p, 3);
  }

  lemma SevenFields(p: seq<string>)
    requires |p| == 7
    ensures Fields(p) == p[0] + ";" + p[1] + ";" + p[2] + ";" + p[3] + ";" + p[4] + ";" + p[5] + ";" + p[6] + ";"
  {
    assert p[..7] == p;
    FourFields(p);
    FieldsNext(p, 4);
    FieldsNext(p, 5);
    FieldsNext(p, 6);
  }

  /** A record still waiting for its scan response is dropped from the message. */
  predicate Incomplete(d: Device) {
    d.scanRspNeeded && d.scanRspLength == 0
  }

  /** The records that are written, in list order. */
  function Sendable(devices: map<Slot, Device>, ids: seq<Slot>): (r: seq<Slot>)
    requires forall x <- ids :: x in devices
    ensures |r| <= |ids| && forall x <- r :: x in ids
  {
    if ids == [] then []
    else
      var rest := Sendable(devices, ids[..|ids| - 1]);
      var x := ids[|ids| - 1];
      if Incomplete(devices[x]) then rest else rest + [x]
  }

  function Records(devices: map<Slot, Device>, ids: seq<Slot>): string
    requires forall x <- ids :: x in devices && Buffers(devices[x])
  {
    if ids == [] then "" else Records(devices, ids[..|ids| - 1]) + Record(devices[ids[|ids| - 1]])
  }

  function KindNumber(kind: Kind): int {
    match kind
    case BrEdr => 0
    case Ble => 1
  }

  /** The header names the kind of the records and their number; the records follow. */
  function Message(kind: Kind, devices: map<Slot, Device>, ids: seq<Slot>): string
    requires forall x <- ids :: x in devices && Buffers(devices[x])
  {
    var sent := Sendable(devices, ids);
    assert forall x <- sent :: x in ids;
    Dec(KindNumber(kind)) + ";" + Dec(|sent|) + ";" + Records(devices, sent)
  }

  function PayloadLengths(devices: map<Slot, Device>, ids: seq<Slot>): (l: seq<int>)
    requires forall x <- ids :: x in devices
    ensures |l| == |ids| && forall i :: 0 <= i < |l| ==> l[i] == devices[ids[i]].payloadLength
  {
    seq(|ids|, i requires 0 <= i < |ids| => devices[ids[i]].payloadLength)
  }

  // ----- Its length

  function Pow10(k: nat): (p: nat)
    ensures p > 0
  {
    if k == 0 then 1 else 10 * Pow10(k - 1)
  }

  lemma {:induction false} DecNatLength(n: nat, k: nat)
    requires k > 0 && n < Pow10(k)
    ensures |DecNat(n)| <= k
    decreases n
  {
    if n >= 10 {
      assert Pow10(1) == 10;
      DecNatLength(n / 10, k - 1);
    }
  }

  /** What a record can hold: an address of 17 characters, 31-bit times, an 8-bit signal strength, one
      hexadecimal digit for the button, an 8-bit battery level, and buffers of at most 31 bytes. */
  ghost predicate InRange(d: Device) {
    && Buffers(d) && |d.mac| <= 17
    && 0 <= d.initial < 0x8000_0000 && 0 <= d.final < 0x8000_0000
    && -128 <= d.rssi < 128 && 0 <= d.button < 16 && 0 <= d.battery < 256
    && d.payloadLength <= 31 && d.scanRspLength <= 31
  }

  /** The characters of a record other than the hexadecimal text. */
  function FieldChars(d: Device): nat {
    |d.mac| + |Dec(d.initial)| + |Dec(d.final)| + |Dec(d.rssi)| + |Dec(d.button)| + |Dec(d.battery)| + 7
  }

  function HexChars(d: Device): nat {
    if d.payloadNeeded then 2 * (d.payloadLength + d.scanRspLength) else 0
  }

  lemma RecordLength(d: Device)
    requires Buffers(d)
    ensures |Record(d)| == FieldChars(d) + HexChars(d)
  {
    SevenFields(Parts(d));
  }

  lemma FieldsBound(d: Device)
    requires InRange(d)
    ensures FieldChars(d) <= if d.battery == 0 then 51 else 53
  {
    assert Pow10(1) == 10 && Pow10(2) == 100 && Pow10(3) == 1000;
    assert Pow10(6) == 1000 * Pow10(3) && Pow10(9) == 1000 * Pow10(6) && Pow10(10) == 10 * Pow10(9);
    DecNatLength(d.initial, 10);
    DecNatLength(d.final, 10);
    DecNatLength(if d.rssi < 0 then -d.rssi else d.rssi, 3);
    DecNatLength(d.button, 2);
    DecNatLength(d.battery, 3);
  }

  /** Every record is under 190 characters, so it fits the buffer it is printed into. */
  lemma RecordFitsBuffer(d: Device)
    requires InRange(d)
    ensures |Record(d)| < MAX_LENGTH_RESP_DEVICE_INFO
  {
    RecordLength(d);
    FieldsBound(d);
  }

  /** Which records are considered: all in range, or only those the scanners make, which pass battery
      level 0 whenever a payload is wanted. */
  datatype Scope = AnyInRange | AsScanned

  ghost predicate Covers(scope: Scope, d: Device) {
    InRange(d) && (scope == AsScanned && d.payloadNeeded ==> d.battery == 0)
  }

  /** The largest payload length plus twice the scan response length with which the text of a record
      stays within what the record is charged. */
  function Room(scope: Scope): nat { if scope == AnyInRange then 72 else 74 }

  ghost predicate Modest(scope: Scope, d: Device) {
    Covers(scope, d) && d.payloadLength + 2 * d.scanRspLength <= Room(scope)
  }

  lemma RecordWithinCharge(scope: Scope, d: Device)
    requires Modest(scope, d)
    ensures |Record(d)| <= Charge(d.payloadLength)
  {
    RecordLength(d);
    FieldsBound(d);
  }

  function Charges(devices: map<Slot, Device>, ids: seq<Slot>): int
    requires forall x <- ids :: x in devices
  {
    if ids == [] then 0 else Charges(devices, ids[..|ids| - 1]) + Charge(devices[ids[|ids| - 1]].payloadLength)
  }

  lemma {:induction false} RecordsWithinCharges(scope: Scope, devices: map<Slot, Device>, ids: seq<Slot>)
    requires forall x <- ids :: x in devices && Modest(scope, devices[x])
    ensures var sent := Sendable(devices, ids);
            (forall x <- sent :: x in ids && x in devices && Buffers(devices[x])) &&
            |Records(devices, sent)| <= Charges(devices, ids) && |sent| <= Charges(devices, ids)
  {
    if ids != [] {
      var r, x := ids[..|ids| - 1], ids[|ids| - 1];
      RecordsWithinCharges(scope, devices, r);
      RecordWithinCharge(scope, devices[x]);
      var rest := Sendable(devices, r);
      assert (rest + [x])[..|rest|] == rest;
    }
  }

  lemma {:induction false} ChargesFront(devices: map<Slot, Device>, ids: seq<Slot>)
    requires forall x <- ids :: x in devices
    ensures ids != [] ==> Charges(devices, ids) == Charge(devices[ids[0]].payloadLength) + Charges(devices, ids[1..])
  {
    if |ids| > 1 {
      var n := |ids| - 1;
      ChargesFront(devices, ids[..n]);
      assert ids[1..][..n - 1] == ids[..n][1..];
    } else if |ids| == 1 {
      assert ids[..0] == [];
    }
  }

  /** The records admitted are charged at most the budget less what the last one left over. */
  lemma {:induction false} AdmittedWithinBudget(devices: map<Slot, Device>, ids: seq<Slot>, budget: int)
    requires forall x <- ids :: x in devices && devices[x].payloadLength <= 31
    requires budget > MAX_LENGTH_RESP_DEVICE_INFO && ids != []
    ensures var n := Admitted(PayloadLengths(devices, ids), budget);
            Charges(devices, ids[..n]) <= budget - 35
    decreases |ids|
  {
    var l, rest := PayloadLengths(devices, ids), ids[1..];
    var n := Admitted(l, budget);
    assert l[1..] == PayloadLengths(devices, rest);
    var left := budget - Charge(l[0]);
    var m := Admitted(l[1..], left);
    assert n == 1 + m;
    assert ids[..n][1..] == rest[..m];
    ChargesFront(devices, ids[..n]);
    if m > 0 {
      AdmittedWithinBudget(devices, rest, left);
    } else {
      assert rest[..m] == [];
    }
  }

  /** The whole message with its terminating NUL fits the budget, when no payload and scan response
      together exceed what the charge allows for. */
  lemma MessageFitsBudget(scope: Scope, kind: Kind, devices: map<Slot, Device>, ids: seq<Slot>, budget: int)
    requires forall x <- ids :: x in devices && Modest(scope, devices[x])
    requires MAX_LENGTH_RESP_DEVICE_INFO < budget < 0x8000_0000
    ensures var n := Admitted(PayloadLengths(devices, ids), budget);
            (forall x <- ids[..n] :: x in ids && x in devices && Buffers(devices[x])) &&
            |Message(kind, devices, ids[..n])| + 1 <= budget
  {
    var n := Admitted(PayloadLengths(devices, ids), budget);
    var sent := Sendable(devices, ids[..n]);
    RecordsWithinCharges(scope, devices, ids[..n]);
    if ids != [] {
      AdmittedWithinBudget(devices, ids, budget);
    }
    assert Pow10(3) == 1000 by { assert Pow10(1) == 10; }
    assert Pow10(6) == 1000 * Pow10(3) && Pow10(9) == 1000 * Pow10(6) && Pow10(10) == 10 * Pow10(9);
    DecNatLength(|sent|, 10);
    assert |Dec(KindNumber(kind))| == 1;
  }

  // ----- When the budget does not suffice

  /** The records of a list all have payloads of `p` and scan responses of `s` bytes. */
  ghost predicate Uniform(scope: Scope, devices: map<Slot, Device>, ids: seq<Slot>, p: nat, s: nat) {
    forall x <- ids ::
      x in devices && Covers(scope, devices[x]) && devices[x].payloadLength == p && devices[x].scanRspLength == s
  }

  ghost predicate Fits(kind: Kind, devices: map<Slot, Device>, ids: seq<Slot>, budget: int)
    requires forall x <- ids :: x in devices && Buffers(devices[x])
  {
    var n := Admitted(PayloadLengths(devices, ids), budget);
    assert forall x <- ids[..n] :: x in ids;
    |Message(kind, devices, ids[..n])| + 1 <= budget
  }

  /** Whatever the records hold, with these lengths the message fits the budget. */
  ghost predicate AllFit(scope: Scope, kind: Kind, p: nat, s: nat, budget: int) {
    forall devices: map<Slot, Device>, ids: seq<Slot> ::
      Uniform(scope, devices, ids, p, s) ==> Fits(kind, devices, ids, budget)
  }

  /** The number of records with payloads of `p` bytes that a budget admits, if there are enough. */
  function Capacity(p: nat, budget: int): (n: nat)
    requires p <= 31 && budget > MAX_LENGTH_RESP_DEVICE_INFO
    ensures n > 0 && (n - 1) * Charge(p) < budget - MAX_LENGTH_RESP_DEVICE_INFO <= n * Charge(p)
  {
    QuotientBounds(budget - MAX_LENGTH_RESP_DEVICE_INFO - 1, Charge(p));
    (budget - MAX_LENGTH_RESP_DEVICE_INFO - 1) / Charge(p) + 1
  }

  lemma QuotientBounds(a: nat, b: nat)
    requires b > 0
    ensures (a / b) * b <= a < (a / b + 1) * b
  {
    Grow(a / b, b);
  }

  function WidestRecord(scope: Scope, p: nat, s: nat): nat {
    (if scope == AnyInRange || p + s == 0 then 53 else 51) + 2 * (p + s)
  }

  /** The length of the message of as many records as the budget admits, each at its widest. */
  function WidestMessage(scope: Scope, p: nat, s: nat, budget: int): nat
    requires p <= 31 && budget > MAX_LENGTH_RESP_DEVICE_INFO
  {
    var n := Capacity(p, budget);
    3 + |Dec(n)| + n * WidestRecord(scope, p, s)
  }

  lemma {:induction false} AdmittedUniform(l: seq<int>, p: nat, budget: int, n: nat)
    requires p <= 31 && forall i :: 0 <= i < |l| ==> l[i] == p
    requires n > 0 && (n - 1) * Charge(p) < budget - MAX_LENGTH_RESP_DEVICE_INFO <= n * Charge(p)
    ensures Admitted(l, budget) == if |l| <= n then |l| else n
    decreases |l|
  {
    if l != [] {
      var left := budget - Charge(p);
      assert n * Charge(p) == (n - 1) * Charge(p) + Charge(p);
      if n > 1 {
        assert (n - 1) * Charge(p) == (n - 2) * Charge(p) + Charge(p);
        AdmittedUniform(l[1..], p, left, n - 1);
      }
    }
  }

  lemma {:induction false} DecNatMonotone(m: nat, n: nat)
    requires m <= n
    ensures |DecNat(m)| <= |DecNat(n)|
    decreases n
  {
    if m >= 10 {
      DecNatMonotone(m / 10, n / 10);
    }
  }

  lemma WidestBound(scope: Scope, d: Device)
    requires Covers(scope, d)
    ensures |Record(d)| <= WidestRecord(scope, d.payloadLength, d.scanRspLength)
  {
    RecordLength(d);
    FieldsBound(d);
  }

  lemma {:induction false} RecordsBound(scope: Scope, devices: map<Slot, Device>, ids: seq<Slot>, p: nat, s: nat)
    requires Uniform(scope, devices, ids, p, s)
    ensures |Records(devices, ids)| <= |ids| * WidestRecord(scope, p, s)
  {
    if ids != [] {
      var n := |ids| - 1;
      RecordsBound(scope, devices, ids[..n], p, s);
      WidestBound(scope, devices[ids[n]]);
      Grow(n, WidestRecord(scope, p, s));
    }
  }

  lemma Grow(n: nat, k: nat)
    ensures (n + 1) * k == n * k + k
  {
  }

  lemma MulMonotone(m: nat, n: nat, k: nat)
    requires m <= n
    ensures m * k <= n * k
  {
    assert (n - m) * k >= 0;
  }

  lemma WidestIsWidest(scope: Scope, kind: Kind, devices: map<Slot, Device>, ids: seq<Slot>, p: nat, s: nat,
                       budget: int)
    requires p <= 31 && budget > MAX_LENGTH_RESP_DEVICE_INFO && Uniform(scope, devices, ids, p, s)
    requires WidestMessage(scope, p, s, budget) + 1 <= budget
    ensures Fits(kind, devices, ids, budget)
  {
    var c := Capacity(p, budget);
    var n := Admitted(PayloadLengths(devices, ids), budget);
    AdmittedUniform(PayloadLengths(devices, ids), p, budget, c);
    assert forall x <- ids[..n] :: x in ids;
    var sent := Sendable(devices, ids[..n]);
    RecordsBound(scope, devices, sent, p, s);
    MulMonotone(|sent|, c, WidestRecord(scope, p, s));
    DecNatMonotone(|sent|, c);
    assert |Dec(KindNumber(kind))| == 1;
  }

  /** A record with every field at its widest, complete with its scan response if it has one. */
  function WideDevice(scope: Scope, p: nat, s: nat): (d: Device)
    requires p <= 31 && s <= 31
    ensures Covers(scope, d) && d.payloadLength == p && d.scanRspLength == s && !Incomplete(d)
  {
    var wide := scope == AnyInRange || p + s == 0;
    Device("00:00:00:00:00:00", 1600000000, 1600000000, -100, 15, if wide then 255 else 0, p + s > 0, s > 0,
           Zeros(LENGTH_OF_ADVERTISEMENT), p, Zeros(LENGTH_OF_ADVERTISEMENT), s)
  }

  lemma {:induction false} DecNatExact(n: nat, k: nat)
    requires k > 0 && Pow10(k - 1) <= n < Pow10(k)
    ensures n > 0 && |DecNat(n)| == k
    decreases n
  {
    if n >= 10 {
      assert Pow10(1) == 10;
      DecNatExact(n / 10, k - 1);
    }
  }

  lemma WideDigits()
    ensures |Dec(1600000000)| == 10 && |Dec(-100)| == 4 && |Dec(15)| == 2 && |Dec(255)| == 3 && |Dec(0)| == 1
  {
    assert Pow10(1) == 10 && Pow10(2) == 100 && Pow10(3) == 1000;
    assert Pow10(6) == 1000 * Pow10(3) && Pow10(9) == 1000 * Pow10(6) && Pow10(10) == 10 * Pow10(9);
    DecNatExact(1600000000, 10);
    DecNatExact(100, 3);
    DecNatExact(15, 2);
    DecNatExact(255, 3);
  }

  lemma WideRecordLength(scope: Scope, p: nat, s: nat)
    requires p <= 31 && s <= 31
    ensures |Record(WideDevice(scope, p, s))| == WidestRecord(scope, p, s)
  {
    WideDigits();
    RecordLength(WideDevice(scope, p, s));
  }

  lemma {:induction false} AllSendable(devices: map<Slot, Device>, ids: seq<Slot>)
    requires forall x <- ids :: x in devices && !Incomplete(devices[x])
    ensures Sendable(devices, ids) == ids
  {
    if ids != [] {
      AllSendable(devices, ids[..|ids| - 1]);
    }
  }

  /** A list of records that are all alike. */
  lemma {:induction false} CopiesLength(devices: map<Slot, Device>, ids: seq<Slot>, d: Device)
    requires Buffers(d) && forall x <- ids :: x in devices && devices[x] == d
    ensures |Records(devices, ids)| == |ids| * |Record(d)|
  {
    if ids != [] {
      var n := |ids| - 1;
      CopiesLength(devices, ids[..n], d);
      Grow(n, |Record(d)|);
    }
  }

  /** A list of `n` records that are all `d`. */
  lemma Copies(d: Device, n: nat) returns (devices: map<Slot, Device>, ids: seq<Slot>)
    ensures |ids| == n && forall x <- ids :: x in devices && devices[x] == d
  {
    ids := seq(n, i => i);
    devices := map x | x in ids :: d;
  }

  lemma WidestIsReached(scope: Scope, kind: Kind, p: nat, s: nat, budget: int)
    requires p <= 31 && s <= 31 && budget > MAX_LENGTH_RESP_DEVICE_INFO && AllFit(scope, kind, p, s, budget)
    ensures WidestMessage(scope, p, s, budget) + 1 <= budget
  {
    var d, n := WideDevice(scope, p, s), Capacity(p, budget);
    var devices, ids := Copies(d, n);
    assert Uniform(scope, devices, ids, p, s);
    assert Fits(kind, devices, ids, budget);
    AdmittedUniform(PayloadLengths(devices, ids), p, budget, n);
    assert ids[..n] == ids;
    AllSendable(devices, ids);
    CopiesLength(devices, ids, d);
    WideRecordLength(scope, p, s);
    assert |Dec(KindNumber(kind))| == 1;
  }

  /** For every budget: the message always fits exactly when the widest one does. */
  lemma FitsExactly(scope: Scope, kind: Kind, p: nat, s: nat, budget: int)
    requires p <= 31 && s <= 31 && budget > MAX_LENGTH_RESP_DEVICE_INFO
    ensures AllFit(scope, kind, p, s, budget) <==> WidestMessage(scope, p, s, budget) + 1 <= budget
  {
    if AllFit(scope, kind, p, s, budget) {
      WidestIsReached(scope, kind, p, s, budget);
    }
    if WidestMessage(scope, p, s, budget) + 1 <= budget {
      forall devices: map<Slot, Device>, ids: seq<Slot> | Uniform(scope, devices, ids, p, s)
        ensures Fits(kind, devices, ids, budget)
      {
        WidestIsWidest(scope, kind, devices, ids, p, s, budget);
      }
    }
  }

  const WIFI_MESSAGE_LENGTH := 8192

  ghost predicate AlwaysFits(scope: Scope, kind: Kind, p: nat, s: nat, limit: int) {
    forall budget :: MAX_LENGTH_RESP_DEVICE_INFO < budget <= limit ==> AllFit(scope, kind, p, s, budget)
  }

  /** The bound is exact: with every budget up to the size of the message buffer, or up to any larger
      limit, the message always fits if and only if payload length plus twice the scan response length
      is at most 72, for all records in range, or 74, for those the scanners make. */
  lemma BoundIsExact(scope: Scope, kind: Kind, p: nat, s: nat, limit: int)
    requires p <= 31 && s <= 31 && WIFI_MESSAGE_LENGTH <= limit < 0x8000_0000
    ensures AlwaysFits(scope, kind, p, s, limit) <==> p + 2 * s <= Room(scope)
  {
    if p + 2 * s <= Room(scope) {
      forall budget | MAX_LENGTH_RESP_DEVICE_INFO < budget <= limit
        ensures AllFit(scope, kind, p, s, budget)
      {
        ModestFit(scope, kind, p, s, budget);
      }
    } else {
      var budget := FullAt(p);
      NarrowestOverflow(scope, kind, p, s);
      assert !AllFit(scope, kind, p, s, budget);
    }
  }

  lemma ModestFit(scope: Scope, kind: Kind, p: nat, s: nat, budget: int)
    requires p <= 31 && s <= 31 && p + 2 * s <= Room(scope) && MAX_LENGTH_RESP_DEVICE_INFO < budget < 0x8000_0000
    ensures AllFit(scope, kind, p, s, budget)
  {
    forall devices: map<Slot, Device>, ids: seq<Slot> | Uniform(scope, devices, ids, p, s)
      ensures Fits(kind, devices, ids, budget)
    {
      MessageFitsBudget(scope, kind, devices, ids, budget);
    }
  }

  /** The least budget that admits 62 - p records with payloads of `p` bytes. */
  function FullAt(p: nat): (budget: int)
    requires p <= 31
  {
    (61 - p) * Charge(p) + MAX_LENGTH_RESP_DEVICE_INFO + 1
  }

  /** With a budget that just admits its last record, the excess of 62 - p records uses up what that
      record leaves over. */
  lemma NarrowestOverflow(scope: Scope, kind: Kind, p: nat, s: nat)
    requires p <= 31 && s <= 31 && p + 2 * s > Room(scope)
    ensures MAX_LENGTH_RESP_DEVICE_INFO < FullAt(p) <= WIFI_MESSAGE_LENGTH && !AllFit(scope, kind, p, s, FullAt(p))
  {
    FullAtRange(p);
    CapacityIs(p, FullAt(p), 62 - p);
    ExcessAddsUp(62 - p, Charge(p), p + 2 * s - Room(scope));
    FitsExactly(scope, kind, p, s, FullAt(p));
  }

  lemma FullAtRange(p: nat)
    requires 11 <= p <= 31
    ensures MAX_LENGTH_RESP_DEVICE_INFO < FullAt(p) <= WIFI_MESSAGE_LENGTH
  {
    MulMonotone(61 - p, 50, Charge(p));
    MulMonotone(0, 61 - p, Charge(p));
  }

  lemma ExcessAddsUp(n: nat, c: nat, e: nat)
    requires n > 0 && e > 0
    ensures n * (c + e) >= (n - 1) * c + c + n
  {
    MulMonotone(1, e, n);
    assert n * (c + e) == n * c + n * e;
    Grow(n - 1, c);
  }

  lemma CapacityIs(p: nat, budget: int, n: nat)
    requires p <= 31 && n > 0 && budget == (n - 1) * Charge(p) + MAX_LENGTH_RESP_DEVICE_INFO + 1
    ensures Capacity(p, budget) == n
  {
    var k := Capacity(p, budget);
    Grow(n - 1, Charge(p));
    if k < n {
      MulMonotone(k, n - 1, Charge(p));
    } else if k > n {
      MulMonotone(n, k - 1, Charge(p));
    }
  }

  /** In particular no budget suffices for BLE records with full buffers that `handle_tracked_object_data`
      passes after an upload of no BR/EDR record, whose text takes 4 characters: the message buffer less
      those and at most 128 characters of basic information. */
  lemma FullRecordsExceedBudget(scope: Scope, budget: int)
    requires 8060 <= budget <= 8188
    ensures !AllFit(scope, Ble, 31, 31, budget)
  {
    var n, excess := Capacity(31, budget), 93 - Room(scope);
    if n <= 9 {
      MulMonotone(n, 9, Charge(31));
    }
    MulMonotone(19, excess, n);
    assert WidestRecord(scope, 31, 31) == Charge(31) + excess;
    assert n * (Charge(31) + excess) == n * Charge(31) + n * excess;
    FitsExactly(scope, Ble, 31, 31, budget);
  }
}
