/** The BR/EDR devices: what was heard of each record since it was started.  An address may have several
    records; a sighting extends the one that is still on the scanned list, within its interval, and
    otherwise starts another. */
module BrHistory {
  import opened Common
  import opened DeviceSpec
  import opened DeviceProofs
  import H = BleHistory

  /** The records on the scanned list and on the BR/EDR list, and what was heard of each of them. */
  datatype Book = Book(scanned: seq<Slot>, br: seq<Slot>, heard: map<Slot, seq<H.Event>>)

  const EMPTY_BOOK := Book([], [], map[])

  function Heard(b: Book, x: Slot): seq<H.Event> {
    if x in b.heard then b.heard[x] else []
  }

  predicate Begun(b: Book, x: Slot) { Heard(b, x) != [] && Heard(b, x)[0].Seen? }

  /** The address of a record, and the time of its first sighting. */
  function Address(b: Book, x: Slot): string {
    if Begun(b, x) then Heard(b, x)[0].o.mac else ""
  }

  function Start(b: Book, x: Slot): int {
    if Begun(b, x) then Heard(b, x)[0].time else 0
  }

  /** More than ten minutes have passed since the first sighting. */
  predicate Late(b: Book, x: Slot, reading: int) { reading - Start(b, x) > 600 }

  /** The first place on the scanned list, from `i` on, with a record that is late or has the address. */
  function Place(b: Book, mac: string, clock: seq<int>, i: nat): (k: nat)
    requires i <= |b.scanned| <= |clock|
    ensures i <= k <= |b.scanned|
    decreases |b.scanned| - i
  {
    if i == |b.scanned| || Late(b, b.scanned[i], clock[i]) || Address(b, b.scanned[i]) == mac then i
    else Place(b, mac, clock, i + 1)
  }

  /** The record a sighting extends: one with the address that is not late, with none late before it. */
  function Extended(b: Book, mac: string, clock: seq<int>): Option<Slot> {
    if |clock| < |b.scanned| then None
    else
      var k := Place(b, mac, clock, 0);
      if k < |b.scanned| && !Late(b, b.scanned[k], clock[k]) then Some(b.scanned[k]) else None
  }

  /** What remains when these records are on the lists. */
  function Keep(b: Book, scanned: seq<Slot>, br: seq<Slot>): Book {
    Book(scanned, br, map x | x in b.heard && (x in scanned || x in br) :: b.heard[x])
  }

  function Add(b: Book, x: Slot, h: seq<H.Event>): Book {
    Book([x] + b.scanned, b.br + [x], b.heard[x := h])
  }

  /** The late records leave the scanned list with all behind them. */
  function Expire(b: Book, mac: string, clock: seq<int>): Book {
    if |clock| < |b.scanned| then b else Keep(b, b.scanned[..Place(b, mac, clock, 0)], b.br)
  }

  /** The book after an operation, which does not look at the records. */
  function Note(b: Book, op: Op): Book {
    match op
    case ObserveBrOp(o, clock, now, slot) =>
      var e := Extended(b, o.mac, clock);
      if e.Some? then b.(heard := b.heard[e.value := Heard(b, e.value) + [H.Seen(o, now)]])
      else if slot.Some? then Add(Expire(b, o.mac, clock), slot.value, [H.Seen(o, now)])
      else Expire(b, o.mac, clock)
    case UploadOp(kind, n) => if kind == BrEdr && n <= |b.br| then Keep(b, b.scanned, b.br[n..]) else b
    case CleanupScannedOp => Keep(b, [], Minus(b.br, b.scanned))
    case CleanupBrOp => Keep(b, Minus(b.scanned, b.br), [])
    case _ => b
  }

  function NoteAll(b: Book, ops: seq<Op>): Book
    decreases |ops|
  {
    if ops == [] then b else NoteAll(Note(b, ops[0]), ops[1..])
  }

  /** The record an operation extends or starts. */
  function Touched(b: Book, op: Op): Option<Slot> {
    if !op.ObserveBrOp? then None
    else
      var e := Extended(b, op.o.mac, op.clock);
      if e.Some? then e else op.slot
  }

  // ----- The lists are what the book says

  ghost predicate Aligned(s: Store, b: Book) {
    && s.scanned == b.scanned && s.br == b.br
    && forall x :: x in b.heard <==> x in s.scanned || x in s.br
  }

  /** The record represents the history; what that means comes into a proof only where asked for. */
  ghost predicate True(d: Device, h: seq<H.Event>) {
    forall asked :: TrueIf(d, h, asked)
  }

  ghost predicate TrueIf(d: Device, h: seq<H.Event>, asked: bool) { asked ==> H.Represents(d, h) }

  lemma TrueIs(d: Device, h: seq<H.Event>)
    ensures True(d, h) <==> H.Represents(d, h)
  {
    assert True(d, h) ==> TrueIf(d, h, true);
  }

  /** Record `x` tells what was heard of it. */
  ghost predicate Tells(s: Store, b: Book, x: Slot) {
    x in s.devices && x in b.heard && True(s.devices[x], b.heard[x])
  }

  ghost predicate Refines(s: Store, b: Book) {
    Aligned(s, b) && forall x <- b.heard :: Tells(s, b, x)
  }

  lemma TellsStart(s: Store, b: Book, x: Slot)
    requires Tells(s, b, x)
    ensures Begun(b, x) && Start(b, x) == s.devices[x].initial && Address(b, x) == s.devices[x].mac
  {
    var h := b.heard[x];
    TrueIs(s.devices[x], h);
    assert H.Holds(h, H.AnySighting, 0);
  }

  lemma {:induction false} PlaceIsStop(s: Store, b: Book, mac: string, clock: seq<int>, i: nat)
    requires Refines(s, b) && i <= |s.scanned| <= |clock| && forall x <- s.scanned :: x in s.devices
    ensures Stop(s.devices, s.scanned, mac, clock, i) == Place(b, mac, clock, i)
    decreases |s.scanned| - i
  {
    if i < |s.scanned| {
      assert s.scanned[i] in b.heard;
      TellsStart(s, b, s.scanned[i]);
      PlaceIsStop(s, b, mac, clock, i + 1);
    }
  }

  /** Records leave the lists and the pool; those that stay are as they were. */
  lemma KeepRefines(s: Store, b: Book, r: Store)
    requires Refines(s, b)
    requires forall x :: x in r.scanned || x in r.br ==>
               (x in s.scanned || x in s.br) && x in r.devices && x in s.devices && r.devices[x] == s.devices[x]
    ensures Refines(r, Keep(b, r.scanned, r.br))
  {
    var c := Keep(b, r.scanned, r.br);
    forall x <- c.heard
      ensures Tells(r, c, x)
    {
      assert Tells(s, b, x);
    }
  }

  /** The book changes only where the store does. */
  lemma SameRefines(s: Store, b: Book, r: Store)
    requires Refines(s, b) && r.scanned == s.scanned && r.br == s.br
    requires forall x :: x in s.scanned || x in s.br ==>
               x in r.devices && x in s.devices && r.devices[x] == s.devices[x]
    ensures Refines(r, b)
  {
    forall x <- b.heard
      ensures Tells(r, b, x)
    {
      assert Tells(s, b, x);
    }
  }

  lemma UpdateRefines(s: Store, b: Book, x: Slot, d: Device, h: seq<H.Event>)
    requires Refines(s, b) && x in b.heard && True(d, h)
    ensures Refines(s.(devices := s.devices[x := d]), b.(heard := b.heard[x := h]))
  {
    var r, c := s.(devices := s.devices[x := d]), b.(heard := b.heard[x := h]);
    forall y <- c.heard
      ensures Tells(r, c, y)
    {
      assert y != x ==> Tells(s, b, y);
    }
  }

  lemma AddRefines(s: Store, b: Book, x: Slot, d: Device, h: seq<H.Event>)
    requires Refines(s, b) && x !in s.devices && True(d, h)
    ensures Refines(InsertBr(s, x, d), Add(b, x, h))
  {
    var r, c := InsertBr(s, x, d), Add(b, x, h);
    forall y <- c.heard
      ensures Tells(r, c, y)
    {
      assert y != x ==> Tells(s, b, y);
    }
    assert forall y :: y in r.br <==> y in s.br || y == x;
    assert forall y :: y in r.scanned <==> y in s.scanned || y == x;
  }

  // ----- Sightings

  lemma FoundIsExtended(s: Store, b: Book, mac: string, clock: seq<int>)
    requires Listed(s) && Refines(s, b) && |s.scanned| <= |clock|
    ensures CheckScanned(s, mac, clock).1 == Extended(b, mac, clock)
    ensures CheckScanned(s, mac, clock).0.scanned == if Extended(b, mac, clock).Some? then s.scanned
                                                     else s.scanned[..Place(b, mac, clock, 0)]
    ensures CheckScanned(s, mac, clock).0.br == s.br
  {
    PlaceIsStop(s, b, mac, clock, 0);
    var k := Place(b, mac, clock, 0);
    if k < |s.scanned| {
      assert s.scanned[k] in b.heard;
      TellsStart(s, b, s.scanned[k]);
    } else {
      assert s.scanned[..k] == s.scanned;
    }
  }

  lemma ExpireRefines(s: Store, b: Book, mac: string, clock: seq<int>)
    requires Ownership(s) && Listed(s) && Refines(s, b) && |s.scanned| <= |clock|
    requires Extended(b, mac, clock).None?
    ensures Refines(CheckScanned(s, mac, clock).0, Expire(b, mac, clock))
  {
    FoundIsExtended(s, b, mac, clock);
    CheckScannedOwnership(s, mac, clock);
    KeepRefines(s, b, CheckScanned(s, mac, clock).0);
  }

  lemma TrueMerge(d: Device, h: seq<H.Event>, o: Observation, now: int)
    requires Buffers(d) && True(d, h) && o.mac == d.mac && |o.payload| <= LENGTH_OF_ADVERTISEMENT
    ensures True(Merge(d, o, now), h + [H.Seen(o, now)])
  {
    TrueIs(d, h);
    H.MergeRepresents(d, h, o, now);
    TrueIs(Merge(d, o, now), h + [H.Seen(o, now)]);
  }

  lemma TrueNew(o: Observation, now: int)
    requires |o.payload| <= LENGTH_OF_ADVERTISEMENT
    ensures True(NewDevice(o, now), [H.Seen(o, now)])
  {
    H.NewRepresents(o, now);
    TrueIs(NewDevice(o, now), [H.Seen(o, now)]);
  }

  lemma ExtendRefines(s: Store, b: Book, o: Observation, clock: seq<int>, now: int)
    requires Listed(s) && Refines(s, b) && |s.scanned| <= |clock| && |o.payload| <= LENGTH_OF_ADVERTISEMENT
    requires Extended(b, o.mac, clock).Some?
    ensures var e := Extended(b, o.mac, clock).value;
            && e in s.devices && Buffers(s.devices[e])
            && Refines(s.(devices := s.devices[e := Merge(s.devices[e], o, now)]),
                       b.(heard := b.heard[e := Heard(b, e) + [H.Seen(o, now)]]))
  {
    var e := Extended(b, o.mac, clock).value;
    FoundIsExtended(s, b, o.mac, clock);
    SearchFound(s, o.mac, clock);
    assert e in b.heard;
    assert Tells(s, b, e);
    TrueMerge(s.devices[e], b.heard[e], o, now);
    UpdateRefines(s, b, e, Merge(s.devices[e], o, now), b.heard[e] + [H.Seen(o, now)]);
  }

  lemma ObserveBrRefines(s: Store, t: int, b: Book, o: Observation, clock: seq<int>, now: int, slot: Option<Slot>)
    requires Inv(s, t) && Legal(s, t, ObserveBrOp(o, clock, now, slot)) && Refines(s, b)
    ensures Refines(ObserveBr(s, o, clock, now, slot).0, Note(b, ObserveBrOp(o, clock, now, slot)))
  {
    FoundIsExtended(s, b, o.mac, clock);
    if Extended(b, o.mac, clock).Some? {
      SearchFound(s, o.mac, clock);
      ExtendRefines(s, b, o, clock, now);
    } else {
      ExpireRefines(s, b, o.mac, clock);
      if slot.Some? {
        TrueNew(o, now);
        AddRefines(CheckScanned(s, o.mac, clock).0, Expire(b, o.mac, clock), slot.value, NewDevice(o, now),
                   [H.Seen(o, now)]);
      }
    }
  }

  // ----- The other operations

  lemma BleRefines(s: Store, t: int, b: Book, op: Op)
    requires Inv(s, t) && Legal(s, t, op) && Refines(s, b)
    requires op.ObserveBleOp? || op.ScanResponseOp? || op.CleanupBleOp? || (op.UploadOp? && op.kind == Ble)
    ensures Refines(Apply(s, t, op).0, b)
  {
    BleLeavesBr(s, t, op);
    SameRefines(s, b, Apply(s, t, op).0);
  }

  /** Operations on the BLE list leave the BR/EDR records alone. */
  lemma BleLeavesBr(s: Store, t: int, op: Op)
    requires Inv(s, t) && Legal(s, t, op)
    requires op.ObserveBleOp? || op.ScanResponseOp? || op.CleanupBleOp? || (op.UploadOp? && op.kind == Ble)
    ensures var r := Apply(s, t, op).0;
            && r.scanned == s.scanned && r.br == s.br
            && forall x :: x in s.scanned || x in s.br ==>
                 x in r.devices && x in s.devices && r.devices[x] == s.devices[x]
  {
  }

  lemma LeavingRefines(s: Store, t: int, b: Book, op: Op)
    requires Inv(s, t) && Legal(s, t, op) && Refines(s, b)
    requires op.CleanupScannedOp? || op.CleanupBrOp? || (op.UploadOp? && op.kind == BrEdr)
    ensures Refines(Apply(s, t, op).0, Note(b, op))
  {
    StepKeepsInv(s, t, op);
    KeepRefines(s, b, Apply(s, t, op).0);
  }

  /** Every operation keeps each record what its history says, and leaves all records alone but the one it
      extends or starts. */
  lemma StepRefines(s: Store, t: int, op: Op, b: Book)
    requires Inv(s, t) && Legal(s, t, op) && Refines(s, b)
    ensures Inv(Apply(s, t, op).0, Now(t, op)) && Refines(Apply(s, t, op).0, Note(b, op))
    ensures Untouched(s, Apply(s, t, op).0, Touched(b, op))
  {
    StepKeepsInv(s, t, op);
    StepLeaves(s, t, op, b);
    match op
    case ObserveBrOp(o, clock, now, slot) => ObserveBrRefines(s, t, b, o, clock, now, slot);
    case UploadOp(kind, n) => if kind == BrEdr { LeavingRefines(s, t, b, op); } else { BleRefines(s, t, b, op); }
    case CleanupScannedOp => LeavingRefines(s, t, b, op);
    case CleanupBrOp => LeavingRefines(s, t, b, op);
    case _ => BleRefines(s, t, b, op);
  }

  /** No other BR/EDR record has changed. */
  ghost predicate Untouched(s: Store, r: Store, touched: Option<Slot>) {
    forall x :: (x in r.scanned || x in r.br) && touched != Some(x) ==>
      x in s.devices && x in r.devices && r.devices[x] == s.devices[x]
  }

  lemma StepLeaves(s: Store, t: int, op: Op, b: Book)
    requires Inv(s, t) && Legal(s, t, op) && Refines(s, b)
    ensures Untouched(s, Apply(s, t, op).0, Touched(b, op))
  {
    match op
    case ObserveBrOp(o, clock, now, slot) => SightingLeaves(s, b, o, clock, now, slot);
    case UploadOp(kind, n) => UploadOwnership(s, kind, n);
    case CleanupScannedOp => CleanupScannedOwnership(s);
    case CleanupBrOp => CleanupBrOwnership(s);
    case _ => BleLeavesBr(s, t, op);
  }

  lemma SightingLeaves(s: Store, b: Book, o: Observation, clock: seq<int>, now: int, slot: Option<Slot>)
    requires Ownership(s) && Listed(s) && Refines(s, b) && |s.scanned| <= |clock|
    requires |o.payload| <= LENGTH_OF_ADVERTISEMENT
    ensures Untouched(s, ObserveBr(s, o, clock, now, slot).0, Touched(b, ObserveBrOp(o, clock, now, slot)))
  {
    FoundIsExtended(s, b, o.mac, clock);
    if Extended(b, o.mac, clock).Some? {
      SearchFound(s, o.mac, clock);
      MergeLeaves(s, Extended(b, o.mac, clock).value, Merge(s.devices[Extended(b, o.mac, clock).value], o, now));
    } else {
      ExpiryLeaves(s, o.mac, clock);
      if slot.Some? {
        var m := CheckScanned(s, o.mac, clock).0;
        InsertLeaves(m, slot.value, NewDevice(o, now));
        LeavesTwice(s, m, InsertBr(m, slot.value, NewDevice(o, now)), slot.value);
      }
    }
  }

  lemma MergeLeaves(s: Store, x: Slot, d: Device)
    requires Listed(s)
    ensures Untouched(s, s.(devices := s.devices[x := d]), Some(x))
  {
  }

  lemma ExpiryLeaves(s: Store, mac: string, clock: seq<int>)
    requires Ownership(s) && Listed(s) && |s.scanned| <= |clock|
    ensures Listed(CheckScanned(s, mac, clock).0) && Untouched(s, CheckScanned(s, mac, clock).0, None)
  {
    CheckScannedOwnership(s, mac, clock);
  }

  lemma LeavesTwice(s: Store, m: Store, r: Store, x: Slot)
    requires Untouched(s, m, None) && Untouched(m, r, Some(x)) && r.scanned == [x] + m.scanned && r.br == m.br + [x]
    ensures Untouched(s, r, Some(x))
  {
  }

  lemma InsertLeaves(s: Store, x: Slot, d: Device)
    requires Listed(s)
    ensures Untouched(s, InsertBr(s, x, d), Some(x))
  {
    assert forall y :: y in s.br + [x] <==> y in s.br || y == x;
    assert forall y :: y in [x] + s.scanned <==> y in s.scanned || y == x;
  }

  lemma {:induction false} RunRefines(s: Store, t: int, ops: seq<Op>, b: Book)
    requires Inv(s, t) && LegalRun(s, t, ops) && Refines(s, b)
    ensures Refines(Run(s, t, ops).0, NoteAll(b, ops))
    decreases |ops|
  {
    if ops != [] {
      StepRefines(s, t, ops[0], b);
      RunRefines(Apply(s, t, ops[0]).0, Now(t, ops[0]), ops[1..], Note(b, ops[0]));
    }
  }

  /** From the empty lists on: after every run each BR/EDR record tells what the operations say was heard
      of it. */
  lemma EveryRunRefines(t: int, ops: seq<Op>)
    requires LegalRun(EMPTY, t, ops)
    ensures var s, b := Run(EMPTY, t, ops).0, NoteAll(EMPTY_BOOK, ops);
            && Refines(s, b)
            && forall x :: x in s.scanned || x in s.br ==>
                 x in s.devices && x in b.heard && H.Represents(s.devices[x], b.heard[x])
  {
    RunRefines(EMPTY, t, ops, EMPTY_BOOK);
    var s, b := Run(EMPTY, t, ops).0, NoteAll(EMPTY_BOOK, ops);
    forall x | x in s.scanned || x in s.br
      ensures x in s.devices && x in b.heard && H.Represents(s.devices[x], b.heard[x])
    {
      assert Tells(s, b, x);
      TrueIs(s.devices[x], b.heard[x]);
    }
  }
}
