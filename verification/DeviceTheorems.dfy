/** Ownership of the records: what goes to `mp_free`, and when. */
module DeviceOwnership {
  import opened Common
  import opened DeviceSpec
  import opened DeviceProofs

  /** The slot an operation takes from the pool. */
  ghost function Taken(s: Store, t: int, op: Op): Option<Slot>
    requires Legal(s, t, op)
  {
    match op
    case ObserveBrOp(o, clock, now, slot) => if CheckScanned(s, o.mac, clock).1.None? then slot else None
    case ObserveBleOp(o, now, slot) => if FindMac(s.devices, s.ble, o.mac).None? then slot else None
    case _ => None
  }

  ghost function Freed(s: Store, t: int, op: Op): seq<Slot>
    requires Legal(s, t, op)
  {
    Apply(s, t, op).1
  }

  lemma {:induction false} CountOnce(q: seq<Slot>, x: Slot)
    requires NoDup(q)
    ensures multiset(q)[x] == Indicator(x in q)
  {
    if q != [] {
      CountOnce(q[1..], x);
      assert q == [q[0]] + q[1..];
    }
  }

  /** What one operation may do to slot `x`: hand it back once, if its record was on some list, and
      then take it, if its record is on none. */
  ghost predicate Owned(s: Store, r: Store, freed: seq<Slot>, taken: Option<Slot>, x: Slot) {
    && multiset(freed)[x] <= Indicator(OnList(s, x))
    && (taken == Some(x) ==> !OnList(s, x) || x in freed)
    && (taken != Some(x) ==> (x in freed <==> OnList(s, x) && !OnList(r, x)))
    && Indicator(OnList(r, x)) == Indicator(OnList(s, x)) + Indicator(taken == Some(x)) - multiset(freed)[x]
  }

  lemma OwnedByRelease(s: Store, r: Store, freed: seq<Slot>, x: Slot)
    requires Ownership(s) && FreedExactly(s, r, freed)
    requires OnList(r, x) ==> OnList(s, x)
    ensures Owned(s, r, freed, None, x)
  {
    CountOnce(freed, x);
  }

  /** After the release of `freed` the slot `taken`, which is then on no list, is taken. */
  lemma OwnedByTaking(s: Store, r1: Store, r: Store, freed: seq<Slot>, taken: Option<Slot>, x: Slot)
    requires Ownership(s) && FreedExactly(s, r1, freed)
    requires OnList(r1, x) ==> OnList(s, x)
    requires taken.Some? ==> !OnList(r1, taken.value)
    requires OnList(r, x) <==> OnList(r1, x) || taken == Some(x)
    ensures Owned(s, r, freed, taken, x)
  {
    CountOnce(freed, x);
  }

  lemma ObserveBrLists(s: Store, o: Observation, clock: seq<int>, now: int, slot: Option<Slot>, x: Slot)
    requires Listed(s) && |clock| >= |s.scanned| && |o.payload| <= LENGTH_OF_ADVERTISEMENT
    ensures var (r1, found, freed) := CheckScanned(s, o.mac, clock);
            && (OnList(r1, x) ==> OnList(s, x))
            && ObserveBr(s, o, clock, now, slot).1 == freed
            && (OnList(ObserveBr(s, o, clock, now, slot).0, x) <==> OnList(r1, x) || (found.None? && slot == Some(x)))
  {
  }

  lemma ObserveBrOwned(s: Store, o: Observation, clock: seq<int>, now: int, slot: Option<Slot>, x: Slot)
    requires Ownership(s) && Listed(s) && |clock| >= |s.scanned| && |o.payload| <= LENGTH_OF_ADVERTISEMENT
    requires slot.Some? ==> slot.value !in CheckScanned(s, o.mac, clock).0.devices
    ensures var (r, freed) := ObserveBr(s, o, clock, now, slot);
            Owned(s, r, freed, if CheckScanned(s, o.mac, clock).1.None? then slot else None, x)
  {
    CheckScannedOwnership(s, o.mac, clock);
    ObserveBrLists(s, o, clock, now, slot, x);
    var (r1, found, freed) := CheckScanned(s, o.mac, clock);
    OwnedByTaking(s, r1, ObserveBr(s, o, clock, now, slot).0, freed, if found.None? then slot else None, x);
  }

  /** A slot handed back was in use and is handed back once; a slot taken was not in use; and a slot
      is handed back precisely when its record leaves the last list it was on. */
  lemma StepOwnership(s: Store, t: int, op: Op, x: Slot)
    requires Inv(s, t) && Legal(s, t, op)
    ensures Owned(s, Apply(s, t, op).0, Freed(s, t, op), Taken(s, t, op), x)
  {
    match op
    case ObserveBrOp(o, clock, now, slot) => ObserveBrOwned(s, o, clock, now, slot, x);
    case ObserveBleOp(o, now, slot) =>
    case ScanResponseOp(mac, data) =>
    case UploadOp(kind, n) =>
      UploadOwnership(s, kind, n);
      OwnedByRelease(s, Apply(s, t, op).0, Freed(s, t, op), x);
    case CleanupScannedOp =>
      CleanupOwnership(s);
      OwnedByRelease(s, Apply(s, t, op).0, Freed(s, t, op), x);
    case CleanupBrOp =>
      CleanupOwnership(s);
      OwnedByRelease(s, Apply(s, t, op).0, Freed(s, t, op), x);
    case CleanupBleOp =>
      CleanupOwnership(s);
      OwnedByRelease(s, Apply(s, t, op).0, Freed(s, t, op), x);
  }

  ghost function TimesTaken(s: Store, t: int, ops: seq<Op>, x: Slot): nat
    requires LegalRun(s, t, ops)
    decreases |ops|
  {
    if ops == [] then 0
    else Indicator(Taken(s, t, ops[0]) == Some(x)) + TimesTaken(Apply(s, t, ops[0]).0, Now(t, ops[0]), ops[1..], x)
  }

  ghost function TimesFreed(s: Store, t: int, ops: seq<Op>, x: Slot): nat
    requires LegalRun(s, t, ops)
    decreases |ops|
  {
    if ops == [] then 0
    else multiset(Freed(s, t, ops[0]))[x] + TimesFreed(Apply(s, t, ops[0]).0, Now(t, ops[0]), ops[1..], x)
  }

  /** Over every run a slot is handed back exactly as often as it was taken, except that a record
      still on some list at the end has not been handed back yet. */
  lemma {:induction false} RunOwnership(s: Store, t: int, ops: seq<Op>, x: Slot)
    requires Inv(s, t) && LegalRun(s, t, ops)
    ensures Indicator(OnList(s, x)) + TimesTaken(s, t, ops, x)
         == TimesFreed(s, t, ops, x) + Indicator(OnList(Run(s, t, ops).0, x))
    decreases |ops|
  {
    if ops != [] {
      StepOwnership(s, t, ops[0], x);
      StepKeepsInv(s, t, ops[0]);
      RunOwnership(Apply(s, t, ops[0]).0, Now(t, ops[0]), ops[1..], x);
    }
  }

  /** From the empty lists on, a slot has been handed back exactly as often as it was taken, once less
      while its record is on a list; with all lists empty at the end nothing is outstanding. */
  lemma EveryRunFreesOnce(t: int, ops: seq<Op>, x: Slot)
    requires LegalRun(EMPTY, t, ops)
    ensures var s := Run(EMPTY, t, ops).0;
            && TimesTaken(EMPTY, t, ops, x) == TimesFreed(EMPTY, t, ops, x) + Indicator(OnList(s, x))
            && (s.devices == map[] ==> TimesTaken(EMPTY, t, ops, x) == TimesFreed(EMPTY, t, ops, x))
  {
    RunOwnership(EMPTY, t, ops, x);
    EveryRunKeepsInv(t, ops);
  }
}

/** When two records of one address on the BR/EDR list are disjoint in time. */
module DisjointSightings {
  import opened Common
  import opened DeviceSpec
  import opened DeviceProofs

  /** Every record on the BR/EDR list ended within the interval after it began. */
  ghost predicate WithinInterval(s: Store)
    requires Listed(s)
  {
    forall x <- s.br :: !Expired(s.devices[x], s.devices[x].final)
  }

  ghost predicate StrictSightings(s: Store)
    requires Listed(s)
  {
    forall i, j :: 0 <= i < j < |s.br| && s.devices[s.br[i]].mac == s.devices[s.br[j]].mac ==>
      s.devices[s.br[i]].final < s.devices[s.br[j]].initial
  }

  /** The clock reading with which a record is extended is still within the interval. */
  ghost predicate Punctual(s: Store, t: int, op: Op)
    requires Legal(s, t, op)
  {
    op.ObserveBrOp? ==>
      var found := CheckScanned(s, op.o.mac, op.clock).1;
      found.Some? ==> !Expired(s.devices[found.value], op.now)
  }

  /** A record of the BR/EDR list that has left the scanned list had expired. */
  ghost predicate OldRecordsExpired(s: Store, now: int)
    requires Listed(s)
  {
    forall x <- s.br :: x in s.scanned || Expired(s.devices[x], now)
  }

  ghost predicate StrictInv(s: Store, t: int) {
    Inv(s, t) && WithinInterval(s) && OldRecordsExpired(s, t) && StrictSightings(s)
  }

  lemma CheckScannedStrict(s: Store, mac: string, clock: seq<int>, t: int, now: int)
    requires StrictInv(s, t) && |clock| >= |s.scanned| && Monotone(t, clock, now)
    ensures var (r, found, freed) := CheckScanned(s, mac, clock);
            && r.br == s.br && Listed(r) && WithinInterval(r) && OldRecordsExpired(r, now) && StrictSightings(r)
            && (forall x <- r.br :: r.devices[x] == s.devices[x])
  {
    CheckScannedOwnership(s, mac, clock);
    ExpiredNodes(s, mac, clock, t, now);
    var w := Sweep(s.devices, s.scanned, mac, clock);
    ExpireStrict(s, w.kept, w.expired, t, now);
  }

  lemma ExpiredNodes(s: Store, mac: string, clock: seq<int>, t: int, now: int)
    requires Listed(s) && NewestFirst(s.devices, s.scanned) && |clock| >= |s.scanned| && Monotone(t, clock, now)
    ensures forall x <- Sweep(s.devices, s.scanned, mac, clock).expired :: x in s.devices && Expired(s.devices[x], now)
  {
    SweepExact(s.devices, s.scanned, mac, clock);
    var w := Sweep(s.devices, s.scanned, mac, clock);
    if w.expired != [] {
      BehindStop(s, w.kept, w.expired, clock[|w.kept|], now);
    }
  }

  lemma BehindStop(s: Store, kept: seq<Slot>, expired: seq<Slot>, reading: int, now: int)
    requires Listed(s) && s.scanned == kept + expired && reading <= now
    requires forall j :: |kept| <= j < |s.scanned| ==> Expired(s.devices[s.scanned[j]], reading)
    ensures forall x <- expired :: x in s.devices && Expired(s.devices[x], now)
  {
    forall x <- expired
      ensures x in s.devices && Expired(s.devices[x], now)
    {
      var j :| 0 <= j < |expired| && expired[j] == x;
      assert s.scanned[|kept| + j] == x;
    }
  }

  /** Expired records leave the scanned list. */
  lemma ExpireStrict(s: Store, kept: seq<Slot>, expired: seq<Slot>, t: int, now: int)
    requires StrictInv(s, t) && t <= now && s.scanned == kept + expired
    requires forall x <- expired :: x in s.devices && Expired(s.devices[x], now)
    requires var r := Release(s.(scanned := kept), Minus(expired, s.br)); Ownership(r) && Listed(r)
    ensures var r := Release(s.(scanned := kept), Minus(expired, s.br));
            && WithinInterval(r) && OldRecordsExpired(r, now) && StrictSightings(r)
            && (forall x <- r.br :: r.devices[x] == s.devices[x])
  {
    var r := Release(s.(scanned := kept), Minus(expired, s.br));
    assert forall x :: x in s.scanned <==> x in kept || x in expired;
    forall i, j | 0 <= i < j < |r.br| && r.devices[r.br[i]].mac == r.devices[r.br[j]].mac
      ensures r.devices[r.br[i]].final < r.devices[r.br[j]].initial
    {
      assert s.devices[s.br[i]].mac == s.devices[s.br[j]].mac;
    }
  }

  /** A record is extended within its interval. */
  lemma MergeStrict(s: Store, x: Slot, o: Observation, now: int)
    requires Listed(s) && Sightings(s) && x in s.scanned && |o.payload| <= LENGTH_OF_ADVERTISEMENT
    requires WithinInterval(s) && OldRecordsExpired(s, now) && StrictSightings(s) && !Expired(s.devices[x], now)
    ensures var r := s.(devices := s.devices[x := Merge(s.devices[x], o, now)]);
            Listed(r) && WithinInterval(r) && OldRecordsExpired(r, now) && StrictSightings(r)
  {
    MergeKeepsStrict(s, x, o, now);
  }

  lemma ObserveBrStrict(s: Store, o: Observation, clock: seq<int>, t: int, now: int, slot: Option<Slot>)
    requires StrictInv(s, t) && Legal(s, t, ObserveBrOp(o, clock, now, slot))
    requires Punctual(s, t, ObserveBrOp(o, clock, now, slot))
    ensures var r := ObserveBr(s, o, clock, now, slot).0;
            Listed(r) && WithinInterval(r) && OldRecordsExpired(r, now) && StrictSightings(r)
  {
    ObserveBrKeepsInv(s, o, clock, t, now, slot);
    CheckScannedStrict(s, o.mac, clock, t, now);
    CheckScannedKeepsInv(s, o.mac, clock, t);
    var (r1, found, freed) := CheckScanned(s, o.mac, clock);
    if found.Some? {
      MergeStrict(s, found.value, o, now);
    } else if slot.Some? {
      InsertStrict(r1, slot.value, o, now);
    }
  }

  lemma InsertStrict(s: Store, x: Slot, o: Observation, now: int)
    requires Ownership(s) && Listed(s) && x !in s.devices && |o.payload| <= LENGTH_OF_ADVERTISEMENT
    requires WithinInterval(s) && OldRecordsExpired(s, now) && StrictSightings(s)
    requires forall y <- s.scanned :: s.devices[y].mac != o.mac
    ensures var r := InsertBr(s, x, NewDevice(o, now));
            Listed(r) && WithinInterval(r) && OldRecordsExpired(r, now) && StrictSightings(r)
  {
    var r := InsertBr(s, x, NewDevice(o, now));
    InsertBrOwnership(s, x, NewDevice(o, now));
    assert forall y <- s.br :: y in s.devices && y != x;
    forall y <- r.br
      ensures !Expired(r.devices[y], r.devices[y].final) && (y in r.scanned || Expired(r.devices[y], now))
    {
      assert y == x || y in s.br;
    }
    forall i, j | 0 <= i < j < |r.br| && r.devices[r.br[i]].mac == r.devices[r.br[j]].mac
      ensures r.devices[r.br[i]].final < r.devices[r.br[j]].initial
    {
      assert r.br[i] == s.br[i] && s.br[i] in s.br;
      if j < |s.br| { assert r.br[j] == s.br[j] && s.br[j] in s.br; }
    }
  }

  lemma ShrinkStrict(s: Store, r: Store, now: int)
    requires Listed(s) && WithinInterval(s) && OldRecordsExpired(s, now) && StrictSightings(s) && Listed(r)
    requires forall x <- r.br :: x in s.devices && r.devices[x] == s.devices[x]
    requires Subsequence(r.br, s.br) && forall x <- r.br :: x in s.scanned ==> x in r.scanned
    ensures WithinInterval(r) && OldRecordsExpired(r, now) && StrictSightings(r)
  {
    SubsequenceMembers(r.br, s.br);
    forall i, j | 0 <= i < j < |r.br| && r.devices[r.br[i]].mac == r.devices[r.br[j]].mac
      ensures r.devices[r.br[i]].final < r.devices[r.br[j]].initial
    {
      var a, b := Positions(r.br, s.br, i, j);
    }
  }

  lemma LaterStillOld(s: Store, t: int, now: int)
    requires Listed(s) && OldRecordsExpired(s, t) && t <= now
    ensures OldRecordsExpired(s, now)
  {
  }

  /** When every record is extended within its interval, as it is whenever the clock does not advance
      between the two readings of one call, records of one address are strictly disjoint in time. */
  lemma StepStrict(s: Store, t: int, op: Op)
    requires StrictInv(s, t) && Legal(s, t, op) && Punctual(s, t, op)
    ensures StrictInv(Apply(s, t, op).0, Now(t, op))
  {
    StepKeepsInv(s, t, op);
    var r := Apply(s, t, op).0;
    SubsequenceSelf(s.br);
    match op
    case ObserveBrOp(o, clock, now, slot) => ObserveBrStrict(s, o, clock, t, now, slot);
    case ObserveBleOp(o, now, slot) =>
      ShrinkStrict(s, r, t);
      LaterStillOld(r, t, now);
    case ScanResponseOp(mac, data) =>
      ShrinkStrict(s, r, t);
    case UploadOp(kind, n) =>
      SuffixSubsequence(ListOf(s, kind), n);
      ShrinkStrict(s, r, t);
    case CleanupScannedOp =>
      MinusSubsequence(s.br, s.scanned);
      ShrinkStrict(s, r, t);
    case CleanupBrOp =>
    case CleanupBleOp =>
      ShrinkStrict(s, r, t);
  }

  /** The operation starts a record of an address in the very second in which an earlier record of
      that address was last extended. */
  ghost predicate StartsInSameSecond(s: Store, t: int, op: Op)
    requires Legal(s, t, op)
  {
    op.ObserveBrOp? && op.slot.Some? && CheckScanned(s, op.o.mac, op.clock).1.None?
    && exists y <- s.br :: s.devices[y].mac == op.o.mac && s.devices[y].final == op.now
  }

  /** Exactly those operations end strict disjointness. */
  lemma StrictUnlessSameSecond(s: Store, t: int, op: Op)
    requires Inv(s, t) && Legal(s, t, op) && StrictSightings(s)
    ensures Listed(Apply(s, t, op).0)
    ensures StrictSightings(Apply(s, t, op).0) <==> !StartsInSameSecond(s, t, op)
  {
    StepKeepsInv(s, t, op);
    var r := Apply(s, t, op).0;
    SubsequenceSelf(s.br);
    match op
    case ObserveBrOp(o, clock, now, slot) => ObserveBrTouches(s, o, clock, t, now, slot);
    case UploadOp(kind, n) =>
      SuffixSubsequence(ListOf(s, kind), n);
      ShrinkSightings(s, r);
    case CleanupScannedOp =>
      MinusSubsequence(s.br, s.scanned);
      ShrinkSightings(s, r);
    case CleanupBrOp =>
    case _ => ShrinkSightings(s, r);
  }

  lemma ShrinkSightings(s: Store, r: Store)
    requires Listed(s) && StrictSightings(s) && Listed(r) && Subsequence(r.br, s.br)
    requires forall x <- r.br :: x in s.devices && r.devices[x] == s.devices[x]
    ensures StrictSightings(r)
  {
    forall i, j | 0 <= i < j < |r.br| && r.devices[r.br[i]].mac == r.devices[r.br[j]].mac
      ensures r.devices[r.br[i]].final < r.devices[r.br[j]].initial
    {
      var a, b := Positions(r.br, s.br, i, j);
    }
  }

  lemma ObserveBrTouches(s: Store, o: Observation, clock: seq<int>, t: int, now: int, slot: Option<Slot>)
    requires Inv(s, t) && Legal(s, t, ObserveBrOp(o, clock, now, slot)) && StrictSightings(s)
    requires Listed(ObserveBr(s, o, clock, now, slot).0)
    ensures StrictSightings(ObserveBr(s, o, clock, now, slot).0)
       <==> !StartsInSameSecond(s, t, ObserveBrOp(o, clock, now, slot))
  {
    var (r1, found, freed) := CheckScanned(s, o.mac, clock);
    CheckScannedOwnership(s, o.mac, clock);
    CheckScannedKeepsInv(s, o.mac, clock, t);
    assert forall x <- r1.br :: x in s.devices && r1.devices[x] == s.devices[x];
    SubsequenceSelf(s.br);
    ShrinkSightings(s, r1);
    if found.Some? {
      MergeKeepsStrict(s, found.value, o, now);
    } else if slot.Some? {
      InsertTouches(r1, slot.value, o, t, now);
    }
  }

  /** A record on the scanned list is the last of its address, so extending it touches no other. */
  lemma MergeKeepsStrict(s: Store, x: Slot, o: Observation, now: int)
    requires Listed(s) && Sightings(s) && StrictSightings(s)
    requires x in s.scanned && |o.payload| <= LENGTH_OF_ADVERTISEMENT
    ensures var r := s.(devices := s.devices[x := Merge(s.devices[x], o, now)]); Listed(r) && StrictSightings(r)
  {
    var r := s.(devices := s.devices[x := Merge(s.devices[x], o, now)]);
    forall i, j | 0 <= i < j < |r.br| && r.devices[r.br[i]].mac == r.devices[r.br[j]].mac
      ensures r.devices[r.br[i]].final < r.devices[r.br[j]].initial
    {
      assert s.devices[s.br[i]].mac == s.devices[s.br[j]].mac;
      assert s.br[i] !in s.scanned;
    }
  }

  lemma InsertTouches(s: Store, x: Slot, o: Observation, t: int, now: int)
    requires Ownership(s) && Listed(s) && Times(s, t) && t <= now && StrictSightings(s)
    requires x !in s.devices && |o.payload| <= LENGTH_OF_ADVERTISEMENT
    ensures var r := InsertBr(s, x, NewDevice(o, now));
            && Listed(r)
            && (StrictSightings(r) <==> !exists y <- s.br :: s.devices[y].mac == o.mac && s.devices[y].final == now)
  {
    var d := NewDevice(o, now);
    var r := InsertBr(s, x, d);
    InsertBrOwnership(s, x, d);
    var n := |s.br|;
    assert r.br[n] == x;
    if y :| y in s.br && s.devices[y].mac == o.mac && s.devices[y].final == now {
      var i :| 0 <= i < n && s.br[i] == y;
      assert r.br[i] == y && !(r.devices[r.br[i]].final < r.devices[r.br[n]].initial);
    } else {
      forall i, j | 0 <= i < j < |r.br| && r.devices[r.br[i]].mac == r.devices[r.br[j]].mac
        ensures r.devices[r.br[i]].final < r.devices[r.br[j]].initial
      {
        assert r.br[i] == s.br[i] && s.br[i] in s.br;
        if j < n { assert r.br[j] == s.br[j] && s.br[j] in s.br; }
      }
    }
  }

  // ----- Runs

  /** Strictly disjoint now and after every operation of the run. */
  ghost predicate AlwaysStrict(s: Store, t: int, ops: seq<Op>)
    requires LegalRun(s, t, ops)
    decreases |ops|
  {
    && Listed(s) && StrictSightings(s)
    && (ops == [] || AlwaysStrict(Apply(s, t, ops[0]).0, Now(t, ops[0]), ops[1..]))
  }

  ghost predicate NeverInSameSecond(s: Store, t: int, ops: seq<Op>)
    requires LegalRun(s, t, ops)
    decreases |ops|
  {
    ops == [] || (!StartsInSameSecond(s, t, ops[0])
                  && NeverInSameSecond(Apply(s, t, ops[0]).0, Now(t, ops[0]), ops[1..]))
  }

  lemma {:induction false} RunStrictExactly(s: Store, t: int, ops: seq<Op>)
    requires Inv(s, t) && LegalRun(s, t, ops) && StrictSightings(s)
    ensures AlwaysStrict(s, t, ops) <==> NeverInSameSecond(s, t, ops)
    decreases |ops|
  {
    if ops != [] {
      StrictUnlessSameSecond(s, t, ops[0]);
      StepKeepsInv(s, t, ops[0]);
      if !StartsInSameSecond(s, t, ops[0]) {
        RunStrictExactly(Apply(s, t, ops[0]).0, Now(t, ops[0]), ops[1..]);
      }
    }
  }

  /** From the empty lists on, records of one address stay strictly disjoint in time if and only if no
      operation of the run starts one in the second in which an earlier one was last extended. */
  lemma EveryRunStrictExactly(t: int, ops: seq<Op>)
    requires LegalRun(EMPTY, t, ops)
    ensures AlwaysStrict(EMPTY, t, ops) <==> NeverInSameSecond(EMPTY, t, ops)
  {
    RunStrictExactly(EMPTY, t, ops);
  }

  ghost predicate AllPunctual(s: Store, t: int, ops: seq<Op>)
    requires LegalRun(s, t, ops)
    decreases |ops|
  {
    ops == [] || (Punctual(s, t, ops[0]) && AllPunctual(Apply(s, t, ops[0]).0, Now(t, ops[0]), ops[1..]))
  }

  lemma {:induction false} RunStrict(s: Store, t: int, ops: seq<Op>)
    requires StrictInv(s, t) && LegalRun(s, t, ops) && AllPunctual(s, t, ops)
    ensures AlwaysStrict(s, t, ops)
    decreases |ops|
  {
    if ops != [] {
      StepStrict(s, t, ops[0]);
      RunStrict(Apply(s, t, ops[0]).0, Now(t, ops[0]), ops[1..]);
    }
  }

  /** From the empty lists on they do so whenever every record is extended within its interval. */
  lemma EveryRunStrict(t: int, ops: seq<Op>)
    requires LegalRun(EMPTY, t, ops) && AllPunctual(EMPTY, t, ops)
    ensures AlwaysStrict(EMPTY, t, ops)
  {
    RunStrict(EMPTY, t, ops);
  }

  /** A run from the empty lists after which two records touch: an address is found in the last second
      of its interval, the clock advances before the record is extended, and the next sighting, in the
      same second, finds the record expired and starts another. */
  function TouchingRun(o: Observation): seq<Op> {
    [ObserveBrOp(o, [], 0, Some(0))] + LaterSightings(o)
  }

  function LaterSightings(o: Observation): seq<Op> {
    [ObserveBrOp(o, [600], 601, None)] + [ObserveBrOp(o, [601], 601, Some(1))]
  }

  lemma RecordsCanTouch(o: Observation)
    requires |o.payload| <= LENGTH_OF_ADVERTISEMENT
    ensures LegalRun(EMPTY, 0, TouchingRun(o))
    ensures var s := Run(EMPTY, 0, TouchingRun(o)).0;
            && s.br == [0, 1] && 0 in s.devices && 1 in s.devices
            && s.devices[0].mac == s.devices[1].mac && s.devices[0].final == s.devices[1].initial
  {
    FirstSighting(o);
    LaterTouch(o);
    RunFirst(EMPTY, 0, ObserveBrOp(o, [], 0, Some(0)), LaterSightings(o));
  }

  lemma LaterTouch(o: Observation)
    requires |o.payload| <= LENGTH_OF_ADVERTISEMENT
    ensures var s := Store(map[0 := NewDevice(o, 0)], [0], [0], []);
            && LegalRun(s, 0, LaterSightings(o))
            && var r := Run(s, 0, LaterSightings(o)).0;
               && r.br == [0, 1] && r.devices == map[0 := Merge(NewDevice(o, 0), o, 601), 1 := NewDevice(o, 601)]
  {
    var last := ObserveBrOp(o, [601], 601, Some(1));
    SecondSighting(o);
    ThirdSighting(o);
    RunFirst(Store(map[0 := Merge(NewDevice(o, 0), o, 601)], [0], [0], []), 601, last, []);
    assert [last] + [] == [last];
    RunFirst(Store(map[0 := NewDevice(o, 0)], [0], [0], []), 0, ObserveBrOp(o, [600], 601, None), [last]);
  }

  lemma RunFirst(s: Store, t: int, op: Op, ops: seq<Op>)
    requires Legal(s, t, op) && LegalRun(Apply(s, t, op).0, Now(t, op), ops)
    ensures LegalRun(s, t, [op] + ops) && Run(s, t, [op] + ops) == Run(Apply(s, t, op).0, Now(t, op), ops)
  {
    assert ([op] + ops)[1..] == ops;
  }

  lemma FirstSighting(o: Observation)
    requires |o.payload| <= LENGTH_OF_ADVERTISEMENT
    ensures Legal(EMPTY, 0, ObserveBrOp(o, [], 0, Some(0)))
    ensures ObserveBr(EMPTY, o, [], 0, Some(0)).0 == Store(map[0 := NewDevice(o, 0)], [0], [0], [])
  {
    assert Minus([], []) == [] && EMPTY.devices - ToSet([]) == map[];
  }

  lemma SweepOne(devices: map<Slot, Device>, x: Slot, mac: string, reading: int)
    requires x in devices
    ensures Sweep(devices, [x], mac, [reading]) ==
            if Expired(devices[x], reading) then Swept([], [x], None)
            else if devices[x].mac == mac then Swept([x], [], Some(x)) else Swept([x], [], None)
  {
  }

  /** What the search of a list of one record, which is on the BR/EDR list too, comes to. */
  lemma CheckOne(d: Device, mac: string, reading: int)
    requires Buffers(d)
    ensures var s := Store(map[0 := d], [0], [0], []);
            && Listed(s)
            && CheckScanned(s, mac, [reading]) ==
               if Expired(d, reading) then (s.(scanned := []), None, [])
               else (s, if d.mac == mac then Some(0) else None, [])
  {
    var s := Store(map[0 := d], [0], [0], []);
    SweepOne(s.devices, 0, mac, reading);
    assert Minus([0], [0]) == [] by { assert [0][..0] == []; }
    assert s.devices - ToSet([]) == s.devices;
  }

  lemma SecondSighting(o: Observation)
    requires |o.payload| <= LENGTH_OF_ADVERTISEMENT
    ensures var s := Store(map[0 := NewDevice(o, 0)], [0], [0], []);
            && Legal(s, 0, ObserveBrOp(o, [600], 601, None))
            && ObserveBr(s, o, [600], 601, None).0 == s.(devices := map[0 := Merge(NewDevice(o, 0), o, 601)])
  {
    CheckOne(NewDevice(o, 0), o.mac, 600);
  }

  lemma ThirdSighting(o: Observation)
    requires |o.payload| <= LENGTH_OF_ADVERTISEMENT
    ensures var s := Store(map[0 := Merge(NewDevice(o, 0), o, 601)], [0], [0], []);
            && Legal(s, 601, ObserveBrOp(o, [601], 601, Some(1)))
            && var r := ObserveBr(s, o, [601], 601, Some(1)).0;
               r.br == [0, 1] && r.devices == map[0 := s.devices[0], 1 := NewDevice(o, 601)]
  {
    CheckOne(Merge(NewDevice(o, 0), o, 601), o.mac, 601);
  }
}
