/** Invariants of the device lists over every sequence of operations. */
module DeviceProofs {
  import opened Common
  import opened DeviceSpec

  ghost predicate OnList(s: Store, x: Slot) { x in s.scanned || x in s.br || x in s.ble }

  /** No list holds a record twice; the BLE list shares none; the slots in use are exactly those of
      the records on some list. */
  ghost predicate Ownership(s: Store) {
    && NoDup(s.scanned) && NoDup(s.br) && NoDup(s.ble)
    && (forall x <- s.ble :: x !in s.scanned && x !in s.br)
    && (forall x :: x in s.devices <==> OnList(s, x))
  }

  ghost predicate MacDistinct(devices: map<Slot, Device>, ids: seq<Slot>)
    requires forall x <- ids :: x in devices
  {
    forall i, j :: 0 <= i < j < |ids| ==> devices[ids[i]].mac != devices[ids[j]].mac
  }

  /** Newest first. */
  ghost predicate NewestFirst(devices: map<Slot, Device>, ids: seq<Slot>)
    requires forall x <- ids :: x in devices
  {
    forall i, j :: 0 <= i < j < |ids| ==> devices[ids[i]].initial >= devices[ids[j]].initial
  }

  /** A record ends before the next record of the same address begins, and only the last record of
      an address can still be extended. */
  ghost predicate Sightings(s: Store)
    requires Listed(s)
  {
    forall i, j :: 0 <= i < j < |s.br| && s.devices[s.br[i]].mac == s.devices[s.br[j]].mac ==>
      s.devices[s.br[i]].final <= s.devices[s.br[j]].initial && s.br[i] !in s.scanned
  }

  ghost predicate Times(s: Store, now: int) {
    forall x :: x in s.devices ==> s.devices[x].initial <= s.devices[x].final <= now
  }

  ghost predicate Inv(s: Store, now: int) {
    && Ownership(s) && Listed(s)
    && MacDistinct(s.devices, s.scanned) && MacDistinct(s.devices, s.ble)
    && NewestFirst(s.devices, s.scanned)
    && Sightings(s)
    && Times(s, now)
  }

  ghost predicate Monotone(start: int, clock: seq<int>, end: int) {
    && start <= end
    && (forall i :: 0 <= i < |clock| ==> start <= clock[i] <= end)
    && (forall i, j :: 0 <= i < j < |clock| ==> clock[i] <= clock[j])
  }

  lemma {:induction false} MinusNoDup(s: seq<Slot>, t: seq<Slot>)
    requires NoDup(s)
    ensures NoDup(Minus(s, t))
  {
    if s != [] {
      MinusNoDup(s[..|s| - 1], t);
    }
  }

  lemma {:induction false} PassedNodes(devices: map<Slot, Device>, ids: seq<Slot>, mac: string, clock: seq<int>, i: nat)
    requires i <= |ids| <= |clock| && forall x <- ids :: x in devices
    ensures var k := Stop(devices, ids, mac, clock, i);
            forall j :: i <= j < k ==> !Expired(devices[ids[j]], clock[j]) && devices[ids[j]].mac != mac
    decreases |ids| - i
  {
    if i < Stop(devices, ids, mac, clock, i) {
      PassedNodes(devices, ids, mac, clock, i + 1);
    }
  }

  /** The sweep is exact.  The nodes it passes are within the interval when they are looked at; if it
      stops at an expired node, that node and all behind it are expired at that reading; and when it
      finds nothing, no node that stays has the address looked for. */
  lemma SweepExact(devices: map<Slot, Device>, ids: seq<Slot>, mac: string, clock: seq<int>)
    requires |ids| <= |clock| && forall x <- ids :: x in devices
    requires NewestFirst(devices, ids)
    ensures var r := Sweep(devices, ids, mac, clock);
            && (r.found.None? ==> forall i :: 0 <= i < |r.kept| ==>
                  !Expired(devices[ids[i]], clock[i]) && devices[ids[i]].mac != mac)
            && (forall j :: |r.kept| <= j < |ids| ==> Expired(devices[ids[j]], clock[|r.kept|]))
  {
    var k := Stop(devices, ids, mac, clock, 0);
    PassedNodes(devices, ids, mac, clock, 0);
    if k < |ids| && Expired(devices[ids[k]], clock[k]) {
      OlderBehind(devices, ids, k, clock[k]);
    }
  }

  lemma OlderBehind(devices: map<Slot, Device>, ids: seq<Slot>, k: nat, t: int)
    requires k < |ids| && forall x <- ids :: x in devices
    requires NewestFirst(devices, ids) && Expired(devices[ids[k]], t)
    ensures forall j :: k <= j < |ids| ==> Expired(devices[ids[j]], t)
  {
  }

  /** When the clock stands still during the pass and nothing is found, the nodes that leave are
      exactly the nodes older than the interval. */
  lemma SweepRemovesExactlyExpired(devices: map<Slot, Device>, ids: seq<Slot>, mac: string, clock: seq<int>, now: int)
    requires |ids| <= |clock| && forall x <- ids :: x in devices
    requires NewestFirst(devices, ids) && forall i :: 0 <= i < |clock| ==> clock[i] == now
    ensures var r := Sweep(devices, ids, mac, clock);
            && ids == r.kept + r.expired
            && (r.found.None? ==> forall i :: 0 <= i < |ids| ==> (i >= |r.kept| <==> Expired(devices[ids[i]], now)))
  {
    SweepExact(devices, ids, mac, clock);
  }

  // ----- Taking slots out of a list

  /** `remove_list_node`: the node is taken out of the list. */
  function Without(s: seq<Slot>, x: Slot): seq<Slot> { Minus(s, [x]) }

  lemma {:induction false} MinusAppend(s: seq<Slot>, x: Slot, t: seq<Slot>)
    ensures Minus(s + [x], t) == Minus(s, t) + if x in t then [] else [x]
  {
    assert (s + [x])[..|s|] == s;
  }

  lemma {:induction false} MinusConcat(a: seq<Slot>, b: seq<Slot>, t: seq<Slot>)
    ensures Minus(a + b, t) == Minus(a, t) + Minus(b, t)
  {
    if b == [] {
      assert a + b == a;
    } else {
      var n := |b| - 1;
      assert a + b == (a + b[..n]) + [b[n]];
      MinusAppend(a + b[..n], b[n], t);
      MinusConcat(a, b[..n], t);
    }
  }

  lemma {:induction false} MinusNothing(s: seq<Slot>, t: seq<Slot>)
    requires forall x <- s :: x !in t
    ensures Minus(s, t) == s
  {
    if s != [] {
      MinusNothing(s[..|s| - 1], t);
      assert s == s[..|s| - 1] + [s[|s| - 1]];
    }
  }

  lemma WithoutMiddle(a: seq<Slot>, x: Slot, b: seq<Slot>)
    requires x !in a && x !in b
    ensures Without(a + [x] + b, x) == a + b
  {
    MinusConcat(a + [x], b, [x]);
    MinusAppend(a, x, [x]);
    MinusNothing(a, [x]);
    MinusNothing(b, [x]);
  }

  lemma WithoutAt(s: seq<Slot>, i: nat)
    requires NoDup(s) && i < |s|
    ensures Without(s, s[i]) == s[..i] + s[i + 1..]
  {
    var a, x, b := s[..i], s[i], s[i + 1..];
    assert s == a + [x] + b;
    assert forall j :: 0 <= j < |a| ==> a[j] == s[j];
    assert forall j :: 0 <= j < |b| ==> b[j] == s[i + 1 + j];
    WithoutMiddle(a, x, b);
  }

  lemma WithoutFirst(s: seq<Slot>)
    requires NoDup(s) && s != []
    ensures Without(s, s[0]) == s[1..]
  {
    WithoutAt(s, 0);
    assert s[..0] + s[1..] == s[1..];
  }

  // ----- Ownership

  /** `freed` lists, once each, exactly the slots that were in use and are on no list any more. */
  ghost predicate FreedExactly(s: Store, r: Store, freed: seq<Slot>) {
    && NoDup(freed)
    && forall x :: x in freed <==> x in s.devices && !OnList(r, x)
  }

  lemma CheckScannedOwnership(s: Store, mac: string, clock: seq<int>)
    requires Ownership(s) && Listed(s) && |clock| >= |s.scanned|
    ensures var (r, found, freed) := CheckScanned(s, mac, clock);
            Ownership(r) && FreedExactly(s, r, freed) && Listed(r)
  {
    var w := Sweep(s.devices, s.scanned, mac, clock);
    ReleaseExpired(s, w.kept, w.expired);
  }

  lemma ReleaseExpired(s: Store, kept: seq<Slot>, expired: seq<Slot>)
    requires Ownership(s) && Listed(s) && s.scanned == kept + expired
    ensures var freed := Minus(expired, s.br);
            var r := Release(s.(scanned := kept), freed);
            Ownership(r) && FreedExactly(s, r, freed) && Listed(r)
  {
    NoDupParts(kept, expired);
    assert forall x :: x in s.scanned <==> x in kept || x in expired;
    MinusNoDup(expired, s.br);
  }

  lemma NoDupParts(a: seq<Slot>, b: seq<Slot>)
    requires NoDup(a + b)
    ensures NoDup(a) && NoDup(b) && forall x <- b :: x !in a
  {
    var s := a + b;
    assert forall i :: 0 <= i < |a| ==> a[i] == s[i];
    assert forall i :: 0 <= i < |b| ==> b[i] == s[|a| + i];
  }

  lemma UploadOwnership(s: Store, kind: Kind, n: nat)
    requires Ownership(s) && Listed(s) && n <= |ListOf(s, kind)|
    ensures var (r, freed) := Upload(s, kind, n);
            Ownership(r) && FreedExactly(s, r, freed) && Listed(r)
  {
    var list := ListOf(s, kind);
    assert list == list[..n] + list[n..];
    assert forall x :: x in list <==> x in list[..n] || x in list[n..];
    assert forall x :: x in list[..n] ==> x !in list[n..];
    if kind == BrEdr {
      MinusNoDup(list[..n], s.scanned);
    }
  }

  lemma CleanupScannedOwnership(s: Store)
    requires Ownership(s) && Listed(s)
    ensures var (r, freed) := CleanupScanned(s); Ownership(r) && FreedExactly(s, r, freed) && Listed(r)
  {
    MinusNoDup(s.br, s.scanned);
  }

  lemma CleanupBrOwnership(s: Store)
    requires Ownership(s) && Listed(s)
    ensures var (r, freed) := CleanupBr(s); Ownership(r) && FreedExactly(s, r, freed) && Listed(r)
  {
    MinusNoDup(s.scanned, s.br);
  }

  lemma CleanupBleOwnership(s: Store)
    requires Ownership(s) && Listed(s)
    ensures var (r, freed) := CleanupBle(s); Ownership(r) && FreedExactly(s, r, freed) && Listed(r)
  {
  }

  lemma CleanupOwnership(s: Store)
    requires Ownership(s) && Listed(s)
    ensures var (r, freed) := CleanupScanned(s); Ownership(r) && FreedExactly(s, r, freed) && Listed(r)
    ensures var (r, freed) := CleanupBr(s); Ownership(r) && FreedExactly(s, r, freed) && Listed(r)
    ensures var (r, freed) := CleanupBle(s); Ownership(r) && FreedExactly(s, r, freed) && Listed(r)
  {
    CleanupScannedOwnership(s);
    CleanupBrOwnership(s);
    CleanupBleOwnership(s);
  }

  /** The three clean-ups of `timeout_cleanup` and `cleanup_exit` leave every list empty and hand each
      record back exactly once. */
  lemma CleanupAll(s: Store)
    requires Ownership(s) && Listed(s)
    ensures var (s1, f1) := CleanupScanned(s);
            var (s2, f2) := CleanupBr(s1);
            var (s3, f3) := CleanupBle(s2);
            && s3 == Store(map[], [], [], [])
            && f1 + f2 + f3 == s.scanned + Minus(s.br, s.scanned) + s.ble
            && NoDup(f1 + f2 + f3)
            && forall x :: x in f1 + f2 + f3 <==> x in s.devices
  {
    var onlyBr := Minus(s.br, s.scanned);
    MinusNoDup(s.br, s.scanned);
    NoDupConcat(s.scanned, onlyBr);
    NoDupConcat(s.scanned + onlyBr, s.ble);
    var all := s.scanned + onlyBr + s.ble;
    assert forall x :: x in all <==> x in s.devices;
    assert s.devices - ToSet(s.scanned) - ToSet(onlyBr) - ToSet(s.ble) == map[];
  }

  lemma NoDupConcat(a: seq<Slot>, b: seq<Slot>)
    requires NoDup(a) && NoDup(b) && forall x <- b :: x !in a
    ensures NoDup(a + b)
  {
    forall i, j | 0 <= i < j < |a + b|
      ensures (a + b)[i] != (a + b)[j]
    {
      if i < |a| <= j { assert b[j - |a|] !in a; }
    }
  }

  // ----- The invariant over every run

  /** Clearing slots and dropping list entries keeps what the invariant says of the records that stay. */
  lemma ShrinkKeepsInv(s: Store, r: Store, now: int)
    requires Inv(s, now) && Ownership(r)
    requires forall x :: x in r.devices ==> x in s.devices && r.devices[x] == s.devices[x]
    requires Subsequence(r.scanned, s.scanned) && Subsequence(r.br, s.br) && Subsequence(r.ble, s.ble)
    ensures Inv(r, now)
  {
    forall i, j | 0 <= i < j < |r.scanned|
      ensures r.devices[r.scanned[i]].mac != r.devices[r.scanned[j]].mac
      ensures r.devices[r.scanned[i]].initial >= r.devices[r.scanned[j]].initial
    {
      var a, b := Positions(r.scanned, s.scanned, i, j);
    }
    forall i, j | 0 <= i < j < |r.ble|
      ensures r.devices[r.ble[i]].mac != r.devices[r.ble[j]].mac
    {
      var a, b := Positions(r.ble, s.ble, i, j);
    }
    forall i, j | 0 <= i < j < |r.br| && r.devices[r.br[i]].mac == r.devices[r.br[j]].mac
      ensures r.devices[r.br[i]].final <= r.devices[r.br[j]].initial && r.br[i] !in r.scanned
    {
      var a, b := Positions(r.br, s.br, i, j);
      SubsequenceMembers(r.scanned, s.scanned);
    }
  }

  ghost predicate Subsequence(s: seq<Slot>, t: seq<Slot>)
    decreases |t|
  {
    s == [] || (t != [] && (Subsequence(s, t[..|t| - 1]) ||
                            (s[|s| - 1] == t[|t| - 1] && Subsequence(s[..|s| - 1], t[..|t| - 1]))))
  }

  lemma {:induction false} Positions(s: seq<Slot>, t: seq<Slot>, i: nat, j: nat) returns (a: nat, b: nat)
    requires Subsequence(s, t) && i < j < |s|
    ensures a < b < |t| && t[a] == s[i] && t[b] == s[j]
    decreases |t|
  {
    var n := |t| - 1;
    if Subsequence(s, t[..n]) {
      a, b := Positions(s, t[..n], i, j);
    } else if j < |s| - 1 {
      a, b := Positions(s[..|s| - 1], t[..n], i, j);
    } else {
      SubsequenceMembers(s[..|s| - 1], t[..n]);
      assert s[..|s| - 1][i] in t[..n];
      a :| 0 <= a < n && t[..n][a] == s[i];
      b := n;
    }
  }

  lemma {:induction false} SubsequenceMembers(s: seq<Slot>, t: seq<Slot>)
    requires Subsequence(s, t)
    ensures forall x <- s :: x in t
    decreases |t|
  {
    if s != [] {
      var n := |t| - 1;
      if Subsequence(s, t[..n]) {
        SubsequenceMembers(s, t[..n]);
      } else {
        SubsequenceMembers(s[..|s| - 1], t[..n]);
        assert s == s[..|s| - 1] + [t[n]];
      }
    }
  }

  lemma {:induction false} SubsequenceSelf(s: seq<Slot>)
    ensures Subsequence(s, s)
  {
    if s != [] {
      SubsequenceSelf(s[..|s| - 1]);
    }
  }

  lemma {:induction false} MinusSubsequence(s: seq<Slot>, t: seq<Slot>)
    ensures Subsequence(Minus(s, t), s)
  {
    if s != [] {
      MinusSubsequence(s[..|s| - 1], t);
      var rest := Minus(s[..|s| - 1], t);
      assert (rest + [s[|s| - 1]])[..|rest|] == rest;
    }
  }

  lemma {:induction false} PrefixSubsequence(s: seq<Slot>, n: nat)
    requires n <= |s|
    ensures Subsequence(s[..n], s)
  {
    if n < |s| {
      PrefixSubsequence(s[..|s| - 1], n);
      assert s[..|s| - 1][..n] == s[..n];
    } else {
      assert s[..n] == s;
      SubsequenceSelf(s);
    }
  }

  lemma {:induction false} SuffixSubsequence(s: seq<Slot>, n: nat)
    requires n <= |s|
    ensures Subsequence(s[n..], s)
  {
    if n < |s| {
      SuffixSubsequence(s[..|s| - 1], n);
      assert s[n..][..|s[n..]| - 1] == s[..|s| - 1][n..];
    }
  }

  lemma SearchFound(s: Store, mac: string, clock: seq<int>)
    requires Listed(s) && |clock| >= |s.scanned| && CheckScanned(s, mac, clock).1.Some?
    ensures var (r, found, freed) := CheckScanned(s, mac, clock);
            r == s && found.value in s.scanned && s.devices[found.value].mac == mac
  {
    assert s.devices - ToSet([]) == s.devices;
  }

  lemma SearchMissed(s: Store, mac: string, clock: seq<int>)
    requires Ownership(s) && Listed(s) && NewestFirst(s.devices, s.scanned) && |clock| >= |s.scanned|
    requires CheckScanned(s, mac, clock).1.None?
    ensures var r := CheckScanned(s, mac, clock).0;
            Listed(r) && forall x <- r.scanned :: r.devices[x].mac != mac
  {
    CheckScannedOwnership(s, mac, clock);
    SweepExact(s.devices, s.scanned, mac, clock);
    var w := Sweep(s.devices, s.scanned, mac, clock);
    forall x <- w.kept
      ensures x in s.devices && s.devices[x].mac != mac
    {
      var i :| 0 <= i < |w.kept| && w.kept[i] == x;
      assert s.scanned[i] == x;
    }
  }

  lemma ExpiryKeepsInv(s: Store, mac: string, clock: seq<int>, now: int)
    requires Inv(s, now) && |clock| >= |s.scanned|
    ensures Inv(CheckScanned(s, mac, clock).0, now)
  {
    var w := Sweep(s.devices, s.scanned, mac, clock);
    var r := CheckScanned(s, mac, clock).0;
    CheckScannedOwnership(s, mac, clock);
    assert r.scanned == s.scanned[..|w.kept|];
    PrefixSubsequence(s.scanned, |w.kept|);
    SubsequenceSelf(s.br);
    SubsequenceSelf(s.ble);
    ShrinkKeepsInv(s, r, now);
  }

  lemma CheckScannedKeepsInv(s: Store, mac: string, clock: seq<int>, now: int)
    requires Inv(s, now) && |clock| >= |s.scanned|
    ensures var (r, found, freed) := CheckScanned(s, mac, clock);
            && Inv(r, now)
            && (found.None? ==> forall x <- r.scanned :: r.devices[x].mac != mac)
            && (found.Some? ==> r == s && found.value in s.scanned && s.devices[found.value].mac == mac)
  {
    ExpiryKeepsInv(s, mac, clock, now);
    if CheckScanned(s, mac, clock).1.Some? {
      SearchFound(s, mac, clock);
    } else {
      SearchMissed(s, mac, clock);
    }
  }

  /** Extending a record that is still on the scanned list. */
  lemma MergeBrKeepsInv(s: Store, x: Slot, o: Observation, t: int, now: int)
    requires Inv(s, t) && t <= now && x in s.scanned && |o.payload| <= LENGTH_OF_ADVERTISEMENT
    ensures Inv(s.(devices := s.devices[x := Merge(s.devices[x], o, now)]), now)
  {
    var r := s.(devices := s.devices[x := Merge(s.devices[x], o, now)]);
    forall i, j | 0 <= i < j < |r.br| && r.devices[r.br[i]].mac == r.devices[r.br[j]].mac
      ensures r.devices[r.br[i]].final <= r.devices[r.br[j]].initial && r.br[i] !in r.scanned
    {
      assert s.devices[s.br[i]].mac == s.devices[s.br[j]].mac;
    }
  }

  function InsertBr(s: Store, x: Slot, d: Device): Store {
    s.(devices := s.devices[x := d], scanned := [x] + s.scanned, br := s.br + [x])
  }

  lemma InsertBrOwnership(s: Store, x: Slot, d: Device)
    requires Ownership(s) && Listed(s) && x !in s.devices && Buffers(d)
    ensures var r := InsertBr(s, x, d);
            Ownership(r) && Listed(r) && forall y :: y in s.devices ==> y != x && r.devices[y] == s.devices[y]
  {
    NoDupConcat([x], s.scanned);
    NoDupConcat(s.br, [x]);
  }

  lemma InsertBrSightings(s: Store, x: Slot, d: Device, now: int)
    requires Inv(s, now) && x !in s.devices && Buffers(d) && d.initial == now
    requires forall y <- s.scanned :: s.devices[y].mac != d.mac
    requires Listed(InsertBr(s, x, d))
    ensures Sightings(InsertBr(s, x, d))
  {
    var r := InsertBr(s, x, d);
    forall i, j | 0 <= i < j < |r.br| && r.devices[r.br[i]].mac == r.devices[r.br[j]].mac
      ensures r.devices[r.br[i]].final <= r.devices[r.br[j]].initial && r.br[i] !in r.scanned
    {
      assert r.br[i] == s.br[i] && s.br[i] in s.devices && s.br[i] != x;
      if j < |s.br| { assert r.br[j] == s.br[j] && s.br[j] in s.devices; }
    }
  }

  lemma InsertBrScanned(s: Store, x: Slot, d: Device, now: int)
    requires Inv(s, now) && x !in s.devices && Buffers(d) && d.initial == now
    requires forall y <- s.scanned :: s.devices[y].mac != d.mac
    requires Listed(InsertBr(s, x, d))
    ensures var r := InsertBr(s, x, d);
            MacDistinct(r.devices, r.scanned) && NewestFirst(r.devices, r.scanned) && MacDistinct(r.devices, r.ble)
  {
    var r := InsertBr(s, x, d);
    forall i, j | 0 <= i < j < |r.scanned|
      ensures r.devices[r.scanned[i]].mac != r.devices[r.scanned[j]].mac
      ensures r.devices[r.scanned[i]].initial >= r.devices[r.scanned[j]].initial
    {
      assert r.scanned[j] == s.scanned[j - 1] && s.scanned[j - 1] in s.devices;
      if i > 0 { assert r.scanned[i] == s.scanned[i - 1] && s.scanned[i - 1] in s.devices; }
    }
    assert forall j :: 0 <= j < |s.ble| ==> s.ble[j] in s.devices;
  }

  /** A new record, first on the scanned list and last on the BR/EDR list. */
  lemma InsertBrKeepsInv(s: Store, x: Slot, d: Device, t: int, now: int)
    requires Inv(s, t) && t <= now && x !in s.devices && Buffers(d) && d.initial == d.final == now
    requires forall y <- s.scanned :: s.devices[y].mac != d.mac
    ensures Inv(InsertBr(s, x, d), now)
  {
    InsertBrOwnership(s, x, d);
    InsertBrSightings(s, x, d, now);
    InsertBrScanned(s, x, d, now);
  }

  lemma ObserveBrKeepsInv(s: Store, o: Observation, clock: seq<int>, t: int, now: int, slot: Option<Slot>)
    requires Inv(s, t) && t <= now && |clock| >= |s.scanned| && |o.payload| <= LENGTH_OF_ADVERTISEMENT
    requires slot.Some? ==> slot.value !in CheckScanned(s, o.mac, clock).0.devices
    ensures Inv(ObserveBr(s, o, clock, now, slot).0, now)
  {
    CheckScannedKeepsInv(s, o.mac, clock, t);
    var (r, found, freed) := CheckScanned(s, o.mac, clock);
    if found.Some? {
      MergeBrKeepsInv(s, found.value, o, t, now);
    } else if slot.Some? {
      InsertBrKeepsInv(r, slot.value, NewDevice(o, now), t, now);
    }
  }

  /** Records of the BLE list: replacing one by a record of the same address. */
  lemma UpdateBleKeepsInv(s: Store, x: Slot, d: Device, t: int, now: int)
    requires Inv(s, t) && t <= now && x in s.ble && Buffers(d)
    requires d.mac == s.devices[x].mac && d.initial <= d.final <= now
    ensures Inv(s.(devices := s.devices[x := d]), now)
  {
  }

  lemma InsertBleKeepsInv(s: Store, x: Slot, d: Device, t: int, now: int)
    requires Inv(s, t) && t <= now && x !in s.devices && Buffers(d) && d.initial == d.final == now
    requires forall y <- s.ble :: s.devices[y].mac != d.mac
    ensures Inv(s.(devices := s.devices[x := d], ble := s.ble + [x]), now)
  {
    var r := s.(devices := s.devices[x := d], ble := s.ble + [x]);
    assert forall y :: OnList(s, y) ==> y != x && r.devices[y] == s.devices[y];
    NoDupConcat(s.ble, [x]);
    forall i, j | 0 <= i < j < |r.ble|
      ensures r.devices[r.ble[i]].mac != r.devices[r.ble[j]].mac
    {
      assert r.ble[i] == s.ble[i];
      if j < |s.ble| { assert r.ble[j] == s.ble[j]; }
    }
    SameBr(s, r);
  }

  lemma SameBr(s: Store, r: Store)
    requires Listed(s) && Listed(r) && r.scanned == s.scanned && r.br == s.br
    requires forall y :: y in s.scanned || y in s.br ==> r.devices[y] == s.devices[y]
    ensures Sightings(s) ==> Sightings(r)
    ensures MacDistinct(s.devices, s.scanned) ==> MacDistinct(r.devices, r.scanned)
    ensures NewestFirst(s.devices, s.scanned) ==> NewestFirst(r.devices, r.scanned)
  {
    assert forall i :: 0 <= i < |s.br| ==> s.br[i] in s.br;
    assert forall i :: 0 <= i < |s.scanned| ==> s.scanned[i] in s.scanned;
  }

  lemma ObserveBleKeepsInv(s: Store, o: Observation, t: int, now: int, slot: Option<Slot>)
    requires Inv(s, t) && t <= now && |o.payload| <= LENGTH_OF_ADVERTISEMENT
    requires slot.Some? ==> slot.value !in s.devices
    ensures Inv(ObserveBle(s, o, now, slot), now)
  {
    var found := FindMac(s.devices, s.ble, o.mac);
    if found.Some? {
      UpdateBleKeepsInv(s, found.value, Merge(s.devices[found.value], o, now), t, now);
    } else if slot.Some? {
      InsertBleKeepsInv(s, slot.value, NewDevice(o, now), t, now);
    }
  }

  lemma ScanResponseKeepsInv(s: Store, mac: string, data: seq<byte>, now: int)
    requires Inv(s, now) && |data| <= LENGTH_OF_ADVERTISEMENT
    ensures Inv(ScanResponse(s, mac, data), now)
  {
    var found := FindMac(s.devices, s.ble, mac);
    if found.Some? {
      var d := s.devices[found.value];
      UpdateBleKeepsInv(s, found.value, d.(scanRsp := Overwrite(d.scanRsp, data), scanRspLength := |data|), now, now);
    }
  }

  lemma UploadKeepsInv(s: Store, kind: Kind, n: nat, now: int)
    requires Inv(s, now) && n <= |ListOf(s, kind)|
    ensures Inv(Upload(s, kind, n).0, now)
  {
    UploadOwnership(s, kind, n);
    UploadShrinks(s, kind, n);
    ShrinkKeepsInv(s, Upload(s, kind, n).0, now);
  }

  lemma UploadShrinks(s: Store, kind: Kind, n: nat)
    requires n <= |ListOf(s, kind)|
    ensures var r := Upload(s, kind, n).0;
            Subsequence(r.scanned, s.scanned) && Subsequence(r.br, s.br) && Subsequence(r.ble, s.ble)
  {
    SubsequenceSelf(s.scanned);
    SubsequenceSelf(s.br);
    SubsequenceSelf(s.ble);
    SuffixSubsequence(ListOf(s, kind), n);
  }

  lemma CleanupKeepsInv(s: Store, now: int)
    requires Inv(s, now)
    ensures Inv(CleanupScanned(s).0, now) && Inv(CleanupBr(s).0, now) && Inv(CleanupBle(s).0, now)
  {
    CleanupOwnership(s);
    SubsequenceSelf(s.scanned);
    SubsequenceSelf(s.br);
    SubsequenceSelf(s.ble);
    MinusSubsequence(s.br, s.scanned);
    MinusSubsequence(s.scanned, s.br);
    ShrinkKeepsInv(s, CleanupScanned(s).0, now);
    ShrinkKeepsInv(s, CleanupBr(s).0, now);
    ShrinkKeepsInv(s, CleanupBle(s).0, now);
  }

  // ----- Runs

  /** An upload takes the number of records that its budget admits. */
  datatype Op =
    | ObserveBrOp(o: Observation, clock: seq<int>, now: int, slot: Option<Slot>)
    | ObserveBleOp(o: Observation, now: int, slot: Option<Slot>)
    | ScanResponseOp(mac: string, data: seq<byte>)
    | UploadOp(kind: Kind, n: nat)
    | CleanupScannedOp
    | CleanupBrOp
    | CleanupBleOp

  /** Clock readings do not decrease, `mp_alloc` yields a slot not in use, data fits its buffer, and the
      budget of an upload admits a record if there is one; that all budgets of reports do so is shown in
      `DeviceReports`. */
  ghost predicate Legal(s: Store, t: int, op: Op) {
    Listed(s) &&
    match op
    case ObserveBrOp(o, clock, now, slot) =>
      && |clock| >= |s.scanned| && Monotone(t, clock, now) && |o.payload| <= LENGTH_OF_ADVERTISEMENT
      && (slot.Some? ==> slot.value !in CheckScanned(s, o.mac, clock).0.devices)
    case ObserveBleOp(o, now, slot) =>
      && t <= now && |o.payload| <= LENGTH_OF_ADVERTISEMENT
      && (slot.Some? ==> slot.value !in s.devices)
    case ScanResponseOp(mac, data) => |data| <= LENGTH_OF_ADVERTISEMENT
    case UploadOp(kind, n) => n <= |ListOf(s, kind)| && (n > 0 || ListOf(s, kind) == [])
    case _ => true
  }

  function Now(t: int, op: Op): int {
    match op
    case ObserveBrOp(_, _, now, _) => now
    case ObserveBleOp(_, now, _) => now
    case _ => t
  }

  /** The store after an operation and the slots it hands to `mp_free`. */
  ghost function Apply(s: Store, t: int, op: Op): (Store, seq<Slot>)
    requires Legal(s, t, op)
  {
    match op
    case ObserveBrOp(o, clock, now, slot) => ObserveBr(s, o, clock, now, slot)
    case ObserveBleOp(o, now, slot) => (ObserveBle(s, o, now, slot), [])
    case ScanResponseOp(mac, data) => (ScanResponse(s, mac, data), [])
    case UploadOp(kind, n) => Upload(s, kind, n)
    case CleanupScannedOp => CleanupScanned(s)
    case CleanupBrOp => CleanupBr(s)
    case CleanupBleOp => CleanupBle(s)
  }

  lemma StepKeepsInv(s: Store, t: int, op: Op)
    requires Inv(s, t) && Legal(s, t, op)
    ensures Inv(Apply(s, t, op).0, Now(t, op)) && t <= Now(t, op)
  {
    match op
    case ObserveBrOp(o, clock, now, slot) => ObserveBrKeepsInv(s, o, clock, t, now, slot);
    case ObserveBleOp(o, now, slot) => ObserveBleKeepsInv(s, o, t, now, slot);
    case ScanResponseOp(mac, data) => ScanResponseKeepsInv(s, mac, data, t);
    case UploadOp(kind, n) => UploadKeepsInv(s, kind, n, t);
    case CleanupScannedOp => CleanupKeepsInv(s, t);
    case CleanupBrOp => CleanupKeepsInv(s, t);
    case CleanupBleOp => CleanupKeepsInv(s, t);
  }

  ghost predicate LegalRun(s: Store, t: int, ops: seq<Op>)
    decreases |ops|
  {
    ops == [] || (Legal(s, t, ops[0]) && LegalRun(Apply(s, t, ops[0]).0, Now(t, ops[0]), ops[1..]))
  }

  ghost function Run(s: Store, t: int, ops: seq<Op>): (Store, int)
    requires LegalRun(s, t, ops)
    decreases |ops|
  {
    if ops == [] then (s, t) else Run(Apply(s, t, ops[0]).0, Now(t, ops[0]), ops[1..])
  }

  /** The invariant over every run. */
  lemma {:induction false} RunKeepsInv(s: Store, t: int, ops: seq<Op>)
    requires Inv(s, t) && LegalRun(s, t, ops)
    ensures Inv(Run(s, t, ops).0, Run(s, t, ops).1)
    decreases |ops|
  {
    if ops != [] {
      StepKeepsInv(s, t, ops[0]);
      RunKeepsInv(Apply(s, t, ops[0]).0, Now(t, ops[0]), ops[1..]);
    }
  }

  const EMPTY := Store(map[], [], [], [])

  /** The lists start empty, so every run keeps the invariant. */
  lemma EveryRunKeepsInv(t: int, ops: seq<Op>)
    requires LegalRun(EMPTY, t, ops)
    ensures Inv(Run(EMPTY, t, ops).0, Run(EMPTY, t, ops).1)
  {
    RunKeepsInv(EMPTY, t, ops);
  }
}
