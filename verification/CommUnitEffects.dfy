/** What one iteration of the scheduler of import/BeDIS.c does, and over whole runs which packets are
    handed to the workers and which are discarded, in terms of the lists, the clock and the
    configuration alone. */
module CommUnitEffects {
  import opened CommUnitSpec
  import opened CommUnitProofs

  /** What the lists hold once the packets that arrive before the iteration have been appended. */
  function Filled(s: State, arrivals: seq<Arrival>): (r: seq<seq<Packet>>)
    ensures |r| == |s.buffers|
    ensures forall i :: 0 <= i < |r| ==> r[i] == s.buffers[i] + Received(arrivals, i)
  {
    seq(|s.buffers|, i requires 0 <= i < |s.buffers| => s.buffers[i] + Received(arrivals, i))
  }

  lemma ArriveFills(s: State, arrivals: seq<Arrival>)
    ensures Arrive(s, arrivals).buffers == Filled(s, arrivals) && Arrive(s, arrivals).log == s.log
  {
    ArriveExactly(s, arrivals);
    forall i: nat | i < |s.buffers|
      ensures Arrive(s, arrivals).buffers[i] == Filled(s, arrivals)[i]
    {
      ArriveExact(s, arrivals, i);
    }
  }

  lemma {:induction false} ArriveExactly(s: State, arrivals: seq<Arrival>)
    ensures Arrive(s, arrivals) == s.(buffers := Arrive(s, arrivals).buffers)
    decreases |arrivals|
  {
    if arrivals != [] {
      var a := arrivals[0];
      var s1 := if a.list < |s.buffers|
                then s.(buffers := s.buffers[a.list := s.buffers[a.list] + [a.packet]]) else s;
      ArriveExactly(s1, arrivals[1..]);
    }
  }

  // ----- When a pass is made

  /** An iteration is a pass exactly when the clock does not read less than at the end of the previous
      pass and the work flag is cleared or the time has come; so a clock that was set back keeps the
      routine scanning, whatever the flag says. */
  lemma PassExactly(config: Config, s: State, t: Tick)
    requires Fits(config, s) && !s.stopped
    ensures Passes(config, s, t) <==> s.uptime >= s.initTime && (!t.ready || s.uptime - s.initTime >= 600)
    ensures Iterate(config, s, t).passes == s.passes + if Passes(config, s, t) then 1 else 0
  {
    PassDecision(config, s, t);
  }

  // ----- A normal scan

  /** The departures `d` are those of a scan of the lists `held` that ends at list `f`: in ascending
      order, from every list before `f` that is not empty its head, too old for the clock reading `now`,
      and from list `f`, unless all lists have been scanned, its head, which is not. */
  ghost predicate ScanOf(held: seq<seq<Packet>>, now: int, limit: int, from: nat, f: nat, d: seq<Departure>) {
    && from <= f <= |held|
    && (f < |held| ==> held[f] != [] && now - held[f][0].uptimeAtReceive <= limit)
    && (forall i :: from <= i < f && held[i] != [] ==> now - held[i][0].uptimeAtReceive > limit)
    && Ascending(d)
    && (forall k :: 0 <= k < |d| ==> IsHead(held, d[k]) && from <= d[k].list <= f && d[k].fate == FateAt(f, d[k].list))
    && (forall i :: from <= i <= f && i < |held| && held[i] != [] ==> Serves(d, i))
  }

  /** One of the departures is from list `i`. */
  ghost predicate Serves(d: seq<Departure>, i: int) {
    exists k :: 0 <= k < |d| && d[k].list == i
  }

  lemma ServesLater(d: seq<Departure>, e: Departure, i: int)
    ensures Serves([e] + d, i) <==> e.list == i || Serves(d, i)
  {
    var r := [e] + d;
    if e.list == i { assert r[0].list == i; }
    if k :| 0 <= k < |d| && d[k].list == i { assert r[k + 1].list == i; }
    if k :| 0 <= k < |r| && r[k].list == i && k > 0 { assert d[k - 1].list == i; }
  }

  function FateAt(f: nat, i: nat): Fate { if i == f then Handed else Stale }

  ghost predicate Ascending(d: seq<Departure>) {
    forall k, l :: 0 <= k < l < |d| ==> d[k].list < d[l].list
  }

  predicate IsHead(held: seq<seq<Packet>>, d: Departure) {
    d.list < |held| && held[d.list] != [] && d.packet == held[d.list][0]
  }

  /** The lists without the heads of those from `from` up to `to`. */
  ghost predicate HeadsGone(held: seq<seq<Packet>>, left: seq<seq<Packet>>, from: nat, to: int) {
    && |left| == |held|
    && forall i :: 0 <= i < |held| ==> left[i] == if from <= i <= to && held[i] != [] then held[i][1..] else held[i]
  }

  lemma {:induction false} ScanLeaves(config: Config, s: State, i: nat)
    requires i <= |s.buffers|
    ensures var r := NormalScan(config, s, i); r == s.(buffers := r.buffers, log := r.log)
    decreases |s.buffers| - i
  {
    if i < |s.buffers| {
      if s.buffers[i] == [] {
        ScanLeaves(config, s, i + 1);
      } else if OutOfDate(config, s, s.buffers[i][0]) {
        ScanLeaves(config, Take(s, i, Stale), i + 1);
      }
    }
  }

  /** The departures a scan makes, from its first list on. */
  function ScanDepartures(held: seq<seq<Packet>>, from: nat, f: nat): seq<Departure>
    requires from <= f <= |held|
    decreases f - from
  {
    if from == f then if f < |held| && held[f] != [] then [Departure(f, held[f][0], Handed)] else []
    else (if held[from] == [] then [] else [Departure(from, held[from][0], Stale)]) + ScanDepartures(held, from + 1, f)
  }

  lemma {:induction false} DeparturesAre(s: State, from: nat, f: nat)
    requires from <= f <= |s.buffers|
    ensures StaleHeads(s, from, f) + HandedHead(s, f) == ScanDepartures(s.buffers, from, f)
    decreases f - from
  {
    if from < f {
      DeparturesAre(s, from + 1, f);
      Regroup(if s.buffers[from] == [] then [] else [Departure(from, s.buffers[from][0], Stale)],
              StaleHeads(s, from + 1, f), HandedHead(s, f));
    }
  }

  /** Each departure is that of a head, and with the right fate; the lists ascend. */
  lemma {:induction false} DeparturesRight(held: seq<seq<Packet>>, from: nat, f: nat)
    requires from <= f <= |held|
    ensures var d := ScanDepartures(held, from, f);
            && Ascending(d)
            && forall k :: 0 <= k < |d| ==>
                 IsHead(held, d[k]) && from <= d[k].list <= f && d[k].fate == FateAt(f, d[k].list)
    decreases f - from
  {
    if from < f {
      DeparturesRight(held, from + 1, f);
    }
  }

  lemma {:induction false} DeparturesServe(held: seq<seq<Packet>>, from: nat, f: nat, i: nat)
    requires from <= i <= f <= |held| && i < |held| && held[i] != []
    ensures Serves(ScanDepartures(held, from, f), i)
    decreases f - from
  {
    if from < f {
      if from < i { DeparturesServe(held, from + 1, f, i); }
      if held[from] != [] {
        ServesLater(ScanDepartures(held, from + 1, f), Departure(from, held[from][0], Stale), i);
      } else {
        Nothing(ScanDepartures(held, from + 1, f));
      }
    } else {
      assert ScanDepartures(held, from, f)[0].list == i;
    }
  }

  lemma FreshOrStale(config: Config, s: State)
    ensures var held, f := s.buffers, FirstFresh(config, s, 0);
            && (f < |held| ==> held[f] != [] && s.uptime - held[f][0].uptimeAtReceive <= config.minAgeOutOfDate)
            && forall i :: 0 <= i < f && held[i] != [] ==>
                 s.uptime - held[i][0].uptimeAtReceive > config.minAgeOutOfDate
  {
  }

  lemma NormalScanOf(config: Config, s: State) returns (f: nat, d: seq<Departure>)
    ensures ScanOf(s.buffers, s.uptime, config.minAgeOutOfDate, 0, f, d)
    ensures var r := NormalScan(config, s, 0);
            r == s.(buffers := r.buffers, log := s.log + d) && HeadsGone(s.buffers, r.buffers, 0, f)
  {
    f := FirstFresh(config, s, 0);
    FreshOrStale(config, s);
    d := ScanDepartures(s.buffers, 0, f);
    NormalScanExact(config, s, 0);
    ScanLeaves(config, s, 0);
    DeparturesAre(s, 0, f);
    DeparturesRight(s.buffers, 0, f);
    forall i: nat | i <= f && i < |s.buffers| && s.buffers[i] != []
      ensures Serves(d, i)
    {
      DeparturesServe(s.buffers, 0, f, i);
    }
  }

  lemma Nothing(log: seq<Departure>)
    ensures log + [] == log == [] + log
  {
  }

  /** The exact effect of an iteration that is no pass. */
  lemma ScanExact(config: Config, s: State, t: Tick) returns (f: nat, d: seq<Departure>)
    requires Fits(config, s) && !s.stopped && !Passes(config, s, t)
    ensures var r, held := Iterate(config, s, t), Filled(s, t.before);
            && ScanOf(held, s.uptime, config.minAgeOutOfDate, 0, f, d)
            && HeadsGone(held, r.buffers, 0, f)
            && r == State(r.buffers, s.log + d, s.initTime, t.next, s.passes, false)
  {
    PassDecision(config, s, t);
    ScanIterates(config, s, t);
    ArriveFills(s, t.before);
    ArriveExactly(s, t.before);
    f, d := NormalScanOf(config, Arrive(s, t.before));
  }

  // ----- A starvation pass

  /** List `f` is the first that is not empty, and it and all lists before it are time-critical; or, if
      there is none such, `f` is the number of lists. */
  ghost predicate FirstUrgent(config: Config, held: seq<seq<Packet>>, from: nat, f: nat)
    requires |config.nice| == |held|
  {
    && from <= f <= |held|
    && (forall i :: from <= i < f && CriticalFrom(config, from, i) ==> held[i] == [])
    && (f < |held| ==> held[f] != [] && CriticalFrom(config, from, f))
  }

  ghost predicate CriticalFrom(config: Config, from: nat, i: int) {
    from <= i < |config.nice| && forall j :: from <= j <= i ==> config.nice[j] == config.timeCriticalPriority
  }

  lemma {:induction false} CriticalStageExact(config: Config, s: State, from: nat) returns (f: nat)
    requires Fits(config, s) && from <= |s.buffers|
    ensures FirstUrgent(config, s.buffers, from, f)
    ensures CriticalStage(config, s, from) ==
            if f < |s.buffers|
            then s.(buffers := s.buffers[f := s.buffers[f][1..]],
                    log := s.log + [Departure(f, s.buffers[f][0], Handed)])
            else s
    decreases |s.buffers| - from
  {
    f := |s.buffers|;
    if from < |s.buffers| && config.nice[from] == config.timeCriticalPriority {
      if s.buffers[from] == [] {
        f := CriticalStageExact(config, s, from + 1);
        UrgentBefore(config, s.buffers, from, f);
      } else {
        f := from;
      }
    }
  }

  lemma UrgentBefore(config: Config, held: seq<seq<Packet>>, from: nat, f: nat)
    requires |config.nice| == |held| && from < |held| && config.nice[from] == config.timeCriticalPriority
    requires held[from] == [] && FirstUrgent(config, held, from + 1, f)
    ensures FirstUrgent(config, held, from, f)
  {
    assert forall i :: from < i && CriticalFrom(config, from, i) ==> CriticalFrom(config, from + 1, i);
  }

  ghost predicate Descending(d: seq<Departure>) {
    forall k, l :: 0 <= k < l < |d| ==> d[k].list > d[l].list
  }

  ghost predicate HandedHeads(held: seq<seq<Packet>>, n: nat, d: seq<Departure>) {
    forall k :: 0 <= k < |d| ==> d[k].list < n && IsHead(held, d[k]) && d[k].fate == Handed
  }

  /** The departures `d` hand over, in descending order, the head of every list below `n` that is not
      empty. */
  ghost predicate HandsOver(held: seq<seq<Packet>>, n: nat, d: seq<Departure>) {
    && Descending(d) && HandedHeads(held, n, d)
    && (forall i :: 0 <= i < n && i < |held| && held[i] != [] ==> Serves(d, i))
  }

  /** The departures of the reverse stage, from its first list on. */
  function Handover(held: seq<seq<Packet>>, n: nat): seq<Departure>
    requires n <= |held|
  {
    if n == 0 then []
    else (if held[n - 1] == [] then [] else [Departure(n - 1, held[n - 1][0], Handed)]) + Handover(held, n - 1)
  }

  lemma {:induction false} HandoverFrame(held: seq<seq<Packet>>, left: seq<seq<Packet>>, n: nat)
    requires n <= |held| == |left| && forall i :: 0 <= i < n ==> held[i] == left[i]
    ensures Handover(held, n) == Handover(left, n)
  {
    if n > 0 { HandoverFrame(held, left, n - 1); }
  }

  lemma {:induction false} ReverseStageLog(s: State, n: nat)
    requires n <= |s.buffers|
    ensures var r := ReverseStage(s, n); r == s.(buffers := r.buffers, log := s.log + Handover(s.buffers, n))
    decreases n
  {
    if n == 0 {
      Nothing(s.log);
    } else if s.buffers[n - 1] == [] {
      ReverseStageLog(s, n - 1);
      Nothing(Handover(s.buffers, n - 1));
    } else {
      var t := Take(s, n - 1, Handed);
      ReverseStageLog(t, n - 1);
      HandoverFrame(s.buffers, t.buffers, n - 1);
      Regroup(s.log, [Departure(n - 1, s.buffers[n - 1][0], Handed)], Handover(s.buffers, n - 1));
    }
  }

  lemma {:induction false} ReverseStageLeaves(s: State, n: nat, i: nat)
    requires n <= |s.buffers| && i < |s.buffers|
    ensures ReverseStage(s, n).buffers[i] == if i < n && s.buffers[i] != [] then s.buffers[i][1..] else s.buffers[i]
    decreases n
  {
    if n > 0 {
      if s.buffers[n - 1] == [] {
        ReverseStageLeaves(s, n - 1, i);
      } else {
        ReverseStageLeaves(Take(s, n - 1, Handed), n - 1, i);
      }
    }
  }

  /** The departures descend and hand over heads of lists below `n`. */
  ghost predicate Downward(held: seq<seq<Packet>>, n: nat, d: seq<Departure>) {
    forall order :: DownwardSo(held, n, d, order)
  }

  ghost predicate DownwardSo(held: seq<seq<Packet>>, n: nat, d: seq<Departure>, order: bool) {
    if order then Descending(d) else HandedHeads(held, n, d)
  }

  lemma DownwardParts(held: seq<seq<Packet>>, n: nat, d: seq<Departure>)
    ensures Downward(held, n, d) <==> Descending(d) && HandedHeads(held, n, d)
  {
    assert Downward(held, n, d) ==> DownwardSo(held, n, d, true) && DownwardSo(held, n, d, false);
  }

  lemma HeadFirst(held: seq<seq<Packet>>, x: Departure, d: seq<Departure>)
    requires Downward(held, x.list, d) && IsHead(held, x) && x.fate == Handed
    ensures Downward(held, x.list + 1, [x] + d)
  {
    DownwardParts(held, x.list, d);
    var r := [x] + d;
    assert forall k :: 0 < k < |r| ==> r[k] == d[k - 1];
    DownwardParts(held, x.list + 1, r);
  }

  lemma HeadsBelow(held: seq<seq<Packet>>, n: nat, d: seq<Departure>)
    requires Downward(held, n, d)
    ensures Downward(held, n + 1, d)
  {
    DownwardParts(held, n, d);
    DownwardParts(held, n + 1, d);
  }

  lemma {:induction false} HandoverRight(held: seq<seq<Packet>>, n: nat)
    requires n <= |held|
    ensures Downward(held, n, Handover(held, n))
  {
    if n > 0 {
      HandoverRight(held, n - 1);
      if held[n - 1] == [] {
        Nothing(Handover(held, n - 1));
        HeadsBelow(held, n - 1, Handover(held, n - 1));
      } else {
        HeadFirst(held, Departure(n - 1, held[n - 1][0], Handed), Handover(held, n - 1));
      }
    }
  }

  lemma {:induction false} HandoverServes(held: seq<seq<Packet>>, n: nat, i: nat)
    requires i < n <= |held| && held[i] != []
    ensures Serves(Handover(held, n), i)
  {
    if i < n - 1 { HandoverServes(held, n - 1, i); }
    if held[n - 1] != [] {
      ServesLater(Handover(held, n - 1), Departure(n - 1, held[n - 1][0], Handed), i);
    } else {
      Nothing(Handover(held, n - 1));
    }
  }

  /** The reverse stage of a pass: what it hands over and what it leaves. */
  ghost predicate Reversed(mid: seq<seq<Packet>>, left: seq<seq<Packet>>, d: seq<Departure>) {
    forall handed :: ReversedSo(mid, left, d, handed)
  }

  ghost predicate ReversedSo(mid: seq<seq<Packet>>, left: seq<seq<Packet>>, d: seq<Departure>, handed: bool) {
    if handed then HandsOver(mid, |mid|, d) else HeadsGone(mid, left, 0, |mid| - 1)
  }

  lemma ReversedParts(mid: seq<seq<Packet>>, left: seq<seq<Packet>>, d: seq<Departure>)
    requires Reversed(mid, left, d)
    ensures HandsOver(mid, |mid|, d) && HeadsGone(mid, left, 0, |mid| - 1)
  {
    assert ReversedSo(mid, left, d, true) && ReversedSo(mid, left, d, false);
  }

  lemma ReverseStageExact(s: State)
    ensures var n, r := |s.buffers|, ReverseStage(s, |s.buffers|);
            && Reversed(s.buffers, r.buffers, Handover(s.buffers, n))
            && r == s.(buffers := r.buffers, log := s.log + Handover(s.buffers, n))
  {
    var n := |s.buffers|;
    ReverseStageLog(s, n);
    HandoverRight(s.buffers, n);
    DownwardParts(s.buffers, n, Handover(s.buffers, n));
    forall i: nat | i < n
      ensures s.buffers[i] != [] ==> Serves(Handover(s.buffers, n), i)
      ensures ReverseStage(s, n).buffers[i] == if s.buffers[i] != [] then s.buffers[i][1..] else s.buffers[i]
    {
      ReverseStageLeaves(s, n, i);
      if s.buffers[i] != [] { HandoverServes(s.buffers, n, i); }
    }
  }

  /** What the lists hold between the two stages of a pass. */
  function Midway(held: seq<seq<Packet>>, f: nat, arrivals: seq<Arrival>): (r: seq<seq<Packet>>)
    requires f < |held| ==> held[f] != []
    ensures |r| == |held|
    ensures forall i :: 0 <= i < |r| ==> r[i] == (if i == f then held[i][1..] else held[i]) + Received(arrivals, i)
  {
    seq(|held|, i requires 0 <= i < |held| => (if i == f then held[i][1..] else held[i]) + Received(arrivals, i))
  }

  lemma MidwayFills(s: State, held: seq<seq<Packet>>, f: nat, arrivals: seq<Arrival>)
    requires f < |held| ==> held[f] != []
    requires s.buffers == if f < |held| then held[f := held[f][1..]] else held
    ensures Arrive(s, arrivals) == s.(buffers := Midway(held, f, arrivals))
  {
    ArriveExactly(s, arrivals);
    ArriveFills(s, arrivals);
    assert Filled(s, arrivals) == Midway(held, f, arrivals);
  }

  /** What a pass logs: the head of the first urgent list, if there is one, and then `d`. */
  function PassLog(held: seq<seq<Packet>>, f: nat, d: seq<Departure>): seq<Departure>
    requires f < |held| ==> held[f] != []
  {
    (if f < |held| then [Departure(f, held[f][0], Handed)] else []) + d
  }

  lemma SecondStage(s: State, held: seq<seq<Packet>>, f: nat, arrivals: seq<Arrival>)
    requires f < |held| ==> held[f] != []
    requires s.buffers == if f < |held| then held[f := held[f][1..]] else held
    ensures var mid, r := Midway(held, f, arrivals), ReverseStage(Arrive(s, arrivals), |s.buffers|);
            && Reversed(mid, r.buffers, Handover(mid, |mid|))
            && r == s.(buffers := r.buffers, log := s.log + Handover(mid, |mid|))
  {
    MidwayFills(s, held, f, arrivals);
    ReverseStageExact(Arrive(s, arrivals));
  }

  lemma StagesExact(config: Config, s: State, t: Tick) returns (f: nat, d: seq<Departure>)
    requires Fits(config, s)
    ensures FirstUrgent(config, s.buffers, 0, f)
    ensures d == Handover(Midway(s.buffers, f, t.between), |s.buffers|)
    ensures var r, mid := StarvationPass(config, s, t), Midway(s.buffers, f, t.between);
            && Reversed(mid, r.buffers, d)
            && r == State(r.buffers, s.log + PassLog(s.buffers, f, d), t.next, t.restart, s.passes + 1, !t.again)
  {
    f := CriticalStageExact(config, s, 0);
    var s2 := CriticalStage(config, s, 0);
    d := Handover(Midway(s.buffers, f, t.between), |s.buffers|);
    SecondStage(s2, s.buffers, f, t.between);
    LogJoins(s.log, s.buffers, f, d);
  }

  lemma LogJoins(log: seq<Departure>, held: seq<seq<Packet>>, f: nat, d: seq<Departure>)
    requires f < |held| ==> held[f] != []
    ensures log + PassLog(held, f, d) == (if f < |held| then log + [Departure(f, held[f][0], Handed)] else log) + d
  {
  }

  /** The exact effect of a starvation pass: the head of the first urgent list, if there is one, and then,
      from the last list to the first, the head of every list that is not empty are handed over to the
      workers; nothing is discarded and nothing else leaves a list. */
  lemma PassExact(config: Config, s: State, t: Tick) returns (f: nat, d: seq<Departure>)
    requires Fits(config, s) && !s.stopped && Passes(config, s, t)
    ensures var r, held := Iterate(config, s, t), Filled(s, t.before);
            && FirstUrgent(config, held, 0, f)
            && var mid := Midway(held, f, t.between);
               && HandsOver(mid, |mid|, d) && HeadsGone(mid, r.buffers, 0, |mid| - 1)
               && r == State(r.buffers, s.log + PassLog(held, f, d), t.next, t.restart, s.passes + 1, !t.again)
  {
    PassDecision(config, s, t);
    PassIterates(config, s, t);
    ArriveFills(s, t.before);
    ArriveExactly(s, t.before);
    f, d := StagesExact(config, Arrive(s, t.before), t);
    ReversedParts(Midway(Filled(s, t.before), f, t.between), Iterate(config, s, t).buffers, d);
  }

  // ----- Over whole runs

  /** The `k`-th departure of the log was made in the iteration of tick `j`. */
  ghost predicate MadeIn(config: Config, s: State, ticks: seq<Tick>, j: nat, k: nat)
    requires Fits(config, s) && j < |ticks|
  {
    |Run(config, s, ticks[..j]).log| <= k < |Run(config, s, ticks[..j + 1]).log|
  }

  /** A departure is a discard exactly if it was made by a normal scan and the packet was then older than
      the limit, by the clock reading of that scan. */
  ghost predicate RightFate(config: Config, m: State, t: Tick, d: Departure)
    requires Fits(config, m)
  {
    d.fate == Stale <==> !Passes(config, m, t) && m.uptime - d.packet.uptimeAtReceive > config.minAgeOutOfDate
  }

  ghost predicate RightFates(config: Config, s: State, t: Tick, d: seq<Departure>)
    requires Fits(config, s)
  {
    forall k :: 0 <= k < |d| ==> RightFate(config, s, t, d[k])
  }

  lemma ScanFates(config: Config, s: State, t: Tick) returns (d: seq<Departure>)
    requires Fits(config, s) && !s.stopped && !Passes(config, s, t)
    ensures Iterate(config, s, t).log == s.log + d && RightFates(config, s, t, d)
  {
    var f: nat;
    f, d := ScanExact(config, s, t);
  }

  lemma PassFates(config: Config, s: State, t: Tick) returns (d: seq<Departure>)
    requires Fits(config, s) && !s.stopped && Passes(config, s, t)
    ensures Iterate(config, s, t).log == s.log + d && RightFates(config, s, t, d)
  {
    var f, e := PassExact(config, s, t);
    d := PassLog(Filled(s, t.before), f, e);
  }

  lemma IterateFates(config: Config, s: State, t: Tick) returns (d: seq<Departure>)
    requires Fits(config, s)
    ensures Iterate(config, s, t).log == s.log + d && RightFates(config, s, t, d)
  {
    if s.stopped {
      d := [];
      Nothing(s.log);
    } else if Passes(config, s, t) {
      d := PassFates(config, s, t);
    } else {
      d := ScanFates(config, s, t);
    }
  }

  lemma Earlier(ticks: seq<Tick>, n: nat, j: nat)
    requires j < n <= |ticks|
    ensures ticks[..n][..j] == ticks[..j] && ticks[..n][..j + 1] == ticks[..j + 1] && ticks[..n][j] == ticks[j]
  {
  }

  /** Over every run: each departure was made in some iteration, and it was a discard if and only if a
      normal scan found the packet too old. */
  lemma {:induction false} RunFates(config: Config, s: State, ticks: seq<Tick>, k: nat) returns (j: nat)
    requires Fits(config, s) && |s.log| <= k < |Run(config, s, ticks).log|
    ensures j < |ticks| && MadeIn(config, s, ticks, j, k)
    ensures RightFate(config, Run(config, s, ticks[..j]), ticks[j], Run(config, s, ticks).log[k])
    decreases |ticks|
  {
    var n := |ticks| - 1;
    var p := ticks[..n];
    var m := Run(config, s, p);
    var d := IterateFates(config, m, ticks[n]);
    if k < |m.log| {
      j := RunFates(config, s, p, k);
      Earlier(ticks, n, j);
    } else {
      j := n;
      assert ticks[..n + 1] == ticks;
      assert Run(config, s, ticks).log[k] == d[k - |m.log|];
    }
  }
}
