/** `CommUnit_routine` of import/BeDIS.c: the loop that moves packets from the buffer lists, visited
    in the order of the priority list, to the worker threads.

    The specification is a deterministic step on values; `CommUnit.Scheduler` below carries it out
    with the source's loops. */
module CommUnitSpec {

  /** Longest time in seconds between two starvation passes. */
  const MAX_STARVATION_TIME := 600

  datatype Packet = Packet(id: nat, uptimeAtReceive: int)

  /** A packet leaves its list either for `thpool_add_work` or, too old, for `mp_free`. */
  datatype Fate = Handed | Stale

  datatype Departure = Departure(list: nat, packet: Packet, fate: Fate)

  datatype Config = Config(timeCriticalPriority: int, minAgeOutOfDate: int, nice: seq<int>)

  /** `buffers[i]` is the i-th list of the priority list; `log` records the departures in order;
      `passes` counts the starvation passes. */
  datatype State = State(
    buffers: seq<seq<Packet>>,
    log: seq<Departure>,
    initTime: int,
    uptime: int,
    passes: nat,
    stopped: bool)

  datatype Arrival = Arrival(list: nat, packet: Packet)

  /** What the routine observes during one evaluation of its inner loop guard: the packets appended
      by producers before it and between the two stages of a starvation pass, the work flag at the
      guard and at the outer loop, and the clock readings that follow. */
  datatype Tick = Tick(
    before: seq<Arrival>,
    between: seq<Arrival>,
    ready: bool,
    again: bool,
    next: int,
    restart: int)

  ghost predicate Fits(config: Config, s: State) {
    |config.nice| == |s.buffers|
  }

  function Arrive(s: State, arrivals: seq<Arrival>): (r: State)
    ensures |r.buffers| == |s.buffers|
    decreases |arrivals|
  {
    if arrivals == [] then s
    else
      var a := arrivals[0];
      var s1 := if a.list < |s.buffers|
                then s.(buffers := s.buffers[a.list := s.buffers[a.list] + [a.packet]]) else s;
      Arrive(s1, arrivals[1..])
  }

  /** The head of list `i` departs. */
  function Take(s: State, i: nat, fate: Fate): State
    requires i < |s.buffers| && s.buffers[i] != []
  {
    s.(buffers := s.buffers[i := s.buffers[i][1..]],
       log := s.log + [Departure(i, s.buffers[i][0], fate)])
  }

  predicate OutOfDate(config: Config, s: State, p: Packet) {
    s.uptime - p.uptimeAtReceive > config.minAgeOutOfDate
  }

  /** The normal scan from list `i` on. */
  function NormalScan(config: Config, s: State, i: nat): (r: State)
    requires i <= |s.buffers|
    ensures |r.buffers| == |s.buffers|
    decreases |s.buffers| - i
  {
    if i == |s.buffers| then s
    else if s.buffers[i] == [] then NormalScan(config, s, i + 1)
    else if OutOfDate(config, s, s.buffers[i][0]) then NormalScan(config, Take(s, i, Stale), i + 1)
    else Take(s, i, Handed)
  }

  /** The time-critical stage of a starvation pass from list `i` on. */
  function CriticalStage(config: Config, s: State, i: nat): (r: State)
    requires Fits(config, s) && i <= |s.buffers|
    ensures Fits(config, r)
    decreases |s.buffers| - i
  {
    if i == |s.buffers| || config.nice[i] != config.timeCriticalPriority then s
    else if s.buffers[i] == [] then CriticalStage(config, s, i + 1)
    else Take(s, i, Handed)
  }

  /** The reverse stage of a starvation pass over the first `i` lists. */
  function ReverseStage(s: State, i: nat): (r: State)
    requires i <= |s.buffers|
    ensures |r.buffers| == |s.buffers|
    decreases i
  {
    if i == 0 then s
    else ReverseStage(if s.buffers[i - 1] == [] then s else Take(s, i - 1, Handed), i - 1)
  }

  /** The guard of the inner loop, with the precedence the source gives it. */
  predicate KeepsScanning(s: State, ready: bool) {
    (ready && s.uptime - s.initTime < MAX_STARVATION_TIME) || s.uptime < s.initTime
  }

  function StarvationPass(config: Config, s: State, t: Tick): (r: State)
    requires Fits(config, s)
    ensures Fits(config, r)
  {
    var s1 := Arrive(CriticalStage(config, s, 0), t.between);
    ReverseStage(s1, |s1.buffers|).(initTime := t.next, uptime := t.restart, passes := s.passes + 1,
                                    stopped := !t.again)
  }

  /** One evaluation of the inner loop guard and what it leads to. */
  function Iterate(config: Config, s: State, t: Tick): (r: State)
    requires Fits(config, s)
    ensures Fits(config, r)
  {
    if s.stopped then s
    else
      var s1 := Arrive(s, t.before);
      if KeepsScanning(s1, t.ready) then NormalScan(config, s1, 0).(uptime := t.next)
      else StarvationPass(config, s1, t)
  }

  function Run(config: Config, s: State, ticks: seq<Tick>): (r: State)
    requires Fits(config, s)
    ensures Fits(config, r)
    decreases |ticks|
  {
    if ticks == [] then s else Iterate(config, Run(config, s, ticks[..|ticks| - 1]), ticks[|ticks| - 1])
  }

  /** The packets that have left list `i`, in order. */
  function Departed(log: seq<Departure>, i: nat): seq<Packet> {
    if log == [] then []
    else
      var d := log[|log| - 1];
      Departed(log[..|log| - 1], i) + if d.list == i then [d.packet] else []
  }
}

/** Properties of every run of the scheduler. */
module CommUnitProofs {
  import opened CommUnitSpec

  /** From `s` to `r` nothing is lost, duplicated or reordered: what has left list `i` followed by
      what it holds has only been extended, at its end. */
  ghost predicate Extends(s: State, r: State, i: nat)
    requires |r.buffers| == |s.buffers|
  {
    i < |s.buffers| ==>
      && Departed(s.log, i) <= Departed(r.log, i)
      && Departed(s.log, i) + s.buffers[i] <= Departed(r.log, i) + r.buffers[i]
  }

  /** And nothing has come in. */
  ghost predicate Conserves(s: State, r: State, i: nat)
    requires |r.buffers| == |s.buffers|
  {
    i < |s.buffers| ==>
      && Departed(s.log, i) <= Departed(r.log, i)
      && Departed(r.log, i) + r.buffers[i] == Departed(s.log, i) + s.buffers[i]
  }

  lemma TakeDeparts(s: State, j: nat, fate: Fate, i: nat)
    requires j < |s.buffers| && s.buffers[j] != []
    ensures Departed(Take(s, j, fate).log, i) == Departed(s.log, i) + if j == i then [s.buffers[j][0]] else []
    ensures Conserves(s, Take(s, j, fate), i)
  {
    var r := Take(s, j, fate);
    assert r.log[..|r.log| - 1] == s.log;
    if i == j {
      assert Departed(r.log, i) + r.buffers[i] == Departed(s.log, i) + s.buffers[i];
    }
  }

  lemma {:induction false} ArriveExtends(s: State, arrivals: seq<Arrival>, i: nat)
    ensures Extends(s, Arrive(s, arrivals), i)
    ensures i < |s.buffers| ==> s.buffers[i] <= Arrive(s, arrivals).buffers[i]
    ensures Arrive(s, arrivals).log == s.log
    decreases |arrivals|
  {
    if arrivals != [] {
      var a := arrivals[0];
      var s1 := if a.list < |s.buffers|
                then s.(buffers := s.buffers[a.list := s.buffers[a.list] + [a.packet]]) else s;
      ArriveExtends(s1, arrivals[1..], i);
    }
  }

  lemma ConservesFurther(s: State, t: State, r: State, i: nat)
    requires |t.buffers| == |s.buffers| == |r.buffers| && Conserves(s, t, i) && Conserves(t, r, i)
    ensures Conserves(s, r, i)
  {
  }

  lemma {:induction false} NormalScanConserves(config: Config, s: State, from: nat, i: nat)
    requires from <= |s.buffers|
    ensures Conserves(s, NormalScan(config, s, from), i)
    decreases |s.buffers| - from
  {
    if from < |s.buffers| {
      if s.buffers[from] == [] {
        NormalScanConserves(config, s, from + 1, i);
      } else if OutOfDate(config, s, s.buffers[from][0]) {
        var t := Take(s, from, Stale);
        TakeDeparts(s, from, Stale, i);
        NormalScanConserves(config, t, from + 1, i);
        ConservesFurther(s, t, NormalScan(config, t, from + 1), i);
      } else {
        TakeDeparts(s, from, Handed, i);
      }
    }
  }

  lemma {:induction false} CriticalStageConserves(config: Config, s: State, from: nat, i: nat)
    requires Fits(config, s) && from <= |s.buffers|
    ensures Conserves(s, CriticalStage(config, s, from), i)
    decreases |s.buffers| - from
  {
    if from < |s.buffers| && config.nice[from] == config.timeCriticalPriority {
      if s.buffers[from] == [] {
        CriticalStageConserves(config, s, from + 1, i);
      } else {
        TakeDeparts(s, from, Handed, i);
      }
    }
  }

  /** The reverse stage takes one packet from every non-empty list it covers. */
  lemma {:induction false} ReverseStageServes(s: State, n: nat, i: nat)
    requires n <= |s.buffers|
    ensures Conserves(s, ReverseStage(s, n), i)
    ensures i < n && s.buffers[i] != [] ==> |Departed(ReverseStage(s, n).log, i)| > |Departed(s.log, i)|
    decreases n
  {
    if n > 0 {
      if s.buffers[n - 1] == [] {
        ReverseStageServes(s, n - 1, i);
      } else {
        TakeDeparts(s, n - 1, Handed, i);
        ReverseStageServes(Take(s, n - 1, Handed), n - 1, i);
      }
    }
  }

  lemma ArriveKeepsTimes(s: State, arrivals: seq<Arrival>)
    ensures var r := Arrive(s, arrivals);
            r.initTime == s.initTime && r.uptime == s.uptime && r.passes == s.passes && r.stopped == s.stopped
    decreases |arrivals|
  {
    if arrivals != [] {
      var a := arrivals[0];
      var s1 := if a.list < |s.buffers|
                then s.(buffers := s.buffers[a.list := s.buffers[a.list] + [a.packet]]) else s;
      ArriveKeepsTimes(s1, arrivals[1..]);
    }
  }

  lemma NormalScanKeepsTimes(config: Config, s: State, i: nat)
    requires i <= |s.buffers|
    ensures var r := NormalScan(config, s, i);
            r.initTime == s.initTime && r.uptime == s.uptime && r.passes == s.passes && r.stopped == s.stopped
    decreases |s.buffers| - i
  {
    if i < |s.buffers| && s.buffers[i] != [] && OutOfDate(config, s, s.buffers[i][0]) {
      NormalScanKeepsTimes(config, Take(s, i, Stale), i + 1);
    } else if i < |s.buffers| && s.buffers[i] == [] {
      NormalScanKeepsTimes(config, s, i + 1);
    }
  }

  lemma IterateExtends(config: Config, s: State, t: Tick, i: nat)
    requires Fits(config, s)
    ensures Extends(s, Iterate(config, s, t), i)
    ensures var r := Iterate(config, s, t);
            && r.passes <= s.passes + 1
            && (i < |s.buffers| && s.buffers[i] != [] && r.passes > s.passes ==>
                  |Departed(r.log, i)| > |Departed(s.log, i)|)
  {
    if !s.stopped {
      var s1 := Arrive(s, t.before);
      ArriveExtends(s, t.before, i);
      ArriveKeepsTimes(s, t.before);
      if KeepsScanning(s1, t.ready) {
        NormalScanConserves(config, s1, 0, i);
        NormalScanKeepsTimes(config, s1, 0);
      } else {
        var s2 := CriticalStage(config, s1, 0);
        CriticalStageConserves(config, s1, 0, i);
        var s3 := Arrive(s2, t.between);
        ArriveExtends(s2, t.between, i);
        ReverseStageServes(s3, |s3.buffers|, i);
        if i < |s.buffers| && s.buffers[i] != [] {
          assert |Departed(s.log, i) + s.buffers[i]| <= |Departed(s1.log, i) + s1.buffers[i]|
              <= |Departed(s2.log, i) + s2.buffers[i]| <= |Departed(s3.log, i) + s3.buffers[i]|;
        }
      }
    }
  }

  lemma {:induction false} RunExtends(config: Config, s: State, ticks: seq<Tick>, i: nat)
    requires Fits(config, s)
    ensures Extends(s, Run(config, s, ticks), i)
    decreases |ticks|
  {
    if ticks != [] {
      var n := |ticks| - 1;
      RunExtends(config, s, ticks[..n], i);
      IterateExtends(config, Run(config, s, ticks[..n]), ticks[n], i);
    }
  }

  /** The packets that arrive at list `i`, in order. */
  function Received(arrivals: seq<Arrival>, i: nat): seq<Packet>
    decreases |arrivals|
  {
    if arrivals == [] then []
    else (if arrivals[0].list == i then [arrivals[0].packet] else []) + Received(arrivals[1..], i)
  }

  lemma {:induction false} ArriveExact(s: State, arrivals: seq<Arrival>, i: nat)
    requires i < |s.buffers|
    ensures Arrive(s, arrivals).buffers[i] == s.buffers[i] + Received(arrivals, i) && Arrive(s, arrivals).log == s.log
    decreases |arrivals|
  {
    if arrivals != [] {
      var a := arrivals[0];
      var s1 := if a.list < |s.buffers|
                then s.(buffers := s.buffers[a.list := s.buffers[a.list] + [a.packet]]) else s;
      ArriveExact(s1, arrivals[1..], i);
    }
  }

  /** The iteration is a starvation pass. */
  ghost predicate Passes(config: Config, s: State, t: Tick)
    requires Fits(config, s)
  {
    Iterate(config, s, t).passes > s.passes
  }

  /** What an iteration takes up of the packets that arrive during it. */
  ghost function TakenUp(config: Config, s: State, t: Tick, i: nat): seq<Packet>
    requires Fits(config, s)
  {
    if s.stopped then []
    else Received(t.before, i) + if Passes(config, s, t) then Received(t.between, i) else []
  }

  lemma ScanIterates(config: Config, s: State, t: Tick)
    requires Fits(config, s) && !s.stopped && KeepsScanning(s, t.ready)
    ensures Iterate(config, s, t) == NormalScan(config, Arrive(s, t.before), 0).(uptime := t.next)
  {
    ArriveKeepsTimes(s, t.before);
  }

  lemma PassIterates(config: Config, s: State, t: Tick)
    requires Fits(config, s) && !s.stopped && !KeepsScanning(s, t.ready)
    ensures Iterate(config, s, t) == StarvationPass(config, Arrive(s, t.before), t)
  {
    ArriveKeepsTimes(s, t.before);
  }

  /** What has left list `i` and what it holds, in order. */
  function Whole(s: State, i: nat): seq<Packet>
    requires i < |s.buffers|
  {
    Departed(s.log, i) + s.buffers[i]
  }

  lemma ArriveWhole(s: State, arrivals: seq<Arrival>, i: nat)
    requires i < |s.buffers|
    ensures Whole(Arrive(s, arrivals), i) == Whole(s, i) + Received(arrivals, i)
  {
    ArriveExact(s, arrivals, i);
    Behind(Departed(s.log, i), s.buffers[i], Received(arrivals, i));
  }

  lemma Behind(a: seq<Packet>, b: seq<Packet>, c: seq<Packet>)
    ensures a + (b + c) == a + b + c && a + [] == a
  {
  }

  lemma ScanConserves(config: Config, s: State, t: Tick, i: nat)
    requires Fits(config, s) && i < |s.buffers| && !s.stopped && KeepsScanning(s, t.ready)
    ensures Whole(Iterate(config, s, t), i) == Whole(s, i) + Received(t.before, i)
  {
    ScanIterates(config, s, t);
    ArriveWhole(s, t.before, i);
    NormalScanConserves(config, Arrive(s, t.before), 0, i);
  }

  lemma PassConserves(config: Config, s: State, t: Tick, i: nat)
    requires Fits(config, s) && i < |s.buffers| && !s.stopped && !KeepsScanning(s, t.ready)
    ensures Whole(Iterate(config, s, t), i) == Whole(s, i) + Received(t.before, i) + Received(t.between, i)
  {
    var s1 := Arrive(s, t.before);
    var s2 := CriticalStage(config, s1, 0);
    var s3 := Arrive(s2, t.between);
    PassIterates(config, s, t);
    ArriveWhole(s, t.before, i);
    CriticalStageConserves(config, s1, 0, i);
    ArriveWhole(s2, t.between, i);
    ReverseStageServes(s3, |s3.buffers|, i);
  }

  /** In one iteration what has left a list and what it holds is what there was before with the arrivals
      behind it. */
  lemma IterateConserves(config: Config, s: State, t: Tick, i: nat)
    requires Fits(config, s) && i < |s.buffers|
    ensures Whole(Iterate(config, s, t), i) == Whole(s, i) + TakenUp(config, s, t, i)
  {
    if s.stopped {
      Behind(Whole(s, i), [], []);
    } else {
      PassDecision(config, s, t);
      if KeepsScanning(s, t.ready) {
        ScanConserves(config, s, t, i);
        Behind(Received(t.before, i), [], []);
      } else {
        PassConserves(config, s, t, i);
        Behind(Whole(s, i), Received(t.before, i), Received(t.between, i));
      }
    }
  }

  ghost function RunTakenUp(config: Config, s: State, ticks: seq<Tick>, i: nat): seq<Packet>
    requires Fits(config, s)
    decreases |ticks|
  {
    if ticks == [] then []
    else
      var p := ticks[..|ticks| - 1];
      RunTakenUp(config, s, p, i) + TakenUp(config, Run(config, s, p), ticks[|p|], i)
  }

  /** The same over every run. */
  lemma {:induction false} RunConserves(config: Config, s: State, ticks: seq<Tick>, i: nat)
    requires Fits(config, s) && i < |s.buffers|
    ensures Whole(Run(config, s, ticks), i) == Whole(s, i) + RunTakenUp(config, s, ticks, i)
    decreases |ticks|
  {
    if ticks == [] {
      Behind(Whole(s, i), [], []);
    } else {
      var p := ticks[..|ticks| - 1];
      RunConserves(config, s, p, i);
      IterateConserves(config, Run(config, s, p), ticks[|p|], i);
      Behind(Whole(s, i), RunTakenUp(config, s, p, i), TakenUp(config, Run(config, s, p), ticks[|p|], i));
    }
  }

  /** How far a run gets in a list that held more than `k` packets when it began. */
  lemma {:induction false} PassesServe(config: Config, s: State, ticks: seq<Tick>, i: nat, k: nat)
    requires Fits(config, s) && i < |s.buffers| && k < |s.buffers[i]|
    ensures var r := Run(config, s, ticks);
            var served := |Departed(r.log, i)| - |Departed(s.log, i)|;
            served > k || served >= r.passes - s.passes
    decreases |ticks|
  {
    if ticks != [] {
      var n := |ticks| - 1;
      var m := Run(config, s, ticks[..n]);
      PassesServe(config, s, ticks[..n], i, k);
      RunExtends(config, s, ticks[..n], i);
      IterateExtends(config, m, ticks[n], i);
      if m.buffers[i] == [] {
        assert |Departed(m.log, i)| >= |Departed(s.log, i) + s.buffers[i]|;
      }
    }
  }

  /** Bounded waiting: a packet with `k` packets ahead of it in its list has been handed to the
      workers or discarded as stale once `k + 1` starvation passes have been made, whatever the
      producers appended and the normal scans took in the meantime. */
  lemma BoundedWaiting(config: Config, s: State, ticks: seq<Tick>, i: nat, k: nat)
    requires Fits(config, s) && i < |s.buffers| && k < |s.buffers[i]|
    requires Run(config, s, ticks).passes > s.passes + k
    ensures var before := Departed(s.log, i);
            var after := Departed(Run(config, s, ticks).log, i);
            |after| > |before| + k && after[|before| + k] == s.buffers[i][k]
  {
    PassesServe(config, s, ticks, i, k);
    RunExtends(config, s, ticks, i);
    var r := Run(config, s, ticks);
    assert (Departed(s.log, i) + s.buffers[i])[|Departed(s.log, i)| + k] == s.buffers[i][k];
    assert (Departed(r.log, i) + r.buffers[i])[|Departed(s.log, i)| + k] == s.buffers[i][k];
  }

  /** The clock reading the guard sees at tick `j`. */
  function Evaluated(s: State, ticks: seq<Tick>, j: nat): int
    requires j <= |ticks|
  {
    if j == 0 then s.uptime else ticks[j - 1].next
  }

  ghost predicate MonotoneClock(s: State, ticks: seq<Tick>) {
    && s.initTime <= s.uptime
    && (forall j :: 0 <= j < |ticks| ==> Evaluated(s, ticks, j) <= ticks[j].next <= ticks[j].restart)
  }

  lemma {:induction false} UntilFirstPass(config: Config, s: State, ticks: seq<Tick>)
    requires Fits(config, s) && !s.stopped && MonotoneClock(s, ticks)
    requires forall j :: 0 <= j < |ticks| ==>
               ticks[j].ready && Evaluated(s, ticks, j) - s.initTime < MAX_STARVATION_TIME
    ensures var r := Run(config, s, ticks);
            r.passes == s.passes && r.initTime == s.initTime && !r.stopped && r.uptime == Evaluated(s, ticks, |ticks|)
    decreases |ticks|
  {
    if ticks != [] {
      var n := |ticks| - 1;
      var p := ticks[..n];
      assert forall j :: 0 <= j <= |p| ==> Evaluated(s, p, j) == Evaluated(s, ticks, j);
      UntilFirstPass(config, s, p);
      var m := Run(config, s, p);
      ArriveKeepsTimes(m, ticks[n].before);
      NormalScanKeepsTimes(config, Arrive(m, ticks[n].before), 0);
    }
  }

  /** With a monotone clock and the work flag set, a starvation pass is made at the first reading
      that is `MAX_STARVATION_TIME` or more after the end of the previous pass, and not before. */
  lemma PassBeginsOnTime(config: Config, s: State, ticks: seq<Tick>, n: nat)
    requires Fits(config, s) && !s.stopped && n < |ticks| && MonotoneClock(s, ticks)
    requires forall j :: 0 <= j <= n ==> ticks[j].ready
    requires forall j :: 0 <= j < n ==> Evaluated(s, ticks, j) - s.initTime < MAX_STARVATION_TIME
    ensures Run(config, s, ticks[..n]).passes == s.passes
    ensures Run(config, s, ticks[..n + 1]).passes == s.passes + 1
       <==> Evaluated(s, ticks, n) - s.initTime >= MAX_STARVATION_TIME
  {
    var p := ticks[..n];
    assert forall j :: 0 <= j <= |p| ==> Evaluated(s, p, j) == Evaluated(s, ticks, j);
    UntilFirstPass(config, s, p);
    RunStep(config, s, ticks, n);
    PassDecision(config, Run(config, s, p), ticks[n]);
  }

  lemma RunStep(config: Config, s: State, ticks: seq<Tick>, n: nat)
    requires Fits(config, s) && n < |ticks|
    ensures Run(config, s, ticks[..n + 1]) == Iterate(config, Run(config, s, ticks[..n]), ticks[n])
  {
    assert ticks[..n + 1][..n] == ticks[..n];
  }

  /** An iteration makes a pass exactly when the guard of the inner loop fails. */
  lemma PassDecision(config: Config, s: State, t: Tick)
    requires Fits(config, s) && !s.stopped
    ensures Iterate(config, s, t).passes == s.passes + if KeepsScanning(s, t.ready) then 0 else 1
  {
    ArriveKeepsTimes(s, t.before);
    NormalScanKeepsTimes(config, Arrive(s, t.before), 0);
  }

  // ----- Waiting in time

  /** The clock does not run backwards, consecutive readings are at most `d` apart, and the work flag
      is set when it is read. */
  ghost predicate Steady(s: State, t: Tick, d: nat) {
    && t.ready && t.again
    && s.uptime <= t.next <= s.uptime + d
    && t.next <= t.restart <= t.next + d
  }

  /** So it is throughout the run, which begins while the outer loop runs. */
  ghost predicate SteadyRun(config: Config, s: State, ticks: seq<Tick>, d: nat)
    requires Fits(config, s)
    decreases |ticks|
  {
    if ticks == [] then !s.stopped && s.initTime <= s.uptime
    else
      var p := ticks[..|ticks| - 1];
      SteadyRun(config, s, p, d) && Steady(Run(config, s, p), ticks[|p|], d)
  }

  /** The latest beginning of the interval that follows `passes` starvation passes, counted from `start`. */
  function Horizon(start: int, passes: nat, d: nat): int {
    if passes == 0 then start else Horizon(start, passes - 1, d) + MAX_STARVATION_TIME + 2 * d
  }

  /** The last pass ended in time, and the next reading that calls for a pass is not overdue. */
  ghost predicate OnTime(start: int, passes: nat, s: State, d: nat) {
    && !s.stopped
    && s.initTime <= s.uptime && s.initTime <= Horizon(start, passes, d)
    && s.uptime < Horizon(start, passes, d) + MAX_STARVATION_TIME + d
  }

  lemma IterateOnTime(config: Config, start: int, passes: nat, s: State, t: Tick, d: nat)
    requires Fits(config, s) && OnTime(start, passes, s, d) && Steady(s, t, d)
    ensures var r := Iterate(config, s, t);
            s.passes <= r.passes && OnTime(start, passes + r.passes - s.passes, r, d)
  {
    ArriveKeepsTimes(s, t.before);
    NormalScanKeepsTimes(config, Arrive(s, t.before), 0);
  }

  lemma {:induction false} RunOnTime(config: Config, s: State, ticks: seq<Tick>, d: nat)
    requires Fits(config, s) && SteadyRun(config, s, ticks, d)
    ensures var r := Run(config, s, ticks);
            s.passes <= r.passes && OnTime(s.uptime, r.passes - s.passes, r, d)
    decreases |ticks|
  {
    if ticks != [] {
      var p := ticks[..|ticks| - 1];
      RunOnTime(config, s, p, d);
      var m := Run(config, s, p);
      IterateOnTime(config, s.uptime, m.passes - s.passes, m, ticks[|p|], d);
    }
  }

  lemma {:induction false} HorizonMonotone(start: int, m: nat, n: nat, d: nat)
    requires m <= n
    ensures Horizon(start, m, d) <= Horizon(start, n, d)
    decreases n - m
  {
    if m < n {
      HorizonMonotone(start, m, n - 1, d);
    }
  }

  lemma {:induction false} HorizonClosed(start: int, k: nat, d: nat)
    ensures Horizon(start, k, d) == start + k * MAX_STARVATION_TIME + 2 * k * d
  {
    if k > 0 {
      HorizonClosed(start, k - 1, d);
      assert 2 * (k - 1) * d == 2 * k * d - 2 * d;
    }
  }

  /** When a packet with `k` packets ahead of it has left: each of `k + 1` passes begins at most `d`
      late, and after each but the last the next interval begins at most `d` after that pass began. */
  function Deadline(start: int, k: nat, d: nat): int {
    Horizon(start, k, d) + MAX_STARVATION_TIME + d
  }

  lemma DeadlineClosed(start: int, k: nat, d: nat)
    ensures Deadline(start, k, d) == start + (k + 1) * MAX_STARVATION_TIME + (2 * k + 1) * d
  {
    HorizonClosed(start, k, d);
  }

  lemma OnTimeByDeadline(start: int, passes: nat, s: State, k: nat, d: nat)
    requires OnTime(start, passes, s, d) && s.uptime >= Deadline(start, k, d)
    ensures passes > k
  {
    if passes <= k {
      HorizonMonotone(start, passes, k, d);
    }
  }

  lemma PassesByDeadline(config: Config, s: State, ticks: seq<Tick>, k: nat, d: nat)
    requires Fits(config, s) && SteadyRun(config, s, ticks, d)
    requires Run(config, s, ticks).uptime >= Deadline(s.uptime, k, d)
    ensures Run(config, s, ticks).passes > s.passes + k
  {
    RunOnTime(config, s, ticks, d);
    OnTimeByDeadline(s.uptime, Run(config, s, ticks).passes - s.passes, Run(config, s, ticks), k, d);
  }

  /** Bounded waiting by the clock: while the work flag is set and consecutive readings are at most `d`
      seconds apart, a packet with `k` packets ahead of it has left its list by the deadline. */
  lemma WaitingTime(config: Config, s: State, ticks: seq<Tick>, i: nat, k: nat, d: nat)
    requires Fits(config, s) && SteadyRun(config, s, ticks, d)
    requires i < |s.buffers| && k < |s.buffers[i]|
    requires Run(config, s, ticks).uptime >= Deadline(s.uptime, k, d)
    ensures var before := Departed(s.log, i);
            var after := Departed(Run(config, s, ticks).log, i);
            |after| > |before| + k && after[|before| + k] == s.buffers[i][k]
  {
    PassesByDeadline(config, s, ticks, k, d);
    BoundedWaiting(config, s, ticks, i, k);
  }

  /** Once the outer loop has ended nothing more happens. */
  lemma {:induction false} StoppedStays(config: Config, s: State, ticks: seq<Tick>, n: nat)
    requires Fits(config, s) && n <= |ticks|
    requires n == |ticks| || Run(config, s, ticks[..n]).stopped
    ensures Run(config, s, ticks) == Run(config, s, ticks[..n])
    decreases |ticks| - n
  {
    if n < |ticks| {
      RunStep(config, s, ticks, n);
      StoppedStays(config, s, ticks, n + 1);
    } else {
      assert ticks[..n] == ticks;
    }
  }

  /** The first list, from `i` on, whose head is not out of date. */
  function FirstFresh(config: Config, s: State, i: nat): (f: nat)
    requires i <= |s.buffers|
    ensures i <= f <= |s.buffers|
    ensures f < |s.buffers| ==> s.buffers[f] != [] && !OutOfDate(config, s, s.buffers[f][0])
    ensures forall j :: i <= j < f ==> s.buffers[j] != [] ==> OutOfDate(config, s, s.buffers[j][0])
    decreases |s.buffers| - i
  {
    if i == |s.buffers| || (s.buffers[i] != [] && !OutOfDate(config, s, s.buffers[i][0])) then i
    else FirstFresh(config, s, i + 1)
  }

  /** The departures of the stale heads of lists `i` to `f - 1`. */
  function StaleHeads(s: State, i: nat, f: nat): seq<Departure>
    requires i <= f <= |s.buffers|
    decreases f - i
  {
    if i == f then []
    else (if s.buffers[i] == [] then [] else [Departure(i, s.buffers[i][0], Stale)]) + StaleHeads(s, i + 1, f)
  }

  function HandedHead(s: State, f: nat): seq<Departure> {
    if f < |s.buffers| && s.buffers[f] != [] then [Departure(f, s.buffers[f][0], Handed)] else []
  }

  /** The normal scan hands over at most one packet, the head of the first list whose head is fresh;
      each list before that one was empty or lost exactly its stale head; nothing else changes. */
  lemma NormalScanExact(config: Config, s: State, i: nat)
    requires i <= |s.buffers|
    ensures var r, f := NormalScan(config, s, i), FirstFresh(config, s, i);
            && r.log == s.log + (StaleHeads(s, i, f) + HandedHead(s, f))
            && forall j :: 0 <= j < |s.buffers| ==>
                 r.buffers[j] == if i <= j <= f && s.buffers[j] != [] then s.buffers[j][1..] else s.buffers[j]
  {
    NormalScanLog(config, s, i);
    forall j | 0 <= j < |s.buffers| {
      NormalScanBuffer(config, s, i, j);
    }
  }

  /** What the scan adds to the log. */
  function ScanLog(config: Config, s: State, i: nat): seq<Departure>
    requires i <= |s.buffers|
  {
    var f := FirstFresh(config, s, i);
    StaleHeads(s, i, f) + HandedHead(s, f)
  }

  lemma Regroup(a: seq<Departure>, b: seq<Departure>, c: seq<Departure>)
    ensures (a + b) + c == a + (b + c)
  {
  }

  /** A stale head comes first; what follows does not depend on it. */
  lemma ScanLogStale(config: Config, s: State, i: nat)
    requires i < |s.buffers| && s.buffers[i] != [] && OutOfDate(config, s, s.buffers[i][0])
    ensures ScanLog(config, s, i) == [Departure(i, s.buffers[i][0], Stale)] + ScanLog(config, Take(s, i, Stale), i + 1)
  {
    var t := Take(s, i, Stale);
    var f := FirstFresh(config, s, i + 1);
    FirstFreshFrame(config, s, t, i + 1);
    StaleHeadsFrame(s, t, i + 1, f);
    assert HandedHead(s, f) == HandedHead(t, f);
    Regroup([Departure(i, s.buffers[i][0], Stale)], StaleHeads(s, i + 1, f), HandedHead(s, f));
  }

  lemma ScanLogSkip(config: Config, s: State, i: nat)
    requires i < |s.buffers| && s.buffers[i] == []
    ensures ScanLog(config, s, i) == ScanLog(config, s, i + 1)
  {
    var stale := StaleHeads(s, i + 1, FirstFresh(config, s, i + 1));
    assert [] + stale == stale;
  }

  lemma {:induction false} NormalScanLog(config: Config, s: State, i: nat)
    requires i <= |s.buffers|
    ensures NormalScan(config, s, i).log == s.log + ScanLog(config, s, i)
    decreases |s.buffers| - i
  {
    if i < |s.buffers| {
      if s.buffers[i] == [] {
        ScanLogSkip(config, s, i);
        NormalScanLog(config, s, i + 1);
      } else if OutOfDate(config, s, s.buffers[i][0]) {
        ScanLogStale(config, s, i);
        NormalScanLog(config, Take(s, i, Stale), i + 1);
        Regroup(s.log, [Departure(i, s.buffers[i][0], Stale)], ScanLog(config, Take(s, i, Stale), i + 1));
      }
    }
  }

  /** What the scan leaves of list `j` when it stops at list `f`. */
  function Scanned(s: State, i: nat, f: nat, j: nat): seq<Packet>
    requires j < |s.buffers|
  {
    if i <= j <= f && s.buffers[j] != [] then s.buffers[j][1..] else s.buffers[j]
  }

  lemma ScannedStale(s: State, i: nat, f: nat, j: nat)
    requires i < f && i < |s.buffers| && s.buffers[i] != [] && j < |s.buffers|
    ensures Scanned(s, i, f, j) == Scanned(Take(s, i, Stale), i + 1, f, j)
  {
  }

  lemma {:induction false} NormalScanBuffer(config: Config, s: State, i: nat, j: nat)
    requires i <= |s.buffers| && j < |s.buffers|
    ensures NormalScan(config, s, i).buffers[j] == Scanned(s, i, FirstFresh(config, s, i), j)
    decreases |s.buffers| - i
  {
    if i < |s.buffers| {
      if s.buffers[i] == [] {
        NormalScanBuffer(config, s, i + 1, j);
      } else if OutOfDate(config, s, s.buffers[i][0]) {
        NormalScanBuffer(config, Take(s, i, Stale), i + 1, j);
        FirstFreshFrame(config, s, Take(s, i, Stale), i + 1);
        ScannedStale(s, i, FirstFresh(config, s, i + 1), j);
      }
    }
  }

  lemma StaleHeadsFrame(s: State, t: State, i: nat, f: nat)
    requires i <= f <= |s.buffers| == |t.buffers|
    requires forall j :: i <= j < |s.buffers| ==> s.buffers[j] == t.buffers[j]
    ensures StaleHeads(s, i, f) == StaleHeads(t, i, f)
    decreases f - i
  {
  }

  lemma FirstFreshFrame(config: Config, s: State, t: State, i: nat)
    requires i <= |s.buffers| == |t.buffers| && s.uptime == t.uptime
    requires forall j :: i <= j < |s.buffers| ==> s.buffers[j] == t.buffers[j]
    ensures FirstFresh(config, s, i) == FirstFresh(config, t, i)
    decreases |s.buffers| - i
  {
  }
}

/** What the order of the priority list gives the starvation pass. */
module CriticalFirst {
  import opened CommUnitSpec
  import PriorityLevels
  import PriorityOrder

  ghost predicate Urgent(config: Config, s: State, i: nat)
    requires Fits(config, s) && i < |s.buffers|
  {
    config.nice[i] == config.timeCriticalPriority && s.buffers[i] != []
  }

  ghost predicate CriticalPrefix(config: Config) {
    forall i, j :: 0 <= i < j < |config.nice| && config.nice[j] == config.timeCriticalPriority
      ==> config.nice[i] == config.timeCriticalPriority
  }

  /** When the time-critical lists form a prefix, the early break skips none of them: the stage
      serves the first non-empty time-critical list, if there is one, and nothing else. */
  lemma {:induction false} CriticalStageServes(config: Config, s: State, i: nat, f: nat)
    requires Fits(config, s) && i <= f < |s.buffers| && CriticalPrefix(config)
    requires Urgent(config, s, f) && forall j :: i <= j < f ==> !Urgent(config, s, j)
    ensures CriticalStage(config, s, i) == Take(s, f, Handed)
    decreases f - i
  {
    if i < f {
      assert config.nice[i] == config.timeCriticalPriority && !Urgent(config, s, i);
      CriticalStageServes(config, s, i + 1, f);
    }
  }

  lemma {:induction false} CriticalStageIdle(config: Config, s: State, i: nat)
    requires Fits(config, s) && i <= |s.buffers|
    requires forall j :: i <= j < |s.buffers| ==> !Urgent(config, s, j)
    ensures CriticalStage(config, s, i) == s
    decreases |s.buffers| - i
  {
    if i < |s.buffers| {
      assert !Urgent(config, s, i);
      CriticalStageIdle(config, s, i + 1);
    }
  }

  /** The order left by `sort_priority_list` is such a prefix. */
  lemma SortGivesCriticalPrefix(levels: PriorityLevels.CommonConfig, entries: seq<PriorityLevels.PriorityEntry>,
                                config: Config)
    requires var sorted := PriorityLevels.Sorted(levels, entries);
             && (forall j :: 0 <= j < |sorted| ==> sorted[j].owner.OwnedBy?)
             && config.nice == PriorityOrder.NiceValues(sorted)
    requires config.timeCriticalPriority == levels.timeCriticalPriority
    ensures CriticalPrefix(config)
  {
    forall i, j | 0 <= i < j < |config.nice| && config.nice[j] == config.timeCriticalPriority
      ensures config.nice[i] == config.timeCriticalPriority
    {
      PriorityOrder.CriticalPrefix(levels, entries, i);
      PriorityOrder.CriticalPrefix(levels, entries, j);
    }
  }
}

/** The routine itself, with the loops and the state of the source. */
module CommUnit {
  import opened CommUnitSpec
  import CommUnitProofs
  import CommUnitEffects

  class Scheduler {
    const config: Config
    var buffers: seq<seq<Packet>>
    var log: seq<Departure>
    var initTime: int
    var uptime: int
    var stopped: bool
    ghost var passes: nat

    ghost predicate Valid()
      reads this
    {
      |config.nice| == |buffers|
    }

    ghost function Abs(): State
      reads this
    {
      State(buffers, log, initTime, uptime, passes, stopped)
    }

    /** The two clock readings made before the loop of the routine and at its start. */
    constructor (config: Config, buffers: seq<seq<Packet>>, start: int, uptime: int)
      requires |config.nice| == |buffers|
      ensures Valid() && this.config == config
      ensures Abs() == State(buffers, [], start, uptime, 0, false)
    {
      this.config := config;
      this.buffers := buffers;
      this.log := [];
      this.initTime := start;
      this.uptime := uptime;
      this.stopped := false;
      this.passes := 0;
    }

    /** Producers append to the tails of the buffer lists. */
    method Produce(arrivals: seq<Arrival>)
      requires Valid()
      modifies this`buffers
      ensures Valid() && Abs() == Arrive(old(Abs()), arrivals)
    {
      var k := 0;
      while k < |arrivals|
        invariant k <= |arrivals| && Valid()
        invariant Arrive(Abs(), arrivals[k..]) == Arrive(old(Abs()), arrivals)
      {
        var a := arrivals[k];
        assert arrivals[k..][0] == a && arrivals[k..][1..] == arrivals[k + 1..];
        if a.list < |buffers| {
          buffers := buffers[a.list := buffers[a.list] + [a.packet]];
        }
        k := k + 1;
      }
    }

    /** Unlinks the first packet of list `i` and passes it on. */
    method Remove(i: nat, fate: Fate)
      requires Valid() && i < |buffers| && buffers[i] != []
      modifies this`buffers, this`log
      ensures Valid() && Abs() == Take(old(Abs()), i, fate)
    {
      var head := buffers[i][0];
      buffers := buffers[i := buffers[i][1..]];
      log := log + [Departure(i, head, fate)];
    }

    /** The scan ends at list `f` with the departures `d`. */
    method Scan() returns (ghost f: nat, ghost d: seq<Departure>)
      requires Valid()
      modifies this`buffers, this`log
      ensures Valid() && Abs() == NormalScan(config, old(Abs()), 0)
      ensures CommUnitEffects.ScanOf(old(buffers), uptime, config.minAgeOutOfDate, 0, f, d)
      ensures log == old(log) + d && CommUnitEffects.HeadsGone(old(buffers), buffers, 0, f)
    {
      f, d := CommUnitEffects.NormalScanOf(config, Abs());
      var i := 0;
      while i < |buffers|
        invariant i <= |buffers| && Valid()
        invariant NormalScan(config, Abs(), i) == NormalScan(config, old(Abs()), 0)
      {
        if buffers[i] != [] {
          if uptime - buffers[i][0].uptimeAtReceive > config.minAgeOutOfDate {
            Remove(i, Stale);
          } else {
            Remove(i, Handed);
            return;
          }
        }
        i := i + 1;
      }
    }

    /** List `f` is the first urgent one. */
    method ServeTimeCritical() returns (ghost f: nat)
      requires Valid()
      modifies this`buffers, this`log
      ensures Valid() && Abs() == CriticalStage(config, old(Abs()), 0)
      ensures CommUnitEffects.FirstUrgent(config, old(buffers), 0, f)
      ensures log == old(log) + if f < |old(buffers)| then [Departure(f, old(buffers)[f][0], Handed)] else []
      ensures buffers == if f < |old(buffers)| then old(buffers)[f := old(buffers)[f][1..]] else old(buffers)
    {
      f := CommUnitEffects.CriticalStageExact(config, Abs(), 0);
      CommUnitEffects.Nothing(log);
      var i := 0;
      while i < |buffers|
        invariant i <= |buffers| && Valid()
        invariant CriticalStage(config, Abs(), i) == CriticalStage(config, old(Abs()), 0)
      {
        if config.nice[i] != config.timeCriticalPriority {
          break;
        }
        if buffers[i] != [] {
          Remove(i, Handed);
          return;
        }
        i := i + 1;
      }
    }

    /** The departures `d` hand over the head of every list, from the last to the first. */
    method ServeInReverse() returns (ghost d: seq<Departure>)
      requires Valid()
      modifies this`buffers, this`log
      ensures Valid() && Abs() == ReverseStage(old(Abs()), |old(buffers)|)
      ensures CommUnitEffects.HandsOver(old(buffers), |old(buffers)|, d)
      ensures log == old(log) + d && CommUnitEffects.HeadsGone(old(buffers), buffers, 0, |buffers| - 1)
    {
      ghost var held := buffers;
      var i := |buffers|;
      while i > 0
        invariant 0 <= i <= |buffers| && Valid()
        invariant ReverseStage(Abs(), i) == ReverseStage(old(Abs()), |old(buffers)|)
      {
        i := i - 1;
        if buffers[i] != [] {
          Remove(i, Handed);
        }
      }
      d := CommUnitEffects.Handover(held, |held|);
      CommUnitEffects.ReverseStageExact(old(Abs()));
      CommUnitEffects.ReversedParts(held, buffers, d);
    }

    method Pass(t: Tick)
      requires Valid() && !stopped && !KeepsScanning(Abs(), t.ready)
      modifies this
      ensures Valid() && Abs() == Iterate(config, old(Abs()), t)
    {
      CommUnitProofs.ArriveKeepsTimes(Abs(), t.before);
      CommUnitProofs.PassDecision(config, Abs(), t);
      Produce(t.before);
      ghost var f := ServeTimeCritical();
      Produce(t.between);
      ghost var d := ServeInReverse();
      initTime := t.next;
      stopped := !t.again;
      uptime := t.restart;
      passes := passes + 1;
    }

    /** The routine over the ticks it observes. */
    method Routine(ticks: seq<Tick>)
      requires Valid()
      modifies this
      ensures Valid() && Abs() == Run(config, old(Abs()), ticks)
    {
      var k: nat := 0;
      while !stopped && k < |ticks|
        invariant k <= |ticks| && Valid()
        invariant Abs() == Run(config, old(Abs()), ticks[..k])
        decreases |ticks| - k
      {
        while k < |ticks| &&
              ((ticks[k].ready && uptime - initTime < MAX_STARVATION_TIME) || uptime < initTime)
          invariant k <= |ticks| && Valid() && !stopped
          invariant Abs() == Run(config, old(Abs()), ticks[..k])
          decreases |ticks| - k
        {
          CommUnitProofs.RunStep(config, old(Abs()), ticks, k);
          CommUnitProofs.ArriveKeepsTimes(Abs(), ticks[k].before);
          CommUnitProofs.NormalScanKeepsTimes(config, Arrive(Abs(), ticks[k].before), 0);
          Produce(ticks[k].before);
          ghost var f, d := Scan();
          uptime := ticks[k].next;
          k := k + 1;
        }
        if k < |ticks| {
          CommUnitProofs.RunStep(config, old(Abs()), ticks, k);
          Pass(ticks[k]);
          k := k + 1;
        }
      }
      CommUnitProofs.StoppedStays(config, old(Abs()), ticks, k);
    }
  }
}
