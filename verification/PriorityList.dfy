/** The levels of the priority list of import/BeDIS.c, and the order `sort_priority_list` is meant to
    leave. */
module PriorityLevels {
  import opened LinkedList

  datatype CommonConfig = CommonConfig(
    timeCriticalPriority: int,
    highPriority: int,
    normalPriority: int,
    lowPriority: int)

  /** What the scheduler reads of the buffer list an entry is embedded in. */
  datatype BufferListHead = BufferListHead(id: nat, priorityNice: int)

  /** A list entry is either embedded in a buffer list head or is a local head of the sort. */
  datatype Owner = LocalHead | OwnedBy(head: BufferListHead)

  type PriorityEntry = Entry<Owner>

  const CRITICAL: nat := 0
  const HIGH: nat := 1
  const NORMAL: nat := 2
  const LOW: nat := 3
  const UNMATCHED: nat := 4

  /** The bucket a nice value falls in; when two configured levels are equal the more urgent wins. */
  function Level(config: CommonConfig, nice: int): nat {
    if nice == config.timeCriticalPriority then CRITICAL
    else if nice == config.highPriority then HIGH
    else if nice == config.normalPriority then NORMAL
    else if nice == config.lowPriority then LOW
    else UNMATCHED
  }

  function EntryLevel(config: CommonConfig, e: PriorityEntry): nat {
    match e.owner
    case LocalHead => UNMATCHED
    case OwnedBy(head) => Level(config, head.priorityNice)
  }

  /** The entries of one level, in their original order. */
  function Bucket(config: CommonConfig, s: seq<PriorityEntry>, level: nat): seq<PriorityEntry> {
    if s == [] then []
    else
      var last := s[|s| - 1];
      var rest := Bucket(config, s[..|s| - 1], level);
      if EntryLevel(config, last) == level then rest + [last] else rest
  }

  lemma {:induction false} BucketMembers(config: CommonConfig, s: seq<PriorityEntry>, level: nat)
    ensures forall e <- Bucket(config, s, level) :: e in s && EntryLevel(config, e) == level
  {
    if s != [] {
      BucketMembers(config, s[..|s| - 1], level);
    }
  }

  /** The entries of the first `n` levels, level by level. */
  function Levels(config: CommonConfig, s: seq<PriorityEntry>, n: nat): (r: seq<PriorityEntry>)
    ensures forall j :: 0 <= j < |r| ==> r[j] in s
  {
    if n == 0 then []
    else
      BucketMembers(config, s, n - 1);
      Levels(config, s, n - 1) + Bucket(config, s, n - 1)
  }

  /** The list the sort is meant to leave: the four levels in order, each in its original order. */
  function Sorted(config: CommonConfig, s: seq<PriorityEntry>): seq<PriorityEntry> {
    Levels(config, s, 4)
  }
}

/** What the order left by the sort means to its readers. */
module PriorityOrder {
  import opened PriorityLevels

  lemma {:induction false} BucketConcat(config: CommonConfig, a: seq<PriorityEntry>, b: seq<PriorityEntry>, level: nat)
    ensures Bucket(config, a + b, level) == Bucket(config, a, level) + Bucket(config, b, level)
  {
    if b == [] {
      assert a + b == a;
    } else {
      assert (a + b)[..|a + b| - 1] == a + b[..|b| - 1];
      BucketConcat(config, a, b[..|b| - 1], level);
    }
  }

  lemma {:induction false} BucketOfUniform(config: CommonConfig, s: seq<PriorityEntry>, own: nat, level: nat)
    requires forall j :: 0 <= j < |s| ==> EntryLevel(config, s[j]) == own
    ensures Bucket(config, s, level) == if level == own then s else []
  {
    if s != [] {
      BucketOfUniform(config, s[..|s| - 1], own, level);
      assert s == s[..|s| - 1] + [s[|s| - 1]];
    }
  }

  /** The bucket of `t` is `b`; a proof looks into it only where it asks for it. */
  ghost predicate BucketIs(config: CommonConfig, t: seq<PriorityEntry>, level: nat, b: seq<PriorityEntry>) {
    forall asked :: BucketIsIf(config, t, level, b, asked)
  }

  ghost predicate BucketIsIf(config: CommonConfig, t: seq<PriorityEntry>, level: nat, b: seq<PriorityEntry>,
                             asked: bool)
  {
    asked ==> Bucket(config, t, level) == b
  }

  lemma BucketIsMeans(config: CommonConfig, t: seq<PriorityEntry>, level: nat, b: seq<PriorityEntry>)
    ensures BucketIs(config, t, level, b) <==> Bucket(config, t, level) == b
  {
    assert BucketIs(config, t, level, b) ==> BucketIsIf(config, t, level, b, true);
  }

  lemma {:induction false} BucketOfLevels(config: CommonConfig, s: seq<PriorityEntry>, n: nat, level: nat)
    ensures BucketIs(config, Levels(config, s, n), level, if level < n then Bucket(config, s, level) else [])
  {
    if n == 0 {
      BucketIsMeans(config, [], level, []);
    } else {
      BucketOfLevels(config, s, n - 1, level);
      LevelAdds(config, s, Levels(config, s, n - 1), n - 1, level);
    }
  }

  lemma EmptyEnds(s: seq<PriorityEntry>)
    ensures [] + s == s == s + []
  {
  }

  /** The entries of one more level follow. */
  lemma LevelAdds(config: CommonConfig, s: seq<PriorityEntry>, t: seq<PriorityEntry>, n: nat, level: nat)
    requires BucketIs(config, t, level, if level < n then Bucket(config, s, level) else [])
    ensures BucketIs(config, t + Bucket(config, s, n), level, if level <= n then Bucket(config, s, level) else [])
  {
    BucketIsMeans(config, t, level, if level < n then Bucket(config, s, level) else []);
    BucketIsMeans(config, t + Bucket(config, s, n), level, if level <= n then Bucket(config, s, level) else []);
    BucketConcat(config, t, Bucket(config, s, n), level);
    BucketOfBucket(config, s, n, level);
    EmptyEnds(Bucket(config, s, level));
    EmptyEnds([]);
  }

  lemma BucketOfBucket(config: CommonConfig, s: seq<PriorityEntry>, own: nat, level: nat)
    ensures Bucket(config, Bucket(config, s, own), level) == if level == own then Bucket(config, s, own) else []
  {
    BucketMembers(config, s, own);
    BucketOfUniform(config, Bucket(config, s, own), own, level);
  }

  /** The sort is stable: within each configured level the entries keep their order. */
  lemma SortIsStable(config: CommonConfig, s: seq<PriorityEntry>, level: nat)
    requires level < UNMATCHED
    ensures Bucket(config, Sorted(config, s), level) == Bucket(config, s, level)
  {
    BucketOfLevels(config, s, 4, level);
    BucketIsMeans(config, Sorted(config, s), level, Bucket(config, s, level));
  }

  ghost predicate InLevelOrder(config: CommonConfig, s: seq<PriorityEntry>) {
    forall i, j :: 0 <= i < j < |s| ==> EntryLevel(config, s[i]) <= EntryLevel(config, s[j])
  }

  lemma {:induction false} LevelsInOrder(config: CommonConfig, s: seq<PriorityEntry>, n: nat)
    ensures InLevelOrder(config, Levels(config, s, n))
    ensures forall j :: 0 <= j < |Levels(config, s, n)| ==> EntryLevel(config, Levels(config, s, n)[j]) < n
  {
    if n > 0 {
      var a, b := Levels(config, s, n - 1), Bucket(config, s, n - 1);
      LevelsInOrder(config, s, n - 1);
      BucketMembers(config, s, n - 1);
      assert Levels(config, s, n) == a + b;
      assert InLevelOrder(config, a + b);
    }
  }

  /** The occurrences of `e` in all five buckets. */
  function InBuckets(config: CommonConfig, s: seq<PriorityEntry>, e: PriorityEntry): nat {
    multiset(Bucket(config, s, CRITICAL))[e] + multiset(Bucket(config, s, HIGH))[e]
    + multiset(Bucket(config, s, NORMAL))[e] + multiset(Bucket(config, s, LOW))[e]
    + multiset(Bucket(config, s, UNMATCHED))[e]
  }

  lemma BucketCountNext(config: CommonConfig, s: seq<PriorityEntry>, e: PriorityEntry, level: nat)
    requires s != []
    ensures var last := s[|s| - 1];
            multiset(Bucket(config, s, level))[e] == multiset(Bucket(config, s[..|s| - 1], level))[e]
                                                     + if EntryLevel(config, last) == level && last == e then 1 else 0
  {
  }

  lemma {:induction false} BucketsCount(config: CommonConfig, s: seq<PriorityEntry>, e: PriorityEntry)
    ensures InBuckets(config, s, e) == multiset(s)[e]
  {
    if s != [] {
      BucketsCount(config, s[..|s| - 1], e);
      assert s == s[..|s| - 1] + [s[|s| - 1]];
      BucketCountNext(config, s, e, CRITICAL);
      BucketCountNext(config, s, e, HIGH);
      BucketCountNext(config, s, e, NORMAL);
      BucketCountNext(config, s, e, LOW);
      BucketCountNext(config, s, e, UNMATCHED);
    }
  }

  lemma BucketsPartition(config: CommonConfig, s: seq<PriorityEntry>)
    ensures multiset(Sorted(config, s)) + multiset(Bucket(config, s, UNMATCHED)) == multiset(s)
  {
    SortedIsFour(config, s);
    forall e: PriorityEntry | e in Sorted(config, s) + Bucket(config, s, UNMATCHED) + s
      ensures (multiset(Sorted(config, s)) + multiset(Bucket(config, s, UNMATCHED)))[e] == multiset(s)[e]
    {
      BucketsCount(config, s, e);
    }
  }

  lemma SortedIsFour(config: CommonConfig, s: seq<PriorityEntry>)
    ensures multiset(Sorted(config, s)) == multiset(Bucket(config, s, CRITICAL)) + multiset(Bucket(config, s, HIGH))
                                           + multiset(Bucket(config, s, NORMAL)) + multiset(Bucket(config, s, LOW))
  {
    assert Levels(config, s, 1) == Bucket(config, s, CRITICAL);
    assert Levels(config, s, 2) == Levels(config, s, 1) + Bucket(config, s, HIGH);
    assert Levels(config, s, 3) == Levels(config, s, 2) + Bucket(config, s, NORMAL);
    assert Levels(config, s, 4) == Levels(config, s, 3) + Bucket(config, s, LOW);
  }

  /** The sort keeps every entry exactly when each nice value is one of the four configured levels;
      the list is then an ordered permutation. */
  lemma SortIsPermutation(config: CommonConfig, s: seq<PriorityEntry>)
    ensures InLevelOrder(config, Sorted(config, s))
    ensures multiset(Sorted(config, s)) == multiset(s) <==> forall e <- s :: EntryLevel(config, e) != UNMATCHED
  {
    LevelsInOrder(config, s, 4);
    BucketsPartition(config, s);
    var dropped := Bucket(config, s, UNMATCHED);
    BucketMembers(config, s, UNMATCHED);
    if dropped == [] {
      forall e <- s ensures EntryLevel(config, e) != UNMATCHED {
        assert e in multiset(s);
        assert e in Sorted(config, s);
      }
    } else {
      assert dropped[0] in s && EntryLevel(config, dropped[0]) == UNMATCHED;
      assert |multiset(s)| == |multiset(Sorted(config, s))| + |dropped|;
    }
  }

  /** The time-critical entries are exactly a prefix of the sorted list, so a traversal that stops at
      the first entry with another nice value has visited all of them. */
  lemma CriticalPrefix(config: CommonConfig, s: seq<PriorityEntry>, i: nat)
    requires i < |Sorted(config, s)|
    requires Sorted(config, s)[i].owner.OwnedBy?
    ensures i < |Bucket(config, s, CRITICAL)|
       <==> Sorted(config, s)[i].owner.head.priorityNice == config.timeCriticalPriority
  {
    var c := Bucket(config, s, CRITICAL);
    BucketMembers(config, s, CRITICAL);
    BucketMembers(config, s, HIGH);
    BucketMembers(config, s, NORMAL);
    BucketMembers(config, s, LOW);
    assert Levels(config, s, 1) == c;
    var rest := Bucket(config, s, HIGH) + Bucket(config, s, NORMAL) + Bucket(config, s, LOW);
    assert Levels(config, s, 2) == c + Bucket(config, s, HIGH);
    assert Levels(config, s, 3) == Levels(config, s, 2) + Bucket(config, s, NORMAL);
    assert Sorted(config, s) == Levels(config, s, 3) + Bucket(config, s, LOW) == c + rest;
    if i >= |c| {
      assert Sorted(config, s)[i] == rest[i - |c|];
    }
  }

  // ----- In terms of the nice values

  /** The buffer list has this nice value. */
  predicate Has(e: PriorityEntry, nice: int) {
    e.owner.OwnedBy? && e.owner.head.priorityNice == nice
  }

  predicate Matched(config: CommonConfig, nice: int) {
    || nice == config.timeCriticalPriority || nice == config.highPriority
    || nice == config.normalPriority || nice == config.lowPriority
  }

  /** Critical lists come first, then those of high, normal and low priority. */
  ghost predicate InNiceOrder(config: CommonConfig, t: seq<PriorityEntry>) {
    forall i, j :: 0 <= i < j < |t| ==>
      && (Has(t[j], config.timeCriticalPriority) ==> Has(t[i], config.timeCriticalPriority))
      && (Has(t[j], config.highPriority) ==>
            Has(t[i], config.timeCriticalPriority) || Has(t[i], config.highPriority))
      && (Has(t[j], config.normalPriority) ==>
            || Has(t[i], config.timeCriticalPriority) || Has(t[i], config.highPriority)
            || Has(t[i], config.normalPriority))
  }

  /** The entries with a nice value, in order. */
  function WithNice(s: seq<PriorityEntry>, nice: int): (r: seq<PriorityEntry>)
    ensures forall e <- r :: e in s && Has(e, nice)
  {
    if s == [] then []
    else
      var rest := WithNice(s[..|s| - 1], nice);
      if Has(s[|s| - 1], nice) then rest + [s[|s| - 1]] else rest
  }

  /** `t` is in order, holds the entries of `s` whose nice value is one of the four configured ones, and
      entries of equal nice value are in the order of `s`. */
  ghost predicate SortedByNice(config: CommonConfig, s: seq<PriorityEntry>, t: seq<PriorityEntry>) {
    && InNiceOrder(config, t)
    && (forall e <- t :: e in s)
    && (forall e <- s :: e in t <==> e.owner.OwnedBy? && Matched(config, e.owner.head.priorityNice))
    && (forall nice :: WithNice(t, nice) == if Matched(config, nice) then WithNice(s, nice) else [])
  }

  lemma {:induction false} WithNiceInBucket(config: CommonConfig, s: seq<PriorityEntry>, nice: int)
    ensures WithNice(Bucket(config, s, Level(config, nice)), nice) == WithNice(s, nice)
  {
    if s != [] {
      var n, b := |s| - 1, Bucket(config, s, Level(config, nice));
      WithNiceInBucket(config, s[..n], nice);
      if EntryLevel(config, s[n]) == Level(config, nice) {
        assert b[..|b| - 1] == Bucket(config, s[..n], Level(config, nice));
      }
    }
  }

  lemma {:induction false} BucketHas(config: CommonConfig, s: seq<PriorityEntry>, e: PriorityEntry)
    requires e in s
    ensures e in Bucket(config, s, EntryLevel(config, e))
  {
    var n := |s| - 1;
    if s[n] != e {
      assert s == s[..n] + [s[n]];
      BucketHas(config, s[..n], e);
    }
  }

  lemma {:induction false} LevelsMembers(config: CommonConfig, s: seq<PriorityEntry>, n: nat, e: PriorityEntry)
    ensures e in Levels(config, s, n) <==> e in s && EntryLevel(config, e) < n
  {
    if n > 0 {
      LevelsMembers(config, s, n - 1, e);
      InBucket(config, s, n - 1, e);
      assert e in Levels(config, s, n) <==> e in Levels(config, s, n - 1) || e in Bucket(config, s, n - 1);
    }
  }

  lemma InBucket(config: CommonConfig, s: seq<PriorityEntry>, level: nat, e: PriorityEntry)
    ensures e in Bucket(config, s, level) <==> e in s && EntryLevel(config, e) == level
  {
    BucketMembers(config, s, level);
    if e in s { BucketHas(config, s, e); }
  }

  lemma NiceOrder(config: CommonConfig, s: seq<PriorityEntry>)
    ensures InNiceOrder(config, Sorted(config, s))
  {
    var t := Sorted(config, s);
    LevelsInOrder(config, s, 4);
    forall i, j | 0 <= i < j < |t|
      ensures EntryLevel(config, t[i]) <= EntryLevel(config, t[j]) < 4
    {
    }
  }

  lemma NiceKept(config: CommonConfig, s: seq<PriorityEntry>, nice: int)
    ensures WithNice(Sorted(config, s), nice) == if Matched(config, nice) then WithNice(s, nice) else []
  {
    var t, r := Sorted(config, s), WithNice(Sorted(config, s), nice);
    if Matched(config, nice) {
      SortIsStable(config, s, Level(config, nice));
      WithNiceInBucket(config, s, nice);
      WithNiceInBucket(config, t, nice);
    } else if r != [] {
      LevelsMembers(config, s, 4, r[0]);
      assert false;
    }
  }

  /** What the sort leaves, in terms of the nice values and the four configured ones. */
  lemma SortSortsByNice(config: CommonConfig, s: seq<PriorityEntry>)
    ensures SortedByNice(config, s, Sorted(config, s))
  {
    NiceOrder(config, s);
    forall e <- s
      ensures e in Sorted(config, s) <==> e.owner.OwnedBy? && Matched(config, e.owner.head.priorityNice)
    {
      LevelsMembers(config, s, 4, e);
    }
    forall nice
      ensures WithNice(Sorted(config, s), nice) == if Matched(config, nice) then WithNice(s, nice) else []
    {
      NiceKept(config, s, nice);
    }
  }

  /** The entries of a level: those with its configured value and with that of no more urgent level. */
  predicate InClass(config: CommonConfig, e: PriorityEntry, level: nat) {
    var critical, high := Has(e, config.timeCriticalPriority), Has(e, config.highPriority);
    var normal, low := Has(e, config.normalPriority), Has(e, config.lowPriority);
    if level == CRITICAL then critical
    else if level == HIGH then high && !critical
    else if level == NORMAL then normal && !high && !critical
    else if level == LOW then low && !normal && !high && !critical
    else !low && !normal && !high && !critical
  }

  ghost predicate ByClass(config: CommonConfig, s: seq<PriorityEntry>) {
    forall level: nat | level <= UNMATCHED ::
      && (forall e <- Bucket(config, s, level) :: e in s)
      && (forall e <- s :: e in Bucket(config, s, level) <==> InClass(config, e, level))
  }

  lemma BucketsByClass(config: CommonConfig, s: seq<PriorityEntry>)
    ensures ByClass(config, s)
  {
    forall level: nat | level <= UNMATCHED
      ensures forall e <- Bucket(config, s, level) :: e in s
      ensures forall e <- s :: e in Bucket(config, s, level) <==> InClass(config, e, level)
    {
      BucketMembers(config, s, level);
      forall e <- s
        ensures e in Bucket(config, s, level) <==> InClass(config, e, level)
      {
        BucketHas(config, s, e);
        assert EntryLevel(config, e) == level <==> InClass(config, e, level);
      }
    }
  }

  /** The nice values in list order. */
  function NiceValues(s: seq<PriorityEntry>): (r: seq<int>)
    requires forall j :: 0 <= j < |s| ==> s[j].owner.OwnedBy?
    ensures |r| == |s| && forall j :: 0 <= j < |r| ==> r[j] == s[j].owner.head.priorityNice
  {
    seq(|s|, j requires 0 <= j < |s| => s[j].owner.head.priorityNice)
  }
}

/** `sort_priority_list` of import/BeDIS.c: a stable bucket sort carried out on the links of the
    priority list itself. */
module PriorityList {
  import opened LinkedList
  import opened PriorityLevels
  import opened PriorityOrder

  /** The four local rings and the ring being emptied, all well formed and pairwise disjoint. */
  ghost predicate Rings(rs: seq<seq<PriorityEntry>>)
    reads set i, j | 0 <= i < |rs| && 0 <= j < |rs[i]| :: rs[i][j]
  {
    && (forall i :: 0 <= i < |rs| ==> Ring(rs[i]))
    && Apart(rs)
  }

  ghost predicate Apart(rs: seq<seq<PriorityEntry>>) {
    forall i, j :: 0 <= i < j < |rs| ==> Disjoint(rs[i], rs[j])
  }

  /** One ring for each entry, holding nothing else. */
  ghost function Singles(s: seq<PriorityEntry>): (r: seq<seq<PriorityEntry>>)
    ensures |r| == |s| && forall i :: 0 <= i < |r| ==> r[i] == [s[i]]
  {
    seq(|s|, i requires 0 <= i < |s| => [s[i]])
  }

  /** The rings at the end of the loop of the sort once the entries `done` have been distributed and
      the entries `rest` have not. */
  ghost function Stage(config: CommonConfig, heads: seq<PriorityEntry>, done: seq<PriorityEntry>,
                       rest: seq<PriorityEntry>): seq<seq<PriorityEntry>>
    requires |heads| == 5
  {
    [[heads[0]] + rest,
     [heads[1]] + Bucket(config, done, CRITICAL),
     [heads[2]] + Bucket(config, done, HIGH),
     [heads[3]] + Bucket(config, done, NORMAL),
     [heads[4]] + Bucket(config, done, LOW)] + Singles(Bucket(config, done, UNMATCHED))
  }

  lemma StageStep(config: CommonConfig, heads: seq<PriorityEntry>, done: seq<PriorityEntry>, rest: seq<PriorityEntry>)
    requires |heads| == 5 && rest != []
    ensures var rs := Stage(config, heads, done, rest);
            var l := EntryLevel(config, rest[0]);
            Stage(config, heads, done + [rest[0]], rest[1..])
            == if l == UNMATCHED then rs[0 := [rs[0][0]] + rs[0][2..]] + [[rest[0]]]
               else rs[0 := [rs[0][0]] + rs[0][2..]][1 + l := rs[1 + l] + [rest[0]]]
  {
    var done' := done + [rest[0]];
    assert done'[..|done|] == done;
    var rs, rs' := Stage(config, heads, done, rest), Stage(config, heads, done', rest[1..]);
    var l := EntryLevel(config, rest[0]);
    assert rs[0][2..] == rest[1..];
    if l == UNMATCHED {
      assert rs' == rs[0 := [heads[0]] + rest[1..]] + [[rest[0]]];
    } else {
      assert [heads[1 + l]] + Bucket(config, done', l) == rs[1 + l] + [rest[0]];
      assert rs' == rs[0 := [heads[0]] + rest[1..]][1 + l := rs[1 + l] + [rest[0]]];
    }
  }

  lemma StageMembers(config: CommonConfig, heads: seq<PriorityEntry>, done: seq<PriorityEntry>,
                     rest: seq<PriorityEntry>)
    requires |heads| == 5
    ensures var rs := Stage(config, heads, done, rest);
            forall i, j :: 0 <= i < 5 && 0 <= j < |rs[i]| ==>
              rs[i][j] in heads || rs[i][j] in done || rs[i][j] in rest
  {
    BucketMembers(config, done, CRITICAL);
    BucketMembers(config, done, HIGH);
    BucketMembers(config, done, NORMAL);
    BucketMembers(config, done, LOW);
  }

  lemma FirstOfStage(config: CommonConfig, heads: seq<PriorityEntry>, done: seq<PriorityEntry>,
                     rest: seq<PriorityEntry>)
    requires |heads| == 5 && Rings(Stage(config, heads, done, rest))
    ensures heads[0].next == if rest == [] then heads[0] else rest[0]
    ensures rest != [] ==> rest[0] != heads[0] && rest[0].next == if |rest| == 1 then heads[0] else rest[1]
  {
    var r := [heads[0]] + rest;
    assert r == Stage(config, heads, done, rest)[0];
    assert Ring(r);
    if rest != [] {
      assert r[1] == rest[0] && r[0] != r[1];
      if |rest| > 1 { assert r[2] == rest[1] && r[1].next == r[2]; }
    }
  }

  /** Moves `e`, the first entry of the priority list `rs[0]`, to the tail of local list `rs[b]`. */
  method MoveFirst(e: PriorityEntry, bucketHead: PriorityEntry, ghost b: nat,
                   ghost rs: seq<seq<PriorityEntry>>, ghost rs': seq<seq<PriorityEntry>>)
    requires 1 <= b < 5 <= |rs| && Rings(rs)
    requires |rs[0]| > 1 && rs[0][1] == e && rs[b][0] == bucketHead
    requires rs' == rs[0 := [rs[0][0]] + rs[0][2..]][b := rs[b] + [e]]
    modifies rs[0], rs[b]
    ensures Rings(rs')
  {
    assert Disjoint(rs[0], rs[b]);
    assert rs[0][..1] + rs[0][2..] == [rs[0][0]] + rs[0][2..];
    MovedApart(e, b, rs, rs');
    RemoveListNode(e, rs[0], 1);
    InsertListTail(e, bucketHead, rs[b]);
  }

  lemma MovedApart(e: PriorityEntry, b: nat, rs: seq<seq<PriorityEntry>>, rs': seq<seq<PriorityEntry>>)
    requires 1 <= b < 5 <= |rs| && Apart(rs)
    requires |rs[0]| > 1 && rs[0][1] == e && forall i :: 2 <= i < |rs[0]| ==> rs[0][i] != e
    requires rs[0][0] != e && rs' == rs[0 := [rs[0][0]] + rs[0][2..]][b := rs[b] + [e]]
    ensures Apart(rs')
  {
    forall i, j | 0 <= i < j < |rs'|
      ensures Disjoint(rs'[i], rs'[j])
    {
      assert Disjoint(rs[i], rs[j]);
      if i == b { assert Disjoint(rs[0], rs[j]); }
      if j == b && i > 0 { assert Disjoint(rs[0], rs[i]); }
    }
  }

  /** Unlinks `e`, whose nice value matches no level; it is left on no list. */
  method DropFirst(e: PriorityEntry, ghost rs: seq<seq<PriorityEntry>>, ghost rs': seq<seq<PriorityEntry>>)
    requires 5 <= |rs| && Rings(rs)
    requires |rs[0]| > 1 && rs[0][1] == e
    requires rs' == rs[0 := [rs[0][0]] + rs[0][2..]] + [[e]]
    modifies rs[0]
    ensures Rings(rs')
  {
    RemoveListNode(e, rs[0], 1);
    assert rs[0][..1] + rs[0][2..] == [rs[0][0]] + rs[0][2..];
  }

  /** Removes the local head of a non-empty list, which leaves its entries as a ring without a head. */
  method RemoveHead(bucketHead: PriorityEntry, ghost b: seq<PriorityEntry>) returns (first: PriorityEntry)
    requires Ring(b) && b[0] == bucketHead && |b| > 1
    modifies b
    ensures Ring(b[1..]) && first == b[1]
  {
    first := bucketHead.next;
    assert first == b[1];
    RemoveListNode(first.prev, b, 0);
  }

  /** Appends the entries of a local list, without its head, to the priority list. */
  method Splice(head: PriorityEntry, bucketHead: PriorityEntry,
                ghost s: seq<PriorityEntry>, ghost b: seq<PriorityEntry>)
    requires Ring(s) && s[0] == head
    requires Ring(b) && b[0] == bucketHead
    requires Disjoint(s, b)
    modifies s, b
    ensures Ring(s + b[1..])
  {
    var empty := IsEntryListEmpty(bucketHead, b);
    if !empty {
      var first := RemoveHead(bucketHead, b);
      ConcatList(head, first, s, b[1..]);
    } else {
      assert s + b[1..] == s;
    }
  }

  lemma ApartSpliced(rs: seq<seq<PriorityEntry>>)
    requires |rs| >= 2 && Apart(rs) && |rs[1]| > 0
    ensures Apart([rs[0] + rs[1][1..]] + rs[2..])
  {
    var rs' := [rs[0] + rs[1][1..]] + rs[2..];
    forall i, j | 0 <= i < j < |rs'|
      ensures Disjoint(rs'[i], rs'[j])
    {
      assert rs'[j] == rs[j + 1];
      if i == 0 {
        assert Disjoint(rs[0], rs[j + 1]) && Disjoint(rs[1], rs[j + 1]);
      } else {
        assert Disjoint(rs[i + 1], rs[j + 1]);
      }
    }
  }

  method SpliceNext(head: PriorityEntry, bucketHead: PriorityEntry, ghost rs: seq<seq<PriorityEntry>>)
    returns (ghost rs': seq<seq<PriorityEntry>>)
    requires |rs| >= 2 && Rings(rs)
    requires rs[0][0] == head && rs[1][0] == bucketHead
    modifies rs[0], rs[1]
    ensures rs' == [rs[0] + rs[1][1..]] + rs[2..] && Rings(rs')
  {
    assert Disjoint(rs[0], rs[1]);
    assert forall i :: 2 <= i < |rs| ==> Disjoint(rs[0], rs[i]) && Disjoint(rs[1], rs[i]);
    Splice(head, bucketHead, rs[0], rs[1]);
    rs' := [rs[0] + rs[1][1..]] + rs[2..];
    ApartSpliced(rs);
    assert forall i :: 2 <= i < |rs| ==> Ring(rs[i]);
  }

  /** The entry goes to the tail of the local list of level `l`, its own. */
  method Move(config: CommonConfig, e: PriorityEntry, heads: seq<PriorityEntry>, ghost l: nat,
              bucketHead: PriorityEntry,
              ghost done: seq<PriorityEntry>, ghost rest: seq<PriorityEntry>)
    requires |heads| == 5 && rest != [] && rest[0] == e
    requires l == EntryLevel(config, e) < UNMATCHED && bucketHead == heads[1 + l]
    requires Rings(Stage(config, heads, done, rest))
    modifies heads, rest, done
    ensures Rings(Stage(config, heads, done + [e], rest[1..]))
  {
    ghost var rs := Stage(config, heads, done, rest);
    StageStep(config, heads, done, rest);
    StageMembers(config, heads, done, rest);
    assert rs[0][1] == e;
    MoveFirst(e, bucketHead, 1 + l, rs, Stage(config, heads, done + [e], rest[1..]));
  }

  method Drop(config: CommonConfig, e: PriorityEntry, heads: seq<PriorityEntry>,
              ghost done: seq<PriorityEntry>, ghost rest: seq<PriorityEntry>)
    requires |heads| == 5 && rest != [] && rest[0] == e && EntryLevel(config, e) == UNMATCHED
    requires Rings(Stage(config, heads, done, rest))
    modifies heads, rest, done
    ensures Rings(Stage(config, heads, done + [e], rest[1..]))
  {
    ghost var rs := Stage(config, heads, done, rest);
    StageStep(config, heads, done, rest);
    StageMembers(config, heads, done, rest);
    assert rs[0][1] == e;
    DropFirst(e, rs, Stage(config, heads, done + [e], rest[1..]));
  }

  /** One iteration of the sort: the entry goes to the tail of the local list of its level. */
  method Place(config: CommonConfig, e: PriorityEntry, heads: seq<PriorityEntry>,
               ghost done: seq<PriorityEntry>, ghost rest: seq<PriorityEntry>)
    requires |heads| == 5 && rest != [] && rest[0] == e
    requires Rings(Stage(config, heads, done, rest))
    modifies heads, rest, done
    ensures Rings(Stage(config, heads, done + [e], rest[1..]))
  {
    var level := EntryLevel(config, e);
    if level == CRITICAL {
      Move(config, e, heads, CRITICAL, heads[1], done, rest);
    } else if level == HIGH {
      Move(config, e, heads, HIGH, heads[2], done, rest);
    } else if level == NORMAL {
      Move(config, e, heads, NORMAL, heads[3], done, rest);
    } else if level == LOW {
      Move(config, e, heads, LOW, heads[4], done, rest);
    } else {
      Drop(config, e, heads, done, rest);
    }
  }

  /** The loop of the sort. */
  method Distribute(config: CommonConfig, heads: seq<PriorityEntry>, ghost s: seq<PriorityEntry>)
    requires |heads| == 5 && Rings(Stage(config, heads, [], s))
    modifies heads, s
    ensures Rings(Stage(config, heads, s, [])) && ByClass(config, s)
  {
    ghost var k := 0;
    assert s[..0] == [] && s[0..] == s;
    FirstOfStage(config, heads, [], s);
    var pointer := heads[0].next;
    var nextPointer := pointer.next;
    while pointer != heads[0]
      invariant k <= |s|
      invariant Rings(Stage(config, heads, s[..k], s[k..]))
      invariant if k < |s| then pointer == s[k] != heads[0] else pointer == heads[0]
      invariant pointer != heads[0] ==> k < |s| && nextPointer == pointer.next
      decreases |s| - k
    {
      FirstOfStage(config, heads, s[..k], s[k..]);
      assert s[k..][1..] == s[k + 1..] && s[..k] + [s[k]] == s[..k + 1];
      Place(config, pointer, heads, s[..k], s[k..]);
      k := k + 1;
      FirstOfStage(config, heads, s[..k], s[k..]);
      pointer := nextPointer;
      nextPointer := pointer.next;
    }
    assert s[..k] == s && s[k..] == [];
    BucketsByClass(config, s);
  }

  /** The rings once the first `n` local lists have been spliced onto the priority list. */
  ghost function Merged(config: CommonConfig, heads: seq<PriorityEntry>, s: seq<PriorityEntry>,
                        n: nat): seq<seq<PriorityEntry>>
    requires |heads| == 5 && n <= 4
  {
    [[heads[0]] + Levels(config, s, n)]
    + seq(4 - n, i requires 0 <= i < 4 - n => [heads[1 + n + i]] + Bucket(config, s, n + i))
    + Singles(Bucket(config, s, UNMATCHED))
  }

  lemma MergedStep(config: CommonConfig, heads: seq<PriorityEntry>, s: seq<PriorityEntry>, n: nat)
    requires |heads| == 5 && n < 4
    ensures var rs := Merged(config, heads, s, n);
            [rs[0] + rs[1][1..]] + rs[2..] == Merged(config, heads, s, n + 1)
  {
    var rs, rs' := Merged(config, heads, s, n), Merged(config, heads, s, n + 1);
    assert rs[1][1..] == Bucket(config, s, n);
    assert rs[0] + rs[1][1..] == rs'[0];
    assert |rs'| == |rs| - 1;
    forall i | 1 <= i < |rs'|
      ensures rs'[i] == rs[i + 1]
    {
    }
  }

  lemma StageIsMerged(config: CommonConfig, heads: seq<PriorityEntry>, s: seq<PriorityEntry>)
    requires |heads| == 5
    ensures Stage(config, heads, s, []) == Merged(config, heads, s, 0)
  {
    var rs, rs' := Stage(config, heads, s, []), Merged(config, heads, s, 0);
    assert |rs| == |rs'| && rs[0] == rs'[0];
  }

  method SpliceLevel(config: CommonConfig, heads: seq<PriorityEntry>, n: nat, ghost s: seq<PriorityEntry>)
    requires |heads| == 5 && n < 4 && Rings(Merged(config, heads, s, n))
    modifies heads, s
    ensures Rings(Merged(config, heads, s, n + 1))
  {
    ghost var rs := Merged(config, heads, s, n);
    BucketMembers(config, s, n);
    assert rs[1] == [heads[1 + n]] + Bucket(config, s, n);
    assert forall j :: 0 <= j < |rs[1]| ==> rs[1][j] in heads + s;
    ghost var rs' := SpliceNext(heads[0], heads[1 + n], rs);
    MergedStep(config, heads, s, n);
  }

  lemma MergedIsFinal(config: CommonConfig, heads: seq<PriorityEntry>, s: seq<PriorityEntry>)
    requires |heads| == 5
    ensures Merged(config, heads, s, 4) == [[heads[0]] + Sorted(config, s)] + Singles(Bucket(config, s, UNMATCHED))
  {
  }

  /** The four splices that rebuild the priority list. */
  method Rebuild(config: CommonConfig, heads: seq<PriorityEntry>, ghost s: seq<PriorityEntry>)
    requires |heads| == 5 && Rings(Merged(config, heads, s, 0))
    modifies heads, s
    ensures Rings([[heads[0]] + Sorted(config, s)] + Singles(Bucket(config, s, UNMATCHED)))
  {
    SpliceLevel(config, heads, CRITICAL, s);
    SpliceLevel(config, heads, HIGH, s);
    SpliceLevel(config, heads, NORMAL, s);
    SpliceLevel(config, heads, LOW, s);
    MergedIsFinal(config, heads, s);
  }

  /** The initial stage, with four fresh local heads, is well formed. */
  lemma StageAtStart(config: CommonConfig, heads: seq<PriorityEntry>, s: seq<PriorityEntry>)
    requires |heads| == 5 && Ring([heads[0]] + s)
    requires forall i :: 1 <= i < 5 ==> Ring([heads[i]]) && heads[i] !in [heads[0]] + s
    requires forall i, j :: 0 <= i < j < 5 ==> heads[i] != heads[j]
    ensures Rings(Stage(config, heads, [], s))
  {
    var rs := Stage(config, heads, [], s);
    assert |rs| == 5 && rs[0] == [heads[0]] + s;
    assert forall i :: 1 <= i < 5 ==> rs[i] == [heads[i]];
  }

  /** After the sort the priority list is the ring of its matched entries in stable order of priority,
      and every other entry has been left isolated. */
  method SortPriorityList(config: CommonConfig, listHead: PriorityEntry, ghost s: seq<PriorityEntry>)
    requires Ring([listHead] + s)
    modifies listHead, s
    ensures Rings([[listHead] + Sorted(config, s)] + Singles(Bucket(config, s, UNMATCHED)))
    ensures SortedByNice(config, s, Sorted(config, s))
  {
    var critical := new Entry(LocalHead);
    var high := new Entry(LocalHead);
    var normal := new Entry(LocalHead);
    var low := new Entry(LocalHead);
    var heads := [listHead, critical, high, normal, low];
    StageAtStart(config, heads, s);
    Distribute(config, heads, s);
    StageIsMerged(config, heads, s);
    Rebuild(config, heads, s);
    SortSortsByNice(config, s);
  }
}
