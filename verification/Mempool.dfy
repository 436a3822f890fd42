/** The fixed-slot allocator of import/Mempool.c on values: the blocks obtained from malloc, the chain
    of free slots in the order in which they will be handed out, and the slots in use. */
module MempoolSpec {
  import opened Common

  /** Number of times a pool may obtain a block. */
  const MAX_EXP_TIME: nat := 10

  /** Bytes of a pointer, and of the address space, on the 32-bit target. */
  const WORD := 4
  const SPACE := 0x1_0000_0000
  const HALF := 0x8000_0000

  datatype Pool = Pool(bases: seq<int>, size: int, slots: nat, chain: seq<int>, live: set<int>)

  /** The value of a C `int` that holds the low 32 bits of `x`. */
  function Signed32(x: int): (r: int)
    ensures -HALF <= r < HALF
  {
    var m := x % SPACE;
    if m < HALF then m else m - SPACE
  }

  /** C's remainder, which truncates toward zero. */
  function CRemainder(a: int, b: int): (r: int)
    requires b > 0
    ensures r == 0 <==> a % b == 0
  {
    if a >= 0 then a % b else
      var q := (-a) % b;
      RemainderOfNegative(-a, b);
      -q
  }

  lemma RemainderOfNegative(a: int, b: int)
    requires a >= 0 && b > 0
    ensures a % b == 0 <==> (-a) % b == 0
  {
    var q, r := a / b, a % b;
    var q', r' := (-a) / b, (-a) % b;
    var d := q + q';
    assert d * b == q * b + q' * b == -r - r';
  }

  /** Offset of `mem` in the block at `base`, computed on `int` casts of the two pointers. */
  function Offset(mem: int, base: int): int {
    Signed32(Signed32(mem) - Signed32(base))
  }

  function Bytes(p: Pool): int { p.size * p.slots }

  /** What malloc promises about the address of a block: it lies in the address space, is not NULL,
      is no larger than the largest object and overlaps no other block. */
  ghost predicate BlockOk(p: Pool, base: int) {
    && 0 < base && base + Bytes(p) <= SPACE
    && forall i :: 0 <= i < |p.bases| ==> Apart(base, p.bases[i], Bytes(p))
  }

  predicate Apart(a: int, b: int, bytes: int) { a + bytes <= b || b + bytes <= a }

  /** `a` is slot number `k` of the block at `base`. */
  predicate SlotOf(p: Pool, base: int, k: int, a: int) {
    0 <= k < p.slots && a == base + k * p.size
  }

  ghost predicate IsSlot(p: Pool, a: int) {
    exists i, k :: 0 <= i < |p.bases| && SlotOf(p, p.bases[i], k, a)
  }

  /** The address of slot `k` as the loop of `mp_expand` reaches it. */
  function Place(base: int, k: nat, size: int): int {
    if k == 0 then base else Place(base, k - 1, size) + size
  }

  /** The slots of a block in the order in which the expansion leaves them on the free list: each
      slot is linked in front of the one before it. */
  function BlockChain(base: int, size: int, n: nat): (c: seq<int>)
    ensures |c| == n
  {
    if n == 0 then [] else [Place(base, n - 1, size)] + BlockChain(base, size, n - 1)
  }

  function Expand(p: Pool, base: int): Pool {
    p.(bases := p.bases + [base], chain := BlockChain(base, p.size, p.slots) + p.chain)
  }

  /** `mp_alloc`; `malloc` is the address a needed expansion would obtain, None if it would fail. */
  function Alloc(p: Pool, malloc: Option<int>): (Pool, Option<int>)
    requires p.slots > 0
  {
    if p.chain == [] && (|p.bases| == MAX_EXP_TIME || malloc.None?) then (p, None)
    else
      var q := if p.chain == [] then Expand(p, malloc.value) else p;
      (q.(chain := q.chain[1..], live := q.live + {q.chain[0]}), Some(q.chain[0]))
  }

  /** The smallest positive offset of `mem` in any block, -1 if there is none. */
  function Closest(bases: seq<int>, mem: int): int {
    if bases == [] then -1
    else
      var c := Closest(bases[..|bases| - 1], mem);
      var d := Offset(mem, bases[|bases| - 1]);
      if d > 0 && (d < c || c == -1) then d else c
  }

  predicate Accepts(p: Pool, mem: int)
    requires p.size > 0
  {
    CRemainder(Closest(p.bases, mem), p.size) == 0
  }

  function Free(p: Pool, mem: int): Pool
    requires p.size > 0
  {
    if Accepts(p, mem) then p.(chain := [mem] + p.chain, live := p.live - {mem}) else p
  }

  /** What `mp_init` needs to be told for the pool to be usable: a slot holds a pointer, a block has
      a slot and is a possible object. */
  ghost predicate Sized(p: Pool) {
    p.size >= WORD && p.slots > 0 && Bytes(p) < HALF
  }

  ghost predicate Inv(p: Pool) {
    && Sized(p)
    && |p.bases| <= MAX_EXP_TIME
    && (forall i :: 0 <= i < |p.bases| ==> 0 < p.bases[i] && p.bases[i] + Bytes(p) <= SPACE)
    && (forall i, j :: 0 <= i < j < |p.bases| ==> Apart(p.bases[i], p.bases[j], Bytes(p)))
    && (forall i, j :: 0 <= i < j < |p.chain| ==> p.chain[i] != p.chain[j])
    && (forall i :: 0 <= i < |p.chain| ==> IsSlot(p, p.chain[i]) && p.chain[i] !in p.live)
    && (forall a :: a in p.live ==> IsSlot(p, a))
    && (forall a :: IsSlot(p, a) ==> a in p.chain || a in p.live)
    && |p.live| + |p.chain| == |p.bases| * p.slots
  }

  datatype Op = AllocOp(malloc: Option<int>) | FreeOp(mem: int)

  function Apply(p: Pool, op: Op): Pool
    requires p.slots > 0 && p.size > 0
  {
    match op
    case AllocOp(malloc) => Alloc(p, malloc).0
    case FreeOp(mem) => Free(p, mem)
  }

  /** The caller frees only slots it holds; malloc keeps its promise. */
  ghost predicate Legal(p: Pool, op: Op) {
    match op
    case AllocOp(malloc) => malloc.Some? ==> BlockOk(p, malloc.value)
    case FreeOp(mem) => mem in p.live
  }

  ghost predicate LegalRun(p: Pool, ops: seq<Op>)
    requires p.slots > 0 && p.size > 0
    decreases |ops|
  {
    ops == [] || (Legal(p, ops[0]) && LegalRun(Apply(p, ops[0]), ops[1..]))
  }

  function Run(p: Pool, ops: seq<Op>): (r: Pool)
    requires p.slots > 0 && p.size > 0
    ensures r.slots == p.slots && r.size == p.size
    decreases |ops|
  {
    if ops == [] then p else Run(Apply(p, ops[0]), ops[1..])
  }
}

module MempoolProofs {
  import opened Common
  import opened MempoolSpec

  lemma Distributes(a: int, b: int, size: int)
    ensures (a + b) * size == a * size + b * size
  {
  }

  lemma NotNegative(a: int, size: int)
    requires a >= 0 && size > 0
    ensures a * size >= 0
  {
  }

  lemma MulBounds(k: int, n: int, size: int)
    requires 0 <= k < n && size > 0
    ensures 0 <= k * size && k * size + size <= n * size
  {
    MulApart(k, n, size);
    NotNegative(k, size);
  }

  lemma MulApart(j: int, k: int, size: int)
    requires size > 0 && j < k
    ensures j * size + size <= k * size
  {
    Distributes(k - j - 1, j + 1, size);
    Distributes(j, 1, size);
    NotNegative(k - j - 1, size);
  }

  /** A slot lies within its block. */
  lemma SlotWithin(p: Pool, base: int, k: int, a: int)
    requires Sized(p) && SlotOf(p, base, k, a)
    ensures base <= a && a + p.size <= base + Bytes(p)
  {
    MulBounds(k, p.slots, p.size);
  }

  lemma SlotsOfBlockApart(p: Pool, base: int, k: int, l: int, a: int, b: int)
    requires Sized(p) && SlotOf(p, base, k, a) && SlotOf(p, base, l, b) && a != b
    ensures Apart(a, b, p.size)
  {
    if k < l { MulApart(k, l, p.size); } else if l < k { MulApart(l, k, p.size); }
  }

  /** Distinct slots do not overlap: their addresses are at least a slot apart. */
  lemma SlotsApart(p: Pool, a: int, b: int)
    requires Inv(p) && IsSlot(p, a) && IsSlot(p, b) && a != b
    ensures Apart(a, b, p.size)
  {
    var i, k :| 0 <= i < |p.bases| && SlotOf(p, p.bases[i], k, a);
    var j, l :| 0 <= j < |p.bases| && SlotOf(p, p.bases[j], l, b);
    if i == j {
      SlotsOfBlockApart(p, p.bases[i], k, l, a, b);
    } else {
      SlotWithin(p, p.bases[i], k, a);
      SlotWithin(p, p.bases[j], l, b);
      assert Apart(p.bases[if i < j then i else j], p.bases[if i < j then j else i], Bytes(p));
    }
  }

  lemma {:induction false} PlaceIs(base: int, k: nat, size: int)
    ensures Place(base, k, size) == base + k * size
  {
    if k > 0 {
      PlaceIs(base, k - 1, size);
      Distributes(k - 1, 1, size);
    }
  }

  lemma {:induction false} PlaceBelow(base: int, k: nat, n: nat, size: int)
    requires k <= n && size > 0
    ensures Place(base, k, size) <= Place(base, n, size) && (Place(base, k, size) < Place(base, n, size) <==> k < n)
    decreases n - k
  {
    if k < n {
      PlaceBelow(base, k, n - 1, size);
    }
  }

  lemma {:induction false} BlockChainAt(base: int, size: int, n: nat)
    ensures forall j :: 0 <= j < n ==> BlockChain(base, size, n)[j] == base + (n - 1 - j) * size
  {
    if n > 0 {
      BlockChainAt(base, size, n - 1);
      PlaceIs(base, n - 1, size);
    }
  }

  lemma BlockChainDistinct(p: Pool, base: int, i: nat, j: nat)
    requires Sized(p) && i < j < p.slots
    ensures BlockChain(base, p.size, p.slots)[i] != BlockChain(base, p.size, p.slots)[j]
  {
    BlockChainAt(base, p.size, p.slots);
    MulApart(p.slots - 1 - j, p.slots - 1 - i, p.size);
  }

  lemma BlockChainSlots(p: Pool, base: int)
    requires Sized(p)
    ensures var c := BlockChain(base, p.size, p.slots);
            && (forall i, j :: 0 <= i < j < |c| ==> c[i] != c[j])
            && (forall i :: 0 <= i < |c| ==> SlotOf(p, base, p.slots - 1 - i, c[i]))
            && (forall k, a :: SlotOf(p, base, k, a) ==> a in c)
  {
    var c := BlockChain(base, p.size, p.slots);
    BlockChainAt(base, p.size, p.slots);
    forall i: nat, j: nat | i < j < |c|
      ensures c[i] != c[j]
    {
      BlockChainDistinct(p, base, i, j);
    }
    forall k, a | SlotOf(p, base, k, a)
      ensures a in c
    {
      assert c[p.slots - 1 - k] == a;
    }
  }

  /** The slots of the new block are new: none of them is in an old block. */
  lemma NewBlockIsNew(p: Pool, base: int, k: int, a: int)
    requires Sized(p) && BlockOk(p, base) && SlotOf(p, base, k, a)
    requires forall i :: 0 <= i < |p.bases| ==> 0 < p.bases[i] && p.bases[i] + Bytes(p) <= SPACE
    ensures !IsSlot(p, a)
  {
    SlotWithin(p, base, k, a);
    forall i, l | 0 <= i < |p.bases| && SlotOf(p, p.bases[i], l, a)
      ensures false
    {
      SlotWithin(p, p.bases[i], l, a);
    }
  }

  lemma IsSlotExpand(p: Pool, base: int, a: int)
    ensures IsSlot(Expand(p, base), a) <==> IsSlot(p, a) || exists k :: SlotOf(p, base, k, a)
  {
    var q := Expand(p, base);
    if IsSlot(q, a) {
      var i, k :| 0 <= i < |q.bases| && SlotOf(q, q.bases[i], k, a);
      if i == |p.bases| {
        assert SlotOf(p, base, k, a);
      } else {
        assert SlotOf(p, p.bases[i], k, a);
      }
    }
    if IsSlot(p, a) {
      var i, k :| 0 <= i < |p.bases| && SlotOf(p, p.bases[i], k, a);
      assert SlotOf(q, q.bases[i], k, a);
    }
    if k :| SlotOf(p, base, k, a) {
      assert SlotOf(q, q.bases[|p.bases|], k, a);
    }
  }

  lemma ChainSlotIsNew(p: Pool, base: int, i: nat)
    requires Inv(p) && BlockOk(p, base) && i < p.slots
    ensures var a := BlockChain(base, p.size, p.slots)[i];
            IsSlot(Expand(p, base), a) && !IsSlot(p, a)
  {
    var a, k := BlockChain(base, p.size, p.slots)[i], p.slots - 1 - i;
    BlockChainAt(base, p.size, p.slots);
    assert SlotOf(p, base, k, a);
    NewBlockIsNew(p, base, k, a);
    IsSlotExpand(p, base, a);
  }

  lemma ExpandDistinct(p: Pool, base: int)
    requires Inv(p) && BlockOk(p, base)
    ensures var c := Expand(p, base).chain; forall i, j :: 0 <= i < j < |c| ==> c[i] != c[j]
  {
    var front, c := BlockChain(base, p.size, p.slots), Expand(p, base).chain;
    forall i: nat, j: nat | i < j < |c|
      ensures c[i] != c[j]
    {
      if j < |front| {
        assert c[i] == front[i] && c[j] == front[j];
        BlockChainDistinct(p, base, i, j);
      } else if i < |front| {
        ChainSlotIsNew(p, base, i);
        assert c[i] == front[i] && c[j] == p.chain[j - |front|] && IsSlot(p, c[j]);
        assert c[i] != c[j];
      } else {
        assert c[i] == p.chain[i - |front|] && c[j] == p.chain[j - |front|];
      }
    }
  }

  /** An expansion keeps the invariant. */
  lemma ExpandKeepsInv(p: Pool, base: int)
    requires Inv(p) && |p.bases| < MAX_EXP_TIME && BlockOk(p, base)
    ensures Inv(Expand(p, base))
  {
    var q, c := Expand(p, base), BlockChain(base, p.size, p.slots);
    BlockChainSlots(p, base);
    forall i: nat | i < |c|
      ensures IsSlot(q, c[i]) && !IsSlot(p, c[i])
    {
      ChainSlotIsNew(p, base, i);
    }
    forall a | IsSlot(p, a)
      ensures IsSlot(q, a)
    {
      IsSlotExpand(p, base, a);
    }
    forall a | IsSlot(q, a)
      ensures a in q.chain || a in q.live
    {
      IsSlotExpand(p, base, a);
    }
    ExpandDistinct(p, base);
    ExpandCounts(p, base);
  }

  lemma ExpandCounts(p: Pool, base: int)
    requires |p.live| + |p.chain| == |p.bases| * p.slots
    ensures var q := Expand(p, base); |q.live| + |q.chain| == |q.bases| * q.slots
  {
    assert (|p.bases| + 1) * p.slots == |p.bases| * p.slots + p.slots;
  }

  /** `mp_alloc` keeps the invariant, and a slot it returns was free. */
  lemma AllocKeepsInv(p: Pool, malloc: Option<int>)
    requires Inv(p) && (malloc.Some? ==> BlockOk(p, malloc.value))
    ensures var (r, a) := Alloc(p, malloc);
            && Inv(r)
            && (a.Some? ==> IsSlot(r, a.value) && a.value !in p.live && r.live == p.live + {a.value})
            && (a.None? ==> r == p)
  {
    if p.chain == [] && |p.bases| < MAX_EXP_TIME && malloc.Some? {
      ExpandKeepsInv(p, malloc.value);
      TakeKeepsInv(Expand(p, malloc.value));
    } else if p.chain != [] {
      TakeKeepsInv(p);
    }
  }

  lemma TakeKeepsInv(q: Pool)
    requires Inv(q) && q.chain != []
    ensures Inv(q.(chain := q.chain[1..], live := q.live + {q.chain[0]}))
  {
    var r := q.(chain := q.chain[1..], live := q.live + {q.chain[0]});
    assert forall a :: IsSlot(r, a) <==> IsSlot(q, a) by { SameSlots(q, r); }
    assert q.chain == [q.chain[0]] + r.chain;
  }

  lemma SameSlots(p: Pool, q: Pool)
    requires p.bases == q.bases && p.size == q.size && p.slots == q.slots
    ensures forall a :: IsSlot(p, a) <==> IsSlot(q, a)
  {
    forall a | IsSlot(p, a)
      ensures IsSlot(q, a)
    {
      var i, k :| 0 <= i < |p.bases| && SlotOf(p, p.bases[i], k, a);
      assert SlotOf(q, q.bases[i], k, a);
    }
    forall a | IsSlot(q, a)
      ensures IsSlot(p, a)
    {
      var i, k :| 0 <= i < |q.bases| && SlotOf(q, q.bases[i], k, a);
      assert SlotOf(p, p.bases[i], k, a);
    }
  }

  /** `mp_free` of a slot in use keeps the invariant, whether it accepts the slot or refuses it. */
  lemma FreeKeepsInv(p: Pool, mem: int)
    requires Inv(p) && mem in p.live
    ensures Inv(Free(p, mem))
  {
    var r := Free(p, mem);
    SameSlots(p, r);
    if Accepts(p, mem) {
      assert IsSlot(p, mem) && r.chain[1..] == p.chain;
    }
  }

  lemma StepKeepsInv(p: Pool, op: Op)
    requires Inv(p) && Legal(p, op)
    ensures Inv(Apply(p, op)) && p.bases <= Apply(p, op).bases
  {
    match op
    case AllocOp(malloc) => AllocKeepsInv(p, malloc);
    case FreeOp(mem) => FreeKeepsInv(p, mem);
  }

  /** The invariant over every run: the chain never holds a slot twice or a slot in use, no slot is
      lost, and the counters are exact. */
  lemma {:induction false} RunKeepsInv(p: Pool, ops: seq<Op>)
    requires Inv(p) && LegalRun(p, ops)
    ensures Inv(Run(p, ops))
    decreases |ops|
  {
    if ops != [] {
      StepKeepsInv(p, ops[0]);
      RunKeepsInv(Apply(p, ops[0]), ops[1..]);
    }
  }

  /** `mp_alloc` fails only when the pool can no longer expand: with malloc succeeding, exactly when
      every slot of all `MAX_EXP_TIME` blocks is in use. */
  lemma AllocFailsOnlyWhenExhausted(p: Pool, base: int)
    requires Inv(p)
    ensures Alloc(p, Some(base)).1 == None <==> |p.live| == 10 * p.slots
  {
    if |p.bases| < MAX_EXP_TIME {
      assert |p.bases| * p.slots <= (MAX_EXP_TIME - 1) * p.slots by {
        assert (MAX_EXP_TIME - 1 - |p.bases|) * p.slots >= 0;
      }
    }
  }

  /** `c` is the answer the search of `mp_free` should give. */
  ghost predicate IsClosest(bases: seq<int>, mem: int, c: int) {
    if c == -1 then forall i :: 0 <= i < |bases| ==> Offset(mem, bases[i]) <= 0
    else
      && (exists i :: 0 <= i < |bases| && Offset(mem, bases[i]) == c)
      && c > 0
      && (forall i :: 0 <= i < |bases| && Offset(mem, bases[i]) > 0 ==> c <= Offset(mem, bases[i]))
  }

  lemma {:induction false} ClosestIsClosest(bases: seq<int>, mem: int)
    ensures IsClosest(bases, mem, Closest(bases, mem))
  {
    if bases != [] {
      var n := |bases| - 1;
      ClosestIsClosest(bases[..n], mem);
      var c := Closest(bases[..n], mem);
      if c != -1 {
        var i :| 0 <= i < n && Offset(mem, bases[..n][i]) == c;
        assert Offset(mem, bases[i]) == c;
      }
      assert forall i :: 0 <= i < n ==> bases[..n][i] == bases[i];
    }
  }

  lemma SignedAddress(x: int)
    requires 0 <= x < SPACE
    ensures Signed32(x) == if x < HALF then x else x - SPACE
  {
  }

  lemma SignedDifference(d: int)
    requires -SPACE < d < SPACE
    ensures Signed32(d) == if d < -HALF then d + SPACE else if d >= HALF then d - SPACE else d
  {
    assert (d + SPACE) % SPACE == d % SPACE;
  }

  /** On addresses of the address space the offset is the true distance, up to the size of the
      address space. */
  lemma OffsetWraps(mem: int, base: int)
    requires 0 <= mem < SPACE && 0 <= base < SPACE
    ensures var d := mem - base;
            Offset(mem, base) == if d < -HALF then d + SPACE else if d >= HALF then d - SPACE else d
  {
    SignedAddress(mem);
    SignedAddress(base);
    SignedDifference(Signed32(mem) - Signed32(base));
  }

  /** Seen from a slot, the offset in its own block is its distance from the start of the block, and
      every positive offset in another block is at least a block. */
  lemma OffsetsOfSlot(p: Pool, i: int, k: int, a: int)
    requires Inv(p) && 0 <= i < |p.bases| && SlotOf(p, p.bases[i], k, a)
    ensures Offset(a, p.bases[i]) == k * p.size
    ensures forall j :: 0 <= j < |p.bases| && j != i && Offset(a, p.bases[j]) > 0 ==> Offset(a, p.bases[j]) >= Bytes(p)
  {
    MulBounds(k, p.slots, p.size);
    OffsetWraps(a, p.bases[i]);
    forall j | 0 <= j < |p.bases| && j != i && Offset(a, p.bases[j]) > 0
      ensures Offset(a, p.bases[j]) >= Bytes(p)
    {
      OffsetWraps(a, p.bases[j]);
      assert Apart(p.bases[i], p.bases[j], Bytes(p));
    }
  }

  /** `mp_free` finds the block of every slot that is not the first of its block, and accepts it,
      whatever the order of the blocks in memory. */
  lemma AcceptsInnerSlots(p: Pool, i: int, k: int, a: int)
    requires Inv(p) && 0 <= i < |p.bases| && SlotOf(p, p.bases[i], k, a) && k > 0
    ensures Closest(p.bases, a) == a - p.bases[i]
    ensures Accepts(p, a)
  {
    OffsetsOfSlot(p, i, k, a);
    ClosestIsClosest(p.bases, a);
    MulBounds(k, p.slots, p.size);
    assert Offset(a, p.bases[i]) == k * p.size > 0;
    assert (k * p.size) % p.size == 0 by { MultipleHasNoRemainder(k, p.size); }
  }

  lemma MultipleHasNoRemainder(k: int, size: int)
    requires size > 0
    ensures (k * size) % size == 0
  {
    var q, r := (k * size) / size, (k * size) % size;
    var d := k - q;
    assert d * size == k * size - q * size == r;
  }

  lemma MinusOneRefused(size: int)
    requires size > 1
    ensures (-1) % size != 0
  {
    assert (-1) / size * size + (-1) % size == -1;
  }

  /** The first slot of a block is accepted exactly when some block lies at a positive offset below
      it and the smallest such offset is a multiple of the slot size. */
  lemma AcceptsFirstSlots(p: Pool, i: int)
    requires Inv(p) && 0 <= i < |p.bases|
    ensures Accepts(p, p.bases[i]) <==>
            exists j :: 0 <= j < |p.bases| && IsClosest(p.bases, p.bases[i], Offset(p.bases[i], p.bases[j]))
                        && Offset(p.bases[i], p.bases[j]) % p.size == 0
  {
    var a := p.bases[i];
    ClosestIsClosest(p.bases, a);
    MinusOneRefused(p.size);
    var c := Closest(p.bases, a);
    assert Accepts(p, a) <==> c % p.size == 0;
    if c != -1 {
      var j :| 0 <= j < |p.bases| && Offset(a, p.bases[j]) == c;
      assert IsClosest(p.bases, a, Offset(a, p.bases[j]));
    }
    forall j | 0 <= j < |p.bases| && IsClosest(p.bases, a, Offset(a, p.bases[j])) && Offset(a, p.bases[j]) % p.size == 0
      ensures c == Offset(a, p.bases[j])
    {
    }
  }

  /** The slots whose free is refused in the course of a run. */
  ghost function Refused(p: Pool, ops: seq<Op>): set<int>
    requires p.slots > 0 && p.size > 0
    decreases |ops|
  {
    if ops == [] then {}
    else
      (if ops[0].FreeOp? && !Accepts(p, ops[0].mem) then {ops[0].mem} else {}) + Refused(Apply(p, ops[0]), ops[1..])
  }

  /** Every slot refused in a run is the first of a block. */
  lemma {:induction false} RefusedAreFirst(p: Pool, ops: seq<Op>)
    requires Inv(p) && LegalRun(p, ops)
    ensures p.bases <= Run(p, ops).bases
    ensures forall a :: a in Refused(p, ops) ==> a in Run(p, ops).bases
    decreases |ops|
  {
    if ops != [] {
      StepKeepsInv(p, ops[0]);
      RefusedAreFirst(Apply(p, ops[0]), ops[1..]);
      if ops[0].FreeOp? && !Accepts(p, ops[0].mem) {
        RefusedIsFirst(p, ops[0].mem);
      }
    }
  }

  lemma RefusedIsFirst(p: Pool, a: int)
    requires Inv(p) && IsSlot(p, a) && !Accepts(p, a)
    ensures a in p.bases
  {
    var i, k :| 0 <= i < |p.bases| && SlotOf(p, p.bases[i], k, a);
    if k > 0 {
      AcceptsInnerSlots(p, i, k, a);
    }
  }

  /** Over every run the slots lost to a refused free number at most the blocks obtained, hence at
      most `MAX_EXP_TIME`. */
  lemma FewSlotsRefused(p: Pool, ops: seq<Op>)
    requires Inv(p) && LegalRun(p, ops)
    ensures |Refused(p, ops)| <= |Run(p, ops).bases| <= 10
  {
    RefusedAreFirst(p, ops);
    RunKeepsInv(p, ops);
    SubsetOfSeq(Refused(p, ops), Run(p, ops).bases);
  }

  lemma {:induction false} SubsetOfSeq(s: set<int>, q: seq<int>)
    requires forall a :: a in s ==> a in q
    ensures |s| <= |q|
    decreases |q|
  {
    if q == [] {
      assert s == {} by {
        forall a | a in s ensures false {}
      }
    } else {
      SubsetOfSeq(s - {q[0]}, q[1..]);
      assert |s| <= |s - {q[0]}| + 1;
    }
  }

  /** The first slot of the only block is never accepted back. */
  lemma LowestFirstSlotRefused(p: Pool)
    requires Inv(p) && |p.bases| == 1
    ensures !Accepts(p, p.bases[0])
  {
    ClosestIsClosest(p.bases, p.bases[0]);
    assert SlotOf(p, p.bases[0], 0, p.bases[0]);
    OffsetsOfSlot(p, 0, 0, p.bases[0]);
    MinusOneRefused(p.size);
  }
}

/** The allocator itself.  A free slot holds in its first word the address of the next free slot, so
    the free list occupies no memory of its own. */
module Mempool {
  import opened Common
  import opened MempoolSpec
  import opened MempoolProofs

  const NULL := 0

  ghost predicate LinkAt(word: map<int, int>, chain: seq<int>, i: nat)
    requires i < |chain|
  {
    chain[i] in word && word[chain[i]] == if i + 1 < |chain| then chain[i + 1] else NULL
  }

  /** The links from `head` through the slots spell `chain`, which never revisits a slot, and end in
      NULL. */
  ghost predicate Linked(head: int, word: map<int, int>, chain: seq<int>) {
    && head == (if chain == [] then NULL else chain[0])
    && (forall i :: 0 <= i < |chain| ==> LinkAt(word, chain, i))
    && (forall i :: 0 <= i < |chain| ==> chain[i] != NULL)
    && (forall i, j :: 0 <= i < j < |chain| ==> chain[i] != chain[j])
  }

  lemma LinkFront(head: int, word: map<int, int>, chain: seq<int>, a: int)
    requires Linked(head, word, chain) && a !in chain && a != NULL
    ensures Linked(a, word[a := head], [a] + chain)
  {
    var c, w := [a] + chain, word[a := head];
    assert forall i :: 1 <= i < |c| ==> c[i] == chain[i - 1];
    forall i | 0 <= i < |c|
      ensures LinkAt(w, c, i)
    {
      if i > 0 { assert LinkAt(word, chain, i - 1); }
    }
  }

  lemma LinkElsewhere(head: int, word: map<int, int>, chain: seq<int>, a: int, value: int)
    requires Linked(head, word, chain) && a !in chain
    ensures Linked(head, word[a := value], chain)
  {
    var w := word[a := value];
    forall i | 0 <= i < |chain|
      ensures LinkAt(w, chain, i)
    {
      assert LinkAt(word, chain, i);
    }
  }

  lemma Unlink(head: int, word: map<int, int>, chain: seq<int>, value: int)
    requires Linked(head, word, chain) && chain != []
    ensures head in word && Linked(word[head], word[head := value], chain[1..])
  {
    assert LinkAt(word, chain, 0);
    var c, w := chain[1..], word[head := value];
    forall i | 0 <= i < |c|
      ensures LinkAt(w, c, i)
    {
      assert LinkAt(word, chain, i + 1);
    }
  }

  class MemoryPool {
    var head: int
    var memory: seq<int>
    var size: int
    var slots: nat
    var blocks: int
    var usedSlots: int
    /** The first word of each slot, by address. */
    var word: map<int, int>
    ghost var chain: seq<int>
    ghost var live: set<int>

    ghost function Abs(): Pool
      reads this
    {
      Pool(memory, size, slots, chain, live)
    }

    ghost predicate Valid()
      reads this
    {
      && Inv(Abs())
      && Linked(head, word, chain)
      && blocks == |chain|
      && usedSlots == |live|
    }

    /** `mp_init`: an empty pool is expanded once. */
    constructor (size: int, slots: nat, malloc: Option<int>)
      requires Sized(Pool([], size, slots, [], {}))
      requires malloc.Some? ==> BlockOk(Pool([], size, slots, [], {}), malloc.value)
      ensures Valid()
      ensures Abs() == if malloc.Some? then Expand(Pool([], size, slots, [], {}), malloc.value)
                       else Pool([], size, slots, [], {})
    {
      head := NULL;
      memory := [];
      this.size := size;
      this.slots := slots;
      blocks := 0;
      usedSlots := 0;
      word := map[];
      chain := [];
      live := {};
      new;
      assert forall a :: !IsSlot(Abs(), a);
      if malloc.Some? {
        ExpandPool(malloc.value);
      }
    }

    /** The free list once `k` slots of a new block are linked in front of that of `p`: its entries, or
        its links. */
    ghost predicate FrontSo(p: Pool, base: int, k: nat, links: bool)
      reads this
    {
      if links then Linked(head, word, chain) && blocks == |chain| && size == p.size
      else chain == BlockChain(base, p.size, k) + p.chain
    }

    ghost predicate Front(p: Pool, base: int, k: nat)
      reads this
    {
      forall links :: FrontSo(p, base, k, links)
    }

    lemma FrontParts(p: Pool, base: int, k: nat)
      ensures Front(p, base, k) <==>
                && Linked(head, word, chain) && blocks == |chain| && size == p.size
                && chain == BlockChain(base, p.size, k) + p.chain
    {
      assert Front(p, base, k) ==> FrontSo(p, base, k, true) && FrontSo(p, base, k, false);
    }

    /** The loop of `mp_expand`: every slot of the new block is linked in front of the free list. */
    method LinkSlots(base: int)
      requires size > 0 && Linked(head, word, chain) && blocks == |chain| && AllFresh(Abs(), base)
      modifies this`head, this`word, this`blocks, this`chain
      ensures chain == BlockChain(base, size, slots) + old(chain)
      ensures Linked(head, word, chain) && blocks == |chain|
    {
      ghost var p := Abs();
      FrontParts(p, base, 0);
      PlaceIs(base, slots, size);
      LinkLoop(base, base + size * slots, p);
      FrontParts(p, base, slots);
    }

    method LinkLoop(base: int, end: int, ghost p: Pool)
      requires size > 0 && slots == p.slots && end == Place(base, slots, size)
      requires Front(p, base, 0) && AllFresh(p, base)
      modifies this`head, this`word, this`blocks, this`chain
      ensures Front(p, base, slots)
    {
      var ite := base;
      ghost var k: nat := 0;
      while ite < end
        invariant k <= slots && ite == Place(base, k, size) && Front(p, base, k)
        decreases slots - k
      {
        PlaceBelow(base, k, slots, size);
        LinkOne(ite, base, k, p);
        ite := ite + size;
        k := k + 1;
      }
      PlaceBelow(base, k, slots, size);
    }

    method LinkOne(ite: int, ghost base: int, ghost k: nat, ghost p: Pool)
      requires ite == Place(base, k, size) && Front(p, base, k) && SlotFresh(p, base, k)
      modifies this`head, this`word, this`blocks, this`chain
      ensures Front(p, base, k + 1)
    {
      FrontParts(p, base, k);
      LinkFront(head, word, chain, ite);
      BlockChainNext(base, size, k, p.chain);
      var temp := head;
      head := ite;
      word := word[ite := temp];
      chain := [ite] + chain;
      blocks := blocks + 1;
      FrontParts(p, base, k + 1);
    }

    method ExpandPool(base: int)
      requires Valid() && |memory| < MAX_EXP_TIME && BlockOk(Abs(), base)
      modifies this
      ensures Valid() && Abs() == Expand(old(Abs()), base)
    {
      ExpandKeepsInv(Abs(), base);
      BlockIsFresh(Abs(), base);
      LinkSlots(base);
      memory := memory + [base];
    }

    /** A slot in use belongs to the caller, who may overwrite its first word. */
    method Write(mem: int, value: int)
      requires Valid() && mem in live
      modifies this`word
      ensures Valid() && Abs() == old(Abs())
    {
      LinkElsewhere(head, word, chain, mem, value);
      word := word[mem := value];
    }

    method Allocate(malloc: Option<int>) returns (mem: Option<int>)
      requires Valid() && (malloc.Some? ==> BlockOk(Abs(), malloc.value))
      modifies this
      ensures Valid() && (Abs(), mem) == Alloc(old(Abs()), malloc)
    {
      AllocKeepsInv(Abs(), malloc);
      if head == NULL {
        if |memory| == MAX_EXP_TIME || malloc.None? {
          return None;
        }
        ExpandPool(malloc.value);
      }
      mem := TakeHead();
    }

    /** The head of the free list, which is not empty, is handed out. */
    method TakeHead() returns (mem: Option<int>)
      requires Linked(head, word, chain) && blocks == |chain| && usedSlots == |live|
      requires chain != [] && chain[0] !in live
      modifies this`head, this`word, this`blocks, this`usedSlots, this`chain, this`live
      ensures Linked(head, word, chain) && blocks == |chain| && usedSlots == |live|
      ensures mem == Some(old(chain)[0]) && chain == old(chain)[1..] && live == old(live) + {old(chain)[0]}
    {
      Unlink(head, word, chain, 0);
      var temp := head;
      head := word[head];
      usedSlots := usedSlots + 1;
      blocks := blocks - 1;
      word := word[temp := 0];
      live := live + {temp};
      chain := chain[1..];
      mem := Some(temp);
    }

    /** The search of `mp_free` for the nearest block. */
    method FindClosest(mem: int) returns (closest: int)
      ensures closest == Closest(memory, mem)
    {
      closest := -1;
      var i := 0;
      while i < |memory|
        invariant i <= |memory| && closest == Closest(memory[..i], mem)
      {
        assert memory[..i + 1][..i] == memory[..i];
        var difference := Offset(mem, memory[i]);
        if difference > 0 && (difference < closest || closest == -1) {
          closest := difference;
        }
        i := i + 1;
      }
      assert memory[..i] == memory;
    }

    method Release(mem: int) returns (ok: bool)
      requires Valid() && mem in live
      modifies this
      ensures Valid() && Abs() == Free(old(Abs()), mem)
      ensures ok == Accepts(old(Abs()), mem)
    {
      FreeKeepsInv(Abs(), mem);
      var closest := FindClosest(mem);
      if CRemainder(closest, size) != 0 {
        return false;
      }
      SlotNotNull(Abs(), mem);
      PutFirst(mem);
      return true;
    }

    /** A slot in use becomes the head of the free list. */
    method PutFirst(mem: int)
      requires Linked(head, word, chain) && blocks == |chain| && usedSlots == |live|
      requires mem in live && mem !in chain && mem != NULL
      modifies this`head, this`word, this`blocks, this`usedSlots, this`chain, this`live
      ensures Linked(head, word, chain) && blocks == |chain| && usedSlots == |live|
      ensures chain == [mem] + old(chain) && live == old(live) - {mem}
    {
      LinkFront(head, word, chain, mem);
      var temp := head;
      head := mem;
      word := word[mem := temp];
      blocks := blocks + 1;
      usedSlots := usedSlots - 1;
      chain := [mem] + chain;
      live := live - {mem};
    }

    /** The share of the obtained slots that is in use; it reaches 1 exactly when the free list is
        empty. */
    method UsagePercentage() returns (share: real)
      requires Valid() && |memory| > 0
      ensures share * Obtained(Abs()) as real == |live| as real
      ensures 0.0 <= share <= 1.0
      ensures share == 1.0 <==> chain == []
    {
      ShareOfSlots(Abs());
      var total := |memory| * slots;
      share := usedSlots as real / total as real;
      ShareOfTotal(usedSlots as real, total as real, share);
    }
  }

  /** The number of slots obtained so far. */
  function Obtained(p: Pool): int { |p.bases| * p.slots }

  lemma ShareOfSlots(p: Pool)
    requires Inv(p) && |p.bases| > 0
    ensures Obtained(p) > 0 && |p.live| <= Obtained(p) && (|p.live| == Obtained(p) <==> p.chain == [])
  {
    MulPositive(|p.bases|, p.slots);
  }

  lemma MulPositive(a: int, b: int)
    requires a > 0 && b > 0
    ensures a * b > 0
  {
  }

  lemma BlockChainNext(base: int, size: int, k: nat, rest: seq<int>)
    ensures [Place(base, k, size)] + (BlockChain(base, size, k) + rest) == BlockChain(base, size, k + 1) + rest
  {
  }

  lemma SlotNotNull(p: Pool, a: int)
    requires Inv(p) && IsSlot(p, a)
    ensures a != NULL
  {
    var i, k :| 0 <= i < |p.bases| && SlotOf(p, p.bases[i], k, a);
    MulBounds(k, p.slots, p.size);
  }

  /** When slot `k` of a new block is linked it is on the free list neither from before nor as one of
      the slots already linked. */
  ghost predicate SlotFresh(p: Pool, base: int, k: nat) {
    Place(base, k, p.size) != NULL && Place(base, k, p.size) !in BlockChain(base, p.size, k) + p.chain
  }

  ghost predicate AllFresh(p: Pool, base: int) {
    forall k :: 0 <= k < p.slots ==> SlotFresh(p, base, k)
  }

  lemma BlockIsFresh(p: Pool, base: int)
    requires Inv(p) && BlockOk(p, base)
    ensures AllFresh(p, base)
  {
    forall k | 0 <= k < p.slots
      ensures SlotFresh(p, base, k)
    {
      var a := base + k * p.size;
      PlaceIs(base, k, p.size);
      NewBlockIsNew(p, base, k, a);
      MulBounds(k, p.slots, p.size);
      var c := BlockChain(base, p.size, k);
      BlockChainAt(base, p.size, k);
      forall j | 0 <= j < |c|
        ensures c[j] != a
      {
        MulApart(k - 1 - j, k, p.size);
      }
    }
  }

  lemma ShareOfTotal(used: real, total: real, share: real)
    requires 0.0 <= used <= total && total > 0.0 && share == used / total
    ensures 0.0 <= share <= 1.0 && share * total == used && (share == 1.0 <==> used == total)
  {
    assert share * total == used;
  }
}
