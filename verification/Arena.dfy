/**
 The generational slab of crates/cv_arena/src/lib.rs: slots in one array, a free list
 threaded through the vacant ones, and a generation stamp per slot that is bumped on every
 removal until it can be bumped no more, at which point the slot is retired.
 */
module Arena {
  import opened Common

  const U32_MAX: nat := 0xFFFF_FFFF

  datatype Handle = Handle(index: nat, generation: nat)

  predicate IsHandle(h: Handle) { h.index <= U32_MAX && 1 <= h.generation <= U32_MAX }

  // ----- Packing a handle into 64 bits -----

  function ToBits(h: Handle): nat { h.index * 0x1_0000_0000 + h.generation }

  function FromBits(bits: nat): Option<Handle> {
    var generation := bits % 0x1_0000_0000;
    if generation == 0 then None else Some(Handle(bits / 0x1_0000_0000, generation))
  }

  /** Unpacking inverts packing, and zero is never produced. */
  lemma PackThenUnpack(h: Handle)
    requires IsHandle(h)
    ensures 0 < ToBits(h) <= 0xFFFF_FFFF_FFFF_FFFF && FromBits(ToBits(h)) == Some(h)
    ensures ToBits(h) / 0x1_0000_0000 == h.index && ToBits(h) % 0x1_0000_0000 == h.generation
  {
    assert ToBits(h) / 0x1_0000_0000 == h.index && ToBits(h) % 0x1_0000_0000 == h.generation;
  }

  /** A 64-bit word unpacks exactly when it is the packing of a handle. */
  lemma UnpackThenPack(bits: nat)
    requires bits <= 0xFFFF_FFFF_FFFF_FFFF
    ensures FromBits(bits).Some? ==> IsHandle(FromBits(bits).value) && ToBits(FromBits(bits).value) == bits
    ensures FromBits(bits).None? ==> forall h :: IsHandle(h) ==> ToBits(h) != bits
  {
    if FromBits(bits).None? {
      forall h | IsHandle(h) ensures ToBits(h) != bits {
        PackThenUnpack(h);
      }
    }
  }

  // ----- Slots -----

  datatype Slot<+T> =
    | Occupied(generation: nat, value: T)
    | Vacant(generation: nat, nextFree: Option<nat>)

  datatype Slots<+T> = Slots(slots: seq<Slot<T>>, freeHead: Option<nat>, len: nat)

  function Empty<T>(): Slots<T> { Slots([], None, 0) }

  /** The free list does not lead to an occupied slot: the `unreachable!` of `insert`. */
  predicate HeadIsVacant<T>(s: Slots<T>) {
    s.freeHead.Some? ==> s.freeHead.value < |s.slots| && s.slots[s.freeHead.value].Vacant?
  }

  /** No handle is returned when the slab would exceed 2^32 slots and the source panics. */
  function Insert<T>(s: Slots<T>, value: T): (Slots<T>, Option<Handle>)
    requires HeadIsVacant(s)
  {
    if s.freeHead.Some? then
      var i := s.freeHead.value;
      var g := s.slots[i].generation;
      (Slots(s.slots[i := Occupied(g, value)], s.slots[i].nextFree, s.len + 1), Some(Handle(i, g)))
    else if |s.slots| > U32_MAX then (s, None)
    else (Slots(s.slots + [Occupied(1, value)], None, s.len + 1), Some(Handle(|s.slots|, 1)))
  }

  predicate Matches<T>(s: Slots<T>, h: Handle) {
    h.index < |s.slots| && s.slots[h.index].Occupied? && s.slots[h.index].generation == h.generation
  }

  function Get<T>(s: Slots<T>, h: Handle): Option<T> {
    if Matches(s, h) then Some(s.slots[h.index].value) else None
  }

  function Remove<T>(s: Slots<T>, h: Handle): (Slots<T>, Option<T>)
    requires Matches(s, h) ==> s.len > 0
  {
    if !Matches(s, h) then (s, None)
    else
      var old_ := Some(s.slots[h.index].value);
      if h.generation < U32_MAX then
        (Slots(s.slots[h.index := Vacant(h.generation + 1, s.freeHead)], Some(h.index), s.len - 1), old_)
      else
        (Slots(s.slots[h.index := Vacant(h.generation, None)], s.freeHead, s.len - 1), old_)
  }

  // ----- What every reachable slab satisfies -----

  /** Following `nextFree` from the head visits exactly `free`, in that order. */
  ghost predicate Chain<T>(slots: seq<Slot<T>>, head: Option<nat>, free: seq<nat>)
    decreases |free|
  {
    if free == [] then head == None
    else
      && head == Some(free[0]) && free[0] < |slots| && slots[free[0]].Vacant?
      && Chain(slots, slots[free[0]].nextFree, free[1..])
  }

  lemma {:induction false} ChainFrame<T>(slots: seq<Slot<T>>, slots': seq<Slot<T>>, head: Option<nat>, free: seq<nat>)
    requires Chain(slots, head, free) && |slots| <= |slots'|
    requires forall x :: x in free && x < |slots| ==> slots'[x] == slots[x]
    ensures Chain(slots', head, free)
    decreases |free|
  {
    if free != [] {
      assert free[0] in free;
      ChainFrame(slots, slots', slots[free[0]].nextFree, free[1..]);
    }
  }

  lemma {:induction false} FreeIsVacant<T>(slots: seq<Slot<T>>, head: Option<nat>, free: seq<nat>, i: nat)
    requires Chain(slots, head, free) && i in free
    ensures i < |slots| && slots[i].Vacant?
    decreases |free|
  {
    if i != free[0] {
      assert i in free[1..];
      FreeIsVacant(slots, slots[free[0]].nextFree, free[1..], i);
    }
  }

  ghost function OccupiedSet<T>(slots: seq<Slot<T>>): set<nat> {
    set i | 0 <= i < |slots| && slots[i].Occupied?
  }

  /** Vacant slots that are not on the free list: their generation can grow no more. */
  ghost function RetiredSet<T>(slots: seq<Slot<T>>, free: seq<nat>): set<nat> {
    set i | 0 <= i < |slots| && slots[i].Vacant? && i !in free
  }

  ghost predicate Valid<T>(s: Slots<T>, free: seq<nat>) {
    && Chain(s.slots, s.freeHead, free) && NoDuplicates(free)
    && s.len == |OccupiedSet(s.slots)| && |s.slots| <= U32_MAX + 1
    && (forall i :: 0 <= i < |s.slots| ==> 1 <= s.slots[i].generation <= U32_MAX)
    && (forall i :: i in RetiredSet(s.slots, free) ==> s.slots[i].generation == U32_MAX)
  }

  ghost function FreeAfterInsert(free: seq<nat>): seq<nat> {
    if free == [] then [] else free[1..]
  }

  ghost function FreeAfterRemove<T>(s: Slots<T>, h: Handle, free: seq<nat>): seq<nat> {
    if Matches(s, h) && h.generation < U32_MAX then [h.index] + free else free
  }

  lemma InsertValid<T>(s: Slots<T>, free: seq<nat>, value: T)
    requires Valid(s, free)
    ensures HeadIsVacant(s) && Valid(Insert(s, value).0, FreeAfterInsert(free))
  {
    var s' := Insert(s, value).0;
    if free != [] {
      ReuseValid(s, s', free);
    } else if |s.slots| <= U32_MAX {
      assert OccupiedSet(s'.slots) == OccupiedSet(s.slots) + {|s.slots|};
      assert forall x :: x in RetiredSet(s'.slots, []) ==> x in RetiredSet(s.slots, []);
    }
  }

  lemma ReuseValid<T>(s: Slots<T>, s': Slots<T>, free: seq<nat>)
    requires Valid(s, free) && free != [] && s'.len == s.len + 1 && |s'.slots| == |s.slots|
    requires s'.slots == s.slots[free[0] := s'.slots[free[0]]] && s'.freeHead == s.slots[free[0]].nextFree
    requires s'.slots[free[0]].Occupied? && s'.slots[free[0]].generation == s.slots[free[0]].generation
    ensures Valid(s', free[1..])
  {
    var i, rest := free[0], free[1..];
    assert NoDuplicates(rest) && i !in rest by {
      assert free == [i] + rest;
      SplitDistinct([i], rest);
    }
    assert s'.len == |OccupiedSet(s'.slots)| by {
      assert OccupiedSet(s'.slots) == OccupiedSet(s.slots) + {i};
    }
    ChainFrame(s.slots, s'.slots, s'.freeHead, rest);
    ReuseRetiresNone(s, s', free);
  }

  lemma ReuseRetiresNone<T>(s: Slots<T>, s': Slots<T>, free: seq<nat>)
    requires free != [] && free[0] < |s.slots| && s.slots[free[0]].Vacant? && |s'.slots| == |s.slots|
    requires s'.slots == s.slots[free[0] := s'.slots[free[0]]] && s'.slots[free[0]].Occupied?
    ensures RetiredSet(s'.slots, free[1..]) <= RetiredSet(s.slots, free)
  {
    assert free == [free[0]] + free[1..];
  }

  lemma RemoveValid<T>(s: Slots<T>, free: seq<nat>, h: Handle)
    requires Valid(s, free)
    ensures (Matches(s, h) ==> s.len > 0) && Valid(Remove(s, h).0, FreeAfterRemove(s, h, free))
  {
    if Matches(s, h) {
      assert h.index in OccupiedSet(s.slots);
      VacateValid(s, Remove(s, h).0, free, h.index);
    }
  }

  lemma VacateValid<T>(s: Slots<T>, s': Slots<T>, free: seq<nat>, i: nat)
    requires Valid(s, free) && i < |s.slots| == |s'.slots| && s.slots[i].Occupied? && s'.len == s.len - 1
    requires s'.slots == s.slots[i := s'.slots[i]] && s'.slots[i].Vacant?
    requires if s.slots[i].generation < U32_MAX
             then s'.slots[i] == Vacant(s.slots[i].generation + 1, s.freeHead) && s'.freeHead == Some(i)
             else s'.slots[i].generation == U32_MAX && s'.freeHead == s.freeHead
    ensures Valid(s', if s.slots[i].generation < U32_MAX then [i] + free else free)
  {
    var free' := if s.slots[i].generation < U32_MAX then [i] + free else free;
    assert i !in free by {
      if i in free { FreeIsVacant(s.slots, s.freeHead, free, i); }
    }
    assert s'.len == |OccupiedSet(s'.slots)| by {
      assert i in OccupiedSet(s.slots);
      assert OccupiedSet(s'.slots) == OccupiedSet(s.slots) - {i};
    }
    assert NoDuplicates(free') by { JoinDistinct([i], free); }
    assert Chain(s'.slots, s'.freeHead, free') by {
      ChainFrame(s.slots, s'.slots, s.freeHead, free);
      assert ([i] + free)[1..] == free;
    }
    forall x | x in RetiredSet(s'.slots, free') ensures s'.slots[x].generation == U32_MAX {
      if x != i {
        assert x in RetiredSet(s.slots, free) by { assert x in free ==> x in free'; }
      }
    }
  }

  lemma PartitionCount(a: set<nat>, b: set<nat>, c: set<nat>, n: nat)
    requires a !! b && a !! c && b !! c
    requires forall i: nat :: i < n <==> i in a || i in b || i in c
    ensures |a| + |b| + |c| == n
  {
    assert a + b + c == Below(n);
  }

  /** Occupied, free and retired slots partition the array. */
  lemma SlotsPartition<T>(s: Slots<T>, free: seq<nat>)
    requires Valid(s, free)
    ensures |s.slots| == s.len + |free| + |RetiredSet(s.slots, free)|
  {
    forall i | i in Elements(free) ensures i < |s.slots| && s.slots[i].Vacant? {
      FreeIsVacant(s.slots, s.freeHead, free, i);
    }
    DistinctCount(free);
    PartitionCount(OccupiedSet(s.slots), Elements(free), RetiredSet(s.slots, free), |s.slots|);
  }

  // ----- Runs, and the plain map they are measured against -----

  datatype Op<+T> = InsertOp(value: T) | GetOp(h: Handle) | RemoveOp(h: Handle)

  datatype Reply<+T> = Inserted(h: Handle) | Full | Got(value: Option<T>) | Removed(value: Option<T>)

  /** A map from live handles to values, and every handle ever given out. */
  datatype Ledger<T> = Ledger(live: map<Handle, T>, issued: set<Handle>)

  function Lookup<T>(m: map<Handle, T>, h: Handle): Option<T> {
    if h in m then Some(m[h]) else None
  }

  /** Replies a map that never reuses a handle may give. */
  predicate Allowed<T(==)>(a: Ledger<T>, op: Op<T>, reply: Reply<T>) {
    match op
    case InsertOp(_) => reply.Full? || (reply.Inserted? && reply.h !in a.issued)
    case GetOp(h) => reply == Got(Lookup(a.live, h))
    case RemoveOp(h) => reply == Removed(Lookup(a.live, h))
  }

  function LedgerAfter<T>(a: Ledger<T>, op: Op<T>, reply: Reply<T>): Ledger<T> {
    match op
    case InsertOp(v) => if reply.Inserted? then Ledger(a.live[reply.h := v], a.issued + {reply.h}) else a
    case GetOp(_) => a
    case RemoveOp(h) => Ledger(a.live - {h}, a.issued)
  }

  predicate Explains<T(==)>(a: Ledger<T>, ops: seq<Op<T>>, replies: seq<Reply<T>>)
    decreases |ops|
  {
    && |ops| == |replies|
    && (ops != [] ==>
          Allowed(a, ops[0], replies[0]) && Explains(LedgerAfter(a, ops[0], replies[0]), ops[1..], replies[1..]))
  }

  ghost function SlabStep<T>(s: Slots<T>, free: seq<nat>, op: Op<T>): (r: (Slots<T>, seq<nat>, Reply<T>))
    requires Valid(s, free)
    ensures Valid(r.0, r.1)
  {
    match op
    case InsertOp(v) =>
      InsertValid(s, free, v);
      var (s', h) := Insert(s, v);
      (s', FreeAfterInsert(free), if h.Some? then Inserted(h.value) else Full)
    case GetOp(h) => (s, free, Got(Get(s, h)))
    case RemoveOp(h) =>
      RemoveValid(s, free, h);
      var (s', v) := Remove(s, h);
      (s', FreeAfterRemove(s, h, free), Removed(v))
  }

  ghost function Replies<T>(s: Slots<T>, free: seq<nat>, ops: seq<Op<T>>): (r: seq<Reply<T>>)
    requires Valid(s, free)
    ensures |r| == |ops|
    decreases |ops|
  {
    if ops == [] then []
    else
      var (s', free', reply) := SlabStep(s, free, ops[0]);
      [reply] + Replies(s', free', ops[1..])
  }

  ghost function After<T>(s: Slots<T>, free: seq<nat>, ops: seq<Op<T>>): (r: (Slots<T>, seq<nat>))
    requires Valid(s, free)
    ensures Valid(r.0, r.1)
    decreases |ops|
  {
    if ops == [] then (s, free)
    else
      var (s', free', reply) := SlabStep(s, free, ops[0]);
      After(s', free', ops[1..])
  }

  /** The largest number of live values at any point of the run. */
  ghost function PeakLen<T>(s: Slots<T>, free: seq<nat>, ops: seq<Op<T>>): nat
    requires Valid(s, free)
    decreases |ops|
  {
    if ops == [] then s.len
    else
      var (s', free', reply) := SlabStep(s, free, ops[0]);
      var rest := PeakLen(s', free', ops[1..]);
      if s.len > rest then s.len else rest
  }

  /** The ledger's live handles are those that match a slot, and every issued handle of a slot
      is older than the stamp the next occupant would get. */
  ghost predicate Coupled<T>(s: Slots<T>, free: seq<nat>, a: Ledger<T>) {
    && (forall h :: h in a.live <==> Matches(s, h))
    && (forall h :: h in a.live ==> a.live[h] == s.slots[h.index].value && h in a.issued)
    && (forall h :: h in a.issued ==> h.index < |s.slots| && h.generation <= s.slots[h.index].generation)
    && (forall h :: h in a.issued && h.index in free ==> h.generation < s.slots[h.index].generation)
  }

  /** The first free slot is occupied again, under a stamp never issued. */
  lemma ReuseCouples<T>(s: Slots<T>, s': Slots<T>, free: seq<nat>, a: Ledger<T>, v: T, h: Handle)
    requires Coupled(s, free, a) && free != [] && NoDuplicates(free) && h.index == free[0] < |s.slots|
    requires s.slots[h.index].Vacant? && s.slots[h.index].generation == h.generation
    requires s'.slots == s.slots[h.index := Occupied(h.generation, v)]
    ensures h !in a.issued && Coupled(s', free[1..], Ledger(a.live[h := v], a.issued + {h}))
  {
    assert free == [free[0]] + free[1..];
    SplitDistinct([free[0]], free[1..]);
    assert free[0] in free && free[0] !in free[1..];
    assert !Matches(s, h);
  }

  lemma AppendCouples<T>(s: Slots<T>, s': Slots<T>, a: Ledger<T>, v: T, h: Handle)
    requires Coupled(s, [], a) && h == Handle(|s.slots|, 1) && s'.slots == s.slots + [Occupied(1, v)]
    ensures h !in a.issued && Coupled(s', [], Ledger(a.live[h := v], a.issued + {h}))
  {
  }

  lemma InsertRefines<T>(s: Slots<T>, free: seq<nat>, a: Ledger<T>, v: T)
    requires Valid(s, free) && Coupled(s, free, a)
    ensures var (s', free', reply) := SlabStep(s, free, InsertOp(v));
            Allowed(a, InsertOp(v), reply) && Coupled(s', free', LedgerAfter(a, InsertOp(v), reply))
  {
    var (s', h) := Insert(s, v);
    if free != [] {
      ReuseCouples(s, s', free, a, v, h.value);
    } else if h.Some? {
      AppendCouples(s, s', a, v, h.value);
    }
  }

  /** A slot is vacated and its stamp moves on, or it is retired. */
  lemma VacateCouples<T>(s: Slots<T>, s': Slots<T>, free: seq<nat>, free': seq<nat>, a: Ledger<T>, h: Handle)
    requires Coupled(s, free, a) && Matches(s, h) && h.index !in free && |s'.slots| == |s.slots|
    requires s'.slots == s.slots[h.index := s'.slots[h.index]] && s'.slots[h.index].Vacant?
    requires if s'.slots[h.index].generation > h.generation then free' == [h.index] + free
             else free' == free && s'.slots[h.index].generation == h.generation
    ensures Coupled(s', free', Ledger(a.live - {h}, a.issued))
  {
    assert !Matches(s', h);
    assert forall g :: g != h ==> (Matches(s', g) <==> Matches(s, g));
  }

  lemma RemoveRefines<T>(s: Slots<T>, free: seq<nat>, a: Ledger<T>, h: Handle)
    requires Valid(s, free) && Coupled(s, free, a)
    ensures var (s', free', reply) := SlabStep(s, free, RemoveOp(h));
            Allowed(a, RemoveOp(h), reply) && Coupled(s', free', LedgerAfter(a, RemoveOp(h), reply))
  {
    if Matches(s, h) {
      var (s', free', reply) := SlabStep(s, free, RemoveOp(h));
      VacateCouples(s, s', free, free', a, h);
    } else {
      assert a.live - {h} == a.live;
    }
  }

  lemma {:induction false} RunRefines<T>(s: Slots<T>, free: seq<nat>, a: Ledger<T>, ops: seq<Op<T>>)
    requires Valid(s, free) && Coupled(s, free, a)
    ensures Explains(a, ops, Replies(s, free, ops))
    decreases |ops|
  {
    if ops != [] {
      var (s', free', reply) := SlabStep(s, free, ops[0]);
      match ops[0] {
        case InsertOp(v) => InsertRefines(s, free, a, v);
        case GetOp(h) =>
        case RemoveOp(h) => RemoveRefines(s, free, a, h);
      }
      RunRefines(s', free', LedgerAfter(a, ops[0], reply), ops[1..]);
      assert Replies(s, free, ops)[1..] == Replies(s', free', ops[1..]);
    }
  }

  /** A handle once given out is never given out again. */
  lemma {:induction false} IssuedStaysIssued<T>(a: Ledger<T>, ops: seq<Op<T>>, replies: seq<Reply<T>>, h: Handle, j: nat)
    requires Explains(a, ops, replies) && h in a.issued && j < |ops| && ops[j].InsertOp?
    ensures replies[j] != Inserted(h)
    decreases |ops|
  {
    if j > 0 {
      IssuedStaysIssued(LedgerAfter(a, ops[0], replies[0]), ops[1..], replies[1..], h, j - 1);
    }
  }

  /** A handle that is no longer live misses at every later point. */
  lemma {:induction false} StaleStaysStale<T>(a: Ledger<T>, ops: seq<Op<T>>, replies: seq<Reply<T>>, h: Handle, j: nat)
    requires Explains(a, ops, replies) && h in a.issued && h !in a.live && j < |ops|
    ensures ops[j] == GetOp(h) ==> replies[j] == Got(None)
    ensures ops[j] == RemoveOp(h) ==> replies[j] == Removed(None)
    decreases |ops|
  {
    if j > 0 {
      StaleStaysStale(LedgerAfter(a, ops[0], replies[0]), ops[1..], replies[1..], h, j - 1);
    }
  }

  // ----- Main results -----

  lemma EmptyIsValid<T>()
    ensures Valid(Empty<T>(), [])
  {
    assert OccupiedSet(Empty<T>().slots) == {};
  }

  /** What a new slab answers to `ops`. */
  ghost function Transcript<T>(ops: seq<Op<T>>): (r: seq<Reply<T>>)
    ensures |r| == |ops|
  {
    EmptyIsValid<T>();
    Replies(Empty(), [], ops)
  }

  /** Every run of the slab is a run of the map. */
  lemma SlabRefinesMap<T>(ops: seq<Op<T>>)
    ensures Explains(Ledger(map[], {}), ops, Transcript(ops))
  {
    EmptyIsValid<T>();
    RunRefines(Empty(), [], Ledger(map[], {}), ops);
  }

  lemma {:induction false} DistinctFrom<T>(a: Ledger<T>, ops: seq<Op<T>>, replies: seq<Reply<T>>, i: nat, j: nat)
    requires Explains(a, ops, replies) && i < j < |ops|
    requires ops[i].InsertOp? && replies[i].Inserted? && ops[j].InsertOp?
    ensures replies[j] != replies[i]
    decreases |ops|
  {
    var a' := LedgerAfter(a, ops[0], replies[0]);
    if i == 0 {
      IssuedStaysIssued(a', ops[1..], replies[1..], replies[0].h, j - 1);
    } else {
      DistinctFrom(a', ops[1..], replies[1..], i - 1, j - 1);
    }
  }

  /** No handle is issued twice, however often slots are reused or retired. */
  lemma NoHandleTwice<T>(ops: seq<Op<T>>, i: nat, j: nat)
    requires i < j < |ops| && ops[i].InsertOp? && ops[j].InsertOp?
    ensures var replies := Transcript(ops);
            replies[i].Inserted? ==> replies[j] != replies[i]
  {
    SlabRefinesMap(ops);
    if Transcript(ops)[i].Inserted? {
      DistinctFrom(Ledger(map[], {}), ops, Transcript(ops), i, j);
    }
  }

  lemma {:induction false} StaleFrom<T>(a: Ledger<T>, ops: seq<Op<T>>, replies: seq<Reply<T>>, h: Handle, i: nat, j: nat)
    requires Explains(a, ops, replies) && i < j < |ops| && a.live.Keys <= a.issued
    requires ops[i] == RemoveOp(h) && replies[i].Removed? && replies[i].value.Some?
    ensures ops[j] == GetOp(h) ==> replies[j] == Got(None)
    ensures ops[j] == RemoveOp(h) ==> replies[j] == Removed(None)
    decreases |ops|
  {
    var a' := LedgerAfter(a, ops[0], replies[0]);
    if i == 0 {
      StaleStaysStale(a', ops[1..], replies[1..], h, j - 1);
    } else {
      StaleFrom(a', ops[1..], replies[1..], h, i - 1, j - 1);
    }
  }

  /** After a successful removal the handle never finds anything again. */
  lemma RemovedHandleMissesForever<T>(ops: seq<Op<T>>, h: Handle, i: nat, j: nat)
    requires i < j < |ops| && ops[i] == RemoveOp(h)
    requires Transcript(ops)[i].Removed? && Transcript(ops)[i].value.Some?
    ensures ops[j] == GetOp(h) ==> Transcript(ops)[j] == Got(None)
    ensures ops[j] == RemoveOp(h) ==> Transcript(ops)[j] == Removed(None)
  {
    SlabRefinesMap(ops);
    StaleFrom(Ledger(map[], {}), ops, Transcript(ops), h, i, j);
  }

  lemma {:induction false} PeakBounds<T>(s: Slots<T>, free: seq<nat>, ops: seq<Op<T>>, peak: nat)
    requires Valid(s, free) && s.len + |free| <= peak && PeakLen(s, free, ops) <= peak
    ensures After(s, free, ops).0.len + |After(s, free, ops).1| <= peak
    decreases |ops|
  {
    if ops != [] {
      var (s', free', reply) := SlabStep(s, free, ops[0]);
      assert s'.len <= PeakLen(s', free', ops[1..]) by {
        LenBelowPeak(s', free', ops[1..]);
      }
      PeakBounds(s', free', ops[1..], peak);
    }
  }

  lemma LenBelowPeak<T>(s: Slots<T>, free: seq<nat>, ops: seq<Op<T>>)
    requires Valid(s, free)
    ensures s.len <= PeakLen(s, free, ops)
  {
  }

  /** The array never holds more slots than were ever live at once, plus the retired ones. */
  lemma FootprintIsBounded<T>(ops: seq<Op<T>>)
    ensures Valid(Empty<T>(), [])
    ensures var (s, free) := After(Empty(), [], ops);
            |s.slots| <= PeakLen(Empty(), [], ops) + |RetiredSet(s.slots, free)|
  {
    EmptyIsValid<T>();
    var (s, free) := After(Empty(), [], ops);
    LenBelowPeak(Empty<T>(), [], ops);
    PeakBounds(Empty(), [], ops, PeakLen(Empty(), [], ops));
    SlotsPartition(s, free);
  }

  /** `insert` panics only when all 2^32 slots are occupied or retired. */
  lemma FullMeansExhausted<T>(s: Slots<T>, free: seq<nat>, v: T)
    requires Valid(s, free)
    ensures SlabStep(s, free, InsertOp(v)).2.Full? <==> s.len + |RetiredSet(s.slots, free)| == 0x1_0000_0000
  {
    SlotsPartition(s, free);
  }

  // ----- Which handle comes next -----

  /** With no slot to reuse, a new value gets the next slot under generation 1. */
  lemma FreshHandle<T>(s: Slots<T>, v: T)
    requires Valid(s, []) && |s.slots| < 0x1_0000_0000
    ensures SlabStep(s, [], InsertOp(v)).2 == Inserted(Handle(|s.slots|, 1))
  {
  }

  /** The slot freed last is reused first, under the next generation, and then the free list is as it
      was before the removal; a slot at the last generation is not reused. */
  lemma FreedLastReusedFirst<T>(s: Slots<T>, free: seq<nat>, h: Handle, v: T)
    requires Valid(s, free) && Matches(s, h)
    ensures var (gone, left, reply) := SlabStep(s, free, RemoveOp(h));
            var (back, rest, again) := SlabStep(gone, left, InsertOp(v));
            && reply == Removed(Some(s.slots[h.index].value))
            && (h.generation < 0xFFFF_FFFF ==> again == Inserted(Handle(h.index, h.generation + 1)) && rest == free && back.freeHead == s.freeHead)
            && (h.generation == 0xFFFF_FFFF ==> left == free && !(again.Inserted? && again.h.index == h.index))
  {
    var (gone, left, reply) := SlabStep(s, free, RemoveOp(h));
    if h.generation < 0xFFFF_FFFF {
      assert left == [h.index] + free && left[1..] == free;
    } else if free != [] {
      FreeIsVacant(s.slots, s.freeHead, free, free[0]);
    }
  }

  // ----- The mutable slab -----

  /** `items` lists the live pairs of the first `n` slots in slot order. */
  ghost predicate Listing<T>(s: Slots<T>, items: seq<(Handle, T)>, n: nat) {
    && (forall k :: 0 <= k < |items| ==> items[k].0.index < n && Get(s, items[k].0) == Some(items[k].1))
    && (forall h: Handle :: h.index < n && Matches(s, h) ==> exists k :: 0 <= k < |items| && items[k].0 == h)
    && (forall j, k :: 0 <= j < k < |items| ==> items[j].0.index < items[k].0.index)
  }

  lemma ListingNext<T>(s: Slots<T>, items: seq<(Handle, T)>, n: nat)
    requires Listing(s, items, n) && n < |s.slots| && s.slots[n].Occupied?
    ensures Listing(s, items + [(Handle(n, s.slots[n].generation), s.slots[n].value)], n + 1)
  {
    var longer := items + [(Handle(n, s.slots[n].generation), s.slots[n].value)];
    forall h: Handle | h.index < n + 1 && Matches(s, h) ensures exists k :: 0 <= k < |longer| && longer[k].0 == h {
      if h.index < n {
        var k :| 0 <= k < |items| && items[k].0 == h;
        assert longer[k].0 == h;
      } else {
        assert longer[|items|].0 == h;
      }
    }
  }

  lemma ListingSkips<T>(s: Slots<T>, items: seq<(Handle, T)>, n: nat)
    requires Listing(s, items, n) && n < |s.slots| && !s.slots[n].Occupied?
    ensures Listing(s, items, n + 1)
  {
  }

  class Slab<T> {
    var slots: seq<Slot<T>>
    var freeHead: Option<nat>
    var len: nat
    ghost var free: seq<nat>

    ghost function Value(): Slots<T>
      reads this
    {
      Slots(slots, freeHead, len)
    }

    ghost predicate Ok()
      reads this
    {
      Valid(Value(), free)
    }

    constructor ()
      ensures Ok() && Value() == Empty() && free == []
    {
      slots, freeHead, len, free := [], None, 0, [];
    }

    method InsertValue(value: T) returns (handle: Option<Handle>)
      requires Ok()
      modifies this
      ensures Ok() && (Value(), handle) == Insert(old(Value()), value) && free == FreeAfterInsert(old(free))
    {
      InsertValid(Value(), free, value);
      if freeHead.Some? {
        var index := freeHead.value;
        var generation, next := slots[index].generation, slots[index].nextFree;
        slots := slots[index := Occupied(generation, value)];
        freeHead, len := next, len + 1;
        handle := Some(Handle(index, generation));
        free := FreeAfterInsert(free);
      } else if |slots| > U32_MAX {
        handle := None;
      } else {
        handle := Some(Handle(|slots|, 1));
        slots, len := slots + [Occupied(1, value)], len + 1;
      }
    }

    method GetValue(handle: Handle) returns (value: Option<T>)
      ensures value == Get(Value(), handle)
    {
      if handle.index < |slots| && slots[handle.index].Occupied? && slots[handle.index].generation == handle.generation {
        return Some(slots[handle.index].value);
      }
      return None;
    }

    method RemoveValue(handle: Handle) returns (value: Option<T>)
      requires Ok()
      modifies this
      ensures Ok() && (old(Matches(Value(), handle)) ==> old(len) > 0)
      ensures (Value(), value) == Remove(old(Value()), handle) && free == FreeAfterRemove(old(Value()), handle, old(free))
    {
      RemoveValid(Value(), free, handle);
      if handle.index >= |slots| || slots[handle.index].Vacant? || slots[handle.index].generation != handle.generation {
        return None;
      }
      ghost var before := Value();
      value := Some(slots[handle.index].value);
      if handle.generation + 1 <= U32_MAX {
        slots := slots[handle.index := Vacant(handle.generation + 1, freeHead)];
        freeHead := Some(handle.index);
      } else {
        slots := slots[handle.index := Vacant(handle.generation, None)];
      }
      len := len - 1;
      free := FreeAfterRemove(before, handle, free);
    }

    /** The live pairs in slot order. */
    method Iterate() returns (items: seq<(Handle, T)>)
      ensures Listing(Value(), items, |slots|)
    {
      items := [];
      var i := 0;
      while i < |slots|
        invariant i <= |slots| && Listing(Value(), items, i)
      {
        if slots[i].Occupied? {
          ListingNext(Value(), items, i);
          items := items + [(Handle(i, slots[i].generation), slots[i].value)];
        } else {
          ListingSkips(Value(), items, i);
        }
        i := i + 1;
      }
    }
  }
}
