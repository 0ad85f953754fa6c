/**
 The paint cache of crates/cv_browser/src/paint_cache.rs: a byte-budgeted, count-capped LRU
 in memory over a directory of files.  Keys and frames are opaque.  The directory is a map from
 file name to the embedded key and the persisted part of an entry; whether a file operation
 succeeds, and which files a disk eviction leaves, is an argument of each operation.
 */
module PaintCache {
  import opened Common

  const UsizeMax: nat := 0xFFFF_FFFF_FFFF_FFFF
  const MaxEntries: nat := 64
  const FixedOverhead: nat := 64 * 1024

  function SatAdd(a: nat, b: nat): nat { if a + b <= UsizeMax then a + b else UsizeMax }

  function SatSub(a: nat, b: nat): nat { if a >= b then a - b else 0 }

  function SatMul(a: nat, b: nat): nat { if a * b <= UsizeMax then a * b else UsizeMax }

  /** Cost of an entry with a bitmap of `pixels` pixels. */
  function EntryBytes(pixels: nat): nat { SatAdd(SatMul(pixels, 4), FixedOverhead) }

  datatype Entry<F> = Entry(frame: F, bytes: nat)

  /** The in-memory tier; `lru` runs from least to most recently used. */
  datatype Memory<K, F> = Memory(entries: map<K, Entry<F>>, lru: seq<K>, bytes: nat)

  // ----- Bookkeeping of the in-memory tier -----

  /** `s` without the first occurrence of `k`. */
  function RemoveFirst<K(==)>(s: seq<K>, k: K): seq<K> {
    if s == [] then [] else if s[0] == k then s[1..] else [s[0]] + RemoveFirst(s[1..], k)
  }

  function Touched<K, F>(m: Memory<K, F>, k: K): Memory<K, F> {
    if k in m.lru then m.(lru := RemoveFirst(m.lru, k) + [k]) else m
  }

  /** The least recently used entry leaves. */
  function DropOldest<K, F>(m: Memory<K, F>): Memory<K, F>
    requires m.lru != []
  {
    var victim := m.lru[0];
    if victim in m.entries
    then Memory(m.entries - {victim}, m.lru[1..], SatSub(m.bytes, m.entries[victim].bytes))
    else m.(lru := m.lru[1..])
  }

  function EvictToBudget<K, F>(m: Memory<K, F>, budget: nat): Memory<K, F>
    decreases |m.lru|
  {
    if m.bytes <= budget || m.lru == [] then m else EvictToBudget(DropOldest(m), budget)
  }

  function CapEntries<K, F>(m: Memory<K, F>): Memory<K, F>
    decreases |m.lru|
  {
    if |m.entries| <= MaxEntries || m.lru == [] then m else CapEntries(DropOldest(m))
  }

  function Removed<K, F>(m: Memory<K, F>, k: K): Memory<K, F> {
    if k in m.entries
    then Memory(m.entries - {k}, RemoveFirst(m.lru, k), SatSub(m.bytes, m.entries[k].bytes))
    else m
  }

  function Added<K, F>(m: Memory<K, F>, k: K, e: Entry<F>): Memory<K, F> {
    Memory(m.entries[k := e], m.lru + [k], SatAdd(m.bytes, e.bytes))
  }

  /** Replaces or adds `k`, then evicts. */
  function Admit<K, F>(m: Memory<K, F>, k: K, e: Entry<F>, budget: nat): Memory<K, F> {
    CapEntries(EvictToBudget(Added(Removed(m, k), k, e), budget))
  }

  /** The locked part of `insert_inner` and of `promote_from_disk`. */
  function Accept<K, F>(m: Memory<K, F>, k: K, e: Entry<F>, budget: nat): Memory<K, F> {
    if e.bytes > budget then m else Admit(m, k, e, budget)
  }

  // ----- What the bookkeeping keeps -----

  function Cost<K, F>(entries: map<K, Entry<F>>, k: K): nat {
    if k in entries then entries[k].bytes else 0
  }

  function Total<K, F>(entries: map<K, Entry<F>>, keys: seq<K>): nat {
    if keys == [] then 0 else Cost(entries, keys[0]) + Total(entries, keys[1..])
  }

  /** The list is a duplicate-free ordering of the keys and `bytes` the exact sum. */
  ghost predicate Exact<K, F>(m: Memory<K, F>) {
    && NoDuplicates(m.lru) && (forall k :: k in m.lru ==> k in m.entries) && (forall k :: k in m.entries ==> k in m.lru)
    && m.bytes == Total(m.entries, m.lru)
  }

  ghost predicate Within<K, F>(m: Memory<K, F>, budget: nat) {
    m.bytes <= budget && |m.entries| <= MaxEntries
  }

  lemma {:induction false} TotalSame<K, F>(a: map<K, Entry<F>>, b: map<K, Entry<F>>, keys: seq<K>)
    requires forall k :: k in keys ==> Cost(a, k) == Cost(b, k)
    ensures Total(a, keys) == Total(b, keys)
  {
    if keys != [] { TotalSame(a, b, keys[1..]); }
  }

  lemma {:induction false} TotalAppend<K, F>(a: map<K, Entry<F>>, s: seq<K>, t: seq<K>)
    ensures Total(a, s + t) == Total(a, s) + Total(a, t)
  {
    if s == [] {
      assert s + t == t;
    } else {
      TotalAppend(a, s[1..], t);
      assert (s + t)[1..] == s[1..] + t;
    }
  }

  lemma {:induction false} RemoveFirstIs<K>(s: seq<K>, k: K) returns (i: nat)
    requires k in s
    ensures i < |s| && s[i] == k && RemoveFirst(s, k) == s[..i] + s[i + 1..]
  {
    if s[0] == k {
      i := 0;
    } else {
      var j := RemoveFirstIs(s[1..], k);
      assert [s[0]] + s[1..][..j] == s[..j + 1] && s[1..][j + 1..] == s[j + 2..];
      i := j + 1;
    }
  }

  /** Removing a key from a duplicate-free list. */
  lemma RemoveFirstKeeps<K, F>(a: map<K, Entry<F>>, s: seq<K>, k: K)
    requires NoDuplicates(s) && k in s
    ensures NoDuplicates(RemoveFirst(s, k)) && k !in RemoveFirst(s, k)
    ensures forall x :: x in s && x != k ==> x in RemoveFirst(s, k)
    ensures forall x :: x in RemoveFirst(s, k) ==> x in s
    ensures Total(a, s) == Cost(a, k) + Total(a, RemoveFirst(s, k))
  {
    var i := RemoveFirstIs(s, k);
    assert s == s[..i] + s[i..] && s[i..] == [k] + s[i + 1..];
    SplitDistinct(s[..i], s[i..]);
    SplitDistinct([k], s[i + 1..]);
    JoinDistinct(s[..i], s[i + 1..]);
    TotalAppend(a, s[..i], s[i..]);
    TotalAppend(a, s[..i], s[i + 1..]);
    assert k in [k];
  }

  lemma CountIs<K, F>(m: Memory<K, F>)
    requires NoDuplicates(m.lru) && (forall k :: k in m.lru ==> k in m.entries) && (forall k :: k in m.entries ==> k in m.lru)
    ensures |m.entries| == |m.lru|
  {
    CountKeys(m.entries, m.lru);
  }

  lemma {:induction false} CountKeys<K, F>(a: map<K, Entry<F>>, s: seq<K>)
    requires NoDuplicates(s) && (forall k :: k in s ==> k in a) && (forall k :: k in a ==> k in s)
    ensures |a| == |s|
  {
    if s == [] {
      assert a == map[];
    } else {
      assert s == [s[0]] + s[1..];
      CountKeys(a - {s[0]}, s[1..]);
    }
  }

  /** `after` is `before` with `k` taken out of its place and put last. */
  ghost predicate MovedToBack<K>(before: seq<K>, after: seq<K>, k: K) {
    exists i :: 0 <= i < |before| && before[i] == k && after == before[..i] + before[i + 1..] + [k]
  }

  lemma TouchKeeps<K, F>(m: Memory<K, F>, k: K)
    requires Exact(m)
    ensures Exact(Touched(m, k)) && Touched(m, k).entries == m.entries
    ensures k in m.lru ==> MovedToBack(m.lru, Touched(m, k).lru, k)
    ensures k !in m.lru ==> Touched(m, k) == m
  {
    if k in m.lru {
      var i := RemoveFirstIs(m.lru, k);
      RemoveFirstKeeps(m.entries, m.lru, k);
      JoinDistinct(RemoveFirst(m.lru, k), [k]);
      TotalAppend(m.entries, RemoveFirst(m.lru, k), [k]);
    }
  }

  lemma RemovedKeeps<K, F>(m: Memory<K, F>, k: K)
    requires Exact(m)
    ensures Exact(Removed(m, k)) && k !in Removed(m, k).lru
    ensures Removed(m, k).lru == if k in m.lru then RemoveFirst(m.lru, k) else m.lru
  {
    if k in m.lru {
      RemoveFirstKeeps(m.entries, m.lru, k);
      TotalSame(m.entries, m.entries - {k}, RemoveFirst(m.lru, k));
    }
  }

  lemma AddedKeeps<K, F>(m: Memory<K, F>, k: K, e: Entry<F>)
    requires Exact(m) && k !in m.lru && m.bytes + e.bytes <= UsizeMax
    ensures Exact(Added(m, k, e))
  {
    var r := Added(m, k, e);
    JoinDistinct(m.lru, [k]);
    TotalSame(m.entries, r.entries, m.lru);
    TotalAppend(r.entries, m.lru, [k]);
  }

  lemma DropKeeps<K, F>(m: Memory<K, F>)
    requires Exact(m) && m.lru != []
    ensures Exact(DropOldest(m)) && DropOldest(m).lru == m.lru[1..]
    ensures DropOldest(m).entries == m.entries - {m.lru[0]}
    ensures m.bytes == m.entries[m.lru[0]].bytes + DropOldest(m).bytes
  {
    assert m.lru == [m.lru[0]] + m.lru[1..];
    TotalSame(m.entries, m.entries - {m.lru[0]}, m.lru[1..]);
  }

  /** The cost of the list from position `i` on. */
  ghost function SuffixTotal<K, F>(m: Memory<K, F>, i: nat): nat
    requires i <= |m.lru|
  {
    Total(m.entries, m.lru[i..])
  }

  /** What remains of `m` when its `d` least recently used entries leave. */
  ghost function Suffix<K, F>(m: Memory<K, F>, d: nat): Memory<K, F>
    requires d <= |m.lru|
  {
    Memory(map k | k in m.entries && k in m.lru[d..] :: m.entries[k], m.lru[d..], SuffixTotal(m, d))
  }

  lemma SuffixExact<K, F>(m: Memory<K, F>, d: nat)
    requires Exact(m) && d <= |m.lru|
    ensures Exact(Suffix(m, d)) && |Suffix(m, d).entries| == |m.lru| - d
  {
    var r := Suffix(m, d);
    TotalSame(m.entries, r.entries, r.lru);
    CountIs(r);
  }

  lemma WholeSuffix<K, F>(m: Memory<K, F>)
    requires Exact(m)
    ensures Suffix(m, 0) == m && SuffixTotal(m, |m.lru|) == 0
  {
    assert m.lru[0..] == m.lru && m.lru[|m.lru|..] == [];
    assert Suffix(m, 0).entries == m.entries;
  }

  lemma SplitFirst<K>(s: seq<K>, d: nat)
    requires d < |s|
    ensures s[d..][1..] == s[d + 1..] && s[d..] == [s[d]] + s[d + 1..]
  {
  }

  lemma DropSuffixEntries<K, F>(m: Memory<K, F>, d: nat)
    requires NoDuplicates(m.lru) && d < |m.lru|
    ensures Suffix(m, d).entries - {m.lru[d]} == Suffix(m, d + 1).entries
  {
    SplitFirst(m.lru, d);
  }

  lemma DropSuffix<K, F>(m: Memory<K, F>, d: nat)
    requires Exact(m) && d < |m.lru|
    ensures DropOldest(Suffix(m, d)) == Suffix(m, d + 1)
  {
    SplitFirst(m.lru, d);
    DropSuffixEntries(m, d);
    SuffixExact(m, d);
    SuffixExact(m, d + 1);
    DropKeeps(Suffix(m, d));
  }

  lemma {:induction false} EvictIsSuffix<K, F>(m: Memory<K, F>, d: nat, budget: nat) returns (e: nat)
    requires Exact(m) && d <= |m.lru|
    ensures d <= e <= |m.lru| && EvictToBudget(Suffix(m, d), budget) == Suffix(m, e) && SuffixTotal(m, e) <= budget
    ensures forall i :: d <= i < e ==> SuffixTotal(m, i) > budget
    decreases |m.lru| - d
  {
    if d == |m.lru| { WholeSuffix(m); }
    if SuffixTotal(m, d) <= budget {
      e := d;
    } else {
      DropSuffix(m, d);
      e := EvictIsSuffix(m, d + 1, budget);
    }
  }

  lemma {:induction false} CapIsSuffix<K, F>(m: Memory<K, F>, d: nat) returns (e: nat)
    requires Exact(m) && d <= |m.lru|
    ensures d <= e <= |m.lru| && CapEntries(Suffix(m, d)) == Suffix(m, e) && SuffixTotal(m, e) <= SuffixTotal(m, d)
    ensures |m.lru| - e <= MaxEntries && (e > d ==> |m.lru| - e == MaxEntries)
    decreases |m.lru| - d
  {
    SuffixExact(m, d);
    if |m.lru| - d <= MaxEntries {
      e := d;
    } else {
      DropSuffix(m, d);
      assert SuffixTotal(m, d + 1) == DropOldest(Suffix(m, d)).bytes <= SuffixTotal(m, d);
      e := CapIsSuffix(m, d + 1);
    }
  }

  // ----- The longest suffix that fits -----

  /** The list from position `i` on is within both limits. */
  ghost predicate Fits<K, F>(m: Memory<K, F>, i: nat, budget: nat)
    requires i <= |m.lru|
  {
    SuffixTotal(m, i) <= budget && |m.lru| - i <= MaxEntries
  }

  /** `r` keeps the entries of the longest suffix of `m.lru` that fits: all but the first `d`. */
  ghost predicate LongestFit<K, F>(m: Memory<K, F>, d: nat, r: Memory<K, F>, budget: nat) {
    d <= |m.lru| && r == Suffix(m, d) && Fits(m, d, budget) && forall i :: 0 <= i < d ==> !Fits(m, i, budget)
  }

  lemma NoLongerFit<K, F>(m: Memory<K, F>, e: nat, d: nat, budget: nat)
    requires e <= d <= |m.lru| && (forall i :: 0 <= i < e ==> SuffixTotal(m, i) > budget)
    requires e < d ==> |m.lru| - d == MaxEntries
    ensures forall i :: 0 <= i < d ==> !Fits(m, i, budget)
  {
  }

  lemma EvictionIsLongestFit<K, F>(m: Memory<K, F>, budget: nat) returns (d: nat)
    requires Exact(m)
    ensures LongestFit(m, d, CapEntries(EvictToBudget(m, budget)), budget)
  {
    WholeSuffix(m);
    var e := EvictIsSuffix(m, 0, budget);
    d := CapIsSuffix(m, e);
    NoLongerFit(m, e, d, budget);
    var r := CapEntries(EvictToBudget(m, budget));
    assert r == Suffix(m, d);
  }

  /** What is in memory once `k` has been put in front of the rest, before eviction. */
  ghost function Offered<K, F>(m: Memory<K, F>, k: K, e: Entry<F>): Memory<K, F> {
    Added(Removed(m, k), k, e)
  }

  lemma OfferedIs<K, F>(m: Memory<K, F>, k: K, e: Entry<F>)
    requires Exact(m) && m.bytes + e.bytes <= UsizeMax
    ensures Exact(Offered(m, k, e)) && Offered(m, k, e).entries == m.entries[k := e]
    ensures Offered(m, k, e).lru == (if k in m.lru then RemoveFirst(m.lru, k) else m.lru) + [k]
  {
    RemovedKeeps(m, k);
    AddedKeeps(Removed(m, k), k, e);
  }

  lemma NewestFits<K, F>(o: Memory<K, F>, k: K, budget: nat)
    requires o.lru != [] && o.lru[|o.lru| - 1] == k && k in o.entries && o.entries[k].bytes <= budget
    ensures Fits(o, |o.lru| - 1, budget)
  {
    assert o.lru[|o.lru| - 1..] == [k] && [k][1..] == [];
    assert Total(o.entries, [k]) == Cost(o.entries, k) + Total(o.entries, [k][1..]);
  }

  lemma SuffixHasNewest<K, F>(o: Memory<K, F>, d: nat, k: K)
    requires o.lru != [] && o.lru[|o.lru| - 1] == k && k in o.entries && d < |o.lru|
    ensures k in Suffix(o, d).entries && Suffix(o, d).entries[k] == o.entries[k]
  {
    assert o.lru[d..][|o.lru| - 1 - d] == k;
  }

  /** An accepted entry stays, in front of the longest most recent suffix that fits. */
  lemma AdmitKeepsLongestFit<K, F>(m: Memory<K, F>, k: K, e: Entry<F>, budget: nat) returns (d: nat)
    requires Exact(m) && m.bytes + e.bytes <= UsizeMax && e.bytes <= budget
    ensures Exact(Admit(m, k, e, budget)) && Within(Admit(m, k, e, budget), budget)
    ensures LongestFit(Offered(m, k, e), d, Admit(m, k, e, budget), budget)
    ensures k in Admit(m, k, e, budget).entries && Admit(m, k, e, budget).entries[k] == e
  {
    OfferedIs(m, k, e);
    var o := Offered(m, k, e);
    d := EvictionIsLongestFit(o, budget);
    SuffixExact(o, d);
    NewestFits(o, k, budget);
    SuffixHasNewest(o, d, k);
  }

  lemma AcceptKeeps<K, F>(m: Memory<K, F>, k: K, e: Entry<F>, budget: nat)
    requires Exact(m) && Within(m, budget) && budget + budget <= UsizeMax
    ensures Exact(Accept(m, k, e, budget)) && Within(Accept(m, k, e, budget), budget)
  {
    if e.bytes <= budget { var _ := AdmitKeepsLongestFit(m, k, e, budget); }
  }
}
