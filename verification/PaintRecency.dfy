/**
 What "least recently used" means for the paint cache (crates/cv_browser/src/paint_cache.rs): the
 list in memory is the order in which its keys were used last, and who is evicted was used before
 everyone who stays.
 */
module PaintRecency {
  import opened Common
  import opened PaintCache
  import opened PaintTiers

  // ----- Uses -----

  /** A key is used when its frame is accepted, when memory answers for it, and when a file answers
      for it and its frame fits the budget.  A frame costs four bytes a pixel and 64 KiB. */
  function Used<K(==), N, F>(cfg: Config<K, N, F>, s: Tiers<K, N, F>, ev: Event<K, N, F>): Option<K> {
    match ev
    case Insert(k, _, pixels, _, _) => if 4 * pixels + 65536 <= cfg.budget then Some(k) else None
    case Lookup(k, readable) =>
      var name := cfg.filename(k);
      if k in s.mem.entries then Some(k)
      else if cfg.diskOn && readable && name in s.files && s.files[name].key == k && s.files[name].entry.bytes <= cfg.budget then Some(k)
      else None
    case _ => None
  }

  /** The keys used since memory was last emptied, oldest use first. */
  function Uses<K(==), N, F>(cfg: Config<K, N, F>, evs: seq<Event<K, N, F>>): seq<K> {
    if evs == [] then [] else
      var before, ev := evs[..|evs| - 1], evs[|evs| - 1];
      if ev.ClearAll? || ev.Restart? then [] else
        match Used(cfg, Play(cfg, Fresh(), before).tiers, ev)
        case None => Uses(cfg, before)
        case Some(k) => Uses(cfg, before) + [k]
  }

  /** When `k` was used last, as a position; -1 if never. */
  function LastUse<K(==)>(uses: seq<K>, k: K): (r: int)
    ensures -1 <= r < |uses| && (r >= 0 ==> uses[r] == k) && forall i :: r < i < |uses| ==> uses[i] != k
  {
    if uses == [] then -1
    else if uses[|uses| - 1] == k then |uses| - 1
    else LastUse(uses[..|uses| - 1], k)
  }

  /** `lru` lists keys that have been used, in the order of their last uses. */
  ghost predicate ByRecency<K>(lru: seq<K>, uses: seq<K>) {
    && (forall i :: 0 <= i < |lru| ==> LastUse(uses, lru[i]) >= 0)
    && (forall i, j :: 0 <= i < j < |lru| ==> LastUse(uses, lru[i]) < LastUse(uses, lru[j]))
  }

  lemma UsedNow<K>(uses: seq<K>, k: K, x: K)
    ensures LastUse(uses + [k], x) == if x == k then |uses| else LastUse(uses, x)
  {
    assert (uses + [k])[..|uses|] == uses;
  }

  // ----- One operation -----

  /** The key just used goes to the back. */
  lemma ToTheBack<K>(lru: seq<K>, uses: seq<K>, k: K, rest: seq<K>)
    requires ByRecency(lru, uses) && NoDuplicates(lru)
    requires rest == if k in lru then RemoveFirst(lru, k) else lru
    ensures ByRecency(rest + [k], uses + [k])
  {
    WithoutOne(lru, uses, k, rest);
    var r := rest + [k];
    forall i | 0 <= i < |r| ensures LastUse(uses + [k], r[i]) == if i < |rest| then LastUse(uses, rest[i]) else |uses| {
      UsedNow(uses, k, r[i]);
      if i < |rest| { assert rest[i] in rest; }
    }
  }

  lemma WithoutOne<K>(lru: seq<K>, uses: seq<K>, k: K, rest: seq<K>)
    requires ByRecency(lru, uses) && NoDuplicates(lru)
    requires rest == if k in lru then RemoveFirst(lru, k) else lru
    ensures ByRecency(rest, uses) && k !in rest
  {
    if k in lru {
      var i := RemoveFirstIs(lru, k);
      DropOne(lru, uses, i, rest);
      RemoveFirstKeeps<K, nat>(map[], lru, k);
    }
  }

  lemma DropOne<K>(lru: seq<K>, uses: seq<K>, i: nat, rest: seq<K>)
    requires ByRecency(lru, uses) && i < |lru| && rest == lru[..i] + lru[i + 1..]
    ensures ByRecency(rest, uses)
  {
    forall j | 0 <= j < |rest| ensures rest[j] == lru[Moved(i, j)] { }
    forall h, j | 0 <= h < j < |rest| ensures LastUse(uses, rest[h]) < LastUse(uses, rest[j]) {
      assert rest[h] == lru[Moved(i, h)] && rest[j] == lru[Moved(i, j)];
    }
  }

  /** Where position `j` of a list without its `i`th element comes from. */
  function Moved(i: nat, j: nat): nat { if j < i then j else j + 1 }

  lemma SuffixByRecency<K>(lru: seq<K>, uses: seq<K>, d: nat)
    requires ByRecency(lru, uses) && d <= |lru|
    ensures ByRecency(lru[d..], uses)
  {
  }

  lemma TouchRecency<K, F>(m: Memory<K, F>, k: K, uses: seq<K>)
    requires Exact(m) && ByRecency(m.lru, uses) && k in m.entries
    ensures ByRecency(Touched(m, k).lru, uses + [k])
  {
    ToTheBack(m.lru, uses, k, RemoveFirst(m.lru, k));
  }

  lemma OfferRecency<K, F>(m: Memory<K, F>, k: K, e: Entry<F>, uses: seq<K>)
    requires Exact(m) && ByRecency(m.lru, uses) && m.bytes + e.bytes <= UsizeMax
    ensures ByRecency(Offered(m, k, e).lru, uses + [k])
  {
    OfferedIs(m, k, e);
    ToTheBack(m.lru, uses, k, if k in m.lru then RemoveFirst(m.lru, k) else m.lru);
  }

  lemma AdmitRecency<K, F>(m: Memory<K, F>, k: K, e: Entry<F>, budget: nat, uses: seq<K>)
    requires Exact(m) && ByRecency(m.lru, uses) && m.bytes + e.bytes <= UsizeMax && e.bytes <= budget
    ensures ByRecency(Admit(m, k, e, budget).lru, uses + [k])
  {
    OfferRecency(m, k, e, uses);
    var d := AdmitKeepsLongestFit(m, k, e, budget);
    SuffixByRecency(Offered(m, k, e).lru, uses + [k], d);
  }

  // ----- Runs -----

  lemma CostIs(pixels: nat, budget: nat)
    requires budget < UsizeMax
    ensures EntryBytes(pixels) <= budget <==> 4 * pixels + 65536 <= budget
    ensures EntryBytes(pixels) <= budget ==> EntryBytes(pixels) == 4 * pixels + 65536
  {
  }

  /** A step either uses a key or leaves memory as it is. */
  lemma StepUses<K, N, F>(cfg: Config<K, N, F>, s: Tiers<K, N, F>, ev: Event<K, N, F>)
    requires cfg.budget < UsizeMax && (ev.Insert? || ev.Lookup?)
    ensures Used(cfg, s, ev).None? ==> Step(cfg, s, ev).mem == s.mem
    ensures ev.Insert? && Used(cfg, s, ev).Some? ==> EntryBytes(ev.pixels) <= cfg.budget
  {
    if ev.Insert? { CostIs(ev.pixels, cfg.budget); }
  }

  /** The entry a step admits, if it admits one. */
  function Admitted<K(==), N, F>(cfg: Config<K, N, F>, s: Tiers<K, N, F>, ev: Event<K, N, F>): Option<Entry<F>> {
    if Used(cfg, s, ev).None? then None
    else if ev.Insert? then Some(Entry(ev.frame, EntryBytes(ev.pixels)))
    else if ev.key in s.mem.entries then None
    else Load(cfg, s.files, ev.key, ev.readable)
  }

  lemma StepIs<K, N, F>(cfg: Config<K, N, F>, s: Tiers<K, N, F>, ev: Event<K, N, F>)
    requires cfg.budget < UsizeMax && (ev.Insert? || ev.Lookup?) && Used(cfg, s, ev).Some?
    ensures Used(cfg, s, ev).value == ev.key
    ensures var e := Admitted(cfg, s, ev);
            && (e.None? ==> ev.key in s.mem.entries && Step(cfg, s, ev).mem == Touched(s.mem, ev.key))
            && (e.Some? ==> e.value.bytes <= cfg.budget && Step(cfg, s, ev).mem == Admit(s.mem, ev.key, e.value, cfg.budget))
  {
    StepUses(cfg, s, ev);
  }

  /** In every run the list in memory is the order of last uses. */
  lemma {:induction false} ListIsByRecency<K, N, F>(cfg: Config<K, N, F>, evs: seq<Event<K, N, F>>)
    requires cfg.budget + cfg.budget <= UsizeMax
    ensures ByRecency(Play(cfg, Fresh(), evs).tiers.mem.lru, Uses(cfg, evs))
  {
    if evs != [] {
      var before, ev := evs[..|evs| - 1], evs[|evs| - 1];
      ListIsByRecency(cfg, before);
      RunsStayExact(cfg, before);
      if ev.Insert? || ev.Lookup? { StepRecency(cfg, Play(cfg, Fresh(), before).tiers, ev, Uses(cfg, before)); }
    }
  }

  lemma StepRecency<K, N, F>(cfg: Config<K, N, F>, s: Tiers<K, N, F>, ev: Event<K, N, F>, uses: seq<K>)
    requires cfg.budget + cfg.budget <= UsizeMax && Exact(s.mem) && Within(s.mem, cfg.budget) && ByRecency(s.mem.lru, uses)
    requires ev.Insert? || ev.Lookup?
    ensures Used(cfg, s, ev).None? ==> ByRecency(Step(cfg, s, ev).mem.lru, uses)
    ensures Used(cfg, s, ev).Some? ==> ByRecency(Step(cfg, s, ev).mem.lru, uses + [ev.key])
  {
    StepUses(cfg, s, ev);
    if Used(cfg, s, ev).Some? {
      StepIs(cfg, s, ev);
      var e := Admitted(cfg, s, ev);
      if e.None? { TouchRecency(s.mem, ev.key, uses); } else { AdmitRecency(s.mem, ev.key, e.value, cfg.budget, uses); }
    }
  }

  // ----- Main results -----

  /** Whoever leaves memory in a step other than a wipe or a restart was used before everyone who is
      in memory afterwards. */
  lemma EvictedWereOlder<K, N, F>(cfg: Config<K, N, F>, evs: seq<Event<K, N, F>>, ev: Event<K, N, F>, x: K, y: K)
    requires cfg.budget + cfg.budget <= UsizeMax && (ev.Insert? || ev.Lookup?)
    requires x in Play(cfg, Fresh(), evs).tiers.mem.entries && x !in Play(cfg, Fresh(), evs + [ev]).tiers.mem.entries
    requires y in Play(cfg, Fresh(), evs + [ev]).tiers.mem.entries
    ensures LastUse(Uses(cfg, evs + [ev]), x) < LastUse(Uses(cfg, evs + [ev]), y)
  {
    var s := Play(cfg, Fresh(), evs).tiers;
    PlayMore(cfg, evs, ev);
    RunsStayExact(cfg, evs);
    RunsStayExact(cfg, evs + [ev]);
    ListIsByRecency(cfg, evs);
    StepUses(cfg, s, ev);
    StepIs(cfg, s, ev);
    var e := Admitted(cfg, s, ev);
    assert e.Some?;
    OfferRecency(s.mem, ev.key, e.value, Uses(cfg, evs));
    var d := AdmitKeepsLongestFit(s.mem, ev.key, e.value, cfg.budget);
    OfferedIs(s.mem, ev.key, e.value);
    BeforeTheCut(Offered(s.mem, ev.key, e.value), d, x, y, Uses(cfg, evs) + [ev.key]);
  }

  lemma PlayMore<K, N, F>(cfg: Config<K, N, F>, evs: seq<Event<K, N, F>>, ev: Event<K, N, F>)
    ensures Play(cfg, Fresh(), evs + [ev]) == Next(cfg, Play(cfg, Fresh(), evs), ev)
    ensures ev.Insert? || ev.Lookup? ==>
              Uses(cfg, evs + [ev]) == match Used(cfg, Play(cfg, Fresh(), evs).tiers, ev)
                                       case None => Uses(cfg, evs)
                                       case Some(k) => Uses(cfg, evs) + [k]
  {
    assert (evs + [ev])[..|evs|] == evs;
  }

  lemma BeforeTheCut<K, F>(o: Memory<K, F>, d: nat, x: K, y: K, uses: seq<K>)
    requires Exact(o) && d <= |o.lru| && ByRecency(o.lru, uses)
    requires x in o.entries && x !in Suffix(o, d).entries && y in Suffix(o, d).entries
    ensures LastUse(uses, x) < LastUse(uses, y)
  {
    var i := InFront(o.lru, d, x);
    var j := InBack(o.lru, d, y);
  }

  lemma InFront<K>(s: seq<K>, d: nat, x: K) returns (i: nat)
    requires d <= |s| && x in s && x !in s[d..]
    ensures i < d && s[i] == x
  {
    assert s == s[..d] + s[d..];
    i :| 0 <= i < |s[..d]| && s[..d][i] == x;
  }

  lemma InBack<K>(s: seq<K>, d: nat, y: K) returns (j: nat)
    requires d <= |s| && y in s[d..]
    ensures d <= j < |s| && s[j] == y
  {
    var h :| 0 <= h < |s[d..]| && s[d..][h] == y;
    j := d + h;
  }

  /** Of those in front of a cut the last was used last. */
  lemma LastInFront<K, F>(o: Memory<K, F>, d: nat, z: K, uses: seq<K>)
    requires Exact(o) && 0 < d <= |o.lru| && ByRecency(o.lru, uses) && z in o.entries && z !in Suffix(o, d).entries
    ensures LastUse(uses, z) <= LastUse(uses, o.lru[d - 1])
  {
    var i := InFront(o.lru, d, z);
  }

  /** Memory never gives up more than it must: of what an accepted frame drives out, the last used
      would not fit any more, in bytes or as a 65th entry. */
  lemma EvictionIsNeeded<K, N, F>(cfg: Config<K, N, F>, s: Tiers<K, N, F>, ev: Event<K, N, F>, uses: seq<K>, x: K) returns (last: K)
    requires ByRecency(s.mem.lru, uses) && cfg.budget + cfg.budget <= UsizeMax && Exact(s.mem) && Within(s.mem, cfg.budget) && (ev.Insert? || ev.Lookup?)
    requires x in s.mem.entries && x !in Step(cfg, s, ev).mem.entries
    ensures last in s.mem.entries && last !in Step(cfg, s, ev).mem.entries
    ensures LastUse(uses + [ev.key], x) <= LastUse(uses + [ev.key], last)
    ensures s.mem.entries[last].bytes + Step(cfg, s, ev).mem.bytes > cfg.budget || |Step(cfg, s, ev).mem.entries| == 64
  {
    StepUses(cfg, s, ev);
    StepIs(cfg, s, ev);
    var e := Admitted(cfg, s, ev);
    assert e.Some?;
    var d := AdmitKeepsLongestFit(s.mem, ev.key, e.value, cfg.budget);
    OfferedIs(s.mem, ev.key, e.value);
    var o := Offered(s.mem, ev.key, e.value);
    WholeSuffix(o);
    last := o.lru[d - 1];
    LastDropped(o, d, cfg.budget);
    OfferRecency(s.mem, ev.key, e.value, uses);
    LastInFront(o, d, x, uses + [ev.key]);
  }

  lemma LastDropped<K, F>(o: Memory<K, F>, d: nat, budget: nat)
    requires Exact(o) && 0 < d <= |o.lru| && Fits(o, d, budget) && !Fits(o, d - 1, budget)
    ensures var last := o.lru[d - 1];
            && last in o.entries && last !in Suffix(o, d).entries
            && (o.entries[last].bytes + Suffix(o, d).bytes > budget || |Suffix(o, d).entries| == 64)
  {
    var last := o.lru[d - 1];
    assert last in o.lru;
    NotAgain(o.lru, d);
    OneMore(o, d - 1);
    SuffixExact(o, d);
  }

  lemma NotAgain<K>(s: seq<K>, d: nat)
    requires NoDuplicates(s) && 0 < d <= |s|
    ensures s[d - 1] !in s[d..]
  {
    assert forall j :: 0 <= j < |s[d..]| ==> s[d..][j] == s[d + j];
  }

  lemma OneMore<K, F>(o: Memory<K, F>, i: nat)
    requires i < |o.lru|
    ensures SuffixTotal(o, i) == Cost(o.entries, o.lru[i]) + SuffixTotal(o, i + 1)
  {
    SplitFirst(o.lru, i);
  }

  /** A key that has just been used is in memory, which holds at most 64 frames within the budget. */
  lemma UsedIsKept<K, N, F>(cfg: Config<K, N, F>, evs: seq<Event<K, N, F>>, ev: Event<K, N, F>)
    requires cfg.budget + cfg.budget <= UsizeMax
    ensures var s, s' := Play(cfg, Fresh(), evs).tiers, Play(cfg, Fresh(), evs + [ev]).tiers;
            && (Used(cfg, s, ev).Some? ==> Used(cfg, s, ev).value in s'.mem.entries)
            && s'.mem.bytes <= cfg.budget && |s'.mem.entries| <= 64
  {
    var s := Play(cfg, Fresh(), evs).tiers;
    PlayMore(cfg, evs, ev);
    RunsStayExact(cfg, evs);
    RunsStayExact(cfg, evs + [ev]);
    if Used(cfg, s, ev).Some? {
      StepIs(cfg, s, ev);
      var e := Admitted(cfg, s, ev);
      if e.None? {
        TouchKeeps(s.mem, ev.key);
      } else {
        var d := AdmitKeepsLongestFit(s.mem, ev.key, e.value, cfg.budget);
      }
    }
  }

  lemma AdmittedIsServed<K, N, F>(cfg: Config<K, N, F>, s: Tiers<K, N, F>, k: K, e: Entry<F>, files: map<N, File<K, F>>, readable: bool)
    requires Exact(s.mem) && s.mem.bytes + e.bytes <= UsizeMax && e.bytes <= cfg.budget
    ensures Answer(cfg, Tiers(Admit(s.mem, k, e, cfg.budget), files), k, readable) == Some(e)
  {
    var d := AdmitKeepsLongestFit(s.mem, k, e, cfg.budget);
  }

  /** A frame that has just been accepted is answered for as it is, nothing stripped. */
  lemma AcceptedIsServed<K, N, F>(cfg: Config<K, N, F>, s: Tiers<K, N, F>, k: K, frame: F, pixels: nat, wrote: bool, kept: set<N>, readable: bool)
    requires Exact(s.mem) && Within(s.mem, cfg.budget) && cfg.budget + cfg.budget <= UsizeMax && 4 * pixels + 65536 <= cfg.budget
    ensures Answer(cfg, Step(cfg, s, Insert(k, frame, pixels, wrote, kept)), k, readable) == Some(Entry(frame, 4 * pixels + 65536))
  {
    CostIs(pixels, cfg.budget);
    var e := Entry(frame, EntryBytes(pixels));
    AdmittedIsServed(cfg, s, k, e, Stored(cfg, s.files, k, e, wrote, kept), readable);
  }
}
