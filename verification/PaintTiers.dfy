/**
 The two tiers of the paint cache together (crates/cv_browser/src/paint_cache.rs): lookups that
 fall through to files, inserts that write through, wipes and restarts, over whole runs.
 */
module PaintTiers {
  import opened Common
  import opened PaintCache

  /** `filename` need not be injective; `strip` forgets what a file does not hold. */
  datatype Config<!K, !N, !F> = Config(budget: nat, diskOn: bool, filename: K -> N, strip: F -> F)

  datatype File<K, F> = File(key: K, entry: Entry<F>)

  datatype Tiers<K, N, F> = Tiers(mem: Memory<K, F>, files: map<N, File<K, F>>)

  /** `wrote`, `readable`: whether the file operation succeeded; `kept`: the files that survive
      the disk eviction after a write; `left`: the files a wipe fails to delete. */
  datatype Event<K, N, F> =
    | Insert(key: K, frame: F, pixels: nat, wrote: bool, kept: set<N>)
    | Lookup(key: K, readable: bool)
    | ClearAll(left: set<N>)
    | Restart

  function NoMemory<K, F>(): Memory<K, F> { Memory(map[], [], 0) }

  function Surviving<K, N, F>(files: map<N, File<K, F>>, kept: set<N>): map<N, File<K, F>> {
    map n | n in files && n in kept :: files[n]
  }

  function Stored<K, N, F>(cfg: Config<K, N, F>, files: map<N, File<K, F>>, k: K, e: Entry<F>, wrote: bool, kept: set<N>): map<N, File<K, F>> {
    if !cfg.diskOn then files else
      var written := if wrote then files[cfg.filename(k) := File(k, Entry(cfg.strip(e.frame), e.bytes))] else files;
      Surviving(written, kept)
  }

  function Load<K(==), N, F>(cfg: Config<K, N, F>, files: map<N, File<K, F>>, k: K, readable: bool): Option<Entry<F>> {
    if cfg.diskOn && readable && cfg.filename(k) in files && files[cfg.filename(k)].key == k
    then Some(files[cfg.filename(k)].entry) else None
  }

  predicate Accepts<K, N, F>(cfg: Config<K, N, F>, pixels: nat) {
    EntryBytes(pixels) <= cfg.budget
  }

  function AfterInsert<K, N, F>(cfg: Config<K, N, F>, s: Tiers<K, N, F>, k: K, frame: F, pixels: nat, wrote: bool, kept: set<N>): Tiers<K, N, F> {
    var e := Entry(frame, EntryBytes(pixels));
    if e.bytes > cfg.budget then s
    else Tiers(Admit(s.mem, k, e, cfg.budget), Stored(cfg, s.files, k, e, wrote, kept))
  }

  /** What a lookup returns. */
  function Answer<K, N, F>(cfg: Config<K, N, F>, s: Tiers<K, N, F>, k: K, readable: bool): Option<Entry<F>> {
    if k in s.mem.entries then Some(s.mem.entries[k]) else Load(cfg, s.files, k, readable)
  }

  function AfterLookup<K, N, F>(cfg: Config<K, N, F>, s: Tiers<K, N, F>, k: K, readable: bool): Tiers<K, N, F> {
    if k in s.mem.entries then s.(mem := Touched(s.mem, k)) else
      match Load(cfg, s.files, k, readable)
      case Some(e) => s.(mem := Accept(s.mem, k, e, cfg.budget))
      case None => s
  }

  function AfterClear<K, N, F>(cfg: Config<K, N, F>, s: Tiers<K, N, F>, left: set<N>): Tiers<K, N, F> {
    Tiers(NoMemory(), if cfg.diskOn then Surviving(s.files, left) else s.files)
  }

  function Step<K, N, F>(cfg: Config<K, N, F>, s: Tiers<K, N, F>, ev: Event<K, N, F>): Tiers<K, N, F> {
    match ev
    case Insert(k, frame, pixels, wrote, kept) => AfterInsert(cfg, s, k, frame, pixels, wrote, kept)
    case Lookup(k, readable) => AfterLookup(cfg, s, k, readable)
    case ClearAll(left) => AfterClear(cfg, s, left)
    case Restart => s.(mem := NoMemory())
  }

  // ----- Runs -----

  /** The tiers and two records since the last wipe, oldest first: the inserts that were accepted,
      and all inserts that were offered, those refused for their size included. */
  datatype Session<K, N, F> = Session(tiers: Tiers<K, N, F>, log: seq<(K, F)>, offered: seq<(K, F)>)

  function Logged<K, N, F>(cfg: Config<K, N, F>, log: seq<(K, F)>, ev: Event<K, N, F>): seq<(K, F)> {
    match ev
    case Insert(k, frame, pixels, _, _) => if Accepts(cfg, pixels) then log + [(k, frame)] else log
    case ClearAll(_) => []
    case _ => log
  }

  function Offers<K, N, F>(offered: seq<(K, F)>, ev: Event<K, N, F>): seq<(K, F)> {
    match ev
    case Insert(k, frame, _, _, _) => offered + [(k, frame)]
    case ClearAll(_) => []
    case _ => offered
  }

  function Next<K, N, F>(cfg: Config<K, N, F>, s: Session<K, N, F>, ev: Event<K, N, F>): Session<K, N, F> {
    Session(Step(cfg, s.tiers, ev), Logged(cfg, s.log, ev), Offers(s.offered, ev))
  }

  function Play<K, N, F>(cfg: Config<K, N, F>, s: Session<K, N, F>, evs: seq<Event<K, N, F>>): Session<K, N, F> {
    if evs == [] then s else Next(cfg, Play(cfg, s, evs[..|evs| - 1]), evs[|evs| - 1])
  }

  /** A wipe that leaves no file behind. */
  predicate Clean<K, N, F>(cfg: Config<K, N, F>, s: Tiers<K, N, F>, ev: Event<K, N, F>) {
    ev.ClearAll? && cfg.diskOn ==> forall n :: n in s.files ==> n !in ev.left
  }

  ghost predicate CleanRun<K, N, F>(cfg: Config<K, N, F>, s: Session<K, N, F>, evs: seq<Event<K, N, F>>) {
    evs == [] ||
    (CleanRun(cfg, s, evs[..|evs| - 1]) && Clean(cfg, Play(cfg, s, evs[..|evs| - 1]).tiers, evs[|evs| - 1]))
  }

  // ----- Safety -----

  /** `frame` was inserted under `k`, up to what files forget. */
  predicate Genuine<K(==), N, F(==)>(cfg: Config<K, N, F>, log: seq<(K, F)>, k: K, frame: F) {
    exists i :: 0 <= i < |log| && log[i].0 == k && (frame == log[i].1 || frame == cfg.strip(log[i].1))
  }

  ghost predicate MemorySafe<K, N, F>(cfg: Config<K, N, F>, entries: map<K, Entry<F>>, log: seq<(K, F)>) {
    forall k :: k in entries ==> Genuine(cfg, log, k, entries[k].frame)
  }

  ghost predicate FilesSafe<K, N, F>(cfg: Config<K, N, F>, files: map<N, File<K, F>>, log: seq<(K, F)>) {
    forall n :: n in files ==> n == cfg.filename(files[n].key) && Genuine(cfg, log, files[n].key, files[n].entry.frame)
  }

  ghost predicate Safe<K, N, F>(cfg: Config<K, N, F>, s: Session<K, N, F>) {
    MemorySafe(cfg, s.tiers.mem.entries, s.log) && (cfg.diskOn ==> FilesSafe(cfg, s.tiers.files, s.log))
  }

  lemma GenuineGrows<K, N, F>(cfg: Config<K, N, F>, log: seq<(K, F)>, k: K, frame: F, x: (K, F))
    requires Genuine(cfg, log, k, frame)
    ensures Genuine(cfg, log + [x], k, frame)
  {
    var i :| 0 <= i < |log| && log[i].0 == k && (frame == log[i].1 || frame == cfg.strip(log[i].1));
    assert (log + [x])[i] == log[i];
  }

  lemma GenuineNew<K, N, F>(cfg: Config<K, N, F>, log: seq<(K, F)>, k: K, frame: F)
    ensures Genuine(cfg, log + [(k, frame)], k, frame) && Genuine(cfg, log + [(k, frame)], k, cfg.strip(frame))
  {
    assert (log + [(k, frame)])[|log|] == (k, frame);
  }

  lemma SafeGrows<K, N, F>(cfg: Config<K, N, F>, s: Session<K, N, F>, x: (K, F))
    requires Safe(cfg, s)
    ensures Safe(cfg, s.(log := s.log + [x]))
  {
    var entries, files := s.tiers.mem.entries, s.tiers.files;
    forall k | k in entries ensures Genuine(cfg, s.log + [x], k, entries[k].frame) {
      GenuineGrows(cfg, s.log, k, entries[k].frame, x);
    }
    forall n | cfg.diskOn && n in files ensures Genuine(cfg, s.log + [x], files[n].key, files[n].entry.frame) {
      GenuineGrows(cfg, s.log, files[n].key, files[n].entry.frame, x);
    }
  }

  /** Every entry of `b` is in `a` as well. */
  predicate Part<K, F(==)>(b: map<K, Entry<F>>, a: map<K, Entry<F>>) {
    forall k :: k in b ==> k in a && b[k] == a[k]
  }

  lemma {:induction false} EvictOnlyRemoves<K, F>(m: Memory<K, F>, budget: nat)
    ensures Part(EvictToBudget(m, budget).entries, m.entries)
    decreases |m.lru|
  {
    if m.bytes > budget && m.lru != [] { EvictOnlyRemoves(DropOldest(m), budget); }
  }

  lemma {:induction false} CapOnlyRemoves<K, F>(m: Memory<K, F>)
    ensures Part(CapEntries(m).entries, m.entries)
    decreases |m.lru|
  {
    if |m.entries| > MaxEntries && m.lru != [] { CapOnlyRemoves(DropOldest(m)); }
  }

  lemma AdmitOnlyAdds<K, F>(m: Memory<K, F>, k: K, e: Entry<F>, budget: nat)
    ensures Part(Admit(m, k, e, budget).entries, m.entries[k := e])
  {
    var o := Added(Removed(m, k), k, e);
    EvictOnlyRemoves(o, budget);
    CapOnlyRemoves(EvictToBudget(o, budget));
  }

  lemma MemorySafePart<K, N, F>(cfg: Config<K, N, F>, a: map<K, Entry<F>>, b: map<K, Entry<F>>, log: seq<(K, F)>)
    requires MemorySafe(cfg, a, log) && Part(b, a)
    ensures MemorySafe(cfg, b, log)
  {
  }

  lemma InsertSafe<K, N, F>(cfg: Config<K, N, F>, s: Session<K, N, F>, ev: Event<K, N, F>)
    requires Safe(cfg, s) && ev.Insert?
    ensures Safe(cfg, Next(cfg, s, ev))
  {
    if Accepts(cfg, ev.pixels) {
      var k, e := ev.key, Entry(ev.frame, EntryBytes(ev.pixels));
      var log := s.log + [(k, ev.frame)];
      SafeGrows(cfg, s, (k, ev.frame));
      GenuineNew(cfg, s.log, k, ev.frame);
      AdmitOnlyAdds(s.tiers.mem, k, e, cfg.budget);
      assert MemorySafe(cfg, s.tiers.mem.entries[k := e], log);
      MemorySafePart(cfg, s.tiers.mem.entries[k := e], Admit(s.tiers.mem, k, e, cfg.budget).entries, log);
      assert cfg.diskOn ==> FilesSafe(cfg, Stored(cfg, s.tiers.files, k, e, ev.wrote, ev.kept), log);
    }
  }

  lemma LookupSafe<K, N, F>(cfg: Config<K, N, F>, s: Session<K, N, F>, k: K, readable: bool)
    requires Safe(cfg, s)
    ensures Safe(cfg, Next(cfg, s, Lookup(k, readable)))
    ensures Answer(cfg, s.tiers, k, readable).Some? ==> Genuine(cfg, s.log, k, Answer(cfg, s.tiers, k, readable).value.frame)
  {
    var m, answer := s.tiers.mem, Load(cfg, s.tiers.files, k, readable);
    if k !in m.entries && answer.Some? && answer.value.bytes <= cfg.budget {
      var e := answer.value;
      AdmitOnlyAdds(m, k, e, cfg.budget);
      assert MemorySafe(cfg, m.entries[k := e], s.log);
      MemorySafePart(cfg, m.entries[k := e], Admit(m, k, e, cfg.budget).entries, s.log);
    }
  }

  lemma NextSafe<K, N, F>(cfg: Config<K, N, F>, s: Session<K, N, F>, ev: Event<K, N, F>)
    requires Safe(cfg, s) && Clean(cfg, s.tiers, ev)
    ensures Safe(cfg, Next(cfg, s, ev))
  {
    match ev
    case Insert(_, _, _, _, _) => InsertSafe(cfg, s, ev);
    case Lookup(k, readable) => LookupSafe(cfg, s, k, readable);
    case _ =>
  }

  lemma {:induction false} RunSafe<K, N, F>(cfg: Config<K, N, F>, s: Session<K, N, F>, evs: seq<Event<K, N, F>>)
    requires Safe(cfg, s) && CleanRun(cfg, s, evs)
    ensures Safe(cfg, Play(cfg, s, evs))
  {
    if evs != [] {
      RunSafe(cfg, s, evs[..|evs| - 1]);
      NextSafe(cfg, Play(cfg, s, evs[..|evs| - 1]), evs[|evs| - 1]);
    }
  }

  function Fresh<K, N, F>(): Session<K, N, F> { Session(Tiers(NoMemory(), map[]), [], []) }

  /** Whatever evictions, failed file operations and restarts happen, a lookup answers with a
      frame inserted under exactly that key since the last wipe. */
  lemma TwoTierSafety<K, N, F>(cfg: Config<K, N, F>, evs: seq<Event<K, N, F>>, k: K, readable: bool)
    requires CleanRun(cfg, Fresh(), evs)
    ensures var s := Play(cfg, Fresh(), evs);
            Answer(cfg, s.tiers, k, readable).Some? ==> Genuine(cfg, s.log, k, Answer(cfg, s.tiers, k, readable).value.frame)
  {
    RunSafe(cfg, Fresh(), evs);
    LookupSafe(cfg, Play(cfg, Fresh(), evs), k, readable);
  }

  // ----- When a wipe is a wipe -----

  ghost predicate LookupsGenuine<K(!new), N, F>(cfg: Config<K, N, F>, s: Session<K, N, F>) {
    forall k, readable {:trigger Answer(cfg, s.tiers, k, readable)} ::
      Answer(cfg, s.tiers, k, readable).Some? ==> Genuine(cfg, s.log, k, Answer(cfg, s.tiers, k, readable).value.frame)
  }

  ghost predicate AlwaysGenuine<K(!new), N(!new), F(!new)>(cfg: Config<K, N, F>, s: Session<K, N, F>) {
    forall evs {:trigger Play(cfg, s, evs)} :: CleanRun(cfg, s, evs) ==> LookupsGenuine(cfg, Play(cfg, s, evs))
  }

  lemma SafeIsAlwaysGenuine<K(!new), N(!new), F(!new)>(cfg: Config<K, N, F>, s: Session<K, N, F>)
    requires Safe(cfg, s)
    ensures AlwaysGenuine(cfg, s)
  {
    forall evs | CleanRun(cfg, s, evs) ensures LookupsGenuine(cfg, Play(cfg, s, evs)) {
      RunSafe(cfg, s, evs);
      forall k, readable ensures
        Answer(cfg, Play(cfg, s, evs).tiers, k, readable).Some? ==>
          Genuine(cfg, Play(cfg, s, evs).log, k, Answer(cfg, Play(cfg, s, evs).tiers, k, readable).value.frame)
      {
        LookupSafe(cfg, Play(cfg, s, evs), k, readable);
      }
    }
  }

  /** After a wipe no earlier frame is ever served again exactly if every file was deleted. */
  lemma WipeIsFinalIff<K(!new), N(!new), F(!new)>(cfg: Config<K, N, F>, s: Session<K, N, F>, left: set<N>)
    requires Safe(cfg, s) && cfg.diskOn
    ensures AlwaysGenuine(cfg, Next(cfg, s, ClearAll(left))) <==> forall n :: n in s.tiers.files ==> n !in left
  {
    var after := Next(cfg, s, ClearAll(left));
    if n :| n in s.tiers.files && n in left {
      var k := s.tiers.files[n].key;
      assert Answer(cfg, after.tiers, k, true).Some?;
      assert !Genuine(cfg, after.log, k, Answer(cfg, after.tiers, k, true).value.frame);
      assert CleanRun(cfg, after, []) && Play(cfg, after, []) == after;
    } else {
      SafeIsAlwaysGenuine(cfg, after);
    }
  }

  // ----- The latest frame -----

  function Latest<K(==), F>(log: seq<(K, F)>, k: K): Option<F> {
    if log == [] then None
    else if log[|log| - 1].0 == k then Some(log[|log| - 1].1)
    else Latest(log[..|log| - 1], k)
  }

  /** `frame` is `newest`, up to what files forget. */
  predicate Shows<K, N, F(==)>(cfg: Config<K, N, F>, frame: F, newest: F) {
    frame == newest || frame == cfg.strip(newest)
  }

  /** `frame` is the one offered last under `k`. */
  predicate Current<K(==), N, F(==)>(cfg: Config<K, N, F>, offered: seq<(K, F)>, k: K, frame: F) {
    Latest(offered, k).Some? && Shows(cfg, frame, Latest(offered, k).value)
  }

  ghost predicate MemoryCurrent<K, N, F>(cfg: Config<K, N, F>, entries: map<K, Entry<F>>, offered: seq<(K, F)>) {
    forall k :: k in entries ==> Current(cfg, offered, k, entries[k].frame)
  }

  ghost predicate FilesCurrent<K, N, F>(cfg: Config<K, N, F>, files: map<N, File<K, F>>, offered: seq<(K, F)>) {
    forall n :: n in files ==> n == cfg.filename(files[n].key) && Current(cfg, offered, files[n].key, files[n].entry.frame)
  }

  ghost predicate UpToDate<K, N, F>(cfg: Config<K, N, F>, s: Session<K, N, F>) {
    MemoryCurrent(cfg, s.tiers.mem.entries, s.offered) && (cfg.diskOn ==> FilesCurrent(cfg, s.tiers.files, s.offered))
  }

  lemma LatestAppend<K, F>(log: seq<(K, F)>, k: K, frame: F, x: K)
    ensures Latest(log + [(k, frame)], x) == if x == k then Some(frame) else Latest(log, x)
  {
    assert (log + [(k, frame)])[..|log|] == log;
  }

  predicate OldInMemory<K, N, F(==)>(cfg: Config<K, N, F>, s: Tiers<K, N, F>, k: K, frame: F) {
    k in s.mem.entries && !Shows(cfg, s.mem.entries[k].frame, frame)
  }

  predicate OldOnDisk<K(==), N, F(==)>(cfg: Config<K, N, F>, s: Tiers<K, N, F>, k: K, frame: F) {
    cfg.diskOn && cfg.filename(k) in s.files && s.files[cfg.filename(k)].key == k &&
    !Shows(cfg, s.files[cfg.filename(k)].entry.frame, frame)
  }

  /** An insert that leaves an older frame of its key behind: it was accepted but its write failed
      while the file with the older frame survives, or it was refused for its size while memory or
      a file holds an older frame. */
  predicate LeavesStale<K(==), N, F(==)>(cfg: Config<K, N, F>, s: Tiers<K, N, F>, ev: Event<K, N, F>) {
    ev.Insert? &&
    if Accepts(cfg, ev.pixels) then !ev.wrote && OldOnDisk(cfg, s, ev.key, ev.frame) && cfg.filename(ev.key) in ev.kept
    else OldInMemory(cfg, s, ev.key, ev.frame) || OldOnDisk(cfg, s, ev.key, ev.frame)
  }

  predicate Tidy<K, N, F(==)>(cfg: Config<K, N, F>, s: Tiers<K, N, F>, ev: Event<K, N, F>) {
    Clean(cfg, s, ev) && !LeavesStale(cfg, s, ev)
  }

  ghost predicate TidyRun<K, N, F>(cfg: Config<K, N, F>, s: Session<K, N, F>, evs: seq<Event<K, N, F>>) {
    evs == [] ||
    (TidyRun(cfg, s, evs[..|evs| - 1]) && Tidy(cfg, Play(cfg, s, evs[..|evs| - 1]).tiers, evs[|evs| - 1]))
  }

  lemma InsertCurrent<K, N, F>(cfg: Config<K, N, F>, s: Session<K, N, F>, ev: Event<K, N, F>)
    requires UpToDate(cfg, s) && ev.Insert? && !LeavesStale(cfg, s.tiers, ev)
    ensures UpToDate(cfg, Next(cfg, s, ev))
  {
    var m, k, e := s.tiers.mem, ev.key, Entry(ev.frame, EntryBytes(ev.pixels));
    var offered := s.offered + [(k, ev.frame)];
    forall x ensures Latest(offered, x) == if x == k then Some(ev.frame) else Latest(s.offered, x) {
      LatestAppend(s.offered, k, ev.frame, x);
    }
    if Accepts(cfg, ev.pixels) {
      AdmitOnlyAdds(m, k, e, cfg.budget);
      assert MemoryCurrent(cfg, m.entries[k := e], offered);
      assert MemoryCurrent(cfg, Admit(m, k, e, cfg.budget).entries, offered);
      assert cfg.diskOn ==> FilesCurrent(cfg, Stored(cfg, s.tiers.files, k, e, ev.wrote, ev.kept), offered);
    } else {
      assert MemoryCurrent(cfg, m.entries, offered);
      assert cfg.diskOn ==> FilesCurrent(cfg, s.tiers.files, offered);
    }
  }

  lemma LookupCurrent<K, N, F>(cfg: Config<K, N, F>, s: Session<K, N, F>, k: K, readable: bool)
    requires UpToDate(cfg, s)
    ensures UpToDate(cfg, Next(cfg, s, Lookup(k, readable)))
    ensures Answer(cfg, s.tiers, k, readable).Some? ==> Current(cfg, s.offered, k, Answer(cfg, s.tiers, k, readable).value.frame)
  {
    var m, answer := s.tiers.mem, Load(cfg, s.tiers.files, k, readable);
    if k !in m.entries && answer.Some? && answer.value.bytes <= cfg.budget {
      AdmitOnlyAdds(m, k, answer.value, cfg.budget);
      assert MemoryCurrent(cfg, m.entries[k := answer.value], s.offered);
      assert MemoryCurrent(cfg, Admit(m, k, answer.value, cfg.budget).entries, s.offered);
    }
  }

  lemma {:induction false} RunCurrent<K, N, F>(cfg: Config<K, N, F>, s: Session<K, N, F>, evs: seq<Event<K, N, F>>)
    requires UpToDate(cfg, s) && TidyRun(cfg, s, evs)
    ensures UpToDate(cfg, Play(cfg, s, evs))
  {
    if evs != [] {
      RunCurrent(cfg, s, evs[..|evs| - 1]);
      var t, ev := Play(cfg, s, evs[..|evs| - 1]), evs[|evs| - 1];
      match ev
      case Insert(_, _, _, _, _) => InsertCurrent(cfg, t, ev);
      case Lookup(k, readable) => LookupCurrent(cfg, t, k, readable);
      case _ =>
    }
  }

  ghost predicate LookupsCurrent<K(!new), N, F>(cfg: Config<K, N, F>, s: Session<K, N, F>) {
    forall k, readable {:trigger Answer(cfg, s.tiers, k, readable)} ::
      Answer(cfg, s.tiers, k, readable).Some? ==> Current(cfg, s.offered, k, Answer(cfg, s.tiers, k, readable).value.frame)
  }

  ghost predicate AlwaysCurrent<K(!new), N(!new), F(!new)>(cfg: Config<K, N, F>, s: Session<K, N, F>) {
    forall evs {:trigger Play(cfg, s, evs)} :: TidyRun(cfg, s, evs) ==> LookupsCurrent(cfg, Play(cfg, s, evs))
  }

  lemma UpToDateIsAlwaysCurrent<K(!new), N(!new), F(!new)>(cfg: Config<K, N, F>, s: Session<K, N, F>)
    requires UpToDate(cfg, s)
    ensures AlwaysCurrent(cfg, s)
  {
    forall evs | TidyRun(cfg, s, evs) ensures LookupsCurrent(cfg, Play(cfg, s, evs)) {
      RunCurrent(cfg, s, evs);
      forall k, readable ensures
        Answer(cfg, Play(cfg, s, evs).tiers, k, readable).Some? ==>
          Current(cfg, Play(cfg, s, evs).offered, k, Answer(cfg, Play(cfg, s, evs).tiers, k, readable).value.frame)
      {
        LookupCurrent(cfg, Play(cfg, s, evs), k, readable);
      }
    }
  }

  /** From a fresh start, tidy runs always serve the latest frame offered for a key. */
  lemma LatestFrameServed<K(!new), N(!new), F(!new)>(cfg: Config<K, N, F>)
    ensures AlwaysCurrent<K, N, F>(cfg, Fresh())
  {
    UpToDateIsAlwaysCurrent<K, N, F>(cfg, Fresh());
  }

  /** An older frame on disk is served after the next restart. */
  lemma ServedAfterRestart<K(!new), N(!new), F(!new)>(cfg: Config<K, N, F>, s: Session<K, N, F>, k: K, frame: F)
    requires OldOnDisk(cfg, s.tiers, k, frame) && Latest(s.offered, k) == Some(frame)
    ensures !AlwaysCurrent(cfg, s)
  {
    var evs := [Restart];
    assert evs[..0] == [];
    assert TidyRun(cfg, s, evs[..0]);
    assert TidyRun(cfg, s, evs);
    var t := Play(cfg, s, evs);
    assert t == Next(cfg, Play(cfg, s, []), Restart);
    assert Answer(cfg, t.tiers, k, true) == Some(s.tiers.files[cfg.filename(k)].entry);
    assert !LookupsCurrent(cfg, t);
  }

  /** An older frame in memory is served at once. */
  lemma ServedAtOnce<K(!new), N(!new), F(!new)>(cfg: Config<K, N, F>, s: Session<K, N, F>, k: K, frame: F)
    requires OldInMemory(cfg, s.tiers, k, frame) && Latest(s.offered, k) == Some(frame)
    ensures !AlwaysCurrent(cfg, s)
  {
    assert TidyRun(cfg, s, []) && Play(cfg, s, []) == s;
    assert Answer(cfg, s.tiers, k, true) == Some(s.tiers.mem.entries[k]);
    assert !LookupsCurrent(cfg, s);
  }

  /** An insert is the last word on its key exactly if it does not leave an older frame behind. */
  lemma InsertIsLastWordIff<K(!new), N(!new), F(!new)>(cfg: Config<K, N, F>, s: Session<K, N, F>, ev: Event<K, N, F>)
    requires UpToDate(cfg, s) && ev.Insert?
    ensures AlwaysCurrent(cfg, Next(cfg, s, ev)) <==> !LeavesStale(cfg, s.tiers, ev)
  {
    var after := Next(cfg, s, ev);
    LatestAppend(s.offered, ev.key, ev.frame, ev.key);
    if !LeavesStale(cfg, s.tiers, ev) {
      InsertCurrent(cfg, s, ev);
      UpToDateIsAlwaysCurrent(cfg, after);
    } else if OldOnDisk(cfg, s.tiers, ev.key, ev.frame) {
      ServedAfterRestart(cfg, after, ev.key, ev.frame);
    } else {
      ServedAtOnce(cfg, after, ev.key, ev.frame);
    }
  }

  /** The pixels of a bitmap that exceeds the budget. */
  function TooMany(budget: nat): nat { budget / 4 + 1 }

  /** The same page baked first small, then over budget: the small frame is still served, with and
      without a disk, for every budget that accepts something and refuses something. */
  lemma RefusedInsertServesOld<K(!new), N(!new), F(!new)>(cfg: Config<K, N, F>, k: K, small: F, tall: F, wrote: bool, kept: set<N>)
    requires FixedOverhead <= cfg.budget < UsizeMax && !Shows(cfg, small, tall)
    ensures var s := Next(cfg, Next(cfg, Fresh(), Insert(k, small, 0, wrote, kept)), Insert(k, tall, TooMany(cfg.budget), wrote, kept));
            && Answer(cfg, s.tiers, k, true) == Some(Entry(small, FixedOverhead))
            && Latest(s.offered, k) == Some(tall) && !AlwaysCurrent(cfg, s)
  {
    var e := Entry(small, FixedOverhead);
    var s: Session<K, N, F> := Fresh();
    var one := Next(cfg, s, Insert(k, small, 0, wrote, kept));
    var only := Memory(map[k := e], [k], FixedOverhead);
    assert Added(Removed(NoMemory(), k), k, e) == only;
    assert one.tiers.mem == only;
    var two := Next(cfg, one, Insert(k, tall, TooMany(cfg.budget), wrote, kept));
    assert two.tiers == one.tiers;
    LatestAppend(one.offered, k, tall, k);
    ServedAtOnce(cfg, two, k, tall);
  }

  // ----- Files -----

  /** With the disk on, an accepted frame whose write succeeds and whose file is not evicted answers
      after a restart, up to what files forget. */
  lemma WrittenSurvivesRestart<K, N, F>(cfg: Config<K, N, F>, s: Session<K, N, F>, k: K, frame: F, pixels: nat, kept: set<N>)
    requires cfg.diskOn && Accepts(cfg, pixels) && cfg.filename(k) in kept
    ensures var after := Next(cfg, Next(cfg, s, Insert(k, frame, pixels, true, kept)), Restart);
            && Answer(cfg, after.tiers, k, true).Some? && Answer(cfg, after.tiers, k, true).value.frame == cfg.strip(frame)
            && Answer(cfg, after.tiers, k, false).None?
  {
  }

  /** With the disk off, no run touches a file or answers from one. */
  lemma {:induction false} NoDiskNoFiles<K, N, F>(cfg: Config<K, N, F>, s: Session<K, N, F>, evs: seq<Event<K, N, F>>)
    requires !cfg.diskOn
    ensures Play(cfg, s, evs).tiers.files == s.tiers.files
    ensures forall k :: Answer(cfg, Play(cfg, s, evs).tiers, k, true).Some? ==> k in Play(cfg, s, evs).tiers.mem.entries
  {
    if evs != [] { NoDiskNoFiles(cfg, s, evs[..|evs| - 1]); }
  }

  // ----- When the running sum is exact -----

  lemma {:induction false} RunsStayExact<K, N, F>(cfg: Config<K, N, F>, evs: seq<Event<K, N, F>>)
    requires cfg.budget + cfg.budget <= UsizeMax
    ensures var m := Play(cfg, Fresh(), evs).tiers.mem; Exact(m) && Within(m, cfg.budget)
  {
    if evs != [] {
      RunsStayExact(cfg, evs[..|evs| - 1]);
      StepStaysExact(cfg, Play(cfg, Fresh(), evs[..|evs| - 1]).tiers, evs[|evs| - 1]);
    }
  }

  lemma StepStaysExact<K, N, F>(cfg: Config<K, N, F>, s: Tiers<K, N, F>, ev: Event<K, N, F>)
    requires cfg.budget + cfg.budget <= UsizeMax && Exact(s.mem) && Within(s.mem, cfg.budget)
    ensures Exact(Step(cfg, s, ev).mem) && Within(Step(cfg, s, ev).mem, cfg.budget)
  {
    match ev
    case Insert(k, frame, pixels, _, _) => AcceptKeeps(s.mem, k, Entry(frame, EntryBytes(pixels)), cfg.budget);
    case Lookup(k, readable) =>
      TouchKeeps(s.mem, k);
      var answer := Load(cfg, s.files, k, readable);
      if answer.Some? { AcceptKeeps(s.mem, k, answer.value, cfg.budget); }
    case _ =>
  }

  /** Half of the address space. */
  const Half: nat := 0x8000_0000_0000_0000

  function HalfEntry(): Entry<nat> { Entry(0, Half) }

  function OneHalf(): Memory<nat, nat> { Memory(map[1 := HalfEntry()], [1], Half) }

  lemma FirstHalf(budget: nat)
    requires budget >= Half
    ensures Admit(NoMemory(), 1, HalfEntry(), budget) == OneHalf()
  {
    assert Added(Removed(NoMemory(), 1), 1, HalfEntry()) == OneHalf();
  }

  lemma SecondHalf(budget: nat)
    requires Half <= budget <= UsizeMax
    ensures !Exact(Admit(OneHalf(), 2, HalfEntry(), budget))
  {
    var e := HalfEntry();
    var two := Memory(map[1 := e, 2 := e], [1, 2], UsizeMax);
    assert Added(Removed(OneHalf(), 2), 2, e) == two;
    assert [2][1..] == [];
    if budget == UsizeMax {
      assert Admit(OneHalf(), 2, e, budget) == two;
      assert [1, 2][1..] == [2];
      assert Total(two.entries, [1, 2]) == Half + Total(two.entries, [2]);
    } else {
      var left := Memory(map[2 := e], [2], Half - 1);
      assert DropOldest(two) == left;
      assert Admit(OneHalf(), 2, e, budget) == left;
      assert Total(left.entries, [2]) == Half + Total(left.entries, []);
    }
  }

  lemma PlayTwo<K, N, F>(cfg: Config<K, N, F>, s: Session<K, N, F>, a: Event<K, N, F>, b: Event<K, N, F>)
    ensures Play(cfg, s, [a, b]) == Next(cfg, Next(cfg, s, a), b)
  {
    assert [a, b][..1] == [a] && [a][..0] == [];
    assert Play(cfg, s, [a]) == Next(cfg, Play(cfg, s, [a][..0]), a);
  }

  lemma InsertedMemory<K, N, F>(cfg: Config<K, N, F>, s: Session<K, N, F>, k: K, frame: F, pixels: nat)
    requires Accepts(cfg, pixels)
    ensures Next(cfg, s, Insert(k, frame, pixels, false, {})).tiers.mem == Admit(s.tiers.mem, k, Entry(frame, EntryBytes(pixels)), cfg.budget)
  {
  }

  lemma PairSaturates(cfg: Config<nat, nat, nat>) returns (evs: seq<Event<nat, nat, nat>>)
    requires Half <= cfg.budget <= UsizeMax
    ensures !Exact(Play(cfg, Fresh(), evs).tiers.mem)
  {
    var pixels := (Half - FixedOverhead) / 4;
    assert EntryBytes(pixels) == Half;
    var a, b := Insert(1, 0, pixels, false, {}), Insert(2, 0, pixels, false, {});
    var s: Session<nat, nat, nat> := Fresh();
    var one := Next(cfg, s, a);
    InsertedMemory(cfg, s, 1, 0, pixels);
    FirstHalf(cfg.budget);
    assert one.tiers.mem == OneHalf();
    InsertedMemory(cfg, one, 2, 0, pixels);
    SecondHalf(cfg.budget);
    evs := [a, b];
    PlayTwo(cfg, s, a, b);
  }

  /** The running sum is exact in every run exactly if twice the budget is representable. */
  lemma SumIsExactIff(cfg: Config<nat, nat, nat>)
    requires cfg.budget <= 0xFFFF_FFFF_FFFF_FFFF
    ensures (forall evs :: Exact(Play(cfg, Fresh(), evs).tiers.mem)) <==> cfg.budget + cfg.budget <= 0xFFFF_FFFF_FFFF_FFFF
  {
    if cfg.budget + cfg.budget <= UsizeMax {
      forall evs ensures Exact(Play(cfg, Fresh(), evs).tiers.mem) { RunsStayExact(cfg, evs); }
    } else {
      var evs := PairSaturates(cfg);
    }
  }

  // ----- The cache as it runs -----

  class Cache<K(==), N(==), F> {
    const cfg: Config<K, N, F>
    var entries: map<K, Entry<F>>
    var lru: seq<K>
    var bytes: nat
    var files: map<N, File<K, F>>

    function Mem(): Memory<K, F> reads this { Memory(entries, lru, bytes) }

    function Value(): Tiers<K, N, F> reads this { Tiers(Mem(), files) }

    constructor (config: Config<K, N, F>)
      ensures cfg == config && Value() == Tiers(NoMemory(), map[])
    {
      cfg := config;
      entries, lru, bytes, files := map[], [], 0, map[];
    }

    /** Takes the first occurrence of `k` out of the list. */
    method Unlist(k: K) returns (found: bool)
      modifies this`lru
      ensures found == (k in old(lru)) && lru == RemoveFirst(old(lru), k)
    {
      var pos := 0;
      while pos < |lru| && lru[pos] != k
        invariant pos <= |lru| && k !in lru[..pos]
      {
        pos := pos + 1;
      }
      RemoveAt(lru, pos, k);
      found := pos < |lru|;
      if found { lru := lru[..pos] + lru[pos + 1..]; }
    }

    method Touch(k: K)
      modifies this`lru
      ensures Mem() == Touched(old(Mem()), k)
      ensures if k in old(lru) then MovedToBack(old(lru), lru, k) else lru == old(lru)
    {
      if k in lru { ghost var i := RemoveFirstIs(lru, k); }
      var found := Unlist(k);
      if found { lru := lru + [k]; } else { AbsentStays(old(lru), k); }
    }

    method PopOldest()
      requires lru != []
      modifies this`entries, this`lru, this`bytes
      ensures Mem() == DropOldest(old(Mem()))
    {
      var victim := lru[0];
      lru := lru[1..];
      if victim in entries {
        bytes := SatSub(bytes, entries[victim].bytes);
        entries := entries - {victim};
      }
    }

    method Evict(budget: nat)
      modifies this`entries, this`lru, this`bytes
      ensures Mem() == EvictToBudget(old(Mem()), budget)
    {
      while bytes > budget
        invariant EvictToBudget(Mem(), budget) == EvictToBudget(old(Mem()), budget)
        decreases |lru|
      {
        if lru == [] { break; }
        PopOldest();
      }
    }

    method Cap()
      modifies this`entries, this`lru, this`bytes
      ensures Mem() == CapEntries(old(Mem()))
    {
      while |entries| > MaxEntries
        invariant CapEntries(Mem()) == CapEntries(old(Mem()))
        decreases |lru|
      {
        if lru == [] { break; }
        PopOldest();
      }
    }

    method AdmitEntry(k: K, e: Entry<F>)
      modifies this`entries, this`lru, this`bytes
      ensures Mem() == Admit(old(Mem()), k, e, cfg.budget)
    {
      if k in entries {
        bytes := SatSub(bytes, entries[k].bytes);
        entries := entries - {k};
        var _ := Unlist(k);
      }
      bytes := SatAdd(bytes, e.bytes);
      entries := entries[k := e];
      lru := lru + [k];
      Evict(cfg.budget);
      Cap();
    }

    method PromoteFromDisk(k: K, e: Entry<F>)
      modifies this`entries, this`lru, this`bytes
      ensures Mem() == Accept(old(Mem()), k, e, cfg.budget)
    {
      if e.bytes > cfg.budget { return; }
      AdmitEntry(k, e);
    }

    method InsertFrame(k: K, frame: F, pixels: nat, wrote: bool, kept: set<N>)
      modifies this
      ensures Value() == Step(cfg, old(Value()), Insert(k, frame, pixels, wrote, kept))
    {
      var e := Entry(frame, EntryBytes(pixels));
      if e.bytes > cfg.budget { return; }
      AdmitEntry(k, e);
      if cfg.diskOn {
        if wrote { files := files[cfg.filename(k) := File(k, Entry(cfg.strip(frame), e.bytes))]; }
        files := Surviving(files, kept);
      }
    }

    method LookupFrame(k: K, readable: bool) returns (answer: Option<Entry<F>>)
      modifies this
      ensures Value() == Step(cfg, old(Value()), Lookup(k, readable)) && answer == Answer(cfg, old(Value()), k, readable)
    {
      if k in entries {
        Touch(k);
        return Some(entries[k]);
      }
      answer := Load(cfg, files, k, readable);
      if answer.Some? { PromoteFromDisk(k, answer.value); }
    }

    method WipeAll(left: set<N>)
      modifies this
      ensures Value() == Step(cfg, old(Value()), ClearAll(left))
    {
      entries, lru, bytes := map[], [], 0;
      if cfg.diskOn { files := Surviving(files, left); }
    }
  }

  lemma {:induction false} RemoveAt<K>(s: seq<K>, pos: nat, k: K)
    requires pos <= |s| && k !in s[..pos] && (pos < |s| ==> s[pos] == k)
    ensures RemoveFirst(s, k) == (if pos < |s| then s[..pos] + s[pos + 1..] else s) && (k in s <==> pos < |s|)
  {
    if pos > 0 {
      var tail := s[1..];
      assert tail[..pos - 1] == s[..pos][1..];
      assert s[0] == s[..pos][0] && s == [s[0]] + tail;
      RemoveAt(tail, pos - 1, k);
      if pos < |s| { assert [s[0]] + (tail[..pos - 1] + tail[pos..]) == s[..pos] + s[pos + 1..]; }
    }
  }

  lemma {:induction false} AbsentStays<K>(s: seq<K>, k: K)
    requires k !in s
    ensures RemoveFirst(s, k) == s
  {
    if s != [] { AbsentStays(s[1..], k); }
  }
}
