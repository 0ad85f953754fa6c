/**
 The task runner as a protocol: any number of workers, any number of posting threads,
 every interleaving of their atomic steps (crates/cv_base/src/task.rs:92-204).
 */
module PoolProtocol {
  import opened Common
  import opened TaskPool

  datatype Worker =
    | Contending                                  // about to take the lock
    | Waiting                                     // in `cv.wait`
    | TimedWaiting(since: Ticks, micros: nat)     // in `cv.wait_timeout`
    | RunningFree(task: TaskId)
    | RunningSequenced(sequence: SequenceId, task: TaskId)
    | Finishing(sequence: SequenceId)             // task over, sequence not yet released
    | Returned

  predicate Parked(w: Worker) { w.Waiting? || w.TimedWaiting? }

  predicate Live(w: Worker) { !w.Returned? }

  predicate Holds(w: Worker, k: SequenceId) {
    (w.RunningSequenced? || w.Finishing?) && w.sequence == k
  }

  /** Where a posted task is. */
  datatype Place = InQueue | InHeap | InSequence(k: SequenceId) | OnWorker(w: nat) | Done

  /** `pool`, `workers`, `clock` and the three counters of threads that have unlocked but
      not yet notified are the protocol state. */
  datatype State = State(
    pool: Pool,
    workers: seq<Worker>,
    clock: Ticks,
    freq: nat,
    owedByPost: nat,
    owedByDelayed: nat,
    owedByShutdown: nat,
    log: Log)

  /** The history of the run: what was posted, where each task is, when tasks started, in which order
      tasks entered and left the free queue. */
  datatype Log = Log(
    posted: nat,
    place: map<TaskId, Place>,
    deadline: map<TaskId, Ticks>,
    startedAt: map<TaskId, Ticks>,
    heapSeqs: set<nat>,
    postedOn: map<SequenceId, seq<TaskId>>,
    startedOn: map<SequenceId, seq<TaskId>>,
    entered: seq<TaskId>,
    startedFree: seq<TaskId>)

  datatype Event =
    | Post
    | PostNotify(wake: Option<nat>)
    | PostDelayed(at: Ticks, seq_: nat)
    | DelayedNotify
    | PostOnSequence(k: SequenceId, wake: Option<nat>)
    | Shutdown
    | ShutdownNotify
    | WorkerTurn(w: nat, now: Ticks, later: Ticks, after: Pool, outcome: Outcome)
    | EndFree(w: nat)
    | EndSequenced(w: nat)
    | ReleaseSequence(w: nat, wake: Option<nat>)
    | WakeUp(w: nat)                               // a timeout, or a spurious wakeup
    | Tick(now: Ticks)

  function Init(workers: nat, freq: nat): State {
    State(Pool([], [], [], map[], false), seq(workers, _ => Contending), 0, freq, 0, 0, 0,
          Log(0, map[], map[], map[], {}, map[], map[], [], []))
  }

  /** `notify_one`: wakes one parked worker, or nobody when nobody is parked. */
  predicate MayWake(workers: seq<Worker>, wake: Option<nat>) {
    match wake
    case None => forall w :: 0 <= w < |workers| ==> !Parked(workers[w])
    case Some(w) => w < |workers| && Parked(workers[w])
  }

  function WakeOne(workers: seq<Worker>, wake: Option<nat>): (r: seq<Worker>)
    requires MayWake(workers, wake)
    ensures |r| == |workers|
  {
    match wake
    case None => workers
    case Some(w) => workers[w := Contending]
  }

  /** `notify_all`. */
  function WakeAll(workers: seq<Worker>): (r: seq<Worker>)
    ensures |r| == |workers|
    ensures forall w :: 0 <= w < |workers| ==> r[w] == if Parked(workers[w]) then Contending else workers[w]
  {
    seq(|workers|, w requires 0 <= w < |workers| => if Parked(workers[w]) then Contending else workers[w])
  }

  predicate Enabled(s: State, e: Event)
    requires s.freq > 0
  {
    match e
    case Post => true
    case PostNotify(wake) => s.owedByPost > 0 && MayWake(s.workers, wake)
    case PostDelayed(_, n) => n !in s.log.heapSeqs
    case DelayedNotify => s.owedByDelayed > 0
    case PostOnSequence(_, wake) => MayWake(s.workers, wake)
    case Shutdown => true
    case ShutdownNotify => s.owedByShutdown > 0
    case WorkerTurn(w, now, later, after, outcome) =>
      && w < |s.workers| && s.workers[w].Contending?
      && s.clock <= now <= later && TurnEnds(s.pool, now, later, s.freq, after, outcome)
    case EndFree(w) => w < |s.workers| && s.workers[w].RunningFree?
    case EndSequenced(w) => w < |s.workers| && s.workers[w].RunningSequenced?
    case ReleaseSequence(w, wake) => w < |s.workers| && s.workers[w].Finishing? && MayWake(s.workers, wake)
    case WakeUp(w) => w < |s.workers| && Parked(s.workers[w])
    case Tick(now) => s.clock <= now
  }

  function HistoryOf(m: map<SequenceId, seq<TaskId>>, k: SequenceId): seq<TaskId> {
    if k in m then m[k] else []
  }

  /** The tasks a turn at `now` promotes. */
  function Batch(p: Pool, now: Ticks): seq<TaskId> { TasksOf(p.delayed[..RipeCount(p.delayed, now)]) }

  function Promoted(p: Pool, now: Ticks): set<TaskId> {
    set t | t in TasksOf(p.delayed[..RipeCount(p.delayed, now)])
  }

  function PlacesAfterPromotion(s: State, now: Ticks): map<TaskId, Place> {
    map t | t in s.log.place :: if t in Promoted(s.pool, now) then InQueue else s.log.place[t]
  }

  function ApplyTurn(s: State, w: nat, now: Ticks, later: Ticks, after: Pool, outcome: Outcome): State
    requires w < |s.workers|
  {
    var moved := s.log.(place := PlacesAfterPromotion(s, now), entered := s.log.entered + Batch(s.pool, now));
    match outcome
    case Return => s.(workers := s.workers[w := Returned], clock := later)
    case Run(Free(t)) =>
      s.(pool := after, workers := s.workers[w := RunningFree(t)], clock := later,
         log := Started(moved, t, w, now).(startedFree := moved.startedFree + [t]))
    case Run(Sequenced(k, t)) =>
      s.(pool := after, workers := s.workers[w := RunningSequenced(k, t)], clock := later,
         log := Started(moved, t, w, now).(startedOn := moved.startedOn[k := HistoryOf(moved.startedOn, k) + [t]]))
    case WaitFor(us) =>
      s.(pool := after, workers := s.workers[w := TimedWaiting(later, us)], clock := later, log := moved)
    case Wait =>
      s.(pool := after, workers := s.workers[w := Waiting], clock := later, log := moved)
  }

  function Started(log: Log, t: TaskId, w: nat, now: Ticks): Log {
    log.(place := log.place[t := OnWorker(w)], startedAt := log.startedAt[t := now])
  }

  function Posted(log: Log, place: Place): Log {
    log.(posted := log.posted + 1, place := log.place[log.posted := place])
  }

  function Ended(log: Log, t: TaskId): Log {
    log.(place := log.place[t := Done])
  }

  function Apply(s: State, e: Event): State
    requires s.freq > 0 && Enabled(s, e)
  {
    var t := s.log.posted;
    match e
    case Post =>
      s.(pool := s.pool.(queue := s.pool.queue + [t]), owedByPost := s.owedByPost + 1,
         log := Posted(s.log, InQueue).(entered := s.log.entered + [t]))
    case PostNotify(wake) => s.(workers := WakeOne(s.workers, wake), owedByPost := s.owedByPost - 1)
    case PostDelayed(at, n) =>
      s.(pool := s.pool.(delayed := HeapInsert(s.pool.delayed, DelayedTask(at, n, t))),
         owedByDelayed := s.owedByDelayed + 1,
         log := Posted(s.log, InHeap).(deadline := s.log.deadline[t := at], heapSeqs := s.log.heapSeqs + {n}))
    case DelayedNotify => s.(workers := WakeAll(s.workers), owedByDelayed := s.owedByDelayed - 1)
    case PostOnSequence(k, wake) =>
      s.(pool := s.pool.(sequences := s.pool.sequences[k := SequenceQueue(s.pool, k) + [t]]),
         workers := WakeOne(s.workers, wake),
         log := Posted(s.log, InSequence(k)).(postedOn := s.log.postedOn[k := HistoryOf(s.log.postedOn, k) + [t]]))
    case Shutdown => s.(pool := s.pool.(shutdown := true), owedByShutdown := s.owedByShutdown + 1)
    case ShutdownNotify => s.(workers := WakeAll(s.workers), owedByShutdown := s.owedByShutdown - 1)
    case WorkerTurn(w, now, later, after, outcome) => ApplyTurn(s, w, now, later, after, outcome)
    case EndFree(w) => s.(workers := s.workers[w := Contending], log := Ended(s.log, s.workers[w].task))
    case EndSequenced(w) =>
      s.(workers := s.workers[w := Finishing(s.workers[w].sequence)], log := Ended(s.log, s.workers[w].task))
    case ReleaseSequence(w, wake) =>
      s.(pool := s.pool.(running := Without(s.pool.running, s.workers[w].sequence)),
         workers := WakeOne(s.workers, wake)[w := Contending])
    case WakeUp(w) => s.(workers := s.workers[w := Contending])
    case Tick(now) => s.(clock := now)
  }

  /** The state after the events `es`, if each is enabled when its turn comes. */
  function RunEvents(s: State, es: seq<Event>): Option<State>
    requires s.freq > 0
    decreases |es|
  {
    if es == [] then Some(s)
    else if !Enabled(s, es[0]) then None
    else RunEvents(Apply(s, es[0]), es[1..])
  }

  ghost predicate Reachable(s: State) {
    exists n: nat, freq: nat, es: seq<Event> :: freq > 0 && RunEvents(Init(n, freq), es) == Some(s)
  }

  // ----- Invariants -----

  /** A sequence is marked running exactly when one worker holds it, and then only one. */
  ghost predicate SequencesExclusive(s: State) {
    && NoDuplicates(s.pool.running)
    && (forall w :: 0 <= w < |s.workers| && (s.workers[w].RunningSequenced? || s.workers[w].Finishing?)
          ==> s.workers[w].sequence in s.pool.running)
    && (forall k :: k in s.pool.running ==> exists w :: 0 <= w < |s.workers| && Holds(s.workers[w], k))
    && (forall v, w, k :: 0 <= v < w < |s.workers| && Holds(s.workers[v], k) ==> !Holds(s.workers[w], k))
  }

  /** Tasks of a sequence start in post order. */
  ghost predicate SequencesFifo(s: State) {
    forall k :: HistoryOf(s.log.startedOn, k) + SequenceQueue(s.pool, k) == HistoryOf(s.log.postedOn, k)
  }

  /** Free and promoted tasks start in the order in which they entered the queue. */
  ghost predicate FreeFifo(s: State) {
    s.log.startedFree + s.pool.queue == s.log.entered
  }

  ghost predicate HeapOk(s: State) {
    && InHeapOrder(s.pool.delayed)
    && (forall i :: 0 <= i < |s.pool.delayed| ==> s.pool.delayed[i].seq_ in s.log.heapSeqs)
    && (forall i :: 0 <= i < |s.pool.delayed| ==>
          s.pool.delayed[i].task in s.log.deadline && s.log.deadline[s.pool.delayed[i].task] == s.pool.delayed[i].at)
  }

  ghost predicate QueuePlaces(queue: seq<TaskId>, place: map<TaskId, Place>) {
    NoDuplicates(queue) && forall t :: t in queue <==> t in place && place[t] == InQueue
  }

  ghost predicate HeapPlaces(tasks: seq<TaskId>, place: map<TaskId, Place>) {
    NoDuplicates(tasks) && forall t :: t in tasks <==> t in place && place[t] == InHeap
  }

  ghost predicate SequencePlaces(sequences: map<SequenceId, seq<TaskId>>, place: map<TaskId, Place>) {
    && (forall k :: k in sequences ==> NoDuplicates(sequences[k]))
    && (forall k, t :: k in sequences && t in sequences[k] ==> t in place && place[t] == InSequence(k))
    && (forall t :: t in place && place[t].InSequence? ==> place[t].k in sequences && t in sequences[place[t].k])
  }

  ghost predicate WorkerPlaces(workers: seq<Worker>, place: map<TaskId, Place>) {
    && (forall w, t :: 0 <= w < |workers| && Runs(workers[w], t) ==> t in place && place[t] == OnWorker(w))
    && (forall t :: t in place && place[t].OnWorker? ==> place[t].w < |workers| && Runs(workers[place[t].w], t))
  }

  /** `place` is a function, so each task is in exactly one container, once. */
  ghost predicate PlacesOk(s: State) {
    && (forall t: nat :: t in s.log.place <==> t < s.log.posted)
    && QueuePlaces(s.pool.queue, s.log.place) && HeapPlaces(TasksOf(s.pool.delayed), s.log.place)
    && SequencePlaces(s.pool.sequences, s.log.place) && WorkerPlaces(s.workers, s.log.place)
  }

  predicate Runs(w: Worker, t: TaskId) {
    (w.RunningFree? || w.RunningSequenced?) && w.task == t
  }

  ghost predicate DeadlinesOk(log: Log, clock: Ticks) {
    && (forall t :: t in log.deadline ==> t in log.place)
    && (forall t :: t in log.deadline && log.place[t] != InHeap ==> log.deadline[t] <= clock)
    && (forall t :: t in log.startedAt ==> t in log.place && log.startedAt[t] <= clock)
    && (forall t :: t in log.deadline && t in log.startedAt ==> log.deadline[t] <= log.startedAt[t])
  }

  predicate Runnable(p: Pool) {
    p.queue != [] || exists k :: k in p.sequences && Ready(p, k)
  }

  ghost predicate SomeoneLive(s: State) {
    exists w :: 0 <= w < |s.workers| && Live(s.workers[w])
  }

  ghost predicate SomeoneUp(s: State) {
    exists w :: 0 <= w < |s.workers| && Live(s.workers[w]) && !Parked(s.workers[w])
  }

  /** A timed wait that began at `since` ends no later than deadline `at` (or at once). */
  predicate WakesBy(w: Worker, at: Ticks, freq: nat)
    requires w.TimedWaiting?
  {
    w.micros * freq <= (if at <= w.since then 0 else (at - w.since) * 1_000_000)
  }

  ghost predicate NobodyStuck(s: State) {
    Runnable(s.pool) && SomeoneLive(s) && s.owedByPost == 0 ==> SomeoneUp(s)
  }

  ghost predicate TimersOk(s: State) {
    && (s.owedByDelayed == 0 && s.pool.delayed != [] ==>
          forall w :: 0 <= w < |s.workers| ==> !s.workers[w].Waiting?)
    && (s.owedByDelayed == 0 ==>
          forall w, i :: 0 <= w < |s.workers| && 0 <= i < |s.pool.delayed| && s.workers[w].TimedWaiting? ==>
            WakesBy(s.workers[w], s.pool.delayed[i].at, s.freq))
    && (forall w :: 0 <= w < |s.workers| && s.workers[w].TimedWaiting? ==> s.workers[w].since <= s.clock)
  }

  ghost predicate Inv(s: State) {
    && s.freq > 0 && SequencesExclusive(s) && SequencesFifo(s) && FreeFifo(s) && HeapOk(s) && PlacesOk(s) && DeadlinesOk(s.log, s.clock)
    && NobodyStuck(s) && TimersOk(s)
  }

  // ----- Facts about the pool functions -----

  lemma {:induction false} RipePrefix(ds: seq<DelayedTask>, now: Ticks)
    ensures var n := RipeCount(ds, now);
            && (forall i :: 0 <= i < n ==> ds[i].at <= now)
            && (n < |ds| ==> ds[n].at > now)
  {
    if ds != [] && ds[0].at <= now {
      RipePrefix(ds[1..], now);
    }
  }

  /** Insertion puts `d` at one position and keeps everything else in place. */
  lemma {:induction false} HeapInsertSplits(ds: seq<DelayedTask>, d: DelayedTask) returns (i: nat)
    ensures i <= |ds| && HeapInsert(ds, d) == ds[..i] + [d] + ds[i..]
    ensures i < |ds| ==> Precedes(d, ds[i])
    ensures forall j :: 0 <= j < i ==> !Precedes(d, ds[j])
  {
    if ds == [] || Precedes(d, ds[0]) {
      i := 0;
    } else {
      var k := HeapInsertSplits(ds[1..], d);
      i := k + 1;
      assert [ds[0]] + (ds[1..][..k] + [d] + ds[1..][k..]) == ds[..i] + [d] + ds[i..];
    }
  }

  lemma {:induction false} HeapInsertKeepsOrder(ds: seq<DelayedTask>, d: DelayedTask)
    requires InHeapOrder(ds) && forall i :: 0 <= i < |ds| ==> ds[i].seq_ != d.seq_
    ensures InHeapOrder(HeapInsert(ds, d))
    ensures forall x :: x in HeapInsert(ds, d) <==> x in ds || x == d
  {
    if ds == [] {
    } else if Precedes(d, ds[0]) {
      assert forall x :: x in ds ==> x == ds[0] || Precedes(ds[0], x);
    } else {
      var tail := HeapInsert(ds[1..], d);
      HeapInsertKeepsOrder(ds[1..], d);
      assert forall x :: x in ds <==> x == ds[0] || x in ds[1..];
      assert forall x :: x in tail ==> Precedes(ds[0], x);
    }
  }

  lemma InsertDistinct(ts: seq<TaskId>, i: nat, t: TaskId)
    requires NoDuplicates(ts) && t !in ts && i <= |ts|
    ensures NoDuplicates(ts[..i] + [t] + ts[i..])
    ensures forall x :: x in ts[..i] + [t] + ts[i..] <==> x in ts || x == t
  {
    assert ts == ts[..i] + ts[i..];
  }

  lemma TasksOfInserted(ds: seq<DelayedTask>, i: nat, d: DelayedTask)
    requires i <= |ds|
    ensures TasksOf(ds[..i] + [d] + ds[i..]) == TasksOf(ds)[..i] + [d.task] + TasksOf(ds)[i..]
  {
  }

  lemma HeapInsertTasks(ds: seq<DelayedTask>, d: DelayedTask)
    requires NoDuplicates(TasksOf(ds)) && d.task !in TasksOf(ds)
    ensures NoDuplicates(TasksOf(HeapInsert(ds, d)))
    ensures forall t :: t in TasksOf(HeapInsert(ds, d)) <==> t in TasksOf(ds) || t == d.task
  {
    var i := HeapInsertSplits(ds, d);
    TasksOfInserted(ds, i, d);
    InsertDistinct(TasksOf(ds), i, d.task);
  }

  lemma TasksOfSplit(ds: seq<DelayedTask>, n: nat)
    requires n <= |ds|
    ensures TasksOf(ds) == TasksOf(ds[..n]) + TasksOf(ds[n..])
  {
  }

  /** Promotion cuts the heap: what is due leaves it, what is not stays in order. */
  lemma HeapCut(ds: seq<DelayedTask>, now: Ticks)
    requires InHeapOrder(ds)
    ensures var n := RipeCount(ds, now);
            && InHeapOrder(ds[..n]) && InHeapOrder(ds[n..])
            && (forall d :: d in ds[..n] ==> d in ds && d.at <= now)
            && (forall d :: d in ds[n..] ==> d in ds && d.at > now)
  {
    var n := RipeCount(ds, now);
    RipePrefix(ds, now);
    assert forall i :: n < i < |ds| ==> Precedes(ds[n], ds[i]);
  }

  lemma MemberHasTask(ds: seq<DelayedTask>, t: TaskId) returns (d: DelayedTask)
    requires t in TasksOf(ds)
    ensures d in ds && d.task == t
  {
    var i :| 0 <= i < |ds| && TasksOf(ds)[i] == t;
    d := ds[i];
  }

  /** `after` differs from `before` only in tasks of the heap, which go to the queue at most. */
  ghost predicate OnlyHeapMoves(before: map<TaskId, Place>, after: map<TaskId, Place>) {
    && (forall t :: t in before <==> t in after)
    && (forall t :: t in before && before[t] != InHeap ==> after[t] == before[t])
    && (forall t :: t in before && before[t] == InHeap ==> after[t] == InQueue || after[t] == InHeap)
  }

  lemma RipeMoves(queue: seq<TaskId>, ripe: seq<TaskId>, rest: seq<TaskId>, before: map<TaskId, Place>, after: map<TaskId, Place>)
    requires QueuePlaces(queue, before) && HeapPlaces(ripe + rest, before)
    requires after == map t | t in before :: if t in ripe then InQueue else before[t]
    ensures QueuePlaces(queue + ripe, after) && HeapPlaces(rest, after) && OnlyHeapMoves(before, after)
  {
    SplitDistinct(ripe, rest);
    assert forall t :: t in ripe + rest <==> t in ripe || t in rest;
    JoinDistinct(queue, ripe);
  }

  lemma PromotedAreDue(s: State, now: Ticks)
    requires HeapOk(s)
    ensures forall t :: t in Promoted(s.pool, now) ==> t in s.log.deadline && s.log.deadline[t] <= now
  {
    var ds, n := s.pool.delayed, RipeCount(s.pool.delayed, now);
    HeapCut(ds, now);
    forall t | t in TasksOf(ds[..n]) ensures t in s.log.deadline && s.log.deadline[t] <= now {
      var d := MemberHasTask(ds[..n], t);
      var i :| 0 <= i < |ds| && ds[i] == d;
    }
  }

  /** What promotion does to the queue, the heap and the place of every task. */
  lemma PromotionPlaces(s: State, now: Ticks)
    requires PlacesOk(s)
    ensures QueuePlaces(Promote(s.pool, now).queue, PlacesAfterPromotion(s, now))
    ensures HeapPlaces(TasksOf(Promote(s.pool, now).delayed), PlacesAfterPromotion(s, now))
    ensures OnlyHeapMoves(s.log.place, PlacesAfterPromotion(s, now))
  {
    var ds, n := s.pool.delayed, RipeCount(s.pool.delayed, now);
    TasksOfSplit(ds, n);
    RipeMoves(s.pool.queue, TasksOf(ds[..n]), TasksOf(ds[n..]), s.log.place, PlacesAfterPromotion(s, now));
  }

  // ----- Every step keeps every invariant -----

  lemma SameHolders(s: State, s': State)
    requires SequencesExclusive(s) && |s'.workers| == |s.workers| && s'.pool.running == s.pool.running
    requires forall w, k :: 0 <= w < |s.workers| ==> Holds(s'.workers[w], k) == Holds(s.workers[w], k)
    ensures SequencesExclusive(s')
  {
    forall k | k in s'.pool.running ensures exists w :: 0 <= w < |s'.workers| && Holds(s'.workers[w], k) {
      var w :| 0 <= w < |s.workers| && Holds(s.workers[w], k);
      assert Holds(s'.workers[w], k);
    }
    forall w | 0 <= w < |s'.workers| && (s'.workers[w].RunningSequenced? || s'.workers[w].Finishing?)
      ensures s'.workers[w].sequence in s'.pool.running
    {
      assert Holds(s.workers[w], s'.workers[w].sequence);
    }
  }

  lemma ReleaseExclusive(s: State, s': State, w: nat)
    requires SequencesExclusive(s) && w < |s.workers| == |s'.workers| && s.workers[w].Finishing?
    requires s'.workers[w].Contending? && s'.pool.running == Without(s.pool.running, s.workers[w].sequence)
    requires forall v, k :: 0 <= v < |s.workers| && v != w ==> Holds(s'.workers[v], k) == Holds(s.workers[v], k)
    ensures SequencesExclusive(s')
  {
    var k := s.workers[w].sequence;
    assert Holds(s.workers[w], k);
    forall j | j in s'.pool.running ensures exists v :: 0 <= v < |s'.workers| && Holds(s'.workers[v], j) {
      var v :| 0 <= v < |s.workers| && Holds(s.workers[v], j);
      assert Holds(s'.workers[v], j);
    }
    forall v | 0 <= v < |s'.workers| && (s'.workers[v].RunningSequenced? || s'.workers[v].Finishing?)
      ensures s'.workers[v].sequence in s'.pool.running
    {
      assert Holds(s.workers[v], s'.workers[v].sequence);
    }
  }

  /** A worker that held nothing takes nothing, or one sequence nobody held. */
  lemma TurnExclusive(s: State, s': State, w: nat)
    requires SequencesExclusive(s) && w < |s.workers| == |s'.workers| && s.workers[w].Contending?
    requires s'.workers == s.workers[w := s'.workers[w]] && !s'.workers[w].Finishing?
    requires if s'.workers[w].RunningSequenced?
             then s'.workers[w].sequence !in s.pool.running
                  && s'.pool.running == s.pool.running + [s'.workers[w].sequence]
             else s'.pool.running == s.pool.running
    ensures SequencesExclusive(s')
  {
    forall k | k in s'.pool.running ensures exists v :: 0 <= v < |s'.workers| && Holds(s'.workers[v], k) {
      if k in s.pool.running {
        var v :| 0 <= v < |s.workers| && Holds(s.workers[v], k);
        assert Holds(s'.workers[v], k);
      } else {
        assert Holds(s'.workers[w], k);
      }
    }
    forall u, v, k | 0 <= u < v < |s'.workers| && Holds(s'.workers[u], k) ensures !Holds(s'.workers[v], k) {
      if u != w && v != w {
        assert Holds(s.workers[u], k);
      }
    }
  }

  lemma WakingHolds(workers: seq<Worker>, wake: Option<nat>)
    requires MayWake(workers, wake)
    ensures forall w, k :: 0 <= w < |workers| ==> Holds(WakeOne(workers, wake)[w], k) == Holds(workers[w], k)
  {
  }

  lemma NotifyExclusive(s: State, e: Event)
    requires s.freq > 0 && SequencesExclusive(s) && Enabled(s, e) && (e.PostNotify? || e.PostOnSequence?)
    ensures SequencesExclusive(Apply(s, e))
  {
    WakingHolds(s.workers, e.wake);
    SameHolders(s, Apply(s, e));
  }

  lemma EndExclusive(s: State, e: Event)
    requires s.freq > 0 && SequencesExclusive(s) && Enabled(s, e) && (e.EndFree? || e.EndSequenced? || e.WakeUp?)
    ensures SequencesExclusive(Apply(s, e))
  {
    SameHolders(s, Apply(s, e));
  }

  lemma NotifyAllExclusive(s: State, e: Event)
    requires s.freq > 0 && SequencesExclusive(s) && Enabled(s, e) && (e.DelayedNotify? || e.ShutdownNotify?)
    ensures SequencesExclusive(Apply(s, e))
  {
    SameHolders(s, Apply(s, e));
  }

  lemma ExclusiveStep(s: State, e: Event)
    requires s.freq > 0 && SequencesExclusive(s) && Enabled(s, e)
    ensures SequencesExclusive(Apply(s, e))
  {
    match e
    case WorkerTurn(w, _, _, _, _) => TurnExclusive(s, Apply(s, e), w);
    case ReleaseSequence(w, wake) =>
      WakingHolds(s.workers, wake);
      ReleaseExclusive(s, Apply(s, e), w);
    case PostNotify(_) => NotifyExclusive(s, e);
    case PostOnSequence(_, _) => NotifyExclusive(s, e);
    case DelayedNotify => NotifyAllExclusive(s, e);
    case ShutdownNotify => NotifyAllExclusive(s, e);
    case EndFree(_) => EndExclusive(s, e);
    case EndSequenced(_) => EndExclusive(s, e);
    case WakeUp(_) => EndExclusive(s, e);
    case _ => SameHolders(s, Apply(s, e));
  }

  lemma HeadMoves(a: seq<TaskId>, b: seq<TaskId>)
    requires b != []
    ensures (a + [b[0]]) + b[1..] == a + b
  {
  }

  lemma FifoTurn(s: State, e: Event, k: SequenceId)
    requires s.freq > 0 && Enabled(s, e) && e.WorkerTurn?
    requires HistoryOf(s.log.startedOn, k) + SequenceQueue(s.pool, k) == HistoryOf(s.log.postedOn, k)
    ensures var s' := Apply(s, e);
            HistoryOf(s'.log.startedOn, k) + SequenceQueue(s'.pool, k) == HistoryOf(s'.log.postedOn, k)
  {
    if e.outcome.Run? && e.outcome.work.Sequenced? && e.outcome.work.sequence == k {
      HeadMoves(HistoryOf(s.log.startedOn, k), SequenceQueue(s.pool, k));
    } else {
      assert SequenceQueue(e.after, k) == SequenceQueue(s.pool, k);
    }
  }

  lemma FifoStep(s: State, e: Event)
    requires s.freq > 0 && SequencesFifo(s) && Enabled(s, e)
    ensures SequencesFifo(Apply(s, e))
  {
    var s' := Apply(s, e);
    forall k ensures HistoryOf(s'.log.startedOn, k) + SequenceQueue(s'.pool, k) == HistoryOf(s'.log.postedOn, k) {
      var started, queue := HistoryOf(s.log.startedOn, k), SequenceQueue(s.pool, k);
      assert started + queue == HistoryOf(s.log.postedOn, k);
      match e
      case WorkerTurn(_, _, _, _, _) => FifoTurn(s, e, k);
      case PostOnSequence(_, _) => assert started + (queue + [s.log.posted]) == (started + queue) + [s.log.posted];
      case _ =>
    }
  }

  lemma FreeTurn(s: State, e: Event)
    requires s.freq > 0 && FreeFifo(s) && Enabled(s, e) && e.WorkerTurn?
    ensures FreeFifo(Apply(s, e))
  {
    if !e.outcome.Return? {
      var started, queue, batch := s.log.startedFree, s.pool.queue, Batch(s.pool, e.now);
      assert started + (queue + batch) == (started + queue) + batch;
      if e.outcome.Run? && e.outcome.work.Free? { HeadMoves(started, queue + batch); }
    }
  }

  lemma FreeStep(s: State, e: Event)
    requires s.freq > 0 && FreeFifo(s) && Enabled(s, e)
    ensures FreeFifo(Apply(s, e))
  {
    match e
    case WorkerTurn(_, _, _, _, _) => FreeTurn(s, e);
    case Post => assert s.log.startedFree + (s.pool.queue + [s.log.posted]) == (s.log.startedFree + s.pool.queue) + [s.log.posted];
    case _ =>
  }

  lemma HeapAfterPost(s: State, at: Ticks, n: nat)
    requires HeapOk(s) && PlacesOk(s) && n !in s.log.heapSeqs
    ensures var ds := HeapInsert(s.pool.delayed, DelayedTask(at, n, s.log.posted));
            var deadline := s.log.deadline[s.log.posted := at];
            && InHeapOrder(ds)
            && (forall i :: 0 <= i < |ds| ==> ds[i].seq_ in s.log.heapSeqs + {n})
            && (forall i :: 0 <= i < |ds| ==> ds[i].task in deadline && deadline[ds[i].task] == ds[i].at)
  {
    var d := DelayedTask(at, n, s.log.posted);
    var ds := HeapInsert(s.pool.delayed, d);
    HeapInsertKeepsOrder(s.pool.delayed, d);
    forall x | x in ds ensures x == d || (x.seq_ in s.log.heapSeqs && x.task != s.log.posted
      && x.task in s.log.deadline && s.log.deadline[x.task] == x.at)
    {
      if x != d {
        var i :| 0 <= i < |s.pool.delayed| && s.pool.delayed[i] == x;
        assert TasksOf(s.pool.delayed)[i] == x.task;
        assert x.task in TasksOf(s.pool.delayed);
      }
    }
    assert forall i :: 0 <= i < |ds| ==> ds[i] in ds;
  }

  /** A turn that does not return leaves exactly the heap entries that are not yet due. */
  lemma TurnHeap(p: Pool, now: Ticks, later: Ticks, freq: nat, q: Pool, o: Outcome)
    requires freq > 0 && TurnEnds(p, now, later, freq, q, o)
    ensures o.Return? ==> q == p && p.delayed == []
    ensures !o.Return? ==> q.delayed == Promote(p, now).delayed
  {
  }

  lemma HeapStep(s: State, e: Event)
    requires s.freq > 0 && HeapOk(s) && PlacesOk(s) && Enabled(s, e)
    ensures HeapOk(Apply(s, e))
  {
    match e
    case PostDelayed(at, n) => HeapAfterPost(s, at, n);
    case WorkerTurn(w, now, later, after, o) => HeapTurn(s, Apply(s, e), now, later, after, o);
    case _ =>
  }

  lemma HeapTurn(s: State, s': State, now: Ticks, later: Ticks, after: Pool, o: Outcome)
    requires s.freq > 0 && HeapOk(s) && TurnEnds(s.pool, now, later, s.freq, after, o)
    requires s'.pool == after && s'.log.deadline == s.log.deadline && s'.log.heapSeqs == s.log.heapSeqs
    ensures HeapOk(s')
  {
    TurnHeap(s.pool, now, later, s.freq, after, o);
    HeapCut(s.pool.delayed, now);
    forall i | 0 <= i < |after.delayed| ensures after.delayed[i] in s.pool.delayed {
    }
  }

  lemma SamePlaces(s: State, s': State)
    requires PlacesOk(s) && |s'.workers| == |s.workers|
    requires s'.pool.queue == s.pool.queue && s'.pool.delayed == s.pool.delayed && s'.pool.sequences == s.pool.sequences
    requires s'.log.place == s.log.place && s'.log.posted == s.log.posted
    requires forall w, t :: 0 <= w < |s.workers| ==> Runs(s'.workers[w], t) == Runs(s.workers[w], t)
    ensures PlacesOk(s')
  {
  }

  /** Task `t` goes to `p`, and neither leaves nor enters the containers named. */
  lemma QueueElsewhere(queue: seq<TaskId>, place: map<TaskId, Place>, t: TaskId, p: Place)
    requires QueuePlaces(queue, place) && p != InQueue && (t in place ==> place[t] != InQueue)
    ensures QueuePlaces(queue, place[t := p])
  {
  }

  lemma HeapElsewhere(tasks: seq<TaskId>, place: map<TaskId, Place>, t: TaskId, p: Place)
    requires HeapPlaces(tasks, place) && p != InHeap && (t in place ==> place[t] != InHeap)
    ensures HeapPlaces(tasks, place[t := p])
  {
  }

  lemma SequencesElsewhere(sequences: map<SequenceId, seq<TaskId>>, place: map<TaskId, Place>, t: TaskId, p: Place)
    requires SequencePlaces(sequences, place) && !p.InSequence? && (t in place ==> !place[t].InSequence?)
    ensures SequencePlaces(sequences, place[t := p])
  {
  }

  lemma WorkersElsewhere(workers: seq<Worker>, place: map<TaskId, Place>, t: TaskId, p: Place)
    requires WorkerPlaces(workers, place) && !p.OnWorker? && (t in place ==> !place[t].OnWorker?)
    ensures WorkerPlaces(workers, place[t := p])
  {
  }

  /** Worker `w` takes `t`. */
  lemma WorkerTakes(workers: seq<Worker>, place: map<TaskId, Place>, w: nat, x: Worker, t: TaskId)
    requires WorkerPlaces(workers, place) && w < |workers| && (t in place ==> !place[t].OnWorker?)
    requires !workers[w].RunningFree? && !workers[w].RunningSequenced? && Runs(x, t)
    ensures WorkerPlaces(workers[w := x], place[t := OnWorker(w)])
  {
  }

  /** Worker `w` is done with its task. */
  lemma WorkerEnds(workers: seq<Worker>, place: map<TaskId, Place>, w: nat, x: Worker, t: TaskId)
    requires WorkerPlaces(workers, place) && w < |workers| && Runs(workers[w], t) && !x.RunningFree? && !x.RunningSequenced?
    ensures t in place && place[t] == OnWorker(w) && WorkerPlaces(workers[w := x], place[t := Done])
  {
  }

  lemma PostPlaces(s: State, s': State)
    requires PlacesOk(s) && s'.workers == s.workers
    requires s'.pool.queue == s.pool.queue + [s.log.posted]
    requires s'.pool.delayed == s.pool.delayed && s'.pool.sequences == s.pool.sequences
    requires s'.log.place == s.log.place[s.log.posted := InQueue] && s'.log.posted == s.log.posted + 1
    ensures PlacesOk(s')
  {
    var t, place := s.log.posted, s.log.place;
    JoinDistinct(s.pool.queue, [t]);
    HeapElsewhere(TasksOf(s.pool.delayed), place, t, InQueue);
    SequencesElsewhere(s.pool.sequences, place, t, InQueue);
    WorkersElsewhere(s.workers, place, t, InQueue);
  }

  lemma PostDelayedPlaces(s: State, s': State, at: Ticks, n: nat)
    requires PlacesOk(s) && s'.workers == s.workers
    requires s'.pool.queue == s.pool.queue && s'.pool.sequences == s.pool.sequences
    requires s'.pool.delayed == HeapInsert(s.pool.delayed, DelayedTask(at, n, s.log.posted))
    requires s'.log.place == s.log.place[s.log.posted := InHeap] && s'.log.posted == s.log.posted + 1
    ensures PlacesOk(s')
  {
    var t, place := s.log.posted, s.log.place;
    HeapInsertTasks(s.pool.delayed, DelayedTask(at, n, t));
    QueueElsewhere(s.pool.queue, place, t, InHeap);
    SequencesElsewhere(s.pool.sequences, place, t, InHeap);
    WorkersElsewhere(s.workers, place, t, InHeap);
  }

  lemma SequenceGains(sequences: map<SequenceId, seq<TaskId>>, place: map<TaskId, Place>, k: SequenceId, t: TaskId)
    requires SequencePlaces(sequences, place) && t !in place
    ensures var queue := if k in sequences then sequences[k] else [];
            SequencePlaces(sequences[k := queue + [t]], place[t := InSequence(k)])
  {
    JoinDistinct(if k in sequences then sequences[k] else [], [t]);
  }

  lemma PostSequencePlaces(s: State, s': State, k: SequenceId)
    requires PlacesOk(s) && s'.workers == s.workers
    requires s'.pool.queue == s.pool.queue && s'.pool.delayed == s.pool.delayed
    requires s'.pool.sequences == s.pool.sequences[k := SequenceQueue(s.pool, k) + [s.log.posted]]
    requires s'.log.place == s.log.place[s.log.posted := InSequence(k)] && s'.log.posted == s.log.posted + 1
    ensures PlacesOk(s')
  {
    var t, place := s.log.posted, s.log.place;
    SequenceGains(s.pool.sequences, place, k, t);
    QueueElsewhere(s.pool.queue, place, t, InSequence(k));
    HeapElsewhere(TasksOf(s.pool.delayed), place, t, InSequence(k));
    WorkersElsewhere(s.workers, place, t, InSequence(k));
  }

  lemma EndPlaces(s: State, s': State, w: nat)
    requires PlacesOk(s) && s'.pool == s.pool && s'.log.posted == s.log.posted
    requires w < |s.workers| && (s.workers[w].RunningFree? || s.workers[w].RunningSequenced?)
    requires |s'.workers| == |s.workers| && s'.workers == s.workers[w := s'.workers[w]]
    requires s'.workers[w].Contending? || s'.workers[w].Finishing?
    requires s'.log.place == s.log.place[s.workers[w].task := Done]
    ensures PlacesOk(s')
  {
    var t, place := s.workers[w].task, s.log.place;
    WorkerEnds(s.workers, place, w, s'.workers[w], t);
    QueueElsewhere(s.pool.queue, place, t, Done);
    HeapElsewhere(TasksOf(s.pool.delayed), place, t, Done);
    SequencesElsewhere(s.pool.sequences, place, t, Done);
  }

  lemma PromotedPlaces(s: State, now: Ticks)
    requires PlacesOk(s)
    ensures PlacesOk(s.(pool := Promote(s.pool, now), log := s.log.(place := PlacesAfterPromotion(s, now))))
  {
    PromotionPlaces(s, now);
    WorkersUnmoved(s.workers, s.log.place, PlacesAfterPromotion(s, now));
    SequencesUnmoved(s.pool.sequences, s.log.place, PlacesAfterPromotion(s, now));
  }

  lemma WorkersUnmoved(workers: seq<Worker>, before: map<TaskId, Place>, after: map<TaskId, Place>)
    requires WorkerPlaces(workers, before) && OnlyHeapMoves(before, after)
    ensures WorkerPlaces(workers, after)
  {
  }

  lemma SequencesUnmoved(sequences: map<SequenceId, seq<TaskId>>, before: map<TaskId, Place>, after: map<TaskId, Place>)
    requires SequencePlaces(sequences, before) && OnlyHeapMoves(before, after)
    ensures SequencePlaces(sequences, after)
  {
  }

  lemma HeadLeavesSequence(sequences: map<SequenceId, seq<TaskId>>, place: map<TaskId, Place>, k: SequenceId, w: nat)
    requires SequencePlaces(sequences, place) && k in sequences && sequences[k] != []
    ensures sequences[k][0] in place && place[sequences[k][0]] == InSequence(k)
    ensures SequencePlaces(sequences[k := sequences[k][1..]], place[sequences[k][0] := OnWorker(w)])
  {
    var queue := sequences[k];
    assert queue[0] in queue;
    assert queue == [queue[0]] + queue[1..];
    SplitDistinct([queue[0]], queue[1..]);
    assert forall t :: t in queue <==> t == queue[0] || t in queue[1..];
  }

  lemma HeadLeavesQueue(queue: seq<TaskId>, place: map<TaskId, Place>, w: nat)
    requires QueuePlaces(queue, place) && queue != []
    ensures queue[0] in place && place[queue[0]] == InQueue
    ensures QueuePlaces(queue[1..], place[queue[0] := OnWorker(w)])
  {
    assert queue[0] in queue;
    assert queue == [queue[0]] + queue[1..];
    SplitDistinct([queue[0]], queue[1..]);
    assert forall t :: t in queue <==> t == queue[0] || t in queue[1..];
  }

  lemma TakeFreePlaces(s: State, s': State, w: nat)
    requires PlacesOk(s) && s.pool.queue != [] && s'.log.posted == s.log.posted
    requires w < |s.workers| && s.workers[w].Contending?
    requires s'.workers == s.workers[w := RunningFree(s.pool.queue[0])]
    requires s'.pool == s.pool.(queue := s.pool.queue[1..])
    requires s'.log.place == s.log.place[s.pool.queue[0] := OnWorker(w)]
    ensures PlacesOk(s')
  {
    var t, place := s.pool.queue[0], s.log.place;
    HeadLeavesQueue(s.pool.queue, place, w);
    WorkerTakes(s.workers, place, w, RunningFree(t), t);
    HeapElsewhere(TasksOf(s.pool.delayed), place, t, OnWorker(w));
    SequencesElsewhere(s.pool.sequences, place, t, OnWorker(w));
  }

  lemma TakeSequencedPlaces(s: State, s': State, w: nat, k: SequenceId)
    requires PlacesOk(s) && Ready(s.pool, k) && s'.log.posted == s.log.posted
    requires w < |s.workers| && s.workers[w].Contending?
    requires s'.workers == s.workers[w := RunningSequenced(k, s.pool.sequences[k][0])]
    requires s'.pool == TakeFrom(s.pool, k)
    requires s'.log.place == s.log.place[s.pool.sequences[k][0] := OnWorker(w)]
    ensures PlacesOk(s')
  {
    var t, place := s.pool.sequences[k][0], s.log.place;
    HeadLeavesSequence(s.pool.sequences, place, k, w);
    WorkerTakes(s.workers, place, w, RunningSequenced(k, t), t);
    QueueElsewhere(s.pool.queue, place, t, OnWorker(w));
    HeapElsewhere(TasksOf(s.pool.delayed), place, t, OnWorker(w));
  }

  lemma TurnPlaces(s: State, e: Event)
    requires s.freq > 0 && HeapOk(s) && PlacesOk(s) && Enabled(s, e) && e.WorkerTurn?
    ensures PlacesOk(Apply(s, e))
  {
    var s' := Apply(s, e);
    var m := s.(pool := Promote(s.pool, e.now), log := s.log.(place := PlacesAfterPromotion(s, e.now)));
    PromotedPlaces(s, e.now);
    match e.outcome
    case Return => SamePlaces(s, s');
    case Run(Free(t)) => TakeFreePlaces(m, s', e.w);
    case Run(Sequenced(k, t)) => TakeSequencedPlaces(m, s', e.w, k);
    case WaitFor(_) => SamePlaces(m, s');
    case Wait => SamePlaces(m, s');
  }

  lemma PlacesStep(s: State, e: Event)
    requires s.freq > 0 && HeapOk(s) && PlacesOk(s) && Enabled(s, e)
    ensures PlacesOk(Apply(s, e))
  {
    match e
    case Post => PostPlaces(s, Apply(s, e));
    case PostDelayed(at, n) => PostDelayedPlaces(s, Apply(s, e), at, n);
    case PostOnSequence(k, wake) =>
      var woken := s.(workers := WakeOne(s.workers, wake));
      SamePlaces(s, woken);
      PostSequencePlaces(woken, Apply(s, e), k);
    case WorkerTurn(_, _, _, _, _) => TurnPlaces(s, e);
    case EndFree(w) => EndPlaces(s, Apply(s, e), w);
    case EndSequenced(w) => EndPlaces(s, Apply(s, e), w);
    case _ => SamePlaces(s, Apply(s, e));
  }

  /** Tasks leave the heap only at a time `now` that is past their deadline. */
  lemma DeadlinesPromoted(s: State, now: Ticks)
    requires HeapOk(s) && PlacesOk(s) && DeadlinesOk(s.log, s.clock) && s.clock <= now
    ensures DeadlinesOk(s.log.(place := PlacesAfterPromotion(s, now)), now)
  {
    PromotionPlaces(s, now);
    PromotedAreDue(s, now);
  }

  lemma DeadlinesLater(log: Log, log': Log, clock: Ticks, later: Ticks)
    requires DeadlinesOk(log, clock) && clock <= later
    requires log'.place == log.place && log'.deadline == log.deadline && log'.startedAt == log.startedAt
    ensures DeadlinesOk(log', later)
  {
  }

  lemma DeadlinesStarted(log: Log, t: TaskId, w: nat, now: Ticks)
    requires DeadlinesOk(log, now) && t in log.place && log.place[t] != InHeap
    ensures DeadlinesOk(Started(log, t, w, now), now)
  {
  }

  lemma DeadlinesRun(s: State, e: Event)
    requires s.freq > 0 && HeapOk(s) && PlacesOk(s) && DeadlinesOk(s.log, s.clock) && Enabled(s, e) && e.WorkerTurn? && e.outcome.Run?
    ensures DeadlinesOk(Apply(s, e).log, e.later)
  {
    var moved := s.log.(place := PlacesAfterPromotion(s, e.now));
    DeadlinesPromoted(s, e.now);
    PickedWasNotInHeap(s, e);
    DeadlinesStarted(moved, e.outcome.work.task, e.w, e.now);
    DeadlinesLater(Started(moved, e.outcome.work.task, e.w, e.now), Apply(s, e).log, e.now, e.later);
  }

  lemma DeadlinesTurn(s: State, e: Event)
    requires s.freq > 0 && HeapOk(s) && PlacesOk(s) && DeadlinesOk(s.log, s.clock) && Enabled(s, e) && e.WorkerTurn?
    ensures DeadlinesOk(Apply(s, e).log, e.later)
  {
    if e.outcome.Run? {
      DeadlinesRun(s, e);
    } else if e.outcome.Return? {
      DeadlinesLater(s.log, s.log, s.clock, e.later);
    } else {
      DeadlinesPromoted(s, e.now);
      DeadlinesLater(s.log.(place := PlacesAfterPromotion(s, e.now)), Apply(s, e).log, e.now, e.later);
    }
  }

  lemma PickedWasNotInHeap(s: State, e: Event)
    requires s.freq > 0 && HeapOk(s) && PlacesOk(s) && Enabled(s, e) && e.WorkerTurn? && e.outcome.Run?
    ensures var moved := PlacesAfterPromotion(s, e.now);
            e.outcome.work.task in moved && moved[e.outcome.work.task] != InHeap
  {
    PromotionPlaces(s, e.now);
    match e.outcome.work
    case Free(t) => assert t in Promote(s.pool, e.now).queue;
    case Sequenced(k, t) => assert t in s.pool.sequences[k] && s.log.place[t] == InSequence(k);
  }

  lemma DeadlinesPosted(log: Log, log': Log, clock: Ticks, place: Place, at: Ticks)
    requires DeadlinesOk(log, clock) && log.posted !in log.place
    requires log'.place == log.place[log.posted := place] && log'.startedAt == log.startedAt
    requires log'.deadline == log.deadline || (place == InHeap && log'.deadline == log.deadline[log.posted := at])
    ensures DeadlinesOk(log', clock)
  {
  }

  lemma DeadlinesEnded(log: Log, clock: Ticks, t: TaskId)
    requires DeadlinesOk(log, clock) && t in log.place && log.place[t].OnWorker?
    ensures DeadlinesOk(Ended(log, t), clock)
  {
  }

  lemma RunningIsOnWorker(s: State, w: nat)
    requires PlacesOk(s) && w < |s.workers| && (s.workers[w].RunningFree? || s.workers[w].RunningSequenced?)
    ensures s.workers[w].task in s.log.place && s.log.place[s.workers[w].task].OnWorker?
  {
    assert Runs(s.workers[w], s.workers[w].task);
  }

  lemma DeadlinesEndStep(s: State, e: Event, w: nat)
    requires s.freq > 0 && PlacesOk(s) && DeadlinesOk(s.log, s.clock) && Enabled(s, e) && (e == EndFree(w) || e == EndSequenced(w))
    ensures DeadlinesOk(Apply(s, e).log, Apply(s, e).clock)
  {
    RunningIsOnWorker(s, w);
    DeadlinesEnded(s.log, s.clock, s.workers[w].task);
  }

  lemma DeadlinesPostStep(s: State, e: Event)
    requires s.freq > 0 && PlacesOk(s) && DeadlinesOk(s.log, s.clock) && Enabled(s, e)
    requires e.Post? || e.PostDelayed? || e.PostOnSequence?
    ensures DeadlinesOk(Apply(s, e).log, Apply(s, e).clock)
  {
    assert s.log.posted !in s.log.place;
    var place := if e.Post? then InQueue else if e.PostDelayed? then InHeap else InSequence(e.k);
    DeadlinesPosted(s.log, Apply(s, e).log, s.clock, place, if e.PostDelayed? then e.at else 0);
  }

  lemma DeadlinesStep(s: State, e: Event)
    requires s.freq > 0 && HeapOk(s) && PlacesOk(s) && DeadlinesOk(s.log, s.clock) && Enabled(s, e)
    ensures DeadlinesOk(Apply(s, e).log, Apply(s, e).clock)
  {
    match e
    case WorkerTurn(_, _, _, _, _) => DeadlinesTurn(s, e);
    case EndFree(w) => DeadlinesEndStep(s, e, w);
    case EndSequenced(w) => DeadlinesEndStep(s, e, w);
    case Post => DeadlinesPostStep(s, e);
    case PostDelayed(_, _) => DeadlinesPostStep(s, e);
    case PostOnSequence(_, _) => DeadlinesPostStep(s, e);
    case Tick(now) => DeadlinesLater(s.log, s.log, s.clock, now);
    case _ =>
  }

  /** After `notify_one` somebody is up, if anybody is alive. */
  lemma NotifiedSomeone(s: State, s': State, wake: Option<nat>)
    requires MayWake(s.workers, wake) && s'.workers == WakeOne(s.workers, wake) && SomeoneLive(s)
    ensures SomeoneUp(s')
  {
    match wake
    case None => var w :| 0 <= w < |s.workers| && Live(s.workers[w]); assert !Parked(s'.workers[w]);
    case Some(w) => assert Live(s'.workers[w]) && !Parked(s'.workers[w]);
  }

  lemma NotifiedAll(s: State, s': State)
    requires s'.workers == WakeAll(s.workers) && SomeoneLive(s')
    ensures SomeoneUp(s')
  {
    var w :| 0 <= w < |s'.workers| && Live(s'.workers[w]);
    assert !Parked(s'.workers[w]);
  }

  /** A pass that parks or returns found nothing to run. */
  lemma TurnLeavesNothing(p: Pool, now: Ticks, later: Ticks, freq: nat, q: Pool, o: Outcome)
    requires freq > 0 && TurnEnds(p, now, later, freq, q, o) && !o.Run?
    ensures !Runnable(q)
  {
  }

  lemma StuckStep(s: State, e: Event)
    requires s.freq > 0 && NobodyStuck(s) && Enabled(s, e)
    ensures NobodyStuck(Apply(s, e))
  {
    var s' := Apply(s, e);
    if Runnable(s'.pool) && SomeoneLive(s') && s'.owedByPost == 0 {
      match e
      case Post =>
      case PostNotify(wake) => LiveBefore(s, s'); NotifiedSomeone(s, s', wake);
      case PostOnSequence(_, wake) => LiveBefore(s, s'); NotifiedSomeone(s, s', wake);
      case DelayedNotify => NotifiedAll(s, s');
      case ShutdownNotify => NotifiedAll(s, s');
      case WorkerTurn(w, now, later, after, o) =>
        if !o.Run? {
          TurnLeavesNothing(s.pool, now, later, s.freq, after, o);
        }
        assert Live(s'.workers[w]) && !Parked(s'.workers[w]);
      case EndFree(w) => assert !Parked(s'.workers[w]);
      case EndSequenced(w) => assert !Parked(s'.workers[w]);
      case ReleaseSequence(w, _) => assert !Parked(s'.workers[w]);
      case WakeUp(w) => assert !Parked(s'.workers[w]);
      case _ => assert s'.workers == s.workers;
    }
  }

  lemma LiveBefore(s: State, s': State)
    requires |s'.workers| == |s.workers| && SomeoneLive(s')
    requires forall w :: 0 <= w < |s.workers| ==> Live(s'.workers[w]) == Live(s.workers[w])
    ensures SomeoneLive(s)
  {
    var w :| 0 <= w < |s'.workers| && Live(s'.workers[w]);
    assert Live(s.workers[w]);
  }

  /** Waiters after the step waited before it, for the same time; the heap did not grow. */
  lemma TimersFrame(s: State, s': State)
    requires TimersOk(s) && |s'.workers| == |s.workers| && s'.freq == s.freq && s'.clock >= s.clock
    requires s'.owedByDelayed == s.owedByDelayed && forall d :: d in s'.pool.delayed ==> d in s.pool.delayed
    requires forall w :: 0 <= w < |s.workers| ==> Parked(s'.workers[w]) ==> s'.workers[w] == s.workers[w]
    ensures TimersOk(s')
  {
    assert s'.pool.delayed != [] ==> s'.pool.delayed[0] in s.pool.delayed;
    forall w, i | s'.owedByDelayed == 0 && 0 <= w < |s'.workers| && 0 <= i < |s'.pool.delayed| && s'.workers[w].TimedWaiting?
      ensures WakesBy(s'.workers[w], s'.pool.delayed[i].at, s'.freq)
    {
      assert s'.pool.delayed[i] in s.pool.delayed;
      var j :| 0 <= j < |s.pool.delayed| && s.pool.delayed[j] == s'.pool.delayed[i];
      assert WakesBy(s.workers[w], s.pool.delayed[j].at, s.freq);
    }
  }

  /** The truncated wait does not outlast any deadline at or after the one it aims at. */
  lemma TimedWaitIsShort(at: Ticks, later: Ticks, freq: nat, other: Ticks)
    requires freq > 0 && at <= other
    ensures WakesBy(TimedWaiting(later, MicrosUntil(at, later, freq)), other, freq)
  {
    if at > later {
      var x := (at - later) * 1_000_000;
      assert x / freq * freq <= x;
    }
  }

  lemma TimersAdd(s: State, s': State, w: nat)
    requires TimersOk(s) && w < |s.workers| == |s'.workers| && s' == s.(workers := s.workers[w := s'.workers[w]])
    requires s'.workers[w].Waiting? ==> s.pool.delayed == []
    requires s'.workers[w].TimedWaiting? ==> s'.workers[w].since <= s.clock
    requires s'.workers[w].TimedWaiting? ==>
               forall i :: 0 <= i < |s.pool.delayed| ==> WakesBy(s'.workers[w], s.pool.delayed[i].at, s.freq)
    ensures TimersOk(s')
  {
  }

  lemma TimersTurn(s: State, e: Event)
    requires s.freq > 0 && HeapOk(s) && TimersOk(s) && Enabled(s, e) && e.WorkerTurn?
    ensures TimersOk(Apply(s, e))
  {
    var s' := Apply(s, e);
    assert s'.pool == e.after by { TurnHeap(s.pool, e.now, e.later, s.freq, e.after, e.outcome); }
    assert forall d :: d in e.after.delayed ==> d in s.pool.delayed by {
      TurnHeap(s.pool, e.now, e.later, s.freq, e.after, e.outcome);
      HeapCut(s.pool.delayed, e.now);
    }
    TimersFrame(s, s'.(workers := s.workers));
    if e.outcome.WaitFor? {
      TurnWaitIsShort(s, e);
    }
    TimersAdd(s'.(workers := s.workers), s', e.w);
  }

  lemma TurnWaitIsShort(s: State, e: Event)
    requires s.freq > 0 && HeapOk(s) && Enabled(s, e) && e.WorkerTurn? && e.outcome.WaitFor?
    ensures forall i :: 0 <= i < |e.after.delayed| ==>
              WakesBy(TimedWaiting(e.later, e.outcome.micros), e.after.delayed[i].at, s.freq)
  {
    var ds := e.after.delayed;
    HeapCut(s.pool.delayed, e.now);
    forall i | 0 <= i < |ds| ensures WakesBy(TimedWaiting(e.later, e.outcome.micros), ds[i].at, s.freq) {
      assert i == 0 || Precedes(ds[0], ds[i]);
      TimedWaitIsShort(ds[0].at, e.later, s.freq, ds[i].at);
    }
  }

  lemma TimersStep(s: State, e: Event)
    requires s.freq > 0 && HeapOk(s) && TimersOk(s) && Enabled(s, e)
    ensures TimersOk(Apply(s, e))
  {
    match e
    case PostDelayed(_, _) =>
    case DelayedNotify =>
    case WorkerTurn(_, _, _, _, _) => TimersTurn(s, e);
    case _ => TimersFrame(s, Apply(s, e));
  }

  lemma InvStep(s: State, e: Event)
    requires Inv(s) && Enabled(s, e)
    ensures Inv(Apply(s, e))
  {
    ExclusiveStep(s, e);
    FifoStep(s, e);
    FreeStep(s, e);
    HeapStep(s, e);
    PlacesStep(s, e);
    DeadlinesStep(s, e);
    StuckStep(s, e);
    TimersStep(s, e);
  }

  lemma {:induction false} RunKeepsInv(s: State, es: seq<Event>)
    requires Inv(s) && RunEvents(s, es).Some?
    ensures Inv(RunEvents(s, es).value)
    decreases |es|
  {
    if es != [] {
      InvStep(s, es[0]);
      RunKeepsInv(Apply(s, es[0]), es[1..]);
    }
  }

  lemma InitInv(workers: nat, freq: nat)
    requires freq > 0
    ensures Inv(Init(workers, freq))
  {
  }

  lemma ReachableInv(s: State)
    requires Reachable(s)
    ensures Inv(s)
  {
    var n: nat, freq: nat, es: seq<Event> :| freq > 0 && RunEvents(Init(n, freq), es) == Some(s);
    InitInv(n, freq);
    RunKeepsInv(Init(n, freq), es);
  }

  // ----- Main results -----

  /** At most one task of a sequence is running, and a sequence is marked running exactly
      while some worker has one of its tasks. */
  lemma SequencesAreSerial(s: State, k: SequenceId)
    requires Reachable(s)
    ensures forall v, w :: 0 <= v < |s.workers| && 0 <= w < |s.workers| && Holds(s.workers[v], k) && Holds(s.workers[w], k) ==> v == w
    ensures k in s.pool.running <==> exists w :: 0 <= w < |s.workers| && Holds(s.workers[w], k)
  {
    assert SequencesExclusive(s) by { ReachableInv(s); }
  }

  /** The tasks started on a sequence, then those still queued, are the tasks posted to it in
      the order they were posted. */
  lemma SequencesAreFifo(s: State, k: SequenceId)
    requires Reachable(s)
    ensures HistoryOf(s.log.startedOn, k) + SequenceQueue(s.pool, k) == HistoryOf(s.log.postedOn, k)
  {
    ReachableInv(s);
  }

  /** With no `post` caller between its unlock and its notify, runnable work never meets
      only sleeping workers; with no `post_delayed` caller there, a task in the heap never
      meets a worker asleep without a timeout. */
  lemma NoLostWakeup(s: State)
    requires Reachable(s)
    ensures Runnable(s.pool) && SomeoneLive(s) && s.owedByPost == 0 ==> SomeoneUp(s)
    ensures s.pool.delayed != [] && s.owedByDelayed == 0 ==>
              forall w :: 0 <= w < |s.workers| ==> !s.workers[w].Waiting?
  {
    ReachableInv(s);
  }

  predicate Expired(w: Worker, clock: Ticks, freq: nat)
    requires w.TimedWaiting?
  {
    w.micros * freq <= (clock - w.since) * 1_000_000
  }

  /** Nobody oversleeps: when a delayed task is due, every sleeping worker's timeout is over. */
  lemma NoOversleeping(s: State, d: DelayedTask, w: nat)
    requires Reachable(s) && s.owedByDelayed == 0 && d in s.pool.delayed && d.at <= s.clock
    requires w < |s.workers| && Parked(s.workers[w])
    ensures s.workers[w].TimedWaiting? && Expired(s.workers[w], s.clock, s.freq)
  {
    assert TimersOk(s) by { ReachableInv(s); }
    var i :| 0 <= i < |s.pool.delayed| && s.pool.delayed[i] == d;
    assert WakesBy(s.workers[w], s.pool.delayed[i].at, s.freq);
  }

  ghost predicate InSomeSequence(s: State, t: TaskId) {
    exists k :: t in SequenceQueue(s.pool, k)
  }

  ghost predicate OnSomeWorker(s: State, t: TaskId) {
    exists w :: 0 <= w < |s.workers| && Runs(s.workers[w], t)
  }

  ghost predicate Over(s: State, t: TaskId) {
    t in s.log.place && s.log.place[t] == Done
  }

  function Count(b: bool): nat { if b then 1 else 0 }

  /** Every posted task is in exactly one of the five places, and at one position of it. */
  lemma TasksAreConserved(s: State, t: TaskId)
    requires Reachable(s) && t < s.log.posted
    ensures Count(t in s.pool.queue) + Count(t in TasksOf(s.pool.delayed)) + Count(InSomeSequence(s, t))
            + Count(OnSomeWorker(s, t)) + Count(Over(s, t)) == 1
    ensures NoDuplicates(s.pool.queue) && NoDuplicates(TasksOf(s.pool.delayed))
    ensures forall j, k :: t in SequenceQueue(s.pool, j) && t in SequenceQueue(s.pool, k) ==> j == k
    ensures forall k :: NoDuplicates(SequenceQueue(s.pool, k))
    ensures forall v, w :: 0 <= v < |s.workers| && 0 <= w < |s.workers| && Runs(s.workers[v], t) && Runs(s.workers[w], t) ==> v == w
  {
    assert PlacesOk(s) by { ReachableInv(s); }
    if s.log.place[t].InSequence? {
      assert t in SequenceQueue(s.pool, s.log.place[t].k);
    }
    if s.log.place[t].OnWorker? {
      assert Runs(s.workers[s.log.place[t].w], t);
    }
  }

  /** A delayed task starts at or after its deadline. */
  lemma NeverEarly(s: State, t: TaskId)
    requires Reachable(s) && t in s.log.deadline && t in s.log.startedAt
    ensures s.log.deadline[t] <= s.log.startedAt[t] <= s.clock
  {
    ReachableInv(s);
  }

  /** A turn moves exactly the due tasks to the back of the queue, earlier deadlines first and those of
      one deadline in the order of their numbers. */
  lemma PromotionBatch(s: State, now: Ticks) returns (batch: seq<DelayedTask>)
    requires Reachable(s)
    ensures forall i, j :: 0 <= i < j < |batch| ==> batch[i].at < batch[j].at || (batch[i].at == batch[j].at && batch[i].seq_ < batch[j].seq_)
    ensures Batch(s.pool, now) == TasksOf(batch) && Promote(s.pool, now).queue == s.pool.queue + TasksOf(batch)
    ensures s.pool.delayed == batch + Promote(s.pool, now).delayed
    ensures forall d :: d in s.pool.delayed ==> (d in batch <==> d.at <= now)
  {
    ReachableInv(s);
    HeapCut(s.pool.delayed, now);
    var n := RipeCount(s.pool.delayed, now);
    batch := s.pool.delayed[..n];
    assert s.pool.delayed == batch + s.pool.delayed[n..];
    assert forall i, j :: 0 <= i < j < |batch| ==> Precedes(batch[i], batch[j]);
  }

  /** The tasks started from the free queue, then those still in it, are the tasks that entered it,
      posted or promoted, in the order in which they did. */
  lemma FreeTasksAreFifo(s: State)
    requires Reachable(s)
    ensures s.log.startedFree + s.pool.queue == s.log.entered
  {
    ReachableInv(s);
  }

  /** Free tasks come first: a sequenced task starts only when none is queued or due. */
  lemma FreeTasksComeFirst(s: State, e: Event)
    requires Reachable(s) && s.freq > 0 && Enabled(s, e) && e.WorkerTurn? && e.outcome.Run? && e.outcome.work.Sequenced?
    ensures s.pool.queue == [] && forall d :: d in s.pool.delayed ==> d.at > e.now
  {
    assert HeapOk(s) by { ReachableInv(s); }
    HeapCut(s.pool.delayed, e.now);
    RipePrefix(s.pool.delayed, e.now);
    var n := RipeCount(s.pool.delayed, e.now);
    assert s.pool.queue + TasksOf(s.pool.delayed[..n]) == [];
    assert n == 0 && s.pool.delayed[0..] == s.pool.delayed;
  }

  /** A timed wait is no shorter than it has to be: a microsecond more would pass the next deadline. */
  lemma WaitsAreTight(s: State, e: Event)
    requires Reachable(s) && s.freq > 0 && Enabled(s, e) && e.WorkerTurn? && e.outcome.WaitFor?
    ensures e.after.delayed != [] && (forall d :: d in e.after.delayed ==> e.after.delayed[0].at <= d.at)
    ensures e.after.delayed[0].at > e.later ==> (e.outcome.micros + 1) * s.freq > (e.after.delayed[0].at - e.later) * 1_000_000
  {
    assert HeapOk(s) by { ReachableInv(s); }
    HeapCut(s.pool.delayed, e.now);
    var ds := e.after.delayed;
    assert forall i :: 0 < i < |ds| ==> Precedes(ds[0], ds[i]);
    if ds[0].at > e.later { Truncates((ds[0].at - e.later) * 1_000_000, s.freq); }
  }

  lemma Truncates(x: nat, f: nat)
    requires f > 0
    ensures (x / f + 1) * f > x
  {
    assert x == x / f * f + x % f;
  }

  /** A worker returns only after shutdown with every queue empty: whatever was posted is then
      finished or on another worker. */
  lemma ReturnsOnlyWhenDrained(s: State, e: Event, t: TaskId)
    requires Reachable(s) && s.freq > 0 && Enabled(s, e) && e.WorkerTurn? && e.outcome.Return?
    ensures s.pool.shutdown && Drained(s.pool)
    ensures t < s.log.posted ==> Over(s, t) || OnSomeWorker(s, t)
  {
    if t < s.log.posted {
      TasksAreConserved(s, t);
    }
  }
}
