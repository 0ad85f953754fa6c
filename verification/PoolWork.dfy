/**
 Work conservation of the task runner: while a worker is really asleep, there are at least as many
 workers on their way to the lock, or notifications on their way to the workers, as there is
 runnable work (crates/cv_base/src/task.rs:92-204).
 */
module PoolWork {
  import opened Common
  import opened TaskPool
  import opened PoolProtocol

  /** Parked, and nothing but a notification (or a spurious wakeup) will end it now. */
  predicate Asleep(w: Worker, clock: Ticks, freq: nat) {
    w.Waiting? || (w.TimedWaiting? && !Expired(w, clock, freq))
  }

  ghost predicate NobodyAsleep(s: State) {
    forall w :: 0 <= w < |s.workers| ==> !Asleep(s.workers[w], s.clock, s.freq)
  }

  /** The workers about to take the lock. */
  ghost function Contenders(workers: seq<Worker>): set<nat> {
    set w: nat | w < |workers| && workers[w].Contending?
  }

  ghost function ReadyKeys(p: Pool): set<SequenceId> {
    set k | k in p.sequences && Ready(p, k)
  }

  /** How many workers could run something at once. */
  ghost function Demand(p: Pool): nat { |p.queue| + |ReadyKeys(p)| }

  /** How many workers are on their way. */
  ghost function Supply(s: State): nat { |Contenders(s.workers)| + s.owedByPost }

  ghost predicate Conserved(s: State) {
    s.owedByDelayed > 0 || NobodyAsleep(s) || Demand(s.pool) <= Supply(s)
  }

  // ----- Counting -----

  lemma Joins(workers: seq<Worker>, w: nat)
    requires w < |workers| && !workers[w].Contending?
    ensures |Contenders(workers[w := Contending])| == |Contenders(workers)| + 1
  {
    assert Contenders(workers[w := Contending]) == Contenders(workers) + {w};
  }

  lemma Leaves(workers: seq<Worker>, w: nat, x: Worker)
    requires w < |workers| && workers[w].Contending? && !x.Contending?
    ensures |Contenders(workers[w := x])| == |Contenders(workers)| - 1
  {
    assert Contenders(workers[w := x]) == Contenders(workers) - {w};
  }

  lemma OneMoreKey(p: Pool, q: Pool, k: SequenceId)
    requires forall j :: j in q.sequences && j != k && Ready(q, j) ==> j in p.sequences && Ready(p, j)
    ensures |ReadyKeys(q)| <= |ReadyKeys(p)| + 1
  {
    assert ReadyKeys(q) <= ReadyKeys(p) + {k};
    SubsetCount(ReadyKeys(q), ReadyKeys(p) + {k});
  }

  lemma NothingRunnable(p: Pool)
    requires !Runnable(p)
    ensures Demand(p) == 0
  {
    assert ReadyKeys(p) == {};
  }

  // ----- Steps -----

  /** Nobody fell asleep and the clock did not go back. */
  ghost predicate NobodyDozes(s: State, s': State) {
    && |s'.workers| == |s.workers| && s'.freq == s.freq && s.clock <= s'.clock && s'.owedByDelayed == s.owedByDelayed
    && forall w :: 0 <= w < |s.workers| && Parked(s'.workers[w]) ==> s'.workers[w] == s.workers[w]
  }

  lemma StillAwake(s: State, s': State)
    requires NobodyDozes(s, s') && NobodyAsleep(s)
    ensures NobodyAsleep(s')
  {
    forall w | 0 <= w < |s'.workers| ensures !Asleep(s'.workers[w], s'.clock, s'.freq) {
      assert !Asleep(s.workers[w], s.clock, s.freq);
    }
  }

  /** Supply grows with demand, or nobody is parked any more. */
  lemma Keeps(s: State, s': State)
    requires Conserved(s) && NobodyDozes(s, s')
    requires NobodyAsleep(s') || Demand(s'.pool) + Supply(s) <= Demand(s.pool) + Supply(s')
    ensures Conserved(s')
  {
    if NobodyAsleep(s) { StillAwake(s, s'); }
  }

  /** `notify_one` brings somebody, or nobody was parked. */
  lemma Notified(workers: seq<Worker>, wake: Option<nat>)
    requires MayWake(workers, wake)
    ensures wake.Some? ==> |Contenders(WakeOne(workers, wake))| == |Contenders(workers)| + 1
    ensures forall w :: 0 <= w < |workers| && Parked(WakeOne(workers, wake)[w]) ==> wake.Some? && WakeOne(workers, wake)[w] == workers[w]
  {
    if wake.Some? { Joins(workers, wake.value); }
  }

  lemma PostNotifyKeeps(s: State, e: Event)
    requires s.freq > 0 && Conserved(s) && Enabled(s, e) && e.PostNotify?
    ensures Conserved(Apply(s, e))
  {
    Notified(s.workers, e.wake);
    Keeps(s, Apply(s, e));
  }

  lemma PostOnSequenceKeeps(s: State, e: Event)
    requires s.freq > 0 && Conserved(s) && Enabled(s, e) && e.PostOnSequence?
    ensures Conserved(Apply(s, e))
  {
    Notified(s.workers, e.wake);
    OneMoreKey(s.pool, Apply(s, e).pool, e.k);
    Keeps(s, Apply(s, e));
  }

  lemma ReleaseKeeps(s: State, e: Event)
    requires s.freq > 0 && Conserved(s) && Enabled(s, e) && e.ReleaseSequence?
    ensures Conserved(Apply(s, e))
  {
    var s' := Apply(s, e);
    Notified(s.workers, e.wake);
    Joins(WakeOne(s.workers, e.wake), e.w);
    OneMoreKey(s.pool, s'.pool, s.workers[e.w].sequence);
    Keeps(s, s');
  }

  /** Once a delayed task is due, every parked worker's timeout is over. */
  lemma DueWakesAll(s: State, clock: Ticks)
    requires TimersOk(s) && s.owedByDelayed == 0 && s.pool.delayed != [] && s.pool.delayed[0].at <= clock && s.clock <= clock
    ensures forall w :: 0 <= w < |s.workers| ==> !Asleep(s.workers[w], clock, s.freq)
  {
    forall w | 0 <= w < |s.workers| ensures !Asleep(s.workers[w], clock, s.freq) {
      if s.workers[w].TimedWaiting? {
        assert WakesBy(s.workers[w], s.pool.delayed[0].at, s.freq);
      }
    }
  }

  /** A pass that found nothing due took one task, and one contender with it. */
  lemma QuietRun(s: State, e: Event)
    requires s.freq > 0 && Enabled(s, e) && e.WorkerTurn? && e.outcome.Run? && RipeCount(s.pool.delayed, e.now) == 0
    ensures Demand(e.after) + 1 == Demand(s.pool)
  {
    NothingDue(s.pool, e.now);
    match e.outcome.work
    case Free(t) => assert ReadyKeys(e.after) == ReadyKeys(s.pool);
    case Sequenced(k, t) => OneKeyLess(s.pool, k);
  }

  lemma NothingDue(p: Pool, now: Ticks)
    requires RipeCount(p.delayed, now) == 0
    ensures Promote(p, now) == p
  {
    assert TasksOf(p.delayed[..0]) == [] && p.queue + [] == p.queue;
  }

  lemma OneKeyLess(p: Pool, k: SequenceId)
    requires Ready(p, k)
    ensures Demand(TakeFrom(p, k)) + 1 == Demand(p)
  {
    assert k in ReadyKeys(p);
    assert ReadyKeys(TakeFrom(p, k)) == ReadyKeys(p) - {k};
  }

  lemma RunKeeps(s: State, e: Event)
    requires s.freq > 0 && TimersOk(s) && Conserved(s) && Enabled(s, e) && e.WorkerTurn? && e.outcome.Run?
    ensures Conserved(Apply(s, e))
  {
    var s' := Apply(s, e);
    Leaves(s.workers, e.w, s'.workers[e.w]);
    if RipeCount(s.pool.delayed, e.now) == 0 {
      QuietRun(s, e);
      Keeps(s, s');
    } else if s.owedByDelayed == 0 {
      DueWakesAll(s, s'.clock);
    }
  }

  lemma TurnKeeps(s: State, e: Event)
    requires s.freq > 0 && TimersOk(s) && Conserved(s) && Enabled(s, e) && e.WorkerTurn?
    ensures Conserved(Apply(s, e))
  {
    if e.outcome.Run? {
      RunKeeps(s, e);
    } else {
      TurnLeavesNothing(s.pool, e.now, e.later, s.freq, e.after, e.outcome);
      NothingRunnable(e.after);
    }
  }

  /** Steps after which one more worker contends, or only the clock has moved. */
  lemma JoinKeeps(s: State, s': State, w: nat)
    requires s.freq > 0 && Conserved(s) && w < |s.workers| && !s.workers[w].Contending?
    requires s'.pool == s.pool && s'.workers == s.workers[w := Contending] && s'.clock == s.clock && s'.freq == s.freq
    requires s'.owedByPost == s.owedByPost && s'.owedByDelayed == s.owedByDelayed
    ensures Conserved(s')
  {
    Joins(s.workers, w);
    Keeps(s, s');
  }

  lemma SameKeeps(s: State, s': State)
    requires Conserved(s) && NobodyDozes(s, s') && Contenders(s'.workers) == Contenders(s.workers)
    requires s'.pool.queue == s.pool.queue && ReadyKeys(s'.pool) == ReadyKeys(s.pool) && s'.owedByPost == s.owedByPost
    ensures Conserved(s')
  {
    Keeps(s, s');
  }

  lemma PostKeeps(s: State, e: Event)
    requires s.freq > 0 && Conserved(s) && Enabled(s, e) && e.Post?
    ensures Conserved(Apply(s, e))
  {
    assert ReadyKeys(Apply(s, e).pool) == ReadyKeys(s.pool);
    Keeps(s, Apply(s, e));
  }

  lemma ShutdownKeeps(s: State, e: Event)
    requires s.freq > 0 && Conserved(s) && Enabled(s, e) && e.Shutdown?
    ensures Conserved(Apply(s, e))
  {
    assert ReadyKeys(Apply(s, e).pool) == ReadyKeys(s.pool);
    SameKeeps(s, Apply(s, e));
  }

  lemma ConservedStep(s: State, e: Event)
    requires Inv(s) && Conserved(s) && Enabled(s, e)
    ensures Conserved(Apply(s, e))
  {
    match e
    case Post => PostKeeps(s, e);
    case PostNotify(_) => PostNotifyKeeps(s, e);
    case PostDelayed(_, _) =>
    case DelayedNotify => assert NobodyAsleep(Apply(s, e));
    case PostOnSequence(_, _) => PostOnSequenceKeeps(s, e);
    case Shutdown => ShutdownKeeps(s, e);
    case ShutdownNotify => assert NobodyAsleep(Apply(s, e));
    case WorkerTurn(_, _, _, _, _) => TurnKeeps(s, e);
    case EndFree(w) => JoinKeeps(s, Apply(s, e), w);
    case EndSequenced(w) => SameKeeps(s, Apply(s, e));
    case ReleaseSequence(_, _) => ReleaseKeeps(s, e);
    case WakeUp(w) => JoinKeeps(s, Apply(s, e), w);
    case Tick(_) => SameKeeps(s, Apply(s, e));
  }

  lemma {:induction false} RunStaysConserved(s: State, es: seq<Event>)
    requires Inv(s) && Conserved(s) && RunEvents(s, es).Some?
    ensures Conserved(RunEvents(s, es).value)
    decreases |es|
  {
    if es != [] {
      InvStep(s, es[0]);
      ConservedStep(s, es[0]);
      RunStaysConserved(Apply(s, es[0]), es[1..]);
    }
  }

  lemma ReachableConserved(s: State)
    requires Reachable(s)
    ensures Conserved(s)
  {
    var n: nat, freq: nat, es: seq<Event> :| freq > 0 && RunEvents(Init(n, freq), es) == Some(s);
    InitInv(n, freq);
    assert NobodyAsleep(Init(n, freq));
    RunStaysConserved(Init(n, freq), es);
  }

  lemma RunnableDemand(p: Pool)
    requires Runnable(p)
    ensures Demand(p) > 0
  {
    if p.queue == [] {
      var k :| k in p.sequences && Ready(p, k);
      assert k in ReadyKeys(p);
    }
  }

  /** In every reachable state without outstanding notifications in which some worker is asleep, there
      are at least as many workers on their way to the lock as there are tasks that could start. */
  lemma WorkIsConserved(s: State, w: nat)
    requires Reachable(s) && s.owedByPost == 0 && s.owedByDelayed == 0
    requires w < |s.workers| && Asleep(s.workers[w], s.clock, s.freq)
    ensures Demand(s.pool) <= |Contenders(s.workers)|
    ensures Runnable(s.pool) ==> exists v :: 0 <= v < |s.workers| && s.workers[v].Contending?
  {
    ReachableConserved(s);
    if Runnable(s.pool) {
      RunnableDemand(s.pool);
      assert Contenders(s.workers) != {};
      var v :| v in Contenders(s.workers);
    }
  }
}
