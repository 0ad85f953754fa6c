/**
 How the task runner ends: which workers return once `shutdown` was called and every queue is
 empty, and when one is left behind for ever (crates/cv_base/src/task.rs:125-204).
 */
module PoolShutdown {
  import opened Common
  import opened TaskPool
  import opened PoolProtocol

  /** Shut down, nothing left to start, no notification outstanding. */
  ghost predicate Ending(s: State) {
    s.freq > 0 && s.pool.shutdown && Drained(s.pool) && s.owedByPost == 0 && s.owedByDelayed == 0 && s.owedByShutdown == 0
  }

  /** Steps of the runner itself: no further calls, and no wakeup without a reason. */
  predicate Own(s: State, e: Event) {
    match e
    case Post => false
    case PostDelayed(_, _) => false
    case PostOnSequence(_, _) => false
    case Shutdown => false
    case WakeUp(w) => w < |s.workers| && s.workers[w].TimedWaiting?
    case _ => true
  }

  ghost function Waiters(ws: seq<Worker>): set<nat> { set w: nat | w < |ws| && ws[w].Waiting? }

  ghost function Sleepers(ws: seq<Worker>): set<nat> { set w: nat | w < |ws| && ws[w].TimedWaiting? }

  ghost function Holders(ws: seq<Worker>): set<nat> { set w: nat | w < |ws| && (ws[w].RunningSequenced? || ws[w].Finishing?) }

  /** Nobody waits without a timeout, or every parked worker can count on a finishing sequence. */
  ghost predicate EveryoneGetsCalled(ws: seq<Worker>) {
    Waiters(ws) == {} || |Waiters(ws)| + |Sleepers(ws)| <= |Holders(ws)|
  }

  ghost predicate Settled(ws: seq<Worker>) {
    forall w :: 0 <= w < |ws| ==> ws[w].Returned? || ws[w].Waiting?
  }

  ghost predicate AllReturned(ws: seq<Worker>) {
    forall w :: 0 <= w < |ws| ==> ws[w].Returned?
  }

  /** The workers after `es`, all of them steps of the runner itself. */
  ghost predicate OwnRun(s: State, es: seq<Event>, end: State)
    requires s.freq > 0
    decreases |es|
  {
    if es == [] then end == s
    else Own(s, es[0]) && Enabled(s, es[0]) && OwnRun(Apply(s, es[0]), es[1..], end)
  }

  // ----- Counting -----

  /** Worker `w` becomes `x`: what that does to the three counts. */
  lemma Change(ws: seq<Worker>, w: nat, x: Worker)
    requires w < |ws|
    ensures |Waiters(ws[w := x])| == |Waiters(ws)| - Count(ws[w].Waiting?) + Count(x.Waiting?)
    ensures |Sleepers(ws[w := x])| == |Sleepers(ws)| - Count(ws[w].TimedWaiting?) + Count(x.TimedWaiting?)
    ensures |Holders(ws[w := x])| == |Holders(ws)| - Count(ws[w].RunningSequenced? || ws[w].Finishing?) + Count(x.RunningSequenced? || x.Finishing?)
  {
    var r := ws[w := x];
    OneDiffers(Waiters(ws), Waiters(r), w);
    OneDiffers(Sleepers(ws), Sleepers(r), w);
    OneDiffers(Holders(ws), Holders(r), w);
  }

  lemma OneDiffers(a: set<nat>, b: set<nat>, w: nat)
    requires forall v :: v != w ==> (v in a <==> v in b)
    ensures |b| == |a| - Count(w in a) + Count(w in b)
  {
    assert a - {w} == b - {w};
    assert w in a ==> a == a - {w} + {w};
    assert w in b ==> b == b - {w} + {w};
  }

  lemma NobodyParked(ws: seq<Worker>)
    requires forall w :: 0 <= w < |ws| ==> !Parked(ws[w])
    ensures Waiters(ws) == {} && Sleepers(ws) == {}
  {
  }

  // ----- Every step -----

  /** After the end every turn is a return, and the pool stays as it is but for finished sequences. */
  lemma StaysEnding(s: State, e: Event)
    requires Ending(s) && Enabled(s, e) && Own(s, e)
    ensures Ending(Apply(s, e))
    ensures e.WorkerTurn? ==> Apply(s, e).workers == s.workers[e.w := Returned]
  {
  }

  lemma ReleaseCalls(ws: seq<Worker>, w: nat, wake: Option<nat>)
    requires w < |ws| && ws[w].Finishing? && MayWake(ws, wake) && EveryoneGetsCalled(ws)
    ensures EveryoneGetsCalled(WakeOne(ws, wake)[w := Contending])
  {
    if wake.Some? {
      Change(ws, wake.value, Contending);
      Change(ws[wake.value := Contending], w, Contending);
    } else {
      NobodyParked(ws);
      Change(ws, w, Contending);
    }
  }

  lemma StaysCalled(s: State, e: Event)
    requires Ending(s) && Enabled(s, e) && Own(s, e) && EveryoneGetsCalled(s.workers)
    ensures EveryoneGetsCalled(Apply(s, e).workers)
  {
    StaysEnding(s, e);
    match e
    case WorkerTurn(w, _, _, _, _) => Change(s.workers, w, Returned);
    case EndFree(w) => Change(s.workers, w, Contending);
    case EndSequenced(w) => Change(s.workers, w, Finishing(s.workers[w].sequence));
    case ReleaseSequence(w, wake) => ReleaseCalls(s.workers, w, wake);
    case WakeUp(w) => Change(s.workers, w, Contending);
    case Tick(_) =>
  }

  lemma {:induction false} RunStaysCalled(s: State, es: seq<Event>, end: State)
    requires Ending(s) && EveryoneGetsCalled(s.workers) && OwnRun(s, es, end)
    ensures Ending(end) && EveryoneGetsCalled(end.workers)
    decreases |es|
  {
    if es != [] {
      StaysEnding(s, es[0]);
      StaysCalled(s, es[0]);
      RunStaysCalled(Apply(s, es[0]), es[1..], end);
    }
  }

  lemma SettledCounts(ws: seq<Worker>)
    requires Settled(ws)
    ensures Sleepers(ws) == {} && Holders(ws) == {}
    ensures AllReturned(ws) <==> Waiters(ws) == {}
  {
    if Waiters(ws) == {} {
      forall w | 0 <= w < |ws| ensures ws[w].Returned? { assert w !in Waiters(ws); }
    }
  }

  // ----- Runs end -----

  function Weight(w: Worker): nat {
    match w
    case Contending => 1
    case Waiting => 0
    case TimedWaiting(_, _) => 2
    case RunningFree(_) => 2
    case RunningSequenced(_, _) => 4
    case Finishing(_) => 3
    case Returned => 0
  }

  function Total(ws: seq<Worker>): nat { if ws == [] then 0 else Weight(ws[0]) + Total(ws[1..]) }

  lemma {:induction false} TotalChanges(ws: seq<Worker>, w: nat, x: Worker)
    requires w < |ws|
    ensures Total(ws[w := x]) == Total(ws) - Weight(ws[w]) + Weight(x)
  {
    if w == 0 {
      assert ws[w := x][1..] == ws[1..];
    } else {
      TotalChanges(ws[1..], w - 1, x);
      assert ws[w := x][1..] == ws[1..][w - 1 := x];
    }
  }

  /** Every own step but the clock's brings the runner nearer to its end. */
  lemma StepsRunOut(s: State, e: Event)
    requires Ending(s) && Enabled(s, e) && Own(s, e) && !e.Tick?
    ensures Total(Apply(s, e).workers) < Total(s.workers)
  {
    StaysEnding(s, e);
    match e
    case WorkerTurn(w, _, _, _, _) => TotalChanges(s.workers, w, Returned);
    case EndFree(w) => TotalChanges(s.workers, w, Contending);
    case EndSequenced(w) => TotalChanges(s.workers, w, Finishing(s.workers[w].sequence));
    case ReleaseSequence(w, wake) => ReleaseRunsOut(s.workers, w, wake);
    case WakeUp(w) => TotalChanges(s.workers, w, Contending);
  }

  lemma ReleaseRunsOut(ws: seq<Worker>, w: nat, wake: Option<nat>)
    requires w < |ws| && ws[w].Finishing? && MayWake(ws, wake)
    ensures Total(WakeOne(ws, wake)[w := Contending]) < Total(ws)
  {
    if wake.Some? { TotalChanges(ws, wake.value, Contending); }
    TotalChanges(WakeOne(ws, wake), w, Contending);
  }

  lemma SomeCall(ws: seq<Worker>) returns (wake: Option<nat>)
    ensures MayWake(ws, wake)
  {
    if v: nat :| v < |ws| && Parked(ws[v]) { wake := Some(v); } else { wake := None; }
  }

  /** The states in which the runner comes to rest: only the clock goes on. */
  lemma RestsIff(s: State)
    requires Ending(s)
    ensures Settled(s.workers) <==> forall e :: Own(s, e) && Enabled(s, e) ==> e.Tick?
  {
    var ws := s.workers;
    if !Settled(ws) {
      var w :| 0 <= w < |ws| && !ws[w].Returned? && !ws[w].Waiting?;
      var wake := SomeCall(ws);
      var e := if ws[w].Contending? then WorkerTurn(w, s.clock, s.clock, s.pool, Return)
               else if ws[w].RunningFree? then EndFree(w)
               else if ws[w].RunningSequenced? then EndSequenced(w)
               else if ws[w].Finishing? then ReleaseSequence(w, wake)
               else WakeUp(w);
      assert Own(s, e) && Enabled(s, e) && !e.Tick?;
    }
  }

  // ----- A schedule that leaves somebody behind -----

  /** A step that keeps some waiter uncalled: finishing sequences first, and their calls go to
      sleepers with a timeout as long as there are any. */
  lemma BadStep(s: State) returns (e: Event)
    requires Ending(s) && !EveryoneGetsCalled(s.workers) && !Settled(s.workers)
    ensures Own(s, e) && Enabled(s, e) && !e.Tick? && !EveryoneGetsCalled(Apply(s, e).workers)
  {
    var ws := s.workers;
    if Holders(ws) != {} {
      var w :| w in Holders(ws);
      if ws[w].RunningSequenced? {
        e := EndSequenced(w);
        Change(ws, w, Finishing(ws[w].sequence));
      } else {
        var v := Misled(ws, w);
        e := ReleaseSequence(w, Some(v));
      }
    } else {
      e := BadStepAlone(s);
    }
  }

  lemma Misled(ws: seq<Worker>, w: nat) returns (v: nat)
    requires !EveryoneGetsCalled(ws) && w < |ws| && ws[w].Finishing?
    ensures MayWake(ws, Some(v)) && !EveryoneGetsCalled(WakeOne(ws, Some(v))[w := Contending])
  {
    v :| v in if Sleepers(ws) != {} then Sleepers(ws) else Waiters(ws);
    assert w in Holders(ws);
    Change(ws, v, Contending);
    Change(ws[v := Contending], w, Contending);
  }

  lemma BadStepAlone(s: State) returns (e: Event)
    requires Ending(s) && !EveryoneGetsCalled(s.workers) && !Settled(s.workers) && Holders(s.workers) == {}
    ensures Own(s, e) && Enabled(s, e) && !e.Tick? && !EveryoneGetsCalled(Apply(s, e).workers)
  {
    var ws := s.workers;
    var w :| 0 <= w < |ws| && !ws[w].Returned? && !ws[w].Waiting?;
    assert w !in Holders(ws);
    if ws[w].Contending? {
      e := WorkerTurn(w, s.clock, s.clock, s.pool, Return);
      Change(ws, w, Returned);
    } else {
      e := if ws[w].RunningFree? then EndFree(w) else WakeUp(w);
      Change(ws, w, Contending);
    }
  }

  lemma {:induction false} BadRun(s: State) returns (es: seq<Event>, end: State)
    requires Ending(s) && !EveryoneGetsCalled(s.workers)
    ensures OwnRun(s, es, end) && Settled(end.workers) && !AllReturned(end.workers)
    decreases Total(s.workers)
  {
    if Settled(s.workers) {
      es, end := [], s;
      SettledCounts(s.workers);
    } else {
      var e := BadStep(s);
      StaysEnding(s, e);
      StepsRunOut(s, e);
      var rest;
      rest, end := BadRun(Apply(s, e));
      es := [e] + rest;
      assert es[1..] == rest;
    }
  }

  // ----- Main results -----

  /** Every schedule lets all workers return. */
  ghost predicate AlwaysJoins(s: State)
    requires s.freq > 0
  {
    forall es, end :: OwnRun(s, es, end) && Settled(end.workers) ==> AllReturned(end.workers)
  }

  /** Once shut down with empty queues, all workers return under every schedule exactly if nobody
      waits without a timeout or the parked workers are no more than the sequenced tasks still
      running: each of those notifies one worker at its end, a returning worker notifies nobody. */
  lemma JoinsIff(s: State)
    requires Ending(s)
    ensures AlwaysJoins(s) <==> EveryoneGetsCalled(s.workers)
  {
    if EveryoneGetsCalled(s.workers) {
      forall es, end | OwnRun(s, es, end) && Settled(end.workers) ensures AllReturned(end.workers) {
        RunStaysCalled(s, es, end);
        SettledCounts(end.workers);
      }
    } else {
      var es, end := BadRun(s);
    }
  }

  /** If the queues are empty when `shutdown` notifies, all workers return. */
  lemma IdleShutdownJoins(s: State)
    requires s.freq > 0 && Enabled(s, ShutdownNotify) && Ending(Apply(s, ShutdownNotify))
    ensures AlwaysJoins(Apply(s, ShutdownNotify))
  {
    NobodyParked(WakeAll(s.workers));
    JoinsIff(Apply(s, ShutdownNotify));
  }

  /** Even with a worker left behind nothing is lost: every posted task has run. */
  lemma LeftBehindButDone(s: State, t: TaskId)
    requires Reachable(s) && s.owedByPost == 0 && s.owedByDelayed == 0 && Settled(s.workers) && !AllReturned(s.workers)
    ensures t < s.log.posted ==> Over(s, t)
  {
    var w :| 0 <= w < |s.workers| && !s.workers[w].Returned?;
    assert s.workers[w].Waiting? && Live(s.workers[w]);
    NoLostWakeup(s);
    assert SomeoneLive(s) && !SomeoneUp(s);
    assert !Runnable(s.pool);
    forall k ensures SequenceQueue(s.pool, k) == [] {
      SequencesAreSerial(s, k);
      assert k !in s.pool.running;
    }
    if t < s.log.posted {
      TasksAreConserved(s, t);
    }
  }

  // ----- A run in which shutdown hangs -----

  lemma {:induction false} RunAppend(s: State, es: seq<Event>, e: Event)
    requires s.freq > 0 && RunEvents(s, es).Some? && RunEvents(s, es).value.freq > 0 && Enabled(RunEvents(s, es).value, e)
    ensures RunEvents(s, es + [e]) == Some(Apply(RunEvents(s, es).value, e))
    decreases |es|
  {
    if es == [] {
      assert es + [e] == [e] && [e][1..] == [];
    } else {
      RunAppend(Apply(s, es[0]), es[1..], e);
      assert (es + [e])[1..] == es[1..] + [e];
    }
  }

  lemma ReachableNext(s: State, e: Event)
    requires Reachable(s) && s.freq > 0 && Enabled(s, e)
    ensures Reachable(Apply(s, e))
  {
    var n: nat, freq: nat, es: seq<Event> :| freq > 0 && RunEvents(Init(n, freq), es) == Some(s);
    RunAppend(Init(n, freq), es, e);
  }

  /** Reachable with nothing owed, in a pool whose only tasks are `queue` on sequence 7. */
  ghost predicate At(s: State, queue: seq<TaskId>, running: bool, shutdown: bool, ws: seq<Worker>) {
    && Reachable(s) && s.freq == 1 && s.owedByPost == 0 && s.owedByDelayed == 0 && s.owedByShutdown == 0
    && s.pool == Pool([], [], if running then [7] else [], map[7 := queue], shutdown) && s.workers == ws
  }

  /** Four workers, two tasks on one sequence, posted before anybody looks. */
  lemma TwoPosted() returns (s: State)
    ensures At(s, [0, 1], false, false, [Contending, Contending, Contending, Contending])
  {
    var s0 := Init(4, 1);
    assert RunEvents(s0, []) == Some(s0);
    var e := PostOnSequence(7, None);
    ReachableNext(s0, e);
    var s1 := Apply(s0, e);
    ReachableNext(s1, e);
    assert s1.pool.sequences == map[7 := [0]] && s1.log.posted == 1 by { assert SequenceQueue(s0.pool, 7) + [0] == [0]; }
    s := Apply(s1, e);
    assert SequenceQueue(s1.pool, 7) + [1] == [0, 1];
    assert s.pool.sequences == map[7 := [0, 1]];
    assert s.workers == [Contending, Contending, Contending, Contending];
  }

  /** A worker takes the head of the sequence. */
  lemma Takes(s: State, queue: seq<TaskId>, shutdown: bool, ws: seq<Worker>, w: nat) returns (r: State)
    requires At(s, queue, false, shutdown, ws) && queue != [] && w < |ws| && ws[w].Contending?
    ensures At(r, queue[1..], true, shutdown, ws[w := RunningSequenced(7, queue[0])])
  {
    var after := TakeFrom(s.pool, 7);
    assert Promote(s.pool, s.clock) == s.pool;
    var e := WorkerTurn(w, s.clock, s.clock, after, Run(Sequenced(7, queue[0])));
    assert Enabled(s, e);
    ReachableNext(s, e);
    r := Apply(s, e);
  }

  /** While the sequence runs, another worker finds nothing and waits. */
  lemma Parks(s: State, queue: seq<TaskId>, shutdown: bool, ws: seq<Worker>, w: nat) returns (r: State)
    requires At(s, queue, true, shutdown, ws) && queue != [] && w < |ws| && ws[w].Contending?
    ensures At(r, queue, true, shutdown, ws[w := Waiting])
  {
    assert Promote(s.pool, s.clock) == s.pool;
    var e := WorkerTurn(w, s.clock, s.clock, s.pool, Wait);
    assert Enabled(s, e) by { assert s.pool.sequences[7] == queue; }
    ReachableNext(s, e);
    r := Apply(s, e);
  }

  /** `shutdown` sets the flag and notifies while nobody is parked. */
  lemma ShutsDown(s: State, queue: seq<TaskId>, ws: seq<Worker>) returns (r: State)
    requires At(s, queue, true, false, ws) && forall w :: 0 <= w < |ws| ==> !Parked(ws[w])
    ensures At(r, queue, true, true, ws)
  {
    ReachableNext(s, Shutdown);
    var s1 := Apply(s, Shutdown);
    ReachableNext(s1, ShutdownNotify);
    r := Apply(s1, ShutdownNotify);
  }

  /** Worker `w` ends its task and releases the sequence; the notification goes to `v`. */
  lemma Releases(s: State, queue: seq<TaskId>, ws: seq<Worker>, w: nat, v: nat) returns (r: State)
    requires At(s, queue, true, true, ws) && w < |ws| && v < |ws| && ws[w].RunningSequenced? && ws[w].sequence == 7 && ws[v].Waiting?
    ensures At(r, queue, false, true, ws[v := Contending][w := Contending])
  {
    ReachableNext(s, EndSequenced(w));
    var s1 := Apply(s, EndSequenced(w));
    ReachableNext(s1, ReleaseSequence(w, Some(v)));
    r := Apply(s1, ReleaseSequence(w, Some(v)));
    assert Without([7], 7) == [];
    assert r.workers == ws[v := Contending][w := Contending];
  }

  lemma ThreePark() returns (s: State)
    ensures At(s, [1], true, true, [RunningSequenced(7, 0), Waiting, Waiting, Waiting])
  {
    var c, t0 := Contending, RunningSequenced(7, 0);
    var s0 := TwoPosted();
    var s1 := Takes(s0, [0, 1], false, [c, c, c, c], 0);
    assert [0, 1][1..] == [1] && [c, c, c, c][0 := t0] == [t0, c, c, c];
    var s2 := ShutsDown(s1, [1], [t0, c, c, c]);
    var s3 := Parks(s2, [1], true, [t0, c, c, c], 1);
    assert [t0, c, c, c][1 := Waiting] == [t0, Waiting, c, c];
    var s4 := Parks(s3, [1], true, [t0, Waiting, c, c], 2);
    assert [t0, Waiting, c, c][2 := Waiting] == [t0, Waiting, Waiting, c];
    s := Parks(s4, [1], true, [t0, Waiting, Waiting, c], 3);
    assert [t0, Waiting, Waiting, c][3 := Waiting] == [t0, Waiting, Waiting, Waiting];
  }

  lemma LastTaken() returns (s: State)
    ensures At(s, [], true, true, [RunningSequenced(7, 1), Contending, Waiting, Waiting])
  {
    var c, t0, t1 := Contending, RunningSequenced(7, 0), RunningSequenced(7, 1);
    var s0 := ThreePark();
    var s1 := Releases(s0, [1], [t0, Waiting, Waiting, Waiting], 0, 1);
    assert [t0, Waiting, Waiting, Waiting][1 := c][0 := c] == [c, c, Waiting, Waiting];
    s := Takes(s1, [1], true, [c, c, Waiting, Waiting], 0);
    assert [1][1..] == [] && [c, c, Waiting, Waiting][0 := t1] == [t1, c, Waiting, Waiting];
  }

  /** With four workers and a sequence of two tasks, `shutdown` can wait for ever: while the first
      task runs three workers park, its end calls one of them, the end of the second another. */
  lemma ShutdownCanHang() returns (s: State)
    ensures Reachable(s) && Ending(s) && !AlwaysJoins(s) && |s.workers| == 4
  {
    s := LastTaken();
    assert Waiters(s.workers) == {2, 3} && Holders(s.workers) == {0};
    JoinsIff(s);
  }
}
