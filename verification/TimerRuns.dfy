/**
 Runs of the timer queue: any interleaving of scheduling, cancelling, clock ticks and drains.
 `requeue` is treated separately at the end.
 */
module TimerRuns {
  import opened Common
  import opened Timers

  /** What a page asked for, and when. */
  datatype Request = Request(kind: Kind, at: nat, delay: nat, payload: nat)

  /** `queue`, `nextId` and `clock` are the scheduler; the rest is history: how many ids were
      allotted, which issued ids were cancelled, what was requested under each id, and the cutoff of
      the drain that returned it last. */
  datatype State = State(
    queue: seq<Task>,
    nextId: nat,
    clock: nat,
    allotted: nat,
    cancelled: set<nat>,
    requests: map<nat, Request>,
    fired: map<nat, nat>)

  datatype Event =
    | Schedule(kind: Kind, delay: nat, payload: nat)
    | Cancel(id: nat)
    | Drain(c: Cutoffs, after: seq<Task>, out: seq<Task>)
    | DrainTimeouts(cutoff: nat, after: seq<Task>, out: seq<Task>)
    | Tick(now: nat)

  function Init(): State { State([], 1, 0, 0, {}, map[], map[]) }

  /** Ids have been handed out 1, 2, ..., 2^32 - 1, 0: this is the position of `id` in that order. */
  function Serial(id: nat): nat { (id + U32 - 1) % U32 }

  predicate Issued(id: nat, allotted: nat) { id < U32 && Serial(id) < allotted }

  /** The clock stays below 2^64 - 1 ms and ids do not wrap onto used ones.  A drain is an event only
      where its loop ends; `DrainReturnsIff` says where that is. */
  ghost predicate Enabled(s: State, e: Event) {
    match e
    case Schedule(_, delay, _) => s.allotted < U32 && delay < U64 && s.clock + 1 < U64
    case Cancel(_) => true
    case Drain(c, after, out) => NoneStuck(s.queue, c) && Drains(s.queue, c, after, out)
    case DrainTimeouts(cutoff, after, out) => DrainsTimeouts(s.queue, cutoff, after, out)
    case Tick(now) => s.clock <= now
  }

  function FiredAt(fired: map<nat, nat>, out: seq<Task>, cutoff: nat): map<nat, nat> {
    map id | id in fired.Keys + IdSet(out) :: if id in IdSet(out) then cutoff else fired[id]
  }

  function IdSet(out: seq<Task>): set<nat> { set t | t in out :: t.id }

  function Apply(s: State, e: Event): State {
    match e
    case Schedule(kind, delay, payload) =>
      s.(queue := s.queue + [NewTask(s.nextId, s.clock, kind, delay, payload)],
         nextId := (s.nextId + 1) % U32, allotted := s.allotted + 1,
         requests := s.requests[s.nextId := Request(kind, s.clock, delay, payload)])
    case Cancel(id) =>
      s.(queue := WithoutId(s.queue, id),
         cancelled := if Issued(id, s.allotted) then s.cancelled + {id} else s.cancelled)
    case Drain(c, after, out) => s.(queue := after, fired := FiredAt(s.fired, out, c.timer))
    case DrainTimeouts(cutoff, after, out) => s.(queue := after, fired := FiredAt(s.fired, out, cutoff))
    case Tick(now) => s.(clock := now)
  }

  ghost predicate Legal(s: State, es: seq<Event>)
    decreases |es|
  {
    es != [] ==> Enabled(s, es[0]) && Legal(Apply(s, es[0]), es[1..])
  }

  function After(s: State, es: seq<Event>): State
    decreases |es|
  {
    if es == [] then s else After(Apply(s, es[0]), es[1..])
  }

  ghost predicate Reachable(s: State) {
    exists es: seq<Event> :: Legal(Init(), es) && After(Init(), es) == s
  }

  ghost predicate OnceEach(m: multiset<nat>) {
    forall id :: m[id] <= 1
  }

  // ----- What is owed to the page -----

  /** Asked for, not cancelled, and to be fired (again). */
  predicate Pending(s: State, id: nat) {
    id in s.requests && id !in s.cancelled && (s.requests[id].kind == Interval || id !in s.fired)
  }

  /** When it is to be fired: the delay, at least 1 for intervals, after the request, or for an interval
      after the cutoff at which it fired last; the next millisecond for a frame.  Sums are 64-bit ones. */
  function DueAt(s: State, id: nat): nat
    requires id in s.requests
  {
    var r := s.requests[id];
    match r.kind
    case Timeout => (r.at + r.delay) % U64
    case Interval => ((if id in s.fired then s.fired[id] else r.at) + Period(r)) % U64
    case AnimationFrame => r.at + 1
  }

  function Period(r: Request): nat { if r.delay == 0 then 1 else r.delay }

  /** `t` is what the history calls for under its id. */
  ghost predicate AsAsked(s: State, t: Task) {
    && t.id in s.requests && t.kind == s.requests[t.id].kind && t.payload == s.requests[t.id].payload
    && t.fireAt == DueAt(s, t.id)
    && t.repeat == if t.kind == Interval then Some(Period(s.requests[t.id])) else None
  }

  /** What holds of every queued task on its own. */
  ghost predicate TaskOk(s: State, t: Task) {
    IsTask(t) && Pending(s, t.id) && AsAsked(s, t)
  }

  ghost predicate CountersOk(s: State) {
    && s.nextId == (1 + s.allotted) % U32 && s.allotted <= U32
    && (forall id :: id in s.cancelled ==> Issued(id, s.allotted))
    && (forall id :: id in s.requests <==> Issued(id, s.allotted))
    && (forall id :: id in s.fired ==> id in s.requests)
    && (forall id :: id in s.requests ==> s.requests[id].delay < U64 && s.requests[id].at + 1 < U64)
  }

  /** Nothing that is pending is missing. */
  ghost predicate NoneMissing(s: State) {
    forall id :: Pending(s, id) ==> id in Ids(s.queue)
  }

  ghost predicate TasksOk(s: State) {
    forall t :: t in s.queue ==> TaskOk(s, t)
  }

  ghost predicate Inv(s: State) {
    CountersOk(s) && OnceEach(multiset(Ids(s.queue))) && TasksOk(s) && NoneMissing(s)
  }

  // ----- Ids through a drain -----

  lemma IdsCons(t: Task, q: seq<Task>)
    ensures multiset(Ids([t] + q)) == multiset{t.id} + multiset(Ids(q))
  {
    IdsConcat([t], q);
    assert Ids([t]) == [t.id];
  }

  lemma {:induction false} IdsSplit(q: seq<Task>, c: Cutoffs)
    ensures multiset(Ids(q)) == multiset(Ids(Others(q, c))) + multiset(Ids(DueTasks(q, c)))
  {
    if q != [] {
      var others, due := Others(q[1..], c), DueTasks(q[1..], c);
      IdsSplit(q[1..], c);
      assert q == [q[0]] + q[1..];
      IdsCons(q[0], q[1..]);
      if Due(q[0], c) {
        assert DueTasks(q, c) == [q[0]] + due && Others(q, c) == others;
        IdsCons(q[0], due);
      } else {
        assert DueTasks(q, c) == due && Others(q, c) == [q[0]] + others;
        IdsCons(q[0], others);
      }
    }
  }

  lemma {:induction false} IdsOfRearms(q: seq<Task>, c: Cutoffs)
    ensures multiset(Ids(Rearms(q, c))) <= multiset(Ids(q))
  {
    if q != [] {
      IdsOfRearms(q[1..], c);
      assert q == [q[0]] + q[1..];
      IdsCons(q[0], q[1..]);
      if q[0].repeat.Some? {
        IdsCons(Rearm(q[0], c), Rearms(q[1..], c));
      } else {
        assert Rearms(q, c) == Rearms(q[1..], c);
      }
    }
  }

  lemma DrainIds(q: seq<Task>, c: Cutoffs, q': seq<Task>, out: seq<Task>)
    requires Drains(q, c, q', out)
    ensures multiset(Ids(q')) <= multiset(Ids(q)) && multiset(Ids(out)) <= multiset(Ids(q))
    ensures multiset(Ids(q')) == multiset(Ids(Others(q, c))) + multiset(Ids(Rearms(DueTasks(q, c), c)))
  {
    var due, others := DueTasks(q, c), Others(q, c);
    IdsSplit(q, c);
    IdsContents(out, due);
    IdsContents(q', others + Rearms(due, c));
    IdsConcat(others, Rearms(due, c));
    IdsOfRearms(due, c);
  }

  lemma DrainMembers(q: seq<Task>, c: Cutoffs, q': seq<Task>, out: seq<Task>)
    requires Drains(q, c, q', out)
    ensures forall t :: t in out <==> t in q && Due(t, c)
    ensures forall t :: t in q' ==> (t in q && !Due(t, c)) ||
                                    (exists u :: u in q && Due(u, c) && u.repeat.Some? && t == Rearm(u, c))
  {
    AllOrNone(q, c);
    RearmsMembers(DueTasks(q, c), c);
    assert forall t :: t in out <==> t in multiset(out);
    assert forall t :: t in DueTasks(q, c) <==> t in multiset(DueTasks(q, c));
    forall t | t in q'
      ensures (t in q && !Due(t, c)) || (exists u :: u in q && Due(u, c) && u.repeat.Some? && t == Rearm(u, c))
    {
      assert t in multiset(q');
      assert t in Others(q, c) || t in Rearms(DueTasks(q, c), c);
    }
  }

  lemma NotDueStays(q: seq<Task>, c: Cutoffs, q': seq<Task>, out: seq<Task>, t: Task)
    requires Drains(q, c, q', out) && t in q && !Due(t, c)
    ensures t in q'
  {
    AllOrNone(q, c);
    assert t in multiset(Others(q, c));
    assert t in multiset(q');
  }

  lemma DueIsRearmed(q: seq<Task>, c: Cutoffs, q': seq<Task>, out: seq<Task>, t: Task)
    requires Drains(q, c, q', out) && t in q && Due(t, c) && t.repeat.Some?
    ensures Rearm(t, c) in q'
  {
    var due := DueTasks(q, c);
    assert t in due by { AllOrNone(q, c); }
    assert Rearm(t, c) in Rearms(due, c) by { RearmsMembers(due, c); }
    assert Rearm(t, c) in multiset(Rearms(due, c));
    assert Rearm(t, c) in multiset(q');
  }

  lemma IdOf(q: seq<Task>, t: Task)
    requires t in q
    ensures t.id in Ids(q)
  {
    var i :| 0 <= i < |q| && q[i] == t;
    assert Ids(q)[i] == t.id;
  }

  lemma TaskOf(q: seq<Task>, id: nat) returns (t: Task)
    requires id in Ids(q)
    ensures t in q && t.id == id
  {
    var i :| 0 <= i < |q| && Ids(q)[i] == id;
    t := q[i];
  }

  lemma {:induction false} WithoutIdMembers(q: seq<Task>, id: nat)
    ensures forall t :: t in WithoutId(q, id) <==> t in q && t.id != id
  {
    if q != [] {
      WithoutIdMembers(q[1..], id);
      assert q == [q[0]] + q[1..];
    }
  }

  lemma {:induction false} WithoutIdIds(q: seq<Task>, id: nat)
    ensures multiset(Ids(WithoutId(q, id))) <= multiset(Ids(q))
  {
    if q != [] {
      var rest := WithoutId(q[1..], id);
      WithoutIdIds(q[1..], id);
      assert q == [q[0]] + q[1..];
      IdsCons(q[0], q[1..]);
      if q[0].id != id {
        IdsCons(q[0], rest);
      } else {
        assert WithoutId(q, id) == rest;
      }
    }
  }

  // ----- Every step keeps the invariant -----

  lemma NextIdIsFresh(s: State)
    requires CountersOk(s) && TasksOk(s) && s.allotted < U32
    ensures Serial(s.nextId) == s.allotted && s.nextId < U32
    ensures s.nextId !in s.cancelled && s.nextId !in Ids(s.queue) && s.nextId !in s.requests && s.nextId !in s.fired
  {
    if s.nextId in Ids(s.queue) {
      var t := TaskOf(s.queue, s.nextId);
      assert TaskOk(s, t);
    }
  }

  lemma OnceMore(q: seq<Task>, t: Task)
    requires OnceEach(multiset(Ids(q))) && t.id !in Ids(q)
    ensures OnceEach(multiset(Ids(q + [t])))
  {
    IdsConcat(q, [t]);
    assert Ids([t]) == [t.id];
    assert multiset(Ids(q))[t.id] == 0;
  }

  /** A new task is what the page asked for. */
  lemma ScheduledAsAsked(s: State, e: Event)
    requires CountersOk(s) && TasksOk(s) && Enabled(s, e) && e.Schedule?
    ensures TaskOk(Apply(s, e), NewTask(s.nextId, s.clock, e.kind, e.delay, e.payload))
  {
    NextIdIsFresh(s);
  }

  lemma ScheduleTasks(s: State, e: Event)
    requires CountersOk(s) && TasksOk(s) && Enabled(s, e) && e.Schedule?
    ensures TasksOk(Apply(s, e))
  {
    NextIdIsFresh(s);
    ScheduledAsAsked(s, e);
    forall u | u in s.queue ensures TaskOk(Apply(s, e), u) {
      assert TaskOk(s, u);
      IdOf(s.queue, u);
    }
  }

  lemma ScheduleCounters(s: State, e: Event)
    requires CountersOk(s) && TasksOk(s) && Enabled(s, e) && e.Schedule?
    ensures CountersOk(Apply(s, e))
  {
    NextIdIsFresh(s);
    var s' := Apply(s, e);
    forall id: nat ensures id in s'.requests <==> Issued(id, s'.allotted) {
      SerialIsInjective(id, s.nextId);
    }
  }

  lemma SerialIsInjective(a: nat, b: nat)
    requires b < U32
    ensures a < U32 && Serial(a) == Serial(b) ==> a == b
  {
  }

  lemma ScheduleMissesNone(s: State, e: Event)
    requires Inv(s) && Enabled(s, e) && e.Schedule?
    ensures NoneMissing(Apply(s, e))
  {
    NextIdIsFresh(s);
    var t, s' := NewTask(s.nextId, s.clock, e.kind, e.delay, e.payload), Apply(s, e);
    forall id | Pending(s', id) ensures id in Ids(s'.queue) {
      if id == s.nextId {
        IdOf(s'.queue, t);
      } else {
        assert Pending(s, id);
        var u := TaskOf(s.queue, id);
        IdOf(s'.queue, u);
      }
    }
  }

  lemma ScheduleKeeps(s: State, e: Event)
    requires Inv(s) && Enabled(s, e) && e.Schedule?
    ensures Inv(Apply(s, e))
  {
    NextIdIsFresh(s);
    OnceMore(s.queue, NewTask(s.nextId, s.clock, e.kind, e.delay, e.payload));
    assert TasksOk(Apply(s, e)) by { ScheduleTasks(s, e); }
    assert CountersOk(Apply(s, e)) by { ScheduleCounters(s, e); }
    assert NoneMissing(Apply(s, e)) by { ScheduleMissesNone(s, e); }
  }

  lemma SameIdSameTask(q: seq<Task>, t: Task, u: Task)
    requires OnceEach(multiset(Ids(q))) && t in q && u in q && t.id == u.id
    ensures t == u
  {
    OnceMeansDistinct(Ids(q));
    var i :| 0 <= i < |q| && q[i] == t;
    var j :| 0 <= j < |q| && q[j] == u;
    assert Ids(q)[i] == Ids(q)[j];
  }

  /** Whatever is queued is still as asked for, if it did not fire. */
  lemma UnfiredOk(s: State, s': State, out: seq<Task>, cutoff: nat, t: Task)
    requires TaskOk(s, t) && t.id !in IdSet(out)
    requires s'.requests == s.requests && s'.cancelled == s.cancelled && s'.fired == FiredAt(s.fired, out, cutoff)
    ensures TaskOk(s', t)
  {
  }

  /** A re-armed interval is due one period after the cutoff. */
  lemma RearmedOk(s: State, s': State, c: Cutoffs, out: seq<Task>, u: Task)
    requires TaskOk(s, u) && u.repeat.Some? && u in out
    requires s'.requests == s.requests && s'.cancelled == s.cancelled && s'.fired == FiredAt(s.fired, out, c.timer)
    ensures TaskOk(s', Rearm(u, c))
  {
    assert u.id in IdSet(out);
  }

  lemma NotDueNotFired(q: seq<Task>, c: Cutoffs, q': seq<Task>, out: seq<Task>, t: Task)
    requires Drains(q, c, q', out) && OnceEach(multiset(Ids(q))) && t in q && !Due(t, c)
    ensures t.id !in IdSet(out)
  {
    if t.id in IdSet(out) {
      var u :| u in out && u.id == t.id;
      DrainMembers(q, c, q', out);
      SameIdSameTask(q, t, u);
    }
  }

  lemma DrainTasks(s: State, e: Event)
    requires OnceEach(multiset(Ids(s.queue))) && TasksOk(s) && Enabled(s, e) && e.Drain?
    ensures TasksOk(Apply(s, e))
  {
    DrainMembers(s.queue, e.c, e.after, e.out);
    forall t | t in e.after ensures TaskOk(Apply(s, e), t) {
      if t in s.queue && !Due(t, e.c) {
        NotDueNotFired(s.queue, e.c, e.after, e.out, t);
        UnfiredOk(s, Apply(s, e), e.out, e.c.timer, t);
      } else {
        var u :| u in s.queue && Due(u, e.c) && u.repeat.Some? && t == Rearm(u, e.c);
        RearmedOk(s, Apply(s, e), e.c, e.out, u);
      }
    }
  }

  lemma DrainMissesNone(s: State, e: Event)
    requires Inv(s) && Enabled(s, e) && e.Drain?
    ensures NoneMissing(Apply(s, e))
  {
    var s' := Apply(s, e);
    DrainMembers(s.queue, e.c, e.after, e.out);
    forall id | Pending(s', id) ensures id in Ids(s'.queue) {
      assert Pending(s, id);
      var u := TaskOf(s.queue, id);
      assert TaskOk(s, u);
      if Due(u, e.c) {
        assert id in IdSet(e.out);
        DueIsRearmed(s.queue, e.c, e.after, e.out, u);
        IdOf(s'.queue, Rearm(u, e.c));
      } else {
        NotDueStays(s.queue, e.c, e.after, e.out, u);
        IdOf(s'.queue, u);
      }
    }
  }

  lemma DrainCounters(s: State, e: Event)
    requires Inv(s) && Enabled(s, e) && (e.Drain? || e.DrainTimeouts?)
    ensures CountersOk(Apply(s, e))
  {
    if e.Drain? { DrainMembers(s.queue, e.c, e.after, e.out); } else { TimeoutsMembers(s.queue, e.cutoff, e.after, e.out); }
    forall id | id in IdSet(e.out) ensures id in s.requests {
      var t :| t in e.out && t.id == id;
      assert TaskOk(s, t);
    }
  }

  lemma DrainKeeps(s: State, e: Event)
    requires Inv(s) && Enabled(s, e) && e.Drain?
    ensures Inv(Apply(s, e))
  {
    assert OnceEach(multiset(Ids(e.after))) by {
      DrainIds(s.queue, e.c, e.after, e.out);
    }
    assert TasksOk(Apply(s, e)) by { DrainTasks(s, e); }
    assert NoneMissing(Apply(s, e)) by { DrainMissesNone(s, e); }
    assert CountersOk(Apply(s, e)) by { DrainCounters(s, e); }
  }

  lemma CancelMissesNone(s: State, id: nat)
    requires Inv(s)
    ensures NoneMissing(Apply(s, Cancel(id)))
  {
    var s' := Apply(s, Cancel(id));
    WithoutIdMembers(s.queue, id);
    forall h | Pending(s', h) ensures h in Ids(s'.queue) {
      assert Pending(s, h);
      var u := TaskOf(s.queue, h);
      IdOf(s'.queue, u);
    }
  }

  lemma CancelTasks(s: State, id: nat)
    requires TasksOk(s)
    ensures TasksOk(Apply(s, Cancel(id)))
  {
    var s' := Apply(s, Cancel(id));
    WithoutIdMembers(s.queue, id);
    forall t | t in s'.queue ensures TaskOk(s', t) {
      assert TaskOk(s, t);
      assert Pending(s', t.id);
    }
  }

  lemma CancelKeeps(s: State, id: nat)
    requires Inv(s)
    ensures Inv(Apply(s, Cancel(id)))
  {
    assert OnceEach(multiset(Ids(WithoutId(s.queue, id)))) by {
      WithoutIdIds(s.queue, id);
    }
    assert TasksOk(Apply(s, Cancel(id))) by { CancelTasks(s, id); }
    assert NoneMissing(Apply(s, Cancel(id))) by { CancelMissesNone(s, id); }
  }

  lemma TimeoutsApart(q: seq<Task>, cutoff: nat, q': seq<Task>, out: seq<Task>, t: Task)
    requires DrainsTimeouts(q, cutoff, q', out) && OnceEach(multiset(Ids(q))) && t in q'
    ensures t.id !in IdSet(out)
  {
    TimeoutsMembers(q, cutoff, q', out);
    if t.id in IdSet(out) {
      var u :| u in out && u.id == t.id;
      SameIdSameTask(q, t, u);
    }
  }

  lemma DrainTimeoutsKeeps(s: State, e: Event)
    requires Inv(s) && Enabled(s, e) && e.DrainTimeouts?
    ensures Inv(Apply(s, e))
  {
    TimeoutsMembers(s.queue, e.cutoff, e.after, e.out);
    assert TasksOk(Apply(s, e)) by {
      forall t | t in e.after ensures TaskOk(Apply(s, e), t) {
        TimeoutsApart(s.queue, e.cutoff, e.after, e.out, t);
        UnfiredOk(s, Apply(s, e), e.out, e.cutoff, t);
      }
    }
    assert NoneMissing(Apply(s, e)) by { TimeoutsMissNone(s, e); }
    assert CountersOk(Apply(s, e)) by { DrainCounters(s, e); }
  }

  lemma TimeoutsMissNone(s: State, e: Event)
    requires Inv(s) && Enabled(s, e) && e.DrainTimeouts?
    ensures NoneMissing(Apply(s, e))
  {
    var s' := Apply(s, e);
    forall id | Pending(s', id) ensures id in Ids(s'.queue) {
      assert Pending(s, id);
      var u := TaskOf(s.queue, id);
      assert TaskOk(s, u);
      assert u in multiset(s.queue);
      assert u in multiset(e.after) || u in multiset(e.out);
      if u in e.out { assert id in IdSet(e.out) && DueTimeout(u, e.cutoff); }
      IdOf(s'.queue, u);
    }
  }

  lemma TimeoutsMembers(q: seq<Task>, cutoff: nat, q': seq<Task>, out: seq<Task>)
    requires DrainsTimeouts(q, cutoff, q', out)
    ensures forall t :: t in q' || t in out ==> t in q
    ensures multiset(Ids(q')) <= multiset(Ids(q)) && multiset(Ids(out)) <= multiset(Ids(q))
  {
    IdsContents(q' + out, q);
    IdsConcat(q', out);
    forall t | t in q' || t in out ensures t in q {
      assert t in multiset(q') || t in multiset(out);
      assert t in multiset(q);
    }
  }

  lemma TickKeeps(s: State, e: Event)
    requires Inv(s) && e.Tick?
    ensures Inv(Apply(s, e))
  {
    assert forall t :: t in s.queue ==> TaskOk(s, t);
    assert forall id :: Pending(Apply(s, e), id) ==> Pending(s, id);
  }

  lemma InvStep(s: State, e: Event)
    requires Inv(s) && Enabled(s, e)
    ensures Inv(Apply(s, e))
  {
    match e
    case Schedule(_, _, _) => ScheduleKeeps(s, e);
    case Cancel(id) => CancelKeeps(s, id);
    case Drain(_, _, _) => DrainKeeps(s, e);
    case DrainTimeouts(_, _, _) => DrainTimeoutsKeeps(s, e);
    case Tick(_) => TickKeeps(s, e);
  }

  lemma {:induction false} RunKeepsInv(s: State, es: seq<Event>)
    requires Inv(s) && Legal(s, es)
    ensures Inv(After(s, es))
    decreases |es|
  {
    if es != [] {
      InvStep(s, es[0]);
      RunKeepsInv(Apply(s, es[0]), es[1..]);
    }
  }

  lemma ReachableInv(s: State)
    requires Reachable(s)
    ensures Inv(s)
  {
    var es: seq<Event> :| Legal(Init(), es) && After(Init(), es) == s;
    RunKeepsInv(Init(), es);
  }

  lemma {:induction false} OnceMeansDistinct(ids: seq<nat>)
    requires OnceEach(multiset(ids))
    ensures NoDuplicates(ids)
  {
    forall i, j | 0 <= i < j < |ids| ensures ids[i] != ids[j] {
      assert ids == ids[..j] + ids[j..];
      assert ids[i] in multiset(ids[..j]) && ids[j] in multiset(ids[j..]);
      assert multiset(ids)[ids[i]] == multiset(ids[..j])[ids[i]] + multiset(ids[j..])[ids[i]];
    }
  }

  // ----- Main results -----

  /** The ids in the queue are distinct in every reachable state. */
  lemma QueueIdsDistinct(s: State)
    requires Reachable(s)
    ensures NoDuplicates(Ids(s.queue))
  {
    ReachableInv(s);
    OnceMeansDistinct(Ids(s.queue));
  }

  /** No drain returns two tasks with one id, or a task whose id was ever cancelled. */
  lemma CancelledNeverFires(s: State, e: Event)
    requires Reachable(s) && Enabled(s, e) && (e.Drain? || e.DrainTimeouts?)
    ensures NoDuplicates(Ids(e.out))
    ensures forall t :: t in e.out ==> t.id !in s.cancelled
  {
    ReachableInv(s);
    if e.Drain? {
      DrainIds(s.queue, e.c, e.after, e.out);
      DrainMembers(s.queue, e.c, e.after, e.out);
    } else {
      TimeoutsMembers(s.queue, e.cutoff, e.after, e.out);
    }
    OnceMeansDistinct(Ids(e.out));
  }

  /** A cancelled id stays cancelled, so the previous lemma covers every later drain. */
  lemma {:induction false} CancelledForever(s: State, es: seq<Event>, id: nat)
    requires Legal(s, es) && id in s.cancelled
    ensures id in After(s, es).cancelled
    decreases |es|
  {
    if es != [] {
      CancelledForever(Apply(s, es[0]), es[1..], id);
    }
  }

  /** A drain with frame cutoff `snapshot` only fires frames requested before that instant. */
  lemma FramesWaitForTheNextDrain(s: State, e: Event, t: Task)
    requires Reachable(s) && Enabled(s, e) && e.Drain? && t in e.out && t.kind == AnimationFrame
    ensures t.id in s.requests && s.requests[t.id].kind == AnimationFrame && s.requests[t.id].at < e.c.frame
  {
    ReachableInv(s);
    DrainMembers(s.queue, e.c, e.after, e.out);
    assert TaskOk(s, t);
  }

  /** A drain returns an id exactly if it is pending and due by the cutoff of its kind. */
  lemma FiresIff(s: State, e: Event, id: nat)
    requires Reachable(s) && Enabled(s, e) && e.Drain?
    ensures id in IdSet(e.out) <==>
            Pending(s, id) && DueAt(s, id) <= if s.requests[id].kind == AnimationFrame then e.c.frame else e.c.timer
  {
    ReachableInv(s);
    DrainMembers(s.queue, e.c, e.after, e.out);
    if id in IdSet(e.out) {
      var t :| t in e.out && t.id == id;
      assert TaskOk(s, t);
    }
    if Pending(s, id) {
      var t := TaskOf(s.queue, id);
      assert TaskOk(s, t);
      if t in e.out { assert id in IdSet(e.out); }
    }
  }

  /** `drain_due_timeouts` returns an id exactly if it is a pending one-shot timeout that is due. */
  lemma TimeoutFiresIff(s: State, e: Event, id: nat)
    requires Reachable(s) && Enabled(s, e) && e.DrainTimeouts?
    ensures id in IdSet(e.out) <==> Pending(s, id) && s.requests[id].kind == Timeout && DueAt(s, id) <= e.cutoff
  {
    ReachableInv(s);
    TimeoutsMembers(s.queue, e.cutoff, e.after, e.out);
    if id in IdSet(e.out) {
      var t :| t in e.out && t.id == id;
      assert TaskOk(s, t);
    }
    if Pending(s, id) && s.requests[id].kind == Timeout && DueAt(s, id) <= e.cutoff {
      var t := TaskOf(s.queue, id);
      assert TaskOk(s, t) && DueTimeout(t, e.cutoff);
      assert t in multiset(s.queue);
      assert t in multiset(e.after) || t in multiset(e.out);
      assert t in e.out;
    }
  }

  /** What a drain returns is what was asked for under that id. */
  lemma FiredAsAsked(s: State, e: Event, t: Task)
    requires Reachable(s) && Enabled(s, e) && (e.Drain? || e.DrainTimeouts?) && t in e.out
    ensures t.id in s.requests && t.kind == s.requests[t.id].kind && t.payload == s.requests[t.id].payload
    ensures t.fireAt == DueAt(s, t.id)
  {
    ReachableInv(s);
    if e.Drain? { DrainMembers(s.queue, e.c, e.after, e.out); } else { TimeoutsMembers(s.queue, e.cutoff, e.after, e.out); }
    assert TaskOk(s, t);
  }

  /** Earlier deadlines fire first, then smaller ids. */
  lemma FiringOrder(s: State, e: Event, i: nat, j: nat)
    requires Reachable(s) && Enabled(s, e) && (e.Drain? || e.DrainTimeouts?) && i < j < |e.out|
    ensures var a, b := e.out[i].id, e.out[j].id;
            a in s.requests && b in s.requests && (DueAt(s, a) < DueAt(s, b) || (DueAt(s, a) == DueAt(s, b) && a < b))
  {
    FiredAsAsked(s, e, e.out[i]);
    FiredAsAsked(s, e, e.out[j]);
    CancelledNeverFires(s, e);
    assert NotAfter(e.out[i], e.out[j]);
    assert Ids(e.out)[i] != Ids(e.out)[j];
  }

  /** An interval that fired is due again one period after the cutoff, a one-shot never again. */
  lemma FiresAgain(s: State, e: Event, id: nat)
    requires Reachable(s) && Enabled(s, e) && e.Drain? && id in IdSet(e.out)
    ensures id in s.requests && (Pending(Apply(s, e), id) <==> s.requests[id].kind == Interval)
    ensures s.requests[id].kind == Interval ==>
              DueAt(Apply(s, e), id) == (e.c.timer + if s.requests[id].delay == 0 then 1 else s.requests[id].delay) % U64
  {
    FiresIff(s, e, id);
  }

  /** The time a page asked for: the request plus the delay, or plus at least 1 for an interval. */
  function AskedFor(r: Request): nat { r.at + if r.kind == Interval && r.delay == 0 then 1 else r.delay }

  /** The first firing of a timer, by drains from the time of the request on, is not before the time
      asked for and not after the first drain from then on, exactly if that time has 64 bits; a later
      time wraps and the timer fires at once. */
  lemma OnTimeIff(s: State, e: Event, id: nat)
    requires Reachable(s) && Enabled(s, e) && e.Drain? && Pending(s, id) && id !in s.fired
    requires s.requests[id].kind != AnimationFrame && e.c.timer >= s.requests[id].at
    ensures AskedFor(s.requests[id]) < 0x1_0000_0000_0000_0000 ==> (id in IdSet(e.out) <==> AskedFor(s.requests[id]) <= e.c.timer)
    ensures AskedFor(s.requests[id]) >= 0x1_0000_0000_0000_0000 ==> id in IdSet(e.out)
  {
    FiresIff(s, e, id);
    assert CountersOk(s) by { ReachableInv(s); }
    FirstDue(s, id);
    Wraps(AskedFor(s.requests[id]));
  }

  lemma FirstDue(s: State, id: nat)
    requires id in s.requests && id !in s.fired && s.requests[id].kind != AnimationFrame
    ensures DueAt(s, id) == AskedFor(s.requests[id]) % U64
  {
  }

  lemma Wraps(x: nat)
    ensures x < U64 ==> x % U64 == x
    ensures U64 <= x < U64 + U64 ==> x % U64 == x - U64
  {
  }

  /** Pushing a task just returned by a drain back verbatim keeps ids distinct exactly when it
      is not a repeating one: a repeating task was re-queued by the drain already. */
  lemma RequeueDuplicatesIntervals(s: State, e: Event, t: Task)
    requires Reachable(s) && Enabled(s, e) && e.Drain? && t in e.out
    ensures OnceEach(multiset(Ids(e.after + [t]))) <==> t.repeat.None?
  {
    assert OnceEach(multiset(Ids(s.queue))) by { ReachableInv(s); }
    DrainedIdCount(s.queue, e.c, e.after, e.out, t);
    IdsConcat(e.after, [t]);
    assert Ids([t]) == [t.id];
    assert multiset(Ids(e.after + [t])) == multiset(Ids(e.after)) + multiset{t.id};
    DrainIds(s.queue, e.c, e.after, e.out);
    assert t.repeat.Some? ==> multiset(Ids(e.after + [t]))[t.id] == 2;
  }

  // ----- Drains that do not return -----

  /** In every reachable state a drain returns exactly if no due repeating task has a period that
      overflows 64 bits when added to the cutoff. */
  lemma DrainReturnsIff(s: State, c: Cutoffs)
    requires Reachable(s) && c.timer < U64
    ensures !NeverHalts(s.queue, c) <==>
            forall t :: t in s.queue && Due(t, c) && t.repeat.Some? ==> c.timer + t.repeat.value < U64
  {
    ReachableInv(s);
    DrainHaltsIff(s.queue, c);
    forall t | t in s.queue
      ensures Stuck(t, c) <==> Due(t, c) && t.repeat.Some? && c.timer + t.repeat.value >= U64
    {
      assert TaskOk(s, t);
      StuckMeansOverflow(t, c);
    }
  }

  /** The failing run: wherever a run has got to after the first millisecond, one `setInterval` with
      an infinite period makes every later drain spin for ever. */
  lemma InfinitePeriodHangs(s: State, payload: nat, c: Cutoffs)
    requires Reachable(s) && 1 <= s.clock <= c.timer < U64 && Enabled(s, Schedule(Interval, U64 - 1, payload))
    ensures Reachable(Apply(s, Schedule(Interval, U64 - 1, payload)))
    ensures NeverHalts(Apply(s, Schedule(Interval, U64 - 1, payload)).queue, c)
  {
    var e := Schedule(Interval, U64 - 1, payload);
    var s' := Apply(s, e);
    ReachableNext(s, e);
    ReachableInv(s);
    NextIdIsFresh(s);
    var t := NewTask(s.nextId, s.clock, Interval, U64 - 1, payload);
    InfinitePeriodIsStuck(s.nextId, s.clock, payload, c);
    assert t in s'.queue;
    DrainHaltsIff(s'.queue, c);
  }

  lemma {:induction false} LegalAppend(s: State, es: seq<Event>, e: Event)
    requires Legal(s, es) && Enabled(After(s, es), e)
    ensures Legal(s, es + [e]) && After(s, es + [e]) == Apply(After(s, es), e)
    decreases |es|
  {
    if es == [] {
      assert [] + [e] == [e] && [e][1..] == [];
    } else {
      LegalAppend(Apply(s, es[0]), es[1..], e);
      assert (es + [e])[1..] == es[1..] + [e];
    }
  }

  lemma ReachableNext(s: State, e: Event)
    requires Reachable(s) && Enabled(s, e)
    ensures Reachable(Apply(s, e))
  {
    var es: seq<Event> :| Legal(Init(), es) && After(Init(), es) == s;
    LegalAppend(Init(), es, e);
  }

  // ----- Pushing a task back later -----

  /** `requeue`: the task goes back verbatim, to be fired after all. */
  function Requeued(s: State, t: Task): State { s.(queue := s.queue + [t], fired := s.fired - {t.id}) }

  /** What holds of a drained task for good: a one-shot is what was asked for under its id. */
  ghost predicate WasOk(s: State, t: Task) {
    && IsTask(t) && t.id in s.requests && t.kind == s.requests[t.id].kind && t.payload == s.requests[t.id].payload
    && (t.kind != Interval ==> t.repeat.None? && t.fireAt == DueAt(s, t.id))
  }

  /** A task returned by a drain, some run later. */
  ghost predicate Drained(s: State, e: Event, es: seq<Event>, t: Task) {
    Reachable(s) && Enabled(s, e) && (e.Drain? || e.DrainTimeouts?) && t in e.out && Legal(Apply(s, e), es)
  }

  lemma WasOkNext(s: State, e: Event, t: Task)
    requires Inv(s) && WasOk(s, t) && Enabled(s, e)
    ensures WasOk(Apply(s, e), t)
  {
    if e.Schedule? { NextIdIsFresh(s); }
  }

  lemma {:induction false} WasOkRun(s: State, es: seq<Event>, t: Task)
    requires Inv(s) && WasOk(s, t) && Legal(s, es)
    ensures WasOk(After(s, es), t)
    decreases |es|
  {
    if es != [] {
      WasOkNext(s, es[0], t);
      InvStep(s, es[0]);
      WasOkRun(Apply(s, es[0]), es[1..], t);
    }
  }

  lemma DrainedLater(s: State, e: Event, es: seq<Event>, t: Task)
    requires Drained(s, e, es, t)
    ensures var s' := After(Apply(s, e), es); Inv(s') && WasOk(s', t)
  {
    ReachableInv(s);
    InvStep(s, e);
    assert WasOk(s, t) by { DrainedWasOk(s, e, t); }
    WasOkNext(s, e, t);
    WasOkRun(Apply(s, e), es, t);
    RunKeepsInv(Apply(s, e), es);
  }

  lemma DrainedWasOk(s: State, e: Event, t: Task)
    requires Inv(s) && Enabled(s, e) && (e.Drain? || e.DrainTimeouts?) && t in e.out
    ensures WasOk(s, t)
  {
    if e.Drain? { DrainMembers(s.queue, e.c, e.after, e.out); } else { TimeoutsMembers(s.queue, e.cutoff, e.after, e.out); }
    assert TaskOk(s, t);
  }

  /** A one-shot that is not queued goes back as what was asked for. */
  lemma RequeueKeeps(s: State, t: Task)
    requires Inv(s) && WasOk(s, t) && t.kind != Interval && t.id !in Ids(s.queue) && t.id !in s.cancelled
    ensures Inv(Requeued(s, t))
  {
    var r := Requeued(s, t);
    OnceMore(s.queue, t);
    forall u | u in r.queue ensures TaskOk(r, u) {
      if u in s.queue {
        assert TaskOk(s, u);
        IdOf(s.queue, u);
      }
    }
    forall id | Pending(r, id) ensures id in Ids(r.queue) {
      if id == t.id {
        IdOf(r.queue, t);
      } else {
        assert Pending(s, id);
        var u := TaskOf(s.queue, id);
        IdOf(r.queue, u);
      }
    }
  }

  lemma RequeueKeepsIff(s: State, t: Task)
    requires Inv(s) && WasOk(s, t)
    ensures Inv(Requeued(s, t)) <==> t.id !in Ids(s.queue) && t.id !in s.cancelled
  {
    var r := Requeued(s, t);
    assert t in r.queue;
    assert t.kind == Interval && t.id !in s.cancelled ==> Pending(s, t.id);
    if t.id in Ids(s.queue) {
      IdsConcat(s.queue, [t]);
      assert Ids([t]) == [t.id];
      assert multiset(Ids(s.queue))[t.id] >= 1;
      assert multiset(Ids(r.queue))[t.id] >= 2;
    } else if t.id in s.cancelled {
      assert !TaskOk(r, t);
    } else {
      RequeueKeeps(s, t);
    }
  }

  /** Pushing a drained task back, however much later, keeps everything the run results rest on
      exactly if its id is not queued again and has not been cancelled in between. */
  lemma RequeueIsSafeIff(s: State, e: Event, es: seq<Event>, t: Task)
    requires Drained(s, e, es, t)
    ensures var s' := After(Apply(s, e), es); Inv(Requeued(s', t)) <==> t.id !in Ids(s'.queue) && t.id !in s'.cancelled
  {
    DrainedLater(s, e, es, t);
    RequeueKeepsIff(After(Apply(s, e), es), t);
  }

  /** A drain after a `requeue` fires a cancelled id exactly if the task pushed back was cancelled in
      between and is due: nothing drops it. */
  lemma RequeuedFiresIff(s: State, e: Event, es: seq<Event>, t: Task, c: Cutoffs, after: seq<Task>, out: seq<Task>)
    requires Drained(s, e, es, t) && Drains(Requeued(After(Apply(s, e), es), t).queue, c, after, out)
    ensures var s' := After(Apply(s, e), es); (exists u :: u in out && u.id in s'.cancelled) <==> t.id in s'.cancelled && Due(t, c)
  {
    var s' := After(Apply(s, e), es);
    DrainedLater(s, e, es, t);
    var q := Requeued(s', t).queue;
    DrainMembers(q, c, after, out);
    assert t in q;
    forall u | u in out && u.id in s'.cancelled ensures u == t {
      assert u in s'.queue ==> TaskOk(s', u);
    }
  }

  lemma DrainedIdCount(q: seq<Task>, c: Cutoffs, q': seq<Task>, out: seq<Task>, t: Task)
    requires Drains(q, c, q', out) && t in out && OnceEach(multiset(Ids(q)))
    ensures multiset(Ids(q'))[t.id] == if t.repeat.Some? then 1 else 0
  {
    var due := DueTasks(q, c);
    assert t in multiset(out);
    assert t in multiset(due);
    var j :| 0 <= j < |due| && due[j] == t;
    assert multiset(Ids(q))[t.id] == multiset(Ids(Others(q, c)))[t.id] + multiset(Ids(due))[t.id] by { IdsSplit(q, c); }
    RearmIdCount(due, c, j);
    DrainIds(q, c, q', out);
  }

  /** With distinct ids, the re-armed entries hold the id of a due task once or not at all. */
  lemma {:induction false} RearmIdCount(q: seq<Task>, c: Cutoffs, j: nat)
    requires j < |q| && multiset(Ids(q))[q[j].id] <= 1
    ensures multiset(Ids(q))[q[j].id] == 1
    ensures multiset(Ids(Rearms(q, c)))[q[j].id] == if q[j].repeat.Some? then 1 else 0
  {
    var l, r := q[..j], q[j + 1..];
    assert q == l + ([q[j]] + r);
    IdsConcat(l, [q[j]] + r);
    IdsConcat([q[j]], r);
    assert Ids([q[j]]) == [q[j].id];
    RearmsConcat(l, [q[j]] + r, c);
    RearmsConcat([q[j]], r, c);
    var mid := Rearms([q[j]], c);
    assert [q[j]][1..] == [] && Rearms([], c) == [];
    assert Ids(mid) == if q[j].repeat.Some? then [q[j].id] else [];
    IdsConcat(Rearms(l, c), mid + Rearms(r, c));
    IdsConcat(mid, Rearms(r, c));
    IdsOfRearms(l, c);
    IdsOfRearms(r, c);
  }
}
