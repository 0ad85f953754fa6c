/**
 The sequenced task runner of crates/cv_base/src/task.rs.

 Everything the source does while it holds the pool mutex is one atomic step here, and
 everything it does outside the mutex (running a task, notifying the condition variable
 after the guard was dropped, sleeping) is a step of its own.  `PoolInner` is the mutable
 structure behind the mutex; its methods are proved equal to functions on `Pool` values,
 and the protocol below runs those functions.
 */
module TaskPool {
  import opened Common

  type TaskId = nat
  type SequenceId = nat
  /** A `Instant`: performance-counter ticks. */
  type Ticks = int

  datatype DelayedTask = DelayedTask(at: Ticks, seq_: nat, task: TaskId)

  /** `a` leaves the heap before `b`: the reversed `Ord` of the source. */
  predicate Precedes(a: DelayedTask, b: DelayedTask) {
    a.at < b.at || (a.at == b.at && a.seq_ < b.seq_)
  }

  predicate InHeapOrder(ds: seq<DelayedTask>) {
    forall i, j :: 0 <= i < j < |ds| ==> Precedes(ds[i], ds[j])
  }

  /** The contents behind the mutex; the binary heap is listed in the order it pops. */
  datatype Pool = Pool(
    queue: seq<TaskId>,
    delayed: seq<DelayedTask>,
    running: seq<SequenceId>,
    sequences: map<SequenceId, seq<TaskId>>,
    shutdown: bool)

  datatype Work = Free(task: TaskId) | Sequenced(sequence: SequenceId, task: TaskId)

  function SequenceQueue(p: Pool, k: SequenceId): seq<TaskId> {
    if k in p.sequences then p.sequences[k] else []
  }

  // ----- Functions on pool values -----

  function HeapInsert(ds: seq<DelayedTask>, d: DelayedTask): seq<DelayedTask> {
    if ds == [] || Precedes(d, ds[0]) then [d] + ds else [ds[0]] + HeapInsert(ds[1..], d)
  }

  /** How many heap entries are due at `now`, counted from the front. */
  function RipeCount(ds: seq<DelayedTask>, now: Ticks): (n: nat)
    ensures n <= |ds|
  {
    if ds == [] || ds[0].at > now then 0 else 1 + RipeCount(ds[1..], now)
  }

  function TasksOf(ds: seq<DelayedTask>): (ts: seq<TaskId>)
    ensures |ts| == |ds|
  {
    seq(|ds|, i requires 0 <= i < |ds| => ds[i].task)
  }

  function Promote(p: Pool, now: Ticks): Pool {
    var n := RipeCount(p.delayed, now);
    p.(queue := p.queue + TasksOf(p.delayed[..n]), delayed := p.delayed[n..])
  }

  /** A sequence that a worker may take a task from. */
  predicate Ready(p: Pool, k: SequenceId) {
    k !in p.running && SequenceQueue(p, k) != []
  }

  function TakeFrom(p: Pool, k: SequenceId): Pool
    requires Ready(p, k)
  {
    p.(running := p.running + [k], sequences := p.sequences[k := p.sequences[k][1..]])
  }

  /** `pick_one` turns `p` into `q` and returns `work`.  Which ready sequence it takes depends
      on the iteration order of a hash map, so any of them is possible. */
  predicate PickEnds(p: Pool, now: Ticks, q: Pool, work: Option<Work>) {
    var m := Promote(p, now);
    match work
    case Some(Free(t)) => m.queue != [] && t == m.queue[0] && q == m.(queue := m.queue[1..])
    case Some(Sequenced(k, t)) => m.queue == [] && Ready(m, k) && t == m.sequences[k][0] && q == TakeFrom(m, k)
    case None => m.queue == [] && q == m && forall k :: k in m.sequences ==> !Ready(m, k)
  }

  predicate Drained(p: Pool) {
    && p.queue == [] && p.delayed == []
    && forall k :: k in p.sequences ==> p.sequences[k] == []
  }

  /** What one pass of the inner loop of `worker_loop` ends with. */
  datatype Outcome = Return | Run(work: Work) | WaitFor(micros: nat) | Wait

  /** `(at - now).as_micros().max(0)`, where `freq` is the number of ticks per second. */
  function MicrosUntil(at: Ticks, now: Ticks, freq: nat): nat
    requires freq > 0
  {
    if at <= now then 0 else (at - now) * 1_000_000 / freq
  }

  predicate TurnEnds(p: Pool, now: Ticks, later: Ticks, freq: nat, q: Pool, outcome: Outcome)
    requires freq > 0
  {
    if p.shutdown && Drained(p) then outcome == Return && q == p
    else match outcome
      case Return => false
      case Run(work) => PickEnds(p, now, q, Some(work))
      case WaitFor(us) =>
        PickEnds(p, now, q, None) && q.delayed != [] && us == MicrosUntil(q.delayed[0].at, later, freq)
      case Wait => PickEnds(p, now, q, None) && q.delayed == []
  }

  function Without(ks: seq<SequenceId>, k: SequenceId): (r: seq<SequenceId>)
    ensures forall x :: x in r <==> x in ks && x != k
    ensures NoDuplicates(ks) ==> NoDuplicates(r)
  {
    if ks == [] then []
    else
      var r := Without(ks[1..], k);
      assert forall x :: x in ks <==> x == ks[0] || x in ks[1..];
      assert NoDuplicates(ks) ==> NoDuplicates(ks[1..]) && ks[0] !in ks[1..];
      if ks[0] == k then r else [ks[0]] + r
  }

  // ----- The structure behind the mutex -----

  class PoolInner {
    var queue: seq<TaskId>
    var delayed: seq<DelayedTask>
    var runningSequences: seq<SequenceId>
    var sequenceQueues: map<SequenceId, seq<TaskId>>
    var shutdown: bool

    constructor ()
      ensures Value() == Pool([], [], [], map[], false)
    {
      queue, delayed, runningSequences, sequenceQueues, shutdown := [], [], [], map[], false;
    }

    function Value(): Pool
      reads this
    {
      Pool(queue, delayed, runningSequences, sequenceQueues, shutdown)
    }

    method PushDelayed(d: DelayedTask)
      modifies this
      ensures Value() == old(Value()).(delayed := HeapInsert(old(delayed), d))
    {
      var i := 0;
      while i < |delayed| && !Precedes(d, delayed[i])
        invariant i <= |delayed|
        invariant HeapInsert(delayed, d) == delayed[..i] + HeapInsert(delayed[i..], d)
      {
        assert delayed[..i] + [delayed[i]] == delayed[..i + 1];
        assert delayed[i..][1..] == delayed[i + 1..];
        i := i + 1;
      }
      assert i < |delayed| ==> delayed[i..][0] == delayed[i];
      assert delayed[..i] + ([d] + delayed[i..]) == delayed[..i] + [d] + delayed[i..];
      delayed := delayed[..i] + [d] + delayed[i..];
    }

    method PostOnSequence(k: SequenceId, t: TaskId)
      modifies this
      ensures Value() == old(Value()).(sequences := old(sequenceQueues)[k := SequenceQueue(old(Value()), k) + [t]])
    {
      if k !in sequenceQueues {
        sequenceQueues := sequenceQueues[k := []];
      }
      sequenceQueues := sequenceQueues[k := sequenceQueues[k] + [t]];
    }

    /** The first loop of `pick_one`: due tasks go to the back of the queue. */
    method PromoteDue(now: Ticks)
      modifies this
      ensures Value() == Promote(old(Value()), now)
    {
      ghost var n := 0;
      while delayed != [] && delayed[0].at <= now
        invariant n <= |old(delayed)| && delayed == old(delayed)[n..]
        invariant queue == old(queue) + TasksOf(old(delayed)[..n])
        invariant RipeCount(old(delayed), now) == n + RipeCount(delayed, now)
        invariant runningSequences == old(runningSequences) && sequenceQueues == old(sequenceQueues)
        invariant shutdown == old(shutdown)
        decreases |delayed|
      {
        assert TasksOf(old(delayed)[..n + 1]) == TasksOf(old(delayed)[..n]) + [delayed[0].task];
        queue := queue + [delayed[0].task];
        delayed := delayed[1..];
        n := n + 1;
      }
    }

    /** `keys` lists the keys of the hash map in the order it happens to iterate. */
    method PickOne(now: Ticks, keys: seq<SequenceId>) returns (work: Option<Work>)
      requires forall k :: k in keys <==> k in sequenceQueues
      modifies this
      ensures PickEnds(old(Value()), now, Value(), work)
    {
      PromoteDue(now);
      if queue != [] {
        work := Some(Free(queue[0]));
        queue := queue[1..];
      } else {
        work := TakeReady(keys);
      }
    }

    /** The second loop of `pick_one`: the first ready sequence among `keys` gives its head. */
    method TakeReady(keys: seq<SequenceId>) returns (work: Option<Work>)
      requires forall k :: k in keys <==> k in sequenceQueues
      modifies this
      ensures match work
        case Some(Sequenced(k, t)) =>
          && k in keys && Ready(old(Value()), k) && t == old(sequenceQueues)[k][0] && Value() == TakeFrom(old(Value()), k)
        case Some(_) => false
        case None => Value() == old(Value()) && forall k :: k in keys ==> !Ready(old(Value()), k)
    {
      ghost var q := Value();
      var i := 0;
      while i < |keys|
        invariant i <= |keys| && Value() == q
        invariant forall j :: 0 <= j < i ==> !Ready(q, keys[j])
      {
        var k := keys[i];
        if k !in runningSequences && sequenceQueues[k] != [] {
          work := Some(Sequenced(k, sequenceQueues[k][0]));
          sequenceQueues := sequenceQueues[k := sequenceQueues[k][1..]];
          runningSequences := runningSequences + [k];
          return;
        }
        i := i + 1;
      }
      work := None;
    }

    /** One pass of the inner loop of `worker_loop`, from lock acquisition to release. */
    method WorkerPass(now: Ticks, later: Ticks, freq: nat, keys: seq<SequenceId>) returns (outcome: Outcome)
      requires freq > 0
      requires forall k :: k in keys <==> k in sequenceQueues
      modifies this
      ensures TurnEnds(old(Value()), now, later, freq, Value(), outcome)
    {
      if shutdown && queue == [] && delayed == [] && (forall k :: k in sequenceQueues ==> sequenceQueues[k] == []) {
        return Return;
      }
      var work := PickOne(now, keys);
      if work.Some? {
        return Run(work.value);
      }
      if delayed != [] {
        return WaitFor(MicrosUntil(delayed[0].at, later, freq));
      }
      return Wait;
    }

    /** `running_sequences.retain(..)` after a sequenced task ended. */
    method Release(k: SequenceId)
      modifies this
      ensures Value() == old(Value()).(running := Without(old(runningSequences), k))
    {
      var kept, i := [], 0;
      while i < |runningSequences|
        invariant i <= |runningSequences| && Value() == old(Value())
        invariant Without(runningSequences, k) == kept + Without(runningSequences[i..], k)
      {
        assert runningSequences[i..][1..] == runningSequences[i + 1..];
        if runningSequences[i] != k {
          kept := kept + [runningSequences[i]];
        }
        i := i + 1;
      }
      assert runningSequences[i..] == [];
      runningSequences := kept;
    }
  }
}
