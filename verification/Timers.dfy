/**
 The JavaScript timer queue of crates/cv_browser/src/scheduler.rs.  A drain scans the queue
 with an index, swap-removes what is due and pushes re-armed intervals onto the vector it is
 still scanning.
 */
module Timers {
  import opened Common

  const U64: nat := 0x1_0000_0000_0000_0000
  const U32: nat := 0x1_0000_0000

  datatype Kind = Timeout | Interval | AnimationFrame

  /** `payload` stands for the callable and its extra arguments. */
  datatype Task = Task(id: nat, fireAt: nat, repeat: Option<nat>, kind: Kind, payload: nat)

  predicate IsTask(t: Task) {
    t.id < U32 && t.fireAt < U64 && (t.repeat.Some? ==> t.repeat.value < U64)
  }

  /** The two cutoffs of a drain: timers use `timer`, animation frames use `frame`. */
  datatype Cutoffs = Cutoffs(timer: nat, frame: nat)

  predicate Due(t: Task, c: Cutoffs) {
    t.fireAt <= (if t.kind == AnimationFrame then c.frame else c.timer)
  }

  /** The entry pushed back for a due repeating task; the sum is a wrapping 64-bit one. */
  function Rearm(t: Task, c: Cutoffs): Task
    requires t.repeat.Some?
  {
    Task(t.id, (c.timer + t.repeat.value) % U64, t.repeat, Interval, t.payload)
  }

  /** A due repeating task whose re-armed entry is due again under the same cutoffs. */
  predicate Stuck(t: Task, c: Cutoffs) {
    Due(t, c) && t.repeat.Some? && Due(Rearm(t, c), c)
  }

  // ----- What a drain is meant to do, as lists -----

  function DueTasks(q: seq<Task>, c: Cutoffs): seq<Task> {
    if q == [] then [] else (if Due(q[0], c) then [q[0]] else []) + DueTasks(q[1..], c)
  }

  function Others(q: seq<Task>, c: Cutoffs): seq<Task> {
    if q == [] then [] else (if Due(q[0], c) then [] else [q[0]]) + Others(q[1..], c)
  }

  function Rearms(q: seq<Task>, c: Cutoffs): seq<Task> {
    if q == [] then [] else (if q[0].repeat.Some? then [Rearm(q[0], c)] else []) + Rearms(q[1..], c)
  }

  function Ids(q: seq<Task>): (r: seq<nat>)
    ensures |r| == |q| && forall i :: 0 <= i < |q| ==> r[i] == q[i].id
  {
    seq(|q|, i requires 0 <= i < |q| => q[i].id)
  }

  /** Earlier deadline first, then the smaller id. */
  predicate NotAfter(a: Task, b: Task) {
    a.fireAt < b.fireAt || (a.fireAt == b.fireAt && a.id <= b.id)
  }

  predicate InFiringOrder(q: seq<Task>) {
    forall i, j :: 0 <= i < j < |q| ==> NotAfter(q[i], q[j])
  }

  ghost predicate Drains(q: seq<Task>, c: Cutoffs, q': seq<Task>, out: seq<Task>) {
    && multiset(out) == multiset(DueTasks(q, c)) && InFiringOrder(out)
    && multiset(q') == multiset(Others(q, c)) + multiset(Rearms(DueTasks(q, c), c))
  }

  function InsertSorted(t: Task, q: seq<Task>): (r: seq<Task>)
    ensures forall x :: x in r <==> x in q || x == t
    ensures multiset(r) == multiset(q) + multiset{t}
  {
    if q == [] then [t]
    else if NotAfter(t, q[0]) then [t] + q
    else
      assert q == [q[0]] + q[1..];
      [q[0]] + InsertSorted(t, q[1..])
  }

  lemma {:induction false} InsertKeepsOrder(t: Task, q: seq<Task>)
    requires InFiringOrder(q)
    ensures InFiringOrder(InsertSorted(t, q))
  {
    if q != [] {
      assert forall x :: x in q ==> x == q[0] || NotAfter(q[0], x);
      if !NotAfter(t, q[0]) {
        InsertKeepsOrder(t, q[1..]);
        assert forall x :: x in InsertSorted(t, q[1..]) ==> NotAfter(q[0], x);
      }
    }
  }

  /** `sort_by_key` on (deadline, id). */
  function SortByKey(q: seq<Task>): (r: seq<Task>)
    ensures InFiringOrder(r) && multiset(r) == multiset(q)
  {
    if q == [] then []
    else
      assert q == [q[0]] + q[1..];
      InsertKeepsOrder(q[0], SortByKey(q[1..]));
      InsertSorted(q[0], SortByKey(q[1..]))
  }

  // ----- Functions of a list that only depend on its contents as a multiset -----

  lemma RemoveHead(a: seq<Task>, b: seq<Task>, j: nat)
    requires a != [] && j < |b| && b[j] == a[0] && multiset(a) == multiset(b)
    ensures multiset(a[1..]) == multiset(b[..j] + b[j + 1..])
  {
    assert a == [a[0]] + a[1..];
    assert multiset(a) - multiset{a[0]} == multiset(a[1..]);
    assert b == b[..j] + [b[j]] + b[j + 1..];
    assert multiset(b) - multiset{b[j]} == multiset(b[..j]) + multiset(b[j + 1..]);
  }

  /** A list-to-multiset function that turns concatenation into sum sees only the contents. */
  lemma {:induction false} SameContents<X>(g: seq<Task> -> multiset<X>, a: seq<Task>, b: seq<Task>)
    requires forall x: seq<Task>, y: seq<Task> :: g(x + y) == g(x) + g(y)
    requires multiset(a) == multiset(b)
    ensures g(a) == g(b)
    decreases |a|
  {
    assert |multiset(a)| == |a| && |multiset(b)| == |b|;
    if a != [] {
      assert a[0] in multiset(b);
      var j :| 0 <= j < |b| && b[j] == a[0];
      RemoveHead(a, b, j);
      SameContents(g, a[1..], b[..j] + b[j + 1..]);
      assert g(a) == g([a[0]]) + g(a[1..]) by { assert a == [a[0]] + a[1..]; }
      assert g(b) == g(b[..j]) + (g([b[j]]) + g(b[j + 1..])) by { assert b == b[..j] + ([b[j]] + b[j + 1..]); }
    }
  }

  lemma {:induction false} IdsConcat(a: seq<Task>, b: seq<Task>)
    ensures Ids(a + b) == Ids(a) + Ids(b)
  {
  }

  lemma {:induction false} DueConcat(a: seq<Task>, b: seq<Task>, c: Cutoffs)
    ensures DueTasks(a + b, c) == DueTasks(a, c) + DueTasks(b, c)
    ensures Others(a + b, c) == Others(a, c) + Others(b, c)
  {
    if a == [] {
      assert a + b == b;
    } else {
      assert a + b == [a[0]] + (a[1..] + b);
      DueConcat(a[1..], b, c);
    }
  }

  lemma {:induction false} RearmsConcat(a: seq<Task>, b: seq<Task>, c: Cutoffs)
    ensures Rearms(a + b, c) == Rearms(a, c) + Rearms(b, c)
  {
    if a == [] {
      assert a + b == b;
    } else {
      assert a + b == [a[0]] + (a[1..] + b);
      RearmsConcat(a[1..], b, c);
    }
  }

  lemma DueContents(a: seq<Task>, b: seq<Task>, c: Cutoffs)
    requires multiset(a) == multiset(b)
    ensures multiset(DueTasks(a, c)) == multiset(DueTasks(b, c))
    ensures multiset(Others(a, c)) == multiset(Others(b, c))
  {
    var due := (q: seq<Task>) => multiset(DueTasks(q, c));
    var others := (q: seq<Task>) => multiset(Others(q, c));
    forall x: seq<Task>, y: seq<Task> ensures due(x + y) == due(x) + due(y) && others(x + y) == others(x) + others(y) {
      DueConcat(x, y, c);
    }
    SameContents(due, a, b);
    SameContents(others, a, b);
  }

  lemma RearmsContents(a: seq<Task>, b: seq<Task>, c: Cutoffs)
    requires multiset(a) == multiset(b)
    ensures multiset(Rearms(a, c)) == multiset(Rearms(b, c))
  {
    var g := (q: seq<Task>) => multiset(Rearms(q, c));
    forall x: seq<Task>, y: seq<Task> ensures g(x + y) == g(x) + g(y) {
      RearmsConcat(x, y, c);
    }
    SameContents(g, a, b);
  }

  lemma IdsContents(a: seq<Task>, b: seq<Task>)
    requires multiset(a) == multiset(b)
    ensures multiset(Ids(a)) == multiset(Ids(b))
  {
    var g := (q: seq<Task>) => multiset(Ids(q));
    forall x: seq<Task>, y: seq<Task> ensures g(x + y) == g(x) + g(y) {
      IdsConcat(x, y);
    }
    SameContents(g, a, b);
  }

  /** A list without due tasks, or with only due tasks. */
  lemma {:induction false} AllOrNone(q: seq<Task>, c: Cutoffs)
    ensures (forall t :: t in q ==> !Due(t, c)) ==> DueTasks(q, c) == [] && Others(q, c) == q
    ensures (forall t :: t in q ==> Due(t, c)) ==> DueTasks(q, c) == q && Others(q, c) == []
    ensures forall t :: t in DueTasks(q, c) <==> t in q && Due(t, c)
    ensures forall t :: t in Others(q, c) <==> t in q && !Due(t, c)
  {
    if q != [] {
      AllOrNone(q[1..], c);
      assert q == [q[0]] + q[1..];
    }
  }

  lemma {:induction false} RearmsMembers(q: seq<Task>, c: Cutoffs)
    ensures forall t :: t in Rearms(q, c) <==> exists u :: u in q && u.repeat.Some? && t == Rearm(u, c)
  {
    if q != [] {
      RearmsMembers(q[1..], c);
      assert q == [q[0]] + q[1..];
    }
  }

  // ----- The scan itself -----

  /** The loop variables of `drain_due_split`. */
  datatype Scan = Scan(queue: seq<Task>, i: nat, out: seq<Task>)

  function SwapRemove(q: seq<Task>, i: nat): seq<Task>
    requires i < |q|
  {
    var last := |q| - 1;
    if i == last then q[..last] else q[..last][i := q[last]]
  }

  function ScanStep(l: Scan, c: Cutoffs): Scan {
    if l.i >= |l.queue| then l
    else
      var t := l.queue[l.i];
      if Due(t, c) then
        Scan(SwapRemove(l.queue, l.i) + (if t.repeat.Some? then [Rearm(t, c)] else []), l.i, l.out + [t])
      else l.(i := l.i + 1)
  }

  /** The loop variables after `n` iterations (unchanged once the loop is over). */
  function ScanN(q: seq<Task>, c: Cutoffs, n: nat): Scan {
    if n == 0 then Scan(q, 0, []) else ScanStep(ScanN(q, c, n - 1), c)
  }

  predicate Halted(q: seq<Task>, c: Cutoffs, n: nat) {
    ScanN(q, c, n).i >= |ScanN(q, c, n).queue|
  }

  ghost predicate NeverHalts(q: seq<Task>, c: Cutoffs) {
    forall n: nat :: !Halted(q, c, n)
  }

  ghost predicate NoneStuck(q: seq<Task>, c: Cutoffs) {
    forall t :: t in q ==> !Stuck(t, c)
  }

  /** Nothing is lost: what was queued is still queued or taken out, and one re-armed entry was
      added per repeating task taken out. */
  ghost predicate ScanInv(q: seq<Task>, c: Cutoffs, l: Scan) {
    && l.i <= |l.queue|
    && (forall k :: 0 <= k < l.i ==> !Due(l.queue[k], c))
    && (forall t :: t in l.out ==> Due(t, c))
    && multiset(l.out) <= multiset(q)
    && multiset(l.queue) + multiset(l.out) == multiset(q) + multiset(Rearms(l.out, c))
  }

  lemma ScanBegins(q: seq<Task>, c: Cutoffs)
    ensures ScanInv(q, c, Scan(q, 0, []))
  {
    assert Rearms([], c) == [];
  }

  lemma SwapRemoveContents(q: seq<Task>, i: nat)
    requires i < |q|
    ensures |SwapRemove(q, i)| == |q| - 1 && multiset(SwapRemove(q, i)) + multiset{q[i]} == multiset(q)
    ensures forall k :: 0 <= k < i ==> SwapRemove(q, i)[k] == q[k]
  {
    var last := |q| - 1;
    assert q == q[..last] + [q[last]];
    if i < last {
      assert q[..last] == q[..i] + [q[i]] + q[i + 1..last];
      assert SwapRemove(q, i) == q[..i] + [q[last]] + q[i + 1..last];
    }
  }

  /** Entries re-armed for tasks of an unstuck queue are not due. */
  lemma RearmedAreNotDue(q: seq<Task>, c: Cutoffs, l: Scan)
    requires NoneStuck(q, c) && ScanInv(q, c, l)
    ensures forall t :: t in Rearms(l.out, c) ==> !Due(t, c)
  {
    RearmsMembers(l.out, c);
    forall t | t in Rearms(l.out, c) ensures !Due(t, c) {
      var u :| u in l.out && u.repeat.Some? && t == Rearm(u, c);
      assert u in multiset(l.out);
      assert u in multiset(q);
      assert u in q && Due(u, c);
    }
  }

  /** A due task under the index was queued at the start and not yet taken out. */
  lemma DueWasQueued(q: seq<Task>, c: Cutoffs, l: Scan)
    requires NoneStuck(q, c) && ScanInv(q, c, l) && l.i < |l.queue| && Due(l.queue[l.i], c)
    ensures multiset(l.out + [l.queue[l.i]]) <= multiset(q)
  {
    var t := l.queue[l.i];
    RearmedAreNotDue(q, c, l);
    assert t !in multiset(Rearms(l.out, c));
    assert t in multiset(l.queue);
    assert (multiset(l.queue) + multiset(l.out))[t] == (multiset(q) + multiset(Rearms(l.out, c)))[t];
  }

  lemma MoveOne(queue: multiset<Task>, out: multiset<Task>, was: multiset<Task>, rearmed: multiset<Task>,
                rest: multiset<Task>, t: Task, more: multiset<Task>)
    requires queue + out == was + rearmed && rest + multiset{t} == queue
    ensures (rest + more) + (out + multiset{t}) == was + (rearmed + more)
  {
    assert rest + more + (out + multiset{t}) == (rest + multiset{t}) + out + more;
  }

  lemma ScanStepKeeps(q: seq<Task>, c: Cutoffs, l: Scan)
    requires NoneStuck(q, c) && ScanInv(q, c, l)
    ensures ScanInv(q, c, ScanStep(l, c))
  {
    if l.i < |l.queue| && Due(l.queue[l.i], c) {
      TakeKeeps(q, c, l);
    }
  }

  lemma TakeKeeps(q: seq<Task>, c: Cutoffs, l: Scan)
    requires NoneStuck(q, c) && ScanInv(q, c, l) && l.i < |l.queue| && Due(l.queue[l.i], c)
    ensures ScanInv(q, c, ScanStep(l, c))
  {
    var t, rest := l.queue[l.i], SwapRemove(l.queue, l.i);
    var more := Rearms([t], c);
    assert [t][1..] == [] && Rearms([], c) == [];
    assert more == if t.repeat.Some? then [Rearm(t, c)] else [];
    var l' := ScanStep(l, c);
    assert l'.queue == rest + more && l'.out == l.out + [t];
    SwapRemoveContents(l.queue, l.i);
    assert multiset(l'.out) <= multiset(q) by { DueWasQueued(q, c, l); }
    assert multiset(l'.queue) + multiset(l'.out) == multiset(q) + multiset(Rearms(l'.out, c)) by {
      RearmsConcat(l.out, [t], c);
      MoveOne(multiset(l.queue), multiset(l.out), multiset(q), multiset(Rearms(l.out, c)), multiset(rest), t, multiset(more));
    }
  }

  lemma SubsetIsShorter(a: seq<Task>, b: seq<Task>)
    requires multiset(a) <= multiset(b)
    ensures |a| <= |b|
  {
    var rest := multiset(b) - multiset(a);
    assert multiset(b) == multiset(a) + rest;
    assert |multiset(a)| == |a| && |multiset(b)| == |b|;
  }

  /** Splitting two equal unions into their due and their other parts. */
  lemma SplitDue(queue: seq<Task>, out: seq<Task>, q: seq<Task>, rearmed: seq<Task>, c: Cutoffs)
    requires multiset(queue + out) == multiset(q + rearmed)
    requires forall t :: t in queue || t in rearmed ==> !Due(t, c)
    requires forall t :: t in out ==> Due(t, c)
    ensures multiset(out) == multiset(DueTasks(q, c))
    ensures multiset(queue) == multiset(Others(q, c)) + multiset(rearmed)
  {
    AllOrNone(rearmed, c);
    AllOrNone(queue, c);
    AllOrNone(out, c);
    DueConcat(queue, out, c);
    DueConcat(q, rearmed, c);
    DueContents(queue + out, q + rearmed, c);
    assert queue + [] == queue && [] + out == out && DueTasks(q, c) + [] == DueTasks(q, c);
  }

  /** At the end of the scan the queue and the output are what a drain should leave. */
  lemma ScanEnds(q: seq<Task>, c: Cutoffs, l: Scan)
    requires NoneStuck(q, c) && ScanInv(q, c, l) && l.i == |l.queue|
    ensures Drains(q, c, l.queue, SortByKey(l.out))
  {
    RearmedAreNotDue(q, c, l);
    SplitDue(l.queue, l.out, q, Rearms(l.out, c), c);
    RearmsContents(l.out, DueTasks(q, c), c);
  }

  lemma {:induction false} ScanReaches(q: seq<Task>, c: Cutoffs, n: nat)
    requires NoneStuck(q, c)
    ensures ScanInv(q, c, ScanN(q, c, n))
  {
    if n == 0 {
      ScanBegins(q, c);
    } else {
      ScanReaches(q, c, n - 1);
      ScanStepKeeps(q, c, ScanN(q, c, n - 1));
    }
  }

  lemma ScanBound(q: seq<Task>, c: Cutoffs, n: nat)
    requires NoneStuck(q, c)
    ensures |ScanN(q, c, n).out| <= |q| && ScanN(q, c, n).i <= |ScanN(q, c, n).queue|
  {
    ScanReaches(q, c, n);
    SubsetIsShorter(ScanN(q, c, n).out, q);
  }

  lemma ScanResult(q: seq<Task>, c: Cutoffs, n: nat)
    requires NoneStuck(q, c) && Halted(q, c, n)
    ensures Drains(q, c, ScanN(q, c, n).queue, SortByKey(ScanN(q, c, n).out))
  {
    ScanReaches(q, c, n);
    ScanEnds(q, c, ScanN(q, c, n));
  }

  /** The loop ends: every iteration takes out a task that was due at entry, or moves on. */
  lemma {:induction false} ScanHalts(q: seq<Task>, c: Cutoffs, n: nat) returns (m: nat)
    requires NoneStuck(q, c)
    ensures Halted(q, c, m)
    decreases |q| - |ScanN(q, c, n).out|, |ScanN(q, c, n).queue| - ScanN(q, c, n).i
  {
    ScanBound(q, c, n);
    ScanBound(q, c, n + 1);
    if Halted(q, c, n) {
      m := n;
    } else {
      m := ScanHalts(q, c, n + 1);
    }
  }

  /** A stuck task at or after the index keeps the loop going for ever. */
  lemma {:induction false} StuckForever(q: seq<Task>, c: Cutoffs, n: nat)
    requires exists t :: t in q && Stuck(t, c)
    ensures exists j :: ScanN(q, c, n).i <= j < |ScanN(q, c, n).queue| && Stuck(ScanN(q, c, n).queue[j], c)
    decreases n
  {
    if n == 0 {
      var t :| t in q && Stuck(t, c);
      var j :| 0 <= j < |q| && q[j] == t;
      assert Stuck(ScanN(q, c, 0).queue[j], c);
    } else {
      StuckForever(q, c, n - 1);
      var l := ScanN(q, c, n - 1);
      var j :| l.i <= j < |l.queue| && Stuck(l.queue[j], c);
      StuckStep(l, c, j);
      assert ScanN(q, c, n) == ScanStep(l, c);
    }
  }

  lemma StuckStep(l: Scan, c: Cutoffs, j: nat)
    requires l.i <= j < |l.queue| && Stuck(l.queue[j], c)
    ensures var l' := ScanStep(l, c);
            exists k :: l'.i <= k < |l'.queue| && Stuck(l'.queue[k], c)
  {
    var l' := ScanStep(l, c);
    var last := |l.queue| - 1;
    if !Due(l.queue[l.i], c) {
      assert Stuck(l'.queue[j], c);
    } else if j == l.i {
      var again := l'.queue[|l'.queue| - 1];
      assert again == Rearm(l.queue[j], c);
      assert Rearm(again, c) == again;
      assert Stuck(again, c);
    } else if j == last {
      assert l'.queue[l.i] == l.queue[last];
    } else {
      assert l'.queue[j] == l.queue[j];
    }
  }

  /** The drain loop terminates exactly when no due repeating task re-arms into the past. */
  lemma DrainHaltsIff(q: seq<Task>, c: Cutoffs)
    ensures !NeverHalts(q, c) <==> NoneStuck(q, c)
  {
    if NoneStuck(q, c) {
      var m := ScanHalts(q, c, 0);
    } else {
      forall n ensures !Halted(q, c, n) {
        StuckForever(q, c, n);
      }
    }
  }

  /** In terms of the period: a stuck task has period zero or one that overflows 64 bits when
      added to the cutoff.  `setInterval` never stores zero. */
  lemma StuckMeansOverflow(t: Task, c: Cutoffs)
    requires IsTask(t) && c.timer < U64
    ensures Stuck(t, c) <==>
              Due(t, c) && t.repeat.Some? && (t.repeat.value == 0 || c.timer + t.repeat.value >= U64)
  {
    if t.repeat.Some? {
      var sum := c.timer + t.repeat.value;
      assert sum < U64 ==> sum % U64 == sum;
      assert sum >= U64 ==> sum % U64 == sum - U64;
    }
  }

  function NewTask(id: nat, now: nat, kind: Kind, delay: nat, payload: nat): Task {
    match kind
    case Timeout => Task(id, (now + delay) % U64, None, Timeout, payload)
    case Interval =>
      var p := if delay < 1 then 1 else delay;
      Task(id, (now + p) % U64, Some(p), Interval, payload)
    case AnimationFrame => Task(id, (now + 1) % U64, None, AnimationFrame, payload)
  }

  /** The failing input: `setInterval` with a period of 2^64 - 1 ms (what an infinite period
      saturates to), asked for at any time but the very first millisecond.  Its deadline wraps to
      the millisecond before, and the first drain, at any later cutoff, never ends. */
  lemma InfinitePeriodNeverHalts(id: nat, now: nat, payload: nat, c: Cutoffs)
    requires id < U32 && 1 <= now <= c.timer < U64
    ensures NeverHalts([NewTask(id, now, Interval, U64 - 1, payload)], c)
  {
    var t := NewTask(id, now, Interval, U64 - 1, payload);
    InfinitePeriodIsStuck(id, now, payload, c);
    assert t in [t];
    DrainHaltsIff([t], c);
  }

  lemma InfinitePeriodIsStuck(id: nat, now: nat, payload: nat, c: Cutoffs)
    requires id < U32 && 1 <= now <= c.timer < U64
    ensures Stuck(NewTask(id, now, Interval, U64 - 1, payload), c)
  {
    var t := NewTask(id, now, Interval, U64 - 1, payload);
    assert (now + (U64 - 1)) % U64 == now - 1;
    StuckMeansOverflow(t, c);
  }

  // ----- The mutable scheduler -----

  predicate DueTimeout(t: Task, cutoff: nat) {
    t.kind == Timeout && t.fireAt <= cutoff
  }

  /** The due one-shot timeouts leave the queue, in firing order; everything else stays. */
  ghost predicate DrainsTimeouts(q: seq<Task>, cutoff: nat, q': seq<Task>, out: seq<Task>) {
    && multiset(q') + multiset(out) == multiset(q) && InFiringOrder(out)
    && (forall t :: t in out ==> DueTimeout(t, cutoff))
    && (forall t :: t in q' ==> !DueTimeout(t, cutoff))
  }

  function WithoutId(q: seq<Task>, id: nat): seq<Task> {
    if q == [] then [] else (if q[0].id != id then [q[0]] else []) + WithoutId(q[1..], id)
  }

  class Scheduler {
    var nextId: nat
    var queue: seq<Task>

    constructor ()
      ensures nextId == 1 && queue == []
    {
      nextId, queue := 1, [];
    }

    method Schedule(kind: Kind, now: nat, delay: nat, payload: nat) returns (id: nat)
      modifies this
      ensures id == old(nextId) && nextId == (old(nextId) + 1) % 0x1_0000_0000
      ensures queue == old(queue) + [NewTask(id, now, kind, delay, payload)]
      ensures var t, wait := queue[|old(queue)|], match kind case Timeout => delay
                                                             case Interval => (if delay == 0 then 1 else delay)
                                                             case AnimationFrame => 1;
              && t.id == id && t.kind == kind && t.payload == payload && t.fireAt == (now + wait) % 0x1_0000_0000_0000_0000
              && t.repeat == if kind == Interval then Some(wait) else None
    {
      id := nextId;
      nextId := (nextId + 1) % U32;
      queue := queue + [NewTask(id, now, kind, delay, payload)];
    }

    method Cancel(id: nat)
      modifies this`queue
      ensures queue == WithoutId(old(queue), id)
    {
      var kept, i := [], 0;
      while i < |queue|
        invariant i <= |queue| && queue == old(queue)
        invariant WithoutId(queue, id) == kept + WithoutId(queue[i..], id)
      {
        assert queue[i..][1..] == queue[i + 1..];
        if queue[i].id != id {
          kept := kept + [queue[i]];
        }
        i := i + 1;
      }
      assert queue[i..] == [];
      queue := kept;
    }

    method DrainDueSplit(c: Cutoffs) returns (out: seq<Task>)
      requires NoneStuck(queue, c)
      modifies this`queue
      ensures Drains(old(queue), c, queue, out)
    {
      out := [];
      var i := 0;
      ghost var q, n := queue, 0;
      ScanBound(q, c, 0);
      while i < |queue|
        invariant Scan(queue, i, out) == ScanN(q, c, n) && |out| <= |q|
        decreases |q| - |out|, |queue| - i
      {
        n := n + 1;
        ScanBound(q, c, n);
        var t := queue[i];
        var cutoff := if t.kind == AnimationFrame then c.frame else c.timer;
        if t.fireAt <= cutoff {
          queue := SwapRemove(queue, i);
          if t.repeat.Some? {
            queue := queue + [Task(t.id, (c.timer + t.repeat.value) % U64, t.repeat, Interval, t.payload)];
          }
          out := out + [t];
        } else {
          i := i + 1;
        }
        assert ScanN(q, c, n).queue == queue;
      }
      ScanResult(q, c, n);
      out := SortByKey(out);
    }

    method DrainDueTimeouts(cutoff: nat) returns (out: seq<Task>)
      modifies this`queue
      ensures DrainsTimeouts(old(queue), cutoff, queue, out)
    {
      out := [];
      var i := 0;
      while i < |queue|
        invariant i <= |queue|
        invariant multiset(queue) + multiset(out) == multiset(old(queue))
        invariant forall k :: 0 <= k < i ==> !DueTimeout(queue[k], cutoff)
        invariant forall t :: t in out ==> DueTimeout(t, cutoff)
        decreases |queue| - i
      {
        if queue[i].fireAt <= cutoff && queue[i].kind == Timeout {
          SwapRemoveContents(queue, i);
          out := out + [queue[i]];
          queue := SwapRemove(queue, i);
        } else {
          i := i + 1;
        }
      }
      assert forall t :: t in SortByKey(out) ==> t in multiset(SortByKey(out));
      out := SortByKey(out);
    }
  }
}
