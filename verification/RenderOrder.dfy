/**
 The order in which the audio graph is evaluated: `topo_order` of crates/cv_audio/src/graph.rs,
 Kahn's algorithm with leftover nodes appended.
 */
module RenderOrder {
  import opened Common

  datatype Edge = Edge(from: nat, to: nat)

  predicate EdgesIn(n: nat, edges: seq<Edge>) {
    forall i :: 0 <= i < |edges| ==> edges[i].from < n && edges[i].to < n
  }

  // ----- In-degrees over the nodes not yet placed -----

  function One(e: Edge, v: nat, done: set<nat>): nat {
    if e.to == v && e.from !in done then 1 else 0
  }

  /** The number of edges into `v` whose source is not in `done`. */
  function Pending(edges: seq<Edge>, v: nat, done: set<nat>): nat {
    if edges == [] then 0 else One(edges[0], v, done) + Pending(edges[1..], v, done)
  }

  lemma {:induction false} PendingAppend(edges: seq<Edge>, e: Edge, v: nat, done: set<nat>)
    ensures Pending(edges + [e], v, done) == Pending(edges, v, done) + One(e, v, done)
  {
    if edges == [] {
      assert edges + [e] == [e] && [e][1..] == [];
    } else {
      PendingAppend(edges[1..], e, v, done);
      assert (edges + [e])[1..] == edges[1..] + [e];
    }
  }

  lemma {:induction false} PendingZero(edges: seq<Edge>, v: nat, done: set<nat>)
    ensures Pending(edges, v, done) == 0 <==>
            forall i :: 0 <= i < |edges| && edges[i].to == v ==> edges[i].from in done
  {
    if edges != [] {
      PendingZero(edges[1..], v, done);
      assert forall i :: 0 < i < |edges| ==> edges[i] == edges[1..][i - 1];
      if forall i :: 0 <= i < |edges| && edges[i].to == v ==> edges[i].from in done {
        forall i | 0 <= i < |edges[1..]| && edges[1..][i].to == v ensures edges[1..][i].from in done {
          assert edges[1..][i] == edges[i + 1];
        }
      }
    }
  }

  // ----- What the order satisfies -----

  /** Some edge into `v` comes from a node that is not placed. */
  ghost predicate Blocked(edges: seq<Edge>, placed: seq<nat>, v: nat) {
    exists i :: 0 <= i < |edges| && edges[i].to == v && edges[i].from !in placed
  }

  /** `order` lists every node once; its first `k` entries come after all their predecessors;
      every other node has a predecessor among the others, and those stand in id order. */
  ghost predicate KahnOrder(n: nat, edges: seq<Edge>, order: seq<nat>, k: nat) {
    && k <= |order| == n && NoDuplicates(order) && (forall i :: 0 <= i < n ==> order[i] < n)
    && (forall i, j :: 0 <= i < |edges| && 0 <= j < k && edges[i].to == order[j] ==> edges[i].from in order[..j])
    && (forall v: nat {:trigger Blocked(edges, order[..k], v)} :: v < n && v !in order[..k] ==> Blocked(edges, order[..k], v))
    && (forall i, j :: k <= i < j < n ==> order[i] < order[j])
  }

  // ----- The algorithm -----

  /** Invariant of the main loop: the queue holds exactly the nodes whose remaining in-degree is
      zero, each once; its processed part is the order so far. */
  ghost predicate KahnInv(n: nat, edges: seq<Edge>, indeg: seq<nat>, queue: seq<nat>, head: nat, visited: seq<bool>) {
    && |indeg| == |visited| == n && head <= |queue| && NoDuplicates(queue)
    && (forall i :: 0 <= i < |queue| ==> queue[i] < n)
    && Marks(visited, queue[..head])
    && (forall v :: 0 <= v < n ==> (v in queue <==> indeg[v] == 0))
    && (forall v :: 0 <= v < n ==> indeg[v] == Pending(edges, v, Elements(queue[..head])))
    && Ordered(edges, queue, head)
  }

  /** `visited` marks exactly the nodes in `placed`. */
  predicate Marks(visited: seq<bool>, placed: seq<nat>) {
    forall v :: 0 <= v < |visited| ==> (visited[v] <==> v in placed)
  }

  ghost predicate Ordered(edges: seq<Edge>, queue: seq<nat>, head: nat)
    requires head <= |queue|
  {
    forall i, j :: 0 <= i < |edges| && 0 <= j < head && edges[i].to == queue[j] ==> edges[i].from in queue[..j]
  }

  method InDegrees(n: nat, edges: seq<Edge>) returns (indeg: seq<nat>)
    requires EdgesIn(n, edges)
    ensures |indeg| == n && forall v :: 0 <= v < n ==> indeg[v] == Pending(edges, v, {})
  {
    indeg := seq(n, _ => 0);
    for j := 0 to |edges|
      invariant |indeg| == n && forall v :: 0 <= v < n ==> indeg[v] == Pending(edges[..j], v, {})
    {
      forall v ensures Pending(edges[..j + 1], v, {}) == Pending(edges[..j], v, {}) + One(edges[j], v, {}) {
        assert edges[..j + 1] == edges[..j] + [edges[j]];
        PendingAppend(edges[..j], edges[j], v, {});
      }
      var to := edges[j].to;
      indeg := indeg[to := indeg[to] + 1];
    }
    assert edges[..|edges|] == edges;
  }

  method ZeroInDegree(indeg: seq<nat>) returns (queue: seq<nat>)
    ensures NoDuplicates(queue) && (forall i :: 0 <= i < |queue| ==> queue[i] < |indeg|)
    ensures forall v :: 0 <= v < |indeg| ==> (v in queue <==> indeg[v] == 0)
  {
    queue := [];
    for v := 0 to |indeg|
      invariant NoDuplicates(queue) && (forall i :: 0 <= i < |queue| ==> queue[i] < v)
      invariant forall u :: 0 <= u < v ==> (u in queue <==> indeg[u] == 0)
    {
      if indeg[v] == 0 {
        queue := queue + [v];
      }
    }
  }

  /** State of the inner loop: the edges before `j` have been charged to `u`, the rest not yet. */
  ghost predicate RelaxInv(n: nat, edges: seq<Edge>, done: set<nat>, u: nat, j: nat,
                           indeg: seq<nat>, queue: seq<nat>)
    requires j <= |edges|
  {
    && |indeg| == n && NoDuplicates(queue) && (forall i :: 0 <= i < |queue| ==> queue[i] < n)
    && (forall v :: 0 <= v < n ==> (v in queue <==> indeg[v] == 0))
    && (forall v :: 0 <= v < n ==> indeg[v] == Pending(edges[..j], v, done + {u}) + Pending(edges[j..], v, done))
  }

  lemma RelaxSplit(edges: seq<Edge>, done: set<nat>, u: nat, j: nat, v: nat)
    requires j < |edges|
    ensures Pending(edges[..j + 1], v, done + {u}) == Pending(edges[..j], v, done + {u}) + One(edges[j], v, done + {u})
    ensures Pending(edges[j..], v, done) == One(edges[j], v, done) + Pending(edges[j + 1..], v, done)
  {
    assert edges[..j + 1] == edges[..j] + [edges[j]];
    PendingAppend(edges[..j], edges[j], v, done + {u});
    assert edges[j..][1..] == edges[j + 1..];
  }

  /** The inner loop: every outgoing edge of `u` lowers its target's in-degree, and a target
      that reaches zero joins the queue.  The subtraction never meets a zero, although the source
      saturates it. */
  method Relax(n: nat, edges: seq<Edge>, ghost done: set<nat>, u: nat, indeg0: seq<nat>, queue0: seq<nat>, visited: seq<bool>)
    returns (indeg: seq<nat>, queue: seq<nat>)
    requires EdgesIn(n, edges) && u < n && u !in done && |visited| == n
    requires RelaxInv(n, edges, done, u, 0, indeg0, queue0)
    requires forall v :: 0 <= v < n && visited[v] ==> v in queue0
    ensures RelaxInv(n, edges, done, u, |edges|, indeg, queue) && queue0 <= queue
  {
    indeg, queue := indeg0, queue0;
    for j := 0 to |edges|
      invariant RelaxInv(n, edges, done, u, j, indeg, queue) && queue0 <= queue
    {
      forall v: nat ensures
        && Pending(edges[..j + 1], v, done + {u}) == Pending(edges[..j], v, done + {u}) + One(edges[j], v, done + {u})
        && Pending(edges[j..], v, done) == One(edges[j], v, done) + Pending(edges[j + 1..], v, done)
      {
        RelaxSplit(edges, done, u, j, v);
      }
      if edges[j].from == u {
        var to := edges[j].to;
        assert indeg[to] > 0;
        indeg := indeg[to := indeg[to] - 1];
        if indeg[to] == 0 && !visited[to] {
          queue := queue + [to];
        }
      }
    }
  }

  /** The node at the head of the queue is new, and its predecessors are all placed. */
  lemma HeadIsReady(n: nat, edges: seq<Edge>, indeg: seq<nat>, queue: seq<nat>, head: nat, visited: seq<bool>)
    requires KahnInv(n, edges, indeg, queue, head, visited) && head < |queue|
    ensures !visited[queue[head]] && queue[head] !in Elements(queue[..head])
    ensures Elements(queue[..head + 1]) == Elements(queue[..head]) + {queue[head]}
    ensures Ordered(edges, queue, head + 1)
    ensures RelaxInv(n, edges, Elements(queue[..head]), queue[head], 0, indeg, queue)
  {
    var u, done := queue[head], Elements(queue[..head]);
    assert queue[..head + 1] == queue[..head] + [u];
    assert u in queue && indeg[u] == 0;
    PendingZero(edges, u, done);
    assert edges[..0] == [] && edges[0..] == edges;
  }

  lemma PrefixTake(a: seq<nat>, b: seq<nat>, m: nat)
    requires a <= b && m <= |a|
    ensures b[..m] == a[..m]
  {
  }

  lemma AllCharged(edges: seq<Edge>, v: nat, a: set<nat>, b: set<nat>)
    ensures Pending(edges[..|edges|], v, a) + Pending(edges[|edges|..], v, b) == Pending(edges, v, a)
  {
    assert edges[..|edges|] == edges && edges[|edges|..] == [];
  }

  lemma AfterRelax(n: nat, edges: seq<Edge>, queue0: seq<nat>, head: nat, visited0: seq<bool>,
                   indeg: seq<nat>, queue: seq<nat>)
    requires head < |queue0| && queue0 <= queue && queue0[head] < n == |visited0|
    requires Marks(visited0, queue0[..head])
    requires Ordered(edges, queue0, head + 1)
    requires Elements(queue0[..head + 1]) == Elements(queue0[..head]) + {queue0[head]}
    requires RelaxInv(n, edges, Elements(queue0[..head]), queue0[head], |edges|, indeg, queue)
    ensures KahnInv(n, edges, indeg, queue, head + 1, visited0[queue0[head] := true])
  {
    PrefixTake(queue0, queue, head + 1);
    forall v | 0 <= v < n ensures indeg[v] == Pending(edges, v, Elements(queue[..head + 1])) {
      AllCharged(edges, v, Elements(queue0[..head]) + {queue0[head]}, Elements(queue0[..head]));
    }
  }

  lemma KahnEnds(n: nat, edges: seq<Edge>, indeg: seq<nat>, queue: seq<nat>, visited: seq<bool>, order: seq<nat>)
    requires KahnInv(n, edges, indeg, queue, |queue|, visited) && queue <= order
    requires |order| == n && NoDuplicates(order) && (forall i :: 0 <= i < n ==> order[i] < n)
    requires forall i, j :: |queue| <= i < j < n ==> order[i] < order[j]
    ensures KahnOrder(n, edges, order, |queue|)
  {
    assert order[..|queue|] == queue == queue[..|queue|];
    forall i, j | 0 <= i < |edges| && 0 <= j < |queue| && edges[i].to == order[j] ensures edges[i].from in order[..j] {
      assert order[j] == queue[j] && order[..j] == queue[..j];
    }
    forall v: nat | v < n && v !in queue ensures Blocked(edges, queue, v) {
      PendingZero(edges, v, Elements(queue));
    }
  }

  /** One round of the main loop; the test whether the node was visited before never fires. */
  method Visit(n: nat, edges: seq<Edge>, indeg0: seq<nat>, queue0: seq<nat>, head: nat, visited0: seq<bool>, order0: seq<nat>)
    returns (indeg: seq<nat>, queue: seq<nat>, visited: seq<bool>, order: seq<nat>)
    requires EdgesIn(n, edges) && KahnInv(n, edges, indeg0, queue0, head, visited0) && head < |queue0|
    requires order0 == queue0[..head]
    ensures KahnInv(n, edges, indeg, queue, head + 1, visited) && order == queue[..head + 1]
  {
    HeadIsReady(n, edges, indeg0, queue0, head, visited0);
    var u := queue0[head];
    indeg, queue, visited, order := indeg0, queue0, visited0, order0;
    if !visited[u] {
      visited := visited[u := true];
      order := order + [u];
      indeg, queue := Relax(n, edges, Elements(queue0[..head]), u, indeg, queue, visited);
      AfterRelax(n, edges, queue0, head, visited0, indeg, queue);
      PrefixTake(queue0, queue, head + 1);
    }
  }

  method TopoOrder(n: nat, edges: seq<Edge>) returns (order: seq<nat>, ghost k: nat)
    requires EdgesIn(n, edges)
    ensures |order| == n && NoDuplicates(order) && forall i :: 0 <= i < n ==> order[i] < n
    ensures KahnOrder(n, edges, order, k)
  {
    var indeg := InDegrees(n, edges);
    var queue := ZeroInDegree(indeg);
    order := [];
    var visited := seq(n, _ => false);
    var head := 0;
    assert queue[..0] == [] && Elements(queue[..0]) == {};
    DistinctBelow(n, queue);
    while head < |queue|
      invariant KahnInv(n, edges, indeg, queue, head, visited)
      invariant order == queue[..head] && |queue| <= n
      decreases n - head
    {
      indeg, queue, visited, order := Visit(n, edges, indeg, queue, head, visited, order);
      DistinctBelow(n, queue);
      head := head + 1;
    }
    k := |order|;
    assert order == queue == queue[..head];
    order := AppendLeftovers(n, visited, order);
    KahnEnds(n, edges, indeg, queue, visited, order);
  }

  method AppendLeftovers(n: nat, visited: seq<bool>, placed: seq<nat>) returns (order: seq<nat>)
    requires |visited| == n && NoDuplicates(placed) && (forall i :: 0 <= i < |placed| ==> placed[i] < n)
    requires Marks(visited, placed)
    ensures |order| == n && placed <= order && NoDuplicates(order) && (forall i :: 0 <= i < n ==> order[i] < n)
    ensures forall i, j :: |placed| <= i < j < n ==> order[i] < order[j]
  {
    order := placed;
    for u := 0 to n
      invariant placed <= order && NoDuplicates(order) && (forall i :: 0 <= i < |order| ==> order[i] < n)
      invariant forall v :: 0 <= v < n ==> (v in order <==> visited[v] || v < u)
      invariant forall i, j :: |placed| <= i < j < |order| ==> order[i] < order[j]
      invariant forall i :: |placed| <= i < |order| ==> order[i] < u
    {
      if !visited[u] {
        order := order + [u];
      }
    }
    DistinctBelow(n, order);
    DistinctCount(order);
    assert Below(n) <= Elements(order);
    SubsetCount(Below(n), Elements(order));
  }

  // ----- Cycles -----

  ghost predicate Walk(edges: seq<Edge>, p: seq<nat>) {
    |p| >= 1 && forall i :: 0 <= i < |p| - 1 ==> Edge(p[i], p[i + 1]) in edges
  }

  ghost predicate WalkFromTo(edges: seq<Edge>, p: seq<nat>, u: nat, v: nat) {
    Walk(edges, p) && p[0] == u && p[|p| - 1] == v
  }

  ghost predicate OnCycle(edges: seq<Edge>, c: nat) {
    exists p :: WalkFromTo(edges, p, c, c) && |p| >= 2
  }

  /** `v` is on a cycle or has an ancestor on one. */
  ghost predicate Tainted(edges: seq<Edge>, v: nat) {
    exists c, p :: OnCycle(edges, c) && WalkFromTo(edges, p, c, v)
  }

  ghost predicate Acyclic(edges: seq<Edge>) {
    forall c :: !OnCycle(edges, c)
  }

  /** Walking `m` edges backwards from position `j` of the ordered prefix costs `m` positions. */
  lemma {:induction false} AncestorsComeEarlier(n: nat, edges: seq<Edge>, order: seq<nat>, k: nat, p: seq<nat>, j: nat)
    returns (i: nat)
    requires KahnOrder(n, edges, order, k) && Walk(edges, p) && j < k && p[|p| - 1] == order[j]
    ensures i + |p| - 1 <= j && order[i] == p[0]
    decreases |p|
  {
    if |p| == 1 {
      i := j;
    } else {
      var front := p[..|p| - 1];
      var u := front[|front| - 1];
      assert Edge(p[|p| - 2], p[|p| - 2 + 1]) in edges;
      var e :| 0 <= e < |edges| && edges[e] == Edge(u, order[j]);
      assert edges[e].from in order[..j];
      var h :| 0 <= h < j && order[h] == u;
      assert Walk(edges, front);
      i := AncestorsComeEarlier(n, edges, order, k, front, h);
    }
  }

  /** Outside the prefix one can walk backwards for ever. */
  lemma {:induction false} BackWalk(n: nat, edges: seq<Edge>, order: seq<nat>, k: nat, v: nat, m: nat)
    returns (p: seq<nat>)
    requires EdgesIn(n, edges) && KahnOrder(n, edges, order, k) && v < n && v !in order[..k]
    ensures |p| == m + 1 && Walk(edges, p) && p[m] == v && p[0] !in order[..k] && forall x :: x in p ==> x < n
  {
    if m == 0 {
      p := [v];
    } else {
      var q := BackWalk(n, edges, order, k, v, m - 1);
      assert q[0] in q;
      assert Blocked(edges, order[..k], q[0]);
      var e :| 0 <= e < |edges| && edges[e].to == q[0] && edges[e].from !in order[..k];
      assert Edge(edges[e].from, q[0]) == edges[e];
      p := [edges[e].from] + q;
    }
  }

  lemma SubWalk(edges: seq<Edge>, p: seq<nat>, i: nat, j: nat)
    requires Walk(edges, p) && i < j <= |p|
    ensures WalkFromTo(edges, p[i..j], p[i], p[j - 1])
  {
    var q := p[i..j];
    forall h | 0 <= h < |q| - 1 ensures Edge(q[h], q[h + 1]) in edges {
      assert Edge(p[i + h], p[i + h + 1]) in edges;
    }
  }

  lemma PrefixIsUntainted(n: nat, edges: seq<Edge>, order: seq<nat>, k: nat, j: nat)
    requires KahnOrder(n, edges, order, k) && j < k
    ensures !Tainted(edges, order[j])
  {
    if Tainted(edges, order[j]) {
      var c, p :| OnCycle(edges, c) && WalkFromTo(edges, p, c, order[j]);
      var i := AncestorsComeEarlier(n, edges, order, k, p, j);
      var q :| WalkFromTo(edges, q, c, c) && |q| >= 2;
      var h := AncestorsComeEarlier(n, edges, order, k, q, i);
      assert false;
    }
  }

  lemma Pigeonhole(n: nat, p: seq<nat>) returns (i: nat, j: nat)
    requires |p| > n && forall x :: x in p ==> x < n
    ensures i < j < |p| && p[i] == p[j]
  {
    assert !NoDuplicates(p) by {
      assert forall i :: 0 <= i < |p| ==> p[i] in p;
      if NoDuplicates(p) { DistinctBelow(n, p); }
    }
    i, j :| 0 <= i < j < |p| && p[i] == p[j];
  }

  lemma OutsideIsTainted(n: nat, edges: seq<Edge>, order: seq<nat>, k: nat, v: nat)
    requires EdgesIn(n, edges) && KahnOrder(n, edges, order, k) && v < n && v !in order[..k]
    ensures Tainted(edges, v)
  {
    var p := BackWalk(n, edges, order, k, v, n);
    var i, j := Pigeonhole(n, p);
    SubWalk(edges, p, i, j + 1);
    assert OnCycle(edges, p[i]);
    SubWalk(edges, p, i, |p|);
  }

  /** The ordered prefix is exactly the nodes with no ancestor (themselves included) on a cycle. */
  lemma KahnPrefixIsUntainted(n: nat, edges: seq<Edge>, order: seq<nat>, k: nat, v: nat)
    requires EdgesIn(n, edges) && KahnOrder(n, edges, order, k) && v < n
    ensures v in order[..k] <==> !Tainted(edges, v)
  {
    if v in order[..k] {
      var j :| 0 <= j < k && order[j] == v;
      PrefixIsUntainted(n, edges, order, k, j);
    } else {
      OutsideIsTainted(n, edges, order, k, v);
    }
  }

  lemma OrderCovers(n: nat, edges: seq<Edge>, order: seq<nat>, k: nat, v: nat)
    requires KahnOrder(n, edges, order, k) && v < n
    ensures v in order
  {
    FullBelow(n, order, v);
  }

  /** Without cycles every edge runs forward in the order. */
  lemma AcyclicOrder(n: nat, edges: seq<Edge>, order: seq<nat>, k: nat)
    requires EdgesIn(n, edges) && KahnOrder(n, edges, order, k) && Acyclic(edges)
    ensures k == n
    ensures forall i :: 0 <= i < |edges| ==> exists a, b :: 0 <= a < b < n && order[a] == edges[i].from && order[b] == edges[i].to
  {
    forall v: nat | v < n ensures v in order[..k] {
      KahnPrefixIsUntainted(n, edges, order, k, v);
    }
    DistinctCount(order[..k]);
    assert Below(n) <= Elements(order[..k]);
    SubsetCount(Below(n), Elements(order[..k]));
    forall i | 0 <= i < |edges|
      ensures exists a, b :: 0 <= a < b < n && order[a] == edges[i].from && order[b] == edges[i].to
    {
      assert edges[i].to in order[..k];
      var b :| 0 <= b < k && order[b] == edges[i].to;
      assert edges[i].from in order[..b];
      var a :| 0 <= a < b && order[a] == edges[i].from;
    }
  }

  // ----- Depth -----

  ghost predicate Reaches(edges: seq<Edge>, u: nat, v: nat) {
    exists p :: WalkFromTo(edges, p, u, v)
  }

  /** The number of nodes from which `v` can be reached, itself included. */
  ghost function Depth(n: nat, edges: seq<Edge>, v: nat): nat {
    |set u: nat | u in Below(n) && Reaches(edges, u, v)|
  }

  lemma ReachesAlong(edges: seq<Edge>, i: nat, u: nat)
    requires i < |edges| && Reaches(edges, u, edges[i].from)
    ensures Reaches(edges, u, edges[i].to)
  {
    var p :| WalkFromTo(edges, p, u, edges[i].from);
    assert Edge(p[|p| - 1], edges[i].to) == edges[i];
    assert WalkFromTo(edges, p + [edges[i].to], u, edges[i].to);
  }

  lemma TaintSpreads(edges: seq<Edge>, i: nat)
    requires i < |edges| && Tainted(edges, edges[i].from)
    ensures Tainted(edges, edges[i].to)
  {
    var c, p :| OnCycle(edges, c) && WalkFromTo(edges, p, c, edges[i].from);
    ReachesAlong(edges, i, c);
    var q :| WalkFromTo(edges, q, c, edges[i].to);
  }

  lemma WayBackIsCycle(edges: seq<Edge>, i: nat)
    requires i < |edges| && Reaches(edges, edges[i].to, edges[i].from)
    ensures Tainted(edges, edges[i].to)
  {
    var v := edges[i].to;
    var p :| WalkFromTo(edges, p, v, edges[i].from);
    assert Edge(p[|p| - 1], v) == edges[i];
    assert WalkFromTo(edges, p + [v], v, v);
    assert OnCycle(edges, v);
  }

  /** Going back along an edge from an untainted node stays untainted and loses depth. */
  lemma DepthDrops(n: nat, edges: seq<Edge>, i: nat)
    requires EdgesIn(n, edges) && i < |edges| && !Tainted(edges, edges[i].to)
    ensures !Tainted(edges, edges[i].from)
    ensures Depth(n, edges, edges[i].from) < Depth(n, edges, edges[i].to)
  {
    var u, v := edges[i].from, edges[i].to;
    if Tainted(edges, u) { TaintSpreads(edges, i); }
    if Reaches(edges, v, u) { WayBackIsCycle(edges, i); }
    var a, b := set x: nat | x in Below(n) && Reaches(edges, x, u), set x: nat | x in Below(n) && Reaches(edges, x, v);
    forall x | x in a ensures x in b { ReachesAlong(edges, i, x); }
    assert WalkFromTo(edges, [v], v, v);
    assert a + {v} <= b;
    SubsetCount(a + {v}, b);
  }

  // ----- Feedback -----

  /** An edge between nodes affected by a cycle that does not lead to a greater id. */
  ghost predicate Late(edges: seq<Edge>, e: Edge) {
    Tainted(edges, e.from) && e.from >= e.to
  }

  /** A rank that rises along every edge that is not late. */
  ghost function Level(n: nat, edges: seq<Edge>, v: nat): nat {
    if Tainted(edges, v) then n + 1 + v else Depth(n, edges, v)
  }

  lemma LevelDrops(n: nat, edges: seq<Edge>, i: nat)
    requires EdgesIn(n, edges) && i < |edges| && !Late(edges, edges[i])
    ensures Level(n, edges, edges[i].from) < Level(n, edges, edges[i].to)
  {
    var u, v := edges[i].from, edges[i].to;
    if Tainted(edges, u) {
      TaintSpreads(edges, i);
    } else if Tainted(edges, v) {
      SubsetCount((set x: nat | x in Below(n) && Reaches(edges, x, u)), Below(n));
    } else {
      DepthDrops(n, edges, i);
    }
  }

  /** Which nodes stand in the prefix, by position. */
  lemma PrefixPosition(n: nat, edges: seq<Edge>, order: seq<nat>, k: nat, a: nat)
    requires EdgesIn(n, edges) && KahnOrder(n, edges, order, k) && a < n
    ensures a < k <==> !Tainted(edges, order[a])
  {
    KahnPrefixIsUntainted(n, edges, order, k, order[a]);
    if order[a] in order[..k] {
      var h :| 0 <= h < k && order[h] == order[a];
      assert h == a;
    }
  }

  /** The source of an edge is evaluated before its target exactly if the edge is not late. */
  lemma EarlierIff(n: nat, edges: seq<Edge>, order: seq<nat>, k: nat, i: nat, a: nat, b: nat)
    requires EdgesIn(n, edges) && KahnOrder(n, edges, order, k) && i < |edges|
    requires a < n && b < n && order[a] == edges[i].from && order[b] == edges[i].to
    ensures a < b <==> !Late(edges, edges[i])
  {
    PrefixPosition(n, edges, order, k, a);
    PrefixPosition(n, edges, order, k, b);
    if b < k {
      assert edges[i].from in order[..b];
      var h :| 0 <= h < b && order[h] == edges[i].from;
      assert h == a;
    } else if a >= k {
      TaintSpreads(edges, i);
    }
  }
}
