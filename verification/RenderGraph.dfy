/**
 Evaluation of the audio graph: crates/cv_audio/src/graph.rs, `connect`, `disconnect`,
 `gather_inputs`, `process_node`, `process_quantum`, `render_quantum` and `render_planar`.

 Samples are of an abstract type: the only fact used about addition and multiplication is that
 they are functions, so the results hold for rounded arithmetic in the source's summation order.
 */
module RenderGraph {
  import opened RenderOrder

  const Frames: nat := 128

  /** Sample arithmetic, and how a generator (oscillator or buffer player) sounds at an absolute
      frame on a channel and moves on by one frame. */
  datatype Machine<!S, !G> = Machine(zero: S, add: (S, S) -> S, mul: (S, S) -> S, sample: (G, nat, nat) -> S, tick: (G, nat) -> G)

  datatype Kind<S, G> = Destination | Gain(gain: S) | PassThrough | Source(gen: G)

  /** `out[c][f]` is the last rendered quantum, one row per channel. */
  datatype Node<S, G> = Node(kind: Kind<S, G>, channels: nat, out: seq<seq<S>>)

  ghost predicate Shaped<S>(rows: seq<seq<S>>, channels: nat) {
    |rows| == channels && forall c :: 0 <= c < channels ==> |rows[c]| == Frames
  }

  ghost predicate ValidNode<S, G>(node: Node<S, G>) {
    node.channels >= 1 && Shaped(node.out, node.channels)
  }

  ghost predicate ValidNodes<S, G>(nodes: seq<Node<S, G>>) {
    forall i :: 0 <= i < |nodes| ==> ValidNode(nodes[i])
  }

  /** The channel of a source that feeds channel `c`: mono fans out, the last channel is repeated. */
  function SourceChannel(channels: nat, c: nat): (sc: nat)
    requires channels >= 1
    ensures sc < channels && (c < channels ==> sc == c) && (c >= channels ==> sc == channels - 1)
  {
    if channels == 1 then 0 else if c < channels - 1 then c else channels - 1
  }

  /** The generator after `t` frames from the absolute frame `base`. */
  function Advance<S, G>(m: Machine<S, G>, g: G, base: nat, t: nat): G {
    if t == 0 then g else m.tick(Advance(m, g, base, t - 1), base + t - 1)
  }

  lemma {:induction false} AdvanceTwice<S, G>(m: Machine<S, G>, g: G, base: nat, s: nat, t: nat)
    ensures Advance(m, Advance(m, g, base, s), base + s, t) == Advance(m, g, base, s + t)
  {
    if t > 0 {
      AdvanceTwice(m, g, base, s, t - 1);
    }
  }

  // ----- The pull definition -----

  /** The sample that node `id` emits on channel `c`, `t` frames after the absolute frame `base`,
      defined by pulling on its predecessors.  A late edge is a delay line of one quantum that
      starts with the stored output; no other edge involves a quantum, an order or an output. */
  ghost function Signal<S, G>(m: Machine<S, G>, nodes: seq<Node<S, G>>, edges: seq<Edge>, base: nat, id: nat, c: nat, t: nat): S
    requires EdgesIn(|nodes|, edges) && ValidNodes(nodes) && id < |nodes|
    decreases t, Level(|nodes|, edges, id), |edges| + 1
  {
    match nodes[id].kind
    case Source(g) => m.sample(Advance(m, g, base, t), base + t, c)
    case Gain(x) => m.mul(PullSum(m, nodes, edges, base, id, |edges|, c, t), x)
    case _ => PullSum(m, nodes, edges, base, id, |edges|, c, t)
  }

  /** The signals of the predecessors of `id` among the first `k` edges, summed in edge order. */
  ghost function PullSum<S, G>(m: Machine<S, G>, nodes: seq<Node<S, G>>, edges: seq<Edge>, base: nat, id: nat, k: nat, c: nat, t: nat): S
    requires EdgesIn(|nodes|, edges) && ValidNodes(nodes) && id < |nodes| && k <= |edges|
    decreases t, Level(|nodes|, edges, id), k
  {
    if k == 0 then m.zero else
      var acc := PullSum(m, nodes, edges, base, id, k - 1, c, t);
      var e := edges[k - 1];
      var sc := SourceChannel(nodes[e.from].channels, c);
      if e.to != id then acc
      else if Late(edges, e) then m.add(acc, Delayed(m, nodes, edges, base, e.from, sc, t))
      else
        LevelDrops(|nodes|, edges, k - 1);
        m.add(acc, Signal(m, nodes, edges, base, e.from, sc, t))
  }

  /** The signal one quantum ago; before `base` that is what the node has stored. */
  ghost function Delayed<S, G>(m: Machine<S, G>, nodes: seq<Node<S, G>>, edges: seq<Edge>, base: nat, id: nat, c: nat, t: nat): S
    requires EdgesIn(|nodes|, edges) && ValidNodes(nodes) && id < |nodes| && c < nodes[id].channels
    decreases t, 0, 0
  {
    if t < Frames then nodes[id].out[c][t] else Signal(m, nodes, edges, base, id, c, t - Frames)
  }

  // ----- The signal in terms of its edges and generators -----

  /** What edge `e` carries to channel `c` at time `t`: that channel of its source, or the last one if
      the source has fewer, so that mono goes to every channel; one quantum ago if the edge is late. */
  ghost function Carries<S, G>(m: Machine<S, G>, nodes: seq<Node<S, G>>, edges: seq<Edge>, base: nat, e: Edge, c: nat, t: nat): S
    requires EdgesIn(|nodes|, edges) && ValidNodes(nodes) && e.from < |nodes|
  {
    var last := nodes[e.from].channels - 1;
    if Late(edges, e) then Delayed(m, nodes, edges, base, e.from, if c <= last then c else last, t)
    else Signal(m, nodes, edges, base, e.from, if c <= last then c else last, t)
  }

  /** Each edge into a node adds what it carries, in edge order; other edges add nothing. */
  lemma EdgeAdds<S, G>(m: Machine<S, G>, nodes: seq<Node<S, G>>, edges: seq<Edge>, base: nat, id: nat, k: nat, c: nat, t: nat)
    requires EdgesIn(|nodes|, edges) && ValidNodes(nodes) && id < |nodes| && k < |edges|
    ensures PullSum(m, nodes, edges, base, id, k + 1, c, t) ==
            if edges[k].to == id then m.add(PullSum(m, nodes, edges, base, id, k, c, t), Carries(m, nodes, edges, base, edges[k], c, t))
            else PullSum(m, nodes, edges, base, id, k, c, t)
  {
  }

  lemma {:induction false} OtherEdgesAddNothing<S, G>(m: Machine<S, G>, nodes: seq<Node<S, G>>, edges: seq<Edge>, base: nat, id: nat,
                                                     j: nat, k: nat, c: nat, t: nat)
    requires EdgesIn(|nodes|, edges) && ValidNodes(nodes) && id < |nodes| && j <= k <= |edges|
    requires forall i :: j <= i < k ==> edges[i].to != id
    ensures PullSum(m, nodes, edges, base, id, k, c, t) == PullSum(m, nodes, edges, base, id, j, c, t)
    decreases k
  {
    if j < k {
      OtherEdgesAddNothing(m, nodes, edges, base, id, j, k - 1, c, t);
      EdgeAdds(m, nodes, edges, base, id, k - 1, c, t);
    }
  }

  /** A node with a single input passes on what that edge carries, times its gain if it has one. */
  lemma SoleInput<S, G>(m: Machine<S, G>, nodes: seq<Node<S, G>>, edges: seq<Edge>, base: nat, k: nat, c: nat, t: nat)
    requires EdgesIn(|nodes|, edges) && ValidNodes(nodes) && k < |edges|
    requires forall i :: 0 <= i < |edges| && edges[i].to == edges[k].to ==> i == k
    requires !nodes[edges[k].to].kind.Source?
    ensures var id, kind := edges[k].to, nodes[edges[k].to].kind;
            var x := m.add(m.zero, Carries(m, nodes, edges, base, edges[k], c, t));
            Signal(m, nodes, edges, base, id, c, t) == if kind.Gain? then m.mul(x, kind.gain) else x
  {
    var id := edges[k].to;
    OtherEdgesAddNothing(m, nodes, edges, base, id, 0, k, c, t);
    EdgeAdds(m, nodes, edges, base, id, k, c, t);
    OtherEdgesAddNothing(m, nodes, edges, base, id, k + 1, |edges|, c, t);
  }

  /** A node without inputs that generates nothing is silent, up to its gain. */
  lemma NoInput<S, G>(m: Machine<S, G>, nodes: seq<Node<S, G>>, edges: seq<Edge>, base: nat, id: nat, c: nat, t: nat)
    requires EdgesIn(|nodes|, edges) && ValidNodes(nodes) && id < |nodes| && !nodes[id].kind.Source?
    requires forall i :: 0 <= i < |edges| ==> edges[i].to != id
    ensures Signal(m, nodes, edges, base, id, c, t) == if nodes[id].kind.Gain? then m.mul(m.zero, nodes[id].kind.gain) else m.zero
  {
    OtherEdgesAddNothing(m, nodes, edges, base, id, 0, |edges|, c, t);
  }

  /** `gens` are the states of a generator frame by frame. */
  ghost predicate Plays<S, G>(m: Machine<S, G>, gens: seq<G>, base: nat) {
    forall i :: 0 <= i < |gens| - 1 ==> gens[i + 1] == m.tick(gens[i], base + i)
  }

  /** A generator is asked for a sample at every absolute frame and moved on after each; its inputs
      do not matter. */
  lemma {:induction false} SourcePlays<S, G>(m: Machine<S, G>, nodes: seq<Node<S, G>>, edges: seq<Edge>, base: nat, id: nat,
                                            gens: seq<G>, c: nat, t: nat)
    requires EdgesIn(|nodes|, edges) && ValidNodes(nodes) && id < |nodes| && nodes[id].kind.Source?
    requires t < |gens| && gens[0] == nodes[id].kind.gen && Plays(m, gens, base)
    ensures Signal(m, nodes, edges, base, id, c, t) == m.sample(gens[t], base + t, c)
  {
    AdvancePlays(m, gens, base, t);
  }

  lemma {:induction false} AdvancePlays<S, G>(m: Machine<S, G>, gens: seq<G>, base: nat, t: nat)
    requires t < |gens| && Plays(m, gens, base)
    ensures Advance(m, gens[0], base, t) == gens[t]
  {
    if t > 0 {
      AdvancePlays(m, gens, base, t - 1);
      assert gens[(t - 1) + 1] == m.tick(gens[t - 1], base + (t - 1));
    }
  }

  /** Same kinds and channels, whatever is stored. */
  ghost predicate SameSetup<S, G>(a: seq<Node<S, G>>, b: seq<Node<S, G>>) {
    |a| == |b| && forall i :: 0 <= i < |a| ==> a[i].kind == b[i].kind && a[i].channels == b[i].channels
  }

  /** Without a cycle among its ancestors a node's signal does not depend on stored outputs. */
  lemma {:induction false} NoCycleNoMemory<S, G>(m: Machine<S, G>, a: seq<Node<S, G>>, b: seq<Node<S, G>>, edges: seq<Edge>,
                                                base: nat, id: nat, c: nat, t: nat)
    requires EdgesIn(|a|, edges) && ValidNodes(a) && ValidNodes(b) && SameSetup(a, b) && id < |a| && !Tainted(edges, id)
    ensures Signal(m, a, edges, base, id, c, t) == Signal(m, b, edges, base, id, c, t)
    decreases Depth(|a|, edges, id), |edges| + 1
  {
    NoCycleSum(m, a, b, edges, base, id, |edges|, c, t);
  }

  lemma {:induction false} NoCycleSum<S, G>(m: Machine<S, G>, a: seq<Node<S, G>>, b: seq<Node<S, G>>, edges: seq<Edge>,
                                           base: nat, id: nat, k: nat, c: nat, t: nat)
    requires EdgesIn(|a|, edges) && ValidNodes(a) && ValidNodes(b) && SameSetup(a, b) && id < |a| && !Tainted(edges, id) && k <= |edges|
    ensures PullSum(m, a, edges, base, id, k, c, t) == PullSum(m, b, edges, base, id, k, c, t)
    decreases Depth(|a|, edges, id), k
  {
    if k > 0 {
      NoCycleSum(m, a, b, edges, base, id, k - 1, c, t);
      var e := edges[k - 1];
      if e.to == id {
        DepthDrops(|a|, edges, k - 1);
        NoCycleNoMemory(m, a, b, edges, base, e.from, SourceChannel(a[e.from].channels, c), t);
      }
    }
  }

  // ----- One pass -----

  /** The stored outputs of the predecessors of `id` among the first `k` edges, mixed. */
  ghost function MixSample<S, G>(m: Machine<S, G>, nodes: seq<Node<S, G>>, edges: seq<Edge>, id: nat, k: nat, c: nat, f: nat): S
    requires EdgesIn(|nodes|, edges) && ValidNodes(nodes) && k <= |edges| && f < Frames
  {
    if k == 0 then m.zero else
      var acc := MixSample(m, nodes, edges, id, k - 1, c, f);
      var src := nodes[edges[k - 1].from];
      if edges[k - 1].to != id then acc else m.add(acc, src.out[SourceChannel(src.channels, c)][f])
  }

  /** What processing gives node `id` at channel `c`, frame `f`. */
  ghost function Rendered<S, G>(m: Machine<S, G>, nodes: seq<Node<S, G>>, edges: seq<Edge>, clock: nat, id: nat, c: nat, f: nat): S
    requires EdgesIn(|nodes|, edges) && ValidNodes(nodes) && id < |nodes| && f < Frames
  {
    match nodes[id].kind
    case Source(g) => m.sample(Advance(m, g, clock, f), clock + f, c)
    case Gain(x) => m.mul(MixSample(m, nodes, edges, id, |edges|, c, f), x)
    case _ => MixSample(m, nodes, edges, id, |edges|, c, f)
  }

  ghost predicate Holds<S, G>(m: Machine<S, G>, nodes: seq<Node<S, G>>, edges: seq<Edge>, clock: nat, id: nat, out: seq<seq<S>>)
    requires EdgesIn(|nodes|, edges) && ValidNodes(nodes) && id < |nodes|
    requires Shaped(out, nodes[id].channels)
  {
    forall c, f :: 0 <= c < |out| && 0 <= f < Frames ==> out[c][f] == Rendered(m, nodes, edges, clock, id, c, f)
  }

  function AdvancedKind<S, G>(m: Machine<S, G>, kind: Kind<S, G>, clock: nat, t: nat): Kind<S, G> {
    match kind
    case Source(g) => Source(Advance(m, g, clock, t))
    case _ => kind
  }

  /** `after` is `nodes` with node `id` processed. */
  ghost predicate Processes<S, G>(m: Machine<S, G>, nodes: seq<Node<S, G>>, edges: seq<Edge>, clock: nat, id: nat, after: seq<Node<S, G>>) {
    && EdgesIn(|nodes|, edges) && ValidNodes(nodes) && id < |nodes| == |after| && ValidNodes(after)
    && after[id].channels == nodes[id].channels
    && after[id].kind == AdvancedKind(m, nodes[id].kind, clock, Frames)
    && Holds(m, nodes, edges, clock, id, after[id].out)
    && forall i :: 0 <= i < |nodes| && i != id ==> after[i] == nodes[i]
  }

  /** State of a pass over `order` after `j` nodes: the processed ones have advanced and hold the
      pull signal of this quantum; the others are untouched. */
  ghost predicate PassInv<S, G>(m: Machine<S, G>, old_: seq<Node<S, G>>, edges: seq<Edge>, clock: nat, order: seq<nat>, j: nat, now: seq<Node<S, G>>) {
    && EdgesIn(|old_|, edges) && ValidNodes(old_) && |now| == |old_| == |order| && ValidNodes(now) && j <= |order|
    && (forall i :: 0 <= i < |order| ==> order[i] < |old_|)
    && (forall i :: 0 <= i < |order| ==> now[order[i]].channels == old_[order[i]].channels)
    && (forall i :: j <= i < |order| ==> now[order[i]] == old_[order[i]])
    && (forall i :: 0 <= i < j ==> now[order[i]].kind == AdvancedKind(m, old_[order[i]].kind, clock, Frames))
    && (forall i :: 0 <= i < j ==> Sounds(m, old_, edges, clock, order[i], now[order[i]]))
  }

  /** The stored quantum of `node` is the pull signal of `id`. */
  ghost predicate Sounds<S, G>(m: Machine<S, G>, nodes: seq<Node<S, G>>, edges: seq<Edge>, base: nat, id: nat, node: Node<S, G>)
    requires EdgesIn(|nodes|, edges) && ValidNodes(nodes) && id < |nodes| && ValidNode(node)
  {
    forall c, f :: 0 <= c < node.channels && 0 <= f < Frames ==> node.out[c][f] == Signal(m, nodes, edges, base, id, c, f)
  }

  /** What stands in `now` for the source of `e` is what the edge should carry. */
  ghost predicate Feeds<S, G>(m: Machine<S, G>, nodes: seq<Node<S, G>>, edges: seq<Edge>, clock: nat, now: seq<Node<S, G>>, e: Edge)
    requires EdgesIn(|nodes|, edges) && ValidNodes(nodes) && e.from < |nodes| == |now| && ValidNodes(now)
  {
    && now[e.from].channels == nodes[e.from].channels
    && if Late(edges, e) then now[e.from].out == nodes[e.from].out else Sounds(m, nodes, edges, clock, e.from, now[e.from])
  }

  /** Once all predecessors hold what their edges carry, mixing stored outputs is pulling. */
  lemma {:induction false} MixIsPull<S, G>(m: Machine<S, G>, nodes: seq<Node<S, G>>, edges: seq<Edge>, clock: nat,
                                          now: seq<Node<S, G>>, id: nat, k: nat, c: nat, f: nat)
    requires EdgesIn(|nodes|, edges) && ValidNodes(nodes) && id < |nodes| == |now| && ValidNodes(now)
    requires k <= |edges| && f < Frames
    requires forall i :: 0 <= i < k && edges[i].to == id ==> Feeds(m, nodes, edges, clock, now, edges[i])
    ensures MixSample(m, now, edges, id, k, c, f) == PullSum(m, nodes, edges, clock, id, k, c, f)
  {
    if k > 0 {
      MixIsPull(m, nodes, edges, clock, now, id, k - 1, c, f);
    }
  }

  /** When its turn comes, a node finds what its edges carry: sources of late edges have not been
      processed in this pass, all others have. */
  lemma PredecessorsFeed<S, G>(m: Machine<S, G>, nodes: seq<Node<S, G>>, edges: seq<Edge>, clock: nat, order: seq<nat>, k: nat, j: nat,
                               now: seq<Node<S, G>>, i: nat)
    requires PassInv(m, nodes, edges, clock, order, j, now) && j < |order| && KahnOrder(|nodes|, edges, order, k)
    requires i < |edges| && edges[i].to == order[j]
    ensures Feeds(m, nodes, edges, clock, now, edges[i])
  {
    OrderCovers(|nodes|, edges, order, k, edges[i].from);
    var h :| 0 <= h < |order| && order[h] == edges[i].from;
    EarlierIff(|nodes|, edges, order, k, i, h, j);
  }

  lemma RenderedIsSignal<S, G>(m: Machine<S, G>, nodes: seq<Node<S, G>>, edges: seq<Edge>, clock: nat, order: seq<nat>, k: nat, j: nat,
                               now: seq<Node<S, G>>, c: nat, f: nat)
    requires PassInv(m, nodes, edges, clock, order, j, now) && j < |order| && KahnOrder(|nodes|, edges, order, k) && f < Frames
    ensures Rendered(m, now, edges, clock, order[j], c, f) == Signal(m, nodes, edges, clock, order[j], c, f)
  {
    forall i | 0 <= i < |edges| && edges[i].to == order[j] ensures Feeds(m, nodes, edges, clock, now, edges[i]) {
      PredecessorsFeed(m, nodes, edges, clock, order, k, j, now, i);
    }
    MixIsPull(m, nodes, edges, clock, now, order[j], |edges|, c, f);
  }

  lemma PassStep<S, G>(m: Machine<S, G>, nodes: seq<Node<S, G>>, edges: seq<Edge>, clock: nat, order: seq<nat>, k: nat, j: nat,
                       now: seq<Node<S, G>>, after: seq<Node<S, G>>)
    requires PassInv(m, nodes, edges, clock, order, j, now) && j < |order| && KahnOrder(|nodes|, edges, order, k)
    requires Processes(m, now, edges, clock, order[j], after)
    ensures PassInv(m, nodes, edges, clock, order, j + 1, after)
  {
    var id := order[j];
    assert Sounds(m, nodes, edges, clock, id, after[id]) by {
      forall c, f | 0 <= c < after[id].channels && 0 <= f < Frames
        ensures after[id].out[c][f] == Signal(m, nodes, edges, clock, id, c, f)
      {
        RenderedIsSignal(m, nodes, edges, clock, order, k, j, now, c, f);
      }
    }
    assert forall i :: 0 <= i < |order| && i != j ==> after[order[i]] == now[order[i]];
  }

  /** `trace` lists the states of a pass over `order`, one node processed at each step. */
  ghost predicate PassTrace<S, G>(m: Machine<S, G>, edges: seq<Edge>, clock: nat, order: seq<nat>, trace: seq<seq<Node<S, G>>>) {
    1 <= |trace| <= |order| + 1 &&
    forall j :: 0 <= j < |trace| - 1 ==> Processes(m, trace[j], edges, clock, order[j], trace[j + 1])
  }

  lemma PassStarts<S, G>(m: Machine<S, G>, nodes: seq<Node<S, G>>, edges: seq<Edge>, clock: nat, order: seq<nat>, k: nat)
    requires EdgesIn(|nodes|, edges) && ValidNodes(nodes) && KahnOrder(|nodes|, edges, order, k)
    ensures PassInv(m, nodes, edges, clock, order, 0, nodes)
  {
  }

  // ----- Whole quanta -----

  /** Every generator has moved on by `t` frames; outputs aside, nothing else has changed. */
  ghost predicate Advanced<S, G>(m: Machine<S, G>, nodes: seq<Node<S, G>>, clock: nat, t: nat, now: seq<Node<S, G>>) {
    && |now| == |nodes| && ValidNodes(nodes) && ValidNodes(now)
    && forall i :: 0 <= i < |nodes| ==>
        now[i].channels == nodes[i].channels && now[i].kind == AdvancedKind(m, nodes[i].kind, clock, t)
  }

  /** What a pass leaves: generators advanced, and every node holding its pull signal of this
      quantum. */
  ghost predicate QuantumDone<S, G>(m: Machine<S, G>, nodes: seq<Node<S, G>>, edges: seq<Edge>, clock: nat, now: seq<Node<S, G>>) {
    && EdgesIn(|nodes|, edges) && Advanced(m, nodes, clock, Frames, now)
    && forall i :: 0 <= i < |nodes| ==> Sounds(m, nodes, edges, clock, i, now[i])
  }

  lemma PassEnds<S, G>(m: Machine<S, G>, nodes: seq<Node<S, G>>, edges: seq<Edge>, clock: nat, order: seq<nat>, k: nat, now: seq<Node<S, G>>)
    requires PassInv(m, nodes, edges, clock, order, |order|, now) && KahnOrder(|nodes|, edges, order, k)
    ensures QuantumDone(m, nodes, edges, clock, now)
  {
    forall v | 0 <= v < |nodes| ensures
      && now[v].channels == nodes[v].channels && now[v].kind == AdvancedKind(m, nodes[v].kind, clock, Frames)
      && Sounds(m, nodes, edges, clock, v, now[v])
    {
      OrderCovers(|nodes|, edges, order, k, v);
      var i :| 0 <= i < |order| && order[i] == v;
    }
  }

  /** `now` is `nodes` after `d` frames: generators moved on, and the outputs hold the last
      quantum. */
  ghost predicate Later<S, G>(m: Machine<S, G>, nodes: seq<Node<S, G>>, edges: seq<Edge>, base: nat, d: nat, now: seq<Node<S, G>>) {
    && EdgesIn(|nodes|, edges) && Advanced(m, nodes, base, d, now)
    && forall i, c, f :: 0 <= i < |nodes| && 0 <= c < nodes[i].channels && 0 <= f < Frames ==>
        now[i].out[c][f] == Delayed(m, nodes, edges, base, i, c, d + f)
  }

  /** The signal from `now` on is the later part of the signal from `nodes` on. */
  lemma {:induction false} SignalShifts<S, G>(m: Machine<S, G>, nodes: seq<Node<S, G>>, edges: seq<Edge>, base: nat, d: nat,
                                             now: seq<Node<S, G>>, id: nat, c: nat, t: nat)
    requires Later(m, nodes, edges, base, d, now) && id < |nodes|
    ensures Signal(m, now, edges, base + d, id, c, t) == Signal(m, nodes, edges, base, id, c, d + t)
    decreases t, Level(|nodes|, edges, id), |edges| + 1
  {
    match nodes[id].kind
    case Source(g) => AdvanceTwice(m, g, base, d, t);
    case _ => PullSumShifts(m, nodes, edges, base, d, now, id, |edges|, c, t);
  }

  lemma {:induction false} PullSumShifts<S, G>(m: Machine<S, G>, nodes: seq<Node<S, G>>, edges: seq<Edge>, base: nat, d: nat,
                                              now: seq<Node<S, G>>, id: nat, k: nat, c: nat, t: nat)
    requires Later(m, nodes, edges, base, d, now) && id < |nodes| && k <= |edges|
    ensures PullSum(m, now, edges, base + d, id, k, c, t) == PullSum(m, nodes, edges, base, id, k, c, d + t)
    decreases t, Level(|nodes|, edges, id), k
  {
    if k > 0 {
      PullSumShifts(m, nodes, edges, base, d, now, id, k - 1, c, t);
      var e := edges[k - 1];
      if e.to == id {
        var sc := SourceChannel(nodes[e.from].channels, c);
        if Late(edges, e) {
          DelayedShifts(m, nodes, edges, base, d, now, e.from, sc, t);
        } else {
          LevelDrops(|nodes|, edges, k - 1);
          SignalShifts(m, nodes, edges, base, d, now, e.from, sc, t);
        }
      }
    }
  }

  lemma {:induction false} DelayedShifts<S, G>(m: Machine<S, G>, nodes: seq<Node<S, G>>, edges: seq<Edge>, base: nat, d: nat,
                                              now: seq<Node<S, G>>, id: nat, c: nat, t: nat)
    requires Later(m, nodes, edges, base, d, now) && id < |nodes| && c < nodes[id].channels
    ensures Delayed(m, now, edges, base + d, id, c, t) == Delayed(m, nodes, edges, base, id, c, d + t)
    decreases t, 0, 0
  {
    if t >= Frames {
      SignalShifts(m, nodes, edges, base, d, now, id, c, t - Frames);
    }
  }

  /** One quantum further. */
  lemma LaterByOne<S, G>(m: Machine<S, G>, nodes: seq<Node<S, G>>, edges: seq<Edge>, base: nat, d: nat,
                         mid: seq<Node<S, G>>, now: seq<Node<S, G>>)
    requires Later(m, nodes, edges, base, d, mid) && QuantumDone(m, mid, edges, base + d, now)
    ensures Later(m, nodes, edges, base, d + Frames, now)
    ensures forall i, c, f :: 0 <= i < |nodes| && 0 <= c < nodes[i].channels && 0 <= f < Frames ==>
              now[i].out[c][f] == Signal(m, nodes, edges, base, i, c, d + f)
  {
    AdvancedTwice(m, nodes, base, d, mid, Frames, now);
    forall i, c, f | 0 <= i < |nodes| && 0 <= c < nodes[i].channels && 0 <= f < Frames
      ensures now[i].out[c][f] == Signal(m, nodes, edges, base, i, c, d + f)
    {
      assert Sounds(m, mid, edges, base + d, i, now[i]);
      SignalShifts(m, nodes, edges, base, d, mid, i, c, f);
    }
  }

  lemma AdvancedTwice<S, G>(m: Machine<S, G>, nodes: seq<Node<S, G>>, clock: nat, s: nat, mid: seq<Node<S, G>>, t: nat, now: seq<Node<S, G>>)
    requires Advanced(m, nodes, clock, s, mid) && Advanced(m, mid, clock + s, t, now)
    ensures Advanced(m, nodes, clock, s + t, now)
  {
    forall i | 0 <= i < |nodes| ensures now[i].kind == AdvancedKind(m, nodes[i].kind, clock, s + t) {
      if nodes[i].kind.Source? { AdvanceTwice(m, nodes[i].kind.gen, clock, s, t); }
    }
  }

  // ----- Rows of samples -----

  function Silence<S>(zero: S, channels: nat): (rows: seq<seq<S>>)
    ensures Shaped(rows, channels)
    ensures forall c, f :: 0 <= c < channels && 0 <= f < Frames ==> rows[c][f] == zero
  {
    seq(channels, _ => seq(Frames, _ => zero))
  }

  method AddRows<S, G>(m: Machine<S, G>, a: seq<S>, b: seq<S>) returns (row: seq<S>)
    requires |a| == |b| == Frames
    ensures |row| == Frames && forall f :: 0 <= f < Frames ==> row[f] == m.add(a[f], b[f])
  {
    row := a;
    for f := 0 to Frames
      invariant |row| == Frames && (forall h :: f <= h < Frames ==> row[h] == a[h])
      invariant forall h :: 0 <= h < f ==> row[h] == m.add(a[h], b[h])
    {
      row := row[f := m.add(row[f], b[f])];
    }
  }

  method ScaleRow<S, G>(m: Machine<S, G>, a: seq<S>, gain: S) returns (row: seq<S>)
    requires |a| == Frames
    ensures |row| == Frames && forall f :: 0 <= f < Frames ==> row[f] == m.mul(a[f], gain)
  {
    row := [];
    for f := 0 to Frames
      invariant |row| == f && forall h :: 0 <= h < f ==> row[h] == m.mul(a[h], gain)
    {
      row := row + [m.mul(a[f], gain)];
    }
  }

  method ScaleRows<S, G>(m: Machine<S, G>, inputs: seq<seq<S>>, channels: nat, gain: S) returns (out: seq<seq<S>>)
    requires Shaped(inputs, channels)
    ensures Shaped(out, channels)
    ensures forall c, f :: 0 <= c < channels && 0 <= f < Frames ==> out[c][f] == m.mul(inputs[c][f], gain)
  {
    out := [];
    for c := 0 to channels
      invariant Shaped(out, c)
      invariant forall d, f :: 0 <= d < c && 0 <= f < Frames ==> out[d][f] == m.mul(inputs[d][f], gain)
    {
      var row := ScaleRow(m, inputs[c], gain);
      out := out + [row];
    }
  }

  /** Writes frame `f` of every channel. */
  method PlayFrame<S, G>(m: Machine<S, G>, gen: G, frame: nat, channels: nat, f: nat, out0: seq<seq<S>>) returns (out: seq<seq<S>>)
    requires Shaped(out0, channels) && f < Frames
    ensures Shaped(out, channels)
    ensures forall c :: 0 <= c < channels ==> out[c] == out0[c][f := m.sample(gen, frame, c)]
  {
    out := out0;
    for c := 0 to channels
      invariant Shaped(out, channels) && forall d :: c <= d < channels ==> out[d] == out0[d]
      invariant forall d :: 0 <= d < c ==> out[d] == out0[d][f := m.sample(gen, frame, d)]
    {
      out := out[c := out[c][f := m.sample(gen, frame, c)]];
    }
  }

  /** A generator fills its rows frame by frame, moving on after each. */
  method PlaySource<S, G>(m: Machine<S, G>, g: G, clock: nat, channels: nat) returns (out: seq<seq<S>>, gen: G)
    ensures Shaped(out, channels) && gen == Advance(m, g, clock, Frames)
    ensures forall c, f :: 0 <= c < channels && 0 <= f < Frames ==> out[c][f] == m.sample(Advance(m, g, clock, f), clock + f, c)
  {
    out := Silence(m.zero, channels);
    gen := g;
    for f := 0 to Frames
      invariant Shaped(out, channels) && gen == Advance(m, g, clock, f)
      invariant forall c, h :: 0 <= c < channels && 0 <= h < f ==> out[c][h] == m.sample(Advance(m, g, clock, h), clock + h, c)
    {
      out := PlayFrame(m, gen, clock + f, channels, f, out);
      gen := m.tick(gen, clock + f);
    }
  }

  lemma SlotInRange(f: nat, ch: nat, c: nat)
    requires f < Frames && c < ch
    ensures f * ch + c < Frames * ch
  {
    assert (f + 1) * ch <= Frames * ch;
  }

  lemma SlotsDiffer(f: nat, c: nat, g: nat, d: nat, ch: nat)
    requires c < ch && d < ch && (f != g || c != d)
    ensures f * ch + c != g * ch + d
  {
    if f < g { assert (f + 1) * ch <= g * ch; }
    if g < f { assert (g + 1) * ch <= f * ch; }
  }

  /** The sample of channel `c` at frame `f` in an interleaved buffer. */
  function Interleaved<S>(out: seq<S>, ch: nat, f: nat, c: nat): S
    requires |out| == Frames * ch && f < Frames && c < ch
  {
    SlotInRange(f, ch, c);
    out[f * ch + c]
  }

  /** A stereo buffer runs left, right, left, right. */
  lemma StereoLayout<S>(out: seq<S>, f: nat)
    requires |out| == 256 && f < 128
    ensures out[2 * f] == Interleaved(out, 2, f, 0) && out[2 * f + 1] == Interleaved(out, 2, f, 1)
  {
  }

  /** Frame after frame, and within a frame channel after channel. */
  lemma FrameLayout<S>(out: seq<S>, ch: nat, f: nat, c: nat)
    requires |out| == 128 * ch && f < 128 && c < ch
    ensures 0 <= f * ch + c < |out| && out[f * ch + c] == Interleaved(out, ch, f, c)
  {
    SlotInRange(f, ch, c);
  }

  method Interleave<S>(zero: S, rows: seq<seq<S>>, ch: nat) returns (out: seq<S>)
    requires Shaped(rows, ch)
    ensures |out| == Frames * ch
    ensures forall f, c :: 0 <= f < Frames && 0 <= c < ch ==> Interleaved(out, ch, f, c) == rows[c][f]
  {
    out := seq(Frames * ch, _ => zero);
    for c := 0 to ch
      invariant |out| == Frames * ch
      invariant forall g, d :: 0 <= g < Frames && 0 <= d < c ==> Interleaved(out, ch, g, d) == rows[d][g]
    {
      for f := 0 to Frames
        invariant |out| == Frames * ch
        invariant forall g, d :: 0 <= g < Frames && 0 <= d < c ==> Interleaved(out, ch, g, d) == rows[d][g]
        invariant forall g :: 0 <= g < f ==> Interleaved(out, ch, g, c) == rows[c][g]
      {
        out := PutSlot(out, ch, f, c, rows[c][f]);
      }
    }
  }

  lemma PutElsewhere<S>(out: seq<S>, ch: nat, f: nat, c: nat, x: S, g: nat, d: nat)
    requires |out| == Frames * ch && f < Frames && c < ch && g < Frames && d < ch
    ensures f * ch + c < |out|
    ensures Interleaved(out[f * ch + c := x], ch, g, d) == if g == f && d == c then x else Interleaved(out, ch, g, d)
  {
    SlotInRange(f, ch, c);
    SlotInRange(g, ch, d);
    if g != f || d != c { SlotsDiffer(f, c, g, d, ch); }
  }

  method PutSlot<S>(out0: seq<S>, ch: nat, f: nat, c: nat, x: S) returns (out: seq<S>)
    requires |out0| == Frames * ch && f < Frames && c < ch
    ensures |out| == Frames * ch
    ensures forall g, d :: 0 <= g < Frames && 0 <= d < ch ==>
              Interleaved(out, ch, g, d) == if g == f && d == c then x else Interleaved(out0, ch, g, d)
  {
    SlotInRange(f, ch, c);
    var i := f * ch + c;
    out := out0[i := x];
    forall g, d | 0 <= g < Frames && 0 <= d < ch
      ensures Interleaved(out, ch, g, d) == if g == f && d == c then x else Interleaved(out0, ch, g, d)
    {
      PutElsewhere(out0, ch, f, c, x, g, d);
    }
  }

  method ExtendRows<S>(rows: seq<seq<S>>, more: seq<seq<S>>) returns (r: seq<seq<S>>)
    requires |rows| == |more|
    ensures |r| == |rows| && forall c :: 0 <= c < |r| ==> r[c] == rows[c] + more[c]
  {
    r := rows;
    for c := 0 to |rows|
      invariant |r| == |rows| && (forall d :: c <= d < |r| ==> r[d] == rows[d])
      invariant forall d :: 0 <= d < c ==> r[d] == rows[d] + more[d]
    {
      r := r[c := r[c] + more[c]];
    }
  }

  method TruncateRows<S>(rows: seq<seq<S>>, frames: nat) returns (r: seq<seq<S>>)
    requires forall c :: 0 <= c < |rows| ==> frames <= |rows[c]|
    ensures |r| == |rows| && forall c :: 0 <= c < |r| ==> r[c] == rows[c][..frames]
  {
    r := rows;
    for c := 0 to |rows|
      invariant |r| == |rows| && (forall d :: c <= d < |r| ==> r[d] == rows[d])
      invariant forall d :: 0 <= d < c ==> r[d] == rows[d][..frames]
    {
      r := r[c := r[c][..frames]];
    }
  }

  /** Whole quanta needed for `frames`. */
  function QuantaFor(frames: nat): (q: nat)
    ensures frames <= Frames * q < frames + Frames
  {
    (frames + Frames - 1) / Frames
  }

  /** The first `len` samples of every channel of the destination have been collected. */
  ghost predicate PlanarSoFar<S, G>(m: Machine<S, G>, nodes: seq<Node<S, G>>, edges: seq<Edge>, base: nat, ch: nat, len: nat, planar: seq<seq<S>>) {
    && EdgesIn(|nodes|, edges) && ValidNodes(nodes) && |nodes| >= 1
    && |planar| == ch && (forall c :: 0 <= c < ch ==> |planar[c]| == len)
    && forall c, t :: 0 <= c < ch && 0 <= t < len ==> planar[c][t] == Signal(m, nodes, edges, base, 0, c, t)
  }

  lemma PlanarStep<S, G>(m: Machine<S, G>, nodes: seq<Node<S, G>>, edges: seq<Edge>, base: nat, len: nat,
                         quantum: seq<seq<S>>, planar: seq<seq<S>>, longer: seq<seq<S>>)
    requires |nodes| >= 1 && PlanarSoFar(m, nodes, edges, base, nodes[0].channels, len, planar) && Shaped(quantum, |planar|)
    requires forall c, f :: 0 <= c < |planar| && 0 <= f < Frames ==> quantum[c][f] == Signal(m, nodes, edges, base, 0, c, len + f)
    requires |longer| == |planar| && forall c :: 0 <= c < |planar| ==> longer[c] == planar[c] + quantum[c]
    ensures PlanarSoFar(m, nodes, edges, base, nodes[0].channels, len + Frames, longer)
  {
    forall c, t | 0 <= c < |longer| && 0 <= t < len + Frames
      ensures longer[c][t] == Signal(m, nodes, edges, base, 0, c, t)
    {
      if t >= len { assert longer[c][t] == quantum[c][t - len]; }
    }
  }

  // ----- Connections -----

  function WithoutSource(edges: seq<Edge>, from: nat): seq<Edge> {
    if edges == [] then [] else (if edges[0].from != from then [edges[0]] else []) + WithoutSource(edges[1..], from)
  }

  /** Exactly the edges not leaving `from` stay, none twice. */
  lemma {:induction false} WithoutSourceKeeps(edges: seq<Edge>, from: nat)
    requires Common.NoDuplicates(edges)
    ensures forall e :: e in WithoutSource(edges, from) <==> e in edges && e.from != from
    ensures Common.NoDuplicates(WithoutSource(edges, from))
  {
    if edges != [] {
      assert edges == [edges[0]] + edges[1..];
      assert edges[0] !in edges[1..];
      WithoutSourceKeeps(edges[1..], from);
    }
  }

  // ----- The graph -----

  class AudioGraph<S, G> {
    const m: Machine<S, G>
    var nodes: seq<Node<S, G>>
    var edges: seq<Edge>
    var clock: nat

    /** Node 0 is the destination; edges join existing nodes and are never repeated. */
    ghost predicate Valid() reads this {
      |nodes| >= 1 && ValidNodes(nodes) && EdgesIn(|nodes|, edges) && Common.NoDuplicates(edges)
    }

    constructor (machine: Machine<S, G>)
      ensures Valid() && m == machine && edges == [] && clock == 0
      ensures |nodes| == 1 && nodes[0].kind == Destination && nodes[0].channels == 2
      ensures forall c, f :: 0 <= c < 2 && 0 <= f < Frames ==> nodes[0].out[c][f] == machine.zero
    {
      m := machine;
      nodes := [Node(Destination, 2, Silence(machine.zero, 2))];
      edges := [];
      clock := 0;
    }

    method Add(kind: Kind<S, G>, channels: nat) returns (id: nat)
      requires Valid()
      modifies this`nodes
      ensures Valid() && id == old(|nodes|) && |nodes| == id + 1 && nodes[..id] == old(nodes)
      ensures nodes[id].kind == kind && nodes[id].channels == if channels == 0 then 1 else channels
      ensures forall c, f :: 0 <= c < nodes[id].channels && 0 <= f < Frames ==> nodes[id].out[c][f] == m.zero
    {
      id := |nodes|;
      var count := if channels == 0 then 1 else channels;
      nodes := nodes + [Node(kind, count, Silence(m.zero, count))];
    }

    /** Refuses unknown nodes; connecting twice is connecting once. */
    method Connect(from: nat, to: nat) returns (ok: bool)
      requires Valid()
      modifies this`edges
      ensures Valid() && ok == (from < |nodes| && to < |nodes|)
      ensures edges == if ok && Edge(from, to) !in old(edges) then old(edges) + [Edge(from, to)] else old(edges)
    {
      if from >= |nodes| || to >= |nodes| { return false; }
      if Edge(from, to) in edges { return true; }
      edges := edges + [Edge(from, to)];
      return true;
    }

    /** Drops every edge out of `from` and keeps the others in order. */
    method Disconnect(from: nat)
      requires Valid()
      modifies this`edges
      ensures Valid() && edges == WithoutSource(old(edges), from)
    {
      WithoutSourceKeeps(edges, from);
      edges := WithoutSource(edges, from);
    }

    /** The mixed input of a node; every channel index is in range. */
    method GatherInputs(id: nat, channels: nat) returns (acc: seq<seq<S>>)
      requires Valid()
      ensures Shaped(acc, channels)
      ensures forall c, f :: 0 <= c < channels && 0 <= f < Frames ==> acc[c][f] == MixSample(m, nodes, edges, id, |edges|, c, f)
    {
      acc := Silence(m.zero, channels);
      for k := 0 to |edges|
        invariant Shaped(acc, channels)
        invariant forall c, f :: 0 <= c < channels && 0 <= f < Frames ==> acc[c][f] == MixSample(m, nodes, edges, id, k, c, f)
      {
        if edges[k].to != id { continue; }
        var src := nodes[edges[k].from];
        ghost var before := acc;
        for c := 0 to channels
          invariant Shaped(acc, channels)
          invariant forall d :: c <= d < channels ==> acc[d] == before[d]
          invariant forall d, f :: 0 <= d < c && 0 <= f < Frames ==> acc[d][f] == MixSample(m, nodes, edges, id, k + 1, d, f)
        {
          var sc := SourceChannel(src.channels, c);
          var row := AddRows(m, acc[c], src.out[sc]);
          acc := acc[c := row];
        }
      }
    }

    /** Renders one node from the stored outputs of the others. */
    method ProcessNode(id: nat)
      requires Valid() && id < |nodes|
      modifies this`nodes
      ensures Valid() && Processes(m, old(nodes), edges, clock, id, nodes)
    {
      var node := nodes[id];
      match node.kind
      case Source(g) =>
        var out, gen := PlaySource(m, g, clock, node.channels);
        nodes := nodes[id := Node(Source(gen), node.channels, out)];
      case Gain(gain) =>
        var inputs := GatherInputs(id, node.channels);
        var out := ScaleRows(m, inputs, node.channels, gain);
        nodes := nodes[id := node.(out := out)];
      case _ =>
        var inputs := GatherInputs(id, node.channels);
        nodes := nodes[id := node.(out := inputs)];
    }

    /** One evaluation pass in Kahn order; every node ends up with its pull signal. */
    method ProcessQuantum() returns (ghost k: nat, ghost order: seq<nat>, ghost trace: seq<seq<Node<S, G>>>)
      requires Valid()
      modifies this`nodes
      ensures Valid() && QuantumDone(m, old(nodes), edges, clock, nodes)
      ensures KahnOrder(old(|nodes|), edges, order, k) && PassTrace(m, edges, clock, order, trace)
      ensures |trace| == |order| + 1 && trace[0] == old(nodes) && trace[|order|] == nodes
    {
      var todo;
      todo, k := TopoOrder(|nodes|, edges);
      order, trace := todo, [nodes];
      PassStarts(m, nodes, edges, clock, order, k);
      for j := 0 to |todo|
        invariant Valid() && |nodes| == old(|nodes|) && PassInv(m, old(nodes), edges, clock, order, j, nodes)
        invariant PassTrace(m, edges, clock, order, trace) && |trace| == j + 1
        invariant trace[0] == old(nodes) && trace[j] == nodes
      {
        ghost var now := nodes;
        ProcessNode(todo[j]);
        PassStep(m, old(nodes), edges, clock, order, k, j, now, nodes);
        trace := trace + [nodes];
      }
      PassEnds(m, old(nodes), edges, clock, order, k, nodes);
    }

    /** The next quantum of the destination, interleaved. */
    method RenderQuantum() returns (out: seq<S>)
      requires Valid()
      modifies this`nodes, this`clock
      ensures Valid() && clock == old(clock) + 128 && QuantumDone(m, old(nodes), edges, old(clock), nodes)
      ensures |out| == Frames * nodes[0].channels
      ensures forall f, c :: 0 <= f < Frames && 0 <= c < nodes[0].channels ==>
                Interleaved(out, nodes[0].channels, f, c) == Signal(m, old(nodes), edges, old(clock), 0, c, f)
    {
      ghost var _, _, _ := ProcessQuantum();
      var dest := nodes[0];
      out := Interleave(m.zero, dest.out, dest.channels);
      clock := clock + Frames;
    }

    /** One more quantum of every channel of the destination. */
    method RenderMore(ghost start: seq<Node<S, G>>, ghost base: nat, ghost len: nat, planar0: seq<seq<S>>) returns (planar: seq<seq<S>>)
      requires Valid() && |start| >= 1 && clock == base + len && Later(m, start, edges, base, len, nodes)
      requires PlanarSoFar(m, start, edges, base, start[0].channels, len, planar0)
      modifies this`nodes, this`clock
      ensures Valid() && clock == base + len + Frames && Later(m, start, edges, base, len + Frames, nodes)
      ensures PlanarSoFar(m, start, edges, base, start[0].channels, len + Frames, planar)
    {
      ghost var mid := nodes;
      ghost var _, _, _ := ProcessQuantum();
      LaterByOne(m, start, edges, base, len, mid, nodes);
      planar := ExtendRows(planar0, nodes[0].out);
      PlanarStep(m, start, edges, base, len, nodes[0].out, planar0, planar);
      clock := clock + Frames;
    }

    /** `frames` frames of the destination in whole quanta, cut to length: sample `t` is the pull
        signal at time `t`, whatever quantum it fell into. */
    method RenderPlanar(frames: nat) returns (planar: seq<seq<S>>)
      requires Valid()
      modifies this`nodes, this`clock
      ensures Valid() && |nodes| == old(|nodes|) && |planar| == old(nodes[0].channels)
      ensures forall c :: 0 <= c < |planar| ==> |planar[c]| == frames
      ensures forall c, t :: 0 <= c < |planar| && 0 <= t < frames ==>
                planar[c][t] == Signal(m, old(nodes), edges, old(clock), 0, c, t)
      ensures clock == old(clock) + Frames * QuantaFor(frames)
      ensures Later(m, old(nodes), edges, old(clock), Frames * QuantaFor(frames), nodes)
    {
      var ch := nodes[0].channels;
      planar := seq(ch, _ => []);
      var quanta := QuantaFor(frames);
      for q := 0 to quanta
        invariant Valid() && clock == old(clock) + Frames * q
        invariant Later(m, old(nodes), edges, old(clock), Frames * q, nodes)
        invariant PlanarSoFar(m, old(nodes), edges, old(clock), ch, Frames * q, planar)
      {
        planar := RenderMore(old(nodes), old(clock), Frames * q, planar);
      }
      planar := TruncateRows(planar, frames);
    }
  }
}
