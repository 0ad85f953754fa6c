/**
 The accessibility tree and its published snapshot: crates/cv_a11y/src/lib.rs (`add_node`,
 `roots`, `set_focus`), provider.rs (`from_ax`, `find`, `navigate`) and uia.rs (`navigate`).
 Role, name and states of a node are one opaque value.
 */
module AxTree {
  import opened Common

  datatype Node<T> = Node(id: nat, info: T, focused: bool, parent: Option<nat>, children: seq<nat>)

  datatype Tree<T> = Tree(nodes: map<nat, Node<T>>, focus: Option<nat>, next: nat)

  // ----- Growing a tree -----

  function Linked<T>(nodes: map<nat, Node<T>>, parent: Option<nat>, id: nat): map<nat, Node<T>> {
    if parent.Some? && parent.value in nodes
    then nodes[parent.value := nodes[parent.value].(children := nodes[parent.value].children + [id])]
    else nodes
  }

  /** A new node under `parent`; a parent that does not exist is recorded but learns of nothing. */
  function Added<T>(t: Tree<T>, parent: Option<nat>, info: T, focused: bool): Tree<T> {
    var id := t.next + 1;
    Tree(Linked(t.nodes, parent, id)[id := Node(id, info, focused, parent, [])],
         if focused then Some(id) else t.focus, id)
  }

  /** Ids are 1 to `next`. */
  ghost predicate Numbered<T>(t: Tree<T>) {
    && (forall i :: i in t.nodes <==> 1 <= i <= t.next)
    && (forall i :: i in t.nodes ==> t.nodes[i].id == i)
  }

  /** A listed child is younger than its parent and points back to it; children stand in order of age. */
  ghost predicate ChildrenOk<T>(t: Tree<T>, i: nat)
    requires i in t.nodes
  {
    && (forall j :: 0 <= j < |t.nodes[i].children| ==> IsChild(t, i, t.nodes[i].children[j]))
    && (forall j, k :: 0 <= j < k < |t.nodes[i].children| ==> t.nodes[i].children[j] < t.nodes[i].children[k])
  }

  ghost predicate IsChild<T>(t: Tree<T>, i: nat, c: nat) {
    i < c && c in t.nodes && t.nodes[c].parent == Some(i)
  }

  /** Who named an existing parent is listed there. */
  ghost predicate Attached<T>(t: Tree<T>, c: nat)
    requires Numbered(t) && c in t.nodes
  {
    t.nodes[c].parent.Some? && 1 <= t.nodes[c].parent.value < c ==> c in t.nodes[t.nodes[c].parent.value].children
  }

  ghost predicate Valid<T>(t: Tree<T>) {
    && Numbered(t)
    && (forall i {:trigger ChildrenOk(t, i)} :: i in t.nodes ==> ChildrenOk(t, i))
    && (forall i {:trigger Attached(t, i)} :: i in t.nodes ==> Attached(t, i))
  }

  lemma AddedIsValid<T>(t: Tree<T>, parent: Option<nat>, info: T, focused: bool)
    requires Valid(t)
    ensures Valid(Added(t, parent, info, focused))
  {
    var r, id := Added(t, parent, info, focused), t.next + 1;
    assert Numbered(r);
    forall i | i in r.nodes ensures ChildrenOk(r, i) {
      if i != id {
        assert ChildrenOk(t, i);
        forall j | 0 <= j < |r.nodes[i].children| ensures IsChild(r, i, r.nodes[i].children[j]) {
          if j < |t.nodes[i].children| { assert IsChild(t, i, t.nodes[i].children[j]); }
        }
      }
    }
    forall c | c in r.nodes ensures Attached(r, c) {
      if c != id { assert Attached(t, c); }
    }
  }

  /** Every node with a parent is among that parent's children. */
  ghost predicate AllListed<T>(t: Tree<T>) {
    forall c :: c in t.nodes && t.nodes[c].parent.Some? ==> IsListed(t, t.nodes[c].parent.value, c)
  }

  ghost predicate IsListed<T>(t: Tree<T>, p: nat, c: nat) {
    p in t.nodes && c in t.nodes[p].children
  }

  /** A tree stays fully listed exactly as long as parents exist when they are named. */
  lemma ListedIff<T>(t: Tree<T>, parent: Option<nat>, info: T, focused: bool)
    requires Valid(t) && AllListed(t)
    ensures AllListed(Added(t, parent, info, focused)) <==> (parent.Some? ==> parent.value in t.nodes)
  {
    var r, id := Added(t, parent, info, focused), t.next + 1;
    AddedIsValid(t, parent, info, focused);
    if parent.Some? && parent.value !in t.nodes {
      assert r.nodes[id].parent == parent;
    } else {
      forall c | c in r.nodes && r.nodes[c].parent.Some? ensures IsListed(r, r.nodes[c].parent.value, c) {
        if c != id { assert IsListed(t, t.nodes[c].parent.value, c); }
      }
    }
  }

  // ----- Focus -----

  function WithFocus<T>(t: Tree<T>, id: nat, on: bool): Tree<T> {
    if id in t.nodes then t.(nodes := t.nodes[id := t.nodes[id].(focused := on)]) else t
  }

  function Focused<T>(t: Tree<T>, id: nat): Tree<T> {
    var cleared := if t.focus.Some? then WithFocus(t, t.focus.value, false) else t;
    if id in t.nodes then WithFocus(cleared, id, true).(focus := Some(id)) else cleared
  }

  /** The focus pointer names the one node that is marked focused. */
  ghost predicate FocusCoherent<T>(t: Tree<T>) {
    && (t.focus.Some? ==> t.focus.value in t.nodes)
    && forall i :: i in t.nodes ==> (t.nodes[i].focused <==> t.focus == Some(i))
  }

  /** Focusing an unknown id unmarks the focused node but keeps pointing at it. */
  lemma FocusCoherentIff<T>(t: Tree<T>, id: nat)
    requires FocusCoherent(t)
    ensures FocusCoherent(Focused(t, id)) <==> id in t.nodes || t.focus.None?
  {
    if id !in t.nodes && t.focus.Some? {
      assert !Focused(t, id).nodes[t.focus.value].focused;
    }
  }

  /** A new node that comes marked takes the pointer but leaves another node's mark in place. */
  lemma AddedCoherentIff<T>(t: Tree<T>, parent: Option<nat>, info: T, focused: bool)
    requires Numbered(t) && FocusCoherent(t)
    ensures FocusCoherent(Added(t, parent, info, focused)) <==> !focused || t.focus.None?
  {
    var r := Added(t, parent, info, focused);
    assert forall i :: i in t.nodes ==> i in r.nodes && r.nodes[i].focused == t.nodes[i].focused;
    if focused && t.focus.Some? {
      assert r.nodes[t.focus.value].focused;
    }
  }

  // ----- The snapshot -----

  datatype Published<T> = Published(id: nat, info: T, parent: Option<nat>, children: seq<nat>)

  datatype Snapshot<T> = Snapshot(nodes: seq<Published<T>>, root: Option<nat>)

  function Publish<T>(n: Node<T>): Published<T> { Published(n.id, n.info, n.parent, n.children) }

  /** The parentless nodes among the ids up to `n`, in id order. */
  function RootsUpTo<T>(nodes: map<nat, Node<T>>, n: nat): (r: seq<nat>)
    ensures forall i :: i in r <==> 1 <= i <= n && i in nodes && nodes[i].parent.None?
    ensures forall j, k :: 0 <= j < k < |r| ==> r[j] < r[k]
  {
    if n == 0 then [] else
      var rest := RootsUpTo(nodes, n - 1);
      assert forall j :: 0 <= j < |rest| ==> rest[j] in rest;
      if n in nodes && nodes[n].parent.None? then rest + [n] else rest
  }

  function Roots<T>(t: Tree<T>): seq<nat> { RootsUpTo(t.nodes, t.next) }

  /** The children of the listed nodes, one list after the other. */
  ghost function ChildrenOf<T>(t: Tree<T>, order: seq<nat>): seq<nat> {
    if order == [] then []
    else ChildrenOf(t, order[..|order| - 1]) + (if order[|order| - 1] in t.nodes then t.nodes[order[|order| - 1]].children else [])
  }

  ghost function Ids<T>(nodes: seq<Published<T>>): seq<nat> { seq(|nodes|, i requires 0 <= i < |nodes| => nodes[i].id) }

  ghost predicate Copies<T>(t: Tree<T>, nodes: seq<Published<T>>) {
    forall i :: 0 <= i < |nodes| ==> nodes[i].id in t.nodes && nodes[i] == Publish(t.nodes[nodes[i].id])
  }

  /** Copies of distinct nodes in breadth-first order: the roots, then the children of the first
      node listed, of the second, and so on. */
  ghost predicate IsSnapshot<T>(t: Tree<T>, s: Snapshot<T>) {
    && Copies(t, s.nodes) && NoDuplicates(Ids(s.nodes))
    && Ids(s.nodes) == Known(t, Ids(s.nodes))
    && s.root == if Roots(t) == [] then None else Some(Roots(t)[0])
  }

  lemma ListedChild<T>(t: Tree<T>, p: nat, c: nat)
    requires Valid(t) && IsListed(t, p, c)
    ensures IsChild(t, p, c)
  {
    assert ChildrenOk(t, p);
  }

  lemma ChildrenDistinct<T>(t: Tree<T>, i: nat)
    requires Valid(t) && i in t.nodes
    ensures NoDuplicates(t.nodes[i].children)
  {
    assert ChildrenOk(t, i);
  }

  lemma {:induction false} ChildrenOfSource<T>(t: Tree<T>, order: seq<nat>, c: nat) returns (p: nat)
    requires Valid(t) && c in ChildrenOf(t, order)
    ensures p in order && IsListed(t, p, c) && IsChild(t, p, c)
  {
    p := order[|order| - 1];
    if p in t.nodes && c in t.nodes[p].children {
      ListedChild(t, p, c);
    } else {
      p := ChildrenOfSource(t, order[..|order| - 1], c);
    }
  }

  lemma {:induction false} ChildrenOfHas<T>(t: Tree<T>, order: seq<nat>, p: nat, c: nat)
    requires p in order && IsListed(t, p, c)
    ensures c in ChildrenOf(t, order)
  {
    if order[|order| - 1] != p { ChildrenOfHas(t, order[..|order| - 1], p, c); }
  }

  /** What the worklist knows of: the roots and the children of the nodes visited. */
  ghost function Known<T>(t: Tree<T>, order: seq<nat>): seq<nat> { Roots(t) + ChildrenOf(t, order) }

  /** A known node is in the tree, and its parent, if it has one, has been visited. */
  lemma KnownNode<T>(t: Tree<T>, order: seq<nat>, c: nat)
    requires Valid(t) && c in Known(t, order)
    ensures c in t.nodes && (t.nodes[c].parent.Some? ==> t.nodes[c].parent.value in order)
  {
    if c !in Roots(t) { var p := ChildrenOfSource(t, order, c); }
  }

  lemma NewChildren<T>(t: Tree<T>, order: seq<nat>, id: nat)
    requires Valid(t) && id in t.nodes && id !in order && NoDuplicates(Known(t, order))
    ensures NoDuplicates(Known(t, order) + t.nodes[id].children)
  {
    var known, cs := Known(t, order), t.nodes[id].children;
    ChildrenDistinct(t, id);
    forall c | c in known ensures c !in cs {
      if c in cs {
        KnownNode(t, order, c);
        ListedChild(t, id, c);
        assert false;
      }
    }
    JoinDistinct(known, cs);
  }

  /** Between two visits: visited and waiting nodes together are the known ones, none twice. */
  ghost predicate Publishing<T>(t: Tree<T>, nodes: seq<Published<T>>, queue: seq<nat>) {
    Copies(t, nodes) && NoDuplicates(Ids(nodes) + queue) && Ids(nodes) + queue == Known(t, Ids(nodes))
  }

  lemma VisitOk<T>(t: Tree<T>, nodes: seq<Published<T>>, queue: seq<nat>)
    requires Valid(t) && Publishing(t, nodes, queue) && queue != []
    ensures queue[0] in t.nodes && queue[0] !in Ids(nodes) && |nodes| <= t.next
    ensures Publishing(t, nodes + [Publish(t.nodes[queue[0]])], queue[1..] + t.nodes[queue[0]].children)
  {
    var order, id := Ids(nodes), queue[0];
    SplitDistinct(order, queue);
    assert id in queue;
    KnownNode(t, order, id);
    assert Ids(nodes + [Publish(t.nodes[id])]) == order + [id];
    VisitOrder(t, order, queue);
    RoomForOne(t, nodes, id);
  }

  lemma VisitOrder<T>(t: Tree<T>, order: seq<nat>, queue: seq<nat>)
    requires Valid(t) && queue != [] && queue[0] in t.nodes && queue[0] !in order
    requires order + queue == Known(t, order) && NoDuplicates(order + queue)
    ensures var order', queue' := order + [queue[0]], queue[1..] + t.nodes[queue[0]].children;
            order' + queue' == Known(t, order') && NoDuplicates(order' + queue')
  {
    var id := queue[0];
    NewChildren(t, order, id);
    assert (order + [id]) + (queue[1..] + t.nodes[id].children) == (order + queue) + t.nodes[id].children;
    assert (order + [id])[..|order|] == order;
  }

  /** A node not yet published leaves room for it. */
  lemma RoomForOne<T>(t: Tree<T>, nodes: seq<Published<T>>, id: nat)
    requires Valid(t) && Copies(t, nodes) && NoDuplicates(Ids(nodes)) && id in t.nodes && id !in Ids(nodes)
    ensures |nodes| <= t.next
  {
    var order := Ids(nodes) + [id];
    JoinDistinct(Ids(nodes), [id]);
    forall i | 0 <= i < |order| ensures order[i] in t.nodes {
      if i < |nodes| { assert nodes[i].id == order[i]; }
    }
    OrderIsShort(t, order);
  }

  /** Breadth-first publishing; the guard against visiting twice never fires. */
  method FromAx<T>(t: Tree<T>) returns (s: Snapshot<T>)
    requires Valid(t)
    ensures IsSnapshot(t, s)
  {
    var roots := Roots(t);
    var root := if roots == [] then None else Some(roots[0]);
    var nodes, queue, seen := [], roots, {};
    assert Ids<T>([]) == [];
    while queue != []
      invariant Publishing(t, nodes, queue) && seen == Elements(Ids(nodes))
      decreases t.next + 1 - |nodes|
    {
      VisitOk(t, nodes, queue);
      var id := queue[0];
      queue := queue[1..];
      if id !in seen {
        seen := seen + {id};
        if id in t.nodes {
          assert Ids(nodes + [Publish(t.nodes[id])]) == Ids(nodes) + [id];
          nodes := nodes + [Publish(t.nodes[id])];
          queue := queue + t.nodes[id].children;
        }
      }
    }
    assert Ids(nodes) + queue == Ids(nodes);
    s := Snapshot(nodes, root);
  }

  lemma OrderIsShort<T>(t: Tree<T>, order: seq<nat>)
    requires Valid(t) && NoDuplicates(order) && forall i :: 0 <= i < |order| ==> order[i] in t.nodes
    ensures |order| <= t.next + 1
  {
    DistinctBelow(t.next + 1, order);
  }

  /** The root of a snapshot is its first node and the least id without a parent. */
  lemma RootComesFirst<T>(t: Tree<T>, s: Snapshot<T>, i: nat)
    requires Valid(t) && IsSnapshot(t, s) && i in t.nodes && t.nodes[i].parent.None?
    ensures s.root.Some? && s.root.value <= i && s.root.value in t.nodes && t.nodes[s.root.value].parent.None?
    ensures s.nodes != [] && s.nodes[0].id == s.root.value
  {
    var roots := Roots(t);
    assert i in roots;
    var j :| 0 <= j < |roots| && roots[j] == i;
    assert roots[0] in roots && (j > 0 ==> roots[0] < roots[j]);
    assert Ids(s.nodes)[0] == Known(t, Ids(s.nodes))[0];
  }

  // ----- Navigation -----

  datatype Direction = Parent | NextSibling | PreviousSibling | FirstChild | LastChild

  /** The position of the first occurrence of `x`. */
  function Position(s: seq<nat>, x: nat): (r: Option<nat>)
    ensures r.None? <==> x !in s
    ensures r.Some? ==> r.value < |s| && s[r.value] == x && x !in s[..r.value]
  {
    if s == [] then None
    else if s[0] == x then Some(0)
    else
      match Position(s[1..], x)
      case None => None
      case Some(i) => assert s[..i + 1] == [s[0]] + s[1..][..i]; Some(i + 1)
  }

  function At(s: seq<nat>, i: int): Option<nat> { if 0 <= i < |s| then Some(s[i]) else None }

  /** `uia::navigate`: by looking nodes up in the tree. */
  function TreeNavigate<T>(t: Tree<T>, from: nat, dir: Direction): Option<nat> {
    if from !in t.nodes then None else
      var n := t.nodes[from];
      match dir
      case Parent => n.parent
      case FirstChild => At(n.children, 0)
      case LastChild => At(n.children, |n.children| - 1)
      case _ =>
        if n.parent.None? || n.parent.value !in t.nodes then None else
          var siblings := t.nodes[n.parent.value].children;
          match Position(siblings, from)
          case None => None
          case Some(i) => At(siblings, if dir == NextSibling then i + 1 else i - 1)
  }

  function Find<T>(nodes: seq<Published<T>>, id: nat): Option<Published<T>> {
    if nodes == [] then None else if nodes[0].id == id then Some(nodes[0]) else Find(nodes[1..], id)
  }

  /** `PublishedTree::navigate`: by searching the flat list. */
  function SnapshotNavigate<T>(s: Snapshot<T>, from: nat, dir: Direction): Option<nat> {
    match Find(s.nodes, from)
    case None => None
    case Some(n) =>
      match dir
      case Parent => n.parent
      case FirstChild => At(n.children, 0)
      case LastChild => At(n.children, |n.children| - 1)
      case _ =>
        if n.parent.None? then None else
          match Find(s.nodes, n.parent.value)
          case None => None
          case Some(p) =>
            match Position(p.children, from)
            case None => None
            case Some(i) => At(p.children, if dir == NextSibling then i + 1 else i - 1)
  }

  lemma {:induction false} FindIs<T>(t: Tree<T>, nodes: seq<Published<T>>, id: nat)
    requires Copies(t, nodes)
    ensures Find(nodes, id) == if id in Ids(nodes) then Some(Publish(t.nodes[id])) else None
  {
    if nodes != [] {
      FindIs(t, nodes[1..], id);
      assert Ids(nodes) == [nodes[0].id] + Ids(nodes[1..]);
    }
  }

  /** In a fully listed tree publishing reaches every node. */
  lemma {:induction false} Reached<T>(t: Tree<T>, s: Snapshot<T>, id: nat)
    requires Valid(t) && AllListed(t) && IsSnapshot(t, s) && id in t.nodes
    ensures id in Ids(s.nodes)
  {
    if t.nodes[id].parent.Some? {
      var p := t.nodes[id].parent.value;
      assert IsListed(t, p, id);
      ListedChild(t, p, id);
      Reached(t, s, p);
      ChildrenOfHas(t, Ids(s.nodes), p, id);
    }
  }

  lemma PublishedAreNodes<T>(t: Tree<T>, s: Snapshot<T>, id: nat)
    requires IsSnapshot(t, s) && id in Ids(s.nodes)
    ensures id in t.nodes
  {
    var i :| 0 <= i < |s.nodes| && Ids(s.nodes)[i] == id;
    assert s.nodes[i].id in t.nodes;
  }

  /** Every node is published exactly once, copied faithfully, and nothing else is. */
  lemma PublishedOnce<T>(t: Tree<T>, s: Snapshot<T>, id: nat)
    requires Valid(t) && AllListed(t) && IsSnapshot(t, s)
    ensures id in t.nodes <==> id in Ids(s.nodes)
    ensures |s.nodes| == t.next
    ensures Find(s.nodes, id) == if id in t.nodes then Some(Publish(t.nodes[id])) else None
  {
    forall i: nat | i in t.nodes ensures i in Ids(s.nodes) { Reached(t, s, i); }
    if id in Ids(s.nodes) { PublishedAreNodes(t, s, id); }
    FindIs(t, s.nodes, id);
    CountIds(t, s);
  }

  lemma CountIds<T>(t: Tree<T>, s: Snapshot<T>)
    requires Valid(t) && IsSnapshot(t, s) && forall i: nat :: i in t.nodes ==> i in Ids(s.nodes)
    ensures |s.nodes| == t.next
  {
    var ids := Ids(s.nodes);
    forall i | i in ids ensures 1 <= i <= t.next { PublishedAreNodes(t, s, i); }
    ExactCount(t.next, ids);
  }

  lemma ExactCount(n: nat, ids: seq<nat>)
    requires NoDuplicates(ids) && (forall i :: i in ids ==> 1 <= i <= n) && forall i :: 1 <= i <= n ==> i in ids
    ensures |ids| == n
  {
    var all := [0] + ids;
    JoinDistinct([0], ids);
    DistinctCount(all);
    assert Elements(all) == Below(n + 1);
  }

  ghost predicate NavigationAgrees<T>(t: Tree<T>, s: Snapshot<T>) {
    forall id: nat, dir {:trigger SnapshotNavigate(s, id, dir)} :: SnapshotNavigate(s, id, dir) == TreeNavigate(t, id, dir)
  }

  ghost predicate FindsAlike<T>(t: Tree<T>, s: Snapshot<T>, id: nat) {
    Find(s.nodes, id) == if id in t.nodes then Some(Publish(t.nodes[id])) else None
  }

  lemma LookupsDecide<T>(t: Tree<T>, s: Snapshot<T>, id: nat, dir: Direction)
    requires FindsAlike(t, s, id)
    requires id in t.nodes && t.nodes[id].parent.Some? ==> FindsAlike(t, s, t.nodes[id].parent.value)
    ensures SnapshotNavigate(s, id, dir) == TreeNavigate(t, id, dir)
  {
  }

  lemma NavigationSame<T>(t: Tree<T>, s: Snapshot<T>, id: nat, dir: Direction)
    requires Valid(t) && AllListed(t) && IsSnapshot(t, s)
    ensures SnapshotNavigate(s, id, dir) == TreeNavigate(t, id, dir)
  {
    PublishedOnce(t, s, id);
    if id in t.nodes && t.nodes[id].parent.Some? { PublishedOnce(t, s, t.nodes[id].parent.value); }
    assert FindsAlike(t, s, id);
    assert id in t.nodes && t.nodes[id].parent.Some? ==> FindsAlike(t, s, t.nodes[id].parent.value);
    LookupsDecide(t, s, id, dir);
  }

  lemma UnlistedIsLost<T>(t: Tree<T>, s: Snapshot<T>, id: nat)
    requires Valid(t) && IsSnapshot(t, s) && id in t.nodes && t.nodes[id].parent.Some? && !IsListed(t, t.nodes[id].parent.value, id)
    ensures SnapshotNavigate(s, id, Parent) != TreeNavigate(t, id, Parent)
  {
    if id in Ids(s.nodes) {
      assert id in ChildrenOf(t, Ids(s.nodes));
      var p := ChildrenOfSource(t, Ids(s.nodes), id);
      assert false;
    }
    FindIs(t, s.nodes, id);
  }

  /** The snapshot answers every navigation as the tree does exactly if every node with a parent
      is listed there. */
  lemma NavigationAgreesIff<T>(t: Tree<T>, s: Snapshot<T>)
    requires Valid(t) && IsSnapshot(t, s)
    ensures NavigationAgrees(t, s) <==> AllListed(t)
  {
    if AllListed(t) {
      forall id: nat, dir ensures SnapshotNavigate(s, id, dir) == TreeNavigate(t, id, dir) { NavigationSame(t, s, id, dir); }
    } else {
      var c :| c in t.nodes && t.nodes[c].parent.Some? && !IsListed(t, t.nodes[c].parent.value, c);
      UnlistedIsLost(t, s, c);
    }
  }

  /** Next and previous sibling undo each other, and first and last child lead back. */
  lemma NavigationIsConsistent<T>(t: Tree<T>, a: nat, b: nat)
    requires Valid(t)
    ensures TreeNavigate(t, a, NextSibling) == Some(b) <==> TreeNavigate(t, b, PreviousSibling) == Some(a)
    ensures TreeNavigate(t, a, FirstChild) == Some(b) ==> TreeNavigate(t, b, Parent) == Some(a) && TreeNavigate(t, b, PreviousSibling) == None
    ensures TreeNavigate(t, a, LastChild) == Some(b) ==> TreeNavigate(t, b, Parent) == Some(a) && TreeNavigate(t, b, NextSibling) == None
  {
    if TreeNavigate(t, a, NextSibling) == Some(b) { SiblingStep(t, a, b, NextSibling); }
    if TreeNavigate(t, b, PreviousSibling) == Some(a) { SiblingStep(t, b, a, PreviousSibling); }
    if a in t.nodes && t.nodes[a].children != [] {
      var cs := t.nodes[a].children;
      ChildrenDistinct(t, a);
      ListedChild(t, a, cs[0]);
      ListedChild(t, a, cs[|cs| - 1]);
    }
  }

  lemma SiblingStep<T>(t: Tree<T>, a: nat, b: nat, dir: Direction)
    requires Valid(t) && (dir.NextSibling? || dir.PreviousSibling?) && TreeNavigate(t, a, dir) == Some(b)
    ensures TreeNavigate(t, b, if dir == NextSibling then PreviousSibling else NextSibling) == Some(a)
  {
    var p := t.nodes[a].parent.value;
    var cs := t.nodes[p].children;
    var i := Position(cs, a).value;
    var j := if dir == NextSibling then i + 1 else i - 1;
    ChildrenDistinct(t, p);
    ListedChild(t, p, cs[j]);
  }

  /** `b` is the first child of `p` in document order after `a`; 0 stands in front of all. */
  ghost predicate FirstAfter<T>(t: Tree<T>, p: nat, a: nat, b: nat) {
    p in t.nodes && IsChild(t, p, b) && a < b && forall c: nat :: IsChild(t, p, c) && a < c ==> b <= c
  }

  /** `b` is the last child of `p` in document order before `a`. */
  ghost predicate LastBefore<T>(t: Tree<T>, p: nat, a: nat, b: nat) {
    p in t.nodes && IsChild(t, p, b) && b < a && forall c: nat :: IsChild(t, p, c) && c < a ==> c <= b
  }

  lemma ListedExactly<T>(t: Tree<T>, p: nat, c: nat)
    requires Valid(t) && p in t.nodes
    ensures c in t.nodes[p].children <==> IsChild(t, p, c)
  {
    assert ChildrenOk(t, p);
    if c in t.nodes { assert Attached(t, c); }
  }

  lemma ChildrenSorted<T>(t: Tree<T>, p: nat, i: nat, c: nat)
    requires Valid(t) && p in t.nodes && i < |t.nodes[p].children| && IsChild(t, p, c)
    ensures var cs := t.nodes[p].children;
            && (c > cs[i] ==> i + 1 < |cs| && cs[i + 1] <= c)
            && (c < cs[i] ==> i >= 1 && c <= cs[i - 1])
            && cs[0] <= c <= cs[|cs| - 1]
  {
    ListedExactly(t, p, c);
    assert ChildrenOk(t, p);
    var j :| 0 <= j < |t.nodes[p].children| && t.nodes[p].children[j] == c;
  }

  /** The child moves lead to the least and the greatest id whose parent is the node. */
  lemma ChildMovesById<T>(t: Tree<T>, a: nat, b: nat)
    requires Valid(t)
    ensures TreeNavigate(t, a, FirstChild) == Some(b) <==> FirstAfter(t, a, 0, b)
    ensures TreeNavigate(t, a, LastChild) == Some(b) <==> LastBefore(t, a, t.next + 1, b)
  {
    if a in t.nodes {
      var cs := t.nodes[a].children;
      ListedExactly(t, a, b);
      if cs != [] {
        ListedExactly(t, a, cs[0]);
        ListedExactly(t, a, cs[|cs| - 1]);
        forall c | IsChild(t, a, c) ensures cs[0] <= c <= cs[|cs| - 1] { ChildrenSorted(t, a, 0, c); }
      }
    }
  }

  /** The sibling moves lead to the next greater and the next smaller id with the same parent. */
  lemma SiblingMovesById<T>(t: Tree<T>, p: nat, a: nat, b: nat)
    requires Valid(t) && p in t.nodes && IsChild(t, p, a)
    ensures TreeNavigate(t, a, NextSibling) == Some(b) <==> FirstAfter(t, p, a, b)
    ensures TreeNavigate(t, a, PreviousSibling) == Some(b) <==> LastBefore(t, p, a, b)
  {
    var cs := t.nodes[p].children;
    assert ChildrenOk(t, p);
    ListedExactly(t, p, a);
    ListedExactly(t, p, b);
    var i := Position(cs, a).value;
    if i + 1 < |cs| { ListedExactly(t, p, cs[i + 1]); }
    if i >= 1 { ListedExactly(t, p, cs[i - 1]); }
    forall c: nat | IsChild(t, p, c) ensures
      (c > a ==> i + 1 < |cs| && cs[i + 1] <= c) && (c < a ==> i >= 1 && c <= cs[i - 1])
    {
      ChildrenSorted(t, p, i, c);
    }
  }

  /** Who has no existing parent has no siblings to move to. */
  lemma RootsHaveNoSiblings<T>(t: Tree<T>, a: nat)
    requires Valid(t) && (forall p :: p in t.nodes ==> !IsChild(t, p, a))
    ensures TreeNavigate(t, a, NextSibling) == None && TreeNavigate(t, a, PreviousSibling) == None
  {
    if a in t.nodes && t.nodes[a].parent.Some? && t.nodes[a].parent.value in t.nodes {
      ListedExactly(t, t.nodes[a].parent.value, a);
    }
  }

  // ----- The tree as it is used -----

  class AxTree<T> {
    var nodes: map<nat, Node<T>>
    var focus: Option<nat>
    var next: nat

    function Value(): Tree<T> reads this { Tree(nodes, focus, next) }

    constructor ()
      ensures Value() == Tree(map[], None, 0) && Valid(Value()) && AllListed(Value())
    {
      nodes, focus, next := map[], None, 0;
    }

    method AddNode(parent: Option<nat>, info: T, focused: bool) returns (id: nat)
      requires Valid(Value())
      modifies this
      ensures Value() == Added(old(Value()), parent, info, focused) && id == next == old(next) + 1
      ensures Valid(Value())
    {
      AddedIsValid(Value(), parent, info, focused);
      next := next + 1;
      id := next;
      if parent.Some? && parent.value in nodes {
        var p := nodes[parent.value];
        nodes := nodes[parent.value := p.(children := p.children + [id])];
      }
      if focused { focus := Some(id); }
      nodes := nodes[id := Node(id, info, focused, parent, [])];
    }

    method SetFocus(id: nat)
      modifies this
      ensures Value() == Focused(old(Value()), id)
    {
      if focus.Some? && focus.value in nodes {
        nodes := nodes[focus.value := nodes[focus.value].(focused := false)];
      }
      if id in nodes {
        nodes := nodes[id := nodes[id].(focused := true)];
        focus := Some(id);
      }
    }
  }
}
