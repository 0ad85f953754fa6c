/**
 The builder from a DOM to an accessibility tree: `build_ax_tree` and `build_subtree` of
 crates/cv_a11y/src/build.rs.  What the builder reads off a DOM node is summarised by how it
 treats it: not an element, metadata, presentational, or exposed with some information.
 */
module AxBuild {
  import opened Common
  import opened AxTree

  /** The DOM node an accessible node stands for, and its computed role, name and states. */
  datatype Label<T> = Label(dom: nat, data: T)

  datatype Dom<T> =
    | Other
    | Metadata(hidden: seq<Dom<T>>)
    | Presentational(inner: seq<Dom<T>>)
    | Exposed(about: Label<T>, kids: seq<Dom<T>>)

  // ----- What should come out -----

  datatype Ax<T> = Ax(about: Label<T>, kids: seq<Ax<T>>)

  /** The exposed elements of a DOM node, each under its nearest exposed ancestor. */
  function Pruned<T>(d: Dom<T>): seq<Ax<T>> {
    match d
    case Other => []
    case Metadata(_) => []
    case Presentational(inner) => PrunedAll(inner)
    case Exposed(about, kids) => [Ax(about, PrunedAll(kids))]
  }

  function PrunedAll<T>(ds: seq<Dom<T>>): seq<Ax<T>> {
    if ds == [] then [] else Pruned(ds[0]) + PrunedAll(ds[1..])
  }

  /** The exposed elements of a DOM node in document order. */
  function Preorder<T>(d: Dom<T>): seq<Label<T>> {
    match d
    case Other => []
    case Metadata(_) => []
    case Presentational(inner) => PreorderAll(inner)
    case Exposed(about, kids) => [about] + PreorderAll(kids)
  }

  function PreorderAll<T>(ds: seq<Dom<T>>): seq<Label<T>> {
    if ds == [] then [] else Preorder(ds[0]) + PreorderAll(ds[1..])
  }

  // ----- Which elements those are -----

  function KidsOf<T>(d: Dom<T>): seq<Dom<T>> {
    match d
    case Other => []
    case Metadata(hidden) => hidden
    case Presentational(inner) => inner
    case Exposed(_, kids) => kids
  }

  /** `path` leads from the nodes `ds` to `d`, child position by child position, through presentational
      elements and, if `deep`, exposed ones; never through metadata. */
  ghost predicate LeadsTo<T>(ds: seq<Dom<T>>, path: seq<nat>, deep: bool, d: Dom<T>)
    decreases |path|
  {
    && |path| > 0 && path[0] < |ds|
    && if |path| == 1 then ds[path[0]] == d
       else (ds[path[0]].Presentational? || (deep && ds[path[0]].Exposed?)) && LeadsTo(KidsOf(ds[path[0]]), path[1..], deep, d)
  }

  /** The element `x` is exposed in `ds`; if not `deep`, with no exposed element above it there. */
  ghost predicate Shown<T(!new)>(ds: seq<Dom<T>>, deep: bool, x: Label<T>) {
    exists path, kids :: LeadsTo(ds, path, deep, Exposed(x, kids))
  }

  lemma ShownHere<T(!new)>(ds: seq<Dom<T>>, deep: bool, x: Label<T>)
    requires ds != [] && ds[0].Exposed? && ds[0].about == x
    ensures Shown(ds, deep, x)
  {
    assert LeadsTo(ds, [0], deep, Exposed(x, ds[0].kids));
  }

  lemma ShownInside<T(!new)>(ds: seq<Dom<T>>, deep: bool, x: Label<T>)
    requires ds != [] && (ds[0].Presentational? || (deep && ds[0].Exposed?)) && Shown(KidsOf(ds[0]), deep, x)
    ensures Shown(ds, deep, x)
  {
    var path, kids :| LeadsTo(KidsOf(ds[0]), path, deep, Exposed(x, kids));
    assert ([0] + path)[1..] == path;
    assert LeadsTo(ds, [0] + path, deep, Exposed(x, kids));
  }

  lemma ShownLater<T(!new)>(ds: seq<Dom<T>>, deep: bool, x: Label<T>)
    requires ds != [] && Shown(ds[1..], deep, x)
    ensures Shown(ds, deep, x)
  {
    var path, kids :| LeadsTo(ds[1..], path, deep, Exposed(x, kids));
    var p := [path[0] + 1] + path[1..];
    assert p[1..] == path[1..];
    assert LeadsTo(ds, p, deep, Exposed(x, kids));
  }

  lemma ShownSplits<T(!new)>(ds: seq<Dom<T>>, deep: bool, x: Label<T>)
    requires ds != [] && Shown(ds, deep, x)
    ensures || (ds[0].Exposed? && ds[0].about == x)
            || ((ds[0].Presentational? || (deep && ds[0].Exposed?)) && Shown(KidsOf(ds[0]), deep, x))
            || Shown(ds[1..], deep, x)
  {
    var path, kids :| LeadsTo(ds, path, deep, Exposed(x, kids));
    if path[0] > 0 {
      var p := [path[0] - 1] + path[1..];
      assert p[1..] == path[1..];
      assert LeadsTo(ds[1..], p, deep, Exposed(x, kids));
    } else if |path| > 1 {
      assert LeadsTo(KidsOf(ds[0]), path[1..], deep, Exposed(x, kids));
    }
  }

  /** Exactly the exposed elements outside metadata are listed. */
  lemma {:induction false} ListedIffShown<T(!new)>(ds: seq<Dom<T>>, x: Label<T>)
    ensures x in PreorderAll(ds) <==> Shown(ds, true, x)
    decreases ds
  {
    if ds != [] {
      if ds[0].Presentational? || ds[0].Exposed? { ListedIffShown(KidsOf(ds[0]), x); }
      ListedIffShown(ds[1..], x);
      if Shown(ds, true, x) { ShownSplits(ds, true, x); }
      if ds[0].Exposed? && ds[0].about == x { ShownHere(ds, true, x); }
      if (ds[0].Presentational? || ds[0].Exposed?) && Shown(KidsOf(ds[0]), true, x) { ShownInside(ds, true, x); }
      if Shown(ds[1..], true, x) { ShownLater(ds, true, x); }
    }
  }

  /** The labels of a list of subtrees. */
  function Tops<T>(axs: seq<Ax<T>>): (r: seq<Label<T>>)
    ensures |r| == |axs| && forall i :: 0 <= i < |axs| ==> r[i] == axs[i].about
  {
    seq(|axs|, i requires 0 <= i < |axs| => axs[i].about)
  }

  lemma TopsJoin<T>(a: seq<Ax<T>>, b: seq<Ax<T>>, x: Label<T>)
    ensures x in Tops(a + b) <==> x in Tops(a) || x in Tops(b)
  {
    assert Tops(a + b) == Tops(a) + Tops(b);
  }

  /** The children of an element in the tree are exactly the exposed elements below it with no exposed
      element between. */
  lemma {:induction false} ChildrenAreNearest<T(!new)>(ds: seq<Dom<T>>, x: Label<T>)
    ensures x in Tops(PrunedAll(ds)) <==> Shown(ds, false, x)
    decreases ds
  {
    if ds != [] {
      if ds[0].Presentational? { ChildrenAreNearest(KidsOf(ds[0]), x); }
      ChildrenAreNearest(ds[1..], x);
      TopsJoin(Pruned(ds[0]), PrunedAll(ds[1..]), x);
      if Shown(ds, false, x) { ShownSplits(ds, false, x); }
      if ds[0].Exposed? {
        assert Tops(Pruned(ds[0])) == [ds[0].about];
        if ds[0].about == x { ShownHere(ds, false, x); }
      }
      if ds[0].Presentational? && Shown(KidsOf(ds[0]), false, x) { ShownInside(ds, false, x); }
      if Shown(ds[1..], false, x) { ShownLater(ds, false, x); }
    }
  }

  // ----- The builder -----

  function Built<T>(t: Tree<Label<T>>, d: Dom<T>, parent: nat, focus: Option<nat>): Tree<Label<T>>
    decreases d, 0
  {
    match d
    case Other => t
    case Metadata(_) => t
    case Presentational(inner) => BuiltAll(t, inner, parent, focus)
    case Exposed(about, kids) => BuiltAll(Added(t, Some(parent), about, Some(about.dom) == focus), kids, t.next + 1, focus)
  }

  function BuiltAll<T>(t: Tree<Label<T>>, ds: seq<Dom<T>>, parent: nat, focus: Option<nat>): Tree<Label<T>>
    decreases ds, 1
  {
    if ds == [] then t else BuiltAll(Built(t, ds[0], parent, focus), ds[1..], parent, focus)
  }

  function BuiltDocument<T>(root: Label<T>, ds: seq<Dom<T>>, focus: Option<nat>): Tree<Label<T>> {
    BuiltAll(Added(Tree(map[], None, 0), None, root, false), ds, 1, focus)
  }

  // ----- What a tree says -----

  /** The subtree hanging off node `id` by its child lists. */
  ghost function Denote<T>(t: Tree<Label<T>>, id: nat): Ax<T>
    requires Valid(t) && id in t.nodes
    decreases t.next - id
  {
    var cs := t.nodes[id].children;
    assert ChildrenOk(t, id);
    Ax(t.nodes[id].info, seq(|cs|, j requires 0 <= j < |cs| => assert IsChild(t, id, cs[j]); Denote(t, cs[j])))
  }

  ghost predicate Present<T>(t: Tree<T>, ids: seq<nat>) {
    forall j :: 0 <= j < |ids| ==> ids[j] in t.nodes
  }

  ghost function DenoteAll<T>(t: Tree<Label<T>>, ids: seq<nat>): seq<Ax<T>>
    requires Valid(t) && Present(t, ids)
  {
    seq(|ids|, j requires 0 <= j < |ids| => Denote(t, ids[j]))
  }

  /** The labels of the nodes with ids from `a + 1` to `b`. */
  ghost function Labels<T>(t: Tree<Label<T>>, a: nat, b: nat): seq<Label<T>>
    requires Numbered(t) && a <= b <= t.next
  {
    seq(b - a, i requires 0 <= i < b - a => t.nodes[a + 1 + i].info)
  }

  // ----- Growth -----

  /** `t2` is `t` with new nodes, of which `tops` hang under `parent`; no other old node changed. */
  ghost predicate Grew<T>(t: Tree<T>, t2: Tree<T>, parent: nat, tops: seq<nat>) {
    && Valid(t) && Valid(t2) && t.next <= t2.next && parent in t.nodes && Present(t2, tops)
    && (forall j :: 0 <= j < |tops| ==> t.next < tops[j])
    && t2.nodes[parent] == t.nodes[parent].(children := t.nodes[parent].children + tops)
    && (forall i :: i in t.nodes && i != parent ==> t2.nodes[i] == t.nodes[i])
    && (AllListed(t) ==> AllListed(t2))
  }

  /** A subtree made of nodes between `lo` and `hi` does not change when those nodes do not. */
  lemma {:induction false} DenoteFrame<T>(t: Tree<Label<T>>, t2: Tree<Label<T>>, lo: nat, id: nat)
    requires Valid(t) && Valid(t2) && t.next <= t2.next && lo < id && id in t.nodes
    requires forall i :: lo < i <= t.next ==> t2.nodes[i] == t.nodes[i]
    ensures Denote(t2, id) == Denote(t, id)
    decreases t.next - id
  {
    var cs := t.nodes[id].children;
    assert ChildrenOk(t, id) && ChildrenOk(t2, id);
    forall j | 0 <= j < |cs| ensures Denote(t2, cs[j]) == Denote(t, cs[j]) {
      assert IsChild(t, id, cs[j]);
      DenoteFrame(t, t2, lo, cs[j]);
    }
  }

  lemma DenoteAllFrame<T>(t: Tree<Label<T>>, t2: Tree<Label<T>>, lo: nat, ids: seq<nat>)
    requires Valid(t) && Valid(t2) && t.next <= t2.next && Present(t, ids) && Present(t2, ids)
    requires forall j :: 0 <= j < |ids| ==> lo < ids[j]
    requires forall i :: lo < i <= t.next ==> t2.nodes[i] == t.nodes[i]
    ensures DenoteAll(t2, ids) == DenoteAll(t, ids)
  {
    forall j | 0 <= j < |ids| ensures Denote(t2, ids[j]) == Denote(t, ids[j]) { DenoteFrame(t, t2, lo, ids[j]); }
  }

  /** What building a piece of DOM under `parent` amounts to. */
  ghost predicate Grows<T>(t: Tree<Label<T>>, t2: Tree<Label<T>>, parent: nat, tops: seq<nat>, shape: seq<Ax<T>>, listing: seq<Label<T>>) {
    Grew(t, t2, parent, tops) && DenoteAll(t2, tops) == shape && Labels(t2, t.next, t2.next) == listing
  }

  lemma GrewTwice<T>(t: Tree<T>, t1: Tree<T>, t2: Tree<T>, parent: nat, tops1: seq<nat>, tops2: seq<nat>)
    requires Grew(t, t1, parent, tops1) && Grew(t1, t2, parent, tops2)
    ensures Grew(t, t2, parent, tops1 + tops2)
  {
    assert (t.nodes[parent].children + tops1) + tops2 == t.nodes[parent].children + (tops1 + tops2);
  }

  lemma GrowsTwice<T>(t: Tree<Label<T>>, t1: Tree<Label<T>>, t2: Tree<Label<T>>, parent: nat, tops1: seq<nat>, tops2: seq<nat>,
                      shape1: seq<Ax<T>>, shape2: seq<Ax<T>>, listing1: seq<Label<T>>, listing2: seq<Label<T>>)
    requires Grows(t, t1, parent, tops1, shape1, listing1) && Grows(t1, t2, parent, tops2, shape2, listing2)
    ensures Grows(t, t2, parent, tops1 + tops2, shape1 + shape2, listing1 + listing2)
  {
    GrewTwice(t, t1, t2, parent, tops1, tops2);
    DenoteAllFrame(t1, t2, t.next, tops1);
    assert DenoteAll(t2, tops1 + tops2) == DenoteAll(t2, tops1) + DenoteAll(t2, tops2);
    assert Labels(t2, t.next, t2.next) == Labels(t1, t.next, t1.next) + Labels(t2, t1.next, t2.next);
  }

  lemma GrowsNone<T>(t: Tree<Label<T>>, parent: nat)
    requires Valid(t) && parent in t.nodes
    ensures Grows(t, t, parent, [], [], [])
  {
  }

  lemma GrewUnderNew<T>(t: Tree<Label<T>>, t2: Tree<Label<T>>, parent: nat, about: Label<T>, focused: bool, tops: seq<nat>)
    requires Valid(t) && parent in t.nodes && Grew(Added(t, Some(parent), about, focused), t2, t.next + 1, tops)
    ensures Grew(t, t2, parent, [t.next + 1])
    ensures t2.nodes[t.next + 1].info == about && t2.nodes[t.next + 1].children == tops
  {
    var t1, id := Added(t, Some(parent), about, focused), t.next + 1;
    AddedIsValid(t, Some(parent), about, focused);
    if AllListed(t) { ListedIff(t, Some(parent), about, focused); }
    assert t1.nodes[id].children + tops == tops;
  }

  /** A node with what was built under it and numbered after it. */
  lemma TopReads<T>(t: Tree<Label<T>>, id: nat, about: Label<T>, tops: seq<nat>, shape: seq<Ax<T>>, listing: seq<Label<T>>)
    requires Valid(t) && id in t.nodes && t.nodes[id].info == about && t.nodes[id].children == tops && Present(t, tops)
    requires DenoteAll(t, tops) == shape && 1 <= id <= t.next && Labels(t, id, t.next) == listing
    ensures DenoteAll(t, [id]) == [Ax(about, shape)] && Labels(t, id - 1, t.next) == [about] + listing
  {
    assert Denote(t, id) == Ax(about, DenoteAll(t, tops));
    assert Labels(t, id - 1, t.next) == [about] + Labels(t, id, t.next);
  }

  /** A new node, then growth under it. */
  lemma GrowsUnderNew<T>(t: Tree<Label<T>>, t2: Tree<Label<T>>, parent: nat, about: Label<T>, focused: bool,
                         tops: seq<nat>, shape: seq<Ax<T>>, listing: seq<Label<T>>)
    requires Valid(t) && parent in t.nodes && Grows(Added(t, Some(parent), about, focused), t2, t.next + 1, tops, shape, listing)
    ensures Grows(t, t2, parent, [t.next + 1], [Ax(about, shape)], [about] + listing)
  {
    var id := t.next + 1;
    GrewUnderNew(t, t2, parent, about, focused, tops);
    TopReads(t2, id, about, tops, shape, listing);
  }

  /** Building adds exactly the pruned DOM node, in document order. */
  lemma {:induction false} BuiltGrows<T>(t: Tree<Label<T>>, d: Dom<T>, parent: nat, focus: Option<nat>) returns (tops: seq<nat>)
    requires Valid(t) && parent in t.nodes
    ensures Grows(t, Built(t, d, parent, focus), parent, tops, Pruned(d), Preorder(d))
    decreases d, 0
  {
    match d
    case Other => tops := []; GrowsNone(t, parent);
    case Metadata(_) => tops := []; GrowsNone(t, parent);
    case Presentational(inner) => tops := BuiltAllGrows(t, inner, parent, focus);
    case Exposed(about, kids) =>
      var focused := Some(about.dom) == focus;
      AddedIsValid(t, Some(parent), about, focused);
      var inner := BuiltAllGrows(Added(t, Some(parent), about, focused), kids, t.next + 1, focus);
      GrowsUnderNew(t, Built(t, d, parent, focus), parent, about, focused, inner, PrunedAll(kids), PreorderAll(kids));
      tops := [t.next + 1];
  }

  lemma {:induction false} BuiltAllGrows<T>(t: Tree<Label<T>>, ds: seq<Dom<T>>, parent: nat, focus: Option<nat>) returns (tops: seq<nat>)
    requires Valid(t) && parent in t.nodes
    ensures Grows(t, BuiltAll(t, ds, parent, focus), parent, tops, PrunedAll(ds), PreorderAll(ds))
    decreases ds, 1
  {
    if ds == [] {
      tops := [];
      GrowsNone(t, parent);
    } else {
      var first := BuiltGrows(t, ds[0], parent, focus);
      var t1 := Built(t, ds[0], parent, focus);
      var rest := BuiltAllGrows(t1, ds[1..], parent, focus);
      GrowsTwice(t, t1, BuiltAll(t1, ds[1..], parent, focus), parent, first, rest,
                 Pruned(ds[0]), PrunedAll(ds[1..]), Preorder(ds[0]), PreorderAll(ds[1..]));
      tops := first + rest;
    }
  }

  /** The built tree is the document node over the pruned DOM; ids run in document order; every
      node is listed by its parent. */
  lemma BuiltTree<T>(root: Label<T>, ds: seq<Dom<T>>, focus: Option<nat>)
    ensures var t := BuiltDocument(root, ds, focus);
            && Valid(t) && AllListed(t) && 1 in t.nodes && Denote(t, 1) == Ax(root, PrunedAll(ds))
            && Labels(t, 0, t.next) == [root] + PreorderAll(ds)
  {
    RootOnly(root);
    var t0, t := Added(Tree(map[], None, 0), None, root, false), BuiltDocument(root, ds, focus);
    var tops := BuiltAllGrows(t0, ds, 1, focus);
    GrownDocument(t0, t, root, tops, PrunedAll(ds), PreorderAll(ds));
  }

  lemma RootOnly<T>(root: Label<T>)
    ensures var t := Added(Tree(map[], None, 0), None, root, false);
            Valid(t) && AllListed(t) && t.next == 1 && 1 in t.nodes && t.nodes[1].children == [] && t.nodes[1].info == root
  {
    var none: Tree<Label<T>> := Tree(map[], None, 0);
    assert Valid(none) && AllListed(none);
    AddedIsValid(none, None, root, false);
    ListedIff(none, None, root, false);
  }

  lemma GrownDocument<T>(t0: Tree<Label<T>>, t: Tree<Label<T>>, root: Label<T>, tops: seq<nat>, shape: seq<Ax<T>>, listing: seq<Label<T>>)
    requires Valid(t0) && AllListed(t0) && t0.next == 1 && 1 in t0.nodes && t0.nodes[1].children == [] && t0.nodes[1].info == root
    requires Grows(t0, t, 1, tops, shape, listing)
    ensures Valid(t) && AllListed(t) && 1 in t.nodes && Denote(t, 1) == Ax(root, shape) && Labels(t, 0, t.next) == [root] + listing
  {
    assert t0.nodes[1].children + tops == tops;
    assert Denote(t, 1) == Ax(root, DenoteAll(t, tops));
    assert Labels(t, 0, t.next) == [root] + Labels(t, 1, t.next);
  }

  /** For every document, the published snapshot of the built tree answers every navigation as
      the tree does and holds each node once. */
  lemma BuiltTreesPublish<T>(root: Label<T>, ds: seq<Dom<T>>, focus: Option<nat>, s: Snapshot<Label<T>>)
    requires IsSnapshot(BuiltDocument(root, ds, focus), s)
    ensures NavigationAgrees(BuiltDocument(root, ds, focus), s)
    ensures |s.nodes| == 1 + |PreorderAll(ds)|
  {
    var t := BuiltDocument(root, ds, focus);
    BuiltTree(root, ds, focus);
    NavigationAgreesIff(t, s);
    PublishedOnce(t, s, 1);
    assert |Labels(t, 0, t.next)| == t.next;
  }

  // ----- Focus -----

  /** The marked nodes are those that stand for the focused DOM node, and the tree's focus is the
      last of them. */
  ghost predicate MarksOk<T>(t: Tree<Label<T>>, focus: Option<nat>) {
    && Numbered(t)
    && (forall i :: i in t.nodes ==> (t.nodes[i].focused <==> i > 1 && Some(t.nodes[i].info.dom) == focus))
    && (t.focus.Some? ==> t.focus.value in t.nodes && t.nodes[t.focus.value].focused)
    && (forall i :: i in t.nodes && t.nodes[i].focused ==> t.focus.Some? && i <= t.focus.value)
  }

  /** One more node than before, marked as it should be. */
  lemma MarksGrow<T>(t: Tree<Label<T>>, r: Tree<Label<T>>, id: nat, focus: Option<nat>)
    requires MarksOk(t, focus) && Numbered(r) && id == t.next + 1 == r.next && id > 1
    requires forall i :: i in t.nodes ==> i in r.nodes && r.nodes[i].focused == t.nodes[i].focused && r.nodes[i].info == t.nodes[i].info
    requires r.nodes[id].focused <==> Some(r.nodes[id].info.dom) == focus
    requires r.focus == if r.nodes[id].focused then Some(id) else t.focus
    ensures MarksOk(r, focus)
  {
    assert forall i :: i in r.nodes ==> i in t.nodes || i == id;
  }

  lemma MarksAdded<T>(t: Tree<Label<T>>, parent: nat, about: Label<T>, focus: Option<nat>)
    requires MarksOk(t, focus) && t.next >= 1
    ensures MarksOk(Added(t, Some(parent), about, Some(about.dom) == focus), focus)
  {
    MarksGrow(t, Added(t, Some(parent), about, Some(about.dom) == focus), t.next + 1, focus);
  }

  lemma {:induction false} MarksBuilt<T>(t: Tree<Label<T>>, d: Dom<T>, parent: nat, focus: Option<nat>)
    requires MarksOk(t, focus) && t.next >= 1
    ensures MarksOk(Built(t, d, parent, focus), focus) && Built(t, d, parent, focus).next >= 1
    decreases d, 0
  {
    match d
    case Other =>
    case Metadata(_) =>
    case Presentational(inner) => MarksBuiltAll(t, inner, parent, focus);
    case Exposed(about, kids) =>
      MarksAdded(t, parent, about, focus);
      MarksBuiltAll(Added(t, Some(parent), about, Some(about.dom) == focus), kids, t.next + 1, focus);
  }

  lemma {:induction false} MarksBuiltAll<T>(t: Tree<Label<T>>, ds: seq<Dom<T>>, parent: nat, focus: Option<nat>)
    requires MarksOk(t, focus) && t.next >= 1
    ensures MarksOk(BuiltAll(t, ds, parent, focus), focus) && BuiltAll(t, ds, parent, focus).next >= 1
    decreases ds, 1
  {
    if ds != [] {
      MarksBuilt(t, ds[0], parent, focus);
      MarksBuiltAll(Built(t, ds[0], parent, focus), ds[1..], parent, focus);
    }
  }

  /** At most one of the labels stands for the focused DOM node. */
  ghost predicate FocusedOnce<T>(labels: seq<Label<T>>, focus: Option<nat>) {
    forall i, j :: 0 <= i < j < |labels| ==> Some(labels[i].dom) != focus || Some(labels[j].dom) != focus
  }

  lemma CoherentIff<T>(t: Tree<Label<T>>, labels: seq<Label<T>>, focus: Option<nat>)
    requires MarksOk(t, focus) && t.next == |labels| + 1 && forall i :: 2 <= i <= t.next ==> t.nodes[i].info == labels[i - 2]
    ensures FocusCoherent(t) <==> FocusedOnce(labels, focus)
  {
    if FocusedOnce(labels, focus) {
      forall i | i in t.nodes && t.nodes[i].focused ensures t.focus == Some(i) {
        var j := t.focus.value;
        assert t.nodes[i].info == labels[i - 2] && t.nodes[j].info == labels[j - 2];
      }
    } else {
      var i, j :| 0 <= i < j < |labels| && Some(labels[i].dom) == focus && Some(labels[j].dom) == focus;
      assert t.nodes[i + 2].focused && t.nodes[j + 2].focused;
    }
  }

  lemma LabelsAt<T>(t: Tree<Label<T>>, root: Label<T>, labels: seq<Label<T>>)
    requires Numbered(t) && Labels(t, 0, t.next) == [root] + labels
    ensures t.next == |labels| + 1 && forall i :: 2 <= i <= t.next ==> t.nodes[i].info == labels[i - 2]
  {
    assert |Labels(t, 0, t.next)| == t.next;
    forall i | 2 <= i <= t.next ensures t.nodes[i].info == labels[i - 2] {
      assert Labels(t, 0, t.next)[i - 1] == ([root] + labels)[i - 1];
    }
  }

  /** A built tree is focus-coherent exactly if at most one exposed element stands for the focused
      DOM node; in particular whenever DOM ids are distinct. */
  lemma BuiltFocusIff<T>(root: Label<T>, ds: seq<Dom<T>>, focus: Option<nat>)
    ensures FocusCoherent(BuiltDocument(root, ds, focus)) <==> FocusedOnce(PreorderAll(ds), focus)
    ensures (forall i, j :: 0 <= i < j < |PreorderAll(ds)| ==> PreorderAll(ds)[i].dom != PreorderAll(ds)[j].dom) ==>
              FocusCoherent(BuiltDocument(root, ds, focus))
  {
    var t := BuiltDocument(root, ds, focus);
    assert Valid(t) && Labels(t, 0, t.next) == [root] + PreorderAll(ds) by { BuiltTree(root, ds, focus); }
    LabelsAt(t, root, PreorderAll(ds));
    assert MarksOk(t, focus) by { MarksBuiltAll(Added(Tree(map[], None, 0), None, root, false), ds, 1, focus); }
    CoherentIff(t, PreorderAll(ds), focus);
  }

  // ----- The builder as it runs -----

  method BuildSubtree<T>(d: Dom<T>, parent: nat, focus: Option<nat>, tree: AxTree<Label<T>>)
    requires Valid(tree.Value())
    modifies tree
    ensures Valid(tree.Value()) && tree.Value() == Built(old(tree.Value()), d, parent, focus)
    decreases d, 0
  {
    match d
    case Other => return;
    case Metadata(_) => return;
    case Presentational(inner) => BuildAll(inner, parent, focus, tree);
    case Exposed(about, kids) =>
      var id := tree.AddNode(Some(parent), about, Some(about.dom) == focus);
      BuildAll(kids, id, focus, tree);
  }

  method BuildAll<T>(ds: seq<Dom<T>>, parent: nat, focus: Option<nat>, tree: AxTree<Label<T>>)
    requires Valid(tree.Value())
    modifies tree
    ensures Valid(tree.Value()) && tree.Value() == BuiltAll(old(tree.Value()), ds, parent, focus)
    decreases ds, 1
  {
    for i := 0 to |ds|
      invariant Valid(tree.Value())
      invariant BuiltAll(tree.Value(), ds[i..], parent, focus) == BuiltAll(old(tree.Value()), ds, parent, focus)
    {
      assert ds[i..][0] == ds[i] && ds[i..][1..] == ds[i + 1..];
      BuildSubtree(ds[i], parent, focus, tree);
    }
  }

  method BuildAxTree<T>(root: Label<T>, ds: seq<Dom<T>>, focus: Option<nat>) returns (tree: AxTree<Label<T>>)
    ensures fresh(tree) && tree.Value() == BuiltDocument(root, ds, focus)
  {
    tree := new AxTree();
    var id := tree.AddNode(None, root, false);
    BuildAll(ds, id, focus, tree);
  }
}
