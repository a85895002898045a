/**
 * The syntax-tree viewer (src/components/Tree.tsx), without its rendering:
 * the traversal that counts error nodes and splits the visible rows into a
 * space above, a window of rendered rows and a space below; the search for
 * the highlighted node's row; scroll snapping; and cyclic navigation between
 * error nodes. Rows are 24 pixels high and the window reaches 240 pixels
 * beyond the viewport on either side.
 */
module TreeView {
  import opened Protocol

  const Row: int := 24
  const Extra: int := 240

  /** A syntax node: its id, its type, whether it is named, and all its children. */
  datatype Node = Node(id: int, kind: string, named: bool, children: seq<Node>)

  /** One entry of the `loc` stack: the child index and the node id. */
  datatype Step = Step(index: int, id: int)

  /** A visit of the traversal: the root-to-node path, the node, and whether it is hidden. */
  datatype Visit = Visit(path: seq<Step>, node: Node, hidden: bool)

  // ---------------------------------------------------------------------------
  // Collapse map

  /** A missing entry counts as expanded. */
  predicate IsCollapsed(m: map<int, bool>, id: int)
  {
    id in m && m[id]
  }

  /** The collapse button: flips the entry of one node. */
  function Toggle(m: map<int, bool>, id: int): (r: map<int, bool>)
    ensures IsCollapsed(r, id) == !IsCollapsed(m, id)
    ensures forall k :: k != id ==> IsCollapsed(r, k) == IsCollapsed(m, k)
  {
    m[id := !IsCollapsed(m, id)]
  }

  lemma ToggleTwice(m: map<int, bool>, id: int)
    ensures forall k :: IsCollapsed(Toggle(Toggle(m, id), id), k) == IsCollapsed(m, k)
  {
  }

  // ---------------------------------------------------------------------------
  // The order of the traversal

  /**
   * The visits `traverse(node, hidden, index)` makes when `loc` holds
   * `prefix`: the node itself, then its named children in order, each
   * inheriting `hidden || collapsed[node.id]`.
   */
  function Visits(node: Node, hidden: bool, index: int, prefix: seq<Step>, m: map<int, bool>): seq<Visit>
    decreases node, |node.children| + 1
  {
    var path := prefix + [Step(index, node.id)];
    [Visit(path, node, hidden)] + KidVisits(node, |node.children|, hidden || IsCollapsed(m, node.id), path, m)
  }

  /** The visits made for the first `i` children of `parent`; unnamed children are skipped. */
  function KidVisits(parent: Node, i: nat, hidden: bool, path: seq<Step>, m: map<int, bool>): seq<Visit>
    requires i <= |parent.children|
    decreases parent, i
  {
    if i == 0 then []
    else
      KidVisits(parent, i - 1, hidden, path, m)
        + (if parent.children[i - 1].named then Visits(parent.children[i - 1], hidden, i - 1, path, m) else [])
  }

  /** The preorder of a tree through named children: the node, then each named child's preorder. */
  function Preorder(node: Node): seq<Node>
    decreases node, |node.children| + 1
  {
    [node] + KidsPreorder(node, |node.children|)
  }

  function KidsPreorder(parent: Node, i: nat): seq<Node>
    requires i <= |parent.children|
    decreases parent, i
  {
    if i == 0 then []
    else KidsPreorder(parent, i - 1) + (if parent.children[i - 1].named then Preorder(parent.children[i - 1]) else [])
  }

  function Nodes(vs: seq<Visit>): (ns: seq<Node>)
    ensures |ns| == |vs| && forall k :: 0 <= k < |vs| ==> ns[k] == vs[k].node
  {
    seq(|vs|, k requires 0 <= k < |vs| => vs[k].node)
  }

  lemma NodesAppend(xs: seq<Visit>, ys: seq<Visit>)
    ensures Nodes(xs + ys) == Nodes(xs) + Nodes(ys)
  {
  }

  /** The traversal visits the nodes in preorder whatever is collapsed: collapse hides rows, it never skips nodes. */
  lemma {:induction false} VisitsFollowPreorder(node: Node, hidden: bool, index: int, prefix: seq<Step>, m: map<int, bool>)
    ensures Nodes(Visits(node, hidden, index, prefix, m)) == Preorder(node)
    decreases node, |node.children| + 1
  {
    var path := prefix + [Step(index, node.id)];
    var kids := KidVisits(node, |node.children|, hidden || IsCollapsed(m, node.id), path, m);
    assert Visits(node, hidden, index, prefix, m) == [Visit(path, node, hidden)] + kids;
    KidVisitsFollowPreorder(node, |node.children|, hidden || IsCollapsed(m, node.id), path, m);
    NodesAppend([Visit(path, node, hidden)], kids);
    assert Nodes([Visit(path, node, hidden)]) == [node];
  }

  lemma {:induction false} KidVisitsFollowPreorder(parent: Node, i: nat, hidden: bool, path: seq<Step>, m: map<int, bool>)
    requires i <= |parent.children|
    ensures Nodes(KidVisits(parent, i, hidden, path, m)) == KidsPreorder(parent, i)
    decreases parent, i
  {
    if i > 0 {
      KidVisitsFollowPreorder(parent, i - 1, hidden, path, m);
      var child := parent.children[i - 1];
      if child.named {
        VisitsFollowPreorder(child, hidden, i - 1, path, m);
        NodesAppend(KidVisits(parent, i - 1, hidden, path, m), Visits(child, hidden, i - 1, path, m));
      } else {
        NodesAppend(KidVisits(parent, i - 1, hidden, path, m), []);
      }
    }
  }

  // ---------------------------------------------------------------------------
  // Paths and hiding

  /** Some node on `path` from position `from` on, the last one excluded, is collapsed. */
  predicate AncestorCollapsed(path: seq<Step>, from: int, m: map<int, bool>)
  {
    exists j :: 0 <= j && from <= j < |path| - 1 && IsCollapsed(m, path[j].id)
  }

  lemma AncestorCollapsedSplit(path: seq<Step>, from: int, m: map<int, bool>)
    requires 0 <= from < |path| - 1
    ensures AncestorCollapsed(path, from, m) <==> IsCollapsed(m, path[from].id) || AncestorCollapsed(path, from + 1, m)
  {
  }

  /**
   * A visit's path extends the stack it started from and ends at the node
   * visited, and the visit is hidden exactly when the inherited flag was set
   * or a strict ancestor below the starting stack is collapsed.
   */
  predicate WellPlaced(v: Visit, hidden: bool, prefix: seq<Step>, m: map<int, bool>)
  {
    && |v.path| > |prefix|
    && v.path[..|prefix|] == prefix
    && v.path[|v.path| - 1].id == v.node.id
    && (v.hidden <==> hidden || AncestorCollapsed(v.path, |prefix|, m))
  }

  lemma {:induction false} VisitsWellPlaced(node: Node, hidden: bool, index: int, prefix: seq<Step>, m: map<int, bool>)
    ensures forall v :: v in Visits(node, hidden, index, prefix, m) ==> WellPlaced(v, hidden, prefix, m)
    decreases node, |node.children| + 1
  {
    var path := prefix + [Step(index, node.id)];
    var inherited := hidden || IsCollapsed(m, node.id);
    KidVisitsWellPlaced(node, |node.children|, inherited, path, m);
    forall v | v in KidVisits(node, |node.children|, inherited, path, m)
      ensures WellPlaced(v, hidden, prefix, m)
    {
      assert WellPlaced(v, inherited, path, m);
      assert v.path[..|path|][..|prefix|] == v.path[..|prefix|];
      assert v.path[|prefix|] == path[|prefix|];
      AncestorCollapsedSplit(v.path, |prefix|, m);
    }
  }

  lemma {:induction false} KidVisitsWellPlaced(parent: Node, i: nat, hidden: bool, path: seq<Step>, m: map<int, bool>)
    requires i <= |parent.children|
    ensures forall v :: v in KidVisits(parent, i, hidden, path, m) ==> WellPlaced(v, hidden, path, m)
    decreases parent, i
  {
    if i > 0 {
      KidVisitsWellPlaced(parent, i - 1, hidden, path, m);
      if parent.children[i - 1].named {
        VisitsWellPlaced(parent.children[i - 1], hidden, i - 1, path, m);
      }
    }
  }

  /**
   * From the root: a row is hidden exactly when a strict ancestor is
   * collapsed. A collapsed node keeps its own row.
   */
  lemma HiddenIffStrictAncestorCollapsed(root: Node, m: map<int, bool>)
    ensures forall v :: v in Visits(root, false, 0, [], m) ==>
      && |v.path| >= 1
      && v.path[|v.path| - 1].id == v.node.id
      && (v.hidden <==> exists j :: 0 <= j < |v.path| - 1 && IsCollapsed(m, v.path[j].id))
  {
    VisitsWellPlaced(root, false, 0, [], m);
  }

  // ---------------------------------------------------------------------------
  // The accumulators

  /** The traversal's accumulators: error count and nodes, running position, the two spaces and the rendered paths. */
  datatype Acc = Acc(errs: int, errNodes: seq<Node>, pos: int, pTop: int, pBottom: int, show: seq<seq<Step>>)

  const Init: Acc := Acc(0, [], 0, 0, 0, [])

  /** One visit's effect on the accumulators. */
  function Place(a: Acc, v: Visit, sTop: int, clientHeight: int): Acc
  {
    var counted := if v.node.kind == "ERROR" then a.(errs := a.errs + 1, errNodes := a.errNodes + [v.node]) else a;
    if v.hidden then counted
    else if counted.pos <= sTop - Extra then counted.(pTop := counted.pTop + Row, pos := counted.pos + Row)
    else if counted.pos <= sTop + clientHeight + Extra then counted.(show := counted.show + [v.path], pos := counted.pos + Row)
    else counted.(pBottom := counted.pBottom + Row, pos := counted.pos + Row)
  }

  function Run(a: Acc, vs: seq<Visit>, sTop: int, clientHeight: int): Acc
  {
    if vs == [] then a else Place(Run(a, vs[..|vs| - 1], sTop, clientHeight), vs[|vs| - 1], sTop, clientHeight)
  }

  lemma {:induction false} RunAppend(a: Acc, xs: seq<Visit>, ys: seq<Visit>, sTop: int, clientHeight: int)
    ensures Run(a, xs + ys, sTop, clientHeight) == Run(Run(a, xs, sTop, clientHeight), ys, sTop, clientHeight)
    decreases |ys|
  {
    if ys == [] {
      assert xs + ys == xs;
    } else {
      var init := ys[..|ys| - 1];
      RunAppend(a, xs, init, sTop, clientHeight);
      assert (xs + ys)[..|xs + ys| - 1] == xs + init;
    }
  }

  /** The error nodes of a node sequence, in order. */
  function ErrorNodes(ns: seq<Node>): seq<Node>
  {
    if ns == [] then []
    else ErrorNodes(ns[..|ns| - 1]) + (if ns[|ns| - 1].kind == "ERROR" then [ns[|ns| - 1]] else [])
  }

  /** The paths of the visible visits, in order. */
  function VisiblePaths(vs: seq<Visit>): seq<seq<Step>>
  {
    if vs == [] then []
    else VisiblePaths(vs[..|vs| - 1]) + (if vs[|vs| - 1].hidden then [] else [vs[|vs| - 1].path])
  }

  /** The number of rows `k < n` whose top `24 * k` is at most `bound`. */
  function Threshold(n: nat, bound: int): (t: nat)
    ensures t <= n
  {
    if bound < 0 then 0 else if bound / Row + 1 < n then bound / Row + 1 else n
  }

  lemma ThresholdMeaning(n: nat, bound: int)
    ensures forall k :: 0 <= k < n ==> (k < Threshold(n, bound) <==> Row * k <= bound)
  {
    if bound >= 0 {
      var q := bound / Row;
      assert bound == Row * q + bound % Row;
    }
  }

  lemma ThresholdStep(n: nat, bound: int)
    ensures Threshold(n + 1, bound) == if Row * n <= bound then n + 1 else Threshold(n, bound)
    ensures Row * n <= bound ==> Threshold(n, bound) == n
  {
    if bound >= 0 {
      var q := bound / Row;
      assert bound == Row * q + bound % Row;
    }
  }

  /** The window of rows the traversal computes, for the given collapse map, stored scroll offset and viewport height. */
  function Window(root: Node, m: map<int, bool>, sTop: int, clientHeight: nat): Acc
  {
    Run(Init, Visits(root, false, 0, [], m), sTop, clientHeight)
  }

  /** The shape the accumulators have after `vis` visible rows. */
  ghost predicate Split(r: Acc, vis: seq<seq<Step>>, sTop: int, clientHeight: nat)
  {
    var a := Threshold(|vis|, sTop - Extra);
    var b := Threshold(|vis|, sTop + clientHeight + Extra);
    && a <= b
    && r.pos == Row * |vis|
    && r.pTop == Row * a
    && r.show == vis[a..b]
    && r.pBottom == Row * (|vis| - b)
  }

  lemma PlaceHidden(r: Acc, v: Visit, vis: seq<seq<Step>>, sTop: int, clientHeight: nat)
    requires v.hidden && Split(r, vis, sTop, clientHeight)
    ensures Split(Place(r, v, sTop, clientHeight), vis, sTop, clientHeight)
  {
  }

  lemma PlaceVisible(r: Acc, v: Visit, vis: seq<seq<Step>>, sTop: int, clientHeight: nat)
    requires !v.hidden && Split(r, vis, sTop, clientHeight)
    ensures Split(Place(r, v, sTop, clientHeight), vis + [v.path], sTop, clientHeight)
  {
    var n := |vis|;
    ThresholdStep(n, sTop - Extra);
    ThresholdStep(n, sTop + clientHeight + Extra);
    if Row * n <= sTop - Extra {
      PlaceAbove(r, v, vis, sTop, clientHeight);
    } else if Row * n <= sTop + clientHeight + Extra {
      PlaceInside(r, v, vis, sTop, clientHeight);
    } else {
      PlaceBelow(r, v, vis, sTop, clientHeight);
    }
  }

  /** A visible row whose top is at most 240 pixels above the stored offset adds to the space above. */
  lemma PlaceAbove(r: Acc, v: Visit, vis: seq<seq<Step>>, sTop: int, clientHeight: nat)
    requires !v.hidden && Split(r, vis, sTop, clientHeight)
    requires Row * |vis| <= sTop - Extra
    ensures Split(Place(r, v, sTop, clientHeight), vis + [v.path], sTop, clientHeight)
  {
    var n := |vis|;
    ThresholdStep(n, sTop - Extra);
    ThresholdStep(n, sTop + clientHeight + Extra);
    assert (vis + [v.path])[n + 1..n + 1] == vis[n..n];
  }

  /** A visible row whose top lies in the widened viewport is rendered. */
  lemma PlaceInside(r: Acc, v: Visit, vis: seq<seq<Step>>, sTop: int, clientHeight: nat)
    requires !v.hidden && Split(r, vis, sTop, clientHeight)
    requires sTop - Extra < Row * |vis| <= sTop + clientHeight + Extra
    ensures Split(Place(r, v, sTop, clientHeight), vis + [v.path], sTop, clientHeight)
  {
    var n := |vis|;
    ThresholdStep(n, sTop - Extra);
    ThresholdStep(n, sTop + clientHeight + Extra);
    var a := Threshold(n, sTop - Extra);
    assert (vis + [v.path])[a..n + 1] == vis[a..n] + [v.path];
  }

  /** A visible row whose top is more than 240 pixels past the viewport's bottom adds to the space below. */
  lemma PlaceBelow(r: Acc, v: Visit, vis: seq<seq<Step>>, sTop: int, clientHeight: nat)
    requires !v.hidden && Split(r, vis, sTop, clientHeight)
    requires sTop + clientHeight + Extra < Row * |vis|
    ensures Split(Place(r, v, sTop, clientHeight), vis + [v.path], sTop, clientHeight)
  {
    var n := |vis|;
    ThresholdStep(n, sTop - Extra);
    ThresholdStep(n, sTop + clientHeight + Extra);
    var a := Threshold(n, sTop - Extra);
    var b := Threshold(n, sTop + clientHeight + Extra);
    assert (vis + [v.path])[a..b] == vis[a..b];
  }

  /**
   * The visible rows split into a prefix counted in the space above, a
   * contiguous run that is rendered, and a suffix counted in the space below,
   * by where each row's top lies relative to the viewport widened by 240
   * pixels.
   */
  lemma {:induction false} RunSplitsRows(vs: seq<Visit>, sTop: int, clientHeight: nat)
    ensures Split(Run(Init, vs, sTop, clientHeight), VisiblePaths(vs), sTop, clientHeight)
    decreases |vs|
  {
    if vs != [] {
      var init := vs[..|vs| - 1];
      var v := vs[|vs| - 1];
      RunSplitsRows(init, sTop, clientHeight);
      if v.hidden {
        PlaceHidden(Run(Init, init, sTop, clientHeight), v, VisiblePaths(init), sTop, clientHeight);
      } else {
        PlaceVisible(Run(Init, init, sTop, clientHeight), v, VisiblePaths(init), sTop, clientHeight);
      }
    }
  }

  /** Which rows go where: a row is above the window exactly when its top is at most 240 pixels above the stored offset, below it exactly when its top is more than 240 pixels past the viewport's bottom. */
  lemma ThresholdsClassifyRows(n: nat, sTop: int, clientHeight: nat)
    ensures forall k :: 0 <= k < n ==>
      && (k < Threshold(n, sTop - Extra) <==> Row * k <= sTop - Extra)
      && (k >= Threshold(n, sTop + clientHeight + Extra) <==> Row * k > sTop + clientHeight + Extra)
  {
    ThresholdMeaning(n, sTop - Extra);
    ThresholdMeaning(n, sTop + clientHeight + Extra);
  }

  /** The error count and nodes cover every node, hidden or not. */
  lemma {:induction false} RunCollectsErrors(a: Acc, vs: seq<Visit>, sTop: int, clientHeight: int)
    ensures Run(a, vs, sTop, clientHeight).errNodes == a.errNodes + ErrorNodes(Nodes(vs))
    ensures Run(a, vs, sTop, clientHeight).errs == a.errs + |ErrorNodes(Nodes(vs))|
    decreases |vs|
  {
    if vs != [] {
      var init := vs[..|vs| - 1];
      RunCollectsErrors(a, init, sTop, clientHeight);
      assert Nodes(vs)[..|vs| - 1] == Nodes(init);
    }
  }

  /**
   * What the traversal effect computes: the error count and nodes of the
   * whole tree, independent of collapse and scroll, and a space-above,
   * window and space-below that together account for every visible row.
   */
  lemma WindowAccountsForRows(root: Node, m: map<int, bool>, sTop: int, clientHeight: nat)
    ensures var w := Window(root, m, sTop, clientHeight);
      var vis := VisiblePaths(Visits(root, false, 0, [], m));
      && w.errNodes == ErrorNodes(Preorder(root))
      && w.errs == |w.errNodes|
      && w.pTop + Row * |w.show| + w.pBottom == Row * |vis|
      && (exists a, b :: 0 <= a <= b <= |vis| && w.pTop == Row * a && w.show == vis[a..b] && w.pBottom == Row * (|vis| - b))
  {
    var vs := Visits(root, false, 0, [], m);
    RunCollectsErrors(Init, vs, sTop, clientHeight);
    VisitsFollowPreorder(root, false, 0, [], m);
    RunSplitsRows(vs, sTop, clientHeight);
    var vis := VisiblePaths(vs);
    var w := Window(root, m, sTop, clientHeight);
    var a, b := Threshold(|vis|, sTop - Extra), Threshold(|vis|, sTop + clientHeight + Extra);
    assert w.show == vis[a..b];
  }

  // ---------------------------------------------------------------------------
  // The traversal

  /** The closure state of the traversal effect. */
  class Traversal {
    const collapsed: map<int, bool>
    const sTop: int
    const clientHeight: int
    var errs: int
    var errNodes: seq<Node>
    var pos: int
    var pTop: int
    var pBottom: int
    var showItems: seq<seq<Step>>
    var loc: seq<Step>

    function Snapshot(): Acc
      reads this
    {
      Acc(errs, errNodes, pos, pTop, pBottom, showItems)
    }

    constructor (collapsed: map<int, bool>, sTop: int, clientHeight: int)
      ensures this.collapsed == collapsed && this.sTop == sTop && this.clientHeight == clientHeight
      ensures Snapshot() == Init && loc == []
    {
      this.collapsed := collapsed;
      this.sTop := sTop;
      this.clientHeight := clientHeight;
      errs := 0;
      errNodes := [];
      pos := 0;
      pTop := 0;
      pBottom := 0;
      showItems := [];
      loc := [];
    }

    /** The visit of the node on top of `loc`: count it if it is an error, and place its row unless hidden. */
    method PlaceTop(node: Node, hidden: bool)
      modifies this`errs, this`errNodes, this`pos, this`pTop, this`pBottom, this`showItems
      ensures Snapshot() == Place(old(Snapshot()), Visit(loc, node, hidden), sTop, clientHeight)
    {
      if node.kind == "ERROR" {
        errs := errs + 1;
        errNodes := errNodes + [node];
      }
      if !hidden {
        if pos <= sTop - Extra {
          pTop := pTop + Row;
        } else if pos <= sTop + clientHeight + Extra {
          showItems := showItems + [loc];
        } else {
          pBottom := pBottom + Row;
        }
        pos := pos + Row;
      }
    }

    /** `traverse`: pushes the node on `loc`, places it, recurses into named children, and pops. */
    method Traverse(node: Node, hidden: bool, index: int)
      modifies this
      decreases node
      ensures loc == old(loc)
      ensures Snapshot() == Run(old(Snapshot()), Visits(node, hidden, index, old(loc), collapsed), sTop, clientHeight)
    {
      loc := loc + [Step(index, node.id)];
      ghost var path := loc;
      ghost var before := Snapshot();
      PlaceTop(node, hidden);
      ghost var self := [Visit(path, node, hidden)];
      RunOne(before, self[0], sTop, clientHeight);
      var inherited := hidden || IsCollapsed(collapsed, node.id);
      var i := 0;
      while i < |node.children|
        invariant 0 <= i <= |node.children|
        invariant loc == path
        invariant Snapshot() == Run(before, self + KidVisits(node, i, inherited, path, collapsed), sTop, clientHeight)
      {
        ghost var mid := Snapshot();
        if node.children[i].named {
          Traverse(node.children[i], inherited, i);
        }
        KidStep(before, mid, Snapshot(), self, node, i, inherited, path, collapsed, sTop, clientHeight);
        i := i + 1;
      }
      loc := loc[..|loc| - 1];
    }
  }

  /** The visits of one child: its own traversal when it is named, nothing otherwise. */
  function KidVisit(parent: Node, i: nat, hidden: bool, path: seq<Step>, m: map<int, bool>): seq<Visit>
    requires i < |parent.children|
  {
    if parent.children[i].named then Visits(parent.children[i], hidden, i, path, m) else []
  }

  /** One more child of the traversal loop. */
  lemma KidStep(before: Acc, mid: Acc, after: Acc, self: seq<Visit>, node: Node, i: nat, hidden: bool,
                path: seq<Step>, m: map<int, bool>, sTop: int, clientHeight: int)
    requires i < |node.children|
    requires mid == Run(before, self + KidVisits(node, i, hidden, path, m), sTop, clientHeight)
    requires after == Run(mid, KidVisit(node, i, hidden, path, m), sTop, clientHeight)
    ensures after == Run(before, self + KidVisits(node, i + 1, hidden, path, m), sTop, clientHeight)
  {
    var kids := KidVisits(node, i, hidden, path, m);
    var more := KidVisit(node, i, hidden, path, m);
    assert KidVisits(node, i + 1, hidden, path, m) == kids + more;
    assert self + (kids + more) == (self + kids) + more;
    RunAppend(before, self + kids, more, sTop, clientHeight);
  }

  lemma RunOne(a: Acc, v: Visit, sTop: int, clientHeight: int)
    ensures Run(a, [v], sTop, clientHeight) == Place(a, v, sTop, clientHeight)
  {
    assert [v][..0] == [];
  }

  /** The traversal effect: traverse the root with nothing collapsed above it. */
  method Layout(root: Node, collapsed: map<int, bool>, sTop: int, clientHeight: nat) returns (w: Acc)
    ensures w == Window(root, collapsed, sTop, clientHeight)
  {
    var t := new Traversal(collapsed, sTop, clientHeight);
    t.Traverse(root, false, 0);
    w := t.Snapshot();
  }

  // ---------------------------------------------------------------------------
  // findPosition

  function Ids(ns: seq<Node>): (ids: seq<int>)
    ensures |ids| == |ns| && forall k :: 0 <= k < |ns| ==> ids[k] == ns[k].id
  {
    seq(|ns|, k requires 0 <= k < |ns| => ns[k].id)
  }

  /** The index of the first node with the given id, or the length when there is none. */
  function IdIndex(ns: seq<Node>, id: int): (k: nat)
    ensures k <= |ns|
    ensures k < |ns| ==> ns[k].id == id
  {
    if ns == [] then 0 else if ns[0].id == id then 0 else 1 + IdIndex(ns[1..], id)
  }

  /** No node before the index has the id: it is the first match, and the length means there is none. */
  lemma {:induction false} IdIndexIsFirst(ns: seq<Node>, id: int)
    ensures forall j :: 0 <= j < IdIndex(ns, id) ==> ns[j].id != id
    decreases |ns|
  {
    if ns != [] && ns[0].id != id {
      IdIndexIsFirst(ns[1..], id);
      assert forall j :: 1 <= j < |ns| ==> ns[j] == ns[1..][j - 1];
    }
  }

  lemma IdIndexAppend(xs: seq<Node>, ys: seq<Node>, id: int)
    ensures IdIndex(xs, id) < |xs| ==> IdIndex(xs + ys, id) == IdIndex(xs, id)
    ensures IdIndex(xs, id) == |xs| ==> IdIndex(xs + ys, id) == |xs| + IdIndex(ys, id)
  {
    var zs := xs + ys;
    var k := IdIndex(zs, id);
    var kx := IdIndex(xs, id);
    IdIndexIsFirst(xs, id);
    IdIndexIsFirst(ys, id);
    IdIndexIsFirst(zs, id);
    if kx < |xs| {
      assert zs[kx] == xs[kx];
    } else {
      var ky := IdIndex(ys, id);
      assert forall j :: 0 <= j < |xs| ==> zs[j] == xs[j];
      assert forall j :: 0 <= j < ky ==> zs[|xs| + j] == ys[j];
      if ky < |ys| {
        assert zs[|xs| + ky] == ys[ky];
      }
    }
  }

  /** A node found among the first `i` children keeps its index when more children follow. */
  lemma {:induction false} KidsPreorderKeepsIndex(parent: Node, i: nat, j: nat, id: int)
    requires i <= j <= |parent.children|
    requires IdIndex(KidsPreorder(parent, i), id) < |KidsPreorder(parent, i)|
    ensures IdIndex(KidsPreorder(parent, j), id) == IdIndex(KidsPreorder(parent, i), id) < |KidsPreorder(parent, j)|
    decreases j - i
  {
    if i < j {
      KidsPreorderKeepsIndex(parent, i, j - 1, id);
      var shorter := KidsPreorder(parent, j - 1);
      if parent.children[j - 1].named {
        var sub := Preorder(parent.children[j - 1]);
        assert KidsPreorder(parent, j) == shorter + sub;
        IdIndexAppend(shorter, sub, id);
      } else {
        assert KidsPreorder(parent, j) == shorter + [];
        IdIndexAppend(shorter, [], id);
      }
    }
  }

  /** The closure state of the highlight effect: the running position and the highlighted id. */
  class Search {
    const target: int
    var pos: int

    constructor (target: int)
      ensures this.target == target && pos == 0
    {
      this.target := target;
      pos := 0;
    }

    /**
     * `findPosition`: true when the node or a named descendant has the target
     * id; `pos` grows by one row for every node passed before it in preorder.
     */
    method Find(node: Node) returns (found: bool)
      modifies this`pos
      decreases node, 1
      ensures found <==> IdIndex(Preorder(node), target) < |Preorder(node)|
      ensures pos == old(pos) + Row * IdIndex(Preorder(node), target)
    {
      PreorderIdIndex(node, target);
      if node.id == target {
        return true;
      }
      pos := pos + Row;
      var i := 0;
      while i < |node.children|
        invariant 0 <= i <= |node.children|
        invariant IdIndex(KidsPreorder(node, i), target) == |KidsPreorder(node, i)|
        invariant pos == old(pos) + Row * (1 + |KidsPreorder(node, i)|)
      {
        var p := FindInChild(node, i);
        if p {
          return true;
        }
        i := i + 1;
      }
      return false;
    }

    /**
     * The loop body of `findPosition` for child `i`, when the target is not
     * among the earlier children: an unnamed child is skipped, a named one is
     * searched.
     */
    method FindInChild(node: Node, i: nat) returns (found: bool)
      requires i < |node.children|
      requires IdIndex(KidsPreorder(node, i), target) == |KidsPreorder(node, i)|
      modifies this`pos
      decreases node, 0
      ensures var all := KidsPreorder(node, |node.children|);
        found ==> IdIndex(all, target) < |all| &&
                  pos == old(pos) + Row * (IdIndex(all, target) - |KidsPreorder(node, i)|)
      ensures !found ==> IdIndex(KidsPreorder(node, i + 1), target) == |KidsPreorder(node, i + 1)| &&
                         pos == old(pos) + Row * (|KidsPreorder(node, i + 1)| - |KidsPreorder(node, i)|)
    {
      if node.children[i].named {
        FindChildStep(node, i, target);
        found := Find(node.children[i]);
      } else {
        assert KidsPreorder(node, i + 1) == KidsPreorder(node, i) + [] == KidsPreorder(node, i);
        found := false;
      }
    }
  }

  /** A node is first in its own preorder; after it come its named children's preorders. */
  lemma PreorderIdIndex(node: Node, id: int)
    ensures |Preorder(node)| == 1 + |KidsPreorder(node, |node.children|)|
    ensures IdIndex(Preorder(node), id) == if node.id == id then 0 else 1 + IdIndex(KidsPreorder(node, |node.children|), id)
  {
    assert Preorder(node) == [node] + KidsPreorder(node, |node.children|);
    IdIndexAppend([node], KidsPreorder(node, |node.children|), id);
  }

  /**
   * One named child of the search loop, when the id is not among the earlier
   * children: found in the child, its index in all the children's preorder is
   * the earlier children's size plus its index in the child; not found, it is
   * still absent after the child.
   */
  lemma FindChildStep(node: Node, i: nat, id: int)
    requires i < |node.children| && node.children[i].named
    requires IdIndex(KidsPreorder(node, i), id) == |KidsPreorder(node, i)|
    ensures KidsPreorder(node, i + 1) == KidsPreorder(node, i) + Preorder(node.children[i])
    ensures var sub := Preorder(node.children[i]);
      var all := KidsPreorder(node, |node.children|);
      && (IdIndex(sub, id) < |sub| ==>
            IdIndex(all, id) == |KidsPreorder(node, i)| + IdIndex(sub, id) < |all|)
      && (IdIndex(sub, id) == |sub| ==> IdIndex(KidsPreorder(node, i + 1), id) == |KidsPreorder(node, i + 1)|)
  {
    var before := KidsPreorder(node, i);
    var sub := Preorder(node.children[i]);
    assert KidsPreorder(node, i + 1) == before + sub;
    IdIndexAppend(before, sub, id);
    if IdIndex(sub, id) < |sub| {
      KidsPreorderKeepsIndex(node, i + 1, |node.children|, id);
    }
  }

  /** The position the highlight effect computes: one row per node before the highlighted one in preorder, collapse ignored. */
  method FindPosition(root: Node, target: int) returns (pos: int)
    ensures pos == Row * IdIndex(Preorder(root), target)
    ensures pos >= 0
  {
    var s := new Search(target);
    var _ := s.Find(root);
    pos := s.pos;
  }

  /** The scroll the highlight effect asks for: none when the row lies in the viewport, else one centring the row. */
  function ScrollTarget(pos: int, scrollTop: int, clientHeight: int): (target: Option<real>)
    ensures target.None? <==> scrollTop <= pos && pos + Row <= scrollTop + clientHeight
    ensures target.Some? ==> target.value + (clientHeight as real) / 2.0 == pos as real
  {
    if !(scrollTop <= pos && pos + Row <= scrollTop + clientHeight)
    then Some(pos as real - (clientHeight as real) / 2.0)
    else None
  }

  /** After the requested scroll, a viewport at least two rows high shows the whole row. */
  lemma ScrollRevealsRow(pos: int, scrollTop: int, clientHeight: int)
    requires clientHeight >= 2 * Row
    requires ScrollTarget(pos, scrollTop, clientHeight).Some?
    ensures var t := ScrollTarget(pos, scrollTop, clientHeight).value;
      t <= pos as real && (pos + Row) as real <= t + clientHeight as real
  {
  }

  // ---------------------------------------------------------------------------
  // Scroll snapping

  function Abs(x: int): nat { if x < 0 then -x else x }

  /** JavaScript's `%`: the remainder takes the sign of the dividend. */
  function JsRem(a: int, b: int): (r: int)
    requires b > 0
    ensures a >= 0 ==> 0 <= r < b
    ensures a < 0 ==> -b < r <= 0
  {
    if a >= 0 then a % b else -((-a) % b)
  }

  /** The scroll listener: keep the stored offset unless the container moved by two rows or more; then snap to a row. */
  function SnapScroll(actual: int, stored: int): (r: int)
    ensures Abs(actual - stored) < 2 * Row ==> r == stored
    ensures Abs(actual - stored) >= 2 * Row ==> r % Row == 0
  {
    if Abs(actual - stored) >= 2 * Row then
      var remainder := JsRem(actual, Row);
      if remainder <= 12 then actual - remainder else actual - remainder + Row
    else stored
  }

  /**
   * For a non-negative offset, the snapped value is the nearest row boundary;
   * an offset exactly half-way rounds down.
   */
  lemma SnapIsNearestRow(actual: int, stored: int)
    requires actual >= 0 && Abs(actual - stored) >= 2 * Row
    ensures var r := SnapScroll(actual, stored);
      && Abs(r - actual) <= 12
      && (forall k: int :: Abs(Row * k - actual) >= Abs(r - actual))
      && (Abs(r - actual) == 12 ==> r < actual)
  {
    var r := SnapScroll(actual, stored);
    var q := actual / Row;
    assert actual == Row * q + actual % Row;
    forall k: int
      ensures Abs(Row * k - actual) >= Abs(r - actual)
    {
      if k <= q - 1 {
        assert Row * k <= Row * q - Row;
      } else if k >= q + 2 {
        assert Row * k >= Row * q + 2 * Row;
      }
    }
  }

  /** A negative offset snaps towards zero, to the row boundary just above it. */
  lemma SnapNegative(actual: int, stored: int)
    requires actual < 0 && Abs(actual - stored) >= 2 * Row
    ensures var r := SnapScroll(actual, stored);
      r % Row == 0 && actual <= r < actual + Row
  {
  }

  // ---------------------------------------------------------------------------
  // Error navigation

  /** `findIndex` on ids: the first index, or -1. */
  function FindIndex(errs: seq<Node>, id: int): (i: int)
    ensures -1 <= i < |errs|
    ensures i >= 0 ==> errs[i].id == id && forall j :: 0 <= j < i ==> errs[j].id != id
    ensures i == -1 <==> forall j :: 0 <= j < |errs| ==> errs[j].id != id
  {
    var k := IdIndex(errs, id);
    IdIndexIsFirst(errs, id);
    if k == |errs| then -1 else k
  }

  /** Alt+J. An index past the end of the list reads `undefined`, which is `None` here. */
  function NextError(errs: seq<Node>, selected: Option<Node>): Option<Node>
  {
    if selected.Some? then
      var index := FindIndex(errs, selected.value.id);
      if index < |errs| - 1 then Some(errs[index + 1])
      else if |errs| > 0 then Some(errs[0]) else None
    else if |errs| > 0 then Some(errs[0]) else None
  }

  /** Alt+K. */
  function PrevError(errs: seq<Node>, selected: Option<Node>): Option<Node>
  {
    if selected.Some? then
      var index := FindIndex(errs, selected.value.id);
      if index > 0 then Some(errs[index - 1])
      else if |errs| > 0 then Some(errs[|errs| - 1]) else None
    else if |errs| > 0 then Some(errs[|errs| - 1]) else None
  }

  predicate DistinctIds(errs: seq<Node>)
  {
    forall i, j :: 0 <= i < j < |errs| ==> errs[i].id != errs[j].id
  }

  /**
   * Navigation is cyclic: from the i-th error node Alt+J goes to the next one
   * and from the last back to the first, Alt+K the other way round.
   */
  lemma NavigationCycles(errs: seq<Node>, i: int)
    requires DistinctIds(errs) && 0 <= i < |errs|
    ensures NextError(errs, Some(errs[i])) == Some(if i == |errs| - 1 then errs[0] else errs[i + 1])
    ensures PrevError(errs, Some(errs[i])) == Some(if i == 0 then errs[|errs| - 1] else errs[i - 1])
  {
    assert FindIndex(errs, errs[i].id) == i;
  }

  /** Alt+K undoes Alt+J. */
  lemma PrevUndoesNext(errs: seq<Node>, i: int)
    requires DistinctIds(errs) && 0 <= i < |errs|
    ensures PrevError(errs, NextError(errs, Some(errs[i]))) == Some(errs[i])
  {
    NavigationCycles(errs, i);
    NavigationCycles(errs, if i == |errs| - 1 then 0 else i + 1);
  }

  /** With nothing selected, or a selection not in the list, Alt+J starts at the first and Alt+K at the last error; with no errors both give nothing. */
  lemma NavigationStarts(errs: seq<Node>, other: Node)
    requires forall j :: 0 <= j < |errs| ==> errs[j].id != other.id
    ensures NextError(errs, None) == NextError(errs, Some(other)) == if errs == [] then None else Some(errs[0])
    ensures PrevError(errs, None) == PrevError(errs, Some(other)) == if errs == [] then None else Some(errs[|errs| - 1])
  {
  }

  // ---------------------------------------------------------------------------
  // The component state

  class TreeView {
    var scrollTop: int
    var errors: int
    var errorNodes: seq<Node>
    var selected: Option<Node>
    var collapsed: map<int, bool>
    var spaceTop: int
    var spaceBottom: int
    var showItems: seq<seq<Step>>

    constructor ()
      ensures scrollTop == 0 && errors == 0 && errorNodes == [] && selected == None && collapsed == map[]
      ensures spaceTop == 0 && spaceBottom == 0 && showItems == []
    {
      scrollTop := 0;
      errors := 0;
      errorNodes := [];
      selected := None;
      collapsed := map[];
      spaceTop := 0;
      spaceBottom := 0;
      showItems := [];
    }

    method OnScroll(containerScrollTop: int)
      modifies this`scrollTop
      ensures scrollTop == SnapScroll(containerScrollTop, old(scrollTop))
    {
      scrollTop := SnapScroll(containerScrollTop, scrollTop);
    }

    /** The keydown listener: Alt+J and Alt+K move the selection; other keys do nothing. */
    method OnKeyDown(altKey: bool, key: string)
      modifies this`selected
      ensures altKey && key == "j" ==> selected == NextError(errorNodes, old(selected))
      ensures altKey && key == "k" ==> selected == PrevError(errorNodes, old(selected))
      ensures !(altKey && (key == "j" || key == "k")) ==> selected == old(selected)
    {
      if altKey && key == "j" {
        selected := NextError(errorNodes, selected);
      } else if altKey && key == "k" {
        selected := PrevError(errorNodes, selected);
      }
    }

    /** A new tree resets the error count, the selected error node and the collapse map. */
    method OnNewTree()
      modifies this`errors, this`selected, this`collapsed
      ensures errors == 0 && selected == None && collapsed == map[]
    {
      errors := 0;
      selected := None;
      collapsed := map[];
    }

    method OnToggle(id: int)
      modifies this`collapsed
      ensures collapsed == Toggle(old(collapsed), id)
    {
      collapsed := Toggle(collapsed, id);
    }

    /** The traversal effect, run for the current tree, collapse map and stored offset. */
    method Relayout(root: Node, clientHeight: nat)
      modifies this`spaceTop, this`spaceBottom, this`showItems, this`errors, this`errorNodes
      ensures var w := Window(root, collapsed, scrollTop, clientHeight);
        && spaceTop == w.pTop && spaceBottom == w.pBottom && showItems == w.show
        && errors == w.errs && errorNodes == w.errNodes
    {
      var w := Layout(root, collapsed, scrollTop, clientHeight);
      spaceTop := w.pTop;
      spaceBottom := w.pBottom;
      showItems := w.show;
      errors := w.errs;
      errorNodes := w.errNodes;
    }

    /** The highlight effect: locate the highlighted node's row and scroll to it when it is not fully in view. */
    method Reveal(root: Node, highlight: int, containerScrollTop: int, clientHeight: int) returns (scrollTo: Option<real>)
      ensures scrollTo == ScrollTarget(Row * IdIndex(Preorder(root), highlight), containerScrollTop, clientHeight)
    {
      var pos := FindPosition(root, highlight);
      scrollTo := ScrollTarget(pos, containerScrollTop, clientHeight);
    }
  }
}
