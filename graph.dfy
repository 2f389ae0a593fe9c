/**
 * The tree-to-graph walk of main.py (tree_to_graphviz with its inner
 * add_nodes) and the None guard of render_tree_to_image.  The graphviz
 * Digraph is modelled as the node and edge statements added to it, in order;
 * each tree node gets as id its index among the node statements.
 */
module Graph {
  import opened Wrappers
  import opened Grammar

  /** A node statement: the node's id and its display label text. */
  datatype NodeDecl = NodeDecl(id: nat, text: string)

  /** An edge statement, from a parent's id to a child's id. */
  datatype EdgeDecl = EdgeDecl(tail: nat, head: nat)

  /** The graph description handed to the renderer. */
  datatype Drawing = Drawing(nodes: seq<NodeDecl>, edges: seq<EdgeDecl>)

  /** A graphviz Digraph, seen as the statements added to it so far. */
  class Digraph {
    var nodes: seq<NodeDecl>
    var edges: seq<EdgeDecl>

    constructor ()
      ensures nodes == [] && edges == []
    {
      nodes := [];
      edges := [];
    }

    /** `dot.node(id, text)` */
    method AddNode(id: nat, text: string)
      modifies this
      ensures nodes == old(nodes) + [NodeDecl(id, text)] && edges == old(edges)
    {
      nodes := nodes + [NodeDecl(id, text)];
    }

    /** `dot.edge(tail, head)` */
    method AddEdge(tail: nat, head: nat)
      modifies this
      ensures edges == old(edges) + [EdgeDecl(tail, head)] && nodes == old(nodes)
    {
      edges := edges + [EdgeDecl(tail, head)];
    }
  }

  /** The display label: the nonterminal's name for a node, the token itself for a leaf. */
  function Label(t: Tree): (r: string)
    ensures t.Node? ==> |r| == 1
    ensures t.Leaf? ==> r == t.tok
  {
    match t
    case Node(x, _) => Name(x)
    case Leaf(tok) => tok
  }

  /** The number of nodes and leaves in `t`. */
  function Size(t: Tree): nat
    decreases t, 1
  {
    match t
    case Leaf(_) => 1
    case Node(_, cs) => 1 + SizeOf(cs)
  }

  function SizeOf(cs: seq<Tree>): nat
    decreases cs, 0
  {
    if cs == [] then 0 else SizeOf(cs[..|cs| - 1]) + Size(cs[|cs| - 1])
  }

  /** The number of internal nodes in `t`. */
  function Internal(t: Tree): nat
    decreases t, 1
  {
    match t
    case Leaf(_) => 0
    case Node(_, cs) => 1 + InternalOf(cs)
  }

  function InternalOf(cs: seq<Tree>): nat
    decreases cs, 0
  {
    if cs == [] then 0 else InternalOf(cs[..|cs| - 1]) + Internal(cs[|cs| - 1])
  }

  /** The subtrees of `t` in pre-order: `t`, then each child's subtrees in stored order. */
  function Preorder(t: Tree): (r: seq<Tree>)
    ensures |r| == Size(t) && r[0] == t
    decreases t, 1
  {
    match t
    case Leaf(_) => [t]
    case Node(_, cs) => [t] + PreorderOf(cs)
  }

  function PreorderOf(cs: seq<Tree>): (r: seq<Tree>)
    ensures |r| == SizeOf(cs)
    decreases cs, 0
  {
    if cs == [] then [] else PreorderOf(cs[..|cs| - 1]) + Preorder(cs[|cs| - 1])
  }

  /**
   * In the pre-order list `po`, the entry at position `c` is the i-th child
   * of the entry at position `p`, located by position: it sits right after
   * that node and the subtrees of its first i children.
   */
  ghost predicate ChildSlot(po: seq<Tree>, p: nat, c: nat, i: nat)
  {
    && p < c < |po| && po[p].Node? && i < |po[p].children|
    && c == p + 1 + SizeOf(po[p].children[..i]) && po[c] == po[p].children[i]
  }

  /** In the pre-order list `po`, the entry at position `c` is a child of the entry at position `p`. */
  ghost predicate ChildAt(po: seq<Tree>, p: nat, c: nat)
  {
    exists i :: ChildSlot(po, p, c, i)
  }

  /** Position `j` in the pre-order of the children `cs` is where the i-th child itself sits. */
  ghost predicate EntrySlot(cs: seq<Tree>, j: nat, i: nat)
  {
    i < |cs| && j == SizeOf(cs[..i]) && j < |PreorderOf(cs)| && PreorderOf(cs)[j] == cs[i]
  }

  /** The node statements add_nodes emits for `t` when the first free id is `id`. */
  function Decls(t: Tree, id: nat): (r: seq<NodeDecl>)
    ensures |r| == Size(t)
    decreases t, 1
  {
    match t
    case Leaf(_) => [NodeDecl(id, Label(t))]
    case Node(_, cs) => [NodeDecl(id, Label(t))] + DeclsOf(cs, id + 1)
  }

  function DeclsOf(cs: seq<Tree>, id: nat): (r: seq<NodeDecl>)
    ensures |r| == SizeOf(cs)
    decreases cs, 0
  {
    if cs == [] then []
    else DeclsOf(cs[..|cs| - 1], id) + Decls(cs[|cs| - 1], id + SizeOf(cs[..|cs| - 1]))
  }

  /** The edge statement add_nodes emits for a node declared as `id`: one from its parent, when it has one. */
  function Up(parent: Option<nat>, id: nat): seq<EdgeDecl>
  {
    if parent.Some? then [EdgeDecl(parent.value, id)] else []
  }

  /**
   * The edge statements add_nodes emits for `t` when the first free id is
   * `id`: the edge from the parent, if there is one, then the edges below `t`.
   */
  function Edges(t: Tree, parent: Option<nat>, id: nat): seq<EdgeDecl>
  {
    Up(parent, id) + Below(t, id)
  }

  /** The edge statements for the links below `t`, declared as `id`. */
  function Below(t: Tree, id: nat): (r: seq<EdgeDecl>)
    ensures |r| == Size(t) - 1
    decreases t, 1
  {
    match t
    case Leaf(_) => []
    case Node(_, cs) => EdgesOf(cs, id, id + 1)
  }

  /** The edge statements for the children `cs` of node `parent`, the first child declared as `id`. */
  function EdgesOf(cs: seq<Tree>, parent: nat, id: nat): (r: seq<EdgeDecl>)
    ensures |r| == SizeOf(cs)
    decreases cs, 0
  {
    if cs == [] then []
    else
      var base := id + SizeOf(cs[..|cs| - 1]);
      EdgesOf(cs[..|cs| - 1], parent, id) + [EdgeDecl(parent, base)] + Below(cs[|cs| - 1], base)
  }

  /** The number of parent-to-child links in `t`: one per child of every internal node. */
  function Links(t: Tree): nat
    decreases t, 1
  {
    match t
    case Leaf(_) => 0
    case Node(_, cs) => |cs| + LinksOf(cs)
  }

  function LinksOf(cs: seq<Tree>): nat
    decreases cs, 0
  {
    if cs == [] then 0 else LinksOf(cs[..|cs| - 1]) + Links(cs[|cs| - 1])
  }

  /** A tree has one more node than it has parent-to-child links. */
  lemma {:induction false} LinksCount(t: Tree)
    ensures Links(t) == Size(t) - 1
    decreases t, 1
  {
    match t
    case Leaf(_) =>
    case Node(_, cs) => LinksOfCount(cs);
  }

  lemma {:induction false} LinksOfCount(cs: seq<Tree>)
    ensures LinksOf(cs) + |cs| == SizeOf(cs)
    decreases cs, 0
  {
    if cs != [] {
      LinksOfCount(cs[..|cs| - 1]);
      LinksCount(cs[|cs| - 1]);
    }
  }

  /** Every node is internal or a leaf. */
  lemma {:induction false} SizeSplits(t: Tree)
    ensures Size(t) == Internal(t) + |Leaves(t)|
    decreases t, 1
  {
    match t
    case Leaf(_) =>
    case Node(_, cs) => SizeOfSplits(cs);
  }

  lemma {:induction false} SizeOfSplits(cs: seq<Tree>)
    ensures SizeOf(cs) == InternalOf(cs) + |LeavesOf(cs)|
    decreases cs, 0
  {
    if cs != [] {
      SizeOfSplits(cs[..|cs| - 1]);
      SizeSplits(cs[|cs| - 1]);
    }
  }

  /** The k-th node statement declares id `id + k` with the label of the k-th subtree in pre-order. */
  lemma {:induction false} DeclsArePreorder(t: Tree, id: nat, k: nat)
    requires k < Size(t)
    ensures |Decls(t, id)| == |Preorder(t)| == Size(t)
    ensures Decls(t, id)[k] == NodeDecl(id + k, Label(Preorder(t)[k]))
    decreases t, 1
  {
    if k > 0 {
      DeclsOfArePreorder(t.children, id + 1, k - 1);
    }
  }

  lemma {:induction false} DeclsOfArePreorder(cs: seq<Tree>, id: nat, j: nat)
    requires j < SizeOf(cs)
    ensures DeclsOf(cs, id)[j] == NodeDecl(id + j, Label(PreorderOf(cs)[j]))
    decreases cs, 0
  {
    var n := |cs| - 1;
    var init := cs[..n];
    if j < SizeOf(init) {
      DeclsOfArePreorder(init, id, j);
    } else {
      DeclsArePreorder(cs[n], id + SizeOf(init), j - SizeOf(init));
    }
  }

  /**
   * The j-th edge statement below `t` enters the node declared (j + 1)-th
   * from `id` on, and leaves a node declared before it: by position, the
   * parent of the node it enters, of which it is the i-th child.
   */
  lemma {:induction false} BelowLinks(t: Tree, id: nat, j: nat) returns (i: nat)
    requires j < |Below(t, id)|
    ensures Below(t, id)[j].head == id + j + 1
    ensures id <= Below(t, id)[j].tail < id + j + 1
    ensures ChildSlot(Preorder(t), Below(t, id)[j].tail - id, j + 1, i)
    decreases t, 1
  {
    var cs := t.children;
    var e := EdgesOf(cs, id, id + 1)[j];
    i := EdgesOfLinks(cs, id, id + 1, j);
    RootStep(t, j, j + 1);
    if e.tail == id {
      assert Preorder(t)[0] == t;
      assert ChildSlot(Preorder(t), 0, j + 1, i);
    } else {
      RootStep(t, e.tail - id - 1, e.tail - id);
      SlotShift(PreorderOf(cs), Preorder(t), e.tail - id - 1, j, i, e.tail - id, j + 1);
    }
  }

  /**
   * The j-th edge statement for the children `cs` of node `parent` enters
   * the node declared j-th from `id` on, and either leaves `parent` for the
   * i-th of `cs` or leaves a node declared earlier below `cs`: by position,
   * the parent of the node it enters, of which it is the i-th child.
   */
  lemma {:induction false} EdgesOfLinks(cs: seq<Tree>, parent: nat, id: nat, j: nat) returns (i: nat)
    requires parent < id && j < SizeOf(cs)
    ensures LinkSlot(cs, parent, id, j, i)
    decreases cs, 1
  {
    var init := cs[..|cs| - 1];
    if j < SizeOf(init) {
      i := EdgesOfLinksInit(cs, parent, id, j);
    } else if j == SizeOf(init) {
      i := |cs| - 1;
      EdgesOfLinksLastChild(cs, parent, id);
    } else {
      var k := j - SizeOf(init) - 1;
      BelowLastStep(cs, parent, id, k, j);
      i := BelowLastLinks(cs, id, k, j);
      LinkSlotBelow(cs, parent, id, j, i, Below(cs[|cs| - 1], id + SizeOf(init))[k]);
    }
  }

  /** What EdgesOfLinks states about the j-th edge statement for `cs`. */
  ghost predicate LinkSlot(cs: seq<Tree>, parent: nat, id: nat, j: nat, i: nat)
    requires j < SizeOf(cs)
  {
    var e := EdgesOf(cs, parent, id)[j];
    && e.head == id + j
    && (e.tail == parent ==> EntrySlot(cs, j, i))
    && (e.tail != parent ==> id <= e.tail < id + j && ChildSlot(PreorderOf(cs), e.tail - id, j, i))
  }

  /** EdgesOfLinks for an edge made for one of the children before the last. */
  lemma {:induction false} EdgesOfLinksInit(cs: seq<Tree>, parent: nat, id: nat, j: nat) returns (i: nat)
    requires parent < id && cs != [] && j < SizeOf(cs[..|cs| - 1])
    ensures LinkSlot(cs, parent, id, j, i)
    decreases cs, 0
  {
    var init := cs[..|cs| - 1];
    i := EdgesOfLinks(init, parent, id, j);
    InitStep(cs, parent, id, j, j);
    var tail := EdgesOf(init, parent, id)[j].tail;
    if tail == parent {
      assert cs[..i] == init[..i];
    } else {
      InitStep(cs, parent, id, j, tail - id);
      SlotShift(PreorderOf(init), PreorderOf(cs), tail - id, j, i, tail - id, j);
    }
  }

  /** EdgesOfLinks for the edge from `parent` into the last child. */
  lemma EdgesOfLinksLastChild(cs: seq<Tree>, parent: nat, id: nat)
    requires parent < id && cs != []
    ensures LinkSlot(cs, parent, id, SizeOf(cs[..|cs| - 1]), |cs| - 1)
  {
    LastStep(cs, parent, id);
    assert cs[..|cs| - 1] == cs[..|cs| - 1];
  }

  /**
   * The edges below the last child, as EdgesOfLinks states them: the k-th
   * enters position j of the children's pre-order, from a position in the
   * last child's part of it that is its parent.
   */
  lemma {:induction false} BelowLastLinks(cs: seq<Tree>, id: nat, k: nat, j: nat) returns (i: nat)
    requires cs != [] && k < |Below(cs[|cs| - 1], id + SizeOf(cs[..|cs| - 1]))|
    requires j == SizeOf(cs[..|cs| - 1]) + 1 + k
    ensures Below(cs[|cs| - 1], id + SizeOf(cs[..|cs| - 1]))[k].head == id + j
    ensures id + SizeOf(cs[..|cs| - 1]) <= Below(cs[|cs| - 1], id + SizeOf(cs[..|cs| - 1]))[k].tail < id + j
    ensures ChildSlot(PreorderOf(cs), Below(cs[|cs| - 1], id + SizeOf(cs[..|cs| - 1]))[k].tail - id, j, i)
    decreases cs, 0
  {
    var base := id + SizeOf(cs[..|cs| - 1]);
    i := BelowLinks(cs[|cs| - 1], base, k);
    var tail := Below(cs[|cs| - 1], base)[k].tail;
    LastChildSlot(cs, tail - base, k + 1, i, tail - id, j);
  }

  /** An edge statement that leaves a node below the children, as LinkSlot states it. */
  lemma LinkSlotBelow(cs: seq<Tree>, parent: nat, id: nat, j: nat, i: nat, e: EdgeDecl)
    requires j < SizeOf(cs) && EdgesOf(cs, parent, id)[j] == e
    requires e.head == id + j && parent < id <= e.tail < id + j
    requires ChildSlot(PreorderOf(cs), e.tail - id, j, i)
    ensures LinkSlot(cs, parent, id, j, i)
  {
  }

  /** A parent-child slot in the last child's pre-order is one in the whole list's, `SizeOf` of the others further on. */
  lemma LastChildSlot(cs: seq<Tree>, p: nat, c: nat, i: nat, p': nat, c': nat)
    requires cs != [] && ChildSlot(Preorder(cs[|cs| - 1]), p, c, i)
    requires p' == SizeOf(cs[..|cs| - 1]) + p && c' == SizeOf(cs[..|cs| - 1]) + c
    ensures ChildSlot(PreorderOf(cs), p', c', i)
  {
    PreorderOfLast(cs, p, p');
    PreorderOfLast(cs, c, c');
    SlotShift(Preorder(cs[|cs| - 1]), PreorderOf(cs), p, c, i, p', c');
  }

  /** The last child's subtrees come last in the pre-order of a child list. */
  lemma PreorderOfLast(cs: seq<Tree>, k: nat, m: nat)
    requires cs != [] && k < Size(cs[|cs| - 1]) && m == SizeOf(cs[..|cs| - 1]) + k
    ensures PreorderOf(cs)[m] == Preorder(cs[|cs| - 1])[k]
  {
  }

  /** A parent-child slot stays one when both entries move the same number of places on. */
  lemma SlotShift(po: seq<Tree>, q: seq<Tree>, p: nat, c: nat, i: nat, p': nat, c': nat)
    requires ChildSlot(po, p, c, i) && p <= p' && c' - c == p' - p && c' < |q|
    requires q[p'] == po[p] && q[c'] == po[c]
    ensures ChildSlot(q, p', c', i)
  {
  }

  /** Below the root come the subtrees of its children. */
  lemma RootStep(t: Tree, m: nat, m': nat)
    requires t.Node? && m < SizeOf(t.children) && m' == m + 1
    ensures Preorder(t)[m'] == PreorderOf(t.children)[m]
  {
  }

  /** Statements for the children but the last one keep their places when the last one is added. */
  lemma InitStep(cs: seq<Tree>, parent: nat, id: nat, j: nat, m: nat)
    requires cs != [] && j < SizeOf(cs[..|cs| - 1]) && m < SizeOf(cs[..|cs| - 1])
    ensures EdgesOf(cs, parent, id)[j] == EdgesOf(cs[..|cs| - 1], parent, id)[j]
    ensures PreorderOf(cs)[m] == PreorderOf(cs[..|cs| - 1])[m]
  {
  }

  /** After the statements for the children before it, the last child gets its parent edge and its first pre-order place. */
  lemma LastStep(cs: seq<Tree>, parent: nat, id: nat)
    requires cs != []
    ensures EdgesOf(cs, parent, id)[SizeOf(cs[..|cs| - 1])] == EdgeDecl(parent, id + SizeOf(cs[..|cs| - 1]))
    ensures PreorderOf(cs)[SizeOf(cs[..|cs| - 1])] == cs[|cs| - 1]
  {
    assert Preorder(cs[|cs| - 1])[0] == cs[|cs| - 1];
  }

  /** The edge statements below the last child come last. */
  lemma BelowLastStep(cs: seq<Tree>, parent: nat, id: nat, k: nat, m: nat)
    requires cs != [] && k < Size(cs[|cs| - 1]) - 1 && m == SizeOf(cs[..|cs| - 1]) + 1 + k
    ensures EdgesOf(cs, parent, id)[m] == Below(cs[|cs| - 1], id + SizeOf(cs[..|cs| - 1]))[k]
  {
  }

  /**
   * The shape of the graph the walk builds for a whole tree: one node
   * statement per node and per leaf, labelled in pre-order; one edge per
   * parent-to-child link, the j-th entering node j + 1, so none enters the
   * root and every other node is entered exactly once, from the node that is
   * its parent by position in the pre-order.
   */
  lemma WalkShape(t: Tree)
    ensures |Decls(t, 0)| == Size(t) == Internal(t) + |Leaves(t)|
    ensures |Edges(t, None, 0)| == Links(t) == |Decls(t, 0)| - 1
    ensures forall k :: 0 <= k < |Decls(t, 0)| ==> Decls(t, 0)[k] == NodeDecl(k, Label(Preorder(t)[k]))
    ensures forall j :: 0 <= j < |Edges(t, None, 0)| ==>
      Edges(t, None, 0)[j].head == j + 1 && Edges(t, None, 0)[j].tail <= j
      && ChildAt(Preorder(t), Edges(t, None, 0)[j].tail, j + 1)
  {
    SizeSplits(t);
    LinksCount(t);
    forall k | 0 <= k < |Decls(t, 0)|
      ensures Decls(t, 0)[k] == NodeDecl(k, Label(Preorder(t)[k]))
    {
      DeclsArePreorder(t, 0, k);
    }
    EdgesEnterChildren(t);
  }

  /** The j-th edge statement of the whole walk enters node j + 1 from its parent by position. */
  lemma EdgesEnterChildren(t: Tree)
    ensures forall j :: 0 <= j < |Edges(t, None, 0)| ==>
      Edges(t, None, 0)[j].head == j + 1 && Edges(t, None, 0)[j].tail <= j
      && ChildAt(Preorder(t), Edges(t, None, 0)[j].tail, j + 1)
  {
    assert Edges(t, None, 0) == Below(t, 0);
    forall j | 0 <= j < |Edges(t, None, 0)|
      ensures Edges(t, None, 0)[j].head == j + 1 && Edges(t, None, 0)[j].tail <= j
      ensures ChildAt(Preorder(t), Edges(t, None, 0)[j].tail, j + 1)
    {
      var i := BelowLinks(t, 0, j);
      assert ChildSlot(Preorder(t), Edges(t, None, 0)[j].tail, j + 1, i);
    }
  }

  lemma Associative<T>(a: seq<T>, b: seq<T>, c: seq<T>)
    ensures a + b + c == a + (b + c)
  {
  }

  /** Walking one more child appends that child's statements to those already made. */
  lemma PrefixStep(nodes: seq<NodeDecl>, edges: seq<EdgeDecl>, cs: seq<Tree>, i: nat, parent: nat, id: nat)
    requires i < |cs|
    ensures nodes + DeclsOf(cs[..i + 1], id) == nodes + DeclsOf(cs[..i], id) + Decls(cs[i], id + SizeOf(cs[..i]))
    ensures edges + EdgesOf(cs[..i + 1], parent, id)
         == edges + EdgesOf(cs[..i], parent, id) + Edges(cs[i], Some(parent), id + SizeOf(cs[..i]))
  {
    var base := id + SizeOf(cs[..i]);
    assert cs[..i + 1][..i] == cs[..i];
    Associative(EdgesOf(cs[..i], parent, id), [EdgeDecl(parent, base)], Below(cs[i], base));
    Associative(nodes, DeclsOf(cs[..i], id), Decls(cs[i], base));
    Associative(edges, EdgesOf(cs[..i], parent, id), Edges(cs[i], Some(parent), base));
  }

  /**
   * add_nodes: declare `node` under the next free id, with an edge from its
   * parent when it has one, then walk its children in stored order.
   */
  method AddNodes(dot: Digraph, node: Tree, parent: Option<nat>)
    modifies dot
    decreases node, 1
    ensures dot.nodes == old(dot.nodes) + Decls(node, old(|dot.nodes|))
    ensures dot.edges == old(dot.edges) + Edges(node, parent, old(|dot.nodes|))
  {
    var nodeId := |dot.nodes|;
    dot.AddNode(nodeId, Label(node));
    if parent.Some? {
      dot.AddEdge(parent.value, nodeId);
    }
    if node.Node? {
      AddChildren(dot, node.children, nodeId);
    }
    Associative(old(dot.edges), Up(parent, nodeId), Below(node, nodeId));
  }

  /** The `for child in node` loop of add_nodes: walk each child, with `parent` as its parent. */
  method AddChildren(dot: Digraph, cs: seq<Tree>, parent: nat)
    modifies dot
    decreases cs, 0
    ensures dot.nodes == old(dot.nodes) + DeclsOf(cs, old(|dot.nodes|))
    ensures dot.edges == old(dot.edges) + EdgesOf(cs, parent, old(|dot.nodes|))
  {
    ghost var id, nodes0, edges0 := |dot.nodes|, dot.nodes, dot.edges;
    for i := 0 to |cs|
      invariant dot.nodes == nodes0 + DeclsOf(cs[..i], id)
      invariant dot.edges == edges0 + EdgesOf(cs[..i], parent, id)
    {
      PrefixStep(nodes0, edges0, cs, i, parent, id);
      AddNodes(dot, cs[i], Some(parent));
    }
    assert cs[..|cs|] == cs;
  }

  /** tree_to_graphviz: None for no tree, otherwise a fresh Digraph holding the walk's statements. */
  method TreeToGraphviz(tree: Option<Tree>) returns (dot: Option<Digraph>)
    ensures dot.None? <==> tree.None?
    ensures dot.Some? ==> fresh(dot.value)
    ensures dot.Some? ==> dot.value.nodes == Decls(tree.value, 0) && dot.value.edges == Edges(tree.value, None, 0)
  {
    if tree.None? {
      return None;
    }
    var g := new Digraph();
    AddNodes(g, tree.value, None);
    return Some(g);
  }

  /** The file name render_tree_to_image uses when its caller gives none. */
  const DefaultImageFile: string := "derivation_tree.png"

  /**
   * render_tree_to_image: renders only when there is a graph, and returns the
   * file name either way.  `drawing` is what is handed to the renderer.
   */
  method RenderTreeToImage(tree: Option<Tree>, filename: string := DefaultImageFile) returns (result: string, drawing: Option<Drawing>)
    ensures result == filename
    ensures drawing.None? <==> tree.None?
    ensures tree.Some? ==> drawing == Some(Drawing(Decls(tree.value, 0), Edges(tree.value, None, 0)))
  {
    var dot := TreeToGraphviz(tree);
    drawing := None;
    if dot.Some? {
      drawing := Some(Drawing(dot.value.nodes, dot.value.edges));
    }
    result := filename;
  }
}
