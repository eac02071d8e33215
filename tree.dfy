/** The parsed search tree (tree.go): a root node and the query text it came from. */
module Trees {
  import opened Reserved
  import opened Nodes

  class Tree {
    var root: Node?
    var src: seq<byte>

    /** A literal `&Tree{root: root, src: src}`. */
    constructor (root: Node?, src: seq<byte>)
      ensures this.root == root && this.src == src
    {
      this.root := root;
      this.src := src;
    }
  }

  /** Root (tree.go:9-14): nil for a nil tree. */
  function Root(t: Tree?): (r: Node?)
    reads t
    ensures t == null ==> r == null
    ensures t != null ==> r == t.root
  {
    if t == null then null else t.root
  }

  /** String (tree.go:17-22): the source query the tree was built from, not a rendering
      of its nodes; "" for a nil tree. */
  function String(t: Tree?): (s: seq<byte>)
    reads t
    ensures t == null ==> s == []
    ensures t != null ==> s == t.src
  {
    if t == null then [] else t.src
  }

  /** leaves (tree.go:25-38): appends the leaves among `children` to `current` and recurses
      on the others. The recursion passes the non-leaves themselves rather than their
      children, so it ends only when every element is a leaf, and the model asks for that. */
  method CollectLeaves(children: seq<Node>, current: seq<Node>) returns (r: seq<Node>)
    requires forall k :: 0 <= k < |children| ==> IsLeaf(children[k])
    ensures r == current + children
    decreases |children|
  {
    if |children| == 0 {
      return current;
    }
    var cur := current;
    var nonLeaves: seq<Node> := [];
    for k := 0 to |children|
      invariant cur == current + children[..k]
      invariant nonLeaves == []
    {
      var node := children[k];
      if IsLeaf(node) {
        cur := cur + [node];
      } else {
        nonLeaves := nonLeaves + [node];
      }
    }
    assert children[..|children|] == children;
    r := CollectLeaves(nonLeaves, cur);
  }

  /** Leaves (tree.go:41-43): the children of the root, in order; none for a nil tree or a
      childless root (a leaf root does not list itself). */
  method Leaves(t: Tree?) returns (r: seq<Node>)
    requires forall k :: 0 <= k < |Children(Root(t))| ==> IsLeaf(Children(Root(t))[k])
    ensures r == Children(Root(t))
    ensures t == null || IsLeaf(t.root) ==> r == []
  {
    r := CollectLeaves(Children(Root(t)), []);
  }

  /** Height (tree.go:45-53): the greatest depth of a leaf, 0 when there is none.
      `chains[k]` is the ancestor chain of the k-th leaf. */
  method Height(t: Tree?, ghost chains: seq<seq<Node>>) returns (h: int)
    requires forall k :: 0 <= k < |Children(Root(t))| ==> IsLeaf(Children(Root(t))[k])
    requires |chains| == |Children(Root(t))|
    requires forall k :: 0 <= k < |chains| ==> Ancestry(Children(Root(t))[k], chains[k])
    ensures h >= 0
    ensures forall k :: 0 <= k < |chains| ==> Depth(Children(Root(t))[k], chains[k]) <= h
    ensures h == 0 || exists k :: 0 <= k < |chains| && Depth(Children(Root(t))[k], chains[k]) == h
  {
    var leaves := Leaves(t);
    var maxDepth := 0;
    for k := 0 to |leaves|
      invariant maxDepth >= 0
      invariant forall j :: 0 <= j < k ==> Depth(leaves[j], chains[j]) <= maxDepth
      invariant maxDepth == 0 || exists j :: 0 <= j < k && Depth(leaves[j], chains[j]) == maxDepth
    {
      var d := Depth(leaves[k], chains[k]);
      if d > maxDepth {
        maxDepth := d;
      }
    }
    return maxDepth;
  }

  /** The height of a tree whose leaves all hang directly below a root is 1, or 0 when the
      root has no children: the shape of every tree Parse returns. */
  method HeightOfFlatTree(t: Tree) returns (h: int)
    requires t.root != null && t.root.parent == null
    requires forall k :: 0 <= k < |t.root.children| ==>
      t.root.children[k].parent == t.root && IsLeaf(t.root.children[k])
    ensures h == if t.root.children == [] then 0 else 1
  {
    var root := t.root;
    ghost var chains := seq(|root.children|, _ => [root]);
    forall k | 0 <= k < |root.children|
      ensures Ancestry(root.children[k], chains[k])
    {
      DepthOfRoot(root);
      DepthOfChild(root.children[k], []);
    }
    h := Height(t, chains);
    if root.children != [] {
      assert Depth(root.children[0], chains[0]) == 1;
    }
  }
}
