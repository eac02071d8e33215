/** Nodes of a parsed search tree (node.go).

    The Go methods on *Node accept a nil receiver; the model makes the receiver an
    explicit `Node?` parameter of a module-level member, so that the nil cases are
    part of each contract. */
module Nodes {
  import opened Reserved
  import opened Errors

  /** A node with its parent link, its children, its modal verb, its phrase literal
      (for a leaf) and the source text it was parsed from (node.go:7-13). */
  class Node {
    var parent: Node?
    var children: seq<Node>
    var verb: int
    var phrase: seq<byte>
    var src: seq<byte>

    /** A literal `&Node{verb: verb, phrase: phrase, src: src}`; `new(Node)` is
        `new Node(Should, [], [])`. */
    constructor (verb: int, phrase: seq<byte>, src: seq<byte>)
      ensures this.parent == null && this.children == []
      ensures this.verb == verb && this.phrase == phrase && this.src == src
    {
      this.parent := null;
      this.children := [];
      this.verb := verb;
      this.phrase := phrase;
      this.src := src;
    }
  }

  /** Parent (node.go:79-84): nil for nil and for a root. */
  function Parent(n: Node?): (p: Node?)
    reads n
    ensures n == null ==> p == null
    ensures n != null ==> p == n.parent
  {
    if n == null then null else n.parent
  }

  /** Children (node.go:87-92): no children for nil. */
  function Children(n: Node?): (cs: seq<Node>)
    reads n
    ensures n == null ==> cs == []
    ensures n != null ==> cs == n.children
  {
    if n == null then [] else n.children
  }

  /** IsLeaf (node.go:42-44): a node without children; nil counts as a leaf. */
  predicate IsLeaf(n: Node?)
    reads n
    ensures IsLeaf(n) <==> n == null || n.children == []
  {
    |Children(n)| == 0
  }

  /** IsValid (node.go:25-33): a present node that is not a leaf without a phrase.
      The check looks at this node only, not at its children. */
  predicate IsValid(n: Node?)
    reads n
    ensures IsValid(n) <==> n != null && (n.children != [] || n.phrase != [])
  {
    if n == null then false
    else if IsLeaf(n) && n.phrase == [] then false
    else true
  }

  /** Verb (node.go:96-101): the stored verb of a valid node, VerbError otherwise. */
  function Verb(n: Node?): (v: int)
    reads n
    ensures IsValid(n) ==> n != null && v == n.verb
    ensures !IsValid(n) ==> v == VerbError
  {
    if IsValid(n) then n.verb else VerbError
  }

  /** The cases of IsValid: nil and a leaf without phrase are invalid; a leaf with a
      phrase is valid, and so is every internal node, whatever its phrase and children. */
  lemma ValidityCases(n: Node?)
    ensures n == null ==> !IsValid(n) && IsLeaf(n)
    ensures n != null && n.children == [] ==> (IsValid(n) <==> n.phrase != [])
    ensures n != null && n.children != [] ==> IsValid(n) && !IsLeaf(n)
  {
  }

  /** Verb reports VerbError exactly on invalid nodes, given a stored verb that is not
      VerbError itself. */
  lemma VerbErrorIffInvalid(n: Node?)
    requires n != null ==> n.verb != VerbError
    ensures Verb(n) == VerbError <==> !IsValid(n)
    ensures IsValid(n) ==> Verb(n) == n.verb
  {
  }

  /** AddChild (node.go:47-57): links `child` below `n`, in both directions. A nil child
      changes nothing; on a nil receiver Go links the child below a new, otherwise
      unreachable node. */
  method AddChild(n: Node?, child: Node?)
    modifies n, child
    ensures child == null ==> n == null || unchanged(n)
    ensures child != null && n != null ==>
      && child.parent == n
      && n.children == old(n.children) + [child]
      && n.verb == old(n.verb) && n.phrase == old(n.phrase) && n.src == old(n.src)
      && (n != child ==> n.parent == old(n.parent))
      && (n != child ==> child.children == old(child.children))
      && child.verb == old(child.verb) && child.phrase == old(child.phrase) && child.src == old(child.src)
      && !IsLeaf(n) && IsValid(n) && Verb(n) == n.verb
    ensures child != null && n == null ==>
      && child.parent != null && fresh(child.parent)
      && child.parent.children == [child] && child.parent.parent == null
      && child.parent.verb == Should && child.parent.phrase == [] && child.parent.src == []
      && child.children == old(child.children)
      && child.verb == old(child.verb) && child.phrase == old(child.phrase) && child.src == old(child.src)
  {
    if child == null {
      return;
    }
    var m := n;
    if m == null {
      m := new Node(Should, [], []);
    }
    child.parent := m;
    m.children := m.children + [child];
  }

  /** NewChild (node.go:60-67): a new empty leaf, appended as the last child of `n`
      (of a new node when `n` is nil). */
  method NewChild(n: Node?) returns (child: Node)
    modifies n
    ensures fresh(child)
    ensures child.children == [] && child.phrase == [] && child.verb == Should && child.src == []
    ensures IsLeaf(child) && !IsValid(child)
    ensures n != null ==>
      && child.parent == n
      && n.children == old(n.children) + [child]
      && n.parent == old(n.parent) && n.verb == old(n.verb)
      && n.phrase == old(n.phrase) && n.src == old(n.src)
    ensures n == null ==>
      && child.parent != null && fresh(child.parent) && child.parent.children == [child]
      && child.parent.parent == null && child.parent.verb == Should
      && child.parent.phrase == [] && child.parent.src == []
  {
    var m := n;
    if m == null {
      m := new Node(Should, [], []);
    }
    child := new Node(Should, [], []);
    AddChild(m, child);
  }

  /** NewSibling (node.go:71-76): a new empty leaf appended to the children of the
      parent of `n`; an error when `n` is nil or a root. */
  method NewSibling(n: Node?) returns (r: Result<Node, NodeError>)
    modifies if n == null then {} else {n.parent}
    ensures r.Failure? <==> n == null || old(n.parent) == null
    ensures r.Failure? ==> r.error == NoParent
    ensures r.Success? ==>
      var p := old(n.parent);
      && p != null && n.parent == p
      && fresh(r.value) && r.value.parent == p
      && r.value.children == [] && r.value.phrase == [] && r.value.verb == Should
      && p.children == old(p.children) + [r.value]
      && r.value.src == []
      && p.parent == old(p.parent) && p.verb == old(p.verb) && p.phrase == old(p.phrase)
      && p.src == old(p.src)
  {
    if n == null || n.parent == null {
      return Failure(NoParent);
    }
    var c := NewChild(n.parent);
    return Success(c);
  }

  // ---------------------------------------------------------------------------
  // Depth

  /** `chain` lists the proper ancestors of `n`, nearest first, and ends at a root.
      Such a finite chain exists exactly when following parent links from `n` ends. */
  ghost predicate Ancestry(n: Node?, chain: seq<Node>)
    reads n, chain
  {
    if n == null then chain == []
    else
      && (n.parent == null <==> chain == [])
      && (chain != [] ==> chain[0] == n.parent && chain[|chain| - 1].parent == null)
      && forall k :: 0 <= k < |chain| - 1 ==> chain[k].parent == chain[k + 1]
  }

  /** The chain of a parent is the rest of its child's chain. */
  lemma AncestryOfParent(n: Node, chain: seq<Node>)
    requires Ancestry(n, chain) && n.parent != null
    ensures Ancestry(n.parent, chain[1..])
  {
    if |chain| > 1 {
      assert chain[0].parent == chain[1];
    }
  }

  /** depth (node.go:16-21): the tail recursive walk up the parent links, adding one
      to `k` per link. Go's walk never ends on a cycle of parent links; the model asks
      for the finite ancestor chain that exists otherwise. */
  function DepthFrom(node: Node?, k: int, ghost chain: seq<Node>): (d: int)
    requires Ancestry(node, chain)
    reads node, chain
    ensures d == k + |chain|
    decreases |chain|
  {
    if Parent(node) == null then k
    else
      AncestryOfParent(node, chain);
      DepthFrom(Parent(node), k + 1, chain[1..])
  }

  /** Depth (node.go:36-38): the number of parent links from `n` to its root. */
  function Depth(n: Node?, ghost chain: seq<Node>): (d: int)
    requires Ancestry(n, chain)
    reads n, chain
    ensures d == |chain|
  {
    DepthFrom(n, 0, chain)
  }

  /** The ancestor chain of a node is unique, so Depth does not depend on the ghost
      argument. */
  lemma {:induction false} AncestryUnique(n: Node?, c1: seq<Node>, c2: seq<Node>)
    requires Ancestry(n, c1) && Ancestry(n, c2)
    ensures c1 == c2
    decreases |c1|
  {
    if n != null && n.parent != null {
      AncestryOfParent(n, c1);
      AncestryOfParent(n, c2);
      AncestryUnique(n.parent, c1[1..], c2[1..]);
      assert c1 == [c1[0]] + c1[1..];
      assert c2 == [c2[0]] + c2[1..];
    }
  }

  /** A root has depth 0. */
  lemma DepthOfRoot(n: Node)
    requires n.parent == null
    ensures Ancestry(n, []) && Depth(n, []) == 0
  {
  }

  /** A child is one deeper than its parent. */
  lemma DepthOfChild(c: Node, chain: seq<Node>)
    requires c.parent != null && Ancestry(c.parent, chain)
    ensures Ancestry(c, [c.parent] + chain)
    ensures Depth(c, [c.parent] + chain) == Depth(c.parent, chain) + 1
  {
    var full := [c.parent] + chain;
    forall k | 0 <= k < |full| - 1
      ensures full[k].parent == full[k + 1]
    {
      if k > 0 {
        assert full[k] == chain[k - 1] && full[k + 1] == chain[k];
      }
    }
  }
}
