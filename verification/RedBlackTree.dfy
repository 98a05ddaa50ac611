/** The red-black tree as the program runs it: coloured nodes changed in place. */
module RedBlackTree {
  import opened Payloads
  import opened Trees
  import opened RedBlackSpec

  /** `is_red` */
  function NodeIsRed(node: RbNode?): bool
    reads node
  {
    node != null && node.color == Red
  }

  method RotationLL(node: RbNode, ghost t: RbTree) returns (top: RbNode)
    requires Spells(node, t) && t.left.Bin?
    modifies Refs(t)
    ensures Spells(top, RotateLL(t))
  {
    RotateLLRearranges(t);
    assert Spells(node.left, t.left);
    assert allocated(Refs(t.left.left)) && allocated(Refs(t.left.right)) && allocated(Refs(t.right));
    top := node.left;
    node.left, top.right := top.right, node;
    node.color, top.color := Red, Black;
    assert Shape(top.left, t.left.left) && Shape(node.left, t.left.right) && Shape(node.right, t.right);
  }

  method RotationRR(node: RbNode, ghost t: RbTree) returns (top: RbNode)
    requires Spells(node, t) && t.right.Bin?
    modifies Refs(t)
    ensures Spells(top, RotateRR(t))
  {
    RotateRRRearranges(t);
    assert Spells(node.right, t.right);
    assert allocated(Refs(t.right.left)) && allocated(Refs(t.right.right)) && allocated(Refs(t.left));
    top := node.right;
    node.right, top.left := top.left, node;
    node.color, top.color := Red, Black;
    assert Shape(node.left, t.left) && Shape(node.right, t.right.left) && Shape(top.right, t.right.right);
  }

  method RotationLR(node: RbNode, ghost t: RbTree) returns (top: RbNode)
    requires Spells(node, t) && t.left.Bin? && t.left.right.Bin?
    modifies Refs(t)
    ensures Spells(top, RotateLR(t))
  {
    ghost var turned := RotateRR(t.left);
    RotateRRRearranges(t.left);
    assert allocated(Refs(t.left)) && allocated(Refs(t.right));
    var left := RotationRR(node.left, t.left);
    assert Shape(node.right, t.right);
    node.left := left;
    assert Shape(left, turned) && Shape(node.right, t.right);
    top := RotationLL(node, t.(left := turned));
  }

  method RotationRL(node: RbNode, ghost t: RbTree) returns (top: RbNode)
    requires Spells(node, t) && t.right.Bin? && t.right.left.Bin?
    modifies Refs(t)
    ensures Spells(top, RotateRL(t))
  {
    ghost var turned := RotateLL(t.right);
    RotateLLRearranges(t.right);
    assert allocated(Refs(t.left)) && allocated(Refs(t.right));
    var right := RotationLL(node.right, t.right);
    assert Shape(node.left, t.left);
    node.right := right;
    assert Shape(right, turned) && Shape(node.left, t.left);
    top := RotationRR(node, t.(right := turned));
  }

  method Paint(node: RbNode, color: Color, ghost t: RbTree)
    requires Spells(node, t)
    modifies node`color
    ensures Spells(node, Repaint(t, color))
  {
    assert allocated(Refs(t.left)) && allocated(Refs(t.right));
    node.color := color;
    assert Shape(node.left, t.left) && Shape(node.right, t.right);
  }

  /** Case I of `rb_rebalance`: recolour the node and its children. */
  method FlipColors(node: RbNode, ghost t: RbTree)
    requires Spells(node, t) && t.left.Bin? && t.right.Bin?
    modifies Refs(t)
    ensures Spells(node, Flip(t))
  {
    FlipRearranges(t);
    Paint(node, Red, t);
    assert Spells(node.left, t.left) && Spells(node.right, t.right);
    assert allocated(Refs(t.left)) && allocated(Refs(t.right));
    Paint(node.left, Black, t.left);
    assert Spells(node.right, t.right);
    assert allocated(Refs(Flip(t).left));
    Paint(node.right, Black, t.right);
    assert Shape(node.left, Flip(t).left) && Shape(node.right, Flip(t).right);
  }

  /** `rb_rebalance` */
  method Rebalance(node: RbNode, direction: int, ghost t: RbTree) returns (top: RbNode)
    requires Spells(node, t)
    modifies Refs(t)
    ensures Spells(top, if direction < 0 then RebalanceLeft(t) else RebalanceRight(t))
  {
    assert Shape(node.left, t.left) && Shape(node.right, t.right);
    top := node;
    if direction < 0 {
      if NodeIsRed(node.left) {
        assert Shape(node.left.left, t.left.left) && Shape(node.left.right, t.left.right);
        if NodeIsRed(node.right) {
          FlipColors(node, t);
        } else if NodeIsRed(node.left.left) {
          top := RotationLL(node, t);
        } else if NodeIsRed(node.left.right) {
          top := RotationLR(node, t);
        }
      }
    } else {
      if NodeIsRed(node.right) {
        assert Shape(node.right.left, t.right.left) && Shape(node.right.right, t.right.right);
        if NodeIsRed(node.left) {
          FlipColors(node, t);
        } else if NodeIsRed(node.right.right) {
          top := RotationRR(node, t);
        } else if NodeIsRed(node.right.left) {
          top := RotationRL(node, t);
        }
      }
    }
  }

  /** `rb_node_attach` */
  method AttachNode(node: RbNode, attached: RbNode, ghost t: RbTree) returns (top: RbNode)
    requires Spells(node, t) && Spells(attached, Bin(Painted(attached, Red), Nil, attached.data, Nil))
    requires attached !in Refs(t)
    modifies Refs(t), attached
    ensures Spells(top, NodeAttach(t, attached, old(attached.data)))
    decreases t, 1
  {
    NodeAttachRefs(t, attached, attached.data);
    var direction := Compare(attached.data, node.data);
    if direction == 0 {
      top := node;
    } else if direction < 0 {
      ghost var left := AttachLeft(node, attached, t);
      top := Rebalance(node, direction, t.(left := left));
    } else {
      ghost var right := AttachRight(node, attached, t);
      top := Rebalance(node, direction, t.(right := right));
    }
  }

  method AttachLeft(node: RbNode, attached: RbNode, ghost t: RbTree) returns (ghost child: RbTree)
    requires Spells(node, t) && Spells(attached, Bin(Painted(attached, Red), Nil, attached.data, Nil))
    requires attached !in Refs(t)
    modifies Refs(t), attached
    ensures child == NodeAttach(t.left, attached, old(attached.data)) && Refs(child) <= Refs(t.left) + {attached}
    ensures Spells(node, t.(left := child))
    decreases t, 0
  {
    child := NodeAttach(t.left, attached, attached.data);
    NodeAttachRefs(t.left, attached, attached.data);
    assert allocated(Refs(t.left)) && allocated(Refs(t.right)) && allocated(Refs(child));
    if node.left != null {
      var left := AttachNode(node.left, attached, t.left);
      node.left := left;
    } else {
      node.left := attached;
    }
    assert Shape(node.right, t.right);
  }

  method AttachRight(node: RbNode, attached: RbNode, ghost t: RbTree) returns (ghost child: RbTree)
    requires Spells(node, t) && Spells(attached, Bin(Painted(attached, Red), Nil, attached.data, Nil))
    requires attached !in Refs(t)
    modifies Refs(t), attached
    ensures child == NodeAttach(t.right, attached, old(attached.data)) && Refs(child) <= Refs(t.right) + {attached}
    ensures Spells(node, t.(right := child))
    decreases t, 0
  {
    child := NodeAttach(t.right, attached, attached.data);
    NodeAttachRefs(t.right, attached, attached.data);
    assert allocated(Refs(t.left)) && allocated(Refs(t.right)) && allocated(Refs(child));
    if node.right != null {
      var right := AttachNode(node.right, attached, t.right);
      node.right := right;
    } else {
      node.right := attached;
    }
    assert Shape(node.left, t.left);
  }

  /** `lookup`: the node found, and how often `compare` was called. */
  method Lookup(current: RbNode, data: Payload, ghost t: RbTree) returns (found: RbNode?, calls: nat)
    requires Shape(current, t)
    ensures found == Root(Found(t, data.key)) && calls <= Height(t)
    decreases t
  {
    found, calls := null, 0;
    var result := Compare(data, current.data);
    if result < 0 {
      if current.left != null {
        found, calls := Lookup(current.left, data, t.left);
      }
    } else if result > 0 {
      if current.right != null {
        found, calls := Lookup(current.right, data, t.right);
      }
    } else {
      found := current;
    }
    calls := calls + 1;
  }

  /** `rb_sanity_check` */
  method SanityCheck(node: RbNode?, ghost t: RbTree) returns (height: nat)
    requires Shape(node, t)
    ensures height == Sanity(t)
    decreases t
  {
    height := 0;
    if node == null {
      height := 1;
    } else {
      assert allocated(Refs(t.left)) && allocated(Refs(t.right));
      var left := SanityCheck(node.left, t.left);
      var right := SanityCheck(node.right, t.right);
      if left != 0 && right != 0 && left == right {
        height := if NodeIsRed(node) then left else left + 1;
      }
    }
  }

  class RedBlackTree {
    var root: RbNode?
    var numNodes: nat     // counts attach calls, so also those for a key already present
    ghost var tree: RbTree

    ghost predicate Valid()
      reads this, Refs(tree)
    {
      Spells(root, tree) && RedBlack(tree) && StrictlyOrdered(tree) && Size(tree) <= numNodes
    }

    constructor ()
      ensures Valid() && tree == Nil && numNodes == 0
    {
      root, numNodes, tree := null, 0, Nil;
    }

    /** `RBtree_attach` */
    method Attach(data: Payload) returns (ghost node: RbNode)
      requires Valid()
      modifies this, Refs(tree)
      ensures Valid() && numNodes == old(numNodes) + 1 && fresh(node)
      ensures tree == RedBlackSpec.Attach(old(tree), node, data)
      ensures InOrder(tree) == InsertNew(InOrder(old(tree)), data)
    {
      assert allocated(Refs(tree));
      var attached := new RbNode(data);
      node := attached;
      AttachListed(tree, attached, data);
      AttachRedBlack(tree, attached, data);
      AttachSize(tree, attached, data);
      NodeAttachRefs(tree, attached, data);
      if root != null {
        root := AttachNode(root, attached, tree);
      } else {
        root := attached;
      }
      Paint(root, Black, NodeAttach(tree, attached, data));
      numNodes := numNodes + 1;
      tree := RedBlackSpec.Attach(tree, attached, data);
    }

    /** A lookup answers membership with at most 2 log2(n + 1) comparisons. */
    method Contains(data: Payload) returns (found: bool, calls: nat)
      requires Valid()
      ensures found <==> !LacksKey(InOrder(tree), data.key)
      ensures calls <= 2 * Log2(Size(tree) + 1)
    {
      FoundIsListed(tree, data.key);
      RedBlackHeight(tree);
      found, calls := false, 0;
      if root != null {
        var node, count := Lookup(root, data, tree);
        found, calls := node != null, count;
      }
    }

    /** Every tree built by attaching passes the sanity check. */
    method Check() returns (height: nat)
      requires Valid()
      ensures height > 0 && EveryPathHas(tree, height - 1)
    {
      RedBlackIsSane(tree);
      SanityMeaning(tree);
      height := SanityCheck(root, tree);
    }
  }
}
