/** The AVL tree as the program runs it: linked nodes changed in place. Every
    method here is shown to do to the nodes what AvlSpec says on values. */
module AvlTree {
  import opened Payloads
  import opened Trees
  import opened TreeNodes
  import opened TreePaths
  import opened AvlSpec

  /** `avl_node_height` */
  method NodeHeight(node: Node, ghost t: NodeTree) returns (height: nat, balance: int)
    requires Shape(node, t)
    ensures height == Height(t) && balance == Balance(t)
    decreases t
  {
    assert allocated(Refs(t.left)) && allocated(Refs(t.right));
    var left: int, right: int, below: int := 0, 0, 0;
    if node.left != null {
      left, below := NodeHeight(node.left, t.left);
    }
    if node.right != null {
      right, below := NodeHeight(node.right, t.right);
    }
    balance := left - right;
    height := 1 + if left > right then left else right;
  }

  method RotationLL(node: Node, ghost t: NodeTree) returns (top: Node)
    requires Spells(node, t) && t.left.Bin?
    modifies Refs(t)
    ensures Spells(top, RotateLL(t))
  {
    RotateLLRearranges(t);
    assert Spells(node.left, t.left);
    assert allocated(Refs(t.left.left)) && allocated(Refs(t.left.right)) && allocated(Refs(t.right));
    top := node.left;
    node.left := top.right;
    top.right := node;
    assert Shape(top.left, t.left.left) && Shape(node.left, t.left.right) && Shape(node.right, t.right);
  }

  method RotationRR(node: Node, ghost t: NodeTree) returns (top: Node)
    requires Spells(node, t) && t.right.Bin?
    modifies Refs(t)
    ensures Spells(top, RotateRR(t))
  {
    RotateRRRearranges(t);
    assert Spells(node.right, t.right);
    assert allocated(Refs(t.right.left)) && allocated(Refs(t.right.right)) && allocated(Refs(t.left));
    top := node.right;
    node.right := top.left;
    top.left := node;
    assert Shape(node.left, t.left) && Shape(node.right, t.right.left) && Shape(top.right, t.right.right);
  }

  method RotationLR(node: Node, ghost t: NodeTree) returns (top: Node)
    requires Spells(node, t) && t.left.Bin? && t.left.right.Bin?
    modifies Refs(t)
    ensures Spells(top, RotateLR(t))
  {
    ghost var turned := RotateRR(t.left);
    RotateRRRearranges(t.left);
    assert allocated(Refs(t.left)) && allocated(Refs(t.right));
    var left := RotationRR(node.left, t.left);
    assert Shape(node.right, t.right);
    node.left := left;
    assert Shape(left, turned) && Shape(node.right, t.right);
    top := RotationLL(node, t.(left := turned));
  }

  method RotationRL(node: Node, ghost t: NodeTree) returns (top: Node)
    requires Spells(node, t) && t.right.Bin? && t.right.left.Bin?
    modifies Refs(t)
    ensures Spells(top, RotateRL(t))
  {
    ghost var turned := RotateLL(t.right);
    RotateLLRearranges(t.right);
    assert allocated(Refs(t.left)) && allocated(Refs(t.right));
    var right := RotationLL(node.right, t.right);
    assert Shape(node.left, t.left);
    node.right := right;
    assert Shape(right, turned) && Shape(node.left, t.left);
    top := RotationRR(node, t.(right := turned));
  }

  /** `avl_rebalance_ex` */
  method RebalanceOne(node: Node, ghost t: NodeTree) returns (top: Node)
    requires Spells(node, t)
    modifies Refs(t)
    ensures Spells(top, RebalanceNode(t))
  {
    assert allocated(Refs(t.left)) && allocated(Refs(t.right));
    var height, balance := NodeHeight(node, t);
    assert Shape(node.left, t.left) && Shape(node.right, t.right);
    top := node;
    if balance > 1 {
      height, balance := NodeHeight(node.left, t.left);
      assert Spells(node, t);
      if balance > 0 {
        top := RotationLL(node, t);
      } else if balance < 0 {
        top := RotationLR(node, t);
      }
    } else if balance < -1 {
      height, balance := NodeHeight(node.right, t.right);
      assert Spells(node, t);
      if balance < 0 {
        top := RotationRR(node, t);
      } else if balance > 0 {
        top := RotationRL(node, t);
      }
    }
  }

  /** The loop of `avl_rebalance`: the slot of the deepest node out of balance. */
  method FindPivot(tag: SearchTree, data: Payload, ghost t: NodeTree)
    returns (found: bool, pivot: Slot, ghost pivotPath: Path)
    requires Spells(tag.root, t)
    ensures found <==> HasPivot(t, data)
    ensures found ==> pivotPath == PivotPath(t, data) && Leads(t, pivotPath) && pivot == SlotOf(t, pivotPath)
  {
    var current := AtRoot;
    ghost var path, sub := Here, t;
    found, pivot, pivotPath := false, AtRoot, Here;
    while tag.At(current) != null
      invariant Leads(t, path) && sub == Down(t, path) && Shape(tag.At(current), sub)
      invariant current == SlotOf(t, path)
      invariant SeenPivot(t, data, path, found, pivotPath)
      invariant found ==> Leads(t, pivotPath) && pivot == SlotOf(t, pivotPath)
      decreases sub
    {
      var node := tag.At(current);
      assert allocated(Refs(sub.left)) && allocated(Refs(sub.right));
      var height, balance := NodeHeight(node, sub);
      assert Shape(node.left, sub.left) && Shape(node.right, sub.right);
      StepDown(t, path, Step(sub, data, Here));
      SeenPivotStep(t, data, path, found, pivotPath);
      if balance > 1 || balance < -1 {
        found, pivot, pivotPath := true, current, path;
      }
      if Compare(data, node.data) < 0 {
        current := LeftOf(node);
      } else {
        current := RightOf(node);
      }
      path := Join(path, Step(sub, data, Here));
      sub := Toward(sub, data);
    }
  }

  /** `avl_rebalance` */
  method Rebalance(tag: SearchTree, data: Payload, ghost t: NodeTree)
    requires Spells(tag.root, t) && PivotRotates(t, data)
    modifies tag`root, Refs(t)
    ensures Spells(tag.root, Repair(t, data))
  {
    assert allocated(Refs(t));
    var found, pivot, path := FindPivot(tag, data, t);
    RepairRearranges(t, data);
    if found {
      RepairIsReplacing(t, data);
      ghost var sub := Down(t, path);
      ShapeDown(tag.root, t, path);
      DownRefs(t, path);
      RotateRearranges(sub, data);
      if path != Here {
        ShapeAround(tag.root, t, path);
      }
      assert allocated(Refs(sub));
      var top := RotatePivot(tag.At(pivot), data, sub);
      tag.Redirect(pivot, top, t, path, Rotate(sub, data));
    }
  }

  method RotatePivot(node: Node, data: Payload, ghost t: NodeTree) returns (top: Node)
    requires Spells(node, t) && CanRotate(t, data)
    modifies Refs(t)
    ensures Spells(top, Rotate(t, data))
  {
    RotateRearranges(t, data);
    assert Shape(node.left, t.left) && Shape(node.right, t.right);
    if Compare(data, node.data) < 0 {
      if Compare(data, node.left.data) < 0 {
        top := RotationLL(node, t);
      } else {
        top := RotationLR(node, t);
      }
    } else {
      if Compare(data, node.right.data) < 0 {
        top := RotationRL(node, t);
      } else {
        top := RotationRR(node, t);
      }
    }
  }

  /** The middle of `AVLtree_attach`: hang the new node in, then rebalance. */
  method AttachNode(tag: SearchTree, attached: Node, data: Payload, ghost t: NodeTree)
    requires Spells(tag.root, t) && attached !in Refs(t) && !LandsBesideTall(t, data)
    requires attached.data == data && attached.left == null && attached.right == null
    modifies tag`root, Refs(t), attached
    ensures Spells(tag.root, AvlSpec.Attach(t, attached, data))
  {
    InsertRefs(t, attached, data);
    PivotRotatesUnlessBesideTall(t, attached, data);
    if tag.root != null {
      NodeAttach(tag.root, attached, t);
      Rebalance(tag, data, Insert(t, attached, data));
    } else {
      tag.root := attached;
    }
  }

  /** `AVLtree_attach` */
  method Attach(tag: SearchTree, data: Payload) returns (ghost node: Node)
    requires tag.Valid() && !LandsBesideTall(tag.tree, data)
    modifies tag, Refs(tag.tree)
    ensures tag.Valid() && tag.removed == old(tag.removed) && fresh(node)
    ensures tag.tree == AvlSpec.Attach(old(tag.tree), node, data)
  {
    assert allocated(Refs(tag.tree));
    var attached := new Node(data);
    node := attached;
    AttachNodes(tag.tree, attached, data);
    AttachNode(tag, attached, data, tag.tree);
    tag.numNodes := tag.numNodes + 1;
    tag.tree := AvlSpec.Attach(tag.tree, attached, data);
  }

  /** The loop of `avltree_remove`: the predecessor of the node above `node`. */
  method FindLast(node: Node, ghost t: NodeTree) returns (last: Payload)
    requires Shape(node, t)
    ensures last == Last(t)
  {
    var current: Node := node;
    ghost var sub := t;
    while current.right != null
      invariant Shape(current, sub) && Last(sub) == Last(t)
      decreases sub
    {
      current := current.right;
      sub := sub.right;
    }
    last := current.data;
  }

  /** `avltree_remove` */
  method RemoveNode(tag: SearchTree, node: Node?, data: Payload, ghost t: NodeTree) returns (top: Node?)
    requires Spells(node, t) && tag.numNodes >= Size(t)
    modifies tag`numNodes, tag`removed, Refs(t)
    ensures Spells(top, AvlSpec.Remove(t, data))
    ensures tag.numNodes == old(tag.numNodes) - Freed(t, data)
    ensures tag.removed == old(tag.removed) + if tag.notifies then Called(t, data) else []
    decreases Size(t), 2
  {
    if node == null {
      top := null;
    } else {
      if Compare(data, node.data) == 0 {
        if node.left == null || node.right == null {
          top := SpliceOut(tag, node, data, t);
        } else {
          top := CopyLast(tag, node, data, t);
        }
      } else {
        RemoveUnmatched(t, data);
        top := Descend(tag, node, data, t);
      }
    }
  }

  /** The matched node lacks a child: free it and search on below the other. */
  method SpliceOut(tag: SearchTree, node: Node, data: Payload, ghost t: NodeTree) returns (top: Node?)
    requires Spells(node, t) && Splices(t, data) && tag.numNodes >= Size(t)
    modifies tag`numNodes, tag`removed, Refs(t)
    ensures Spells(top, AvlSpec.Remove(t, data))
    ensures tag.numNodes == old(tag.numNodes) - Freed(t, data)
    ensures tag.removed == old(tag.removed) + if tag.notifies then Called(t, data) else []
    decreases Size(t), 1
  {
    assert allocated(Refs(t.left)) && allocated(Refs(t.right));
    RemoveWithSplice(t, data);
    var child := if node.left == null then node.right else node.left;
    if data != node.data && tag.notifies {
      tag.removed := tag.removed + [node.data];
    }
    tag.numNodes := tag.numNodes - 1;
    if child == null {
      top := null;
    } else {
      top := Descend(tag, child, data, OnlyChild(t));
      Joined(old(tag.removed), [t.item], Called(Ahead(OnlyChild(t), data), data));
    }
  }

  /** The matched node has two children: it takes over its predecessor, whose
      own node is then looked for on the left. */
  method CopyLast(tag: SearchTree, node: Node, data: Payload, ghost t: NodeTree) returns (top: Node?)
    requires Spells(node, t) && Compare(data, t.item) == 0 && !Splices(t, data) && tag.numNodes >= Size(t)
    modifies tag`numNodes, tag`removed, Refs(t)
    ensures Spells(top, AvlSpec.Remove(t, data))
    ensures tag.numNodes == old(tag.numNodes) - Freed(t, data)
    ensures tag.removed == old(tag.removed) + if tag.notifies then Called(t, data) else []
    decreases Size(t), 1
  {
    assert allocated(Refs(t.left)) && allocated(Refs(t.right));
    RemoveWithCopy(t, data);
    var last := FindLast(node.left, t.left);
    if tag.notifies {
      tag.removed := tag.removed + [node.data];
    }
    node.data := last;
    assert Shape(node.left, t.left) && Shape(node.right, t.right);
    top := Descend(tag, node, last, t.(item := last));
    Joined(old(tag.removed), [t.item], Called(t.left, last));
  }

  method Descend(tag: SearchTree, node: Node, wanted: Payload, ghost t: NodeTree) returns (top: Node)
    requires Spells(node, t) && tag.numNodes >= Size(t)
    modifies tag`numNodes, tag`removed, Refs(t)
    ensures Spells(top, SearchOn(t, wanted))
    ensures tag.numNodes == old(tag.numNodes) - Freed(Ahead(t, wanted), wanted)
    ensures tag.removed == old(tag.removed) + if tag.notifies then Called(Ahead(t, wanted), wanted) else []
    decreases Size(t), 0
  {
    assert allocated(Refs(t.left)) && allocated(Refs(t.right));
    RemoveThins(t.left, wanted);
    RemoveThins(t.right, wanted);
    ghost var changed;
    if Compare(wanted, node.data) <= 0 {
      var left := RemoveNode(tag, node.left, wanted, t.left);
      node.left := left;
      changed := t.(left := AvlSpec.Remove(t.left, wanted));
      assert Shape(node.right, t.right);
    } else {
      var right := RemoveNode(tag, node.right, wanted, t.right);
      node.right := right;
      changed := t.(right := AvlSpec.Remove(t.right, wanted));
      assert Shape(node.left, t.left);
    }
    assert Spells(node, changed);
    top := RebalanceOne(node, changed);
    RebalanceNodeRearranges(changed);
  }

  /** `AVLtree_remove` */
  method Remove(tag: SearchTree, data: Payload)
    requires tag.Valid()
    modifies tag, Refs(tag.tree)
    ensures tag.Valid() && tag.tree == AvlSpec.Remove(old(tag.tree), data)
    ensures tag.numNodes == old(tag.numNodes) - Freed(old(tag.tree), data)
    ensures tag.removed == old(tag.removed) + if tag.notifies then Called(old(tag.tree), data) else []
  {
    var top := RemoveNode(tag, tag.root, data, tag.tree);
    RemoveSize(tag.tree, data);
    tag.root := top;
    tag.tree := AvlSpec.Remove(tag.tree, data);
  }
}
