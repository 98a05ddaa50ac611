/** The walks over a search tree: three ways to show it, and the one that frees it. */
module TreeTraversal {
  import opened Payloads
  import opened Trees
  import opened TreeNodes
  import opened TreePaths

  ghost function PreOrder(t: NodeTree): seq<Payload> {
    if t.Nil? then [] else [t.item] + PreOrder(t.left) + PreOrder(t.right)
  }

  ghost function PostOrder(t: NodeTree): seq<Payload> {
    if t.Nil? then [] else PostOrder(t.left) + PostOrder(t.right) + [t.item]
  }

  /** The nodes, children before their parent. */
  ghost function PostNodes(t: NodeTree): seq<Node> {
    if t.Nil? then [] else PostNodes(t.left) + PostNodes(t.right) + [t.at]
  }

  /** `traverse_inorder`: what is shown, in order. */
  method TraverseInorder(node: Node, ghost t: NodeTree) returns (shown: seq<Payload>)
    requires Shape(node, t)
    ensures shown == InOrder(t)
    decreases t
  {
    assert allocated(Refs(t.left)) && allocated(Refs(t.right));
    shown := [];
    if node.left != null {
      var side := TraverseInorder(node.left, t.left);
      shown := shown + side;
    }
    shown := shown + [node.data];
    if node.right != null {
      var side := TraverseInorder(node.right, t.right);
      shown := shown + side;
    }
  }

  /** `traverse_preorder` */
  method TraversePreorder(node: Node, ghost t: NodeTree) returns (shown: seq<Payload>)
    requires Shape(node, t)
    ensures shown == PreOrder(t)
    decreases t
  {
    assert allocated(Refs(t.left)) && allocated(Refs(t.right));
    shown := [];
    shown := shown + [node.data];
    if node.left != null {
      var side := TraversePreorder(node.left, t.left);
      shown := shown + side;
    }
    if node.right != null {
      var side := TraversePreorder(node.right, t.right);
      shown := shown + side;
    }
  }

  /** `traverse_postorder` */
  method TraversePostorder(node: Node, ghost t: NodeTree) returns (shown: seq<Payload>)
    requires Shape(node, t)
    ensures shown == PostOrder(t)
    decreases t
  {
    assert allocated(Refs(t.left)) && allocated(Refs(t.right));
    shown := [];
    if node.left != null {
      var side := TraversePostorder(node.left, t.left);
      shown := shown + side;
    }
    if node.right != null {
      var side := TraversePostorder(node.right, t.right);
      shown := shown + side;
    }
    shown := shown + [node.data];
  }

  /** The three walks show the same payloads, each as often as it is stored. */
  lemma {:induction false} WalksAgree(t: NodeTree)
    ensures multiset(PreOrder(t)) == multiset(InOrder(t)) == multiset(PostOrder(t))
  {
    if t.Bin? {
      WalksAgree(t.left);
      WalksAgree(t.right);
    }
  }

  /** The nodes, parents before their children. */
  ghost function PreNodes(t: NodeTree): seq<Node> {
    if t.Nil? then [] else [t.at] + PreNodes(t.left) + PreNodes(t.right)
  }

  /** `y` is below `x`. */
  ghost predicate Under(t: NodeTree, x: Node, y: Node) {
    t.Bin? && (Under(t.left, x, y) || Under(t.right, x, y) || (x == t.at && y in Refs(t.left) + Refs(t.right)))
  }

  /** Some node has `x` on its left side and `y` on its right side. */
  ghost predicate LeftOf(t: NodeTree, x: Node, y: Node) {
    t.Bin? && (LeftOf(t.left, x, y) || LeftOf(t.right, x, y) || (x in Refs(t.left) && y in Refs(t.right)))
  }

  lemma {:induction false} RelatedInside(t: NodeTree, x: Node, y: Node)
    ensures Under(t, x, y) || LeftOf(t, x, y) ==> x in Refs(t) && y in Refs(t)
  {
    if t.Bin? {
      RelatedInside(t.left, x, y);
      RelatedInside(t.right, x, y);
    }
  }

  /** In a tree without sharing the two relations leave no choice: a pair of nodes is
      in one of them at most, and in one direction. */
  lemma {:induction false} OneRelation(t: NodeTree, x: Node, y: Node)
    requires Unshared(t)
    ensures Under(t, x, y) ==> x != y && !LeftOf(t, x, y) && !Under(t, y, x) && !LeftOf(t, y, x)
    ensures LeftOf(t, x, y) ==> x != y && !Under(t, x, y) && !Under(t, y, x) && !LeftOf(t, y, x)
  {
    if t.Bin? {
      OneRelation(t.left, x, y);
      OneRelation(t.right, x, y);
      RelatedInside(t.left, x, y);
      RelatedInside(t.right, x, y);
      RelatedInside(t.left, y, x);
      RelatedInside(t.right, y, x);
    }
  }

  lemma {:induction false} WalkedNodes(t: NodeTree)
    ensures |PreNodes(t)| == |PreOrder(t)| == Size(t) && |PostNodes(t)| == |PostOrder(t)| == Size(t)
    ensures forall i :: 0 <= i < Size(t) ==> PreNodes(t)[i] in Refs(t) && PostNodes(t)[i] in Refs(t)
    ensures forall n :: n in Refs(t) ==> n in PreNodes(t) && n in PostNodes(t)
  {
    if t.Bin? {
      WalkedNodes(t.left);
      WalkedNodes(t.right);
    }
  }

  lemma JoinAt(a: seq<Node>, b: seq<Node>, c: seq<Node>, i: nat)
    requires i < |a| + |b| + |c|
    ensures (a + b + c)[i] == if i < |a| then a[i] else if i < |a| + |b| then b[i - |a|] else c[i - |a| - |b|]
  {
  }

  lemma PreAt(t: NodeTree, i: nat, n: Node)
    requires i < |PreNodes(t)| && n == PreNodes(t)[i]
    ensures |PreNodes(t)| == 1 + |PreNodes(t.left)| + |PreNodes(t.right)|
    ensures var k := |PreNodes(t.left)|;
      if i == 0 then n == t.at
      else if i <= k then n == PreNodes(t.left)[i - 1] && n in Refs(t.left)
      else n == PreNodes(t.right)[i - 1 - k] && n in Refs(t.right)
  {
    var l, r := PreNodes(t.left), PreNodes(t.right);
    WalkedNodes(t.left);
    WalkedNodes(t.right);
    JoinAt([t.at], l, r, i);
  }

  /** Whatever the pre-order walk meets later is below or to the right. */
  lemma {:induction false} PreOrdered(t: NodeTree, i: nat, j: nat)
    requires i < j < |PreNodes(t)|
    ensures Under(t, PreNodes(t)[i], PreNodes(t)[j]) || LeftOf(t, PreNodes(t)[i], PreNodes(t)[j])
  {
    var k := |PreNodes(t.left)|;
    PreAt(t, i, PreNodes(t)[i]);
    PreAt(t, j, PreNodes(t)[j]);
    if 0 < i && j <= k {
      PreOrdered(t.left, i - 1, j - 1);
    } else if i > k {
      PreOrdered(t.right, i - 1 - k, j - 1 - k);
    }
  }

  lemma PostAt(t: NodeTree, i: nat, n: Node)
    requires i < |PostNodes(t)| && n == PostNodes(t)[i]
    ensures |PostNodes(t)| == |PostNodes(t.left)| + |PostNodes(t.right)| + 1
    ensures var k := |PostNodes(t.left)|;
      if i == |PostNodes(t)| - 1 then n == t.at
      else if i < k then n == PostNodes(t.left)[i] && n in Refs(t.left)
      else n == PostNodes(t.right)[i - k] && n in Refs(t.right)
  {
    var l, r := PostNodes(t.left), PostNodes(t.right);
    WalkedNodes(t.left);
    WalkedNodes(t.right);
    JoinAt(l, r, [t.at], i);
  }

  /** Whatever the post-order walk meets later is above or to the right. */
  lemma {:induction false} PostOrdered(t: NodeTree, i: nat, j: nat)
    requires i < j < |PostNodes(t)|
    ensures Under(t, PostNodes(t)[j], PostNodes(t)[i]) || LeftOf(t, PostNodes(t)[i], PostNodes(t)[j])
  {
    var k := |PostNodes(t.left)|;
    PostAt(t, i, PostNodes(t)[i]);
    PostAt(t, j, PostNodes(t)[j]);
    if j < k {
      PostOrdered(t.left, i, j);
    } else if k <= i && j < |PostNodes(t)| - 1 {
      PostOrdered(t.right, i - k, j - k);
    }
  }

  /** What the walks show are the payloads of the nodes they meet. */
  lemma {:induction false} WalksShowNodes(n: Node?, t: NodeTree)
    requires Shape(n, t)
    ensures |PreNodes(t)| == |PreOrder(t)| == |PostNodes(t)| == |PostOrder(t)| == Size(t)
    ensures forall i :: 0 <= i < Size(t) ==>
      PreNodes(t)[i].data == PreOrder(t)[i] && PostNodes(t)[i].data == PostOrder(t)[i]
  {
    if t.Bin? {
      WalksShowNodes(t.at.left, t.left);
      WalksShowNodes(t.at.right, t.right);
    }
  }

  /** The root comes first, or last; each side keeps together, the left one before the
      right one. */
  lemma WalkPlaces(t: NodeTree)
    requires t.Bin?
    ensures |PreOrder(t)| == |PostOrder(t)| == Size(t) && Size(t) == 1 + Size(t.left) + Size(t.right)
    ensures PreOrder(t)[0] == t.item == PostOrder(t)[Size(t) - 1]
    ensures PreOrder(t)[1..1 + Size(t.left)] == PreOrder(t.left)
    ensures PreOrder(t)[1 + Size(t.left)..] == PreOrder(t.right)
    ensures PostOrder(t)[..Size(t.left)] == PostOrder(t.left)
    ensures PostOrder(t)[Size(t.left)..Size(t) - 1] == PostOrder(t.right)
  {
    WalkedNodes(t);
    WalkedNodes(t.left);
    WalkedNodes(t.right);
  }

  /** `destroy_all_nodes`: what is freed, and what the `remove` callback is given. */
  method DestroyAllNodes(tag: SearchTree, node: Node, ghost t: NodeTree) returns (freed: seq<Node>)
    requires Spells(node, t)
    modifies tag`removed
    ensures freed == PostNodes(t)
    ensures tag.removed == old(tag.removed) + if tag.notifies then PostOrder(t) else []
    decreases t
  {
    assert allocated(Refs(t.left)) && allocated(Refs(t.right));
    ghost var before, left, right := tag.removed, PostOrder(t.left), PostOrder(t.right);
    freed := [];
    if node.left != null {
      freed := DestroyAllNodes(tag, node.left, t.left);
    }
    if node.right != null {
      var rest := DestroyAllNodes(tag, node.right, t.right);
      freed := freed + rest;
    }
    if tag.notifies {
      tag.removed := tag.removed + [node.data];
      Joined(before, left, right);
      Joined(before, left + right, [t.item]);
    }
    freed := freed + [node];
  }

  /** Every node is freed, once, and the root after all others. */
  lemma {:induction false} FreedOnce(t: NodeTree)
    requires Unshared(t)
    ensures forall i :: 0 <= i < |PostNodes(t)| ==> PostNodes(t)[i] in Refs(t)
    ensures forall n :: n in Refs(t) ==> n in PostNodes(t)
    ensures forall i, j :: 0 <= i < j < |PostNodes(t)| ==> PostNodes(t)[i] != PostNodes(t)[j]
    ensures t.Bin? ==> PostNodes(t)[|PostNodes(t)| - 1] == t.at
  {
    if t.Bin? {
      FreedOnce(t.left);
      FreedOnce(t.right);
    }
  }
}
