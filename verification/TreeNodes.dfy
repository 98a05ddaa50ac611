/** The linked nodes of the plain search trees and of the AVL trees, which share
    one layout, and the tree value that such nodes spell out. */
module TreeNodes {
  import opened Payloads
  import opened Trees

  class Node {
    var data: Payload
    var left: Node?
    var right: Node?

    constructor (data: Payload)
      ensures this.data == data && left == null && right == null
    {
      this.data := data;
      left, right := null, null;
    }
  }

  /** The node that holds an item stands for its place, so that a value says not
      only what is stored but also which nodes are linked, and how. */
  type NodeTree = Tree<Node>

  ghost function Refs(t: NodeTree): set<Node> {
    match t
    case Nil => {}
    case Bin(at, l, _, r) => {at} + Refs(l) + Refs(r)
  }

  /** No node occurs twice. */
  ghost predicate Unshared(t: NodeTree) {
    match t
    case Nil => true
    case Bin(at, l, _, r) =>
      at !in Refs(l) && at !in Refs(r) && Refs(l) !! Refs(r) && Unshared(l) && Unshared(r)
  }

  ghost function Root(t: NodeTree): Node? {
    if t.Nil? then null else t.at
  }

  /** The nodes reached from `n` spell out exactly `t`. */
  ghost predicate Shape(n: Node?, t: NodeTree)
    reads Refs(t)
    ensures Shape(n, t) ==> n == Root(t)
  {
    match t
    case Nil => n == null
    case Bin(at, l, x, r) => n == at && at.data == x && Shape(at.left, l) && Shape(at.right, r)
  }

  /** `Shape` without sharing: what every tree operation maintains. */
  ghost predicate Spells(n: Node?, t: NodeTree)
    reads Refs(t)
  {
    Shape(n, t) && Unshared(t)
  }

  /** The tree after hanging the new leaf `n` below `t`: left of greater keys,
      right of smaller and of equal ones. */
  ghost function Insert(t: NodeTree, n: Node, p: Payload): NodeTree {
    match t
    case Nil => Bin(n, Nil, p, Nil)
    case Bin(_, l, x, r) =>
      if Compare(p, x) < 0 then t.(left := Insert(l, n, p)) else t.(right := Insert(r, n, p))
  }

  lemma {:induction false} InsertRefs(t: NodeTree, n: Node, p: Payload)
    ensures Refs(Insert(t, n, p)) == Refs(t) + {n} && Size(Insert(t, n, p)) == Size(t) + 1
    ensures Unshared(t) && n !in Refs(t) ==> Unshared(Insert(t, n, p))
  {
    if t.Bin? {
      if Compare(p, t.item) < 0 {
        InsertRefs(t.left, n, p);
      } else {
        InsertRefs(t.right, n, p);
      }
    }
  }

  /** Attaching puts the payload behind its equals in the listing, and nothing
      else moves. */
  lemma {:induction false} InsertListed(t: NodeTree, n: Node, p: Payload)
    requires Ordered(t)
    ensures InOrder(Insert(t, n, p)) == InsertUpper(InOrder(t), p)
  {
    if t.Bin? {
      var l, x, r := InOrder(t.left), t.item, InOrder(t.right);
      if p.key < x.key {
        InsertListed(t.left, n, p);
        InsertUpperBefore(l, x, r, p);
      } else {
        InsertListed(t.right, n, p);
        BoundsListed(t.left, x.key);
        InsertUpperAfter(l, x, r, p);
      }
    } else {
      assert InOrder(t) == [];
    }
  }

  ghost function Leaf(n: Node, p: Payload): NodeTree {
    Bin(n, Nil, p, Nil)
  }

  lemma LeafInserts(n: Node, p: Payload, m: Node, q: Payload)
    ensures Insert(Nil, n, p) == Leaf(n, p)
    ensures q.key < p.key ==> Insert(Leaf(n, p), m, q) == Bin(n, Leaf(m, q), p, Nil)
    ensures q.key >= p.key ==> Insert(Leaf(n, p), m, q) == Bin(n, Nil, p, Leaf(m, q))
  {
  }

  /** `node_attach`, and `avl_node_attach`, which is the same code. */
  method NodeAttach(current: Node, attached: Node, ghost t: NodeTree)
    requires Spells(current, t) && attached !in Refs(t)
    requires attached.left == null && attached.right == null
    modifies Refs(t)
    ensures Spells(current, Insert(t, attached, attached.data))
    decreases t
  {
    InsertRefs(t, attached, attached.data);
    assert allocated(Refs(t.left)) && allocated(Refs(t.right));
    if Compare(attached.data, current.data) < 0 {
      if current.left != null {
        NodeAttach(current.left, attached, t.left);
        assert Shape(current.right, t.right);
      } else {
        current.left := attached;
        assert Shape(current.right, t.right);
      }
    } else {
      if current.right != null {
        NodeAttach(current.right, attached, t.right);
        assert Shape(current.left, t.left);
      } else {
        current.right := attached;
        assert Shape(current.left, t.left);
      }
    }
  }
}
