/** The three ways in which the plain tree's removal goes wrong, each on the smallest
    tree that attaching builds. */
module BinarySearchTreeFailures {
  import opened Payloads
  import opened Trees
  import opened TreeNodes
  import opened TreePaths
  import opened BinarySearchTree

  /** Payloads attached one after the other to an empty tree. */
  ghost function Attached(n: seq<Node>, x: seq<Payload>): NodeTree
    requires |n| == |x|
  {
    if x == [] then Nil else Insert(Attached(n[..|x| - 1], x[..|x| - 1]), n[|x| - 1], x[|x| - 1])
  }

  lemma AttachedTwo(n: seq<Node>, x: seq<Payload>)
    requires |n| == |x| == 2
    ensures Attached(n, x) == Insert(Insert(Nil, n[0], x[0]), n[1], x[1])
  {
    assert Attached(n[..1][..0], x[..1][..0]) == Nil;
  }

  lemma AttachedThree(n: seq<Node>, x: seq<Payload>)
    requires |n| == |x| == 3
    ensures Attached(n, x) == Insert(Insert(Insert(Nil, n[0], x[0]), n[1], x[1]), n[2], x[2])
  {
    AttachedTwo(n[..2], x[..2]);
  }

  lemma LeafAlone(n: Node, p: Payload)
    ensures Searchable(Leaf(n, p)) && Unshared(Leaf(n, p)) && Refs(Leaf(n, p)) == {n}
  {
  }

  lemma LeafBounds(n: Node, p: Payload, k: int)
    ensures (Below(Leaf(n, p), k) <==> p.key < k) && (AtLeast(Leaf(n, p), k) <==> k <= p.key)
  {
  }

  /** The victim of the last two trees, with its successor as right child. */
  ghost function Victim(n: Node, p: Payload, m: Node, q: Payload): (v: NodeTree)
    requires n != m && p.key < q.key
    ensures v == Bin(n, Nil, p, Leaf(m, q)) && Searchable(v) && Unshared(v) && Refs(v) == {n, m} && Found(v, p.key) == v
    ensures Insert(Leaf(n, p), m, q) == v && !SpliceSafe(v)
  {
    LeafBounds(m, q, p.key);
    LeafAlone(m, q);
    LeafInserts(n, p, m, q);
    Bin(n, Nil, p, Leaf(m, q))
  }

  lemma VictimBounds(n: Node, p: Payload, m: Node, q: Payload, k: int)
    requires n != m && p.key < q.key
    ensures q.key < k ==> Below(Victim(n, p, m, q), k)
    ensures k <= p.key ==> AtLeast(Victim(n, p, m, q), k)
  {
    LeafBounds(m, q, k);
  }

  ghost predicate Different(n: seq<Node>) {
    forall i, j :: 0 <= i < j < |n| ==> n[i] != n[j]
  }

  /** Attach 0 and 1, remove 0: the victim is the root, and a null pointer is followed. */
  lemma RootVictim(n: seq<Node>, x: seq<Payload>)
    requires |n| == |x| == 2 && Different(n) && x[0].key == 0 && x[1].key == 1
    ensures Searchable(Attached(n, x)) && Unshared(Attached(n, x)) && Outcome(Attached(n, x), 0) == NullDereference
  {
    AttachedTwo(n, x);
  }

  /** Attach 2, 0 and 1, remove 0: the victim is a left child, and the node of 1 is lost
      with it. */
  lemma LeftVictim(root: Node?, n: seq<Node>, x: seq<Payload>)
    requires |n| == |x| == 3 && Different(n) && x[0].key == 2 && x[1].key == 0 && x[2].key == 1
    ensures var t := Attached(n, x);
      && Searchable(t) && Unshared(t) && Outcome(t, 0) == Removed && FoundPath(t, 0) == L(Here)
      && Leads(t, L(Here)) && Down(t, L(Here)).Bin?
      && (Unlinked(root, t, L(Here)) ==> Spells(root, Bin(n[0], Nil, x[0], Nil)))
  {
    AttachedThree(n, x);
    LeafInserts(n[0], x[0], n[1], x[1]);
    VictimBounds(n[1], x[1], n[2], x[2], 2);
    var v := Victim(n[1], x[1], n[2], x[2]);
    assert Insert(Bin(n[0], Leaf(n[1], x[1]), x[0], Nil), n[2], x[2]) == Bin(n[0], v, x[0], Nil);
    assert Replace(Bin(n[0], v, x[0], Nil), L(Here), Nil) == Leaf(n[0], x[0]);
    assert EndsLeft(L(Here)) && Found(v, 0) == v;
  }

  /** Attach 0, 1 and 2, remove 1: the victim is a right child, and the node of 2 becomes
      its own right child; what is left is no tree. */
  lemma RightVictim(root: Node?, n: seq<Node>, x: seq<Payload>)
    requires |n| == |x| == 3 && Different(n) && x[0].key == 0 && x[1].key == 1 && x[2].key == 2
    ensures var t := Attached(n, x);
      && Searchable(t) && Unshared(t) && Outcome(t, 1) == Removed && FoundPath(t, 1) == R(Here)
      && Leads(t, R(Here)) && Down(t, R(Here)).Bin?
      && (Unlinked(root, t, R(Here)) ==> n[2].right == n[2] && forall t' :: !Shape(root, t'))
  {
    AttachedThree(n, x);
    LeafInserts(n[0], x[0], n[1], x[1]);
    VictimBounds(n[1], x[1], n[2], x[2], 0);
    var v := Victim(n[1], x[1], n[2], x[2]);
    var t := Bin(n[0], Nil, x[0], v);
    assert Insert(Bin(n[0], Nil, x[0], Leaf(n[1], x[1])), n[2], x[2]) == t;
    if Unlinked(root, t, R(Here)) {
      forall t'
        ensures !Shape(root, t')
      {
        if Shape(root, t') {
          SelfLinkSpellsNothing(n[2], t'.right);
        }
      }
    }
  }
}
