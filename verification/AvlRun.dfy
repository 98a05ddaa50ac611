/** Runs of attaches and removals on an AVL tree, and a run after which an attach
    follows a null link. */
module AvlRun {
  import opened Payloads
  import opened Trees
  import opened TreeNodes
  import opened AvlSpec

  datatype Op = AttachOp(node: Node, data: Payload) | RemoveOp(data: Payload)

  ghost function Apply(t: NodeTree, op: Op): NodeTree {
    match op
    case AttachOp(n, p) => if LandsBesideTall(t, p) then t else Attach(t, n, p)
    case RemoveOp(p) => Remove(t, p)
  }

  /** The tree after the operations, the last one last. */
  ghost function After(ops: seq<Op>): NodeTree {
    if ops == [] then Nil else Apply(After(ops[..|ops| - 1]), ops[|ops| - 1])
  }

  /** What should be in it: what was attached and not removed since. */
  ghost function Held(ops: seq<Op>): set<Payload> {
    if ops == [] then {}
    else
      var before := Held(ops[..|ops| - 1]);
      match ops[|ops| - 1]
      case AttachOp(_, p) => before + {p}
      case RemoveOp(p) => set q | q in before && q.key != p.key
  }

  /** Attaches are of absent keys and never land beside a tall side. */
  ghost predicate Allowed(ops: seq<Op>) {
    ops != [] ==>
      var before, last := ops[..|ops| - 1], ops[|ops| - 1];
      && Allowed(before)
      && (last.AttachOp? ==>
            (forall q :: q in Held(before) ==> q.key != last.data.key) && !LandsBesideTall(After(before), last.data))
  }

  /** The listing is the set, in strictly increasing order of keys. */
  ghost predicate Lists(t: NodeTree, held: set<Payload>) {
    && StrictlySorted(InOrder(t)) && Size(t) == |held|
    && (forall q :: q in InOrder(t) ==> q in held) && (forall q :: q in held ==> q in InOrder(t))
  }

  lemma StrictIsOrdered(t: NodeTree)
    requires StrictlySorted(InOrder(t))
    ensures StrictlyOrdered(t) && Ordered(t)
  {
    StrictlyOrderedIsSorted(t);
    OrderedIsSorted(t);
  }

  lemma InsertedMembers(s: seq<Payload>, p: Payload, q: Payload)
    ensures q in InsertUpper(s, p) <==> q in s || q == p
  {
    InsertUpperElements(s, p);
    assert q in InsertUpper(s, p) <==> q in multiset(InsertUpper(s, p));
    assert q in s <==> q in multiset(s);
  }

  lemma AttachLists(t: NodeTree, held: set<Payload>, n: Node, p: Payload)
    requires Lists(t, held) && !LandsBesideTall(t, p) && forall q :: q in held ==> q.key != p.key
    ensures Lists(Attach(t, n, p), held + {p})
  {
    var s := InOrder(t);
    StrictIsOrdered(t);
    AttachTheorem(t, n, p);
    AttachNodes(t, n, p);
    HeldLacks(s, held, p.key);
    InsertNewStrict(s, p);
    SizeIsLength(Attach(t, n, p));
    forall q | q in InOrder(Attach(t, n, p))
      ensures q in held + {p}
    {
      InsertedMembers(s, p, q);
    }
    forall q | q in held + {p}
      ensures q in InOrder(Attach(t, n, p))
    {
      InsertedMembers(s, p, q);
    }
  }

  lemma HeldLacks(s: seq<Payload>, held: set<Payload>, k: int)
    requires (forall q :: q in s ==> q in held) && forall q :: q in held ==> q.key != k
    ensures LacksKey(s, k)
  {
  }

  lemma RemovedMembers(s: seq<Payload>, k: int, q: Payload)
    requires StrictlySorted(s)
    ensures q in RemoveFirst(s, k) <==> q in s && q.key != k
  {
    var i, r := FirstIndex(s, k), RemoveFirst(s, k);
    RemoveFirstStrict(s, k);
    if i < |s| {
      assert s == s[..i] + [s[i]] + s[i + 1..];
      assert q in s <==> q in s[..i] || q == s[i] || q in s[i + 1..];
    }
  }

  lemma RemovedCount(held: set<Payload>, s: seq<Payload>, k: int)
    requires StrictlySorted(s) && |s| == |held| && forall q :: q in s <==> q in held
    ensures |RemoveFirst(s, k)| == |set q | q in held && q.key != k|
  {
    var i, left := FirstIndex(s, k), set q | q in held && q.key != k;
    if i < |s| {
      assert s[i] in held;
      forall q | q in held && q != s[i]
        ensures q.key != k
      {
        var j :| 0 <= j < |s| && s[j] == q;
      }
      assert left == held - {s[i]};
    } else {
      forall q | q in held
        ensures q.key != k
      {
        assert q in s;
      }
      assert left == held;
    }
  }

  lemma RemoveLists(t: NodeTree, held: set<Payload>, p: Payload)
    requires Lists(t, held)
    ensures Lists(Remove(t, p), set q | q in held && q.key != p.key)
  {
    var s := InOrder(t);
    StrictIsOrdered(t);
    RemoveTheorem(t, p);
    StrictlyOrderedIsSorted(Remove(t, p));
    SizeIsLength(t);
    SizeIsLength(Remove(t, p));
    RemovedCount(held, s, p.key);
    forall q
      ensures q in InOrder(Remove(t, p)) <==> q in held && q.key != p.key
    {
      RemovedMembers(s, p.key, q);
    }
  }

  /** Over every run that attaches absent keys only and never lands beside a tall side,
      balanced or not in between, the tree lists exactly what was attached and not
      removed since, in order. */
  lemma {:induction false} RunTheorem(ops: seq<Op>)
    requires Allowed(ops)
    ensures Lists(After(ops), Held(ops))
  {
    if ops != [] {
      var before, last := ops[..|ops| - 1], ops[|ops| - 1];
      RunTheorem(before);
      match last
      case AttachOp(n, p) => AttachLists(After(before), Held(before), n, p);
      case RemoveOp(p) => RemoveLists(After(before), Held(before), p);
    }
  }

  // ------------------------------------------------------- an attach that crashes

  lemma {:induction false} NoPivot(t: NodeTree, p: Payload)
    requires Balanced(t)
    ensures !HasPivot(t, p)
  {
    if t.Bin? {
      NoPivot(Toward(t, p), p);
    }
  }

  /** One more attach that needs no rotation. */
  lemma BuildInserts(nodes: seq<Node>, payloads: seq<Payload>, k: nat, t: NodeTree, t': NodeTree)
    requires k < |nodes| == |payloads| && Build(nodes[..k], payloads[..k]) == t
    requires Insert(t, nodes[k], payloads[k]) == t' && Balanced(t')
    ensures Build(nodes[..k + 1], payloads[..k + 1]) == t'
  {
    assert nodes[..k + 1][..k] == nodes[..k] && payloads[..k + 1][..k] == payloads[..k];
    NoPivot(t', payloads[k]);
  }

  /** A node over balanced sides of nearly the same height. */
  ghost function Fork(n: Node, l: NodeTree, p: Payload, r: NodeTree): (t: NodeTree)
    requires Balanced(l) && Balanced(r) && -1 <= Height(l) - Height(r) <= 1
    ensures t == Bin(n, l, p, r) && Balanced(t)
    ensures Height(t) == 1 + if Height(l) > Height(r) then Height(l) else Height(r)
  {
    Bin(n, l, p, r)
  }

  ghost predicate Keys(x: seq<Payload>) {
    && |x| == 8 && x[0].key == 2 && x[1].key == 1 && x[2].key == 5 && x[3].key == 0
    && x[4].key == 3 && x[5].key == 6 && x[6].key == 4 && x[7].key == 7
  }

  lemma BuildTwo(n: seq<Node>, x: seq<Payload>)
    requires |n| == 8 && Keys(x)
    ensures Build(n[..2], x[..2]) == Fork(n[0], Leaf(n[1], x[1]), x[0], Nil)
  {
    assert Build(n[..0], x[..0]) == Nil;
    LeafInserts(n[0], x[0], n[1], x[1]);
    BuildInserts(n, x, 0, Nil, Leaf(n[0], x[0]));
    BuildInserts(n, x, 1, Leaf(n[0], x[0]), Fork(n[0], Leaf(n[1], x[1]), x[0], Nil));
  }

  lemma BuildThree(n: seq<Node>, x: seq<Payload>)
    requires |n| == 8 && Keys(x)
    ensures Build(n[..3], x[..3]) == Fork(n[0], Leaf(n[1], x[1]), x[0], Leaf(n[2], x[2]))
  {
    var left, right := Leaf(n[1], x[1]), Leaf(n[2], x[2]);
    BuildTwo(n, x);
    LeafInserts(n[2], x[2], n[2], x[2]);
    BuildInserts(n, x, 2, Fork(n[0], left, x[0], Nil), Fork(n[0], left, x[0], right));
  }

  lemma BuildFour(n: seq<Node>, x: seq<Payload>)
    requires |n| == 8 && Keys(x)
    ensures Build(n[..4], x[..4]) == Fork(n[0], Fork(n[1], Leaf(n[3], x[3]), x[1], Nil), x[0], Leaf(n[2], x[2]))
  {
    var left, right := Leaf(n[1], x[1]), Leaf(n[2], x[2]);
    BuildThree(n, x);
    LeafInserts(n[1], x[1], n[3], x[3]);
    BuildInserts(n, x, 3, Fork(n[0], left, x[0], right),
                 Fork(n[0], Fork(n[1], Leaf(n[3], x[3]), x[1], Nil), x[0], right));
  }

  /** The right side of the root after the first `k` attaches. */
  ghost function Side(n: seq<Node>, x: seq<Payload>, k: nat): (t: NodeTree)
    requires |n| == |x| == 8 && 4 <= k <= 8
    ensures Balanced(t) && 1 <= Height(t) <= 3 && (k == 8 ==> Height(t) == 3 && Balance(t) == 0)
  {
    if k == 4 then Leaf(n[2], x[2])
    else if k == 5 then Fork(n[2], Leaf(n[4], x[4]), x[2], Nil)
    else if k == 6 then Fork(n[2], Leaf(n[4], x[4]), x[2], Leaf(n[5], x[5]))
    else if k == 7 then Fork(n[2], Fork(n[4], Nil, x[4], Leaf(n[6], x[6])), x[2], Leaf(n[5], x[5]))
    else Fork(n[2], Fork(n[4], Nil, x[4], Leaf(n[6], x[6])), x[2], Fork(n[5], Nil, x[5], Leaf(n[7], x[7])))
  }

  lemma SideInserts(n: seq<Node>, x: seq<Payload>, k: nat)
    requires |n| == 8 && Keys(x) && 4 <= k < 8
    ensures Insert(Side(n, x, k), n[k], x[k]) == Side(n, x, k + 1) && x[k].key >= x[0].key
  {
    LeafInserts(n[2], x[2], n[4], x[4]);
    LeafInserts(n[4], x[4], n[6], x[6]);
    LeafInserts(n[5], x[5], n[7], x[7]);
  }

  /** An attach to the right of the root, without a rotation. */
  lemma BuildsRight(n: seq<Node>, x: seq<Payload>, k: nat, l: NodeTree, r: NodeTree, r': NodeTree)
    requires 0 < k < |n| == |x| && x[k].key >= x[0].key && Balanced(l) && Balanced(r) && Balanced(r')
    requires -1 <= Height(l) - Height(r) <= 1 && -1 <= Height(l) - Height(r') <= 1
    requires Build(n[..k], x[..k]) == Fork(n[0], l, x[0], r) && Insert(r, n[k], x[k]) == r'
    ensures Build(n[..k + 1], x[..k + 1]) == Fork(n[0], l, x[0], r')
  {
    BuildInserts(n, x, k, Fork(n[0], l, x[0], r), Fork(n[0], l, x[0], r'));
  }

  /** Left of the root: the keys 1 and 0. */
  ghost function LeftSide(n: seq<Node>, x: seq<Payload>): (t: NodeTree)
    requires |n| == |x| == 8
    ensures Balanced(t) && Height(t) == 2
  {
    Fork(n[1], Leaf(n[3], x[3]), x[1], Nil)
  }

  lemma {:induction false} BuildsMore(n: seq<Node>, x: seq<Payload>, k: nat)
    requires |n| == 8 && Keys(x) && 4 <= k <= 8
    ensures Build(n[..k], x[..k]) == Fork(n[0], LeftSide(n, x), x[0], Side(n, x, k))
  {
    if k == 4 {
      BuildFour(n, x);
    } else {
      BuildsMore(n, x, k - 1);
      SideInserts(n, x, k - 1);
      BuildsRight(n, x, k - 1, LeftSide(n, x), Side(n, x, k - 1), Side(n, x, k));
    }
  }

  /** Removing on the left of a root at most two higher on the right, with an even
      right side, leaves the right side as it is. */
  lemma LeftRemoves(root: Node, l: NodeTree, p: Payload, r: NodeTree, q: Payload)
    requires q.key < p.key && Height(Remove(l, q)) <= Height(r) && r.Bin? && Balance(r) == 0
    ensures Remove(Bin(root, l, p, r), q) == Bin(root, Remove(l, q), p, r)
  {
  }

  /** Attach 2, 1, 5, 0, 3, 6, 4, 7, remove 0 and 1: the next attach of a key below 2
      follows a null link. */
  lemma AttachFollowsNull(n: seq<Node>, x: seq<Payload>, p: Payload)
    requires |n| == 8 && Keys(x) && p.key < 2
    ensures LandsBesideTall(Remove(Remove(Build(n, x), x[3]), x[1]), p)
  {
    var left, right := LeftSide(n, x), Side(n, x, 8);
    BuildsMore(n, x, 8);
    assert n[..8] == n && x[..8] == x;
    assert Remove(left, x[3]) == Leaf(n[1], x[1]) by {
      assert Remove(Leaf(n[3], x[3]), x[3]) == Nil;
    }
    LeftRemoves(n[0], left, x[0], right, x[3]);
    assert Remove(Leaf(n[1], x[1]), x[1]) == Nil;
    LeftRemoves(n[0], Leaf(n[1], x[1]), x[0], right, x[1]);
  }
}
