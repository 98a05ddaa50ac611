/** What the AVL operations do to the tree as a value, and what that achieves. */
module AvlSpec {
  import opened Payloads
  import opened Trees
  import opened TreeNodes
  import opened TreePaths

  ghost function Balance(t: NodeTree): int {
    if t.Nil? then 0 else Height(t.left) - Height(t.right)
  }

  ghost predicate Balanced(t: NodeTree) {
    t.Bin? ==> -1 <= Balance(t) <= 1 && Balanced(t.left) && Balanced(t.right)
  }

  // ---------------------------------------------------------------- rotations

  ghost function RotateLL(t: NodeTree): NodeTree
    requires t.Bin? && t.left.Bin?
  {
    Bin(t.left.at, t.left.left, t.left.item, Bin(t.at, t.left.right, t.item, t.right))
  }

  ghost function RotateRR(t: NodeTree): NodeTree
    requires t.Bin? && t.right.Bin?
  {
    Bin(t.right.at, Bin(t.at, t.left, t.item, t.right.left), t.right.item, t.right.right)
  }

  ghost function RotateLR(t: NodeTree): NodeTree
    requires t.Bin? && t.left.Bin? && t.left.right.Bin?
  {
    RotateLL(t.(left := RotateRR(t.left)))
  }

  ghost function RotateRL(t: NodeTree): NodeTree
    requires t.Bin? && t.right.Bin? && t.right.left.Bin?
  {
    RotateRR(t.(right := RotateLL(t.right)))
  }

  /** The same nodes, none shared, and the same listing. */
  ghost predicate Rearranges(t: NodeTree, r: NodeTree) {
    Refs(r) == Refs(t) && InOrder(r) == InOrder(t) && (Unshared(t) ==> Unshared(r))
  }

  lemma RearrangesSize(t: NodeTree, r: NodeTree)
    requires Rearranges(t, r)
    ensures Size(r) == Size(t)
  {
    SizeIsLength(t);
    SizeIsLength(r);
  }

  lemma RotateLLRearranges(t: NodeTree)
    requires t.Bin? && t.left.Bin?
    ensures Rearranges(t, RotateLL(t))
  {
    var Bin(at, l, x, r) := t.left;
    var lower := Bin(t.at, r, t.item, t.right);
    assert InOrder(t) == InOrder(l) + [x] + InOrder(r) + [t.item] + InOrder(t.right);
    assert InOrder(lower) == InOrder(r) + [t.item] + InOrder(t.right);
    assert Refs(t.left) == {at} + Refs(l) + Refs(r);
    assert Unshared(t) ==> Unshared(t.left) && Unshared(lower);
  }

  lemma RotateRRRearranges(t: NodeTree)
    requires t.Bin? && t.right.Bin?
    ensures Rearranges(t, RotateRR(t))
  {
    var Bin(at, l, x, r) := t.right;
    var lower := Bin(t.at, t.left, t.item, l);
    assert InOrder(t) == InOrder(t.left) + [t.item] + (InOrder(l) + [x] + InOrder(r));
    assert InOrder(lower) == InOrder(t.left) + [t.item] + InOrder(l);
    assert Refs(t.right) == {at} + Refs(l) + Refs(r);
    assert Unshared(t) ==> Unshared(t.right) && Unshared(lower);
  }

  lemma RearrangesBelow(t: NodeTree, l: NodeTree, r: NodeTree)
    requires t.Bin? && Rearranges(t.left, l) && Rearranges(t.right, r)
    ensures Rearranges(t, t.(left := l, right := r))
  {
  }

  lemma RotateLRRearranges(t: NodeTree)
    requires t.Bin? && t.left.Bin? && t.left.right.Bin?
    ensures Rearranges(t, RotateLR(t))
  {
    RotateRRRearranges(t.left);
    RearrangesBelow(t, RotateRR(t.left), t.right);
    RotateLLRearranges(t.(left := RotateRR(t.left)));
  }

  lemma RotateRLRearranges(t: NodeTree)
    requires t.Bin? && t.right.Bin? && t.right.left.Bin?
    ensures Rearranges(t, RotateRL(t))
  {
    RotateLLRearranges(t.right);
    RearrangesBelow(t, t.left, RotateLL(t.right));
    RotateRRRearranges(t.(right := RotateLL(t.right)));
  }

  /** Each rotation, applied where it is meant to be, balances the node and takes
      one off its height. */
  lemma RotateLLRestores(t: NodeTree)
    requires t.Bin? && Balanced(t.left) && Balanced(t.right) && Balance(t) == 2 && Balance(t.left) == 1
    ensures Balanced(RotateLL(t)) && Height(RotateLL(t)) == Height(t) - 1
  {
    assert t.left.Bin?;
  }

  lemma RotateRRRestores(t: NodeTree)
    requires t.Bin? && Balanced(t.left) && Balanced(t.right) && Balance(t) == -2 && Balance(t.right) == -1
    ensures Balanced(RotateRR(t)) && Height(RotateRR(t)) == Height(t) - 1
  {
    assert t.right.Bin?;
  }

  lemma RotateLRRestores(t: NodeTree)
    requires t.Bin? && Balanced(t.left) && Balanced(t.right) && Balance(t) == 2 && Balance(t.left) == -1
    ensures t.left.right.Bin?
    ensures Balanced(RotateLR(t)) && Height(RotateLR(t)) == Height(t) - 1
  {
    var Bin(a, ll, x, lr) := t.left;
    assert Height(lr) == Height(ll) + 1;
    assert RotateLR(t) == Bin(lr.at, Bin(a, ll, x, lr.left), lr.item, Bin(t.at, lr.right, t.item, t.right));
  }

  lemma RotateRLRestores(t: NodeTree)
    requires t.Bin? && Balanced(t.left) && Balanced(t.right) && Balance(t) == -2 && Balance(t.right) == 1
    ensures t.right.left.Bin?
    ensures Balanced(RotateRL(t)) && Height(RotateRL(t)) == Height(t) - 1
  {
    var Bin(a, rl, x, rr) := t.right;
    assert Height(rl) == Height(rr) + 1;
    assert RotateRL(t) == Bin(rl.at, Bin(t.at, t.left, t.item, rl.left), rl.item, Bin(a, rl.right, x, rr));
  }

  // ------------------------------------------------------------------- attach

  ghost predicate Unbalanced(t: NodeTree) {
    Balance(t) < -1 || 1 < Balance(t)
  }

  /** Where the search for `p` goes on below the root of `t`. */
  ghost function Toward(t: NodeTree, p: Payload): NodeTree
    requires t.Bin?
  {
    if Compare(p, t.item) < 0 then t.left else t.right
  }

  /** Some node on the search path of `p` is out of balance. */
  ghost predicate HasPivot(t: NodeTree, p: Payload) {
    t.Bin? && (Unbalanced(t) || HasPivot(Toward(t, p), p))
  }

  /** The rotation that the path of `p` selects at the root follows no null link. */
  ghost predicate CanRotate(t: NodeTree, p: Payload)
    requires t.Bin?
  {
    var c := Toward(t, p);
    c.Bin? &&
    if Compare(p, t.item) < 0 then Compare(p, c.item) < 0 || c.right.Bin? else Compare(p, c.item) >= 0 || c.left.Bin?
  }

  ghost function Rotate(t: NodeTree, p: Payload): NodeTree
    requires t.Bin? && CanRotate(t, p)
  {
    if Compare(p, t.item) < 0 then
      if Compare(p, t.left.item) < 0 then RotateLL(t) else RotateLR(t)
    else
      if Compare(p, t.right.item) < 0 then RotateRL(t) else RotateRR(t)
  }

  /** If there is a pivot, that is, a deepest node on the path that is out of
      balance, then it can be rotated. */
  ghost predicate PivotRotates(t: NodeTree, p: Payload) {
    HasPivot(t, p) ==> if HasPivot(Toward(t, p), p) then PivotRotates(Toward(t, p), p) else CanRotate(t, p)
  }

  /** `t` with its pivot, if it has one, rotated. */
  ghost function Repair(t: NodeTree, p: Payload): NodeTree
    requires PivotRotates(t, p)
  {
    if !HasPivot(t, p) then t
    else if !HasPivot(Toward(t, p), p) then Rotate(t, p)
    else if Compare(p, t.item) < 0 then t.(left := Repair(t.left, p))
    else t.(right := Repair(t.right, p))
  }

  lemma RotateRearranges(t: NodeTree, p: Payload)
    requires t.Bin? && CanRotate(t, p)
    ensures Rearranges(t, Rotate(t, p))
  {
    if Compare(p, t.item) < 0 {
      if Compare(p, t.left.item) < 0 {
        RotateLLRearranges(t);
      } else {
        RotateLRRearranges(t);
      }
    } else {
      if Compare(p, t.right.item) < 0 {
        RotateRLRearranges(t);
      } else {
        RotateRRRearranges(t);
      }
    }
  }

  lemma {:induction false} RepairRearranges(t: NodeTree, p: Payload)
    requires PivotRotates(t, p)
    ensures Rearranges(t, Repair(t, p))
  {
    if HasPivot(t, p) {
      if !HasPivot(Toward(t, p), p) {
        RotateRearranges(t, p);
      } else if Compare(p, t.item) < 0 {
        RepairRearranges(t.left, p);
        RearrangesBelow(t, Repair(t.left, p), t.right);
      } else {
        RepairRearranges(t.right, p);
        RearrangesBelow(t, t.left, Repair(t.right, p));
      }
    }
  }

  /** `p` becomes the left child of a node whose right side is three or more high. */
  ghost predicate LandsBesideTall(t: NodeTree, p: Payload) {
    t.Bin? &&
    if Compare(p, t.item) < 0 && t.left.Nil? then Height(t.right) >= 3 else LandsBesideTall(Toward(t, p), p)
  }

  /** Exactly when an attach follows a null link while it rotates, for any tree. */
  lemma {:induction false} PivotRotatesUnlessBesideTall(t: NodeTree, n: Node, p: Payload)
    ensures PivotRotates(Insert(t, n, p), p) <==> !LandsBesideTall(t, p)
  {
    if t.Bin? {
      var c := Toward(t, p);
      PivotRotatesUnlessBesideTall(c, n, p);
      assert Toward(Insert(t, n, p), p) == Insert(c, n, p);
    }
  }

  /** What attaching below a balanced tree does, pivot or no pivot. */
  ghost predicate AttachedWell(t: NodeTree, i: NodeTree, p: Payload) {
    && Height(t) <= Height(i) <= Height(t) + 1
    && if HasPivot(i, p) then
         PivotRotates(i, p) && Balanced(Repair(i, p)) && Height(Repair(i, p)) == Height(t)
       else
         Balanced(i) && (t.Bin? && Height(i) > Height(t) ==> Balance(i) == if Compare(p, t.item) < 0 then 1 else -1)
  }

  /** On a balanced tree one rotation, at the deepest node out of balance, gives
      back the height from before and so repairs everything above it too. */
  lemma {:induction false} AttachRepairs(t: NodeTree, n: Node, p: Payload)
    requires Balanced(t)
    ensures AttachedWell(t, Insert(t, n, p), p)
  {
    if t.Bin? {
      AttachRepairs(Toward(t, p), n, p);
      if Compare(p, t.item) < 0 {
        AttachedLeft(t, Insert(t.left, n, p), p);
      } else {
        AttachedRight(t, Insert(t.right, n, p), p);
      }
    }
  }

  lemma AttachedLeft(t: NodeTree, c: NodeTree, p: Payload)
    requires t.Bin? && Balanced(t) && Compare(p, t.item) < 0 && AttachedWell(t.left, c, p) && c.Bin?
    requires if t.left.Nil? then Height(c) == 1 else c.item == t.left.item
    ensures AttachedWell(t, t.(left := c), p)
  {
    var i := t.(left := c);
    assert Toward(i, p) == c;
    if HasPivot(c, p) {
      assert HasPivot(i, p) && Repair(i, p) == t.(left := Repair(c, p));
      assert Balance(Repair(i, p)) == Balance(t);
    } else if Unbalanced(i) {
      assert Height(c) == Height(t.left) + 1 && t.left.Bin?;
      PivotRestores(i, p);
      assert Repair(i, p) == Rotate(i, p);
    } else {
      assert !HasPivot(i, p);
    }
  }

  lemma AttachedRight(t: NodeTree, c: NodeTree, p: Payload)
    requires t.Bin? && Balanced(t) && Compare(p, t.item) >= 0 && AttachedWell(t.right, c, p) && c.Bin?
    requires if t.right.Nil? then Height(c) == 1 else c.item == t.right.item
    ensures AttachedWell(t, t.(right := c), p)
  {
    var i := t.(right := c);
    assert Toward(i, p) == c;
    if HasPivot(c, p) {
      assert HasPivot(i, p) && Repair(i, p) == t.(right := Repair(c, p));
      assert Balance(Repair(i, p)) == Balance(t);
    } else if Unbalanced(i) {
      assert Height(c) == Height(t.right) + 1 && t.right.Bin?;
      PivotRestores(i, p);
      assert Repair(i, p) == Rotate(i, p);
    } else {
      assert !HasPivot(i, p);
    }
  }

  lemma PivotRestores(t: NodeTree, p: Payload)
    requires t.Bin? && Balanced(t.left) && Balanced(t.right) && Toward(t, p).Bin?
    requires Balance(t) == if Compare(p, t.item) < 0 then 2 else -2
    requires Balance(Toward(t, p)) == if Compare(p, Toward(t, p).item) < 0 then 1 else -1
    ensures CanRotate(t, p) && Balanced(Rotate(t, p)) && Height(Rotate(t, p)) == Height(t) - 1
  {
    if Compare(p, t.item) < 0 {
      if Compare(p, t.left.item) < 0 {
        RotateLLRestores(t);
      } else {
        RotateLRRestores(t);
      }
    } else {
      if Compare(p, t.right.item) < 0 {
        RotateRLRestores(t);
      } else {
        RotateRRRestores(t);
      }
    }
  }

  ghost function Attach(t: NodeTree, n: Node, p: Payload): NodeTree
    requires !LandsBesideTall(t, p)
  {
    PivotRotatesUnlessBesideTall(t, n, p);
    Repair(Insert(t, n, p), p)
  }

  lemma AttachNodes(t: NodeTree, n: Node, p: Payload)
    requires !LandsBesideTall(t, p)
    ensures Refs(Attach(t, n, p)) == Refs(t) + {n} && Size(Attach(t, n, p)) == Size(t) + 1
    ensures Unshared(t) && n !in Refs(t) ==> Unshared(Attach(t, n, p))
  {
    InsertRefs(t, n, p);
    PivotRotatesUnlessBesideTall(t, n, p);
    RepairRearranges(Insert(t, n, p), p);
    RearrangesSize(Insert(t, n, p), Attach(t, n, p));
  }

  /** Attaching keeps the listing sorted and puts `p` behind its equals, balanced
      or not; a balanced tree stays balanced and grows by at most one level. */
  lemma AttachTheorem(t: NodeTree, n: Node, p: Payload)
    requires Ordered(t) && !LandsBesideTall(t, p)
    ensures InOrder(Attach(t, n, p)) == InsertUpper(InOrder(t), p) && Ordered(Attach(t, n, p))
    ensures Balanced(t) ==> Balanced(Attach(t, n, p)) && Height(t) <= Height(Attach(t, n, p)) <= Height(t) + 1
  {
    var i := Insert(t, n, p);
    PivotRotatesUnlessBesideTall(t, n, p);
    InsertListed(t, n, p);
    RepairRearranges(i, p);
    OrderedIsSorted(t);
    InsertUpperSorted(InOrder(t), p);
    OrderedIsSorted(Attach(t, n, p));
    if Balanced(t) {
      AttachRepairs(t, n, p);
    }
  }

  /** A balanced tree never meets the null link. */
  lemma {:induction false} BalancedNeverBesideTall(t: NodeTree, p: Payload)
    requires Balanced(t)
    ensures !LandsBesideTall(t, p)
  {
    if t.Bin? {
      BalancedNeverBesideTall(Toward(t, p), p);
    }
  }

  /** The tree after attaching payload after payload to an empty one. */
  ghost function Build(nodes: seq<Node>, payloads: seq<Payload>): (t: NodeTree)
    requires |nodes| == |payloads|
    ensures Balanced(t) && Ordered(t)
  {
    if payloads == [] then Nil
    else
      var n := |payloads| - 1;
      var before := Build(nodes[..n], payloads[..n]);
      BalancedNeverBesideTall(before, payloads[n]);
      AttachTheorem(before, nodes[n], payloads[n]);
      Attach(before, nodes[n], payloads[n])
  }

  lemma {:induction false} BuildHolds(nodes: seq<Node>, payloads: seq<Payload>)
    requires |nodes| == |payloads|
    ensures multiset(InOrder(Build(nodes, payloads))) == multiset(payloads)
  {
    if payloads != [] {
      var n := |payloads| - 1;
      var before := Build(nodes[..n], payloads[..n]);
      BuildHolds(nodes[..n], payloads[..n]);
      BalancedNeverBesideTall(before, payloads[n]);
      AttachTheorem(before, nodes[n], payloads[n]);
      InsertUpperElements(InOrder(before), payloads[n]);
      OneMore(payloads);
    }
  }

  lemma SameLength(s: seq<Payload>, s': seq<Payload>)
    requires multiset(s) == multiset(s')
    ensures |s| == |s'|
  {
    assert |multiset(s)| == |multiset(s')|;
  }

  /** A tree built by attaching alone lists exactly the payloads attached, in order,
      is balanced, and its height is at most logarithmic in their number. */
  lemma BuildTheorem(nodes: seq<Node>, payloads: seq<Payload>)
    requires |nodes| == |payloads|
    ensures var t := Build(nodes, payloads);
      && Balanced(t) && Sorted(InOrder(t)) && multiset(InOrder(t)) == multiset(payloads)
      && |payloads| + 1 >= Fib(Height(t) + 2)
  {
    var t := Build(nodes, payloads);
    BuildHolds(nodes, payloads);
    OrderedIsSorted(t);
    BalancedSize(t);
    SizeIsLength(t);
    SameLength(InOrder(t), payloads);
  }

  // -------------------------------------------- the pivot, found by walking down

  /** One step of the search for `p`, then `rest`. */
  ghost function Step(t: NodeTree, p: Payload, rest: Path): Path
    requires t.Bin?
  {
    if Compare(p, t.item) < 0 then L(rest) else R(rest)
  }

  /** The way to the deepest node out of balance. */
  ghost function PivotPath(t: NodeTree, p: Payload): Path
    requires HasPivot(t, p)
  {
    if HasPivot(Toward(t, p), p) then Step(t, p, PivotPath(Toward(t, p), p)) else Here
  }

  /** `found` and `pivot` record the pivot seen on the way down to `path`, unless
      there is a deeper one to come. */
  ghost predicate SeenPivot(t: NodeTree, p: Payload, path: Path, found: bool, pivot: Path)
    requires Leads(t, path)
  {
    var s := Down(t, path);
    if HasPivot(s, p) then HasPivot(t, p) && PivotPath(t, p) == Join(path, PivotPath(s, p))
    else (found <==> HasPivot(t, p)) && (found ==> pivot == PivotPath(t, p))
  }

  lemma SeenPivotStep(t: NodeTree, p: Payload, path: Path, found: bool, pivot: Path)
    requires Leads(t, path) && Down(t, path).Bin? && SeenPivot(t, p, path, found, pivot)
    ensures var here, next := Unbalanced(Down(t, path)), Join(path, Step(Down(t, path), p, Here));
      Leads(t, next) && SeenPivot(t, p, next, found || here, if here then path else pivot)
  {
    var s := Down(t, path);
    StepDown(t, path, Step(s, p, Here));
    JoinHere(path);
    if HasPivot(Toward(s, p), p) {
      JoinJoin(path, Step(s, p, Here), PivotPath(Toward(s, p), p));
    }
  }

  /** Repairing is replacing the deepest subtree out of balance by its rotation. */
  lemma {:induction false} RepairIsReplacing(t: NodeTree, p: Payload)
    requires HasPivot(t, p) && PivotRotates(t, p)
    ensures Leads(t, PivotPath(t, p))
    ensures var s := Down(t, PivotPath(t, p));
      && s.Bin? && CanRotate(s, p)
      && Repair(t, p) == Replace(t, PivotPath(t, p), Rotate(s, p))
  {
    if HasPivot(Toward(t, p), p) {
      RepairIsReplacing(Toward(t, p), p);
    }
  }

  // ------------------------------------------------------------------- remove

  /** `avl_rebalance_ex`: nothing happens when the heavy child is even. */
  ghost function RebalanceNode(t: NodeTree): NodeTree
    requires t.Bin?
  {
    if Balance(t) > 1 then
      if Balance(t.left) > 0 then RotateLL(t) else if Balance(t.left) < 0 then RotateLR(t) else t
    else if Balance(t) < -1 then
      if Balance(t.right) < 0 then RotateRR(t) else if Balance(t.right) > 0 then RotateRL(t) else t
    else t
  }

  lemma RebalanceNodeRearranges(t: NodeTree)
    requires t.Bin?
    ensures Rearranges(t, RebalanceNode(t))
  {
    if Balance(t) > 1 {
      if Balance(t.left) > 0 {
        RotateLLRearranges(t);
      } else if Balance(t.left) < 0 {
        RotateLRRearranges(t);
      }
    } else if Balance(t) < -1 {
      if Balance(t.right) < 0 {
        RotateRRRearranges(t);
      } else if Balance(t.right) > 0 {
        RotateRLRearranges(t);
      }
    }
  }

  /** The payload furthest to the right. */
  ghost function Last(t: NodeTree): Payload
    requires t.Bin?
  {
    if t.right.Nil? then t.item else Last(t.right)
  }

  /** `t` is the node to free: it matches `p` and lacks a child. */
  ghost predicate Splices(t: NodeTree, p: Payload)
    requires t.Bin?
  {
    Compare(p, t.item) == 0 && (t.left.Nil? || t.right.Nil?)
  }

  ghost function OnlyChild(t: NodeTree): NodeTree
    requires t.Bin?
  {
    if t.left.Nil? then t.right else t.left
  }

  /** The payload looked for below the root: a matched root with two children
      takes over its predecessor, which is then looked for instead. */
  ghost function Sought(t: NodeTree, p: Payload): Payload
    requires t.Bin?
  {
    if Compare(p, t.item) == 0 && t.left.Bin? then Last(t.left) else p
  }

  ghost function Kept(t: NodeTree, p: Payload): Payload
    requires t.Bin?
  {
    if Compare(p, t.item) == 0 && t.left.Bin? then Last(t.left) else t.item
  }

  /** `avltree_remove`. After a node is spliced out the search goes on below the
      child that took its place. */
  ghost function Remove(t: NodeTree, p: Payload): NodeTree {
    if t.Nil? then Nil
    else if Splices(t, p) then
      var c := OnlyChild(t);
      if c.Nil? then Nil
      else if Compare(p, c.item) <= 0 then RebalanceNode(c.(left := Remove(c.left, p)))
      else RebalanceNode(c.(right := Remove(c.right, p)))
    else if Compare(p, t.item) <= 0 then
      RebalanceNode(Bin(t.at, Remove(t.left, Sought(t, p)), Kept(t, p), t.right))
    else
      RebalanceNode(t.(right := Remove(t.right, p)))
  }

  /** No node is added and none becomes shared. */
  ghost predicate Thins(t: NodeTree, r: NodeTree) {
    Refs(r) <= Refs(t) && (Unshared(t) ==> Unshared(r))
  }

  lemma ThinsBelow(t: NodeTree, l: NodeTree, x: Payload, r: NodeTree)
    requires t.Bin? && Thins(t.left, l) && Thins(t.right, r)
    ensures Thins(t, RebalanceNode(Bin(t.at, l, x, r)))
  {
    RebalanceNodeRearranges(Bin(t.at, l, x, r));
  }

  lemma {:induction false} RemoveThins(t: NodeTree, p: Payload)
    ensures Thins(t, Remove(t, p))
  {
    if t.Bin? {
      if Splices(t, p) {
        var c := OnlyChild(t);
        if c.Bin? {
          RemoveThins(c.left, p);
          RemoveThins(c.right, p);
          ThinsBelow(c, Remove(c.left, p), c.item, c.right);
          ThinsBelow(c, c.left, c.item, Remove(c.right, p));
        }
      } else if Compare(p, t.item) <= 0 {
        RemoveThins(t.left, Sought(t, p));
        ThinsBelow(t, Remove(t.left, Sought(t, p)), Kept(t, p), t.right);
      } else {
        RemoveThins(t.right, p);
        ThinsBelow(t, t.left, t.item, Remove(t.right, p));
      }
    }
  }

  lemma {:induction false} LastBounded(t: NodeTree, k: int)
    requires t.Bin?
    ensures Above(t, k) ==> k < Last(t).key
    ensures Below(t, k) ==> Last(t).key < k
  {
    if t.right.Bin? {
      LastBounded(t.right, k);
    }
  }

  lemma {:induction false} LastListed(t: NodeTree)
    requires t.Bin? && StrictlyOrdered(t)
    ensures InOrder(t) == RemoveFirst(InOrder(t), Last(t).key) + [Last(t)]
  {
    var l, x, r := InOrder(t.left), t.item, InOrder(t.right);
    SidesLack(t, Last(t).key);
    if t.right.Nil? {
      RemoveFirstAt(l, x, r);
      assert l + r == l && l + [x] + r == l + [x];
    } else {
      LastListed(t.right);
      LastBounded(t.right, x.key);
      SidesLack(t, Last(t).key);
      RemoveFirstAfter(l, x, r, Last(t).key);
      Joined(l + [x], RemoveFirst(r, Last(t).key), [Last(t)]);
    }
  }

  /** With distinct keys, balanced or not, exactly the requested key leaves the
      listing, although the code goes on searching under a spliced-in child. */
  lemma {:induction false} RemoveListed(t: NodeTree, p: Payload)
    requires StrictlyOrdered(t)
    ensures InOrder(Remove(t, p)) == RemoveFirst(InOrder(t), p.key)
  {
    if t.Bin? {
      var l, x, r := InOrder(t.left), t.item, InOrder(t.right);
      SidesLack(t, p.key);
      if Splices(t, p) {
        RemoveFirstAt(l, x, r);
        RemoveSpliced(t, p);
      } else if Compare(p, x) <= 0 {
        var q := Sought(t, p);
        RemoveListed(t.left, q);
        RebalanceNodeRearranges(Bin(t.at, Remove(t.left, q), Kept(t, p), t.right));
        if Compare(p, x) == 0 {
          LastListed(t.left);
          RemoveFirstAt(l, x, r);
        } else {
          RemoveFirstBefore(l, x, r, p.key);
        }
      } else {
        RemoveListed(t.right, p);
        RebalanceNodeRearranges(t.(right := Remove(t.right, p)));
        RemoveFirstAfter(l, x, r, p.key);
      }
    }
  }

  /** Looking for a key that is not there changes links at most. */
  lemma {:induction false} RemoveAbsent(t: NodeTree, p: Payload)
    requires LacksKey(InOrder(t), p.key)
    ensures InOrder(Remove(t, p)) == InOrder(t)
  {
    if t.Bin? {
      LacksSplit(InOrder(t.left), t.item, InOrder(t.right), p.key);
      RemoveAbsent(t.left, p);
      RemoveAbsent(t.right, p);
      RebalanceNodeRearranges(t.(left := Remove(t.left, p)));
      RebalanceNodeRearranges(t.(right := Remove(t.right, p)));
    }
  }

  lemma RemoveSpliced(t: NodeTree, p: Payload)
    requires t.Bin? && StrictlyOrdered(t) && Splices(t, p)
    ensures InOrder(Remove(t, p)) == InOrder(t.left) + InOrder(t.right)
  {
    var c := OnlyChild(t);
    SidesLack(t, p.key);
    if c.Bin? {
      LacksSplit(InOrder(c.left), c.item, InOrder(c.right), p.key);
      RemoveAbsent(c.left, p);
      RemoveAbsent(c.right, p);
      RebalanceNodeRearranges(c.(left := Remove(c.left, p)));
      RebalanceNodeRearranges(c.(right := Remove(c.right, p)));
    }
  }

  /** How many nodes a removal frees, each with one decrement of `num_nodes`. */
  ghost function Freed(t: NodeTree, p: Payload): nat {
    if t.Nil? then 0
    else if Splices(t, p) then
      var c := OnlyChild(t);
      1 + if c.Nil? then 0 else if Compare(p, c.item) <= 0 then Freed(c.left, p) else Freed(c.right, p)
    else if Compare(p, t.item) <= 0 then Freed(t.left, Sought(t, p))
    else Freed(t.right, p)
  }

  lemma {:induction false} RemoveSize(t: NodeTree, p: Payload)
    ensures Size(Remove(t, p)) + Freed(t, p) == Size(t)
  {
    if t.Bin? {
      if Splices(t, p) {
        var c := OnlyChild(t);
        if c.Bin? {
          var d := if Compare(p, c.item) <= 0 then c.(left := Remove(c.left, p)) else c.(right := Remove(c.right, p));
          RemoveSize(c.left, p);
          RemoveSize(c.right, p);
          RebalanceNodeRearranges(d);
          RearrangesSize(d, RebalanceNode(d));
        }
      } else {
        var d := if Compare(p, t.item) <= 0 then Bin(t.at, Remove(t.left, Sought(t, p)), Kept(t, p), t.right)
                 else t.(right := Remove(t.right, p));
        RemoveSize(t.left, Sought(t, p));
        RemoveSize(t.right, p);
        RebalanceNodeRearranges(d);
        RearrangesSize(d, RebalanceNode(d));
      }
    }
  }

  /** The second half of `avltree_remove`: search on below `t`, then rebalance. */
  ghost function SearchOn(t: NodeTree, p: Payload): NodeTree
    requires t.Bin?
  {
    if Compare(p, t.item) <= 0 then RebalanceNode(t.(left := Remove(t.left, p)))
    else RebalanceNode(t.(right := Remove(t.right, p)))
  }

  /** The side that the removal of `p` goes on in, equal keys to the left. */
  ghost function Ahead(t: NodeTree, p: Payload): NodeTree
    requires t.Bin?
  {
    if Compare(p, t.item) <= 0 then t.left else t.right
  }

  /** The payloads handed to the `remove` callback, in order. */
  ghost function Called(t: NodeTree, p: Payload): seq<Payload> {
    if t.Nil? then []
    else if Splices(t, p) then
      var c := OnlyChild(t);
      var later := if c.Nil? then [] else if Compare(p, c.item) <= 0 then Called(c.left, p) else Called(c.right, p);
      if p == t.item then later else [t.item] + later
    else if Compare(p, t.item) == 0 then [t.item] + Called(t.left, Sought(t, p))
    else if Compare(p, t.item) < 0 then Called(t.left, Sought(t, p))
    else Called(t.right, p)
  }

  lemma RemoveUnmatched(t: NodeTree, p: Payload)
    requires t.Bin? && Compare(p, t.item) != 0
    ensures Remove(t, p) == SearchOn(t, p)
    ensures Freed(t, p) == Freed(Ahead(t, p), p) && Called(t, p) == Called(Ahead(t, p), p)
  {
  }

  lemma RemoveWithSplice(t: NodeTree, p: Payload)
    requires t.Bin? && Splices(t, p)
    ensures var c := OnlyChild(t);
      && Remove(t, p) == (if c.Nil? then Nil else SearchOn(c, p))
      && Freed(t, p) == 1 + (if c.Nil? then 0 else Freed(Ahead(c, p), p))
      && var later := if c.Nil? then [] else Called(Ahead(c, p), p);
         Called(t, p) == if p == t.item then later else [t.item] + later
  {
  }

  lemma RemoveWithCopy(t: NodeTree, p: Payload)
    requires t.Bin? && Compare(p, t.item) == 0 && !Splices(t, p)
    ensures var q := Last(t.left);
      && Remove(t, p) == SearchOn(t.(item := q), q)
      && Freed(t, p) == Freed(t.left, q)
      && Called(t, p) == [t.item] + Called(t.left, q)
  {
  }

  lemma {:induction false} AbsentCosts(t: NodeTree, p: Payload)
    requires LacksKey(InOrder(t), p.key)
    ensures Freed(t, p) == 0 && Called(t, p) == [] && Found(t, p.key).Nil?
  {
    if t.Bin? {
      LacksSplit(InOrder(t.left), t.item, InOrder(t.right), p.key);
      AbsentCosts(t.left, p);
      AbsentCosts(t.right, p);
    }
  }

  lemma SplicedCosts(t: NodeTree, p: Payload)
    requires t.Bin? && StrictlyOrdered(t) && Splices(t, p)
    ensures Freed(t, p) == 1
    ensures Called(t, p) == if p != t.item then [t.item] else []
  {
    var c := OnlyChild(t);
    SidesLack(t, p.key);
    if c.Bin? {
      LacksSplit(InOrder(c.left), c.item, InOrder(c.right), p.key);
      AbsentCosts(c.left, p);
      AbsentCosts(c.right, p);
    }
  }

  /** Removing a copied predecessor frees its node without the callback. */
  lemma {:induction false} LastCosts(t: NodeTree)
    requires t.Bin? && StrictlyOrdered(t)
    ensures Freed(t, Last(t)) == 1 && Called(t, Last(t)) == []
  {
    if t.right.Nil? {
      SplicedCosts(t, Last(t));
    } else {
      LastBounded(t.right, t.item.key);
      LastCosts(t.right);
    }
  }

  /** With distinct keys: one node is freed if and only if the key was present.
      The callback runs once, on the stored payload of that key, never on a
      copied predecessor; it is skipped exactly when the caller passed the stored
      pointer itself and the node lacks a child. */
  lemma {:induction false} RemoveCosts(t: NodeTree, p: Payload)
    requires StrictlyOrdered(t)
    ensures var f := Found(t, p.key);
      && Freed(t, p) == (if f.Nil? then 0 else 1)
      && Called(t, p) == (if f.Nil? || (f.item == p && (f.left.Nil? || f.right.Nil?)) then [] else [f.item])
  {
    if t.Bin? {
      if Splices(t, p) {
        SplicedCosts(t, p);
      } else if Compare(p, t.item) == 0 {
        LastCosts(t.left);
      } else {
        RemoveCosts(if Compare(p, t.item) < 0 then t.left else t.right, p);
      }
    }
  }

  /** Removal with distinct keys keeps them distinct and in order. */
  lemma RemoveTheorem(t: NodeTree, p: Payload)
    requires StrictlyOrdered(t)
    ensures StrictlyOrdered(Remove(t, p))
    ensures InOrder(Remove(t, p)) == RemoveFirst(InOrder(t), p.key)
    ensures LacksKey(InOrder(Remove(t, p)), p.key)
    ensures Freed(t, p) == (if LacksKey(InOrder(t), p.key) then 0 else 1)
  {
    RemoveListed(t, p);
    RemoveCosts(t, p);
    FoundIsListed(t, p.key);
    StrictlyOrderedIsSorted(t);
    RemoveFirstStrict(InOrder(t), p.key);
    StrictlyOrderedIsSorted(Remove(t, p));
  }

  // ------------------------------------------------- what a removal does to heights

  /** Nodes out of balance. */
  ghost function Offs(t: NodeTree): nat {
    if t.Nil? then 0 else Offs(t.left) + (if Unbalanced(t) then 1 else 0) + Offs(t.right)
  }

  /** One node is out of balance, by exactly two and with an even heavy child. */
  ghost predicate OneOff(t: NodeTree) {
    t.Bin? &&
    if Unbalanced(t) then
      && Balanced(t.left) && Balanced(t.right)
      && ((Balance(t) == 2 && Balance(t.left) == 0) || (Balance(t) == -2 && Balance(t.right) == 0))
    else
      (OneOff(t.left) && Balanced(t.right)) || (Balanced(t.left) && OneOff(t.right))
  }

  lemma {:induction false} OffsCounted(t: NodeTree)
    ensures Balanced(t) <==> Offs(t) == 0
    ensures OneOff(t) ==> Offs(t) == 1
  {
    if t.Bin? {
      OffsCounted(t.left);
      OffsCounted(t.right);
    }
  }

  /** Removal lowers the height of the balanced tree `t`. */
  ghost predicate Shrinks(t: NodeTree, p: Payload) {
    t.Bin? &&
    (Splices(t, p) ||
     if Compare(p, t.item) <= 0 then
       Shrinks(t.left, Sought(t, p)) && (Balance(t) == 1 || (Balance(t) == -1 && Balance(t.right) != 0))
     else
       Shrinks(t.right, p) && (Balance(t) == -1 || (Balance(t) == 1 && Balance(t.left) != 0)))
  }

  /** On the removal path there is a node that loses a level on its lighter side
      while its heavier child is even. */
  ghost predicate Sticks(t: NodeTree, p: Payload) {
    t.Bin? && !Splices(t, p) &&
    if Compare(p, t.item) <= 0 then
      Sticks(t.left, Sought(t, p)) || (Shrinks(t.left, Sought(t, p)) && Balance(t) == -1 && Balance(t.right) == 0)
    else
      Sticks(t.right, p) || (Shrinks(t.right, p) && Balance(t) == 1 && Balance(t.left) == 0)
  }

  /** The child `c` after a removal from the balanced tree `t`. */
  ghost predicate Lowered(t: NodeTree, c: NodeTree, shrinks: bool, sticks: bool) {
    && Height(c) == Height(t) - (if shrinks then 1 else 0)
    && if sticks then OneOff(c) && !shrinks else Balanced(c)
  }

  lemma LeftLowered(t: NodeTree, c: NodeTree, x: Payload, shrinks: bool, sticks: bool)
    requires t.Bin? && Balanced(t) && Lowered(t.left, c, shrinks, sticks)
    ensures Lowered(t, RebalanceNode(Bin(t.at, c, x, t.right)),
                    shrinks && (Balance(t) == 1 || (Balance(t) == -1 && Balance(t.right) != 0)),
                    sticks || (shrinks && Balance(t) == -1 && Balance(t.right) == 0))
  {
    var t' := Bin(t.at, c, x, t.right);
    if Balance(t') == -2 {
      if Balance(t.right) == -1 {
        RotateRRRestores(t');
      } else if Balance(t.right) == 1 {
        RotateRLRestores(t');
      }
    }
  }

  lemma RightLowered(t: NodeTree, c: NodeTree, shrinks: bool, sticks: bool)
    requires t.Bin? && Balanced(t) && Lowered(t.right, c, shrinks, sticks)
    ensures Lowered(t, RebalanceNode(t.(right := c)),
                    shrinks && (Balance(t) == -1 || (Balance(t) == 1 && Balance(t.left) != 0)),
                    sticks || (shrinks && Balance(t) == 1 && Balance(t.left) == 0))
  {
    var t' := t.(right := c);
    if Balance(t') == 2 {
      if Balance(t.left) == 1 {
        RotateLLRestores(t');
      } else if Balance(t.left) == -1 {
        RotateLRRestores(t');
      }
    }
  }

  /** The exact effect of one removal on a balanced tree. It stays balanced
      unless the removal sticks; then one node is left out of balance, by exactly
      two, with an even heavy child, and the height is the old one. */
  lemma {:induction false} RemoveEffect(t: NodeTree, p: Payload)
    requires Balanced(t)
    ensures Height(Remove(t, p)) == Height(t) - if Shrinks(t, p) then 1 else 0
    ensures if Sticks(t, p) then OneOff(Remove(t, p)) && !Shrinks(t, p) else Balanced(Remove(t, p))
  {
    if t.Bin? {
      if Splices(t, p) {
        assert OnlyChild(t).Bin? ==> OnlyChild(t).left.Nil? && OnlyChild(t).right.Nil?;
      } else if Compare(p, t.item) <= 0 {
        var q := Sought(t, p);
        RemoveEffect(t.left, q);
        LeftLowered(t, Remove(t.left, q), Kept(t, p), Shrinks(t.left, q), Sticks(t.left, q));
      } else {
        RemoveEffect(t.right, p);
        RightLowered(t, Remove(t.right, p), Shrinks(t.right, p), Sticks(t.right, p));
      }
    }
  }

  lemma RemovalKeepsBalanceIff(t: NodeTree, p: Payload)
    requires Balanced(t)
    ensures Balanced(Remove(t, p)) <==> !Sticks(t, p)
  {
    RemoveEffect(t, p);
    OffsCounted(Remove(t, p));
  }

  /** A removal that sticks: the lighter side of the root loses its only node. */
  lemma StickingRemoval(n: seq<Node>, x: seq<Payload>)
    requires |n| == |x| == 5 && forall i :: 0 <= i < 5 ==> x[i].key == i
    ensures var t := Bin(n[1], Leaf(n[0], x[0]), x[1], Bin(n[3], Leaf(n[2], x[2]), x[3], Leaf(n[4], x[4])));
      Balanced(t) && StrictlyOrdered(t) && !Balanced(Remove(t, x[0]))
  {
    var r := Bin(n[3], Bin(n[2], Nil, x[2], Nil), x[3], Bin(n[4], Nil, x[4], Nil));
    var t := Bin(n[1], Bin(n[0], Nil, x[0], Nil), x[1], r);
    assert Height(r) == 2 && Balance(r) == 0;
    assert StrictlyOrdered(r.left) && StrictlyOrdered(r.right) && Above(r.left, 1) && Above(r.right, 1);
    assert StrictlyOrdered(r) && StrictlyOrdered(t.left);
    assert Remove(t.left, x[0]) == Nil;
    assert Remove(t, x[0]) == t.(left := Nil);
  }

  // ------------------------------------------------------------------- height

  function Fib(n: nat): nat {
    if n < 2 then n else Fib(n - 2) + Fib(n - 1)
  }

  lemma {:induction false} FibMonotone(m: nat, n: nat)
    requires m <= n
    ensures Fib(m) <= Fib(n)
    decreases n
  {
    if m < n {
      FibMonotone(m, n - 1);
    }
  }

  lemma FibSides(h: nat, a: nat, b: nat)
    requires h == 1 + (if a > b then a else b) && h <= a + 2 && h <= b + 2
    ensures Fib(h + 2) <= Fib(a + 2) + Fib(b + 2)
  {
    FibMonotone(h, a + 2);
    FibMonotone(h, b + 2);
    assert Fib(h + 2) == Fib(h) + Fib(h + 1);
  }

  /** A balanced tree of height h has at least Fib(h + 2) - 1 nodes. */
  lemma {:induction false} BalancedSize(t: NodeTree)
    requires Balanced(t)
    ensures Size(t) + 1 >= Fib(Height(t) + 2)
  {
    if t.Bin? {
      BalancedSize(t.left);
      BalancedSize(t.right);
      FibSides(Height(t), Height(t.left), Height(t.right));
    }
  }
}
