/** Red-black trees as values: attaching with recolouring and rotations, and why
    the result is a red-black tree again. */
module RedBlackSpec {
  import opened Payloads
  import opened Trees

  datatype Color = Red | Black

  class RbNode {
    var data: Payload
    var left: RbNode?
    var right: RbNode?
    var color: Color

    /** A node about to be attached is meant to be red. */
    constructor (data: Payload)
      ensures this.data == data && left == null && right == null && color == Red
    {
      this.data := data;
      left, right, color := null, null, Red;
    }
  }

  /** The place of an item: a node and its colour. */
  datatype Painted = Painted(node: RbNode, color: Color)

  type RbTree = Tree<Painted>

  ghost function Refs(t: RbTree): set<RbNode> {
    match t
    case Nil => {}
    case Bin(at, l, _, r) => {at.node} + Refs(l) + Refs(r)
  }

  ghost predicate Unshared(t: RbTree) {
    match t
    case Nil => true
    case Bin(at, l, _, r) =>
      at.node !in Refs(l) && at.node !in Refs(r) && Refs(l) !! Refs(r) && Unshared(l) && Unshared(r)
  }

  ghost function Root(t: RbTree): RbNode? {
    if t.Nil? then null else t.at.node
  }

  /** The nodes reached from `n` spell out exactly `t`, colours included. */
  ghost predicate Shape(n: RbNode?, t: RbTree)
    reads Refs(t)
    ensures Shape(n, t) ==> n == Root(t)
  {
    match t
    case Nil => n == null
    case Bin(at, l, x, r) =>
      n == at.node && n.data == x && n.color == at.color && Shape(n.left, l) && Shape(n.right, r)
  }

  ghost predicate Spells(n: RbNode?, t: RbTree)
    reads Refs(t)
  {
    Shape(n, t) && Unshared(t)
  }

  // --------------------------------------------------------------- invariants

  ghost predicate IsRed(t: RbTree) {
    t.Bin? && t.at.color == Red
  }

  ghost predicate NoRedRed(t: RbTree) {
    t.Bin? ==> (t.at.color == Red ==> !IsRed(t.left) && !IsRed(t.right)) && NoRedRed(t.left) && NoRedRed(t.right)
  }

  /** Black nodes on the leftmost path. */
  ghost function Blacks(t: RbTree): nat {
    if t.Nil? then 0 else Blacks(t.left) + if t.at.color == Black then 1 else 0
  }

  /** Every path down from `t` has as many black nodes as the leftmost one. */
  ghost predicate EvenBlacks(t: RbTree) {
    t.Bin? ==> Blacks(t.left) == Blacks(t.right) && EvenBlacks(t.left) && EvenBlacks(t.right)
  }

  ghost predicate RedBlack(t: RbTree) {
    !IsRed(t) && NoRedRed(t) && EvenBlacks(t)
  }

  // ---------------------------------------------------------------- rebalance

  ghost function RotateLL(t: RbTree): RbTree
    requires t.Bin? && t.left.Bin?
  {
    Bin(Painted(t.left.at.node, Black), t.left.left, t.left.item,
        Bin(Painted(t.at.node, Red), t.left.right, t.item, t.right))
  }

  ghost function RotateRR(t: RbTree): RbTree
    requires t.Bin? && t.right.Bin?
  {
    Bin(Painted(t.right.at.node, Black), Bin(Painted(t.at.node, Red), t.left, t.item, t.right.left),
        t.right.item, t.right.right)
  }

  ghost function RotateLR(t: RbTree): RbTree
    requires t.Bin? && t.left.Bin? && t.left.right.Bin?
  {
    RotateLL(t.(left := RotateRR(t.left)))
  }

  ghost function RotateRL(t: RbTree): RbTree
    requires t.Bin? && t.right.Bin? && t.right.left.Bin?
  {
    RotateRR(t.(right := RotateLL(t.right)))
  }

  /** The tree with its root in another colour. */
  ghost function Repaint(t: RbTree, c: Color): RbTree
    requires t.Bin?
  {
    t.(at := t.at.(color := c))
  }

  ghost function Flip(t: RbTree): RbTree
    requires t.Bin? && t.left.Bin? && t.right.Bin?
  {
    Repaint(t.(left := Repaint(t.left, Black), right := Repaint(t.right, Black)), Red)
  }

  ghost function RebalanceLeft(t: RbTree): RbTree
    requires t.Bin?
  {
    if !IsRed(t.left) then t
    else if IsRed(t.right) then Flip(t)
    else if IsRed(t.left.left) then RotateLL(t)
    else if IsRed(t.left.right) then RotateLR(t)
    else t
  }

  ghost function RebalanceRight(t: RbTree): RbTree
    requires t.Bin?
  {
    if !IsRed(t.right) then t
    else if IsRed(t.left) then Flip(t)
    else if IsRed(t.right.right) then RotateRR(t)
    else if IsRed(t.right.left) then RotateRL(t)
    else t
  }

  /** The same nodes, none shared, and the same listing. */
  ghost predicate Rearranges(t: RbTree, r: RbTree) {
    Refs(r) == Refs(t) && InOrder(r) == InOrder(t) && (Unshared(t) ==> Unshared(r))
  }

  lemma RotateLLRearranges(t: RbTree)
    requires t.Bin? && t.left.Bin?
    ensures Rearranges(t, RotateLL(t))
  {
    var Bin(at, l, x, r) := t.left;
    var lower := Bin(Painted(t.at.node, Red), r, t.item, t.right);
    assert InOrder(t) == InOrder(l) + [x] + InOrder(r) + [t.item] + InOrder(t.right);
    assert InOrder(lower) == InOrder(r) + [t.item] + InOrder(t.right);
    assert Refs(t.left) == {at.node} + Refs(l) + Refs(r);
    assert Unshared(t) ==> Unshared(t.left) && Unshared(lower);
  }

  lemma RotateRRRearranges(t: RbTree)
    requires t.Bin? && t.right.Bin?
    ensures Rearranges(t, RotateRR(t))
  {
    var Bin(at, l, x, r) := t.right;
    var lower := Bin(Painted(t.at.node, Red), t.left, t.item, l);
    assert InOrder(t) == InOrder(t.left) + [t.item] + (InOrder(l) + [x] + InOrder(r));
    assert InOrder(lower) == InOrder(t.left) + [t.item] + InOrder(l);
    assert Refs(t.right) == {at.node} + Refs(l) + Refs(r);
    assert Unshared(t) ==> Unshared(t.right) && Unshared(lower);
  }

  lemma RearrangesBelow(t: RbTree, c: Color, l: RbTree, r: RbTree)
    requires t.Bin? && Rearranges(t.left, l) && Rearranges(t.right, r)
    ensures Rearranges(t, t.(at := t.at.(color := c), left := l, right := r))
  {
  }

  lemma RotateLRRearranges(t: RbTree)
    requires t.Bin? && t.left.Bin? && t.left.right.Bin?
    ensures Rearranges(t, RotateLR(t))
  {
    RotateRRRearranges(t.left);
    RearrangesBelow(t, t.at.color, RotateRR(t.left), t.right);
    RotateLLRearranges(t.(left := RotateRR(t.left)));
  }

  lemma RotateRLRearranges(t: RbTree)
    requires t.Bin? && t.right.Bin? && t.right.left.Bin?
    ensures Rearranges(t, RotateRL(t))
  {
    RotateLLRearranges(t.right);
    RearrangesBelow(t, t.at.color, t.left, RotateLL(t.right));
    RotateRRRearranges(t.(right := RotateLL(t.right)));
  }

  lemma FlipRearranges(t: RbTree)
    requires t.Bin? && t.left.Bin? && t.right.Bin?
    ensures Rearranges(t, Flip(t))
  {
    RearrangesBelow(t, Red, Repaint(t.left, Black), Repaint(t.right, Black));
  }

  lemma RebalanceRearranges(t: RbTree)
    requires t.Bin?
    ensures Rearranges(t, RebalanceLeft(t)) && Rearranges(t, RebalanceRight(t))
  {
    if IsRed(t.left) && IsRed(t.right) {
      FlipRearranges(t);
    } else if IsRed(t.left) {
      if IsRed(t.left.left) {
        RotateLLRearranges(t);
      } else if IsRed(t.left.right) {
        RotateLRRearranges(t);
      }
    } else if IsRed(t.right) {
      if IsRed(t.right.right) {
        RotateRRRearranges(t);
      } else if IsRed(t.right.left) {
        RotateRLRearranges(t);
      }
    }
  }

  // ------------------------------------------------------------------- attach

  /** `rb_node_attach`: hang the red leaf `n` below `t`, rebalancing on the way
      back; when the key is there already, `n` is left out. */
  ghost function NodeAttach(t: RbTree, n: RbNode, p: Payload): (r: RbTree)
    ensures r.Bin?
  {
    if t.Nil? then Bin(Painted(n, Red), Nil, p, Nil)
    else if Compare(p, t.item) == 0 then t
    else if Compare(p, t.item) < 0 then RebalanceLeft(t.(left := NodeAttach(t.left, n, p)))
    else RebalanceRight(t.(right := NodeAttach(t.right, n, p)))
  }

  /** `RBtree_attach`: the new root is painted black. */
  ghost function Attach(t: RbTree, n: RbNode, p: Payload): (r: RbTree)
    ensures r.Bin?
  {
    var top := NodeAttach(t, n, p);
    Repaint(top, Black)
  }

  lemma {:induction false} NodeAttachRefs(t: RbTree, n: RbNode, p: Payload)
    ensures Refs(t) <= Refs(NodeAttach(t, n, p)) <= Refs(t) + {n}
    ensures Unshared(t) && n !in Refs(t) ==> Unshared(NodeAttach(t, n, p))
  {
    if t.Bin? && Compare(p, t.item) < 0 {
      NodeAttachRefs(t.left, n, p);
      RebalanceRearranges(t.(left := NodeAttach(t.left, n, p)));
    } else if t.Bin? && Compare(p, t.item) > 0 {
      NodeAttachRefs(t.right, n, p);
      RebalanceRearranges(t.(right := NodeAttach(t.right, n, p)));
    }
  }

  /** What comes back for a black or empty subtree is in order; for a red one its
      root is red and may have one red child. */
  ghost predicate ComesBack(t: RbTree, r: RbTree) {
    && EvenBlacks(r) && Blacks(r) == Blacks(t)
    && if IsRed(t) then IsRed(r) && NoRedRed(r.left) && NoRedRed(r.right) && !(IsRed(r.left) && IsRed(r.right))
       else NoRedRed(r)
  }

  lemma {:induction false} NodeAttachComesBack(t: RbTree, n: RbNode, p: Payload)
    requires NoRedRed(t) && EvenBlacks(t)
    ensures ComesBack(t, NodeAttach(t, n, p))
  {
    if t.Bin? && Compare(p, t.item) < 0 {
      NodeAttachComesBack(t.left, n, p);
      LeftComesBack(t, NodeAttach(t.left, n, p));
    } else if t.Bin? && Compare(p, t.item) > 0 {
      NodeAttachComesBack(t.right, n, p);
      RightComesBack(t, NodeAttach(t.right, n, p));
    }
  }

  lemma LeftComesBack(t: RbTree, l: RbTree)
    requires t.Bin? && NoRedRed(t) && EvenBlacks(t) && ComesBack(t.left, l)
    ensures ComesBack(t, RebalanceLeft(t.(left := l)))
  {
    var t' := t.(left := l);
    if IsRed(l) && !IsRed(t.right) {
      if IsRed(l.left) {
        RotateLLRestores(t');
      } else if IsRed(l.right) {
        RotateLRRestores(t');
      }
    } else if IsRed(l) {
      assert EvenBlacks(Repaint(l, Black)) && EvenBlacks(Repaint(t.right, Black));
    }
  }

  lemma RightComesBack(t: RbTree, r: RbTree)
    requires t.Bin? && NoRedRed(t) && EvenBlacks(t) && ComesBack(t.right, r)
    ensures ComesBack(t, RebalanceRight(t.(right := r)))
  {
    var t' := t.(right := r);
    if IsRed(r) && !IsRed(t.left) {
      if IsRed(r.right) {
        RotateRRRestores(t');
      } else if IsRed(r.left) {
        RotateRLRestores(t');
      }
    } else if IsRed(r) {
      assert EvenBlacks(Repaint(r, Black)) && EvenBlacks(Repaint(t.left, Black));
    }
  }

  /** A rotation under a black root removes the one pair of red nodes. */
  ghost predicate Restored(t: RbTree, r: RbTree) {
    r.Bin? && r.at.color == Black && EvenBlacks(r) && Blacks(r) == Blacks(t) && NoRedRed(r)
  }

  lemma RotateLLRestores(t: RbTree)
    requires t.Bin? && t.at.color == Black && EvenBlacks(t) && IsRed(t.left) && IsRed(t.left.left)
    requires NoRedRed(t.left.left) && NoRedRed(t.left.right) && !IsRed(t.left.right)
    requires NoRedRed(t.right) && !IsRed(t.right)
    ensures Restored(t, RotateLL(t))
  {
    var lower := Bin(Painted(t.at.node, Red), t.left.right, t.item, t.right);
    assert EvenBlacks(t.left) && EvenBlacks(lower) && NoRedRed(lower);
  }

  lemma RotateRRRestores(t: RbTree)
    requires t.Bin? && t.at.color == Black && EvenBlacks(t) && IsRed(t.right) && IsRed(t.right.right)
    requires NoRedRed(t.right.left) && NoRedRed(t.right.right) && !IsRed(t.right.left)
    requires NoRedRed(t.left) && !IsRed(t.left)
    ensures Restored(t, RotateRR(t))
  {
    var lower := Bin(Painted(t.at.node, Red), t.left, t.item, t.right.left);
    assert EvenBlacks(t.right) && EvenBlacks(lower) && NoRedRed(lower);
  }

  lemma RotateLRRestores(t: RbTree)
    requires t.Bin? && t.at.color == Black && EvenBlacks(t) && IsRed(t.left) && IsRed(t.left.right)
    requires NoRedRed(t.left.left) && NoRedRed(t.left.right) && !IsRed(t.left.left)
    requires NoRedRed(t.right) && !IsRed(t.right)
    ensures Restored(t, RotateLR(t))
  {
    var Bin(a, ll, x, lr) := t.left;
    var left := Bin(Painted(a.node, Red), ll, x, lr.left);
    var right := Bin(Painted(t.at.node, Red), lr.right, t.item, t.right);
    assert EvenBlacks(t.left) && EvenBlacks(lr);
    assert EvenBlacks(left) && EvenBlacks(right) && NoRedRed(left) && NoRedRed(right);
    assert RotateLR(t) == Bin(Painted(lr.at.node, Black), left, lr.item, right);
  }

  lemma RotateRLRestores(t: RbTree)
    requires t.Bin? && t.at.color == Black && EvenBlacks(t) && IsRed(t.right) && IsRed(t.right.left)
    requires NoRedRed(t.right.left) && NoRedRed(t.right.right) && !IsRed(t.right.right)
    requires NoRedRed(t.left) && !IsRed(t.left)
    ensures Restored(t, RotateRL(t))
  {
    var Bin(a, rl, x, rr) := t.right;
    var left := Bin(Painted(t.at.node, Red), t.left, t.item, rl.left);
    var right := Bin(Painted(a.node, Red), rl.right, x, rr);
    assert EvenBlacks(t.right) && EvenBlacks(rl);
    assert EvenBlacks(left) && EvenBlacks(right) && NoRedRed(left) && NoRedRed(right);
    assert RotateRL(t) == Bin(Painted(rl.at.node, Black), left, rl.item, right);
  }

  /** Attaching any key to a red-black tree gives a red-black tree, also when the
      key was there and only the flips and rotations on its path happen. */
  lemma AttachRedBlack(t: RbTree, n: RbNode, p: Payload)
    requires RedBlack(t)
    ensures RedBlack(Attach(t, n, p))
  {
    NodeAttachComesBack(t, n, p);
  }

  // ------------------------------------------------------------------ listing

  /** The listing gains the payload in its place, unless its key is there. */
  lemma {:induction false} NodeAttachListed(t: RbTree, n: RbNode, p: Payload)
    requires StrictlyOrdered(t)
    ensures InOrder(NodeAttach(t, n, p)) == InsertNew(InOrder(t), p)
    ensures n !in Refs(t) ==> (n in Refs(NodeAttach(t, n, p)) <==> LacksKey(InOrder(t), p.key))
  {
    if t.Nil? {
    } else {
      var l, x, r := InOrder(t.left), t.item, InOrder(t.right);
      LacksSplit(l, x, r, p.key);
      StrictBoundsListed(t.left, x.key);
      StrictBoundsListed(t.right, x.key);
      if p.key < x.key {
        NodeAttachListed(t.left, n, p);
        RebalanceRearranges(t.(left := NodeAttach(t.left, n, p)));
        InsertUpperBefore(l, x, r, p);
      } else if p.key > x.key {
        NodeAttachListed(t.right, n, p);
        RebalanceRearranges(t.(right := NodeAttach(t.right, n, p)));
        InsertUpperAfter(l, x, r, p);
      }
    }
  }

  lemma AttachListed(t: RbTree, n: RbNode, p: Payload)
    requires StrictlyOrdered(t)
    ensures InOrder(Attach(t, n, p)) == InsertNew(InOrder(t), p) && StrictlyOrdered(Attach(t, n, p))
    ensures n !in Refs(t) ==> (n in Refs(Attach(t, n, p)) <==> LacksKey(InOrder(t), p.key))
  {
    NodeAttachListed(t, n, p);
    StrictlyOrderedIsSorted(t);
    InsertNewStrict(InOrder(t), p);
    StrictlyOrderedIsSorted(Attach(t, n, p));
  }

  lemma AttachSize(t: RbTree, n: RbNode, p: Payload)
    requires StrictlyOrdered(t)
    ensures Size(Attach(t, n, p)) == Size(t) + if LacksKey(InOrder(t), p.key) then 1 else 0
  {
    AttachListed(t, n, p);
    SizeIsLength(t);
    SizeIsLength(Attach(t, n, p));
  }

  // ------------------------------------------------------------- sanity check

  /** The steps of a path from the root to a null link: true is left. */
  ghost predicate IsPath(t: RbTree, path: seq<bool>) {
    if t.Nil? then path == [] else path != [] && IsPath(if path[0] then t.left else t.right, path[1..])
  }

  ghost function BlacksOn(t: RbTree, path: seq<bool>): nat
    requires IsPath(t, path)
  {
    if t.Nil? then 0
    else BlacksOn(if path[0] then t.left else t.right, path[1..]) + if t.at.color == Black then 1 else 0
  }

  ghost predicate EveryPathHas(t: RbTree, k: nat) {
    forall path :: IsPath(t, path) ==> BlacksOn(t, path) == k
  }

  /** `rb_sanity_check`: the number it returns, zero for a violation. */
  ghost function Sanity(t: RbTree): nat {
    if t.Nil? then 1
    else
      var l, r := Sanity(t.left), Sanity(t.right);
      if l == 0 || r == 0 || l != r then 0 else if t.at.color == Red then l else l + 1
  }

  /** The check returns nonzero exactly when all paths carry the same number of
      black nodes, and then that number plus one. */
  lemma SanityMeaning(t: RbTree)
    ensures Sanity(t) != 0 <==> exists k :: EveryPathHas(t, k)
    ensures Sanity(t) != 0 ==> EveryPathHas(t, Sanity(t) - 1)
  {
    if Sanity(t) != 0 {
      SanitySound(t);
    } else {
      var a, b := SanityComplete(t);
    }
  }

  lemma {:induction false} SanitySound(t: RbTree)
    requires Sanity(t) != 0
    ensures EveryPathHas(t, Sanity(t) - 1)
  {
    if t.Bin? {
      SanitySound(t.left);
      SanitySound(t.right);
    }
  }

  lemma {:induction false} SomePath(t: RbTree) returns (path: seq<bool>)
    ensures IsPath(t, path)
  {
    if t.Nil? {
      path := [];
    } else {
      var rest := SomePath(t.left);
      path := [true] + rest;
    }
  }

  /** A violation shows as two paths that differ. */
  lemma {:induction false} SanityComplete(t: RbTree) returns (a: seq<bool>, b: seq<bool>)
    requires Sanity(t) == 0
    ensures IsPath(t, a) && IsPath(t, b) && BlacksOn(t, a) != BlacksOn(t, b)
  {
    var x, y;
    if Sanity(t.left) == 0 {
      x, y := SanityComplete(t.left);
      a, b := [true] + x, [true] + y;
    } else if Sanity(t.right) == 0 {
      x, y := SanityComplete(t.right);
      a, b := [false] + x, [false] + y;
    } else {
      SanitySound(t.left);
      SanitySound(t.right);
      x := SomePath(t.left);
      y := SomePath(t.right);
      a, b := [true] + x, [false] + y;
    }
  }

  /** Every red-black tree passes the check. */
  lemma {:induction false} RedBlackIsSane(t: RbTree)
    requires EvenBlacks(t)
    ensures Sanity(t) == Blacks(t) + 1
  {
    if t.Bin? {
      RedBlackIsSane(t.left);
      RedBlackIsSane(t.right);
    }
  }

  // ------------------------------------------------------------------- height

  ghost function Pow2(n: nat): nat {
    if n == 0 then 1 else 2 * Pow2(n - 1)
  }

  /** The base-two logarithm, rounded down. */
  ghost function Log2(n: nat): (log: nat)
    requires n > 0
    ensures Pow2(log) <= n < Pow2(log + 1)
  {
    if n == 1 then 0 else 1 + Log2(n / 2)
  }

  lemma {:induction false} Pow2Positive(n: nat)
    ensures Pow2(n) >= 1
  {
    if n > 0 {
      Pow2Positive(n - 1);
    }
  }

  lemma {:induction false} Pow2BelowLog2(k: nat, n: nat)
    requires 0 < n && Pow2(k) <= n
    ensures k <= Log2(n)
  {
    if k > 0 {
      assert Pow2(k) == 2 * Pow2(k - 1);
      Pow2Positive(k - 1);
      Pow2BelowLog2(k - 1, n / 2);
    }
  }

  lemma {:induction false} EvenBlacksSize(t: RbTree)
    requires EvenBlacks(t)
    ensures Size(t) + 1 >= Pow2(Blacks(t))
  {
    if t.Bin? {
      EvenBlacksSize(t.left);
      EvenBlacksSize(t.right);
    }
  }

  lemma {:induction false} HeightAgainstBlacks(t: RbTree)
    requires EvenBlacks(t) && NoRedRed(t)
    ensures Height(t) <= 2 * Blacks(t) + if IsRed(t) then 1 else 0
  {
    if t.Bin? {
      HeightAgainstBlacks(t.left);
      HeightAgainstBlacks(t.right);
    }
  }

  lemma {:induction false} Pow2Monotone(m: nat, n: nat)
    requires m <= n
    ensures Pow2(m) <= Pow2(n)
    decreases n
  {
    if m < n {
      Pow2Monotone(m, n - 1);
    }
  }

  /** A red-black tree of n nodes is at most 2 log2(n + 1) high. */
  lemma RedBlackHeight(t: RbTree)
    requires RedBlack(t)
    ensures Size(t) + 1 >= Pow2((Height(t) + 1) / 2)
    ensures Height(t) <= 2 * Log2(Size(t) + 1)
  {
    EvenBlacksSize(t);
    HeightAgainstBlacks(t);
    Pow2Monotone((Height(t) + 1) / 2, Blacks(t));
    Pow2BelowLog2((Height(t) + 1) / 2, Size(t) + 1);
  }
}
