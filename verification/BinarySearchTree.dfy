/** The plain binary search tree: attach, lookup, and removal by splicing nodes. */
module BinarySearchTree {
  import opened Payloads
  import opened Trees
  import opened TreeNodes
  import opened TreePaths

  /** Smaller keys to the left, equal and greater ones to the right. */
  ghost predicate Searchable(t: NodeTree) {
    t.Bin? ==>
      Below(t.left, t.item.key) && AtLeast(t.right, t.item.key) && Searchable(t.left) && Searchable(t.right)
  }

  lemma {:induction false} SearchableIsOrdered(t: NodeTree)
    requires Searchable(t)
    ensures Ordered(t)
  {
    if t.Bin? {
      SearchableIsOrdered(t.left);
      SearchableIsOrdered(t.right);
      BelowIsAtMost(t.left, t.item.key);
    }
  }

  lemma {:induction false} BelowIsAtMost(t: NodeTree, k: int)
    requires Below(t, k)
    ensures AtMost(t, k)
  {
    if t.Bin? {
      BelowIsAtMost(t.left, k);
      BelowIsAtMost(t.right, k);
    }
  }

  lemma {:induction false} BoundsWeaken(t: NodeTree, k: int, k': int)
    requires k <= k'
    ensures Below(t, k) ==> Below(t, k')
    ensures AtLeast(t, k') ==> AtLeast(t, k)
  {
    if t.Bin? {
      BoundsWeaken(t.left, k, k');
      BoundsWeaken(t.right, k, k');
    }
  }

  // ------------------------------------------------------------------- attach

  lemma {:induction false} InsertBounds(t: NodeTree, n: Node, p: Payload, k: int)
    ensures Below(t, k) && p.key < k ==> Below(Insert(t, n, p), k)
    ensures AtLeast(t, k) && k <= p.key ==> AtLeast(Insert(t, n, p), k)
  {
    if t.Bin? {
      InsertBounds(t.left, n, p, k);
      InsertBounds(t.right, n, p, k);
    }
  }

  /** Attaching keeps smaller keys left and the others right of every node, and
      puts the payload behind its equals in the listing. */
  lemma {:induction false} InsertSearchable(t: NodeTree, n: Node, p: Payload)
    requires Searchable(t)
    ensures Searchable(Insert(t, n, p))
    ensures InOrder(Insert(t, n, p)) == InsertUpper(InOrder(t), p)
  {
    SearchableIsOrdered(t);
    InsertListed(t, n, p);
    if t.Bin? {
      InsertSearchable(t.left, n, p);
      InsertSearchable(t.right, n, p);
      InsertBounds(t.left, n, p, t.item.key);
      InsertBounds(t.right, n, p, t.item.key);
    }
  }

  /** `BStree_attach` */
  method Attach(tag: SearchTree, data: Payload) returns (ghost node: Node)
    requires tag.Valid()
    modifies tag, Refs(tag.tree)
    ensures tag.Valid() && tag.removed == old(tag.removed) && fresh(node)
    ensures tag.tree == Insert(old(tag.tree), node, data)
  {
    assert allocated(Refs(tag.tree));
    var attached := new Node(data);
    node := attached;
    InsertRefs(tag.tree, attached, data);
    if tag.root != null {
      NodeAttach(tag.root, attached, tag.tree);
    } else {
      tag.root := attached;
    }
    tag.numNodes := tag.numNodes + 1;
    tag.tree := Insert(tag.tree, attached, data);
  }

  // ------------------------------------------------------------------- lookup

  /** `lookup`: the node found, and the node above it or else `above`. */
  method Lookup(current: Node, data: Payload, above: Node?, ghost t: NodeTree) returns (found: Node?, parent: Node?)
    requires Shape(current, t)
    ensures Leads(t, FoundPath(t, data.key)) && found == Root(Found(t, data.key))
    ensures found != null ==>
      parent == if FoundPath(t, data.key) == Here then above else Parent(t, FoundPath(t, data.key)).at
    decreases t
  {
    FoundPathLeads(t, data.key);
    found, parent := null, above;
    var result := Compare(data, current.data);
    if result < 0 {
      if current.left != null {
        found, parent := Lookup(current.left, data, current, t.left);
      }
    } else if result > 0 {
      if current.right != null {
        found, parent := Lookup(current.right, data, current, t.right);
      }
    } else {
      found := current;
    }
  }

  /** The search meets the first listed payload of the key, if there is one. */
  lemma {:induction false} FoundIsFirst(t: NodeTree, k: int)
    requires Searchable(t)
    ensures Found(t, k).Nil? <==> LacksKey(InOrder(t), k)
    ensures Found(t, k).Bin? ==>
      FirstIndex(InOrder(t), k) < Size(t) == |InOrder(t)| && InOrder(t)[FirstIndex(InOrder(t), k)] == Found(t, k).item
  {
    if t.Bin? {
      var l, x, r := InOrder(t.left), t.item, InOrder(t.right);
      SidesLackKey(t, k);
      LacksSplit(l, x, r, k);
      FoundIsFirst(t.left, k);
      FoundIsFirst(t.right, k);
      FirstIndexSplit(l, x, r, k);
      SizeIsLength(t);
      if !LacksKey(InOrder(t), k) {
        PresentIndex(InOrder(t), k);
      }
    }
  }

  lemma SidesLackKey(t: NodeTree, k: int)
    requires t.Bin? && Searchable(t)
    ensures k < t.item.key ==> LacksKey(InOrder(t.right), k)
    ensures k >= t.item.key ==> LacksKey(InOrder(t.left), k)
  {
    StrictBounds(t.left, t.item.key);
    BoundsListed(t.left, t.item.key - 1);
    BoundsListed(t.right, t.item.key);
    BoundsLack(InOrder(t.left), t.item.key - 1, k);
    BoundsLack(InOrder(t.right), t.item.key, k);
  }

  lemma PresentIndex(s: seq<Payload>, k: int)
    requires !LacksKey(s, k)
    ensures FirstIndex(s, k) < |s|
  {
    assert s[..|s|] == s;
  }

  lemma FirstIndexSplit(l: seq<Payload>, x: Payload, r: seq<Payload>, k: int)
    ensures var s := l + [x] + r;
      !LacksKey(s, k) ==>
        (s[FirstIndex(s, k)] ==
         if !LacksKey(l, k) then l[FirstIndex(l, k)] else if x.key == k then x else r[FirstIndex(r, k)])
  {
    var s := l + [x] + r;
    LacksSplit(l, x, r, k);
    if !LacksKey(l, k) {
      var i := FirstIndex(l, k);
      PresentIndex(l, k);
      assert s[..i] == l[..i];
      IndexUnique(s, k, i);
    } else if x.key == k {
      assert s[..|l|] == l;
      IndexUnique(s, k, |l|);
    } else if !LacksKey(r, k) {
      var i := FirstIndex(r, k);
      PresentIndex(r, k);
      assert s[..|l| + 1 + i] == l + [x] + r[..i];
      LacksSplit(l, x, r[..i], k);
      IndexUnique(s, k, |l| + 1 + i);
    }
  }

  // ------------------------------------------------------------------- remove

  ghost function Leftmost(t: NodeTree): (m: NodeTree)
    requires t.Bin?
    ensures m.Bin? && m.left.Nil?
  {
    if t.left.Nil? then t else Leftmost(t.left)
  }

  ghost function LeftPath(t: NodeTree): Path {
    if t.Nil? || t.left.Nil? then Here else L(LeftPath(t.left))
  }

  /** `t` without its leftmost node. */
  ghost function DropLeftmost(t: NodeTree): NodeTree
    requires t.Bin?
  {
    if t.left.Nil? then t.right else t.(left := DropLeftmost(t.left))
  }

  /** The victims that the removal code handles: no right child, or one that has
      a left child itself. */
  ghost predicate SpliceSafe(v: NodeTree)
    requires v.Bin?
  {
    v.right.Nil? || v.right.left.Bin?
  }

  /** What takes the victim's place: its left side, or its successor node with the
      victim's children around it. */
  ghost function Spliced(v: NodeTree): NodeTree
    requires v.Bin?
  {
    if v.right.Nil? then v.left
    else Bin(Leftmost(v.right).at, v.left, Leftmost(v.right).item, DropLeftmost(v.right))
  }

  ghost function Delete(t: NodeTree, k: int): NodeTree
    requires Found(t, k).Bin?
  {
    if t.item.key == k then Spliced(t)
    else if k < t.item.key then t.(left := Delete(t.left, k))
    else t.(right := Delete(t.right, k))
  }

  lemma {:induction false} DeleteIsReplacing(t: NodeTree, k: int)
    requires Found(t, k).Bin?
    ensures Leads(t, FoundPath(t, k)) && Delete(t, k) == Replace(t, FoundPath(t, k), Spliced(Found(t, k)))
  {
    if t.item.key != k {
      DeleteIsReplacing(if k < t.item.key then t.left else t.right, k);
    }
  }

  lemma {:induction false} DropIsReplacing(t: NodeTree)
    requires t.Bin?
    ensures Leads(t, LeftPath(t)) && Down(t, LeftPath(t)) == Leftmost(t)
    ensures DropLeftmost(t) == Replace(t, LeftPath(t), Leftmost(t).right)
    ensures LeftPath(t) != Here ==> EndsLeft(LeftPath(t))
  {
    if t.left.Bin? {
      DropIsReplacing(t.left);
    }
  }

  lemma {:induction false} DropLeftmostEffect(t: NodeTree)
    requires t.Bin?
    ensures InOrder(t) == [Leftmost(t).item] + InOrder(DropLeftmost(t)) && Size(t) == Size(DropLeftmost(t)) + 1
    ensures Unshared(t) ==>
      Refs(DropLeftmost(t)) == Refs(t) - {Leftmost(t).at} && Leftmost(t).at in Refs(t) && Unshared(DropLeftmost(t))
  {
    if t.left.Nil? {
      assert InOrder(t) == [] + [t.item] + InOrder(t.right);
    } else {
      DropLeftmostEffect(t.left);
      assert InOrder(t) == InOrder(t.left) + [t.item] + InOrder(t.right);
    }
  }

  /** The victim leaves, its nodes otherwise stay, and none is shared. */
  lemma SplicedEffect(v: NodeTree)
    requires v.Bin?
    ensures InOrder(Spliced(v)) == InOrder(v.left) + InOrder(v.right) && Size(v) == Size(Spliced(v)) + 1
    ensures Unshared(v) ==> Refs(Spliced(v)) == Refs(v) - {v.at} && Unshared(Spliced(v))
  {
    SplicedListed(v);
    if v.right.Bin? {
      DropLeftmostEffect(v.right);
    }
  }

  lemma SplicedListed(v: NodeTree)
    requires v.Bin?
    ensures InOrder(Spliced(v)) == InOrder(v.left) + InOrder(v.right)
  {
    if v.right.Bin? {
      DropLeftmostEffect(v.right);
      Joined(InOrder(v.left), [Leftmost(v.right).item], InOrder(DropLeftmost(v.right)));
    } else {
      assert InOrder(v.left) + [] == InOrder(v.left);
    }
  }

  /** Exactly the first listed payload of the key leaves. */
  lemma {:induction false} DeleteListed(t: NodeTree, k: int)
    requires Searchable(t) && Found(t, k).Bin?
    ensures InOrder(Delete(t, k)) == RemoveFirst(InOrder(t), k)
    ensures Size(t) == Size(Delete(t, k)) + 1
  {
    var l, x, r := InOrder(t.left), t.item, InOrder(t.right);
    SidesLackKey(t, k);
    if x.key == k {
      SplicedEffect(t);
      RemoveFirstAt(l, x, r);
    } else if k < x.key {
      DeleteListed(t.left, k);
      RemoveFirstBefore(l, x, r, k);
    } else {
      DeleteListed(t.right, k);
      RemoveFirstAfter(l, x, r, k);
    }
  }

  lemma {:induction false} DropLeftmostBounds(t: NodeTree, k: int)
    requires t.Bin?
    ensures Below(t, k) ==> Leftmost(t).item.key < k && Below(DropLeftmost(t), k)
    ensures AtLeast(t, k) ==> k <= Leftmost(t).item.key && AtLeast(DropLeftmost(t), k)
  {
    if t.left.Bin? {
      DropLeftmostBounds(t.left, k);
    }
  }

  lemma {:induction false} DropLeftmostSearchable(t: NodeTree)
    requires t.Bin? && Searchable(t)
    ensures Searchable(DropLeftmost(t)) && AtLeast(DropLeftmost(t), Leftmost(t).item.key)
  {
    if t.left.Bin? {
      DropLeftmostSearchable(t.left);
      DropLeftmostBounds(t.left, t.item.key);
      BoundsWeaken(t.right, Leftmost(t).item.key, t.item.key);
    }
  }

  lemma {:induction false} DeleteBounds(t: NodeTree, k: int, b: int)
    requires Found(t, k).Bin?
    ensures Below(t, b) ==> Below(Delete(t, k), b)
    ensures AtLeast(t, b) ==> AtLeast(Delete(t, k), b)
  {
    if t.item.key == k {
      if t.right.Bin? {
        DropLeftmostBounds(t.right, b);
      }
    } else {
      DeleteBounds(if k < t.item.key then t.left else t.right, k, b);
    }
  }

  /** Removal keeps smaller keys left and the others right of every node. */
  lemma {:induction false} DeleteSearchable(t: NodeTree, k: int)
    requires Searchable(t) && Found(t, k).Bin?
    ensures Searchable(Delete(t, k))
  {
    if t.item.key == k {
      if t.right.Bin? {
        DropLeftmostSearchable(t.right);
        DropLeftmostBounds(t.right, t.item.key);
        BoundsWeaken(t.left, t.item.key, Leftmost(t.right).item.key);
      }
    } else if k < t.item.key {
      DeleteSearchable(t.left, k);
      DeleteBounds(t.left, k, t.item.key);
    } else {
      DeleteSearchable(t.right, k);
      DeleteBounds(t.right, k, t.item.key);
    }
  }

  /** `retrieve_smallest`: the leftmost node, and the node above it or else `above`. */
  method RetrieveSmallest(node: Node, above: Node?, ghost t: NodeTree) returns (smallest: Node, parent: Node?)
    requires Shape(node, t)
    ensures Leads(t, LeftPath(t)) && smallest == Leftmost(t).at
    ensures parent == if t.left.Nil? then above else Parent(t, LeftPath(t)).at
    decreases t
  {
    DropIsReplacing(t);
    smallest, parent := node, above;
    if node.left != null {
      smallest, parent := RetrieveSmallest(node.left, node, t.left);
    }
  }

  datatype Removal = Removed | NotFound | NullDereference

  /** A node that is its own child is spelled by no tree. */
  lemma {:induction false} SelfLinkSpellsNothing(c: Node, s: NodeTree)
    requires c.right == c && Shape(c, s)
    ensures false
    decreases s
  {
    SelfLinkSpellsNothing(c, s.right);
  }

  /** Whatever tree the nodes spell now, it passes through the slot at `path` as
      long as the nodes around that slot are in place. */
  lemma {:induction false} PassesSlot(t: NodeTree, path: Path, t': NodeTree) returns (s: NodeTree)
    requires Leads(t, path) && path != Here && Unshared(t) && Around(t, path) && Shape(t.at, t')
    ensures Shape(if EndsLeft(path) then Parent(t, path).at.left else Parent(t, path).at.right, s)
  {
    if path.rest == Here {
      s := if path.L? then t'.left else t'.right;
    } else if path.L? {
      s := PassesSlot(t.left, path.rest, t'.left);
    } else {
      s := PassesSlot(t.right, path.rest, t'.right);
    }
  }

  lemma {:induction false} SpelledOnce(n: Node?, t: NodeTree, t': NodeTree)
    requires Shape(n, t) && Shape(n, t')
    ensures t == t'
  {
    if t.Bin? {
      SpelledOnce(n.left, t.left, t'.left);
      SpelledOnce(n.right, t.right, t'.right);
    }
  }

  /** After the relinking of a victim that can be spliced, its successor heads
      what takes its place. */
  lemma RelinkedSplices(v: NodeTree, q: Node)
    requires v.Bin? && Unshared(v) && v.right.Bin? && v.right.left.Bin?
    requires Leads(v.right, LeftPath(v.right)) && LeftPath(v.right) != Here
    requires q == Parent(v.right, LeftPath(v.right)).at
    requires var w, m := v.right, Leftmost(v.right);
      && Shape(Root(v.left), v.left) && Around(w, LeftPath(w)) && Shape(Root(m.right), m.right)
      && q.left == Root(m.right) && q.data == Parent(w, LeftPath(w)).item
      && q.right == Root(Parent(w, LeftPath(w)).right)
      && m.at.data == m.item && m.at.left == Root(v.left) && m.at.right == Root(w)
    ensures Shape(Root(Spliced(v)), Spliced(v))
  {
    DropIsReplacing(v.right);
    Plug(v.right, LeftPath(v.right), Leftmost(v.right).right);
  }

  /** The nodes that the removal code writes to when the victim has a right child:
      the holder of its slot, its successor and the node above that. */
  ghost function Touched(slot: Slot, v: NodeTree): set<Node>
    requires v.Bin? && v.right.Bin?
  {
    DropIsReplacing(v.right);
    (if slot.AtRoot? then {} else {slot.parent}) + {Leftmost(v.right).at} +
    (if v.right.left.Nil? then {} else {Parent(v.right, LeftPath(v.right)).at})
  }

  /** The removal code for a victim with a right child, write by write. */
  method FillFromRight(tag: SearchTree, position: Slot, found: Node, parent: Node?, ghost v: NodeTree)
    returns (outcome: Removal)
    requires Spells(found, v) && v.right.Bin?
    requires Leads(v.right, LeftPath(v.right)) && (v.right.left.Bin? <==> LeftPath(v.right) != Here)
    requires if position.AtRoot? then parent == null else parent == position.parent && parent !in Refs(v)
    modifies tag`root, Touched(position, v)
    ensures outcome == if parent == null && v.right.left.Nil? then NullDereference else Removed
    ensures tag.root == if position.AtRoot? then Leftmost(v.right).at else old(tag.root)
    ensures outcome == Removed ==>
      var c := Leftmost(v.right).at;
      && c.data == Leftmost(v.right).item && c.left == old(found.left) && c.right == old(found.right)
      && (v.right.left.Bin? ==>
            var Bin(q, _, x, r) := Parent(v.right, LeftPath(v.right));
            q.left == Root(Leftmost(v.right).right) && q.right == Root(r) && q.data == x)
    ensures outcome == Removed && parent != null ==>
      var c, lost := Leftmost(v.right).at, v.right.left.Nil?;
      && parent.data == old(parent.data)
      && parent.left == (if lost then Root(Leftmost(v.right).right)
                         else if position.LeftOf? then c else old(parent.left))
      && parent.right == (if position.RightOf? then c else old(parent.right))
  {
    assert allocated(Refs(v));
    assert Spells(found.right, v.right);
    DropIsReplacing(v.right);
    DownRefs(v.right, LeftPath(v.right));
    ShapeDown(found.right, v.right, LeftPath(v.right));
    var candidate, above := RetrieveSmallest(found.right, parent, v.right);
    match position {
      case AtRoot => tag.root := candidate;
      case LeftOf(n) => n.left := candidate;
      case RightOf(n) => n.right := candidate;
    }
    if above == null {
      return NullDereference;
    }
    above.left := candidate.right;
    candidate.left := found.left;
    if candidate.right != found.right {
      candidate.right := found.right;
    }
    outcome := Removed;
  }

  /** What removing the victim at `path` leaves in the nodes, successor and all.
      Where the successor is the right child itself, the code takes the victim's
      parent for the successor's: it stores the successor's right side as left
      child there. */
  ghost predicate Unlinked(root: Node?, t: NodeTree, path: Path)
    requires Leads(t, path) && Down(t, path).Bin? && Unshared(t)
    reads Refs(t)
  {
    var v := Down(t, path);
    if SpliceSafe(v) then
      DeletedRefs(t, path);
      Shape(root, Replace(t, path, Spliced(v)))
    else if path == Here then false
    else if EndsLeft(path) then
      LossyRefs(t, path);
      Shape(root, Replace(t, path, v.right.right))
    else
      DownRefs(t, path);
      && root == t.at && Around(t, path)
      && Parent(t, path).at.right == v.right.at && v.right.at.right == v.right.at
  }

  lemma DeletedRefs(t: NodeTree, path: Path)
    requires Leads(t, path) && Down(t, path).Bin? && Unshared(t)
    ensures Refs(Replace(t, path, Spliced(Down(t, path)))) <= Refs(t)
    ensures Unshared(Replace(t, path, Spliced(Down(t, path))))
  {
    DownRefs(t, path);
    SplicedEffect(Down(t, path));
    ReplaceRefs(t, path, Spliced(Down(t, path)));
  }

  lemma LossyRefs(t: NodeTree, path: Path)
    requires Leads(t, path) && Down(t, path).Bin? && Down(t, path).right.Bin? && Unshared(t)
    ensures Refs(Replace(t, path, Down(t, path).right.right)) <= Refs(t)
    ensures Unshared(Replace(t, path, Down(t, path).right.right))
  {
    DownRefs(t, path);
    ReplaceRefs(t, path, Down(t, path).right.right);
  }

  /** The fields below the victim's slot after `FillFromRight`. */
  ghost predicate FilledBelow(v: NodeTree)
    requires v.Bin? && v.right.Bin? && Unshared(v)
    reads Refs(v)
  {
    var w, m := v.right, Leftmost(v.right);
    UnlinkRefs(v);
    DropIsReplacing(w);
    && Shape(Root(v.left), v.left) && Shape(Root(m.right), m.right)
    && m.at.data == m.item && m.at.left == Root(v.left) && m.at.right == Root(w)
    && (w.left.Bin? ==>
          var Bin(q, _, x, r) := Parent(w, LeftPath(w));
          Around(w, LeftPath(w)) && q.left == Root(m.right) && q.data == x && q.right == Root(r))
  }

  /** The slot itself, and the nodes around it. */
  ghost predicate FilledAbove(root: Node?, t: NodeTree, path: Path)
    requires Leads(t, path) && Down(t, path).Bin? && Down(t, path).right.Bin? && Unshared(t)
    reads Refs(t)
  {
    var w, m := Down(t, path).right, Leftmost(Down(t, path).right);
    DownRefs(t, path);
    && (path == Here ==> root == m.at)
    && (path != Here ==>
          var Bin(p, l, x, r) := Parent(t, path);
          && root == t.at && Around(t, path) && p.data == x
          && p.left == (if w.left.Nil? then Root(m.right) else if EndsLeft(path) then m.at else Root(l))
          && p.right == (if EndsLeft(path) then Root(r) else m.at))
  }

  lemma UnlinkRefs(v: NodeTree)
    requires v.Bin? && v.right.Bin? && Unshared(v)
    ensures Refs(v.left) + Refs(v.right) <= Refs(v)
    ensures Leftmost(v.right).at in Refs(v) && Refs(Leftmost(v.right).right) <= Refs(v.right)
    ensures LeftPath(v.right) != Here <==> v.right.left.Bin?
    ensures Leads(v.right, LeftPath(v.right))
    ensures v.right.left.Bin? ==> Parent(v.right, LeftPath(v.right)).at in Refs(v)
  {
    DropIsReplacing(v.right);
    DownRefs(v.right, LeftPath(v.right));
  }

  lemma FilledUnlinks(root: Node?, t: NodeTree, path: Path)
    requires Leads(t, path) && Down(t, path).Bin? && Down(t, path).right.Bin? && Unshared(t)
    requires Unshared(Down(t, path)) && FilledBelow(Down(t, path)) && FilledAbove(root, t, path)
    requires SpliceSafe(Down(t, path)) || path != Here
    ensures Unlinked(root, t, path)
  {
    var v := Down(t, path);
    DownRefs(t, path);
    UnlinkRefs(v);
    if SpliceSafe(v) {
      RelinkedSplices(v, Parent(v.right, LeftPath(v.right)).at);
      if path != Here {
        Plug(t, path, Spliced(v));
      }
    } else if path != Here && EndsLeft(path) {
      Plug(t, path, v.right.right);
    }
  }

  /** The victim's slot gets the victim's left side. */
  method FillFromLeft(tag: SearchTree, position: Slot, found: Node, ghost t: NodeTree, ghost path: Path)
    requires Spells(tag.root, t) && Leads(t, path) && position == SlotOf(t, path)
    requires Down(t, path).Bin? && found == Down(t, path).at && Down(t, path).right.Nil?
    modifies tag`root, Refs(t)
    ensures Unlinked(tag.root, t, path)
  {
    ShapeDown(tag.root, t, path);
    DownRefs(t, path);
    if path != Here {
      ShapeAround(tag.root, t, path);
    }
    tag.Redirect(position, found.left, t, path, Down(t, path).left);
  }

  method FillBelow(tag: SearchTree, position: Slot, found: Node, parent: Node?, ghost v: NodeTree)
    returns (outcome: Removal)
    requires Spells(found, v) && v.right.Bin?
    requires if position.AtRoot? then parent == null else parent == position.parent && parent !in Refs(v)
    modifies tag`root, Touched(position, v)
    ensures outcome == if parent == null && v.right.left.Nil? then NullDereference else Removed
    ensures tag.root == if position.AtRoot? then Leftmost(v.right).at else old(tag.root)
    ensures outcome == Removed ==> FilledBelow(v)
    ensures outcome == Removed && parent != null ==>
      var c, lost := Leftmost(v.right).at, v.right.left.Nil?;
      && parent.data == old(parent.data)
      && parent.left == (if lost then Root(Leftmost(v.right).right)
                         else if position.LeftOf? then c else old(parent.left))
      && parent.right == (if position.RightOf? then c else old(parent.right))
  {
    ghost var w, m := v.right, Leftmost(v.right);
    UnlinkFacts(v);
    TouchedApart(position, v);
    assert allocated(Refs(v.left)) && allocated(Refs(w)) && allocated(Refs(m.right));
    outcome := FillFromRight(tag, position, found, parent, v);
    if outcome == Removed {
      assert Shape(Root(v.left), v.left) && Shape(Root(m.right), m.right);
    }
  }

  /** What the removal finds around the victim's slot. */
  lemma UnlinkReady(root: Node?, t: NodeTree, path: Path)
    requires Spells(root, t) && Leads(t, path) && Down(t, path).Bin? && Down(t, path).right.Bin?
    ensures var v := Down(t, path);
      && Spells(v.at, v) && Refs(v) <= Refs(t) && Touched(SlotOf(t, path), v) <= Refs(t)
      && (path != Here ==>
            var Bin(p, l, x, r) := Parent(t, path);
            && root == t.at && Around(t, path) && p !in Refs(v) && p in Refs(t)
            && p.data == x && p.left == Root(l) && p.right == Root(r)
            && Touched(SlotOf(t, path), v) !! (Refs(t) - Refs(v) - {p}))
  {
    ShapeDown(root, t, path);
    DownRefs(t, path);
    TouchedInside(t, path);
    if path != Here {
      ShapeAround(root, t, path);
    }
  }

  method Unlink(tag: SearchTree, position: Slot, found: Node, parent: Node?, ghost t: NodeTree, ghost path: Path)
    returns (outcome: Removal)
    requires Spells(tag.root, t) && Leads(t, path) && position == SlotOf(t, path)
    requires Down(t, path).Bin? && found == Down(t, path).at && Down(t, path).right.Bin?
    requires parent == if path == Here then null else Parent(t, path).at
    modifies tag`root, Refs(t)
    ensures outcome == if !SpliceSafe(Down(t, path)) && path == Here then NullDereference else Removed
    ensures outcome == Removed ==> Unlinked(tag.root, t, path)
  {
    ghost var v := Down(t, path);
    UnlinkReady(tag.root, t, path);
    assert allocated(Refs(t));
    outcome := FillBelow(tag, position, found, parent, v);
    if outcome == Removed {
      assert path != Here ==> Around(t, path);
      FilledUnlinks(tag.root, t, path);
    }
  }

  lemma TouchedInside(t: NodeTree, path: Path)
    requires Unshared(t) && Leads(t, path) && Down(t, path).Bin? && Down(t, path).right.Bin?
    ensures Touched(SlotOf(t, path), Down(t, path)) <= Refs(t)
    ensures path != Here ==>
      Touched(SlotOf(t, path), Down(t, path)) !! (Refs(t) - Refs(Down(t, path)) - {Parent(t, path).at})
  {
    DownRefs(t, path);
    UnlinkRefs(Down(t, path));
  }

  lemma TouchedApart(slot: Slot, v: NodeTree)
    requires v.Bin? && Unshared(v) && v.right.Bin? && (slot.AtRoot? || slot.parent !in Refs(v))
    ensures var w, touched := v.right, Touched(slot, v);
      && Leads(w, LeftPath(w)) && (w.left.Bin? <==> LeftPath(w) != Here)
      && touched !! Refs(v.left) && touched !! Refs(Leftmost(w).right)
      && (w.left.Bin? ==> touched !! (Refs(w) - Refs(Down(w, LeftPath(w))) - {Parent(w, LeftPath(w)).at}))
  {
    DropIsReplacing(v.right);
    DownRefs(v.right, LeftPath(v.right));
  }

  lemma UnlinkFacts(v: NodeTree)
    requires v.Bin? && Spells(v.at, v) && v.right.Bin?
    ensures var w, m := v.right, Leftmost(v.right);
      && Leads(w, LeftPath(w)) && Shape(Root(v.left), v.left) && Shape(Root(m.right), m.right)
      && m.at in Refs(w) && m.at !in Refs(v.left) && m.at !in Refs(m.right)
      && m.at.data == m.item && m.at.right == Root(m.right)
      && Refs(m.right) <= Refs(w)
      && (w.left.Nil? <==> LeftPath(w) == Here)
      && (w.left.Nil? ==> w == m)
      && (w.left.Bin? ==>
            var Bin(q, _, x, r) := Parent(w, LeftPath(w));
            && Around(w, LeftPath(w)) && q in Refs(w) && q !in Refs(v.left) && q != m.at && q !in Refs(m.right)
            && q.data == x && q.right == Root(r))
  {
    var w, m := v.right, Leftmost(v.right);
    DropIsReplacing(w);
    DownRefs(w, LeftPath(w));
    ShapeDown(w.at, w, LeftPath(w));
    assert Spells(m.at, m);
    if w.left.Bin? {
      ShapeAround(w.at, w, LeftPath(w));
    }
  }

  /** The tree that a removal leaves when the victim is a left child whose right
      child has no left child: the successor and the victim's left side are lost. */
  ghost function Lossy(t: NodeTree, k: int): NodeTree
    requires Found(t, k).Bin? && Found(t, k).right.Bin?
  {
    FoundPathLeads(t, k);
    Replace(t, FoundPath(t, k), Found(t, k).right.right)
  }

  lemma {:induction false} ReplaceSize(t: NodeTree, path: Path, s: NodeTree)
    requires Leads(t, path)
    ensures Size(Replace(t, path, s)) == Size(t) - Size(Down(t, path)) + Size(s)
  {
    match path
    case Here =>
    case L(rest) => ReplaceSize(t.left, rest, s);
    case R(rest) => ReplaceSize(t.right, rest, s);
  }

  lemma LossyLosesMore(t: NodeTree, k: int)
    requires Found(t, k).Bin? && Found(t, k).right.Bin?
    ensures Size(Lossy(t, k)) <= Size(t) - 2
  {
    FoundPathLeads(t, k);
    ReplaceSize(t, FoundPath(t, k), Found(t, k).right.right);
  }

  /** Exactly when the nodes that the removal leaves spell a tree without the
      first payload of the key and with all others: the victim has no right child,
      or its right child has a left child. Otherwise payloads are lost, or the
      nodes form a cycle and spell no tree at all. */
  lemma RemovesExactlyOneIff(root: Node?, t: NodeTree, k: int)
    requires Searchable(t) && Unshared(t) && Found(t, k).Bin?
    requires Leads(t, FoundPath(t, k)) && Down(t, FoundPath(t, k)) == Found(t, k)
    requires Unlinked(root, t, FoundPath(t, k))
    ensures (exists t' :: Spells(root, t') && InOrder(t') == RemoveFirst(InOrder(t), k)) <==> SpliceSafe(Found(t, k))
  {
    var path, v := FoundPath(t, k), Found(t, k);
    if SpliceSafe(v) {
      DeleteIsReplacing(t, k);
      DeleteListed(t, k);
      DeletedRefs(t, path);
      assert Spells(root, Delete(t, k));
    } else if exists t' :: Spells(root, t') && InOrder(t') == RemoveFirst(InOrder(t), k) {
      var t' :| Spells(root, t') && InOrder(t') == RemoveFirst(InOrder(t), k);
      if EndsLeft(path) {
        SpelledOnce(root, t', Lossy(t, k));
        LossyLosesMore(t, k);
        FoundIsFirst(t, k);
        SizeIsLength(t');
        SizeIsLength(t);
      } else {
        var s := PassesSlot(t, path, t');
        SelfLinkSpellsNothing(v.right.at, s.right);
      }
    }
  }

  /** How a removal ends. */
  ghost function Outcome(t: NodeTree, k: int): Removal {
    if Found(t, k).Nil? then NotFound
    else if !SpliceSafe(Found(t, k)) && FoundPath(t, k) == Here then NullDereference
    else Removed
  }

  /** What the three endings mean, and what the good one does to the listing. */
  lemma OutcomeMeaning(t: NodeTree, k: int)
    requires Searchable(t)
    ensures Outcome(t, k) == NotFound <==> LacksKey(InOrder(t), k)
    ensures Outcome(t, k) == NullDereference
      <==> t.Bin? && t.item.key == k && t.right.Bin? && t.right.left.Nil?
    ensures Found(t, k).Bin? && (Found(t, k).right.Nil? || Found(t, k).right.left.Bin?) ==>
      Outcome(t, k) == Removed && InOrder(Delete(t, k)) == RemoveFirst(InOrder(t), k) && Searchable(Delete(t, k))
  {
    FoundIsFirst(t, k);
    if Found(t, k).Bin? {
      DeleteListed(t, k);
      DeleteSearchable(t, k);
    }
  }

  /** The slot that the removal code finds by comparing links. */
  lemma PositionIsSlot(root: Node?, t: NodeTree, path: Path)
    requires Spells(root, t) && Leads(t, path) && Down(t, path).Bin? && path != Here
    ensures Parent(t, path).at.left == Down(t, path).at <==> EndsLeft(path)
  {
    ShapeDown(root, t, path);
    ParentUnshared(t, path);
  }

  lemma {:induction false} ParentUnshared(t: NodeTree, path: Path)
    requires Unshared(t) && Leads(t, path) && path != Here
    ensures Unshared(Parent(t, path))
    ensures Down(t, path) == if EndsLeft(path) then Parent(t, path).left else Parent(t, path).right
  {
    match path
    case L(rest) => if rest != Here { ParentUnshared(t.left, rest); }
    case R(rest) => if rest != Here { ParentUnshared(t.right, rest); }
  }

  /** `BStree_remove` */
  method Remove(tag: SearchTree, data: Payload) returns (outcome: Removal)
    requires tag.Valid()
    modifies tag, Refs(tag.tree)
    ensures outcome == Outcome(old(tag.tree), data.key)
    ensures outcome == NotFound ==> tag.Valid() && tag.tree == old(tag.tree) && tag.removed == old(tag.removed)
    ensures tag.numNodes == old(tag.numNodes) - if outcome == Removed then 1 else 0
    ensures var t, k := old(tag.tree), data.key;
      outcome != NotFound ==> tag.removed == old(tag.removed) + if tag.notifies then [Found(t, k).item] else []
    ensures var t, k := old(tag.tree), data.key;
      && (outcome == Removed ==>
            && Leads(t, FoundPath(t, k)) && Down(t, FoundPath(t, k)) == Found(t, k) && Unshared(t)
            && Unlinked(tag.root, t, FoundPath(t, k)))
      && (outcome == Removed && SpliceSafe(Found(t, k)) ==> tag.Valid() && tag.tree == Delete(t, k))
    ensures var t, k := old(tag.tree), data.key;
      Searchable(t) ==>
        && (outcome == NotFound <==> LacksKey(InOrder(t), k))
        && (outcome == NullDereference <==> t.Bin? && t.item.key == k && t.right.Bin? && t.right.left.Nil?)
        && (Found(t, k).Bin? && (Found(t, k).right.Nil? || Found(t, k).right.left.Bin?) ==>
              && outcome == Removed && tag.Valid() && Searchable(tag.tree)
              && InOrder(tag.tree) == RemoveFirst(InOrder(t), k))
  {
    ghost var t, k := tag.tree, data.key;
    FoundPathLeads(t, k);
    if Searchable(t) {
      OutcomeMeaning(t, k);
    }
    outcome := NotFound;
    if tag.root != null {
      assert allocated(Refs(t));
      var found, parent := Lookup(tag.root, data, null, t);
      assert Spells(tag.root, t);
      if found != null {
        ShapeDown(tag.root, t, FoundPath(t, k));
        if FoundPath(t, k) != Here {
          PositionIsSlot(tag.root, t, FoundPath(t, k));
        }
        if tag.notifies {
          tag.removed := tag.removed + [found.data];
        }
        var position :=
          if parent == null then AtRoot else if parent.left == found then LeftOf(parent) else RightOf(parent);
        outcome := UnlinkFound(tag, position, found, parent, t, k);
      }
    }
  }

  /** The tree without the victim, if the code gets it right. */
  lemma DeletedTree(t: NodeTree, k: int)
    requires Found(t, k).Bin? && Unshared(t)
    requires Leads(t, FoundPath(t, k)) && Down(t, FoundPath(t, k)) == Found(t, k)
    ensures Replace(t, FoundPath(t, k), Spliced(Found(t, k))) == Delete(t, k)
    ensures Unshared(Delete(t, k)) && Size(t) == Size(Delete(t, k)) + 1
  {
    DeleteIsReplacing(t, k);
    DeletedRefs(t, FoundPath(t, k));
    ReplaceSize(t, FoundPath(t, k), Spliced(Found(t, k)));
    SplicedEffect(Found(t, k));
  }

  method UnlinkVictim(tag: SearchTree, position: Slot, found: Node, parent: Node?, ghost t: NodeTree, ghost path: Path)
    returns (outcome: Removal)
    requires Spells(tag.root, t) && Leads(t, path) && position == SlotOf(t, path)
    requires Down(t, path).Bin? && found == Down(t, path).at
    requires parent == if path == Here then null else Parent(t, path).at
    modifies tag`root, Refs(t)
    ensures outcome == if !SpliceSafe(Down(t, path)) && path == Here then NullDereference else Removed
    ensures outcome == Removed ==> Unlinked(tag.root, t, path)
  {
    ShapeDown(tag.root, t, path);
    if found.right != null {
      outcome := Unlink(tag, position, found, parent, t, path);
    } else {
      FillFromLeft(tag, position, found, t, path);
      outcome := Removed;
    }
  }

  method UnlinkFound(tag: SearchTree, position: Slot, found: Node, parent: Node?, ghost t: NodeTree, ghost k: int)
    returns (outcome: Removal)
    requires tag.Valid() && tag.tree == t && Found(t, k).Bin? && found == Found(t, k).at
    requires Leads(t, FoundPath(t, k)) && Down(t, FoundPath(t, k)) == Found(t, k)
    requires position == SlotOf(t, FoundPath(t, k))
    requires parent == if FoundPath(t, k) == Here then null else Parent(t, FoundPath(t, k)).at
    modifies tag`root, tag`numNodes, tag`tree, Refs(t)
    ensures outcome == Outcome(t, k)
    ensures tag.numNodes == old(tag.numNodes) - if outcome == Removed then 1 else 0
    ensures outcome == Removed ==> Unlinked(tag.root, t, FoundPath(t, k))
    ensures outcome == Removed && SpliceSafe(Found(t, k)) ==> tag.Valid() && tag.tree == Delete(t, k)
  {
    DeletedTree(t, k);
    outcome := UnlinkVictim(tag, position, found, parent, t, FoundPath(t, k));
    if outcome == Removed {
      tag.numNodes := tag.numNodes - 1;
      tag.tree := Delete(t, k);
    }
  }
}
