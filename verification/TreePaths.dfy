/** Places inside a tree: the way down to them, the slot that links them, and
    what redirecting that slot does. */
module TreePaths {
  import opened Payloads
  import opened Trees
  import opened TreeNodes

  /** The steps from a root down to a subtree. */
  datatype Path = Here | L(rest: Path) | R(rest: Path)

  /** A place that holds a link: the program's pointer to a pointer. */
  datatype Slot = AtRoot | LeftOf(parent: Node) | RightOf(parent: Node)

  /** `path` can be followed in `t`, if only to an empty place. */
  ghost predicate Leads(t: NodeTree, path: Path) {
    match path
    case Here => true
    case L(rest) => t.Bin? && Leads(t.left, rest)
    case R(rest) => t.Bin? && Leads(t.right, rest)
  }

  ghost function Down(t: NodeTree, path: Path): NodeTree
    requires Leads(t, path)
  {
    match path
    case Here => t
    case L(rest) => Down(t.left, rest)
    case R(rest) => Down(t.right, rest)
  }

  /** `t` with the subtree at `path` exchanged for `s`. */
  ghost function Replace(t: NodeTree, path: Path, s: NodeTree): NodeTree
    requires Leads(t, path)
  {
    match path
    case Here => s
    case L(rest) => t.(left := Replace(t.left, rest, s))
    case R(rest) => t.(right := Replace(t.right, rest, s))
  }

  /** The subtree one step above the place `path` leads to. */
  ghost function Parent(t: NodeTree, path: Path): (parent: NodeTree)
    requires Leads(t, path) && path != Here
    ensures parent.Bin?
  {
    match path
    case L(rest) => if rest == Here then t else Parent(t.left, rest)
    case R(rest) => if rest == Here then t else Parent(t.right, rest)
  }

  ghost predicate EndsLeft(path: Path) {
    match path
    case Here => false
    case L(rest) => rest == Here || EndsLeft(rest)
    case R(rest) => EndsLeft(rest)
  }

  ghost function SlotOf(t: NodeTree, path: Path): Slot
    requires Leads(t, path)
  {
    if path == Here then AtRoot
    else if EndsLeft(path) then LeftOf(Parent(t, path).at)
    else RightOf(Parent(t, path).at)
  }

  ghost function Join(path: Path, more: Path): Path {
    match path
    case Here => more
    case L(rest) => L(Join(rest, more))
    case R(rest) => R(Join(rest, more))
  }

  lemma {:induction false} DownJoin(t: NodeTree, path: Path, more: Path)
    requires Leads(t, path)
    ensures Leads(t, Join(path, more)) <==> Leads(Down(t, path), more)
    ensures Leads(t, Join(path, more)) ==> Down(t, Join(path, more)) == Down(Down(t, path), more)
  {
    match path
    case Here =>
    case L(rest) => DownJoin(t.left, rest, more);
    case R(rest) => DownJoin(t.right, rest, more);
  }

  lemma {:induction false} JoinJoin(a: Path, b: Path, c: Path)
    ensures Join(Join(a, b), c) == Join(a, Join(b, c))
  {
    match a
    case Here =>
    case L(rest) => JoinJoin(rest, b, c);
    case R(rest) => JoinJoin(rest, b, c);
  }

  lemma {:induction false} JoinHere(path: Path)
    ensures Join(path, Here) == path
  {
    match path
    case Here =>
    case L(rest) => JoinHere(rest);
    case R(rest) => JoinHere(rest);
  }

  /** One more step down. */
  lemma {:induction false} StepDown(t: NodeTree, path: Path, step: Path)
    requires Leads(t, path) && Down(t, path).Bin? && (step == L(Here) || step == R(Here))
    ensures var next := Join(path, step);
      && Leads(t, next) && next != Here
      && Down(t, next) == (if step.L? then Down(t, path).left else Down(t, path).right)
      && SlotOf(t, next) == (if step.L? then LeftOf(Down(t, path).at) else RightOf(Down(t, path).at))
  {
    match path
    case Here =>
    case L(rest) => StepDown(t.left, rest, step);
    case R(rest) => StepDown(t.right, rest, step);
  }

  /** What lies below a path is part of the tree; its parent lies outside it. */
  lemma {:induction false} DownRefs(t: NodeTree, path: Path)
    requires Leads(t, path) && Unshared(t)
    ensures Refs(Down(t, path)) <= Refs(t) && Unshared(Down(t, path))
    ensures path != Here ==> Parent(t, path).at in Refs(t) && Parent(t, path).at !in Refs(Down(t, path))
  {
    match path
    case Here =>
    case L(rest) => DownRefs(t.left, rest);
    case R(rest) => DownRefs(t.right, rest);
  }

  lemma {:induction false} ReplaceRefs(t: NodeTree, path: Path, s: NodeTree)
    requires Leads(t, path) && Unshared(t) && Unshared(s) && Refs(s) <= Refs(Down(t, path))
    ensures Refs(Replace(t, path, s)) <= Refs(t) && Unshared(Replace(t, path, s))
  {
    DownRefs(t, path);
    match path
    case Here =>
    case L(rest) => ReplaceRefs(t.left, rest, s);
    case R(rest) => ReplaceRefs(t.right, rest, s);
  }

  /** In the heap, the slot at `path` links the subtree at `path`, and the parent
      has its payload and its links. */
  lemma {:induction false} ShapeDown(n: Node?, t: NodeTree, path: Path)
    requires Shape(n, t) && Leads(t, path)
    ensures Shape(Root(Down(t, path)), Down(t, path))
    ensures path != Here ==> var Bin(u, l, x, r) := Parent(t, path);
      u in Refs(t) && u.data == x && u.left == Root(l) && u.right == Root(r)
    ensures path != Here ==>
      Root(Down(t, path)) == Root(if EndsLeft(path) then Parent(t, path).left else Parent(t, path).right)
  {
    match path
    case Here =>
    case L(rest) => ShapeDown(n.left, t.left, rest);
    case R(rest) => ShapeDown(n.right, t.right, rest);
  }

  /** All nodes of `t` are in place except the parent of the subtree at `path` and
      that subtree itself. */
  ghost predicate Around(t: NodeTree, path: Path)
    requires Leads(t, path) && path != Here && Unshared(t)
    reads Refs(t) - Refs(Down(t, path)) - {Parent(t, path).at}
    decreases path
  {
    AroundRefs(t, path);
    var side := if path.L? then t.left else t.right;
    var other := if path.L? then t.right else t.left;
    && Shape(Root(other), other)
    && (path.rest != Here ==>
          && t.at.data == t.item && t.at.left == Root(t.left) && t.at.right == Root(t.right)
          && Around(side, path.rest))
  }

  lemma {:induction false} AroundRefs(t: NodeTree, path: Path)
    requires Leads(t, path) && path != Here && Unshared(t)
    ensures var r := Refs(t) - Refs(Down(t, path)) - {Parent(t, path).at};
      var side, other := if path.L? then t.left else t.right, if path.L? then t.right else t.left;
      && Refs(other) <= r
      && (path.rest != Here ==>
            t.at in r && Refs(side) - Refs(Down(side, path.rest)) - {Parent(side, path.rest).at} <= r)
  {
    DownRefs(if path.L? then t.left else t.right, path.rest);
  }

  lemma {:induction false} ShapeAround(n: Node?, t: NodeTree, path: Path)
    requires Spells(n, t) && Leads(t, path) && path != Here
    ensures Around(t, path)
  {
    if path.rest != Here {
      var side := if path.L? then t.left else t.right;
      ShapeAround(Root(side), side, path.rest);
    }
  }

  /** Giving a slot another subtree changes just that part of what is spelled. */
  lemma {:induction false} Plug(t: NodeTree, path: Path, s: NodeTree)
    requires Leads(t, path) && path != Here && Unshared(t) && Around(t, path) && Shape(Root(s), s)
    requires var Bin(u, l, x, r) := Parent(t, path);
      u.data == x && if EndsLeft(path) then u.left == Root(s) && u.right == Root(r)
                     else u.right == Root(s) && u.left == Root(l)
    ensures Shape(t.at, Replace(t, path, s))
  {
    if path.rest != Here {
      Plug(if path.L? then t.left else t.right, path.rest, s);
    }
  }

  ghost function FoundPath(t: NodeTree, k: int): Path {
    if t.Nil? || t.item.key == k then Here
    else if k < t.item.key then L(FoundPath(t.left, k))
    else R(FoundPath(t.right, k))
  }

  lemma {:induction false} FoundPathLeads(t: NodeTree, k: int)
    ensures Leads(t, FoundPath(t, k)) && Down(t, FoundPath(t, k)) == Found(t, k)
  {
    if t.Bin? && k != t.item.key {
      FoundPathLeads(if k < t.item.key then t.left else t.right, k);
    }
  }

  /** The header of a search tree, shared by the plain and the AVL kind. */
  class SearchTree {
    var root: Node?
    var numNodes: nat
    const notifies: bool          // is there a `remove` callback?
    var removed: seq<Payload>     // what that callback was given so far
    ghost var tree: NodeTree

    ghost predicate Valid()
      reads this, Refs(tree)
    {
      Spells(root, tree) && numNodes == Size(tree)
    }

    constructor (notifies: bool)
      ensures Valid() && tree == Nil && removed == [] && this.notifies == notifies
    {
      root, numNodes, removed, tree := null, 0, [], Nil;
      this.notifies := notifies;
    }

    function At(slot: Slot): Node?
      reads this, if slot.AtRoot? then {} else {slot.parent}
    {
      match slot
      case AtRoot => root
      case LeftOf(n) => n.left
      case RightOf(n) => n.right
    }

    method Put(slot: Slot, top: Node?)
      modifies this`root, if slot.AtRoot? then {} else {slot.parent}
      ensures At(slot) == top
      ensures match slot
        case AtRoot => true
        case LeftOf(n) => root == old(root) && n.right == old(n.right) && n.data == old(n.data)
        case RightOf(n) => root == old(root) && n.left == old(n.left) && n.data == old(n.data)
    {
      match slot
      case AtRoot => root := top;
      case LeftOf(n) => n.left := top;
      case RightOf(n) => n.right := top;
    }

    /** Store `top` in the slot at `path`. The nodes that do not lie below that
        slot are still as in `t`; below `top` they spell `s`. */
    method Redirect(slot: Slot, top: Node?, ghost t: NodeTree, ghost path: Path, ghost s: NodeTree)
      requires Unshared(t) && Leads(t, path) && slot == SlotOf(t, path) && Shape(top, s)
      requires path == Here || (root == Root(t) && Around(t, path))
      requires path != Here ==> var Bin(u, l, x, r) := Parent(t, path);
        u !in Refs(s) && u.data == x && if EndsLeft(path) then u.right == Root(r) else u.left == Root(l)
      modifies this`root, if slot.AtRoot? then {} else {slot.parent}
      ensures Shape(root, Replace(t, path, s))
    {
      assert allocated(Refs(s)) && allocated(Refs(t));
      Put(slot, top);
      if path != Here {
        Plug(t, path, s);
      }
    }
  }
}
