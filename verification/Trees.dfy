/** A tree of payloads as a value, whatever its nodes are, and its in-order listing. */
module Trees {
  import opened Payloads

  /** `at` is the place of `item`. */
  datatype Tree<+A> = Nil | Bin(at: A, left: Tree<A>, item: Payload, right: Tree<A>)

  ghost function InOrder<A>(t: Tree<A>): seq<Payload> {
    match t
    case Nil => []
    case Bin(_, l, x, r) => InOrder(l) + [x] + InOrder(r)
  }

  ghost function Size<A>(t: Tree<A>): nat {
    match t
    case Nil => 0
    case Bin(_, l, _, r) => Size(l) + 1 + Size(r)
  }

  ghost predicate Above<A>(t: Tree<A>, k: int) {
    t.Bin? ==> k < t.item.key && Above(t.left, k) && Above(t.right, k)
  }

  ghost predicate AtLeast<A>(t: Tree<A>, k: int) {
    t.Bin? ==> k <= t.item.key && AtLeast(t.left, k) && AtLeast(t.right, k)
  }

  ghost predicate Below<A>(t: Tree<A>, k: int) {
    t.Bin? ==> t.item.key < k && Below(t.left, k) && Below(t.right, k)
  }

  ghost predicate AtMost<A>(t: Tree<A>, k: int) {
    t.Bin? ==> t.item.key <= k && AtMost(t.left, k) && AtMost(t.right, k)
  }

  /** Keys never decrease from left to right. */
  ghost predicate Ordered<A>(t: Tree<A>) {
    t.Bin? ==>
      AtMost(t.left, t.item.key) && AtLeast(t.right, t.item.key) && Ordered(t.left) && Ordered(t.right)
  }

  /** Keys strictly increase from left to right. */
  ghost predicate StrictlyOrdered<A>(t: Tree<A>) {
    t.Bin? ==>
      Below(t.left, t.item.key) && Above(t.right, t.item.key) && StrictlyOrdered(t.left) && StrictlyOrdered(t.right)
  }

  lemma {:induction false} SizeIsLength<A>(t: Tree<A>)
    ensures |InOrder(t)| == Size(t)
  {
    if t.Bin? {
      SizeIsLength(t.left);
      SizeIsLength(t.right);
    }
  }

  /** The bounds on a tree are bounds on its listing. */
  lemma {:induction false} BoundsListed<A>(t: Tree<A>, k: int)
    ensures AtMost(t, k) <==> AllAtMost(InOrder(t), k)
    ensures AtLeast(t, k) <==> AllAtLeast(InOrder(t), k)
  {
    if t.Bin? {
      BoundsListed(t.left, k);
      BoundsListed(t.right, k);
      BoundsSplit(InOrder(t.left), t.item, InOrder(t.right), k);
    }
  }

  /** A tree is ordered exactly when its listing is sorted. */
  lemma {:induction false} OrderedIsSorted<A>(t: Tree<A>)
    ensures Ordered(t) <==> Sorted(InOrder(t))
  {
    if t.Bin? {
      var l, r := InOrder(t.left), InOrder(t.right);
      OrderedIsSorted(t.left);
      OrderedIsSorted(t.right);
      BoundsListed(t.left, t.item.key);
      BoundsListed(t.right, t.item.key);
      if Sorted(l + [t.item] + r) {
        SortedSplit(l, t.item, r);
      } else if Ordered(t) {
        SortedJoin(l, t.item, r);
      }
    }
  }

  lemma {:induction false} StrictBounds<A>(t: Tree<A>, k: int)
    ensures Below(t, k) <==> AtMost(t, k - 1)
    ensures Above(t, k) <==> AtLeast(t, k + 1)
  {
    if t.Bin? {
      StrictBounds(t.left, k);
      StrictBounds(t.right, k);
    }
  }

  lemma {:induction false} StrictlyOrderedIsSorted<A>(t: Tree<A>)
    ensures StrictlyOrdered(t) <==> StrictlySorted(InOrder(t))
  {
    if t.Bin? {
      var l, r := InOrder(t.left), InOrder(t.right);
      StrictlyOrderedIsSorted(t.left);
      StrictlyOrderedIsSorted(t.right);
      StrictBounds(t.left, t.item.key);
      StrictBounds(t.right, t.item.key);
      BoundsListed(t.left, t.item.key - 1);
      BoundsListed(t.right, t.item.key + 1);
      if StrictlySorted(l + [t.item] + r) {
        StrictlySortedSplit(l, t.item, r);
      } else if StrictlyOrdered(t) {
        StrictlySortedJoin(l, t.item, r);
      }
    }
  }

  ghost function Height<A>(t: Tree<A>): nat {
    match t
    case Nil => 0
    case Bin(_, l, _, r) => 1 + if Height(l) > Height(r) then Height(l) else Height(r)
  }

  /** The subtree whose root a search for key `k` stops at. */
  ghost function Found<A>(t: Tree<A>, k: int): Tree<A> {
    if t.Nil? || t.item.key == k then t else if k < t.item.key then Found(t.left, k) else Found(t.right, k)
  }

  lemma StrictBoundsListed<A>(t: Tree<A>, k: int)
    ensures Below(t, k) <==> AllAtMost(InOrder(t), k - 1)
    ensures Above(t, k) <==> AllAtLeast(InOrder(t), k + 1)
  {
    StrictBounds(t, k);
    BoundsListed(t, k - 1);
    BoundsListed(t, k + 1);
  }

  /** With distinct keys, a key at or beyond the root's is not on the other side. */
  lemma SidesLack<A>(t: Tree<A>, k: int)
    requires t.Bin? && StrictlyOrdered(t)
    ensures k <= t.item.key ==> LacksKey(InOrder(t.right), k)
    ensures k >= t.item.key ==> LacksKey(InOrder(t.left), k)
  {
    StrictBoundsListed(t.left, t.item.key);
    StrictBoundsListed(t.right, t.item.key);
    BoundsLack(InOrder(t.left), t.item.key - 1, k);
    BoundsLack(InOrder(t.right), t.item.key + 1, k);
  }

  /** The search finds a node exactly when the key is listed. */
  lemma {:induction false} FoundIsListed<A>(t: Tree<A>, k: int)
    requires StrictlyOrdered(t)
    ensures Found(t, k).Nil? <==> LacksKey(InOrder(t), k)
    ensures Found(t, k).Bin? ==> Found(t, k).item in InOrder(t) && Found(t, k).item.key == k
  {
    if t.Bin? {
      LacksSplit(InOrder(t.left), t.item, InOrder(t.right), k);
      SidesLack(t, k);
      FoundIsListed(t.left, k);
      FoundIsListed(t.right, k);
    }
  }
}
