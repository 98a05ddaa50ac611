/** The doubly linked list with a cursor, and its sort by relinking. */
module LinkedList {
  import opened StableSort

  class ListNode {
    const data: int               // never changed once the node is made
    var prev: ListNode?
    var next: ListNode?

    constructor (data: int)
      ensures this.data == data && prev == null && next == null
    {
      this.data := data;
      prev, next := null, null;
    }
  }

  ghost predicate Distinct(s: seq<ListNode>) {
    forall i, j :: 0 <= i < j < |s| ==> s[i] != s[j]
  }

  ghost function At(s: seq<ListNode>, i: int): ListNode? {
    if 0 <= i < |s| then s[i] else null
  }

  /** The links of the nodes mirror each other and string them together in order. */
  ghost predicate Chain(s: seq<ListNode>)
    reads s
  {
    && Distinct(s)
    && (forall i {:trigger s[i].prev} :: 0 <= i < |s| ==> s[i].prev == At(s, i - 1))
    && (forall i {:trigger s[i].next} :: 0 <= i < |s| ==> s[i].next == At(s, i + 1))
  }

  datatype Status = Success | Failure

  function Data(n: ListNode): int {
    n.data
  }

  ghost function Without(s: seq<ListNode>, k: nat): seq<ListNode>
    requires k < |s|
  {
    s[..k] + s[k + 1..]
  }

  ghost function With(s: seq<ListNode>, k: nat, n: ListNode): seq<ListNode>
    requires k <= |s|
  {
    s[..k] + [n] + s[k..]
  }

  /** String `moved` in front of the node at `k`. */
  method LinkBefore(current: ListNode, moved: ListNode, ghost s: seq<ListNode>, ghost k: nat)
    requires Chain(s) && k < |s| && current == s[k] && moved !in s
    modifies if k > 0 then {moved, current, s[k - 1]} else {moved, current}
    ensures Chain(With(s, k, moved))
  {
    moved.next := current;
    moved.prev := current.prev;
    if current.prev != null {
      current.prev.next := moved;
    }
    current.prev := moved;
    ghost var r := With(s, k, moved);
    forall i | 0 <= i < |r|
      ensures r[i].prev == At(r, i - 1) && r[i].next == At(r, i + 1)
    {
      assert r[i] == if i < k then s[i] else if i == k then moved else s[i - 1];
    }
    WithDistinct(s, k, moved);
  }

  /** String `moved` in behind the node at `k`. */
  method LinkAfter(current: ListNode, moved: ListNode, ghost s: seq<ListNode>, ghost k: nat)
    requires Chain(s) && k < |s| && current == s[k] && moved !in s
    modifies if k + 1 < |s| then {moved, current, s[k + 1]} else {moved, current}
    ensures Chain(With(s, k + 1, moved))
  {
    moved.prev := current;
    moved.next := current.next;
    if current.next != null {
      current.next.prev := moved;
    }
    current.next := moved;
    ghost var r := With(s, k + 1, moved);
    forall i | 0 <= i < |r|
      ensures r[i].prev == At(r, i - 1) && r[i].next == At(r, i + 1)
    {
      assert r[i] == if i <= k then s[i] else if i == k + 1 then moved else s[i - 1];
    }
    WithDistinct(s, k + 1, moved);
  }

  /** String `node` in front of all nodes. */
  method LinkFront(node: ListNode, head: ListNode, ghost s: seq<ListNode>)
    requires Chain(s) && s != [] && head == s[0] && node !in s
    modifies node, head`prev
    ensures Chain([node] + s)
  {
    node.next := head;
    node.next.prev := node;
    node.prev := null;
    ghost var r := [node] + s;
    forall i | 0 <= i < |r|
      ensures r[i].prev == At(r, i - 1) && r[i].next == At(r, i + 1)
    {
      assert i > 0 ==> r[i] == s[i - 1];
    }
  }

  /** String `node` in behind all nodes. */
  method LinkBack(node: ListNode, tail: ListNode, ghost s: seq<ListNode>)
    requires Chain(s) && s != [] && tail == s[|s| - 1] && node !in s
    modifies node, tail`next
    ensures Chain(s + [node])
  {
    node.prev := tail;
    node.prev.next := node;
    node.next := null;
    ghost var r := s + [node];
    forall i | 0 <= i < |r|
      ensures r[i].prev == At(r, i - 1) && r[i].next == At(r, i + 1)
    {
      assert i < |s| ==> r[i] == s[i];
    }
  }

  /** What a list's header has to hold when the node at `k` is gone. */
  lemma WithoutHeader(s: seq<ListNode>, k: nat, current: ListNode?)
    requires Distinct(s) && k < |s| && (current == null || current in s)
    ensures var r := Without(s, k);
      && |r| == |s| - 1 && At(r, 0) == (if k == 0 then At(s, 1) else s[0])
      && (r != [] ==> r[|r| - 1] == if k == |s| - 1 then s[k - 1] else s[|s| - 1])
    ensures var c := if current == s[k] then At(s, k + 1) else current; c == null || c in Without(s, k)
  {
    var r := Without(s, k);
    assert forall i :: 0 <= i < |r| ==> r[i] == if i < k then s[i] else s[i + 1];
    if current == s[k] {
      assert k + 1 < |s| ==> r[k] == s[k + 1];
    } else if current != null {
      var i :| 0 <= i < |s| && s[i] == current;
      assert r[if i < k then i else i - 1] == current;
    }
  }

  lemma WithDistinct(s: seq<ListNode>, k: nat, n: ListNode)
    requires Distinct(s) && k <= |s| && n !in s
    ensures Distinct(With(s, k, n))
  {
  }

  /** The insertion step of `list_sort`: relink `moved` into the sorted nodes. */
  method PlaceNode(first: ListNode, last: ListNode, moved: ListNode, ascending: bool, ghost done: seq<ListNode>)
    returns (first': ListNode, last': ListNode)
    requires Chain(done) && done != [] && first == done[0] && last == done[|done| - 1] && moved !in done
    modifies done, moved
    ensures Chain(Place(done, moved, Data, ascending))
    ensures first' == Place(done, moved, Data, ascending)[0]
    ensures last' == Place(done, moved, Data, ascending)[|done|]
  {
    var current: ListNode? := first;
    ghost var k := 0;
    while current != null && !Follows(current.data, moved.data, ascending)
      invariant 0 <= k <= |done| && current == At(done, k)
      invariant forall j :: 0 <= j < k ==> !Follows(done[j].data, moved.data, ascending)
      decreases |done| - k
    {
      current := current.next;
      k := k + 1;
    }
    PlacedAt(done, moved, k, ascending);
    first', last' := first, last;
    if current != null {
      LinkBefore(current, moved, done, k);
      if current == first {
        first' := moved;
      }
    } else {
      LinkAfter(last, moved, done, |done| - 1);
      last' := moved;
    }
  }

  /** The same with no nodes sorted so far. */
  method PlaceAmong(first: ListNode?, last: ListNode?, moved: ListNode, ascending: bool, ghost done: seq<ListNode>)
    returns (first': ListNode, last': ListNode)
    requires Chain(done) && first == At(done, 0) && last == At(done, |done| - 1) && moved !in done
    modifies done, moved
    ensures Chain(Place(done, moved, Data, ascending))
    ensures first' == Place(done, moved, Data, ascending)[0]
    ensures last' == Place(done, moved, Data, ascending)[|done|]
  {
    if first == null {
      first', last' := moved, moved;
      moved.prev, moved.next := null, null;
    } else {
      first', last' := PlaceNode(first, last, moved, ascending, done);
    }
  }

  lemma PlacedAt(s: seq<ListNode>, n: ListNode, k: nat, ascending: bool)
    requires k <= |s| && (k < |s| ==> Follows(s[k].data, n.data, ascending))
    requires forall j :: 0 <= j < k ==> !Follows(s[j].data, n.data, ascending)
    ensures Place(s, n, Data, ascending) == With(s, k, n)
  {
    var i := PlaceIndex(s, n.data, Data, ascending);
    assert i < |s| ==> Follows(Data(s[i]), n.data, ascending);
    assert k < |s| ==> Follows(Data(s[k]), n.data, ascending);
  }

  /** Take the node at `k` out of the chain. */
  method Unlink(elem: ListNode, ghost s: seq<ListNode>, ghost k: nat)
    requires Chain(s) && k < |s| && elem == s[k]
    modifies if k > 0 then {s[k - 1]} else {}, if k + 1 < |s| then {s[k + 1]} else {}
    ensures Chain(Without(s, k))
  {
    if elem.prev != null {
      elem.prev.next := elem.next;
    }
    if elem.next != null {
      elem.next.prev := elem.prev;
    }
    ghost var r := Without(s, k);
    forall i | 0 <= i < |r|
      ensures r[i].prev == At(r, i - 1) && r[i].next == At(r, i + 1)
    {
      assert r[i] == if i < k then s[i] else s[i + 1];
    }
    assert forall i :: 0 <= i < |r| ==> r[i] == if i < k then s[i] else s[i + 1];
  }

  class List {
    var numNodes: int
    var head: ListNode?
    var tail: ListNode?
    var current: ListNode?
    ghost var nodes: seq<ListNode>

    /** Everything but the count. An empty list may keep a stale tail: destroying
        a list does not reset it. */
    ghost predicate Linked()
      reads this, nodes
    {
      && Chain(nodes)
      && head == At(nodes, 0)
      && (nodes != [] ==> tail == nodes[|nodes| - 1])
      && (current == null || current in nodes)
    }

    ghost predicate Valid()
      reads this, nodes
    {
      Linked() && numNodes == |nodes|
    }

    /** `list_init` */
    constructor ()
      ensures Valid() && nodes == [] && current == null
    {
      numNodes, head, tail, current, nodes := 0, null, null, null, [];
    }

    /** `insert_head` */
    method InsertHead(data: int) returns (status: Status)
      requires Valid()
      modifies this, nodes
      ensures Valid() && status == Success
      ensures nodes != [] && nodes[1..] == old(nodes) && fresh(nodes[0]) && nodes[0].data == data
      ensures current == if old(nodes) == [] then nodes[0] else old(current)
    {
      var node := new ListNode(data);
      if numNodes == 0 {
        node.next, node.prev := null, null;
        tail := node;
        current := node;
      } else {
        LinkFront(node, head, nodes);
      }
      head := node;
      numNodes := numNodes + 1;
      nodes := [node] + nodes;
      status := Success;
    }

    /** `insert_tail` */
    method InsertTail(data: int) returns (status: Status)
      requires Valid()
      modifies this, nodes
      ensures Valid() && status == Success
      ensures nodes != [] && nodes[..|nodes| - 1] == old(nodes)
      ensures fresh(nodes[|nodes| - 1]) && nodes[|nodes| - 1].data == data
      ensures current == if old(nodes) == [] then nodes[0] else old(current)
    {
      var node := new ListNode(data);
      if numNodes == 0 {
        node.prev, node.next := null, null;
        head := node;
        current := node;
      } else {
        LinkBack(node, tail, nodes);
      }
      tail := node;
      numNodes := numNodes + 1;
      nodes := nodes + [node];
      status := Success;
    }

    /** The end of both removals: the header is that of the list without `elem`, and
        `elem` is unlinked and freed. */
    method TakeOut(elem: ListNode, ghost k: nat)
      requires Chain(nodes) && k < |nodes| && elem == nodes[k] && numNodes == |nodes|
      requires var r := Without(nodes, k);
        head == At(r, 0) && (r != [] ==> tail == r[|r| - 1]) && (current == null || current in r)
      modifies this`numNodes, this`nodes, nodes
      ensures Valid() && nodes == Without(old(nodes), k)
    {
      Unlink(elem, nodes, k);
      numNodes := numNodes - 1;
      nodes := Without(nodes, k);
    }

    /** `data_remove`: the first element with the data leaves. */
    method DataRemove(data: int) returns (status: Status, ghost k: nat)
      requires Valid()
      modifies this, nodes
      ensures Valid() && (status == Failure <==> old(nodes) == [])
      ensures k <= |old(nodes)| && forall j :: 0 <= j < k ==> old(nodes)[j].data != data
      ensures k == |old(nodes)| ==> nodes == old(nodes) && current == old(current)
      ensures k < |old(nodes)| ==>
        && old(nodes)[k].data == data && nodes == Without(old(nodes), k)
        && current == if old(current) == old(nodes)[k] then At(old(nodes), k + 1) else old(current)
    {
      var elem := head;
      k := 0;
      if elem == null {
        return Failure, k;
      }
      while elem != null && data != elem.data
        invariant 0 <= k <= |nodes| && elem == At(nodes, k)
        invariant forall j :: 0 <= j < k ==> nodes[j].data != data
        decreases |nodes| - k
      {
        elem := elem.next;
        k := k + 1;
      }
      status := Success;
      if elem == null {
        return;
      }
      WithoutHeader(nodes, k, current);
      if elem == current {
        current := current.next;
      }
      if elem == head {
        head := head.next;
        if head == null {
          tail := null;
        }
      } else if elem == tail {
        tail := elem.prev;
      }
      TakeOut(elem, k);
    }

    /** `remove_elem` on an element of the list or on null. */
    method RemoveElem(elem: ListNode?, ghost k: nat) returns (status: Status)
      requires Valid() && elem == At(nodes, k)
      modifies this, nodes
      ensures Valid() && (status == Failure <==> elem == null)
      ensures elem == null ==> nodes == old(nodes) && current == old(current)
      ensures elem != null ==>
        && nodes == Without(old(nodes), k)
        && current == if old(current) == elem then At(old(nodes), k + 1) else old(current)
    {
      if elem == null || numNodes == 0 {
        return Failure;
      }
      status := Success;
      WithoutHeader(nodes, k, current);
      if elem == current {
        current := elem.next;
      }
      if head == elem {
        head := elem.next;
        if elem.next == null {
          tail := null;
        }
      } else if elem.next == null {
        tail := elem.prev;
      }
      TakeOut(elem, k);
    }

    /** `insert_next`: the count is never updated, and a count of zero makes the
        new node the whole list, whatever was linked before. */
    method InsertNext(data: int, ghost k: nat) returns (status: Status)
      requires Linked() && (numNodes != 0 ==> current == At(nodes, k))
      modifies this, nodes
      ensures Linked() && numNodes == old(numNodes)
      ensures status == Failure <==> old(current) == null && numNodes != 0
      ensures status == Failure ==> nodes == old(nodes) && current == old(current)
      ensures numNodes == 0 ==> |nodes| == 1 && fresh(nodes[0]) && nodes[0].data == data && current == nodes[0]
      ensures status == Success && numNodes != 0 ==>
        && |nodes| == |old(nodes)| + 1 && fresh(nodes[k + 1]) && nodes[k + 1].data == data
        && nodes == With(old(nodes), k + 1, nodes[k + 1]) && current == old(current)
    {
      if current == null && numNodes != 0 {
        return Failure;
      }
      status := Success;
      var node := new ListNode(data);
      if numNodes == 0 {
        head, tail, current := node, node, node;
        nodes := [node];
      } else {
        LinkAfter(current, node, nodes, k);
        if current == tail {
          tail := node;
        }
        nodes := With(nodes, k + 1, node);
      }
    }

    /** `insert_prev`, with the same peculiarity. */
    method InsertPrev(data: int, ghost k: nat) returns (status: Status)
      requires Linked() && (numNodes != 0 ==> current == At(nodes, k))
      modifies this, nodes
      ensures Linked() && numNodes == old(numNodes)
      ensures status == Failure <==> old(current) == null && numNodes != 0
      ensures status == Failure ==> nodes == old(nodes) && current == old(current)
      ensures numNodes == 0 ==> |nodes| == 1 && fresh(nodes[0]) && nodes[0].data == data && current == nodes[0]
      ensures status == Success && numNodes != 0 ==>
        && |nodes| == |old(nodes)| + 1 && fresh(nodes[k]) && nodes[k].data == data
        && nodes == With(old(nodes), k, nodes[k]) && current == old(current)
    {
      if current == null && numNodes != 0 {
        return Failure;
      }
      status := Success;
      var node := new ListNode(data);
      if numNodes == 0 {
        head, tail, current := node, node, node;
        nodes := [node];
      } else {
        LinkBefore(current, node, nodes, k);
        if current == head {
          head := node;
        }
        nodes := With(nodes, k, node);
      }
    }

    /** `list_destroy`: every node is freed once, front to back. */
    method Destroy() returns (ghost freed: seq<ListNode>)
      requires Valid()
      modifies this
      ensures Valid() && nodes == [] && current == null && freed == old(nodes)
    {
      freed := [];
      if numNodes != 0 {
        while head != null
          invariant |freed| <= |nodes| && freed == nodes[..|freed|] && head == At(nodes, |freed|)
          invariant Chain(nodes) && nodes == old(nodes)
          decreases |nodes| - |freed|
        {
          var elem := head;
          head := elem.next;
          freed := freed + [elem];
        }
      }
      numNodes := 0;
      current := null;
      nodes := [];
    }

    /** The list is the chain `s` from now on. */
    ghost method TakeSorted(s: seq<ListNode>)
      requires Chain(s) && numNodes == |s| && s != []
      requires head == s[0] && tail == s[|s| - 1] && (current == null || current in s)
      modifies this`nodes
      ensures Valid() && nodes == s
    {
      nodes := s;
    }

    /** `list_sort` */
    method Sort(ascending: bool) returns (status: Status)
      requires Valid()
      modifies this, nodes
      ensures Valid() && status == Success && current == old(current)
      ensures nodes == StableSort.Sort(old(nodes), Data, ascending)
      ensures multiset(nodes) == multiset(old(nodes)) && GoesUpOrDown(nodes, ascending)
    {
      status := Success;
      SortedData(nodes, ascending);
      if numNodes == 0 {
        return;
      }
      SortedMember(nodes, ascending, current);
      head, tail := SortChain(head, ascending, nodes);
      TakeSorted(StableSort.Sort(nodes, Data, ascending));
    }
  }

  /** The data go up, or down. */
  ghost predicate GoesUpOrDown(s: seq<ListNode>, ascending: bool) {
    forall i, j :: 0 <= i < j < |s| ==> if ascending then s[i].data <= s[j].data else s[i].data >= s[j].data
  }

  lemma SortedData(s: seq<ListNode>, ascending: bool)
    ensures GoesUpOrDown(Sort(s, Data, ascending), ascending)
    ensures multiset(Sort(s, Data, ascending)) == multiset(s)
  {
    SortIsStable(s, Data, ascending, 0);
    var r := Sort(s, Data, ascending);
    forall i, j | 0 <= i < j < |r|
      ensures if ascending then r[i].data <= r[j].data else r[i].data >= r[j].data
    {
      assert if ascending then Data(r[i]) <= Data(r[j]) else Data(r[i]) >= Data(r[j]);
    }
  }

  ghost function IndexOf(s: seq<ListNode>, n: ListNode): (i: nat)
    ensures i <= |s| && (i < |s| ==> s[i] == n)
    ensures forall j :: 0 <= j < i ==> s[j] != n
  {
    if s == [] || s[0] == n then 0 else 1 + IndexOf(s[1..], n)
  }

  /** Nodes of equal data stay in the order in which they were. */
  lemma SortKeepsTies(s: seq<ListNode>, ascending: bool, a: nat, b: nat, i: nat, j: nat)
    requires Distinct(s) && a < |s| && b < |s| && i < j < |s|
    requires Sort(s, Data, ascending)[i] == s[a] && Sort(s, Data, ascending)[j] == s[b]
    requires s[a].data == s[b].data
    ensures a < b
  {
    var rank := (n: ListNode) => IndexOf(s, n);
    forall c | 0 <= c < |s|
      ensures rank(s[c]) == c
    {
      assert rank(s[c]) == IndexOf(s, s[c]) <= c;
    }
    SortKeepsRanks(s, Data, ascending, rank);
    assert rank(s[a]) < rank(s[b]);
  }

  lemma SortedMember(s: seq<ListNode>, ascending: bool, n: ListNode?)
    requires n == null || n in s
    ensures n == null || n in Sort(s, Data, ascending)
  {
    SortedNodes(s, ascending);
  }

  lemma SortedNodes(s: seq<ListNode>, ascending: bool)
    ensures forall n :: n in Sort(s, Data, ascending) <==> n in s
  {
    SortIsStable(s, Data, ascending, 0);
    forall n
      ensures n in Sort(s, Data, ascending) <==> n in s
    {
      assert n in Sort(s, Data, ascending) <==> n in multiset(Sort(s, Data, ascending));
      assert n in s <==> n in multiset(s);
    }
  }

  /** The loops of `list_sort`: take node after node off the front and relink it
      into the nodes sorted so far. */
  method SortChain(head: ListNode, ascending: bool, ghost s: seq<ListNode>)
    returns (first: ListNode?, last: ListNode?)
    requires Chain(s) && s != [] && head == s[0]
    modifies s
    ensures Chain(Sort(s, Data, ascending))
    ensures first == Sort(s, Data, ascending)[0] && last == Sort(s, Data, ascending)[|s| - 1]
  {
    var rest: ListNode? := head;
    first, last := null, null;
    ghost var k, done := 0, [];
    while rest != null
      invariant 0 <= k <= |s| && rest == At(s, k)
      invariant forall i {:trigger s[i].next} :: k <= i < |s| ==> s[i].next == At(s, i + 1)
      invariant Chain(done) && done == Sort(s[..k], Data, ascending)
      invariant first == At(done, 0) && last == At(done, |done| - 1)
      decreases |s| - k
    {
      var moved := rest;
      rest := moved.next;
      RestApart(s, k, ascending);
      TakenFrom(s, k, ascending);
      first, last := PlaceAmong(first, last, moved, ascending, done);
      k, done := k + 1, Sort(s[..k + 1], Data, ascending);
    }
    assert s[..k] == s;
  }

  lemma RestApart(s: seq<ListNode>, k: nat, ascending: bool)
    requires Distinct(s) && k < |s|
    ensures forall i :: k <= i < |s| ==> s[i] !in Sort(s[..k], Data, ascending)
    ensures Sort(s[..k + 1], Data, ascending) == Place(Sort(s[..k], Data, ascending), s[k], Data, ascending)
  {
    assert s[..k + 1][..k] == s[..k];
    var done := Sort(s[..k], Data, ascending);
    SortIsStable(s[..k], Data, ascending, 0);
    forall i | k <= i < |s|
      ensures s[i] !in done
    {
      assert s[i] !in multiset(done);
    }
  }

  lemma TakenFrom(s: seq<ListNode>, k: nat, ascending: bool)
    requires k <= |s|
    ensures forall i :: 0 <= i < k ==> Sort(s[..k], Data, ascending)[i] in s
  {
    var done := Sort(s[..k], Data, ascending);
    SortIsStable(s[..k], Data, ascending, 0);
    forall i | 0 <= i < k
      ensures done[i] in s
    {
      assert done[i] in multiset(done);
      assert done[i] in s[..k];
    }
  }
}
