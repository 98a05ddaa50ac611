/** Runs of list operations, against a machine that knows only the data and the
    place of the cursor. */
module ListRun {
  import opened StableSort
  import opened LinkedList

  /** An element as a user sees it: its data, and whether the cursor is here. */
  datatype Item = Item(data: int, here: bool)

  datatype Command =
    | AddHead(data: int)
    | AddTail(data: int)
    | RemoveData(data: int)
    | RemoveAt(index: nat)        // an element of the list, or null when there is none
    | SortItems(ascending: bool)
    | DestroyItems

  function ItemKey(i: Item): int {
    i.data
  }

  ghost function FirstWith(v: seq<Item>, data: int): (k: nat)
    ensures k <= |v|
    ensures forall j :: 0 <= j < k ==> v[j].data != data
    ensures k < |v| ==> v[k].data == data
  {
    if v == [] || v[0].data == data then 0 else 1 + FirstWith(v[1..], data)
  }

  /** The element at `k` leaves; if it held the cursor, the next one gets it. */
  ghost function Drop(v: seq<Item>, k: nat): seq<Item> {
    if k >= |v| then v
    else if v[k].here && k + 1 < |v| then v[..k] + [v[k + 1].(here := true)] + v[k + 2..]
    else v[..k] + v[k + 1..]
  }

  ghost function Step(v: seq<Item>, c: Command): seq<Item> {
    match c
    case AddHead(d) => [Item(d, v == [])] + v
    case AddTail(d) => v + [Item(d, v == [])]
    case RemoveData(d) => Drop(v, FirstWith(v, d))
    case RemoveAt(k) => Drop(v, k)
    case SortItems(ascending) => Sort(v, ItemKey, ascending)
    case DestroyItems => []
  }

  ghost function Steps(v: seq<Item>, cs: seq<Command>): seq<Item> {
    if cs == [] then v else Step(Steps(v, cs[..|cs| - 1]), cs[|cs| - 1])
  }

  ghost function Marked(current: ListNode?): ListNode -> Item {
    (n: ListNode) => Item(n.data, n == current)
  }

  /** What the nodes and the cursor look like to a user. */
  ghost function View(nodes: seq<ListNode>, current: ListNode?): seq<Item> {
    Renamed(nodes, Marked(current))
  }

  lemma ViewAddHead(nodes: seq<ListNode>, current: ListNode?, n: ListNode)
    requires n !in nodes && (current == null || current in nodes)
    ensures View([n] + nodes, if nodes == [] then n else current) == Step(View(nodes, current), AddHead(n.data))
  {
  }

  lemma ViewAddTail(nodes: seq<ListNode>, current: ListNode?, n: ListNode)
    requires n !in nodes && (current == null || current in nodes)
    ensures View(nodes + [n], if nodes == [] then n else current) == Step(View(nodes, current), AddTail(n.data))
  {
  }

  lemma ViewDrop(nodes: seq<ListNode>, current: ListNode?, k: nat)
    requires Distinct(nodes) && k < |nodes|
    ensures View(Without(nodes, k), if current == nodes[k] then At(nodes, k + 1) else current)
         == Drop(View(nodes, current), k)
  {
    var current' := if current == nodes[k] then At(nodes, k + 1) else current;
    var v, w := View(Without(nodes, k), current'), Drop(View(nodes, current), k);
    assert |v| == |w|;
    forall i | 0 <= i < |v|
      ensures v[i] == w[i]
    {
      assert Without(nodes, k)[i] == nodes[if i < k then i else i + 1];
    }
  }

  lemma ViewSort(nodes: seq<ListNode>, current: ListNode?, ascending: bool)
    ensures View(Sort(nodes, Data, ascending), current) == Step(View(nodes, current), SortItems(ascending))
  {
    SortRenamed(nodes, Marked(current), Data, ItemKey, ascending);
  }

  /** What a user sees of a sort: the same items, the cursor with its own, the data going
      up or down, and items of equal data in their old order. */
  lemma SortSeen(v: seq<Item>, ascending: bool, data: int)
    ensures var w := Step(v, SortItems(ascending));
      && multiset(w) == multiset(v) && OfKey(w, data, ItemKey) == OfKey(v, data, ItemKey)
      && forall i, j :: 0 <= i < j < |w| ==> if ascending then w[i].data <= w[j].data else w[i].data >= w[j].data
  {
    var w := Step(v, SortItems(ascending));
    SortIsStable(v, ItemKey, ascending, data);
    forall i, j | 0 <= i < j < |w|
      ensures if ascending then w[i].data <= w[j].data else w[i].data >= w[j].data
    {
      assert if ascending then ItemKey(w[i]) <= ItemKey(w[j]) else ItemKey(w[i]) >= ItemKey(w[j]);
    }
  }

  // Each command, run on the linked nodes.

  method RunAddHead(list: List, d: int)
    requires list.Valid()
    modifies list, list.nodes
    ensures list.Valid() && View(list.nodes, list.current) == Step(old(View(list.nodes, list.current)), AddHead(d))
    ensures fresh(set n | n in list.nodes && n !in old(list.nodes))
  {
    ghost var before, cursor := list.nodes, list.current;
    var status := list.InsertHead(d);
    ViewAddHead(before, cursor, list.nodes[0]);
    assert list.nodes == [list.nodes[0]] + before;
  }

  method RunAddTail(list: List, d: int)
    requires list.Valid()
    modifies list, list.nodes
    ensures list.Valid() && View(list.nodes, list.current) == Step(old(View(list.nodes, list.current)), AddTail(d))
    ensures fresh(set n | n in list.nodes && n !in old(list.nodes))
  {
    ghost var before, cursor := list.nodes, list.current;
    var status := list.InsertTail(d);
    ViewAddTail(before, cursor, list.nodes[|before|]);
    assert list.nodes == before + [list.nodes[|before|]];
  }

  method RunRemoveData(list: List, d: int)
    requires list.Valid()
    modifies list, list.nodes
    ensures list.Valid() && View(list.nodes, list.current) == Step(old(View(list.nodes, list.current)), RemoveData(d))
    ensures fresh(set n | n in list.nodes && n !in old(list.nodes))
  {
    ghost var before, cursor := list.nodes, list.current;
    var status, k := list.DataRemove(d);
    ViewFirst(before, cursor, d, k);
    if k < |before| {
      ViewDrop(before, cursor, k);
      WithoutMembers(before, k);
    }
  }

  method RunRemoveAt(list: List, k: nat)
    requires list.Valid()
    modifies list, list.nodes
    ensures list.Valid() && View(list.nodes, list.current) == Step(old(View(list.nodes, list.current)), RemoveAt(k))
    ensures fresh(set n | n in list.nodes && n !in old(list.nodes))
  {
    ghost var before, cursor := list.nodes, list.current;
    var elem := NodeAt(list, k);
    var status := list.RemoveElem(elem, k);
    if k < |before| {
      ViewDrop(before, cursor, k);
      WithoutMembers(before, k);
    }
  }

  method RunSort(list: List, ascending: bool)
    requires list.Valid()
    modifies list, list.nodes
    ensures list.Valid()
    ensures View(list.nodes, list.current) == Step(old(View(list.nodes, list.current)), SortItems(ascending))
    ensures fresh(set n | n in list.nodes && n !in old(list.nodes))
  {
    ghost var before, cursor := list.nodes, list.current;
    var status := list.Sort(ascending);
    ViewSort(before, cursor, ascending);
    SortedNodes(before, ascending);
  }

  lemma WithoutMembers(s: seq<ListNode>, k: nat)
    requires k < |s|
    ensures forall i :: 0 <= i < |Without(s, k)| ==> Without(s, k)[i] in s
  {
  }

  /** One command, run on the linked nodes. */
  method Execute(list: List, c: Command)
    requires list.Valid()
    modifies list, list.nodes
    ensures list.Valid()
    ensures View(list.nodes, list.current) == Step(old(View(list.nodes, list.current)), c)
    ensures fresh(set n | n in list.nodes && n !in old(list.nodes))
  {
    match c
    case AddHead(d) => RunAddHead(list, d);
    case AddTail(d) => RunAddTail(list, d);
    case RemoveData(d) => RunRemoveData(list, d);
    case RemoveAt(k) => RunRemoveAt(list, k);
    case SortItems(ascending) => RunSort(list, ascending);
    case DestroyItems => ghost var freed := list.Destroy();
  }

  lemma ViewFirst(nodes: seq<ListNode>, current: ListNode?, data: int, k: nat)
    requires k <= |nodes| && (forall j :: 0 <= j < k ==> nodes[j].data != data)
    requires k < |nodes| ==> nodes[k].data == data
    ensures FirstWith(View(nodes, current), data) == k
  {
    var v := View(nodes, current);
    var i := FirstWith(v, data);
    assert i < |v| ==> v[i].data == nodes[i].data;
    assert k < |v| ==> v[k].data == nodes[k].data;
  }

  method NodeAt(list: List, k: nat) returns (elem: ListNode?)
    requires list.Valid()
    ensures elem == At(list.nodes, k)
  {
    elem := list.head;
    var i := 0;
    while elem != null && i < k
      invariant 0 <= i <= k && elem == At(list.nodes, i)
      decreases k - i
    {
      elem := elem.next;
      i := i + 1;
    }
  }

  /** Over every run of these operations the list keeps its links, its count and
      its cursor in order and shows what the simple machine shows. */
  method Run(list: List, cs: seq<Command>)
    requires list.Valid()
    modifies list, list.nodes
    ensures list.Valid()
    ensures View(list.nodes, list.current) == Steps(old(View(list.nodes, list.current)), cs)
  {
    ghost var start := View(list.nodes, list.current);
    var i := 0;
    while i < |cs|
      invariant 0 <= i <= |cs| && list.Valid()
      invariant View(list.nodes, list.current) == Steps(start, cs[..i])
      invariant fresh(set n | n in list.nodes && n !in old(list.nodes))
    {
      Execute(list, cs[i]);
      i := i + 1;
      assert cs[..i][..i - 1] == cs[..i - 1];
    }
    assert cs[..i] == cs;
  }
}
