/** The data that trees store, the order their `compare` callback imposes, and
    the two sequence operations that tree operations turn out to perform on the
    in-order listing. */
module Payloads {

  /** What a `void *data` points to. Two pointers are the same only when they are
      the same object; `compare` sees nothing but the key. */
  class Payload {
    const key: int

    constructor (key: int)
      ensures this.key == key
    {
      this.key := key;
    }
  }

  /** The `compare` callback: a total order whose results fit in eight bits. */
  function Compare(a: Payload, b: Payload): (sign: int)
    ensures -1 <= sign <= 1
    ensures sign < 0 <==> a.key < b.key
    ensures sign == 0 <==> a.key == b.key
  {
    if a.key < b.key then -1 else if a.key == b.key then 0 else 1
  }

  ghost predicate Sorted(s: seq<Payload>) {
    forall i, j :: 0 <= i < j < |s| ==> s[i].key <= s[j].key
  }

  ghost predicate StrictlySorted(s: seq<Payload>) {
    forall i, j :: 0 <= i < j < |s| ==> s[i].key < s[j].key
  }

  ghost predicate AllAtMost(s: seq<Payload>, k: int) {
    forall i :: 0 <= i < |s| ==> s[i].key <= k
  }

  ghost predicate AllAtLeast(s: seq<Payload>, k: int) {
    forall i :: 0 <= i < |s| ==> k <= s[i].key
  }

  ghost predicate LacksKey(s: seq<Payload>, k: int) {
    forall i :: 0 <= i < |s| ==> s[i].key != k
  }

  /** The index of the first element of greater key. */
  ghost function UpperIndex(s: seq<Payload>, k: int): (i: nat)
    ensures i <= |s|
    ensures forall j :: 0 <= j < i ==> s[j].key <= k
    ensures i < |s| ==> k < s[i].key
  {
    if s == [] || k < s[0].key then 0 else 1 + UpperIndex(s[1..], k)
  }

  /** The index of the first element of key `k`. */
  ghost function FirstIndex(s: seq<Payload>, k: int): (i: nat)
    ensures i <= |s|
    ensures forall j :: 0 <= j < i ==> s[j].key != k
    ensures i < |s| ==> s[i].key == k
  {
    if s == [] || s[0].key == k then 0 else 1 + FirstIndex(s[1..], k)
  }

  /** `s` with `p` put in front of its first element of greater key. */
  ghost function InsertUpper(s: seq<Payload>, p: Payload): seq<Payload> {
    var i := UpperIndex(s, p.key);
    s[..i] + [p] + s[i..]
  }

  /** `s` with `p` added in key order, unless its key is there already. */
  ghost function InsertNew(s: seq<Payload>, p: Payload): seq<Payload> {
    if LacksKey(s, p.key) then InsertUpper(s, p) else s
  }

  /** `s` without its first element of key `k`. */
  ghost function RemoveFirst(s: seq<Payload>, k: int): seq<Payload> {
    var i := FirstIndex(s, k);
    if i == |s| then s else s[..i] + s[i + 1..]
  }

  /** Both indices are determined by what they promise. */
  lemma IndexUnique(s: seq<Payload>, k: int, i: nat)
    requires i <= |s|
    ensures AllAtMost(s[..i], k) && (i < |s| ==> k < s[i].key) ==> i == UpperIndex(s, k)
    ensures LacksKey(s[..i], k) && (i < |s| ==> s[i].key == k) ==> i == FirstIndex(s, k)
  {
    var u := UpperIndex(s, k);
    if u < i {
      assert s[..i][u] == s[u];
    } else if i < u {
      assert s[..u][i] == s[i];
    }
    var f := FirstIndex(s, k);
    if f < i {
      assert s[..i][f] == s[f];
    } else if i < f {
      assert s[..f][i] == s[i];
    }
  }

  lemma ListingAt(l: seq<Payload>, x: Payload, r: seq<Payload>, i: nat)
    requires i < |l| + 1 + |r|
    ensures (l + [x] + r)[i] == if i < |l| then l[i] else if i == |l| then x else r[i - |l| - 1]
  {
  }

  lemma BoundsSplit(l: seq<Payload>, x: Payload, r: seq<Payload>, k: int)
    ensures AllAtMost(l + [x] + r, k) <==> AllAtMost(l, k) && x.key <= k && AllAtMost(r, k)
    ensures AllAtLeast(l + [x] + r, k) <==> AllAtLeast(l, k) && k <= x.key && AllAtLeast(r, k)
  {
    var s := l + [x] + r;
    assert s[|l|] == x;
    assert forall i :: 0 <= i < |l| ==> l[i] == s[i];
    assert forall i :: 0 <= i < |r| ==> r[i] == s[i + |l| + 1];
    assert forall i :: 0 <= i < |s| ==> s[i] == if i < |l| then l[i] else if i == |l| then x else r[i - |l| - 1];
  }

  /** A key beyond a bound is lacking. */
  lemma BoundsLack(s: seq<Payload>, bound: int, k: int)
    ensures AllAtMost(s, bound) && bound < k ==> LacksKey(s, k)
    ensures AllAtLeast(s, bound) && k < bound ==> LacksKey(s, k)
  {
  }

  lemma OneMore(s: seq<Payload>)
    requires s != []
    ensures multiset(s) == multiset(s[..|s| - 1]) + multiset{s[|s| - 1]}
  {
    assert s == s[..|s| - 1] + [s[|s| - 1]];
  }

  lemma LacksSplit(l: seq<Payload>, x: Payload, r: seq<Payload>, k: int)
    ensures LacksKey(l + [x] + r, k) <==> LacksKey(l, k) && x.key != k && LacksKey(r, k)
  {
    var s := l + [x] + r;
    assert s[|l|] == x;
    assert forall i :: 0 <= i < |l| ==> l[i] == s[i];
    assert forall i :: 0 <= i < |r| ==> r[i] == s[i + |l| + 1];
    assert forall i :: 0 <= i < |s| ==> s[i] == if i < |l| then l[i] else if i == |l| then x else r[i - |l| - 1];
  }

  lemma SortedJoin(l: seq<Payload>, x: Payload, r: seq<Payload>)
    requires Sorted(l) && Sorted(r) && AllAtMost(l, x.key) && AllAtLeast(r, x.key)
    ensures Sorted(l + [x] + r)
  {
    var s := l + [x] + r;
    forall i, j | 0 <= i < j < |s|
      ensures s[i].key <= s[j].key
    {
      ListingAt(l, x, r, i);
      ListingAt(l, x, r, j);
    }
  }

  lemma StrictlySortedJoin(l: seq<Payload>, x: Payload, r: seq<Payload>)
    requires StrictlySorted(l) && StrictlySorted(r) && AllAtMost(l, x.key - 1) && AllAtLeast(r, x.key + 1)
    ensures StrictlySorted(l + [x] + r)
  {
    var s := l + [x] + r;
    forall i, j | 0 <= i < j < |s|
      ensures s[i].key < s[j].key
    {
      ListingAt(l, x, r, i);
      ListingAt(l, x, r, j);
    }
  }

  lemma StrictlySortedSplit(l: seq<Payload>, x: Payload, r: seq<Payload>)
    requires StrictlySorted(l + [x] + r)
    ensures StrictlySorted(l) && StrictlySorted(r) && AllAtMost(l, x.key - 1) && AllAtLeast(r, x.key + 1)
  {
    var s := l + [x] + r;
    assert s[|l|] == x;
    assert forall i :: 0 <= i < |l| ==> l[i] == s[i];
    assert forall i :: 0 <= i < |r| ==> r[i] == s[i + |l| + 1];
  }

  lemma SortedSplit(l: seq<Payload>, x: Payload, r: seq<Payload>)
    requires Sorted(l + [x] + r)
    ensures Sorted(l) && Sorted(r) && AllAtMost(l, x.key) && AllAtLeast(r, x.key)
  {
    var s := l + [x] + r;
    assert s[|l|] == x;
    assert forall i :: 0 <= i < |l| ==> l[i] == s[i];
    assert forall i :: 0 <= i < |r| ==> r[i] == s[i + |l| + 1];
  }

  lemma InsertUpperBefore(l: seq<Payload>, x: Payload, r: seq<Payload>, p: Payload)
    requires p.key < x.key
    ensures InsertUpper(l + [x] + r, p) == InsertUpper(l, p) + [x] + r
  {
    var i := UpperIndex(l, p.key);
    assert (l + [x] + r)[..i] == l[..i];
    IndexUnique(l + [x] + r, p.key, i);
    assert (l + [x] + r)[i..] == l[i..] + [x] + r;
  }

  lemma InsertUpperAfter(l: seq<Payload>, x: Payload, r: seq<Payload>, p: Payload)
    requires AllAtMost(l, p.key) && x.key <= p.key
    ensures InsertUpper(l + [x] + r, p) == l + [x] + InsertUpper(r, p)
  {
    var i, s := UpperIndex(r, p.key), l + [x] + r;
    var j := |l| + 1 + i;
    assert s[..j] == l + [x] + r[..i];
    assert AllAtMost(s[..j], p.key) by {
      BoundsSplit(l, x, r[..i], p.key);
    }
    IndexUnique(s, p.key, j);
    assert s[j..] == r[i..];
    Joined(l + [x], r[..i], [p]);
    Joined(l + [x], r[..i] + [p], r[i..]);
  }

  lemma RemoveFirstAbsent(s: seq<Payload>, k: int)
    requires LacksKey(s, k)
    ensures RemoveFirst(s, k) == s
  {
    assert s[..|s|] == s;
    IndexUnique(s, k, |s|);
  }

  lemma RemoveFirstIndex(s: seq<Payload>, k: int, i: nat)
    requires i < |s| && LacksKey(s[..i], k) && s[i].key == k
    ensures RemoveFirst(s, k) == s[..i] + s[i + 1..]
  {
    IndexUnique(s, k, i);
  }

  lemma RemoveFirstBefore(l: seq<Payload>, x: Payload, r: seq<Payload>, k: int)
    requires x.key != k && LacksKey(r, k)
    ensures RemoveFirst(l + [x] + r, k) == RemoveFirst(l, k) + [x] + r
  {
    var i := FirstIndex(l, k);
    var s := l + [x] + r;
    if i < |l| {
      assert s[..i] == l[..i];
      RemoveFirstIndex(s, k, i);
      assert s[i + 1..] == l[i + 1..] + [x] + r;
    } else {
      LacksSplit(l, x, r, k);
      RemoveFirstAbsent(s, k);
      RemoveFirstAbsent(l, k);
    }
  }

  lemma RemoveFirstAt(l: seq<Payload>, x: Payload, r: seq<Payload>)
    requires LacksKey(l, x.key)
    ensures RemoveFirst(l + [x] + r, x.key) == l + r
  {
    var s := l + [x] + r;
    assert s[..|l|] == l;
    RemoveFirstIndex(s, x.key, |l|);
    assert s[|l| + 1..] == r;
  }

  lemma CutAfter(l: seq<Payload>, x: Payload, r: seq<Payload>, i: nat)
    requires i < |r|
    ensures var s, j := l + [x] + r, |l| + 1 + i;
      s[..j] == l + [x] + r[..i] && s[j] == r[i] && s[j + 1..] == r[i + 1..]
  {
  }

  lemma RemoveFirstAfter(l: seq<Payload>, x: Payload, r: seq<Payload>, k: int)
    requires LacksKey(l, k) && x.key != k
    ensures RemoveFirst(l + [x] + r, k) == l + [x] + RemoveFirst(r, k)
  {
    var i, s := FirstIndex(r, k), l + [x] + r;
    if i < |r| {
      CutAfter(l, x, r, i);
      LacksSplit(l, x, r[..i], k);
      RemoveFirstIndex(s, k, |l| + 1 + i);
      Joined(l + [x], r[..i], r[i + 1..]);
    } else {
      LacksSplit(l, x, r, k);
      RemoveFirstAbsent(s, k);
      RemoveFirstAbsent(r, k);
    }
  }

  lemma Joined(a: seq<Payload>, b: seq<Payload>, c: seq<Payload>)
    ensures a + b + c == a + (b + c)
  {
  }

  /** Insertion keeps order and adds exactly `p`. */
  lemma InsertUpperSorted(s: seq<Payload>, p: Payload)
    requires Sorted(s)
    ensures Sorted(InsertUpper(s, p))
    ensures multiset(InsertUpper(s, p)) == multiset(s) + multiset{p}
  {
    var i := UpperIndex(s, p.key);
    InsertUpperElements(s, p);
    forall j | 0 <= j < i
      ensures s[j].key <= p.key
    {
      assert s[..i][j] == s[j];
    }
    SortedJoin(s[..i], p, s[i..]);
  }

  lemma InsertUpperElements(s: seq<Payload>, p: Payload)
    ensures multiset(InsertUpper(s, p)) == multiset(s) + multiset{p}
  {
    var i := UpperIndex(s, p.key);
    assert s == s[..i] + s[i..];
  }

  lemma RemoveFirstStrict(s: seq<Payload>, k: int)
    requires StrictlySorted(s)
    ensures StrictlySorted(RemoveFirst(s, k)) && LacksKey(RemoveFirst(s, k), k)
  {
    var i := FirstIndex(s, k);
    var r := RemoveFirst(s, k);
    if i < |s| {
      assert forall j :: 0 <= j < |r| ==> r[j] == if j < i then s[j] else s[j + 1];
    } else {
      assert s[..i] == s;
    }
  }

  lemma InsertNewStrict(s: seq<Payload>, p: Payload)
    requires StrictlySorted(s)
    ensures StrictlySorted(InsertNew(s, p))
  {
    var i := UpperIndex(s, p.key);
    forall j | 0 <= j < i
      ensures s[j].key <= p.key
    {
      assert s[..i][j] == s[j];
    }
  }
}
