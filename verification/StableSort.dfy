/** The insertion that the linked list's sort performs, on any sequence. */
module StableSort {

  /** The sort condition: an element of key `x` has to come after one of key `y`. */
  predicate Follows(x: int, y: int, ascending: bool) {
    if ascending then x > y else x < y
  }

  /** No element has to come after a later one. */
  ghost predicate InOrder<T>(s: seq<T>, key: T -> int, ascending: bool) {
    forall i, j :: 0 <= i < j < |s| ==> !Follows(key(s[i]), key(s[j]), ascending)
  }

  /** The first element that has to come after one of key `k`. */
  ghost function PlaceIndex<T>(s: seq<T>, k: int, key: T -> int, ascending: bool): (i: nat)
    ensures i <= |s|
    ensures forall j :: 0 <= j < i ==> !Follows(key(s[j]), k, ascending)
    ensures i < |s| ==> Follows(key(s[i]), k, ascending)
  {
    if s == [] || Follows(key(s[0]), k, ascending) then 0 else 1 + PlaceIndex(s[1..], k, key, ascending)
  }

  ghost function Place<T>(s: seq<T>, x: T, key: T -> int, ascending: bool): seq<T> {
    var i := PlaceIndex(s, key(x), key, ascending);
    s[..i] + [x] + s[i..]
  }

  /** The elements placed one after the other. */
  ghost function Sort<T>(s: seq<T>, key: T -> int, ascending: bool): (r: seq<T>)
    ensures |r| == |s|
  {
    if s == [] then [] else Place(Sort(s[..|s| - 1], key, ascending), s[|s| - 1], key, ascending)
  }

  /** The elements of key `k`, in the order they have in `s`. */
  ghost function OfKey<T>(s: seq<T>, k: int, key: T -> int): seq<T> {
    if s == [] then [] else OfKey(s[..|s| - 1], k, key) + if key(s[|s| - 1]) == k then [s[|s| - 1]] else []
  }

  lemma {:induction false} OfKeyAppend<T>(a: seq<T>, b: seq<T>, k: int, key: T -> int)
    ensures OfKey(a + b, k, key) == OfKey(a, k, key) + OfKey(b, k, key)
  {
    if b == [] {
      assert a + b == a;
    } else {
      assert (a + b)[..|a + b| - 1] == a + b[..|b| - 1];
      OfKeyAppend(a, b[..|b| - 1], k, key);
    }
  }

  lemma {:induction false} OfKeyEmpty<T>(s: seq<T>, k: int, key: T -> int)
    requires forall i :: 0 <= i < |s| ==> key(s[i]) != k
    ensures OfKey(s, k, key) == []
  {
    if s != [] {
      OfKeyEmpty(s[..|s| - 1], k, key);
    }
  }

  lemma PlaceInOrder<T>(s: seq<T>, x: T, key: T -> int, ascending: bool)
    requires InOrder(s, key, ascending)
    ensures InOrder(Place(s, x, key, ascending), key, ascending)
  {
  }

  lemma BehindPlace<T>(s: seq<T>, k: int, key: T -> int, ascending: bool)
    requires InOrder(s, key, ascending)
    ensures OfKey(s[PlaceIndex(s, k, key, ascending)..], k, key) == []
  {
    var i := PlaceIndex(s, k, key, ascending);
    forall j | 0 <= j < |s| - i
      ensures key(s[i..][j]) != k
    {
      assert j > 0 ==> !Follows(key(s[i]), key(s[i + j]), ascending);
    }
    OfKeyEmpty(s[i..], k, key);
  }

  lemma OfKeySplit<T>(s: seq<T>, i: nat, k: int, key: T -> int)
    requires i <= |s|
    ensures OfKey(s, k, key) == OfKey(s[..i], k, key) + OfKey(s[i..], k, key)
  {
    assert s == s[..i] + s[i..];
    OfKeyAppend(s[..i], s[i..], k, key);
  }

  /** Behind the place of an element of key `k` there is no other of that key; one of
      another key adds nothing. */
  lemma PlacedParts<T>(ofA: seq<T>, ofX: seq<T>, ofB: seq<T>)
    requires ofX == [] || ofB == []
    ensures ofA + ofX + ofB == ofA + ofB + ofX
  {
    if ofX == [] {
      assert ofA + ofX == ofA && ofA + ofB + ofX == ofA + ofB;
    } else {
      assert ofA + ofB == ofA && ofA + ofX + ofB == ofA + ofX;
    }
  }

  lemma OfKeyThree<T>(a: seq<T>, x: T, b: seq<T>, k: int, key: T -> int)
    ensures OfKey(a + [x] + b, k, key) == OfKey(a, k, key) + OfKey([x], k, key) + OfKey(b, k, key)
  {
    OfKeyAppend(a, [x], k, key);
    OfKeyAppend(a + [x], b, k, key);
  }

  lemma OfKeyOne<T>(x: T, k: int, key: T -> int)
    ensures OfKey([x], k, key) == if key(x) == k then [x] else []
  {
    assert [x][..0] == [];
  }

  /** Placing puts the element behind all of its own key. */
  lemma PlaceStable<T>(s: seq<T>, x: T, k: int, key: T -> int, ascending: bool)
    requires InOrder(s, key, ascending)
    ensures OfKey(Place(s, x, key, ascending), k, key) == OfKey(s, k, key) + OfKey([x], k, key)
  {
    var i := PlaceIndex(s, key(x), key, ascending);
    OfKeyThree(s[..i], x, s[i..], k, key);
    OfKeySplit(s, i, k, key);
    OfKeyOne(x, k, key);
    if key(x) == k {
      BehindPlace(s, k, key, ascending);
    }
    PlacedParts(OfKey(s[..i], k, key), OfKey([x], k, key), OfKey(s[i..], k, key));
  }

  lemma PlaceElements<T>(s: seq<T>, x: T, key: T -> int, ascending: bool)
    ensures multiset(Place(s, x, key, ascending)) == multiset(s) + multiset{x}
  {
    var i := PlaceIndex(s, key(x), key, ascending);
    assert s == s[..i] + s[i..];
  }

  /** Sorting is stable: keys go up or down as asked for, the result holds the same
      elements, and those of equal key keep their order. */
  lemma {:induction false} SortIsStable<T>(s: seq<T>, key: T -> int, ascending: bool, k: int)
    ensures var r := Sort(s, key, ascending);
      forall i, j :: 0 <= i < j < |r| ==> if ascending then key(r[i]) <= key(r[j]) else key(r[i]) >= key(r[j])
    ensures InOrder(Sort(s, key, ascending), key, ascending)
    ensures multiset(Sort(s, key, ascending)) == multiset(s)
    ensures OfKey(Sort(s, key, ascending), k, key) == OfKey(s, k, key)
  {
    if s != [] {
      var most, last := s[..|s| - 1], s[|s| - 1];
      var sorted := Sort(most, key, ascending);
      SortIsStable(most, key, ascending, k);
      PlaceInOrder(sorted, last, key, ascending);
      PlaceElements(sorted, last, key, ascending);
      PlaceStable(sorted, last, k, key, ascending);
      assert s == most + [last];
      OfKeyAppend(most, [last], k, key);
    }
  }

  /** The same of any rank that goes up with the place in `s`: among elements of equal
      key it still goes up. */
  ghost predicate TiesRanked<T>(s: seq<T>, key: T -> int, rank: T -> int) {
    forall i, j :: 0 <= i < j < |s| && key(s[i]) == key(s[j]) ==> rank(s[i]) < rank(s[j])
  }

  lemma {:induction false} SortKeepsRanks<T>(s: seq<T>, key: T -> int, ascending: bool, rank: T -> int)
    requires forall i, j :: 0 <= i < j < |s| ==> rank(s[i]) < rank(s[j])
    ensures TiesRanked(Sort(s, key, ascending), key, rank)
  {
    if s != [] {
      var most, last := s[..|s| - 1], s[|s| - 1];
      var sorted := Sort(most, key, ascending);
      SortKeepsRanks(most, key, ascending, rank);
      SortIsStable(most, key, ascending, 0);
      forall i | 0 <= i < |sorted|
        ensures rank(sorted[i]) < rank(last)
      {
        assert sorted[i] in multiset(sorted);
        assert sorted[i] in most;
      }
      PlaceKeepsRanks(sorted, last, key, ascending, rank);
    }
  }

  lemma PlaceKeepsRanks<T>(s: seq<T>, x: T, key: T -> int, ascending: bool, rank: T -> int)
    requires InOrder(s, key, ascending) && TiesRanked(s, key, rank)
    requires forall i :: 0 <= i < |s| ==> rank(s[i]) < rank(x)
    ensures TiesRanked(Place(s, x, key, ascending), key, rank)
  {
    var k, r := PlaceIndex(s, key(x), key, ascending), Place(s, x, key, ascending);
    forall m | k <= m < |s|
      ensures key(s[m]) != key(x)
    {
      assert m > k ==> !Follows(key(s[k]), key(s[m]), ascending);
    }
    assert forall i :: 0 <= i < |r| ==> r[i] == if i < k then s[i] else if i == k then x else s[i - 1];
  }

  ghost function Renamed<S, T>(s: seq<S>, f: S -> T): (t: seq<T>)
    ensures |t| == |s| && forall i :: 0 <= i < |s| ==> t[i] == f(s[i])
  {
    seq(|s|, i requires 0 <= i < |s| => f(s[i]))
  }

  /** Sorting commutes with a renaming of the elements that keeps their keys. */
  lemma {:induction false} SortRenamed<S, T>(s: seq<S>, f: S -> T, keyS: S -> int, keyT: T -> int, ascending: bool)
    requires forall i :: 0 <= i < |s| ==> keyT(f(s[i])) == keyS(s[i])
    ensures Sort(Renamed(s, f), keyT, ascending) == Renamed(Sort(s, keyS, ascending), f)
  {
    if s != [] {
      var n := |s| - 1;
      var sorted := Sort(s[..n], keyS, ascending);
      SortRenamed(s[..n], f, keyS, keyT, ascending);
      assert Renamed(s, f)[..n] == Renamed(s[..n], f);
      SortIsStable(s[..n], keyS, ascending, 0);
      forall i | 0 <= i < n
        ensures keyT(f(sorted[i])) == keyS(sorted[i])
      {
        assert sorted[i] in multiset(sorted);
        assert sorted[i] in s[..n];
      }
      PlaceRenamed(sorted, s[n], f, keyS, keyT, ascending);
    }
  }

  lemma PlaceRenamed<S, T>(s: seq<S>, x: S, f: S -> T, keyS: S -> int, keyT: T -> int, ascending: bool)
    requires forall i :: 0 <= i < |s| ==> keyT(f(s[i])) == keyS(s[i])
    requires keyT(f(x)) == keyS(x)
    ensures Place(Renamed(s, f), f(x), keyT, ascending) == Renamed(Place(s, x, keyS, ascending), f)
  {
    var i := PlaceIndex(s, keyS(x), keyS, ascending);
    var j := PlaceIndex(Renamed(s, f), keyT(f(x)), keyT, ascending);
    assert i == j;
  }
}
