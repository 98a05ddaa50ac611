/** The open-addressing table as a value: probing, tombstones, and why the table
    is a dictionary. */
module HashSpec {

  const NUM_BUCKETS: nat := 20
  const BUDGET: nat := 100 * NUM_BUCKETS

  datatype Option<+T> = None | Some(value: T)

  /** A bucket without data was either never used or has been vacated. Data is
      never null, and a bucket with data is not vacated. */
  datatype Bucket<+K, +V> = NeverUsed | Vacated | Full(key: K, data: V)

  /** The caller's `hash` and `compare`, and the numbers that `rand` yields after
      the reseeding at the start of each search. */
  datatype Callbacks<!K> = Callbacks(hash: K -> nat, same: (K, K) -> bool, rand: nat -> nat)

  ghost predicate Lawful<K(!new)>(cb: Callbacks<K>) {
    && (forall k :: cb.hash(k) < NUM_BUCKETS)
    && (forall k :: cb.same(k, k))
    && (forall k, k' :: cb.same(k, k') ==> cb.same(k', k) && cb.hash(k) == cb.hash(k'))
    && (forall k, k', k'' :: cb.same(k, k') && cb.same(k', k'') ==> cb.same(k, k''))
  }

  /** The bucket index after `i` steps of the search for `k`. */
  function Probe<K>(cb: Callbacks<K>, k: K, i: nat): (index: nat)
    ensures cb.hash(k) < NUM_BUCKETS ==> index < NUM_BUCKETS
  {
    if i == 0 then cb.hash(k) else (Probe(cb, k, i - 1) + cb.rand(i - 1)) % NUM_BUCKETS
  }

  ghost function Sum(rand: nat -> nat, n: nat): nat {
    if n == 0 then 0 else Sum(rand, n - 1) + rand(n - 1)
  }

  /** Every step adds the next random number to the index, around the table. */
  lemma {:induction false} ProbeIsSum<K>(cb: Callbacks<K>, k: K, i: nat)
    requires cb.hash(k) < NUM_BUCKETS
    ensures Probe(cb, k, i) == (cb.hash(k) + Sum(cb.rand, i)) % 20
  {
    if i > 0 {
      ProbeIsSum(cb, k, i - 1);
      AddAround(cb.hash(k) + Sum(cb.rand, i - 1), cb.rand(i - 1));
    }
  }

  lemma AddAround(a: nat, b: nat)
    ensures (a % 20 + b) % 20 == (a + b) % 20
  {
    var q := a / 20;
    assert a + b == (a % 20 + b) + 20 * q;
  }

  lemma {:induction false} SameProbes<K(!new)>(cb: Callbacks<K>, k: K, k': K, i: nat)
    requires Lawful(cb) && cb.same(k, k')
    ensures Probe(cb, k, i) == Probe(cb, k', i)
  {
    if i > 0 {
      SameProbes(cb, k, k', i - 1);
    }
  }

  /** The search for `k` goes on behind the bucket. */
  predicate Passes<K, V>(b: Bucket<K, V>, cb: Callbacks<K>, k: K) {
    b.Vacated? || (b.Full? && !cb.same(b.key, k))
  }

  datatype Scan = Exhausted | Stopped(bucket: nat, probes: nat)

  type Buckets<K, V> = seq<Bucket<K, V>>

  /** `ht_lookup` from step `i` on, with the first vacated bucket seen before. */
  function Search<K, V>(t: Buckets<K, V>, cb: Callbacks<K>, k: K, i: nat, vacated: Option<nat>): (s: Scan)
    requires |t| == NUM_BUCKETS && cb.hash(k) < NUM_BUCKETS && i <= BUDGET
    requires vacated.Some? ==> vacated.value < NUM_BUCKETS
    ensures s.Stopped? ==> s.bucket < NUM_BUCKETS && s.probes <= BUDGET
    decreases BUDGET - i
  {
    var index := Probe(cb, k, i);
    var b := t[index];
    if b.Full? && cb.same(b.key, k) then Stopped(index, i)
    else if b.NeverUsed? then Stopped(if vacated.Some? then vacated.value else index, i)
    else if i == BUDGET then Exhausted
    else Search(t, cb, k, i + 1, if b.Vacated? && vacated.None? then Some(index) else vacated)
  }

  /** All buckets on the first `n` steps are passed. */
  ghost predicate PassesTo<K, V>(t: Buckets<K, V>, cb: Callbacks<K>, k: K, n: nat)
    requires |t| == NUM_BUCKETS && cb.hash(k) < NUM_BUCKETS
  {
    forall i: nat :: i < n ==> Passes(t[Probe(cb, k, i)], cb, k)
  }

  /** The first vacated bucket on the first `n` steps. */
  ghost function FirstVacated<K, V>(t: Buckets<K, V>, cb: Callbacks<K>, k: K, n: nat): (first: Option<nat>)
    requires |t| == NUM_BUCKETS && cb.hash(k) < NUM_BUCKETS
    ensures first.Some? ==> first.value < NUM_BUCKETS
  {
    if n == 0 then None
    else
      var before := FirstVacated(t, cb, k, n - 1);
      if before.None? && t[Probe(cb, k, n - 1)].Vacated? then Some(Probe(cb, k, n - 1)) else before
  }

  /** Where a search ends: at the first bucket it does not pass, if that is within
      the budget; it then names the key's own bucket, or else the first vacated
      bucket it passed, or else the unused bucket it met. */
  lemma {:induction false} SearchMeaning<K, V>(t: Buckets<K, V>, cb: Callbacks<K>, k: K, i: nat)
    requires |t| == NUM_BUCKETS && cb.hash(k) < NUM_BUCKETS && i <= BUDGET && PassesTo(t, cb, k, i)
    ensures var s := Search(t, cb, k, i, FirstVacated(t, cb, k, i));
      if s.Exhausted? then PassesTo(t, cb, k, BUDGET + 1)
      else StopsAt(t, cb, k, s.probes) && s.bucket == Chosen(t, cb, k, s.probes)
    decreases BUDGET - i
  {
    var b := t[Probe(cb, k, i)];
    if Passes(b, cb, k) && i < BUDGET {
      SearchMeaning(t, cb, k, i + 1);
    }
  }

  ghost predicate StopsAt<K, V>(t: Buckets<K, V>, cb: Callbacks<K>, k: K, n: nat)
    requires |t| == NUM_BUCKETS && cb.hash(k) < NUM_BUCKETS
  {
    n <= BUDGET && PassesTo(t, cb, k, n) && !Passes(t[Probe(cb, k, n)], cb, k)
  }

  ghost function Chosen<K, V>(t: Buckets<K, V>, cb: Callbacks<K>, k: K, n: nat): nat
    requires |t| == NUM_BUCKETS && cb.hash(k) < NUM_BUCKETS
  {
    var vacated := FirstVacated(t, cb, k, n);
    if t[Probe(cb, k, n)].NeverUsed? && vacated.Some? then vacated.value else Probe(cb, k, n)
  }

  lemma SearchEnds<K, V>(t: Buckets<K, V>, cb: Callbacks<K>, k: K, n: nat)
    requires |t| == NUM_BUCKETS && cb.hash(k) < NUM_BUCKETS && StopsAt(t, cb, k, n)
    ensures Search(t, cb, k, 0, None) == Stopped(Chosen(t, cb, k, n), n)
  {
    SearchMeaning(t, cb, k, 0);
    var s := Search(t, cb, k, 0, None);
    var m := if s.Stopped? then s.probes else n;
    var passed := Passes(t[Probe(cb, k, m)], cb, k);
    assert m < n ==> passed;
  }

  /** The chosen bucket is first met at a step `i`, before which it is not met. */
  lemma {:induction false} VacatedStep<K, V>(t: Buckets<K, V>, cb: Callbacks<K>, k: K, n: nat) returns (i: nat)
    requires |t| == NUM_BUCKETS && cb.hash(k) < NUM_BUCKETS && FirstVacated(t, cb, k, n).Some?
    ensures i < n && Probe(cb, k, i) == FirstVacated(t, cb, k, n).value && t[Probe(cb, k, i)].Vacated?
    ensures forall j: nat :: j < i ==> !t[Probe(cb, k, j)].Vacated?
  {
    if FirstVacated(t, cb, k, n - 1).Some? {
      i := VacatedStep(t, cb, k, n - 1);
    } else {
      i := n - 1;
      NoVacated(t, cb, k, n - 1);
    }
  }

  lemma {:induction false} NoVacated<K, V>(t: Buckets<K, V>, cb: Callbacks<K>, k: K, n: nat)
    requires |t| == NUM_BUCKETS && cb.hash(k) < NUM_BUCKETS && FirstVacated(t, cb, k, n).None?
    ensures forall j: nat :: j < n ==> !t[Probe(cb, k, j)].Vacated?
  {
    if n > 0 {
      NoVacated(t, cb, k, n - 1);
    }
  }

  lemma ChosenStep<K, V>(t: Buckets<K, V>, cb: Callbacks<K>, k: K, n: nat) returns (i: nat)
    requires |t| == NUM_BUCKETS && cb.hash(k) < NUM_BUCKETS && StopsAt(t, cb, k, n)
    ensures i <= n && Probe(cb, k, i) == Chosen(t, cb, k, n)
    ensures forall j: nat :: j < i ==> Probe(cb, k, j) != Chosen(t, cb, k, n)
  {
    var vacated := FirstVacated(t, cb, k, n);
    if t[Probe(cb, k, n)].NeverUsed? && vacated.Some? {
      i := VacatedStep(t, cb, k, n);
    } else {
      i := n;
      forall j: nat | j < i
        ensures Probe(cb, k, j) != Probe(cb, k, n)
      {
        assert Passes(t[Probe(cb, k, j)], cb, k);
      }
    }
  }

  // ---------------------------------------------------------------- invariant

  /** The key in bucket `j` is met on its own probe path, before any bucket that
      was never used and before the budget is spent. */
  ghost predicate Reached<K, V>(t: Buckets<K, V>, cb: Callbacks<K>, j: nat)
    requires |t| == NUM_BUCKETS && j < NUM_BUCKETS && t[j].Full? && cb.hash(t[j].key) < NUM_BUCKETS
  {
    exists n: nat :: n < BUDGET && Probe(cb, t[j].key, n) == j && PassesTo(t, cb, t[j].key, n)
  }

  ghost predicate Reachable<K(!new), V>(t: Buckets<K, V>, cb: Callbacks<K>) {
    && Lawful(cb) && |t| == NUM_BUCKETS
    && forall j: nat :: j < NUM_BUCKETS && t[j].Full? ==> Reached(t, cb, j)
  }

  /** Bucket `j` stores key `k`. */
  ghost predicate Holds<K, V>(t: Buckets<K, V>, cb: Callbacks<K>, k: K, j: nat) {
    j < |t| && t[j].Full? && cb.same(t[j].key, k)
  }

  lemma SamePasses<K(!new), V>(b: Bucket<K, V>, cb: Callbacks<K>, k: K, k': K)
    requires Lawful(cb) && cb.same(k, k')
    ensures Passes(b, cb, k) == Passes(b, cb, k')
  {
    assert cb.same(k', k);
  }

  /** A stored key is found at its bucket, well within the budget. */
  lemma StoredIsFound<K(!new), V>(t: Buckets<K, V>, cb: Callbacks<K>, k: K, j: nat)
    requires Reachable(t, cb) && Holds(t, cb, k, j)
    ensures exists n: nat :: n < BUDGET && Search(t, cb, k, 0, None) == Stopped(j, n) && StopsAt(t, cb, k, n)
  {
    var own := t[j].key;
    var n: nat :| n < BUDGET && Probe(cb, own, n) == j && PassesTo(t, cb, own, n);
    SameProbes(cb, own, k, n);
    forall i: nat | i < n
      ensures Passes(t[Probe(cb, k, i)], cb, k)
    {
      SameProbes(cb, own, k, i);
      SamePasses(t[Probe(cb, k, i)], cb, own, k);
    }
    SearchEnds(t, cb, k, n);
  }

  /** No key is stored twice. */
  lemma StoredOnce<K(!new), V>(t: Buckets<K, V>, cb: Callbacks<K>, k: K, j: nat, j': nat)
    requires Reachable(t, cb) && Holds(t, cb, k, j) && Holds(t, cb, k, j')
    ensures j == j'
  {
    StoredIsFound(t, cb, k, j);
    StoredIsFound(t, cb, k, j');
  }

  /** Filling the bucket that a search chose keeps every key reachable. */
  lemma FillReachable<K(!new), V>(t: Buckets<K, V>, cb: Callbacks<K>, k: K, v: V, b: nat, n: nat)
    requires Reachable(t, cb) && n < BUDGET && Search(t, cb, k, 0, None) == Stopped(b, n)
    ensures b < NUM_BUCKETS && Reachable(t[b := Full(k, v)], cb)
  {
    SearchMeaning(t, cb, k, 0);
    var i := ChosenStep(t, cb, k, n);
    var t' := t[b := Full(k, v)];
    forall j: nat | j < NUM_BUCKETS && t'[j].Full?
      ensures Reached(t', cb, j)
    {
      if j == b {
        assert Probe(cb, k, i) == b && PassesTo(t', cb, k, i);
      } else {
        FillKeepsOthers(t, cb, k, v, b, j);
      }
    }
  }

  lemma FillKeepsOthers<K(!new), V>(t: Buckets<K, V>, cb: Callbacks<K>, k: K, v: V, b: nat, j: nat)
    requires Reachable(t, cb) && b < NUM_BUCKETS && j < NUM_BUCKETS && j != b && t[j].Full?
    requires exists n: nat :: Search(t, cb, k, 0, None) == Stopped(b, n)
    ensures Reached(t[b := Full(k, v)], cb, j)
  {
    var t', own := t[b := Full(k, v)], t[j].key;
    var n: nat :| n < BUDGET && Probe(cb, own, n) == j && PassesTo(t, cb, own, n);
    if cb.same(own, k) {
      StoredIsFound(t, cb, k, j);
    } else {
      assert !cb.same(k, own);
      assert t'[j].key == own && PassesTo(t', cb, t'[j].key, n);
    }
  }

  /** Vacating a bucket keeps every other key reachable. */
  lemma VacateReachable<K(!new), V>(t: Buckets<K, V>, cb: Callbacks<K>, b: nat)
    requires Reachable(t, cb) && b < NUM_BUCKETS
    ensures Reachable(t[b := Vacated], cb)
  {
    var t' := t[b := Vacated];
    forall j: nat | j < NUM_BUCKETS && t'[j].Full?
      ensures Reached(t', cb, j)
    {
      var n: nat :| n < BUDGET && Probe(cb, t[j].key, n) == j && PassesTo(t, cb, t[j].key, n);
      assert PassesTo(t', cb, t'[j].key, n);
    }
  }

  // --------------------------------------------------------------- operations

  /** `num_data` goes up with every write, overwrites included. */
  datatype Table<K, V> = Table(buckets: Buckets<K, V>, numData: nat)

  datatype Status = Ok | Overwritten | DatabaseFull | NotFound | Duplicated | NullDereference

  function Live<K, V>(t: Buckets<K, V>): nat {
    if t == [] then 0 else Live(t[1..]) + if t[0].Full? then 1 else 0
  }

  lemma {:induction false} LiveUpdate<K, V>(t: Buckets<K, V>, j: nat, b: Bucket<K, V>)
    requires j < |t|
    ensures Live(t[j := b]) == Live(t) + (if b.Full? then 1 else 0) - (if t[j].Full? then 1 else 0)
  {
    if j > 0 {
      assert t[j := b][1..] == t[1..][j - 1 := b];
      LiveUpdate(t[1..], j - 1, b);
    } else {
      assert t[j := b][1..] == t[1..];
    }
  }

  ghost predicate Valid<K(!new), V>(t: Table<K, V>, cb: Callbacks<K>) {
    Reachable(t.buckets, cb) && Live(t.buckets) <= t.numData <= NUM_BUCKETS
  }

  /** `HT_insert` */
  function Insert<K, V>(t: Table<K, V>, cb: Callbacks<K>, k: K, v: V): (Table<K, V>, Status)
    requires |t.buckets| == NUM_BUCKETS && cb.hash(k) < NUM_BUCKETS
  {
    if t.numData == NUM_BUCKETS then (t, DatabaseFull)
    else
      var s := Search(t.buckets, cb, k, 0, None);
      if s.Exhausted? || s.probes == BUDGET then (t, NotFound)
      else
        var b := t.buckets[s.bucket];
        if b.Full? && !cb.same(b.key, k) then (t, Duplicated)
        else (Table(t.buckets[s.bucket := Full(k, v)], t.numData + 1), if b.Full? then Overwritten else Ok)
  }

  /** `HT_lookup`, which follows a null pointer when the budget runs out. */
  function Lookup<K, V>(t: Table<K, V>, cb: Callbacks<K>, k: K): (Option<V>, Status)
    requires |t.buckets| == NUM_BUCKETS && cb.hash(k) < NUM_BUCKETS
  {
    var s := Search(t.buckets, cb, k, 0, None);
    if s.Exhausted? then (None, NullDereference)
    else
      var b := t.buckets[s.bucket];
      if b.Full? then (Some(b.data), Ok) else (None, NotFound)
  }

  /** One less, as an unsigned number of 32 bits. */
  function Decrement(n: nat): nat {
    if n == 0 then 0xFFFF_FFFF else n - 1
  }

  /** `HT_remove`, which does the same; a removed payload goes to the callback. */
  function Remove<K, V>(t: Table<K, V>, cb: Callbacks<K>, k: K): (Table<K, V>, Option<V>, Status)
    requires |t.buckets| == NUM_BUCKETS && cb.hash(k) < NUM_BUCKETS
  {
    var s := Search(t.buckets, cb, k, 0, None);
    if s.Exhausted? then (t, None, NullDereference)
    else
      var b := t.buckets[s.bucket];
      if b.Full? then (Table(t.buckets[s.bucket := Vacated], Decrement(t.numData)), Some(b.data), Ok)
      else (t, None, NotFound)
  }

  // --------------------------------------------------------------- dictionary

  /** A dictionary whose keys are told apart by `same` only. */
  type Dict<!K, +V> = imap<K, V>

  ghost function Put<K(!new), V>(d: Dict<K, V>, cb: Callbacks<K>, k: K, v: V): Dict<K, V> {
    imap x | x in d || cb.same(x, k) :: if cb.same(x, k) then v else d[x]
  }

  ghost function Erase<K(!new), V>(d: Dict<K, V>, cb: Callbacks<K>, k: K): Dict<K, V> {
    imap x | x in d && !cb.same(x, k) :: d[x]
  }

  /** The dictionary that the stored keys make up. */
  ghost predicate Represents<K(!new), V>(t: Buckets<K, V>, cb: Callbacks<K>, d: Dict<K, V>) {
    && (forall k, j: nat :: Holds(t, cb, k, j) ==> k in d && d[k] == t[j].data)
    && (forall k :: k in d ==> exists j: nat :: Holds(t, cb, k, j))
  }

  lemma FillRepresents<K(!new), V>(t: Buckets<K, V>, cb: Callbacks<K>, d: Dict<K, V>, k: K, v: V, b: nat)
    requires Reachable(t, cb) && Represents(t, cb, d) && b < |t|
    requires forall j: nat :: Holds(t, cb, k, j) ==> j == b
    requires t[b].Full? ==> cb.same(t[b].key, k)
    ensures Represents(t[b := Full(k, v)], cb, Put(d, cb, k, v))
  {
    var t', d' := t[b := Full(k, v)], Put(d, cb, k, v);
    forall x, j: nat | Holds(t', cb, x, j)
      ensures x in d' && d'[x] == t'[j].data
    {
      if j != b {
        assert Holds(t, cb, x, j);
        assert Holds(t, cb, k, j) <==> cb.same(t[j].key, k);
      } else {
        assert cb.same(x, k);
      }
    }
    forall x | x in d'
      ensures exists j: nat :: Holds(t', cb, x, j)
    {
      if cb.same(x, k) {
        assert Holds(t', cb, x, b);
      } else {
        var j: nat :| Holds(t, cb, x, j);
        assert Holds(t', cb, x, j);
      }
    }
  }

  lemma VacateRepresents<K(!new), V>(t: Buckets<K, V>, cb: Callbacks<K>, d: Dict<K, V>, k: K, b: nat)
    requires Reachable(t, cb) && Represents(t, cb, d) && Holds(t, cb, k, b)
    ensures Represents(t[b := Vacated], cb, Erase(d, cb, k))
  {
    var t', d' := t[b := Vacated], Erase(d, cb, k);
    forall x, j: nat | Holds(t', cb, x, j)
      ensures x in d' && d'[x] == t'[j].data
    {
      assert Holds(t, cb, x, j);
      if cb.same(x, k) {
        assert Holds(t, cb, k, j);
        StoredOnce(t, cb, k, b, j);
      }
    }
    forall x | x in d'
      ensures exists j: nat :: Holds(t', cb, x, j)
    {
      var j: nat :| Holds(t, cb, x, j);
      assert Holds(t', cb, x, j);
    }
  }

  /** Inserting never finds a duplicate. It refuses exactly at a count of twenty, or
      when the first 2000 buckets of the search are all vacated or hold other keys,
      which happens to absent keys only; else it puts the payload into the dictionary,
      and the status tells whether the key was there. */
  lemma InsertRefines<K(!new), V>(t: Table<K, V>, cb: Callbacks<K>, d: Dict<K, V>, k: K, v: V)
    requires Valid(t, cb) && Represents(t.buckets, cb, d)
    ensures var (t', status) := Insert(t, cb, k, v);
      && Valid(t', cb)
      && (status == DatabaseFull <==> t.numData == 20)
      && (status == NotFound <==> t.numData != 20 && PassesTo(t.buckets, cb, k, 2000))
      && (status == DatabaseFull || status == NotFound ==> t' == t)
      && (status != DatabaseFull && status != NotFound ==>
            && status == (if k in d then Overwritten else Ok)
            && t'.numData == t.numData + 1 && Represents(t'.buckets, cb, Put(d, cb, k, v)))
      && (status == NotFound ==> k !in d)
  {
    if t.numData < NUM_BUCKETS {
      var s := Search(t.buckets, cb, k, 0, None);
      SearchMeaning(t.buckets, cb, k, 0);
      PresentIsFound(t.buckets, cb, d, k);
      RefusedIff(t.buckets, cb, k);
      if s.Stopped? && s.probes < BUDGET {
        FillReachable(t.buckets, cb, k, v, s.bucket, s.probes);
        forall j: nat | Holds(t.buckets, cb, k, j)
          ensures j == s.bucket
        {
          StoredIsFound(t.buckets, cb, k, j);
        }
        ChosenFits(t.buckets, cb, k, s.probes);
        FillRepresents(t.buckets, cb, d, k, v, s.bucket);
        LiveUpdate(t.buckets, s.bucket, Full(k, v));
      }
    }
  }

  lemma RefusedIff<K, V>(t: Buckets<K, V>, cb: Callbacks<K>, k: K)
    requires |t| == NUM_BUCKETS && cb.hash(k) < NUM_BUCKETS
    ensures var s := Search(t, cb, k, 0, None);
      s.Exhausted? || s.probes == BUDGET <==> PassesTo(t, cb, k, BUDGET)
  {
    SearchMeaning(t, cb, k, 0);
    var s := Search(t, cb, k, 0, None);
    if s.Stopped? && s.probes < BUDGET {
      assert !Passes(t[Probe(cb, k, s.probes)], cb, k);
    }
  }

  /** Where an insertion writes when the search stops at step `n`, within the budget: to
      the bucket met there, if it holds the key; else to the first vacated bucket on the
      way, at step `i`; else, with `i == n`, to the unused bucket met there. */
  lemma InsertPlaces<K, V>(t: Table<K, V>, cb: Callbacks<K>, k: K, v: V, n: nat, i: nat)
    requires |t.buckets| == NUM_BUCKETS && cb.hash(k) < NUM_BUCKETS && t.numData != 20 && i <= n < 2000
    requires PassesTo(t.buckets, cb, k, n) && !Passes(t.buckets[Probe(cb, k, n)], cb, k)
    requires
      if t.buckets[Probe(cb, k, n)].Full? then i == n
      else
        && (forall j: nat :: j < i ==> !t.buckets[Probe(cb, k, j)].Vacated?)
        && (i < n ==> t.buckets[Probe(cb, k, i)].Vacated?)
    ensures Insert(t, cb, k, v)
         == (Table(t.buckets[Probe(cb, k, i) := Full(k, v)], t.numData + 1),
             if t.buckets[Probe(cb, k, n)].Full? then Overwritten else Ok)
  {
    SearchEnds(t.buckets, cb, k, n);
    if t.buckets[Probe(cb, k, n)].NeverUsed? {
      FirstVacatedAt(t.buckets, cb, k, n, i);
    }
  }

  lemma {:induction false} FirstVacatedAt<K, V>(t: Buckets<K, V>, cb: Callbacks<K>, k: K, n: nat, i: nat)
    requires |t| == NUM_BUCKETS && cb.hash(k) < NUM_BUCKETS && i <= n
    requires forall j: nat :: j < i ==> !t[Probe(cb, k, j)].Vacated?
    requires i < n ==> t[Probe(cb, k, i)].Vacated?
    ensures FirstVacated(t, cb, k, n) == if i < n then Some(Probe(cb, k, i)) else None
  {
    if n > 0 {
      FirstVacatedAt(t, cb, k, n - 1, if i < n then i else n - 1);
    }
  }

  lemma NotFoundIff<K, V>(t: Table<K, V>, cb: Callbacks<K>, k: K, v: V)
    requires |t.buckets| == NUM_BUCKETS && cb.hash(k) < NUM_BUCKETS
    ensures Insert(t, cb, k, v).1 == NotFound <==> t.numData != 20 && PassesTo(t.buckets, cb, k, 2000)
  {
    RefusedIff(t.buckets, cb, k);
  }

  /** A search names the key's own bucket or one without data. */
  lemma ChosenFits<K, V>(t: Buckets<K, V>, cb: Callbacks<K>, k: K, n: nat)
    requires |t| == NUM_BUCKETS && cb.hash(k) < NUM_BUCKETS && StopsAt(t, cb, k, n)
    ensures Chosen(t, cb, k, n) < NUM_BUCKETS
    ensures t[Chosen(t, cb, k, n)].Full? ==> cb.same(t[Chosen(t, cb, k, n)].key, k)
  {
    if FirstVacated(t, cb, k, n).Some? {
      var i := VacatedStep(t, cb, k, n);
    }
  }

  lemma PresentIsFound<K(!new), V>(t: Buckets<K, V>, cb: Callbacks<K>, d: Dict<K, V>, k: K)
    requires Reachable(t, cb) && Represents(t, cb, d)
    ensures var s := Search(t, cb, k, 0, None);
      if k in d then s.Stopped? && s.probes < BUDGET && Holds(t, cb, k, s.bucket) && t[s.bucket].data == d[k]
      else s.Stopped? ==> !t[s.bucket].Full?
  {
    SearchMeaning(t, cb, k, 0);
    var s := Search(t, cb, k, 0, None);
    if k in d {
      var j: nat :| Holds(t, cb, k, j);
      StoredIsFound(t, cb, k, j);
    } else if s.Stopped? {
      ChosenFits(t, cb, k, s.probes);
      assert !Holds(t, cb, k, s.bucket);
    }
  }

  /** A lookup answers as the dictionary does, and never runs out of budget for a
      key that is present. */
  lemma LookupRefines<K(!new), V>(t: Table<K, V>, cb: Callbacks<K>, d: Dict<K, V>, k: K)
    requires Valid(t, cb) && Represents(t.buckets, cb, d)
    ensures var (value, status) := Lookup(t, cb, k);
      if k in d then value == Some(d[k]) && status == Ok
      else value == None && status == if PassesTo(t.buckets, cb, k, 2001) then NullDereference else NotFound
  {
    PresentIsFound(t.buckets, cb, d, k);
    NullDereferenceIff(t, cb, k);
  }

  /** A removal erases the key from the dictionary, and nothing else. */
  lemma RemoveRefines<K(!new), V>(t: Table<K, V>, cb: Callbacks<K>, d: Dict<K, V>, k: K)
    requires Valid(t, cb) && Represents(t.buckets, cb, d)
    ensures var (t', value, status) := Remove(t, cb, k);
      && Valid(t', cb)
      && if k in d then
           && value == Some(d[k]) && status == Ok
           && t'.numData == t.numData - 1 && Represents(t'.buckets, cb, Erase(d, cb, k))
         else
           && t' == t && value == None
           && status == if PassesTo(t.buckets, cb, k, 2001) then NullDereference else NotFound
  {
    PresentIsFound(t.buckets, cb, d, k);
    NullDereferenceIff(t, cb, k);
    if k in d {
      var s := Search(t.buckets, cb, k, 0, None);
      VacateReachable(t.buckets, cb, s.bucket);
      VacateRepresents(t.buckets, cb, d, k, s.bucket);
      LiveUpdate(t.buckets, s.bucket, Vacated);
    }
  }

  /** Exactly when lookup and removal follow the null pointer: every bucket on the
      first 2001 steps is vacated or holds another key. */
  lemma NullDereferenceIff<K, V>(t: Table<K, V>, cb: Callbacks<K>, k: K)
    requires |t.buckets| == NUM_BUCKETS && cb.hash(k) < NUM_BUCKETS
    ensures Lookup(t, cb, k).1 == NullDereference <==> PassesTo(t.buckets, cb, k, 2001)
    ensures Remove(t, cb, k).2 == NullDereference <==> PassesTo(t.buckets, cb, k, 2001)
  {
    SearchMeaning(t.buckets, cb, k, 0);
    var s := Search(t.buckets, cb, k, 0, None);
    var m := if s.Stopped? then s.probes else 0;
    var passed := Passes(t.buckets[Probe(cb, k, m)], cb, k);
    assert PassesTo(t.buckets, cb, k, BUDGET + 1) ==> passed;
  }

  /** Callbacks under which every search stays in bucket 0. */
  function StandingStill(): Callbacks<int> {
    Callbacks(k => 0, (k, k') => k == k', i => 0)
  }

  lemma {:induction false} ProbesStandStill(k: int, i: nat)
    ensures Probe(StandingStill(), k, i) == 0
  {
    if i > 0 {
      ProbesStandStill(k, i - 1);
    }
  }

  /** It does happen, in a table with a single entry. */
  lemma LookupFollowsNull()
    ensures Lawful(StandingStill())
    ensures var t := Insert(Created<int, int>(), StandingStill(), 1, 7).0;
      && t.numData == 1 && Lookup(t, StandingStill(), 2).1 == NullDereference
      && Remove(t, StandingStill(), 2).2 == NullDereference
  {
    var cb := StandingStill();
    var t := Insert(Created<int, int>(), cb, 1, 7).0;
    assert t.buckets[0] == Full(1, 7);
    forall i: nat | i < BUDGET + 1
      ensures Passes(t.buckets[Probe(cb, 2, i)], cb, 2)
    {
      ProbesStandStill(2, i);
    }
    NullDereferenceIff(t, cb, 2);
  }

  // --------------------------------------------------------------------- runs

  datatype Op<K, V> = InsertOp(key: K, data: V) | LookupOp(key: K) | RemoveOp(key: K)

  datatype Answer<V> = Answer(value: Option<V>, status: Status)

  function Apply<K, V>(t: Table<K, V>, cb: Callbacks<K>, op: Op<K, V>): (Table<K, V>, Answer<V>)
    requires |t.buckets| == NUM_BUCKETS && cb.hash(op.key) < NUM_BUCKETS
  {
    match op
    case InsertOp(k, v) => var (t', status) := Insert(t, cb, k, v); (t', Answer(None, status))
    case LookupOp(k) => var (value, status) := Lookup(t, cb, k); (t, Answer(value, status))
    case RemoveOp(k) => var (t', value, status) := Remove(t, cb, k); (t', Answer(value, status))
  }

  /** `HT_create`, with the count at zero. */
  function Created<K, V>(): Table<K, V> {
    Table(seq(NUM_BUCKETS, i => NeverUsed), 0)
  }

  /** The table after the operations, and what each answered. */
  ghost function Run<K(!new), V>(cb: Callbacks<K>, ops: seq<Op<K, V>>): (r: (Table<K, V>, seq<Answer<V>>))
    requires Lawful(cb)
    ensures |r.0.buckets| == NUM_BUCKETS && |r.1| == |ops|
  {
    if ops == [] then (Created(), [])
    else
      var n := |ops| - 1;
      var (t, answers) := Run(cb, ops[..n]);
      var (t', answer) := Apply(t, cb, ops[n]);
      (t', answers + [answer])
  }

  /** A dictionary with a count of the writes less the removals. */
  datatype Model<!K, V> = Model(dict: Dict<K, V>, count: int)

  ghost function ModelStep<K(!new), V>(m: Model<K, V>, cb: Callbacks<K>, op: Op<K, V>, a: Answer<V>): Model<K, V> {
    match op
    case InsertOp(k, v) =>
      if a.status == Ok || a.status == Overwritten then Model(Put(m.dict, cb, k, v), m.count + 1) else m
    case LookupOp(k) => m
    case RemoveOp(k) =>
      if a.status == Ok then Model(Erase(m.dict, cb, k), m.count - 1) else m
  }

  /** The answer is the dictionary's; for an absent key it also depends on whether the
      buckets `t` at the start of the search are all passed: the first 2000 of them for
      an insertion, the first 2001 for the others. */
  ghost predicate Right<K, V>(t: Buckets<K, V>, cb: Callbacks<K>, m: Model<K, V>, op: Op<K, V>, a: Answer<V>)
    requires |t| == NUM_BUCKETS && cb.hash(op.key) < NUM_BUCKETS
  {
    match op
    case InsertOp(k, _) =>
      a == Answer(None,
                  if m.count == 20 then DatabaseFull
                  else if k in m.dict then Overwritten
                  else if PassesTo(t, cb, k, 2000) then NotFound else Ok)
    case LookupOp(k) => IsLocated(t, cb, m, k, a)
    case RemoveOp(k) => IsLocated(t, cb, m, k, a)
  }

  ghost predicate IsLocated<K, V>(t: Buckets<K, V>, cb: Callbacks<K>, m: Model<K, V>, k: K, a: Answer<V>)
    requires |t| == NUM_BUCKETS && cb.hash(k) < NUM_BUCKETS
  {
    a == if k in m.dict then Answer(Some(m.dict[k]), Ok)
         else Answer(None, if PassesTo(t, cb, k, 2001) then NullDereference else NotFound)
  }

  ghost function ModelRun<K(!new), V>(cb: Callbacks<K>, ops: seq<Op<K, V>>, answers: seq<Answer<V>>): Model<K, V>
    requires |answers| == |ops|
  {
    if ops == [] then Model(imap[], 0)
    else
      var n := |ops| - 1;
      ModelStep(ModelRun(cb, ops[..n], answers[..n]), cb, ops[n], answers[n])
  }

  ghost predicate AllRight<K(!new), V>(cb: Callbacks<K>, ops: seq<Op<K, V>>, answers: seq<Answer<V>>)
    requires Lawful(cb) && |answers| == |ops|
  {
    forall i :: 0 <= i < |ops| ==>
      Right(Run(cb, ops[..i]).0.buckets, cb, ModelRun(cb, ops[..i], answers[..i]), ops[i], answers[i])
  }

  /** Over every run of operations on a new table, the table stays in order, every
      answer is right, and the table represents the dictionary. */
  lemma {:induction false} RunRefines<K(!new), V>(cb: Callbacks<K>, ops: seq<Op<K, V>>)
    requires Lawful(cb)
    ensures var (t, answers) := Run(cb, ops);
      var m := ModelRun(cb, ops, answers);
      && Valid(t, cb) && t.numData == m.count && Represents(t.buckets, cb, m.dict)
      && AllRight(cb, ops, answers)
  {
    if ops == [] {
      NoneLive(Created<K, V>().buckets);
    } else {
      var n := |ops| - 1;
      RunRefines(cb, ops[..n]);
      var (t, answers) := Run(cb, ops[..n]);
      var (t', answer) := Apply(t, cb, ops[n]);
      var m := ModelRun(cb, ops[..n], answers);
      StepRefines(t, cb, m, ops[n]);
      assert (answers + [answer])[..n] == answers;
      OneMoreRight(cb, ops, answers, answer);
    }
  }

  lemma OneMoreRight<K(!new), V>(cb: Callbacks<K>, ops: seq<Op<K, V>>, answers: seq<Answer<V>>, answer: Answer<V>)
    requires Lawful(cb) && |ops| == |answers| + 1 && AllRight(cb, ops[..|answers|], answers)
    requires Right(Run(cb, ops[..|answers|]).0.buckets, cb, ModelRun(cb, ops[..|answers|], answers), ops[|answers|],
                   answer)
    ensures AllRight(cb, ops, answers + [answer])
  {
    var n, all := |answers|, answers + [answer];
    forall i | 0 <= i < |ops|
      ensures Right(Run(cb, ops[..i]).0.buckets, cb, ModelRun(cb, ops[..i], all[..i]), ops[i], all[i])
    {
      assert i < n ==> ops[..n][..i] == ops[..i] && answers[..i] == all[..i] && ops[..n][i] == ops[i];
      assert i == n ==> all[..i] == answers;
    }
  }

  lemma {:induction false} NoneLive<K, V>(t: Buckets<K, V>)
    requires forall i :: 0 <= i < |t| ==> t[i].NeverUsed?
    ensures Live(t) == 0
  {
    if t != [] {
      NoneLive(t[1..]);
    }
  }

  lemma StepRefines<K(!new), V>(t: Table<K, V>, cb: Callbacks<K>, m: Model<K, V>, op: Op<K, V>)
    requires Valid(t, cb) && t.numData == m.count && Represents(t.buckets, cb, m.dict)
    ensures var (t', a) := Apply(t, cb, op);
      var m' := ModelStep(m, cb, op, a);
      && Valid(t', cb) && t'.numData == m'.count && Represents(t'.buckets, cb, m'.dict)
      && Right(t.buckets, cb, m, op, a)
  {
    match op
    case InsertOp(k, v) => InsertRefines(t, cb, m.dict, k, v);
    case LookupOp(k) => LookupRefines(t, cb, m.dict, k);
    case RemoveOp(k) => RemoveRefines(t, cb, m.dict, k);
  }

  // ----------------------------------------------------------------- a worn-out table

  /** Every bucket has been vacated. */
  predicate WornOut<K, V>(t: Table<K, V>) {
    |t.buckets| == NUM_BUCKETS && forall j: nat :: j < NUM_BUCKETS ==> t.buckets[j].Vacated?
  }

  /** A table all of whose buckets are vacated stores nothing, but takes nothing either;
      every lookup and every removal follows the null pointer. */
  lemma WornOutRefuses<K, V>(t: Table<K, V>, cb: Callbacks<K>, k: K, v: V)
    requires WornOut(t) && cb.hash(k) < NUM_BUCKETS && t.numData < 20
    ensures Insert(t, cb, k, v) == (t, NotFound)
    ensures Lookup(t, cb, k) == (None, NullDereference) && Remove(t, cb, k) == (t, None, NullDereference)
  {
    RefusedIff(t.buckets, cb, k);
    NullDereferenceIff(t, cb, k);
  }

  /** Callbacks under which each key below twenty has a bucket of its own. */
  function Apart(): Callbacks<int> {
    Callbacks(k => k % 20, (k, k') => k == k', i => 1)
  }

  /** Each of the first `n` keys is inserted and removed again. */
  function ComeAndGo(n: nat): seq<Op<int, int>> {
    if n == 0 then [] else ComeAndGo(n - 1) + [InsertOp(n - 1, 7), RemoveOp(n - 1)]
  }

  /** An empty table that has lost its first `n` buckets. */
  function Worn(n: nat): Table<int, int> {
    Table(seq(NUM_BUCKETS, j => if j < n then Vacated else NeverUsed), 0)
  }

  lemma {:induction false} WearsOne(n: nat)
    requires n < NUM_BUCKETS
    ensures var t := Apply(Worn(n), Apart(), InsertOp(n, 7)).0; Apply(t, Apart(), RemoveOp(n)).0 == Worn(n + 1)
  {
    var cb, t := Apart(), Worn(n);
    assert Probe(cb, n, 0) == n && t.buckets[n].NeverUsed?;
    var t' := Insert(t, cb, n, 7).0;
    assert t' == Table(t.buckets[n := Full(n, 7)], 1);
    assert Remove(t', cb, n).0 == Table(t'.buckets[n := Vacated], 0);
    assert t'.buckets[n := Vacated] == Worn(n + 1).buckets;
  }

  lemma {:induction false} RunTwo<K(!new), V>(cb: Callbacks<K>, ops: seq<Op<K, V>>, a: Op<K, V>, b: Op<K, V>)
    requires Lawful(cb)
    ensures Run(cb, ops + [a, b]).0 == Apply(Apply(Run(cb, ops).0, cb, a).0, cb, b).0
  {
    var all := ops + [a, b];
    assert all[..|all| - 1] == ops + [a] && (ops + [a])[..|ops|] == ops;
  }

  lemma ApartIsLawful()
    ensures Lawful(Apart())
  {
  }

  ghost predicate Wears(n: nat) {
    Lawful(Apart()) && Run(Apart(), ComeAndGo(n)).0 == Worn(n)
  }

  lemma WearsMore(n: nat)
    requires n < NUM_BUCKETS && Wears(n)
    ensures Wears(n + 1)
  {
    WearsOne(n);
    RunTwo(Apart(), ComeAndGo(n), InsertOp(n, 7), RemoveOp(n));
  }

  lemma {:induction false} AllWear(n: nat)
    requires n <= NUM_BUCKETS
    ensures Wears(n)
  {
    if n == 0 {
      ApartIsLawful();
      assert Worn(0).buckets == Created<int, int>().buckets;
    } else {
      AllWear(n - 1);
      WearsMore(n - 1);
    }
  }

  /** It does happen: twenty insertions, each removed again, wear a table out. */
  lemma WornOutAfterTwenty()
    ensures Lawful(Apart()) && WornOut(Run(Apart(), ComeAndGo(20)).0) && Run(Apart(), ComeAndGo(20)).0.numData == 0
  {
    AllWear(20);
  }
}
