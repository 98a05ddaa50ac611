/** The hash table as the program runs it: an array of buckets and a count,
    changed in place. */
module HashTable {
  import opened HashSpec

  class HashTable<K(!new), V> {
    const callbacks: Callbacks<K>
    const ht: array<Bucket<K, V>>
    var numData: nat
    var removed: seq<V>       // what the `remove` callback was given so far

    ghost predicate WellFormed()
      reads this
    {
      Lawful(callbacks) && ht.Length == NUM_BUCKETS
    }

    ghost function Value(): Table<K, V>
      reads this, ht
    {
      Table(ht[..], numData)
    }

    /** `HT_create`, with the count at zero. */
    constructor (callbacks: Callbacks<K>)
      requires Lawful(callbacks)
      ensures WellFormed() && Value() == Created() && removed == [] && this.callbacks == callbacks
      ensures fresh(ht)
    {
      this.callbacks := callbacks;
      numData, removed := 0, [];
      ht := new Bucket<K, V>[NUM_BUCKETS](_ => NeverUsed);
    }

    /** `ht_lookup`. `start` is what the caller's location holds before the call. */
    method HtLookup(key: K, start: int) returns (scan: Scan, probes: nat, location: int)
      requires WellFormed()
      ensures scan == Search(ht[..], callbacks, key, 0, None)
      ensures probes == if scan.Stopped? then scan.probes else BUDGET
      ensures location == Located(scan, FirstVacated(ht[..], callbacks, key, BUDGET + 1), start)
    {
      var index := callbacks.hash(key);
      var vacated: Option<nat> := None;
      probes, location := 0, start;
      while !ht[index].NeverUsed?
        invariant probes <= BUDGET && index == Probe(callbacks, key, probes) && index < NUM_BUCKETS
        invariant vacated == FirstVacated(ht[..], callbacks, key, probes)
        invariant location == if vacated.Some? then vacated.value else start
        invariant Search(ht[..], callbacks, key, 0, None) == Search(ht[..], callbacks, key, probes, vacated)
        decreases BUDGET - probes
      {
        if ht[index].Vacated? {
          if vacated.None? {
            vacated, location := Some(index), index;
          }
        } else if callbacks.same(ht[index].key, key) {
          return Stopped(index, probes), probes, index;
        }
        if probes == BUDGET {
          return Exhausted, probes, location;
        }
        index := (index + callbacks.rand(probes)) % NUM_BUCKETS;
        probes := probes + 1;
      }
      if vacated.Some? {
        return Stopped(vacated.value, probes), probes, location;
      }
      return Stopped(index, probes), probes, index;
    }

    /** `HT_insert`. The count of probes is left alone when the table is full. */
    method Insert(key: K, data: V, probes0: nat, start: int) returns (status: Status, probes: nat, location: int)
      requires WellFormed()
      modifies this, ht
      ensures WellFormed() && removed == old(removed)
      ensures (Value(), status) == HashSpec.Insert(old(Value()), callbacks, key, data)
      ensures status == NotFound <==> old(numData) != 20 && PassesTo(old(ht[..]), callbacks, key, 2000)
      ensures status == DatabaseFull ==> probes == probes0 && location == start
      ensures status != DatabaseFull ==>
        var scan := Search(old(ht[..]), callbacks, key, 0, None);
        && probes == (if scan.Stopped? then scan.probes else BUDGET)
        && location == Located(scan, FirstVacated(old(ht[..]), callbacks, key, BUDGET + 1), start)
      ensures status == Ok || status == Overwritten ==> 0 <= location < NUM_BUCKETS && ht[location] == Full(key, data)
    {
      if numData == NUM_BUCKETS {
        return DatabaseFull, probes0, start;
      }
      NotFoundIff(Value(), callbacks, key, data);
      var scan;
      scan, probes, location := HtLookup(key, start);
      if probes == BUDGET {
        return NotFound, probes, location;
      }
      var b := scan.bucket;
      if !ht[b].Full? || callbacks.same(ht[b].key, key) {
        status := if ht[b].Full? then Overwritten else Ok;
        ht[b] := Full(key, data);
        numData := numData + 1;
      } else {
        status := Duplicated;
      }
    }

    /** `HT_lookup`, with the location it stores: minus one for a missing key. */
    method Lookup(key: K, start: int) returns (data: Option<V>, status: Status, probes: nat, location: int)
      requires WellFormed()
      ensures (data, status) == HashSpec.Lookup(Value(), callbacks, key)
      ensures var scan := Search(ht[..], callbacks, key, 0, None);
        probes == if scan.Stopped? then scan.probes else BUDGET
      ensures status == NotFound ==> location == -1
      ensures status == Ok ==> 0 <= location < NUM_BUCKETS && Holds(ht[..], callbacks, key, location)
    {
      SearchMeaning(ht[..], callbacks, key, 0);
      var scan;
      scan, probes, location := HtLookup(key, start);
      if scan.Exhausted? {
        return None, NullDereference, probes, location;
      }
      ChosenFits(ht[..], callbacks, key, probes);
      if ht[scan.bucket].Full? {
        return Some(ht[scan.bucket].data), Ok, probes, location;
      }
      return None, NotFound, probes, -1;
    }

    /** `HT_remove` */
    method Remove(key: K, start: int) returns (status: Status, probes: nat, location: int)
      requires WellFormed()
      modifies this, ht
      ensures WellFormed()
      ensures var (t, data, s) := HashSpec.Remove(old(Value()), callbacks, key);
        && Value() == t && status == s
        && removed == old(removed) + if data.Some? then [data.value] else []
      ensures var scan := Search(old(ht[..]), callbacks, key, 0, None);
        probes == if scan.Stopped? then scan.probes else BUDGET
      ensures status == NotFound ==> location == -1
      ensures status == Ok ==>
        0 <= location < NUM_BUCKETS && Holds(old(ht[..]), callbacks, key, location) && ht[location] == Vacated
    {
      SearchMeaning(ht[..], callbacks, key, 0);
      var scan;
      scan, probes, location := HtLookup(key, start);
      if scan.Exhausted? {
        return NullDereference, probes, location;
      }
      ChosenFits(ht[..], callbacks, key, probes);
      var b := scan.bucket;
      if !ht[b].Full? {
        return NotFound, probes, -1;
      }
      removed := removed + [ht[b].data];
      ht[b] := Vacated;
      numData := Decrement(numData);
      status := Ok;
    }
  }

  /** Where `ht_lookup` leaves the caller's location: at the bucket it names, else at
      the first vacated one it met, else as it was. */
  function Located(scan: Scan, vacated: Option<nat>, start: int): int {
    if scan.Stopped? then scan.bucket else if vacated.Some? then vacated.value else start
  }
}
