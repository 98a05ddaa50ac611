/** The life of one bank: any sequence of requests and releases. */
module BankRun {
  import opened PoolSpec

  /** A request, with the chunk address the system returns if the bank has to grow;
      or the release of a block. */
  datatype Event = Request(base: int) | Release(slot: int)

  ghost function Apply(b: Books, unit: nat, e: Event): Books {
    match e
    case Request(base) => Taken(Ready(b, base, unit))
    case Release(s) => Given(b, s)
  }

  /** The books after the first `n` events. */
  ghost function After(events: seq<Event>, unit: nat, n: nat): Books
    requires n <= |events|
  {
    if n == 0 then UNUSED else Apply(After(events, unit, n - 1), unit, events[n - 1])
  }

  /** Chunks that the system returns do not overlap, and only blocks in use are
      released. */
  ghost predicate Allowed(events: seq<Event>, unit: nat, n: nat)
    requires n < |events|
  {
    var b := After(events, unit, n);
    match events[n]
    case Request(base) => b.free == [] ==> ChunksApart(b.bases + [base], unit)
    case Release(s) => s in b.live
  }

  ghost function InUse(events: seq<Event>, unit: nat, n: nat): nat
    requires n <= |events|
  {
    |After(events, unit, n).live|
  }

  lemma ApplyKeeps(b: Books, unit: nat, e: Event)
    requires 0 < unit && Partition(b, unit) && Counts(b)
    requires e.Request? && b.free == [] ==> ChunksApart(b.bases + [e.base], unit)
    requires e.Release? ==> e.slot in b.live
    ensures Partition(Apply(b, unit, e), unit) && Counts(Apply(b, unit, e))
    ensures var b' := Apply(b, unit, e);
      b'.peak == if b.peak < |b'.live| then |b'.live| else b.peak
  {
    match e
    case Request(base) =>
      ReadyCounts(b, base, unit);
      var r := Ready(b, base, unit);
      if b.free == [] {
        GrowPartitions(b, base, unit);
      }
      TakePartitions(r, unit);
      assert r.free[0] in r.free;
    case Release(s) =>
      GivePartitions(b, unit, s);
  }

  /** `p` is the greatest use of the bank up to event `n`. */
  ghost predicate GreatestUse(events: seq<Event>, unit: nat, n: nat, p: nat)
    requires n <= |events|
  {
    && (forall k :: 0 <= k <= n ==> InUse(events, unit, k) <= p)
    && exists k :: 0 <= k <= n && InUse(events, unit, k) == p
  }

  lemma GreatestUseSteps(events: seq<Event>, unit: nat, n: nat, p: nat, q: nat)
    requires n < |events| && GreatestUse(events, unit, n, p)
    requires q == if p < InUse(events, unit, n + 1) then InUse(events, unit, n + 1) else p
    ensures GreatestUse(events, unit, n + 1, q)
  {
    var k :| 0 <= k <= n && InUse(events, unit, k) == p;
    assert InUse(events, unit, k) == q || InUse(events, unit, n + 1) == q;
  }

  ghost predicate PeakOk(b: Books, events: seq<Event>, unit: nat, n: nat)
    requires n <= |events|
  {
    Partition(b, unit) && Counts(b) && GreatestUse(events, unit, n, b.peak)
  }

  lemma PeakSteps(b: Books, b': Books, events: seq<Event>, unit: nat, n: nat)
    requires 0 < unit && n < |events| && Allowed(events, unit, n)
    requires b == After(events, unit, n) && b' == After(events, unit, n + 1) && PeakOk(b, events, unit, n)
    ensures PeakOk(b', events, unit, n + 1)
  {
    ApplyKeeps(b, unit, events[n]);
    GreatestUseSteps(events, unit, n, b.peak, b'.peak);
  }

  /** At any time the bank's slots are partitioned into free ones and blocks in
      use, and it has exactly as many chunks as its greatest use so far needs. */
  lemma {:induction false} ChunksFollowPeak(events: seq<Event>, unit: nat, n: nat)
    requires 0 < unit && n <= |events| && forall k :: 0 <= k < n ==> Allowed(events, unit, k)
    ensures PeakOk(After(events, unit, n), events, unit, n)
  {
    if n == 0 {
      assert InUse(events, unit, 0) == 0;
    } else {
      ChunksFollowPeak(events, unit, n - 1);
      PeakSteps(After(events, unit, n - 1), After(events, unit, n), events, unit, n - 1);
    }
  }
}
