/** One memory bank: chunks of ten equal slots, a free list threaded through the
    free slots, and a size byte in front of every block in use. */
module PoolSpec {
  import opened PoolMemory

  const MAX_SIZE: nat := 128
  const NODES_PER_CHUNK: nat := 10

  // -------------------------------------------------------------------- slots

  /** How far slot `k` of a chunk lies behind its start. */
  function Offset(unit: nat, k: nat): nat {
    if k == 0 then 0 else Offset(unit, k - 1) + unit
  }

  lemma {:induction false} OffsetGrows(unit: nat, j: nat, k: nat)
    requires j < k
    ensures Offset(unit, j) + unit <= Offset(unit, k)
    decreases k
  {
    if j < k - 1 {
      OffsetGrows(unit, j, k - 1);
    }
  }

  lemma OffsetTen(unit: nat)
    ensures Offset(unit, NODES_PER_CHUNK) == NODES_PER_CHUNK * unit
  {
    assert Offset(unit, 10) == Offset(unit, 9) + unit;
    assert Offset(unit, 9) == Offset(unit, 8) + unit;
    assert Offset(unit, 8) == Offset(unit, 7) + unit;
    assert Offset(unit, 7) == Offset(unit, 6) + unit;
    assert Offset(unit, 6) == Offset(unit, 5) + unit;
    assert Offset(unit, 5) == Offset(unit, 4) + unit;
    assert Offset(unit, 4) == Offset(unit, 3) + unit;
    assert Offset(unit, 3) == Offset(unit, 2) + unit;
    assert Offset(unit, 2) == Offset(unit, 1) + unit;
  }

  /** What the bank looks like to someone who keeps books: the chunks' addresses,
      the free slots in list order, the slots in use, and their greatest number. */
  datatype Books = Books(bases: seq<int>, free: seq<int>, live: set<int>, peak: nat)

  const UNUSED: Books := Books([], [], {}, 0)

  ghost predicate SlotAt(bases: seq<int>, unit: nat, c: nat, k: nat, s: int) {
    c < |bases| && k < NODES_PER_CHUNK && s == bases[c] + Offset(unit, k)
  }

  /** `s` is the start of a slot. */
  ghost predicate IsSlot(bases: seq<int>, unit: nat, s: int) {
    exists c, k :: SlotAt(bases, unit, c, k, s)
  }

  ghost predicate Apart(a: int, n: int, b: int, m: int) {
    a + n <= b || b + m <= a
  }

  /** Chunks do not overlap and lie within the address space, away from null. */
  ghost predicate ChunksApart(bases: seq<int>, unit: nat) {
    && (forall c :: 0 <= c < |bases| ==> 0 < bases[c] && bases[c] + NODES_PER_CHUNK * unit <= ADDRESSES)
    && (forall c, d :: 0 <= c < d < |bases| ==>
          Apart(bases[c], NODES_PER_CHUNK * unit, bases[d], NODES_PER_CHUNK * unit))
  }

  /** A slot lies inside its chunk. */
  lemma SlotInside(bases: seq<int>, unit: nat, c: nat, k: nat, s: int)
    requires SlotAt(bases, unit, c, k, s)
    ensures bases[c] <= s && s + unit <= bases[c] + NODES_PER_CHUNK * unit
  {
    OffsetGrows(unit, k, NODES_PER_CHUNK);
    OffsetTen(unit);
  }

  /** Different slots do not overlap. */
  lemma SlotsApart(bases: seq<int>, unit: nat, s: int, t: int)
    requires ChunksApart(bases, unit) && IsSlot(bases, unit, s) && IsSlot(bases, unit, t) && s != t
    ensures Apart(s, unit, t, unit)
  {
    var c: nat, j: nat :| SlotAt(bases, unit, c, j, s);
    var d: nat, k: nat :| SlotAt(bases, unit, d, k, t);
    SlotInside(bases, unit, c, j, s);
    SlotInside(bases, unit, d, k, t);
    if c == d {
      if j < k {
        OffsetGrows(unit, j, k);
      } else if k < j {
        OffsetGrows(unit, k, j);
      }
    } else {
      assert c < d ==> Apart(bases[c], NODES_PER_CHUNK * unit, bases[d], NODES_PER_CHUNK * unit);
      assert d < c ==> Apart(bases[d], NODES_PER_CHUNK * unit, bases[c], NODES_PER_CHUNK * unit);
    }
  }

  // --------------------------------------------------------------- invariants

  /** The slots of the books: free and in use, each once. */
  ghost predicate Partition(b: Books, unit: nat) {
    && (forall i, j :: 0 <= i < j < |b.free| ==> b.free[i] != b.free[j])
    && (forall s :: s in b.free ==> s !in b.live)
    && (forall s :: IsSlot(b.bases, unit, s) <==> s in b.free || s in b.live)
    && |b.free| + |b.live| == NODES_PER_CHUNK * |b.bases|
  }

  /** The number of chunks is the greatest number of blocks in use over ten,
      rounded up. */
  ghost predicate Counts(b: Books) {
    |b.live| <= b.peak && |b.bases| == (b.peak + NODES_PER_CHUNK - 1) / NODES_PER_CHUNK
  }

  ghost function LinkAt(free: seq<int>, i: int): int {
    if 0 <= i < |free| then free[i] else 0
  }

  /** Free slot `i` links to the next one, the last one to none. */
  ghost predicate FreeLinked(m: Memory, free: seq<int>, i: int) {
    0 <= i < |free| ==> LinksTo(m, free[i], LinkAt(free, i + 1))
  }

  /** What the memory holds: links through the free slots, headers on the others. */
  ghost predicate Stored(m: Memory, b: Books, unit: nat, available: int) {
    && (forall s :: s in b.free || s in b.live ==> Mapped(m, s, unit))
    && available == LinkAt(b.free, 0)
    && (forall i :: FreeLinked(m, b.free, i))
    && (forall s :: s in b.live ==> s in m && m[s] == unit)
  }

  ghost predicate BankOk(m: Memory, b: Books, unit: nat, available: int) {
    && (b.bases != [] ==> LINK <= unit < 256)
    && ChunksApart(b.bases, unit) && Partition(b, unit) && Stored(m, b, unit, available)
  }

  /** A change of memory that leaves the bank's own slots alone leaves the bank. */
  lemma StoredElsewhere(m: Memory, m': Memory, b: Books, unit: nat, available: int)
    requires BankOk(m, b, unit, available)
    requires forall s :: s in b.free || s in b.live ==> Agree(m, m', s, unit)
    ensures BankOk(m', b, unit, available)
  {
    forall i
      ensures FreeLinked(m', b.free, i)
    {
      assert FreeLinked(m, b.free, i);
      if 0 <= i < |b.free| {
        assert b.free[i] in b.free;
        assert IsSlot(b.bases, unit, b.free[i]);
        LinkAgrees(m, m', b.free[i], LinkAt(b.free, i + 1));
      }
    }
    forall s | s in b.live
      ensures s in m' && m'[s] == unit
    {
      assert IsSlot(b.bases, unit, s);
      assert Agree(m, m', s, unit);
    }
  }

  // ------------------------------------------------------------- three changes

  /** The first free slot goes into use. */
  ghost function Taken(b: Books): Books
    requires b.free != []
  {
    Books(b.bases, b.free[1..], b.live + {b.free[0]}, if |b.live| < b.peak then b.peak else |b.live| + 1)
  }

  lemma TakeKeeps(m: Memory, b: Books, unit: nat, available: int)
    requires BankOk(m, b, unit, available) && b.free != []
    ensures Mapped(m, available, LINK) && LINK <= unit < 256
    ensures BankOk(m[available := unit], Taken(b), unit, Load(m, available))
  {
    assert b.free[0] in b.free;
    assert IsSlot(b.bases, unit, b.free[0]);
    TakePartitions(b, unit);
    TakeStored(m, b, unit, available);
  }

  lemma TakeStored(m: Memory, b: Books, unit: nat, available: int)
    requires BankOk(m, b, unit, available) && b.free != [] && LINK <= unit < 256
    requires IsSlot(b.bases, unit, b.free[0])
    ensures Stored(m[available := unit], Taken(b), unit, Load(m, available))
  {
    var s, b', m' := b.free[0], Taken(b), m[available := unit];
    forall t | t != s && (t in b.free || t in b.live)
      ensures Agree(m, m', t, unit)
    {
      assert IsSlot(b.bases, unit, t);
      SlotsApart(b.bases, unit, s, t);
    }
    assert FreeLinked(m, b.free, 0);
    forall i
      ensures FreeLinked(m', b'.free, i)
    {
      assert FreeLinked(m, b.free, i + 1);
      if 0 <= i < |b'.free| {
        assert b.free[i + 1] in b.free && b.free[i + 1] != s;
        LinkAgrees(m, m', b.free[i + 1], LinkAt(b.free, i + 2));
      }
    }
    forall t | t in b'.live
      ensures t in m' && m'[t] == unit
    {
      if t != s {
        assert Agree(m, m', t, unit);
      }
    }
    forall t | t in b'.free || t in b'.live
      ensures Mapped(m', t, unit)
    {
      assert t in b.free || t in b.live;
    }
  }

  lemma TakePartitions(b: Books, unit: nat)
    requires Partition(b, unit) && b.free != []
    ensures Partition(Taken(b), unit)
  {
    var b' := Taken(b);
    assert b.free == [b.free[0]] + b'.free;
    assert b.free[0] in b.free;
    forall s
      ensures IsSlot(b'.bases, unit, s) <==> s in b'.free || s in b'.live
    {
      assert IsSlot(b.bases, unit, s) <==> s in b.free || s in b.live;
    }
    forall s | s in b'.free
      ensures s !in b'.live
    {
      assert s in b.free;
    }
  }

  /** The block at `s` goes back to the front of the free list. */
  ghost function Given(b: Books, s: int): Books {
    Books(b.bases, [s] + b.free, b.live - {s}, b.peak)
  }

  lemma SlotsAreAddresses(b: Books, unit: nat, s: int)
    requires ChunksApart(b.bases, unit) && LINK <= unit && IsSlot(b.bases, unit, s)
    ensures 0 < s && s + unit <= ADDRESSES
  {
    var c: nat, k: nat :| SlotAt(b.bases, unit, c, k, s);
    SlotInside(b.bases, unit, c, k, s);
  }

  lemma GivePartitions(b: Books, unit: nat, s: int)
    requires Partition(b, unit) && s in b.live
    ensures Partition(Given(b, s), unit)
  {
    var b' := Given(b, s);
    forall t
      ensures IsSlot(b'.bases, unit, t) <==> t in b'.free || t in b'.live
    {
      assert IsSlot(b.bases, unit, t) <==> t in b.free || t in b.live;
      assert t in b'.free <==> t == s || t in b.free;
    }
  }

  lemma GiveKeeps(m: Memory, b: Books, unit: nat, available: int, s: int)
    requires BankOk(m, b, unit, available) && s in b.live
    ensures 0 <= available < ADDRESSES
    ensures BankOk(Store(m, s, available), Given(b, s), unit, s)
  {
    var b' := Given(b, s);
    assert IsSlot(b.bases, unit, s);
    if b.free != [] {
      assert b.free[0] in b.free && IsSlot(b.bases, unit, b.free[0]);
      SlotsAreAddresses(b, unit, b.free[0]);
    }
    GivePartitions(b, unit, s);
    GiveStored(m, b, unit, available, s);
  }

  lemma GiveStored(m: Memory, b: Books, unit: nat, available: int, s: int)
    requires BankOk(m, b, unit, available) && s in b.live && 0 <= available < ADDRESSES
    requires IsSlot(b.bases, unit, s)
    ensures Stored(Store(m, s, available), Given(b, s), unit, s)
  {
    var m' := Store(m, s, available);
    forall t | t != s && (t in b.free || t in b.live)
      ensures Agree(m, m', t, unit)
    {
      assert IsSlot(b.bases, unit, t);
      SlotsApart(b.bases, unit, s, t);
    }
    GiveLinks(m, b, unit, available, s);
  }

  lemma GiveLinks(m: Memory, b: Books, unit: nat, available: int, s: int)
    requires BankOk(m, b, unit, available) && s in b.live && 0 <= available < ADDRESSES && LINK <= unit
    requires forall t :: t in b.free ==> Agree(m, Store(m, s, available), t, unit)
    ensures forall i :: FreeLinked(Store(m, s, available), Given(b, s).free, i)
  {
    LinkStored(m, s, available);
    PrefixLinked(m, Store(m, s, available), b.free, unit, s);
  }

  /** A new first slot that links to the old first one extends the chain. */
  lemma PrefixLinked(m: Memory, m': Memory, free: seq<int>, unit: nat, s: int)
    requires LINK <= unit && (forall i :: FreeLinked(m, free, i)) && LinksTo(m', s, LinkAt(free, 0))
    requires forall t :: t in free ==> Agree(m, m', t, unit)
    ensures forall i :: FreeLinked(m', [s] + free, i)
  {
    forall i
      ensures FreeLinked(m', [s] + free, i)
    {
      assert FreeLinked(m, free, i - 1);
      if 0 < i <= |free| {
        assert free[i - 1] in free;
        LinkAgrees(m, m', free[i - 1], LinkAt(free, i));
      }
    }
  }

  /** The slots of a new chunk, in the order the formatting links them. */
  ghost function SlotsOf(base: int, unit: nat): (s: seq<int>)
    ensures |s| == NODES_PER_CHUNK
    ensures forall k :: 0 <= k < NODES_PER_CHUNK ==> s[k] == base + Offset(unit, k)
  {
    seq(NODES_PER_CHUNK, k requires 0 <= k => base + Offset(unit, k))
  }

  /** A bank without free slots gets another chunk. */
  ghost function Grown(b: Books, base: int, unit: nat): Books {
    Books(b.bases + [base], SlotsOf(base, unit), b.live, b.peak)
  }

  /** Slot `k` of the chunk links to the next slot, the last one to none. */
  ghost predicate SlotLinked(m: Memory, base: int, unit: nat, k: nat) {
    LinksTo(m, base + Offset(unit, k), if k + 1 < NODES_PER_CHUNK then base + Offset(unit, k + 1) else 0)
  }

  /** `m'` is `m` with a formatted chunk. */
  ghost predicate Formatted(m: Memory, m': Memory, base: int, unit: nat) {
    && LINK <= unit
    && Mapped(m', base, NODES_PER_CHUNK * unit)
    && (forall a :: a in m && !(base <= a < base + NODES_PER_CHUNK * unit) ==> a in m' && m'[a] == m[a])
    && (forall k :: 0 <= k < NODES_PER_CHUNK ==> SlotLinked(m', base, unit, k))
  }

  lemma GrowPartitions(b: Books, base: int, unit: nat)
    requires Partition(b, unit) && b.free == [] && 0 < unit
    requires ChunksApart(b.bases + [base], unit)
    ensures Partition(Grown(b, base, unit), unit)
  {
    var b' := Grown(b, base, unit);
    forall i, j | 0 <= i < j < |b'.free|
      ensures b'.free[i] != b'.free[j]
    {
      OffsetGrows(unit, i, j);
    }
    forall s
      ensures IsSlot(b'.bases, unit, s) <==> s in b'.free || s in b'.live
    {
      SlotsGrow(b.bases, base, unit, s);
    }
    forall s | s in b.live
      ensures s !in b'.free
    {
      assert IsSlot(b.bases, unit, s);
      NewSlotsDiffer(b.bases, base, unit, s);
    }
  }

  lemma SlotsGrow(bases: seq<int>, base: int, unit: nat, s: int)
    ensures IsSlot(bases + [base], unit, s) <==> IsSlot(bases, unit, s) || s in SlotsOf(base, unit)
  {
    var bases', new' := bases + [base], SlotsOf(base, unit);
    if IsSlot(bases, unit, s) {
      var c: nat, k: nat :| SlotAt(bases, unit, c, k, s);
      assert SlotAt(bases', unit, c, k, s);
    }
    if s in new' {
      var k: nat :| k < |new'| && new'[k] == s;
      assert SlotAt(bases', unit, |bases|, k, s);
    }
    if IsSlot(bases', unit, s) {
      var c: nat, k: nat :| SlotAt(bases', unit, c, k, s);
      assert c < |bases| ==> SlotAt(bases, unit, c, k, s);
      assert c == |bases| ==> new'[k] == s;
    }
  }

  lemma NewSlotsDiffer(bases: seq<int>, base: int, unit: nat, s: int)
    requires ChunksApart(bases + [base], unit) && 0 < unit && IsSlot(bases, unit, s)
    ensures s !in SlotsOf(base, unit)
  {
    var bases' := bases + [base];
    var c: nat, k: nat :| SlotAt(bases, unit, c, k, s);
    assert SlotAt(bases', unit, c, k, s);
    SlotInside(bases', unit, c, k, s);
    assert Apart(bases'[c], NODES_PER_CHUNK * unit, bases'[|bases|], NODES_PER_CHUNK * unit);
    forall i: nat | i < NODES_PER_CHUNK
      ensures SlotsOf(base, unit)[i] != s
    {
      assert SlotAt(bases', unit, |bases|, i, base + Offset(unit, i));
      SlotInside(bases', unit, |bases|, i, base + Offset(unit, i));
    }
  }

  lemma GrowKeeps(m: Memory, m': Memory, b: Books, unit: nat, base: int)
    requires BankOk(m, b, unit, 0) && b.free == [] && unit < 256
    requires Formatted(m, m', base, unit) && ChunksApart(b.bases + [base], unit)
    ensures BankOk(m', Grown(b, base, unit), unit, base)
  {
    GrowPartitions(b, base, unit);
    GrowMapped(m, m', unit, base);
    GrowHeaders(m, m', b, unit, base);
    GrowStored(m', Grown(b, base, unit), unit, base);
  }

  lemma GrowStored(m: Memory, b: Books, unit: nat, base: int)
    requires b.free == SlotsOf(base, unit) && LINK <= unit < 256
    requires forall s :: s in b.free || s in b.live ==> Mapped(m, s, unit)
    requires forall k :: 0 <= k < NODES_PER_CHUNK ==> SlotLinked(m, base, unit, k)
    requires forall s :: s in b.live ==> s in m && m[s] == unit
    ensures Stored(m, b, unit, base)
  {
    forall i
      ensures FreeLinked(m, b.free, i)
    {
      if 0 <= i < |b.free| {
        assert SlotLinked(m, base, unit, i);
      }
    }
  }

  lemma GrowMapped(m: Memory, m': Memory, unit: nat, base: int)
    requires Formatted(m, m', base, unit)
    ensures forall s :: s in SlotsOf(base, unit) ==> Mapped(m', s, unit)
  {
    forall s | s in SlotsOf(base, unit)
      ensures Mapped(m', s, unit)
    {
      var i :| 0 <= i < NODES_PER_CHUNK && SlotsOf(base, unit)[i] == s;
      assert SlotAt([base], unit, 0, i, s);
      SlotInside([base], unit, 0, i, s);
    }
  }

  lemma GrowHeaders(m: Memory, m': Memory, b: Books, unit: nat, base: int)
    requires BankOk(m, b, unit, 0) && Formatted(m, m', base, unit) && ChunksApart(b.bases + [base], unit)
    ensures forall s :: s in b.live ==> Mapped(m', s, unit) && s in m' && m'[s] == unit
  {
    var bases := b.bases + [base];
    forall s | s in b.live
      ensures Mapped(m', s, unit) && s in m' && m'[s] == unit
    {
      assert IsSlot(b.bases, unit, s);
      var c: nat, k: nat :| SlotAt(b.bases, unit, c, k, s);
      SlotInside(b.bases, unit, c, k, s);
      assert bases[c] == b.bases[c] && bases[|b.bases|] == base;
      assert Apart(bases[c], NODES_PER_CHUNK * unit, bases[|b.bases|], NODES_PER_CHUNK * unit);
    }
  }

  /** A bank grows only when all its slots are in use, so its number of chunks
      stays the rounded-up tenth of its peak. */
  lemma GrowCounts(b: Books, base: int, unit: nat)
    requires Partition(b, unit) && Counts(b) && b.free == []
    ensures Counts(Taken(Grown(b, base, unit)))
  {
    var b' := Taken(Grown(b, base, unit));
    assert |b.live| == NODES_PER_CHUNK * |b.bases|;
    assert b.peak == |b.live|;
    NewLive(b, base, unit);
  }

  lemma NewLive(b: Books, base: int, unit: nat)
    requires Partition(b, unit) && b.free == []
    ensures |Taken(Grown(b, base, unit)).live| <= |b.live| + 1
  {
  }

  lemma TakeCounts(b: Books, unit: nat)
    requires Partition(b, unit) && Counts(b) && b.free != []
    ensures Counts(Taken(b))
  {
    assert b.free[0] in b.free;
  }

  /** A bank's books when it is about to serve a request: grown if need be. */
  ghost function Ready(b: Books, base: int, unit: nat): (r: Books)
    ensures r.free != []
  {
    if b.free == [] then Grown(b, base, unit) else b
  }

  lemma ReadyCounts(b: Books, base: int, unit: nat)
    requires Partition(b, unit) && Counts(b)
    ensures Counts(Taken(Ready(b, base, unit)))
  {
    if b.free == [] {
      GrowCounts(b, base, unit);
    } else {
      TakeCounts(b, unit);
    }
  }
}
