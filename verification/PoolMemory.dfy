/** Byte-addressed memory, with the four-byte links that thread a free list. */
module PoolMemory {

  type Byte = b: int | 0 <= b < 256

  const LINK: nat := 4
  const ADDRESSES: int := 0x1_0000_0000

  /** The bytes at the addresses that were obtained from the system. */
  type Memory = map<int, Byte>

  ghost predicate Mapped(m: Memory, from: int, n: int) {
    forall a :: from <= a < from + n ==> a in m
  }

  ghost predicate Agree(m: Memory, m': Memory, from: int, n: int) {
    forall a :: from <= a < from + n && a in m ==> a in m' && m'[a] == m[a]
  }

  /** The number that `n` bytes spell, the lowest first. */
  function LoadBytes(m: Memory, a: int, n: nat): int
    requires Mapped(m, a, n)
    decreases n
  {
    if n == 0 then 0 else
      var low: int := m[a];
      low + 0x100 * LoadBytes(m, a + 1, n - 1)
  }

  function StoreBytes(m: Memory, a: int, n: nat, v: nat): (m': Memory)
    ensures Mapped(m', a, n)
    ensures forall b :: b in m' <==> b in m || a <= b < a + n
    ensures forall b :: b in m && (b < a || a + n <= b) ==> m'[b] == m[b]
    decreases n
  {
    if n == 0 then m else StoreBytes(m[a := v % 0x100], a + 1, n - 1, v / 0x100)
  }

  /** The greatest number of values that `n` bytes can spell. */
  function Values(n: nat): nat {
    if n == 0 then 1 else 0x100 * Values(n - 1)
  }

  lemma {:induction false} LoadStoredBytes(m: Memory, a: int, n: nat, v: nat)
    requires v < Values(n)
    ensures LoadBytes(StoreBytes(m, a, n, v), a, n) == v
    decreases n
  {
    if n > 0 {
      var m1 := m[a := v % 0x100];
      LoadStoredBytes(m1, a + 1, n - 1, v / 0x100);
      assert StoreBytes(m, a, n, v)[a] == m1[a];
    }
  }

  lemma {:induction false} LoadBytesAgree(m: Memory, m': Memory, a: int, n: nat)
    requires Mapped(m, a, n) && Agree(m, m', a, n)
    ensures Mapped(m', a, n) && LoadBytes(m', a, n) == LoadBytes(m, a, n)
    decreases n
  {
    if n > 0 {
      LoadBytesAgree(m, m', a + 1, n - 1);
    }
  }

  lemma {:induction false} LoadZeroBytes(m: Memory, a: int, n: nat)
    requires Mapped(m, a, n) && forall b :: a <= b < a + n ==> m[b] == 0
    ensures LoadBytes(m, a, n) == 0
    decreases n
  {
    if n > 0 {
      LoadZeroBytes(m, a + 1, n - 1);
    }
  }

  // -------------------------------------------------------------------- links

  function Load(m: Memory, a: int): int
    requires Mapped(m, a, LINK)
  {
    LoadBytes(m, a, LINK)
  }

  function Store(m: Memory, a: int, v: nat): (m': Memory)
    ensures forall b :: b in m' <==> b in m || a <= b < a + LINK
    ensures forall b :: b in m && (b < a || a + LINK <= b) ==> m'[b] == m[b]
  {
    StoreBytes(m, a, LINK, v)
  }

  /** The four bytes at `a` hold the link `v`. */
  ghost predicate LinksTo(m: Memory, a: int, v: int) {
    Mapped(m, a, LINK) && Load(m, a) == v
  }

  /** A stored link reads back as it was. */
  lemma LinkStored(m: Memory, a: int, v: nat)
    requires v < ADDRESSES
    ensures LinksTo(Store(m, a, v), a, v)
  {
    assert Values(4) == 0x100 * Values(3) && Values(3) == 0x100 * Values(2) && Values(2) == 0x100 * Values(1);
    LoadStoredBytes(m, a, LINK, v);
  }

  lemma LinkAgrees(m: Memory, m': Memory, a: int, v: int)
    requires LinksTo(m, a, v) && Agree(m, m', a, LINK)
    ensures LinksTo(m', a, v)
  {
    LoadBytesAgree(m, m', a, LINK);
  }

  /** Four zero bytes are a null link. */
  lemma LinkZero(m: Memory, a: int)
    requires Mapped(m, a, LINK) && forall b :: a <= b < a + LINK ==> m[b] == 0
    ensures LinksTo(m, a, 0)
  {
    LoadZeroBytes(m, a, LINK);
  }
}
