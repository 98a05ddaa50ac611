/** The pool allocator: 128 banks, one for each block size, over one memory. */
module Pool {
  import opened PoolMemory
  import opened PoolSpec

  /** A `mem_bank_t`; zero is null. */
  datatype Bank = Bank(available: int, list: int, tail: int)

  /** A `mem_chunk_t`, found by its address. */
  datatype ChunkNode = ChunkNode(previous: int, next: int, chunk: int)

  /** What one growth obtains from the system: a node for the chunk list, and an
      address for the chunk with whatever its bytes hold. */
  datatype Obtained = Obtained(node: int, base: int, contents: seq<Byte>)

  // ------------------------------------------------------------- sizes, headers

  /** The bank that a request is served from. */
  function BankIndex(size: nat): nat {
    if size + 1 > 4 then size + 1 else 4
  }

  /** The size byte that is written in front of the block; `mem_free` takes it for
      the number of the bank. */
  function Header(size: nat): Byte {
    (size + 1) % 0x100
  }

  // ------------------------------------------------------------------ the pool

  ghost function LastOf(s: seq<int>): int {
    if s == [] then 0 else s[|s| - 1]
  }

  /** Chunk `c` links to the one before it and to the one after it. */
  ghost predicate NodeOk(nodes: map<int, ChunkNode>, ids: seq<int>, bases: seq<int>, c: int) {
    0 <= c < |ids| && c < |bases| ==>
      && ids[c] != 0 && ids[c] in nodes
      && nodes[ids[c]] == ChunkNode(LinkAt(ids, c - 1), LinkAt(ids, c + 1), bases[c])
  }

  /** The chunk list of a bank, in both directions. */
  ghost predicate ListOk(nodes: map<int, ChunkNode>, bank: Bank, ids: seq<int>, bases: seq<int>) {
    && |ids| == |bases| && bank.list == LinkAt(ids, 0) && bank.tail == LastOf(ids)
    && (forall c :: NodeOk(nodes, ids, bases, c))
    && (forall c, d :: 0 <= c < d < |ids| ==> ids[c] != ids[d])
  }

  ghost predicate ChunksMapped(m: Memory, bases: seq<int>, unit: nat) {
    forall c :: 0 <= c < |bases| ==> Mapped(m, bases[c], NODES_PER_CHUNK * unit)
  }

  /** Chunks of different banks do not overlap. */
  ghost predicate BanksApart(books: seq<Books>) {
    forall i, j, c, d :: 0 <= i < j < |books| && 0 <= c < |books[i].bases| && 0 <= d < |books[j].bases| ==>
      Apart(books[i].bases[c], NODES_PER_CHUNK * i, books[j].bases[d], NODES_PER_CHUNK * j)
  }

  ghost predicate IdsApart(ids: seq<seq<int>>) {
    forall i, j, x :: 0 <= i < j < |ids| && x in ids[i] ==> x !in ids[j]
  }

  /** The block that goes into use is the first free one; if there was none, it starts the
      new chunk at `base` and leaves the other nine free. */
  ghost predicate Serves(b: Books, b': Books, base: int, slot: int) {
    && b'.live == b.live + {slot}
    && if b.free != [] then b.free == [slot] + b'.free else slot == base && |b'.free| == 9
  }

  lemma TakenServes(b: Books, base: int, unit: nat)
    ensures Serves(b, Taken(Ready(b, base, unit)), base, Ready(b, base, unit).free[0])
  {
  }

  /** Every bank's books agree with the memory. */
  ghost predicate MemoryOk(m: Memory, banks: seq<Bank>, books: seq<Books>) {
    && |banks| == |books| == MAX_SIZE
    && forall i :: 0 <= i < MAX_SIZE ==> BankOk(m, books[i], i, banks[i].available)
  }

  /** The chunks are where the chunk lists say, mapped and apart. */
  ghost predicate ListsOk(m: Memory, nodes: map<int, ChunkNode>, banks: seq<Bank>, books: seq<Books>,
                          ids: seq<seq<int>>) {
    && |banks| == |books| == |ids| == MAX_SIZE
    && (forall i :: 0 <= i < MAX_SIZE ==> ChunksMapped(m, books[i].bases, i))
    && (forall i :: 0 <= i < MAX_SIZE ==> ListOk(nodes, banks[i], ids[i], books[i].bases))
    && BanksApart(books) && IdsApart(ids)
  }

  ghost predicate BanksOk(m: Memory, nodes: map<int, ChunkNode>, banks: seq<Bank>, books: seq<Books>,
                          ids: seq<seq<int>>) {
    MemoryOk(m, banks, books) && ListsOk(m, nodes, banks, books, ids)
  }

  /** The chunk lists do not care which slots are free. */
  lemma SameChunks(m: Memory, m': Memory, nodes: map<int, ChunkNode>, banks: seq<Bank>, banks': seq<Bank>,
                   books: seq<Books>, books': seq<Books>, ids: seq<seq<int>>)
    requires ListsOk(m, nodes, banks, books, ids) && |banks'| == |books'| == MAX_SIZE && m.Keys <= m'.Keys
    requires forall j :: 0 <= j < MAX_SIZE ==> books'[j].bases == books[j].bases
    requires forall j :: 0 <= j < MAX_SIZE ==> banks'[j].list == banks[j].list && banks'[j].tail == banks[j].tail
    ensures ListsOk(m', nodes, banks', books', ids)
  {
  }

  /** Memory changed between `t` and `t + n` only, and nothing was unmapped. */
  ghost predicate ChangedInside(m: Memory, m': Memory, t: int, n: int) {
    forall a :: a in m ==> a in m' && (a < t || t + n <= a ==> m'[a] == m[a])
  }

  /** A change apart from a bank's chunks leaves the bank in order. */
  lemma BankUnchanged(m: Memory, m': Memory, b: Books, unit: nat, available: int, t: int, n: int)
    requires BankOk(m, b, unit, available) && ChangedInside(m, m', t, n)
    requires forall c :: 0 <= c < |b.bases| ==> Apart(b.bases[c], NODES_PER_CHUNK * unit, t, n)
    ensures BankOk(m', b, unit, available)
  {
    forall s | s in b.free || s in b.live
      ensures Agree(m, m', s, unit)
    {
      assert IsSlot(b.bases, unit, s);
      var c: nat, k: nat :| SlotAt(b.bases, unit, c, k, s);
      SlotInside(b.bases, unit, c, k, s);
    }
    StoredElsewhere(m, m', b, unit, available);
  }

  /** An unmapped stretch overlaps no mapped one. */
  lemma UnmappedApart(m: Memory, a: int, n: nat, t: int, k: nat)
    requires Mapped(m, a, n) && 0 < n && 0 < k
    requires forall x :: t <= x < t + k ==> x !in m
    ensures Apart(a, n, t, k)
  {
    var x := if a < t then t else a;
    assert x in m || !(a <= x < a + n);
  }

  /** After a change inside one slot of bank `i`, all other banks are in order. */
  lemma OthersUnchanged(m: Memory, m': Memory, banks: seq<Bank>, books: seq<Books>, i: nat, s: int)
    requires |banks| == |books| == MAX_SIZE && i < MAX_SIZE && BanksApart(books)
    requires forall j :: 0 <= j < MAX_SIZE ==> BankOk(m, books[j], j, banks[j].available)
    requires IsSlot(books[i].bases, i, s) && ChangedInside(m, m', s, i)
    ensures forall j :: 0 <= j < MAX_SIZE && j != i ==> BankOk(m', books[j], j, banks[j].available)
  {
    var c: nat, k: nat :| SlotAt(books[i].bases, i, c, k, s);
    SlotInside(books[i].bases, i, c, k, s);
    forall j | 0 <= j < MAX_SIZE && j != i
      ensures BankOk(m', books[j], j, banks[j].available)
    {
      forall d | 0 <= d < |books[j].bases|
        ensures Apart(books[j].bases[d], NODES_PER_CHUNK * j, s, i)
      {
        assert i < j ==> Apart(books[i].bases[c], NODES_PER_CHUNK * i, books[j].bases[d], NODES_PER_CHUNK * j);
        assert j < i ==> Apart(books[j].bases[d], NODES_PER_CHUNK * j, books[i].bases[c], NODES_PER_CHUNK * i);
      }
      BankUnchanged(m, m', books[j], j, banks[j].available, s, i);
    }
  }

  /** Taking the first free slot of bank `i` keeps all banks in order. */
  lemma TakeKeepsBanks(m: Memory, nodes: map<int, ChunkNode>, banks: seq<Bank>, books: seq<Books>, ids: seq<seq<int>>,
                       i: nat)
    requires BanksOk(m, nodes, banks, books, ids) && i < MAX_SIZE && books[i].free != []
    ensures LINK <= i && Mapped(m, banks[i].available, LINK)
    ensures banks[i].available == books[i].free[0]
    ensures var head := banks[i].available;
      BanksOk(m[head := i], nodes, banks[i := banks[i].(available := Load(m, head))], books[i := Taken(books[i])], ids)
  {
    var head := banks[i].available;
    assert FreeLinked(m, books[i].free, 0);
    var m', books' := m[head := i], books[i := Taken(books[i])];
    var banks' := banks[i := banks[i].(available := Load(m, head))];
    assert head in books[i].free;
    assert IsSlot(books[i].bases, i, head);
    TakeKeeps(m, books[i], i, head);
    OthersUnchanged(m, m', banks, books, i, head);
    SameChunks(m, m', nodes, banks, banks', books, books', ids);
  }

  /** After a request of `size` bytes has been served all banks are in order. */
  ghost predicate ServedInOrder(m: Memory, nodes: map<int, ChunkNode>, banks: seq<Bank>, books: seq<Books>,
                                ids: seq<seq<int>>, size: nat)
    requires BanksOk(m, nodes, banks, books, ids)
    requires BankIndex(size) < MAX_SIZE ==> books[BankIndex(size)].free != []
  {
    var i := BankIndex(size);
    i < MAX_SIZE &&
    var head := banks[i].available;
    TakeKeepsBanks(m, nodes, banks, books, ids, i);
    BanksOk(m[head := Header(size)], nodes, banks[i := banks[i].(available := Load(m, head))],
            books[i := Taken(books[i])], ids)
  }

  /** Serving a request keeps the pool in order, headers included, if and only if it
      is for 3 to 126 bytes: a smaller one leaves a header that does not name its
      bank, and for one of 127 bytes there is no bank. */
  lemma ServedInOrderIff(m: Memory, nodes: map<int, ChunkNode>, banks: seq<Bank>, books: seq<Books>,
                         ids: seq<seq<int>>, size: nat)
    requires BanksOk(m, nodes, banks, books, ids) && size + 1 <= MAX_SIZE
    requires BankIndex(size) < MAX_SIZE ==> books[BankIndex(size)].free != []
    ensures ServedInOrder(m, nodes, banks, books, ids, size) <==> 3 <= size <= 126
  {
    var i := BankIndex(size);
    if i < MAX_SIZE {
      TakeKeepsBanks(m, nodes, banks, books, ids, i);
      var head := banks[i].available;
      if Header(size) != i {
        WrongHeader(m[head := Header(size)], nodes, banks[i := banks[i].(available := Load(m, head))],
                    books[i := Taken(books[i])], ids, i, head);
      }
    }
  }

  lemma WrongHeader(m: Memory, nodes: map<int, ChunkNode>, banks: seq<Bank>, books: seq<Books>, ids: seq<seq<int>>,
                    i: nat, s: int)
    requires i < |books| == MAX_SIZE && s in books[i].live && s in m && m[s] != i
    ensures !BanksOk(m, nodes, banks, books, ids)
  {
    if |banks| == MAX_SIZE {
      assert !BankOk(m, books[i], i, banks[i].available);
    }
  }

  /** No memory and no books make such a bank one in order. */
  ghost predicate OutOfOrder(unit: nat, available: int) {
    forall m, b :: !BankOk(m, b, unit, available)
  }

  /** A block of less than 3 bytes, once released, heads the free list of a bank that
      has no chunk: whatever that bank's books say, it is out of order. */
  lemma ShortBlockStrays(m: Memory, nodes: map<int, ChunkNode>, banks: seq<Bank>, books: seq<Books>,
                         ids: seq<seq<int>>, size: nat)
    requires BanksOk(m, nodes, banks, books, ids) && size < 3 && books[BankIndex(size)].free != []
    ensures var head := banks[BankIndex(size)].available;
      m[head := Header(size)][head] == size + 1 != BankIndex(size) && OutOfOrder(size + 1, head)
  {
    var b := books[BankIndex(size)];
    assert b.free[0] in b.free && IsSlot(b.bases, BankIndex(size), b.free[0]);
    SlotsAreAddresses(b, BankIndex(size), b.free[0]);
    SmallBanksAreEmpty(size + 1, b.free[0]);
  }

  lemma SmallBanksAreEmpty(unit: nat, available: int)
    requires unit < LINK && available != 0
    ensures OutOfOrder(unit, available)
  {
    forall m, b
      ensures !BankOk(m, b, unit, available)
    {
      assert Partition(b, unit) && b.bases == [] ==> |b.free| + |b.live| == 0;
    }
  }

  /** Everything stays mapped and keeps its value. */
  ghost predicate Kept(m: Memory, m': Memory) {
    forall a :: a in m ==> a in m' && m'[a] == m[a]
  }

  /** The blocks in use keep their bytes. */
  ghost predicate LiveKept(m: Memory, m': Memory, books: seq<Books>) {
    |books| == MAX_SIZE && forall j, t :: 0 <= j < MAX_SIZE && t in books[j].live ==> Agree(m, m', t, j)
  }

  /** Different slots do not overlap, of the same bank or of different ones; so no
      block in use overlaps another one or a free slot. */
  lemma AllSlotsApart(m: Memory, nodes: map<int, ChunkNode>, banks: seq<Bank>, books: seq<Books>,
                      ids: seq<seq<int>>, i: nat, s: int, j: nat, t: int)
    requires BanksOk(m, nodes, banks, books, ids) && i < MAX_SIZE && j < MAX_SIZE && (i != j || s != t)
    requires (s in books[i].free || s in books[i].live) && (t in books[j].free || t in books[j].live)
    ensures Apart(s, i, t, j)
  {
    assert IsSlot(books[i].bases, i, s) && IsSlot(books[j].bases, j, t);
    if i == j {
      SlotsApart(books[i].bases, i, s, t);
    } else {
      var c: nat, k: nat :| SlotAt(books[i].bases, i, c, k, s);
      var d: nat, l: nat :| SlotAt(books[j].bases, j, d, l, t);
      SlotInside(books[i].bases, i, c, k, s);
      SlotInside(books[j].bases, j, d, l, t);
      ChunksOfBanksApart(books, i, c, j, d);
    }
  }

  lemma ChunksOfBanksApart(books: seq<Books>, i: nat, c: nat, j: nat, d: nat)
    requires BanksApart(books) && i < |books| && j < |books| && i != j
    requires c < |books[i].bases| && d < |books[j].bases|
    ensures Apart(books[i].bases[c], NODES_PER_CHUNK * i, books[j].bases[d], NODES_PER_CHUNK * j)
  {
    assert i < j ==> Apart(books[i].bases[c], NODES_PER_CHUNK * i, books[j].bases[d], NODES_PER_CHUNK * j);
    assert j < i ==> Apart(books[j].bases[d], NODES_PER_CHUNK * j, books[i].bases[c], NODES_PER_CHUNK * i);
  }

  /** A change inside a slot of bank `i` keeps the bytes of all blocks but that slot's. */
  lemma ChangeKeepsLive(m: Memory, m': Memory, nodes: map<int, ChunkNode>, banks: seq<Bank>, books: seq<Books>,
                        ids: seq<seq<int>>, i: nat, s: int)
    requires BanksOk(m, nodes, banks, books, ids) && i < MAX_SIZE && (s in books[i].free || s in books[i].live)
    requires ChangedInside(m, m', s, i)
    ensures forall j, t :: 0 <= j < MAX_SIZE && t in books[j].live && !(j == i && t == s) ==> Agree(m, m', t, j)
  {
    forall j, t | 0 <= j < MAX_SIZE && t in books[j].live && !(j == i && t == s)
      ensures Agree(m, m', t, j)
    {
      AllSlotsApart(m, nodes, banks, books, ids, i, s, j, t);
    }
  }

  lemma TakeServes(m: Memory, nodes: map<int, ChunkNode>, banks: seq<Bank>, books: seq<Books>, ids: seq<seq<int>>,
                   i: nat, size: nat)
    requires BanksOk(m, nodes, banks, books, ids) && i == BankIndex(size) < MAX_SIZE && books[i].free != []
    ensures Mapped(m, banks[i].available, LINK) && banks[i].available == books[i].free[0]
    ensures LiveKept(m, m[banks[i].available := Header(size)], books)
    ensures var head := banks[i].available;
      BanksOk(m[head := Header(size)], nodes, banks[i := banks[i].(available := Load(m, head))],
              books[i := Taken(books[i])], ids)
      <==> 3 <= size <= 126
  {
    var head := banks[i].available;
    TakeKeepsBanks(m, nodes, banks, books, ids, i);
    ServedInOrderIff(m, nodes, banks, books, ids, size);
    assert head in books[i].free;
    ChangeKeepsLive(m, m[head := Header(size)], nodes, banks, books, ids, i, head);
  }

  /** Giving a block of bank `i` back keeps all banks in order. */
  lemma GiveKeepsBanks(m: Memory, nodes: map<int, ChunkNode>, banks: seq<Bank>, books: seq<Books>, ids: seq<seq<int>>,
                       i: nat, s: int)
    requires BanksOk(m, nodes, banks, books, ids) && i < MAX_SIZE && s in books[i].live
    ensures 0 <= banks[i].available < ADDRESSES && s in m && m[s] == i
    ensures BanksOk(Store(m, s, banks[i].available), nodes, banks[i := banks[i].(available := s)],
                    books[i := Given(books[i], s)], ids)
  {
    assert IsSlot(books[i].bases, i, s);
    GiveKeeps(m, books[i], i, banks[i].available, s);
    var m' := Store(m, s, banks[i].available);
    var banks', books' := banks[i := banks[i].(available := s)], books[i := Given(books[i], s)];
    OthersUnchanged(m, m', banks, books, i, s);
    SameChunks(m, m', nodes, banks, banks', books, books', ids);
  }

  /** A client that writes within the bytes it asked for changes no header and no
      link: all banks stay in order with the same books. */
  lemma ClientWriteKeepsBanks(m: Memory, nodes: map<int, ChunkNode>, banks: seq<Bank>, books: seq<Books>,
                              ids: seq<seq<int>>,
                              i: nat, s: int, a: int, v: Byte)
    requires BanksOk(m, nodes, banks, books, ids) && i < MAX_SIZE && s in books[i].live && s + 1 <= a < s + i
    ensures a in m && BanksOk(m[a := v], nodes, banks, books, ids)
  {
    var m', b := m[a := v], books[i];
    assert IsSlot(b.bases, i, s);
    OthersUnchanged(m, m', banks, books, i, s);
    forall t | t != s && (t in b.free || t in b.live)
      ensures Agree(m, m', t, i)
    {
      assert IsSlot(b.bases, i, t);
      SlotsApart(b.bases, i, s, t);
    }
    ClientWriteKeepsBank(m, b, i, banks[i].available, s, a, v);
  }

  lemma ClientWriteKeepsBank(m: Memory, b: Books, unit: nat, available: int, s: int, a: int, v: Byte)
    requires BankOk(m, b, unit, available) && s in b.live && s + 1 <= a < s + unit
    requires forall t :: t != s && (t in b.free || t in b.live) ==> Agree(m, m[a := v], t, unit)
    ensures BankOk(m[a := v], b, unit, available)
  {
    var m' := m[a := v];
    assert IsSlot(b.bases, unit, s);
    forall i
      ensures FreeLinked(m', b.free, i)
    {
      assert FreeLinked(m, b.free, i);
      if 0 <= i < |b.free| {
        assert b.free[i] in b.free && b.free[i] != s;
        LinkAgrees(m, m', b.free[i], LinkAt(b.free, i + 1));
      }
    }
    forall t | t in b.live
      ensures t in m' && m'[t] == unit
    {
      if t != s {
        assert IsSlot(b.bases, unit, t);
        assert Agree(m, m', t, unit);
      }
    }
  }

  // ------------------------------------------------------------------- growing

  /** What the system returns overlaps nothing that it returned before. */
  ghost predicate Fresh(m: Memory, nodes: map<int, ChunkNode>, got: Obtained, unit: nat) {
    && got.node != 0 && got.node !in nodes && |got.contents| == NODES_PER_CHUNK * unit
    && 0 < got.base && got.base + NODES_PER_CHUNK * unit <= ADDRESSES
    && (forall a :: got.base <= a < got.base + NODES_PER_CHUNK * unit ==> a !in m)
  }

  /** The chunk list with one more chunk at its tail. */
  function Linked(nodes: map<int, ChunkNode>, bank: Bank, got: Obtained): map<int, ChunkNode> {
    var added := nodes[got.node := ChunkNode(bank.tail, 0, got.base)];
    if bank.tail in nodes && bank.list != 0 then added[bank.tail := nodes[bank.tail].(next := got.node)] else added
  }

  function WithChunk(bank: Bank, got: Obtained): Bank {
    Bank(got.base, if bank.list == 0 then got.node else bank.list, got.node)
  }

  lemma NoneFree(m: Memory, b: Books, unit: nat)
    requires BankOk(m, b, unit, 0)
    ensures b.free == []
  {
    if b.free != [] {
      assert b.free[0] in b.free && IsSlot(b.bases, unit, b.free[0]);
      SlotsAreAddresses(b, unit, b.free[0]);
    }
  }

  lemma GrowKeepsMemory(m: Memory, m': Memory, nodes: map<int, ChunkNode>, banks: seq<Bank>, books: seq<Books>,
                        ids: seq<seq<int>>, i: nat, got: Obtained)
    requires BanksOk(m, nodes, banks, books, ids) && LINK <= i < MAX_SIZE && banks[i].available == 0
    requires Fresh(m, nodes, got, i) && Formatted(m, m', got.base, i)
    ensures books[i].free == []
    ensures ChunksApart(books[i].bases + [got.base], i)
    ensures MemoryOk(m', banks[i := WithChunk(banks[i], got)], books[i := Grown(books[i], got.base, i)])
  {
    NoneFree(m, books[i], i);
    NewChunkApart(m, books, nodes, banks, ids, i, got);
    GrowKeeps(m, m', books[i], i, got.base);
    forall j | 0 <= j < MAX_SIZE && j != i
      ensures BankOk(m', books[j], j, banks[j].available)
    {
      BankUnchanged(m, m', books[j], j, banks[j].available, got.base, NODES_PER_CHUNK * i);
    }
  }

  lemma NewChunkApart(m: Memory, books: seq<Books>, nodes: map<int, ChunkNode>, banks: seq<Bank>, ids: seq<seq<int>>,
                      i: nat, got: Obtained)
    requires BanksOk(m, nodes, banks, books, ids) && LINK <= i < MAX_SIZE && Fresh(m, nodes, got, i)
    ensures forall j, c :: 0 <= j < MAX_SIZE && 0 <= c < |books[j].bases| ==>
      Apart(books[j].bases[c], NODES_PER_CHUNK * j, got.base, NODES_PER_CHUNK * i)
    ensures ChunksApart(books[i].bases + [got.base], i)
  {
    forall j, c | 0 <= j < MAX_SIZE && 0 <= c < |books[j].bases|
      ensures Apart(books[j].bases[c], NODES_PER_CHUNK * j, got.base, NODES_PER_CHUNK * i)
    {
      UnmappedApart(m, books[j].bases[c], NODES_PER_CHUNK * j, got.base, NODES_PER_CHUNK * i);
    }
    var bases := books[i].bases + [got.base];
    forall c, d | 0 <= c < d < |bases|
      ensures Apart(bases[c], NODES_PER_CHUNK * i, bases[d], NODES_PER_CHUNK * i)
    {
      assert bases[c] == books[i].bases[c];
    }
  }

  lemma GrowKeepsLists(m: Memory, m': Memory, nodes: map<int, ChunkNode>, banks: seq<Bank>, books: seq<Books>,
                       ids: seq<seq<int>>, i: nat, got: Obtained)
    requires BanksOk(m, nodes, banks, books, ids) && LINK <= i < MAX_SIZE
    requires Fresh(m, nodes, got, i) && Formatted(m, m', got.base, i) && m.Keys <= m'.Keys
    ensures ListsOk(m', Linked(nodes, banks[i], got), banks[i := WithChunk(banks[i], got)],
                    books[i := Grown(books[i], got.base, i)], ids[i := ids[i] + [got.node]])
  {
    NewChunkApart(m, books, nodes, banks, ids, i, got);
    var nodes', banks', books', ids' := Linked(nodes, banks[i], got), banks[i := WithChunk(banks[i], got)],
      books[i := Grown(books[i], got.base, i)], ids[i := ids[i] + [got.node]];
    forall j | 0 <= j < MAX_SIZE
      ensures ListOk(nodes', banks'[j], ids'[j], books'[j].bases)
      ensures ChunksMapped(m', books'[j].bases, j)
    {
      if j == i {
        OwnListGrows(nodes, banks[i], ids[i], books[i].bases, got);
      } else {
        OtherListSame(nodes, banks, books, ids, i, j, got);
      }
    }
    GrowApart(books, i, got);
    forall j, x | 0 <= j < MAX_SIZE && x in ids[j]
      ensures x in nodes
    {
      var c :| 0 <= c < |ids[j]| && ids[j][c] == x;
      assert NodeOk(nodes, ids[j], books[j].bases, c);
    }
    IdsGrowApart(nodes, ids, i, got);
  }

  lemma GrowApart(books: seq<Books>, i: nat, got: Obtained)
    requires BanksApart(books) && |books| == MAX_SIZE && i < MAX_SIZE
    requires forall j, c :: 0 <= j < MAX_SIZE && 0 <= c < |books[j].bases| ==>
      Apart(books[j].bases[c], NODES_PER_CHUNK * j, got.base, NODES_PER_CHUNK * i)
    ensures BanksApart(books[i := Grown(books[i], got.base, i)])
  {
    var books' := books[i := Grown(books[i], got.base, i)];
    forall j, k, c, d | 0 <= j < k < |books'| && 0 <= c < |books'[j].bases| && 0 <= d < |books'[k].bases|
      ensures Apart(books'[j].bases[c], NODES_PER_CHUNK * j, books'[k].bases[d], NODES_PER_CHUNK * k)
    {
      if c < |books[j].bases| && d < |books[k].bases| {
        assert books'[j].bases[c] == books[j].bases[c] && books'[k].bases[d] == books[k].bases[d];
      } else if c < |books[j].bases| {
        assert books'[j].bases[c] == books[j].bases[c];
      } else {
        assert books'[k].bases[d] == books[k].bases[d];
      }
    }
  }

  lemma IdsGrowApart(nodes: map<int, ChunkNode>, ids: seq<seq<int>>, i: nat, got: Obtained)
    requires IdsApart(ids) && |ids| == MAX_SIZE && i < MAX_SIZE && got.node !in nodes
    requires forall j, x :: 0 <= j < MAX_SIZE && x in ids[j] ==> x in nodes
    ensures IdsApart(ids[i := ids[i] + [got.node]])
  {
    var ids' := ids[i := ids[i] + [got.node]];
    forall j, k, x | 0 <= j < k < MAX_SIZE && x in ids'[j]
      ensures x !in ids'[k]
    {
      assert x in ids[j] || (j == i && x == got.node);
      var others := ids[k];
      assert x in ids'[k] <==> x in others || (k == i && x == got.node);
    }
  }

  lemma OwnListGrows(nodes: map<int, ChunkNode>, bank: Bank, ids: seq<int>, bases: seq<int>, got: Obtained)
    requires ListOk(nodes, bank, ids, bases) && got.node != 0 && got.node !in nodes
    ensures ListOk(Linked(nodes, bank, got), WithChunk(bank, got), ids + [got.node], bases + [got.base])
  {
    var nodes', ids', bases' := Linked(nodes, bank, got), ids + [got.node], bases + [got.base];
    assert NodeOk(nodes, ids, bases, |ids| - 1) && NodeOk(nodes, ids, bases, 0);
    forall c
      ensures NodeOk(nodes', ids', bases', c)
    {
      assert NodeOk(nodes, ids, bases, c);
      if 0 <= c < |ids| {
        assert ids'[c] == ids[c] && bases'[c] == bases[c];
        assert ids[c] == bank.tail <==> c == |ids| - 1;
      }
    }
    forall c, d | 0 <= c < d < |ids'|
      ensures ids'[c] != ids'[d]
    {
      assert NodeOk(nodes, ids, bases, c);
    }
  }

  lemma OtherListSame(nodes: map<int, ChunkNode>, banks: seq<Bank>, books: seq<Books>, ids: seq<seq<int>>, i: nat,
                      j: nat, got: Obtained)
    requires |banks| == |books| == |ids| == MAX_SIZE && i < MAX_SIZE && j < MAX_SIZE && i != j && got.node !in nodes
    requires ListOk(nodes, banks[i], ids[i], books[i].bases) && ListOk(nodes, banks[j], ids[j], books[j].bases)
    requires IdsApart(ids)
    ensures ListOk(Linked(nodes, banks[i], got), banks[j], ids[j], books[j].bases)
  {
    var nodes' := Linked(nodes, banks[i], got);
    assert ids[i] != [] ==> banks[i].tail in ids[i];
    forall c
      ensures NodeOk(nodes', ids[j], books[j].bases, c)
    {
      assert NodeOk(nodes, ids[j], books[j].bases, c);
      if 0 <= c < |ids[j]| {
        assert ids[j][c] in ids[j];
      }
    }
  }

  ghost predicate OtherBanks(banks: seq<Bank>, banks': seq<Bank>, i: nat) {
    |banks| == |banks'| == MAX_SIZE && forall j :: 0 <= j < MAX_SIZE && j != i ==> banks'[j] == banks[j]
  }

  /** What `mem_alloc` does: serve from a bank, index past the banks, or pass the
      request on to the system. */
  datatype Served = FromBank(block: int) | PastBanks | FromSystem

  class Pool {
    var mem: Memory
    var nodes: map<int, ChunkNode>
    var banks: seq<Bank>
    ghost var books: seq<Books>
    ghost var ids: seq<seq<int>>

    ghost predicate Valid()
      reads this
    {
      BanksOk(mem, nodes, banks, books, ids) && forall i :: 0 <= i < MAX_SIZE ==> Counts(books[i])
    }

    /** `mem_pool_init` */
    constructor ()
      ensures Valid() && mem == map[] && nodes == map[]
      ensures forall i :: 0 <= i < MAX_SIZE ==> books[i] == UNUSED && banks[i] == Bank(0, 0, 0)
    {
      mem, nodes := map[], map[];
      banks := seq(MAX_SIZE, _ => Bank(0, 0, 0));
      books := seq(MAX_SIZE, _ => UNUSED);
      ids := seq(MAX_SIZE, _ => []);
    }

    /** `mem_list_format`: clear the chunk, then link each slot to the next. */
    method ListFormat(head: int, size: nat)
      requires LINK <= size && 0 < head && head + NODES_PER_CHUNK * size <= ADDRESSES
      requires Mapped(mem, head, NODES_PER_CHUNK * size)
      modifies this`mem
      ensures mem.Keys == old(mem).Keys && Formatted(old(mem), mem, head, size)
    {
      OffsetTen(size);
      mem := map a | a in mem :: if head <= a < head + NODES_PER_CHUNK * size then 0 else mem[a];
      assert Formatting(old(mem), mem, head, size, 1);
      var node, i := head, 1;
      while i < NODES_PER_CHUNK
        invariant 1 <= i <= NODES_PER_CHUNK && node == head + Offset(size, i - 1)
        invariant Formatting(old(mem), mem, head, size, i)
      {
        OffsetGrows(size, i, NODES_PER_CHUNK);
        assert node + size == head + Offset(size, i);
        FormatOne(old(mem), mem, head, size, i, node, node + size);
        mem := Store(mem, node, node + size);
        node := node + size;
        i := i + 1;
      }
      FormattingEnds(old(mem), mem, head, size);
    }

    /** `mem_add_bank` with `mem_bank_init`: one more chunk for a bank that has no
        free slot. */
    method AddBank(index: nat, got: Obtained)
      requires BanksOk(mem, nodes, banks, books, ids) && LINK <= index < MAX_SIZE && banks[index].available == 0
      requires Fresh(mem, nodes, got, index)
      modifies this
      ensures BanksOk(mem, nodes, banks, books, ids)
      ensures books == old(books)[index := Grown(old(books)[index], got.base, index)]
      ensures old(books)[index].free == []
      ensures Kept(old(mem), mem)
      ensures OtherBanks(old(banks), banks, index)
    {
      ghost var m := mem;
      mem := mem + BytesAt(got.base, got.contents);
      nodes := Linked(nodes, banks[index], got);
      banks := banks[index := WithChunk(banks[index], got)];
      ListFormat(got.base, index);
      FormattedFresh(m, mem, got, index);
      GrowKeepsMemory(m, mem, old(nodes), old(banks), books, ids, index, got);
      GrowKeepsLists(m, mem, old(nodes), old(banks), books, ids, index, got);
      books := books[index := Grown(books[index], got.base, index)];
      ids := ids[index := ids[index] + [got.node]];
    }

    /** The end of `mem_alloc`: unhook the first free slot and write its header. */
    method TakeFirst(index: nat, size: nat) returns (block: int)
      requires BanksOk(mem, nodes, banks, books, ids) && index == BankIndex(size) < MAX_SIZE && books[index].free != []
      requires Counts(Taken(books[index])) && forall i :: 0 <= i < MAX_SIZE && i != index ==> Counts(books[i])
      modifies this
      ensures books == old(books)[index := Taken(old(books)[index])]
      ensures block - 1 == old(books)[index].free[0]
      ensures mem == old(mem)[block - 1 := Header(size)] && LiveKept(old(mem), mem, old(books))
      ensures OtherBanks(old(banks), banks, index)
      ensures Valid() <==> 3 <= size <= 126
    {
      TakeServes(mem, nodes, banks, books, ids, index, size);
      var head := banks[index].available;
      banks := banks[index := banks[index].(available := Load(mem, head))];
      mem := mem[head := Header(size)];
      block := head + 1;
      books := books[index := Taken(books[index])];
    }

    /** Both: serve a request from the bank at `index`. */
    method Serve(index: nat, size: nat, got: Obtained) returns (block: int)
      requires Valid() && index == BankIndex(size) < MAX_SIZE
      requires banks[index].available == 0 ==> Fresh(mem, nodes, got, index)
      modifies this
      ensures var ready := Ready(old(books)[index], got.base, index);
        books == old(books)[index := Taken(ready)] && block - 1 == ready.free[0]
      ensures block - 1 !in old(books)[index].live && block - 1 in books[index].live
      ensures block - 1 in mem && mem[block - 1] == Header(size)
      ensures LiveKept(old(mem), mem, old(books))
      ensures OtherBanks(old(banks), banks, index)
      ensures Valid() <==> 3 <= size
    {
      Provide(index, got);
      ReadyUnused(mem, books[index], index, banks[index].available);
      ghost var m, ready := mem, books[index];
      block := TakeFirst(index, size);
      LiveKeptTwice(old(mem), m, mem, old(books), index, ready);
    }

    /** `mem_alloc`; `got` is what the system returns if a bank has to grow. */
    method Alloc(size: nat, got: Obtained) returns (served: Served)
      requires Valid()
      requires BankIndex(size) < MAX_SIZE && banks[BankIndex(size)].available == 0 ==>
        Fresh(mem, nodes, got, BankIndex(size))
      modifies this
      ensures (served == FromSystem <==> size >= 128) && (served == PastBanks <==> size == 127)
      ensures !served.FromBank? ==>
        Valid() && books == old(books) && mem == old(mem) && nodes == old(nodes) && banks == old(banks)
      ensures served.FromBank? ==>
        var i := BankIndex(size);
        var ready := Ready(old(books)[i], got.base, i);
        && books == old(books)[i := Taken(ready)] && served.block - 1 == ready.free[0]
        && served.block - 1 !in old(books)[i].live && served.block - 1 in books[i].live
        && served.block - 1 in mem && mem[served.block - 1] == Header(size)
      ensures served.FromBank? ==>
        Serves(old(books)[BankIndex(size)], books[BankIndex(size)], got.base, served.block - 1)
      ensures served.FromBank? ==>
        served.block - 1 in books[if size < 3 then 4 else size + 1].live && mem[served.block - 1] == size + 1
      ensures LiveKept(old(mem), mem, old(books))
      ensures served.FromBank? ==> OtherBanks(old(banks), banks, BankIndex(size)) && (Valid() <==> 3 <= size)
    {
      var size' := size + 1;
      if size' > MAX_SIZE {
        return FromSystem;
      }
      var index := if size' > 4 then size' else 4;
      if index == MAX_SIZE {
        return PastBanks;
      }
      var block := Serve(index, size, got);
      TakenServes(old(books)[index], got.base, index);
      served := FromBank(block);
    }

    /** The middle of `mem_alloc`: a bank without free slots grows. */
    method Provide(index: nat, got: Obtained)
      requires Valid() && LINK <= index < MAX_SIZE
      requires banks[index].available == 0 ==> Fresh(mem, nodes, got, index)
      modifies this
      ensures BanksOk(mem, nodes, banks, books, ids)
      ensures books == old(books)[index := Ready(old(books)[index], got.base, index)]
      ensures Counts(Taken(books[index])) && forall i :: 0 <= i < MAX_SIZE && i != index ==> Counts(books[i])
      ensures Kept(old(mem), mem)
      ensures OtherBanks(old(banks), banks, index)
    {
      AvailableIffFree(mem, books[index], index, banks[index].available);
      ReadyCounts(books[index], got.base, index);
      if banks[index].available == 0 {
        AddBank(index, got);
      }
    }

    /** `mem_free`, whatever the byte in front of the block says. */
    method Release(block: int)
      requires |banks| == MAX_SIZE && block - 1 in mem && mem[block - 1] < MAX_SIZE
      requires 0 <= banks[mem[block - 1]].available
      modifies this`mem, this`banks
      ensures var node := block - 1;
        var index := old(mem)[node];
        && mem == Store(old(mem), node, old(banks)[index].available)
        && banks == old(banks)[index := old(banks)[index].(available := node)]
    {
      var node := block - 1;
      var index: nat := mem[node];
      mem := Store(mem, node, banks[index].available);
      banks := banks[index := banks[index].(available := node)];
    }

    /** `mem_free` for a block in use: it goes back to the bank it came from. */
    method Free(block: int, ghost i: nat)
      requires Valid() && i < MAX_SIZE && block - 1 in books[i].live
      modifies this
      ensures Valid() && books == old(books)[i := Given(old(books)[i], block - 1)]
      ensures books[i].live == old(books)[i].live - {block - 1} && books[i].free == [block - 1] + old(books)[i].free
      ensures LiveKept(old(mem), mem, books)
    {
      GiveKeepsBanks(mem, nodes, banks, books, ids, i, block - 1);
      GiveChanges(mem, books[i], i, banks[i].available, block - 1);
      ChangeKeepsLive(mem, Store(mem, block - 1, banks[i].available), nodes, banks, books, ids, i, block - 1);
      Release(block);
      books := books[i := Given(books[i], block - 1)];
    }

    /** The client of a block of `size` bytes writes one of them. */
    method ClientWrite(block: int, size: nat, offset: nat, value: Byte)
      requires Valid() && 3 <= size <= 126 && block - 1 in books[size + 1].live && offset < size
      modifies this`mem
      ensures Valid() && mem == old(mem)[block + offset := value]
    {
      ClientWriteKeepsBanks(mem, nodes, banks, books, ids, size + 1, block - 1, block + offset, value);
      mem := mem[block + offset := value];
    }

    /** All of them, front to back. */
    method ClientFill(block: int, size: nat, content: seq<Byte>)
      requires Valid() && 3 <= size <= 126 && block - 1 in books[size + 1].live && |content| == size
      modifies this`mem
      ensures Valid()
      ensures forall j :: 0 <= j < size ==> block + j in mem && mem[block + j] == content[j]
    {
      for offset := 0 to size
        invariant Valid()
        invariant forall j :: 0 <= j < offset ==> block + j in mem && mem[block + j] == content[j]
      {
        ClientWrite(block, size, offset, content[offset]);
      }
    }

    /** `mem_pool_destroy`: walk each chunk list backwards and release node after
        node. Releasing takes a node away, so none is released twice. */
    method Destroy() returns (freed: seq<int>)
      requires Valid()
      modifies this
      ensures Valid() && forall i :: 0 <= i < MAX_SIZE ==> books[i] == UNUSED
      ensures freed == Backwards(old(books), MAX_SIZE)
      ensures forall i, x :: 0 <= i < MAX_SIZE && x in old(ids)[i] ==> x !in nodes
    {
      freed := [];
      var i := 0;
      while i < MAX_SIZE
        invariant 0 <= i <= MAX_SIZE && books == old(books) && ids == old(ids) && |banks| == MAX_SIZE
        invariant forall j :: 0 <= j < i ==> banks[j] == Bank(0, 0, 0)
        invariant forall j :: i <= j < MAX_SIZE ==> banks[j] == old(banks)[j]
        invariant forall j :: i <= j < MAX_SIZE ==> ListOk(nodes, banks[j], ids[j], books[j].bases)
        invariant forall j, x :: 0 <= j < i && x in ids[j] ==> x !in nodes
        invariant freed == Backwards(books, i)
      {
        var part := ReleaseBank(i, old(mem));
        freed := freed + part;
        i := i + 1;
      }
      books := seq(MAX_SIZE, _ => UNUSED);
      ids := seq(MAX_SIZE, _ => []);
      EmptyInOrder(mem, nodes, banks, books, ids);
    }

    method ReleaseBank(i: nat, ghost m: Memory) returns (freed: seq<int>)
      requires |banks| == |books| == |ids| == MAX_SIZE && i < MAX_SIZE && IdsApart(ids)
      requires forall j :: i <= j < MAX_SIZE ==> ListOk(nodes, banks[j], ids[j], books[j].bases)
      requires BankOk(m, books[i], i, banks[i].available)
      modifies this`mem, this`nodes, this`banks
      ensures freed == Reversed(books[i].bases)
      ensures nodes == old(nodes) - (set x | x in ids[i]) && banks == old(banks)[i := Bank(0, 0, 0)]
      ensures forall j :: i < j < MAX_SIZE ==> ListOk(nodes, banks[j], ids[j], books[j].bases)
    {
      freed := [];
      if banks[i].list != 0 {
        freed := ReleaseChunks(i);
        banks := banks[i := Bank(0, 0, 0)];
      } else {
        UnusedBank(m, nodes, banks[i], books[i], ids[i], i);
      }
    }

    method ReleaseChunks(i: nat) returns (freed: seq<int>)
      requires |banks| == |books| == |ids| == MAX_SIZE && i < MAX_SIZE && IdsApart(ids)
      requires forall j :: i <= j < MAX_SIZE ==> ListOk(nodes, banks[j], ids[j], books[j].bases)
      modifies this`mem, this`nodes
      ensures freed == Reversed(books[i].bases)
      ensures nodes == old(nodes) - (set x | x in ids[i])
      ensures forall j :: i < j < MAX_SIZE ==> ListOk(nodes, banks[j], ids[j], books[j].bases)
    {
      freed := [];
      var current := banks[i].tail;
      ghost var s, c := ids[i], |ids[i]|;
      while current != 0
        invariant 0 <= c <= |s| && current == LinkAt(s, c - 1)
        invariant nodes == old(nodes) - (set x | x in s[c..])
        invariant freed == Reversed(books[i].bases[c..])
        decreases c
      {
        assert NodeOk(old(nodes), s, books[i].bases, c - 1);
        assert s[c - 1] !in s[c..];
        assert s[c - 1..] == [s[c - 1]] + s[c..];
        assert books[i].bases[c - 1..] == [books[i].bases[c - 1]] + books[i].bases[c..];
        var node := current;
        current := nodes[node].previous;
        var base := nodes[node].chunk;
        mem := map a | a in mem && !(base <= a < base + NODES_PER_CHUNK * i) :: mem[a];
        freed := freed + [base];
        nodes := nodes - {node};
        c := c - 1;
      }
      assert c > 0 ==> NodeOk(old(nodes), s, books[i].bases, c - 1);
      assert s[0..] == s && books[i].bases[0..] == books[i].bases;
      OthersLinked(old(nodes), nodes, banks, books, ids, i);
    }
  }

  /** On a new pool a request of 2 bytes, released, heads the free list of bank 3,
      which is out of order from then on. */
  method ShortRequest(got: Obtained) returns (pool: Pool, block: int)
    requires Fresh(map[], map[], got, BankIndex(2))
    ensures fresh(pool) && |pool.banks| == MAX_SIZE && pool.banks[3].available == block - 1
    ensures OutOfOrder(3, block - 1) && !pool.Valid()
  {
    pool, block := ServeShort(got);
    pool.Release(block);
    SmallBanksAreEmpty(3, block - 1);
    StrayInvalid(pool.mem, pool.nodes, pool.banks, pool.books, pool.ids, 3);
  }

  method ServeShort(got: Obtained) returns (pool: Pool, block: int)
    requires Fresh(map[], map[], got, BankIndex(2))
    ensures fresh(pool) && |pool.banks| == MAX_SIZE && pool.banks[3].available == 0
    ensures block - 1 == got.base && block - 1 in pool.mem && pool.mem[block - 1] == 3
  {
    pool := new Pool();
    FirstSlot(got.base, 4);
    var index := BankIndex(2);
    assert index == 4 && pool.books[4] == UNUSED && pool.banks[3].available == pool.banks[4].available == 0;
    block := pool.Serve(index, 2, got);
  }

  lemma FirstSlot(base: int, unit: nat)
    ensures Ready(UNUSED, base, unit).free[0] == base
  {
  }

  lemma StrayInvalid(m: Memory, nodes: map<int, ChunkNode>, banks: seq<Bank>, books: seq<Books>, ids: seq<seq<int>>,
                     i: nat)
    requires i < |banks| == MAX_SIZE && OutOfOrder(i, banks[i].available)
    ensures !BanksOk(m, nodes, banks, books, ids)
  {
    if |books| == MAX_SIZE {
      assert !BankOk(m, books[i], i, banks[i].available);
    }
  }

  /** A block is as big as was asked for: all its bytes can be written, front to back,
      and the pool stays in order. */
  method FillBlock(pool: Pool, size: nat, got: Obtained, content: seq<Byte>) returns (block: int)
    requires pool.Valid() && 3 <= size <= 126 && |content| == size
    requires pool.banks[BankIndex(size)].available == 0 ==> Fresh(pool.mem, pool.nodes, got, BankIndex(size))
    modifies pool
    ensures pool.Valid() && block - 1 in pool.books[size + 1].live
    ensures forall j :: 0 <= j < size ==> block + j in pool.mem && pool.mem[block + j] == content[j]
  {
    var served := pool.Alloc(size, got);
    block := served.block;
    pool.ClientFill(block, size, content);
  }

  /** What is released is used again: the next request of that size gets the same block,
      whatever the system would return. */
  method Reuse(pool: Pool, block: int, size: nat, got: Obtained) returns (again: int)
    requires pool.Valid() && 3 <= size <= 126 && block - 1 in pool.books[size + 1].live
    modifies pool
    ensures pool.Valid() && again == block && pool.books[size + 1] == old(pool.books)[size + 1]
  {
    pool.Free(block, size + 1);
    AvailableIffFree(pool.mem, pool.books[size + 1], size + 1, pool.banks[size + 1].available);
    var served := pool.Alloc(size, got);
    again := served.block;
  }

  /** A request of 127 bytes has no bank. */
  method RequestPastBanks(got: Obtained) returns (served: Served)
    ensures served == PastBanks
  {
    var pool := new Pool();
    served := pool.Alloc(127, got);
  }

  ghost function Reversed(s: seq<int>): seq<int> {
    if s == [] then [] else Reversed(s[1..]) + [s[0]]
  }

  /** The chunks of the first `n` banks, each bank's last chunk first. */
  ghost function Backwards(books: seq<Books>, n: nat): seq<int>
    requires n <= |books|
  {
    if n == 0 then [] else Backwards(books, n - 1) + Reversed(books[n - 1].bases)
  }

  lemma {:induction false} ReversedMembers(s: seq<int>)
    ensures |Reversed(s)| == |s| && forall x :: x in Reversed(s) <==> x in s
    ensures (forall c, d :: 0 <= c < d < |s| ==> s[c] != s[d]) ==>
      forall c, d :: 0 <= c < d < |s| ==> Reversed(s)[c] != Reversed(s)[d]
  {
    if s != [] {
      ReversedMembers(s[1..]);
      assert s == [s[0]] + s[1..];
      assert (forall c, d :: 0 <= c < d < |s| ==> s[c] != s[d]) ==> s[0] !in s[1..];
    }
  }

  /** No chunk is released twice, and every chunk is released. */
  lemma {:induction false} ReleasedOnce(m: Memory, nodes: map<int, ChunkNode>, banks: seq<Bank>, books: seq<Books>,
                                        ids: seq<seq<int>>, n: nat)
    requires BanksOk(m, nodes, banks, books, ids) && n <= MAX_SIZE
    ensures forall x :: x in Backwards(books, n) <==> exists i :: 0 <= i < n && x in books[i].bases
    ensures forall p, q :: 0 <= p < q < |Backwards(books, n)| ==> Backwards(books, n)[p] != Backwards(books, n)[q]
  {
    if n > 0 {
      ReleasedOnce(m, nodes, banks, books, ids, n - 1);
      var last := books[n - 1].bases;
      assert BankOk(m, books[n - 1], n - 1, banks[n - 1].available);
      forall c, d | 0 <= c < d < |last|
        ensures last[c] != last[d]
      {
        assert Apart(last[c], NODES_PER_CHUNK * (n - 1), last[d], NODES_PER_CHUNK * (n - 1));
      }
      ReversedMembers(last);
      forall i, c, d | 0 <= i < n - 1 && 0 <= c < |books[i].bases| && 0 <= d < |last|
        ensures books[i].bases[c] != last[d]
      {
        BasesDiffer(m, nodes, banks, books, ids, i, n - 1, c, d);
      }
      DistinctTogether(Backwards(books, n - 1), Reversed(last));
    }
  }

  lemma BasesDiffer(m: Memory, nodes: map<int, ChunkNode>, banks: seq<Bank>, books: seq<Books>, ids: seq<seq<int>>,
                    i: nat, j: nat, c: nat, d: nat)
    requires BanksOk(m, nodes, banks, books, ids) && i < j < MAX_SIZE && c < |books[i].bases| && d < |books[j].bases|
    ensures books[i].bases[c] != books[j].bases[d]
  {
    assert BankOk(m, books[i], i, banks[i].available) && BankOk(m, books[j], j, banks[j].available);
    assert Apart(books[i].bases[c], NODES_PER_CHUNK * i, books[j].bases[d], NODES_PER_CHUNK * j);
  }

  lemma DistinctTogether(s: seq<int>, t: seq<int>)
    requires forall p, q :: 0 <= p < q < |s| ==> s[p] != s[q]
    requires forall p, q :: 0 <= p < q < |t| ==> t[p] != t[q]
    requires forall x :: x in t ==> x !in s
    ensures forall p, q :: 0 <= p < q < |s + t| ==> (s + t)[p] != (s + t)[q]
  {
    forall p, q | 0 <= p < q < |s + t|
      ensures (s + t)[p] != (s + t)[q]
    {
      assert q >= |s| ==> t[q - |s|] in t;
      assert p < |s| ==> s[p] in s;
    }
  }

  /** A bank without a chunk list was never used. */
  lemma UnusedBank(m: Memory, nodes: map<int, ChunkNode>, bank: Bank, b: Books, ids: seq<int>, unit: nat)
    requires ListOk(nodes, bank, ids, b.bases) && bank.list == 0 && BankOk(m, b, unit, bank.available)
    ensures ids == [] && b.bases == [] && bank == Bank(0, 0, 0)
  {
    assert NodeOk(nodes, ids, b.bases, 0);
    assert |b.free| + |b.live| == NODES_PER_CHUNK * |b.bases|;
  }

  lemma EmptyInOrder(m: Memory, nodes: map<int, ChunkNode>, banks: seq<Bank>, books: seq<Books>, ids: seq<seq<int>>)
    requires |banks| == |books| == |ids| == MAX_SIZE
    requires forall i :: 0 <= i < MAX_SIZE ==> banks[i] == Bank(0, 0, 0) && books[i] == UNUSED && ids[i] == []
    ensures BanksOk(m, nodes, banks, books, ids) && forall i :: 0 <= i < MAX_SIZE ==> Counts(books[i])
  {
    assert ListsOk(m, nodes, banks, books, ids);
    assert MemoryOk(m, banks, books);
  }

  lemma OthersLinked(nodes: map<int, ChunkNode>, nodes': map<int, ChunkNode>, banks: seq<Bank>, books: seq<Books>,
                     ids: seq<seq<int>>, i: nat)
    requires |banks| == |books| == |ids| == MAX_SIZE && i < MAX_SIZE && IdsApart(ids)
    requires forall j :: i <= j < MAX_SIZE ==> ListOk(nodes, banks[j], ids[j], books[j].bases)
    requires nodes' == nodes - (set x | x in ids[i])
    ensures forall j :: i < j < MAX_SIZE ==> ListOk(nodes', banks[j], ids[j], books[j].bases)
  {
    forall j | i < j < MAX_SIZE
      ensures ListOk(nodes', banks[j], ids[j], books[j].bases)
    {
      forall c
        ensures NodeOk(nodes', ids[j], books[j].bases, c)
      {
        assert NodeOk(nodes, ids[j], books[j].bases, c);
        if 0 <= c < |ids[j]| {
          assert ids[j][c] in ids[j];
          assert ids[j][c] !in ids[i];
        }
      }
    }
  }

  lemma AvailableIffFree(m: Memory, b: Books, unit: nat, available: int)
    requires BankOk(m, b, unit, available)
    ensures available == 0 <==> b.free == []
  {
    if available == 0 {
      NoneFree(m, b, unit);
    }
  }

  lemma GiveChanges(m: Memory, b: Books, unit: nat, available: int, s: int)
    requires BankOk(m, b, unit, available) && s in b.live && 0 <= available
    ensures ChangedInside(m, Store(m, s, available), s, unit)
  {
    assert IsSlot(b.bases, unit, s);
  }

  /** Growing and then taking keep the blocks that were in use before both. */
  lemma LiveKeptTwice(m: Memory, m1: Memory, m2: Memory, books: seq<Books>, i: nat, ready: Books)
    requires i < |books| && ready.free != [] && ready.live == books[i].live
    requires Kept(m, m1) && LiveKept(m1, m2, books[i := ready])
    ensures LiveKept(m, m2, books)
    ensures books[i := ready][i := Taken(ready)] == books[i := Taken(ready)]
  {
    forall j, t | 0 <= j < MAX_SIZE && t in books[j].live
      ensures Agree(m, m2, t, j)
    {
      assert t in books[i := ready][j].live;
      assert Agree(m1, m2, t, j);
    }
  }

  lemma ReadyUnused(m: Memory, b: Books, unit: nat, available: int)
    requires BankOk(m, b, unit, available) && b.free != []
    ensures b.free[0] !in b.live && b.free[0] in Taken(b).live
  {
    assert b.free[0] in b.free;
  }

  function BytesAt(base: int, contents: seq<Byte>): (m: Memory)
    ensures forall a :: a in m <==> base <= a < base + |contents|
  {
    if contents == [] then map[]
    else
      var n := |contents| - 1;
      BytesAt(base, contents[..n])[base + n := contents[n]]
  }

  /** Formatting fresh bytes is a change of the memory before they were obtained. */
  lemma FormattedFresh(m: Memory, m': Memory, got: Obtained, unit: nat)
    requires |got.contents| == NODES_PER_CHUNK * unit
    requires var n := m + BytesAt(got.base, got.contents);
      m'.Keys == n.Keys && Formatted(n, m', got.base, unit)
    ensures Formatted(m, m', got.base, unit) && m.Keys <= m'.Keys
  {
  }

  /** The chunk is cleared and its first `i - 1` slots are linked. */
  ghost predicate Formatting(m: Memory, m': Memory, head: int, size: nat, i: nat)
    requires 1 <= i
  {
    && m'.Keys == m.Keys
    && (forall a :: a in m && !(head <= a < head + NODES_PER_CHUNK * size) ==> m'[a] == m[a])
    && (forall a :: a in m && head + Offset(size, i - 1) <= a < head + NODES_PER_CHUNK * size ==> m'[a] == 0)
    && (forall k :: 0 <= k < i - 1 ==> SlotLinked(m', head, size, k))
  }

  lemma FormattingEnds(m: Memory, m': Memory, head: int, size: nat)
    requires LINK <= size && Mapped(m, head, NODES_PER_CHUNK * size) && Formatting(m, m', head, size, NODES_PER_CHUNK)
    ensures Formatted(m, m', head, size)
  {
    OffsetTen(size);
    LinkZero(m', head + Offset(size, NODES_PER_CHUNK - 1));
  }

  lemma FormatOne(m: Memory, m': Memory, head: int, size: nat, i: nat, node: int, next: nat)
    requires LINK <= size && 0 < head && head + NODES_PER_CHUNK * size <= ADDRESSES && 1 <= i < NODES_PER_CHUNK
    requires Mapped(m, head, NODES_PER_CHUNK * size) && Formatting(m, m', head, size, i)
    requires node == head + Offset(size, i - 1) && next == head + Offset(size, i)
    ensures Formatting(m, Store(m', node, next), head, size, i + 1)
  {
    OffsetTen(size);
    OffsetGrows(size, i, NODES_PER_CHUNK);
    LinkSlot(m', Store(m', node, next), head, size, i, next);
  }

  /** One step of the formatting links one more slot and spoils no link before. */
  lemma LinkSlot(m: Memory, m': Memory, head: int, size: nat, i: nat, next: int)
    requires LINK <= size && 1 <= i < NODES_PER_CHUNK && 0 <= next < ADDRESSES && next == head + Offset(size, i)
    requires forall k :: 0 <= k < i - 1 ==> SlotLinked(m, head, size, k)
    requires m' == Store(m, head + Offset(size, i - 1), next)
    ensures forall k :: 0 <= k < i ==> SlotLinked(m', head, size, k)
  {
    LinkStored(m, head + Offset(size, i - 1), next);
    forall k | 0 <= k < i
      ensures SlotLinked(m', head, size, k)
    {
      if k < i - 1 {
        LinkSurvives(m, m', head, size, i, k);
      }
    }
  }

  lemma LinkSurvives(m: Memory, m': Memory, head: int, size: nat, i: nat, k: nat)
    requires LINK <= size && k + 1 < i < NODES_PER_CHUNK && SlotLinked(m, head, size, k)
    requires var t := head + Offset(size, i - 1);
      forall b :: b in m && (b < t || t + LINK <= b) ==> b in m' && m'[b] == m[b]
    ensures SlotLinked(m', head, size, k)
  {
    OffsetGrows(size, k, i - 1);
    LinkAgrees(m, m', head + Offset(size, k), head + Offset(size, k + 1));
  }
}
