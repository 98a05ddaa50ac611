# Data structures and message exchange, verified

A Dafny model of the data-structure and concurrency kernels of the repository:
the search trees, the pool allocator, the hash table, the linked list, the message
boxes with their exchange thread, and the counting semaphore. What the C code does
in place is done in place here: nodes, arrays and headers are changed by methods, and
each method is proved equal to a function on values. What the code is for is then
proved about those functions, for all inputs and for all runs. The two protocols are
state machines whose steps are the accesses to shared state, in any interleaving.

## Reading order

| files | what they hold |
|---|---|
| `Payloads`, `Trees` | payloads and `compare`; trees as values and their listings, shared by all three kinds |
| `TreeNodes`, `TreePaths`, `TreeTraversal` | nodes and the tree value they spell, slots (pointers to pointers), walks |
| `AvlSpec`, `AvlTree`, `AvlRun` | the AVL tree as a value with its theorems; the same operations on linked nodes; whole runs |
| `BinarySearchTree`, `BinarySearchTreeFailures` | the plain tree: attach, lookup, removal by splicing; the trees on which removal fails |
| `RedBlackSpec`, `RedBlackTree` | red-black attach as a value; on linked, coloured nodes |
| `PoolMemory`, `PoolSpec`, `Pool`, `BankRun` | bytes and links; one bank; all banks over one memory; the life of a bank |
| `HashSpec`, `HashTable` | probing and tombstones on values; the array that is changed in place |
| `StableSort`, `LinkedList`, `ListRun` | what the sort computes; the list; runs against a simple machine |
| `MessageBox`, `MessageExchange` | one box with its counters; senders, readers, slot and exchange thread |
| `MessageProgress` | no message gets stuck: every one can still be delivered |
| `MessageReads`, `MessageNames` | what overlapping reads do to the counters; when a box holds exactly the mail for its user |
| `Semaphore` | threads, mutex, condition variable and a 32-bit value |

A tree value carries the node that holds each payload (`at`), so an equation between
tree values also says which nodes are linked, that none is shared and that there is
no cycle. Loops and recursion of the C code are loops and recursion here.

## What the code does not do

The model follows the code. These results say where it falls short of its purpose,
exactly when, and for which input:

* Attaching to an AVL tree that earlier removals left out of balance follows a null
  link exactly when the payload becomes the left child of a node whose right side is
  three or more high (`AvlSpec.PivotRotatesUnlessBesideTall`). Attaching 2, 1, 5, 0, 3,
  6, 4, 7 and removing 0 and 1 leads there (`AvlRun.AttachFollowsNull`); a balanced
  tree never does.
* One AVL removal from a balanced tree leaves it balanced unless a node loses a level
  on its lighter side while its heavier child is even; then one node stays off by
  exactly two (`AvlSpec.RemoveEffect`, `AvlSpec.RemovalKeepsBalanceIff`,
  `AvlSpec.StickingRemoval`).
* The plain tree's removal is right exactly when the victim has no right child or its
  right child has a left child (`BinarySearchTree.RemovesExactlyOneIff`). Otherwise a
  null pointer is followed (`BinarySearchTreeFailures.RootVictim`), nodes are lost
  (`BinarySearchTreeFailures.LeftVictim`), or a node becomes its own child
  (`BinarySearchTreeFailures.RightVictim`).
* Serving a request keeps the pool in order exactly for 3 to 126 bytes
  (`Pool.ServedInOrderIff`). A released block of 2 bytes ends up in bank 3
  (`Pool.ShortRequest`), and 127 bytes index past the banks (`Pool.RequestPastBanks`).
* A hash lookup or removal follows a null pointer exactly when the first 2001 probed
  buckets are all vacated or hold other keys (`HashSpec.NullDereferenceIff`), which a
  table with one entry can bring about (`HashSpec.LookupFollowsNull`). An insertion is
  refused exactly at a count of twenty or when the first 2000 are (`HashSpec.InsertRefines`).
  Buckets never become unused again: twenty insertions that are removed again can leave
  a table that stores nothing and takes nothing (`HashSpec.WornOutAfterTwenty`,
  `HashSpec.WornOutRefuses`).
* Showing the messages of a contact completes exactly when the contact exists and has
  at most four messages (`MessageBox.MsgBox.ReadContact`,
  `MessageBox.FiveMessagesUnreadable`): the loop test in `briefMsgContexts` goes on
  past the end of the list, and `getMsgInfo` tests the wrong pointer.
* A read that overlaps deliveries leaves the box's unread count too large by exactly
  the deliveries from that contact between its first two steps
  (`MessageBox.UnreadDrift`, `MessageBox.OneArrivalDrifts`); over whole runs, with any
  number of readers, the error is exactly these arrivals less what other readers
  cleared meanwhile (`MessageReads.DriftOverRuns`).
* A user is found under the own name exactly when no earlier user's name begins with
  it (`MessageExchange.FoundUnderOwnNameIff`, `MessageExchange.FoundUnderOtherName`),
  and under no other name exactly when also some earlier user's name begins with all
  of it but its last letter (`MessageNames.OnlyOwnNameIff`).
* The semaphore's value is initial value plus posts minus waits exactly when that
  number fits in 32 bits (`Semaphore.ValueIsCreditIff`, `Semaphore.PostWrapsAround`).

Readings of the source that the model fixes: a red-black node starts red (the `memset`
at `common/src/tree/tree.c:810` is sized for an AVL node and does not reach `color`);
`common/src/memman_pool/memman_pool.c:124` allocates a whole `mem_chunk_t`; a new hash
table has a count of zero; `g_systemEvent` starts undefined. The comment at
`common/src/memman_pool/memman_pool.c:153-155` promises four bytes for small requests,
and a request of two bytes does get four, but its header names bank 3.

## Model

| member | source | states |
|---|---|---|
| Payloads.Compare | common/src/tree/tree.c:126 | the callback is a total order on keys with results that fit in eight bits |
| Payloads.InsertUpperSorted | common/src/tree/tree.c:122-149 | adding a payload behind its equals keeps a listing sorted and adds exactly that payload |
| TreeNodes.NodeAttach | common/src/tree/tree.c:122-149 | in place, the linked nodes spell the old tree with the new leaf at its search position, none shared |
| TreeNodes.InsertRefs | common/src/tree/tree.c:122-149 | attaching adds exactly the new node, one to the size, and shares no node |
| TreeNodes.InsertListed | common/src/tree/tree.c:122-149 | the new payload comes behind its equals in the in-order listing and nothing else moves |
| Trees.OrderedIsSorted | common/src/tree/tree.c:275-292 | a tree is ordered at every node if and only if its in-order listing is sorted |
| Trees.StrictlyOrderedIsSorted | common/src/tree/tree.c:275-292 | keys increase at every node if and only if they do in the listing |
| Trees.FoundIsListed | common/src/tree/tree.c:352-388 | with distinct keys the search, on AVL and red-black trees alike, succeeds if and only if the key is listed, and finds that payload |
| TreePaths.SearchTree.constructor | common/src/tree/tree.c:61-86 | a new tree is empty, with no nodes counted |
| TreePaths.SearchTree.Redirect | common/src/tree/tree.c:186 | storing a subtree through a pointer to a link changes the tree at that place and nowhere else |
| TreeTraversal.TraverseInorder | common/src/tree/tree.c:275-292 | shows exactly the in-order listing that the other theorems speak of |
| TreeTraversal.TraversePreorder | common/src/tree/tree.c:294-312 | shows each payload before those of its left and then its right side |
| TreeTraversal.TraversePostorder | common/src/tree/tree.c:314-331 | shows each payload after those of its left and then its right side |
| TreeTraversal.WalksAgree | common/src/tree/tree.c:275-331 | the three walks show the same payloads, each as often as stored |
| TreeTraversal.WalkPlaces | common/src/tree/tree.c:294-331 | by index: the root is shown first, or last, and each side keeps together, the left one before the right one |
| TreeTraversal.PreOrdered | common/src/tree/tree.c:294-312 | of any two nodes, the one that the walk meets later is below the other or to its right |
| TreeTraversal.PostOrdered | common/src/tree/tree.c:314-331 | the one that the walk meets later is above the other or to its right |
| TreeTraversal.OneRelation | common/src/tree/tree.c:294-331 | below and to the right exclude each other in both directions, so the two orders above leave no choice |
| TreeTraversal.WalksShowNodes | common/src/tree/tree.c:294-331 | what is shown at each place is the payload of the node met there |
| TreeTraversal.DestroyAllNodes | common/src/tree/tree.c:439-458 | the order in which nodes are freed, and what the callback is given |
| TreeTraversal.FreedOnce | common/src/tree/tree.c:439-458 | every node of the tree is freed, once, and a root after all nodes below it |
| AvlSpec.RotateLLRearranges | common/src/tree/tree.c:624-633 | the rotation keeps the nodes, the listing and the absence of sharing |
| AvlSpec.RotateRRRearranges | common/src/tree/tree.c:635-643 | the same for the mirrored rotation |
| AvlSpec.RotateLRRearranges | common/src/tree/tree.c:645-649 | the same for the double rotation |
| AvlSpec.RotateRLRearranges | common/src/tree/tree.c:651-655 | the same for the mirrored double rotation |
| AvlSpec.RotateLLRestores | common/src/tree/tree.c:624-633 | at +2 over +1 the rotation balances the node and takes one off its height |
| AvlSpec.RotateRRRestores | common/src/tree/tree.c:635-643 | the same at -2 over -1 |
| AvlSpec.RotateLRRestores | common/src/tree/tree.c:645-649 | at +2 over -1 the needed grandchild exists, and the double rotation balances and lowers |
| AvlSpec.RotateRLRestores | common/src/tree/tree.c:651-655 | the same at -2 over +1 |
| AvlSpec.PivotRotatesUnlessBesideTall | common/src/tree/tree.c:539-589 | for any tree: the rotation after an attach follows no null link if and only if the payload does not land left of nothing beside a right side three high |
| AvlSpec.BalancedNeverBesideTall | common/src/tree/tree.c:475-508 | a balanced tree never meets that null link |
| AvlSpec.RepairRearranges | common/src/tree/tree.c:539-589 | rotating the pivot keeps nodes, listing and absence of sharing |
| AvlSpec.RepairIsReplacing | common/src/tree/tree.c:564-588 | repairing is replacing the deepest subtree out of balance on the path, and only that one |
| AvlSpec.AttachRepairs | common/src/tree/tree.c:475-589 | on a balanced tree one rotation at the deepest node out of balance restores the old height there, so the whole tree is balanced |
| AvlSpec.AttachNodes | common/src/tree/tree.c:475-508 | attaching adds exactly the new node and one to the size, and shares none |
| AvlSpec.AttachTheorem | common/src/tree/tree.c:475-589 | any ordered tree: the listing gains exactly the payload, behind its equals; a balanced tree stays balanced and grows at most one level |
| AvlSpec.Build | common/src/tree/tree.c:475-508 | a tree built by attaching alone is always balanced and ordered, whatever is attached |
| AvlSpec.BuildTheorem | common/src/tree/tree.c:475-508 | such a tree lists exactly the payloads attached, sorted, and n + 1 is at least Fib(height + 2) |
| AvlSpec.SeenPivotStep | common/src/tree/tree.c:545-562 | one step of the walk down keeps the record of the deepest node out of balance so far |
| AvlSpec.RebalanceNodeRearranges | common/src/tree/tree.c:737-783 | rebalancing after a removal keeps nodes, listing and absence of sharing |
| AvlSpec.RemoveThins | common/src/tree/tree.c:668-735 | removal adds no node, shares none and makes no cycle |
| AvlSpec.RemoveListed | common/src/tree/tree.c:668-735 | distinct keys, balanced or not: exactly the requested key leaves, although the search goes on below a spliced-in child |
| AvlSpec.RemoveAbsent | common/src/tree/tree.c:717-731 | searching for a key that is not there changes the listing of no tree |
| AvlSpec.RemoveSize | common/src/tree/tree.c:693-695 | the size drops by the number of nodes freed, on any tree |
| AvlSpec.RemoveCosts | common/src/tree/tree.c:686-713 | one node is freed if and only if the key was present; the callback runs once, on the removed payload and never on the copied predecessor, and is skipped exactly when the caller passed the stored pointer and the node lacks a child |
| AvlSpec.RemoveTheorem | common/src/tree/tree.c:657-735 | distinct keys stay distinct and ordered, the key is gone and the count is right |
| AvlSpec.RemoveEffect | common/src/tree/tree.c:668-783 | the exact height after a removal from a balanced tree, and that it is balanced or has one node off by exactly two with an even heavy child |
| AvlSpec.OffsCounted | common/src/tree/tree.c:737-783 | balanced means no node is off; the one-off shape has exactly one |
| AvlSpec.RemovalKeepsBalanceIff | common/src/tree/tree.c:668-783 | balance survives a removal if and only if no node on the path loses a level beside an even heavier child |
| AvlSpec.StickingRemoval | common/src/tree/tree.c:757-760 | a tree of five nodes from which a removal leaves an unbalanced one |
| AvlSpec.BalancedSize | common/src/tree/tree.c:591-622 | a balanced tree of height h has at least Fib(h + 2) - 1 nodes |
| AvlRun.RunTheorem | common/src/tree/tree.c:475-735 | over every run that attaches absent keys and never lands beside a tall side, balanced or not in between, the tree lists exactly what was attached and not removed since, in order, each once |
| AvlRun.AttachFollowsNull | common/src/tree/tree.c:564-588 | a run of eight attaches and two removals after which the next attach of a small key follows a null link |
| AvlRun.BuildsMore | common/src/tree/tree.c:475-508 | the tree that these attaches build, step by step |
| AvlTree.NodeHeight | common/src/tree/tree.c:591-622 | the recursion over linked nodes returns the height, and left height minus right height |
| AvlTree.RotationLL | common/src/tree/tree.c:624-633 | in place, the nodes spell the rotated tree |
| AvlTree.RotationRR | common/src/tree/tree.c:635-643 | in place, the nodes spell the rotated tree |
| AvlTree.RotationLR | common/src/tree/tree.c:645-649 | in place, the nodes spell the doubly rotated tree |
| AvlTree.RotationRL | common/src/tree/tree.c:651-655 | in place, the nodes spell the doubly rotated tree |
| AvlTree.RebalanceOne | common/src/tree/tree.c:737-783 | in place, what the value function says, and nothing when the heavy child is even |
| AvlTree.FindPivot | common/src/tree/tree.c:545-562 | the loop finds the slot of the deepest unbalanced node on the search path, if there is one |
| AvlTree.Rebalance | common/src/tree/tree.c:539-589 | in place, the tree with its pivot rotated |
| AvlTree.Attach | common/src/tree/tree.c:475-508 | in place, the attached tree of the theorems, one node more, no callback |
| AvlTree.FindLast | common/src/tree/tree.c:699-704 | the loop ends at the predecessor of the matched node |
| AvlTree.RemoveNode | common/src/tree/tree.c:668-735 | in place, the removed tree of the theorems, with the count and the callback as stated there |
| AvlTree.SpliceOut | common/src/tree/tree.c:682-696 | the branch for a matched node that lacks a child |
| AvlTree.CopyLast | common/src/tree/tree.c:697-714 | the branch for a matched node with two children |
| AvlTree.Descend | common/src/tree/tree.c:717-731 | the second comparison, the search below, and the rebalancing |
| AvlTree.Remove | common/src/tree/tree.c:657-666 | the tree header stays in order; its count drops by the nodes freed |
| BinarySearchTree.InsertSearchable | common/src/tree/tree.c:88-149 | smaller keys stay left, equal and greater ones right of every node, and the listing gains the payload behind its equals |
| BinarySearchTree.Attach | common/src/tree/tree.c:88-120 | in place, the tree with the new leaf; no callback |
| BinarySearchTree.Lookup | common/src/tree/tree.c:352-388 | the node the search stops at and the node above it |
| BinarySearchTree.FoundIsFirst | common/src/tree/tree.c:333-388 | the search succeeds if and only if the key is listed, and meets its first listed payload |
| BinarySearchTree.RetrieveSmallest | common/src/tree/tree.c:216-231 | the leftmost node and the node above it, or the given one |
| BinarySearchTree.DeleteListed | common/src/tree/tree.c:151-214 | splicing takes exactly the first listed payload of the key out |
| BinarySearchTree.DeleteSearchable | common/src/tree/tree.c:183-200 | smaller keys stay left, equal and greater ones right of every node |
| BinarySearchTree.SplicedEffect | common/src/tree/tree.c:183-200 | exactly the victim's node leaves, all others stay, none is shared |
| BinarySearchTree.OutcomeMeaning | common/src/tree/tree.c:151-214 | which of the three endings a removal comes to, read off the listing and the root |
| BinarySearchTree.FillFromRight | common/src/tree/tree.c:183-195 | every field after the writes for a victim with a right child, in the code's order, aliases included |
| BinarySearchTree.FillFromLeft | common/src/tree/tree.c:196-200 | a victim without right child is replaced by its left side |
| BinarySearchTree.Unlink | common/src/tree/tree.c:183-195 | what the nodes spell after those writes, for each place of the victim, or that a null pointer is followed |
| BinarySearchTree.RemovesExactlyOneIff | common/src/tree/tree.c:183-200 | the nodes left spell a tree without exactly one payload of the key if and only if the victim has no right child or its right child has a left child |
| BinarySearchTree.SelfLinkSpellsNothing | common/src/tree/tree.c:189 | a node that became its own child belongs to no tree |
| BinarySearchTree.LossyLosesMore | common/src/tree/tree.c:189 | for a left-child victim outside that condition at least two nodes are lost |
| BinarySearchTreeFailures.RootVictim | common/src/tree/tree.c:189 | attach 0 and 1, remove 0: a null pointer is followed |
| BinarySearchTreeFailures.LeftVictim | common/src/tree/tree.c:189 | attach 2, 0 and 1, remove 0: the node of 1 is lost too |
| BinarySearchTreeFailures.RightVictim | common/src/tree/tree.c:189 | attach 0, 1 and 2, remove 1: the node of 2 becomes its own child and no tree is left |
| BinarySearchTree.Remove | common/src/tree/tree.c:151-214 | a missing key, and nothing else, is reported as not found and changes nothing; a null pointer is followed exactly when the root holds the key and its right child has no left child; any other listed key is removed, and in the good case the listing loses its first payload of the key and the order is kept; callback, count and links in every case |
| RedBlackSpec.RotateLLRearranges | common/src/tree/tree.c:928-940 | the recolouring rotation keeps nodes, listing and absence of sharing |
| RedBlackSpec.RotateRRRearranges | common/src/tree/tree.c:942-954 | the same for the mirrored rotation |
| RedBlackSpec.RotateLLRestores | common/src/tree/tree.c:928-940 | under a black root it removes the red pair and keeps the black count |
| RedBlackSpec.RotateRRRestores | common/src/tree/tree.c:942-954 | the same for the mirrored rotation |
| RedBlackSpec.RotateLRRestores | common/src/tree/tree.c:956-960 | the same for the double rotation |
| RedBlackSpec.RotateRLRestores | common/src/tree/tree.c:962-966 | the same for the mirrored double rotation |
| RedBlackSpec.RebalanceRearranges | common/src/tree/tree.c:870-926 | rebalancing on either side keeps nodes, listing and absence of sharing |
| RedBlackSpec.NodeAttachComesBack | common/src/tree/tree.c:834-926 | a black subtree comes back in order; a red one comes back red with at most one red child and the same black count |
| RedBlackSpec.AttachRedBlack | common/src/tree/tree.c:800-966 | any key attached to a red-black tree gives a red-black tree, also when the key was present and only flips and rotations happen |
| RedBlackSpec.AttachListed | common/src/tree/tree.c:800-868 | the listing is the old one with the payload in its place, or the old one when the key was there; the node is linked if and only if the key was absent |
| RedBlackSpec.AttachSize | common/src/tree/tree.c:800-832 | one node more if and only if the key was absent, while the counter always grows |
| RedBlackSpec.SanityMeaning | common/src/tree/tree.c:1183-1222 | the check is nonzero if and only if all paths to null carry the same number of black nodes, and then it is that number plus one |
| RedBlackSpec.SanityComplete | common/src/tree/tree.c:1205-1217 | a zero is witnessed by two paths that differ |
| RedBlackSpec.RedBlackIsSane | common/src/tree/tree.c:1172-1222 | every tree of even black count passes, with its black count plus one |
| RedBlackSpec.RedBlackHeight | common/src/tree/tree.c:352-388 | n + 1 is at least two to the rounded-up half of the height, so the height is at most 2 log2(n + 1) |
| RedBlackTree.RotationLL | common/src/tree/tree.c:928-940 | in place, links and colours spell the rotated tree |
| RedBlackTree.RotationRR | common/src/tree/tree.c:942-954 | in place, links and colours spell the rotated tree |
| RedBlackTree.RotationLR | common/src/tree/tree.c:956-960 | in place, the doubly rotated tree |
| RedBlackTree.RotationRL | common/src/tree/tree.c:962-966 | in place, the doubly rotated tree |
| RedBlackTree.FlipColors | common/src/tree/tree.c:870-926 | in place, the node red and both children black |
| RedBlackTree.Rebalance | common/src/tree/tree.c:870-926 | in place, the case that the side and the colours select |
| RedBlackTree.AttachNode | common/src/tree/tree.c:834-868 | in place, the recursion of the value function |
| RedBlackTree.Lookup | common/src/tree/tree.c:352-388 | the node found, and at most one comparison per level |
| RedBlackTree.SanityCheck | common/src/tree/tree.c:1183-1222 | the recursion over linked nodes returns the value that is given its meaning above |
| RedBlackTree.RedBlackTree.Attach | common/src/tree/tree.c:800-832 | every tree built by attaching is red-black with distinct keys and lists the set of keys attached; the counter grows with every call |
| RedBlackTree.RedBlackTree.Contains | common/src/tree/tree.c:333-388 | membership is answered correctly within 2 log2(n + 1) comparisons |
| RedBlackTree.RedBlackTree.Check | common/src/tree/tree.c:1172-1222 | every tree built by attaching passes, with the number its paths share |
| PoolMemory.LinkStored | common/src/memman_pool/memman_pool.c:156 | a four-byte link reads back as it was written |
| PoolMemory.LinkAgrees | common/src/memman_pool/memman_pool.c:206 | a link survives writes elsewhere |
| PoolMemory.LinkZero | common/src/memman_pool/memman_pool.c:146 | four cleared bytes are a null link |
| PoolSpec.SlotsApart | common/src/memman_pool/memman_pool.c:140-161 | different slots of a bank share no byte |
| PoolSpec.TakeKeeps | common/src/memman_pool/memman_pool.c:204-210 | taking the first free slot keeps the free chain, the headers and the partition |
| PoolSpec.GiveKeeps | common/src/memman_pool/memman_pool.c:223-229 | giving a block back keeps them too, with the block at the head of the chain |
| PoolSpec.GrowKeeps | common/src/memman_pool/memman_pool.c:118-135 | a formatted new chunk keeps them too, its ten slots in order |
| PoolSpec.GrowCounts | common/src/memman_pool/memman_pool.c:193-202 | growing only when no slot is free keeps the number of chunks at the rounded-up tenth of the peak |
| Pool.ServedInOrderIff | common/src/memman_pool/memman_pool.c:187-211 | writing the size byte in front of the block keeps all banks in order if and only if the request has 3 to 126 bytes |
| Pool.ShortBlockStrays | common/src/memman_pool/memman_pool.c:217-230 | the header of a block of less than 3 bytes names another bank, and that bank is out of order once the block heads its free list |
| Pool.ShortRequest | common/src/memman_pool/memman_pool.c:163-230 | on a new pool, a request of 2 bytes that is released heads the free list of bank 3 |
| Pool.RequestPastBanks | common/src/memman_pool/memman_pool.c:187-190 | a request of 127 bytes indexes past the banks |
| Pool.AllSlotsApart | common/src/memman_pool/memman_pool.c:98-161 | blocks in use and free slots of the same or of different banks share no byte |
| Pool.ChangeKeepsLive | common/src/memman_pool/memman_pool.c:204-230 | what an allocation or a release writes leaves the bytes of all other blocks in use as they were |
| Pool.TakeKeepsBanks | common/src/memman_pool/memman_pool.c:204-211 | an allocation keeps all 128 banks in order at byte level |
| Pool.GiveKeepsBanks | common/src/memman_pool/memman_pool.c:217-230 | the header of a live block names its bank, and a release keeps all banks in order |
| Pool.ClientWriteKeepsBanks | common/src/memman_pool/memman_pool.c:163-215 | a write within the requested bytes changes no header, no link and no bank |
| Pool.GrowKeepsMemory | common/src/memman_pool/memman_pool.c:98-138 | a new chunk overlaps no old one and disturbs no bank; the bank that grows had no free slot |
| Pool.GrowKeepsLists | common/src/memman_pool/memman_pool.c:118-131 | the chunk lists stay linked in both directions and share no node |
| Pool.ReleasedOnce | common/src/memman_pool/memman_pool.c:28-57 | every chunk is among those released, and none twice |
| Pool.Pool.constructor | common/src/memman_pool/memman_pool.c:19-26 | a new pool has no chunks |
| Pool.Pool.ListFormat | common/src/memman_pool/memman_pool.c:140-161 | the loop links each slot to the next and the last to null, and writes nothing outside the chunk |
| Pool.Pool.AddBank | common/src/memman_pool/memman_pool.c:59-138 | in place, one more chunk at the tail of the bank's list |
| Pool.Pool.TakeFirst | common/src/memman_pool/memman_pool.c:204-214 | unhooks the first free slot, writes the size byte and returns the byte behind it; the pool is in order after it if and only if the size is 3 to 126 |
| Pool.Pool.Alloc | common/src/memman_pool/memman_pool.c:163-215 | for every size, whether it is served from a bank, past the banks or by the system; for 3 to 126 bytes the block lies in the bank numbered size + 1 and is the first free one, or the first of a new chunk; a block from a bank was not live before and is now, other live blocks keep their bytes, and the pool stays in order if and only if the size is at least 3 |
| Pool.Pool.Free | common/src/memman_pool/memman_pool.c:217-230 | the block leaves the live ones of the bank it came from, found through its header, and becomes the first free one there; other live blocks keep their bytes |
| Pool.Pool.Release | common/src/memman_pool/memman_pool.c:217-230 | whatever the byte in front of the block says: the block heads the free list of the bank of that number |
| Pool.Pool.ClientWrite | common/src/memman_pool/memman_pool.c:163-230 | a client's write to its own bytes keeps the pool in order |
| Pool.Pool.ClientFill | common/src/memman_pool/memman_pool.c:163-215 | all bytes of a block can be written one after the other and read back |
| Pool.FillBlock | common/src/memman_pool/memman_pool.c:163-215 | a block of 3 to 126 bytes is as big as was asked for: filling it keeps every bank in order |
| Pool.Reuse | common/src/memman_pool/memman_pool.c:163-230 | a released block is the next one of its size to be served, and the bank is as before |
| Pool.Pool.Destroy | common/src/memman_pool/memman_pool.c:28-57 | releases the chunks of every bank, last chunk first, and leaves an empty pool without chunk nodes |
| Pool.Pool.ReleaseChunks | common/src/memman_pool/memman_pool.c:40-49 | the walk backwards releases exactly the bank's chunks and takes their nodes away |
| BankRun.ChunksFollowPeak | common/src/memman_pool/memman_pool.c:98-230 | after every allowed sequence of requests and releases: free slots and live blocks partition all slots, and the number of chunks is the greatest simultaneous use over ten, rounded up |
| HashSpec.SearchMeaning | common/src/hashit/hashtable.c:191-259 | the probe loop ends at the first bucket it does not pass, and names the key's bucket, else the first vacated one passed, else the unused one met |
| HashSpec.ProbeIsSum | common/src/hashit/hashtable.c:200-243 | after n steps the index is the hash plus the first n random numbers, modulo twenty |
| HashSpec.InsertPlaces | common/src/hashit/hashtable.c:76-127 | the payload is written to the key's own bucket if the search meets it, else to the first vacated bucket on the way, else to the unused one met |
| HashSpec.StoredIsFound | common/src/hashit/hashtable.c:191-259 | every stored key is reached on its probe path before any never-used bucket and within the budget |
| HashSpec.StoredOnce | common/src/hashit/hashtable.c:76-127 | no key is stored twice |
| HashSpec.FillReachable | common/src/hashit/hashtable.c:103-118 | writing the bucket a search chose, tombstone or not, keeps every key reachable |
| HashSpec.VacateReachable | common/src/hashit/hashtable.c:173-181 | vacating a bucket keeps every other key reachable |
| HashSpec.InsertRefines | common/src/hashit/hashtable.c:76-127 | insertion never reports a duplicate; it is refused for a full table exactly at a count of twenty, and as not found exactly when the first 2000 probed buckets are all vacated or hold other keys; else it puts the payload into the dictionary |
| HashSpec.LookupRefines | common/src/hashit/hashtable.c:129-153 | a lookup answers as the dictionary does; for an absent key it follows a null pointer exactly when the first 2001 probed buckets are passed |
| HashSpec.RemoveRefines | common/src/hashit/hashtable.c:155-185 | a removal erases the key from the dictionary and nothing else; for an absent key likewise |
| HashSpec.NullDereferenceIff | common/src/hashit/hashtable.c:129-185 | lookup and removal follow a null pointer if and only if the first 2001 buckets probed are all vacated or hold other keys |
| HashSpec.LookupFollowsNull | common/src/hashit/hashtable.c:233-237 | a table with a single entry on which a lookup and a removal follow the null pointer |
| HashSpec.WornOutRefuses | common/src/hashit/hashtable.c:204-238 | a table whose buckets are all vacated refuses every key and follows a null pointer for every lookup and removal |
| HashSpec.WornOutAfterTwenty | common/src/hashit/hashtable.c:76-185 | twenty insertions, each removed again, lead to such a table with a count of zero |
| HashSpec.RunRefines | common/src/hashit/hashtable.c:76-259 | over every run the table represents the dictionary, every status and value is the one that the dictionary, the count and the buckets passed at that moment determine, and live entries <= `num_data` <= 20 although overwrites count |
| HashTable.HashTable.constructor | common/src/hashit/hashtable.c:19-55 | a new table has twenty never-used buckets |
| HashTable.HashTable.HtLookup | common/src/hashit/hashtable.c:191-259 | the loop over the array computes the search on values, with the probe count and the location it leaves |
| HashTable.HashTable.Insert | common/src/hashit/hashtable.c:76-127 | in place, the value operation with its status, probe count and location; not found exactly when the first 2000 probed buckets are passed; a payload is stored at the location reported |
| HashTable.HashTable.Lookup | common/src/hashit/hashtable.c:129-153 | the value operation with its probe count; the location returned holds the key, or is minus one |
| HashTable.HashTable.Remove | common/src/hashit/hashtable.c:155-185 | in place, the value operation; the callback is given the removed payload, and the location reported held the key and is vacated |
| StableSort.SortIsStable | common/src/LinkedList/linkit.c:295-359 | either direction: the keys go up, or down, as asked for; the same elements; equal values keep their order |
| StableSort.SortKeepsRanks | common/src/LinkedList/linkit.c:295-359 | any rank that goes up along the sequence still goes up among elements of equal value |
| LinkedList.LinkBefore | common/src/LinkedList/linkit.c:326-340 | stringing a node in keeps links that mirror each other |
| LinkedList.LinkAfter | common/src/LinkedList/linkit.c:345-351 | the same behind a node |
| LinkedList.Unlink | common/src/LinkedList/linkit.c:206-234 | taking a node out keeps links that mirror each other |
| LinkedList.PlaceNode | common/src/LinkedList/linkit.c:322-352 | the inner loop relinks one node to its place among the sorted ones, head and tail correct |
| LinkedList.SortChain | common/src/LinkedList/linkit.c:295-359 | the two loops relink the same nodes into their stable sort |
| LinkedList.List.InsertHead | common/src/LinkedList/linkit.c:119-146 | a new node in front; links, count, head, tail and cursor in order |
| LinkedList.List.InsertTail | common/src/LinkedList/linkit.c:148-175 | a new node at the end, likewise |
| LinkedList.List.DataRemove | common/src/LinkedList/linkit.c:177-240 | the first element with the data leaves and a cursor on it moves on; failure only on an empty list |
| LinkedList.List.RemoveElem | common/src/LinkedList/linkit.c:242-293 | exactly the given element leaves, likewise |
| LinkedList.List.InsertNext | common/src/LinkedList/linkit.c:24-69 | the links after one call; the count stays as it was |
| LinkedList.List.InsertPrev | common/src/LinkedList/linkit.c:71-117 | the links after one call; the count stays as it was |
| LinkedList.List.Destroy | common/src/LinkedList/linkit.c:385-403 | every node is freed once, front to back, and the list is empty |
| LinkedList.List.Sort | common/src/LinkedList/linkit.c:295-359 | the same nodes with their data going up, or down, as asked for, equal data in their old order, and the cursor where it was |
| LinkedList.SortKeepsTies | common/src/LinkedList/linkit.c:295-359 | two nodes of equal data stand in the order in which they stood before |
| ListRun.Execute | common/src/LinkedList/linkit.c:119-403 | each command shows a user exactly what a sequence with a cursor would show |
| ListRun.Run | common/src/LinkedList/linkit.c:119-403 | over every run: links mirror each other, the count is the length, the cursor is null or a member, and the list refines the sequence |
| ListRun.ViewSort | common/src/LinkedList/linkit.c:295-359 | sorting moves the cursor along with its element |
| ListRun.SortSeen | common/src/LinkedList/linkit.c:295-359 | what a user sees of a sort: the same items, the cursor with its own, data going up or down, ties in their old order |
| MessageBox.ApplyKeeps | eLibrary/src/server/eLibrary_server_handler.c:1363-1470 | every send, receipt and read keeps contacts distinct and both counters equal to the sums |
| MessageBox.BoxInOrder | eLibrary/src/client/eLibrary_client_parse.c:889-911 | over every run: `numMsg` is the sum over contacts, the number of stored messages and the number of events that stored one; `numUnread` is the sum over contacts |
| MessageBox.BoxMeaning | eLibrary/src/server/eLibrary_server_handler.c:1363-1470 | over every run each contact holds exactly its messages, newest first, and its unread count is what came in since its last read |
| MessageBox.RecordedFirst | eLibrary/src/server/eLibrary_server_handler.c:1363-1443 | a message becomes the newest of its contact, which is new if need be; all counts go up by one, those of unread messages only if it came in |
| MessageBox.ReadableIff | eLibrary/src/client/eLibrary_client_output.c:411-465 | after any completed run exactly the contacts with one to four messages can be read |
| MessageBox.FewMessagesReadable | eLibrary/src/client/eLibrary_client_output.c:411-465 | one to four messages stored for a contact are shown, these and no others, the newest first, and leave nothing unread |
| MessageBox.FiveMessagesUnreadable | eLibrary/src/client/eLibrary_client_output.c:439-453 | any five messages or more make their contact unreadable |
| MessageBox.UnreadDrift | eLibrary/src/client/eLibrary_client_parse.c:903-905 | if messages are stored during a read, the unread count ends up too large by exactly those that came in from the contact between noting and clearing |
| MessageBox.OneArrivalDrifts | eLibrary/src/client/eLibrary_client_parse.c:903-905 | one message that comes in after the note: nothing is unread and the box says one |
| MessageBox.MsgBox.GetMsgNode | eLibrary/src/server/eLibrary_server_handler.c:1472-1490 | the loop finds the first contact of that name or none |
| MessageBox.MsgBox.SendReceive | eLibrary/src/server/eLibrary_server_handler.c:1363-1443 | in place, the message in front of its contact's, a new contact in front of the list, counters up, unless the new contact's name overruns its field |
| MessageBox.MsgBox.BriefMsgContexts | eLibrary/src/client/eLibrary_client_output.c:411-465 | shows all messages and clears the contact's count if there are at most four, and follows a null pointer if there are more |
| MessageBox.MsgBox.ReadContact | eLibrary/src/client/eLibrary_client_parse.c:889-911 | completes if and only if the contact exists and has at most four messages; then the unread counts are settled |
| MessageExchange.UnpackPacked | eLibrary/src/server/eLibrary_server_handler.c:1302-1305 | what the exchange thread unpacks is what the sender packed, whatever lies behind the strings; an overlong message loses the same end in both boxes |
| MessageExchange.FoundUnderOwnNameIff | eLibrary/src/server/eLibrary_server_handler.c:297-345 | a user is found under the own name if and only if no earlier user's name begins with it |
| MessageExchange.FoundUnderOtherName | eLibrary/src/server/eLibrary_server_handler.c:314 | two names for which the wrong user is found |
| MessageExchange.StepKeepsSlot | eLibrary/src/server/eLibrary_server_handler.c:1307-1358 | every step of any thread keeps the lock exclusive, the slot accounted for and the wake-up pending |
| MessageExchange.StepKeepsLedger | eLibrary/src/client/eLibrary_client_parse.c:946-1014 | every step keeps, for every two users, what is sent, received and under way in balance |
| MessageExchange.SlotSafety | eLibrary/src/server/eLibrary_server_handler.c:1294-1362 | every reachable state: one thread in the critical section, no accepted mail overwritten before it is handled, and a sleeping exchange thread with a full slot only while the sender is about to signal |
| MessageExchange.DeliveredOnceInOrder | eLibrary/src/client/eLibrary_client_parse.c:976-1010 | every reachable state: a box holds, per sender, exactly the handled mail resolved to its user, each once, in order of acceptance, and its messages are counted right |
| MessageExchange.SentIsReceivedOrUnderWay | eLibrary/src/server/eLibrary_server_handler.c:1294-1470 | every reachable state, every two users: the texts sent are the texts received, the one in the slot and those of senders still trying |
| MessageExchange.UnknownIsDropped | eLibrary/src/client/eLibrary_client_parse.c:989-993 | the same balance for names that resolve to nobody: their mail ends with the exchange thread |
| MessageExchange.FullSlotCanBeHandled | eLibrary/src/server/eLibrary_server_handler.c:1307-1358 | from every reachable state with a full slot at most five steps, no retry or spurious wake-up among them, empty it |
| MessageProgress.StartMakesReady | eLibrary/src/client/eLibrary_client_parse.c:939-944 | from every reachable state the exchange thread's start leaves it ready |
| MessageProgress.SendGetsThrough | eLibrary/src/server/eLibrary_server_handler.c:1294-1470 | from every reachable ready state a message of an idle thread, and some further run without another new message, end with its first thirty characters behind everything the resolved user had received from the sender, and the thread idle again |
| MessageProgress.MailGetsThrough | eLibrary/src/server/eLibrary_server_handler.c:1307-1362 | the same from every reachable state in which a thread is at the lock, inside, refused or napping with its message |
| MessageProgress.EverythingGetsThrough | eLibrary/src/server/eLibrary_server_handler.c:1294-1362 | from every reachable state some further run without a new message ends with all threads idle, lock and slot free, and every user having received exactly what was sent there |
| MessageReads.DriftOverRuns | eLibrary/src/client/eLibrary_client_parse.c:889-911 | every reachable state, with any number of reads in three steps under way: how far each box's unread count is off, and that it is right, while no reader owes anything, if and only if arrivals and clearings between notes and showings even out |
| MessageReads.StepKeepsReads | eLibrary/src/client/eLibrary_client_parse.c:889-911 | every step of senders, readers and exchange thread keeps that account |
| MessageReads.UninterruptedRead | eLibrary/src/client/eLibrary_client_parse.c:903-905 | the three steps in a row are the read of the box |
| MessageNames.OnlyOwnNameIff | eLibrary/src/server/eLibrary_server_handler.c:297-340 | the names under which a user is found are the own name alone if and only if no earlier name begins with it and some earlier name begins with all but its last letter |
| MessageNames.OwnMailIff | eLibrary/src/client/eLibrary_client_parse.c:989-1002 | of any log, the mail delivered to a user is the mail addressed to that name if and only if no mail is addressed to one and resolved to another |
| MessageNames.OwnMailDelivered | eLibrary/src/client/eLibrary_client_parse.c:976-1010 | every reachable state: a user found under the own name only holds exactly the mail addressed to it, each once, in order |
| MessageNames.DeliveredIsAddressedIff | eLibrary/src/client/eLibrary_client_parse.c:976-1010 | every reachable state, any user: exactly when that is so |
| Semaphore.RunKeeps | sem_wrapper/sem_wrapper.c:51-85 | every reachable state: exclusive mutex, value accounted for by the posts and waits of the run, no lost wake-up, reads current |
| Semaphore.StepKeepsWakeUps | sem_wrapper/sem_wrapper.c:182-213 | every step keeps: a thread asleep while the value is positive has a poster between its increment and its broadcast |
| Semaphore.ValueIsCreditIff | sem_wrapper/sem_wrapper.c:51-213 | posts and waits counted as steps of the run: waits never exceed initial value plus posts; the value is their difference if and only if that fits in 32 bits |
| Semaphore.PostWrapsAround | sem_wrapper/sem_wrapper.c:189 | one post on the greatest value leaves zero |
| Semaphore.PostCycle | sem_wrapper/sem_wrapper.c:182-213 | from every reachable state with the mutex free, a post that is not interrupted raises the value by one modulo 32 bits, wakes all sleepers, moves no other thread and returns |
| Semaphore.WaitCycle | sem_wrapper/sem_wrapper.c:51-85 | likewise a wait takes one off a positive value and returns, and at zero goes to sleep and leaves the mutex free |
| Semaphore.GetCycle | sem_wrapper/sem_wrapper.c:215-238 | likewise a reading reads the value, changes nothing and returns |
| Semaphore.ReadIsExact | sem_wrapper/sem_wrapper.c:215-238 | one thread holds the mutex at a time, and the value read is initial value plus posts minus waits at that moment, modulo 32 bits |
| Semaphore.NobodySleeps | sem_wrapper/sem_wrapper.c:51-85 | with the mutex free and a positive value no thread is asleep |
| Semaphore.WaiterPasses | sem_wrapper/sem_wrapper.c:51-85 | then any thread inside a wait passes with its next four steps, takes one off the value and leaves the mutex free |

## Left out

- BinarySearchTree.Remove: in the two broken cases says which fields the nodes have and what the count is, not that the header stays in order, because it does not.
- Pool.Pool.Alloc: says that a request of 127 bytes indexes past the banks, not what the memory found there does.
- MessageBox.MsgBox.SendReceive: ends where the name of a new contact overruns its field of ten characters, and says exactly when.
- AvlTree.Attach: requires that the payload does not land beside a right side three high, because the C code then follows a null link; the condition is exact and holds for every balanced tree.
- Pool.Pool.Free: requires a live block, so a double release is not modelled.
- LinkedList.List.InsertNext: gives the links after one call and no count, because the code never updates the count there; kept out of the runs for that reason.
- LinkedList.List.InsertPrev: as for InsertNext.
- MessageProgress.SendGetsThrough: says that some further run delivers the message, not that every fair one does, because a sender that finds the slot full naps and can find it full again each time.
- HashTable.HashTable.Lookup: reports the null pointer that the code follows as a status of its own.
- Counters of trees, lists and boxes are natural numbers; their wrap-around at 32 bits is modelled for the semaphore and for a hash table's count at zero only.
- Allocation failure: what the system returns is a parameter of the pool; everywhere else allocation succeeds. Pthread calls succeed.
- `hash`, `compare` and `rand` of the hash table are parameters under the laws the table needs; the concrete ones in `hashit.c` disagree on string keys.
- Red-black removal (`tree_remove`, `rebalance`), whose rotations are not mirrored by side and which does not keep the invariants.
- `sem_wrapper_trywait`, `sem_wrapper_timedwait`, and `sem_wrapper_init` while the semaphore is in use; all calls are taken to pass the one condition variable.
- Message boxes are changed by senders and readers without a lock. In the runs each change of a box is one atomic step, and a read is three of them; an unread count below zero stands for one that wraps around.
- The exchange thread's shutdown event, the ready flag being read without a lock, and users registering during a run.
- `BStree_destroy` clears the tree header after the walk; the header is not used again.
- `list_init` as a way to forget a list, `list_display`, and the stale tail that `list_destroy` leaves, which is allowed for an empty list and never read.
- What `malloc` does with requests of more than 127 bytes, and their release, which reads a byte that nobody wrote; load factors, logging, printing and time formatting.
- Friend, book and activity helpers, the server daemon, sockets, the database engine, the command parser and the user interfaces.
