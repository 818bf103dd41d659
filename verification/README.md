# A verified model of the data structures of a small nginx

The repository is a cut-down nginx. Its hard parts are structures that are changed in place through
pointers and a few dense arithmetic or streaming routines. This project models them in Dafny, in the form
the C code has, and proves what they promise. All cited paths lie below `demo/src`.

`dafny verify dfyconfig.toml` checks everything. The modules, one to a file:

- **Red-black tree** (`RbShape`, `RbBalance`, `RbMemory`, `RbKeys`, `RbTree`). Nodes are objects with
  parent links and a shared black sentinel. What the links spell out is a value, `Shape`; a loop that looks
  at one place of the tree sees a pair of a `Path` and a `Shape`. `RbShape` and `RbBalance` prove the
  algorithms on these values, `RbMemory` that the pointer writes do to the links what the algorithms do to
  the values, `RbTree` has the methods. Nothing is required of the parent of the root, which a deletion may
  leave stale, nor of the sentinel's parent, which a deletion uses as scratch space.
- **Timers** (`Timers`): the tree of deadlines, on clocks that wrap. "Within a window" means that all
  deadlines and the time lie within one half of the circle, which may cross the wrap.
- **Queue** (`Queue`, `QueueSort`): intrusive circles of links, and the stable insertion sort on them.
- **Calendar** (`Calendar`, `Gmtime`): a calendar that counts day by day, against the arithmetic of
  `ngx_gmtime`.
- **Hash table** (`HashChains`, `HashTable`): bucket chains and their growth, against a finite map.
- **SHA-1** (`Radix`, `Sha1Spec`, `Sha1Example`, `Sha1`): `Sha1Spec` follows FIPS 180-4, `Sha1Example` has an
  example computation of the standard, `Sha1` the buffered stream.
- **Message ring** (`MessageRing`, `MessageProcesses`): the steps of the producer and of every worker,
  interleaved in any order, and the code that takes these steps.
- **Headers** (`HeaderStep`, `HeaderLine`, `HeaderGrammar`, `HeaderText`, `HeaderParser`, `HeaderRequest`): the
  resumable parser, a description of header lines that does not mention it, and the proof that the two agree;
  whole headers; and the handler that reads, parses and lists them, with all its exits. `HeaderParser.Buffer`
  keeps, for the proofs, the bytes as they came from the socket.
- **Pool and array** (`PoolModel`, `Pool`, `PoolArray`): addresses are numbers; the answers of the C
  library to calls for memory are parameters.
- **Connections** (`TableModel`, `Connections`): the table of slots, with its free list, the queue of reusable
  connections, the queues of posted events and the timer tree. A handler is a run of steps; steps may call
  handlers, to any depth. `TableModel` has the table as a value, what every step makes of it, and what the loops
  that call handlers come to; `Connections` has the links, trees and counters, and does the same.

## Where the code falls short

Some properties hold only under a condition. The condition is proved exact.

- A timer whose new deadline lies exactly half the circle from the old one keeps the old one, because
  the absolute value of the lowest signed word is negative (`Timers.HalfCircleLooksSmall`,
  `Timers.Timers.AddTimer`).
- What is handed out of a block of a pool stays inside the block, over all sequences of calls, if and only if
  the size of the pool is a multiple of the alignment (`PoolModel.RoundPoolsOnly`). `NGX_REQUEST_POOL_SIZE`
  is 2018 and is not: `PoolModel.RequestPoolOverruns` has the two calls that leave such a block.
  `ngx_pnalloc` of small sizes needs no such condition; the other methods of `Pool` and those of `PoolArray`
  require it (`PoolModel.Round`), because without it what they hand out may lie outside.
- An array without capacity can take its first element only by growing in place; otherwise doubling leaves
  it without capacity, and the element lies outside (`PoolArray.Array.Push`).
- A worker that is more than 1024 messages behind when it finishes one skips messages, and only then
  (`MessageRing.NothingSkipped`).
- After a bad byte the header parser saves nothing, so the state it leaves is that of a single call exactly if no
  call ended between the start and the bad byte (`HeaderStep.InvalidShowsCut`, `HeaderStep.InvalidDiffers`). The
  result code, the spans and the flag do not depend on the cuts.
- The branch of `ngx_palloc_large` that would use a free list node again is never taken
  (`Pool.Pool.LookForNode`), and the branch of `ngx_rbtree_delete` for a successor with a left child
  neither.

## Model

| member | source | states |
|---|---|---|
| `RbShape.RotationKeepsOrder` | demo/src/core/ngx_rbtree.c:323-380 | rotating never changes the in-order sequence, and the right rotation undoes the left one |
| `RbShape.RotationKeepsNodes` | demo/src/core/ngx_rbtree.c:323-380 | rotating neither loses nor gains a node, whether to the left or to the right |
| `RbShape.EqualBlackHeights` | demo/src/core/ngx_rbtree.c:46-92 | in a tree without red-red edges and with matching subtrees, all ways down from the root meet the same number of black nodes |
| `RbShape.HeightBound` | demo/src/core/ngx_rbtree.c:46-92 | such a tree is at most about twice as high as a balanced one of its size |
| `RbShape.BypassedOrder` | demo/src/core/ngx_rbtree.c:167-205 | hanging the only subtree of a node into its place takes exactly that node out of the in-order sequence |
| `RbShape.TransplantedOrder` | demo/src/core/ngx_rbtree.c:175-243 | moving the successor into the place of a node takes exactly that node out of the in-order sequence |
| `RbBalance.InsertedUnbalanced` | demo/src/core/ngx_rbtree.c:113-117 | a red node hung into an empty place breaks at most the rule that a red node has a black parent, and only there |
| `RbBalance.FlippedUnbalanced` | demo/src/core/ngx_rbtree.c:53-57 | with a red uncle, repainting moves the one possible violation two levels up and keeps the order |
| `RbBalance.LiftedLeftUnbalanced` | demo/src/core/ngx_rbtree.c:65-67 | with a black uncle, the final rotation leaves a red-black tree below a black node and keeps the order |
| `RbBalance.LiftedRightUnbalanced` | demo/src/core/ngx_rbtree.c:85-87 | the mirror image |
| `RbBalance.UnbalancedMended` | demo/src/core/ngx_rbtree.c:92 | where the insertion loop stops, a black root is all that is missing |
| `RbBalance.RemovedFits` | demo/src/core/ngx_rbtree.c:167-173 | taking out a red node leaves a red-black tree, taking out a black one a tree that misses one black node below one place |
| `RbBalance.TransplantedFits` | demo/src/core/ngx_rbtree.c:175-243 | deleting a node with two children does so at the place of its successor, whatever the colours |
| `RbBalance.RedSiblingLeft` | demo/src/core/ngx_rbtree.c:262-267 | a red sibling becomes a black one, the missing black node stays missing at the same place, and the order stays |
| `RbBalance.BlackSibling` | demo/src/core/ngx_rbtree.c:269-271 | with a black sibling and black nephews, the missing black node moves one level up |
| `RbBalance.InnerRedLeft` | demo/src/core/ngx_rbtree.c:274-279 | with only the inner nephew red, the outer one becomes red |
| `RbBalance.OuterRedLeft` | demo/src/core/ngx_rbtree.c:281-285 | with the outer nephew red, nothing is missing any more |
| `RbBalance.OuterRedRight` | demo/src/core/ngx_rbtree.c:310-314 | the mirror image |
| `RbBalance.DeficientMended` | demo/src/core/ngx_rbtree.c:319 | where the deletion loop stops, painting the node black repairs the tree |
| `RbMemory.Ascend` | demo/src/core/ngx_rbtree.c:48-90 | links below the root spell out the same tree whether one looks at a subtree and its surroundings or one level higher; the parent of the root does not matter |
| `RbMemory.LeftMovedAt` | demo/src/core/ngx_rbtree.c:323-350 | the six writes of a left rotation turn the subtree, wherever it hangs, and touch no other link |
| `RbMemory.RightMovedAt` | demo/src/core/ngx_rbtree.c:353-380 | the same for the right rotation |
| `RbMemory.TransplantedAt` | demo/src/core/ngx_rbtree.c:200-243 | after the writes of a transplant the successor stands where the node stood and its child where the successor stood |
| `RbKeys.LessIsRank` | demo/src/core/ngx_rbtree.c:136-139 | the signed comparison of keys agrees with their distance from the start of a window of less than half the circle, even across the wrap of the word |
| `RbKeys.Parted` | demo/src/core/ngx_rbtree.c:102-111 | one comparison on the way down tells a new key from everything on one side of the node |
| `RbKeys.PlacedIsOrdered` | demo/src/core/ngx_rbtree.c:121-153 | a node behind all keys not greater and before all greater ones keeps the sequence in order |
| `RbKeys.TakenOutOrdered` | demo/src/core/ngx_rbtree.c:156-320 | taking a node out leaves the others in order |
| `RbKeys.PlacedLast` | demo/src/core/ngx_rbtree.c:121-153 | a node put at that place comes behind all nodes of the same key: nodes stay in the order of their keys, and those of equal keys in the order of insertion |
| `RbTree.Tree.constructor` | demo/src/core/ngx_rbtree.h:44-48 | an empty, valid tree with a black sentinel |
| `RbTree.Tree.LeftRotate` | demo/src/core/ngx_rbtree.c:323-350 | in place: the subtree is turned, all other links stay, and the scratch field of the sentinel stays |
| `RbTree.Tree.RightRotate` | demo/src/core/ngx_rbtree.c:353-380 | in place: the mirror image |
| `RbTree.Tree.FindPlace` | demo/src/core/ngx_rbtree.c:96-111 | the walk ends at an empty place with every key not greater to its left and every greater one to its right, if the keys lie in one window |
| `RbTree.Tree.RebalanceLoop` | demo/src/core/ngx_rbtree.c:46-90 | the loop ends, keeps the in-order sequence, and leaves a violation at most at the root |
| `RbTree.Tree.Insert` | demo/src/core/ngx_rbtree.c:24-93 | the result is a valid red-black tree whose in-order sequence is the old one with the node at one place; within a window that place is behind all keys not greater, so equal keys stay in the order of insertion |
| `RbTree.Tree.InsertKeyed` | demo/src/core/ngx_rbtree.c:24-93 | the key is stored and the in-order sequence is the old one with the node at one place, behind all keys not greater and before all greater ones; an ordered tree stays ordered |
| `RbTree.Tree.Min` | demo/src/core/ngx_rbtree.h:73-81 | the leftmost node below a node, which is the first in order |
| `RbTree.Tree.Minimum` | demo/src/core/ngx_rbtree.h:73-81 | the first node of the in-order sequence of the tree |
| `RbTree.Tree.FixUpLoop` | demo/src/core/ngx_rbtree.c:255-317 | the loop ends, keeps the in-order sequence, and stops at the root or at a red node |
| `RbTree.Tree.DeleteRoot` | demo/src/core/ngx_rbtree.c:185-196 | deleting a root with at most one child |
| `RbTree.Tree.Transplant` | demo/src/core/ngx_rbtree.c:200-243 | the pointer writes that put the successor into the place of the node |
| `RbTree.Tree.Delete` | demo/src/core/ngx_rbtree.c:156-320 | for every valid tree and every node in it: a valid red-black tree again, whose in-order sequence is the old one without exactly that node, whose fields are cleared |
| `RbTree.Tree.Climb` | demo/src/core/ngx_rbtree.c:396-408 | the climb finds the first ancestor that has the node on its left, or null |
| `RbTree.Tree.Next` | demo/src/core/ngx_rbtree.c:383-409 | the next node of the in-order sequence, or null behind the last, so that following it visits every node once |
| `Timers.PlusAdds` | demo/src/event/ngx_event_timer.h:56 | the deadline is the sum of the time and the timer on machine words: taking the time off again gives the timer, across the wrap as well |
| `Timers.DiffCounts` | demo/src/event/ngx_event_timer.h:66 | the difference of two times, read as a signed word, is how many milliseconds lie between them, wherever the clock wraps |
| `Timers.HalfCircleLooksSmall` | demo/src/event/ngx_event_timer.h:66-73 | a new deadline exactly half the circle from the old one passes the test for small differences, because the lowest signed word has no absolute value |
| `Timers.Timers.DelTimer` | demo/src/event/ngx_event_timer.h:31-47 | the event leaves the tree and is marked as not set; all others stay, in order |
| `Timers.Timers.AddTimer` | demo/src/event/ngx_event_timer.h:50-87 | the event is set; it keeps its old deadline and its place, or takes the new one and the place behind all others that are not later; the deadline stored is within 300 ms of the one asked for if and only if the old one was not set exactly half the circle away |
| `Timers.Timers.AddLast` | demo/src/event/ngx_event_timer.h:50-87 | pending events stay in the order of their deadlines, those with equal deadlines in the order in which the deadlines were set, a deadline set anew included |
| `Timers.Timers.FindTimer` | demo/src/event/ngx_event_timer.c:32-50 | the wait is never later than any pending deadline of the window, and infinite if there is none |
| `Timers.Timers.ExpireFirst` | demo/src/event/ngx_event_timer.c:76-92 | the first event leaves the tree, is marked as not set and as timed out, and nothing else changes |
| `Timers.Timers.ExpireTimers` | demo/src/event/ngx_event_timer.c:53-96 | events fire once each in the order of the tree; within a window exactly those fire whose deadline has come, and exactly the others stay |
| `Timers.Timers.ExpireByAge` | demo/src/event/ngx_event_timer.c:53-96 | of two events that fire, the one with the earlier deadline fires first; of two with equal deadlines, the one whose deadline was set first |
| `Timers.Timers.NoTimersLeft` | demo/src/event/ngx_event_timer.c:99-126 | the answer is OK exactly if every pending timer is cancelable |
| `Queue.InsertAfter` | demo/src/core/ngx_queue.h:33-40 | the circle has the new link behind the given one and is otherwise the same |
| `Queue.InsertTail` | demo/src/core/ngx_queue.h:43-47 | the circle has the new link at its end |
| `Queue.Remove` | demo/src/core/ngx_queue.h:80-82 | the circle is closed without the link, whose own fields are not written |
| `Queue.Split` | demo/src/core/ngx_queue.h:87-93 | the elements from the given one on form a circle with the new head, the others one with the old head |
| `Queue.Add` | demo/src/core/ngx_queue.h:96-100 | the elements of the second queue follow those of the first in one circle |
| `Queue.Middle` | demo/src/core/ngx_queue.c:17-45 | the two-speed walk ends at the middle element, or at the first of the second half |
| `QueueSort.PlacedSorted` | demo/src/core/ngx_queue.c:69-78 | the backward scan puts an element where the sorted part stays sorted |
| `QueueSort.PlacedStable` | demo/src/core/ngx_queue.c:69-78 | and behind all elements equal to it |
| `QueueSort.PlacedPermutes` | demo/src/core/ngx_queue.c:67-78 | and loses none |
| `QueueSort.InsertionSortedIsStableSort` | demo/src/core/ngx_queue.c:48-80 | for every comparison that is a total preorder: an ordered, stable permutation |
| `QueueSort.FindPlace` | demo/src/core/ngx_queue.c:69-76 | the inner loop, on live links while the element is already unlinked, stops at the place of the element |
| `QueueSort.MoveToPlace` | demo/src/core/ngx_queue.c:64-78 | unlinking and relinking one element leaves a well-formed circle with the element in its place |
| `QueueSort.Sort` | demo/src/core/ngx_queue.c:50-80 | for every well-formed circle: a well-formed circle of the same links in the order of the stable insertion sort |
| `Calendar.DayAfterEpochCounts` | demo/src/core/ngx_times.c:339-340 | the date reached by counting n days from 1 January 1970 has number n |
| `Calendar.DayNumberInjective` | demo/src/core/ngx_times.c:339-340 | a valid date is known by its number |
| `Calendar.WeekdayIsRemainder` | demo/src/core/ngx_times.c:325-327 | counting weekdays from Thursday agrees with the remainder the code takes |
| `Gmtime.GuessOffByOne` | demo/src/core/ngx_times.c:342-357 | the guess of the year is never off by more than one |
| `Gmtime.GmtimeIsCalendar` | demo/src/core/ngx_times.c:300-402 | for every time of the years 1970 to 9999: the date and the weekday of the day-by-day calendar, and the clock time |
| `Gmtime.GmtimeRoundTrip` | demo/src/core/ngx_times.c:300-402 | converting the fields back to seconds gives the time |
| `Gmtime.LastDay` | demo/src/core/ngx_times.c:315-323 | the day at which the code truncates is 31 December 9999 |
| `Gmtime.GmtimeClamps` | demo/src/core/ngx_times.c:306-323 | times outside the range read as its first or its last second |
| `HashChains.Popped` | demo/src/core/ngx_hash.c:84-97 | the first entry of a chain can be unlinked without harm to any other chain |
| `HashChains.Pushed` | demo/src/core/ngx_hash.c:93-94 | an entry on no chain can become the first of one without harm to any other |
| `HashChains.NotFound` | demo/src/core/ngx_hash.c:163-178 | if no entry of the bucket has an equal key, no entry of the table has |
| `HashChains.FindAdded` | demo/src/core/ngx_hash.c:140-153 | a new entry changes the map exactly for the keys equal to its own |
| `HashChains.FindOverwritten` | demo/src/core/ngx_hash.c:129-135 | so does overwriting the pair of an equal key, although the stored key changes as well |
| `HashChains.Relinked` | demo/src/core/ngx_hash.c:82-98 | links do not matter to the map |
| `HashTable.SizeGrows` | demo/src/core/ngx_hash.c:16-33 | every growth makes room for at least one more entry under the load bound, from the list of primes and beyond it |
| `HashTable.EntryMoved` | demo/src/core/ngx_hash.c:86-97 | moving one entry keeps all old and new chains well formed |
| `HashTable.AllMoved` | demo/src/core/ngx_hash.c:82-98 | when the old chains are empty, every entry is in its bucket of the new table |
| `HashTable.Table.constructor` | demo/src/core/ngx_hash.c:46-55 | an empty map in a table of 193 buckets |
| `HashTable.New` | demo/src/core/ngx_hash.c:35-58 | an empty map if both allocations succeed, and null if and only if one fails |
| `HashTable.Table.Walk` | demo/src/core/ngx_hash.c:165-176 | the loop over a chain finds an entry with an equal key exactly if there is one |
| `HashTable.Table.Lookup` | demo/src/core/ngx_hash.c:156-179 | the value of the map for an equal key, or null |
| `HashTable.Table.MoveAll` | demo/src/core/ngx_hash.c:82-98 | the loops move every entry to its bucket of the new table and change no key and no value |
| `HashTable.Table.Enlarge` | demo/src/core/ngx_hash.c:60-103 | the map stays the same whether the allocation succeeds or not; the new table has the next size; if the allocation fails, nothing has changed |
| `HashTable.Table.Insert` | demo/src/core/ngx_hash.c:105-154 | the map with the value for all equal keys if the insertion succeeds, the old map if it fails; exactly when it fails, and exactly when and to which size the table grows; 3 * entries <= table size + 2 always |
| `Sha1Spec.RotlRotates` | demo/src/core/ngx_sha1.c:124 | the two shifts rotate a word, for the three amounts that occur |
| `Sha1Spec.HashAppend` | demo/src/core/ngx_sha1.c:173-285 | hashing blocks one after the other is hashing them all (section 6.1.2 of FIPS 180-4) |
| `Sha1Example.AbcDigest` | demo/src/core/ngx_sha1.c:19-117 | the digest of the message "abc" is the one that the standard gives, so that no definition shared by the standard and the code can be off |
| `Sha1Spec.ZeroBytesAreFewest` | demo/src/core/ngx_sha1.c:68-81 | the padding of section 5.1.1 of FIPS 180-4 has the fewest zero bytes that fill a block |
| `Sha1Spec.WordRoundTrip` | demo/src/core/ngx_sha1.c:95-114 | the bytes of a word, read back, are the word |
| `Sha1.F1IsCh` | demo/src/core/ngx_sha1.c:126 | the form with OR is the function Ch of section 4.1.1 of FIPS 180-4 |
| `Sha1.F3IsMaj` | demo/src/core/ngx_sha1.c:128 | the form with OR is the function Maj |
| `Sha1.Get` | demo/src/core/ngx_sha1.c:144-148 | the shifts read four bytes as one big-endian word |
| `Sha1.StepIsRound` | demo/src/core/ngx_sha1.c:130-136 | one use of the macro is one round of step 3 of section 6.1.2 |
| `Sha1.FillWords` | demo/src/core/ngx_sha1.c:180-189 | the array holds the message schedule |
| `Sha1.TwentySteps` | demo/src/core/ngx_sha1.c:191-275 | twenty uses of the macro with one function and one constant are the twenty rounds that the standard gives them |
| `Sha1.Transform` | demo/src/core/ngx_sha1.c:173-285 | one block: the hash value that section 6.1.2 computes |
| `Sha1.EightBytes` | demo/src/core/ngx_sha1.c:83-91 | the shifts of the length are its eight bytes, most significant first |
| `Sha1.PaddedSplits` | demo/src/core/ngx_sha1.c:68-93 | the one or two last blocks are the padded rest of the message |
| `Sha1.Context.Init` | demo/src/core/ngx_sha1.c:19-29 | the context stands for the empty message |
| `Sha1.Context.Body` | demo/src/core/ngx_sha1.c:156-294 | the hash value after all blocks of the data |
| `Sha1.Context.Update` | demo/src/core/ngx_sha1.c:32-60 | if the context stands for a message, it then stands for the message followed by the data; the buffer holds exactly the bytes after the last whole block |
| `Sha1.Context.Final` | demo/src/core/ngx_sha1.c:63-117 | the digest of section 6.1.2 of the whole message padded by section 5.1.1, and a cleared context |
| `Sha1.HashPieces` | demo/src/core/ngx_sha1.c:19-117 | however a message is cut into pieces, the digest is that of the whole |
| `Radix.LowDigits` | demo/src/core/ngx_sha1.c:83-91 | only the low digits of a number matter to its low bytes |
| `Radix.LengthWraps` | demo/src/core/ngx_sha1.c:38-91 | counting the bytes in 64 bits gives the eight length bytes of the exact count |
| `MessageRing.IdAtNext` | demo/src/os/unix/ngx_process_cycle.c:310-321 | publishing changes the slot of the new message only |
| `MessageRing.ReadsNewest` | demo/src/http/ngx_websocket.c:370 | a reader finds a newer id exactly if it has not read everything, and how many ids that one skips |
| `MessageRing.PublishOk` | demo/src/os/unix/ngx_process_cycle.c:310-321 | every slot holds the last message that went there, with its own text |
| `MessageRing.FinishSkips` | demo/src/http/ngx_websocket.c:392-393 | each message taken skips a multiple of 1024 ids, and none if and only if the producer is at most 1024 ahead |
| `MessageRing.PublishKeeps` | demo/src/os/unix/ngx_process_cycle.c:310-321 | what is known of a worker stays true when a message is published at any point of its loop |
| `MessageRing.ApplyOk` | demo/src/http/ngx_websocket.c:362-396 | every step of every process keeps the invariant |
| `MessageRing.Run` | demo/src/http/ngx_websocket.c:362-396 | the invariant holds after every interleaving of the steps of the producer and all workers |
| `MessageRing.TakenIncreases` | demo/src/http/ngx_websocket.c:392 | the ids a worker takes increase strictly |
| `MessageRing.RunIsSafe` | demo/src/http/ngx_websocket.c:362-396 | in every run: the position is the last id modulo 1024, ids increase strictly, every connection gets strictly increasing ids, and each with the text published under it |
| `MessageRing.NothingSkipped` | demo/src/http/ngx_websocket.c:362-396 | from any state in which it has taken everything, a worker takes every message if and only if it is at most 1024 behind whenever it finishes one |
| `MessageRing.NothingLost` | demo/src/http/ngx_websocket.c:362-396 | if one worker is never more than 1024 behind, whatever the others are, every connection that is in the channel whenever that worker looks has been sent every message up to the last one taken, each once, in order and with its own text, in the middle of the loop over the connections as well |
| `MessageRing.StartHasAll` | demo/src/http/ngx_websocket.c:33-44 | at the start nothing is missing, so both hold of every run |
| `MessageProcesses.Shared.constructor` | demo/src/core/ngx_cycle.c:128-139 | the records form a ring and nothing has been published |
| `MessageProcesses.Shared.PublishOne` | demo/src/os/unix/ngx_process_cycle.c:310-321 | the writes are the publishing step |
| `MessageProcesses.Reader.TakeOne` | demo/src/http/ngx_websocket.c:370-394 | one iteration is the step of beginning, those of sending to each connection, and that of finishing |
| `MessageProcesses.StepForward` | demo/src/http/ngx_websocket.c:370-394 | after one iteration the worker is less than 1024 behind, and the connections of channel 1 have got the message |
| `MessageProcesses.Reader.ProcessMessages` | demo/src/http/ngx_websocket.c:362-396 | while nothing is published the loop ends with everything read; the connections of channel 1 get all messages from the first one still in the ring on, in order, and the others none |
| `MessageProcesses.Amid.ProcessMessages` | demo/src/http/ngx_websocket.c:362-396 | with anything published between any two of its statements, the loop test included: what the loop does is a run of the steps above that sends each message to the connections of channel 1; it ends with everything read that has been published by then; every connection has got increasing ids with their own texts, and one that stayed in the channel of a worker that was never more than 1024 behind has got all messages |
| `HeaderStep.ScanSplits` | demo/src/http/ngx_http_parse.c:314-535 | stopping anywhere and going on is the same as not stopping |
| `HeaderStep.DoneKeepsHash` | demo/src/http/ngx_http_parse.c:546-551 | up to the end of the header the hash and the index stay those of the line before, which is why they need not be saved there |
| `HeaderStep.SplitIndependent` | demo/src/http/ngx_http_parse.c:287-552 | for all bytes and all cuts: the result code, the spans, the flag and the ring are those of one call, and for all but the error so is everything that is saved |
| `HeaderStep.ScanReadsOnly` | demo/src/http/ngx_http_parse.c:314-535 | what a call answers depends on the bytes between `pos` and `last` alone |
| `HeaderStep.FeedGoesOn` | demo/src/http/ngx_http_parse.c:537-542 | calls on a buffer that is filled up further each time, whatever it holds beyond, are the calls on what it holds in the end |
| `HeaderStep.InvalidShowsCut` | demo/src/http/ngx_http_parse.c:361-363 | for every list of cuts: on an error the request is that of a single call if and only if no call ended between where the bytes began and the bad byte, and if and only if its position is still where they began |
| `HeaderStep.InvalidDiffers` | demo/src/http/ngx_http_parse.c:428-430 | a line for which the saved state does depend on the cut |
| `HeaderLine.NotedCollects` | demo/src/http/ngx_http_parse.c:376-381 | one more byte goes into the hash, the ring and the index |
| `HeaderLine.NameGrows` | demo/src/http/ngx_http_parse.c:373-434 | the flag is set exactly if a byte of the name is not allowed, and otherwise hash and ring are those of the lower-case name |
| `HeaderLine.LowcaseIsLower` | demo/src/http/ngx_http_parse.c:304-312 | the table is not zero exactly for letters, digits and the dash, and there it agrees with the conversion of ngx_string.h |
| `HeaderLine.HashGrows` | demo/src/core/ngx_hash.h:8 | the macro, byte after byte, computes the bytes as a number to the base 31, modulo 2^64 |
| `HeaderGrammar.OneStep` | demo/src/http/ngx_http_parse.c:318-527 | every byte keeps what is known of the part of the line read so far |
| `HeaderGrammar.Sound` | demo/src/http/ngx_http_parse.c:287-552 | every answer is right: an accepted line has the form of a line with exactly these spans |
| `HeaderGrammar.Recognised` | demo/src/http/ngx_http_parse.c:287-552 | every line of that form is accepted, up to its LF and with its spans |
| `HeaderGrammar.AcceptsExactly` | demo/src/http/ngx_http_parse.c:287-552 | a line is accepted exactly if it has a form, and its spans are the only ones; the value neither begins nor ends with a space |
| `HeaderGrammar.DoneExactly` | demo/src/http/ngx_http_parse.c:329-335 | the end of the header is accepted exactly where there is an empty line |
| `HeaderParser.Request.ParseHeaderLine` | demo/src/http/ngx_http_parse.c:287-552 | the loop over the bytes, with its writes to the request, is the state machine; what it saves for each result code |
| `HeaderText.ParseAllSplits` | demo/src/http/ngx_http_request.c:382-511 | for a whole header: stopping anywhere, within a line or between two, and going on finds the same lines and the same answer |
| `HeaderText.LeadsGrows` | demo/src/http/ngx_http_request.c:382-400 | what the lines parsed so far say of the whole text stays true when more bytes come |
| `HeaderText.HeaderAccepted` | demo/src/http/ngx_http_request.c:402-493 | every text that is a sequence of lines and an empty line is accepted, and the lines listed are those with valid names |
| `HeaderText.OnlyHeadersAccepted` | demo/src/http/ngx_http_request.c:402-493 | no other text is |
| `HeaderText.HeadersExactly` | demo/src/http/ngx_http_request.c:382-511 | a header is accepted if and only if it consists of lines and an empty line, and then the lines listed are those with valid names, in their order, with their spans, hashes and rings |
| `HeaderText.ZeroByteStops` | demo/src/http/ngx_http_parse.c:345-490 | nothing is read past a zero byte |
| `HeaderText.ExampleParsed` | demo/src/http/ngx_http_request.c:382-511 | two lines in plain bytes are listed, with the place of each part, the hash of a name and its lower-case bytes |
| `HeaderParser.Request.ParseRaw` | demo/src/http/ngx_http_request.c:400 | the same on a buffer of which only the part not yet parsed is as it came |
| `HeaderRequest.FeedComplete` | demo/src/http/ngx_http_request.c:400-425 | for every list of cuts: an accepted line is complete, and hash, ring and index are those of its name |
| `HeaderRequest.HeadersIn.ReadMore` | demo/src/http/ngx_http_request.c:303-356 | bytes left over are parsed first; otherwise the buffer takes what has come, as far as there is room; it stops only if there is nothing to read or if the connection is closed or broken |
| `HeaderRequest.HeadersIn.ReadLine` | demo/src/http/ngx_http_request.c:382-400 | the loop up to the answer about one line, which is that of all bytes that have come; or up to a stop for its reason: the buffer is full, there is nothing to read, or the connection is closed or broken |
| `HeaderRequest.CopiedKey` | demo/src/http/ngx_http_request.c:443-444 | the length of the key equals the index if and only if the key is shorter than the ring, and then the ring is the key |
| `HeaderRequest.StrLow` | demo/src/core/ngx_string.c:10-19 | the lower-case copy |
| `HeaderRequest.HeadersIn.TakeHeader` | demo/src/http/ngx_http_request.c:421-448 | hash and lower-case key are those of the name whichever way the key is made; the NUL bytes written destroy neither name nor value nor anything outside the line; nothing is listed if an allocation fails |
| `HeaderRequest.HeadersIn.ProcessHeaders` | demo/src/http/ngx_http_request.c:361-516 | whatever the socket delivers, in whatever pieces and over however many calls of the handler: the list has exactly the headers of the bytes that have come, each with the hash and the lower-case key of its name and with name and value unharmed in the buffer; all bytes have been taken that there was room for; and it stops for the reason it gives: the header is complete, a line is bad, the buffer is full, the first answer of the allocator that was not good, nothing more to read, or the connection is closed |
| `HeaderRequest.HeadersIn.ReceiveAll` | demo/src/http/ngx_http_request.c:361-516 | if bytes arrive that fit, and there is memory, then the bytes alone decide: the header is finished if and only if they begin with one, and then its valid lines are the list |
| `PoolModel.AlignIsLeast` | demo/src/core/ngx_config.h:76-77 | aligning gives the least aligned address |
| `PoolModel.RoundPoolsOnly` | demo/src/core/ngx_palloc.c:84-121 | over all sequences of calls for memory that are served from a block: everything handed out ends inside the block, if and only if the size of the pool is a multiple of the alignment |
| `PoolModel.RequestPoolOverruns` | demo/src/core/ngx_palloc.c:100-113 | in a pool of 2018 bytes, 1954 bytes without alignment and then 8 bytes with alignment are both handed out, and the second allocation lies behind the end of the block |
| `PoolModel.BehindTheEndEverythingFits` | demo/src/core/ngx_palloc.c:110-111 | behind the end the unsigned subtraction lets every small size through |
| `PoolModel.FitsInside` | demo/src/core/ngx_palloc.c:105-111 | in a pool of round size the test means that the allocation stays inside its block |
| `PoolModel.FirstFit` | demo/src/core/ngx_palloc.c:100-118 | the first block from `current` on that has room |
| `PoolModel.FailedCounts` | demo/src/core/ngx_palloc.c:148-152 | the loop counts one failure for every block but the last and moves `current` behind the last one that had failed often |
| `PoolModel.ExtendedOk` | demo/src/core/ngx_palloc.c:123-157 | a new block keeps the chain well formed and holds the allocation |
| `PoolModel.ExtendedNeverReset` | demo/src/core/ngx_palloc.c:148-154 | in a pool that has never been reset the failure counts are a function of the number of blocks |
| `PoolModel.SearchIsShort` | demo/src/core/ngx_palloc.c:94-157 | so `current` is the first block with at most 5 failures, the counts never grow along the chain, and a search visits at most 7 blocks |
| `PoolModel.TakenRegions` | demo/src/core/ngx_palloc.c:94-121 | an allocation in a block overlaps no other, lies behind the header and before `last`, and is aligned if asked for |
| `PoolModel.ExtendedRegions` | demo/src/core/ngx_palloc.c:123-157 | so does one in a new block |
| `PoolModel.GapIsSmall` | demo/src/core/ngx_palloc.c:105-108 | an allocation begins where the block is filled up to, or at the first aligned address behind it |
| `PoolModel.TakenNoWaste` | demo/src/core/ngx_palloc.c:110-113 | and the block is then filled up to its end and no further |
| `PoolModel.ExtendedNoWaste` | demo/src/core/ngx_palloc.c:138-146 | so is a new block |
| `PoolModel.NextIsServed` | demo/src/core/ngx_palloc.c:138-154 | a request that fits behind the first allocation of a new block is served from the blocks |
| `PoolModel.ThreeRequests` | demo/src/core/ngx_palloc.c:84-157 | three requests to a pool of 1024 bytes, and the addresses they get |
| `PoolModel.HoldingsApart` | demo/src/core/ngx_palloc.c:84-195 | no two live allocations of a pool overlap, small or large |
| `PoolModel.StillBlock` | demo/src/core/ngx_palloc.c:51-58 | a block is still there when the loop that frees the blocks reads it |
| `PoolModel.WidenedOk` | demo/src/core/ngx_array.c:62-71 | the last allocation of the first block can grow in place without overlapping any other |
| `PoolModel.EndsFirstBlock` | demo/src/core/ngx_array.c:62 | an allocation in the blocks that ends where the first block is filled up to lies in the first block |
| `PoolModel.LargeElsewhere` | demo/src/core/ngx_array.c:62 | a large allocation never ends there |
| `Pool.CreatePool` | demo/src/core/ngx_palloc.c:9-35 | for every size that holds the header: a sound pool of one block, with nothing handed out |
| `Pool.Pool.Search` | demo/src/core/ngx_palloc.c:100-118 | the walk takes the room of the first block that fits |
| `Pool.Pool.CountFailures` | demo/src/core/ngx_palloc.c:148-152 | the loop over the live blocks |
| `Pool.Pool.PallocSmall` | demo/src/core/ngx_palloc.c:94-121 | the address, the chain and the heap after a small allocation, by way of the search or of a new block |
| `Pool.Pool.Palloc` | demo/src/core/ngx_palloc.c:84-92 | the pool stays sound; memory is refused exactly if no block has room and the library refuses what is needed; otherwise one aligned allocation is added, and the chain, the heap and the list change as the place of it demands; what others have of the heap stays |
| `Pool.Pool.Pnalloc` | demo/src/core/ngx_palloc.c:210-218 | the same without alignment |
| `Pool.Pool.PallocLarge` | demo/src/core/ngx_palloc.c:159-195 | a large allocation is on the list, in a node inside a block, and the heap has nothing new but it and the block the node may need; exactly if there is no room for the node, it is freed again and nothing has changed |
| `Pool.Pool.Pfree` | demo/src/core/ngx_palloc.c:220-237 | OK exactly if the list has the address; that allocation is freed and off the list, and nothing else |
| `Pool.Pool.FreeLarges` | demo/src/core/ngx_palloc.c:44-49 | the loop frees every large allocation of the list once, while all blocks are there |
| `Pool.Pool.ResetPool` | demo/src/core/ngx_palloc.c:61-82 | all large allocations are freed, all blocks are kept, and all of every block can be had again: the search begins at the first block and finds room there for the largest small size |
| `Pool.Pool.Destroy` | demo/src/core/ngx_palloc.c:37-59 | exactly what the pool owns is freed, each block and each large allocation once; what others have is what remains |
| `Pool.Pool.Serve` | demo/src/core/ngx_palloc.c:84-218 | a request of any size changes the pool as a value, and returns the address, as `PoolModel.Called` says |
| `Pool.Pool.Run` | demo/src/core/ngx_palloc.c:61-237 | over every run of allocations of any size, with and without alignment, of pfree and of reset: the addresses returned and the pool as a value are those of the calls one after the other; the pool is sound, and what others have of the heap has not changed |
| `Pool.Lifetime` | demo/src/core/ngx_palloc.c:9-237 | a pool is created, used in any such run and destroyed: the heap is what it was before, so everything taken has been freed, once, and nothing else |
| `PoolArray.TotalIsProduct` | demo/src/core/ngx_array.c:58 | the size of n elements is the product that the code computes |
| `PoolArray.Array.Init` | demo/src/core/ngx_array.h:31-50 | the whole capacity is one live allocation of the pool, a capacity of zero included |
| `PoolArray.Array.GrowInPlace` | demo/src/core/ngx_array.c:62-71 | the allocation of the array grows, all others stay |
| `PoolArray.Array.Relocate` | demo/src/core/ngx_array.c:73-84 | the elements move to an allocation that does not overlap the old one, and keep their bytes |
| `PoolArray.Array.Push` | demo/src/core/ngx_array.c:47-91 | the bytes of all earlier elements and all other memory stay; it fails exactly if the pool has no memory for twice the capacity and the array cannot grow in place, and then nothing has changed; the new capacity; the new element lies inside it if and only if the array had a capacity or could grow in place |
| `PoolArray.Array.PushN` | demo/src/core/ngx_array.c:94-141 | the same for several elements |
| `Connections.FreePrepended` | demo/src/event/ngx_event.c:126-138 | the loop links all slots in their order |
| `Connections.Cycle.Start` | demo/src/event/ngx_event.c:126-141 | all slots are free and the invariant holds |
| `Connections.NewTable` | demo/src/event/ngx_event.c:92-141 | for every positive number of slots, a table that meets all this is built from nothing |
| `Connections.Cycle.FreeConnection` | demo/src/core/ngx_connection.c:358-368 | the slot is the first of the free list, the rest of which stays |
| `Connections.Cycle.ReusableConnection` | demo/src/core/ngx_connection.c:483-501 | the slot leaves the queue, and is its first member again if asked for; the counter is the length |
| `Connections.Cycle.PostEvent` | demo/src/event/ngx_event_posted.h:8-20 | the event is at the end of the queue unless it was posted before, and then nothing changes |
| `Connections.Cycle.DeletePostedEvent` | demo/src/event/ngx_event_posted.h:22-28 | the event leaves the one queue that it is in |
| `Connections.Cycle.Detach` | demo/src/core/ngx_connection.c:382-416 | after the close path neither event is in the timer tree or in a queue of posted events, and the slot is in no queue |
| `Connections.Cycle.CloseConnection` | demo/src/core/ngx_connection.c:370-447 | the table is then `TableModel.Closed`: the slot is the first free one, it and its events are in no queue and have no timer, and all others are as before; closing it again changes nothing |
| `Connections.Cycle.ClearEvent` | demo/src/core/ngx_connection.c:316-317 | an event of a free slot is cleared, with its link and its node, without harm to any queue or tree |
| `Connections.Cycle.TakeSlot` | demo/src/core/ngx_connection.c:297-330 | the first free slot is open, its events are new and their instance bit has flipped; all other slots and events are as before |
| `Connections.Cycle.LastReusable` | demo/src/core/ngx_connection.c:343-348 | the slot that is drained is open and was the first to become reusable |
| `Connections.Cycle.TakeTimerStep` | demo/src/event/ngx_event_timer.h:50-87 | in the table: a deadline near the one asked for stays, otherwise the event goes behind all that do not come later |
| `Connections.Cycle.Drain` | demo/src/core/ngx_connection.c:333-356 | up to the number of slots that the code computes, the slot that became reusable first is marked and then its handler is called, until no slot is reusable |
| `Connections.Cycle.GetConnection` | demo/src/core/ngx_connection.c:265-331 | if a slot is free it is taken without draining; otherwise draining comes first, with the handlers it calls, and then the first free slot is taken, if there is one; the slot returned is that one |
| `TableModel.FullTableServes` | demo/src/core/ngx_connection.c:283-297 | in a full table, if the slot that became reusable first closes when it is asked to, it is the one that is taken |
| `TableModel.FullTableRefuses` | demo/src/core/ngx_connection.c:283-295 | in a full table, if no handler closes a slot, none is taken |
| `TableModel.OldestLast` | demo/src/core/ngx_connection.c:483-501 | the slot that is drained next is the one that has been reusable for the longest time |
| `TableModel.OneOfEight` | demo/src/core/ngx_connection.c:340 | at least one slot is asked to close, at most 32, and otherwise one for every eight reusable slots |
| `TableModel.OldestFirst` | demo/src/event/ngx_event_posted.h:8-20 | the event that is handled next is the one that was posted first |
| `Connections.Cycle.NextPosted` | demo/src/event/ngx_event_posted.c:14-22 | the first event of the queue leaves it before its handler is called, and the others stay |
| `Connections.Cycle.ProcessPosted` | demo/src/event/ngx_event_posted.c:14-26 | one event after the other leaves the queue and then its handler is called, until the queue is empty, those posted meanwhile included; whatever the handlers do to the table, the timers and the queue |
| `TableModel.PostedIsHandled` | demo/src/event/ngx_event_posted.c:22-24 | so the handler of a posted event runs: if it closes a connection, that is closed |
| `Connections.Cycle.NextExpired` | demo/src/event/ngx_event_timer.c:62-92 | an event is due exactly if the first deadline has come; it leaves the tree and is marked before its handler is called, and the invariant of the table holds then |
| `Connections.Cycle.Expire` | demo/src/event/ngx_event_timer.c:53-96 | one event after the other that is due leaves the tree and then its handler is called, until no deadline is due; whatever the handlers do to the table and the timers |
| `TableModel.DueIsHandled` | demo/src/event/ngx_event_timer.c:62-94 | so the handler of an event that is due runs |
| `Connections.Cycle.Take` | demo/src/core/ngx_connection.c:265-501 | every kind of step does to the table what `TableModel.Did` says |
| `Connections.Cycle.Run` | demo/src/core/ngx_connection.c:265-501 | over every run of steps, the clock moving, timers expiring and the steps of handlers called from within steps included: the table is the one that the steps make of it, every slot is open or on the free list once, the counters are the lengths, and a free slot is in no queue and none of its events in any queue or tree |

## Left out

- Sockets, epoll, fork, signals, logging and process titles: kernel calls without a hard property; where a core needs their results they are parameters.
- `ngx_http_parse_request_line` and the parser of redis messages: they look ahead past the bytes received, so they are not resumable in the sense proved here.
- What handlers do to memory other than the connection table, and connections destroyed while a message is delivered to them: abstract.
- Formatting, base64, the frame encoder, `ngx_list`, `ngx_buf`, the clock slots: they would only add easy members.
- Overflow of machine words where the code relies on its absence: `entries * 3` and `entries * 10` in the hash table, `n * size` in the array, the message ids, the indices of the ring.
- Subtracting `offsetof` to get from a link or a node to the object around it: maps from links and nodes to their objects stand for it (`Timers.eventOf`, `Connections.Cycle.connectionOf`).
- `RbTree.Tree.FindPlace`: one method stands for `ngx_rbtree_insert_value` and `ngx_rbtree_insert_timer_value`, which differ only in the comparison.
- `RbTree.Tree.Delete`: the three situations of the C function are three methods, and the branch for a successor with a left child is left out because it is never taken.
- `Timers.Timers.ExpireTimers`: handlers that change timers are those of `Connections.Cycle.Expire`.
- `Queue.Remove`: the version without `NGX_DEBUG`, which leaves the links of the removed element as they are.
- `QueueSort.Sort`: the comparison does not read the links.
- `HashTable.Table.Walk`: the two loops call the comparison with its arguments in opposite orders; one method stands for both, which is the same for a symmetric comparison.
- `HashTable.Table.Enlarge`: the memory of the old table is not modelled, so neither is freeing it.
- `Sha1.TwentySteps`: the eighty uses of the macro are written out in C and are four loops of twenty here.
- `Sha1.Context.Final`: `Digest` is defined for all lengths by the low 64 bits of the length; the standard covers messages of fewer than 2^61 bytes.
- `MessageRing.Run`: publishing a record is one step, as if the lock that the code marks as missing were there; reading id, channel and text is one step per statement.
- `HeaderRequest.HeadersIn.ProcessHeaders`: time-outs, the length of the request, and what is done with a complete header are left out; the answers of `recv` and of the allocator are parameters.
- `MessageProcesses.Reader.ProcessMessages`: exactly what each connection gets is said for a producer that is silent meanwhile; the same loop with a producer that is not is `MessageProcesses.Amid.ProcessMessages`. Partial sends and messages of length zero are left out.
- `HeaderRequest.HeadersIn.TakeHeader`: the comparisons with names of headers that follow are left out; the list is a sequence, without an element that is pushed before the memory for its key is refused.
- `HeaderStep.Step`: the state that ignores a line is modelled but never entered, as in the code.
- `Pool.Pool.Palloc`: `ngx_pcalloc` is not a member of its own; clearing the memory is left out. The part of the heap that other users hold is an arbitrary map that does not change.
- `PoolArray.Array.Init`: the memory for the array's own structure, and `ngx_array_destroy`, are left out; elements have a positive size.
- `Connections.Cycle.GetConnection`: the table `files` is NULL, as nothing in the program sets it; it is not claimed that draining frees a slot.
- `Connections.Cycle.Expire`: of the handlers finitely many do something, as for `Connections.Cycle.ProcessPosted`; with others the loops of the code need not end.
- `TableModel.PlaceFor`: where a timer goes that is set while the pending deadlines do not lie in order within half of the clock's circle around the present time is left open.
- `Connections.Cycle.CloseConnection`: the calls to epoll and to close the socket are left out.
