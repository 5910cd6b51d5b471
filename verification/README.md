# Verified models of libuv and its SOCKS5 proxy

Dafny models of the data structures and protocols at the bottom of libuv 1.x, and of the relay and parser of the
SOCKS5 proxy that comes with it, with proofs of what their comments and tests promise.

| files | subject |
|---|---|
| `RedBlack*.dfy` | the red-black tree of `tree.h`: linked nodes, colour repair, search, height |
| `Splay*.dfy` | the top-down splay tree of `tree.h` and its amortised cost |
| `Heap*.dfy` | the pointer heap of `heap-inl.h` |
| `ThreadPool*.dfy` | the thread pool as a protocol of critical sections, waits and callbacks: cancels, order, and why it comes to rest |
| `Queue.dfy`, `AsyncLines.dfy`, `AsyncScan.dfy`, `AsyncDrain.dfy` | circular lists and the scan of async handles |
| `Async.dfy`, `AsyncLive.dfy` | the wake-up protocol, and why every send is heard |
| `Inet4.dfy`, `Inet6*.dfy` | printing and parsing of addresses, which texts are addresses, and what the printed ones look like |
| `IoWatchers.dfy`, `Words.dfy` | the table of I/O watchers, and the power of two that sizes it |
| `ProxyRelay.dfy`, `Socks5.dfy`, `Socks5Format.dfy` | the relay phase of a proxy session with its teardown, and the request parser |
| `Basics.dfy`, `Lists.dfy`, `Listings.dfy`, `Powers.dfy` | shared types, sequences, sorted listings, powers of two |

`dafny verify dfyconfig.toml` checks everything.

## How to read it

Linked structures are classes whose methods assign the same fields in the same order as the source. Beside the real
fields each tree keeps a ghost value of itself (`Graph`, `Forest`), which `Models()` ties to the fields of every node;
each pointer operation is a function on that value, and the invariants are proved about those functions one node at a
time. The heap keeps the sequence of its rows instead, so that slot `p` has the kids `2p` and `2p + 1`.

The mirrored branches of `tree.h` (left for right) are written once with a parameter of type `Side`; the rotations
and links themselves are written out for both sides. Nodes are compared by an integer key. For the trees the
comparison is a total order on nodes, as set semantics needs; in the heap different nodes may have equal keys, so that
every strict weak order on the nodes is covered.

The thread pool and the async wake-up are state machines: an event is one critical section, one wait or wake-up, one
system call, or one callback, and the theorems are about all sequences of events. In `ThreadPool`, `late` marks a
request posted after the exit message, which the workers never take. Compare-and-swap is one step. A callback in
`AsyncDrain` is a sequence of arbitrary choices to open, close and signal handles; a scan returns a trace of the
handles examined, each with what its callback did. In `ProxyRelay` an event is one callback with its arguments;
`Possible` says when the event loop may make it, and `Run` makes the events of any sequence in turn, up to the first
that is not possible. A failed assertion ends the run and sets `aborted`.

The cost of splaying is counted in rounds of its loop. The weight of a tree is the product of the sizes of all its
subtrees; its logarithm is the usual potential, so that adding costs becomes multiplying weights.

Words of 32 bits are numbers with the wrap-around written out; `Or` and `Shr` in `Words` are the bit operations of
`next_power_of_two`. Event masks and authentication methods are sets of flags.

## What the proofs turned up

- `IoWatchers.Loop.Start`: for the descriptor `INT_MAX - 1`, which the assertions of `uv__io_start` allow, the
  power of two wraps to 0 and the block that is asked for has no slots (`StartAtTop`), so that the source aborts or
  writes outside it; for every other one the table fits.
- `Socks5.RequestIff`: a host name of length 0 makes the parser take the first byte of the port for an address byte,
  so that the request is not recognised at its end. `Socks5.GreetingIff` and `Socks5.PasswordIff` say the same of a
  greeting without methods and of an empty user name or password; `Socks5Format` has the exact byte at which each ends.
- `ProxyRelay.Client.Fire`: the idle timers already run while the reply to the client is written; if one expires
  before, `do_next` enters `do_proxy_start` and its assertion about the write state fails (`ExpiredAtOnce`). No other
  first callback fails it.
- `inet.c` line 131 also tests for a run of seven words at word 6; that word is then inside the run, so the test never
  succeeds there. The branch `child == heap->min` after unlinking in `heap-inl.h` and the test `w->events == 0` in the
  early return of `uv__io_start` never change anything either.

## Model

| member | source | states |
|---|---|---|
| `RedBlackTree.Head.Insert` | src/libuv_works/libuv/libuv-1.x/include/tree.h:598-626 | A node with an equal key is returned and nothing changes, the new node neither; otherwise the tree stays a valid red-black tree whose in-order listing is the old one with the new node put in |
| `RedBlackTree.Head.Remove` | src/libuv_works/libuv/libuv-1.x/include/tree.h:530-595 | Removing any member leaves a valid red-black tree (order, no red below red, equal black heights, black root, consistent parent links) whose in-order listing is the old one without exactly that node |
| `RedBlackTree.Head.InsertColor` | src/libuv_works/libuv/libuv-1.x/include/tree.h:407-449 | From a tree whose only fault is one red node below a red parent, the repair loop ends in a valid tree of the same nodes; the grandparent it reads is always there |
| `RedBlackTree.Head.RemoveColor` | src/libuv_works/libuv/libuv-1.x/include/tree.h:451-528 | From a tree with one subtree a black node short, the loop ends in a valid tree of the same nodes; the sibling it reads is always there |
| `RedBlackTree.Head.RotateLeft` | src/libuv_works/libuv/libuv-1.x/include/tree.h:342-360 | Every link a left rotation changes, parent links and root included |
| `RedBlackTree.Head.RotateRight` | src/libuv_works/libuv/libuv-1.x/include/tree.h:362-380 | Every link a right rotation changes, parent links and root included |
| `RedBlackTree.Head.Find` | src/libuv_works/libuv/libuv-1.x/include/tree.h:629-644 | The node with the key, or nothing if and only if there is none; the number of steps k is the length of the search path, and 2^k is at most (n + 1)^2 |
| `RedBlackTree.Head.NFind` | src/libuv_works/libuv/libuv-1.x/include/tree.h:647-665 | The least node that is not below the key, or nothing if and only if there is none; the steps are those of the same path |
| `RedBlackTree.Head.MinMax` | src/libuv_works/libuv/libuv-1.x/include/tree.h:711-724 | The first or the last node, nothing only for the empty tree |
| `RedBlackTree.Head.Next` | src/libuv_works/libuv/libuv-1.x/include/tree.h:668-687 | The least node above the given one, found over links only, or nothing if there is none |
| `RedBlackTree.Head.Prev` | src/libuv_works/libuv/libuv-1.x/include/tree.h:690-709 | The greatest node below the given one, or nothing if there is none |
| `RedBlackTree.Head.Foreach` | src/libuv_works/libuv/libuv-1.x/include/tree.h:738-741 | First node and repeated next visit exactly the in-order listing |
| `RedBlackOrder.PrevUndoesNext` | src/libuv_works/libuv/libuv-1.x/include/tree.h:668-709 | Going to the next node and back again ends at the starting node |
| `RedBlackOrder.NextInOrder` | src/libuv_works/libuv/libuv-1.x/include/tree.h:668-687 | The next node by key is the neighbour in the in-order listing |
| `RedBlackOrder.HeightBound` | src/libuv_works/libuv/libuv-1.x/include/tree.h:53-61 | The height h of a valid tree of n nodes has 2^h at most (n + 1)^2 |
| `RedBlackOrder.BlackHeight` | src/libuv_works/libuv/libuv-1.x/include/tree.h:53-61 | The height is at most twice the black height, one more below a red top; a subtree holds at least 2^bh - 1 nodes |
| `RedBlackOrder.InOrderSorted` | src/libuv_works/libuv/libuv-1.x/include/tree.h:738-741 | The in-order walk lists exactly the nodes of a subtree in ascending order |
| `RedBlackOrder.SameButOne` | src/libuv_works/libuv/libuv-1.x/include/tree.h:530-626 | Two valid trees whose nodes differ in one list the others in the same order |
| `RedBlackGraph.RotShape` | src/libuv_works/libuv/libuv-1.x/include/tree.h:342-380 | A rotation keeps links, parent links, key order and the set of nodes |
| `RedBlackGraph.RotColours` | src/libuv_works/libuv/libuv-1.x/include/tree.h:342-380 | What a rotation does to black heights and neighbouring reds, node by node, both ways |
| `RedBlackInsertion.RecolouredFault` | src/libuv_works/libuv/libuv-1.x/include/tree.h:415-421 | With a red uncle the fault moves to the grandparent |
| `RedBlackInsertion.StraightenedFault` | src/libuv_works/libuv/libuv-1.x/include/tree.h:422-427 | The inner rotation keeps the fault and turns it outwards |
| `RedBlackInsertion.OuterSettled` | src/libuv_works/libuv/libuv-1.x/include/tree.h:428-429 | Recolouring and the outer rotation remove the fault |
| `RedBlackInsertion.BlackRoot` | src/libuv_works/libuv/libuv-1.x/include/tree.h:448-448 | Painting the root black ends the repair |
| `RedBlackInsertion.AttachFault` | src/libuv_works/libuv/libuv-1.x/include/tree.h:598-626 | A red leaf in the slot the search found is the only possible fault |
| `RedBlackRemoval.SiblingSite` | src/libuv_works/libuv/libuv-1.x/include/tree.h:458-459 | Next to a subtree that is one black node short there is a sibling |
| `RedBlackRemoval.RedSibDeficit` | src/libuv_works/libuv/libuv-1.x/include/tree.h:460-464 | A red sibling is rotated away; the same subtree is short below a red parent |
| `RedBlackRemoval.LiftedDeficit` | src/libuv_works/libuv/libuv-1.x/include/tree.h:465-471 | With black nephews the shortage moves up to the parent |
| `RedBlackRemoval.InnerDeficit` | src/libuv_works/libuv/libuv-1.x/include/tree.h:473-482 | A red inner nephew is rotated to the outside |
| `RedBlackRemoval.OuterRedSettled` | src/libuv_works/libuv/libuv-1.x/include/tree.h:483-489 | With a red outer nephew one rotation ends the shortage |
| `RedBlackRemoval.BlackEnd` | src/libuv_works/libuv/libuv-1.x/include/tree.h:526-527 | Painting the short subtree black ends the repair |
| `RedBlackSplice.BypassShape` | src/libuv_works/libuv/libuv-1.x/include/tree.h:579-590 | A node with at most one kid is replaced by that kid: shape and order of the rest stay |
| `RedBlackSplice.BypassBlack` | src/libuv_works/libuv/libuv-1.x/include/tree.h:579-593 | If the removed node was black, exactly its place is one black node short |
| `RedBlackSplice.SucceedShape` | src/libuv_works/libuv/libuv-1.x/include/tree.h:541-577 | A node with two kids hands its place to its successor: shape and order of the rest stay |
| `RedBlackSplice.SucceedBlack` | src/libuv_works/libuv/libuv-1.x/include/tree.h:541-593 | If the successor was black, exactly the place it left is one black node short |
| `RedBlackTree.Head.FindSuccessor` | src/libuv_works/libuv/libuv-1.x/include/tree.h:541-543 | The leftmost node of the right subtree is the successor |
| `RedBlackTree.Head.RemoveInner` | src/libuv_works/libuv/libuv-1.x/include/tree.h:539-577 | The branch for two kids, repair included |
| `RedBlackTree.Head.RemoveLeaf` | src/libuv_works/libuv/libuv-1.x/include/tree.h:579-593 | The branches for at most one kid, repair included |
| `SplayTree.Head.Splay` | src/libuv_works/libuv/libuv-1.x/include/tree.h:209-242 | Ends for every key, keeps the in-order listing, and leaves at the root the node with the key if there is one and otherwise a neighbour of the key; the tree and the number of rounds are those of the splay as a function on trees |
| `SplayTree.Head.Insert` | src/libuv_works/libuv/libuv-1.x/include/tree.h:164-186 | Set insertion: an equal node is returned and the listing stays, or the new node becomes the root and is put into the listing; tree and rounds are those of the operation as a function on trees |
| `SplayTree.Head.Remove` | src/libuv_works/libuv/libuv-1.x/include/tree.h:188-207 | Set removal by key: exactly the node with the key goes from the listing, or nothing is found and the listing stays; tree and rounds, those of both splays, are those of the operation as a function on trees |
| `SplayTree.Head.MinMax` | src/libuv_works/libuv/libuv-1.x/include/tree.h:247-278 | The least or the greatest node comes to the root, the listing stays; tree and rounds are those of a splay towards a key beyond all others |
| `SplayTree.Head.Find` | src/libuv_works/libuv/libuv-1.x/include/tree.h:128-137 | The node with the key, now at the root, or nothing if and only if there is none; tree and rounds are those of the operation as a function on trees |
| `SplayTree.Head.Next` | src/libuv_works/libuv/libuv-1.x/include/tree.h:139-151 | The least node above the given one, which comes to the root; tree and rounds are those of a splay towards it |
| `SplayTree.Head.Round` | src/libuv_works/libuv/libuv-1.x/include/tree.h:218-239 | One round of the loop: the tree taken apart stays sound and what is left to search shrinks |
| `SplayTree.Head.Assemble` | src/libuv_works/libuv/libuv-1.x/include/tree.h:112-117 | The two flanks and the middle become one valid tree of the same nodes |
| `SplayTree.Head.Turn` | src/libuv_works/libuv/libuv-1.x/include/tree.h:88-98 | A rotation at the root of the middle tree |
| `SplayTree.Head.LinkLeft` | src/libuv_works/libuv/libuv-1.x/include/tree.h:100-104 | The root goes to the right flank |
| `SplayTree.Head.LinkRight` | src/libuv_works/libuv/libuv-1.x/include/tree.h:106-110 | The root goes to the left flank |
| `SplayParts.TurnGood` | src/libuv_works/libuv/libuv-1.x/include/tree.h:88-98 | A rotation keeps the tree taken apart sound |
| `SplayParts.StepGood` | src/libuv_works/libuv/libuv-1.x/include/tree.h:100-110 | Moving the root to a flank keeps the tree taken apart sound and makes the middle smaller |
| `SplayParts.AssembledGood` | src/libuv_works/libuv/libuv-1.x/include/tree.h:112-117 | Putting the parts together gives one tree of all nodes with the middle root on top |
| `SplayParts.Nearest` | src/libuv_works/libuv/libuv-1.x/include/tree.h:218-237 | Where the way towards the key ends no node lies between the root and the key |
| `SplayOrder.SameListing` | src/libuv_works/libuv/libuv-1.x/include/tree.h:209-242 | Search trees of the same nodes have the same in-order listing |
| `SplayOrder.CrownedShape` | src/libuv_works/libuv/libuv-1.x/include/tree.h:171-181 | A new root splits the splayed tree |
| `SplayOrder.BeheadedShape` | src/libuv_works/libuv/libuv-1.x/include/tree.h:198-202 | The splayed left subtree has a free right link and takes over the right subtree |
| `SplayTree.Head.Serve` | src/libuv_works/libuv/libuv-1.x/include/tree.h:46-51 | Any m insertions, removals and searches, n of them insertions, made one after the other from the empty tree on: the tree is the one the operations give, and their rounds, counted exactly, are at most m * (4 + 6 * lg (n + 1)) in all, the logarithm rounded up: the bound of the Balance Theorem with its constant |
| `SplayTree.Head.PerformAll` | src/libuv_works/libuv/libuv-1.x/include/tree.h:46-51 | The tree and the number of rounds after a sequence of operations are those of the operations as functions on trees |
| `SplayCost.Amortised` | src/libuv_works/libuv/libuv-1.x/include/tree.h:46-51 | For all sequences of operations on trees: the rounds in all are at most m * (4 + 6 * lg (n + 1)) |
| `SplayCost.AllCovered` | src/libuv_works/libuv/libuv-1.x/include/tree.h:46-51 | Two to the rounds of a sequence, times the weight it leaves, is at most a price to the power of m times the weight it finds |
| `SplayCost.OneCovered` | src/libuv_works/libuv/libuv-1.x/include/tree.h:164-207 | The rounds of one insertion, removal or search and the weight it leaves are covered by the weight it finds |
| `SplayCost.SplayPaid` | src/libuv_works/libuv/libuv-1.x/include/tree.h:46-51 | However unbalanced the tree of n nodes: 2^rounds times the product of the subtree sizes afterwards is at most 4 n^3 times that product before |
| `SplayCost.SearchPaid` | src/libuv_works/libuv/libuv-1.x/include/tree.h:218-239 | The same for the search alone, by induction over pairs of rounds |
| `SplayCost.PairPaid` | src/libuv_works/libuv/libuv-1.x/include/tree.h:219-224 | A rotation with its link is paid from the sizes of the turned node and of what is left to search |
| `SplayCost.FlanksPaid` | src/libuv_works/libuv/libuv-1.x/include/tree.h:218-239 | Two nodes linked to different flanks are paid from the sizes the flanks will have |
| `SplayRefines.SearchedPair` | src/libuv_works/libuv/libuv-1.x/include/tree.h:219-225 | A round with a rotation is one step of the splay as a function on trees |
| `SplayRefines.SearchedSingle` | src/libuv_works/libuv/libuv-1.x/include/tree.h:225-225 | A round without a rotation is one too |
| `SplayRefines.AssembledTree` | src/libuv_works/libuv/libuv-1.x/include/tree.h:112-117 | The assembled tree is the one the function gives |
| `SplayRefines.CrownedTree` | src/libuv_works/libuv/libuv-1.x/include/tree.h:171-181 | The tree after an insertion, as a function of the splayed one |
| `SplayRefines.BeheadedTree` | src/libuv_works/libuv/libuv-1.x/include/tree.h:198-202 | The tree after a removal, as a function of both splayed ones |
| `Heap.MinHeap.Insert` | src/libuv_works/libuv/libuv-1.x/src/heap-inl.h:106-148 | The complete-tree shape, the links and the min order stay, and the nodes are the old ones and the new one |
| `Heap.MinHeap.Remove` | src/libuv_works/libuv/libuv-1.x/src/heap-inl.h:150-237 | Removal of any member keeps shape, links and min order, and the nodes are the old ones without that one; nothing is assumed about the replacement |
| `Heap.MinHeap.Dequeue` | src/libuv_works/libuv/libuv-1.x/src/heap-inl.h:239-241 | The node taken out is a least one |
| `Heap.MinHeap.Min` | src/libuv_works/libuv/libuv-1.x/src/heap-inl.h:67-69 | A least node, or nothing if and only if the heap is empty |
| `Heap.MinHeap.LeastFirst` | src/libuv_works/libuv/libuv-1.x/src/heap-inl.h:67-69 | After any run of inserts and removes the first node is a least one |
| `Heap.MinHeap.NodeSwap` | src/libuv_works/libuv/libuv-1.x/src/heap-inl.h:72-104 | Parent and kid change their slots, all links follow |
| `Heap.MinHeap.Relink` | src/libuv_works/libuv/libuv-1.x/src/heap-inl.h:72-104 | Every link the swap changes |
| `HeapShape.PathTo` | src/libuv_works/libuv/libuv-1.x/src/heap-inl.h:119-124 | The path bits lead from the root to the given slot in as many steps as there are rows below the first, and fit a 32-bit word |
| `Heap.MinHeap.Locate` | src/libuv_works/libuv/libuv-1.x/src/heap-inl.h:126-136 | Following the path bits ends at the slot of the given number and the one above it |
| `Heap.MinHeap.SiftUp` | src/libuv_works/libuv/libuv-1.x/src/heap-inl.h:143-147 | From one node that may come before its parent to the min order |
| `Heap.MinHeap.SiftDown` | src/libuv_works/libuv/libuv-1.x/src/heap-inl.h:216-229 | From one node out of order to one that may only come before its parent; ends |
| `Heap.MinHeap.UnlinkLast` | src/libuv_works/libuv/libuv-1.x/src/heap-inl.h:163-185 | The last slot is emptied and its node returned |
| `Heap.MinHeap.TakePlace` | src/libuv_works/libuv/libuv-1.x/src/heap-inl.h:195-214 | The last node takes over the slot of the removed one |
| `HeapShape.Rise` | src/libuv_works/libuv/libuv-1.x/src/heap-inl.h:146-147 | One swap towards the root moves the only fault up |
| `HeapShape.Sink` | src/libuv_works/libuv/libuv-1.x/src/heap-inl.h:220-229 | One swap with the smallest kid moves the only fault down |
| `HeapShape.FirstLeast` | src/libuv_works/libuv/libuv-1.x/src/heap-inl.h:67-69 | In min order the first slot holds a least node |
| `HeapShape.Replaced` | src/libuv_works/libuv/libuv-1.x/src/heap-inl.h:195-229 | Any node in place of a removed one leaves the rest in order |
| `ThreadPoolRuns.Safe` | src/libuv_works/libuv/libuv-1.x/src/threadpool.c:64-238 | Every state of every interleaving of submitters, workers, cancels and loop callbacks satisfies the invariant |
| `ThreadPoolSteps.InvKept` | src/libuv_works/libuv/libuv-1.x/src/threadpool.c:64-238 | Every single step keeps the invariant |
| `ThreadPoolRuns.OnePlace` | src/libuv_works/libuv/libuv-1.x/src/threadpool.c:64-238 | A request is in exactly one of: global queue, a worker, being cancelled, loop queue, local batch, delivered |
| `ThreadPoolRuns.DoneOnce` | src/libuv_works/libuv/libuv-1.x/src/threadpool.c:218-238 | The done callback runs at most once; with UV_ECANCELED only when the work never ran, with success only after it ran exactly once |
| `ThreadPoolRuns.CancelledIff` | src/libuv_works/libuv/libuv-1.x/src/threadpool.c:192-215 | A request counts as cancelled if and only if some cancel of it succeeded earlier in the run |
| `ThreadPoolCancel.CancelIff` | src/libuv_works/libuv/libuv-1.x/src/threadpool.c:192-215 | A cancel succeeds if and only if no worker holds the request and its work has not run, so that the request is still in the global queue or was cancelled before; otherwise it changes nothing |
| `ThreadPoolCancel.CancelEnds` | src/libuv_works/libuv/libuv-1.x/src/threadpool.c:192-215 | A cancel that succeeds can always be ended at once: the request is back with its loop, marked as cancelled, and in no other queue |
| `ThreadPoolCancel.CancelledNeverRuns` | src/libuv_works/libuv/libuv-1.x/src/threadpool.c:192-238 | Over any run: a request cancelled while it is still in the global queue, or before anybody started on it, never runs, and its done callback is told UV_ECANCELED |
| `ThreadPoolCancel.NotCancelledRuns` | src/libuv_works/libuv/libuv-1.x/src/threadpool.c:64-238 | Over any run: a request that no cancel takes back is told of success, after one run of its work |
| `ThreadPoolOrder.TakenInOrder` | src/libuv_works/libuv/libuv-1.x/src/threadpool.c:64-113 | While a request waits in the global queue no worker has taken one that was submitted after it |
| `ThreadPoolOrder.ToldInOrder` | src/libuv_works/libuv/libuv-1.x/src/threadpool.c:96-238 | Of two requests of one loop the one whose end of work or of cancel came first is told first, unless a cancel takes it out of the queue again |
| `ThreadPoolOrder.DeliveredAtHome` | src/libuv_works/libuv/libuv-1.x/src/threadpool.c:179-238 | The done callback is called by the loop that submitted the request |
| `ThreadPoolCancel.CallsAccepted` | src/libuv_works/libuv/libuv-1.x/src/threadpool.c:104-138 | Every loop can always submit a new request; the pool can be shut down as long as it was not |
| `ThreadPoolRuns.QuietMeansDone` | src/libuv_works/libuv/libuv-1.x/src/threadpool.c:64-238 | When nothing can move, every request posted before the exit message was delivered exactly once, and after the exit message every worker has left |
| `ThreadPoolRuns.NoLostWakeup` | src/libuv_works/libuv/libuv-1.x/src/threadpool.c:64-138 | While a worker sleeps, the queue is no longer than the number of woken workers; no worker leaves while work from before the exit message is queued |
| `ThreadPoolRest.EachStepCounts` | src/libuv_works/libuv/libuv-1.x/src/threadpool.c:64-238 | Without new calls, every step of workers and loops lowers a measure, so that no run of them goes on for ever |
| `ThreadPoolRest.ComesToRest` | src/libuv_works/libuv/libuv-1.x/src/threadpool.c:64-238 | From every reachable state the pool comes to rest, and there every request posted before the exit message has been delivered exactly once |
| `ThreadPoolSteps.WakeKept` | src/libuv_works/libuv/libuv-1.x/src/threadpool.c:64-113 | Every step keeps the balance of sleepers, woken workers and queued jobs, through the cascade of the exit message |
| `ThreadPoolSteps.CancelBeginOrder` | src/libuv_works/libuv/libuv-1.x/src/threadpool.c:192-205 | Unlinking a request keeps the others on their side of the exit message |
| `Queue.Move` | src/libuv_works/libuv/libuv-1.x/src/queue.h:72-81 | The list becomes empty, the other head holds all its elements in order |
| `Queue.Split` | src/libuv_works/libuv/libuv-1.x/src/queue.h:61-70 | The list keeps the elements before the given one, the other head holds the rest in order |
| `Queue.Add` | src/libuv_works/libuv/libuv-1.x/src/queue.h:52-59 | The elements of one list are appended to the other, empty lists included |
| `Queue.InsertTail` | src/libuv_works/libuv/libuv-1.x/src/queue.h:92-99 | The element is appended |
| `Queue.InsertHead` | src/libuv_works/libuv/libuv-1.x/src/queue.h:83-90 | The element is put first |
| `Queue.Remove` | src/libuv_works/libuv/libuv-1.x/src/queue.h:101-106 | Exactly the given element leaves its list |
| `Queue.Init` | src/libuv_works/libuv/libuv-1.x/src/queue.h:45-50 | An empty list |
| `Queue.EmptyRing` | src/libuv_works/libuv/libuv-1.x/src/queue.h:39-40 | The emptiness test holds if and only if there are no elements |
| `AsyncDrain.Loop.Event` | src/libuv_works/libuv/libuv-1.x/src/unix/async.c:78-100 | Ends for every behaviour of the callbacks. What it examines and calls, in which order, is determined by the list and flags at the start and by what each callback it has made did; the open handles, flags and callbacks afterwards are exactly those before with what the callbacks did; the survivors keep their order, none is lost or duplicated |
| `AsyncDrain.Loop.Visit` | src/libuv_works/libuv/libuv-1.x/src/unix/async.c:86-99 | One round: put back, clear the flag, run the callback if and only if the flag was set and there is one; without it nothing is opened, closed or signalled |
| `AsyncDrain.Loop.Callback` | src/libuv_works/libuv/libuv-1.x/src/unix/async.c:98-98 | Whatever a callback opens, closes and signals, the lists stay sound, and what was open, pending and listed changes by exactly that |
| `AsyncScan.ExaminedIff` | src/libuv_works/libuv/libuv-1.x/src/unix/async.c:78-100 | A handle listed at the start is examined if and only if no callback of a handle before it has closed it |
| `AsyncScan.ExaminedOnce` | src/libuv_works/libuv/libuv-1.x/src/unix/async.c:78-100 | No handle is examined twice or out of order, and none after it was closed |
| `AsyncScan.CalledIff` | src/libuv_works/libuv/libuv-1.x/src/unix/async.c:90-98 | The callback of an examined handle runs if and only if it has one and its flag was set at the start or by an earlier callback |
| `AsyncDrain.Loop.Open` | src/libuv_works/libuv/libuv-1.x/src/unix/async.c:42-57 | A new handle at the end of the list, not pending, with a callback if and only if one is given |
| `AsyncDrain.Loop.Close` | src/libuv_works/libuv/libuv-1.x/src/unix/async.c:72-75 | The handle leaves whichever list it is on |
| `AsyncScan.MovedOn` | src/libuv_works/libuv/libuv-1.x/src/unix/async.c:98-98 | The effects of successive actions of a callback add up |
| `Async.Safe` | src/libuv_works/libuv/libuv-1.x/src/unix/async.c:60-178 | Every state of every interleaving of senders, loop and callbacks satisfies the invariant |
| `Async.NoneLostKept` | src/libuv_works/libuv/libuv-1.x/src/unix/async.c:60-178 | For every open pending handle: the descriptor is readable, or a sender is about to write, or the loop is reading, or the handle is still to be scanned |
| `Async.OpenedWith` | src/libuv_works/libuv/libuv-1.x/src/unix/async.c:42-57 | A handle has a callback ever after if and only if it was opened with one |
| `Async.NeverCalled` | src/libuv_works/libuv/libuv-1.x/src/unix/async.c:95-98 | A handle opened without a callback never has one started |
| `Async.EverySendHeard` | src/libuv_works/libuv/libuv-1.x/src/unix/async.c:42-100 | In any run, however busy: a send to a handle opened with a callback that found the flag set or set it has been followed by a start of the callback as soon as the flag is clear |
| `Async.HeardAtRest` | src/libuv_works/libuv/libuv-1.x/src/unix/async.c:60-100 | The same when the loop has come to rest, where the flag of every open handle is clear |
| `Async.SendCanBeHeard` | src/libuv_works/libuv/libuv-1.x/src/unix/async.c:42-178 | After any send to a handle opened with a callback, in any run, the loop can still reach rest, and with it a start of the callback |
| `Async.ReadBeforeScan` | src/libuv_works/libuv/libuv-1.x/src/unix/async.c:103-144 | The descriptor is read until nothing is left before the handles are scanned |
| `Async.ExaminedInOrder` | src/libuv_works/libuv/libuv-1.x/src/unix/async.c:42-100 | In every later scan a new handle comes behind those listed when it was opened; one opened inside a callback comes before those the scan had not reached |
| `Async.FirstCall` | src/libuv_works/libuv/libuv-1.x/src/unix/async.c:42-178 | Between polls and inside callbacks any new handle can be opened and signalled, and then internal steps lead to a start of its callback |
| `Async.SendDecides` | src/libuv_works/libuv/libuv-1.x/src/unix/async.c:60-69 | A send gives up exactly if its cheap read finds the flag set, and otherwise goes on to the compare-and-swap, after which the flag is set and a write is due |
| `Async.CallbackMay` | src/libuv_works/libuv/libuv-1.x/src/unix/async.c:90-98 | Examining a handle with its flag set starts its callback, which may open new handles and close any open one, its own too |
| `Async.ClosedForGood` | src/libuv_works/libuv/libuv-1.x/src/unix/async.c:72-75 | No callback of a handle starts after it was closed, and it is listed no more |
| `AsyncLive.EverySendCalled` | src/libuv_works/libuv/libuv-1.x/src/unix/async.c:42-178 | In every endless run, however many others go on sending: if the loop and the sender that set the flag get their turns, every send to a handle opened with a callback is followed by a start of the callback, or the handle is closed |
| `AsyncLive.NeverCalledAt` | src/libuv_works/libuv/libuv-1.x/src/unix/async.c:95-98 | Without a callback none is ever started, in an endless run either |
| `AsyncLive.LoopNearer` | src/libuv_works/libuv/libuv-1.x/src/unix/async.c:78-178 | While a handle waits, every step of the loop brings it nearer to looking at it |
| `AsyncLive.OthersStep` | src/libuv_works/libuv/libuv-1.x/src/unix/async.c:60-75 | No step of a sender, and nothing a callback does, takes the loop farther away |
| `Async.CallsBound` | src/libuv_works/libuv/libuv-1.x/src/unix/async.c:60-100 | Callbacks never outnumber the times the flag went from 0 to 1 |
| `Async.EachStepCounts` | src/libuv_works/libuv/libuv-1.x/src/unix/async.c:60-178 | Without new sends, every step of senders and loop brings the rest nearer in a well-founded order |
| `Async.NotStuck` | src/libuv_works/libuv/libuv-1.x/src/unix/async.c:60-178 | The loop and the senders stop only at rest |
| `Async.ComesToRest` | src/libuv_works/libuv/libuv-1.x/src/unix/async.c:60-178 | From every reachable state rest can be reached, and there every flag that was set has been taken |
| `Inet6.InetNtop6` | src/libuv_works/libuv/libuv-1.x/src/inet.c:68-154 | The printed text is the one text form of the address, always fits the 46-byte buffer, and is copied if and only if the destination has room |
| `Inet6Text.PrintedText` | src/libuv_works/libuv/libuv-1.x/src/inet.c:68-154 | The printed text, told without the functions that print it: only decimal digits, lower-case letters, colons and dots; no leading zeros; "::" if and only if two adjacent words are zero, and at most once; a dotted quad if and only if just the first six words are zero or the address is IPv4-mapped |
| `Inet6Text.TextEnds` | src/libuv_works/libuv/libuv-1.x/src/inet.c:188-308 | Both parsers read up to the first zero character and no further |
| `Inet6Text.CaseIgnored` | src/libuv_works/libuv/libuv-1.x/src/inet.c:225-309 | Upper- and lower-case digits are taken for the same |
| `Inet6.InetPton6` | src/libuv_works/libuv/libuv-1.x/src/inet.c:225-309 | Accepts exactly what the parser specification accepts, with the same sixteen bytes, and leaves the destination alone on failure |
| `Inet6.ParseUndoesText` | src/libuv_works/libuv/libuv-1.x/src/inet.c:68-309 | Parsing the text form of any sixteen bytes returns the same bytes |
| `Inet6.RoundTrip6` | src/libuv_works/libuv/libuv-1.x/src/inet.c:68-309 | The same for every compressed, trailing-zero, embedded IPv4 and uncompressed form |
| `Inet6.TextUnique` | src/libuv_works/libuv/libuv-1.x/src/inet.c:68-154 | An address has one text form |
| `Inet6.LongestRun` | src/libuv_works/libuv/libuv-1.x/src/inet.c:89-112 | The run compressed is the leftmost of the longest runs of at least two zero words |
| `Inet6.BestUnique` | src/libuv_works/libuv/libuv-1.x/src/inet.c:89-112 | There is only one such run |
| `Inet6.PutWords` | src/libuv_works/libuv/libuv-1.x/src/inet.c:117-140 | The printing loop writes the text form, without overrunning the buffer |
| `Inet6.ToWords` | src/libuv_works/libuv/libuv-1.x/src/inet.c:86-88 | The words of the address |
| `Inet6.ShiftTail` | src/libuv_works/libuv/libuv-1.x/src/inet.c:289-304 | The in-place shift moves the bytes behind the gap to the end and zeroes the gap |
| `Inet6.Complete` | src/libuv_works/libuv/libuv-1.x/src/inet.c:283-306 | The last group and the expansion of the gap, as the parser specification has them |
| `Inet6.ScanText` | src/libuv_works/libuv/libuv-1.x/src/inet.c:233-308 | The character loop follows the parser specification |
| `Inet6Grammar.Accepts6` | src/libuv_works/libuv/libuv-1.x/src/inet.c:225-309 | Accepted are exactly the texts of section 2.2 of RFC 4291: groups of one to four digits, one "::" for at least two zero bytes, a dotted quad at the end; each with its one value |
| `Inet6Grammar.Sound` | src/libuv_works/libuv/libuv-1.x/src/inet.c:233-308 | Whatever the parser accepts from any of its states is a row of groups with at most one "::" |
| `Inet6Grammar.FullAccepted` | src/libuv_works/libuv/libuv-1.x/src/inet.c:233-308 | The written-out forms are accepted with their value |
| `Inet6Grammar.CompressedAccepted` | src/libuv_works/libuv/libuv-1.x/src/inet.c:233-309 | The forms with "::" are accepted with their value |
| `Inet4.InetPton4` | src/libuv_works/libuv/libuv-1.x/src/inet.c:186-222 | Accepts a text if and only if it is the printed form of some four bytes, returns those, and leaves the destination alone on failure |
| `Inet4.InetNtop4` | src/libuv_works/libuv/libuv-1.x/src/inet.c:53-65 | Writes the dotted text if and only if it fits |
| `Inet4.RoundTrip4` | src/libuv_works/libuv/libuv-1.x/src/inet.c:53-222 | Parsing the printed form of any four bytes returns them |
| `Inet4.Accepts4` | src/libuv_works/libuv/libuv-1.x/src/inet.c:186-222 | Accepted are exactly the printed forms |
| `Inet4.OnlyDotted` | src/libuv_works/libuv/libuv-1.x/src/inet.c:186-222 | Whatever is accepted, what was read is the printed form of the result |
| `Words.NextPowerOfTwo` | src/libuv_works/libuv/libuv-1.x/src/unix/core.c:759-768 | The least power of two not below the argument, and 0 if and only if the argument is 0 or above 2^31 |
| `Words.Smear` | src/libuv_works/libuv/libuv-1.x/src/unix/core.c:759-768 | One shift and or doubles the reach of every bit |
| `IoWatchers.Loop.TableSize` | src/libuv_works/libuv/libuv-1.x/src/unix/core.c:789-789 | The table and its two trailing slots fit the block that is asked for if and only if len + 2 is at most 2^31 |
| `IoWatchers.Loop.MaybeResize` | src/libuv_works/libuv/libuv-1.x/src/unix/core.c:770-802 | No entry and neither trailing slot is lost, new slots are empty, the size is a power of two less two; for more than 2^31 slots it gives up where the source aborts or writes outside its block |
| `IoWatchers.Loop.Add` | src/libuv_works/libuv/libuv-1.x/src/unix/core.c:805-819 | A new watcher with empty masks |
| `IoWatchers.Loop.Start` | src/libuv_works/libuv/libuv-1.x/src/unix/core.c:822-852 | Adds to the mask, puts the watcher at the end of the queue unless it is there, and keeps the table invariant: count, slots, queue; fails if and only if the descriptor is INT_MAX - 1 and not in the table yet |
| `IoWatchers.Loop.StartAtTop` | src/libuv_works/libuv/libuv-1.x/src/unix/core.c:822-852 | The failing input: the first watcher of the descriptor INT_MAX - 1 |
| `IoWatchers.Loop.Stop` | src/libuv_works/libuv/libuv-1.x/src/unix/core.c:855-884 | Takes from the mask and keeps the table invariant; an empty mask clears slot, queue and registered events |
| `IoWatchers.Loop.Close` | src/libuv_works/libuv/libuv-1.x/src/unix/core.c:887-893 | The descriptor is free for another watcher |
| `IoWatchers.Loop.TakeOver` | src/libuv_works/libuv/libuv-1.x/src/unix/aix.c:134-191 | The asserted facts about a queued watcher hold, and the kernel learns its mask and nothing else |
| `IoWatchers.Loop.Drain` | src/libuv_works/libuv/libuv-1.x/src/unix/aix.c:134-191 | Afterwards the queue is empty and the kernel list agrees with every wanted mask |
| `IoWatchers.Loop.Disarm` | src/libuv_works/libuv/libuv-1.x/src/unix/aix.c:248-258 | Forgetting an unwatched descriptor disturbs nothing |
| `IoWatchers.Loop.NothingToPoll` | src/libuv_works/libuv/libuv-1.x/src/unix/aix.c:129-132 | With no descriptors counted the queue is empty and no mask is set |
| `ProxyRelay.Client.Run` | src/libuv_works/libuv_sock5-proxy/client.c:485-592 | Over any sequence of possible callbacks: what was read from each side is exactly what they brought, as much was written to it as they report, and that is the first part of what was read from the other side, in order; the state is the one the callbacks lead to; an assertion fails if and only if a timer expires before the reply has been written |
| `ProxyRelay.Client.Session` | src/libuv_works/libuv_sock5-proxy/client.c:485-592 | The same for a whole session from its start: the bytes written to one side are the first k of those the callbacks brought from the other, k being the number they report as written; the state is the one the callbacks lead to, one after the other |
| `ProxyRelay.Client.Fire` | src/libuv_works/libuv_sock5-proxy/client.c:485-505 | The first callback of a session that starts is a timer or the completion of the reply, and the assertions at the start of the relay hold if and only if it is the completion, whatever its status; no callback after that fails an assertion; only a read brings bytes, only a write takes some, from those in flight; an error or a timer kills the session, and every close brings it one state nearer its end |
| `ProxyRelay.Client.NeverStuck` | src/libuv_works/libuv_sock5-proxy/client.c:485-592 | A session that is not over always has a callback to come: the reply; in each direction a read that may bring anything, or a write that may succeed or fail; a close, or a cancelled write first |
| `ProxyRelay.Client.ExpiredAtOnce` | src/libuv_works/libuv_sock5-proxy/client.c:485-505 | The failing input: a timer as the first callback |
| `ProxyRelay.Client.OneAtATime` | src/libuv_works/libuv_sock5-proxy/client.c:546-576 | In each direction either the source is being read or the destination written, and the bytes in flight are those read last |
| `ProxyRelay.Client.Cycle` | src/libuv_works/libuv_sock5-proxy/client.c:546-576 | After a callback the direction is reading or writing again, and the asserted states of read and write hold |
| `ProxyRelay.Client.ReadDone` | src/libuv_works/libuv_sock5-proxy/client.c:663-676 | The bytes read go out unchanged, or the session is killed; nothing counts as sent yet, and the other direction is left alone |
| `ProxyRelay.Client.WriteDone` | src/libuv_works/libuv_sock5-proxy/client.c:707-719 | Exactly the bytes written count as sent and the other side is read again, or the session is killed; the other direction is left alone |
| `ProxyRelay.Client.TimerExpire` | src/libuv_works/libuv_sock5-proxy/client.c:585-592 | An idle timer kills the session, but while the reply is being written it fails an assertion |
| `ProxyRelay.Client.DoProxyStart` | src/libuv_works/libuv_sock5-proxy/client.c:485-505 | Both sides start to read, or the session is killed |
| `ProxyRelay.Client.DoProxy` | src/libuv_works/libuv_sock5-proxy/client.c:508-518 | The relay goes on if and only if neither result is an error |
| `ProxyRelay.Client.Kill` | src/libuv_works/libuv_sock5-proxy/client.c:520-539 | Both connections are closed once, with four callbacks to come |
| `ProxyRelay.Client.DoNext` | src/libuv_works/libuv_sock5-proxy/client.c:150-200 | Every callback leaves the session valid; the last one frees it |
| `ProxyRelay.Client.Teardown` | src/libuv_works/libuv_sock5-proxy/client.c:520-544 | A killed session is freed by exactly four close callbacks in whatever order they come |
| `ProxyRelay.Client.CloseDone` | src/libuv_works/libuv_sock5-proxy/client.c:732-736 | One close callback, one state further; freed exactly with the last one |
| `ProxyRelay.Client.NothingAfterFree` | src/libuv_works/libuv_sock5-proxy/client.c:194-199 | After the session is freed no callback for it is left |
| `ProxyRelay.Conn.Read` | src/libuv_works/libuv_sock5-proxy/client.c:656-661 | Reading starts from the stopped state |
| `ProxyRelay.Conn.Write` | src/libuv_works/libuv_sock5-proxy/client.c:687-705 | Writing starts from the stopped or the done state |
| `ProxyRelay.Conn.Close` | src/libuv_works/libuv_sock5-proxy/client.c:721-730 | Both machines are dead, two close callbacks to come |
| `Socks5Format.RequestVerdict` | src/libuv_works/libuv_sock5-proxy/s5.c:148-224 | Over any input: a bad version, command or address type is reported if and only if the input has one, at that byte; the command if and only if the bytes used are 5, then 1 or 3, any byte, a known type, the address (a byte at least) and two port bytes, and the parser then holds exactly its fields |
| `Socks5Format.GreetingVerdict` | src/libuv_works/libuv_sock5-proxy/s5.c:67-101 | Over any input: a bad version if and only if the first byte is not 5, a choice of method exactly at the last method named, with the methods 0, 1 and 2 among those named and no others |
| `Socks5Format.PasswordVerdict` | src/libuv_works/libuv_sock5-proxy/s5.c:103-146 | Over any input: a bad version if and only if the first byte is not 1, a check exactly at the last byte of the password, with both held |
| `Socks5Format.AfterRequest` | src/libuv_works/libuv_sock5-proxy/s5.c:226-227 | Behind a request every byte is taken and nothing reported |
| `Socks5.Parser.Parse` | src/libuv_works/libuv_sock5-proxy/s5.c:53-239 | The loop returns the event, fields and unconsumed bytes of a run over the input, for which see the verdicts, and never leaves its buffers |
| `Socks5.Parser.Take` | src/libuv_works/libuv_sock5-proxy/s5.c:66-230 | One byte does one step of a run |
| `Socks5.StepValid` | src/libuv_works/libuv_sock5-proxy/s5.c:66-230 | Every step keeps the indices inside the 257-byte buffers |
| `Socks5.ChunksDoNotMatter` | src/libuv_works/libuv_sock5-proxy/s5.c:53-239 | However the input is split, event, fields and number of bytes used are the same up to the first event |
| `Socks5.RunJoin` | src/libuv_works/libuv_sock5-proxy/s5.c:53-239 | Bytes behind the first event are not looked at; without one the next read goes on where the last ended |
| `Socks5.RequestRoundTrip` | src/libuv_works/libuv_sock5-proxy/s5.c:148-224 | Any CONNECT or UDP request with an IPv4, IPv6 or 1-to-255-byte host address comes back with exactly its fields and nothing behind it used |
| `Socks5.RequestIff` | src/libuv_works/libuv_sock5-proxy/s5.c:148-224 | A well-formed request is recognised at its last byte if and only if its address is not empty |
| `Socks5.GreetingRoundTrip` | src/libuv_works/libuv_sock5-proxy/s5.c:67-101 | A greeting with 1 to 255 methods yields the known ones among them |
| `Socks5.PasswordRoundTrip` | src/libuv_works/libuv_sock5-proxy/s5.c:103-146 | User name and password of 1 to 255 bytes come back, ended by zero bytes |
| `Socks5.GreetingIff` | src/libuv_works/libuv_sock5-proxy/s5.c:76-101 | A greeting is recognised at its last byte if and only if it names a method |
| `Socks5.PasswordIff` | src/libuv_works/libuv_sock5-proxy/s5.c:112-146 | User name and password are understood if and only if neither is empty |
| `Socks5.Parser.SelectAuth` | src/libuv_works/libuv_sock5-proxy/s5.c:245-261 | The state after the choice of a method |

## Left out

- ThreadPoolRuns.Safe: the pool is a state machine on values, because its steps interleave; the links of its queues are not pointers here, `Queue` has those.
- ThreadPoolCancel.CancelIff: a cancel happens on the loop thread and before the done callback, and a request is not submitted again before it is done; after that it counts as a new one.
- AsyncLive.EverySendCalled: a callback that opens and closes handles without end is not ruled out by itself; the loop getting its turns means that callbacks return.
- Async.EverySendHeard: one loop thread that runs one scan at a time; no nested runs of the loop from inside callbacks.
- AsyncDrain.Loop.Event: the flags of the handles are a set of the loop, not a field of each handle; flags set by other threads during the scan are in `Async`.
- SplayTree.Head.Splay: the stack node of the source is an allocated node.
- SplayTree.Head.Serve: the walk to the left in the source's next is not a splay and its steps are not counted.
- IoWatchers.Loop.Start: where the source aborts, as it may for a block of no size, or writes outside the block, the model stops with `ok` false; the table grows before the mask is changed, which does not depend on each other. The queue of changed watchers is a sequence.
- IoWatchers.Loop.TakeOver: of the poller only the registration and the removal of stale descriptors; no dispatch of events, no timeouts.
- ProxyRelay.Client.Run: begins with the reply to the client in flight; the SOCKS handshake, the lookup and the connection to the upstream host are not part of this model. After a close a pending write reports only that it was cancelled, before the close callback of its socket.
- Inet6.InetPton6: the source text is a sequence that ends at a zero character or its end; the zone suffix that `uv_inet_pton` strips is not part of this model.
- Inet6Grammar.Accepts6: texts without a zero character; what follows one is not looked at (`Inet6Text.TextEnds`).
- Heap.MinHeap.Insert: fewer than 2^32 nodes, as the counter of the source has it.
- RB_AUGMENT, which is empty, and the reversed and safe forms of the foreach macros.
- `uv_walk`, `fs-poll.c`, the handle flags, the logger, the option parser, and the wrappers of system calls.
- Memory allocation failure, and `init_once` of the pool: threads exist from the start.
