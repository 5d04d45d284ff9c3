# JROS kernel: models and proofs

JROS is a small x86-64 multiprocessor kernel in C. This project models its in-memory state
machines and its device ring protocols in Dafny and proves what they keep over every run.
`dafny verify dfyconfig.toml` checks all of it.

Code that changes memory in place is modelled by classes whose methods keep the shape of the C
functions (the same branches, loops and order of writes). Each class carries a ghost value (a tree,
a forest of frames, a protocol state, a flat map), and each method is proved against a step of that
value. What the kernel relies on is then proved about the values, for all inputs or for all runs.

**Red-black tree** (`TreeShape`, `TreeRepair`, `RBTree`). Nodes with left, right and parent links and
a colour, changed in place. A tree is described by a hole (`Ctx`) and the subtree in it, so that both
repair loops are proved one level at a time. Insertion keeps a valid tree and puts the node into its
place in the order; deletion keeps a valid tree and takes exactly that node out of the in-order
sequence. The deletion loop ends although the red-sibling rotation moves the node one level down: one
round includes that rotation, and then either finishes, goes up, or stops at a red node. The order
is a parameter, any strict weak order; both comparators of the kernel are shown to be total ones.

**Buddy allocator** (`Powers`, `FreeLists`, `BuddyTree`, `BuddyForest`, `Buddy`). The ghost value is a forest: one
binary tree of frames for each root frame laid down at start-up. Page descriptors, pair bits and the sixteen
circular free lists are three more representations of it, and every operation keeps all three in agreement. A pair
bit is set exactly when one and only one of the two buddies is a whole free frame, so the bit test in the merging
loop is exact. No two buddies are both whole and free between calls; hence the allocated frames alone determine the
whole state, and with nothing allocated the free frames are exactly the root frames, whatever the order of the
calls.

**Several clients over one allocator** (`Serving`, `Clients`). A call of one client is summed up in one
relation: the other clients' frames are still allocated with their descriptors, and what the caller got was
nobody's. From it the pool, every task's account and the shared frames keep what they promise through every
allocation, division, free and exit of any of them, and no frame is ever on two lists.

**xHCI transfer rings** (`Basics`, `Cycles`, `RingProtocol`, `XhciRing`; section 4.9.2 of the xHCI
specification). Two processes over one memory: the driver stores a block in three steps (two quad
writes, then the cycle bit), the controller polls between any two of them, follows the link and
toggles. Positions and cycle bits are images of one growing index. In every interleaving the controller takes
a prefix of what was requested, in order, never a torn block, and stops only when it has all of it, provided
that no request is given up before all its blocks were read. A request given up early frees slots that the
controller has still to pass; a run shows how its blocks are then overwritten and the controller waits for good.

**xHCI events** (`EventProtocol`, `XhciEvents`; section 4.9.4 of the xHCI specification). From the
controller's posts through the segmented event ring and the software queue to the handler task: the
events handled are always a prefix of those posted, and all of them once the queue is empty and no
entry carries the awaited cycle bit. The handler task reads its event only after it has given the slot
up: it finds that event as long as the queue is not full, and the newest one in its place when it is.

**Requests from end to end** (`XhciLoop`). Ring and event ring in one closed loop: the controller posts an event
when it has taken the last block of a request, the only one that asks for it. In every interleaving of stores,
polls, posts, interrupts and handling, each handled event names the slot of the request that it is about, requests
finish in the order in which they were submitted, each exactly once, and never before all their blocks were read;
so the proviso of the ring's theorem holds in every such run.

**NVMe queues** (`NvmeProtocol`, `Nvme`; sections 4.1 and 4.6 of NVM Express 1.4). The slot a request takes is its
command identifier, if the command word comes without other identifier bits. In every run each submission finishes
exactly once and completions go to the request that submitted. Slots in memory hold the entries of the requests kept
there, word for word, and each request ends with the completion posted for its own command. No run overwrites an
unread completion exactly when the submission slots together are no more than the completion entries (or there is
one slot to a queue); a controller that keeps one entry empty, as the specification asks, never has to hold a
completion back exactly when they are fewer. Both are stated for the sizes the driver chooses. A queue all of whose
slots wait is dead: neither side can do anything with it any more, and filling it leads there.

**Page-table pool and page tables** (`PagePool`, `FlatMap`, `PageTables`, `Sharing`). The pool is a stack of frames
of mixed order on top of the allocator. The tables hold exactly a flat map from page numbers to entries; a run of
mappings is given a second, independent meaning (who entered a region first), and the two agree for every run. A
mapping touches its own root entry, the tables below it and new pages only, so any number of tasks can map beside
each other. Every root has copies of the kernel's upper entries: a walk from a task's root finds the task's own
mappings below and the kernel's above, or nothing where the kernel has entered a new region since the last copy.
Cleaning an address space gives back each of its own tables exactly once and takes none from another.

**Tasks** (`TaskUsage`, `Fairness`, `Scheduler`, `Recycle`). What a task is charged is the sum over its lists, so
the loops of `Task_exit` end and its final check finds nothing. The scheduler always switches to the first task of
the run queue. A new task gets the idle task's time in one step and joins in another: in every run nobody is more
than 120 + 5k ahead of a task that joined k ticks late. All tasks stay within 120 of each other in every run if and
only if no task joins late at all; one tick is enough to break it. A waiting task runs after a number of ticks
bounded by the tasks that lived or joined meanwhile. The handshake between dying tasks and the recycler is a state
machine over single steps of all processors, in which the creator of a task has its interrupts masked from inserting
until it has counted it. A processor on which only its own tasks place new ones always counts exactly its queue and
its running task. Whenever the recycler waits and a dead task is flagged, the recycler's own steps recycle it. A
task placed from another processor can die before it is counted and leave a count of 0 to divide by; this can happen
if and only if there are at least two processors.

Conventions: pages and frames are numbered by physical address / 4096; the direct mapping between
physical and virtual addresses is the identity on these numbers; -1 stands for NULL. Spinlocks
make the sections they guard atomic, except where a device can look at the memory meanwhile. Where the
C code halts the machine on an error, the method returns a failure instead, and either the contract
says when, or the failure is proved not to happen.

## Model

| member | source | states |
|---|---|---|
| `RBTrees.RBTree.RotLeft` | kernel/lib/rbtree.c:18-28 | Afterwards the links hold the rotated tree in the same surroundings, root pointer and parent links included |
| `RBTrees.RBTree.RotRight` | kernel/lib/rbtree.c:30-40 | The mirror image |
| `RBTrees.RotLeftAt` | kernel/lib/rbtree.c:18-28 | The memory after the six writes of a left rotation represents the rotated tree, wherever in the whole tree it was |
| `RBTrees.RotRightAt` | kernel/lib/rbtree.c:30-40 | The mirror image |
| `TreeShape.RotatedLeftSeq` | kernel/lib/rbtree.c:18-28 | A rotation leaves the in-order sequence as it is |
| `RBTrees.RBTree.LinkNode` | kernel/lib/rbtree.c:42-47 | The empty slot found holds the new node as a red leaf, and nothing else changes |
| `RBTrees.RBTree.FindSlot` | kernel/lib/rbtree.h:18-28 | The descent ends at an empty slot that separates the nodes not after the new key from those not before it |
| `RBTrees.RBTree.FixInsRound` | kernel/lib/rbtree.c:74-115 | One round keeps the in-order sequence and the only possible offence (a red root of the focus), and the offence moves up |
| `RBTrees.RBTree.FixAfterIns` | kernel/lib/rbtree.c:72-117 | From one offending red node to a red-black tree with the same in-order sequence |
| `RBTrees.RBTree.InsNode` | kernel/lib/rbtree.c:119-135 | A valid tree stays valid, and its sequence is the old one with the node put in at its place in the order |
| `TreeRepair.PushedRedOK` | kernel/lib/rbtree.c:76-86 | With a red uncle, recolouring moves the offence two levels up and keeps black counts |
| `TreeRepair.LiftedLeftOK` | kernel/lib/rbtree.c:87-94 | With a black uncle, recolouring and one rotation end the offence without changing black counts or order |
| `TreeRepair.LiftedRightOK` | kernel/lib/rbtree.c:106-113 | The mirror image |
| `TreeRepair.RedSiblingLeft` | kernel/lib/rbtree.c:140-147 | Turning a red sibling above the parent leaves a black sibling and the same shortage one level down |
| `TreeRepair.PlainSiblingLeft` | kernel/lib/rbtree.c:148-152 | A black sibling without red children turns red, and the shortage moves to the parent |
| `TreeRepair.InnerNephewLeft` | kernel/lib/rbtree.c:154-160 | A red inner nephew is turned outwards with the shortage unchanged |
| `TreeRepair.OuterNephewLeft` | kernel/lib/rbtree.c:161-166 | With a red outer nephew one rotation ends the shortage: the whole tree is red-black |
| `TreeRepair.RedSiblingRight` | kernel/lib/rbtree.c:168-175 | The mirror image of the red sibling |
| `TreeRepair.PlainSiblingRight` | kernel/lib/rbtree.c:176-180 | The mirror image of the plain sibling |
| `TreeRepair.InnerNephewRight` | kernel/lib/rbtree.c:182-187 | The mirror image of the inner nephew |
| `TreeRepair.OuterNephewRight` | kernel/lib/rbtree.c:188-193 | The mirror image of the outer nephew |
| `TreeRepair.SplicedBlack` | kernel/lib/rbtree.c:232-243 | Replacing a black node by its only child leaves exactly one black node missing there |
| `TreeRepair.SplicedRed` | kernel/lib/rbtree.c:232-243 | Replacing a red node by its only child leaves a red-black tree |
| `TreeRepair.SuccessorSeq` | kernel/lib/rbtree.c:208-230 | Putting the successor into the place of a node with two children removes just that node from the sequence |
| `RBTrees.SubstituteAt` | kernel/lib/rbtree.c:220-229 | After the link updates another node stands where the deleted one stood, with its subtrees, parent and colour |
| `RBTrees.SpliceAt` | kernel/lib/rbtree.c:232-238 | After the link updates the only child stands where its parent stood |
| `RBTrees.RBTree.FixDelRound` | kernel/lib/rbtree.c:139-196 | One round keeps the sequence; it finishes with a red-black tree, or the shortage moves up, or it stops at a red node |
| `RBTrees.RBTree.FixAfterDel` | kernel/lib/rbtree.c:137-198 | From a tree one black node short to a red-black tree with the same in-order sequence |
| `RBTrees.RBTree.DelNode` | kernel/lib/rbtree.c:200-245 | Deleting any node of a valid tree leaves a valid tree whose sequence is the old one without exactly that node |
| `RBTrees.RBTree.GetMin` | kernel/lib/rbtree.c:247-254 | NULL exactly for the empty tree, otherwise the first of the sequence, and no node comes before it |
| `RBTrees.RBTree.GetMax` | kernel/lib/rbtree.c:256-263 | NULL exactly for the empty tree, otherwise the last of the sequence, and it comes before no node |
| `TreeShape.HeightBound` | kernel/lib/rbtree.c:247-263 | 2^height is at most the square of the number of nodes plus one: height at most 2 log2(n + 1) |
| `TreeShape.PlugRedBlack` | kernel/lib/rbtree.c:72-198 | A tree around a hole is red-black exactly when hole and filling fit, so that a repair may look at one level only |
| `RBTrees.ComparatorsAreTotal` | kernel/task/mgr.c:80-83 | The run queue's order and the timer tree's order (kernel/interrupt/softirq/timer.c:46-50) are strict total orders |
| `RBTrees.TimersInOrder` | kernel/interrupt/softirq/timer.c:46-50 | In a tree of timers the one that expires earlier stands first, and of two that expire together the one with the smaller id, so those due come before all others |
| `RBTrees.TasksInOrder` | kernel/task/mgr.c:80-83 | In a run queue the task that has run least stands first, and of two that have run equally long the one with the smaller process number |
| `FreeLists.PageLists.Insert` | kernel/memory/buddy.c:61-65 | A frame in no list goes to the end of its order's circular list; the other lists stay |
| `FreeLists.PageLists.Remove` | kernel/memory/buddy.c:38-44 | A member leaves its circular list wherever it is, and the head pointer names a member or NULL |
| `FreeLists.InsertLinked` | kernel/lib/ds.h:31-35 | The four link writes before the head make a ring with one more member at its end |
| `FreeLists.RemoveLinked` | kernel/lib/ds.h:39-43 | The link writes of a removal leave a ring of the other members, and all other rings as they were |
| `Buddy.BuddyAllocator.GetBit` | kernel/memory/buddy.c:46-51 | The bit read is that of the frame's pair; a root frame reads as 1 |
| `Buddy.BuddyAllocator.RevBit` | kernel/memory/buddy.c:53-58 | Just the pair's bit is toggled; nothing for a root frame |
| `Buddy.BuddyAllocator.constructor` | kernel/memory/buddy.c:102-123 | A consistent allocator with every frame free, whose managed pages are exactly those of the zones, each root frame as large as its zone allows |
| `Buddy.BuddyAllocator.LayZones` | kernel/memory/buddy.c:106-122 | The loop over the zones does so from an empty allocator |
| `Buddy.RootOrder` | kernel/memory/buddy.c:112-113 | The largest order that alignment, the order limit and the end of the zone allow |
| `Buddy.BuddyAllocator.LayDown` | kernel/memory/buddy.c:110-121 | The greedy loop ends, and covers exactly the rest of the zone with root frames that are aligned and as large as allowed |
| `Buddy.BuddyAllocator.Halve` | kernel/memory/buddy.c:126-135 | One round leaves the left half allocated and the right half free, with descriptors, bits and lists in agreement |
| `Buddy.BuddyAllocator.DivPageFrame` | kernel/memory/buddy.c:125-136 | The frame is halved down to the order asked for, its first part staying at the same page; other descriptors do not change |
| `Buddy.BuddyAllocator.Alloc` | kernel/memory/buddy.c:138-176 | NULL exactly when no free frame of sufficient order exists; otherwise exactly one frame is gained, aligned, cut from a free frame of the least sufficient order |
| `Buddy.BuddyAllocator.Alloc4G` | kernel/memory/buddy.c:178-217 | NULL exactly when no sufficient free frame starts below 4G; otherwise exactly one frame is gained, and it lies wholly below 4G |
| `Buddy.BuddyAllocator.BelowEntirely` | kernel/memory/buddy.c:191-194 | An aligned frame that starts below 4G ends there |
| `Buddy.BuddyAllocator.FindBelow` | kernel/memory/buddy.c:189-194 | The walk round one list ends, and finds a frame starting below 4G if the list has one |
| `Buddy.BuddyAllocator.GetBuddy` | kernel/memory/buddy.c:34-36 | The pointer step leads to the true sibling of the frame |
| `Buddy.BuddyAllocator.TurnBit` | kernel/memory/buddy.c:240-241 | After the toggle the bit is clear exactly when the frame has a buddy that is whole and free |
| `Buddy.BuddyAllocator.Merge` | kernel/memory/buddy.c:242-251 | The two buddies become one frame one order up, with descriptors, bits and lists in agreement |
| `Buddy.BuddyAllocator.Coalesce` | kernel/memory/buddy.c:239-252 | The loop ends with a frame that has no free buddy, and touches no descriptor outside it |
| `Buddy.BuddyAllocator.FreePages` | kernel/memory/buddy.c:219-256 | NULL and pages that head no frame change nothing; otherwise exactly that allocated frame is given up and not marked as shared any more, and other allocated frames keep their descriptors |
| `BuddyTree.FreedTwice` | kernel/memory/buddy.c:240-241 | Freeing a free frame with a buddy again clears its bit although the buddy is not a whole free frame, so the test would merge the two |
| `BuddyForest.RootFreedTwice` | kernel/memory/buddy.c:253-253 | A free root frame has no bit; freed again it is linked into the list that it is in already |
| `FreeLists.InsertedTwice` | kernel/lib/ds.h:31-35 | Linking a member of a list in again cuts off the members behind it, and a last member becomes its own successor |
| `Buddy.BuddyAllocator.DivideFrame` | kernel/memory/buddy.c:273-289 | NULL for a single page; otherwise both halves are allocated frames of the next lower order and no other frame changes |
| `BuddyTree.MarkBits` | kernel/memory/buddy.c:150-151 | Taking or freeing a whole frame changes just its pair's bit |
| `BuddyTree.SplitBits` | kernel/memory/buddy.c:126-135 | A halved frame's new pair bit is set exactly when one half became free; it was clear before |
| `BuddyTree.MergeBits` | kernel/memory/buddy.c:239-252 | Merging two free buddies needs no further bit change |
| `BuddyTree.HolePosition` | kernel/memory/buddy.c:125-131 | A frame's page is root page + (id - 2^depth) * 2^order |
| `BuddyForest.HeadNumbers` | kernel/memory/desc.h:61-66 | Every frame: order + depth is its root's order, the id lies in [2^depth, 2^(depth+1)) and in 16 bits, page number and alignment follow |
| `BuddyTree.Canonical` | kernel/memory/buddy.c:219-256 | Two merged-up trees with the same allocated frames are the same tree |
| `BuddyForest.AllocatedDetermines` | kernel/memory/buddy.c:219-256 | The allocated frames determine every free frame: the order of allocations, divisions and frees leaves no trace |
| `BuddyForest.AllFreed` | kernel/memory/buddy.c:106-122 | With nothing allocated the free frames are exactly the root frames laid down at the start |
| `BuddyForest.FramesTile` | kernel/memory/buddy.c:106-122 | Every managed page lies in exactly one whole frame |
| `BuddyForest.NoneInFree` | kernel/memory/buddy.c:147-158 | No allocated frame starts inside a free one |
| `BuddyForest.DividedBySplitting` | kernel/memory/buddy.c:278-284 | Dividing replaces one allocated frame by its two halves and changes no other |
| `BuddyForest.BuddyIsWhole` | kernel/memory/buddy.c:242-251 | The free buddy has the same order, lies one frame size away on the side the parity of the id tells, and the parent starts at the left one |
| `Cycles.SlotsDiffer` | kernel/hardware/USB/XHCI/api.c:119-135 | Indices less than a full turn apart are in different slots |
| `RingProtocol.ActionKeeps` | kernel/hardware/USB/XHCI/api.c:110-179 | Every step of driver or controller keeps the ring's invariant, releases of wholly read requests included |
| `RingProtocol.ActionSturdy` | kernel/hardware/USB/XHCI/api.c:110-179 | Cursor, cycle bits and link stay right even when requests are given up early |
| `RingProtocol.NeverTorn` | kernel/hardware/USB/XHCI/api.c:143-152 | What the controller takes is complete and the next block in order, even between the writes of an insertion |
| `RingProtocol.FreeIsPassed` | kernel/hardware/USB/XHCI/api.c:128-132 | A slot without a request is one the controller has passed |
| `RingProtocol.ExtendLength` | kernel/hardware/USB/XHCI/api.c:119-135 | A request smaller than the ring passes the link at most once, exactly if it reaches it |
| `RingProtocol.ExtendPayload` | kernel/hardware/USB/XHCI/api.c:143-152 | An insertion adds the request's blocks in order and, apart from links, nothing else |
| `RingProtocol.Delivery` | kernel/hardware/USB/XHCI/api.c:93-179 | In every run without early releases the controller has taken a prefix of all blocks requested, in order; when it waits with no store pending, all of them |
| `RingProtocol.CaughtUp` | kernel/hardware/USB/XHCI/api.h:52-57 | The controller never stops before a block whose cycle bit is set |
| `XhciRing.Ring.constructor` | kernel/hardware/USB/XHCI/api.c:93-108 | A new ring is in the protocol's first state |
| `XhciRing.Ring.Scan` | kernel/hardware/USB/XHCI/api.c:119-135 | Full exactly when a needed slot is taken; otherwise the recorded slots and cycle bits are those of the next indices, within the sixteen places |
| `XhciRing.Ring.Fill` | kernel/hardware/USB/XHCI/api.c:143-152 | All blocks are stored, whatever polls come in between, and each notes its slot |
| `XhciRing.Ring.TryInsReq` | kernel/hardware/USB/XHCI/api.c:110-155 | Succeeds exactly when every slot needed is free, also after early releases, and then the request's blocks are added; otherwise ring, cursor and request slots are unchanged |
| `RingProtocol.ReleaseExact` | kernel/hardware/USB/XHCI/api.c:173-179 | Giving up a request's slots keeps the ring's invariant if and only if the controller has read all its blocks |
| `RingProtocol.EarlyFrees` | kernel/hardware/USB/XHCI/api.c:173-179 | With a block unread, its slot is free for the next turn although the controller has not passed it |
| `RingProtocol.Lost` | kernel/hardware/USB/XHCI/process.c:419-425 | A run in which a request is given up after its first block, an insertion that fits overwrites the second, and the controller is stuck with one block taken of four |
| `RingProtocol.StuckForever` | kernel/hardware/USB/XHCI/process.c:419-425 | From there no run without further early releases makes the controller take another block |
| `XhciRing.Ring.Release` | kernel/hardware/USB/XHCI/api.c:173-179 | Exactly the slots of that request become free, in memory and in the protocol; it is an early release exactly when the controller has a block of the request still to pass |
| `XhciRing.Ring.Complete` | kernel/hardware/USB/XHCI/process.c:410-428 | The event goes to the request at its slot, which is marked finished and leaves the ring; no other request is touched; it is an early release exactly when a block of the request is unread |
| `XhciRing.Ring.Delivered` | kernel/hardware/USB/XHCI/api.c:93-179 | The delivery theorem for the ring in memory, as long as no request was given up early |
| `XhciLoop.ExactlyOnce` | kernel/hardware/USB/XHCI/process.c:419-425 | In every run of ring, event ring and handler together no event finds its slot without a request, requests finish in order of submission, each once and only after all its blocks were read; at rest all have finished |
| `XhciLoop.GivenUpInTime` | kernel/hardware/USB/XHCI/process.c:419-425 | Whenever an event about a request is handled, its slot still holds the first unfinished request, whose last block it is, and all blocks of that request have been read |
| `XhciLoop.HeadEvent` | kernel/hardware/USB/XHCI/process.c:10-22 | The event at the head of the queue is that of the first unfinished request |
| `XhciLoop.ActionKeeps` | kernel/hardware/USB/XHCI/process.c:350-428 | Every step of driver, controller, interrupt handler and handler task keeps the loop's invariant |
| `EventProtocol.PlacesDiffer` | kernel/hardware/USB/XHCI/api.c:201-207 | Events less than a full turn apart are in different places |
| `EventProtocol.FullTurn` | kernel/hardware/USB/XHCI/api.c:201-207 | A full turn leads to the same place with the cycle bit inverted |
| `EventProtocol.CycleTells` | kernel/hardware/USB/XHCI/api.c:198-200 | The cycle bits agree exactly when there is an unread event, and then it is the next one posted |
| `EventProtocol.ActionKeeps` | kernel/hardware/USB/XHCI/process.c:10-36 | Every step of controller, interrupt handler or handler task keeps the invariant |
| `EventProtocol.Delivery` | kernel/hardware/USB/XHCI/process.c:350-396 | In every run the events handled are a prefix of those posted, and all of them once nothing is queued or unread |
| `XhciEvents.EventPath.constructor` | kernel/hardware/USB/XHCI/api.c:187-195 | A new event ring and queue are in the protocol's first state |
| `XhciEvents.EventPath.GetNxt` | kernel/hardware/USB/XHCI/api.c:197-209 | Takes an entry exactly when one is unread; the place is that of the next index either way |
| `XhciEvents.EventPath.GetEmpty` | kernel/hardware/USB/XHCI/process.c:25-32 | The entry after the last queued one, or none exactly when the queue is full |
| `XhciEvents.EventPath.GetEve` | kernel/hardware/USB/XHCI/process.c:10-22 | The slot of the oldest queued event, none exactly when the queue is empty |
| `XhciEvents.EventPath.ReadEve` | kernel/hardware/USB/XHCI/process.c:395-396 | Read later, the slot still holds that event exactly as far as the queue has not become full; then it holds the newest one |
| `XhciEvents.EventPath.DrainOne` | kernel/hardware/USB/XHCI/process.c:361-362 | One round moves exactly one event to the queue, or finds none unread, with posts at any point |
| `XhciEvents.EventPath.MsiHandler` | kernel/hardware/USB/XHCI/process.c:350-368 | Ends with the queue full or nothing unread; the pointer written back is never beyond the first unread event and at most one entry behind; the busy bit is cleared exactly when the queue was not full on entry; of the events that arrive meanwhile exactly those that fit are posted |
| `XhciEvents.EventPath.Delivered` | kernel/hardware/USB/XHCI/process.c:350-396 | The delivery theorem for ring and queue in memory |
| `NvmeProtocol.ActionKeeps` | kernel/hardware/NVMe/api.c:23-40 | Every submit, fetch, completion and drain keeps the invariant |
| `NvmeProtocol.FreeTail` | kernel/hardware/NVMe/api.c:27-38 | A free slot at the tail means that fewer entries wait than there are slots: no entry is overwritten while outstanding |
| `NvmeProtocol.ControllerSees` | kernel/hardware/NVMe/api.c:36-38 | The controller sees a waiting entry exactly when at least one but not all slots wait; with all of them waiting it sees none |
| `NvmeProtocol.NeverOverflows` | kernel/hardware/NVMe/process.c:222-232 | While a command runs, the unread completions are fewer than the submission slots, so an entry is free |
| `NvmeProtocol.NoOverwrite` | kernel/hardware/NVMe/process.c:222-232 | No run overwrites an unread completion if and only if the slots of all queues are at most the completion entries, or one to a queue |
| `NvmeProtocol.NoBlocking` | kernel/hardware/NVMe/process.c:222-232 | A controller that keeps one entry empty never has to hold a completion back if and only if they are fewer, or one to a queue |
| `NvmeProtocol.DeadQueue` | kernel/hardware/NVMe/api.c:24-38 | A queue with all slots waiting never changes again, whatever the others do |
| `NvmeProtocol.DeadReached` | kernel/hardware/NVMe/api.c:24-38 | Filling a queue before the controller fetches leads there |
| `NvmeProtocol.PhaseTells` | kernel/hardware/NVMe/process.c:294-299 | The phase bit is the awaited one exactly for unread entries, and such an entry names the slot of the request whose command completed |
| `NvmeProtocol.ExactlyOnce` | kernel/hardware/NVMe/process.c:292-310 | In every run no submission finishes twice, and one has finished exactly when no slot keeps it |
| `NvmeProtocol.SizesFit` | kernel/hardware/NVMe/process.c:102-103 | For the sizes the driver chooses, both hold exactly when the controller supports at least (more than) twice the submission entries of a page, or only one entry |
| `Nvme.Host.constructor` | kernel/hardware/NVMe/api.c:5-16 | New queues are in the protocol's first state |
| `Nvme.Host.TryInsReq` | kernel/hardware/NVMe/api.c:23-40 | Succeeds exactly when the slot at the tail is free; then the request is kept there and the slot holds its entry, with the slot number or'ed into the command word; no other slot of any queue changes; the queues stay right exactly when that makes the slot's number the identifier |
| `Nvme.Identifier` | kernel/hardware/NVMe/api.c:33-33 | A clean command word gets its slot's number as identifier, and so does one that was in that slot before; one left over from slot 1 gets 3 in slot 2 |
| `Nvme.OrBits` | kernel/hardware/NVMe/api.c:33-33 | A bit of the word with the number or'ed in is set exactly if it is set in one of the two |
| `Nvme.Host.FetchNext` | kernel/hardware/NVMe/api.c:33-38 | What the controller fetches is exactly the entry of the request that took the slot, with the slot's number as identifier |
| `Nvme.Host.PostCompletion` | kernel/hardware/NVMe/process.c:294-295 | A completion of a running command is written to an entry that is not unread; unread entries stay as they were posted |
| `Nvme.Host.DrainOne` | kernel/hardware/NVMe/process.c:294-308 | Finds an entry exactly when one is unread; the request that submitted the command, and no other, gets the entry posted for it as its result and is finished |
| `Nvme.Host.IntrHandler` | kernel/hardware/NVMe/process.c:284-311 | Reads every completion posted, those posted meanwhile included, and of the arrivals every one for a running command is posted; exactly their requests are finished, each with the completion posted for its own command as result; the doorbell gets the new head if anything was found, and is left alone otherwise |
| `Serving.AllocatedApart` | kernel/memory/pgtable.c:21-46 | No allocated frame starts inside another |
| `Serving.ServedGain` | kernel/memory/buddy.c:138-176 | An allocation gives the caller a frame that was nobody's and keeps everyone else's frames with their descriptors |
| `Serving.ServedLoss` | kernel/memory/buddy.c:219-256 | A free takes the caller's frame only and keeps everyone else's |
| `Serving.ServedDivide` | kernel/memory/buddy.c:273-289 | A division turns the caller's frame into its two halves and keeps everyone else's |
| `Serving.ServedTwice` | kernel/memory/buddy.c:138-289 | What one client does keeps the others' frames over any number of calls |
| `PagePool.KeptHolding` | kernel/memory/pgtable.c:21-73 | The pool's stack and pages stay as they are through any other client's call |
| `TaskUsage.KeptCharged` | kernel/memory/buddy.c:165-170 | A task's charged frames and their sum stay as they are through any other client's call |
| `Clients.Memory.Promises` | kernel/task/mgr.c:428-431 | With all clients together, each account and the pool are as right as they are alone |
| `Clients.Memory.TaskAlloc` | kernel/memory/buddy.c:138-176 | An allocation by one task keeps the pool, all accounts and the shared frames, with no frame on two lists; NULL exactly when no sufficient frame is free, otherwise that frame is gained and charged |
| `Clients.Memory.TaskAlloc4G` | kernel/memory/buddy.c:178-217 | The same below 4G |
| `Clients.Memory.TaskFree` | kernel/memory/buddy.c:219-256 | So does a free of a charged or of a shared frame: that frame and no other is no longer allocated, and a charged one leaves the list with its bytes while the rest of the list stays |
| `Clients.Memory.TaskDivide` | kernel/memory/buddy.c:273-289 | So does a division; NULL exactly for a single page, otherwise the halves replace the frame and a charged one stays charged |
| `Clients.Memory.TaskAddUsage` | kernel/memory/SLAB.c:31-39 | So does the charging of a private block |
| `Clients.Memory.TaskDelUsage` | kernel/memory/SLAB.c:41-53 | And its removal |
| `Clients.Memory.TaskExit` | kernel/task/mgr.c:419-431 | So does an exit: exactly the frames on the task's list are no longer allocated, its total is 0 and its lists are empty, while other tasks and the pool go on |
| `Clients.Memory.PoolAlloc` | kernel/memory/pgtable.c:21-46 | So does a page taken from the pool; it fails exactly at the minimum when it cannot be filled up |
| `Clients.Memory.PoolFree` | kernel/memory/pgtable.c:48-73 | So does a page given back |
| `PagePool.DividedHolding` | kernel/memory/pgtable.c:29-30 | Splitting the frame in hand puts its right half on the stack and keeps the number of pages |
| `PagePool.Pool.Init` | kernel/memory/pgtable.c:106-107 | Succeeds exactly when there is a frame of order 12, with 0x1000 pages in the pool, all of them in frames marked as shared |
| `PagePool.Pool.Split` | kernel/memory/pgtable.c:28-31 | The frame in hand ends as a single page with all its other parts on the stack, inside the array; free frames stay |
| `PagePool.Pool.PushNew` | kernel/memory/pgtable.c:34-40 | Succeeds exactly when a sufficient free frame exists, and then adds its pages; the frame is marked as shared, as all frames of the pool are, on the stack or given out |
| `PagePool.Pool.Alloc` | kernel/memory/pgtable.c:21-46 | Fails exactly when the pool is at its minimum and cannot be filled up; otherwise a page that is neither in the pool nor in use, in a frame marked as shared; the page count is exact and at least 0x100, and other clients' frames are untouched |
| `PagePool.Pool.Free` | kernel/memory/pgtable.c:48-73 | The page goes on the stack, or back to the allocator exactly when the array is full |
| `FlatMap.FirstComeFirstServed` | kernel/memory/pgtable.c:75-145 | After any run a page has the entry of its 1G region if that was entered first by a 1G mapping, else likewise for 2M, else its own last one |
| `FlatMap.OnlyItsOwn` | kernel/memory/pgtable.c:75-145 | A mapping changes the entries of its own page or region only |
| `PageTables.PudAdded` | kernel/memory/pgtable.c:78-79 | A zeroed table hung into an empty root entry changes no translation and is shared with no other entry |
| `PageTables.PmdAdded` | kernel/memory/pgtable.c:137-138 | The same one level down; the 1G region can no longer become one large page |
| `PageTables.PldAdded` | kernel/memory/pgtable.c:140-141 | The same two levels down; the 2M region can no longer become one large page |
| `PageTables.TableEntries` | kernel/memory/pgtable.c:78-79 | In tables that hold a map, every entry that leads to a table names that table, with flag bits 7: present, writable and for user mode |
| `PageTables.PageSet` | kernel/memory/pgtable.c:143-144 | Writing a page's entry makes the tables hold the map with just that page changed |
| `PageTables.MegaSet` | kernel/memory/pgtable.c:91-92 | Writing an empty 2M entry makes the tables hold the map with just that region changed |
| `PageTables.GigaSet` | kernel/memory/pgtable.c:80-81 | Writing an empty 1G entry makes the tables hold the map with just that region changed |
| `PageTables.AddressSpace.constructor` | kernel/task/mgr.c:346-355 | A root table from the pool whose own entries are zero holds the empty map, whatever the entries it shares |
| `PageTables.AddressSpace.Adopt` | kernel/memory/pgtable.c:104-117 | Tables that are there already and hold a run of mappings, as the boot code's, are an address space to go on from |
| `PageTables.Walked` | kernel/memory/pgtable.c:147-158 | A walk over four levels of memory ends at the flat map's entry, for every page |
| `PageTables.AddressSpace.GetPldEntry` | kernel/memory/pgtable.c:147-158 | The walk returns the flat map's entry for every page |
| `PageTables.AddressSpace.Map` | kernel/memory/pgtable.c:133-145 | The tables hold the flat map after one more mapping, and of the pages in use only the root's entry and that region's tables have changed; it fails only if the pool cannot serve three pages |
| `PageTables.AddressSpace.Map2M` | kernel/memory/pgtable.c:84-94 | The tables hold the flat map after one more mapping of a 2M region, confined likewise (two pages); if nobody has entered the region, every page of it is afterwards found as a large entry with the frame rounded down to 512, the flags asked for, and present if asked for or the frame is not 0 |
| `PageTables.AddressSpace.Map1G` | kernel/memory/pgtable.c:75-82 | The same for a 1G region, frames rounded down to 262144; one page |
| `PageTables.Found2M` | kernel/memory/pgtable.c:91-92 | After the first mapping of a 2M region in any run of mappings, each of its pages has the entry just described |
| `PageTables.Found1G` | kernel/memory/pgtable.c:80-81 | The same for a region of 1G |
| `PageTables.PartStep` | kernel/memory/pgtable.c:196-199 | The tables below different entries of a table are different |
| `PageTables.AddressSpace.CleanSub` | kernel/memory/pgtable.c:191-201 | Exactly the table and all tables below it go back to the pool |
| `PageTables.AddressSpace.CleanMap` | kernel/memory/pgtable.c:202-211 | Exactly the root and the tables below entries 0-255 and 511 go back to the pool, each once; those of the shared entries do not |
| `Sharing.WhatIsSeen` | kernel/memory/pgtable.c:147-158 | A walk from a task's root finds the task's own mapping in the lower half, and in the upper half the kernel's if the root's entry is up to date, else nothing |
| `Sharing.KeptBy` | kernel/memory/pgtable.c:133-145 | A mapping in one address space keeps every other one with other tables as it is |
| `Sharing.StillFollows` | kernel/task/mgr.c:398-403 | After a kernel mapping a root entry is out of date only where the kernel entered a new region |
| `Sharing.SyncStands` | kernel/task/mgr.c:390-396 | After the copy a task sees all of the kernel's mappings, and its own tables are right if and only if it has none at entry 511 |
| `Sharing.Spaces.MapKernel` | kernel/task/mgr.c:398-403 | One more mapping of the kernel's; every task's address space stays right, and sees it at once unless the region is new |
| `Sharing.Spaces.MapKernel2M` | kernel/memory/pgtable.c:119-121 | The same for a 2M region, whose pages are afterwards found as in `PageTables.AddressSpace.Map2M` if nobody has entered it before |
| `Sharing.Spaces.MapKernel1G` | kernel/memory/pgtable.c:116-118 | The same for a 1G region |
| `Sharing.Spaces.MapTask` | kernel/memory/pgtable.c:133-145 | One more mapping of one task's; the kernel's and all other tasks' are not affected |
| `Sharing.Spaces.Spawn` | kernel/task/mgr.c:346-355 | A new task starts with no mapping of its own, in step with the kernel; it fails exactly when the pool has no page |
| `Sharing.Spaces.Sync` | kernel/task/mgr.c:390-396 | The task is in step with the kernel; all is right afterwards exactly when it had no table at entry 511 |
| `Sharing.Spaces.Clean` | kernel/task/mgr.c:456-456 | All tables of the task go back to the pool, and no other address space loses one |
| `Sharing.Spaces.Find` | kernel/memory/pgtable.c:147-158 | A lookup through a task's root, for pages of both halves |
| `TaskUsage.TaskMem.Alloc` | kernel/memory/buddy.c:138-176 | NULL exactly when no sufficient frame is free; otherwise the frame is charged to the task, unless it is shared |
| `TaskUsage.TaskMem.Alloc4G` | kernel/memory/buddy.c:178-217 | The same below 4G |
| `TaskUsage.TaskMem.Free` | kernel/memory/buddy.c:219-256 | The frame and its bytes leave the account, unless it is shared |
| `TaskUsage.TaskMem.FreeForeign` | kernel/memory/buddy.c:233-235 | A frame charged to another task leaves that task's list but the caller's total, and then neither account is right |
| `TaskUsage.TaskMem.DivideFrame` | kernel/memory/buddy.c:273-289 | The right half joins the list if the frame was on it, and the total stays right |
| `TaskUsage.TaskMem.AddUsage` | kernel/memory/SLAB.c:31-39 | The block is recorded and its size added |
| `TaskUsage.TaskMem.DelUsage` | kernel/memory/SLAB.c:41-53 | The first record of the address is removed with its size; not found exactly when there is none |
| `TaskUsage.TaskMem.FreeAll` | kernel/task/mgr.c:420-422 | The loop ends with an empty list, and exactly the frames on it are no longer allocated |
| `TaskUsage.TaskMem.DropAll` | kernel/task/mgr.c:423-426 | The loop ends with an empty list |
| `TaskUsage.TaskMem.Exit` | kernel/task/mgr.c:419-431 | Both loops end, the total is 0, the final check never fires, and other clients' frames are untouched |
| `TaskUsage.ChargedHalved` | kernel/memory/buddy.c:287-287 | Dividing a charged frame keeps the sum of the charged bytes |
| `TaskUsage.ChargedLess` | kernel/memory/buddy.c:233-235 | Freeing a charged frame lowers the sum by exactly its size |
| `Fairness.ChargedTask` | kernel/task/mgr.c:65-72 | A charge takes the running task at most 120 beyond the time it was dispatched with, and a switch is due before that |
| `Fairness.ChargedSpread` | kernel/task/mgr.c:65-72 | So a charge keeps the bounds of all tasks |
| `Fairness.SwitchKeeps` | kernel/task/mgr.c:122-131 | A switch to the first task of the queue restores the full budget below that bound |
| `Fairness.SomeoneRuns` | kernel/task/mgr.c:129-131 | There is always a first task to switch to, as the idle task is never dropped |
| `Fairness.PlaceKeeps` | kernel/task/mgr.c:376-377 | Reading the idle task's time for a new task keeps the invariant |
| `Fairness.JoinKeeps` | kernel/task/mgr.c:379-380 | So does inserting the task, however many ticks later |
| `Fairness.ActionKeeps` | kernel/task/mgr.c:59-133 | Ticks, interrupts, yields, kills, and both steps of a creation keep the invariant |
| `Fairness.AlwaysClose` | kernel/task/mgr.c:59-133 | In every run no live task is ahead of another by more than 120 and 5 for each tick the other joined late |
| `Fairness.AlwaysFair` | kernel/task/mgr.c:59-133 | In every run in which tasks join at most k ticks after their time was read, virtual run times differ by at most 120 + 5k |
| `Fairness.JoinedFair` | kernel/task/mgr.c:377-380 | A task that joins keeps the bound of 120 if and only if no live task is more than 120 ahead of the time it was given |
| `Fairness.TooLate` | kernel/task/mgr.c:377-380 | A run in which a task joins one tick late and falls 121 behind |
| `Fairness.FairExactly` | kernel/task/mgr.c:377-380 | All runs with tasks at most k ticks late keep within 120 if and only if k is 0 |
| `Fairness.NoStarvation` | kernel/task/mgr.c:65-131 | In every run with tasks joining at most k ticks late, a task waits at most 240 + 10k ticks for each task that lived at the start or joined since |
| `Scheduler.Processor.constructor` | kernel/task/mgr.c:241-285 | The idle task runs alone, in the state machine's first state |
| `Scheduler.Processor.UpdateCurState` | kernel/task/mgr.c:65-72 | Divides by zero exactly when the slice ends with a task count of 0; otherwise the running task, and no other, is charged 1, 2, 3, 4, 5 or 6 by its priority; a slice that ends is followed by one of that weight times the larger of 1 and 20 / taskNum |
| `Scheduler.Processor.ReleaseProcessor` | kernel/task/mgr.c:59-63 | The running task gives up the rest of its slice |
| `Scheduler.Processor.TakeLeast` | kernel/task/mgr.c:129-131 | The task taken off the tree is the least by virtual run time and process number |
| `Scheduler.Processor.Schedule` | kernel/task/mgr.c:97-133 | Switches exactly when a switch is due and no signal waits, to the least task; a killed task leaves exactly when the recycler is not at work, and the task count follows; the task that ran has no switch due any more |
| `Scheduler.Processor.Tick` | kernel/task/mgr.c:65-133 | A tick in memory is a tick of the state machine, with the charge just described; the running task leaves exactly when its slice ended, it is killed and the recycler is not at work, and the task count follows |
| `Scheduler.Processor.Interrupt` | kernel/task/mgr.c:97-133 | So is another interrupt, with the switch that may be due |
| `Scheduler.Processor.SetPriority` | kernel/task/mgr.c:432-434 | And the rise of the running task's priority when it exits (or traps, kernel/interrupt/trap.c:97) |
| `Scheduler.Processor.Place` | kernel/task/mgr.c:376-377 | The new task takes the idle task's virtual run time, as the state machine says |
| `Scheduler.Processor.Join` | kernel/task/mgr.c:379-380 | Some time later it is in the queue, and nothing else changes |
| `Scheduler.Processor.CountNew` | kernel/task/mgr.c:381-381 | And some time after that it is counted |
| `Recycle.InsertKeeps` | kernel/task/mgr.c:122-123 | Handing a dead task to the killed tree keeps every task in one place |
| `Recycle.CountKeeps` | kernel/task/mgr.c:124-124 | The count follows the insertion, before the flag is set |
| `Recycle.FlagKeeps` | kernel/task/mgr.c:125-125 | Only counted tasks are flagged |
| `Recycle.DeleteKeeps` | kernel/task/mgr.c:447-452 | The recycler takes a flagged, hence counted, task out of the tree |
| `Recycle.FreeKeeps` | kernel/task/mgr.c:454-457 | The task freed was not freed before |
| `Recycle.ActionKeeps` | kernel/task/mgr.c:117-131 | Every step of any processor or of the recycler keeps the invariant |
| `Recycle.RecycledOnce` | kernel/task/mgr.c:439-460 | In every interleaving no task is recycled twice, the number of killed tasks is never negative and is the size of the tree at rest |
| `Recycle.Progress` | kernel/task/mgr.c:439-460 | In any run, whenever the recycler waits and a killed task is flagged, seven steps of the recycler alone recycle that task: it leaves the tree and the count goes down by one |
| `Recycle.NotYet` | kernel/task/mgr.c:447-451 | A task found without its flag is left alone: back to waiting, with the killed tree and its count as they were |
| `Recycle.ComesBack` | kernel/task/mgr.c:439-460 | From any reachable state at most six steps of its own bring the recycler back to waiting, and a flagged task it has in hand is recycled on the way |
| `Recycle.OnePlace` | kernel/task/mgr.c:117-131 | In every interleaving each task is running, queued, killed, in the recycler's hands or gone, and where a task runs the task count is the queue's size plus one, less the tasks placed there and not counted yet |
| `Recycle.CountPositive` | kernel/task/mgr.c:70-70 | In every interleaving a tick finds a positive count if and only if no more other processors are between placing a task there and counting it than there are tasks in the queue |
| `Recycle.OwnCounted` | kernel/task/mgr.c:379-382 | A processor on which only its own tasks place new ones finds the exact count at every tick |
| `Recycle.DeathUncounted` | kernel/task/mgr.c:379-382 | A run on two or more processors in which a task placed by another processor dies before it is counted, after which a tick finds a count of 0 |
| `Recycle.FaultNeedsTwo` | kernel/task/mgr.c:70-70 | Some run brings a processor to a tick with a count of 0 if and only if there are at least two processors |

## Left out

- `RBTree_getNext`: for a node without a right child it returns the node itself (kernel/lib/rbtree.c:275-278); nothing is claimed of it.
- The test at kernel/lib/rbtree.c:240 can never hold, as the root was replaced just before, and is not modelled.
- The parent link and the colour share one word in the source; here they are two fields.
- Locks are atomic sections; two processors in one red-black tree at once are not modelled. Interrupt masking is modelled where it matters, between placing and counting a task.
- The words of the bitmaps, their placement (kernel/memory/buddy.c:71-101) and `totMemSize`; the bitmaps start cleared, as line 103 clears them.
- Page descriptors form one array by page number instead of one per zone, and their list links are kept beside them.
- Page attributes are reduced to the order, the head flag and the shared flag; in the pool, the set of pages in use stands for the MMU flag, which the source never clears.
- The bound of the merging loop (kernel/memory/buddy.c:239) is never reached, because a root frame has no pair, and is not written out; the halt on a misaligned frame (lines 159-162) is replaced by the proof that frames are aligned.
- PagePool.Pool.Alloc: after a failed refill, where the source returns with its lock held (kernel/memory/pgtable.c:35-38), nothing is promised.
- Buddy.BuddyAllocator.FreePages: not for a page that heads a frame already free, which passes the source's head test; `BuddyTree.FreedTwice`, `BuddyForest.RootFreedTwice` and `FreeLists.InsertedTwice` say what goes wrong then.
- XhciRing.Ring.TryInsReq: the request must fit in sixteen slots (the size of the source's local arrays), be smaller than the ring, contain no link and not be in the ring; the retry loop around it (kernel/hardware/USB/XHCI/api.c:158-160) is left out.
- XhciRing.Ring.Release: the slot must hold a request, as the source follows its pointer unchecked (that events name such slots is `XhciLoop.ExactlyOnce`).
- XhciRing.Ring.Complete: as for `XhciRing.Ring.Release`; what becomes of the data after a transfer error is not modelled.
- `XhciLoop` is a state machine on values: one transfer ring, requests of at least one block, and any other events between its own; an event for an earlier block, as after an error, is the early release of `RingProtocol.Lost`.
- Ring addresses are slot numbers; that a ring starts at a multiple of 64K (kernel/hardware/USB/XHCI/api.h:107-109) is assumed. `HW_USB_XHCI_Ring_reset` and the emulator's event injection are left out.
- XhciEvents.EventPath.MsiHandler: the register accesses of the handler are its boolean parameters and the busy bit; that a full queue on entry leaves the bit set is shown, but not what the hardware does then.
- Nvme.Host.TryInsReq: one round of the waiting loop; waiting for the result (kernel/hardware/NVMe/api.c:42-46) is left out; that a waiting request gets a slot is not claimed, as a queue with every slot waiting is dead (`NvmeProtocol.DeadQueue`).
- Nvme.Host.constructor: for sizes with which no completion is overwritten (`NvmeProtocol.NoOverwrite` gives them exactly); the source does not check them.
- Creation of the NVMe queues by admin commands, and commands that end in an error other than through the status word.
- `MM_PageTable_unmap` and `_tryFree`, and flushing of translation caches.
- PageTables.AddressSpace.Adopt: the tables must be pages given out by the pool, which those of the boot code are not.
- Sharing.Spaces.Spawn: when the pool has no page nothing is promised, where the source prints a message and goes on with table 0.
- Sharing.Spaces.Clean: as for `PageTables.AddressSpace.CleanMap`. Kernel threads, which use the kernel's root itself, need no address space of their own and are not modelled.
- PageTables.AddressSpace.Map: in the regions the address space is about (all 512 of a lone one; of several, its own half); after a failure to get a table page nothing is promised, where the source goes on with a table at address 0. The flags have no address bits.
- PageTables.AddressSpace.CleanMap: for address spaces without large pages in their own regions and with no table at page 0, which `_cleanMap` takes for an empty entry.
- TaskUsage.TaskMem.DropAll: destructors of blocks are assumed not to change the list; the rest of the slab allocator is left out.
- TaskUsage.TaskMem.Free: for a frame of the caller's or a shared one; for another task's there is `TaskUsage.TaskMem.FreeForeign`. The 64-bit wrap of a total below 0 is not modelled.
- Scheduler.Processor.Schedule: what the handlers of signals do (kernel/task/mgr.c:100-114) is left out, and so is the register switch. With a signal waiting it returns without a switch; the runs of `Fairness` have no signals, as a task that takes one at the end of a slice keeps the processor for another.
- Fairness.AlwaysFair: priorities only rise, as they do in the source (kernel/task/mgr.c:433, kernel/interrupt/trap.c:97); see also the signals above.
- Scheduler.Processor.Place: the idle task it reads is that of the processor chosen, on whichever processor the creator runs; the choice is a parameter.
- `Recycle` is a state machine on values, because its steps belong to several processors at once; operations on one tree are atomic, which killed task it looks at is left open (the source takes the last in the tree), and whether a killed task's stack is still in use when it is freed is not modelled.
- JRFS, GPT and ext4, boot, interrupt and PCIe set-up, formatting, keyboard and HID code: device plumbing or easier than the parts above.
