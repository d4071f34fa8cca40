# Verified models of a kernel's memory, an onion router and a token bucket

This project models the systems kept in this repository in Dafny 4.11 and proves what their code
keeps. `dafny verify dfyconfig.toml` checks everything. Code that changes things in place is modelled
by classes, arrays and loops; each such method is proved against a function of the state before it,
and what the source promises is then proved about those functions, for every input and every run.

**The kernel's page allocator** (`Shifts`, `BuddyBlocks`, `PageGroup`, `PageAllocator`). Free lists
and pair bitmaps represent a set of aligned blocks. Between operations the lists are exactly the
maximal aligned blocks of the free pages, whatever happened before; so giving every block back, in
any order, restores the lists as they were made. An allocation fails exactly when no group has room.

**Slabs and kmalloc** (`SlabLayout`, `SlabHeap`, `SlabAllocator`, `SlabRuns`, `SlabPages`). Free
objects are threaded through control words behind the objects. Chain and live objects partition the
slots, live objects never overlap, reclaim takes only idle slabs, kfree undoes kmalloc; in every run
the live objects are the objects the callers hold. `SlabPages` puts slabs on top of the page
allocator: each slab lies in a block of its own that is on loan.

**Page frames and vnodes** (`PageCacheState`, `PageCache`, `PageCacheRuns`, `PageCacheCalls`,
`PageoutDaemon`). Every call that changes the cache in place is a step of its runs. Hash chains,
alloc and pinned lists and object lists agree on one frame per page; reference counts are active
references plus resident pages; the recursive teardown of vput never nests; the pageout daemon takes
the least recently requested pages and stops in time.

**Page tables, threads, program start, paths, descriptors** (`PageTable`, `KernelThreads`,
`Scheduler`, `ElfArgs`, `PathWalk`, `Descriptors`). The two-level table is a flat map; the hand-off
mutex is first come first served in every run of sleeping, waking, yielding, cancelled and ending
threads; the argument image reads back; path walks and descriptor calls balance their references on
success and on every failure.

**The onion router** (`OnionCipher`, `OnionRouter`, `OnionCircuit`, `OnionTransport`, `OnionProxy`,
`Checksum`, `Rewriting`, `OnionFlows`, `OnionNetwork`, `OnionTunnel`, `OnionTraces`). Proxy and
routers exchange datagrams over loss-free first-in first-out links in any interleaving. Circuit
construction ends with every hop in place after a known number of steps; packets and answers are
recovered byte for byte and in order. In the whole network each flow from the tunnel has a circuit
of its own over shared routers and links; what leaves its last hop is the packets of that flow, each
with the new source, good checksums and all other bytes. How much of who sent a packet can be told
on the way is stated exactly: which packets share a flow, and what the TCP checksum keeps of the
source. The Internet checksum is that of sections 1 and 4.1 of RFC 1071, with the pseudo header of
section 3.1 of RFC 793.

**The token bucket** (`Ring`, `TokenBucketRuns`, `TokenBucket`). The three threads' critical
sections are atomic steps; conformance, order and shutdown are proved for every interleaving, on
pointer rings.

`Basics` holds the types all modules share, `Lists` what is shared about sequences without repetition.

Where code and comments differ, the model follows the code:

- `page_freecount` also counts the pages dropped when a group is made; the difference to the pages on
  lists is fixed by the ranges added.
- When `_page_split` finds nothing it reclaims slabs but does not search again.
- `page_alloc_n` compares sizes as signed numbers, `_calc_slab_size` does too, and `kmalloc` adds its
  header size in 32 bits; `EnoughPages`, `CalcSlabSize` and `ChunkHolds` give the exact conditions under
  which the promise is kept, `OnlyOnePage`, `NoObjects` and `WrappedChunk` an input for each that fails.
- `pt_unmap_range` can clear more than the range; `ExactIff` says exactly when, `TooMuch` gives an input.
- `_elf32_calc_argsize` counts the header table once per AT_PHDR; `ExactFit` says when the image fills it,
  `TwoTables` gives an input for which it does not.
- The token bucket's server never shuts down when no packet fits the bucket; `Shutdown` has the exact
  condition on the input, `DroppedForever` a failing input.
- A router reads a port with `atoi` from a buffer without terminating zero; `PortUnterminated` says exactly
  when the number is right. `PortText` and the handlers take it that no digit follows.
- The proxy zeroes the source of a TCP packet but leaves the TCP checksum, which covers it; `TcpTells` says
  exactly which sources can be told apart, `TwoHosts` gives two. Flows are kept apart by source too, so
  packets of two hosts never share a circuit; `Untraceable` has the exact condition, `SecondHost` an input.
- Answers are delivered to the source of the last packet of any flow; `ReachesSender` says exactly when that
  is the right host, `WrongHost` gives the interleaving in which it is not.
- `sched_make_runnable` does not queue the idle process; `do_getdent` answers 0 when readdir fails;
  `do_open` looks at the access bits only after `open_namev`.

Things outside the model enter as parameters: the block cipher (decryption undoes encryption of whole
blocks), random numbers, the answers of the memory allocators, of file system operations and of page
writes, and the raw socket's packets.

## Model

| member | source | states |
|---|---|---|
| `BuddyBlocks.CoveredByOne` | project/Operating_System_Weenix/kernel/mm/page.c:293-315 | Given free blocks that lie apart and with no two free buddies below the top order, every aligned run of free pages lies inside a single free block, at every order |
| `BuddyBlocks.CanonicalForm` | project/Operating_System_Weenix/kernel/mm/page.c:161-315 | The free blocks are exactly the maximal aligned blocks of the free page set, in both directions |
| `BuddyBlocks.UniqueForm` | project/Operating_System_Weenix/kernel/mm/page.c:161-315 | Two such block sets with the same free pages are equal, so the history of splits and joins leaves no trace |
| `BuddyBlocks.SplitKeeps` | project/Operating_System_Weenix/kernel/mm/page.c:173-196 | A split keeps blocks apart and keeps the free page set |
| `BuddyBlocks.JoinKeeps` | project/Operating_System_Weenix/kernel/mm/page.c:293-315 | Joining two free buddies keeps blocks apart and keeps the free page set |
| `BuddyBlocks.JoinJoined` | project/Operating_System_Weenix/kernel/mm/page.c:293-315 | After a join the only buddies that can both be free are those of the new, larger block; this is why the join loop may go up one order at a time |
| `PageGroups.SplitRepresents` | project/Operating_System_Weenix/kernel/mm/page.c:173-196 | The list surgery and the bit flip of a split carry lists, pair bits and free blocks from one consistent state to the next; the asserted bit is indeed clear |
| `PageGroups.BitTellsBuddy` | project/Operating_System_Weenix/kernel/mm/page.c:293-315 | The pair bit of a free block is set if and only if its buddy is not free, so the join loop may test the bit instead of searching the list |
| `PageGroups.JoinTurn` | project/Operating_System_Weenix/kernel/mm/page.c:293-315 | One turn of the join loop: the buddy address is the right one, the lower address is that of the parent, and the result again matches lists, bits and blocks |
| `PageGroups.JoinStops` | project/Operating_System_Weenix/kernel/mm/page.c:293-315 | When the loop ends, by a set bit or at the top order, no two buddies below the top order are both free |
| `PageGroups.CarveMaps` | project/Operating_System_Weenix/kernel/mm/page.c:47-112 | The bitmaps are carved from the end of the range in whole bytes, one cleared map per order above 0 |
| `PageGroups.DropRemainder` | project/Operating_System_Weenix/kernel/mm/page.c:47-112 | What is left is the largest multiple of the top block size; the remainder is dropped |
| `PageGroups.FillTop` | project/Operating_System_Weenix/kernel/mm/page.c:47-112 | The top list holds every top block of the remaining pages once |
| `PageGroups.PageGroup.constructor` | project/Operating_System_Weenix/kernel/mm/page.c:47-112 | A new group is consistent, its bitmaps have a bit for every pair of buddies, and its free pages are all whole top blocks below the carved records |
| `PageGroups.PageGroup.SplitDown` | project/Operating_System_Weenix/kernel/mm/page.c:207-247 | Splitting down to the wanted order keeps the free pages and leaves a block at the head of that list whose removal restores the no-free-buddies rule |
| `PageGroups.PageGroup.TakeHead` | project/Operating_System_Weenix/kernel/mm/page.c:256-291 | The block handed out has the wanted order, is aligned to its size relative to the group base, was free, and is exactly what leaves the free pages; the pair bits match again |
| `PageGroups.PageGroup.JoinUp` | project/Operating_System_Weenix/kernel/mm/page.c:293-315 | The whole join loop keeps the free pages and ends with every pair bit right and no two free buddies below the top order |
| `PageGroups.PageGroup.Release` | project/Operating_System_Weenix/kernel/mm/page.c:324-350 | Freeing a block adds exactly its pages to the free pages and leaves the canonical form |
| `PageAllocators.RoomMeansBlock` | project/Operating_System_Weenix/kernel/mm/page.c:207-291 | A group has an aligned free run of an order if and only if one of its lists of that order or above is nonempty, so searching the lists decides whether a request can be met |
| `PageAllocators.OrderFor` | project/Operating_System_Weenix/kernel/mm/page.c:380-394 | The order found is the least whose block is at least npages in the signed comparison of the source, or none |
| `PageAllocators.EnoughPages` | project/Operating_System_Weenix/kernel/mm/page.c:380-394 | The promise of at least npages pages is kept if and only if npages is below 2^31; a larger request is given one page |
| `PageAllocators.OnlyOnePage` | project/Operating_System_Weenix/kernel/mm/page.c:380-394 | A failing input: a request for 2^31 pages is given order 0, a single page, and no other order |
| `PageAllocators.LendOk` | project/Operating_System_Weenix/kernel/mm/page.c:256-291 | A block taken from the free pages was not live before, stays apart from every live block, and lowers the number of pages on lists by its size |
| `PageAllocators.ReturnOk` | project/Operating_System_Weenix/kernel/mm/page.c:324-350 | A block given back stays apart from every live block and raises the number of pages on lists by its size |
| `PageAllocators.StepKeeps` | project/Operating_System_Weenix/kernel/mm/page.c:132-350 | Allocation, freeing and adding a range each keep: live blocks are disjoint from each other and from the free pages, and together with the free pages they are all pages |
| `PageAllocators.RunKeeps` | project/Operating_System_Weenix/kernel/mm/page.c:132-350 | The same over every run; once every block is back, every page is free |
| `PageAllocators.LendReturn` | project/Operating_System_Weenix/kernel/mm/page.c:256-350 | Freeing what was just allocated restores the books |
| `PageAllocators.ListsDetermined` | project/Operating_System_Weenix/kernel/mm/page.c:161-350 | The contents of every free list are determined by the free pages |
| `PageAllocators.AllFreeIsPristine` | project/Operating_System_Weenix/kernel/mm/page.c:47-112 | A group with every page free has the lists it was made with: all top blocks and nothing else |
| `PageAllocators.Restored` | project/Operating_System_Weenix/kernel/mm/page.c:47-350 | After any run that gave every block back, in whatever order, every group has its initial lists |
| `PageAllocators.PageAllocator.constructor` | project/Operating_System_Weenix/kernel/mm/page.c:125-130 | No groups, no free pages, empty books |
| `PageAllocators.PageAllocator.AddRange` | project/Operating_System_Weenix/kernel/mm/page.c:132-146 | A group with the usable pages is added and page_freecount grows by all of them, so that page_freecount minus the pages on lists grows by the dropped remainder; an unusable range changes nothing |
| `PageAllocators.PageAllocator.SplitSearch` | project/Operating_System_Weenix/kernel/mm/page.c:207-247 | The search finds a group after splitting its smallest larger block, or every list of every group from the order up is empty |
| `PageAllocators.PageAllocator.Take` | project/Operating_System_Weenix/kernel/mm/page.c:256-291 | The allocator-wide effect of taking a block; page_freecount minus the pages on lists stays what the added ranges made it |
| `PageAllocators.PageAllocator.GroupOf` | project/Operating_System_Weenix/kernel/mm/page.c:114-123 | The group found contains the address; none is found only when none contains it |
| `PageAllocators.PageAllocator.AllocOrder` | project/Operating_System_Weenix/kernel/mm/page.c:256-291 | An address is returned if and only if some group had an aligned free run of that order at entry; the block was free and is now live; on failure the idle slabs are reclaimed and the search is not repeated |
| `PageAllocators.PageAllocator.FreeOrder` | project/Operating_System_Weenix/kernel/mm/page.c:324-350 | A live block becomes free in its own group; an address outside every group is ignored |
| `PageAllocators.PageAllocator.Reclaim` | project/Operating_System_Weenix/kernel/mm/page.c:207-247 | Blocks of idle slabs come back one by one, each as by page_free_n |
| `PageAllocators.PageAllocator.AllocN` | project/Operating_System_Weenix/kernel/mm/page.c:380-394 | The source's panic happens exactly when no order fits; a result is a free block of the least order that fits, now live; no memory means that no group had room for it |
| `PageAllocators.PageAllocator.FreeN` | project/Operating_System_Weenix/kernel/mm/page.c:400-413 | Called with the size of the request, it gives back exactly the block of that request |
| `OnionCipher.PadRoundTrip` | project/Anomonous_System_Onion_Router/aes-test.cpp:33-110 | Padding to whole 16-byte blocks, with a full extra block on aligned input, is undone exactly by unpadding |
| `OnionCipher.OpenSeal` | project/Anomonous_System_Onion_Router/aes-test.cpp:33-110 | Decrypting what was encrypted with the same key gives the input back; the length is 16 * (n / 16 + 1) |
| `OnionCipher.UnwrapWrap` | project/Anomonous_System_Onion_Router/proxy.cpp:1099-1169 | For every number of keys and every packet, peeling the layers in path order gives the packet back, and r >= 1 layers turn length n into 16 * (n / 16 + r) |
| `OnionCipher.EncryptWithPadding` | project/Anomonous_System_Onion_Router/aes-test.cpp:33-68 | The bytes and the length produced are those of padding followed by encryption of whole blocks |
| `OnionCipher.DecryptWithPadding` | project/Anomonous_System_Onion_Router/aes-test.cpp:80-110 | The result is the decrypted input without its padding; the cases in which the source would read before the buffer or fail its assertion are told apart |
| `OnionCipher.EncryptMultiround` | project/Anomonous_System_Onion_Router/proxy.cpp:1099-1132 | The loop from the last hop down to the first puts the first hop's layer outermost |
| `OnionCipher.DecryptMultiround` | project/Anomonous_System_Onion_Router/proxy.cpp:1135-1169 | The loop from the first hop up takes the layers off in path order and fails exactly when some layer does not open |
| `OnionRouter.AtoiDecimal` | project/Anomonous_System_Onion_Router/router.cpp:497-609 | Reading back a number printed in decimal gives the number |
| `OnionRouter.PortText` | project/Anomonous_System_Onion_Router/router.cpp:497-609 | A port survives being put in network order, printed, parsed and swapped back |
| `OnionRouter.PortUnterminated` | project/Anomonous_System_Onion_Router/router.cpp:560-567 | The decrypted port text has no terminating zero, so atoi reads on: the number is right if and only if no digit follows in memory |
| `OnionRouter.HandleOk` | project/Anomonous_System_Onion_Router/router.cpp:981-1172 | Every message of circuits 1 to 9 keeps every stored identifier in the slot it names, within the highest circuit number seen |
| `OnionRouter.HandleElsewhere` | project/Anomonous_System_Onion_Router/router.cpp:981-1172 | A message of one circuit leaves the entries and keys of all other circuits alone |
| `OnionRouter.RouterProcess.constructor` | project/Anomonous_System_Onion_Router/router.cpp:26-39 | A new router knows no circuit |
| `OnionRouter.RouterProcess.FindIn` | project/Anomonous_System_Onion_Router/router.cpp:410-492 | The scan over cc[] for an incoming identifier succeeds if and only if slot iID & 0xf holds it |
| `OnionRouter.RouterProcess.FindOut` | project/Anomonous_System_Onion_Router/router.cpp:150-196 | The scan for an outgoing identifier succeeds if and only if its own slot holds it |
| `OnionRouter.RouterProcess.OnKey` | project/Anomonous_System_Onion_Router/router.cpp:410-492 | An unknown circuit stores the key, a known one peels a layer and forwards; the overlong copy and the failing assertion are the only ways to end the process |
| `OnionRouter.RouterProcess.OnExtend` | project/Anomonous_System_Onion_Router/router.cpp:497-609 | An unknown circuit fills an empty entry with its neighbours and answers, a known one peels a layer and forwards |
| `OnionRouter.RouterProcess.OnExtendDone` | project/Anomonous_System_Onion_Router/router.cpp:150-196 | The answer goes back along the incoming side of the entry |
| `OnionRouter.RouterProcess.OnRelay` | project/Anomonous_System_Onion_Router/router.cpp:199-343 | One layer comes off; the packet leaves at the last hop and goes on elsewhere |
| `OnionRouter.RouterProcess.OnRelayReply` | project/Anomonous_System_Onion_Router/router.cpp:346-406 | One layer goes on, on the way back to the incoming side |
| `OnionRouter.RouterProcess.Handle` | project/Anomonous_System_Onion_Router/router.cpp:981-1172 | The dispatch raises the highest circuit number first, then acts as the handlers do, and keeps the tables well formed |
| `OnionCircuit.KeyPasses` | project/Anomonous_System_Onion_Router/router.cpp:410-492 | A hop already on the circuit turns the wrapped key for a later hop into exactly the message for the next hop and stays as it was |
| `OnionCircuit.KeyArrives` | project/Anomonous_System_Onion_Router/router.cpp:410-492 | The hop being added stores exactly its own key, in the clear only for itself |
| `OnionCircuit.ExtendPasses` | project/Anomonous_System_Onion_Router/router.cpp:497-609 | A hop already on the circuit turns the extend request into exactly the one for the next hop |
| `OnionCircuit.ExtendArrives` | project/Anomonous_System_Onion_Router/router.cpp:497-609 | The hop being added fills its entry with both identifiers, the port it heard from and the port it was told, and answers |
| `OnionCircuit.DonePasses` | project/Anomonous_System_Onion_Router/router.cpp:150-196 | The answer moves one hop back with the identifier of the link before |
| `OnionCircuit.AnyStep` | project/Anomonous_System_Onion_Router/proxy.cpp:871-981 | Whatever datagram is delivered next, the state stays one of the states of circuit construction and exactly one step less remains |
| `OnionCircuit.NoDeadlock` | project/Anomonous_System_Onion_Router/proxy.cpp:871-981 | Until the last hop is added, some step is possible |
| `OnionCircuit.RunKeeps` | project/Anomonous_System_Onion_Router/proxy.cpp:871-981 | The same over every run, with the number of steps left counted exactly |
| `OnionCircuit.CircuitIsBuilt` | project/Anomonous_System_Onion_Router/proxy.cpp:871-981 | Every run, for every path length and every order of deliveries: no router ends; between iterations exactly the first i hops hold the circuit, each with its own key, its outgoing identifier equal to the next hop's incoming one and its outgoing port that of the next hop (0xffff at the last); a run that cannot go on has n + 3n(n + 1)/2 steps and has added every hop |
| `OnionCircuit.TakenForAnswer` | project/Anomonous_System_Onion_Router/proxy.cpp:960-981 | The receive of create_circuit takes any datagram for its answer: afterwards the hop at hand is in place if and only if it has answered by then, which is why other datagrams under way can spoil a construction |
| `OnionCircuit.RunElsewhere` | project/Anomonous_System_Onion_Router/proxy.cpp:871-981 | Building one circuit leaves every other circuit, and every router off the path, as it was |
| `OnionTransport.EstablishedIsBuilt` | project/Anomonous_System_Onion_Router/proxy.cpp:871-981 | A finished construction is what transport starts from |
| `OnionTransport.RelayPasses` | project/Anomonous_System_Onion_Router/router.cpp:199-343 | Hop x turns the message for hop x into exactly the message for hop x + 1 |
| `OnionTransport.RelayExits` | project/Anomonous_System_Onion_Router/router.cpp:199-343 | The last hop recovers exactly the packet the proxy wrapped, and its tables do not change |
| `OnionTransport.ReplyStarts` | project/Anomonous_System_Onion_Router/router.cpp:819-878 | What the last hop sends back is the answer under its own layer, on the incoming side of the circuit |
| `OnionTransport.ReplyPasses` | project/Anomonous_System_Onion_Router/router.cpp:346-406 | Each hop adds its layer and passes the answer back |
| `OnionTransport.AnyStep` | project/Anomonous_System_Onion_Router/proxy.cpp:463-525 | Sending, answering and every delivery, in any order, keep the pipeline: what was sent is what left plus what is under way, oldest first, and likewise back |
| `OnionTransport.RunKeeps` | project/Anomonous_System_Onion_Router/proxy.cpp:463-525 | The same over every run |
| `OnionTransport.PacketsArrive` | project/Anomonous_System_Onion_Router/proxy.cpp:277-525 | Every run over a finished circuit: no router ends and no table changes, the packets recovered at the last hop are a prefix of those the proxy wrapped, byte for byte and in order, the same for answers at the proxy, and when nothing is under way everything has arrived |
| `OnionProxy.IsDupHop` | project/Anomonous_System_Onion_Router/proxy.cpp:857-868 | True if and only if the hop stands in the row |
| `OnionProxy.DrawnMeans` | project/Anomonous_System_Onion_Router/proxy.cpp:822-855 | The hops the random numbers offer are router numbers, pairwise different, never the previous circuit's first hop, and leave out no other router that was drawn |
| `OnionProxy.GeneratePath` | project/Anomonous_System_Onion_Router/proxy.cpp:822-855 | A path is completed if and only if enough usable hops are drawn; it is the first of them in the order drawn, so its routers are distinct and do not include the previous first hop |
| `OnionProxy.Requests` | project/Anomonous_System_Onion_Router/proxy.cpp:871-1067 | The two datagrams of an iteration carry the new hop's key and port under the layers of exactly the hops before it, and of itself for the port |
| `OnionProxy.WrapPacket` | project/Anomonous_System_Onion_Router/proxy.cpp:277-419 | The relay message carries the packet under one layer per hop |
| `OnionProxy.UnwrapAnswer` | project/Anomonous_System_Onion_Router/proxy.cpp:463-525 | An answer that entered at the last hop comes out as its original bytes |
| `Rewriting.Unlinkable` | project/Anomonous_System_Onion_Router/proxy.cpp:311-315 | The packet the proxy wraps is the same for two packets if and only if they have the same length and agree outside source address and header checksum |
| `Rewriting.HiddenSame` | project/Anomonous_System_Onion_Router/router.cpp:275-327 | Having zeroed the source at the proxy changes nothing in what leaves the last hop |
| `Rewriting.SumsToZero` | project/Anomonous_System_Onion_Router/proxy.cpp:313-315 | A header whose checksum was computed anew sums up to 0 |
| `Rewriting.ResealedChecked` | project/Anomonous_System_Onion_Router/router.cpp:312-313 | After compute_tcp_checksum a TCP packet sums up to 0 with its pseudo header, and its IP header still does |
| `Rewriting.OutgoingMeans` | project/Anomonous_System_Onion_Router/router.cpp:275-327 | What leaves the last hop has the new source, good IP and TCP checksums, and every other byte of the packet |
| `Rewriting.DeliveredMeans` | project/Anomonous_System_Onion_Router/proxy.cpp:507-515 | The same of what the proxy writes to the tunnel, with the new destination |
| `Rewriting.TcpTells` | project/Anomonous_System_Onion_Router/proxy.cpp:311-315 | The hidden source shows in the TCP checksum, which is not recomputed: the same TCP packet with good checksums from a and from b is wrapped as the same bytes if and only if the words of a and b have the same sum modulo 0xffff |
| `Rewriting.OthersTellNothing` | project/Anomonous_System_Onion_Router/proxy.cpp:389-398 | A packet that is not TCP is wrapped as the same bytes whatever its source |
| `Rewriting.TwoHosts` | project/Anomonous_System_Onion_Router/proxy.cpp:311-315 | A failing input: any TCP packet, from 10.0.2.1 and from 10.0.2.2, is wrapped as different bytes |
| `Rewriting.Readdress` | project/Anomonous_System_Onion_Router/router.cpp:281-284 | The in-place stores and in_cksum give the packet with the new address and its header checksum |
| `Rewriting.HideSource` | project/Anomonous_System_Onion_Router/proxy.cpp:311-315 | The source becomes 0.0.0.0 and the header sums up to 0 again |
| `Rewriting.SendOut` | project/Anomonous_System_Onion_Router/router.cpp:275-327 | ICMP and TCP packets leave in place rewritten, others are not sent |
| `Rewriting.Deliver` | project/Anomonous_System_Onion_Router/proxy.cpp:507-515 | The packet in the buffer is rewritten in place for the tunnel |
| `OnionFlows.SharedCircuit` | project/Anomonous_System_Onion_Router/proxy.cpp:663-744 | Two packets are given the same circuit if and only if they agree in source, destination, protocol and, for TCP, destination port |
| `OnionFlows.SameCircuits` | project/Anomonous_System_Onion_Router/proxy.cpp:663-744 | Two sequences of packets are given the same circuits if and only if the same ones share flows |
| `OnionFlows.FlowTable.constructor` | project/Anomonous_System_Onion_Router/proxy.cpp:632-635 | No flow is known and no circuit number used |
| `OnionFlows.FlowTable.FindFlow` | project/Anomonous_System_Onion_Router/proxy.cpp:667-715 | The loop over the 36 entries finds the entry of the packet's flow if and only if there is one, although ICMP packets are compared without ports |
| `OnionFlows.FlowTable.Choose` | project/Anomonous_System_Onion_Router/proxy.cpp:663-744 | A known flow keeps its circuit, a new one gets the next number and is entered once |
| `OnionNetwork.ArriveSeen` | project/Anomonous_System_Onion_Router/router.cpp:981-1172 | A delivery among the datagrams of many circuits is the same delivery on the one circuit the datagram belongs to, and no other circuit sees it |
| `OnionNetwork.OpenStep` | project/Anomonous_System_Onion_Router/proxy.cpp:871-981 | Building a circuit on an idle network leaves every other circuit in place and adds a working one |
| `OnionNetwork.AnyStep` | project/Anomonous_System_Onion_Router/proxy.cpp:611-768 | Every step of the network, with all circuits over the same routers and links, keeps each of them a working circuit |
| `OnionNetwork.RunKeeps` | project/Anomonous_System_Onion_Router/proxy.cpp:611-768 | The same over every run |
| `OnionTunnel.TunnelArrives` | project/Anomonous_System_Onion_Router/proxy.cpp:611-768 | Every run of the whole network from its start, with as many flows as the tables hold: no process ends in an error; on each circuit the k-th packet that leaves the last hop is the k-th TCP packet or echo request of that circuit's flow from the tunnel, with the new source, good checksums and all other bytes, and is of a protocol the last hop sends; answers are delivered in order with all their bytes; when nothing is under way all have left and come back |
| `OnionTunnel.SentRun` | project/Anomonous_System_Onion_Router/proxy.cpp:663-744 | In every run each circuit is sent exactly the packets of its own flow, in order and without their sources |
| `OnionTraces.TableRun` | project/Anomonous_System_Onion_Router/proxy.cpp:663-744 | In every run the flow table is that of the packets looked at so far, in order of first appearance |
| `OnionTraces.Untraceable` | project/Anomonous_System_Onion_Router/proxy.cpp:663-744 | Two runs with other packets from the tunnel look the same on every link and at every router, at every point, if and only if each packet sent has a counterpart on the same circuit that differs at most in source and header checksum; where every packet is sent, that is: the packets differ at most so and the same ones share flows |
| `OnionTraces.SecondHost` | project/Anomonous_System_Onion_Router/proxy.cpp:663-744 | A failing input: two packets from two hosts take circuits 0 and 1, from one host both take circuit 0 |
| `OnionTraces.ReachesSender` | project/Anomonous_System_Onion_Router/proxy.cpp:500-520 | In every run an answer is delivered with all its bytes, and to the host that has the flow if and only if that host sent the last packet of any flow before the delivery |
| `OnionTraces.WrongHost` | project/Anomonous_System_Onion_Router/proxy.cpp:500-520 | A failing interleaving: whenever an answer waits at the proxy and another host sends a packet first, the answer is delivered to that other host |
| `PageCacheState.DetachOk` | project/Operating_System_Weenix/kernel/mm/pframe.c:526-559 | Taking an unpinned frame off the alloc list, its hash chain and its object's list keeps every index and counter in step |
| `PageCacheState.EvictAll` | project/Operating_System_Weenix/kernel/fs/vnode.c:239-314 | The loop over a dying vnode's pages removes exactly those pages, returns their memory, and takes one reference per page |
| `PageCacheState.PutMeans` | project/Operating_System_Weenix/kernel/fs/vnode.c:216-314 | vput in the words of its comment: with a given number of other active references, the vnode goes away if and only if none is left and it is unlinked or has no page; its pages go with it and nothing else changes |
| `PageCacheState.PutCounts` | project/Operating_System_Weenix/kernel/fs/vnode.c:216-314 | After vput every remaining vnode again has as many references as holders and resident pages together |
| `PageCacheState.FreeOwes` | project/Operating_System_Weenix/kernel/mm/pframe.c:526-559 | Freeing a page of a sound cache hands vput a vnode with one reference too many that is never torn down by it |
| `PageCacheState.FreeInTeardown` | project/Operating_System_Weenix/kernel/fs/vnode.c:239-314 | While a teardown runs, the re-entered vput only lowers the count: no second teardown starts |
| `PageCacheState.TouchOk` | project/Operating_System_Weenix/kernel/mm/pframe.c:200-222 | Moving a requested page to the back of the alloc list keeps the indexes |
| `PageCacheState.PinOk` | project/Operating_System_Weenix/kernel/mm/pframe.c:399-415 | Pinning moves a frame between the lists exactly at the first pin, keeping lists and counters in step |
| `PageCacheState.UnpinOk` | project/Operating_System_Weenix/kernel/mm/pframe.c:427-445 | Unpinning moves it back exactly at the last unpin |
| `PageCacheState.AttachOk` | project/Operating_System_Weenix/kernel/mm/pframe.c:237-267 | A new frame of a page that was not resident keeps one frame per page and all indexes |
| `PageCacheState.IndexedChain` | project/Operating_System_Weenix/kernel/mm/pframe.c:200-222 | A resident page is in the chain of its hash, so the search of one chain is enough |
| `PageCacheState.OneFrame` | project/Operating_System_Weenix/kernel/mm/pframe.c:200-222 | The frame a request finds is the only frame of that page |
| `PageCacheState.NewVnodeOk` | project/Operating_System_Weenix/kernel/fs/vnode.c:125-214 | A vnode put on the in-use list after the search keeps one vnode per (fs, vno) |
| `PageCacheState.RehomeOk` | project/Operating_System_Weenix/kernel/mm/pframe.c:286-307 | A page that migrates is found under its new object by hash and by list, and no longer under the old one |
| `PageCaches.PageCache.constructor` | project/Operating_System_Weenix/kernel/mm/pframe.c:133-156 | Empty lists, chains and counters |
| `PageCaches.PageCache.PframeFree` | project/Operating_System_Weenix/kernel/mm/pframe.c:526-559 | Detaching the frame and dropping its reference, with the re-entered vput; teardowns are counted |
| `PageCaches.PageCache.Vput` | project/Operating_System_Weenix/kernel/fs/vnode.c:216-314 | The recursive vput has exactly the effect Put describes, terminates, and starts at most one teardown |
| `PageCaches.PageCache.Teardown` | project/Operating_System_Weenix/kernel/fs/vnode.c:239-314 | The teardown branch runs through all pages, starts no second teardown, and ends with refcount 1 and no pages |
| `PageCaches.PageCache.VgetStart` | project/Operating_System_Weenix/kernel/fs/vnode.c:125-214 | A vnode in use gets a reference, one being read in is waited for, and a new one is put on the list only when no other of the same (fs, vno) is there |
| `PageCaches.PageCache.GetResident` | project/Operating_System_Weenix/kernel/mm/pframe.c:200-222 | A frame is found if and only if the page is resident; it goes to the back of the alloc list unless pinned |
| `PageCaches.PageCache.AllocFrame` | project/Operating_System_Weenix/kernel/mm/pframe.c:237-267 | A frame is made if and only if frame and page memory are available; otherwise nothing changes |
| `PageCaches.PageCache.Get` | project/Operating_System_Weenix/kernel/mm/pframe.c:348-384 | The resident page or a new frame; no result if and only if the page is not resident and memory is short, and then nothing changes |
| `PageCaches.PageCache.RehomeFrame` | project/Operating_System_Weenix/kernel/mm/pframe.c:286-307 | The frame changes chain, list and object, and the old object loses one reference without a teardown |
| `PageCaches.PageCache.Migrate` | project/Operating_System_Weenix/kernel/mm/pframe.c:286-307 | If the destination has the page, the frame is unpinned, cleaned and freed; otherwise it moves |
| `PageCacheRuns.PutSound` | project/Operating_System_Weenix/kernel/fs/vnode.c:216-314 | vput keeps the whole invariant: indexes, counts and request order |
| `PageCacheRuns.FreeSound` | project/Operating_System_Weenix/kernel/mm/pframe.c:526-559 | pframe_free keeps the whole invariant and never tears a vnode down |
| `PageCacheRuns.RehomeSound` | project/Operating_System_Weenix/kernel/mm/pframe.c:286-307 | Migration keeps the whole invariant; the moved page takes its reference along |
| `PageCacheRuns.OpKeeps` | project/Operating_System_Weenix/kernel/mm/pframe.c:200-559 | Every operation of the cache and of the vnodes keeps the whole invariant |
| `PageCacheRuns.FramesAgree` | project/Operating_System_Weenix/kernel/mm/pframe.c:200-559 | At every point of every run: a resident page has exactly one frame, in its hash chain and no other, on its object's list and no other, on the pinned list if and only if its pin count is positive and else on the alloc list; nallocated, npinned and mmo_nrespages are the list lengths |
| `PageCacheRuns.VnodesCount` | project/Operating_System_Weenix/kernel/fs/vnode.c:104-314 | At every point of every run: vn_refcount minus vn_nrespages is the number of active references, no vnode that is not being read in has count 0, and at most one in-use vnode exists per (fs, vno) |
| `PageCacheCalls.GetPage` | project/Operating_System_Weenix/kernel/mm/pframe.c:348-384 | On a sound cache: no frame if and only if the page is not resident and memory is short, and then nothing changes; otherwise the one frame of that page, by one step of the runs |
| `PageCacheCalls.PinPage` | project/Operating_System_Weenix/kernel/mm/pframe.c:399-415 | On a sound cache: the frame is on the pinned list and not on the alloc list, and the cache stays sound |
| `PageCacheCalls.UnpinPage` | project/Operating_System_Weenix/kernel/mm/pframe.c:427-445 | On a sound cache: at the last unpin the frame goes to the back of the alloc list and otherwise stays pinned; the cache stays sound |
| `PageCacheCalls.DirtyPage` | project/Operating_System_Weenix/kernel/mm/pframe.c:459-475 | On a sound cache: the page is marked by one step of the runs if the object allows it, and otherwise nothing changes |
| `PageCacheCalls.CleanPage` | project/Operating_System_Weenix/kernel/mm/pframe.c:486-516 | On a sound cache: the page is dirty afterwards if and only if writing it failed, and the cache stays sound |
| `PageCacheCalls.FreePage` | project/Operating_System_Weenix/kernel/mm/pframe.c:526-559 | On a sound cache: the page goes by one step of the runs and no vnode is torn down |
| `PageCacheCalls.MovePage` | project/Operating_System_Weenix/kernel/mm/pframe.c:286-307 | On a sound cache: a page moves to an object that does not have it by one step of the runs, without a teardown |
| `PageCacheCalls.RefVnode` | project/Operating_System_Weenix/kernel/fs/vnode.c:115-123 | On a sound cache: one more holder, and every count is holders plus resident pages again |
| `PageCacheCalls.PutVnode` | project/Operating_System_Weenix/kernel/fs/vnode.c:216-314 | On a sound cache: the vnode goes if and only if this was its last holder and it is unlinked or has no page; one teardown runs exactly for a doomed vnode; no other vnode comes or goes |
| `PageCacheCalls.GetVnode` | project/Operating_System_Weenix/kernel/fs/vnode.c:125-214 | On a sound cache: a vnode in use gets a holder, one still being read in is reported and nothing changes, a new one is listed only if no other has that (fs, vno), and without memory nothing changes |
| `PageCacheCalls.FinishVnode` | project/Operating_System_Weenix/kernel/fs/vnode.c:125-214 | On a sound cache: the vnode read in has exactly one holder and the cache stays sound |
| `PageoutDaemon.HeadIsOldest` | project/Operating_System_Weenix/kernel/mm/pframe.c:667-687 | The head of the alloc list is unpinned and was requested or unpinned longest ago of all unpinned pages |
| `PageoutDaemon.CleanTurn` | project/Operating_System_Weenix/kernel/mm/pframe.c:667-687 | Cleaning the head changes only its dirty bit |
| `PageoutDaemon.FreeTurn` | project/Operating_System_Weenix/kernel/mm/pframe.c:667-687 | Freeing the clean head takes that one page and nothing else, keeping the invariant |
| `PageoutDaemon.Turn` | project/Operating_System_Weenix/kernel/mm/pframe.c:667-687 | One turn frees the head if it is clean and cleans it otherwise |
| `PageoutDaemon.Pageout` | project/Operating_System_Weenix/kernel/mm/pframe.c:667-687 | The loop reclaims exactly the k least recently requested pages, none past the target, and ends with the target met or the list empty after at most 2 * length turns plus one per failed write |
| `SlabLayout.NobjsFits` | project/Operating_System_Weenix/kernel/mm/slab.c:103-126 | The computed number of objects is the largest that fits with the descriptor, the waste is less than one more object, and there is room for one object if and only if the block holds one object, its control word and the descriptor |
| `SlabLayout.MinOrder` | project/Operating_System_Weenix/kernel/mm/slab.c:128-169 | The first loop finds the least order whose block reaches the minimum size, as signed numbers |
| `SlabLayout.CalcSlabSize` | project/Operating_System_Weenix/kernel/mm/slab.c:128-169 | The order chosen has the least waste of all orders the source considers and is the smallest such order; the panic happens exactly when no block is large enough; at least one object fits if and only if the size stays below 2^31 as a signed number |
| `SlabLayout.NoObjects` | project/Operating_System_Weenix/kernel/mm/slab.c:128-169 | A failing input: for objects of 2^31 bytes the smallest block passes the signed comparison, and no block holds an object |
| `SlabLayout.SlotsSpread` | project/Operating_System_Weenix/kernel/mm/slab.c:213-271 | The slots lie between the first one and the descriptor and never overlap |
| `SlabLayout.SlabInBlock` | project/Operating_System_Weenix/kernel/mm/slab.c:213-271 | Every slot and the trailing descriptor fit the page block |
| `SlabHeap.PopBody` | project/Operating_System_Weenix/kernel/mm/slab.c:273-319 | Taking the head of the threaded free list leaves chain and live objects a partition of the slots, with the live object's word pointing back to its slab |
| `SlabHeap.PushBody` | project/Operating_System_Weenix/kernel/mm/slab.c:321-349 | Putting a live object back in front leaves the same |
| `SlabHeap.Partition` | project/Operating_System_Weenix/kernel/mm/slab.c:213-349 | The threaded free chain and the live objects partition the nobjs slots; s_inuse counts the live ones, is 0 if and only if all slots are free, and is below nobjs if and only if the chain is nonempty |
| `SlabHeap.PopOk` | project/Operating_System_Weenix/kernel/mm/slab.c:273-319 | An allocation makes exactly one object live, which was free, and keeps the invariant of all slabs |
| `SlabHeap.PushOk` | project/Operating_System_Weenix/kernel/mm/slab.c:321-349 | A free makes exactly that object free and keeps the invariant of all slabs |
| `SlabHeap.BackPointer` | project/Operating_System_Weenix/kernel/mm/slab.c:321-349 | The control word of a live object leads to its own slab |
| `SlabHeap.PushPop` | project/Operating_System_Weenix/kernel/mm/slab.c:273-349 | Freeing what was just allocated brings every word, list and count back |
| `SlabHeap.LiveApart` | project/Operating_System_Weenix/kernel/mm/slab.c:213-349 | Two live objects, of the same or different slabs, never overlap, and neither reaches into a control word or a descriptor |
| `SlabHeap.ThreadBuilds` | project/Operating_System_Weenix/kernel/mm/slab.c:213-271 | The loop of grow threads all slots of the new slab into one chain in order |
| `SlabHeap.GrowOk` | project/Operating_System_Weenix/kernel/mm/slab.c:213-271 | A block that was nowhere in use becomes a slab of free objects; no object becomes live or dies |
| `SlabHeap.InBlock` | project/Operating_System_Weenix/kernel/mm/slab.c:213-271 | At every slab, first slot to descriptor lie in the block taken for it |
| `SlabHeap.DropOk` | project/Operating_System_Weenix/kernel/mm/slab.c:358-390 | A slab with s_inuse 0 can go: its block is on loan at the order of its allocator and no object dies |
| `SlabHeap.NewCacheOk` | project/Operating_System_Weenix/kernel/mm/slab.c:171-210 | A new allocator keeps the invariant |
| `SlabHeap.FirstRoom` | project/Operating_System_Weenix/kernel/mm/slab.c:273-319 | The first slab on the list that has a free object; none only if all are full |
| `SlabHeap.AllocMeans` | project/Operating_System_Weenix/kernel/mm/slab.c:273-319 | slab_obj_alloc fails if and only if every slab of the allocator is full and no block is to be had; otherwise exactly one new object of that allocator is live |
| `SlabAllocators.SlabKernel.constructor` | project/Operating_System_Weenix/kernel/mm/slab.c:487-506 | No allocators, slabs or blocks |
| `SlabAllocators.SlabKernel.AllocatorInit` | project/Operating_System_Weenix/kernel/mm/slab.c:171-198 | The red zones enlarge the object size and the layout is the one computed; the panic case is exact and changes nothing |
| `SlabAllocators.SlabKernel.GrowCache` | project/Operating_System_Weenix/kernel/mm/slab.c:213-271 | The in-place loop builds exactly the slab Grow describes, or reports failure and changes nothing |
| `SlabAllocators.SlabKernel.FindSlab` | project/Operating_System_Weenix/kernel/mm/slab.c:273-319 | The search returns the first slab with room |
| `SlabAllocators.SlabKernel.ObjAlloc` | project/Operating_System_Weenix/kernel/mm/slab.c:273-319 | Object and new heap are those of taking the first free object of the first slab with room, after growing if there was none |
| `SlabAllocators.SlabKernel.DropSlab` | project/Operating_System_Weenix/kernel/mm/slab.c:358-390 | The slab leaves its list and its block goes back with the number of pages it was taken with |
| `SlabAllocators.SlabKernel.Reclaim` | project/Operating_System_Weenix/kernel/mm/slab.c:358-390 | Only slabs without live objects go, no object dies, the result counts the pages returned; unless the target was met no idle slab is left, and the last block that went was needed to meet it |
| `SlabAllocators.SlabKernel.Kmalloc` | project/Operating_System_Weenix/kernel/mm/slab.c:416-447 | The chunk comes from the smallest bucket that holds size and header in 32-bit arithmetic; the panic happens exactly when none does |
| `SlabAllocators.SlabKernel.Kfree` | project/Operating_System_Weenix/kernel/mm/slab.c:458-477 | The allocator is found through the header in front of the chunk and the object behind it is freed |
| `SlabAllocators.AllocReady` | project/Operating_System_Weenix/kernel/mm/slab.c:273-319 | In a sound heap the search and the growth of slab_obj_alloc always find what they read |
| `SlabAllocators.KfreeUndoes` | project/Operating_System_Weenix/kernel/mm/slab.c:416-477 | On a sound heap kfree of what kmalloc returned finds its allocator and restores every word, list and count, or leaves only the new slab |
| `SlabAllocators.ChunkHolds` | project/Operating_System_Weenix/kernel/mm/slab.c:416-447 | A chunk has room for the request behind its header if and only if size + sizeof(pointer) did not wrap around |
| `SlabAllocators.WrappedChunk` | project/Operating_System_Weenix/kernel/mm/slab.c:416-447 | A failing input: a request for 2^32 - 1 bytes passes for the smallest bucket, whose chunk has 60 bytes behind the header |
| `SlabRuns.StepAgrees` | project/Operating_System_Weenix/kernel/mm/slab.c:171-390 | Every operation keeps slabs and the callers' set of held objects in agreement, and an allocation returns an object not held before |
| `SlabRuns.RunAgrees` | project/Operating_System_Weenix/kernel/mm/slab.c:171-390 | The same at every point of every run |
| `SlabRuns.HeldApart` | project/Operating_System_Weenix/kernel/mm/slab.c:171-390 | At every point of every run two held objects do not overlap, each control word leads to its slab, and s_inuse is the number of the slab's held objects |
| `SlabPages.LoansApart` | project/Operating_System_Weenix/kernel/mm/page.c:256-291 | Two blocks on loan from the page allocator, of the same group or not, do not overlap as address ranges |
| `SlabPages.LoanIsFresh` | project/Operating_System_Weenix/kernel/mm/slab.c:213-271 | A loan that is none of the blocks the slabs lie in is, in bytes, apart from all of them, which is what the growth of a slab allocator relies on |
| `SlabPages.GrowFrom` | project/Operating_System_Weenix/kernel/mm/slab.c:213-271 | The two allocators together: the new slab lies in a block just lent by page_alloc_n, apart from every other, and every slab block is backed by its own loan again; growth fails if and only if no group of pages has room, and then all idle slabs, and only those, have gone back, the free pages have grown by exactly theirs, and no object has died |
| `SlabPages.DropTo` | project/Operating_System_Weenix/kernel/mm/slab.c:358-390 | The two allocators together: the address and page count an idle slab goes back with are those of exactly the loan its block is, and the other slab blocks stay backed |
| `SlabPages.ReclaimTo` | project/Operating_System_Weenix/kernel/mm/slab.c:358-390 | The two allocators together: reclaim with target 0 gives back the blocks of all idle slabs and no others, page_freecount grows by exactly their pages, no object dies, and the other slab blocks stay backed by their loans |
| `Ring.My402List.constructor` | project/multiple_Threading-token_bucket/my402list.c:29-34 | An empty ring closed on its anchor |
| `Ring.My402List.Link` | project/multiple_Threading-token_bucket/my402list.c:36-85 | The pointer surgery shared by the insertions keeps the ring closed both ways and puts one new element at its place |
| `Ring.My402List.Append` | project/multiple_Threading-token_bucket/my402list.c:36-47 | The object becomes the last one, everything else keeps its order |
| `Ring.My402List.Prepend` | project/multiple_Threading-token_bucket/my402list.c:49-59 | The object becomes the first one |
| `Ring.My402List.InsertAfter` | project/multiple_Threading-token_bucket/my402list.c:62-72 | The object stands right behind the given element |
| `Ring.My402List.InsertBefore` | project/multiple_Threading-token_bucket/my402list.c:75-85 | The object stands right before the given element |
| `Ring.My402List.Bypass` | project/multiple_Threading-token_bucket/my402list.c:136-143 | Bypassing an element leaves the others in a closed ring, in order |
| `Ring.My402List.Unlink` | project/multiple_Threading-token_bucket/my402list.c:136-143 | Exactly that element is gone and num_members is the length |
| `Ring.My402List.UnlinkAll` | project/multiple_Threading-token_bucket/my402list.c:146-159 | The list is empty again |
| `Ring.My402List.Length` | project/multiple_Threading-token_bucket/my402list.c:89-91 | num_members is the number of elements on the ring |
| `Ring.My402List.Empty` | project/multiple_Threading-token_bucket/my402list.c:93-98 | True if and only if nothing is on the ring |
| `Ring.My402List.First` | project/multiple_Threading-token_bucket/my402list.c:100-107 | The first element, or NULL exactly on the empty list |
| `Ring.My402List.Last` | project/multiple_Threading-token_bucket/my402list.c:110-117 | The last element, or NULL exactly on the empty list |
| `Ring.My402List.Next` | project/multiple_Threading-token_bucket/my402list.c:120-125 | The following element, or NULL exactly at the end |
| `Ring.My402List.Prev` | project/multiple_Threading-token_bucket/my402list.c:128-133 | The preceding element, or NULL exactly at the front |
| `TokenBucketRuns.StepKeeps` | project/multiple_Threading-token_bucket/warmup2.c:324-720 | Each critical section of the three threads keeps packets in order, tokens conserved, 0 <= token_g <= B, and too few tokens for the packet that waits |
| `TokenBucketRuns.RunKeeps` | project/multiple_Threading-token_bucket/warmup2.c:324-720 | The same at every point of every interleaving |
| `TokenBucketRuns.SegmentConforms` | project/multiple_Threading-token_bucket/warmup2.c:370-626 | Over any segment of any run the tokens spent are at most B plus the tokens that arrived in it; tokens produced = dropped + held + spent |
| `TokenBucketRuns.NoWaste` | project/multiple_Threading-token_bucket/warmup2.c:568-626 | While a packet waits in Q1, token_g is below what the head needs and no token is dropped |
| `TokenBucketRuns.Pipeline` | project/multiple_Threading-token_bucket/warmup2.c:324-717 | Every arrived packet is in exactly one of dropped, Q1, Q2, in service or served; together the places hold the accepted packets in arrival order; after the shutdown test has held, served + dropped = n |
| `TokenBucketRuns.TickHelps` | project/multiple_Threading-token_bucket/warmup2.c:568-626 | Each token brings the waiting packets exactly one token nearer to leaving |
| `TokenBucketRuns.MissingExact` | project/multiple_Threading-token_bucket/warmup2.c:568-626 | Once all packets have arrived, the tokens missing fall by exactly the tokens that come, down to 0 |
| `TokenBucketRuns.Drains` | project/multiple_Threading-token_bucket/warmup2.c:568-626 | Q1 is empty as soon as, and no sooner than, the missing tokens have come |
| `TokenBucketRuns.Shutdown` | project/multiple_Threading-token_bucket/warmup2.c:595-717 | Every run, once all packets have arrived: at most Rank more useful steps follow, and when none is left the server has shut down if and only if some packet of the input needs no more tokens than the bucket holds; after shutdown no step is left |
| `TokenBucketRuns.RankFalls` | project/multiple_Threading-token_bucket/warmup2.c:568-717 | Once all packets have arrived every useful step lowers the rank and no step raises it |
| `TokenBucketRuns.NeverShutsDown` | project/multiple_Threading-token_bucket/warmup2.c:671-720 | If every packet of the input needs more tokens than the bucket holds, the server shuts down at no point of any run |
| `TokenBucketRuns.DroppedForever` | project/multiple_Threading-token_bucket/warmup2.c:350-720 | A failing input: with depth 1 and one packet that needs 2 tokens every run that has seen the arrival is without a useful step and without shutdown |
| `TokenBuckets.Shift` | project/multiple_Threading-token_bucket/warmup2.c:405-437 | The oldest packet of one ring goes to the front of another, the rest of both stays in order |
| `TokenBuckets.TokenBucket.constructor` | project/multiple_Threading-token_bucket/warmup2.c:729-767 | Empty queues, no tokens |
| `TokenBuckets.TokenBucket.ReleaseOne` | project/multiple_Threading-token_bucket/warmup2.c:405-437 | The block the arrival and the token thread share: the oldest packet of Q1 moves to Q2 and takes its tokens if and only if there are enough |
| `TokenBuckets.TokenBucket.ArrivalTurn` | project/multiple_Threading-token_bucket/warmup2.c:350-450 | A packet that needs more than B tokens is dropped, any other enters Q1 and may leave at once |
| `TokenBuckets.TokenBucket.TokenTurn` | project/multiple_Threading-token_bucket/warmup2.c:568-636 | One turn of the token thread as the step the runs are made of, on the pointer rings |
| `TokenBuckets.TokenBucket.ServerBeginTurn` | project/multiple_Threading-token_bucket/warmup2.c:671-720 | The server takes the oldest packet of Q2, or runs its shutdown test |
| `TokenBuckets.TokenBucket.ServerFinishTurn` | project/multiple_Threading-token_bucket/warmup2.c:671-720 | The packet served joins the served ones, then the shutdown test |
| `PageTables.SetEntryFlat` | project/Operating_System_Weenix/kernel/mm/pagetable.c:118-164 | Writing an entry of a present table changes exactly one page of the flat map |
| `PageTables.NewTableFlat` | project/Operating_System_Weenix/kernel/mm/pagetable.c:118-148 | A new empty table changes no page |
| `PageTables.HitMeans` | project/Operating_System_Weenix/kernel/mm/pagetable.c:166-199 | The pages pt_unmap_range clears are the range and, if both ends lie in one table and the lower is past its start, the rest of that table; so every page of the range is always cleared |
| `PageTables.ExactIff` | project/Operating_System_Weenix/kernel/mm/pagetable.c:166-199 | It clears exactly the range if and only if the ends lie in different tables, or the lower is at the start of its table, or nothing else was mapped in that table |
| `PageTables.TooMuch` | project/Operating_System_Weenix/kernel/mm/pagetable.c:166-199 | A concrete range whose unmapping takes a page outside it along |
| `PageTables.WholeMeans` | project/Operating_System_Weenix/kernel/mm/pagetable.c:166-232 | The tables freed are the present ones between the ends, each once |
| `PageTables.PageDirectory.constructor` | project/Operating_System_Weenix/kernel/mm/pagetable.c:202-214 | The template's kernel tables and no user page |
| `PageTables.PageDirectory.Map` | project/Operating_System_Weenix/kernel/mm/pagetable.c:118-148 | Fails, changing nothing, if and only if the table is missing and no page is to be had; otherwise exactly the one page is mapped |
| `PageTables.PageDirectory.Unmap` | project/Operating_System_Weenix/kernel/mm/pagetable.c:150-164 | Exactly the one page is unmapped |
| `PageTables.PageDirectory.FreeTables` | project/Operating_System_Weenix/kernel/mm/pagetable.c:166-199 | The loop unmaps exactly the whole tables between the ends and frees each present one once |
| `PageTables.PageDirectory.UnmapRange` | project/Operating_System_Weenix/kernel/mm/pagetable.c:166-199 | The pages cleared are those of HitMeans, the tables freed are the present fully covered ones, each exactly once |
| `PageTables.PageDirectory.Destroy` | project/Operating_System_Weenix/kernel/mm/pagetable.c:216-232 | Every table that did not come from the template is freed exactly once |
| `Checksum.FoldMeans` | project/Anomonous_System_Onion_Router/mysocket.cpp:498-592 | Folding gives the representative from 1 to 0xffff modulo 0xffff, and 0 only for 0 |
| `Checksum.FoldTwice` | project/Anomonous_System_Onion_Router/mysocket.cpp:498-521 | The two-step fold of in_cksum equals the looped fold of checksum on every sum below 2^31 |
| `Checksum.SumFits` | project/Anomonous_System_Onion_Router/mysocket.cpp:498-521 | On every buffer up to 65535 bytes the sum stays below 2^31 |
| `Checksum.SumWords` | project/Anomonous_System_Onion_Router/mysocket.cpp:498-521 | The summing loop, odd last byte included, gives the sum of the words with no partial sum past 31 bits |
| `Checksum.InCksum` | project/Anomonous_System_Onion_Router/mysocket.cpp:498-521 | The result is the 16-bit complement of the folded sum |
| `Checksum.FoldLoop` | project/Anomonous_System_Onion_Router/mysocket.cpp:571-592 | The loop ends and gives the fold |
| `Checksum.ChecksumLong` | project/Anomonous_System_Onion_Router/mysocket.cpp:571-592 | The low 16 bits of the signed result are the Internet checksum |
| `Checksum.Accepts` | project/Anomonous_System_Onion_Router/mysocket.cpp:498-592 | The exact field values for which a buffer re-sums to 0: the computed checksum, and 0xffff where that is 0 |
| `Checksum.FilledInIsZero` | project/Anomonous_System_Onion_Router/mysocket.cpp:498-592 | A header with its checksum filled in re-sums to 0 |
| `Checksum.DetectsWord` | project/Anomonous_System_Onion_Router/mysocket.cpp:498-592 | Changing one word of an accepted buffer is noticed unless 0 and 0xffff are swapped |
| `Checksum.PseudoSumIs` | project/Anomonous_System_Onion_Router/mysocket.cpp:525-628 | Adding the halves of the addresses, protocol and length equals summing the pseudo header in memory |
| `Checksum.ComputeTcpChecksum` | project/Anomonous_System_Onion_Router/mysocket.cpp:525-560 | The check field in the buffer becomes the checksum of pseudo header and segment with a zero field; no other byte changes |
| `Checksum.GetTcpChecksum` | project/Anomonous_System_Onion_Router/mysocket.cpp:594-628 | The copy of pseudo header, TCP header, options and data is summed as one buffer |
| `Checksum.TcpAgree` | project/Anomonous_System_Onion_Router/mysocket.cpp:525-628 | With a zero check field the two TCP functions agree, and on the filled segment the checksum is 0 |
| `KernelThreads.EnqueueOk` | project/Operating_System_Weenix/kernel/proc/sched.c:41-48 | Enqueueing a thread that is on no queue keeps: a thread is on at most one queue, once, the one kt_wchan names, and tq_size is the length |
| `KernelThreads.DequeueOk` | project/Operating_System_Weenix/kernel/proc/sched.c:56-73 | Dequeueing keeps the same; the thread that leaves is the one that waited longest |
| `KernelThreads.RemoveOk` | project/Operating_System_Weenix/kernel/proc/sched.c:81-88 | Removing a thread from the queue it waits on keeps the same |
| `KernelThreads.SleepOk` | project/Operating_System_Weenix/kernel/proc/sched.c:111-146 | The current thread waits behind all others of the queue, no other queue changes, and the whole invariant of queues, mutexes and lock calls is kept |
| `KernelThreads.LeaveOk` | project/Operating_System_Weenix/kernel/proc/sched.c:235-264 | A thread that switches away, as at the end of a yield or of its life, changes no queue and keeps the invariant |
| `KernelThreads.ExitOk` | project/Operating_System_Weenix/kernel/proc/kthread.c:205-226 | A thread on no queue may exit, keeping the invariant and every queue |
| `KernelThreads.DispatchOk` | project/Operating_System_Weenix/kernel/proc/sched.c:235-264 | The switch keeps the whole invariant; a thread dispatched inside a lock call holds that mutex |
| `KernelThreads.WakeupOk` | project/Operating_System_Weenix/kernel/proc/sched.c:148-163 | Waking the oldest sleeper keeps the whole invariant |
| `KernelThreads.MakeRunnableOk` | project/Operating_System_Weenix/kernel/proc/sched.c:279-296 | Any thread on no queue, the current one too as in a yield, joins the back of the run queue unless it belongs to the idle process; the invariant is kept and no other queue changes |
| `KernelThreads.CancelOk` | project/Operating_System_Weenix/kernel/proc/sched.c:187-197 | A cancellable sleeper leaves its queue for the run queue, any other thread is only flagged; the invariant is kept |
| `KernelThreads.LockOk` | project/Operating_System_Weenix/kernel/proc/kmutex.c:47-74 | A free mutex is taken at once, otherwise the caller waits behind the others; a lock that returns leaves the caller as holder |
| `KernelThreads.UnlockOk` | project/Operating_System_Weenix/kernel/proc/kmutex.c:122-138 | The holder hands the mutex to the oldest waiter, or frees it without waiters; the invariant holds again |
| `KernelThreads.StepKeeps` | project/Operating_System_Weenix/kernel/proc/sched.c:41-296 | Every operation keeps: waiters imply a holder, the holder does not wait for what it holds, threads in a lock call wait for the mutex or hold it and are runnable |
| `KernelThreads.RunKeeps` | project/Operating_System_Weenix/kernel/proc/sched.c:41-296 | The same at every point of every run |
| `KernelThreads.ReturnsHolding` | project/Operating_System_Weenix/kernel/proc/kmutex.c:47-74 | In every run a thread that returns from kmutex_lock, at once or when dispatched later, is the holder |
| `KernelThreads.Advance` | project/Operating_System_Weenix/kernel/proc/kmutex.c:122-138 | A waiter moves up by one at exactly the holder's unlocks and keeps its position in every other step |
| `KernelThreads.FirstComeFirstServed` | project/Operating_System_Weenix/kernel/proc/kmutex.c:47-138 | The waiter in position k gets the mutex at exactly the k-th unlock by its holder, and not before |
| `Scheduling.Scheduler.constructor` | project/Operating_System_Weenix/kernel/proc/sched.c:25-29 | Empty queues, one running thread |
| `Scheduling.Scheduler.DequeueThread` | project/Operating_System_Weenix/kernel/proc/sched.c:56-73 | The thread that waited longest, or NULL and no change exactly on the empty queue |
| `Scheduling.Scheduler.SleepOn` | project/Operating_System_Weenix/kernel/proc/sched.c:111-122 | Keeps the invariant; the caller stands behind all others of the queue and no other queue changes |
| `Scheduling.Scheduler.CancellableSleepOn` | project/Operating_System_Weenix/kernel/proc/sched.c:132-146 | Keeps the invariant; interrupted if and only if the caller was cancelled, and then nothing changes; otherwise it waits behind the others |
| `Scheduling.Scheduler.ExitThread` | project/Operating_System_Weenix/kernel/proc/kthread.c:205-226 | Keeps the invariant; the caller has exited and no queue changes |
| `Scheduling.Scheduler.LeaveThread` | project/Operating_System_Weenix/kernel/proc/sched.c:235-264 | Keeps the invariant; no thread is current until the next dispatch and no queue changes |
| `Scheduling.Scheduler.Switch` | project/Operating_System_Weenix/kernel/proc/sched.c:235-264 | Keeps the invariant; the thread queued first runs, the others keep their places, and if it was in a lock call it holds that mutex |
| `Scheduling.Scheduler.WakeupOn` | project/Operating_System_Weenix/kernel/proc/sched.c:148-163 | Keeps the invariant; the thread that slept longest moves to the run queue and is returned, all others keep their places; none exactly on an empty queue |
| `Scheduling.Scheduler.MakeThreadRunnable` | project/Operating_System_Weenix/kernel/proc/sched.c:279-296 | Keeps the invariant; the thread joins the back of the run queue unless it belongs to the idle process, and no other queue changes |
| `Scheduling.Scheduler.CancelThread` | project/Operating_System_Weenix/kernel/proc/sched.c:187-197 | Keeps the invariant; the thread is flagged; a cancellable sleeper leaves its queue for the run queue, and otherwise no queue changes |
| `Scheduling.Scheduler.MutexLock` | project/Operating_System_Weenix/kernel/proc/kmutex.c:47-74 | Keeps the invariant; a free mutex is held by the caller at once, and otherwise the holder stays and the caller waits behind all who wait already |
| `Scheduling.Scheduler.MutexUnlock` | project/Operating_System_Weenix/kernel/proc/kmutex.c:122-138 | Keeps the invariant; the new holder is the thread that waited longest, now runnable, or nobody if none waits; the others keep their places; a caller that is not the holder changes nothing |
| `Scheduling.Scheduler.BroadcastOn` | project/Operating_System_Weenix/kernel/proc/sched.c:165-176 | Keeps the invariant; the queue empties onto the run queue in its order and no other queue changes |
| `ElfArgs.ReadBack` | project/Operating_System_Weenix/kernel/api/elf32.c:371-449 | A string copied with its terminator reads back as itself |
| `ElfArgs.SizeOfStrings` | project/Operating_System_Weenix/kernel/api/elf32.c:314-358 | The size loops count every string with its terminator |
| `ElfArgs.CalcArgSize` | project/Operating_System_Weenix/kernel/api/elf32.c:314-358 | The computed size is the sum of head, vectors, strings and one header table per AT_PHDR |
| `ElfArgs.CopyStrings` | project/Operating_System_Weenix/kernel/api/elf32.c:371-449 | The loop over a vector stores each string and its pointer and moves the three pointers on by the right amounts |
| `ElfArgs.CopyAuxs` | project/Operating_System_Weenix/kernel/api/elf32.c:371-449 | The loop over auxv stores each entry, and for every AT_PHDR its own table, each over the one before, and the table address |
| `ElfArgs.LoadHead` | project/Operating_System_Weenix/kernel/api/elf32.c:371-449 | argc and the addresses of the three vectors come first |
| `ElfArgs.LoadStrings` | project/Operating_System_Weenix/kernel/api/elf32.c:371-449 | A vector and its strings join the image without touching what is there |
| `ElfArgs.LoadLists` | project/Operating_System_Weenix/kernel/api/elf32.c:371-449 | Head, arguments and environment are in place with the region of strings starting right behind the vectors |
| `ElfArgs.LoadAux` | project/Operating_System_Weenix/kernel/api/elf32.c:371-449 | The auxiliary vector and the last table join the image without touching what is there, and the region of strings ends with that table |
| `ElfArgs.LoadArgs` | project/Operating_System_Weenix/kernel/api/elf32.c:371-449 | In a buffer of the computed size the result is the image: vectors in front, strings and table behind them, both regions of known length, no overlap and no write outside |
| `ElfArgs.ArgsReadBack` | project/Operating_System_Weenix/kernel/api/elf32.c:371-449 | argc and every argument can be read back through the pointer in the head: each stored pointer minus arglow is the offset of its own string |
| `ElfArgs.EnvReadsBack` | project/Operating_System_Weenix/kernel/api/elf32.c:371-449 | The same for the environment |
| `ElfArgs.AuxReadsBack` | project/Operating_System_Weenix/kernel/api/elf32.c:371-449 | Every auxiliary entry reads back through the pointer in the head; AT_PHDR holds the address behind the last string |
| `ElfArgs.TableReadsBack` | project/Operating_System_Weenix/kernel/api/elf32.c:371-449 | Behind the strings the table of an AT_PHDR entry is found if and only if the last AT_PHDR entry has the same table, as it does when there is only one |
| `ElfArgs.LittleEndian` | project/Operating_System_Weenix/kernel/api/elf32.c:371-449 | Words stored low byte first read back as stored, so the image reads back on this machine |
| `ElfArgs.ExactFit` | project/Operating_System_Weenix/kernel/api/elf32.c:314-449 | The vectors and strings of the image end where the computed size ends if and only if there is at most one AT_PHDR or the table is empty; they never go beyond |
| `ElfArgs.TwoTables` | project/Operating_System_Weenix/kernel/api/elf32.c:314-449 | A failing input: two AT_PHDR entries with different tables leave a byte unused, and the first leads to the table of the second |
| `PathWalk.SplitUnique` | project/Operating_System_Weenix/kernel/fs/namev.c:101-176 | Slash-free components and name, empty ones included, are recovered from the path they form |
| `PathWalk.JoinSplit` | project/Operating_System_Weenix/kernel/fs/namev.c:101-176 | Components and name put together again are the path |
| `PathWalk.WalkAppend` | project/Operating_System_Weenix/kernel/fs/namev.c:101-176 | Walking a path is walking its first part and then the rest from there |
| `PathWalk.NextComponent` | project/Operating_System_Weenix/kernel/fs/namev.c:101-176 | One turn of the loop is one step of the walk |
| `PathWalk.Namespace.LookupVnode` | project/Operating_System_Weenix/kernel/fs/namev.c:36-80 | The answer, with one reference on the vnode found and none on failure |
| `PathWalk.Namespace.WalkBuffer` | project/Operating_System_Weenix/kernel/fs/namev.c:101-176 | The loop over the buffer, which writes zeros over slashes, is the fold of lookup over the components; the reference moves along and is given back on failure |
| `PathWalk.Namespace.DirNamevCall` | project/Operating_System_Weenix/kernel/fs/namev.c:101-176 | For every path up to MAXPATHLEN: the parent by folding lookup over the components, the suffix after the last slash as name, exactly one more reference on that vnode, and none anywhere on failure |
| `PathWalk.Namespace.OpenNamevCall` | project/Operating_System_Weenix/kernel/fs/namev.c:186-226 | The vnode looked up or created, with exactly one more reference on it and none on any other; none anywhere on failure |
| `Descriptors.FrefCounts` | project/Operating_System_Weenix/kernel/fs/file.c:42-59 | A reference taken is a reference in flight: counts stay slots plus references in flight |
| `Descriptors.FputCounts` | project/Operating_System_Weenix/kernel/fs/file.c:82-105 | A reference given back; the file is freed, with its one vnode reference, if and only if no slot and no other reference is left |
| `Descriptors.ClosedCounts` | project/Operating_System_Weenix/kernel/fs/vfs_syscall.c:161-184 | Giving up a slot keeps the counts; the file goes if and only if that was its only slot, and no other file changes |
| `Descriptors.SharedCounts` | project/Operating_System_Weenix/kernel/fs/vfs_syscall.c:202-241 | A second slot for a file keeps the counts |
| `Descriptors.RedirectedCounts` | project/Operating_System_Weenix/kernel/fs/vfs_syscall.c:252-316 | Redirecting a slot, with the old file closed while the new one is held, keeps the counts |
| `Descriptors.OpenedCounts` | project/Operating_System_Weenix/kernel/fs/open.c:84-189 | A newly opened file has one slot, one reference and one vnode reference |
| `Descriptors.FirstEmpty` | project/Operating_System_Weenix/kernel/fs/open.c:33-46 | The lowest free slot; none only if all are taken |
| `Descriptors.DescriptorTable.constructor` | project/Operating_System_Weenix/kernel/fs/file.c:35-39 | No open files |
| `Descriptors.DescriptorTable.GetEmptyFd` | project/Operating_System_Weenix/kernel/fs/open.c:33-46 | The lowest free descriptor, or none |
| `Descriptors.DescriptorTable.Fget` | project/Operating_System_Weenix/kernel/fs/file.c:62-78 | The file behind a valid descriptor with one more reference; otherwise nothing |
| `Descriptors.DescriptorTable.Close` | project/Operating_System_Weenix/kernel/fs/vfs_syscall.c:161-184 | EBADF without change exactly for a descriptor with no file; otherwise the slot is given up; every count equals the number of slots again |
| `Descriptors.DescriptorTable.Dup` | project/Operating_System_Weenix/kernel/fs/vfs_syscall.c:202-241 | EBADF, EMFILE or the lowest free slot pointing to the same file; failures change nothing and counts hold again |
| `Descriptors.DescriptorTable.Dup2` | project/Operating_System_Weenix/kernel/fs/vfs_syscall.c:252-316 | The target slot points to the file, its old file closed; equal descriptors and failures change nothing and counts hold again |
| `Descriptors.DescriptorTable.Open` | project/Operating_System_Weenix/kernel/fs/open.c:84-189 | Each error case with its rollback leaves table, files and vnode references as before; success uses the lowest slot |
| `Descriptors.DescriptorTable.Lseek` | project/Operating_System_Weenix/kernel/fs/vfs_syscall.c:895-956 | The new position, or an error with nothing changed; counts hold again |
| `Descriptors.DescriptorTable.Getdent` | project/Operating_System_Weenix/kernel/fs/vfs_syscall.c:810-883 | The position moves by what was read; errors change nothing and counts hold again |

## Left out

- AES itself, sockets, the tun device, logging and packet printing: foreign code and input or output.
- Onion routing with circuit numbers outside 1 to 9, routers sharing a port, a router on port 0xffff, lost or reordered datagrams, and stages below 6: the tables of the source are not made for them.
- OnionTransport.ReplyStarts: the circuit an answer belongs to is given; the source searches it by address at the raw socket.
- OnionRouter.PortText: the byte behind the copied text is taken not to be a digit; PortUnterminated has the exact condition.
- OnionRouter.RouterProcess.OnExtend: takes the same for granted when it reads the port.
- OnionRouter.RouterProcess.OnKey: an overlong key ends the process in the model, where the source goes on and overwrites the next circuit's key.
- OnionRouter.RouterProcess.OnRelay: hands out the recovered packet; its rewriting and sending are in Rewriting.
- OnionTransport.RelayExits: about the recovered packet; TunnelArrives adds the rewriting.
- OnionTransport.PacketsArrive: about recovered packets; TunnelArrives adds the rewriting.
- OnionProxy.WrapPacket: the packet is given as it is wrapped; hiding its source is in Rewriting.
- OnionProxy.UnwrapAnswer: gives the answer as it is recovered; rewriting it for the tunnel is in Rewriting.
- Rewriting.Deliver: the source address the proxy remembers is a parameter; ReachesSender says which one it is.
- Rewriting.SendOut: a packet is as long as its header says and has no IP options.
- OnionCircuit.CircuitIsBuilt: no datagrams of other circuits are under way during construction; TakenForAnswer says exactly what one that reaches the proxy does.
- OnionTunnel.TunnelArrives: a new circuit is built while no datagram is under way; packets that outgrow the 1024-byte buffers under their layers are not modelled; the circuit an answer enters at a last hop is given.
- OnionTraces.Untraceable: compares what is on the links and in the routers; when things happen is not modelled.
- OnionFlows.FlowTable.Choose: a 37th flow, which writes behind the table, is excluded; so are the flows deleted in stage 9.
- OnionProxy.IsDupHop: the routers deleted in stage 9 are not modelled.
- OnionProxy.GeneratePath: the routers deleted in stage 9 are not modelled.
- OnionRouter.RouterProcess.Handle: requires circuit numbers 1 to 9, because aes_key has ten entries and slot 0 marks free entries.
- PageGroups.PageGroup.constructor: addresses are counted in pages and the range must hold the group record and its bitmaps, which the source takes for granted.
- PageAllocators.PageAllocator.AddRange: demands the same of the range.
- PageAllocators.PageAllocator.Reclaim: which slabs are idle is given by the caller; the slab side is modelled in SlabAllocators.
- SlabAllocators.SlabKernel.ObjAlloc: the contents of red zones are not modelled, and the reclaim inside a failing page_alloc_n is a separate step.
- SlabAllocators.SlabKernel.GrowCache: reclaims nothing when page_alloc_n fails; the source does so inside that call.
- SlabPages.GrowFrom: the retries of _page_split with the shadow daemon are not modelled.
- SlabAllocators.SlabKernel.AllocatorInit: object sizes that overflow 32 bits when the overhead is added are not modelled.
- Slab lists are sequences rather than pointers through the descriptors.
- The busy flag of pages and vnodes and the sleeping it causes in pframe_get, pframe_clean and vget: an operation is one atomic step, and a page being read is not requested again.
- PageCaches.PageCache.Get: the wait on a busy page and the wakeup of the daemon are not modelled.
- PageCacheCalls.GetPage: neither are they here.
- PageCacheCalls.GetVnode: the sleep on a vnode being read in is not modelled; nothing wakes the sleeper when read_vnode is done, only vput does.
- PageCacheCalls.MovePage: the branch in which the destination has the page is Migrate's.
- PageoutDaemon.Pageout: the branch that sleeps on a busy head is not modelled.
- Memory objects other than vnodes (anonymous and shadow objects), pframe_fill, pframe_remove_from_pts and the outer, sleeping loop of the daemon.
- PageCaches.PageCache.Migrate: where the destination has the page, the frame must be dirty and pinned once, as the assertions of the calls it makes demand.
- PageTables.PageDirectory.constructor: a failing allocation of the directory is not modelled.
- PageTables.PageDirectory.Map: the directory flags are taken to contain the present bit, as at every call in the kernel; flags added to an existing directory entry are not modelled.
- PageTables.PageDirectory.Destroy: the two pages of the directory itself are not among the freed ones.
- pt_phys_tmp_map, pt_phys_perm_map, pt_virt_to_phys, pt_mapping_info, page faults and the hardware's view of the tables.
- kmutex_lock_cancellable, whose result does not tell whether the lock was taken; locking a mutex one already holds, which never returns.
- Scheduling.Scheduler.CancelThread: cancelling a thread that has not started or has exited is not modelled.
- KernelThreads.CancelOk: in runs only threads that have started and not exited are cancelled.
- KernelThreads.StepKeeps: does not model waking the run queue or the wait queue of a mutex directly, which no caller does.
- context_switch and interrupt levels: a switch changes the current thread, and interrupts are steps between others.
- ElfArgs.AuxReadsBack: a table is read at the one address all AT_PHDR entries get; TableReadsBack says whose it is.
- ElfArgs.LoadArgs: the final copy into user space is not modelled; all addresses must fit 32 bits.
- Loading segments, do_fork and exec mapping.
- PathWalk.Namespace.DirNamevCall: paths longer than MAXPATHLEN overflow the buffer of the source and are excluded.
- PathWalk.Namespace.OpenNamevCall: excludes them too.
- Lookup, create and readdir inside file systems, and the other file system calls (mkdir, link, rename, stat and so on).
- Descriptors.DescriptorTable.Lseek: 32-bit overflow of the position is not modelled.
- Descriptors.DescriptorTable.Open: a failing file allocation is not modelled; the source does not survive it.
- Sharing of files between processes by fork and the closing loop at process exit, which stops at the first empty slot; do_read and do_write.
- TokenBucketRuns.RunKeeps: every packet needs at least one token, and the branch that drops a packet, which the source runs without the mutex, is one atomic step.
- Clock times, averages and the interrupt handler of the token bucket; My402ListFind, which does not end on a miss.
- The smaller exercises, the auction programs, the Android and web code, booting and device drivers: they would only add easy members.
