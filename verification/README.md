# A verified model of the lwIP core and the FTP client

This project models, in Dafny, the parts of the repository that carry state: the first-fit heap, the socket layer's
hold and wake-up protocols, the DNS resolver, packet buffers, the Internet checksum, the timeout list, the fixed-size
pools, and the FTP client that runs on top of them. Each part is a model of the C code, branch by branch, and a set of
theorems about it.

| files | models |
|---|---|
| `HeapLayout`, `HeapStore`, `HeapMalloc` | `src/core/mem.c`: the block list in memory, freeing, trimming, and allocation while other contexts free and trim |
| `SocketHolds`, `SocketStatus`, `SocketSelect` | `src/api/sockets.c`: hold counts, delayed freeing of slots, `lwip_select`'s holds, announcements and scans |
| `SelectWake`, `SelectEvents` | `src/api/sockets.c`: the wake-up protocol between `lwip_select` and `event_callback`, and what events come to over whole runs of it |
| `DnsTable`, `DnsSteps`, `DnsResolver` | `src/core/dns.c`: the three tables, the cache, retries and fallbacks, and the packets sent |
| `DnsCallbacks`, `DnsLaws` | `src/core/dns.c`: where the addresses come from, and the life of a query, over every run |
| `DnsNames`, `DnsResponse` | `src/core/dns.c`: the name encoder and readers, and the reading of responses |
| `PbufRefs`, `PbufStore` | `src/core/pbuf.c`: reference counts of shared chains |
| `PbufFlat`, `PbufBytes` | `src/core/pbuf.c`: chains as one flat string of bytes |
| `Checksum`, `ChecksumChain`, `ChecksumPseudo` | `src/core/inet_chksum.c` |
| `Timeouts`, `TimerQueue`, `TimerList` | `src/core/timeouts.c` |
| `Memp` | `src/core/memp.c` |
| `FtpMonitor`, `FtpMachine`, `FtpSession`, `FtpProtocol`, `FtpUpload` | `src/lwftp.c`, `src/ftp.c` |
| `Octets`, `Options` | the byte and option types that the others share |

## How to read it

State that the C code changes in place is a class whose methods change it in place. What the code does between
UNPROTECT and PROTECT is open to others: the heap's `Windows`, the sockets' `others` and the steps of `SelectWake` hold
whatever other contexts do there, and the theorems are about every such schedule. Calls that the environment makes carry
their choices as arguments: whether `tcp_new` succeeds, what a server replies, how long a callback takes, and what the
FTP callback does when it is told a result (a finite tree of calls, so that it may call back into the session).

Where a method changes state, its contract ties the new state to a function of the old one; the lemmas beside it say
what that function means. `hide` statements only keep definitions out of proofs that do not need them.

Some statements that one might expect are false of the code; each is replaced by the exact condition under which it
holds, and each comes with a run in which it fails.

- A socket slot can be given up, or reused, while it is held: exactly when the number of holds is past a multiple of
  256, the range of its counter (`CloseLeavesHolders`, `DoneLeavesHolders`, `ReuseWhileHeld`, with runs of 256 threads
  from an empty table in `ClosedAndReusedWhileHeld` and `DoneWhileHeld`).
- A select can sleep although a socket it wants is ready: exactly when a reader has left data behind on it, or when
  `alloc_socket` made it writable after the select had looked; neither raises an event (`SleepsRightly`, with runs in
  `LastdataWakesNobody` and `AllocWakesNobody`).
- `pbuf_dechain` can return a pbuf that is gone: exactly when the leading pbufs behind the first one that have no other
  reference are a positive multiple of 256 (`Dechain`, with a chain in `DanglingTail`).
- `pbuf_ref` and `pbuf_chain` keep the counts right exactly for a pbuf with fewer than 255 references (`Ref`, `Chain`,
  with runs in `RefIsForgotten` and `ChainIsForgotten`).
- `pbuf_copy_partial_pbuf` copies what fits exactly if the destination offset lies in the first pbuf, or nothing is to
  be copied, and no pbuf that it comes to is followed by empty ones only. Otherwise it takes the empty ones for another
  packet, or the unsigned subtraction wraps and its first write is outside (`CopyFrom`, with a run in `CopiesOutside`).
- `dns_compare_name` can take a name for another one. It succeeds exactly if the labels of the message fit the compared
  name at their places, whatever stands between them and behind the last; names of proper labels that fit are equal
  exactly if their labels have the same lengths (`CompareFinds`, `CompareFits`, `FittingNames`, with two pairs of
  different names in `OtherNamesCompare`).
- The reply that starts an upload finds no data connection exactly if that one has died or was closed in the meantime
  (`Happen`, with a run in `LostUpload`).

Where the code and its own remarks disagree, the model follows the code: an assertion in `mem_trim`
(`src/core/mem.c:892`) forbids trimming the last block, while the lines behind it handle that block, as `Trim` does
here; a remark in `alloc_socket` (`src/api/sockets.c:560-561`) says that nobody knows the socket yet, while a select may
name its number; and closing the control connection does not free the session (`src/lwftp.c:538-540`), so the
callback may connect again at once.

## Model

| member | source | states |
|---|---|---|
| HeapLayout.TruncationIsCaught | src/core/mem.c:949-963 | the two guards on the rounded size reject exactly the requests that are too big for the heap, also when the rounding wraps around in `mem_size_t`; what is searched for is aligned, at least the request and the minimum, and it is the minimum or less than one alignment step above the request |
| HeapLayout.LiveRegionsDisjoint | src/core/mem.c:421-445 | any two regions that clients hold are apart by at least a header and lie inside the heap |
| HeapLayout.NothingHeld | src/core/mem.c:596-626 | a heap without neighbouring free blocks in which nothing is held is the single block it started as |
| HeapLayout.PlugCoalesced | src/core/mem.c:546-589 | merging around the only place where free blocks may meet leaves no two free neighbours |
| HeapLayout.FreeKeeps | src/core/mem.c:703-778 | freeing any used block keeps the alignment and leaves no two free neighbours |
| HeapLayout.TrimLive | src/core/mem.c:851-914 | a trimmed block keeps its place, and every other region is untouched; it has the size asked for exactly if what is cut off can stand as a block or joins the free block behind it, and otherwise the size it had |
| HeapLayout.TrimLowest | src/core/mem.c:851-907 | after a trim no free block lies below `lfree`, and `lfree` is the lowest free block if it was before or was moved |
| HeapLayout.TakeKeeps | src/core/mem.c:996-1042 | taking a block that fits, with or without a split, keeps alignment and coalescing; the block has at least the size asked for and is too small for a header and the smallest block more, so it was split whenever it could be |
| HeapLayout.TakeLowest | src/core/mem.c:996-1042 | taking a block leaves no free block below `lfree`, and `lfree` exact unless it was the block taken |
| HeapLayout.LayoutIsDetermined | src/core/mem.c:546-589 | the regions in use determine the whole block list: two coalesced heaps in which the same regions are used are the same |
| HeapStore.Heap.constructor | src/core/mem.c:596-626 | the heap starts as one free block with the invariant, nothing held |
| HeapStore.Heap.PlugHoles | src/core/mem.c:546-589 | the header writes realise the merge of a free block with its free neighbours; clients' regions and `lfree` stay, so its updates of `lfree` are never needed |
| HeapStore.Heap.BlockLinkValid | src/core/mem.c:632-647 | the check of the links succeeds on every block of the list |
| HeapStore.Heap.OwnedIsAccepted | src/core/mem.c:703-760 | no guard of `mem_free` rejects a pointer that a client owns |
| HeapStore.Heap.Free | src/core/mem.c:703-778 | a rejected pointer changes nothing; an owned one gives back exactly its block, keeps the whole invariant, and is rejected when freed again |
| HeapStore.Heap.Trim | src/core/mem.c:790-924 | refuses exactly the sizes beyond the heap, shrinks exactly the block named, and keeps the whole invariant, also for the last block |
| HeapMalloc.Window | src/core/mem.c:982-994 | whatever other contexts free or trim in an unprotected stretch keeps the invariant, touches only what they own, and is noticed |
| HeapMalloc.Search | src/core/mem.c:968-998 | with any interference the search ends on the first block that fits, or only if none in the whole heap fits; it starts over at most once per interfering call |
| HeapMalloc.AdjustLfree | src/core/mem.c:1043-1068 | after the walk, however often disturbed, `lfree` is exactly the lowest free block |
| HeapMalloc.Perform | src/core/mem.c:703-924 | a free or trim by its owner releases or shortens exactly that block; anything else changes nothing |
| HeapMalloc.Malloc | src/core/mem.c:934-1094 | null only for size 0, a size beyond the heap or no block that fits; otherwise a fresh region of at least the size and less than a header and the smallest block more, with everybody else's regions kept; when nobody interferes it is exactly the first that fits, and what was free stays free but for that region; restarts bounded by the interfering calls |
| HeapMalloc.ServeOne | src/core/mem.c:421-1094 | one request leads from a whole heap to a whole heap, and does to the block list what that request is to do |
| HeapMalloc.Serve | src/core/mem.c:421-1094 | every run of allocations, frees and trims, with others freeing and trimming in every window, is a sequence of whole heaps (tiled, coalesced, `lfree` exact, used blocks exactly the owned ones) each of which follows from the one before by its request, and ends in the initial heap once all is freed |
| SocketHolds.CloseLeavesHolders | src/api/sockets.c:586-608 | closing gives the netconn out while others hold the slot if and only if the holds are one past a positive multiple of 256; otherwise the free is left pending with the netconn kept; the only holder gives it out at once |
| SocketHolds.DoneLeavesHolders | src/api/sockets.c:415-440 | the same for the last holder to let go, who gives it out exactly after a close |
| SocketHolds.ReuseWhileHeld | src/api/sockets.c:539-577 | a slot is reused while held if and only if the holds are a positive multiple of 256 |
| SocketHolds.ClosedAndReusedWhileHeld | src/api/sockets.c:539-608 | a run from an empty table after which 256 threads hold a slot that is closed with its netconn given out, and then reused |
| SocketHolds.DoneWhileHeld | src/api/sockets.c:415-440 | a run in which one of 257 holders lets go and the netconn is given out while the other 256 threads hold the slot |
| SocketHolds.RunConsistent | src/api/sockets.c:373-650 | every run of any threads keeps each counter equal to the true holds modulo 256, and keeps netconns stored plus given out equal to those allocated |
| SocketHolds.HandedOutOnce | src/api/sockets.c:586-650 | over every run from an empty table, a netconn allocated once is in one slot and not given out, or given out once and in no slot |
| SocketHolds.BoundedRunIsClean | src/api/sockets.c:373-650 | in every run with fewer than 256 holds per slot, netconns are given out and slots reused only when nobody holds them |
| SocketHolds.ClosedDrains | src/api/sockets.c:373-440 | over every run, a slot that was closed while held gains no holder: it keeps its netconn with fewer and fewer of them until the netconn is given out |
| SocketHolds.HoldPinsNetconn | src/api/sockets.c:373-509 | a holder keeps seeing the same netconn in its slot through any step but its own letting go |
| SocketHolds.HeldSlotsStay | src/api/sockets.c:373-650 | over every run of other threads with fewer than 256 holds per slot, all slots that a thread holds, as a select does while it sleeps, keep their netconns and stay held |
| SocketSelect.OthersKeep | src/api/sockets.c:373-440 | no step of another thread changes a thread's holds and announcements |
| SocketSelect.ScannedOne | src/api/sockets.c:1890-1927 | looking at one more wanted socket extends the three sets and their count by exactly the conditions it meets |
| SocketSelect.NothingFound | src/api/sockets.c:1890-1927 | a scan counts 0 if and only if no wanted socket meets its condition |
| SocketSelect.Sockets.TryGet | src/api/sockets.c:480-490 | holds exactly the sockets that exist and have no free pending |
| SocketSelect.Sockets.LetGo | src/api/sockets.c:415-440 | takes away one hold of the caller on that slot and nothing else of the caller; pending frees and waiters stay |
| SocketSelect.Sockets.AllocSocket | src/api/sockets.c:539-577 | the slot returned holds the new netconn, nothing pending, and one hold of the caller; on failure the caller gains nothing; undisturbed, it is the first slot that can be had, and failure means there is none |
| SocketSelect.Sockets.Scan | src/api/sockets.c:1874-1939 | holds every wanted socket while it looks at it and lets each go on every way out; undisturbed, it succeeds if and only if all of them exist without a pending free; then the three sets given back hold exactly the wanted sockets whose status meets the condition, and the result is the number of their members |
| SocketSelect.Sockets.HoldSet | src/api/sockets.c:1946-1966 | the holds gained are exactly the sockets newly recorded as used, all of them wanted; undisturbed, every wanted socket that can be held is among the recorded |
| SocketSelect.Sockets.HoldAll | src/api/sockets.c:1973-1980 | the holds gained over the three sets are exactly those recorded, each once and wanted; undisturbed, every wanted socket that can be held is recorded |
| SocketSelect.Sockets.ReleaseSet | src/api/sockets.c:1983-1997 | gives back exactly the recorded holds |
| SocketSelect.Sockets.TellAll | src/api/sockets.c:2078-2110 | raises `select_waiting` exactly on the wanted sockets below where it stopped, which is the end exactly on success; undisturbed, it succeeds if and only if all of them can be held and no counter is full |
| SocketSelect.Sockets.UntellAll | src/api/sockets.c:2140-2163 | lowers exactly those again |
| SocketSelect.Sockets.Select | src/api/sockets.c:2003-2213 | on every way out, with any steps of other threads in between, the caller's holds and announcements are what they were; a failure leaves its sets as they were, and otherwise the sets and the result are those of one complete scan: the first if that found something or there is no time to wait, the second if that did, and else the one after the wait; undisturbed, it fails if and only if a wanted socket cannot be held, or nothing is ready, it is to wait, and memory or a counter does not allow it |
| SelectWake.StepKeeps | src/api/sockets.c:1810-1856 | every protected section of select and of the callbacks, and every unprotected write of `alloc_socket`, keeps the wake-up invariant, including when the waiter list changes and the walk restarts |
| SelectWake.RunKeeps | src/api/sockets.c:2003-2213 | so does every interleaving of any number of selects and callbacks |
| SelectWake.NoLostWakeup | src/api/sockets.c:2523-2695 | in every interleaving, a sleeping select that wants a socket made ready by an event is signalled, or a callback is on its way to it |
| SelectWake.ComingArrives | src/api/sockets.c:2623-2695 | a callback on its way ends when it runs, and by then the select is signalled |
| SelectWake.ComingArrivesAmongOthers | src/api/sockets.c:2623-2695 | over every interleaving through which the select sleeps, the callback is still on its way to it or the select is signalled; once the callback has left, it is signalled |
| SelectWake.SleepsRightly | src/api/sockets.c:1874-1939 | with no callback under way, an unsignalled sleeper misses a ready socket if and only if data was left behind on a socket it reads, or a socket it writes was made writable by `alloc_socket` alone |
| SelectWake.LastdataWakesNobody | src/api/sockets.c:1896-1912 | a run in which the first happens |
| SelectWake.AllocWakesNobody | src/api/sockets.c:562-570 | a run in which the second happens: a select looks between the end of the protected section of `alloc_socket` and its write of `sendevent` |
| SelectWake.QuietIsFromAlloc | src/api/sockets.c:562-570 | only that write makes a socket writable without an event |
| SelectEvents.SocketsFollowEvents | src/api/sockets.c:2561-2590 | over every interleaving, what a socket shows is what the steps that took place come to: `rcvevent` by arrivals and takings, `sendevent` and `errevent` by the last event that bears on them |
| SelectEvents.ReceivedIsCount | src/api/sockets.c:2561-2571 | over runs without a set-up of the slot, `rcvevent` has grown by the arrivals and fallen by the takings, counted |
| SelectEvents.SetsOut | src/api/sockets.c:2592-2603 | an event sends a callback on its way exactly if it is news (the first packet, a socket that becomes writable, any error) and somebody has announced a wait; the callback carries what the socket shows then |
| SelectEvents.CallbacksHaveEvents | src/api/sockets.c:2592-2603 | over every interleaving, each callback under way was sent out by an event of the run on its socket, and carries what the socket showed then |
| SelectEvents.SignalledBy | src/api/sockets.c:2644-2678 | a select is signalled only by a step of a callback that carries something that it wants |
| SelectEvents.WokenForCause | src/api/sockets.c:2623-2695 | over every interleaving, a select that was signalled wants a socket for reading, writing or errors on which, after an event of the run, just that was the case |
| SelectEvents.TellDecides | src/api/sockets.c:2078-2110 | an announcement fails if and only if the socket is gone or its counter is full; otherwise it is counted |
| SelectEvents.LookDecides | src/api/sockets.c:1890-1927 | a look ends the wait if and only if the socket is gone or ready for something it is wanted for |
| SelectEvents.GivesUpForCause | src/api/sockets.c:2078-2163 | a select starts to withdraw only for one of these reasons, or when its sleep ends |
| SelectEvents.SleeperLeaves | src/api/sockets.c:2124-2187 | from every reachable state, a sleeper that is woken can take back its announcements and be gone by steps of its own; then no socket counts it, and the other selects are as they were |
| DnsSteps.FreeTxidExists | src/core/dns.c:1018-1037 | with fewer entries than ids, an id that no asked entry has always exists |
| DnsResolver.Resolver.CallFound | src/core/dns.c:960-1015 | every request of the entry is called and dropped, the others stay, and the port is closed exactly if no other asked entry uses it |
| DnsResolver.Resolver.AllocPcb | src/core/dns.c:918-949 | the first closed port is opened if one can be, and otherwise the next open one behind the last used is shared; it fails only if none can be opened and none is open |
| DnsResolver.Resolver.Send | src/core/dns.c:766-886 | the query of the entry (id, one question with the encoded name, type and class) goes to the server that it asks, from its port; without that server the entry is given up |
| DnsResolver.Resolver.StartQuery | src/core/dns.c:1074-1088 | a new entry is asked from the start under an id of its own, with its query sent, or called back without an address and freed if there is no server |
| DnsResolver.Resolver.Retry | src/core/dns.c:1089-1121 | the state after a tick on one entry: counted down, asked again with a longer wait, gone to the next server and asked there, or given up with every request called |
| DnsResolver.Resolver.CheckEntry | src/core/dns.c:1065-1137 | what each entry becomes with a tick, with the invariant of the tables kept and the entry one tick closer to its end; finished entries expire with their time to live |
| DnsResolver.Resolver.Tick | src/core/dns.c:394-399 | every entry becomes what a tick makes of it, exactly those whose timer runs out are asked again, the requests of exactly those given up are called, the invariant is kept, and every waiting request is one tick closer to its callback |
| DnsResolver.Resolver.Enqueue | src/core/dns.c:1393-1526 | accepts exactly if there is a free request and a query to share, or an entry and a port; the new state is that of the query shared, begun in the entry and with the port that are due, or refused; keeps the invariant; an accepted request waits at most the longest time, and nobody else waits longer |
| DnsResolver.Resolver.Lookup | src/core/dns.c:617-652 | the address of the first finished entry with the name, up to case, and the family, or none |
| DnsResolver.Resolver.GetHostByName | src/core/dns.c:1569-1656 | an address at once exactly if the cache knows one of a wanted family; a callback later exactly if not, the name can be asked, there is a server and the tables have room; otherwise nothing changes but that, for want of a port, an idle entry may be emptied |
| DnsResolver.Resolver.Answer | src/core/dns.c:1155-1183 | the answer goes with its address to every request of the entry, and the entry is kept for its time to live, at most a week, or, without one, freed |
| DnsResolver.Resolver.Receive | src/core/dns.c:1188-1382 | a packet that carries the id of no asked entry changes nothing; otherwise it does to that entry and its requests exactly what its bytes say; the invariant is kept and nobody waits longer; after an answer nothing is asked under its id |
| DnsResolver.Resolver.NextServer | src/core/dns.c:1270-1285 | an error reply moves the query to the next server and shortens the wait |
| DnsResolver.Resolver.OtherFamily | src/core/dns.c:1351-1373 | the fallback to the second address family asks the same entry from the start, or gives it up if the first server is unset by now; it stays within the time counted from the start |
| DnsTable.TicksLeftAtMost | src/core/dns.c:1066-1137 | the measure over family, server, retries and timer is positive and at most 2 S (1 + R(R-1)/2) |
| DnsTable.OnTick | src/core/dns.c:1089-1121 | an entry asked on has one tick less on that measure, and only timer, retries and server change |
| DnsResolver.Happen | src/core/dns.c:961-1526 | each event leads to the state that it stands for; none lengthens a request's wait, and a tick shortens it |
| DnsResolver.Drive | src/core/dns.c:394-1526 | every run of queries, ticks, packets and changes of servers is a sequence of sound states each of which follows from the one before by its event; a request is called back exactly once by the time its ticks have passed |
| DnsResolver.CalledBackOnce | src/core/dns.c:1393-1656 | a request is accepted exactly if its name can be asked, the cache does not know it, there is a server, and the tables have room; then, over every run of queries, ticks, packets and changes of servers behind it, it is called back exactly once within 2 S (1 + R(R-1)/2) ticks |
| DnsCallbacks.AlwaysRightly | src/core/dns.c:1406-1530 | over every run, each waiting request waits for an entry that asks for its own name, up to case, and for its family or the second one of two |
| DnsCallbacks.ToldTheirOwn | src/core/dns.c:1155-1382 | over every run from an empty resolver, whoever is told an address is told one that stood in an answer of a packet from the server that was asked, under the id of an entry for its own name and a family that it wants, with the question repeated |
| DnsCallbacks.CacheCameFrom | src/core/dns.c:1155-1183 | over every such run, the address of a finished entry came in such a packet for its name |
| DnsCallbacks.KnownCameFrom | src/core/dns.c:617-652 | so did every address that the cache gives for a name, and it is of a wanted family |
| DnsCallbacks.AnswerReaches | src/core/dns.c:1155-1382 | a response from the server that was asked, to the question that was asked, with an address of the wanted family, leaves every request that waited for the name called with that address, once |
| DnsLaws.SharesQuery | src/core/dns.c:1406-1434 | a request for a name and family that is being asked already changes no entry and no port, and sends nothing |
| DnsLaws.StartsQuery | src/core/dns.c:1436-1526 | any other accepted request starts one query at the first server, in an unused entry or else in the oldest finished one, and leaves all other entries alone |
| DnsLaws.DotAtEnd | src/core/dns.c:1588-1595 | a dot at the end of a name makes no difference |
| DnsLaws.ErrorGoesOn | src/core/dns.c:1270-1287 | an error reply sends the query to the next server, if there is one, and nobody is called; otherwise all who wait are called without an address |
| DnsLaws.FallsBack | src/core/dns.c:1351-1373 | a response without an address of the first of two families starts the query again for the other one, and nobody is called; otherwise all who wait are called without an address |
| DnsLaws.TimeOnServer | src/core/dns.c:1089-1121 | unanswered, a query stays with a server for exactly 1 + R(R-1)/2 ticks and then goes to the next one, or ends if there is none |
| DnsLaws.ResendsOnServer | src/core/dns.c:1089-1121 | in that time it is sent there R times, the first included, and with the last tick to the next server |
| DnsLaws.TimeInCache | src/core/dns.c:1122-1130 | a finished entry stays as it is for exactly the ticks of its time to live |
| DnsLaws.AnswerIsKept | src/core/dns.c:1155-1183 | an answer is kept for its time to live, at most a week, under the name that was asked; with a time to live of 0 it is not kept |
| DnsLaws.AgeCounts | src/core/dns.c:1446-1452 | the 8-bit age of an entry is the number of queries since, below 256 |
| DnsLaws.AlwaysSent | src/core/dns.c:766-1121 | over every run from an empty resolver, the query of each entry that is being asked has been sent, under its id, to the server that it asks |
| DnsLaws.ReplyResponds | src/core/dns.c:766-1350 | a server that copies id and question of the query and appends records writes a response to the question that the entry asks |
| DnsLaws.RepliedIsTold | src/core/dns.c:766-1382 | from end to end: if the server replies so to the query that was sent, with an address of the wanted family, everybody who waits is told that address |
| DnsNames.EncodeName | src/core/dns.c:807-828 | for every name that the tables can hold, the two nested loops write the packed labels of the name, with their 8-bit counts |
| DnsNames.EncodeDotted | src/core/dns.c:807-828 | for every dotted name of non-empty labels of at most 63 bytes that is the wire form of section 3.1 of RFC 1035 |
| DnsNames.CompareName | src/core/dns.c:669-717 | the loop computes the recursive reader, with its 16-bit offset |
| DnsNames.CompareRoundTrip | src/core/dns.c:669-717 | comparing a name with its encoding, in any letter case, gives the offset behind the encoding |
| DnsNames.CompareFinds | src/core/dns.c:669-717 | a comparison that succeeds has found a name in the message whose labels fit the compared one, and ends behind it |
| DnsNames.CompareFits | src/core/dns.c:669-717 | every name whose labels fit is found |
| DnsNames.FittingNames | src/core/dns.c:669-717 | names of proper labels that fit are equal up to case if and only if their labels have the same lengths |
| DnsNames.OtherNamesCompare | src/core/dns.c:669-717 | two pairs of different names for which the comparison succeeds |
| DnsNames.SkipName | src/core/dns.c:726-758 | the loop computes the recursive reader, with its 16-bit offset |
| DnsNames.SkipRoundTrip | src/core/dns.c:726-758 | skipping an encoded name gives the offset behind it |
| DnsNames.SkipPointer | src/core/dns.c:726-758 | skipping a name that ends in a compression pointer gives the offset behind the pointer (section 4.1.4 of RFC 1035) |
| DnsNames.NameRoundTrip | src/core/dns.c:670-828 | what the encoder writes is read back by both readers to the same offset |
| DnsResponse.Read | src/core/dns.c:1203-1350 | the checks and the loop over the answers compute the recursive reading of the packet, with its 16-bit offsets |
| DnsResponse.AnswersRead | src/core/dns.c:1288-1350 | answers as a server writes them, with full or compressed names, are read as the first record of class IN with the wanted type and length, and its time to live, or as none |
| DnsResponse.ResponseRead | src/core/dns.c:1215-1350 | every response to the question for a name, in any letter case and with any further sections, is read as the error, the address or the lack of one that it holds (section 4.1 of RFC 1035) |
| DnsResponse.AnswersAre | src/core/dns.c:1288-1350 | an address that is read stands in the first record that could hold one, behind whole records that could not; none is read only if all records, or those up to the end of the packet, could not; the packet is ignored only if a record behind such ones is broken |
| DnsResponse.ReadingIs | src/core/dns.c:1203-1350 | a packet that is not ignored came from the server that was asked, is a response with one question, whose name fits and whose type and class are those asked; it is an error exactly if its code says so |
| PbufRefs.JoinIsAcyclic | src/core/pbuf.c:856-880 | joining two chains stays free of circles if and only if they end in different pbufs |
| PbufRefs.DropDead | src/core/pbuf.c:745-790 | releasing a pbuf without references keeps all counts exact, the reference moving on to its successor |
| PbufRefs.InUseIsReachable | src/core/pbuf.c:700-728 | with exact counts, a pbuf is in use if and only if some handle leads to it |
| PbufRefs.InUseIsDetermined | src/core/pbuf.c:700-728 | what is in use, and every count, follows from the handles and the links alone |
| PbufRefs.NoHandlesNothingInUse | src/core/pbuf.c:728-804 | without handles nothing is in use |
| PbufStore.IncRefIsExact | src/core/pbuf.c:832-840 | the 8-bit increment is one exactly below 255, and gives 0 exactly at 255 |
| PbufStore.PoolCountIs | src/core/pbuf.c:237-270 | the number of pool pbufs has room for the headers and bytes, and one less has not |
| PbufStore.Store.Free | src/core/pbuf.c:728-804 | drops one reference, releases to its own allocator each pbuf of the chain that is left without, as many as lead the chain with no other reference, leaves all else as it was, and counts them in eight bits |
| PbufStore.Store.AllocOne | src/core/pbuf.c:271-343 | one pbuf with one reference for the caller; null exactly if its allocator has none or the heap refuses |
| PbufStore.Store.AllocPool | src/core/pbuf.c:237-270 | a chain of as many pool pbufs as the length needs, each with one reference, or, exactly if the pool has fewer, nothing: then everything is as before, also when it ran out half way |
| PbufStore.Store.Ref | src/core/pbuf.c:832-840 | one more handle on any pbuf in use; the counts are right afterwards if and only if there were fewer than 255 references |
| PbufStore.Store.Cat | src/core/pbuf.c:856-880 | the caller's handle becomes the link from the last pbuf of the head, all counts exact |
| PbufStore.Store.Chain | src/core/pbuf.c:899-906 | the same with the caller's handle kept; the counts are right afterwards if and only if the tail had fewer than 255 references |
| PbufStore.Store.Dechain | src/core/pbuf.c:916-945 | cuts the chain, keeps the head, and returns null or a live pbuf if and only if the number of leading pbufs behind the head with one reference, before the call, is 0 or no multiple of 256; exactly those are released |
| PbufStore.Store.Perform | src/core/pbuf.c:225-945 | each request leads from a sound state to a sound state and does what it is to do, with null and full allocators included |
| PbufStore.DanglingTail | src/core/pbuf.c:916-945 | a pool chain of 257 pbufs is cut behind its first, and the pbuf returned is not in use |
| PbufStore.RefIsForgotten | src/core/pbuf.c:832-840 | after 255 references another one brings the count to 0 while handles are left |
| PbufStore.ChainIsForgotten | src/core/pbuf.c:899-906 | so does chaining a pbuf with 255 references |
| PbufStore.Store.Serve | src/core/pbuf.c:225-945 | every run of alloc, ref, cat, chain, dechain and free is a sequence of sound states each of which follows from the one before by its request; counts stay exact, what is in use is what handles lead to, and every pbuf is back with its allocator once no handle is left |
| PbufBytes.WrittenFlat | src/core/pbuf.c:1235-1302 | writing into one pbuf overwrites the flat bytes at its position |
| PbufBytes.ShrunkFlat | src/core/pbuf.c:403-464 | the shrunk chain holds the prefix and has right totals |
| PbufBytes.ShrunkFewest | src/core/pbuf.c:403-464 | it has the fewest pbufs that hold the prefix, and at least one |
| PbufFlat.WrittenIsRead | src/core/pbuf.c:1060-1302 | what is written at an offset is what is read there, and no other byte changes |
| PbufBytes.Packet.CopyPartial | src/core/pbuf.c:1060-1091 | is the slice of the flat bytes, cut at the end |
| PbufBytes.Packet.Skip | src/core/pbuf.c:1191-1206 | finds the pbuf and place of a flat offset, or the end |
| PbufBytes.Packet.TryGetAt | src/core/pbuf.c:1428-1439 | is the flat byte, or -1 behind the end |
| PbufBytes.Packet.GetAt | src/core/pbuf.c:1410-1418 | is the flat byte, or 0 behind the end |
| PbufBytes.Packet.PutAt | src/core/pbuf.c:1450-1460 | sets the flat byte, or nothing behind the end |
| PbufBytes.Packet.Take | src/core/pbuf.c:1235-1266 | overwrites the start of the flat bytes, or changes nothing and says why |
| PbufBytes.Packet.TakeAt | src/core/pbuf.c:1279-1302 | overwrites the flat bytes at an offset, exactly if the offset is inside and the data fit |
| PbufBytes.Packet.CopyRound | src/core/pbuf.c:1003-1043 | one round copies the next bytes that are contiguous on both sides, moves on in each chain whose pbuf is used up, and stops if and only if only empty pbufs follow |
| PbufBytes.Packet.CopyInside | src/core/pbuf.c:1003-1046 | the loop ends with success if and only if no pbuf that it comes to is followed by empty ones only, with the bytes in place |
| PbufBytes.Packet.CopyPastFirst | src/core/pbuf.c:1003-1046 | for an offset behind the first pbuf, the first byte to copy goes outside if and only if the loop comes to it |
| PbufBytes.Packet.CopyFrom | src/core/pbuf.c:961-1046 | refuses what does not fit; at an offset within the first pbuf it copies exactly the bytes asked for, whatever the two segmentations, if and only if no pbuf that it comes to is followed by empty ones only; at a later offset its first write is outside, unless it stops at such a pbuf before or there is nothing to copy |
| PbufBytes.FullChainsCopy | src/core/pbuf.c:1033-1042 | chains without empty pbufs at the end are never taken for queues |
| PbufBytes.CopiesOutside | src/core/pbuf.c:1003-1016 | a copy of one byte behind the first of two pbufs whose write is outside |
| PbufBytes.Packet.Realloc | src/core/pbuf.c:403-464 | truncates the flat bytes and keeps `tot_len` of every pbuf right |
| PbufBytes.Packet.FreeHeader | src/core/pbuf.c:675-693 | drops exactly the first bytes and keeps every `tot_len` right; the pbufs that go are those that give up all their bytes, and the first that stays keeps some of its own |
| PbufBytes.Packet.Memcmp | src/core/pbuf.c:1473-1501 | 0 if and only if the bytes match, otherwise the first difference or that the packet is too short |
| PbufBytes.Packet.Memfind | src/core/pbuf.c:1515-1529 | a 16-bit result: the leftmost match from the offset on, or 0xFFFF if there is none before |
| PbufBytes.Packet.Append | src/core/pbuf.c:856-880 | appends the flat bytes; the 16-bit totals stay right if and only if the sum fits |
| Checksum.Checksum1 | src/core/inet_chksum.c:79-114 | version 1 returns the ones' complement sum of every block up to 0x20000 bytes |
| Checksum.Checksum2 | src/core/inet_chksum.c:131-173 | so does version 2, at either address parity, without overflow in 32 bits |
| Checksum.Checksum3 | src/core/inet_chksum.c:187-255 | so does version 3, at every address and for every length |
| Checksum.AllVersionsAgree | src/core/inet_chksum.c:79-255 | the three return the same 16 bits, 0 against 0xFFFF included |
| Checksum.DetectsOneByte | src/core/inet_chksum.c:79-255 | every change of a single byte changes the sum |
| Checksum.SumConcat | src/core/inet_chksum.c:567-588 | the sum of two blocks is the sum of the first and of the second, byte-swapped behind an odd number of bytes |
| ChecksumChain.InetChksum | src/core/inet_chksum.c:554-558 | the inverted sum of a block |
| ChecksumChain.AddPieces | src/core/inet_chksum.c:567-588 | the fold and swap loop adds the sum of the flat bytes for every way of cutting them, odd and empty pieces included |
| ChecksumChain.AddPrefix | src/core/inet_chksum.c:398-440 | the same for a prefix of the flat bytes |
| ChecksumChain.InetChksumPbuf | src/core/inet_chksum.c:567-588 | the checksum of a chain is that of its flat bytes |
| ChecksumPseudo.AddressSum | src/core/inet_chksum.c:309-363 | the 32-bit address words fold to the sum of the address bytes |
| ChecksumPseudo.ChksumPseudo | src/core/inet_chksum.c:259-395 | the checksum with a pseudo-header is that of the pseudo-header followed by the flat bytes |
| ChecksumPseudo.ChksumPseudoPartial | src/core/inet_chksum.c:398-542 | the same over the first bytes of the chain |
| ChecksumPseudo.Recheck | src/core/inet_chksum.c:544-558 | stored in a zeroed aligned field, a checksum makes checking the block again give 0 |
| ChecksumPseudo.RecheckBehind | src/core/inet_chksum.c:259-294 | the same for a field behind a pseudo-header |
| Timeouts.LessOneWay | src/core/timeouts.c:72-73 | the comparison is antisymmetric if and only if the times are not half the clock apart |
| Timeouts.LessInWindow | src/core/timeouts.c:72-73 | within half the clock it is the order of the distances |
| Timeouts.InsertedSorted | src/core/timeouts.c:181-221 | in a window, insertion keeps the list sorted modulo 2^32 and puts a timer exactly behind those due no later |
| Timeouts.RemovedSorted | src/core/timeouts.c:316-341 | removal keeps the list sorted and adds nothing |
| Timeouts.RemovedUndoesInserted | src/core/timeouts.c:289-341 | removing a callback undoes setting it, if it was not set before |
| Timeouts.RestartedSorted | src/core/timeouts.c:403-420 | a restart keeps the order and all distances, the first being due now |
| Timeouts.NextDueWeight | src/core/timeouts.c:231-261 | a cyclic timer is set again exactly one interval behind its due time, or behind the clock if that has passed; so after its due time and not before the clock, and not again within the call unless on its very start |
| Timeouts.NoDrift | src/core/timeouts.c:231-261 | over any number of callbacks that return before the next due time, the due times of a cyclic timer lie exactly one interval apart, however late the callbacks are |
| Timeouts.AtMostTwice | src/core/timeouts.c:351-396 | what a list of timers can bring about in a call is at most twice its callbacks, with those that they set for at once |
| Timeouts.BurstsAreEntries | src/core/timeouts.c:351-396 | where callbacks set others only for later, that is twice per entry |
| TimerQueue.ArmKept | src/core/timeouts.c:289-309 | a timer that a callback sets fires in the same call only if it is set for at once, and then once; it is accounted for, in the list or as lost to an empty pool |
| TimerQueue.DisarmKept | src/core/timeouts.c:316-341 | a timer that a callback removes is accounted for, also if it had expired |
| TimerQueue.FireKept | src/core/timeouts.c:351-396 | taking off an expired timer, running its callback with all that it sets and removes, and re-arming it keeps the accounts of every callback |
| TimerQueue.FirePooled | src/core/timeouts.c:351-396 | the elements in the list and the free ones are always the same number, and none is missing unless callbacks have set more timers than were free |
| TimerQueue.FireOrdered | src/core/timeouts.c:351-396 | it keeps the list sorted, and leaves nothing that is due before the timer that fired |
| TimerQueue.RearmedTimes | src/core/timeouts.c:143-309 | every timer set after a callback was set before it, or the callback has set it, as far ahead of the clock as it asks for or for its own next turn |
| TimerQueue.RearmsItself | src/core/timeouts.c:231-261 | a callback that is to be called again is set again for its next turn, unless the pool is empty |
| TimerList.Timers.SetAbs | src/core/timeouts.c:181-221 | the list after it is the insertion; if the pool is empty it is as before, and the timer is lost |
| TimerList.Timers.Unset | src/core/timeouts.c:316-341 | the list after it lacks the first timer of that callback, whose element goes back to the pool |
| TimerList.Timers.Restart | src/core/timeouts.c:403-420 | the list after it is the restarted one |
| TimerList.Timers.SleepTime | src/core/timeouts.c:425-443 | the time until the first timer is due in the window order, 0 if it is past, the maximum if there is none |
| TimerList.Timers.Call | src/core/timeouts.c:143-261 | a callback sets and removes timers in order; then a cyclic one sets itself again from its due time, another from the clock |
| TimerList.Timers.Check | src/core/timeouts.c:351-396 | it ends, whatever timers the callbacks set and remove; all timers expired at its start are called, unless a callback removed them, in due order, none early, no entry more than twice, and those set for at once with it; nothing expired stays; each cyclic timer is set as often as before, plus and minus exactly what callbacks asked for; none is lost unless they set more than the pool had free; each timer pending afterwards was so before, or a callback that was called has set it for the time that it asked for or for its own next turn |
| Memp.Sanity | src/core/memp.c:100-116 | ends on every finite linked structure, and is 0 if and only if the list runs in a circle |
| Memp.MeetOrEnd | src/core/memp.c:100-116 | within as many steps as there are elements the list has ended or the two pointers have met |
| Memp.FreedTwiceIsCyclic | src/core/memp.c:358-394 | pushing an element makes a circle if and only if it is on the free list already |
| Memp.LastFreedFirst | src/core/memp.c:245-394 | the element given back last is the next to be handed out, and all else is then as before |
| Memp.Pool.constructor | src/core/memp.c:174-215 | the free list holds every element once |
| Memp.Pool.Malloc | src/core/memp.c:245-300 | hands out the first element of the free list, which nobody holds, or null exactly if all are out |
| Memp.Pool.Free | src/core/memp.c:358-394 | puts a held element in front, after which the sanity check gives 1 |
| Memp.Pool.Serve | src/core/memp.c:174-394 | the state after a run is the requests applied one by one; over every run the free list and the held elements are exactly the pool, each once, and the sanity check gives 1 |
| FtpMonitor.OneResultEach | src/lwftp.c:259-288 | in every allowed log each operation has one final result or, instead, its connection's closing notice, and each connection has one notice |
| FtpMonitor.OnlyQuitAfterQuit | src/lwftp.c:687-696 | in every allowed log nothing but QUIT follows QUIT until the connection is closed |
| FtpMachine.ScriptFirst | src/lwftp.c:94-1115 | on every event the session first notes what its table says; what follows in the log is the callback's doing, and is nothing if the callback makes no call |
| FtpMachine.UploadIsLost | src/lwftp.c:172-408 | after connecting, logging in, starting an upload and losing the data connection, the session waits for the reply to STOR without a data connection |
| FtpProtocol.ReplyDue | src/lwftp.c:295-543 | at rest, what the client does on the next reply is what the log alone makes due: the next command of the login or of the operation, the result, QUIT, the closing notice, or nothing |
| FtpProtocol.EveryRunFollows | src/lwftp.c:94-1115 | over every run from a fresh session, whatever a reply makes due follows it at once in the log: 220 USER, 331 PASS, 230 the login, 200 PASV, 227 the deciding command, 350 RNTO, the reply that completes an operation the result Ok, each failing reply its own result, one that was not awaited QUIT; and no command, result or notice is there without such a reply, a call of the user, or a connection that failed |
| FtpProtocol.SuccessIsTold | src/lwftp.c:417-543 | over every such run, the reply that completes an operation is followed at once by the result Ok |
| FtpProtocol.EventNotes | src/lwftp.c:94-1115 | what each event notes first follows from the log so far, whether the connection is established, and whether the data connection is: an operation is accepted exactly if the log shows a login and no operation under way, a connection exactly if none is open, and a failed data connection ends exactly a transfer under way |
| FtpProtocol.DataEnds | src/lwftp.c:94-184 | the last data, sent or received, and a failure end the data connection and nothing else, but that a failure ends a transfer under way |
| FtpProtocol.TransferStarts | src/lwftp.c:381-416 | the reply 150 starts the transfer; an upload without bytes gives up its data connection at once |
| FtpSession.Settled | src/lwftp.c:259-288 | idle or closed, every accepted operation has had exactly one result; closed, every connection block obtained has been closed or reported dead |
| FtpSession.Session.ControlClose | src/lwftp.c:274-288 | closes each connection block in use once, tells the callback the closing result, and does then exactly what the calls of the callback do, one after the other |
| FtpSession.Session.CallConnect | src/lwftp.c:782-823 | the whole new state for each combination of state, arguments and failures, with what the callback's own calls do then |
| FtpSession.Session.CallOperation | src/lwftp.c:829-1094 | the same for operations: accepted exactly when logged in with its arguments set and a data block to be had; then its first command is sent |
| FtpSession.Session.Start | src/lwftp.c:548-682 | the session is always logged in here, so the branch for an unexpected state is never taken |
| FtpSession.Session.Hang | src/lwftp.c:1100-1115 | sends QUIT exactly on a session that is not closed |
| FtpSession.Session.Login | src/lwftp.c:308-344 | the answers to the banner, USER and PASS, and after a good login exactly what the callback does |
| FtpSession.Session.SetUp | src/lwftp.c:345-380 | the answers to TYPE and PASV; the branch for an unexpected target is never taken |
| FtpSession.Session.BeginTransfer | src/lwftp.c:381-416 | the answers to RETR, STOR and MLSD, and whether an upload finds its data connection |
| FtpSession.Session.SendNext | src/lwftp.c:94-115 | without a data connection it reports the use of a null pointer; otherwise, at the end of the file, it closes the connection |
| FtpSession.Session.EndTransfer | src/lwftp.c:484-494 | the answer that ends a transfer: success on 226, a closed transfer on any other |
| FtpSession.Session.Answer | src/lwftp.c:417-483 | the answers to the other commands, with success reported exactly on the reply that means it |
| FtpSession.Session.SecondStep | src/lwftp.c:521-543 | the end of an operation, QUIT, or the end of the session, with exactly what the callback does then |
| FtpSession.Session.Process | src/lwftp.c:295-543 | for every state and reply the whole new state: what is sent or told, where the session waits, which connections are open, and what the callback does; it reports an upload without a data connection exactly if there is one |
| FtpSession.Session.DataFailed | src/lwftp.c:172-184 | an error of the data connection ends a transfer under way with a result and what the callback does then, and otherwise is only noted |
| FtpSession.Session.ControlFailed | src/lwftp.c:740-756 | a dead control connection is told as a failed connect or as a close, followed by what the callback does |
| FtpSession.Session.Happen | src/lwftp.c:94-1115 | each event leads to exactly the state that the table of transitions gives, and keeps the log allowed and the connection blocks accounted for; a null pointer is used exactly by the reply that starts an upload without a data connection |
| FtpSession.Session.Drive | src/lwftp.c:172-1115 | a run goes through all events, or up to the first reply that starts an upload without a data connection; each state is the one that the table gives for the event before, the commands obey the sequencing of section 5.4 of RFC 959; idle or closed, every accepted operation has had exactly one result; closed, every connection block obtained has been closed or reported dead |
| FtpSession.LostUpload | src/lwftp.c:172-408 | a run from a fresh session to that reply |
| FtpUpload.InOrderIsPrefix | src/ftp.c:203-226 | positions handed over in order mean that the bytes are a prefix of the file |
| FtpUpload.ChunksIs | src/ftp.c:203-226 | the number of chunks is the size divided by the segment size, rounded up |
| FtpUpload.Upload.DataSource | src/ftp.c:203-226 | moves the cursor by an acknowledgement, clamped, or offers the bytes at the cursor, none exactly at the end |
| FtpUpload.Upload.SendNext | src/lwftp.c:94-115 | hands over at most one segment from the cursor, or closes at the end |
| FtpUpload.Upload.Acknowledge | src/lwftp.c:157-166 | the bytes stay a prefix, each once and in order, if and only if the acknowledgement covers the outstanding chunk; the close comes exactly when all is acknowledged |
| FtpUpload.Upload.Complete | src/lwftp.c:396-406 | with such acknowledgements the whole file is handed over, in as many chunks as it has segments, and then the connection is closed |

## Left out

- SocketSelect.Sockets.Select: takes what each scan reads of a socket from outside, since others change it in between; how that status comes about is the subject of `SelectWake`.
- SocketSelect.Sockets.Scan: likewise.
- SocketSelect.Sockets.HoldSet: states that every holdable wanted socket is held only if undisturbed, since others may close it in between.
- DnsResolver.Resolver.Enqueue: takes names that fit the table; its caller refuses longer ones (`src/core/dns.c:1592-1595`).
- DnsResolver.Resolver.Receive: reads the bytes behind the terminating zero of a name in the table as zero; the code compares a malformed label with whatever they are.
- PbufBytes.Packet.CopyFrom: does not follow what a write outside the destination does.
- TimerList.Timers.Check: takes all times within one window shorter than 2^31, cyclic timers with a positive interval, and callbacks that set themselves again with a positive delay; with 0 a callback keeps the call from ending while the clock stands still.
- FtpSession.Session.Happen: does not follow the use of the null pointer when an upload starts without a data connection; `Drive` ends there.
- Checksum.Checksum1: states the sum for blocks up to 0x20000 bytes, where 32 bits cannot overflow; so does `Checksum2`.
- Little-endian hosts are modelled; on others the words are loaded the other way round.
- Heap: the fixed pools and the libc variants of `mem_malloc`, `mem_calloc`, overflow checks and statistics.
- Heap: interference within frees and trims. They run under protection, except that `mem_trim` reads the header of its own block before (`src/core/mem.c:830-850`), which no other call changes while that block is owned.
- Sockets: `lwip_poll`, socket options, and the calls of the API other than those that count holds; LWIP_SOCKET_OFFSET is 0; `rcvevent` and the waiter list counter are unbounded integers.
- DNS: names that are addresses or `localhost`, multicast names, the local host list, and callbacks that call the resolver; the request table is as long as the entry table, as configured by default.
- DnsResolver.Resolver.Send: has memory for its packet; without it the code sends nothing and waits for the next retry.
- Pbufs: packet queues, custom pbufs, adding headers, and `tot_len` of other chains that share pbufs with one that grows.
- FTP: a missing callback; failing writes; the texts of commands; partial and multi-line replies, which the code takes for replies of their own.
- The upload cursor when writes fail; files and offsets beyond the width of the cursor.
- Keypad, menus, files of the calculator, and the .8x format.
- Dispatch layers, message passing and TCP itself, which appear as events.
