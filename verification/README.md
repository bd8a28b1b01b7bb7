# A verified model of olsrd's routing core

olsrd is a link-state routing daemon for mobile ad-hoc networks (RFC 3626) that runs with additive link costs. This
project models the parts of it in which correctness is hard to see and proves what they are for. `dafny verify
dfyconfig.toml` checks everything. Each module follows one part of the source.

| file | part |
|---|---|
| `Basics.dfy` | what several parts share |
| `Avl.dfy`, `Order.dfy` | the ordered index every database is kept in, and the key comparisons it is used with |
| `Seqno.dfy`, `Duplicates.dfy` | wrapping sequence numbers, and the 32-bit duplicate window over them |
| `Border.dfy`, `Lsdb.dfy`, `Fragments.dfy` | border flags, the link-state database, cutting and reassembling TC messages |
| `Graph.dfy`, `Spf.dfy` | the graph of the link-state database, and shortest paths in it |
| `Election.dfy`, `Rib.dfy`, `Routing.dfy` | best-path election, the routing information base and the kernel table, and the way from the database to there |
| `Timer.dfy`, `Clock.dfy`, `TimeCode.dfy` | the timer wheel, the internal clock, the one-byte time code |
| `Mpr.dfy`, `Hello.dfy`, `Forward.dfy` | relay selection, the HELLO writer and reader, header rewriting and forwarding |

The main results:

- Every insertion into and removal from a valid AVL tree leaves a valid one: search order, true height differences,
  mutually inverse links, the threaded list equal to the in-order walk with duplicates behind their leader. The three
  searches return what a scan of the list would.
- When SPF ends, every label is that of a shortest path, down to the first link and the hop count, and unreachable
  routers keep the broken cost.
- One recomputation leaves in the kernel a route for exactly the prefixes that other reachable routers advertise, by the
  first step of a cheapest walk over the link-state database to a nearest one, ties going to fewer hops, whatever the
  tables held before (`Routing.CalculateFrom`). A step costs what the edge costs, or the edge back if it is virtual. Only
  the current internet gateway is kept against a nearer router, and only if that one is not nearer than the gateway's
  cost times the threshold; the router chosen for the default prefix is the next gateway, and stays it
  as long as the paths are the same (`Election.ElectedAgain`).
- Over every run of well-formed TC messages, timeouts and neighbour changes each edge has its inverse, each pair has a
  side that is real or pinned by a neighbour, no neighbour points to a freed edge and no edge to a freed node, and every
  event makes of the real edges what it is meant to (`Lsdb.Database.Run`). With malformed messages this holds up to the
  first access outside the database.
- The neighbour table of a sender, cut into messages that arrive in any order and any number of times, is what the
  database of the receiver then holds as real edges of the sender, whatever the byte orders of the two hosts
  (`Fragments.Exchange`).
- A message on its way through any number of nodes, perhaps through the same ones again, is the same but for TTL and hop
  count, whose sum stays, and crosses no more links than its first TTL. A node sends it on a second time only if it had
  not heard of the originator before the first, and never a third time; the originator never does
  (`Forward.Journey`).
- A walk of the timer wheel is a run of a flat timer set that fires only what is due and leaves nothing due, whatever
  the callbacks do to timers. No timer fires twice; of those the callbacks leave alone, exactly the due ones fire, and
  then a periodic one waits for its period again, less its jitter, and any other is gone (`Timer.WalkFair`).
- The duplicate window shows exactly which of the last 32 numbers were accepted; between resets none is accepted twice.
  Over a whole run of numbers a number is refused exactly if it has come before (`Duplicates.Reception`).
- Reading a HELLO gives back every link that was written, but for those of lost interfaces (`Hello.RoundTrip`).
- However the wall clock jumps, the internal clock never runs backwards; between jumps it does not drift
  (`Clock.NoDrift`).

Where the code falls short of what it is meant to do, the model keeps the code, shows an input, and states when it does
meet it:

- The upper end of the last fragment's range is exclusive, so a stale edge to the all-ones address survives
  (`Fragments.NoGap` is an equivalence, and `Fragments.Deliver` says exactly what is left).
- A later fragment whose first neighbour is not advertised may leave a gap (`Fragments.UnadvertisedStart`). The ranges
  leave none if and only if the first advertised neighbour of every later fragment agrees with its first neighbour above
  the flagged bit (`Fragments.CoveredIff`), as it does when that neighbour is advertised (`Fragments.SentTiles`). This
  is for the order byte by byte. In any order the agreement is enough (`Fragments.AgreeCovers`), but in raw order it is
  not needed (`Fragments.RawStart`); what decides in any order is whether the ends of the ranges are covered
  (`Fragments.EndsDecide`).
- A little-endian host compares IPv4 addresses as integers, from the last byte on. In this raw order the border of two
  neighbours need not lie between them (`Border.RawOrderFails`); it does if and only if the first has the smaller byte
  where the two begin to differ and zeros behind it (`Border.RawOrderBorder`). Only that no address is in two ranges
  needs this condition (`Fragments.NoOverlap`). That the ranges cover every address and that the fragments are delivered
  does not: both are proved for a sender and a receiver in either order, the two orders being independent.
- Border flags come from the network. The receiver stays inside the address exactly for the flags a sender writes
  (`Border.FlagBounds`): zero beside a flag that is not, or a flag beyond the address, makes it write before it.
- A router that advertises itself gets an edge that is its own inverse. Deleted for the second time, it is removed twice
  (`Lsdb.LoopTwice`); `Lsdb.Database.DeleteEdge` and the deletions that use it say exactly when that happens.
- `avl_comp_ipv4_prefix_origin` is not transitive (`Order.OriginCycle`); `Order.OriginOrder` says for which pairs it is
  what it is meant to be, and `Order.OriginOrders` on which sets of prefixes it is a total preorder.
  `avl_comp_ipv4_addr_origin` is the same comparison for prefixes of one length.
- Deleting the best path of an entry re-elects with the deleted path still in place (`Election.StaleBest` is an
  equivalence), so the election claims start from the cleared pointer. The last tie-break of the path comparison holds
  both ways (`Election.TieBreakBothWays`).
- A new duplicate entry has an empty window, so the number that made it passes once more, and not a third time
  (`Duplicates.AcceptedAgain`).
- The first pass of relay selection is meant for neighbours that are always willing, but its test is the other way round:
  every symmetric neighbour that is not always willing becomes a relay (`Mpr.Neighborhood.Calculate`), so it is right for
  a neighbour exactly if that is not symmetric (`Mpr.PresetMeant`).
- `SEQNO_GREATER_THAN` and `olsr_seqno_diff` disagree for numbers half the range apart (`Seqno.GreaterIsDiff`).

What callers are required to guarantee is what the code relies on: a total preorder as key comparison; path costs that
leave room for one more link in 32 bits (`Graph.TollsFit`, on the graph `Spf.CostsFit`, which `Spf.SizeFits` derives for
up to 256 routers and `Spf.DiameterFits` for any number within 255 hops; `Routing.CalculateSmall` does without it); a NAT
threshold as the configuration check admits; a link-quality codec that brings back the values it writes; clocks before
the 32-bit counter wraps.

## Model

| member | source | states |
|---|---|---|
| Avl.Tree.Insert | src/common/avl.c:218-298 | the item enters the sorted list after the last entry that is not greater; or it is refused, if its key is taken and duplicates are not allowed, and list, links and balances are untouched; the tree stays valid |
| Avl.Tree.Remove | src/common/avl.c:305-350 | exactly the given node leaves the list, its first duplicate taking its place in the tree if there is one; the tree stays valid |
| Avl.Tree.Find | src/common/avl.c:113-125 | a node with the key if there is one, null only if there is none, the first of its group |
| Avl.Tree.FindLessEqual | src/common/avl.c:135-167 | the last entry of the list whose key is not greater, null if there is none |
| Avl.Tree.FindGreaterEqual | src/common/avl.c:177-209 | the first entry of the list whose key is not smaller, null if there is none |
| Avl.Tree.LastNotAbove | src/common/avl.c:145-166 | the two list walks end at the last entry that is not greater, wherever they start |
| Avl.Tree.FirstNotBelow | src/common/avl.c:187-208 | the two list walks end at the first entry that is not smaller |
| Avl.Tree.FindRec | src/common/avl.c:362-385 | the search ends at the key or at a node with a free side where the key belongs |
| Avl.Tree.ListIsWalk | src/common/avl.c:218-350 | in every valid tree the in-order walk is the list of leaders and every balance is the true height difference, within one |
| Avl.Tree.RotateRight | src/common/avl.c:392-422 | the left child takes the node's place, with the balances of the two recomputed to their true height differences |
| Avl.Tree.RotateLeft | src/common/avl.c:429-459 | the mirror image |
| Avl.Tree.BalanceRight | src/common/avl.c:420-421 | the min/max arithmetic on balances gives the height differences after a right rotation |
| Avl.Tree.BalanceLeft | src/common/avl.c:457-458 | the same for a left rotation |
| Avl.Tree.PostInsert | src/common/avl.c:466-512 | a tree in which one subtree has grown by one is balanced again all the way up |
| Avl.Tree.PostDelete | src/common/avl.c:560-620 | a tree in which one subtree has shrunk by one is balanced again all the way up |
| Avl.Tree.DeleteWorker | src/common/avl.c:652-788 | the node leaves the tree, a neighbour in key order taking its place if it has children, and nothing else leaves |
| Avl.Tree.LocalMin | src/common/avl.c:627-634 | the leftmost node below a node |
| Order.PlainOrders | src/common/avl_olsr_comp.c:145-161 | the address and prefix comparisons are the total preorders a tree needs |
| Order.PrefixOrder | src/common/avl_olsr_comp.c:145-161 | lower addresses come first, then longer prefixes, and only prefixes with the same address and length are equal; what the comparison with origins is meant to be |
| Order.OriginOrder | src/common/avl_olsr_comp.c:74-98 | for two prefixes, the prefix-and-origin comparison is the intended order exactly if their addresses are less than half the address space apart |
| Order.OriginOrders | src/common/avl_olsr_comp.c:74-98 | it is a total preorder on exactly those sets of prefixes whose addresses lie in some half of the address space, taken as a circle |
| Order.CloseOrders | src/common/avl_olsr_comp.c:74-98 | so it is on prefixes whose addresses are pairwise less than half the address space apart |
| Order.OriginCycle | src/common/avl_olsr_comp.c:74-98 | over the whole address space it has a cycle and is no preorder |
| Seqno.Diff | src/duplicate_set.c:62-76 | the difference of two 16-bit numbers, congruent modulo 65536 and in the signed range |
| Seqno.DiffUnique | src/duplicate_set.c:62-76 | it is the only such number |
| Seqno.GreaterIsDiff | src/olsr_protocol.h:158-163 | the macro is a positive difference, except for numbers half the range apart |
| Duplicates.Examine | src/duplicate_set.c:184-235 | the window refines the history of accepted numbers across wraps, jumps and late arrivals: a number is accepted unless it was before, one far below the head is refused, and the seventeenth such in a row starts the history anew |
| Duplicates.DuplicateSet.IsDuplicate | src/duplicate_set.c:146-236 | per originator the verdict and the new history are those of the accepted numbers, including when a much too old number resets instead of being refused; no number is accepted twice since the last reset; other originators are untouched |
| Duplicates.InReach | src/duplicate_set.c:200-235 | a number, by its true value, at most 31 below the head and less than half the range above is refused exactly if it was accepted before; afterwards exactly it is accepted besides, the head is the greater of the two, and nothing is known of other originators that was not |
| Duplicates.OutOfReach | src/duplicate_set.c:184-199 | one further below is refused and not recorded, unless sixteen came in a row before: then it is accepted and all else forgotten |
| Duplicates.FirstHeard | src/duplicate_set.c:164-176 | the first number of an originator is accepted and not recorded |
| Duplicates.Reception | src/duplicate_set.c:146-236 | over any run of numbers none of which is more than 31 below the highest before it, a number is refused exactly if it has come before, the first of the run not counting |
| Duplicates.FarBelow | src/duplicate_set.c:184-199 | up to sixteen numbers in a row that are too far below are refused and change no other verdict; the next is accepted |
| Duplicates.SetHas | src/duplicate_set.c:218 | setting a bit sets that bit only |
| Duplicates.ShlHas | src/duplicate_set.c:224-225 | shifting moves every bit of the window up and lets zeros in, within 32 bits |
| Duplicates.NewStep | src/duplicate_set.c:224-230 | a newer number becomes the head and the window still shows the accepted ones, also for jumps of 32 or more |
| Duplicates.OldStep | src/duplicate_set.c:207-223 | a late number is recorded at its distance from the head |
| Duplicates.AcceptedAgain | src/duplicate_set.c:78-236 | an accepted number is refused the next time, unless it made the entry: then it is accepted once more and refused the third time; refused, it changes nothing |
| Border.CalculateFlag | src/tc_set.c:910-937 | zero exactly for equal addresses, else the place of the first bit in which they differ |
| Border.HighestDifference | src/tc_set.c:927-933 | the shifting mask stops at the highest differing bit of two bytes |
| Border.RebuildBorder | src/tc_set.c:720-745 | in place, the border of an address for a flag, or all zeros or ones for the open end; for any other byte the receiver would write before the address |
| Border.CalculateBorder | src/tc_set.c:713-747 | none if both flags are zero, both borders of the message if both flags point into it, else a write outside, for any two bytes |
| Border.FlagBounds | src/tc_set.c:720-745 | the flags for which the receiver stays inside the address are exactly those a sender writes |
| Border.BorderBetween | src/tc_set.c:713-747 | both addresses rebuild the same border, which lies after the first and not after the second, for any length in bytes |
| Border.SameBorder | src/tc_set.c:713-747 | another address rebuilds the same border exactly if it agrees above the flagged bit |
| Border.BorderRises | src/tc_set.c:713-747 | a greater address rebuilds no smaller border |
| Border.FlagUnique | src/tc_set.c:910-937 | two addresses have one flag |
| Border.RawOrderBorder | src/ipcalc.h:79-83 | compared as little-endian integers, the border lies between two addresses if and only if the first has the smaller byte where they begin to differ and zeros behind it, for any length |
| Border.RawOrderFails | src/ipcalc.h:79-83 | two addresses whose border is the first of them |
| Lsdb.Database.AddEdge | src/tc_set.c:367-436 | a new real edge and its virtual inverse, joined both ways, and the node it points to; the recursion stops at depth two, where it finds the half-open edge; an edge from a router to itself finds itself as its inverse |
| Lsdb.Database.DeleteEdge | src/tc_set.c:438-499 | the edge becomes virtual if its inverse is real or pinned, else the pair goes; exactly a virtual, unpinned edge that is its own inverse would be removed twice |
| Lsdb.DropKeeps | src/tc_set.c:459-499 | either way every edge keeps its inverse, every pair its real or pinned side, every neighbour its edge |
| Lsdb.DropReal | src/tc_set.c:459-499 | either way exactly this edge leaves the real topology |
| Lsdb.LoopTwice | src/tc_set.c:459-499 | the edge of a router to itself is such an edge after its first deletion |
| Lsdb.Database.DeleteNode | src/tc_set.c:227-269 | no real edge of the node is left; the node stays, as a virtual one, exactly while some edge to it is real or pinned; all this unless its edge to itself would be removed twice |
| Lsdb.Database.DeleteOutdated | src/tc_set.c:507-525 | exactly the edges with an older ANSN leave the real topology, unless an edge to itself would be removed twice |
| Lsdb.Database.DeleteRevoked | src/tc_set.c:535-571 | in the order of the host, exactly the older edges between the borders leave the real topology, although the ordered walk skips and stops early, unless an edge to itself would be removed twice |
| Lsdb.Database.UpdateEdge | src/tc_set.c:582-635 | the edge is real with the new ANSN and the rest of the topology as before, also if a router advertises itself |
| Lsdb.Database.AddNeighbor | src/neighbor_table.c:129-137 | the neighbour has a pinned edge from us, found or made |
| Lsdb.Database.DeleteNeighbor | src/neighbor_table.c:169-176 | the unpinned edge leaves the topology and the database is consistent again |
| Lsdb.Database.InputTc | src/tc_set.c:760-875 | refused exactly if too old; else its neighbours are real, and older edges in its range are not, all else being as it was, or collection is scheduled; exactly for malformed flags the receiver would write outside the address, and exactly for an older, virtual edge of the sender to itself in its range it would remove that twice |
| Lsdb.BothWays | src/tc_set.c:403-421 | an edge one way exactly if there is one the other way, each the inverse of the other |
| Lsdb.Database.Run | src/tc_set.c:227-571 | whatever messages, timeouts and neighbour changes come, the pairing invariant holds and each has its effect on the real edges and the neighbours, up to the first access outside the database; there is none if the flags are a sender's and no router advertises itself |
| Lsdb.Database.Step | src/tc_set.c:227-875 | one event: a TC that is not ours and not too old makes its neighbours real and the older edges it covers go, or leaves them to the timer; an expired node loses all its edges and goes unless some edge to it holds, a collection takes the older ones; a neighbour that comes has an edge from us, one that goes has none; all other real edges stay, and so do ANSN and virtual mark of all nodes that the event is not about |
| Lsdb.MentionedMeans | src/tc_set.c:805-832 | the nodes after a TC: those of before and those it mentions, new ones without a message of their own; its originator is virtual no more if it mentions any |
| Fragments.OutputOne | src/tc_set.c:949-1086 | one message: the advertised neighbours from where the last stopped, cut only when it is full, with the flags of both cuts |
| Fragments.OutputAll | src/tc_set.c:1088-1096 | the messages together cut the neighbour list without leaving any out, each further on than the last, all but the last one full |
| Fragments.SentTiles | src/tc_set.c:999-1021 | such messages tile the address space, in the order of either host, if none is empty and each later one starts at an advertised neighbour |
| Fragments.EndAt | src/tc_set.c:1001-1021 | a range ends at the border at the cut, which lies between the two neighbours there exactly as the order of the host admits |
| Fragments.Junction | src/tc_set.c:1001-1021 | where one range ends the next begins, in either order |
| Fragments.NoGap | src/tc_set.c:535-571 | if the messages tile, every address but all ones is in the range of some message, and all ones in none, in the order of the receiver whatever that of the sender |
| Fragments.NoOverlap | src/tc_set.c:535-571 | none is in the range of two, in raw order if the border at every cut lies between the two neighbours there |
| Fragments.Union | src/tc_set.c:999-1066 | the messages mention the advertised neighbours and no others |
| Fragments.AfterAll | src/tc_set.c:818-874 | after any run of messages with one ANSN, what they mention is real, what they cover besides is gone, all else is as it was |
| Fragments.Deliver | src/tc_set.c:760-875 | the real edges after all messages are those the messages make one by one; if the messages tile, the originator's are its advertised neighbours and, if it was real before, all ones; other routers' edges are as before; for a sender and a receiver in either order |
| Fragments.Exchange | src/tc_set.c:760-1096 | from the neighbour table of the sender through a network that reorders and repeats to the database of the receiver, in either order each; the messages tile if all neighbours are advertised |
| Fragments.CoveredIff | src/tc_set.c:999-1021 | byte by byte, every address but all ones is covered if and only if the first address of every later message agrees with the neighbour it starts at above the flagged bit |
| Fragments.AgreeCovers | src/tc_set.c:999-1021 | in either order of either host this agreement is enough |
| Fragments.EndsDecide | src/tc_set.c:535-571 | in either order, whatever messages, every address but all ones is covered if and only if all zeros and the ends of the ranges are |
| Fragments.RawStart | src/tc_set.c:999-1021 | three IPv4 neighbours in raw order in two messages that cover every address although the second does not agree |
| Fragments.Uncovered | src/tc_set.c:999-1021 | if it does not agree, the end of the message before is covered by none |
| Fragments.UnadvertisedStart | src/tc_set.c:1001-1009 | three IPv4 neighbours in two messages that leave an address uncovered, because the second starts at one that is not advertised |
| Spf.Computation.ExploreEdge | src/olsr_spf.c:181-237 | one edge: its own cost, or that of its inverse if it is virtual; broken ones are skipped, a cheaper way relabels the vertex and puts it back among the candidates |
| Spf.Cut | src/olsr_spf.c:164-269 | settled vertices are at their true distance and nothing unsettled is nearer than the best candidate |
| Spf.ExploreKeeps | src/olsr_spf.c:164-238 | exploring an edge of the best candidate keeps the invariant and relaxes that edge for good |
| Spf.SettleKeeps | src/olsr_spf.c:124-139 | moving the best candidate to the path list keeps the invariant |
| Spf.Computation.Round | src/olsr_spf.c:259-268 | each round settles one new vertex |
| Spf.Computation.RunFull | src/olsr_spf.c:252-269 | every vertex has the cost, hop count and first link of a shortest path over usable edges, or the broken cost if it is unreachable; the path list is without repetition and ascending; the loop ends |
| Spf.DiameterFits | src/olsr_types.h:122 | costs fit 32 bits in every network of at most 255 hops |
| Spf.ShortPath | src/olsr_spf.c:252-269 | what can be reached can be reached with fewer edges than there are routers |
| Spf.SizeFits | src/olsr_types.h:122 | costs fit 32 bits in every network of up to 256 routers |
| Graph.Build | src/olsr_spf.c:181-212 | all nodes of the database with all their edges, each leading to the node of its inverse, with its cost and that of its inverse |
| Graph.EdgeMeans | src/olsr_spf.c:181-212 | an edge of the graph from one node to another exactly if the database has one |
| Graph.GraphClosed | src/olsr_spf.c:184-212 | in a valid database every edge leads to a node of the graph |
| Graph.EdgeIsStep | src/olsr_spf.c:181-212 | an edge of the graph is a step over the database: it costs what the database edge costs if that is real, what the edge back costs if it is virtual |
| Graph.PathIsWalk | src/olsr_spf.c:181-237 | every path of the graph is a walk over the database with the same cost |
| Graph.WalkIsPath | src/olsr_spf.c:181-237 | every walk over the database is a path of the graph with the same cost |
| Graph.FitsBoth | src/olsr_types.h:122 | costs fit 32 bits on the graph exactly if they do on the database |
| Election.ElectMinimal | src/routing_table.c:388-405 | from a cleared pointer the best path is the last with a minimal scaled cost, hop count and origin |
| Election.GatewayDisplaced | src/routing_table.c:313-370 | with t the threshold, the current gateway stays if every other path costs more than its cost times t / 1000, gives way if some other costs less by more than the rounding, and gives way only to a path that costs no more |
| Election.ScaledFits | src/routing_table.c:325-342 | the scaling stays in 32 bits and never raises a cost |
| Election.ScaledMeans | src/routing_table.c:325-342 | the scaled cost is cost times threshold / 1000 rounded down, large costs being divided first |
| Election.ElectedAgain | src/routing_table.c:388-405 | a path elected as gateway is elected again as long as the paths are the same |
| Election.TieBreakBothWays | src/routing_table.c:313-370 | exactly when two paths each beat the other |
| Election.StaleBest | src/routing_table.c:269-305 | re-election with a deleted path in place keeps it exactly if nothing beats it |
| Rib.Table.RefreshPath | src/routing_table.c:125-264 | the paths of the current version are those of before and this one, with its new cost, hops and next hop, unless the prefix is too long; the kernel still mirrors the table |
| Rib.Table.RefreshPaths | src/olsr_spf.c:387-430 | the paths of the new version are exactly those the path list asks for |
| Rib.Table.DeleteOutdated | src/process_routes.c:234-254 | the paths of older versions go and the best pointer is cleared |
| Rib.Table.Enqueue | src/process_routes.c:93-114 | the entry is in the queue once, all others are as before, and routes to next hops stay before all others |
| Rib.QueueStep | src/process_routes.c:262-294 | after each entry of the walk the queue holds exactly the changed ones, once each, routes to next hops first |
| Rib.Table.UpdateRib | src/process_routes.c:262-294 | every entry keeps its current paths with an elected best one or goes, with its kernel route; the changed ones are queued |
| Rib.Table.UpdateKernel | src/process_routes.c:204-226 | the queue is worked off in its order, routes to next hops first, and every kernel route is that of the elected path |
| Rib.Table.Recompute | src/olsr_spf.c:387-442 | the kernel has routes for exactly the advertised prefixes, each by the next hop of the elected path, whatever was there before; the gateway is then the elected path of a prefix of length zero, or as before if there is none |
| Rib.WantedMeans | src/olsr_spf.c:387-430 | what the walk over the path list asks for is what some router with a next hop advertises |
| Routing.Calculate | src/olsr_spf.c:285-459 | the kernel has a route for exactly the prefixes that other reachable routers advertise, by the first link of a shortest path to the preferred one: the nearest, then the one with fewest hops, then the lowest kind of advertisement; the current gateway is kept unless another is nearer than its cost times the threshold, and left only for one that is no dearer than that; the router chosen for a prefix of length zero is the gateway from then on |
| Routing.RouteMeans | src/olsr_spf.c:351-442 | one such route |
| Routing.CalculateFrom | src/olsr_spf.c:285-459 | the same from any valid link-state database and the costs of its edges, with cheapest walks over the database for shortest paths |
| Routing.CalculateSmall | src/olsr_spf.c:285-459 | the same for up to 256 routers, whatever the costs of the edges |
| Routing.PathsAreWalks | src/olsr_spf.c:181-237 | what is reached by shortest paths in the graph, at what cost, in how many hops and by which neighbour, is that of cheapest walks over the database |
| Routing.AdvertisedMeans | src/olsr_spf.c:387-430 | what the path list advertises is what other reachable routers advertise with an admissible length |
| Timer.Jittered | src/olsr_timer.c:346-368 | a delay is shortened by no more than the percentage and never to nothing; without jitter, with one above 99 percent and for delays above 2^24 ms it is not shortened |
| Timer.JitterSpread | src/olsr_timer.c:359-368 | how much it is shortened: the random numbers are cut into equal stretches, one for each millisecond up to the percentage |
| Timer.JitterTime | src/olsr_timer.c:362 | the percentage stays below the delay and its product within 32 bits |
| Timer.IsPastMeans | src/olsr_clock.c:154-162 | the test is a comparison for times less than half the counter apart |
| Timer.Scheduler.StartTimer | src/olsr_timer.c:186-231 | one more running timer, in the slot of its expiry and in the count of its class, that waits for the delay less the jitter and has the delay as its period exactly if its class is periodic |
| Timer.Scheduler.StopTimer | src/olsr_timer.c:239-265 | that timer is gone from its list and from the count |
| Timer.Scheduler.ChangeTimer | src/olsr_timer.c:275-305 | that timer is in the slot of its new expiry and waits for the new delay less the jitter |
| Timer.Scheduler.SetTimer | src/olsr_timer.c:318-336 | after it a timer runs exactly if a delay was given, and waits for that less the jitter; others are untouched |
| Timer.Scheduler.FireTimer | src/olsr_timer.c:425-449 | the callback runs, then the timer is armed again if it is periodic and still running, else it is gone; either way it is not due |
| Timer.Scheduler.WalkSlot | src/olsr_timer.c:395-458 | a slot is walked to the end, whatever callbacks add to it, and holds nothing due afterwards |
| Timer.Scheduler.Walk | src/olsr_timer.c:374-478 | a run of the flat scheduler that fires only what is due and leaves nothing due, even if the scheduler slipped by more than the wheel; of the timers no callback stops or changes, exactly the due ones fire, once each, periodic ones run on and others are gone |
| Timer.WalkFair | src/olsr_timer.c:395-458 | this of any such run |
| Timer.ApplyOk | src/olsr_timer.c:186-305 | nothing a callback does makes a timer due |
| Timer.NothingDue | src/olsr_timer.c:385-467 | the slots walked are enough |
| Clock.InternalClock.Update | src/olsr_clock.c:77-110 | exactly one millisecond if the reading is before the last one or more than sixty in seconds after it; else the time between the readings to less than two milliseconds, forward and by at most 61 s |
| Clock.InternalClock.Run | src/olsr_clock.c:77-110 | over any readings the clock never runs backwards; between two readings without a jump in between it shows the time between them, however many there are |
| Clock.NoDrift | src/olsr_clock.c:77-110 | rounding does not add up over any number of readings without a jump |
| Clock.MillisMonotone | src/olsr_clock.c:109 | the division that rounds towards zero keeps the order of readings |
| Clock.TruncIs | src/olsr_clock.c:109 | the division rounds towards zero |
| Clock.BackIs | src/olsr_clock.c:94-104 | the shifted start makes the new reading exactly the wanted time |
| TimeCode.EncodeTime | src/olsr_clock.c:178-211 | the loop computes the code from the number of halvings |
| TimeCode.EncodeMeans | src/olsr_clock.c:178-211 | mantissa and exponent are those of the time, the mantissa fits four bits, short and long times are the end codes |
| TimeCode.EncodeDecode | src/olsr_clock.c:248-259 | encoding undoes decoding, for all 256 codes |
| TimeCode.Monotone | src/olsr_clock.c:178-259 | a longer time never comes back shorter |
| TimeCode.WithinFivePercent | src/olsr_clock.c:178-259 | times the code can hold come back within five percent |
| TimeCode.Idempotent | src/olsr_clock.c:178-259 | a time that came back once comes back unchanged |
| TimeCode.Saturates | src/olsr_clock.c:202-204 | longer times all get the top code |
| Mpr.BestLink | src/link_set.c:142-171 | a cheapest symmetric link to the neighbour, none exactly if there is no usable one |
| Mpr.Best | src/lq_mpr.c:187-197 | a cheapest eligible connector that is not chosen yet |
| Mpr.Neighborhood.Select | src/lq_mpr.c:177-211 | as many eligible connectors as the coverage asks for, or all, none left out cheaper than one chosen |
| Mpr.Neighborhood.CoverOne | src/lq_mpr.c:128-212 | the choice for one 2-hop neighbour against the cost of the direct link; none exactly for a symmetric neighbour without usable link |
| Mpr.Neighborhood.Calculate | src/lq_mpr.c:95-214 | the relays are the symmetric neighbours that are not always willing and those chosen for some 2-hop neighbour; every relay is symmetric |
| Mpr.PresetMeant | src/lq_mpr.c:114-128 | the test of the first pass is that of its comment for a neighbour exactly if that is not symmetric |
| Forward.HeaderBytes | src/parser.c:198-216 | which bytes of a header are which field, sizes and numbers with the high byte first |
| Forward.PutGet | src/olsr.c:153-171 | the bytes of a header that was read are those it was read from |
| Forward.WriteHeader | src/olsr.c:153-171 | the header's bytes at their place and all other bytes unchanged |
| Forward.EncodeAgain | src/olsr.c:153-171 | the validity time, decoded when read and encoded when written, keeps its code |
| Forward.ReadHeader | src/parser.c:198-216 | the fields of the bytes at a place |
| Forward.ForwardMessage | src/parser.c:434-487 | passed on exactly if we relay for the sender and the history does not refuse the number, which it then holds; exactly then TTL and hop count change, by one each and nothing else; sent exactly if a hop is left |
| Forward.ParsePacket | src/parser.c:227-327 | messages follow one another from the first byte after the packet header until none fits; exactly those that are not ours, of a valid originator, with a TTL and a possible hop count are handled, the others change neither bytes nor duplicate sets; which handled ones the handlers get and which are passed on and sent follows from the headers, the histories and whether we relay for the sender when that message comes; both duplicate sets hold exactly the handled ones, and nothing new of our own; only TTL and hop count of those passed on change; headers and changes are those of the packet unless a message is smaller than its header; the loop ends |
| Forward.AllSkipped | src/parser.c:295-311 | by the fields of the header, which messages are skipped, and that their bytes stay |
| Forward.OwnUnknown | src/parser.c:295-300 | neither duplicate set learns anything of our own messages |
| Forward.Conserved | src/parser.c:477-487 | over any number of sent copies TTL plus hop count and all other bytes stay the same |
| Forward.SentIsHop | src/parser.c:434-487 | what is sent of a message at any place in a packet is that message with TTL and hop count changed by one |
| Forward.Visited | src/parser.c:271-325 | what one node sends of a message somewhere in a packet, and exactly when: it is not its own, its originator is valid, two hops are left and the hop count is possible, it relays for the sender, and the number is not refused; having sent it, its duplicate set learns nothing more of it, or once more if it had not heard of the originator |
| Forward.Journey | src/parser.c:271-487 | a message through any number of nodes, the same ones any number of times: every copy sent is the first with TTL counted down and hop count up, no more copies than the first TTL, ending at the first node that does not send it on; what every duplicate set knew at every visit, from what it knew in the beginning; the originator never sends it on; a node sends it twice only if it had not heard of the originator before, and never three times |
| Forward.Again | src/duplicate_set.c:146-236 | a duplicate set that was told of a message at one visit and still learns something of it at a later one was not told in between |
| Hello.WriteBlock | src/link_set.c:779-806 | the block of one link code: its links in order, and the length filled in afterwards |
| Hello.ShownAs | src/link_set.c:108-126 | a link is shown as symmetric while its timer runs, then as asymmetric until that time is past, then as lost; its neighbour as a relay, as symmetric, or as neither |
| Hello.BlockBytes | src/link_set.c:787-806 | the bytes of a block: the code of both types, a zero, the length with the high byte first, then address and link quality of each link |
| Hello.Write | src/link_set.c:757-807 | the blocks of all twelve codes |
| Hello.Read | src/process_package.c:161-203 | the entries of all blocks that begin in the message, newest first, without those of lost interfaces, also of a block that runs on into the rest of the buffer |
| Hello.ItemsOf | src/process_package.c:183-200 | the entries of a block come back with address, link quality and both types, but for those of lost interfaces, for links whose quality the codec brings back |
| Hello.NothingLost | src/link_set.c:777-807 | grouping by code keeps every link exactly once |
| Hello.RoundTrip | src/process_package.c:161-203 | reading what was written gives every link exactly once, with its address, types and link quality, but for those of lost interfaces, whatever follows in the buffer |
| Hello.TwoBytesReadable | lib/lq_etx_ff/src/lq_plugin_etx_ff.c:379-408 | the codec of this plugin brings back every quality, so the round trip holds for any list of up to 1000 links |

## Left out

- Sockets, the main loop, interface setup, kernel route code, signal handling, plugins, configuration, logging, the HTTP and telnet servers: input, output and plumbing.
- Rib.Table.UpdateKernel: the operating system never refuses a route, so `failure_count`, its retries and interface locks are not modelled.
- Lsdb.Database.AddEdge: link costs and link-quality data of edges are not part of the database model; the graph takes the costs as given.
- Lsdb.Database.Run: what happens after an access outside the database; the run ends there.
- Lsdb.Database.InputTc: addresses refused by the address check are not modelled, since the reader then does not skip their link-quality bytes; of the timers it sets, the outcome says which.
- Lsdb.Database.Step: a change of our own main address, MID aliases and the removal of all entries at shutdown are not among the events; the removal of orphan virtual nodes by timer is dead code.
- Fragments.Deliver: an empty message leaves the older edges to the collection timer, which is `Lsdb.Database.DeleteOutdated`; nothing is said about edges after that. The database has no edge of a router to itself.
- Border.CalculateFlag: for addresses of up to 31 bytes, beyond which the flag would not fit one byte.
- Routing.CalculateFrom: which of several paths with equal cost, hops and kind is chosen, since that rests on the order of the path tree, which is a parameter.
- Spf.Computation.RunFull: the candidate tree is the sorted list its AVL index threads, with equal costs in insertion order; the backoff timer that may skip a recomputation is not modelled.
- Timer.Scheduler.Walk: 32-bit wrap of the clock, during which the source's comparison of last run and now does not hold.
- Clock.InternalClock.Update: a failing wall clock, and wrap of the counter.
- Duplicates.DuplicateSet.IsDuplicate: the expiry timer of entries.
- Forward.ForwardMessage: the output buffers and the choice of interfaces; whether the sender is a symmetric neighbour that chose us is a parameter.
- Forward.ParsePacket: what the message handlers do; the address check is a parameter, and so is, for each message, whether we relay for the sender when it comes.
- Hello.Read: what the source reads past the receive buffer; the read ends there.
- Hello.Write: the message header, interval and willingness, and the fixed size of the output buffer, which the source does not check.
- Mpr.Neighborhood.Calculate: change detection and the copy of the result to the link set.
- Ageing and hysteresis of links, which decide when a link counts as symmetric; the HNA and MID databases, which keep announced networks and interface aliases until they time out; the text formats of addresses.
