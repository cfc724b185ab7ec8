# GraphSlick, verified

GraphSlick is a plugin for IDA that groups the basic blocks of a function and finds
repeated (inlined) subgraphs in it. This project is a Dafny model of its algorithms,
with proofs of what they keep and of what they compute.

Five parts are modelled.

1. **Prime fingerprints** (`NumberTheory`, `PrimeSieve`, `Fingerprint`, `Linking`). The
   incremental sieve is a class whose `Next` runs it to the next yield; the invariant says
   under which key of the dictionary each prime stands. The table of primes, the products
   that stand for instructions and blocks, and the frequency table are built on it; unique
   factorisation makes them faithful. `Linking` is the loop that links blocks.
2. **The group manager** (`Shelves`, `GroupStore`, `GroupMan`, `Algo`, `EditRuns`). Super
   groups, node groups and the manager are classes. The structure is mirrored by a ghost
   value, a `Store` of two shelves, on which the effect of each step is a function; `live`
   flags say that nothing deleted is used. `Tidy` is the structural invariant, `Exact` says
   that the index is the inverse of the structure, and predicates such as `Midway`,
   `Gathering`, `Splitting` and `Promoting` say what the stale index still tells inside a
   loop. `EditRuns.Run` is safety over every list of edits.
3. **The combined graph** (`FlowCharts`, `CombinedGraph`, `Quotient`): the builder, the
   exact quotient, reachability, and how merging groups coarsens the graph.
4. **The subgraph matcher** (`MatchGraph`, `Lockstep`, `Choices`, `GreedySearch`,
   `Searching`, `Pruning`, `PathTables`, `Selection`, `Similar`, `Outcomes`, `SideEntries`,
   `Matcher`, `MatcherExamples`, `LinkedGraph`): what paths in step are, which partner a
   block gets, the search as a function and as it is run, pruning, the tables, the selection
   and `FindSimilar`.
5. **The bbgroup text** (`Numerals`, `TextScan`, `BBGroupText`, `BBGroupFile`, `RoundTrip`,
   `LooseText`, `Loading`) and **the colour generator** (`ColorGen`). `LooseText` is about
   files that this program did not write: other letters, white space, fields and lines.

`dafny verify dfyconfig.toml` checks everything. Many proofs begin with a `hide` statement:
it keeps definitions that the step does not need away from the solver.

Conventions. The order in which a `std::map` keyed by pointers or a Python dictionary is
walked is an arbitrary pick. SHA-1 is an injective function into an arbitrary type, and
node hashes are strings of 40 characters. The decoder, the flowchart and the frequency
comparison are parameters.

Where the code and what one would expect of it differ, the code was followed.

- `move_nodes_to_own_ng` in single mode returns at an unknown node without rebuilding the
  index (plugin.cpp:1476-1480). `GroupMan.GroupManager.SplitNodes` says exactly when the
  index is still exact then, and `EditRuns.StaleAfterSplit` is an example where it is not.
- `sanitize_groupman` does not register the orphans it adds (algo.cpp:180-189), so a later
  reset loses them: `Algo.ResetAfter3dvec`, `Algo.OrphanLost`.
- `findMatchInSuccs` returns a variable that is unbound when there is no successor
  (bbgroup/bb_match.py:134-142). In the model the search then ends as `raised`, and so does
  the whole of `FindSubGraphs`. `GreedySearch` gives the search as a function of the graph,
  and `Fails` says of two blocks that it gets stuck: `FindSubGraphs` raises if and only if
  it does so for some two blocks of one hash, as for those of `MatcherExamples.FailingRun`.
  It never does on a graph whose agreeing blocks have successors together (`TwinsGoOn`).
- The pruned table is meant for paths that are entered at their heads only
  (bbgroup/bb_match.py:38-39), but only the first path of a pair is pruned for that.
  `SideEntries.EnteredIff` says when all stored paths are such: exactly when the graph meets
  `SecondsEntered`. It does if no block that agrees with another one has two different
  predecessors (`SideEntries.OneEntryEnters`); `MatcherExamples.SideEntryStored` is a graph
  that does not, and the selection keeps such paths as well (`Selection.KeptIff`).
- `tmp_visited2Backup` is the same set as `tmp_visited2` (bbgroup/bb_match.py:176-187), so
  restoring it restores nothing.
- In the pruning loop the node removed is always the last of the path
  (bbgroup/bb_match.py:117-126); the result is still the longest single-entry prefix.
- The second digest of a pair continues the first (bbgroup/bb_match.py:207, 234).
- `parse_nodeset` scans its first item from the start of the group and not from its first
  token (groupman.cpp:355-361), so leading commas stay in front of it.
- Parsing registers the nodes of both sections in `all_nodes` (groupman.cpp:374-375), while
  the index and the path only have those of the first. A reset after it brings the nodes of
  the second section into the path, which changes the ids exactly when that section has ids
  of its own: `Loading.ResetAfterParse`, `Loading.SecondSectionSpills`.
- The printed text loses wholly empty super groups, leading spaces and anything after a
  semicolon or a line end in an id or a name; `RoundTrip.RoundTripIff` is exact about it.
- Fingerprints are faithful within the layout of the table only. What they are faithful to
  in general is the places that are read: `Fingerprint.CharacteristicExact`,
  `BlockProductExact`, `FrequencyExact`. Itypes in the operand area collide
  (`Fingerprint.ItypesCollide`); the source only expects the table to be large enough for
  most processors (bbgroup/bb_ida.py:426-427). Operand types above `o_last` collide too
  (`Fingerprint.OperandTypesCollide`), but a decoder that keeps to the SDK, where `o_last` is
  the end of the types, does not produce them.
- Hues are taken modulo 360 degrees only once, so that very large ones give black, which
  the generator takes for exhaustion; `ColorGen.HueLimitExact` has the exact bound, and for
  the generator of `ColorGen.DarkAttempts` the loop of `get_color_anyway` never ends.

## Model

| member | source | states |
|---|---|---|
| `PrimeSieve.PrimeGenerator.Next` | bbgroup/bb_utils.py:69-93 | every resumption terminates, and what has been yielded so far is the list of the smallest primes in ascending order, one longer than before |
| `PrimeSieve.PrimeGenerator.FilePrime` | bbgroup/bb_utils.py:80-93 | after a yield, filing q under q*q keeps the dictionary invariant and loses no entry |
| `PrimeSieve.PrimeGenerator.SkipComposite` | bbgroup/bb_utils.py:82-93 | a key met by q is composite; its witnesses move on and the invariant holds at q+1 |
| `PrimeSieve.PrimeGenerator.Yield` | bbgroup/bb_utils.py:75-80 | a number that is not a key is the next prime |
| `PrimeSieve.PrimeGenerator.constructor` | bbgroup/bb_utils.py:69-72 | the empty dictionary at q = 2 satisfies the invariant |
| `PrimeSieve.MoveWitnesses` | bbgroup/bb_utils.py:83-91 | moving the witnesses of a composite files every prime below q+1 once, under its least multiple not below q+1 and its own square |
| `PrimeSieve.FilesAfterPrime` | bbgroup/bb_utils.py:80-81 | q*q is never a key when the prime q is reached, so D[q*q] = [q] overwrites nothing |
| `PrimeSieve.KeyIffComposite` | bbgroup/bb_utils.py:74-83 | q is a key exactly when q is composite |
| `PrimeSieve.SlotIsLeastMultiple` | bbgroup/bb_utils.py:69-93 | the key a prime p stands under is the least multiple of p that is neither below q nor below p*p |
| `PrimeSieve.SlotBelowSquare` | bbgroup/bb_utils.py:80-81 | every key of a prime below q is below q*q, and equals q only if q is composite |
| `PrimeSieve.CachedPrimes` | bbgroup/bb_utils.py:107-114 | on a cache miss the table is built in finitely many steps and holds the first max(count, 1) primes |
| `PrimeSieve.FirstPrimesUnique` | bbgroup/bb_utils.py:107-114 | there is only one ascending list of the N smallest primes, so the table is determined by its length |
| `NumberTheory.PrimesUnbounded` | bbgroup/bb_utils.py:109-114 | there is a prime above every number; without it the loop over the generator need not end |
| `NumberTheory.EuclidsLemma` | bbgroup/bb_ida.py:71-88 | a prime dividing a product divides a factor |
| `NumberTheory.UniqueFactorization` | bbgroup/bb_ida.py:110-128 | two lists of primes with one product are equal as multisets |
| `NumberTheory.ProductOfMultiset` | bbgroup/bb_ida.py:110-128 | a product does not depend on the order of its factors |
| `Fingerprint.PrecomputePrimes` | bbgroup/bb_ida.py:430-437 | the precomputed table is the first 8117 primes |
| `Fingerprint.LayoutInjective` | bbgroup/bb_ida.py:430-437 | no two features (an itype, or an operand place and type) of the layout share a place of the table |
| `Fingerprint.OperandPlaces` | bbgroup/bb_ida.py:79-86 | the operand primes follow each other from place 8028 of the table, type by type and operand by operand; an itype has the place of its number |
| `Fingerprint.EncodeExact` | bbgroup/bb_ida.py:71-88 | products of table primes are equal exactly when the places read agree as multisets |
| `Fingerprint.EncodeFaithful` | bbgroup/bb_ida.py:71-88 | within the layout, exactly when the encoded features agree as multisets |
| `Fingerprint.UsedIsVoidFreePrefix` | bbgroup/bb_ida.py:81-83 | the operands read are the longest prefix without a void operand |
| `Fingerprint.OperandProduct` | bbgroup/bb_ida.py:79-86 | the loop multiplies the primes of the operands before the first void one |
| `Fingerprint.GetCmdPrimeCharacteristics` | bbgroup/bb_ida.py:71-88 | the result is the product of the primes at the places of the itype and of the used operands, for all places inside the table |
| `Fingerprint.CharacteristicIs` | bbgroup/bb_ida.py:71-88 | the characteristic is the prime at place itype times the primes at the places 8027 + 14 * n + type of the used operands |
| `Fingerprint.CharacteristicExact` | bbgroup/bb_ida.py:71-88 | two instructions have one characteristic exactly when they read the same places of the table, up to order |
| `Fingerprint.ItypesCollide` | bbgroup/bb_ida.py:77-86 | two instructions with itypes in the operand area of the table that differ and have one characteristic |
| `Fingerprint.OperandTypesCollide` | bbgroup/bb_ida.py:81-86 | two instructions with operand types above o_last that differ and have one characteristic |
| `Fingerprint.CharacteristicFaithful` | bbgroup/bb_ida.py:71-88 | within the layout, two instructions have one characteristic exactly when they have the same itype and the same operand types up to the first void one |
| `Fingerprint.HashItype2Product` | bbgroup/bb_ida.py:110-128 | the number that is hashed is the product over the instructions decoded from the block |
| `Fingerprint.DecodedMeans` | bbgroup/bb_ida.py:110-128 | each decoded instruction starts where the one before it ends, inside the block; decoding stops at the end of the block or where nothing decodes |
| `Fingerprint.BlockProductExact` | bbgroup/bb_ida.py:110-128 | two blocks have one product exactly when they read the same places of the table, up to order |
| `Fingerprint.BlockProductFaithful` | bbgroup/bb_ida.py:110-128 | within the layout, two blocks have one product exactly when their itypes agree as multisets and their used operands do |
| `Fingerprint.BlockProductOrderFree` | bbgroup/bb_ida.py:110-128 | the product does not depend on instruction order, for any table of the right length |
| `Fingerprint.GetBlockFrequency` | bbgroup/bb_ida.py:132-169 | the count is the number of decoded instructions and the table is the tally of their characteristics |
| `Fingerprint.TallyCounts` | bbgroup/bb_ida.py:148-157 | the tally holds exactly the values that occur, each with its number of occurrences |
| `Fingerprint.FrequencyExact` | bbgroup/bb_ida.py:132-169 | the entry of a characteristic counts the instructions that read the same places |
| `Fingerprint.FrequencyCountsAlike` | bbgroup/bb_ida.py:132-169 | within the layout, it counts those with the same itype and used operands |
| `Linking.BBDef.AddSucc` | bbgroup/bb_types.py:62-69 | both blocks learn of the link, also when they are one block |
| `Linking.BBDef.AddPred` | bbgroup/bb_types.py:72-80 | both blocks learn of the link, also when they are one block |
| `Linking.BBMan.Obtain` | bbgroup/bb_ida.py:343-371 | a block is made once per id and stays the one filed under it |
| `Linking.BBMan.AddBlock` | bbgroup/bb_ida.py:342-392 | the links of one flowchart block, first its successors and then its predecessors, are added in order and no others |
| `Linking.BBMan.FromFlowchart` | bbgroup/bb_ida.py:340-392 | exactly the blocks of the flowchart are filed, with their addresses; the links are those that the successor and predecessor lists ask for, made in the order of the walk, and each block lists its own in that order |
| `Linking.BBMan.Mirrored` | bbgroup/bb_types.py:62-80 | v stands in the successors of u as often as u stands in the predecessors of v |
| `Linking.LinkCount` | bbgroup/bb_ida.py:340-392 | the multiplicity of a link is the number of times u lists v as successor plus the number of times v lists u as predecessor |
| `Linking.AskedInTurn` | bbgroup/bb_ida.py:340-392 | the successors of a block are what the blocks ask for in turn: the block itself its own list, every other block itself as often as it names this one as predecessor; its predecessors likewise |
| `LinkedGraph.LinkedMirrored` | bbgroup/bb_types.py:62-80 | the graph of linked blocks has mirrored edges, and its neighbours are blocks of it |
| `LinkedGraph.GraphFromFlowchart` | bbgroup/bb_ida.py:340-392 | the graph of a flowchart, fit for the matcher, has an edge exactly where a block lists a successor or the other a predecessor, and its lists are in the order in which the blocks ask for them |
| `GroupStore.ConsistencyMeans` | groupman.cpp:382-412 | nothing is empty, and a node id stands at a place exactly when the index names that place; so no id stands twice |
| `GroupMan.GroupManager.InitializeLookups` | groupman.cpp:382-412 | the index becomes the one built by a walk over the path |
| `GroupMan.GroupManager.IndexSupergroup` | groupman.cpp:393-411 | the walk over the groups of one super group |
| `GroupMan.GroupManager.IndexNodegroup` | groupman.cpp:399-410 | the walk over the nodes of one group |
| `GroupStore.IndexPathAt` | groupman.cpp:382-412 | for any structure, tidy or not, the rebuilt index has every node id and points to a place where it stands |
| `GroupStore.IndexPathLast` | groupman.cpp:382-412 | for any structure, the rebuilt index has an id exactly if it stands somewhere, and then the last place in the walk: the last node of the last such group of the last such super group |
| `GroupStore.RebuiltIsExact` | groupman.cpp:382-412 | when node ids are unique the rebuilt index is the exact inverse of the structure |
| `GroupMan.FindBiggest` | groupman.cpp:88-103 | the first of the largest groups, none for an empty list |
| `GroupStore.StaleReadIsCurrent` | groupman.cpp:446-486 | inside combine_ngl the index of the entry still names the current group and super group of every node not yet moved |
| `GroupStore.MergeKeeps` | groupman.cpp:463-486 | one round keeps the structure tidy and the index of the entry right after redirecting the merged group |
| `GroupStore.MidwayStep` | groupman.cpp:446-486 | the loop invariant of combine_ngl: only the moved groups are gone, so the destination and its super group stay |
| `GroupMan.GroupManager.MergeInto` | groupman.cpp:463-486 | the nodes go to the end of the destination, the group leaves its super group, an emptied super group leaves the path |
| `GroupStore.DropGroupOrder` | groupman.cpp:477-486 | the super groups on the path and the groups in a super group that stay keep their order |
| `GroupMan.GroupManager.CombineRound` | groupman.cpp:446-486 | no removed group is read: a group met again is empty and skipped |
| `GroupStore.MergeLists` | groupman.cpp:463-475 | a round appends the nodes of one group to the destination and leaves every other list alone |
| `GroupStore.MergedNext` | groupman.cpp:446-486 | after each round the destination holds its own nodes and then those of the groups met so far, in the order of the list, each once |
| `GroupMan.GroupManager.MergeGroups` | groupman.cpp:446-487 | the loop: what is merged, in which order, and what the stale index still tells |
| `GroupMan.GroupManager.MergeAll` | groupman.cpp:446-489 | after the loop and the rebuild the index is exact and sends the nodes of all the other groups to the destination |
| `GroupMan.GroupManager.CombineNgl` | groupman.cpp:438-492 | the first of the largest groups of the list absorbs all the others: its nodes come first, then those of the other groups in the order of the list; nothing else moves, the super groups that stay keep their order, the manager is consistent |
| `GroupStore.GatheringRead` | groupman.cpp:509-536 | inside move_nodes_to_ng the index of the entry still tells where a node not yet moved stands |
| `GroupStore.MoveNodeKeeps` | groupman.cpp:521-536 | moving a node keeps the structure tidy and never removes the destination or its super group |
| `GroupStore.GatheringStep` | groupman.cpp:509-536 | the loop invariant of move_nodes_to_ng |
| `GroupStore.TakeOutOrder` | groupman.cpp:521-531 | taking a node out keeps the order of super groups, groups and nodes that stay |
| `GroupStore.MoveLists` | groupman.cpp:521-536 | one round appends the node to the destination |
| `GroupMan.GroupManager.TakeNodeOut` | groupman.cpp:521-531 | a node leaves its group; the group goes when empty, and the super group when that is empty |
| `GroupMan.GroupManager.GatherFirst` | groupman.cpp:513-519 | the new group is made in the super group of the first node |
| `GroupMan.GroupManager.GatherOne` | groupman.cpp:509-536 | the stale location is the present one and only live objects are touched |
| `GroupMan.GroupManager.GatherNodes` | groupman.cpp:495-541 | the given nodes and no others end up, in the order given, in one new group of the first node's super group |
| `GroupMan.GroupManager.MoveNodesToNg` | groupman.cpp:495-541 | the same, with no group made for an empty list; the super groups that stay keep their order |
| `GroupMan.GroupManager.Clear` | groupman.cpp:259-264 | both lists of super groups and the registered nodes are emptied, the index is left as it was |
| `GroupMan.GroupManager.ResetGroupping` | groupman.cpp:725-767 | every registered node gets its own group and super group, by ascending ids and named after it, the index is exact; the nodes of a consistent structure stay the same exactly when the registered nodes are those that the index had |
| `GroupMan.GroupManager.Repopulate` | groupman.cpp:745-763 | the second loop: one named super group per registered node, by ascending ids |
| `GroupMan.StructureNodes` | groupman.cpp:752-763 | the nodes of a structure are the registered ones exactly when its index says so |
| `GroupMan.SuperGroup.CopyAttrFrom` | groupman.cpp:238-246 | id and name are marked as a numbered copy and both super groups stop being synthetic |
| `Algo.ResetAfter3dvec` | groupman.cpp:725-767 | after building from a vector, a reset keeps exactly the nodes that the vector names |
| `Algo.OrphanLost` | groupman.cpp:752-763 | a concrete block that sanitising placed and a reset loses |
| `EditRuns.DoCombine` | plugin.cpp:1322-1339 | the nodes of all selected groups end up in one group, the others stay where they were, and the manager is consistent |
| `EditRuns.DoGather` | plugin.cpp:1340-1358 | the known nodes of a selection end up in one group, the others stay where they were |
| `EditRuns.Apply` | plugin.cpp:1319-1541 | every edit has its purpose (together, alone, or the only group of its super group), keeps the order of the super groups that stay, leaves the manager consistent and the registered nodes equal to the placed ones |
| `EditRuns.Run` | plugin.cpp:1319-1541 | after any list of edits on a freshly built manager each block stands, with its own addresses, in exactly one group, no group or super group is empty, and the index is the exact inverse; between any two moments of the run lies the effect of the edit that stands there in the list |
| `GroupStore.SplitKeeps` | plugin.cpp:1485-1489 | splitting a node off a group of several keeps the structure tidy; the old index needs one new entry |
| `GroupStore.SplitOrder` | plugin.cpp:1485-1489 | the group split off is the last of its super group and holds the node alone; the order of everything else stays |
| `GroupStore.SplittingRead` | plugin.cpp:1474-1486 | while nodes are split off, the index of the entry still tells where the others stand |
| `GroupStore.SplittingStale` | plugin.cpp:1476-1480 | after the early return the index is exact if and only if nothing had been split off |
| `EditRuns.StaleAfterSplit` | plugin.cpp:1467-1489 | a manager, and a selection with an unknown node, whose index is wrong after the early return |
| `GroupMan.GroupManager.SplitRound` | plugin.cpp:1474-1493 | one selected node ends up alone in its group |
| `GroupMan.GroupManager.SplitNodes` | plugin.cpp:1467-1534 | when all nodes are known each ends up alone in a group of its super group and nothing else moves; otherwise the index is left stale, and it is exact exactly when every node handled before was already alone |
| `GroupMan.GroupManager.SplitKnown` | plugin.cpp:1471-1493 | the loop stops at the first unknown node, and has split nothing off exactly when all nodes before it were alone |
| `GroupMan.GroupManager.SplitGroup` | plugin.cpp:1503-1529 | one selected group is taken apart from the back until one node is left |
| `GroupMan.GroupManager.SplitGroups` | plugin.cpp:1495-1534 | every node of a selected group ends up alone in its original super group, whatever the order and the repetitions |
| `GroupStore.PromoteKeeps` | plugin.cpp:1431-1437 | giving a group its own super group keeps the structure tidy |
| `GroupStore.PromoteOrder` | plugin.cpp:1431-1437 | the new super group stands at the end of the path and holds the group alone; the groups it leaves keep their order |
| `GroupStore.PromotingStep` | plugin.cpp:1418-1441 | the hosts recorded for the groups still to come stay right |
| `GroupMan.GroupManager.PromoteOne` | plugin.cpp:1431-1437 | a group leaves its super group for a new one at the end of the path, named as a copy |
| `GroupMan.GroupManager.PromoteRound` | plugin.cpp:1420-1441 | one group ends up the only one of its super group, and those done before stay so |
| `GroupMan.GroupManager.PromoteFound` | plugin.cpp:1417-1444 | every selected group is the only group of its super group, in any order; groups and nodes stay as they were |
| `GroupMan.GroupManager.CollectGroups` | plugin.cpp:1387-1414 | the groups of the known selected nodes with their hosts |
| `GroupMan.GroupManager.PromoteNodes` | plugin.cpp:1381-1444 | the same, from a selection of nodes; new super groups come after the old ones |
| `GroupMan.GroupManager.PopulateFromFc` | algo.cpp:51-82 | one super group, group and node per block, in the order of the blocks and numbered in its names, all registered |
| `Algo.BuildGroupmanFromFc` | algo.cpp:51-89 | a structure of singletons, the super group of block n at place n and named after it, every node with the number and the addresses of its block; with sanitising the index is exact over all blocks, without it the index is not touched |
| `Algo.MapPlaces` | algo.cpp:73-80 | an index over the nodes of the blocks gives for every block its number, start and end |
| `Algo.SanitizeSingles` | algo.cpp:86-88 | with every block registered, sanitising adds nothing |
| `Algo.SanitizeGroupman` | algo.cpp:152-211 | the blocks that are not registered are added, each in its own group, in one synthetic super group named `orphan_nodes`; nothing changes when there are none |
| `Algo.CollectOrphans` | algo.cpp:173-190 | the loop puts every missing block into a group of its own |
| `Algo.OrphanAt` | algo.cpp:181-185 | every orphan is a missing block with its number, start and end, alone in its group |
| `Algo.OrphansAscend` | algo.cpp:173-190 | orphans come in ascending order, none twice |
| `Algo.OrphansComplete` | algo.cpp:173-190 | and none is missing |
| `Algo.OrphanIn` | algo.cpp:173-190 | every block that is not registered is among the orphans |
| `Algo.BuildGroupmanFrom3dvec` | algo.cpp:92-149 | the structure shows the vector list by list, numbered in the names of its super groups, and the orphans after it; exactly the named nodes are registered; the rebuilt index has every block, and every node has the number and the addresses of its block |
| `Algo.VectorOfBlocks` | algo.cpp:130-140 | every node shown after building has the number, start and end of its block |
| `Algo.IndexedOfBlocks` | algo.cpp:92-149 | so has every node that the index gives |
| `Algo.AllIndexed` | algo.cpp:92-149 | a block is named by the vector or an orphan, and either way it is found |
| `CombinedGraph.Builder.GetGroupid` | algo.hpp:57-127 | a group gets the next number on first sight and keeps it; -1 exactly for an unknown node |
| `CombinedGraph.Builder.AddSuccessor` | algo.hpp:170-188 | an edge between the two numbers is added exactly when they differ |
| `CombinedGraph.Builder.BuildBlock` | algo.hpp:163-189 | one block succeeds exactly when it and its successors have groups |
| `CombinedGraph.Builder.Build` | algo.hpp:132-192 | it succeeds exactly when every node looked up has a group; numbers follow first encounter, edges are those between different groups, and the graph is resized to the number of groups on the path |
| `CombinedGraph.CountGroups` | algo.hpp:146-158 | the counting loop over the super groups |
| `CombinedGraph.TotalIsPlaces` | algo.hpp:146-158 | the count is the number of places (super group, group) of the path |
| `CombinedGraph.TotalIsGroups` | algo.hpp:146-158 | on a tidy structure the graph has exactly as many nodes as there are groups |
| `CombinedGraph.GroupEdgesIff` | algo.hpp:163-190 | a pair of groups is an edge exactly when they differ and a flowchart edge goes from one to the other |
| `CombinedGraph.NumbersFit` | algo.hpp:146-192 | every number given out and every end of an edge is below the size of the graph |
| `Quotient.EdgeIffCrosses` | algo.hpp:132-192 | (a, b) is an edge if and only if a != b and some flowchart edge leads from group a to group b |
| `Quotient.WalkProjects` | algo.hpp:132-192 | a walk in the flowchart gives a walk between the groups of its ends |
| `Quotient.GroupEdgesCoarsen` | algo.hpp:163-190 | merging groups maps the edges and drops those that became loops |
| `Quotient.QuotientCoarsens` | algo.hpp:132-192 | two combined graphs of one flowchart, one coarser: the coarser is the relabelled image of the other |
| `Quotient.FcToCombinedMg` | algo.hpp:132-192 | the graph built from empty maps is the quotient, with a node for every place on the path, which on a tidy manager means one for every group; or the build fails because a node has no group |
| `Quotient.GraphFrom3dvec` | algo.cpp:92-211 | from any vector of in-range ids the graph is built: every block is placed, numbers are an initial segment, ends are in range |
| `Quotient.ConsistentGraph` | algo.hpp:132-192 | on a consistent manager over all blocks the build succeeds, with a node for every group; when it places blocks only, every node has a number |
| `Quotient.AllGroupsNumbered` | algo.hpp:132-192 | on a structure that places the blocks of the flowchart only, the numbers given out are as many as the groups |
| `Quotient.CombineCoarsensGraph` | groupman.cpp:438-492 | the combined graph after combine_ngl is the image of the one before under merging the chosen groups into the biggest of them |
| `MatchGraph.ComparePair` | bbgroup/bb_match.py:98-105 | one comparison of the double loop keeps every list a correct prefix |
| `MatchGraph.HashBBMatch` | bbgroup/bb_match.py:94-105 | each hash carried by two nodes or more has the list of all its nodes in ascending order; no other hash has one |
| `Searching.Searcher.Match` | bbgroup/bb_match.py:64-92 | a match means that the two nodes agree under the given hash; a frequency match records the common hash |
| `Searching.Searcher.FindMatchInSuccs` | bbgroup/bb_match.py:132-142 | the first eligible successor that agrees is returned, and none only if no eligible one agrees; without successors the result is unbound |
| `Searching.Searcher.FindPartner` | bbgroup/bb_match.py:176-191 | the three hashes are tried in order, itype1 first; it fails exactly when there is no successor |
| `Searching.Searcher.TrySuccessor` | bbgroup/bb_match.py:173-195 | paths stay in step; a successor left off has no partner among the nodes first reached here, and one that is added gets the best partner there is; it fails exactly when a successor not met before has nothing to be tried with |
| `Searching.Searcher.ExpandPair` | bbgroup/bb_match.py:170-197 | all successors of a pair have been tried; it fails exactly when the pair is stuck |
| `Searching.Searcher.SearchPair` | bbgroup/bb_match.py:154-198 | the search ends with paths of equal length, without repeats, every later pair accepted by match and linked to one earlier pair on both sides; it fails exactly when the paths have come to a dead end, which the graph determines, and is exhaustive otherwise; each block is paired with the first successor that fits under the strongest hash, and remembered under that hash |
| `Searching.Searcher.TrySuccs` | bbgroup/bb_match.py:133-142 | the loop over the successors finds the first match and collects what was tried |
| `GreedySearch.ScanMeans` | bbgroup/bb_match.py:132-142 | what the scan finds is eligible and agrees; it finds nothing only if nothing eligible agrees |
| `GreedySearch.PartnerMeans` | bbgroup/bb_match.py:176-191 | no partner means that no eligible successor agrees under any of the hashes |
| `GreedySearch.PartnerIsBest` | bbgroup/bb_match.py:176-195 | the partner is the first eligible successor that agrees under itype1, if there is one; else the first under itype2; else under the frequency hash; and the block is remembered under that hash |
| `GreedySearch.ScanFirst` | bbgroup/bb_match.py:132-142 | the scan stops at the first successor in the list that is eligible and agrees |
| `GreedySearch.HeadStays` | bbgroup/bb_match.py:166 | the head is remembered under its itype2 hash throughout |
| `Choices.TagsInOrder` | bbgroup/bb_match.py:176-191 | wherever paired blocks have one itype1 hash, that is the one remembered |
| `Choices.ChoosingTake` | bbgroup/bb_match.py:189-195 | taking a best partner keeps the record of all choices made |
| `Choices.SettledMore` | bbgroup/bb_match.py:169-197 | a choice once made is not undone by longer paths |
| `GreedySearch.EndsUnique` | bbgroup/bb_match.py:154-198 | the graph determines the outcome of a search |
| `GreedySearch.NeverStuck` | bbgroup/bb_match.py:169-197 | a search that runs to the end without getting stuck does not fail |
| `GreedySearch.TwinsNoDeadEnd` | bbgroup/bb_match.py:154-198 | on a graph whose agreeing blocks have successors together, no search comes to a dead end |
| `Lockstep.NoDeadEnd` | bbgroup/bb_match.py:154-198 | exhausted paths have no dead end |
| `Lockstep.InStepMore` | bbgroup/bb_match.py:190-195 | adding an accepted pair keeps the paths in step |
| `Lockstep.ExhaustedMore` | bbgroup/bb_match.py:169-197 | longer paths stay exhausted where they were |
| `Lockstep.TriedInVain` | bbgroup/bb_match.py:132-142 | a node tried in vain agrees with no node first reached at the same place and left off the second path |
| `Pruning.HasForeignEntry` | bbgroup/bb_match.py:116-121 | the inner loops find out whether some node but the head has a predecessor outside |
| `Pruning.MakeSubgraphSingleEntryPoint` | bbgroup/bb_match.py:107-130 | the longest prefix in which every node but the head has all its predecessors inside, with the same prefix of the other path |
| `Pruning.SingleEntryMeans` | bbgroup/bb_match.py:107-130 | on mirrored links, single-entry means that no edge from outside ends below the head |
| `PathTables.JoinInjective` | bbgroup/bb_match.py:203-208 | joined node hashes of one width determine the list of hashes |
| `PathTables.JoinAt` | bbgroup/bb_match.py:203-208 | in the joined text the hash of each block stands at its place |
| `PathTables.DigestTexts` | bbgroup/bb_match.py:203-236 | the text digested for a full pair is the remembered hashes of its blocks in order; for a pruned pair it goes on with those of the prefix |
| `PathTables.FullDigestIff` | bbgroup/bb_match.py:203-208 | two full paths are stored under one digest exactly when the remembered hashes of their blocks agree in order |
| `PathTables.CutDigestIff` | bbgroup/bb_match.py:229-236 | two pruned paths are, exactly when the hashes of the full path followed by those of the prefix agree |
| `PathTables.StoreRows` | bbgroup/bb_match.py:209-227 | each path is appended to its bucket unless it was there |
| `PathTables.StoredMeans` | bbgroup/bb_match.py:209-227 | what was in the bucket stays in front, the first path comes before the second, each is there once more at most, and no other bucket changes |
| `PathTables.StoreFull` | bbgroup/bb_match.py:203-227 | a full bucket keeps paths of one length, without repeats, each found in step with another one of the bucket |
| `PathTables.StoreEntry` | bbgroup/bb_match.py:229-254 | the first path of every pruned bucket stays single-entry |
| `PathTables.BucketAgrees` | bbgroup/bb_match.py:203-227 | at every place below the head a path of a full bucket agrees with its twin under the hash of that place |
| `Matcher.BBMatcher.constructor` | bbgroup/bb_match.py:94-105 | a fresh matcher has empty tables and complete node lists |
| `Matcher.BBMatcher.StoreFullPaths` | bbgroup/bb_match.py:203-227 | a pair of more than one node is stored under the digest of its hashes |
| `Matcher.BBMatcher.StoreCutPaths` | bbgroup/bb_match.py:229-254 | the pruned pair is stored under the digest that continues that of the full pair |
| `Matcher.BBMatcher.ProcessPair` | bbgroup/bb_match.py:154-254 | search, prune, store: the new tables as a function of the old ones and of the outcome; it fails exactly when the search does, and then stores nothing |
| `Matcher.BBMatcher.ProcessHash` | bbgroup/bb_match.py:152-254 | it fails exactly when the search from some two nodes of the list gets stuck; otherwise every pair is processed and nothing stored is lost |
| `Matcher.BBMatcher.FindSubGraphs` | bbgroup/bb_match.py:145-254 | it fails exactly when the search from some two nodes of one hash gets stuck, never when agreeing blocks have successors together; otherwise any two nodes of one hash have been searched from exhaustively, and both paths and both pruned paths are in the tables, the latter entered at their heads only exactly when the graph provides for it; every block of a stored path was paired with the best partner |
| `Matcher.BBMatcher.Analyze` | bbgroup/bb_match.py:461-481 | it fails exactly when findSubGraphs does; otherwise everything is searched and stored, the selection is made from the tables longest first, from four blocks up, and its non-empty buckets are returned, each once; of every bucket taken it keeps, in order, exactly the paths that no path kept before holds, unless there is only one such |
| `Outcomes.StorePruned` | bbgroup/bb_match.py:229-254 | nothing but the pruned paths of searches from two nodes of one hash is stored |
| `Outcomes.DeadSearchMeans` | bbgroup/bb_match.py:132-142 | a search with a dead end needs two agreeing blocks of which only one has successors |
| `Matcher.BBMatcher.FindSimilarNodes` | bbgroup/bb_match.py:319-348 | on the tables of the matcher: one node is answered with all the nodes of its hash, or fails if it is the only one; several as FindSimilar does |
| `MatcherExamples.FailingRun` | bbgroup/bb_match.py:132-142 | a graph of three blocks on which findSubGraphs fails |
| `MatcherExamples.SideEntryStored` | bbgroup/bb_match.py:38-39 | a graph that does not meet the condition, for which a pruned path that is entered from outside is stored |
| `SideEntries.EnteredIff` | bbgroup/bb_match.py:38-39 | every stored pruned path is entered at its head only, exactly when the search from any two nodes of one hash leaves a second path that is |
| `SideEntries.OneEntryEnters` | bbgroup/bb_match.py:38-39 | that is so on every graph in which no block that agrees with another one has two different predecessors |
| `SideEntries.PickedEntered` | bbgroup/bb_match.py:274-311 | then the selected instances are entered at their heads only |
| `Matcher.BBMatcher.StoredEntered` | bbgroup/bb_match.py:38-39 | both, for the tables of the matcher |
| `Selection.KeptIff` | bbgroup/bb_match.py:289-299 | a path is kept exactly when it is in the bucket, not covered and not left alone; nobody asks where it is entered |
| `Selection.SortByPathLen` | bbgroup/bb_match.py:256-266 | every bucket is listed once, under the length of its first path |
| `Selection.SubgraphHasExternalJumpsIntoIt` | bbgroup/bb_match.py:268-272 | it answers whether the path is not single-entry |
| `Selection.PickBucket` | bbgroup/bb_match.py:287-311 | the re-check never rejects a bucket that findSubGraphs made; its uncovered paths are kept if there are two at least |
| `Selection.PickLength` | bbgroup/bb_match.py:280-311 | all the buckets of one length, in their order |
| `Selection.GetMatchedWellFormedFunctions` | bbgroup/bb_match.py:274-311 | the buckets not below the minimum length are taken longest first, each once; a path is kept exactly when no path kept before holds all its blocks and it is not the only such of its bucket |
| `Selection.CollectInstances` | bbgroup/bb_match.py:476-479 | every bucket that is not empty is in the list, once |
| `Selection.PickedWithin` | bbgroup/bb_match.py:280-311 | what is selected of a bucket was in it |
| `Selection.LaterNotInside` | bbgroup/bb_match.py:289-296 | no path kept later lies inside a path kept from an earlier bucket |
| `Selection.NormalizedAt` | bbgroup/bb_match.py:282-299 | what is stored for a bucket is what was kept of it: nothing, or two paths or more |
| `Selection.NotKept` | bbgroup/bb_match.py:289-299 | a path is dropped only if it is covered or was the only one left |
| `Selection.CoveredMeans` | bbgroup/bb_match.py:289-296 | a path is covered exactly when one path moved before has all its blocks |
| `Selection.UncoveredPicks` | bbgroup/bb_match.py:289-296 | the paths that go on are those not covered, in their order |
| `Selection.KeptExactly` | bbgroup/bb_match.py:287-311 | what is kept of a bucket: the paths, in order, that no single path kept from an earlier bucket holds entirely, if there are two or more; else nothing |
| `Selection.PickedInOrder` | bbgroup/bb_match.py:280-311 | so for every bucket taken, and nothing is kept of the others |
| `Similar.ReadRows` | bbgroup/bb_match.py:336-344 | what every path of the bucket shows at the places of the hit is in the result, without repeats |
| `Similar.SearchBucket` | bbgroup/bb_match.py:332-345 | only the first hit of a bucket is used, and there is one exactly when the bucket has a hit |
| `Similar.SearchHash` | bbgroup/bb_match.py:330-345 | every bucket of one hash is read; the result is empty exactly when none has a hit |
| `Similar.FullSameLengths` | bbgroup/bb_match.py:203-227 | full buckets hold paths of one length, so no index is out of range |
| `Similar.FindSimilar` | bbgroup/bb_match.py:319-348 | a non-empty answer holds the query, has no repeats, has rows read at the same places of paths of one bucket, and is complete for the first node with a hit; an empty one means that there is no hit |
| `Similar.AnswerMeans` | bbgroup/bb_match.py:319-348 | in terms of the tables: each row stands, node by node, opposite the query in two paths of one bucket, and the answer is empty exactly when no stored path starts at a node of the query and has all of them |
| `BBGroupFile.EmitGroup` | groupman.cpp:573-585 | one group in parentheses |
| `BBGroupFile.EmitGroups` | groupman.cpp:562-588 | the groups of a super group, with separators between them |
| `BBGroupFile.EmitSuper` | groupman.cpp:552-590 | one line per super group, fields only when present |
| `BBGroupFile.EmitSgl` | groupman.cpp:544-592 | the lines of one section |
| `BBGroupFile.Emit` | groupman.cpp:595-616 | the text of both sections and of the additional ones |
| `BBGroupFile.ParseGroup` | groupman.cpp:355-376 | the nodes of one group, from the pieces that scan; each is registered in turn |
| `BBGroupFile.ParseNodeset` | groupman.cpp:336-379 | the parenthesised groups, as the reading function defines them |
| `BBGroupFile.ParseLine` | groupman.cpp:619-653 | the fields of one line |
| `BBGroupFile.MapNodedef` | groupman.h:314-317 | registering a node makes it the one kept for its id |
| `BBGroupFile.Parse` | groupman.cpp:670-714 | the two lists that the text is read as; all_nodes has exactly the ids of the nodes of both sections, each with the node read last under it |
| `BBGroupFile.NodesReadAre` | groupman.cpp:374-375 | the nodes read, line by line, are those of both lists |
| `Loading.LoadSuper` | groupman.cpp:707-710 | a line becomes a super group with its id, name and groups |
| `Loading.Load` | groupman.cpp:656-722 | the manager has the super groups of both sections with ids, names and groups, the nodes of both are registered, and the index is rebuilt exactly when asked for |
| `Loading.EmitManager` | groupman.cpp:595-616 | the text of the super groups of a manager |
| `Loading.EmitThenLoad` | groupman.cpp:544-722 | emitting a manager and parsing the text gives the same super groups, exactly when all of them are printable |
| `Loading.LoadedIds` | groupman.cpp:717-719 | the index built after parsing has exactly the ids of the first section |
| `Loading.ResetAfterParse` | groupman.cpp:725-767 | a reset after parsing puts the nodes of both sections on the path, for each id the one read last; the ids stay the same exactly when the second section has none of its own |
| `Loading.SecondSectionSpills` | groupman.cpp:374-375 | a concrete file of which a reset brings a node of the second section into the path |
| `TextScan.DigitsAreDigits` | groupman.cpp:581 | printed digits have the value printed, in any base up to 16 |
| `TextScan.ScanPrinted` | groupman.cpp:365 | scanning a printed number gives it back with what follows it |
| `LooseText.ScanLowered` | groupman.cpp:365 | so is one whose letters are in lower case |
| `LooseText.ReadLoweredNode` | groupman.cpp:365-372 | a node with its addresses in lower case is read as the printed one |
| `LooseText.ReadNodeCase` | groupman.cpp:365 | a node is read alike in any mixture of letters |
| `LooseText.ReadGroupsCase` | groupman.cpp:336-379 | so is a whole node set |
| `LooseText.SpacesAre` | groupman.cpp:341-363 | white space is exactly the six characters of isspace |
| `LooseText.ReadLooseNode` | groupman.cpp:365 | a node is read with any white space around its colons and any text after it |
| `LooseText.ReadHalfNode` | groupman.cpp:361-372 | without a second address the end is 0 |
| `LooseText.ReadBareNode` | groupman.cpp:361-372 | without any address start and end are 0 |
| `LooseText.NoNode` | groupman.cpp:365-366 | a piece is left out exactly when it does not start with a number, signed or not |
| `LooseText.ScanPlus` | groupman.cpp:365 | a plus sign in front of a number is allowed |
| `LooseText.ReadOneGroup` | groupman.cpp:341-350 | what stands between a parenthesis and the next closing one is a group; reading goes on behind it |
| `LooseText.ReadCommas` | groupman.cpp:355-376 | the nodes of a group are read from the pieces between commas; a comma in front of the group spoils its first piece |
| `LooseText.ReadFields` | groupman.cpp:619-653 | a line of fields in any order, with keys in either case and white space before keys and values: the last id and the last name count, and the groups of all node sets in order |
| `LooseText.ReadFileLines` | groupman.cpp:670-714 | each list of a file is made of the lines, in order, that are neither blank, comment nor header and whose last header above names its section; lines above any header belong to the first |
| `LooseText.ReadLoweredLine` | groupman.cpp:619-653 | the line of a super group with its addresses in lower case is read as the printed one |
| `LooseText.ReadLoweredFile` | groupman.cpp:656-722 | so is a whole file |
| `LooseText.PrintedExample` | groupman.cpp:544-616 | one super group as it is printed, character by character |
| `LooseText.ReadExample` | groupman.cpp:656-722 | the same text in lower case is read as that super group |
| `RoundTrip.ReadPrintedNode` | groupman.cpp:365-372 | a printed node is read back |
| `RoundTrip.ReadPrintedNodes` | groupman.cpp:355-376 | a printed list of nodes is read back, in order |
| `RoundTrip.ReadPrintedGroups` | groupman.cpp:336-379 | a printed list of groups is read back, empty groups included |
| `RoundTrip.ReadPrintedLine` | groupman.cpp:619-653 | a printed super group with clean texts is read back |
| `RoundTrip.ReadPrintedFile` | groupman.cpp:656-722 | with clean texts a printed file gives both lists back, without the wholly empty super groups |
| `RoundTrip.ReadPrintedThen` | groupman.cpp:656-722 | the same when more text follows, which is then read on from the second section |
| `RoundTrip.SectionsIff` | groupman.cpp:609-611 | additional sections leave printable lists as they are exactly when none of their lines is read as a super group |
| `RoundTrip.UnknownSectionsQuiet` | groupman.cpp:685-702 | sections that start with an unknown header and have no known one are not read |
| `RoundTrip.ReadFileClean` | groupman.cpp:656-722 | whatever the file says, every id and name read from it is clean |
| `RoundTrip.RoundTripIff` | groupman.cpp:544-722 | printing then parsing gives both lists back if and only if no id or name has a semicolon, a line end or a leading space, and no super group is wholly empty |
| `RoundTrip.LeadingSpaceLost` | groupman.cpp:632-640 | a concrete id that does not survive |
| `ColorGen.MakeRgb` | colorgen.cpp:35-49 | on byte channels the colour is 0 only for black; red is the upper and blue the lower byte of a real RGB value, the other way round otherwise |
| `ColorGen.ThreeHues` | colorgen.cpp:55-70 | of three hues 120 degrees apart one is at the upper and one at the lower level |
| `ColorGen.UpperHalf` | colorgen.cpp:55-70 | up to 690 degrees one hue is still in the upper half of the levels |
| `ColorGen.LuminosityKept` | colorgen.cpp:73-100 | for hues up to 467 the channels are bytes, the brightest and the darkest add up to 2L or 2L-1, and the brightest is not below L |
| `ColorGen.PrimaryHues` | colorgen.cpp:84-99 | at hues 0, 85 and 170 red, green and blue stand out and the other two channels are equal |
| `ColorGen.SaturationSpread` | colorgen.cpp:84-99 | the brightest channel is above L by the saturated share of the distance from L to the nearer end, and the darkest below it by as much, both truncated |
| `ColorGen.SixSectors` | colorgen.cpp:55-70 | a colour in each of the six sectors of the circle, for every luminosity up to 127 |
| `ColorGen.SumLost` | colorgen.cpp:73-100 | hue 468 is the first for which the sum is lost |
| `ColorGen.NeverBlack` | colorgen.cpp:73-100 | for hues up to 488 the brightest channel is not below L |
| `ColorGen.HueLimitExact` | colorgen.cpp:73-100 | 488 is the last hue at which every saturation and luminosity gives a colour other than black |
| `ColorGen.LuminosityBeyond` | colorgen.cpp:79-83 | luminosity 256 without saturation is cut down to black |
| `ColorGen.Variant.GetColor` | colorgen.cpp:103-112 | 0 when the luminosities are used up, otherwise the colour of the present luminosity, which then steps; for any parameters |
| `ColorGen.NeverZero` | colorgen.cpp:103-112 | on a well-formed generator no colour is 0 |
| `ColorGen.Generator.GetColorvar` | colorgen.cpp:115-151 | fails exactly when hues and saturations are used up; otherwise fills the variant and steps on |
| `ColorGen.Generator.constructor` | colorgen.cpp:154-166 | a generator starts rewound |
| `ColorGen.Generator.Rewind` | colorgen.cpp:169-173 | hue and saturation return to their starts |
| `ColorGen.Generator.GetColorAnyway` | colorgen.cpp:176-196 | ends after two attempts at most with a colour that is not 0: the next luminosity of the variant, or the first of the next hue, else of the next saturation, else from the very first |
| `ColorGen.Generator.Colors` | colorgen.cpp:176-196 | every call of every run ends with a colour that is not 0 |
| `ColorGen.DarkAttempts` | colorgen.cpp:176-196 | a generator with hue 489 for which any number of attempts gives 0, so that the loop does not end |
| `ColorGen.DefaultsWellFormed` | colorgen.h:34-37 | the default parameters satisfy the conditions |

## Left out

- User interface of plugin.cpp: menus, chooser, graph callbacks, highlighting, dialogs (with them the renaming of a new super group), the layout; also pybbmatcher.cpp, pywraps.hpp and util.cpp, which bridge to Python and to IDA.
- Files, pickle caches, `SaveState`, `LoadState`, `SerializeMatchedInlineFunctions`: the model starts from a cache miss and from the text as a sequence of characters.
- Text, hint and `node_map` entries of combined nodes (algo.hpp:75-117): disassembly text.
- `find_node_loc`, `match_block_frequencies`, `hash_itype1` and the digests themselves: no law that the code satisfies beyond equality.
- The `rekey` option of `get_block_frequency`, the `minFunctionHeadSize` branch and the entries that a `defaultdict` gains when `FindSimilar` reads it: off by default or without effect on the results.
- Memory: destructors and the freeing done by `clear` and `reset_groupping`; only objects deleted in the middle of an edit carry a `live` flag.
- In-place overwriting of the character buffer by the tokeniser: pieces of the text are values. NUL characters are not modelled, and `%a` is read and printed as hexadecimal without prefix.
- Widths of node ids and addresses: unbounded integers. The colour generator does model unsigned wrap-around; its floating point is exact real arithmetic.
- `UA_MAXOP`, `o_last` and `o_void` are the values that bbgroup/bb_ida.py uses outside IDA.
- The copy counter of `copy_attr_from` is a field of the manager; in the source it is one static variable.
- GroupMan.GroupManager.PromoteFound: the combined mode is this method with the hosts that the index gives; the lookup of a group by its graph node is not modelled.
- EditRuns.Run: single-node splits in a script name known nodes only, because otherwise the index may be left stale; `SplitNodes` states that case.
- GroupMan.GroupManager.MoveNodesToNg: the nodes are distinct and in the index, as its caller guarantees (plugin.cpp:1340-1358); the source would follow a null pointer otherwise.
- GroupMan.GroupManager.CombineNgl: the groups belong to the structure, as its caller guarantees; repetitions are allowed.
- Fingerprint.GetCmdPrimeCharacteristics: places beyond the end of the table, where the source raises an error, are excluded; so they are wherever it is called.
- ColorGen.Generator.GetColorAnyway: saturations and luminosities are bytes; beyond that a conversion from double to a byte is undefined in C++, or cuts the luminosity down (`ColorGen.LuminosityBeyond`).
